/** What crosses the boundary from the remote generator, and the generation result wrapper. */
module RemoteDto {
  import opened Wrappers
  import opened PuzzleModel

  /**
   * The generator's JSON body. Clue cells may be null. The solution is
   * declared non-null, but Gson fills a missing field with null, so it is
   * optional here.
   */
  datatype SudokuResponse = SudokuResponse(
    puzzle: seq<seq<Option<int>>>,
    solution: Option<Grid>,
    difficulty: string,
    width: int,
    height: int,
    grid: Grid)

  /** Outcome of a repository call that may fail with a message. */
  datatype Resource<T> = Success(data: T) | Error(message: Option<string>) | Loading
}
