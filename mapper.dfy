/** Conversion of a generator response into a puzzle. */
module Mapper {
  import opened Wrappers
  import opened PuzzleModel
  import opened SudokuSizes
  import opened Difficulties
  import opened RemoteDto

  /** A clue row with each null cell replaced by 0. */
  function NormalizeRow(row: seq<Option<int>>): (r: seq<int>)
    ensures |r| == |row|
    ensures forall col :: 0 <= col < |row| ==> (row[col].None? ==> r[col] == 0)
    ensures forall col :: 0 <= col < |row| ==> (row[col].Some? ==> r[col] == row[col].value)
  {
    if |row| == 0 then []
    else
      var r := [row[0].GetOr(0)] + NormalizeRow(row[1..]);
      assert forall col :: 1 <= col < |row| ==> row[col] == row[1..][col - 1];
      r
  }

  /** The clue grid, row by row, with null clues turned into empty cells. */
  function NormalizeClues(g: seq<seq<Option<int>>>): (r: Grid)
    ensures |r| == |g|
    ensures forall row :: 0 <= row < |g| ==> |r[row]| == |g[row]|
    ensures forall row, col :: 0 <= row < |g| && 0 <= col < |g[row]| && g[row][col].None? ==> r[row][col] == 0
    ensures forall row, col :: 0 <= row < |g| && 0 <= col < |g[row]| && g[row][col].Some? ==>
              r[row][col] == g[row][col].value
  {
    if |g| == 0 then []
    else
      var r := [NormalizeRow(g[0])] + NormalizeClues(g[1..]);
      assert forall row :: 1 <= row < |g| ==> g[row] == g[1..][row - 1] && r[row] == NormalizeClues(g[1..])[row - 1];
      r
  }

  /**
   * The mapper's conversion: normalised clues, the state a copy of them,
   * the solution as received, always the 9x9 shape and the caller's
   * difficulty. The solution is a non-null parameter of the puzzle record,
   * so a null solution makes the source throw.
   */
  function ToDomain(response: SudokuResponse, difficulty: Difficulty): (p: SudokuPuzzle)
    requires response.solution.Some?
    ensures p.puzzle == NormalizeClues(response.puzzle) && p.currentState == p.puzzle
    ensures p.solution == response.solution.value
    ensures p.size == Large && p.difficulty == difficulty
  {
    var clues := NormalizeClues(response.puzzle);
    SudokuPuzzle(clues, response.solution.value, clues, Large, difficulty)
  }

  /** The fresh puzzle mirrors every clue and leaves every null clue empty. */
  lemma ToDomainStartsAtClues(response: SudokuResponse, difficulty: Difficulty)
    requires response.solution.Some?
    ensures FixedCellsMirrorClues(ToDomain(response, difficulty))
    ensures forall row, col :: 0 <= row < |response.puzzle| && 0 <= col < |response.puzzle[row]| ==>
              InGrid(ToDomain(response, difficulty).currentState, row, col) &&
              ToDomain(response, difficulty).currentState[row][col] == response.puzzle[row][col].GetOr(0)
  {
  }

  /** The response's own difficulty, width, height and grid fields play no part. */
  lemma ToDomainIgnoresMetadata(a: SudokuResponse, b: SudokuResponse, difficulty: Difficulty)
    requires a.puzzle == b.puzzle && a.solution == b.solution && a.solution.Some?
    ensures ToDomain(a, difficulty) == ToDomain(b, difficulty)
  {
  }
}
