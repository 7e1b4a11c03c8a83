/** The puzzle record: clues, solution, the player's state, shape and difficulty. */
module PuzzleModel {
  import opened SudokuSizes
  import opened Difficulties

  /** A grid of cells, row by row; 0 is an empty cell. */
  type Grid = seq<seq<int>>

  datatype SudokuPuzzle = SudokuPuzzle(
    puzzle: Grid,
    solution: Grid,
    currentState: Grid,
    size: SudokuSize,
    difficulty: Difficulty)

  /** (row, col) addresses a cell of `g`. */
  predicate InGrid(g: Grid, row: int, col: int) {
    0 <= row < |g| && 0 <= col < |g[row]|
  }

  /** Every fixed cell (non-zero clue) has its clue in the current state. */
  ghost predicate FixedCellsMirrorClues(p: SudokuPuzzle) {
    forall row, col :: InGrid(p.puzzle, row, col) && p.puzzle[row][col] != 0 ==>
      InGrid(p.currentState, row, col) && p.currentState[row][col] == p.puzzle[row][col]
  }

  /** Two grids have the same number of rows and the same row lengths. */
  ghost predicate SameShape(a: Grid, b: Grid) {
    |a| == |b| && forall row :: 0 <= row < |a| ==> |a[row]| == |b[row]|
  }
}
