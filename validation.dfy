/** The all-or-nothing completion check. */
module Validation {
  import opened PuzzleModel

  /** Some cell of `g` is empty. */
  ghost predicate HasEmptyCell(g: Grid) {
    exists row, col :: InGrid(g, row, col) && g[row][col] == 0
  }

  /** Some cell of the row is empty, found by a scan from the left. */
  predicate RowHasZero(row: seq<int>): (b: bool)
    ensures b <==> exists col :: 0 <= col < |row| && row[col] == 0
  {
    if |row| == 0 then false
    else if row[0] == 0 then true
    else
      var b := RowHasZero(row[1..]);
      assert forall col :: 1 <= col < |row| ==> row[col] == row[1..][col - 1];
      b
  }

  /** Some row has an empty cell, found by a scan from the top. */
  predicate AnyZero(g: Grid): (b: bool)
    ensures b <==> HasEmptyCell(g)
  {
    if |g| == 0 then false
    else if RowHasZero(g[0]) then true
    else
      var b := AnyZero(g[1..]);
      assert forall row :: 1 <= row < |g| ==> g[row] == g[1..][row - 1];
      assert b ==> HasEmptyCell(g) by {
        if b {
          var row, col :| InGrid(g[1..], row, col) && g[1..][row][col] == 0;
          assert InGrid(g, row + 1, col) && g[row + 1][col] == 0;
        }
      }
      assert HasEmptyCell(g) ==> b by {
        if HasEmptyCell(g) {
          var row, col :| InGrid(g, row, col) && g[row][col] == 0;
          assert row != 0;
          assert InGrid(g[1..], row - 1, col) && g[1..][row - 1][col] == 0;
        }
      }
      b
  }

  /**
   * The completion check: false as soon as any cell of the current state
   * is empty; otherwise true exactly when the state equals the solution.
   */
  function IsSolved(p: SudokuPuzzle): (valid: bool)
    ensures HasEmptyCell(p.currentState) ==> !valid
    ensures !HasEmptyCell(p.currentState) ==> (valid <==> p.currentState == p.solution)
  {
    if AnyZero(p.currentState) then false
    else p.currentState == p.solution
  }

  /** The verdict reads only the current state and the solution. */
  lemma IsSolvedIgnoresOtherFields(p: SudokuPuzzle, q: SudokuPuzzle)
    requires p.currentState == q.currentState && p.solution == q.solution
    ensures IsSolved(p) == IsSolved(q)
  {
  }

  /** A state whose rows or row lengths differ from the solution is never solved. */
  lemma ShapeMismatchIsNeverSolved(p: SudokuPuzzle)
    requires !SameShape(p.currentState, p.solution)
    ensures !IsSolved(p)
  {
  }

  /** A solved state is a zero-free copy of the solution. */
  lemma SolvedMeansCompleteAndEqual(p: SudokuPuzzle)
    requires IsSolved(p)
    ensures p.currentState == p.solution
    ensures forall row, col :: InGrid(p.solution, row, col) ==> p.solution[row][col] != 0
  {
  }
}
