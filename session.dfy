/**
 * The game session of the view model: the current puzzle (or none), the
 * screen-state tag and the "a saved game exists" flag, with the operations
 * the screens invoke.
 */
module Session {
  import opened Wrappers
  import opened PuzzleModel
  import opened SudokuSizes
  import opened Difficulties
  import opened Validation
  import opened LocalStore
  import Repository

  datatype SudokuUiState =
    | Initial
    | Loading
    | Success(message: string)
    | Error(message: string)
    | ValidationSuccess
    | ValidationError(message: string)

  const GeneratedMessage := "Puzzle generado exitosamente"
  const GenerateFailedMessage := "Error al generar el puzzle"
  const IncorrectSolutionMessage := "La solución es incorrecta. ¡Sigue intentando!"
  const SavedMessage := "Partida guardada"
  const LoadedMessage := "Partida cargada"
  const NoSavedGameMessage := "No hay partida guardada"

  // ---------------------------------------------------------------- cell edits and reset

  /** The indexing a cell edit does stays inside the grids (the board only offers such cells). */
  predicate CanUpdate(current: Option<SudokuPuzzle>, row: int, col: int) {
    current.None? ||
    (InGrid(current.value.puzzle, row, col) &&
     (current.value.puzzle[row][col] == 0 ==> InGrid(current.value.currentState, row, col)))
  }

  /** There is a puzzle and (row, col) is not a fixed cell of it. */
  predicate IsEditable(current: Option<SudokuPuzzle>, row: int, col: int)
    requires CanUpdate(current, row, col)
  {
    current.Some? && current.value.puzzle[row][col] == 0
  }

  /** `g` with one cell replaced. */
  function WithCell(g: Grid, row: int, col: int, value: int): (r: Grid)
    requires InGrid(g, row, col)
    ensures SameShape(r, g) && r[row][col] == value
    ensures forall i, j :: InGrid(g, i, j) && (i != row || j != col) ==> r[i][j] == g[i][j]
  {
    g[row := g[row][col := value]]
  }

  /** The puzzle after entering `value` at (row, col). */
  function UpdatedPuzzle(current: Option<SudokuPuzzle>, row: int, col: int, value: int): (r: Option<SudokuPuzzle>)
    requires CanUpdate(current, row, col)
    ensures r.Some? <==> current.Some?
    ensures r.Some? ==>
      && SameShape(r.value.currentState, current.value.currentState)
      && r.value.puzzle == current.value.puzzle && r.value.solution == current.value.solution
      && r.value.size == current.value.size && r.value.difficulty == current.value.difficulty
  {
    if IsEditable(current, row, col) then
      var p := current.value;
      Some(p.(currentState := WithCell(p.currentState, row, col, value)))
    else current
  }

  /** The puzzle after a reset: the state is the clue grid again. */
  function ResetState(p: SudokuPuzzle): (r: SudokuPuzzle)
    ensures FixedCellsMirrorClues(r) && SameShape(r.currentState, r.puzzle)
    ensures r.puzzle == p.puzzle && r.solution == p.solution
    ensures r.size == p.size && r.difficulty == p.difficulty
  {
    p.(currentState := p.puzzle)
  }

  /** The screen state the validate action shows for `p`. */
  function ValidationOutcome(p: SudokuPuzzle): (r: SudokuUiState)
    ensures r == ValidationSuccess || r == ValidationError(IncorrectSolutionMessage)
    ensures r == ValidationSuccess <==> !HasEmptyCell(p.currentState) && p.currentState == p.solution
  {
    if IsSolved(p) then ValidationSuccess else ValidationError(IncorrectSolutionMessage)
  }

  /** Without a puzzle, or on a fixed cell, an edit changes nothing. */
  lemma UpdateIgnoredWithoutPuzzleOrOnFixedCell(current: Option<SudokuPuzzle>, row: int, col: int, value: int)
    requires CanUpdate(current, row, col)
    requires current.None? || current.value.puzzle[row][col] != 0
    ensures UpdatedPuzzle(current, row, col, value) == current
  {
  }

  /**
   * An edit of an editable cell stores `value` as given, with no range
   * check, in that cell only; every other cell and every other field stay.
   */
  lemma UpdateWritesOnlyTheCell(p: SudokuPuzzle, row: int, col: int, value: int)
    requires CanUpdate(Some(p), row, col) && p.puzzle[row][col] == 0
    ensures UpdatedPuzzle(Some(p), row, col, value).Some?
    ensures var q := UpdatedPuzzle(Some(p), row, col, value).value;
            && q.currentState[row][col] == value
            && SameShape(q.currentState, p.currentState)
            && (forall i, j :: InGrid(p.currentState, i, j) && (i != row || j != col) ==>
                  q.currentState[i][j] == p.currentState[i][j])
            && q.puzzle == p.puzzle && q.solution == p.solution
            && q.size == p.size && q.difficulty == p.difficulty
  {
  }

  /** Edits keep every fixed cell mirroring its clue. */
  lemma UpdatePreservesMirroredClues(p: SudokuPuzzle, row: int, col: int, value: int)
    requires CanUpdate(Some(p), row, col)
    requires FixedCellsMirrorClues(p)
    ensures FixedCellsMirrorClues(UpdatedPuzzle(Some(p), row, col, value).value)
  {
    if p.puzzle[row][col] == 0 {
      var q := UpdatedPuzzle(Some(p), row, col, value).value;
      forall i, j | InGrid(q.puzzle, i, j) && q.puzzle[i][j] != 0
        ensures InGrid(q.currentState, i, j) && q.currentState[i][j] == q.puzzle[i][j]
      {
        assert i != row || j != col;
      }
    }
  }

  /** A reset restores the clues, so fixed cells mirror them and editable cells are empty. */
  lemma ResetRestoresClues(p: SudokuPuzzle)
    ensures ResetState(p).currentState == p.puzzle
    ensures FixedCellsMirrorClues(ResetState(p))
    ensures forall row, col :: InGrid(p.puzzle, row, col) && p.puzzle[row][col] == 0 ==>
              ResetState(p).currentState[row][col] == 0
    ensures ResetState(p).puzzle == p.puzzle && ResetState(p).solution == p.solution
    ensures ResetState(p).size == p.size && ResetState(p).difficulty == p.difficulty
  {
  }

  /**
   * With every cell but one equal to a zero-free solution, entering that
   * cell's solution value completes the puzzle, and any other value does not.
   */
  lemma FillingTheLastCell(p: SudokuPuzzle, row: int, col: int, value: int)
    requires InGrid(p.solution, row, col) && InGrid(p.puzzle, row, col) && p.puzzle[row][col] == 0
    requires !HasEmptyCell(p.solution)
    requires p.currentState == WithCell(p.solution, row, col, 0)
    ensures CanUpdate(Some(p), row, col)
    ensures IsSolved(UpdatedPuzzle(Some(p), row, col, value).value) <==> value == p.solution[row][col]
  {
    var q := UpdatedPuzzle(Some(p), row, col, value).value;
    if value == p.solution[row][col] {
      assert q.currentState == p.solution by {
        assert SameShape(q.currentState, p.solution);
        forall i | 0 <= i < |p.solution| ensures q.currentState[i] == p.solution[i] {
          assert forall j :: 0 <= j < |p.solution[i]| ==> q.currentState[i][j] == p.solution[i][j];
        }
      }
    } else {
      assert q.currentState[row][col] != p.solution[row][col];
    }
  }

  // ---------------------------------------------------------------- the view model

  class MainViewModel {
    const repository: Repository.SudokuRepositoryImpl
    var uiState: SudokuUiState
    var currentPuzzle: Option<SudokuPuzzle>
    var hasSavedGame: bool

    /** Starts with no puzzle and checks the store for a saved game. */
    constructor (repository: Repository.SudokuRepositoryImpl)
      ensures this.repository == repository
      ensures uiState == Initial && currentPuzzle == None
      ensures hasSavedGame == Decode(repository.local.prefs).Some?
    {
      this.repository := repository;
      uiState := Initial;
      currentPuzzle := None;
      new;
      var saved := repository.LoadSavedPuzzle();
      hasSavedGame := saved.Some?;
    }

    /** Fetches a new puzzle from `api`; a failure keeps the current puzzle and reports the message. */
    method GenerateNewPuzzle(size: SudokuSize, difficulty: Difficulty, api: string -> Repository.ApiOutcome)
      modifies this
      ensures var result := Repository.FromApiOutcome(api(difficulty.ApiValue()), difficulty);
              match result
              case Success(p) => currentPuzzle == Some(p) && uiState == Success(GeneratedMessage)
              case Error(message) =>
                currentPuzzle == old(currentPuzzle) && uiState == Error(message.GetOr(GenerateFailedMessage))
              case Loading => currentPuzzle == old(currentPuzzle) && uiState == Loading
      ensures hasSavedGame == old(hasSavedGame)
    {
      uiState := Loading;
      var result := repository.GeneratePuzzle(size, difficulty, api);
      // A Loading result would set Loading again, which it already is.
      if result.Success? {
        currentPuzzle := Some(result.data);
        uiState := Success(GeneratedMessage);
      } else if result.Error? {
        uiState := Error(result.message.GetOr(GenerateFailedMessage));
      }
    }

    /** Enters `value` in an editable cell and saves the puzzle; otherwise does nothing. */
    method UpdateCell(row: int, col: int, value: int)
      requires CanUpdate(currentPuzzle, row, col)
      modifies this, repository.local
      ensures currentPuzzle == UpdatedPuzzle(old(currentPuzzle), row, col, value)
      ensures repository.local.prefs ==
                if IsEditable(old(currentPuzzle), row, col)
                then old(repository.local.prefs) + SavedEntries(currentPuzzle.value)
                else old(repository.local.prefs)
      ensures uiState == old(uiState) && hasSavedGame == old(hasSavedGame)
    {
      if currentPuzzle.None? { return; }
      var puzzle := currentPuzzle.value;
      if puzzle.puzzle[row][col] != 0 { return; }
      var newState := WithCell(puzzle.currentState, row, col, value);
      currentPuzzle := Some(puzzle.(currentState := newState));
      repository.SavePuzzle(currentPuzzle.value);
    }

    /** Shows whether the current puzzle is solved; changes nothing else. */
    method ValidateSolution()
      modifies this
      ensures currentPuzzle == old(currentPuzzle) && hasSavedGame == old(hasSavedGame)
      ensures uiState == if currentPuzzle.None? then old(uiState) else ValidationOutcome(currentPuzzle.value)
    {
      if currentPuzzle.None? { return; }
      var isValid := IsSolved(currentPuzzle.value);
      if isValid {
        uiState := ValidationSuccess;
      } else {
        uiState := ValidationError(IncorrectSolutionMessage);
      }
    }

    /** Puts the clues back as the state and saves the puzzle. */
    method ResetPuzzle()
      modifies this, repository.local
      ensures currentPuzzle == if old(currentPuzzle).None? then None else Some(ResetState(old(currentPuzzle).value))
      ensures repository.local.prefs ==
                if currentPuzzle.None? then old(repository.local.prefs)
                else old(repository.local.prefs) + SavedEntries(currentPuzzle.value)
      ensures uiState == old(uiState) && hasSavedGame == old(hasSavedGame)
    {
      if currentPuzzle.None? { return; }
      var puzzle := currentPuzzle.value;
      currentPuzzle := Some(ResetState(puzzle));
      repository.SavePuzzle(currentPuzzle.value);
    }

    /** Saves the current puzzle, if any, and records that a saved game exists. */
    method SavePuzzle()
      modifies this, repository.local
      ensures currentPuzzle == old(currentPuzzle)
      ensures old(currentPuzzle).None? ==>
                repository.local.prefs == old(repository.local.prefs) &&
                uiState == old(uiState) && hasSavedGame == old(hasSavedGame)
      ensures old(currentPuzzle).Some? ==>
                repository.local.prefs == old(repository.local.prefs) + SavedEntries(currentPuzzle.value) &&
                uiState == Success(SavedMessage) && hasSavedGame
    {
      if currentPuzzle.Some? {
        repository.SavePuzzle(currentPuzzle.value);
        hasSavedGame := true;
        uiState := Success(SavedMessage);
      }
    }

    /**
     * Installs the saved puzzle when one loads; otherwise reports that there
     * is none and keeps the current puzzle. The saved-game flag is left as it was.
     */
    method LoadSavedPuzzle()
      modifies this
      ensures var saved := Decode(repository.local.prefs);
              && (saved.Some? ==> currentPuzzle == saved && uiState == Success(LoadedMessage))
              && (saved.None? ==> currentPuzzle == old(currentPuzzle) && uiState == Error(NoSavedGameMessage))
      ensures hasSavedGame == old(hasSavedGame)
    {
      uiState := Loading;
      var saved := repository.LoadSavedPuzzle();
      if saved.Some? {
        currentPuzzle := saved;
        uiState := Success(LoadedMessage);
      } else {
        uiState := Error(NoSavedGameMessage);
      }
    }

    /** Back to the initial screen state. */
    method ClearState()
      modifies this
      ensures uiState == Initial
      ensures currentPuzzle == old(currentPuzzle) && hasSavedGame == old(hasSavedGame)
    {
      uiState := Initial;
    }

    /** Drops the current puzzle and the saved one. */
    method ClearCurrentPuzzle()
      modifies this, repository.local
      ensures currentPuzzle == None && !hasSavedGame
      ensures repository.local.prefs == old(repository.local.prefs) - StoreKeys
      ensures uiState == old(uiState)
    {
      currentPuzzle := None;
      repository.ClearSavedPuzzle();
      hasSavedGame := false;
    }
  }

  /** Clearing and then loading leaves no puzzle, no saved game and the "no saved game" message. */
  method ClearThenLoad(vm: MainViewModel)
    modifies vm, vm.repository.local
    ensures vm.currentPuzzle == None && !vm.hasSavedGame
    ensures vm.uiState == Error(NoSavedGameMessage)
  {
    vm.ClearCurrentPuzzle();
    LoadAfterClear(old(vm.repository.local.prefs));
    vm.LoadSavedPuzzle();
  }

  /** Saving and then loading brings back the same puzzle. */
  method SaveThenLoad(vm: MainViewModel)
    requires vm.currentPuzzle.Some?
    modifies vm, vm.repository.local
    ensures vm.currentPuzzle == old(vm.currentPuzzle) && vm.hasSavedGame
    ensures vm.uiState == Success(LoadedMessage)
  {
    vm.SavePuzzle();
    LoadAfterSave(old(vm.repository.local.prefs), vm.currentPuzzle.value);
    vm.LoadSavedPuzzle();
  }
}
