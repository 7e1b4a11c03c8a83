/**
 * The six-key persisted record of a puzzle in a key-value preferences
 * store, read back with "fail soft to null" rules.
 */
module LocalStore {
  import opened Wrappers
  import opened PuzzleModel
  import opened SudokuSizes
  import opened Difficulties
  import opened GridCodec

  /** A stored preference value: a string or an integer (Kotlin's 32-bit `Int`, unbounded here). */
  datatype StoreValue = StringValue(s: string) | IntValue(i: int)

  type Prefs = map<string, StoreValue>

  const KeyPuzzle := "saved_puzzle"
  const KeySolution := "saved_solution"
  const KeyCurrentState := "saved_current_state"
  const KeySizeWidth := "saved_size_width"
  const KeySizeHeight := "saved_size_height"
  const KeyDifficulty := "saved_difficulty"

  const StoreKeys: set<string> :=
    {KeyPuzzle, KeySolution, KeyCurrentState, KeySizeWidth, KeySizeHeight, KeyDifficulty}

  /** The entries a save writes: three encoded grids, the shape's dimensions and the difficulty's name. */
  function SavedEntries(p: SudokuPuzzle): (m: Prefs)
    ensures m.Keys == StoreKeys
  {
    map[KeyPuzzle := StringValue(EncodeGrid(p.puzzle)),
        KeySolution := StringValue(EncodeGrid(p.solution)),
        KeyCurrentState := StringValue(EncodeGrid(p.currentState)),
        KeySizeWidth := IntValue(p.size.Width()),
        KeySizeHeight := IntValue(p.size.Height()),
        KeyDifficulty := StringValue(p.difficulty.Name())]
  }

  /**
   * Reading a string entry: absent when the key is missing. A value of
   * another type makes the store throw, which the loader catches, so it
   * reads as absent too.
   */
  function GetString(prefs: Prefs, key: string): (r: Option<string>)
    ensures r.Some? <==> key in prefs && prefs[key].StringValue?
    ensures r.Some? ==> r.value == prefs[key].s
  {
    if key in prefs && prefs[key].StringValue? then Some(prefs[key].s) else None
  }

  /**
   * Reading an integer entry: the default when the key is missing; absent
   * (the store throws) when the value is not an integer.
   */
  function GetInt(prefs: Prefs, key: string, default: int): (r: Option<int>)
    ensures key !in prefs ==> r == Some(default)
    ensures key in prefs ==> (r.Some? <==> prefs[key].IntValue?)
    ensures key in prefs && r.Some? ==> r.value == prefs[key].i
  {
    if key !in prefs then Some(default)
    else if prefs[key].IntValue? then Some(prefs[key].i)
    else None
  }

  /**
   * The puzzle the loader reconstructs from `prefs`, or nothing. A loaded
   * puzzle's grids are the decoded texts of its three string entries, its
   * difficulty is the one whose name is stored, and its size is the shape
   * found for the stored dimensions (missing ones read as 0).
   */
  function Decode(prefs: Prefs): (r: Option<SudokuPuzzle>)
    ensures r.Some? ==>
      && KeyPuzzle in prefs && prefs[KeyPuzzle].StringValue?
      && DecodeGrid(prefs[KeyPuzzle].s) == Some(r.value.puzzle)
      && KeySolution in prefs && prefs[KeySolution].StringValue?
      && DecodeGrid(prefs[KeySolution].s) == Some(r.value.solution)
      && KeyCurrentState in prefs && prefs[KeyCurrentState].StringValue?
      && DecodeGrid(prefs[KeyCurrentState].s) == Some(r.value.currentState)
      && KeyDifficulty in prefs && prefs[KeyDifficulty] == StringValue(r.value.difficulty.Name())
    ensures r.Some? ==>
      var width := GetInt(prefs, KeySizeWidth, 0);
      var height := GetInt(prefs, KeySizeHeight, 0);
      width.Some? && height.Some? && r.value.size == FromDimensions(width.value, height.value)
  {
    var puzzleText := GetString(prefs, KeyPuzzle);
    var solutionText := GetString(prefs, KeySolution);
    var stateText := GetString(prefs, KeyCurrentState);
    var width := GetInt(prefs, KeySizeWidth, 0);
    var height := GetInt(prefs, KeySizeHeight, 0);
    var difficultyName := GetString(prefs, KeyDifficulty);
    if puzzleText.None? || solutionText.None? || stateText.None? || width.None? || height.None? || difficultyName.None? then
      None
    else
      var puzzle := DecodeGrid(puzzleText.value);
      var solution := DecodeGrid(solutionText.value);
      var state := DecodeGrid(stateText.value);
      var difficulty := ValueOf(difficultyName.value);
      if puzzle.None? || solution.None? || state.None? || difficulty.None? then None
      else Some(SudokuPuzzle(puzzle.value, solution.value, state.value,
                             FromDimensions(width.value, height.value), difficulty.value))
  }

  /** The preferences-backed data source; `prefs` is the whole store, shared with other keys. */
  class SudokuLocalDataSource {
    var prefs: Prefs

    constructor (initial: Prefs)
      ensures prefs == initial
    {
      prefs := initial;
    }

    /** Collects the six entries in an edit batch and commits it; no other key changes. */
    method SavePuzzle(p: SudokuPuzzle)
      modifies this
      ensures prefs == old(prefs) + SavedEntries(p)
    {
      var edits: Prefs := map[];
      edits := edits[KeyPuzzle := StringValue(EncodeGrid(p.puzzle))];
      edits := edits[KeySolution := StringValue(EncodeGrid(p.solution))];
      edits := edits[KeyCurrentState := StringValue(EncodeGrid(p.currentState))];
      edits := edits[KeySizeWidth := IntValue(p.size.Width())];
      edits := edits[KeySizeHeight := IntValue(p.size.Height())];
      edits := edits[KeyDifficulty := StringValue(p.difficulty.Name())];
      prefs := prefs + edits;
    }

    /** Reads the six entries in turn, giving up with nothing at the first one missing or unreadable. */
    method LoadPuzzle() returns (r: Option<SudokuPuzzle>)
      ensures r == Decode(prefs)
    {
      var puzzleText := GetString(prefs, KeyPuzzle);
      if puzzleText.None? { return None; }
      var solutionText := GetString(prefs, KeySolution);
      if solutionText.None? { return None; }
      var stateText := GetString(prefs, KeyCurrentState);
      if stateText.None? { return None; }
      var width := GetInt(prefs, KeySizeWidth, 0);
      if width.None? { return None; }
      var height := GetInt(prefs, KeySizeHeight, 0);
      if height.None? { return None; }
      var difficultyName := GetString(prefs, KeyDifficulty);
      if difficultyName.None? { return None; }

      var puzzle := DecodeGrid(puzzleText.value);
      if puzzle.None? { return None; }
      var solution := DecodeGrid(solutionText.value);
      if solution.None? { return None; }
      var state := DecodeGrid(stateText.value);
      if state.None? { return None; }
      var size := FromDimensions(width.value, height.value);
      var difficulty := ValueOf(difficultyName.value);
      if difficulty.None? { return None; }
      r := Some(SudokuPuzzle(puzzle.value, solution.value, state.value, size, difficulty.value));
    }

    /** Collects the six removals in an edit batch and commits it; no other key changes. */
    method ClearPuzzle()
      modifies this
      ensures prefs == old(prefs) - StoreKeys
    {
      var removals: set<string> := {};
      removals := removals + {KeyPuzzle};
      removals := removals + {KeySolution};
      removals := removals + {KeyCurrentState};
      removals := removals + {KeySizeWidth};
      removals := removals + {KeySizeHeight};
      removals := removals + {KeyDifficulty};
      prefs := prefs - removals;
    }
  }

  // ---------------------------------------------------------------- properties

  /** What each of the six reads sees right after a save. */
  lemma SavedEntriesRead(prefs: Prefs, p: SudokuPuzzle)
    ensures var m := prefs + SavedEntries(p);
            && GetString(m, KeyPuzzle) == Some(EncodeGrid(p.puzzle))
            && GetString(m, KeySolution) == Some(EncodeGrid(p.solution))
            && GetString(m, KeyCurrentState) == Some(EncodeGrid(p.currentState))
            && GetInt(m, KeySizeWidth, 0) == Some(p.size.Width())
            && GetInt(m, KeySizeHeight, 0) == Some(p.size.Height())
            && GetString(m, KeyDifficulty) == Some(p.difficulty.Name())
  {
    var m := prefs + SavedEntries(p);
    assert m[KeyPuzzle] == StringValue(EncodeGrid(p.puzzle));
    assert m[KeySolution] == StringValue(EncodeGrid(p.solution));
    assert m[KeyCurrentState] == StringValue(EncodeGrid(p.currentState));
    assert m[KeySizeWidth] == IntValue(p.size.Width());
    assert m[KeySizeHeight] == IntValue(p.size.Height());
    assert m[KeyDifficulty] == StringValue(p.difficulty.Name());
  }

  /** Loading after saving gives back the saved puzzle, field for field. */
  lemma LoadAfterSave(prefs: Prefs, p: SudokuPuzzle)
    ensures Decode(prefs + SavedEntries(p)) == Some(p)
  {
    SavedEntriesRead(prefs, p);
    DecodeEncodeGrid(p.puzzle);
    DecodeEncodeGrid(p.solution);
    DecodeEncodeGrid(p.currentState);
    FromDimensionsOfShape(p.size);
    ValueOfName(p.difficulty);
  }

  /** After clearing, nothing loads. */
  lemma LoadAfterClear(prefs: Prefs)
    ensures Decode(prefs - StoreKeys) == None
  {
    assert KeyPuzzle !in prefs - StoreKeys;
  }

  /** A missing puzzle, solution, state or difficulty entry means nothing loads. */
  lemma MissingEntryLoadsNothing(prefs: Prefs, key: string)
    requires key == KeyPuzzle || key == KeySolution || key == KeyCurrentState || key == KeyDifficulty
    requires key !in prefs
    ensures Decode(prefs) == None
  {
  }

  /** A missing width or height reads as 0, so the loaded shape falls back to 9x9. */
  lemma MissingDimensionFallsBack(prefs: Prefs, key: string)
    requires key == KeySizeWidth || key == KeySizeHeight
    requires key !in prefs
    ensures Decode(prefs) == Decode(prefs[key := IntValue(0)])
    ensures Decode(prefs).Some? ==> Decode(prefs).value.size == Large
  {
    var m := prefs[key := IntValue(0)];
    assert GetString(prefs, KeyPuzzle) == GetString(m, KeyPuzzle);
    assert GetString(prefs, KeySolution) == GetString(m, KeySolution);
    assert GetString(prefs, KeyCurrentState) == GetString(m, KeyCurrentState);
    assert GetString(prefs, KeyDifficulty) == GetString(m, KeyDifficulty);
    assert GetInt(prefs, KeySizeWidth, 0) == GetInt(m, KeySizeWidth, 0);
    assert GetInt(prefs, KeySizeHeight, 0) == GetInt(m, KeySizeHeight, 0);
  }

  /** An unknown difficulty name means nothing loads. */
  lemma UnknownDifficultyLoadsNothing(prefs: Prefs, name: string)
    requires KeyDifficulty in prefs && prefs[KeyDifficulty] == StringValue(name)
    requires forall d: Difficulty :: d.Name() != name
    ensures Decode(prefs) == None
  {
  }

  /** A stored grid that does not parse means nothing loads. */
  lemma UnparsableGridLoadsNothing(prefs: Prefs, key: string, text: string)
    requires key == KeyPuzzle || key == KeySolution || key == KeyCurrentState
    requires key in prefs && prefs[key] == StringValue(text)
    requires DecodeGrid(text) == None
    ensures Decode(prefs) == None
  {
  }

  /** An entry of the wrong type (the store would throw) means nothing loads. */
  lemma MistypedEntryLoadsNothing(prefs: Prefs, key: string)
    requires key in StoreKeys && key in prefs
    requires key == KeySizeWidth || key == KeySizeHeight ==> prefs[key].StringValue?
    requires key != KeySizeWidth && key != KeySizeHeight ==> prefs[key].IntValue?
    ensures Decode(prefs) == None
  {
    if key == KeySizeWidth || key == KeySizeHeight {
      assert GetInt(prefs, key, 0).None?;
    } else {
      assert GetString(prefs, key).None?;
    }
  }

  /** Saving and clearing leave every other key of the store as it was. */
  lemma OtherKeysUntouched(prefs: Prefs, p: SudokuPuzzle, key: string)
    requires key !in StoreKeys
    ensures (key in prefs + SavedEntries(p)) == (key in prefs) && (key in prefs - StoreKeys) == (key in prefs)
    ensures key in prefs ==> (prefs + SavedEntries(p))[key] == prefs[key] && (prefs - StoreKeys)[key] == prefs[key]
  {
  }
}
