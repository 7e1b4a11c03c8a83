/**
 * The repository: turning the generator's answer into a `Resource`, and
 * delegating save, load and clear to the local data source.
 */
module Repository {
  import opened Wrappers
  import opened PuzzleModel
  import opened SudokuSizes
  import opened Difficulties
  import opened RemoteDto
  import opened Mapper
  import opened LocalStore

  /** An HTTP response: its success flag, status message and parsed body (null when absent). */
  datatype ApiResponse = ApiResponse(isSuccessful: bool, message: string, body: Option<SudokuResponse>)

  /** What the remote call did: answered, or threw an exception with an optional message. */
  datatype ApiOutcome = Responded(response: ApiResponse) | Threw(message: Option<string>)

  const UnknownErrorMessage := "Error desconocido"

  /** The error text for an unsuccessful or empty response. */
  function ResponseErrorMessage(message: string): string {
    "Error: " + message
  }

  /** The part of puzzle generation that turns the call's outcome into a result. */
  function FromApiOutcome(outcome: ApiOutcome, difficulty: Difficulty): (r: Resource<SudokuPuzzle>)
    ensures !r.Loading?
    ensures r.Success? <==> outcome.Responded? && outcome.response.isSuccessful && outcome.response.body.Some?
    ensures outcome.Threw? ==> r == Error(Some(outcome.message.GetOr(UnknownErrorMessage)))
    ensures outcome.Responded? && !r.Success? ==> r == Error(Some(ResponseErrorMessage(outcome.response.message)))
    ensures r.Success? ==>
              var body := outcome.response.body.value;
              && r.data.puzzle == NormalizeClues(body.puzzle)
              && r.data.currentState == r.data.puzzle
              && r.data.solution == body.solution.GetOr([])
              && r.data.size == Large
              && r.data.difficulty == difficulty
  {
    match outcome
    case Threw(message) => Error(Some(message.GetOr(UnknownErrorMessage)))
    case Responded(response) =>
      if response.isSuccessful && response.body.Some? then
        var body := response.body.value;
        var clues := NormalizeClues(body.puzzle);
        Success(SudokuPuzzle(clues, body.solution.GetOr([]), clues, Large, difficulty))
      else
        Error(Some(ResponseErrorMessage(response.message)))
  }

  /** With a solution present, the conversion inlined here agrees with the mapper (ToDomain). */
  lemma FromApiOutcomeAgreesWithMapper(response: ApiResponse, difficulty: Difficulty)
    requires response.isSuccessful && response.body.Some? && response.body.value.solution.Some?
    ensures FromApiOutcome(Responded(response), difficulty) == Success(ToDomain(response.body.value, difficulty))
  {
  }

  /** A generated puzzle starts with every fixed cell mirroring its clue. */
  lemma GeneratedPuzzleMirrorsClues(outcome: ApiOutcome, difficulty: Difficulty)
    requires FromApiOutcome(outcome, difficulty).Success?
    ensures FixedCellsMirrorClues(FromApiOutcome(outcome, difficulty).data)
  {
  }

  /** The repository: a remote generator passed per call, and the local data source it owns. */
  class SudokuRepositoryImpl {
    const local: SudokuLocalDataSource

    constructor (local: SudokuLocalDataSource)
      ensures this.local == local
    {
      this.local := local;
    }

    /**
     * Asks `api` for a puzzle with the difficulty's request value. The
     * requested size is ignored: the result is always 9x9.
     */
    method GeneratePuzzle(size: SudokuSize, difficulty: Difficulty, api: string -> ApiOutcome)
      returns (r: Resource<SudokuPuzzle>)
      ensures r == FromApiOutcome(api(difficulty.ApiValue()), difficulty)
      ensures r.Success? ==> r.data.size == Large && r.data.difficulty == difficulty
    {
      var outcome := api(difficulty.ApiValue());
      r := FromApiOutcome(outcome, difficulty);
    }

    method SavePuzzle(p: SudokuPuzzle)
      modifies local
      ensures local.prefs == old(local.prefs) + SavedEntries(p)
    {
      local.SavePuzzle(p);
    }

    method LoadSavedPuzzle() returns (r: Option<SudokuPuzzle>)
      ensures r == Decode(local.prefs)
    {
      r := local.LoadPuzzle();
    }

    method ClearSavedPuzzle()
      modifies local
      ensures local.prefs == old(local.prefs) - StoreKeys
    {
      local.ClearPuzzle();
    }
  }
}
