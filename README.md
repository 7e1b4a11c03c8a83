# Sudoku puzzle core — a Dafny model

This project models the core of a sudoku client (an Android app written in Kotlin). The app fetches a puzzle from a remote generator, lets the player fill cells, checks whether the board is complete, and keeps the game in a key-value preferences store between sessions. The model covers:

- **Board shapes** (`SudokuSizes`): the catalog of 4×4/2×2, 6×6/2×3 and 9×9/3×3 shapes, and the lookup by width and height. The lookup falls back to 9×9 when nothing matches.
- **Difficulty** (`Difficulties`): three tags. Each has a request value and an enum name, and the name can be looked up back to its tag.
- **Puzzle record** (`PuzzleModel`): clue grid, solution, current state, shape and difficulty. It also defines the invariant "every fixed cell mirrors its clue".
- **Completion check** (`Validation`): any empty (0) cell means "not solved". Otherwise the state must equal the solution structurally.
- **Response conversion** (`RemoteDto`, `Mapper`, `Repository`): there are two copies in the source, the mapper's `toDomain` and the branch inside the repository's `generatePuzzle` that actually runs. Both are modelled, and a lemma proves they agree whenever the solution is present.
- **Persistence** (`GridCodec`, `LocalStore`): grids are written as compact JSON text, `[[5,0],[1,-2]]`, which is what Gson writes for a list of integer lists. The store is a class whose `map<string, StoreValue>` field is the whole preferences store. Saving writes six keys and clearing removes them. Loading rebuilds the puzzle under "fail soft to null" rules.
- **Session** (`Session`): the view model's current puzzle, screen state and saved-game flag, and every operation the screens invoke on it.

Three behaviours of the code are worth stating up front, and the model keeps them:
- Loading a saved game does not refresh the "has saved game" flag. Only construction, explicit save and clear change it.
- The requested board size is ignored: every generated puzzle is 9×9.
- The mapper's `toDomain` is never called. The repository's inlined copy replaces a null solution with the empty grid, where the mapper would fail on it.

## Model

| member | source | states |
|---|---|---|
| SudokuSizes.Find | app/src/main/java/com/example/exam/domain/model/SudokuSize.kt:15 | absent exactly when no candidate has the dimensions; otherwise the first candidate in catalog order that has them |
| SudokuSizes.FromDimensions | app/src/main/java/com/example/exam/domain/model/SudokuSize.kt:14-17 | returns a catalog shape with the requested dimensions when one exists, and the 9×9 shape when none does; never fails |
| SudokuSizes.FromDimensionsOfShape | app/src/main/java/com/example/exam/domain/model/SudokuSize.kt:9-16 | every shape is recovered from its own width and height, because catalog dimensions are distinct |
| SudokuSizes.CatalogShapesAreWellFormed | app/src/main/java/com/example/exam/domain/model/SudokuSize.kt:9-11 | every shape is square, its box width times box height equals its width, and the boxes divide the sides |
| SudokuSizes.FromDimensionsFallsBack | app/src/main/java/com/example/exam/domain/model/SudokuSize.kt:15-16 | (5,5), (0,0) and (4,9) all resolve to 9×9 with 3×3 boxes |
| Difficulties.ValueOf | app/src/main/java/com/example/exam/data/local/SudokuLocalDataSource.kt:55 | a found tag has exactly the given name; absent exactly when no tag has that name |
| Difficulties.ValueOfName | app/src/main/java/com/example/exam/domain/model/Difficulty.kt:4-8 | looking up a tag's own name gives the tag back |
| Validation.RowHasZero | app/src/main/java/com/example/exam/domain/usecase/ValidateSolutionUseCase.kt:8 | true exactly when some cell of the row is 0 |
| Validation.AnyZero | app/src/main/java/com/example/exam/domain/usecase/ValidateSolutionUseCase.kt:8 | true exactly when some cell of the grid is 0 |
| Validation.IsSolved | app/src/main/java/com/example/exam/domain/usecase/ValidateSolutionUseCase.kt:7-13 | false whenever the state has an empty cell, whatever the solution is; otherwise true exactly when the state equals the solution |
| Validation.IsSolvedIgnoresOtherFields | app/src/main/java/com/example/exam/domain/usecase/ValidateSolutionUseCase.kt:7-13 | the verdict depends only on the current state and the solution, not on clues, size or difficulty |
| Validation.ShapeMismatchIsNeverSolved | app/src/main/java/com/example/exam/domain/usecase/ValidateSolutionUseCase.kt:12 | a state whose row count or row lengths differ from the solution's is never solved |
| Validation.SolvedMeansCompleteAndEqual | app/src/main/java/com/example/exam/domain/usecase/ValidateSolutionUseCase.kt:8-12 | a solved puzzle's state equals its solution, and that solution has no empty cell |
| Mapper.NormalizeRow | app/src/main/java/com/example/exam/data/mapper/SudokuMapper.kt:12 | keeps the row's length; each null cell becomes 0 and each non-null cell keeps its value |
| Mapper.NormalizeClues | app/src/main/java/com/example/exam/data/mapper/SudokuMapper.kt:11-13 | keeps the row count and each row's length; each null clue becomes 0 and each non-null clue is kept |
| Mapper.ToDomain | app/src/main/java/com/example/exam/data/mapper/SudokuMapper.kt:8-22 | clues are the normalised grid and the state equals them; the solution is passed through; the size is always 9×9; the difficulty is the argument |
| Mapper.ToDomainStartsAtClues | app/src/main/java/com/example/exam/data/mapper/SudokuMapper.kt:11-18 | the new puzzle's fixed cells mirror their clues, and every state cell equals its clue, or 0 when the clue was null |
| Mapper.ToDomainIgnoresMetadata | app/src/main/java/com/example/exam/data/mapper/SudokuMapper.kt:8-21 | the response's difficulty string, width, height and grid fields do not affect the result |
| Repository.FromApiOutcome | app/src/main/java/com/example/exam/data/repository/SudokuRepositoryImpl.kt:22-50 | success exactly when the call answered successfully with a body; a thrown exception gives an error with its message, or "Error desconocido" when there is none; any other answer gives "Error: " + the status message; a success holds the normalised clues as both clues and state, the solution (empty if null), the 9×9 size and the requested difficulty; the result is never Loading |
| Repository.FromApiOutcomeAgreesWithMapper | app/src/main/java/com/example/exam/data/repository/SudokuRepositoryImpl.kt:30-41 | when the solution is present, the repository's inlined conversion gives the same puzzle as the mapper |
| Repository.GeneratedPuzzleMirrorsClues | app/src/main/java/com/example/exam/data/repository/SudokuRepositoryImpl.kt:31-38 | a generated puzzle starts with every fixed cell mirroring its clue |
| Repository.SudokuRepositoryImpl.constructor | app/src/main/java/com/example/exam/data/repository/SudokuRepositoryImpl.kt:13-16 | the repository owns the given local data source |
| Repository.SudokuRepositoryImpl.GeneratePuzzle | app/src/main/java/com/example/exam/data/repository/SudokuRepositoryImpl.kt:18-51 | the request carries the difficulty's request value; the requested size plays no part, and a success is 9×9 with the requested difficulty |
| Repository.SudokuRepositoryImpl.SavePuzzle | app/src/main/java/com/example/exam/data/repository/SudokuRepositoryImpl.kt:54-56 | the store gains the six saved entries of the puzzle and nothing else changes |
| Repository.SudokuRepositoryImpl.LoadSavedPuzzle | app/src/main/java/com/example/exam/data/repository/SudokuRepositoryImpl.kt:58-60 | returns what the local data source decodes from the store |
| Repository.SudokuRepositoryImpl.ClearSavedPuzzle | app/src/main/java/com/example/exam/data/repository/SudokuRepositoryImpl.kt:62-64 | the store loses the six keys and nothing else changes |
| GridCodec.EncodeGrid | app/src/main/java/com/example/exam/data/local/SudokuLocalDataSource.kt:26-28 | the text of a grid opens with `[` and closes with `]`, and is exactly `[]` when the grid has no rows |
| GridCodec.DecodeGrid | app/src/main/java/com/example/exam/data/local/SudokuLocalDataSource.kt:45-48 | any text that decodes opens with `[`; the grid with no rows comes only from the text `[]` |
| GridCodec.DecodeEncodeGrid | app/src/main/java/com/example/exam/data/local/SudokuLocalDataSource.kt:45-48 | decoding an encoded grid gives the same grid back, with its rows, row lengths and order |
| GridCodec.MalformedTextDoesNotDecode | app/src/main/java/com/example/exam/data/local/SudokuLocalDataSource.kt:57-58 | empty text, a non-bracketed text, a flat list and an unclosed grid all fail to decode |
| LocalStore.SavedEntries | app/src/main/java/com/example/exam/data/local/SudokuLocalDataSource.kt:24-33 | the saved entries have exactly the six keys |
| LocalStore.GetString | app/src/main/java/com/example/exam/data/local/SudokuLocalDataSource.kt:38 | present exactly when the key holds a string, and then it is that string |
| LocalStore.GetInt | app/src/main/java/com/example/exam/data/local/SudokuLocalDataSource.kt:41-42 | a missing key reads as the default; a present key reads exactly when it holds an integer, and then it is that integer |
| LocalStore.Decode | app/src/main/java/com/example/exam/data/local/SudokuLocalDataSource.kt:36-60 | a loaded puzzle's clue, solution and state grids decode from the three string entries, its difficulty's name is the stored name, and its size is the shape found for the stored width and height (a missing one read as 0); it loads nothing when an entry is missing or mistyped, a grid text does not parse or the name is unknown (the lemmas below) |
| LocalStore.SudokuLocalDataSource.constructor | app/src/main/java/com/example/exam/data/local/SudokuLocalDataSource.kt:11-14 | the data source starts over the given store contents |
| LocalStore.SudokuLocalDataSource.SavePuzzle | app/src/main/java/com/example/exam/data/local/SudokuLocalDataSource.kt:24-34 | the new store is the old one overwritten with the six saved entries |
| LocalStore.SudokuLocalDataSource.LoadPuzzle | app/src/main/java/com/example/exam/data/local/SudokuLocalDataSource.kt:36-60 | the sequence of reads with early null returns yields the decoded puzzle of the store |
| LocalStore.SudokuLocalDataSource.ClearPuzzle | app/src/main/java/com/example/exam/data/local/SudokuLocalDataSource.kt:62-72 | the new store is the old one without the six keys |
| LocalStore.SavedEntriesRead | app/src/main/java/com/example/exam/data/local/SudokuLocalDataSource.kt:26-43 | right after a save, each of the six reads returns what was written: the three grid texts, the shape's width and height, and the difficulty's name |
| LocalStore.LoadAfterSave | app/src/main/java/com/example/exam/data/local/SudokuLocalDataSource.kt:24-56 | loading after a save, over any earlier store, gives back the saved puzzle, with its size recovered from its dimensions |
| LocalStore.LoadAfterClear | app/src/main/java/com/example/exam/data/local/SudokuLocalDataSource.kt:62-72 | after clearing, nothing loads |
| LocalStore.MissingEntryLoadsNothing | app/src/main/java/com/example/exam/data/local/SudokuLocalDataSource.kt:38-43 | a missing puzzle, solution, current-state or difficulty key means nothing loads |
| LocalStore.MissingDimensionFallsBack | app/src/main/java/com/example/exam/data/local/SudokuLocalDataSource.kt:41-54 | a missing width or height loads the same as a stored 0, and any puzzle loaded that way is 9×9 |
| LocalStore.UnknownDifficultyLoadsNothing | app/src/main/java/com/example/exam/data/local/SudokuLocalDataSource.kt:55-58 | a stored difficulty name that matches no tag means nothing loads, and nothing fails |
| LocalStore.UnparsableGridLoadsNothing | app/src/main/java/com/example/exam/data/local/SudokuLocalDataSource.kt:45-58 | a stored grid text that does not parse means nothing loads |
| LocalStore.MistypedEntryLoadsNothing | app/src/main/java/com/example/exam/data/local/SudokuLocalDataSource.kt:37-59 | an entry of the wrong type, which makes the store throw, means nothing loads |
| LocalStore.OtherKeysUntouched | app/src/main/java/com/example/exam/data/local/SudokuLocalDataSource.kt:24-71 | saving and clearing leave the presence and value of every other key unchanged |
| Session.WithCell | app/src/main/java/com/example/exam/presentation/screens/MainViewModel.kt:77-78 | the copy has the same shape, the new value at the target cell, and every other cell unchanged |
| Session.UpdatedPuzzle | app/src/main/java/com/example/exam/presentation/screens/MainViewModel.kt:72-80 | an edit leaves a puzzle present exactly when there was one, keeps the state's shape, and keeps the clues, solution, size and difficulty |
| Session.UpdateIgnoredWithoutPuzzleOrOnFixedCell | app/src/main/java/com/example/exam/presentation/screens/MainViewModel.kt:72-75 | with no puzzle, or on a fixed cell, an edit changes nothing |
| Session.UpdateWritesOnlyTheCell | app/src/main/java/com/example/exam/presentation/screens/MainViewModel.kt:77-80 | an edit of an editable cell stores the value as given, with no range check; every other cell and the clues, solution, size and difficulty are unchanged |
| Session.UpdatePreservesMirroredClues | app/src/main/java/com/example/exam/presentation/screens/MainViewModel.kt:75-80 | edits keep every fixed cell mirroring its clue |
| Session.ResetRestoresClues | app/src/main/java/com/example/exam/presentation/screens/MainViewModel.kt:100-104 | after a reset the state equals the clues, fixed cells mirror them, editable cells are 0, and the other fields are kept |
| Session.ResetState | app/src/main/java/com/example/exam/presentation/screens/MainViewModel.kt:103-104 | after a reset every fixed cell mirrors its clue, the state has the clues' shape, and the clues, solution, size and difficulty are kept |
| Session.ValidationOutcome | app/src/main/java/com/example/exam/presentation/screens/MainViewModel.kt:91-97 | the outcome is ValidationSuccess exactly when the state has no empty cell and equals the solution, and otherwise the validation error with the "incorrect" message |
| Session.FillingTheLastCell | app/src/main/java/com/example/exam/presentation/screens/MainViewModel.kt:71-97 | when only one editable cell is missing from a zero-free solution, entering that cell's solution value validates, and any other value does not |
| Session.MainViewModel.constructor | app/src/main/java/com/example/exam/presentation/screens/MainViewModel.kt:30-48 | the session starts with no puzzle, the initial screen state, and the saved-game flag set exactly when the store holds a loadable puzzle |
| Session.MainViewModel.GenerateNewPuzzle | app/src/main/java/com/example/exam/presentation/screens/MainViewModel.kt:50-69 | a success installs the puzzle with the "generated" message; an error keeps the puzzle and shows its message, or the fallback text; the saved-game flag is unchanged |
| Session.MainViewModel.UpdateCell | app/src/main/java/com/example/exam/presentation/screens/MainViewModel.kt:71-86 | the puzzle becomes the updated puzzle; the store is re-saved exactly when an editable cell was written; the screen state and flag are unchanged |
| Session.MainViewModel.ValidateSolution | app/src/main/java/com/example/exam/presentation/screens/MainViewModel.kt:88-98 | with a puzzle, the screen state is ValidationSuccess exactly when the puzzle is solved, and ValidationError otherwise; the puzzle never changes |
| Session.MainViewModel.ResetPuzzle | app/src/main/java/com/example/exam/presentation/screens/MainViewModel.kt:100-109 | with a puzzle, the state becomes the clues and the puzzle is saved; without one, nothing happens |
| Session.MainViewModel.SavePuzzle | app/src/main/java/com/example/exam/presentation/screens/MainViewModel.kt:111-119 | with a puzzle, it is saved, the flag is set and the "saved" message shown; without one, nothing changes |
| Session.MainViewModel.LoadSavedPuzzle | app/src/main/java/com/example/exam/presentation/screens/MainViewModel.kt:121-133 | a loadable saved puzzle is installed with the "loaded" message; otherwise the current puzzle stays and the "no saved game" error is shown; the flag is unchanged |
| Session.MainViewModel.ClearState | app/src/main/java/com/example/exam/presentation/screens/MainViewModel.kt:135-137 | the screen state returns to Initial and nothing else changes |
| Session.MainViewModel.ClearCurrentPuzzle | app/src/main/java/com/example/exam/presentation/screens/MainViewModel.kt:139-145 | the puzzle is dropped, the six keys are removed from the store, and the flag is cleared |
| Session.ClearThenLoad | app/src/main/java/com/example/exam/presentation/screens/MainViewModel.kt:121-145 | clearing and then loading leaves no puzzle, no saved game and the "no saved game" error |
| Session.SaveThenLoad | app/src/main/java/com/example/exam/presentation/screens/MainViewModel.kt:111-133 | saving and then loading brings back the same puzzle, with the flag set |

## Left out

- Coroutines and asynchronous commits are not modelled. Every operation is synchronous, and an auto-save stores the puzzle the edit produced, with no interleaving between saves.
- Session.MainViewModel.UpdateCell: requires the row and column to lie inside the grids. The source would throw on any other index, and the board only offers cells inside the grid.
- Mapper.ToDomain: requires a present solution. The record's parameter is non-null, so the source fails on a null solution. The repository's copy handles that case.
- Kotlin's 32-bit `Int` is modelled as an unbounded integer. No arithmetic is done on cells or dimensions, so wrap-around never arises. The one place the width shows is reading a stored grid, on the next line.
- GridCodec.DecodeGrid: reads integers of any size. Gson rejects a stored number outside -2147483648..2147483647, and the loader then returns nothing, so a store holding `[[2147483648]]` loads nothing in the app but loads a puzzle here (`LocalStore.Decode`, `LoadPuzzle`). Bounding the parser would put a 32-bit requirement on every grid in the round-trip lemmas. Grids the app itself saves never hold such numbers.
- GridCodec: Gson's JSON reader is replaced by a decoder of the compact text the encoder writes. Like Gson, it also reads integers with leading zeros (`01`) and a negative zero (`-0`). Gson also accepts whitespace, lenient syntax and the literal `null`. Text in those forms is treated here as unparsable and loads nothing.
- A response whose clue grid, or one of its rows, Gson leaves null is not modelled. The source would throw, and the repository would turn that into an error.
- Remote transport, HTTP configuration and dependency wiring are left out. The generator is a function parameter from the request string to an outcome (an answer or a thrown exception).
- The use-case classes and the repository interface are one-line delegations. The session calls the repository directly.
- Screens, navigation, the number picker's value range and theming are left out. These are UI conventions that the session does not enforce.
- The observer mechanics of the state flows are not modelled. The session's fields hold their current values.
