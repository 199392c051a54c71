# Swap-tile photo puzzle: a verified model of the puzzle core

The game cuts a photo into a grid of tiles, shuffles them, and lets the player click two tiles to
swap them. The puzzle is won when every tile is back in its own slot. This project models, in
Dafny, the parts of the game that hold its logic:

- **Pieces** (`piece.dfy`). A `PuzzlePiece` object has a current slot, a correct slot and an image
  (the sub-rectangle it shows). It covers `Initialize`, `SetCurrentIndex`, `IsInCorrectPosition`
  and `SwapSpriteWith`.
- **Grid** (`grid.dfy`). `PuzzleGrid.CreateGrid` lays the cells out row-major with slot
  `y * width + x`. Each cell is cut from the texture with integer division and a vertical flip.
  Also modelled: `ClearGrid` and the bounds-checked `GetPieceAtIndex`. The grid invariant
  `Consistent()` says two things. The piece at slot i has current index i. The correct indices
  form a permutation of [0, N).
- **Puzzle state machine** (`puzzle_manager.dfy`). `PuzzleManager` covers the click/selection
  machine, the two-piece swap and the win check. It also covers the shuffle (3 × N random
  draws, redone while the grid is still solved), completion with best-time bookkeeping,
  level loading and the choice of next level.
- **Progress** (`game_manager.dfy`). Best times live in a map from level ID to time, where 0
  means "no record". The module gives the new-record rule and the unlock rule. `GameManager`
  holds both catalogues, the chosen level and that store.
- **Catalogues** (`level_database.dfy`, `photo_database.dfy`, `level_data.dfy`). Lookup returns
  the first match. Adding a level object that is not yet in the list re-sorts the list by ID.
  Photos with a duplicate ID are refused. Level grid sizes are clamped.
- **Grid presets** (`grid_presets.dfy`). The level editor's `ParseGridSize` splits `"WxH"` on
  `'x'` and parses both parts as 32-bit integers. Anything else gives 3 × 3. The preset table
  is modelled too.

`wrappers.dfy` holds the `Option` type that stands for a nullable reference. `engine.dfy` holds
the integer parts of the engine values the core touches: sprites, rectangles, the piece prefab
and scenes.

How the environment is modelled:
- `Random.Range` becomes a caller-supplied sequence of index draws.
- The persistent key-value store becomes a `map<int, real>` field.
- The engine singleton `GameManager.Instance` becomes a `GameManager` object passed to the
  `PuzzleManager`.
- The folder of sprites that `RefreshPhotos` loads becomes a parameter.

Where the code's own comments and messages suggest more than the code does, the model follows
the code:
- Clamping: the warning in `SetLevelData` says "Using minimum of 2x2"
  (Assets/Scripts/Data/LevelData.cs:26). But a dimension of 1 is kept when the other dimension
  is valid, so stored sizes are only guaranteed to be at least 1.
- Unlocking: the comment says "Check if previous level is completed"
  (Assets/Scripts/Managers/GameManager.cs:128). The code tests whether the previous level's best
  time is greater than 0.
- Shuffling: the comment says "Ensure puzzle is not already solved"
  (Assets/Scripts/Puzzle/PuzzleManager.cs:99). A grid of at most one piece is not special-cased.
  The retry is a recursive call, so on such a grid the shuffle never returns normally: it
  recurses until the stack overflows. `SmallGridNeverSettles` proves that no round of draws
  ever settles it.

## Model

| member | source | states |
|---|---|---|
| `Pieces.PuzzlePiece.constructor` | Assets/Scripts/Puzzle/PuzzlePiece.cs:12-13 | A new piece has both indices at the default 0 and the prefab's image. |
| `Pieces.PuzzlePiece.IsInCorrectPosition` | Assets/Scripts/Puzzle/PuzzlePiece.cs:19 | True exactly when the current index equals the correct index. |
| `Pieces.PuzzlePiece.Initialize` | Assets/Scripts/Puzzle/PuzzlePiece.cs:39-49 | Sets the current and correct index to the arguments. The sprite changes only when the piece has an image. |
| `Pieces.PuzzlePiece.SetCurrentIndex` | Assets/Scripts/Puzzle/PuzzlePiece.cs:54-57 | Sets the current index. The correct index is untouched. |
| `Pieces.PuzzlePiece.SwapSpriteWith` | Assets/Scripts/Puzzle/PuzzlePiece.cs:91-109 | A no-op when the other piece is null or either image is missing. Otherwise it exchanges both sprites and both correct indices. Both current indices stay. |
| `Pieces.SwapSpriteTwiceRestores` | Assets/Scripts/Puzzle/PuzzlePiece.cs:100-108 | Two sprite swaps on the same pair restore both correct indices, both images and both current indices. |
| `Grid.CellIndexInRange` | Assets/Scripts/Puzzle/PuzzleGrid.cs:59-63 | Every cell (x, y) of a w × h grid has a slot `y*w + x` in [0, w·h). |
| `Grid.CellIndexDecomposes` | Assets/Scripts/Puzzle/PuzzleGrid.cs:63 | The slot gives back its cell: `slot / w == y` and `slot % w == x`. |
| `Grid.CellIndexInjective` | Assets/Scripts/Puzzle/PuzzleGrid.cs:59-63 | Distinct cells get distinct slots. |
| `Grid.PieceRectInsideTexture` | Assets/Scripts/Puzzle/PuzzleGrid.cs:56-66 | Every cell's rectangle `(x·pw, (h−1−y)·ph, pw, ph)`, with pw = tw / w and ph = th / h, lies inside the texture. |
| `Grid.PieceRectsTile` | Assets/Scripts/Puzzle/PuzzleGrid.cs:56-66 | Row 0 is the top strip of the used height. Each row sits one piece height above the next, and each column one piece width left of the next. |
| `Grid.PuzzleGrid.constructor` | Assets/Scripts/Puzzle/PuzzleGrid.cs:14 | A new grid holds no pieces. |
| `Grid.PuzzleGrid.CreateGrid` | Assets/Scripts/Puzzle/PuzzleGrid.cs:36-92 | The old pieces are dropped. Then the list holds w·h fresh pieces (none if the prefab has no piece component). The piece at slot i has current index = correct index = i and the image of cell i. The grid is consistent and solved. |
| `Grid.PuzzleGrid.ClearGrid` | Assets/Scripts/Puzzle/PuzzleGrid.cs:97-107 | The piece list is empty. |
| `Grid.PuzzleGrid.GetPieceAtIndex` | Assets/Scripts/Puzzle/PuzzleGrid.cs:112-119 | Returns `pieces[index]` exactly when 0 ≤ index < Count, and null otherwise. |
| `Grid.ConsistentPiecesDistinct` | Assets/Scripts/Puzzle/PuzzleGrid.cs:59-79 | On a consistent grid no piece object occupies two slots. |
| `Grid.PieceAtIndexIsAtIndex` | Assets/Scripts/Puzzle/PuzzleGrid.cs:112-119 | On a consistent grid the piece found at a slot has that slot as its current index. When nothing is found, no piece claims that slot. |
| `PuzzleManagement.SwapAt` | Assets/Scripts/Puzzle/PuzzleManager.cs:205-209 | Exchanging two slots puts each slot's content in the other and leaves every other slot as it was. |
| `PuzzleManagement.SwapKeepsPermutation` | Assets/Scripts/Puzzle/PuzzleManager.cs:200-209 | Exchanging two slots keeps the arrangement a permutation of [0, N). |
| `PuzzleManagement.ShuffleKeepsPermutation` | Assets/Scripts/Puzzle/PuzzleManager.cs:86-97 | A whole shuffle pass keeps the arrangement a permutation of [0, N). |
| `PuzzleManagement.SmallArrangementIsSolved` | Assets/Scripts/Puzzle/PuzzleManager.cs:99-103 | With at most one piece, every arrangement is the solved one. |
| `PuzzleManagement.RepeatedSlotDrawsKeep` | Assets/Scripts/Puzzle/PuzzleManager.cs:93-96 | Draws that pick the same slot j twice are skipped, so appending any number of (j, j) draws to a pass changes nothing, for every slot j of the grid. |
| `PuzzleManagement.OneExchangeUnsolves` | Assets/Scripts/Puzzle/PuzzleManager.cs:86-97 | With two or more pieces, some full round of 3·N valid draws leaves the solved grid unsolved. |
| `PuzzleManagement.ShuffleOutcome` | Assets/Scripts/Puzzle/PuzzleManager.cs:83-104 | The shuffle with its retry: the arrangement reached and the number of rounds used, which is between 1 and the number of rounds supplied. |
| `PuzzleManagement.ShuffleOutcomeFacts` | Assets/Scripts/Puzzle/PuzzleManager.cs:83-104 | The shuffle keeps a permutation. It stops before the last round only on an unsolved grid. Its result is the last round's pass, applied to the start (round 1) or to the solved grid (later rounds). |
| `PuzzleManagement.SmallGridNeverSettles` | Assets/Scripts/Puzzle/PuzzleManager.cs:99-103 | With at most one piece the shuffle always ends solved and uses up every round: the source's retry never ends. |
| `PuzzleManagement.IndexOf` | Assets/Scripts/Puzzle/PuzzleManager.cs:206-207 | The slot of the first occurrence of a piece, or −1 exactly when it is absent. |
| `PuzzleManagement.PuzzleManager.constructor` | Assets/Scripts/Puzzle/PuzzleManager.cs:14-19 | No level, no selection, all flags false, time 0; a consistent grid makes the manager valid from the start. |
| `PuzzleManagement.PuzzleManager.Phase` | Assets/Scripts/Puzzle/PuzzleManager.cs:111-129 | The selection state the flags encode: complete, then swapping, then idle (no selection) or one selected. |
| `PuzzleManagement.PuzzleManager.LoadLevel` | Assets/Scripts/Puzzle/PuzzleManager.cs:42-62 | Takes the game's current level. It builds the grid only when the level exists and its photo has a sprite. The built grid is consistent and solved, and piece i shows cell i cut from that photo's sprite at the level's size. Otherwise the grid is untouched. |
| `PuzzleManagement.PuzzleManager.CheckWinCondition` | Assets/Scripts/Puzzle/PuzzleManager.cs:215-218 | True iff every piece is in its correct position. On a consistent grid this is iff the arrangement is solved. It is a function, so consecutive calls agree. |
| `PuzzleManagement.PuzzleManager.SwapPiecesImmediate` | Assets/Scripts/Puzzle/PuzzleManager.cs:189-210 | Exchanges exactly the two pieces' list slots and current indices. Its frame lets nothing else change: no other slot, no correct index, no image. The grid stays consistent. |
| `PuzzleManagement.PuzzleManager.ShuffleStep` | Assets/Scripts/Puzzle/PuzzleManager.cs:90-96 | One draw: the pieces in the two slots are exchanged only when the slots differ. Only list slots and current indices can change. |
| `PuzzleManagement.PuzzleManager.ShufflePass` | Assets/Scripts/Puzzle/PuzzleManager.cs:85-97 | 3·N draws applied in turn, giving the arrangement `ApplyDraws` describes. The grid stays consistent and holds the same pieces. Only list slots and current indices can change. |
| `PuzzleManagement.PuzzleManager.ShufflePuzzle` | Assets/Scripts/Puzzle/PuzzleManager.cs:83-104 | Ends as `ShuffleOutcome` says, with the same pieces and only list slots and current indices changed. `settled` holds exactly when the win check is false on return. |
| `PuzzleManagement.PuzzleManager.RetryShuffleIfSolved` | Assets/Scripts/Puzzle/PuzzleManager.cs:99-103 | After a pass, shuffles again with the remaining rounds only while the grid is solved. The result is `ShuffleOutcome` of the pass's start, and `settled` is exactly a false win check. |
| `PuzzleManagement.PuzzleManager.StartGame` | Assets/Scripts/Puzzle/PuzzleManager.cs:67-78 | Shuffles as `ShuffleOutcome` says, keeping the same pieces. It starts exactly when the shuffle settled, and then sets time 0, timer running, not complete. Otherwise the flags are unchanged. |
| `PuzzleManagement.PuzzleManager.RestartClock` | Assets/Scripts/Puzzle/PuzzleManager.cs:70-72 | Time 0, timer running, not complete. |
| `PuzzleManagement.PuzzleManager.OnPuzzleComplete` | Assets/Scripts/Puzzle/PuzzleManager.cs:223-237 | Complete and timer stopped. The store and the new-record flag follow `SaveBest`. The reported best is the stored one and is at most the time just achieved. |
| `PuzzleManagement.PuzzleManager.SwapPieces` | Assets/Scripts/Puzzle/PuzzleManager.cs:136-184 | Swaps the two pieces and clears the selection and the swapping flag. When the swap wins: complete, timer stopped, time saved. Otherwise the flags and the store are unchanged. |
| `PuzzleManagement.PuzzleManager.CompleteIfSolved` | Assets/Scripts/Puzzle/PuzzleManager.cs:179-183 | Completes the puzzle exactly when the win check holds. |
| `PuzzleManagement.PuzzleManager.EndSwap` | Assets/Scripts/Puzzle/PuzzleManager.cs:176-177 | Selection null, swapping false, pieces untouched. |
| `PuzzleManagement.PuzzleManager.FinishSwap` | Assets/Scripts/Puzzle/PuzzleManager.cs:176-183 | After the animation: selection null and swapping false, pieces and arrangement untouched, and the puzzle completed with the best time saved exactly when the win check holds; otherwise flags and stored times unchanged. |
| `PuzzleManagement.PuzzleManager.OnPieceClicked` | Assets/Scripts/Puzzle/PuzzleManager.cs:109-131 | Ignored while swapping or complete. Idle → that piece selected. Same piece → deselected. Another piece → the two are swapped, and the click ends idle or complete. |
| `PuzzleManagement.PuzzleManager.LoadNextLevel` | Assets/Scripts/Puzzle/PuzzleManager.cs:250-265 | Goes to the puzzle scene with level id+1 selected when the catalogue has it. Otherwise goes to the level map with the selection unchanged. |
| `Progress.SaveBest` | Assets/Scripts/Managers/GameManager.cs:107-119 | A new record iff the current best is 0 or the time is strictly lower, and then the stored best is the time. Otherwise the store is unchanged. Other levels never change. |
| `Progress.SaveBestNeverWorsens` | Assets/Scripts/Managers/GameManager.cs:111-116 | After saving, the stored best is at most the time just achieved. A nonzero best never increases. |
| `Progress.CompletingUnlocks` | Assets/Scripts/Managers/GameManager.cs:111-131 | Finishing a level in a positive time unlocks the next one. Saving never locks an unlocked level and keeps every time non-negative. |
| `Progress.RecordScenario` | Assets/Scripts/Managers/GameManager.cs:107-131 | 45.2 s is a record, then 50.0 s is not and keeps 45.2, then 30.0 s is a record. Level 2 unlocks once level 1 has a record. |
| `GameManagement.GameManager.constructor` | Assets/Scripts/Managers/GameManager.cs:11-15 | The catalogues and the store as given, no level chosen. |
| `GameManagement.GameManager.SetCurrentLevel` | Assets/Scripts/Managers/GameManager.cs:76-85 | Always records the ID. The current level is the catalogue lookup, possibly null. |
| `GameManagement.GameManager.GetPhotoSprite` | Assets/Scripts/Managers/GameManager.cs:90-94 | None when no photo has the ID. Otherwise the sprite of the first photo with that ID. |
| `GameManagement.GameManager.GetBestTime` | Assets/Scripts/Managers/GameManager.cs:99-102 | The stored time for the level, or 0 when absent. |
| `GameManagement.GameManager.SaveBestTime` | Assets/Scripts/Managers/GameManager.cs:107-119 | The store and the result are those of `SaveBest`. |
| `GameManagement.GameManager.IsLevelUnlocked` | Assets/Scripts/Managers/GameManager.cs:124-131 | Level 1 is always unlocked. Any other level is unlocked iff the previous level's best time is > 0. This agrees with `Progress.IsUnlocked` on the store. |
| `Levels.ClampGrid` | Assets/Scripts/Data/LevelData.cs:24-29 | Both dimensions positive → kept. Otherwise each becomes max(2, value). The result is at least 1 either way. |
| `Levels.ClampRaisesValidOne` | Assets/Scripts/Data/LevelData.cs:24-29 | A valid 1 is raised to 2 when the other dimension is invalid. |
| `Levels.LevelData.constructor` | Assets/Scripts/Data/LevelData.cs:9-12 | A new level has a 3 × 3 grid and ID and photo ID 0, so it has a valid size. |
| `Levels.LevelData.LevelID` | Assets/Scripts/Data/LevelData.cs:14 | Returns the stored level ID. |
| `Levels.LevelData.GridWidth` | Assets/Scripts/Data/LevelData.cs:15 | Returns the stored grid width. |
| `Levels.LevelData.GridHeight` | Assets/Scripts/Data/LevelData.cs:16 | Returns the stored grid height. |
| `Levels.LevelData.PhotoID` | Assets/Scripts/Data/LevelData.cs:17 | Returns the stored photo ID. |
| `Levels.LevelData.SetLevelData` | Assets/Scripts/Data/LevelData.cs:22-35 | The ID and photo ID are stored as given. The grid size is stored as clamped, and both dimensions are ≥ 1. |
| `LevelCatalog.FirstWithID` | Assets/Scripts/Data/LevelDatabase.cs:19 | The position of the first level with the ID, with no earlier match, or the length when none matches. |
| `LevelCatalog.SortByID` | Assets/Scripts/Data/LevelDatabase.cs:45-48 | A sorted permutation of the list by level ID. |
| `LevelCatalog.InsertByIDAddsLevel` | Assets/Scripts/Data/LevelDatabase.cs:45-48 | One insertion step of the sort adds exactly the inserted level: the multiset grows by that one level and nothing else appears. |
| `LevelCatalog.InsertByIDKeepsSorted` | Assets/Scripts/Data/LevelDatabase.cs:45-48 | Inserting a level into a list sorted by ID gives a list still sorted by ID. |
| `LevelCatalog.SortedCons` | Assets/Scripts/Data/LevelDatabase.cs:45-48 | A level with an ID no greater than any in a sorted list stays sorted in front of it: the step that places each level in the sort. |
| `LevelCatalog.RemoveFirst` | Assets/Scripts/Data/LevelDatabase.cs:37-40 | Takes out the first occurrence of the object and keeps the rest in order, or leaves the list unchanged when it is absent. |
| `LevelCatalog.RemoveFirstKeepsSorted` | Assets/Scripts/Data/LevelDatabase.cs:37-40 | Removing a level keeps a sorted catalogue sorted. |
| `LevelCatalog.LevelDatabase.constructor` | Assets/Scripts/Data/LevelDatabase.cs:10 | The catalogue holds the given levels. |
| `LevelCatalog.LevelDatabase.GetLevelByID` | Assets/Scripts/Data/LevelDatabase.cs:17-20 | The first level with the ID, or null exactly when no level has it. |
| `LevelCatalog.LevelDatabase.AddLevel` | Assets/Scripts/Data/LevelDatabase.cs:25-32 | An object already present changes nothing. A new object, even one with a duplicate ID, grows the list by one into a sorted permutation of the old list plus it. |
| `LevelCatalog.LevelDatabase.RemoveLevel` | Assets/Scripts/Data/LevelDatabase.cs:37-40 | Removes the first occurrence, or does nothing when the object is absent. A sorted catalogue stays sorted. |
| `LevelCatalog.LevelDatabase.SortLevels` | Assets/Scripts/Data/LevelDatabase.cs:45-48 | The list becomes a sorted permutation of itself. |
| `LevelCatalog.LevelDatabase.GetLevelCount` | Assets/Scripts/Data/LevelDatabase.cs:53-56 | The length of the list. |
| `Photos.FirstWithID` | Assets/Scripts/Data/PhotoDatabase.cs:19 | The position of the first photo with the ID, with no earlier match, or the length when none matches. |
| `Photos.LoadedPhotosLookup` | Assets/Scripts/Data/PhotoDatabase.cs:46-52 | Loading n sprites gives n photos with distinct IDs. Photo i has ID i, the i-th sprite and its name, and looking up ID i finds it. |
| `Photos.PhotoDatabase.constructor` | Assets/Scripts/Data/PhotoDatabase.cs:10 | The catalogue holds the given photos. |
| `Photos.PhotoDatabase.GetPhotoByID` | Assets/Scripts/Data/PhotoDatabase.cs:17-20 | The first photo with the ID, or None exactly when no photo has it. |
| `Photos.PhotoDatabase.AddPhoto` | Assets/Scripts/Data/PhotoDatabase.cs:25-31 | Appends only when no photo has the same ID. Otherwise nothing changes. Distinct IDs are preserved. |
| `Photos.PhotoDatabase.ClearPhotos` | Assets/Scripts/Data/PhotoDatabase.cs:36-39 | The catalogue is empty. |
| `Photos.PhotoDatabase.RefreshPhotos` | Assets/Scripts/Data/PhotoDatabase.cs:44-53 | Exactly one photo per sprite: photo i has ID i and the i-th sprite's name. IDs are distinct, and lookup of i returns photo i. |
| `GridPresets.Split` | Assets/Scripts/Editor/LevelDataEditor.cs:106 | One more piece than separators. No piece contains the separator, and joining the pieces gives the string back. |
| `GridPresets.SplitInTwo` | Assets/Scripts/Editor/LevelDataEditor.cs:106 | A string with a single separator splits into the text before and after it. |
| `GridPresets.SplitAfterSeparator` | Assets/Scripts/Editor/LevelDataEditor.cs:106 | Text that starts with the separator and has no other splits into the empty text and the rest. |
| `GridPresets.TryParseInt` | Assets/Scripts/Editor/LevelDataEditor.cs:107 | Digits, '+' digits and '-' digits parse to their decimal value (negated for '-') when it fits in 32 bits, and fail otherwise. Any other text fails. |
| `GridPresets.ParsePrinted` | Assets/Scripts/Editor/LevelDataEditor.cs:107 | Every 32-bit integer parses back from its decimal text. |
| `GridPresets.ParseGridSize` | Assets/Scripts/Editor/LevelDataEditor.cs:104-116 | A string without exactly one 'x' gives (3, 3). Any other result has two 32-bit components. |
| `GridPresets.ParseGridSizeOfParts` | Assets/Scripts/Editor/LevelDataEditor.cs:106-110 | Two parseable parts around one 'x' give the two parsed values. |
| `GridPresets.ParseGridSizeRoundTrip` | Assets/Scripts/Editor/LevelDataEditor.cs:106-110 | "WxH", printed from two 32-bit integers, parses to (W, H). |
| `GridPresets.ParseGridSizeFallback` | Assets/Scripts/Editor/LevelDataEditor.cs:106-116 | Around one 'x', a failure on either side, including only the second, gives (3, 3). |
| `GridPresets.PresetsGiveTheirSizes` | Assets/Scripts/Editor/LevelDataEditor.cs:10-13 | Each of the nine listed presets parses to its stated size, e.g. "6x5" → (6, 5). |
| `GridPresets.PresetGridSize` | Assets/Scripts/Editor/LevelDataEditor.cs:49-55 | A listed preset gives its stated size. "Custom", the last entry, is not parsed and keeps the level's size. |
| `GridPresets.CustomDoesNotParse` | Assets/Scripts/Editor/LevelDataEditor.cs:52-55 | "Custom" would fall back to (3, 3), which is why the editor never hands it to the parser. |

## Left out

- The swap animation, highlights, grid cell layout, per-frame timer ticks (`Update`), timer
  formatting and all UI calls. These are presentation over engine APIs. The elapsed time is a
  field that nothing in the model advances.
- `Random.Range`: the draws are supplied by the caller, as rounds of 3 × N index pairs.
- `PuzzleManagement.PuzzleManager.ShufflePuzzle`: the source's unbounded retry is cut off when
  the supplied rounds run out. Then `settled` is false and the grid is still solved.
- `PuzzleManagement.PuzzleManager.SwapPieces`: the coroutine is one atomic step. The `Swapping`
  phase is never observable between calls, so the model does not show input being ignored
  during an animation in progress.
- `PuzzleManagement.PuzzleManager.OnPieceClicked` and `SwapPieces` require a loaded level.
  Without one, the source throws a null-reference exception when a swap completes the puzzle.
- Integer width: C# `int` wraps around at 32 bits, and the model's `int` does not. This matters
  only when a value is near the 32-bit limits, in `LevelID + 1`
  (Assets/Scripts/Puzzle/PuzzleManager.cs:252), `levelID - 1`
  (Assets/Scripts/Managers/GameManager.cs:129), `Count * 3`
  (Assets/Scripts/Puzzle/PuzzleManager.cs:86) and `y * width + x`
  (Assets/Scripts/Puzzle/PuzzleGrid.cs:63).
- `PuzzleManagement.PuzzleManager.LoadLevel` requires the current level to have a valid size
  (`HasValidSize`, at least 1 by 1). The constructor and `SetLevelData` establish it. A size
  typed straight into the asset, bypassing `SetLevelData`, is not modelled.
- `PuzzleManagement.PuzzleManager.constructor` requires its grid to be consistent (an empty
  grid, as a new scene has, is). The engine wires the references without such a check.
- `Grid.PuzzleGrid.CreateGrid` requires non-zero dimensions: the source divides by both and
  would throw. For negative dimensions no piece is built, so the division results are never
  used.
- `Grid.PuzzleGrid.CreateGrid`: the pieces' `Sprite.Create` names, `Instantiate`, the click
  listeners, `Destroy` of old pieces and the layout setup keep only their integer arguments.
- `LevelCatalog.LevelDatabase.AddLevel`: the runtime's sort is unstable. So the contract states
  only "sorted and a permutation", not the order among levels that share an ID.
- `GridPresets.TryParseInt`: accepts an optional sign then decimal digits. It does not model
  the runtime parser's whitespace, culture and thousands rules.
- Times are `real`, so single-precision rounding is not modelled.
- The persistent store is keyed by level ID rather than by the text key
  `Level_<id>_BestTime`, and flushing it to disk is not modelled.
- `GameManager` start-up (the singleton, loading the catalogues from resources) and the scene
  switches (`RestartLevel`, `ReturnToLevelMap`, the loads in `LoadNextLevel`) are left out.
  `LoadNextLevel` returns the scene to switch to instead of loading it.
- The level editor's inspector GUI (the 2..8 sliders, photo pop-up, undo) is left out. Only
  `ParseGridSize` and the preset table are modelled.
- `PhotoData` is the `Photos.Photo` datatype. Its name and sprite accessors are its fields.
