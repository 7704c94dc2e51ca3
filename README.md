# Match-3 board resolution, modelled in Dafny

This project models the board engine of a Unity match-3 game. The engine is the `Match3` component in `Assets/_Project/Scripts/Match3.cs`. It covers:

- a `width x height` grid of cells, each empty or holding one gem type;
- the player's selection;
- the swap of two adjacent gems;
- the match detector;
- the cascade that clears matches, lets gems fall and refills the board until nothing matches;
- the type allocator, which tries to fill a cell without completing a match.

The project is laid out in six files:

- `grid.dfy` (module `Grid`) holds the board as a value. A board is column-major, written `g[x][y]`, with row 0 at the bottom. The module defines cells, positions, `Put` and `Swapped`.
- `matching.dfy` (module `Matching`) holds the match detector's specification, `Matches`. `Matches` is the set of cells lying in a horizontal or vertical window of three equal gems. The module also has:
  - a reference definition by maximal run length;
  - the window scan the detector performs;
  - the allocator's avoidance test and its choice list.
- `gravity.dfy` (module `Gravity`) holds gravity on one column as a value, `FallColumn`. It also has the intermediate states of the game's single bottom-to-top pass.
- `refill.dfy` (module `Refill`) states what a column-major, bottom-to-top fill pass guarantees. Its main result is that a refill that never falls back to the full type list creates no match.
- `cascade.dfy` (module `Cascades`) holds the cascade as a sequence of boards. A round empties the matched cells, lets every column fall and refills in fill order; a cascade is a sequence of boards in which each follows the one before by a round.
- `match3.dfy` (module `Engine`) holds the engine itself, the class `Match3`:
  - its grid is an `array2<Cell>`, updated in place;
  - the selection is a field with the sentinel `(-1, -1)`, as in the game;
  - every method of the game is a method proved against the value-level specifications above, through the ghost view `Snapshot()`.

The random generator is a parameter. The constant `random` of type `RandomSource` maps the generator's state and a bound `n > 0` to an index below `n`. The field `draws` counts the numbers drawn so far and serves as the generator's state. The tap position is also a parameter; it arrives as a grid coordinate.

Each coroutine of the game becomes an ordinary method that runs to completion, so the animation waits vanish. The unbounded cascade loop of `ProcessMatches` takes a `fuel` bound on its rounds. Whether a cascade settles depends on the random choices, so the model does not prove termination. Its result `settled` says whether the board stopped matching within the bound. Its ghost result `trace` lists the boards the cascade passes through, one per round, from the board it started on to the board it leaves.

## Model

| member | source | states |
|---|---|---|
| Matching.MatchesAreLongRuns | Assets/_Project/Scripts/Match3.cs:195-232 | a cell is in the detector's match set iff it is on the board and its maximal horizontal or vertical run of one gem type is at least three long |
| Matching.RowRunMatches | Assets/_Project/Scripts/Match3.cs:198-214 | a cell lies in a matching horizontal window iff its maximal horizontal run is at least three long |
| Matching.ColumnRunMatches | Assets/_Project/Scripts/Match3.cs:216-232 | a cell lies in a matching vertical window iff its maximal vertical run is at least three long |
| Matching.PairsOnlyNoMatch | Assets/_Project/Scripts/Match3.cs:200-232 | a board whose runs are all at most two long has no match |
| Matching.MatchedCellsOccupied | Assets/_Project/Scripts/Match3.cs:205 | every matched cell is on the board and occupied, since a window with an empty cell never matches |
| Matching.RowHitsCover | Assets/_Project/Scripts/Match3.cs:200-212 | after the first n windows of a row, the scan holds exactly the cells of row y in a matching window starting left of column n |
| Matching.AllRowHitsCover | Assets/_Project/Scripts/Match3.cs:198-214 | after the first m rows, the horizontal pass holds exactly the cells below row m that lie in a matching horizontal window |
| Matching.ColumnHitsCover | Assets/_Project/Scripts/Match3.cs:218-230 | after the first n windows of a column, the scan holds exactly the cells of column x in a matching window starting below row n |
| Matching.AllColumnHitsCover | Assets/_Project/Scripts/Match3.cs:216-232 | after the first m columns, the vertical pass holds exactly the cells left of column m that lie in a matching vertical window |
| Matching.ScanFindsMatches | Assets/_Project/Scripts/Match3.cs:196-232 | the union of the two passes is exactly the match set |
| Engine.Match3.ScanRows | Assets/_Project/Scripts/Match3.cs:198-214 | the horizontal loop collects exactly the cells of all matching horizontal windows |
| Engine.Match3.ScanColumns | Assets/_Project/Scripts/Match3.cs:216-232 | the vertical loop collects exactly the cells of all matching vertical windows |
| Engine.Enumerate | Assets/_Project/Scripts/Match3.cs:240 | the returned list holds exactly the set's elements, each once |
| Engine.Match3.FindMatches | Assets/_Project/Scripts/Match3.cs:195-241 | the result holds a cell iff the cell is in the match set, with no duplicates; the grid is not modified |
| Matching.CompletesRow | Assets/_Project/Scripts/Match3.cs:301-325 | placing type t at (x, y) puts it in a horizontal match iff one of the three row windows through (x, y) has its other two cells on the board and holding t |
| Matching.CompletesColumn | Assets/_Project/Scripts/Match3.cs:327-351 | the same for the three column windows |
| Matching.CompletesMatchWindows | Assets/_Project/Scripts/Match3.cs:300-354 | the six-window local test is exact: placing t at (x, y) completes a match iff one of the six windows is flanked by two gems of type t |
| Engine.Match3.WouldCompleteRow | Assets/_Project/Scripts/Match3.cs:301-325 | true iff placing t at (x, y) would put it in a horizontal match |
| Engine.Match3.WouldCompleteColumn | Assets/_Project/Scripts/Match3.cs:327-351 | true iff placing t at (x, y) would put it in a vertical match |
| Engine.Match3.WouldCreateMatch | Assets/_Project/Scripts/Match3.cs:300-354 | true iff placing t at (x, y) would complete a match |
| Matching.NonMatchingTypes | Assets/_Project/Scripts/Match3.cs:283-290 | keeps, in order, exactly the types whose placement completes no match, and never lengthens the list |
| Matching.ValidGemTypes | Assets/_Project/Scripts/Match3.cs:282-298 | the choice list is a subset of the configured types; it is non-empty when they are; it holds exactly the non-matching types when one exists, and all the types otherwise |
| Engine.Match3.GetValidGemTypes | Assets/_Project/Scripts/Match3.cs:282-298 | the loop computes exactly ValidGemTypes for the current board |
| Matching.OnlyNeighbourTypesBlocked | Assets/_Project/Scripts/Match3.cs:300-354 | only the type of one of the four orthogonal neighbours can complete a match at a cell |
| Matching.FiveTypesSuffice | Assets/_Project/Scripts/Match3.cs:292-295 | with at least five distinct gem types some type is safe at every cell of every board, so the fallback is never needed |
| Refill.FiveTypesNeverFallBack | Assets/_Project/Scripts/Match3.cs:292-295 | with at least five distinct types, no fill pass ever falls back |
| Engine.Match3.RandomRange | Assets/_Project/Scripts/Match3.cs:270-272 | the drawn index is below n and is the generator's value for its current state; one number is drawn |
| Engine.Match3.CreateGem | Assets/_Project/Scripts/Match3.cs:265-280 | cell (x, y) receives the type at the drawn index of the valid types (with checking) or of all types (without); it lies in that list; no other cell changes |
| Grid.SwapBackRestores | Assets/_Project/Scripts/Match3.cs:77-82 | swapping a and b and then b and a restores the board exactly |
| Engine.Match3.SwapGems | Assets/_Project/Scripts/Match3.cs:243-263 | the selection is cleared, cells a and b exchange contents, and no other cell changes |
| Engine.Match3.ExplodeGems | Assets/_Project/Scripts/Match3.cs:168-184 | every listed cell becomes empty and every other cell is unchanged: the new board is the old one cleared at the listed cells |
| Cascades.ClearingRemovesAllMatches | Assets/_Project/Scripts/Match3.cs:96 | emptying every matched cell leaves a board with no match |
| Gravity.FallKeepsGems | Assets/_Project/Scripts/Match3.cs:135-145 | falling neither creates nor loses a gem, and keeps the gems in bottom-to-top order |
| Gravity.FallLeavesEmptiesOnTop | Assets/_Project/Scripts/Match3.cs:135-145 | after falling, every empty cell of a column is above every occupied one |
| Gravity.FallDistance | Assets/_Project/Scripts/Match3.cs:136-142 | each gem moves down by exactly the number of empty cells below it |
| Gravity.FallOfFullColumn | Assets/_Project/Scripts/Match3.cs:135-145 | a column without empty cells does not change |
| Gravity.SettlingStep | Assets/_Project/Scripts/Match3.cs:136-144 | one step of the pass: an empty cell increments the counter; a gem with nothing empty below stays; any other gem moves down by the counter and leaves its cell empty |
| Gravity.SettlingDone | Assets/_Project/Scripts/Match3.cs:135-145 | the pass, once over the whole column, has computed the fall |
| Engine.Match3.SettleColumn | Assets/_Project/Scripts/Match3.cs:131-145 | the in-place pass with its shiftDown counter leaves column x fallen and every other column untouched |
| Engine.Match3.MakeGemsFall | Assets/_Project/Scripts/Match3.cs:129-145 | the new board is the old one with every column fallen |
| Refill.FillCompletes | Assets/_Project/Scripts/Match3.cs:109-112 | after a fill pass the board is full, and previously occupied cells are unchanged |
| Refill.PlacedGemIsSafe | Assets/_Project/Scripts/Match3.cs:267-270 | a gem placed without fallback does not lie in a match of the board as it stood right after it was placed |
| Refill.HorizontalMatchSurvives | Assets/_Project/Scripts/Match3.cs:109-112 | a horizontal match after a pass without fallback was already a match before it |
| Refill.VerticalMatchSurvives | Assets/_Project/Scripts/Match3.cs:109-112 | a vertical match after a pass without fallback was already a match before it |
| Refill.MatchesAreKept | Assets/_Project/Scripts/Match3.cs:111 | a window that matched before the pass still matches, because occupied cells are skipped |
| Refill.RefillKeepsMatches | Assets/_Project/Scripts/Match3.cs:108-112 | a fill pass without fallback leaves the match set exactly as it was |
| Refill.InitialBoardHasNoMatch | Assets/_Project/Scripts/Match3.cs:356-364 | filling an empty board without fallback gives a full board with no match |
| Engine.Match3.FillEmptySpots | Assets/_Project/Scripts/Match3.cs:108-115 | each empty cell, in column-major bottom-to-top order, gets a type the allocator offers against the board as filled so far; the board ends full; without fallback (for example with five or more distinct types) the match set is unchanged; a full board is left untouched |
| Engine.Match3.PopulateGrid | Assets/_Project/Scripts/Match3.cs:359-363 | filling the empty grid cell by cell with type checking follows the fill order; the board ends full; without fallback, or with five or more distinct types, there is no match |
| Engine.Match3.InitializeGrid | Assets/_Project/Scripts/Match3.cs:356-364 | a fresh grid is created and fully populated; without fallback, or with five or more distinct types, the initial board has no match |
| Engine.Match3.constructor | Assets/_Project/Scripts/Match3.cs:38-41 | the engine starts with nothing selected and a populated, valid grid with the guarantees of InitializeGrid |
| Cascades.CascadeStep | Assets/_Project/Scripts/Match3.cs:94-101 | clearing the match set of the last board of a cascade, letting the columns fall and refilling in fill order is a round, and appending its result extends the cascade |
| Cascades.CascadeExtend | Assets/_Project/Scripts/Match3.cs:94-101 | a round from the last board of a cascade, appended to it, gives a cascade |
| Cascades.RoundEndsFull | Assets/_Project/Scripts/Match3.cs:96-98 | every round ends on a full board |
| Cascades.RoundKeepsSurvivors | Assets/_Project/Scripts/Match3.cs:96-98 | the gems that survive the clearing of a round stay in their column, in their bottom-to-top order, at the bottom of the column |
| Cascades.RoundMatchesComeFromTheFall | Assets/_Project/Scripts/Match3.cs:96-101 | if the refill of a round never falls back, the matches after the round are exactly the matches the fall produced |
| Cascades.CascadeStartsWithMatch | Assets/_Project/Scripts/Match3.cs:94 | a cascade with at least one round starts on a board with a match |
| Engine.Match3.ProcessMatches | Assets/_Project/Scripts/Match3.cs:91-106 | the boards it passes through form a cascade, from the board it started on to the board it leaves; each round clears the current match set, lets every column fall and refills in fill order; it stops before fuel rounds only when no match is left; settled holds iff the final board has no match; the board stays full; with no initial match nothing changes and nothing is drawn |
| Engine.Match3.RunGameLoop | Assets/_Project/Scripts/Match3.cs:72-89 | if the swap makes no match, the board is exactly restored, nothing is drawn and the trace is empty; otherwise the trace is a cascade that starts on the swapped board and ends on the final one, bounded by fuel, with settled iff no match is left; the selection always ends cleared |
| Engine.Match3.IsValidPosition | Assets/_Project/Scripts/Match3.cs:382-384 | true iff the position is a cell of the board |
| Engine.Match3.IsEmptyPosition | Assets/_Project/Scripts/Match3.cs:380 | true iff the cell holds no gem; never true on a full board |
| Engine.Match3.AreGemsAdjacent | Assets/_Project/Scripts/Match3.cs:68-70 | true iff b is one of the four orthogonal neighbours of a (Manhattan distance 1), which implies a != b |
| Engine.Match3.SelectGem | Assets/_Project/Scripts/Match3.cs:374-378 | the tapped cell becomes the selection |
| Engine.Match3.DeselectGem | Assets/_Project/Scripts/Match3.cs:366-372 | the selection becomes (-1, -1) |
| Engine.Match3.OnSelectGem | Assets/_Project/Scripts/Match3.cs:47-66 | a tap off the board or on an empty cell changes nothing; a tap on the selected cell deselects it; with no selection the tap selects; any other tap not next to the selection moves it; none of these change the board or draw a number; a tap next to the selection runs the swap loop, which ends with no selection and either restores the board without drawing (no match) or passes through a cascade from the swapped board to the final one; the engine stays valid |

## Left out

- Animation and timing are not modelled. This covers DOTween moves, punch-scale and `WaitForSeconds`; every coroutine is modelled as a method run to completion.
- Audio calls are not modelled, including those inside `FindMatches`. Neither are the explosion effect, gem highlighting, or the instantiation and destruction of gem objects. A gem is just its type written into a cell.
- Converting the tap's screen position to a grid coordinate (line 48) involves floating point and a grid library that is not part of this model. The tap arrives as an integer position.
- `UnityEngine.Random.Range` is the parameter `random` of type `RandomSource`, indexed by the number of draws so far.
- The nested re-checks are not modelled: inside `FillEmptySpots` (lines 116-123, after each placed gem, with a restart of the scan) and inside `MakeGemsFall` (lines 157-163, after each fallen column, with an early exit). `ProcessMatches` is modelled as the flat loop of lines 94-105: one fall pass and one fill pass per round, then a re-check.
- ProcessMatches: the game's loop is unbounded. The model stops after `fuel` rounds and reports `settled == false` if matches remain, so there is no proof that a cascade ends.
- RunGameLoop: the postcondition that the board has no match holds only when the cascade settled within the fuel bound.
- Taps that arrive while a cascade is running are not modelled. In the game `OnSelectGem` stays subscribed to input during the swap-and-resolve coroutine (line 40), so a tap can interleave with a running cascade. In the model every call runs to completion, so `OnSelectGem` can require the engine to be valid and idle.
- FindMatches: the order of the returned list is unspecified, because the game copies a hash set, whose order is not defined.
- The list of falling gems and their distances (lines 132, 141) exists only to drive the animation, so it is not built. Gravity.FallDistance states the distance each gem moves.
- `Start`, `Awake` and `OnDestroy` are Unity lifecycle hooks wiring up input and audio; only the `InitializeGrid` call in `Start` is modelled, in the constructor.
- `ScoreUI.cs`, `CameraController.cs` and `Gem.cs` are not part of this model. They hold UI text, camera fitting and the sprite wrapper; `Gem.GetType()` is modelled as reading a cell's gem type.
