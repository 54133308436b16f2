# Minesweeper engine and solver, modelled in Dafny

This project models two Python classes and proves properties of the model:
- The board engine `Minesweeper` of minesweeper.py. It is a grid of cells, each with `has_mine`, `revealed`, `flagged` and `adjacent_mines`, plus the two flag counters, the `generated` flag and the tri-state `result`. It covers construction with argument checks, bounds checks, the clamped 8-neighbourhood, `flag`/`unflag`, deferred mine placement, and the recursive `reveal` with its flood fill and its loss pass.
- The `Solver` of solver.py. It holds a probability grid and two deques used as FIFO queues. It covers `guess`, `neighborhood`, `update`, `reveal` and the step loop of `solve`.

Modules, one concept each:

- `Results` (results.dfy): `Option`, `Result` and `Outcome`. These stand in for the exceptions the source raises.
- `Grid` (grid.dfy): cells, coordinates, the neighbourhood comprehension `_adjacents` and mine counting.
- `Deque` (deque.dfy): the part of `collections.deque` the solver uses, on sequences whose index 0 is the left end.
- `Game` (game.dfy): class `Minesweeper`.
  - The board is a value of type `seq<seq<Cell>>` held in a field. Every operation reassigns it.
  - Counters and flags are fields updated in place.
  - `Valid()` is the game invariant `WellFormed`:
    - the board is rows x columns and every count is the number of mined neighbours;
    - before generation there are no mines and no revealed cells;
    - after generation exactly max(mines, 0) cells hold mines (the constructor only rejects a count that is too large, so a negative one places none).
  - `reveal` stays recursive: `Reveal` calls `RevealCell`, which calls `RevealAllMines`/`ExposeMine` or `Cascade`, which call `Reveal` again. Termination is by the number of hidden cells.
- `SolverModel` (solver.dfy): class `Solver`, holding a reference to the game.
  - `update` is specified by the state function `UpdateEffect` over a `View` of the solver and game fields. The `Update*` lemmas state what each of its branches means.
- `Findings` (findings.dfy): two defects of the source. Each comes with the code as written, an input that shows the defect, and the corrected behaviour with its property.

Modelling choices:
- **randrange.** `_place_mines` draws positions with `randrange`. The model takes those draws as a parameter `draws` instead. Its precondition asks for enough distinct on-board draws.
- **Raised errors.** The source raises in three places. They become error values:
  - the `extendleftset` call (not a deque method, solver.py:82) is `MissingMethod`, raised after the flags are placed;
  - the division `len(undetected) / len(U)` with `U` empty (solver.py:85) is `DivisionByZero`, raised with nothing changed;
  - the game's `IndexError`s are `Error` values.
- **Grid layout.** The board and the probability grid are rows x columns and indexed `[row][column]`. The source builds them transposed; see Findings.
- **`unflag`.** `unflag` is modelled exactly as written, including its inverted mine test. Nothing else in the core calls it. One stated expectation of the system is that flagging and then unflagging restores both counters. The code does not do this, and the model follows the code (Findings).
- **Zero mines.** On a game without mines and with no flags placed, the first reveal of an unflagged cell wins (`Game.FirstRevealWithoutMines`). A flag placed beforehand, on any cell, stops that win, because `flags_placed` or `mines_flagged` then differs from 0 (a flag and an unflag on a clear cell leave `flags_placed` at 0 and `mines_flagged` at -1).
- **The outcome.** Two stated expectations of the system do not hold for the code, and the model follows the code:
  - that a decided outcome never changes: `reveal` does not consult `game_over`, so a later reveal can turn a loss into a win or a win into a loss (`Game.RevealKeepsOver` states what does hold: a decided game never becomes undecided);
  - that a win means every mine is flagged: `flag` counts a flag on an already flagged cell again, so flagging one mine twice wins a two-mine game (`Game.FlagTwiceWins`).

## Model

| member | source | states |
|---|---|---|
| Game.ConstructorMines | minesweeper.py:131-149 | fails exactly when rows <= 0, columns <= 0 or a supplied count >= rows*columns, with the error of the first failing check; otherwise the supplied count, or floor(rows*columns/3) when none is given |
| Game.Minesweeper.constructor | minesweeper.py:138-149 | a valid game of the given size on a fresh board, not generated, counters 0, result undecided |
| Game.Minesweeper.Create | minesweeper.py:122-149 | raises exactly when the argument checks fail, with their error; otherwise the fresh valid game |
| Game.FreshBoardWellFormed | minesweeper.py:141 | a board of fresh cells satisfies the game invariant before generation |
| Game.Minesweeper.TestBounds | minesweeper.py:94-120 | passes exactly when (r, c) is on the board, the `_test_bounds_nonfatal` test; otherwise fails with OutOfBounds |
| Game.Minesweeper.WinCondition | minesweeper.py:179-180 | the win test of `flag` and `reveal`; a reveal never changes it, since Reveal ensures `WinCondition() == old(WinCondition())`; it can hold with a mine unflagged (Game.FlagTwiceWins) |
| Game.Minesweeper.GameOver | minesweeper.py:230-237 | the game is over exactly when the result is decided; flag, unflag and reveal never clear it, since each ensures `old(GameOver()) ==> GameOver()` |
| Game.RevealKeepsOver | minesweeper.py:271-291 | a reveal never makes a decided game undecided, and ends in Won only from Won or when the win test holds |
| Game.FlagTwiceWins | minesweeper.py:173-181 | with two mines and no flags, flagging one mined cell twice wins while the other mine stays unflagged |
| Game.Minesweeper.Get | minesweeper.py:151-163 | the cell at (r, c) exactly when it is on the board, OutOfBounds otherwise |
| Grid.AdjacentsExact | minesweeper.py:223-228 | the neighbourhood of an on-board cell holds exactly the on-board cells touching it, never the cell itself |
| Grid.AdjacentsDistinct | minesweeper.py:223-228 | no neighbour is listed twice, even at an edge where the clamped index coincides with the centre |
| Grid.AdjacentsSymmetric | minesweeper.py:223-228 | q is a neighbour of p exactly when p is a neighbour of q |
| Grid.Span | minesweeper.py:224-227 | the clamped index set of one axis, each member once |
| Grid.CountMinedZero | minesweeper.py:205-209 | a count of mined positions is zero exactly when none of the positions holds a mine |
| Grid.CountMinedAddMine | minesweeper.py:250-253 | adding a mine raises the count of a duplicate-free list by one exactly when the list holds it |
| Grid.CountMinedSnoc | minesweeper.py:205-209 | counting one more position adds one exactly when it holds a mine |
| Grid.CountMinedSame | minesweeper.py:205-209 | a count depends only on the mines at the listed positions |
| Game.Minesweeper.CountAdjacentMines | minesweeper.py:197-209 | on an on-board cell, the number of mined neighbours, which for a valid game is the cell's stored count |
| Game.Minesweeper.Flag | minesweeper.py:165-181 | bounds first and nothing changes on failure; otherwise only that cell becomes flagged, flags_placed +1, mines_flagged +1 exactly when it holds a mine, result Won when both counters equal mines; a finished game stays finished; the invariant is kept |
| Game.Minesweeper.Unflag | minesweeper.py:183-195 | bounds first; otherwise only that cell is unflagged, flags_placed -1, mines_flagged -1 exactly when it holds no mine, result untouched, so a finished game stays finished |
| Game.LayoutKeepsWellFormed | minesweeper.py:174 | changing only revealed/flagged marks keeps the game invariant |
| Game.Minesweeper.PlantMine | minesweeper.py:250-253 | mining a clear cell and raising each neighbour's count adds exactly that cell to the mines, keeps every count correct and changes no mark |
| Game.MinePlanted | minesweeper.py:250-253 | after the neighbour loop every cell's count equals its number of mined neighbours |
| Game.Minesweeper.TryPlace | minesweeper.py:248-253 | a draw is accepted exactly when it holds no mine and is not the protected cell |
| Game.Minesweeper.PlaceMines | minesweeper.py:239-253 | from a fresh board, exactly `mines` cells are mined: the distinct draws other than the protected cell among the first `used` draws, where the draw before the last one used still left placement short; counts correct, no mark changed |
| Game.PlaceStep | minesweeper.py:247-251 | one pass of the placement loop adds the draw to the mined set exactly when it is accepted |
| Game.DrawsRemain | minesweeper.py:247-248 | while fewer than `mines` are placed, a draw remains |
| Game.Minesweeper.Reveal | minesweeper.py:255-291 | bounds first and nothing changes on failure; counters unchanged; the first reveal places mines from the draws away from (r, c) and reveals it unless flagged, winning when the counters match; later reveals as RevealCell; the win test is unchanged and a finished game stays finished |
| Game.FirstRevealEffect | minesweeper.py:265-269 | placing mines away from p on a board with nothing revealed, then revealing p, leaves p mine-free, every mine among the draws, p revealed exactly when unflagged, and revealed cells safe |
| Game.Minesweeper.RevealCell | minesweeper.py:271-291 | a flagged or revealed cell: nothing changes; a mine: every mine revealed and unflagged, everything else unchanged, result Lost; otherwise mines and counts unchanged, flags kept, revealed cells stay revealed, the cell is revealed, every newly revealed cell is mine-free and unflagged, and a zero-count newly revealed cell has only open neighbours; result Won when the counters match |
| Game.Minesweeper.RevealAllMines | minesweeper.py:277-281 | every mined cell ends revealed and unflagged; no other cell changes |
| Game.Minesweeper.ExposeMine | minesweeper.py:279-281 | one mined cell unflagged and revealed; any further reveal only exposes mines |
| Game.MineHitExposed | minesweeper.py:274-283 | revealing the hit mine then every mine is the full loss pass on the board before the hit |
| Game.Minesweeper.Cascade | minesweeper.py:285-287 | after the flood fill from a zero-count cell every neighbour is revealed or flagged, mines and counts unchanged, revealed cells stay revealed |
| Game.ZeroCountNeighboursClear | minesweeper.py:285-287 | the neighbours of a zero-count cell are on the board and hold no mine |
| Game.CascadeStep | minesweeper.py:286-287 | each recursive reveal of the flood fill keeps the growth property and leaves the neighbours handled so far open |
| Game.GrowsTrans | minesweeper.py:286-287 | two successive safe reveals compose into one |
| Grid.UnrevealedDrops | minesweeper.py:274 | revealing a hidden cell strictly shrinks the set of hidden cells, so the recursion ends |
| Game.FirstRevealWithoutMines | minesweeper.py:265-269 | with no mines and no flags, the first reveal of an unflagged cell wins, reveals that cell and places no mine |
| Deque.AppendLeft | solver.py:44 | `appendleft` puts x at the left end and keeps the rest |
| Deque.ExtendLeftReverse | solver.py:78 | `extendleft(xs)` leaves xs reversed on the left, the most recent leftmost |
| Deque.ExtendLeftSnoc | solver.py:96-98 | `appendleft` after pushing xs is pushing xs followed by x |
| Deque.Front | solver.py:108 | `pop` leaves the deque without its right end |
| Deque.DrainReverse | solver.py:106-111 | popping until empty returns the deque reversed |
| Deque.Fifo | solver.py:106-111 | pushes come out in the order they were pushed, after what was queued before |
| Deque.PopOldest | solver.py:108 | popping after pushes onto an empty deque returns the first pushed |
| SolverModel.Solver.constructor | solver.py:9-29 | dimensions copied from the game, queues empty, every estimate mines/(rows*columns) |
| SolverModel.Solver.Neighborhood | solver.py:46-62 | duplicate-free; for an on-board cell exactly the on-board touching cells |
| SolverModel.MinCell | solver.py:34-42 | None exactly when the grid has no cell; otherwise a cell whose value no cell undercuts, strictly below every cell earlier in row-major order |
| SolverModel.Solver.Guess | solver.py:31-44 | pushes on the left of the reveal queue an on-board cell of least probability, the first in row-major order; nothing else changes |
| SolverModel.FlaggedIn | solver.py:73 | F: the flagged positions of N, in order, no more entries than N, duplicate-free when N is |
| SolverModel.HiddenIn | solver.py:74 | U: the unrevealed positions of N, in order, no more entries than N, duplicate-free when N is |
| SolverModel.UndetectedZero | solver.py:76-77 | nothing is undetected exactly when every neighbour is flagged |
| SolverModel.UndetectedCount | solver.py:76 | for a duplicate-free N the count used is the size of set(N) - set(F) |
| SolverModel.NoneHidden | solver.py:74 | U is empty exactly when every neighbour is revealed |
| SolverModel.Solver.Update | solver.py:64-85 | the new solver and game state and the outcome are UpdateEffect of the old state |
| SolverModel.Solver.QueueHidden | solver.py:77-78 | with nothing undetected, U is pushed on the reveal queue; nothing else changes |
| SolverModel.Solver.FlagHidden | solver.py:79-82 | with as many undetected as unrevealed neighbours, every cell of U is flagged through `flag`, then MissingMethod |
| SolverModel.Solver.EstimateAll | solver.py:83-85 | otherwise every neighbour gets the estimate; nothing else changes |
| SolverModel.Solver.FlagAll | solver.py:80-81 | flagging U in turn flags exactly those cells, adds |U| to flags_placed and their mined count to mines_flagged, and leaves the result `flag` would leave |
| SolverModel.Solver.AssignAll | solver.py:84-85 | the neighbours get the value, every other cell keeps its estimate |
| SolverModel.UpdateOffBoard | solver.py:72-74 | `update` raises the game's IndexError exactly when a neighbour is off the board, and then changes nothing; only the flagging branch changes the board; no raise changes the estimates |
| SolverModel.UpdateAllFlagged | solver.py:76-78 | all neighbours flagged: Pass, and the only change is the unrevealed neighbours pushed, reversed, on the left of the reveal queue |
| SolverModel.UpdateFlagsHidden | solver.py:79-82 | every unrevealed neighbour becomes flagged and nothing else does, flags_placed grows by their number, the queues and estimates are unchanged, and MissingMethod is raised |
| SolverModel.UpdateDivisionByZero | solver.py:83-85 | DivisionByZero exactly when every neighbour is on the board and revealed but not all are flagged |
| SolverModel.UpdateEstimate | solver.py:83-85 | every neighbour gets (unflagged neighbours)/(unrevealed neighbours), a positive value, and nothing else changes |
| SolverModel.SolverDrawsEnough | solver.py:95 | draws with more distinct positions than mines suffice for the game's first reveal wherever it happens |
| SolverModel.Solver.Reveal | solver.py:87-98 | bounds first and nothing changes on failure; otherwise the game's reveal takes effect and every neighbour is pushed on the left of the update queue, in order |
| SolverModel.Solver.PushUpdates | solver.py:96-98 | the neighbours are pushed on the left of the update queue in turn |
| SolverModel.Solver.Step | solver.py:106-114 | the new state and outcome are StepRel of the old state: with a non-empty reveal queue its oldest entry is popped and revealed, after which mines are placed; else with a non-empty update queue its oldest entry is popped and updated; else the first least-probability cell in row-major order is queued; the solver's `revealed` counter never changes; only MissingMethod or DivisionByZero can be raised |
| SolverModel.Solver.Solve | solver.py:100-114 | the ghost `trace` runs from the state before to the state after through one state per pass, each pass a StepRel (one Step) started on an undecided game, only the last raising; it ends with Pass only when the game is over or the fuel is used up; a raise is MissingMethod or DivisionByZero; on a finished game it does nothing |
| Findings.TransposedGrid | minesweeper.py:141 | the grid the source builds has `columns` rows of `rows` entries |
| Findings.TransposedGridFails | minesweeper.py:141 | on every non-square board some on-board position is missing from the grid as written |
| Findings.OneByTwo | minesweeper.py:141 | on a 1 x 2 board the on-board cell (0, 1) cannot be looked up |
| Findings.SquareGridsAgree | solver.py:26-29 | on square boards the written and the intended layouts coincide |
| Findings.UniformGridLookup | solver.py:26-29 | in the corrected layout every on-board position can be looked up |
| Findings.FlagThenUnflag | minesweeper.py:174-195 | flag then unflag restores flags_placed but moves mines_flagged by +1 on a mined cell and -1 on a clear one, so never back |
| Findings.CorrectedUnflag | minesweeper.py:183-195 | `unflag` with the corrected test: bounds first, only that cell unflagged, flags_placed -1, mines_flagged -1 exactly when it holds a mine, result kept, game invariant kept |
| Findings.FlagThenCorrectedUnflag | minesweeper.py:173-195 | with the corrected `unflag`, flagging an unflagged cell and unflagging it gives back the board, flags_placed and mines_flagged |

## Left out

- Presentation is not modelled: `USE_UNICODE`, `_ENGLISH`, `Symbols`, `Cell.__str__`/`__repr__` and `Minesweeper.__str__` (minesweeper.py:11-88, 293-305). They only render glyphs.
- `Minesweeper.play` and `restart`, and test.py, are not modelled. They are the interactive input loop and its harness.
- The prints in `solve` and its final report are not modelled. They are output only.
- `randrange` is replaced by the `draws` parameter. The model does not claim that the rejection sampling terminates on random input.
- Python set iteration order is not modelled. The neighbourhood comprehension visits each axis in ascending order, so the order of pushes into the queues rests on that choice.
- Probabilities are exact `real`s, not floats.
- The `revealed` counter of the solver is only initialised; the source never updates it.
- SolverModel.Solver.Solve: runs for at most `fuel` passes, because `solve` has no bound and `guess` can pick a revealed cell forever. It states no progress towards the end of the game.
- SolverModel.Solver.Step: on a reveal, states the game's effect through RevealEffect and not the exact set of cells the flood fill reaches.
- Game.Minesweeper.Reveal: states that newly revealed cells are safe and that zero-count ones end with open neighbours. It does not state that nothing beyond the flood region is revealed.
- Game.Minesweeper.RevealCell: gives the same lower bound on the flood fill through `Grows`. It does not state that no cell outside the region reachable through zero-count cells gets revealed.
- Game.Minesweeper.Cascade: states that every neighbour ends open and that newly revealed cells are safe. It does not bound the cells revealed to the flood region.
- SolverModel.Solver.Reveal: passes on the game's effect through RevealEffect, so it has the same missing upper bound on the cells revealed.
- The recursion depth of `reveal` is not modelled. On a large open board the source's recursion can exceed Python's recursion limit and raise RecursionError; the model's recursion is unbounded.
- SolverModel.MinCell: on a grid without cells it returns None, where the source would fail on the unbound `coords`. A game's grid always has cells.
- The `extendleftset` push of solver.py:82 is not modelled. The call fails in the source, and the model stops at that failure.

## Findings

| source | as written | input that shows it | evidently intended | confidence | as-written member | corrected member |
|---|---|---|---|---|---|---|
| minesweeper.py:141 | the board is `columns` lists of `rows` cells, indexed `board[r][c]` | rows = 1, columns = 2: (0, 1) passes `_test_bounds` but `self.board[0][1]` raises IndexError | `rows` lists of `columns` cells | high, not executed | Findings.TransposedGridFails | Findings.UniformGridLookup |
| solver.py:26-29 | the estimates are `columns` lists of `rows` values, indexed `probability[x][y]` | rows = 1, columns = 2: `probability[0][1]` raises IndexError for the on-board cell (0, 1). In a run this is masked: the grid has the board's transposed shape, so `update` reaches that index only after `self.game[C]` (solver.py:73) has already raised at minesweeper.py:163 | `rows` lists of `columns` values, as in SolverModel.Solver.constructor | high, not executed | Findings.TransposedGridFails | Findings.UniformGridLookup |
| minesweeper.py:194-195 | `unflag` takes one off `mines_flagged` when the cell has no mine | flag then unflag a clear cell: `mines_flagged` ends one lower than before | take one off when the cell has a mine, undoing `flag` | medium, not executed | Findings.FlagThenUnflag | Findings.FlagThenCorrectedUnflag |
