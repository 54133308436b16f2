/** The solver of solver.py: probability estimates per cell, a queue of
    cells to reveal and a queue of cells to re-examine, driving a game. */
module SolverModel {
  import opened Results
  import opened Grid
  import opened Deque
  import opened Game

  /** What a solver step can raise. */
  datatype SolverError =
    | BoardError(error: Error)      // an exception raised by the game
    | MissingMethod                 // `deque` has no method `extendleftset`
    | DivisionByZero                // the estimate `len(undetected) / len(U)` with U empty

  /** Everything a solver step can change: the game's fields and the solver's. */
  datatype View = View(generated: bool, board: Board, flagsPlaced: int, minesFlagged: int, result: GameResult,
                       revealed: int, updateQueue: seq<Coord>, revealQueue: seq<Coord>,
                       probability: seq<seq<real>>)

  // ---------------------------------------------------------------------
  // The comprehensions of `update`
  // ---------------------------------------------------------------------

  predicate FlaggedAt(b: Board, p: Coord) {
    0 <= p.0 < |b| && 0 <= p.1 < |b[p.0]| && b[p.0][p.1].flagged
  }

  predicate HiddenAt(b: Board, p: Coord) {
    0 <= p.0 < |b| && 0 <= p.1 < |b[p.0]| && !b[p.0][p.1].revealed
  }

  /** F of `update`: the flagged positions of s, in order. */
  function FlaggedIn(b: Board, s: seq<Coord>): (r: seq<Coord>)
    ensures |r| <= |s|
    ensures forall q :: q in r <==> q in s && FlaggedAt(b, q)
    ensures Distinct(s) ==> Distinct(r)
  {
    if s == [] then []
    else
      DistinctTail(s);
      var rest := FlaggedIn(b, s[1..]);
      if FlaggedAt(b, s[0]) then [s[0]] + rest else rest
  }

  /** U of `update`: the unrevealed positions of s, in order. */
  function HiddenIn(b: Board, s: seq<Coord>): (r: seq<Coord>)
    ensures |r| <= |s|
    ensures forall q :: q in r <==> q in s && HiddenAt(b, q)
    ensures Distinct(s) ==> Distinct(r)
  {
    if s == [] then []
    else
      DistinctTail(s);
      var rest := HiddenIn(b, s[1..]);
      if HiddenAt(b, s[0]) then [s[0]] + rest else rest
  }

  lemma DistinctTail(s: seq<Coord>)
    requires s != []
    ensures forall q :: q in s <==> q == s[0] || q in s[1..]
    ensures Distinct(s) ==> Distinct(s[1..]) && s[0] !in s[1..]
  {
    if Distinct(s) {
      forall i, j | 0 <= i < j < |s[1..]| ensures s[1..][i] != s[1..][j] {
        assert s[1..][i] == s[i + 1] && s[1..][j] == s[j + 1];
      }
      forall k | 0 <= k < |s[1..]| ensures s[1..][k] != s[0] {
        assert s[1..][k] == s[k + 1];
      }
    }
  }

  /** |undetected| of `update`: the neighbours not flagged. For a
      duplicate-free neighbourhood this is |set(N) - set(F)|
      (lemma UndetectedCount). */
  function Undetected(b: Board, n: seq<Coord>): (k: nat)
    ensures k <= |n|
  {
    |n| - |FlaggedIn(b, n)|
  }

  /** The estimate `len(undetected) / len(U)`. */
  function Ratio(b: Board, n: seq<Coord>): real
    requires |HiddenIn(b, n)| > 0
  {
    Undetected(b, n) as real / |HiddenIn(b, n)| as real
  }

  /** The five ways `update` can end. */
  datatype UpdateCase =
    | OffBoard      // a neighbour is off the board: `self.game[C]` raises
    | AllFlagged    // nothing undetected: queue the unrevealed neighbours for revealing
    | AllHidden     // as many undetected as unrevealed neighbours: flag the unrevealed ones
    | NoHidden      // otherwise, with no unrevealed neighbour: the estimate divides by zero
    | Estimate      // otherwise: every neighbour gets the estimate

  /** The branch `update` takes for the neighbourhood n on board b. */
  function UpdateKind(rows: int, columns: int, b: Board, n: seq<Coord>): UpdateCase {
    if exists q :: q in n && !InBounds(rows, columns, q) then OffBoard
    else if Undetected(b, n) == 0 then AllFlagged
    else if Undetected(b, n) == |HiddenIn(b, n)| then AllHidden
    else if |HiddenIn(b, n)| == 0 then NoHidden
    else Estimate
  }

  // ---------------------------------------------------------------------
  // The effect of `update`
  // ---------------------------------------------------------------------

  /** The board after `flag` of every position of u. */
  function FlagCells(b: Board, u: seq<Coord>): (b': Board)
    ensures |b'| == |b| && forall x :: 0 <= x < |b| ==> |b'[x]| == |b[x]|
    ensures forall x: int, y: int :: 0 <= x < |b| && 0 <= y < |b[x]| ==>
      b'[x][y] == b[x][y].(flagged := b[x][y].flagged || (x, y) in u)
  {
    seq(|b|, x requires 0 <= x < |b| =>
      seq(|b[x]|, y requires 0 <= y < |b[x]| => b[x][y].(flagged := b[x][y].flagged || (x, y) in u)))
  }

  /** One pass of the flagging loop: the cell u[k] joins the flagged ones. */
  lemma FlagStep(rows: int, columns: int, b0: Board, bk: Board, b2: Board, u: seq<Coord>, k: int)
    requires Shaped(b0, rows, columns) && Shaped(bk, rows, columns)
    requires 0 <= k < |u| && InBounds(rows, columns, u[k])
    requires forall x: int, y: int :: 0 <= x < rows && 0 <= y < columns ==>
      bk[x][y] == b0[x][y].(flagged := b0[x][y].flagged || (x, y) in u[..k])
    requires b2 == Put(bk, u[k], bk[u[k].0][u[k].1].(flagged := true))
    ensures Shaped(b2, rows, columns)
    ensures forall x: int, y: int :: 0 <= x < rows && 0 <= y < columns ==>
      b2[x][y] == b0[x][y].(flagged := b0[x][y].flagged || (x, y) in u[..k + 1])
  {
    assert u[..k + 1] == u[..k] + [u[k]];
  }

  /** The game's result after flagging cs in order, starting from result
      res and counters fp and mf: `flag` declares a win whenever both
      counters reach `mines` after one of the flags. */
  ghost function FlagRunResult(res: GameResult, fp: int, mf: int, mines: int, b: Board, cs: seq<Coord>): GameResult
    decreases |cs|
  {
    if cs == [] then res
    else
      var before := FlagRunResult(res, fp, mf, mines, b, cs[..|cs| - 1]);
      if fp + |cs| == mines && mf + CountMined(b, cs) == mines then Won else before
  }

  /** The grid after every position of s gets probability v. */
  function AssignCells(p: seq<seq<real>>, s: seq<Coord>, v: real): (p': seq<seq<real>>)
    ensures |p'| == |p| && forall x :: 0 <= x < |p| ==> |p'[x]| == |p[x]|
    ensures forall x: int, y: int :: 0 <= x < |p| && 0 <= y < |p[x]| ==>
      p'[x][y] == if (x, y) in s then v else p[x][y]
  {
    seq(|p|, x requires 0 <= x < |p| =>
      seq(|p[x]|, y requires 0 <= y < |p[x]| => if (x, y) in s then v else p[x][y]))
  }

  /** `update` for the neighbourhood n, from state v: the new state and
      what is raised. */
  ghost function UpdateEffect(v: View, rows: int, columns: int, mines: int, n: seq<Coord>): (View, Outcome<SolverError>) {
    match UpdateKind(rows, columns, v.board, n)
    case OffBoard => (v, Fail(BoardError(OutOfBounds)))
    case AllFlagged => (v.(revealQueue := ExtendLeft(v.revealQueue, HiddenIn(v.board, n))), Pass)
    case AllHidden =>
      var u := HiddenIn(v.board, n);
      (v.(board := FlagCells(v.board, u),
          flagsPlaced := v.flagsPlaced + |u|,
          minesFlagged := v.minesFlagged + CountMined(v.board, u),
          result := FlagRunResult(v.result, v.flagsPlaced, v.minesFlagged, mines, v.board, u)),
       Fail(MissingMethod))
    case NoHidden => (v, Fail(DivisionByZero))
    case Estimate => (v.(probability := AssignCells(v.probability, n, Ratio(v.board, n))), Pass)
  }

  // ---------------------------------------------------------------------
  // What `update` means
  // ---------------------------------------------------------------------

  /** Nothing is undetected exactly when every neighbour is flagged. */
  lemma {:induction false} UndetectedZero(b: Board, n: seq<Coord>)
    ensures Undetected(b, n) == 0 <==> forall q :: q in n ==> FlaggedAt(b, q)
  {
    if n != [] {
      DistinctTail(n);
      UndetectedZero(b, n[1..]);
    }
  }

  /** For a duplicate-free neighbourhood, |undetected| is the size of
      set(N) - set(F), the set `update` measures. */
  lemma UndetectedCount(b: Board, n: seq<Coord>)
    requires Distinct(n)
    ensures Undetected(b, n) == |(set q | q in n) - (set q | q in FlaggedIn(b, n))|
  {
    var f := FlaggedIn(b, n);
    CardOfSeq(n);
    CardOfSeq(f);
    SetDiffCard(set q | q in n, set q | q in f);
  }

  lemma SetDiffCard<T>(a: set<T>, b: set<T>)
    requires b <= a
    ensures |a - b| == |a| - |b|
  {
    assert a == (a - b) + b;
  }

  /** `update` raises IndexError exactly when a neighbour is off the
      board; only a raised `extendleftset` leaves a changed board, and
      every raise leaves the estimates alone. */
  lemma UpdateOffBoard(v: View, rows: int, columns: int, mines: int, n: seq<Coord>)
    ensures UpdateEffect(v, rows, columns, mines, n).1 == Fail(BoardError(OutOfBounds)) <==>
            exists q :: q in n && !InBounds(rows, columns, q)
    ensures UpdateEffect(v, rows, columns, mines, n).1 == Fail(BoardError(OutOfBounds)) ==>
            UpdateEffect(v, rows, columns, mines, n).0 == v
    ensures UpdateEffect(v, rows, columns, mines, n).1.Fail? ==> UpdateEffect(v, rows, columns, mines, n).0.probability == v.probability
    ensures UpdateEffect(v, rows, columns, mines, n).1 != Fail(MissingMethod) ==> UpdateEffect(v, rows, columns, mines, n).0.board == v.board
  {
  }

  /** All neighbours flagged: the unrevealed ones are pushed on the
      reveal queue, most recent leftmost, and nothing else changes. */
  lemma UpdateAllFlagged(v: View, rows: int, columns: int, mines: int, n: seq<Coord>)
    requires forall q :: q in n ==> InBounds(rows, columns, q)
    requires forall q :: q in n ==> FlaggedAt(v.board, q)
    ensures var (v', o) := UpdateEffect(v, rows, columns, mines, n);
      && o == Pass
      && v' == v.(revealQueue := Reverse(HiddenIn(v.board, n)) + v.revealQueue)
      && forall q :: q in v'.revealQueue[..|v'.revealQueue| - |v.revealQueue|] <==> q in n && HiddenAt(v.board, q)
  {
    UndetectedZero(v.board, n);
    var u := HiddenIn(v.board, n);
    ExtendLeftReverse(v.revealQueue, u);
    var q' := Reverse(u) + v.revealQueue;
    assert q'[..|q'| - |v.revealQueue|] == Reverse(u);
    forall q ensures q in Reverse(u) <==> q in u {
      if q in u {
        var i :| 0 <= i < |u| && u[i] == q;
        assert Reverse(u)[|u| - 1 - i] == q;
      }
    }
  }

  /** As many undetected as unrevealed neighbours, with something
      undetected: every unrevealed neighbour is flagged, the flag counter
      grows by their number, and then `extendleftset` raises. */
  lemma UpdateFlagsHidden(v: View, rows: int, columns: int, mines: int, n: seq<Coord>)
    requires forall q :: q in n ==> InBounds(rows, columns, q)
    requires exists q :: q in n && !FlaggedAt(v.board, q)
    requires |n| - |FlaggedIn(v.board, n)| == |HiddenIn(v.board, n)|
    ensures var (v', o) := UpdateEffect(v, rows, columns, mines, n);
      && o == Fail(MissingMethod)
      && |v'.board| == |v.board|
      && (forall x: int, y: int :: 0 <= x < |v.board| && 0 <= y < |v.board[x]| ==>
            v'.board[x][y] == v.board[x][y].(flagged := v.board[x][y].flagged || ((x, y) in n && !v.board[x][y].revealed)))
      && v'.flagsPlaced == v.flagsPlaced + |HiddenIn(v.board, n)|
      && v'.revealQueue == v.revealQueue && v'.updateQueue == v.updateQueue && v'.probability == v.probability
  {
    UndetectedZero(v.board, n);
  }

  /** `update` divides by zero exactly when every neighbour is on the
      board and revealed but not every neighbour is flagged. */
  lemma UpdateDivisionByZero(v: View, rows: int, columns: int, mines: int, n: seq<Coord>)
    ensures UpdateEffect(v, rows, columns, mines, n).1 == Fail(DivisionByZero) <==>
      && (forall q :: q in n ==> InBounds(rows, columns, q))
      && (exists q :: q in n && !FlaggedAt(v.board, q))
      && (forall q :: q in n ==> !HiddenAt(v.board, q))
  {
    UndetectedZero(v.board, n);
    NoneHidden(v.board, n);
  }

  /** U is empty exactly when every neighbour is revealed. */
  lemma NoneHidden(b: Board, n: seq<Coord>)
    ensures HiddenIn(b, n) == [] <==> forall q :: q in n ==> !HiddenAt(b, q)
  {
    var u := HiddenIn(b, n);
    if u != [] {
      assert u[0] in u;
    }
  }

  /** Otherwise every neighbour gets the estimate, the positive ratio of
      unflagged to unrevealed neighbours, and nothing else changes. */
  lemma UpdateEstimate(v: View, rows: int, columns: int, mines: int, n: seq<Coord>)
    requires forall q :: q in n ==> InBounds(rows, columns, q)
    requires exists q :: q in n && !FlaggedAt(v.board, q)
    requires |HiddenIn(v.board, n)| > 0 && |n| - |FlaggedIn(v.board, n)| != |HiddenIn(v.board, n)|
    ensures Ratio(v.board, n) > 0.0
    ensures var (v', o) := UpdateEffect(v, rows, columns, mines, n);
      && o == Pass
      && v' == v.(probability := v'.probability)
      && |v'.probability| == |v.probability|
      && forall x: int, y: int :: 0 <= x < |v.probability| && 0 <= y < |v.probability[x]| ==>
           v'.probability[x][y] ==
             if (x, y) in n then (|n| - |FlaggedIn(v.board, n)|) as real / |HiddenIn(v.board, n)| as real
             else v.probability[x][y]
  {
    UndetectedZero(v.board, n);
    assert UpdateKind(rows, columns, v.board, n) == Estimate;
    PositiveQuotient(Undetected(v.board, n), |HiddenIn(v.board, n)|);
  }

  lemma PositiveQuotient(a: int, b: int)
    requires a > 0 && b > 0
    ensures a as real / b as real > 0.0
  {
  }

  // ---------------------------------------------------------------------
  // Guessing
  // ---------------------------------------------------------------------

  /** p comes before q in row-major scan order. */
  predicate ScanBefore(p: Coord, q: Coord) {
    p.0 < q.0 || (p.0 == q.0 && p.1 < q.1)
  }

  /** The inner `min` of `guess`: the first position, in row-major order,
      holding the least value, or None on a grid without cells (where
      the source would fail on the unbound `coords`). */
  method MinCell(L: seq<seq<real>>) returns (m: Option<Coord>)
    ensures m.None? <==> forall i :: 0 <= i < |L| ==> |L[i]| == 0
    ensures m.Some? ==>
      var (i, j) := m.value;
      && 0 <= i < |L| && 0 <= j < |L[i]|
      && (forall x: int, y: int :: 0 <= x < |L| && 0 <= y < |L[x]| ==> L[i][j] <= L[x][y])
      && (forall x: int, y: int :: 0 <= x < |L| && 0 <= y < |L[x]| && ScanBefore((x, y), (i, j)) ==> L[i][j] < L[x][y])
  {
    var minval: Option<real> := None;   // None stands for float("Inf")
    var coords: Coord := (0, 0);
    var i := 0;
    while i < |L|
      invariant 0 <= i <= |L|
      invariant minval.None? <==> forall x :: 0 <= x < i ==> |L[x]| == 0
      invariant minval.Some? ==>
        && 0 <= coords.0 < i && 0 <= coords.1 < |L[coords.0]| && minval.value == L[coords.0][coords.1]
        && (forall x: int, y: int :: 0 <= x < i && 0 <= y < |L[x]| ==> minval.value <= L[x][y])
        && (forall x: int, y: int :: 0 <= x < i && 0 <= y < |L[x]| && ScanBefore((x, y), coords) ==> minval.value < L[x][y])
    {
      var j := 0;
      while j < |L[i]|
        invariant 0 <= j <= |L[i]|
        invariant minval.None? <==> (forall x :: 0 <= x < i ==> |L[x]| == 0) && j == 0
        invariant minval.Some? ==>
          && 0 <= coords.0 <= i && 0 <= coords.1 < |L[coords.0]| && minval.value == L[coords.0][coords.1]
          && (coords.0 == i ==> coords.1 < j)
          && (forall x: int, y: int :: 0 <= x < |L| && 0 <= y < |L[x]| && (x < i || (x == i && y < j)) ==> minval.value <= L[x][y])
          && (forall x: int, y: int :: 0 <= x < |L| && 0 <= y < |L[x]| && (x < i || (x == i && y < j)) && ScanBefore((x, y), coords) ==>
                minval.value < L[x][y])
      {
        if minval.None? || L[i][j] < minval.value {
          minval := Some(L[i][j]);
          coords := (i, j);
        }
        j := j + 1;
      }
      i := i + 1;
    }
    if minval.Some? {
      m := Some(coords);
    } else {
      m := None;
    }
  }

  // ---------------------------------------------------------------------
  // Draws for the game's first reveal
  // ---------------------------------------------------------------------

  /** The solver's draws: on the board, and more distinct positions than
      mines, so that enough remain whichever cell is revealed first. */
  /** One pass of the `solve` loop from state v to state w, raising o:
      reveal the oldest entry of the reveal queue if there is one, else
      update the oldest entry of the update queue if there is one, else
      queue the first least-probability cell. */
  ghost predicate StepRel(v: View, w: View, rows: int, columns: int, mines: int, draws: seq<Coord>,
                          o: Outcome<SolverError>) {
    if v.revealQueue != [] then
      var p := Last(v.revealQueue);
      && o == Pass
      && w.revealQueue == Front(v.revealQueue)
      && w.generated && w.revealed == v.revealed
      && RevealEffect(rows, columns, v.generated, v.board, w.board, p, v.result, w.result,
                      w.flagsPlaced == mines && w.minesFlagged == mines, draws)
      && w.flagsPlaced == v.flagsPlaced && w.minesFlagged == v.minesFlagged
      && w.updateQueue == ExtendLeft(v.updateQueue, Adjacents(rows, columns, p))
      && w.probability == v.probability
    else if v.updateQueue != [] then
      var p := Last(v.updateQueue);
      (w, o) == UpdateEffect(v.(updateQueue := Front(v.updateQueue)), rows, columns, mines, Adjacents(rows, columns, p))
    else
      && o == Pass
      && w == v.(revealQueue := w.revealQueue)
      && |w.revealQueue| == 1 && Shaped(w.probability, rows, columns)
      && var (i, j) := w.revealQueue[0];
         && InBounds(rows, columns, (i, j))
         && (forall x: int, y: int :: 0 <= x < rows && 0 <= y < columns ==> w.probability[i][j] <= w.probability[x][y])
         && (forall x: int, y: int :: 0 <= x < rows && 0 <= y < columns && ScanBefore((x, y), (i, j)) ==>
               w.probability[i][j] < w.probability[x][y])
  }

  /** The states before the passes of `solve` and after the last one:
      every pass starts on an undecided game and is one StepRel, raising
      nothing but possibly the last, which raises o. */
  ghost predicate Passes(trace: seq<View>, rows: int, columns: int, mines: int, draws: seq<Coord>,
                         o: Outcome<SolverError>) {
    forall k :: 0 <= k < |trace| - 1 ==>
      && trace[k].result == Undecided
      && StepRel(trace[k], trace[k + 1], rows, columns, mines, draws, if k == |trace| - 2 then o else Pass)
  }

  /** One more pass extends the passes. */
  lemma PassesSnoc(trace: seq<View>, w: View, rows: int, columns: int, mines: int, draws: seq<Coord>,
                   o: Outcome<SolverError>)
    requires trace != [] && Passes(trace, rows, columns, mines, draws, Pass)
    requires trace[|trace| - 1].result == Undecided
    requires StepRel(trace[|trace| - 1], w, rows, columns, mines, draws, o)
    ensures Passes(trace + [w], rows, columns, mines, draws, o)
  {
    var t := trace + [w];
    forall k | 0 <= k < |t| - 1
      ensures t[k].result == Undecided
      ensures StepRel(t[k], t[k + 1], rows, columns, mines, draws, if k == |t| - 2 then o else Pass)
    {
      assert t[k] == trace[k];
      if k < |t| - 2 {
        assert t[k + 1] == trace[k + 1];
      }
    }
  }

  ghost predicate SolverDraws(rows: int, columns: int, draws: seq<Coord>, mines: int) {
    && (forall i :: 0 <= i < |draws| ==> InBounds(rows, columns, draws[i]))
    && |Drawn(draws, |draws|)| > mines
  }

  lemma SolverDrawsEnough(rows: int, columns: int, draws: seq<Coord>, mines: int, p: Coord)
    requires SolverDraws(rows, columns, draws, mines)
    ensures EnoughDraws(rows, columns, draws, p, mines)
  {
    var s := Drawn(draws, |draws|);
    if p in s {
      assert |s - {p}| == |s| - 1;
    } else {
      assert s - {p} == s;
    }
  }

  // ---------------------------------------------------------------------
  // The solver
  // ---------------------------------------------------------------------

  class Solver {
    const game: Minesweeper
    const rows: int
    const columns: int
    const mines: int
    var revealed: int
    var updateQueue: seq<Coord>
    var revealQueue: seq<Coord>
    var probability: seq<seq<real>>

    ghost predicate Valid()
      reads this, game
    {
      && game.Valid()
      && rows == game.rows && columns == game.columns && mines == game.mines
      && Shaped(probability, rows, columns)
      && (forall i :: 0 <= i < |updateQueue| ==> InBounds(rows, columns, updateQueue[i]))
      && (forall i :: 0 <= i < |revealQueue| ==> InBounds(rows, columns, revealQueue[i]))
    }

    /** The state of the solver and its game. */
    function Snap(): View
      reads this, game
    {
      View(game.generated, game.board, game.flagsPlaced, game.minesFlagged, game.result,
           revealed, updateQueue, revealQueue, probability)
    }

    /** `__init__`: copies the game's dimensions, starts with empty queues
        and the uniform estimate mines / (rows * columns) everywhere. */
    constructor (game: Minesweeper)
      requires game.Valid()
      ensures Valid()
      ensures this.game == game
      ensures rows == game.rows && columns == game.columns && mines == game.mines
      ensures revealed == 0 && updateQueue == [] && revealQueue == []
      ensures forall x: int, y: int :: 0 <= x < rows && 0 <= y < columns ==>
        probability[x][y] == game.mines as real / (game.rows * game.columns) as real
    {
      this.game := game;
      rows := game.rows;
      columns := game.columns;
      mines := game.mines;
      revealed := 0;
      updateQueue := [];
      revealQueue := [];
      PositiveProduct(game.rows, game.columns);
      var v := game.mines as real / (game.rows * game.columns) as real;
      probability := Filled(game.rows, game.columns, v);
    }

    /** `neighborhood(r, c)`: the list the game's `_adjacents` builds,
        so the on-board touching cells of an on-board position. */
    function Neighborhood(r: int, c: int): (n: seq<Coord>)
      ensures Distinct(n)
      ensures InBounds(rows, columns, (r, c)) ==>
        forall q :: q in n <==> InBounds(rows, columns, q) && Touching(q, (r, c))
    {
      AdjacentsDistinct(rows, columns, (r, c));
      if InBounds(rows, columns, (r, c)) then AdjacentsExact(rows, columns, (r, c)); Adjacents(rows, columns, (r, c))
      else Adjacents(rows, columns, (r, c))
    }

    /** `guess`: queue the first least-probable cell for revealing. */
    method Guess()
      requires Valid()
      modifies this`revealQueue
      ensures Valid()
      ensures |revealQueue| == |old(revealQueue)| + 1 && revealQueue[1..] == old(revealQueue)
      ensures var (i, j) := revealQueue[0];
        && InBounds(rows, columns, (i, j))
        && (forall x: int, y: int :: 0 <= x < rows && 0 <= y < columns ==> probability[i][j] <= probability[x][y])
        && (forall x: int, y: int :: 0 <= x < rows && 0 <= y < columns && ScanBefore((x, y), (i, j)) ==>
              probability[i][j] < probability[x][y])
    {
      var m := MinCell(probability);
      assert |probability[0]| == columns;
      revealQueue := AppendLeft(revealQueue, m.value);
    }

    /** `update(r, c)`, up to the point where it returns or raises. */
    method Update(r: int, c: int) returns (o: Outcome<SolverError>)
      requires Valid()
      modifies this, game
      ensures Valid()
      ensures (Snap(), o) == UpdateEffect(old(Snap()), rows, columns, mines, Neighborhood(r, c))
    {
      var n := Neighborhood(r, c);
      match UpdateKind(rows, columns, game.board, n)
      case OffBoard =>
        o := Fail(BoardError(OutOfBounds));
      case AllFlagged =>
        o := QueueHidden(n);
      case AllHidden =>
        o := FlagHidden(n);
      case NoHidden =>
        o := Fail(DivisionByZero);
      case Estimate =>
        o := EstimateAll(n);
    }

    /** `self.reveal_queue.extendleft(U)`, when nothing is undetected. */
    method QueueHidden(n: seq<Coord>) returns (o: Outcome<SolverError>)
      requires Valid()
      requires UpdateKind(rows, columns, game.board, n) == AllFlagged
      modifies this`revealQueue
      ensures Valid()
      ensures (Snap(), o) == UpdateEffect(old(Snap()), rows, columns, mines, n)
    {
      var u := HiddenIn(game.board, n);
      revealQueue := ExtendLeft(revealQueue, u);
      ExtendLeftReverse(old(revealQueue), u);
      o := Pass;
    }

    /** The flagging branch: flag every unrevealed neighbour, then fail on
        `extendleftset`. */
    method FlagHidden(n: seq<Coord>) returns (o: Outcome<SolverError>)
      requires Valid()
      requires UpdateKind(rows, columns, game.board, n) == AllHidden
      modifies game
      ensures Valid()
      ensures (Snap(), o) == UpdateEffect(old(Snap()), rows, columns, mines, n)
    {
      FlagAll(HiddenIn(game.board, n));
      o := Fail(MissingMethod);
    }

    /** The estimating branch: every neighbour gets the estimate. */
    method EstimateAll(n: seq<Coord>) returns (o: Outcome<SolverError>)
      requires Valid()
      requires UpdateKind(rows, columns, game.board, n) == Estimate
      modifies this`probability
      ensures Valid()
      ensures (Snap(), o) == UpdateEffect(old(Snap()), rows, columns, mines, n)
    {
      AssignAll(n, Ratio(game.board, n));
      o := Pass;
    }

    /** The loop `for x, y in N: self.probability[x][y] = ...` of `update`. */
    method AssignAll(n: seq<Coord>, v: real)
      requires Valid()
      requires forall q :: q in n ==> InBounds(rows, columns, q)
      modifies this`probability
      ensures Valid()
      ensures probability == AssignCells(old(probability), n, v)
    {
      var k := 0;
      while k < |n|
        invariant 0 <= k <= |n|
        invariant Valid()
        invariant forall x: int, y: int :: 0 <= x < rows && 0 <= y < columns ==>
          probability[x][y] == if (x, y) in n[..k] then v else old(probability)[x][y]
      {
        var (x, y) := n[k];
        assert n[k] in n;
        probability := probability[x := probability[x][y := v]];
        assert n[..k + 1] == n[..k] + [n[k]];
        k := k + 1;
      }
      assert n[..k] == n;
      GridsEqual(probability, AssignCells(old(probability), n, v), rows, columns);
    }

    /** The loop `for C in U: self.game.flag(*C)` of `update`. */
    method FlagAll(u: seq<Coord>)
      requires Valid()
      requires forall q :: q in u ==> InBounds(rows, columns, q)
      modifies game
      ensures Valid()
      ensures game.board == FlagCells(old(game.board), u)
      ensures game.flagsPlaced == old(game.flagsPlaced) + |u|
      ensures game.minesFlagged == old(game.minesFlagged) + CountMined(old(game.board), u)
      ensures game.result == FlagRunResult(old(game.result), old(game.flagsPlaced), old(game.minesFlagged),
                                           mines, old(game.board), u)
      ensures game.generated == old(game.generated)
    {
      ghost var b0: Board := game.board;
      var k := 0;
      while k < |u|
        invariant 0 <= k <= |u|
        invariant Valid()
        invariant Shaped(game.board, rows, columns)
        invariant forall x: int, y: int :: 0 <= x < rows && 0 <= y < columns ==>
          game.board[x][y] == b0[x][y].(flagged := b0[x][y].flagged || (x, y) in u[..k])
        invariant game.flagsPlaced == old(game.flagsPlaced) + k
        invariant game.minesFlagged == old(game.minesFlagged) + CountMined(b0, u[..k])
        invariant game.result == FlagRunResult(old(game.result), old(game.flagsPlaced), old(game.minesFlagged), mines, b0, u[..k])
        invariant game.generated == old(game.generated)
      {
        var q := u[k];
        assert q in u;
        ghost var bk: Board := game.board;
        var s := game.Flag(q.0, q.1);
        FlagStep(rows, columns, b0, bk, game.board, u, k);
        CountMinedSnoc(b0, u[..k], q);
        assert u[..k + 1] == u[..k] + [q];
        assert u[..k + 1][..k] == u[..k];
        k := k + 1;
      }
      assert u[..k] == u;
      GridsEqual(game.board, FlagCells(b0, u), rows, columns);
    }

    /** `reveal(r, c)`: reveal through the game, then queue every
        neighbour for an update. */
    method Reveal(r: int, c: int, draws: seq<Coord>) returns (o: Outcome<SolverError>)
      requires Valid()
      requires !game.generated && InBounds(rows, columns, (r, c)) ==> EnoughDraws(rows, columns, draws, (r, c), mines)
      modifies this, game
      ensures Valid()
      ensures o.Fail? <==> !InBounds(rows, columns, (r, c))
      ensures o.Fail? ==> o == Fail(BoardError(OutOfBounds)) && unchanged(this) && unchanged(game)
      ensures o.Pass? ==>
        && game.generated && game.flagsPlaced == old(game.flagsPlaced) && game.minesFlagged == old(game.minesFlagged)
        && RevealEffect(rows, columns, old(game.generated), old(game.board), game.board, (r, c),
                        old(game.result), game.result, game.WinCondition(), draws)
        && updateQueue == ExtendLeft(old(updateQueue), Neighborhood(r, c))
        && revealQueue == old(revealQueue) && probability == old(probability) && revealed == old(revealed)
    {
      var status := game.Reveal(r, c, draws);
      if status.Fail? {
        return Fail(BoardError(status.error));
      }
      PushUpdates(Neighborhood(r, c));
      o := Pass;
    }

    /** The loop `for D in self.neighborhood(r, c): self.update_queue.appendleft(D)`. */
    method PushUpdates(n: seq<Coord>)
      requires Valid()
      requires forall q :: q in n ==> InBounds(rows, columns, q)
      modifies this`updateQueue
      ensures Valid()
      ensures updateQueue == ExtendLeft(old(updateQueue), n)
    {
      var k := 0;
      while k < |n|
        invariant 0 <= k <= |n|
        invariant Valid()
        invariant updateQueue == ExtendLeft(old(updateQueue), n[..k])
      {
        assert n[k] in n;
        ExtendLeftSnoc(old(updateQueue), n[..k], n[k]);
        assert n[..k + 1] == n[..k] + [n[k]];
        updateQueue := AppendLeft(updateQueue, n[k]);
        k := k + 1;
      }
      assert n[..k] == n;
    }

    /** One pass of the `solve` loop: reveal the oldest entry of the reveal
        queue if there is one, else update the oldest entry of the update
        queue if there is one, else guess. */
    method Step(draws: seq<Coord>) returns (o: Outcome<SolverError>)
      requires Valid()
      requires SolverDraws(rows, columns, draws, mines)
      modifies this, game
      ensures Valid()
      ensures o.Fail? ==> o == Fail(MissingMethod) || o == Fail(DivisionByZero)
      ensures StepRel(old(Snap()), Snap(), rows, columns, mines, draws, o)
    {
      if revealQueue != [] {
        var p := Last(revealQueue);
        revealQueue := Front(revealQueue);
        SolverDrawsEnough(rows, columns, draws, mines, p);
        o := Reveal(p.0, p.1, draws);
      } else if updateQueue != [] {
        var p := Last(updateQueue);
        updateQueue := Front(updateQueue);
        UpdateOffBoard(Snap(), rows, columns, mines, Neighborhood(p.0, p.1));
        o := Update(p.0, p.1);
      } else {
        Guess();
        o := Pass;
      }
    }

    /** `solve`, for at most `fuel` passes: the loop runs while the game is
        not over, and stops early only when a pass raises. `trace` holds
        the state before each pass and the final state; every pass starts
        on an undecided game and is one Step, all raising nothing but the
        last. */
    method Solve(fuel: nat, draws: seq<Coord>) returns (o: Outcome<SolverError>, steps: nat, ghost trace: seq<View>)
      requires Valid()
      requires SolverDraws(rows, columns, draws, mines)
      modifies this, game
      ensures Valid()
      ensures steps <= fuel
      ensures o.Pass? ==> game.GameOver() || steps == fuel
      ensures o.Fail? ==> o == Fail(MissingMethod) || o == Fail(DivisionByZero)
      ensures old(game.GameOver()) ==> steps == 0 && o == Pass && unchanged(this) && unchanged(game)
      ensures |trace| == steps + 1 && trace[0] == old(Snap()) && trace[steps] == Snap()
      ensures Passes(trace, rows, columns, mines, draws, o)
    {
      o := Pass;
      steps := 0;
      trace := [Snap()];
      while steps < fuel && !game.GameOver()
        invariant Valid()
        invariant steps <= fuel
        invariant o == Pass
        invariant old(game.GameOver()) ==> steps == 0 && unchanged(this) && unchanged(game)
        invariant |trace| == steps + 1 && trace[0] == old(Snap()) && trace[steps] == Snap()
        invariant Passes(trace, rows, columns, mines, draws, Pass)
      {
        ghost var before := trace;
        steps := steps + 1;
        o := Step(draws);
        PassesSnoc(before, Snap(), rows, columns, mines, draws, o);
        trace := trace + [Snap()];
        if o.Fail? {
          return;
        }
      }
    }
  }
}
