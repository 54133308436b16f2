/**
  The board engine: class Minesweeper of minesweeper.py. The grid is a
  value (a sequence of rows) held in a field that every operation
  reassigns; the counters, the `generated` flag and the result are fields
  updated in place, as in the source.
*/
module Game {
  import opened Results
  import opened Grid

  /** The source's tri-state `result`: None, True, False. */
  datatype GameResult = Undecided | Won | Lost

  /** The IndexError the source raises, by the message it carries. */
  datatype Error = RowsNotPositive | ColumnsNotPositive | TooManyMines | OutOfBounds

  function Max0(n: int): nat {
    if n < 0 then 0 else n
  }

  /** The argument checks and the default of `Minesweeper.__init__`: the
      mine count the game will use, or the error it raises. */
  function ConstructorMines(rows: int, columns: int, mines: Option<int>): (r: Result<int, Error>)
    ensures r.Failure? <==> rows <= 0 || columns <= 0 || (mines.Some? && mines.value >= rows * columns)
    ensures r.Failure? ==> r.error == (if rows <= 0 then RowsNotPositive
                                        else if columns <= 0 then ColumnsNotPositive
                                        else TooManyMines)
    ensures r.Success? ==> r.value < rows * columns
    ensures r.Success? && mines.Some? ==> r.value == mines.value
    ensures r.Success? && mines.None? ==> 0 <= r.value && 3 * r.value <= rows * columns < 3 * r.value + 3
  {
    if rows <= 0 then Failure(RowsNotPositive)
    else if columns <= 0 then Failure(ColumnsNotPositive)
    else if mines.Some? && mines.value >= rows * columns then Failure(TooManyMines)
    else
      assert rows * columns >= 1 by { PositiveProduct(rows, columns); }
      Success(if mines.Some? then mines.value else (rows * columns) / 3)
  }

  lemma PositiveProduct(a: int, b: int)
    requires a > 0 && b > 0
    ensures a * b >= 1
  {
  }

  // ---------------------------------------------------------------------
  // Board invariants and the shapes of the transitions
  // ---------------------------------------------------------------------

  /** Every cell's count is the number of mined cells in its neighbourhood. */
  ghost predicate CountsCorrect(rows: int, columns: int, b: Board)
    requires Shaped(b, rows, columns)
  {
    forall x: int, y: int {:trigger Adjacents(rows, columns, (x, y))} :: 0 <= x < rows && 0 <= y < columns ==>
      b[x][y].adjacentMines == CountMined(b, Adjacents(rows, columns, (x, y)))
  }

  ghost predicate NoneRevealed(b: Board) {
    forall x: int, y: int :: 0 <= x < |b| && 0 <= y < |b[x]| ==> !b[x][y].revealed
  }

  /** The state invariant of a game: a rows x columns board whose counts
      are right, free of mines and of revealed cells until generation, and
      holding exactly the configured number of mines afterwards. */
  ghost predicate WellFormed(rows: int, columns: int, mines: int, generated: bool, b: Board) {
    && rows > 0 && columns > 0 && mines < rows * columns
    && Shaped(b, rows, columns)
    && CountsCorrect(rows, columns, b)
    && (if generated then |MinedSet(b)| == Max0(mines) else MinedSet(b) == {} && NoneRevealed(b))
  }

  /** b1 has the mines and the counts of b0. */
  ghost predicate SameLayout(rows: int, columns: int, b0: Board, b1: Board) {
    && Shaped(b0, rows, columns) && Shaped(b1, rows, columns)
    && forall x: int, y: int :: 0 <= x < rows && 0 <= y < columns ==>
         b1[x][y].hasMine == b0[x][y].hasMine && b1[x][y].adjacentMines == b0[x][y].adjacentMines
  }

  /** The two boards have one shape and agree on every revealed and flagged mark. */
  ghost predicate SameMarks(rows: int, columns: int, b0: Board, b1: Board) {
    && Shaped(b0, rows, columns) && Shaped(b1, rows, columns)
    && forall x: int, y: int :: 0 <= x < rows && 0 <= y < columns ==>
         b1[x][y].revealed == b0[x][y].revealed && b1[x][y].flagged == b0[x][y].flagged
  }

  /** The position is on the board and revealed or flagged. */
  predicate Open(b: Board, q: Coord) {
    0 <= q.0 < |b| && 0 <= q.1 < |b[q.0]| && (b[q.0][q.1].revealed || b[q.0][q.1].flagged)
  }

  /** The effect of a reveal that does not hit a mine: flags stay, revealed
      cells stay revealed, and every newly revealed cell is mine-free,
      unflagged and, if its count is zero, has only open neighbours. */
  ghost predicate Grows(rows: int, columns: int, b0: Board, b1: Board) {
    && Shaped(b0, rows, columns) && Shaped(b1, rows, columns)
    && forall x: int, y: int :: 0 <= x < rows && 0 <= y < columns ==>
         && b1[x][y].flagged == b0[x][y].flagged
         && (b0[x][y].revealed ==> b1[x][y].revealed)
         && (b1[x][y].revealed && !b0[x][y].revealed ==>
               && !b1[x][y].hasMine && !b1[x][y].flagged
               && (b1[x][y].adjacentMines == 0 ==>
                     forall q :: q in Adjacents(rows, columns, (x, y)) ==> Open(b1, q)))
  }

  /** A mined cell as the loss pass leaves it. */
  function Expose(cell: Cell): Cell {
    cell.(revealed := true, flagged := false)
  }

  /** The effect of revealing a mine: every mined cell revealed and
      unflagged, every other cell as it was. */
  ghost predicate Exposed(rows: int, columns: int, b0: Board, b1: Board) {
    && Shaped(b0, rows, columns) && Shaped(b1, rows, columns)
    && forall x: int, y: int :: 0 <= x < rows && 0 <= y < columns ==>
         b1[x][y] == if b0[x][y].hasMine then Expose(b0[x][y]) else b0[x][y]
  }

  /** Part way through the loss pass: the mined cells before (i, j) in
      row-major order are exposed, later ones may or may not be. */
  ghost predicate PartlyExposed(rows: int, columns: int, b0: Board, b1: Board, i: int, j: int) {
    && Shaped(b0, rows, columns) && Shaped(b1, rows, columns)
    && forall x: int, y: int :: 0 <= x < rows && 0 <= y < columns ==>
         if b0[x][y].hasMine then
           && (b1[x][y] == b0[x][y] || b1[x][y] == Expose(b0[x][y]))
           && (x < i || (x == i && y < j) ==> b1[x][y] == Expose(b0[x][y]))
         else b1[x][y] == b0[x][y]
  }

  /** The loss pass has unflagged the mined cell (i, j) and revealed it. */
  lemma ExposeStep(rows: int, columns: int, b0: Board, bk: Board, bu: Board, b2: Board, i: int, j: int)
    requires PartlyExposed(rows, columns, b0, bk, i, j) && 0 <= i < rows && 0 <= j < columns
    requires bk[i][j].hasMine
    requires bu == Put(bk, (i, j), bk[i][j].(flagged := false))
    requires Shaped(b2, rows, columns)
    requires (bu[i][j].revealed && b2 == bu) || Exposed(rows, columns, bu, b2)
    ensures PartlyExposed(rows, columns, b0, b2, i, j + 1)
  {
  }

  /** The loss pass skips the unmined cell (i, j). */
  lemma SkipStep(rows: int, columns: int, b0: Board, b: Board, i: int, j: int)
    requires PartlyExposed(rows, columns, b0, b, i, j) && 0 <= i < rows && 0 <= j < columns
    requires !b[i][j].hasMine
    ensures PartlyExposed(rows, columns, b0, b, i, j + 1)
  {
  }

  lemma RowStep(rows: int, columns: int, b0: Board, b: Board, i: int)
    requires PartlyExposed(rows, columns, b0, b, i, columns)
    ensures PartlyExposed(rows, columns, b0, b, i + 1, 0)
  {
  }

  lemma AllExposed(rows: int, columns: int, b0: Board, b: Board)
    requires PartlyExposed(rows, columns, b0, b, rows, 0)
    ensures Exposed(rows, columns, b0, b)
  {
  }

  /** What `reveal(p)` does once mines are placed, from board b0 and result
      res0, the win condition `won` holding throughout. */
  ghost predicate RevealOutcome(rows: int, columns: int, b0: Board, b1: Board, p: Coord,
                                res0: GameResult, res1: GameResult, won: bool) {
    && Shaped(b0, rows, columns) && Shaped(b1, rows, columns) && InBounds(rows, columns, p)
    && var cell := b0[p.0][p.1];
       if cell.flagged || cell.revealed then b1 == b0 && res1 == res0
       else if cell.hasMine then Exposed(rows, columns, b0, b1) && res1 == Lost
       else
         && SameLayout(rows, columns, b0, b1) && Grows(rows, columns, b0, b1)
         && b1[p.0][p.1].revealed
         && res1 == (if won then Won else res0)
  }

  /** What `reveal(p)` does to the board and the result, on a game whose
      mines are placed (`generated0`) or not yet: the first reveal places
      mines from the draws away from p, then reveals p, which holds no mine. */
  ghost predicate RevealEffect(rows: int, columns: int, generated0: bool, b0: Board, b1: Board, p: Coord,
                               res0: GameResult, res1: GameResult, won: bool, draws: seq<Coord>) {
    if generated0 then RevealOutcome(rows, columns, b0, b1, p, res0, res1, won)
    else
      && Shaped(b0, rows, columns) && Shaped(b1, rows, columns) && InBounds(rows, columns, p)
      && !b1[p.0][p.1].hasMine
      && MinedSet(b1) <= Drawn(draws, |draws|)
      && Grows(rows, columns, b0, b1)
      && (b1[p.0][p.1].revealed <==> !b0[p.0][p.1].flagged)
      && res1 == (if !b0[p.0][p.1].flagged && won then Won else res0)
  }

  /** The random draws of `_place_mines`: on the board, and holding at
      least `mines` distinct positions other than the protected one. */
  ghost predicate EnoughDraws(rows: int, columns: int, draws: seq<Coord>, protected: Coord, mines: int) {
    && (forall i :: 0 <= i < |draws| ==> InBounds(rows, columns, draws[i]))
    && |Drawn(draws, |draws|) - {protected}| >= mines
  }

  /** The positions among the first `n` draws. */
  ghost function Drawn(draws: seq<Coord>, n: int): (s: set<Coord>)
    requires 0 <= n <= |draws|
    ensures forall k :: 0 <= k < n ==> draws[k] in s
  {
    set k | 0 <= k < n :: draws[k]
  }

  // ---------------------------------------------------------------------
  // Lemmas about the invariants
  // ---------------------------------------------------------------------

  lemma DrawnStep(draws: seq<Coord>, n: int)
    requires 0 <= n < |draws|
    ensures Drawn(draws, n + 1) == Drawn(draws, n) + {draws[n]}
  {
  }

  lemma DrawnStepExcept(draws: seq<Coord>, n: int, protected: Coord)
    requires 0 <= n < |draws|
    ensures draws[n] == protected ==> Drawn(draws, n + 1) - {protected} == Drawn(draws, n) - {protected}
    ensures draws[n] != protected ==> Drawn(draws, n + 1) - {protected} == (Drawn(draws, n) - {protected}) + {draws[n]}
  {
    DrawnStep(draws, n);
  }

  /** One pass of the `_place_mines` loop keeps the mined set equal to
      the accepted draws and its size equal to the count of placed mines. */
  lemma PlaceStep(draws: seq<Coord>, i: int, protected: Coord, mines: int, placed: int,
                  m0: set<Coord>, m1: set<Coord>, accepted: bool)
    requires 0 <= i < |draws|
    requires m0 == Drawn(draws, i) - {protected}
    requires placed == |m0| < mines
    requires accepted <==> draws[i] !in m0 && draws[i] != protected
    requires m1 == m0 + (if draws[i] != protected then {draws[i]} else {})
    ensures m1 == Drawn(draws, i + 1) - {protected}
    ensures |m1| == placed + (if accepted then 1 else 0) <= Max0(mines)
    ensures |Drawn(draws, i) - {protected}| < Max0(mines)
  {
    DrawnStepExcept(draws, i, protected);
    if accepted {
      assert |m0 + {draws[i]}| == |m0| + 1;
    } else if draws[i] != protected {
      assert m0 + {draws[i]} == m0;
    }
  }

  /** While fewer than `mines` draws have been accepted, a draw remains. */
  lemma DrawsRemain(draws: seq<Coord>, i: int, protected: Coord, mines: int, placed: set<Coord>)
    requires 0 <= i <= |draws|
    requires |Drawn(draws, |draws|) - {protected}| >= mines
    requires placed == Drawn(draws, i) - {protected} && |placed| < mines
    ensures i < |draws|
  {
  }

  lemma DrawnGrows(draws: seq<Coord>, m: int, n: int)
    requires 0 <= m <= n <= |draws|
    ensures Drawn(draws, m) <= Drawn(draws, n)
  {
  }

  /** Cell (x, y) of b0 after `d` is mined and the counts of the cells
      in s are raised by one. */
  ghost function Planted(b0: Board, d: Coord, s: seq<Coord>, x: int, y: int): Cell
    requires 0 <= x < |b0| && 0 <= y < |b0[x]|
  {
    b0[x][y].(hasMine := b0[x][y].hasMine || (x, y) == d,
              adjacentMines := b0[x][y].adjacentMines + (if (x, y) in s then 1 else 0))
  }

  /** Raising the count of the next neighbour extends the planted prefix. */
  lemma RaiseStep(rows: int, columns: int, b0: Board, b: Board, b': Board, d: Coord, adj: seq<Coord>, k: int)
    requires Shaped(b0, rows, columns) && Shaped(b, rows, columns)
    requires Distinct(adj) && 0 <= k < |adj| && InBounds(rows, columns, adj[k])
    requires forall x: int, y: int :: 0 <= x < rows && 0 <= y < columns ==> b[x][y] == Planted(b0, d, adj[..k], x, y)
    requires b' == Put(b, adj[k], b[adj[k].0][adj[k].1].(adjacentMines := b[adj[k].0][adj[k].1].adjacentMines + 1))
    ensures Shaped(b', rows, columns)
    ensures forall x: int, y: int :: 0 <= x < rows && 0 <= y < columns ==> b'[x][y] == Planted(b0, d, adj[..k + 1], x, y)
  {
    assert adj[..k + 1] == adj[..k] + [adj[k]];
    assert adj[k] !in adj[..k];
  }

  /** Mining `d` and raising the count of each of its neighbours by one
      keeps every count correct. */
  lemma MinePlanted(rows: int, columns: int, b0: Board, b2: Board, d: Coord)
    requires Shaped(b0, rows, columns) && CountsCorrect(rows, columns, b0)
    requires InBounds(rows, columns, d) && !b0[d.0][d.1].hasMine
    requires Shaped(b2, rows, columns)
    requires forall x: int, y: int :: 0 <= x < rows && 0 <= y < columns ==> b2[x][y] == Planted(b0, d, Adjacents(rows, columns, d), x, y)
    ensures CountsCorrect(rows, columns, b2)
    ensures MinedSet(b2) == MinedSet(b0) + {d}
  {
    var b1 := Put(b0, d, b0[d.0][d.1].(hasMine := true));
    forall x: int, y: int | 0 <= x < rows && 0 <= y < columns
      ensures b2[x][y].adjacentMines == CountMined(b2, Adjacents(rows, columns, (x, y)))
    {
      MinePlantedAt(rows, columns, b0, b1, b2, d, (x, y));
    }
    MinedSetSame(b1, b2, rows, columns);
    MinedSetPut(rows, columns, b0, d);
  }

  /** The count of one cell after `d` is mined. */
  lemma MinePlantedAt(rows: int, columns: int, b0: Board, b1: Board, b2: Board, d: Coord, p: Coord)
    requires Shaped(b0, rows, columns) && Shaped(b2, rows, columns)
    requires InBounds(rows, columns, d) && !b0[d.0][d.1].hasMine
    requires InBounds(rows, columns, p)
    requires b0[p.0][p.1].adjacentMines == CountMined(b0, Adjacents(rows, columns, p))
    requires b1 == Put(b0, d, b0[d.0][d.1].(hasMine := true))
    requires forall x: int, y: int :: 0 <= x < rows && 0 <= y < columns ==> b2[x][y].hasMine == b1[x][y].hasMine
    requires b2[p.0][p.1].adjacentMines == b0[p.0][p.1].adjacentMines + (if p in Adjacents(rows, columns, d) then 1 else 0)
    ensures b2[p.0][p.1].adjacentMines == CountMined(b2, Adjacents(rows, columns, p))
  {
    var ax := Adjacents(rows, columns, p);
    AdjacentsExact(rows, columns, p);
    AdjacentsDistinct(rows, columns, p);
    AdjacentsSymmetric(rows, columns, p, d);
    CountMinedAddMine(b0, b1, ax, d);
    CountMinedSame(b1, b2, ax);
  }

  /** Mining one unmined cell adds exactly that cell to the mined set. */
  lemma MinedSetPut(rows: int, columns: int, b0: Board, d: Coord)
    requires Shaped(b0, rows, columns) && InBounds(rows, columns, d)
    ensures MinedSet(Put(b0, d, b0[d.0][d.1].(hasMine := true))) == MinedSet(b0) + {d}
  {
    var b1 := Put(b0, d, b0[d.0][d.1].(hasMine := true));
    forall p | p in MinedSet(b1) ensures p in MinedSet(b0) + {d} {
      var x: int, y: int :| 0 <= x < |b1| && 0 <= y < |b1[x]| && b1[x][y].hasMine && p == (x, y);
    }
    forall p | p in MinedSet(b0) + {d} ensures p in MinedSet(b1) {
      if p != d {
        var x: int, y: int :| 0 <= x < |b0| && 0 <= y < |b0[x]| && b0[x][y].hasMine && p == (x, y);
      }
    }
  }

  /** A fresh board satisfies the invariant of an ungenerated game. */
  lemma FreshBoardWellFormed(rows: int, columns: int, mines: int)
    requires rows > 0 && columns > 0 && mines < rows * columns
    ensures WellFormed(rows, columns, mines, false, FreshBoard(rows, columns))
  {
    var b: Board := FreshBoard(rows, columns);
    forall x: int, y: int | 0 <= x < rows && 0 <= y < columns
      ensures b[x][y].adjacentMines == CountMined(b, Adjacents(rows, columns, (x, y)))
    {
      CountMinedZero(b, Adjacents(rows, columns, (x, y)));
    }
    assert MinedSet(b) == {};
  }

  lemma SameMarksTrans(rows: int, columns: int, b0: Board, b1: Board, b2: Board)
    requires SameMarks(rows, columns, b0, b1) && SameMarks(rows, columns, b1, b2)
    ensures SameMarks(rows, columns, b0, b2)
  {
  }

  /** Changing only whether cells are revealed or flagged keeps the invariant. */
  lemma LayoutKeepsWellFormed(rows: int, columns: int, mines: int, generated: bool, b0: Board, b1: Board)
    requires WellFormed(rows, columns, mines, generated, b0)
    requires SameLayout(rows, columns, b0, b1)
    requires !generated ==> NoneRevealed(b1)
    ensures WellFormed(rows, columns, mines, generated, b1)
  {
    forall x: int, y: int | 0 <= x < rows && 0 <= y < columns
      ensures b1[x][y].adjacentMines == CountMined(b1, Adjacents(rows, columns, (x, y)))
    {
      AdjacentsExact(rows, columns, (x, y));
      CountMinedSame(b0, b1, Adjacents(rows, columns, (x, y)));
    }
    MinedSetSame(b0, b1, rows, columns);
  }

  /** The neighbours of a revealed zero-count cell hold no mine. */
  lemma ZeroCountNeighboursClear(rows: int, columns: int, mines: int, generated: bool, b: Board, p: Coord)
    requires WellFormed(rows, columns, mines, generated, b)
    requires InBounds(rows, columns, p) && b[p.0][p.1].adjacentMines == 0
    ensures forall q :: q in Adjacents(rows, columns, p) ==> InBounds(rows, columns, q) && !b[q.0][q.1].hasMine
  {
    AdjacentsExact(rows, columns, p);
    CountMinedZero(b, Adjacents(rows, columns, p));
  }

  lemma GrowsTrans(rows: int, columns: int, b0: Board, b1: Board, b2: Board)
    requires Grows(rows, columns, b0, b1) && Grows(rows, columns, b1, b2)
    requires SameLayout(rows, columns, b1, b2)
    ensures Grows(rows, columns, b0, b2)
  {
    forall x: int, y: int | 0 <= x < rows && 0 <= y < columns && b2[x][y].revealed && !b0[x][y].revealed
      ensures b2[x][y].adjacentMines == 0 ==> forall q :: q in Adjacents(rows, columns, (x, y)) ==> Open(b2, q)
    {
      if b1[x][y].revealed {
        forall q | q in Adjacents(rows, columns, (x, y)) && b2[x][y].adjacentMines == 0 ensures Open(b2, q) {
          assert Open(b1, q);
        }
      }
    }
  }

  /** One neighbour revealed by the flood fill: the fill so far still
      grows from the start and every neighbour handled so far is open. */
  lemma CascadeStep(rows: int, columns: int, b0: Board, bk: Board, b2: Board, adj: seq<Coord>, k: int,
                    res0: GameResult, res1: GameResult, won: bool)
    requires SameLayout(rows, columns, b0, bk) && Grows(rows, columns, b0, bk)
    requires 0 <= k < |adj| && InBounds(rows, columns, adj[k]) && !bk[adj[k].0][adj[k].1].hasMine
    requires forall i :: 0 <= i < k ==> Open(bk, adj[i])
    requires RevealOutcome(rows, columns, bk, b2, adj[k], res0, res1, won)
    ensures SameLayout(rows, columns, b0, b2) && Grows(rows, columns, b0, b2)
    ensures forall i :: 0 <= i < k + 1 ==> Open(b2, adj[i])
    ensures res1 == res0 || (won && res1 == Won)
  {
    if b2 != bk {
      GrowsTrans(rows, columns, b0, bk, b2);
    }
  }

  /** Revealing the mine p and then every mine exposes every mine of the
      board before p was revealed. */
  lemma MineHitExposed(rows: int, columns: int, b: Board, b0: Board, b1: Board, p: Coord)
    requires Shaped(b, rows, columns) && InBounds(rows, columns, p)
    requires b[p.0][p.1].hasMine && !b[p.0][p.1].flagged
    requires b0 == Put(b, p, b[p.0][p.1].(revealed := true))
    requires Exposed(rows, columns, b0, b1)
    ensures Exposed(rows, columns, b, b1)
  {
  }

  /** Revealing the target and then cascading from it grows the board. */
  lemma GrowsFromTarget(rows: int, columns: int, b: Board, b0: Board, b1: Board, p: Coord)
    requires Shaped(b, rows, columns) && InBounds(rows, columns, p)
    requires !b[p.0][p.1].revealed && !b[p.0][p.1].flagged && !b[p.0][p.1].hasMine
    requires b0 == Put(b, p, b[p.0][p.1].(revealed := true))
    requires Grows(rows, columns, b0, b1) && SameLayout(rows, columns, b0, b1)
    requires b0[p.0][p.1].adjacentMines == 0 ==> forall q :: q in Adjacents(rows, columns, p) ==> Open(b1, q)
    ensures Grows(rows, columns, b, b1) && SameLayout(rows, columns, b, b1)
  {
  }

  /** The first reveal: mines placed from the draws on a board with
      nothing revealed, away from p, then the reveal proper of p. */
  lemma FirstRevealEffect(rows: int, columns: int, b0: Board, b1: Board, b2: Board, p: Coord,
                          res0: GameResult, res1: GameResult, won: bool, draws: seq<Coord>)
    requires SameMarks(rows, columns, b0, b1) && NoneRevealed(b0)
    requires InBounds(rows, columns, p) && p !in MinedSet(b1)
    requires MinedSet(b1) <= Drawn(draws, |draws|)
    requires RevealOutcome(rows, columns, b1, b2, p, res0, res1, won)
    ensures RevealEffect(rows, columns, false, b0, b2, p, res0, res1, won, draws)
  {
    assert !b1[p.0][p.1].hasMine && !b1[p.0][p.1].revealed;
    if !b1[p.0][p.1].flagged {
      MinedSetSame(b1, b2, rows, columns);
    }
  }

  /** A reveal never takes a decided game back to undecided. It can turn
      a loss into a win, or a win into a loss, since `reveal` does not
      look at `game_over`; it declares a win only when the win test holds. */
  lemma RevealKeepsOver(rows: int, columns: int, generated0: bool, b0: Board, b1: Board, p: Coord,
                        res0: GameResult, res1: GameResult, won: bool, draws: seq<Coord>)
    requires RevealEffect(rows, columns, generated0, b0, b1, p, res0, res1, won, draws)
    ensures res0 != Undecided ==> res1 != Undecided
    ensures res1 == Won ==> res0 == Won || won
  {
  }

  // ---------------------------------------------------------------------
  // The game
  // ---------------------------------------------------------------------

  class Minesweeper {
    const rows: int
    const columns: int
    const mines: int
    var generated: bool
    var board: Board
    var flagsPlaced: int
    var minesFlagged: int
    var result: GameResult

    ghost predicate Valid()
      reads this
    {
      WellFormed(rows, columns, mines, generated, board)
    }

    /** The win test of `flag` and `reveal`: both counters at `mines`.
        It does not by itself mean that every mine is flagged
        (FlagTwiceWins). */
    predicate WinCondition(): (won: bool)
      reads this
      ensures won ==> flagsPlaced == minesFlagged == mines
    {
      flagsPlaced == mines && minesFlagged == mines
    }

    /** `__init__` with arguments it accepts. */
    constructor (rows: int, columns: int, mines: Option<int>)
      requires ConstructorMines(rows, columns, mines).Success?
      ensures Valid()
      ensures this.rows == rows && this.columns == columns
      ensures this.mines == ConstructorMines(rows, columns, mines).value
      ensures board == FreshBoard(rows, columns) && !generated
      ensures flagsPlaced == 0 && minesFlagged == 0 && result == Undecided
    {
      this.rows := rows;
      this.columns := columns;
      generated := false;
      board := FreshBoard(rows, columns);
      flagsPlaced := 0;
      minesFlagged := 0;
      result := Undecided;
      this.mines := ConstructorMines(rows, columns, mines).value;
      new;
      FreshBoardWellFormed(rows, columns, this.mines);
    }

    /** `__init__` with any arguments: the game, or the error it raises. */
    static method Create(rows: int, columns: int, mines: Option<int>) returns (r: Result<Minesweeper, Error>)
      ensures r.Failure? <==> ConstructorMines(rows, columns, mines).Failure?
      ensures r.Failure? ==> r.error == ConstructorMines(rows, columns, mines).error
      ensures r.Success? ==>
        && fresh(r.value) && r.value.Valid()
        && r.value.rows == rows && r.value.columns == columns
        && r.value.mines == ConstructorMines(rows, columns, mines).value
        && r.value.board == FreshBoard(rows, columns) && !r.value.generated
        && r.value.flagsPlaced == 0 && r.value.minesFlagged == 0 && r.value.result == Undecided
    {
      var checked := ConstructorMines(rows, columns, mines);
      if checked.Failure? {
        return Failure(checked.error);
      }
      var game := new Minesweeper(rows, columns, mines);
      return Success(game);
    }

    /** `_test_bounds`: raises exactly when `_test_bounds_nonfatal` is false. */
    function TestBounds(r: int, c: int): (o: Outcome<Error>)
      ensures o.Pass? <==> InBounds(rows, columns, (r, c))
      ensures o.Fail? ==> o.error == OutOfBounds
    {
      if (r < 0 || r >= rows) || (c < 0 || c >= columns) then Fail(OutOfBounds) else Pass
    }

    /** `__getitem__`: the cell at (r, c), after the bounds check. */
    function Get(r: int, c: int): (res: Result<Cell, Error>)
      requires Valid()
      reads this
      ensures res.Success? <==> InBounds(rows, columns, (r, c))
      ensures res.Success? ==> res.value == board[r][c]
      ensures res.Failure? ==> res.error == OutOfBounds
    {
      if TestBounds(r, c).Fail? then Failure(OutOfBounds) else Success(board[r][c])
    }

    /** `game_over`: the result is decided, won or lost. */
    predicate GameOver(): (over: bool)
      reads this
      ensures over <==> result == Won || result == Lost
    {
      result != Undecided
    }

    method Flag(r: int, c: int) returns (status: Outcome<Error>)
      requires Valid()
      modifies this
      ensures Valid()
      ensures status == TestBounds(r, c)
      ensures status.Fail? ==> unchanged(this)
      ensures status.Pass? ==>
        && board == Put(old(board), (r, c), old(board[r][c]).(flagged := true))
        && flagsPlaced == old(flagsPlaced) + 1
        && minesFlagged == old(minesFlagged) + (if old(board[r][c]).hasMine then 1 else 0)
        && result == (if WinCondition() then Won else old(result))
        && generated == old(generated)
      ensures old(GameOver()) ==> GameOver()
    {
      status := TestBounds(r, c);
      if status.Fail? {
        return;
      }
      ghost var b0: Board := board;
      board := Put(board, (r, c), board[r][c].(flagged := true));
      LayoutKeepsWellFormed(rows, columns, mines, generated, b0, board);
      flagsPlaced := flagsPlaced + 1;
      if board[r][c].hasMine {
        minesFlagged := minesFlagged + 1;
      }
      if flagsPlaced == mines && minesFlagged == mines {
        result := Won;
      }
    }

    method Unflag(r: int, c: int) returns (status: Outcome<Error>)
      requires Valid()
      modifies this
      ensures Valid()
      ensures status == TestBounds(r, c)
      ensures status.Fail? ==> unchanged(this)
      ensures status.Pass? ==>
        && board == Put(old(board), (r, c), old(board[r][c]).(flagged := false))
        && flagsPlaced == old(flagsPlaced) - 1
        && minesFlagged == old(minesFlagged) - (if old(board[r][c]).hasMine then 0 else 1)
        && result == old(result)
        && generated == old(generated)
      ensures old(GameOver()) ==> GameOver()
    {
      status := TestBounds(r, c);
      if status.Fail? {
        return;
      }
      ghost var b0: Board := board;
      board := Put(board, (r, c), board[r][c].(flagged := false));
      LayoutKeepsWellFormed(rows, columns, mines, generated, b0, board);
      flagsPlaced := flagsPlaced - 1;
      if !board[r][c].hasMine {
        minesFlagged := minesFlagged - 1;
      }
    }

    /** `_count_adjacent_mines`: counts through `__getitem__`, so it raises
        as soon as a listed neighbour is off the board. */
    method CountAdjacentMines(r: int, c: int) returns (res: Result<int, Error>)
      requires Valid()
      ensures res.Success? <==> forall q :: q in Adjacents(rows, columns, (r, c)) ==> InBounds(rows, columns, q)
      ensures res.Success? ==> res.value == CountMined(board, Adjacents(rows, columns, (r, c)))
      ensures res.Failure? ==> res.error == OutOfBounds
      ensures InBounds(rows, columns, (r, c)) ==> res == Success(board[r][c].adjacentMines)
    {
      var adj := Adjacents(rows, columns, (r, c));
      if InBounds(rows, columns, (r, c)) {
        AdjacentsExact(rows, columns, (r, c));
      }
      var found := 0;
      var k := 0;
      while k < |adj|
        invariant 0 <= k <= |adj|
        invariant forall i :: 0 <= i < k ==> InBounds(rows, columns, adj[i])
        invariant found == CountMined(board, adj[..k])
      {
        var cell := Get(adj[k].0, adj[k].1);
        if cell.Failure? {
          return Failure(cell.error);
        }
        if cell.value.hasMine {
          found := found + 1;
        }
        CountMinedSnoc(board, adj[..k], adj[k]);
        assert adj[..k + 1] == adj[..k] + [adj[k]];
        k := k + 1;
      }
      assert adj[..k] == adj;
      res := Success(found);
    }

    /** One accepted draw of `_place_mines`: mine the cell and raise the
        count of each of its neighbours. */
    method PlantMine(d: Coord)
      requires Shaped(board, rows, columns) && CountsCorrect(rows, columns, board)
      requires InBounds(rows, columns, d) && !board[d.0][d.1].hasMine
      modifies this`board
      ensures Shaped(board, rows, columns) && CountsCorrect(rows, columns, board)
      ensures MinedSet(board) == old(MinedSet(board)) + {d}
      ensures SameMarks(rows, columns, old(board), board)
    {
      ghost var b0: Board := board;
      var b := Put(board, d, board[d.0][d.1].(hasMine := true));
      var adj := Adjacents(rows, columns, d);
      AdjacentsExact(rows, columns, d);
      AdjacentsDistinct(rows, columns, d);
      var k := 0;
      while k < |adj|
        invariant 0 <= k <= |adj|
        invariant Shaped(b, rows, columns)
        invariant forall x: int, y: int :: 0 <= x < rows && 0 <= y < columns ==> b[x][y] == Planted(b0, d, adj[..k], x, y)
      {
        var e := adj[k];
        assert e in adj;
        ghost var bk := b;
        b := Put(b, e, b[e.0][e.1].(adjacentMines := b[e.0][e.1].adjacentMines + 1));
        RaiseStep(rows, columns, b0, bk, b, d, adj, k);
        k := k + 1;
      }
      assert adj[..k] == adj;
      board := b;
      MinePlanted(rows, columns, b0, board, d);
    }

    /** One pass of the `_place_mines` loop: the draw `d` is accepted, and
        mined, unless it already holds a mine or is the protected cell. */
    method TryPlace(d: Coord, protected: Coord) returns (accepted: bool)
      requires Shaped(board, rows, columns) && CountsCorrect(rows, columns, board)
      requires InBounds(rows, columns, d)
      modifies this`board
      ensures accepted <==> d !in old(MinedSet(board)) && d != protected
      ensures Shaped(board, rows, columns) && CountsCorrect(rows, columns, board)
      ensures MinedSet(board) == old(MinedSet(board)) + (if d != protected then {d} else {})
      ensures SameMarks(rows, columns, old(board), board)
    {
      accepted := !board[d.0][d.1].hasMine && d != protected;
      if accepted {
        PlantMine(d);
      } else if d != protected {
        assert d in MinedSet(board);
      }
    }

    /** `_place_mines(protected)` on a fresh board, taking the positions
        that `randrange` would return from `draws`. */
    method PlaceMines(protected: Coord, draws: seq<Coord>) returns (ghost used: nat)
      requires WellFormed(rows, columns, mines, false, board)
      requires EnoughDraws(rows, columns, draws, protected, mines)
      modifies this`board
      ensures WellFormed(rows, columns, mines, true, board)
      ensures protected !in MinedSet(board)
      ensures MinedSet(board) <= Drawn(draws, |draws|)
      ensures used <= |draws| && MinedSet(board) == Drawn(draws, used) - {protected}
      ensures used > 0 ==> |Drawn(draws, used - 1) - {protected}| < Max0(mines)
      ensures SameMarks(rows, columns, old(board), board)
    {
      var placed := 0;
      var i := 0;
      ghost var j := 0;
      assert MinedSet(board) == Drawn(draws, 0) - {protected};
      while placed < mines
        invariant 0 <= i <= |draws|
        invariant Shaped(board, rows, columns) && CountsCorrect(rows, columns, board)
        invariant MinedSet(board) == Drawn(draws, i) - {protected}
        invariant placed == |MinedSet(board)| <= Max0(mines)
        invariant SameMarks(rows, columns, old(board), board)
        invariant i > 0 ==> j + 1 == i && |Drawn(draws, j) - {protected}| < Max0(mines)
        decreases |draws| - i
      {
        DrawsRemain(draws, i, protected, mines, MinedSet(board));
        var d := draws[i];
        ghost var m0 := MinedSet(board);
        ghost var b0: Board := board;
        var accepted := TryPlace(d, protected);
        PlaceStep(draws, i, protected, mines, placed, m0, MinedSet(board), accepted);
        SameMarksTrans(rows, columns, old(board), b0, board);
        if accepted {
          placed := placed + 1;
        }
        j := i;
        i := i + 1;
      }
      DrawnGrows(draws, i, |draws|);
      used := i;
      if used > 0 {
        assert used - 1 == j;
      }
    }

    /** `reveal(r, c)`: bounds check, mine placement on the first call,
        then the reveal proper. */
    method Reveal(r: int, c: int, draws: seq<Coord>) returns (status: Outcome<Error>)
      requires Valid()
      requires !generated && InBounds(rows, columns, (r, c)) ==> EnoughDraws(rows, columns, draws, (r, c), mines)
      modifies this
      decreases |UnrevealedSet(board)|, if generated then 3 else 4
      ensures Valid()
      ensures status == TestBounds(r, c)
      ensures status.Fail? ==> unchanged(this)
      ensures status.Pass? ==> generated && flagsPlaced == old(flagsPlaced) && minesFlagged == old(minesFlagged)
      ensures status.Pass? ==>
        RevealEffect(rows, columns, old(generated), old(board), board, (r, c), old(result), result, WinCondition(), draws)
      ensures WinCondition() == old(WinCondition())
      ensures old(GameOver()) ==> GameOver()
    {
      status := TestBounds(r, c);
      if status.Fail? {
        return;
      }
      if !generated {
        ghost var b0: Board := board;
        ghost var res0 := result;
        ghost var used := PlaceMines((r, c), draws);
        generated := true;
        UnrevealedShrinks(b0, board, rows, columns);
        ghost var b1: Board := board;
        var again := Reveal(r, c, draws);
        FirstRevealEffect(rows, columns, b0, b1, board, (r, c), res0, result, WinCondition(), draws);
        RevealKeepsOver(rows, columns, false, b0, board, (r, c), res0, result, WinCondition(), draws);
        return;
      }
      RevealCell(r, c);
      RevealKeepsOver(rows, columns, true, old(board), board, (r, c), old(result), result, WinCondition(), draws);
    }

    /** `reveal` from line 271 on, once mines are placed. */
    method RevealCell(r: int, c: int)
      requires Valid() && generated && InBounds(rows, columns, (r, c))
      modifies this
      decreases |UnrevealedSet(board)|, 2
      ensures Valid() && generated
      ensures flagsPlaced == old(flagsPlaced) && minesFlagged == old(minesFlagged)
      ensures RevealOutcome(rows, columns, old(board), board, (r, c), old(result), result, WinCondition())
    {
      if board[r][c].flagged || board[r][c].revealed {
        return;
      }
      ghost var b: Board := board;
      board := Put(board, (r, c), board[r][c].(revealed := true));
      LayoutKeepsWellFormed(rows, columns, mines, generated, b, board);
      UnrevealedDrops(b, board, rows, columns, (r, c));
      ghost var b0: Board := board;
      if board[r][c].hasMine {
        RevealAllMines();
        MineHitExposed(rows, columns, b, b0, board, (r, c));
        result := Lost;
        return;
      }
      if board[r][c].adjacentMines == 0 {
        Cascade(r, c);
      }
      GrowsFromTarget(rows, columns, b, b0, board, (r, c));
      if flagsPlaced == mines && minesFlagged == mines {
        result := Won;
      }
    }

    /** The loss pass of `reveal`: unflag and reveal every mined cell, in
        row-major order. */
    method RevealAllMines()
      requires Valid() && generated
      modifies this
      decreases |UnrevealedSet(board)| + 1, 1
      ensures Valid() && generated
      ensures flagsPlaced == old(flagsPlaced) && minesFlagged == old(minesFlagged)
      ensures Exposed(rows, columns, old(board), board)
    {
      ghost var b0: Board := board;
      var i := 0;
      while i < rows
        invariant 0 <= i <= rows
        invariant Valid() && generated
        invariant flagsPlaced == old(flagsPlaced) && minesFlagged == old(minesFlagged)
        invariant PartlyExposed(rows, columns, b0, board, i, 0)
      {
        var j := 0;
        while j < columns
          invariant 0 <= j <= columns
          invariant Valid() && generated
          invariant flagsPlaced == old(flagsPlaced) && minesFlagged == old(minesFlagged)
          invariant PartlyExposed(rows, columns, b0, board, i, j)
        {
          ghost var bk: Board := board;
          if board[i][j].hasMine {
            UnrevealedShrinks(b0, board, rows, columns);
            ExposeMine(i, j);
            ExposeStep(rows, columns, b0, bk, Put(bk, (i, j), bk[i][j].(flagged := false)), board, i, j);
          } else {
            SkipStep(rows, columns, b0, board, i, j);
          }
          j := j + 1;
        }
        RowStep(rows, columns, b0, board, i);
        i := i + 1;
      }
      AllExposed(rows, columns, b0, board);
    }

    /** One mined cell in the loss pass: unflag it, then reveal it. */
    method ExposeMine(i: int, j: int)
      requires Valid() && generated && InBounds(rows, columns, (i, j)) && board[i][j].hasMine
      modifies this
      decreases |UnrevealedSet(board)| + 1, 0
      ensures Valid() && generated
      ensures flagsPlaced == old(flagsPlaced) && minesFlagged == old(minesFlagged)
      ensures var bu := Put(old(board), (i, j), old(board[i][j]).(flagged := false));
        (bu[i][j].revealed && board == bu) || Exposed(rows, columns, bu, board)
    {
      ghost var bk: Board := board;
      board := Put(board, (i, j), board[i][j].(flagged := false));
      LayoutKeepsWellFormed(rows, columns, mines, generated, bk, board);
      UnrevealedShrinks(bk, board, rows, columns);
      var s := Reveal(i, j, []);
    }

    /** The flood fill of `reveal`: reveal each neighbour of a revealed
        zero-count cell. */
    method Cascade(r: int, c: int)
      requires Valid() && generated && InBounds(rows, columns, (r, c))
      requires board[r][c].revealed && !board[r][c].hasMine && board[r][c].adjacentMines == 0
      modifies this
      decreases |UnrevealedSet(board)| + 1, 0
      ensures Valid() && generated
      ensures flagsPlaced == old(flagsPlaced) && minesFlagged == old(minesFlagged)
      ensures SameLayout(rows, columns, old(board), board) && Grows(rows, columns, old(board), board)
      ensures forall q :: q in Adjacents(rows, columns, (r, c)) ==> Open(board, q)
      ensures result == old(result) || (WinCondition() && result == Won)
    {
      var adj := Adjacents(rows, columns, (r, c));
      ZeroCountNeighboursClear(rows, columns, mines, generated, board, (r, c));
      ghost var b0: Board := board;
      var k := 0;
      while k < |adj|
        invariant 0 <= k <= |adj|
        invariant Valid() && generated
        invariant flagsPlaced == old(flagsPlaced) && minesFlagged == old(minesFlagged)
        invariant SameLayout(rows, columns, b0, board) && Grows(rows, columns, b0, board)
        invariant forall i :: 0 <= i < k ==> Open(board, adj[i])
        invariant result == old(result) || (WinCondition() && result == Won)
      {
        var q := adj[k];
        UnrevealedShrinks(b0, board, rows, columns);
        ghost var bk: Board := board;
        ghost var res: GameResult := result;
        var s := Reveal(q.0, q.1, []);
        CascadeStep(rows, columns, b0, bk, board, adj, k, res, result, WinCondition());
        k := k + 1;
      }
    }
  }

  /** A game without mines is won by its first reveal of an unflagged
      cell, since both counters already equal the mine count 0; no draw
      is needed. */
  method FirstRevealWithoutMines(g: Minesweeper, r: int, c: int)
    requires g.Valid() && !g.generated && g.mines == 0 && g.flagsPlaced == 0 && g.minesFlagged == 0
    requires InBounds(g.rows, g.columns, (r, c)) && !g.board[r][c].flagged
    modifies g
    ensures g.Valid() && g.generated && g.result == Won && g.board[r][c].revealed
    ensures MinedSet(g.board) == {}
  {
    var status := g.Reveal(r, c, []);
  }

  /** In a game with two mines and no flags, flagging the same mined cell
      twice wins, with the other mine unflagged: `flag` counts a flag on a
      cell that is already flagged again. */
  method FlagTwiceWins(g: Minesweeper, r: int, c: int)
    requires g.Valid() && g.mines == 2 && g.flagsPlaced == 0 && g.minesFlagged == 0
    requires forall x: int, y: int :: 0 <= x < g.rows && 0 <= y < g.columns ==> !g.board[x][y].flagged
    requires InBounds(g.rows, g.columns, (r, c)) && g.board[r][c].hasMine
    modifies g
    ensures g.Valid() && g.result == Won && g.WinCondition()
    ensures exists q :: q in MinedSet(g.board) && !g.board[q.0][q.1].flagged
  {
    ghost var b0: Board := g.board;
    var s1 := g.Flag(r, c);
    var s2 := g.Flag(r, c);
    MinedSetSame(b0, g.board, g.rows, g.columns);
    assert (r, c) in MinedSet(b0);
    assert g.generated && |MinedSet(b0)| == 2;
    assert |MinedSet(b0) - {(r, c)}| == 1;
    ghost var q :| q in MinedSet(b0) - {(r, c)};
  }
}
