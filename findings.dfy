/**
  Two places where minesweeper.py and solver.py do not do what they
  evidently mean to. Each comes as the code as written, an input that
  shows the discrepancy, and the intended behaviour with its property.
*/
module Findings {
  import opened Results
  import opened Grid
  import opened Game

  // ---------------------------------------------------------------------
  // Transposed grids
  // ---------------------------------------------------------------------

  /** The nested lists `__init__` of both classes builds: `columns` outer
      lists of `rows` entries each, then indexed as `grid[r][c]`. */
  function TransposedGrid<T>(rows: nat, columns: nat, x: T): (g: seq<seq<T>>)
    ensures Shaped(g, columns, rows)
  {
    seq(columns, _ => seq(rows, _ => x))
  }

  /** `grid[r][c]` on nested lists, for non-negative r and c (the bounds
      check of `__getitem__` rules out negative ones): None where Python
      raises IndexError. */
  function Lookup<T>(g: seq<seq<T>>, p: Coord): (r: Option<T>)
    requires p.0 >= 0 && p.1 >= 0
    ensures r.Some? ==> 0 <= p.0 < |g| && 0 <= p.1 < |g[p.0]| && r.value == g[p.0][p.1]
    ensures r.None? ==> p.0 >= |g| || p.1 >= |g[p.0]|
  {
    if p.0 < |g| && p.1 < |g[p.0]| then Some(g[p.0][p.1]) else None
  }

  /** As written, on every board that is not square some position that
      passes the bounds check is missing from the grid, so `__getitem__`
      raises IndexError on it. */
  lemma TransposedGridFails<T>(rows: int, columns: int, x: T)
    requires rows > 0 && columns > 0 && rows != columns
    ensures exists p: Coord :: InBounds(rows, columns, p) && Lookup(TransposedGrid(rows, columns, x), p).None?
  {
    var g := TransposedGrid(rows, columns, x);
    if rows < columns {
      var p := (0, columns - 1);
      assert InBounds(rows, columns, p) && Lookup(g, p).None?;
    } else {
      var p := (rows - 1, 0);
      assert InBounds(rows, columns, p) && Lookup(g, p).None?;
    }
  }

  /** The smallest instance: a 1 x 2 board, whose cell (0, 1) the game
      cannot look up. */
  lemma OneByTwo()
    ensures InBounds(1, 2, (0, 1)) && Lookup(TransposedGrid(1, 2, FreshCell), (0, 1)) == None
  {
    var g := TransposedGrid(1, 2, FreshCell);
    assert |g[0]| == 1;
  }

  /** On square boards the two layouts coincide. */
  lemma SquareGridsAgree<T>(n: nat, x: T)
    ensures TransposedGrid(n, n, x) == Filled(n, n, x)
  {
  }

  /** Corrected: every position that passes the bounds check is in the
      grid, for the board and for the solver's estimates alike. */
  lemma UniformGridLookup<T>(rows: nat, columns: nat, x: T, p: Coord)
    requires InBounds(rows, columns, p)
    ensures Lookup(Filled(rows, columns, x), p) == Some(x)
  {
  }

  // ---------------------------------------------------------------------
  // The mine counter of `unflag`
  // ---------------------------------------------------------------------

  /** As written: flagging and then unflagging a cell never leaves the
      mined-flag counter where it was; it ends one higher on a mined cell
      and one lower on a clear one. */
  method FlagThenUnflag(g: Minesweeper, r: int, c: int)
    requires g.Valid() && InBounds(g.rows, g.columns, (r, c))
    modifies g
    ensures g.Valid()
    ensures g.flagsPlaced == old(g.flagsPlaced)
    ensures g.minesFlagged == old(g.minesFlagged) + (if old(g.board[r][c]).hasMine then 1 else -1)
    ensures g.minesFlagged != old(g.minesFlagged)
  {
    var s1 := g.Flag(r, c);
    var s2 := g.Unflag(r, c);
  }

  /** Corrected `unflag`: the bounds check and bookkeeping of the code as
      written, except that it takes one off `mines_flagged` when the cell
      has a mine, which is what `flag` counted. */
  method CorrectedUnflag(g: Minesweeper, r: int, c: int) returns (status: Outcome<Error>)
    requires g.Valid()
    modifies g
    ensures g.Valid()
    ensures status == g.TestBounds(r, c)
    ensures status.Fail? ==> unchanged(g)
    ensures status.Pass? ==>
      && g.board == Put(old(g.board), (r, c), old(g.board[r][c]).(flagged := false))
      && g.flagsPlaced == old(g.flagsPlaced) - 1
      && g.minesFlagged == old(g.minesFlagged) - (if old(g.board[r][c]).hasMine then 1 else 0)
      && g.result == old(g.result) && g.generated == old(g.generated)
  {
    status := g.TestBounds(r, c);
    if status.Fail? {
      return;
    }
    ghost var b0: Board := g.board;
    g.board := Put(g.board, (r, c), g.board[r][c].(flagged := false));
    LayoutKeepsWellFormed(g.rows, g.columns, g.mines, g.generated, b0, g.board);
    g.flagsPlaced := g.flagsPlaced - 1;
    if g.board[r][c].hasMine {
      g.minesFlagged := g.minesFlagged - 1;
    }
  }

  /** With the correction, flagging a cell that is not flagged and then
      unflagging it gives back the board and both counters. */
  method FlagThenCorrectedUnflag(g: Minesweeper, r: int, c: int)
    requires g.Valid() && InBounds(g.rows, g.columns, (r, c)) && !g.board[r][c].flagged
    modifies g
    ensures g.Valid()
    ensures g.board == old(g.board)
    ensures g.flagsPlaced == old(g.flagsPlaced) && g.minesFlagged == old(g.minesFlagged)
    ensures g.generated == old(g.generated)
  {
    ghost var b0: Board := g.board;
    var s1 := g.Flag(r, c);
    var s2 := CorrectedUnflag(g, r, c);
    GridsEqual(g.board, b0, g.rows, g.columns);
  }
}
