/**
  The geometry shared by the board and the solver: cells, coordinates,
  the clamped 8-neighbourhood and counting mines over a list of positions.
*/
module Grid {

  /** One board position: whether it holds a mine, has been revealed or
      flagged, and how many of its neighbours hold mines. */
  datatype Cell = Cell(hasMine: bool, revealed: bool, flagged: bool, adjacentMines: int)

  /** A cell as it is created: no mine, hidden, unflagged, count 0. */
  const FreshCell: Cell := Cell(false, false, false, 0)

  /** A (row, column) pair. */
  type Coord = (int, int)

  /** The grid of cells, indexed board[row][column]. */
  type Board = seq<seq<Cell>>

  predicate InBounds(rows: int, columns: int, p: Coord) {
    0 <= p.0 < rows && 0 <= p.1 < columns
  }

  /** Two different positions whose rows and columns each differ by at most one. */
  predicate Touching(p: Coord, q: Coord) {
    p != q && -1 <= p.0 - q.0 <= 1 && -1 <= p.1 - q.1 <= 1
  }

  predicate Distinct<T(==)>(s: seq<T>) {
    forall i, j :: 0 <= i < j < |s| ==> s[i] != s[j]
  }

  // ---------------------------------------------------------------------
  // The neighbourhood comprehension
  // ---------------------------------------------------------------------

  /** The index set the source builds around v on an axis of length n:
      v - 1 unless v is the first index, v, and v + 1 unless v is the last.
      At an edge the clamped value coincides with v and the set collapses. */
  function SpanSet(v: int, n: int): set<int> {
    {if v > 0 then v - 1 else v, v, if v < n - 1 then v + 1 else v}
  }

  /** The members of SpanSet(v, n), each once, in ascending order. */
  function Span(v: int, n: int): (s: seq<int>)
    ensures Distinct(s)
    ensures forall i :: i in s <==> i in SpanSet(v, n)
  {
    (if v > 0 then [v - 1] else []) + [v] + (if v < n - 1 then [v + 1] else [])
  }

  /** The pairs (x, y) for y in ys, leaving out the centre. */
  function RowPairs(x: int, ys: seq<int>, center: Coord): seq<Coord> {
    if ys == [] then []
    else (if (x, ys[0]) != center then [(x, ys[0])] else []) + RowPairs(x, ys[1..], center)
  }

  /** The pairs (x, y) for x in xs, y in ys, leaving out the centre: the
      nested comprehension of `_adjacents` and `neighborhood`. */
  function GridPairs(xs: seq<int>, ys: seq<int>, center: Coord): seq<Coord> {
    if xs == [] then [] else RowPairs(xs[0], ys, center) + GridPairs(xs[1..], ys, center)
  }

  /** The neighbourhood of p on a rows x columns board. */
  function Adjacents(rows: int, columns: int, p: Coord): seq<Coord> {
    GridPairs(Span(p.0, rows), Span(p.1, columns), p)
  }

  lemma {:induction false} RowPairsMembers(x: int, ys: seq<int>, center: Coord)
    ensures forall q :: q in RowPairs(x, ys, center) <==> q.0 == x && q.1 in ys && q != center
  {
    if ys != [] {
      RowPairsMembers(x, ys[1..], center);
    }
  }

  lemma {:induction false} GridPairsMembers(xs: seq<int>, ys: seq<int>, center: Coord)
    ensures forall q :: q in GridPairs(xs, ys, center) <==> q.0 in xs && q.1 in ys && q != center
  {
    if xs != [] {
      RowPairsMembers(xs[0], ys, center);
      GridPairsMembers(xs[1..], ys, center);
    }
  }

  lemma DistinctConcat<T>(a: seq<T>, b: seq<T>)
    requires Distinct(a) && Distinct(b)
    requires forall t :: t in a ==> t !in b
    ensures Distinct(a + b)
  {
    forall i, j | 0 <= i < j < |a + b| ensures (a + b)[i] != (a + b)[j] {
      if j < |a| {
      } else if i >= |a| {
        assert (a + b)[i] == b[i - |a|] && (a + b)[j] == b[j - |a|];
      } else {
        assert (a + b)[i] in a && (a + b)[j] in b;
      }
    }
  }

  lemma {:induction false} RowPairsDistinct(x: int, ys: seq<int>, center: Coord)
    requires Distinct(ys)
    ensures Distinct(RowPairs(x, ys, center))
  {
    if ys != [] {
      assert Distinct(ys[1..]) by {
        forall i, j | 0 <= i < j < |ys[1..]| ensures ys[1..][i] != ys[1..][j] {
          assert ys[1..][i] == ys[i + 1] && ys[1..][j] == ys[j + 1];
        }
      }
      RowPairsDistinct(x, ys[1..], center);
      RowPairsMembers(x, ys[1..], center);
      assert ys[0] !in ys[1..] by {
        forall k | 0 <= k < |ys[1..]| ensures ys[1..][k] != ys[0] {
          assert ys[1..][k] == ys[k + 1];
        }
      }
      var head := if (x, ys[0]) != center then [(x, ys[0])] else [];
      DistinctConcat(head, RowPairs(x, ys[1..], center));
    }
  }

  lemma {:induction false} GridPairsDistinct(xs: seq<int>, ys: seq<int>, center: Coord)
    requires Distinct(xs) && Distinct(ys)
    ensures Distinct(GridPairs(xs, ys, center))
  {
    if xs != [] {
      assert Distinct(xs[1..]) by {
        forall i, j | 0 <= i < j < |xs[1..]| ensures xs[1..][i] != xs[1..][j] {
          assert xs[1..][i] == xs[i + 1] && xs[1..][j] == xs[j + 1];
        }
      }
      assert xs[0] !in xs[1..] by {
        forall k | 0 <= k < |xs[1..]| ensures xs[1..][k] != xs[0] {
          assert xs[1..][k] == xs[k + 1];
        }
      }
      RowPairsDistinct(xs[0], ys, center);
      GridPairsDistinct(xs[1..], ys, center);
      RowPairsMembers(xs[0], ys, center);
      GridPairsMembers(xs[1..], ys, center);
      DistinctConcat(RowPairs(xs[0], ys, center), GridPairs(xs[1..], ys, center));
    }
  }

  /** The neighbourhood of an in-bounds position is exactly the in-bounds
      positions touching it: the centre is left out and nothing outside the
      board gets in. */
  lemma AdjacentsExact(rows: int, columns: int, p: Coord)
    requires InBounds(rows, columns, p)
    ensures forall q :: q in Adjacents(rows, columns, p) <==> InBounds(rows, columns, q) && Touching(q, p)
  {
    GridPairsMembers(Span(p.0, rows), Span(p.1, columns), p);
  }

  /** No position is listed twice, even where the clamped edge value
      coincides with the centre's own index. */
  lemma AdjacentsDistinct(rows: int, columns: int, p: Coord)
    ensures Distinct(Adjacents(rows, columns, p))
  {
    GridPairsDistinct(Span(p.0, rows), Span(p.1, columns), p);
  }

  /** Neighbourhood is a symmetric relation between in-bounds positions. */
  lemma AdjacentsSymmetric(rows: int, columns: int, p: Coord, q: Coord)
    requires InBounds(rows, columns, p) && InBounds(rows, columns, q)
    ensures q in Adjacents(rows, columns, p) <==> p in Adjacents(rows, columns, q)
  {
    AdjacentsExact(rows, columns, p);
    AdjacentsExact(rows, columns, q);
  }

  // ---------------------------------------------------------------------
  // Boards
  // ---------------------------------------------------------------------

  ghost predicate Shaped<T>(b: seq<seq<T>>, rows: int, columns: int) {
    |b| == rows && forall x :: 0 <= x < |b| ==> |b[x]| == columns
  }

  /** Two grids of one shape that agree cell by cell are equal. */
  lemma GridsEqual<T>(a: seq<seq<T>>, b: seq<seq<T>>, rows: int, columns: int)
    requires Shaped(a, rows, columns) && Shaped(b, rows, columns)
    requires forall x: int, y: int :: 0 <= x < rows && 0 <= y < columns ==> a[x][y] == b[x][y]
    ensures a == b
  {
    forall x | 0 <= x < rows ensures a[x] == b[x] {
      assert forall y :: 0 <= y < columns ==> a[x][y] == b[x][y];
    }
  }

  /** A grid of `rows` rows of `columns` entries, each x. */
  function Filled<T>(rows: nat, columns: nat, x: T): (g: seq<seq<T>>)
    ensures Shaped(g, rows, columns)
    ensures forall i: int, j: int :: 0 <= i < rows && 0 <= j < columns ==> g[i][j] == x
  {
    seq(rows, _ => seq(columns, _ => x))
  }

  /** A board of rows x columns fresh cells. */
  function FreshBoard(rows: nat, columns: nat): (b: Board)
    ensures Shaped(b, rows, columns)
    ensures forall x: int, y: int :: 0 <= x < rows && 0 <= y < columns ==> b[x][y] == FreshCell
  {
    Filled(rows, columns, FreshCell)
  }

  /** The board with the cell at p replaced and every other cell kept. */
  function Put(b: Board, p: Coord, cell: Cell): (b': Board)
    requires 0 <= p.0 < |b| && 0 <= p.1 < |b[p.0]|
    ensures |b'| == |b| && forall x :: 0 <= x < |b| ==> |b'[x]| == |b[x]|
    ensures forall x: int, y: int :: 0 <= x < |b| && 0 <= y < |b[x]| ==> b'[x][y] == if (x, y) == p then cell else b[x][y]
  {
    b[p.0 := b[p.0][p.1 := cell]]
  }

  predicate MineAt(b: Board, p: Coord) {
    0 <= p.0 < |b| && 0 <= p.1 < |b[p.0]| && b[p.0][p.1].hasMine
  }

  /** How many entries of s are mined positions of b (`_count_adjacent_mines`
      over a list of positions). */
  function CountMined(b: Board, s: seq<Coord>): (n: nat)
    ensures n <= |s|
  {
    if s == [] then 0 else (if MineAt(b, s[0]) then 1 else 0) + CountMined(b, s[1..])
  }

  ghost function MinedSet(b: Board): set<Coord> {
    set x, y | 0 <= x < |b| && 0 <= y < |b[x]| && b[x][y].hasMine :: (x, y)
  }

  ghost function UnrevealedSet(b: Board): set<Coord> {
    set x, y | 0 <= x < |b| && 0 <= y < |b[x]| && !b[x][y].revealed :: (x, y)
  }

  /** A count is zero exactly when no listed position holds a mine. */
  lemma {:induction false} CountMinedZero(b: Board, s: seq<Coord>)
    ensures CountMined(b, s) == 0 <==> forall q :: q in s ==> !MineAt(b, q)
  {
    if s != [] {
      CountMinedZero(b, s[1..]);
      assert forall q :: q in s <==> q == s[0] || q in s[1..];
    }
  }

  /** A count only depends on the mines at the listed positions. */
  lemma {:induction false} CountMinedSame(b0: Board, b1: Board, s: seq<Coord>)
    requires forall q :: q in s ==> MineAt(b0, q) == MineAt(b1, q)
    ensures CountMined(b0, s) == CountMined(b1, s)
  {
    if s != [] {
      assert s[0] in s;
      assert forall q :: q in s[1..] ==> q in s;
      CountMinedSame(b0, b1, s[1..]);
    }
  }

  /** Adding one mine raises the count of a duplicate-free list by one if
      the list holds that position, and leaves it alone otherwise. */
  lemma {:induction false} CountMinedAddMine(b0: Board, b1: Board, s: seq<Coord>, m: Coord)
    requires Distinct(s)
    requires !MineAt(b0, m) && MineAt(b1, m)
    requires forall q :: q in s && q != m ==> MineAt(b0, q) == MineAt(b1, q)
    ensures CountMined(b1, s) == CountMined(b0, s) + (if m in s then 1 else 0)
  {
    if s != [] {
      assert Distinct(s[1..]) by {
        forall i, j | 0 <= i < j < |s[1..]| ensures s[1..][i] != s[1..][j] {
          assert s[1..][i] == s[i + 1] && s[1..][j] == s[j + 1];
        }
      }
      assert forall q :: q in s[1..] ==> q in s;
      CountMinedAddMine(b0, b1, s[1..], m);
      if s[0] == m {
        assert m !in s[1..] by {
          forall k | 0 <= k < |s[1..]| ensures s[1..][k] != m {
            assert s[1..][k] == s[k + 1];
          }
        }
      } else {
        assert s[0] in s;
        assert m in s <==> m in s[1..];
      }
    }
  }

  lemma {:induction false} CountMinedSnoc(b: Board, s: seq<Coord>, q: Coord)
    ensures CountMined(b, s + [q]) == CountMined(b, s) + (if MineAt(b, q) then 1 else 0)
  {
    if s == [] {
      assert s + [q] == [q];
    } else {
      assert (s + [q])[1..] == s[1..] + [q];
      CountMinedSnoc(b, s[1..], q);
    }
  }

  /** Two boards of one shape that agree on every mine have the same mined set. */
  lemma MinedSetSame(b0: Board, b1: Board, rows: int, columns: int)
    requires Shaped(b0, rows, columns) && Shaped(b1, rows, columns)
    requires forall x: int, y: int :: 0 <= x < rows && 0 <= y < columns ==> b0[x][y].hasMine == b1[x][y].hasMine
    ensures MinedSet(b0) == MinedSet(b1)
  {
    forall p | p in MinedSet(b0) ensures p in MinedSet(b1) {
      var x: int, y: int :| 0 <= x < |b0| && 0 <= y < |b0[x]| && b0[x][y].hasMine && p == (x, y);
    }
    forall p | p in MinedSet(b1) ensures p in MinedSet(b0) {
      var x: int, y: int :| 0 <= x < |b1| && 0 <= y < |b1[x]| && b1[x][y].hasMine && p == (x, y);
    }
  }

  /** Revealing cells can only shrink the set of hidden cells. */
  lemma UnrevealedShrinks(b0: Board, b1: Board, rows: int, columns: int)
    requires Shaped(b0, rows, columns) && Shaped(b1, rows, columns)
    requires forall x: int, y: int :: 0 <= x < rows && 0 <= y < columns && b0[x][y].revealed ==> b1[x][y].revealed
    ensures UnrevealedSet(b1) <= UnrevealedSet(b0)
    ensures |UnrevealedSet(b1)| <= |UnrevealedSet(b0)|
  {
    forall p | p in UnrevealedSet(b1) ensures p in UnrevealedSet(b0) {
      var x: int, y: int :| 0 <= x < |b1| && 0 <= y < |b1[x]| && !b1[x][y].revealed && p == (x, y);
    }
    SubsetCard(UnrevealedSet(b1), UnrevealedSet(b0));
  }

  /** Revealing one more hidden cell makes the hidden set strictly smaller. */
  lemma UnrevealedDrops(b0: Board, b1: Board, rows: int, columns: int, p: Coord)
    requires Shaped(b0, rows, columns) && Shaped(b1, rows, columns)
    requires forall x: int, y: int :: 0 <= x < rows && 0 <= y < columns && b0[x][y].revealed ==> b1[x][y].revealed
    requires InBounds(rows, columns, p) && !b0[p.0][p.1].revealed && b1[p.0][p.1].revealed
    ensures |UnrevealedSet(b1)| < |UnrevealedSet(b0)|
  {
    UnrevealedShrinks(b0, b1, rows, columns);
    assert p in UnrevealedSet(b0) && p !in UnrevealedSet(b1);
    SubsetCard(UnrevealedSet(b1), UnrevealedSet(b0) - {p});
  }

  /** A sequence has at least as many entries as distinct values, and
      exactly as many when its entries are distinct. */
  lemma {:induction false} CardOfSeq<T>(s: seq<T>)
    ensures |set x | x in s| <= |s|
    ensures Distinct(s) ==> |set x | x in s| == |s|
  {
    if s != [] {
      CardOfSeq(s[1..]);
      assert (set x | x in s) == (set x | x in s[1..]) + {s[0]};
      if Distinct(s) {
        assert Distinct(s[1..]) by {
          forall i, j | 0 <= i < j < |s[1..]| ensures s[1..][i] != s[1..][j] {
            assert s[1..][i] == s[i + 1] && s[1..][j] == s[j + 1];
          }
        }
        assert s[0] !in s[1..] by {
          forall k | 0 <= k < |s[1..]| ensures s[1..][k] != s[0] {
            assert s[1..][k] == s[k + 1];
          }
        }
      }
    }
  }

  lemma SubsetCard<T>(a: set<T>, b: set<T>)
    requires a <= b
    ensures |a| <= |b|
  {
    assert b == a + (b - a);
  }
}
