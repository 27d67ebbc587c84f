/**
 * Positions on a board of floors (rows) and cells (columns), the 8-neighbourhood the
 * whole core is built on, and counting over grids of booleans.
 */
module Grid {

  /** A board position: `x` is the cell within the floor, `y` the floor (row) index. */
  datatype Pos = Pos(x: int, y: int)

  predicate InBounds(p: Pos, rows: int, cols: int)
  {
    0 <= p.y < rows && 0 <= p.x < cols
  }

  /** `p` is one of the 8 cells around `q`. */
  predicate Adjacent(p: Pos, q: Pos)
  {
    p != q && -1 <= p.x - q.x <= 1 && -1 <= p.y - q.y <= 1
  }

  /**
   * Every cell of `order` is one of `starts` or next to a cell earlier in `order`: a
   * growth that traces back, one neighbour at a time, to the starts.
   */
  ghost predicate GrownFrom(starts: seq<Pos>, order: seq<Pos>)
  {
    forall i :: 0 <= i < |order| ==> order[i] in starts || exists j :: 0 <= j < i && Adjacent(order[i], order[j])
  }

  /** A start, or a neighbour of a cell grown already, may be grown next. */
  lemma GrownFromAppend(starts: seq<Pos>, order: seq<Pos>, p: Pos)
    requires GrownFrom(starts, order)
    requires p in starts || exists q :: q in order && Adjacent(p, q)
    ensures GrownFrom(starts, order + [p])
  {
    var order' := order + [p];
    forall i | 0 <= i < |order'| && order'[i] !in starts
      ensures exists j :: 0 <= j < i && Adjacent(order'[i], order'[j])
    {
      if i < |order| {
        var j :| 0 <= j < i && Adjacent(order[i], order[j]);
        assert order'[j] == order[j];
      } else {
        var q :| q in order && Adjacent(p, q);
        var j :| 0 <= j < |order| && order[j] == q;
        assert order'[j] == q;
      }
    }
  }

  /** More starts keep a growth grown from them. */
  lemma GrownFromMore(starts: seq<Pos>, starts': seq<Pos>, order: seq<Pos>)
    requires GrownFrom(starts, order)
    requires forall q :: q in starts ==> q in starts'
    ensures GrownFrom(starts', order)
  {
  }

  /**
   * An order grown from starts that all lie below row `r` stays below it as long as it
   * never enters row `r`: adjacency moves one row at a time.
   */
  lemma {:induction false} GrownBelowRow(starts: seq<Pos>, order: seq<Pos>, r: int, i: int)
    requires GrownFrom(starts, order)
    requires forall q :: q in starts ==> q.y > r
    requires forall k :: 0 <= k < |order| ==> order[k].y != r
    requires 0 <= i < |order|
    ensures order[i].y > r
    decreases i
  {
    if order[i] !in starts {
      var j :| 0 <= j < i && Adjacent(order[i], order[j]);
      GrownBelowRow(starts, order, r, j);
    }
  }

  /** The one-element list [p] when `c` holds, else the empty list. */
  function Cand(c: bool, p: Pos): (r: seq<Pos>)
    ensures |r| <= 1
  {
    if c then [p] else []
  }

  /**
   * The neighbour positions of (x, y) that survive the four edge tests, in the order the
   * frontier scan visits them: top-left, bottom-left, top-right, bottom-right, top,
   * left, bottom, right.
   */
  function ScanOrder(x: int, y: int, rows: int, cols: int): seq<Pos>
  {
    var hasTop, hasBottom, hasLeft, hasRight := y - 1 >= 0, y + 1 < rows, x - 1 >= 0, x + 1 < cols;
    Cand(hasTop && hasLeft, Pos(x - 1, y - 1))
    + Cand(hasBottom && hasLeft, Pos(x - 1, y + 1))
    + Cand(hasTop && hasRight, Pos(x + 1, y - 1))
    + Cand(hasBottom && hasRight, Pos(x + 1, y + 1))
    + Cand(hasTop, Pos(x, y - 1))
    + Cand(hasLeft, Pos(x - 1, y))
    + Cand(hasBottom, Pos(x, y + 1))
    + Cand(hasRight, Pos(x + 1, y))
  }

  /** The in-bounds neighbours of an in-bounds cell: exactly the adjacent in-bounds positions. */
  function Neighbours(x: int, y: int, rows: int, cols: int): (r: seq<Pos>)
    requires InBounds(Pos(x, y), rows, cols)
    ensures forall p :: p in r <==> InBounds(p, rows, cols) && Adjacent(p, Pos(x, y))
    ensures |r| <= 8
  {
    ScanOrder(x, y, rows, cols)
  }

  // ----- Counting over grids of booleans -----

  type BoolGrid = seq<seq<bool>>

  /** Every row of `g` has `cols` cells. */
  predicate Rectangular(g: BoolGrid, cols: int)
  {
    forall r :: 0 <= r < |g| ==> |g[r]| == cols
  }

  function RowCount(row: seq<bool>): nat
  {
    if row == [] then 0 else RowCount(row[..|row| - 1]) + (if row[|row| - 1] then 1 else 0)
  }

  /** Number of set cells in `g`. */
  function CountTrue(g: BoolGrid): nat
  {
    if g == [] then 0 else CountTrue(g[..|g| - 1]) + RowCount(g[|g| - 1])
  }

  lemma {:induction false} RowCountUpdate(row: seq<bool>, x: int, v: bool)
    requires 0 <= x < |row|
    ensures RowCount(row[x := v]) == RowCount(row) - (if row[x] then 1 else 0) + (if v then 1 else 0)
  {
    var n := |row|;
    if x == n - 1 {
      assert row[x := v][..n - 1] == row[..n - 1];
    } else {
      assert row[x := v][..n - 1] == row[..n - 1][x := v];
      RowCountUpdate(row[..n - 1], x, v);
    }
  }

  /** Changing one cell changes the count by exactly that cell's contribution. */
  lemma {:induction false} CountTrueUpdate(g: BoolGrid, y: int, x: int, v: bool)
    requires 0 <= y < |g| && 0 <= x < |g[y]|
    ensures CountTrue(g[y := g[y][x := v]]) == CountTrue(g) - (if g[y][x] then 1 else 0) + (if v then 1 else 0)
  {
    var n := |g|;
    var g' := g[y := g[y][x := v]];
    if y == n - 1 {
      assert g'[..n - 1] == g[..n - 1];
      RowCountUpdate(g[y], x, v);
    } else {
      assert g'[..n - 1] == g[..n - 1][y := g[y][x := v]];
      CountTrueUpdate(g[..n - 1], y, x, v);
    }
  }

  lemma {:induction false} CountTrueAppend(g: BoolGrid, row: seq<bool>)
    ensures CountTrue(g + [row]) == CountTrue(g) + RowCount(row)
  {
    assert (g + [row])[..|g|] == g;
  }

  /** Extending a prefix by one element. */
  lemma PrefixSnoc<T>(s: seq<T>, i: int)
    requires 0 <= i < |s|
    ensures s[..i + 1] == s[..i] + [s[i]]
  {
  }

  /** Counting one more floor of `g` adds that floor's count. */
  lemma CountTruePrefix(g: BoolGrid, y: int)
    requires 0 <= y < |g|
    ensures CountTrue(g[..y + 1]) == CountTrue(g[..y]) + RowCount(g[y])
  {
    assert g[..y + 1][..y] == g[..y];
  }

  /** Counting one more cell of `row` adds that cell. */
  lemma RowCountPrefix(row: seq<bool>, x: int)
    requires 0 <= x < |row|
    ensures RowCount(row[..x + 1]) == RowCount(row[..x]) + (if row[x] then 1 else 0)
  {
    assert row[..x + 1][..x] == row[..x];
  }

  // ----- Mines around a cell -----

  function MineAt(g: BoolGrid, y: int, x: int): nat
  {
    if 0 <= y < |g| && 0 <= x < |g[y]| && g[y][x] then 1 else 0
  }

  /** Set cells among (y, x-1), (y, x), (y, x+1); zero for a row that does not exist. */
  function RowMines(g: BoolGrid, y: int, x: int): nat
  {
    MineAt(g, y, x - 1) + MineAt(g, y, x) + MineAt(g, y, x + 1)
  }

  /** Set cells left and right of (y, x). */
  function SideMines(g: BoolGrid, y: int, x: int): nat
  {
    MineAt(g, y, x - 1) + MineAt(g, y, x + 1)
  }

  /** Set cells among the 8 neighbours of (y, x), out-of-range cells counting as unset. */
  function AdjacentMines(g: BoolGrid, y: int, x: int): nat
  {
    RowMines(g, y - 1, x) + SideMines(g, y, x) + RowMines(g, y + 1, x)
  }

  /** Number of positions of `ps` that are set in `g`. */
  function CountAt(g: BoolGrid, ps: seq<Pos>): nat
  {
    if ps == [] then 0 else MineAt(g, ps[0].y, ps[0].x) + CountAt(g, ps[1..])
  }

  lemma {:induction false} CountAtConcat(g: BoolGrid, a: seq<Pos>, b: seq<Pos>)
    ensures CountAt(g, a + b) == CountAt(g, a) + CountAt(g, b)
  {
    if a == [] {
      assert a + b == b;
    } else {
      assert (a + b)[1..] == a[1..] + b;
      CountAtConcat(g, a[1..], b);
    }
  }

  lemma {:induction false} CountAtBound(g: BoolGrid, ps: seq<Pos>)
    ensures CountAt(g, ps) <= |ps|
  {
    if ps != [] {
      CountAtBound(g, ps[1..]);
    }
  }

  /** A candidate that is dropped only when out of range contributes exactly its mine bit. */
  lemma CountAtCand(g: BoolGrid, cols: int, c: bool, p: Pos)
    requires Rectangular(g, cols)
    requires c || !InBounds(p, |g|, cols)
    ensures CountAt(g, Cand(c, p)) == MineAt(g, p.y, p.x)
  {
    if !c && 0 <= p.y < |g| {
      assert |g[p.y]| == cols;
    }
  }

  /** Counting distributes over an eight-way concatenation. */
  lemma CountAtConcat8(g: BoolGrid, s1: seq<Pos>, s2: seq<Pos>, s3: seq<Pos>, s4: seq<Pos>,
                                    s5: seq<Pos>, s6: seq<Pos>, s7: seq<Pos>, s8: seq<Pos>)
    ensures CountAt(g, s1 + s2 + s3 + s4 + s5 + s6 + s7 + s8)
         == CountAt(g, s1) + CountAt(g, s2) + CountAt(g, s3) + CountAt(g, s4)
          + CountAt(g, s5) + CountAt(g, s6) + CountAt(g, s7) + CountAt(g, s8)
  {
    CountAtConcat(g, s1, s2);
    CountAtConcat(g, s1 + s2, s3);
    CountAtConcat(g, s1 + s2 + s3, s4);
    CountAtConcat(g, s1 + s2 + s3 + s4, s5);
    CountAtConcat(g, s1 + s2 + s3 + s4 + s5, s6);
    CountAtConcat(g, s1 + s2 + s3 + s4 + s5 + s6, s7);
    CountAtConcat(g, s1 + s2 + s3 + s4 + s5 + s6 + s7, s8);
  }

  lemma ScanCount(g: BoolGrid, y: int, x: int, cols: int)
    requires Rectangular(g, cols) && InBounds(Pos(x, y), |g|, cols)
    ensures AdjacentMines(g, y, x) == CountAt(g, ScanOrder(x, y, |g|, cols))
  {
    var rows := |g|;
    var hasTop, hasBottom, hasLeft, hasRight := y - 1 >= 0, y + 1 < rows, x - 1 >= 0, x + 1 < cols;
    var p1, p2, p3, p4 := Pos(x - 1, y - 1), Pos(x - 1, y + 1), Pos(x + 1, y - 1), Pos(x + 1, y + 1);
    var p5, p6, p7, p8 := Pos(x, y - 1), Pos(x - 1, y), Pos(x, y + 1), Pos(x + 1, y);
    var s1, s2, s3, s4 := Cand(hasTop && hasLeft, p1), Cand(hasBottom && hasLeft, p2), Cand(hasTop && hasRight, p3), Cand(hasBottom && hasRight, p4);
    var s5, s6, s7, s8 := Cand(hasTop, p5), Cand(hasLeft, p6), Cand(hasBottom, p7), Cand(hasRight, p8);
    var scan := s1 + s2 + s3 + s4 + s5 + s6 + s7 + s8;
    assert ScanOrder(x, y, rows, cols) == scan;
    CountAtConcat8(g, s1, s2, s3, s4, s5, s6, s7, s8);
    CountAtCand(g, cols, hasTop && hasLeft, p1);
    CountAtCand(g, cols, hasBottom && hasLeft, p2);
    CountAtCand(g, cols, hasTop && hasRight, p3);
    CountAtCand(g, cols, hasBottom && hasRight, p4);
    CountAtCand(g, cols, hasTop, p5);
    CountAtCand(g, cols, hasLeft, p6);
    CountAtCand(g, cols, hasBottom, p7);
    CountAtCand(g, cols, hasRight, p8);
    assert AdjacentMines(g, y, x) == MineAt(g, p1.y, p1.x) + MineAt(g, p2.y, p2.x) + MineAt(g, p3.y, p3.x)
      + MineAt(g, p4.y, p4.x) + MineAt(g, p5.y, p5.x) + MineAt(g, p6.y, p6.x) + MineAt(g, p7.y, p7.x)
      + MineAt(g, p8.y, p8.x);
    assert CountAt(g, scan) == AdjacentMines(g, y, x);
  }

  /**
   * The row-by-row neighbour count is the number of mines at the positions the
   * neighbourhood scan lists: out-of-range neighbours are exactly the ones dropped.
   */
  lemma NeighbourCountMatchesScan(g: BoolGrid, y: int, x: int, cols: int)
    requires Rectangular(g, cols) && InBounds(Pos(x, y), |g|, cols)
    ensures AdjacentMines(g, y, x) == CountAt(g, Neighbours(x, y, |g|, cols))
  {
    ScanCount(g, y, x, cols);
  }
}
