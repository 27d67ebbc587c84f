/**
 * The mine map the generator works on before any tile exists: one row of integers per
 * floor, CellPerFloor cells wide, where -1 marks a mine, -2 a cell that starts revealed
 * and 0 any other cell. Two stages are modelled: mine placement inside a band of rows
 * under a neighbour-density cap, and the worklist flood that carves the safe zone at the
 * bottom of a fresh board.
 */
module MineMaps {
  import opened Grid
  import opened Constants

  const MineCell: int := -1
  const OpenCell: int := -2

  type MineMap = seq<seq<int>>

  /** Every floor has CellPerFloor cells. */
  predicate WellFormed(m: MineMap)
  {
    forall y :: 0 <= y < |m| ==> |m[y]| == CellPerFloor
  }

  predicate InMap(m: MineMap, p: Pos)
  {
    InBounds(p, |m|, CellPerFloor)
  }

  /** The grid of cells whose value is (when `eq`) or is not (when `!eq`) equal to `v`. */
  function Where(m: MineMap, v: int, eq: bool): (g: BoolGrid)
    ensures |g| == |m|
    ensures forall y :: 0 <= y < |m| ==> |g[y]| == |m[y]|
    ensures forall y, x :: 0 <= y < |m| && 0 <= x < |m[y]| ==> (g[y][x] <==> ((m[y][x] == v) == eq))
  {
    seq(|m|, y requires 0 <= y < |m| => seq(|m[y]|, x requires 0 <= x < |m[y]| => (m[y][x] == v) == eq))
  }

  function Mines(m: MineMap): BoolGrid
  {
    Where(m, MineCell, true)
  }

  /** The number of -1 cells. */
  function MineCount(m: MineMap): nat
  {
    CountTrue(Mines(m))
  }

  /** Writing one cell updates the derived grid at that cell only. */
  lemma WhereUpdate(m: MineMap, v: int, eq: bool, y: int, x: int, c: int)
    requires 0 <= y < |m| && 0 <= x < |m[y]|
    ensures Where(m[y := m[y][x := c]], v, eq) == Where(m, v, eq)[y := Where(m, v, eq)[y][x := ((c == v) == eq)]]
  {
    var a, b := Where(m[y := m[y][x := c]], v, eq), Where(m, v, eq)[y := Where(m, v, eq)[y][x := ((c == v) == eq)]];
    assert |a| == |b|;
    forall r | 0 <= r < |a| ensures a[r] == b[r] {
      assert |a[r]| == |b[r]|;
    }
  }

  // ----- Mine placement inside a band (genMineMapPartition) -----

  /** A cell the random draw can produce for the band of rows [startRow, endRow). */
  predicate InBand(p: Pos, startRow: int, endRow: int)
  {
    startRow <= p.y < endRow && 0 <= p.x < CellPerFloor
  }

  /**
   * The mines the placement loop counts around (y, x) in a band ending before `endRow`:
   * the three cells of the row above whenever that row exists, the two side cells, and
   * the three cells of the row below only when y + 1 < endRow - 1.
   */
  function BandNeighbourMines(m: MineMap, y: int, x: int, endRow: int): nat
  {
    var g := Mines(m);
    var below := if y + 1 < endRow - 1 then RowMines(g, y + 1, x) else 0;
    RowMines(g, y - 1, x) + SideMines(g, y, x) + below
  }

  /** A drawn cell is accepted when it is not a mine yet and the counted mines are within the cap. */
  predicate Admissible(m: MineMap, p: Pos, endRow: int, maxNeighbs: int)
    requires InMap(m, p) && WellFormed(m)
  {
    m[p.y][p.x] != MineCell && BandNeighbourMines(m, p.y, p.x, endRow) <= maxNeighbs
  }

  function PlaceAt(m: MineMap, p: Pos): MineMap
    requires InMap(m, p) && WellFormed(m)
  {
    m[p.y := m[p.y][p.x := MineCell]]
  }

  /** The map after laying mines at the accepted cells, in order. */
  function Replay(m: MineMap, accepted: seq<Pos>, startRow: int, endRow: int): (r: MineMap)
    requires WellFormed(m) && 0 <= startRow && endRow <= |m|
    requires forall i :: 0 <= i < |accepted| ==> InBand(accepted[i], startRow, endRow)
    ensures WellFormed(r) && |r| == |m|
  {
    if accepted == [] then m
    else
      var prefix, last := accepted[..|accepted| - 1], accepted[|accepted| - 1];
      assert InBand(last, startRow, endRow);
      PlaceAt(Replay(m, prefix, startRow, endRow), last)
  }

  /** Every accepted cell was admissible in the map as it stood when it was drawn. */
  predicate AcceptedInOrder(m: MineMap, accepted: seq<Pos>, startRow: int, endRow: int, maxNeighbs: int)
    requires WellFormed(m) && 0 <= startRow && endRow <= |m|
    requires forall i :: 0 <= i < |accepted| ==> InBand(accepted[i], startRow, endRow)
  {
    accepted != [] ==>
      var prefix, last := accepted[..|accepted| - 1], accepted[|accepted| - 1];
      assert InBand(last, startRow, endRow);
      AcceptedInOrder(m, prefix, startRow, endRow, maxNeighbs)
      && Admissible(Replay(m, prefix, startRow, endRow), last, endRow, maxNeighbs)
  }

  /** What a run of the sampling leaves: the draws it accepted, in order, and the map they built. */
  datatype Sampled = Sampled(accepted: seq<Pos>, laid: MineMap)

  /**
   * The sampling over the first `n` draws of `picks`, when the quota cuts none of them off:
   * a draw is accepted, and becomes a mine, when the map built so far admits it.
   */
  function Sampling(m: MineMap, picks: seq<Pos>, n: int, startRow: int, endRow: int, maxNeighbs: int): (r: Sampled)
    requires WellFormed(m) && 0 <= startRow && endRow <= |m| && 0 <= n <= |picks|
    requires forall i :: 0 <= i < |picks| ==> InBand(picks[i], startRow, endRow)
    ensures WellFormed(r.laid) && |r.laid| == |m|
    ensures |r.accepted| <= n
  {
    if n == 0 then Sampled([], m)
    else
      var s, p := Sampling(m, picks, n - 1, startRow, endRow, maxNeighbs), picks[n - 1];
      assert InBand(p, startRow, endRow);
      if Admissible(s.laid, p, endRow, maxNeighbs) then Sampled(s.accepted + [p], PlaceAt(s.laid, p)) else s
  }

  /** Only cells of the band change, and each one only from a non-mine to a mine. */
  predicate OnlyAddsMines(m: MineMap, m': MineMap, startRow: int, endRow: int)
    requires WellFormed(m) && WellFormed(m') && |m'| == |m|
  {
    forall y, x :: 0 <= y < |m| && 0 <= x < CellPerFloor ==>
      m'[y][x] == m[y][x] || (m'[y][x] == MineCell && m[y][x] != MineCell && startRow <= y < endRow)
  }

  /** What holds of the map `cur` after laying the mines `accepted` into `m`. */
  predicate PlacedSoFar(m: MineMap, cur: MineMap, accepted: seq<Pos>, startRow: int, endRow: int, maxNeighbs: int)
    requires WellFormed(m) && 0 <= startRow && endRow <= |m|
  {
    && WellFormed(cur) && |cur| == |m|
    && (forall k :: 0 <= k < |accepted| ==> InBand(accepted[k], startRow, endRow))
    && cur == Replay(m, accepted, startRow, endRow)
    && MineCount(cur) == MineCount(m) + |accepted|
    && OnlyAddsMines(m, cur, startRow, endRow)
  }

  /** Accepting one admissible draw keeps PlacedSoFar and adds one mine. */
  lemma PlaceStep(m: MineMap, cur: MineMap, accepted: seq<Pos>, p: Pos, startRow: int, endRow: int, maxNeighbs: int)
    requires WellFormed(m) && 0 <= startRow && endRow <= |m|
    requires PlacedSoFar(m, cur, accepted, startRow, endRow, maxNeighbs)
    requires InBand(p, startRow, endRow) && Admissible(cur, p, endRow, maxNeighbs)
    ensures PlacedSoFar(m, PlaceAt(cur, p), accepted + [p], startRow, endRow, maxNeighbs)
  {
    PlaceAtCount(cur, p);
    PlaceAtOnlyAdds(m, cur, p, startRow, endRow);
    assert (accepted + [p])[..|accepted|] == accepted;
  }

  /**
   * The map a sampling run builds is the accepted draws laid in order, and each accepted
   * draw was admissible in the map as it stood when drawn.
   */
  lemma {:induction false} SamplingReplays(m: MineMap, picks: seq<Pos>, n: int, startRow: int, endRow: int, maxNeighbs: int)
    requires WellFormed(m) && 0 <= startRow && endRow <= |m| && 0 <= n <= |picks|
    requires forall i :: 0 <= i < |picks| ==> InBand(picks[i], startRow, endRow)
    ensures var r := Sampling(m, picks, n, startRow, endRow, maxNeighbs);
      forall i :: 0 <= i < |r.accepted| ==> InBand(r.accepted[i], startRow, endRow)
    ensures var r := Sampling(m, picks, n, startRow, endRow, maxNeighbs);
      PlacedSoFar(m, r.laid, r.accepted, startRow, endRow, maxNeighbs) && AcceptedInOrder(m, r.accepted, startRow, endRow, maxNeighbs)
  {
    if n > 0 {
      SamplingReplays(m, picks, n - 1, startRow, endRow, maxNeighbs);
      var prev := Sampling(m, picks, n - 1, startRow, endRow, maxNeighbs);
      var p := picks[n - 1];
      assert InBand(p, startRow, endRow);
      if Admissible(prev.laid, p, endRow, maxNeighbs) {
        PlaceStep(m, prev.laid, prev.accepted, p, startRow, endRow, maxNeighbs);
        assert (prev.accepted + [p])[..|prev.accepted|] == prev.accepted;
      }
    }
  }

  /** Looking at more draws never accepts fewer of them. */
  lemma {:induction false} SamplingGrows(m: MineMap, picks: seq<Pos>, n: int, k: int, startRow: int, endRow: int, maxNeighbs: int)
    requires WellFormed(m) && 0 <= startRow && endRow <= |m| && 0 <= n <= k <= |picks|
    requires forall i :: 0 <= i < |picks| ==> InBand(picks[i], startRow, endRow)
    ensures |Sampling(m, picks, n, startRow, endRow, maxNeighbs).accepted|
         <= |Sampling(m, picks, k, startRow, endRow, maxNeighbs).accepted|
  {
    if n < k {
      SamplingGrows(m, picks, n, k - 1, startRow, endRow, maxNeighbs);
    }
  }

  /** Laying a mine on a non-mine cell of the band keeps OnlyAddsMines. */
  lemma PlaceAtOnlyAdds(m: MineMap, cur: MineMap, p: Pos, startRow: int, endRow: int)
    requires WellFormed(m) && WellFormed(cur) && |cur| == |m| && OnlyAddsMines(m, cur, startRow, endRow)
    requires InBand(p, startRow, endRow) && InMap(cur, p) && cur[p.y][p.x] != MineCell
    ensures OnlyAddsMines(m, PlaceAt(cur, p), startRow, endRow)
  {
  }

  /** Laying a mine on a non-mine cell adds one to the mine count. */
  lemma PlaceAtCount(m: MineMap, p: Pos)
    requires WellFormed(m) && InMap(m, p) && m[p.y][p.x] != MineCell
    ensures MineCount(PlaceAt(m, p)) == MineCount(m) + 1
  {
    WhereUpdate(m, MineCell, true, p.y, p.x, MineCell);
    CountTrueUpdate(Mines(m), p.y, p.x, true);
  }

  /**
   * Draw number `i` of the sampling: skipped when the cell is a mine already or the capped
   * count of mines around it exceeds the cap, otherwise taken and turned into a mine. It
   * carries the sampling over the first `i` draws on to the first `i + 1`.
   */
  method Draw(m: MineMap, picks: seq<Pos>, i: int, cur: MineMap, ghost accepted: seq<Pos>,
               startRow: int, endRow: int, maxNeighbs: int)
    returns (cur': MineMap, took: bool, ghost accepted': seq<Pos>)
    requires WellFormed(m) && 0 <= startRow && endRow <= |m| && 0 <= i < |picks|
    requires forall k :: 0 <= k < |picks| ==> InBand(picks[k], startRow, endRow)
    requires Sampling(m, picks, i, startRow, endRow, maxNeighbs) == Sampled(accepted, cur)
    ensures took <==> Admissible(cur, picks[i], endRow, maxNeighbs)
    ensures accepted' == if took then accepted + [picks[i]] else accepted
    ensures Sampling(m, picks, i + 1, startRow, endRow, maxNeighbs) == Sampled(accepted', cur')
  {
    var p := picks[i];
    assert InBand(p, startRow, endRow);
    cur', took, accepted' := cur, false, accepted;
    if cur[p.y][p.x] == MineCell {
      return;
    }
    var mineCount := BandNeighbourMines(cur, p.y, p.x, endRow);
    if mineCount > maxNeighbs {
      return;
    }
    cur', took, accepted' := PlaceAt(cur, p), true, accepted + [p];
  }

  /** The least integer not below `q`. */
  function Ceil(q: real): int
  {
    -((-q).Floor)
  }

  /**
   * Rejection sampling of mines into rows [startRow, endRow). The source draws cells with
   * Math.random until the quota (a real number) is used up; here the draws are the list
   * `picks`, and `done` says whether the quota was met before the draws ran out. The quota
   * shrinks by one per accepted mine, so a fractional quota q > 0 lays Ceil(q) mines. The
   * draws looked at are the first `used`, and the sampling stops at the first one that
   * meets the quota: the mines laid are what Sampling accepts from those. The quota is met
   * exactly when Sampling over all the draws accepts enough of them.
   */
  method PlaceMines(m: MineMap, startRow: int, endRow: int, quota: real, maxNeighbs: int, picks: seq<Pos>)
    returns (m': MineMap, placed: nat, done: bool, ghost accepted: seq<Pos>, ghost used: nat)
    requires WellFormed(m) && 0 <= startRow < endRow <= |m|
    requires forall i :: 0 <= i < |picks| ==> InBand(picks[i], startRow, endRow)
    ensures WellFormed(m') && |m'| == |m|
    ensures done <==> quota <= placed as real
    ensures done ==> placed == if quota <= 0.0 then 0 else Ceil(quota)
    ensures 0 < placed ==> (placed - 1) as real < quota
    ensures |accepted| == placed
    ensures forall i :: 0 <= i < |accepted| ==> InBand(accepted[i], startRow, endRow)
    ensures AcceptedInOrder(m, accepted, startRow, endRow, maxNeighbs)
    ensures m' == Replay(m, accepted, startRow, endRow)
    ensures MineCount(m') == MineCount(m) + placed
    ensures OnlyAddsMines(m, m', startRow, endRow)
    ensures used <= |picks| && (!done ==> used == |picks|)
    ensures accepted == Sampling(m, picks, used, startRow, endRow, maxNeighbs).accepted
    ensures 0 < used ==> |Sampling(m, picks, used - 1, startRow, endRow, maxNeighbs).accepted| as real < quota
    ensures done <==> quota <= |Sampling(m, picks, |picks|, startRow, endRow, maxNeighbs).accepted| as real
  {
    m', placed, accepted, used := Sample(m, startRow, endRow, quota, maxNeighbs, picks);
    done := quota <= placed as real;
    SamplingReplays(m, picks, used, startRow, endRow, maxNeighbs);
    SamplingGrows(m, picks, used, |picks|, startRow, endRow, maxNeighbs);
  }

  /** The sampling loop of PlaceMines: it stops when the draws run out or the quota is met. */
  method Sample(m: MineMap, startRow: int, endRow: int, quota: real, maxNeighbs: int, picks: seq<Pos>)
    returns (m': MineMap, placed: nat, ghost accepted: seq<Pos>, ghost used: nat)
    requires WellFormed(m) && 0 <= startRow < endRow <= |m|
    requires forall i :: 0 <= i < |picks| ==> InBand(picks[i], startRow, endRow)
    ensures used <= |picks| && (used == |picks| || quota <= placed as real)
    ensures 0 < placed ==> (placed - 1) as real < quota
    ensures |accepted| == placed
    ensures accepted == Sampling(m, picks, used, startRow, endRow, maxNeighbs).accepted
    ensures m' == Sampling(m, picks, used, startRow, endRow, maxNeighbs).laid
    ensures 0 < used ==> |Sampling(m, picks, used - 1, startRow, endRow, maxNeighbs).accepted| as real < quota
  {
    m', placed, accepted := m, 0, [];
    var i := 0;
    while i < |picks| && (placed as real) < quota
      invariant 0 <= i <= |picks|
      invariant 0 < placed ==> (placed - 1) as real < quota
      invariant |accepted| == placed
      invariant Sampling(m, picks, i, startRow, endRow, maxNeighbs) == Sampled(accepted, m')
      invariant 0 < i ==> |Sampling(m, picks, i - 1, startRow, endRow, maxNeighbs).accepted| as real < quota
    {
      var took;
      m', took, accepted := Draw(m, picks, i, m', accepted, startRow, endRow, maxNeighbs);
      if took {
        placed := placed + 1;
      }
      i := i + 1;
    }
    used := i;
  }

  lemma BandCapMissesLastBandRow()
    ensures var m := [[0, 0, 0, 0, 0, 0, 0, 0, 0], [MineCell, 0, 0, 0, 0, 0, 0, 0, 0]];
      BandNeighbourMines(m, 0, 1, 2) == 0 && AdjacentMines(Mines(m), 0, 1) == 1
  {
    var m := [[0, 0, 0, 0, 0, 0, 0, 0, 0], [MineCell, 0, 0, 0, 0, 0, 0, 0, 0]];
    assert Mines(m)[1][0] && !Mines(m)[1][1] && !Mines(m)[1][2];
    assert !Mines(m)[0][0] && !Mines(m)[0][2];
  }

  /** Away from the band's last two rows the capped count is the full neighbour count. */
  lemma BandCountIsNeighbourCount(m: MineMap, y: int, x: int, endRow: int)
    requires WellFormed(m) && InMap(m, Pos(x, y))
    requires y + 1 < endRow - 1 || y + 1 >= |m|
    ensures BandNeighbourMines(m, y, x, endRow) == AdjacentMines(Mines(m), y, x)
  {
    if y + 1 >= |m| {
      assert MineAt(Mines(m), y + 1, x - 1) == 0;
    }
  }

  // ----- Carving the safe zone (the flood in genMineMap) -----

  /**
   * The seed cells: for every column, the floors |m| - rf for rf from 1 (from 2 when the
   * last floor is cleaned) up to `revealableCounts`; none when `revealableCounts` < 1.
   */
  predicate IsSeed(p: Pos, rows: int, cleanLastFloor: bool, revealableCounts: int)
  {
    revealableCounts >= 1 && 0 <= p.x < CellPerFloor
    && (if cleanLastFloor then 2 else 1) <= rows - p.y <= revealableCounts
  }

  /**
   * The in-bounds neighbours of (x, y) in the order the carving visits them: the row above
   * (left, right, middle), the row below (left, right, middle), then left and right.
   */
  function CarveOrder(x: int, y: int, rows: int): (r: seq<Pos>)
    requires InBounds(Pos(x, y), rows, CellPerFloor)
    ensures forall q :: q in r <==> InBounds(q, rows, CellPerFloor) && Adjacent(q, Pos(x, y))
  {
    var hasTop, hasBottom, hasLeft, hasRight := y - 1 >= 0, y + 1 < rows, x - 1 >= 0, x + 1 < CellPerFloor;
    Cand(hasTop && hasLeft, Pos(x - 1, y - 1))
    + Cand(hasTop && hasRight, Pos(x + 1, y - 1))
    + Cand(hasTop, Pos(x, y - 1))
    + Cand(hasBottom && hasLeft, Pos(x - 1, y + 1))
    + Cand(hasBottom && hasRight, Pos(x + 1, y + 1))
    + Cand(hasBottom, Pos(x, y + 1))
    + Cand(hasLeft, Pos(x - 1, y))
    + Cand(hasRight, Pos(x + 1, y))
  }

  /** The cells of `ps` that are not mines, in order. */
  function NonMines(m: MineMap, ps: seq<Pos>): (r: seq<Pos>)
    requires WellFormed(m)
    requires forall q :: q in ps ==> 0 <= q.y < |m| && 0 <= q.x < CellPerFloor
    ensures forall q :: q in r <==> q in ps && m[q.y][q.x] != MineCell
    ensures |r| <= |ps|
    ensures |r| == |ps| <==> forall q :: q in ps ==> m[q.y][q.x] != MineCell
  {
    if ps == [] then []
    else
      var rest := NonMines(m, ps[1..]);
      if m[ps[0].y][ps[0].x] != MineCell then [ps[0]] + rest else rest
  }

  /** Cells only ever change to -2. */
  predicate OnlyOpens(a: MineMap, b: MineMap)
    requires WellFormed(a) && WellFormed(b) && |a| == |b|
  {
    forall y, x :: 0 <= y < |a| && 0 <= x < CellPerFloor ==> b[y][x] == a[y][x] || b[y][x] == OpenCell
  }

  predicate RowOpen(row: seq<int>)
  {
    forall x :: 0 <= x < |row| ==> row[x] == OpenCell
  }

  predicate RowMineFree(row: seq<int>)
  {
    forall x :: 0 <= x < |row| ==> row[x] != MineCell
  }

  /** A cell the flood may open: a seed, or a neighbour of an expanded cell. */
  ghost predicate Reached(q: Pos, rows: int, cleanLastFloor: bool, revealableCounts: int, expanded: seq<Pos>)
  {
    IsSeed(q, rows, cleanLastFloor, revealableCounts) || exists p :: p in expanded && Adjacent(q, p)
  }

  ghost predicate FloodReached(q: Pos, seeds: seq<Pos>, expanded: seq<Pos>)
  {
    q in seeds || exists p :: p in expanded && Adjacent(q, p)
  }

  /** Every in-map neighbour of an expanded cell is open or still waiting in `pending`. */
  ghost predicate NeighboursSettled(cur: MineMap, expanded: seq<Pos>, pending: seq<Pos>)
    requires WellFormed(cur)
  {
    forall p, q :: p in expanded && InMap(cur, q) && Adjacent(q, p) ==> q in pending || cur[q.y][q.x] == OpenCell
  }

  /** Two maps with the same mine cells have the same mine grid. */
  lemma SameMines(a: MineMap, b: MineMap)
    requires WellFormed(a) && WellFormed(b) && |a| == |b|
    requires forall y, x :: 0 <= y < |a| && 0 <= x < CellPerFloor ==> (a[y][x] == MineCell <==> b[y][x] == MineCell)
    ensures Mines(a) == Mines(b)
  {
    forall y | 0 <= y < |a| ensures Mines(a)[y] == Mines(b)[y] {
      assert |Mines(a)[y]| == |Mines(b)[y]|;
    }
  }

  /**
   * The first pass of the carving: with `cleanLastFloor` every cell of the last floor
   * becomes -2, and the seed list is filled column by column.
   */
  method SeedSafeZone(m: MineMap, cleanLastFloor: bool, revealableCounts: int)
    returns (start: MineMap, seeds: seq<Pos>)
    requires WellFormed(m)
    requires cleanLastFloor ==> |m| >= 1
    requires revealableCounts >= 1 ==> revealableCounts <= |m|
    ensures WellFormed(start) && |start| == |m|
    ensures forall y, x :: 0 <= y < |m| && 0 <= x < CellPerFloor ==>
              start[y][x] == (if cleanLastFloor && y == |m| - 1 then OpenCell else m[y][x])
    ensures forall q :: q in seeds <==> IsSeed(q, |m|, cleanLastFloor, revealableCounts)
  {
    var rows := |m|;
    start, seeds := m, [];
    var first := if cleanLastFloor then 2 else 1;
    for i := 0 to CellPerFloor
      invariant WellFormed(start) && |start| == rows
      invariant forall y, x :: 0 <= y < rows && 0 <= x < CellPerFloor ==>
                  start[y][x] == (if cleanLastFloor && y == rows - 1 && x < i then OpenCell else m[y][x])
      invariant forall q :: q in seeds ==> IsSeed(q, rows, cleanLastFloor, revealableCounts) && q.x < i
      invariant forall q :: IsSeed(q, rows, cleanLastFloor, revealableCounts) && q.x < i ==> q in seeds
    {
      if cleanLastFloor {
        start := start[rows - 1 := start[rows - 1][i := OpenCell]];
      }
      if revealableCounts < 1 {
        continue;
      }
      var revealFloor := first;
      while revealFloor <= revealableCounts
        invariant first <= revealFloor <= revealableCounts + 1
        invariant forall q :: q in seeds ==> IsSeed(q, rows, cleanLastFloor, revealableCounts) && q.x <= i
        invariant forall q :: IsSeed(q, rows, cleanLastFloor, revealableCounts) && (q.x < i || (q.x == i && rows - q.y < revealFloor)) ==>
                    q in seeds
      {
        seeds := seeds + [Pos(i, rows - revealFloor)];
        revealFloor := revealFloor + 1;
      }
    }
  }

  /** No in-map neighbour of `p` is a mine. */
  ghost predicate MineFreeAround(m: MineMap, p: Pos)
    requires WellFormed(m)
  {
    forall q :: InMap(m, q) && Adjacent(q, p) ==> m[q.y][q.x] != MineCell
  }

  /** A cell the flood opened itself, with no mine around it, has been expanded. */
  ghost predicate OpenedExpanded(start: MineMap, cur: MineMap, expanded: seq<Pos>, p: Pos)
    requires WellFormed(start) && WellFormed(cur) && |cur| == |start|
  {
    InMap(start, p) && cur[p.y][p.x] == OpenCell && start[p.y][p.x] != OpenCell && MineFreeAround(cur, p) ==> p in expanded
  }

  /** What the flood keeps true of the map `cur`, the expanded cells and the worklist. */
  ghost predicate FloodInv(start: MineMap, seeds: seq<Pos>, cur: MineMap, expanded: seq<Pos>, worklist: seq<Pos>)
    requires WellFormed(start)
  {
    FloodCore(start, seeds, cur, expanded, worklist) && forall p :: OpenedExpanded(start, cur, expanded, p)
  }

  /** FloodInv with the cell `p` just opened, and not yet expanded, exempt from OpenedExpanded. */
  ghost predicate FloodInvBut(start: MineMap, seeds: seq<Pos>, cur: MineMap, expanded: seq<Pos>, worklist: seq<Pos>, p: Pos)
    requires WellFormed(start)
  {
    FloodCore(start, seeds, cur, expanded, worklist) && forall q :: q != p ==> OpenedExpanded(start, cur, expanded, q)
  }

  /** The part of FloodInv about the shape, the opened cells, the expanded cells and the worklist. */
  ghost predicate FloodCore(start: MineMap, seeds: seq<Pos>, cur: MineMap, expanded: seq<Pos>, worklist: seq<Pos>)
    requires WellFormed(start)
    ensures FloodCore(start, seeds, cur, expanded, worklist) ==> WellFormed(cur) && |cur| == |start|
  {
    && WellFormed(cur) && |cur| == |start|
    && (forall q :: q in worklist ==> 0 <= q.y < |start| && 0 <= q.x < CellPerFloor)
    && (forall y, x :: 0 <= y < |start| && 0 <= x < CellPerFloor ==>
          cur[y][x] == start[y][x] || (cur[y][x] == OpenCell && start[y][x] != MineCell))
    && (forall q :: q in seeds ==> 0 <= q.y < |start| && 0 <= q.x < CellPerFloor)
    && (forall q :: q in seeds ==> q in worklist || cur[q.y][q.x] == MineCell || cur[q.y][q.x] == OpenCell)
    && (forall p :: p in expanded ==> InMap(start, p) && cur[p.y][p.x] == OpenCell && start[p.y][p.x] != OpenCell)
    && (forall p, q :: p in expanded && InMap(start, q) && Adjacent(q, p) ==> start[q.y][q.x] != MineCell)
    && NeighboursSettled(cur, expanded, worklist)
    && (forall q :: q in worklist ==> FloodReached(q, seeds, expanded))
    && (forall y, x :: 0 <= y < |start| && 0 <= x < CellPerFloor && cur[y][x] == OpenCell && start[y][x] != OpenCell ==>
          FloodReached(Pos(x, y), seeds, expanded))
    && GrownFrom(seeds, expanded)
  }

  /** Popping a cell that is already a mine or open changes nothing else. */
  lemma PopSkipped(start: MineMap, seeds: seq<Pos>, cur: MineMap, expanded: seq<Pos>, worklist: seq<Pos>)
    requires WellFormed(start) && worklist != []
    requires FloodInv(start, seeds, cur, expanded, worklist)
    requires var p := worklist[|worklist| - 1]; cur[p.y][p.x] == MineCell || cur[p.y][p.x] == OpenCell
    ensures FloodInv(start, seeds, cur, expanded, worklist[..|worklist| - 1])
  {
    var p, rest := worklist[|worklist| - 1], worklist[..|worklist| - 1];
    assert worklist == rest + [p];
    assert forall q :: q in worklist ==> q == p || q in rest;
    assert FloodCore(start, seeds, cur, expanded, rest);
  }

  /** Popping a closed non-mine cell and opening it keeps FloodInv, except OpenedExpanded for that cell. */
  lemma PopOpened(start: MineMap, seeds: seq<Pos>, cur: MineMap, expanded: seq<Pos>, worklist: seq<Pos>)
    requires WellFormed(start) && worklist != []
    requires FloodInv(start, seeds, cur, expanded, worklist)
    requires var p := worklist[|worklist| - 1]; cur[p.y][p.x] != MineCell && cur[p.y][p.x] != OpenCell
    ensures var p := worklist[|worklist| - 1];
      FloodInvBut(start, seeds, cur[p.y := cur[p.y][p.x := OpenCell]], expanded, worklist[..|worklist| - 1], p)
  {
    var p := worklist[|worklist| - 1];
    var cur' := cur[p.y := cur[p.y][p.x := OpenCell]];
    OpenedCore(start, seeds, cur, expanded, worklist);
    forall q | q != p ensures OpenedExpanded(start, cur', expanded, q) {
      assert OpenedExpanded(start, cur, expanded, q);
      if InMap(start, q) && MineFreeAround(cur', q) {
        forall r | InMap(cur, r) && Adjacent(r, q) ensures cur[r.y][r.x] != MineCell {
          assert cur'[r.y][r.x] != MineCell;
        }
      }
    }
  }

  /** The FloodCore half of PopOpened. */
  lemma OpenedCore(start: MineMap, seeds: seq<Pos>, cur: MineMap, expanded: seq<Pos>, worklist: seq<Pos>)
    requires WellFormed(start) && worklist != []
    requires FloodCore(start, seeds, cur, expanded, worklist)
    requires var p := worklist[|worklist| - 1]; cur[p.y][p.x] != MineCell && cur[p.y][p.x] != OpenCell
    ensures var p := worklist[|worklist| - 1];
      FloodCore(start, seeds, cur[p.y := cur[p.y][p.x := OpenCell]], expanded, worklist[..|worklist| - 1])
  {
    var p, rest := worklist[|worklist| - 1], worklist[..|worklist| - 1];
    assert worklist == rest + [p];
    assert forall q :: q in worklist ==> q == p || q in rest;
    assert FloodReached(p, seeds, expanded);
    var cur' := cur[p.y := cur[p.y][p.x := OpenCell]];
    assert WellFormed(cur');
    assert forall y, x :: 0 <= y < |start| && 0 <= x < CellPerFloor ==>
          cur'[y][x] == start[y][x] || (cur'[y][x] == OpenCell && start[y][x] != MineCell);
    assert forall q :: q in seeds ==> q in rest || cur'[q.y][q.x] == MineCell || cur'[q.y][q.x] == OpenCell;
    assert forall q :: q in expanded ==> InMap(start, q) && cur'[q.y][q.x] == OpenCell;
    SettledAfterOpen(cur, expanded, worklist);
    assert forall y, x :: 0 <= y < |start| && 0 <= x < CellPerFloor && cur'[y][x] == OpenCell && start[y][x] != OpenCell ==>
          FloodReached(Pos(x, y), seeds, expanded);
  }

  /** Opening the cell popped off the worklist keeps every expanded cell's neighbours settled. */
  lemma SettledAfterOpen(cur: MineMap, expanded: seq<Pos>, worklist: seq<Pos>)
    requires WellFormed(cur) && worklist != [] && NeighboursSettled(cur, expanded, worklist)
    requires var p := worklist[|worklist| - 1]; 0 <= p.y < |cur| && 0 <= p.x < CellPerFloor
    ensures var p := worklist[|worklist| - 1];
      NeighboursSettled(cur[p.y := cur[p.y][p.x := OpenCell]], expanded, worklist[..|worklist| - 1])
  {
    var p, rest := worklist[|worklist| - 1], worklist[..|worklist| - 1];
    var cur' := cur[p.y := cur[p.y][p.x := OpenCell]];
    assert worklist == rest + [p];
    forall a, q | a in expanded && InMap(cur', q) && Adjacent(q, a) ensures q in rest || cur'[q.y][q.x] == OpenCell {
      assert q in worklist || cur[q.y][q.x] == OpenCell;
    }
  }

  /** Expanding an open cell whose in-map neighbours are all non-mines pushes exactly those neighbours. */
  lemma Expanded(start: MineMap, seeds: seq<Pos>, cur: MineMap, expanded: seq<Pos>, worklist: seq<Pos>,
                 p: Pos, inner: seq<Pos>)
    requires WellFormed(start)
    requires FloodInvBut(start, seeds, cur, expanded, worklist, p)
    requires InMap(start, p) && cur[p.y][p.x] == OpenCell
    requires forall q :: q in inner <==> InMap(start, q) && Adjacent(q, p)
    requires forall q :: q in inner ==> 0 <= q.y < |cur| && 0 <= q.x < CellPerFloor && cur[q.y][q.x] != MineCell
    requires FloodReached(p, seeds, expanded) && start[p.y][p.x] != OpenCell
    ensures FloodInv(start, seeds, cur, expanded + [p], worklist + inner)
  {
    GrownFromAppend(seeds, expanded, p);
    assert forall q :: q in worklist + inner <==> q in worklist || q in inner;
    assert FloodCore(start, seeds, cur, expanded + [p], worklist + inner);
    forall q ensures OpenedExpanded(start, cur, expanded + [p], q) {
      if q != p {
        assert OpenedExpanded(start, cur, expanded, q);
      }
    }
  }

  /** An opened cell with a mine next to it is not expanded, and FloodInv holds without it. */
  lemma NotExpanded(start: MineMap, seeds: seq<Pos>, cur: MineMap, expanded: seq<Pos>, worklist: seq<Pos>,
                    p: Pos, around: seq<Pos>)
    requires WellFormed(start)
    requires FloodInvBut(start, seeds, cur, expanded, worklist, p)
    requires forall q :: q in around <==> InMap(start, q) && Adjacent(q, p)
    requires forall q :: q in around ==> 0 <= q.y < |cur| && 0 <= q.x < CellPerFloor
    requires |NonMines(cur, around)| < |around|
    ensures FloodInv(start, seeds, cur, expanded, worklist)
  {
    var q :| q in around && cur[q.y][q.x] == MineCell;
    assert !MineFreeAround(cur, p);
    assert OpenedExpanded(start, cur, expanded, p);
  }

  /**
   * The worklist flood of the carving, popped from the end. A popped cell that is already
   * -1 or -2 is skipped; otherwise it becomes -2, and only when none of its in-bounds
   * neighbours is a mine are those neighbours pushed (the cell is "expanded").
   */
  method Flood(start: MineMap, seeds: seq<Pos>)
    returns (m': MineMap, ghost expanded: seq<Pos>)
    requires WellFormed(start)
    requires forall q :: q in seeds ==> 0 <= q.y < |start| && 0 <= q.x < CellPerFloor
    ensures WellFormed(m') && |m'| == |start|
    ensures Mines(m') == Mines(start)
    ensures OnlyOpens(start, m')
    ensures forall q :: q in seeds ==> m'[q.y][q.x] == MineCell || m'[q.y][q.x] == OpenCell
    ensures forall p :: p in expanded ==> InMap(start, p) && m'[p.y][p.x] == OpenCell && start[p.y][p.x] != OpenCell
    ensures NeighboursSettled(m', expanded, [])
    ensures forall y, x :: 0 <= y < |start| && 0 <= x < CellPerFloor && m'[y][x] == OpenCell && start[y][x] != OpenCell ==>
              FloodReached(Pos(x, y), seeds, expanded)
    ensures forall p :: OpenedExpanded(start, m', expanded, p)
    ensures GrownFrom(seeds, expanded)
  {
    var rows := |start|;
    m' := start;
    expanded := [];
    var worklist := seeds;
    while worklist != []
      invariant FloodInv(start, seeds, m', expanded, worklist)
      decreases CountTrue(Where(m', OpenCell, false)), |worklist|
    {
      var p := worklist[|worklist| - 1];
      assert p in worklist;
      assert FloodReached(p, seeds, expanded);
      if m'[p.y][p.x] == MineCell || m'[p.y][p.x] == OpenCell {
        PopSkipped(start, seeds, m', expanded, worklist);
        worklist := worklist[..|worklist| - 1];
        continue;
      }
      assert start[p.y][p.x] != OpenCell;
      PopOpened(start, seeds, m', expanded, worklist);
      WhereUpdate(m', OpenCell, false, p.y, p.x, OpenCell);
      CountTrueUpdate(Where(m', OpenCell, false), p.y, p.x, false);
      worklist := worklist[..|worklist| - 1];
      m' := m'[p.y := m'[p.y][p.x := OpenCell]];
      var around := CarveOrder(p.x, p.y, rows);
      var inner := NonMines(m', around);
      if |inner| < |around| {
        NotExpanded(start, seeds, m', expanded, worklist, p, around);
        continue;
      }
      Expanded(start, seeds, m', expanded, worklist, p, inner);
      expanded := expanded + [p];
      worklist := worklist + inner;
    }
    SameMines(m', start);
  }

  /**
   * What carving the safe zone of `m` into `m'` does to the cells: the shape is kept; a
   * cleaned last floor is all -2; cells only ever become -2; every mine stays a mine except
   * on a cleaned last floor, so the mine count is kept when that floor had none; and every
   * seed that is not a mine is opened.
   */
  ghost predicate CarvedCells(m: MineMap, m': MineMap, cleanLastFloor: bool, revealableCounts: int)
    requires WellFormed(m)
    requires cleanLastFloor ==> |m| >= 1
    requires revealableCounts >= 1 ==> revealableCounts <= |m|
  {
    && WellFormed(m') && |m'| == |m|
    && (cleanLastFloor ==> RowOpen(m'[|m| - 1]))
    && OnlyOpens(m, m')
    && (forall y, x :: 0 <= y < |m| && 0 <= x < CellPerFloor && m[y][x] == MineCell ==>
          m'[y][x] == MineCell || (cleanLastFloor && y == |m| - 1))
    && ((!cleanLastFloor || RowMineFree(m[|m| - 1])) ==> MineCount(m') == MineCount(m))
    && (forall p :: IsSeed(p, |m|, cleanLastFloor, revealableCounts) && m[p.y][p.x] != MineCell ==>
          m'[p.y][p.x] == OpenCell)
  }

  /** A cell the carving's flood opened: closed in `m`, open in `m'`, and not on a cleaned last floor. */
  predicate FloodOpened(m: MineMap, m': MineMap, cleanLastFloor: bool, p: Pos)
    requires WellFormed(m) && WellFormed(m') && |m'| == |m|
  {
    InMap(m, p) && !(cleanLastFloor && p.y == |m| - 1) && m[p.y][p.x] != OpenCell && m'[p.y][p.x] == OpenCell
  }

  /**
   * The whole carving: the cells as CarvedCells says; `expanded` holds open cells whose
   * in-map neighbours are all open; every cell the flood opened with no mine around it is
   * expanded; and every newly opened cell is on the cleaned floor, a seed or next to an
   * expanded cell.
   */
  ghost predicate Carved(m: MineMap, m': MineMap, cleanLastFloor: bool, revealableCounts: int, expanded: seq<Pos>)
    requires WellFormed(m)
    requires cleanLastFloor ==> |m| >= 1
    requires revealableCounts >= 1 ==> revealableCounts <= |m|
  {
    && CarvedCells(m, m', cleanLastFloor, revealableCounts)
    && (forall p :: p in expanded ==> FloodOpened(m, m', cleanLastFloor, p))
    && NeighboursSettled(m', expanded, [])
    && (forall p :: FloodOpened(m, m', cleanLastFloor, p) && MineFreeAround(m', p) ==> p in expanded)
    && (forall y, x :: 0 <= y < |m| && 0 <= x < CellPerFloor && m'[y][x] == OpenCell && m[y][x] != OpenCell ==>
          (cleanLastFloor && y == |m| - 1) || Reached(Pos(x, y), |m|, cleanLastFloor, revealableCounts, expanded))
    && CarvedInOrder(|m|, cleanLastFloor, revealableCounts, expanded)
  }

  /** Every expanded cell is a seed or next to a cell expanded before it. */
  ghost predicate CarvedInOrder(rows: int, cleanLastFloor: bool, revealableCounts: int, expanded: seq<Pos>)
  {
    forall i :: 0 <= i < |expanded| ==>
      IsSeed(expanded[i], rows, cleanLastFloor, revealableCounts) || exists j :: 0 <= j < i && Adjacent(expanded[i], expanded[j])
  }

  /**
   * The carving of the safe zone: the first pass, then the flood. The mine bits stay as
   * they were except on a cleaned last floor.
   */
  method CarveSafeZone(m: MineMap, cleanLastFloor: bool, revealableCounts: int)
    returns (m': MineMap, ghost expanded: seq<Pos>)
    requires WellFormed(m)
    requires cleanLastFloor ==> |m| >= 1
    requires revealableCounts >= 1 ==> revealableCounts <= |m|
    ensures CarvedCells(m, m', cleanLastFloor, revealableCounts)
    ensures Carved(m, m', cleanLastFloor, revealableCounts, expanded)
  {
    var start, seeds := SeedSafeZone(m, cleanLastFloor, revealableCounts);
    m', expanded := Flood(start, seeds);
    if !cleanLastFloor || RowMineFree(m[|m| - 1]) {
      SameMines(start, m);
    }
    forall p | p in expanded ensures FloodOpened(m, m', cleanLastFloor, p) {
      assert start[p.y][p.x] != OpenCell;
    }
    forall p | FloodOpened(m, m', cleanLastFloor, p) && MineFreeAround(m', p) ensures p in expanded {
      assert OpenedExpanded(start, m', expanded, p);
    }
    forall i | 0 <= i < |expanded| && !IsSeed(expanded[i], |m|, cleanLastFloor, revealableCounts)
      ensures exists j :: 0 <= j < i && Adjacent(expanded[i], expanded[j])
    {
      assert expanded[i] !in seeds;
    }
  }

  /**
   * The carving leaves no closed cell next to a cell its flood opened with no mine around
   * it: every in-map neighbour of such a cell is open too.
   */
  lemma CarvedClosed(m: MineMap, m': MineMap, cleanLastFloor: bool, revealableCounts: int, expanded: seq<Pos>)
    requires WellFormed(m)
    requires cleanLastFloor ==> |m| >= 1
    requires revealableCounts >= 1 ==> revealableCounts <= |m|
    requires Carved(m, m', cleanLastFloor, revealableCounts, expanded)
    ensures forall p, q :: FloodOpened(m, m', cleanLastFloor, p) && MineFreeAround(m', p) && InMap(m, q) && Adjacent(q, p) ==>
              m'[q.y][q.x] == OpenCell
  {
    forall p, q | FloodOpened(m, m', cleanLastFloor, p) && MineFreeAround(m', p) && InMap(m, q) && Adjacent(q, p)
      ensures m'[q.y][q.x] == OpenCell
    {
      assert p in expanded;
    }
  }
  /**
   * An expansion order grown from the seed floors never jumps over a floor it does not
   * enter: if no expanded cell lies on floor `r`, above every seed floor, each lies below it.
   */
  lemma {:induction false} ExpandedBelowFloor(rows: int, cleanLastFloor: bool, revealableCounts: int,
                                              expanded: seq<Pos>, r: int, i: int)
    requires CarvedInOrder(rows, cleanLastFloor, revealableCounts, expanded)
    requires r < rows - revealableCounts
    requires forall k :: 0 <= k < |expanded| ==> expanded[k].y != r
    requires 0 <= i < |expanded|
    ensures expanded[i].y > r
    decreases i
  {
    if !IsSeed(expanded[i], rows, cleanLastFloor, revealableCounts) {
      var j :| 0 <= j < i && Adjacent(expanded[i], expanded[j]);
      ExpandedBelowFloor(rows, cleanLastFloor, revealableCounts, expanded, r, j);
    }
  }

  /**
   * The carving leaves every floor above an all-mine floor untouched when all seed floors
   * lie below it: cells the seeds cannot reach are not opened.
   */
  lemma CarvedStopsAtMineFloor(m: MineMap, m': MineMap, cleanLastFloor: bool, revealableCounts: int,
                               expanded: seq<Pos>, r: int)
    requires WellFormed(m)
    requires cleanLastFloor ==> |m| >= 1
    requires 1 <= revealableCounts <= |m|
    requires Carved(m, m', cleanLastFloor, revealableCounts, expanded)
    requires 0 <= r < |m| - revealableCounts
    requires forall x :: 0 <= x < CellPerFloor ==> m[r][x] == MineCell
    ensures forall y, x :: 0 <= y < r && 0 <= x < CellPerFloor ==> m'[y][x] == m[y][x]
  {
    forall k | 0 <= k < |expanded|
      ensures expanded[k].y != r
    {
      var e := expanded[k];
      assert e in expanded;
      assert m'[r][e.x] == MineCell by {
        assert m[r][e.x] == MineCell;
      }
    }
    forall y, x | 0 <= y < r && 0 <= x < CellPerFloor
      ensures m'[y][x] == m[y][x]
    {
      if m'[y][x] != m[y][x] {
        var p :| p in expanded && Adjacent(Pos(x, y), p);
        var j :| 0 <= j < |expanded| && expanded[j] == p;
        ExpandedBelowFloor(|m|, cleanLastFloor, revealableCounts, expanded, r, j);
      }
    }
  }
}
