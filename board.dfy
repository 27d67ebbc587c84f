/**
 * The board as a value: one row of tile states per floor. The tile grid the game world
 * owns is read into this form (World.GameWorld.View), and everything here reasons about
 * it without touching objects: what a mine map materialises to, the neighbour frontier
 * of a cell, and what the reveal flood keeps true from one step to the next.
 */
module Boards {
  import opened Wrappers
  import opened Grid
  import opened Tiles
  import opened Constants
  import opened MineMaps

  type Board = seq<seq<TileState>>

  /** Every floor has CellPerFloor tiles. */
  predicate Shaped(b: Board)
  {
    forall y :: 0 <= y < |b| ==> |b[y]| == CellPerFloor
  }

  predicate OnBoard(b: Board, p: Pos)
  {
    InBounds(p, |b|, CellPerFloor)
  }

  // ----- What a mine map becomes (genTiles) -----

  /**
   * The tile that cell (y, x) of a mine map becomes: a mine for -1 (with count 0), a
   * pre-revealed tile for -2, and otherwise a hidden tile numbered with its mine neighbours.
   */
  function CellTile(m: MineMap, y: int, x: int): TileState
    requires WellFormed(m) && InMap(m, Pos(x, y))
  {
    var mine, open := m[y][x] == MineCell, m[y][x] == OpenCell;
    TileState(mine, false, open, open, if mine then 0 else AdjacentMines(Mines(m), y, x))
  }

  /** Whether cell (y, x) holds a -1, guarded by the bound tests genTiles makes before reading it. */
  function MineCellAt(m: MineMap, y: int, x: int): nat
    requires WellFormed(m)
  {
    if 0 <= y < |m| && 0 <= x < CellPerFloor && m[y][x] == MineCell then 1 else 0
  }

  /** genTiles' eight-term neighbour sum: top-left, bottom-left, top-right, bottom-right, top, left, bottom, right. */
  function GenCount(m: MineMap, y: int, x: int): nat
    requires WellFormed(m)
  {
    MineCellAt(m, y - 1, x - 1) + MineCellAt(m, y + 1, x - 1) + MineCellAt(m, y - 1, x + 1) + MineCellAt(m, y + 1, x + 1)
    + MineCellAt(m, y - 1, x) + MineCellAt(m, y, x - 1) + MineCellAt(m, y + 1, x) + MineCellAt(m, y, x + 1)
  }

  /** The eight-term sum counts the mines among the in-bounds neighbours of the cell. */
  lemma GenCountIsAdjacent(m: MineMap, y: int, x: int)
    requires WellFormed(m)
    ensures GenCount(m, y, x) == AdjacentMines(Mines(m), y, x)
  {
    MineCellAtIsMineAt(m, y - 1, x - 1);
    MineCellAtIsMineAt(m, y - 1, x);
    MineCellAtIsMineAt(m, y - 1, x + 1);
    MineCellAtIsMineAt(m, y, x - 1);
    MineCellAtIsMineAt(m, y, x + 1);
    MineCellAtIsMineAt(m, y + 1, x - 1);
    MineCellAtIsMineAt(m, y + 1, x);
    MineCellAtIsMineAt(m, y + 1, x + 1);
  }

  /** One guarded read of genTiles agrees with the mine grid. */
  lemma MineCellAtIsMineAt(m: MineMap, y: int, x: int)
    requires WellFormed(m)
    ensures MineCellAt(m, y, x) == MineAt(Mines(m), y, x)
  {
  }

  /** The board a mine map materialises to. */
  function Materialise(m: MineMap): (b: Board)
    requires WellFormed(m)
    ensures |b| == |m| && Shaped(b)
    ensures forall y, x :: 0 <= y < |m| && 0 <= x < CellPerFloor ==> b[y][x] == CellTile(m, y, x)
  {
    seq(|m|, y requires 0 <= y < |m| =>
      seq(CellPerFloor, x requires 0 <= x < CellPerFloor => CellTile(m, y, x)))
  }

  /** The map left behind by materialisation: every -2 is rewritten to 0. */
  function ClearOpen(m: MineMap): (r: MineMap)
    requires WellFormed(m)
    ensures WellFormed(r) && |r| == |m|
    ensures forall y, x :: 0 <= y < |m| && 0 <= x < CellPerFloor ==>
              r[y][x] == (if m[y][x] == OpenCell then 0 else m[y][x])
  {
    seq(|m|, y requires 0 <= y < |m| =>
      seq(CellPerFloor, x requires 0 <= x < CellPerFloor => if m[y][x] == OpenCell then 0 else m[y][x]))
  }

  /** Every number on a materialised board counts exactly the in-bounds mine tiles around it. */
  lemma MaterialisedCounts(m: MineMap, y: int, x: int)
    requires WellFormed(m) && InMap(m, Pos(x, y)) && m[y][x] != MineCell
    ensures Materialise(m)[y][x].mineNearBy == CountAt(Mines(m), Neighbours(x, y, |m|, CellPerFloor))
    ensures Materialise(m)[y][x].mineNearBy <= 8
  {
    NeighbourCountMatchesScan(Mines(m), y, x, CellPerFloor);
    CountAtBound(Mines(m), Neighbours(x, y, |m|, CellPerFloor));
  }

  /** The mine tiles of a materialised board are the -1 cells of the map, and there are MineCount of them. */
  lemma MaterialisedMines(m: MineMap)
    requires WellFormed(m)
    ensures Mines(m) == MineGrid(Materialise(m))
  {
    var b := Materialise(m);
    forall y | 0 <= y < |m| ensures Mines(m)[y] == MineGrid(b)[y] {
      assert |Mines(m)[y]| == |MineGrid(b)[y]|;
    }
  }

  /** The grid of mine bits of a board. */
  function MineGrid(b: Board): (g: BoolGrid)
    ensures |g| == |b|
    ensures forall y :: 0 <= y < |b| ==> |g[y]| == |b[y]|
    ensures forall y, x :: 0 <= y < |b| && 0 <= x < |b[y]| ==> (g[y][x] <==> b[y][x].isMine)
  {
    seq(|b|, y requires 0 <= y < |b| => seq(|b[y]|, x requires 0 <= x < |b[y]| => b[y][x].isMine))
  }

  // ----- The neighbour frontier (getNearByTile / getNearByTiles) -----

  /**
   * Whether the frontier keeps a neighbour. Counting mode (used by the chord) keeps all but
   * revealed non-mines; the default mode keeps revealable tiles that are not hidden mines.
   */
  predicate Selected(s: TileState, calcMine: bool)
  {
    if calcMine then !(s.isRevealed && !s.isMine) else !s.UnrevealedMine() && s.Revealable()
  }

  function NearByTile(b: Board, x: int, y: int, calcMine: bool): (r: Option<Pos>)
    requires OnBoard(b, Pos(x, y)) && Shaped(b)
    ensures r.Some? <==> Selected(b[y][x], calcMine)
    ensures r.Some? ==> r.value == Pos(x, y)
  {
    if calcMine then
      if b[y][x].isRevealed && !b[y][x].isMine then None else Some(Pos(x, y))
    else if b[y][x].UnrevealedMine() then None
    else if b[y][x].Revealable() then Some(Pos(x, y))
    else None
  }

  /** The positions of `ps` that the frontier keeps, in order. */
  function SelectFrom(b: Board, ps: seq<Pos>, calcMine: bool): (r: seq<Pos>)
    requires Shaped(b) && forall q :: q in ps ==> 0 <= q.y < |b| && 0 <= q.x < CellPerFloor
    ensures forall q :: q in r <==> q in ps && Selected(b[q.y][q.x], calcMine)
    ensures |r| <= |ps|
  {
    if ps == [] then []
    else
      var rest := SelectFrom(b, ps[1..], calcMine);
      match NearByTile(b, ps[0].x, ps[0].y, calcMine)
      case Some(p) => [p] + rest
      case None => rest
  }

  /**
   * The frontier of (x, y): its in-bounds neighbours, in the scan order, that the mode keeps.
   * The default mode never yields a flagged tile, a hidden mine or a revealed tile showing 0.
   */
  function NearByTiles(b: Board, x: int, y: int, calcMine: bool): (r: seq<Pos>)
    requires Shaped(b) && OnBoard(b, Pos(x, y))
    ensures forall q :: q in r <==> OnBoard(b, q) && Adjacent(q, Pos(x, y)) && Selected(b[q.y][q.x], calcMine)
    ensures |r| <= 8
    ensures !calcMine ==> forall q :: q in r ==>
              0 <= q.y < |b| && 0 <= q.x < CellPerFloor && !b[q.y][q.x].isFlagged && !b[q.y][q.x].UnrevealedMine()
              && !(b[q.y][q.x].isRevealed && b[q.y][q.x].mineNearBy == 0)
  {
    SelectFrom(b, Neighbours(x, y, |b|, |b[0]|), calcMine)
  }

  // ----- Reveals and the flood -----

  function RevealAt(b: Board, p: Pos): (r: Board)
    requires Shaped(b) && OnBoard(b, p)
    ensures Shaped(r) && |r| == |b|
  {
    b[p.y := b[p.y][p.x := b[p.y][p.x].Reveal()]]
  }

  /** `b'` differs from `b` only in tiles that went from hidden, unflagged non-mines to revealed. */
  predicate RevealsOnly(b: Board, b': Board)
    requires Shaped(b) && Shaped(b') && |b| == |b'|
  {
    forall y, x :: 0 <= y < |b| && 0 <= x < CellPerFloor ==>
      b'[y][x] == b[y][x]
      || (b'[y][x] == b[y][x].Reveal() && !b[y][x].isRevealed && !b[y][x].isFlagged && !b[y][x].isMine)
  }

  lemma {:induction false} RevealsOnlyTrans(b: Board, b': Board, b'': Board)
    requires Shaped(b) && Shaped(b') && Shaped(b'') && |b| == |b'| == |b''|
    requires RevealsOnly(b, b') && RevealsOnly(b', b'')
    ensures RevealsOnly(b, b'')
  {
    forall y, x | 0 <= y < |b| && 0 <= x < CellPerFloor
      ensures b''[y][x] == b[y][x]
        || (b''[y][x] == b[y][x].Reveal() && !b[y][x].isRevealed && !b[y][x].isFlagged && !b[y][x].isMine)
    {
      if b'[y][x] != b[y][x] {
        RevealIdempotent(b'[y][x]);
      }
    }
  }

  /** A flood neighbour is settled once it is revealed, flagged or a mine. */
  predicate Settled(s: TileState)
  {
    s.isRevealed || s.isFlagged || s.isMine
  }

  /** A cell the flood may reveal: an initial entry or a neighbour of a cell it expanded. */
  ghost predicate Reachable(q: Pos, initial: seq<Pos>, expanded: seq<Pos>)
  {
    q in initial || exists p :: p in expanded && Adjacent(q, p)
  }

  function HiddenGrid(b: Board): (g: BoolGrid)
    ensures |g| == |b|
    ensures forall y :: 0 <= y < |b| ==> |g[y]| == |b[y]|
    ensures forall y, x :: 0 <= y < |b| && 0 <= x < |b[y]| ==> (g[y][x] <==> !b[y][x].isRevealed)
  {
    seq(|b|, y requires 0 <= y < |b| => seq(|b[y]|, x requires 0 <= x < |b[y]| => !b[y][x].isRevealed))
  }

  /** Number of hidden tiles. */
  function Hidden(b: Board): nat
  {
    CountTrue(HiddenGrid(b))
  }

  /** A revealed tile showing 0. */
  predicate OpenZero(s: TileState)
  {
    s.isRevealed && s.mineNearBy == 0
  }

  /** Worklist entries that sit on revealed tiles showing 0. */
  function ZeroEntries(b: Board, wl: seq<Pos>): nat
    requires forall q :: q in wl ==> 0 <= q.y < |b| && 0 <= q.x < |b[q.y]|
  {
    if wl == [] then 0
    else
      var last := wl[|wl| - 1];
      ZeroEntries(b, wl[..|wl| - 1]) + if OpenZero(b[last.y][last.x]) then 1 else 0
  }

  lemma {:induction false} ZeroEntriesAppend(b: Board, a: seq<Pos>, c: seq<Pos>)
    requires forall q :: q in a + c ==> 0 <= q.y < |b| && 0 <= q.x < |b[q.y]|
    ensures ZeroEntries(b, a + c) == ZeroEntries(b, a) + ZeroEntries(b, c)
  {
    if c != [] {
      assert (a + c)[..|a + c| - 1] == a + c[..|c| - 1];
      ZeroEntriesAppend(b, a, c[..|c| - 1]);
    } else {
      assert a + c == a;
    }
  }

  lemma {:induction false} ZeroEntriesNone(b: Board, c: seq<Pos>)
    requires forall q :: q in c ==> 0 <= q.y < |b| && 0 <= q.x < |b[q.y]| && !OpenZero(b[q.y][q.x])
    ensures ZeroEntries(b, c) == 0
  {
    if c != [] {
      ZeroEntriesNone(b, c[..|c| - 1]);
    }
  }

  /** Revealing a hidden tile lowers the hidden count by one; revealing a revealed one changes nothing. */
  lemma HiddenAfterReveal(b: Board, p: Pos)
    requires Shaped(b) && OnBoard(b, p)
    ensures Hidden(RevealAt(b, p)) == if b[p.y][p.x].isRevealed then Hidden(b) else Hidden(b) - 1
  {
    var g, g' := HiddenGrid(b), HiddenGrid(RevealAt(b, p));
    assert g' == g[p.y := g[p.y][p.x := false]] by {
      forall r | 0 <= r < |g| ensures g'[r] == g[p.y := g[p.y][p.x := false]][r] {
        assert |g'[r]| == |g[p.y := g[p.y][p.x := false]][r]|;
      }
    }
    CountTrueUpdate(g, p.y, p.x, false);
  }

  /**
   * What the flood keeps true, from the board `b0` it started on and its first worklist
   * `initial`, of the current board `b`, the cells expanded so far and the worklist `wl`.
   */
  ghost predicate FloodInv(b0: Board, initial: seq<Pos>, b: Board, expanded: seq<Pos>, wl: seq<Pos>)
    requires Shaped(b0)
  {
    FloodCore(b0, initial, b, expanded, wl) && forall q :: ZeroExpanded(b0, initial, b, expanded, wl, q)
  }

  /** FloodInv with the cell `p` just popped or seeded, and not yet expanded, exempt from ZeroExpanded. */
  ghost predicate FloodInvBut(b0: Board, initial: seq<Pos>, b: Board, expanded: seq<Pos>, wl: seq<Pos>, p: Pos)
    requires Shaped(b0)
  {
    FloodCore(b0, initial, b, expanded, wl) && forall q :: q != p ==> ZeroExpanded(b0, initial, b, expanded, wl, q)
  }

  /**
   * A zero the flood started from or revealed itself, and that is no longer waiting in the
   * worklist, has been expanded: its neighbours were pushed.
   */
  ghost predicate ZeroExpanded(b0: Board, initial: seq<Pos>, b: Board, expanded: seq<Pos>, wl: seq<Pos>, q: Pos)
    requires Shaped(b0) && Shaped(b) && |b| == |b0|
  {
    q !in wl && FloodZero(b0, initial, b, q) ==> q in expanded
  }

  /** A zero the flood started from, or one it revealed itself. */
  predicate FloodZero(b0: Board, initial: seq<Pos>, b: Board, q: Pos)
    requires Shaped(b0) && Shaped(b) && |b| == |b0|
  {
    OnBoard(b0, q) && (q in initial || b[q.y][q.x] != b0[q.y][q.x]) && OpenZero(b[q.y][q.x])
  }

  /** Tile `q` is on the board and is not an open zero. */
  predicate NotOpenZeroAt(b: Board, q: Pos)
    requires Shaped(b)
  {
    OnBoard(b, q) && !OpenZero(b[q.y][q.x])
  }

  /** Tile `q` is on the board and still hidden. */
  predicate HiddenAt(b: Board, q: Pos)
    requires Shaped(b)
  {
    OnBoard(b, q) && !b[q.y][q.x].isRevealed
  }

  /**
   * The part of FloodInv about the board's shape, what was revealed, the cells expanded so
   * far and the worklist.
   */
  ghost predicate FloodCore(b0: Board, initial: seq<Pos>, b: Board, expanded: seq<Pos>, wl: seq<Pos>)
    requires Shaped(b0)
    ensures FloodCore(b0, initial, b, expanded, wl) ==> Shaped(b) && |b| == |b0|
  {
    && Shaped(b) && |b| == |b0|
    && (forall q :: q in initial ==> OnBoard(b0, q))
    && (forall q :: q in wl ==> OnBoard(b0, q))
    && (forall q :: q in wl ==> !b[q.y][q.x].isFlagged && !b[q.y][q.x].UnrevealedMine())
    && (forall q :: q in wl ==> q in initial || NotOpenZeroAt(b0, q))
    && RevealsOnly(b0, b)
    && (forall p :: p in expanded ==> OnBoard(b0, p) && OpenZero(b[p.y][p.x]))
    && (forall p :: p in expanded ==> p in initial || HiddenAt(b0, p))
    && (forall p, q :: p in expanded && OnBoard(b0, q) && Adjacent(q, p) ==> q in wl || Settled(b[q.y][q.x]))
    && (forall q :: q in initial && q !in wl ==> Settled(b[q.y][q.x]))
    && (forall q :: q in wl ==> Reachable(q, initial, expanded))
    && (forall y, x :: 0 <= y < |b0| && 0 <= x < CellPerFloor && b[y][x] != b0[y][x] ==>
          Reachable(Pos(x, y), initial, expanded))
    && GrownFrom(initial, expanded)
  }

  /** The flood's first worklist: entries on the board that are neither flagged nor hidden mines. */
  lemma FloodStart(b0: Board, initial: seq<Pos>)
    requires Shaped(b0)
    requires forall q :: q in initial ==> OnBoard(b0, q) && !b0[q.y][q.x].isFlagged && !b0[q.y][q.x].UnrevealedMine()
    ensures FloodInv(b0, initial, b0, [], initial)
  {
  }

  /** What revealTile hands back for `p`: nothing for a numbered tile, else its default-mode frontier. */
  function RevealPushed(b: Board, p: Pos): seq<Pos>
    requires Shaped(b) && OnBoard(b, p)
  {
    var b' := RevealAt(b, p);
    if b'[p.y][p.x].mineNearBy > 0 then [] else NearByTiles(b', p.x, p.y, false)
  }

  /** The expanded cells after revealing `p`: `p` joins them when it shows 0. */
  function RevealExpanded(b: Board, p: Pos, expanded: seq<Pos>): seq<Pos>
    requires Shaped(b) && OnBoard(b, p)
  {
    if b[p.y][p.x].mineNearBy > 0 then expanded else expanded + [p]
  }

  /** The board and worklist after one flood step: pop the last entry, reveal it, push its frontier when it shows 0. */
  function StepBoard(b: Board, wl: seq<Pos>): Board
    requires Shaped(b) && wl != [] && forall q :: q in wl ==> 0 <= q.y < |b| && 0 <= q.x < CellPerFloor
  {
    assert wl[|wl| - 1] in wl;
    RevealAt(b, wl[|wl| - 1])
  }

  function StepPushed(b: Board, wl: seq<Pos>): seq<Pos>
    requires Shaped(b) && wl != [] && forall q :: q in wl ==> 0 <= q.y < |b| && 0 <= q.x < CellPerFloor
  {
    assert wl[|wl| - 1] in wl;
    RevealPushed(b, wl[|wl| - 1])
  }

  function StepExpanded(b: Board, wl: seq<Pos>, expanded: seq<Pos>): seq<Pos>
    requires Shaped(b) && wl != [] && forall q :: q in wl ==> 0 <= q.y < |b| && 0 <= q.x < CellPerFloor
  {
    assert wl[|wl| - 1] in wl;
    RevealExpanded(b, wl[|wl| - 1], expanded)
  }

  /** Popping the last entry and revealing it keeps FloodInv, except ZeroExpanded for that entry. */
  lemma FloodPop(b0: Board, initial: seq<Pos>, b: Board, expanded: seq<Pos>, wl: seq<Pos>)
    requires Shaped(b0) && wl != []
    requires FloodInv(b0, initial, b, expanded, wl)
    ensures FloodInvBut(b0, initial, StepBoard(b, wl), expanded, wl[..|wl| - 1], wl[|wl| - 1])
  {
    var p, rest := wl[|wl| - 1], wl[..|wl| - 1];
    var b' := StepBoard(b, wl);
    PopCore(b0, initial, b, expanded, wl);
    assert forall q :: q in wl ==> q == p || q in rest;
    forall q | q != p ensures ZeroExpanded(b0, initial, b', expanded, rest, q) {
      assert ZeroExpanded(b0, initial, b, expanded, wl, q);
    }
  }

  /** The FloodCore half of FloodPop. */
  lemma PopCore(b0: Board, initial: seq<Pos>, b: Board, expanded: seq<Pos>, wl: seq<Pos>)
    requires Shaped(b0) && wl != []
    requires FloodCore(b0, initial, b, expanded, wl)
    ensures FloodCore(b0, initial, StepBoard(b, wl), expanded, wl[..|wl| - 1])
  {
    var p, rest := wl[|wl| - 1], wl[..|wl| - 1];
    var b' := StepBoard(b, wl);
    assert wl == rest + [p];
    assert forall q :: q in wl ==> q == p || q in rest;
    var s := b[p.y][p.x];
    assert b'[p.y][p.x] == s.Reveal();
    assert Reachable(p, initial, expanded);
    RevealIdempotent(s);
    assert RevealsOnly(b, b');
    RevealsOnlyTrans(b0, b, b');
  }

  /** Expanding a revealed zero pushes its unsettled neighbours and keeps FloodInv. */
  lemma FloodExpand(b0: Board, initial: seq<Pos>, b: Board, expanded: seq<Pos>, wl: seq<Pos>, p: Pos, next: seq<Pos>)
    requires Shaped(b0)
    requires FloodInvBut(b0, initial, b, expanded, wl, p)
    requires OnBoard(b0, p) && OpenZero(b[p.y][p.x])
    requires forall q :: q in next ==> OnBoard(b0, q) && Adjacent(q, p)
    requires forall q :: q in next ==> 0 <= q.y < |b| && 0 <= q.x < CellPerFloor && !b[q.y][q.x].isFlagged && !b[q.y][q.x].UnrevealedMine()
    requires forall q :: OnBoard(b0, q) && Adjacent(q, p) ==> q in next || Settled(b[q.y][q.x])
    requires forall q :: q in next ==> !OpenZero(b[q.y][q.x])
    requires Reachable(p, initial, expanded) && (p in initial || NotOpenZeroAt(b0, p))
    ensures FloodInv(b0, initial, b, expanded + [p], wl + next)
  {
    var ex' := expanded + [p];
    GrownFromAppend(initial, expanded, p);
    ExpandKeepsOwnZeros(b0, initial, b, expanded, wl, p, next);
    assert forall q :: q in wl + next <==> q in wl || q in next;
    assert forall q :: q in wl + next ==> Reachable(q, initial, ex');
    assert FloodCore(b0, initial, b, ex', wl + next);
    forall q ensures ZeroExpanded(b0, initial, b, ex', wl + next, q) {
      if q != p {
        assert ZeroExpanded(b0, initial, b, expanded, wl, q);
      }
    }
  }

  /**
   * Expanding `p` keeps the worklist free of zeros open before the flood (other than starts),
   * and keeps every expanded cell a start or a tile hidden before the flood.
   */
  lemma ExpandKeepsOwnZeros(b0: Board, initial: seq<Pos>, b: Board, expanded: seq<Pos>, wl: seq<Pos>, p: Pos, next: seq<Pos>)
    requires Shaped(b0) && Shaped(b) && |b| == |b0| && RevealsOnly(b0, b)
    requires forall q :: q in wl ==> q in initial || NotOpenZeroAt(b0, q)
    requires forall e :: e in expanded ==> e in initial || HiddenAt(b0, e)
    requires OnBoard(b0, p) && OpenZero(b[p.y][p.x]) && (p in initial || NotOpenZeroAt(b0, p))
    requires forall q :: q in next ==> OnBoard(b0, q) && !OpenZero(b[q.y][q.x])
    ensures forall q :: q in wl + next ==> q in initial || NotOpenZeroAt(b0, q)
    ensures forall e :: e in expanded + [p] ==> e in initial || HiddenAt(b0, e)
  {
    forall q | q in wl + next ensures q in initial || NotOpenZeroAt(b0, q) {
      if q !in wl {
        assert q in next;
        assert !OpenZero(b[q.y][q.x]);
      }
    }
    forall e | e in expanded + [p] ensures e in initial || HiddenAt(b0, e) {
      if e !in expanded {
        assert e == p;
      }
    }
  }

  /** The default-mode frontier of a cell is exactly its unsettled in-bounds neighbours. */
  lemma FrontierUnsettled(b: Board, p: Pos)
    requires Shaped(b) && OnBoard(b, p)
    ensures var next := NearByTiles(b, p.x, p.y, false);
      forall q :: OnBoard(b, q) && Adjacent(q, p) ==> q in next || Settled(b[q.y][q.x])
  {
  }

  /** One flood step keeps FloodInv. */
  lemma FloodStep(b0: Board, initial: seq<Pos>, b: Board, expanded: seq<Pos>, wl: seq<Pos>)
    requires Shaped(b0) && wl != []
    requires FloodInv(b0, initial, b, expanded, wl)
    ensures FloodInv(b0, initial, StepBoard(b, wl), StepExpanded(b, wl, expanded), wl[..|wl| - 1] + StepPushed(b, wl))
  {
    var p, rest := wl[|wl| - 1], wl[..|wl| - 1];
    FloodPop(b0, initial, b, expanded, wl);
    var b': Board := StepBoard(b, wl);
    if b[p.y][p.x].mineNearBy > 0 {
      assert rest + [] == rest;
      assert b'[p.y][p.x].mineNearBy > 0;
    } else {
      FrontierUnsettled(b', p);
      assert p in wl;
      FloodExpand(b0, initial, b', expanded, rest, p, NearByTiles(b', p.x, p.y, false));
    }
  }

  /**
   * Revealing a further starting cell `p` (one that was neither flagged nor a mine when
   * the flood began) and pushing its frontier keeps FloodInv, with `p` added to the starts.
   */
  lemma FloodSeed(b0: Board, initial: seq<Pos>, b: Board, expanded: seq<Pos>, wl: seq<Pos>, p: Pos)
    requires Shaped(b0)
    requires FloodInv(b0, initial, b, expanded, wl)
    requires OnBoard(b0, p) && !b0[p.y][p.x].isFlagged && !b0[p.y][p.x].isMine
    ensures FloodInv(b0, initial + [p], RevealAt(b, p), RevealExpanded(b, p, expanded), wl + RevealPushed(b, p))
  {
    var b': Board := RevealAt(b, p);
    var starts := initial + [p];
    var s := b[p.y][p.x];
    SeedRevealed(b0, initial, b, expanded, wl, p);
    if s.mineNearBy > 0 {
      assert wl + [] == wl;
      assert b'[p.y][p.x].mineNearBy > 0;
    } else {
      FrontierUnsettled(b', p);
      assert Reachable(p, starts, expanded);
      FloodExpand(b0, starts, b', expanded, wl, p, NearByTiles(b', p.x, p.y, false));
    }
  }

  /** Revealing a new first cell `p` keeps the flood's invariant, except ZeroExpanded for `p`, before its frontier is pushed. */
  lemma SeedRevealed(b0: Board, initial: seq<Pos>, b: Board, expanded: seq<Pos>, wl: seq<Pos>, p: Pos)
    requires Shaped(b0)
    requires FloodInv(b0, initial, b, expanded, wl)
    requires OnBoard(b0, p) && !b0[p.y][p.x].isFlagged && !b0[p.y][p.x].isMine
    ensures FloodInvBut(b0, initial + [p], RevealAt(b, p), expanded, wl, p)
  {
    var b' := RevealAt(b, p);
    var starts := initial + [p];
    var s := b[p.y][p.x];
    assert b'[p.y][p.x] == s.Reveal();
    RevealIdempotent(s);
    assert RevealsOnly(b, b');
    RevealsOnlyTrans(b0, b, b');
    assert forall q :: q in starts <==> q in initial || q == p;
    GrownFromMore(initial, starts, expanded);
    assert FloodCore(b0, starts, b', expanded, wl);
    forall q | q != p ensures ZeroExpanded(b0, starts, b', expanded, wl, q) {
      assert ZeroExpanded(b0, initial, b, expanded, wl, q);
    }
  }

  /**
   * A double click on a hidden non-mine at `p` reveals it and then reveals it again as the
   * flood's first cell: the second reveal changes nothing, its frontier is the first one's,
   * and the flood from `p` alone starts from there.
   */
  lemma FloodFromOne(b: Board, p: Pos)
    requires Shaped(b) && OnBoard(b, p) && !b[p.y][p.x].isFlagged && !b[p.y][p.x].isMine
    ensures RevealAt(RevealAt(b, p), p) == RevealAt(b, p)
    ensures RevealPushed(RevealAt(b, p), p) == RevealPushed(b, p)
    ensures FloodInv(b, [p], RevealAt(b, p), RevealExpanded(b, p, []), RevealPushed(b, p))
  {
    RevealIdempotent(b[p.y][p.x]);
    var r := RevealAt(b, p);
    assert r[p.y][p.x] == b[p.y][p.x].Reveal();
    assert r[p.y][p.x := r[p.y][p.x].Reveal()] == r[p.y];
    assert RevealAt(r, p) == r;
    FloodStart(b, []);
    FloodSeed(b, [], b, [], [], p);
    var pushed := RevealPushed(b, p);
    assert [] + [p] == [p] && [] + pushed == pushed;
  }

  /** The lexicographic measure (hidden tiles, entries on revealed zeros, worklist length) drops at every step. */
  lemma FloodStepDecreases(b0: Board, initial: seq<Pos>, b: Board, expanded: seq<Pos>, wl: seq<Pos>)
    requires Shaped(b0) && wl != []
    requires FloodInv(b0, initial, b, expanded, wl)
    ensures var b', wl' := StepBoard(b, wl), wl[..|wl| - 1] + StepPushed(b, wl);
      forall q :: q in wl' ==> 0 <= q.y < |b'| && 0 <= q.x < |b'[q.y]|
    ensures var b', wl' := StepBoard(b, wl), wl[..|wl| - 1] + StepPushed(b, wl);
      Hidden(b') < Hidden(b)
      || (Hidden(b') == Hidden(b) && ZeroEntries(b', wl') < ZeroEntries(b, wl))
      || (Hidden(b') == Hidden(b) && ZeroEntries(b', wl') == ZeroEntries(b, wl) && |wl'| < |wl|)
  {
    FloodStep(b0, initial, b, expanded, wl);
    var p, rest := wl[|wl| - 1], wl[..|wl| - 1];
    assert p in wl;
    var b', pushed := StepBoard(b, wl), StepPushed(b, wl);
    HiddenAfterReveal(b, p);
    if b[p.y][p.x].isRevealed {
      RevealIdempotent(b[p.y][p.x]);
      assert b[p.y][p.x := b[p.y][p.x]] == b[p.y];
      assert b' == b;
      ZeroEntriesAppend(b, rest, pushed);
      ZeroEntriesNone(b, pushed);
    }
  }

  /**
   * A flood whose worklist has run empty is closed: every neighbour of a zero it started
   * from or revealed is revealed, flagged or a mine.
   */
  lemma FloodClosed(b0: Board, initial: seq<Pos>, b: Board, expanded: seq<Pos>)
    requires Shaped(b0)
    requires FloodInv(b0, initial, b, expanded, [])
    ensures forall p, q :: FloodZero(b0, initial, b, p) && OnBoard(b0, q) && Adjacent(q, p) ==> Settled(b[q.y][q.x])
  {
    forall p, q | FloodZero(b0, initial, b, p) && OnBoard(b0, q) && Adjacent(q, p) ensures Settled(b[q.y][q.x]) {
      assert ZeroExpanded(b0, initial, b, expanded, [], p);
    }
  }

  /**
   * The flood only reaches what it can walk to from its starts: when every tile of row `r`
   * shows a positive count and every start lies below that row, no tile above it changes.
   */
  lemma FloodStopsAtNumberRow(b0: Board, initial: seq<Pos>, b: Board, expanded: seq<Pos>, wl: seq<Pos>, r: int)
    requires Shaped(b0)
    requires FloodCore(b0, initial, b, expanded, wl)
    requires 0 <= r < |b0|
    requires forall x :: 0 <= x < CellPerFloor ==> b0[r][x].mineNearBy > 0
    requires forall q :: q in initial ==> q.y > r
    ensures forall y, x :: 0 <= y < r && 0 <= x < CellPerFloor ==> b[y][x] == b0[y][x]
  {
    forall k | 0 <= k < |expanded|
      ensures expanded[k].y != r
    {
      var e := expanded[k];
      assert e in expanded;
      assert b[r][e.x].mineNearBy > 0 by {
        assert b0[r][e.x].mineNearBy > 0;
      }
    }
    forall y, x | 0 <= y < r && 0 <= x < CellPerFloor
      ensures b[y][x] == b0[y][x]
    {
      if b[y][x] != b0[y][x] {
        assert Reachable(Pos(x, y), initial, expanded);
        var p :| p in expanded && Adjacent(Pos(x, y), p);
        var j :| 0 <= j < |expanded| && expanded[j] == p;
        GrownBelowRow(initial, expanded, r, j);
      }
    }
  }

  /**
   * The flood expands only zeros it started from or revealed itself: a zero that was already
   * open before the flood, and is not one of its starts, is never expanded (the worklist
   * never holds it).
   */
  lemma FloodExpandsOwnZeros(b0: Board, initial: seq<Pos>, b: Board, expanded: seq<Pos>, wl: seq<Pos>)
    requires Shaped(b0)
    requires FloodCore(b0, initial, b, expanded, wl)
    ensures forall p :: p in expanded ==> FloodZero(b0, initial, b, p)
    ensures forall p :: p in expanded && p !in initial ==> !b0[p.y][p.x].isRevealed
  {
    forall p | p in expanded ensures FloodZero(b0, initial, b, p) {
      if p !in initial {
        assert !b0[p.y][p.x].isRevealed && b[p.y][p.x].isRevealed;
      }
    }
  }

  // ----- Flags and the chord (clickOnTile) -----

  function FlagAt(b: Board, p: Pos): (r: Board)
    requires Shaped(b) && OnBoard(b, p)
    ensures Shaped(r) && |r| == |b|
  {
    b[p.y := b[p.y][p.x := b[p.y][p.x].Flag()]]
  }

  /** A second click on the same hidden tile puts the board back as it was. */
  lemma FlagAtTwice(b: Board, p: Pos)
    requires Shaped(b) && OnBoard(b, p)
    ensures FlagAt(FlagAt(b, p), p) == b
  {
    FlagTwiceRestores(b[p.y][p.x]);
    assert FlagAt(FlagAt(b, p), p)[p.y] == b[p.y];
  }

  /** A neighbour the chord counts as marked: flagged, or a mine already revealed. */
  predicate FlagLike(s: TileState)
  {
    s.isFlagged || (s.isRevealed && s.isMine)
  }

  /** How many of the neighbours `ps` the chord counts as marked. */
  function FlagLikeCount(b: Board, ps: seq<Pos>): (n: nat)
    requires forall q :: q in ps ==> 0 <= q.y < |b| && 0 <= q.x < |b[q.y]|
    ensures n <= |ps|
  {
    if ps == [] then 0
    else
      var last := ps[|ps| - 1];
      FlagLikeCount(b, ps[..|ps| - 1]) + if FlagLike(b[last.y][last.x]) then 1 else 0
  }

  /** The chord's marked count never shrinks as more of the neighbours are looked at. */
  lemma {:induction false} FlagLikeCountPrefix(b: Board, ps: seq<Pos>, i: int)
    requires forall q :: q in ps ==> 0 <= q.y < |b| && 0 <= q.x < |b[q.y]|
    requires 0 <= i <= |ps|
    ensures FlagLikeCount(b, ps[..i]) <= FlagLikeCount(b, ps)
  {
    if i == |ps| {
      assert ps[..i] == ps;
    } else {
      var front := ps[..|ps| - 1];
      assert front[..i] == ps[..i];
      FlagLikeCountPrefix(b, front, i);
    }
  }

  /** The places in `ps` of the neighbours the chord counts as marked. */
  function MarkedAt(b: Board, ps: seq<Pos>): set<int>
    requires forall q :: q in ps ==> 0 <= q.y < |b| && 0 <= q.x < |b[q.y]|
  {
    set k | 0 <= k < |ps| && FlagLike(b[ps[k].y][ps[k].x])
  }

  /** The chord's marked count is the number of neighbours that are flagged or revealed mines. */
  lemma {:induction false} FlagLikeCountIsMarked(b: Board, ps: seq<Pos>)
    requires forall q :: q in ps ==> 0 <= q.y < |b| && 0 <= q.x < |b[q.y]|
    ensures FlagLikeCount(b, ps) == |MarkedAt(b, ps)|
  {
    if ps != [] {
      var front, last := ps[..|ps| - 1], |ps| - 1;
      FlagLikeCountIsMarked(b, front);
      var extra := if FlagLike(b[ps[last].y][ps[last].x]) then {last} else {};
      assert MarkedAt(b, ps) == MarkedAt(b, front) + extra;
      assert last !in MarkedAt(b, front);
    }
  }

  /** The neighbours the chord reveals: those it does not count as marked, in frontier order. */
  function ChordTargets(b: Board, ps: seq<Pos>): (r: seq<Pos>)
    requires forall q :: q in ps ==> 0 <= q.y < |b| && 0 <= q.x < |b[q.y]|
    ensures forall q :: q in r <==> q in ps && !FlagLike(b[q.y][q.x])
    ensures |r| + FlagLikeCount(b, ps) == |ps|
  {
    if ps == [] then []
    else
      var front, last := ps[..|ps| - 1], ps[|ps| - 1];
      assert ps == front + [last];
      ChordTargets(b, front) + if FlagLike(b[last.y][last.x]) then [] else [last]
  }

  /** Entries of `ps` that hold a mine. */
  function MinesAmong(b: Board, ps: seq<Pos>): (n: nat)
    requires forall q :: q in ps ==> 0 <= q.y < |b| && 0 <= q.x < |b[q.y]|
    ensures n <= |ps|
    ensures n == 0 <==> forall q :: q in ps ==> !b[q.y][q.x].isMine
  {
    if ps == [] then 0
    else
      var front, last := ps[..|ps| - 1], ps[|ps| - 1];
      assert ps == front + [last];
      MinesAmong(b, front) + if b[last.y][last.x].isMine then 1 else 0
  }

  /** Reveal every position of `ps`, in order: every listed tile is revealed and no other changes. */
  function RevealAll(b: Board, ps: seq<Pos>): (r: Board)
    requires Shaped(b) && forall q :: q in ps ==> 0 <= q.y < |b| && 0 <= q.x < CellPerFloor
    ensures Shaped(r) && |r| == |b|
    ensures forall y, x :: 0 <= y < |b| && 0 <= x < CellPerFloor ==>
              r[y][x] == if Pos(x, y) in ps then b[y][x].Reveal() else b[y][x]
  {
    if ps == [] then b
    else
      var front, last := ps[..|ps| - 1], ps[|ps| - 1];
      assert ps == front + [last] && last in ps;
      RevealIdempotent(b[last.y][last.x]);
      RevealAt(RevealAll(b, front), last)
  }

  /** What the chord reveals are hidden, unflagged neighbours inside the board. */
  lemma ChordTargetsHidden(b: Board, x: int, y: int)
    requires Shaped(b) && OnBoard(b, Pos(x, y))
    ensures var targets := ChordTargets(b, NearByTiles(b, x, y, true));
      forall q :: q in targets ==>
        OnBoard(b, q) && Adjacent(q, Pos(x, y)) && !b[q.y][q.x].isRevealed && !b[q.y][q.x].isFlagged
    ensures Unflagged(b, ChordTargets(b, NearByTiles(b, x, y, true)))
  {
  }

  /** Every position of `ps` is on the board and not flagged. */
  predicate Unflagged(b: Board, ps: seq<Pos>)
  {
    forall q :: q in ps ==> 0 <= q.y < |b| && 0 <= q.x < CellPerFloor == |b[q.y]| && !b[q.y][q.x].isFlagged
  }

  /** One more neighbour looked at by the chord survey. */
  lemma ChordPrefix(b: Board, ps: seq<Pos>, i: int)
    requires forall q :: q in ps ==> 0 <= q.y < |b| && 0 <= q.x < |b[q.y]|
    requires 0 <= i < |ps|
    ensures var q := ps[i]; 0 <= q.y < |b| && 0 <= q.x < |b[q.y]|
    ensures var q := ps[i];
      FlagLikeCount(b, ps[..i + 1]) == FlagLikeCount(b, ps[..i]) + (if FlagLike(b[q.y][q.x]) then 1 else 0)
    ensures var q := ps[i];
      ChordTargets(b, ps[..i + 1]) == ChordTargets(b, ps[..i]) + (if FlagLike(b[q.y][q.x]) then [] else [q])
  {
    assert ps[i] in ps;
    assert ps[..i + 1][..i] == ps[..i];
  }

  /** One more chord target revealed. */
  lemma RevealSnoc(b: Board, ps: seq<Pos>, p: Pos)
    requires Shaped(b) && OnBoard(b, p) && forall q :: q in ps ==> 0 <= q.y < |b| && 0 <= q.x < CellPerFloor
    ensures forall q :: q in ps + [p] ==> 0 <= q.y < |b| && 0 <= q.x < CellPerFloor
    ensures MinesAmong(b, ps + [p]) == MinesAmong(b, ps) + (if b[p.y][p.x].isMine then 1 else 0)
    ensures RevealAll(b, ps + [p]) == RevealAt(RevealAll(b, ps), p)
  {
    assert (ps + [p])[..|ps|] == ps;
  }
}
