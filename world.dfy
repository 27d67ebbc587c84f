/**
 * The game world (src/GameWorldHandler.ts): the grid of tile objects, the counters and
 * the board position that its methods update in place. Pixel geometry is kept in exact
 * reals; the canvas size, the per-frame advance and the output of the random band loop
 * of mine generation are parameters.
 */
module World {
  import opened Wrappers
  import opened Grid
  import opened Tiles
  import opened Constants
  import opened MineMaps
  import opened Boards
  import opened Floors

  datatype Status = Pending | Ready | Started | Win | GameOver | Paused | TimeStopped

  /** The two exceptions `reset` throws. */
  datatype ResetError = MissingMineMap | MissingPlayerInfo

  /** What `!n` sees as no number: a missing one or zero. */
  predicate Falsy(n: Option<int>)
  {
    n.None? || n.value == 0
  }

  /** Every floor of the grid has CellPerFloor tiles. */
  predicate RowsShaped(ts: seq<seq<Tile>>)
  {
    forall i :: 0 <= i < |ts| ==> |ts[i]| == CellPerFloor
  }

  /** No tile object appears at two places of the grid. */
  ghost predicate DistinctTiles(ts: seq<seq<Tile>>)
  {
    forall i, j, k, l :: 0 <= i < |ts| && 0 <= j < |ts[i]| && 0 <= k < |ts| && 0 <= l < |ts[k]| && (i != k || j != l)
      ==> ts[i][j] != ts[k][l]
  }

  ghost function Objects(ts: seq<seq<Tile>>): set<Tile>
  {
    set i, t | 0 <= i < |ts| && t in ts[i] :: t
  }

  function RowView(row: seq<Tile>): (r: seq<TileState>)
    reads set t | t in row
    ensures |r| == |row|
    ensures forall j :: 0 <= j < |row| ==> r[j] == row[j].State()
  {
    if row == [] then [] else RowView(row[..|row| - 1]) + [row[|row| - 1].State()]
  }

  /** The states of a grid of tiles, as a board value. */
  function BoardView(ts: seq<seq<Tile>>): (b: Board)
    reads Objects(ts)
    ensures |b| == |ts|
    ensures forall i :: 0 <= i < |ts| ==> |b[i]| == |ts[i]|
    ensures forall i, j :: 0 <= i < |ts| && 0 <= j < |ts[i]| ==> b[i][j] == ts[i][j].State()
  {
    if ts == [] then []
    else
      assert forall t :: t in ts[|ts| - 1] ==> t in Objects(ts);
      BoardView(ts[..|ts| - 1]) + [RowView(ts[|ts| - 1])]
  }

  /**
   * The height of `k` floors of tiles `t` pixels high, k * t (SpanIsProduct), stacked floor
   * by floor so that sums of heights stay sums.
   */
  function Span(k: nat, t: real): real
  {
    if k == 0 then 0.0 else Span(k - 1, t) + t
  }

  lemma {:induction false} SpanIsProduct(k: nat, t: real)
    ensures Span(k, t) == k as real * t
  {
    if k > 0 {
      SpanIsProduct(k - 1, t);
    }
  }

  /** Stacking `n` floors and then `k` more gives `n + k` floors. */
  lemma {:induction false} SpanAdd(n: nat, k: nat, t: real)
    ensures Span(n, t) + Span(k, t) == Span(n + k, t)
  {
    if k > 0 {
      SpanAdd(n, k - 1, t);
    }
  }

  /** An offset into a board `n` floors tall lies on one of its floors. */
  lemma FloorOfSpan(a: real, t: real, n: nat)
    requires t > 0.0 && 0.0 <= a < Span(n, t)
    ensures 0 <= (a / t).Floor < n
  {
    SpanIsProduct(n, t);
    FloorIndex(a, t, n);
  }

  /** A board index from a pixel offset: 0 <= a < t * n puts floor(a / t) in [0, n). */
  lemma FloorIndex(a: real, t: real, n: int)
    requires t > 0.0 && 0.0 <= a < t * n as real
    ensures 0 <= (a / t).Floor < n
  {
    assert (a / t) * t == a;
    assert a / t < n as real;
  }

  /** The tile under the pointer (px, py) when the board's top edge is at `top`. */
  function PointerTile(px: real, py: real, top: real, tileSize: real): Pos
    requires tileSize > 0.0
  {
    Pos((px / tileSize).Floor, ((py - top) / tileSize).Floor)
  }

  /** A pointer over a board `n` floors tall and one floor wide lies on one of its tiles. */
  lemma PointerOnBoard(px: real, py: real, top: real, tileSize: real, n: nat)
    requires tileSize > 0.0 && 0.0 <= px < tileSize * CellPerFloor as real
    requires top < py < top + Span(n, tileSize)
    ensures InBounds(PointerTile(px, py, top, tileSize), n, CellPerFloor)
  {
    FloorIndex(px, tileSize, CellPerFloor);
    FloorOfSpan(py - top, tileSize, n);
  }

  /**
   * After the chord has revealed the targets `done` of `b`, giving `v`: every one of them
   * is revealed and nothing else changed; `mines` of them were mines; and when none was,
   * the reveals form a flood from `done` whose unfinished worklist is `next`.
   */
  ghost predicate ChordRevealed(b: Board, done: seq<Pos>, v: Board, mines: nat, expanded: seq<Pos>, next: seq<Pos>)
  {
    && Shaped(b) && (forall q :: q in done ==> 0 <= q.y < |b| && 0 <= q.x < CellPerFloor)
    && v == RevealAll(b, done)
    && mines == MinesAmong(b, done)
    && (mines == 0 ==> Boards.FloodInv(b, done, v, expanded, next))
  }

  /** Revealing one more target keeps ChordRevealed, with the mine tally and the flood advanced. */
  lemma ChordRevealedStep(b: Board, done: seq<Pos>, v: Board, mines: nat, expanded: seq<Pos>, next: seq<Pos>, pos: Pos)
    requires ChordRevealed(b, done, v, mines, expanded, next)
    requires OnBoard(b, pos) && !b[pos.y][pos.x].isFlagged
    ensures v[pos.y][pos.x].isMine == b[pos.y][pos.x].isMine
    ensures var m := if b[pos.y][pos.x].isMine then mines + 1 else mines;
      ChordRevealed(b, done + [pos], RevealAt(v, pos), m,
                    if m == 0 then RevealExpanded(v, pos, expanded) else expanded,
                    if m == 0 then next + RevealPushed(v, pos) else next)
  {
    RevealSnoc(b, done, pos);
    if mines == 0 && !b[pos.y][pos.x].isMine {
      FloodSeed(b, done, v, expanded, next, pos);
    }
  }

  /**
   * What the chord on the revealed number at (x, y) of `b` does. Marks are flagged tiles
   * and revealed mines among the neighbours; when they do not match the number nothing
   * changes; when they do, every unmarked neighbour is revealed, and then either some of
   * those were mines (`lost` of them, and the board drops one tile) or the reveals flood
   * from every revealed zero.
   */
  ghost predicate ChordOutcome(b: Board, x: int, y: int, b': Board, expanded: seq<Pos>, lost: int, drop: bool)
    requires Shaped(b) && OnBoard(b, Pos(x, y))
  {
    var around := NearByTiles(b, x, y, true);
    var targets := ChordTargets(b, around);
    var mines := MinesAmong(b, targets);
    if FlagLikeCount(b, around) != b[y][x].mineNearBy then
      b' == b && lost == 0 && !drop
    else if mines > 0 then
      b' == RevealAll(b, targets) && lost == mines && drop
    else
      lost == 0 && !drop && Boards.FloodInv(b, targets, b', expanded, [])
  }

  /**
   * What a pointer action of kind `action` on the tile at `p` does to the board, how many
   * mines it takes off the remaining count (`lost`, negative when it puts one back) and
   * whether the board drops one tile. A revealed number chords (ChordOutcome) whatever the
   * kind. Otherwise a click on a hidden tile toggles its flag, and a new flag takes one off
   * the count while a removed one gives it back; a double click on a revealable tile
   * reveals it, and a mine costs one and drops the board, while anything else floods
   * from it. Every other case changes nothing.
   */
  ghost predicate TileOutcome(b: Board, p: Pos, action: ActionType, b': Board, expanded: seq<Pos>, lost: int, drop: bool)
    requires Shaped(b) && OnBoard(b, p)
  {
    var s := b[p.y][p.x];
    if s.isRevealed && s.mineNearBy > 0 then
      ChordOutcome(b, p.x, p.y, b', expanded, lost, drop)
    else if action == Click && !s.isRevealed then
      b' == FlagAt(b, p) && lost == (if s.isFlagged then -1 else 1) && !drop
    else if action == DbClick && s.Revealable() then
      if s.isMine then b' == RevealAt(b, p) && lost == 1 && drop
      else lost == 0 && !drop && Boards.FloodInv(b, [p], b', expanded, [])
    else
      b' == b && lost == 0 && !drop
  }

  /**
   * A click as the game sees it: the board moves as TileOutcome says, the remaining-mine
   * count goes from `rem` to `rem'`, and the board position from `py` to `py'`, one tile
   * lower exactly when the action drops it (with a positive tile size, the position moved
   * exactly when it dropped).
   */
  ghost predicate ClickOutcome(b: Board, p: Pos, action: ActionType, b': Board, expanded: seq<Pos>,
                               rem: int, rem': int, py: real, py': real, tileSize: real)
    requires Shaped(b) && OnBoard(b, p) && tileSize > 0.0
  {
    var drop := py' != py;
    TileOutcome(b, p, action, b', expanded, rem - rem', drop) && py' == (if drop then py + tileSize else py)
  }

  /** The click's bookkeeping: `lost` comes off the count and a drop lowers the board one tile. */
  lemma ClickOutcomeOf(b: Board, p: Pos, action: ActionType, b': Board, expanded: seq<Pos>,
                       lost: int, drop: bool, rem: int, rem': int, py: real, py': real, tileSize: real)
    requires Shaped(b) && OnBoard(b, p) && tileSize > 0.0
    requires TileOutcome(b, p, action, b', expanded, lost, drop)
    requires rem' == rem - lost && py' == if drop then py + tileSize else py
    ensures ClickOutcome(b, p, action, b', expanded, rem, rem', py, py', tileSize)
  {
    assert rem - rem' == lost;
  }

  /** Whatever a click does to the board, it keeps its layout: play changes only flags and reveals. */
  lemma ClickKeepsLayout(b: Board, p: Pos, action: ActionType, b': Board, expanded: seq<Pos>, lost: int, drop: bool)
    requires Shaped(b) && OnBoard(b, p)
    requires TileOutcome(b, p, action, b', expanded, lost, drop)
    ensures SameLayout(b, b')
  {
    var s := b[p.y][p.x];
    if s.isRevealed && s.mineNearBy > 0 {
      var targets := ChordTargets(b, NearByTiles(b, p.x, p.y, true));
      if FlagLikeCount(b, NearByTiles(b, p.x, p.y, true)) != s.mineNearBy {
      } else if MinesAmong(b, targets) > 0 {
        RevealAllKeepsLayout(b, targets);
      } else {
        RevealsKeepLayout(b, b');
      }
    } else if action == Click && !s.isRevealed {
      FlagKeepsLayout(b, p);
    } else if action == DbClick && s.Revealable() && !s.isMine {
      RevealsKeepLayout(b, b');
    }
  }

  /**
   * A click that does not drop the board leaves no revealed zero half done: every zero it
   * revealed has all its neighbours revealed, flagged or mines. (A chord or double click
   * that hits a mine drops the board, and then the source floods nothing.)
   */
  lemma ClickClosesZeros(b: Board, p: Pos, action: ActionType, b': Board, expanded: seq<Pos>, lost: int, drop: bool)
    requires Shaped(b) && OnBoard(b, p)
    requires TileOutcome(b, p, action, b', expanded, lost, drop) && !drop
    ensures Shaped(b') && |b'| == |b|
    ensures forall q, r ::
      OnBoard(b, q) && b'[q.y][q.x] != b[q.y][q.x] && OpenZero(b'[q.y][q.x]) && OnBoard(b, r) && Adjacent(r, q)
      ==> Settled(b'[r.y][r.x])
  {
    ClickKeepsLayout(b, p, action, b', expanded, lost, drop);
    var s := b[p.y][p.x];
    if s.isRevealed && s.mineNearBy > 0 {
      var targets := ChordTargets(b, NearByTiles(b, p.x, p.y, true));
      if FlagLikeCount(b, NearByTiles(b, p.x, p.y, true)) == s.mineNearBy && MinesAmong(b, targets) == 0 {
        FloodClosed(b, targets, b', expanded);
      }
    } else if action == DbClick && s.Revealable() && !s.isMine {
      FloodClosed(b, [p], b', expanded);
    }
  }

  /**
   * A click on a hidden tile changes nothing beyond what it can reach: when every tile of
   * row `r` shows a positive count and the tile lies below that row, the rows above it are
   * untouched, whatever the flood from a double click opens.
   */
  lemma ClickStopsAtNumberRow(b: Board, p: Pos, action: ActionType, b': Board, expanded: seq<Pos>,
                              lost: int, drop: bool, r: int)
    requires Shaped(b) && OnBoard(b, p) && !b[p.y][p.x].isRevealed
    requires TileOutcome(b, p, action, b', expanded, lost, drop)
    requires 0 <= r < p.y
    requires forall x :: 0 <= x < CellPerFloor ==> b[r][x].mineNearBy > 0
    ensures forall y, x :: 0 <= y < r && 0 <= x < CellPerFloor ==> b'[y][x] == b[y][x]
  {
    var s := b[p.y][p.x];
    if action == DbClick && s.Revealable() && !s.isMine {
      FloodStopsAtNumberRow(b, [p], b', expanded, [], r);
    }
  }

  /**
   * A double click on a hidden safe tile floods from that tile alone: a tile that was
   * revealed before the click is never expanded, so the flood never walks through zeros
   * opened earlier.
   */
  lemma ClickSkipsOpenTiles(b: Board, p: Pos, b': Board, expanded: seq<Pos>, lost: int, drop: bool, q: Pos)
    requires Shaped(b) && OnBoard(b, p) && !b[p.y][p.x].isRevealed && !b[p.y][p.x].isFlagged
    requires !b[p.y][p.x].isMine
    requires TileOutcome(b, p, DbClick, b', expanded, lost, drop)
    requires OnBoard(b, q) && b[q.y][q.x].isRevealed
    ensures q !in expanded
  {
    assert Boards.FloodInv(b, [p], b', expanded, []);
    Boards.FloodExpandsOwnZeros(b, [p], b', expanded, []);
    assert q !in [p];
  }

  /** Two clicks on a hidden tile put back both the board and the remaining-mine count. */
  lemma ClickTwiceRestores(b: Board, p: Pos, b1: Board, b2: Board, e1: seq<Pos>, e2: seq<Pos>,
                           l1: int, l2: int, d1: bool, d2: bool)
    requires Shaped(b) && OnBoard(b, p) && !b[p.y][p.x].isRevealed
    requires TileOutcome(b, p, Click, b1, e1, l1, d1)
    requires Shaped(b1) && |b1| == |b|
    requires TileOutcome(b1, p, Click, b2, e2, l2, d2)
    ensures b2 == b && l1 + l2 == 0 && !d1 && !d2
  {
    FlagAtTwice(b, p);
  }

  /** The chord's outcome from what its survey, its reveals and its flood established. */
  lemma ChordOutcomeOf(b: Board, x: int, y: int, ok: bool, targets: seq<Pos>, b': Board, expanded: seq<Pos>, lost: nat)
    requires Shaped(b) && OnBoard(b, Pos(x, y))
    requires ok <==> FlagLikeCount(b, NearByTiles(b, x, y, true)) == b[y][x].mineNearBy
    requires !ok ==> b' == b && lost == 0
    requires ok ==> targets == ChordTargets(b, NearByTiles(b, x, y, true)) && lost == MinesAmong(b, targets)
    requires ok && lost > 0 ==> b' == RevealAll(b, targets)
    requires ok && lost == 0 ==> Boards.FloodInv(b, targets, b', expanded, [])
    ensures ChordOutcome(b, x, y, b', expanded, lost, lost > 0)
  {
  }

  /**
   * The survey half of the chord: walk the counting-mode frontier `surroundings` of a
   * tile showing `count`, counting marked neighbours and collecting the rest, and give up
   * as soon as the marks exceed the count. It succeeds exactly when the marks match the
   * count, and then hands back every unmarked neighbour in frontier order.
   */
  method ChordSurvey(b: Board, surroundings: seq<Pos>, count: nat) returns (ok: bool, revealables: seq<Pos>)
    requires forall q :: q in surroundings ==> 0 <= q.y < |b| && 0 <= q.x < |b[q.y]|
    ensures ok <==> FlagLikeCount(b, surroundings) == count
    ensures ok ==> revealables == ChordTargets(b, surroundings)
  {
    var flagCounts := 0;
    revealables := [];
    for i := 0 to |surroundings|
      invariant flagCounts == FlagLikeCount(b, surroundings[..i]) && flagCounts <= count
      invariant revealables == ChordTargets(b, surroundings[..i])
    {
      var pos := surroundings[i];
      ChordPrefix(b, surroundings, i);
      var neighbour := b[pos.y][pos.x];
      if neighbour.isFlagged || (neighbour.isRevealed && neighbour.isMine) {
        flagCounts := flagCounts + 1;
        if flagCounts > count {
          FlagLikeCountPrefix(b, surroundings, i + 1);
          return false, [];
        }
      } else {
        revealables := revealables + [pos];
      }
    }
    assert surroundings[..|surroundings|] == surroundings;
    ok := flagCounts == count;
  }

  /**
   * The inspection of the floor the board is crossing: it fails at the first tile that is
   * safe but flagged or still hidden, and otherwise counts the mines that carry no flag.
   */
  method InspectFloor(row: seq<Tile>, ghost r: seq<TileState>) returns (failed: bool, mines: nat)
    requires r == RowView(row)
    ensures failed <==> FloorFailed(r)
    ensures !failed ==> mines == UnflaggedMines(r)
  {
    mines := 0;
    for i := 0 to |row|
      invariant forall j :: 0 <= j < i ==> !Misplayed(r[j])
      invariant mines == UnflaggedMines(r[..i])
    {
      var tile := row[i];
      assert r[..i + 1][..i] == r[..i];
      if (tile.isFlagged && !tile.isMine) || (!tile.isRevealed && !tile.isMine) {
        assert Misplayed(r[i]);
        return true, mines;
      } else if !tile.isFlagged && tile.isMine {
        mines := mines + 1;
      }
    }
    assert r[..|row|] == r;
    failed := false;
  }

  /** The board of two stacked grids is the two boards stacked. */
  lemma BoardViewConcat(a: seq<seq<Tile>>, c: seq<seq<Tile>>)
    ensures BoardView(a + c) == BoardView(a) + BoardView(c)
  {
    var l, r := BoardView(a + c), BoardView(a) + BoardView(c);
    forall i | 0 <= i < |l| ensures l[i] == r[i] {
      if i < |a| {
        assert |l[i]| == |r[i]|;
      } else {
        assert (a + c)[i] == c[i - |a|];
        assert |l[i]| == |r[i]|;
      }
    }
  }

  /** Dropping the top floor of the grid drops the top row of the board. */
  lemma BoardViewDrop(ts: seq<seq<Tile>>)
    requires |ts| >= 1
    ensures BoardView(ts[1..]) == BoardView(ts)[1..]
  {
    assert ts == [ts[0]] + ts[1..];
    BoardViewConcat([ts[0]], ts[1..]);
  }

  /** Two grids of distinct tiles with no tile in common stack into a grid of distinct tiles. */
  lemma DistinctConcat(a: seq<seq<Tile>>, c: seq<seq<Tile>>)
    requires DistinctTiles(a) && DistinctTiles(c)
    requires forall i, j, k, l :: 0 <= i < |a| && 0 <= j < |a[i]| && 0 <= k < |c| && 0 <= l < |c[k]| ==> a[i][j] != c[k][l]
    ensures DistinctTiles(a + c)
  {
    var s := a + c;
    forall i, j, k, l | 0 <= i < |s| && 0 <= j < |s[i]| && 0 <= k < |s| && 0 <= l < |s[k]| && (i != k || j != l)
      ensures s[i][j] != s[k][l]
    {
      if i >= |a| && k >= |a| {
        assert s[i] == c[i - |a|] && s[k] == c[k - |a|];
      } else if i >= |a| {
        assert s[i] == c[i - |a|];
      } else if k >= |a| {
        assert s[k] == c[k - |a|];
      }
    }
  }

  /** The floors of a grid of distinct tiles below its top one are distinct tiles too. */
  lemma DistinctDrop(ts: seq<seq<Tile>>)
    requires DistinctTiles(ts) && |ts| >= 1
    ensures DistinctTiles(ts[1..])
  {
    var s := ts[1..];
    forall i, j, k, l | 0 <= i < |s| && 0 <= j < |s[i]| && 0 <= k < |s| && 0 <= l < |s[k]| && (i != k || j != l)
      ensures s[i][j] != s[k][l]
    {
      assert s[i] == ts[i + 1] && s[k] == ts[k + 1];
    }
  }

  /** The line the game plays against: an eighth of the view's width above the view's bottom. */
  function PlayLine(viewHeight: real, viewWidth: real): real
  {
    viewHeight - viewWidth / 8.0
  }

  /** The index of the floor that the line `boundary` crosses, on a board whose top edge is at `top`. */
  function FloorUnder(boundary: real, top: real, tileSize: real): int
    requires tileSize > 0.0
  {
    ((boundary - top) / tileSize).Floor
  }

  /** The seamed fresh tiles over the floors below the connection floor show the extended board. */
  lemma StackedView(made: seq<seq<Tile>>, rest: seq<seq<Tile>>, b: Board, carved: MineMap)
    requires Shaped(b) && |b| >= 1 && WellFormed(carved)
    requires BoardView(made) == SeamedTop(carved, b[0]) && BoardView(rest) == b[1..]
    ensures BoardView(made + rest) == Extended(b, carved)
  {
    BoardViewConcat(made, rest);
  }

  /** Distinct tiles made since `old`, stacked over all floors but the top one of a grid that existed then, are distinct. */
  twostate lemma StackedDistinct(new made: seq<seq<Tile>>, ts: seq<seq<Tile>>)
    requires DistinctTiles(made) && DistinctTiles(ts) && |ts| >= 1
    requires forall i, j :: 0 <= i < |made| && 0 <= j < |made[i]| ==> fresh(made[i][j])
    ensures DistinctTiles(made + ts[1..])
  {
    DistinctDrop(ts);
    DistinctConcat(made, ts[1..]);
  }

  /** A row whose tile objects are untouched shows the same states. */
  twostate lemma RowKept(row: seq<Tile>)
    requires unchanged(set t | t in row)
    ensures RowView(row) == old(RowView(row))
  {
  }

  /** Tiles made since `old` are none of the tiles of a row that existed then. */
  twostate lemma FreshRowApart(new made: seq<Tile>, row: seq<Tile>)
    requires forall j :: 0 <= j < |made| ==> fresh(made[j])
    ensures forall j, k :: 0 <= j < |made| && 0 <= k < |row| ==> made[j] != row[k]
  {
  }

  /** The seamed top, from the materialised merged map and the seam row built from it. */
  lemma SeamedTopOf(carved: MineMap, c: seq<TileState>, b: Board, r: Board)
    requires WellFormed(carved) && |c| == CellPerFloor
    requires b == Materialise(Merged(carved, c)) && r == b[..|carved|] + [SeamStates(b[|carved|], c)]
    ensures r == SeamedTop(carved, c)
  {
  }

  /** No tile of `a` is a tile of `b`. */
  predicate Apart(a: seq<Tile>, b: seq<Tile>)
  {
    forall j, k :: 0 <= j < |a| && 0 <= k < |b| ==> a[j] != b[k]
  }

  /** A grid whose tile objects are untouched shows the same board. */
  twostate lemma BoardKept(ts: seq<seq<Tile>>)
    requires unchanged(Objects(ts))
    ensures BoardView(ts) == old(BoardView(ts))
  {
  }

  /** A grid none of whose tiles changed shows the same board. */
  twostate lemma GridUnchanged(ts: seq<seq<Tile>>)
    requires RowsShaped(ts)
    requires forall i, j :: 0 <= i < |ts| && 0 <= j < CellPerFloor ==> unchanged(ts[i][j])
    ensures BoardView(ts) == old(BoardView(ts))
  {
    var b, b0 := BoardView(ts), old(BoardView(ts));
    forall i | 0 <= i < |ts| ensures b[i] == b0[i] {
      assert |b[i]| == |b0[i]|;
    }
  }

  /** The settings of a game: its modes, the canvas width and tile size, the last tile played and the player count and rank. */
  datatype Settings = Settings(gameMode: GameMode, playerMode: PlayerMode, width: real, tileSize: real,
                               lastTilePos: Pos, totalPlayers: int, currentRank: int)

  /**
   * What a frame of updatePos reads and changes besides the game's settings: the status,
   * the board's position, height and start line, the mine counters, the floor last
   * crossed, and the board itself.
   */
  datatype Standing = Standing(status: Status, positionY: real, height: real, startingY: real,
                               totalMines: int, remainingMines: int, currentFloor: int, board: Board)

  /** A board one floor wide, exactly as tall as its floors once it has any. */
  predicate Fits(w: Standing, tileSize: real)
  {
    && Shaped(w.board)
    && (|w.board| > 0 ==> tileSize > 0.0 && w.height == Span(|w.board|, tileSize))
    && (|w.board| == 0 ==> w.height <= 0.0)
  }

  /** Crossing floor `floor`: a misplayed tile ends the game; otherwise its unflagged mines come off the count. */
  function Cross(w: Standing, floor: int): Standing
    requires 0 <= floor < |w.board|
  {
    if FloorFailed(w.board[floor]) then w.(status := GameOver)
    else w.(remainingMines := w.remainingMines - UnflaggedMines(w.board[floor]))
  }

  /**
   * The marathon extension by the fresh map `carved`: its floors and the seam go where the
   * top floor was, the board grows and moves up by the fresh map's height, the start line
   * is drawn again, and both counters grow by the merged map's mines.
   */
  function Grow(w: Standing, carved: MineMap, tileSize: real, viewHeight: real): Standing
    requires Shaped(w.board) && |w.board| >= 1 && WellFormed(carved)
  {
    var lift := Span(|carved|, tileSize);
    var mines := MineCount(Merged(carved, w.board[0]));
    w.(board := Extended(w.board, carved), height := w.height + lift,
       startingY := -(w.height + lift) + viewHeight / 3.0, positionY := w.positionY - lift,
       totalMines := w.totalMines + mines, remainingMines := w.remainingMines + mines)
  }

  /** The standing `s` that has the grown board, counters and height of `w`'s extension is that extension. */
  lemma GrowOf(w: Standing, carved: MineMap, tileSize: real, viewHeight: real, s: Standing)
    requires Shaped(w.board) && |w.board| >= 1 && WellFormed(carved)
    requires s.board == Extended(w.board, carved) && s.status == w.status && s.currentFloor == w.currentFloor
    requires s.totalMines == w.totalMines + MineCount(Merged(carved, w.board[0]))
    requires s.remainingMines == w.remainingMines + MineCount(Merged(carved, w.board[0]))
    requires s.height == w.height + Span(|carved|, tileSize) && s.startingY == -s.height + viewHeight / 3.0
    requires s.positionY + s.height == w.positionY + w.height
    ensures s == Grow(w, carved, tileSize, viewHeight)
  {
  }

  /** The revealable floors of a marathon extension's map: one when the top floor has a revealed tile, none otherwise. */
  function ExtensionRevealable(b: Board): int
  {
    if |b| > 0 && AnyRevealed(b[0]) then 1 else 0
  }

  /** Whether crossing floor `floor` of a board `floors` tall first extends it: a marathon board not yet at its cap, near its top. */
  predicate Extends(mode: GameMode, floors: int, floor: int)
  {
    mode == Marathon && floors < TotalMarathonFloors && floor <= TotalFloors(Marathon) / 2
  }

  /** What a frame of updatePos does, decided before anything changes. */
  datatype Phase =
    | Idle                 // single player, not started
    | Won                  // no mine left, or the board's top passed the line
    | Above                // the board does not reach the line yet
    | SameFloor            // the floor under the line was reached already
    | NewFloor(floor: int) // a floor not reached before is under the line

  /**
   * The phase of a frame that moves the board `w` by `advance` towards the line at
   * `boundary`; the index of the floor under the line is measured from the board's top.
   */
  function PhaseOf(w: Standing, player: PlayerMode, tileSize: real, advance: real, boundary: real): (p: Phase)
    requires Fits(w, tileSize)
    ensures p.NewFloor? ==> 0 <= p.floor < |w.board| && Reaches(w.(positionY := w.positionY + advance), tileSize, boundary, p.floor)
  {
    var y := w.positionY + advance;
    if player == Single && w.status != Started then Idle
    else if w.remainingMines == 0 || y > boundary then Won
    else if y + w.height <= boundary then Above
    else
      FloorOfSpan(boundary - y, tileSize, |w.board|);
      var floor := FloorUnder(boundary, y, tileSize);
      if w.currentFloor == |w.board| - floor then SameFloor else NewFloor(floor)
  }

  /** The board `w` reaches over the line at `boundary`, and `floor` is the floor under it. */
  predicate Reaches(w: Standing, tileSize: real, boundary: real, floor: int)
  {
    && Fits(w, tileSize) && 0.0 <= boundary - w.positionY < w.height
    && tileSize > 0.0 && floor == FloorUnder(boundary, w.positionY, tileSize) && 0 <= floor < |w.board|
  }

  /**
   * The board `w` arrives at floor `floor` under the line: it records that floor, counted
   * from the bottom; a marathon board that must grow does so by `carved`; and the floor
   * under the line is crossed. On a grown board that is floor `floor + |carved|`: the
   * same floor, below the new ones (FloorAfterGrowth). Neither the growth nor the crossing
   * reads the recorded floor, so it is written last here.
   */
  function Arrive(w: Standing, mode: GameMode, tileSize: real, boundary: real, floor: int,
                  viewHeight: real, carved: MineMap): Standing
    requires Reaches(w, tileSize, boundary, floor) && WellFormed(carved)
  {
    var crossed :=
      if Extends(mode, |w.board|, floor) then Cross(Grow(w, carved, tileSize, viewHeight), floor + |carved|)
      else Cross(w, floor);
    crossed.(currentFloor := |w.board| - floor)
  }

  /** Whether the frame reaches a new floor of a marathon board that still grows. */
  predicate Grows(w: Standing, mode: GameMode, player: PlayerMode, tileSize: real, advance: real, boundary: real)
    requires Fits(w, tileSize)
  {
    var p := PhaseOf(w, player, tileSize, advance, boundary);
    p.NewFloor? && Extends(mode, |w.board|, p.floor)
  }

  /**
   * One frame of updatePos, given the fresh map `carved` a marathon extension would use:
   * an idle board stays; otherwise it moves, and then wins, goes on, or arrives at a new floor.
   */
  function Step(w: Standing, mode: GameMode, player: PlayerMode, tileSize: real, advance: real, boundary: real,
                viewHeight: real, carved: MineMap): Standing
    requires Fits(w, tileSize) && WellFormed(carved)
  {
    var moved := w.(positionY := w.positionY + advance);
    match PhaseOf(w, player, tileSize, advance, boundary)
    case Idle => w
    case Won => moved.(status := Win)
    case Above => moved
    case SameFloor => moved
    case NewFloor(floor) => Arrive(moved, mode, tileSize, boundary, floor, viewHeight, carved)
  }

  /** A single-player game that has not started does not move. */
  lemma StepWhenIdle(w: Standing, mode: GameMode, player: PlayerMode, tileSize: real, advance: real, boundary: real,
                     viewHeight: real, carved: MineMap)
    requires Fits(w, tileSize) && WellFormed(carved) && player == Single && w.status != Started
    ensures Step(w, mode, player, tileSize, advance, boundary, viewHeight, carved) == w
    ensures !Grows(w, mode, player, tileSize, advance, boundary)
  {
  }

  /** A running game with no mine left, or whose board's top has passed the line, is won as it moves. */
  lemma StepWhenWon(w: Standing, mode: GameMode, player: PlayerMode, tileSize: real, advance: real, boundary: real,
                    viewHeight: real, carved: MineMap)
    requires Fits(w, tileSize) && WellFormed(carved) && !(player == Single && w.status != Started)
    requires w.remainingMines == 0 || w.positionY + advance > boundary
    ensures Step(w, mode, player, tileSize, advance, boundary, viewHeight, carved)
         == w.(positionY := w.positionY + advance, status := Win)
    ensures !Grows(w, mode, player, tileSize, advance, boundary)
  {
  }

  /** On a new floor, a frame is the move followed by the arrival. */
  lemma StepOnNewFloor(w: Standing, mode: GameMode, player: PlayerMode, tileSize: real, advance: real, boundary: real,
                       viewHeight: real, carved: MineMap)
    requires Fits(w, tileSize) && WellFormed(carved) && PhaseOf(w, player, tileSize, advance, boundary).NewFloor?
    ensures Step(w, mode, player, tileSize, advance, boundary, viewHeight, carved)
         == Arrive(w.(positionY := w.positionY + advance), mode, tileSize, boundary,
                   PhaseOf(w, player, tileSize, advance, boundary).floor, viewHeight, carved)
  {
  }

  /**
   * The marathon extension keeps the board one floor wide and exactly as tall as its
   * floors: it loses the connection floor and gains the merged map's |carved| + 1 floors,
   * its bottom edge stays where it was, and both mine counts grow by the same amount.
   */
  lemma GrowKeepsFits(w: Standing, carved: MineMap, tileSize: real, viewHeight: real)
    requires Fits(w, tileSize) && |w.board| >= 1 && WellFormed(carved)
    ensures var g := Grow(w, carved, tileSize, viewHeight);
      && Fits(g, tileSize)
      && |g.board| == |w.board| - 1 + (|carved| + 1)
      && g.positionY + g.height == w.positionY + w.height
      && g.totalMines - w.totalMines == g.remainingMines - w.remainingMines >= 0
  {
    ExtendedKeepsConnection(w.board, carved);
    SpanAdd(|w.board|, |carved|, tileSize);
  }

  /**
   * What a frame can change: the board stays one floor wide and as tall as its floors; the
   * status stays or becomes Win or GameOver; the board is the same one unless a marathon
   * extension grew it; and apart from that growth, which keeps the bottom edge in place,
   * the board only moves by `advance`, and not at all when idle.
   */
  lemma StepKeepsFits(w: Standing, mode: GameMode, player: PlayerMode, tileSize: real, advance: real, boundary: real,
                      viewHeight: real, carved: MineMap)
    requires Fits(w, tileSize) && WellFormed(carved)
    ensures var s, p := Step(w, mode, player, tileSize, advance, boundary, viewHeight, carved),
                        PhaseOf(w, player, tileSize, advance, boundary);
      && Fits(s, tileSize)
      && (s.status == w.status || s.status == Win || s.status == GameOver)
      && (if p.NewFloor? && Extends(mode, |w.board|, p.floor) then s.board == Extended(w.board, carved)
          else s.board == w.board)
      && s.positionY + s.height == w.positionY + w.height + (if p.Idle? then 0.0 else advance)
  {
    var p := PhaseOf(w, player, tileSize, advance, boundary);
    if p.NewFloor? && Extends(mode, |w.board|, p.floor) {
      GrowKeepsFits(w.(positionY := w.positionY + advance), carved, tileSize, viewHeight);
    }
  }

  /**
   * The verdict on a new floor: the floor it records is counted from the bottom; the game
   * is lost exactly when the crossed floor has a flagged or hidden safe tile, and otherwise
   * the status stays and that floor's unflagged mines come off the count (after the new
   * mines of a marathon extension are added). After an extension the crossed floor is the
   * same floor of the old board, unless that was the top floor, which became the seam.
   */
  lemma NewFloorVerdict(w: Standing, mode: GameMode, player: PlayerMode, tileSize: real, advance: real, boundary: real,
                        viewHeight: real, carved: MineMap)
    requires Fits(w, tileSize) && WellFormed(carved) && PhaseOf(w, player, tileSize, advance, boundary).NewFloor?
    ensures var floor := PhaseOf(w, player, tileSize, advance, boundary).floor;
      var s := Step(w, mode, player, tileSize, advance, boundary, viewHeight, carved);
      var grows := Extends(mode, |w.board|, floor);
      var crossed := if grows then Extended(w.board, carved)[floor + |carved|] else w.board[floor];
      && (grows && floor >= 1 ==> crossed == w.board[floor])
      && s.currentFloor == |w.board| - floor
      && s.status == (if FloorFailed(crossed) then GameOver else w.status)
      && (!FloorFailed(crossed) ==>
            s.remainingMines == w.remainingMines + (if grows then MineCount(Merged(carved, w.board[0])) else 0)
                                - UnflaggedMines(crossed))
  {
    var floor := PhaseOf(w, player, tileSize, advance, boundary).floor;
    StepOnNewFloor(w, mode, player, tileSize, advance, boundary, viewHeight, carved);
    if Extends(mode, |w.board|, floor) {
      ExtendedKeepsConnection(w.board, carved);
      if floor >= 1 {
        assert Extended(w.board, carved)[floor + |carved|] == Extended(w.board, carved)[|carved| + 1..][floor - 1];
      }
    }
  }

  /** Growing the board by `k` floors above, with its bottom edge fixed, moves the floor under the line down by `k`. */
  lemma FloorAfterGrowth(boundary: real, py: real, py': real, t: real, n: nat, k: nat)
    requires t > 0.0 && 0.0 <= boundary - py < Span(n, t) && py' == py - Span(k, t)
    ensures FloorUnder(boundary, py', t) == FloorUnder(boundary, py, t) + k
    ensures 0 <= FloorUnder(boundary, py', t) < n + k
  {
    SpanIsProduct(k, t);
    FloorShift(boundary - py, t, k);
    assert boundary - (py - Span(k, t)) == boundary - py + k as real * t;
    FloorOfSpan(boundary - py, t, n);
  }

  /** Shifting an offset by `k` whole floors shifts its floor index by `k`. */
  lemma FloorShift(a: real, t: real, k: int)
    requires t > 0.0
    ensures ((a + k as real * t) / t).Floor == (a / t).Floor + k
  {
    var q, r := a / t, (a + k as real * t) / t;
    assert q * t == a;
    assert r * t == a + k as real * t;
    assert (r - q - k as real) * t == 0.0;
    assert r == q + k as real;
  }

  // ----- Reset, as values -----

  /** A whole game as a value: its settings and its standing. */
  datatype Game = Game(config: Settings, standing: Standing)

  /** The first assignments of `reset`: the given modes, floor 0, the pending status and no last tile. */
  function Primed(g: Game, gameMode: Option<GameMode>, playerMode: Option<PlayerMode>): Game
  {
    var mode := if gameMode.Some? then gameMode.value else g.config.gameMode;
    var player := if playerMode.Some? then playerMode.value else g.config.playerMode;
    Game(g.config.(gameMode := mode, playerMode := player, lastTilePos := Pos(-1, -1)),
         g.standing.(currentFloor := 0, status := Pending))
  }

  /** A new board for the map `m`: a tile size of a ninth of the width, the height of `m`'s floors, and its mines. */
  function NewBoard(g: Game, m: MineMap): Game
    requires WellFormed(m)
  {
    var t := g.config.width / CellPerFloor as real;
    Game(g.config.(tileSize := t),
         g.standing.(height := Span(|m|, t), board := Materialise(m), totalMines := MineCount(m)))
  }

  /** The game `r` with the board, tile size, height and mine total of `g`'s new board for `m`, all else as in `g`, is that new board. */
  lemma NewBoardOf(g: Game, m: MineMap, r: Game)
    requires WellFormed(m)
    requires r.config == g.config.(tileSize := g.config.width / CellPerFloor as real)
    requires r.standing.board == Materialise(m) && r.standing.totalMines == MineCount(m)
    requires r.standing.height == Span(|m|, r.config.tileSize)
    requires r.standing == g.standing.(height := r.standing.height, board := r.standing.board, totalMines := r.standing.totalMines)
    ensures r == NewBoard(g, m)
  {
  }

  /** Every tile reset, all else kept. */
  function TilesReset(g: Game): Game
  {
    g.(standing := g.standing.(board := ResetBoard(g.standing.board)))
  }

  /**
   * The end of `reset`: all mines remain and the board starts a third of the view down
   * from its top; a multiplayer game then needs a player count and a rank, neither
   * missing nor zero, and takes the player count as its rank; and the game is ready.
   */
  function Restarted(g: Game, totalPlayers: Option<int>, rank: Option<int>, viewHeight: real): (Game, Option<ResetError>)
  {
    var y := -g.standing.height + viewHeight / 3.0;
    var s := g.standing.(remainingMines := g.standing.totalMines, startingY := y, positionY := y);
    if g.config.playerMode == Multi && (Falsy(totalPlayers) || Falsy(rank)) then
      (Game(g.config, s), Some(MissingPlayerInfo))
    else if g.config.playerMode == Multi then
      (Game(g.config.(totalPlayers := totalPlayers.value, currentRank := totalPlayers.value), s.(status := Ready)), None)
    else
      (Game(g.config, s.(status := Ready)), None)
  }

  /** The game `r` with the counters, position, status and players that end a reset of `g` is the game Restarted makes. */
  lemma RestartedOf(g: Game, totalPlayers: Option<int>, rank: Option<int>, viewHeight: real, r: Game, err: Option<ResetError>)
    requires err == if g.config.playerMode == Multi && (Falsy(totalPlayers) || Falsy(rank)) then Some(MissingPlayerInfo) else None
    requires r.standing == g.standing.(remainingMines := g.standing.totalMines, startingY := -g.standing.height + viewHeight / 3.0,
                                       positionY := -g.standing.height + viewHeight / 3.0,
                                       status := if err.None? then Ready else g.standing.status)
    requires r.config == if g.config.playerMode == Multi && err.None? then
                           g.config.(totalPlayers := totalPlayers.value, currentRank := totalPlayers.value)
                         else g.config
    ensures (r, err) == Restarted(g, totalPlayers, rank, viewHeight)
  {
  }

  /** Whether `reset` builds a new board: there is none yet, or `regen` asks for one. */
  predicate Regenerates(g: Game, regen: bool)
  {
    |g.standing.board| == 0 || regen
  }

  /**
   * `reset` of the game `g`, with `made` the map of a new board. A new board without a
   * given map in a multiplayer game stops after the first assignments.
   */
  function ResetGame(g: Game, regen: bool, mineMap: Option<MineMap>, made: MineMap, gameMode: Option<GameMode>,
                     playerMode: Option<PlayerMode>, totalPlayers: Option<int>, rank: Option<int>, viewHeight: real)
    : (Game, Option<ResetError>)
    requires WellFormed(made)
  {
    var p := Primed(g, gameMode, playerMode);
    if Regenerates(g, regen) && mineMap.None? && p.config.playerMode == Multi then (p, Some(MissingMineMap))
    else Restarted(if Regenerates(g, regen) then NewBoard(p, made) else TilesReset(p), totalPlayers, rank, viewHeight)
  }

  /**
   * The errors of `reset` and what a successful one leaves: a missing map is reported
   * exactly when a multiplayer game needs a new board and has no map, missing player
   * information exactly when a multiplayer game gets past that with a missing or zero
   * count or rank; without an error the game is ready on floor 0 with no last tile, all
   * its mines remaining and the board at its start line, and the new board of a
   * regeneration is the materialised map.
   */
  lemma ResetOutcome(g: Game, regen: bool, mineMap: Option<MineMap>, made: MineMap, gameMode: Option<GameMode>,
                     playerMode: Option<PlayerMode>, totalPlayers: Option<int>, rank: Option<int>, viewHeight: real)
    requires WellFormed(made)
    ensures var (r, err) := ResetGame(g, regen, mineMap, made, gameMode, playerMode, totalPlayers, rank, viewHeight);
      var player := if playerMode.Some? then playerMode.value else g.config.playerMode;
      && (err == Some(MissingMineMap) <==> Regenerates(g, regen) && mineMap.None? && player == Multi)
      && (err == Some(MissingPlayerInfo) <==>
            !(Regenerates(g, regen) && mineMap.None?) && player == Multi && (Falsy(totalPlayers) || Falsy(rank)))
      && (err.None? ==>
            && r.standing.status == Ready && r.standing.currentFloor == 0 && r.config.lastTilePos == Pos(-1, -1)
            && r.standing.remainingMines == r.standing.totalMines
            && r.standing.positionY == r.standing.startingY == -r.standing.height + viewHeight / 3.0)
      && (err != Some(MissingMineMap) && Regenerates(g, regen) ==>
            r.standing.board == Materialise(made) && r.standing.totalMines == MineCount(made))
      && r.config.width == g.config.width
  {
  }

  /**
   * A reset without regeneration forgets the play: two games that differ only in play on
   * boards of the same layout reset to the same game.
   */
  lemma ResetForgetsGame(g: Game, b': Board, mineMap: Option<MineMap>, gameMode: Option<GameMode>,
                         playerMode: Option<PlayerMode>, totalPlayers: Option<int>, rank: Option<int>, viewHeight: real)
    requires !Regenerates(g, false) && SameLayout(g.standing.board, b')
    ensures ResetGame(g.(standing := g.standing.(board := b')), false, mineMap, [], gameMode, playerMode, totalPlayers, rank, viewHeight)
         == ResetGame(g, false, mineMap, [], gameMode, playerMode, totalPlayers, rank, viewHeight)
  {
    ResetForgetsPlay(g.standing.board, b');
  }

  /**
   * A new board needs no reset: resetting again without regeneration before any play
   * gives the same game back.
   */
  lemma ResetAfterRegeneration(g: Game, m: MineMap, totalPlayers: Option<int>, rank: Option<int>, viewHeight: real)
    requires WellFormed(m) && |m| > 0
    requires ResetGame(g, true, Some(m), m, None, None, totalPlayers, rank, viewHeight).1.None?
    ensures var r := ResetGame(g, true, Some(m), m, None, None, totalPlayers, rank, viewHeight).0;
      ResetGame(r, false, None, [], None, None, totalPlayers, rank, viewHeight) == (r, None)
  {
    ResetRestoresGenerated(m);
  }

  class GameWorld {
    var status: Status
    var gameMode: GameMode
    var playerMode: PlayerMode
    var startingY: real
    var positionY: real
    var width: real
    var height: real
    var tileSize: real
    var tiles: seq<seq<Tile>>
    var lastTilePos: Pos
    var totalMines: int
    var remainingMines: int
    var currentFloor: int
    var totalPlayers: int
    var currentRank: int

    ghost function TileObjects(): set<Tile>
      reads this
    {
      Objects(tiles)
    }

    /** The board as it stands: the states of all tiles. */
    function View(): Board
      reads this, TileObjects()
    {
      BoardView(tiles)
    }

    /**
     * The status is never TimeStopped; the tile grid is rectangular and made of distinct objects; once a board exists the
     * tile size is a ninth of the canvas width and the board is exactly as tall as its
     * floors; without one its height is not positive.
     */
    ghost predicate Valid()
      reads this
    {
      && width > 0.0
      && status != TimeStopped
      && RowsShaped(tiles) && DistinctTiles(tiles)
      && (|tiles| > 0 ==> tileSize == width / CellPerFloor as real && height == Span(|tiles|, tileSize))
      && (|tiles| == 0 ==> height <= 0.0)
    }

    constructor (gameMode: Option<GameMode>, playerMode: Option<PlayerMode>, canvasWidth: real)
      requires canvasWidth > 0.0
      ensures Valid()
      ensures this.gameMode == (if gameMode.Some? then gameMode.value else Normal)
      ensures this.playerMode == (if playerMode.Some? then playerMode.value else Single)
      ensures status == Pending && currentFloor == 0 && lastTilePos == Pos(-1, -1)
      ensures width == canvasWidth && height == -1.0 && tileSize == -1.0 && tiles == []
      ensures totalMines == 0 && remainingMines == 0 && startingY == 0.0 && positionY == 0.0
      ensures totalPlayers == 0 && currentRank == 0
    {
      this.gameMode := if gameMode.Some? then gameMode.value else Normal;
      this.playerMode := if playerMode.Some? then playerMode.value else Single;
      status := Pending;
      currentFloor := 0;
      lastTilePos := Pos(-1, -1);
      width := canvasWidth;
      height := -1.0;
      tileSize := -1.0;
      tiles := [];
      totalMines := 0;
      remainingMines := 0;
      startingY := 0.0;
      positionY := 0.0;
      totalPlayers := 0;
      currentRank := 0;
    }

    /** The game's status; nothing ever sets it to the declared but unused TimeStopped. */
    function GetStatus(): (s: Status)
      reads this
      requires Valid()
      ensures s != TimeStopped
    {
      status
    }

    /** The tile for cell (y, x), numbered with genTiles' eight-term neighbour sum. */
    static method NewCellTile(m: MineMap, y: int, x: int, isMine: bool, revealable: bool) returns (t: Tile)
      requires WellFormed(m) && InMap(m, Pos(x, y))
      requires isMine == (m[y][x] == MineCell) && revealable == (m[y][x] == OpenCell)
      ensures fresh(t) && t.State() == CellTile(m, y, x)
    {
      GenCountIsAdjacent(m, y, x);
      t := new Tile(isMine, if isMine then 0 else GenCount(m, y, x), revealable);
    }

    /** One floor of genTiles: fresh tiles for row `y`, its mine count, and the row with -2 rewritten to 0. */
    static method GenRow(m: MineMap, y: int) returns (row: seq<Tile>, mines: nat, cleared: seq<int>)
      requires WellFormed(m) && 0 <= y < |m|
      ensures |row| == CellPerFloor
      ensures forall j :: 0 <= j < CellPerFloor ==> fresh(row[j]) && row[j].State() == CellTile(m, y, j)
      ensures forall j, k :: 0 <= j < CellPerFloor && 0 <= k < CellPerFloor && j != k ==> row[j] != row[k]
      ensures mines == RowCount(Mines(m)[y])
      ensures cleared == ClearOpen(m)[y]
    {
      row, mines, cleared := [], 0, [];
      for x := 0 to CellPerFloor
        invariant |row| == x
        invariant forall j :: 0 <= j < x ==> fresh(row[j]) && row[j].State() == CellTile(m, y, j)
        invariant forall j, k :: 0 <= j < x && 0 <= k < x && j != k ==> row[j] != row[k]
        invariant mines == RowCount(Mines(m)[y][..x])
        invariant cleared == ClearOpen(m)[y][..x]
      {
        var isMine, revealable := m[y][x] == MineCell, m[y][x] == OpenCell;
        PrefixSnoc(ClearOpen(m)[y], x);
        cleared := cleared + [if revealable then 0 else m[y][x]];
        var t := NewCellTile(m, y, x, isMine, revealable);
        RowCountPrefix(Mines(m)[y], x);
        mines := mines + if isMine then 1 else 0;
        row := row + [t];
      }
      assert ClearOpen(m)[y][..CellPerFloor] == ClearOpen(m)[y];
      assert Mines(m)[y][..CellPerFloor] == Mines(m)[y];
    }

    /**
     * `genTiles`: a fresh tile per cell of the map, shaped as the map and carrying what
     * the map materialises to; the number of -1 cells; the map with its -2 cells set to 0.
     */
    static method GenTiles(m: MineMap) returns (ts: seq<seq<Tile>>, total: nat, m': MineMap)
      requires WellFormed(m)
      ensures |ts| == |m| && RowsShaped(ts) && DistinctTiles(ts)
      ensures forall i, j :: 0 <= i < |ts| && 0 <= j < CellPerFloor ==> fresh(ts[i][j])
      ensures BoardView(ts) == Materialise(m)
      ensures total == MineCount(m)
      ensures m' == ClearOpen(m)
    {
      ts, total, m' := [], 0, [];
      for y := 0 to |m|
        invariant |ts| == y && DistinctTiles(ts) && Built(ts, m)
        invariant forall i, j :: 0 <= i < y && 0 <= j < CellPerFloor ==> fresh(ts[i][j])
        invariant total == CountTrue(Mines(m)[..y])
        invariant m' == ClearOpen(m)[..y]
      {
        var row, mines, cleared := GenRow(m, y);
        DistinctAppend(ts, row);
        BuiltAppend(ts, row, m);
        CountTruePrefix(Mines(m), y);
        PrefixSnoc(ClearOpen(m), y);
        total := total + mines;
        m' := m' + [cleared];
        ts := ts + [row];
      }
      assert Mines(m)[..|m|] == Mines(m);
      assert ClearOpen(m)[..|m|] == ClearOpen(m);
      ViewIsMaterialised(ts, m);
    }

    /** The first |ts| floors of `m` have been turned into the tiles `ts`. */
    static ghost predicate Built(ts: seq<seq<Tile>>, m: MineMap)
      requires WellFormed(m)
      reads Objects(ts)
    {
      && |ts| <= |m| && RowsShaped(ts)
      && forall i, j :: 0 <= i < |ts| && 0 <= j < CellPerFloor ==>
           assert ts[i][j] in ts[i]; ts[i][j].State() == CellTile(m, i, j)
    }

    static lemma BuiltAppend(ts: seq<seq<Tile>>, row: seq<Tile>, m: MineMap)
      requires WellFormed(m) && Built(ts, m) && |ts| < |m| && |row| == CellPerFloor
      requires forall j :: 0 <= j < CellPerFloor ==> row[j].State() == CellTile(m, |ts|, j)
      ensures Built(ts + [row], m)
    {
      var ts': seq<seq<Tile>> := ts + [row];
      forall i, j | 0 <= i < |ts'| && 0 <= j < CellPerFloor ensures ts'[i][j].State() == CellTile(m, i, j) {
        if i < |ts| {
          assert ts'[i][j] == ts[i][j];
        }
      }
    }

    static lemma DistinctAppend(ts: seq<seq<Tile>>, row: seq<Tile>)
      requires DistinctTiles(ts)
      requires forall j, k :: 0 <= j < |row| && 0 <= k < |row| && j != k ==> row[j] != row[k]
      requires forall i, j, k :: 0 <= i < |ts| && 0 <= j < |ts[i]| && 0 <= k < |row| ==> ts[i][j] != row[k]
      ensures DistinctTiles(ts + [row])
    {
    }

    static lemma ViewIsMaterialised(ts: seq<seq<Tile>>, m: MineMap)
      requires WellFormed(m) && |ts| == |m| && Built(ts, m)
      ensures BoardView(ts) == Materialise(m)
    {
      var b := BoardView(ts);
      forall i | 0 <= i < |m| ensures b[i] == Materialise(m)[i] {
        forall j | 0 <= j < CellPerFloor ensures b[i][j] == Materialise(m)[i][j] {
          assert ts[i][j].State() == CellTile(m, i, j);
        }
      }
    }

    /**
     * `mergeTiles`: append to the new map a row copied from the current top floor, then
     * generate tiles for the whole of it.
     */
    static method MergeTiles(top: seq<Tile>, m: MineMap) returns (ts: seq<seq<Tile>>, total: nat, m': MineMap)
      requires WellFormed(m) && |m| >= 1 && |top| == CellPerFloor
      ensures var merged := m + [SeamRow(RowView(top))];
        && WellFormed(merged)
        && |ts| == |merged| && RowsShaped(ts) && DistinctTiles(ts)
        && (forall i, j :: 0 <= i < |ts| && 0 <= j < CellPerFloor ==> fresh(ts[i][j]))
        && BoardView(ts) == Materialise(merged)
        && total == MineCount(merged)
        && m' == ClearOpen(merged)
    {
      var seam: seq<int> := [];
      for i := 0 to |m[0]|
        invariant |seam| == i && seam == SeamRow(RowView(top))[..i]
      {
        var cell := 0;
        if top[i].isMine {
          cell := MineCell;
        } else if top[i].isRevealed {
          cell := OpenCell;
        }
        seam := seam + [cell];
      }
      assert seam == SeamRow(RowView(top));
      ts, total, m' := GenTiles(m + [seam]);
    }

    /** When no tile changed, neither did the board. */
    twostate lemma ViewUnchanged()
      requires old(tiles) == tiles && RowsShaped(tiles)
      requires forall i, j :: 0 <= i < |tiles| && 0 <= j < CellPerFloor ==> unchanged(tiles[i][j])
      ensures View() == old(View())
    {
      var b, b0 := View(), old(View());
      forall i | 0 <= i < |tiles| ensures b[i] == b0[i] {
        assert |b[i]| == |b0[i]|;
      }
    }

    /** When only the tile at `p` may have changed, the board changed at `p` only. */
    twostate lemma ViewAfterOneTile(p: Pos)
      requires old(tiles) == tiles
      requires RowsShaped(tiles) && DistinctTiles(tiles) && InBounds(p, |tiles|, CellPerFloor)
      requires forall i, j :: 0 <= i < |tiles| && 0 <= j < CellPerFloor && (i != p.y || j != p.x) ==>
                 unchanged(tiles[i][j])
      ensures View() == old(View())[p.y := old(View())[p.y][p.x := tiles[p.y][p.x].State()]]
    {
      var b, b0 := View(), old(View());
      var e := b0[p.y := b0[p.y][p.x := tiles[p.y][p.x].State()]];
      forall i | 0 <= i < |tiles| ensures b[i] == e[i] {
        assert |b[i]| == |e[i]|;
      }
    }

    /**
     * `revealTile`: reveal the tile at `p`; a numbered tile stops the flood, any other
     * hands back its default-mode frontier.
     */
    method RevealTile(p: Pos) returns (next: seq<Pos>)
      requires Valid() && OnBoard(View(), p)
      modifies tiles[p.y][p.x]
      ensures View() == RevealAt(old(View()), p)
      ensures next == RevealPushed(old(View()), p)
    {
      var tile := tiles[p.y][p.x];
      tile.Reveal();
      ViewAfterOneTile(p);
      if tile.mineNearBy > 0 {
        return [];
      }
      next := NearByTiles(View(), p.x, p.y, false);
    }

    /**
     * The worklist loop that follows a reveal: pop the last position, reveal it and push
     * what `revealTile` hands back, until the list is empty. It continues a flood that
     * began on `b0` from the cells `initial`; when it stops, FloodInv with an empty
     * worklist says the flood only turned hidden, unflagged non-mines into revealed tiles,
     * left every start and every neighbour of an expanded zero settled, and changed
     * nothing that is not a start or next to an expanded zero.
     */
    method Drain(ghost b0: Board, ghost initial: seq<Pos>, ghost expanded0: seq<Pos>, wl: seq<Pos>)
      returns (ghost expanded: seq<Pos>)
      requires Valid() && Shaped(b0)
      requires Boards.FloodInv(b0, initial, View(), expanded0, wl)
      modifies TileObjects()
      ensures Boards.FloodInv(b0, initial, View(), expanded, [])
    {
      expanded := expanded0;
      var worklist := wl;
      while worklist != []
        invariant Boards.FloodInv(b0, initial, View(), expanded, worklist)
        decreases Hidden(View()), ZeroEntries(View(), worklist), |worklist|
      {
        ghost var b := View();
        FloodStep(b0, initial, b, expanded, worklist);
        FloodStepDecreases(b0, initial, b, expanded, worklist);
        ghost var before := worklist;
        var p := worklist[|worklist| - 1];
        assert p in worklist;
        assert OnBoard(b, p);
        assert tiles[p.y][p.x] in tiles[p.y];
        worklist := worklist[..|worklist| - 1];
        var next := RevealTile(p);
        assert View() == StepBoard(b, before);
        assert next == StepPushed(b, before);
        expanded := StepExpanded(b, before, expanded);
        worklist := worklist + next;
      }
    }

    /** Fields that clicking leaves alone. */
    twostate predicate SettingsKept()
      reads this
    {
      && status == old(status) && gameMode == old(gameMode) && playerMode == old(playerMode)
      && startingY == old(startingY) && width == old(width) && height == old(height)
      && tileSize == old(tileSize) && tiles == old(tiles) && totalMines == old(totalMines)
      && currentFloor == old(currentFloor) && totalPlayers == old(totalPlayers) && currentRank == old(currentRank)
    }

    /**
     * The reveal half of the chord: reveal each target in order, counting mines; while no
     * mine has turned up each target goes through `revealTile` and its frontier is
     * collected, afterwards each is simply revealed. Every target ends up revealed and,
     * when none was a mine, the reveals so far form a flood started from the targets whose
     * unfinished worklist is the collected frontier.
     */
    method ChordReveal(ghost b: Board, targets: seq<Pos>) returns (mines: nat, next: seq<Pos>, ghost expanded: seq<Pos>)
      requires Valid() && View() == b
      requires Unflagged(b, targets)
      modifies TileObjects()
      ensures ChordRevealed(b, targets, View(), mines, expanded, next)
    {
      FloodStart(b, []);
      mines, next, expanded := 0, [], [];
      ghost var done: seq<Pos> := [];
      for i := 0 to |targets|
        invariant done == targets[..i]
        invariant ChordRevealed(b, done, View(), mines, expanded, next)
      {
        var pos := targets[i];
        PrefixSnoc(targets, i);
        assert pos in targets;
        assert tiles[pos.y][pos.x] in tiles[pos.y];
        mines, next, expanded := ChordStep(b, done, pos, mines, next, expanded);
        done := done + [pos];
      }
      assert targets[..|targets|] == targets;
    }

    /** One target of ChordReveal. */
    method ChordStep(ghost b: Board, ghost done: seq<Pos>, pos: Pos, mines: nat, next: seq<Pos>, ghost expanded: seq<Pos>)
      returns (mines': nat, next': seq<Pos>, ghost expanded': seq<Pos>)
      requires Valid() && Shaped(b) && |b| == |tiles| && OnBoard(b, pos) && !b[pos.y][pos.x].isFlagged
      requires ChordRevealed(b, done, View(), mines, expanded, next)
      modifies tiles[pos.y][pos.x]
      ensures ChordRevealed(b, done + [pos], View(), mines', expanded', next')
    {
      ghost var cur := View();
      ChordRevealedStep(b, done, cur, mines, expanded, next, pos);
      var tile := tiles[pos.y][pos.x];
      assert cur[pos.y][pos.x] == tile.State();
      mines' := if tile.isMine then mines + 1 else mines;
      if mines' > 0 {
        tile.Reveal();
        ViewAfterOneTile(pos);
        next', expanded' := next, expanded;
      } else {
        var pushed := RevealTile(pos);
        next', expanded' := next + pushed, RevealExpanded(cur, pos, expanded);
      }
    }

    /**
     * The chord on a revealed number (x, y). When the marked neighbours match the number,
     * every other neighbour is revealed; it hands back how many of them were mines, and
     * when there were none the reveals flood from every revealed zero.
     */
    method Chord(x: int, y: int) returns (lost: nat, ghost expanded: seq<Pos>)
      requires Valid() && 0 <= y < |tiles| && 0 <= x < CellPerFloor
      modifies TileObjects()
      ensures ChordOutcome(old(View()), x, y, View(), expanded, lost, lost > 0)
    {
      var b := View();
      assert b[y][x] == tiles[y][x].State();
      var ok, revealables := ChordSurvey(b, NearByTiles(b, x, y, true), tiles[y][x].mineNearBy);
      lost, expanded := 0, [];
      if ok {
        ChordTargetsHidden(b, x, y);
        lost, expanded := ChordRevealAndFlood(b, revealables);
      }
      ChordOutcomeOf(b, x, y, ok, revealables, View(), expanded, lost);
    }

    /**
     * Reveal the chord's targets; unless one of them was a mine, drain the flood they
     * started.
     */
    method ChordRevealAndFlood(ghost b: Board, targets: seq<Pos>) returns (lost: nat, ghost expanded: seq<Pos>)
      requires Valid() && View() == b && Unflagged(b, targets)
      modifies TileObjects()
      ensures lost == MinesAmong(b, targets)
      ensures lost > 0 ==> View() == RevealAll(b, targets)
      ensures lost == 0 ==> Boards.FloodInv(b, targets, View(), expanded, [])
    {
      var next;
      lost, next, expanded := ChordReveal(b, targets);
      if lost == 0 {
        expanded := Drain(b, targets, expanded, next);
      }
    }

    /**
     * The tile half of `clickOnTile` on the tile at `p`: it changes the tiles as
     * TileOutcome says and hands back the change to the remaining count and whether the
     * board drops.
     */
    method ActOnTile(p: Pos, action: ActionType) returns (lost: int, drop: bool, ghost expanded: seq<Pos>)
      requires Valid() && InBounds(p, |tiles|, CellPerFloor)
      modifies TileObjects()
      ensures TileOutcome(old(View()), p, action, View(), expanded, lost, drop)
    {
      lost, drop, expanded := 0, false, [];
      var tile := tiles[p.y][p.x];
      assert tile in tiles[p.y];
      ghost var b := View();
      if tile.isRevealed && tile.mineNearBy > 0 {
        lost, expanded := Chord(p.x, p.y);
        drop := lost > 0;
      } else if action == Click {
        if tile.isRevealed {
          return;
        }
        label before:
        tile.Flag();
        ViewAfterOneTile@before(p);
        lost := if tile.isFlagged then 1 else -1;
      } else if action == DbClick {
        if !tile.State().Revealable() {
          return;
        }
        label before:
        tile.Reveal();
        ViewAfterOneTile@before(p);
        if tile.isMine {
          lost, drop := 1, true;
        } else {
          FloodFromOne(b, p);
          var next := RevealTile(p);
          expanded := Drain(b, [p], RevealExpanded(b, p, []), next);
        }
      }
    }

    /**
     * The bookkeeping of a click on `p`: it becomes the last tile touched, the mines the
     * click took off come off the remaining count, and a drop lowers the board one tile.
     */
    method Settle(p: Pos, lost: int, drop: bool)
      requires Valid() && |tiles| > 0
      modifies this
      ensures Valid() && SettingsKept() && lastTilePos == p && tiles == old(tiles)
      ensures remainingMines == old(remainingMines) - lost
      ensures positionY == if drop then old(positionY) + tileSize else old(positionY)
    {
      lastTilePos := p;
      remainingMines := remainingMines - lost;
      if drop {
        positionY := positionY + tileSize;
      }
    }

    /**
     * `clickOnTile`: a pointer at (px, py) on the canvas. Off the board nothing happens.
     * Otherwise the tile under it is remembered as the last one touched and the action
     * works on it as ClickOutcome describes: a chord on a revealed number, a flag toggle
     * for a click, a reveal (and flood, or a one-tile drop on a mine) for a double click.
     */
    method ClickOnTile(px: real, py: real, action: ActionType, viewHeight: real, viewWidth: real)
      returns (ghost expanded: seq<Pos>, ghost after: Board)
      requires Valid() && 0.0 <= px < width
      modifies this, TileObjects()
      ensures Valid() && SettingsKept() && View() == after
      ensures var onBoard := py < old(positionY) + height && py < PlayLine(viewHeight, viewWidth) && py > old(positionY);
        if !onBoard then
          after == old(View()) && lastTilePos == old(lastTilePos)
          && remainingMines == old(remainingMines) && positionY == old(positionY)
        else
          var p := PointerTile(px, py, old(positionY), tileSize);
          && OnBoard(old(View()), p) && lastTilePos == p
          && ClickOutcome(old(View()), p, action, after, expanded, old(remainingMines), remainingMines,
                          old(positionY), positionY, tileSize)
    {
      expanded, after := [], View();
      if !(py < positionY + height && py < PlayLine(viewHeight, viewWidth) && py > positionY) {
        return;
      }
      PointerOnBoard(px, py, positionY, tileSize, |tiles|);
      expanded, after := ClickAt(PointerTile(px, py, positionY, tileSize), action);
    }

    /** The on-board half of `clickOnTile`, on the tile at `p`; `after` is the board it leaves. */
    method ClickAt(p: Pos, action: ActionType) returns (ghost expanded: seq<Pos>, ghost after: Board)
      requires Valid() && InBounds(p, |tiles|, CellPerFloor)
      modifies this, TileObjects()
      ensures Valid() && SettingsKept() && lastTilePos == p && View() == after
      ensures ClickOutcome(old(View()), p, action, after, expanded, old(remainingMines), remainingMines,
                           old(positionY), positionY, tileSize)
    {
      ghost var b, rem0, py0 := View(), remainingMines, positionY;
      var lost, drop;
      lost, drop, expanded := ActOnTile(p, action);
      after := View();
      label acted:
      Settle(p, lost, drop);
      ViewUnchanged@acted();
      assert rem0 - remainingMines == lost;
    }

    /** The settings of the game, which updatePos never changes. */
    function Config(): Settings
      reads this
    {
      Settings(gameMode, playerMode, width, tileSize, lastTilePos, totalPlayers, currentRank)
    }

    twostate predicate ModesKept()
      reads this
    {
      Config() == old(Config())
    }

    /** The part of the world that updatePos works on, as a value. */
    ghost function Snapshot(): Standing
      reads this, TileObjects()
    {
      Standing(status, positionY, height, startingY, totalMines, remainingMines, currentFloor, View())
    }

    /** The copy of the connection floor `conn` onto the last floor of the fresh tiles `ts`. */
    static method CarrySeam(ts: seq<seq<Tile>>, seam: seq<Tile>, conn: seq<Tile>)
      requires RowsShaped(ts) && DistinctTiles(ts) && |ts| >= 1 && seam == ts[|ts| - 1] && |conn| == CellPerFloor
      requires forall j, k :: 0 <= j < CellPerFloor && 0 <= k < CellPerFloor ==> seam[j] != conn[k]
      modifies set t | t in seam
      ensures BoardView(ts) == old(BoardView(ts))[..|ts| - 1] + [SeamStates(old(BoardView(ts))[|ts| - 1], RowView(conn))]
    {
      ghost var b0 := BoardView(ts);
      ghost var n := |ts| - 1;
      assert RowView(seam) == b0[n];
      CarryRow(seam, conn);
      ghost var b := BoardView(ts);
      forall i | 0 <= i < n ensures b[i] == b0[i] {
        assert |b[i]| == |b0[i]|;
      }
      assert b[n] == RowView(seam);
      assert b == b0[..n] + [b[n]];
    }

    /** The loop that copies the connection floor `conn` onto the seam row. */
    static method CarryRow(seam: seq<Tile>, conn: seq<Tile>)
      requires |seam| == CellPerFloor == |conn|
      requires forall j, k :: 0 <= j < CellPerFloor && 0 <= k < CellPerFloor && j != k ==> seam[j] != seam[k]
      requires forall j, k :: 0 <= j < CellPerFloor && 0 <= k < CellPerFloor ==> seam[j] != conn[k]
      modifies set t | t in seam
      ensures RowView(seam) == SeamStates(old(RowView(seam)), RowView(conn))
    {
      for i := 0 to CellPerFloor
        invariant forall j :: 0 <= j < i ==> seam[j].State() == SeamTile(old(seam[j].State()), conn[j].State())
        invariant forall j :: i <= j < CellPerFloor ==> seam[j].State() == old(seam[j].State())
      {
        var t, c := seam[i], conn[i];
        if c.isFlagged {
          t.Flag();
        }
        if c.isRevealed {
          t.Reveal();
        }
        t.UpdateMineNearBy(t.mineNearBy + c.mineNearBy);
      }
    }

    /**
     * The marathon extension in updatePos: the top floor comes off as the connection floor;
     * the band loop's map `banded` is carved with one seed floor when the connection floor
     * has a revealed tile; mergeTiles appends the connection floor to it and turns the whole
     * into tiles, whose last row then copies the connection floor; and those tiles go on
     * top. Both mine counts grow by the merged map's mines, and the board grows and moves
     * up by the height of the fresh map.
     */
    method ExtendMarathon(banded: MineMap, viewHeight: real) returns (ghost carved: MineMap, ghost expanded: seq<Pos>)
      requires Valid() && |tiles| >= 1 && WellFormed(banded) && |banded| >= 1
      modifies this
      ensures Valid() && ModesKept()
      ensures Carved(banded, carved, false, ExtensionRevealable(old(View())), expanded)
      ensures Snapshot() == Grow(old(Snapshot()), carved, tileSize, viewHeight)
      ensures positionY == old(positionY) - Span(|carved|, tileSize) && |tiles| == old(|tiles|) + |carved|
    {
      assert RowView(tiles[0]) == View()[0];
      var hasRevealed := AnyRevealed(RowView(tiles[0]));
      var freshMap;
      freshMap, expanded := CarveSafeZone(banded, false, if hasRevealed then 1 else 0);
      carved := freshMap;
      GridUnchanged(tiles);
      PutOnTop(freshMap, viewHeight);
    }

    /** The second half of the marathon extension, once the fresh map `carved` is ready. */
    method PutOnTop(carved: MineMap, viewHeight: real)
      requires Valid() && |tiles| >= 1 && WellFormed(carved) && |carved| >= 1
      modifies this
      ensures Valid() && ModesKept()
      ensures Snapshot() == Grow(old(Snapshot()), carved, tileSize, viewHeight)
      ensures positionY == old(positionY) - Span(|carved|, tileSize) && |tiles| == old(|tiles|) + |carved|
    {
      ghost var w := Snapshot();
      var stacked, count := StackOnTop(tiles, carved);
      ghost var b := BoardView(stacked);
      assert b == Extended(w.board, carved);
      label built:
      Install(stacked, count, |carved|, viewHeight);
      BoardKept@built(stacked);
      GrowOf(w, carved, tileSize, viewHeight, Snapshot());
    }

    /**
     * Put the grid `stacked`, `k` floors taller than the current one, in place: the mine
     * counts grow by `count`, the board by `k` floors, and it moves up by as much.
     */
    method Install(stacked: seq<seq<Tile>>, count: nat, k: nat, viewHeight: real)
      requires Valid() && |tiles| >= 1 && RowsShaped(stacked) && DistinctTiles(stacked) && |stacked| == |tiles| + k
      modifies this
      ensures Valid() && ModesKept() && status == old(status) && currentFloor == old(currentFloor)
      ensures tiles == stacked
      ensures totalMines == old(totalMines) + count && remainingMines == old(remainingMines) + count
      ensures height == old(height) + Span(k, tileSize)
      ensures startingY == -height + viewHeight / 3.0
      ensures positionY + height == old(positionY) + old(height)
    {
      SpanAdd(|tiles|, k, tileSize);
      tiles := stacked;
      totalMines := totalMines + count;
      remainingMines := remainingMines + count;
      height := height + Span(k, tileSize);
      startingY := -height + viewHeight / 3.0;
      positionY := positionY - Span(k, tileSize);
    }

    /** The grid of the marathon extension: the seamed fresh tiles over every floor of `ts` but the top one. */
    static method StackOnTop(ts: seq<seq<Tile>>, carved: MineMap) returns (stacked: seq<seq<Tile>>, count: nat)
      requires RowsShaped(ts) && DistinctTiles(ts) && |ts| >= 1 && WellFormed(carved) && |carved| >= 1
      ensures RowsShaped(stacked) && DistinctTiles(stacked) && |stacked| == |carved| + |ts|
      ensures BoardView(stacked) == Extended(old(BoardView(ts)), carved)
      ensures count == MineCount(Merged(carved, old(BoardView(ts))[0]))
    {
      ghost var b := BoardView(ts);
      var conn, rest := ts[0], ts[1..];
      assert RowView(conn) == b[0];
      BoardViewDrop(ts);
      label before:
      var made;
      made, count := SeamedTiles(conn, carved);
      BoardKept@before(rest);
      assert BoardView(made) == SeamedTop(carved, b[0]);
      StackedDistinct@before(made, ts);
      StackedView(made, rest, b, carved);
      stacked := made + rest;
    }

    /**
     * The new tiles of the marathon extension: merge the connection floor `conn` under the
     * fresh map `carved`, build the tiles and copy `conn` onto their last row.
     */
    static method SeamedTiles(conn: seq<Tile>, carved: MineMap) returns (made: seq<seq<Tile>>, count: nat)
      requires |conn| == CellPerFloor && WellFormed(carved) && |carved| >= 1
      ensures |made| == |carved| + 1 && RowsShaped(made) && DistinctTiles(made)
      ensures forall i, j :: 0 <= i < |made| && 0 <= j < CellPerFloor ==> fresh(made[i][j])
      ensures BoardView(made) == SeamedTop(carved, old(RowView(conn)))
      ensures count == MineCount(Merged(carved, old(RowView(conn))))
    {
      ghost var c := RowView(conn);
      made, count := MergedApart(conn, carved);
      ghost var b := BoardView(made);
      label merged:
      CarrySeam(made, made[|made| - 1], conn);
      RowKept@merged(conn);
      SeamedTopOf(carved, c, b, BoardView(made));
    }

    /** The merged map's fresh tiles, none of them the connection floor's. */
    static method MergedApart(conn: seq<Tile>, carved: MineMap) returns (made: seq<seq<Tile>>, count: nat)
      requires |conn| == CellPerFloor && WellFormed(carved) && |carved| >= 1
      ensures |made| == |carved| + 1 && RowsShaped(made) && DistinctTiles(made)
      ensures forall i, j :: 0 <= i < |made| && 0 <= j < CellPerFloor ==> fresh(made[i][j])
      ensures BoardView(made) == Materialise(Merged(carved, RowView(conn)))
      ensures count == MineCount(Merged(carved, RowView(conn)))
      ensures Apart(made[|made| - 1], conn)
    {
      label start:
      var cleared;
      made, count, cleared := MergeTiles(conn, carved);
      RowKept@start(conn);
      FreshRowApart@start(made[|made| - 1], conn);
    }

    /**
     * The end of updatePos once the board reaches floor `floor`, floor `newFloor` from the
     * bottom: record it, inspect it, then lose or pay for its mines.
     */
    method CrossFloor(floor: int, newFloor: int)
      requires Valid() && 0 <= floor < |tiles|
      modifies this
      ensures Valid() && ModesKept() && tiles == old(tiles)
      ensures Snapshot() == Cross(old(Snapshot()), floor).(currentFloor := newFloor)
    {
      assert RowView(tiles[floor]) == View()[floor];
      label inspecting:
      var failed, mines := InspectFloor(tiles[floor], View()[floor]);
      ViewKept@inspecting();
      SettleFloor(floor, newFloor, failed, mines);
    }

    /** The verdict of the inspection of floor `floor`: the game is lost, or its unflagged mines come off the count. */
    method SettleFloor(ghost floor: int, newFloor: int, failed: bool, mines: nat)
      requires Valid() && 0 <= floor < |tiles|
      requires failed <==> FloorFailed(View()[floor])
      requires !failed ==> mines == UnflaggedMines(View()[floor])
      modifies this
      ensures Valid() && ModesKept() && tiles == old(tiles)
      ensures Snapshot() == Cross(old(Snapshot()), floor).(currentFloor := newFloor)
    {
      if failed {
        currentFloor, status := newFloor, GameOver;
      } else {
        currentFloor, remainingMines := newFloor, remainingMines - mines;
      }
      ViewKept();
    }

    /** A valid world's standing is a board one floor wide and exactly as tall as its floors. */
    lemma StandingFits()
      requires Valid()
      ensures Fits(Snapshot(), tileSize)
    {
    }

    /** When the grid and its tiles are as they were, so is the board. */
    twostate lemma ViewKept()
      requires old(tiles) == tiles && unchanged(TileObjects())
      ensures View() == old(View())
    {
    }

    /**
     * `updatePos`, one frame of play, as Step describes it: the board moves by `advance`
     * towards the line an eighth of the view's width above the view's bottom, and on
     * reaching a new floor a marathon board may first grow by the band loop's fresh map
     * `banded`, carved into `carved`; the grid itself is replaced only then.
     */
    method UpdatePos(advance: real, viewHeight: real, viewWidth: real, banded: MineMap)
      returns (ghost carved: MineMap, ghost expanded: seq<Pos>)
      requires Valid() && WellFormed(banded) && |banded| == TotalFloors(Marathon)
      modifies this
      ensures Valid() && ModesKept() && Fits(old(Snapshot()), tileSize) && WellFormed(carved)
      ensures Snapshot() == Step(old(Snapshot()), gameMode, playerMode, tileSize, advance,
                                 PlayLine(viewHeight, viewWidth), viewHeight, carved)
      ensures Grows(old(Snapshot()), gameMode, playerMode, tileSize, advance, PlayLine(viewHeight, viewWidth)) ==>
          Carved(banded, carved, false, ExtensionRevealable(old(View())), expanded)
      ensures !Grows(old(Snapshot()), gameMode, playerMode, tileSize, advance, PlayLine(viewHeight, viewWidth)) ==>
          tiles == old(tiles)
    {
      if playerMode == Single && status != Started {
        carved, expanded := [], [];
        StandingFits();
        StepWhenIdle(Snapshot(), gameMode, playerMode, tileSize, advance, PlayLine(viewHeight, viewWidth), viewHeight, carved);
        assert !Grows(old(Snapshot()), gameMode, playerMode, tileSize, advance, PlayLine(viewHeight, viewWidth));
      } else {
        carved, expanded := Advance(advance, PlayLine(viewHeight, viewWidth), viewHeight, banded);
      }
    }

    /** A frame of a running game: the board is won as it moves, or it descends. */
    method Advance(advance: real, boundary: real, viewHeight: real, banded: MineMap)
      returns (ghost carved: MineMap, ghost expanded: seq<Pos>)
      requires Valid() && WellFormed(banded) && |banded| >= 1
      requires !(playerMode == Single && status != Started)
      modifies this
      ensures Valid() && ModesKept() && Fits(old(Snapshot()), tileSize) && WellFormed(carved)
      ensures Snapshot() == Step(old(Snapshot()), gameMode, playerMode, tileSize, advance,
                                 boundary, viewHeight, carved)
      ensures if Grows(old(Snapshot()), gameMode, playerMode, tileSize, advance, boundary) then
          Carved(banded, carved, false, ExtensionRevealable(old(View())), expanded)
        else tiles == old(tiles)
    {
      carved, expanded := [], [];
      ghost var w := Snapshot();
      StandingFits();
      ghost var phase := PhaseOf(w, playerMode, tileSize, advance, boundary);
      var y := positionY + advance;
      if remainingMines == 0 || y > boundary {
        assert phase == Won;
        StepWhenWon(w, gameMode, playerMode, tileSize, advance, boundary, viewHeight, carved);
        positionY, status := y, Win;
        ViewKept();
        return;
      }
      carved, expanded := Descend(advance, boundary, viewHeight, banded);
    }

    /**
     * The rest of `updatePos` once the game runs and is not won: the board moves by
     * `advance`, and crosses the floor under the line at `boundary` when it is a new one.
     */
    method Descend(advance: real, boundary: real, viewHeight: real, banded: MineMap)
      returns (ghost carved: MineMap, ghost expanded: seq<Pos>)
      requires Valid() && WellFormed(banded) && |banded| >= 1
      requires !(playerMode == Single && status != Started)
      requires !(remainingMines == 0 || positionY + advance > boundary)
      modifies this
      ensures Valid() && ModesKept() && Fits(old(Snapshot()), tileSize) && WellFormed(carved)
      ensures Snapshot() == Step(old(Snapshot()), gameMode, playerMode, tileSize, advance,
                                 boundary, viewHeight, carved)
      ensures if Grows(old(Snapshot()), gameMode, playerMode, tileSize, advance, boundary) then
          Carved(banded, carved, false, ExtensionRevealable(old(View())), expanded)
        else tiles == old(tiles)
    {
      carved, expanded := [], [];
      StandingFits();
      var y := positionY + advance;
      if y + height <= boundary || currentFloor == |tiles| - FloorUnder(boundary, y, tileSize) {
        assert PhaseOf(Snapshot(), playerMode, tileSize, advance, boundary) in {Above, SameFloor};
        positionY := y;
        ViewKept();
        return;
      }
      carved, expanded := DescendOnto(advance, boundary, viewHeight, banded);
    }

    /** The part of Descend where the floor under the line after the move is a new one. */
    method DescendOnto(advance: real, boundary: real, viewHeight: real, banded: MineMap)
      returns (ghost carved: MineMap, ghost expanded: seq<Pos>)
      requires Valid() && WellFormed(banded) && |banded| >= 1
      requires Fits(Snapshot(), tileSize) && PhaseOf(Snapshot(), playerMode, tileSize, advance, boundary).NewFloor?
      modifies this
      ensures Valid() && ModesKept() && WellFormed(carved)
      ensures Snapshot() == Step(old(Snapshot()), gameMode, playerMode, tileSize, advance,
                                 boundary, viewHeight, carved)
      ensures if Grows(old(Snapshot()), gameMode, playerMode, tileSize, advance, boundary) then
          Carved(banded, carved, false, ExtensionRevealable(old(View())), expanded)
        else tiles == old(tiles)
    {
      ghost var w := Snapshot();
      var y := positionY + advance;
      FloorOfSpan(boundary - y, tileSize, |tiles|);
      var floor := FloorUnder(boundary, y, tileSize);
      assert PhaseOf(w, playerMode, tileSize, advance, boundary) == NewFloor(floor);
      positionY := y;
      ViewKept();
      assert Snapshot() == w.(positionY := w.positionY + advance);
      carved, expanded := ArriveAt(floor, boundary, banded, viewHeight);
      StepOnNewFloor(w, gameMode, playerMode, tileSize, advance, boundary, viewHeight, carved);
    }

    /** The board reaches floor `floor`, under the line at `boundary`, for the first time. */
    method ArriveAt(floor: int, boundary: real, banded: MineMap, viewHeight: real)
      returns (ghost carved: MineMap, ghost expanded: seq<Pos>)
      requires Valid() && WellFormed(banded) && |banded| >= 1
      requires Reaches(Snapshot(), tileSize, boundary, floor)
      modifies this
      ensures Valid() && ModesKept() && WellFormed(carved)
      ensures Snapshot() == Arrive(old(Snapshot()), gameMode, tileSize, boundary, floor, viewHeight, carved)
      ensures if Extends(gameMode, |old(tiles)|, floor) then
          Carved(banded, carved, false, ExtensionRevealable(old(View())), expanded)
        else tiles == old(tiles)
    {
      if Extends(gameMode, |tiles|, floor) {
        carved, expanded := ArriveExtending(floor, boundary, banded, viewHeight);
      } else {
        carved, expanded := [], [];
        CrossFloor(floor, |tiles| - floor);
      }
    }

    /**
     * A marathon board reaches floor `floor`, under the line at `boundary`, for the first
     * time near its top: it grows by a fresh map, and then crosses the floor under the line,
     * which the growth has pushed `|carved|` floors down.
     */
    method ArriveExtending(floor: int, boundary: real, banded: MineMap, viewHeight: real)
      returns (ghost carved: MineMap, ghost expanded: seq<Pos>)
      requires Valid() && WellFormed(banded) && |banded| >= 1 && 0 <= floor < |tiles|
      requires 0.0 <= boundary - positionY < height && floor == FloorUnder(boundary, positionY, tileSize)
      modifies this
      ensures Valid() && ModesKept()
      ensures Carved(banded, carved, false, ExtensionRevealable(old(View())), expanded)
      ensures Snapshot() == Cross(Grow(old(Snapshot()), carved, tileSize, viewHeight), floor + |carved|)
                               .(currentFloor := |old(tiles)| - floor)
    {
      ghost var w := Snapshot();
      var newFloor := |tiles| - floor;
      carved, expanded := ExtendMarathon(banded, viewHeight);
      CrossGrown(w, carved, floor, boundary, newFloor, viewHeight);
    }

    /**
     * The crossing after the marathon extension of the board `w` by `carved`: the floor
     * under the line is found again, `|carved|` floors below the floor `floor` found before.
     */
    method CrossGrown(ghost w: Standing, ghost carved: MineMap, ghost floor: int, boundary: real, newFloor: int,
                      ghost viewHeight: real)
      requires Valid() && Shaped(w.board) && |w.board| >= 1 && WellFormed(carved) && tileSize > 0.0
      requires Snapshot() == Grow(w, carved, tileSize, viewHeight)
      requires 0.0 <= boundary - w.positionY < Span(|w.board|, tileSize)
      requires floor == FloorUnder(boundary, w.positionY, tileSize) && 0 <= floor < |w.board|
      modifies this
      ensures Valid() && ModesKept()
      ensures Snapshot() == Cross(Grow(w, carved, tileSize, viewHeight), floor + |carved|).(currentFloor := newFloor)
    {
      FloorAfterGrowth(boundary, w.positionY, positionY, tileSize, |w.board|, |carved|);
      var floor' := FloorUnder(boundary, positionY, tileSize);
      CrossFloor(floor', newFloor);
    }

    /** The reset of one floor's tiles. */
    static method ResetRow(row: seq<Tile>)
      requires forall j, k :: 0 <= j < |row| && 0 <= k < |row| && j != k ==> row[j] != row[k]
      modifies set t | t in row
      ensures forall j :: 0 <= j < |row| ==> row[j].State() == old(row[j].State()).Reset()
    {
      for j := 0 to |row|
        invariant forall i :: 0 <= i < j ==> row[i].State() == old(row[i].State()).Reset()
        invariant forall i :: j <= i < |row| ==> row[i].State() == old(row[i].State())
      {
        row[j].Reset();
      }
    }

    /** The reset of every tile (`forEach(... tile.reset())`): the board forgets its play. */
    method ResetTiles()
      requires Valid()
      modifies TileObjects()
      ensures View() == ResetBoard(old(View()))
    {
      for y := 0 to |tiles|
        invariant forall i, j :: 0 <= i < |tiles| && 0 <= j < CellPerFloor ==>
          tiles[i][j].State() == if i < y then old(tiles[i][j].State()).Reset() else old(tiles[i][j].State())
      {
        ResetRow(tiles[y]);
      }
      ghost var b, r := View(), ResetBoard(old(View()));
      forall i | 0 <= i < |tiles| ensures b[i] == r[i] {
        assert |b[i]| == |r[i]|;
      }
    }

    /** The whole game as a value. */
    ghost function Whole(): Game
      reads this, TileObjects()
    {
      Game(Config(), Snapshot())
    }

    /** What a new board leaves as it was: the status, modes, canvas width, last tile, position, counters and players. */
    function Untouched(): (Status, GameMode, PlayerMode, real, Pos, int, int, int, real, real, int)
      reads this
    {
      (status, gameMode, playerMode, width, lastTilePos, currentFloor, totalPlayers, currentRank,
       startingY, positionY, remainingMines)
    }

    /** A new board for the map `m` (the regeneration in `reset`). */
    method Regenerate(m: MineMap)
      requires Valid() && WellFormed(m)
      modifies this
      ensures Valid()
      ensures tileSize == width / CellPerFloor as real && height == Span(|m|, tileSize)
      ensures View() == Materialise(m) && totalMines == MineCount(m)
      ensures Untouched() == old(Untouched())
    {
      var ts, total, cleared := GenTiles(m);
      label built:
      Place(ts, total);
      BoardKept@built(ts);
    }

    /** Put the grid `ts` and its mine count `total` in place, with the tile size and height they call for. */
    method Place(ts: seq<seq<Tile>>, total: nat)
      requires Valid() && RowsShaped(ts) && DistinctTiles(ts)
      modifies this
      ensures Valid() && tiles == ts && totalMines == total
      ensures tileSize == width / CellPerFloor as real && height == Span(|ts|, tileSize)
      ensures Untouched() == old(Untouched())
    {
      tileSize, height, tiles, totalMines := width / CellPerFloor as real, Span(|ts|, width / CellPerFloor as real), ts, total;
    }

    /**
     * The end of `reset`: the remaining count and the position start over; a multiplayer
     * game then needs a player count and a rank, neither missing nor zero, and takes the
     * player count as its rank; and the game is ready.
     */
    method Restart(totalPlayers: Option<int>, rank: Option<int>, viewHeight: real) returns (err: Option<ResetError>)
      requires Valid()
      modifies this
      ensures Valid()
      ensures remainingMines == totalMines && startingY == -height + viewHeight / 3.0 && positionY == startingY
      ensures err == if playerMode == Multi && (Falsy(totalPlayers) || Falsy(rank)) then Some(MissingPlayerInfo) else None
      ensures status == if err.None? then Ready else old(status)
      ensures if playerMode == Multi && err.None? then this.totalPlayers == totalPlayers.value && currentRank == totalPlayers.value
        else this.totalPlayers == old(this.totalPlayers) && currentRank == old(currentRank)
      ensures unchanged(this`gameMode, this`playerMode, this`width, this`height, this`tileSize, this`tiles)
      ensures unchanged(this`lastTilePos, this`totalMines, this`currentFloor)
    {
      remainingMines, startingY, positionY := totalMines, -height + viewHeight / 3.0, -height + viewHeight / 3.0;
      err := None;
      if playerMode == Multi {
        if Falsy(totalPlayers) || Falsy(rank) {
          return Some(MissingPlayerInfo);
        }
        this.totalPlayers, currentRank := totalPlayers.value, totalPlayers.value;
      }
      status := Ready;
    }

    /** Restart, as Restarted says. */
    method RestartGame(totalPlayers: Option<int>, rank: Option<int>, viewHeight: real) returns (err: Option<ResetError>)
      requires Valid()
      modifies this
      ensures Valid() && tiles == old(tiles)
      ensures (Whole(), err) == Restarted(old(Whole()), totalPlayers, rank, viewHeight)
    {
      ghost var g := Whole();
      label before:
      err := Restart(totalPlayers, rank, viewHeight);
      ViewKept@before();
      RestartedOf(g, totalPlayers, rank, viewHeight, Whole(), err);
    }

    /** The first assignments of `reset`, as Primed says. */
    method Prime(gameMode: Option<GameMode>, playerMode: Option<PlayerMode>)
      requires Valid()
      modifies this
      ensures Valid() && tiles == old(tiles) && Whole() == Primed(old(Whole()), gameMode, playerMode)
      ensures this.gameMode == (if gameMode.Some? then gameMode.value else old(this.gameMode))
      ensures this.playerMode == (if playerMode.Some? then playerMode.value else old(this.playerMode))
    {
      this.gameMode := if gameMode.Some? then gameMode.value else this.gameMode;
      this.playerMode := if playerMode.Some? then playerMode.value else this.playerMode;
      currentFloor, status, lastTilePos := 0, Pending, Pos(-1, -1);
      ViewKept();
    }

    /**
     * `reset`: new modes where given; the floor, status and last tile start over; a new
     * board when there is none or `regen` asks for one, from `mineMap` or else (single
     * player only) from the band loop's map `banded` carved as a new game's map (`made`);
     * otherwise every tile is reset; then the end of the reset. A missing map in a
     * multiplayer game stops the reset after the first assignments, as the `throw` does,
     * and so does missing player information after the position is set.
     */
    method Reset(regen: bool, mineMap: Option<MineMap>, gameMode: Option<GameMode>, playerMode: Option<PlayerMode>,
                 totalPlayers: Option<int>, rank: Option<int>, banded: MineMap, viewHeight: real)
      returns (err: Option<ResetError>, ghost made: MineMap, ghost expanded: seq<Pos>)
      requires Valid()
      requires mineMap.Some? ==> WellFormed(mineMap.value)
      requires WellFormed(banded) && |banded| == TotalFloors(if gameMode.Some? then gameMode.value else this.gameMode)
      modifies this, TileObjects()
      ensures Valid() && WellFormed(made)
      ensures (Whole(), err) == ResetGame(old(Whole()), regen, mineMap, made, gameMode, playerMode, totalPlayers, rank, viewHeight)
      ensures Regenerates(old(Whole()), regen) && err != Some(MissingMineMap) ==>
        if mineMap.Some? then made == mineMap.value else Carved(banded, made, true, RevealableFloors(this.gameMode), expanded)
    {
      made, expanded := [], [];
      Prime(gameMode, playerMode);
      if (|tiles| == 0 || regen) && mineMap.None? && this.playerMode == Multi {
        return Some(MissingMineMap), made, expanded;
      }
      err, made, expanded := Renew(regen, mineMap, totalPlayers, rank, banded, viewHeight);
    }

    /** The rest of `reset` once a map is at hand or not needed: a new board or reset tiles, then the end of the reset. */
    method Renew(regen: bool, mineMap: Option<MineMap>, totalPlayers: Option<int>, rank: Option<int>,
                 banded: MineMap, viewHeight: real)
      returns (err: Option<ResetError>, ghost made: MineMap, ghost expanded: seq<Pos>)
      requires Valid()
      requires mineMap.Some? ==> WellFormed(mineMap.value)
      requires WellFormed(banded) && |banded| == TotalFloors(gameMode)
      modifies this, TileObjects()
      ensures Valid() && WellFormed(made)
      ensures (Whole(), err) == Restarted(if Regenerates(old(Whole()), regen) then NewBoard(old(Whole()), made)
                                          else TilesReset(old(Whole())), totalPlayers, rank, viewHeight)
      ensures Regenerates(old(Whole()), regen) ==>
        if mineMap.Some? then made == mineMap.value else Carved(banded, made, true, RevealableFloors(gameMode), expanded)
    {
      if |tiles| == 0 || regen {
        err, made, expanded := RenewBoard(mineMap, totalPlayers, rank, banded, viewHeight);
      } else {
        made, expanded := [], [];
        err := RenewTiles(totalPlayers, rank, viewHeight);
      }
    }

    method RenewBoard(mineMap: Option<MineMap>, totalPlayers: Option<int>, rank: Option<int>,
                      banded: MineMap, viewHeight: real)
      returns (err: Option<ResetError>, ghost made: MineMap, ghost expanded: seq<Pos>)
      requires Valid()
      requires mineMap.Some? ==> WellFormed(mineMap.value)
      requires WellFormed(banded) && |banded| == TotalFloors(gameMode)
      modifies this
      ensures Valid() && WellFormed(made)
      ensures (Whole(), err) == Restarted(NewBoard(old(Whole()), made), totalPlayers, rank, viewHeight)
      ensures if mineMap.Some? then made == mineMap.value else Carved(banded, made, true, RevealableFloors(gameMode), expanded)
    {
      made, expanded := Rebuild(mineMap, banded);
      err := RestartGame(totalPlayers, rank, viewHeight);
    }

    method RenewTiles(totalPlayers: Option<int>, rank: Option<int>, viewHeight: real) returns (err: Option<ResetError>)
      requires Valid()
      modifies this, TileObjects()
      ensures Valid()
      ensures (Whole(), err) == Restarted(TilesReset(old(Whole())), totalPlayers, rank, viewHeight)
    {
      ResetTiles();
      err := RestartGame(totalPlayers, rank, viewHeight);
    }

    /** The new board of `reset`, from `mineMap`, or else from the band loop's map `banded` carved as a new game's map. */
    method Rebuild(mineMap: Option<MineMap>, banded: MineMap) returns (ghost made: MineMap, ghost expanded: seq<Pos>)
      requires Valid()
      requires mineMap.Some? ==> WellFormed(mineMap.value)
      requires WellFormed(banded) && |banded| == TotalFloors(gameMode)
      modifies this
      ensures Valid() && WellFormed(made) && Whole() == NewBoard(old(Whole()), made)
      ensures if mineMap.Some? then made == mineMap.value else Carved(banded, made, true, RevealableFloors(gameMode), expanded)
    {
      var m;
      expanded := [];
      if mineMap.Some? {
        m := mineMap.value;
      } else {
        m, expanded := CarveSafeZone(banded, true, RevealableFloors(gameMode));
      }
      made := m;
      NewBoardFor(m);
    }

    /** Regenerate, as NewBoard says. */
    method NewBoardFor(m: MineMap)
      requires Valid() && WellFormed(m)
      modifies this
      ensures Valid() && Whole() == NewBoard(old(Whole()), m)
    {
      ghost var g := Whole();
      Regenerate(m);
      NewBoardOf(g, m, Whole());
    }

    /** `start` and `pause` only set the status (the speed update and the log are not modelled). */
    method Start()
      modifies this
      ensures status == Started
      ensures unchanged(this`gameMode, this`playerMode, this`startingY, this`positionY, this`width, this`height)
      ensures unchanged(this`tileSize, this`tiles, this`lastTilePos, this`totalMines, this`remainingMines)
      ensures unchanged(this`currentFloor, this`totalPlayers, this`currentRank)
    {
      status := Started;
    }

    method Pause()
      modifies this
      ensures status == Paused
      ensures unchanged(this`gameMode, this`playerMode, this`startingY, this`positionY, this`width, this`height)
      ensures unchanged(this`tileSize, this`tiles, this`lastTilePos, this`totalMines, this`remainingMines)
      ensures unchanged(this`currentFloor, this`totalPlayers, this`currentRank)
    {
      status := Paused;
    }
  }
}
