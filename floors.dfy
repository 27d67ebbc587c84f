/**
 * What the game world does to whole floors of the board, as values: the inspection of a
 * floor as the board passes its boundary, the seam floor that joins a marathon board to
 * the made map above it, and the reset of every tile.
 */
module Floors {
  import opened Grid
  import opened Tiles
  import opened Constants
  import opened MineMaps
  import opened Boards

  // ----- Crossing a floor (the inspection in updatePos) -----

  /** A tile that loses the game when its floor is crossed: a flagged safe tile, or a hidden one. */
  predicate Misplayed(s: TileState)
  {
    (s.isFlagged && !s.isMine) || (!s.isRevealed && !s.isMine)
  }

  predicate FloorFailed(row: seq<TileState>)
  {
    exists j :: 0 <= j < |row| && Misplayed(row[j])
  }

  /** A mine without a flag, revealed or not. */
  function Unmarked(s: TileState): nat
  {
    if s.isMine && !s.isFlagged then 1 else 0
  }

  /** The mines of a floor that carry no flag: what crossing it takes off the remaining count. */
  function UnflaggedMines(row: seq<TileState>): (n: nat)
    ensures n <= |row|
  {
    if row == [] then 0 else UnflaggedMines(row[..|row| - 1]) + Unmarked(row[|row| - 1])
  }

  /** The columns of a floor holding a mine without a flag. */
  function UnflaggedAt(row: seq<TileState>): set<int>
  {
    set j | 0 <= j < |row| && row[j].isMine && !row[j].isFlagged
  }

  /** Crossing a floor costs one for each mine on it that carries no flag. */
  lemma {:induction false} UnflaggedMinesCounts(row: seq<TileState>)
    ensures UnflaggedMines(row) == |UnflaggedAt(row)|
  {
    if row != [] {
      var front, last := row[..|row| - 1], |row| - 1;
      UnflaggedMinesCounts(front);
      var extra := if Unmarked(row[last]) == 1 then {last} else {};
      assert UnflaggedAt(row) == UnflaggedAt(front) + extra;
      assert last !in UnflaggedAt(front);
    }
  }

  /** Replacing one tile of a floor changes its crossing cost by that tile's difference. */
  lemma {:induction false} UnflaggedMinesUpdate(row: seq<TileState>, x: int, s: TileState)
    requires 0 <= x < |row|
    ensures UnflaggedMines(row[x := s]) == UnflaggedMines(row) - Unmarked(row[x]) + Unmarked(s)
  {
    var front := row[..|row| - 1];
    if x == |row| - 1 {
      assert row[x := s][..|row| - 1] == front;
    } else {
      assert row[x := s][..|row| - 1] == front[x := s];
      UnflaggedMinesUpdate(front, x, s);
    }
  }

  /**
   * Revealing a tile never changes what crossing its floor costs: a mine revealed by a
   * double click, which already took one off the count, is taken off again at the crossing.
   */
  lemma RevealKeepsCrossingCost(row: seq<TileState>, x: int)
    requires 0 <= x < |row|
    ensures UnflaggedMines(row[x := row[x].Reveal()]) == UnflaggedMines(row)
  {
    UnflaggedMinesUpdate(row, x, row[x].Reveal());
  }

  /** Flagging a hidden mine makes crossing its floor one cheaper. */
  lemma FlagLowersCrossingCost(row: seq<TileState>, x: int)
    requires 0 <= x < |row| && row[x].isMine && !row[x].isFlagged
    ensures UnflaggedMines(row[x := row[x].Flag()]) == UnflaggedMines(row) - 1
  {
    UnflaggedMinesUpdate(row, x, row[x].Flag());
  }

  /** A floor whose every mine is flagged costs nothing to cross. */
  lemma {:induction false} AllFlaggedCostsNothing(row: seq<TileState>)
    requires forall j :: 0 <= j < |row| && row[j].isMine ==> row[j].isFlagged
    ensures UnflaggedMines(row) == 0
  {
    if row != [] {
      AllFlaggedCostsNothing(row[..|row| - 1]);
    }
  }

  // ----- The marathon seam (updatePos with mergeTiles) -----

  /** Whether any tile of the floor is revealed. */
  predicate AnyRevealed(row: seq<TileState>)
  {
    exists j :: 0 <= j < |row| && row[j].isRevealed
  }

  /**
   * The seam tile built for the merged map's last row, after the connection tile `conn`
   * is copied onto it: flagged when `conn` is flagged, revealed when `conn` is revealed,
   * and numbered with the sum of both counts.
   */
  function SeamTile(s: TileState, conn: TileState): TileState
  {
    var flagged := if conn.isFlagged then s.Flag() else s;
    var revealed := if conn.isRevealed then flagged.Reveal() else flagged;
    revealed.WithMineNearBy(s.mineNearBy + conn.mineNearBy)
  }

  function SeamStates(row: seq<TileState>, conn: seq<TileState>): (r: seq<TileState>)
    requires |row| == |conn|
    ensures |r| == |row|
    ensures forall i :: 0 <= i < |row| ==> r[i] == SeamTile(row[i], conn[i])
  {
    seq(|row|, i requires 0 <= i < |row| => SeamTile(row[i], conn[i]))
  }

  /** The map mergeTiles builds: the made map with a row copied from the connection floor appended. */
  function Merged(carved: MineMap, conn: seq<TileState>): (m: MineMap)
    requires WellFormed(carved) && |conn| == CellPerFloor
    ensures WellFormed(m) && |m| == |carved| + 1
  {
    carved + [SeamRow(conn)]
  }

  /** The row mergeTiles appends under a new map: -1 under a mine, -2 under a revealed tile, 0 elsewhere. */
  function SeamRow(top: seq<TileState>): (r: seq<int>)
    ensures |r| == |top|
    ensures forall i :: 0 <= i < |top| ==> (r[i] == MineCell <==> top[i].isMine)
    ensures forall i :: 0 <= i < |top| ==> (r[i] == OpenCell <==> !top[i].isMine && top[i].isRevealed)
  {
    seq(|top|, i requires 0 <= i < |top| =>
      if top[i].isMine then MineCell else if top[i].isRevealed then OpenCell else 0)
  }

  /**
   * The board after a marathon extension: the connection floor `b[0]` gives way to the
   * materialised merged map, whose last row carries the connection floor's state.
   */
  function Extended(b: Board, carved: MineMap): (r: Board)
    requires Shaped(b) && |b| >= 1 && WellFormed(carved)
    ensures |r| == |carved| + |b|
  {
    SeamedTop(carved, b[0]) + b[1..]
  }

  /** The floors that go on top: the materialised merged map, its last row carrying `conn`. */
  function SeamedTop(carved: MineMap, conn: seq<TileState>): (r: Board)
    requires WellFormed(carved) && |conn| == CellPerFloor
    ensures |r| == |carved| + 1
  {
    var made := Materialise(Merged(carved, conn));
    made[..|carved|] + [SeamStates(made[|carved|], conn)]
  }

  /**
   * The extension keeps the board shaped and everything below the connection floor as it
   * was; the seam floor has the connection floor's mines, flags and reveals; and a safe
   * seam tile counts the mines around it in the merged map plus the connection tile's own
   * count, which already included its neighbours on the same floor.
   */
  lemma ExtendedKeepsConnection(b: Board, carved: MineMap)
    requires Shaped(b) && |b| >= 1 && WellFormed(carved)
    ensures Shaped(Extended(b, carved))
    ensures Extended(b, carved)[|carved| + 1..] == b[1..]
    ensures Extended(b, carved)[..|carved|] == Materialise(Merged(carved, b[0]))[..|carved|]
    ensures forall i :: 0 <= i < CellPerFloor ==>
      var s, c := Extended(b, carved)[|carved|][i], b[0][i];
      && s.isMine == c.isMine && s.isFlagged == c.isFlagged && s.isRevealed == c.isRevealed
      && s.mineNearBy == (if c.isMine then 0 else AdjacentMines(Mines(Merged(carved, b[0])), |carved|, i)) + c.mineNearBy
  {
    var r, m := Extended(b, carved), Merged(carved, b[0]);
    var made := Materialise(m);
    assert r[|carved|] == SeamedTop(carved, b[0])[|carved|] == SeamStates(made[|carved|], b[0]);
    forall i | 0 <= i < CellPerFloor
      ensures r[|carved|][i].isMine == b[0][i].isMine && r[|carved|][i].isFlagged == b[0][i].isFlagged
      ensures r[|carved|][i].isRevealed == b[0][i].isRevealed
    {
      assert made[|carved|][i] == CellTile(m, |carved|, i);
      assert m[|carved|][i] == SeamRow(b[0])[i];
    }
    forall y | 0 <= y < |r| ensures |r[y]| == CellPerFloor {
      if y > |carved| {
        assert r[y] == b[y - |carved|];
      }
    }
  }

  // ----- Reset -----

  /** Every tile back in its reset state. */
  function ResetBoard(b: Board): (r: Board)
    ensures |r| == |b|
    ensures forall y :: 0 <= y < |b| ==> |r[y]| == |b[y]|
    ensures forall y, x :: 0 <= y < |b| && 0 <= x < |b[y]| ==> r[y][x] == b[y][x].Reset()
  {
    seq(|b|, y requires 0 <= y < |b| => seq(|b[y]|, x requires 0 <= x < |b[y]| => b[y][x].Reset()))
  }

  /** `b'` is `b` after play: the same shape, mines, default reveals and numbers. */
  predicate SameLayout(b: Board, b': Board)
  {
    && |b'| == |b|
    && (forall y :: 0 <= y < |b| ==> |b'[y]| == |b[y]|)
    && (forall y, x :: 0 <= y < |b| && 0 <= x < |b[y]| ==>
          b'[y][x].isMine == b[y][x].isMine && b'[y][x].defaultRevealed == b[y][x].defaultRevealed
          && b'[y][x].mineNearBy == b[y][x].mineNearBy)
  }

  /** Reset forgets play: boards with the same layout reset to the same board. */
  lemma ResetForgetsPlay(b: Board, b': Board)
    requires SameLayout(b, b')
    ensures ResetBoard(b') == ResetBoard(b)
  {
    var r, r' := ResetBoard(b), ResetBoard(b');
    forall y | 0 <= y < |b| ensures r'[y] == r[y] {
      assert |r'[y]| == |r[y]|;
    }
  }

  /** A freshly generated board is in its reset state, so a reset without regeneration gives it back. */
  lemma ResetRestoresGenerated(m: MineMap)
    requires WellFormed(m)
    ensures ResetBoard(Materialise(m)) == Materialise(m)
  {
    var b := Materialise(m);
    var r := ResetBoard(b);
    forall y | 0 <= y < |m| ensures r[y] == b[y] {
      forall x | 0 <= x < CellPerFloor ensures r[y][x] == b[y][x] {
        assert b[y][x] == CellTile(m, y, x);
      }
    }
  }

  /** Flags, reveals and floods are play: they keep the layout. */
  lemma FlagKeepsLayout(b: Board, p: Pos)
    requires Shaped(b) && OnBoard(b, p)
    ensures SameLayout(b, FlagAt(b, p))
  {
  }

  lemma RevealsKeepLayout(b: Board, b': Board)
    requires Shaped(b) && Shaped(b') && |b| == |b'| && RevealsOnly(b, b')
    ensures SameLayout(b, b')
  {
  }

  lemma RevealAllKeepsLayout(b: Board, ps: seq<Pos>)
    requires Shaped(b) && forall q :: q in ps ==> 0 <= q.y < |b| && 0 <= q.x < CellPerFloor
    ensures SameLayout(b, RevealAll(b, ps))
  {
  }
}
