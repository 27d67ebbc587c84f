/**
 * The cell entity of the board (src/Tile.ts).  A `Tile` object owns five pieces of
 * state; the mine bit and the default reveal state are fixed at construction, the
 * other three are changed in place by `Reset`, `UpdateMineNearBy`, `Reveal` and
 * `Flag`.  `TileState` is the value a tile holds at one moment: the board-level
 * reasoning works on these values.
 */
module Tiles {

  datatype TileState = TileState(
    isMine: bool,
    isFlagged: bool,
    defaultRevealed: bool,
    isRevealed: bool,
    mineNearBy: nat)
  {
    /** A mine nobody has uncovered yet. */
    predicate UnrevealedMine()
    {
      isMine && !isRevealed
    }

    /**
     * A tile the player may still act on with a reveal: hidden and unflagged, or
     * revealed and numbered (a chord target).
     */
    predicate Revealable(): (r: bool)
      ensures isFlagged ==> !r
      ensures isRevealed && mineNearBy == 0 ==> !r
      ensures !isFlagged && !isRevealed ==> r
      ensures !isFlagged && mineNearBy > 0 ==> r
    {
      !isFlagged && (!isRevealed || (isRevealed && mineNearBy > 0))
    }

    /** The state after `reveal()`. */
    function Reveal(): TileState
    {
      this.(isRevealed := true)
    }

    /** The state after `flag()`. */
    function Flag(): TileState
    {
      this.(isFlagged := !isFlagged)
    }

    /** The state after `reset()`. */
    function Reset(): TileState
    {
      this.(isFlagged := false, isRevealed := defaultRevealed)
    }

    /** The state after `updateMineNearBy(n)`. */
    function WithMineNearBy(n: nat): TileState
    {
      this.(mineNearBy := n)
    }
  }

  /** A freshly constructed tile that was not pre-revealed is in its reset state. */
  lemma NewTileIsReset(isMine: bool, n: nat, revealed: bool)
    ensures TileState(isMine, false, revealed, revealed, n).Reset() == TileState(isMine, false, revealed, revealed, n)
  {
  }

  /** Flagging twice restores the tile exactly. */
  lemma FlagTwiceRestores(s: TileState)
    ensures s.Flag().Flag() == s
  {
  }

  /** Revealing is idempotent, and never touches flag, mine bit or count. */
  lemma RevealIdempotent(s: TileState)
    ensures s.Reveal().Reveal() == s.Reveal()
    ensures s.isRevealed ==> s.Reveal() == s
  {
  }

  /** Resetting is idempotent: it brings a tile back to the state it was built in. */
  lemma ResetIdempotent(s: TileState)
    ensures s.Reset().Reset() == s.Reset()
  {
  }

  /** A flagged tile can be neither revealed directly nor counted as an unrevealed-mine hit. */
  lemma FlaggedNotRevealable(s: TileState)
    requires s.isFlagged
    ensures !s.Revealable() && !s.Flag().isFlagged
  {
  }

  class Tile {
    const isMine: bool
    var isFlagged: bool
    const defaultRevealed: bool
    var isRevealed: bool
    var mineNearBy: nat

    /** The tile's current state as a value. */
    function State(): TileState
      reads this
    {
      TileState(isMine, isFlagged, defaultRevealed, isRevealed, mineNearBy)
    }

    /** A new tile is unflagged; it starts revealed exactly when it is built pre-revealed. */
    constructor (isMine: bool, mineNearBy: nat, isRevealed: bool := false)
      ensures State() == TileState(isMine, false, isRevealed, isRevealed, mineNearBy)
    {
      this.isMine := isMine;
      this.mineNearBy := mineNearBy;
      this.isFlagged := false;
      this.defaultRevealed := isRevealed;
      this.isRevealed := isRevealed;
    }

    method Reset()
      modifies this
      ensures State() == old(State()).Reset()
      ensures !isFlagged && isRevealed == defaultRevealed && mineNearBy == old(mineNearBy)
    {
      isFlagged := false;
      isRevealed := defaultRevealed;
    }

    method UpdateMineNearBy(n: nat)
      modifies this
      ensures State() == old(State()).WithMineNearBy(n)
    {
      mineNearBy := n;
    }

    method Reveal()
      modifies this
      ensures State() == old(State()).Reveal()
      ensures old(isRevealed) ==> State() == old(State())
    {
      isRevealed := true;
    }

    method Flag()
      modifies this
      ensures State() == old(State()).Flag()
      ensures isFlagged != old(isFlagged)
    {
      isFlagged := !isFlagged;
    }
  }
}
