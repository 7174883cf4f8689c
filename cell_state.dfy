/**
 * The packed state of one cell of the board: a bitmask over MINE, FLAGGED
 * and OPEN.  Every value the board can hold is built from SAFE or MINE by
 * or-ing in FLAGGED or OPEN, xor-ing out FLAGGED, or assigning OPEN_MINE,
 * so three bits hold every reachable state.
 */
module CellState {

  type State = bv3

  const SAFE: State := 0
  const MINE: State := 1
  const FLAGGED: State := 2
  const OPEN: State := 4
  const OPEN_MINE: State := MINE | OPEN

  predicate IsMine(s: State) { (s & MINE) == MINE }
  predicate IsFlagged(s: State) { (s & FLAGGED) == FLAGGED }
  predicate IsOpen(s: State) { (s & OPEN) == OPEN }

  /**
   * A left click on a cell in state `s` reaches the reveal step: the cell is
   * not exactly OPEN (an open mine passes this test) and not flagged.
   */
  predicate Revealable(s: State) { s != OPEN && !IsFlagged(s) }

  /** The states that pass the click guards are SAFE, MINE and OPEN_MINE. */
  lemma RevealableStates(s: State)
    ensures Revealable(s) <==> s == SAFE || s == MINE || s == OPEN_MINE
  {
  }

  /** Setting the OPEN bit changes no other bit, and nothing on an open cell. */
  lemma OpenBits(s: State)
    ensures IsOpen(s | OPEN) && IsMine(s | OPEN) == IsMine(s) && IsFlagged(s | OPEN) == IsFlagged(s)
    ensures IsOpen(s) ==> s | OPEN == s
  {
  }

  /** The state after a flag toggle: the FLAGGED bit flipped, nothing else. */
  function Toggled(s: State): (t: State)
    ensures IsFlagged(t) != IsFlagged(s)
    ensures IsMine(t) == IsMine(s) && IsOpen(t) == IsOpen(s)
  {
    if IsFlagged(s) then s ^ FLAGGED else s | FLAGGED
  }

  /**
   * The change to the count of unflagged mines made by toggling the flag
   * of a cell whose state was `s`: one less when a closed unflagged mine
   * becomes flagged, one more when a closed flagged mine becomes unflagged.
   */
  function FlagDelta(s: State): (d: int)
    ensures -1 <= d <= 1
  {
    if s == MINE then -1
    else if Toggled(s) == MINE then 1
    else 0
  }

  /** Toggling twice gives back the state it started from. */
  lemma ToggledTwice(s: State)
    ensures Toggled(Toggled(s)) == s
  {
  }

  /** Flagging and then unflagging a cell leaves the mine count where it was. */
  lemma FlagDeltaRoundTrip(s: State)
    ensures FlagDelta(s) + FlagDelta(Toggled(s)) == 0
  {
  }

  /**
   * The mine count goes down exactly when a closed unflagged mine is flagged,
   * up exactly when a closed flagged mine is unflagged, and never moves for
   * a cell with no mine.
   */
  lemma FlagDeltaCases(s: State)
    ensures FlagDelta(s) == -1 <==> s == MINE
    ensures FlagDelta(s) == 1 <==> s == MINE | FLAGGED
    ensures !IsMine(s) ==> FlagDelta(s) == 0
    ensures IsOpen(s) ==> FlagDelta(s) == 0
  {
  }
}
