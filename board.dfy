/**
 * The minesweeper board: a grid of packed cell states, the round counters
 * and the hints recorded for revealed cells, updated in place by clicks.
 */
module Minesweeper {
  import opened CellState
  import opened Grid

  datatype Option<T> = None | Some(value: T)

  /**
   * The invariant of a board built from a mine set: the grid covers the
   * board, `safeCells` counts the cells without a mine, every hint is
   * correct for an open cell, and every open safe cell has a hint.
   */
  ghost predicate BoardInv(cols: nat, lines: nat, safeCells: int, g: Cells, hints: map<Pos, int>) {
    && g.Keys == AllCells(cols, lines)
    && safeCells == |SafeSet(g)|
    && HintsCorrect(cols, lines, g, hints)
    && OpenSafeHinted(g, hints)
  }

  /** The invariant survives a grid change that keeps the mines and opens no safe cell without a hint. */
  lemma InvKept(cols: nat, lines: nat, safeCells: int, g: Cells, g': Cells, hints: map<Pos, int>)
    requires BoardInv(cols, lines, safeCells, g, hints)
    requires MinesKept(g, g') && OpenSafeHinted(g', hints)
    ensures BoardInv(cols, lines, safeCells, g', hints)
  {
    MinesKeptSets(g, g');
    HintsTransfer(cols, lines, g, g', hints);
  }

  /**
   * The first step of a reveal: opening the unflagged cell `p`.  A mine
   * keeps the invariant with the hints as they were; any cell keeps it once
   * its mine count, the same before and after opening, is recorded.
   */
  lemma RevealStart(cols: nat, lines: nat, safeCells: int, g: Cells, hints: map<Pos, int>, p: Pos)
    requires BoardInv(cols, lines, safeCells, g, hints) && p in g && !IsFlagged(g[p])
    ensures GridStep(g, g[p := g[p] | OPEN], p)
    ensures Unsettled(cols, lines, g[p := g[p] | OPEN], hints) <= Unsettled(cols, lines, g, hints)
    ensures IsMine(g[p]) ==> BoardInv(cols, lines, safeCells, g[p := g[p] | OPEN], hints)
    ensures MinesNearby(g[p := g[p] | OPEN], Neighbors(cols, lines, p)) == MinesNearby(g, Neighbors(cols, lines, p))
    ensures BoardInv(cols, lines, safeCells, g[p := g[p] | OPEN],
                     hints[p := MinesNearby(g, Neighbors(cols, lines, p))])
    ensures HintsGrow(hints, hints[p := MinesNearby(g, Neighbors(cols, lines, p))])
    ensures Unsettled(cols, lines, g[p := g[p] | OPEN], hints[p := MinesNearby(g, Neighbors(cols, lines, p))])
            <= Unsettled(cols, lines, g, hints) + {p}
  {
    OpenCellStep(g, p);
    if IsMine(g[p]) {
      RevealStartMine(cols, lines, safeCells, g, hints, p);
    }
    RevealStartHint(cols, lines, safeCells, g, hints, p);
    RevealStartUnsettled(cols, lines, g, hints, p, MinesNearby(g, Neighbors(cols, lines, p)));
  }

  /** Opening a mine keeps the invariant with the hints as they were. */
  lemma RevealStartMine(cols: nat, lines: nat, safeCells: int, g: Cells, hints: map<Pos, int>, p: Pos)
    requires BoardInv(cols, lines, safeCells, g, hints) && p in g && !IsFlagged(g[p]) && IsMine(g[p])
    ensures BoardInv(cols, lines, safeCells, g[p := g[p] | OPEN], hints)
  {
    var g' := g[p := g[p] | OPEN];
    OpenCell(g, p);
    forall q ensures Hinted(g', hints, q) {
      assert Hinted(g, hints, q);
    }
    InvKept(cols, lines, safeCells, g, g', hints);
  }

  /** Opening a cell and recording its mine count keeps the invariant; the count is unchanged by the opening. */
  lemma RevealStartHint(cols: nat, lines: nat, safeCells: int, g: Cells, hints: map<Pos, int>, p: Pos)
    requires BoardInv(cols, lines, safeCells, g, hints) && p in g && !IsFlagged(g[p])
    ensures MinesNearby(g[p := g[p] | OPEN], Neighbors(cols, lines, p)) == MinesNearby(g, Neighbors(cols, lines, p))
    ensures BoardInv(cols, lines, safeCells, g[p := g[p] | OPEN],
                     hints[p := MinesNearby(g, Neighbors(cols, lines, p))])
    ensures HintsGrow(hints, hints[p := MinesNearby(g, Neighbors(cols, lines, p))])
  {
    var g' := g[p := g[p] | OPEN];
    var ns := Neighbors(cols, lines, p);
    OpenCell(g, p);
    OpenBits(g[p]);
    MinesKeptSets(g, g');
    HintsTransfer(cols, lines, g, g', hints);
    forall n | n in ns ensures n in g && n in g' && IsMine(g'[n]) == IsMine(g[n]) {
      assert KeptAt(g, g', n);
    }
    MinesNearbySameMines(g, g', ns);
    HintAdded(cols, lines, g', hints, p);
    var h' := hints[p := MinesNearby(g, ns)];
    forall q ensures Hinted(g', h', q) {
      assert Hinted(g, hints, q);
    }
  }

  /** Opening a cell unsettles nothing; recording its hint adds at most the cell itself. */
  lemma RevealStartUnsettled(cols: nat, lines: nat, g: Cells, hints: map<Pos, int>, p: Pos, v: int)
    requires p in g && !IsFlagged(g[p])
    ensures Unsettled(cols, lines, g[p := g[p] | OPEN], hints) <= Unsettled(cols, lines, g, hints)
    ensures Unsettled(cols, lines, g[p := g[p] | OPEN], hints[p := v]) <= Unsettled(cols, lines, g, hints) + {p}
  {
    var g' := g[p := g[p] | OPEN];
    OpenCellStep(g, p);
    UnsettledShrinks(cols, lines, g, g', p, hints);
    forall q | q in Unsettled(cols, lines, g', hints[p := v]) && q != p
      ensures q in Unsettled(cols, lines, g', hints)
    {
    }
  }

  /**
   * Opening a cell without a mine and recording its hint: what `RevealStart`
   * gives, together with the count of open safe cells and, for a zero hint,
   * that every neighbour is on the board and has no mine.
   */
  lemma RevealSafeStart(cols: nat, lines: nat, safeCells: int, g0: Cells, h0: map<Pos, int>, p: Pos)
    requires BoardInv(cols, lines, safeCells, g0, h0) && p in g0
    requires Revealable(g0[p]) && g0[p] != MINE
    ensures g0[p] == SAFE || g0[p] == OPEN_MINE
    ensures var g1 := g0[p := g0[p] | OPEN];
      var ns := Neighbors(cols, lines, p);
      var h1 := h0[p := MinesNearby(g0, ns)];
      && IsOpen(g1[p]) && MinesNearby(g1, ns) == MinesNearby(g0, ns)
      && BoardInv(cols, lines, safeCells, g1, h1)
      && GridStep(g0, g1, p) && HintsGrow(h0, h1)
      && Unsettled(cols, lines, g1, h1) <= Unsettled(cols, lines, g0, h0) + {p}
      && |OpenSafe(g1)| == |OpenSafe(g0)| + (if g0[p] == SAFE then 1 else 0)
      && (MinesNearby(g0, ns) == 0 ==> forall n :: n in ns ==> n in g1 && !IsMine(g1[n]))
  {
    var g1 := g0[p := g0[p] | OPEN];
    var ns := Neighbors(cols, lines, p);
    RevealStart(cols, lines, safeCells, g0, h0, p);
    OpenCell(g0, p);
    RevealableStates(g0[p]);
    OpenBits(g0[p]);
    MinesNearbyZero(g1, ns);
  }

  /**
   * The end of a reveal of `p` without a mine: whatever the flood fill did
   * after `p` was opened and hinted, the whole click is a step started at
   * `p`, loses no hint, and leaves no new unsettled cell.
   */
  lemma RevealSafeEnd(cols: nat, lines: nat, g0: Cells, h0: map<Pos, int>, g1: Cells, h1: map<Pos, int>,
                      g: Cells, h: map<Pos, int>, p: Pos)
    requires p in g0 && p in h1 && p in g1 && IsOpen(g1[p])
    requires GridStep(g0, g1, p) && HintsGrow(h0, h1)
    requires Unsettled(cols, lines, g1, h1) <= Unsettled(cols, lines, g0, h0) + {p}
    requires GridStep(g1, g, p) && HintsGrow(h1, h)
    requires Unsettled(cols, lines, g, h) <= Unsettled(cols, lines, g1, h1)
    requires h1[p] == 0 ==> Settled(cols, lines, g, p)
    ensures GridStep(g0, g, p) && g[p] == g1[p]
    ensures HintsGrow(h0, h) && p in h && h[p] == h1[p]
    ensures Unsettled(cols, lines, g, h) <= Unsettled(cols, lines, g0, h0)
  {
    GridStepTrans(g0, g1, g, p);
    GridStepAt(g0, g1, p, p);
    GridStepAt(g1, g, p, p);
    HintsGrowTrans(h0, h1, h);
    assert HintKept(h1, h, p);
    assert p !in Unsettled(cols, lines, g, h);
  }

  /** Toggling a flag keeps the invariant and opens nothing. */
  lemma FlagKeeps(cols: nat, lines: nat, safeCells: int, g: Cells, hints: map<Pos, int>, p: Pos)
    requires BoardInv(cols, lines, safeCells, g, hints) && p in g
    ensures BoardInv(cols, lines, safeCells, g[p := Toggled(g[p])], hints)
    ensures OpenSafe(g[p := Toggled(g[p])]) == OpenSafe(g)
  {
    var g' := g[p := Toggled(g[p])];
    forall q ensures KeptAt(g, g', q) && Hinted(g', hints, q) {
      assert Hinted(g, hints, q);
    }
    assert OpenSafe(g') == OpenSafe(g);
    InvKept(cols, lines, safeCells, g, g', hints);
  }

  /** Opening every mine keeps the invariant and opens no further safe cell. */
  lemma MinesOpenedKeeps(cols: nat, lines: nat, safeCells: int, g: Cells, hints: map<Pos, int>)
    requires BoardInv(cols, lines, safeCells, g, hints)
    ensures BoardInv(cols, lines, safeCells, MinesOpened(g), hints)
  {
    var g' := MinesOpened(g);
    forall q ensures KeptAt(g, g', q) && Hinted(g', hints, q) {
      assert Hinted(g, hints, q);
    }
    InvKept(cols, lines, safeCells, g, g', hints);
  }

  /**
   * The state of a flood fill around `p` after clicking the first `i` of
   * its neighbours `ns`, starting from the grid `g1` and hints `h1`: the
   * invariant holds, only reveal steps from `p` happened, no hint was lost,
   * nothing was unsettled or closed, every change is within the reach of
   * a fill from `p`, and those `i` neighbours are open or flagged.
   */
  ghost predicate Cascaded(cols: nat, lines: nat, safeCells: int, g1: Cells, h1: map<Pos, int>,
                           g: Cells, h: map<Pos, int>, p: Pos, ns: seq<Pos>, i: nat)
  {
    && BoardInv(cols, lines, safeCells, g, h)
    && GridStep(g1, g, p) && HintsGrow(h1, h)
    && Unsettled(cols, lines, g, h) <= Unsettled(cols, lines, g1, h1)
    && |Closed(g)| <= |Closed(g1)|
    && Fed(cols, lines, g1, g, h, p)
    && i <= |ns|
    && forall j :: 0 <= j < i ==> OpenOrFlagged(g, ns[j])
  }

  lemma CascadeStart(cols: nat, lines: nat, safeCells: int, g: Cells, h: map<Pos, int>, p: Pos, ns: seq<Pos>)
    requires BoardInv(cols, lines, safeCells, g, h)
    ensures Cascaded(cols, lines, safeCells, g, h, g, h, p, ns, 0)
  {
    GridStepRefl(g, p);
    HintsGrowRefl(h);
    FedRefl(cols, lines, g, h, p);
  }

  /** The next neighbour to click is still on the board and still has no mine. */
  lemma CascadeNext(cols: nat, lines: nat, safeCells: int, g1: Cells, h1: map<Pos, int>,
                    g: Cells, h: map<Pos, int>, p: Pos, ns: seq<Pos>, i: nat)
    requires Cascaded(cols, lines, safeCells, g1, h1, g, h, p, ns, i) && i < |ns|
    requires ns[i] in g1 && !IsMine(g1[ns[i]])
    ensures ns[i] in g && !IsMine(g[ns[i]]) && MineBit(g, ns[i]) == 0
  {
    GridStepAt(g1, g, p, ns[i]);
  }

  /** A reveal click on the next neighbour extends the flood fill by one. */
  lemma CascadeStep(cols: nat, lines: nat, safeCells: int, g1: Cells, h1: map<Pos, int>,
                    gi: Cells, hi: map<Pos, int>, g: Cells, h: map<Pos, int>, p: Pos, ns: seq<Pos>, i: nat)
    requires Cascaded(cols, lines, safeCells, g1, h1, gi, hi, p, ns, i) && i < |ns|
    requires ns == Neighbors(cols, lines, p) && p in h1 && h1[p] == 0
    requires ns[i] in gi && !IsMine(gi[ns[i]])
    requires BoardInv(cols, lines, safeCells, g, h)
    requires GridStep(gi, g, ns[i]) && HintsGrow(hi, h) && OpenOrFlagged(g, ns[i])
    requires Unsettled(cols, lines, g, h) <= Unsettled(cols, lines, gi, hi)
    requires Fed(cols, lines, gi, g, h, ns[i]) && (g == gi || Revealable(gi[ns[i]]))
    ensures Cascaded(cols, lines, safeCells, g1, h1, g, h, p, ns, i + 1)
  {
    RevealableStates(gi[ns[i]]);
    assert HintKept(h1, hi, p);
    FedStep(cols, lines, g1, gi, hi, g, h, p, ns[i]);
    GridStepMoved(gi, g, ns[i], p);
    GridStepTrans(g1, gi, g, p);
    GridStepClosed(gi, g, p);
    HintsGrowTrans(h1, hi, h);
    forall j | 0 <= j < i ensures OpenOrFlagged(g, ns[j]) {
      GridStepAt(gi, g, ns[i], ns[j]);
    }
  }

  /** Once every neighbour has been clicked, `p` is settled. */
  lemma CascadeDone(cols: nat, lines: nat, safeCells: int, g1: Cells, h1: map<Pos, int>,
                    g: Cells, h: map<Pos, int>, p: Pos)
    requires Cascaded(cols, lines, safeCells, g1, h1, g, h, p, Neighbors(cols, lines, p), |Neighbors(cols, lines, p)|)
    ensures Settled(cols, lines, g, p)
  {
    var ns := Neighbors(cols, lines, p);
    forall n | n in ns ensures OpenOrFlagged(g, n) {
      var j :| 0 <= j < |ns| && ns[j] == n;
    }
  }

  class MineSweeperBoard {
    const cols: nat
    const lines: nat
    const safeCells: int
    var grid: Cells
    var minesLeft: int
    var hints: map<Pos, int>
    var lastClicked: Option<State>
    var cellsRevealed: int

    ghost predicate Valid()
      reads this
    {
      BoardInv(cols, lines, safeCells, grid, hints)
    }

    /** Every safe cell opened so far has been counted exactly once. */
    ghost predicate Counted()
      reads this
    {
      cellsRevealed == |OpenSafe(grid)|
    }

    /**
     * While every open safe cell has been counted once, the count of
     * revealed cells stays within the safe cells, and reaches them exactly
     * when every safe cell is open.
     */
    lemma CountedBound()
      requires Valid() && Counted()
      ensures cellsRevealed <= safeCells
      ensures cellsRevealed == safeCells <==> OpenSafe(grid) == SafeSet(grid)
    {
      OpenSafeBound(grid);
    }

    /** A board over a given grid holding `mines` mines, before any click. */
    constructor (grid: Cells, mines: int, cols: nat, lines: nat)
      ensures this.grid == grid && this.cols == cols && this.lines == lines
      ensures minesLeft == mines && hints == map[] && lastClicked == None
      ensures cellsRevealed == 0 && safeCells == cols * lines - mines
    {
      this.grid := grid;
      this.minesLeft := mines;
      this.hints := map[];
      this.cols := cols;
      this.lines := lines;
      this.lastClicked := None;
      this.cellsRevealed := 0;
      this.safeCells := cols * lines - mines;
    }

    /**
     * A fresh board with mines at the given positions: all cells present
     * and closed, exactly those cells mined, counters at their start values.
     */
    constructor Random(cols: nat, lines: nat, mines: set<Pos>)
      requires mines <= AllCells(cols, lines)
      ensures Valid() && Counted()
      ensures this.cols == cols && this.lines == lines
      ensures grid.Keys == AllCells(cols, lines) && |grid| == cols * lines
      ensures forall q :: q in grid ==> grid[q] == (if q in mines then MINE else SAFE)
      ensures MineSet(grid) == mines
      ensures minesLeft == |mines| && safeCells == cols * lines - |mines|
      ensures cellsRevealed == 0 && hints == map[] && lastClicked == None
    {
      var g := MineGrid(cols, lines, mines);
      MineGridCounts(cols, lines, mines);
      AllCellsSize(cols, lines);
      this.grid := g;
      this.minesLeft := |mines|;
      this.hints := map[];
      this.cols := cols;
      this.lines := lines;
      this.lastClicked := None;
      this.cellsRevealed := 0;
      this.safeCells := cols * lines - |mines|;
    }

    /**
     * A click on `p`, flagging when `flag` is set.  A cell whose state is
     * exactly OPEN ignores every click, a flagged cell ignores a reveal, a
     * flag click toggles the flag, and any other click reveals the cell.
     */
    method Action(p: Pos, flag: bool)
      requires Valid() && p in grid
      modifies this
      decreases |Closed(grid)|, MineBit(grid, p), 1
      ensures Valid()
      ensures HintsGrow(old(hints), hints)
      // the guards
      ensures old(grid[p]) == OPEN || (!flag && IsFlagged(old(grid[p]))) ==>
        && grid == old(grid) && hints == old(hints) && minesLeft == old(minesLeft)
        && cellsRevealed == old(cellsRevealed) && lastClicked == old(lastClicked)
      // flagging
      ensures flag && old(grid[p]) != OPEN ==>
        && grid == old(grid)[p := Toggled(old(grid[p]))]
        && minesLeft == old(minesLeft) + FlagDelta(old(grid[p]))
        && hints == old(hints) && cellsRevealed == old(cellsRevealed) && lastClicked == old(lastClicked)
      // revealing: only OPEN bits are set, never on a flagged cell or on a
      // mine other than `p`; `p` ends open or flagged
      ensures !flag ==> GridStep(old(grid), grid, p) && minesLeft == old(minesLeft)
      ensures !flag ==> OpenOrFlagged(grid, p)
      ensures !flag ==> Unsettled(cols, lines, grid, hints) <= old(Unsettled(cols, lines, grid, hints))
      // ... and every cell it changes is `p` or a neighbour of a cell with
      // hint 0 that was `p` or was closed before the click
      ensures !flag ==> Fed(cols, lines, old(grid), grid, hints, p)
      // the count of revealed cells follows the open safe cells, except that
      // a reveal click on an open mine counts once more
      ensures cellsRevealed - |OpenSafe(grid)| ==
              old(cellsRevealed - |OpenSafe(grid)|) + (if !flag && old(grid[p]) == OPEN_MINE then 1 else 0)
      ensures old(Counted()) && (flag || old(grid[p]) != OPEN_MINE) ==> Counted()
      ensures !flag && Revealable(old(grid[p])) ==>
        lastClicked.Some? && (lastClicked.value == MINE <==> old(grid[p]) == MINE)
      ensures !flag && old(grid[p]) == MINE ==>
        && grid == old(grid)[p := OPEN_MINE] && hints == old(hints)
        && cellsRevealed == old(cellsRevealed) && lastClicked == Some(MINE)
      ensures !flag && Revealable(old(grid[p])) && old(grid[p]) != MINE ==>
        && p in hints && hints[p] == MinesNearby(old(grid), Neighbors(cols, lines, p))
        && (hints[p] == 0 ==> Settled(cols, lines, grid, p))
      ensures !flag && Revealable(old(grid[p])) && old(grid[p]) != MINE &&
              MinesNearby(old(grid), Neighbors(cols, lines, p)) != 0 ==>
        && grid == old(grid)[p := old(grid[p]) | OPEN]
        && hints == old(hints)[p := MinesNearby(old(grid), Neighbors(cols, lines, p))]
        && cellsRevealed == old(cellsRevealed) + 1 && lastClicked == Some(old(grid[p]))
    {
      var state := grid[p];
      if state == OPEN {
        GridStepRefl(grid, p);
        HintsGrowRefl(hints);
        FedRefl(cols, lines, grid, hints, p);
        return;
      }
      if flag {
        Flag(p, state);
        HintsGrowRefl(hints);
      } else if (state & FLAGGED) == FLAGGED {
        GridStepRefl(grid, p);
        HintsGrowRefl(hints);
        FedRefl(cols, lines, grid, hints, p);
        return;
      } else {
        Reveal(p, state);
      }
    }

    /** Toggles the flag on `p`, whose state is `state`, and keeps `minesLeft` in step. */
    method Flag(p: Pos, state: State)
      requires Valid() && p in grid && state == grid[p]
      modifies this
      ensures Valid()
      ensures grid == old(grid)[p := Toggled(state)]
      ensures minesLeft == old(minesLeft) + FlagDelta(state)
      ensures hints == old(hints) && cellsRevealed == old(cellsRevealed) && lastClicked == old(lastClicked)
      ensures OpenSafe(grid) == old(OpenSafe(grid))
    {
      if (state & FLAGGED) == FLAGGED {
        grid := grid[p := grid[p] ^ FLAGGED];
      } else {
        grid := grid[p := grid[p] | FLAGGED];
      }
      assert grid == old(grid)[p := Toggled(state)];
      if state == MINE {
        minesLeft := minesLeft - 1;
      } else if grid[p] == MINE {
        minesLeft := minesLeft + 1;
      }
      assert Valid() && OpenSafe(grid) == old(OpenSafe(grid)) by {
        FlagKeeps(cols, lines, safeCells, old(grid), hints, p);
      }
    }

    /**
     * Opens `p`, whose state `state` passed the click guards.  A mine stops
     * there; a safe cell is counted, gets its hint, and when no neighbour
     * holds a mine every neighbour is clicked in turn.
     */
    method Reveal(p: Pos, state: State)
      requires Valid() && p in grid && state == grid[p] && Revealable(state)
      modifies this
      decreases |Closed(grid)|, MineBit(grid, p), 0
      ensures Valid()
      ensures GridStep(old(grid), grid, p) && HintsGrow(old(hints), hints) && minesLeft == old(minesLeft)
      ensures grid[p] == state | OPEN
      ensures Unsettled(cols, lines, grid, hints) <= old(Unsettled(cols, lines, grid, hints))
      ensures Fed(cols, lines, old(grid), grid, hints, p)
      ensures cellsRevealed - |OpenSafe(grid)| ==
              old(cellsRevealed - |OpenSafe(grid)|) + (if state == OPEN_MINE then 1 else 0)
      ensures lastClicked.Some? && (lastClicked.value == MINE <==> state == MINE)
      ensures state == MINE ==>
        && grid == old(grid)[p := OPEN_MINE] && hints == old(hints)
        && cellsRevealed == old(cellsRevealed) && lastClicked == Some(MINE)
      ensures state != MINE ==>
        && p in hints && hints[p] == MinesNearby(old(grid), Neighbors(cols, lines, p))
        && (hints[p] == 0 ==> Settled(cols, lines, grid, p))
      ensures state != MINE && MinesNearby(old(grid), Neighbors(cols, lines, p)) != 0 ==>
        && grid == old(grid)[p := state | OPEN]
        && hints == old(hints)[p := MinesNearby(old(grid), Neighbors(cols, lines, p))]
        && cellsRevealed == old(cellsRevealed) + 1 && lastClicked == Some(state)
    {
      ghost var g0, h0 := grid, hints;
      lastClicked := Some(state);
      grid := grid[p := grid[p] | OPEN];
      if state == MINE {
        assert && Valid() && GridStep(g0, grid, p)
               && Unsettled(cols, lines, grid, hints) <= Unsettled(cols, lines, g0, h0)
               && |OpenSafe(grid)| == |OpenSafe(g0)| by {
          RevealStart(cols, lines, safeCells, g0, h0, p);
          OpenCell(g0, p);
        }
        HintsGrowRefl(hints);
        FedOpen(cols, lines, g0, hints, p, state | OPEN);
        return;
      }
      assert |Closed(grid)| < |Closed(g0)| || (|Closed(grid)| == |Closed(g0)| && MineBit(g0, p) == 1) by {
        OpenCell(g0, p);
        RevealableStates(state);
      }
      RevealSafe(p, state, g0, h0);
    }

    /**
     * The rest of a reveal of `p`, which had state `state` and no mine, once
     * it is open: it is counted, gets its hint, and when no neighbour holds a
     * mine every neighbour is clicked in turn.
     */
    method RevealSafe(p: Pos, state: State, ghost g0: Cells, ghost h0: map<Pos, int>)
      requires BoardInv(cols, lines, safeCells, g0, h0) && p in g0 && state == g0[p]
      requires Revealable(state) && state != MINE
      requires grid == g0[p := state | OPEN] && hints == h0 && lastClicked == Some(state)
      modifies this
      decreases |Closed(grid)|, 0, 3
      ensures Valid()
      ensures GridStep(g0, grid, p) && HintsGrow(h0, hints) && minesLeft == old(minesLeft)
      ensures grid[p] == state | OPEN
      ensures Unsettled(cols, lines, grid, hints) <= Unsettled(cols, lines, g0, h0)
      ensures Fed(cols, lines, g0, grid, hints, p)
      ensures cellsRevealed - |OpenSafe(grid)| ==
              old(cellsRevealed) - |OpenSafe(g0)| + (if state == OPEN_MINE then 1 else 0)
      ensures lastClicked.Some? && lastClicked.value != MINE
      ensures p in hints && hints[p] == MinesNearby(g0, Neighbors(cols, lines, p))
      ensures hints[p] == 0 ==> Settled(cols, lines, grid, p)
      ensures MinesNearby(g0, Neighbors(cols, lines, p)) != 0 ==>
        && grid == old(grid) && hints == h0[p := MinesNearby(g0, Neighbors(cols, lines, p))]
        && cellsRevealed == old(cellsRevealed) + 1 && lastClicked == Some(state)
    {
      ghost var g1 := grid;
      RevealSafeStart(cols, lines, safeCells, g0, h0, p);
      cellsRevealed := cellsRevealed + 1;
      var neighbors := Neighbors(cols, lines, p);
      var minesNearby := MinesNearby(grid, neighbors);
      hints := hints[p := minesNearby];
      ghost var h1 := hints;
      if minesNearby == 0 {
        RevealNeighbors(p, neighbors);
        FedPrefix(cols, lines, g0, grid, hints, p, state | OPEN);
      } else {
        GridStepRefl(g1, p);
        HintsGrowRefl(h1);
        FedOpen(cols, lines, g0, hints, p, state | OPEN);
      }
      RevealSafeEnd(cols, lines, g0, h0, g1, h1, grid, hints, p);
    }

    /**
     * The cascade of a reveal whose cell `p` has no mined neighbour: every
     * neighbour is clicked in turn, and afterwards each of them is open or
     * flagged.
     */
    method RevealNeighbors(p: Pos, neighbors: seq<Pos>)
      requires Valid() && p in grid && neighbors == Neighbors(cols, lines, p)
      requires forall n :: n in neighbors ==> n in grid && !IsMine(grid[n])
      requires lastClicked.Some? && lastClicked.value != MINE
      requires p in hints && hints[p] == 0
      modifies this
      decreases |Closed(grid)|, 0, 2
      ensures Valid()
      ensures GridStep(old(grid), grid, p) && HintsGrow(old(hints), hints) && minesLeft == old(minesLeft)
      ensures cellsRevealed - |OpenSafe(grid)| == old(cellsRevealed - |OpenSafe(grid)|)
      ensures Unsettled(cols, lines, grid, hints) <= old(Unsettled(cols, lines, grid, hints))
      ensures Fed(cols, lines, old(grid), grid, hints, p)
      ensures lastClicked.Some? && lastClicked.value != MINE
      ensures Settled(cols, lines, grid, p)
    {
      ghost var g1, h1 := grid, hints;
      CascadeStart(cols, lines, safeCells, g1, h1, p, neighbors);
      for i := 0 to |neighbors|
        invariant Cascaded(cols, lines, safeCells, g1, h1, grid, hints, p, neighbors, i)
        invariant minesLeft == old(minesLeft)
        invariant cellsRevealed - |OpenSafe(grid)| == old(cellsRevealed) - |OpenSafe(g1)|
        invariant lastClicked.Some? && lastClicked.value != MINE
      {
        var n := neighbors[i];
        ghost var gi, hi := grid, hints;
        CascadeNext(cols, lines, safeCells, g1, h1, gi, hi, p, neighbors, i);
        Action(n, false);
        CascadeStep(cols, lines, safeCells, g1, h1, gi, hi, grid, hints, p, neighbors, i);
      }
      CascadeDone(cols, lines, safeCells, g1, h1, grid, hints, p);
    }

    /** Shows every mine at the end of a round: each mined cell becomes OPEN_MINE. */
    method OpenMines()
      requires Valid()
      modifies this
      ensures Valid()
      ensures grid == MinesOpened(old(grid))
      ensures minesLeft == old(minesLeft) && hints == old(hints)
      ensures cellsRevealed == old(cellsRevealed) && lastClicked == old(lastClicked)
      ensures Counted() == old(Counted())
    {
      ghost var g0 := grid;
      var todo := grid.Keys;
      while todo != {}
        invariant todo <= g0.Keys && grid.Keys == g0.Keys
        invariant forall q :: q in g0 ==> grid[q] == if q in todo then g0[q] else MinesOpened(g0)[q]
        modifies this`grid
        decreases todo
      {
        var q :| q in todo;
        if (grid[q] & MINE) == MINE {
          grid := grid[q := OPEN_MINE];
        }
        todo := todo - {q};
      }
      assert grid == MinesOpened(g0);
      assert Valid() && OpenSafe(grid) == OpenSafe(g0) by {
        MinesOpenedKeeps(cols, lines, safeCells, g0, hints);
        MinesOpenedSpec(g0);
      }
    }
  }
}
