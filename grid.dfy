/**
 * The grid of a board as a value: a map from (column, row) positions to
 * packed cell states, the in-bounds Moore neighbourhood of a position, the
 * mine count over a list of neighbours, and the grid built from a set of
 * mine positions.  The board class keeps one such map and rewrites it.
 */
module Grid {
  import opened CellState

  /** A position (column, row) on the board. */
  type Pos = (int, int)

  type Cells = map<Pos, State>

  predicate InBounds(cols: int, lines: int, q: Pos) {
    0 <= q.0 < cols && 0 <= q.1 < lines
  }

  /** Every position of a board `cols` wide and `lines` high. */
  function AllCells(cols: nat, lines: nat): (r: set<Pos>)
    ensures forall q :: q in r <==> InBounds(cols, lines, q)
  {
    set c, l | 0 <= c < cols && 0 <= l < lines :: (c, l)
  }

  /** The positions of column `c`, rows 0 to `lines` - 1. */
  function Column(c: int, lines: nat): (r: set<Pos>)
    ensures forall q :: q in r <==> q.0 == c && 0 <= q.1 < lines
  {
    set l | 0 <= l < lines :: (c, l)
  }

  lemma {:induction false} ColumnSize(c: int, lines: nat)
    ensures |Column(c, lines)| == lines
  {
    if lines > 0 {
      ColumnSize(c, lines - 1);
      assert Column(c, lines) == Column(c, lines - 1) + {(c, lines - 1)};
    } else {
      assert Column(c, lines) == {};
    }
  }

  /** The positions of a board are those of one column fewer and those of its last column. */
  lemma AllCellsSplit(cols: nat, lines: nat)
    requires cols > 0
    ensures AllCells(cols, lines) == AllCells(cols - 1, lines) + Column(cols - 1, lines)
    ensures AllCells(cols - 1, lines) !! Column(cols - 1, lines)
  {
    var left, last := AllCells(cols - 1, lines), Column(cols - 1, lines);
    forall q ensures q in AllCells(cols, lines) <==> q in left || q in last {
    }
  }

  lemma MulStep(a: nat, b: nat)
    requires a > 0
    ensures (a - 1) * b + b == a * b
  {
  }

  /** A board `cols` wide and `lines` high has exactly cols * lines positions. */
  lemma {:induction false} AllCellsSize(cols: nat, lines: nat)
    ensures |AllCells(cols, lines)| == cols * lines
  {
    if cols > 0 {
      AllCellsSize(cols - 1, lines);
      ColumnSize(cols - 1, lines);
      AllCellsSplit(cols, lines);
      MulStep(cols, lines);
    } else {
      assert AllCells(cols, lines) == {};
    }
  }

  // ---------------------------------------------------------------------
  // Neighbours

  /**
   * The eight offsets of the Moore neighbourhood, each written (dy, dx) and
   * listed in the order the board enumerates them.
   */
  const Offsets: seq<(int, int)> :=
    [(-1, -1), (-1, 0), (-1, 1),
     ( 0, -1),          ( 0, 1),
     ( 1, -1), ( 1, 0), ( 1, 1)]

  /** The position `q` moved by the offset `o` = (dy, dx). */
  function Shift(q: Pos, o: (int, int)): Pos {
    (q.0 + o.1, q.1 + o.0)
  }

  /** `q` touches `p` horizontally, vertically or diagonally. */
  predicate Adjacent(p: Pos, q: Pos) {
    q != p && -1 <= q.0 - p.0 <= 1 && -1 <= q.1 - p.1 <= 1
  }

  predicate Distinct<T(==)>(s: seq<T>) {
    forall i, j :: 0 <= i < j < |s| ==> s[i] != s[j]
  }

  /** The shifts of `p` by `offs`, in order, that stay on the board. */
  function NeighborsBy(cols: int, lines: int, p: Pos, offs: seq<(int, int)>): (r: seq<Pos>)
    ensures |r| <= |offs|
    ensures forall q :: q in r ==> InBounds(cols, lines, q)
  {
    if offs == [] then []
    else
      var q := Shift(p, offs[0]);
      (if InBounds(cols, lines, q) then [q] else []) + NeighborsBy(cols, lines, p, offs[1..])
  }

  /** The in-bounds Moore neighbours of `p`. */
  function Neighbors(cols: int, lines: int, p: Pos): (r: seq<Pos>)
    ensures forall q :: q in r ==> InBounds(cols, lines, q)
  {
    NeighborsBy(cols, lines, p, Offsets)
  }

  /** A position is listed exactly when some offset moves `p` onto it and it is on the board. */
  lemma {:induction false} NeighborsByMembers(cols: int, lines: int, p: Pos, offs: seq<(int, int)>, q: Pos)
    ensures q in NeighborsBy(cols, lines, p, offs) <==>
            InBounds(cols, lines, q) && exists k :: 0 <= k < |offs| && q == Shift(p, offs[k])
  {
    if offs != [] {
      NeighborsByMembers(cols, lines, p, offs[1..], q);
      if q in NeighborsBy(cols, lines, p, offs[1..]) {
        var k :| 0 <= k < |offs[1..]| && q == Shift(p, offs[1..][k]);
        assert q == Shift(p, offs[k + 1]);
      }
      if InBounds(cols, lines, q) && q != Shift(p, offs[0]) {
        if k :| 0 <= k < |offs| && q == Shift(p, offs[k]) {
          assert k != 0;
          assert q == Shift(p, offs[1..][k - 1]);
        }
      }
    }
  }

  /** Distinct offsets give distinct neighbours. */
  lemma {:induction false} NeighborsByDistinct(cols: int, lines: int, p: Pos, offs: seq<(int, int)>)
    requires Distinct(offs)
    ensures Distinct(NeighborsBy(cols, lines, p, offs))
  {
    if offs != [] {
      var rest := NeighborsBy(cols, lines, p, offs[1..]);
      assert Distinct(offs[1..]) by {
        forall i, j | 0 <= i < j < |offs[1..]| ensures offs[1..][i] != offs[1..][j] {
          assert offs[1..][i] == offs[i + 1] && offs[1..][j] == offs[j + 1];
        }
      }
      NeighborsByDistinct(cols, lines, p, offs[1..]);
      var q := Shift(p, offs[0]);
      NeighborsByMembers(cols, lines, p, offs[1..], q);
      assert q !in rest;
    }
  }

  /** The offset that moves `p` onto an adjacent `q`. */
  lemma AdjacentOffset(p: Pos, q: Pos) returns (k: int)
    requires Adjacent(p, q)
    ensures 0 <= k < |Offsets| && q == Shift(p, Offsets[k])
  {
    var dy, dx := q.1 - p.1, q.0 - p.0;
    k := if dy == -1 then 1 + dx else if dy == 0 then (if dx == -1 then 3 else 4) else 6 + dx;
  }

  /** Every offset moves a position onto an adjacent one. */
  lemma OffsetsAdjacent(p: Pos, k: int)
    requires 0 <= k < |Offsets|
    ensures Adjacent(p, Shift(p, Offsets[k]))
  {
  }

  lemma NeighborAt(cols: int, lines: int, p: Pos, q: Pos)
    ensures q in Neighbors(cols, lines, p) <==> InBounds(cols, lines, q) && Adjacent(p, q)
  {
    NeighborsByMembers(cols, lines, p, Offsets, q);
    if Adjacent(p, q) {
      var k := AdjacentOffset(p, q);
    }
    if k :| 0 <= k < |Offsets| && q == Shift(p, Offsets[k]) {
      OffsetsAdjacent(p, k);
    }
  }

  /**
   * The neighbours of `p` are the positions on the board adjacent to `p`:
   * each listed once, never `p` itself, at most eight of them.
   */
  lemma NeighborsSpec(cols: int, lines: int, p: Pos)
    ensures |Neighbors(cols, lines, p)| <= 8
    ensures Distinct(Neighbors(cols, lines, p))
    ensures forall q :: q in Neighbors(cols, lines, p) <==> InBounds(cols, lines, q) && Adjacent(p, q)
  {
    NeighborsByDistinct(cols, lines, p, Offsets);
    forall q ensures q in Neighbors(cols, lines, p) <==> InBounds(cols, lines, q) && Adjacent(p, q) {
      NeighborAt(cols, lines, p, q);
    }
  }

  // ---------------------------------------------------------------------
  // Mine counts

  /** How many of the positions `ns` carry the MINE bit in `g`. */
  function MinesNearby(g: Cells, ns: seq<Pos>): (r: nat)
    requires forall n :: n in ns ==> n in g
    ensures r <= |ns|
  {
    if ns == [] then 0
    else (if IsMine(g[ns[0]]) then 1 else 0) + MinesNearby(g, ns[1..])
  }

  /** The count is zero exactly when none of the positions holds a mine. */
  lemma {:induction false} MinesNearbyZero(g: Cells, ns: seq<Pos>)
    requires forall n :: n in ns ==> n in g
    ensures MinesNearby(g, ns) == 0 <==> forall n :: n in ns ==> !IsMine(g[n])
  {
    if ns != [] {
      MinesNearbyZero(g, ns[1..]);
      assert forall n :: n in ns <==> n == ns[0] || n in ns[1..];
    }
  }

  /** The positions of `ns` that are on the grid and carry the MINE bit. */
  function MinedAmong(g: Cells, ns: seq<Pos>): set<Pos> {
    set n | n in ns && n in g && IsMine(g[n])
  }

  /** One mined position among them makes the count non-zero. */
  lemma MinedNeighbor(g: Cells, ns: seq<Pos>, n: Pos)
    requires (forall m :: m in ns ==> m in g) && n in ns && IsMine(g[n])
    ensures MinesNearby(g, ns) != 0
  {
    MinesNearbyZero(g, ns);
  }

  /** Over a list without repeats the count is the number of mined positions in it. */
  lemma {:induction false} MinesNearbyIsSize(g: Cells, ns: seq<Pos>)
    requires forall n :: n in ns ==> n in g
    requires Distinct(ns)
    ensures MinesNearby(g, ns) == |MinedAmong(g, ns)|
  {
    if ns == [] {
      assert MinedAmong(g, ns) == {};
    } else {
      var rest := ns[1..];
      assert Distinct(rest) by {
        forall i, j | 0 <= i < j < |rest| ensures rest[i] != rest[j] {
          assert rest[i] == ns[i + 1] && rest[j] == ns[j + 1];
        }
      }
      MinesNearbyIsSize(g, rest);
      var all := MinedAmong(g, ns);
      var tail := MinedAmong(g, rest);
      assert ns[0] !in rest;
      if IsMine(g[ns[0]]) {
        assert all == tail + {ns[0]};
      } else {
        assert all == tail;
      }
    }
  }

  /** The count only looks at MINE bits. */
  lemma {:induction false} MinesNearbySameMines(g: Cells, g': Cells, ns: seq<Pos>)
    requires forall n :: n in ns ==> n in g && n in g' && IsMine(g'[n]) == IsMine(g[n])
    ensures MinesNearby(g', ns) == MinesNearby(g, ns)
  {
    if ns != [] {
      MinesNearbySameMines(g, g', ns[1..]);
    }
  }

  /** A hint lies between 0 and 8, and is the number of mined neighbours. */
  lemma HintRange(cols: int, lines: int, g: Cells, p: Pos)
    requires forall q :: InBounds(cols, lines, q) ==> q in g
    ensures MinesNearby(g, Neighbors(cols, lines, p)) <= 8
    ensures MinesNearby(g, Neighbors(cols, lines, p)) ==
            |MinedAmong(g, Neighbors(cols, lines, p))|
  {
    NeighborsSpec(cols, lines, p);
    MinesNearbyIsSize(g, Neighbors(cols, lines, p));
  }

  // ---------------------------------------------------------------------
  // Classes of cells

  /** The positions holding a mine. */
  function MineSet(g: Cells): set<Pos> {
    set q | q in g && IsMine(g[q])
  }

  /** The positions without a mine. */
  function SafeSet(g: Cells): set<Pos> {
    set q | q in g && !IsMine(g[q])
  }

  /** The positions without a mine that have been opened. */
  function OpenSafe(g: Cells): set<Pos> {
    set q | q in g && !IsMine(g[q]) && IsOpen(g[q])
  }

  /** The positions not yet opened. */
  function Closed(g: Cells): set<Pos> {
    set q | q in g && !IsOpen(g[q])
  }

  /** 1 for a position holding a mine, 0 otherwise. */
  function MineBit(g: Cells, p: Pos): nat {
    if p in g && IsMine(g[p]) then 1 else 0
  }

  lemma SubsetSize<T>(a: set<T>, b: set<T>)
    requires a <= b
    ensures |a| <= |b|
    ensures |a| == |b| ==> a == b
  {
    assert b == a + (b - a);
    if |a| == |b| {
      assert |b - a| == 0;
    }
  }

  /** The cells opened so far are among the safe cells, so there are no more of them. */
  lemma OpenSafeBound(g: Cells)
    ensures OpenSafe(g) <= SafeSet(g)
    ensures |OpenSafe(g)| <= |SafeSet(g)|
    ensures |OpenSafe(g)| == |SafeSet(g)| <==> OpenSafe(g) == SafeSet(g)
  {
    SubsetSize(OpenSafe(g), SafeSet(g));
  }

  // ---------------------------------------------------------------------
  // How the operations change the grid

  /** At `q`, `g'` keeps the MINE bit of `g` and keeps an OPEN bit set. */
  predicate KeptAt(g: Cells, g': Cells, q: Pos) {
    q in g ==> q in g' && IsMine(g'[q]) == IsMine(g[q]) && (IsOpen(g[q]) ==> IsOpen(g'[q]))
  }

  /**
   * `g'` keeps the positions and MINE bits of `g` and keeps every OPEN bit
   * set: what every board operation does to the grid.
   */
  ghost predicate MinesKept(g: Cells, g': Cells) {
    g'.Keys == g.Keys && forall q :: KeptAt(g, g', q)
  }

  lemma MinesKeptSets(g: Cells, g': Cells)
    requires MinesKept(g, g')
    ensures MineSet(g') == MineSet(g) && SafeSet(g') == SafeSet(g)
    ensures Closed(g') <= Closed(g) && |Closed(g')| <= |Closed(g)|
    ensures OpenSafe(g) <= OpenSafe(g')
  {
    forall q | q in g ensures IsMine(g'[q]) == IsMine(g[q]) && (IsOpen(g[q]) ==> IsOpen(g'[q])) {
      assert KeptAt(g, g', q);
    }
    SubsetSize(Closed(g'), Closed(g));
  }

  /**
   * What a reveal click started at `p` may do to the cell `q`: set its OPEN
   * bit and nothing else, and leave it alone when it is flagged or when it
   * is a mine other than `p`.
   */
  predicate CellStep(g: Cells, g': Cells, p: Pos, q: Pos) {
    q in g ==>
      && q in g'
      && (g'[q] == g[q] || g'[q] == g[q] | OPEN)
      && (IsMine(g[q]) && q != p ==> g'[q] == g[q])
      && (IsFlagged(g[q]) ==> g'[q] == g[q])
  }

  /** What a reveal click started at `p` may do to the grid. */
  ghost predicate GridStep(g: Cells, g': Cells, p: Pos) {
    g'.Keys == g.Keys && forall q :: CellStep(g, g', p, q)
  }

  lemma GridStepAt(g: Cells, g': Cells, p: Pos, q: Pos)
    requires GridStep(g, g', p) && q in g
    ensures q in g' && IsMine(g'[q]) == IsMine(g[q]) && IsFlagged(g'[q]) == IsFlagged(g[q])
    ensures g'[q] == g[q] || g'[q] == g[q] | OPEN
    ensures IsOpen(g[q]) ==> g'[q] == g[q]
    ensures IsMine(g[q]) && q != p ==> g'[q] == g[q]
    ensures IsFlagged(g[q]) ==> g'[q] == g[q]
    ensures OpenOrFlagged(g, q) ==> OpenOrFlagged(g', q)
  {
    assert CellStep(g, g', p, q);
  }

  lemma GridStepRefl(g: Cells, p: Pos)
    ensures GridStep(g, g, p)
  {
    forall q ensures CellStep(g, g, p, q) {
    }
  }

  lemma GridStepTrans(g: Cells, g': Cells, g'': Cells, p: Pos)
    requires GridStep(g, g', p) && GridStep(g', g'', p)
    ensures GridStep(g, g'', p)
  {
    forall q ensures CellStep(g, g'', p, q) {
      assert CellStep(g, g', p, q);
      assert CellStep(g', g'', p, q);
    }
  }

  /** A step started at a cell without a mine leaves every mine alone. */
  lemma GridStepMoved(g: Cells, g': Cells, n: Pos, p: Pos)
    requires GridStep(g, g', n) && (n in g ==> !IsMine(g[n]))
    ensures GridStep(g, g', p)
  {
    forall q ensures CellStep(g, g', p, q) {
      assert CellStep(g, g', n, q);
    }
  }

  lemma GridStepKeepsMines(g: Cells, g': Cells, p: Pos)
    requires GridStep(g, g', p)
    ensures MinesKept(g, g')
  {
    forall q ensures KeptAt(g, g', q) {
      assert CellStep(g, g', p, q);
    }
  }

  /** A reveal click closes no cell. */
  lemma GridStepClosed(g: Cells, g': Cells, p: Pos)
    requires GridStep(g, g', p)
    ensures |Closed(g')| <= |Closed(g)|
  {
    GridStepKeepsMines(g, g', p);
    MinesKeptSets(g, g');
  }

  /**
   * Opening an unflagged cell is a step started there; it leaves one closed
   * cell fewer and one more open safe cell, unless it was open or a mine.
   */
  lemma OpenCell(g: Cells, p: Pos)
    requires p in g && !IsFlagged(g[p])
    ensures GridStep(g, g[p := g[p] | OPEN], p)
    ensures MinesKept(g, g[p := g[p] | OPEN])
    ensures |Closed(g[p := g[p] | OPEN])| == |Closed(g)| - (if IsOpen(g[p]) then 0 else 1)
    ensures OpenSafe(g[p := g[p] | OPEN]) ==
            OpenSafe(g) + (if IsMine(g[p]) then {} else {p})
    ensures |OpenSafe(g[p := g[p] | OPEN])| ==
            |OpenSafe(g)| + (if IsMine(g[p]) || IsOpen(g[p]) then 0 else 1)
  {
    OpenCellStep(g, p);
    GridStepKeepsMines(g, g[p := g[p] | OPEN], p);
    OpenCellClosed(g, p);
    OpenCellSafe(g, p);
  }

  lemma OpenCellStep(g: Cells, p: Pos)
    requires p in g && !IsFlagged(g[p])
    ensures GridStep(g, g[p := g[p] | OPEN], p)
  {
    var g' := g[p := g[p] | OPEN];
    forall q ensures CellStep(g, g', p, q) {
    }
  }

  lemma OpenCellClosed(g: Cells, p: Pos)
    requires p in g
    ensures |Closed(g[p := g[p] | OPEN])| == |Closed(g)| - (if IsOpen(g[p]) then 0 else 1)
  {
    var g' := g[p := g[p] | OPEN];
    if IsOpen(g[p]) {
      assert g' == g;
    } else {
      assert Closed(g) == Closed(g') + {p};
    }
  }

  lemma OpenCellSafe(g: Cells, p: Pos)
    requires p in g
    ensures OpenSafe(g[p := g[p] | OPEN]) == OpenSafe(g) + (if IsMine(g[p]) then {} else {p})
    ensures |OpenSafe(g[p := g[p] | OPEN])| ==
            |OpenSafe(g)| + (if IsMine(g[p]) || IsOpen(g[p]) then 0 else 1)
  {
    var g' := g[p := g[p] | OPEN];
    OpenBits(g[p]);
    if IsOpen(g[p]) {
      assert g' == g;
    } else if IsMine(g[p]) {
      assert OpenSafe(g') == OpenSafe(g);
    } else {
      assert p !in OpenSafe(g);
      assert OpenSafe(g') == OpenSafe(g) + {p};
    }
  }

  /** The cells for which a hint is kept in `h'` as it was in `h`. */
  predicate HintKept(h: map<Pos, int>, h': map<Pos, int>, q: Pos) {
    q in h ==> q in h' && h'[q] == h[q]
  }

  /** `h'` keeps every hint of `h`. */
  ghost predicate HintsGrow(h: map<Pos, int>, h': map<Pos, int>) {
    forall q :: HintKept(h, h', q)
  }

  lemma HintsGrowRefl(h: map<Pos, int>)
    ensures HintsGrow(h, h)
  {
    forall q ensures HintKept(h, h, q) {
    }
  }

  lemma HintsGrowTrans(h: map<Pos, int>, h': map<Pos, int>, h'': map<Pos, int>)
    requires HintsGrow(h, h') && HintsGrow(h', h'')
    ensures HintsGrow(h, h'')
  {
    forall q ensures HintKept(h, h'', q) {
      assert HintKept(h, h', q) && HintKept(h', h'', q);
    }
  }

  /**
   * The hint recorded for `q`, if any, belongs to an open cell and is the
   * number of mined neighbours of that cell.
   */
  predicate HintOk(cols: int, lines: int, g: Cells, hints: map<Pos, int>, q: Pos) {
    q in hints ==>
      && q in g && IsOpen(g[q])
      && (forall n :: n in Neighbors(cols, lines, q) ==> n in g)
      && hints[q] == MinesNearby(g, Neighbors(cols, lines, q))
  }

  /** Every recorded hint is correct. */
  ghost predicate HintsCorrect(cols: int, lines: int, g: Cells, hints: map<Pos, int>) {
    forall q :: HintOk(cols, lines, g, hints, q)
  }

  /** An open cell without a mine at `q` has a hint. */
  predicate Hinted(g: Cells, hints: map<Pos, int>, q: Pos) {
    q in g && !IsMine(g[q]) && IsOpen(g[q]) ==> q in hints
  }

  /** Every open cell without a mine has a hint. */
  ghost predicate OpenSafeHinted(g: Cells, hints: map<Pos, int>) {
    forall q :: Hinted(g, hints, q)
  }

  lemma OpenSafeHintedSpec(g: Cells, hints: map<Pos, int>)
    ensures OpenSafeHinted(g, hints) <==> OpenSafe(g) <= hints.Keys
  {
    if OpenSafe(g) <= hints.Keys {
      forall q ensures Hinted(g, hints, q) {
        if q in g && !IsMine(g[q]) && IsOpen(g[q]) {
          assert q in OpenSafe(g);
        }
      }
    }
    if OpenSafeHinted(g, hints) {
      forall q | q in OpenSafe(g) ensures q in hints.Keys {
        assert Hinted(g, hints, q);
      }
    }
  }

  /** Hints stay correct while the MINE bits stay put and no cell closes. */
  lemma HintsTransfer(cols: int, lines: int, g: Cells, g': Cells, hints: map<Pos, int>)
    requires MinesKept(g, g')
    requires HintsCorrect(cols, lines, g, hints)
    ensures HintsCorrect(cols, lines, g', hints)
  {
    forall q ensures HintOk(cols, lines, g', hints, q) {
      assert HintOk(cols, lines, g, hints, q);
      assert KeptAt(g, g', q);
      if q in hints {
        forall n | n in Neighbors(cols, lines, q) ensures n in g' && IsMine(g'[n]) == IsMine(g[n]) {
          assert KeptAt(g, g', n);
        }
        MinesNearbySameMines(g, g', Neighbors(cols, lines, q));
      }
    }
  }

  /** Recording the mine count of an open cell keeps every hint correct. */
  lemma HintAdded(cols: int, lines: int, g: Cells, hints: map<Pos, int>, p: Pos)
    requires HintsCorrect(cols, lines, g, hints)
    requires p in g && IsOpen(g[p]) && forall n :: n in Neighbors(cols, lines, p) ==> n in g
    ensures HintsCorrect(cols, lines, g, hints[p := MinesNearby(g, Neighbors(cols, lines, p))])
    ensures HintsGrow(hints, hints[p := MinesNearby(g, Neighbors(cols, lines, p))])
  {
    var h := hints[p := MinesNearby(g, Neighbors(cols, lines, p))];
    forall q ensures HintOk(cols, lines, g, h, q) && HintKept(hints, h, q) {
      assert HintOk(cols, lines, g, hints, q);
    }
  }

  // ---------------------------------------------------------------------
  // Neighbourhoods that a flood fill has reached

  /** `n` is open, or flagged and so left alone by a flood fill. */
  predicate OpenOrFlagged(g: Cells, n: Pos) {
    n in g && (IsOpen(g[n]) || IsFlagged(g[n]))
  }

  /** Every neighbour of `q` is open or flagged. */
  predicate Settled(cols: int, lines: int, g: Cells, q: Pos) {
    forall n :: n in Neighbors(cols, lines, q) ==> OpenOrFlagged(g, n)
  }

  /** The cells with hint 0 whose neighbourhood is not yet fully opened. */
  function Unsettled(cols: int, lines: int, g: Cells, hints: map<Pos, int>): set<Pos> {
    set q | q in hints && hints[q] == 0 && !Settled(cols, lines, g, q)
  }

  /** A reveal click unsettles nothing that was settled. */
  lemma UnsettledShrinks(cols: int, lines: int, g: Cells, g': Cells, p: Pos, hints: map<Pos, int>)
    requires GridStep(g, g', p)
    ensures Unsettled(cols, lines, g', hints) <= Unsettled(cols, lines, g, hints)
  {
    forall q | q in hints && Settled(cols, lines, g, q) ensures Settled(cols, lines, g', q) {
      forall n | n in Neighbors(cols, lines, q) ensures OpenOrFlagged(g', n) {
        assert CellStep(g, g', p, n);
      }
    }
  }

  // ---------------------------------------------------------------------
  // How far a flood fill can reach

  /**
   * `r` can pass a reveal click started at `p` on to its neighbour `q`: it
   * has hint 0, and it is `p` itself or was closed before the click.
   */
  predicate Feeds(cols: int, lines: int, g0: Cells, h: map<Pos, int>, p: Pos, r: Pos, q: Pos) {
    && r in h && h[r] == 0
    && q in Neighbors(cols, lines, r)
    && (r == p || (r in g0 && !IsOpen(g0[r])))
  }

  /** If the click started at `p` changed `q`, then `q` is `p` or a neighbour of a cell that feeds it. */
  ghost predicate FedAt(cols: int, lines: int, g0: Cells, g: Cells, h: map<Pos, int>, p: Pos, q: Pos) {
    q in g0 && q in g && g[q] != g0[q] ==> q == p || exists r :: Feeds(cols, lines, g0, h, p, r, q)
  }

  /**
   * The upper bound on a reveal click started at `p` that turned `g0` into
   * `g` with hints `h`: every changed cell is `p` or a neighbour of a cell
   * with hint 0 that was `p` or was closed before the click.
   */
  ghost predicate Fed(cols: int, lines: int, g0: Cells, g: Cells, h: map<Pos, int>, p: Pos) {
    forall q :: FedAt(cols, lines, g0, g, h, p, q)
  }

  lemma FedRefl(cols: int, lines: int, g: Cells, h: map<Pos, int>, p: Pos)
    ensures Fed(cols, lines, g, g, h, p)
  {
    forall q ensures FedAt(cols, lines, g, g, h, p, q) {
    }
  }

  /** Changing `p` alone is within the bound of a click started at `p`. */
  lemma FedOpen(cols: int, lines: int, g: Cells, h: map<Pos, int>, p: Pos, s: State)
    ensures Fed(cols, lines, g, g[p := s], h, p)
  {
    var g' := g[p := s];
    forall q ensures FedAt(cols, lines, g, g', h, p, q) {
    }
  }

  /** A flood fill from `p` after `p` alone was changed is within the bound of the whole click. */
  lemma FedPrefix(cols: int, lines: int, g0: Cells, g: Cells, h: map<Pos, int>, p: Pos, s: State)
    requires Fed(cols, lines, g0[p := s], g, h, p)
    ensures Fed(cols, lines, g0, g, h, p)
  {
    var g1 := g0[p := s];
    forall q ensures FedAt(cols, lines, g0, g, h, p, q) {
      if q in g0 && q in g && g[q] != g0[q] && q != p {
        assert FedAt(cols, lines, g1, g, h, p, q);
        var r :| Feeds(cols, lines, g1, h, p, r, q);
        assert Feeds(cols, lines, g0, h, p, r, q);
      }
    }
  }

  /**
   * Clicking a neighbour `n` of a cell `p` with hint 0 keeps the flood fill
   * from `p` within its bound, provided the click on `n`, when it changes
   * anything, starts on a closed cell.
   */
  lemma FedStep(cols: int, lines: int, g1: Cells, gi: Cells, hi: map<Pos, int>, g: Cells, h: map<Pos, int>,
                p: Pos, n: Pos)
    requires Fed(cols, lines, g1, gi, hi, p) && GridStep(g1, gi, p)
    requires Fed(cols, lines, gi, g, h, n) && GridStep(gi, g, n) && HintsGrow(hi, h)
    requires p in hi && hi[p] == 0 && n in Neighbors(cols, lines, p)
    requires g == gi || (n in gi && !IsOpen(gi[n]))
    ensures Fed(cols, lines, g1, g, h, p)
  {
    forall q ensures FedAt(cols, lines, g1, g, h, p, q) {
      if q in g1 && q in g && g[q] != g1[q] && q != p {
        GridStepAt(g1, gi, p, q);
        if gi[q] != g1[q] {
          assert FedAt(cols, lines, g1, gi, hi, p, q);
          var r :| Feeds(cols, lines, g1, hi, p, r, q);
          assert HintKept(hi, h, r);
          assert Feeds(cols, lines, g1, h, p, r, q);
        } else {
          assert FedAt(cols, lines, gi, g, h, n, q);
          assert HintKept(hi, h, p);
          if q == n {
            assert Feeds(cols, lines, g1, h, p, p, q);
          } else {
            var r :| Feeds(cols, lines, gi, h, n, r, q);
            if r != p {
              GridStepAt(g1, gi, p, r);
            }
            assert Feeds(cols, lines, g1, h, p, r, q);
          }
        }
      }
    }
  }

  /**
   * With correct hints, a flood fill from `p` leaves alone every other cell
   * all of whose neighbours on the grid have a mined neighbour.
   */
  lemma FedUntouched(cols: int, lines: int, g0: Cells, g: Cells, h: map<Pos, int>, p: Pos, q: Pos)
    requires Fed(cols, lines, g0, g, h, p) && HintsCorrect(cols, lines, g, h)
    requires q in g0 && q in g && q != p
    requires forall r :: r in g && q in Neighbors(cols, lines, r) ==>
               (forall n :: n in Neighbors(cols, lines, r) ==> n in g) && MinesNearby(g, Neighbors(cols, lines, r)) != 0
    ensures g[q] == g0[q]
  {
    forall r ensures !Feeds(cols, lines, g0, h, p, r, q) {
      assert HintOk(cols, lines, g, h, r);
    }
    assert FedAt(cols, lines, g0, g, h, p, q);
  }

  /**
   * On a board five cells wide and one high with a mine in the middle, a
   * click on the left end may open the two cells left of the mine but never
   * reaches the right end.
   */
  lemma FiveByOneCascade(g0: Cells, g: Cells, h: map<Pos, int>)
    requires g0 == MineGrid(5, 1, {(2, 0)})
    requires GridStep(g0, g, (0, 0)) && Fed(5, 1, g0, g, h, (0, 0)) && HintsCorrect(5, 1, g, h)
    ensures g[(4, 0)] == SAFE
  {
    assert g0[(2, 0)] == MINE && g0[(4, 0)] == SAFE;
    GridStepAt(g0, g, (0, 0), (2, 0));
    RightEndUntouched(g0, g, h);
  }

  /** The step of `FiveByOneCascade` that needs only the mine at (2, 0). */
  lemma RightEndUntouched(g0: Cells, g: Cells, h: map<Pos, int>)
    requires g.Keys == AllCells(5, 1) && IsMine(g[(2, 0)]) && (4, 0) in g0
    requires Fed(5, 1, g0, g, h, (0, 0)) && HintsCorrect(5, 1, g, h)
    ensures g[(4, 0)] == g0[(4, 0)]
  {
    var q := (4, 0);
    forall r | r in g && q in Neighbors(5, 1, r)
      ensures (forall n :: n in Neighbors(5, 1, r) ==> n in g) && MinesNearby(g, Neighbors(5, 1, r)) != 0
    {
      var ns := Neighbors(5, 1, r);
      assert forall m :: m in ns ==> m in g;
      MineBesideRightEnd(r);
      MinedNeighbor(g, ns, (2, 0));
    }
    FedUntouched(5, 1, g0, g, h, (0, 0), q);
  }

  /** On a board five cells wide and one high, a cell beside (4, 0) is beside (2, 0). */
  lemma MineBesideRightEnd(r: Pos)
    requires (4, 0) in Neighbors(5, 1, r) && InBounds(5, 1, r)
    ensures (2, 0) in Neighbors(5, 1, r)
  {
    NeighborAt(5, 1, r, (4, 0));
    assert Adjacent(r, (2, 0));
    NeighborAt(5, 1, r, (2, 0));
  }

  // ---------------------------------------------------------------------
  // Building the grid and opening the mines

  /**
   * The grid of a fresh board: every position of the board present, MINE at
   * the given positions and SAFE everywhere else.
   */
  function MineGrid(cols: nat, lines: nat, mines: set<Pos>): (g: Cells)
    ensures g.Keys == AllCells(cols, lines)
    ensures forall q :: q in g ==> g[q] == (if q in mines then MINE else SAFE)
  {
    map q | q in AllCells(cols, lines) :: if q in mines then MINE else SAFE
  }

  /** A fresh grid holds exactly the given mines, all closed, and cols * lines - k safe cells. */
  lemma MineGridCounts(cols: nat, lines: nat, mines: set<Pos>)
    requires mines <= AllCells(cols, lines)
    ensures MineSet(MineGrid(cols, lines, mines)) == mines
    ensures |MineSet(MineGrid(cols, lines, mines))| == |mines|
    ensures |SafeSet(MineGrid(cols, lines, mines))| == cols * lines - |mines|
    ensures Closed(MineGrid(cols, lines, mines)) == AllCells(cols, lines)
    ensures OpenSafe(MineGrid(cols, lines, mines)) == {}
  {
    var g := MineGrid(cols, lines, mines);
    assert SafeSet(g) == AllCells(cols, lines) - mines;
    AllCellsSize(cols, lines);
    assert AllCells(cols, lines) == SafeSet(g) + mines;
  }

  /** The grid at the end of a round: every cell with a mine shown as OPEN_MINE. */
  function MinesOpened(g: Cells): (g': Cells)
    ensures g'.Keys == g.Keys
  {
    map q | q in g :: if IsMine(g[q]) then OPEN_MINE else g[q]
  }

  /**
   * Opening the mines changes every mined cell to exactly OPEN_MINE, leaves
   * the other cells alone, and doing it again changes nothing.
   */
  lemma MinesOpenedSpec(g: Cells)
    ensures forall q :: q in g && IsMine(g[q]) ==> MinesOpened(g)[q] == OPEN_MINE
    ensures forall q :: q in g && !IsMine(g[q]) ==> MinesOpened(g)[q] == g[q]
    ensures MinesOpened(MinesOpened(g)) == MinesOpened(g)
    ensures MineSet(MinesOpened(g)) == MineSet(g) && SafeSet(MinesOpened(g)) == SafeSet(g)
    ensures OpenSafe(MinesOpened(g)) == OpenSafe(g)
  {
  }
}
