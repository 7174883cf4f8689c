# Minesweeper board model

A Dafny model of the board class `MineSweeperBoard` in `minesweeper.py`.
The board holds three things:

- **The grid.** A map from each `(col, row)` position to a packed cell state. The state is a bitmask over MINE = 1, FLAGGED = 2 and OPEN = 4, and OPEN_MINE = MINE | OPEN.
- **The round counters.** `minesLeft`, `cellsRevealed`, `safeCells` and `lastClicked`.
- **The hints.** A map holding the count of mined neighbours of each revealed cell.

The operations are:

- **Construction.** A fresh board takes a given set of mine positions.
- **Click dispatch.** `Action` handles a click.
- **Flag toggle.** `Flag` toggles a cell's flag.
- **Reveal.** `Reveal` opens a cell, records its hint, and, when the hint is zero, clicks every neighbour.
- **Neighbourhood.** `Neighbors` lists the in-bounds Moore neighbourhood: the up to eight adjacent cells, diagonals included.
- **Mine display.** `OpenMines` shows every mine at the end of a round.

The project has three modules:

- `CellState` (`cell_state.dfy`) holds the cell state as a 3-bit vector, its bit tests, and the flag toggle taken as a function on states.
- `Grid` (`grid.dfy`) holds the value-level model.
  - The board's positions, the neighbourhood function and the mine count.
  - The sets of mined, safe, open-safe and closed cells.
  - The relations that say what a click may do to a grid (`GridStep`) and to the hints (`HintsGrow`).
  - The hint invariant.
  - The grid of a fresh board and the grid with every mine opened.
- `Minesweeper` (`board.dfy`) holds the class `MineSweeperBoard`. Its fields are those of the Python object.
  - The grid and the hints are `map` fields, which the methods reassign.
  - `Action` and `Reveal` are mutually recursive methods, as `action` and `reveal` are in the source. The neighbour loop is a `for` loop.

The board invariant, `BoardInv`, has four parts:

- the grid covers exactly the board;
- `safeCells` is the number of cells without a mine;
- every recorded hint belongs to an open cell and equals its count of mined neighbours;
- every open cell without a mine has a hint.

Every click keeps `BoardInv`. A flag click changes only the FLAGGED bit of the clicked cell. Each reveal click is also proved to do four things:

- **Open only.** It only ever sets OPEN bits. It never touches a flagged cell, and never touches a mine other than the clicked cell. A flood fill therefore never opens a mine.
- **Stay within reach.** Every cell it changes is the clicked cell or a neighbour of a cell with hint 0 that was the clicked cell or was closed before the click (`Fed`). A cell whose every neighbour has a mined neighbour is therefore never opened by another cell's click.
- **Keep hints.** It never drops or changes a hint.
- **Terminate.** The mutual recursion ends. The measure is the number of closed cells: a reveal sets OPEN before it recurses. A reveal of an already open mine opens no closed cell, so the number of closed cells does not drop; a second component, the clicked cell's mine bit, breaks that tie.

A zero hint leaves every neighbour open or flagged. The revealed-cell counter always equals the number of open safe cells, plus one for each reveal click on an unflagged open mine.

The grid accessors are modelled directly as operations on the `grid` field:

- `__getitem__` is `grid[p]`. A missing key is a precondition, `p in grid`.
- `__setitem__` is `grid := grid[p := v]`.
- `__contains__` is `p in grid`.

## Model

| member | source | states |
|---|---|---|
| CellState.RevealableStates | minesweeper.py:54-62 | `Revealable` is the guard of `action`: not exactly OPEN and not flagged. A click without the flag reaches the reveal step exactly for the states SAFE, MINE and OPEN_MINE. An exactly OPEN cell and any flagged cell are stopped by the guards; an open mine is not. |
| CellState.Toggled | minesweeper.py:72-75 | The toggled state has the FLAGGED bit flipped and the MINE and OPEN bits unchanged. |
| CellState.ToggledTwice | minesweeper.py:72-75 | Toggling the flag twice restores the cell's state. |
| CellState.FlagDelta | minesweeper.py:77-80 | A flag toggle moves the mine counter by at most one in either direction. |
| CellState.FlagDeltaCases | minesweeper.py:77-80 | The mine counter goes down by one exactly when the prior state is a closed unflagged mine. It goes up by one exactly when the prior state is a closed flagged mine, so the new state is MINE. It never moves for a cell without a mine or for an open cell. |
| CellState.FlagDeltaRoundTrip | minesweeper.py:72-80 | Flagging and then unflagging a cell brings the mine counter back to its value. |
| CellState.OpenBits | minesweeper.py:92 | Setting OPEN changes neither the MINE bit nor the FLAGGED bit, and changes nothing on an open cell. |
| Grid.AllCellsSize | minesweeper.py:41 | The product of `range(cols)` and `range(lines)` has exactly cols * lines positions. |
| Grid.NeighborsBy | minesweeper.py:103-114 | Shifting `p` by each offset in turn (`Shift` adds the offset's second component to the column and its first to the row) and keeping the in-bounds results yields at most one position per offset, each on the board. |
| Grid.Neighbors | minesweeper.py:103-114 | The neighbour list, taken over the eight offsets of `Offsets` in the source's order, holds only positions on the board. |
| Grid.NeighborAt | minesweeper.py:103-114 | A position is listed as a neighbour of `p` exactly when it is on the board and adjacent to `p`, horizontally, vertically or diagonally, and is not `p` itself. Both directions are proved. |
| Grid.NeighborsSpec | minesweeper.py:103-114 | The neighbour list has at most 8 entries and none twice. Its members are exactly the in-bounds adjacent positions. |
| Grid.MinesNearby | minesweeper.py:97 | The count of listed positions carrying the MINE bit is at most the length of the list. |
| Grid.MinedNeighbor | minesweeper.py:97 | A list with one mined position has a non-zero count. |
| Grid.MinesNearbyZero | minesweeper.py:97-99 | The mine count is zero exactly when no listed position carries the MINE bit. |
| Grid.MinesNearbyIsSize | minesweeper.py:97 | Over a list without repeats, the count equals the number of distinct mined positions in the list. |
| Grid.HintRange | minesweeper.py:96-98 | A hint lies in 0..8 and equals the number of mined cells adjacent to the cell. |
| Grid.MinesNearbySameMines | minesweeper.py:97 | The mine count depends only on the MINE bits, so opening or flagging cells does not change it. |
| Grid.OpenSafeBound | minesweeper.py:29 | The open safe cells are among the safe cells, so there are at most safe-cells of them. There are exactly that many only when every safe cell is open. |
| Grid.MineGridCounts | minesweeper.py:41-44 | `MineGrid` is the comprehension of line 43 over the board's positions, MINE where the position is among the mines and SAFE elsewhere. The grid of a fresh board has exactly the given mines, and cols * lines minus that many safe cells. Every cell is closed and no safe cell is open. |
| Grid.MinesOpenedSpec | minesweeper.py:116-119 | `MinesOpened` is the grid after the loop of `open_mines`. Opening the mines turns every mined cell into exactly OPEN_MINE and leaves every other cell as it was. It is idempotent. It keeps the mined, safe and open-safe cells. |
| Grid.OpenCell | minesweeper.py:92 | Setting OPEN on an unflagged cell is a legal click step from that cell and keeps every MINE bit. When the cell was closed it leaves one closed cell fewer; an already open cell leaves the closed cells as they were. It adds one open safe cell exactly for a closed safe cell. |
| Grid.GridStepTrans | minesweeper.py:99-101 | Two successive click steps from the same cell compose into one. |
| Grid.GridStepMoved | minesweeper.py:99-101 | A click step started at a cell without a mine is also a step from any other cell, so the clicks on a zero-hint cell's neighbours count as steps from that cell. |
| Grid.GridStepClosed | minesweeper.py:92 | A click step never closes a cell, so the closed-cell measure of the recursion never grows. |
| Grid.FedOpen | minesweeper.py:92 | Changing the clicked cell alone is within the reach of the click. |
| Grid.FedPrefix | minesweeper.py:92-101 | A flood fill that stays within reach of the cell after its opening stays within reach of the whole click. |
| Grid.FedStep | minesweeper.py:99-101 | Clicking a neighbour of a zero-hint cell keeps the fill within reach of that cell, once the neighbour's click, when it changes anything, starts on a closed cell. |
| Grid.FedUntouched | minesweeper.py:92-101 | With correct hints, a fill from `p` leaves alone every other cell all of whose neighbours on the board have a mined neighbour. |
| Grid.FiveByOneCascade | minesweeper.py:92-101 | On a board five cells wide and one high with a mine at (2, 0), a reveal click on (0, 0) leaves (4, 0) SAFE. |
| Grid.UnsettledShrinks | minesweeper.py:99-101 | Opening cells never takes a zero-hint cell out of the settled state, in which every neighbour is open or flagged. |
| Grid.HintsTransfer | minesweeper.py:97-98 | Recorded hints stay correct under any grid change that keeps the MINE bits and opens cells. |
| Grid.HintAdded | minesweeper.py:98 | Recording the mine count of an open cell keeps every hint correct and keeps every other hint. |
| Grid.OpenSafeHintedSpec | minesweeper.py:95-98 | The pointwise form of "every open safe cell has a hint" is equivalent, in both directions, to the open safe cells being among the hinted positions. |
| Minesweeper.InvKept | minesweeper.py:92-98 | `BoardInv` (the grid covers the board, `safeCells` counts the cells without a mine, every hint is correct for an open cell, every open safe cell has a hint) survives any grid change that keeps the mines and leaves every open safe cell hinted. |
| Minesweeper.RevealStart | minesweeper.py:91-98 | Opening an unflagged cell keeps the invariant: for a mine with the hints as they are, and for any cell once its mine count is recorded. That count is the same before and after the opening. The step unsettles no cell other than the one opened. |
| Minesweeper.RevealSafeStart | minesweeper.py:92-99 | Opening a cell without a mine and recording its hint keeps the invariant and adds exactly one open safe cell for a closed cell. A zero hint means every neighbour is on the board and has no mine. |
| Minesweeper.FlagKeeps | minesweeper.py:72-75 | Toggling the flag of a cell keeps the invariant and opens no cell: the open safe cells are the same. |
| Minesweeper.MinesOpenedKeeps | minesweeper.py:116-119 | Opening every mine keeps the invariant. |
| Minesweeper.CascadeStep | minesweeper.py:100-101 | A reveal click on the next neighbour extends the flood fill by one position. The invariant holds, the whole fill is one click step from the centre cell, no hint is lost, and every neighbour clicked so far is open or flagged. |
| Minesweeper.CascadeDone | minesweeper.py:99-101 | When every neighbour has been clicked, the centre cell is settled. |
| Minesweeper.MineSweeperBoard.CountedBound | minesweeper.py:29 | While each open safe cell has been counted once, `cellsRevealed` does not exceed `safeCells`. It equals `safeCells` exactly when every safe cell is open. |
| Minesweeper.MineSweeperBoard.constructor | minesweeper.py:13-29 | A board over a given grid sets the grid and the dimensions. It starts the mine counter at `mines`, `safeCells` at cols * lines - mines, the revealed count at 0, the hints empty and `lastClicked` empty. |
| Minesweeper.MineSweeperBoard.Random | minesweeper.py:31-44 | A fresh board with the given mines keeps the invariant. Its grid has exactly the cols * lines board positions, MINE at the given positions and SAFE elsewhere. The counters take their start values. |
| Minesweeper.MineSweeperBoard.Action | minesweeper.py:46-62 | An exactly OPEN cell, or a flagged cell without the flag, changes nothing at all. A flag click toggles the flag and updates the mine counter. A reveal only sets OPEN bits, never on a flagged cell or another mine, and ends with the clicked cell open or flagged. Every cell it changes is within reach of `p`, as `Fed` defines. The invariant is kept, hints only grow, and the revealed count tracks the open safe cells. A reveal click on an unflagged open mine raises `cellsRevealed - |OpenSafe(grid)|` by one, and every other click leaves that difference as it was. The open mine's recorded hint is its exact count of mined neighbours. When that hint is zero, the cascade that follows is bounded as for any other reveal, and it counts every safe cell it opens as well. |
| Minesweeper.MineSweeperBoard.Flag | minesweeper.py:64-80 | The grid changes only at `p`, to its toggled state. The mine counter changes by the toggle's delta. The hints, the counters and the open safe cells are unchanged, and the invariant is kept. |
| Minesweeper.MineSweeperBoard.Reveal | minesweeper.py:82-101 | A closed unflagged mine (state MINE) becomes OPEN_MINE with nothing else changed, and `lastClicked` is MINE. Any other revealable cell, an open mine included, is counted and gets its hint, the count of mined neighbours. With a non-zero hint it is the only change, along with a count of one more. With a zero hint every neighbour ends open or flagged, no mine is opened, and the invariant is kept. Every changed cell is within reach of `p`. |
| Minesweeper.MineSweeperBoard.RevealSafe | minesweeper.py:95-101 | The part of the reveal after the opening, for a cell without a mine. It counts the cell, records its hint and, for a zero hint, runs the cascade. The overall effect relative to the board before the opening is stated as for `Reveal`. |
| Minesweeper.MineSweeperBoard.RevealNeighbors | minesweeper.py:99-101 | Clicking every neighbour in turn keeps the invariant and the mine counter. It opens no mine, loses no hint, and keeps the revealed count in step with the open safe cells. It leaves the centre cell settled, and changes only cells within reach of the centre. |
| Minesweeper.MineSweeperBoard.OpenMines | minesweeper.py:116-119 | The new grid is the old grid with every mined cell set to exactly OPEN_MINE. Every counter and the hints are unchanged, the invariant is kept, and whether the count tracks the open safe cells is unchanged. |

## Left out

- `pygame_sweeper.py` in its entirety is not part of this model. It covers the window, drawing, the event loop, input prompts, colour tables and the state decorator, all of which are presentation and I/O.
- The end-of-round check in the pygame layer: `mines_left <= 0`, `cells_revealed == safe_cells` and `last_clicked == MINE`. `CountedBound` states what `cells_revealed == safe_cells` means for the board.
- Random placement: `random.sample` is replaced by a parameter, the set of mine positions. A set cannot hold a position twice, and `Random` requires every position to be on the board. The draw itself is not modelled, and neither is its error path. `random.sample` raises `ValueError` when the number of mines is negative or larger than cols * lines. A game can reach this, since the custom-size check in `pygame_sweeper.py` rejects no input. A set of board positions cannot express that case.
- A click on a position that is not on the board raises `KeyError` in the source. In the model every method requires `p in grid`, and the invariant makes that the same as being on the board.
- Negative `cols` or `lines` are not modelled: both are `nat`.
- The order of `__iter__` over the dictionary: `OpenMines` picks the next cell with `:|`, and its result does not depend on the order.
- The lazy generator of `get_neighbors`: it is a sequence in the same offset order.
- Python integers as cell states: the model uses a 3-bit vector. Every value reachable from SAFE and MINE by the source's `|=`, `^=` and assignments fits in three bits.
- Minesweeper.MineSweeperBoard.Reveal: the contract bounds the zero-hint cascade from both sides without defining it exactly. From below, the cell and every zero-hint cell the cascade reaches end settled. From above, only OPEN bits are set, never on a flag or a mine, and only on cells within reach as `Fed` defines. That upper bound is local: a changed cell must neighbour some cell with hint 0, but the contract does not prove that this cell is connected to `p` through zero-hint cells. So it does not prove that the opened set is exactly the connected zero region plus its border.
- Minesweeper.MineSweeperBoard.Action: the same bounds on the cascade as for `Reveal`.
- Minesweeper.MineSweeperBoard.RevealSafe: the same bounds on the cascade as for `Reveal`.
- Minesweeper.MineSweeperBoard.RevealNeighbors: the same bounds on the cascade as for `Reveal`. Connectivity to the centre cell is not proved.
- Python's recursion limit: `action` and `reveal` call each other, so each level of the cascade adds two frames to the stack. With the default limit of 1000 frames, a cascade a few hundred levels deep, on a large board with few mines, raises `RecursionError`. The size bound in `pygame_sweeper.py` does not prevent this. The model proves that the recursion terminates but does not model stack depth.
- Minesweeper.MineSweeperBoard.CountedBound: the bound needs every open safe cell to have been counted once. The code breaks this when a reveal click lands on an already open mine, because `action` tests `state == _OPEN` exactly and gives an OPEN_MINE cell a second reveal. That reveal counts it again and records a hint for it. The contracts of `Action` and `Reveal` state this case's extra count and its hint exactly. When the hint is zero, the neighbour clicks that follow are bounded as for any other cascade. The model follows the code here, although one might expect `cells_revealed` never to exceed `safe_cells`. The case is reachable: the game loop handles every event of a frame before it checks for the end of the round, so a second click on a mine opened earlier in the same frame reaches `action`.
- The reveal is split into `Reveal`, `RevealSafe` and `RevealNeighbors`:
  - `Reveal` opens the cell;
  - `RevealSafe` counts the cell and records its hint;
  - `RevealNeighbors` is the neighbour loop.

  Together they perform the same steps in the same order as `reveal`.
