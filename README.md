# CleanPlayerV2 battleship agent, modelled in Dafny

This project models the decision logic of `CleanPlayerV2`. That is the computer player of a turn-based battleship contest (`contestV2/CleanPlayerV2.cpp`). The agent keeps three grids:

- `board`: its belief about the opponent's board (water, hit, miss, kill).
- `shipBoard`: its own fleet (water, ship).
- `opponentShots`: how often the opponent fired at each cell.

It also keeps a scan cursor (`scanRow`, `scanCol`) and a count of ships placed in the current round.

The model is one Dafny class, `CleanPlayerV2.CleanPlayer`. It has `array2` fields for the three grids and `var` fields for the counters. The member functions that change state or loop are methods with the same loops; `isOnBoard` is the predicate `Cells.OnBoard` and `chooseValues` is the function `Placement.ChooseValues`. The pure parts are functions in separate modules, and the methods are proved against them:

- `Cells`: the `Cell` and `Direction` types; `OnBoard`, which is `isOnBoard`; and the grid predicates `AllWater`, `BeliefGrid` (the belief grid never holds `Ship`) and `FleetGrid`.
- `Placement`: runs of ship cells (`InRun`, `RunOnBoard`). It also has `ChooseValues`, which is `chooseValues` applied to three raw `rand()` values, and `RunFree`, the predicate `positionOk` decides.
- `Targeting`: `Walk` is `search` as a recursive function over the distance `range`. `FollowUp` is `getFollowUpShot`'s choice among Down, Right, Left and Up.
- `Scanning`: `ScanNext` is the cursor after one `scan`. `OnLattice` names the cells the sweep stays on when the stride divides the board size.
- `Arith`: remainder facts used by the two modules above.
- `CleanPlayerV2`: the class, the message types and `Folded`, the value `update` writes into the shot cell.

The class invariant `Valid()` holds these facts:

- The arrays are `MAX_BOARD_SIZE` square.
- The cursor is on the board.
- The belief grid holds no `Ship` cells and the fleet grid holds only `Water` and `Ship`.
- Shot counts are non-negative.

Every method keeps the invariant.

Three behaviours of the code are modelled as written:

- On a wrap, when the board size is a multiple of `MIN_SHIP_SIZE`, `scan` shifts the wrapped column by one. On a 10×10 board with stride 2, row 0 is swept at columns 0, 2, …, 8. The cursor then goes from (0,8) to (1,1), so row 1 is swept at odd columns. The sweep therefore stays on a diagonal lattice and does not reach every cell. `ScanKeepsLattice` states which cells it stays on, and `LatticeMeetsEveryRun` that those cells meet every ship.
- When all four directions of the follow-up fail, `getFollowUpShot` leaves the anchor unchanged. `getMove` then fires at the cursor cell again, although that cell is already a hit.
- `newRound` does not reset `opponentShots`.

## Model

| member | source | states |
|---|---|---|
| `CleanPlayerV2.CleanPlayer.constructor` | contestV2/CleanPlayerV2.cpp:21-31 | After construction both grids are all water on the board, every shot count on the board is 0, and the invariant holds |
| `CleanPlayerV2.CleanPlayer.InitializeBoard` | contestV2/CleanPlayerV2.cpp:36-42 | Every cell in [0,n)² becomes Water; cells of the array outside the board keep their old values |
| `CleanPlayerV2.CleanPlayer.GetMove` | contestV2/CleanPlayerV2.cpp:48-64 | Water at the cursor: shoot the cursor, cursor unchanged. Hit: shoot the follow-up cell (or the anchor when every direction fails), cursor unchanged. Otherwise: advance the cursor once by ScanNext and shoot the new cursor cell unchecked. The shot is always on the board |
| `CleanPlayerV2.CleanPlayer.PlaceShip` | contestV2/CleanPlayerV2.cpp:71-91 | Length > n: TooLong, fleet grid and ship count untouched. Otherwise the first draw whose run is all water is committed: those cells were Water and become Ship, no other cell changes, the count rises by exactly 1, and the ship is numbered with the old count. Earlier draws were all blocked |
| `Placement.ChooseValues` | contestV2/CleanPlayerV2.cpp:96-105 | For length ≤ n the anchor keeps the whole run on the board: horizontal rows in [0,n) with columns in [0,n-length], vertical runs symmetric |
| `Placement.ChooseValuesCovers` | contestV2/CleanPlayerV2.cpp:96-105 | Conversely, every anchor whose run fits is produced by some draw |
| `Placement.RunOnBoardMeans` | contestV2/CleanPlayerV2.cpp:96-105 | The bounds chooseValues enforces hold exactly when every cell of the run is on the board |
| `CleanPlayerV2.CleanPlayer.PositionOk` | contestV2/CleanPlayerV2.cpp:110-121 | Returns true exactly when every cell of the run is Water on the fleet grid |
| `Placement.RunFreeMeans` | contestV2/CleanPlayerV2.cpp:110-121 | The run is free if and only if no on-board cell of the run holds anything but Water |
| `Placement.FirstDrawFitsEmptyBoard` | contestV2/CleanPlayerV2.cpp:79-90 | On an all-water fleet grid, the first draw for a ship that fits is accepted |
| `CleanPlayerV2.CleanPlayer.MarkShip` | contestV2/CleanPlayerV2.cpp:126-136 | Exactly the cells of the run become Ship; every other cell keeps its value and the fleet grid still holds only Water and Ship |
| `CleanPlayerV2.CleanPlayer.GetFollowUpShot` | contestV2/CleanPlayerV2.cpp:141-152 | Returns FollowUp's cell, or the anchor unchanged when all four directions fail |
| `Targeting.FollowUpSound` | contestV2/CleanPlayerV2.cpp:141-152 | A follow-up cell is on-board water. It is reached in the first direction of Down, Right, Left, Up whose search succeeds, over hits only, within n steps, and every earlier direction failed |
| `Targeting.FollowUpFails` | contestV2/CleanPlayerV2.cpp:141-152 | The follow-up fails if and only if all four directions fail |
| `Targeting.FollowUpDownChain` | contestV2/CleanPlayerV2.cpp:141-152 | Hits straight below the anchor ending in water: the follow-up is that water cell, whatever the other directions hold |
| `CleanPlayerV2.CleanPlayer.Search` | contestV2/CleanPlayerV2.cpp:158-179 | Succeeds exactly when Walk does and returns its cell; on failure returns the anchor unchanged |
| `Targeting.WalkReachesWater` | contestV2/CleanPlayerV2.cpp:158-179 | Over passable cells up to on-board water at distance k, the walk returns that water cell |
| `Targeting.WalkBlocked` | contestV2/CleanPlayerV2.cpp:158-179 | Over passable cells up to an off-board, Miss or Kill cell, the walk fails |
| `Targeting.WalkSound` | contestV2/CleanPlayerV2.cpp:158-191 | A successful walk ends on on-board water fewer than n steps out. Every cell strictly between is on the board and passable, which means a Hit on a belief grid |
| `Targeting.WalkStops` | contestV2/CleanPlayerV2.cpp:158-191 | A failed walk passed only passable cells and stopped at an off-board, Miss or Kill cell at most n steps out |
| `CleanPlayerV2.CleanPlayer.Scan` | contestV2/CleanPlayerV2.cpp:196-214 | The cursor becomes ScanNext of the old cursor and stays on the board |
| `Cells.OnBoard` | contestV2/CleanPlayerV2.cpp:184-191 | True exactly when 0 <= row < n and 0 <= col < n |
| `Scanning.ScanStaysOnBoard` | contestV2/CleanPlayerV2.cpp:196-214 | From any on-board cursor, the advanced cursor is on the board |
| `Scanning.ScanStep` | contestV2/CleanPlayerV2.cpp:196-214 | No wrap: same row, column + stride. Wrap: the row goes to (row+1) mod n. The column goes to (col+stride) mod n, or, when the stride divides n, to (col+stride-n+1) mod stride, which is below the stride |
| `Scanning.ScanKeepsLattice` | contestV2/CleanPlayerV2.cpp:196-214 | When the stride divides n, a cursor with column − row ≡ 0 (mod stride) keeps that property |
| `Scanning.LatticeMeetsEveryRun` | contestV2/CleanPlayerV2.cpp:200-208 | Every horizontal or vertical run at least a stride long contains a lattice cell |
| `Scanning.ScanTenByTwo` | contestV2/CleanPlayerV2.cpp:202-208 | On a 10×10 board with stride 2, (0,8) advances to (1,1), (1,9) to (2,0) and (9,9) to (0,0) |
| `CleanPlayerV2.CleanPlayer.NewRound` | contestV2/CleanPlayerV2.cpp:220-230 | Cursor and ship count are 0, shipMark is 'a', both grids are all water on the board, and the opponent-shot counts are unchanged |
| `CleanPlayerV2.CleanPlayer.Update` | contestV2/CleanPlayerV2.cpp:236-247 | A hit, kill or miss report overwrites only the target cell of the belief grid with that outcome. An opponent-shot report adds 1 to only that cell's count. Any other message changes nothing, and the fleet grid never changes |
| `CleanPlayerV2.FoldedIdempotent` | contestV2/CleanPlayerV2.cpp:237-242 | Applying the same report twice equals applying it once, and a report never writes Ship |

## Left out

- Terminal output: the `cout` and `gotoRowCol` in `update` (line 245) are not modelled.
- Message framing: the `Message` objects built at lines 62 and 86 become plain results (a coordinate pair or a `PlaceResult`). The `return false` of line 79 becomes `TooLong`.
- Ship names: the `snprintf` of "Ship%d" (line 74) is kept only as the number `PlacedShip.number`. The text and the 10-character buffer are not modelled.
- Randomness: `rand()` becomes a caller-supplied `Draw`, one per attempt, holding the three raw values. The model applies the source's `%` to them exactly.
- CleanPlayerV2.CleanPlayer.PlaceShip: the source's unbounded `while(true)` retry is modelled as a loop over a finite sequence of draws. When the sequence runs out, the model returns `DrawsExhausted`; the source would keep drawing.
- The header `CleanPlayerV2.h`, the `PlayerV2` base class and `conio.h` are not part of this model.
  - `MAX_BOARD_SIZE` and `MIN_SHIP_SIZE` are kept symbolic: they are constructor parameters with `1 <= n <= MAX_BOARD_SIZE` and `MIN_SHIP_SIZE >= 1`.
  - The cell characters are the enumeration `Cell`, and the message-type constants are `MessageType`.
  - `Direction(rand()%2 + 1)` assumes the header's order `None, Horizontal, Vertical`, so 1 is Horizontal.
- CleanPlayerV2.CleanPlayer.constructor: the C++ constructor does not set `scanRow`, `scanCol`, `numShipsPlaced` or `shipMark`; the base class or header presumably does. The model sets them as `newRound` does.
- CleanPlayerV2.CleanPlayer.Search: the deltas must lie in {-1,0,1} and not both be 0. With (0,0) the source loops forever on a hit anchor. Callers only pass the four unit directions.
- CleanPlayerV2.CleanPlayer.Update: the target coordinate must lie inside the arrays; the source indexes without checking.
- CleanPlayerV2.CleanPlayer.Scan: the unused reference parameters of `scan` are dropped, since the method updates the cursor fields directly.
- Integer width: C++ `int` overflow is not modelled (shot counts and coordinates stay far below it), and all integers are unbounded.
- Scan coverage: the model proves that the sweep stays on the lattice and that the lattice meets every ship. It does not prove that the sweep visits every lattice cell, or in how many turns.
