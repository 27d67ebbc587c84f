# Mine tower: a Dafny model of the game engine

The game is a vertical minesweeper. A board nine cells wide and a few hundred floors tall
slides down the screen. The player flags mines and reveals safe tiles before each floor
passes a line near the bottom of the view. Each floor is inspected as it crosses the line:
a flagged safe tile or a hidden safe tile ends the game, and the floor's unflagged mines
come off the remaining count. A marathon board grows new floors on top as it is played.

This project models the engine behind that: the tile entity (`src/Tile.ts`) and the game
world (`src/GameWorldHandler.ts`). It covers:

- mine placement inside a band of rows under a neighbour-density cap;
- carving of the safe zone at the bottom of a fresh map;
- materialisation of a mine map into tiles, and the marathon merge of a retired floor;
- the neighbour frontier, the reveal of one tile and the worklist flood;
- the click handler: chord, flag toggle and double-click reveal;
- the frame update: status gating, win check, floor crossing and marathon extension;
- the lifecycle operations `start`, `pause` and `reset`.

## Structure

- wrappers.dfy (module `Wrappers`): `Option`, for the optional arguments of the entry points.
- constants.dfy (module `Constants`): cells per floor, marathon cap, per-mode floors, mines, seed floors and density caps; game and player modes; pointer action kinds.
- tile.dfy (module `Tiles`): the class `Tile`, whose methods change its fields in place, and `TileState`, the value a tile holds at one moment.
- grid.dfy (module `Grid`): positions, adjacency, neighbour enumeration and counting over boolean grids.
- minemap.dfy (module `MineMaps`): the integer mine map (-1 mine, -2 pre-revealed, 0 other); band placement (`PlaceMines`); the carving (`SeedSafeZone`, `Flood`, `CarveSafeZone`).
- board.dfy (module `Boards`): boards of tile states; materialisation; frontier; reveal; flood invariant and termination measure; flag; chord targets.
- floors.dfy (module `Floors`): floor inspection; the marathon seam and extension; board reset and layout.
- world.dfy (module `World`): the class `GameWorld` with the grid of `Tile` objects and the counters its methods update; value-level specifications of a frame (`Step`) and of a reset (`ResetGame`).

Operations that work in place are methods over the `Tile` objects and the `GameWorld`
fields. Each method is proved against a function on values:

- the tiles' method contracts are stated through `TileState`;
- the grid's contracts are stated through `View()`, the board of tile states;
- the `updatePos` chain is stated through the pure `Step` on a `Standing`: status, position, height, start line, counters and board;
- the `reset` chain is stated through the pure `ResetGame` on a `Game`: settings and standing.

The lemmas about those functions carry the properties.

Notes on the model:

- Pixel geometry is exact `real` arithmetic.
- A board's height is `Span(n, tileSize)`: `n` floors stacked one by one. `SpanIsProduct` shows it equals `tileSize * n`, the source's `tileSize * mineMap.length`.
- The canvas height and width are the parameters `viewHeight` and `viewWidth`. The line a floor crosses is `PlayLine`, at `viewHeight - viewWidth / 8`.
- The per-frame advance `speed * deltaTime` is the parameter `advance`.
- JavaScript truthiness becomes explicit:
  - an absent optional argument is `None`;
  - `!n` on a number is `Falsy` (missing or zero);
  - an empty mine-map array is a present map.
- The two `throw`s of `reset` become the result `Some(MissingMineMap)` or `Some(MissingPlayerInfo)`. Like the source, the model leaves the assignments made before the throw in place.

Behaviour of the code as written, modelled faithfully and exhibited by lemmas:

- **The density cap misses the band's last row.** The placement loop counts the row below a drawn cell only when `y + 1 < endRow - 1` (src/GameWorldHandler.ts:252). A mine in the band's last row is therefore not counted for a cell just above it. `BandCapMissesLastBandRow` shows a map where the capped count is 0 and the true neighbour count is 1. `BandCountIsNeighbourCount` shows the two agree everywhere else.
- **A crossed floor costs its unflagged mines, revealed or not.**
  - A mine revealed by a double click, or by a chord, has already been taken off the remaining count. It is taken off again when its floor crosses the line.
  - `RevealKeepsCrossingCost` shows that revealing never changes what a floor costs to cross.
  - `FlagLowersCrossingCost` and `AllFlaggedCostsNothing` show that flagging lowers the cost, and that a fully flagged floor costs nothing.
  - A hidden mine without a flag does not lose the game.
- **The seam tile counts its own floor's mines twice.** A marathon extension rebuilds the retired top floor as the merged map's last row. That row's number is the count in the merged map, which already includes the seam row's own neighbours, plus the retired tile's old count (src/GameWorldHandler.ts:682). `ExtendedKeepsConnection` states this sum exactly.
- **Marathon totals count the seam's mines again.** Both counters grow by every mine of the merged map, and the seam row's mines were already on the board (`Grow`, `GrowKeepsFits`).
- **The carving does not expand next to mines.** It opens a seed, or any neighbour of a cell it expanded, that is not a mine. It expands an opened cell exactly when none of that cell's neighbours is a mine. Cells next to mines are opened but never expanded (`Flood`, `Carved`), and the carving leaves no closed cell next to one it expanded (`CarvedClosed`).
- **Both floods grow only from their starts.** The expanded cells form a sequence in expansion order, and each is a start or next to a cell expanded before it (`GrownFrom`, `CarvedInOrder`). So a region the starts cannot walk to stays closed: `CarvedStopsAtMineFloor` shows that the carving never passes a floor of mines above the seed floors, and `FloodStopsAtNumberRow` and `ClickStopsAtNumberRow` show that a reveal flood never passes a row of numbered tiles. Neither flood expands a cell that was open before it began, unless that cell is one of its starts. The reveal flood's worklist only takes tiles that are not open zeros: `getNearByTile` drops revealed zeros. So the flood expands only its own starts and the zeros it revealed (`FloodExpandsOwnZeros`, `ClickSkipsOpenTiles`). The carving likewise expands only cells that were not already -2.
- **A multiplayer reset records the player count as the rank.** `currentRank` is set to `totalPlayers`, and the `rank` argument is only checked for presence (src/GameWorldHandler.ts:802).
- **The recorded floor is written first but read by nothing.** `updatePos` records the floor before the marathon extension and the inspection, and neither reads it. The model writes it last (`Arrive`).
- **A click records the last tile before acting.** The source sets it before the tile action, and the model after. Nothing in between reads it.

## Model

| member | source | states |
|---|---|---|
| Tiles.TileState.Revealable | src/Tile.ts:54-56 | a flagged tile, or a revealed tile showing 0, is never revealable; a hidden unflagged tile, or an unflagged tile showing a number, always is |
| Tiles.NewTileIsReset | src/Tile.ts:16-28 | a newly built tile is already in its reset state |
| Tiles.FlagTwiceRestores | src/Tile.ts:62-64 | toggling the flag twice gives back exactly the same tile |
| Tiles.RevealIdempotent | src/Tile.ts:58-60 | revealing twice is revealing once, and revealing a revealed tile changes nothing |
| Tiles.ResetIdempotent | src/Tile.ts:25-28 | resetting twice is resetting once |
| Tiles.FlaggedNotRevealable | src/Tile.ts:54-64 | a flagged tile is not revealable, and one more toggle unflags it |
| Tiles.Tile.constructor | src/Tile.ts:16-23 | a new tile is unflagged, has the given mine bit and count, and is revealed and default-revealed exactly when built pre-revealed (default false) |
| Tiles.Tile.Reset | src/Tile.ts:25-28 | the flag is cleared, the reveal goes back to its default, and the count is untouched |
| Tiles.Tile.UpdateMineNearBy | src/Tile.ts:30-32 | only the count changes, to the given value |
| Tiles.Tile.Reveal | src/Tile.ts:58-60 | only the reveal bit changes, to true; a revealed tile stays exactly as it was |
| Tiles.Tile.Flag | src/Tile.ts:62-64 | only the flag changes, and it flips |
| Grid.Neighbours | src/GameWorldHandler.ts:403-465 | the positions listed are exactly the in-bounds cells adjacent to the cell, at most 8 of them |
| Grid.ScanCount | src/GameWorldHandler.ts:416-462 | counting the mines at the positions of the frontier scan, in its order, gives the neighbour mine count |
| Grid.GrownFromAppend | src/GameWorldHandler.ts:471-474 | an expansion order stays grown from its starts when the next cell is a start or next to a cell already expanded |
| Grid.GrownBelowRow | src/GameWorldHandler.ts:618-625 | an expansion order grown from starts below a row, never entering that row, stays below it |
| Grid.NeighbourCountMatchesScan | src/GameWorldHandler.ts:305-313 | the neighbour mine count genTiles computes equals the mines counted over the enumerated in-bounds neighbours |
| MineMaps.PlaceMines | src/GameWorldHandler.ts:226-284 | each accepted draw was a non-mine cell of rows [startRow, endRow) whose capped neighbour count was within the cap when drawn; each turns exactly one cell into a mine; no mine is cleared and nothing outside the band changes; a met quota q lays Ceil(q) mines (q itself when an integer); the draws looked at are the first `used`, all of them unless the quota was met, and the quota was not yet met before the last one; the mines laid are the draws Sampling accepts from those; the quota is met exactly when Sampling over all the draws accepts enough of them |
| MineMaps.Draw | src/GameWorldHandler.ts:229-281 | one draw is taken exactly when the cell is admissible (not a mine, capped count within the cap), becomes a mine then, and carries the sampling over the first i draws on to i + 1 |
| MineMaps.Sample | src/GameWorldHandler.ts:227-282 | the loop stops when the draws run out or the quota is met, never later; what it lays and accepts is Sampling over the draws it looked at |
| MineMaps.SamplingReplays | src/GameWorldHandler.ts:227-282 | the draws Sampling accepts lie in the band, each was admissible in the map as then laid, and the map is those mines laid in order: one more mine each, only in the band, none cleared |
| MineMaps.SamplingGrows | src/GameWorldHandler.ts:227-282 | looking at more draws never accepts fewer of them |
| MineMaps.PlaceStep | src/GameWorldHandler.ts:277-281 | accepting one admissible draw keeps the record of placements and adds one mine |
| MineMaps.PlaceAtCount | src/GameWorldHandler.ts:280-281 | laying a mine on a non-mine cell raises the mine count by exactly one |
| MineMaps.BandCapMissesLastBandRow | src/GameWorldHandler.ts:252-265 | the cap's count can miss a mine right below the drawn cell: count 0 where the cell has 1 mine neighbour |
| MineMaps.BandCountIsNeighbourCount | src/GameWorldHandler.ts:237-275 | away from the band's last two rows, or on the map's last row, the cap's count is the full neighbour count |
| MineMaps.CarveOrder | src/GameWorldHandler.ts:170-216 | the carving visits exactly the in-bounds cells adjacent to the popped cell |
| MineMaps.NonMines | src/GameWorldHandler.ts:170-218 | the pushed candidates are exactly the non-mine neighbours, and all neighbours are pushed exactly when none is a mine |
| MineMaps.SeedSafeZone | src/GameWorldHandler.ts:138-151 | a cleaned last floor becomes all -2 and nothing else changes; the seeds are exactly the cells of floors \|m\|-rf for rf from 1 (from 2 when cleaning) up to revealableCounts, none when that is below 1 |
| MineMaps.Flood | src/GameWorldHandler.ts:153-222 | the worklist loop terminates; mines stay mines; cells only become -2; every seed ends a mine or open; every neighbour of an expanded cell ends open; every newly opened cell is a seed or next to an expanded cell; each expanded cell, in expansion order, is a seed or next to one expanded before it; every expanded cell was not -2 before the flood and is -2 after it; every opened cell none of whose neighbours is a mine was expanded |
| MineMaps.CarveSafeZone | src/GameWorldHandler.ts:138-222 | the carved map has the input's shape; cells change only to -2; a cleaned last floor is all -2; no mine is overwritten except on a cleaned last floor, and the mine count is kept unless that floor had mines; every non-mine seed is opened; expanded cells were not open before the carving, are open after it, and have all neighbours settled; every cell the flood opened with no mine around it was expanded; nothing opens that is not a seed, on the cleaned floor or next to an expanded cell; each expanded cell, in expansion order, is a seed or next to one expanded before it |
| MineMaps.CarvedClosed | src/GameWorldHandler.ts:153-222 | the carving leaves no closed cell next to a cell its flood opened with no mine around it |
| MineMaps.ExpandedBelowFloor | src/GameWorldHandler.ts:153-222 | an expansion grown from seed floors that never enters a floor above them never gets past it |
| MineMaps.CarvedStopsAtMineFloor | src/GameWorldHandler.ts:153-222 | when a floor above every seed floor is all mines, the carving changes nothing above it |
| Boards.GenCountIsAdjacent | src/GameWorldHandler.ts:305-313 | the eight-term sum is the number of mines among the cell's in-bounds neighbours |
| Boards.Materialise | src/GameWorldHandler.ts:286-332 | the board has the map's shape, and each tile is the one its cell calls for: a -1 cell a mine with count 0, a -2 cell a pre-revealed tile, any other cell a hidden tile counting its mine neighbours |
| Boards.ClearOpen | src/GameWorldHandler.ts:316-319 | the map left behind has every -2 rewritten to 0 and every other cell as it was |
| Boards.MaterialisedCounts | src/GameWorldHandler.ts:305-325 | a safe tile's number counts the mines at its in-bounds neighbours, and is at most 8 |
| Boards.MaterialisedMines | src/GameWorldHandler.ts:315-321 | the mine tiles of a materialised board are exactly the -1 cells |
| Boards.NearByTile | src/GameWorldHandler.ts:385-401 | a neighbour is kept exactly when the mode selects it: counting mode keeps all but revealed safe tiles; default mode keeps revealable tiles that are not hidden mines |
| Boards.SelectFrom | src/GameWorldHandler.ts:416-462 | the kept positions are exactly the selected ones among those scanned |
| Boards.NearByTiles | src/GameWorldHandler.ts:403-465 | the frontier is exactly the in-bounds adjacent cells the mode selects, at most 8; in default mode never a flagged tile, a hidden mine or a revealed 0 |
| Boards.RevealAt | src/GameWorldHandler.ts:467-469 | revealing keeps the board's shape |
| Boards.HiddenAfterReveal | src/GameWorldHandler.ts:467-469 | revealing a hidden tile lowers the number of hidden tiles by one, and revealing a revealed tile leaves it |
| Boards.FloodStart | src/GameWorldHandler.ts:618-620 | a first worklist of unflagged cells that are not hidden mines starts the flood invariant |
| Boards.FloodPop | src/GameWorldHandler.ts:620-624 | popping and revealing the last entry keeps the flood invariant |
| Boards.FloodExpand | src/GameWorldHandler.ts:471-474 | pushing the unsettled neighbours of a revealed 0 keeps the flood invariant |
| Boards.FrontierUnsettled | src/GameWorldHandler.ts:474 | the default-mode frontier of a cell is exactly its unsettled in-bounds neighbours, none flagged or a hidden mine |
| Boards.FloodStep | src/GameWorldHandler.ts:620-625 | one iteration of the reveal loop keeps the flood invariant |
| Boards.FloodSeed | src/GameWorldHandler.ts:567-576 | revealing one more starting cell and pushing its frontier keeps the invariant, with the cell added to the starts |
| Boards.FloodFromOne | src/GameWorldHandler.ts:611-618 | the double click's second reveal changes nothing, returns the first one's frontier, and starts the flood from that cell alone |
| Boards.FloodExpandsOwnZeros | src/GameWorldHandler.ts:385-401 | every expanded cell is a zero the flood started from or revealed; a cell expanded without being a start was hidden before the flood |
| Boards.FloodClosed | src/GameWorldHandler.ts:618-625 | once the worklist is empty, every neighbour of a zero the flood started from or revealed is revealed, flagged or a mine |
| Boards.FloodStopsAtNumberRow | src/GameWorldHandler.ts:618-625 | when every tile of a row shows a positive number and every start lies below it, the flood changes nothing above that row |
| Boards.FloodStepDecreases | src/GameWorldHandler.ts:620-625 | each iteration lowers (hidden tiles, worklist entries on revealed zeros, worklist length) lexicographically, so the loop terminates |
| Boards.FlagAt | src/GameWorldHandler.ts:598 | flagging keeps the board's shape |
| Boards.FlagAtTwice | src/GameWorldHandler.ts:594-606 | two flag toggles on the same tile give back the same board |
| Boards.FlagLikeCount | src/GameWorldHandler.ts:549-557 | the marked count is at most the number of neighbours |
| Boards.FlagLikeCountIsMarked | src/GameWorldHandler.ts:549-557 | the marked count is the number of neighbours that are flagged or revealed mines |
| Boards.FlagLikeCountPrefix | src/GameWorldHandler.ts:553-555 | the marked count never shrinks as more neighbours are seen, so an early exit means the full count exceeds the number |
| Boards.ChordTargets | src/GameWorldHandler.ts:549-560 | the targets are exactly the unmarked neighbours, and targets plus marks account for every neighbour |
| Boards.MinesAmong | src/GameWorldHandler.ts:565-572 | the mine tally is at most the number of targets, and is 0 exactly when no target is a mine |
| Boards.RevealAll | src/GameWorldHandler.ts:567-577 | every listed tile is revealed and no other tile changes |
| Boards.ChordTargetsHidden | src/GameWorldHandler.ts:547-560 | the chord's targets are hidden, unflagged, in-bounds neighbours |
| Floors.UnflaggedMines | src/GameWorldHandler.ts:700-714 | the crossing cost of a floor is at most its width |
| Floors.UnflaggedMinesCounts | src/GameWorldHandler.ts:700-714 | the crossing cost of a floor is the number of its mines without a flag, revealed or not |
| Floors.RevealKeepsCrossingCost | src/GameWorldHandler.ts:710-714 | revealing a tile never changes what crossing its floor costs |
| Floors.FlagLowersCrossingCost | src/GameWorldHandler.ts:710-714 | flagging an unflagged mine makes crossing its floor one cheaper |
| Floors.AllFlaggedCostsNothing | src/GameWorldHandler.ts:710-714 | a floor whose mines are all flagged costs nothing to cross |
| Floors.SeamStates | src/GameWorldHandler.ts:673-683 | the seam row has one tile per column, each that column's seam tile |
| Floors.Merged | src/GameWorldHandler.ts:334-346 | the merged map is well formed and exactly one row longer |
| Floors.SeamRow | src/GameWorldHandler.ts:337-344 | the appended row has -1 exactly under a mine, -2 exactly under a revealed safe tile, and 0 elsewhere |
| Floors.Extended | src/GameWorldHandler.ts:664-685 | the extended board has \|carved\| more floors than before |
| Floors.SeamedTop | src/GameWorldHandler.ts:671-685 | the new top has \|carved\| + 1 floors |
| Floors.ExtendedKeepsConnection | src/GameWorldHandler.ts:664-685 | the extended board stays shaped; the floors below the retired one are kept; the new floors are the materialised merged map; the seam keeps the retired floor's mines, flags and reveals; a safe seam tile's number is its merged-map count plus the retired tile's count |
| Floors.ResetBoard | src/GameWorldHandler.ts:790 | every tile of the board is reset and the shape is kept |
| Floors.ResetForgetsPlay | src/GameWorldHandler.ts:790 | boards with the same mines, default reveals and numbers reset to the same board |
| Floors.ResetRestoresGenerated | src/GameWorldHandler.ts:782-790 | a freshly materialised board is already in its reset state |
| World.SpanIsProduct | src/GameWorldHandler.ts:780 | the stacked height of n floors is n times the tile size |
| World.SpanAdd | src/GameWorldHandler.ts:692 | stacking n floors and then k more is stacking n + k floors |
| World.FloorOfSpan | src/GameWorldHandler.ts:652 | an offset inside a board n floors tall falls on a floor index in [0, n) |
| World.PointerOnBoard | src/GameWorldHandler.ts:534-540 | a pointer inside the board's width and between its top and bottom edges is over one of its tiles |
| World.ChordRevealedStep | src/GameWorldHandler.ts:567-577 | revealing one more chord target keeps the chord's record, with the mine tally and the flood advanced |
| World.ClickOutcomeOf | src/GameWorldHandler.ts:579-616 | with a positive tile size, a tile outcome whose lost mines come off the remaining count and whose drop lowers the board one tile is the click's outcome |
| World.ClickKeepsLayout | src/GameWorldHandler.ts:543-631 | whatever a click does, the board keeps its shape, mines, default reveals and numbers |
| World.ClickTwiceRestores | src/GameWorldHandler.ts:594-606 | two clicks on a hidden tile restore the board and the remaining count, and neither drops the board |
| World.ChordOutcomeOf | src/GameWorldHandler.ts:543-590 | from the survey, the reveals and the flood: nothing changes unless the marks equal the number; with a mine among the targets exactly the targets are revealed and the board drops; without one the flood from the targets has run dry, every revealed zero expanded, grown from the targets in expansion order, and each expanded cell a target or a tile it revealed itself |
| World.ClickClosesZeros | src/GameWorldHandler.ts:565-625 | a click that does not drop the board leaves every zero it revealed with all neighbours revealed, flagged or mines |
| World.ClickSkipsOpenTiles | src/GameWorldHandler.ts:618-625 | a double click on a hidden safe tile never expands a tile that was revealed before the click |
| World.ClickStopsAtNumberRow | src/GameWorldHandler.ts:579-625 | a click on a hidden tile below a row of numbered tiles changes nothing above that row |
| World.ChordSurvey | src/GameWorldHandler.ts:544-563 | the survey succeeds exactly when the marked neighbours equal the number, and then returns every unmarked neighbour in frontier order |
| World.InspectFloor | src/GameWorldHandler.ts:700-712 | the inspection fails exactly when a safe tile is flagged or hidden, and otherwise counts the floor's unflagged mines |
| World.PhaseOf | src/GameWorldHandler.ts:636-655 | a new floor is a floor of the board, the one under the line after the move |
| World.StepWhenIdle | src/GameWorldHandler.ts:636-637 | a single-player game that has not started does not change, and does not grow |
| World.StepWhenWon | src/GameWorldHandler.ts:644-649 | a running game with no mine left, or whose top passed the line, moves and is won, and does not grow |
| World.StepOnNewFloor | src/GameWorldHandler.ts:651-656 | on a new floor, a frame is the move followed by the arrival |
| World.GrowKeepsFits | src/GameWorldHandler.ts:658-697 | the extension keeps the board shaped and exactly as tall as its floors; the floor count becomes old - 1 + (n + 1); the bottom edge stays; both counters rise by the same non-negative amount |
| World.StepKeepsFits | src/GameWorldHandler.ts:635-737 | a frame keeps the board shaped and as tall as its floors; the status stays or becomes Win or GameOver; the board changes only by a marathon extension; the bottom edge moves only by the advance, and not at all when idle |
| World.NewFloorVerdict | src/GameWorldHandler.ts:651-714 | on a new floor, the floor recorded is counted from the bottom; the game is lost exactly when the crossed floor has a flagged or hidden safe tile; otherwise the status stays and the crossed floor's unflagged mines come off the count; after an extension the crossed floor is the same old floor unless it was the top one |
| World.FloorAfterGrowth | src/GameWorldHandler.ts:692-696 | growing k floors above with the bottom fixed moves the floor under the line down by exactly k |
| World.ResetOutcome | src/GameWorldHandler.ts:749-809 | a missing map is reported exactly when a multiplayer game needs a new board and has no map; missing player information exactly when a multiplayer game gets past that with a missing or zero count or rank; without an error the game is ready on floor 0, with no last tile, all mines remaining and the board at its start line; a regeneration's board is the materialised map; the canvas width is kept |
| World.ResetForgetsGame | src/GameWorldHandler.ts:789-790 | a reset without regeneration gives the same game for any two boards of the same layout |
| World.ResetAfterRegeneration | src/GameWorldHandler.ts:771-790 | resetting again without regeneration right after a regenerating reset gives the same game back |
| World.GameWorld.constructor | src/GameWorldHandler.ts:43-67 | modes default to normal and single; the status is pending; floor 0; no last tile; height and tile size -1; no tiles; zero counters; origin position |
| World.GameWorld.GetStatus | src/GameWorldHandler.ts:478-480 | the status read back is never TimeStopped, which no operation assigns |
| World.GameWorld.NewCellTile | src/GameWorldHandler.ts:305-327 | a fresh tile holding the state its map cell calls for |
| World.GameWorld.GenRow | src/GameWorldHandler.ts:298-328 | one floor of fresh, distinct tiles as the map calls for, the floor's mine count, and the floor with -2 rewritten to 0 |
| World.GameWorld.GenTiles | src/GameWorldHandler.ts:286-332 | fresh, distinct tiles shaped as the map, showing its materialised board; totalMines is the number of -1 cells; the map comes back with -2 rewritten to 0 |
| World.GameWorld.MergeTiles | src/GameWorldHandler.ts:334-347 | the map gets exactly one appended row built from the retired floor, and then goes through GenTiles |
| World.GameWorld.RevealTile | src/GameWorldHandler.ts:467-475 | the tile is revealed and nothing else changes; it hands back nothing for a numbered tile and its default-mode frontier otherwise |
| World.GameWorld.Drain | src/GameWorldHandler.ts:585-590 | the loop ends with an empty worklist and the flood invariant: only hidden, unflagged safe tiles were revealed, each a starting cell or next to an expanded revealed 0; each expanded cell, in expansion order, is a starting cell or next to one expanded before it; every neighbour of an expanded cell is settled; every zero it started from or revealed was expanded, and only those: an expanded cell is a starting cell or was hidden before the flood |
| World.GameWorld.ChordReveal | src/GameWorldHandler.ts:565-577 | every target is revealed, the mines among them are counted, and without a mine the reveals form a flood whose worklist is the collected frontier |
| World.GameWorld.ChordStep | src/GameWorldHandler.ts:567-577 | one target of the chord loop keeps the chord's record |
| World.GameWorld.Chord | src/GameWorldHandler.ts:543-590 | nothing changes unless the marks equal the number; then every unmarked neighbour is revealed; mines among them are lost and drop the board; otherwise the reveals flood, expanding only the targets and zeros the flood itself revealed |
| World.GameWorld.ChordRevealAndFlood | src/GameWorldHandler.ts:565-590 | the mines among the targets are counted; with a mine only the targets are revealed; without one the flood from the targets runs until its worklist is empty, with every zero it started from or revealed expanded, and each expanded cell a target or next to one expanded before it; no tile revealed before the flood is expanded unless it is a target |
| World.GameWorld.ActOnTile | src/GameWorldHandler.ts:543-631 | the tiles change as the action's outcome says: chord on a revealed number; flag toggle with a count change of one for a click on a hidden tile; reveal and drop for a double click on a mine; reveal and flood for one on a safe revealable tile, expanding only that tile and zeros the flood revealed; nothing otherwise |
| World.GameWorld.Settle | src/GameWorldHandler.ts:541-616 | the tile becomes the last one touched, the lost mines come off the count, and a drop lowers the board one tile; nothing else changes |
| World.GameWorld.ClickOnTile | src/GameWorldHandler.ts:533-633 | off the board nothing changes; on it the tile under the pointer is recorded and the board, count and position change exactly as the click's outcome says, a flood expanding only its start and the zeros it revealed; `after` is the board left behind |
| World.GameWorld.ClickAt | src/GameWorldHandler.ts:537-633 | the on-board click changes the board, count and position exactly as the click's outcome says, a flood expanding only its start and the zeros it revealed, with the board it leaves returned as `after` |
| World.GameWorld.CarrySeam | src/GameWorldHandler.ts:673-683 | only the last floor changes, into the seam states of the retired floor |
| World.GameWorld.CarryRow | src/GameWorldHandler.ts:673-683 | each seam tile takes the retired tile's flag and reveal and adds its count |
| World.GameWorld.ExtendMarathon | src/GameWorldHandler.ts:664-694 | the fresh map is the band map carved with one seed floor exactly when the retired floor has a revealed tile; the world becomes the extension Grow describes |
| World.GameWorld.PutOnTop | src/GameWorldHandler.ts:671-694 | the world becomes the extension by the carved map |
| World.GameWorld.Install | src/GameWorldHandler.ts:685-694 | the new grid goes in; both counters rise by the merged mines; the board grows by k floors and moves up by as much; the start line is redrawn |
| World.GameWorld.StackOnTop | src/GameWorldHandler.ts:664-685 | the new grid shows the extended board, and the count is the merged map's mines |
| World.GameWorld.SeamedTiles | src/GameWorldHandler.ts:671-683 | fresh tiles showing the seamed top, and the merged map's mine count |
| World.GameWorld.MergedApart | src/GameWorldHandler.ts:671 | fresh tiles of the merged map, none of them a tile of the retired floor |
| World.GameWorld.CrossFloor | src/GameWorldHandler.ts:700-714 | the world becomes the crossing of the floor, with the new floor recorded |
| World.GameWorld.SettleFloor | src/GameWorldHandler.ts:703-714 | a failed inspection loses the game; otherwise the unflagged mines come off the count |
| World.GameWorld.UpdatePos | src/GameWorldHandler.ts:635-737 | the world becomes what Step describes; only a growing marathon frame replaces the grid, and then with the band map carved as a marathon map |
| World.GameWorld.Advance | src/GameWorldHandler.ts:644-649 | a running frame is won as it moves, or descends, as Step describes |
| World.GameWorld.Descend | src/GameWorldHandler.ts:651-656 | a frame that is not won moves, and arrives when the floor under the line is a new one, as Step describes |
| World.GameWorld.DescendOnto | src/GameWorldHandler.ts:651-656 | a frame that reaches a new floor moves and arrives there, as Step describes |
| World.GameWorld.ArriveAt | src/GameWorldHandler.ts:655-714 | the arrival at a new floor, as Arrive describes |
| World.GameWorld.ArriveExtending | src/GameWorldHandler.ts:658-714 | a growing arrival extends the board and then crosses the floor, pushed \|carved\| floors down |
| World.GameWorld.CrossGrown | src/GameWorldHandler.ts:696-714 | after the growth the floor under the line is found again and crossed |
| World.GameWorld.ResetRow | src/GameWorldHandler.ts:790 | every tile of the floor is reset |
| World.GameWorld.ResetTiles | src/GameWorldHandler.ts:790 | the board becomes its reset |
| World.GameWorld.Regenerate | src/GameWorldHandler.ts:779-787 | a ninth of the width as the tile size; the map's height; its materialised board and mine count; all else kept |
| World.GameWorld.Place | src/GameWorldHandler.ts:779-787 | the grid and mine count go in with the tile size and height they call for; all else kept |
| World.GameWorld.Restart | src/GameWorldHandler.ts:792-805 | all mines remain; the board is at its start line; missing player information is reported for a multiplayer game exactly when the count or rank is missing or zero; otherwise the game is ready, and a multiplayer game takes the count as both player count and rank |
| World.GameWorld.RestartGame | src/GameWorldHandler.ts:792-805 | the world becomes what Restarted describes |
| World.GameWorld.Prime | src/GameWorldHandler.ts:758-766 | the modes are the given ones or kept; floor 0, pending, no last tile |
| World.GameWorld.Reset | src/GameWorldHandler.ts:749-809 | the world and error become what ResetGame describes; a new board comes from the given map, or else from the band map carved as a new game's map |
| World.GameWorld.Renew | src/GameWorldHandler.ts:771-805 | a new board or reset tiles, then the restart |
| World.GameWorld.RenewBoard | src/GameWorldHandler.ts:771-805 | a new board, then the restart |
| World.GameWorld.RenewTiles | src/GameWorldHandler.ts:789-805 | reset tiles, then the restart |
| World.GameWorld.Rebuild | src/GameWorldHandler.ts:771-787 | the new board from the given map, or else from the carved band map |
| World.GameWorld.NewBoardFor | src/GameWorldHandler.ts:779-787 | the world becomes what NewBoard describes |
| World.GameWorld.Start | src/GameWorldHandler.ts:739-743 | the status becomes started and nothing else changes |
| World.GameWorld.Pause | src/GameWorldHandler.ts:745-747 | the status becomes paused and nothing else changes |

## Left out

- Drawing (`draw`, `drawTiles`, `Tile.draw`, `drawHidden`), `getTileMapInfo` and the console logging: output only.
- `isOnUi`, `clickOnUi` and `setAccelerate`: user-interface and timing plumbing.
- Speed tiers (`updateCurrentSpeed`) and the acceleration window: the per-frame advance is the parameter `advance`.
- The singleton `getInstance`, `async`/`await` and the reset callback: sequencing only; each awaited call is modelled as a plain call.
- The band loop of `genMineMap` (src/GameWorldHandler.ts:103-136), with its random band sizes and fractional quotas: its output map is the parameter `banded`, which the model then carves. `PlaceMines` models one band's placement by itself.
- MineMaps.PlaceMines: the random draws are a finite list `picks`. When Sampling over all of them accepts fewer than the quota, `done` is false and fewer mines are laid; the source would go on drawing, and its loop may never end.
- World.GameWorld.constructor: requires a positive canvas width. A zero-wide canvas gives tile size 0, and the source then divides by it and gets Infinity or NaN.
- World.GameWorld.ClickOnTile: requires the pointer to be inside the canvas width. The source does not check x, and a pointer beyond the last column would read a missing tile.
- MineMaps.CarveSafeZone: requires at most as many seed floors as the map has floors. The source would otherwise index a negative row.
- World.GameWorld.MergeTiles: requires a non-empty fresh map, because the source sizes the appended row by `mineMap[0].length`.
- World.GameWorld.Reset: a given mine map must have nine cells per floor, and the band map must have the mode's floor count. The rewrite of a given map's -2 cells to 0, which the caller's array would see, is not returned.
- The `timestoped` status is declared but never assigned. `TimeStopped` exists in the model and `Valid` excludes it. Every method that sets the status either keeps `Valid` or, like `Start` and `Pause`, sets another status and leaves every other field as it was.
- Floating-point rounding: geometry is exact `real` arithmetic.
