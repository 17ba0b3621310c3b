# Halite bot turn step, in Dafny

This project models the per-turn decision step of a Halite III bot
(`getCommands` in `MyBot.ts`) and the state the bot keeps from turn to turn.
Each turn, the bot does the following:

1. It rebuilds its ship-status table from the live roster.
2. It runs a two-state gathering/returning machine for each ship.
3. It picks a destination for each ship: the shipyard, or the richest neighbouring cell.
4. It plans one safe step towards that destination. Each committed step claims its target cell in the map's occupancy overlay straight away, so later ships see it.
5. It decides whether to spawn a ship.
6. It may switch on the one-way "return all ships" latch for the endgame.

The result is a command queue: the spawn command, if any, followed by the moves in roster order.

Files:

- `geometry.dfy` (module `Geometry`): directions, positions, the wrap-around step, the wrap-aware Manhattan distance, and the "unsafe moves" towards a destination. These stand in for the game library the bot imports.
- `entities.dfy` (module `Entities`): ships, the player, the game constants, commands, and the class `GameMap`. `GameMap` has a fixed halite layer and an occupancy overlay that the bot overwrites in place.
- `my_bot.dfy` (module `MyBot`): the status table, the movement planner, foraging, spawning, the endgame latch, and the class `Bot`. `Bot` holds the three process-wide globals:
  - `statuses` models `shipStatusArray`, keyed by ship id;
  - `returnAllShips`;
  - `shipsCount`.

The turn is `Bot.GetCommands` → `Bot.PlayTurn`. That runs `RebuildStatuses`, then the per-ship loop `PlanShips` (each ship through `PlanShip` and `PlanMove`), then `CloseTurn` (spawn, roster size, latch, command queue).

The fractional thresholds of the source are exact integer cross-multiplications:

| source | here |
|---|---|
| cargo `> 0.9 · MAX_ENERGY` | `10 · cargo > 9 · maxEnergy` |
| cell halite `< 0.05 · MAX_ENERGY` | `20 · h < maxEnergy` |
| `turn < 0.5 · MAX_TURNS` | `2 · turn < maxTurns` |
| `turn >= 0.7 · MAX_TURNS` | `10 · turn >= 7 · maxTurns` |
| latch: `MAX_TURNS − turn < d + 3 + (w + h) / 20` | `20 · (maxTurns − turn) < 20 · d + 60 + w + h` |

The safety of the whole turn is proved against the overlay the engine supplies (`PlayTurn`'s `MovesSafe`):

- no two planned moves share a target cell;
- no move targets the cell of a roster ship that stays put;
- no move targets a cell that a foreign ship held.

In each case the shipyard is exempt while the latch is on. The proof carries an invariant (`Claims`) through the per-ship loop; `CommitKeepsClaims` shows that one committed step preserves it.

## Model

| member | source | states |
|---|---|---|
| Geometry.AllCardinals | MyBot.ts:80 | the candidate list of the fallback is four directions, none of them Still |
| Geometry.CardinalsComplete | MyBot.ts:80 | every direction other than Still is among the cardinals, so the fallback covers every possible step |
| Geometry.Offset | MyBot.ts:88 | the library's one-cell step (`RawOffset`) wrapped back onto the map, in closed form with `%`; a step that stays on the map is unchanged; Still stays put; an east/west step keeps the row and changes the column (on a map at least two wide), and a north/south step likewise |
| Geometry.OffsetAdjacent | MyBot.ts:88 | on a map at least two cells each way, every cardinal step lands exactly one cell away |
| Geometry.Distance | MyBot.ts:168 | the distance is zero exactly for the same cell and never exceeds half of width + height |
| Geometry.UnsafeMoves | MyBot.ts:76 | at most two directions towards the destination, none of them Still, and none exactly when the ship is already there |
| Geometry.UnsafeMovesCloser | MyBot.ts:76 | each direction towards the destination brings the ship exactly one cell closer |
| Entities.GameMap.SetShip | MyBot.ts:91 | the target cell now holds the ship; every other cell of the overlay is unchanged |
| Entities.GameMap.ClearShip | MyBot.ts:92 | the origin cell is now empty; every other cell of the overlay is unchanged |
| MyBot.Rebuilt | MyBot.ts:41-49 | the rebuilt table has exactly the roster's ids; a known ship keeps its flag, a new ship starts not returning, departed ships are dropped |
| MyBot.RebuiltIdempotent | MyBot.ts:41-49 | rebuilding twice from the same roster gives the same table as rebuilding once |
| MyBot.Bot.RebuildStatuses | MyBot.ts:41-49 | the loop leaves the status table equal to the rebuilt table of the old one |
| MyBot.NextReturning | MyBot.ts:104-111 | heavy cargo always means returning; with the latch off, a ship on the shipyard without heavy cargo stops returning; a returning ship away from the shipyard, or under the latch, keeps returning; a gathering ship without heavy cargo keeps gathering |
| MyBot.SafeDirections | MyBot.ts:55-66 | a direction is kept exactly when it is a candidate and `SafeToMove` holds (MyBot.ts:55-62): the ship can pay the move cost, and the target cell is free or, under the latch, the library's unwrapped step is the shipyard; the result is no longer than the candidates |
| MyBot.SelectDirection | MyBot.ts:65-73 | Still exactly when no candidate is safe; otherwise some safe candidate |
| MyBot.PlanMove | MyBot.ts:75-95 | no move exactly when no cardinal step is safe; otherwise one safe cardinal step of this ship from its cell is appended, its target claimed and its origin freed in the overlay, earlier moves untouched; the step goes towards the destination whenever some step towards it is safe |
| MyBot.PoorShipStays | MyBot.ts:60-62 | a ship whose cargo is below its cell's halite divided by the move-cost ratio plans no move and leaves the overlay as it was |
| MyBot.PlanMoveApproaches | MyBot.ts:75-76 | when a step towards the destination is safe, a move is planned and it ends one cell closer to the destination |
| MyBot.NeighboursDistinct | MyBot.ts:124-127 | on a map at least three cells each way, the four cells the scan visits are pairwise distinct, none is the ship's cell, and each is one cell away |
| MyBot.RichestCell | MyBot.ts:123-132 | the scan returns a cell on the map that is the richest choice: the ship's cell unless a neighbour holds strictly more halite, and among the richest neighbours the first in cardinal order |
| MyBot.RichestUnique | MyBot.ts:123-132 | the richest choice is unique, so the scan's answer is determined by the map |
| MyBot.UniqueRichestNeighbour | MyBot.ts:121-137 | a neighbour strictly richer than the ship's cell and every other neighbour is the foraging destination |
| MyBot.SpawnCommands | MyBot.ts:146-162 | at most one spawn; a spawn exactly when the halite covers the ship cost, the shipyard cell is free, and either the turn is in the first half of the game or, with the latch off, ships were lost since the previous turn and the turn is at or after 70% of the game (the "before this fraction of the game" test is `BeforeProgress`, MyBot.ts:154) |
| MyBot.MaxDistanceToShipyard | MyBot.ts:168 | none exactly for an empty roster; otherwise no ship is farther from the shipyard, and some ship is exactly that far |
| MyBot.EmptyRosterNeverLatches | MyBot.ts:168-175 | with no ships the endgame test `EndgameDue` (MyBot.ts:174-175) never holds |
| MyBot.EndgameScenario | MyBot.ts:174-175 | `EndgameDue` on a 5 x 5 map with 400 turns: a ship three cells out trips the latch at turn 395 but not at turn 393 |
| MyBot.AppendMoveCommands | MyBot.ts:183-185 | the queue keeps its prefix and gains one move command per planned move, in order |
| MyBot.CommitKeepsClaims | MyBot.ts:87-94 | committing a safe step keeps every claim of the overlay: unmoved ships, moved ships in their targets, foreign ships, pairwise distinct targets |
| MyBot.ClaimsGiveSafety | MyBot.ts:61 | once every ship is planned, no two moves share a target, no move targets a ship that stays, and no move targets a foreign ship's cell (the shipyard exempt under the latch) |
| MyBot.Bot.constructor | MyBot.ts:22-24 | the globals start as an empty table, the latch off and a roster size of zero |
| MyBot.Bot.ReturnAll | MyBot.ts:177-179 | every entry of the status table becomes returning; no entry is added or removed |
| MyBot.Bot.PlanShip | MyBot.ts:103-139 | the ship's status follows the gathering/returning machine; a returning ship away from the shipyard steps home; otherwise, with the latch off and a poor cell, it steps towards the richest neighbour (or stays when its cell is richest); otherwise it stays |
| MyBot.Bot.PlanShips | MyBot.ts:50-140 | every roster ship's status advanced once; the moves are cardinal steps of roster ships from their cells, at most one per ship, in roster order, and are pairwise safe as above; and, ship by ship through snapshots of the overlay and the move list from the engine's overlay to the final one, each ship made the decision `PlanShip` states (home, forage or stay) |
| MyBot.Bot.CloseTurn | MyBot.ts:146-185 | the spawn is decided on the overlay as the moves left it; the roster size is recorded; the latch trips exactly when off and the endgame test `EndgameDue` (MyBot.ts:174-175) holds, and then every status becomes returning; the queue is the spawn (if any) followed by the moves |
| MyBot.Bot.PlayTurn | MyBot.ts:36-190 | the whole turn: the status table is the rebuilt table advanced by the machine (all returning if the latch just tripped); the latch never switches off; the moves are safe; each ship's decision, ship by ship, from the engine's overlay to the final one; the queue is the spawn, if any, then one command per move |
| MyBot.Bot.GetCommands | MyBot.ts:26-34 | a missing map or player yields the "not initialized" error and changes nothing; otherwise the turn runs |

## Left out

- The game library (positionals, game map, entities, constants, networking, logging) is not part of this model. Its step, distance and "unsafe moves" functions are given the contracts the bot relies on.
  - The library's `directionalOffset` does not wrap; the map wraps on lookup. The model keeps both: `RawOffset` is the unwrapped step and `Offset` the wrapped cell. Like the source, the shipyard exemption in `SafeToMove` compares the unwrapped step, so a step that reaches the shipyard only by wrapping round the edge is not exempt (`MyBot.ts:56, 60`).
  - A planned move's `to` is the wrapped cell; the source records the unwrapped step there (`MyBot.ts:88, 94`), which only ever feeds the command's direction.
  - `getUnsafeMoves` is taken to be the usual rule: one step per axis on which the cells differ, the shorter way round.
- The game loop and networking (`MyBot.ts:193-202`) are asynchronous I/O with the engine and are not modelled. The turn number and the frame are parameters of `GetCommands`.
- `Math.random` (`MyBot.ts:68`) becomes an arbitrary choice among the safe directions (`:|`). The contract is "some safe direction", not a distribution.
- Floating-point arithmetic is replaced by the exact integer cross-multiplications above. `Math.floor(halite / MOVE_COST_RATIO)` is Dafny's division on naturals, which floors in the same way.
- `evaluate-bots.ts` is a parameter-sweep script that prints shell commands. It is not part of this model.
- The spawn and move commands are opaque tokens (`Spawn`, `MoveShip(id, direction)`), not the engine's strings.
- The frame the engine delivers is assumed well formed (`TurnInput`):
  - every position is on the map and every cell has a halite amount;
  - ship ids are distinct;
  - the overlay shows each of the bot's ships in its own cell.
- `PlanMove` is given a destination different from the ship's cell by both callers. If the destination were the ship's cell, the code would still try the cardinals; the model does the same, but no caller exercises it.
- The source compares `ship.position !== bestPosition` by object identity (`MyBot.ts:134`). The model compares values. The two agree, because the scan replaces the ship's position only with a strictly richer cell, which is a different cell.
- MyBot.Bot.GetCommands: its own contract states only the error path, the latch's monotonicity and the bookkeeping. The full turn contract is on `PlayTurn`, which it calls.
- Three behaviours that are easy to misread are modelled as the code has them:
  - the recovery spawn fires at or after 70% of the game (`MyBot.ts:154, 160`);
  - the spawn command precedes the moves in the queue (`MyBot.ts:149`, `183-185`);
  - the spawn is judged on the overlay after this turn's moves were claimed.
