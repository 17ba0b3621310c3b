/**
 The bot's per-turn decision step (`getCommands`) and the state it keeps
 between turns.

 Each turn the bot rebuilds its per-ship status table from the live roster,
 runs a two-state machine (gathering / returning) per ship, picks a
 destination (its shipyard, or the richest neighbouring cell), plans one safe
 step towards it while claiming cells in the map's occupancy overlay, decides
 whether to spawn one ship, and may switch on the end-of-game "return all
 ships" latch. The command queue is the optional spawn followed by the moves
 in roster order.
 */
module MyBot {
  import opened Geometry
  import opened Entities

  // ---------------------------------------------------------------------------
  // Status table
  // ---------------------------------------------------------------------------

  function Ids(ships: seq<Ship>): set<ShipId>
  {
    set i | 0 <= i < |ships| :: ships[i].id
  }

  /**
   The status table rebuilt from the roster: one entry per live ship, the
   previous entry when there was one, "not returning" for a ship seen for
   the first time; entries of ships no longer in the roster are dropped.
   */
  function Rebuilt(prior: map<ShipId, bool>, ships: seq<Ship>): (r: map<ShipId, bool>)
    ensures r.Keys == Ids(ships)
    ensures forall id :: id in r ==> r[id] == (id in prior && prior[id])
  {
    if ships == [] then map[]
    else
      var last := ships[|ships| - 1];
      var rest := ships[..|ships| - 1];
      assert Ids(ships) == Ids(rest) + {last.id} by {
        assert forall i :: 0 <= i < |rest| ==> rest[i] == ships[i];
      }
      Rebuilt(prior, rest)[last.id := if last.id in prior then prior[last.id] else false]
  }

  /** Rebuilding twice from the same roster gives the same table as rebuilding once. */
  lemma RebuiltIdempotent(prior: map<ShipId, bool>, ships: seq<Ship>)
    ensures Rebuilt(Rebuilt(prior, ships), ships) == Rebuilt(prior, ships)
  {
  }

  /**
   One turn of the gathering / returning machine for one ship: a ship on the
   shipyard goes back to gathering unless the latch is on, and a gathering
   ship whose cargo exceeds 90% of the capacity starts returning.
   */
  function NextReturning(wasReturning: bool, returnAll: bool, atShipyard: bool, cargo: nat, maxEnergy: nat): (r: bool)
    ensures 10 * cargo > 9 * maxEnergy ==> r
    ensures !returnAll && atShipyard && 10 * cargo <= 9 * maxEnergy ==> !r
    ensures wasReturning && (returnAll || !atShipyard) ==> r
    ensures !wasReturning && 10 * cargo <= 9 * maxEnergy ==> !r
  {
    var afterReset := if !returnAll && atShipyard then false else wasReturning;
    if !afterReset && 10 * cargo > 9 * maxEnergy then true else afterReset
  }

  // ---------------------------------------------------------------------------
  // Movement planner
  // ---------------------------------------------------------------------------

  /**
   A step in direction d is safe when the ship can pay for leaving its cell
   (cargo at least the cell's halite divided by the move-cost ratio, rounded
   down) and the target cell is free in the overlay, except that while the
   latch is on the shipyard counts as free. The exemption compares the
   library's unwrapped step with the shipyard, so a step that reaches the
   shipyard by wrapping around an edge is not exempt.
   */
  predicate SafeToMove(gm: GameMap, occupant: map<Position, ShipId>, ship: Ship, shipyard: Position,
                       returnAll: bool, moveCostRatio: nat, d: Direction)
    requires gm.HaliteTotal() && InBounds(gm.width, gm.height, ship.position) && moveCostRatio > 0
  {
    var destination := Offset(gm.width, gm.height, ship.position, d);
    var enoughHalite := ship.halite >= gm.halite[ship.position] / moveCostRatio;
    var occupied := if RawOffset(ship.position, d) == shipyard && returnAll then false else destination in occupant;
    !occupied && enoughHalite
  }

  /** The candidates that are safe, in their original order (`filter(isSafeToMove)`). */
  function SafeDirections(gm: GameMap, occupant: map<Position, ShipId>, ship: Ship, shipyard: Position,
                          returnAll: bool, moveCostRatio: nat, candidates: seq<Direction>): (r: seq<Direction>)
    requires gm.HaliteTotal() && InBounds(gm.width, gm.height, ship.position) && moveCostRatio > 0
    ensures |r| <= |candidates|
    ensures forall d :: d in r <==> d in candidates && SafeToMove(gm, occupant, ship, shipyard, returnAll, moveCostRatio, d)
  {
    if candidates == [] then []
    else
      var rest := SafeDirections(gm, occupant, ship, shipyard, returnAll, moveCostRatio, candidates[1..]);
      if SafeToMove(gm, occupant, ship, shipyard, returnAll, moveCostRatio, candidates[0])
      then [candidates[0]] + rest
      else rest
  }

  /**
   A safe candidate chosen at random, or Still when none is safe. The random
   index of the source is an arbitrary choice here.
   */
  method SelectDirection(gm: GameMap, ship: Ship, shipyard: Position, returnAll: bool, moveCostRatio: nat,
                         candidates: seq<Direction>) returns (d: Direction)
    requires gm.Valid() && InBounds(gm.width, gm.height, ship.position) && moveCostRatio > 0
    requires Still !in candidates
    ensures d == Still <==> forall c :: c in candidates ==> !SafeToMove(gm, gm.occupant, ship, shipyard, returnAll, moveCostRatio, c)
    ensures d != Still ==> d in candidates && SafeToMove(gm, gm.occupant, ship, shipyard, returnAll, moveCostRatio, d)
  {
    var safe := SafeDirections(gm, gm.occupant, ship, shipyard, returnAll, moveCostRatio, candidates);
    if |safe| > 0 {
      var i :| 0 <= i < |safe|;
      d := safe[i];
      assert d in safe;
    } else {
      d := Still;
    }
  }

  /** The overlay and the move list are as they were. */
  ghost predicate Unmoved(moves: seq<ShipMove>, moves': seq<ShipMove>,
                          before: map<Position, ShipId>, after: map<Position, ShipId>)
  {
    moves' == moves && after == before
  }

  /**
   Exactly one move was appended: a safe cardinal step of this ship from its
   cell, whose target now holds the ship and whose origin is now free.
   */
  ghost predicate Committed(gm: GameMap, before: map<Position, ShipId>, after: map<Position, ShipId>,
                            ship: Ship, shipyard: Position, returnAll: bool, moveCostRatio: nat,
                            moves: seq<ShipMove>, moves': seq<ShipMove>)
    requires gm.HaliteTotal() && InBounds(gm.width, gm.height, ship.position) && moveCostRatio > 0
  {
    && |moves'| == |moves| + 1 && moves'[..|moves|] == moves
    && var m := moves'[|moves|];
       && m.ship == ship && m.direction != Still && m.from == ship.position
       && m.to == Offset(gm.width, gm.height, ship.position, m.direction)
       && SafeToMove(gm, before, ship, shipyard, returnAll, moveCostRatio, m.direction)
       && after == before[m.to := ship.id] - {m.from}
  }

  /**
   What one call of the planner does: it commits a move exactly when some
   cardinal step is safe, and the step goes towards the destination whenever
   some step towards the destination is safe.
   */
  ghost predicate PlanOutcome(gm: GameMap, before: map<Position, ShipId>, after: map<Position, ShipId>,
                              ship: Ship, destination: Position, shipyard: Position, returnAll: bool,
                              moveCostRatio: nat, moves: seq<ShipMove>, moves': seq<ShipMove>)
    requires gm.HaliteTotal() && InBounds(gm.width, gm.height, ship.position) && moveCostRatio > 0
    requires InBounds(gm.width, gm.height, destination)
  {
    var toward := UnsafeMoves(gm.width, gm.height, ship.position, destination);
    && (Unmoved(moves, moves', before, after) <==>
          forall d :: d in AllCardinals() ==> !SafeToMove(gm, before, ship, shipyard, returnAll, moveCostRatio, d))
    && (Unmoved(moves, moves', before, after) ||
          Committed(gm, before, after, ship, shipyard, returnAll, moveCostRatio, moves, moves'))
    && (Committed(gm, before, after, ship, shipyard, returnAll, moveCostRatio, moves, moves') &&
          (exists d :: d in toward && SafeToMove(gm, before, ship, shipyard, returnAll, moveCostRatio, d)) ==>
            moves'[|moves|].direction in toward)
  }

  /**
   Plans one step of `ship` towards `destination` (the `move` closure): a safe
   step towards it if there is one, otherwise any safe cardinal step,
   otherwise none. A committed step claims its target in the overlay at once.
   */
  method PlanMove(gm: GameMap, ship: Ship, destination: Position, shipyard: Position, returnAll: bool,
                  moveCostRatio: nat, moves: seq<ShipMove>) returns (moves': seq<ShipMove>)
    requires gm.Valid() && moveCostRatio > 0
    requires InBounds(gm.width, gm.height, ship.position) && InBounds(gm.width, gm.height, destination)
    modifies gm
    ensures gm.Valid()
    ensures PlanOutcome(gm, old(gm.occupant), gm.occupant, ship, destination, shipyard, returnAll,
                        moveCostRatio, moves, moves')
  {
    var toward := UnsafeMoves(gm.width, gm.height, ship.position, destination);
    var direction := SelectDirection(gm, ship, shipyard, returnAll, moveCostRatio, toward);
    if direction == Still {
      direction := SelectDirection(gm, ship, shipyard, returnAll, moveCostRatio, AllCardinals());
    }
    if direction != Still {
      CardinalsComplete(direction);
      var from := ship.position;
      var to := Offset(gm.width, gm.height, ship.position, direction);
      gm.SetShip(to, ship.id);
      gm.ClearShip(from);
      moves' := moves + [ShipMove(ship, direction, from, to)];
    } else {
      moves' := moves;
    }
  }

  /** A ship that cannot pay for leaving its cell plans no move at all. */
  lemma PoorShipStays(gm: GameMap, before: map<Position, ShipId>, after: map<Position, ShipId>,
                      ship: Ship, destination: Position, shipyard: Position, returnAll: bool,
                      moveCostRatio: nat, moves: seq<ShipMove>, moves': seq<ShipMove>)
    requires gm.HaliteTotal() && InBounds(gm.width, gm.height, ship.position) && moveCostRatio > 0
    requires InBounds(gm.width, gm.height, destination)
    requires ship.halite < gm.halite[ship.position] / moveCostRatio
    requires PlanOutcome(gm, before, after, ship, destination, shipyard, returnAll, moveCostRatio, moves, moves')
    ensures moves' == moves && after == before
  {
  }

  /**
   When some step towards the destination is safe, the planned step is one of
   them and leaves the ship exactly one cell closer to the destination.
   */
  lemma PlanMoveApproaches(gm: GameMap, before: map<Position, ShipId>, after: map<Position, ShipId>,
                           ship: Ship, destination: Position, shipyard: Position, returnAll: bool,
                           moveCostRatio: nat, moves: seq<ShipMove>, moves': seq<ShipMove>, d: Direction)
    requires gm.HaliteTotal() && InBounds(gm.width, gm.height, ship.position) && moveCostRatio > 0
    requires InBounds(gm.width, gm.height, destination)
    requires d in UnsafeMoves(gm.width, gm.height, ship.position, destination)
    requires SafeToMove(gm, before, ship, shipyard, returnAll, moveCostRatio, d)
    requires PlanOutcome(gm, before, after, ship, destination, shipyard, returnAll, moveCostRatio, moves, moves')
    ensures |moves'| == |moves| + 1
    ensures Distance(gm.width, gm.height, moves'[|moves|].to, destination) + 1
              == Distance(gm.width, gm.height, ship.position, destination)
  {
    CardinalsComplete(d);
    var m := moves'[|moves|];
    UnsafeMovesCloser(gm.width, gm.height, ship.position, destination, m.direction);
  }

  // ---------------------------------------------------------------------------
  // Foraging
  // ---------------------------------------------------------------------------

  /** The four cells next to pos, in cardinal order. */
  function Neighbours(width: nat, height: nat, pos: Position): (r: seq<Position>)
    requires InBounds(width, height, pos)
    ensures |r| == 4
    ensures forall i :: 0 <= i < 4 ==> r[i] == Offset(width, height, pos, AllCardinals()[i])
    ensures forall q :: q in r ==> InBounds(width, height, q)
  {
    seq(4, i requires 0 <= i < 4 => Offset(width, height, pos, AllCardinals()[i]))
  }

  /**
   On a map at least three cells wide and high, the four neighbours scanned
   for halite are four different cells, each adjacent to pos and none pos itself.
   */
  lemma NeighboursDistinct(width: nat, height: nat, pos: Position)
    requires InBounds(width, height, pos) && width >= 3 && height >= 3
    ensures var around := Neighbours(width, height, pos);
            && (forall i, j :: 0 <= i < j < 4 ==> around[i] != around[j])
            && (forall i :: 0 <= i < 4 ==> around[i] != pos && Distance(width, height, pos, around[i]) == 1)
  {
    var around := Neighbours(width, height, pos);
    forall i | 0 <= i < 4
      ensures Distance(width, height, pos, around[i]) == 1
    {
      OffsetAdjacent(width, height, pos, AllCardinals()[i]);
    }
  }

  /**
   best is the cell a foraging ship at pos heads for: the neighbour with
   strictly the most halite, the earliest such neighbour in cardinal order,
   or pos itself when no neighbour has more halite than pos.
   */
  ghost predicate IsRichest(gm: GameMap, pos: Position, best: Position)
    requires gm.HaliteTotal() && InBounds(gm.width, gm.height, pos)
  {
    var around := Neighbours(gm.width, gm.height, pos);
    && (best == pos || best in around)
    && gm.halite[pos] <= gm.halite[best]
    && (forall q :: q in around ==> gm.halite[q] <= gm.halite[best])
    && (best != pos ==>
          && gm.halite[pos] < gm.halite[best]
          && exists i :: 0 <= i < 4 && around[i] == best &&
               forall j :: 0 <= j < i ==> gm.halite[around[j]] < gm.halite[best])
  }

  /** At most one cell is the richest choice from a given cell. */
  lemma RichestUnique(gm: GameMap, pos: Position, b1: Position, b2: Position)
    requires gm.HaliteTotal() && InBounds(gm.width, gm.height, pos)
    requires IsRichest(gm, pos, b1) && IsRichest(gm, pos, b2)
    ensures b1 == b2
  {
  }

  /**
   A neighbour with strictly more halite than the ship's cell and every other
   neighbour is the one a foraging ship heads for.
   */
  lemma UniqueRichestNeighbour(gm: GameMap, pos: Position, k: nat, best: Position)
    requires gm.HaliteTotal() && InBounds(gm.width, gm.height, pos) && k < 4
    requires var around := Neighbours(gm.width, gm.height, pos);
             && gm.halite[pos] < gm.halite[around[k]]
             && forall j :: 0 <= j < 4 && around[j] != around[k] ==> gm.halite[around[j]] < gm.halite[around[k]]
    requires IsRichest(gm, pos, best)
    ensures best == Neighbours(gm.width, gm.height, pos)[k]
  {
  }

  /** The scan over the four neighbours for the richest cell. */
  method RichestCell(gm: GameMap, pos: Position) returns (best: Position)
    requires gm.Valid() && InBounds(gm.width, gm.height, pos)
    ensures InBounds(gm.width, gm.height, best)
    ensures IsRichest(gm, pos, best)
  {
    ghost var around := Neighbours(gm.width, gm.height, pos);
    best := pos;
    for i := 0 to 4
      invariant best == pos || best in around[..i]
      invariant InBounds(gm.width, gm.height, best)
      invariant gm.halite[pos] <= gm.halite[best]
      invariant forall j :: 0 <= j < i ==> gm.halite[around[j]] <= gm.halite[best]
      invariant best != pos ==>
                  && gm.halite[pos] < gm.halite[best]
                  && exists j :: 0 <= j < i && around[j] == best &&
                       forall j' :: 0 <= j' < j ==> gm.halite[around[j']] < gm.halite[best]
    {
      var next := Offset(gm.width, gm.height, pos, AllCardinals()[i]);
      if gm.halite[best] < gm.halite[next] {
        best := next;
      }
    }
  }

  // ---------------------------------------------------------------------------
  // Spawning and the endgame latch
  // ---------------------------------------------------------------------------

  /** The source's `isAfterGameProgress(tenths / 10)`: the turn is before that fraction of the game. */
  predicate BeforeProgress(turnNumber: nat, tenths: nat, maxTurns: nat)
  {
    10 * turnNumber < tenths * maxTurns
  }

  /**
   The spawn command of this turn, if any (`spawnShip` and its two call
   sites): early in the game, or late in the game to replace a lost ship,
   provided the halite suffices and the shipyard cell is free.
   */
  method SpawnCommands(yardOccupied: bool, playerHalite: nat, turnNumber: nat, returnAll: bool,
                       lastShipsCount: nat, shipsNow: nat, k: Constants) returns (queue: seq<Command>)
    ensures queue == [] || queue == [Spawn]
    ensures queue == [Spawn] <==>
              && playerHalite >= k.shipCost && !yardOccupied
              && (2 * turnNumber < k.maxTurns ||
                  (!returnAll && lastShipsCount > shipsNow && 10 * turnNumber >= 7 * k.maxTurns))
  {
    queue := [];
    var alreadySpawned := false;
    if BeforeProgress(turnNumber, 5, k.maxTurns) {
      if !alreadySpawned && playerHalite >= k.shipCost && !yardOccupied {
        queue := queue + [Spawn];
        alreadySpawned := true;
      }
    }
    if !returnAll && lastShipsCount > shipsNow && !BeforeProgress(turnNumber, 7, k.maxTurns) {
      if !alreadySpawned && playerHalite >= k.shipCost && !yardOccupied {
        queue := queue + [Spawn];
        alreadySpawned := true;
      }
    }
  }

  /** The largest distance from the shipyard to a ship; None for an empty roster (`Math.max()` is -Infinity). */
  function MaxDistanceToShipyard(width: nat, height: nat, shipyard: Position, ships: seq<Ship>): (r: Option<nat>)
    requires InBounds(width, height, shipyard)
    requires forall i :: 0 <= i < |ships| ==> InBounds(width, height, ships[i].position)
    ensures r == None <==> ships == []
    ensures r.Some? ==> forall i :: 0 <= i < |ships| ==> Distance(width, height, shipyard, ships[i].position) <= r.value
    ensures r.Some? ==> exists i :: 0 <= i < |ships| && Distance(width, height, shipyard, ships[i].position) == r.value
  {
    if ships == [] then None
    else
      var d := Distance(width, height, shipyard, ships[0].position);
      match MaxDistanceToShipyard(width, height, shipyard, ships[1..])
      case None => Some(d)
      case Some(rest) => Some(if d < rest then rest else d)
  }

  /**
   The endgame test: fewer turns remain than the farthest ship needs to reach
   the shipyard plus a reserve of 3 + (width + height) / 20 turns, scaled by 20
   to stay in integers. With no ships it never holds.
   */
  predicate EndgameDue(maxDistance: Option<nat>, turnNumber: nat, maxTurns: nat, width: nat, height: nat)
  {
    match maxDistance
    case None => false
    case Some(d) => 20 * (maxTurns - turnNumber) < 20 * d + 60 + width + height
  }

  /** With an empty roster the latch never trips, whatever the turn. */
  lemma EmptyRosterNeverLatches(width: nat, height: nat, shipyard: Position, turnNumber: nat, maxTurns: nat)
    requires InBounds(width, height, shipyard)
    ensures !EndgameDue(MaxDistanceToShipyard(width, height, shipyard, []), turnNumber, maxTurns, width, height)
  {
  }

  /** On a 5 x 5 map with 400 turns, a ship 3 cells from the shipyard trips the latch at turn 395. */
  lemma EndgameScenario(shipyard: Position, ship: Ship)
    requires InBounds(5, 5, shipyard) && InBounds(5, 5, ship.position)
    requires Distance(5, 5, shipyard, ship.position) == 3
    ensures EndgameDue(MaxDistanceToShipyard(5, 5, shipyard, [ship]), 395, 400, 5, 5)
    ensures !EndgameDue(MaxDistanceToShipyard(5, 5, shipyard, [ship]), 393, 400, 5, 5)
  {
  }

  /** Appends one move command per planned move, in order (the final loop of `getCommands`). */
  method AppendMoveCommands(queue: seq<Command>, moves: seq<ShipMove>) returns (out: seq<Command>)
    ensures |out| == |queue| + |moves| && out[..|queue|] == queue
    ensures forall t :: 0 <= t < |moves| ==> out[|queue| + t] == MoveShip(moves[t].ship.id, moves[t].direction)
  {
    out := queue;
    for t := 0 to |moves|
      invariant |out| == |queue| + t && out[..|queue|] == queue
      invariant forall u :: 0 <= u < t ==> out[|queue| + u] == MoveShip(moves[u].ship.id, moves[u].direction)
    {
      out := out + [MoveShip(moves[t].ship.id, moves[t].direction)];
    }
  }

  // ---------------------------------------------------------------------------
  // The turn
  // ---------------------------------------------------------------------------

  /** The cell is the shipyard and the latch is on: ships may stack there. */
  ghost predicate Exempt(returnAll: bool, shipyard: Position, p: Position)
  {
    returnAll && p == shipyard
  }

  /** The overlay shows ship id in cell p. */
  ghost predicate Holds(occupant: map<Position, ShipId>, p: Position, id: ShipId)
  {
    p in occupant && occupant[p] == id
  }

  /** Ship j of the roster planned no move (mover lists the roster index of each move). */
  ghost predicate Stays(mover: seq<nat>, j: nat)
  {
    forall t :: 0 <= t < |mover| ==> mover[t] != j
  }

  /** The fixed part of what the engine hands the bot: cells on the map, one ship per id. */
  ghost predicate RosterInput(gm: GameMap, me: Player, k: Constants)
  {
    && gm.HaliteTotal() && InBounds(gm.width, gm.height, me.shipyard) && k.moveCostRatio > 0
    && (forall i :: 0 <= i < |me.ships| ==> InBounds(gm.width, gm.height, me.ships[i].position))
    && (forall i, j :: 0 <= i < |me.ships| && 0 <= j < |me.ships| && i != j ==> me.ships[i].id != me.ships[j].id)
  }

  /** What the engine hands the bot each turn: in addition, the overlay shows each own ship in its own cell. */
  ghost predicate TurnInput(gm: GameMap, me: Player, k: Constants)
    reads gm
  {
    && RosterInput(gm, me, k) && gm.Valid()
    && (forall i :: 0 <= i < |me.ships| ==> Holds(gm.occupant, me.ships[i].position, me.ships[i].id))
  }

  /** The moves are cardinal steps of roster ships from their cells, at most one per ship, in roster order. */
  ghost predicate FollowsRoster(gm: GameMap, ships: seq<Ship>, moves: seq<ShipMove>, mover: seq<nat>, upTo: nat)
  {
    && |mover| == |moves|
    && (forall t :: 0 <= t < |mover| ==> mover[t] < upTo && mover[t] < |ships|)
    && (forall t, u :: 0 <= t < u < |mover| ==> mover[t] < mover[u])
    && (forall t :: 0 <= t < |moves| ==>
          && moves[t].ship == ships[mover[t]]
          && moves[t].from == ships[mover[t]].position
          && moves[t].direction != Still
          && InBounds(gm.width, gm.height, moves[t].from)
          && moves[t].to == Offset(gm.width, gm.height, moves[t].from, moves[t].direction))
  }

  /** Every roster ship that has not moved still holds its cell. */
  ghost predicate StayersHeld(occupant: map<Position, ShipId>, ships: seq<Ship>, shipyard: Position, latch: bool,
                              mover: seq<nat>)
  {
    forall j :: 0 <= j < |ships| && Stays(mover, j) ==>
      Holds(occupant, ships[j].position, ships[j].id) || Exempt(latch, shipyard, ships[j].position)
  }

  /** Every moved ship holds its target. */
  ghost predicate TargetsHeld(occupant: map<Position, ShipId>, shipyard: Position, latch: bool, moves: seq<ShipMove>)
  {
    forall t :: 0 <= t < |moves| ==>
      Holds(occupant, moves[t].to, moves[t].ship.id) || Exempt(latch, shipyard, moves[t].to)
  }

  /** Every foreign ship of the starting overlay still holds its cell. */
  ghost predicate ForeignHeld(occupant: map<Position, ShipId>, ships: seq<Ship>, shipyard: Position, latch: bool,
                              start: map<Position, ShipId>)
  {
    forall p :: p in start && start[p] !in Ids(ships) ==>
      Holds(occupant, p, start[p]) || Exempt(latch, shipyard, p)
  }

  /** No two moves share a target. */
  ghost predicate TargetsDistinct(shipyard: Position, latch: bool, moves: seq<ShipMove>)
  {
    forall t, u :: 0 <= t < u < |moves| ==>
      moves[t].to != moves[u].to || Exempt(latch, shipyard, moves[t].to)
  }

  /**
   What the overlay records while the ships are planned in order: every
   roster ship that has not moved, every moved ship (in its target) and every
   foreign ship of the starting overlay still holds its cell, and the targets
   are pairwise distinct; the shipyard is exempt while the latch is on.
   */
  ghost predicate Claims(occupant: map<Position, ShipId>, ships: seq<Ship>, shipyard: Position, latch: bool,
                         start: map<Position, ShipId>, moves: seq<ShipMove>, mover: seq<nat>)
  {
    && StayersHeld(occupant, ships, shipyard, latch, mover)
    && TargetsHeld(occupant, shipyard, latch, moves)
    && ForeignHeld(occupant, ships, shipyard, latch, start)
    && TargetsDistinct(shipyard, latch, moves)
  }

  /**
   The safety of a turn's moves: no two moves share a target, no move targets
   the cell of a roster ship that stays, and no move targets a cell that a
   foreign ship held in the starting overlay; the shipyard is exempt while
   the latch is on.
   */
  ghost predicate MovesSafe(ships: seq<Ship>, shipyard: Position, latch: bool, start: map<Position, ShipId>,
                            moves: seq<ShipMove>, mover: seq<nat>)
  {
    && (forall t, u :: 0 <= t < u < |moves| ==>
          moves[t].to != moves[u].to || Exempt(latch, shipyard, moves[t].to))
    && (forall j, t :: 0 <= j < |ships| && Stays(mover, j) && 0 <= t < |moves| ==>
          moves[t].to != ships[j].position || Exempt(latch, shipyard, moves[t].to))
    && (forall p, t :: p in start && start[p] !in Ids(ships) && 0 <= t < |moves| ==>
          moves[t].to != p || Exempt(latch, shipyard, p))
  }

  /** Before any ship is planned, the claims are those of the engine's overlay. */
  lemma ClaimsAtStart(gm: GameMap, me: Player, k: Constants, latch: bool)
    requires TurnInput(gm, me, k)
    ensures Claims(gm.occupant, me.ships, me.shipyard, latch, gm.occupant, [], [])
  {
  }

  /**
   Committing the move of roster ship i keeps every claim: its target is
   free (or the exempt shipyard), and its origin holds no other ship.
   */
  lemma CommitKeepsClaims(gm: GameMap, ships: seq<Ship>, shipyard: Position, latch: bool, moveCostRatio: nat,
                          i: nat, start: map<Position, ShipId>, before: map<Position, ShipId>,
                          after: map<Position, ShipId>, moves: seq<ShipMove>, moves': seq<ShipMove>, mover: seq<nat>)
    requires gm.HaliteTotal() && moveCostRatio > 0 && i < |ships|
    requires forall j :: 0 <= j < |ships| ==> InBounds(gm.width, gm.height, ships[j].position)
    requires forall a, b :: 0 <= a < |ships| && 0 <= b < |ships| && a != b ==> ships[a].id != ships[b].id
    requires FollowsRoster(gm, ships, moves, mover, i)
    requires InBounds(gm.width, gm.height, shipyard)
    requires Committed(gm, before, after, ships[i], shipyard, latch, moveCostRatio, moves, moves')
    requires !Exempt(latch, shipyard, ships[i].position)
    requires Claims(before, ships, shipyard, latch, start, moves, mover)
    ensures FollowsRoster(gm, ships, moves', mover + [i], i + 1)
    ensures Claims(after, ships, shipyard, latch, start, moves', mover + [i])
  {
    var m := moves'[|moves|];
    assert moves' == moves + [m];
    assert m.to !in before || Exempt(latch, shipyard, m.to) by {
      assert SafeToMove(gm, before, ships[i], shipyard, latch, moveCostRatio, m.direction);
    }
    CommitFollowsRoster(gm, ships, i, m, moves, mover);
    CommitKeepsStayers(ships, shipyard, latch, i, m, before, after, mover);
    CommitKeepsTargets(ships, shipyard, latch, i, m, before, after, moves, mover);
    CommitKeepsForeign(ships, shipyard, latch, i, m, start, before, after);
    CommitKeepsDistinct(shipyard, latch, m, before, moves);
  }

  lemma CommitFollowsRoster(gm: GameMap, ships: seq<Ship>, i: nat, m: ShipMove, moves: seq<ShipMove>, mover: seq<nat>)
    requires i < |ships| && InBounds(gm.width, gm.height, ships[i].position)
    requires FollowsRoster(gm, ships, moves, mover, i)
    requires m.ship == ships[i] && m.from == ships[i].position && m.direction != Still
    requires m.to == Offset(gm.width, gm.height, m.from, m.direction)
    ensures FollowsRoster(gm, ships, moves + [m], mover + [i], i + 1)
  {
  }

  /** The facts about one committed move that the claim lemmas share. */
  ghost predicate CommitStep(ships: seq<Ship>, shipyard: Position, latch: bool, i: nat, m: ShipMove,
                             before: map<Position, ShipId>, after: map<Position, ShipId>)
  {
    && i < |ships| && m.ship == ships[i] && m.from == ships[i].position
    && !Exempt(latch, shipyard, m.from) && Holds(before, m.from, m.ship.id)
    && (m.to !in before || Exempt(latch, shipyard, m.to))
    && after == before[m.to := m.ship.id] - {m.from}
  }

  lemma CommitKeepsStayers(ships: seq<Ship>, shipyard: Position, latch: bool, i: nat, m: ShipMove,
                           before: map<Position, ShipId>, after: map<Position, ShipId>, mover: seq<nat>)
    requires CommitStep(ships, shipyard, latch, i, m, before, after)
    requires forall a, b :: 0 <= a < |ships| && 0 <= b < |ships| && a != b ==> ships[a].id != ships[b].id
    requires StayersHeld(before, ships, shipyard, latch, mover)
    ensures StayersHeld(after, ships, shipyard, latch, mover + [i])
  {
    forall j | 0 <= j < |ships| && Stays(mover + [i], j) && !Exempt(latch, shipyard, ships[j].position)
      ensures Holds(after, ships[j].position, ships[j].id)
    {
      assert Stays(mover, j) && j != i by {
        assert forall t :: 0 <= t < |mover| ==> (mover + [i])[t] == mover[t];
        assert (mover + [i])[|mover|] == i;
      }
      assert ships[j].position != m.from;
    }
  }

  lemma CommitKeepsTargets(ships: seq<Ship>, shipyard: Position, latch: bool, i: nat, m: ShipMove,
                           before: map<Position, ShipId>, after: map<Position, ShipId>,
                           moves: seq<ShipMove>, mover: seq<nat>)
    requires CommitStep(ships, shipyard, latch, i, m, before, after)
    requires forall a, b :: 0 <= a < |ships| && 0 <= b < |ships| && a != b ==> ships[a].id != ships[b].id
    requires |mover| == |moves|
    requires forall t :: 0 <= t < |moves| ==> mover[t] < i && moves[t].ship == ships[mover[t]]
    requires TargetsHeld(before, shipyard, latch, moves)
    ensures TargetsHeld(after, shipyard, latch, moves + [m])
  {
  }

  lemma CommitKeepsForeign(ships: seq<Ship>, shipyard: Position, latch: bool, i: nat, m: ShipMove,
                           start: map<Position, ShipId>, before: map<Position, ShipId>, after: map<Position, ShipId>)
    requires CommitStep(ships, shipyard, latch, i, m, before, after)
    requires ForeignHeld(before, ships, shipyard, latch, start)
    ensures ForeignHeld(after, ships, shipyard, latch, start)
  {
  }

  lemma CommitKeepsDistinct(shipyard: Position, latch: bool, m: ShipMove, before: map<Position, ShipId>,
                            moves: seq<ShipMove>)
    requires m.to !in before || Exempt(latch, shipyard, m.to)
    requires forall t :: 0 <= t < |moves| ==> moves[t].to in before || Exempt(latch, shipyard, moves[t].to)
    requires TargetsDistinct(shipyard, latch, moves)
    ensures TargetsDistinct(shipyard, latch, moves + [m])
  {
  }

  /** Once every ship is planned, the claims give the safety of the moves. */
  lemma ClaimsGiveSafety(gm: GameMap, ships: seq<Ship>, shipyard: Position, latch: bool,
                         start: map<Position, ShipId>, occupant: map<Position, ShipId>,
                         moves: seq<ShipMove>, mover: seq<nat>)
    requires forall a, b :: 0 <= a < |ships| && 0 <= b < |ships| && a != b ==> ships[a].id != ships[b].id
    requires FollowsRoster(gm, ships, moves, mover, |ships|)
    requires Claims(occupant, ships, shipyard, latch, start, moves, mover)
    ensures MovesSafe(ships, shipyard, latch, start, moves, mover)
  {
  }

  /**
   What the turn does with one ship, given its updated status: a returning
   ship away from the shipyard heads for the shipyard; otherwise, while the
   latch is off and its cell holds less than a twentieth of the maximum
   energy, it heads for the richest neighbour (and stays when no neighbour is
   richer than its cell); in every other case it stays.
   */
  ghost predicate ShipPlanned(gm: GameMap, before: map<Position, ShipId>, after: map<Position, ShipId>,
                              ship: Ship, shipyard: Position, returnAll: bool, returning: bool, k: Constants,
                              moves: seq<ShipMove>, moves': seq<ShipMove>)
    requires gm.HaliteTotal() && k.moveCostRatio > 0
    requires InBounds(gm.width, gm.height, shipyard) && InBounds(gm.width, gm.height, ship.position)
  {
    var homeward := returning && ship.position != shipyard;
    var forage := !homeward && !returnAll && 20 * gm.halite[ship.position] < k.maxEnergy;
    && (homeward ==>
          PlanOutcome(gm, before, after, ship, shipyard, shipyard, returnAll, k.moveCostRatio, moves, moves'))
    && (forage ==>
          exists best :: IsRichest(gm, ship.position, best) && InBounds(gm.width, gm.height, best) &&
            if best == ship.position then Unmoved(moves, moves', before, after)
            else PlanOutcome(gm, before, after, ship, best, shipyard, returnAll, k.moveCostRatio, moves, moves'))
    && (!homeward && !forage ==> Unmoved(moves, moves', before, after))
  }

  /** The status table once the first i ships of the roster are planned, starting from `initial`. */
  ghost predicate StatusesUpTo(statuses: map<ShipId, bool>, initial: map<ShipId, bool>, ships: seq<Ship>,
                               shipyard: Position, returnAll: bool, maxEnergy: nat, i: nat)
  {
    forall j :: 0 <= j < |ships| ==>
      ships[j].id in statuses && ships[j].id in initial &&
      statuses[ships[j].id] ==
        if j < i then NextReturning(initial[ships[j].id], returnAll, ships[j].position == shipyard,
                                    ships[j].halite, maxEnergy)
        else initial[ships[j].id]
  }

  /** Planning ship i updates its own entry only, which extends the prefix by one. */
  lemma StatusesAdvance(prior: map<ShipId, bool>, statuses: map<ShipId, bool>, initial: map<ShipId, bool>,
                        ships: seq<Ship>, shipyard: Position, returnAll: bool, maxEnergy: nat, i: nat)
    requires i < |ships|
    requires forall a, b :: 0 <= a < |ships| && 0 <= b < |ships| && a != b ==> ships[a].id != ships[b].id
    requires StatusesUpTo(prior, initial, ships, shipyard, returnAll, maxEnergy, i)
    requires statuses == prior[ships[i].id := NextReturning(prior[ships[i].id], returnAll,
                                                              ships[i].position == shipyard, ships[i].halite, maxEnergy)]
    ensures StatusesUpTo(statuses, initial, ships, shipyard, returnAll, maxEnergy, i + 1)
  {
  }

  /**
   The state of the per-ship loop once the first i ships of the roster are
   planned: the overlay stays on the map, the status table holds the first i
   updates, the moves follow the roster and the overlay keeps every claim.
   */
  ghost predicate Progress(gm: GameMap, occupant: map<Position, ShipId>, statuses: map<ShipId, bool>,
                           initial: map<ShipId, bool>, me: Player, k: Constants, latch: bool,
                           start: map<Position, ShipId>, moves: seq<ShipMove>, mover: seq<nat>, i: nat)
  {
    && RosterInput(gm, me, k) && i <= |me.ships|
    && (forall p :: p in occupant ==> InBounds(gm.width, gm.height, p))
    && statuses.Keys == Ids(me.ships)
    && StatusesUpTo(statuses, initial, me.ships, me.shipyard, latch, k.maxEnergy, i)
    && FollowsRoster(gm, me.ships, moves, mover, i)
    && Claims(occupant, me.ships, me.shipyard, latch, start, moves, mover)
  }

  /** Planning ship i, whether it stays or commits a move, takes the loop state from i to i + 1. */
  lemma StepKeepsProgress(gm: GameMap, before: map<Position, ShipId>, after: map<Position, ShipId>,
                          prior: map<ShipId, bool>, statuses: map<ShipId, bool>, initial: map<ShipId, bool>,
                          me: Player, k: Constants, latch: bool, start: map<Position, ShipId>,
                          moves: seq<ShipMove>, moves': seq<ShipMove>, mover: seq<nat>, mover': seq<nat>, i: nat)
    requires i < |me.ships|
    requires Progress(gm, before, prior, initial, me, k, latch, start, moves, mover, i)
    requires forall p :: p in after ==> InBounds(gm.width, gm.height, p)
    requires var ship := me.ships[i];
             && statuses == prior[ship.id := NextReturning(prior[ship.id], latch, ship.position == me.shipyard,
                                                           ship.halite, k.maxEnergy)]
             && (Unmoved(moves, moves', before, after) ||
                 (Committed(gm, before, after, ship, me.shipyard, latch, k.moveCostRatio, moves, moves') &&
                  !Exempt(latch, me.shipyard, ship.position)))
    requires mover' == if |moves'| > |moves| then mover + [i] else mover
    ensures Progress(gm, after, statuses, initial, me, k, latch, start, moves', mover', i + 1)
  {
    StatusesAdvance(prior, statuses, initial, me.ships, me.shipyard, latch, k.maxEnergy, i);
    if |moves'| > |moves| {
      CommitKeepsClaims(gm, me.ships, me.shipyard, latch, k.moveCostRatio, i, start, before, after,
                        moves, moves', mover);
    }
  }

  /**
   The per-ship record of the loop: `occs[j]` and `ms[j]` are the overlay and
   the move list just before ship j is planned, and each ship's step from
   snapshot j to snapshot j + 1 is the decision `ShipPlanned` describes.
   */
  ghost predicate PlannedUpTo(gm: GameMap, me: Player, k: Constants, latch: bool, statuses: map<ShipId, bool>,
                              occs: seq<map<Position, ShipId>>, ms: seq<seq<ShipMove>>, i: nat)
  {
    && RosterInput(gm, me, k) && i <= |me.ships| && |occs| == i + 1 && |ms| == i + 1
    && (forall j :: 0 <= j < |me.ships| ==> me.ships[j].id in statuses)
    && (forall j :: 0 <= j < i ==>
          ShipPlanned(gm, occs[j], occs[j + 1], me.ships[j], me.shipyard, latch, statuses[me.ships[j].id], k,
                      ms[j], ms[j + 1]))
  }

  /** Recording ship i's decision extends the record; the earlier ships' statuses are untouched. */
  lemma {:induction false} StepKeepsPlanned(gm: GameMap, me: Player, k: Constants, latch: bool,
                                            prior: map<ShipId, bool>, statuses: map<ShipId, bool>, returning: bool,
                                            occs: seq<map<Position, ShipId>>, ms: seq<seq<ShipMove>>,
                                            after: map<Position, ShipId>, moves': seq<ShipMove>, i: nat)
    requires i < |me.ships|
    requires PlannedUpTo(gm, me, k, latch, prior, occs, ms, i)
    requires statuses == prior[me.ships[i].id := returning]
    requires ShipPlanned(gm, occs[i], after, me.ships[i], me.shipyard, latch, returning, k, ms[i], moves')
    ensures PlannedUpTo(gm, me, k, latch, statuses, occs + [after], ms + [moves'], i + 1)
  {
    var occs', ms' := occs + [after], ms + [moves'];
    forall j | 0 <= j < i + 1
      ensures ShipPlanned(gm, occs'[j], occs'[j + 1], me.ships[j], me.shipyard, latch, statuses[me.ships[j].id], k,
                          ms'[j], ms'[j + 1])
    {
      if j < i {
        assert me.ships[j].id != me.ships[i].id;
        assert occs'[j] == occs[j] && occs'[j + 1] == occs[j + 1] && ms'[j] == ms[j] && ms'[j + 1] == ms[j + 1];
      }
    }
  }

  /** The invariant of the per-ship loop: the safety state and the per-ship record. */
  ghost predicate LoopState(gm: GameMap, occupant: map<Position, ShipId>, statuses: map<ShipId, bool>,
                            initial: map<ShipId, bool>, me: Player, k: Constants, latch: bool,
                            start: map<Position, ShipId>, moves: seq<ShipMove>, mover: seq<nat>,
                            occs: seq<map<Position, ShipId>>, ms: seq<seq<ShipMove>>, i: nat)
  {
    && Progress(gm, occupant, statuses, initial, me, k, latch, start, moves, mover, i)
    && PlannedUpTo(gm, me, k, latch, statuses, occs, ms, i)
    && occs[0] == start && occs[i] == occupant && ms[0] == [] && ms[i] == moves
  }

  /** Once every ship is planned, the loop state gives the whole contract of the loop. */
  lemma LoopFinished(gm: GameMap, occupant: map<Position, ShipId>, statuses: map<ShipId, bool>,
                     initial: map<ShipId, bool>, me: Player, k: Constants, latch: bool,
                     start: map<Position, ShipId>, moves: seq<ShipMove>, mover: seq<nat>,
                     occs: seq<map<Position, ShipId>>, ms: seq<seq<ShipMove>>)
    requires LoopState(gm, occupant, statuses, initial, me, k, latch, start, moves, mover, occs, ms, |me.ships|)
    ensures statuses.Keys == Ids(me.ships)
    ensures forall j :: 0 <= j < |me.ships| ==>
              me.ships[j].id in initial &&
              statuses[me.ships[j].id] ==
                NextReturning(initial[me.ships[j].id], latch, me.ships[j].position == me.shipyard,
                              me.ships[j].halite, k.maxEnergy)
    ensures FollowsRoster(gm, me.ships, moves, mover, |me.ships|)
    ensures MovesSafe(me.ships, me.shipyard, latch, start, moves, mover)
    ensures PlannedUpTo(gm, me, k, latch, statuses, occs, ms, |me.ships|)
    ensures occs[0] == start && occs[|me.ships|] == occupant && ms[0] == [] && ms[|me.ships|] == moves
  {
    ClaimsGiveSafety(gm, me.ships, me.shipyard, latch, start, occupant, moves, mover);
  }

  /**
   The process-wide state of the bot: the status table, the "return all
   ships" latch and the roster size seen on the previous turn.
   */
  class Bot {
    var statuses: map<ShipId, bool>
    var returnAllShips: bool
    var shipsCount: nat

    constructor ()
      ensures statuses == map[] && !returnAllShips && shipsCount == 0
    {
      statuses := map[];
      returnAllShips := false;
      shipsCount := 0;
    }

    /** Replaces the status table by the one rebuilt from the roster. */
    method RebuildStatuses(ships: seq<Ship>)
      modifies this`statuses
      ensures statuses == Rebuilt(old(statuses), ships)
    {
      var rebuilt: map<ShipId, bool> := map[];
      for i := 0 to |ships|
        invariant rebuilt == Rebuilt(statuses, ships[..i])
      {
        var ship := ships[i];
        if ship.id !in statuses {
          rebuilt := rebuilt[ship.id := false];
        } else {
          rebuilt := rebuilt[ship.id := statuses[ship.id]];
        }
        assert ships[..i + 1][..i] == ships[..i];
      }
      assert ships[..|ships|] == ships;
      statuses := rebuilt;
    }

    /** Marks every entry of the status table as returning (the latch's `forEach`). */
    method ReturnAll()
      modifies this`statuses
      ensures statuses.Keys == old(statuses).Keys
      ensures forall id :: id in statuses ==> statuses[id]
    {
      var pending := statuses.Keys;
      while pending != {}
        invariant pending <= statuses.Keys
        invariant statuses.Keys == old(statuses).Keys
        invariant forall id :: id in statuses && id !in pending ==> statuses[id]
        decreases pending
      {
        var id :| id in pending;
        statuses := statuses[id := true];
        pending := pending - {id};
      }
    }

    /**
     The body of the per-ship loop: the status update, then a step home, or
     a step towards the richest neighbour, or nothing.
     */
    method PlanShip(gm: GameMap, shipyard: Position, ship: Ship, k: Constants, moves: seq<ShipMove>)
        returns (moves': seq<ShipMove>)
      requires gm.Valid() && k.moveCostRatio > 0
      requires InBounds(gm.width, gm.height, shipyard) && InBounds(gm.width, gm.height, ship.position)
      requires ship.id in statuses
      modifies this`statuses, gm
      ensures gm.Valid()
      ensures statuses == old(statuses)[ship.id := NextReturning(old(statuses)[ship.id], returnAllShips,
                                                                 ship.position == shipyard, ship.halite, k.maxEnergy)]
      ensures Unmoved(moves, moves', old(gm.occupant), gm.occupant) ||
              (Committed(gm, old(gm.occupant), gm.occupant, ship, shipyard, returnAllShips, k.moveCostRatio, moves, moves')
               && !Exempt(returnAllShips, shipyard, ship.position))
      ensures ShipPlanned(gm, old(gm.occupant), gm.occupant, ship, shipyard, returnAllShips, statuses[ship.id], k,
                          moves, moves')
    {
      var atShipyard := ship.position == shipyard;
      if !returnAllShips && atShipyard {
        statuses := statuses[ship.id := false];
      }
      if !statuses[ship.id] && 10 * ship.halite > 9 * k.maxEnergy {
        statuses := statuses[ship.id := true];
      }
      if statuses[ship.id] && !atShipyard {
        moves' := PlanMove(gm, ship, shipyard, shipyard, returnAllShips, k.moveCostRatio, moves);
      } else if !returnAllShips && 20 * gm.halite[ship.position] < k.maxEnergy {
        var best := RichestCell(gm, ship.position);
        if best != ship.position {
          moves' := PlanMove(gm, ship, best, shipyard, returnAllShips, k.moveCostRatio, moves);
        } else {
          moves' := moves;
        }
      } else {
        moves' := moves;
      }
    }

    /**
     One turn (`getCommands`). Fails with NotInitialized when the map or the
     player is missing; otherwise plays the turn.
     */
    method GetCommands(gameMap: GameMap?, me: Option<Player>, turnNumber: nat, k: Constants)
        returns (r: Result<seq<Command>>)
      requires gameMap != null && me.Some? ==> TurnInput(gameMap, me.value, k)
      modifies this, gameMap
      ensures r == NotInitialized <==> gameMap == null || me.None?
      ensures r == NotInitialized ==> unchanged(this) && (gameMap != null ==> unchanged(gameMap))
      ensures old(returnAllShips) ==> returnAllShips
      ensures r.Ok? ==> shipsCount == |me.value.ships| && statuses.Keys == Ids(me.value.ships)
    {
      if gameMap == null || me.None? {
        return NotInitialized;
      }
      var commands, moves;
      ghost var mover, occs, ms, planned;
      commands, moves, mover, occs, ms, planned := PlayTurn(gameMap, me.value, turnNumber, k);
      r := Ok(commands);
    }

    /**
     The turn proper: rebuild the statuses, plan every ship in roster order,
     decide the spawn, record the roster size, update the latch, and emit the
     spawn command (if any) followed by the moves.
     */
    method PlayTurn(gm: GameMap, me: Player, turnNumber: nat, k: Constants)
        returns (commands: seq<Command>, moves: seq<ShipMove>, ghost mover: seq<nat>,
                 ghost occs: seq<map<Position, ShipId>>, ghost ms: seq<seq<ShipMove>>,
                 ghost planned: map<ShipId, bool>)
      requires TurnInput(gm, me, k)
      modifies this, gm
      ensures gm.Valid()
      // the status table
      // `planned` is the table once every ship went through the machine; the latch may then overwrite it
      ensures statuses.Keys == Ids(me.ships) && planned.Keys == Ids(me.ships)
      ensures forall j :: 0 <= j < |me.ships| ==>
                planned[me.ships[j].id] ==
                  NextReturning(Rebuilt(old(statuses), me.ships)[me.ships[j].id], old(returnAllShips),
                                me.ships[j].position == me.shipyard, me.ships[j].halite, k.maxEnergy)
      ensures returnAllShips && !old(returnAllShips) ==> forall id :: id in statuses ==> statuses[id]
      ensures !(returnAllShips && !old(returnAllShips)) ==> statuses == planned
      // the latch and the roster size
      ensures returnAllShips == (old(returnAllShips) ||
                EndgameDue(MaxDistanceToShipyard(gm.width, gm.height, me.shipyard, me.ships),
                           turnNumber, k.maxTurns, gm.width, gm.height))
      ensures shipsCount == |me.ships|
      // the moves
      ensures FollowsRoster(gm, me.ships, moves, mover, |me.ships|)
      ensures MovesSafe(me.ships, me.shipyard, old(returnAllShips), old(gm.occupant), moves, mover)
      // each ship's decision, step by step from the engine's overlay to the final one
      ensures PlannedUpTo(gm, me, k, old(returnAllShips), planned, occs, ms, |me.ships|)
      ensures occs[0] == old(gm.occupant) && occs[|me.ships|] == gm.occupant
      ensures ms[0] == [] && ms[|me.ships|] == moves
      // the command queue: an optional spawn, then one command per move
      ensures |commands| == |moves| || |commands| == |moves| + 1
      ensures var spawned := |commands| - |moves|;
              && (spawned == 1 ==> commands[0] == Spawn)
              && (forall t :: 0 <= t < |moves| ==>
                    commands[spawned + t] == MoveShip(moves[t].ship.id, moves[t].direction))
              && (spawned == 1 <==>
                    && me.halite >= k.shipCost && me.shipyard !in gm.occupant
                    && (2 * turnNumber < k.maxTurns ||
                        (!old(returnAllShips) && old(shipsCount) > |me.ships| && 10 * turnNumber >= 7 * k.maxTurns)))
    {
      ghost var latch, start, lastCount := returnAllShips, gm.occupant, shipsCount;
      RebuildStatuses(me.ships);
      ghost var rebuilt := statuses;
      assert rebuilt == Rebuilt(old(statuses), me.ships) && gm.occupant == start;
      moves, mover, occs, ms := PlanShips(gm, me, k);
      planned := statuses;
      assert returnAllShips == latch && shipsCount == lastCount;
      assert MovesSafe(me.ships, me.shipyard, latch, start, moves, mover);
      commands := CloseTurn(gm, me, turnNumber, k, moves);
    }

    /**
     The end of a turn, once every ship is planned: decide the spawn against
     the overlay as the moves left it, record the roster size, trip the latch
     when the farthest ship needs the remaining turns to get home, and queue
     the spawn ahead of the moves.
     */
    method CloseTurn(gm: GameMap, me: Player, turnNumber: nat, k: Constants, moves: seq<ShipMove>)
        returns (commands: seq<Command>)
      requires gm.HaliteTotal() && InBounds(gm.width, gm.height, me.shipyard)
      requires forall i :: 0 <= i < |me.ships| ==> InBounds(gm.width, gm.height, me.ships[i].position)
      modifies this
      ensures statuses.Keys == old(statuses).Keys
      ensures returnAllShips && !old(returnAllShips) ==> forall id :: id in statuses ==> statuses[id]
      ensures !(returnAllShips && !old(returnAllShips)) ==> statuses == old(statuses)
      ensures returnAllShips == (old(returnAllShips) ||
                EndgameDue(MaxDistanceToShipyard(gm.width, gm.height, me.shipyard, me.ships),
                           turnNumber, k.maxTurns, gm.width, gm.height))
      ensures shipsCount == |me.ships|
      ensures |commands| == |moves| || |commands| == |moves| + 1
      ensures var spawned := |commands| - |moves|;
              && (spawned == 1 ==> commands[0] == Spawn)
              && (forall t :: 0 <= t < |moves| ==>
                    commands[spawned + t] == MoveShip(moves[t].ship.id, moves[t].direction))
              && (spawned == 1 <==>
                    && me.halite >= k.shipCost && me.shipyard !in gm.occupant
                    && (2 * turnNumber < k.maxTurns ||
                        (!old(returnAllShips) && old(shipsCount) > |me.ships| && 10 * turnNumber >= 7 * k.maxTurns)))
    {
      var queue := SpawnCommands(gm.IsOccupied(me.shipyard), me.halite, turnNumber, returnAllShips,
                                 shipsCount, |me.ships|, k);
      shipsCount := |me.ships|;
      var maxDistance := MaxDistanceToShipyard(gm.width, gm.height, me.shipyard, me.ships);
      if !returnAllShips && EndgameDue(maxDistance, turnNumber, k.maxTurns, gm.width, gm.height) {
        returnAllShips := true;
        ReturnAll();
      }
      commands := AppendMoveCommands(queue, moves);
    }

    /** The per-ship loop: every ship of the roster, in order, through PlanShip. */
    method PlanShips(gm: GameMap, me: Player, k: Constants)
        returns (moves: seq<ShipMove>, ghost mover: seq<nat>, ghost occs: seq<map<Position, ShipId>>,
                 ghost ms: seq<seq<ShipMove>>)
      requires TurnInput(gm, me, k)
      requires statuses.Keys == Ids(me.ships)
      modifies this`statuses, gm
      ensures gm.Valid()
      ensures statuses.Keys == Ids(me.ships)
      ensures forall j :: 0 <= j < |me.ships| ==>
                statuses[me.ships[j].id] ==
                  NextReturning(old(statuses)[me.ships[j].id], returnAllShips, me.ships[j].position == me.shipyard,
                                me.ships[j].halite, k.maxEnergy)
      ensures FollowsRoster(gm, me.ships, moves, mover, |me.ships|)
      ensures MovesSafe(me.ships, me.shipyard, returnAllShips, old(gm.occupant), moves, mover)
      // ship j took the overlay from occs[j] to occs[j + 1] and the moves from ms[j] to ms[j + 1]
      ensures PlannedUpTo(gm, me, k, returnAllShips, statuses, occs, ms, |me.ships|)
      ensures occs[0] == old(gm.occupant) && occs[|me.ships|] == gm.occupant
      ensures ms[0] == [] && ms[|me.ships|] == moves
    {
      ghost var start := gm.occupant;
      moves := [];
      mover := [];
      occs, ms := [start], [[]];
      ClaimsAtStart(gm, me, k, returnAllShips);
      assert forall j :: 0 <= j < |me.ships| ==> me.ships[j].id in Ids(me.ships);
      for i := 0 to |me.ships|
        invariant LoopState(gm, gm.occupant, statuses, old(statuses), me, k, returnAllShips, start, moves, mover,
                            occs, ms, i)
      {
        moves, mover := PlanStep(gm, me, k, i, moves, mover, start, old(statuses), occs, ms);
        occs, ms := occs + [gm.occupant], ms + [moves];
      }
      LoopFinished(gm, gm.occupant, statuses, old(statuses), me, k, returnAllShips, start, moves, mover, occs, ms);
    }

    /** One iteration of the per-ship loop: plan ship i and carry the loop state forward. */
    method PlanStep(gm: GameMap, me: Player, k: Constants, i: nat, moves: seq<ShipMove>, ghost mover: seq<nat>,
                    ghost start: map<Position, ShipId>, ghost initial: map<ShipId, bool>,
                    ghost occs: seq<map<Position, ShipId>>, ghost ms: seq<seq<ShipMove>>)
        returns (moves': seq<ShipMove>, ghost mover': seq<nat>)
      requires i < |me.ships|
      requires LoopState(gm, gm.occupant, statuses, initial, me, k, returnAllShips, start, moves, mover, occs, ms, i)
      modifies this`statuses, gm
      ensures LoopState(gm, gm.occupant, statuses, initial, me, k, returnAllShips, start, moves', mover',
                        occs + [gm.occupant], ms + [moves'], i + 1)
    {
      ghost var before, prior := gm.occupant, statuses;
      assert me.ships[i].id in Ids(me.ships);
      moves' := PlanShip(gm, me.shipyard, me.ships[i], k, moves);
      mover' := if |moves'| > |moves| then mover + [i] else mover;
      StepKeepsProgress(gm, before, gm.occupant, prior, statuses, initial, me, k, returnAllShips, start,
                        moves, moves', mover, mover', i);
      StepKeepsPlanned(gm, me, k, returnAllShips, prior, statuses, statuses[me.ships[i].id], occs, ms,
                       gm.occupant, moves', i);
    }
  }
}
