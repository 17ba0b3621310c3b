/**
 The game entities the bot reads each turn, and the grid whose occupancy the
 bot overwrites while it plans its moves.

 The game library builds these from the engine's frame; here they are plain
 values, except the grid, whose cells' `ship` slots the bot assigns in place.
 */
module Entities {
  import opened Geometry

  type ShipId = nat

  /** One of the bot's own ships: its identity, cell and cargo. */
  datatype Ship = Ship(id: ShipId, position: Position, halite: nat)

  /** The bot's own player: stored halite, shipyard cell and live roster. */
  datatype Player = Player(halite: nat, shipyard: Position, ships: seq<Ship>)

  /** The game constants the engine sends at start-up. */
  datatype Constants = Constants(maxEnergy: nat, maxTurns: nat, moveCostRatio: nat, shipCost: nat)

  /** A move the bot has committed to this turn. */
  datatype ShipMove = ShipMove(ship: Ship, direction: Direction, from: Position, to: Position)

  /** The commands sent back to the engine, as opaque tokens. */
  datatype Command = Spawn | MoveShip(id: ShipId, direction: Direction)

  datatype Option<T> = None | Some(value: T)

  /** What a turn yields: the command queue, or the fatal "not initialized" signal. */
  datatype Result<T> = Ok(value: T) | NotInitialized

  /**
   The map of the current frame. The halite of every cell is fixed for the
   turn; `occupant` holds, for every occupied cell, the ship that the bot
   currently believes to be there (any player's ship). The bot writes to it as
   it commits moves, so that later ships see the cells claimed earlier.
   */
  class GameMap {
    const width: nat
    const height: nat
    const halite: map<Position, nat>
    var occupant: map<Position, ShipId>

    /** The halite of every cell of the map is known. */
    ghost predicate HaliteTotal()
    {
      && width > 0 && height > 0
      && (forall p :: p in halite <==> InBounds(width, height, p))
    }

    ghost predicate Valid()
      reads this
    {
      && HaliteTotal()
      && (forall p :: p in occupant ==> InBounds(width, height, p))
    }

    constructor (width: nat, height: nat, halite: map<Position, nat>, occupant: map<Position, ShipId>)
      requires width > 0 && height > 0
      requires forall p :: p in halite <==> InBounds(width, height, p)
      requires forall p :: p in occupant ==> InBounds(width, height, p)
      ensures Valid()
      ensures this.width == width && this.height == height
      ensures this.halite == halite && this.occupant == occupant
    {
      this.width := width;
      this.height := height;
      this.halite := halite;
      this.occupant := occupant;
    }

    predicate IsOccupied(p: Position)
      reads this
    {
      p in occupant
    }

    /** Puts a ship into the cell at p (`gameMap.get(p).ship = ship`). */
    method SetShip(p: Position, id: ShipId)
      requires Valid() && InBounds(width, height, p)
      modifies this
      ensures Valid()
      ensures occupant == old(occupant)[p := id]
    {
      occupant := occupant[p := id];
    }

    /** Empties the cell at p (`gameMap.get(p).ship = null`). */
    method ClearShip(p: Position)
      requires Valid()
      modifies this
      ensures Valid()
      ensures occupant == old(occupant) - {p}
    {
      occupant := occupant - {p};
    }
  }
}
