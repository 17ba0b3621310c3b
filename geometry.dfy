/**
 Positions, directions and distances on the toroidal game map.

 These stand in for the positional and map primitives of the game library that
 the bot imports (`directionalOffset`, `getAllCardinals`, `calculateDistance`,
 `getUnsafeMoves`). That library is not part of this model, so only its
 observable contract is given here: a one-cell step, wrapped back onto the map,
 distance is the wrap-aware Manhattan distance, and the "unsafe moves" towards a
 destination are the at most two cardinal steps that bring a unit one cell closer.
 Every position handled here is normalised: 0 <= x < width, 0 <= y < height.
 */
module Geometry {

  datatype Direction = North | South | East | West | Still

  datatype Position = Position(x: int, y: int)

  /** The four moving directions, in the library's order. */
  function AllCardinals(): (r: seq<Direction>)
    ensures |r| == 4 && Still !in r
  {
    [North, South, East, West]
  }

  /** Every direction other than Still is one of the cardinals. */
  lemma CardinalsComplete(d: Direction)
    requires d != Still
    ensures d in AllCardinals()
  {
  }

  predicate InBounds(width: int, height: int, p: Position)
  {
    0 <= p.x < width && 0 <= p.y < height
  }

  /**
   The library's one-cell step (`directionalOffset`): it moves the coordinates
   and does not wrap them, so a step off an edge leaves the map (y grows southwards).
   */
  function RawOffset(p: Position, d: Direction): Position
  {
    match d
    case North => Position(p.x, p.y - 1)
    case South => Position(p.x, p.y + 1)
    case East => Position(p.x + 1, p.y)
    case West => Position(p.x - 1, p.y)
    case Still => p
  }

  /**
   The cell a one-cell step reaches: the library's step wrapped back onto the
   map, as the map does when it looks a position up.
   */
  function Offset(width: nat, height: nat, p: Position, d: Direction): (q: Position)
    requires InBounds(width, height, p)
    ensures InBounds(width, height, q)
    ensures q == Position(RawOffset(p, d).x % width, RawOffset(p, d).y % height)
    ensures InBounds(width, height, RawOffset(p, d)) ==> q == RawOffset(p, d)
    ensures d == Still ==> q == p
    ensures d in {East, West} ==> q.y == p.y && (width >= 2 ==> q.x != p.x)
    ensures d in {North, South} ==> q.x == p.x && (height >= 2 ==> q.y != p.y)
  {
    WrapStep(p.x, width);
    WrapStep(p.y, height);
    match d
    case North => Position(p.x, if p.y == 0 then height - 1 else p.y - 1)
    case South => Position(p.x, if p.y == height - 1 then 0 else p.y + 1)
    case East => Position(if p.x == width - 1 then 0 else p.x + 1, p.y)
    case West => Position(if p.x == 0 then width - 1 else p.x - 1, p.y)
    case Still => p
  }

  /** Wrapping a coordinate one past either end of an axis of length n brings it to the other end. */
  lemma WrapStep(a: int, n: nat)
    requires 0 <= a < n
    ensures (a + 1) % n == if a == n - 1 then 0 else a + 1
    ensures (a - 1) % n == if a == 0 then n - 1 else a - 1
    ensures a % n == a
  {
    if a == n - 1 {
      assert a + 1 == 1 * n + 0;
    }
    if a == 0 {
      assert a - 1 == (-1) * n + (n - 1);
    }
  }

  /** Distance along one axis of length n, going the shorter way round. */
  function AxisDistance(a: int, b: int, n: nat): (r: nat)
    requires 0 <= a < n && 0 <= b < n
    ensures 2 * r <= n
    ensures r == 0 <==> a == b
  {
    var delta := if a <= b then b - a else a - b;
    if delta <= n - delta then delta else n - delta
  }

  /** Wrap-aware Manhattan distance between two cells (`calculateDistance`). */
  function Distance(width: nat, height: nat, p: Position, q: Position): (r: nat)
    requires InBounds(width, height, p) && InBounds(width, height, q)
    ensures r == 0 <==> p == q
    ensures 2 * r <= width + height
  {
    AxisDistance(p.x, q.x, width) + AxisDistance(p.y, q.y, height)
  }

  /** On a map at least two cells wide and high, a step in a moving direction reaches an adjacent cell. */
  lemma OffsetAdjacent(width: nat, height: nat, p: Position, d: Direction)
    requires InBounds(width, height, p) && width >= 2 && height >= 2 && d != Still
    ensures Distance(width, height, p, Offset(width, height, p, d)) == 1
  {
  }

  /** Whether the step along one axis of length n that leads from a to b the
      shorter way round is the increasing one. Exactly half way round, the step
      goes against the sign of b - a. */
  predicate StepsUp(a: int, b: int, n: nat)
  {
    var delta := if a <= b then b - a else a - b;
    (b > a) == (2 * delta < n)
  }

  /**
   The directions that take `src` one step closer to `dst` (`getUnsafeMoves`):
   one per axis on which the two differ.
   */
  function UnsafeMoves(width: nat, height: nat, src: Position, dst: Position): (r: seq<Direction>)
    requires InBounds(width, height, src) && InBounds(width, height, dst)
    ensures |r| <= 2 && Still !in r
    ensures r == [] <==> src == dst
  {
    var xs := if src.x == dst.x then [] else [if StepsUp(src.x, dst.x, width) then East else West];
    var ys := if src.y == dst.y then [] else [if StepsUp(src.y, dst.y, height) then South else North];
    xs + ys
  }

  /** Each of the unsafe moves brings the unit exactly one step closer to its destination. */
  lemma UnsafeMovesCloser(width: nat, height: nat, src: Position, dst: Position, d: Direction)
    requires InBounds(width, height, src) && InBounds(width, height, dst)
    requires d in UnsafeMoves(width, height, src, dst)
    ensures Distance(width, height, Offset(width, height, src, d), dst) + 1 == Distance(width, height, src, dst)
  {
  }
}
