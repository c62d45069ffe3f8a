/** `util.Coordinate` and the two standard movement sets. */
module Coordinates {
  import Ints

  datatype Coordinate = Coordinate(x: int, y: int)

  function Add(c: Coordinate, other: Coordinate): (r: Coordinate)
    ensures ManhattanDistance(r, c) == Ints.Abs(other.x) + Ints.Abs(other.y)
  {
    Coordinate(c.x + other.x, c.y + other.y)
  }

  function ManhattanDistance(c: Coordinate, other: Coordinate): (d: nat)
    ensures d == 0 <==> c == other
  {
    Ints.Abs(c.x - other.x) + Ints.Abs(c.y - other.y)
  }

  /** The distance is symmetric and obeys the triangle inequality. */
  lemma ManhattanMetric(a: Coordinate, b: Coordinate, c: Coordinate)
    ensures ManhattanDistance(a, b) == ManhattanDistance(b, a)
    ensures ManhattanDistance(a, c) <= ManhattanDistance(a, b) + ManhattanDistance(b, c)
  {
  }

  const Origin: Coordinate := Coordinate(0, 0)

  /** North, east, south, west; north is up (negative y). */
  const Directions4: seq<Coordinate> :=
    [Coordinate(0, -1), Coordinate(1, 0), Coordinate(0, 1), Coordinate(-1, 0)]

  /** The eight king moves, clockwise from north. */
  const Directions8: seq<Coordinate> :=
    [Coordinate(0, -1), Coordinate(1, -1), Coordinate(1, 0), Coordinate(1, 1),
     Coordinate(0, 1), Coordinate(-1, 1), Coordinate(-1, 0), Coordinate(-1, -1)]

  /** The four directions are the distinct unit steps, and the eight are the
      distinct non-zero steps of at most one in each axis, a superset. */
  lemma DirectionSets()
    ensures |Directions4| == 4
    ensures forall d :: d in Directions4 <==> ManhattanDistance(d, Origin) == 1
    ensures |Directions8| == 8
    ensures forall d :: d in Directions8 <==>
              d != Origin && -1 <= d.x <= 1 && -1 <= d.y <= 1
    ensures forall i, j :: 0 <= i < j < |Directions8| ==> Directions8[i] != Directions8[j]
    ensures forall d :: d in Directions4 ==> d in Directions8
  {
    forall d | ManhattanDistance(d, Origin) == 1
      ensures d in Directions4
    {
      if d.x == 0 {
        assert d == Coordinate(0, -1) || d == Coordinate(0, 1);
      } else {
        assert d == Coordinate(1, 0) || d == Coordinate(-1, 0);
      }
    }
    forall d | d != Origin && -1 <= d.x <= 1 && -1 <= d.y <= 1
      ensures d in Directions8
    {
      assert d == Coordinate(d.x, d.y);
    }
  }
}
