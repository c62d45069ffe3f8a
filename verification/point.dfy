/** `util.Point[T]`: an integer position carrying a value, with vector
    arithmetic. Go builds new points with a zero `Val`; `zero` stands for
    Go's zero value of `T`. */
module Points {
  import Ints
  import GenericGrid

  datatype Point<T> = Point(x: int, y: int, val: T)

  function ManhattanDistance<T>(p0: Point<T>, p1: Point<T>): (d: nat)
    ensures d == 0 <==> p0.x == p1.x && p0.y == p1.y
    ensures d >= Ints.Abs(p0.x - p1.x) && d >= Ints.Abs(p0.y - p1.y)
  {
    Ints.Abs(p0.y - p1.y) + Ints.Abs(p0.x - p1.x)
  }

  /** The distance ignores the carried values and is symmetric. */
  lemma ManhattanSymmetric<T>(p0: Point<T>, p1: Point<T>)
    ensures ManhattanDistance(p0, p1) == ManhattanDistance(p1, p0)
  {
  }

  datatype Directions<T> = Directions(north: Point<T>, south: Point<T>, east: Point<T>, west: Point<T>)

  /** The four unit steps; north is up (negative y). */
  function Neighbors<T>(zero: T): (d: Directions<T>)
    ensures d.west.x == -d.east.x && d.west.y == -d.east.y
    ensures d.north.x == -d.south.x && d.north.y == -d.south.y
    ensures d.north.y < 0 && d.east.x > 0
    ensures var o := Point(0, 0, zero);
            ManhattanDistance(o, d.north) == 1 && ManhattanDistance(o, d.south) == 1
            && ManhattanDistance(o, d.east) == 1 && ManhattanDistance(o, d.west) == 1
  {
    Directions(Point(0, -1, zero), Point(0, 1, zero), Point(1, 0, zero), Point(-1, 0, zero))
  }

  function Add<T>(p: Point<T>, other: Point<T>, zero: T): (r: Point<T>)
    ensures r.val == zero
    ensures ManhattanDistance(r, p) == Ints.Abs(other.x) + Ints.Abs(other.y)
  {
    Point(p.x + other.x, p.y + other.y, zero)
  }

  function Sub<T>(p: Point<T>, other: Point<T>, zero: T): (r: Point<T>)
    ensures r.val == zero
    ensures ManhattanDistance(r, p) == Ints.Abs(other.x) + Ints.Abs(other.y)
  {
    Point(p.x - other.x, p.y - other.y, zero)
  }

  /** `Sub` undoes `Add` on the coordinates. */
  lemma SubUndoesAdd<T>(p: Point<T>, q: Point<T>, zero: T)
    ensures Sub(Add(p, q, zero), q, zero).x == p.x
    ensures Sub(Add(p, q, zero), q, zero).y == p.y
    ensures Add(Sub(p, q, zero), q, zero) == Point(p.x, p.y, zero)
  {
  }

  /** `In`: the point lies on the grid, the same test `Grid.At` makes. */
  function In<T, U>(p: Point<T>, g: GenericGrid.Grid<U>): (b: bool)
    ensures b <==> GenericGrid.InBounds(g, p.x, p.y)
  {
    p.x > -1 && p.y > -1 && p.x < g.width && p.y < g.height
  }
}
