/** `util.Grid[T]`: a width-by-height grid stored row-major in a slice that
    may be shorter than width*height while it is being filled. */
module GenericGrid {
  import opened Wrappers
  import Ints

  datatype Grid<T> = Grid(width: int, height: int, points: seq<T>)

  const OutOfBounds: string := "coordinates out of bounds"
  const AlreadyOccupied: string := "coordinates already occupied"

  predicate InBounds<T>(g: Grid<T>, x: int, y: int) {
    0 <= x < g.width && 0 <= y < g.height
  }

  /** The row-major slice position of (x, y). */
  function Offset<T>(g: Grid<T>, x: int, y: int): int {
    y * g.width + x
  }

  /** Whole rows are `w` slots apart. */
  lemma {:induction false} RowStep(a: int, b: int, w: int)
    requires a < b && w > 0
    ensures a * w + w <= b * w
    decreases b - a
  {
    assert b * w == (b - 1) * w + w;
    if a < b - 1 {
      RowStep(a, b - 1, w);
    }
  }

  /** Distinct in-bounds cells have distinct offsets, each at least zero. */
  lemma OffsetInjective<T>(g: Grid<T>, x1: int, y1: int, x2: int, y2: int)
    requires InBounds(g, x1, y1) && InBounds(g, x2, y2)
    ensures Offset(g, x1, y1) >= 0
    ensures Offset(g, x1, y1) == Offset(g, x2, y2) ==> x1 == x2 && y1 == y2
  {
    assert y1 * g.width >= 0;
    if y1 < y2 {
      RowStep(y1, y2, g.width);
    } else if y2 < y1 {
      RowStep(y2, y1, g.width);
    }
  }

  /** `At`: the value at (x, y), or `None` (Go's nil) out of bounds or
      beyond the filled part of the slice. */
  function At<T>(g: Grid<T>, x: int, y: int): (r: Option<T>)
    ensures r.Some? <==> InBounds(g, x, y) && Offset(g, x, y) < |g.points|
    ensures r.Some? ==> 0 <= Offset(g, x, y) && r.value == g.points[Offset(g, x, y)]
  {
    if !InBounds(g, x, y) then None
    else
      OffsetInjective(g, x, y, x, y);
      var index := Offset(g, x, y);
      if index < 0 || index >= |g.points| then None else Some(g.points[index])
  }

  /** `Set`: overwrites the value at (x, y); fails with the out-of-bounds
      error, leaving the grid as it was, wherever `At` is nil. */
  function Set<T>(g: Grid<T>, x: int, y: int, val: T): (r: Result<Grid<T>, string>)
    ensures r.Failure? <==> At(g, x, y).None?
    ensures r.Failure? ==> r.error == OutOfBounds
    ensures r.Success? ==> r.value.width == g.width && r.value.height == g.height
    ensures r.Success? ==> |r.value.points| == |g.points|
    ensures r.Success? ==> At(r.value, x, y) == Some(val)
    ensures r.Success? ==> forall i :: 0 <= i < |g.points| && i != Offset(g, x, y) ==>
                             r.value.points[i] == g.points[i]
  {
    if !InBounds(g, x, y) then Failure(OutOfBounds)
    else
      OffsetInjective(g, x, y, x, y);
      var index := Offset(g, x, y);
      if index < 0 || index >= |g.points| then Failure(OutOfBounds)
      else Success(g.(points := g.points[index := val]))
  }

  /** A successful `Set` changes what `At` reports for that cell only. */
  lemma SetChangesOneCell<T>(g: Grid<T>, x: int, y: int, val: T, x2: int, y2: int)
    requires Set(g, x, y, val).Success?
    requires x2 != x || y2 != y
    ensures At(Set(g, x, y, val).value, x2, y2) == At(g, x2, y2)
  {
    if InBounds(g, x2, y2) {
      OffsetInjective(g, x, y, x2, y2);
    }
  }

  /** `AddPoint`: appends `val` as the next point of the slice when (x, y) is
      in bounds and its offset is not yet filled; the value goes at the END
      of the slice, whatever the offset. */
  function AddPoint<T>(g: Grid<T>, x: int, y: int, val: T): (r: Result<Grid<T>, string>)
    ensures !InBounds(g, x, y) ==> r == Failure(OutOfBounds)
    ensures InBounds(g, x, y) && Offset(g, x, y) >= |g.points| ==>
              r.Success? && r.value.width == g.width && r.value.height == g.height
              && |r.value.points| == |g.points| + 1
              && r.value.points[..|g.points|] == g.points
              && r.value.points[|g.points|] == val
    ensures InBounds(g, x, y) && Offset(g, x, y) < |g.points| ==> r == Failure(AlreadyOccupied)
  {
    if !InBounds(g, x, y) then Failure(OutOfBounds)
    else if Offset(g, x, y) >= |g.points| then Success(g.(points := g.points + [val]))
    else Failure(AlreadyOccupied)
  }

  /** Filling the grid in row-major order makes each added value readable
      at the cell it was added for. */
  lemma AddPointInOrder<T>(g: Grid<T>, x: int, y: int, val: T)
    requires InBounds(g, x, y) && Offset(g, x, y) == |g.points|
    ensures AddPoint(g, x, y, val).Success?
    ensures At(AddPoint(g, x, y, val).value, x, y) == Some(val)
  {
  }

  /** The four orthogonal neighbours, each nil when out of bounds. */
  datatype Around<T> = Around(north: Option<T>, south: Option<T>, east: Option<T>, west: Option<T>)

  function Neighbors<T>(g: Grid<T>, x: int, y: int): (n: Around<T>)
    ensures n.north == At(g, x, y - 1) && n.south == At(g, x, y + 1)
    ensures n.east == At(g, x + 1, y) && n.west == At(g, x - 1, y)
  {
    Around(At(g, x, y - 1), At(g, x, y + 1), At(g, x + 1, y), At(g, x - 1, y))
  }

  /** A cell on the top row has no northern neighbour, one on the left
      column no western one, and so on. */
  lemma NeighborsAtEdges<T>(g: Grid<T>, x: int, y: int)
    ensures y == 0 ==> Neighbors(g, x, y).north.None?
    ensures y == g.height - 1 ==> Neighbors(g, x, y).south.None?
    ensures x == g.width - 1 ==> Neighbors(g, x, y).east.None?
    ensures x == 0 ==> Neighbors(g, x, y).west.None?
  {
  }

  function ManhattanDistance<T>(g: Grid<T>, x1: int, y1: int, x2: int, y2: int): (d: nat)
    ensures d == 0 <==> x1 == x2 && y1 == y2
    ensures d >= Ints.Abs(x1 - x2) && d >= Ints.Abs(y1 - y2)
  {
    Ints.Abs(x1 - x2) + Ints.Abs(y1 - y2)
  }

  /** The distance is symmetric and obeys the triangle inequality. */
  lemma ManhattanMetric<T>(g: Grid<T>, x1: int, y1: int, x2: int, y2: int, x3: int, y3: int)
    ensures ManhattanDistance(g, x1, y1, x2, y2) == ManhattanDistance(g, x2, y2, x1, y1)
    ensures ManhattanDistance(g, x1, y1, x3, y3)
            <= ManhattanDistance(g, x1, y1, x2, y2) + ManhattanDistance(g, x2, y2, x3, y3)
  {
  }
}
