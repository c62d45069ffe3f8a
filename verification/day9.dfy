/** Day 9: red tiles at integer points. Part 1 finds the largest rectangle
    with two red tiles as opposite corners; part 2 keeps only rectangles
    with no tile of the red-green loop strictly inside.

    Go computes the side lengths through `math.Abs` on `float64` and
    truncates the product back to `int`; the model uses exact integers,
    which agree with Go while every side and area stays within 2^53. */
module Day9 {
  import opened Wrappers
  import opened Ints
  import opened Strings

  datatype Point = Point(x: int, y: int)

  // ---- parsing ----

  /** A line "x,y"; Go panics on fewer than two fields or a bad number. */
  function ParsePoint(line: string): Option<Point> {
    var parts := Split(line, ',');
    if |parts| < 2 then None
    else
      var x :- Atoi(parts[0]);
      var y :- Atoi(parts[1]);
      Some(Point(x, y))
  }

  function PointText(p: Point): string {
    Itoa(p.x) + "," + Itoa(p.y)
  }

  /** A point reads back from its text. */
  lemma ParsePointText(p: Point)
    requires InIntRange(p.x) && InIntRange(p.y)
    ensures ParsePoint(PointText(p)) == Some(p)
  {
    var a, b := Itoa(p.x), Itoa(p.y);
    ItoaLacks(p.x, ',');
    ItoaLacks(p.y, ',');
    assert Join([a, b], ',') == PointText(p);
    SplitJoin([a, b], ',');
    AtoiItoa(p.x);
    AtoiItoa(p.y);
  }

  function ParsePoints(lines: seq<string>): Option<seq<Point>> {
    AllSome(ParsePoint, lines)
  }

  // ---- rectangles ----

  /** `v` lies strictly between `a` and `b`, in whichever order they are. */
  predicate StrictlyBetween(v: int, a: int, b: int) {
    (a < v < b) || (b < v < a)
  }

  /** `isIn`: `p` is strictly inside the rectangle with corners `c1` and
      `c2`; a point on an edge is not inside. */
  predicate IsIn(p: Point, c1: Point, c2: Point) {
    var minX, maxX := Min(c1.x, c2.x), Max(c1.x, c2.x);
    var minY, maxY := Min(c1.y, c2.y), Max(c1.y, c2.y);
    p.x > minX && p.x < maxX && p.y > minY && p.y < maxY
  }

  /** Inside means strictly between the corners on both axes; so the order
      of the corners does not matter, and the boundary is outside. */
  lemma IsInMeaning(p: Point, c1: Point, c2: Point)
    ensures IsIn(p, c1, c2) <==> StrictlyBetween(p.x, c1.x, c2.x) && StrictlyBetween(p.y, c1.y, c2.y)
    ensures IsIn(p, c1, c2) <==> IsIn(p, c2, c1)
    ensures p.x == c1.x || p.x == c2.x || p.y == c1.y || p.y == c2.y ==> !IsIn(p, c1, c2)
  {
  }

  /** The number of tiles of the rectangle with corners `a` and `b`. */
  function Area(a: Point, b: Point): (r: int)
    ensures r >= 1
  {
    (Abs(a.x - b.x) + 1) * (Abs(a.y - b.y) + 1)
  }

  /** The area does not depend on which corner comes first, and a
      rectangle with two different corners covers at least two tiles. */
  lemma AreaFacts(a: Point, b: Point)
    ensures Area(a, b) == Area(b, a)
    ensures a != b ==> Area(a, b) >= 2
  {
    if a != b {
      if a.x != b.x {
        assert Abs(a.x - b.x) + 1 >= 2;
      } else {
        assert Abs(a.y - b.y) + 1 >= 2;
      }
    }
  }

  // ---- the loop of edges ----

  /** The tiles `(x, y)` for `y` from `lo` up to, not including, `hi`. */
  function Column(x: int, lo: int, hi: int): (r: seq<Point>)
    ensures |r| == Max(hi - lo, 0)
    ensures forall k :: 0 <= k < |r| ==> r[k] == Point(x, lo + k)
    decreases hi - lo
  {
    if lo >= hi then [] else Column(x, lo, hi - 1) + [Point(x, hi - 1)]
  }

  /** The tiles `(x, y)` for `x` from `lo` up to, not including, `hi`. */
  function Row(y: int, lo: int, hi: int): (r: seq<Point>)
    ensures |r| == Max(hi - lo, 0)
    ensures forall k :: 0 <= k < |r| ==> r[k] == Point(lo + k, y)
    decreases hi - lo
  {
    if lo >= hi then [] else Row(y, lo, hi - 1) + [Point(hi - 1, y)]
  }

  /** `getEdgePoints`: the tiles of a vertical or horizontal segment from its
      lower end up to, not including, its upper end; nothing for a segment
      that is neither. */
  function EdgePoints(a: Point, b: Point): seq<Point> {
    if a.x == b.x then Column(a.x, Min(a.y, b.y), Max(a.y, b.y))
    else if a.y == b.y then Row(a.y, Min(a.x, b.x), Max(a.x, b.x))
    else []
  }

  /** `p` is a tile of the half-open axis-parallel segment from `a` to `b`. */
  predicate OnSegment(p: Point, a: Point, b: Point) {
    || (a.x == b.x && p.x == a.x && (a.y <= p.y < b.y || b.y <= p.y < a.y))
    || (a.x != b.x && a.y == b.y && p.y == a.y && (a.x <= p.x < b.x || b.x <= p.x < a.x))
  }

  lemma EdgePointsMeaning(a: Point, b: Point)
    ensures forall p :: p in EdgePoints(a, b) <==> OnSegment(p, a, b)
    ensures |EdgePoints(a, b)| == if a.x == b.x then Abs(a.y - b.y)
                                  else if a.y == b.y then Abs(a.x - b.x)
                                  else 0
    ensures EdgePoints(a, b) == EdgePoints(b, a)
  {
    var e := EdgePoints(a, b);
    forall p | OnSegment(p, a, b)
      ensures p in e
    {
      if a.x == b.x {
        assert e[p.y - Min(a.y, b.y)] == p;
      } else {
        assert e[p.x - Min(a.x, b.x)] == p;
      }
    }
  }

  /** The segments between consecutive points, in order. */
  function Path(points: seq<Point>): seq<Point>
    decreases |points|
  {
    if |points| <= 1 then []
    else Path(points[..|points| - 1]) + EdgePoints(points[|points| - 2], points[|points| - 1])
  }

  /** `collectAllEdgePoints`: the segments between consecutive points, then
      the one closing the loop from the last point to the first. Go indexes
      the last point, so there must be one. */
  function CollectEdgePoints(points: seq<Point>): seq<Point>
    requires |points| >= 1
  {
    Path(points) + EdgePoints(points[|points| - 1], points[0])
  }

  lemma {:induction false} PathMeaning(points: seq<Point>)
    ensures forall p :: p in Path(points) <==>
              exists i :: 0 <= i < |points| - 1 && OnSegment(p, points[i], points[i + 1])
    decreases |points|
  {
    if |points| > 1 {
      var init := points[..|points| - 1];
      var n := |points|;
      PathMeaning(init);
      EdgePointsMeaning(points[n - 2], points[n - 1]);
      forall p
        ensures p in Path(points) <==> exists i :: 0 <= i < n - 1 && OnSegment(p, points[i], points[i + 1])
      {
        if p in Path(points) {
          if p in Path(init) {
            var i :| 0 <= i < |init| - 1 && OnSegment(p, init[i], init[i + 1]);
            assert OnSegment(p, points[i], points[i + 1]);
          } else {
            assert OnSegment(p, points[n - 2], points[n - 1]);
          }
        }
        if exists i :: 0 <= i < n - 1 && OnSegment(p, points[i], points[i + 1]) {
          var i :| 0 <= i < n - 1 && OnSegment(p, points[i], points[i + 1]);
          if i < n - 2 {
            assert OnSegment(p, init[i], init[i + 1]);
          }
        }
      }
    }
  }

  /** The point after the `i`-th one around the loop. */
  function Following(points: seq<Point>, i: nat): Point
    requires i < |points|
  {
    if i + 1 < |points| then points[i + 1] else points[0]
  }

  /** `p` is a tile of one of the loop's segments. */
  predicate OnLoop(p: Point, points: seq<Point>) {
    exists i :: 0 <= i < |points| && OnSegment(p, points[i], Following(points, i))
  }

  /** The edge tiles are exactly the tiles of the segments joining each
      point to the next, the last one to the first. */
  lemma CollectEdgePointsMeaning(points: seq<Point>)
    requires |points| >= 1
    ensures forall p :: p in CollectEdgePoints(points) <==> OnLoop(p, points)
  {
    forall p
      ensures p in CollectEdgePoints(points) <==> OnLoop(p, points)
    {
      if p in CollectEdgePoints(points) {
        EdgeOnLoop(points, p);
      }
      if OnLoop(p, points) {
        LoopOnEdge(points, p);
      }
    }
  }

  lemma EdgeOnLoop(points: seq<Point>, p: Point)
    requires |points| >= 1 && p in CollectEdgePoints(points)
    ensures OnLoop(p, points)
  {
    var n := |points|;
    if p in Path(points) {
      PathMeaning(points);
      var i :| 0 <= i < n - 1 && OnSegment(p, points[i], points[i + 1]);
      assert OnSegment(p, points[i], Following(points, i));
    } else {
      EdgePointsMeaning(points[n - 1], points[0]);
      assert OnSegment(p, points[n - 1], Following(points, n - 1));
    }
  }

  lemma LoopOnEdge(points: seq<Point>, p: Point)
    requires |points| >= 1 && OnLoop(p, points)
    ensures p in CollectEdgePoints(points)
  {
    var n := |points|;
    var path, closing := Path(points), EdgePoints(points[n - 1], points[0]);
    assert CollectEdgePoints(points) == path + closing;
    var i :| 0 <= i < n && OnSegment(p, points[i], Following(points, i));
    if i < n - 1 {
      assert p in path by {
        assert Following(points, i) == points[i + 1];
        PathMeaning(points);
      }
    } else {
      assert p in closing by {
        assert Following(points, i) == points[0];
        EdgePointsMeaning(points[n - 1], points[0]);
      }
    }
  }

  // ---- part 1 ----

  /** Two different points of the list, by index. */
  predicate Corners(points: seq<Point>, i: int, j: int) {
    0 <= i < |points| && 0 <= j < |points| && points[i] != points[j]
  }

  /** `(i, j)` comes before `(wi, wj)` in the order the loops visit pairs. */
  predicate Before(i: int, j: int, wi: int, wj: int) {
    i < wi || (i == wi && j < wj)
  }

  /** Every pair of different points visited before `(i, j)` has area at
      most `size`. */
  ghost predicate Bounded(points: seq<Point>, i: int, j: int, size: int) {
    forall i', j' :: Corners(points, i', j') && Before(i', j', i, j) ==> Area(points[i'], points[j']) <= size
  }

  /** No pair of different points is visited before `(i, j)`. */
  ghost predicate NoneBefore(points: seq<Point>, i: int, j: int) {
    forall i', j' :: Corners(points, i', j') ==> !Before(i', j', i, j)
  }

  /** `size` is the largest area over pairs of different points, 0 when
      there are none. */
  ghost predicate Largest(points: seq<Point>, size: int) {
    && (forall i, j :: Corners(points, i, j) ==> Area(points[i], points[j]) <= size)
    && (size == 0 <==> forall i, j :: 0 <= i < |points| && 0 <= j < |points| ==> points[i] == points[j])
    && (size != 0 ==> exists i, j :: Corners(points, i, j) && Area(points[i], points[j]) == size)
  }

  /** `winners` is the pair at indexes `(wi, wj)`, of area `size`, and no
      pair the loops visit before it reaches that area. */
  ghost predicate Winner(points: seq<Point>, wi: int, wj: int, winners: (Point, Point), size: int) {
    && Corners(points, wi, wj) && winners == (points[wi], points[wj])
    && Area(points[wi], points[wj]) == size
    && forall i, j :: Corners(points, i, j) && Before(i, j, wi, wj) ==> Area(points[i], points[j]) < size
  }

  /** What the search state means once a row of pairs is done. */
  lemma NextRow(points: seq<Point>, i: int, size: int)
    requires 0 <= i
    ensures Bounded(points, i, |points|, size) ==> Bounded(points, i + 1, 0, size)
    ensures NoneBefore(points, i, |points|) ==> NoneBefore(points, i + 1, 0)
  {
  }

  /** One pair visited: the best so far stays a bound, and a new best is
      the first pair reaching its area. */
  lemma VisitPair(points: seq<Point>, i: int, j: int, size: int, wi: int, wj: int, winners: (Point, Point))
    requires 0 <= i < |points| && 0 <= j < |points| && size >= 0
    requires Bounded(points, i, j, size) && (size == 0 ==> NoneBefore(points, i, j))
    requires size > 0 ==> Winner(points, wi, wj, winners, size) && Before(wi, wj, i, j)
    ensures var better := points[i] != points[j] && Area(points[i], points[j]) > size;
            var size' := if better then Area(points[i], points[j]) else size;
            && Bounded(points, i, j + 1, size') && (size' == 0 ==> NoneBefore(points, i, j + 1))
            && (better ==> Winner(points, i, j, (points[i], points[j]), size'))
            && (!better && size > 0 ==> Winner(points, wi, wj, winners, size) && Before(wi, wj, i, j + 1))
  {
    if points[i] == points[j] {
      assert forall i', j' :: Before(i', j', i, j + 1) && Corners(points, i', j') ==> Before(i', j', i, j);
    }
  }

  /** The end state of the search: a bound that some pair reaches. */
  lemma SearchDone(points: seq<Point>, size: int, wi: int, wj: int, winners: (Point, Point))
    requires size >= 0 && Bounded(points, |points|, 0, size) && (size == 0 ==> NoneBefore(points, |points|, 0))
    requires size > 0 ==> Winner(points, wi, wj, winners, size)
    ensures Largest(points, size)
  {
    if size == 0 {
      forall i, j | 0 <= i < |points| && 0 <= j < |points|
        ensures points[i] == points[j]
      {
        assert !Corners(points, i, j);
      }
    } else {
      assert Corners(points, wi, wj);
    }
  }

  /** Part 1: the largest area over pairs of different points, and the
      first pair in loop order that reaches it; 0 when there is no such
      pair. */
  method LargestRectangle(points: seq<Point>) returns (maxSize: int, winners: (Point, Point))
    ensures Largest(points, maxSize)
    ensures maxSize > 0 ==> exists wi, wj :: Winner(points, wi, wj, winners, maxSize)
  {
    maxSize := 0;
    winners := (Point(0, 0), Point(0, 0));
    ghost var wi, wj := 0, 0;
    for i := 0 to |points|
      invariant maxSize >= 0 && Bounded(points, i, 0, maxSize) && (maxSize == 0 ==> NoneBefore(points, i, 0))
      invariant maxSize > 0 ==> Winner(points, wi, wj, winners, maxSize) && Before(wi, wj, i, 0)
    {
      for j := 0 to |points|
        invariant maxSize >= 0 && Bounded(points, i, j, maxSize) && (maxSize == 0 ==> NoneBefore(points, i, j))
        invariant maxSize > 0 ==> Winner(points, wi, wj, winners, maxSize) && Before(wi, wj, i, j)
      {
        VisitPair(points, i, j, maxSize, wi, wj, winners);
        if points[i] == points[j] {
          continue;
        }
        var area := Area(points[i], points[j]);
        if area > maxSize {
          maxSize := area;
          winners := (points[i], points[j]);
          wi, wj := i, j;
        }
      }
      NextRow(points, i, maxSize);
    }
    SearchDone(points, maxSize, wi, wj, winners);
  }

  method Part1(lines: seq<string>) returns (result: Option<int>)
    ensures result.Some? <==> ParsePoints(lines).Some?
    ensures result.Some? ==> Largest(ParsePoints(lines).value, result.value)
  {
    var points := ParsePoints(lines);
    if points.None? {
      return None;
    }
    var maxSize, _ := LargestRectangle(points.value);
    return Some(maxSize);
  }

  // ---- part 2 ----

  /** No edge tile lies strictly inside the rectangle with corners `a`, `b`. */
  predicate Clear(edges: seq<Point>, a: Point, b: Point) {
    forall e :: e in edges ==> !IsIn(e, a, b)
  }

  /** Clear of the edge tiles means clear of every tile of the loop. */
  lemma ClearMeaning(points: seq<Point>, a: Point, b: Point)
    requires |points| >= 1
    ensures Clear(CollectEdgePoints(points), a, b) <==> forall p :: OnLoop(p, points) ==> !IsIn(p, a, b)
  {
    CollectEdgePointsMeaning(points);
  }

  /** `size` is the largest area over clear rectangles with two different
      points as corners, 0 when there are none. */
  ghost predicate LargestClear(points: seq<Point>, edges: seq<Point>, size: int) {
    && size >= 0
    && (forall i, j :: Corners(points, i, j) && Clear(edges, points[i], points[j]) ==>
          Area(points[i], points[j]) <= size)
    && (size == 0 || exists i, j :: Corners(points, i, j) && Clear(edges, points[i], points[j])
                                     && Area(points[i], points[j]) == size)
  }

  /** The inner loop of part 2: whether some edge tile is inside. */
  method AnyInside(edges: seq<Point>, a: Point, b: Point) returns (isInvalid: bool)
    ensures isInvalid <==> !Clear(edges, a, b)
  {
    isInvalid := false;
    for k := 0 to |edges|
      invariant !isInvalid
      invariant forall k' :: 0 <= k' < k ==> !IsIn(edges[k'], a, b)
    {
      if IsIn(edges[k], a, b) {
        return true;
      }
    }
  }

  /** Part 2's search: the largest area over pairs of different points whose
      rectangle has no edge tile strictly inside; 0 when there is none.
      Go skips the edge test for an area that cannot beat the best so far,
      which does not change the maximum. */
  method LargestClearRectangle(points: seq<Point>, edges: seq<Point>) returns (maxArea: int)
    ensures LargestClear(points, edges, maxArea)
  {
    maxArea := 0;
    for i := 0 to |points|
      invariant maxArea >= 0
      invariant forall i', j' :: Corners(points, i', j') && i' < i && Clear(edges, points[i'], points[j']) ==>
                  Area(points[i'], points[j']) <= maxArea
      invariant maxArea == 0 || exists i', j' :: Corners(points, i', j') && Clear(edges, points[i'], points[j'])
                                                && Area(points[i'], points[j']) == maxArea
    {
      for j := 0 to |points|
        invariant maxArea >= 0
        invariant forall i', j' :: Corners(points, i', j') && Before(i', j', i, j) && Clear(edges, points[i'], points[j']) ==>
                    Area(points[i'], points[j']) <= maxArea
        invariant maxArea == 0 || exists i', j' :: Corners(points, i', j') && Clear(edges, points[i'], points[j'])
                                                  && Area(points[i'], points[j']) == maxArea
      {
        if points[i] == points[j] {
          continue;
        }
        var area := Area(points[i], points[j]);
        if area <= maxArea {
          continue;
        }
        var isInvalid := AnyInside(edges, points[i], points[j]);
        if isInvalid {
          continue;
        }
        maxArea := area;
      }
    }
  }

  /** Part 2: the largest rectangle with red corners and no tile of the
      loop strictly inside it. Go panics on an empty list (it indexes the
      last point to close the loop). */
  method Part2(lines: seq<string>) returns (result: Option<int>)
    ensures result.Some? <==> ParsePoints(lines).Some? && |lines| >= 1
    ensures result.Some? ==>
              var points := ParsePoints(lines).value;
              LargestClear(points, CollectEdgePoints(points), result.value)
  {
    var points := ParsePoints(lines);
    if points.None? || |lines| == 0 {
      return None;
    }
    var edges := CollectEdgePoints(points.value);
    var maxArea := LargestClearRectangle(points.value, edges);
    return Some(maxArea);
  }
}
