/** Day 7: water poured from 'S' falls straight down through '.' cells;
    a splitter '^' sends it on from the cells to its left and right. Part 1
    counts the stops the water reaches; part 2 counts the routes from
    the source to the bottom row. */
module Day7 {
  import opened Wrappers
  import opened Coordinates
  import opened Walks
  import opened PathGrids

  const Source: char := 'S'
  const Empty: char := '.'
  const Splitter: char := '^'

  const Down: Coordinate := Coordinate(0, 1)
  const ToLeft: Coordinate := Coordinate(-1, 0)
  const ToRight: Coordinate := Coordinate(1, 0)

  /** The dense grid the puzzle reads, every row reaching the width. */
  predicate IsWater(g: Grid) {
    WellFormed(g) && g.store.Dense?
  }

  /** A cell that stops falling water: in bounds and not empty. */
  predicate Stops(g: Grid, c: Coordinate)
    requires IsWater(g)
  {
    At(g, c).Some? && At(g, c) != Some(Empty)
  }

  // ---- part 1 ----

  /** The cells of column `x` from row `lo` up to, not including, row `hi`
      are empty. */
  ghost predicate EmptyRun(g: Grid, x: int, lo: int, hi: int)
    requires IsWater(g)
  {
    forall y :: lo <= y < hi ==> At(g, Coordinate(x, y)) == Some(Empty)
  }

  /** Every in-bounds cell of column `x` from row `lo` down is empty. */
  ghost predicate EmptyToBottom(g: Grid, x: int, lo: int)
    requires IsWater(g)
  {
    forall y :: lo <= y && InBounds(g.store, Coordinate(x, y)) ==> At(g, Coordinate(x, y)) == Some(Empty)
  }

  /** The loop of `fallTilSplit` from the cell `down` on. */
  function FallFrom(g: Grid, down: Coordinate): (r: Option<Coordinate>)
    requires IsWater(g)
    ensures r.Some? ==>
              r.value.x == down.x && r.value.y >= down.y && Stops(g, r.value)
              && EmptyRun(g, down.x, down.y, r.value.y)
    ensures r.None? && down.y >= 0 ==> EmptyToBottom(g, down.x, down.y)
    decreases g.store.height - down.y
  {
    if At(g, down) == Some(Empty) then FallFrom(g, Add(down, Down))
    else if At(g, down).None? then None
    else Some(down)
  }

  /** `fallTilSplit`: the first cell strictly below `start` in its column
      that is not empty, or nothing when the column runs out first. */
  function FallTilSplit(g: Grid, start: Coordinate): (r: Option<Coordinate>)
    requires IsWater(g)
    ensures r.Some? ==>
              r.value.x == start.x && r.value.y > start.y && Stops(g, r.value)
              && forall y :: start.y < y < r.value.y ==> At(g, Coordinate(start.x, y)) == Some(Empty)
    ensures r.None? && start.y >= -1 ==>
              forall y :: start.y < y && InBounds(g.store, Coordinate(start.x, y)) ==>
                At(g, Coordinate(start.x, y)) == Some(Empty)
  {
    FallFrom(g, Add(start, Down))
  }

  /** Where water leaving a splitter sideways stops next, if the side cell
      is in bounds. */
  function Branch(g: Grid, side: Coordinate): seq<Coordinate>
    requires IsWater(g)
  {
    if At(g, side).Some? && FallTilSplit(g, side).Some? then [FallTilSplit(g, side).value] else []
  }

  /** The stops reached directly from the stop `s`. */
  function Next(g: Grid, s: Coordinate): seq<Coordinate>
    requires IsWater(g)
  {
    Branch(g, Add(s, ToLeft)) + Branch(g, Add(s, ToRight))
  }

  function NextFn(g: Grid): (next: Coordinate -> seq<Coordinate>)
    requires IsWater(g)
    ensures forall s :: next(s) == Next(g, s)
  {
    s => Next(g, s)
  }

  /** The result of `simulateWater`: the count it returns and the visited
      set after the call. */
  datatype Flow = Flow(count: int, visited: set<Coordinate>)

  lemma NestedDifference(a: set<Coordinate>, b: set<Coordinate>, c: set<Coordinate>)
    requires a <= b <= c
    ensures |c - a| == |c - b| + |b - a|
  {
    assert c - a == (c - b) + (b - a);
    assert (c - b) * (b - a) == {};
  }

  /** `simulateWater`: water falls from `curr`; a stop not visited before
      counts one and sends water on from its left and right cells when they
      are in bounds. The count is the number of stops newly visited. */
  function SimulateWater(g: Grid, curr: Coordinate, visited: set<Coordinate>): (r: Flow)
    requires IsWater(g)
    ensures visited <= r.visited
    ensures r.count == |r.visited - visited|
    decreases Cells(g.store) - visited
  {
    var split := FallTilSplit(g, curr);
    if split.None? then Flow(0, visited)
    else if split.value in visited then Flow(0, visited)
    else
      var s := split.value;
      var visited1 := visited + {s};
      var left := Add(s, ToLeft);
      var right := Add(s, ToRight);
      var fromLeft := if At(g, left).Some? then SimulateWater(g, left, visited1) else Flow(0, visited1);
      var fromRight :=
        if At(g, right).Some? then SimulateWater(g, right, fromLeft.visited) else Flow(0, fromLeft.visited);
      NestedDifference(visited1, fromLeft.visited, fromRight.visited);
      NestedDifference(visited, visited1, fromRight.visited);
      Flow(1 + fromLeft.count + fromRight.count, fromRight.visited)
  }

  /** One call of `simulateWater` that finds a new stop `s` ends with the
      visited set of its second recursive call. */
  lemma SimulateWaterUnfold(g: Grid, curr: Coordinate, visited: set<Coordinate>,
                            s: Coordinate, fromLeft: Flow, fromRight: Flow)
    requires IsWater(g)
    requires FallTilSplit(g, curr) == Some(s) && s !in visited
    requires var left := Add(s, ToLeft);
             fromLeft == if At(g, left).Some? then SimulateWater(g, left, visited + {s}) else Flow(0, visited + {s})
    requires var right := Add(s, ToRight);
             fromRight ==
               if At(g, right).Some? then SimulateWater(g, right, fromLeft.visited) else Flow(0, fromLeft.visited)
    ensures SimulateWater(g, curr, visited).visited == fromRight.visited
  {
  }

  /** The stops `simulateWater` newly visits are stops, include the first
      one below `curr`, and contain every stop reachable from one of them. */
  lemma {:induction false} SimulateWaterCloses(g: Grid, curr: Coordinate, visited: set<Coordinate>)
    requires IsWater(g)
    ensures var r := SimulateWater(g, curr, visited);
            (forall s :: s in r.visited - visited ==> Stops(g, s))
            && (FallTilSplit(g, curr).Some? ==> FallTilSplit(g, curr).value in r.visited)
            && (FallTilSplit(g, curr).None? ==> r.visited == visited)
            && forall s, n :: s in r.visited - visited && n in Next(g, s) ==> n in r.visited
    decreases Cells(g.store) - visited
  {
    var split := FallTilSplit(g, curr);
    if split.Some? && split.value !in visited {
      var s := split.value;
      var visited1 := visited + {s};
      var left := Add(s, ToLeft);
      var right := Add(s, ToRight);
      var fromLeft := if At(g, left).Some? then SimulateWater(g, left, visited1) else Flow(0, visited1);
      var fromRight :=
        if At(g, right).Some? then SimulateWater(g, right, fromLeft.visited) else Flow(0, fromLeft.visited);
      SimulateWaterUnfold(g, curr, visited, s, fromLeft, fromRight);
      if At(g, left).Some? {
        SimulateWaterCloses(g, left, visited1);
      }
      if At(g, right).Some? {
        SimulateWaterCloses(g, right, fromLeft.visited);
      }
      forall t, n | t in fromRight.visited - visited && n in Next(g, t)
        ensures n in fromRight.visited
      {
        if t == s {
          if n in Branch(g, left) {
            assert n in fromLeft.visited;
          } else {
            assert n in Branch(g, right);
          }
        } else if t in fromLeft.visited {
          assert n in fromLeft.visited;
        }
      }
    }
  }

  /** A stop reachable from where the water leaving `s` sideways stops is
      reachable from `s`. */
  lemma ReachSideways(g: Grid, s: Coordinate, side: Coordinate, t: Coordinate)
    requires IsWater(g)
    requires side == Add(s, ToLeft) || side == Add(s, ToRight)
    requires At(g, side).Some? && FallTilSplit(g, side).Some?
    requires Reachable(NextFn(g), FallTilSplit(g, side).value, t)
    ensures Reachable(NextFn(g), s, t)
  {
    var next := NextFn(g);
    var b := FallTilSplit(g, side).value;
    assert b in Next(g, s);
    var w :| IsWalk(next, w) && w[0] == b && Last(w) == t;
    PrependWalk(next, s, w);
  }

  /** Every stop `simulateWater` newly visits is reachable from the first
      stop below `curr`. */
  lemma {:induction false} SimulateWaterReaches(g: Grid, curr: Coordinate, visited: set<Coordinate>)
    requires IsWater(g)
    ensures var r := SimulateWater(g, curr, visited);
            forall s :: s in r.visited - visited ==>
              FallTilSplit(g, curr).Some? && Reachable(NextFn(g), FallTilSplit(g, curr).value, s)
    decreases Cells(g.store) - visited
  {
    var split := FallTilSplit(g, curr);
    if split.Some? && split.value !in visited {
      var s := split.value;
      var visited1 := visited + {s};
      var left := Add(s, ToLeft);
      var right := Add(s, ToRight);
      var fromLeft := if At(g, left).Some? then SimulateWater(g, left, visited1) else Flow(0, visited1);
      var fromRight :=
        if At(g, right).Some? then SimulateWater(g, right, fromLeft.visited) else Flow(0, fromLeft.visited);
      SimulateWaterUnfold(g, curr, visited, s, fromLeft, fromRight);
      if At(g, left).Some? {
        SimulateWaterReaches(g, left, visited1);
      }
      if At(g, right).Some? {
        SimulateWaterReaches(g, right, fromLeft.visited);
      }
      forall t | t in fromRight.visited - visited
        ensures Reachable(NextFn(g), s, t)
      {
        if t == s {
          assert IsWalk(NextFn(g), [s]) && [s][0] == s && Last([s]) == t;
        } else if t in fromLeft.visited {
          ReachSideways(g, s, left, t);
        } else {
          ReachSideways(g, s, right, t);
        }
      }
    }
  }

  /** From an empty visited set, `simulateWater` counts exactly the stops
      reachable from the first one below `curr`: the set it visits holds
      that stop, is closed under `Next`, and holds nothing unreachable. */
  lemma SimulateWaterCounts(g: Grid, curr: Coordinate)
    requires IsWater(g)
    ensures var r := SimulateWater(g, curr, {});
            r.count == |r.visited|
            && (forall s :: s in r.visited ==> Stops(g, s))
            && (FallTilSplit(g, curr).None? ==> r.count == 0)
            && (FallTilSplit(g, curr).Some? ==>
                  FallTilSplit(g, curr).value in r.visited
                  && Closed(NextFn(g), r.visited)
                  && forall s :: s in r.visited ==> Reachable(NextFn(g), FallTilSplit(g, curr).value, s))
  {
    var r := SimulateWater(g, curr, {});
    assert r.visited - {} == r.visited;
    SimulateWaterCloses(g, curr, {});
    SimulateWaterReaches(g, curr, {});
  }

  /** The grid of the puzzle input: none for no lines or for a row shorter
      than the first (Go would panic reading it). */
  function WaterGrid(lines: seq<string>): (r: Option<Grid>)
    ensures r.Some? <==> |lines| > 0 && forall y :: 0 <= y < |lines| ==> |lines[0]| <= |lines[y]|
    ensures r.Some? ==> IsWater(r.value) && r.value.store.rows == lines
  {
    var g := NewDenseGridFromLines(lines);
    if g.None? || !WellFormed(g.value) then None else g
  }

  /** `c` holds the source and no source comes before it row by row. */
  ghost predicate FirstSource(g: Grid, c: Coordinate)
    requires IsWater(g)
  {
    At(g, c) == Some(Source)
    && forall d :: At(g, d) == Some(Source) && d != c ==> Before(c, d)
  }

  /** At most one cell is the first source. */
  lemma FirstSourceUnique(g: Grid, a: Coordinate, b: Coordinate)
    requires IsWater(g)
    requires FirstSource(g, a) && FirstSource(g, b)
    ensures a == b
  {
    assert !(Before(a, b) && Before(b, a));
  }

  /** The first source cell in row-major order, or none when there is no
      source (Go's `[0]` panics). */
  method FindSource(g: Grid) returns (start: Option<Coordinate>)
    requires IsWater(g)
    ensures start.None? <==> forall c :: At(g, c) != Some(Source)
    ensures start.Some? ==> FirstSource(g, start.value)
  {
    var sources := FindCoordinates(g, Source);
    if |sources| == 0 {
      return None;
    }
    assert sources[0] in sources;
    forall c | At(g, c) == Some(Source) && c != sources[0]
      ensures Before(sources[0], c)
    {
      var i :| 0 <= i < |sources| && sources[i] == c;
    }
    return Some(sources[0]);
  }

  /** Part 1: the number of stops reached from the source. */
  method Part1(lines: seq<string>) returns (result: Option<int>)
    ensures result.Some? ==> WaterGrid(lines).Some?
    ensures WaterGrid(lines).Some? ==>
              (result.Some? <==> exists c :: At(WaterGrid(lines).value, c) == Some(Source))
    ensures result.Some? ==>
              exists start :: FirstSource(WaterGrid(lines).value, start)
                && result.value == SimulateWater(WaterGrid(lines).value, start, {}).count
  {
    var g := WaterGrid(lines);
    if g.None? {
      return None;
    }
    var start := FindSource(g.value);
    if start.None? {
      return None;
    }
    var flow := SimulateWater(g.value, start.value, {});
    return Some(flow.count);
  }

  // ---- part 2 ----

  /** `waterGrid.GetNeighbors`: nothing out of bounds, the cells to the
      left and right of a splitter, and the cell below anything else. */
  function Neighbors(g: Grid, pos: Coordinate): (r: seq<Coordinate>)
    requires IsWater(g)
    ensures r == [] <==> At(g, pos).None?
    ensures At(g, pos) == Some(Splitter) ==>
              |r| == 2 && r[0] == Coordinate(pos.x - 1, pos.y) && r[1] == Coordinate(pos.x + 1, pos.y)
    ensures At(g, pos).Some? && At(g, pos) != Some(Splitter) ==> r == [Coordinate(pos.x, pos.y + 1)]
  {
    if At(g, pos).None? then []
    else if At(g, pos) == Some(Splitter) then [Add(pos, ToLeft), Add(pos, ToRight)]
    else [Add(pos, Down)]
  }

  /** No two splitters side by side above the bottom row. Without this a
      splitter's neighbour sends the search straight back and Go's recursion
      never ends; on the bottom row the search stops before it looks at the
      neighbours. */
  predicate NoAdjacentSplitters(g: Grid)
    requires IsWater(g)
  {
    var s := g.store;
    forall y, x :: 0 <= y < s.height - 1 && 0 <= x && x + 1 < s.width ==>
      !(s.rows[y][x] == Splitter && s.rows[y][x + 1] == Splitter)
  }

  /** A measure that every step of the search lowers: two per row left to
      go, plus one on a splitter. */
  function Rank(g: Grid, pos: Coordinate): nat
    requires IsWater(g)
  {
    if At(g, pos).None? then 0
    else 2 * (g.store.height - pos.y) + (if At(g, pos) == Some(Splitter) then 1 else 0)
  }

  lemma RankDecreases(g: Grid, pos: Coordinate, n: Coordinate)
    requires IsWater(g) && NoAdjacentSplitters(g)
    requires pos.y < g.store.height - 1 && n in Neighbors(g, pos)
    ensures Rank(g, n) < Rank(g, pos)
  {
    var s := g.store;
    if At(g, pos) == Some(Splitter) && At(g, n).Some? {
      var x := if n.x < pos.x then n.x else pos.x;
      assert !(s.rows[pos.y][x] == Splitter && s.rows[pos.y][x + 1] == Splitter);
    }
  }

  /** The plain, unmemoised `dfs`: no routes from outside the grid, one
      from the bottom row, and otherwise the routes through each
      neighbour. */
  function Paths(g: Grid, pos: Coordinate): nat
    requires IsWater(g) && NoAdjacentSplitters(g)
    decreases Rank(g, pos), 1, 0
  {
    if At(g, pos).None? then 0
    else if pos.y == g.store.height - 1 then 1
    else PathsFrom(g, pos, Neighbors(g, pos))
  }

  /** The routes through the neighbours `ns` of `pos`. */
  function PathsFrom(g: Grid, pos: Coordinate, ns: seq<Coordinate>): nat
    requires IsWater(g) && NoAdjacentSplitters(g)
    requires pos.y < g.store.height - 1
    requires forall n :: n in ns ==> n in Neighbors(g, pos)
    decreases Rank(g, pos), 0, |ns|
  {
    if |ns| == 0 then 0
    else
      RankDecreases(g, pos, ns[0]);
      Paths(g, ns[0]) + PathsFrom(g, pos, ns[1..])
  }

  /** Every memo entry is the unmemoised value of its cell. */
  ghost predicate MemoSound(g: Grid, memo: map<Coordinate, int>)
    requires IsWater(g) && NoAdjacentSplitters(g)
  {
    forall c :: c in memo ==> memo[c] == Paths(g, c)
  }

  /** The memoised `dfs`: the same value as the plain one, and every entry
      it adds to the memo is right. */
  method Dfs(g: Grid, pos: Coordinate, memo: map<Coordinate, int>) returns (v: int, memo': map<Coordinate, int>)
    requires IsWater(g) && NoAdjacentSplitters(g)
    requires MemoSound(g, memo)
    ensures v == Paths(g, pos)
    ensures MemoSound(g, memo') && memo.Keys <= memo'.Keys
    decreases Rank(g, pos)
  {
    memo' := memo;
    if At(g, pos).None? {
      return 0, memo';
    }
    if pos.y == g.store.height - 1 {
      return 1, memo';
    }
    if pos in memo {
      return memo[pos], memo';
    }
    var ns := Neighbors(g, pos);
    var total := 0;
    var i := 0;
    while i < |ns|
      invariant 0 <= i <= |ns|
      invariant MemoSound(g, memo') && memo.Keys <= memo'.Keys
      invariant total + PathsFrom(g, pos, ns[i..]) == Paths(g, pos)
    {
      RankDecreases(g, pos, ns[i]);
      assert ns[i..][1..] == ns[i + 1..];
      var t;
      t, memo' := Dfs(g, ns[i], memo');
      total := total + t;
      i := i + 1;
    }
    memo' := memo'[pos := total];
    return total, memo';
  }

  /** Splitters side by side on the bottom row are harmless: the search
      counts the route on reaching that row. */
  lemma BottomRowSplitters()
    ensures var g := WaterGrid(["S.", "^^"]);
            g.Some? && NoAdjacentSplitters(g.value) && Paths(g.value, Coordinate(0, 0)) == 1
  {
  }

  /** Part 2: the number of routes from the source to the bottom row; none
      without a grid or a source, or when two splitters sit side by side
      above the bottom row. */
  method Part2(lines: seq<string>) returns (result: Option<int>)
    ensures result.Some? <==>
              WaterGrid(lines).Some? && NoAdjacentSplitters(WaterGrid(lines).value)
              && exists c :: At(WaterGrid(lines).value, c) == Some(Source)
    ensures result.Some? ==>
              exists start :: FirstSource(WaterGrid(lines).value, start)
                && result.value == Paths(WaterGrid(lines).value, start)
  {
    var g := WaterGrid(lines);
    if g.None? || !NoAdjacentSplitters(g.value) {
      return None;
    }
    var start := FindSource(g.value);
    if start.None? {
      return None;
    }
    var routes, _ := Dfs(g.value, start.value, map[]);
    return Some(routes);
  }
}
