/** The searches of `pathfind.go` run on a grid: the successor function is
    the grid's `GetNeighbors` and the edge cost its `GetCost`. On a dense
    grid the in-bounds cells together with the start form a finite set
    closed under `GetNeighbors`, which is what the generic searches ask for. */
module GridSearch {
  import opened Coordinates
  import opened PathGrids
  import opened Walks
  import opened BreadthFirst
  import opened Dijkstras
  import opened AllShortestPaths

  /** Consecutive cells of `path` are grid neighbours. */
  predicate NeighborPath(g: Grid, path: seq<Coordinate>)
    requires WellFormed(g)
  {
    forall i :: 0 <= i < |path| - 1 ==> path[i + 1] in GetNeighbors(g, path[i])
  }

  /** No move of `path` has a negative `GetCost`. */
  predicate UsablePath(g: Grid, path: seq<Coordinate>)
    requires WellFormed(g)
  {
    forall i :: 0 <= i < |path| - 1 ==> GetCost(g, path[i], path[i + 1]) >= 0
  }

  /** The grid's `GetCost` as an edge-cost function. */
  function CostFn(g: Grid): (cost: (Coordinate, Coordinate) -> int)
    requires WellFormed(g)
    ensures forall a, b :: cost(a, b) == GetCost(g, a, b)
  {
    (a, b) => GetCost(g, a, b)
  }

  /** `BFS` on a dense grid. */
  method GridBFS(g: Grid, start: Coordinate, goal: Coordinate) returns (r: PathResult<Coordinate>)
    requires WellFormed(g) && g.store.Dense?
    ensures start == goal ==> r == PathResult(true, [start], 0, 0, map[])
    ensures r.found ==> |r.path| > 0 && r.path[0] == start && Last(r.path) == goal
                        && NeighborPath(g, r.path) && r.cost == |r.path| - 1
    ensures r.found ==> forall w :: |w| > 0 && NeighborPath(g, w) && w[0] == start && Last(w) == goal
                                    ==> |r.path| <= |w|
    ensures !r.found ==> forall w :: |w| > 0 && NeighborPath(g, w) && w[0] == start ==> Last(w) != goal
    ensures start != goal ==> forall c :: c in r.distance ==> InBounds(g.store, c) || c == start
  {
    var next := NeighborFn(g);
    DenseCellsClosed(g, start);
    r := BFS(next, start, goal, Cells(g.store) + {start});
    assert forall w :: IsWalk(next, w) <==> |w| > 0 && NeighborPath(g, w);
  }

  /** `FloodFill` on a dense grid: every cell a neighbour path from the start
      reaches is labelled, with at most that path's number of steps. */
  method GridFloodFill(g: Grid, start: Coordinate) returns (dist: map<Coordinate, int>)
    requires WellFormed(g) && g.store.Dense?
    ensures start in dist && dist[start] == 0
    ensures forall w :: |w| > 0 && NeighborPath(g, w) && w[0] == start ==>
              Last(w) in dist && dist[Last(w)] <= |w| - 1
    ensures forall c :: c in dist ==> InBounds(g.store, c) || c == start
  {
    var next := NeighborFn(g);
    DenseCellsClosed(g, start);
    dist := FloodFill(next, start, Cells(g.store) + {start});
    assert forall w :: IsWalk(next, w) <==> |w| > 0 && NeighborPath(g, w);
    var w := [start];
    assert IsWalk(next, w);
  }

  /** `Dijkstra` on a dense grid: a found path moves between neighbours,
      each move has a non-negative `GetCost`, the costs sum to the returned
      cost, and no such path from start to goal costs less. */
  method GridDijkstra(g: Grid, start: Coordinate, goal: Coordinate)
    returns (r: PathResult<Coordinate>)
    requires WellFormed(g) && g.store.Dense?
    ensures start == goal ==> r == PathResult(true, [start], 0, 0, map[])
    ensures r.found ==> |r.path| > 0 && r.path[0] == start && Last(r.path) == goal
                        && NeighborPath(g, r.path) && UsablePath(g, r.path)
                        && WalkCost(CostFn(g), r.path) == r.cost
    ensures r.found ==> forall w ::
              |w| > 0 && NeighborPath(g, w) && UsablePath(g, w) && w[0] == start && Last(w) == goal ==>
                r.cost <= WalkCost(CostFn(g), w)
    ensures !r.found ==> forall w :: |w| > 0 && NeighborPath(g, w) && UsablePath(g, w) && w[0] == start
                                    ==> Last(w) != goal
  {
    var next := NeighborFn(g);
    var cost := CostFn(g);
    DenseCellsClosed(g, start);
    r := Dijkstra(next, cost, start, goal, Cells(g.store) + {start});
    GridUsableWalks(g);
  }

  /** The walks Dijkstra considers on a grid are its usable neighbour paths. */
  lemma GridUsableWalks(g: Grid)
    requires WellFormed(g)
    ensures forall w :: UsableWalk(NeighborFn(g), CostFn(g), w) <==> |w| > 0 && NeighborPath(g, w) && UsablePath(g, w)
  {
    var next, cost := NeighborFn(g), CostFn(g);
    assert forall w :: UsableWalk(next, cost, w) <==> |w| > 0 && NeighborPath(g, w) && UsablePath(g, w);
  }

  /** `FindAllShortestPaths` on a dense grid: the answers are exactly the
      shortest neighbour paths from start to goal. Each moves between
      neighbours without revisiting a cell, none is longer than any
      neighbour path from start to goal, every such path of their length is
      among them, and there are none exactly when no neighbour path from
      the start reaches the goal. */
  method GridFindAllShortestPaths(g: Grid, start: Coordinate, goal: Coordinate)
    returns (paths: seq<seq<Coordinate>>)
    requires WellFormed(g) && g.store.Dense?
    ensures start == goal ==> paths == [[start]]
    ensures forall i :: 0 <= i < |paths| ==>
              |paths[i]| > 0 && NeighborPath(g, paths[i]) && paths[i][0] == start
              && Last(paths[i]) == goal && Distinct(paths[i])
    ensures forall i, w ::
              0 <= i < |paths| && |w| > 0 && NeighborPath(g, w) && w[0] == start && Last(w) == goal ==>
                |paths[i]| <= |w|
    ensures forall i, j :: 0 <= i < |paths| && 0 <= j < |paths| ==> |paths[i]| == |paths[j]|
    ensures |paths| > 0 ==> forall w ::
              |w| > 0 && NeighborPath(g, w) && w[0] == start && Last(w) == goal && |w| == |paths[0]| ==>
                w in paths
    ensures |paths| == 0 <==> forall w :: |w| > 0 && NeighborPath(g, w) && w[0] == start ==>
                                           Last(w) != goal
  {
    var next := NeighborFn(g);
    DenseCellsClosed(g, start);
    paths := FindAllShortestPaths(next, start, goal, Cells(g.store) + {start}, |g.directions|);
    assert forall w :: IsWalk(next, w) <==> |w| > 0 && NeighborPath(g, w);
    assert forall w :: GoalWalk(next, start, goal, w) <==>
                         |w| > 0 && NeighborPath(g, w) && w[0] == start && Last(w) == goal;
  }
}
