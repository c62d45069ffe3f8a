/** `util.BFS` and `util.FloodFill`: breadth-first search along a
    successor function (a grid's `GetNeighbors`), with parent pointers for
    path reconstruction.

    Go runs until the queue is empty, which on an unbounded sparse grid need
    not happen. The model asks the caller for a finite set of cells closed
    under `GetNeighbors` that contains the start; every dense grid has one
    (`PathGrids.DenseCellsClosed`). */
module BreadthFirst {
  import opened Walks

  datatype PathResult<T> = PathResult(found: bool, path: seq<T>, cost: int,
                                      visited: int, distance: map<T, int>)

  /** Removing more cells from a finite set leaves fewer. */
  lemma FewerOutside<T>(universe: set<T>, a: set<T>, b: set<T>)
    requires a <= b
    ensures |universe - b| <= |universe - a|
    ensures a < b && b <= universe ==> |universe - b| < |universe - a|
  {
    var small, big := universe - b, universe - a;
    assert small <= big;
    assert big == small + (big - small);
    if a < b && b <= universe {
      var x :| x in b && x !in a;
      assert x in big - small;
    }
  }

  /** Each cell of `path` after the first has the one before it as parent. */
  predicate ParentLinks<T(==)>(parent: map<T, T>, path: seq<T>) {
    forall i :: 0 < i < |path| ==> path[i] in parent && parent[path[i]] == path[i - 1]
  }

  /** The walk-back loop: follows parents from `goal` to `start`. The loop
      ends because each parent has a smaller `rank` (the BFS distance, or
      Dijkstra's settling order). */
  method ReconstructPath<T(==)>(next: T -> seq<T>, start: T, goal: T,
                         parent: map<T, T>, ghost rank: map<T, int>)
    returns (path: seq<T>)
    requires start in rank && goal in rank
    requires forall c :: c in rank ==> rank[c] >= 0
    requires forall c :: c in rank && c != start ==>
               c in parent && parent[c] in rank && rank[parent[c]] < rank[c]
               && c in next(parent[c])
    ensures IsWalk(next, path) && path[0] == start && Last(path) == goal
    ensures ParentLinks(parent, path)
    ensures (forall c :: c in rank && c != start ==> rank[c] == rank[parent[c]] + 1) ==>
              |path| == rank[goal] - rank[start] + 1
  {
    path := [goal];
    while path[0] != start
      invariant |path| > 0 && path[0] in rank
      invariant IsWalk(next, path) && Last(path) == goal
      invariant ParentLinks(parent, path)
      invariant (forall c :: c in rank && c != start ==> rank[c] == rank[parent[c]] + 1) ==>
                  |path| == rank[goal] - rank[path[0]] + 1
      decreases rank[path[0]]
    {
      var pos := path[0];
      var w := [parent[pos]] + path;
      assert IsWalk(next, w) by {
        forall i | 0 <= i < |w| - 1
          ensures Step(next, w[i], w[i + 1])
        {
          if i > 0 {
            assert w[i] == path[i - 1] && w[i + 1] == path[i];
          }
        }
      }
      assert ParentLinks(parent, w) by {
        forall i | 0 < i < |w|
          ensures w[i] in parent && parent[w[i]] == w[i - 1]
        {
          if i > 1 {
            assert w[i] == path[i - 1] && w[i - 1] == path[i - 2];
          }
        }
      }
      path := w;
    }
  }

  /** What one expansion of `current` does to the labels: every successor
      of `current` not yet labelled is added, with `current`'s label plus
      one, and nothing else changes. */
  predicate Expanded<T(==)>(next: T -> seq<T>, current: T, dist: map<T, int>,
                            dist': map<T, int>, added: seq<T>)
    requires current in dist
  {
    && (forall c :: c in dist' ==> c in dist || c in added)
    && (forall c :: c in dist ==> c in dist' && dist'[c] == dist[c])
    && (forall c :: c in added ==>
          c in dist' && c in next(current) && c !in dist && dist'[c] == dist[current] + 1)
    && (forall c :: c in next(current) && c !in dist ==> c in added)
    && Distinct(added)
  }

  /** The neighbour loop shared by `BFS` and `FloodFill`: every successor of
      `current` not yet labelled gets `current`'s label plus one and joins
      the back of the queue, in successor order. */
  method Expand<T(==)>(next: T -> seq<T>, current: T, dist: map<T, int>, queue: seq<T>)
    returns (dist': map<T, int>, queue': seq<T>, added: seq<T>)
    requires current in dist
    ensures Expanded(next, current, dist, dist', added)
    ensures queue' == queue + added
  {
    var ns := next(current);
    dist', queue', added := dist, queue, [];
    var i := 0;
    while i < |ns|
      invariant 0 <= i <= |ns|
      invariant forall c :: c in dist' ==> c in dist || c in added
      invariant forall c :: c in dist ==> c in dist' && dist'[c] == dist[c]
      invariant forall c :: c in added ==>
                  c in dist' && c in ns && c !in dist && dist'[c] == dist[current] + 1
      invariant forall k :: 0 <= k < i && ns[k] !in dist ==> ns[k] in added
      invariant Distinct(added)
      invariant queue' == queue + added
    {
      var n := ns[i];
      if n !in dist' {
        dist' := dist'[n := dist'[current] + 1];
        added := added + [n];
        queue' := queue' + [n];
      }
      i := i + 1;
    }
    forall c | c in next(current) && c !in dist
      ensures c in added
    {
      var k :| 0 <= k < |ns| && ns[k] == c;
    }
  }

  /** The queue discipline of breadth-first search: labels along the queue
      never decrease and span at most one, every cell already expanded
      (`done`) is labelled no more than anything queued, and the labelled
      cells are exactly the expanded and the queued ones. */
  predicate Layered<T(==)>(next: T -> seq<T>, dist: map<T, int>, done: set<T>, queue: seq<T>) {
    Covered(dist, done, queue) && Ordered(dist, done, queue) && StepBounded(next, dist, done)
  }

  /** The labelled elements are the expanded ones and the queued ones, and
      nothing is queued twice or after its expansion. */
  predicate Covered<T(==)>(dist: map<T, int>, done: set<T>, queue: seq<T>) {
    && done <= dist.Keys
    && (forall i :: 0 <= i < |queue| ==> queue[i] in dist && queue[i] !in done)
    && (forall c :: c in dist ==> c in done || c in queue)
    && Distinct(queue)
  }

  /** Labels along the queue never decrease and span at most one, and no
      expanded element is labelled more than anything queued. */
  predicate Ordered<T(==)>(dist: map<T, int>, done: set<T>, queue: seq<T>)
    requires Covered(dist, done, queue)
  {
    && (forall i, j :: 0 <= i < j < |queue| ==> dist[queue[i]] <= dist[queue[j]])
    && (forall i :: 0 <= i < |queue| ==> dist[queue[i]] <= dist[queue[0]] + 1)
    && (forall c, i :: c in done && 0 <= i < |queue| ==> dist[c] <= dist[queue[i]])
  }

  /** The cell at the front of the queue is labelled with the length of a
      shortest walk to it: any walk from the start must leave `done`
      somewhere, and where it does it has taken at least as many steps as
      the front's label. */
  lemma FrontIsShortest<T>(next: T -> seq<T>, start: T, dist: map<T, int>,
                           done: set<T>, queue: seq<T>, path: seq<T>)
    requires start in dist && dist[start] == 0
    requires Layered(next, dist, done, queue) && |queue| > 0
    requires |path| == dist[queue[0]] + 1
    ensures forall w :: IsWalk(next, w) && w[0] == start && Last(w) == queue[0] ==> |path| <= |w|
  {
    forall w | IsWalk(next, w) && w[0] == start && Last(w) == queue[0]
      ensures dist[queue[0]] <= |w| - 1
    {
      var i := FirstOutside(w, done);
      LabelsBoundedAlongWalk(next, start, dist, done, w, i);
      var k :| 0 <= k < |queue| && queue[k] == w[i];
      assert k == 0 || dist[queue[0]] <= dist[queue[k]];
    }
  }

  /** Once nothing is queued, the labelled cells are closed under
      neighbours, so every walk from the start ends on a labelled cell, at
      most as many steps away as the walk takes. */
  lemma ExhaustedLabelsEverything<T>(next: T -> seq<T>, start: T, dist: map<T, int>,
                                  done: set<T>, w: seq<T>)
    requires start in dist && dist[start] == 0
    requires Layered(next, dist, done, [])
    requires IsWalk(next, w) && w[0] == start
    ensures Last(w) in done && dist[Last(w)] <= |w| - 1
  {
    assert done == dist.Keys;
    assert Closed(next, done) by {
      forall c, n | c in done && n in next(c)
        ensures n in done
      {
        assert StepBounded(next, dist, done);
      }
    }
    WalkStaysInside(next, done, w);
    LabelsBoundedAlongWalk(next, start, dist, done, w, |w| - 1);
  }

  /** One round keeps the labelled elements covered by the expanded and the
      queued ones. */
  lemma ExpandKeepsCovered<T>(next: T -> seq<T>, dist: map<T, int>, done: set<T>,
                              queue: seq<T>, dist': map<T, int>,
                              queue': seq<T>, added: seq<T>)
    requires Layered(next, dist, done, queue) && |queue| > 0
    requires Expanded(next, queue[0], dist, dist', added)
    requires queue' == queue[1..] + added
    ensures Covered(dist', done + {queue[0]}, queue')
  {
    var current := queue[0];
    var d := dist[current];
    var done' := done + {current};
    forall i | 0 <= i < |queue'|
      ensures queue'[i] in dist' && queue'[i] !in done'
    {
      if i < |queue| - 1 {
        assert queue'[i] == queue[i + 1];
      } else {
        assert queue'[i] == added[i - (|queue| - 1)];
      }
    }
    forall i, j | 0 <= i < j < |queue'|
      ensures queue'[i] != queue'[j]
    {
      if j < |queue| - 1 {
        assert queue'[i] == queue[i + 1] && queue'[j] == queue[j + 1];
      } else if i < |queue| - 1 {
        assert queue'[i] == queue[i + 1] && queue'[i] in dist;
        assert queue'[j] == added[j - (|queue| - 1)];
      } else {
        assert queue'[i] == added[i - (|queue| - 1)];
        assert queue'[j] == added[j - (|queue| - 1)];
      }
    }
    forall c | c in dist'
      ensures c in done' || c in queue'
    {
      if c in dist && c != current && c !in done {
        var k :| 0 <= k < |queue| && queue[k] == c;
        assert queue'[k - 1] == c;
      } else if c in added {
        var k :| 0 <= k < |added| && added[k] == c;
        assert queue'[|queue| - 1 + k] == c;
      }
    }
  }

  /** After one round the queue holds the rest of the old queue, labelled
      as before, followed by the new elements, labelled one more than the
      expanded one. */
  lemma ExpandLabels<T>(next: T -> seq<T>, dist: map<T, int>, done: set<T>,
                        queue: seq<T>, dist': map<T, int>,
                        queue': seq<T>, added: seq<T>)
    requires Layered(next, dist, done, queue) && |queue| > 0
    requires Expanded(next, queue[0], dist, dist', added)
    requires queue' == queue[1..] + added
    ensures forall i :: 0 <= i < |queue'| ==> queue'[i] in dist'
    ensures forall i :: 0 <= i < |queue| - 1 ==> dist'[queue'[i]] == dist[queue[i + 1]]
    ensures forall i :: |queue| - 1 <= i < |queue'| ==> dist'[queue'[i]] == dist[queue[0]] + 1
  {
    forall i | 0 <= i < |queue'|
      ensures queue'[i] in dist'
      ensures i < |queue| - 1 ==> dist'[queue'[i]] == dist[queue[i + 1]]
      ensures i >= |queue| - 1 ==> dist'[queue'[i]] == dist[queue[0]] + 1
    {
      if i < |queue| - 1 {
        assert queue'[i] == queue[i + 1];
      } else {
        assert queue'[i] == added[i - (|queue| - 1)];
      }
    }
  }

  /** One round keeps the queue ordered by label. */
  lemma ExpandKeepsOrdered<T>(next: T -> seq<T>, dist: map<T, int>, done: set<T>,
                              queue: seq<T>, dist': map<T, int>,
                              queue': seq<T>, added: seq<T>)
    requires Layered(next, dist, done, queue) && |queue| > 0
    requires Expanded(next, queue[0], dist, dist', added)
    requires queue' == queue[1..] + added
    requires Covered(dist', done + {queue[0]}, queue')
    ensures Ordered(dist', done + {queue[0]}, queue')
  {
    var d := dist[queue[0]];
    var done' := done + {queue[0]};
    var n := |queue| - 1;
    ExpandLabels(next, dist, done, queue, dist', queue', added);
    forall i | 0 <= i < |queue'|
      ensures d <= dist'[queue'[i]] <= d + 1
    {
      if i < n {
        assert dist[queue[0]] <= dist[queue[i + 1]];
      }
    }
    forall i, j | 0 <= i < j < |queue'|
      ensures dist'[queue'[i]] <= dist'[queue'[j]]
    {
      if j < n {
        assert dist[queue[i + 1]] <= dist[queue[j + 1]];
      }
    }
    forall i | 0 <= i < |queue'|
      ensures dist'[queue'[i]] <= dist'[queue'[0]] + 1
    {
    }
    forall c, i | c in done' && 0 <= i < |queue'|
      ensures dist'[c] <= dist'[queue'[i]]
    {
      if c != queue[0] {
        assert dist[c] <= dist[queue[0]];
      }
    }
  }

  /** One round keeps every expanded element's successors labelled at most
      one more than it. */
  lemma ExpandKeepsStepBounded<T>(next: T -> seq<T>, dist: map<T, int>, done: set<T>,
                                  queue: seq<T>, dist': map<T, int>,
                                  queue': seq<T>, added: seq<T>)
    requires Layered(next, dist, done, queue) && |queue| > 0
    requires Expanded(next, queue[0], dist, dist', added)
    requires queue' == queue[1..] + added
    ensures StepBounded(next, dist', done + {queue[0]})
  {
    var current := queue[0];
    var d := dist[current];
    var done' := done + {current};
    forall c, n | c in done' && n in next(c)
      ensures c in dist' && n in dist' && dist'[n] <= dist'[c] + 1
    {
      if c == current {
        if n in dist {
          if n in done {
            assert dist[n] <= dist[queue[0]];
          } else {
            assert n in queue;
            var k :| 0 <= k < |queue| && queue[k] == n;
            assert dist[n] <= dist[queue[0]] + 1;
          }
        } else {
          assert n in added;
        }
      } else {
        assert c in done;
        assert StepBounded(next, dist, done);
      }
    }
  }

  /** One round of the search loop keeps the queue discipline. */
  lemma ExpandKeepsLayers<T>(next: T -> seq<T>, dist: map<T, int>, done: set<T>,
                             queue: seq<T>, dist': map<T, int>,
                             queue': seq<T>, added: seq<T>)
    requires Layered(next, dist, done, queue) && |queue| > 0
    requires Expanded(next, queue[0], dist, dist', added)
    requires queue' == queue[1..] + added
    ensures Layered(next, dist', done + {queue[0]}, queue')
  {
    ExpandKeepsCovered(next, dist, done, queue, dist', queue', added);
    ExpandKeepsOrdered(next, dist, done, queue, dist', queue', added);
    ExpandKeepsStepBounded(next, dist, done, queue, dist', queue', added);
  }

  /** Recording `current` as the parent of every newly labelled element
      keeps the parent structure. */
  lemma ExpandKeepsParents<T>(next: T -> seq<T>, start: T, dist: map<T, int>,
                              parent: map<T, T>, current: T,
                              dist': map<T, int>, added: seq<T>)
    requires ParentLabelled(next, start, dist, parent) && current in dist
    requires Expanded(next, current, dist, dist', added)
    ensures ParentLabelled(next, start, dist', parent + map c | c in added :: current)
  {
  }

  /** One round labels only elements of a closed set containing the labelled
      ones, and either labels something new or shortens the queue. */
  lemma ExpandProgresses<T>(next: T -> seq<T>, universe: set<T>, dist: map<T, int>,
                            queue: seq<T>, dist': map<T, int>,
                            queue': seq<T>, added: seq<T>)
    requires Closed(next, universe) && dist.Keys <= universe && |queue| > 0 && queue[0] in dist
    requires Expanded(next, queue[0], dist, dist', added)
    requires queue' == queue[1..] + added
    ensures dist'.Keys <= universe
    ensures |universe - dist'.Keys| < |universe - dist.Keys|
            || (|universe - dist'.Keys| == |universe - dist.Keys| && |queue'| < |queue|)
  {
    assert forall c :: c in added ==> c in universe;
    FewerOutside(universe, dist.Keys, dist'.Keys);
    if added != [] {
      assert added[0] in dist'.Keys - dist.Keys;
    } else {
      assert dist'.Keys == dist.Keys;
    }
  }

  /** A subset of a finite set is no larger. */
  lemma SubsetSize<T>(a: set<T>, b: set<T>)
    requires a <= b
    ensures |a| <= |b|
  {
    assert b == a + (b - a);
  }

  /** The loop invariant of both searches. */
  predicate Searching<T(==)>(next: T -> seq<T>, start: T, universe: set<T>, dist: map<T, int>,
                             parent: map<T, T>, done: set<T>, queue: seq<T>)
  {
    ParentLabelled(next, start, dist, parent) && Layered(next, dist, done, queue) && dist.Keys <= universe
  }

  /** One round of either search: expand the front of the queue. */
  lemma RoundKeepsSearching<T>(next: T -> seq<T>, start: T, universe: set<T>, dist: map<T, int>,
                               parent: map<T, T>, done: set<T>, queue: seq<T>,
                               dist': map<T, int>, queue': seq<T>, added: seq<T>)
    requires Closed(next, universe) && Searching(next, start, universe, dist, parent, done, queue)
    requires |queue| > 0 && Expanded(next, queue[0], dist, dist', added)
    requires queue' == queue[1..] + added
    ensures Searching(next, start, universe, dist', parent + map c | c in added :: queue[0],
                      done + {queue[0]}, queue')
    ensures |done + {queue[0]}| == |done| + 1
    ensures |universe - dist'.Keys| < |universe - dist.Keys|
            || (|universe - dist'.Keys| == |universe - dist.Keys| && |queue'| < |queue|)
  {
    ExpandKeepsLayers(next, dist, done, queue, dist', queue', added);
    ExpandProgresses(next, universe, dist, queue, dist', queue', added);
    ExpandKeepsParents(next, start, dist, parent, queue[0], dist', added);
  }

  /** The goal has reached the front of the queue: walk back along the
      parents and report the path with the goal's distance as its cost. */
  method GoalReached<T(==)>(next: T -> seq<T>, start: T, goal: T, ghost universe: set<T>,
                            dist: map<T, int>, parent: map<T, T>, ghost done: set<T>,
                            queue: seq<T>, visitedCount: int)
    returns (r: PathResult<T>)
    requires Searching(next, start, universe, dist, parent, done, queue)
    requires |queue| > 0 && queue[0] == goal && visitedCount == |done|
    ensures r.found && IsWalk(next, r.path) && r.path[0] == start && Last(r.path) == goal
    ensures r.cost == |r.path| - 1 && goal in r.distance && r.cost == r.distance[goal]
    ensures forall w :: IsWalk(next, w) && w[0] == start && Last(w) == goal ==> |r.path| <= |w|
    ensures DistanceLabels(next, start, r.distance) && r.distance.Keys <= universe
    ensures 0 <= r.visited <= |universe|
  {
    SubsetSize(done + {goal}, universe);
    assert |done + {goal}| == |done| + 1;
    assert forall c :: c in dist && c != start ==> dist[c] == dist[parent[c]] + 1;
    var path := ReconstructPath(next, start, goal, parent, dist);
    FrontIsShortest(next, start, dist, done, queue, path);
    ParentLabelledDistanceLabels(next, start, dist, parent);
    return PathResult(true, path, dist[goal], visitedCount + 1, dist);
  }

  /** One round of either search: pop the front, label and queue its
      unlabelled successors, and make it their parent. */
  method Round<T(==)>(next: T -> seq<T>, start: T, ghost universe: set<T>, dist: map<T, int>,
                      parent: map<T, T>, ghost done: set<T>, queue: seq<T>)
    returns (dist': map<T, int>, parent': map<T, T>, queue': seq<T>)
    requires Closed(next, universe) && Searching(next, start, universe, dist, parent, done, queue)
    requires |queue| > 0
    ensures Searching(next, start, universe, dist', parent', done + {queue[0]}, queue')
    ensures |done + {queue[0]}| == |done| + 1
    ensures |universe - dist'.Keys| < |universe - dist.Keys|
            || (|universe - dist'.Keys| == |universe - dist.Keys| && |queue'| < |queue|)
  {
    var current := queue[0];
    var added;
    dist', queue', added := Expand(next, current, dist, queue[1..]);
    RoundKeepsSearching(next, start, universe, dist, parent, done, queue, dist', queue', added);
    parent' := parent + map c | c in added :: current;
  }

  /** The queue ran empty without reaching the goal: no walk from the start
      reaches it. */
  lemma Unreached<T>(next: T -> seq<T>, start: T, goal: T, universe: set<T>, dist: map<T, int>,
                     parent: map<T, T>, done: set<T>)
    requires Searching(next, start, universe, dist, parent, done, []) && goal !in done
    ensures forall w :: IsWalk(next, w) && w[0] == start ==> Last(w) != goal
    ensures DistanceLabels(next, start, dist) && |done| <= |universe|
  {
    forall w | IsWalk(next, w) && w[0] == start
      ensures Last(w) != goal
    {
      ExhaustedLabelsEverything(next, start, dist, done, w);
    }
    SubsetSize(done, universe);
    ParentLabelledDistanceLabels(next, start, dist, parent);
  }

  /** Before the first round: the start alone, at distance 0, queued. */
  lemma SearchStart<T>(next: T -> seq<T>, start: T, universe: set<T>)
    requires start in universe
    ensures Searching(next, start, universe, map[start := 0], map[], {}, [start])
  {
  }

  /** The loop of `BFS`: expand rounds until the goal is at the front of the
      queue or the queue runs empty. */
  method Search<T(==)>(next: T -> seq<T>, start: T, goal: T, ghost universe: set<T>)
    returns (dist: map<T, int>, parent: map<T, T>, queue: seq<T>, ghost done: set<T>,
             visitedCount: int)
    requires Closed(next, universe) && start in universe
    ensures Searching(next, start, universe, dist, parent, done, queue)
    ensures goal !in done && visitedCount == |done|
    ensures |queue| == 0 || queue[0] == goal
  {
    queue := [start];
    dist := map[start := 0];
    parent := map[];
    visitedCount := 0;
    done := {};
    SearchStart(next, start, universe);
    while |queue| > 0 && queue[0] != goal
      invariant Searching(next, start, universe, dist, parent, done, queue)
      invariant goal !in done
      invariant visitedCount == |done|
      decreases |universe - dist.Keys|, |queue|
    {
      var current := queue[0];
      visitedCount := visitedCount + 1;
      dist, parent, queue := Round(next, start, universe, dist, parent, done, queue);
      done := done + {current};
    }
  }

  /** `BFS`: on success, the path is a walk from start to goal of the least
      possible length, and its cost is its number of steps and the goal's
      distance; on failure, no walk from start reaches goal. */
  method BFS<T(==)>(next: T -> seq<T>, start: T, goal: T, ghost universe: set<T>)
    returns (r: PathResult<T>)
    requires Closed(next, universe) && start in universe
    ensures start == goal ==> r == PathResult(true, [start], 0, 0, map[])
    ensures r.found ==> IsWalk(next, r.path) && r.path[0] == start && Last(r.path) == goal
                        && r.cost == |r.path| - 1
    ensures r.found ==> forall w :: IsWalk(next, w) && w[0] == start && Last(w) == goal ==> |r.path| <= |w|
    ensures !r.found ==> forall w :: IsWalk(next, w) && w[0] == start ==> Last(w) != goal
    ensures start != goal ==> DistanceLabels(next, start, r.distance) && r.distance.Keys <= universe
    ensures start != goal && r.found ==> goal in r.distance && r.cost == r.distance[goal]
    ensures 0 <= r.visited <= |universe|
  {
    if start == goal {
      return PathResult(true, [start], 0, 0, map[]);
    }
    var dist, parent, queue, done, visitedCount := Search(next, start, goal, universe);
    if |queue| > 0 {
      r := GoalReached(next, start, goal, universe, dist, parent, done, queue, visitedCount);
      return;
    }
    Unreached(next, start, goal, universe, dist, parent, done);
    return PathResult(false, [], 0, visitedCount, dist);
  }

  /** `FloodFill`: labels exactly the cells reachable from the start, each
      with the number of steps of a shortest walk to it. */
  method FloodFill<T(==,!new)>(next: T -> seq<T>, start: T, ghost universe: set<T>)
    returns (dist: map<T, int>)
    requires Closed(next, universe) && start in universe
    ensures DistanceLabels(next, start, dist)
    ensures forall w :: IsWalk(next, w) && w[0] == start ==> Last(w) in dist && dist[Last(w)] <= |w| - 1
    ensures forall c :: c in dist ==> Reachable(next, start, c)
    ensures dist.Keys <= universe
  {
    var parent;
    ghost var done;
    dist, parent, done := Flood(next, start, universe);
    FloodLabels(next, start, universe, dist, parent, done);
  }

  /** The loop of `FloodFill`: expand rounds until the queue runs empty. */
  method Flood<T(==)>(next: T -> seq<T>, start: T, ghost universe: set<T>)
    returns (dist: map<T, int>, parent: map<T, T>, ghost done: set<T>)
    requires Closed(next, universe) && start in universe
    ensures Searching(next, start, universe, dist, parent, done, [])
  {
    var queue := [start];
    dist := map[start := 0];
    parent := map[];
    done := {};
    SearchStart(next, start, universe);
    while |queue| > 0
      invariant Searching(next, start, universe, dist, parent, done, queue)
      decreases |universe - dist.Keys|, |queue|
    {
      var current := queue[0];
      dist, parent, queue := Round(next, start, universe, dist, parent, done, queue);
      done := done + {current};
    }
  }

  /** Once the queue is empty the labels are the shortest distances, and
      they cover exactly the reachable cells. */
  lemma FloodLabels<T(!new)>(next: T -> seq<T>, start: T, universe: set<T>, dist: map<T, int>,
                             parent: map<T, T>, done: set<T>)
    requires Searching(next, start, universe, dist, parent, done, [])
    ensures DistanceLabels(next, start, dist)
    ensures forall w :: IsWalk(next, w) && w[0] == start ==> Last(w) in dist && dist[Last(w)] <= |w| - 1
    ensures forall c :: c in dist ==> Reachable(next, start, c)
  {
    forall w | IsWalk(next, w) && w[0] == start
      ensures Last(w) in dist && dist[Last(w)] <= |w| - 1
    {
      ExhaustedLabelsEverything(next, start, dist, done, w);
    }
    forall c | c in dist
      ensures Reachable(next, start, c)
    {
      var w := ParentWalk(next, start, dist, parent, c);
    }
    ParentLabelledDistanceLabels(next, start, dist, parent);
  }
}
