/** `FindAllShortestPaths`: a breadth-first search whose queue holds whole
    paths rather than positions. `visited` records, for each position, the
    length of the path that last extended to it; a neighbour is appended
    only when it is new or was recorded at a length no shorter than the
    current path. The first path to reach the goal fixes the length every
    later answer must have.

    Termination is not evident from the loop itself: the search is given a
    finite set of positions closed under successors, as the other searches
    are, and a bound on the number of successors of each of its members. */
module AllShortestPaths {
  import opened Walks

  /** A queued path: a walk from the start without repeated positions, each
      of whose positions is recorded in `visited` at no more than its index. */
  predicate Queued<T(==)>(next: T -> seq<T>, start: T, visited: map<T, int>, p: seq<T>) {
    IsWalk(next, p) && p[0] == start && Distinct(p)
    && forall k :: 0 <= k < |p| ==> p[k] in visited && visited[p[k]] <= k
  }

  /** `visited'` records everything `visited` does, at no greater length. */
  predicate Lowered<T(==)>(visited: map<T, int>, visited': map<T, int>) {
    visited.Keys <= visited'.Keys && forall c :: c in visited ==> visited'[c] <= visited[c]
  }

  lemma QueuedLowered<T>(next: T -> seq<T>, start: T, visited: map<T, int>,
                         visited': map<T, int>, p: seq<T>)
    requires Queued(next, start, visited, p) && Lowered(visited, visited')
    ensures Queued(next, start, visited', p)
  {
    forall k | 0 <= k < |p|
      ensures p[k] in visited' && visited'[p[k]] <= k
    {
      assert p[k] in visited;
    }
  }

  /** A sequence without repeats drawn from a set is no longer than the set. */
  lemma {:induction false} DistinctBound<T>(s: seq<T>, u: set<T>)
    requires Distinct(s) && forall k :: 0 <= k < |s| ==> s[k] in u
    ensures |s| <= |u|
    decreases |s|
  {
    if |s| > 0 {
      var rest := s[1..];
      assert Distinct(rest) by {
        forall i, j | 0 <= i < j < |rest|
          ensures rest[i] != rest[j]
        {
          assert rest[i] == s[i + 1] && rest[j] == s[j + 1];
        }
      }
      forall k | 0 <= k < |rest|
        ensures rest[k] in u - {s[0]}
      {
        assert rest[k] == s[k + 1];
      }
      DistinctBound(rest, u - {s[0]});
    }
  }

  /** A queued path stays inside a closed set holding the start, so it is no
      longer than that set. */
  lemma QueuedBounded<T>(next: T -> seq<T>, start: T, universe: set<T>, visited: map<T, int>,
                         p: seq<T>)
    requires Closed(next, universe) && start in universe
    requires Queued(next, start, visited, p)
    ensures |p| <= |universe|
  {
    WalkStaysInside(next, universe, p);
    DistinctBound(p, universe);
  }

  // ---- the termination measure ----

  function Power(base: nat, e: nat): (p: nat)
    ensures base >= 1 ==> p >= 1
  {
    if e == 0 then 1 else base * Power(base, e - 1)
  }

  /** A path of length `len` can still grow `n - len` times, each time into
      at most `b` paths; its weight outweighs everything it can turn into. */
  function Weight<T>(p: seq<T>, n: nat, b: nat): nat {
    if |p| <= n then Power(b + 1, n - |p|) else 0
  }

  function Total<T>(q: seq<seq<T>>, n: nat, b: nat): nat {
    if |q| == 0 then 0 else Weight(q[0], n, b) + Total(q[1..], n, b)
  }

  lemma {:induction false} TotalAppend<T>(q1: seq<seq<T>>, q2: seq<seq<T>>, n: nat, b: nat)
    ensures Total(q1 + q2, n, b) == Total(q1, n, b) + Total(q2, n, b)
    decreases |q1|
  {
    if |q1| > 0 {
      assert (q1 + q2)[1..] == q1[1..] + q2;
      TotalAppend(q1[1..], q2, n, b);
    } else {
      assert q1 + q2 == q2;
    }
  }

  lemma {:induction false} TotalOfSameLength<T>(q: seq<seq<T>>, len: nat, n: nat, b: nat)
    requires len <= n && forall j :: 0 <= j < |q| ==> |q[j]| == len
    ensures Total(q, n, b) == |q| * Power(b + 1, n - len)
    decreases |q|
  {
    if |q| > 0 {
      TotalOfSameLength(q[1..], len, n, b);
    }
  }

  /** Replacing the head path by at most `b` paths one longer shrinks the total. */
  lemma ExtendShrinks<T>(queue: seq<seq<T>>, added: seq<seq<T>>, n: nat, b: nat)
    requires |queue| > 0 && |queue[0]| <= n && |added| <= b
    requires forall j :: 0 <= j < |added| ==> |added[j]| == |queue[0]| + 1 <= n
    ensures Total(queue[1..] + added, n, b) < Total(queue, n, b)
  {
    TotalAppend(queue[1..], added, n, b);
    var len := |queue[0]|;
    assert Total(queue, n, b) == Power(b + 1, n - len) + Total(queue[1..], n, b);
    if |added| > 0 {
      var p := Power(b + 1, n - len - 1);
      TotalOfSameLength(added, len + 1, n, b);
      assert Power(b + 1, n - len) == (b + 1) * p;
      FewerTimes(|added|, b, p);
    }
  }

  lemma FewerTimes(a: nat, b: nat, p: nat)
    requires a <= b && p >= 1
    ensures a * p < (b + 1) * p
  {
    assert (b + 1) * p == b * p + p;
    assert a * p <= b * p;
  }

  // ---- the search ----

  /** The inner loop: appends every neighbour of the path's last position
      that is new or was recorded at a length no shorter than the path's,
      recording it at the path's length. */
  method Extend<T(==)>(next: T -> seq<T>, start: T, visited: map<T, int>, path: seq<T>)
    returns (visited': map<T, int>, added: seq<seq<T>>)
    requires Queued(next, start, visited, path)
    ensures Lowered(visited, visited')
    ensures |added| <= |next(Last(path))|
    ensures forall j :: 0 <= j < |added| ==>
              Queued(next, start, visited', added[j]) && |added[j]| == |path| + 1
              && added[j][..|path|] == path && Last(added[j]) in next(Last(path))
    ensures forall n :: n in next(Last(path)) && (n !in visited || visited[n] >= |path|) ==>
              path + [n] in added
    ensures forall c :: c in visited' && (c !in visited || visited'[c] != visited[c]) ==>
              visited'[c] == |path| && c in next(Last(path))
  {
    var ns := next(Last(path));
    var len := |path|;
    visited', added := visited, [];
    var i := 0;
    while i < |ns|
      invariant 0 <= i <= |ns| && |added| <= i
      invariant Lowered(visited, visited')
      invariant forall j :: 0 <= j < |added| ==>
                  Queued(next, start, visited', added[j]) && |added[j]| == len + 1
                  && added[j][..len] == path && Last(added[j]) in ns
      invariant forall j :: 0 <= j < i && (ns[j] !in visited || visited[ns[j]] >= len) ==>
                  path + [ns[j]] in added
      invariant forall c :: c in visited' && (c !in visited || visited'[c] != visited[c]) ==>
                  visited'[c] == len && c in ns
    {
      var n := ns[i];
      if n !in visited' || visited'[n] >= len {
        var v := visited'[n := len];
        assert Lowered(visited', v);
        forall j | 0 <= j < |added|
          ensures Queued(next, start, v, added[j])
        {
          QueuedLowered(next, start, visited', v, added[j]);
        }
        var p := path + [n];
        ExtendWalk(next, path, n);
        forall k | 0 <= k < len
          ensures p[k] == path[k] && p[k] != n && p[k] in v && v[p[k]] <= k
        {
          assert path[k] in visited;
        }
        assert Queued(next, start, v, p);
        assert p[..len] == path;
        visited' := v;
        added := added + [p];
      }
      i := i + 1;
    }
    forall n | n in ns && (n !in visited || visited[n] >= len)
      ensures path + [n] in added
    {
      var j :| 0 <= j < |ns| && ns[j] == n;
    }
  }

  // ---- shortest walks ----

  /** A walk from `start` to `goal`. */
  predicate GoalWalk<T(==)>(next: T -> seq<T>, start: T, goal: T, w: seq<T>) {
    IsWalk(next, w) && w[0] == start && Last(w) == goal
  }

  /** A walk from `start` to `goal` than which no such walk is shorter. */
  ghost predicate ShortestWalk<T(!new)>(next: T -> seq<T>, start: T, goal: T, w: seq<T>) {
    GoalWalk(next, start, goal, w) && forall v :: GoalWalk(next, start, goal, v) ==> |w| <= |v|
  }

  /** Whenever the goal can be reached, some walk to it is shortest. */
  lemma ShortestExists<T(!new)>(next: T -> seq<T>, start: T, goal: T, v: seq<T>)
    returns (w: seq<T>)
    requires GoalWalk(next, start, goal, v)
    ensures ShortestWalk(next, start, goal, w) && |w| <= |v|
  {
    w := v;
    while exists u :: GoalWalk(next, start, goal, u) && |u| < |w|
      invariant GoalWalk(next, start, goal, w) && |w| <= |v|
      decreases |w|
    {
      var u :| GoalWalk(next, start, goal, u) && |u| < |w|;
      w := u;
    }
  }

  /** A shortest walk is shortest to each of its positions: no walk from the
      start reaches its `k`-th position in fewer than `k` steps, or the rest
      of it would make a shorter walk to the goal. */
  lemma ShortestPrefix<T(!new)>(next: T -> seq<T>, start: T, goal: T, w: seq<T>, k: int,
                                v: seq<T>)
    requires ShortestWalk(next, start, goal, w) && 0 <= k < |w|
    requires IsWalk(next, v) && v[0] == start && Last(v) == w[k]
    ensures k + 1 <= |v|
  {
    var u := v + w[k + 1..];
    forall i | 0 <= i < |u| - 1
      ensures Step(next, u[i], u[i + 1])
    {
      if i < |v| - 1 {
        assert u[i] == v[i] && u[i + 1] == v[i + 1];
      } else if i == |v| - 1 {
        assert u[i] == w[k] && u[i + 1] == w[k + 1];
      } else {
        var m := i - |v| + k + 1;
        assert u[i] == w[m] && u[i + 1] == w[m + 1] && Step(next, w[m], w[m + 1]);
      }
    }
    assert Last(u) == goal;
    assert GoalWalk(next, start, goal, u);
  }

  // ---- the search invariant ----

  /** Every answer is a walk from the start to the goal without repeated
      positions, and all answers have the same length. */
  predicate Answers<T(==)>(next: T -> seq<T>, start: T, goal: T, shortest: int,
                           paths: seq<seq<T>>)
  {
    (shortest == -1 ==> paths == [])
    && forall i :: 0 <= i < |paths| ==>
         IsWalk(next, paths[i]) && paths[i][0] == start && Last(paths[i]) == goal
         && Distinct(paths[i]) && |paths[i]| == shortest
  }

  /** Once an answer exists, `shortest` is its length and no walk to the
      goal is shorter. */
  ghost predicate Fixed<T(!new)>(next: T -> seq<T>, start: T, goal: T, shortest: int,
                                 paths: seq<seq<T>>)
  {
    (shortest == -1 <==> paths == [])
    && (shortest != -1 ==> forall v :: GoalWalk(next, start, goal, v) ==> shortest <= |v|)
  }

  /** The queue holds paths in non-decreasing length, none more than one
      position longer than the head. */
  predicate LengthsOrdered<T>(queue: seq<seq<T>>) {
    && (forall i, j :: 0 <= i < j < |queue| ==> |queue[i]| <= |queue[j]|)
    && (forall j :: 0 <= j < |queue| ==> |queue[j]| <= |queue[0]| + 1)
  }

  /** Every shortest walk is an answer already or has a prefix still queued. */
  ghost predicate Pending<T(!new)>(next: T -> seq<T>, start: T, goal: T, paths: seq<seq<T>>,
                                   queue: seq<seq<T>>)
  {
    forall w :: ShortestWalk(next, start, goal, w) ==>
      w in paths || exists k :: 1 <= k <= |w| && w[..k] in queue
  }

  /** No position of a shortest walk is recorded at a length below its index,
      so the prefix of a shortest walk is never refused an extension. */
  ghost predicate NotOvertaken<T(!new)>(next: T -> seq<T>, start: T, goal: T,
                                        visited: map<T, int>)
  {
    forall w, k :: ShortestWalk(next, start, goal, w) && 0 <= k < |w| && w[k] in visited ==>
      visited[w[k]] >= k
  }

  /** A queued element is the head or in the rest. */
  lemma InQueue<T>(queue: seq<seq<T>>, p: seq<T>)
    requires p in queue
    ensures p == queue[0] || p in queue[1..]
  {
    assert queue == [queue[0]] + queue[1..];
  }

  lemma StartState<T(!new)>(next: T -> seq<T>, start: T, goal: T)
    ensures Pending(next, start, goal, [], [[start]])
    ensures NotOvertaken(next, start, goal, map[start := 0])
  {
    forall w | ShortestWalk(next, start, goal, w)
      ensures w[..1] in [[start]]
    {
      assert w[..1] == [start];
    }
    forall w, k | ShortestWalk(next, start, goal, w) && 0 <= k < |w| && w[k] in map[start := 0]
      ensures map[start := 0][w[k]] >= k
    {
      ShortestPrefix(next, start, goal, w, k, [start]);
    }
  }

  /** A path longer than the answers is dropped: no shortest walk needed it. */
  lemma SkipKeeps<T(!new)>(next: T -> seq<T>, start: T, goal: T, shortest: int,
                           paths: seq<seq<T>>, queue: seq<seq<T>>)
    requires Answers(next, start, goal, shortest, paths) && Fixed(next, start, goal, shortest, paths)
    requires Pending(next, start, goal, paths, queue) && LengthsOrdered(queue)
    requires |queue| > 0 && shortest != -1 && |queue[0]| > shortest
    ensures Pending(next, start, goal, paths, queue[1..]) && LengthsOrdered(queue[1..])
  {
    forall w | ShortestWalk(next, start, goal, w) && w !in paths
      ensures exists k :: 1 <= k <= |w| && w[..k] in queue[1..]
    {
      var k :| 1 <= k <= |w| && w[..k] in queue;
      InQueue(queue, w[..k]);
      if w[..k] == queue[0] {
        assert GoalWalk(next, start, goal, paths[0]);
        assert false;
      }
    }
  }

  /** A path that ends at the goal is an answer: the first one fixes the
      length, which no walk to the goal undercuts, since every shortest
      walk still has a prefix queued no longer than the head. */
  lemma GoalFixes<T(!new)>(next: T -> seq<T>, start: T, goal: T, shortest: int,
                           paths: seq<seq<T>>, queue: seq<seq<T>>)
    requires Answers(next, start, goal, shortest, paths) && Fixed(next, start, goal, shortest, paths)
    requires Pending(next, start, goal, paths, queue) && LengthsOrdered(queue)
    requires |queue| > 0 && GoalWalk(next, start, goal, queue[0])
    requires !(shortest != -1 && |queue[0]| > shortest)
    ensures forall v :: GoalWalk(next, start, goal, v) ==> |queue[0]| <= |v|
    ensures shortest != -1 ==> shortest == |queue[0]|
  {
    var path := queue[0];
    forall v | GoalWalk(next, start, goal, v)
      ensures |path| <= |v|
    {
      if shortest == -1 && |v| < |path| {
        var w := ShortestExists(next, start, goal, v);
        assert false;
      }
    }
  }

  /** Once the head path is an answer, every shortest walk still is one or
      keeps a prefix in the rest of the queue. */
  lemma GoalKeepsPending<T(!new)>(next: T -> seq<T>, start: T, goal: T, paths: seq<seq<T>>,
                                  queue: seq<seq<T>>)
    requires Pending(next, start, goal, paths, queue)
    requires |queue| > 0 && GoalWalk(next, start, goal, queue[0])
    ensures Pending(next, start, goal, paths + [queue[0]], queue[1..])
  {
    var path := queue[0];
    var paths' := paths + [path];
    forall w | ShortestWalk(next, start, goal, w)
      ensures w in paths' || exists k :: 1 <= k <= |w| && w[..k] in queue[1..]
    {
      if w !in paths {
        var k :| 1 <= k <= |w| && w[..k] in queue;
        InQueue(queue, w[..k]);
        if w[..k] == path {
          assert GoalWalk(next, start, goal, w[..k]);
          assert w[..k] == w;
        }
      }
    }
  }

  /** A path that does not end at the goal is extended: the lengths
      recorded stay below no shortest walk's index, since each new record
      comes with a walk that long. */
  lemma ExtendKeepsRecords<T(!new)>(next: T -> seq<T>, start: T, goal: T, path: seq<T>,
                                    visited: map<T, int>, visited': map<T, int>)
    requires NotOvertaken(next, start, goal, visited)
    requires IsWalk(next, path) && path[0] == start
    requires forall c :: c in visited' && (c !in visited || visited'[c] != visited[c]) ==>
               visited'[c] == |path| && c in next(Last(path))
    ensures NotOvertaken(next, start, goal, visited')
  {
    forall w, k | ShortestWalk(next, start, goal, w) && 0 <= k < |w| && w[k] in visited'
      ensures visited'[w[k]] >= k
    {
      var c := w[k];
      if c !in visited || visited'[c] != visited[c] {
        ExtendWalk(next, path, c);
        ShortestPrefix(next, start, goal, w, k, path + [c]);
      }
    }
  }

  /** Extending the head path gives the prefix of a shortest walk its next
      position, which nothing recorded refuses. */
  lemma ExtendKeepsPending<T(!new)>(next: T -> seq<T>, start: T, goal: T, paths: seq<seq<T>>,
                                    queue: seq<seq<T>>, visited: map<T, int>, added: seq<seq<T>>)
    requires Pending(next, start, goal, paths, queue) && NotOvertaken(next, start, goal, visited)
    requires |queue| > 0 && |queue[0]| > 0 && Last(queue[0]) != goal
    requires forall n :: n in next(Last(queue[0])) && (n !in visited || visited[n] >= |queue[0]|) ==>
               queue[0] + [n] in added
    ensures Pending(next, start, goal, paths, queue[1..] + added)
  {
    var path := queue[0];
    var queue' := queue[1..] + added;
    forall w | ShortestWalk(next, start, goal, w) && w !in paths
      ensures exists k :: 1 <= k <= |w| && w[..k] in queue'
    {
      var k :| 1 <= k <= |w| && w[..k] in queue;
      InQueue(queue, w[..k]);
      if w[..k] == path {
        assert k < |w|;
        assert Step(next, w[k - 1], w[k]);
        assert path + [w[k]] == w[..k + 1];
        assert w[..k + 1] in queue';
      } else {
        assert w[..k] in queue';
      }
    }
  }

  /** Appending paths one longer than the head keeps the queue ordered. */
  lemma ExtendKeepsOrder<T>(queue: seq<seq<T>>, added: seq<seq<T>>)
    requires LengthsOrdered(queue) && |queue| > 0
    requires forall j :: 0 <= j < |added| ==> |added[j]| == |queue[0]| + 1
    ensures LengthsOrdered(queue[1..] + added)
  {
    var queue' := queue[1..] + added;
    var rest := queue[1..];
    forall i, j | 0 <= i < j < |queue'|
      ensures |queue'[i]| <= |queue'[j]|
    {
      if i < |rest| {
        assert queue'[i] == queue[i + 1];
      }
      if j < |rest| {
        assert queue'[j] == queue[j + 1];
      }
    }
  }

  /** The invariant of `FindAllShortestPaths`' main loop. */
  ghost predicate Searching<T(!new)>(next: T -> seq<T>, start: T, goal: T, visited: map<T, int>,
                                     shortest: int, paths: seq<seq<T>>, queue: seq<seq<T>>)
  {
    && (forall j :: 0 <= j < |queue| ==> Queued(next, start, visited, queue[j]))
    && Answers(next, start, goal, shortest, paths) && Fixed(next, start, goal, shortest, paths)
    && LengthsOrdered(queue)
    && Pending(next, start, goal, paths, queue) && NotOvertaken(next, start, goal, visited)
  }

  lemma SkipStep<T(!new)>(next: T -> seq<T>, start: T, goal: T, visited: map<T, int>,
                          shortest: int, paths: seq<seq<T>>, queue: seq<seq<T>>)
    requires Searching(next, start, goal, visited, shortest, paths, queue)
    requires |queue| > 0 && shortest != -1 && |queue[0]| > shortest
    ensures Searching(next, start, goal, visited, shortest, paths, queue[1..])
  {
    SkipKeeps(next, start, goal, shortest, paths, queue);
  }

  lemma GoalStep<T(!new)>(next: T -> seq<T>, start: T, goal: T, visited: map<T, int>,
                          shortest: int, paths: seq<seq<T>>, queue: seq<seq<T>>)
    requires Searching(next, start, goal, visited, shortest, paths, queue)
    requires |queue| > 0 && !(shortest != -1 && |queue[0]| > shortest) && Last(queue[0]) == goal
    ensures shortest == -1 || shortest == |queue[0]|
    ensures Searching(next, start, goal, visited, |queue[0]|, paths + [queue[0]], queue[1..])
  {
    assert Queued(next, start, visited, queue[0]);
    GoalFixes(next, start, goal, shortest, paths, queue);
    GoalKeepsPending(next, start, goal, paths, queue);
  }

  lemma ExtendStep<T(!new)>(next: T -> seq<T>, start: T, goal: T, visited: map<T, int>,
                            shortest: int, paths: seq<seq<T>>, queue: seq<seq<T>>,
                            visited': map<T, int>, added: seq<seq<T>>)
    requires Searching(next, start, goal, visited, shortest, paths, queue)
    requires |queue| > 0 && Last(queue[0]) != goal
    requires Lowered(visited, visited')
    requires forall j :: 0 <= j < |added| ==>
               Queued(next, start, visited', added[j]) && |added[j]| == |queue[0]| + 1
    requires forall n :: n in next(Last(queue[0])) && (n !in visited || visited[n] >= |queue[0]|) ==>
               queue[0] + [n] in added
    requires forall c :: c in visited' && (c !in visited || visited'[c] != visited[c]) ==>
               visited'[c] == |queue[0]| && c in next(Last(queue[0]))
    ensures Searching(next, start, goal, visited', shortest, paths, queue[1..] + added)
  {
    var path := queue[0];
    assert Queued(next, start, visited, path);
    ExtendKeepsRecords(next, start, goal, path, visited, visited');
    ExtendKeepsPending(next, start, goal, paths, queue, visited, added);
    ExtendKeepsOrder(queue, added);
    ExtendKeepsQueued(next, start, queue, visited, visited', added);
  }

  /** The rest of the queue stays queued under the lowered records, and so
      do the extensions. */
  lemma ExtendKeepsQueued<T>(next: T -> seq<T>, start: T, queue: seq<seq<T>>,
                             visited: map<T, int>, visited': map<T, int>, added: seq<seq<T>>)
    requires |queue| > 0 && forall j :: 0 <= j < |queue| ==> Queued(next, start, visited, queue[j])
    requires Lowered(visited, visited')
    requires forall j :: 0 <= j < |added| ==> Queued(next, start, visited', added[j])
    ensures forall j :: 0 <= j < |queue[1..] + added| ==>
              Queued(next, start, visited', (queue[1..] + added)[j])
  {
    var queue' := queue[1..] + added;
    forall j | 0 <= j < |queue'|
      ensures Queued(next, start, visited', queue'[j])
    {
      if j < |queue| - 1 {
        assert queue'[j] == queue[j + 1];
        QueuedLowered(next, start, visited, visited', queue[j + 1]);
      } else {
        assert queue'[j] == added[j - |queue| + 1];
      }
    }
  }

  /** With the queue empty every shortest walk is an answer: the answers
      are exactly the shortest walks. */
  lemma Finished<T(!new)>(next: T -> seq<T>, start: T, goal: T, visited: map<T, int>,
                          shortest: int, paths: seq<seq<T>>)
    requires Searching(next, start, goal, visited, shortest, paths, [])
    ensures forall i :: 0 <= i < |paths| ==>
              GoalWalk(next, start, goal, paths[i]) && Distinct(paths[i])
    ensures forall i, v :: 0 <= i < |paths| && GoalWalk(next, start, goal, v) ==> |paths[i]| <= |v|
    ensures forall i, j :: 0 <= i < |paths| && 0 <= j < |paths| ==> |paths[i]| == |paths[j]|
    ensures |paths| > 0 ==> forall w :: GoalWalk(next, start, goal, w) && |w| == |paths[0]| ==>
                              w in paths
    ensures |paths| == 0 <==> !Reachable(next, start, goal)
  {
    if Reachable(next, start, goal) {
      var v :| IsWalk(next, v) && v[0] == start && Last(v) == goal;
      var w := ShortestExists(next, start, goal, v);
    }
    if |paths| > 0 {
      assert GoalWalk(next, start, goal, paths[0]);
    }
  }

  /** `FindAllShortestPaths`. The answers are exactly the shortest walks
      from start to goal: each is a walk from start to goal that repeats no
      position, no walk from start to goal is shorter, every walk from start
      to goal of the answers' length is among them, and there are none
      exactly when the goal cannot be reached. */
  method FindAllShortestPaths<T(==,!new)>(next: T -> seq<T>, start: T, goal: T,
                                          ghost universe: set<T>, ghost branching: nat)
    returns (paths: seq<seq<T>>)
    requires Closed(next, universe) && start in universe
    requires forall c :: c in universe ==> |next(c)| <= branching
    ensures start == goal ==> paths == [[start]]
    ensures forall i :: 0 <= i < |paths| ==>
              GoalWalk(next, start, goal, paths[i]) && Distinct(paths[i])
    ensures forall i, v :: 0 <= i < |paths| && GoalWalk(next, start, goal, v) ==> |paths[i]| <= |v|
    ensures forall i, j :: 0 <= i < |paths| && 0 <= j < |paths| ==> |paths[i]| == |paths[j]|
    ensures |paths| > 0 ==> forall w :: GoalWalk(next, start, goal, w) && |w| == |paths[0]| ==>
                              w in paths
    ensures |paths| == 0 <==> !Reachable(next, start, goal)
  {
    if start == goal {
      assert GoalWalk(next, start, goal, [start]);
      forall w | GoalWalk(next, start, goal, w) && |w| == 1
        ensures w == [start]
      {
      }
      return [[start]];
    }
    var queue := [[start]];
    var visited := map[start := 0];
    paths := [];
    var shortest := -1;
    ghost var n := |universe|;
    StartState(next, start, goal);
    assert Queued(next, start, visited, [start]);
    while |queue| > 0
      invariant Searching(next, start, goal, visited, shortest, paths, queue)
      decreases Total(queue, n, branching)
    {
      var path := queue[0];
      assert Queued(next, start, visited, path);
      QueuedBounded(next, start, universe, visited, path);
      if shortest != -1 && |path| > shortest {
        SkipStep(next, start, goal, visited, shortest, paths, queue);
        ExtendShrinks(queue, [], n, branching);
        queue := queue[1..];
        assert queue + [] == queue;
        continue;
      }
      var current := Last(path);
      if current == goal {
        GoalStep(next, start, goal, visited, shortest, paths, queue);
        ExtendShrinks(queue, [], n, branching);
        queue := queue[1..];
        assert queue + [] == queue;
        if shortest == -1 {
          shortest := |path|;
        }
        if |path| == shortest {
          paths := paths + [path];
        }
        continue;
      }
      var visited', added := Extend(next, start, visited, path);
      ExtendStep(next, start, goal, visited, shortest, paths, queue, visited', added);
      WalkStaysInside(next, universe, path);
      forall j | 0 <= j < |added|
        ensures |added[j]| == |path| + 1 <= n
      {
        QueuedBounded(next, start, universe, visited', added[j]);
      }
      ExtendShrinks(queue, added, n, branching);
      queue := queue[1..] + added;
      visited := visited';
    }
    Finished(next, start, goal, visited, shortest, paths);
  }
}
