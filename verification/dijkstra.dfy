/** `util.Dijkstra`: least-cost search with lazy deletion. The frontier is a
    `Heaps.MinHeap` of (position, tentative cost) items; a popped item whose
    position is already settled is skipped, and a position is relaxed again
    by pushing a new, cheaper item rather than updating the old one.

    The search is generic over the successor function (`GetNeighbors`) and
    the edge cost (`GetCost`); as for `BFS`, the caller supplies a finite
    set of positions, closed under successors, that contains the start. */
module Dijkstras {
  import opened Walks
  import opened Heaps
  import opened BreadthFirst

  /** A walk each step of which has a non-negative cost: the moves the search
      may take, since a negative cost marks an invalid move. */
  predicate UsableWalk<T(==)>(next: T -> seq<T>, cost: (T, T) -> int, w: seq<T>) {
    IsWalk(next, w) && forall i :: 0 <= i < |w| - 1 ==> cost(w[i], w[i + 1]) >= 0
  }

  /** The summed cost of a walk's steps. */
  function WalkCost<T>(cost: (T, T) -> int, w: seq<T>): int
    decreases |w|
  {
    if |w| <= 1 then 0 else WalkCost(cost, w[..|w| - 1]) + cost(w[|w| - 2], w[|w| - 1])
  }

  /** A prefix of a walk whose steps cost nothing negative costs no more
      than the whole walk. */
  lemma {:induction false} WalkCostPrefix<T>(cost: (T, T) -> int, w: seq<T>, j: int)
    requires 1 <= j <= |w|
    requires forall i :: 0 <= i < |w| - 1 ==> cost(w[i], w[i + 1]) >= 0
    ensures WalkCost(cost, w[..j]) <= WalkCost(cost, w)
    decreases |w|
  {
    if j < |w| {
      var front := w[..|w| - 1];
      assert front[..j] == w[..j];
      forall i | 0 <= i < |front| - 1
        ensures cost(front[i], front[i + 1]) >= 0
      {
        assert front[i] == w[i] && front[i + 1] == w[i + 1];
      }
      WalkCostPrefix(cost, front, j);
    } else {
      assert w[..j] == w;
    }
  }

  /** A usable walk costs nothing negative. */
  lemma UsableWalkCost<T>(next: T -> seq<T>, cost: (T, T) -> int, w: seq<T>)
    requires UsableWalk(next, cost, w)
    ensures WalkCost(cost, w) >= 0
  {
    WalkCostPrefix(cost, w, 1);
  }

  /** A usable walk's prefix is a usable walk, one step dearer each time it
      grows. */
  lemma UsablePrefix<T>(next: T -> seq<T>, cost: (T, T) -> int, w: seq<T>, i: int)
    requires UsableWalk(next, cost, w) && 1 <= i < |w|
    ensures UsableWalk(next, cost, w[..i]) && w[..i][0] == w[0] && Last(w[..i]) == w[i - 1]
    ensures WalkCost(cost, w[..i + 1]) == WalkCost(cost, w[..i]) + cost(w[i - 1], w[i])
    ensures WalkCost(cost, w[..i + 1]) <= WalkCost(cost, w)
  {
    var p := w[..i];
    forall k | 0 <= k < |p| - 1
      ensures Step(next, p[k], p[k + 1]) && cost(p[k], p[k + 1]) >= 0
    {
      assert p[k] == w[k] && p[k + 1] == w[k + 1];
    }
    assert w[..i + 1][..i] == p;
    WalkCostPrefix(cost, w, i + 1);
  }

  /** A set that keeps every usable step of its members. */
  predicate UsablyClosed<T(==)>(next: T -> seq<T>, cost: (T, T) -> int, s: set<T>) {
    forall c, n :: c in s && n in next(c) && cost(c, n) >= 0 ==> n in s
  }

  /** A usable walk that starts inside a usably closed set never leaves it. */
  lemma UsableWalkStaysInside<T>(next: T -> seq<T>, cost: (T, T) -> int, s: set<T>, w: seq<T>)
    requires UsablyClosed(next, cost, s)
    requires UsableWalk(next, cost, w) && w[0] in s
    ensures forall k :: 0 <= k < |w| ==> w[k] in s
  {
    var k := 0;
    while k < |w| - 1
      invariant 0 <= k < |w|
      invariant forall j :: 0 <= j <= k ==> w[j] in s
    {
      assert Step(next, w[k], w[k + 1]);
      k := k + 1;
    }
  }

  // ---- the frontier ----

  /** Every queued item names a labelled position and costs at least its label. */
  predicate QueueSound<T(==)>(dist: map<T, int>, pq: MinHeap<T>) {
    forall it :: it in pq.items ==> it.value in dist && it.priority >= dist[it.value]
  }

  /** Every labelled, unsettled position is queued at exactly its label. */
  predicate QueueComplete<T(==)>(dist: map<T, int>, settled: set<T>, pq: MinHeap<T>) {
    forall c :: c in dist && c !in settled ==> Item(c, dist[c]) in pq.items
  }

  /** Popping a position that is not yet settled yields it at its label,
      and the rest of the heap still queues every other unsettled position. */
  lemma PopUnsettled<T>(dist: map<T, int>, settled: set<T>, pq: MinHeap<T>)
    requires QueueSound(dist, pq) && QueueComplete(dist, settled, pq) && MinLen(pq) > 0
    requires MinPopItem(pq).0.value !in settled
    ensures var (item, rest) := MinPopItem(pq);
            item.value in dist && item.priority == dist[item.value]
            && QueueSound(dist, rest) && QueueComplete(dist, settled + {item.value}, rest)
  {
    var popped := MinPopItem(pq);
    var item, rest := popped.0, popped.1;
    assert item in multiset(pq.items);
    var c := item.value;
    var mine := Item(c, dist[c]);
    assert mine in multiset(pq.items);
    forall it | it in rest.items
      ensures it.value in dist && it.priority >= dist[it.value]
    {
      assert it in multiset(rest.items);
      assert it in multiset(pq.items);
    }
    forall c' | c' in dist && c' !in settled + {c}
      ensures Item(c', dist[c']) in rest.items
    {
      assert Item(c', dist[c']) in multiset(pq.items);
    }
  }

  /** Popping a settled position (a stale item) keeps the frontier's facts. */
  lemma PopSettled<T>(dist: map<T, int>, settled: set<T>, pq: MinHeap<T>)
    requires QueueSound(dist, pq) && QueueComplete(dist, settled, pq) && MinLen(pq) > 0
    requires MinPopItem(pq).0.value in settled
    ensures QueueSound(dist, MinPopItem(pq).1) && QueueComplete(dist, settled, MinPopItem(pq).1)
  {
    var popped := MinPopItem(pq);
    var item, rest := popped.0, popped.1;
    forall it | it in rest.items
      ensures it.value in dist && it.priority >= dist[it.value]
    {
      assert it in multiset(rest.items);
      assert it in multiset(pq.items);
    }
    forall c' | c' in dist && c' !in settled
      ensures Item(c', dist[c']) in rest.items
    {
      assert Item(c', dist[c']) in multiset(pq.items);
    }
  }

  // ---- relaxing the edges out of one settled position ----

  /** Position `c` was just given the cost of reaching it through `current`,
      and pushed at that cost. */
  predicate Improved<T(==)>(next: T -> seq<T>, cost: (T, T) -> int, current: T, d: int,
                            settled: set<T>, c: T, dist: map<T, int>, parent: map<T, T>,
                            pushed: seq<Item<T>>)
    requires c in dist
  {
    c in next(current) && c !in settled && cost(current, c) >= 0
    && dist[c] == d + cost(current, c)
    && c in parent && parent[c] == current && Item(c, dist[c]) in pushed
  }

  /** What relaxing `current`'s edges may change, given the labels and
      parents before and after and the items pushed: labels only fall, and
      only by an improvement through `current`; parents move only with
      their labels; each pushed item costs at least its position's label. */
  predicate RelaxSound<T(==)>(next: T -> seq<T>, cost: (T, T) -> int, current: T, d: int,
                              settled: set<T>, dist: map<T, int>, parent: map<T, T>,
                              dist': map<T, int>, parent': map<T, T>, pushed: seq<Item<T>>)
  {
    && dist.Keys <= dist'.Keys && parent.Keys <= parent'.Keys
    && LabelsFall(dist, dist')
    && ChangesImprove(next, cost, current, d, settled, dist, dist', parent', pushed)
    && ParentsFollowLabels(dist, parent, dist', parent')
    && PushesSound(dist', pushed)
  }

  /** Every changed label is an improvement through `current`. */
  predicate ChangesImprove<T(==)>(next: T -> seq<T>, cost: (T, T) -> int, current: T, d: int,
                                  settled: set<T>, dist: map<T, int>, dist': map<T, int>,
                                  parent': map<T, T>, pushed: seq<Item<T>>)
  {
    forall c :: c in dist' && (c !in dist || dist'[c] != dist[c]) ==>
      Improved(next, cost, current, d, settled, c, dist', parent', pushed)
  }

  predicate LabelsFall<T(==)>(dist: map<T, int>, dist': map<T, int>)
    requires dist.Keys <= dist'.Keys
  {
    forall c :: c in dist ==> dist'[c] <= dist[c]
  }

  /** A parent changes only where the label does. */
  predicate ParentsFollowLabels<T(==)>(dist: map<T, int>, parent: map<T, T>,
                                       dist': map<T, int>, parent': map<T, T>)
  {
    forall c :: c in parent' && (c !in parent || parent'[c] != parent[c]) ==>
      c in dist' && (c !in dist || dist'[c] != dist[c])
  }

  /** Every pushed item costs at least its position's label. */
  predicate PushesSound<T(==)>(dist': map<T, int>, pushed: seq<Item<T>>) {
    forall k :: 0 <= k < |pushed| ==>
      pushed[k].value in dist' && pushed[k].priority >= dist'[pushed[k].value]
  }

  /** Recording an improvement at `n` keeps every changed label an
      improvement through `current`. */
  lemma ImproveKeepsImproved<T>(next: T -> seq<T>, cost: (T, T) -> int, current: T, d: int,
                                settled: set<T>, dist: map<T, int>, dist': map<T, int>,
                                parent': map<T, T>, pushed: seq<Item<T>>, n: T)
    requires ChangesImprove(next, cost, current, d, settled, dist, dist', parent', pushed)
    requires n in next(current) && n !in settled && cost(current, n) >= 0
    ensures ChangesImprove(next, cost, current, d, settled, dist, dist'[n := d + cost(current, n)],
                           parent'[n := current], pushed + [Item(n, d + cost(current, n))])
  {
    var newCost := d + cost(current, n);
    var dist'', parent'', pushed' := dist'[n := newCost], parent'[n := current], pushed + [Item(n, newCost)];
    forall c | c in dist'' && (c !in dist || dist''[c] != dist[c])
      ensures Improved(next, cost, current, d, settled, c, dist'', parent'', pushed')
    {
      if c != n {
        assert Improved(next, cost, current, d, settled, c, dist', parent', pushed);
      }
    }
  }

  lemma ImproveKeepsFalling<T>(dist: map<T, int>, dist': map<T, int>, n: T, newCost: int)
    requires dist.Keys <= dist'.Keys && LabelsFall(dist, dist')
    requires n !in dist' || newCost < dist'[n]
    ensures LabelsFall(dist, dist'[n := newCost])
    ensures forall c :: c in dist' ==> dist'[n := newCost][c] <= dist'[c]
  {
  }

  lemma ImproveKeepsParents<T>(dist: map<T, int>, parent: map<T, T>, dist': map<T, int>,
                               parent': map<T, T>, n: T, newCost: int, current: T)
    requires dist.Keys <= dist'.Keys && LabelsFall(dist, dist')
    requires ParentsFollowLabels(dist, parent, dist', parent')
    requires n !in dist' || newCost < dist'[n]
    ensures ParentsFollowLabels(dist, parent, dist'[n := newCost], parent'[n := current])
  {
    var dist'', parent'' := dist'[n := newCost], parent'[n := current];
    forall c | c in parent'' && (c !in parent || parent''[c] != parent[c])
      ensures c in dist'' && (c !in dist || dist''[c] != dist[c])
    {
      if c != n {
        assert parent''[c] == parent'[c];
      }
    }
  }

  lemma ImproveKeepsPushes<T>(dist': map<T, int>, pushed: seq<Item<T>>, n: T, newCost: int)
    requires PushesSound(dist', pushed)
    requires n !in dist' || newCost < dist'[n]
    requires forall c :: c in dist' ==> dist'[n := newCost][c] <= dist'[c]
    ensures PushesSound(dist'[n := newCost], pushed + [Item(n, newCost)])
  {
    var pushed' := pushed + [Item(n, newCost)];
    forall k | 0 <= k < |pushed'|
      ensures pushed'[k].value in dist'[n := newCost]
              && pushed'[k].priority >= dist'[n := newCost][pushed'[k].value]
    {
      if k < |pushed| {
        assert pushed'[k] == pushed[k];
      }
    }
  }

  /** Recording an improvement at `n` keeps what relaxing may change. */
  lemma ImproveKeepsSound<T>(next: T -> seq<T>, cost: (T, T) -> int, current: T, d: int,
                             settled: set<T>, dist: map<T, int>, parent: map<T, T>,
                             dist': map<T, int>, parent': map<T, T>, pushed: seq<Item<T>>, n: T)
    requires RelaxSound(next, cost, current, d, settled, dist, parent, dist', parent', pushed)
    requires n in next(current) && n !in settled && cost(current, n) >= 0
    requires n !in dist' || d + cost(current, n) < dist'[n]
    ensures RelaxSound(next, cost, current, d, settled, dist, parent,
                       dist'[n := d + cost(current, n)], parent'[n := current],
                       pushed + [Item(n, d + cost(current, n))])
    ensures forall c :: c in dist' ==> dist'[n := d + cost(current, n)][c] <= dist'[c]
  {
    var newCost := d + cost(current, n);
    ImproveKeepsFalling(dist, dist', n, newCost);
    ImproveKeepsParents(dist, parent, dist', parent', n, newCost, current);
    ImproveKeepsPushes(dist', pushed, n, newCost);
    ImproveKeepsImproved(next, cost, current, d, settled, dist, dist', parent', pushed, n);
  }

  /** One edge of the inner loop: when `n` is not settled and the edge
      cost is not negative, record `d` plus that cost if it beats `n`'s
      label (or `n` has none), with `current` as parent, and push it. */
  method RelaxEdge<T(==)>(next: T -> seq<T>, cost: (T, T) -> int, current: T, d: int,
                          settled: set<T>, ghost dist: map<T, int>, ghost parent: map<T, T>,
                          dist': map<T, int>, parent': map<T, T>, pq': MinHeap<T>,
                          ghost pushed: seq<Item<T>>, n: T)
    returns (dist'': map<T, int>, parent'': map<T, T>, pq'': MinHeap<T>,
             ghost added: seq<Item<T>>)
    requires RelaxSound(next, cost, current, d, settled, dist, parent, dist', parent', pushed)
    requires n in next(current)
    ensures RelaxSound(next, cost, current, d, settled, dist, parent, dist'', parent'', pushed + added)
    ensures pq''.items == pq'.items + added
    ensures dist'.Keys <= dist''.Keys && forall c :: c in dist' ==> dist''[c] <= dist'[c]
    ensures n !in settled && cost(current, n) >= 0 ==> n in dist'' && dist''[n] <= d + cost(current, n)
  {
    var c := cost(current, n);
    var newCost := d + c;
    if n !in settled && c >= 0 && (n !in dist' || newCost < dist'[n]) {
      ImproveKeepsSound(next, cost, current, d, settled, dist, parent, dist', parent', pushed, n);
      dist'' := dist'[n := newCost];
      parent'' := parent'[n := current];
      pq'' := MinPush(pq', n, newCost);
      added := [Item(n, newCost)];
    } else {
      dist'', parent'', pq'', added := dist', parent', pq', [];
      assert pushed + added == pushed;
    }
  }

  /** The inner loop of `Dijkstra`: relaxes every edge out of `current`,
      pushing each improvement onto the heap. */
  method Relax<T(==)>(next: T -> seq<T>, cost: (T, T) -> int, current: T, d: int,
                      settled: set<T>, dist: map<T, int>, parent: map<T, T>, pq: MinHeap<T>)
    returns (dist': map<T, int>, parent': map<T, T>, pq': MinHeap<T>, ghost pushed: seq<Item<T>>)
    ensures RelaxSound(next, cost, current, d, settled, dist, parent, dist', parent', pushed)
    ensures pq'.items == pq.items + pushed
    ensures forall n :: n in next(current) && n !in settled && cost(current, n) >= 0 ==>
              n in dist' && dist'[n] <= d + cost(current, n)
  {
    dist', parent', pq', pushed := dist, parent, pq, [];
    var ns := next(current);
    var k := 0;
    while k < |ns|
      invariant 0 <= k <= |ns|
      invariant RelaxSound(next, cost, current, d, settled, dist, parent, dist', parent', pushed)
      invariant pq'.items == pq.items + pushed
      invariant forall j :: 0 <= j < k && ns[j] !in settled && cost(current, ns[j]) >= 0 ==>
                  ns[j] in dist' && dist'[ns[j]] <= d + cost(current, ns[j])
    {
      ghost var added;
      dist', parent', pq', added := RelaxEdge(next, cost, current, d, settled, dist, parent,
                                              dist', parent', pq', pushed, ns[k]);
      pushed := pushed + added;
      k := k + 1;
    }
    forall n | n in next(current) && n !in settled && cost(current, n) >= 0
      ensures n in dist' && dist'[n] <= d + cost(current, n)
    {
      var j :| 0 <= j < |ns| && ns[j] == n;
    }
  }

  // ---- the search invariant ----

  /** Each parent link is a usable step from a settled position, and the
      child's label is the parent's plus the step's cost. */
  predicate ParentEdges<T(==)>(next: T -> seq<T>, cost: (T, T) -> int, dist: map<T, int>,
                               parent: map<T, T>, settled: set<T>)
  {
    forall c :: c in parent ==>
      c in dist && parent[c] in settled && parent[c] in dist && c in next(parent[c])
      && cost(parent[c], c) >= 0 && dist[c] == dist[parent[c]] + cost(parent[c], c)
  }

  /** `order` numbers the settled positions in the order they were settled;
      every settled position but the start was settled after its parent. */
  predicate SettleOrder<T(==)>(start: T, parent: map<T, T>, settled: set<T>, order: map<T, int>,
                               count: int)
  {
    && order.Keys == settled
    && (forall c :: c in order ==> 0 <= order[c] < count)
    && (forall c :: c in order && c != start ==>
          c in parent && parent[c] in order && order[parent[c]] < order[c])
  }

  /** Every settled position has had its usable successors labelled. */
  predicate SettledClosed<T(==)>(next: T -> seq<T>, cost: (T, T) -> int, dist: map<T, int>,
                                 settled: set<T>)
  {
    forall c, n :: c in settled && n in next(c) && cost(c, n) >= 0 ==> n in dist
  }

  /** The invariant of `Dijkstra`'s main loop. */
  predicate Searching<T(==)>(next: T -> seq<T>, cost: (T, T) -> int, start: T, universe: set<T>,
                             dist: map<T, int>, parent: map<T, T>, settled: set<T>,
                             order: map<T, int>, count: int, pq: MinHeap<T>)
  {
    && start in dist && dist[start] == 0 && start !in parent
    && settled <= dist.Keys && dist.Keys <= universe
    && (settled == {} ==> dist.Keys == {start})
    && (settled != {} ==> start in settled)
    && (forall c :: c in dist && c != start ==> c in parent)
    && QueueSound(dist, pq) && QueueComplete(dist, settled, pq)
    && ParentEdges(next, cost, dist, parent, settled)
    && SettleOrder(start, parent, settled, order, count)
    && SettledClosed(next, cost, dist, settled)
  }

  // ---- why the cost is the least ----

  /** No usable walk from the start to a settled position costs less than
      that position's label. */
  ghost predicate SettledLeast<T(!new)>(next: T -> seq<T>, cost: (T, T) -> int, start: T,
                                      dist: map<T, int>, settled: set<T>)
  {
    forall w :: UsableWalk(next, cost, w) && w[0] == start && Last(w) in settled ==>
      Last(w) in dist && dist[Last(w)] <= WalkCost(cost, w)
  }

  /** Every usable step from a settled position to an unsettled one has
      been relaxed: the target's label is at most the source's plus the
      step's cost. */
  predicate StepsRelaxed<T(==)>(next: T -> seq<T>, cost: (T, T) -> int, dist: map<T, int>,
                                settled: set<T>)
  {
    forall c, n :: c in settled && n in next(c) && cost(c, n) >= 0 && n !in settled ==>
      c in dist && n in dist && dist[n] <= dist[c] + cost(c, n)
  }

  /** The popped item's priority is a lower bound on the cost of every
      usable walk from the start to the position it names: a cheaper walk
      would leave the settled positions through a relaxed step whose target
      is queued below the popped priority. */
  lemma PopLeastWalk<T(!new)>(next: T -> seq<T>, cost: (T, T) -> int, start: T, universe: set<T>,
                        dist: map<T, int>, parent: map<T, T>, settled: set<T>,
                        order: map<T, int>, count: int, pq: MinHeap<T>, w: seq<T>)
    requires Searching(next, cost, start, universe, dist, parent, settled, order, count, pq)
    requires SettledLeast(next, cost, start, dist, settled) && StepsRelaxed(next, cost, dist, settled)
    requires MinLen(pq) > 0 && MinPopItem(pq).0.value !in settled
    requires UsableWalk(next, cost, w) && w[0] == start && Last(w) == MinPopItem(pq).0.value
    ensures MinPopItem(pq).0.priority <= WalkCost(cost, w)
  {
    var popped := MinPopItem(pq);
    var item, rest := popped.0, popped.1;
    PopUnsettled(dist, settled, pq);
    if settled == {} {
      UsableWalkCost(next, cost, w);
    } else {
      var i := FirstOutside(w, settled);
      UsablePrefix(next, cost, w, i);
      var a, b := w[i - 1], w[i];
      assert Step(next, a, b);
      assert Item(b, dist[b]) in multiset(pq.items);
      if Item(b, dist[b]) != item {
        assert Item(b, dist[b]) in multiset(rest.items);
        assert Item(b, dist[b]) in rest.items;
      }
    }
  }

  lemma PopLeast<T(!new)>(next: T -> seq<T>, cost: (T, T) -> int, start: T, universe: set<T>,
                    dist: map<T, int>, parent: map<T, T>, settled: set<T>,
                    order: map<T, int>, count: int, pq: MinHeap<T>)
    requires Searching(next, cost, start, universe, dist, parent, settled, order, count, pq)
    requires SettledLeast(next, cost, start, dist, settled) && StepsRelaxed(next, cost, dist, settled)
    requires MinLen(pq) > 0 && MinPopItem(pq).0.value !in settled
    ensures forall w :: UsableWalk(next, cost, w) && w[0] == start && Last(w) == MinPopItem(pq).0.value ==>
              MinPopItem(pq).0.priority <= WalkCost(cost, w)
  {
    forall w | UsableWalk(next, cost, w) && w[0] == start && Last(w) == MinPopItem(pq).0.value
      ensures MinPopItem(pq).0.priority <= WalkCost(cost, w)
    {
      PopLeastWalk(next, cost, start, universe, dist, parent, settled, order, count, pq, w);
    }
  }

  /** Settling `current` at its popped priority, then relaxing its edges,
      keeps both facts behind the least cost. */
  lemma RelaxKeepsLeast<T(!new)>(next: T -> seq<T>, cost: (T, T) -> int, start: T, current: T, d: int,
                           settled: set<T>, dist: map<T, int>, parent: map<T, T>,
                           dist': map<T, int>, parent': map<T, T>, pushed: seq<Item<T>>)
    requires settled <= dist.Keys && current in dist && dist[current] == d
    requires SettledLeast(next, cost, start, dist, settled) && StepsRelaxed(next, cost, dist, settled)
    requires forall w :: UsableWalk(next, cost, w) && w[0] == start && Last(w) == current ==>
               d <= WalkCost(cost, w)
    requires RelaxSound(next, cost, current, d, settled + {current}, dist, parent, dist', parent', pushed)
    requires forall n :: n in next(current) && n !in settled + {current} && cost(current, n) >= 0 ==>
               n in dist' && dist'[n] <= d + cost(current, n)
    ensures SettledLeast(next, cost, start, dist', settled + {current})
    ensures StepsRelaxed(next, cost, dist', settled + {current})
  {
    var settled' := settled + {current};
    forall c, n | c in settled' && n in next(c) && cost(c, n) >= 0 && n !in settled'
      ensures c in dist' && n in dist' && dist'[n] <= dist'[c] + cost(c, n)
    {
      if c != current {
        assert n in dist && dist[n] <= dist[c] + cost(c, n);
      }
    }
  }

  /** Settling a popped position extends the settle order. */
  lemma SettleKeepsOrder<T>(start: T, parent: map<T, T>, settled: set<T>,
                            order: map<T, int>, count: int, c: T)
    requires SettleOrder(start, parent, settled, order, count) && c !in settled && count >= 0
    requires c != start ==> c in parent && parent[c] in settled
    ensures SettleOrder(start, parent, settled + {c}, order[c := count], count + 1)
  {
    var order' := order[c := count];
    var settled' := settled + {c};
    assert order'.Keys == settled';
    forall c' | c' in order'
      ensures 0 <= order'[c'] < count + 1
    {
      if c' != c {
        assert c' in order;
      }
    }
    forall c' | c' in order' && c' != start
      ensures c' in parent && parent[c'] in order' && order'[parent[c']] < order'[c']
    {
      if c' != c {
        assert order'[c'] == order[c'] && order'[parent[c']] == order[parent[c']];
      }
    }
  }

  /** The state between popping the unsettled position `current` (now
      numbered in `order`) and relaxing its edges. */
  predicate Popped<T(==)>(next: T -> seq<T>, cost: (T, T) -> int, start: T, universe: set<T>,
                          dist: map<T, int>, parent: map<T, T>, settled: set<T>,
                          order: map<T, int>, count: int, current: T, rest: MinHeap<T>)
  {
    && start in dist && dist[start] == 0 && start !in parent
    && settled <= dist.Keys && dist.Keys <= universe && current in dist
    && current !in settled && (settled == {} ==> current == start)
    && (settled != {} ==> start in settled)
    && (forall c :: c in dist && c != start ==> c in parent)
    && QueueSound(dist, rest) && QueueComplete(dist, settled + {current}, rest)
    && ParentEdges(next, cost, dist, parent, settled)
    && SettleOrder(start, parent, settled + {current}, order, count)
    && SettledClosed(next, cost, dist, settled)
  }

  /** Popping an unsettled position and numbering it. */
  lemma PopKeepsSearching<T>(next: T -> seq<T>, cost: (T, T) -> int, start: T, universe: set<T>,
                             dist: map<T, int>, parent: map<T, T>, settled: set<T>,
                             order: map<T, int>, count: int, pq: MinHeap<T>)
    requires Searching(next, cost, start, universe, dist, parent, settled, order, count, pq)
    requires count >= 0 && MinLen(pq) > 0 && MinPopItem(pq).0.value !in settled
    ensures var (item, rest) := MinPopItem(pq);
            item.priority == dist[item.value]
            && Popped(next, cost, start, universe, dist, parent, settled, order[item.value := count],
                      count + 1, item.value, rest)
  {
    var c := MinPopItem(pq).0.value;
    PopUnsettled(dist, settled, pq);
    SettleKeepsOrder(start, parent, settled, order, count, c);
  }

  /** Relaxing keeps the heap sound and complete for the new labels. */
  lemma RelaxKeepsQueue<T>(next: T -> seq<T>, cost: (T, T) -> int, current: T, d: int,
                           settled: set<T>, dist: map<T, int>, parent: map<T, T>,
                           rest: MinHeap<T>, dist': map<T, int>, parent': map<T, T>,
                           pq': MinHeap<T>, pushed: seq<Item<T>>)
    requires QueueSound(dist, rest) && QueueComplete(dist, settled, rest)
    requires RelaxSound(next, cost, current, d, settled, dist, parent, dist', parent', pushed)
    requires pq'.items == rest.items + pushed
    ensures QueueSound(dist', pq') && QueueComplete(dist', settled, pq')
  {
    forall it | it in pq'.items
      ensures it.value in dist' && it.priority >= dist'[it.value]
    {
      if it in rest.items {
        assert it.value in dist;
      } else {
        var k :| 0 <= k < |pushed| && pushed[k] == it;
      }
    }
    forall c | c in dist' && c !in settled
      ensures Item(c, dist'[c]) in pq'.items
    {
      if c in dist && dist'[c] == dist[c] {
        assert Item(c, dist[c]) in rest.items;
      } else {
        assert Improved(next, cost, current, d, settled, c, dist', parent', pushed);
      }
    }
  }

  /** Relaxing from a settled `current` keeps every parent link a usable
      step from a settled position, and keeps the settle order. */
  lemma RelaxKeepsParents<T>(next: T -> seq<T>, cost: (T, T) -> int, start: T, current: T,
                             settled: set<T>, dist: map<T, int>, parent: map<T, T>,
                             order: map<T, int>, count: int, dist': map<T, int>,
                             parent': map<T, T>, pushed: seq<Item<T>>)
    requires current in dist && current in settled
    requires ParentEdges(next, cost, dist, parent, settled)
    requires SettleOrder(start, parent, settled, order, count)
    requires RelaxSound(next, cost, current, dist[current], settled, dist, parent, dist', parent', pushed)
    ensures ParentEdges(next, cost, dist', parent', settled)
    ensures SettleOrder(start, parent', settled, order, count)
  {
    forall c | c in parent'
      ensures c in dist' && parent'[c] in settled && parent'[c] in dist'
              && c in next(parent'[c]) && cost(parent'[c], c) >= 0
              && dist'[c] == dist'[parent'[c]] + cost(parent'[c], c)
    {
      if c !in dist || dist'[c] != dist[c] {
        assert Improved(next, cost, current, dist[current], settled, c, dist', parent', pushed);
      } else {
        assert parent'[c] == parent[c];
      }
    }
    forall c | c in order && c != start
      ensures c in parent' && parent'[c] == parent[c]
    {
    }
  }

  /** Relaxing the edges of the newly settled `current` keeps the invariant. */
  lemma RelaxKeepsSearching<T>(next: T -> seq<T>, cost: (T, T) -> int, start: T,
                               universe: set<T>, dist: map<T, int>, parent: map<T, T>,
                               settled: set<T>, order: map<T, int>, count: int, current: T,
                               rest: MinHeap<T>, dist': map<T, int>, parent': map<T, T>,
                               pq': MinHeap<T>, pushed: seq<Item<T>>)
    requires Closed(next, universe)
    requires Popped(next, cost, start, universe, dist, parent, settled, order, count, current, rest)
    requires RelaxSound(next, cost, current, dist[current], settled + {current},
                        dist, parent, dist', parent', pushed)
    requires pq'.items == rest.items + pushed
    requires forall n :: n in next(current) && n !in settled + {current} && cost(current, n) >= 0 ==>
               n in dist' && dist'[n] <= dist[current] + cost(current, n)
    ensures Searching(next, cost, start, universe, dist', parent', settled + {current}, order, count, pq')
  {
    var settled' := settled + {current};
    forall c | c in dist' && c !in dist
      ensures c in universe
    {
      assert c in next(current);
    }
    RelaxKeepsQueue(next, cost, current, dist[current], settled', dist, parent, rest,
                    dist', parent', pq', pushed);
    RelaxKeepsParents(next, cost, start, current, settled', dist, parent, order, count,
                      dist', parent', pushed);
    assert SettledClosed(next, cost, dist', settled');
  }

  /** On reaching the goal: walk the parents back to the start. The walk is
      usable and its cost is the goal's label. */
  method GoalReached<T(==)>(next: T -> seq<T>, cost: (T, T) -> int, start: T, goal: T,
                            dist: map<T, int>, parent: map<T, T>, ghost settled: set<T>,
                            ghost order: map<T, int>, ghost count: int)
    returns (path: seq<T>)
    requires start in dist && dist[start] == 0 && goal in settled && start in settled
    requires ParentEdges(next, cost, dist, parent, settled)
    requires SettleOrder(start, parent, settled, order, count)
    ensures UsableWalk(next, cost, path) && path[0] == start && Last(path) == goal
    ensures WalkCost(cost, path) == dist[goal]
  {
    path := ReconstructPath(next, start, goal, parent, order);
    forall i | 0 <= i < |path| - 1
      ensures cost(path[i], path[i + 1]) >= 0
    {
      assert path[i + 1] in parent && parent[path[i + 1]] == path[i];
    }
    ParentWalkCost(next, cost, dist, parent, settled, path);
  }

  /** Along parent links, the walk's cost is the difference of its ends' labels. */
  lemma {:induction false} ParentWalkCost<T>(next: T -> seq<T>, cost: (T, T) -> int,
                                             dist: map<T, int>, parent: map<T, T>,
                                             settled: set<T>, w: seq<T>)
    requires |w| > 0 && w[0] in dist && ParentLinks(parent, w)
    requires ParentEdges(next, cost, dist, parent, settled)
    ensures forall k :: 0 <= k < |w| ==> w[k] in dist
    ensures WalkCost(cost, w) == dist[Last(w)] - dist[w[0]]
    decreases |w|
  {
    if |w| > 1 {
      var front := w[..|w| - 1];
      assert ParentLinks(parent, front) by {
        forall i | 0 < i < |front|
          ensures front[i] in parent && parent[front[i]] == front[i - 1]
        {
          assert front[i] == w[i] && front[i - 1] == w[i - 1];
        }
      }
      ParentWalkCost(next, cost, dist, parent, settled, front);
      assert front[|front| - 1] == w[|w| - 2];
      assert w[|w| - 1] in parent && parent[w[|w| - 1]] == w[|w| - 2];
      forall k | 0 <= k < |w|
        ensures w[k] in dist
      {
        if k < |w| - 1 {
          assert w[k] == front[k];
        }
      }
    }
  }

  /** Settles the popped position `c` and relaxes its edges. */
  method Settle<T(==,!new)>(next: T -> seq<T>, cost: (T, T) -> int, start: T, ghost universe: set<T>,
                       dist: map<T, int>, parent: map<T, T>, settled: set<T>,
                       ghost order: map<T, int>, count: int, pq: MinHeap<T>)
    returns (dist': map<T, int>, parent': map<T, T>, pq': MinHeap<T>, ghost order': map<T, int>)
    requires Closed(next, universe) && count == |settled|
    requires Searching(next, cost, start, universe, dist, parent, settled, order, count, pq)
    requires SettledLeast(next, cost, start, dist, settled) && StepsRelaxed(next, cost, dist, settled)
    requires MinLen(pq) > 0 && MinPopItem(pq).0.value !in settled
    ensures var c := MinPopItem(pq).0.value;
            Searching(next, cost, start, universe, dist', parent', settled + {c}, order', count + 1, pq')
            && |universe - (settled + {c})| < |universe - settled|
            && |settled + {c}| == count + 1
    ensures var c := MinPopItem(pq).0.value;
            SettledLeast(next, cost, start, dist', settled + {c})
            && StepsRelaxed(next, cost, dist', settled + {c})
  {
    var popped := MinPopItem(pq);
    var c := popped.0.value;
    PopKeepsSearching(next, cost, start, universe, dist, parent, settled, order, count, pq);
    PopLeast(next, cost, start, universe, dist, parent, settled, order, count, pq);
    FewerOutside(universe, settled, settled + {c});
    order' := order[c := count];
    ghost var pushed;
    dist', parent', pq', pushed := Relax(next, cost, c, popped.0.priority, settled + {c},
                                         dist, parent, popped.1);
    RelaxKeepsSearching(next, cost, start, universe, dist, parent, settled, order', count + 1, c,
                        popped.1, dist', parent', pq', pushed);
    RelaxKeepsLeast(next, cost, start, c, popped.0.priority, settled, dist, parent,
                    dist', parent', pushed);
  }

  /** The goal was popped unsettled: settle it and walk the parents back. */
  method Finish<T(==,!new)>(next: T -> seq<T>, cost: (T, T) -> int, start: T, goal: T,
                       ghost universe: set<T>, dist: map<T, int>, parent: map<T, T>,
                       ghost settled: set<T>, ghost order: map<T, int>, count: int, pq: MinHeap<T>)
    returns (r: PathResult<T>)
    requires count == |settled|
    requires Searching(next, cost, start, universe, dist, parent, settled, order, count, pq)
    requires SettledLeast(next, cost, start, dist, settled) && StepsRelaxed(next, cost, dist, settled)
    requires MinLen(pq) > 0 && MinPopItem(pq).0.value == goal && goal !in settled
    ensures r.found && UsableWalk(next, cost, r.path) && r.path[0] == start
            && Last(r.path) == goal && WalkCost(cost, r.path) == r.cost
    ensures forall w :: UsableWalk(next, cost, w) && w[0] == start && Last(w) == goal ==>
              r.cost <= WalkCost(cost, w)
    ensures goal in r.distance && r.cost == r.distance[goal]
    ensures start in r.distance && r.distance[start] == 0 && r.distance.Keys <= universe
    ensures 0 <= r.visited <= |universe|
  {
    var popped := MinPopItem(pq);
    PopUnsettled(dist, settled, pq);
    PopLeast(next, cost, start, universe, dist, parent, settled, order, count, pq);
    SettleKeepsOrder(start, parent, settled, order, count, goal);
    SubsetSize(settled + {goal}, universe);
    assert |settled + {goal}| == count + 1;
    var path := GoalReached(next, cost, start, goal, dist, parent, settled + {goal},
                            order[goal := count], count + 1);
    return PathResult(true, path, popped.0.priority, count + 1, dist);
  }

  /** When the heap runs empty, every labelled position is settled, and the
      settled positions keep every usable walk from the start. */
  lemma Exhausted<T>(next: T -> seq<T>, cost: (T, T) -> int, start: T, goal: T,
                     universe: set<T>, dist: map<T, int>, parent: map<T, T>, settled: set<T>,
                     order: map<T, int>, count: int, pq: MinHeap<T>)
    requires Searching(next, cost, start, universe, dist, parent, settled, order, count, pq)
    requires MinLen(pq) == 0 && goal !in settled
    ensures forall w :: UsableWalk(next, cost, w) && w[0] == start ==> Last(w) != goal
    ensures |settled| <= |universe|
  {
    assert settled == dist.Keys;
    forall w | UsableWalk(next, cost, w) && w[0] == start
      ensures Last(w) != goal
    {
      UsableWalkStaysInside(next, cost, settled, w);
    }
    SubsetSize(settled, universe);
  }

  /** `Dijkstra`. A position is settled at most once (`visited` counts the
      settled positions); on success the path is a usable walk from start to
      goal whose summed edge cost is the returned cost and the goal's label,
      and no usable walk from start to goal costs less; on failure no usable
      walk from the start reaches the goal. */
  method Dijkstra<T(==,!new)>(next: T -> seq<T>, cost: (T, T) -> int, start: T, goal: T,
                         ghost universe: set<T>)
    returns (r: PathResult<T>)
    requires Closed(next, universe) && start in universe
    ensures start == goal ==> r == PathResult(true, [start], 0, 0, map[])
    ensures r.found ==> UsableWalk(next, cost, r.path) && r.path[0] == start
                        && Last(r.path) == goal && WalkCost(cost, r.path) == r.cost
    ensures r.found ==> forall w :: UsableWalk(next, cost, w) && w[0] == start && Last(w) == goal ==>
                          r.cost <= WalkCost(cost, w)
    ensures r.found && start != goal ==> goal in r.distance && r.cost == r.distance[goal]
    ensures !r.found ==> forall w :: UsableWalk(next, cost, w) && w[0] == start ==> Last(w) != goal
    ensures start != goal ==> start in r.distance && r.distance[start] == 0
                              && r.distance.Keys <= universe
    ensures 0 <= r.visited <= |universe|
  {
    if start == goal {
      forall w | UsableWalk(next, cost, w)
        ensures WalkCost(cost, w) >= 0
      {
        UsableWalkCost(next, cost, w);
      }
      return PathResult(true, [start], 0, 0, map[]);
    }
    var pq := MinPush(NewMinHeap([]), start, 0);
    var dist: map<T, int> := map[start := 0];
    var parent: map<T, T> := map[];
    var settled: set<T> := {};
    ghost var order: map<T, int> := map[];
    var visitedCount := 0;
    while MinLen(pq) > 0
      invariant Searching(next, cost, start, universe, dist, parent, settled, order, visitedCount, pq)
      invariant goal !in settled && visitedCount == |settled|
      invariant SettledLeast(next, cost, start, dist, settled) && StepsRelaxed(next, cost, dist, settled)
      decreases |universe - settled|, MinLen(pq)
    {
      var popped := MinPopItem(pq);
      var c := popped.0.value;
      if c in settled {
        PopSettled(dist, settled, pq);
        pq := popped.1;
      } else if c == goal {
        r := Finish(next, cost, start, goal, universe, dist, parent, settled, order, visitedCount, pq);
        return;
      } else {
        dist, parent, pq, order := Settle(next, cost, start, universe, dist, parent, settled,
                                          order, visitedCount, pq);
        settled := settled + {c};
        visitedCount := visitedCount + 1;
      }
    }
    Exhausted(next, cost, start, goal, universe, dist, parent, settled, order, visitedCount, pq);
    return PathResult(false, [], 0, visitedCount, dist);
  }
}
