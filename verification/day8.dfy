/** Day 8: junction boxes in space are wired together, closest pairs
    first. Part 1 joins a fixed number of the closest pairs and multiplies
    the sizes of the three largest circuits; part 2 keeps joining until
    every box is in one circuit.

    Distances are floating point in Go; here the priority of a pair is a
    given integer function of its two points (Go pushes `int(d)`). Go also
    keeps the coordinates as `float64` and prints part 2's product of two x
    coordinates in `float64`; the model's exact product agrees with it while
    the coordinates and the product stay within 2^53. */
module Day8 {
  import opened Wrappers
  import opened Ints
  import opened Strings
  import opened Walks
  import opened Heaps
  import opened BreadthFirst

  datatype Point3 = Point3(x: int, y: int, z: int)

  /** `Pair`: two indexes into the point list. */
  datatype Pair = Pair(i: int, j: int)

  /** The integer priority of the pair of points `a` and `b`. */
  type Distance = (Point3, Point3) -> int

  // ---- parsing ----

  /** A line "x,y,z": Go reads the first three comma-separated fields and
      panics on fewer or on a field that is not a number. */
  function ParsePoint(line: string): Option<Point3> {
    var parts := Split(line, ',');
    if |parts| < 3 then None
    else
      var x :- Atoi(parts[0]);
      var y :- Atoi(parts[1]);
      var z :- Atoi(parts[2]);
      Some(Point3(x, y, z))
  }

  /** Every line as a point; Go panics on the first bad line. */
  function ParsePoints(lines: seq<string>): Option<seq<Point3>> {
    AllSome(ParsePoint, lines)
  }

  // ---- all pairs ----

  /** The pairs `(i, j)` for `j` from `from` to `n - 1`, in that order. */
  function RowItems(points: seq<Point3>, dist: Distance, i: nat, from: nat): (r: seq<Item<Pair>>)
    requires i < |points|
    ensures |r| == if from < |points| then |points| - from else 0
    ensures forall k :: 0 <= k < |r| ==>
              r[k] == Item(Pair(i, from + k), dist(points[i], points[from + k]))
    decreases |points| - from
  {
    if from >= |points| then []
    else [Item(Pair(i, from), dist(points[i], points[from]))] + RowItems(points, dist, i, from + 1)
  }

  /** The items `allPairsMinHeap` pushes for the rows before `rows`. */
  function PairItems(points: seq<Point3>, dist: Distance, rows: nat): seq<Item<Pair>>
    requires rows <= |points|
  {
    if rows == 0 then []
    else PairItems(points, dist, rows - 1) + RowItems(points, dist, rows - 1, rows)
  }

  /** How many pairs the rows before `rows` hold. */
  function PairsBefore(n: nat, rows: nat): nat
    requires rows <= n
  {
    if rows == 0 then 0 else PairsBefore(n, rows - 1) + (n - rows)
  }

  lemma {:induction false} PairsBeforeValue(n: nat, rows: nat)
    requires rows <= n
    ensures 2 * PairsBefore(n, rows) == rows * (2 * n - rows - 1)
    decreases rows
  {
    if rows > 0 {
      PairsBeforeValue(n, rows - 1);
      assert rows * (2 * n - rows - 1) == (rows - 1) * (2 * n - (rows - 1) - 1) + 2 * (n - rows);
    }
  }

  /** Lexicographic order on pairs: the order they are pushed in. */
  predicate PairLess(a: Pair, b: Pair) {
    a.i < b.i || (a.i == b.i && a.j < b.j)
  }

  predicate Ascending(items: seq<Item<Pair>>) {
    forall a, b :: 0 <= a < b < |items| ==> PairLess(items[a].value, items[b].value)
  }

  /** Every pushed item is a pair `i < j` from the first `rows` rows, with
      its distance as priority. */
  predicate PairsValid(points: seq<Point3>, dist: Distance, items: seq<Item<Pair>>, rows: nat) {
    forall k :: 0 <= k < |items| ==>
      var p := items[k].value;
      0 <= p.i < rows && p.i < p.j < |points| && items[k].priority == dist(points[p.i], points[p.j])
  }

  /** The item pushed for boxes `i` and `j`: the pair, with its distance
      as priority. */
  function PairItem(points: seq<Point3>, dist: Distance, i: int, j: int): Item<Pair>
    requires 0 <= i < |points| && 0 <= j < |points|
  {
    Item(Pair(i, j), dist(points[i], points[j]))
  }

  /** Every pair `i < j` from the first `rows` rows has been pushed. */
  predicate PairsCovered(points: seq<Point3>, dist: Distance, items: seq<Item<Pair>>, rows: nat) {
    forall i, j :: 0 <= i < rows && i < j < |points| ==> PairItem(points, dist, i, j) in items
  }

  /** What `allPairsMinHeap` pushes for every point, as the loops do it. */
  predicate AllPairsOf(points: seq<Point3>, dist: Distance, items: seq<Item<Pair>>, rows: nat) {
    PairsValid(points, dist, items, rows) && PairsCovered(points, dist, items, rows) && Ascending(items)
  }

  lemma AppendRowValid(points: seq<Point3>, dist: Distance, items: seq<Item<Pair>>, rows: nat, all: seq<Item<Pair>>)
    requires rows < |points| && PairsValid(points, dist, items, rows)
    requires all == items + RowItems(points, dist, rows, rows + 1)
    ensures PairsValid(points, dist, all, rows + 1)
  {
    var row := RowItems(points, dist, rows, rows + 1);
    forall k | 0 <= k < |all|
      ensures var p := all[k].value;
        0 <= p.i < rows + 1 && p.i < p.j < |points| && all[k].priority == dist(points[p.i], points[p.j])
    {
      if k < |items| {
        assert all[k] == items[k];
      } else {
        assert all[k] == row[k - |items|];
      }
    }
  }

  lemma AppendRowMembers(points: seq<Point3>, dist: Distance, items: seq<Item<Pair>>, rows: nat, all: seq<Item<Pair>>)
    requires rows < |points| && PairsCovered(points, dist, items, rows)
    requires all == items + RowItems(points, dist, rows, rows + 1)
    ensures PairsCovered(points, dist, all, rows + 1)
  {
    var row := RowItems(points, dist, rows, rows + 1);
    forall i, j | 0 <= i < rows + 1 && i < j < |points|
      ensures PairItem(points, dist, i, j) in all
    {
      if i == rows {
        assert PairItem(points, dist, i, j) == row[j - rows - 1] == all[|items| + j - rows - 1];
      } else {
        assert PairItem(points, dist, i, j) in items;
      }
    }
  }

  lemma AppendRowAscending(points: seq<Point3>, dist: Distance, items: seq<Item<Pair>>, rows: nat, all: seq<Item<Pair>>)
    requires rows < |points|
    requires Ascending(items) && forall k :: 0 <= k < |items| ==> items[k].value.i < rows
    requires all == items + RowItems(points, dist, rows, rows + 1)
    ensures Ascending(all)
  {
    var row := RowItems(points, dist, rows, rows + 1);
    forall a, b | 0 <= a < b < |all|
      ensures PairLess(all[a].value, all[b].value)
    {
      if b >= |items| {
        assert all[b] == row[b - |items|];
        if a >= |items| {
          assert all[a] == row[a - |items|];
        } else {
          assert all[a] == items[a];
        }
      } else {
        assert all[a] == items[a] && all[b] == items[b];
      }
    }
  }

  lemma {:induction false} PairItemsSize(points: seq<Point3>, dist: Distance, rows: nat)
    requires rows <= |points|
    ensures |PairItems(points, dist, rows)| == PairsBefore(|points|, rows)
    decreases rows
  {
    if rows > 0 {
      PairItemsSize(points, dist, rows - 1);
    }
  }

  lemma {:induction false} PairItemsValid(points: seq<Point3>, dist: Distance, rows: nat)
    requires rows <= |points|
    ensures PairsValid(points, dist, PairItems(points, dist, rows), rows)
    decreases rows
  {
    if rows > 0 {
      var before := PairItems(points, dist, rows - 1);
      assert PairsValid(points, dist, before, rows - 1) by {
        PairItemsValid(points, dist, rows - 1);
      }
      assert PairItems(points, dist, rows) == before + RowItems(points, dist, rows - 1, rows);
      AppendRowValid(points, dist, before, rows - 1, PairItems(points, dist, rows));
    }
  }

  lemma {:induction false} PairItemsCovered(points: seq<Point3>, dist: Distance, rows: nat)
    requires rows <= |points|
    ensures PairsCovered(points, dist, PairItems(points, dist, rows), rows)
    decreases rows
  {
    if rows > 0 {
      var before := PairItems(points, dist, rows - 1);
      assert PairsCovered(points, dist, before, rows - 1) by {
        PairItemsCovered(points, dist, rows - 1);
      }
      assert PairItems(points, dist, rows) == before + RowItems(points, dist, rows - 1, rows);
      AppendRowMembers(points, dist, before, rows - 1, PairItems(points, dist, rows));
    }
  }

  lemma {:induction false} PairItemsAscending(points: seq<Point3>, dist: Distance, rows: nat)
    requires rows <= |points|
    ensures Ascending(PairItems(points, dist, rows))
    decreases rows
  {
    if rows > 0 {
      var before := PairItems(points, dist, rows - 1);
      assert Ascending(before) by {
        PairItemsAscending(points, dist, rows - 1);
      }
      assert PairItems(points, dist, rows) == before + RowItems(points, dist, rows - 1, rows);
      assert forall k :: 0 <= k < |before| ==> before[k].value.i < rows - 1 by {
        PairItemsValid(points, dist, rows - 1);
      }
      AppendRowAscending(points, dist, before, rows - 1, PairItems(points, dist, rows));
    }
  }

  /** Every pair once, in order, each with its distance. */
  lemma PairItemsFacts(points: seq<Point3>, dist: Distance, rows: nat)
    requires rows <= |points|
    ensures AllPairsOf(points, dist, PairItems(points, dist, rows), rows)
  {
    PairItemsValid(points, dist, rows);
    PairItemsCovered(points, dist, rows);
    PairItemsAscending(points, dist, rows);
  }

  /** The inner loop of `allPairsMinHeap`: pushes the pairs of row `i`. */
  method PushRow(points: seq<Point3>, dist: Distance, h: MinHeap<Pair>, i: nat) returns (h': MinHeap<Pair>)
    requires i < |points|
    ensures h'.items == h.items + RowItems(points, dist, i, i + 1)
  {
    h' := h;
    var j := i + 1;
    while j < |points|
      invariant i + 1 <= j <= |points|
      invariant h'.items + RowItems(points, dist, i, j) == h.items + RowItems(points, dist, i, i + 1)
    {
      assert RowItems(points, dist, i, j) == [Item(Pair(i, j), dist(points[i], points[j]))]
                                            + RowItems(points, dist, i, j + 1);
      h' := MinPush(h', Pair(i, j), dist(points[i], points[j]));
      j := j + 1;
    }
  }

  /** `allPairsMinHeap`: one item per pair of points `i < j`, each with its
      distance as priority, pushed in lexicographic order; n(n-1)/2 in
      all. */
  method AllPairsMinHeap(points: seq<Point3>, dist: Distance) returns (h: MinHeap<Pair>)
    ensures 2 * MinLen(h) == |points| * (|points| - 1)
    ensures AllPairsOf(points, dist, h.items, |points|)
  {
    h := MinHeap([]);
    var i := 0;
    while i < |points|
      invariant 0 <= i <= |points|
      invariant h.items == PairItems(points, dist, i)
    {
      h := PushRow(points, dist, h, i);
      i := i + 1;
    }
    PairItemsSize(points, dist, |points|);
    PairItemsFacts(points, dist, |points|);
    PairsBeforeValue(|points|, |points|);
  }

  // ---- the graph ----

  /** `Graph`: adjacency lists. */
  datatype Graph = Graph(adj: seq<seq<int>>)

  predicate ValidPair(n: nat, p: Pair) {
    0 <= p.i < n && 0 <= p.j < n
  }

  /** One pair wired: each end is appended to the other's list. */
  function Connect(adj: seq<seq<int>>, p: Pair): (r: seq<seq<int>>)
    requires ValidPair(|adj|, p)
    ensures |r| == |adj|
  {
    var a := adj[p.i := adj[p.i] + [p.j]];
    a[p.j := a[p.j] + [p.i]]
  }

  /** Every item names a valid pair: stated one item at a time, so that a
      prefix inherits it by unfolding. */
  predicate AllValid(n: nat, items: seq<Item<Pair>>) {
    |items| == 0 || (AllValid(n, items[..|items| - 1]) && ValidPair(n, Last(items).value))
  }

  lemma {:induction false} AllValidMeaning(n: nat, items: seq<Item<Pair>>)
    ensures AllValid(n, items) <==> forall k :: 0 <= k < |items| ==> ValidPair(n, items[k].value)
    decreases |items|
  {
    if |items| > 0 {
      var init := items[..|items| - 1];
      AllValidMeaning(n, init);
      assert forall k :: 0 <= k < |init| ==> init[k] == items[k];
    }
  }

  lemma AllValidPrefix(n: nat, items: seq<Item<Pair>>, m: nat)
    requires AllValid(n, items) && m <= |items|
    ensures AllValid(n, items[..m])
  {
    AllValidMeaning(n, items);
    AllValidMeaning(n, items[..m]);
  }

  /** The adjacency of `n` boxes after wiring the pairs of `items` in order. */
  function Wired(n: nat, items: seq<Item<Pair>>): (r: seq<seq<int>>)
    requires AllValid(n, items)
    ensures |r| == n
  {
    if |items| == 0 then seq(n, _ => [])
    else Connect(Wired(n, items[..|items| - 1]), Last(items).value)
  }

  /** Every list mentions `v` as often as `v`'s list mentions its owner,
      and lists only hold boxes. */
  predicate Symmetric(adj: seq<seq<int>>) {
    forall u, v :: 0 <= u < |adj| && 0 <= v < |adj| ==> multiset(adj[u])[v] == multiset(adj[v])[u]
  }

  predicate InRange(adj: seq<seq<int>>) {
    forall u, w :: 0 <= u < |adj| && w in adj[u] ==> 0 <= w < |adj|
  }

  /** How often `v` appears in `u`'s list after wiring `p`. */
  lemma ConnectCount(adj: seq<seq<int>>, p: Pair, u: int, v: int)
    requires ValidPair(|adj|, p) && 0 <= u < |adj|
    ensures multiset(Connect(adj, p)[u])[v]
            == multiset(adj[u])[v] + (if u == p.i && v == p.j then 1 else 0)
                                  + (if u == p.j && v == p.i then 1 else 0)
  {
    var a := adj[p.i := adj[p.i] + [p.j]];
    var r := a[p.j := a[p.j] + [p.i]];
    assert multiset(a[u])[v] == multiset(adj[u])[v] + (if u == p.i && v == p.j then 1 else 0) by {
      if u == p.i {
        assert multiset(adj[p.i] + [p.j]) == multiset(adj[p.i]) + multiset{p.j};
      }
    }
    if u == p.j {
      assert multiset(r[u]) == multiset(a[u]) + multiset{p.i};
    }
  }

  lemma ConnectKeeps(adj: seq<seq<int>>, p: Pair)
    requires ValidPair(|adj|, p) && Symmetric(adj) && InRange(adj)
    ensures Symmetric(Connect(adj, p)) && InRange(Connect(adj, p))
  {
    var r := Connect(adj, p);
    forall u, v | 0 <= u < |adj| && 0 <= v < |adj|
      ensures multiset(r[u])[v] == multiset(r[v])[u]
    {
      ConnectCount(adj, p, u, v);
      ConnectCount(adj, p, v, u);
    }
    forall u, w | 0 <= u < |adj| && w in r[u]
      ensures 0 <= w < |adj|
    {
      ConnectCount(adj, p, u, w);
      assert multiset(r[u])[w] > 0;
      if multiset(adj[u])[w] > 0 {
        assert w in adj[u];
      }
    }
  }

  /** Wiring keeps the lists symmetric: every wired pair appears in both of
      its ends' lists, once per time it was wired. */
  lemma {:induction false} WiredSymmetric(n: nat, items: seq<Item<Pair>>)
    requires AllValid(n, items)
    ensures Symmetric(Wired(n, items)) && InRange(Wired(n, items))
    decreases |items|
  {
    if |items| > 0 {
      WiredSymmetric(n, items[..|items| - 1]);
      ConnectKeeps(Wired(n, items[..|items| - 1]), Last(items).value);
    }
  }

  predicate HeapInRange(n: nat, h: MinHeap<Pair>) {
    forall k :: 0 <= k < |h.items| ==> ValidPair(n, h.items[k].value)
  }

  /** The pops of a min-heap: exactly `Drain`'s order. */
  lemma PopIsDrain(h: MinHeap<Pair>)
    requires MinLen(h) > 0
    ensures Drain(h) == [MinPopItem(h).0] + Drain(MinPop(h).1)
    ensures MinPop(h).0 == MinPopItem(h).0.value
  {
  }

  lemma PopKeepsRange(n: nat, h: MinHeap<Pair>)
    requires MinLen(h) > 0 && HeapInRange(n, h)
    ensures HeapInRange(n, MinPop(h).1) && ValidPair(n, MinPop(h).0)
  {
    var (item, rest) := MinPopItem(h);
    forall k | 0 <= k < |rest.items|
      ensures ValidPair(n, rest.items[k].value)
    {
      assert rest.items[k] in multiset(rest.items);
      assert rest.items[k] in multiset(h.items);
    }
    assert item in multiset(h.items);
  }

  lemma DrainInRange(n: nat, h: MinHeap<Pair>)
    requires HeapInRange(n, h)
    ensures AllValid(n, Drain(h))
  {
    AllValidMeaning(n, Drain(h));
    DrainSorted(h);
    forall k | 0 <= k < |Drain(h)|
      ensures ValidPair(n, Drain(h)[k].value)
    {
      assert Drain(h)[k] in multiset(Drain(h));
      assert Drain(h)[k] in multiset(h.items);
    }
  }

  lemma WiredStep(n: nat, items: seq<Item<Pair>>, m: nat)
    requires m < |items| && AllValid(n, items)
    ensures AllValid(n, items[..m]) && AllValid(n, items[..m + 1])
    ensures Wired(n, items[..m + 1]) == Connect(Wired(n, items[..m]), items[m].value)
  {
    AllValidPrefix(n, items, m + 1);
    assert items[..m + 1][..m] == items[..m];
  }

  /** One pop of the loops that wire pairs: it yields the next drained pair. */
  lemma PopStep(n: nat, drained: seq<Item<Pair>>, i: nat, h: MinHeap<Pair>, adj: seq<seq<int>>)
    requires MinLen(h) > 0 && HeapInRange(n, h)
    requires i <= |drained| && Drain(h) == drained[i..]
    requires AllValid(n, drained) && AllValid(n, drained[..i]) && adj == Wired(n, drained[..i])
    ensures i < |drained| && Drain(MinPop(h).1) == drained[i + 1..]
    ensures HeapInRange(n, MinPop(h).1) && MinLen(MinPop(h).1) == MinLen(h) - 1
    ensures ValidPair(|adj|, MinPop(h).0)
    ensures AllValid(n, drained[..i + 1]) && Connect(adj, MinPop(h).0) == Wired(n, drained[..i + 1])
  {
    PopNext(drained, i, h);
    PopKeepsRange(n, h);
    WiredStep(n, drained, i);
  }

  /** Popping yields the next drained item and leaves the rest. */
  lemma PopNext(drained: seq<Item<Pair>>, i: nat, h: MinHeap<Pair>)
    requires MinLen(h) > 0 && i <= |drained| && Drain(h) == drained[i..]
    ensures i < |drained| && drained[i].value == MinPop(h).0 && Drain(MinPop(h).1) == drained[i + 1..]
  {
    PopIsDrain(h);
    var x, rest := MinPopItem(h).0, Drain(MinPop(h).1);
    var tail := drained[i..];
    assert tail == [x] + rest;
    assert |tail| > 0 && tail[0] == drained[i];
    assert drained[i + 1..] == tail[1..] == rest;
  }

  /** `buildGraph`: the first `min(k, heap size)` pairs the heap yields,
      which are pairs of least priority, wired in that order. */
  method BuildGraph(n: nat, heap: MinHeap<Pair>, k: int) returns (g: Graph)
    requires HeapInRange(n, heap)
    ensures var m := Min(Max(k, 0), MinLen(heap));
            m <= |Drain(heap)| && AllValid(n, Drain(heap)[..m]) && g.adj == Wired(n, Drain(heap)[..m])
    ensures Symmetric(g.adj) && InRange(g.adj) && |g.adj| == n
  {
    DrainInRange(n, heap);
    var drained := Drain(heap);
    assert |drained| == MinLen(heap) by {
      DrainSorted(heap);
      assert |multiset(drained)| == |multiset(heap.items)|;
    }
    var i;
    g, i := WireLoop(n, heap, drained, k);
    WiredSymmetric(n, drained[..i]);
  }

  /** The loop of `buildGraph`: pops and wires while pairs are wanted and
      the heap has some, which is `min(k, heap size)` turns. */
  method WireLoop(n: nat, heap: MinHeap<Pair>, drained: seq<Item<Pair>>, k: int) returns (g: Graph, i: nat)
    requires HeapInRange(n, heap) && drained == Drain(heap) && |drained| == MinLen(heap)
    requires AllValid(n, drained)
    ensures i == Min(Max(k, 0), MinLen(heap)) && i <= |drained|
    ensures AllValid(n, drained[..i]) && g.adj == Wired(n, drained[..i])
  {
    g := Graph(seq(n, _ => []));
    var h := heap;
    var turns := Min(Max(k, 0), MinLen(heap));
    assert drained[..0] == [];
    for j := 0 to turns
      invariant Drain(h) == drained[j..] && HeapInRange(n, h) && MinLen(h) == MinLen(heap) - j
      invariant AllValid(n, drained[..j]) && g.adj == Wired(n, drained[..j])
    {
      var adj;
      h, adj := WireStep(n, drained, j, h, g.adj);
      g := Graph(adj);
    }
    i := turns;
  }

  /** One turn of that loop: pop the least pair and connect it. */
  method WireStep(n: nat, drained: seq<Item<Pair>>, i: nat, h: MinHeap<Pair>, adj: seq<seq<int>>)
    returns (h': MinHeap<Pair>, adj': seq<seq<int>>)
    requires MinLen(h) > 0 && HeapInRange(n, h)
    requires i <= |drained| && Drain(h) == drained[i..]
    requires AllValid(n, drained) && AllValid(n, drained[..i]) && adj == Wired(n, drained[..i])
    ensures i < |drained| && Drain(h') == drained[i + 1..]
    ensures HeapInRange(n, h') && MinLen(h') == MinLen(h) - 1
    ensures AllValid(n, drained[..i + 1]) && adj' == Wired(n, drained[..i + 1])
  {
    PopStep(n, drained, i, h, adj);
    var popped := MinPop(h);
    h' := popped.1;
    adj' := Connect(adj, popped.0);
  }

  /** The popped pairs have no larger priority than any pair left. */
  lemma WiredPairsAreClosest(heap: MinHeap<Pair>, m: nat)
    requires m <= |Drain(heap)|
    ensures forall a, b :: 0 <= a < m <= b < |Drain(heap)| ==> Drain(heap)[a].priority <= Drain(heap)[b].priority
  {
    DrainSorted(heap);
  }

  // ---- connectivity ----

  /** The successors of a box: its adjacency list. */
  function AdjNext(adj: seq<seq<int>>): (next: int -> seq<int>)
    ensures forall v :: 0 <= v < |adj| ==> next(v) == adj[v]
  {
    v => if 0 <= v < |adj| then adj[v] else []
  }

  lemma AdjClosed(adj: seq<seq<int>>)
    requires InRange(adj)
    ensures Closed(AdjNext(adj), Interval(0, |adj| - 1))
  {
  }

  /** Every box is reachable from box 0. */
  ghost predicate Connected(adj: seq<seq<int>>) {
    forall v :: 0 <= v < |adj| ==> Reachable(AdjNext(adj), 0, v)
  }

  lemma SameSize(a: set<int>, b: set<int>)
    requires a <= b && |a| == |b|
    ensures a == b
  {
    assert |b - a| == |b| - |a|;
  }

  /** What the size of a search from box 0 says: it marks every box
      exactly when every box is reachable. */
  lemma MarkedAllMeansConnected(adj: seq<seq<int>>, marked: map<int, int>)
    requires |adj| >= 1
    requires forall w :: IsWalk(AdjNext(adj), w) && w[0] == 0 ==> Last(w) in marked
    requires forall c :: c in marked ==> Reachable(AdjNext(adj), 0, c)
    requires marked.Keys <= Interval(0, |adj| - 1)
    ensures |marked.Keys| == |adj| <==> Connected(adj)
  {
    if |marked.Keys| == |adj| {
      MarkedAllConnected(adj, marked);
    }
    if Connected(adj) {
      ConnectedMarksAll(adj, marked);
    }
  }

  lemma MarkedAllConnected(adj: seq<seq<int>>, marked: map<int, int>)
    requires forall c :: c in marked ==> Reachable(AdjNext(adj), 0, c)
    requires marked.Keys <= Interval(0, |adj| - 1) && |marked.Keys| == |adj|
    ensures Connected(adj)
  {
    EveryBoxMarked(|adj|, marked.Keys);
  }

  lemma EveryBoxMarked(n: nat, marked: set<int>)
    requires marked <= Interval(0, n - 1) && |marked| == n
    ensures forall v :: 0 <= v < n ==> v in marked
  {
    SameSize(marked, Interval(0, n - 1));
  }

  lemma ConnectedMarksAll(adj: seq<seq<int>>, marked: map<int, int>)
    requires forall w :: IsWalk(AdjNext(adj), w) && w[0] == 0 ==> Last(w) in marked
    requires marked.Keys <= Interval(0, |adj| - 1) && Connected(adj)
    ensures |marked.Keys| == |adj|
  {
    ConnectedAllMarked(adj, marked);
    IntervalKeys(marked.Keys, |adj|);
  }

  lemma ConnectedAllMarked(adj: seq<seq<int>>, marked: map<int, int>)
    requires forall w :: IsWalk(AdjNext(adj), w) && w[0] == 0 ==> Last(w) in marked
    requires Connected(adj)
    ensures Interval(0, |adj| - 1) <= marked.Keys
  {
    forall v | v in Interval(0, |adj| - 1)
      ensures v in marked
    {
      ReachedIsMarked(adj, marked, v);
    }
  }

  /** A set of boxes between the whole interval and itself has its size. */
  lemma IntervalKeys(keys: set<int>, n: nat)
    requires keys <= Interval(0, n - 1) <= keys
    ensures |keys| == n
  {
    assert keys == Interval(0, n - 1);
    if n == 0 {
      assert keys == {};
    }
  }

  lemma ReachedIsMarked(adj: seq<seq<int>>, marked: map<int, int>, v: int)
    requires forall w :: IsWalk(AdjNext(adj), w) && w[0] == 0 ==> Last(w) in marked
    requires Reachable(AdjNext(adj), 0, v)
    ensures v in marked
  {
    var w :| IsWalk(AdjNext(adj), w) && w[0] == 0 && Last(w) == v;
  }

  /** `isConnected`: a search from box 0 marks every box it reaches, each
      once; the graph is connected when it marks all of them. Go indexes box
      0, so there must be one. */
  method IsConnected(adj: seq<seq<int>>) returns (connected: bool)
    requires |adj| >= 1 && InRange(adj)
    ensures connected <==> Connected(adj)
  {
    var next := AdjNext(adj);
    AdjClosed(adj);
    var marked := FloodFill(next, 0, Interval(0, |adj| - 1));
    MarkedAllMeansConnected(adj, marked);
    connected := |marked.Keys| == |adj|;
  }

  // ---- circuit sizes ----

  function CountTrue(s: seq<bool>): (c: nat)
    ensures c <= |s|
  {
    if |s| == 0 then 0 else CountTrue(s[..|s| - 1]) + (if Last(s) then 1 else 0)
  }

  lemma {:induction false} CountTrueMark(s: seq<bool>, v: nat)
    requires v < |s| && !s[v]
    ensures CountTrue(s[v := true]) == CountTrue(s) + 1
    decreases |s|
  {
    var s' := s[v := true];
    var init := s[..|s| - 1];
    if v < |s| - 1 {
      assert s'[..|s| - 1] == init[v := true];
      CountTrueMark(init, v);
    } else {
      assert s'[..|s| - 1] == init;
    }
  }

  lemma {:induction false} CountTrueAll(s: seq<bool>)
    requires forall v :: 0 <= v < |s| ==> s[v]
    ensures CountTrue(s) == |s|
    decreases |s|
  {
    if |s| > 0 {
      CountTrueAll(s[..|s| - 1]);
    }
  }

  lemma CountTrueNone(n: nat)
    ensures CountTrue(seq(n, _ => false)) == 0
  {
    if n > 0 {
      assert seq(n, _ => false)[..n - 1] == seq(n - 1, _ => false);
      CountTrueNone(n - 1);
    }
  }

  /** The boxes marked in `visited`. */
  function Marked(visited: seq<bool>): set<int> {
    set v | 0 <= v < |visited| && visited[v]
  }

  lemma {:induction false} CountTrueMarked(s: seq<bool>)
    ensures CountTrue(s) == |Marked(s)|
    decreases |s|
  {
    if |s| > 0 {
      var init := s[..|s| - 1];
      CountTrueMarked(init);
      if Last(s) {
        assert Marked(s) == Marked(init) + {|s| - 1};
      } else {
        assert Marked(s) == Marked(init);
      }
    }
  }

  lemma UnionCard(a: set<int>, b: set<int>)
    ensures |a + b| == |a| + |b - a|
  {
    assert a + b == a + (b - a);
    assert a * (b - a) == {};
  }

  /** The circuit of box `v`: every box reachable from it. */
  ghost function Circuit(adj: seq<seq<int>>, v: int): set<int> {
    set w | 0 <= w < |adj| && Reachable(AdjNext(adj), v, w)
  }

  /** A circuit holds every neighbour of its boxes. */
  lemma CircuitClosed(adj: seq<seq<int>>, v: int)
    requires InRange(adj)
    ensures Closed(AdjNext(adj), Circuit(adj, v))
  {
    var next := AdjNext(adj);
    forall c, n | c in Circuit(adj, v) && n in next(c)
      ensures n in Circuit(adj, v)
    {
      var w :| IsWalk(next, w) && w[0] == v && Last(w) == c;
      ExtendWalk(next, w, n);
    }
  }

  /** The circuits of the boxes `reps`, together. */
  ghost function Covered(adj: seq<seq<int>>, reps: seq<int>): set<int> {
    if |reps| == 0 then {} else Covered(adj, reps[..|reps| - 1]) + Circuit(adj, Last(reps))
  }

  lemma CoveredAppend(adj: seq<seq<int>>, reps: seq<int>, r: int)
    ensures Covered(adj, reps + [r]) == Covered(adj, reps) + Circuit(adj, r)
  {
    assert (reps + [r])[..|reps|] == reps;
  }

  /** The circuits together hold every neighbour of their boxes. */
  lemma {:induction false} CoveredClosed(adj: seq<seq<int>>, reps: seq<int>)
    requires InRange(adj)
    ensures Closed(AdjNext(adj), Covered(adj, reps))
    decreases |reps|
  {
    if |reps| > 0 {
      CoveredClosed(adj, reps[..|reps| - 1]);
      CircuitClosed(adj, Last(reps));
    }
  }

  /** A box is covered exactly when one of the circuits holds it. */
  lemma {:induction false} CoveredMeaning(adj: seq<seq<int>>, reps: seq<int>, v: int)
    ensures v in Covered(adj, reps) <==> exists k :: 0 <= k < |reps| && v in Circuit(adj, reps[k])
    decreases |reps|
  {
    if |reps| > 0 {
      var init := reps[..|reps| - 1];
      CoveredMeaning(adj, init, v);
      if v in Covered(adj, init) {
        var k :| 0 <= k < |init| && v in Circuit(adj, init[k]);
        assert reps[k] == init[k];
      }
      if exists k :: 0 <= k < |reps| && v in Circuit(adj, reps[k]) {
        var k :| 0 <= k < |reps| && v in Circuit(adj, reps[k]);
        if k < |init| {
          assert init[k] == reps[k];
        }
      }
    }
  }

  /** One neighbour looked at: an unmarked one is marked and queued. */
  method Visit(visited: seq<bool>, queue: seq<int>, node: int) returns (visited': seq<bool>, queue': seq<int>)
    requires 0 <= node < |visited|
    ensures |visited'| == |visited| && visited'[node]
    ensures forall v :: 0 <= v < |visited| ==> (visited'[v] <==> visited[v] || v == node)
    ensures CountTrue(visited') + |queue| == CountTrue(visited) + |queue'|
    ensures CountTrue(visited') > CountTrue(visited) || queue' == queue
    ensures (visited[node] && queue' == queue) || (!visited[node] && queue' == queue + [node])
  {
    if !visited[node] {
      CountTrueMark(visited, node);
      return visited[node := true], queue + [node];
    }
    return visited, queue;
  }

  /** The state of the search from `start`, which began from the marks
      `visited`: `vis` keeps those marks, the queue holds newly marked boxes,
      every newly marked box is reachable from `start`, and every newly
      marked box off the queue, other than the one being expanded (`busy`),
      has all its neighbours marked. */
  ghost predicate Searching(adj: seq<seq<int>>, visited: seq<bool>, start: int,
                            vis: seq<bool>, queue: seq<int>, busy: int) {
    && |vis| == |adj| && |visited| == |adj| && 0 <= start < |adj| && vis[start]
    && (forall v :: 0 <= v < |adj| && visited[v] ==> vis[v])
    && (forall q :: q in queue ==> 0 <= q < |adj| && vis[q] && !visited[q])
    && (forall v :: 0 <= v < |adj| && vis[v] && !visited[v] ==> Reachable(AdjNext(adj), start, v))
    && (forall v, w :: 0 <= v < |adj| && vis[v] && !visited[v] && v !in queue && v != busy && w in adj[v] ==>
          0 <= w < |adj| && vis[w])
  }

  lemma SearchBegin(adj: seq<seq<int>>, visited: seq<bool>, start: int, vis: seq<bool>)
    requires |visited| == |adj| && 0 <= start < |adj| && !visited[start] && vis == visited[start := true]
    ensures Searching(adj, visited, start, vis, [start], -1)
  {
    assert IsWalk(AdjNext(adj), [start]) && Last([start]) == start;
  }

  /** Taking the head of the queue makes it the box being expanded. */
  lemma SearchPop(adj: seq<seq<int>>, visited: seq<bool>, start: int, vis: seq<bool>, queue: seq<int>)
    requires InRange(adj) && Searching(adj, visited, start, vis, queue, -1) && |queue| > 0
    ensures 0 <= queue[0] < |adj| && vis[queue[0]] && !visited[queue[0]]
    ensures Searching(adj, visited, start, vis, queue[1..], queue[0])
  {
    assert queue[0] in queue;
    assert forall q :: q in queue[1..] ==> q in queue;
    assert forall q :: q in queue ==> q == queue[0] || q in queue[1..];
  }

  /** Looking at the `k`-th neighbour of the box being expanded. */
  lemma SearchVisit(adj: seq<seq<int>>, visited: seq<bool>, start: int, vis: seq<bool>, queue: seq<int>,
                    curr: int, k: int, node: int, vis': seq<bool>, queue': seq<int>)
    requires InRange(adj) && Searching(adj, visited, start, vis, queue, curr)
    requires 0 <= curr < |adj| && vis[curr] && !visited[curr] && 0 <= k < |adj[curr]|
    requires node == adj[curr][k] && 0 <= node < |adj|
    requires forall j :: 0 <= j < k ==> 0 <= adj[curr][j] < |vis| && vis[adj[curr][j]]
    requires |vis'| == |vis| && forall v :: 0 <= v < |vis| ==> (vis'[v] <==> vis[v] || v == node)
    requires (vis[node] && queue' == queue) || (!vis[node] && queue' == queue + [node])
    ensures Searching(adj, visited, start, vis', queue', curr)
    ensures forall j :: 0 <= j < k + 1 ==> 0 <= adj[curr][j] < |vis'| && vis'[adj[curr][j]]
  {
    assert node in adj[curr];
    if !vis[node] {
      var w :| IsWalk(AdjNext(adj), w) && w[0] == start && Last(w) == curr;
      ExtendWalk(AdjNext(adj), w, node);
    }
  }

  /** Once every neighbour of the box being expanded is marked, it is done. */
  lemma SearchExpanded(adj: seq<seq<int>>, visited: seq<bool>, start: int, vis: seq<bool>, queue: seq<int>,
                       curr: int)
    requires InRange(adj) && Searching(adj, visited, start, vis, queue, curr)
    requires 0 <= curr < |adj|
    requires forall j :: 0 <= j < |adj[curr]| ==> 0 <= adj[curr][j] < |vis| && vis[adj[curr][j]]
    ensures Searching(adj, visited, start, vis, queue, -1)
  {
    forall w | w in adj[curr]
      ensures 0 <= w < |adj| && vis[w]
    {
      var j :| 0 <= j < |adj[curr]| && adj[curr][j] == w;
    }
  }

  /** With the queue empty, the marks are the old ones plus the circuit of
      `start`, and they stay closed. */
  lemma SearchEnd(adj: seq<seq<int>>, visited: seq<bool>, start: int, vis: seq<bool>)
    requires InRange(adj) && Closed(AdjNext(adj), Marked(visited))
    requires Searching(adj, visited, start, vis, [], -1)
    ensures Marked(vis) == Marked(visited) + Circuit(adj, start)
    ensures Closed(AdjNext(adj), Marked(vis))
  {
    var next := AdjNext(adj);
    forall c, n | c in Marked(vis) && n in next(c)
      ensures n in Marked(vis)
    {
      if visited[c] {
        assert n in Marked(visited);
      }
    }
    forall w | w in Circuit(adj, start)
      ensures w in Marked(vis)
    {
      var u :| IsWalk(next, u) && u[0] == start && Last(u) == w;
      WalkStaysInside(next, Marked(vis), u);
    }
  }

  /** The inner loop of the search: looks at every neighbour of `curr`,
      marking and queueing the unmarked ones. */
  method Expand(adj: seq<seq<int>>, ghost visited: seq<bool>, ghost start: int, vis: seq<bool>, queue: seq<int>,
                curr: int)
    returns (vis': seq<bool>, queue': seq<int>)
    requires InRange(adj) && Searching(adj, visited, start, vis, queue, curr)
    requires 0 <= curr < |adj| && vis[curr] && !visited[curr]
    ensures Searching(adj, visited, start, vis', queue', -1)
    ensures CountTrue(vis') + |queue| == CountTrue(vis) + |queue'|
    ensures CountTrue(vis') > CountTrue(vis) || queue' == queue
  {
    vis', queue' := vis, queue;
    var ns := adj[curr];
    var k := 0;
    while k < |ns|
      invariant 0 <= k <= |ns|
      invariant Searching(adj, visited, start, vis', queue', curr) && vis'[curr]
      invariant forall j :: 0 <= j < k ==> 0 <= ns[j] < |vis'| && vis'[ns[j]]
      invariant CountTrue(vis') + |queue| == CountTrue(vis) + |queue'|
      invariant CountTrue(vis') > CountTrue(vis) || queue' == queue
    {
      assert ns[k] in adj[curr];
      var v, q := Visit(vis', queue', ns[k]);
      SearchVisit(adj, visited, start, vis', queue', curr, k, ns[k], v, q);
      vis', queue' := v, q;
      k := k + 1;
    }
    SearchExpanded(adj, visited, start, vis', queue', curr);
  }

  /** The search from one unmarked box: it marks the box's circuit, and
      its size is the number of boxes of that circuit not marked before. */
  method Explore(adj: seq<seq<int>>, visited: seq<bool>, start: nat) returns (visited': seq<bool>, size: int)
    requires InRange(adj) && |visited| == |adj| && start < |adj| && !visited[start]
    requires Closed(AdjNext(adj), Marked(visited))
    ensures |visited'| == |adj| && visited'[start]
    ensures forall v :: 0 <= v < |adj| && visited[v] ==> visited'[v]
    ensures Marked(visited') == Marked(visited) + Circuit(adj, start)
    ensures Closed(AdjNext(adj), Marked(visited'))
    ensures size >= 1 && CountTrue(visited') == CountTrue(visited) + size
    ensures size == |Circuit(adj, start) - Marked(visited)|
  {
    CountTrueMark(visited, start);
    visited' := visited[start := true];
    var queue := [start];
    size := 0;
    SearchBegin(adj, visited, start, visited');
    while |queue| > 0
      invariant Searching(adj, visited, start, visited', queue, -1)
      invariant CountTrue(visited') == CountTrue(visited) + size + |queue|
      invariant size >= 1 || |queue| > 0
      decreases |adj| - CountTrue(visited'), |queue|
    {
      SearchPop(adj, visited, start, visited', queue);
      var curr := queue[0];
      queue := queue[1..];
      size := size + 1;
      visited', queue := Expand(adj, visited, start, visited', queue, curr);
    }
    SearchEnd(adj, visited, start, visited');
    CountTrueMarked(visited);
    CountTrueMarked(visited');
    UnionCard(Marked(visited), Circuit(adj, start));
  }

  /** What the component search has recorded: each start box was not yet
      covered by the circuits of the ones before it, and each size counts
      the boxes of its circuit not covered before. */
  ghost predicate Tally(adj: seq<seq<int>>, reps: seq<int>, sizes: seq<int>) {
    |reps| == |sizes| && TallyUpTo(adj, reps, sizes, |reps|)
  }

  /** The tally of the first `n` searches. */
  ghost predicate TallyUpTo(adj: seq<seq<int>>, reps: seq<int>, sizes: seq<int>, n: int)
    requires 0 <= n <= |reps| == |sizes|
    decreases n
  {
    n == 0 || (TallyUpTo(adj, reps, sizes, n - 1) && Fresh(adj, Covered(adj, reps[..n - 1]), reps[n - 1], sizes[n - 1]))
  }

  /** A search from `r` started at an unmarked box, with `before` marked,
      and marked `size` more boxes. */
  ghost predicate Fresh(adj: seq<seq<int>>, before: set<int>, r: int, size: int) {
    0 <= r < |adj| && r !in before && size == |Circuit(adj, r) - before|
  }

  /** What the tally records about the `k`-th search. */
  lemma TallyAt(adj: seq<seq<int>>, reps: seq<int>, sizes: seq<int>, k: int)
    requires Tally(adj, reps, sizes) && 0 <= k < |reps|
    ensures Fresh(adj, Covered(adj, reps[..k]), reps[k], sizes[k])
  {
    TallyUpToAt(adj, reps, sizes, |reps|, k);
  }

  lemma {:induction false} TallyUpToAt(adj: seq<seq<int>>, reps: seq<int>, sizes: seq<int>, n: int, k: int)
    requires 0 <= n <= |reps| == |sizes| && TallyUpTo(adj, reps, sizes, n) && 0 <= k < n
    ensures Fresh(adj, Covered(adj, reps[..k]), reps[k], sizes[k])
    decreases n
  {
    if k < n - 1 {
      TallyUpToAt(adj, reps, sizes, n - 1, k);
    }
  }

  /** A tally is a search record that is fresh at every step. */
  lemma {:induction false} TallyFromFresh(adj: seq<seq<int>>, reps: seq<int>, sizes: seq<int>, n: int)
    requires 0 <= n <= |reps| == |sizes|
    requires forall k :: 0 <= k < n ==> Fresh(adj, Covered(adj, reps[..k]), reps[k], sizes[k])
    ensures TallyUpTo(adj, reps, sizes, n)
    decreases n
  {
    if n > 0 {
      TallyFromFresh(adj, reps, sizes, n - 1);
    }
  }

  lemma TallyAppend(adj: seq<seq<int>>, reps: seq<int>, sizes: seq<int>, r: int, size: int)
    requires Tally(adj, reps, sizes) && Fresh(adj, Covered(adj, reps), r, size)
    ensures Tally(adj, reps + [r], sizes + [size])
  {
    var reps', sizes' := reps + [r], sizes + [size];
    forall k | 0 <= k < |reps'|
      ensures Fresh(adj, Covered(adj, reps'[..k]), reps'[k], sizes'[k])
    {
      if k < |reps| {
        TallyAt(adj, reps, sizes, k);
        assert reps'[..k] == reps[..k] && reps'[k] == reps[k] && sizes'[k] == sizes[k];
      } else {
        assert reps'[..k] == reps;
      }
    }
    TallyFromFresh(adj, reps', sizes', |reps'|);
  }

  /** Some box of `reps` reaches `v`. */
  ghost predicate ReachedBy(adj: seq<seq<int>>, reps: seq<int>, v: int) {
    exists k :: 0 <= k < |reps| && Reachable(AdjNext(adj), reps[k], v)
  }

  /** `reps` names one box of every circuit of `adj`, no circuit twice. */
  ghost predicate Representatives(adj: seq<seq<int>>, reps: seq<int>) {
    && (forall k :: 0 <= k < |reps| ==> 0 <= reps[k] < |adj|)
    && (forall v :: 0 <= v < |adj| ==> ReachedBy(adj, reps, v))
    && (forall i, k :: 0 <= i < |reps| && 0 <= k < |reps| && i != k ==>
          !Reachable(AdjNext(adj), reps[i], reps[k]))
  }

  /** The sizes of the circuits of `reps`, in order. */
  ghost function CircuitSizes(adj: seq<seq<int>>, reps: seq<int>): seq<int> {
    seq(|reps|, k requires 0 <= k < |reps| => |Circuit(adj, reps[k])|)
  }

  /** In symmetric lists every wire can be followed both ways. */
  lemma SymmetricStep(adj: seq<seq<int>>, a: int, b: int)
    requires Symmetric(adj) && InRange(adj) && 0 <= a < |adj| && b in adj[a]
    ensures a in adj[b]
  {
    assert multiset(adj[a])[b] > 0;
    assert multiset(adj[b])[a] > 0;
  }

  lemma {:induction false} WalkBack(adj: seq<seq<int>>, w: seq<int>)
    requires Symmetric(adj) && InRange(adj)
    requires IsWalk(AdjNext(adj), w) && 0 <= w[0] < |adj|
    ensures Reachable(AdjNext(adj), Last(w), w[0])
    decreases |w|
  {
    var next := AdjNext(adj);
    if |w| == 1 {
      assert IsWalk(next, [w[0]]) && Last([w[0]]) == w[0];
    } else {
      var rest := w[1..];
      assert Step(next, w[0], w[1]);
      assert IsWalk(next, rest) by {
        forall i | 0 <= i < |rest| - 1
          ensures Step(next, rest[i], rest[i + 1])
        {
          assert rest[i] == w[i + 1] && rest[i + 1] == w[i + 2];
        }
      }
      WalkBack(adj, rest);
      var u :| IsWalk(next, u) && u[0] == Last(rest) && Last(u) == rest[0];
      SymmetricStep(adj, w[0], w[1]);
      ExtendWalk(next, u, w[0]);
    }
  }

  /** In symmetric lists reachability goes both ways. */
  lemma ReachBack(adj: seq<seq<int>>, a: int, b: int)
    requires Symmetric(adj) && InRange(adj) && 0 <= a < |adj|
    ensures Reachable(AdjNext(adj), a, b) ==> Reachable(AdjNext(adj), b, a)
  {
    if Reachable(AdjNext(adj), a, b) {
      var w :| IsWalk(AdjNext(adj), w) && w[0] == a && Last(w) == b;
      WalkBack(adj, w);
    }
  }

  /** Two circuits that share a box share all of it: the circuit of `a`
      then holds `b`. */
  lemma Overlap(adj: seq<seq<int>>, a: int, b: int, w: int)
    requires Symmetric(adj) && InRange(adj) && 0 <= b < |adj|
    ensures w in Circuit(adj, a) && w in Circuit(adj, b) ==> b in Circuit(adj, a)
  {
    var next := AdjNext(adj);
    ReachBack(adj, b, w);
    if w in Circuit(adj, a) && w in Circuit(adj, b) {
      var u :| IsWalk(next, u) && u[0] == w && Last(u) == b;
      CircuitClosed(adj, a);
      WalkStaysInside(next, Circuit(adj, a), u);
    }
  }

  /** The circuits of the start boxes cover every box. */
  lemma CircuitsCover(adj: seq<seq<int>>, reps: seq<int>)
    requires forall v :: 0 <= v < |adj| ==> v in Covered(adj, reps)
    ensures forall v :: 0 <= v < |adj| ==> ReachedBy(adj, reps, v)
  {
    forall v | 0 <= v < |adj|
      ensures ReachedBy(adj, reps, v)
    {
      CoveredMeaning(adj, reps, v);
      var k :| 0 <= k < |reps| && v in Circuit(adj, reps[k]);
    }
  }

  /** With symmetric lists no start box reaches another. */
  lemma StartsApart(adj: seq<seq<int>>, reps: seq<int>, sizes: seq<int>)
    requires Symmetric(adj) && InRange(adj) && Tally(adj, reps, sizes)
    ensures forall i, k :: 0 <= i < |reps| && 0 <= k < |reps| && i != k ==>
              !Reachable(AdjNext(adj), reps[i], reps[k])
  {
    forall i, k | 0 <= i < |reps| && 0 <= k < |reps| && i != k
      ensures !Reachable(AdjNext(adj), reps[i], reps[k])
    {
      if i < k {
        TallyAt(adj, reps, sizes, k);
        CoveredMeaning(adj, reps[..k], reps[k]);
        assert reps[..k][i] == reps[i];
      } else {
        TallyAt(adj, reps, sizes, i);
        TallyAt(adj, reps, sizes, k);
        CoveredMeaning(adj, reps[..i], reps[i]);
        assert reps[..i][k] == reps[k];
        ReachBack(adj, reps[i], reps[k]);
      }
    }
  }

  /** With symmetric lists no box of the `k`-th circuit was covered
      before, so its size is the whole circuit's. */
  lemma WholeCircuit(adj: seq<seq<int>>, reps: seq<int>, sizes: seq<int>, k: int)
    requires Symmetric(adj) && InRange(adj) && Tally(adj, reps, sizes) && 0 <= k < |reps|
    ensures sizes[k] == |Circuit(adj, reps[k])|
  {
    var before := Covered(adj, reps[..k]);
    TallyAt(adj, reps, sizes, k);
    CoveredMeaning(adj, reps[..k], reps[k]);
    forall w | w in Circuit(adj, reps[k])
      ensures w !in before
    {
      CoveredMeaning(adj, reps[..k], w);
      forall i | 0 <= i < k
        ensures w !in Circuit(adj, reps[..k][i])
      {
        assert reps[..k][i] == reps[i];
        Overlap(adj, reps[i], reps[k], w);
      }
    }
    assert Circuit(adj, reps[k]) - before == Circuit(adj, reps[k]);
  }

  /** With symmetric lists the component search finds each circuit once,
      and each size is the size of the whole circuit. */
  lemma CircuitsApart(adj: seq<seq<int>>, reps: seq<int>, sizes: seq<int>)
    requires Symmetric(adj) && InRange(adj) && Tally(adj, reps, sizes)
    requires forall v :: 0 <= v < |adj| ==> v in Covered(adj, reps)
    ensures Representatives(adj, reps) && sizes == CircuitSizes(adj, reps)
  {
    CircuitsCover(adj, reps);
    StartsApart(adj, reps, sizes);
    forall k | 0 <= k < |reps|
      ensures 0 <= reps[k] < |adj| && sizes[k] == CircuitSizes(adj, reps)[k]
    {
      TallyAt(adj, reps, sizes, k);
      WholeCircuit(adj, reps, sizes, k);
    }
  }

  /** What the component search keeps: the marks are the circuits found
      so far, closed, and counted by the sizes. */
  ghost predicate Counting(adj: seq<seq<int>>, visited: seq<bool>, sizes: seq<int>, reps: seq<int>) {
    && |visited| == |adj|
    && CountTrue(visited) == Sum(sizes)
    && (forall k :: 0 <= k < |sizes| ==> sizes[k] >= 1)
    && Tally(adj, reps, sizes)
    && Marked(visited) == Covered(adj, reps)
  }

  lemma CountingBegin(adj: seq<seq<int>>)
    ensures Counting(adj, seq(|adj|, _ => false), [], [])
  {
    CountTrueNone(|adj|);
    assert Marked(seq(|adj|, _ => false)) == {};
  }

  /** Once every box is marked, the circuits found cover all of them. */
  lemma CountingDone(adj: seq<seq<int>>, visited: seq<bool>, sizes: seq<int>, reps: seq<int>)
    requires InRange(adj) && Counting(adj, visited, sizes, reps)
    requires forall v :: 0 <= v < |adj| ==> visited[v]
    ensures Sum(sizes) == |adj|
    ensures forall v :: 0 <= v < |adj| ==> v in Covered(adj, reps)
    ensures Symmetric(adj) ==> Representatives(adj, reps) && sizes == CircuitSizes(adj, reps)
  {
    CountTrueAll(visited);
    assert forall v :: 0 <= v < |adj| ==> v in Marked(visited);
    if Symmetric(adj) {
      CircuitsApart(adj, reps, sizes);
    }
  }

  /** One search from an unmarked box adds its circuit. */
  method CountFrom(adj: seq<seq<int>>, visited: seq<bool>, sizes: seq<int>, reps: seq<int>, start: nat)
    returns (visited': seq<bool>, sizes': seq<int>, reps': seq<int>)
    requires InRange(adj) && Counting(adj, visited, sizes, reps) && start < |adj|
    requires forall v :: 0 <= v < start ==> visited[v]
    ensures Counting(adj, visited', sizes', reps')
    ensures forall v :: 0 <= v <= start ==> visited'[v]
  {
    if visited[start] {
      return visited, sizes, reps;
    }
    CoveredClosed(adj, reps);
    var size;
    visited', size := Explore(adj, visited, start);
    CountingStep(adj, visited, sizes, reps, start, visited', size);
    sizes', reps' := sizes + [size], reps + [start];
  }

  lemma CountingStep(adj: seq<seq<int>>, visited: seq<bool>, sizes: seq<int>, reps: seq<int>, start: int,
                     visited': seq<bool>, size: int)
    requires Counting(adj, visited, sizes, reps) && 0 <= start < |adj| && !visited[start]
    requires |visited'| == |adj| && Marked(visited') == Marked(visited) + Circuit(adj, start)
    requires size >= 1 && CountTrue(visited') == CountTrue(visited) + size
    requires size == |Circuit(adj, start) - Marked(visited)|
    ensures Counting(adj, visited', sizes + [size], reps + [start])
  {
    TallyStep(adj, Marked(visited), sizes, reps, start, size);
    CoveredAppend(adj, reps, start);
    SumAppend(sizes, size);
  }

  lemma TallyStep(adj: seq<seq<int>>, marked: set<int>, sizes: seq<int>, reps: seq<int>, start: int, size: int)
    requires Tally(adj, reps, sizes) && marked == Covered(adj, reps)
    requires 0 <= start < |adj| && start !in marked && size == |Circuit(adj, start) - marked|
    ensures Tally(adj, reps + [start], sizes + [size])
  {
    assert Fresh(adj, Covered(adj, reps), start, size);
    TallyAppend(adj, reps, sizes, start, size);
  }

  /** The component search of part 1: a search starts from every box not
      yet marked, in index order. Each start box is outside the circuits
      found before, each size counts the boxes its search newly marks, and
      together the circuits cover every box. With symmetric lists, as
      `buildGraph` makes, the starts name each circuit once and the sizes
      are the circuit sizes. */
  method ComponentSizes(adj: seq<seq<int>>) returns (sizes: seq<int>, reps: seq<int>)
    requires InRange(adj)
    ensures Sum(sizes) == |adj|
    ensures forall k :: 0 <= k < |sizes| ==> sizes[k] >= 1
    ensures Tally(adj, reps, sizes)
    ensures forall v :: 0 <= v < |adj| ==> v in Covered(adj, reps)
    ensures Symmetric(adj) ==> Representatives(adj, reps) && sizes == CircuitSizes(adj, reps)
  {
    var n := |adj|;
    var visited := seq(n, _ => false);
    sizes, reps := [], [];
    CountingBegin(adj);
    var start := 0;
    while start < n
      invariant 0 <= start <= n && Counting(adj, visited, sizes, reps)
      invariant forall v :: 0 <= v < start ==> visited[v]
    {
      visited, sizes, reps := CountFrom(adj, visited, sizes, reps, start);
      start := start + 1;
    }
    CountingDone(adj, visited, sizes, reps);
  }

  // ---- the three largest ----

  predicate Descending(s: seq<int>) {
    forall a, b :: 0 <= a < b < |s| ==> s[a] >= s[b]
  }

  function InsertDescending(s: seq<int>, x: int): (r: seq<int>)
    requires Descending(s)
    ensures Descending(r) && multiset(r) == multiset(s) + multiset{x}
  {
    if |s| == 0 then [x]
    else if x >= s[0] then [x] + s
    else
      var rest := InsertDescending(s[1..], x);
      assert s == [s[0]] + s[1..];
      HeadBounds(s[0], s[1..], x, rest);
      [s[0]] + rest
  }

  lemma HeadBounds(h: int, tail: seq<int>, x: int, rest: seq<int>)
    requires forall k :: 0 <= k < |tail| ==> h >= tail[k]
    requires h > x && multiset(rest) == multiset(tail) + multiset{x}
    ensures forall k :: 0 <= k < |rest| ==> h >= rest[k]
  {
    forall k | 0 <= k < |rest|
      ensures h >= rest[k]
    {
      assert rest[k] in multiset(rest);
      if rest[k] != x {
        assert rest[k] in multiset(tail);
      }
    }
  }

  /** `slices.SortFunc` with `b - a`: the sizes, largest first. */
  function SortDescending(s: seq<int>): (r: seq<int>)
    ensures Descending(r) && multiset(r) == multiset(s)
  {
    if |s| == 0 then []
    else
      assert s == s[..|s| - 1] + [Last(s)];
      InsertDescending(SortDescending(s[..|s| - 1]), Last(s))
  }

  /** `out`: the first three sorted sizes, 0 where there are fewer. */
  function TopThree(sorted: seq<int>): (out: seq<int>)
    ensures |out| == 3
    ensures forall k :: 0 <= k < 3 ==> out[k] == if k < |sorted| then sorted[k] else 0
  {
    seq(3, k requires 0 <= k < 3 => if k < |sorted| then sorted[k] else 0)
  }

  /** The largest size heads the sorted list: no size exceeds it. */
  lemma SortedHeadIsLargest(s: seq<int>)
    requires |s| > 0
    ensures forall x :: x in s ==> x <= SortDescending(s)[0]
  {
    var r := SortDescending(s);
    forall x | x in s
      ensures x <= r[0]
    {
      assert x in multiset(r);
      var k :| 0 <= k < |r| && r[k] == x;
    }
  }

  /** Part 1: the product of the three largest circuit sizes after wiring
      the `numConns` closest pairs. Besides the answer it returns the sizes
      sorted, the order `drained` in which the heap yields the pairs, and a
      box of each circuit. */
  method Part1(lines: seq<string>, dist: Distance, numConns: int)
    returns (result: Option<int>, sizes: seq<int>, drained: seq<Item<Pair>>, reps: seq<int>)
    ensures result.Some? <==> ParsePoints(lines).Some?
    ensures result.Some? ==>
              var points := ParsePoints(lines).value;
              var m := Min(Max(numConns, 0), |drained|);
              && EveryPairOnce(points, dist, drained) && SortedByPriority(drained)
              && AllValid(|points|, drained[..m])
              && Representatives(Wired(|points|, drained[..m]), reps)
              && multiset(sizes) == multiset(CircuitSizes(Wired(|points|, drained[..m]), reps))
    ensures result.Some? ==>
              Sum(sizes) == |lines| && (forall k :: 0 <= k < |sizes| ==> sizes[k] >= 1)
              && Descending(sizes)
              && result.value == TopThree(sizes)[0] * TopThree(sizes)[1] * TopThree(sizes)[2]
  {
    var points := ParsePoints(lines);
    if points.None? {
      return None, [], [], [];
    }
    var heap := AllPairsMinHeap(points.value, dist);
    DrainSorted(heap);
    drained := Drain(heap);
    PermutedPairs(points.value, dist, heap.items, drained);
    var n := |points.value|;
    assert HeapInRange(n, heap);
    assert |drained| == MinLen(heap) by {
      assert |multiset(drained)| == |multiset(heap.items)|;
    }
    var g := BuildGraph(n, heap, numConns);
    var found;
    found, reps := ComponentSizes(g.adj);
    sizes := SortDescending(found);
    assert Sum(sizes) == Sum(found) by {
      SumPermutation(found, sizes);
    }
    assert forall k :: 0 <= k < |sizes| ==> sizes[k] >= 1 by {
      forall k | 0 <= k < |sizes|
        ensures sizes[k] >= 1
      {
        assert sizes[k] in multiset(found);
        var j :| 0 <= j < |found| && found[j] == sizes[k];
      }
    }
    var out := TopThree(sizes);
    return Some(out[0] * out[1] * out[2]), sizes, drained, reps;
  }

  lemma {:induction false} SumPermutation(a: seq<int>, b: seq<int>)
    requires multiset(a) == multiset(b)
    ensures Sum(a) == Sum(b)
    decreases |a|
  {
    if |a| > 0 {
      var x := Last(a);
      assert x in multiset(b) by {
        assert a == a[..|a| - 1] + [x];
      }
      var j :| 0 <= j < |b| && b[j] == x;
      var b' := b[..j] + b[j + 1..];
      assert b == b[..j] + [x] + b[j + 1..];
      assert a == a[..|a| - 1] + [x];
      assert multiset(b) == multiset(b[..j]) + multiset{x} + multiset(b[j + 1..]);
      assert multiset(a) == multiset(a[..|a| - 1]) + multiset{x};
      assert multiset(b') == multiset(b) - multiset{x};
      assert multiset(a[..|a| - 1]) == multiset(a) - multiset{x};
      SumPermutation(a[..|a| - 1], b');
      SumSplit(b[..j], x, b[j + 1..]);
      SumAppend(a[..|a| - 1], x);
    }
  }

  lemma {:induction false} SumSplit(l: seq<int>, x: int, r: seq<int>)
    ensures Sum(l + [x] + r) == Sum(l + r) + x
    decreases |r|
  {
    if |r| == 0 {
      assert l + [x] + r == l + [x];
      assert l + r == l;
      SumAppend(l, x);
    } else {
      var r' := r[..|r| - 1];
      assert l + [x] + r == (l + [x] + r') + [Last(r)];
      assert l + r == (l + r') + [Last(r)];
      SumSplit(l, x, r');
      SumAppend(l + [x] + r', Last(r));
      SumAppend(l + r', Last(r));
    }
  }

  // ---- part 2 ----

  /** Connected after wiring the first `m` pairs the heap yields. */
  ghost predicate ConnectedAfter(n: nat, drained: seq<Item<Pair>>, m: nat)
    requires m <= |drained| && AllValid(n, drained)
  {
    AllValidPrefix(n, drained, m);
    Connected(Wired(n, drained[..m]))
  }

  /** Not connected after any of the counts 1 to `i`: stated one count at a
      time so that the loop can extend it by unfolding once. */
  ghost predicate NotYetConnected(n: nat, drained: seq<Item<Pair>>, i: nat)
    requires i <= |drained| && AllValid(n, drained)
  {
    i == 0 || (NotYetConnected(n, drained, i - 1) && !ConnectedAfter(n, drained, i))
  }

  lemma {:induction false} NotYetConnectedMeaning(n: nat, drained: seq<Item<Pair>>, i: nat)
    requires i <= |drained| && AllValid(n, drained)
    ensures NotYetConnected(n, drained, i) <==> forall m :: 1 <= m <= i ==> !ConnectedAfter(n, drained, m)
    decreases i
  {
    if i > 0 {
      NotYetConnectedMeaning(n, drained, i - 1);
    }
  }

  /** `m` pairs wired connect the boxes, and no fewer did. */
  ghost predicate FirstConnection(n: nat, drained: seq<Item<Pair>>, m: nat)
    requires AllValid(n, drained)
  {
    1 <= m <= |drained| && ConnectedAfter(n, drained, m)
    && forall m' :: 1 <= m' < m ==> !ConnectedAfter(n, drained, m')
  }

  /** No number of wired pairs connects the boxes. */
  ghost predicate NeverConnected(n: nat, drained: seq<Item<Pair>>)
    requires AllValid(n, drained)
  {
    forall m :: 1 <= m <= |drained| ==> !ConnectedAfter(n, drained, m)
  }

  lemma FoundFirst(n: nat, drained: seq<Item<Pair>>, i: nat)
    requires 1 <= i <= |drained| && AllValid(n, drained)
    requires NotYetConnected(n, drained, i - 1) && ConnectedAfter(n, drained, i)
    ensures FirstConnection(n, drained, i)
  {
    NotYetConnectedMeaning(n, drained, i - 1);
  }

  lemma FoundNone(n: nat, drained: seq<Item<Pair>>)
    requires AllValid(n, drained) && NotYetConnected(n, drained, |drained|)
    ensures NeverConnected(n, drained)
  {
    NotYetConnectedMeaning(n, drained, |drained|);
  }

  /** The check after the `i`-th pair: connected now, when it was not
      before, makes `i` the first connecting count. */
  method CheckWiring(n: nat, drained: seq<Item<Pair>>, i: nat, adj: seq<seq<int>>) returns (connected: bool)
    requires n >= 1 && 1 <= i <= |drained| && AllValid(n, drained)
    requires AllValid(n, drained[..i]) && adj == Wired(n, drained[..i])
    requires NotYetConnected(n, drained, i - 1)
    ensures connected ==> FirstConnection(n, drained, i)
    ensures !connected ==> NotYetConnected(n, drained, i)
  {
    WiredSymmetric(n, drained[..i]);
    connected := IsConnected(adj);
    if connected {
      FoundFirst(n, drained, i);
    }
  }

  /** Part 2's loop: wire pairs in heap order until the graph is connected.
      The answer is the number of pairs wired, the first count after which
      the boxes form one circuit; none ("FAIL") when no count does. */
  method WireUntilConnected(n: nat, heap: MinHeap<Pair>) returns (m: Option<nat>)
    requires n >= 1 && HeapInRange(n, heap)
    ensures AllValid(n, Drain(heap))
    ensures m.Some? ==> FirstConnection(n, Drain(heap), m.value)
    ensures m.None? ==> NeverConnected(n, Drain(heap))
  {
    DrainInRange(n, heap);
    var drained := Drain(heap);
    var adj: seq<seq<int>> := seq(n, _ => []);
    var h := heap;
    var i := 0;
    assert drained[..0] == [];
    assert AllValid(n, drained[..0]);
    while MinLen(h) > 0
      invariant 0 <= i <= |drained| && Drain(h) == drained[i..]
      invariant HeapInRange(n, h)
      invariant AllValid(n, drained[..i]) && adj == Wired(n, drained[..i])
      invariant NotYetConnected(n, drained, i)
      decreases MinLen(h)
    {
      PopStep(n, drained, i, h, adj);
      var popped := MinPop(h);
      var p := popped.0;
      h := popped.1;
      adj := Connect(adj, p);
      i := i + 1;
      var connected := CheckWiring(n, drained, i, adj);
      if connected {
        return Some(i);
      }
    }
    assert Drain(h) == [];
    FoundNone(n, drained);
    return None;
  }

  /** Two counts that each connect the boxes first are the same count. */
  lemma FirstConnectionUnique(n: nat, drained: seq<Item<Pair>>, a: nat, b: nat)
    requires AllValid(n, drained) && FirstConnection(n, drained, a) && FirstConnection(n, drained, b)
    ensures a == b
  {
  }

  /** Every pair of distinct boxes `i < j`, each once, with its priority. */
  predicate EveryPairOnce(points: seq<Point3>, dist: Distance, items: seq<Item<Pair>>) {
    && 2 * |items| == |points| * (|points| - 1)
    && (forall k :: 0 <= k < |items| ==>
          var p := items[k].value;
          0 <= p.i < p.j < |points| && items[k].priority == dist(points[p.i], points[p.j]))
    && (forall i, j :: 0 <= i < j < |points| ==> PairItem(points, dist, i, j) in items)
  }

  /** Reordering the items keeps them every pair once. */
  lemma PermutedPairs(points: seq<Point3>, dist: Distance, a: seq<Item<Pair>>, b: seq<Item<Pair>>)
    requires AllPairsOf(points, dist, a, |points|) && 2 * |a| == |points| * (|points| - 1)
    requires multiset(a) == multiset(b)
    ensures EveryPairOnce(points, dist, b)
  {
    assert |a| == |multiset(a)| == |multiset(b)| == |b|;
    forall k | 0 <= k < |b|
      ensures var p := b[k].value;
              0 <= p.i < p.j < |points| && b[k].priority == dist(points[p.i], points[p.j])
    {
      assert b[k] in multiset(a);
      var k' :| 0 <= k' < |a| && a[k'] == b[k];
    }
    forall i, j | 0 <= i < j < |points|
      ensures PairItem(points, dist, i, j) in b
    {
      assert PairItem(points, dist, i, j) in multiset(a);
    }
  }

  /** `result` is the product of the x coordinates of the two boxes of the
      pair whose wiring first connects all boxes, when the pairs are wired
      in the order `drained`; none when no count connects them. */
  ghost predicate CompletingProduct(points: seq<Point3>, drained: seq<Item<Pair>>, result: Option<int>)
    requires AllValid(|points|, drained)
  {
    AllValidMeaning(|points|, drained);
    && (result.Some? <==> exists m: nat :: FirstConnection(|points|, drained, m))
    && forall m: nat :: result.Some? && FirstConnection(|points|, drained, m) ==>
         result.value == points[drained[m - 1].value.i].x * points[drained[m - 1].value.j].x
  }

  /** Part 2 on parsed points: every pair goes on the heap, the pairs come
      off closest first, and the answer comes from the completing pair. */
  method CompletingPair(points: seq<Point3>, dist: Distance) returns (result: Option<int>, drained: seq<Item<Pair>>)
    ensures EveryPairOnce(points, dist, drained) && SortedByPriority(drained)
    ensures AllValid(|points|, drained) && CompletingProduct(points, drained, result)
  {
    var n := |points|;
    var heap := AllPairsMinHeap(points, dist);
    DrainSorted(heap);
    drained := Drain(heap);
    PermutedPairs(points, dist, heap.items, drained);
    assert HeapInRange(n, heap);
    DrainInRange(n, heap);
    var m: Option<nat> := None;
    if n > 0 {
      m := WireUntilConnected(n, heap);
    }
    ProductAfterFirst(points, drained, m);
    result := ProductAfter(points, drained, m);
  }

  /** The x product of the `m`-th wired pair, if there is an `m`. */
  function ProductAfter(points: seq<Point3>, drained: seq<Item<Pair>>, m: Option<nat>): Option<int>
    requires AllValid(|points|, drained) && (m.Some? ==> 1 <= m.value <= |drained|)
  {
    AllValidMeaning(|points|, drained);
    match m
    case None => None
    case Some(c) =>
      var p := drained[c - 1].value;
      Some(points[p.i].x * points[p.j].x)
  }

  lemma ProductAfterFirst(points: seq<Point3>, drained: seq<Item<Pair>>, m: Option<nat>)
    requires AllValid(|points|, drained)
    requires |points| == 0 ==> m.None? && |drained| == 0
    requires m.Some? ==> FirstConnection(|points|, drained, m.value)
    requires |points| > 0 && m.None? ==> NeverConnected(|points|, drained)
    ensures (m.Some? ==> 1 <= m.value <= |drained|)
    ensures CompletingProduct(points, drained, ProductAfter(points, drained, m))
  {
    FirstConnectionFound(|points|, drained, m);
  }

  /** Part 2: the lines as points, then the completing pair. */
  method Part2(lines: seq<string>, dist: Distance) returns (result: Option<int>, drained: seq<Item<Pair>>)
    ensures ParsePoints(lines).Some? ==>
              var points := ParsePoints(lines).value;
              EveryPairOnce(points, dist, drained) && SortedByPriority(drained)
              && AllValid(|points|, drained) && CompletingProduct(points, drained, result)
    ensures ParsePoints(lines).None? ==> result.None?
  {
    var parsed := ParsePoints(lines);
    if parsed.None? {
      return None, [];
    }
    result, drained := CompletingPair(parsed.value, dist);
  }

  /** The outcome of the wiring loop, read as "is there a first connecting
      count, and which one". */
  lemma FirstConnectionFound(n: nat, drained: seq<Item<Pair>>, m: Option<nat>)
    requires AllValid(n, drained)
    requires n == 0 ==> m.None? && |drained| == 0
    requires m.Some? ==> FirstConnection(n, drained, m.value)
    requires n > 0 && m.None? ==> NeverConnected(n, drained)
    ensures m.Some? <==> exists c: nat :: FirstConnection(n, drained, c)
    ensures forall c: nat :: FirstConnection(n, drained, c) ==> m == Some(c)
  {
    forall c: nat | FirstConnection(n, drained, c)
      ensures m == Some(c)
    {
      if m.Some? {
        FirstConnectionUnique(n, drained, c, m.value);
      }
    }
  }
}
