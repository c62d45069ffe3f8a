/** `util.MinHeap` and `util.MaxHeap`: priority queues of (value, priority)
    items over one internal min-heap. The max-heap stores every priority
    negated.

    The internal heap is the multiset of its items, kept as a sequence;
    popping removes an item of least stored priority. `container/heap` picks
    some least item and leaves ties to its sift order, so the model fixes the
    leftmost one; every property below holds whichever least item is taken. */
module Heaps {

  datatype Item<T> = Item(value: T, priority: int)

  /** The internal `minHeap` slice. */
  datatype MinHeap<T> = MinHeap(items: seq<Item<T>>)

  /** A `MaxHeap` wraps the same internal heap; its items carry negated
      priorities. */
  datatype MaxHeap<T> = MaxHeap(items: seq<Item<T>>)

  /** `priority` is no larger than any stored priority. */
  predicate IsLowest<T>(items: seq<Item<T>>, priority: int) {
    forall k :: 0 <= k < |items| ==> priority <= items[k].priority
  }

  /** The position of the leftmost item of least priority. */
  function LowestIndex<T>(items: seq<Item<T>>): (i: nat)
    requires |items| > 0
    ensures i < |items|
    ensures IsLowest(items, items[i].priority)
    ensures forall k :: 0 <= k < i ==> items[i].priority < items[k].priority
  {
    if |items| == 1 then 0
    else
      var j := 1 + LowestIndex(items[1..]);
      assert forall k :: 1 <= k < |items| ==> items[k] == items[1..][k - 1];
      if items[0].priority <= items[j].priority then 0 else j
  }

  /** `items` without position `i`. */
  function RemoveAt<T>(items: seq<Item<T>>, i: nat): (r: seq<Item<T>>)
    requires i < |items|
    ensures |r| == |items| - 1
    ensures multiset(r) + multiset{items[i]} == multiset(items)
  {
    assert items == items[..i] + [items[i]] + items[i + 1..];
    items[..i] + items[i + 1..]
  }

  /** The internal pop: removes and returns a least-priority item. Go's
      `Pop` indexes `old[n-1]`, so the heap must not be empty. */
  function PopLowest<T>(items: seq<Item<T>>): (r: (Item<T>, seq<Item<T>>))
    requires |items| > 0
    ensures multiset(r.1) + multiset{r.0} == multiset(items)
    ensures |r.1| == |items| - 1
    ensures IsLowest(items, r.0.priority)
    ensures IsLowest(r.1, r.0.priority)
  {
    var i := LowestIndex(items);
    var rest := RemoveAt(items, i);
    assert forall k :: 0 <= k < |rest| ==> rest[k] in multiset(items);
    (items[i], rest)
  }

  // ---- MinHeap ----

  /** `NewMinHeap(items...)`: a heap holding exactly the given items. */
  function NewMinHeap<T>(items: seq<Item<T>>): (h: MinHeap<T>)
    ensures MinLen(h) == |items|
    ensures multiset(h.items) == multiset(items)
  {
    MinHeap(items)
  }

  function MinLen<T>(h: MinHeap<T>): nat {
    |h.items|
  }

  function MinPush<T>(h: MinHeap<T>, thing: T, priority: int): (r: MinHeap<T>)
    ensures multiset(r.items) == multiset(h.items) + multiset{Item(thing, priority)}
    ensures MinLen(r) == MinLen(h) + 1
  {
    MinHeap(h.items + [Item(thing, priority)])
  }

  /** Removes a least-priority item and returns it whole. */
  function MinPopItem<T>(h: MinHeap<T>): (r: (Item<T>, MinHeap<T>))
    requires MinLen(h) > 0
    ensures multiset(r.1.items) + multiset{r.0} == multiset(h.items)
    ensures MinLen(r.1) == MinLen(h) - 1
    ensures IsLowest(r.1.items, r.0.priority)
  {
    var (item, rest) := PopLowest(h.items);
    (item, MinHeap(rest))
  }

  /** Removes a least-priority item and returns its value. */
  function MinPop<T>(h: MinHeap<T>): (r: (T, MinHeap<T>))
    requires MinLen(h) > 0
    ensures exists p :: Item(r.0, p) in multiset(h.items) && IsLowest(h.items, p)
    ensures MinLen(r.1) == MinLen(h) - 1
    ensures multiset(r.1.items) + multiset{MinPopItem(h).0} == multiset(h.items)
  {
    var (item, rest) := MinPopItem(h);
    assert item in multiset(h.items);
    assert IsLowest(h.items, item.priority) by {
      assert forall k :: 0 <= k < |h.items| ==> h.items[k] in multiset(rest.items) + multiset{item};
    }
    (item.value, rest)
  }

  /** The items a min-heap yields when popped until empty. */
  function Drain<T>(h: MinHeap<T>): seq<Item<T>>
    decreases |h.items|
  {
    if MinLen(h) == 0 then [] else
    var popped := MinPopItem(h);
    [popped.0] + Drain(popped.1)
  }

  predicate SortedByPriority<T>(s: seq<Item<T>>) {
    forall i, j :: 0 <= i < j < |s| ==> s[i].priority <= s[j].priority
  }

  /** Popping a min-heap empty yields every stored item, each once, in
      non-decreasing order of priority. */
  lemma {:induction false} DrainSorted<T>(h: MinHeap<T>)
    ensures multiset(Drain(h)) == multiset(h.items)
    ensures SortedByPriority(Drain(h))
    decreases |h.items|
  {
    if MinLen(h) > 0 {
      var popped := MinPopItem(h);
      var item, rest := popped.0, popped.1;
      DrainSorted(rest);
      var d := Drain(rest);
      assert Drain(h) == [item] + d;
      LowestKept(rest.items, d, item.priority);
      SortedCons(item, d);
      assert multiset([item] + d) == multiset{item} + multiset(d);
    }
  }

  /** A bound below every item holds below any reordering of them. */
  lemma LowestKept<T>(items: seq<Item<T>>, d: seq<Item<T>>, p: int)
    requires IsLowest(items, p) && multiset(d) == multiset(items)
    ensures IsLowest(d, p)
  {
    forall i | 0 <= i < |d|
      ensures p <= d[i].priority
    {
      assert d[i] in multiset(d);
      assert d[i] in items;
      var k :| 0 <= k < |items| && items[k] == d[i];
    }
  }

  lemma SortedCons<T>(item: Item<T>, d: seq<Item<T>>)
    requires IsLowest(d, item.priority) && SortedByPriority(d)
    ensures SortedByPriority([item] + d)
  {
    var all := [item] + d;
    forall i, j | 0 <= i < j < |all|
      ensures all[i].priority <= all[j].priority
    {
      assert all[j] == d[j - 1];
      if i > 0 {
        assert all[i] == d[i - 1];
      }
    }
  }

  // ---- MaxHeap ----

  /** The items as a max-heap stores them. */
  function Negated<T>(items: seq<Item<T>>): seq<Item<T>> {
    seq(|items|, k requires 0 <= k < |items| => Item(items[k].value, -items[k].priority))
  }

  /** `NewMaxHeap(items...)` routes every item through `MaxPush`. */
  function NewMaxHeap<T>(items: seq<Item<T>>): (h: MaxHeap<T>)
    ensures MaxLen(h) == |items|
    ensures multiset(h.items) == multiset(Negated(items))
  {
    if |items| == 0 then MaxHeap([])
    else
      var n := |items| - 1;
      var h' := NewMaxHeap(items[..n]);
      assert Negated(items) == Negated(items[..n]) + [Item(items[n].value, -items[n].priority)];
      MaxPush(h', items[n].value, items[n].priority)
  }

  /** `MaxHeap.Init(items...)` allocates `len(items)` zero-valued items and
      ignores their contents; `zero` stands for Go's zero value of `T`. */
  function MaxInit<T>(items: seq<Item<T>>, zero: T): (h: MaxHeap<T>)
    ensures MaxLen(h) == |items|
    ensures forall k :: 0 <= k < |h.items| ==> h.items[k] == Item(zero, 0)
  {
    MaxHeap(seq(|items|, _ => Item(zero, 0)))
  }

  function MaxLen<T>(h: MaxHeap<T>): nat {
    |h.items|
  }

  /** Stores the item with its priority negated. */
  function MaxPush<T>(h: MaxHeap<T>, thing: T, priority: int): (r: MaxHeap<T>)
    ensures multiset(r.items) == multiset(h.items) + multiset{Item(thing, -priority)}
    ensures MaxLen(r) == MaxLen(h) + 1
  {
    MaxHeap(h.items + [Item(thing, -priority)])
  }

  /** Removes the item of greatest pushed priority and returns it as stored,
      that is with its priority negated. */
  function MaxPopItem<T>(h: MaxHeap<T>): (r: (Item<T>, MaxHeap<T>))
    requires MaxLen(h) > 0
    ensures multiset(r.1.items) + multiset{r.0} == multiset(h.items)
    ensures MaxLen(r.1) == MaxLen(h) - 1
    ensures forall k :: 0 <= k < |h.items| ==> -h.items[k].priority <= -r.0.priority
  {
    var (item, rest) := PopLowest(h.items);
    (item, MaxHeap(rest))
  }

  /** `MaxPop`: the value of an item of greatest pushed priority; the heap
      left holds every other item. */
  function MaxPop<T>(h: MaxHeap<T>): (r: (T, MaxHeap<T>))
    requires MaxLen(h) > 0
    ensures exists p :: Item(r.0, p) in multiset(h.items)
                        && multiset(r.1.items) + multiset{Item(r.0, p)} == multiset(h.items)
                        && forall k :: 0 <= k < |h.items| ==> -h.items[k].priority <= -p
    ensures MaxLen(r.1) == MaxLen(h) - 1
  {
    var (item, rest) := MaxPopItem(h);
    assert item in multiset(h.items);
    (item.value, rest)
  }

  /** For a max-heap that holds the pushed items (as `NewMaxHeap` and
      `MaxPush` leave it), `MaxPopItem` returns a pushed item of largest
      pushed priority, with that priority negated. */
  lemma MaxPopReturnsLargest<T>(h: MaxHeap<T>, pushed: seq<Item<T>>)
    requires |pushed| > 0
    requires multiset(h.items) == multiset(Negated(pushed))
    ensures var item := MaxPopItem(h).0;
            Item(item.value, -item.priority) in pushed
            && forall k :: 0 <= k < |pushed| ==> pushed[k].priority <= -item.priority
  {
    var item := MaxPopItem(h).0;
    var neg := Negated(pushed);
    assert item in multiset(h.items);
    assert item in neg;
    var j :| 0 <= j < |neg| && neg[j] == item;
    assert pushed[j] == Item(item.value, -item.priority);
    forall k | 0 <= k < |pushed|
      ensures pushed[k].priority <= -item.priority
    {
      assert neg[k] in multiset(neg);
      assert neg[k] in h.items;
      var m :| 0 <= m < |h.items| && h.items[m] == neg[k];
    }
  }
}
