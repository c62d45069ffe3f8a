/** `util.IntHeap`: the five callbacks that Go's `container/heap` needs,
    on a slice of ints. The slice is a value here; the pointer-receiver
    callbacks return the new slice. */
module IntHeaps {

  type IntHeap = seq<int>

  function Len(h: IntHeap): (n: nat)
    ensures n == 0 <==> h == []
  {
    |h|
  }

  /** The order the heap is kept in: a strict order on the values, so this is
      a min-heap. */
  function Less(h: IntHeap, i: int, j: int): bool
    requires 0 <= i < |h| && 0 <= j < |h|
  {
    h[i] < h[j]
  }

  /** `Less` is a strict weak order on positions, as `container/heap`
      requires: irreflexive, asymmetric and transitive, and two positions
      neither of which is less than the other hold equal values. */
  lemma LessIsStrictOrder(h: IntHeap, i: int, j: int, k: int)
    requires 0 <= i < |h| && 0 <= j < |h| && 0 <= k < |h|
    ensures !Less(h, i, i)
    ensures Less(h, i, j) ==> !Less(h, j, i)
    ensures Less(h, i, j) && Less(h, j, k) ==> Less(h, i, k)
    ensures !Less(h, i, j) && !Less(h, j, i) ==> h[i] == h[j]
  {
  }

  function Swap(h: IntHeap, i: int, j: int): (r: IntHeap)
    requires 0 <= i < |h| && 0 <= j < |h|
    ensures |r| == |h|
    ensures r[i] == h[j] && r[j] == h[i]
    ensures forall k :: 0 <= k < |h| && k != i && k != j ==> r[k] == h[k]
    ensures multiset(r) == multiset(h)
  {
    h[i := h[j]][j := h[i]]
  }

  /** Swapping the same two positions twice changes nothing. */
  lemma SwapTwice(h: IntHeap, i: int, j: int)
    requires 0 <= i < |h| && 0 <= j < |h|
    ensures Swap(Swap(h, i, j), i, j) == h
  {
  }

  function Push(h: IntHeap, x: int): (r: IntHeap)
    ensures Len(r) == Len(h) + 1
    ensures r[..|h|] == h && r[|h|] == x
  {
    h + [x]
  }

  /** Removes and returns the last element; the Go code indexes `old[n-1]`, so
      the heap must not be empty. */
  function Pop(h: IntHeap): (r: (int, IntHeap))
    requires |h| > 0
    ensures Push(r.1, r.0) == h
    ensures Len(r.1) == Len(h) - 1
  {
    (h[|h| - 1], h[..|h| - 1])
  }

  /** `Pop` undoes `Push`. */
  lemma PopAfterPush(h: IntHeap, x: int)
    ensures Pop(Push(h, x)) == (x, h)
  {
    assert Push(h, x)[..|h|] == h;
  }
}
