/** Walks along a successor function: sequences in which each element is
    among the successors of the one before. For a grid the successor
    function is `GetNeighbors`; the searches return such walks and are
    measured against reachability along them. */
module Walks {

  function Last<T>(w: seq<T>): T
    requires |w| > 0
  {
    w[|w| - 1]
  }

  predicate Distinct<T(==)>(s: seq<T>) {
    forall i, j :: 0 <= i < j < |s| ==> s[i] != s[j]
  }

  /** A prefix one longer is the shorter prefix and one more element. */
  lemma PrefixStep<T>(s: seq<T>, i: int)
    requires 0 <= i < |s|
    ensures s[..i + 1] == s[..i] + [s[i]]
  {
  }

  /** Dropping the last element keeps a sequence free of repeats, and that
      element is not among the others. */
  lemma DistinctFront<T>(s: seq<T>)
    requires |s| > 0 && Distinct(s)
    ensures Distinct(s[..|s| - 1]) && Last(s) !in s[..|s| - 1]
  {
    var init := s[..|s| - 1];
    forall i, j | 0 <= i < j < |init|
      ensures init[i] != init[j]
    {
      assert init[i] == s[i] && init[j] == s[j];
    }
    forall i | 0 <= i < |init|
      ensures init[i] != Last(s)
    {
      assert init[i] == s[i];
    }
  }

  /** A sequence without repeats has as many elements as its set. */
  lemma {:induction false} DistinctCard<T>(s: seq<T>)
    requires Distinct(s)
    ensures |set x | x in s| == |s|
    decreases |s|
  {
    if |s| > 0 {
      var rest := s[..|s| - 1];
      assert Distinct(rest) by {
        forall i, j | 0 <= i < j < |rest|
          ensures rest[i] != rest[j]
        {
          assert rest[i] == s[i] && rest[j] == s[j];
        }
      }
      DistinctCard(rest);
      assert (set x | x in s) == (set x | x in rest) + {s[|s| - 1]};
      assert s[|s| - 1] !in rest by {
        forall i | 0 <= i < |rest|
          ensures rest[i] != s[|s| - 1]
        {
          assert rest[i] == s[i];
        }
      }
    }
  }

  /** `b` is one of `a`'s successors. */
  predicate Step<T(==)>(next: T -> seq<T>, a: T, b: T) {
    b in next(a)
  }

  predicate IsWalk<T(==)>(next: T -> seq<T>, w: seq<T>) {
    |w| > 0 && forall i :: 0 <= i < |w| - 1 ==> Step(next, w[i], w[i + 1])
  }

  /** A set that contains every successor of its members. */
  predicate Closed<T(==)>(next: T -> seq<T>, universe: set<T>) {
    forall c, n :: c in universe && n in next(c) ==> n in universe
  }

  /** `to` can be reached from `from` by following successors. */
  ghost predicate Reachable<T(!new)>(next: T -> seq<T>, from: T, to: T) {
    exists w :: IsWalk(next, w) && w[0] == from && Last(w) == to
  }

  /** A walk that starts inside a closed set never leaves it. */
  lemma {:induction false} WalkStaysInside<T>(next: T -> seq<T>, universe: set<T>, w: seq<T>)
    requires Closed(next, universe)
    requires IsWalk(next, w) && w[0] in universe
    ensures forall k :: 0 <= k < |w| ==> w[k] in universe
    decreases |w|
  {
    if |w| > 1 {
      var front := w[..|w| - 1];
      assert IsWalk(next, front) by {
        forall i | 0 <= i < |front| - 1
          ensures Step(next, front[i], front[i + 1])
        {
          assert front[i] == w[i] && front[i + 1] == w[i + 1];
        }
      }
      WalkStaysInside(next, universe, front);
      forall k | 0 <= k < |w|
        ensures w[k] in universe
      {
        if k < |w| - 1 {
          assert w[k] == front[k];
        } else {
          assert w[k - 1] == front[k - 1];
        }
      }
    }
  }

  /** Appending a successor of its last element extends a walk. */
  lemma ExtendWalk<T>(next: T -> seq<T>, w: seq<T>, c: T)
    requires IsWalk(next, w) && c in next(Last(w))
    ensures IsWalk(next, w + [c]) && (w + [c])[0] == w[0] && Last(w + [c]) == c
  {
    var w' := w + [c];
    forall i | 0 <= i < |w'| - 1
      ensures Step(next, w'[i], w'[i + 1])
    {
      if i < |w| - 1 {
        assert w'[i] == w[i] && w'[i + 1] == w[i + 1];
      }
    }
  }

  /** A walk can be started one step earlier, from any element of which
      its first element is a successor. */
  lemma PrependWalk<T>(next: T -> seq<T>, a: T, w: seq<T>)
    requires IsWalk(next, w) && w[0] in next(a)
    ensures IsWalk(next, [a] + w) && ([a] + w)[0] == a && Last([a] + w) == Last(w)
  {
    var w' := [a] + w;
    forall i | 0 <= i < |w'| - 1
      ensures Step(next, w'[i], w'[i + 1])
    {
      if i > 0 {
        assert w'[i] == w[i - 1] && w'[i + 1] == w[i];
      }
    }
  }

  /** The labelling the breadth-first searches build: `dist` gives the start
      0, and every other labelled element has a recorded parent, a labelled
      element one step closer of which it is a successor. */
  predicate ParentLabelled<T(==)>(next: T -> seq<T>, start: T, dist: map<T, int>, parent: map<T, T>) {
    && start in dist && dist[start] == 0 && start !in parent
    && (forall c :: c in dist ==> dist[c] >= 0)
    && (forall c :: c in dist && c != start ==> c in parent)
    && (forall c :: c in parent ==>
          c in dist && parent[c] in dist && c in next(parent[c])
          && dist[c] == dist[parent[c]] + 1)
  }

  /** What a breadth-first search promises of the distance map it returns: the start is
      at 0 and each other element is one more than some labelled element
      that discovered it. */
  predicate DistanceLabels<T(==)>(next: T -> seq<T>, start: T, dist: map<T, int>) {
    && start in dist && dist[start] == 0
    && forall c :: c in dist && c != start ==>
         exists p :: p in dist && c in next(p) && dist[c] == dist[p] + 1
  }

  lemma ParentLabelledDistanceLabels<T>(next: T -> seq<T>, start: T, dist: map<T, int>,
                                            parent: map<T, T>)
    requires ParentLabelled(next, start, dist, parent)
    ensures DistanceLabels(next, start, dist)
  {
    forall c | c in dist && c != start
      ensures exists p :: p in dist && c in next(p) && dist[c] == dist[p] + 1
    {
      var p := parent[c];
    }
  }

  /** Following parents back from a labelled element gives a walk from the
      start whose number of steps is the label. */
  lemma {:induction false} ParentWalk<T>(next: T -> seq<T>, start: T, dist: map<T, int>,
                                             parent: map<T, T>, c: T)
    returns (w: seq<T>)
    requires ParentLabelled(next, start, dist, parent) && c in dist
    ensures IsWalk(next, w) && w[0] == start && Last(w) == c && |w| == dist[c] + 1
    decreases dist[c]
  {
    if c == start {
      w := [start];
    } else {
      var p := parent[c];
      var w0 := ParentWalk(next, start, dist, parent, p);
      ExtendWalk(next, w0, c);
      w := w0 + [c];
    }
  }

  /** Every successor of a `done` element is labelled at most one more than
      that element. */
  predicate StepBounded<T(==)>(next: T -> seq<T>, dist: map<T, int>, done: set<T>) {
    forall c, n :: c in done && n in next(c) ==>
      c in dist && n in dist && dist[n] <= dist[c] + 1
  }

  /** If every expanded element's successors are labelled at most one more
      than it, a walk's label bound accumulates along the walk: while the
      walk stays among `done` elements, its j-th element is labelled at most j. */
  lemma {:induction false} LabelsBoundedAlongWalk<T>(next: T -> seq<T>, start: T,
                                                         dist: map<T, int>, done: set<T>,
                                                         w: seq<T>, j: nat)
    requires start in dist && dist[start] == 0
    requires StepBounded(next, dist, done)
    requires IsWalk(next, w) && w[0] == start && j < |w|
    requires forall k :: 0 <= k < j ==> w[k] in done
    ensures w[j] in dist && dist[w[j]] <= j
  {
    if j > 0 {
      LabelsBoundedAlongWalk(next, start, dist, done, w, j - 1);
      var c, n := w[j - 1], w[j];
      assert Step(next, c, n);
      assert n in dist && dist[n] <= dist[c] + 1;
    }
  }

  /** The first element of a walk outside a set the walk eventually leaves. */
  lemma FirstOutside<T>(w: seq<T>, done: set<T>) returns (i: nat)
    requires |w| > 0 && Last(w) !in done
    ensures i < |w| && w[i] !in done
    ensures forall k :: 0 <= k < i ==> w[k] in done
  {
    i := 0;
    while w[i] in done
      invariant i < |w|
      invariant forall k :: 0 <= k < i ==> w[k] in done
      decreases |w| - i
    {
      i := i + 1;
    }
  }
}
