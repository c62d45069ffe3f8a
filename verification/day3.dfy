/** Day 3: from each line of digits pick digits, in order, forming the
    largest number — two digits in part 1, twelve in part 2. Part 2 uses a
    monotonic stack: a digit pops smaller digits off the top while there
    are still digits to spare. */
module Day3 {
  import opened Wrappers
  import opened Strings
  import opened Ints
  import opened Stacks

  // ---- digits and their values ----

  /** The digits of a line, as the Go code reads them one rune at a time. */
  function DigitsOf(s: string): (d: seq<int>)
    requires AllDigits(s)
    ensures |d| == |s| && forall i :: 0 <= i < |s| ==> d[i] == DigitValue(s[i])
  {
    if |s| == 0 then [] else [DigitValue(s[0]) as int] + DigitsOf(s[1..])
  }

  predicate IsDigits(d: seq<int>) {
    forall i :: 0 <= i < |d| ==> 0 <= d[i] <= 9
  }

  /** `d` read as a decimal number, most significant digit first. */
  function Value(d: seq<int>): int {
    if |d| == 0 then 0 else d[0] * Pow10(|d| - 1) + Value(d[1..])
  }

  lemma {:induction false} ValueBound(d: seq<int>)
    requires IsDigits(d)
    ensures 0 <= Value(d) < Pow10(|d|)
  {
    if |d| > 0 {
      var p := Pow10(|d| - 1);
      ValueBound(d[1..]);
      assert 0 <= d[0] * p <= 9 * p by {
        MulSign(p, d[0]);
        MulSign(p, 9 - d[0]);
        assert p * (9 - d[0]) == 9 * p - d[0] * p;
      }
    }
  }

  // ---- subsequences ----

  /** `t` is `d` with some elements left out, the rest kept in order. */
  predicate IsSubseq(t: seq<int>, d: seq<int>)
    decreases |d|
  {
    if |t| == 0 then true
    else if |d| == 0 then false
    else (t[|t| - 1] == d[|d| - 1] && IsSubseq(t[..|t| - 1], d[..|d| - 1]))
         || IsSubseq(t, d[..|d| - 1])
  }

  lemma {:induction false} SubseqLength(t: seq<int>, d: seq<int>)
    requires IsSubseq(t, d)
    ensures |t| <= |d|
    decreases |d|
  {
    if |t| > 0 {
      if t[|t| - 1] == d[|d| - 1] && IsSubseq(t[..|t| - 1], d[..|d| - 1]) {
        SubseqLength(t[..|t| - 1], d[..|d| - 1]);
      } else {
        SubseqLength(t, d[..|d| - 1]);
      }
    }
  }

  lemma {:induction false} SubseqPrefix(t: seq<int>, d: seq<int>, m: int)
    requires IsSubseq(t, d) && 0 <= m <= |t|
    ensures IsSubseq(t[..m], d)
    decreases |d|
  {
    if m < |t| && m > 0 {
      var d' := d[..|d| - 1];
      if t[|t| - 1] == d[|d| - 1] && IsSubseq(t[..|t| - 1], d') {
        SubseqPrefix(t[..|t| - 1], d', m);
        assert t[..|t| - 1][..m] == t[..m];
      } else {
        SubseqPrefix(t, d', m);
      }
    } else if m == |t| {
      assert t[..m] == t;
    }
  }

  lemma SubseqAppend(t: seq<int>, d: seq<int>, c: int)
    ensures IsSubseq(t, d) ==> IsSubseq(t, d + [c])
    ensures IsSubseq(t, d) ==> IsSubseq(t + [c], d + [c])
    ensures IsSubseq(t, d + [c]) ==>
              IsSubseq(t, d) || (|t| > 0 && t[|t| - 1] == c && IsSubseq(t[..|t| - 1], d))
  {
    assert (d + [c])[..|d|] == d;
    assert (t + [c])[..|t|] == t;
  }

  lemma {:induction false} SubseqWhole(d: seq<int>)
    ensures IsSubseq(d, d)
    decreases |d|
  {
    if |d| > 0 {
      SubseqWhole(d[..|d| - 1]);
    }
  }

  // ---- lexicographic order ----

  /** The length of the longest common prefix of `u` and `s`. */
  function Agree(u: seq<int>, s: seq<int>): (j: nat)
    ensures j <= |u| && j <= |s| && forall i :: 0 <= i < j ==> u[i] == s[i]
    ensures j < |u| && j < |s| ==> u[j] != s[j]
  {
    if |u| == 0 || |s| == 0 || u[0] != s[0] then 0 else 1 + Agree(u[1..], s[1..])
  }

  /** `u` comes no later than `s` in dictionary order, a proper prefix first. */
  predicate LexLe(u: seq<int>, s: seq<int>) {
    var j := Agree(u, s);
    j == |u| || (j < |s| && u[j] < s[j])
  }

  lemma AgreeAt(u: seq<int>, s: seq<int>, j: int)
    requires 0 <= j <= |u| && j <= |s| && u[..j] == s[..j]
    requires j < |u| && j < |s| ==> u[j] != s[j]
    ensures Agree(u, s) == j
  {
    forall i | 0 <= i < j
      ensures u[i] == s[i]
    {
      assert u[..j][i] == s[..j][i];
    }
  }

  /** The usual way to show `LexLe`: a shared prefix, then either the end of
      `u` or a smaller element. */
  lemma LexLeAt(u: seq<int>, s: seq<int>, j: int)
    requires 0 <= j <= |u| && j <= |s| && u[..j] == s[..j]
    requires j == |u| || (j < |s| && u[j] < s[j])
    ensures LexLe(u, s)
  {
    AgreeAt(u, s, j);
  }

  lemma LexLeTruncate(t: seq<int>, s: seq<int>, k: int)
    requires LexLe(t, s) && |t| == k <= |s|
    ensures LexLe(t, s[..k])
  {
    var j := Agree(t, s);
    assert t[..j] == s[..k][..j];
    LexLeAt(t, s[..k], j);
  }

  /** For numbers with the same number of digits, dictionary order is
      numeric order. */
  lemma {:induction false} LexLeValue(a: seq<int>, b: seq<int>)
    requires IsDigits(a) && IsDigits(b) && |a| == |b| && LexLe(a, b)
    ensures Value(a) <= Value(b)
  {
    if |a| > 0 {
      var p := Pow10(|a| - 1);
      if a[0] == b[0] {
        assert Agree(a, b) == 1 + Agree(a[1..], b[1..]);
        LexLeValue(a[1..], b[1..]);
      } else {
        assert a[0] < b[0];
        ValueBound(a[1..]);
        ValueBound(b[1..]);
        LeadingDigitWins(a[0], b[0], p, Value(a[1..]), Value(b[1..]));
      }
    }
  }

  /** A larger leading digit outweighs whatever follows. */
  lemma LeadingDigitWins(x: int, y: int, p: int, restX: int, restY: int)
    requires x < y && p > 0 && 0 <= restX < p && 0 <= restY
    ensures x * p + restX <= y * p + restY
  {
    MulSign(p, y - x - 1);
    assert p * (y - x - 1) == y * p - x * p - p;
  }

  // ---- part 1: two digits ----

  /** A pair reference: the best two-digit choice is the best one ending at
      the last digit or the best one within the shorter prefix. */
  function MaxOf(d: seq<int>): (m: int)
    requires |d| > 0
    ensures forall i :: 0 <= i < |d| ==> d[i] <= m
    ensures exists i :: 0 <= i < |d| && d[i] == m
  {
    if |d| == 1 then d[0]
    else
      var m' := MaxOf(d[..|d| - 1]);
      assert forall i :: 0 <= i < |d| - 1 ==> d[..|d| - 1][i] == d[i];
      Max(m', d[|d| - 1])
  }

  predicate IsMaxPair(v: int, d: seq<int>) {
    (exists i, j :: 0 <= i < j < |d| && v == 10 * d[i] + d[j])
    && forall i, j :: 0 <= i < j < |d| ==> 10 * d[i] + d[j] <= v
  }

  function PairMax(d: seq<int>): int
    requires |d| >= 2
  {
    var n := |d|;
    var last := 10 * MaxOf(d[..n - 1]) + d[n - 1];
    if n == 2 then last else Max(PairMax(d[..n - 1]), last)
  }

  /** The reference really is the best pair. */
  lemma PairMaxIsMax(d: seq<int>)
    requires |d| >= 2
    ensures IsMaxPair(PairMax(d), d)
  {
    PairMaxUpper(d);
    var a, b := PairMaxAttained(d);
  }

  /** No pair beats the reference. */
  lemma PairMaxUpper(d: seq<int>)
    requires |d| >= 2
    ensures forall a, b :: 0 <= a < b < |d| ==> 10 * d[a] + d[b] <= PairMax(d)
  {
    forall a, b | 0 <= a < b < |d|
      ensures 10 * d[a] + d[b] <= PairMax(d)
    {
      PairBelowMax(d, a, b);
    }
  }

  lemma {:induction false} PairBelowMax(d: seq<int>, a: int, b: int)
    requires 0 <= a < b < |d|
    ensures 10 * d[a] + d[b] <= PairMax(d)
    decreases |d|
  {
    var n := |d|;
    var d' := d[..n - 1];
    var last := 10 * MaxOf(d') + d[n - 1];
    assert PairMax(d) == if n == 2 then last else Max(PairMax(d'), last);
    if b < n - 1 {
      assert d'[a] == d[a] && d'[b] == d[b];
      PairBelowMax(d', a, b);
      assert PairMax(d') <= PairMax(d);
    } else {
      assert d[a] == d'[a] <= MaxOf(d');
      assert 10 * d[a] + d[b] <= last;
    }
  }

  /** Some pair reaches the reference. */
  lemma {:induction false} PairMaxAttained(d: seq<int>) returns (a: int, b: int)
    requires |d| >= 2
    ensures 0 <= a < b < |d| && PairMax(d) == 10 * d[a] + d[b]
  {
    var n := |d|;
    var d' := d[..n - 1];
    var m := MaxOf(d');
    var last := 10 * m + d[n - 1];
    assert PairMax(d) == if n == 2 then last else Max(PairMax(d'), last);
    if n > 2 && PairMax(d') >= last {
      a, b := PairMaxAttained(d');
      assert d'[a] == d[a] && d'[b] == d[b];
    } else {
      var i :| 0 <= i < n - 1 && d'[i] == m;
      a, b := i, n - 1;
    }
  }

  lemma MaxPairUnique(v: int, w: int, d: seq<int>)
    requires IsMaxPair(v, d) && IsMaxPair(w, d)
    ensures v == w
  {
  }

  /** `maxJoltage`: the leftmost largest digit among all but the last, then
      the largest digit after it. Go panics on an empty line and on a
      non-digit. */
  method MaxJoltage(line: string) returns (r: Option<int>)
    ensures r.Some? <==> |line| > 0 && AllDigits(line)
    ensures r.Some? ==> 0 <= r.value <= 99
    ensures r.Some? && |line| >= 2 ==> r.value == PairMax(DigitsOf(line))
    ensures r.Some? && |line| == 1 ==> r.value == DigitValue(line[0])
  {
    if |line| == 0 || !AllDigits(line) {
      return None;
    }
    var d := DigitsOf(line);
    var n := |d|;
    var max, foundAt := FirstMax(d);
    var secondMax, secondAt := SecondMax(d, foundAt);
    var v := max * 10 + secondMax;
    if n >= 2 {
      MaxJoltageIsPairMax(d, max, foundAt, secondMax, secondAt);
    }
    return Some(v);
  }

  /** The first loop of `maxJoltage`: the leftmost largest digit before the
      last one, or `-1` and 0 when every such digit is 0. */
  method FirstMax(d: seq<int>) returns (max: int, foundAt: int)
    requires |d| > 0
    ensures -1 <= foundAt < |d| - 1 || (|d| == 1 && foundAt == -1)
    ensures foundAt == -1 ==> max == 0
    ensures foundAt >= 0 ==> max == d[foundAt] > 0
    ensures forall x :: 0 <= x < |d| - 1 ==> d[x] <= max
    ensures forall x :: 0 <= x < foundAt ==> d[x] < max
  {
    max, foundAt := 0, -1;
    for idx := 0 to |d| - 1
      invariant -1 <= foundAt < idx || (idx == 0 && foundAt == -1)
      invariant foundAt == -1 ==> max == 0
      invariant foundAt >= 0 ==> max == d[foundAt] > 0
      invariant forall x :: 0 <= x < idx ==> d[x] <= max
      invariant forall x :: 0 <= x < foundAt ==> d[x] < max
    {
      if d[idx] > max {
        max, foundAt := d[idx], idx;
      }
    }
  }

  /** The second loop: the largest digit after `foundAt`, or 0. */
  method SecondMax(d: seq<int>, foundAt: int) returns (secondMax: int, ghost secondAt: int)
    requires -1 <= foundAt < |d|
    ensures secondAt == -1 ==> secondMax == 0
    ensures secondAt != -1 ==> foundAt < secondAt < |d| && secondMax == d[secondAt] > 0
    ensures forall y :: foundAt < y < |d| ==> d[y] <= secondMax
  {
    secondMax, secondAt := 0, -1;
    for x := foundAt + 1 to |d|
      invariant secondAt == -1 ==> secondMax == 0
      invariant secondAt != -1 ==> foundAt < secondAt < x && secondMax == d[secondAt] > 0
      invariant forall y :: foundAt < y < x ==> d[y] <= secondMax
    {
      if d[x] > secondMax {
        secondMax, secondAt := d[x], x;
      }
    }
  }

  lemma MaxJoltageIsPairMax(d: seq<int>, max: int, foundAt: int, secondMax: int, secondAt: int)
    requires IsDigits(d) && |d| >= 2
    requires -1 <= foundAt < |d| - 1
    requires foundAt == -1 ==> max == 0
    requires foundAt >= 0 ==> max == d[foundAt] > 0
    requires forall x :: 0 <= x < |d| - 1 ==> d[x] <= max
    requires forall x :: 0 <= x < foundAt ==> d[x] < max
    requires secondAt == -1 ==> secondMax == 0
    requires secondAt != -1 ==> foundAt < secondAt < |d| && secondMax == d[secondAt] > 0
    requires forall y :: foundAt < y < |d| ==> d[y] <= secondMax
    ensures 10 * max + secondMax == PairMax(d)
  {
    MaxJoltageIsMaxPair(d, max, foundAt, secondMax, secondAt);
    PairMaxIsMax(d);
    MaxPairUnique(10 * max + secondMax, PairMax(d), d);
  }

  lemma MaxJoltageIsMaxPair(d: seq<int>, max: int, foundAt: int, secondMax: int, secondAt: int)
    requires IsDigits(d) && |d| >= 2
    requires -1 <= foundAt < |d| - 1
    requires foundAt == -1 ==> max == 0
    requires foundAt >= 0 ==> max == d[foundAt] > 0
    requires forall x :: 0 <= x < |d| - 1 ==> d[x] <= max
    requires forall x :: 0 <= x < foundAt ==> d[x] < max
    requires secondAt == -1 ==> secondMax == 0
    requires secondAt != -1 ==> foundAt < secondAt < |d| && secondMax == d[secondAt] > 0
    requires forall y :: foundAt < y < |d| ==> d[y] <= secondMax
    ensures IsMaxPair(10 * max + secondMax, d)
  {
    var n := |d|;
    var v := 10 * max + secondMax;
    if foundAt >= 0 {
      if secondAt >= 0 {
        assert v == 10 * d[foundAt] + d[secondAt];
      } else {
        assert v == 10 * d[foundAt] + d[n - 1];
      }
    } else {
      assert v == 10 * d[0] + d[n - 1];
    }
  }

  // ---- part 2: the monotonic stack ----

  /** Consecutive-or-not, stack entries never increase upwards. */
  predicate Descending(st: seq<int>) {
    forall a, b :: 0 <= a < b < |st| ==> st[a] >= st[b]
  }

  /** What the stack satisfies after reading `done`, with `removable` of the
      `spare` digits still allowed to go: it is a subsequence of `done`
      that dictionary-dominates every subsequence of `done` an answer could
      start with; while digits may still be removed it never increases. */
  ghost predicate Greedy(done: seq<int>, st: seq<int>, spare: int, removable: int) {
    removable <= spare && (removable >= 0 || removable == spare)
    && |st| == |done| - (spare - removable)
    && IsSubseq(st, done)
    && (removable > 0 ==> Descending(st))
    && forall u :: IsSubseq(u, done) && |u| >= |done| - spare ==> LexLe(u, st)
  }

  /** A subsequence that leaves the new digit out. */
  lemma KeepWithout(u: seq<int>, st: seq<int>, c: int, q: int)
    requires LexLe(u, st) && 0 <= q <= |st|
    requires forall x :: q <= x < |st| ==> st[x] < c
    ensures LexLe(u, st[..q] + [c])
  {
    var j := Agree(u, st);
    var s' := st[..q] + [c];
    assert u[..j] == st[..j];
    if j == |u| && |u| <= q {
      LexLeAt(u, s', |u|);
    } else if j < q {
      LexLeAt(u, s', j);
    } else {
      assert u[q] <= st[q];
      LexLeAt(u, s', q);
    }
  }

  /** A subsequence that ends with the new digit. */
  lemma KeepWith(u: seq<int>, st: seq<int>, c: int, q: int)
    requires LexLe(u, st) && 0 <= q <= |st|
    requires forall x :: q <= x < |st| ==> st[x] < c
    requires |u| >= q || forall x :: 0 <= x < q ==> st[x] >= c
    ensures LexLe(u + [c], st[..q] + [c])
  {
    var j := Agree(u, st);
    var u', s' := u + [c], st[..q] + [c];
    assert u[..j] == st[..j];
    if j < |u| {
      if j < q {
        LexLeAt(u', s', j);
      } else {
        assert u[q] <= st[q];
        LexLeAt(u', s', q);
      }
    } else if |u| < q {
      if st[|u|] > c {
        LexLeAt(u', s', |u|);
      } else {
        LexLeAt(u', s', |u'|);
      }
    } else if |u| == q {
      LexLeAt(u', s', |u'|);
    } else {
      LexLeAt(u', s', q);
    }
  }

  /** One digit of the outer loop: popping down to `st[..q]` and pushing `c`
      keeps `Greedy`. */
  lemma PushKeepsGreedy(done: seq<int>, st: seq<int>, spare: int, removable: int,
                        c: int, q: int, removable': int)
    requires Greedy(done, st, spare, removable)
    requires 0 <= q <= |st| && removable' == removable - (|st| - q)
    requires q < |st| ==> removable' >= 0
    requires forall x :: q <= x < |st| ==> st[x] < c
    requires q == 0 || removable' <= 0 || st[q - 1] >= c
    ensures Greedy(done + [c], st[..q] + [c], spare, removable')
  {
    var done', st' := done + [c], st[..q] + [c];
    SubseqPrefix(st, done, q);
    SubseqAppend(st[..q], done, c);
    if removable' > 0 {
      forall a, b | 0 <= a < b < |st'|
        ensures st'[a] >= st'[b]
      {
        if b == q {
          assert st[a] >= st[q - 1];
        }
      }
    }
    PushKeepsDominance(done, st, spare, removable, c, q, removable');
  }

  lemma PushKeepsDominance(done: seq<int>, st: seq<int>, spare: int, removable: int,
                           c: int, q: int, removable': int)
    requires Greedy(done, st, spare, removable)
    requires 0 <= q <= |st| && removable' == removable - (|st| - q)
    requires forall x :: q <= x < |st| ==> st[x] < c
    requires q == 0 || removable' <= 0 || st[q - 1] >= c
    ensures forall u :: IsSubseq(u, done + [c]) && |u| >= |done| + 1 - spare ==> LexLe(u, st[..q] + [c])
  {
    var least := |done| - spare;
    if removable' > 0 && q > 0 {
      PrefixAbove(st, c, q);
    }
    forall u' | IsSubseq(u', done + [c]) && |u'| >= least + 1
      ensures LexLe(u', st[..q] + [c])
    {
      PushDominatesOne(done, st, least, c, q, u');
    }
  }

  /** Below a descending stack's entry `q - 1`, nothing is smaller than `c`
      when that entry is not. */
  lemma PrefixAbove(st: seq<int>, c: int, q: int)
    requires Descending(st) && 0 < q <= |st| && st[q - 1] >= c
    ensures forall x :: 0 <= x < q ==> st[x] >= c
  {
    forall x | 0 <= x < q
      ensures st[x] >= c
    {
      assert st[x] >= st[q - 1];
    }
  }

  /** A subsequence of `least` or more digits of `done + [c]` reads no
      larger than the pushed stack. */
  lemma PushDominatesOne(done: seq<int>, st: seq<int>, least: int, c: int, q: int, u': seq<int>)
    requires 0 <= q <= |st|
    requires forall x :: q <= x < |st| ==> st[x] < c
    requires q <= least || forall x :: 0 <= x < q ==> st[x] >= c
    requires forall u :: IsSubseq(u, done) && |u| >= least ==> LexLe(u, st)
    requires IsSubseq(u', done + [c]) && |u'| >= least + 1
    ensures LexLe(u', st[..q] + [c])
  {
    SubseqAppend(u', done, c);
    if IsSubseq(u', done) {
      KeepWithout(u', st, c, q);
    } else {
      var u := u'[..|u'| - 1];
      assert IsSubseq(u, done) && |u| >= least;
      SplitLast(u');
      KeepWith(u, st, c, q);
    }
  }

  lemma SplitLast(u: seq<int>)
    requires |u| > 0
    ensures u == u[..|u| - 1] + [u[|u| - 1]]
  {
  }

  /** After the last digit the first `count` stack entries are the best
      choice: no subsequence of that length reads as a larger number. */
  lemma GreedyIsBest(d: seq<int>, st: seq<int>, spare: int, removable: int, count: int)
    requires IsDigits(d) && IsDigits(st) && Greedy(d, st, spare, removable)
    requires count == |d| - spare && 0 <= count <= |st|
    ensures IsBest(Value(st[..count]), d, count)
  {
    SubseqPrefix(st, d, count);
    forall t | IsSubseq(t, d) && |t| == count
      ensures Value(t) <= Value(st[..count])
    {
      LexLeTruncate(t, st, count);
      SubseqDigits(t, d);
      LexLeValue(t, st[..count]);
    }
  }

  lemma {:induction false} SubseqDigits(t: seq<int>, d: seq<int>)
    requires IsSubseq(t, d) && IsDigits(d)
    ensures IsDigits(t)
    decreases |d|
  {
    if |t| > 0 {
      var d' := d[..|d| - 1];
      if t[|t| - 1] == d[|d| - 1] && IsSubseq(t[..|t| - 1], d') {
        SubseqDigits(t[..|t| - 1], d');
        assert forall i :: 0 <= i < |t| - 1 ==> t[i] == t[..|t| - 1][i];
      } else {
        SubseqDigits(t, d');
      }
    }
  }

  /** `v` is the largest number formed by `count` digits of `d` in order. */
  ghost predicate IsBest(v: int, d: seq<int>, count: int) {
    (exists t :: IsSubseq(t, d) && |t| == count && v == Value(t))
    && forall t :: IsSubseq(t, d) && |t| == count ==> Value(t) <= v
  }

  /** `maxJoltageArbitrary`. Go panics on a non-digit and, when the line is
      shorter than `numDigits`, on reading past the stack. */
  method MaxJoltageArbitrary(line: string, numDigits: nat) returns (r: Option<int>)
    ensures r.Some? <==> AllDigits(line) && numDigits <= |line|
    ensures r.Some? ==> 0 <= r.value < Pow10(numDigits)
                        && IsBest(r.value, DigitsOf(line), numDigits)
  {
    if !AllDigits(line) {
      return None;
    }
    var d := DigitsOf(line);
    var spare := |line| - numDigits;
    var numToRemove := spare;
    var stack: Stack<int> := Stack([]);
    for i := 0 to |d|
      invariant Greedy(d[..i], stack.items, spare, numToRemove)
      invariant IsDigits(stack.items)
    {
      PrefixStep(d, i);
      stack, numToRemove := GreedyStep(d[..i], d[i], stack, spare, numToRemove);
    }
    assert d[..|d|] == d;
    if |stack.items| < numDigits {
      return None;
    }
    var result := ReadNumber(stack.items, numDigits);
    GreedyIsBest(d, stack.items, spare, numToRemove, numDigits);
    ValueBound(stack.items[..numDigits]);
    return Some(result);
  }

  lemma PrefixStep(d: seq<int>, i: int)
    requires 0 <= i < |d|
    ensures d[..i + 1] == d[..i] + [d[i]]
  {
  }

  /** One pass of the outer loop: pop, then push `curr`. */
  method GreedyStep(done: seq<int>, curr: int, stack: Stack<int>, ghost spare: int, numToRemove: int)
    returns (stack': Stack<int>, numToRemove': int)
    requires Greedy(done, stack.items, spare, numToRemove)
    requires IsDigits(stack.items) && 0 <= curr <= 9
    ensures Greedy(done + [curr], stack'.items, spare, numToRemove')
    ensures IsDigits(stack'.items)
  {
    var popped;
    popped, numToRemove' := PopSmaller(stack, curr, numToRemove);
    stack' := Push(popped, curr);
    assert stack'.items == stack.items[..|popped.items|] + [curr];
    PushKeepsGreedy(done, stack.items, spare, numToRemove, curr, |popped.items|, numToRemove');
    assert IsDigits(stack'.items) by {
      assert forall x :: 0 <= x < |popped.items| ==> popped.items[x] == stack.items[x];
    }
  }

  /** The inner loop: pops entries smaller than `curr` while removals remain. */
  method PopSmaller(stack: Stack<int>, curr: int, numToRemove: int)
    returns (stack': Stack<int>, numToRemove': int)
    ensures |stack'.items| <= |stack.items| && stack'.items == stack.items[..|stack'.items|]
    ensures numToRemove' == numToRemove - (|stack.items| - |stack'.items|)
    ensures |stack'.items| < |stack.items| ==> numToRemove' >= 0
    ensures forall x :: |stack'.items| <= x < |stack.items| ==> stack.items[x] < curr
    ensures |stack'.items| == 0 || numToRemove' <= 0 || stack'.items[|stack'.items| - 1] >= curr
  {
    stack', numToRemove' := stack, numToRemove;
    ghost var k := |stack.items|;
    while !IsEmpty(stack') && numToRemove' > 0
      invariant k == |stack'.items| <= |stack.items| && stack'.items == stack.items[..k]
      invariant numToRemove' == numToRemove - (|stack.items| - k)
      invariant k < |stack.items| ==> numToRemove' >= 0
      invariant forall x :: k <= x < |stack.items| ==> stack.items[x] < curr
    {
      var top := Peek(stack').value;
      assert top == stack.items[k - 1];
      if curr <= top {
        break;
      }
      var popped := Pop(stack');
      assert popped.1.items == stack.items[..k - 1] by {
        assert popped.1.items + [top] == stack.items[..k];
        assert stack.items[..k] == stack.items[..k - 1] + [top];
      }
      stack' := popped.1;
      numToRemove' := numToRemove' - 1;
      k := k - 1;
    }
  }

  /** The final loop: the first `count` entries as a decimal number. */
  method ReadNumber(items: seq<int>, count: int) returns (result: int)
    requires 0 <= count <= |items|
    ensures result == Value(items[..count])
  {
    result := 0;
    for i := 0 to count
      invariant result + Value(items[i..count]) == Value(items[..count])
    {
      assert items[i..count][1..] == items[i + 1..count];
      result := result + items[i] * Pow10(count - i - 1);
    }
  }

  /** The part 2 search with two digits finds the part 1 answer. */
  lemma BestTwoIsMaxPair(v: int, d: seq<int>)
    requires |d| >= 2
    ensures IsBest(v, d, 2) <==> v == PairMax(d)
  {
    var w := PairMax(d);
    PairMaxIsBest(d);
    PairMaxIsMax(d);
    if IsBest(v, d, 2) {
      var t :| IsSubseq(t, d) && |t| == 2 && v == Value(t);
      var a, b := SubseqPair(t, d);
      assert Value(t) >= w;
    }
  }

  lemma PairMaxIsBest(d: seq<int>)
    requires |d| >= 2
    ensures IsBest(PairMax(d), d, 2)
  {
    var w := PairMax(d);
    PairMaxIsMax(d);
    var i, j :| 0 <= i < j < |d| && w == 10 * d[i] + d[j];
    PairSubseq(d, i, j);
    ValuePair(d[i], d[j]);
    forall t | IsSubseq(t, d) && |t| == 2
      ensures Value(t) <= w
    {
      var a, b := SubseqPair(t, d);
    }
  }

  lemma PairSubseq(d: seq<int>, i: int, j: int)
    requires 0 <= i < j < |d|
    ensures IsSubseq([d[i], d[j]], d)
  {
    SubseqAt(d[..i + 1], i);
    assert d[..j][..i + 1] == d[..i + 1];
    SubseqWiden([d[i]], d[..i + 1], d[..j]);
    SubseqAppend([d[i]], d[..j], d[j]);
    assert d[..j] + [d[j]] == d[..j + 1];
    assert [d[i]] + [d[j]] == [d[i], d[j]];
    assert d[..j + 1] == d[..|d|][..j + 1];
    SubseqWiden([d[i], d[j]], d[..j + 1], d);
  }

  lemma SubseqAt(d: seq<int>, i: int)
    requires i == |d| - 1 >= 0
    ensures IsSubseq([d[i]], d)
  {
    assert [d[i]][..0] == [];
  }

  lemma {:induction false} SubseqWiden(t: seq<int>, d: seq<int>, e: seq<int>)
    requires IsSubseq(t, d) && |d| <= |e| && e[..|d|] == d
    ensures IsSubseq(t, e)
    decreases |e|
  {
    if |e| > |d| {
      var e' := e[..|e| - 1];
      assert e'[..|d|] == d;
      SubseqWiden(t, d, e');
    } else {
      assert e == d;
    }
  }

  lemma ValuePair(x: int, y: int)
    ensures Value([x, y]) == 10 * x + y
  {
    var t := [x, y];
    assert t[1..] == [y];
    assert [y][1..] == [];
    assert Value([y]) == y * Pow10(0) + Value([]);
    assert Pow10(1) == 10;
  }

  /** A two-element subsequence picks two positions in order. */
  lemma SubseqPair(t: seq<int>, d: seq<int>) returns (a: int, b: int)
    requires IsSubseq(t, d) && |t| == 2
    ensures 0 <= a < b < |d| && t[0] == d[a] && t[1] == d[b]
    ensures Value(t) == 10 * d[a] + d[b]
  {
    var x, rest := SubseqLast(t, d);
    var y, _ := SubseqLast(t[..1], rest);
    a, b := y, x;
    assert t == [t[0], t[1]];
    ValuePair(t[0], t[1]);
  }

  /** The last element of a subsequence sits at some position, and the rest
      comes from before it. */
  lemma {:induction false} SubseqLast(t: seq<int>, d: seq<int>) returns (x: int, before: seq<int>)
    requires IsSubseq(t, d) && |t| > 0
    ensures 0 <= x < |d| && t[|t| - 1] == d[x] && before == d[..x]
    ensures IsSubseq(t[..|t| - 1], before)
    decreases |d|
  {
    assert |d| > 0;
    var d' := d[..|d| - 1];
    if t[|t| - 1] == d[|d| - 1] && IsSubseq(t[..|t| - 1], d') {
      x, before := |d| - 1, d';
    } else {
      assert IsSubseq(t, d');
      x, before := SubseqLast(t, d');
      assert d'[..x] == d[..x];
    }
  }

  // ---- the puzzle parts ----

  /** The part 1 joltage of a valid line. */
  predicate IsJoltage(line: string, v: int)
    requires |line| > 0 && AllDigits(line)
  {
    if |line| == 1 then v == DigitValue(line[0]) else v == PairMax(DigitsOf(line))
  }

  /** Each of the first `|values|` lines is valid and `values` holds its
      joltage. */
  predicate AllJoltages(lines: seq<string>, values: seq<int>) {
    |values| <= |lines|
    && forall x :: 0 <= x < |values| ==>
         |lines[x]| > 0 && AllDigits(lines[x]) && IsJoltage(lines[x], values[x])
  }

  lemma AllJoltagesAppend(lines: seq<string>, values: seq<int>, v: int)
    requires AllJoltages(lines, values) && |values| < |lines|
    requires |lines[|values|]| > 0 && AllDigits(lines[|values|])
    requires IsJoltage(lines[|values|], v)
    ensures AllJoltages(lines, values + [v])
  {
    var values' := values + [v];
    forall x | 0 <= x < |values'|
      ensures |lines[x]| > 0 && AllDigits(lines[x]) && IsJoltage(lines[x], values'[x])
    {
      if x < |values| {
        assert values'[x] == values[x];
      }
    }
  }

  /** `part1`: the two-digit joltages of the lines, added up. */
  method Part1(lines: seq<string>) returns (result: Option<int>, values: seq<int>)
    ensures result.Some? <==> forall i :: 0 <= i < |lines| ==> |lines[i]| > 0 && AllDigits(lines[i])
    ensures result.Some? ==> |values| == |lines| && result.value == Sum(values)
    ensures result.Some? ==> forall i :: 0 <= i < |lines| ==> IsJoltage(lines[i], values[i])
  {
    values := [];
    var total := 0;
    for i := 0 to |lines|
      invariant |values| == i && total == Sum(values)
      invariant AllJoltages(lines, values)
    {
      var v := MaxJoltage(lines[i]);
      if v.None? {
        return None, values;
      }
      AllJoltagesAppend(lines, values, v.value);
      SumAppend(values, v.value);
      values := values + [v.value];
      total := total + v.value;
    }
    return Some(total), values;
  }

  /** Each of the first `|values|` lines is valid and `values` holds its
      best twelve-digit choice. */
  ghost predicate AllBest(lines: seq<string>, values: seq<int>) {
    |values| <= |lines|
    && forall x :: 0 <= x < |values| ==>
         12 <= |lines[x]| && AllDigits(lines[x]) && IsBest(values[x], DigitsOf(lines[x]), 12)
  }

  lemma AllBestAppend(lines: seq<string>, values: seq<int>, v: int)
    requires AllBest(lines, values) && |values| < |lines|
    requires 12 <= |lines[|values|]| && AllDigits(lines[|values|])
    requires IsBest(v, DigitsOf(lines[|values|]), 12)
    ensures AllBest(lines, values + [v])
  {
    var values' := values + [v];
    forall x | 0 <= x < |values'|
      ensures 12 <= |lines[x]| && AllDigits(lines[x]) && IsBest(values'[x], DigitsOf(lines[x]), 12)
    {
      if x < |values| {
        assert values'[x] == values[x];
      }
    }
  }

  /** The loop body of `part2`: the best twelve-digit choice of the next
      line. */
  method BestOfLine(lines: seq<string>, values: seq<int>) returns (v: Option<int>)
    requires AllBest(lines, values) && |values| < |lines|
    ensures v.Some? <==> 12 <= |lines[|values|]| && AllDigits(lines[|values|])
    ensures v.Some? ==> AllBest(lines, values + [v.value])
  {
    v := MaxJoltageArbitrary(lines[|values|], 12);
    if v.Some? {
      AllBestAppend(lines, values, v.value);
    }
  }

  /** `part2`: the twelve-digit joltages of the lines, added up. */
  method Part2(lines: seq<string>) returns (result: Option<int>, values: seq<int>)
    ensures result.Some? <==> forall i :: 0 <= i < |lines| ==> 12 <= |lines[i]| && AllDigits(lines[i])
    ensures result.Some? ==> |values| == |lines| && result.value == Sum(values)
    ensures result.Some? ==> forall i :: 0 <= i < |lines| ==> IsBest(values[i], DigitsOf(lines[i]), 12)
  {
    values := [];
    var total := 0;
    for i := 0 to |lines|
      invariant |values| == i && total == Sum(values)
      invariant AllBest(lines, values)
    {
      var v := BestOfLine(lines, values);
      if v.None? {
        return None, values;
      }
      SumAppend(values, v.value);
      values := values + [v.value];
      total := total + v.value;
    }
    return Some(total), values;
  }
}
