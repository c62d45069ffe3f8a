/** Day 5: fresh-ingredient ID ranges. Part 1 counts the available IDs
    that fall in some range; part 2 merges the ranges into disjoint ones
    and adds up their lengths, which counts every fresh ID once. */
module Day5 {
  import opened Wrappers
  import opened Ints
  import opened Strings
  import opened Walks

  /** `FreshRange`: the IDs from `start` to `end`, both included. */
  datatype FreshRange = FreshRange(start: int, end: int)

  predicate Valid(r: FreshRange) {
    r.start <= r.end
  }

  predicate AllValid(rs: seq<FreshRange>) {
    forall i :: 0 <= i < |rs| ==> Valid(rs[i])
  }

  predicate Contains(r: FreshRange, x: int) {
    r.start <= x <= r.end
  }

  /** Some range of `rs` holds `x`. */
  predicate Covers(rs: seq<FreshRange>, x: int) {
    exists r :: r in rs && Contains(r, x)
  }

  // ---- sorting by start ----

  predicate SortedByStart(rs: seq<FreshRange>) {
    forall i, j :: 0 <= i < j < |rs| ==> rs[i].start <= rs[j].start
  }

  /** Inserts `r` after every range starting no later than it. */
  function Insert(t: seq<FreshRange>, r: FreshRange): (u: seq<FreshRange>)
    requires SortedByStart(t)
    ensures SortedByStart(u)
    ensures multiset(u) == multiset(t) + multiset{r}
    ensures forall x :: x in u <==> x in t || x == r
    ensures |t| > 0 && Last(t).start <= r.start ==> u == t + [r]
  {
    if |t| == 0 || Last(t).start <= r.start then t + [r]
    else
      var init := t[..|t| - 1];
      assert t == init + [Last(t)];
      var v := Insert(init, r);
      InsertBelow(t, r, v);
      v + [Last(t)]
  }

  lemma InsertBelow(t: seq<FreshRange>, r: FreshRange, v: seq<FreshRange>)
    requires |t| > 0 && SortedByStart(t) && r.start < Last(t).start
    requires forall x :: x in v <==> x in t[..|t| - 1] || x == r
    ensures forall k :: 0 <= k < |v| ==> v[k].start <= Last(t).start
  {
    forall k | 0 <= k < |v|
      ensures v[k].start <= Last(t).start
    {
      assert v[k] in v;
      if v[k] != r {
        var j :| 0 <= j < |t| - 1 && t[..|t| - 1][j] == v[k];
        assert t[j] == v[k];
      }
    }
  }

  /** `sort.Slice` by start. Go's sort is not stable, so ranges with equal
      starts may come out in any order; this one keeps their input order.
      Everything below about the merge holds for every start-sorted order. */
  function Sort(rs: seq<FreshRange>): (s: seq<FreshRange>)
    ensures SortedByStart(s)
    ensures multiset(s) == multiset(rs)
    ensures SortedByStart(rs) ==> s == rs
  {
    if |rs| == 0 then []
    else
      var init := rs[..|rs| - 1];
      assert rs == init + [Last(rs)];
      Insert(Sort(init), Last(rs))
  }

  lemma SortCovers(rs: seq<FreshRange>, x: int)
    ensures Covers(Sort(rs), x) <==> Covers(rs, x)
  {
    var s := Sort(rs);
    assert forall r :: r in s <==> r in multiset(s);
    assert forall r :: r in rs <==> r in multiset(rs);
  }

  // ---- merging ----

  /** Every range starts no earlier than, and strictly after the end of,
      each range before it. */
  predicate Separated(rs: seq<FreshRange>) {
    forall i, j :: 0 <= i < j < |rs| ==> rs[i].start <= rs[j].start && rs[i].end < rs[j].start
  }

  lemma CoversAppend(rs: seq<FreshRange>, r: FreshRange, x: int)
    ensures Covers(rs + [r], x) <==> Covers(rs, x) || Contains(r, x)
  {
    if Covers(rs + [r], x) {
      var q :| q in rs + [r] && Contains(q, x);
      if q != r {
        assert q in rs;
      }
    }
    if Covers(rs, x) {
      var q :| q in rs && Contains(q, x);
      assert q in rs + [r];
    }
    if Contains(r, x) {
      assert r in rs + [r];
    }
  }

  /** One turn of the loop of `consolidateRanges`: a range starting within
      the last output range extends it when it reaches further, and is
      otherwise absorbed; any other range is appended. */
  function Merge(out: seq<FreshRange>, r: FreshRange): (out': seq<FreshRange>)
    requires |out| > 0
  {
    var curr := Last(out);
    if r.start <= curr.end then
      if r.end > curr.end then out[..|out| - 1] + [FreshRange(curr.start, r.end)] else out
    else out + [r]
  }

  /** A turn keeps the output separated, grows it by at most one range,
      and covers the new range besides what was covered. */
  lemma MergeFacts(out: seq<FreshRange>, r: FreshRange)
    requires |out| > 0 && Separated(out) && Last(out).start <= r.start
    ensures var out' := Merge(out, r);
            |out| <= |out'| <= |out| + 1 && Separated(out') && Last(out').start <= r.start
            && (AllValid(out) && Valid(r) ==> AllValid(out'))
            && out'[..|out| - 1] == out[..|out| - 1]
            && (|out'| == |out| ==> Last(out').start == Last(out).start
                                    && (Last(out').end == Last(out).end || Last(out').end == r.end))
            && (|out'| > |out| ==> Last(out') == r)
  {
    var curr := Last(out);
    var init := out[..|out| - 1];
    assert out == init + [curr];
    if r.start <= curr.end && r.end > curr.end {
      var out' := Merge(out, r);
      assert out' == init + [FreshRange(curr.start, r.end)];
      assert forall i :: 0 <= i < |init| ==> out'[i] == out[i];
    }
  }

  lemma MergeCovers(out: seq<FreshRange>, r: FreshRange, x: int)
    requires |out| > 0 && Last(out).start <= r.start
    ensures Covers(Merge(out, r), x) <==> Covers(out, x) || Contains(r, x)
  {
    var curr := Last(out);
    var init := out[..|out| - 1];
    assert out == init + [curr];
    CoversAppend(init, curr, x);
    if r.start <= curr.end {
      if r.end > curr.end {
        var merged := FreshRange(curr.start, r.end);
        CoversAppend(init, merged, x);
      }
    } else {
      CoversAppend(out, r, x);
    }
  }

  /** The loop of `consolidateRanges` over start-sorted ranges. */
  function Sweep(s: seq<FreshRange>): (out: seq<FreshRange>)
    requires |s| > 0 && SortedByStart(s)
    ensures 1 <= |out| <= |s|
    ensures Separated(out)
    ensures Last(out).start <= Last(s).start
    ensures AllValid(s) ==> AllValid(out)
    decreases |s|
  {
    if |s| == 1 then s
    else
      var init := s[..|s| - 1];
      var out := Sweep(init);
      assert Last(init).start <= Last(s).start;
      MergeFacts(out, Last(s));
      Merge(out, Last(s))
  }

  /** `consolidateRanges`. */
  function Consolidate(ranges: seq<FreshRange>): (out: seq<FreshRange>)
    ensures |out| <= |ranges|
    ensures |out| == 0 <==> |ranges| == 0
    ensures Separated(out)
    ensures AllValid(ranges) ==> AllValid(out)
  {
    if |ranges| == 0 then ranges
    else
      var s := Sort(ranges);
      assert AllValid(ranges) ==> AllValid(s) by {
        if AllValid(ranges) {
          forall i | 0 <= i < |s|
            ensures Valid(s[i])
          {
            assert s[i] in multiset(ranges);
          }
        }
      }
      Sweep(s)
  }

  /** The merge covers exactly what its input covers. */
  lemma {:induction false} SweepCovers(s: seq<FreshRange>, x: int)
    requires |s| > 0 && SortedByStart(s)
    ensures Covers(Sweep(s), x) <==> Covers(s, x)
    decreases |s|
  {
    if |s| > 1 {
      var init, last := s[..|s| - 1], Last(s);
      assert SortedByStart(init);
      assert Last(init).start <= last.start;
      assert Sweep(s) == Merge(Sweep(init), last);
      assert Covers(Sweep(s), x) <==> Covers(Sweep(init), x) || Contains(last, x) by {
        MergeCovers(Sweep(init), last, x);
      }
      assert Covers(Sweep(init), x) <==> Covers(init, x) by {
        SweepCovers(init, x);
      }
      assert Covers(s, x) <==> Covers(init, x) || Contains(last, x) by {
        assert s == init + [last];
        CoversAppend(init, last, x);
      }
    }
  }

  /** Each merged range starts where some input range starts and ends where
      some input range ends. */
  ghost predicate FromInput(out: seq<FreshRange>, s: seq<FreshRange>) {
    forall i :: 0 <= i < |out| ==> StartsFrom(out[i], s) && EndsFrom(out[i], s)
  }

  ghost predicate StartsFrom(r: FreshRange, s: seq<FreshRange>) {
    exists q :: q in s && r.start == q.start
  }

  ghost predicate EndsFrom(r: FreshRange, s: seq<FreshRange>) {
    exists q :: q in s && r.end == q.end
  }

  lemma {:induction false} SweepEndpoints(s: seq<FreshRange>)
    requires |s| > 0 && SortedByStart(s)
    ensures FromInput(Sweep(s), s)
    decreases |s|
  {
    if |s| > 1 {
      var init := s[..|s| - 1];
      SweepEndpoints(init);
      assert forall q :: q in init ==> q in s;
      assert Last(s) in s;
      FromInputWiden(Sweep(init), init, s);
      MergeEndpoints(Sweep(init), Last(s), s);
    }
  }

  lemma FromInputWiden(out: seq<FreshRange>, s: seq<FreshRange>, s': seq<FreshRange>)
    requires FromInput(out, s) && forall q :: q in s ==> q in s'
    ensures FromInput(out, s')
  {
    forall i | 0 <= i < |out|
      ensures StartsFrom(out[i], s') && EndsFrom(out[i], s')
    {
      var q1 :| q1 in s && out[i].start == q1.start;
      var q2 :| q2 in s && out[i].end == q2.end;
      assert q1 in s' && q2 in s';
    }
  }

  lemma MergeEndpoints(out: seq<FreshRange>, r: FreshRange, s: seq<FreshRange>)
    requires |out| > 0 && FromInput(out, s) && r in s
    ensures FromInput(Merge(out, r), s)
  {
    var curr := Last(out);
    var out' := Merge(out, r);
    forall i | 0 <= i < |out'|
      ensures StartsFrom(out'[i], s) && EndsFrom(out'[i], s)
    {
      if i < |out| - 1 {
        assert out'[i] == out[i];
      } else if i == |out| - 1 {
        assert out'[i].start == curr.start;
        assert out'[i].end == curr.end || out'[i].end == r.end;
      } else {
        assert out'[i] == r;
      }
    }
  }

  /** Ranges already merged pass through unchanged. */
  lemma {:induction false} SweepSeparated(s: seq<FreshRange>)
    requires |s| > 0 && Separated(s)
    ensures Sweep(s) == s
    decreases |s|
  {
    if |s| > 1 {
      var init := s[..|s| - 1];
      SeparatedInit(s);
      SweepSeparated(init);
      assert Merge(init, Last(s)) == s;
    }
  }

  lemma SeparatedInit(s: seq<FreshRange>)
    requires |s| > 1 && Separated(s)
    ensures var init := s[..|s| - 1];
            Separated(init) && Last(init).end < Last(s).start && s == init + [Last(s)]
  {
  }

  /** `consolidateRanges` covers exactly the IDs its input covers. */
  lemma ConsolidateCovers(ranges: seq<FreshRange>, x: int)
    ensures Covers(Consolidate(ranges), x) <==> Covers(ranges, x)
  {
    if |ranges| > 0 {
      SortCovers(ranges, x);
      SweepCovers(Sort(ranges), x);
    }
  }

  /** Each output range starts at an input start and ends at an input end. */
  lemma ConsolidateEndpoints(ranges: seq<FreshRange>)
    ensures FromInput(Consolidate(ranges), ranges)
  {
    if |ranges| > 0 {
      var s := Sort(ranges);
      SweepEndpoints(s);
      assert forall q :: q in s <==> q in ranges by {
        assert forall q :: q in s <==> q in multiset(s);
        assert forall q :: q in ranges <==> q in multiset(ranges);
      }
      FromInputWiden(Sweep(s), s, ranges);
    }
  }

  /** Merging twice is merging once. */
  lemma ConsolidateIdempotent(ranges: seq<FreshRange>)
    ensures Consolidate(Consolidate(ranges)) == Consolidate(ranges)
  {
    var out := Consolidate(ranges);
    if |out| > 0 {
      SweepSeparated(out);
    }
  }

  // ---- counting covered IDs ----

  /** Every ID some range of `rs` holds. */
  function CoveredSet(rs: seq<FreshRange>): (ids: set<int>)
    ensures forall x :: x in ids <==> Covers(rs, x)
  {
    if |rs| == 0 then {}
    else
      var init := rs[..|rs| - 1];
      assert rs == init + [Last(rs)];
      assert forall x :: Covers(rs, x) <==> Covers(init, x) || Contains(Last(rs), x) by {
        forall x
          ensures Covers(rs, x) <==> Covers(init, x) || Contains(Last(rs), x)
        {
          CoversAppend(init, Last(rs), x);
        }
      }
      CoveredSet(init) + Interval(Last(rs).start, Last(rs).end)
  }

  /** Part 2's sum of range lengths. */
  function TotalLength(rs: seq<FreshRange>): int {
    if |rs| == 0 then 0 else TotalLength(rs[..|rs| - 1]) + (Last(rs).end - Last(rs).start + 1)
  }

  /** For disjoint non-empty ranges, the sum of lengths counts the covered
      IDs. */
  lemma {:induction false} TotalLengthCounts(rs: seq<FreshRange>)
    requires Separated(rs) && AllValid(rs)
    ensures TotalLength(rs) == |CoveredSet(rs)|
    decreases |rs|
  {
    if |rs| > 0 {
      var init := rs[..|rs| - 1];
      var r := Last(rs);
      TotalLengthCounts(init);
      assert CoveredSet(init) !! Interval(r.start, r.end) by {
        forall x | x in CoveredSet(init)
          ensures x < r.start
        {
          var q :| q in init && Contains(q, x);
          SeparatedBefore(rs, q);
        }
      }
    }
  }

  lemma SeparatedBefore(rs: seq<FreshRange>, q: FreshRange)
    requires |rs| > 0 && Separated(rs) && q in rs[..|rs| - 1]
    ensures q.end < Last(rs).start
  {
    var i :| 0 <= i < |rs| - 1 && rs[..|rs| - 1][i] == q;
    assert rs[i] == q;
  }

  /** Part 2's answer is the number of fresh IDs. */
  lemma ConsolidatedLength(ranges: seq<FreshRange>)
    requires AllValid(ranges)
    ensures TotalLength(Consolidate(ranges)) == |CoveredSet(ranges)|
  {
    var out := Consolidate(ranges);
    TotalLengthCounts(out);
    forall x
      ensures x in CoveredSet(out) <==> x in CoveredSet(ranges)
    {
      ConsolidateCovers(ranges, x);
    }
    assert CoveredSet(out) == CoveredSet(ranges);
  }

  // ---- input ----

  /** The index of the first blank line, or the number of lines. */
  function FirstBlank(lines: seq<string>): (k: nat)
    ensures k <= |lines|
    ensures k < |lines| ==> lines[k] == ""
    ensures forall i :: 0 <= i < k ==> lines[i] != ""
  {
    if |lines| == 0 || lines[0] == "" then 0 else 1 + FirstBlank(lines[1..])
  }

  /** A range line "a-b". `MustConvAtoi2` (not part of this model) is taken
      to convert the first two parts and to fail with fewer. */
  function ParseRange(line: string): Option<FreshRange> {
    var parts := Split(line, '-');
    if |parts| < 2 then None
    else
      var a :- Atoi(parts[0]);
      var b :- Atoi(parts[1]);
      Some(FreshRange(a, b))
  }

  function RangeText(r: FreshRange): string {
    Itoa(r.start) + "-" + Itoa(r.end)
  }

  /** A range of non-negative IDs reads back from its text. */
  lemma ParseRangeText(r: FreshRange)
    requires 0 <= r.start && 0 <= r.end && InIntRange(r.start) && InIntRange(r.end)
    ensures ParseRange(RangeText(r)) == Some(r)
  {
    var a, b := Itoa(r.start), Itoa(r.end);
    ItoaLacks(r.start, '-');
    ItoaLacks(r.end, '-');
    assert Join([a, b], '-') == RangeText(r);
    SplitJoin([a, b], '-');
    AtoiItoa(r.start);
    AtoiItoa(r.end);
  }

  /** The ranges of the lines before the first blank one. */
  function ParseRanges(lines: seq<string>): (r: Option<seq<FreshRange>>)
    ensures r.Some? <==> forall i :: 0 <= i < |lines| ==> ParseRange(lines[i]).Some?
    ensures r.Some? ==> |r.value| == |lines|
                        && forall i :: 0 <= i < |lines| ==> ParseRange(lines[i]) == Some(r.value[i])
  {
    if |lines| == 0 then Some([])
    else
      var first :- ParseRange(lines[0]);
      var rest :- ParseRanges(lines[1..]);
      Some([first] + rest)
  }

  /** The IDs after the first blank line; part 1 skips further blank lines. */
  function ParseIds(lines: seq<string>): (r: Option<seq<int>>)
    ensures r.Some? <==> forall i :: 0 <= i < |lines| && lines[i] != "" ==> Atoi(lines[i]).Some?
    ensures r.Some? ==> |r.value| <= |lines|
  {
    if |lines| == 0 then Some([])
    else if lines[0] == "" then ParseIds(lines[1..])
    else
      var first :- Atoi(lines[0]);
      var rest :- ParseIds(lines[1..]);
      Some([first] + rest)
  }

  // ---- the two parts ----

  /** The number of entries of `ids` some range holds; an ID listed twice
      counts twice. */
  function CountCovered(ranges: seq<FreshRange>, ids: seq<int>): nat {
    |set k | 0 <= k < |ids| && Covers(ranges, ids[k])|
  }

  lemma CountCoveredStep(ranges: seq<FreshRange>, ids: seq<int>, k: nat)
    requires k < |ids|
    ensures CountCovered(ranges, ids[..k + 1])
            == CountCovered(ranges, ids[..k]) + (if Covers(ranges, ids[k]) then 1 else 0)
  {
    var pre, pre' := ids[..k], ids[..k + 1];
    var before := set j | 0 <= j < |pre| && Covers(ranges, pre[j]);
    var after := set j | 0 <= j < |pre'| && Covers(ranges, pre'[j]);
    if Covers(ranges, ids[k]) {
      assert after == before + {k};
    } else {
      assert after == before;
    }
  }

  /** The inner loop of part 1: scans the ranges until one holds `id`. */
  method InSomeRange(ranges: seq<FreshRange>, id: int) returns (found: bool)
    ensures found <==> Covers(ranges, id)
  {
    found := false;
    var i := 0;
    while i < |ranges|
      invariant 0 <= i <= |ranges|
      invariant !Covers(ranges[..i], id)
    {
      if id >= ranges[i].start && id <= ranges[i].end {
        assert ranges[i] in ranges;
        return true;
      }
      PrefixStep(ranges, i);
      i := i + 1;
    }
    assert ranges[..i] == ranges;
  }

  /** Part 1: how many listed IDs are fresh. No answer when a line does not
      parse (Go panics). */
  method Part1(lines: seq<string>) returns (result: Option<int>)
    ensures var k := FirstBlank(lines);
            result.Some? <==> ParseRanges(lines[..k]).Some? && ParseIds(lines[k..]).Some?
    ensures var k := FirstBlank(lines);
            result.Some? ==> result.value == CountCovered(ParseRanges(lines[..k]).value,
                                                          ParseIds(lines[k..]).value)
  {
    var k := FirstBlank(lines);
    var ranges := ParseRanges(lines[..k]);
    var ids := ParseIds(lines[k..]);
    if ranges.None? || ids.None? {
      return None;
    }
    var count := 0;
    var i := 0;
    while i < |ids.value|
      invariant 0 <= i <= |ids.value|
      invariant count == CountCovered(ranges.value, ids.value[..i])
    {
      var found := InSomeRange(ranges.value, ids.value[i]);
      CountCoveredStep(ranges.value, ids.value, i);
      if found {
        count := count + 1;
      }
      i := i + 1;
    }
    assert ids.value[..i] == ids.value;
    return Some(count);
  }

  /** Part 2: the total length of the merged ranges; with well-formed ranges
      that is the number of fresh IDs. */
  method Part2(lines: seq<string>) returns (result: Option<int>)
    ensures var k := FirstBlank(lines);
            result.Some? <==> ParseRanges(lines[..k]).Some?
    ensures var k := FirstBlank(lines);
            result.Some? ==> result.value == TotalLength(Consolidate(ParseRanges(lines[..k]).value))
    ensures var k := FirstBlank(lines);
            result.Some? && AllValid(ParseRanges(lines[..k]).value) ==>
              result.value == |CoveredSet(ParseRanges(lines[..k]).value)|
  {
    var k := FirstBlank(lines);
    var ranges := ParseRanges(lines[..k]);
    if ranges.None? {
      return None;
    }
    var merged := Consolidate(ranges.value);
    var total := SumLengths(merged);
    if AllValid(ranges.value) {
      ConsolidatedLength(ranges.value);
    }
    return Some(total);
  }

  /** The summing loop of part 2. */
  method SumLengths(rs: seq<FreshRange>) returns (total: int)
    ensures total == TotalLength(rs)
  {
    total := 0;
    var i := 0;
    while i < |rs|
      invariant 0 <= i <= |rs|
      invariant total == TotalLength(rs[..i])
    {
      PrefixStep(rs, i);
      assert rs[..i + 1][..i] == rs[..i];
      total := total + (rs[i].end - rs[i].start + 1);
      i := i + 1;
    }
    assert rs[..i] == rs;
  }
}
