/** Day 2: sum the numbers in a list of ranges whose decimal form is some
    block of digits written out two or more times. */
module Day2 {
  import opened Wrappers
  import opened Strings
  import opened Ints

  datatype Range = Range(start: int, end: int)

  // ---- repetition ----

  /** `unit` written out `k` times. */
  function Repeat(unit: string, k: nat): (r: string)
    ensures |r| == k * |unit|
  {
    if k == 0 then "" else unit + Repeat(unit, k - 1)
  }

  /** The reference notion: `s` is some non-empty block written out at least
      twice. */
  ghost predicate IsRepetition(s: string) {
    exists unit: string, k: nat :: |unit| >= 1 && k >= 2 && s == Repeat(unit, k)
  }

  /** `s` runs through `unit` cyclically a whole number of times. */
  predicate Cyclic(s: string, unit: string)
    requires |unit| > 0
  {
    |s| % |unit| == 0 && forall i :: 0 <= i < |s| ==> s[i] == unit[i % |unit|]
  }

  /** The prefix of length `p` repeats through `s`, at least twice. */
  predicate RepeatedUnit(s: string, p: int) {
    1 <= p <= |s| / 2 && Cyclic(s, s[..p])
  }

  ghost predicate IsRepeated(s: string) {
    exists p :: RepeatedUnit(s, p)
  }

  lemma ModSmall(i: int, m: int)
    requires 0 <= i < m
    ensures i % m == i
  {
    DivModUnique(i, m, 0, i);
  }

  lemma {:induction false} RepeatIsCyclic(unit: string, k: nat)
    requires |unit| > 0
    ensures Cyclic(Repeat(unit, k), unit)
  {
    var m := |unit|;
    if k > 0 {
      var rest := Repeat(unit, k - 1);
      var s := Repeat(unit, k);
      RepeatIsCyclic(unit, k - 1);
      assert s == unit + rest;
      ModSubDivisor(|s|, m);
      forall i | 0 <= i < |s|
        ensures s[i] == unit[i % m]
      {
        if i < m {
          ModSmall(i, m);
        } else {
          assert s[i] == rest[i - m];
          ModSubDivisor(i, m);
        }
      }
    }
  }

  lemma {:induction false} CyclicIsRepeat(s: string, unit: string)
    requires |unit| > 0 && Cyclic(s, unit)
    ensures s == Repeat(unit, |s| / |unit|)
    decreases |s|
  {
    var m := |unit|;
    if |s| == 0 {
      DivModUnique(0, m, 0, 0);
    } else {
      assert m <= |s| by {
        if |s| < m {
          ModSmall(|s|, m);
        }
      }
      var rest := s[m..];
      var k := |rest| / m;
      assert |s| / m == k + 1 by {
        DivAddDivisor(|rest|, m);
      }
      assert s[..m] == unit && rest == Repeat(unit, k) by {
        CyclicSplit(s, unit);
        CyclicIsRepeat(rest, unit);
      }
      assert Repeat(unit, k + 1) == unit + Repeat(unit, k);
      assert s == s[..m] + rest;
    }
  }

  /** A cyclic string at least one unit long is the unit followed by a
      shorter cyclic string. */
  lemma CyclicSplit(s: string, unit: string)
    requires 0 < |unit| <= |s| && Cyclic(s, unit)
    ensures s[..|unit|] == unit && Cyclic(s[|unit|..], unit)
  {
    var m := |unit|;
    var rest := s[m..];
    ModSubDivisor(|s|, m);
    forall i | 0 <= i < |rest|
      ensures rest[i] == unit[i % m]
    {
      assert rest[i] == s[i + m];
      ModSubDivisor(i + m, m);
    }
    forall i | 0 <= i < m
      ensures s[i] == unit[i]
    {
      ModSmall(i, m);
    }
  }

  /** `RepeatedUnit` finds exactly the repetitions. */
  lemma IsRepeatedIffRepetition(s: string)
    ensures IsRepeated(s) <==> IsRepetition(s)
  {
    if IsRepeated(s) {
      var p :| RepeatedUnit(s, p);
      var unit := s[..p];
      var k := |s| / p;
      CyclicIsRepeat(s, unit);
      assert |s| == p * k;
      MulSign(p, k - 2);
      assert s == Repeat(unit, k);
    }
    if IsRepetition(s) {
      var unit: string, k: nat :| |unit| >= 1 && k >= 2 && s == Repeat(unit, k);
      var p := |unit|;
      RepeatIsCyclic(unit, k);
      assert s == unit + Repeat(unit, k - 1);
      assert s[..p] == unit;
      MulSign(p, k - 2);
      assert p * k == p * (k - 2) + 2 * p;
      assert RepeatedUnit(s, p);
    }
  }

  /** Checking the prefix against the rest of the string is checking the
      prefix against the whole string. */
  lemma ShiftedCyclic(s: string, p: int)
    requires 1 <= p < |s|
    ensures Cyclic(s[p..], s[..p]) <==> Cyclic(s, s[..p])
  {
    var unit, rest := s[..p], s[p..];
    ModSubDivisor(|s|, p);
    if Cyclic(s, unit) {
      forall i | 0 <= i < |rest|
        ensures rest[i] == unit[i % p]
      {
        ModSubDivisor(i + p, p);
      }
    }
    if Cyclic(rest, unit) {
      forall k | 0 <= k < |s|
        ensures s[k] == unit[k % p]
      {
        if k < p {
          ModSmall(k, p);
        } else {
          assert s[k] == rest[k - p];
          ModSubDivisor(k, p);
        }
      }
    }
  }

  /** The search for a unit stops at half the length; no unit of `s` is
      longer than that anyway, because a proper divisor is at most half. */
  lemma MidpointCutLosesNothing(s: string, p: int)
    ensures RepeatedUnit(s, p) <==> 1 <= p < |s| && Cyclic(s, s[..p])
  {
    if 1 <= p < |s| && Cyclic(s, s[..p]) {
      ProperDivisorAtMostHalf(|s|, p);
    }
  }

  /** A single-digit number never repeats. */
  lemma SingleDigitNeverRepeats(n: int)
    requires 0 <= n <= 9
    ensures !IsRepetition(Itoa(n))
  {
    var s := Itoa(n);
    assert |s| == 1 by {
      assert NatToString(n) == [DigitChar(n)];
    }
    IsRepeatedIffRepetition(s);
  }

  /** A negative number never repeats: no other character is a minus sign. */
  lemma NegativeNeverRepeats(n: int)
    requires n < 0
    ensures !IsRepetition(Itoa(n))
  {
    var s := Itoa(n);
    assert s == "-" + NatToString(-n);
    IsRepeatedIffRepetition(s);
    forall p | 1 <= p <= |s| / 2
      ensures !Cyclic(s, s[..p])
    {
      DivModUnique(p, p, 1, 0);
      assert IsDigit(s[p]);
    }
  }

  // ---- testSequence and detectRepeat ----

  /** The position in `unit` after `i` characters, wrapped as the loop does. */
  lemma StepWrap(i: int, m: int)
    requires i >= 1 && m >= 1
    ensures (if (i - 1) % m + 1 >= m then 0 else (i - 1) % m + 1) == i % m
    ensures i % m == 0 <==> (i - 1) % m + 1 == m
  {
    var j := (i - 1) % m + 1;
    ModAdd(i - 1, 1, m);
    if j < m {
      ModSmall(j, m);
    } else {
      DivModUnique(j, m, 1, 0);
    }
  }

  /** `testSequence`: walks `str`, cycling through `unit`, and succeeds when
      every character matches and the walk ends on a whole repetition. */
  method TestSequence(str: string, unit: string) returns (b: bool)
    requires |unit| > 0
    ensures b <==> |str| > 0 && Cyclic(str, unit)
  {
    var m := |unit|;
    var j := 0;
    var i := 0;
    while i < |str|
      invariant 0 <= i <= |str|
      invariant j == if i == 0 then 0 else (i - 1) % m + 1
      invariant forall k :: 0 <= k < i ==> str[k] == unit[k % m]
    {
      if j >= m {
        j := 0;
      }
      if i == 0 {
        ModSmall(0, m);
      } else {
        StepWrap(i, m);
      }
      if str[i] != unit[j] {
        return false;
      }
      j := j + 1;
      i := i + 1;
    }
    if |str| > 0 {
      StepWrap(|str|, m);
    }
    return j == m;
  }

  /** `detectRepeat`: tries each prefix length up to half the string, and
      only those whose next character matches the first. */
  method DetectRepeat(num: int) returns (b: bool)
    ensures b <==> IsRepetition(Itoa(num))
  {
    var s := Itoa(num);
    IsRepeatedIffRepetition(s);
    var middle := |s| / 2;
    var j := 1;
    while j < |s|
      invariant 1 <= j
      invariant forall p :: 1 <= p < j ==> !RepeatedUnit(s, p)
    {
      if j > middle {
        return false;
      }
      if s[j] == s[0] {
        var t := TestSequence(s[j..], s[..j]);
        ShiftedCyclic(s, j);
        if t {
          assert RepeatedUnit(s, j);
          return true;
        }
      } else {
        DivModUnique(j, j, 1, 0);
      }
      j := j + 1;
    }
    return false;
  }

  // ---- input ----

  /** One "a-b" token; Go panics on a missing `-` or a bad number. */
  function ParseRange(token: string): Option<Range> {
    var parts := Split(token, '-');
    if |parts| < 2 then None
    else
      var a :- Atoi(parts[0]);
      var b :- Atoi(parts[1]);
      Some(Range(a, b))
  }

  /** The comma-separated tokens of one line, in order. */
  function ParseTokens(tokens: seq<string>): (r: Option<seq<Range>>)
    ensures r.Some? <==> forall i :: 0 <= i < |tokens| ==> ParseRange(tokens[i]).Some?
    ensures r.Some? ==> |r.value| == |tokens|
                        && forall i :: 0 <= i < |tokens| ==> ParseRange(tokens[i]) == Some(r.value[i])
  {
    if |tokens| == 0 then Some([])
    else
      var first :- ParseRange(tokens[0]);
      var rest :- ParseTokens(tokens[1..]);
      Some([first] + rest)
  }

  /** `parseInput`: every line's ranges, line after line. */
  function ParseInput(lines: seq<string>): Option<seq<Range>> {
    if |lines| == 0 then Some([])
    else
      var first :- ParseTokens(Split(lines[0], ','));
      var rest :- ParseInput(lines[1..]);
      Some(first + rest)
  }

  /** How a range is written in the input. */
  function RangeText(r: Range): string {
    Itoa(r.start) + "-" + Itoa(r.end)
  }

  function RangesText(rs: seq<Range>): (ts: seq<string>)
    ensures |ts| == |rs|
  {
    if |rs| == 0 then [] else [RangeText(rs[0])] + RangesText(rs[1..])
  }

  predicate Writable(r: Range) {
    0 <= r.start && 0 <= r.end && InIntRange(r.start) && InIntRange(r.end)
  }

  lemma NoComma(r: Range)
    requires Writable(r)
    ensures ',' !in RangeText(r)
  {
    var a, b := Itoa(r.start), Itoa(r.end);
    var t := RangeText(r);
    forall i | 0 <= i < |t|
      ensures t[i] != ','
    {
      if i < |a| {
        assert t[i] == a[i] && IsDigit(a[i]);
      } else if i > |a| {
        assert t[i] == b[i - |a| - 1] && IsDigit(b[i - |a| - 1]);
      }
    }
  }

  /** A range of non-negative numbers reads back from its text. */
  lemma ParseRangeText(r: Range)
    requires Writable(r)
    ensures ParseRange(RangeText(r)) == Some(r)
  {
    var a, b := Itoa(r.start), Itoa(r.end);
    ItoaLacks(r.start, '-');
    ItoaLacks(r.end, '-');
    assert Join([a, b], '-') == RangeText(r);
    SplitJoin([a, b], '-');
    AtoiItoa(r.start);
    AtoiItoa(r.end);
  }

  /** A line written from non-negative ranges reads back as those ranges. */
  lemma {:induction false} ParseLineText(rs: seq<Range>)
    requires |rs| >= 1 && forall i :: 0 <= i < |rs| ==> Writable(rs[i])
    ensures ParseTokens(Split(Join(RangesText(rs), ','), ',')) == Some(rs)
  {
    var ts := RangesText(rs);
    forall i | 0 <= i < |rs|
      ensures ts[i] == RangeText(rs[i]) && ',' !in ts[i]
    {
      RangesTextAt(rs, i);
      NoComma(rs[i]);
    }
    SplitJoin(ts, ',');
    ParseTokensText(rs);
  }

  lemma {:induction false} RangesTextAt(rs: seq<Range>, i: int)
    requires 0 <= i < |rs|
    ensures RangesText(rs)[i] == RangeText(rs[i])
    decreases |rs|
  {
    if i > 0 {
      RangesTextAt(rs[1..], i - 1);
    }
  }

  lemma {:induction false} ParseTokensText(rs: seq<Range>)
    requires forall i :: 0 <= i < |rs| ==> Writable(rs[i])
    ensures ParseTokens(RangesText(rs)) == Some(rs)
    decreases |rs|
  {
    if |rs| > 0 {
      ParseRangeText(rs[0]);
      ParseTokensText(rs[1..]);
      assert RangesText(rs)[1..] == RangesText(rs[1..]);
      assert [rs[0]] + rs[1..] == rs;
    }
  }

  // ---- the sums ----

  /** The sum of the repeated numbers in `a..b`. */
  ghost function RepeatSumIn(a: int, b: int): int
    decreases b - a
  {
    if b < a then 0 else RepeatSumIn(a, b - 1) + (if IsRepetition(Itoa(b)) then b else 0)
  }

  ghost function RepeatSum(ranges: seq<Range>): int {
    if |ranges| == 0 then 0
    else RepeatSum(ranges[..|ranges| - 1]) + RepeatSumIn(ranges[|ranges| - 1].start, ranges[|ranges| - 1].end)
  }

  /** The loop both parts run over the parsed ranges. */
  method SumRepeats(ranges: seq<Range>) returns (result: int)
    ensures result == RepeatSum(ranges)
  {
    result := 0;
    var i := 0;
    while i < |ranges|
      invariant 0 <= i <= |ranges|
      invariant result == RepeatSum(ranges[..i])
    {
      var r := ranges[i];
      var curr := r.start;
      while curr <= r.end
        invariant r.start <= curr && (curr <= r.end + 1 || curr == r.start)
        invariant result == RepeatSum(ranges[..i]) + RepeatSumIn(r.start, curr - 1)
        decreases r.end - curr
      {
        var rep := DetectRepeat(curr);
        if rep {
          result := result + curr;
        }
        curr := curr + 1;
      }
      assert ranges[..i + 1][..i] == ranges[..i];
      i := i + 1;
    }
    assert ranges[..i] == ranges;
  }

  /** `part1`: `None` where the Go program would panic while parsing. */
  method Part1(lines: seq<string>) returns (result: Option<int>)
    ensures result.Some? <==> ParseInput(lines).Some?
    ensures result.Some? ==> result.value == RepeatSum(ParseInput(lines).value)
  {
    var ranges := ParseInput(lines);
    if ranges.None? {
      return None;
    }
    var sum := SumRepeats(ranges.value);
    return Some(sum);
  }

  /** `part2` runs the very same loop as `part1`. */
  method Part2(lines: seq<string>) returns (result: Option<int>)
    ensures result.Some? <==> ParseInput(lines).Some?
    ensures result.Some? ==> result.value == RepeatSum(ParseInput(lines).value)
  {
    result := Part1(lines);
  }
}
