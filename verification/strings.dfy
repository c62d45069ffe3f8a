/** The parts of Go's `strings` and `strconv` packages that the puzzle
    solvers rely on. Strings are sequences of characters and every character
    stands for one byte: the solvers index strings by byte and their inputs
    are ASCII. */
module Strings {
  import opened Wrappers

  predicate IsDigit(c: char) {
    '0' <= c <= '9'
  }

  function DigitValue(c: char): (d: nat)
    requires IsDigit(c)
    ensures d < 10
  {
    (c as int) - ('0' as int)
  }

  function DigitChar(d: nat): (c: char)
    requires d < 10
    ensures IsDigit(c) && DigitValue(c) == d
  {
    (('0' as int) + d) as char
  }

  predicate AllDigits(s: string) {
    forall i :: 0 <= i < |s| ==> IsDigit(s[i])
  }

  /** The value of a string of decimal digits, most significant first. */
  function DigitsValue(s: string): nat
    requires AllDigits(s)
  {
    if |s| == 0 then 0 else DigitsValue(s[..|s| - 1]) * 10 + DigitValue(s[|s| - 1])
  }

  /** The range of Go's 64-bit `int`. */
  const MinInt: int := -0x8000_0000_0000_0000
  const MaxInt: int := 0x7fff_ffff_ffff_ffff

  predicate InIntRange(n: int) {
    MinInt <= n <= MaxInt
  }

  /** `strconv.Atoi`: an optional sign, then at least one decimal digit, and
      the value must fit Go's `int`. Anything else is an error (`None`); the
      solvers' `MustConvAtoi` turns that error into a panic. */
  function Atoi(s: string): (r: Option<int>)
    ensures r.Some? ==> InIntRange(r.value)
    ensures r.Some? ==> |s| > 0
  {
    var signed := |s| > 0 && (s[0] == '-' || s[0] == '+');
    var body := if signed then s[1..] else s;
    if |body| == 0 || !AllDigits(body) then None
    else
      var v: int := if |s| > 0 && s[0] == '-' then 0 - DigitsValue(body) as int else DigitsValue(body);
      if InIntRange(v) then Some(v) else None
  }

  /** Decimal digits of `n` without leading zeros. */
  function NatToString(n: nat): (s: string)
    ensures |s| > 0 && AllDigits(s)
  {
    if n < 10 then [DigitChar(n)] else NatToString(n / 10) + [DigitChar(n % 10)]
  }

  /** `strconv.Itoa`. */
  function Itoa(n: int): string {
    if n < 0 then "-" + NatToString(-n) else NatToString(n)
  }

  lemma {:induction false} NatToStringValue(n: nat)
    ensures DigitsValue(NatToString(n)) == n
  {
    if n >= 10 {
      var s := NatToString(n);
      assert s[..|s| - 1] == NatToString(n / 10);
      NatToStringValue(n / 10);
    }
  }

  /** A decimal string has no leading zero unless it is "0". */
  lemma {:induction false} NatToStringNoLeadingZero(n: nat)
    ensures NatToString(n)[0] == '0' <==> n == 0
  {
    if n >= 10 {
      NatToStringNoLeadingZero(n / 10);
    }
  }

  /** `Atoi` reads back what `Itoa` writes. */
  lemma AtoiItoa(n: int)
    requires InIntRange(n)
    ensures Atoi(Itoa(n)) == Some(n)
  {
    if n < 0 {
      NatToStringValue(-n);
      AtoiMinus(NatToString(-n));
    } else {
      NatToStringValue(n);
      AtoiUnsigned(NatToString(n));
    }
  }

  lemma AtoiUnsigned(d: string)
    requires |d| > 0 && AllDigits(d) && InIntRange(DigitsValue(d))
    ensures Atoi(d) == Some(DigitsValue(d) as int)
  {
    assert IsDigit(d[0]);
  }

  lemma AtoiMinus(d: string)
    requires |d| > 0 && AllDigits(d) && InIntRange(0 - DigitsValue(d))
    ensures Atoi("-" + d) == Some(0 - DigitsValue(d))
  {
    assert ("-" + d)[1..] == d;
  }

  /** The text of a number starts with a digit or a minus sign and ends
      with a digit. */
  lemma ItoaEnds(n: int)
    ensures var s := Itoa(n);
      |s| > 0 && (IsDigit(s[0]) || s[0] == '-') && IsDigit(s[|s| - 1])
  {
    var digits := if n < 0 then NatToString(-n) else NatToString(n);
    assert IsDigit(digits[0]) && IsDigit(digits[|digits| - 1]);
  }

  /** Each number's text. */
  function Itoas(ns: seq<int>): (r: seq<string>)
    ensures |r| == |ns| && forall k :: 0 <= k < |ns| ==> r[k] == Itoa(ns[k])
  {
    seq(|ns|, k requires 0 <= k < |ns| => Itoa(ns[k]))
  }

  /** A list of numbers a separated text can carry: at least one, and each
      fits Go's `int`. */
  predicate Numbers(ns: seq<int>) {
    |ns| >= 1 && forall k :: 0 <= k < |ns| ==> InIntRange(ns[k])
  }

  /** Reading a separated list of numbers back, for a separator no number's
      text holds. */
  lemma ParseItoas(ns: seq<int>, sep: char)
    requires Numbers(ns) && !IsDigit(sep) && sep != '-'
    ensures AllSome(Atoi, Split(Join(Itoas(ns), sep), sep)) == Some(ns)
  {
    var texts := Itoas(ns);
    assert Split(Join(texts, sep), sep) == texts by {
      forall k | 0 <= k < |texts|
        ensures sep !in texts[k]
      {
        ItoaLacks(ns[k], sep);
      }
      SplitJoin(texts, sep);
    }
    forall k | 0 <= k < |texts|
      ensures Atoi(texts[k]) == Some(ns[k])
    {
      AtoiItoa(ns[k]);
    }
    AllSomeEach(Atoi, texts, ns);
  }

  /** The text of a number holds only digits and, when it is negative, a
      leading minus sign, so no other separator. */
  lemma ItoaLacks(n: int, c: char)
    requires !IsDigit(c) && (n < 0 ==> c != '-')
    ensures c !in Itoa(n)
  {
    var s := Itoa(n);
    var digits := NatToString(if n < 0 then -n else n);
    forall i | 0 <= i < |s|
      ensures s[i] != c
    {
      if n < 0 && i > 0 {
        assert s[i] == digits[i - 1];
        assert IsDigit(digits[i - 1]);
      } else if n >= 0 {
        assert IsDigit(digits[i]);
      }
    }
  }

  /** `strings.Split(s, string(sep))`. */
  function Split(s: string, sep: char): (parts: seq<string>)
    ensures |parts| >= 1
    ensures forall i :: 0 <= i < |parts| ==> sep !in parts[i]
    ensures Join(parts, sep) == s
  {
    if |s| == 0 then [""]
    else
      var rest := Split(s[1..], sep);
      if s[0] == sep then [""] + rest
      else [[s[0]] + rest[0]] + rest[1..]
  }

  /** `strings.Join(parts, string(sep))`, the inverse of `Split`. */
  function Join(parts: seq<string>, sep: char): string
    requires |parts| >= 1
  {
    if |parts| == 1 then parts[0] else parts[0] + [sep] + Join(parts[1..], sep)
  }

  /** Splitting a string that starts with a separator-free `x` puts `x` in
      front of the first piece. */
  lemma {:induction false} SplitPrefix(x: string, y: string, sep: char)
    requires sep !in x
    ensures var rest := Split(y, sep);
            Split(x + y, sep) == [x + rest[0]] + rest[1..]
    decreases |x|
  {
    var rest := Split(y, sep);
    if |x| == 0 {
      assert x + y == y;
      assert x + rest[0] == rest[0];
      assert [rest[0]] + rest[1..] == rest;
    } else {
      var xy := x + y;
      assert xy[0] == x[0] && x[0] != sep;
      assert xy[1..] == x[1..] + y;
      var inner := Split(xy[1..], sep);
      assert inner[0] == x[1..] + rest[0] && inner[1..] == rest[1..] by {
        SplitPrefix(x[1..], y, sep);
      }
      SplitFront(xy, sep);
      assert [x[0]] + (x[1..] + rest[0]) == x + rest[0];
    }
  }

  /** A string that does not start with the separator adds its first
      character to the first piece of the rest. */
  lemma SplitFront(s: string, sep: char)
    requires |s| > 0 && s[0] != sep
    ensures Split(s, sep) == [[s[0]] + Split(s[1..], sep)[0]] + Split(s[1..], sep)[1..]
  {
  }

  /** `Split` undoes `Join` when no part holds the separator. */
  lemma {:induction false} SplitJoin(parts: seq<string>, sep: char)
    requires |parts| >= 1 && forall i :: 0 <= i < |parts| ==> sep !in parts[i]
    ensures Split(Join(parts, sep), sep) == parts
    decreases |parts|
  {
    if |parts| == 1 {
      SplitPrefix(parts[0], "", sep);
      assert parts[0] + "" == parts[0];
    } else {
      var tail := Join(parts[1..], sep);
      SplitJoin(parts[1..], sep);
      assert parts[0] + [sep] + tail == parts[0] + ([sep] + tail);
      SplitPrefix(parts[0], [sep] + tail, sep);
      assert ([sep] + tail)[1..] == tail;
      assert Split([sep] + tail, sep) == [""] + parts[1..];
      assert parts[0] + "" == parts[0];
      assert [parts[0]] + parts[1..] == parts;
    }
  }

  /** The pieces of `Split` are exactly the separator-free stretches of `s`:
      their number is one more than the number of separators. */
  lemma {:induction false} SplitCount(s: string, sep: char)
    ensures |Split(s, sep)| == 1 + multiset(s)[sep]
  {
    if |s| > 0 {
      SplitCount(s[1..], sep);
      var rest := Split(s[1..], sep);
      assert |Split(s, sep)| == |rest| + (if s[0] == sep then 1 else 0);
      CountFirst(s, sep);
    }
  }

  /** Occurrences of `c` in `s`: those in its head and those in its tail. */
  lemma CountFirst(s: string, c: char)
    requires |s| > 0
    ensures multiset(s)[c] == multiset(s[1..])[c] + (if s[0] == c then 1 else 0)
  {
    assert s == [s[0]] + s[1..];
    assert multiset(s) == multiset{s[0]} + multiset(s[1..]);
  }

  /** `strings.SplitN(s, string(sep), 2)`: at most two parts, split at the
      first separator. */
  function SplitFirst(s: string, sep: char): (parts: seq<string>)
    ensures 1 <= |parts| <= 2
    ensures |parts| == 1 <==> sep !in s
    ensures |parts| == 1 ==> parts[0] == s
    ensures |parts| == 2 ==> sep !in parts[0] && parts[0] + [sep] + parts[1] == s
  {
    var i := Index(s, sep);
    if i < 0 then [s] else [s[..i], s[i + 1..]]
  }

  /** `strings.IndexByte`: the first position of `c`, or -1. */
  function Index(s: string, c: char): (i: int)
    ensures -1 <= i < |s|
    ensures i == -1 <==> c !in s
    ensures i >= 0 ==> s[i] == c && c !in s[..i]
  {
    if |s| == 0 then -1
    else if s[0] == c then 0
    else
      var j := Index(s[1..], c);
      assert s[1..][..if j < 0 then 0 else j] == s[1..if j < 0 then 1 else j + 1];
      if j < 0 then -1 else j + 1
  }

  /** `strings.LastIndexByte`: the last position of `c`, or -1. */
  function LastIndex(s: string, c: char): (i: int)
    ensures -1 <= i < |s|
    ensures i == -1 <==> c !in s
    ensures i >= 0 ==> s[i] == c && c !in s[i + 1..]
  {
    if |s| == 0 then -1
    else if s[|s| - 1] == c then |s| - 1
    else
      assert s == s[..|s| - 1] + [s[|s| - 1]];
      LastIndex(s[..|s| - 1], c)
  }

  /** A text made of a separator-free head, the separator and a tail splits
      into exactly that head and tail. */
  lemma SplitFirstAt(s: string, head: string, tail: string, sep: char)
    requires sep !in head && s == head + [sep] + tail
    ensures SplitFirst(s, sep) == [head, tail]
  {
    assert s[..|head|] == head;
    IndexAt(s, sep, |head|);
    assert s[|head| + 1..] == tail;
  }

  lemma IndexAt(s: string, c: char, k: nat)
    requires k < |s| && s[k] == c && c !in s[..k]
    ensures Index(s, c) == k
  {
  }

  /** The last occurrence of `c` is the one with none after it. */
  lemma LastIndexAt(s: string, c: char, k: nat)
    requires k < |s| && s[k] == c && c !in s[k + 1..]
    ensures LastIndex(s, c) == k
  {
  }

  /** Two pieces joined. */
  lemma JoinTwo(a: string, b: string, sep: char)
    ensures Join([a, b], sep) == a + [sep] + b
  {
    assert [a, b][1..] == [b];
  }

  /** A joined text of non-empty pieces starts where its first piece starts
      and ends where its last piece ends. */
  lemma {:induction false} JoinEnds(parts: seq<string>, sep: char)
    requires |parts| >= 1 && forall k :: 0 <= k < |parts| ==> |parts[k]| > 0
    ensures var s := Join(parts, sep);
      |s| > 0 && s[0] == parts[0][0] && s[|s| - 1] == parts[|parts| - 1][|parts[|parts| - 1]| - 1]
    decreases |parts|
  {
    if |parts| > 1 {
      JoinEnds(parts[1..], sep);
    }
  }

  /** Joining pieces that lack `c` with another separator gives a text that
      lacks `c`. */
  lemma {:induction false} JoinLacks(parts: seq<string>, sep: char, c: char)
    requires |parts| >= 1 && c != sep && forall i :: 0 <= i < |parts| ==> c !in parts[i]
    ensures c !in Join(parts, sep)
    decreases |parts|
  {
    if |parts| > 1 {
      JoinLacks(parts[1..], sep, c);
      assert c !in parts[0];
    }
  }

  /** Go's `unicode.IsSpace`, which `strings.TrimSpace` uses. */
  predicate IsSpace(c: char) {
    c == ' ' || c == '\t' || c == '\n' || c == '\r' || c == '\U{0B}' || c == '\U{0C}'
    || c == '\U{85}' || c == '\U{A0}' || c == '\U{1680}'
    || ('\U{2000}' <= c <= '\U{200A}')
    || c == '\U{2028}' || c == '\U{2029}' || c == '\U{202F}' || c == '\U{205F}' || c == '\U{3000}'
  }

  /** The number of white-space characters that start `s`. */
  function LeadingSpace(s: string): (k: nat)
    ensures k <= |s|
    ensures k < |s| ==> !IsSpace(s[k])
  {
    if |s| == 0 || !IsSpace(s[0]) then 0 else 1 + LeadingSpace(s[1..])
  }

  /** The number of white-space characters that end `s`. */
  function TrailingSpace(s: string): (k: nat)
    ensures k <= |s|
    ensures k < |s| ==> !IsSpace(s[|s| - 1 - k])
  {
    if |s| == 0 || !IsSpace(s[|s| - 1]) then 0 else 1 + TrailingSpace(s[..|s| - 1])
  }

  /** `strings.TrimSpace`: `s` without its leading and trailing white space. */
  function TrimSpace(s: string): (r: string)
    ensures |r| <= |s|
    ensures |r| > 0 ==> !IsSpace(r[0]) && !IsSpace(r[|r| - 1])
    ensures |s| > 0 && !IsSpace(s[0]) && !IsSpace(s[|s| - 1]) ==> r == s
  {
    var a := LeadingSpace(s);
    var b := TrailingSpace(s[a..]);
    assert s[a..][..|s| - a - b] == s[a..a + (|s| - a - b)];
    s[a..][..|s| - a - b]
  }

  /** Every character `LeadingSpace` counts is white space. */
  lemma {:induction false} LeadingSpaceAll(s: string)
    ensures forall i :: 0 <= i < LeadingSpace(s) ==> IsSpace(s[i])
  {
    if |s| > 0 && IsSpace(s[0]) {
      LeadingSpaceAll(s[1..]);
      forall i | 0 < i < LeadingSpace(s)
        ensures IsSpace(s[i])
      {
        assert s[i] == s[1..][i - 1];
      }
    }
  }

  /** Every character `TrailingSpace` counts is white space. */
  lemma {:induction false} TrailingSpaceAll(s: string)
    ensures forall i :: |s| - TrailingSpace(s) <= i < |s| ==> IsSpace(s[i])
  {
    if |s| > 0 && IsSpace(s[|s| - 1]) {
      TrailingSpaceAll(s[..|s| - 1]);
    }
  }

  /** A line trims to nothing exactly when it is all white space. */
  lemma TrimSpaceEmpty(s: string)
    ensures |TrimSpace(s)| == 0 <==> forall i :: 0 <= i < |s| ==> IsSpace(s[i])
  {
    var a := LeadingSpace(s);
    LeadingSpaceAll(s);
    if a < |s| {
      var b := TrailingSpace(s[a..]);
      assert !IsSpace(s[a]);
      assert b < |s[a..]| by {
        TrailingSpaceAll(s[a..]);
        assert !IsSpace(s[a..][0]);
      }
    }
  }

  /** One blank in front of a text that neither starts nor ends with white
      space is trimmed away. */
  lemma TrimSpaceAfterBlank(s: string)
    requires |s| > 0 && !IsSpace(s[0]) && !IsSpace(s[|s| - 1])
    ensures TrimSpace(" " + s) == s
  {
    var t := " " + s;
    assert t[1..] == s;
    assert LeadingSpace(t) == 1;
    assert t[1..][..|t| - 1] == s;
  }

  /** `strings.TrimSuffix`. */
  function TrimSuffix(s: string, suffix: string): (r: string)
    ensures r + suffix == s || r == s
    ensures |suffix| <= |s| && s[|s| - |suffix|..] == suffix ==> r + suffix == s
  {
    if |suffix| <= |s| && s[|s| - |suffix|..] == suffix then s[..|s| - |suffix|] else s
  }
}
