/** Day 10, the input: one machine per line, written
    "[.##.] (3) (1,3) (2) {3,5,4,7}" — the wanted indicator lights, the
    buttons (each the list of counters it touches) and the joltage targets.

    Go slices the line by byte positions; the model reads characters. */
module Day10Machines {
  import opened Wrappers
  import opened Strings

  /** `Machine`: lights as +1 (on) or -1 (off), button index lists and
      joltage targets. */
  datatype Machine = Machine(indicators: seq<int>, ops: seq<seq<int>>, joltage: seq<int>)

  /** '#' is a lit light, anything else an unlit one. */
  function Lights(s: string): (r: seq<int>)
    ensures |r| == |s|
    ensures forall i :: 0 <= i < |s| ==> (r[i] == 1 <==> s[i] == '#') && (r[i] == -1 <==> s[i] != '#')
  {
    seq(|s|, i requires 0 <= i < |s| => if s[i] == '#' then 1 else -1)
  }

  /** One button "(a,b,...)": Go strips the first and last character and
      converts each comma-separated field, panicking on a bad one or on a
      token of one character. */
  function ParseOp(token: string): Option<seq<int>> {
    if |token| < 2 then None else ParseNumbers(token[1..|token| - 1])
  }

  /** The space-separated tokens of the button section; empty tokens are
      skipped. */
  function ParseOps(tokens: seq<string>): (r: Option<seq<seq<int>>>)
    ensures r.Some? ==> |r.value| <= |tokens|
  {
    if |tokens| == 0 then Some([])
    else
      var rest :- ParseOps(tokens[1..]);
      if tokens[0] == "" then Some(rest)
      else
        var op :- ParseOp(tokens[0]);
        Some([op] + rest)
  }

  /** The three sections of a line: the lights lie between the first
      character and the last ']', the buttons between that ']' and the first
      '{', the joltage between that '{' and the last character. Each slice
      Go takes with its bounds out of order panics, which gives `None`. */
  function Sections(line: string): Option<(string, string, string)> {
    var e := LastIndex(line, ']');
    if e < 1 then None
    else
      var js := Index(line, '{');
      if js < e + 1 || js + 1 > |line| - 1 then None
      else Some((line[1..e], line[e + 1..js], line[js + 1..|line| - 1]))
  }

  /** A comma-separated list of numbers; a bad number panics in Go. */
  function ParseNumbers(s: string): Option<seq<int>> {
    AllSome(Atoi, Split(s, ','))
  }

  /** The machine built from a line's three sections. */
  function ParseSections(lights: string, ops: string, jolts: string): Option<Machine> {
    var buttons :- ParseOps(Split(ops, ' '));
    var joltage :- ParseNumbers(jolts);
    Some(Machine(Lights(lights), buttons, joltage))
  }

  /** `makeMachines` for one line. */
  function ParseMachine(line: string): Option<Machine> {
    var sections :- Sections(line);
    ParseSections(sections.0, sections.1, sections.2)
  }

  function ParseMachines(lines: seq<string>): Option<seq<Machine>> {
    AllSome(ParseMachine, lines)
  }

  /** A sequence of presses: each entry is a button's index. */
  predicate Choices(ops: seq<seq<int>>, choice: seq<int>) {
    forall k :: 0 <= k < |choice| ==> 0 <= choice[k] < |ops|
  }

  // ---- the text of a machine ----

  function LightsText(indicators: seq<int>): (s: string)
    ensures |s| == |indicators|
  {
    seq(|indicators|, i requires 0 <= i < |indicators| => if indicators[i] == 1 then '#' else '.')
  }

  /** The numbers separated by commas. */
  function NumsText(ns: seq<int>): string {
    if |ns| == 0 then "" else Join(Itoas(ns), ',')
  }

  function OpText(op: seq<int>): string {
    "(" + NumsText(op) + ")"
  }

  function OpTexts(ops: seq<seq<int>>): (r: seq<string>)
    ensures |r| == |ops| && forall k :: 0 <= k < |ops| ==> r[k] == OpText(ops[k])
  {
    seq(|ops|, k requires 0 <= k < |ops| => OpText(ops[k]))
  }

  /** The button section: a space, then each button followed by a space. */
  function OpsSection(ops: seq<seq<int>>): string {
    Join([""] + OpTexts(ops) + [""], ' ')
  }

  function MachineText(m: Machine): string {
    "[" + LightsText(m.indicators) + "]" + OpsSection(m.ops) + "{" + NumsText(m.joltage) + "}"
  }

  /** A machine the text form can carry: lights are +1 or -1, and every
      number list is non-empty and holds numbers Go's `int` can hold. */
  predicate Printable(m: Machine) {
    && (forall i :: 0 <= i < |m.indicators| ==> m.indicators[i] == 1 || m.indicators[i] == -1)
    && (forall k :: 0 <= k < |m.ops| ==> Numbers(m.ops[k]))
    && Numbers(m.joltage)
  }

  // ---- reading the text back ----

  /** A number list's text holds none of the punctuation around it. */
  lemma NumsTextLacks(ns: seq<int>, c: char)
    requires !IsDigit(c) && c != '-' && c != ','
    ensures c !in NumsText(ns)
  {
    if |ns| > 0 {
      forall k | 0 <= k < |ns|
        ensures c !in Itoas(ns)[k]
      {
        ItoaLacks(ns[k], c);
      }
      JoinLacks(Itoas(ns), ',', c);
    }
  }

  lemma ParseNums(ns: seq<int>)
    requires Numbers(ns)
    ensures ParseNumbers(NumsText(ns)) == Some(ns)
  {
    ParseItoas(ns, ',');
  }

  lemma ParseOpText(op: seq<int>)
    requires Numbers(op)
    ensures ParseOp(OpText(op)) == Some(op)
  {
    var t := OpText(op);
    assert t[1..|t| - 1] == NumsText(op);
    ParseNums(op);
  }

  lemma OpTextLacks(op: seq<int>, c: char)
    requires !IsDigit(c) && c != '-' && c != ',' && c != '(' && c != ')'
    ensures c !in OpText(op)
  {
    NumsTextLacks(op, c);
  }

  lemma OpsSectionLacks(ops: seq<seq<int>>, c: char)
    requires !IsDigit(c) && c != '-' && c != ',' && c != '(' && c != ')' && c != ' '
    ensures c !in OpsSection(ops)
  {
    var parts := [""] + OpTexts(ops) + [""];
    forall k | 0 <= k < |parts|
      ensures c !in parts[k]
    {
      if 0 < k < |parts| - 1 {
        OpTextLacks(ops[k - 1], c);
      }
    }
    JoinLacks(parts, ' ', c);
  }

  lemma {:induction false} ParseOpTexts(ops: seq<seq<int>>)
    requires forall k :: 0 <= k < |ops| ==> Numbers(ops[k])
    ensures ParseOps(OpTexts(ops) + [""]) == Some(ops)
    decreases |ops|
  {
    if |ops| == 0 {
      assert OpTexts(ops) + [""] == [""];
    } else {
      var tokens := OpTexts(ops) + [""];
      assert tokens[1..] == OpTexts(ops[1..]) + [""];
      ParseOpTexts(ops[1..]);
      ParseOpText(ops[0]);
      assert tokens[0] == OpText(ops[0]) != "";
      assert [ops[0]] + ops[1..] == ops;
    }
  }

  lemma ParseOpsSection(ops: seq<seq<int>>)
    requires forall k :: 0 <= k < |ops| ==> Numbers(ops[k])
    ensures ParseOps(Split(OpsSection(ops), ' ')) == Some(ops)
  {
    var tail := OpTexts(ops) + [""];
    var parts := [""] + OpTexts(ops) + [""];
    assert Split(OpsSection(ops), ' ') == parts by {
      forall k | 0 <= k < |parts|
        ensures ' ' !in parts[k]
      {
        if 0 < k < |parts| - 1 {
          OpTextLacks(ops[k - 1], ' ');
        }
      }
      SplitJoin(parts, ' ');
    }
    assert parts[0] == "" && parts[1..] == tail;
    assert ParseOps(tail) == Some(ops) by {
      ParseOpTexts(ops);
    }
  }

  /** Where `Sections` cuts a line built from its three parts. */
  lemma SectionsOf(lights: string, ops: string, jolts: string)
    requires '{' !in lights && '{' !in ops && ']' !in ops && ']' !in jolts
    ensures var r := Sections("[" + lights + "]" + ops + "{" + jolts + "}");
      r.Some? && r.value.0 == lights && r.value.1 == ops && r.value.2 == jolts
  {
    var line := "[" + lights + "]" + ops + "{" + jolts + "}";
    var e := |lights| + 1;
    var js := e + 1 + |ops|;
    assert line[e + 1..] == ops + "{" + jolts + "}";
    LastIndexAt(line, ']', e);
    assert line[..js] == "[" + lights + "]" + ops;
    IndexAt(line, '{', js);
    assert line[1..e] == lights;
    assert line[e + 1..js] == ops;
    assert line[js + 1..|line| - 1] == jolts;
  }

  /** Reading a machine's text gives the machine back. */
  lemma ParseMachineText(m: Machine)
    requires Printable(m)
    ensures ParseMachine(MachineText(m)) == Some(m)
  {
    var lights, ops, jolts := LightsText(m.indicators), OpsSection(m.ops), NumsText(m.joltage);
    // The last ']' closes the lights, and the first '{' opens the joltage.
    OpsSectionLacks(m.ops, ']');
    OpsSectionLacks(m.ops, '{');
    NumsTextLacks(m.joltage, ']');
    assert '{' !in lights;
    assert MachineText(m) == "[" + lights + "]" + ops + "{" + jolts + "}";
    SectionsOf(lights, ops, jolts);
    assert Lights(lights) == m.indicators;
    ParseOpsSection(m.ops);
    ParseNums(m.joltage);
  }
}
