/** Day 10, part 1: every light starts off, and each button toggles the
    lights it lists. The fewest presses that light exactly the wanted
    pattern are found by a breadth-first search over light vectors, and
    part 1 adds them up over the machines.

    A light vector holds +1 for a lit light and -1 for an unlit one. */
module Day10Lights {
  import opened Wrappers
  import opened Ints
  import opened Walks
  import opened BreadthFirst
  import opened Day10Machines

  /** Every entry is +1 or -1. */
  predicate IsSign(v: seq<int>) {
    forall i :: 0 <= i < |v| ==> v[i] == 1 || v[i] == -1
  }

  /** `initIndicators`: `num` lights, all off. */
  method InitIndicators(num: nat) returns (v: seq<int>)
    ensures |v| == num && forall i :: 0 <= i < num ==> v[i] == -1
  {
    v := [];
    var i := 0;
    while i < num
      invariant i <= num && |v| == i
      invariant forall k :: 0 <= k < i ==> v[k] == -1
    {
      v := v + [-1];
      i := i + 1;
    }
  }

  /** All `n` lights off. */
  function AllOff(n: nat): seq<int> {
    seq(n, _ => -1)
  }

  // ---- serialize ----

  /** `serialize`: '0' for a negative entry, '1' otherwise. Go keys the
      press counts by this text. */
  function Serialize(v: seq<int>): string {
    seq(|v|, i requires 0 <= i < |v| => if v[i] < 0 then '0' else '1')
  }

  function Deserialize(s: string): seq<int> {
    seq(|s|, i requires 0 <= i < |s| => if s[i] == '0' then -1 else 1)
  }

  predicate IsBits(s: string) {
    forall i :: 0 <= i < |s| ==> s[i] == '0' || s[i] == '1'
  }

  /** A light vector is read back from its text. */
  lemma DeserializeSerialize(v: seq<int>)
    requires IsSign(v)
    ensures IsBits(Serialize(v)) && Deserialize(Serialize(v)) == v
  {
  }

  lemma SerializeDeserialize(s: string)
    requires IsBits(s)
    ensures IsSign(Deserialize(s)) && Serialize(Deserialize(s)) == s
  {
  }

  /** Two light vectors share a key only when they are equal, so keying the
      press counts by text is keying them by vector. */
  lemma SerializeInjective(u: seq<int>, v: seq<int>)
    requires IsSign(u) && IsSign(v)
    ensures Serialize(u) == Serialize(v) <==> u == v
  {
    if Serialize(u) == Serialize(v) {
      DeserializeSerialize(u);
      DeserializeSerialize(v);
    }
  }

  /** The start vector is all zeros as text. */
  lemma SerializeAllOff(n: nat)
    ensures Serialize(AllOff(n)) == seq(n, _ => '0')
  {
  }

  // ---- pressing buttons ----

  /** `newIndicators[idx] *= -1`; Go panics on an index outside the
      vector, which `FewestPresses` rules out before pressing. */
  function Flip(v: seq<int>, i: int): (r: seq<int>)
    ensures |r| == |v|
  {
    if 0 <= i < |v| then v[i := -v[i]] else v
  }

  /** One press: each listed light toggles, once per listing. */
  function Press(v: seq<int>, op: seq<int>): (r: seq<int>)
    ensures |r| == |v|
    decreases |op|
  {
    if |op| == 0 then v else Press(Flip(v, op[0]), op[1..])
  }

  /** A button whose indexes all name a light. */
  predicate ValidOp(n: int, op: seq<int>) {
    forall k :: 0 <= k < |op| ==> 0 <= op[k] < n
  }

  /** A light ends up toggled exactly when the button lists it an odd
      number of times. */
  lemma {:induction false} PressParity(v: seq<int>, op: seq<int>, i: int)
    requires 0 <= i < |v|
    ensures Press(v, op)[i] == if multiset(op)[i] % 2 == 1 then -v[i] else v[i]
    decreases |op|
  {
    if |op| > 0 {
      PressParity(Flip(v, op[0]), op[1..], i);
      assert op == [op[0]] + op[1..];
      assert multiset(op)[i] == multiset([op[0]])[i] + multiset(op[1..])[i];
    }
  }

  lemma PressSign(v: seq<int>, op: seq<int>)
    requires IsSign(v)
    ensures IsSign(Press(v, op))
  {
    forall i | 0 <= i < |v|
      ensures Press(v, op)[i] == 1 || Press(v, op)[i] == -1
    {
      PressParity(v, op, i);
    }
  }

  /** Pressing a button twice changes nothing. */
  lemma PressTwice(v: seq<int>, op: seq<int>)
    ensures Press(Press(v, op), op) == v
  {
    forall i | 0 <= i < |v|
      ensures Press(Press(v, op), op)[i] == v[i]
    {
      PressParity(v, op, i);
      PressParity(Press(v, op), op, i);
    }
  }

  /** The order of two presses does not matter. */
  lemma PressCommute(v: seq<int>, a: seq<int>, b: seq<int>)
    ensures Press(Press(v, a), b) == Press(Press(v, b), a)
  {
    forall i | 0 <= i < |v|
      ensures Press(Press(v, a), b)[i] == Press(Press(v, b), a)[i]
    {
      PressParity(v, a, i);
      PressParity(Press(v, a), b, i);
      PressParity(v, b, i);
      PressParity(Press(v, b), a, i);
    }
  }

  // ---- the search space ----

  /** The vectors one press away, one per button in order. */
  function Successors(ops: seq<seq<int>>, v: seq<int>): (r: seq<seq<int>>)
    ensures |r| == |ops| && forall k :: 0 <= k < |ops| ==> r[k] == Press(v, ops[k])
  {
    seq(|ops|, k requires 0 <= k < |ops| => Press(v, ops[k]))
  }

  /** Every light vector of length `n`. */
  ghost function SignVectors(n: nat): set<seq<int>> {
    if n == 0 then {[]}
    else (set v | v in SignVectors(n - 1) :: [1] + v) + (set v | v in SignVectors(n - 1) :: [-1] + v)
  }

  lemma {:induction false} SignVectorsMembers(n: nat, v: seq<int>)
    ensures v in SignVectors(n) <==> |v| == n && IsSign(v)
    decreases n
  {
    if n > 0 {
      if |v| == n && IsSign(v) {
        SignVectorsMembers(n - 1, v[1..]);
        assert v == [v[0]] + v[1..];
      }
      if v in SignVectors(n) {
        var u :| u in SignVectors(n - 1) && (v == [1] + u || v == [-1] + u);
        SignVectorsMembers(n - 1, u);
      }
    }
  }

  /** Pressing never leaves the light vectors of the machine's size. */
  lemma SignVectorsClosed(ops: seq<seq<int>>, n: nat)
    ensures Closed(v => Successors(ops, v), SignVectors(n))
  {
    forall c, s | c in SignVectors(n) && s in Successors(ops, c)
      ensures s in SignVectors(n)
    {
      SignVectorsMembers(n, c);
      var k :| 0 <= k < |ops| && s == Press(c, ops[k]);
      PressSign(c, ops[k]);
      SignVectorsMembers(n, s);
    }
  }

  // ---- sequences of presses ----

  /** The vector after pressing the chosen buttons in order. */
  function PressAll(v: seq<int>, ops: seq<seq<int>>, choice: seq<int>): (r: seq<int>)
    requires Choices(ops, choice)
    ensures |r| == |v|
    decreases |choice|
  {
    if |choice| == 0 then v else PressAll(Press(v, ops[choice[0]]), ops, choice[1..])
  }

  /** A walk through the search space is a sequence of presses. */
  lemma {:induction false} WalkPresses(ops: seq<seq<int>>, w: seq<seq<int>>) returns (choice: seq<int>)
    requires IsWalk(v => Successors(ops, v), w)
    ensures Choices(ops, choice) && |choice| == |w| - 1
    ensures PressAll(w[0], ops, choice) == Last(w)
    decreases |w|
  {
    if |w| == 1 {
      choice := [];
    } else {
      assert IsWalk(v => Successors(ops, v), w[1..]);
      var rest := WalkPresses(ops, w[1..]);
      assert Step(v => Successors(ops, v), w[0], w[1]);
      var k :| 0 <= k < |ops| && w[1] == Press(w[0], ops[k]);
      choice := [k] + rest;
      assert choice[1..] == rest;
    }
  }

  /** A sequence of presses is a walk through the search space. */
  lemma {:induction false} PressesWalk(ops: seq<seq<int>>, v: seq<int>, choice: seq<int>) returns (w: seq<seq<int>>)
    requires Choices(ops, choice)
    ensures IsWalk(u => Successors(ops, u), w) && |w| == |choice| + 1
    ensures w[0] == v && Last(w) == PressAll(v, ops, choice)
    decreases |choice|
  {
    if |choice| == 0 {
      w := [v];
    } else {
      var next := Press(v, ops[choice[0]]);
      var rest := PressesWalk(ops, next, choice[1..]);
      assert Successors(ops, v)[choice[0]] == next;
      w := [v] + rest;
      PrependWalk(u => Successors(ops, u), v, rest);
    }
  }

  // ---- the fewest presses ----

  /** `k` presses light the wanted pattern and no fewer do; or no presses
      do and `k` is 0, as Go leaves the total unchanged when its queue
      runs dry. */
  ghost predicate Fewest(m: Machine, k: int) {
    var start := AllOff(|m.indicators|);
    || (&& (exists choice :: Choices(m.ops, choice) && |choice| == k && PressAll(start, m.ops, choice) == m.indicators)
        && (forall choice :: Choices(m.ops, choice) && PressAll(start, m.ops, choice) == m.indicators ==> k <= |choice|))
    || (&& k == 0
        && forall choice :: Choices(m.ops, choice) ==> PressAll(start, m.ops, choice) != m.indicators)
  }

  /** Only one count is the fewest. */
  lemma FewestUnique(m: Machine, a: int, b: int)
    requires Fewest(m, a) && Fewest(m, b)
    ensures a == b
  {
  }

  /** Go finishes the search without panicking: either the start is
      already the target, or every button names only existing lights (it
      presses every button once it finds the start is not the target, and
      an index outside the lights panics). */
  predicate SearchRuns(m: Machine) {
    || AllOff(|m.indicators|) == m.indicators
    || forall k :: 0 <= k < |m.ops| ==> ValidOp(|m.indicators|, m.ops[k])
  }

  /** The search of one machine in `part1`. */
  method FewestPresses(m: Machine) returns (r: Option<int>)
    ensures r.Some? <==> SearchRuns(m)
    ensures r.Some? ==> Fewest(m, r.value)
  {
    var n := |m.indicators|;
    var start := InitIndicators(n);
    assert start == AllOff(n);
    if start == m.indicators {
      assert PressAll(start, m.ops, []) == m.indicators;
      return Some(0);
    }
    if exists k :: 0 <= k < |m.ops| && !ValidOp(n, m.ops[k]) {
      return None;
    }
    ghost var universe := SignVectors(n);
    SignVectorsClosed(m.ops, n);
    SignVectorsMembers(n, start);
    var next := v => Successors(m.ops, v);
    var res := BFS(next, start, m.indicators, universe);
    if res.found {
      var choice := WalkPresses(m.ops, res.path);
      Shortest(m, res.path, choice);
      return Some(res.cost);
    }
    NeverLit(m);
    return Some(0);
  }

  /** A shortest walk to the target gives the fewest presses. */
  lemma Shortest(m: Machine, path: seq<seq<int>>, choice: seq<int>)
    requires IsWalk(v => Successors(m.ops, v), path) && path[0] == AllOff(|m.indicators|)
    requires Last(path) == m.indicators
    requires forall w :: IsWalk(v => Successors(m.ops, v), w) && w[0] == AllOff(|m.indicators|) && Last(w) == m.indicators ==> |path| <= |w|
    requires Choices(m.ops, choice) && |choice| == |path| - 1
    requires PressAll(path[0], m.ops, choice) == Last(path)
    ensures Fewest(m, |path| - 1)
  {
    var start := AllOff(|m.indicators|);
    forall c | Choices(m.ops, c) && PressAll(start, m.ops, c) == m.indicators
      ensures |path| - 1 <= |c|
    {
      var w := PressesWalk(m.ops, start, c);
    }
  }

  /** When no walk reaches the target, no presses do. */
  lemma NeverLit(m: Machine)
    requires forall w :: IsWalk(v => Successors(m.ops, v), w) && w[0] == AllOff(|m.indicators|) ==> Last(w) != m.indicators
    ensures Fewest(m, 0)
  {
    var start := AllOff(|m.indicators|);
    forall c | Choices(m.ops, c)
      ensures PressAll(start, m.ops, c) != m.indicators
    {
      var w := PressesWalk(m.ops, start, c);
    }
  }

  /** What Go's search of a machine ends with: a count exactly when it
      does not panic, and then the fewest presses. */
  ghost predicate Outcome(m: Machine, r: Option<int>) {
    && (r.Some? <==> SearchRuns(m))
    && (r.Some? ==> Fewest(m, r.value))
  }

  /** The search of every machine in turn. */
  method SearchAll(ms: seq<Machine>) returns (rs: seq<Option<int>>)
    ensures |rs| == |ms| && forall i :: 0 <= i < |ms| ==> Outcome(ms[i], rs[i])
  {
    rs := [];
    for i := 0 to |ms|
      invariant |rs| == i && forall j :: 0 <= j < i ==> Outcome(ms[j], rs[j])
    {
      var r := FewestPresses(ms[i]);
      rs := rs + [r];
    }
  }

  /** Every machine's search runs without panicking. */
  predicate AllRun(ms: seq<Machine>) {
    forall i :: 0 <= i < |ms| ==> SearchRuns(ms[i])
  }

  /** `part1`: the fewest presses of each machine, added up; `None` when a
      line does not parse or a search panics. */
  method Part1(lines: seq<string>) returns (result: Option<int>, presses: seq<int>)
    ensures ParseMachines(lines).None? ==> result.None?
    ensures ParseMachines(lines).Some? ==>
              var ms := ParseMachines(lines).value;
              && (result.Some? <==> AllRun(ms))
              && (result.Some? ==> |presses| == |ms| && result.value == Sum(presses)
                                   && forall i :: 0 <= i < |ms| ==> Fewest(ms[i], presses[i]))
  {
    var parsed := ParseMachines(lines);
    if parsed.None? {
      return None, [];
    }
    var outcomes := SearchAll(parsed.value);
    var all := AllSome(r => r, outcomes);
    if all.None? {
      return None, [];
    }
    return Some(Sum(all.value)), all.value;
  }
}
