/** Day 10, part 2: each press of a button adds one to every joltage
    counter it lists, and the counters start at zero. The fewest presses
    that bring every counter to its target are left to an integer linear
    program: `solveMachineZ3` builds the matrix of how often each button
    lists each counter, `generateLP` writes the program in LP format, and an
    outside solver answers with the optimum. */
module Day10Joltage {
  import opened Wrappers
  import opened Ints
  import opened Strings
  import opened Day10Machines

  // ---- pressing buttons ----

  /** One press: each listed counter goes up by one, once per listing; an
      index naming no counter is counted by no row of the matrix. */
  function Bump(v: seq<int>, op: seq<int>): (r: seq<int>)
    ensures |r| == |v|
    decreases |op|
  {
    if |op| == 0 then v
    else Bump(if 0 <= op[0] < |v| then v[op[0] := v[op[0]] + 1] else v, op[1..])
  }

  /** The counters after pressing the chosen buttons in order. */
  function Apply(v: seq<int>, ops: seq<seq<int>>, choice: seq<int>): (r: seq<int>)
    requires Choices(ops, choice)
    ensures |r| == |v|
    decreases |choice|
  {
    if |choice| == 0 then v else Apply(Bump(v, ops[choice[0]]), ops, choice[1..])
  }

  /** A press raises a counter by the number of times the button lists it. */
  lemma {:induction false} BumpCount(v: seq<int>, op: seq<int>, j: int)
    requires 0 <= j < |v|
    ensures Bump(v, op)[j] == v[j] + multiset(op)[j]
    decreases |op|
  {
    if |op| > 0 {
      var v' := if 0 <= op[0] < |v| then v[op[0] := v[op[0]] + 1] else v;
      BumpCount(v', op[1..], j);
      assert op == [op[0]] + op[1..];
      assert multiset(op)[j] == multiset([op[0]])[j] + multiset(op[1..])[j];
    }
  }

  // ---- the coefficient matrix ----

  /** Row `j`, column `i`: how many times button `i` lists counter `j`. */
  function Coefficients(ops: seq<seq<int>>, n: nat): (a: seq<seq<int>>)
    ensures |a| == n && forall j :: 0 <= j < n ==> |a[j]| == |ops|
  {
    seq(n, j => seq(|ops|, i requires 0 <= i < |ops| => multiset(ops[i])[j]))
  }

  /** How many entries of `op` equal `j`, counted the way Go's inner loop
      counts them. */
  method CountListings(op: seq<int>, j: int) returns (count: int)
    ensures count == multiset(op)[j]
  {
    count := 0;
    for p := 0 to |op|
      invariant count == multiset(op[..p])[j]
    {
      assert op[..p + 1] == op[..p] + [op[p]];
      assert multiset(op[..p + 1]) == multiset(op[..p]) + multiset{op[p]};
      if op[p] == j {
        count := count + 1;
      }
    }
    assert op[..|op|] == op;
  }

  /** The matrix `A` of `solveMachineZ3`. */
  method CoefficientMatrix(m: Machine) returns (a: seq<seq<int>>)
    ensures a == Coefficients(m.ops, |m.joltage|)
  {
    a := [];
    for j := 0 to |m.joltage|
      invariant a == Coefficients(m.ops, |m.joltage|)[..j]
    {
      var row := [];
      for i := 0 to |m.ops|
        invariant row == Coefficients(m.ops, |m.joltage|)[j][..i]
      {
        var count := CountListings(m.ops[i], j);
        row := row + [count];
      }
      assert Coefficients(m.ops, |m.joltage|)[j][..|m.ops|] == Coefficients(m.ops, |m.joltage|)[j];
      assert Coefficients(m.ops, |m.joltage|)[..j + 1] == Coefficients(m.ops, |m.joltage|)[..j] + [row];
      a := a + [row];
    }
    assert Coefficients(m.ops, |m.joltage|)[..|m.joltage|] == Coefficients(m.ops, |m.joltage|);
  }

  // ---- linear arithmetic ----

  function Dot(a: seq<int>, b: seq<int>): int
    requires |a| == |b|
  {
    if |a| == 0 then 0 else Dot(a[..|a| - 1], b[..|b| - 1]) + a[|a| - 1] * b[|b| - 1]
  }

  /** Raising one entry of `b` by one raises the product by the matching
      entry of `a`. */
  lemma {:induction false} DotBump(a: seq<int>, b: seq<int>, c: int)
    requires |a| == |b| && 0 <= c < |b|
    ensures Dot(a, b[c := b[c] + 1]) == Dot(a, b) + a[c]
    decreases |a|
  {
    var n := |a|;
    var b' := b[c := b[c] + 1];
    if c < n - 1 {
      assert b'[..n - 1] == b[..n - 1][c := b[c] + 1];
      DotBump(a[..n - 1], b[..n - 1], c);
    } else {
      assert b'[..n - 1] == b[..n - 1];
    }
  }

  lemma {:induction false} SumBump(b: seq<int>, c: int)
    requires 0 <= c < |b|
    ensures Sum(b[c := b[c] + 1]) == Sum(b) + 1
    decreases |b|
  {
    var n := |b|;
    var b' := b[c := b[c] + 1];
    if c < n - 1 {
      assert b'[..n - 1] == b[..n - 1][c := b[c] + 1];
      SumBump(b[..n - 1], c);
    } else {
      assert b'[..n - 1] == b[..n - 1];
    }
  }

  /** How many times each of `n` buttons is pressed. */
  function Counts(n: nat, choice: seq<int>): (x: seq<int>)
    ensures |x| == n
  {
    seq(n, i => multiset(choice)[i])
  }

  /** Counter `j` after a sequence of presses is its start plus row `j` of
      the matrix times the press counts. */
  lemma {:induction false} ApplyCounts(v: seq<int>, ops: seq<seq<int>>, choice: seq<int>, j: int)
    requires Choices(ops, choice) && 0 <= j < |v|
    ensures Apply(v, ops, choice)[j] == v[j] + Dot(Coefficients(ops, |v|)[j], Counts(|ops|, choice))
    decreases |choice|
  {
    var row := Coefficients(ops, |v|)[j];
    if |choice| == 0 {
      DotZero(row, Counts(|ops|, choice));
    } else {
      var c, rest := choice[0], choice[1..];
      var v' := Bump(v, ops[c]);
      ApplyCounts(v', ops, rest, j);
      BumpCount(v, ops[c], j);
      assert Coefficients(ops, |v'|)[j] == row;
      assert choice == [c] + rest;
      assert Counts(|ops|, choice) == Counts(|ops|, rest)[c := Counts(|ops|, rest)[c] + 1];
      DotBump(row, Counts(|ops|, rest), c);
    }
  }

  lemma {:induction false} DotZero(a: seq<int>, b: seq<int>)
    requires |a| == |b| && forall i :: 0 <= i < |b| ==> b[i] == 0
    ensures Dot(a, b) == 0
    decreases |a|
  {
    if |a| > 0 {
      DotZero(a[..|a| - 1], b[..|b| - 1]);
    }
  }

  /** The press counts add up to the number of presses. */
  lemma {:induction false} CountsSum(n: nat, choice: seq<int>)
    requires forall k :: 0 <= k < |choice| ==> 0 <= choice[k] < n
    ensures Sum(Counts(n, choice)) == |choice|
    decreases |choice|
  {
    if |choice| == 0 {
      SumZero(Counts(n, choice));
    } else {
      var c, rest := choice[0], choice[1..];
      CountsSum(n, rest);
      assert choice == [c] + rest;
      assert Counts(n, choice) == Counts(n, rest)[c := Counts(n, rest)[c] + 1];
      SumBump(Counts(n, rest), c);
    }
  }

  lemma {:induction false} SumZero(b: seq<int>)
    requires forall i :: 0 <= i < |b| ==> b[i] == 0
    ensures Sum(b) == 0
    decreases |b|
  {
    if |b| > 0 {
      SumZero(b[..|b| - 1]);
    }
  }

  /** Button `i` pressed `x[i]` times, the buttons in order. */
  function Repeats(x: seq<nat>): (choice: seq<int>)
    ensures forall k :: 0 <= k < |choice| ==> 0 <= choice[k] < |x|
  {
    if |x| == 0 then [] else Repeats(x[..|x| - 1]) + seq(x[|x| - 1], _ => |x| - 1)
  }

  lemma {:induction false} RepeatCount(k: nat, c: int, i: int)
    ensures multiset(seq(k, _ => c))[i] == if i == c then k else 0
    decreases k
  {
    if k > 0 {
      RepeatCount(k - 1, c, i);
      assert seq(k, _ => c) == seq(k - 1, _ => c) + [c];
    }
  }

  /** Any press counts come from some sequence of presses. */
  lemma {:induction false} RepeatsCounts(x: seq<nat>, i: int)
    ensures multiset(Repeats(x))[i] == if 0 <= i < |x| then x[i] else 0
    decreases |x|
  {
    if |x| > 0 {
      var n := |x|;
      RepeatsCounts(x[..n - 1], i);
      RepeatCount(x[n - 1], n - 1, i);
      assert multiset(Repeats(x)) == multiset(Repeats(x[..n - 1])) + multiset(seq(x[n - 1], _ => n - 1));
    }
  }

  // ---- the LP text ----

  /** A term of a constraint: a coefficient and a variable's index. */
  datatype Term = Term(coef: int, index: nat)

  /** The nonzero entries of a row, in column order; Go skips zero
      coefficients. */
  function Terms(row: seq<int>): (ts: seq<Term>)
    ensures forall k :: 0 <= k < |ts| ==> ts[k].index < |row| && ts[k].coef == row[ts[k].index] != 0
  {
    if |row| == 0 then []
    else Terms(row[..|row| - 1]) + (if row[|row| - 1] != 0 then [Term(row[|row| - 1], |row| - 1)] else [])
  }

  /** The value of a sum of terms at the point `x`. */
  function Eval(ts: seq<Term>, x: seq<int>): int
    requires forall k :: 0 <= k < |ts| ==> ts[k].index < |x|
  {
    if |ts| == 0 then 0 else Eval(ts[..|ts| - 1], x) + ts[|ts| - 1].coef * x[ts[|ts| - 1].index]
  }

  lemma EvalAppend(ts: seq<Term>, t: Term, x: seq<int>)
    requires forall k :: 0 <= k < |ts| ==> ts[k].index < |x|
    requires t.index < |x|
    ensures Eval(ts + [t], x) == Eval(ts, x) + t.coef * x[t.index]
  {
    assert (ts + [t])[..|ts|] == ts;
  }

  /** Leaving out the zero coefficients keeps the row's value. */
  lemma {:induction false} EvalTerms(row: seq<int>, x: seq<int>)
    requires |row| <= |x|
    ensures Eval(Terms(row), x) == Dot(row, x[..|row|])
    decreases |row|
  {
    if |row| > 0 {
      var n := |row|;
      var ts := Terms(row[..n - 1]);
      EvalTerms(row[..n - 1], x);
      assert x[..n][..n - 1] == x[..n - 1];
      assert Dot(row, x[..n]) == Dot(row[..n - 1], x[..n - 1]) + row[n - 1] * x[n - 1];
      if row[n - 1] != 0 {
        assert Terms(row) == ts + [Term(row[n - 1], n - 1)];
        EvalAppend(ts, Term(row[n - 1], n - 1), x);
      } else {
        assert Terms(row) == ts + [];
        assert ts + [] == ts;
      }
    }
  }

  function Var(i: int): string {
    "x" + Itoa(i)
  }

  /** One term as `generateLP` writes it: " + " before a positive term
      that is not the first, " - " before any negative one, and the
      coefficient's size only when it is not 1. */
  function TermText(t: Term, first: bool): string {
    (if !first && t.coef > 0 then " + " else if t.coef < 0 then " - " else "")
    + (if Abs(t.coef) == 1 then Var(t.index) else Itoa(Abs(t.coef)) + Var(t.index))
  }

  function TermsText(ts: seq<Term>): string {
    if |ts| == 0 then "" else TermsText(ts[..|ts| - 1]) + TermText(ts[|ts| - 1], |ts| == 1)
  }

  function ConstraintText(i: int, row: seq<int>, target: int): string {
    "c" + Itoa(i) + ": " + TermsText(Terms(row)) + " = " + Itoa(target) + "\n"
  }

  /** The constraints of the first `k` rows, each over the first `n`
      columns. */
  function Constraints(a: seq<seq<int>>, targets: seq<int>, n: nat, k: nat): string
    requires k <= |a| <= |targets| && forall j :: 0 <= j < |a| ==> |a[j]| >= n
  {
    if k == 0 then "" else Constraints(a, targets, n, k - 1) + ConstraintText(k - 1, a[k - 1][..n], targets[k - 1])
  }

  /** The first `n` variables, separated by `sep`. */
  function Vars(n: nat, sep: string): string {
    if n == 0 then "" else if n == 1 then Var(0) else Vars(n - 1, sep) + sep + Var(n - 1)
  }

  function BoundLines(n: nat): string {
    if n == 0 then "" else BoundLines(n - 1) + Var(n - 1) + " >= 0\n"
  }

  /** The program `generateLP` writes: minimise the sum of the variables,
      one equality per row, every variable a non-negative integer. */
  function LPText(a: seq<seq<int>>, targets: seq<int>, n: nat): string
    requires |a| <= |targets| && forall j :: 0 <= j < |a| ==> |a[j]| >= n
  {
    "Minimize\n" + "obj: " + Vars(n, " + ") + "\n\n"
    + "Subject To\n" + Constraints(a, targets, n, |a|) + "\n"
    + "Bounds\n" + BoundLines(n) + "\n"
    + "Integer\n" + Vars(n, " ") + "\n\n"
    + "End\n"
  }

  // ---- generateLP ----

  /** The loop `for i := 0; i < numVars; i++` writing the variables with a
      separator before all but the first. */
  method WriteVars(n: nat, sep: string) returns (s: string)
    ensures s == Vars(n, sep)
  {
    s := "";
    for i := 0 to n
      invariant s == Vars(i, sep)
    {
      if i > 0 {
        s := s + sep;
      }
      s := s + Var(i);
    }
  }

  method WriteBounds(n: nat) returns (s: string)
    ensures s == BoundLines(n)
  {
    s := "";
    for i := 0 to n
      invariant s == BoundLines(i)
    {
      s := s + Var(i) + " >= 0\n";
    }
  }

  /** One nonzero coefficient written out. */
  method WriteTerm(c: int, j: nat, first: bool) returns (s: string)
    ensures s == TermText(Term(c, j), first)
  {
    s := "";
    if !first && c > 0 {
      s := s + " + ";
    } else if c < 0 {
      s := s + " - ";
    }
    if Abs(c) == 1 {
      s := s + Var(j);
    } else {
      s := s + Itoa(Abs(c)) + Var(j);
    }
  }

  /** One pass of the inner loop: column `j` of the row. */
  method WriteColumn(row: seq<int>, j: nat, s: string, first: bool) returns (s': string, first': bool)
    requires j < |row|
    requires s == TermsText(Terms(row[..j])) && (first <==> |Terms(row[..j])| == 0)
    ensures s' == TermsText(Terms(row[..j + 1])) && (first' <==> |Terms(row[..j + 1])| == 0)
  {
    assert row[..j + 1][..j] == row[..j];
    var c := row[j];
    if c != 0 {
      var t := WriteTerm(c, j, first);
      TermsStep(row[..j + 1]);
      s', first' := s + t, false;
    } else {
      TermsSkip(row[..j + 1]);
      s', first' := s, first;
    }
  }

  /** The inner loop over one row: `first` stays true until a nonzero
      coefficient has been written. */
  method WriteTerms(row: seq<int>) returns (s: string)
    ensures s == TermsText(Terms(row))
  {
    s := "";
    var first := true;
    for j := 0 to |row|
      invariant s == TermsText(Terms(row[..j]))
      invariant first <==> |Terms(row[..j])| == 0
    {
      s, first := WriteColumn(row, j, s, first);
    }
    assert row[..|row|] == row;
  }

  /** A row that ends in a zero has the terms of the rest of it. */
  lemma TermsSkip(row: seq<int>)
    requires |row| > 0 && row[|row| - 1] == 0
    ensures Terms(row) == Terms(row[..|row| - 1])
  {
    assert Terms(row[..|row| - 1]) + [] == Terms(row[..|row| - 1]);
  }

  /** The text of the terms of a row that ends in a nonzero entry. */
  lemma TermsStep(row: seq<int>)
    requires |row| > 0 && row[|row| - 1] != 0
    ensures var ts := Terms(row[..|row| - 1]);
      && Terms(row) == ts + [Term(row[|row| - 1], |row| - 1)]
      && TermsText(Terms(row)) == TermsText(ts) + TermText(Term(row[|row| - 1], |row| - 1), |ts| == 0)
  {
    var ts := Terms(row[..|row| - 1]);
    assert (ts + [Term(row[|row| - 1], |row| - 1)])[..|ts|] == ts;
  }

  method WriteConstraints(a: seq<seq<int>>, targets: seq<int>, n: nat) returns (s: string)
    requires |a| <= |targets| && forall j :: 0 <= j < |a| ==> |a[j]| >= n
    ensures s == Constraints(a, targets, n, |a|)
  {
    s := "";
    for i := 0 to |a|
      invariant s == Constraints(a, targets, n, i)
    {
      var terms := WriteTerms(a[i][..n]);
      var line := "c" + Itoa(i) + ": " + terms + " = " + Itoa(targets[i]) + "\n";
      assert line == ConstraintText(i, a[i][..n], targets[i]);
      s := s + line;
    }
  }

  /** `generateLP`. Go reads `A[i][j]` for every `j < numVars` and
      `targets[i]` for every row, so the rows must be that long and the
      targets that many. */
  method GenerateLP(a: seq<seq<int>>, targets: seq<int>, n: nat) returns (lp: string)
    requires |a| <= |targets| && forall j :: 0 <= j < |a| ==> |a[j]| >= n
    ensures lp == LPText(a, targets, n)
  {
    var objective := WriteVars(n, " + ");
    var constraints := WriteConstraints(a, targets, n);
    var bounds := WriteBounds(n);
    var integers := WriteVars(n, " ");
    lp := "Minimize\n" + "obj: " + objective + "\n\n"
      + "Subject To\n" + constraints + "\n"
      + "Bounds\n" + bounds + "\n"
      + "Integer\n" + integers + "\n\n"
      + "End\n";
  }

  // ---- what the program means ----

  /** `x` satisfies every constraint the text writes out, as non-negative
      integers. */
  ghost predicate Feasible(a: seq<seq<int>>, targets: seq<int>, n: nat, x: seq<int>)
    requires |a| <= |targets| && forall j :: 0 <= j < |a| ==> |a[j]| >= n
  {
    && |x| == n && (forall i :: 0 <= i < n ==> x[i] >= 0)
    && forall j :: 0 <= j < |a| ==> Eval(Terms(a[j][..n]), x) == targets[j]
  }

  /** The counters start at zero. */
  function Zeros(n: nat): seq<int> {
    seq(n, _ => 0)
  }

  /** Row `j` of the program at the press counts is counter `j` after the
      presses. */
  lemma RowMeaning(m: Machine, choice: seq<int>, j: int)
    requires Choices(m.ops, choice) && 0 <= j < |m.joltage|
    ensures var row := Coefficients(m.ops, |m.joltage|)[j];
      Eval(Terms(row[..|m.ops|]), Counts(|m.ops|, choice)) == Apply(Zeros(|m.joltage|), m.ops, choice)[j]
  {
    var row, x := Coefficients(m.ops, |m.joltage|)[j], Counts(|m.ops|, choice);
    EvalTerms(row[..|m.ops|], x);
    assert row[..|m.ops|] == row && x[..|m.ops|] == x;
    ApplyCounts(Zeros(|m.joltage|), m.ops, choice, j);
  }

  /** The press counts of a sequence of presses solve the machine's program
      exactly when those presses bring every counter to its target, and
      the objective counts the presses. */
  lemma FeasibleMeansReached(m: Machine, choice: seq<int>)
    requires Choices(m.ops, choice)
    ensures Feasible(Coefficients(m.ops, |m.joltage|), m.joltage, |m.ops|, Counts(|m.ops|, choice))
            <==> Apply(Zeros(|m.joltage|), m.ops, choice) == m.joltage
    ensures Sum(Counts(|m.ops|, choice)) == |choice|
  {
    var a, x, r := Coefficients(m.ops, |m.joltage|), Counts(|m.ops|, choice), Apply(Zeros(|m.joltage|), m.ops, choice);
    forall j | 0 <= j < |m.joltage|
      ensures Eval(Terms(a[j][..|m.ops|]), x) == r[j]
    {
      RowMeaning(m, choice, j);
    }
    if r == m.joltage {
      assert Feasible(a, m.joltage, |m.ops|, x);
    }
    if Feasible(a, m.joltage, |m.ops|, x) {
      assert r == m.joltage;
    }
    CountsSum(|m.ops|, choice);
  }

  /** Every solution of the program is the press counts of some sequence of
      presses, as long as its objective value. */
  lemma FeasibleFromPresses(m: Machine, x: seq<nat>)
    requires Feasible(Coefficients(m.ops, |m.joltage|), m.joltage, |m.ops|, x)
    ensures Choices(m.ops, Repeats(x)) && Counts(|m.ops|, Repeats(x)) == x
    ensures Apply(Zeros(|m.joltage|), m.ops, Repeats(x)) == m.joltage
  {
    var choice := Repeats(x);
    forall i | 0 <= i < |m.ops|
      ensures Counts(|m.ops|, choice)[i] == x[i]
    {
      RepeatsCounts(x, i);
    }
    FeasibleMeansReached(m, choice);
  }

  // ---- part 2 ----

  /** The program of one machine: one variable per button, one row per
      counter. */
  function ProgramOf(m: Machine): string {
    LPText(Coefficients(m.ops, |m.joltage|), m.joltage, |m.ops|)
  }

  /** The program of one machine, as `solveMachineZ3` hands it on. */
  method MachineLP(m: Machine) returns (lp: string)
    ensures lp == ProgramOf(m)
  {
    var a := CoefficientMatrix(m);
    lp := GenerateLP(a, m.joltage, |m.ops|);
  }

  /** The answers that count: Go adds a solver's answer only when it is not
      negative. */
  function Tally(answers: seq<int>): (t: int)
    ensures t >= 0
  {
    if |answers| == 0 then 0
    else Tally(answers[..|answers| - 1]) + Max(answers[|answers| - 1], 0)
  }

  /** With no failed solve the tally is the plain total. */
  lemma {:induction false} TallySum(answers: seq<int>)
    requires forall k :: 0 <= k < |answers| ==> answers[k] >= 0
    ensures Tally(answers) == Sum(answers)
    decreases |answers|
  {
    if |answers| > 0 {
      TallySum(answers[..|answers| - 1]);
    }
  }

  /** The solver's answers for the machines' programs, in order. */
  function Answers(ms: seq<Machine>, solve: string -> int): (r: seq<int>)
    ensures |r| == |ms|
  {
    if |ms| == 0 then [] else Answers(ms[..|ms| - 1], solve) + [solve(ProgramOf(ms[|ms| - 1]))]
  }

  lemma AnswersStep(ms: seq<Machine>, solve: string -> int, i: int)
    requires 0 <= i < |ms|
    ensures Answers(ms[..i + 1], solve) == Answers(ms[..i], solve) + [solve(ProgramOf(ms[i]))]
  {
    var p := ms[..i + 1];
    assert p[..|p| - 1] == ms[..i] && p[|p| - 1] == ms[i];
  }

  /** Each answer is the solver's answer for that machine's program. */
  lemma {:induction false} AnswersMeaning(ms: seq<Machine>, solve: string -> int, i: int)
    requires 0 <= i < |ms|
    ensures Answers(ms, solve)[i] == solve(ProgramOf(ms[i]))
    decreases |ms|
  {
    if i < |ms| - 1 {
      AnswersMeaning(ms[..|ms| - 1], solve, i);
    }
  }

  /** The loop of `part2` over the machines. */
  method SolveAll(ms: seq<Machine>, solve: string -> int) returns (answers: seq<int>)
    ensures answers == Answers(ms, solve)
  {
    answers := [];
    for i := 0 to |ms|
      invariant answers == Answers(ms[..i], solve)
    {
      var lp := MachineLP(ms[i]);
      AnswersStep(ms, solve, i);
      answers := answers + [solve(lp)];
    }
    assert ms[..|ms|] == ms;
  }

  /** `part2`: the solver's answer for each machine's program, the
      non-negative ones added up. Writing the program to a file and running
      the solver are the given function `solve`. */
  method Part2(lines: seq<string>, solve: string -> int) returns (result: Option<int>, answers: seq<int>)
    ensures result.Some? <==> ParseMachines(lines).Some?
    ensures result.Some? ==>
              var ms := ParseMachines(lines).value;
              && |answers| == |ms| && result.value == Tally(answers)
              && forall i :: 0 <= i < |ms| ==> answers[i] == solve(ProgramOf(ms[i]))
  {
    var parsed := ParseMachines(lines);
    if parsed.None? {
      return None, [];
    }
    answers := SolveAll(parsed.value, solve);
    forall i | 0 <= i < |parsed.value|
      ensures answers[i] == solve(ProgramOf(parsed.value[i]))
    {
      AnswersMeaning(parsed.value, solve, i);
    }
    result := Some(Tally(answers));
  }
}
