/** Day 6: a worksheet of arithmetic problems laid out in columns. Each
    problem is a list of numbers and an operator; '+' problems add their
    numbers and '*' problems multiply them. Part 1 reads the worksheet
    token by token, the i-th token of every line belonging to problem i;
    part 2 reads it column by column from the right, each column's digits
    forming one number and an operator closing the problem. */
module Day6 {
  import opened Wrappers
  import opened Ints
  import opened Strings
  import opened Walks

  /** `problem`; Go's zero value has no numbers and the empty operator. */
  datatype Problem = Problem(nums: seq<int>, operator: string)

  const Fresh: Problem := Problem([], "")

  // ---- evaluation ----

  function Product(s: seq<int>): int {
    if |s| == 0 then 1 else Product(s[..|s| - 1]) * Last(s)
  }

  /** The running total of a '*' problem: it starts at 0, and a total of 0
      is reset to 1 before each factor. */
  function ResetProduct(s: seq<int>): int {
    if |s| == 0 then 0
    else
      var t := ResetProduct(s[..|s| - 1]);
      (if t == 0 then 1 else t) * Last(s)
  }

  /** The factors after the last zero. */
  function AfterLastZero(s: seq<int>): (t: seq<int>)
    ensures 0 !in t
    ensures 0 !in s ==> t == s
  {
    if |s| == 0 || Last(s) == 0 then []
    else
      var init := s[..|s| - 1];
      assert s == init + [Last(s)];
      AfterLastZero(init) + [Last(s)]
  }

  lemma {:induction false} ProductNonZero(s: seq<int>)
    requires 0 !in s
    ensures Product(s) != 0
    decreases |s|
  {
    if |s| > 0 {
      var init := s[..|s| - 1];
      assert 0 !in init by {
        forall i | 0 <= i < |init|
          ensures init[i] != 0
        {
          assert init[i] == s[i];
        }
      }
      ProductNonZero(init);
    }
  }

  /** Because of the reset, a '*' problem's total is the product of the
      factors after the last zero, and 0 only when the last factor is 0 (or
      there is none): a zero followed by more factors does not zero it. */
  lemma {:induction false} ResetProductMeaning(s: seq<int>)
    requires |s| > 0
    ensures ResetProduct(s) == if Last(s) == 0 then 0 else Product(AfterLastZero(s))
    decreases |s|
  {
    var init := s[..|s| - 1];
    var n := Last(s);
    if n != 0 {
      assert AfterLastZero(s) == AfterLastZero(init) + [n];
      assert AfterLastZero(s)[..|AfterLastZero(s)| - 1] == AfterLastZero(init);
      if |init| > 0 {
        ResetProductMeaning(init);
        if Last(init) != 0 {
          ProductNonZero(AfterLastZero(init));
        }
      }
    }
  }

  /** Without zeros the reset never fires and a '*' problem's total is the
      product of its numbers. */
  lemma ResetProductWithoutZeros(s: seq<int>)
    requires |s| > 0 && 0 !in s
    ensures ResetProduct(s) == Product(s)
  {
    ResetProductMeaning(s);
    assert Last(s) in s;
  }

  /** What one problem adds to the answer: the sum of a '+' problem, the
      reset product of a '*' problem, and nothing for any other operator. */
  function Contribution(p: Problem): int {
    if p.operator == "+" then Sum(p.nums)
    else if p.operator == "*" then ResetProduct(p.nums)
    else 0
  }

  function Total(ps: seq<Problem>): int {
    if |ps| == 0 then 0 else Total(ps[..|ps| - 1]) + Contribution(Last(ps))
  }

  lemma TotalStep(ps: seq<Problem>, i: int)
    requires 0 <= i < |ps|
    ensures Total(ps[..i + 1]) == Total(ps[..i]) + Contribution(ps[i])
  {
    assert ps[..i + 1][..i] == ps[..i];
  }

  /** The inner loop of the evaluation: `added` is what the '+' case adds
      to the answer directly, `total` the running product. */
  method Contribute(p: Problem) returns (added: int, total: int)
    ensures added + total == Contribution(p)
  {
    added, total := 0, 0;
    var k := 0;
    while k < |p.nums|
      invariant 0 <= k <= |p.nums|
      invariant added == (if p.operator == "+" then Sum(p.nums[..k]) else 0)
      invariant total == (if p.operator == "*" then ResetProduct(p.nums[..k]) else 0)
    {
      var n := p.nums[k];
      PrefixStep(p.nums, k);
      assert p.nums[..k + 1][..k] == p.nums[..k];
      if p.operator == "+" {
        added := added + n;
      } else if p.operator == "*" {
        if total == 0 {
          total := 1;
        }
        total := total * n;
      }
      k := k + 1;
    }
    assert p.nums[..k] == p.nums;
  }

  /** The evaluation loop both parts end with. */
  method Evaluate(problems: seq<Problem>) returns (result: int)
    ensures result == Total(problems)
  {
    result := 0;
    var i := 0;
    while i < |problems|
      invariant 0 <= i <= |problems|
      invariant result == Total(problems[..i])
    {
      var added, total := Contribute(problems[i]);
      TotalStep(problems, i);
      result := result + added + total;
      i := i + 1;
    }
    assert problems[..i] == problems;
  }

  // ---- part 1: rows of tokens ----

  predicate IsOperator(tok: string) {
    tok == "+" || tok == "*"
  }

  function NonEmpty(parts: seq<string>): (r: seq<string>)
    ensures forall i :: 0 <= i < |r| ==> r[i] != ""
  {
    if |parts| == 0 then []
    else (if parts[0] == "" then [] else [parts[0]]) + NonEmpty(parts[1..])
  }

  /** The tokens part 1 reads from a line: none from a blank line, else the
      non-empty pieces between single spaces. */
  function RowTokens(line: string): seq<string> {
    if TrimSpace(line) == "" then [] else NonEmpty(Split(line, ' '))
  }

  /** One token applied to its problem: an operator replaces the operator,
      anything else must be a number and is appended. */
  function AddToken(p: Problem, tok: string): Option<Problem> {
    if IsOperator(tok) then Some(p.(operator := tok))
    else
      var n :- Atoi(tok);
      Some(p.(nums := p.nums + [n]))
  }

  /** Problem `j` so far; a problem not yet started is `Fresh`. */
  function Get(ps: seq<Problem>, j: nat): Problem {
    if j < |ps| then ps[j] else Fresh
  }

  /** The token loop of one line, from token `i` on: token `j` goes to
      problem `j`, which is started when it does not exist yet. */
  function AddTokens(ps: seq<Problem>, toks: seq<string>, i: nat): (r: Option<seq<Problem>>)
    requires i <= |ps| && i <= |toks|
    ensures r.Some? <==> forall j :: i <= j < |toks| ==> AddToken(Get(ps, j), toks[j]).Some?
    ensures r.Some? ==> |r.value| == Max(|ps|, |toks|)
    ensures r.Some? ==> forall j :: 0 <= j < |r.value| ==>
              r.value[j] == if i <= j < |toks| then AddToken(Get(ps, j), toks[j]).value else ps[j]
    decreases |toks| - i
  {
    if i == |toks| then Some(ps)
    else
      var ps1 := if i == |ps| then ps + [Fresh] else ps;
      assert ps1[i] == Get(ps, i);
      var q :- AddToken(ps1[i], toks[i]);
      var ps2 := ps1[i := q];
      assert forall j :: i < j ==> Get(ps2, j) == Get(ps, j);
      AddTokens(ps2, toks, i + 1)
  }

  /** Part 1's reading loop over all lines. */
  function ParseRows(lines: seq<string>): Option<seq<Problem>> {
    if |lines| == 0 then Some([])
    else
      var ps :- ParseRows(lines[..|lines| - 1]);
      AddTokens(ps, RowTokens(Last(lines)), 0)
  }

  /** The reference reading: the number of problems is the largest number
      of tokens on a line, and problem `j` is built from the `j`-th tokens
      of the lines that have one, top to bottom. */
  function Width(lines: seq<string>): nat {
    if |lines| == 0 then 0 else Max(Width(lines[..|lines| - 1]), |RowTokens(Last(lines))|)
  }

  function ColumnTokens(lines: seq<string>, j: nat): seq<string> {
    if |lines| == 0 then []
    else
      var toks := RowTokens(Last(lines));
      ColumnTokens(lines[..|lines| - 1], j) + (if j < |toks| then [toks[j]] else [])
  }

  function FromTokens(col: seq<string>): Option<Problem> {
    if |col| == 0 then Some(Fresh)
    else
      var p :- FromTokens(col[..|col| - 1]);
      AddToken(p, Last(col))
  }

  lemma {:induction false} ColumnPastWidth(lines: seq<string>, j: nat)
    requires j >= Width(lines)
    ensures ColumnTokens(lines, j) == []
    decreases |lines|
  {
    if |lines| > 0 {
      ColumnPastWidth(lines[..|lines| - 1], j);
    }
  }

  lemma FromTokensAppend(col: seq<string>, t: string)
    ensures FromTokens(col + [t]) ==
            if FromTokens(col).Some? then AddToken(FromTokens(col).value, t) else None
  {
    assert (col + [t])[..|col|] == col;
  }

  /** One column of the reference reading gains the last line's token. */
  lemma ColumnStep(lines: seq<string>, ps: seq<Problem>, j: nat)
    requires |lines| > 0
    requires var init := lines[..|lines| - 1];
             |ps| == Width(init)
             && (forall k :: 0 <= k < Width(init) ==> FromTokens(ColumnTokens(init, k)).Some?)
             && (forall k :: 0 <= k < Width(init) ==> ps[k] == FromTokens(ColumnTokens(init, k)).value)
    ensures var init := lines[..|lines| - 1];
            var toks := RowTokens(Last(lines));
            FromTokens(ColumnTokens(init, j)).Some?
            && Get(ps, j) == FromTokens(ColumnTokens(init, j)).value
            && FromTokens(ColumnTokens(lines, j))
               == if j < |toks| then AddToken(Get(ps, j), toks[j]) else FromTokens(ColumnTokens(init, j))
  {
    var init := lines[..|lines| - 1];
    var toks := RowTokens(Last(lines));
    var before := ColumnTokens(init, j);
    if j >= Width(init) {
      ColumnPastWidth(init, j);
    }
    if j < |toks| {
      assert ColumnTokens(lines, j) == before + [toks[j]];
      FromTokensAppend(before, toks[j]);
    } else {
      assert ColumnTokens(lines, j) == before + [];
      assert before + [] == before;
    }
  }

  /** A column that cannot be read stays unreadable. */
  lemma ColumnFails(lines: seq<string>, j: nat)
    requires |lines| > 0
    requires FromTokens(ColumnTokens(lines[..|lines| - 1], j)).None?
    ensures FromTokens(ColumnTokens(lines, j)).None?
  {
    var init := lines[..|lines| - 1];
    var toks := RowTokens(Last(lines));
    var before := ColumnTokens(init, j);
    if j < |toks| {
      assert ColumnTokens(lines, j) == before + [toks[j]];
      FromTokensAppend(before, toks[j]);
    } else {
      assert ColumnTokens(lines, j) == before + [];
      assert before + [] == before;
    }
  }

  /** The step of the row-by-row reading when the earlier lines read. */
  lemma ParseRowsStep(lines: seq<string>, ps: seq<Problem>)
    requires |lines| > 0
    requires ParseRows(lines[..|lines| - 1]) == Some(ps)
    requires var init := lines[..|lines| - 1];
             |ps| == Width(init)
             && (forall k :: 0 <= k < Width(init) ==> FromTokens(ColumnTokens(init, k)).Some?)
             && (forall k :: 0 <= k < Width(init) ==> ps[k] == FromTokens(ColumnTokens(init, k)).value)
    ensures ParseRows(lines).Some? <==>
              forall j :: 0 <= j < Width(lines) ==> FromTokens(ColumnTokens(lines, j)).Some?
    ensures ParseRows(lines).Some? ==>
              |ParseRows(lines).value| == Width(lines)
              && forall j :: 0 <= j < Width(lines) ==>
                   ParseRows(lines).value[j] == FromTokens(ColumnTokens(lines, j)).value
  {
    var init := lines[..|lines| - 1];
    var toks := RowTokens(Last(lines));
    var r := AddTokens(ps, toks, 0);
    assert ParseRows(lines) == r;
    assert Width(lines) == Max(|ps|, |toks|);
    if r.Some? {
      forall j | 0 <= j < Width(lines)
        ensures FromTokens(ColumnTokens(lines, j)).Some?
        ensures r.value[j] == FromTokens(ColumnTokens(lines, j)).value
      {
        ColumnStep(lines, ps, j);
      }
    } else {
      var j :| 0 <= j < |toks| && AddToken(Get(ps, j), toks[j]).None?;
      ColumnStep(lines, ps, j);
    }
  }

  /** Reading row by row builds the same problems as reading each token
      column on its own, and fails exactly when some column does. */
  lemma {:induction false} ParseRowsByColumns(lines: seq<string>)
    ensures ParseRows(lines).Some? <==>
              forall j :: 0 <= j < Width(lines) ==> FromTokens(ColumnTokens(lines, j)).Some?
    ensures ParseRows(lines).Some? ==>
              |ParseRows(lines).value| == Width(lines)
              && forall j :: 0 <= j < Width(lines) ==>
                   ParseRows(lines).value[j] == FromTokens(ColumnTokens(lines, j)).value
    decreases |lines|
  {
    if |lines| > 0 {
      var init := lines[..|lines| - 1];
      var toks := RowTokens(Last(lines));
      ParseRowsByColumns(init);
      if ParseRows(init).None? {
        var j :| 0 <= j < Width(init) && FromTokens(ColumnTokens(init, j)).None?;
        ColumnFails(lines, j);
        assert Width(lines) == Max(Width(init), |toks|);
      } else {
        ParseRowsStep(lines, ParseRows(init).value);
      }
    }
  }

  /** Part 1: the grand total of the problems read token by token; no
      answer when a token is neither an operator nor a number. */
  method Part1(lines: seq<string>) returns (result: Option<int>)
    ensures result.Some? <==> ParseRows(lines).Some?
    ensures result.Some? ==> result.value == Total(ParseRows(lines).value)
  {
    var problems := ParseRows(lines);
    if problems.None? {
      return None;
    }
    var total := Evaluate(problems.value);
    return Some(total);
  }

  // ---- part 2: columns right to left ----

  predicate IsOperatorChar(c: char) {
    c == '+' || c == '*'
  }

  /** What scanning one column top to bottom finds: an operator at row `at`
      after the non-space characters above it, no operator at all, or a row
      too short for the column (Go's index panics). */
  datatype ColumnRead =
    | Closed(op: char, digits: string, at: nat)
    | Open(digits: string)
    | Short(at: nat)

  /** Rows `lo` to `hi` reach the column and hold no operator there. */
  predicate Reaches(lines: seq<string>, col: nat, lo: nat, hi: nat)
    requires lo <= hi <= |lines|
  {
    forall j :: lo <= j < hi ==> col < |lines[j]| && !IsOperatorChar(lines[j][col])
  }

  /** The non-space characters of the column in rows `lo` to `hi`. */
  function ColumnText(lines: seq<string>, col: nat, lo: nat, hi: nat): string
    requires lo <= hi <= |lines|
    requires (forall j :: lo <= j < hi ==> col < |lines[j]|)
    decreases hi - lo
  {
    if lo == hi then ""
    else (if lines[lo][col] == ' ' then "" else [lines[lo][col]]) + ColumnText(lines, col, lo + 1, hi)
  }

  /** The inner loop of part 2 from row `row` on, with `digits` collected
      so far. */
  function ScanColumn(lines: seq<string>, col: nat, row: nat, digits: string): ColumnRead
    requires row <= |lines|
    decreases |lines| - row
  {
    if row == |lines| then Open(digits)
    else if col >= |lines[row]| then Short(row)
    else
      var c := lines[row][col];
      if IsOperatorChar(c) then Closed(c, digits, row)
      else ScanColumn(lines, col, row + 1, if c != ' ' then digits + [c] else digits)
  }

  /** The scan stops at the first row holding an operator in the column or
      too short to reach it; the digits are the column's non-space
      characters above that row. */
  lemma {:induction false} ScanColumnMeaning(lines: seq<string>, col: nat, row: nat, digits: string)
    requires row <= |lines|
    ensures var r := ScanColumn(lines, col, row, digits);
            (r.Closed? ==>
              row <= r.at < |lines| && Reaches(lines, col, row, r.at) && col < |lines[r.at]|
              && lines[r.at][col] == r.op && IsOperatorChar(r.op)
              && r.digits == digits + ColumnText(lines, col, row, r.at))
            && (r.Open? ==>
              Reaches(lines, col, row, |lines|) && r.digits == digits + ColumnText(lines, col, row, |lines|))
            && (r.Short? ==> row <= r.at < |lines| && Reaches(lines, col, row, r.at) && col >= |lines[r.at]|)
    decreases |lines| - row
  {
    if row < |lines| && col < |lines[row]| && !IsOperatorChar(lines[row][col]) {
      var c := lines[row][col];
      var next := if c != ' ' then digits + [c] else digits;
      var r := ScanColumn(lines, col, row, digits);
      assert r == ScanColumn(lines, col, row + 1, next);
      ScanColumnMeaning(lines, col, row + 1, next);
      var hi := if r.Open? then |lines| else r.at;
      ReachesStep(lines, col, row, hi);
      if !r.Short? {
        ColumnTextStep(lines, col, row, hi, digits, next);
      }
    }
  }

  lemma ReachesStep(lines: seq<string>, col: nat, row: nat, hi: nat)
    requires row < hi <= |lines| && col < |lines[row]| && !IsOperatorChar(lines[row][col])
    requires Reaches(lines, col, row + 1, hi)
    ensures Reaches(lines, col, row, hi)
  {
  }

  /** One more row of the column, read into `digits` first or kept in the
      text after it: the same characters either way. */
  lemma ColumnTextStep(lines: seq<string>, col: nat, row: nat, hi: nat, digits: string, next: string)
    requires row < hi <= |lines| && Reaches(lines, col, row, hi)
    requires next == if lines[row][col] != ' ' then digits + [lines[row][col]] else digits
    ensures next + ColumnText(lines, col, row + 1, hi) == digits + ColumnText(lines, col, row, hi)
  {
    var c := lines[row][col];
    assert ColumnText(lines, col, row, hi) == (if c == ' ' then "" else [c]) + ColumnText(lines, col, row + 1, hi);
  }

  function Scan(lines: seq<string>, col: nat): ColumnRead {
    ScanColumn(lines, col, 0, "")
  }

  /** A column's digits, when there are any, become one number. */
  function AddNumber(p: Problem, digits: string): Option<Problem> {
    if digits == "" then Some(p)
    else
      var n :- Atoi(digits);
      Some(p.(nums := p.nums + [n]))
  }

  /** The problems closed so far and the one being filled. */
  datatype Sheet = Sheet(problems: seq<Problem>, current: Problem)

  /** One column applied to the sheet: an operator closes the current
      problem, with the column's number, and starts a fresh one. */
  function ApplyColumn(s: Sheet, read: ColumnRead): Option<Sheet> {
    match read
    case Short(_) => None
    case Closed(op, digits, _) =>
      var p :- AddNumber(s.current.(operator := [op]), digits);
      Some(Sheet(s.problems + [p], Fresh))
    case Open(digits) =>
      var p :- AddNumber(s.current, digits);
      Some(Sheet(s.problems, p))
  }

  /** Columns `col` to `width - 1`, read right to left. */
  function ReadColumns(lines: seq<string>, width: nat, col: nat): Option<Sheet>
    requires col <= width
    decreases width - col
  {
    if col == width then Some(Sheet([], Fresh))
    else
      var s :- ReadColumns(lines, width, col + 1);
      ApplyColumn(s, Scan(lines, col))
  }

  /** A column part 2 cannot read: a short row, or digits that are not a
      number. */
  predicate Unreadable(read: ColumnRead) {
    read.Short? || (!read.Short? && read.digits != "" && Atoi(read.digits).None?)
  }

  function OperatorColumns(lines: seq<string>, width: nat, col: nat): nat
    requires col <= width
    decreases width - col
  {
    if col == width then 0
    else OperatorColumns(lines, width, col + 1) + (if Scan(lines, col).Closed? then 1 else 0)
  }

  function NumberColumns(lines: seq<string>, width: nat, col: nat): nat
    requires col <= width
    decreases width - col
  {
    if col == width then 0
    else
      var read := Scan(lines, col);
      NumberColumns(lines, width, col + 1) + (if !read.Short? && read.digits != "" then 1 else 0)
  }

  function NumberCount(ps: seq<Problem>): nat {
    if |ps| == 0 then 0 else NumberCount(ps[..|ps| - 1]) + |Last(ps).nums|
  }

  lemma NumberCountAppend(ps: seq<Problem>, p: Problem)
    ensures NumberCount(ps + [p]) == NumberCount(ps) + |p.nums|
  {
    assert (ps + [p])[..|ps|] == ps;
  }

  /** One column read into the sheet: it fails exactly on an unreadable
      column, closes one problem on an operator, and adds one number when
      it holds digits. */
  lemma ApplyColumnCounts(s: Sheet, read: ColumnRead)
    requires read.Closed? ==> IsOperatorChar(read.op)
    ensures ApplyColumn(s, read).Some? <==> !Unreadable(read)
    ensures ApplyColumn(s, read).Some? ==>
              var s' := ApplyColumn(s, read).value;
              |s'.problems| == |s.problems| + (if read.Closed? then 1 else 0)
              && NumberCount(s'.problems) + |s'.current.nums|
                 == NumberCount(s.problems) + |s.current.nums| + (if read.digits != "" then 1 else 0)
              && (read.Closed? ==> IsOperator(Last(s'.problems).operator))
              && s'.problems[..|s.problems|] == s.problems
  {
    if read.Closed? && !Unreadable(read) {
      var p := AddNumber(s.current.(operator := [read.op]), read.digits).value;
      NumberCountAppend(s.problems, p);
    }
  }

  /** Columns `col` to `width - 1` can all be read. */
  predicate AllReadable(lines: seq<string>, width: nat, col: nat)
    requires col <= width
    decreases width - col
  {
    col == width || (!Unreadable(Scan(lines, col)) && AllReadable(lines, width, col + 1))
  }

  lemma {:induction false} AllReadableMeaning(lines: seq<string>, width: nat, col: nat)
    requires col <= width
    ensures AllReadable(lines, width, col) <==> forall c :: col <= c < width ==> !Unreadable(Scan(lines, c))
    decreases width - col
  {
    if col < width {
      AllReadableMeaning(lines, width, col + 1);
      if AllReadable(lines, width, col) {
        forall c | col <= c < width
          ensures !Unreadable(Scan(lines, c))
        {
          if c > col {
            assert col + 1 <= c;
          }
        }
      }
    }
  }

  /** Every operator column closes exactly one problem, every column with
      digits adds exactly one number, and the reading fails exactly when
      some column is unreadable. */
  lemma {:induction false} ReadColumnsCounts(lines: seq<string>, width: nat, col: nat)
    requires col <= width
    ensures ReadColumns(lines, width, col).Some? <==> AllReadable(lines, width, col)
    ensures ReadColumns(lines, width, col).Some? ==>
              var s := ReadColumns(lines, width, col).value;
              |s.problems| == OperatorColumns(lines, width, col)
              && NumberCount(s.problems) + |s.current.nums| == NumberColumns(lines, width, col)
              && forall k :: 0 <= k < |s.problems| ==> IsOperator(s.problems[k].operator)
    decreases width - col
  {
    if col < width {
      ReadColumnsCounts(lines, width, col + 1);
      var read := Scan(lines, col);
      if ReadColumns(lines, width, col + 1).Some? {
        var s := ReadColumns(lines, width, col + 1).value;
        assert ReadColumns(lines, width, col) == ApplyColumn(s, read);
        ScanColumnMeaning(lines, col, 0, "");
        ApplyColumnCounts(s, read);
        if ApplyColumn(s, read).Some? {
          var s' := ApplyColumn(s, read).value;
          assert OperatorColumns(lines, width, col)
                 == OperatorColumns(lines, width, col + 1) + (if read.Closed? then 1 else 0);
          assert NumberColumns(lines, width, col)
                 == NumberColumns(lines, width, col + 1) + (if read.digits != "" then 1 else 0);
          forall k | 0 <= k < |s'.problems|
            ensures IsOperator(s'.problems[k].operator)
          {
            if k < |s.problems| {
              assert s'.problems[k] == s'.problems[..|s.problems|][k];
            }
          }
        }
      }
    }
  }

  /** Once a column fails, every reading that includes it fails. */
  lemma {:induction false} ReadColumnsFail(lines: seq<string>, width: nat, lo: nat, col: nat)
    requires lo <= col <= width
    requires ReadColumns(lines, width, col).None?
    ensures ReadColumns(lines, width, lo).None?
    decreases col - lo
  {
    if lo < col {
      ReadColumnsFail(lines, width, lo + 1, col);
    }
  }

  /** Part 2: the grand total of the problems read column by column from
      the right. No answer for no lines (Go indexes the first line) or when
      a column is unreadable. A problem still open after the leftmost
      column is dropped. */
  method Part2(lines: seq<string>) returns (result: Option<int>)
    ensures result.Some? <==> |lines| > 0 && AllReadable(lines, |lines[0]|, 0)
    ensures result.Some? ==>
              ReadColumns(lines, |lines[0]|, 0).Some? &&
              var s := ReadColumns(lines, |lines[0]|, 0).value;
              result.value == Total(s.problems)
              && |s.problems| == OperatorColumns(lines, |lines[0]|, 0)
  {
    if |lines| == 0 {
      return None;
    }
    var width := |lines[0]|;
    ReadColumnsCounts(lines, width, 0);
    var problems: seq<Problem> := [];
    var p := Fresh;
    var currCol := width - 1;
    while currCol >= 0
      invariant -1 <= currCol < width
      invariant ReadColumns(lines, width, currCol + 1) == Some(Sheet(problems, p))
    {
      var next := ApplyColumn(Sheet(problems, p), Scan(lines, currCol));
      assert ReadColumns(lines, width, currCol) == next;
      if next.None? {
        ReadColumnsFail(lines, width, 0, currCol);
        return None;
      }
      problems, p := next.value.problems, next.value.current;
      currCol := currCol - 1;
    }
    var total := Evaluate(problems);
    return Some(total);
  }
}
