/** Day 12, the presents: the input lists numbered shapes, then regions
    "WxH: c0 c1 ..." asking for `ci` presents of shape `i`. A region passes
    the area test when the presents' cells fit in its cells. */
module Day12 {
  import opened Wrappers
  import opened Strings
  import opened Day12Shapes

  /** `Region`: its width, its height, and how many presents of each shape
      it must hold. */
  datatype Region = Region(width: int, height: int, counts: seq<int>)

  // ---- the shapes ----

  /** `dimensionRegex`, `\d+x.+`, searched anywhere in the line: a digit,
      an 'x', then at least one character that is not a line break. */
  predicate IsDimension(line: string) {
    exists k :: 0 <= k < |line| && MatchAt(line, k)
  }

  /** The pattern matches at position `k`. */
  predicate MatchAt(line: string, k: int) {
    0 <= k < |line| - 2 && IsDigit(line[k]) && line[k + 1] == 'x' && line[k + 2] != '\n'
  }

  /** A row of a shape: '#' marks an occupied cell. */
  function ParseRow(l: string): (row: seq<bool>)
    ensures |row| == |l| && forall k :: 0 <= k < |l| ==> (row[k] <==> l[k] == '#')
  {
    seq(|l|, k requires 0 <= k < |l| => l[k] == '#')
  }

  /** The rows below a header: every line from `j` on up to the first
      blank one (or the end), each read after trimming. Returns the rows and
      the index of the blank line. */
  function ReadRows(lines: seq<string>, j: nat): (r: (seq<seq<bool>>, nat))
    requires j <= |lines|
    ensures j <= r.1 <= |lines| && |r.0| == r.1 - j
    decreases |lines| - j
  {
    if j == |lines| || TrimSpace(lines[j]) == "" then ([], j)
    else
      var rest := ReadRows(lines, j + 1);
      ([ParseRow(TrimSpace(lines[j]))] + rest.0, rest.1)
  }

  /** The rows read are the trimmed lines from `j` up to the first blank
      one, which is where reading stops. */
  lemma ReadRowsMeaning(lines: seq<string>, j: nat)
    requires j <= |lines|
    ensures var r := ReadRows(lines, j);
      && (forall k :: j <= k < r.1 ==> TrimSpace(lines[k]) != "" && r.0[k - j] == ParseRow(TrimSpace(lines[k])))
      && (r.1 == |lines| || TrimSpace(lines[r.1]) == "")
    decreases |lines| - j
  {
    var r := ReadRows(lines, j);
    forall k | j <= k < r.1
      ensures TrimSpace(lines[k]) != "" && r.0[k - j] == ParseRow(TrimSpace(lines[k]))
    {
      ReadRowAt(lines, j, k);
    }
    ReadRowsStop(lines, j);
  }

  lemma {:induction false} ReadRowAt(lines: seq<string>, j: nat, k: nat)
    requires j <= |lines| && j <= k < ReadRows(lines, j).1
    ensures TrimSpace(lines[k]) != "" && ReadRows(lines, j).0[k - j] == ParseRow(TrimSpace(lines[k]))
    decreases k - j
  {
    var rest := ReadRows(lines, j + 1);
    var row := ParseRow(TrimSpace(lines[j]));
    assert ReadRows(lines, j) == ([row] + rest.0, rest.1);
    if k > j {
      ReadRowAt(lines, j + 1, k);
      ConsAt(row, rest.0, k - j);
    }
  }

  lemma ConsAt<T>(x: T, s: seq<T>, i: int)
    requires 0 < i <= |s|
    ensures ([x] + s)[i] == s[i - 1]
  {
  }

  lemma {:induction false} ReadRowsStop(lines: seq<string>, j: nat)
    requires j <= |lines|
    ensures var r := ReadRows(lines, j); r.1 == |lines| || TrimSpace(lines[r.1]) == ""
    decreases |lines| - j
  {
    if j < |lines| && TrimSpace(lines[j]) != "" {
      ReadRowsStop(lines, j + 1);
    }
  }

  /** A row shorter than `w` is widened with unoccupied cells; a longer one
      is kept. */
  function Pad(row: seq<bool>, w: nat): (r: seq<bool>)
    ensures |r| == if |row| < w then w else |row|
    ensures forall k :: 0 <= k < |r| ==> (r[k] <==> k < |row| && row[k])
  {
    if |row| < w then row + seq(w - |row|, _ => false) else row
  }

  /** The three turned copies are one, two and three quarter turns of the
      shape. */
  predicate Stored(s: Shape) {
    && Fits(s) && |s.rotations| == 3
    && s.rotations[0] == Rotate(s.(rotations := []))
    && s.rotations[1] == Rotate(s.rotations[0])
    && s.rotations[2] == Rotate(s.rotations[1])
  }

  predicate AllStored(shapes: map<int, Shape>) {
    forall id :: id in shapes ==> Stored(shapes[id])
  }

  /** The shape built from rows read under a header: as tall as the rows,
      as wide as the first row, shorter rows padded. */
  function MakeShape(rows: seq<seq<bool>>): (s: Shape)
    requires |rows| >= 1
    ensures s.height == |rows| && s.width == |rows[0]|
    ensures |s.mask| == |rows| && forall r :: 0 <= r < |rows| ==> s.mask[r] == Pad(rows[r], |rows[0]|)
  {
    var w := |rows[0]|;
    var base := Shape(w, |rows|, seq(|rows|, r requires 0 <= r < |rows| => Pad(rows[r], w)), []);
    var r90 := Rotate(base);
    var r180 := Rotate(r90);
    var r270 := Rotate(r180);
    base.(rotations := [r90, r180, r270])
  }

  /** A shape built from rows fits its mask and carries its three turns. */
  lemma MakeShapeStored(rows: seq<seq<bool>>)
    requires |rows| >= 1
    ensures Stored(MakeShape(rows))
  {
    var s := MakeShape(rows);
    assert Fits(s);
    assert s.(rotations := []) == Shape(s.width, s.height, s.mask, []);
  }

  /** Each turned copy of a stored shape has the shape's area, and one more
      turn of the last copy gives back the shape's cells. */
  lemma StoredTurns(s: Shape)
    requires Stored(s)
    ensures forall k :: 0 <= k < 3 ==> |Cells(s.rotations[k])| == |Cells(s)|
    ensures var back := Rotate(s.rotations[2]);
      back.width == s.width && back.height == s.height
      && forall r, c :: 0 <= r < s.height && 0 <= c < s.width ==> back.mask[r][c] == s.mask[r][c]
  {
    StoredAreas(s);
    StoredBack(s);
  }

  lemma StoredAreas(s: Shape)
    requires Stored(s)
    ensures forall k :: 0 <= k < 3 ==> |Cells(s.rotations[k])| == |Cells(s)|
  {
    var base := s.(rotations := []);
    assert |Cells(base)| == |Cells(s)| by {
      assert Cells(base) == Cells(s);
    }
    RotateArea(base);
    RotateArea(s.rotations[0]);
    RotateArea(s.rotations[1]);
  }

  lemma StoredBack(s: Shape)
    requires Stored(s)
    ensures var back := Rotate(s.rotations[2]);
      back.width == s.width && back.height == s.height
      && forall r, c :: 0 <= r < s.height && 0 <= c < s.width ==> back.mask[r][c] == s.mask[r][c]
  {
    var base := s.(rotations := []);
    RotateFour(base);
  }

  /** The shape phase of `parseAll` from line `i`: skip blank lines, stop at
      the first dimension line, otherwise read a header "id:" and the rows
      below it, and store the shape when there is at least one row. A header
      whose id is not a number panics in Go, which gives `None`. Returns the
      shapes and the line where the regions start. */
  function ParseShapes(lines: seq<string>, i: nat, shapes: map<int, Shape>): (r: Option<(map<int, Shape>, nat)>)
    requires i <= |lines|
    ensures r.Some? ==> i <= r.value.1 <= |lines|
    ensures r.Some? ==> r.value.1 == |lines| || IsDimension(TrimSpace(lines[r.value.1]))
    decreases |lines| - i
  {
    if i == |lines| then Some((shapes, i))
    else
      var line := TrimSpace(lines[i]);
      if line == "" then ParseShapes(lines, i + 1, shapes)
      else if IsDimension(line) then Some((shapes, i))
      else
        var id :- Atoi(TrimSuffix(line, ":"));
        var read := ReadRows(lines, i + 1);
        ParseShapes(lines, read.1, if |read.0| > 0 then shapes[id := MakeShape(read.0)] else shapes)
  }

  /** The shape phase keeps the shapes it started with (under the same ids,
      perhaps replaced) and stores only shapes with their turned copies. */
  lemma {:induction false} ParseShapesStored(lines: seq<string>, i: nat, shapes: map<int, Shape>)
    requires i <= |lines| && AllStored(shapes)
    ensures var r := ParseShapes(lines, i, shapes);
      r.Some? ==> shapes.Keys <= r.value.0.Keys && AllStored(r.value.0)
    decreases |lines| - i
  {
    if i < |lines| {
      var line := TrimSpace(lines[i]);
      if line == "" {
        ParseShapesStored(lines, i + 1, shapes);
      } else if !IsDimension(line) && Atoi(TrimSuffix(line, ":")).Some? {
        var id := Atoi(TrimSuffix(line, ":")).value;
        var read := ReadRows(lines, i + 1);
        if |read.0| > 0 {
          MakeShapeStored(read.0);
        }
        var next := if |read.0| > 0 then shapes[id := MakeShape(read.0)] else shapes;
        ParseShapesStored(lines, read.1, next);
      }
    }
  }

  // ---- the regions ----

  /** The lines the region phase reads: each trimmed, and only those that
      hold a ':' (a blank line holds none, so both of Go's skips are this
      one). */
  function RegionLines(lines: seq<string>): (r: seq<string>)
    ensures |r| <= |lines|
    ensures forall k :: 0 <= k < |r| ==> ':' in r[k]
  {
    if |lines| == 0 then []
    else
      var t := TrimSpace(lines[0]);
      (if ':' in t then [t] else []) + RegionLines(lines[1..])
  }

  /** One region line: "W x H" before the first ':', the counts after it,
      separated by single spaces. A missing dimension or a bad number panics
      in Go, which gives `None`. */
  function ParseRegion(line: string): Option<Region> {
    var parts := SplitFirst(line, ':');
    if |parts| != 2 then None // not reached: `RegionLines` keeps only lines with a ':'
    else
      var dimParts := Split(TrimSpace(parts[0]), 'x');
      if |dimParts| < 2 then None
      else
        var w :- Atoi(dimParts[0]);
        var h :- Atoi(dimParts[1]);
        var counts :- AllSome(Atoi, Split(TrimSpace(parts[1]), ' '));
        Some(Region(w, h, counts))
  }

  function ParseRegions(lines: seq<string>): Option<seq<Region>> {
    AllSome(ParseRegion, RegionLines(lines))
  }

  /** `parseAll`: the shapes by id, then the regions after them. */
  function ParseAll(lines: seq<string>): (r: Option<(map<int, Shape>, seq<Region>)>)
    ensures r.Some? ==> AllStored(r.value.0)
  {
    ParseShapesStored(lines, 0, map[]);
    var shaped :- ParseShapes(lines, 0, map[]);
    var regions :- ParseRegions(lines[shaped.1..]);
    Some((shaped.0, regions))
  }

  // ---- the text of an input ----

  /** A shape as written: its id, then one line of '#' and '.' per row. */
  datatype Block = Block(id: int, rows: seq<string>)

  predicate Picture(row: string) {
    |row| > 0 && forall k :: 0 <= k < |row| ==> row[k] == '#' || row[k] == '.'
  }

  predicate Writable(b: Block) {
    InIntRange(b.id) && |b.rows| >= 1 && forall k :: 0 <= k < |b.rows| ==> Picture(b.rows[k])
  }

  /** The header, the rows and a blank line. */
  function BlockLines(b: Block): seq<string> {
    [Itoa(b.id) + ":"] + b.rows + [""]
  }

  function BlocksLines(bs: seq<Block>): seq<string> {
    if |bs| == 0 then [] else BlockLines(bs[0]) + BlocksLines(bs[1..])
  }

  /** The shape a block describes. */
  function ShapeOf(b: Block): Shape
    requires Writable(b)
  {
    MakeShape(PictureRows(b.rows))
  }

  /** The blocks' shapes added in order, a later id replacing an earlier
      one. */
  function ShapesOf(bs: seq<Block>, shapes: map<int, Shape>): map<int, Shape>
    requires forall k :: 0 <= k < |bs| ==> Writable(bs[k])
  {
    if |bs| == 0 then shapes else ShapesOf(bs[1..], shapes[bs[0].id := ShapeOf(bs[0])])
  }

  /** A region's line: "WxH: c0 c1 ...". */
  function RegionText(reg: Region): string
    requires WritableRegion(reg)
  {
    DimText(reg.width, reg.height) + ": " + CountsText(reg.counts)
  }

  predicate WritableRegion(reg: Region) {
    InIntRange(reg.width) && InIntRange(reg.height) && Numbers(reg.counts)
  }

  function RegionTexts(regs: seq<Region>): (r: seq<string>)
    requires forall k :: 0 <= k < |regs| ==> WritableRegion(regs[k])
    ensures |r| == |regs| && forall k :: 0 <= k < |regs| ==> r[k] == RegionText(regs[k])
  {
    seq(|regs|, k requires 0 <= k < |regs| => RegionText(regs[k]))
  }

  // ---- reading the text back ----

  /** A picture row is its own trimmed form. */
  lemma PictureTrim(row: string)
    requires Picture(row)
    ensures TrimSpace(row) == row
  {
    assert !IsSpace(row[0]) && !IsSpace(row[|row| - 1]);
  }

  /** A header is not a dimension line and reads back as its id. */
  lemma HeaderOf(id: int)
    requires InIntRange(id)
    ensures var h := Itoa(id) + ":";
      TrimSpace(h) == h && h != "" && !IsDimension(h) && Atoi(TrimSuffix(h, ":")) == Some(id)
  {
    var h := Itoa(id) + ":";
    ItoaEnds(id);
    ItoaLacks(id, 'x');
    assert h[0] == Itoa(id)[0];
    assert !IsSpace(h[0]) && !IsSpace(h[|h| - 1]);
    assert 'x' !in h;
    assert h[|h| - 1..] == ":" && h[..|h| - 1] == Itoa(id);
    AtoiItoa(id);
  }

  /** At a header the shape phase reads the rows below it and goes on
      after them. */
  lemma HeaderStep(lines: seq<string>, i: nat, id: int, shapes: map<int, Shape>)
    requires i < |lines| && InIntRange(id) && lines[i] == Itoa(id) + ":"
    ensures var read := ReadRows(lines, i + 1);
      ParseShapes(lines, i, shapes) == ParseShapes(lines, read.1, if |read.0| > 0 then shapes[id := MakeShape(read.0)] else shapes)
  {
    HeaderOf(id);
  }

  /** The shape phase skips a blank line. */
  lemma BlankStep(lines: seq<string>, j: nat, shapes: map<int, Shape>)
    requires j < |lines| && TrimSpace(lines[j]) == ""
    ensures ParseShapes(lines, j, shapes) == ParseShapes(lines, j + 1, shapes)
  {
  }

  /** The rows a picture's lines read as. */
  function PictureRows(rows: seq<string>): (r: seq<seq<bool>>)
    ensures |r| == |rows| && forall k :: 0 <= k < |rows| ==> r[k] == ParseRow(rows[k])
  {
    seq(|rows|, k requires 0 <= k < |rows| => ParseRow(rows[k]))
  }

  /** Picture lines up to a blank line are read as the picture's rows. */
  lemma {:induction false} ReadPicture(lines: seq<string>, j: nat, rows: seq<string>)
    requires j + |rows| < |lines| && lines[j + |rows|] == ""
    requires forall k :: 0 <= k < |rows| ==> Picture(rows[k]) && lines[j + k] == rows[k]
    ensures ReadRows(lines, j) == (PictureRows(rows), j + |rows|)
    decreases |rows|
  {
    if |rows| == 0 {
      assert TrimSpace(lines[j]) == "";
    } else {
      PictureTrim(rows[0]);
      assert lines[j] == rows[0];
      ReadPicture(lines, j + 1, rows[1..]);
      assert [ParseRow(rows[0])] + PictureRows(rows[1..]) == PictureRows(rows);
    }
  }

  /** A block takes a line for its header, one per row and a blank one. */
  lemma BlockLinesSize(b: Block)
    ensures |BlockLines(b)| == |b.rows| + 2
  {
  }

  /** The rows below a block's header read as its picture. */
  lemma BlockRows(lines: seq<string>, i: nat, b: Block)
    requires Writable(b) && i + |b.rows| + 2 <= |lines|
    requires lines[i + 1 + |b.rows|] == ""
    requires forall k :: 0 <= k < |b.rows| ==> lines[i + 1 + k] == b.rows[k]
    ensures ReadRows(lines, i + 1) == (PictureRows(b.rows), i + 1 + |b.rows|)
  {
    forall k | 0 <= k < |b.rows|
      ensures Picture(b.rows[k]) && lines[(i + 1) + k] == b.rows[k]
    {
    }
    ReadPicture(lines, i + 1, b.rows);
  }

  /** Reading a block from its header line on: the header, the rows up to
      the blank line, then the blank line; the shape phase goes on after it
      with the block's shape stored. */
  lemma ParseBlock(lines: seq<string>, i: nat, b: Block, shapes: map<int, Shape>)
    requires Writable(b) && i + |b.rows| + 2 <= |lines|
    requires lines[i] == Itoa(b.id) + ":" && lines[i + 1 + |b.rows|] == ""
    requires forall k :: 0 <= k < |b.rows| ==> lines[i + 1 + k] == b.rows[k]
    ensures ParseShapes(lines, i, shapes) == ParseShapes(lines, i + |b.rows| + 2, shapes[b.id := ShapeOf(b)])
  {
    var j := i + 1 + |b.rows|;
    var stored := shapes[b.id := ShapeOf(b)];
    assert ParseShapes(lines, j, stored) == ParseShapes(lines, j + 1, stored) by {
      assert TrimSpace(lines[j]) == "";
      BlankStep(lines, j, stored);
    }
    assert ParseShapes(lines, i, shapes) == ParseShapes(lines, j, stored) by {
      var read := ReadRows(lines, i + 1);
      BlockRows(lines, i, b);
      assert |read.0| > 0 && MakeShape(read.0) == ShapeOf(b);
      HeaderStep(lines, i, b.id, shapes);
    }
  }

  /** The lines from `i` on begin with `text`. */
  predicate LinesFrom(lines: seq<string>, i: nat, text: seq<string>) {
    i + |text| <= |lines| && forall k {:trigger text[k]} :: 0 <= k < |text| ==> lines[i + k] == text[k]
  }

  /** Where a block's lines sit when they start at line `i`. */
  lemma BlockAt(lines: seq<string>, i: nat, b: Block, rest: seq<string>)
    requires LinesFrom(lines, i, BlockLines(b) + rest)
    ensures i + |b.rows| + 2 <= |lines|
    ensures lines[i] == Itoa(b.id) + ":" && lines[i + 1 + |b.rows|] == ""
    ensures forall k :: 0 <= k < |b.rows| ==> lines[i + 1 + k] == b.rows[k]
  {
    var n := |b.rows|;
    var text := BlockLines(b) + rest;
    assert lines[i + 0] == text[0] && lines[i + (n + 1)] == text[n + 1];
    forall k | 0 <= k < n
      ensures lines[i + 1 + k] == b.rows[k]
    {
      assert lines[i + (1 + k)] == text[1 + k];
    }
  }

  /** Lines that begin with `a + c` go on with `c` after `a`. */
  lemma LinesFromRest(lines: seq<string>, i: nat, a: seq<string>, c: seq<string>)
    requires LinesFrom(lines, i, a + c)
    ensures LinesFrom(lines, i + |a|, c)
  {
    forall k | 0 <= k < |c|
      ensures lines[i + |a| + k] == c[k]
    {
      assert lines[i + (|a| + k)] == (a + c)[|a| + k];
    }
  }

  /** The blocks' lines are the first block's, then the rest's. */
  lemma BlocksLinesFirst(bs: seq<Block>)
    requires |bs| > 0
    ensures BlocksLines(bs) == BlockLines(bs[0]) + BlocksLines(bs[1..])
    ensures |BlocksLines(bs)| == |bs[0].rows| + 2 + |BlocksLines(bs[1..])|
  {
    BlockLinesSize(bs[0]);
  }

  /** Reading a block that the lines from `i` on begin with. */
  lemma ParseBlockFrom(lines: seq<string>, i: nat, b: Block, rest: seq<string>, shapes: map<int, Shape>)
    requires Writable(b) && LinesFrom(lines, i, BlockLines(b) + rest)
    ensures ParseShapes(lines, i, shapes) == ParseShapes(lines, i + |b.rows| + 2, shapes[b.id := ShapeOf(b)])
  {
    BlockAt(lines, i, b, rest);
    ParseBlock(lines, i, b, shapes);
  }

  /** Reading consecutive blocks stores each of their shapes in turn; the
      shape phase goes on at `e`, just after the last one. */
  lemma {:induction false} ParseBlocks(lines: seq<string>, i: nat, e: nat, bs: seq<Block>, shapes: map<int, Shape>)
    requires forall k :: 0 <= k < |bs| ==> Writable(bs[k])
    requires e == i + |BlocksLines(bs)| && LinesFrom(lines, i, BlocksLines(bs))
    ensures ParseShapes(lines, i, shapes) == ParseShapes(lines, e, ShapesOf(bs, shapes))
    decreases |bs|
  {
    if |bs| > 0 {
      var b := bs[0];
      var m := i + |b.rows| + 2;
      var next := shapes[b.id := ShapeOf(b)];
      assert e == m + |BlocksLines(bs[1..])| && LinesFrom(lines, m, BlocksLines(bs[1..])) by {
        BlocksLinesFirst(bs);
        BlockLinesSize(b);
        LinesFromRest(lines, i, BlockLines(b), BlocksLines(bs[1..]));
      }
      assert LinesFrom(lines, i, BlockLines(b) + BlocksLines(bs[1..])) by {
        BlocksLinesFirst(bs);
      }
      ParseBlockFrom(lines, i, b, BlocksLines(bs[1..]), shapes);
      ParseBlocks(lines, m, e, bs[1..], next);
    }
  }

  /** The width and height part of a region's line. */
  function DimText(w: int, h: int): string {
    Itoa(w) + "x" + Itoa(h)
  }

  /** The counts part of a region's line. */
  function CountsText(counts: seq<int>): string
    requires |counts| >= 1
  {
    Join(Itoas(counts), ' ')
  }

  /** The counts' text neither starts nor ends with white space. */
  lemma CountsTextEnds(counts: seq<int>)
    requires |counts| >= 1
    ensures var j := CountsText(counts); |j| > 0 && !IsSpace(j[0]) && IsDigit(j[|j| - 1])
  {
    var texts := Itoas(counts);
    forall k | 0 <= k < |texts|
      ensures |texts[k]| > 0
    {
      ItoaEnds(counts[k]);
    }
    ItoaEnds(counts[0]);
    ItoaEnds(counts[|texts| - 1]);
    JoinEnds(texts, ' ');
  }

  /** A region's line splits at its first ':' into the dimension and the
      counts behind one blank. */
  lemma RegionSplit(reg: Region)
    requires WritableRegion(reg)
    ensures RegionText(reg) == DimText(reg.width, reg.height) + ":" + " " + CountsText(reg.counts)
    ensures SplitFirst(RegionText(reg), ':') == [DimText(reg.width, reg.height), " " + CountsText(reg.counts)]
  {
    var dim, counts := DimText(reg.width, reg.height), CountsText(reg.counts);
    assert ':' !in dim by {
      ItoaLacks(reg.width, ':');
      ItoaLacks(reg.height, ':');
    }
    assert RegionText(reg) == dim + [':'] + (" " + counts);
    SplitFirstAt(RegionText(reg), dim, " " + counts, ':');
  }

  /** The dimension reads back as the width and the height. */
  lemma ParseDimText(w: int, h: int)
    requires InIntRange(w) && InIntRange(h)
    ensures var parts := Split(TrimSpace(DimText(w, h)), 'x');
      |parts| >= 2 && Atoi(parts[0]) == Some(w) && Atoi(parts[1]) == Some(h)
  {
    var a, b := Itoa(w), Itoa(h);
    var dim := DimText(w, h);
    ItoaEnds(w);
    ItoaEnds(h);
    assert dim[0] == a[0] && dim[|dim| - 1] == b[|b| - 1];
    ItoaLacks(w, 'x');
    ItoaLacks(h, 'x');
    assert TrimSpace(dim) == dim;
    JoinTwo(a, b, 'x');
    assert Join([a, b], 'x') == dim;
    SplitJoin([a, b], 'x');
    var parts := Split(dim, 'x');
    assert parts[0] == a && parts[1] == b;
    AtoiItoa(w);
    AtoiItoa(h);
  }

  /** The counts behind the blank read back as the counts. */
  lemma ParseCountsText(counts: seq<int>)
    requires Numbers(counts)
    ensures AllSome(Atoi, Split(TrimSpace(" " + CountsText(counts)), ' ')) == Some(counts)
  {
    CountsTextEnds(counts);
    TrimSpaceAfterBlank(CountsText(counts));
    ParseItoas(counts, ' ');
  }

  /** A region's line reads back as the region. */
  lemma ParseRegionText(reg: Region)
    requires WritableRegion(reg)
    ensures ParseRegion(RegionText(reg)) == Some(reg)
  {
    RegionSplit(reg);
    ParseDimText(reg.width, reg.height);
    ParseCountsText(reg.counts);
  }

  /** The dimension text starts with a digit or a minus sign, holds no ':',
      and has an 'x' right after the width's last digit, then the height's
      first character. */
  lemma DimTextForm(w: int, h: int)
    ensures var d, k := DimText(w, h), |Itoa(w)| - 1;
      && 0 <= k < |d| - 2 && !IsSpace(d[0]) && ':' !in d
      && IsDigit(d[k]) && d[k + 1] == 'x' && d[k + 2] != '\n'
  {
    var a, b := Itoa(w), Itoa(h);
    ItoaEnds(w);
    ItoaEnds(h);
    ItoaLacks(w, ':');
    ItoaLacks(h, ':');
    var d := DimText(w, h);
    var k := |a| - 1;
    assert d[0] == a[0] && d[k] == a[k] && d[k + 1] == 'x' && d[k + 2] == b[0];
  }

  /** A dimension and counts of that form, joined by ": ", make a trimmed
      line that holds a ':' and matches the dimension pattern. */
  lemma JoinedForm(d: string, j: string, k: int)
    requires 0 <= k < |d| - 2 && !IsSpace(d[0]) && IsDigit(d[k]) && d[k + 1] == 'x' && d[k + 2] != '\n'
    requires |j| > 0 && !IsSpace(j[|j| - 1])
    ensures var line := d + ": " + j;
      TrimSpace(line) == line && ':' in line && IsDimension(line)
  {
    var line := d + ": " + j;
    assert line[0] == d[0] && line[|line| - 1] == j[|j| - 1];
    assert line[k] == d[k] && line[k + 1] == d[k + 1] && line[k + 2] == d[k + 2];
    assert MatchAt(line, k);
    assert line[|d|] == ':';
  }

  /** A region's line is its own trimmed form, holds a ':', and matches the
      dimension pattern, so the shape phase stops at it. */
  lemma RegionTextForm(reg: Region)
    requires WritableRegion(reg)
    ensures var line := RegionText(reg);
      TrimSpace(line) == line && ':' in line && IsDimension(line)
  {
    DimTextForm(reg.width, reg.height);
    CountsTextEnds(reg.counts);
    JoinedForm(DimText(reg.width, reg.height), CountsText(reg.counts), |Itoa(reg.width)| - 1);
  }

  /** Region lines read back as their regions. */
  lemma ParseRegionTexts(regs: seq<Region>)
    requires forall k :: 0 <= k < |regs| ==> WritableRegion(regs[k])
    ensures ParseRegions(RegionTexts(regs)) == Some(regs)
  {
    var texts := RegionTexts(regs);
    assert RegionLines(texts) == texts by {
      forall k | 0 <= k < |texts|
        ensures TrimSpace(texts[k]) == texts[k] && ':' in texts[k]
      {
        RegionTextForm(regs[k]);
      }
      RegionLinesKept(texts);
    }
    assert AllSome(ParseRegion, texts) == Some(regs) by {
      forall k | 0 <= k < |texts|
        ensures ParseRegion(texts[k]) == Some(regs[k])
      {
        ParseRegionText(regs[k]);
      }
      AllSomeEach(ParseRegion, texts, regs);
    }
  }

  /** Lines that are trimmed and hold a ':' are all kept. */
  lemma {:induction false} RegionLinesKept(lines: seq<string>)
    requires forall k :: 0 <= k < |lines| ==> TrimSpace(lines[k]) == lines[k] && ':' in lines[k]
    ensures RegionLines(lines) == lines
    decreases |lines|
  {
    if |lines| > 0 {
      RegionLinesKept(lines[1..]);
      assert [lines[0]] + lines[1..] == lines;
    }
  }

  /** The shape phase stops at the first region line, or at the end. */
  lemma RegionsStop(lines: seq<string>, n: nat, regs: seq<Region>, shapes: map<int, Shape>)
    requires forall k :: 0 <= k < |regs| ==> WritableRegion(regs[k])
    requires n <= |lines| && lines[n..] == RegionTexts(regs)
    ensures ParseShapes(lines, n, shapes) == Some((shapes, n))
  {
    if |regs| > 0 {
      RegionTextForm(regs[0]);
      assert lines[n] == lines[n..][0];
    }
  }

  /** On a whole input the shape phase reads every block and stops where
      the region lines start. */
  lemma ShapePhaseText(bs: seq<Block>, regs: seq<Region>)
    requires forall k :: 0 <= k < |bs| ==> Writable(bs[k])
    requires forall k :: 0 <= k < |regs| ==> WritableRegion(regs[k])
    ensures var lines := BlocksLines(bs) + RegionTexts(regs);
      ParseShapes(lines, 0, map[]) == Some((ShapesOf(bs, map[]), |BlocksLines(bs)|))
  {
    var head := BlocksLines(bs);
    var lines := head + RegionTexts(regs);
    var n := |head|;
    var shapes := ShapesOf(bs, map[]);
    assert ParseShapes(lines, 0, map[]) == ParseShapes(lines, n, shapes) by {
      assert LinesFrom(lines, 0, head) by {
        assert forall k :: 0 <= k < n ==> lines[0 + k] == head[k];
      }
      ParseBlocks(lines, 0, n, bs, map[]);
    }
    assert lines[n..] == RegionTexts(regs);
    RegionsStop(lines, n, regs, shapes);
  }

  /** `parseAll` gives what its two phases give. */
  lemma ParseAllOf(lines: seq<string>, n: nat, shapes: map<int, Shape>, regs: seq<Region>)
    requires ParseShapes(lines, 0, map[]) == Some((shapes, n))
    requires n <= |lines| && ParseRegions(lines[n..]) == Some(regs)
    ensures ParseAll(lines) == Some((shapes, regs))
  {
  }

  /** A whole input, shapes then regions, reads back as the blocks' shapes
      and the regions. */
  lemma ParseAllText(bs: seq<Block>, regs: seq<Region>)
    requires forall k :: 0 <= k < |bs| ==> Writable(bs[k])
    requires forall k :: 0 <= k < |regs| ==> WritableRegion(regs[k])
    ensures ParseAll(BlocksLines(bs) + RegionTexts(regs)) == Some((ShapesOf(bs, map[]), regs))
  {
    var lines := BlocksLines(bs) + RegionTexts(regs);
    var n := |BlocksLines(bs)|;
    ShapePhaseText(bs, regs);
    assert ParseRegions(lines[n..]) == Some(regs) by {
      assert lines[n..] == RegionTexts(regs);
      ParseRegionTexts(regs);
    }
    ParseAllOf(lines, n, ShapesOf(bs, map[]), regs);
  }

  // ---- the area test ----

  /** Every shape a region asks for at least once has been read. */
  predicate Known(counts: seq<int>, shapes: map<int, Shape>) {
    forall idx :: 0 <= idx < |counts| && counts[idx] > 0 ==> idx in shapes
  }

  predicate AllFit(shapes: map<int, Shape>) {
    forall id :: id in shapes ==> Fits(shapes[id])
  }

  /** The cells the presents cover together: each shape's area times how
      many of it are asked for, counting only positive counts. */
  ghost function Demand(counts: seq<int>, shapes: map<int, Shape>): int
    requires Known(counts, shapes) && AllFit(shapes)
  {
    if |counts| == 0 then 0
    else
      var idx := |counts| - 1;
      var init := counts[..idx];
      assert Known(init, shapes);
      Demand(init, shapes) + if counts[idx] > 0 then |Cells(shapes[idx])| * counts[idx] else 0
  }

  /** No present covers a negative number of cells. */
  lemma {:induction false} DemandNonNegative(counts: seq<int>, shapes: map<int, Shape>)
    requires Known(counts, shapes) && AllFit(shapes)
    ensures Demand(counts, shapes) >= 0
    decreases |counts|
  {
    if |counts| > 0 {
      var idx := |counts| - 1;
      assert Known(counts[..idx], shapes);
      DemandNonNegative(counts[..idx], shapes);
    }
  }

  /** `regionFeasibleByArea`: whether the presents' cells fit in the
      region's cells. A missing shape the region asks for is a nil shape in
      Go, whose area panics, which gives `None`. */
  method RegionFeasibleByArea(reg: Region, shapes: map<int, Shape>) returns (r: Option<bool>)
    requires AllFit(shapes)
    ensures r.Some? <==> Known(reg.counts, shapes)
    ensures r.Some? ==> (r.value <==> Demand(reg.counts, shapes) <= reg.width * reg.height)
  {
    var total := 0;
    for idx := 0 to |reg.counts|
      invariant Known(reg.counts[..idx], shapes)
      invariant total == Demand(reg.counts[..idx], shapes)
    {
      var count := reg.counts[idx];
      assert reg.counts[..idx + 1][..idx] == reg.counts[..idx];
      if count <= 0 {
        continue;
      }
      if idx !in shapes {
        return None;
      }
      var area := ShapeArea(shapes[idx]);
      total := total + area * count;
    }
    assert reg.counts[..|reg.counts|] == reg.counts;
    return Some(total <= reg.width * reg.height);
  }

  /** A region passes the area test. */
  ghost predicate AreaFits(reg: Region, shapes: map<int, Shape>)
    requires Known(reg.counts, shapes) && AllFit(shapes)
  {
    Demand(reg.counts, shapes) <= reg.width * reg.height
  }

  /** Each of the first `n` regions asks only for shapes that were read. */
  predicate KnownUpTo(regions: seq<Region>, shapes: map<int, Shape>, n: nat) {
    n <= |regions| && forall i :: 0 <= i < n ==> Known(regions[i].counts, shapes)
  }

  /** The regions among the first `n` that pass the area test. */
  ghost function Passing(regions: seq<Region>, shapes: map<int, Shape>, n: nat): set<int>
    requires KnownUpTo(regions, shapes, n) && AllFit(shapes)
  {
    set i | 0 <= i < n && AreaFits(regions[i], shapes)
  }

  /** One more region adds itself to the passing ones exactly when it
      passes. */
  lemma PassingStep(regions: seq<Region>, shapes: map<int, Shape>, n: nat)
    requires KnownUpTo(regions, shapes, n + 1) && AllFit(shapes)
    ensures Passing(regions, shapes, n + 1) ==
      Passing(regions, shapes, n) + if AreaFits(regions[n], shapes) then {n} else {}
  {
  }

  /** `part1`: the number of regions that pass the area test. A parse
      failure or a region asking for a missing shape panics in Go, which
      gives `None`. */
  method Part1(lines: seq<string>) returns (result: Option<int>)
    ensures ParseAll(lines).None? ==> result.None?
    ensures ParseAll(lines).Some? ==>
      (var (shapes, regions) := ParseAll(lines).value;
       result.Some? <==> KnownUpTo(regions, shapes, |regions|))
    ensures result.Some? ==> ParseAll(lines).Some?
    ensures result.Some? ==>
      (var (shapes, regions) := ParseAll(lines).value;
       AllFit(shapes) && KnownUpTo(regions, shapes, |regions|) && result.value == |Passing(regions, shapes, |regions|)|)
  {
    var parsed := ParseAll(lines);
    if parsed.None? {
      return None;
    }
    var (shapes, regions) := parsed.value;
    var count := 0;
    for i := 0 to |regions|
      invariant KnownUpTo(regions, shapes, i)
      invariant count == |Passing(regions, shapes, i)|
    {
      var feasible := RegionFeasibleByArea(regions[i], shapes);
      if feasible.None? {
        return None;
      }
      PassingStep(regions, shapes, i);
      if feasible.value {
        count := count + 1;
      }
    }
    return Some(count);
  }
}
