/** Day 12, the presents: a shape is a mask of occupied cells, `height`
    rows of `width` cells each, turned a quarter at a time. */
module Day12Shapes {

  /** `Shape`: a mask and the three turned copies the parser stores with
      it. A turned copy carries no copies of its own. */
  datatype Shape = Shape(width: int, height: int, mask: seq<seq<bool>>, rotations: seq<Shape>)

  /** Every cell `rotateShape` and `shapeArea` read lies in the mask. */
  predicate Fits(s: Shape) {
    && s.width >= 0 && s.height >= 0 && |s.mask| >= s.height
    && forall r :: 0 <= r < s.height ==> |s.mask[r]| >= s.width
  }

  /** The mask is exactly `height` rows of `width` cells. */
  predicate Exact(s: Shape) {
    && s.width >= 0 && s.height == |s.mask|
    && forall r :: 0 <= r < s.height ==> |s.mask[r]| == s.width
  }

  // ---- rotation ----

  /** A quarter turn: the dimensions swap, and the cell in row `r`,
      column `c` moves to row `c`, column `height - 1 - r`. */
  function Rotate(s: Shape): (t: Shape)
    requires Fits(s)
    ensures Exact(t) && Fits(t) && t.width == s.height && t.height == s.width && t.rotations == []
  {
    var mask := seq(s.width, c requires 0 <= c < s.width =>
                  seq(s.height, k requires 0 <= k < s.height => s.mask[s.height - 1 - k][c]));
    Shape(s.height, s.width, mask, [])
  }

  /** Where a quarter turn puts each cell, as `rotateShape` writes it. */
  lemma RotateCell(s: Shape)
    requires Fits(s)
    ensures forall r, c :: 0 <= r < s.height && 0 <= c < s.width ==> Rotate(s).mask[c][s.height - 1 - r] == s.mask[r][c]
  {
    var t := Rotate(s);
    forall r, c | 0 <= r < s.height && 0 <= c < s.width
      ensures t.mask[c][s.height - 1 - r] == s.mask[r][c]
    {
      assert s.height - 1 - (s.height - 1 - r) == r;
    }
  }

  /** Two quarter turns: the cell in row `r`, column `c` comes from row
      `height - 1 - r`, column `width - 1 - c`. */
  lemma RotateTwice(s: Shape)
    requires Fits(s)
    ensures var t := Rotate(Rotate(s));
      && t.width == s.width && t.height == s.height
      && forall r, c :: 0 <= r < s.height && 0 <= c < s.width ==> t.mask[r][c] == s.mask[s.height - 1 - r][s.width - 1 - c]
  {
    var once := Rotate(s);
    var t := Rotate(once);
    RotateCell(s);
    RotateCell(once);
    forall r, c | 0 <= r < s.height && 0 <= c < s.width
      ensures t.mask[r][c] == s.mask[s.height - 1 - r][s.width - 1 - c]
    {
      assert t.mask[r][once.height - 1 - (once.height - 1 - c)] == once.mask[once.height - 1 - c][r];
      assert once.mask[once.height - 1 - c][s.height - 1 - (s.height - 1 - r)] == s.mask[s.height - 1 - r][once.height - 1 - c];
    }
  }

  /** Four quarter turns give back the mask: exactly the original shape
      when its mask is exact and it carries no turned copies. */
  lemma RotateFour(s: Shape)
    requires Fits(s)
    ensures var t := Rotate(Rotate(Rotate(Rotate(s))));
      && Exact(t) && t.width == s.width && t.height == s.height
      && (forall r, c :: 0 <= r < s.height && 0 <= c < s.width ==> t.mask[r][c] == s.mask[r][c])
      && (Exact(s) && s.rotations == [] ==> t == s)
  {
    var half := Rotate(Rotate(s));
    var t := Rotate(Rotate(half));
    RotateTwice(s);
    RotateTwice(half);
    if Exact(s) && s.rotations == [] {
      assert forall r :: 0 <= r < s.height ==> t.mask[r] == s.mask[r];
      assert t.mask == s.mask;
    }
  }

  /** The cells `rotateShape` has written after the first `rows` rows of
      the source: each written one holds its source cell, the rest are
      still false. */
  ghost predicate Written(s: Shape, mask: seq<seq<bool>>, rows: int, cols: int)
    requires Fits(s)
  {
    && |mask| == s.width && (forall c :: 0 <= c < s.width ==> |mask[c]| == s.height)
    && forall c, k :: 0 <= c < s.width && 0 <= k < s.height ==>
         mask[c][k] == if s.height - 1 - k < rows || (s.height - 1 - k == rows && c < cols)
                       then s.mask[s.height - 1 - k][c] else false
  }

  /** The inner loop of `rotateShape` over row `r` of the source. */
  method RotateRow(s: Shape, r: int, mask: seq<seq<bool>>) returns (mask': seq<seq<bool>>)
    requires Fits(s) && 0 <= r < s.height && Written(s, mask, r, 0)
    ensures Written(s, mask', r + 1, 0)
  {
    mask' := mask;
    for c := 0 to s.width
      invariant Written(s, mask', r, c)
    {
      mask' := mask'[c := mask'[c][s.height - 1 - r := s.mask[r][c]]];
    }
  }

  /** `rotateShape`: a fresh all-false mask, then one write per source
      cell. */
  method RotateShape(s: Shape) returns (t: Shape)
    requires Fits(s)
    ensures t == Rotate(s)
  {
    var mask := seq(s.width, _ => seq(s.height, _ => false));
    for r := 0 to s.height
      invariant Written(s, mask, r, 0)
    {
      mask := RotateRow(s, r, mask);
    }
    t := Shape(s.height, s.width, mask, []);
    assert forall c :: 0 <= c < s.width ==> t.mask[c] == Rotate(s).mask[c];
  }

  // ---- area ----

  /** The occupied cells, as (row, column) pairs. */
  ghost function Cells(s: Shape): set<(int, int)>
    requires Fits(s)
  {
    set r, c | 0 <= r < s.height && 0 <= c < s.width && s.mask[r][c] :: (r, c)
  }

  /** The occupied cells before row `r`, column `c` in reading order. */
  ghost function CellsBefore(s: Shape, r: int, c: int): set<(int, int)>
    requires Fits(s)
  {
    set p | p in Cells(s) && (p.0 < r || (p.0 == r && p.1 < c))
  }

  /** The inner loop of `shapeArea` over row `r`. */
  method CountRow(s: Shape, r: int, count: int) returns (count': int)
    requires Fits(s) && 0 <= r < s.height && count == |CellsBefore(s, r, 0)|
    ensures count' == |CellsBefore(s, r + 1, 0)|
  {
    count' := count;
    for c := 0 to s.width
      invariant count' == |CellsBefore(s, r, c)|
    {
      if s.mask[r][c] {
        assert CellsBefore(s, r, c + 1) == CellsBefore(s, r, c) + {(r, c)};
        count' := count' + 1;
      } else {
        assert CellsBefore(s, r, c + 1) == CellsBefore(s, r, c);
      }
    }
    assert CellsBefore(s, r, s.width) == CellsBefore(s, r + 1, 0);
  }

  /** `shapeArea`: the number of occupied cells. */
  method ShapeArea(s: Shape) returns (count: int)
    requires Fits(s)
    ensures count == |Cells(s)|
  {
    count := 0;
    assert CellsBefore(s, 0, 0) == {};
    for r := 0 to s.height
      invariant count == |CellsBefore(s, r, 0)|
    {
      count := CountRow(s, r, count);
    }
    assert CellsBefore(s, s.height, 0) == Cells(s);
  }

  /** Every cell of a `height` by `width` box. */
  ghost function Box(height: int, width: int): set<(int, int)> {
    set r, c | 0 <= r < height && 0 <= c < width :: (r, c)
  }

  /** The cells of row `r` of a box `width` wide. */
  ghost function RowCells(r: int, width: int): set<(int, int)> {
    set c | 0 <= c < width :: (r, c)
  }

  lemma {:induction false} RowSize(r: int, width: nat)
    ensures |RowCells(r, width)| == width
    decreases width
  {
    if width > 0 {
      assert RowCells(r, width) == RowCells(r, width - 1) + {(r, width - 1)};
      RowSize(r, width - 1);
    } else {
      assert RowCells(r, width) == {};
    }
  }

  lemma {:induction false} BoxSize(height: nat, width: nat)
    ensures |Box(height, width)| == height * width
    decreases height
  {
    if height > 0 {
      BoxSplit(height, width);
      BoxSize(height - 1, width);
      RowSize(height - 1, width);
      assert height * width == (height - 1) * width + width;
    } else {
      assert Box(height, width) == {};
    }
  }

  /** A box is the box one row shorter and its last row, which share no
      cell. */
  lemma BoxSplit(height: nat, width: nat)
    requires height > 0
    ensures |Box(height, width)| == |Box(height - 1, width)| + |RowCells(height - 1, width)|
  {
    var top, row := Box(height - 1, width), RowCells(height - 1, width);
    assert Box(height, width) == top + row by {
      forall p | p in Box(height, width)
        ensures p in top + row
      {
        if p.0 < height - 1 { assert p in top; } else { assert p in row; }
      }
    }
    assert top * row == {} by {
      forall p | p in row
        ensures p !in top
      { }
    }
  }

  lemma SubsetSize<T>(a: set<T>, b: set<T>)
    requires a <= b
    ensures |a| <= |b|
  {
    assert b == a + (b - a);
  }

  /** The area is between none and all of the cells of the box. */
  lemma AreaBounds(s: Shape)
    requires Fits(s)
    ensures 0 <= |Cells(s)| <= s.width * s.height
  {
    assert Cells(s) <= Box(s.height, s.width);
    SubsetSize(Cells(s), Box(s.height, s.width));
    BoxSize(s.height, s.width);
  }

  /** Where a quarter turn moves a cell. */
  function Turn(p: (int, int), height: int): (int, int) {
    (p.1, height - 1 - p.0)
  }

  /** A quarter turn moves distinct cells to distinct cells, so it keeps
      their number. */
  lemma {:induction false} TurnSize(cells: set<(int, int)>, height: int)
    ensures |set p | p in cells :: Turn(p, height)| == |cells|
    decreases |cells|
  {
    if cells != {} {
      var x :| x in cells;
      var rest := cells - {x};
      TurnSize(rest, height);
      assert (set p | p in cells :: Turn(p, height)) == (set p | p in rest :: Turn(p, height)) + {Turn(x, height)};
      assert Turn(x, height) !in (set p | p in rest :: Turn(p, height));
    } else {
      assert (set p | p in cells :: Turn(p, height)) == {};
    }
  }

  /** A quarter turn keeps the area. */
  lemma RotateArea(s: Shape)
    requires Fits(s)
    ensures |Cells(Rotate(s))| == |Cells(s)|
  {
    var t := Rotate(s);
    RotateCell(s);
    assert Cells(t) == set p | p in Cells(s) :: Turn(p, s.height) by {
      forall q | q in Cells(t)
        ensures q in set p | p in Cells(s) :: Turn(p, s.height)
      {
        assert Turn((s.height - 1 - q.1, q.0), s.height) == q;
      }
    }
    TurnSize(Cells(s), s.height);
  }
}
