/** The two grid kinds behind `util.GridInterface`: a dense grid of rows of
    runes with explicit width and height, and a sparse grid keyed by
    coordinate that tracks the bounding box of the cells set so far.

    Go's optional `CostFunc` and `ValidFunc` callbacks receive the whole
    grid; here they receive its cell store, which is what the repository's
    callbacks read. */
module PathGrids {
  import opened Wrappers
  import opened Coordinates
  import opened Walks

  datatype Store =
    | Dense(width: int, height: int, rows: seq<seq<char>>)
    | Sparse(cells: map<Coordinate, char>, minX: int, maxX: int, minY: int, maxY: int)

  type CostFunc = (Store, Coordinate, Coordinate) -> int
  type ValidFunc = (Store, Coordinate) -> bool

  datatype Grid = Grid(store: Store, directions: seq<Coordinate>,
                       costFunc: Option<CostFunc>, validFunc: Option<ValidFunc>)

  const Blocked: char := '#'
  const MaxInt32: int := 0x7fff_ffff
  const MinInt32: int := -0x8000_0000

  /** A dense grid whose rows reach every in-bounds cell; reading any other
      cell panics in Go. */
  predicate WellFormed(g: Grid) {
    g.store.Dense? ==>
      g.store.height <= |g.store.rows|
      && forall y :: 0 <= y < g.store.height ==> g.store.width <= |g.store.rows[y]|
  }

  predicate InBounds(s: Store, pos: Coordinate)
    requires s.Dense?
  {
    0 <= pos.x < s.width && 0 <= pos.y < s.height
  }

  /** Reading `pos` cannot panic: on a dense grid an in-bounds cell lies
      inside the rows. A well-formed grid has every cell. */
  predicate HasCell(g: Grid, pos: Coordinate) {
    g.store.Dense? && InBounds(g.store, pos) ==>
      pos.y < |g.store.rows| && pos.x < |g.store.rows[pos.y]|
  }

  /** What `IsValid` reads of `pos`: the cell itself only without a
      `ValidFunc`. */
  predicate CanCheck(g: Grid, pos: Coordinate) {
    g.validFunc.None? ==> HasCell(g, pos)
  }

  // ---- constructors ----

  function NewDenseGrid(width: int, height: int, rows: seq<seq<char>>): (g: Grid)
    ensures g.store == Dense(width, height, rows) && g.directions == Directions4
    ensures g.costFunc.None? && g.validFunc.None?
  {
    Grid(Dense(width, height, rows), Directions4, None, None)
  }

  function NewDenseGridWithOptions(width: int, height: int, rows: seq<seq<char>>,
                                   costFunc: Option<CostFunc>, validFunc: Option<ValidFunc>): (g: Grid)
    ensures g.store == Dense(width, height, rows) && g.directions == Directions4
    ensures g.costFunc == costFunc && g.validFunc == validFunc
  {
    Grid(Dense(width, height, rows), Directions4, costFunc, validFunc)
  }

  function NewDenseGridWithCost(width: int, height: int, rows: seq<seq<char>>, costFunc: CostFunc): (g: Grid)
    ensures g.store == Dense(width, height, rows) && g.directions == Directions4
    ensures g.costFunc == Some(costFunc) && g.validFunc.None?
  {
    Grid(Dense(width, height, rows), Directions4, Some(costFunc), None)
  }

  /** `NewDenseGridFromLines`: nil for no lines; otherwise the width is that
      of the first line and every line becomes a row. */
  function NewDenseGridFromLines(lines: seq<string>): (r: Option<Grid>)
    ensures r.None? <==> |lines| == 0
    ensures r.Some? ==> r.value.store == Dense(|lines[0]|, |lines|, lines)
                        && r.value.directions == Directions4
                        && r.value.costFunc.None? && r.value.validFunc.None?
    ensures r.Some? ==> (WellFormed(r.value) <==> forall y :: 0 <= y < |lines| ==> |lines[0]| <= |lines[y]|)
  {
    if |lines| == 0 then None
    else Some(Grid(Dense(|lines[0]|, |lines|, lines), Directions4, None, None))
  }

  /** An empty sparse grid; its bounding box starts inverted at the int32
      extremes so that the first cell set fixes it. */
  function NewSparseGrid(): (g: Grid)
    ensures g.store.Sparse? && g.store.cells == map[] && g.directions == Directions4
    ensures g.store.minX > g.store.maxX && g.store.minY > g.store.maxY
    ensures g.costFunc.None? && g.validFunc.None?
  {
    Grid(Sparse(map[], MaxInt32, MinInt32, MaxInt32, MinInt32), Directions4, None, None)
  }

  function NewSparseGridWithCost(costFunc: CostFunc): (g: Grid)
    ensures g.store == NewSparseGrid().store && g.directions == Directions4
    ensures g.costFunc == Some(costFunc) && g.validFunc.None?
  {
    Grid(Sparse(map[], MaxInt32, MinInt32, MaxInt32, MinInt32), Directions4, Some(costFunc), None)
  }

  function NewSparseGridWithOptions(costFunc: Option<CostFunc>, validFunc: Option<ValidFunc>): (g: Grid)
    ensures g.store == NewSparseGrid().store && g.directions == Directions4
    ensures g.costFunc == costFunc && g.validFunc == validFunc
  {
    Grid(Sparse(map[], MaxInt32, MinInt32, MaxInt32, MinInt32), Directions4, costFunc, validFunc)
  }

  // ---- the interface ----

  /** `IsValid`: a dense grid rejects out-of-bounds cells before consulting
      anything else; a sparse grid treats absent cells as open. Without a
      `ValidFunc` a cell is valid unless it holds '#'. */
  predicate IsValid(g: Grid, pos: Coordinate)
    requires CanCheck(g, pos)
  {
    match g.store
    case Dense(width, height, rows) =>
      if pos.x < 0 || pos.y < 0 || pos.x >= width || pos.y >= height then false
      else if g.validFunc.Some? then g.validFunc.value(g.store, pos)
      else rows[pos.y][pos.x] != Blocked
    case Sparse(cells, _, _, _, _) =>
      if g.validFunc.Some? then g.validFunc.value(g.store, pos)
      else if pos !in cells then true
      else cells[pos] != Blocked
  }

  /** Validity agrees with what `At` reads: out of bounds is never valid on a
      dense grid, and without a `ValidFunc` a cell is valid exactly when
      `At` reads something other than '#' (or, on a sparse grid, nothing). */
  lemma IsValidMeansOpen(g: Grid, pos: Coordinate)
    requires CanCheck(g, pos)
    ensures g.store.Dense? && !InBounds(g.store, pos) ==> !IsValid(g, pos)
    ensures g.store.Dense? && g.validFunc.None? ==>
              (IsValid(g, pos) <==> At(g, pos).Some? && At(g, pos).value != Blocked)
    ensures g.store.Sparse? && g.validFunc.None? ==>
              (IsValid(g, pos) <==> At(g, pos) != Some(Blocked))
  {
  }

  /** The plainer constructors are `WithOptions` with the missing
      callbacks left nil. */
  lemma ConstructorsAgree(width: int, height: int, rows: seq<seq<char>>, costFunc: CostFunc)
    ensures NewDenseGrid(width, height, rows) == NewDenseGridWithOptions(width, height, rows, None, None)
    ensures NewDenseGridWithCost(width, height, rows, costFunc)
              == NewDenseGridWithOptions(width, height, rows, Some(costFunc), None)
    ensures NewSparseGrid() == NewSparseGridWithOptions(None, None)
    ensures NewSparseGridWithCost(costFunc) == NewSparseGridWithOptions(Some(costFunc), None)
  {
  }

  /** A grid read from lines no shorter than the first: a cell is open
      exactly when it lies inside and is not '#', and every move onto an
      open cell costs 1. */
  lemma FromLinesOpenCells(lines: seq<string>, pos: Coordinate, from: Coordinate)
    requires |lines| > 0 && forall y :: 0 <= y < |lines| ==> |lines[0]| <= |lines[y]|
    ensures var g := NewDenseGridFromLines(lines).value;
      && WellFormed(g)
      && (IsValid(g, pos) <==> 0 <= pos.x < |lines[0]| && 0 <= pos.y < |lines| && lines[pos.y][pos.x] != '#')
      && GetCost(g, from, pos) == (if IsValid(g, pos) then 1 else -1)
  {
  }

  /** `GetCost`: -1 for a move onto an invalid cell, otherwise the
      `CostFunc`'s answer, or 1 when there is none. */
  function GetCost(g: Grid, from: Coordinate, to: Coordinate): (c: int)
    requires CanCheck(g, to)
    ensures !IsValid(g, to) ==> c == -1
    ensures g.costFunc.None? ==> (c == -1 <==> !IsValid(g, to))
    ensures g.costFunc.None? && IsValid(g, to) ==> c == 1
    ensures g.costFunc.Some? && IsValid(g, to) ==> c == g.costFunc.value(g.store, from, to)
  {
    if !IsValid(g, to) then -1
    else if g.costFunc.Some? then g.costFunc.value(g.store, from, to)
    else 1
  }

  /** `ks` picks each of `r` out of `dirs`, as pos+d, in the order of
      `dirs`. */
  ghost predicate PicksInOrder(r: seq<Coordinate>, pos: Coordinate, dirs: seq<Coordinate>, ks: seq<int>) {
    && |ks| == |r|
    && (forall i {:trigger ks[i]} :: 0 <= i < |r| ==> 0 <= ks[i] < |dirs| && r[i] == Add(pos, dirs[ks[i]]))
    && (forall i, j :: 0 <= i < j < |r| ==> ks[i] < ks[j])
  }

  /** `r` lists cells pos+d for some of the `dirs`, in the order of `dirs`. */
  ghost predicate InDirectionOrder(r: seq<Coordinate>, pos: Coordinate, dirs: seq<Coordinate>) {
    exists ks :: PicksInOrder(r, pos, dirs, ks)
  }

  /** Taking the first direction keeps the order. */
  lemma PickFirst(r: seq<Coordinate>, pos: Coordinate, dirs: seq<Coordinate>)
    requires |dirs| > 0 && InDirectionOrder(r, pos, dirs[1..])
    ensures InDirectionOrder([Add(pos, dirs[0])] + r, pos, dirs)
  {
    var ks :| PicksInOrder(r, pos, dirs[1..], ks);
    var ks' := [0] + seq(|ks|, i requires 0 <= i < |ks| => ks[i] + 1);
    assert PicksInOrder([Add(pos, dirs[0])] + r, pos, dirs, ks');
  }

  /** Skipping the first direction keeps the order. */
  lemma SkipFirst(r: seq<Coordinate>, pos: Coordinate, dirs: seq<Coordinate>)
    requires |dirs| > 0 && InDirectionOrder(r, pos, dirs[1..])
    ensures InDirectionOrder(r, pos, dirs)
  {
    var ks :| PicksInOrder(r, pos, dirs[1..], ks);
    var ks' := seq(|ks|, i requires 0 <= i < |ks| => ks[i] + 1);
    assert PicksInOrder(r, pos, dirs, ks');
  }

  /** The valid cells among pos+d for d in `dirs`, in the order of `dirs`. */
  function NeighborsAlong(g: Grid, pos: Coordinate, dirs: seq<Coordinate>): (r: seq<Coordinate>)
    requires forall k :: 0 <= k < |dirs| ==> CanCheck(g, Add(pos, dirs[k]))
    ensures |r| <= |dirs|
    ensures forall c :: c in r <==>
              (exists k :: 0 <= k < |dirs| && c == Add(pos, dirs[k])) && IsValid(g, c)
    ensures (forall k :: 0 <= k < |dirs| ==> IsValid(g, Add(pos, dirs[k]))) ==>
              |r| == |dirs| && forall k :: 0 <= k < |dirs| ==> r[k] == Add(pos, dirs[k])
  {
    if |dirs| == 0 then []
    else
      var next := Add(pos, dirs[0]);
      var rest := NeighborsAlong(g, pos, dirs[1..]);
      assert forall k :: 1 <= k < |dirs| ==> dirs[k] == dirs[1..][k - 1];
      assert forall k :: 0 <= k < |dirs| - 1 ==> dirs[1..][k] == dirs[k + 1];
      if IsValid(g, next) then [next] + rest else rest
  }

  /** Whichever probes are valid, the neighbours come out in the order of
      `dirs`. */
  lemma {:induction false} NeighborsAlongInOrder(g: Grid, pos: Coordinate, dirs: seq<Coordinate>)
    requires forall k :: 0 <= k < |dirs| ==> CanCheck(g, Add(pos, dirs[k]))
    ensures InDirectionOrder(NeighborsAlong(g, pos, dirs), pos, dirs)
    decreases |dirs|
  {
    if |dirs| == 0 {
      assert PicksInOrder([], pos, dirs, []);
    } else {
      assert forall k :: 0 <= k < |dirs| - 1 ==> dirs[1..][k] == dirs[k + 1];
      NeighborsAlongInOrder(g, pos, dirs[1..]);
      var rest := NeighborsAlong(g, pos, dirs[1..]);
      if IsValid(g, Add(pos, dirs[0])) {
        PickFirst(rest, pos, dirs);
      } else {
        SkipFirst(rest, pos, dirs);
      }
    }
  }

  /** `GetNeighbors`: exactly the valid pos+d, d in the grid's directions,
      in direction order. */
  function GetNeighbors(g: Grid, pos: Coordinate): (r: seq<Coordinate>)
    requires forall k :: 0 <= k < |g.directions| ==> CanCheck(g, Add(pos, g.directions[k]))
    ensures |r| <= |g.directions|
    ensures forall c :: c in r <==>
              (exists k :: 0 <= k < |g.directions| && c == Add(pos, g.directions[k])) && IsValid(g, c)
    ensures InDirectionOrder(r, pos, g.directions)
    ensures (forall k :: 0 <= k < |g.directions| ==> IsValid(g, Add(pos, g.directions[k]))) ==>
              |r| == |g.directions| && forall k :: 0 <= k < |r| ==> r[k] == Add(pos, g.directions[k])
  {
    NeighborsAlongInOrder(g, pos, g.directions);
    NeighborsAlong(g, pos, g.directions)
  }

  /** `At`: the rune at pos, nil out of bounds (dense) or when absent
      (sparse). */
  function At(g: Grid, pos: Coordinate): (r: Option<char>)
    requires HasCell(g, pos)
    ensures g.store.Dense? ==> (r.None? <==> !InBounds(g.store, pos))
    ensures g.store.Dense? && r.Some? ==> r.value == g.store.rows[pos.y][pos.x]
    ensures g.store.Sparse? ==> (r.None? <==> pos !in g.store.cells)
    ensures g.store.Sparse? && r.Some? ==> r.value == g.store.cells[pos]
  {
    match g.store
    case Dense(width, height, rows) =>
      if pos.x < 0 || pos.y < 0 || pos.x >= width || pos.y >= height then None
      else Some(rows[pos.y][pos.x])
    case Sparse(cells, _, _, _, _) =>
      if pos in cells then Some(cells[pos]) else None
  }

  /** `SetCell`: writes one cell. Out of bounds on a dense grid it does
      nothing; a sparse grid stores the cell and widens its bounding box
      just enough to contain it. */
  function SetCell(g: Grid, pos: Coordinate, cell: char): (r: Grid)
    requires HasCell(g, pos)
    ensures WellFormed(g) ==> WellFormed(r)
    ensures HasCell(r, pos)
    ensures r.directions == g.directions && r.costFunc == g.costFunc && r.validFunc == g.validFunc
    ensures r.store.Dense? == g.store.Dense?
    ensures g.store.Dense? && !InBounds(g.store, pos) ==> r == g
    ensures g.store.Dense? ==> r.store.width == g.store.width && r.store.height == g.store.height
    ensures g.store.Sparse? || InBounds(g.store, pos) ==> At(r, pos) == Some(cell)
    ensures forall q :: q != pos && HasCell(g, q) ==> HasCell(r, q) && At(r, q) == At(g, q)
    ensures g.store.Sparse? ==>
              r.store.minX <= pos.x <= r.store.maxX && r.store.minY <= pos.y <= r.store.maxY
              && r.store.minX <= g.store.minX && r.store.maxX >= g.store.maxX
              && r.store.minY <= g.store.minY && r.store.maxY >= g.store.maxY
  {
    match g.store
    case Dense(width, height, rows) =>
      if pos.x >= 0 && pos.y >= 0 && pos.x < width && pos.y < height then
        g.(store := Dense(width, height, rows[pos.y := rows[pos.y][pos.x := cell]]))
      else g
    case Sparse(cells, minX, maxX, minY, maxY) =>
      g.(store := Sparse(cells[pos := cell],
                         if pos.x < minX then pos.x else minX,
                         if pos.x > maxX then pos.x else maxX,
                         if pos.y < minY then pos.y else minY,
                         if pos.y > maxY then pos.y else maxY))
  }

  /** Reading a cell back after writing it gives what was written, and
      writing a cell with what it already holds changes nothing on a dense
      grid. */
  lemma SetCellThenAt(g: Grid, pos: Coordinate, cell: char)
    requires HasCell(g, pos) && g.store.Dense?
    ensures At(g, pos) == Some(cell) ==> SetCell(g, pos, cell) == g
  {
    if At(g, pos) == Some(cell) {
      var rows := g.store.rows;
      assert rows[pos.y][pos.x := cell] == rows[pos.y];
      assert rows[pos.y := rows[pos.y]] == rows;
    }
  }

  /** Row-major order on coordinates. */
  predicate Before(a: Coordinate, b: Coordinate) {
    a.y < b.y || (a.y == b.y && a.x < b.x)
  }

  predicate RowMajor(cs: seq<Coordinate>) {
    forall i, j :: 0 <= i < j < |cs| ==> Before(cs[i], cs[j])
  }

  /** `FindCoordinates`: every coordinate holding `target`, each once; a
      dense grid lists them row by row, a sparse grid in map order, which Go
      leaves unspecified (any order is allowed here). */
  method FindCoordinates(g: Grid, target: char) returns (coords: seq<Coordinate>)
    requires WellFormed(g)
    ensures forall c :: c in coords <==> At(g, c) == Some(target)
    ensures Distinct(coords)
    ensures g.store.Dense? ==> RowMajor(coords)
  {
    coords := [];
    match g.store {
      case Dense(width, height, rows) =>
        var y := 0;
        while y < height
          invariant y <= height || height < 0
          invariant forall c :: c in coords <==> At(g, c) == Some(target) && c.y < y
          invariant forall i :: 0 <= i < |coords| ==> coords[i].y < y
          invariant RowMajor(coords)
        {
          var x := 0;
          while x < width
            invariant x <= width || width < 0
            invariant forall c :: c in coords <==>
                        At(g, c) == Some(target) && (c.y < y || (c.y == y && c.x < x))
            invariant forall i :: 0 <= i < |coords| ==> Before(coords[i], Coordinate(x, y))
            invariant RowMajor(coords)
          {
            if rows[y][x] == target {
              coords := coords + [Coordinate(x, y)];
            }
            x := x + 1;
          }
          y := y + 1;
        }
      case Sparse(cells, _, _, _, _) =>
        var keys := cells.Keys;
        while keys != {}
          invariant keys <= cells.Keys
          invariant forall c :: c in coords <==> At(g, c) == Some(target) && c !in keys
          invariant Distinct(coords)
          decreases |keys|
        {
          var c :| c in keys;
          if cells[c] == target {
            coords := coords + [c];
          }
          keys := keys - {c};
        }
    }
  }

  /** The in-bounds cells of a dense grid. */
  function Cells(s: Store): (cs: set<Coordinate>)
    requires s.Dense?
    ensures forall c :: c in cs <==> InBounds(s, c)
  {
    set x: int, y: int | 0 <= x < s.width && 0 <= y < s.height :: Coordinate(x, y)
  }

  /** `GetNeighbors` as the successor function the searches follow. */
  function NeighborFn(g: Grid): (next: Coordinate -> seq<Coordinate>)
    requires WellFormed(g)
    ensures forall c :: next(c) == GetNeighbors(g, c)
  {
    c => GetNeighbors(g, c)
  }

  /** A dense grid's neighbours are always in bounds, so its cells plus any
      starting point form a finite closed set. */
  lemma DenseCellsClosed(g: Grid, start: Coordinate)
    requires WellFormed(g) && g.store.Dense?
    ensures Closed(NeighborFn(g), Cells(g.store) + {start})
  {
  }
}
