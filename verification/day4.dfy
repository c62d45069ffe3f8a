/** Day 4: rolls of paper ('@') on a dense grid with eight-way
    neighbourhoods. A roll is movable when fewer than four of its eight
    neighbours hold rolls. Part 1 counts the movable rolls; part 2 removes
    them pass after pass, each pass in row-major order so that a removal is
    already visible to the rolls after it, until a pass removes nothing. */
module Day4 {
  import opened Wrappers
  import opened Ints
  import opened Coordinates
  import opened Walks
  import opened PathGrids

  const Roll: char := '@'
  const Removed: char := 'X'
  const Crowded: nat := 4

  /** The grid `makeGrid` builds: dense, eight directions, no callbacks,
      and every row long enough (a shorter row panics in Go). */
  predicate IsRollGrid(g: Grid) {
    WellFormed(g) && g.store.Dense? && g.directions == Directions8
    && g.costFunc.None? && g.validFunc.None?
  }

  /** `makeGrid`: the first line fixes the width; no lines panics. */
  function MakeGrid(lines: seq<string>): (r: Option<Grid>)
    ensures r.None? <==> |lines| == 0
    ensures r.Some? ==> r.value.store.Dense? && r.value.store.rows == lines && r.value.store.height == |lines|
    ensures r.Some? ==> (IsRollGrid(r.value) <==> forall y :: 0 <= y < |lines| ==> |lines[0]| <= |lines[y]|)
  {
    if |lines| == 0 then None
    else Some(NewDenseGrid(|lines[0]|, |lines|, lines).(directions := Directions8))
  }

  // ---- counting neighbours ----

  /** The eight cells around `c`. */
  function Around(c: Coordinate): set<Coordinate> {
    set d | d in Directions8 :: Add(c, d)
  }

  /** The cells around `c` that hold a roll: the reference the neighbour
      count is measured against. */
  function RollsAround(g: Grid, c: Coordinate): set<Coordinate>
    requires WellFormed(g)
  {
    set n | n in Around(c) && At(g, n) == Some(Roll)
  }

  predicate Movable(g: Grid, c: Coordinate)
    requires WellFormed(g)
  {
    |RollsAround(g, c)| < Crowded
  }

  /** The number of entries of `ns` that hold a roll. */
  function CountRolls(g: Grid, ns: seq<Coordinate>): nat
    requires WellFormed(g)
  {
    if |ns| == 0 then 0
    else CountRolls(g, ns[..|ns| - 1]) + (if At(g, Last(ns)) == Some(Roll) then 1 else 0)
  }

  lemma {:induction false} CountRollsPrefix(g: Grid, ns: seq<Coordinate>, k: nat)
    requires WellFormed(g) && k <= |ns|
    ensures CountRolls(g, ns[..k]) <= CountRolls(g, ns)
    decreases |ns|
  {
    if k < |ns| {
      var init := ns[..|ns| - 1];
      assert init[..k] == ns[..k];
      CountRollsPrefix(g, init, k);
    } else {
      assert ns[..k] == ns;
    }
  }

  /** Without repeats, the count is the number of distinct roll cells. */
  lemma {:induction false} CountRollsDistinct(g: Grid, ns: seq<Coordinate>)
    requires WellFormed(g) && Distinct(ns)
    ensures CountRolls(g, ns) == |set n | n in ns && At(g, n) == Some(Roll)|
    decreases |ns|
  {
    if |ns| > 0 {
      var init, x := ns[..|ns| - 1], Last(ns);
      DistinctFront(ns);
      CountRollsDistinct(g, init);
      RollCellsSnoc(g, ns, init, x);
    }
  }

  lemma RollCellsSnoc(g: Grid, ns: seq<Coordinate>, init: seq<Coordinate>, x: Coordinate)
    requires WellFormed(g) && |ns| > 0 && init == ns[..|ns| - 1] && x == Last(ns) && x !in init
    ensures |set n | n in ns && At(g, n) == Some(Roll)|
            == |set n | n in init && At(g, n) == Some(Roll)| + (if At(g, x) == Some(Roll) then 1 else 0)
  {
    var before := set n | n in init && At(g, n) == Some(Roll);
    var after := set n | n in ns && At(g, n) == Some(Roll);
    assert ns == init + [x];
    if At(g, x) == Some(Roll) {
      assert after == before + {x};
    } else {
      assert after == before;
    }
  }

  /** The cells along `dirs` are distinct when the directions are. */
  lemma {:induction false} NeighborsAlongDistinct(g: Grid, pos: Coordinate, dirs: seq<Coordinate>)
    requires WellFormed(g) && Distinct(dirs)
    ensures Distinct(NeighborsAlong(g, pos, dirs))
    decreases |dirs|
  {
    if |dirs| > 0 {
      var rest := dirs[1..];
      assert Distinct(rest) by {
        forall i, j | 0 <= i < j < |rest|
          ensures rest[i] != rest[j]
        {
          assert rest[i] == dirs[i + 1] && rest[j] == dirs[j + 1];
        }
      }
      NeighborsAlongDistinct(g, pos, rest);
      var next := Add(pos, dirs[0]);
      var r := NeighborsAlong(g, pos, rest);
      assert next !in r by {
        forall k | 0 <= k < |rest|
          ensures next != Add(pos, rest[k])
        {
          assert rest[k] == dirs[k + 1];
        }
      }
    }
  }

  /** The roll neighbours `GetNeighbors` lists are exactly the rolls around
      the cell: a roll is never '#', so it is always a valid neighbour. */
  lemma NeighborRolls(g: Grid, c: Coordinate)
    requires IsRollGrid(g)
    ensures (set n | n in GetNeighbors(g, c) && At(g, n) == Some(Roll)) == RollsAround(g, c)
  {
    var ns := GetNeighbors(g, c);
    forall n | n in Around(c) && At(g, n) == Some(Roll)
      ensures n in ns
    {
      var d :| d in Directions8 && n == Add(c, d);
      var k :| 0 <= k < |Directions8| && Directions8[k] == d;
      assert IsValid(g, n);
    }
    forall n | n in ns
      ensures n in Around(c)
    {
      var k :| 0 <= k < |g.directions| && n == Add(c, g.directions[k]);
      assert g.directions[k] in Directions8;
    }
  }

  /** The full neighbour count of `visitMovableRolls` is the number of
      rolls around the cell. */
  lemma CountNeighborRolls(g: Grid, c: Coordinate)
    requires IsRollGrid(g)
    ensures CountRolls(g, GetNeighbors(g, c)) == |RollsAround(g, c)|
  {
    var ns := GetNeighbors(g, c);
    DirectionSets();
    NeighborsAlongDistinct(g, c, Directions8);
    CountRollsDistinct(g, ns);
    NeighborRolls(g, c);
  }

  /** The neighbour loop of `visitMovableRolls`, which stops counting at
      four: its count is the number of rolls around the cell, capped at
      four, so it is below four exactly when the roll is movable. */
  method CountAdjacent(g: Grid, c: Coordinate) returns (n: int)
    requires IsRollGrid(g)
    ensures n == Min(|RollsAround(g, c)|, Crowded)
    ensures n < Crowded <==> Movable(g, c)
  {
    var ns := GetNeighbors(g, c);
    n := 0;
    var k := 0;
    while k < |ns| && n < Crowded
      invariant 0 <= k <= |ns| && n == CountRolls(g, ns[..k]) && n <= Crowded
    {
      assert ns[..k + 1][..k] == ns[..k];
      if At(g, ns[k]) == Some(Roll) {
        n := n + 1;
      }
      k := k + 1;
    }
    CountRollsPrefix(g, ns, k);
    if k == |ns| {
      assert ns[..k] == ns;
    }
    CountNeighborRolls(g, c);
  }

  // ---- removing rolls ----

  /** The grid after writing 'X' over each cell of `vs`. */
  function Removing(g: Grid, vs: seq<Coordinate>): (r: Grid)
    requires IsRollGrid(g)
    ensures IsRollGrid(r)
    ensures r.store.width == g.store.width && r.store.height == g.store.height
    ensures forall c :: At(r, c) == if c in vs && At(g, c).Some? then Some(Removed) else At(g, c)
  {
    if |vs| == 0 then g
    else SetCell(Removing(g, vs[..|vs| - 1]), Last(vs), Removed)
  }

  lemma RemovingAppend(g: Grid, vs: seq<Coordinate>, v: Coordinate)
    requires IsRollGrid(g)
    ensures Removing(g, vs + [v]) == SetCell(Removing(g, vs), v, Removed)
  {
    assert (vs + [v])[..|vs|] == vs;
  }

  /** The cells that hold rolls. */
  function RollSet(g: Grid): set<Coordinate>
    requires IsRollGrid(g)
  {
    set c | c in Cells(g.store) && At(g, c) == Some(Roll)
  }

  lemma RemovingRollSet(g: Grid, vs: seq<Coordinate>)
    requires IsRollGrid(g)
    ensures RollSet(Removing(g, vs)) == RollSet(g) - set v | v in vs
  {
  }

  lemma CardDifference<T>(a: set<T>, b: set<T>)
    requires b <= a
    ensures |a - b| == |a| - |b|
  {
    assert a == (a - b) + b;
  }

  /** Removing rolls never adds a roll around a cell, so a movable roll
      stays movable. */
  lemma RemovingKeepsMovable(g: Grid, vs: seq<Coordinate>, c: Coordinate)
    requires IsRollGrid(g)
    ensures RollsAround(Removing(g, vs), c) <= RollsAround(g, c)
    ensures Movable(g, c) ==> Movable(Removing(g, vs), c)
  {
    var g' := Removing(g, vs);
    assert RollsAround(g', c) <= RollsAround(g, c);
    SubsetCard(RollsAround(g', c), RollsAround(g, c));
  }

  lemma SubsetCard<T>(a: set<T>, b: set<T>)
    requires a <= b
    ensures |a| <= |b|
  {
    assert b == a + (b - a);
  }

  // ---- one pass ----

  /** The entries of `vs` that come before `c` in row-major order. */
  function Earlier(vs: seq<Coordinate>, c: Coordinate): (r: seq<Coordinate>)
    ensures forall v :: v in r <==> v in vs && Before(v, c)
  {
    if |vs| == 0 then []
    else Earlier(vs[..|vs| - 1], c) + (if Before(Last(vs), c) then [Last(vs)] else [])
  }

  lemma {:induction false} EarlierAll(vs: seq<Coordinate>, c: Coordinate)
    requires forall i :: 0 <= i < |vs| ==> Before(vs[i], c)
    ensures Earlier(vs, c) == vs
    decreases |vs|
  {
    if |vs| > 0 {
      var front, x := vs[..|vs| - 1], Last(vs);
      assert forall i :: 0 <= i < |front| ==> Before(front[i], c) by {
        forall i | 0 <= i < |front|
          ensures Before(front[i], c)
        {
          assert front[i] == vs[i];
        }
      }
      EarlierAll(front, c);
      EarlierSnoc(vs, front, x, c);
    }
  }

  lemma EarlierSnoc(vs: seq<Coordinate>, front: seq<Coordinate>, x: Coordinate, c: Coordinate)
    requires |vs| > 0 && front == vs[..|vs| - 1] && x == Last(vs)
    requires Before(x, c) && Earlier(front, c) == front
    ensures Earlier(vs, c) == vs
  {
    calc {
      Earlier(vs, c);
      Earlier(front, c) + [x];
      front + [x];
      vs;
    }
  }

  /** What the roll at `c` sees when its turn comes: with removal on, the
      grid after the rolls visited before it. */
  function View(g: Grid, remove: bool, visited: seq<Coordinate>, c: Coordinate): (r: Grid)
    requires IsRollGrid(g)
    ensures IsRollGrid(r)
  {
    if remove then Removing(g, Earlier(visited, c)) else g
  }

  /** Whether a roll is movable once the rolls `vs` visited before it are
      handled. */
  function Sees(g: Grid, remove: bool): (m: (seq<Coordinate>, Coordinate) -> bool)
    requires IsRollGrid(g)
    ensures forall vs, c :: m(vs, c) == Movable(if remove then Removing(g, vs) else g, c)
  {
    (vs, c) => Movable(if remove then Removing(g, vs) else g, c)
  }

  /** After the first `i` rolls of the pass. */
  ghost predicate PassInvariant(g: Grid, remove: bool, rolls: seq<Coordinate>, i: int,
                                g': Grid, visited: seq<Coordinate>)
    requires IsRollGrid(g)
  {
    0 <= i <= |rolls|
    && g' == (if remove then Removing(g, visited) else g)
    && Visits(Sees(g, remove), rolls, i, visited)
  }

  /** The rolls visited among the first `i` are, in order, those for which
      `m` holds at their turn. */
  ghost predicate Visits(m: (seq<Coordinate>, Coordinate) -> bool, rolls: seq<Coordinate>, i: int,
                         visited: seq<Coordinate>)
    requires 0 <= i <= |rolls|
  {
    RowMajor(visited)
    && (forall v :: v in visited ==> v in rolls[..i])
    && (forall c :: c in rolls[..i] ==> (c in visited <==> m(Earlier(visited, c), c)))
  }

  /** A roll earlier in the row-major list comes before the one at `i`. */
  lemma BeforeTurn(rolls: seq<Coordinate>, i: int, c: Coordinate)
    requires RowMajor(rolls) && 0 <= i < |rolls| && c in rolls[..i]
    ensures Before(c, rolls[i])
  {
    var j :| 0 <= j < i && rolls[..i][j] == c;
    assert rolls[j] == c;
  }

  lemma EarlierAppend(vs: seq<Coordinate>, r: Coordinate, c: Coordinate)
    requires !Before(r, c)
    ensures Earlier(vs + [r], c) == Earlier(vs, c)
  {
    assert (vs + [r])[..|vs|] == vs;
  }

  /** The rolls already handled see the same grid after the turn of
      `rolls[i]`, since it comes after all of them. */
  lemma PassStepEarlier(rolls: seq<Coordinate>, i: int, visited: seq<Coordinate>, visited': seq<Coordinate>)
    requires RowMajor(rolls) && 0 <= i < |rolls|
    requires visited' == visited || visited' == visited + [rolls[i]]
    ensures forall c :: c in rolls[..i] ==> Earlier(visited', c) == Earlier(visited, c)
  {
    forall c | c in rolls[..i]
      ensures Earlier(visited', c) == Earlier(visited, c)
    {
      BeforeTurn(rolls, i, c);
      if visited' != visited {
        EarlierAppend(visited, rolls[i], c);
      }
    }
  }

  /** The roll at `i` sees exactly the visited rolls, all before it. */
  lemma PassStepCurrent(rolls: seq<Coordinate>, i: int, visited: seq<Coordinate>, visited': seq<Coordinate>)
    requires RowMajor(rolls) && 0 <= i < |rolls|
    requires forall v :: v in visited ==> v in rolls[..i]
    requires visited' == visited || visited' == visited + [rolls[i]]
    ensures forall k :: 0 <= k < |visited| ==> Before(visited[k], rolls[i])
    ensures Earlier(visited', rolls[i]) == visited
  {
    forall k | 0 <= k < |visited|
      ensures Before(visited[k], rolls[i])
    {
      BeforeTurn(rolls, i, visited[k]);
    }
    EarlierAll(visited, rolls[i]);
    if visited' != visited {
      EarlierAppend(visited, rolls[i], rolls[i]);
    }
  }

  /** One turn of the pass: the roll at `i` is visited exactly when it is
      movable in the current grid. */
  lemma PassStep(g: Grid, remove: bool, rolls: seq<Coordinate>, i: int,
                 g': Grid, visited: seq<Coordinate>, take: bool,
                 g'': Grid, visited': seq<Coordinate>)
    requires IsRollGrid(g) && RowMajor(rolls) && 0 <= i < |rolls|
    requires PassInvariant(g, remove, rolls, i, g', visited)
    requires take <==> Movable(g', rolls[i])
    requires visited' == if take then visited + [rolls[i]] else visited
    requires g'' == if take && remove then SetCell(g', rolls[i], Removed) else g'
    ensures PassInvariant(g, remove, rolls, i + 1, g'', visited')
  {
    VisitsStep(Sees(g, remove), rolls, i, visited, take, visited');
    if take && remove {
      RemovingAppend(g, visited, rolls[i]);
    }
  }

  lemma VisitsStep(m: (seq<Coordinate>, Coordinate) -> bool, rolls: seq<Coordinate>, i: int,
                   visited: seq<Coordinate>, take: bool, visited': seq<Coordinate>)
    requires RowMajor(rolls) && 0 <= i < |rolls|
    requires Visits(m, rolls, i, visited)
    requires take <==> m(visited, rolls[i])
    requires visited' == if take then visited + [rolls[i]] else visited
    ensures Visits(m, rolls, i + 1, visited')
  {
    var r := rolls[i];
    assert RowMajor(visited') by {
      PassStepCurrent(rolls, i, visited, visited');
      if take {
        RowMajorAppend(visited, r);
      }
    }
    assert forall v :: v in visited' ==> v in rolls[..i + 1] by {
      PrefixStep(rolls, i);
    }
    assert forall c :: c in rolls[..i + 1] ==> (c in visited' <==> m(Earlier(visited', c), c)) by {
      PassStepCurrent(rolls, i, visited, visited');
      PassStepEarlier(rolls, i, visited, visited');
      PrefixStep(rolls, i);
      forall c | c in rolls[..i + 1]
        ensures c in visited' <==> m(Earlier(visited', c), c)
      {
        if c != r {
          assert c in rolls[..i];
        }
      }
    }
  }

  lemma RowMajorAppend(vs: seq<Coordinate>, r: Coordinate)
    requires RowMajor(vs) && forall k :: 0 <= k < |vs| ==> Before(vs[k], r)
    ensures RowMajor(vs + [r])
  {
  }

  /** `visitMovableRolls`: walks the rolls in row-major order and visits
      each roll that is movable at its turn. With `remove` the visit writes
      'X' over the roll, as part 2's callback does, and later rolls see it;
      without, the grid is left alone. */
  method VisitMovableRolls(g: Grid, remove: bool) returns (g': Grid, visited: seq<Coordinate>)
    requires IsRollGrid(g)
    ensures g' == (if remove then Removing(g, visited) else g)
    ensures RowMajor(visited) && Distinct(visited)
    ensures forall v :: v in visited ==> v in RollSet(g)
    ensures forall c :: c in RollSet(g) ==> (c in visited <==> Movable(View(g, remove, visited, c), c))
  {
    var rolls := FindCoordinates(g, Roll);
    g', visited := g, [];
    var i := 0;
    while i < |rolls|
      invariant PassInvariant(g, remove, rolls, i, g', visited)
    {
      var n := CountAdjacent(g', rolls[i]);
      var g'', visited' := g', visited;
      if n < Crowded {
        if remove {
          g'' := SetCell(g', rolls[i], Removed);
        }
        visited' := visited + [rolls[i]];
      }
      PassStep(g, remove, rolls, i, g', visited, n < Crowded, g'', visited');
      g', visited, i := g'', visited', i + 1;
    }
    assert rolls[..i] == rolls;
  }

  // ---- the two parts ----

  function MovableRolls(g: Grid): set<Coordinate>
    requires IsRollGrid(g)
  {
    set c | c in RollSet(g) && Movable(g, c)
  }

  /** Part 1: the number of movable rolls; no answer when Go panics (no
      lines, or a row shorter than the first). */
  method Part1(lines: seq<string>) returns (result: Option<int>)
    ensures result.Some? <==> |lines| > 0 && forall y :: 0 <= y < |lines| ==> |lines[0]| <= |lines[y]|
    ensures result.Some? ==> result.value == |MovableRolls(MakeGrid(lines).value)|
  {
    var grid := MakeGrid(lines);
    if grid.None? || !IsRollGrid(grid.value) {
      return None;
    }
    var g := grid.value;
    var _, visited := VisitMovableRolls(g, false);
    DistinctCard(visited);
    assert (set x | x in visited) == MovableRolls(g);
    return Some(|visited|);
  }

  /** What part 2's loop keeps: `removed` rolls are gone, each now an 'X',
      and everything else is as it was. */
  ghost predicate Removal(g0: Grid, g: Grid, removed: int)
    requires IsRollGrid(g0) && IsRollGrid(g)
  {
    RollSet(g) <= RollSet(g0)
    && removed == |RollSet(g0)| - |RollSet(g)|
    && forall c :: At(g, c) == if c in RollSet(g0) - RollSet(g) then Some(Removed) else At(g0, c)
  }

  lemma RemovalStep(g0: Grid, g: Grid, removed: int, visited: seq<Coordinate>)
    requires IsRollGrid(g0) && IsRollGrid(g) && Removal(g0, g, removed)
    requires Distinct(visited) && forall v :: v in visited ==> v in RollSet(g)
    ensures Removal(g0, Removing(g, visited), removed + |visited|)
    ensures |RollSet(Removing(g, visited))| == |RollSet(g)| - |visited|
  {
    var s := set v | v in visited;
    RemovingRollSet(g, visited);
    DistinctCard(visited);
    CardDifference(RollSet(g), s);
  }

  /** Part 2's loop: passes with removal until one removes nothing. No roll
      left is movable, every roll removed became an 'X', and the count is
      at least part 1's, since a removal only ever frees its neighbours.
      The rolls left are the greatest stable set of the original rolls: they
      are stable, and every stable set of rolls survives, so the count is
      the number of rolls outside that set. */
  method RemoveAll(g: Grid) returns (g': Grid, removed: int)
    requires IsRollGrid(g)
    ensures IsRollGrid(g') && Removal(g, g', removed)
    ensures forall c :: c in RollSet(g') ==> !Movable(g', c)
    ensures removed >= |MovableRolls(g)|
    ensures Stable(RollSet(g'))
    ensures forall S :: Stable(S) && S <= RollSet(g) ==> S <= RollSet(g')
  {
    g', removed := g, 0;
    var lastMoved := -1;
    while lastMoved != 0
      invariant IsRollGrid(g') && Removal(g, g', removed)
      invariant lastMoved == -1 ==> g' == g
      invariant lastMoved != -1 ==> removed >= |MovableRolls(g)|
      invariant lastMoved == 0 ==> forall c :: c in RollSet(g') ==> !Movable(g', c)
      invariant forall S :: Stable(S) && S <= RollSet(g) ==> S <= RollSet(g')
      decreases |RollSet(g')| + (if lastMoved != 0 then 1 else 0)
    {
      var next, visited := VisitMovableRolls(g', true);
      RemovalStep(g, g', removed, visited);
      forall S | Stable(S) && S <= RollSet(g)
        ensures S <= RollSet(next)
      {
        PassSparesStable(g', S, visited);
        RemovingRollSet(g', visited);
      }
      if lastMoved == -1 {
        FirstPassFreesMovable(g, visited);
      }
      if |visited| == 0 {
        forall c | c in RollSet(g')
          ensures !Movable(g', c)
        {
          assert Earlier(visited, c) == [];
        }
      }
      g', removed, lastMoved := next, removed + |visited|, |visited|;
    }
    StuckIsStable(g');
  }

  // ---- what part 2 leaves ----

  /** The members of `S` around `p`. */
  function Within(S: set<Coordinate>, p: Coordinate): set<Coordinate> {
    set n | n in Around(p) && n in S
  }

  /** A set of cells each with at least four members of the set around it:
      as long as they all hold rolls, none of them is movable. */
  ghost predicate Stable(S: set<Coordinate>) {
    forall p :: p in S ==> |Within(S, p)| >= Crowded
  }

  /** A stable set of rolls none of which is among `vs` stays unmovable
      once `vs` are removed. */
  lemma StableStaysPut(g: Grid, S: set<Coordinate>, vs: seq<Coordinate>, c: Coordinate)
    requires IsRollGrid(g) && Stable(S) && S <= RollSet(g)
    requires forall v :: v in vs ==> v !in S
    ensures c in S ==> !Movable(Removing(g, vs), c)
  {
    var g' := Removing(g, vs);
    RemovingRollSet(g, vs);
    assert Within(S, c) <= RollsAround(g', c);
    SubsetCard(Within(S, c), RollsAround(g', c));
  }

  /** A removal pass takes no roll of a stable set: the first one it took
      would have been unmovable at its turn. */
  lemma PassSparesStable(g: Grid, S: set<Coordinate>, visited: seq<Coordinate>)
    requires IsRollGrid(g) && Stable(S) && S <= RollSet(g)
    requires RowMajor(visited) && forall v :: v in visited ==> v in RollSet(g)
    requires forall c :: c in RollSet(g) ==> (c in visited <==> Movable(View(g, true, visited, c), c))
    ensures forall i :: 0 <= i < |visited| ==> visited[i] !in S
  {
    forall j | 0 <= j < |visited|
      ensures SparesNext(S, visited, j)
    {
      var c := visited[j];
      assert c in visited;
      PassSparesNext(g, S, visited, j);
    }
    SparedInOrder(S, visited, |visited|);
  }

  /** The pass leaves the `j`-th roll it took outside `S` if it left all
      before it outside. */
  ghost predicate SparesNext(S: set<Coordinate>, visited: seq<Coordinate>, j: int)
    requires 0 <= j < |visited|
  {
    (forall i :: 0 <= i < j ==> visited[i] !in S) ==> visited[j] !in S
  }

  lemma {:induction false} SparedInOrder(S: set<Coordinate>, visited: seq<Coordinate>, j: int)
    requires 0 <= j <= |visited|
    requires forall i :: 0 <= i < |visited| ==> SparesNext(S, visited, i)
    ensures forall i :: 0 <= i < j ==> visited[i] !in S
    decreases j
  {
    if j > 0 {
      SparedInOrder(S, visited, j - 1);
      assert SparesNext(S, visited, j - 1);
    }
  }

  /** The `j`-th roll a pass takes was movable once the ones before it
      were gone; if those are outside `S`, so is it. */
  lemma PassSparesNext(g: Grid, S: set<Coordinate>, visited: seq<Coordinate>, j: int)
    requires IsRollGrid(g) && Stable(S) && S <= RollSet(g)
    requires RowMajor(visited) && 0 <= j < |visited|
    requires Movable(Removing(g, Earlier(visited, visited[j])), visited[j])
    ensures SparesNext(S, visited, j)
  {
    var c := visited[j];
    var e := Earlier(visited, c);
    if forall i :: 0 <= i < j ==> visited[i] !in S {
      EarlierInPrefix(visited, j);
      assert forall v :: v in e ==> v !in S;
      StableStaysPut(g, S, e, c);
    }
  }

  /** In a row-major list the entries before the `j`-th one are the first `j`. */
  lemma EarlierInPrefix(visited: seq<Coordinate>, j: int)
    requires RowMajor(visited) && 0 <= j < |visited|
    ensures forall v :: v in Earlier(visited, visited[j]) ==> v in visited[..j]
  {
    forall v | v in Earlier(visited, visited[j])
      ensures v in visited[..j]
    {
      var i :| 0 <= i < |visited| && visited[i] == v;
      assert !Before(visited[j], v);
      assert visited[..j][i] == v;
    }
  }

  /** Rolls none of which is movable form a stable set. */
  lemma StuckIsStable(g: Grid)
    requires IsRollGrid(g)
    requires forall c :: c in RollSet(g) ==> !Movable(g, c)
    ensures Stable(RollSet(g))
  {
    forall p | p in RollSet(g)
      ensures |Within(RollSet(g), p)| >= Crowded
    {
      assert Within(RollSet(g), p) == RollsAround(g, p);
    }
  }

  /** The first pass visits at least every roll movable at the start. */
  lemma FirstPassFreesMovable(g: Grid, visited: seq<Coordinate>)
    requires IsRollGrid(g) && Distinct(visited)
    requires forall c :: c in RollSet(g) ==> (c in visited <==> Movable(View(g, true, visited, c), c))
    ensures |visited| >= |MovableRolls(g)|
  {
    forall c | c in MovableRolls(g)
      ensures c in visited
    {
      RemovingKeepsMovable(g, Earlier(visited, c), c);
    }
    DistinctCard(visited);
    SubsetCard(MovableRolls(g), set v | v in visited);
  }

  /** Part 2: the number of rolls removed in total, with the grid it
      leaves; no answer when Go panics. */
  method Part2(lines: seq<string>) returns (result: Option<int>, final: Grid)
    ensures result.Some? <==> |lines| > 0 && forall y :: 0 <= y < |lines| ==> |lines[0]| <= |lines[y]|
    ensures result.Some? ==>
              var g := MakeGrid(lines).value;
              IsRollGrid(final) && Removal(g, final, result.value)
              && (forall c :: c in RollSet(final) ==> !Movable(final, c))
              && result.value >= |MovableRolls(g)|
              && Stable(RollSet(final))
              && forall S :: Stable(S) && S <= RollSet(g) ==> S <= RollSet(final)
  {
    var grid := MakeGrid(lines);
    final := NewDenseGrid(0, 0, []);
    if grid.None? || !IsRollGrid(grid.value) {
      return None, final;
    }
    var removed;
    final, removed := RemoveAll(grid.value);
    return Some(removed), final;
  }
}
