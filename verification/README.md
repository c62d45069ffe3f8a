# aoc2025 in Dafny

This project models the Go repository `aoc2025`, a set of Advent of Code
2025 solutions, together with the `util` package they share. The model
covers:

- the grid and path-finding library: dense and sparse grids; BFS,
  Dijkstra, flood fill and all-shortest-paths;
- the small containers: stack, the priority heaps, the `IntHeap`, slice
  intersection and `GetOrDefault`;
- the puzzle logic of days 1–10 and 12.

Each operation is a Dafny function or method. Its contract states what the
Go code computes. Lemmas relate each operation to a partner: an inverse, a
reference definition, or an invariant it keeps.

Modelling conventions:

- **Panics.** Where Go panics (a bad number, an empty input it indexes,
  a slice with bounds out of order), the model returns `None`.
  Otherwise the precondition says what the caller must supply.
- **Searches.** The searches are generic over a successor function
  `next: T -> seq<T>`. A ghost `universe` bounds the cells a search can
  reach, which gives the termination argument. `GridSearch` instantiates
  them with a dense grid's `GetNeighbors`.
- **Callbacks.** Go's callback fields (`CostFunc`, `ValidFunc`) become
  function values. The external linear-programming solver of day 10 is a
  parameter `solve`, and the float distance of day 8 is a parameter
  `dist`.
- **Pointers.** Day 1's pointer-linked circular list is an index-linked
  ring: node `i` is `data[i]`, `next[i]` and `prev[i]`.
- **Input text.** Where a puzzle reads text, the model says which text
  reads back to which value. Parse-of-print round trips are proved for
  days 2, 5, 9, 10 and 12.

Day 1's two answers are related by `Day1.ClicksAtLeastStops`: the number
of clicks that land on 0 is at least the number of turns that end on 0.
The bound needs every distance to be positive. With a zero distance a
turn ends on 0 without a click: `Day1.ZeroDistanceCountsTwice` shows
`["R50", "R0"]`, which gives 2 for part 1 and 1 for part 2. The program
treats both answers as counts of the puzzle's own kind, so this is
behaviour of the puzzle rather than a defect.

## Model

| member | source | states |
|---|---|---|
| Points.ManhattanDistance | go/util/point.go:5-7 | zero exactly for equal coordinates, and at least either coordinate difference |
| Points.ManhattanSymmetric | go/util/point.go:5-7 | the distance ignores the carried values and is symmetric |
| Points.Neighbors | go/util/point.go:16-23 | the four unit steps: north and south opposite, east and west opposite, each at distance 1 from the origin, north pointing up |
| Points.Add | go/util/point.go:31-33 | the result is `\|dx\| + \|dy\|` away from the point and carries the zero value |
| Points.Sub | go/util/point.go:35-37 | the result is `\|dx\| + \|dy\|` away from the point and carries the zero value |
| Points.SubUndoesAdd | go/util/point.go:31-37 | subtracting undoes adding, in both orders |
| Points.In | go/util/point.go:39-41 | a point is in the grid exactly when the grid's `At` bounds test accepts it |
| GenericGrid.OffsetInjective | go/util/grid.go:15-36 | distinct in-bounds cells map to distinct, non-negative row-major slots |
| GenericGrid.At | go/util/grid.go:15-24 | nil exactly when out of bounds or past the stored slice; otherwise the cell's row-major slot |
| GenericGrid.Set | go/util/grid.go:26-36 | fails with "coordinates out of bounds" exactly where `At` is nil; otherwise `At` reads the new value and every other slot is unchanged |
| GenericGrid.SetChangesOneCell | go/util/grid.go:26-36 | a successful `Set` leaves what `At` reports for every other cell |
| GenericGrid.AddPoint | go/util/grid.go:38-48 | out of bounds fails; an occupied slot fails with "coordinates already occupied"; a new slot appends the value |
| GenericGrid.AddPointInOrder | go/util/grid.go:38-48 | adding the next row-major cell succeeds, and `At` then reads the value |
| GenericGrid.Neighbors | go/util/grid.go:59-76 | each of the four neighbours is what `At` reads one step away |
| GenericGrid.NeighborsAtEdges | go/util/grid.go:59-76 | a neighbour across the grid's edge is nil |
| GenericGrid.ManhattanMetric | go/util/grid.go:78-80 | the grid distance is symmetric and obeys the triangle inequality |
| Stacks.Push | go/util/stack.go:7-9 | the item goes on top and the items below are kept |
| Stacks.Pop | go/util/stack.go:11-19 | an empty stack gives nothing and stays empty; otherwise the top item is removed and returned |
| Stacks.Peek | go/util/stack.go:21-27 | nothing exactly for an empty stack; otherwise the top item |
| Stacks.IsEmpty | go/util/stack.go:29-31 | empty exactly when there is no top item, and exactly when `Pop` changes nothing |
| Stacks.PopAfterPush | go/util/stack.go:7-19 | popping after a push returns the pushed item and the original stack |
| Stacks.PushAfterPop | go/util/stack.go:7-19 | pushing back the popped item restores a non-empty stack |
| IntHeaps.Len | go/util/intheap.go:6-8 | zero exactly for the empty heap |
| IntHeaps.LessIsStrictOrder | go/util/intheap.go:13-15 | `Less` is irreflexive, asymmetric and transitive, and incomparable positions hold equal values |
| IntHeaps.Swap | go/util/intheap.go:18-20 | exchanges two positions, leaves the rest and keeps the multiset |
| IntHeaps.SwapTwice | go/util/intheap.go:18-20 | swapping twice changes nothing |
| IntHeaps.Pop | go/util/intheap.go:27-33 | removes the last element, so pushing it back restores the heap |
| IntHeaps.PopAfterPush | go/util/intheap.go:23-33 | `Pop` undoes `Push` |
| MapUtil.GetOrDefault | go/util/maps.go:3-8 | the stored value for a present key, the default for a missing one |
| MapUtil.GetOrDefaultIsIndex | go/util/maps.go:3-8 | with the zero value as default it agrees with Go's map index, and the default does not matter for present keys |
| Intersection.Intersect | go/util/intersect.go:3-17 | exactly the values in both slices, without repeats, ordered by first position in the second slice |
| Intersection.MarkAll | go/util/intersect.go:5-8 | the set of values of the first slice, each marked unseen |
| Intersection.HasIntersection | go/util/intersect.go:19-21 | true exactly when some value is in both slices |
| Heaps.LowestIndex | go/util/heap.go:15-17 | the leftmost position of least priority |
| Heaps.PopLowest | go/util/heap.go:28-34 | removes one item of least priority and keeps the rest |
| Heaps.NewMinHeap | go/util/heap.go:72-77 | holds exactly the given items |
| Heaps.MinPush | go/util/heap.go:83-85 | adds the item with its priority |
| Heaps.MinPopItem | go/util/heap.go:92-94 | removes and returns an item no other item undercuts |
| Heaps.MinPop | go/util/heap.go:87-90 | returns the value of an item of least priority and removes that item |
| Heaps.DrainSorted | go/util/heap.go:87-94 | popping until empty yields every item once, in non-decreasing priority |
| Heaps.NewMaxHeap | go/util/heap.go:37-44 | holds the given items with negated priorities |
| Heaps.MaxInit | go/util/heap.go:50-54 | replaces the heap with as many zero items as were passed |
| Heaps.MaxPush | go/util/heap.go:56-58 | stores the item with its priority negated |
| Heaps.MaxPopItem | go/util/heap.go:65-67 | removes and returns an item of greatest original priority |
| Heaps.MaxPop | go/util/heap.go:60-63 | returns the value of an item of greatest original priority, and the heap left holds exactly the other items |
| Heaps.MaxPopReturnsLargest | go/util/heap.go:37-67 | after `NewMaxHeap(items...)` the first pop is one of the items and has the largest priority |
| Coordinates.Add | go/util/pathfind.go:16-18 | the result is `\|dx\| + \|dy\|` from the coordinate |
| Coordinates.ManhattanDistance | go/util/pathfind.go:20-22 | zero exactly for equal coordinates |
| Coordinates.ManhattanMetric | go/util/pathfind.go:20-22 | symmetric, with the triangle inequality |
| Coordinates.DirectionSets | go/util/pathfind.go:24-36 | `Directions4` is the four cells at distance 1; `Directions8` is the eight distinct cells of the surrounding 3x3 box, including the four |
| PathGrids.NewDenseGrid | go/util/pathfind.go:63-70 | a dense grid with four directions and no callbacks |
| PathGrids.NewDenseGridWithCost | go/util/pathfind.go:72-80 | a dense grid with the cost callback only |
| PathGrids.NewDenseGridWithOptions | go/util/pathfind.go:82-91 | a dense grid with both callbacks as given |
| PathGrids.ConstructorsAgree | go/util/pathfind.go:63-91 | the plainer constructors are `WithOptions` with the missing callbacks left nil, for dense and sparse grids |
| PathGrids.NewDenseGridFromLines | go/util/pathfind.go:93-109 | nil exactly for no lines; otherwise the first line's width, every line a row, and readable everywhere exactly when no line is shorter than the first |
| PathGrids.FromLinesOpenCells | go/util/pathfind.go:93-136 | on a grid read from lines, a cell is open exactly when inside and not '#', and moving onto it costs 1 (otherwise -1) |
| PathGrids.NewSparseGrid | go/util/pathfind.go:184-193 | an empty sparse grid whose bounding box starts inverted |
| PathGrids.NewSparseGridWithCost | go/util/pathfind.go:195-205 | an empty sparse grid with the cost callback only |
| PathGrids.NewSparseGridWithOptions | go/util/pathfind.go:207-218 | an empty sparse grid with both callbacks as given |
| PathGrids.IsValidMeansOpen | go/util/pathfind.go:111-123 | dense grids reject out-of-bounds cells; without a `ValidFunc` a cell is valid exactly when it does not hold '#' (a sparse grid's absent cell is open); only a grid without a `ValidFunc` needs the cell to be readable |
| PathGrids.GetCost | go/util/pathfind.go:125-136 | -1 exactly for an invalid target; otherwise the cost callback's answer, or 1 without one |
| PathGrids.GetNeighbors | go/util/pathfind.go:138-147 | exactly the valid cells one direction away, always in the order of the grid's directions (each is pos+d for a direction d later than the previous one's), and all of them when all are valid |
| PathGrids.NeighborsAlong | go/util/pathfind.go:262-271 | the sparse grid's loop: exactly the valid cells along the given directions |
| PathGrids.NeighborsAlongInOrder | go/util/pathfind.go:262-271 | whichever probes are valid, the cells come out in the order of the directions that produced them |
| PathGrids.At | go/util/pathfind.go:161-166 | nil exactly out of bounds (dense) or for an absent cell (sparse); otherwise the stored rune |
| PathGrids.SetCell | go/util/pathfind.go:168-172 | needs only the written row to reach the cell, as Go touches no other row; writes the cell and changes no other readable cell; out of bounds is ignored on a dense grid; a well-formed grid stays well-formed; a sparse grid's bounding box grows to hold the cell |
| PathGrids.SetCellThenAt | go/util/pathfind.go:168-172 | on a dense grid, ragged or not, writing the rune a cell already holds changes nothing |
| PathGrids.FindCoordinates | go/util/pathfind.go:149-159 | exactly the cells holding the rune, without repeats, in row-major order on a dense grid |
| PathGrids.DenseCellsClosed | go/util/pathfind.go:138-147 | a dense grid's neighbours never leave its cells, which bounds every search |
| BreadthFirst.BFS | go/util/pathfind.go:300-355 | start equal to goal gives the one-cell path; a found path is a walk from start to goal of cost one less than its length, and no walk is shorter; not found means no walk reaches the goal; distance labels are true walk lengths |
| BreadthFirst.ReconstructPath | go/util/pathfind.go:327-332 | following parents back from the goal gives a walk from start to goal as long as the goal's label says |
| BreadthFirst.Expand | go/util/pathfind.go:339-346 | labels each unlabelled successor one more than the current cell and queues it |
| BreadthFirst.FloodFill | go/util/pathfind.go:606-628 | every label is the length of some walk; every reachable cell is labelled no later than any walk to it reaches it; nothing unreachable is labelled |
| Dijkstras.Relax | go/util/pathfind.go:433-451 | every non-negative edge out of the settled cell is relaxed, and a negative one is skipped |
| Dijkstras.PopLeast | go/util/pathfind.go:409-416 | a cell popped for the first time carries the least cost of any usable walk to it from the start |
| Dijkstras.Dijkstra | go/util/pathfind.go:389-460 | start equal to goal gives the one-cell path at cost 0; a found path is a walk from start to goal with no negative step, its cost is the reported cost and the goal's label, and no such walk costs less; not found means no such walk reaches the goal |
| AllShortestPaths.Extend | go/util/pathfind.go:662-671 | each extension adds one successor of the path's end, kept only while it does not worsen the best known arrival |
| AllShortestPaths.FindAllShortestPaths | go/util/pathfind.go:631-676 | every result is a repeat-free walk from start to goal; no walk from start to goal is shorter; every walk from start to goal of that length is among the results; there are none exactly when the goal is unreachable; `[[start]]` when start is the goal |
| GridSearch.GridBFS | go/util/pathfind.go:300-355 | BFS on a dense grid: the path is a shortest neighbour path, and not found means the goal is unreachable |
| GridSearch.GridFloodFill | go/util/pathfind.go:606-628 | flood fill on a dense grid labels every reachable cell with at most the walk length |
| GridSearch.GridDijkstra | go/util/pathfind.go:389-460 | Dijkstra on a dense grid with `GetCost` as the edge cost: a found path is a usable neighbour path from start to goal of the reported cost and no such path costs less; not found means none reaches the goal |
| GridSearch.GridFindAllShortestPaths | go/util/pathfind.go:631-676 | all-shortest-paths on a dense grid: exactly the shortest neighbour paths from start to goal, none exactly when the goal is unreachable |
| Strings.Atoi | go/util/strconv.go:8-15 | a result only for non-empty text, and always within Go's `int` range |
| Strings.AtoiItoa | go/util/strconv.go:8-15 | reading back a printed `int` gives the number |
| Strings.SplitJoin | go/solutions/day2/main.go:55-69 | `strings.Split` undoes `strings.Join` when no part holds the separator |
| Strings.TrimSpace | go/solutions/day12/main.go:67-71 | the result neither starts nor ends with white space, and text already trimmed is unchanged |
| Strings.TrimSpaceEmpty | go/solutions/day6/main.go:26-28 | a line trims to nothing exactly when it is all white space |
| Day1.InsertToEmpty | go/solutions/day1/main.go:112-123 | the new node is head and tail and links to itself |
| Day1.InsertBeginning | go/solutions/day1/main.go:125-139 | the new node becomes head, linked after the tail |
| Day1.InsertEnd | go/solutions/day1/main.go:141-156 | the new node becomes tail, linked before the head |
| Day1.InsertEndKeepsRing | go/solutions/day1/main.go:141-156 | appending to a ring in some order gives a ring in that order followed by the new node |
| Day1.InsertEndLinks | go/solutions/day1/main.go:141-156 | after an append, `next` and `prev` step through that order in both directions |
| Day1.InsertBeginningKeepsRing | go/solutions/day1/main.go:125-139 | prepending gives a ring in the new node's order followed by the old order |
| Day1.InsertBeginningLinks | go/solutions/day1/main.go:125-139 | after a prepend, `next` and `prev` step through that order in both directions |
| Day1.GetDial | go/solutions/day1/main.go:91-98 | the dial: nodes 0 to 99, holding 0 to 99, in a ring in that order |
| Day1.TurnRightOnDial | go/solutions/day1/main.go:36-43 | turning right `d` clicks from `p` lands on `(p + d) mod 100` |
| Day1.TurnLeftOnDial | go/solutions/day1/main.go:36-43 | turning left `d` clicks from `p` lands on `(p - d) mod 100` |
| Day1.HitsRightOnDial | go/solutions/day1/main.go:75-85 | a right turn lands on 0 `(p + d) div 100` times |
| Day1.HitsLeftOnDial | go/solutions/day1/main.go:75-85 | a left turn lands on 0 `(d + (100 - p) mod 100) div 100` times |
| Day1.FindStart | go/solutions/day1/main.go:18-25 | walking from the head finds the node holding 50 |
| Day1.ParseLine | go/solutions/day1/main.go:29-34 | an empty line is skipped; otherwise 'R' turns right, any other letter left, and the rest must be a number |
| Day1.CountStopsIsArithmetic | go/solutions/day1/main.go:27-48 | part 1's walk over the list counts the same turns as arithmetic modulo 100 |
| Day1.CountClicksIsArithmetic | go/solutions/day1/main.go:66-88 | part 2's click-by-click walk counts the multiples of 100 each turn passes |
| Day1.Part1 | go/solutions/day1/main.go:14-51 | no answer exactly when some line is malformed; otherwise the number of turns that end on 0, starting from 50 |
| Day1.Part2 | go/solutions/day1/main.go:53-89 | no answer exactly when some line is malformed; otherwise the number of clicks that land on 0 |
| Day1.ClicksCoverStops | go/solutions/day1/main.go:36-47 | with positive distances, every turn ending on 0 also clicks onto 0 |
| Day1.ClicksAtLeastStops | go/solutions/day1/main.go:14-89 | with positive distances, part 2's answer is at least part 1's |
| Day1.ZeroDistanceCountsTwice | go/solutions/day1/main.go:33-47 | `["R50", "R0"]` gives 2 for part 1 and 1 for part 2 |
| Day2.RepeatIsCyclic | go/solutions/day2/main.go:94-107 | a unit written out `k` times runs through the unit cyclically |
| Day2.CyclicIsRepeat | go/solutions/day2/main.go:94-107 | text that runs cyclically through a unit is that unit repeated |
| Day2.IsRepeatedIffRepetition | go/solutions/day2/main.go:71-92 | some prefix repeating through the text is the same as being a unit repeated at least twice |
| Day2.MidpointCutLosesNothing | go/solutions/day2/main.go:71-92 | a prefix longer than half the text can never be a repeated unit |
| Day2.SingleDigitNeverRepeats | go/solutions/day2/main.go:71-92 | a one-digit number is never a repetition |
| Day2.NegativeNeverRepeats | go/solutions/day2/main.go:71-92 | a negative number is never a repetition |
| Day2.TestSequence | go/solutions/day2/main.go:94-107 | true exactly when the text is non-empty and runs cyclically through the unit |
| Day2.DetectRepeat | go/solutions/day2/main.go:71-92 | true exactly when the number's decimal text is some unit repeated at least twice |
| Day2.ParseTokens | go/solutions/day2/main.go:58-66 | no answer exactly when some token is not "a-b"; otherwise the ranges in order |
| Day2.ParseLineText | go/solutions/day2/main.go:55-69 | a line written from ranges of non-negative numbers reads back as those ranges |
| Day2.SumRepeats | go/solutions/day2/main.go:20-30 | the sum of the repeated numbers over all ranges |
| Day2.Part1 | go/solutions/day2/main.go:16-31 | no answer exactly when parsing would panic; otherwise the sum of repeated numbers in the ranges |
| Day2.Part2 | go/solutions/day2/main.go:33-48 | the same answer as part 1 |
| Day3.MaxOf | go/solutions/day3/main.go:38-43 | the largest element, which occurs |
| Day3.PairMaxIsMax | go/solutions/day3/main.go:35-53 | the reference pair value is the best two-digit joltage of the bank |
| Day3.MaxPairUnique | go/solutions/day3/main.go:35-53 | there is only one best two-digit joltage |
| Day3.FirstMax | go/solutions/day3/main.go:38-43 | the largest digit before the last and its first position; position -1 when all those digits are 0 |
| Day3.SecondMax | go/solutions/day3/main.go:45-50 | the largest digit after that position |
| Day3.MaxJoltage | go/solutions/day3/main.go:35-53 | no answer exactly for an empty line or a non-digit; otherwise a value from 0 to 99: the best two-digit joltage, or the digit itself for a one-digit line |
| Day3.MaxJoltageIsMaxPair | go/solutions/day3/main.go:35-53 | the two loops' digits give the best pair |
| Day3.PopSmaller | go/solutions/day3/main.go:61-69 | pops only smaller digits, one removal each, and stops at a digit no smaller or when removals run out |
| Day3.GreedyStep | go/solutions/day3/main.go:60-71 | one digit of the greedy loop keeps the stack greedy |
| Day3.GreedyIsBest | go/solutions/day3/main.go:55-82 | the greedy stack's first `n` digits are the largest `n`-digit subsequence |
| Day3.ReadNumber | go/solutions/day3/main.go:73-78 | the first `count` digits read as a decimal number |
| Day3.MaxJoltageArbitrary | go/solutions/day3/main.go:55-82 | no answer exactly for a non-digit or too-short line; otherwise the largest `n`-digit number the bank's digits can form in order |
| Day3.BestTwoIsMaxPair | go/solutions/day3/main.go:35-82 | the best two-digit subsequence is exactly part 1's joltage |
| Day3.Part1 | go/solutions/day3/main.go:15-23 | no answer exactly when a line is empty or holds a non-digit; otherwise the sum of every bank's best two-digit joltage |
| Day3.Part2 | go/solutions/day3/main.go:25-33 | no answer exactly when a line is shorter than 12 or holds a non-digit; otherwise the sum of every bank's best twelve-digit joltage |
| Day4.MakeGrid | go/solutions/day4/main.go:45-53 | nil exactly for no lines; every line a row, readable everywhere exactly when no line is shorter than the first |
| Day4.CountNeighborRolls | go/solutions/day4/main.go:58-67 | counting rolls among the eight neighbours gives the number of roll cells around |
| Day4.CountAdjacent | go/solutions/day4/main.go:58-67 | the capped neighbour count is below four exactly when the roll is movable |
| Day4.Removing | go/solutions/day4/main.go:68-70 | removing writes 'X' over exactly the listed in-bounds cells |
| Day4.RemovingRollSet | go/solutions/day4/main.go:68-70 | after removal the rolls are the old rolls less the removed ones |
| Day4.RemovingKeepsMovable | go/solutions/day4/main.go:55-72 | removing rolls never makes a movable roll immovable |
| Day4.VisitMovableRolls | go/solutions/day4/main.go:55-72 | visits, in row-major order, exactly the rolls movable in the grid as it stands when the scan reaches them |
| Day4.Part1 | go/solutions/day4/main.go:14-25 | the number of rolls movable in the original grid |
| Day4.RemoveAll | go/solutions/day4/main.go:27-43 | repeats passes until no roll is movable; the count is the rolls removed, at least part 1's; the rolls left are the largest stable set of the original rolls, every one of them with at least four of them around it |
| Day4.Part2 | go/solutions/day4/main.go:27-43 | the rolls removed until none is movable, at least as many as part 1; what is left is the largest stable set of the original rolls, so exactly the rolls outside every stable set are removed |
| Day4.PassSparesStable | go/solutions/day4/main.go:55-72 | a removal pass never takes a roll of a stable set |
| Day4.StuckIsStable | go/solutions/day4/main.go:36-40 | once no roll is movable, the rolls left form a stable set |
| Day5.Sort | go/solutions/day5/main.go:79 | ordered by start, a permutation of the input, and an already ordered input is unchanged |
| Day5.Sweep | go/solutions/day5/main.go:81-94 | the merge loop gives separated ranges, no more than it was given |
| Day5.Consolidate | go/solutions/day5/main.go:74-96 | empty exactly for no ranges; separated; no more ranges than the input |
| Day5.ConsolidateCovers | go/solutions/day5/main.go:74-96 | the consolidated ranges hold exactly the IDs the input holds |
| Day5.ConsolidateEndpoints | go/solutions/day5/main.go:74-96 | each consolidated range starts at an input start and ends at an input end |
| Day5.ConsolidateIdempotent | go/solutions/day5/main.go:74-96 | consolidating twice is consolidating once |
| Day5.TotalLengthCounts | go/solutions/day5/main.go:67-69 | for separated ranges, the summed lengths are the number of IDs covered |
| Day5.ConsolidatedLength | go/solutions/day5/main.go:51-72 | part 2's sum is the number of fresh IDs |
| Day5.FirstBlank | go/solutions/day5/main.go:28-31 | the first blank line, or the end |
| Day5.ParseRangeText | go/solutions/day5/main.go:33-37 | a range of non-negative IDs reads back from its text |
| Day5.InSomeRange | go/solutions/day5/main.go:40-45 | true exactly when some range holds the ID |
| Day5.Part1 | go/solutions/day5/main.go:21-49 | no answer exactly when a range or ID line is malformed; otherwise the number of listed IDs that some range holds |
| Day5.Part2 | go/solutions/day5/main.go:51-72 | no answer exactly when a range line is malformed; otherwise the summed lengths of the consolidated ranges, which is the number of fresh IDs when no range is inverted |
| Day5.SumLengths | go/solutions/day5/main.go:67-69 | the total length of the ranges |
| Day6.ResetProductMeaning | go/solutions/day6/main.go:58-61 | the '*' loop's reset makes the result the product of the factors after the last zero, or zero when the last factor is zero |
| Day6.ResetProductWithoutZeros | go/solutions/day6/main.go:58-61 | without zero factors the result is the plain product |
| Day6.Evaluate | go/solutions/day6/main.go:51-65 | the evaluation loop adds up every problem's contribution |
| Day6.AddTokens | go/solutions/day6/main.go:31-48 | one row's tokens go to the problems by column, failing exactly when a token is unreadable |
| Day6.ParseRowsByColumns | go/solutions/day6/main.go:20-48 | reading row by row is reading each column's tokens as one problem, and fails exactly when some column fails |
| Day6.Part1 | go/solutions/day6/main.go:20-68 | no answer exactly when a token is unreadable; otherwise the sum of the column problems |
| Day6.ScanColumnMeaning | go/solutions/day6/main.go:79-109 | scanning a column down collects its digits up to an operator, or stops at a short row |
| Day6.AllReadableMeaning | go/solutions/day6/main.go:79-109 | all columns readable means no column stops at a short row |
| Day6.ReadColumnsCounts | go/solutions/day6/main.go:79-109 | reading right to left closes one problem per operator column and keeps one number per digit column |
| Day6.ReadColumnsFail | go/solutions/day6/main.go:79-109 | once a column fails, every reading that includes it fails |
| Day6.Part2 | go/solutions/day6/main.go:70-128 | no answer exactly when the lines are empty or a column is unreadable; otherwise the sum of the problems read right to left |
| Day7.FallTilSplit | go/solutions/day7/main.go:117-131 | the first non-empty cell below the start, with only empty cells between; nil when the water falls off the grid |
| Day7.SimulateWaterCloses | go/solutions/day7/main.go:90-115 | every newly visited cell is a stop, the first stop is visited, and every split's two branches are visited |
| Day7.SimulateWaterReaches | go/solutions/day7/main.go:90-115 | every newly visited stop is reachable from the first stop |
| Day7.SimulateWaterCounts | go/solutions/day7/main.go:90-115 | the count is the number of stops reached from the source, a set closed under splitting |
| Day7.FindSource | go/solutions/day7/main.go:47 | the first 'S' in row-major order: every other 'S' comes after it; nil when there is none |
| Day7.FirstSourceUnique | go/solutions/day7/main.go:47 | there is only one first 'S' |
| Day7.Part1 | go/solutions/day7/main.go:44-51 | no answer without an 'S'; otherwise the stops the water reaches from the first 'S' |
| Day7.Neighbors | go/solutions/day7/main.go:24-42 | nothing out of bounds; a splitter's two sides; otherwise the cell below |
| Day7.RankDecreases | go/solutions/day7/main.go:24-42 | without side-by-side splitters above the bottom row every move makes progress, so the search ends |
| Day7.Dfs | go/solutions/day7/main.go:62-84 | the memoised count equals the unmemoised number of routes, and the memo stays sound |
| Day7.Part2 | go/solutions/day7/main.go:53-88 | an answer exactly when the grid has an 'S' and no side-by-side splitters above the bottom row; then the number of routes from the first 'S' to the bottom |
| Day8.AllPairsMinHeap | go/solutions/day8/main.go:128-140 | every pair of distinct boxes is pushed once, `n(n-1)/2` in all, with its distance |
| Day8.PushRow | go/solutions/day8/main.go:131-138 | pushes the pairs of box `i` with every later box |
| Day8.BuildGraph | go/solutions/day8/main.go:142-153 | wires the first `k` pairs popped, closest first, symmetrically |
| Day8.WiredSymmetric | go/solutions/day8/main.go:148-149 | the adjacency lists are symmetric and name boxes only |
| Day8.WiredPairsAreClosest | go/solutions/day8/main.go:142-153 | no unwired pair is closer than a wired one |
| Day8.IsConnected | go/solutions/day8/main.go:155-175 | true exactly when every box is reachable from box 0 |
| Day8.MarkedAllMeansConnected | go/solutions/day8/main.go:155-175 | the search marks every box exactly when the graph is connected |
| Day8.ComponentSizes | go/solutions/day8/main.go:51-77 | the sizes are positive and add up to the number of boxes; with symmetric lists each start box lies in no earlier circuit, no two start boxes reach each other, every box is reached from one, and each size is its start box's whole circuit |
| Day8.Explore | go/solutions/day8/main.go:58-76 | one breadth-first search marks exactly the circuit of its start box on top of the old marks, and its size counts the newly marked boxes |
| Day8.CircuitsApart | go/solutions/day8/main.go:51-77 | with symmetric lists the recorded start boxes are apart and the sizes are their circuits' sizes |
| Day8.WholeCircuit | go/solutions/day8/main.go:51-77 | with symmetric lists no earlier circuit overlaps a later start box's circuit, so its size is its whole circuit |
| Day8.SortDescending | go/solutions/day8/main.go:79-81 | descending and a permutation of the sizes |
| Day8.SortedHeadIsLargest | go/solutions/day8/main.go:79-81 | the first size is the largest |
| Day8.TopThree | go/solutions/day8/main.go:83-88 | the three largest sizes, with 0 for missing ones |
| Day8.Part1 | go/solutions/day8/main.go:33-89 | the pairs come out closest first, each once; the sizes are, in descending order, the sizes of the circuits of the graph wired from the first `numConns` pairs, one per circuit; the answer is the product of the three largest |
| Day8.WireUntilConnected | go/solutions/day8/main.go:100-118 | stops at the first pair after which all boxes are connected, or reports there is none |
| Day8.FirstConnectionUnique | go/solutions/day8/main.go:100-118 | there is only one first connecting pair |
| Day8.FirstConnectionFound | go/solutions/day8/main.go:100-118 | the answer is found exactly when some pair connects everything, and then it is the first one |
| Day8.Part2 | go/solutions/day8/main.go:91-119 | the x-coordinate product of the first pair that connects every box, over every pair once in distance order |
| Day9.ParsePointText | go/solutions/day9/main.go:29-32 | a point reads back from "x,y" |
| Day9.IsInMeaning | go/solutions/day9/main.go:100-107 | strictly inside in both axes, whichever corner comes first, and never on the rectangle's border |
| Day9.AreaFacts | go/solutions/day9/main.go:42-44 | the tile area is symmetric in its corners and at least 2 for distinct corners |
| Day9.EdgePointsMeaning | go/solutions/day9/main.go:122-139 | exactly the tiles of the half-open axis-parallel segment, as many as its length, the same whichever end comes first |
| Day9.CollectEdgePointsMeaning | go/solutions/day9/main.go:109-120 | the collected tiles are exactly the tiles of the closed loop |
| Day9.ClearMeaning | go/solutions/day9/main.go:83-88 | clear of the collected tiles means clear of every loop tile |
| Day9.LargestRectangle | go/solutions/day9/main.go:34-52 | the largest area over pairs of different points, and the first pair that reaches it |
| Day9.Part1 | go/solutions/day9/main.go:24-55 | no answer exactly for a malformed line; otherwise the largest rectangle area |
| Day9.AnyInside | go/solutions/day9/main.go:83-88 | true exactly when some edge tile lies strictly inside |
| Day9.LargestClearRectangle | go/solutions/day9/main.go:57-98 | the largest area over pairs whose rectangle holds no edge tile inside |
| Day9.Part2 | go/solutions/day9/main.go:57-98 | no answer exactly for no lines or a malformed line; otherwise the largest rectangle that no loop tile enters |
| Day10Lights.InitIndicators | go/solutions/day10/main.go:91-97 | `num` lights, all off |
| Day10Lights.SerializeInjective | go/solutions/day10/main.go:99-109 | two light vectors serialize alike exactly when they are equal |
| Day10Lights.DeserializeSerialize | go/solutions/day10/main.go:99-109 | serializing is undone by reading the bits back |
| Day10Lights.PressParity | go/solutions/day10/main.go:51-56 | a press flips a light exactly when the button lists it an odd number of times |
| Day10Lights.PressTwice | go/solutions/day10/main.go:51-56 | pressing a button twice changes nothing |
| Day10Lights.PressCommute | go/solutions/day10/main.go:51-56 | the order of two presses does not matter |
| Day10Lights.SignVectorsClosed | go/solutions/day10/main.go:44-60 | presses never leave the finite set of light vectors, so the search ends |
| Day10Lights.WalkPresses | go/solutions/day10/main.go:44-60 | every walk of the search is a sequence of presses |
| Day10Lights.PressesWalk | go/solutions/day10/main.go:44-60 | every sequence of presses is a walk of the search |
| Day10Lights.FewestPresses | go/solutions/day10/main.go:33-68 | no answer exactly when a button names a missing light and the lights are not already as wanted (Go's index panics); otherwise the fewest presses that light the wanted pattern, or 0 when no presses do |
| Day10Lights.FewestUnique | go/solutions/day10/main.go:33-68 | only one count is the fewest |
| Day10Lights.Part1 | go/solutions/day10/main.go:28-72 | no answer when a line is malformed or a search would panic; otherwise the sum over the machines of the fewest presses |
| Day10Joltage.BumpCount | go/solutions/day10/main.go:115-123 | a press raises a counter by the number of times the button lists it |
| Day10Joltage.CountListings | go/solutions/day10/main.go:117-121 | how many times a button lists a counter |
| Day10Joltage.CoefficientMatrix | go/solutions/day10/main.go:112-124 | row `j`, column `i` is how many times button `i` lists counter `j` |
| Day10Joltage.ApplyCounts | go/solutions/day10/main.go:112-130 | the counters after some presses are the matrix times the press counts |
| Day10Joltage.WriteTerms | go/solutions/day10/main.go:180-200 | a constraint's left side: the nonzero coefficients with their signs |
| Day10Joltage.WriteConstraints | go/solutions/day10/main.go:175-205 | one equality per counter with its target |
| Day10Joltage.GenerateLP | go/solutions/day10/main.go:156-215 | the program text: minimise the press total, one constraint per counter, non-negative integer variables |
| Day10Joltage.EvalTerms | go/solutions/day10/main.go:180-200 | the written terms evaluate to the row times the variables |
| Day10Joltage.FeasibleMeansReached | go/solutions/day10/main.go:112-215 | press counts satisfy the program exactly when the presses reach the joltage targets, and their sum is the number of presses |
| Day10Joltage.FeasibleFromPresses | go/solutions/day10/main.go:112-215 | every solution of the program is a sequence of presses that reaches the targets |
| Day10Joltage.MachineLP | go/solutions/day10/main.go:112-130 | the program for one machine |
| Day10Joltage.TallySum | go/solutions/day10/main.go:83-85 | with no failed solve the tally is the plain total |
| Day10Joltage.SolveAll | go/solutions/day10/main.go:78-86 | the solver's answer for each machine's program, in order |
| Day10Joltage.Part2 | go/solutions/day10/main.go:74-89 | no answer exactly when a line is malformed; otherwise the tally of the solver's answers |
| Day10Machines.Lights | go/solutions/day10/main.go:277-283 | '#' is a lit light and anything else an unlit one |
| Day10Machines.ParseOpsSection | go/solutions/day10/main.go:286-298 | the button section reads back as the buttons |
| Day10Machines.SectionsOf | go/solutions/day10/main.go:276-306 | the three sections are cut at the last ']' and the first '{' |
| Day10Machines.ParseMachineText | go/solutions/day10/main.go:268-312 | a machine's line reads back as the machine |
| Day12Shapes.Rotate | go/solutions/day12/main.go:156-173 | a quarter turn swaps the dimensions and gives an exact mask |
| Day12Shapes.RotateCell | go/solutions/day12/main.go:164-170 | row `r`, column `c` moves to row `c`, column `height - 1 - r` |
| Day12Shapes.RotateTwice | go/solutions/day12/main.go:156-173 | two quarter turns reverse the rows and the columns |
| Day12Shapes.RotateFour | go/solutions/day12/main.go:156-173 | four quarter turns give back the mask, and the very shape when it is exact |
| Day12Shapes.RotateShape | go/solutions/day12/main.go:156-173 | the loops write exactly the quarter turn |
| Day12Shapes.ShapeArea | go/solutions/day12/main.go:189-199 | the number of occupied cells |
| Day12Shapes.AreaBounds | go/solutions/day12/main.go:189-199 | between zero and the bounding box's area |
| Day12Shapes.RotateArea | go/solutions/day12/main.go:109-115 | a quarter turn keeps the area |
| Day12.ParseRow | go/solutions/day12/main.go:80-95 | '#' marks an occupied cell, every other character an empty one |
| Day12.ReadRowsMeaning | go/solutions/day12/main.go:80-95 | the rows are the trimmed lines up to the first blank one |
| Day12.Pad | go/solutions/day12/main.go:98-107 | short rows are padded with empty cells to the width |
| Day12.MakeShape | go/solutions/day12/main.go:96-116 | the first row fixes the width; every row is padded to it |
| Day12.MakeShapeStored | go/solutions/day12/main.go:96-116 | a shape built from rows fits its mask and carries its three quarter turns |
| Day12.StoredTurns | go/solutions/day12/main.go:109-115 | each stored turn has the shape's area, and the third turned once more is the shape |
| Day12.ParseShapes | go/solutions/day12/main.go:64-119 | the shape phase stops at the first dimension line, or at the end |
| Day12.ParseShapesStored | go/solutions/day12/main.go:64-119 | every shape read carries its turns, and none read earlier is lost |
| Day12.RegionLines | go/solutions/day12/main.go:122-129 | keeps only lines holding ':' |
| Day12.ParseRegionText | go/solutions/day12/main.go:122-151 | a region's line "WxH: c0 c1 ..." reads back as the region |
| Day12.ParseAllText | go/solutions/day12/main.go:58-154 | an input written from shapes and regions reads back as those shapes and regions |
| Day12.DemandNonNegative | go/solutions/day12/main.go:176-186 | presents never cover a negative number of cells |
| Day12.RegionFeasibleByArea | go/solutions/day12/main.go:176-186 | no answer exactly when the region asks for an unread shape; otherwise whether the presents' total area fits the region |
| Day12.Part1 | go/solutions/day12/main.go:31-46 | no answer when parsing fails or a region asks for a shape that was not read; otherwise the number of regions that pass the area test |

## Left out

- Day8.IsConnected: requires at least one box, because Go indexes `visited[0]` and panics on an empty graph.
- Day8.BuildGraph: wires the first `min(k, pairs)` pops. Go's loop pops `k` times and stops early when the heap is empty, which is the same.
- Day7.Part2: gives no answer when two splitters stand side by side above the bottom row, even where the water never reaches them. The Go recursion loops only when it reaches such a pair. Splitters side by side on the bottom row are harmless: the search returns there before looking at the neighbours.
- Day1.ClicksAtLeastStops: requires positive distances, because a zero distance ends a turn on 0 without a click (`Day1.ZeroDistanceCountsTwice`).
- Day1.ClicksCoverStops: the same requirement.
- Strings.Atoi: the contract states only the range of the result. The accepted syntax (an optional '+' or '-', then decimal digits) is its definition, and `Strings.AtoiItoa` proves it reads back every printed `int`.
- Heaps.MinPopItem: `container/heap`'s sift-up and sift-down are not modelled. The heap is its item multiset, and a pop removes the leftmost least-priority item. Go may return another item of the same priority.
- Heaps.MaxPopItem: the same tie caveat.
- The `DijkstraHeap` of `pathfind.go` is modelled by the shared min-heap.
- A* (`AStar`, `AStarHeap`) and its heuristics are not modelled. `EuclideanHeuristic` uses floating point, and no puzzle in the model calls A*.
- PathGrids.IsValid, PathGrids.GetCost, PathGrids.GetNeighbors: a `ValidFunc` or `CostFunc` receives only the grid's cell store and the coordinates. Go passes the grid as a `GridInterface`, so a callback could also call `GetNeighbors`, `IsValid` or `GetCost` on it; the model's callbacks cannot. `TerrainCostFunc`, the one callback in `pathfind.go`, reads only cells.
- `TerrainCostFunc`, `DirectionalCostFunc` and `TimeCostFunc` are not modelled. They use floating point and a clock. Cost callbacks are parameters.
- `Grid.Print` and every `fmt.Println` in the solutions are output only.
- Reading the input file (`readFile.go`) is not part of this model. The puzzles take the lines as a sequence of strings.
- `util.MustConvAtoi2` is not part of this model. Day 5's range line is modelled as splitting on '-' and reading two numbers with `Atoi`.
- Day 8's Euclidean `distance` is floating point. It is the parameter `dist`, and the model assumes nothing about it.
- Day 8 and day 5 sort with Go's unstable `slices.SortFunc` and `sort.Slice`. The model uses a stable insertion sort. Day 8 sorts plain integers, so ties do not matter there. For day 5 the order of ranges with equal starts is irrelevant only when every range starts no later than it ends.
- Day5.Part2: the count of fresh IDs is proved only for ranges that start no later than they end. With an inverted range the answer depends on how ties in the sort are broken. For `1-5`, `6-3`, `6-10` the model's stable order gives 8, and the other order gives 10. Go's `sort.Slice` may pick either.
- Day 10's `solveCBC` and `parseCBCSolution` are not modelled. They write the program to a file, run the `cbc` binary through `os/exec`, and parse floats from its solution file. The solver is the parameter `solve` from program text to answer. Despite its name, `solveMachineZ3` only builds the coefficient matrix and calls `solveCBC`; the matrix is modelled.
- Day10Joltage.Part2: "no answer exactly when a line is malformed" holds only for the solver as a parameter. Go panics when `cbc` fails (go/solutions/day10/main.go:147-149), and the model has no such failure.
- Day 12's `pack` is an empty stub.
- Day 12's `dimensionRegex` is modelled as the predicate it decides, not as a regular-expression engine.
- Day8.Part2: Go stores the coordinates as `float64` and prints the `float64` product of the two x coordinates with `%f`, so with six zero decimals. The model returns the exact integer product. The two agree while every coordinate and the product are at most 2^53 in size, where `float64` holds integers exactly. Past that bound Go rounds and the model does not.
- Day9.LargestRectangle, Day9.LargestClearRectangle, Day9.Part1, Day9.Part2: Go turns each side, `|dx| + 1`, into a `float64`, multiplies the two sides in `float64`, and truncates the product back to `int`. The model multiplies exact integers. The areas, and so the largest one and the pair that reaches it, agree while every side and every area is at most 2^53. Past that bound Go's product is rounded, and the model does not round it.
- Go's `int` is 64 bits. The model's integers are unbounded, so sums and products that would overflow are not wrapped. The parsers check that each number read fits in `int`.
- Go slices strings by bytes. The model indexes characters, which agree on the ASCII input the puzzles read.
- Day 1's list nodes are allocated on the heap in Go. The model keeps them in an arena indexed by position.
- Day 11 and the template directory are not part of this model.
