/** Day 1: a dial numbered 0 to 99, kept as a circular doubly linked list,
    is turned right (`next`) or left (`prev`) by each instruction "R<d>" or
    "L<d>", starting from 50. Part 1 counts the instructions that leave the
    dial on 0; part 2 counts every single click that lands on 0.

    The list's nodes live in an arena: node `k` holds `data[k]`, and
    `next[k]` and `prev[k]` are the arena indices of its neighbours. A new
    node is always the next free index, and `None` stands for a nil
    `head` or `tail`. */
module Day1 {
  import opened Wrappers
  import opened Strings
  import opened Walks
  import opened Ints

  datatype Ring = Ring(data: seq<int>, next: seq<nat>, prev: seq<nat>,
                       head: Option<nat>, tail: Option<nat>, length: int)

  /** The zero-valued `CircularDoublyLinkedList{}`. */
  const EmptyRing: Ring := Ring([], [], [], None, None, 0)

  /** Every link points at an allocated node, and a list with a head has a
      tail. */
  predicate WellLinked(r: Ring) {
    && |r.next| == |r.data| && |r.prev| == |r.data|
    && (forall k :: 0 <= k < |r.data| ==> r.next[k] < |r.data| && r.prev[k] < |r.data|)
    && (r.head.Some? ==> r.head.value < |r.data| && r.tail.Some? && r.tail.value < |r.data|)
  }

  /** `order` lists every node once, from head to tail; each node's `next` is
      the one after it and its `prev` the one before, wrapping around, and
      `length` counts the nodes. */
  predicate IsRing(r: Ring, order: seq<nat>) {
    var n := |r.data|;
    && WellLinked(r) && |order| == n && r.length == n
    && Distinct(order) && (forall i :: 0 <= i < n ==> order[i] < n)
    && (n == 0 ==> r.head.None? && r.tail.None?)
    && (n > 0 ==> r.head == Some(order[0]) && r.tail == Some(order[n - 1])
                  && r.next[order[n - 1]] == order[0] && r.prev[order[0]] == order[n - 1])
    && (forall i :: 0 <= i < n - 1 ==> r.next[order[i]] == order[i + 1])
    && (forall i :: 0 <= i < n - 1 ==> r.prev[order[i + 1]] == order[i])
  }

  /** `InsertToEmptyLinkedList`: the new node becomes head and tail and links
      to itself. */
  function InsertToEmpty(r: Ring, d: int): (r': Ring)
    requires WellLinked(r)
    ensures WellLinked(r')
    ensures var n := |r.data|;
            r'.data == r.data + [d] && r'.head == Some(n) && r'.tail == Some(n)
            && r'.next[n] == n && r'.prev[n] == n && r'.length == r.length + 1
  {
    var n := |r.data|;
    Ring(r.data + [d], r.next + [n], r.prev + [n], Some(n), Some(n), r.length + 1)
  }

  /** `InsertBeginning`: the new node goes before the head and becomes the
      head; the tail and the old head link to it. */
  function InsertBeginning(r: Ring, d: int): (r': Ring)
    requires WellLinked(r)
    ensures WellLinked(r')
    ensures var n := |r.data|;
            r'.data == r.data + [d] && r'.head == Some(n) && r'.length == r.length + 1
            && r'.next[r'.tail.value] == n && r'.prev[n] == r'.tail.value
  {
    if r.head.None? then InsertToEmpty(r, d)
    else
      var n := |r.data|;
      var h, t := r.head.value, r.tail.value;
      Ring(r.data + [d], (r.next + [h])[t := n], (r.prev + [t])[h := n], Some(n), r.tail,
           r.length + 1)
  }

  /** `InsertEnd`: the new node goes after the tail and becomes the tail;
      it links forward to the head, which links back to it. */
  function InsertEnd(r: Ring, d: int): (r': Ring)
    requires WellLinked(r)
    ensures WellLinked(r')
    ensures var n := |r.data|;
            r'.data == r.data + [d] && r'.tail == Some(n) && r'.length == r.length + 1
            && r'.head.Some? && r'.next[n] == r'.head.value && r'.prev[r'.head.value] == n
  {
    if r.head.None? then InsertToEmpty(r, d)
    else
      var n := |r.data|;
      var h, t := r.head.value, r.tail.value;
      Ring(r.data + [d], (r.next + [h])[t := n], (r.prev + [t])[h := n], r.head, Some(n),
           r.length + 1)
  }

  /** Adding a fresh index at either end keeps an order free of repeats. */
  lemma AddFreshIndex(order: seq<nat>, n: nat)
    requires |order| == n && Distinct(order) && forall i :: 0 <= i < n ==> order[i] < n
    ensures Distinct(order + [n]) && Distinct([n] + order)
    ensures forall i :: 0 <= i < n + 1 ==> (order + [n])[i] < n + 1 && ([n] + order)[i] < n + 1
  {
    var back, front := order + [n], [n] + order;
    forall i, j | 0 <= i < j < n + 1
      ensures back[i] != back[j] && front[i] != front[j]
    {
      if j < n {
        assert back[i] == order[i] && back[j] == order[j];
      }
      if i > 0 {
        assert front[i] == order[i - 1] && front[j] == order[j - 1];
      }
    }
  }

  /** Inserting at the end of a ring appends the new node to its order. */
  lemma InsertEndKeepsRing(r: Ring, order: seq<nat>, d: int)
    requires IsRing(r, order)
    ensures IsRing(InsertEnd(r, d), order + [|r.data|])
  {
    var r', order' := InsertEnd(r, d), order + [|r.data|];
    var n := |r.data|;
    AddFreshIndex(order, n);
    if n > 0 {
      InsertEndLinks(r, order, d);
    }
  }

  lemma InsertEndLinks(r: Ring, order: seq<nat>, d: int)
    requires IsRing(r, order) && |order| > 0
    ensures var r', order', n := InsertEnd(r, d), order + [|r.data|], |r.data|;
            (forall i :: 0 <= i < n ==> r'.next[order'[i]] == order'[i + 1])
            && (forall i :: 0 <= i < n ==> r'.prev[order'[i + 1]] == order'[i])
  {
    var r', order' := InsertEnd(r, d), order + [|r.data|];
    var n := |r.data|;
    var h, t := order[0], order[n - 1];
    forall i | 0 <= i < n
      ensures r'.next[order'[i]] == order'[i + 1]
    {
      if i < n - 1 {
        assert order[i] != t;
        assert r.next[order[i]] == order[i + 1];
      }
    }
    forall i | 0 <= i < n
      ensures r'.prev[order'[i + 1]] == order'[i]
    {
      if i < n - 1 {
        assert order[i + 1] != h;
        assert r.prev[order[i + 1]] == order[i];
      }
    }
  }

  /** Inserting at the beginning of a ring puts the new node first in its
      order. */
  lemma InsertBeginningKeepsRing(r: Ring, order: seq<nat>, d: int)
    requires IsRing(r, order)
    ensures IsRing(InsertBeginning(r, d), [|r.data|] + order)
  {
    var n := |r.data|;
    AddFreshIndex(order, n);
    if n > 0 {
      InsertBeginningLinks(r, order, d);
    }
  }

  lemma InsertBeginningLinks(r: Ring, order: seq<nat>, d: int)
    requires IsRing(r, order) && |order| > 0
    ensures var r', order', n := InsertBeginning(r, d), [|r.data|] + order, |r.data|;
            (forall i :: 0 <= i < n ==> r'.next[order'[i]] == order'[i + 1])
            && (forall i :: 0 <= i < n ==> r'.prev[order'[i + 1]] == order'[i])
  {
    var r', order' := InsertBeginning(r, d), [|r.data|] + order;
    var n := |r.data|;
    var h, t := order[0], order[n - 1];
    forall i | 0 <= i < n
      ensures r'.next[order'[i]] == order'[i + 1]
    {
      if i > 0 {
        assert order'[i] == order[i - 1] != t;
        assert r.next[order[i - 1]] == order[i];
      }
    }
    forall i | 0 <= i < n
      ensures r'.prev[order'[i + 1]] == order'[i]
    {
      if i > 0 {
        assert order'[i + 1] == order[i] != h;
        assert r.prev[order[i]] == order[i - 1];
      }
    }
  }

  // ---- the dial ----

  /** The nodes 0, 1, ..., k - 1 in that order. */
  function Iota(k: nat): (s: seq<nat>)
    ensures |s| == k && forall i :: 0 <= i < k ==> s[i] == i
  {
    seq(k, i => i)
  }

  const DialSize: nat := 100

  /** The shape `getDial` builds: 100 nodes, node `i` holds `i`, its `next`
      is `i + 1` and its `prev` is `i - 1`, both modulo 100, and the head
      is node 0. */
  predicate IsDial(r: Ring) {
    && WellLinked(r) && |r.data| == DialSize && r.length == DialSize
    && r.head == Some(0) && r.tail == Some(DialSize - 1)
    && forall i :: 0 <= i < DialSize ==>
         r.data[i] == i && r.next[i] == (if i == DialSize - 1 then 0 else i + 1)
         && r.prev[i] == (if i == 0 then DialSize - 1 else i - 1)
  }

  /** `getDial`: inserts 0, 1, ..., 99 at the end of the empty list. */
  method GetDial() returns (r: Ring)
    ensures IsDial(r)
    ensures IsRing(r, Iota(DialSize))
  {
    r := EmptyRing;
    var i := 0;
    while i < DialSize
      invariant 0 <= i <= DialSize
      invariant IsRing(r, Iota(i)) && forall k :: 0 <= k < i ==> r.data[k] == k
    {
      InsertNextNumber(r, i);
      r := InsertEnd(r, i);
      i := i + 1;
    }
    RingInOrderIsDial(r);
  }

  /** One round of `getDial`'s loop: node `i`, holding `i`, joins the end. */
  lemma InsertNextNumber(r: Ring, i: nat)
    requires IsRing(r, Iota(i)) && forall k :: 0 <= k < i ==> r.data[k] == k
    ensures IsRing(InsertEnd(r, i), Iota(i + 1))
    ensures forall k :: 0 <= k < i + 1 ==> InsertEnd(r, i).data[k] == k
  {
    InsertEndKeepsRing(r, Iota(i), i);
    assert Iota(i) + [i] == Iota(i + 1);
  }

  /** A ring over nodes 0..99 in index order, node `i` holding `i`, is the
      dial. */
  lemma RingInOrderIsDial(r: Ring)
    requires IsRing(r, Iota(DialSize))
    requires forall k :: 0 <= k < DialSize ==> r.data[k] == k
    ensures IsDial(r)
  {
    var order := Iota(DialSize);
    forall i | 0 <= i < DialSize
      ensures r.next[i] == (if i == DialSize - 1 then 0 else i + 1)
      ensures r.prev[i] == (if i == 0 then DialSize - 1 else i - 1)
    {
      assert order[i] == i;
      if i < DialSize - 1 {
        assert r.next[order[i]] == order[i + 1];
      }
      if i > 0 {
        assert r.prev[order[i - 1 + 1]] == order[i - 1];
      }
    }
  }

  // ---- turning ----

  /** The node reached by following `next` (right) or `prev` (left) `d`
      times; a negative count, like `range` over a negative int, moves
      nothing. */
  function Turn(r: Ring, node: nat, right: bool, d: int): (m: nat)
    requires WellLinked(r) && node < |r.data|
    ensures m < |r.data|
    decreases if d < 0 then 0 else d
  {
    if d <= 0 then node
    else Turn(r, if right then r.next[node] else r.prev[node], right, d - 1)
  }

  /** The number of clicks of that turn that land on a node holding 0. */
  function Hits(r: Ring, node: nat, right: bool, d: int): (h: nat)
    requires WellLinked(r) && node < |r.data|
    decreases if d < 0 then 0 else d
  {
    if d <= 0 then 0
    else
      var n := if right then r.next[node] else r.prev[node];
      (if r.data[n] == 0 then 1 else 0) + Hits(r, n, right, d - 1)
  }

  /** The loop that walks `next` from `node` until it holds `target`. The
      ghost `steps` says how far the target is, which is how the loop ends. */
  function Seek(r: Ring, node: nat, target: int, ghost steps: nat): (m: nat)
    requires WellLinked(r) && node < |r.data|
    requires r.data[Turn(r, node, true, steps)] == target
    ensures m < |r.data| && r.data[m] == target
    ensures exists j :: 0 <= j <= steps && m == Turn(r, node, true, j)
    decreases steps
  {
    if r.data[node] == target then
      assert node == Turn(r, node, true, 0);
      node
    else
      var m := Seek(r, r.next[node], target, steps - 1);
      TurnOneMore(r, node, m, steps - 1);
      m
  }

  /** A node some `j <= steps` turns right of `next[node]` is `j + 1` turns
      right of `node`. */
  lemma TurnOneMore(r: Ring, node: nat, m: nat, steps: nat)
    requires WellLinked(r) && node < |r.data|
    requires exists j :: 0 <= j <= steps && m == Turn(r, r.next[node], true, j)
    ensures exists j :: 0 <= j <= steps + 1 && m == Turn(r, node, true, j)
  {
    var j :| 0 <= j <= steps && m == Turn(r, r.next[node], true, j);
    assert m == Turn(r, node, true, j + 1);
  }

  /** On the dial, turning moves by `d` modulo 100. */
  lemma TurnOnDial(r: Ring, p: nat, right: bool, d: int)
    requires IsDial(r) && p < DialSize
    ensures Turn(r, p, right, d) ==
              if d <= 0 then p else if right then (p + d) % DialSize else (p - d) % DialSize
  {
    if d > 0 {
      if right {
        TurnRightOnDial(r, p, d);
      } else {
        TurnLeftOnDial(r, p, d);
      }
    }
  }

  /** One click right on the dial adds one, modulo 100. */
  lemma NextOnDial(r: Ring, p: nat)
    requires IsDial(r) && p < DialSize
    ensures r.next[p] == (p + 1) % DialSize
  {
    if p < DialSize - 1 {
      assert (p + 1) % DialSize == p + 1;
    }
  }

  /** One click left on the dial subtracts one, modulo 100. */
  lemma PrevOnDial(r: Ring, p: nat)
    requires IsDial(r) && p < DialSize
    ensures r.prev[p] == (p - 1) % DialSize
  {
    if p > 0 {
      assert (p - 1) % DialSize == p - 1;
    }
  }

  /** The arithmetic of turning on after one click: `k` more clicks from
      the node `a` modulo 100 end where `a + k` does. */
  lemma TurnStep(a: int, k: int, rest: int)
    requires rest == (a % DialSize + k) % DialSize
    ensures rest == (a + k) % DialSize
  {
    ModAdd(a, k, DialSize);
  }

  lemma {:induction false} TurnRightOnDial(r: Ring, p: nat, d: nat)
    requires IsDial(r) && p < DialSize
    ensures Turn(r, p, true, d) == (p + d) % DialSize
    decreases d
  {
    if d > 0 {
      var n := r.next[p];
      NextOnDial(r, p);
      TurnRightOnDial(r, n, d - 1);
      TurnStep(p + 1, d - 1, Turn(r, n, true, d - 1));
    }
  }

  lemma {:induction false} TurnLeftOnDial(r: Ring, p: nat, d: nat)
    requires IsDial(r) && p < DialSize
    ensures Turn(r, p, false, d) == (p - d) % DialSize
    decreases d
  {
    if d > 0 {
      var n := r.prev[p];
      PrevOnDial(r, p);
      TurnLeftOnDial(r, n, d - 1);
      TurnStep(p - 1, 1 - d, Turn(r, n, false, d - 1));
    }
  }

  /** On the dial, the clicks landing on 0 in a right turn of `d` from `p`
      number the multiples of 100 in (p, p + d]; in a left turn, those in
      [p - d, p). */
  lemma HitsOnDial(r: Ring, p: nat, right: bool, d: int)
    requires IsDial(r) && p < DialSize
    ensures Hits(r, p, right, d) ==
              if d <= 0 then 0
              else if right then (p + d) / DialSize
              else (d + (DialSize - p) % DialSize) / DialSize
  {
    if d > 0 {
      if right {
        HitsRightOnDial(r, p, d);
      } else {
        HitsLeftOnDial(r, p, d);
      }
    }
  }

  lemma {:induction false} HitsRightOnDial(r: Ring, p: nat, d: nat)
    requires IsDial(r) && p < DialSize
    ensures Hits(r, p, true, d) == (p + d) / DialSize
    decreases d
  {
    if d > 0 {
      var n := r.next[p];
      HitsRightOnDial(r, n, d - 1);
      if p == DialSize - 1 {
        DivAddDivisor(d - 1, DialSize);
      }
    }
  }

  /** The arithmetic of one click left from `p`: the click lands on 0 when
      `p` is 1. */
  lemma LeftHitsStep(p: int, d: int, rest: int)
    requires 0 <= p < DialSize && d > 0
    requires var n := if p == 0 then DialSize - 1 else p - 1;
      rest == (d - 1 + (DialSize - n) % DialSize) / DialSize
    ensures (if p == 1 then 1 else 0) + rest == (d + (DialSize - p) % DialSize) / DialSize
  {
    if p == 1 {
      assert (DialSize - 0) % DialSize == 0;
      assert d + (DialSize - p) % DialSize == (d - 1) + DialSize;
      DivAddDivisor(d - 1, DialSize);
    } else if p == 0 {
      assert (DialSize - (DialSize - 1)) % DialSize == 1 && (DialSize - p) % DialSize == 0;
    } else {
      assert (DialSize - (p - 1)) % DialSize == DialSize - (p - 1);
      assert (DialSize - p) % DialSize == DialSize - p;
    }
  }

  lemma {:induction false} HitsLeftOnDial(r: Ring, p: nat, d: nat)
    requires IsDial(r) && p < DialSize
    ensures Hits(r, p, false, d) == (d + (DialSize - p) % DialSize) / DialSize
    decreases d
  {
    if d > 0 {
      var n := r.prev[p];
      assert n == if p == 0 then DialSize - 1 else p - 1;
      HitsLeftOnDial(r, n, d - 1);
      LeftHitsStep(p, d, Hits(r, n, false, d - 1));
    }
  }

  /** Both parts first walk `next` from the head to the node holding 50. */
  method FindStart(r: Ring) returns (node: nat)
    requires IsDial(r)
    ensures node == 50 && node < |r.data| && r.data[node] == 50
  {
    TurnOnDial(r, 0, true, 50);
    node := Seek(r, r.head.value, 50, 50);
  }

  // ---- the instructions ----

  /** One instruction: direction "R" turns right, any other letter left. */
  datatype Instruction = Instruction(right: bool, distance: int)

  /** One line: the empty line is skipped (`Some(None)`); otherwise the
      first character is the direction and the rest must parse as an int,
      or `MustConvAtoi` panics (`None`). */
  function ParseLine(line: string): (r: Option<Option<Instruction>>)
    ensures line == "" ==> r == Some(None)
    ensures line != "" ==> (r.Some? <==> Atoi(line[1..]).Some?)
    ensures r.Some? && line != "" ==>
              r.value == Some(Instruction(line[0] == 'R', Atoi(line[1..]).value))
  {
    if line == "" then Some(None)
    else
      var d :- Atoi(line[1..]);
      Some(Some(Instruction(line[0] == 'R', d)))
  }

  /** Every line parsed, in order, skipping empty lines; `None` if any line
      would panic. */
  function ParseLines(lines: seq<string>): (r: Option<seq<Instruction>>)
    ensures r.Some? ==> |r.value| <= |lines|
    ensures r.Some? <==> forall k :: 0 <= k < |lines| ==> ParseLine(lines[k]).Some?
  {
    if |lines| == 0 then Some([])
    else
      var first :- ParseLine(lines[0]);
      var rest :- ParseLines(lines[1..]);
      if first.Some? then Some([first.value] + rest) else Some(rest)
  }

  /** Part 1 from `node`: the instructions after which the dial holds 0. */
  function CountStops(r: Ring, node: nat, instrs: seq<Instruction>): nat
    requires WellLinked(r) && node < |r.data|
    decreases |instrs|
  {
    if |instrs| == 0 then 0
    else
      var m := Turn(r, node, instrs[0].right, instrs[0].distance);
      (if r.data[m] == 0 then 1 else 0) + CountStops(r, m, instrs[1..])
  }

  /** Part 2 from `node`: the clicks that land on 0. */
  function CountClicks(r: Ring, node: nat, instrs: seq<Instruction>): nat
    requires WellLinked(r) && node < |r.data|
    decreases |instrs|
  {
    if |instrs| == 0 then 0
    else
      var m := Turn(r, node, instrs[0].right, instrs[0].distance);
      Hits(r, node, instrs[0].right, instrs[0].distance) + CountClicks(r, m, instrs[1..])
  }

  // ---- the arithmetic the dial performs ----

  /** The dial position after one instruction, as arithmetic modulo 100. */
  function Position(p: int, ins: Instruction): int {
    if ins.distance <= 0 then p
    else if ins.right then (p + ins.distance) % DialSize
    else (p - ins.distance) % DialSize
  }

  /** The instructions after which the position is 0. */
  function StopsAt(p: int, instrs: seq<Instruction>): nat
    decreases |instrs|
  {
    if |instrs| == 0 then 0
    else
      var q := Position(p, instrs[0]);
      (if q == 0 then 1 else 0) + StopsAt(q, instrs[1..])
  }

  /** The multiples of 100 a turn passes or reaches. */
  function ZeroClicks(p: int, ins: Instruction): int {
    if ins.distance <= 0 then 0
    else if ins.right then (p + ins.distance) / DialSize
    else (ins.distance + (DialSize - p) % DialSize) / DialSize
  }

  function ClicksAt(p: int, instrs: seq<Instruction>): int
    decreases |instrs|
  {
    if |instrs| == 0 then 0
    else ZeroClicks(p, instrs[0]) + ClicksAt(Position(p, instrs[0]), instrs[1..])
  }

  /** Part 1 on the list counts the instructions ending at 0 modulo 100. */
  lemma {:induction false} CountStopsIsArithmetic(r: Ring, p: nat, instrs: seq<Instruction>)
    requires IsDial(r) && p < DialSize
    ensures CountStops(r, p, instrs) == StopsAt(p, instrs)
    decreases |instrs|
  {
    if |instrs| > 0 {
      var ins := instrs[0];
      var m := Turn(r, p, ins.right, ins.distance);
      assert m == Position(p, ins) by {
        TurnOnDial(r, p, ins.right, ins.distance);
      }
      CountStopsIsArithmetic(r, m, instrs[1..]);
    }
  }

  /** Part 2 on the list counts the multiples of 100 crossed, in closed
      form. */
  lemma {:induction false} CountClicksIsArithmetic(r: Ring, p: nat, instrs: seq<Instruction>)
    requires IsDial(r) && p < DialSize
    ensures CountClicks(r, p, instrs) == ClicksAt(p, instrs)
    decreases |instrs|
  {
    if |instrs| > 0 {
      var ins := instrs[0];
      var m := Turn(r, p, ins.right, ins.distance);
      assert m == Position(p, ins) by {
        TurnOnDial(r, p, ins.right, ins.distance);
      }
      assert Hits(r, p, ins.right, ins.distance) == ZeroClicks(p, ins) by {
        HitsOnDial(r, p, ins.right, ins.distance);
      }
      CountClicksIsArithmetic(r, m, instrs[1..]);
    }
  }

  /** `part1`: `None` when a line would make `MustConvAtoi` panic; otherwise
      the number of instructions that leave the dial, started at 50, on 0. */
  method Part1(lines: seq<string>) returns (result: Option<nat>)
    ensures result.Some? <==> ParseLines(lines).Some?
    ensures result.Some? ==> result.value == StopsAt(50, ParseLines(lines).value)
  {
    var parsed := ParseLines(lines);
    if parsed.None? {
      return None;
    }
    var dial := GetDial();
    var start := FindStart(dial);
    CountStopsIsArithmetic(dial, start, parsed.value);
    return Some(CountStops(dial, start, parsed.value));
  }

  /** `part2`: `None` when a line would panic; otherwise the number of clicks,
      from 50, that land on 0. */
  method Part2(lines: seq<string>) returns (result: Option<nat>)
    ensures result.Some? <==> ParseLines(lines).Some?
    ensures result.Some? ==> result.value == ClicksAt(50, ParseLines(lines).value)
  {
    var parsed := ParseLines(lines);
    if parsed.None? {
      return None;
    }
    var dial := GetDial();
    var start := FindStart(dial);
    CountClicksIsArithmetic(dial, start, parsed.value);
    return Some(CountClicks(dial, start, parsed.value));
  }

  /** A turn of at least one click that ends on 0 has its last click land
      there, so with positive distances part 2 counts at least as much as
      part 1. */
  lemma {:induction false} ClicksCoverStops(r: Ring, node: nat, instrs: seq<Instruction>)
    requires WellLinked(r) && node < |r.data|
    requires forall k :: 0 <= k < |instrs| ==> instrs[k].distance > 0
    ensures CountClicks(r, node, instrs) >= CountStops(r, node, instrs)
    decreases |instrs|
  {
    if |instrs| > 0 {
      LastClick(r, node, instrs[0].right, instrs[0].distance);
      ClicksCoverStops(r, Turn(r, node, instrs[0].right, instrs[0].distance), instrs[1..]);
    }
  }

  lemma {:induction false} LastClick(r: Ring, node: nat, right: bool, d: int)
    requires WellLinked(r) && node < |r.data| && d > 0
    ensures r.data[Turn(r, node, right, d)] == 0 ==> Hits(r, node, right, d) >= 1
    decreases d
  {
    if d > 1 {
      var n := if right then r.next[node] else r.prev[node];
      LastClick(r, n, right, d - 1);
    }
  }

  /** The same bound in the dial's arithmetic. */
  lemma ClicksAtLeastStops(p: nat, instrs: seq<Instruction>)
    requires p < DialSize
    requires forall k :: 0 <= k < |instrs| ==> instrs[k].distance > 0
    ensures ClicksAt(p, instrs) >= StopsAt(p, instrs)
  {
    var r := DialRing();
    CountStopsIsArithmetic(r, p, instrs);
    CountClicksIsArithmetic(r, p, instrs);
    ClicksCoverStops(r, p, instrs);
  }

  /** The dial, built without a loop so that lemmas can name it. */
  function DialRing(): (r: Ring)
    ensures IsDial(r)
  {
    var r := Ring(Iota(DialSize), seq(DialSize, i => (i + 1) % DialSize),
                  seq(DialSize, i => (i + DialSize - 1) % DialSize), Some(0), Some(DialSize - 1),
                  DialSize);
    r
  }

  /** A zero-distance instruction right after reaching 0 counts again for
      part 1 but clicks nothing, so part 2 can be smaller than part 1. */
  lemma ZeroDistanceCountsTwice()
    ensures ParseLines(["R50", "R0"]) == Some([Instruction(true, 50), Instruction(true, 0)])
    ensures StopsAt(50, [Instruction(true, 50), Instruction(true, 0)]) == 2
    ensures ClicksAt(50, [Instruction(true, 50), Instruction(true, 0)]) == 1
  {
    assert DigitsValue("5") == 5;
    assert "R50"[1..] == "50" && "R0"[1..] == "0";
    assert Atoi("50") == Some(50);
    assert Atoi("0") == Some(0);
    assert ParseLine("R50") == Some(Some(Instruction(true, 50)));
    assert ParseLine("R0") == Some(Some(Instruction(true, 0)));
    assert ["R0"][1..] == [];
    assert ParseLines(["R0"][1..]) == Some([]);
    assert [Instruction(true, 0)] + [] == [Instruction(true, 0)];
    assert ParseLines(["R0"]) == Some([Instruction(true, 0)]);
    assert ["R50", "R0"][1..] == ["R0"];
    assert ParseLines(["R50", "R0"][1..]) == Some([Instruction(true, 0)]);
    assert [Instruction(true, 50)] + [Instruction(true, 0)]
        == [Instruction(true, 50), Instruction(true, 0)];
  }
}
