/** `util.Stack`: a LIFO stack over a slice whose top is the last element.
    Go's `(zero, false)` answer on an empty stack is `None` here. */
module Stacks {
  import opened Wrappers

  datatype Stack<T> = Stack(items: seq<T>)

  function Push<T>(s: Stack<T>, item: T): (r: Stack<T>)
    ensures |r.items| == |s.items| + 1
    ensures r.items[..|s.items|] == s.items
    ensures Peek(r) == Some(item)
  {
    Stack(s.items + [item])
  }

  /** Removes the top item; an empty stack is returned unchanged with `None`. */
  function Pop<T>(s: Stack<T>): (r: (Option<T>, Stack<T>))
    ensures |s.items| == 0 ==> r == (None, s)
    ensures |s.items| > 0 ==> r.0.Some? && r.1.items + [r.0.value] == s.items
    ensures r.0 == Peek(s)
  {
    if |s.items| == 0 then (None, s)
    else (Some(s.items[|s.items| - 1]), Stack(s.items[..|s.items| - 1]))
  }

  /** The top item without removing it. */
  function Peek<T>(s: Stack<T>): (r: Option<T>)
    ensures r.None? <==> |s.items| == 0
    ensures r.Some? ==> r.value == s.items[|s.items| - 1]
  {
    if |s.items| == 0 then None else Some(s.items[|s.items| - 1])
  }

  function IsEmpty<T>(s: Stack<T>): (r: bool)
    ensures r <==> Peek(s).None?
    ensures r <==> Pop(s).1 == s
  {
    |s.items| == 0
  }

  /** Last in, first out: popping right after a push returns the pushed item
      and restores the stack. */
  lemma PopAfterPush<T>(s: Stack<T>, x: T)
    ensures Pop(Push(s, x)) == (Some(x), s)
    ensures !IsEmpty(Push(s, x))
  {
    assert Push(s, x).items[..|s.items|] == s.items;
  }

  /** Pushing the popped item back restores a non-empty stack. */
  lemma PushAfterPop<T>(s: Stack<T>)
    requires !IsEmpty(s)
    ensures Push(Pop(s).1, Pop(s).0.value) == s
  {
  }
}
