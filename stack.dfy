/** The generic LIFO stack of `Stack.swift`, used by the lexer for saved
    positions and by the parser for open blocks. */
module Stacks {
  import opened Wrappers

  /** `xs` back to front. */
  function Reversed<T>(xs: seq<T>): (r: seq<T>)
    ensures |r| == |xs|
    ensures forall k :: 0 <= k < |xs| ==> r[k] == xs[|xs| - 1 - k]
  {
    if xs == [] then [] else Reversed(xs[1..]) + [xs[0]]
  }

  /** The stack's contents after `push(x)`: the top is the last element. */
  function Pushed<T>(s: seq<T>, x: T): seq<T> {
    s + [x]
  }

  /** What `pop()` returns and the contents it leaves behind. */
  function Popped<T>(s: seq<T>): (r: (Option<T>, seq<T>))
    ensures s == [] ==> r == (None, [])
    ensures s != [] ==> r.0 == Some(s[|s| - 1]) && r.1 + [s[|s| - 1]] == s
  {
    if s == [] then (None, []) else (Some(s[|s| - 1]), s[..|s| - 1])
  }

  /** Pushing and then popping returns the pushed element and restores the
      previous contents. */
  lemma PushThenPop<T>(s: seq<T>, x: T)
    ensures Popped(Pushed(s, x)) == (Some(x), s)
  {
    assert Pushed(s, x)[..|s|] == s;
  }

  /** `push(_ elements:)` leaves the first element on top, then the second, ... */
  lemma {:induction false} PushAllOrder<T>(s: seq<T>, xs: seq<T>)
    ensures forall k :: 0 <= k < |xs| ==>
      (s + Reversed(xs))[|s| + |xs| - 1 - k] == xs[k]
  {
    forall k | 0 <= k < |xs|
      ensures (s + Reversed(xs))[|s| + |xs| - 1 - k] == xs[k]
    {
      assert (s + Reversed(xs))[|s| + |xs| - 1 - k] == Reversed(xs)[|xs| - 1 - k];
    }
  }

  /** Popping everything pushed by `push(_ elements:)` yields the elements in
      their original order and restores the previous contents. */
  lemma {:induction false} PopAfterPushAll<T>(s: seq<T>, xs: seq<T>)
    requires xs != []
    ensures Popped(s + Reversed(xs)) == (Some(xs[0]), s + Reversed(xs[1..]))
  {
    var r := Reversed(xs);
    assert r == Reversed(xs[1..]) + [xs[0]];
    assert s + r == (s + Reversed(xs[1..])) + [xs[0]];
  }

  class Stack<T> {
    /** The private `array`; its last element is the top. */
    var elements: seq<T>

    constructor()
      ensures elements == []
    {
      elements := [];
    }

    method Push(x: T)
      modifies this
      ensures elements == Pushed(old(elements), x)
    {
      elements := elements + [x];
    }

    /** `push(_ elements:)`: pushes the reversed array one element at a time. */
    method PushAll(xs: seq<T>)
      modifies this
      ensures elements == old(elements) + Reversed(xs)
    {
      var i := |xs|;
      while i > 0
        invariant 0 <= i <= |xs|
        invariant elements == old(elements) + Reversed(xs[i..])
      {
        i := i - 1;
        assert xs[i..] == [xs[i]] + xs[i + 1..];
        Push(xs[i]);
      }
      assert xs[0..] == xs;
    }

    /** `pop()`: nil on an empty stack, otherwise removes and returns the top. */
    method Pop() returns (r: Option<T>)
      modifies this
      ensures (r, elements) == Popped(old(elements))
    {
      if elements == [] {
        return None;
      }
      r := Some(elements[|elements| - 1]);
      elements := elements[..|elements| - 1];
    }

    function IsEmpty(): (b: bool)
      reads this
      ensures b <==> Count() == 0
    {
      elements == []
    }

    function Count(): (n: nat)
      reads this
      ensures n == |elements|
    {
      |elements|
    }
  }

  /** Push grows the count by one; a successful pop shrinks it by one and an
      unsuccessful one leaves an empty stack. */
  lemma CountChanges<T>(s: seq<T>, x: T)
    ensures |Pushed(s, x)| == |s| + 1
    ensures Popped(s).0.Some? ==> |Popped(s).1| == |s| - 1
    ensures Popped(s).0.None? <==> s == []
  {
  }
}
