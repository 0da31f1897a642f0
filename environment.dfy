/**
 * The scope stack: a stack of frames, each mapping names to values. The stack functions
 * below are the abstract view that the `Environment` methods are proved against and that
 * the evaluator's specification uses.
 */
module Env {
  import opened Wrappers

  type Frame<V> = map<string, V>
  type Stack<V> = seq<Frame<V>>

  /** The stack after `push`: one empty frame on top. */
  function Pushed<V>(st: Stack<V>): Stack<V> {
    st + [map[]]
  }

  /** The stack after `pop`: the top frame removed, or nothing at all on an empty stack. */
  function Popped<V>(st: Stack<V>): Stack<V> {
    if st == [] then [] else st[..|st| - 1]
  }

  /** The stack after `insert(key, value)`: only the top frame changes. */
  function Inserted<V>(st: Stack<V>, key: string, value: V): Stack<V>
    requires |st| > 0
  {
    st[..|st| - 1] + [st[|st| - 1][key := value]]
  }

  /** The binding of `key` in the innermost frame that has one. */
  function Find<V>(st: Stack<V>, key: string): Option<V> {
    if st == [] then None
    else if key in st[|st| - 1] then Some(st[|st| - 1][key])
    else Find(st[..|st| - 1], key)
  }

  /** Frame `i` binds `key` and no frame above it does. */
  ghost predicate Innermost<V>(st: Stack<V>, key: string, i: int) {
    0 <= i < |st| && key in st[i] && forall j :: i < j < |st| ==> key !in st[j]
  }

  /** `Find` returns the binding of the innermost frame that has the key, and `None` if none has. */
  lemma {:induction false} FindInnermost<V>(st: Stack<V>, key: string)
    ensures Find(st, key).None? <==> forall i :: 0 <= i < |st| ==> key !in st[i]
    ensures Find(st, key).Some? ==>
              exists i :: Innermost(st, key, i) && Find(st, key).value == st[i][key]
  {
    if st != [] && key !in st[|st| - 1] {
      var below := st[..|st| - 1];
      FindInnermost(below, key);
      if Find(below, key).Some? {
        var i :| Innermost(below, key, i) && Find(below, key).value == below[i][key];
        assert Innermost(st, key, i);
      }
    }
  }

  /** A pushed frame hides nothing: every lookup is as before. */
  lemma PushKeepsLookups<V>(st: Stack<V>, key: string)
    ensures Find(Pushed(st), key) == Find(st, key)
  {
    assert Pushed(st)[..|st|] == st;
  }

  /** A frame put on top answers for its own keys and defers to the stack below for the rest. */
  lemma FindThroughTop<V>(st: Stack<V>, frame: Frame<V>, key: string)
    ensures Find(st + [frame], key) == if key in frame then Some(frame[key]) else Find(st, key)
  {
    assert (st + [frame])[..|st|] == st;
  }

  /** `pop` undoes `push`. */
  lemma PopUndoesPush<V>(st: Stack<V>)
    ensures Popped(Pushed(st)) == st
  {
  }

  /** After `insert(key, value)`, `key` finds `value` and every other key finds what it found. */
  lemma InsertThenFind<V>(st: Stack<V>, key: string, value: V, other: string)
    requires |st| > 0
    ensures Find(Inserted(st, key, value), key) == Some(value)
    ensures other != key ==> Find(Inserted(st, key, value), other) == Find(st, other)
  {
    var st' := Inserted(st, key, value);
    assert st'[..|st'| - 1] == st[..|st| - 1];
  }

  class Environment<V> {
    var stack: Stack<V>

    /** `Environment::new`: no frame at all. */
    constructor ()
      ensures stack == []
    {
      stack := [];
    }

    method Push()
      modifies this
      ensures stack == Pushed(old(stack))
    {
      stack := stack + [map[]];
    }

    method Pop()
      modifies this
      ensures stack == Popped(old(stack))
    {
      if |stack| > 0 {
        stack := stack[..|stack| - 1];
      }
    }

    /** Requires a frame, as the source's `unwrap` does. */
    method Insert(key: string, value: V)
      requires |stack| > 0
      modifies this
      ensures stack == Inserted(old(stack), key, value)
    {
      var top := stack[|stack| - 1];
      stack := stack[..|stack| - 1] + [top[key := value]];
    }

    /** Scans the frames from the innermost outwards. */
    method Lookup(key: string) returns (r: Option<V>)
      ensures r == Find(stack, key)
    {
      var i := |stack|;
      assert stack[..i] == stack;
      while i > 0
        invariant 0 <= i <= |stack|
        invariant Find(stack, key) == Find(stack[..i], key)
      {
        if key in stack[i - 1] {
          return Some(stack[i - 1][key]);
        }
        assert stack[..i][..i - 1] == stack[..i - 1];
        i := i - 1;
      }
      return None;
    }
  }
}
