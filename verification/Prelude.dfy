/** Definitions shared by the component models. */
module Prelude {

  /** The outcome of an operation that the original may abort with an exception. */
  datatype Result<+T> = Ok(value: T) | Err {
    predicate IsFailure() { Err? }

    function PropagateFailure<U>(): Result<U>
      requires Err?
    {
      Err
    }

    function Extract(): T
      requires Ok?
    {
      value
    }
  }

  datatype Option<+T> = None | Some(value: T)

  datatype List<+T> = Nil | Cons(head: T, tail: List<T>)

  newtype byte = x: int | 0 <= x < 256

  /** White space as Python's `str.strip` and `str.rstrip` see it in ASCII text. */
  predicate IsSpace(c: char) {
    c == ' ' || '\t' <= c <= '\r' || '\U{1c}' <= c <= '\U{1f}'
  }

  function RStrip(s: string): string {
    if s != "" && IsSpace(s[|s| - 1]) then RStrip(s[..|s| - 1]) else s
  }

  function LStrip(s: string): string {
    if s != "" && IsSpace(s[0]) then LStrip(s[1..]) else s
  }

  function Strip(s: string): string {
    LStrip(RStrip(s))
  }

  /** The concatenation of a list of sequences. */
  function Concat<T>(parts: seq<seq<T>>): seq<T> {
    if parts == [] then [] else parts[0] + Concat(parts[1..])
  }

  lemma {:induction false} ConcatAppend<T>(a: seq<seq<T>>, b: seq<seq<T>>)
    ensures Concat(a + b) == Concat(a) + Concat(b)
  {
    if a == [] {
      assert a + b == b;
    } else {
      assert (a + b)[1..] == a[1..] + b;
      ConcatAppend(a[1..], b);
    }
  }
}
