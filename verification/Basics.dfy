/** Vocabulary shared by the other modules. */
module Basics {

  datatype Option<+T> = None | Some(value: T) {
    function GetOr(default: T): T {
      match this
      case None => default
      case Some(v) => v
    }

    predicate IsFailure() {
      None?
    }

    function PropagateFailure<U>(): Option<U>
      requires None?
    {
      None
    }

    function Extract(): T
      requires Some?
    {
      value
    }
  }

  newtype byte = n: int | 0 <= n < 256

  type Bytes = seq<byte>

  lemma ConcatAssociates<T>(a: seq<T>, b: seq<T>, c: seq<T>)
    ensures (a + b) + c == a + (b + c)
  {
  }

  /** The last element of two sequences joined, and what comes before it. */
  lemma LastOfConcat<T>(a: seq<T>, b: seq<T>)
    requires b != []
    ensures (a + b)[..|a + b| - 1] == a + b[..|b| - 1]
    ensures (a + b)[|a + b| - 1] == b[|b| - 1]
  {
  }

  function Mapped<T, R>(f: T -> R, xs: seq<T>): seq<R> {
    if xs == [] then [] else [f(xs[0])] + Mapped(f, xs[1..])
  }

  lemma {:induction false} MappedAt<T, R>(f: T -> R, xs: seq<T>, i: nat)
    requires i < |xs|
    ensures |Mapped(f, xs)| == |xs| && Mapped(f, xs)[i] == f(xs[i])
  {
    if |xs| > 1 {
      MappedAt(f, xs[1..], if i > 0 then i - 1 else 0);
    }
  }

  lemma {:induction false} MappedLength<T, R>(f: T -> R, xs: seq<T>)
    ensures |Mapped(f, xs)| == |xs|
  {
    if xs != [] {
      MappedLength(f, xs[1..]);
    }
  }
}
