/** Applying a function to each element of a sequence. */
module Mapping {
  function Mapped<T, U>(f: T -> U, s: seq<T>): (r: seq<U>)
    ensures |r| == |s| && forall i :: 0 <= i < |s| ==> r[i] == f(s[i])
  {
    seq(|s|, i requires 0 <= i < |s| => f(s[i]))
  }

  lemma MappedInit<T, U>(f: T -> U, s: seq<T>)
    requires s != []
    ensures var n := |s| - 1; Mapped(f, s)[..n] == Mapped(f, s[..n]) && Mapped(f, s) == Mapped(f, s[..n]) + [f(s[n])]
  {
  }

  lemma MappedConcat<T, U>(f: T -> U, a: seq<T>, b: seq<T>)
    ensures Mapped(f, a + b) == Mapped(f, a) + Mapped(f, b)
  {
  }

  lemma MappedTail<T, U>(f: T -> U, s: seq<T>)
    requires s != []
    ensures Mapped(f, s)[0] == f(s[0]) && Mapped(f, s)[1..] == Mapped(f, s[1..])
  {
  }
}
