/** Queues without repetition, and streams that arrive in pieces. */
module Sequences {

  predicate Distinct<T(==)>(s: seq<T>) { forall i, j :: 0 <= i < j < |s| ==> s[i] != s[j] }

  lemma Popped(s: seq<nat>)
    requires Distinct(s) && s != []
    ensures Distinct(s[1..]) && s[0] !in s[1..] && forall v :: v != s[0] ==> (v in s[1..] <==> v in s)
  {
    assert s == [s[0]] + s[1..];
  }

  /** The stream that arrives in `pieces`. */
  function Concat<I>(pieces: seq<seq<I>>): seq<I> {
    if pieces == [] then [] else Concat(pieces[..|pieces| - 1]) + pieces[|pieces| - 1]
  }

  lemma ConcatOne<I>(pieces: seq<seq<I>>, n: nat)
    requires n < |pieces|
    ensures Concat(pieces[..n + 1]) == Concat(pieces[..n]) + pieces[n]
  {
    assert pieces[..n + 1][..n] == pieces[..n];
  }

  /** What is left of a stream of which the first `n` pieces have arrived. */
  lemma {:induction false} ConcatBegins<I>(pieces: seq<seq<I>>, n: nat)
    requires n <= |pieces|
    ensures Concat(pieces[..n]) <= Concat(pieces)
  {
    if n == |pieces| {
      assert pieces[..n] == pieces;
    } else {
      var k := |pieces| - 1;
      assert pieces[..k][..n] == pieces[..n];
      ConcatBegins(pieces[..k], n);
    }
  }
}
