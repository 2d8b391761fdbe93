/**
 Machines that consume a stream one item at a time, and the law that makes a run independent of how
 its stream is cut.
 */
module Machine {

  /** After an item a machine goes on, stops having consumed the item, or rejects it. */
  datatype Verdict = Continue | Exit | Reject

  datatype Stepped<S, E> = Stepped(f: S, events: seq<E>, verdict: Verdict)

  /** Where a run ended; `stopped` says that it ended early, after `consumed` items. */
  datatype Result<S, E> = Result(f: S, events: seq<E>, consumed: nat, stopped: bool)

  function Fold<S, I, E>(step: (S, I) -> Stepped<S, E>, f: S, s: seq<I>): (r: Result<S, E>)
    ensures r.consumed <= |s|
    ensures !r.stopped ==> r.consumed == |s|
  {
    if s == [] then Result(f, [], 0, false)
    else
      var n := |s| - 1;
      var r := Fold(step, f, s[..n]);
      if r.stopped then r
      else
        var o := step(r.f, s[n]);
        Result(o.f, r.events + o.events, if o.verdict == Reject then n else n + 1, o.verdict != Continue)
  }

  /** The run `r` over `n` items, followed by the run `q`. */
  function Then<S, E>(r: Result<S, E>, n: nat, q: Result<S, E>): Result<S, E> {
    if r.stopped then r else Result(q.f, r.events + q.events, n + q.consumed, q.stopped)
  }

  /** A run over two pieces is the second piece run from where the first one ended. */
  lemma {:induction false} FoldConcat<S, I, E>(step: (S, I) -> Stepped<S, E>, f: S, a: seq<I>, b: seq<I>)
    ensures Fold(step, f, a + b) ==
            Then(Fold(step, f, a), |a|, Fold(step, Fold(step, f, a).f, b))
  {
    if b == [] {
      assert a + b == a;
    } else {
      var n := |b| - 1;
      FoldConcat(step, f, a, b[..n]);
      assert (a + b)[..|a| + n] == a + b[..n];
      assert (a + b)[|a| + n] == b[n];
    }
  }

  /** A run of one item is one step. */
  lemma FoldOne<S, I, E>(step: (S, I) -> Stepped<S, E>, f: S, i: I)
    ensures var o := step(f, i);
      Fold(step, f, [i]) ==
      Result(o.f, o.events, if o.verdict == Reject then 0 else 1, o.verdict != Continue)
  {
    assert [i][..0] == [];
    assert Fold(step, f, []) == Result(f, [], 0, false);
  }

  /** Running an item first and then the rest. */
  lemma FoldCons<S, I, E>(step: (S, I) -> Stepped<S, E>, f: S, i: I, s: seq<I>)
    ensures var o := step(f, i);
      Fold(step, f, [i] + s) ==
      Then(Result(o.f, o.events, if o.verdict == Reject then 0 else 1, o.verdict != Continue), 1,
           Fold(step, o.f, s))
  {
    FoldOne(step, f, i);
    FoldConcat(step, f, [i], s);
  }

  /** Extending a run inside a buffer by the next `n` items. */
  lemma FoldAdvance<S, I, E>(step: (S, I) -> Stepped<S, E>, f: S, s: seq<I>, p: nat, n: nat)
    requires p + n <= |s|
    ensures Fold(step, f, s[..p + n]) ==
            Then(Fold(step, f, s[..p]), p, Fold(step, Fold(step, f, s[..p]).f, s[p..p + n]))
  {
    assert s[..p + n] == s[..p] + s[p..p + n];
    FoldConcat(step, f, s[..p], s[p..p + n]);
  }

  /** A run that has stopped inside a buffer ignores the rest of it. */
  lemma FoldStopped<S, I, E>(step: (S, I) -> Stepped<S, E>, f: S, s: seq<I>, p: nat)
    requires p <= |s| && Fold(step, f, s[..p]).stopped
    ensures Fold(step, f, s) == Fold(step, f, s[..p])
  {
    assert s == s[..p] + s[p..];
    FoldConcat(step, f, s[..p], s[p..]);
  }

  /** The machine takes all of `s` from `f` to `g`, saying `events`. */
  ghost predicate Runs<S, I, E>(step: (S, I) -> Stepped<S, E>, f: S, s: seq<I>, g: S, events: seq<E>) {
    Fold(step, f, s) == Result(g, events, |s|, false)
  }

  lemma RunsNothing<S, I, E>(step: (S, I) -> Stepped<S, E>, f: S)
    ensures Runs(step, f, [], f, [])
  {}

  lemma RunsOne<S, I, E>(step: (S, I) -> Stepped<S, E>, f: S, i: I, g: S, events: seq<E>)
    requires step(f, i) == Stepped(g, events, Continue)
    ensures Runs(step, f, [i], g, events)
  {
    FoldOne(step, f, i);
  }

  lemma RunsThen<S, I, E>(step: (S, I) -> Stepped<S, E>, f: S, a: seq<I>, g: S, ea: seq<E>, b: seq<I>, h: S, eb: seq<E>)
    requires Runs(step, f, a, g, ea) && Runs(step, g, b, h, eb)
    ensures Runs(step, f, a + b, h, ea + eb)
  {
    FoldConcat(step, f, a, b);
  }

  /** What comes after a run that took everything. */
  lemma FoldAfter<S, I, E>(step: (S, I) -> Stepped<S, E>, f: S, a: seq<I>, g: S, events: seq<E>, b: seq<I>)
    requires Runs(step, f, a, g, events)
    ensures var q := Fold(step, g, b);
      Fold(step, f, a + b) == Result(q.f, events + q.events, |a| + q.consumed, q.stopped)
  {
    FoldConcat(step, f, a, b);
  }
}
