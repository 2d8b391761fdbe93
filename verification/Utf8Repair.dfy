/**
 Repairing text, moving backwards over it, and the unchecked functions on valid text.
 */
module Utf8Repair {
  import opened Numbers
  import opened Utf8
  import opened Utf8Strings
  import opened Wrappers

  // ----- repair

  /** How many octets the loop of `replace_invalid` goes on by after an error. */
  function Skipped(s: seq<Byte>, e: Error): (n: nat)
    requires s != []
    ensures 1 <= n <= |s| && (e == InvalidLead ==> n == 1)
  {
    if e == InvalidLead then 1 else 1 + Trails(s[1..])
  }

  /** The number of trail octets at the beginning of `s`. */
  function Trails(s: seq<Byte>): (n: nat)
    ensures n <= |s| && forall i :: 0 <= i < n ==> IsTrail(s[i])
    ensures n < |s| ==> !IsTrail(s[n])
  {
    if s == [] || !IsTrail(s[0]) then 0 else 1 + Trails(s[1..])
  }

  /** The text with one mark for every sequence that is not valid; `None` if `replace_invalid` throws. */
  function Repaired(s: seq<Byte>, mark: int): Option<seq<Byte>>
    requires IsScalar(mark)
    decreases |s|
  {
    if s == [] then Some([])
    else
      match Validate(s)
      case Good(cp, n) =>
        EncodeValidated(s);
        (match Repaired(s[n..], mark) case None => None case Some(t) => Some(s[..n] + t))
      case Bad(e) =>
        if e == NotEnoughRoom then None
        else
          match Repaired(s[Skipped(s, e)..], mark) case None => None case Some(t) => Some(Encode(mark) + t)
  }

  /** What comes out is always valid. */
  lemma {:induction false} RepairedValid(s: seq<Byte>, mark: int)
    requires IsScalar(mark) && Repaired(s, mark).Some?
    ensures Valid(Repaired(s, mark).value)
    decreases |s|
  {
    hide Validate, Encode;
    if s != [] {
      match Validate(s)
      case Good(cp, n) =>
        EncodeValidated(s);
        RepairedValid(s[n..], mark);
        DecodeFirst(cp, Repaired(s[n..], mark).value);
      case Bad(e) =>
        RepairedValid(s[Skipped(s, e)..], mark);
        DecodeFirst(mark, Repaired(s[Skipped(s, e)..], mark).value);
    }
  }

  /** And valid text is left as it is. */
  lemma {:induction false} RepairedSame(s: seq<Byte>, mark: int)
    requires IsScalar(mark) && Valid(s)
    ensures Repaired(s, mark) == Some(s)
    decreases |s|
  {
    hide Encode, Validate;
    if s != [] {
      var n := Validate(s).length;
      EncodeValidated(s);
      assert Valid(s[n..]);
      RepairedSame(s[n..], mark);
      assert s == s[..n] + s[n..];
    }
  }

  /** The text ends inside a sequence: its last octet that is no trail announces more than there is. */
  ghost predicate EndsInside(s: seq<Byte>) {
    exists k :: 0 <= k < |s| && !IsTrail(s[k]) && Truncated(s[k..])
  }

  predicate Truncated(t: seq<Byte>) {
    t != [] && |t| < SequenceLength(t[0]) && forall i :: 1 <= i < |t| ==> IsTrail(t[i])
  }

  lemma TruncatedIs(s: seq<Byte>)
    requires s != []
    ensures Validate(s) == Bad(NotEnoughRoom) <==> Truncated(s)
  {
    hide Assemble;
  }

  /** Dropping octets of which all but the first are trail octets keeps the end, unless it is the end. */
  lemma EndsLater(s: seq<Byte>, n: nat)
    requires 1 <= n <= |s| && forall i :: 1 <= i < n ==> IsTrail(s[i])
    requires !Truncated(s)
    ensures EndsInside(s) <==> EndsInside(s[n..])
  {
    hide Truncated;
    assert s[0..] == s;
    if EndsInside(s) {
      var k :| 0 <= k < |s| && !IsTrail(s[k]) && Truncated(s[k..]);
      assert k >= n;
      assert s[n..][k - n..] == s[k..] && s[n..][k - n] == s[k];
    }
    if EndsInside(s[n..]) {
      var k :| 0 <= k < |s[n..]| && !IsTrail(s[n..][k]) && Truncated(s[n..][k..]);
      assert s[n..][k..] == s[n + k..] && s[n + k] == s[n..][k];
    }
  }

  /** Repair fails exactly on text that ends inside a sequence. */
  lemma {:induction false} RepairFails(s: seq<Byte>, mark: int)
    requires IsScalar(mark)
    ensures Repaired(s, mark).None? <==> EndsInside(s)
    decreases |s|
  {
    hide Encode, EndsInside;
    if s == [] {
      EndsNowhere();
    } else {
      TruncatedIs(s);
      match Validate(s)
      case Good(cp, n) =>
        EncodeValidated(s);
        GoodTrails(s);
        hide Validate;
        EndsLater(s, n);
        RepairFails(s[n..], mark);
      case Bad(e) =>
        hide Validate;
        if e == NotEnoughRoom {
          TruncatedEnds(s);
        } else {
          var n := Skipped(s, e);
          assert forall i :: 1 <= i < n ==> s[i] == s[1..][i - 1];
          EndsLater(s, n);
          RepairFails(s[n..], mark);
        }
    }
  }

  lemma EndsNowhere()
    ensures !EndsInside([])
  {}

  lemma TruncatedEnds(s: seq<Byte>)
    requires Truncated(s)
    ensures EndsInside(s)
  {
    assert s[0..] == s;
  }

  lemma GoodTrails(s: seq<Byte>)
    requires s != [] && Validate(s).Good?
    ensures forall i :: 1 <= i < Validate(s).length ==> i < |s| && IsTrail(s[i])
  {
    hide Assemble;
  }

  /**
   `replace_invalid`. It throws if the text ends inside a sequence, or if a mark is needed that is no
   scalar value.
   */
  method ReplaceInvalid(s: seq<Byte>, mark: int) returns (r: Result<seq<Byte>>)
    requires mark >= 0
    ensures IsScalar(mark) ==> r == match Repaired(s, mark) case None => Failed case Some(t) => Ok(t)
    ensures r.Ok? ==> Valid(r.value)
    ensures Valid(s) ==> r == Ok(s)
    ensures !IsScalar(mark) && r.Ok? ==> Valid(s)
  {
    hide Validate, Encode, Decode, Repaired, Trails, Before, Skipped, IsTrail;
    var out: seq<Byte> := [];
    var start := 0;
    DecodeNothing();
    assert s[..0] == [] && s[0..] == s;
    if IsScalar(mark) {
      NothingBefore(s, mark);
      if Valid(s) {
        RepairedSame(s, mark);
      }
    }
    while start < |s|
      invariant start <= |s| && Valid(out)
      invariant IsScalar(mark) ==> Repaired(s, mark) == Before(out, Repaired(s[start..], mark))
      invariant !IsScalar(mark) ==> out == s[..start]
    {
      var at := start;
      var step;
      start, step := ValidateNext(s, at);
      match step {
        case Good(cp, n) =>
          CopyStep(s, at, cp, n, out, mark);
          out := CopyRange(s, at, start, out);
        case Bad(e) =>
          MarkStep(s, at, e, out, mark);
          DecodeStep(s, at);
          if !IsScalar(mark) {
            RestDecides(s, at);
          }
          if e == NotEnoughRoom {
            return Failed;
          }
          var appended := Append(mark, out);
          if appended.Failed? {
            return Failed;
          }
          out := appended.value;
          start := start + 1;
          if e != InvalidLead {
            start := SkipTrails(s, start);
          }
      }
    }
    assert s[start..] == [] && s[..start] == s;
    if IsScalar(mark) {
      RepairedNothing(mark, out);
    }
    r := Ok(out);
  }

  method CopyRange(s: seq<Byte>, from: nat, to: nat, out: seq<Byte>) returns (r: seq<Byte>)
    requires from <= to <= |s|
    ensures r == out + s[from..to]
  {
    r := out;
    for it := from to to
      invariant r == out + s[from..it]
    {
      r := r + [s[it]];
    }
  }

  method SkipTrails(s: seq<Byte>, from: nat) returns (it: nat)
    requires from <= |s|
    ensures it == from + Trails(s[from..])
  {
    it := from;
    assert s[from..] == s[it..];
    while it < |s| && IsTrail(s[it])
      invariant from <= it <= |s| && from + Trails(s[from..]) == it + Trails(s[it..])
    {
      assert s[it..][1..] == s[it + 1..];
      it := it + 1;
    }
  }

  /** `out` in front of what is still to come. */
  function Before(out: seq<Byte>, t: Option<seq<Byte>>): (r: Option<seq<Byte>>)
    ensures t.None? <==> r.None?
  {
    match t case None => None case Some(v) => Some(out + v)
  }

  lemma BeforeMore(out: seq<Byte>, a: seq<Byte>, t: Option<seq<Byte>>)
    ensures Before(out + a, t) == Before(out, match t case None => None case Some(v) => Some(a + v))
  {
    if t.Some? {
      assert out + (a + t.value) == out + a + t.value;
    }
  }

  lemma NothingBefore(s: seq<Byte>, mark: int)
    requires IsScalar(mark)
    ensures Repaired(s, mark) == Before([], Repaired(s, mark))
  {
    hide Repaired;
    if Repaired(s, mark).Some? {
      assert [] + Repaired(s, mark).value == Repaired(s, mark).value;
    }
  }

  lemma RepairedNothing(mark: int, out: seq<Byte>)
    requires IsScalar(mark)
    ensures Before(out, Repaired([], mark)) == Some(out)
  {
    assert out + [] == out;
  }

  /** What one turn of the loop does to what it has written, if the sequence is valid. */
  ghost predicate Copies(s: seq<Byte>, at: nat, n: nat, out: seq<Byte>, mark: int)
    requires at <= |s|
  {
    && 0 < n && at + n <= |s| && Valid(out + s[at..at + n])
    && (IsScalar(mark) ==>
        Before(out, Repaired(s[at..], mark)) == Before(out + s[at..at + n], Repaired(s[at + n..], mark)))
  }

  /** And if it is not. */
  ghost predicate Marks(s: seq<Byte>, at: nat, e: Error, out: seq<Byte>, mark: int)
    requires at < |s|
  {
    IsScalar(mark) ==>
      && Valid(out + Encode(mark))
      && (e == NotEnoughRoom ==> Repaired(s[at..], mark) == None)
      && (e != NotEnoughRoom ==>
          var n := Skipped(s[at..], e);
          && (e != InvalidLead ==> n == 1 + Trails(s[at + 1..]))
          && Before(out, Repaired(s[at..], mark)) == Before(out + Encode(mark), Repaired(s[at + n..], mark)))
  }

  lemma CopyStep(s: seq<Byte>, at: nat, cp: int, n: nat, out: seq<Byte>, mark: int)
    requires at < |s| && Valid(out) && Validate(s[at..]) == Good(cp, n)
    ensures Copies(s, at, n, out, mark)
  {
    hide Decode, Trails, Encode, Before;
    EncodeValidated(s[at..]);
    hide Validate;
    DecodeOne(cp);
    DecodeConcat(out, Encode(cp));
    assert s[at..][..n] == s[at..at + n] && s[at..][n..] == s[at + n..];
    if IsScalar(mark) {
      BeforeMore(out, s[at..at + n], Repaired(s[at + n..], mark));
    }
  }

  lemma MarkStep(s: seq<Byte>, at: nat, e: Error, out: seq<Byte>, mark: int)
    requires at < |s| && Valid(out) && Validate(s[at..]) == Bad(e)
    ensures Marks(s, at, e, out, mark)
  {
    hide Decode, Trails, Encode, Validate, Before;
    if IsScalar(mark) {
      DecodeOne(mark);
      DecodeConcat(out, Encode(mark));
      if e != NotEnoughRoom {
        var n := Skipped(s[at..], e);
        assert s[at..][n..] == s[at + n..] && s[at..][1..] == s[at + 1..];
        BeforeMore(out, Encode(mark), Repaired(s[at + n..], mark));
      }
    }
  }

  // ----- backwards

  /** The last position before `it` that holds no trail octet, if there is one. */
  ghost predicate LeadBefore(s: seq<Byte>, k: nat, it: nat) {
    k < it <= |s| && !IsTrail(s[k]) && forall i :: k < i < it ==> IsTrail(s[i])
  }

  /**
   `prior`: the code point that ends at `it` and its beginning, or an error if nothing that ends there can
   be decoded. At a boundary it undoes `next`.
   */
  method Prior(s: seq<Byte>, it: nat) returns (it': nat, r: Step)
    requires it <= |s|
    ensures it == 0 ==> r == Bad(NotEnoughRoom)
    ensures it > 0 && (forall i :: 0 <= i < it ==> IsTrail(s[i])) ==> r == Bad(InvalidLead)
    ensures forall k: nat :: LeadBefore(s, k, it) ==> it' == k && r == Validate(s[k..it])
    ensures forall p, cp, n ::
      0 <= p < |s| && p + n == it && Validate(s[p..]) == Good(cp, n) ==> it' == p && r == Good(cp, n)
  {
    hide Validate;
    it', r := it, Bad(NotEnoughRoom);
    forall p, cp, n | 0 <= p < |s| && p + n == it && Validate(s[p..]) == Good(cp, n)
      ensures LeadBefore(s, p, it) && Validate(s[p..it]) == Good(cp, n)
    {
      Boundary(s, p, cp, n);
    }
    if it == 0 {
      return;
    }
    it' := it - 1;
    while IsTrail(s[it'])
      invariant it' < it && forall i :: it' < i < it ==> IsTrail(s[i])
      decreases it'
    {
      if it' == 0 {
        return it', Bad(InvalidLead);
      }
      it' := it' - 1;
    }
    var end;
    end, r := ValidateNext(s[it'..it], 0);
    assert s[it'..it][0..] == s[it'..it];
  }

  /** The octets of a code point say where it begins. */
  lemma Boundary(s: seq<Byte>, p: nat, cp: int, n: nat)
    requires p < |s| && Validate(s[p..]) == Good(cp, n)
    ensures n > 0 && p + n <= |s| && LeadBefore(s, p, p + n) && Validate(s[p..p + n]) == Good(cp, n)
  {
    EncodeValidated(s[p..]);
    EncodedLead(cp);
    ValidateEncoded(cp, []);
    hide Validate, Encode;
    assert s[p..p + n] == s[p..][..n] && Encode(cp) + [] == Encode(cp);
    assert forall i :: p <= i < p + n ==> s[i] == Encode(cp)[i - p];
  }

  // ----- the unchecked functions

  /** `unchecked::next`, which trusts the lead octet: the code point and how far the iterator moves. */
  function Trusting(s: seq<Byte>): (int, nat)
    requires s != [] && |s| >= SequenceLength(s[0])
  {
    var n := SequenceLength(s[0]);
    if n == 0 then (s[0], 1) else (Assemble(s, n), n)
  }

  /** On what the checked function accepts, the unchecked one does the same. */
  lemma TrustingAgrees(s: seq<Byte>)
    requires s != [] && Validate(s).Good?
    ensures |s| >= SequenceLength(s[0]) && Trusting(s) == (Validate(s).cp, Validate(s).length)
  {
    hide Assemble;
  }

  /** `unchecked::next`, step by step. */
  method UncheckedNext(s: seq<Byte>, it: nat) returns (it': nat, cp: int)
    requires it < |s| && it + SequenceLength(s[it]) <= |s|
    ensures (cp, it' - it) == Trusting(s[it..])
    ensures Validate(s[it..]).Good? ==> cp == Validate(s[it..]).cp && it' == it + Validate(s[it..]).length
  {
    hide Two, Three, Four;
    if Validate(s[it..]).Good? {
      TrustingAgrees(s[it..]);
    }
    cp, it' := s[it], it;
    var length := SequenceLength(s[it]);
    if length == 2 {
      it' := it' + 1;
      cp := Two(cp, s[it']);
    } else if length == 3 {
      it' := it' + 2;
      cp := Three(cp, s[it' - 1], s[it']);
    } else if length == 4 {
      it' := it' + 3;
      cp := Four(cp, s[it' - 2], s[it' - 1], s[it']);
    }
    it' := it' + 1;
  }

  /** `unchecked::utf8to32`: on valid text the same as the checked conversion. */
  method UncheckedUtf8To32(s: seq<Byte>) returns (out: seq<int>)
    requires Valid(s)
    ensures Some(out) == Decode(s)
  {
    hide Validate, Decode;
    out := [];
    var it := 0;
    DecodeNothing();
    assert s[..0] == [];
    while it < |s|
      invariant it <= |s| && Decode(s[..it]) == Some(out)
    {
      RestDecides(s, it);
      DecodeStep(s, it);
      TrustingAgrees(s[it..]);
      var step := it;
      ReadOne(s, it, Validate(s[it..]).cp, Validate(s[it..]).length);
      var cp;
      it, cp := UncheckedNext(s, step);
      out := out + [cp];
    }
    assert s[..it] == s;
  }

  /** `unchecked::prior`, which trusts that there is a lead octet: at a boundary of valid text it undoes `next`, too. */
  method UncheckedPrior(s: seq<Byte>, it: nat) returns (it': nat, cp: int)
    requires exists p, c, n :: 0 <= p < |s| && p + n == it && Validate(s[p..]) == Good(c, n)
    ensures forall p, c, n :: 0 <= p < |s| && p + n == it && Validate(s[p..]) == Good(c, n) ==> it' == p && cp == c
  {
    hide Validate;
    ghost var p, c, n :| 0 <= p < |s| && p + n == it && Validate(s[p..]) == Good(c, n);
    Boundary(s, p, c, n);
    it' := it - 1;
    while IsTrail(s[it'])
      invariant p <= it' < it
      decreases it'
    {
      it' := it' - 1;
    }
    forall q, d, m | 0 <= q < |s| && q + m == it && Validate(s[q..]) == Good(d, m)
      ensures q == p && d == c
    {
      Boundary(s, q, d, m);
    }
    TrustingAgrees(s[p..]);
    var end;
    end, cp := UncheckedNext(s, it');
  }
}
