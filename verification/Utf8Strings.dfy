/**
 Whole strings: validation sequence by sequence, finding the first invalid one, and conversion between
 UTF-8, UTF-16 and UTF-32.
 */
module Utf8Strings {
  import opened Numbers
  import opened Utf8
  import opened Wrappers

  datatype Result<T> = Ok(value: T) | Failed

  // ----- strings of code points

  predicate AllScalar(cps: seq<int>) { forall cp :: cp in cps ==> IsScalar(cp) }

  /** The scalar values at the head of a text one by one, if the text is well-formed. */
  function Decode(s: seq<Byte>): Option<seq<int>> {
    if s == [] then Some([])
    else
      match Validate(s)
      case Bad(_) => None
      case Good(cp, n) =>
        EncodeValidated(s);
        match Decode(s[n..])
        case None => None
        case Some(cps) => Some([cp] + cps)
  }

  predicate Valid(s: seq<Byte>) { Decode(s).Some? }

  function EncodeAll(cps: seq<int>): seq<Byte>
    requires AllScalar(cps)
  {
    if cps == [] then []
    else
      assert cps[|cps| - 1] in cps && forall cp :: cp in cps[..|cps| - 1] ==> cp in cps;
      EncodeAll(cps[..|cps| - 1]) + Encode(cps[|cps| - 1])
  }

  /** One code point in front. */
  lemma DecodeFirst(cp: int, s: seq<Byte>)
    requires IsScalar(cp)
    ensures Decode(Encode(cp) + s) ==
      match Decode(s) case None => None case Some(cps) => Some([cp] + cps)
  {
    ValidateEncoded(cp, s);
    hide Encode, Validate;
    assert (Encode(cp) + s)[|Encode(cp)|..] == s;
  }

  /** Texts may be joined. */
  lemma {:induction false} DecodeConcat(a: seq<Byte>, b: seq<Byte>)
    requires Valid(a)
    ensures Decode(a + b) ==
      match Decode(b) case None => None case Some(cps) => Some(Decode(a).value + cps)
    decreases |a|
  {
    hide Validate, Encode;
    if a == [] {
      assert a + b == b;
      assert forall cps: seq<int> :: [] + cps == cps;
    } else {
      var r := Validate(a);
      EncodeValidated(a);
      var rest := a[r.length..];
      DecodeConcat(rest, b);
      assert a + b == Encode(r.cp) + (rest + b);
      DecodeFirst(r.cp, rest + b);
      assert forall cps: seq<int> :: ([r.cp] + Decode(rest).value) + cps == [r.cp] + (Decode(rest).value + cps);
    }
  }

  lemma DecodeOne(cp: int)
    requires IsScalar(cp)
    ensures Decode(Encode(cp)) == Some([cp])
  {
    DecodeFirst(cp, []);
    assert Encode(cp) + [] == Encode(cp) && [cp] + [] == [cp];
  }

  /** Decoding undoes encoding, for all sequences of scalar values. */
  lemma {:induction false} DecodeEncodeAll(cps: seq<int>)
    requires AllScalar(cps)
    ensures Decode(EncodeAll(cps)) == Some(cps)
  {
    hide Encode, Decode;
    if cps == [] {
      DecodeNothing();
    } else {
      var n := |cps| - 1;
      assert cps[n] in cps && forall cp :: cp in cps[..n] ==> cp in cps;
      DecodeEncodeAll(cps[..n]);
      DecodeOne(cps[n]);
      DecodeConcat(EncodeAll(cps[..n]), Encode(cps[n]));
      assert cps == cps[..n] + [cps[n]];
    }
  }

  lemma DecodeNothing()
    ensures Decode([]) == Some([])
  {}

  lemma {:induction false} EncodeAllFirst(cp: int, cps: seq<int>)
    requires IsScalar(cp) && AllScalar(cps)
    ensures AllScalar([cp] + cps) && EncodeAll([cp] + cps) == Encode(cp) + EncodeAll(cps)
  {
    hide Encode;
    if cps == [] {
      assert [cp] + cps == [cp] && [cp][..0] == [];
      assert EncodeAll([]) == [];
    } else {
      var n := |cps| - 1;
      assert cps[n] in cps && forall c :: c in cps[..n] ==> c in cps;
      EncodeAllFirst(cp, cps[..n]);
      assert ([cp] + cps)[..n + 1] == [cp] + cps[..n];
    }
  }

  /** Encoding undoes decoding, for all texts that are well-formed. */
  lemma {:induction false} EncodeAllDecode(s: seq<Byte>)
    requires Valid(s)
    ensures AllScalar(Decode(s).value) && EncodeAll(Decode(s).value) == s
    decreases |s|
  {
    hide Encode, Validate;
    if s != [] {
      var r := Validate(s);
      EncodeValidated(s);
      EncodeAllDecode(s[r.length..]);
      EncodeAllFirst(r.cp, Decode(s[r.length..]).value);
      assert s == s[..r.length] + s[r.length..];
    }
  }

  // ----- UTF-32

  /** `append`. */
  method Append(cp: int, out: seq<Byte>) returns (r: Result<seq<Byte>>)
    requires cp >= 0
    ensures r == if IsScalar(cp) then Ok(out + Encode(cp)) else Failed
  {
    if !IsScalar(cp) {
      return Failed;
    }
    var result := out;
    if cp < 0x80 {
      result := result + [cp];
    } else if cp < 0x800 {
      result := result + [0xc0 + cp / 64];
      result := result + [0x80 + cp % 64];
    } else if cp < 0x10000 {
      result := result + [0xe0 + cp / 4096];
      result := result + [0x80 + cp / 64 % 64];
      result := result + [0x80 + cp % 64];
    } else {
      result := result + [0xf0 + cp / 262144];
      result := result + [0x80 + cp / 4096 % 64];
      result := result + [0x80 + cp / 64 % 64];
      result := result + [0x80 + cp % 64];
    }
    assert result == out + Encode(cp);
    r := Ok(result);
  }

  /** `utf32to8`: throws exactly if there is something else than a scalar value. */
  method Utf32To8(cps: seq<int>) returns (r: Result<seq<Byte>>)
    requires forall cp :: cp in cps ==> cp >= 0
    ensures r == if AllScalar(cps) then Ok(EncodeAll(cps)) else Failed
  {
    hide Encode;
    var out: seq<Byte> := [];
    var i := 0;
    while i < |cps|
      invariant i <= |cps| && AllScalar(cps[..i]) && out == EncodeAll(cps[..i])
    {
      assert cps[i] in cps && cps[..i + 1] == cps[..i] + [cps[i]];
      var appended := Append(cps[i], out);
      if appended.Failed? {
        return Failed;
      }
      out := appended.value;
      i := i + 1;
    }
    assert cps[..i] == cps;
    r := Ok(out);
  }

  // ----- one code point at a time

  /** `increase_safely`. */
  method IncreaseSafely(s: seq<Byte>, it: nat) returns (it': nat, error: Option<Error>)
    requires it < |s|
    ensures it' == it + 1
    ensures error ==
      if it' == |s| then Some(NotEnoughRoom) else if IsTrail(s[it']) then None else Some(IncompleteSequence)
  {
    it' := it + 1;
    error := if it' == |s| then Some(NotEnoughRoom) else if !IsTrail(s[it']) then Some(IncompleteSequence) else None;
  }

  /** The first trail octet that is missing decides. */
  lemma TrailErrorAt(t: seq<Byte>, n: nat, k: nat)
    requires 1 <= n <= 4 && k < n && k < |t| && forall i :: 1 <= i <= k ==> IsTrail(t[i])
    ensures k == n - 1 ==> TrailError(t, n).Good?
    ensures k < n - 1 && |t| == k + 1 ==> TrailError(t, n) == Bad(NotEnoughRoom)
    ensures k < n - 1 && |t| > k + 1 && !IsTrail(t[k + 1]) ==> TrailError(t, n) == Bad(IncompleteSequence)
  {}

  /** `get_sequence_2`, `get_sequence_3` and `get_sequence_4`, which take one trail octet after the other. */
  method GetSequence(s: seq<Byte>, it: nat, n: nat) returns (it': nat, cp: int, error: Option<Error>)
    requires it < |s| && 1 <= n <= 4
    ensures var e := TrailError(s[it..], n);
      if e.Bad? then error == Some(e.error)
      else error == None && it' == it + n - 1 && cp == Assemble(s[it..], n)
  {
    hide Two, Three, Four, TrailError;
    it', cp, error := it, s[it], None;
    var b: seq<Byte> := [];
    ghost var t := s[it..];
    while |b| < n - 1
      invariant |b| <= n - 1 && it' == it + |b| < |s| && error == None && b == t[1..|b| + 1]
      invariant forall i :: 1 <= i <= |b| ==> IsTrail(t[i])
    {
      TrailErrorAt(t, n, |b|);
      it', error := IncreaseSafely(s, it');
      if error.Some? {
        return;
      }
      b := b + [s[it']];
    }
    TrailErrorAt(t, n, |b|);
    cp := if n == 1 then s[it] else if n == 2 then Two(s[it], b[0]) else if n == 3 then Three(s[it], b[0], b[1])
          else Four(s[it], b[0], b[1], b[2]);
  }

  /** `validate_next`: on an error the iterator goes back to where it was. */
  method ValidateNext(s: seq<Byte>, it: nat) returns (it': nat, r: Step)
    requires it < |s|
    ensures r == Validate(s[it..]) && it' == if r.Good? then it + r.length else it
  {
    hide Assemble;
    var n := SequenceLength(s[it]);
    if n == 0 {
      return it, Bad(InvalidLead);
    }
    var cp, error;
    it', cp, error := GetSequence(s, it, n);
    if error == None {
      if IsScalar(cp) {
        if !IsOverlong(cp, n) {
          return it' + 1, Good(cp, n);
        }
        error := Some(OverlongSequence);
      } else {
        error := Some(InvalidCodePoint);
      }
    }
    return it, Bad(error.value);
  }

  lemma DecodeStep(s: seq<Byte>, it: nat)
    requires it < |s|
    ensures Decode(s[it..]) ==
      match Validate(s[it..])
      case Bad(_) => None
      case Good(cp, n) => if n > |s| - it then None else
        match Decode(s[it + n..]) case None => None case Some(cps) => Some([cp] + cps)
  {
    if Validate(s[it..]).Good? {
      EncodeValidated(s[it..]);
      var n := Validate(s[it..]).length;
      assert s[it..][n..] == s[it + n..];
    }
    hide Validate;
  }

  /** What has been read is a text; it may be followed by another one. */
  lemma ReadOne(s: seq<Byte>, it: nat, cp: int, n: nat)
    requires it < |s| && Validate(s[it..]) == Good(cp, n) && Valid(s[..it])
    ensures it + n <= |s| && n > 0 && Decode(s[..it + n]) == Some(Decode(s[..it]).value + [cp])
  {
    EncodeValidated(s[it..]);
    hide Validate, Encode, Decode;
    DecodeOne(cp);
    DecodeConcat(s[..it], Encode(cp));
    assert s[..it + n] == s[..it] + s[it..][..n];
  }

  /** Behind a text, a text as a whole is one if its rest is. */
  lemma RestDecides(s: seq<Byte>, it: nat)
    requires it <= |s| && Valid(s[..it])
    ensures Valid(s) <==> Valid(s[it..])
  {
    hide Decode;
    DecodeConcat(s[..it], s[it..]);
    assert s == s[..it] + s[it..];
  }

  /** `find_invalid`: the end of the longest text at the beginning, where the first error is. */
  method FindInvalid(s: seq<Byte>) returns (result: nat)
    ensures result <= |s| && Valid(s[..result])
    ensures result < |s| ==> Validate(s[result..]).Bad?
    ensures result == |s| <==> Valid(s)
  {
    hide Validate, Decode;
    result := 0;
    DecodeNothing();
    assert s[..0] == [];
    while result < |s|
      invariant result <= |s| && Valid(s[..result])
    {
      var r, at := Bad(InvalidLead), result;
      result, r := ValidateNext(s, at);
      if r.Bad? {
        DecodeStep(s, at);
        RestDecides(s, at);
        return;
      }
      ReadOne(s, at, r.cp, r.length);
    }
    assert s[..result] == s;
  }

  /** `utf8to32`: throws exactly if the input is not well-formed. */
  method Utf8To32(s: seq<Byte>) returns (r: Result<seq<int>>)
    ensures r == match Decode(s) case None => Failed case Some(cps) => Ok(cps)
  {
    hide Validate, Decode;
    var out: seq<int> := [];
    var it := 0;
    DecodeNothing();
    assert s[..0] == [];
    while it < |s|
      invariant it <= |s| && Decode(s[..it]) == Some(out)
    {
      var step, at := Bad(InvalidLead), it;
      it, step := ValidateNext(s, at);
      if step.Bad? {
        DecodeStep(s, at);
        RestDecides(s, at);
        return Failed;
      }
      ReadOne(s, at, step.cp, step.length);
      out := out + [step.cp];
    }
    assert s[..it] == s;
    r := Ok(out);
  }

  // ----- UTF-16

  const LEAD_OFFSET := 0xd800 - 0x10000 / 1024

  /** `0x10000u - (LEAD_SURROGATE_MIN << 10) - TRAIL_SURROGATE_MIN`, which wraps around. */
  const SURROGATE_OFFSET := (0x10000 - 0xd800 * 1024 - 0xdc00) % 0x1_0000_0000

  type Unit = x: int | 0 <= x < 0x10000

  predicate IsLead(u: int) { 0xd800 <= u <= 0xdbff }

  predicate IsTrailUnit(u: int) { 0xdc00 <= u <= 0xdfff }

  /** The code units of a code point (section 2.1 of RFC 2781). */
  function Units(cp: int): (u: seq<Unit>)
    requires 0 <= cp <= 0x10ffff
    ensures 1 <= |u| <= 2
  {
    if cp > 0xffff then [cp / 1024 + LEAD_OFFSET, cp % 1024 + 0xdc00] else [cp]
  }

  /** A surrogate pair put together, in 32-bit arithmetic. */
  function Pair(lead: int, trail: int): int { (lead * 1024 + trail + SURROGATE_OFFSET) % 0x1_0000_0000 }

  lemma PairIs(lead: int, trail: int)
    requires IsLead(lead) && IsTrailUnit(trail)
    ensures Pair(lead, trail) == 0x10000 + (lead - 0xd800) * 1024 + (trail - 0xdc00)
    ensures IsScalar(Pair(lead, trail)) && Units(Pair(lead, trail)) == [lead, trail]
  {}

  lemma UnitsPair(cp: int)
    requires 0xffff < cp <= 0x10ffff
    ensures var u := Units(cp); IsLead(u[0]) && IsTrailUnit(u[1]) && Pair(u[0], u[1]) == cp
  {}

  /** One step of a UTF-16 decoder. */
  function Validate16(u: seq<Unit>): Option<(int, nat)>
    requires u != []
  {
    if IsLead(u[0]) then
      if |u| > 1 && IsTrailUnit(u[1]) then Some((Pair(u[0], u[1]), 2)) else None
    else if IsTrailUnit(u[0]) then None
    else Some((u[0], 1))
  }

  /** A UTF-16 decoder accepts exactly what begins with the units of a scalar value. */
  lemma Validate16Exactly(u: seq<Unit>, cp: int, n: nat)
    requires u != []
    ensures Validate16(u) == Some((cp, n)) <==>
      IsScalar(cp) && n == |Units(cp)| && n <= |u| && u[..n] == Units(cp)
  {
    if |u| > 1 && IsLead(u[0]) && IsTrailUnit(u[1]) {
      PairIs(u[0], u[1]);
    }
    if 0xffff < cp <= 0x10ffff {
      UnitsPair(cp);
    }
    hide Pair;
  }

  function Encode16All(cps: seq<int>): seq<Unit>
    requires AllScalar(cps)
  {
    if cps == [] then []
    else
      assert cps[|cps| - 1] in cps && forall cp :: cp in cps[..|cps| - 1] ==> cp in cps;
      Encode16All(cps[..|cps| - 1]) + Units(cps[|cps| - 1])
  }

  /** The text of a sequence of code units, if it is one. */
  function Decode16(u: seq<Unit>): Option<seq<int>> {
    if u == [] then Some([])
    else
      match Validate16(u)
      case None => None
      case Some(r) =>
        match Decode16(u[r.1..])
        case None => None
        case Some(cps) => Some([r.0] + cps)
  }

  lemma Decode16First(cp: int, u: seq<Unit>)
    requires IsScalar(cp)
    ensures Decode16(Units(cp) + u) ==
      match Decode16(u) case None => None case Some(cps) => Some([cp] + cps)
  {
    Validate16Exactly(Units(cp) + u, cp, |Units(cp)|);
    hide Units, Validate16;
    assert (Units(cp) + u)[|Units(cp)|..] == u;
    assert (Units(cp) + u)[..|Units(cp)|] == Units(cp);
  }

  lemma Decode16Rest(u: seq<Unit>)
    requires u != [] && Validate16(u).Some?
    ensures var (cp, n) := Validate16(u).value;
      && IsScalar(cp) && 0 < n <= |u| && u[..n] == Units(cp)
      && Decode16(u) == match Decode16(u[n..]) case None => None case Some(cps) => Some([cp] + cps)
  {
    var (cp, n) := Validate16(u).value;
    Validate16Exactly(u, cp, n);
    hide Units, Validate16;
  }

  lemma {:induction false} Decode16Concat(a: seq<Unit>, b: seq<Unit>)
    requires Decode16(a).Some?
    ensures Decode16(a + b) ==
      match Decode16(b) case None => None case Some(cps) => Some(Decode16(a).value + cps)
    decreases |a|
  {
    hide Validate16, Units;
    if a == [] {
      assert a + b == b;
      assert forall cps: seq<int> :: [] + cps == cps;
    } else {
      var (cp, n) := Validate16(a).value;
      Decode16Rest(a);
      var rest := a[n..];
      Decode16Concat(rest, b);
      assert a + b == Units(cp) + (rest + b);
      Decode16First(cp, rest + b);
      assert forall cps: seq<int> :: ([cp] + Decode16(rest).value) + cps == [cp] + (Decode16(rest).value + cps);
    }
  }

  lemma Decode16One(cp: int)
    requires IsScalar(cp)
    ensures Decode16(Units(cp)) == Some([cp])
  {
    Decode16First(cp, []);
    assert Units(cp) + [] == Units(cp) && [cp] + [] == [cp];
  }

  lemma Decode16Nothing()
    ensures Decode16([]) == Some([])
  {}

  lemma {:induction false} Decode16EncodeAll(cps: seq<int>)
    requires AllScalar(cps)
    ensures Decode16(Encode16All(cps)) == Some(cps)
  {
    hide Units, Decode16;
    if cps == [] {
      Decode16Nothing();
    } else {
      var n := |cps| - 1;
      assert cps[n] in cps && forall cp :: cp in cps[..n] ==> cp in cps;
      Decode16EncodeAll(cps[..n]);
      Decode16One(cps[n]);
      Decode16Concat(Encode16All(cps[..n]), Units(cps[n]));
      assert cps == cps[..n] + [cps[n]];
    }
  }

  lemma {:induction false} Encode16AllFirst(cp: int, cps: seq<int>)
    requires IsScalar(cp) && AllScalar(cps)
    ensures AllScalar([cp] + cps) && Encode16All([cp] + cps) == Units(cp) + Encode16All(cps)
  {
    hide Units;
    if cps == [] {
      assert [cp] + cps == [cp] && [cp][..0] == [];
      assert Encode16All([]) == [];
    } else {
      var n := |cps| - 1;
      assert cps[n] in cps && forall c :: c in cps[..n] ==> c in cps;
      Encode16AllFirst(cp, cps[..n]);
      assert ([cp] + cps)[..n + 1] == [cp] + cps[..n];
    }
  }

  lemma {:induction false} Encode16AllDecode(u: seq<Unit>)
    requires Decode16(u).Some?
    ensures AllScalar(Decode16(u).value) && Encode16All(Decode16(u).value) == u
    decreases |u|
  {
    hide Units, Validate16;
    if u != [] {
      var (cp, n) := Validate16(u).value;
      Decode16Rest(u);
      Encode16AllDecode(u[n..]);
      Encode16AllFirst(cp, Decode16(u[n..]).value);
      assert u == u[..n] + u[n..];
    }
  }

  lemma AllScalarLast(cps: seq<int>, cp: int)
    requires AllScalar(cps) && IsScalar(cp)
    ensures AllScalar(cps + [cp])
    ensures EncodeAll(cps + [cp]) == EncodeAll(cps) + Encode(cp)
    ensures Encode16All(cps + [cp]) == Encode16All(cps) + Units(cp)
  {
    hide Encode, Units;
    assert (cps + [cp])[..|cps|] == cps;
  }

  /** `utf8to16`: the same text, or an exception exactly if there is none. */
  method Utf8To16(s: seq<Byte>) returns (r: Result<seq<Unit>>)
    ensures Valid(s) ==> AllScalar(Decode(s).value) && r == Ok(Encode16All(Decode(s).value))
    ensures !Valid(s) ==> r == Failed
  {
    hide Validate, Decode, Encode, EncodeAll, Encode16All;
    var out: seq<Unit> := [];
    ghost var cps: seq<int> := [];
    var it := 0;
    DecodeNothing();
    NothingEncoded();
    assert s[..0] == [];
    while it < |s|
      invariant it <= |s| && Decode(s[..it]) == Some(cps) && AllScalar(cps) && out == Encode16All(cps)
    {
      var step, at := Bad(InvalidLead), it;
      it, step := ValidateNext(s, at);
      if step.Bad? {
        DecodeStep(s, at);
        RestDecides(s, at);
        return Failed;
      }
      var cp := step.cp;
      EncodeValidated(s[at..]);
      ReadOne(s, at, cp, step.length);
      AllScalarLast(cps, cp);
      cps := cps + [cp];
      if cp > 0xffff {
        out := out + [cp / 1024 + LEAD_OFFSET] + [cp % 1024 + 0xdc00];
      } else {
        out := out + [cp];
      }
    }
    assert s[..it] == s;
    r := Ok(out);
  }

  lemma NothingEncoded()
    ensures AllScalar([]) && EncodeAll([]) == [] && Encode16All([]) == []
  {}

  lemma Decode16Step(u: seq<Unit>, i: nat)
    requires i < |u| && Decode16(u[..i]).Some?
    ensures Validate16(u[i..]).None? ==> Decode16(u).None?
    ensures Validate16(u[i..]).Some? ==>
      var (cp, n) := Validate16(u[i..]).value;
      i + n <= |u| && n > 0 && IsScalar(cp) && Decode16(u[..i + n]) == Some(Decode16(u[..i]).value + [cp])
  {
    hide Validate16, Decode16, Units;
    Decode16Concat(u[..i], u[i..]);
    assert u == u[..i] + u[i..];
    if Validate16(u[i..]).Some? {
      var (cp, n) := Validate16(u[i..]).value;
      Decode16Rest(u[i..]);
      Decode16One(cp);
      Decode16Concat(u[..i], Units(cp));
      assert u[..i + n] == u[..i] + u[i..][..n];
    } else {
      Decode16Fails(u[i..]);
    }
  }

  lemma Decode16Fails(u: seq<Unit>)
    requires u != [] && Validate16(u).None?
    ensures Decode16(u).None?
  {}

  /** `utf16to8`: the same text, or an exception exactly if there is none. */
  method Utf16To8(u: seq<Unit>) returns (r: Result<seq<Byte>>)
    ensures Decode16(u).Some? ==> AllScalar(Decode16(u).value) && r == Ok(EncodeAll(Decode16(u).value))
    ensures Decode16(u).None? ==> r == Failed
  {
    hide Decode16, Encode, EncodeAll, Encode16All, Pair;
    var out: seq<Byte> := [];
    ghost var cps: seq<int> := [];
    var i := 0;
    Decode16Nothing();
    NothingEncoded();
    assert u[..0] == [];
    while i < |u|
      invariant i <= |u| && Decode16(u[..i]) == Some(cps) && AllScalar(cps) && out == EncodeAll(cps)
    {
      Decode16Step(u, i);
      var cp: int := u[i];
      i := i + 1;
      if IsLead(cp) {
        if i == |u| {
          return Failed;
        }
        var trail := u[i];
        i := i + 1;
        if !IsTrailUnit(trail) {
          return Failed;
        }
        cp := Pair(cp, trail);
      } else if IsTrailUnit(cp) {
        return Failed;
      }
      AllScalarLast(cps, cp);
      cps := cps + [cp];
      var appended := Append(cp, out);
      out := appended.value;
    }
    assert u[..i] == u;
    r := Ok(out);
  }

  /** From UTF-8 to UTF-16 and back. */
  lemma RoundTrip8(s: seq<Byte>)
    requires Valid(s)
    ensures AllScalar(Decode(s).value)
    ensures var u := Encode16All(Decode(s).value);
      Decode16(u) == Decode(s) && EncodeAll(Decode16(u).value) == s
  {
    EncodeAllDecode(s);
    Decode16EncodeAll(Decode(s).value);
  }

  /** From UTF-16 to UTF-8 and back. */
  lemma RoundTrip16(u: seq<Unit>)
    requires Decode16(u).Some?
    ensures AllScalar(Decode16(u).value)
    ensures var s := EncodeAll(Decode16(u).value);
      Decode(s) == Decode16(u) && Encode16All(Decode(s).value) == u
  {
    Encode16AllDecode(u);
    DecodeEncodeAll(Decode16(u).value);
  }
}
