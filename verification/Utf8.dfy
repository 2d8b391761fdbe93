/**
 UTF-8: one code point at a time. A sequence is taken apart octet by octet and then checked for
 surrogates, for the range and for overlong forms; what passes are exactly the encodings of sections 3
 and 4 of RFC 3629.
 */
module Utf8 {
  import opened Numbers

  // ----- code points and their encodings

  predicate IsSurrogate(cp: int) { 0xd800 <= cp <= 0xdfff }

  predicate IsScalar(cp: int) { 0 <= cp <= 0x10ffff && !IsSurrogate(cp) }

  /** The octets that `append` writes; bits are or-ed into octets whose low bits are zero. */
  function Encode(cp: int): (b: seq<Byte>)
    requires 0 <= cp <= 0x10ffff
    ensures 1 <= |b| <= 4
  {
    if cp < 0x80 then [cp]
    else if cp < 0x800 then [0xc0 + cp / 64, 0x80 + cp % 64]
    else if cp < 0x10000 then [0xe0 + cp / 4096, 0x80 + cp / 64 % 64, 0x80 + cp % 64]
    else [0xf0 + cp / 262144, 0x80 + cp / 4096 % 64, 0x80 + cp / 64 % 64, 0x80 + cp % 64]
  }

  predicate IsTrail(b: Byte) { b / 64 == 2 }

  function SequenceLength(lead: Byte): (n: nat)
    ensures n <= 4
  {
    if lead < 0x80 then 1
    else if lead / 32 == 6 then 2
    else if lead / 16 == 0xe then 3
    else if lead / 8 == 0x1e then 4
    else 0
  }

  predicate IsOverlong(cp: int, length: nat) {
    if cp < 0x80 then length != 1 else if cp < 0x800 then length != 2 else cp < 0x10000 && length != 3
  }

  datatype Error = NotEnoughRoom | InvalidLead | IncompleteSequence | OverlongSequence | InvalidCodePoint

  /** One step of a decoder: a code point and the octets it took, or why there is none. */
  datatype Step = Good(cp: int, length: nat) | Bad(error: Error)

  /** Why the `n - 1` octets behind a lead cannot be taken, if they cannot. */
  function TrailError(s: seq<Byte>, n: nat): (e: Step)
    requires s != [] && n <= 4
    ensures e.Good? ==> |s| >= n && forall i :: 1 <= i < n ==> IsTrail(s[i])
  {
    if n <= 1 then Good(0, 0)
    else if |s| == 1 then Bad(NotEnoughRoom)
    else if !IsTrail(s[1]) then Bad(IncompleteSequence)
    else if n == 2 then Good(0, 0)
    else if |s| == 2 then Bad(NotEnoughRoom)
    else if !IsTrail(s[2]) then Bad(IncompleteSequence)
    else if n == 3 then Good(0, 0)
    else if |s| == 3 then Bad(NotEnoughRoom)
    else if !IsTrail(s[3]) then Bad(IncompleteSequence)
    else Good(0, 0)
  }

  function Two(a: int, b: int): int { a * 64 % 0x800 + b % 64 }

  function Three(a: int, b: int, c: int): int { a * 4096 % 0x10000 + b * 64 % 0x1000 + c % 64 }

  function Four(a: int, b: int, c: int, d: int): int {
    a * 262144 % 0x200000 + b * 4096 % 0x40000 + c * 64 % 0x1000 + d % 64
  }

  /** The code point of a sequence of `n` octets, with the marking bits masked out. */
  function Assemble(s: seq<Byte>, n: nat): int
    requires 1 <= n <= 4 && |s| >= n
  {
    if n == 1 then s[0]
    else if n == 2 then Two(s[0], s[1])
    else if n == 3 then Three(s[0], s[1], s[2])
    else Four(s[0], s[1], s[2], s[3])
  }

  /** `validate_next` at the beginning of `s`. */
  function Validate(s: seq<Byte>): Step
    requires s != []
  {
    var n := SequenceLength(s[0]);
    if n == 0 then Bad(InvalidLead)
    else
      var e := TrailError(s, n);
      if e.Bad? then e
      else
        var cp := Assemble(s, n);
        if !IsScalar(cp) then Bad(InvalidCodePoint)
        else if IsOverlong(cp, n) then Bad(OverlongSequence)
        else Good(cp, n)
  }

  // ----- decoding one code point is the inverse of encoding it

  lemma EncodedLead(cp: int)
    requires 0 <= cp <= 0x10ffff
    ensures var b := Encode(cp);
      && SequenceLength(b[0]) == |b|
      && (forall i :: 1 <= i < |b| ==> IsTrail(b[i]))
      && !IsTrail(b[0])
      && !IsOverlong(cp, |b|)
  {}

  /** Masking removes the marking bits. */
  lemma Masked(a: int, b: int, c: int, d: int)
    requires 0x80 <= b < 0xc0 && 0x80 <= c < 0xc0 && 0x80 <= d < 0xc0
    ensures 0xc0 <= a < 0xe0 ==> Two(a, b) == (a - 0xc0) * 64 + (b - 0x80)
    ensures 0xe0 <= a < 0xf0 ==> Three(a, b, c) == (a - 0xe0) * 4096 + (b - 0x80) * 64 + (c - 0x80)
    ensures 0xf0 <= a < 0xf8 ==>
      Four(a, b, c, d) == (a - 0xf0) * 262144 + (b - 0x80) * 4096 + (c - 0x80) * 64 + (d - 0x80)
  {}

  /** A number by its digits to the base 64. */
  lemma Digits(a: int, b: int, c: int, d: int)
    requires 0 <= a && 0 <= b < 64 && 0 <= c < 64 && 0 <= d < 64
    ensures var n := a * 262144 + b * 4096 + c * 64 + d;
      n / 262144 == a && n / 4096 % 64 == b && n / 64 % 64 == c && n % 64 == d
      && n / 4096 == a * 64 + b && n / 64 == a * 4096 + b * 64 + c
  {
    var n := a * 262144 + b * 4096 + c * 64 + d;
    assert n / 64 == a * 4096 + b * 64 + c;
    assert n / 4096 == a * 64 + b;
  }

  lemma DigitsOf(n: int)
    requires 0 <= n
    ensures n == n / 262144 * 262144 + n / 4096 % 64 * 4096 + n / 64 % 64 * 64 + n % 64
    ensures n / 4096 == n / 262144 * 64 + n / 4096 % 64
    ensures n / 64 == n / 262144 * 4096 + n / 4096 % 64 * 64 + n / 64 % 64
  {
    assert n == n / 64 * 64 + n % 64;
    assert n / 4096 == n / 64 / 64 && n / 262144 == n / 4096 / 64;
  }

  lemma AssembleEncoded(cp: int)
    requires 0 <= cp <= 0x10ffff
    ensures Assemble(Encode(cp), |Encode(cp)|) == cp
  {
    DigitsOf(cp);
    if 0x80 <= cp < 0x800 {
      Masked(0xc0 + cp / 64, 0x80 + cp % 64, 0x80, 0x80);
    } else if 0x800 <= cp < 0x10000 {
      Masked(0xe0 + cp / 4096, 0x80 + cp / 64 % 64, 0x80 + cp % 64, 0x80);
    } else if cp >= 0x10000 {
      Masked(0xf0 + cp / 262144, 0x80 + cp / 4096 % 64, 0x80 + cp / 64 % 64, 0x80 + cp % 64);
    }
    hide Two, Three, Four;
  }

  /** What has been encoded is decoded, whatever follows. */
  lemma ValidateEncoded(cp: int, rest: seq<Byte>)
    requires IsScalar(cp)
    ensures Validate(Encode(cp) + rest) == Good(cp, |Encode(cp)|)
  {
    EncodedLead(cp);
    AssembleEncoded(cp);
    hide Encode;
  }

  lemma EncodeDigits(a: int, b: int, c: int, d: int)
    requires 0 <= a < 8 && 0 <= b < 64 && 0 <= c < 64 && 0 <= d < 64
    ensures var n := a * 262144 + b * 4096 + c * 64 + d;
      n <= 0x10ffff ==>
        (Encode(n) ==
          if n < 0x80 then [n]
          else if n < 0x800 then [0xc0 + c, 0x80 + d]
          else if n < 0x10000 then [0xe0 + b, 0x80 + c, 0x80 + d]
          else [0xf0 + a, 0x80 + b, 0x80 + c, 0x80 + d])
  {
    Digits(a, b, c, d);
  }

  /** A sequence that is accepted is the encoding of its code point. */
  lemma EncodeValidated(s: seq<Byte>)
    requires s != [] && Validate(s).Good?
    ensures var r := Validate(s); IsScalar(r.cp) && r.length <= |s| && Encode(r.cp) == s[..r.length]
  {
    hide Two, Three, Four, Encode;
    var r := Validate(s);
    if r.length == 1 {
      EncodeAscii(s[0]);
    } else if r.length == 2 {
      EncodeTwo(s[0], s[1]);
    } else if r.length == 3 {
      EncodeThree(s[0], s[1], s[2]);
    } else {
      EncodeFour(s[0], s[1], s[2], s[3]);
    }
  }

  lemma EncodeAscii(a: Byte)
    requires a < 0x80
    ensures Encode(a) == [a]
  {}

  lemma EncodeTwo(a: Byte, b: Byte)
    requires 0xc0 <= a < 0xe0 && IsTrail(b) && Two(a, b) >= 0x80
    ensures Two(a, b) < 0x800 && Encode(Two(a, b)) == [a, b]
  {
    Masked(a, b, 0x80, 0x80);
    var c: int, d: int := a, b;
    if c - 0xc0 < 64 {
      EncodeDigits(0, 0, c - 0xc0, d - 0x80);
    }
    hide Two, Encode;
  }

  lemma EncodeThree(a: Byte, b: Byte, c: Byte)
    requires 0xe0 <= a < 0xf0 && IsTrail(b) && IsTrail(c) && Three(a, b, c) >= 0x800
    ensures Three(a, b, c) < 0x10000 && Encode(Three(a, b, c)) == [a, b, c]
  {
    Masked(a, b, c, 0x80);
    var x: int, y: int, z: int := a, b, c;
    EncodeDigits(0, x - 0xe0, y - 0x80, z - 0x80);
    hide Three, Encode;
  }

  lemma EncodeFour(a: Byte, b: Byte, c: Byte, d: Byte)
    requires 0xf0 <= a < 0xf8 && IsTrail(b) && IsTrail(c) && IsTrail(d) && 0x10000 <= Four(a, b, c, d) <= 0x10ffff
    ensures Encode(Four(a, b, c, d)) == [a, b, c, d]
  {
    Masked(a, b, c, d);
    var x: int, y: int, z: int, w: int := a, b, c, d;
    EncodeDigits(x - 0xf0, y - 0x80, z - 0x80, w - 0x80);
    hide Four, Encode;
  }

  /** `validate_next` succeeds exactly on what begins with the encoding of a scalar value. */
  lemma ValidateExactly(s: seq<Byte>, cp: int, n: nat)
    requires s != []
    ensures Validate(s) == Good(cp, n) <==>
      IsScalar(cp) && n == |Encode(cp)| && n <= |s| && s[..n] == Encode(cp)
  {
    if Validate(s) == Good(cp, n) {
      EncodeValidated(s);
    }
    if IsScalar(cp) && n == |Encode(cp)| && n <= |s| && s[..n] == Encode(cp) {
      assert s == Encode(cp) + s[n..];
      ValidateEncoded(cp, s[n..]);
    }
  }
}
