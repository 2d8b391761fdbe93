/**
 The base64 codec (section 4 of RFC 4648). The loops collect three bytes or four characters at a time and
 take them apart with masks and shifts; the specification reads each group as one 24-bit number.
 */
module Base64 {
  import opened Numbers

  /** A six-bit value, or 255, which `base64_chars.find` leaves in an `unsigned char` if it finds nothing. */
  type Code = x: int | 0 <= x < 256

  // ----- the alphabet

  function CharOf(v: int): (c: char)
    requires 0 <= v < 64
    ensures IsBase64(c) && Find(c) == v
  {
    if v < 26 then ('A' as int + v) as char
    else if v < 52 then ('a' as int + v - 26) as char
    else if v < 62 then ('0' as int + v - 52) as char
    else if v == 62 then '+' else '/'
  }

  predicate IsBase64(c: char) { 'A' <= c <= 'Z' || 'a' <= c <= 'z' || '0' <= c <= '9' || c == '+' || c == '/' }

  /** `base64_chars.find(c)` as an `unsigned char`. */
  function Find(c: char): Code {
    if 'A' <= c <= 'Z' then c as int - 'A' as int
    else if 'a' <= c <= 'z' then c as int - 'a' as int + 26
    else if '0' <= c <= '9' then c as int - '0' as int + 52
    else if c == '+' then 62 else if c == '/' then 63 else 255
  }

  // ----- the standard: groups as 24-bit numbers

  function At(b: seq<Byte>, i: nat): Byte { if i < |b| then b[i] else 0 }

  function Number(b: seq<Byte>): int { At(b, 0) * 65536 + At(b, 1) * 256 + At(b, 2) }

  function Sextet(n: int, i: nat): (v: int)
    requires 0 <= n < 0x1000000 && i < 4
    ensures 0 <= v < 64
  {
    if i == 0 then n / 262144 else if i == 1 then n / 4096 % 64 else if i == 2 then n / 64 % 64 else n % 64
  }

  function Padding(n: nat): (s: string)
    ensures |s| == n && forall i :: 0 <= i < n ==> s[i] == '='
  {
    seq(n, i requires 0 <= i < n => '=')
  }

  function EncodeGroup(b: seq<Byte>): (s: string)
    requires 1 <= |b| <= 3
    ensures |s| == 4
  {
    seq(|b| + 1, i requires 0 <= i < |b| + 1 => CharOf(Sextet(Number(b), i))) + Padding(3 - |b|)
  }

  function Encoded(bs: seq<Byte>): (s: string)
    ensures |s| == 4 * ((|bs| + 2) / 3)
  {
    if bs == [] then ""
    else if |bs| <= 3 then EncodeGroup(bs)
    else EncodeGroup(bs[..3]) + Encoded(bs[3..])
  }

  /** The characters before the first one that is not of the alphabet. */
  function Useful(s: string): (u: string)
    ensures u <= s && forall c :: c in u ==> IsBase64(c)
  {
    if s == "" || !IsBase64(s[0]) then "" else [s[0]] + Useful(s[1..])
  }

  function CodeAt(cs: string, i: nat): Code { if i < |cs| then Find(cs[i]) else 0 }

  function Value(cs: string): int { CodeAt(cs, 0) * 262144 + CodeAt(cs, 1) * 4096 + CodeAt(cs, 2) * 64 + CodeAt(cs, 3) }

  predicate AllBase64(cs: string) { forall c :: c in cs ==> IsBase64(c) }

  function ByteAt(n: int, i: nat): Byte
    requires 0 <= n < 0x1000000 && i < 3
  {
    if i == 0 then n / 65536 else if i == 1 then n / 256 % 256 else n % 256
  }

  lemma ValueRange(cs: string)
    requires AllBase64(cs)
    ensures 0 <= Value(cs) < 0x1000000
  {
    assert forall i :: 0 <= i < |cs| ==> cs[i] in cs;
  }

  /** Up to four characters: one byte less than there are characters. */
  function DecodeGroup(cs: string): (b: seq<Byte>)
    requires AllBase64(cs) && |cs| <= 4
    ensures |b| == if |cs| == 0 then 0 else |cs| - 1
  {
    ValueRange(cs);
    seq(if |cs| == 0 then 0 else |cs| - 1, i requires 0 <= i < |cs| - 1 => ByteAt(Value(cs), i))
  }

  function DecodedChars(cs: string): seq<Byte>
    requires AllBase64(cs)
  {
    assert forall c :: c in cs[if |cs| > 4 then 4 else 0..] ==> c in cs;
    if |cs| <= 4 then DecodeGroup(cs)
    else
      assert forall c :: c in cs[..4] ==> c in cs;
      DecodeGroup(cs[..4]) + DecodedChars(cs[4..])
  }

  function Decoded(s: string): seq<Byte> { DecodedChars(Useful(s)) }

  // ----- the code

  /** `char_array_4` from `char_array_3`. */
  function Split(a: Byte, b: Byte, c: Byte): (r: seq<int>)
    ensures |r| == 4
  {
    [a / 4, a % 4 * 16 + b / 16, b % 16 * 4 + c / 64, c % 64]
  }

  lemma SplitFirst(a: Byte, b: Byte, c: Byte)
    ensures var n := a * 65536 + b * 256 + c; n < 0x1000000 && n / 262144 == a / 4 && n / 4096 == a * 16 + b / 16
  {}

  lemma SplitLast(a: Byte, b: Byte, c: Byte)
    ensures var n := a * 65536 + b * 256 + c; n / 64 == a * 1024 + b * 4 + c / 64 && n % 64 == c % 64
  {}

  lemma SplitMiddle(a: Byte, b: Byte, c: Byte)
    ensures (a * 16 + b / 16) % 64 == a % 4 * 16 + b / 16
    ensures (a * 1024 + b * 4 + c / 64) % 64 == b % 16 * 4 + c / 64
  {}

  lemma SplitIs(a: Byte, b: Byte, c: Byte)
    ensures var n := a * 65536 + b * 256 + c;
      n < 0x1000000 && forall i :: 0 <= i < 4 ==> Split(a, b, c)[i] == Sextet(n, i)
  {
    SplitFirst(a, b, c);
    SplitLast(a, b, c);
    SplitMiddle(a, b, c);
    var n := a * 65536 + b * 256 + c;
    assert Sextet(n, 0) == a / 4 && Sextet(n, 1) == a % 4 * 16 + b / 16;
    assert Sextet(n, 2) == b % 16 * 4 + c / 64 && Sextet(n, 3) == c % 64;
    hide Sextet;
  }

  /** `char_array_3` from `char_array_4`, each element cut to eight bits. */
  function Join(w: Code, x: Code, y: Code, z: Code): (r: seq<Byte>)
    ensures |r| == 3
  {
    [(w * 4 + x / 16 % 4) % 256, (x % 16 * 16 + y / 4 % 16) % 256, (y % 4 * 64 + z) % 256]
  }

  lemma JoinNumber(w: int, x: int, y: int, z: int)
    requires 0 <= w < 64 && 0 <= x < 64 && 0 <= y < 64 && 0 <= z < 64
    ensures var n := w * 262144 + x * 4096 + y * 64 + z;
      && n / 65536 == w * 4 + x / 16
      && n / 256 % 256 == x % 16 * 16 + y / 4
      && n % 256 == y % 4 * 64 + z
  {
    var n := w * 262144 + x * 4096 + y * 64 + z;
    assert n / 65536 == w * 4 + x / 16 && n / 256 == w * 1024 + x * 16 + y / 4;
    assert (w * 1024 + x * 16 + y / 4) % 256 == x % 16 * 16 + y / 4;
  }

  /** The bytes that count do not depend on what the missing characters are taken for. */
  lemma JoinIs(cs: string, w: Code, x: Code, y: Code, z: Code)
    requires AllBase64(cs) && 1 <= |cs| <= 4
    requires w == CodeAt(cs, 0) && (|cs| > 1 ==> x == CodeAt(cs, 1))
    requires (|cs| > 2 ==> y == CodeAt(cs, 2)) && (|cs| > 3 ==> z == CodeAt(cs, 3))
    ensures Join(w, x, y, z)[..|cs| - 1] == DecodeGroup(cs)
  {
    CodesInRange(cs);
    ValueRange(cs);
    JoinBytes(w, x, y, z);
    JoinNumber(CodeAt(cs, 0), CodeAt(cs, 1), CodeAt(cs, 2), CodeAt(cs, 3));
    hide CodeAt, AllBase64, Join;
  }

  lemma JoinBytes(w: Code, x: Code, y: Code, z: Code)
    ensures w < 64 && x < 64 ==> Join(w, x, y, z)[0] == w * 4 + x / 16
    ensures x < 64 && y < 64 ==> Join(w, x, y, z)[1] == x % 16 * 16 + y / 4
    ensures y < 64 && z < 64 ==> Join(w, x, y, z)[2] == y % 4 * 64 + z
  {}

  lemma CodesInRange(cs: string)
    requires AllBase64(cs)
    ensures forall i: nat :: CodeAt(cs, i) < 64
  {
    assert forall i :: 0 <= i < |cs| ==> cs[i] in cs;
  }

  /** `base64_encode`. */
  method Encode(bytes: seq<Byte>) returns (ret: string)
    ensures ret == Encoded(bytes)
  {
    hide CharOf, Split, Encoded, EncodeGroup;
    ret := "";
    var three: seq<Byte> := [];
    var k := 0;
    assert three + bytes[k..] == bytes && "" + Encoded(bytes) == Encoded(bytes);
    while k < |bytes|
      invariant k <= |bytes| && |three| < 3
      invariant ret + Encoded(three + bytes[k..]) == Encoded(bytes)
    {
      assert three + bytes[k..] == three + [bytes[k]] + bytes[k + 1..];
      three := three + [bytes[k]];
      k := k + 1;
      if |three| == 3 {
        EncodedStep(three, bytes[k..]);
        assert ret + (EncodeGroup(three) + Encoded(bytes[k..])) == ret + EncodeGroup(three) + Encoded(bytes[k..]);
        ret := ret + Quad(three);
        three := [];
        assert [] + bytes[k..] == bytes[k..];
      }
    }
    assert three + bytes[k..] == three;
    EncodedEnd(three);
    if three != [] {
      ret := ret + Quad(three);
    }
  }

  /** A group of the encoder: the characters of the bytes there are, and padding. */
  function Quad(three: seq<Byte>): (q: string)
    requires 1 <= |three| <= 3
    ensures q == EncodeGroup(three)
  {
    SplitIs(At(three, 0), At(three, 1), At(three, 2));
    var four := Split(At(three, 0), At(three, 1), At(three, 2));
    seq(|three| + 1, i requires 0 <= i < |three| + 1 => CharOf(four[i])) + Padding(3 - |three|)
  }

  lemma EncodedEnd(three: seq<Byte>)
    requires |three| < 3
    ensures Encoded(three) == if three == [] then "" else EncodeGroup(three)
  {}

  lemma EncodedStep(three: seq<Byte>, rest: seq<Byte>)
    requires |three| == 3
    ensures Encoded(three + rest) == EncodeGroup(three) + Encoded(rest)
  {
    if rest == [] {
      assert three + rest == three;
      assert EncodeGroup(three) + "" == EncodeGroup(three);
    } else {
      assert (three + rest)[..3] == three && (three + rest)[3..] == rest;
    }
  }

  lemma DecodedStep(four: string, rest: string)
    requires |four| == 4 && AllBase64(four) && AllBase64(rest)
    ensures AllBase64(four + rest) && DecodedChars(four + rest) == DecodeGroup(four) + DecodedChars(rest)
  {
    if rest == "" {
      assert four + rest == four;
      assert DecodeGroup(four) + [] == DecodeGroup(four);
    } else {
      assert (four + rest)[..4] == four && (four + rest)[4..] == rest;
    }
  }

  /** The characters from position `k` on, as the loops take them. */
  lemma UsefulNext(s: string, k: nat)
    requires k <= |s|
    ensures Useful(s[k..]) ==
      if k < |s| && s[k] != '=' && IsBase64(s[k]) then [s[k]] + Useful(s[k + 1..]) else ""
  {}

  /** What the loops have still to decode. */
  ghost predicate Decoding(s: string, k: nat, ret: seq<Byte>, four: string) {
    && k <= |s| && AllBase64(four) && |four| < 4
    && AllBase64(four + Useful(s[k..]))
    && ret + DecodedChars(four + Useful(s[k..])) == Decoded(s)
  }

  lemma DecodeStart(s: string)
    ensures Decoding(s, 0, [], "")
  {
    assert s[0..] == s && "" + Useful(s) == Useful(s);
    assert [] + Decoded(s) == Decoded(s);
  }

  lemma AllBase64Parts(a: string, b: string)
    ensures AllBase64(a + b) <==> AllBase64(a) && AllBase64(b)
  {
    assert forall c :: c in a + b <==> c in a || c in b;
  }

  lemma Regroup(a: seq<Byte>, b: seq<Byte>, c: seq<Byte>)
    ensures a + (b + c) == a + b + c
  {}

  lemma Restring(a: string, b: string, c: string)
    ensures a + (b + c) == a + b + c
  {}

  /** One more character, and the bytes of the group if it is the fourth. */
  lemma DecodeNext(s: string, k: nat, ret: seq<Byte>, four: string)
    requires Decoding(s, k, ret, four) && k < |s| && s[k] != '=' && IsBase64(s[k])
    ensures var more := four + [s[k]];
      && AllBase64(more)
      && if |more| == 4 then Decoding(s, k + 1, ret + DecodeGroup(more), "") else Decoding(s, k + 1, ret, more)
  {
    UsefulNext(s, k);
    var rest := Useful(s[k + 1..]);
    Restring(four, [s[k]], rest);
    hide Useful, DecodedChars, DecodeGroup, Decoded, AllBase64, IsBase64;
    AllBase64Parts(four + [s[k]], rest);
    if |four| == 3 {
      DecodeFull(four + [s[k]], rest, ret);
    }
  }

  /** A full group in front of what is still to decode. */
  lemma DecodeFull(more: string, rest: string, ret: seq<Byte>)
    requires |more| == 4 && AllBase64(more) && AllBase64(rest) && AllBase64(more + rest)
    ensures AllBase64("") && AllBase64("" + rest)
    ensures ret + DecodedChars(more + rest) == ret + DecodeGroup(more) + DecodedChars("" + rest)
  {
    hide *;
    NoChars();
    DecodedStep(more, rest);
    Regroup(ret, DecodeGroup(more), DecodedChars(rest));
    assert "" + rest == rest;
  }

  lemma DecodeEnd(s: string, k: nat, ret: seq<Byte>, four: string)
    requires Decoding(s, k, ret, four) && (k == |s| || s[k] == '=' || !IsBase64(s[k]))
    ensures Decoded(s) == ret + DecodeGroup(four)
  {
    UsefulNext(s, k);
    assert four + "" == four;
  }

  /** `find` for the characters there are; the others were set to zero, which `find` does not find. */
  function FindAt(four: string, i: nat): Code { if i < |four| then Find(four[i]) else Find(0 as char) }

  /** `base64_decode`. */
  method Decode(s: string) returns (ret: seq<Byte>)
    ensures ret == Decoded(s)
  {
    hide Decoded, DecodeGroup, Join, Find, AllBase64, Decoding;
    ret := [];
    var four := "";
    var k := 0;
    DecodeStart(s);
    while k < |s| && s[k] != '=' && IsBase64(s[k])
      invariant Decoding(s, k, ret, four) && k <= |s| && |four| < 4 && AllBase64(four)
    {
      DecodeNext(s, k, ret, four);
      four := four + [s[k]];
      k := k + 1;
      if |four| == 4 {
        JoinIs(four, Find(four[0]), Find(four[1]), Find(four[2]), Find(four[3]));
        var three := Join(Find(four[0]), Find(four[1]), Find(four[2]), Find(four[3]));
        assert three[..3] == three;
        ret := ret + three;
        four := "";
        NoChars();
      }
    }
    DecodeEnd(s, k, ret, four);
    if four != "" {
      JoinIs(four, FindAt(four, 0), FindAt(four, 1), FindAt(four, 2), FindAt(four, 3));
      ret := ret + Join(FindAt(four, 0), FindAt(four, 1), FindAt(four, 2), FindAt(four, 3))[..|four| - 1];
    } else {
      NoGroup();
      assert ret + [] == ret;
    }
  }

  lemma NoChars()
    ensures AllBase64("")
  {}

  lemma NoGroup()
    ensures AllBase64("") && DecodeGroup("") == []
  {}

  /** `base64_decode_vec`, which appends to a vector byte by byte. */
  method DecodeVec(s: string) returns (ret: seq<Byte>)
    ensures ret == Decoded(s)
  {
    hide Decoded, DecodeGroup, Join, Find, AllBase64, Decoding;
    ret := [];
    var four := "";
    var k := 0;
    DecodeStart(s);
    while k < |s| && s[k] != '=' && IsBase64(s[k])
      invariant Decoding(s, k, ret, four) && k <= |s| && |four| < 4 && AllBase64(four)
    {
      DecodeNext(s, k, ret, four);
      four := four + [s[k]];
      k := k + 1;
      if |four| == 4 {
        JoinIs(four, Find(four[0]), Find(four[1]), Find(four[2]), Find(four[3]));
        ret := PushBytes(ret, Join(Find(four[0]), Find(four[1]), Find(four[2]), Find(four[3])), 3);
        four := "";
        NoChars();
      }
    }
    DecodeEnd(s, k, ret, four);
    if four != "" {
      JoinIs(four, FindAt(four, 0), FindAt(four, 1), FindAt(four, 2), FindAt(four, 3));
      ret := PushBytes(ret, Join(FindAt(four, 0), FindAt(four, 1), FindAt(four, 2), FindAt(four, 3)), |four| - 1);
    } else {
      NoGroup();
      assert ret + [] == ret;
    }
  }

  method PushBytes(ret: seq<Byte>, three: seq<Byte>, n: nat) returns (r: seq<Byte>)
    requires n <= |three|
    ensures r == ret + three[..n]
  {
    r := ret;
    for j := 0 to n
      invariant r == ret + three[..j]
    {
      r := r + [three[j]];
    }
  }

  // ----- the round trip

  lemma SextetsSum(n: int)
    requires 0 <= n < 0x1000000
    ensures n == Sextet(n, 0) * 262144 + Sextet(n, 1) * 4096 + Sextet(n, 2) * 64 + Sextet(n, 3)
    ensures n % 64 == 0 ==> Sextet(n, 3) == 0
    ensures n % 4096 == 0 ==> Sextet(n, 2) == 0 && Sextet(n, 3) == 0
  {
    assert n == n / 4096 * 4096 + n % 4096 && n % 4096 == n / 64 % 64 * 64 + n % 64;
  }

  lemma NumberEnds(b: seq<Byte>)
    requires 1 <= |b| <= 3
    ensures (|b| <= 2 ==> Number(b) % 64 == 0) && (|b| == 1 ==> Number(b) % 4096 == 0)
  {}

  /** The characters of a group carry its number. */
  lemma GroupValue(b: seq<Byte>)
    requires 1 <= |b| <= 3
    ensures var cs := EncodeGroup(b)[..|b| + 1]; AllBase64(cs) && Value(cs) == Number(b)
  {
    hide Find, IsBase64, CharOf, Sextet;
    var cs := EncodeGroup(b)[..|b| + 1];
    NumberBytes(b);
    NumberEnds(b);
    var n := Number(b);
    SextetsSum(n);
    hide Number;
    assert forall i :: 0 <= i <= |b| ==> cs[i] == CharOf(Sextet(n, i));
    assert forall i :: 0 <= i <= |b| ==> CodeAt(cs, i) == Sextet(n, i);
    assert |b| <= 2 ==> CodeAt(cs, 3) == 0;
    assert |b| == 1 ==> CodeAt(cs, 2) == 0;
  }

  lemma ThreeBytes(a: Byte, b: Byte, c: Byte)
    ensures var n := a * 65536 + b * 256 + c;
      0 <= n < 0x1000000 && n / 65536 == a && n / 256 == a * 256 + b && n % 256 == c
  {}

  lemma NumberBytes(b: seq<Byte>)
    requires |b| <= 3
    ensures 0 <= Number(b) < 0x1000000 && forall i :: 0 <= i < 3 ==> ByteAt(Number(b), i) == At(b, i)
  {
    ThreeBytes(At(b, 0), At(b, 1), At(b, 2));
    hide At;
  }

  /** Decoding the characters of a group gives its bytes back. */
  lemma GroupRoundTrip(b: seq<Byte>)
    requires 1 <= |b| <= 3
    ensures var cs := EncodeGroup(b)[..|b| + 1]; AllBase64(cs) && DecodeGroup(cs) == b
  {
    GroupValue(b);
    NumberBytes(b);
    hide EncodeGroup, Value, Number, ByteAt;
  }

  lemma {:induction false} UsefulAll(cs: string, rest: string)
    requires AllBase64(cs)
    ensures Useful(cs + rest) == cs + Useful(rest)
  {
    if cs == "" {
      assert cs + rest == rest;
    } else {
      assert cs[0] in cs && forall c :: c in cs[1..] ==> c in cs;
      assert (cs + rest)[1..] == cs[1..] + rest;
      UsefulAll(cs[1..], rest);
    }
  }

  /** Decoding undoes encoding, for all bytes. */
  lemma {:induction false} RoundTrip(bs: seq<Byte>)
    ensures Decoded(Encoded(bs)) == bs
  {
    hide EncodeGroup, DecodeGroup;
    if bs == [] {
      NoGroup();
    } else if |bs| <= 3 {
      GroupRoundTrip(bs);
      LastGroup(bs);
    } else {
      var b := bs[..3];
      GroupRoundTrip(b);
      assert EncodeGroup(b)[..4] == EncodeGroup(b);
      RoundTrip(bs[3..]);
      UsefulAll(EncodeGroup(b), Encoded(bs[3..]));
      DecodedStep(EncodeGroup(b), Useful(Encoded(bs[3..])));
      assert b + bs[3..] == bs;
    }
  }

  lemma LastGroup(b: seq<Byte>)
    requires 1 <= |b| <= 3
    ensures Useful(EncodeGroup(b)) == EncodeGroup(b)[..|b| + 1]
  {
    GroupRoundTrip(b);
    var s := EncodeGroup(b);
    var cs := s[..|b| + 1];
    assert s == cs + s[|b| + 1..];
    UsefulAll(cs, s[|b| + 1..]);
    assert s[|b| + 1..] != "" ==> s[|b| + 1..][0] == '=';
    assert cs + "" == cs;
  }
}
