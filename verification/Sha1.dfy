/**
 SHA-1 in one pass: full blocks straight from the source, and a last block built in the round buffer, of
 which a second one follows if the length does not fit. It is the hash of FIPS 180-4.
 */
module Sha1 {
  import opened Blocks

  datatype State = State(a: bv32, b: bv32, c: bv32, d: bv32, e: bv32)

  const INIT := State(0x67452301, 0xefcdab89, 0x98badcfe, 0x10325476, 0xc3d2e1f0)

  // ----- the standard

  function Ch(x: bv32, y: bv32, z: bv32): bv32 { (x & y) ^ (!x & z) }

  function Parity(x: bv32, y: bv32, z: bv32): bv32 { x ^ y ^ z }

  function Maj(x: bv32, y: bv32, z: bv32): bv32 { (x & y) ^ (x & z) ^ (y & z) }

  function Func(t: nat, x: bv32, y: bv32, z: bv32): bv32 {
    if t < 20 then Ch(x, y, z) else if 40 <= t < 60 then Maj(x, y, z) else Parity(x, y, z)
  }

  function K(t: nat): bv32 {
    if t < 20 then 0x5a827999 else if t < 40 then 0x6ed9eba1 else if t < 60 then 0x8f1bbcdc else 0xca62c1d6
  }

  /** The round's new working variables. */
  function Turn(s: State, f: bv32, k: bv32, w: bv32): State {
    State(Rol(s.a, 5) + f + s.e + k + w, s.a, Rol(s.b, 30), s.c, s.d)
  }

  function NextWord(w: seq<bv32>, t: nat): bv32
    requires 16 <= t <= |w|
  {
    Rol(Xor(w[t - 3], w[t - 8], w[t - 14], w[t - 16]), 1)
  }

  function Xor(x: bv32, y: bv32, z: bv32, u: bv32): bv32 { x ^ y ^ z ^ u }

  /** The first `n` words of the message schedule. */
  function Schedule(x: seq<bv32>, n: nat): (w: seq<bv32>)
    requires |x| == 16 && n >= 16
    ensures |w| == n
    decreases n, x
  {
    if n == 16 then x
    else
      var w := Schedule(x, n - 1);
      w + [NextWord(w, n - 1)]
  }

  function Rounds(s: State, w: seq<bv32>, n: nat): State
    requires n <= |w|
  {
    if n == 0 then s
    else
      var r := Rounds(s, w, n - 1);
      Turn(r, Func(n - 1, r.b, r.c, r.d), K(n - 1), w[n - 1])
  }

  function Plus(s: State, t: State): State { State(s.a + t.a, s.b + t.b, s.c + t.c, s.d + t.d, s.e + t.e) }

  function Compress(s: State, x: seq<bv32>): State
    requires |x| == 16
  {
    Plus(s, Rounds(s, Schedule(x, 80), 80))
  }

  function Word(b0: Byte, b1: Byte, b2: Byte, b3: Byte): bv32 {
    Combined(b0 as bv32, b1 as bv32, b2 as bv32, b3 as bv32)
  }

  function Combined(b0: bv32, b1: bv32, b2: bv32, b3: bv32): bv32 { b3 | (b2 << 8) | (b1 << 16) | (b0 << 24) }

  /** The words of a block, high-order byte first. */
  function Words(block: seq<Byte>): (x: seq<bv32>)
    requires |block| == 64
    ensures |x| == 16
  {
    seq(16, i requires 0 <= i < 16 => Word(block[4 * i], block[4 * i + 1], block[4 * i + 2], block[4 * i + 3]))
  }

  /** The compression of one block. */
  function AfterBlock(s: State, block: seq<Byte>): State {
    if |block| == 64 then Compress(s, Words(block)) else s
  }

  function BeBytes(w: bv32): (b: seq<Byte>)
    ensures |b| == 4
  {
    [((w >> 24) & 0xff) as Byte, ((w >> 16) & 0xff) as Byte, ((w >> 8) & 0xff) as Byte, (w & 0xff) as Byte]
  }

  /** A one bit, zeros, and the length in bits as a 64-bit number. */
  function Padding(n: nat): (p: seq<Byte>)
    requires 8 * n < 0x1_0000_0000_0000_0000
    ensures (n + |p|) % 64 == 0
  {
    var zeros := if n % 64 < 56 then 55 - n % 64 else 119 - n % 64;
    assert (n + 9 + zeros) % 64 == (n % 64 + 9 + zeros) % 64;
    [0x80] + Zeros(zeros) + (BeBytes((8 * n / 0x1_0000_0000) as bv32) + BeBytes((8 * n % 0x1_0000_0000) as bv32))
  }

  function Output(s: State): (b: seq<Byte>)
    ensures |b| == 20
  {
    BeBytes(s.a) + BeBytes(s.b) + BeBytes(s.c) + BeBytes(s.d) + BeBytes(s.e)
  }

  /** The state after all blocks of the padded message. */
  function Hashed(message: seq<Byte>): State
    requires 8 * |message| < 0x1_0000_0000_0000_0000
  {
    Chain(AfterBlock, INIT, message + Padding(|message|))
  }

  function Digest(message: seq<Byte>): seq<Byte>
    requires 8 * |message| < 0x1_0000_0000_0000_0000
  {
    Output(Hashed(message))
  }

  // ----- the code's functions

  function Choose(x: bv32, y: bv32, z: bv32): bv32 { (x & y) | (!x & z) }

  function Majority(x: bv32, y: bv32, z: bv32): bv32 { (x & y) | (x & z) | (y & z) }

  lemma ChooseIs(x: bv32, y: bv32, z: bv32)
    ensures Choose(x, y, z) == Ch(x, y, z)
  {
    ChooseBits(x, y, z);
  }

  lemma ChooseBits(x: bv32, y: bv32, z: bv32)
    ensures (x & y) | (!x & z) == (x & y) ^ (!x & z)
  {
    hide *;
  }

  lemma MajorityIs(x: bv32, y: bv32, z: bv32)
    ensures Majority(x, y, z) == Maj(x, y, z)
  {
    MajorityBits(x, y, z);
  }

  lemma MajorityBits(x: bv32, y: bv32, z: bv32)
    ensures (x & y) | (x & z) | (y & z) == (x & y) ^ (x & z) ^ (y & z)
  {
    hide *;
  }

  lemma RoundsNext(s: State, w: seq<bv32>, t: nat)
    requires t < |w|
    ensures var r := Rounds(s, w, t); Rounds(s, w, t + 1) == Turn(r, Func(t, r.b, r.c, r.d), K(t), w[t])
    ensures t < 20 ==> var r := Rounds(s, w, t); Func(t, r.b, r.c, r.d) == Choose(r.b, r.c, r.d) && K(t) == 0x5a827999
    ensures 20 <= t < 40 ==>
      var r := Rounds(s, w, t); Func(t, r.b, r.c, r.d) == Parity(r.b, r.c, r.d) && K(t) == 0x6ed9eba1
    ensures 40 <= t < 60 ==>
      var r := Rounds(s, w, t); Func(t, r.b, r.c, r.d) == Majority(r.b, r.c, r.d) && K(t) == 0x8f1bbcdc
    ensures 60 <= t ==> var r := Rounds(s, w, t); Func(t, r.b, r.c, r.d) == Parity(r.b, r.c, r.d) && K(t) == 0xca62c1d6
  {
    var r := Rounds(s, w, t);
    ChooseIs(r.b, r.c, r.d);
    MajorityIs(r.b, r.c, r.d);
    hide Turn, Ch, Maj, Parity, Choose, Majority;
  }

  lemma {:induction false} ScheduleWords(x: seq<bv32>, n: nat, t: nat)
    requires |x| == 16 && 16 <= t < n
    ensures Schedule(x, n)[..t] == Schedule(x, t) && Schedule(x, n)[t] == NextWord(Schedule(x, t), t)
    decreases n
  {
    hide NextWord;
    if t < n - 1 {
      ScheduleWords(x, n - 1, t);
      assert Schedule(x, n)[..n - 1] == Schedule(x, n - 1);
      assert Schedule(x, n)[..t] == Schedule(x, n - 1)[..t];
    }
  }

  function StateOf(r: seq<bv32>): State
    requires |r| == 5
  {
    State(r[0], r[1], r[2], r[3], r[4])
  }

  /** The next word of the schedule, in place. */
  method Expand(w: array<bv32>, t: nat, ghost x: seq<bv32>)
    requires w.Length == 80 && |x| == 16 && 16 <= t < 80 && w[..t] == Schedule(x, t)
    modifies w
    ensures w[..t + 1] == Schedule(x, t + 1) && w[t] == Schedule(x, 80)[t]
  {
    hide Rol, Xor;
    ScheduleWords(x, 80, t);
    w[t] := Rol(Xor(w[t - 3], w[t - 8], w[t - 14], w[t - 16]), 1);
    assert w[..t + 1] == w[..t] + [w[t]];
  }

  /** `innerHash`: the block in the first words of `w` is compressed into `result`. */
  method InnerHash(result: array<bv32>, w: array<bv32>)
    requires result.Length == 5 && w.Length == 80 && result != w
    modifies result, w
    ensures StateOf(result[..]) == Compress(old(StateOf(result[..])), old(w[..16]))
  {
    hide Rounds, Schedule, Turn, Choose, Majority, Parity, Func, Plus;
    var start := StateOf(result[..]);
    ghost var x := w[..16];
    ghost var sched := Schedule(x, 80);
    FirstWords(x, start);
    var s := start;
    var round := 0;
    while round < 16
      invariant round <= 16 && w[..16] == x && s == Rounds(start, sched, round)
    {
      RoundsNext(start, sched, round);
      s := Turn(s, Choose(s.b, s.c, s.d), 0x5a827999, w[round]);
      round := round + 1;
    }
    while round < 20
      invariant 16 <= round <= 20 && w[..round] == Schedule(x, round) && s == Rounds(start, sched, round)
    {
      Expand(w, round, x);
      RoundsNext(start, sched, round);
      s := Turn(s, Choose(s.b, s.c, s.d), 0x5a827999, w[round]);
      round := round + 1;
    }
    while round < 40
      invariant 20 <= round <= 40 && w[..round] == Schedule(x, round) && s == Rounds(start, sched, round)
    {
      Expand(w, round, x);
      RoundsNext(start, sched, round);
      s := Turn(s, Parity(s.b, s.c, s.d), 0x6ed9eba1, w[round]);
      round := round + 1;
    }
    while round < 60
      invariant 40 <= round <= 60 && w[..round] == Schedule(x, round) && s == Rounds(start, sched, round)
    {
      Expand(w, round, x);
      RoundsNext(start, sched, round);
      s := Turn(s, Majority(s.b, s.c, s.d), 0x8f1bbcdc, w[round]);
      round := round + 1;
    }
    while round < 80
      invariant 60 <= round <= 80 && w[..round] == Schedule(x, round) && s == Rounds(start, sched, round)
    {
      Expand(w, round, x);
      RoundsNext(start, sched, round);
      s := Turn(s, Parity(s.b, s.c, s.d), 0xca62c1d6, w[round]);
      round := round + 1;
    }
    s := Plus(start, s);
    result[0], result[1], result[2], result[3], result[4] := s.a, s.b, s.c, s.d, s.e;
  }

  lemma FirstWords(x: seq<bv32>, s: State)
    requires |x| == 16
    ensures Schedule(x, 16) == x && Schedule(x, 80)[..16] == x && Rounds(s, Schedule(x, 80), 0) == s
  {
    ScheduleWords(x, 80, 16);
  }

  // ----- the one pass

  /** The words of a full block, in the round buffer. */
  method Load(w: array<bv32>, src: seq<Byte>, current: nat)
    requires w.Length == 80 && current + 64 <= |src|
    modifies w
    ensures w[..16] == Words(src[current..current + 64])
  {
    hide Word;
    var roundPos := 0;
    while roundPos < 16
      invariant roundPos <= 16
      invariant forall i :: 0 <= i < roundPos ==> w[i] == Words(src[current..current + 64])[i]
    {
      var at := current + 4 * roundPos;
      w[roundPos] := Word(src[at], src[at + 1], src[at + 2], src[at + 3]);
      roundPos := roundPos + 1;
    }
  }

  /** A byte or-ed into a word at its place. */
  function OrIn(w: bv32, b: Byte, place: nat): bv32
    requires place < 4
  {
    Shifted(w, b as bv32, place)
  }

  function Shifted(w: bv32, x: bv32, place: nat): bv32
    requires place < 4
  {
    if place == 0 then w | (x << 24) else if place == 1 then w | (x << 16)
    else if place == 2 then w | (x << 8) else w | x
  }

  lemma OrInWord(b0: Byte, b1: Byte, b2: Byte, b3: Byte, b: Byte)
    ensures OrIn(Word(0, b1, b2, b3), b, 0) == Word(b, b1, b2, b3)
    ensures OrIn(Word(b0, 0, b2, b3), b, 1) == Word(b0, b, b2, b3)
    ensures OrIn(Word(b0, b1, 0, b3), b, 2) == Word(b0, b1, b, b3)
    ensures OrIn(Word(b0, b1, b2, 0), b, 3) == Word(b0, b1, b2, b)
  {
    hide Shifted, Combined;
    ShiftedIn0(b1 as bv32, b2 as bv32, b3 as bv32, b as bv32);
    ShiftedIn1(b0 as bv32, b2 as bv32, b3 as bv32, b as bv32);
    ShiftedIn2(b0 as bv32, b1 as bv32, b3 as bv32, b as bv32);
    ShiftedIn3(b0 as bv32, b1 as bv32, b2 as bv32, b as bv32);
    assert (0 as Byte) as bv32 == 0;
  }

  lemma ShiftedIn0(b1: bv32, b2: bv32, b3: bv32, b: bv32)
    ensures Shifted(Combined(0, b1, b2, b3), b, 0) == Combined(b, b1, b2, b3)
  {}

  lemma ShiftedIn1(b0: bv32, b2: bv32, b3: bv32, b: bv32)
    ensures Shifted(Combined(b0, 0, b2, b3), b, 1) == Combined(b0, b, b2, b3)
  {}

  lemma ShiftedIn2(b0: bv32, b1: bv32, b3: bv32, b: bv32)
    ensures Shifted(Combined(b0, b1, 0, b3), b, 2) == Combined(b0, b1, b, b3)
  {}

  lemma ShiftedIn3(b0: bv32, b1: bv32, b2: bv32, b: bv32)
    ensures Shifted(Combined(b0, b1, b2, 0), b, 3) == Combined(b0, b1, b2, b)
  {
    LastByte(b0 << 24, b1 << 16, b2 << 8, b);
  }

  lemma LastByte(x: bv32, y: bv32, z: bv32, b: bv32)
    ensures 0 | z | y | x | b == b | z | y | x
  {
    hide *;
  }

  lemma OrInHere(block: seq<Byte>, i: nat, place: nat, b: Byte)
    requires |block| == 64 && i < 16 && place < 4 && block[4 * i + place] == 0
    ensures Words(block[4 * i + place := b])[i] == OrIn(Words(block)[i], b, place)
  {
    hide Word, OrIn;
    OrInWord(block[4 * i], block[4 * i + 1], block[4 * i + 2], block[4 * i + 3], b);
  }

  lemma OrInElsewhere(block: seq<Byte>, k: nat, b: Byte, j: nat)
    requires |block| == 64 && k < 64 && j < 16 && j != k / 4
    ensures Words(block[k := b])[j] == Words(block)[j]
  {
    hide Word;
  }

  /** Or-ing a byte into a word changes the block in that byte. */
  lemma OrInBlock(block: seq<Byte>, k: nat, b: Byte)
    requires |block| == 64 && k < 64 && block[k] == 0
    ensures Words(block[k := b]) == Words(block)[k / 4 := OrIn(Words(block)[k / 4], b, k % 4)]
  {
    hide Words, OrIn;
    assert k == 4 * (k / 4) + k % 4;
    OrInHere(block, k / 4, k % 4, b);
    forall j | 0 <= j < 16 && j != k / 4
      ensures Words(block[k := b])[j] == Words(block)[j]
    {
      OrInElsewhere(block, k, b, j);
    }
  }

  method PutByte(w: array<bv32>, ghost block: seq<Byte>, k: nat, b: Byte)
    requires w.Length == 80 && |block| == 64 && k < 64 && block[k] == 0 && w[..16] == Words(block)
    modifies w
    ensures w[..16] == Words(block[k := b])
  {
    hide Words, OrIn;
    OrInBlock(block, k, b);
    w[k / 4] := OrIn(w[k / 4], b, k % 4);
  }

  method Clear(w: array<bv32>)
    requires w.Length == 80
    modifies w
    ensures w[..16] == Words(Zeros(64))
  {
    for i := 0 to 16
      invariant forall j :: 0 <= j < i ==> w[j] == 0
    {
      w[i] := 0;
    }
    ZeroWords();
  }

  lemma ZeroWords()
    ensures forall j :: 0 <= j < 16 ==> Words(Zeros(64))[j] == 0
  {
    assert Combined(0, 0, 0, 0) == 0;
  }

  /** The bytes behind the last full block, the one bit, and the zeros behind them, in the round buffer. */
  method LoadLast(w: array<bv32>, src: seq<Byte>, current: nat)
    requires w.Length == 80 && current <= |src| < current + 64
    modifies w
    ensures w[..16] == Words(Last(src, current))
  {
    hide Words;
    Clear(w);
    var left := |src| - current;
    var k := 0;
    ghost var block := Zeros(64);
    while k < left
      invariant k <= left && block == src[current..current + k] + Zeros(64 - k) && w[..16] == Words(block)
    {
      PutByte(w, block, k, src[current + k]);
      block := block[k := src[current + k]];
      k := k + 1;
    }
    PutByte(w, block, k, 0x80);
    assert block[k := 0x80] == Last(src, current);
  }

  /** The length goes into the last word of a block that ends in zeros. */
  lemma LengthWord(block: seq<Byte>, bits: nat)
    requires |block| == 64 && block[56..] == Zeros(8) && bits < 0x8000_0000
    ensures Words(block)[15 := bits as bv32] ==
      Words(block[..56] + (BeBytes((bits / 0x1_0000_0000) as bv32) + BeBytes((bits % 0x1_0000_0000) as bv32)))
  {
    hide Word, BeBytes;
    var high, low := BeBytes(0), BeBytes(bits as bv32);
    WordBytes(0);
    WordBytes(bits as bv32);
    ZeroBytes();
    var after := block[..56] + (high + low);
    assert forall i :: 0 <= i < 60 ==> after[i] == block[i] by {
      assert forall i :: 56 <= i < 60 ==> block[i] == block[56..][i - 56];
    }
    assert forall i :: 0 <= i < 4 ==> after[60 + i] == low[i];
  }

  lemma WordBytes(w: bv32)
    ensures var b := BeBytes(w); Word(b[0], b[1], b[2], b[3]) == w
  {}

  lemma ZeroBytes()
    ensures BeBytes(0) == [0, 0, 0, 0]
  {}

  ghost function LengthBytes(n: nat): (b: seq<Byte>)
    requires 8 * n < 0x1_0000_0000_0000_0000
    ensures |b| == 8
  {
    BeBytes((8 * n / 0x1_0000_0000) as bv32) + BeBytes((8 * n % 0x1_0000_0000) as bv32)
  }

  /** The bytes behind the last full block, the one bit, and zeros up to the end of the block. */
  ghost function Last(src: seq<Byte>, current: nat): (last: seq<Byte>)
    requires current <= |src| < current + 64
    ensures |last| == 64
  {
    src[current..] + [0x80] + Zeros(63 - (|src| - current))
  }

  /** The padding of a message, by the number of bytes in its last block. */
  lemma LastBlocks(src: seq<Byte>, current: nat)
    requires current <= |src| < current + 64 && current % 64 == 0 && |src| < 0x1000_0000
    ensures src + Padding(|src|) ==
      if |src| - current < 56 then src[..current] + (Last(src, current)[..56] + LengthBytes(|src|))
      else src[..current] + Last(src, current) + (Zeros(64)[..56] + LengthBytes(|src|))
    ensures |src| - current < 56 ==> Last(src, current)[56..] == Zeros(8)
    ensures Zeros(64)[56..] == Zeros(8)
  {
    hide BeBytes;
    var left := |src| - current;
    assert |src| % 64 == left;
    assert src == src[..current] + src[current..];
  }

  lemma HashedIs(src: seq<Byte>)
    requires |src| < 0x1000_0000
    ensures Hashed(src) == Chain(AfterBlock, INIT, src + Padding(|src|))
  {
    hide Chain, Padding, AfterBlock;
  }

  /** The length in bits goes into the last word. */
  method PutLength(w: array<bv32>, n: nat, ghost block: seq<Byte>)
    requires w.Length == 80 && n < 0x1000_0000
    requires |block| == 64 && block[56..] == Zeros(8) && w[..16] == Words(block)
    modifies w
    ensures w[..16] == Words(block[..56] + LengthBytes(n))
  {
    hide Words, BeBytes;
    LengthWord(block, 8 * n);
    w[15] := (8 * n) as bv32;
  }

  /** The last block, and the one that the length needs for itself if it does not fit. */
  method LastBlock(src: seq<Byte>, current: nat, result: array<bv32>, w: array<bv32>)
    requires result.Length == 5 && w.Length == 80 && result != w && |src| < 0x1000_0000
    requires current <= |src| < current + 64 && current % 64 == 0 &&
      StateOf(result[..]) == Chain(AfterBlock, INIT, src[..current])
    modifies result, w
    ensures StateOf(result[..]) == Hashed(src)
  {
    hide *;
    LastBlocks(src, current);
    HashedIs(src);
    LoadLast(w, src, current);
    ghost var before, last := src[..current], Last(src, current);
    if |src| - current >= 56 {
      OneBlock(result, w, before, last);
      before := before + last;
      Clear(w);
      last := Zeros(64);
    }
    PutLength(w, |src|, last);
    OneBlock(result, w, before, last[..56] + LengthBytes(|src|));
  }

  /** Byte `j` of a word, the low-order one first. */
  function ByteOf(w: bv32, j: nat): Byte
    requires j < 4
  {
    if j == 0 then (w & 0xff) as Byte
    else if j == 1 then ((w >> 8) & 0xff) as Byte
    else if j == 2 then ((w >> 16) & 0xff) as Byte
    else ((w >> 24) & 0xff) as Byte
  }

  /** The hash, stored from its last byte to its first. */
  method Store(result: array<bv32>) returns (hash: seq<Byte>)
    requires result.Length == 5
    ensures hash == Output(StateOf(result[..]))
  {
    hide ByteOf;
    hash := [];
    var hashByte := 20;
    while hashByte > 0
      invariant 0 <= hashByte <= 20 && |hash| == 20 - hashByte
      invariant forall h :: hashByte <= h < 20 ==> hash[h - hashByte] == ByteOf(result[h / 4], 3 - h % 4)
    {
      hashByte := hashByte - 1;
      hash := [ByteOf(result[hashByte / 4], (3 - hashByte) % 4)] + hash;
    }
    OutputBytes(result[..]);
  }

  lemma BytesOf(w: bv32)
    ensures BeBytes(w) == [ByteOf(w, 3), ByteOf(w, 2), ByteOf(w, 1), ByteOf(w, 0)]
  {}

  lemma FiveWords(a: seq<Byte>, b: seq<Byte>, c: seq<Byte>, d: seq<Byte>, e: seq<Byte>, h: nat)
    requires |a| == |b| == |c| == |d| == |e| == 4 && h < 20
    ensures (a + b + c + d + e)[h] == [a, b, c, d, e][h / 4][h % 4]
  {}

  lemma OutputByte(r: seq<bv32>, h: nat)
    requires |r| == 5 && h < 20
    ensures Output(StateOf(r))[h] == ByteOf(r[h / 4], 3 - h % 4)
  {
    hide BeBytes, ByteOf;
    FiveWords(BeBytes(r[0]), BeBytes(r[1]), BeBytes(r[2]), BeBytes(r[3]), BeBytes(r[4]), h);
    BytesOf(r[h / 4]);
  }

  lemma OutputBytes(r: seq<bv32>)
    requires |r| == 5
    ensures forall h :: 0 <= h < 20 ==> Output(StateOf(r))[h] == ByteOf(r[h / 4], 3 - h % 4)
  {
    hide *;
    forall h | 0 <= h < 20
      ensures Output(StateOf(r))[h] == ByteOf(r[h / 4], 3 - h % 4)
    {
      OutputByte(r, h);
    }
  }

  /** `calc` for a message of fewer than 2^28 bytes, whose length in bits fits in an `int`. */
  method Calc(src: seq<Byte>) returns (hash: seq<Byte>)
    requires |src| < 0x1000_0000
    ensures hash == Digest(src)
  {
    hide Hashed, Padding, Output;
    var result := new bv32[5] [0x67452301, 0xefcdab89, 0x98badcfe, 0x10325476, 0xc3d2e1f0];
    var w := new bv32[80];
    assert StateOf(result[..]) == INIT;
    var current := FullBlocks(src, result, w);
    LastBlock(src, current, result, w);
    hash := Store(result);
  }

  /** The block in the round buffer is compressed into the state. */
  method OneBlock(result: array<bv32>, w: array<bv32>, ghost before: seq<Byte>, ghost block: seq<Byte>)
    requires result.Length == 5 && w.Length == 80 && result != w
    requires |before| % 64 == 0 && |block| == 64 &&
      StateOf(result[..]) == Chain(AfterBlock, INIT, before) && w[..16] == Words(block)
    modifies result, w
    ensures StateOf(result[..]) == Chain(AfterBlock, INIT, before + block)
  {
    hide Words, Chain, Compress;
    ChainConcat(AfterBlock, INIT, before, block);
    ChainBlock(AfterBlock, Chain(AfterBlock, INIT, before), block);
    InnerHash(result, w);
  }

  /** The loop over all complete blocks. */
  method FullBlocks(src: seq<Byte>, result: array<bv32>, w: array<bv32>) returns (current: nat)
    requires result.Length == 5 && w.Length == 80 && result != w && StateOf(result[..]) == INIT
    modifies result, w
    ensures current <= |src| < current + 64 && current % 64 == 0 &&
      StateOf(result[..]) == Chain(AfterBlock, INIT, src[..current])
  {
    hide Words, Chain, Compress;
    current := 0;
    NoBlocks();
    assert src[..0] == [];
    while current <= |src| - 64
      invariant current <= |src| && current % 64 == 0 && StateOf(result[..]) == Chain(AfterBlock, INIT, src[..current])
    {
      Load(w, src, current);
      OneBlock(result, w, src[..current], src[current..current + 64]);
      assert src[..current + 64] == src[..current] + src[current..current + 64];
      current := current + 64;
    }
  }

  lemma NoBlocks()
    ensures Chain(AfterBlock, INIT, []) == INIT
  {}
}
