/**
 MD5 over a message that arrives in pieces: the context buffers less than a block, counts bytes in two
 words and pads at the end. However the message is cut, the digest is that of RFC 1321 for all of it.
 */
module Md5 {
  import opened Blocks
  import opened Md5Block
  import opened Sequences

  const INIT := State(0x67452301, 0xefcdab89, 0x98badcfe, 0x10325476)

  // ----- the standard

  function Word(b0: Byte, b1: Byte, b2: Byte, b3: Byte): bv32 {
    (b0 as bv32) | (b1 as bv32 << 8) | (b2 as bv32 << 16) | (b3 as bv32 << 24)
  }

  /** The words of a block, low-order byte first. */
  function Words(block: seq<Byte>): (x: seq<bv32>)
    requires |block| == 64
    ensures |x| == 16
  {
    seq(16, i requires 0 <= i < 16 => Word(block[4 * i], block[4 * i + 1], block[4 * i + 2], block[4 * i + 3]))
  }

  /** The compression of one block. */
  function AfterBlock(s: State, block: seq<Byte>): State {
    if |block| == 64 then Compress(s, Words(block)) else s
  }

  function Le32(n: nat): (b: seq<Byte>)
    requires n < 0x1_0000_0000
    ensures |b| == 4
  {
    [(n % 256) as Byte, (n / 256 % 256) as Byte, (n / 65536 % 256) as Byte, (n / 16777216) as Byte]
  }

  /** A 64-bit number, low-order word first. */
  function Le64(n: nat): (b: seq<Byte>)
    requires n < 0x1_0000_0000_0000_0000
    ensures |b| == 8
  {
    Le32(n % 0x1_0000_0000) + Le32(n / 0x1_0000_0000)
  }

  /** Steps 1 and 2 of RFC 1321: a one bit, zeros, and the length in bits modulo 2^64. */
  function Padding(n: nat): (p: seq<Byte>)
    ensures (n + |p|) % 64 == 0
  {
    var zeros := if n % 64 < 56 then 55 - n % 64 else 119 - n % 64;
    assert (n + 9 + zeros) % 64 == (n % 64 + 9 + zeros) % 64;
    [0x80] + Zeros(zeros) + Le64(8 * n % 0x1_0000_0000_0000_0000)
  }

  function LeBytes(w: bv32): (b: seq<Byte>)
    ensures |b| == 4
  {
    [(w & 0xff) as Byte, ((w >> 8) & 0xff) as Byte, ((w >> 16) & 0xff) as Byte, ((w >> 24) & 0xff) as Byte]
  }

  function Output(s: State): (b: seq<Byte>)
    ensures |b| == 16
  {
    LeBytes(s.a) + LeBytes(s.b) + LeBytes(s.c) + LeBytes(s.d)
  }

  function Digest(message: seq<Byte>): seq<Byte> { Output(Chain(AfterBlock, INIT, message + Padding(|message|))) }

  // ----- the counters

  /** `lo` and `hi` after `size` more bytes; both are 32-bit words. */
  function NextLo(lo: nat, size: nat): nat { (lo + size) % 0x1_0000_0000_0000_0000 % 0x2000_0000 }

  function NextHi(lo: nat, hi: nat, size: nat): nat {
    ((if NextLo(lo, size) < lo then (hi + 1) % 0x1_0000_0000 else hi) + size / 0x2000_0000) % 0x1_0000_0000
  }

  /** The two words count bytes modulo 2^61. */
  predicate Counts(lo: nat, hi: nat, total: nat) {
    lo < 0x2000_0000 && hi < 0x1_0000_0000 && hi * 0x2000_0000 + lo == total % 0x2000_0000_0000_0000
  }

  lemma NextWords(lo: nat, hi: nat, size: nat)
    requires lo < 0x2000_0000 && hi < 0x1_0000_0000 && size < 0x1_0000_0000_0000_0000
    ensures var carry := if lo + size % 0x2000_0000 >= 0x2000_0000 then 1 else 0;
      && NextLo(lo, size) == lo + size % 0x2000_0000 - carry * 0x2000_0000
      && NextHi(lo, hi, size) == (hi + carry + size / 0x2000_0000) % 0x1_0000_0000
  {
    assert NextLo(lo, size) == (lo + size % 0x2000_0000) % 0x2000_0000;
  }

  lemma Remainder(n: nat, q: nat, r: nat)
    requires n == q * 0x2000_0000_0000_0000 + r && r < 0x2000_0000_0000_0000
    ensures n % 0x2000_0000_0000_0000 == r
  {}

  lemma CountsNext(lo: nat, hi: nat, total: nat, size: nat)
    requires Counts(lo, hi, total) && size < 0x1_0000_0000_0000_0000
    ensures Counts(NextLo(lo, size), NextHi(lo, hi, size), total + size)
  {
    NextWords(lo, hi, size);
    hide NextLo, NextHi;
    var carry := if lo + size % 0x2000_0000 >= 0x2000_0000 then 1 else 0;
    var sum := hi + carry + size / 0x2000_0000;
    var m, t := sum / 0x1_0000_0000, total / 0x2000_0000_0000_0000;
    var nl, nh := NextLo(lo, size), NextHi(lo, hi, size);
    assert sum == m * 0x1_0000_0000 + nh;
    assert total + size == t * 0x2000_0000_0000_0000 + sum * 0x2000_0000 + nl;
    Remainder(total + size, t + m, nh * 0x2000_0000 + nl);
  }

  /** The low six bits of `lo` are the number of bytes that wait in the buffer. */
  lemma CountsUsed(lo: nat, hi: nat, total: nat)
    requires Counts(lo, hi, total)
    ensures lo % 64 == total % 64
  {}

  /** The two words are the length in bits, once `lo` has been shifted. */
  lemma CountsBits(lo: nat, hi: nat, total: nat)
    requires Counts(lo, hi, total)
    ensures var bits := 8 * total % 0x1_0000_0000_0000_0000;
      bits % 0x1_0000_0000 == lo * 8 && bits / 0x1_0000_0000 == hi
  {
    var t := total / 0x2000_0000_0000_0000;
    assert 8 * total == t * 0x1_0000_0000_0000_0000 + (hi * 0x1_0000_0000 + lo * 8);
    assert 8 * total % 0x1_0000_0000_0000_0000 == hi * 0x1_0000_0000 + lo * 8;
  }

  // ----- the context

  /** `s` is the state after all of `message` but `pending`, which comes last and has not been compressed. */
  ghost predicate Holds(s: State, pending: seq<Byte>, message: seq<Byte>) {
    var done := |message| - |pending|;
    0 <= done && done % 64 == 0 && pending == message[done..] && s == Chain(AfterBlock, INIT, message[..done])
  }

  lemma More(s: State, pending: seq<Byte>, message: seq<Byte>, data: seq<Byte>)
    requires Holds(s, pending, message)
    ensures Holds(s, pending + data, message + data)
  {
    var done := |message| - |pending|;
    assert (message + data)[..done] == message[..done];
    assert (message + data)[done..] == pending + data;
  }

  lemma Absorb(s: State, pending: seq<Byte>, message: seq<Byte>, k: nat)
    requires Holds(s, pending, message) && k <= |pending| && k % 64 == 0
    ensures Holds(Chain(AfterBlock, s, pending[..k]), pending[k..], message)
  {
    hide Chain;
    var done := |message| - |pending|;
    assert (done + k) % 64 == 0;
    assert message[..done + k] == message[..done] + pending[..k];
    assert message[done + k..] == pending[k..];
    ChainConcat(AfterBlock, INIT, message[..done], pending[..k]);
  }

  /** `MD5_CTX`. */
  class Context {
    var lo: nat
    var hi: nat
    var s: State
    const buffer: array<Byte>
    ghost var message: seq<Byte>

    ghost predicate Valid()
      reads this, buffer
    {
      buffer.Length == 64 && Counts(lo, hi, |message|) && Holds(s, buffer[..lo % 64], message)
    }

    /** `MD5_Init`. */
    constructor ()
      ensures Valid() && message == [] && fresh(buffer)
    {
      lo, hi := 0, 0;
      s := INIT;
      buffer := new Byte[64];
      message := [];
    }

    /** `memcpy` into the buffer. */
    method Copy(at: nat, data: seq<Byte>)
      requires at + |data| <= buffer.Length
      modifies buffer
      ensures buffer[..at + |data|] == old(buffer[..at]) + data && buffer[at + |data|..] == old(buffer[at + |data|..])
    {
      for k := 0 to |data|
        invariant buffer[..at + k] == old(buffer[..at]) + data[..k]
        invariant buffer[at + k..] == old(buffer[at + k..])
      {
        buffer[at + k] := data[k];
      }
    }

    /** `body`: compresses one or more blocks. */
    method Body(data: seq<Byte>)
      requires data != [] && |data| % 64 == 0
      modifies this`s
      ensures s == Chain(AfterBlock, old(s), data)
    {
      hide Chain, Words, Compress;
      ghost var start := s;
      var ptr := 0;
      NoBlocks(start);
      assert data[..0] == [];
      while ptr < |data|
        invariant ptr <= |data| && ptr % 64 == 0 && s == Chain(AfterBlock, start, data[..ptr])
      {
        var block := data[ptr..ptr + 64];
        ChainConcat(AfterBlock, start, data[..ptr], block);
        ChainBlock(AfterBlock, s, block);
        assert data[..ptr + 64] == data[..ptr] + block;
        s := Block(s, Words(block));
        ptr := ptr + 64;
      }
      assert data[..ptr] == data;
    }

    /** `MD5_Update`. */
    method Update(data: seq<Byte>)
      requires Valid() && |data| < 0x1_0000_0000_0000_0000
      modifies this, buffer
      ensures Valid() && message == old(message) + data
    {
      hide Chain, Counts, Holds, NextLo, NextHi;
      ghost var pending := buffer[..lo % 64] + data;
      More(s, buffer[..lo % 64], message, data);
      CountsUsed(lo, hi, |message|);
      CountsNext(lo, hi, |message|, |data|);
      message := message + data;
      var used := lo % 64;
      lo, hi := NextLo(lo, |data|), NextHi(lo, hi, |data|);
      CountsUsed(lo, hi, |message|);
      PendingSize(s, pending, message);
      var rest := data;
      assert used == 0 ==> pending == data;
      if used != 0 {
        var available := 64 - used;
        if |data| < available {
          Copy(used, data);
          assert |pending| == lo % 64 && buffer[..lo % 64] == pending;
          return;
        }
        rest := FillBlock(used, data, pending);
      }
      Rest(rest);
    }

    /** The buffer is filled up and compressed. */
    method FillBlock(used: nat, data: seq<Byte>, ghost pending: seq<Byte>) returns (rest: seq<Byte>)
      requires 0 < used < 64 && buffer.Length == 64 && used + |data| >= 64
      requires pending == buffer[..used] + data && Holds(s, pending, message)
      modifies this`s, buffer
      ensures Holds(s, rest, message) && rest == data[64 - used..]
    {
      hide Chain, Holds;
      Copy(used, data[..64 - used]);
      rest := data[64 - used..];
      assert buffer[..] == pending[..64] && rest == pending[64..];
      Absorb(s, pending, message, 64);
      Body(buffer[..]);
    }

    /** The full blocks among `data` are compressed, the rest is buffered. */
    method Rest(data: seq<Byte>)
      requires buffer.Length == 64 && Counts(lo, hi, |message|) && Holds(s, data, message)
      modifies this`s, buffer
      ensures Valid()
    {
      hide Chain, Holds, Counts;
      var rest := data;
      CountsUsed(lo, hi, |message|);
      if |data| >= 64 {
        var n := |data| / 64 * 64;
        Absorb(s, data, message, n);
        Body(data[..n]);
        rest := data[n..];
      }
      PendingSize(s, rest, message);
      Copy(0, rest);
      assert buffer[..lo % 64] == rest;
    }

    /** `MD5_Final`: the digest of the whole message; the context is wiped. */
    method Final() returns (result: seq<Byte>)
      requires Valid()
      modifies this, buffer
      ensures result == Digest(old(message))
      ensures lo == 0 && hi == 0 && s == State(0, 0, 0, 0) && buffer[..] == Zeros(64)
    {
      hide Chain, Holds, Counts, Words, Compress, Le64, Le32, Output, Padding;
      ghost var tail, n := buffer[..lo % 64], |message|;
      CountsUsed(lo, hi, n);
      CountsBits(lo, hi, n);
      More(s, tail, message, Padding(n));
      ghost var bits := 8 * n % 0x1_0000_0000_0000_0000;
      ghost var padded := message + Padding(n);
      DigestIs(message);
      var used;
      ghost var pending;
      used, pending := Mark(n, tail, padded);
      LengthBytes(lo, hi, bits);
      WriteLength(used, lo * 8, hi, bits, pending);
      Absorb(s, pending, padded, 64);
      assert pending[..64] == pending;
      Body(buffer[..]);
      AllAbsorbed(s, padded, pending[64..]);
      result := Output(s);
      lo, hi, s := 0, 0, State(0, 0, 0, 0);
      Copy(0, Zeros(64));
      assert buffer[..] == Zeros(64);
    }

    /** The one bit, and the first of two blocks if the length does not fit behind it. */
    method Mark(ghost n: nat, ghost tail: seq<Byte>, ghost padded: seq<Byte>)
      returns (used: nat, ghost pending: seq<Byte>)
      requires buffer.Length == 64 && tail == buffer[..lo % 64] && lo % 64 == n % 64
      requires Holds(s, tail + Padding(n), padded)
      modifies this`s, buffer
      ensures used <= 56 && Holds(s, pending, padded)
      ensures pending == buffer[..used] + (Zeros(56 - used) + Le64(8 * n % 0x1_0000_0000_0000_0000))
    {
      hide Chain, Holds, Le64, Padding;
      pending := tail + Padding(n);
      used := lo % 64;
      Copy(used, [0x80]);
      used := used + 1;
      if 64 - used < 8 {
        Copy(used, Zeros(64 - used));
        FirstOfTwo(tail, n, buffer[..]);
        Absorb(s, pending, padded, 64);
        Body(buffer[..]);
        pending := pending[64..];
        used := 0;
      } else {
        OnlyOne(tail, n);
      }
    }

    /** Zeros up to the last eight bytes, and the length there. */
    method WriteLength(used: nat, low: nat, high: nat, ghost bits: nat, ghost pending: seq<Byte>)
      requires buffer.Length == 64 && used <= 56 && low < 0x1_0000_0000 && high < 0x1_0000_0000
      requires bits < 0x1_0000_0000_0000_0000 && Le64(bits) == Le32(low) + Le32(high)
      requires pending == buffer[..used] + (Zeros(56 - used) + Le64(bits))
      modifies buffer
      ensures buffer[..] == pending
    {
      hide Le64, Le32;
      Copy(used, Zeros(56 - used));
      Copy(56, Le32(low));
      Copy(60, Le32(high));
    }
  }

  lemma DigestIs(m: seq<Byte>)
    ensures Digest(m) == Output(Chain(AfterBlock, INIT, m + Padding(|m|)))
  {}

  lemma AllAbsorbed(s: State, message: seq<Byte>, pending: seq<Byte>)
    requires Holds(s, pending, message) && pending == []
    ensures |message| % 64 == 0 && s == Chain(AfterBlock, INIT, message)
  {
    assert message[..|message|] == message;
  }

  /** The length goes in as two words. */
  lemma LengthBytes(lo: nat, hi: nat, bits: nat)
    requires lo < 0x2000_0000 && hi < 0x1_0000_0000 && bits < 0x1_0000_0000_0000_0000
    requires bits % 0x1_0000_0000 == lo * 8 && bits / 0x1_0000_0000 == hi
    ensures Le64(bits) == Le32(lo * 8) + Le32(hi)
  {}

  /** Padding that needs two blocks: zeros to the end of the first one. */
  lemma FirstOfTwo(tail: seq<Byte>, n: nat, block: seq<Byte>)
    requires |tail| == n % 64 && 56 <= |tail| && block == tail + [0x80] + Zeros(63 - |tail|)
    ensures var pending := tail + Padding(n);
      && |pending| == 128 && pending[..64] == block
      && pending[64..] == [] + (Zeros(56) + Le64(8 * n % 0x1_0000_0000_0000_0000))
  {
    hide Le64;
  }

  lemma OnlyOne(tail: seq<Byte>, n: nat)
    requires |tail| == n % 64 && |tail| < 56
    ensures var pending := tail + Padding(n);
      && |pending| == 64
      && pending == (tail + [0x80]) + (Zeros(55 - |tail|) + Le64(8 * n % 0x1_0000_0000_0000_0000))
  {
    hide Le64;
  }

  lemma NoBlocks(s: State)
    ensures Chain(AfterBlock, s, []) == s
  {}

  lemma PendingSize(s: State, pending: seq<Byte>, message: seq<Byte>)
    requires Holds(s, pending, message)
    ensures |pending| % 64 == |message| % 64
  {
    hide Chain;
    var done := |message| - |pending|;
    assert |message| == done / 64 * 64 + |pending|;
  }

  // ----- messages in pieces

  /** However a message is cut into updates, the digest is the one-shot digest of all of it. */
  method DigestOf(pieces: seq<seq<Byte>>) returns (digest: seq<Byte>)
    requires forall p :: p in pieces ==> |p| < 0x1_0000_0000_0000_0000
    ensures digest == Digest(Concat(pieces))
  {
    hide Digest;
    var context := new Context();
    var i := 0;
    while i < |pieces|
      invariant i <= |pieces| && context.Valid() && context.message == Concat(pieces[..i])
      invariant fresh(context) && fresh(context.buffer)
    {
      ConcatOne(pieces, i);
      context.Update(pieces[i]);
      i := i + 1;
    }
    assert pieces[..i] == pieces;
    digest := context.Final();
  }
}
