/** Rotation, and folding a compression over the blocks of a padded message, as both digests do. */
module Blocks {

  type Byte = bv8

  function Rol(x: bv32, s: nat): bv32
    requires s <= 32
  {
    (x << s) | (x >> (32 - s))
  }

  function Zeros(n: nat): (z: seq<Byte>)
    ensures |z| == n && forall i :: 0 <= i < n ==> z[i] == 0
  {
    seq(n, i requires 0 <= i < n => 0)
  }

  /** `step` over the blocks of `data`, 64 bytes each, in order. */
  function Chain<S>(step: (S, seq<Byte>) -> S, s: S, data: seq<Byte>): S
    requires |data| % 64 == 0
    decreases |data|
  {
    if data == [] then s else Chain(step, step(s, data[..64]), data[64..])
  }

  lemma {:induction false} ChainConcat<S>(step: (S, seq<Byte>) -> S, s: S, a: seq<Byte>, b: seq<Byte>)
    requires |a| % 64 == 0 && |b| % 64 == 0
    ensures Chain(step, s, a + b) == Chain(step, Chain(step, s, a), b)
    decreases |a|
  {
    if a == [] {
      assert a + b == b;
    } else {
      assert (a + b)[..64] == a[..64] && (a + b)[64..] == a[64..] + b;
      ChainConcat(step, step(s, a[..64]), a[64..], b);
    }
  }

  lemma ChainBlock<S>(step: (S, seq<Byte>) -> S, s: S, block: seq<Byte>)
    requires |block| == 64
    ensures Chain(step, s, block) == step(s, block)
  {
    assert block[..64] == block && block[64..] == [];
  }
}
