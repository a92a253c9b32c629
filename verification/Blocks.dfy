/** Sixteen-byte blocks and a block cipher that is any function at all. */
module Blocks {
  type Bytes = seq<bv8>

  type Block = b: Bytes | |b| == 16 witness seq(16, _ => 0)

  /** AES-128 with a key, on one block; nothing is assumed about it. */
  type Cipher = (Block, Block) -> Block

  const ZERO: Block := seq(16, _ => 0)

  function Xor(a: Bytes, b: Bytes): (r: Bytes)
    requires |a| == |b|
    ensures |r| == |a| && forall i :: 0 <= i < |r| ==> r[i] == a[i] ^ b[i]
  {
    seq(|a|, i requires 0 <= i < |a| => a[i] ^ b[i])
  }

  function XorBlock(a: Block, b: Block): Block {
    Xor(a, b)
  }

  lemma XorCancels(a: Bytes, b: Bytes)
    requires |a| == |b|
    ensures Xor(Xor(a, b), b) == a
  {
    forall i | 0 <= i < |a|
      ensures (a[i] ^ b[i]) ^ b[i] == a[i]
    {
    }
  }

  /** Replace the bytes of a caller's buffer from `at` on. */
  function Splice(buffer: Bytes, at: nat, bytes: Bytes): (r: Bytes)
    requires at + |bytes| <= |buffer|
    ensures |r| == |buffer|
  {
    buffer[..at] + bytes + buffer[at + |bytes|..]
  }

  lemma SpliceByIndex(was: Bytes, now: Bytes, at: nat, bytes: Bytes)
    requires |was| == |now| && at + |bytes| <= |was|
    requires forall j :: 0 <= j < |now| ==>
               now[j] == if at <= j < at + |bytes| then bytes[j - at] else was[j]
    ensures now == Splice(was, at, bytes)
  {
  }

  lemma Between(a: Bytes, b: Bytes, c: Bytes)
    ensures (a + b + c)[|a|..|a| + |b|] == b
  {
  }
}
