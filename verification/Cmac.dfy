/** AES-CMAC as RFC 4493 defines it on 128-bit strings, and the byte loops that compute it. */
module Cmac {
  import opened Blocks

  // --- sections 2.2 and 2.3: bit strings and subkeys ---

  /** Bit `j` of a byte, most significant first. */
  function BitOf(x: bv8, j: nat): bool
    requires j < 8
  {
    match j
    case 0 => x & 0x80 != 0
    case 1 => x & 0x40 != 0
    case 2 => x & 0x20 != 0
    case 3 => x & 0x10 != 0
    case 4 => x & 0x08 != 0
    case 5 => x & 0x04 != 0
    case 6 => x & 0x02 != 0
    case _ => x & 0x01 != 0
  }

  function Flag(b: bool, mask: bv8): bv8 {
    if b then mask else 0
  }

  function PackByte(b: seq<bool>): bv8
    requires |b| == 8
  {
    Flag(b[0], 0x80) | Flag(b[1], 0x40) | Flag(b[2], 0x20) | Flag(b[3], 0x10)
    | Flag(b[4], 0x08) | Flag(b[5], 0x04) | Flag(b[6], 0x02) | Flag(b[7], 0x01)
  }

  function Bits(b: Block): (r: seq<bool>)
    ensures |r| == 128
  {
    seq(128, k requires 0 <= k < 128 => BitOf(b[k / 8], k % 8))
  }

  function Pack(bits: seq<bool>): (b: Block)
    requires |bits| == 128
  {
    seq(16, i requires 0 <= i < 16 => PackByte(bits[8 * i..8 * i + 8]))
  }

  function ShiftLeft(bits: seq<bool>): (r: seq<bool>)
    requires |bits| == 128
    ensures |r| == 128
  {
    bits[1..] + [false]
  }

  function XorBits(a: seq<bool>, b: seq<bool>): (r: seq<bool>)
    requires |a| == |b|
    ensures |r| == |a|
  {
    seq(|a|, i requires 0 <= i < |a| => a[i] != b[i])
  }

  /** const_Rb: 120 zero bits, then 10000111. */
  function Rb(): (r: seq<bool>)
    ensures |r| == 128
  {
    seq(120, _ => false) + [true, false, false, false, false, true, true, true]
  }

  /** Doubling in the field: shift left, and add Rb if a bit fell off. */
  function DoubledBits(b: Block): (r: seq<bool>)
    ensures |r| == 128
  {
    if Bits(b)[0] then XorBits(ShiftLeft(Bits(b)), Rb()) else ShiftLeft(Bits(b))
  }

  function Double(b: Block): Block {
    Pack(DoubledBits(b))
  }

  // --- section 2.4: the message authentication code ---

  function BlockCount(n: nat): (blocks: nat)
    ensures blocks >= 1
  {
    if n == 0 then 1 else (n + 15) / 16
  }

  function Pad(m: Bytes): (b: Block)
    requires |m| < 16
  {
    m + [0x80] + seq(15 - |m|, _ => 0)
  }

  /** What follows the whole blocks that go before the last. */
  function Tail(m: Bytes): (t: Bytes)
    ensures |t| == if |m| > 0 && |m| % 16 == 0 then 16 else |m| % 16
  {
    m[16 * (BlockCount(|m|) - 1)..]
  }

  function LastBlock(m: Bytes, k1: Block, k2: Block): (b: Block) {
    if |m| > 0 && |m| % 16 == 0 then XorBlock(Tail(m), k1) else XorBlock(Pad(Tail(m)), k2)
  }

  /** The chaining value after `i` whole blocks. */
  function Chain(e: Cipher, key: Block, m: Bytes, i: nat): Block
    requires 16 * i <= |m|
  {
    if i == 0 then ZERO else e(key, XorBlock(Chain(e, key, m, i - 1), m[16 * (i - 1)..16 * i]))
  }

  function K1(e: Cipher, key: Block): Block {
    Double(e(key, ZERO))
  }

  function K2(e: Cipher, key: Block): Block {
    Double(K1(e, key))
  }

  /** The code, given the two subkeys. */
  function MacWith(e: Cipher, key: Block, k1: Block, k2: Block, m: Bytes): Block {
    e(key, XorBlock(LastBlock(m, k1, k2), Chain(e, key, m, BlockCount(|m|) - 1)))
  }

  function Mac(e: Cipher, key: Block, m: Bytes): Block {
    MacWith(e, key, K1(e, key), K2(e, key), m)
  }

  // --- the same, bit for bit and block for block ---

  lemma PackedByte(b: seq<bool>, j: nat)
    requires |b| == 8 && j < 8
    ensures BitOf(PackByte(b), j) == b[j]
  {
    var f0, f1, f2, f3 := Flag(b[0], 0x80), Flag(b[1], 0x40), Flag(b[2], 0x20), Flag(b[3], 0x10);
    var f4, f5, f6, f7 := Flag(b[4], 0x08), Flag(b[5], 0x04), Flag(b[6], 0x02), Flag(b[7], 0x01);
    FlagsKept(f0, f1, f2, f3, f4, f5, f6, f7);
  }

  lemma FlagsKept(a: bv8, b: bv8, c: bv8, d: bv8, e: bv8, f: bv8, g: bv8, h: bv8)
    requires a & 0x7F == 0 && b & 0xBF == 0 && c & 0xDF == 0 && d & 0xEF == 0
    requires e & 0xF7 == 0 && f & 0xFB == 0 && g & 0xFD == 0 && h & 0xFE == 0
    ensures var x := a | b | c | d | e | f | g | h;
            && x & 0x80 == a && x & 0x40 == b && x & 0x20 == c && x & 0x10 == d
            && x & 0x08 == e && x & 0x04 == f && x & 0x02 == g && x & 0x01 == h
  {
  }

  lemma PackedBits(bits: seq<bool>)
    requires |bits| == 128
    ensures Bits(Pack(bits)) == bits
  {
    forall k | 0 <= k < 128
      ensures Bits(Pack(bits))[k] == bits[k]
    {
      PackedByte(bits[8 * (k / 8)..8 * (k / 8) + 8], k % 8);
      assert k == 8 * (k / 8) + k % 8;
    }
  }

  /** The subkeys: what sixteen zero bytes are enciphered to, doubled once and twice. */
  lemma SubkeysAreDoubled(e: Cipher, key: Block, zeros: Block)
    requires forall i :: 0 <= i < 16 ==> zeros[i] == 0
    ensures Bits(K1(e, key)) == DoubledBits(e(key, zeros)) && Bits(K2(e, key)) == DoubledBits(K1(e, key))
  {
    assert zeros == ZERO;
    PackedBits(DoubledBits(e(key, ZERO)));
    PackedBits(DoubledBits(K1(e, key)));
  }

  /** Padding is one bit and then none up to the end of the block. */
  lemma PaddedBits(m: Bytes, k: nat)
    requires |m| < 16 && k < 128
    ensures Bits(Pad(m))[k] == if k < 8 * |m| then BitOf(m[k / 8], k % 8) else k == 8 * |m|
  {
    var i, j := k / 8, k % 8;
    assert k == 8 * i + j;
    if i > |m| {
      assert Pad(m)[i] == 0;
    } else if i == |m| {
      assert Pad(m)[i] == 0x80;
    }
  }

  /** The blocks that are chained: whole ones as they are, and the last with the first subkey added, or
      padded and with the second. */
  ghost predicate Prepared(m: Bytes, k1: Block, k2: Block, blocks: seq<Block>) {
    && blocks != []
    && 16 * (|blocks| - 1) <= |m| <= 16 * |blocks| && (|m| == 16 * (|blocks| - 1) ==> m == [])
    && (forall i :: 0 <= i < |blocks| - 1 ==> blocks[i] == m[16 * i..16 * i + 16])
    && var rest := m[16 * (|blocks| - 1)..];
       blocks[|blocks| - 1] == if |rest| == 16 then Xor(rest, k1) else Xor(Pad(rest), k2)
  }

  /** Every message can be cut so. */
  lemma PreparedExists(m: Bytes, k1: Block, k2: Block) returns (blocks: seq<Block>)
    ensures Prepared(m, k1, k2, blocks)
  {
    var n := BlockCount(|m|) - 1;
    assert 16 * n <= |m| <= 16 * n + 16 && (|m| == 16 * n ==> m == []);
    var whole: seq<Block> := seq(n, i requires 0 <= i < n => m[16 * i..16 * i + 16]);
    blocks := whole + [LastBlock(m, k1, k2)];
    hide Xor, Pad;
    Whole(|m|, n);
  }

  /** Cipher-block chaining from sixteen zero bytes. */
  function Cbc(e: Cipher, key: Block, blocks: seq<Block>): Block
    decreases |blocks|
  {
    if blocks == [] then seq(16, _ => 0)
    else e(key, Xor(blocks[|blocks| - 1], Cbc(e, key, blocks[..|blocks| - 1])))
  }

  lemma {:induction false} ChainIsCbc(e: Cipher, key: Block, m: Bytes, blocks: seq<Block>)
    requires 16 * |blocks| <= |m| && forall i :: 0 <= i < |blocks| ==> blocks[i] == m[16 * i..16 * i + 16]
    ensures Chain(e, key, m, |blocks|) == Cbc(e, key, blocks)
    decreases |blocks|
  {
    if blocks != [] {
      var front, last := blocks[..|blocks| - 1], blocks[|blocks| - 1];
      ChainIsCbc(e, key, m, front);
      XorCommutes(last, Cbc(e, key, front));
      assert m[16 * (|blocks| - 1)..16 * |blocks|] == last;
    }
  }

  /** The code is what the prepared blocks chain to. */
  lemma MacIsCbc(e: Cipher, key: Block, m: Bytes, blocks: seq<Block>)
    requires Prepared(m, K1(e, key), K2(e, key), blocks)
    ensures Mac(e, key, m) == Cbc(e, key, blocks)
  {
    PreparedEnds(m, K1(e, key), K2(e, key), blocks);
    var front := blocks[..|blocks| - 1];
    assert forall i :: 0 <= i < |front| ==> front[i] == m[16 * i..16 * i + 16];
    ChainIsCbc(e, key, m, front);
    hide K1, K2, Chain, Prepared, LastBlock, Xor;
  }

  lemma PreparedEnds(m: Bytes, k1: Block, k2: Block, blocks: seq<Block>)
    requires Prepared(m, k1, k2, blocks)
    ensures BlockCount(|m|) == |blocks| && LastBlock(m, k1, k2) == blocks[|blocks| - 1]
  {
    var n := |blocks| - 1;
    Whole(|m|, n);
    hide Xor, Pad;
  }

  lemma Whole(length: nat, n: nat)
    requires 16 * n <= length <= 16 * n + 16 && (length == 16 * n ==> length == 0)
    ensures BlockCount(length) == n + 1
    ensures length - 16 * n == 16 <==> length > 0 && length % 16 == 0
  {
  }

  // --- the byte loops ---

  lemma ShiftedByte(x: bv8, y: bv8, b: seq<bool>)
    requires |b| == 8
    requires forall j :: 0 <= j < 7 ==> b[j] == BitOf(x, j + 1)
    requires b[7] == BitOf(y, 0)
    ensures PackByte(b) == (x << 1) | (y >> 7)
  {
    assert b[0] == (x & 0x40 != 0) && b[1] == (x & 0x20 != 0) && b[2] == (x & 0x10 != 0) && b[3] == (x & 0x08 != 0);
    assert b[4] == (x & 0x04 != 0) && b[5] == (x & 0x02 != 0) && b[6] == (x & 0x01 != 0) && b[7] == (y & 0x80 != 0);
  }

  lemma PackReduced(b: seq<bool>, c: seq<bool>)
    requires |b| == |c| == 8
    requires forall j :: 0 <= j < 8 ==> c[j] == (b[j] != BitOf(0x87, j))
    ensures PackByte(c) == PackByte(b) ^ 0x87
  {
    assert c[0] == !b[0] && c[1] == b[1] && c[2] == b[2] && c[3] == b[3];
    assert c[4] == b[4] && c[5] == !b[5] && c[6] == !b[6] && c[7] == !b[7];
  }

  /** Byte `i` of a shifted bit string draws its last bit from the byte after. */
  lemma ShiftedPart(b: Block, i: nat, j: nat)
    requires i < 16 && j < 8
    ensures ShiftLeft(Bits(b))[8 * i + j] ==
            if j < 7 then BitOf(b[i], j + 1) else if i < 15 then BitOf(b[i + 1], 0) else BitOf(0, 0)
  {
    if 8 * i + j < 127 {
      IndexSplit(i, j);
      assert ShiftLeft(Bits(b))[8 * i + j] == Bits(b)[8 * i + j + 1];
    }
  }

  lemma ShiftedBytePacks(b: Block, i: nat)
    requires i < 16
    ensures PackByte(ShiftLeft(Bits(b))[8 * i..8 * i + 8]) ==
            (b[i] << 1) | ((if i < 15 then b[i + 1] else 0) >> 7)
  {
    var part := ShiftLeft(Bits(b))[8 * i..8 * i + 8];
    forall j | 0 <= j < 8
      ensures part[j] == if j < 7 then BitOf(b[i], j + 1) else if i < 15 then BitOf(b[i + 1], 0) else BitOf(0, 0)
    {
      ShiftedPart(b, i, j);
    }
    ShiftedByte(b[i], if i < 15 then b[i + 1] else 0, part);
  }

  lemma ReducedLow(bits: seq<bool>)
    requires |bits| == 128
    ensures PackByte(XorBits(bits, Rb())[120..128]) == PackByte(bits[120..128]) ^ 0x87
  {
    var part, reduced := bits[120..128], XorBits(bits, Rb())[120..128];
    forall j | 0 <= j < 8
      ensures reduced[j] == (part[j] != BitOf(0x87, j))
    {
      assert Rb()[120 + j] == [true, false, false, false, false, true, true, true][j];
    }
    PackReduced(part, reduced);
  }

  lemma ReducedHigh(bits: seq<bool>, i: nat)
    requires |bits| == 128 && i < 15
    ensures XorBits(bits, Rb())[8 * i..8 * i + 8] == bits[8 * i..8 * i + 8]
  {
    assert forall j :: 0 <= j < 120 ==> !Rb()[j];
  }

  lemma NothingShiftedIn(x: bv8)
    ensures (x << 1) | ((0 as bv8) >> 7) == x << 1 && (x << 1) ^ 0 == x << 1
  {
  }

  lemma DoubleHighByte(b: Block, i: nat)
    requires i < 15
    ensures Double(b)[i] == (b[i] << 1) | (b[i + 1] >> 7)
  {
    var k := 8 * i;
    assert Double(b)[i] == PackByte(DoubledBits(b)[k..k + 8]);
    assert DoubledBits(b)[k..k + 8] == ShiftLeft(Bits(b))[k..k + 8] by {
      ReducedHigh(ShiftLeft(Bits(b)), i);
    }
    ShiftedBytePacks(b, i);
  }

  lemma DoubleLowByte(b: Block)
    ensures Double(b)[15] == (b[15] << 1) ^ (if b[0] & 0x80 != 0 then 0x87 else 0)
  {
    ShiftedBytePacks(b, 15);
    ReducedLow(ShiftLeft(Bits(b)));
    NothingShiftedIn(b[15]);
    assert Double(b)[15] == PackByte(DoubledBits(b)[120..128]);
    assert Bits(b)[0] == BitOf(b[0], 0);
  }

  lemma IndexSplit(i: nat, j: nat)
    requires j < 8
    ensures (8 * i + j + 1) / 8 == (if j < 7 then i else i + 1)
    ensures (8 * i + j + 1) % 8 == (if j < 7 then j + 1 else 0)
  {
  }

  lemma LoopDoubles(b: Block, r: Bytes)
    requires |r| == 16
    requires forall j :: 0 <= j < 15 ==> r[j] == (b[j] << 1) | (b[j + 1] >> 7)
    requires r[15] == (b[15] << 1) ^ (if b[0] & 0x80 != 0 then 0x87 else 0)
    ensures r == Double(b)
  {
    forall i | 0 <= i < 16
      ensures r[i] == Double(b)[i]
    {
      if i < 15 {
        DoubleHighByte(b, i);
      } else {
        DoubleLowByte(b);
      }
    }
  }

  /** One subkey from the previous value: the shift loop, then the conditional reduction. */
  method DoubleInto(from: array<bv8>, to: array<bv8>)
    requires from.Length == to.Length == 16 && from != to
    modifies to
    ensures to[..] == Double(from[..])
  {
    var carry := from[0] & 0x80 != 0;
    ghost var b: Block := from[..];
    for i := 0 to 15
      modifies to
      invariant forall j :: 0 <= j < i ==> to[j] == (b[j] << 1) | (b[j + 1] >> 7)
    {
      to[i] := (from[i] << 1) | (from[i + 1] >> 7);
    }
    to[15] := from[15] << 1;
    if carry {
      to[15] := to[15] ^ 0x87;
    } else {
      NothingShiftedIn(b[15]);
    }
    LoopDoubles(b, to[..]);
  }

  method XorInto(y: array<bv8>, k: array<bv8>)
    requires y.Length == k.Length == 16 && y != k
    modifies y
    ensures y[..] == Xor(old(y[..]), k[..])
  {
    for i := 0 to 16
      invariant forall j :: 0 <= j < 16 ==> y[j] == if j < i then old(y[j]) ^ k[j] else old(y[j])
      modifies y
    {
      y[i] := y[i] ^ k[i];
    }
  }

  method CopyInto(to: array<bv8>, at: nat, bytes: Bytes)
    requires at + |bytes| <= to.Length
    modifies to
    ensures to[..] == Splice(old(to[..]), at, bytes)
  {
    for i := 0 to |bytes|
      invariant forall j :: 0 <= j < to.Length ==>
                  to[j] == if at <= j < at + i then bytes[j - at] else old(to[j])
    {
      to[at + i] := bytes[i];
    }
  }

  /** The final or an inner block of the message, ready to be chained. */
  method LoadBlock(y: array<bv8>, msg: Bytes, b: nat, blocks: nat, lastFull: bool, k1: array<bv8>, k2: array<bv8>)
    requires y.Length == k1.Length == k2.Length == 16 && y != k1 && y != k2
    requires blocks == BlockCount(|msg|) && b < blocks
    requires lastFull <==> |msg| > 0 && |msg| % 16 == 0
    modifies y
    ensures y[..] == if b + 1 == blocks then LastBlock(msg, k1[..], k2[..]) else msg[16 * b..16 * b + 16]
  {
    for i := 0 to 16
      invariant forall j :: 0 <= j < i ==> y[j] == 0
      modifies y
    {
      y[i] := 0;
    }
    if b + 1 == blocks {
      if lastFull {
        assert msg[16 * b..] == msg[16 * b..16 * b + 16];
        CopyInto(y, 0, msg[16 * b..16 * b + 16]);
        assert y[..] == msg[16 * b..16 * b + 16];
        XorInto(y, k1);
      } else {
        var rem := |msg| % 16;
        if |msg| != 0 {
          CopyInto(y, 0, msg[16 * b..16 * b + rem]);
        }
        y[rem] := 0x80;
        assert msg[16 * b..16 * b + rem] == msg[16 * b..];
        assert y[..] == Pad(msg[16 * b..]);
        XorInto(y, k2);
      }
    } else {
      CopyInto(y, 0, msg[16 * b..16 * b + 16]);
      assert y[..] == msg[16 * b..16 * b + 16];
    }
  }

  /** Exclusive-or with the chaining value, then the cipher. */
  method ChainBlock(e: Cipher, key: Block, y: array<bv8>, x: array<bv8>)
    requires y.Length == x.Length == 16 && y != x
    modifies y, x
    ensures x[..] == e(key, XorBlock(old(y[..]), old(x[..])))
  {
    XorInto(y, x);
    var out := e(key, y[..]);
    CopyInto(x, 0, out);
    assert x[..] == out;
  }

  lemma ChainStep(e: Cipher, key: Block, k1: Block, k2: Block, msg: Bytes, b: nat, y: Block)
    requires b < BlockCount(|msg|)
    requires y == if b + 1 == BlockCount(|msg|) then LastBlock(msg, k1, k2) else msg[16 * b..16 * b + 16]
    ensures e(key, XorBlock(y, Chain(e, key, msg, b))) == Absorbed(e, key, k1, k2, msg, b + 1)
  {
    XorCommutes(y, Chain(e, key, msg, b));
  }

  method Subkeys(e: Cipher, key: Block, k1: array<bv8>, k2: array<bv8>)
    requires k1.Length == k2.Length == 16 && k1 != k2
    modifies k1, k2
    ensures k1[..] == K1(e, key) && k2[..] == K2(e, key)
  {
    var l := new bv8[16](_ => 0);
    assert l[..] == ZERO;
    var l0 := e(key, l[..]);
    CopyInto(l, 0, l0);
    assert l[..] == e(key, ZERO);
    DoubleInto(l, k1);
    DoubleInto(k1, k2);
  }

  /** The chaining value after `b` of the message's blocks. */
  ghost function Absorbed(e: Cipher, key: Block, k1: Block, k2: Block, msg: Bytes, b: nat): Block
    requires b <= BlockCount(|msg|)
  {
    if b < BlockCount(|msg|) then Chain(e, key, msg, b) else MacWith(e, key, k1, k2, msg)
  }

  method Absorb(e: Cipher, key: Block, msg: Bytes, b: nat, blocks: nat, lastFull: bool,
                k1: array<bv8>, k2: array<bv8>, x: array<bv8>)
    requires k1.Length == k2.Length == x.Length == 16 && x != k1 && x != k2
    requires blocks == BlockCount(|msg|) && b < blocks
    requires lastFull <==> |msg| > 0 && |msg| % 16 == 0
    requires x[..] == Absorbed(e, key, k1[..], k2[..], msg, b)
    modifies x
    ensures x[..] == Absorbed(e, key, k1[..], k2[..], msg, b + 1)
  {
    var y := new bv8[16];
    LoadBlock(y, msg, b, blocks, lastFull, k1, k2);
    ChainStep(e, key, k1[..], k2[..], msg, b, y[..]);
    ChainBlock(e, key, y, x);
  }

  method CountBlocks(n: nat) returns (blocks: nat, lastFull: bool)
    ensures blocks == BlockCount(n)
    ensures lastFull <==> n > 0 && n % 16 == 0
  {
    var complete := n / 16;
    lastFull := n % 16 == 0 && n != 0;
    blocks := if lastFull then complete else complete + 1;
    if n == 0 {
      blocks := 1;
      lastFull := false;
    }
  }

  /** Every block of the message, absorbed in turn. */
  method AbsorbAll(e: Cipher, key: Block, msg: Bytes, k1: array<bv8>, k2: array<bv8>, x: array<bv8>)
    requires k1.Length == k2.Length == x.Length == 16 && x != k1 && x != k2
    requires x[..] == ZERO
    modifies x
    ensures x[..] == MacWith(e, key, k1[..], k2[..], msg)
  {
    var blocks, lastFull := CountBlocks(|msg|);
    for b := 0 to blocks
      invariant x[..] == Absorbed(e, key, k1[..], k2[..], msg, b)
      modifies x
    {
      Absorb(e, key, msg, b, blocks, lastFull, k1, k2, x);
    }
  }

  /** The tag of a message of any length, written into the caller's buffer. */
  method AesCmac(e: Cipher, key: Block, msg: Bytes, tag: array<bv8>, at: nat)
    requires at + 16 <= tag.Length
    modifies tag
    ensures tag[..] == Splice(old(tag[..]), at, Mac(e, key, msg))
  {
    var k1, k2 := new bv8[16], new bv8[16];
    Subkeys(e, key, k1, k2);
    var x := new bv8[16](_ => 0);
    assert x[..] == ZERO;
    AbsorbAll(e, key, msg, k1, k2, x);
    CopyInto(tag, at, x[..]);
  }

  lemma XorCommutes(a: Bytes, b: Bytes)
    requires |a| == |b|
    ensures Xor(a, b) == Xor(b, a)
  {
  }
}
