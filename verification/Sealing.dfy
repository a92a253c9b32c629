/** Counter-mode encryption and the sealed control-plane frame: encrypt, authenticate, and open
    again. */
module Sealing {
  import opened Common
  import opened Blocks
  import opened Cmac

  const MAX_PLAIN := 4096

  type Riv = b: Bytes | |b| == 8 witness seq(8, _ => 0)

  // --- integers as bytes ---

  /** The byte of a given value, built up bit by bit. */
  function ByteOf(m: nat): (b: bv8)
    requires m < 256
    ensures b as int == m
  {
    if m == 0 then 0
    else
      var high, low: bv8 := ByteOf(m / 2), if m % 2 == 1 then 1 else 0;
      HighBitClear(high);
      BitShiftedIn(high, low);
      (high << 1) | low
  }

  lemma HighBitClear(b: bv8)
    ensures b < 128 <==> b as int < 128
  {
  }

  lemma BitShiftedIn(b: bv8, bit: bv8)
    requires b < 128 && bit <= 1
    ensures ((b << 1) | bit) as int == 2 * (b as int) + (bit as int)
  {
  }

  function LowByte(n: nat): (b: bv8)
    ensures b as int == n % 256
  {
    ByteOf(n % 256)
  }

  function LittleEndian16(n: nat): (r: Bytes)
    ensures |r| == 2
  {
    [LowByte(n), LowByte(n / 0x100)]
  }

  function LittleEndian32(n: nat): (r: Bytes)
    ensures |r| == 4
  {
    [LowByte(n), LowByte(n / 0x100), LowByte(n / 0x1_0000), LowByte(n / 0x100_0000)]
  }

  function BigEndian32(n: nat): (r: Bytes)
    ensures |r| == 4
  {
    [LowByte(n / 0x100_0000), LowByte(n / 0x1_0000), LowByte(n / 0x100), LowByte(n)]
  }

  function BigEndian64(n: nat): (r: Bytes)
    ensures |r| == 8
  {
    BigEndian32(n / UINT32) + BigEndian32(n % UINT32)
  }

  function Read16(b: Bytes): nat
    requires |b| == 2
  {
    b[0] as int + 0x100 * (b[1] as int)
  }

  function Read32(b: Bytes): nat
    requires |b| == 4
  {
    b[0] as int + 0x100 * (b[1] as int) + 0x1_0000 * (b[2] as int) + 0x100_0000 * (b[3] as int)
  }

  lemma Recompose(n: nat)
    requires n < UINT32
    ensures n == n % 256 + 0x100 * (n / 0x100 % 256) + 0x1_0000 * (n / 0x1_0000 % 256)
                 + 0x100_0000 * (n / 0x100_0000 % 256)
  {
    var a, b, c := n / 0x100, n / 0x1_0000, n / 0x100_0000;
    assert a / 0x100 == b && b / 0x100 == c && c < 0x100;
  }

  lemma Read32ReadsBack(n: nat)
    requires n < UINT32
    ensures Read32(LittleEndian32(n)) == n
  {
    Recompose(n);
  }

  lemma Recompose16(n: nat)
    requires n < 0x1_0000
    ensures n == n % 256 + 0x100 * (n / 0x100 % 256)
  {
    assert n / 0x100 < 256;
  }

  lemma Read16ReadsBack(n: nat)
    requires n < 0x1_0000
    ensures Read16(LittleEndian16(n)) == n
  {
    Recompose16(n);
  }

  lemma BigEndianInjective(a: nat, b: nat)
    requires a < UINT32 && b < UINT32 && BigEndian32(a) == BigEndian32(b)
    ensures a == b
  {
    var x, y := BigEndian32(a), BigEndian32(b);
    var p, q := [x[3], x[2], x[1], x[0]], [y[3], y[2], y[1], y[0]];
    assert p == LittleEndian32(a) && q == LittleEndian32(b);
    Read32ReadsBack(a);
    Read32ReadsBack(b);
  }

  /** The number that bytes stand for, most significant first. */
  function BigEndianValue(b: Bytes): nat {
    if b == [] then 0 else 256 * BigEndianValue(b[..|b| - 1]) + b[|b| - 1] as int
  }

  lemma OneMoreByte(a: Bytes, x: bv8)
    ensures BigEndianValue(a + [x]) == 256 * BigEndianValue(a) + x as int
  {
    assert (a + [x])[..|a|] == a;
  }

  lemma FourMoreBytes(a: Bytes, n: nat)
    requires n < UINT32
    ensures BigEndianValue(a + BigEndian32(n)) == UINT32 * BigEndianValue(a) + n
  {
    var b := BigEndian32(n);
    assert a + b == a + [b[0]] + [b[1]] + [b[2]] + [b[3]];
    OneMoreByte(a, b[0]);
    OneMoreByte(a + [b[0]], b[1]);
    OneMoreByte(a + [b[0]] + [b[1]], b[2]);
    OneMoreByte(a + [b[0]] + [b[1]] + [b[2]], b[3]);
    Recompose(n);
    hide BigEndianValue;
  }

  /** The bytes of a number stand for it. */
  lemma BigEndianStandsFor(n: nat)
    requires n < UINT32
    ensures BigEndianValue(BigEndian32(n)) == n && BigEndianValue(BigEndian64(n)) == n
  {
    hide BigEndian32;
    assert [] + BigEndian32(n) == BigEndian32(n) && [] + BigEndian32(0) == BigEndian32(0);
    FourMoreBytes([], n);
    FourMoreBytes([], 0);
    FourMoreBytes(BigEndian32(0), n);
  }

  // --- counter mode, section 6.5 of NIST SP 800-38A ---

  /** The counter block: the nonce, four zero bytes, and the 32-bit counter. */
  function CounterBlock(riv: Riv, counter: nat): Block {
    riv + [0, 0, 0, 0] + BigEndian32(counter)
  }

  /** Its layout, byte by byte. */
  lemma CounterBlockLayout(riv: Riv, counter: nat)
    requires counter < UINT32
    ensures var b := CounterBlock(riv, counter);
            b[..8] == riv && BigEndianValue(b[8..16]) == counter
  {
    BigEndianStandsFor(counter);
    BigEndianStandsFor(0);
    FourMoreBytes([0, 0, 0, 0], counter);
    var zeros: Bytes := [0, 0, 0, 0];
    assert BigEndianValue(zeros) == 0 by {
      assert zeros[..3][..2][..1] == [0];
      assert BigEndianValue([0]) == 0;
    }
    assert CounterBlock(riv, counter)[8..16] == zeros + BigEndian32(counter);
  }

  function Keystream(e: Cipher, key: Block, riv: Riv, counter: nat): Block {
    e(key, CounterBlock(riv, counter))
  }

  function NextCounter(counter: nat): (next: nat)
    ensures next < UINT32
  {
    (counter + 1) % UINT32
  }

  /** The counter of block `j` of a message. */
  function CounterAt(first: nat, j: nat): (counter: nat)
    ensures counter < UINT32
  {
    (first + j) % UINT32
  }

  /** Each whole block is added to the enciphered counter, the last to its leading bytes. */
  function Ctr(e: Cipher, key: Block, riv: Riv, counter: nat, text: Bytes): (r: Bytes)
    ensures |r| == |text|
    decreases |text|
  {
    if |text| == 0 then []
    else if |text| <= 16 then Xor(text, Keystream(e, key, riv, counter)[..|text|])
    else Xor(text[..16], Keystream(e, key, riv, counter)) + Ctr(e, key, riv, NextCounter(counter), text[16..])
  }

  /** Encrypting twice is doing nothing. */
  lemma {:induction false} CtrInvolution(e: Cipher, key: Block, riv: Riv, counter: nat, text: Bytes)
    ensures Ctr(e, key, riv, counter, Ctr(e, key, riv, counter, text)) == text
    decreases |text|
  {
    var once := Ctr(e, key, riv, counter, text);
    var ks := Keystream(e, key, riv, counter);
    if |text| == 0 {
    } else if |text| <= 16 {
      XorCancels(text, ks[..|text|]);
    } else {
      assert once[..16] == Xor(text[..16], ks);
      assert once[16..] == Ctr(e, key, riv, NextCounter(counter), text[16..]);
      XorCancels(text[..16], ks);
      CtrInvolution(e, key, riv, NextCounter(counter), text[16..]);
      assert text[..16] + text[16..] == text;
    }
  }

  /** As the standard demands, no counter block repeats within one message, across the wrap too. */
  lemma CounterBlocksDistinct(riv: Riv, counter: nat, i: nat, j: nat)
    requires i < j < UINT32
    ensures CounterBlock(riv, CounterAt(counter, i)) != CounterBlock(riv, CounterAt(counter, j))
  {
    var a, b := CounterAt(counter, i), CounterAt(counter, j);
    assert a != b;
    if CounterBlock(riv, a) == CounterBlock(riv, b) {
      assert CounterBlock(riv, a)[12..] == BigEndian32(a);
      assert CounterBlock(riv, b)[12..] == BigEndian32(b);
      BigEndianInjective(a, b);
      assert false;
    }
  }

  function ChunkAt(input: Bytes, off: nat): (chunk: nat)
    requires off < |input|
    ensures 0 < chunk <= 16 && off + chunk <= |input|
  {
    if |input| - off > 16 then 16 else |input| - off
  }

  /** One pass of the loop: the next chunk under its keystream block. */
  ghost function Piece(e: Cipher, key: Block, riv: Riv, counter: nat, input: Bytes, off: nat): (r: Bytes)
    requires off < |input|
    ensures |r| == ChunkAt(input, off)
  {
    Xor(input[off..off + ChunkAt(input, off)], Keystream(e, key, riv, counter)[..ChunkAt(input, off)])
  }

  lemma CtrAdvance(e: Cipher, key: Block, riv: Riv, counter: nat, input: Bytes, off: nat, done: Bytes)
    requires off < |input|
    ensures done + Ctr(e, key, riv, counter, input[off..]) ==
            done + Piece(e, key, riv, counter, input, off)
            + Ctr(e, key, riv, NextCounter(counter), input[off + ChunkAt(input, off)..])
  {
    var chunk, rest := ChunkAt(input, off), input[off..];
    assert rest[..chunk] == input[off..off + chunk];
    assert rest[chunk..] == input[off + chunk..];
    if |rest| <= 16 {
      assert rest[..chunk] == rest;
    } else {
      assert Keystream(e, key, riv, counter)[..16] == Keystream(e, key, riv, counter);
    }
  }

  method XorChunk(input: Bytes, ks: Bytes, out: array<bv8>, at: nat)
    requires |input| <= |ks| && at + |input| <= out.Length
    modifies out
    ensures forall j :: 0 <= j < out.Length ==>
              out[j] == if at <= j < at + |input| then Xor(input, ks[..|input|])[j - at] else old(out[j])
  {
    for i := 0 to |input|
      invariant forall j :: 0 <= j < out.Length ==>
                  out[j] == if at <= j < at + i then input[j - at] ^ ks[j - at] else old(out[j])
    {
      out[at + i] := input[i] ^ ks[i];
    }
  }

  /** The loop's progress: what is written so far, and the stretch of buffer it fills. */
  ghost predicate Filled(was: Bytes, now: Bytes, at: nat, done: Bytes) {
    && |was| == |now| && at + |done| <= |was|
    && forall j :: 0 <= j < |now| ==> now[j] == if at <= j < at + |done| then done[j - at] else was[j]
  }

  method CtrChunk(e: Cipher, key: Block, riv: Riv, counter: nat, input: Bytes, off: nat, out: array<bv8>, at: nat,
                  ghost was: Bytes, ghost done: Bytes)
    returns (chunk: nat)
    requires off < |input| && at + |input| <= out.Length
    requires |done| == off && Filled(was, out[..], at, done)
    modifies out
    ensures chunk == ChunkAt(input, off)
    ensures Filled(was, out[..], at, done + Piece(e, key, riv, counter, input, off))
  {
    var ks := e(key, CounterBlock(riv, counter));
    chunk := |input| - off;
    if chunk > 16 {
      chunk := 16;
    }
    XorChunk(input[off..off + chunk], ks, out, at + off);
  }

  /** The counter loop over a message, into the caller's buffer. */
  method AesCtrXor(e: Cipher, key: Block, riv: Riv, first: nat, input: Bytes, out: array<bv8>, at: nat)
    requires first < UINT32 && at + |input| <= out.Length
    modifies out
    ensures out[..] == Splice(old(out[..]), at, Ctr(e, key, riv, first, input))
  {
    hide CounterAt, NextCounter;
    var off, blk := 0, 0;
    ghost var counter, done: Bytes := first, [];
    CounterStep(first, 0);
    while off < |input|
      invariant 0 <= off <= |input| && |done| == off && 0 <= blk < UINT32
      invariant counter == CounterAt(first, blk)
      invariant done + Ctr(e, key, riv, counter, input[off..]) == Ctr(e, key, riv, first, input)
      invariant Filled(old(out[..]), out[..], at, done)
    {
      CtrAdvance(e, key, riv, counter, input, off, done);
      var chunk := CtrChunk(e, key, riv, CounterAt(first, blk), input, off, out, at, old(out[..]), done);
      done := done + Piece(e, key, riv, counter, input, off);
      off := off + chunk;
      CounterStep(first, blk);
      blk := (blk + 1) % UINT32;
      counter := NextCounter(counter);
    }
    assert done == Ctr(e, key, riv, first, input);
    SpliceByIndex(old(out[..]), out[..], at, done);
  }

  lemma CounterStep(first: nat, blk: nat)
    ensures CounterAt(first, (blk + 1) % UINT32) == NextCounter(CounterAt(first, blk))
    ensures first < UINT32 ==> CounterAt(first, 0) == first
  {
    CounterAtRest(blk + 1, first);
    CounterAtRest(first + blk, 1);
  }

  lemma CounterAtRest(a: nat, j: nat)
    ensures CounterAt(a % UINT32, j) == CounterAt(a, j) == CounterAt(j, a % UINT32)
  {
    var q, r := a / UINT32, a % UINT32;
    ModShift(q, r + j);
    assert UINT32 * q + (r + j) == a + j;
  }

  lemma ModShift(q: nat, x: nat)
    ensures (UINT32 * q + x) % UINT32 == x % UINT32
  {
    assert UINT32 * q + x == UINT32 * (q + x / UINT32) + x % UINT32;
  }

  // --- the frame header ---

  function SizeField(bodyLen: nat): nat {
    (16 + bodyLen - 4) % 0x1_0000
  }

  /** Sixteen bytes in front of every frame; the size counts from byte four. */
  function Header(kind: nat, sub: nat, aux: nat, counter: nat, bodyLen: nat): (r: Bytes)
    ensures |r| == 16
  {
    [0, 0] + LittleEndian16(SizeField(bodyLen)) + LittleEndian32(kind)
    + LittleEndian16(sub) + LittleEndian16(aux) + LittleEndian32(counter)
  }

  datatype HeaderFields = HeaderFields(size: nat, kind: nat, sub: nat, aux: nat, counter: nat)

  function ReadHeader(b: Bytes): HeaderFields
    requires |b| >= 16
  {
    HeaderFields(Read16(b[2..4]), Read32(b[4..8]), Read16(b[8..10]), Read16(b[10..12]), Read32(b[12..16]))
  }

  /** Every header field reads back. */
  lemma HeaderReadsBack(kind: nat, sub: nat, aux: nat, counter: nat, bodyLen: nat)
    requires kind < UINT32 && counter < UINT32 && sub < 0x1_0000 && aux < 0x1_0000
    ensures ReadHeader(Header(kind, sub, aux, counter, bodyLen)) ==
            HeaderFields(SizeField(bodyLen), kind, sub, aux, counter)
  {
    var h := Header(kind, sub, aux, counter, bodyLen);
    var a, b, c, d, f := LittleEndian16(SizeField(bodyLen)), LittleEndian32(kind), LittleEndian16(sub),
                         LittleEndian16(aux), LittleEndian32(counter);
    assert h == [0, 0] + a + (b + c + d + f) && h == ([0, 0] + a) + b + (c + d + f);
    assert h == ([0, 0] + a + b) + c + (d + f) && h == ([0, 0] + a + b + c) + d + f;
    assert h == ([0, 0] + a + b + c + d) + f + [];
    Between([0, 0], a, b + c + d + f);
    Between([0, 0] + a, b, c + d + f);
    Between([0, 0] + a + b, c, d + f);
    Between([0, 0] + a + b + c, d, f);
    Between([0, 0] + a + b + c + d, f, []);
    Read16ReadsBack(SizeField(bodyLen));
    Read32ReadsBack(kind);
    Read16ReadsBack(sub);
    Read16ReadsBack(aux);
    Read32ReadsBack(counter);
  }

  /** The size read back counts what follows it, exactly in frames that 16 bits can count. */
  lemma SizeCountsRestIff(kind: nat, sub: nat, aux: nat, counter: nat, body: Bytes)
    requires kind < UINT32 && counter < UINT32 && sub < 0x1_0000 && aux < 0x1_0000
    ensures var frame := Header(kind, sub, aux, counter, |body|) + body;
            ReadHeader(frame).size == |frame[4..]| <==> |frame[4..]| < 0x1_0000
  {
    hide Header, Read16, Read32;
    var h := Header(kind, sub, aux, counter, |body|);
    HeaderReadsBack(kind, sub, aux, counter, |body|);
    assert (h + body)[2..4] == h[2..4];
  }

  // --- the sealed body ---

  const CP_KEY_WHITEN: seq<bv8> := [
    0x26, 0xab, 0xee, 0x38, 0x93, 0xd0, 0xc4, 0x32,
    0x61, 0x43, 0xa4, 0xbf, 0x5b, 0x45, 0xd6, 0xec]

  function SessionKey(raw: Block): Block {
    Xor(raw, CP_KEY_WHITEN)
  }

  /** The authenticated bytes: the marked nonce, the sequence number as 64 bits, the ciphertext. */
  function MacInput(riv: Riv, counter: nat, ct: Bytes): Bytes {
    [riv[0] ^ 0x80] + riv[1..] + BigEndian64(counter) + ct
  }

  /** Byte by byte: the nonce with its first byte marked, the number in eight bytes, the ciphertext. */
  ghost predicate LaidOut(m: Bytes, riv: Riv, counter: nat, ct: Bytes) {
    && |m| == 16 + |ct|
    && m[0] == riv[0] ^ 0x80 && m[1..8] == riv[1..8]
    && BigEndianValue(m[8..16]) == counter
    && m[16..] == ct
  }

  lemma MacInputIff(m: Bytes, riv: Riv, counter: nat, ct: Bytes)
    requires counter < UINT32
    ensures m == MacInput(riv, counter, ct) <==> LaidOut(m, riv, counter, ct)
  {
    BigEndianStandsFor(counter);
    var n := MacInput(riv, counter, ct);
    assert n[8..16] == BigEndian64(counter) && n[16..] == ct && n[1..8] == riv[1..8];
    if LaidOut(m, riv, counter, ct) {
      SameValueSameBytes(m[8..16], n[8..16]);
      assert m == [m[0]] + m[1..8] + m[8..16] + m[16..];
      assert n == [n[0]] + n[1..8] + n[8..16] + n[16..];
    }
  }

  lemma {:induction false} SameValueSameBytes(a: Bytes, b: Bytes)
    requires |a| == |b| && BigEndianValue(a) == BigEndianValue(b)
    ensures a == b
  {
    if a != [] {
      var x, y := a[|a| - 1], b[|b| - 1];
      SameDigits(BigEndianValue(a[..|a| - 1]), BigEndianValue(b[..|b| - 1]), x, y);
      SameValueSameBytes(a[..|a| - 1], b[..|b| - 1]);
      hide BigEndianValue;
      assert a == a[..|a| - 1] + [x] && b == b[..|b| - 1] + [y];
    }
  }

  lemma SameDigits(p: nat, q: nat, x: bv8, y: bv8)
    requires 256 * p + x as int == 256 * q + y as int
    ensures p == q && x == y
  {
    assert x as int == y as int;
  }

  /** So equal authenticated bytes are of one nonce, one number and one ciphertext. */
  lemma MacInputInjective(riv: Riv, counter: nat, ct: Bytes, riv': Riv, counter': nat, ct': Bytes)
    requires counter < UINT32 && counter' < UINT32
    requires MacInput(riv, counter, ct) == MacInput(riv', counter', ct')
    ensures riv == riv' && counter == counter' && ct == ct'
  {
    MacInputIff(MacInput(riv, counter, ct), riv, counter, ct);
    MacInputIff(MacInput(riv', counter', ct'), riv', counter', ct');
    MarkCancels(riv[0], riv'[0]);
    hide MacInput;
    var m, m' := MacInput(riv, counter, ct), MacInput(riv', counter', ct');
    forall i | 0 <= i < 8
      ensures riv[i] == riv'[i]
    {
      if i > 0 {
        assert m[1..8][i - 1] == riv[1..8][i - 1] && m'[1..8][i - 1] == riv'[1..8][i - 1];
      }
    }
  }

  lemma MarkCancels(a: bv8, b: bv8)
    requires a ^ 0x80 == b ^ 0x80
    ensures a == b
  {
  }

  function Tag(e: Cipher, key: Block, riv: Riv, counter: nat, ct: Bytes): Block {
    Mac(e, key, MacInput(riv, counter, ct))
  }

  function SealedBody(e: Cipher, key: Block, riv: Riv, counter: nat, plain: Bytes): (r: Bytes)
    ensures |r| == |plain| + 16
  {
    Ctr(e, key, riv, counter, plain) + Tag(e, key, riv, counter, Ctr(e, key, riv, counter, plain))
  }

  /** The body ends in the code of what precedes it. */
  predicate Authentic(e: Cipher, key: Block, riv: Riv, counter: nat, body: Bytes) {
    |body| >= 16 && body[|body| - 16..] == Tag(e, key, riv, counter, body[..|body| - 16])
  }

  /** That is the code of the bytes laid out so, whoever put them together. */
  lemma AuthenticIff(e: Cipher, key: Block, riv: Riv, counter: nat, body: Bytes, m: Bytes)
    requires counter < UINT32 && |body| >= 16 && LaidOut(m, riv, counter, body[..|body| - 16])
    ensures Authentic(e, key, riv, counter, body) <==> body[|body| - 16..] == Mac(e, key, m)
  {
    MacInputIff(m, riv, counter, body[..|body| - 16]);
    hide MacInput, Mac;
  }

  predicate FitsOpening(body: Bytes, capacity: nat) {
    |body| >= 16 && |body| - 16 <= MAX_PLAIN && |body| - 16 <= capacity
  }

  function Opened(e: Cipher, key: Block, riv: Riv, counter: nat, body: Bytes, capacity: nat): Option<Bytes> {
    if FitsOpening(body, capacity) && Authentic(e, key, riv, counter, body)
    then Some(Ctr(e, key, riv, counter, body[..|body| - 16]))
    else None
  }

  /** A body is opened exactly when it is a tag behind at most 4096 bytes that fit, and authenticates. */
  lemma OpenedIff(e: Cipher, key: Block, riv: Riv, counter: nat, body: Bytes, capacity: nat)
    ensures Opened(e, key, riv, counter, body, capacity).Some? <==>
            && 16 <= |body| <= 4112 && |body| - 16 <= capacity && Authentic(e, key, riv, counter, body)
  {
  }

  /** Opening undoes sealing. */
  lemma OpenUndoesSeal(e: Cipher, raw: Block, riv: Riv, counter: nat, plain: Bytes, capacity: nat)
    requires |plain| <= 4096 && |plain| <= capacity
    ensures Opened(e, SessionKey(raw), riv, counter,
                   SealedBody(e, SessionKey(raw), riv, counter, plain), capacity) == Some(plain)
  {
    var key := SessionKey(raw);
    var body := SealedBody(e, key, riv, counter, plain);
    assert body[..|body| - 16] == Ctr(e, key, riv, counter, plain);
    assert body[|body| - 16..] == Tag(e, key, riv, counter, body[..|body| - 16]);
    CtrInvolution(e, key, riv, counter, plain);
  }

  /** And sealing undoes opening: a body that opens is the only body its text seals to, so under
      one nonce and sequence number texts and accepted bodies correspond one to one. */
  lemma SealUndoesOpen(e: Cipher, key: Block, riv: Riv, counter: nat, body: Bytes, capacity: nat)
    requires Opened(e, key, riv, counter, body, capacity).Some?
    ensures SealedBody(e, key, riv, counter, Opened(e, key, riv, counter, body, capacity).value) == body
  {
    hide Ctr, Tag;
    CtrInvolution(e, key, riv, counter, body[..|body| - 16]);
    assert body[..|body| - 16] + body[|body| - 16..] == body;
  }

  /** A whole frame on the wire. */
  function SealedFrame(e: Cipher, key: Block, riv: Riv, sub: nat, aux: nat, counter: nat, plain: Bytes): (r: Bytes)
    ensures |r| == |plain| + 32
  {
    Header(4, sub, aux, counter, |plain| + 16) + SealedBody(e, key, riv, counter, plain)
  }

  /** Read back, it is of type 4, counts itself, and carries its sub, aux and number; its body opens to
      the text under that number. */
  lemma FrameReadsBack(e: Cipher, raw: Block, riv: Riv, sub: nat, aux: nat, counter: nat, plain: Bytes)
    requires counter < UINT32 && sub < 0x1_0000 && aux < 0x1_0000 && |plain| <= 4096
    ensures var frame := SealedFrame(e, SessionKey(raw), riv, sub, aux, counter, plain);
            && ReadHeader(frame) == HeaderFields(|frame| - 4, 4, sub, aux, counter)
            && frame[16..16 + |plain|] == Ctr(e, SessionKey(raw), riv, counter, plain)
            && Opened(e, SessionKey(raw), riv, ReadHeader(frame).counter, frame[16..], |plain|) == Some(plain)
  {
    hide Ctr, Tag, Header, Opened, SessionKey, Read16, Read32;
    var key := SessionKey(raw);
    var frame, h := SealedFrame(e, key, riv, sub, aux, counter, plain), Header(4, sub, aux, counter, |plain| + 16);
    HeaderReadsBack(4, sub, aux, counter, |plain| + 16);
    assert frame[16..] == SealedBody(e, key, riv, counter, plain);
    assert frame[2..4] == h[2..4] && frame[4..8] == h[4..8] && frame[8..10] == h[8..10];
    assert frame[10..12] == h[10..12] && frame[12..16] == h[12..16];
    OpenUndoesSeal(e, raw, riv, counter, plain, |plain|);
  }

  // --- the operations on buffers ---

  method SessionKeyInto(raw: Block, live: array<bv8>)
    requires live.Length == 16
    modifies live
    ensures live[..] == SessionKey(raw)
  {
    for i := 0 to 16
      invariant forall j :: 0 <= j < i ==> live[j] == raw[j] ^ CP_KEY_WHITEN[j]
    {
      live[i] := raw[i] ^ CP_KEY_WHITEN[i];
    }
  }

  /** The authenticated bytes, assembled in a scratch buffer of fixed size. */
  method BuildMacInput(riv: Riv, counter: nat, ct: Bytes) returns (input: Bytes)
    requires counter < UINT32 && |ct| <= MAX_PLAIN
    ensures LaidOut(input, riv, counter, ct) && input == MacInput(riv, counter, ct)
  {
    MacInputIff(MacInput(riv, counter, ct), riv, counter, ct);
    var nonce := riv[0 := riv[0] ^ 0x80];
    var macbuf := new bv8[8 + 8 + MAX_PLAIN](_ => 0);
    CopyInto(macbuf, 0, nonce);
    CopyInto(macbuf, 8, BigEndian64(counter));
    CopyInto(macbuf, 16, ct);
    input := macbuf[..16 + |ct|];
    assert input == nonce + BigEndian64(counter) + ct;
    assert nonce == [riv[0] ^ 0x80] + riv[1..];
  }

  /** The tag of `ct` put behind it. */
  method AppendTag(e: Cipher, key: Block, riv: Riv, counter: nat, ct: Bytes, out: array<bv8>, at: nat)
    requires counter < UINT32 && |ct| <= MAX_PLAIN && at + 16 <= out.Length
    modifies out
    ensures out[..] == Splice(old(out[..]), at, Tag(e, key, riv, counter, ct))
  {
    var input := BuildMacInput(riv, counter, ct);
    AesCmac(e, key, input, out, at);
  }

  /** Header, ciphertext and tag, one after the other. */
  method SealInto(e: Cipher, out: array<bv8>, key: Block, riv: Riv, wireSub: nat, aux: nat, wireSeq: nat, text: Bytes)
    requires wireSeq < UINT32 && |text| <= MAX_PLAIN && out.Length >= 32 + |text|
    modifies out
    ensures out[..] == Splice(old(out[..]), 0, SealedFrame(e, key, riv, wireSub, aux, wireSeq, text))
  {
    hide Tag, Header, Ctr;
    ghost var was := out[..];
    ghost var h, ct := Header(4, wireSub, aux, wireSeq, |text| + 16), Ctr(e, key, riv, wireSeq, text);
    CopyInto(out, 0, Header(4, wireSub, aux, wireSeq, |text| + 16));
    AesCtrXor(e, key, riv, wireSeq, text, out, 16);
    SpliceTwice(was, h, ct);
    assert out[..] == Splice(was, 0, h + ct);
    assert out[16..16 + |text|] == ct;
    AppendTag(e, key, riv, wireSeq, out[16..16 + |text|], out, 16 + |text|);
    SpliceTwice(was, h + ct, Tag(e, key, riv, wireSeq, ct));
    assert h + ct + Tag(e, key, riv, wireSeq, ct) == SealedFrame(e, key, riv, wireSub, aux, wireSeq, text);
  }

  lemma SpliceTwice(was: Bytes, a: Bytes, b: Bytes)
    requires |a| + |b| <= |was|
    ensures Splice(Splice(was, 0, a), |a|, b) == Splice(was, 0, a + b)
  {
  }

  function Text(plain: Option<Bytes>): Bytes {
    if plain.Some? then plain.value else []
  }

  /** A sealed frame in the caller's buffer, or nothing at all: rejected frames leave it untouched. */
  method SealLive(e: Cipher, out: array?<bv8>, key: Option<Block>, riv: Option<Riv>, wireSub: nat, aux: nat,
                  wireSeq: nat, plain: Option<Bytes>, plainLen: nat) returns (n: nat)
    requires wireSeq < UINT32 && (plain.Some? ==> |plain.value| == plainLen)
    modifies out
    ensures n == 0 <==> || out == null || key.None? || riv.None? || (plain.None? && plainLen > 0)
                        || plainLen > 4096 || out.Length < 32 + plainLen
    ensures n == 0 && out != null ==> out[..] == old(out[..])
    ensures n > 0 ==>
              && n == 32 + plainLen
              && out[..] == Splice(old(out[..]), 0,
                                   SealedFrame(e, key.value, riv.value, wireSub, aux, wireSeq, Text(plain)))
  {
    if out == null || key.None? || riv.None? || (plain.None? && plainLen > 0)
       || plainLen > MAX_PLAIN || out.Length < 32 || plainLen > out.Length - 32 {
      return 0;
    }
    SealInto(e, out, key.value, riv.value, wireSub, aux, wireSeq, Text(plain));
    n := 16 + (plainLen + 16);
  }

  /** Compares tags without stopping early. */
  method TagsDiffer(tag: Bytes, sent: Bytes) returns (differ: bool)
    requires |tag| == |sent| == 16
    ensures differ <==> tag != sent
  {
    var diff: bv8 := 0;
    for i := 0 to 16
      invariant diff == 0 <==> tag[..i] == sent[..i]
    {
      DiffStep(diff, tag[i], sent[i]);
      assert tag[..i + 1] == tag[..i] + [tag[i]] && sent[..i + 1] == sent[..i] + [sent[i]];
      diff := diff | (tag[i] ^ sent[i]);
    }
    assert tag[..16] == tag && sent[..16] == sent;
    return diff != 0;
  }

  lemma DiffStep(diff: bv8, a: bv8, b: bv8)
    ensures diff | (a ^ b) == 0 <==> diff == 0 && a == b
  {
  }

  /** The text of a body that authenticates, in the caller's buffer; any other body is refused and
      leaves it untouched. */
  method OpenCp(e: Cipher, raw: Option<Block>, riv: Option<Riv>, counter: nat, body: Option<Bytes>, pt: array?<bv8>)
    returns (n: int)
    requires counter < UINT32
    modifies pt
    ensures n >= 0 <==> && raw.Some? && riv.Some? && body.Some? && pt != null
                        && Opened(e, SessionKey(raw.value), riv.value, counter, body.value, pt.Length).Some?
    ensures n < 0 ==> n == -1 && (pt != null ==> pt[..] == old(pt[..]))
    ensures n >= 0 ==>
              && pt[..] == Splice(old(pt[..]), 0,
                                  Opened(e, SessionKey(raw.value), riv.value, counter, body.value, pt.Length).value)
              && n == |Opened(e, SessionKey(raw.value), riv.value, counter, body.value, pt.Length).value|
  {
    hide Tag, Ctr;
    if raw.None? || riv.None? || body.None? || pt == null || |body.value| < 16
       || |body.value| - 16 > MAX_PLAIN || |body.value| - 16 > pt.Length {
      return -1;
    }
    var key := new bv8[16];
    SessionKeyInto(raw.value, key);
    var ctLen := |body.value| - 16;
    var tag := new bv8[16];
    AppendTag(e, key[..], riv.value, counter, body.value[..ctLen], tag, 0);
    assert tag[..] == Tag(e, key[..], riv.value, counter, body.value[..ctLen]);
    var differ := TagsDiffer(tag[..], body.value[ctLen..]);
    if differ {
      return -1;
    }
    AesCtrXor(e, key[..], riv.value, counter, body.value[..ctLen], pt, 0);
    return ctLen;
  }

  function AuxForId(id: nat): nat {
    match id
    case 0x14 => 0x0a
    case 0x15 => 0x09
    case 0x16 => 0x08
    case 0x48 => 0x06
    case _ => 0
  }

  /** Seals a control-plane message under the whitened session key. */
  method SealCp(e: Cipher, out: array?<bv8>, raw: Option<Block>, riv: Option<Riv>, innerId: nat,
                wireSeq: nat, inner: Option<Bytes>, innerLen: nat) returns (n: nat)
    requires wireSeq < UINT32 && (inner.Some? ==> |inner.value| == innerLen)
    modifies out
    ensures n == 0 <==> || out == null || raw.None? || riv.None? || (inner.None? && innerLen > 0)
                        || innerLen > 4096 || out.Length < 32 + innerLen
    ensures n == 0 && out != null ==> out[..] == old(out[..])
    ensures n > 0 ==>
              && n == 32 + innerLen
              && out[..] == Splice(old(out[..]), 0, SealedFrame(e, SessionKey(raw.value), riv.value, 0x24,
                                                                AuxForId(innerId), wireSeq, Text(inner)))
  {
    hide SealedFrame;
    if raw.None? {
      return 0;
    }
    var key := new bv8[16];
    SessionKeyInto(raw.value, key);
    n := SealLive(e, out, Some(key[..]), riv, 0x24, AuxForId(innerId), wireSeq, inner, innerLen);
  }

  /** The whole channel: what one end seals, the other opens, byte for byte. */
  method SealThenOpen(e: Cipher, raw: Block, riv: Riv, innerId: nat, counter: nat, inner: Bytes,
                      out: array<bv8>, pt: array<bv8>)
    returns (n: int)
    requires counter < UINT32 && |inner| <= 4096 && out != pt
    requires out.Length >= 32 + |inner| && pt.Length >= |inner|
    modifies out, pt
    ensures n == |inner| && pt[..|inner|] == inner
  {
    var total := SealCp(e, out, Some(raw), Some(riv), innerId, counter, Some(inner), |inner|);
    var body := out[16..total];
    ghost var frame := SealedFrame(e, SessionKey(raw), riv, 0x24, AuxForId(innerId), counter, inner);
    assert body == frame[16..] == SealedBody(e, SessionKey(raw), riv, counter, inner);
    OpenUndoesSeal(e, raw, riv, counter, inner, pt.Length);
    n := OpenCp(e, Some(raw), Some(riv), counter, Some(body), pt);
  }
}
