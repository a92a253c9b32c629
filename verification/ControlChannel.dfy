/** A session of sealed control messages: how far each moves the sequence number, and exactly when the
    counter blocks of a session are all different. */
module ControlChannel {
  import opened Common
  import opened Blocks
  import opened Cmac
  import opened Sealing

  // --- which counter blocks a message is enciphered under ---

  function BlocksOf(len: nat): (n: nat)
    ensures len <= 16 * n < len + 16
  {
    (len + 15) / 16
  }

  /** The block of the text at one place, and of any text as long. */
  function Chunk(text: Bytes, j: nat): (c: Bytes)
    requires j < BlocksOf(|text|)
    ensures 0 < |c| <= 16
  {
    text[16 * j..16 * j + ChunkAt(text, 16 * j)]
  }

  lemma ChunkOfRest(text: Bytes, j: nat)
    requires 0 < j < BlocksOf(|text|)
    ensures Chunk(text, j) == Chunk(text[16..], j - 1)
  {
  }

  /** Block by block: what is enciphered at one place depends on that place's counter block alone. */
  lemma {:induction false} CtrAt(e: Cipher, key: Block, riv: Riv, counter: nat, text: Bytes, j: nat)
    requires j < BlocksOf(|text|) && counter < UINT32
    ensures Chunk(Ctr(e, key, riv, counter, text), j) ==
            Xor(Chunk(text, j), Keystream(e, key, riv, CounterAt(counter, j))[..|Chunk(text, j)|])
    decreases j
  {
    var all, ks := Ctr(e, key, riv, counter, text), Keystream(e, key, riv, counter);
    hide Keystream, Xor, CounterAt, NextCounter;
    if j == 0 {
      CounterStep(counter, 0);
      FirstChunk(e, key, riv, counter, text);
    } else {
      CtrAt(e, key, riv, NextCounter(counter), text[16..], j - 1);
      ChunkOfRest(text, j);
      ChunkOfRest(all, j);
      assert all[16..] == Ctr(e, key, riv, NextCounter(counter), text[16..]);
      CounterAtNext(counter, j);
    }
  }

  lemma CounterAtNext(counter: nat, j: nat)
    requires j > 0
    ensures CounterAt(NextCounter(counter), j - 1) == CounterAt(counter, j)
  {
    CounterAtRest(counter + 1, j - 1);
  }

  lemma FirstChunk(e: Cipher, key: Block, riv: Riv, counter: nat, text: Bytes)
    requires |text| > 0
    ensures Chunk(Ctr(e, key, riv, counter, text), 0) ==
            Xor(Chunk(text, 0), Keystream(e, key, riv, counter)[..|Chunk(text, 0)|])
  {
    var all, ks := Ctr(e, key, riv, counter, text), Keystream(e, key, riv, counter);
    if |text| <= 16 {
      assert Chunk(text, 0) == text && Chunk(all, 0) == all;
    } else {
      assert all[..16] == Xor(text[..16], ks) && ks[..16] == ks;
    }
  }

  // --- a session ---

  /** A message that was sealed, and whether its write went through. One that is not sealed leaves no
      trace. */
  datatype Message = Message(len: nat, written: bool)

  /** The sequence number starts at zero and moves only behind a message that was written. */
  function WireSeq(ms: seq<Message>, n: nat): (s: nat)
    requires n <= |ms|
    ensures s < UINT32
  {
    if n == 0 then 0
    else if ms[n - 1].written then (WireSeq(ms, n - 1) + BlocksOf(ms[n - 1].len)) % UINT32
    else WireSeq(ms, n - 1)
  }

  /** Blocks enciphered by the first `n`. */
  function Spent(ms: seq<Message>, n: nat): nat
    requires n <= |ms|
  {
    if n == 0 then 0 else Spent(ms, n - 1) + BlocksOf(ms[n - 1].len)
  }

  /** Block `j` of message `m`. */
  predicate InSession(ms: seq<Message>, m: nat, j: nat) {
    m < |ms| && j < BlocksOf(ms[m].len)
  }

  function CounterBlockAt(riv: Riv, ms: seq<Message>, m: nat, j: nat): Block
    requires InSession(ms, m, j)
  {
    CounterBlock(riv, CounterAt(WireSeq(ms, m), j))
  }

  /** No two blocks of the session, of one message or two, are enciphered under one counter block. */
  ghost predicate AllDistinct(riv: Riv, ms: seq<Message>) {
    forall m: nat, j: nat, p: nat, q: nat ::
      InSession(ms, m, j) && InSession(ms, p, q) && (m, j) != (p, q) ==>
        CounterBlockAt(riv, ms, m, j) != CounterBlockAt(riv, ms, p, q)
  }

  predicate Lost(ms: seq<Message>, m: nat) {
    m < |ms| && !ms[m].written && ms[m].len > 0
  }

  /** Nothing but empty messages behind one that was enciphered and not written. */
  predicate LossesLast(ms: seq<Message>) {
    forall m, p :: 0 <= m < p < |ms| && Lost(ms, m) ==> ms[p].len == 0
  }

  /** With no loss behind it a message starts where the blocks before it end. */
  lemma {:induction false} SeqCountsSpent(ms: seq<Message>, n: nat)
    requires n <= |ms| && forall m: nat :: m < n ==> !Lost(ms, m)
    ensures WireSeq(ms, n) == Spent(ms, n) % UINT32
  {
    if n > 0 {
      SeqCountsSpent(ms, n - 1);
      assert !Lost(ms, n - 1);
      CounterAtRest(Spent(ms, n - 1), BlocksOf(ms[n - 1].len));
    }
  }

  lemma {:induction false} SpentGrows(ms: seq<Message>, m: nat, n: nat)
    requires m <= n <= |ms|
    ensures Spent(ms, m) <= Spent(ms, n)
    ensures m < n ==> Spent(ms, m) + BlocksOf(ms[m].len) <= Spent(ms, n)
  {
    if m < n {
      SpentGrows(ms, m, n - 1);
    }
  }

  lemma DifferentCounters(riv: Riv, a: nat, b: nat)
    requires a < UINT32 && b < UINT32 && a != b
    ensures CounterBlock(riv, a) != CounterBlock(riv, b)
  {
    hide CounterBlock;
    if a < b {
      CounterBlocksDistinct(riv, 0, a, b);
    } else {
      CounterBlocksDistinct(riv, 0, b, a);
    }
  }

  /** A block is enciphered under its place in the session. */
  lemma PlaceIsCounter(ms: seq<Message>, m: nat, j: nat)
    requires InSession(ms, m, j) && LossesLast(ms)
    ensures CounterAt(WireSeq(ms, m), j) == CounterAt(0, Spent(ms, m) + j) && Spent(ms, m) + j < Spent(ms, |ms|)
  {
    forall p: nat | p < m
      ensures !Lost(ms, p)
    {
      assert ms[m].len > 0;
    }
    SeqCountsSpent(ms, m);
    SpentGrows(ms, m, |ms|);
    hide WireSeq, LossesLast;
    CounterAtRest(Spent(ms, m), j);
  }

  lemma CounterAtPlace(t: nat)
    ensures t < UINT32 ==> CounterAt(0, t) == t
    ensures CounterAt(0, UINT32) == CounterAt(0, 0)
  {
  }

  lemma PlacesDiffer(ms: seq<Message>, m: nat, j: nat, p: nat, q: nat)
    requires InSession(ms, m, j) && InSession(ms, p, q) && (m, j) != (p, q)
    ensures Spent(ms, m) + j != Spent(ms, p) + q
  {
    if m < p {
      SpentGrows(ms, m, p);
    } else if p < m {
      SpentGrows(ms, p, m);
    }
  }

  /** Behind a loss the sequence number stands still until the next message that has any text. */
  lemma {:induction false} LossRepeats(riv: Riv, ms: seq<Message>, m: nat, p: nat)
    requires m < p < |ms| && Lost(ms, m) && ms[p].len > 0
    ensures !AllDistinct(riv, ms)
    decreases p
  {
    if q :| m < q < p && ms[q].len > 0 {
      LossRepeats(riv, ms, m, q);
    } else {
      StandsStill(ms, m, p);
      assert InSession(ms, m, 0) && InSession(ms, p, 0);
      assert CounterBlockAt(riv, ms, m, 0) == CounterBlockAt(riv, ms, p, 0);
    }
  }

  lemma {:induction false} StandsStill(ms: seq<Message>, m: nat, p: nat)
    requires m < p <= |ms| && !ms[m].written
    requires forall q: nat :: m < q < p ==> ms[q].len == 0
    ensures WireSeq(ms, p) == WireSeq(ms, m)
    decreases p
  {
    if p > m + 1 {
      StandsStill(ms, m, p - 1);
      assert ms[p - 1].len == 0;
    }
  }

  /** Every place below the total is some block's. */
  lemma {:induction false} BlockAtPlace(ms: seq<Message>, n: nat, t: nat) returns (m: nat, j: nat)
    requires n <= |ms| && t < Spent(ms, n)
    ensures InSession(ms, m, j) && Spent(ms, m) + j == t
    decreases n
  {
    if t < Spent(ms, n - 1) {
      m, j := BlockAtPlace(ms, n - 1, t);
    } else {
      m, j := n - 1, t - Spent(ms, n - 1);
    }
  }

  /** Two blocks share a counter block exactly when their places are the same modulo 2^32. */
  lemma SameBlockIff(riv: Riv, ms: seq<Message>, m: nat, j: nat, p: nat, q: nat)
    requires InSession(ms, m, j) && InSession(ms, p, q) && LossesLast(ms)
    ensures CounterBlockAt(riv, ms, m, j) == CounterBlockAt(riv, ms, p, q) <==>
            CounterAt(0, Spent(ms, m) + j) == CounterAt(0, Spent(ms, p) + q)
  {
    PlaceIsCounter(ms, m, j);
    PlaceIsCounter(ms, p, q);
    hide CounterAt, CounterBlock, WireSeq, Spent, LossesLast;
    var a, b := CounterAt(0, Spent(ms, m) + j), CounterAt(0, Spent(ms, p) + q);
    if a != b {
      DifferentCounters(riv, a, b);
    }
  }

  /** Beyond 2^32 blocks the counter comes round. */
  lemma LongSessionRepeats(riv: Riv, ms: seq<Message>)
    requires Spent(ms, |ms|) > UINT32 && LossesLast(ms)
    ensures !AllDistinct(riv, ms)
  {
    hide CounterAt, CounterBlockAt, LossesLast, InSession;
    var m, j := BlockAtPlace(ms, |ms|, 0);
    var p, q := BlockAtPlace(ms, |ms|, UINT32);
    hide Spent;
    SameBlockIff(riv, ms, m, j, p, q);
    CounterAtPlace(0);
  }

  lemma ShortSessionDistinct(riv: Riv, ms: seq<Message>)
    requires Spent(ms, |ms|) <= UINT32 && LossesLast(ms)
    ensures AllDistinct(riv, ms)
  {
    hide CounterAt, CounterBlockAt, LossesLast, InSession, Spent;
    forall m: nat, j: nat, p: nat, q: nat | InSession(ms, m, j) && InSession(ms, p, q) && (m, j) != (p, q)
      ensures CounterBlockAt(riv, ms, m, j) != CounterBlockAt(riv, ms, p, q)
    {
      ShortBlocksDiffer(riv, ms, m, j, p, q);
    }
  }

  lemma ShortBlocksDiffer(riv: Riv, ms: seq<Message>, m: nat, j: nat, p: nat, q: nat)
    requires InSession(ms, m, j) && InSession(ms, p, q) && LossesLast(ms)
    requires Spent(ms, |ms|) <= UINT32 && (m, j) != (p, q)
    ensures CounterBlockAt(riv, ms, m, j) != CounterBlockAt(riv, ms, p, q)
  {
    hide CounterAt, CounterBlockAt, LossesLast;
    SameBlockIff(riv, ms, m, j, p, q);
    PlacesDiffer(ms, m, j, p, q);
    PlaceIsCounter(ms, m, j);
    PlaceIsCounter(ms, p, q);
    hide Spent, InSession;
    CounterAtPlace(Spent(ms, m) + j);
    CounterAtPlace(Spent(ms, p) + q);
  }

  /** What section 6.5 of NIST SP 800-38A asks of all messages under one key: the counter blocks of a
      session are all different exactly when they are no more than 2^32, and no message that was
      enciphered and not written is followed by another with any text. */
  lemma SessionDistinctIff(riv: Riv, ms: seq<Message>)
    ensures AllDistinct(riv, ms) <==> Spent(ms, |ms|) <= UINT32 && LossesLast(ms)
  {
    hide AllDistinct, Spent;
    if !LossesLast(ms) {
      var m, p :| 0 <= m < p < |ms| && Lost(ms, m) && ms[p].len != 0;
      LossRepeats(riv, ms, m, p);
    } else if Spent(ms, |ms|) > UINT32 {
      LongSessionRepeats(riv, ms);
    } else {
      ShortSessionDistinct(riv, ms);
    }
  }

  // --- the session in place ---

  lemma {:induction false} WireSeqGrows(ms: seq<Message>, x: Message, n: nat)
    requires n <= |ms|
    ensures WireSeq(ms + [x], n) == WireSeq(ms, n)
  {
    if n > 0 {
      WireSeqGrows(ms, x, n - 1);
    }
  }

  /** The driver's side of an authenticated session. */
  class OizysControl {
    const cipher: Cipher
    const key: Block
    const nonce: Riv
    var wireSeq: nat
    var innerCounter: nat
    /** What was sealed so far. */
    ghost var session: seq<Message>

    ghost predicate Valid()
      reads this
    {
      wireSeq == WireSeq(session, |session|) && innerCounter < 0x1_0000
    }

    constructor(cipher: Cipher, key: Block, nonce: Riv, handshakes: nat)
      ensures Valid() && wireSeq == 0 && innerCounter == handshakes % 0x1_0000 && session == []
      ensures this.cipher == cipher && this.key == key && this.nonce == nonce
    {
      this.cipher, this.key, this.nonce := cipher, key, nonce;
      wireSeq, innerCounter, session := 0, handshakes % 0x1_0000, [];
    }

    /** Seals a message under the next sequence number and writes it; both numbers move only if that
        went well. */
    method SendInner(id: nat, plain: Bytes, writeFails: bool) returns (rc: int, wire: Bytes)
      requires Valid()
      modifies this
      ensures Valid()
      ensures rc == if |plain| <= MAX_PLAIN && !writeFails then 0 else -1
      ensures wire == if |plain| > MAX_PLAIN then []
                      else SealedFrame(cipher, SessionKey(key), nonce, 0x24, AuxForId(id), old(wireSeq), plain)
      ensures session == if |plain| > MAX_PLAIN then old(session) else old(session) + [Message(|plain|, rc == 0)]
      ensures innerCounter == if rc == 0 then (old(innerCounter) + 1) % 0x1_0000 else old(innerCounter)
      ensures wireSeq == if rc == 0 then (old(wireSeq) + BlocksOf(|plain|)) % UINT32 else old(wireSeq)
    {
      hide SealedFrame;
      var buffer := new bv8[32 + |plain|];
      var length := SealCp(cipher, buffer, Some(key), Some(nonce), id, wireSeq, Some(plain), |plain|);
      wire := buffer[..length];
      rc := if length > 0 && !writeFails then 0 else -1;
      if rc == 0 {
        innerCounter := (innerCounter + 1) % 0x1_0000;
        wireSeq := (wireSeq + (|plain| + 15) / 16) % UINT32;
      }
      if length > 0 {
        WireSeqGrows(session, Message(|plain|, rc == 0), |session|);
        session := session + [Message(|plain|, rc == 0)];
      }
    }
  }
}
