/** The DER encoding of an RSA public key: how the driver assembles it in a fixed buffer, and a
    reader after ITU-T X.690 that gets the two numbers back. */
module Der {
  import opened Common

  type Octet = x: int | 0 <= x < 256

  const BUFFER := 512
  const MAX_MODULUS := 384
  const MAX_EXPONENT := 3

  // --- what the bytes mean ---

  /** The unsigned number big-endian bytes stand for. */
  function Number(b: seq<Octet>): nat {
    if b == [] then 0 else Number(b[..|b| - 1]) * 256 + b[|b| - 1]
  }

  /** Section 8.1.3: definite lengths; section 10.1: in the fewest octets. `None` if malformed,
      else the length and what follows. */
  function ReadLength(b: seq<Octet>): Option<(nat, seq<Octet>)> {
    if |b| == 0 then None
    else if b[0] < 0x80 then Some((b[0], b[1..]))
    else if b[0] == 0x81 then
      if |b| >= 2 && b[1] >= 0x80 then Some((b[1], b[2..])) else None
    else if b[0] == 0x82 then
      if |b| >= 3 && b[1] > 0 then Some(((b[1] as int) * 256 + b[2], b[3..])) else None
    else None
  }

  /** Tag, length, contents: the contents and what follows. */
  function ReadElement(tag: Octet, b: seq<Octet>): Option<(seq<Octet>, seq<Octet>)> {
    if |b| == 0 || b[0] != tag then None
    else match ReadLength(b[1..])
      case None => None
      case Some(v) => if v.0 <= |v.1| then Some((v.1[..v.0], v.1[v.0..])) else None
  }

  /** Section 8.3: the contents of a minimal integer that is not negative. */
  predicate MinimalNonNegative(c: seq<Octet>) {
    && |c| > 0
    && c[0] < 0x80
    && (|c| > 1 && c[0] == 0 ==> c[1] >= 0x80)
  }

  function ReadInteger(b: seq<Octet>): Option<(nat, seq<Octet>)> {
    match ReadElement(0x02, b)
    case None => None
    case Some(v) => if MinimalNonNegative(v.0) then Some((Number(v.0), v.1)) else None
  }

  /** A SEQUENCE of exactly two integers and nothing after it. */
  function ReadKey(b: seq<Octet>): Option<(nat, nat)> {
    match ReadElement(0x30, b)
    case None => None
    case Some(s) =>
      if s.1 != [] then None
      else match ReadInteger(s.0)
        case None => None
        case Some(m) =>
          match ReadInteger(m.1)
          case None => None
          case Some(e) => if e.1 == [] then Some((m.0, e.0)) else None
  }

  // --- what the driver writes ---

  function Length(n: nat): (r: seq<Octet>)
    requires n < 0x1_0000
  {
    if n < 128 then [n]
    else if n < 256 then [0x81, n]
    else [0x82, n / 256, n % 256]
  }

  /** Leading zero bytes go, down to the last byte. */
  function Stripped(m: seq<Octet>): (r: seq<Octet>)
    ensures |r| <= |m| && (m != [] ==> r != [])
    ensures |r| > 1 ==> r[0] != 0
  {
    if |m| > 1 && m[0] == 0 then Stripped(m[1..]) else m
  }

  /** A zero byte in front where the number would read as negative. */
  function Contents(m: seq<Octet>): (r: seq<Octet>)
    ensures |r| <= |m| + 1
  {
    var s := Stripped(m);
    if s != [] && s[0] >= 0x80 then [0] + s else s
  }

  function Integer(m: seq<Octet>): (r: seq<Octet>)
    requires |m| <= MAX_MODULUS
  {
    [0x02] + Length(|Contents(m)|) + Contents(m)
  }

  function Key(modulus: seq<Octet>, exponent: seq<Octet>): seq<Octet>
    requires |modulus| <= MAX_MODULUS && |exponent| <= MAX_EXPONENT
  {
    var body := Integer(modulus) + Integer(exponent);
    [0x30] + Length(|body|) + body
  }

  // --- reading gets back what was written ---

  lemma LengthReadsBack(n: nat, rest: seq<Octet>)
    requires n < 0x1_0000
    ensures ReadLength(Length(n) + rest) == Some((n, rest))
  {
    var b := Length(n) + rest;
    if n < 128 {
      assert b[1..] == rest;
    } else if n < 256 {
      assert b[2..] == rest;
    } else {
      assert b[3..] == rest;
    }
  }

  lemma ElementReadsBack(tag: Octet, contents: seq<Octet>, rest: seq<Octet>)
    requires |contents| < 0x1_0000
    ensures ReadElement(tag, [tag] + Length(|contents|) + contents + rest) == Some((contents, rest))
  {
    var b := [tag] + Length(|contents|) + contents + rest;
    assert b[1..] == Length(|contents|) + (contents + rest);
    LengthReadsBack(|contents|, contents + rest);
    assert (contents + rest)[..|contents|] == contents && (contents + rest)[|contents|..] == rest;
  }

  lemma {:induction false} LeadingZero(m: seq<Octet>)
    ensures Number([0] + m) == Number(m)
    decreases |m|
  {
    var z := [0] + m;
    if m != [] {
      assert z[..|z| - 1] == [0] + m[..|m| - 1];
      LeadingZero(m[..|m| - 1]);
    }
  }

  lemma {:induction false} StrippedKeepsNumber(m: seq<Octet>)
    ensures Number(Stripped(m)) == Number(m)
    decreases |m|
  {
    if |m| > 1 && m[0] == 0 {
      StrippedKeepsNumber(m[1..]);
      LeadingZero(m[1..]);
      assert m == [0] + m[1..];
    }
  }

  /** Whatever the bytes, the contents are a minimal non-negative integer of the same value; no
      bytes at all give none. */
  lemma ContentsMinimal(m: seq<Octet>)
    ensures Number(Contents(m)) == Number(m)
    ensures MinimalNonNegative(Contents(m)) <==> m != []
  {
    StrippedKeepsNumber(m);
    LeadingZero(Stripped(m));
  }

  lemma IntegerReadsBack(m: seq<Octet>, rest: seq<Octet>)
    requires |m| <= MAX_MODULUS
    ensures ReadInteger(Integer(m) + rest) == if m == [] then None else Some((Number(m), rest))
  {
    ContentsMinimal(m);
    ElementReadsBack(0x02, Contents(m), rest);
    assert Integer(m) + rest == [0x02] + Length(|Contents(m)|) + Contents(m) + rest;
  }

  /** The whole key reads back as the two numbers, exactly when neither was empty. */
  lemma KeyReadsBack(modulus: seq<Octet>, exponent: seq<Octet>)
    requires |modulus| <= MAX_MODULUS && |exponent| <= MAX_EXPONENT
    ensures ReadKey(Key(modulus, exponent)) ==
            if modulus == [] || exponent == [] then None else Some((Number(modulus), Number(exponent)))
  {
    var body := Integer(modulus) + Integer(exponent);
    ElementReadsBack(0x30, body, []);
    assert Key(modulus, exponent) == [0x30] + Length(|body|) + body + [];
    IntegerReadsBack(modulus, Integer(exponent));
    IntegerReadsBack(exponent, []);
    assert Integer(exponent) + [] == Integer(exponent);
  }

  /** It fits the buffer with room to spare, and so does the body behind the reserved header. */
  lemma KeyFits(modulus: seq<Octet>, exponent: seq<Octet>)
    requires |modulus| <= MAX_MODULUS && |exponent| <= MAX_EXPONENT
    ensures 4 + |Integer(modulus)| + |Integer(exponent)| <= 399 <= BUFFER
    ensures |Key(modulus, exponent)| <= 4 + |Integer(modulus)| + |Integer(exponent)|
  {
  }

  // --- how it is written ---

  function Put(buffer: seq<Octet>, at: nat, b: seq<Octet>): (r: seq<Octet>)
    requires at + |b| <= |buffer|
    ensures |r| == |buffer|
  {
    buffer[..at] + b + buffer[at + |b|..]
  }

  lemma PutTwice(buffer: seq<Octet>, at: nat, a: seq<Octet>, b: seq<Octet>)
    requires at + |a| + |b| <= |buffer|
    ensures Put(Put(buffer, at, a), at + |a|, b) == Put(buffer, at, a + b)
  {
  }

  method PutLength(der: array<Octet>, p: nat, n: nat) returns (q: nat)
    requires n < 0x1_0000 && p + |Length(n)| <= der.Length
    modifies der
    ensures q == p + |Length(n)| && der[..] == Put(old(der[..]), p, Length(n))
  {
    q := p;
    if n < 128 {
      der[q] := n;
      q := q + 1;
      return;
    }
    if n < 256 {
      der[q] := 0x81;
      der[q + 1] := n;
      q := q + 2;
      return;
    }
    der[q] := 0x82;
    der[q + 1] := n / 256 % 256;
    der[q + 2] := n % 256;
    q := q + 3;
  }

  /** Bytes moved within a buffer, or into it, as memmove does. */
  method Move(der: array<Octet>, at: nat, b: seq<Octet>)
    requires at + |b| <= der.Length
    modifies der
    ensures der[..] == Put(old(der[..]), at, b)
  {
    for i := 0 to |b|
      invariant forall j :: 0 <= j < der.Length ==>
                  der[j] == if at <= j < at + i then b[j - at] else old(der[j])
    {
      der[at + i] := b[i];
    }
  }

  /** How many leading zero bytes the loop steps over. */
  method SkipZeros(number: seq<Octet>) returns (m: nat)
    ensures m <= |number| && number[m..] == Stripped(number)
  {
    m := 0;
    var n := |number|;
    while n > 1 && number[m] == 0
      invariant m <= |number| && n == |number| - m
      invariant Stripped(number[m..]) == Stripped(number)
      decreases n
    {
      assert number[m..][1..] == number[m + 1..];
      m := m + 1;
      n := n - 1;
    }
    assert number[0..] == number;
  }

  method PutHeader(der: array<Octet>, p: nat, tag: Octet, n: nat) returns (q: nat)
    requires n < 0x1_0000 && p + 1 + |Length(n)| <= der.Length
    modifies der
    ensures q == p + 1 + |Length(n)| && der[..] == Put(old(der[..]), p, [tag] + Length(n))
  {
    ghost var was := der[..];
    der[p] := tag;
    assert der[..] == Put(was, p, [tag]);
    q := PutLength(der, p + 1, n);
    PutTwice(was, p, [tag], Length(n));
  }

  method PutContents(der: array<Octet>, p: nat, pads: seq<Octet>, number: seq<Octet>) returns (q: nat)
    requires p + |pads| + |number| <= der.Length
    modifies der
    ensures q == p + |pads| + |number| && der[..] == Put(old(der[..]), p, pads + number)
  {
    ghost var was := der[..];
    Move(der, p, pads);
    Move(der, p + |pads|, number);
    PutTwice(was, p, pads, number);
    q := p + |pads| + |number|;
  }

  method PutInteger(der: array<Octet>, p: nat, number: seq<Octet>) returns (q: nat)
    requires |number| <= MAX_MODULUS && p + |Integer(number)| <= der.Length
    modifies der
    ensures q == p + |Integer(number)| && der[..] == Put(old(der[..]), p, Integer(number))
  {
    hide Stripped, Put, Length;
    var m := SkipZeros(number);
    var n := |number| - m;
    ghost var was := der[..];
    var pads: seq<Octet> := if n > 0 && number[m] >= 0x80 then [0] else [];
    ghost var contents := pads + number[m..];
    assert Contents(number) == contents;
    q := PutHeader(der, p, 0x02, n + |pads|);
    q := PutContents(der, q, pads, number[m..]);
    PutTwice(was, p, [0x02] + Length(|contents|), contents);
  }

  /** The SEQUENCE header at the front, and the body moved down against it. */
  method PutSequence(der: array<Octet>, body: seq<Octet>) returns (q: nat)
    requires |body| < 0x1_0000 && 4 + |body| <= der.Length
    modifies der
    ensures q == 1 + |Length(|body|)| + |body|
    ensures der[..] == Put(old(der[..]), 0, [0x30] + Length(|body|) + body)
  {
    ghost var was := der[..];
    q := PutHeader(der, 0, 0x30, |body|);
    Move(der, q, body);
    PutTwice(was, 0, [0x30] + Length(|body|), body);
    q := q + |body|;
  }

  /** The assembled key: both integers behind room for a header, then the header, then the body
      moved down against it. `None` for a missing number or one too long. */
  method PublicKey(modulus: Option<seq<Octet>>, exponent: Option<seq<Octet>>) returns (key: Option<seq<Octet>>)
    ensures key.None? <==> || modulus.None? || exponent.None?
                           || |modulus.value| > MAX_MODULUS || |exponent.value| > MAX_EXPONENT
    ensures key.Some? ==> key.value == Key(modulus.value, exponent.value)
  {
    hide Integer;
    if modulus.None? || exponent.None? || |modulus.value| > MAX_MODULUS || |exponent.value| > MAX_EXPONENT {
      return None;
    }
    KeyFits(modulus.value, exponent.value);
    var der := new Octet[BUFFER](_ => 0);
    ghost var was := der[..];
    var p := PutInteger(der, 4, modulus.value);
    p := PutInteger(der, p, exponent.value);
    PutTwice(was, 4, Integer(modulus.value), Integer(exponent.value));
    ghost var body := Integer(modulus.value) + Integer(exponent.value);
    assert der[4..p] == body;
    var s := PutSequence(der, der[4..p]);
    key := Some(der[..s]);
  }
}
