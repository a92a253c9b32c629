/** Texts as bytes, and how a Swift string takes in bytes that are no UTF-8: every maximal piece of a
    broken character becomes one replacement character. A character of a text is one byte. */
module Utf8 {
  import opened Texts

  /** The bytes of U+FFFD. */
  function Replacement(): Text {
    [0xEF as char, 0xBF as char, 0xBD as char]
  }

  predicate Within(c: char, low: int, high: int) {
    low <= c as int <= high
  }

  predicate Continues(c: char) {
    Within(c, 0x80, 0xBF)
  }

  /** How many bytes a character has that begins so; zero where none begins. */
  function Length(lead: char): (n: nat)
    ensures n <= 4
  {
    if Within(lead, 0x00, 0x7F) then 1
    else if Within(lead, 0xC2, 0xDF) then 2
    else if Within(lead, 0xE0, 0xEF) then 3
    else if Within(lead, 0xF0, 0xF4) then 4
    else 0
  }

  /** The second byte is narrower after some leads: no overlong forms, no surrogates, nothing beyond
      U+10FFFF. */
  predicate Follows(lead: char, second: char) {
    if lead as int == 0xE0 then Within(second, 0xA0, 0xBF)
    else if lead as int == 0xED then Within(second, 0x80, 0x9F)
    else if lead as int == 0xF0 then Within(second, 0x90, 0xBF)
    else if lead as int == 0xF4 then Within(second, 0x80, 0x8F)
    else Continues(second)
  }

  datatype Front = Front(length: nat, whole: bool)

  /** The character a text begins with, or the piece of one that is as long as can be. */
  function First(text: Text): (f: Front)
    requires text != ""
    ensures 0 < f.length <= |text|
    ensures f.whole <==> f.length == Length(text[0])
    ensures !f.whole ==> f.length <= 3
  {
    var n := Length(text[0]);
    if n <= 1 then Front(1, n == 1)
    else if |text| < 2 || !Follows(text[0], text[1]) then Front(1, false)
    else if n == 2 then Front(2, true)
    else if |text| < 3 || !Continues(text[2]) then Front(2, false)
    else if n == 3 then Front(3, true)
    else if |text| < 4 || !Continues(text[3]) then Front(3, false)
    else Front(4, true)
  }

  predicate IsUtf8(text: Text) {
    text == "" || (First(text).whole && IsUtf8(text[First(text).length..]))
  }

  // --- section 3 of RFC 3629 ---

  /** What can be encoded: all numbers up to U+10FFFF but the surrogates. */
  predicate Scalar(c: nat) {
    c < 0xD800 || 0xE000 <= c < 0x110000
  }

  function Byte(n: nat): char
    requires n < 256
  {
    n as char
  }

  /** The shortest form of a character. */
  function Encoded(c: nat): (r: Text)
    requires Scalar(c)
    ensures 1 <= |r| <= 4
  {
    if c < 0x80 then [Byte(c)]
    else if c < 0x800 then [Byte(0xC0 + c / 64), Byte(0x80 + c % 64)]
    else if c < 0x10000 then [Byte(0xE0 + c / 4096), Byte(0x80 + c / 64 % 64), Byte(0x80 + c % 64)]
    else [Byte(0xF0 + c / 262144), Byte(0x80 + c / 4096 % 64), Byte(0x80 + c / 64 % 64), Byte(0x80 + c % 64)]
  }

  function Spelled(cs: seq<nat>): Text
    requires forall i :: 0 <= i < |cs| ==> Scalar(cs[i])
  {
    if cs == [] then "" else Encoded(cs[0]) + Spelled(cs[1..])
  }

  /** The number that the bytes of a character stand for. */
  function Decoded(b: Text): int
    requires 1 <= |b| <= 4
  {
    match |b|
    case 1 => b[0] as int
    case 2 => 64 * (b[0] as int - 0xC0) + (b[1] as int - 0x80)
    case 3 => 4096 * (b[0] as int - 0xE0) + 64 * (b[1] as int - 0x80) + (b[2] as int - 0x80)
    case _ => 262144 * (b[0] as int - 0xF0) + 4096 * (b[1] as int - 0x80) + 64 * (b[2] as int - 0x80)
              + (b[3] as int - 0x80)
  }

  /** What is taken for a whole character is the encoding of one. */
  lemma WholeIsEncoded(text: Text)
    requires text != "" && First(text).whole
    ensures var c := Decoded(text[..First(text).length]);
            0 <= c && Scalar(c) && Encoded(c) == text[..First(text).length]
  {
    var b := text[..First(text).length];
    var c := Decoded(b);
    match |b| {
      case 2 => Digits64(b[0] as int - 0xC0, 0, 0, b[1] as int - 0x80);
      case 3 => Digits64(0, b[0] as int - 0xE0, b[1] as int - 0x80, b[2] as int - 0x80);
      case 4 => FourDigits(b[0] as int - 0xF0, b[1] as int - 0x80, b[2] as int - 0x80, b[3] as int - 0x80);
      case _ =>
    }
  }

  /** Two or three digits to the base 64. */
  lemma Digits64(lone: nat, x: nat, y: nat, z: nat)
    requires y < 64 && z < 64 && (lone == 0 || (x == 0 && y == 0))
    ensures var c := 64 * lone + 4096 * x + 64 * y + z;
            c % 64 == z && (lone > 0 ==> c / 64 == lone) && (lone == 0 ==> c / 4096 == x && c / 64 % 64 == y)
  {
  }

  lemma FourDigits(w: nat, x: nat, y: nat, z: nat)
    requires x < 64 && y < 64 && z < 64
    ensures var c := 262144 * w + 4096 * x + 64 * y + z;
            c / 262144 == w && c / 4096 % 64 == x && c / 64 % 64 == y && c % 64 == z
  {
    var p := 64 * w + x;
    var q := 64 * p + y;
    var c := 64 * q + z;
    LastDigit(w, x);
    LastDigit(p, y);
    LastDigit(q, z);
    assert c / 4096 == c / 64 / 64 && c / 262144 == c / 64 / 64 / 64;
  }

  lemma LastDigit(a: nat, b: nat)
    requires b < 64
    ensures (64 * a + b) / 64 == a && (64 * a + b) % 64 == b
  {
  }

  /** Every byte of an encoding follows as it may, so the encoding is taken for one whole character,
      whatever follows. */
  lemma EncodedIsWhole(c: nat, rest: Text)
    requires Scalar(c)
    ensures First(Encoded(c) + rest) == Front(|Encoded(c)|, true)
  {
    var b := Encoded(c);
    if 0x80 <= c < 0x800 {
      assert 2 <= c / 64 < 32;
    } else if 0x800 <= c < 0x10000 {
      assert c / 4096 < 16 && c / 64 / 64 == c / 4096;
      assert Follows(b[0], b[1]);
    } else if c >= 0x10000 {
      assert c / 262144 < 5 && c / 4096 / 64 == c / 262144;
      assert Follows(b[0], b[1]);
    }
  }

  /** Text is UTF-8 exactly when it is the encodings of some characters, one after another. */
  lemma Utf8Iff(text: Text)
    ensures IsUtf8(text) <==>
            exists cs: seq<nat> :: (forall i :: 0 <= i < |cs| ==> Scalar(cs[i])) && text == Spelled(cs)
  {
    if IsUtf8(text) {
      var cs := Characters(text);
    }
    forall cs: seq<nat> | (forall i :: 0 <= i < |cs| ==> Scalar(cs[i])) && text == Spelled(cs)
      ensures IsUtf8(text)
    {
      SpelledIsUtf8(cs);
    }
  }

  lemma {:induction false} Characters(text: Text) returns (cs: seq<nat>)
    requires IsUtf8(text)
    ensures (forall i :: 0 <= i < |cs| ==> Scalar(cs[i])) && text == Spelled(cs)
    decreases |text|
  {
    hide First, Encoded, Decoded, Scalar;
    if text == "" {
      cs := [];
    } else {
      hide Spelled;
      var n := First(text).length;
      WholeIsEncoded(text);
      var rest := Characters(text[n..]);
      hide IsUtf8;
      assert text == text[..n] + text[n..];
      OneMoreCharacter(Decoded(text[..n]), rest);
      cs := [Decoded(text[..n])] + rest;
    }
  }

  lemma OneMoreCharacter(c: nat, rest: seq<nat>)
    requires Scalar(c) && forall i :: 0 <= i < |rest| ==> Scalar(rest[i])
    ensures (forall i :: 0 <= i < |[c] + rest| ==> Scalar(([c] + rest)[i]))
    ensures Spelled([c] + rest) == Encoded(c) + Spelled(rest)
  {
    hide Encoded, Scalar;
    assert ([c] + rest)[1..] == rest;
  }

  lemma {:induction false} SpelledIsUtf8(cs: seq<nat>)
    requires forall i :: 0 <= i < |cs| ==> Scalar(cs[i])
    ensures IsUtf8(Spelled(cs))
    decreases |cs|
  {
    if cs != [] {
      SpelledIsUtf8(cs[1..]);
      EncodedIsWhole(cs[0], Spelled(cs[1..]));
      assert Spelled(cs)[|Encoded(cs[0])|..] == Spelled(cs[1..]);
    }
  }

  /** A broken piece becomes the encoding of U+FFFD. */
  lemma RepairedFirst(text: Text)
    requires text != ""
    ensures var n := First(text).length;
            Repaired(text) == (if First(text).whole then text[..n] else Encoded(0xFFFD)) + Repaired(text[n..])
  {
  }

  /** A text begins an encoding. */
  ghost predicate Begins(piece: Text) {
    exists c: nat :: Scalar(c) && piece <= Encoded(c)
  }

  /** A piece of a broken character is as long as can be: it begins some encoding, or is the one byte that
      begins none; and one byte longer it would not. */
  lemma BrokenIsMaximal(text: Text)
    requires text != "" && !First(text).whole
    ensures var n := First(text).length;
            && (Begins(text[..n]) || n == 1)
            && (n < |text| ==> !Begins(text[..n + 1]))
  {
    var n := First(text).length;
    if Length(text[0]) > 1 {
      PieceBegins(text);
    }
    if n < |text| && Begins(text[..n + 1]) {
      var c: nat :| Scalar(c) && text[..n + 1] <= Encoded(c);
      EncodedIsWhole(c, "");
      assert Encoded(c) + "" == Encoded(c);
      assert forall i :: 0 <= i <= n ==> Encoded(c)[i] == text[..n + 1][i] == text[i];
      assert false;
    }
  }

  lemma PieceBegins(text: Text)
    requires text != "" && !First(text).whole && Length(text[0]) > 1
    ensures Begins(text[..First(text).length])
  {
    var piece := text[..First(text).length];
    var lead := piece[0] as int;
    var second := Byte(if lead == 0xE0 then 0xA0 else if lead == 0xF0 then 0x90 else 0x80);
    var whole := if |piece| == 1 then piece + [second, Byte(0x80), Byte(0x80)] else piece + [Byte(0x80), Byte(0x80)];
    assert First(whole).whole && |piece| <= First(whole).length;
    WholeIsEncoded(whole);
    assert piece <= whole[..First(whole).length];
  }

  function Repaired(text: Text): Text {
    if text == "" then ""
    else
      var f := First(text);
      (if f.whole then text[..f.length] else Replacement()) + Repaired(text[f.length..])
  }

  /** Plain ASCII is well formed. */
  lemma {:induction false} AsciiIsUtf8(text: Text)
    requires forall i :: 0 <= i < |text| ==> Within(text[i], 0, 0x7F)
    ensures IsUtf8(text)
    decreases |text|
  {
    if text != "" {
      AsciiIsUtf8(text[1..]);
    }
  }

  lemma {:induction false} Utf8Untouched(text: Text)
    requires IsUtf8(text)
    ensures Repaired(text) == text
    decreases |text|
  {
    if text != "" {
      var n := First(text).length;
      Utf8Untouched(text[n..]);
      assert text == text[..n] + text[n..];
    }
  }

  // --- repaired, and then cut to a buffer ---

  /** As much of a text as fits. */
  function Take(text: Text, room: nat): Text {
    if |text| <= room then text else text[..room]
  }

  /** A text that fills its room and ends in what a replacement character begins with. */
  predicate EndsReplaced(text: Text, room: nat)
    decreases |text|
  {
    text != "" &&
    var f := First(text);
    if f.whole then f.length <= room && EndsReplaced(text[f.length..], room - f.length)
    else |text| == room && (text == Replacement()[..1] || text == Replacement()[..2])
  }

  /** Such a text is well-formed characters, and then one or two bytes of a replacement character. */
  lemma {:induction false} EndsReplacedIs(text: Text, room: nat) returns (front: Text, end: Text)
    requires EndsReplaced(text, room)
    ensures |text| == room && text == front + end && IsUtf8(front)
    ensures end == Replacement()[..1] || end == Replacement()[..2]
    decreases |text|
  {
    var f := First(text);
    if f.whole {
      var rest;
      rest, end := EndsReplacedIs(text[f.length..], room - f.length);
      hide IsUtf8, Replacement;
      CharacterBefore(text, rest, end);
      front := text[..f.length] + rest;
    } else {
      front, end := "", text;
    }
  }

  lemma CharacterBefore(text: Text, rest: Text, end: Text)
    requires text != "" && First(text).whole && IsUtf8(rest) && text[First(text).length..] == rest + end
    ensures IsUtf8(text[..First(text).length] + rest) && text == text[..First(text).length] + rest + end
  {
    WholeFirst(text, rest);
    hide First, IsUtf8;
    assert text == text[..First(text).length] + text[First(text).length..];
  }

  /** And every text of that shape is one. */
  lemma {:induction false} EndsReplacedFrom(front: Text, end: Text)
    requires IsUtf8(front) && (end == Replacement()[..1] || end == Replacement()[..2])
    ensures EndsReplaced(front + end, |front| + |end|)
    decreases |front|
  {
    var text := front + end;
    if front == "" {
      assert text == end && !First(text).whole;
    } else {
      var n := First(front).length;
      assert forall i :: 0 <= i < |front| ==> text[i] == front[i];
      assert First(text) == First(front);
      assert text[n..] == front[n..] + end;
      EndsReplacedFrom(front[n..], end);
    }
  }

  /** What a text begins with does not depend on what follows a whole character. */
  lemma WholeFirst(text: Text, rest: Text)
    requires text != "" && First(text).whole && IsUtf8(rest)
    ensures IsUtf8(text[..First(text).length] + rest)
  {
    var n := First(text).length;
    var other := text[..n] + rest;
    assert forall i :: 0 <= i < n ==> other[i] == text[i];
    assert First(other) == First(text);
    assert other[n..] == rest;
  }

  /** A text that fits survives being repaired and cut again exactly when it is well formed, or fills
      its room and breaks off where a replacement character would break off in the same bytes. */
  lemma {:induction false} SurvivesIff(text: Text, room: nat)
    requires |text| <= room
    ensures Take(Repaired(text), room) == text <==> IsUtf8(text) || EndsReplaced(text, room)
    decreases |text|
  {
    hide First, Take, Replacement;
    if text != "" {
      var f := First(text);
      var front, rest := text[..f.length], text[f.length..];
      if !f.whole {
        BrokenSurvives(text, Repaired(rest), room);
      } else if f.length <= room {
        SurvivesIff(rest, room - f.length);
        WholeSurvives(text, room);
      }
    } else {
      assert Take("", room) == "" by { TakeNothing(room); }
    }
  }

  lemma TakeNothing(room: nat)
    ensures Take("", room) == ""
  {
  }

  lemma WholeSurvives(text: Text, room: nat)
    requires text != "" && First(text).whole && First(text).length <= room
    ensures var n := First(text).length;
            Take(Repaired(text), room) == text <==> Take(Repaired(text[n..]), room - n) == text[n..]
  {
    hide First, Take, Replacement;
    var n := First(text).length;
    TakeAfter(text[..n], Repaired(text[n..]), text[n..], room);
    assert text == text[..n] + text[n..];
  }

  lemma TakeAfter(front: Text, long: Text, short: Text, room: nat)
    requires |front| <= room
    ensures Take(front + long, room) == front + short <==> Take(long, room - |front|) == short
  {
    var whole := front + long;
    assert Take(whole, room) == front + Take(long, room - |front|);
    assert forall t: Text :: (front + t)[|front|..] == t;
  }

  lemma ReplacementWhole(text: Text)
    requires |text| >= 3 && text[..3] == Replacement()
    ensures First(text).whole
  {
    assert text[0] == text[..3][0] && text[1] == text[..3][1] && text[2] == text[..3][2];
  }

  lemma BrokenSurvives(text: Text, more: Text, room: nat)
    requires text != "" && !First(text).whole && |text| <= room
    ensures Take(Replacement() + more, room) == text
       <==> |text| == room && (text == Replacement()[..1] || text == Replacement()[..2])
  {
    var r := Replacement() + more;
    if |text| >= 3 {
      if text[..3] == Replacement() {
        ReplacementWhole(text);
      }
      assert Take(r, room)[..3] == Replacement();
    } else if room <= 2 {
      assert Take(r, room) == Replacement()[..room];
    } else {
      assert |Take(r, room)| >= 3;
    }
  }
}
