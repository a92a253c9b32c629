/** The capture server's request parser, and how it meets requests that arrive in pieces. A byte is
    a character. */
module Http {
  import opened Common
  import opened Texts

  type Data = string

  const CRLF := "\r\n"
  const DIVIDER := "\r\n\r\n"
  const MOST_HEAD := 8192
  const MOST_BODY := 4096
  const MOST_READ := 4096

  datatype Parsed = Incomplete | Invalid | Complete(verb: string, path: string, body: Data)

  // --- finding and splitting ---

  predicate At(text: string, i: nat, pattern: string) {
    i + |pattern| <= |text| && text[i..i + |pattern|] == pattern
  }

  /** Where `pattern` first occurs at or after `from`. */
  function Find(text: string, pattern: string, from: nat): (r: Option<nat>)
    ensures r.Some? ==> from <= r.value && At(text, r.value, pattern)
    ensures forall i :: from <= i < (if r.Some? then r.value else |text| + 1) ==> !At(text, i, pattern)
    decreases |text| + 1 - from
  {
    if from + |pattern| > |text| then None
    else if At(text, from, pattern) then Some(from)
    else Find(text, pattern, from + 1)
  }

  /** What is left between occurrences of a separator. */
  function Pieces(text: string, separator: string): (r: seq<string>)
    requires separator != ""
    ensures r != []
    decreases |text|
  {
    var at := Find(text, separator, 0);
    if at.None? then [text] else [text[..at.value]] + Pieces(text[at.value + |separator|..], separator)
  }

  function Interleaved(pieces: seq<string>, separator: string): string
    requires pieces != []
  {
    if |pieces| == 1 then pieces[0] else pieces[0] + separator + Interleaved(pieces[1..], separator)
  }

  /** Splitting loses nothing and leaves no separator inside a piece. */
  lemma {:induction false} PiecesRejoin(text: string, separator: string)
    requires separator != ""
    ensures var pieces := Pieces(text, separator);
            && Interleaved(pieces, separator) == text
            && forall i, k :: 0 <= i < |pieces| && 0 <= k ==> !At(pieces[i], k, separator)
    decreases |text|
  {
    var at := Find(text, separator, 0);
    if at.Some? {
      var first, rest := text[..at.value], text[at.value + |separator|..];
      PiecesRejoin(rest, separator);
      FindInPrefix(text, separator, 0, at.value);
      assert Pieces(text, separator)[1..] == Pieces(rest, separator);
      assert first + separator + rest == text;
    }
  }

  // --- the request line and the headers ---

  datatype RequestLine = RequestLine(verb: string, path: string)

  function ReadRequestLine(line: string): Option<RequestLine> {
    var words := Pieces(line, " ");
    if |words| != 3 || (words[2] != "HTTP/1.1" && words[2] != "HTTP/1.0") then None
    else if (words[0] != "GET" && words[0] != "POST") || words[1] == "" || words[1][0] != '/' then None
    else Some(RequestLine(words[0], words[1]))
  }

  function Lower(text: string): (r: string)
    ensures |r| == |text|
  {
    seq(|text|, i requires 0 <= i < |text| => LowerCase(text[i]))
  }

  predicate Blank(c: char) {
    c == ' ' || c == '\t'
  }

  function Trim(text: string): string {
    if text != "" && Blank(text[0]) then Trim(text[1..])
    else if text != "" && Blank(text[|text| - 1]) then Trim(text[..|text| - 1])
    else text
  }

  datatype Header = Header(name: string, value: string)

  function ReadHeader(line: string): Option<Header> {
    var colon := Find(line, ":", 0);
    if colon.None? then None else Some(Header(Lower(line[..colon.value]), Trim(line[colon.value + 1..])))
  }

  predicate IsLength(line: string) {
    var h := ReadHeader(line);
    h.Some? && h.value.name == "content-length"
  }

  predicate GoodLength(line: string) {
    var h := ReadHeader(line);
    h.Some? && Digits(h.value.value) && ReadDecimal(h.value.value) <= MOST_BODY
  }

  predicate GoodHeader(line: string) {
    var h := ReadHeader(line);
    h.Some? && h.value.name != "transfer-encoding" && (IsLength(line) ==> GoodLength(line))
  }

  /** The length a list of header lines declares: `None` when one of them is refused. */
  function DeclaredLength(lines: seq<string>): Option<Option<nat>>
    decreases |lines|
  {
    if lines == [] then Some(None)
    else
      var before, line := DeclaredLength(lines[..|lines| - 1]), lines[|lines| - 1];
      if before.None? || !GoodHeader(line) then None
      else if !IsLength(line) then before
      else if before.value.Some? then None
      else Some(Some(ReadDecimal(ReadHeader(line).value.value)))
  }

  /** What a head of `head` bytes says, for a body of `body`. `text` is whether its bytes decode. */
  function Read(head: Data, body: Data, text: Data -> bool): Parsed {
    if !text(head) then Invalid
    else
      var lines := Pieces(head, CRLF);
      var line, length := ReadRequestLine(lines[0]), DeclaredLength(lines[1..]);
      if line.None? || length.None? then Invalid
      else if line.value.verb == "POST" && length.value.None? then Invalid
      else
        var wanted := if length.value.Some? then length.value.value else 0;
        if line.value.verb != "POST" && wanted != 0 then Invalid
        else if |body| < wanted then Incomplete
        else if |body| != wanted then Invalid
        else Complete(line.value.verb, line.value.path, body)
  }

  function Parse(data: Data, text: Data -> bool): Parsed {
    var at := Find(data, DIVIDER, 0);
    if at.None? then (if |data| <= MOST_HEAD then Incomplete else Invalid)
    else if at.value > MOST_HEAD then Invalid
    else Read(data[..at.value], data[at.value + 4..], text)
  }

  // --- as the server computes it ---

  method ParseRequest(data: Data, text: Data -> bool) returns (r: Parsed)
    ensures r == Parse(data, text)
  {
    hide Pieces, ReadRequestLine, ReadHeader, ReadDecimal;
    var divider := Find(data, DIVIDER, 0);
    if divider.None? {
      return if |data| <= MOST_HEAD then Incomplete else Invalid;
    }
    if divider.value > MOST_HEAD || !text(data[..divider.value]) {
      return Invalid;
    }
    var lines := Pieces(data[..divider.value], CRLF);
    var line := ReadRequestLine(lines[0]);
    if line.None? {
      return Invalid;
    }
    var contentLength: Option<nat> := None;
    var headers := lines[1..];
    for i := 0 to |headers|
      invariant DeclaredLength(headers[..i]) == Some(contentLength)
    {
      assert headers[..i + 1][..i] == headers[..i];
      var header := ReadHeader(headers[i]);
      if header.None? || header.value.name == "transfer-encoding" {
        RefusedOnce(headers, i + 1);
        return Invalid;
      }
      if header.value.name == "content-length" {
        var value := header.value.value;
        if contentLength.Some? || !Digits(value) || ReadDecimal(value) > MOST_BODY {
          RefusedOnce(headers, i + 1);
          return Invalid;
        }
        contentLength := Some(ReadDecimal(value));
      }
    }
    assert headers[..|headers|] == headers;
    if (line.value.verb == "POST" && contentLength.None?)
       || (line.value.verb != "POST" && contentLength.Some? && contentLength.value != 0) {
      return Invalid;
    }
    var expected := divider.value + 4 + if contentLength.Some? then contentLength.value else 0;
    if |data| < expected {
      return Incomplete;
    }
    if |data| != expected {
      return Invalid;
    }
    assert data[divider.value + 4..expected] == data[divider.value + 4..];
    return Complete(line.value.verb, line.value.path, data[divider.value + 4..expected]);
  }

  lemma {:induction false} RefusedOnce(lines: seq<string>, i: nat)
    requires i <= |lines| && DeclaredLength(lines[..i]).None?
    ensures DeclaredLength(lines).None?
    decreases |lines| - i
  {
    if i < |lines| {
      assert lines[..i + 1][..i] == lines[..i];
      RefusedOnce(lines, i + 1);
    } else {
      assert lines[..i] == lines;
    }
  }

  // --- which requests are accepted ---

  /** Every line a good header, at most one of them a length. */
  ghost predicate GoodHeaders(lines: seq<string>) {
    && (forall i :: 0 <= i < |lines| ==> GoodHeader(lines[i]))
    && (forall i, j :: 0 <= i < |lines| && 0 <= j < |lines| && IsLength(lines[i]) && IsLength(lines[j]) ==> i == j)
  }

  ghost predicate Declares(lines: seq<string>, length: nat) {
    exists i :: 0 <= i < |lines| && IsLength(lines[i]) && GoodLength(lines[i])
                && ReadDecimal(ReadHeader(lines[i]).value.value) == length
  }

  ghost predicate NoLength(lines: seq<string>) {
    forall i :: 0 <= i < |lines| ==> !IsLength(lines[i])
  }

  lemma {:induction false} DeclaredLengthIff(lines: seq<string>)
    ensures DeclaredLength(lines).Some? <==> GoodHeaders(lines)
    ensures GoodHeaders(lines) ==>
              match DeclaredLength(lines).value
              case None => NoLength(lines)
              case Some(n) => Declares(lines, n) && n <= MOST_BODY
    decreases |lines|
  {
    if lines != [] {
      DeclaredLengthIff(lines[..|lines| - 1]);
      OneMoreHeader(lines);
      hide GoodHeaders, NoLength, Declares, ReadHeader, ReadDecimal;
    }
  }

  lemma OneMoreHeader(lines: seq<string>)
    requires lines != []
    ensures var front, line := lines[..|lines| - 1], lines[|lines| - 1];
            && (GoodHeaders(lines) <==> GoodHeaders(front) && GoodHeader(line) && (IsLength(line) ==> NoLength(front)))
            && (NoLength(lines) <==> NoLength(front) && !IsLength(line))
            && (forall n :: Declares(front, n) ==> Declares(lines, n) && !NoLength(front))
            && (IsLength(line) && GoodLength(line) ==> Declares(lines, ReadDecimal(ReadHeader(line).value.value)))
  {
    hide IsLength, GoodHeader, GoodLength, ReadHeader, ReadDecimal;
    var front := lines[..|lines| - 1];
    assert forall i :: 0 <= i < |front| ==> lines[i] == front[i];
  }

  // --- request lines and headers as they are written ---

  /** A verb, a path and a version with one space between them. */
  predicate IsRequestLine(line: string, verb: string, path: string) {
    && (line == verb + " " + path + " HTTP/1.1" || line == verb + " " + path + " HTTP/1.0")
    && (verb == "GET" || verb == "POST")
    && path != "" && path[0] == '/' && ' ' !in path
  }

  lemma SeparatorFound(piece: string, c: char, rest: string)
    requires c !in piece
    ensures Find(piece + [c] + rest, [c], 0) == Some(|piece|) && Find(piece, [c], 0).None?
  {
    var text := piece + [c] + rest;
    assert text[|piece|..|piece| + 1] == [c] && At(text, |piece|, [c]);
    forall i | 0 <= i < |piece|
      ensures !At(text, i, [c]) && !At(piece, i, [c])
    {
      assert text[i..i + 1][0] == piece[i] && piece[i..i + 1][0] == piece[i];
    }
  }

  lemma NoneInside(piece: string, c: char)
    ensures (forall k :: 0 <= k ==> !At(piece, k, [c])) <==> c !in piece
  {
    if c in piece {
      var k :| 0 <= k < |piece| && piece[k] == c;
      assert piece[k..k + 1] == [c] && At(piece, k, [c]);
    } else {
      forall k | 0 <= k && k + 1 <= |piece|
        ensures !At(piece, k, [c])
      {
        assert piece[k..k + 1][0] == piece[k];
      }
    }
  }

  lemma ThreeWords(a: string, b: string, c: string)
    requires ' ' !in a && ' ' !in b && ' ' !in c
    ensures Pieces(a + " " + b + " " + c, " ") == [a, b, c]
  {
    var text, rest := a + " " + b + " " + c, b + " " + c;
    assert text == a + [' '] + rest && rest == b + [' '] + c && " " == [' '];
    SeparatorFound(a, ' ', rest);
    SeparatorFound(b, ' ', c);
    SeparatorFound(c, ' ', "");
    assert text[..|a|] == a && text[|a| + 1..] == rest && rest[..|b|] == b && rest[|b| + 1..] == c;
    assert Pieces(c, " ") == [c];
    assert Pieces(rest, " ") == [b] + Pieces(c, " ");
    assert Pieces(text, " ") == [a] + Pieces(rest, " ");
  }

  lemma VersionAfter(front: string, version: string)
    requires version == "HTTP/1.1" || version == "HTTP/1.0"
    ensures front + " " + version == if version == "HTTP/1.1" then front + " HTTP/1.1" else front + " HTTP/1.0"
  {
  }

  lemma ReadsRequestLine(line: string)
    requires ReadRequestLine(line).Some?
    ensures var r := ReadRequestLine(line).value; IsRequestLine(line, r.verb, r.path)
  {
    PiecesRejoin(line, " ");
    hide Pieces, Interleaved;
    var words := Pieces(line, " ");
    ThreeRejoined(words, " ");
    NoneInside(words[1], ' ');
    VersionAfter(words[0] + " " + words[1], words[2]);
  }

  lemma NoSpace(word: string)
    requires word in {"GET", "POST", "HTTP/1.1", "HTTP/1.0"}
    ensures ' ' !in word
  {
  }

  lemma RequestLineReads(line: string, verb: string, path: string)
    requires IsRequestLine(line, verb, path)
    ensures ReadRequestLine(line) == Some(RequestLine(verb, path))
  {
    var version := if line == verb + " " + path + " HTTP/1.1" then "HTTP/1.1" else "HTTP/1.0";
    VersionAfter(verb + " " + path, version);
    NoSpace(verb);
    NoSpace(version);
    ThreeWords(verb, path, version);
    hide Pieces;
  }

  /** A line reads as a verb and a path exactly when it is written so. */
  lemma RequestLineIff(line: string, verb: string, path: string)
    ensures ReadRequestLine(line) == Some(RequestLine(verb, path)) <==> IsRequestLine(line, verb, path)
  {
    hide ReadRequestLine, IsRequestLine;
    if ReadRequestLine(line).Some? {
      ReadsRequestLine(line);
    }
    if IsRequestLine(line, verb, path) {
      RequestLineReads(line, verb, path);
    }
  }

  lemma ThreeRejoined(words: seq<string>, separator: string)
    requires |words| == 3
    ensures Interleaved(words, separator) == words[0] + separator + words[1] + separator + words[2]
  {
    assert Interleaved(words[1..][1..], separator) == words[2];
    assert Interleaved(words[1..], separator) == words[1] + separator + words[2];
  }

  predicate Blanks(text: string) {
    forall i :: 0 <= i < |text| ==> text[i] == ' ' || text[i] == '\t'
  }

  /** A header of this name and value: a name in any letter case before the first colon, and the value
      behind it among spaces and tabs. */
  ghost predicate IsHeader(line: string, name: string, value: string) {
    exists raw, before, after :: WrittenHeader(line, raw, before, after, name, value)
  }

  /** Nothing blank at either end. */
  predicate Bare(value: string) {
    value != "" ==> value[0] != ' ' && value[0] != '\t' && value[|value| - 1] != ' ' && value[|value| - 1] != '\t'
  }

  predicate WrittenHeader(line: string, raw: string, before: string, after: string, name: string, value: string) {
    && line == raw + ":" + before + value + after
    && ':' !in raw && |raw| == |name|
    && (forall i :: 0 <= i < |raw| ==>
          name[i] == if 'A' <= raw[i] <= 'Z' then raw[i] - 'A' + 'a' else raw[i])
    && Blanks(before) && Blanks(after) && Bare(value)
  }

  lemma {:induction false} TrimSplits(text: string) returns (before: string, after: string)
    ensures text == before + Trim(text) + after && Blanks(before) && Blanks(after) && Bare(Trim(text))
    decreases |text|
  {
    before, after := "", "";
    if text != "" && Blank(text[0]) {
      var b;
      b, after := TrimSplits(text[1..]);
      assert text == [text[0]] + text[1..];
      assert [text[0]] + (b + Trim(text[1..]) + after) == [text[0]] + b + Trim(text[1..]) + after;
      hide Trim, Bare;
      before := [text[0]] + b;
    } else if text != "" && Blank(text[|text| - 1]) {
      var a, front := "", text[..|text| - 1];
      before, a := TrimSplits(front);
      assert text == front + [text[|text| - 1]];
      assert before + Trim(front) + a + [text[|text| - 1]] == before + Trim(front) + (a + [text[|text| - 1]]);
      hide Trim, Bare;
      after := a + [text[|text| - 1]];
    } else {
      assert "" + text + "" == text;
    }
  }

  lemma {:induction false} TrimPadded(before: string, value: string, after: string)
    requires Blanks(before) && Blanks(after) && Bare(value)
    ensures Trim(before + value + after) == value
    decreases |before| + |after|
  {
    var text := before + value + after;
    if before != "" {
      assert text[1..] == before[1..] + value + after && text[0] == before[0];
      TrimPadded(before[1..], value, after);
    } else if after != "" {
      assert text[..|text| - 1] == before + value + after[..|after| - 1] && text[|text| - 1] == after[|after| - 1];
      if value == "" {
        assert text == after && text[1..] == "" + "" + after[1..];
        TrimPadded("", "", after[1..]);
      } else {
        assert text[0] == value[0];
        TrimPadded("", value, after[..|after| - 1]);
      }
    } else {
      assert text == value;
    }
  }

  lemma ColonSplits(line: string)
    requires Find(line, ":", 0).Some?
    ensures var colon := Find(line, ":", 0).value;
            line == line[..colon] + ":" + line[colon + 1..] && ':' !in line[..colon]
  {
    var colon := Find(line, ":", 0).value;
    FindInPrefix(line, ":", 0, colon);
    NoneInside(line[..colon], ':');
  }

  lemma ReadsHeader(line: string)
    requires ReadHeader(line).Some?
    ensures var h := ReadHeader(line).value; IsHeader(line, h.name, h.value)
  {
    hide Trim, Blanks, Bare;
    var colon := Find(line, ":", 0).value;
    var raw, rest := line[..colon], line[colon + 1..];
    ColonSplits(line);
    var before, after := TrimSplits(rest);
    hide Find, At;
    assert raw + ":" + (before + Trim(rest) + after) == raw + ":" + before + Trim(rest) + after;
    assert WrittenHeader(line, raw, before, after, Lower(raw), Trim(rest));
  }

  lemma HeaderReads(line: string, raw: string, before: string, after: string, name: string, value: string)
    requires WrittenHeader(line, raw, before, after, name, value)
    ensures ReadHeader(line) == Some(Header(name, value))
  {
    var rest := before + value + after;
    assert raw + ":" + before + value + after == raw + [':'] + rest;
    SeparatorFound(raw, ':', rest);
    assert line[..|raw|] == raw && line[|raw| + 1..] == rest && ":" == [':'];
    TrimPadded(before, value, after);
    hide Trim, Blanks, Bare;
    assert Lower(raw) == name;
  }

  /** A line reads as a header exactly when it is written so. */
  lemma HeaderIff(line: string, name: string, value: string)
    ensures ReadHeader(line) == Some(Header(name, value)) <==> IsHeader(line, name, value)
  {
    hide ReadHeader, WrittenHeader;
    if ReadHeader(line).Some? {
      ReadsHeader(line);
    }
    forall raw, before, after | WrittenHeader(line, raw, before, after, name, value)
      ensures ReadHeader(line) == Some(Header(name, value))
    {
      HeaderReads(line, raw, before, after, name, value);
    }
  }

  // --- what is accepted ---

  ghost predicate IsLengthOf(line: string, n: nat) {
    exists value :: IsHeader(line, "content-length", value) && Digits(value) && ReadDecimal(value) == n
  }

  /** A readable head whose first line names one of the two verbs and a path, and whose other lines are
      headers, none of them a transfer encoding and at most one a length of up to 4096, which a POST
      must have; followed by as many bytes as it says, or by none. */
  ghost predicate Acceptable(head: Data, text: Data -> bool, verb: string, path: string, body: Data) {
    && text(head)
    && IsRequestLine(Pieces(head, "\r\n")[0], verb, path)
    && AcceptableHeaders(Pieces(head, "\r\n")[1..], verb, body)
  }

  ghost predicate AcceptableHeaders(headers: seq<string>, verb: string, body: Data) {
    && (forall i :: 0 <= i < |headers| ==> AcceptableHeader(headers[i]))
    && (forall i, j, v, w :: 0 <= i < j < |headers| ==>
          !(IsHeader(headers[i], "content-length", v) && IsHeader(headers[j], "content-length", w)))
    && (if exists i, v :: 0 <= i < |headers| && IsHeader(headers[i], "content-length", v)
        then (exists i :: 0 <= i < |headers| && IsLengthOf(headers[i], |body|)) && (verb == "GET" ==> body == "")
        else verb == "GET" && body == "")
  }

  ghost predicate AcceptableHeader(line: string) {
    exists name, value :: IsHeader(line, name, value) && name != "transfer-encoding"
                          && (name == "content-length" ==> Digits(value) && ReadDecimal(value) <= 4096)
  }

  lemma AcceptableHeaderIff(line: string)
    ensures AcceptableHeader(line) <==> GoodHeader(line)
    ensures (exists v :: IsHeader(line, "content-length", v)) <==> IsLength(line)
    ensures forall n :: IsLengthOf(line, n) && n <= 4096 <==>
                        IsLength(line) && GoodLength(line) && ReadDecimal(ReadHeader(line).value.value) == n
    ensures GoodHeader(line) ==> forall n :: IsLengthOf(line, n) ==> n <= 4096
  {
    forall name, value
      ensures ReadHeader(line) == Some(Header(name, value)) <==> IsHeader(line, name, value)
    {
      HeaderIff(line, name, value);
    }
    hide ReadHeader, IsHeader, ReadDecimal, Digits;
    if GoodHeader(line) {
      var h := ReadHeader(line).value;
      assert IsHeader(line, h.name, h.value);
    }
    if IsLength(line) {
      assert IsHeader(line, "content-length", ReadHeader(line).value.value);
    }
  }

  /** As the parser sees it. */
  ghost predicate AcceptedBy(head: Data, text: Data -> bool, verb: string, path: string, body: Data) {
    && text(head)
    && ReadRequestLine(Pieces(head, CRLF)[0]) == Some(RequestLine(verb, path))
    && AcceptedHeaders(Pieces(head, CRLF)[1..], verb, body)
  }

  ghost predicate AcceptedHeaders(headers: seq<string>, verb: string, body: Data) {
    && GoodHeaders(headers)
    && (if NoLength(headers) then verb == "GET" && body == ""
        else Declares(headers, |body|) && |body| <= MOST_BODY && (verb == "GET" ==> body == ""))
  }

  lemma AcceptableIff(head: Data, text: Data -> bool, verb: string, path: string, body: Data)
    ensures AcceptedBy(head, text, verb, path, body) <==> Acceptable(head, text, verb, path, body)
  {
    hide Pieces, ReadRequestLine, IsRequestLine, AcceptedHeaders, AcceptableHeaders;
    RequestLineIff(Pieces(head, CRLF)[0], verb, path);
    AcceptableHeadersIff(Pieces(head, CRLF)[1..], verb, body);
  }

  lemma AcceptableHeadersIff(headers: seq<string>, verb: string, body: Data)
    ensures AcceptedHeaders(headers, verb, body) <==> AcceptableHeaders(headers, verb, body)
  {
    hide GoodHeaders, NoLength, Declares, AcceptableHeader, IsHeader, IsLengthOf;
    HeadersIff(headers, |body|);
  }

  lemma HeadersIff(headers: seq<string>, n: nat)
    ensures GoodHeaders(headers) <==>
            && (forall i :: 0 <= i < |headers| ==> AcceptableHeader(headers[i]))
            && (forall i, j, v, w :: 0 <= i < j < |headers| ==>
                  !(IsHeader(headers[i], "content-length", v) && IsHeader(headers[j], "content-length", w)))
    ensures NoLength(headers) <==> !exists i, v :: 0 <= i < |headers| && IsHeader(headers[i], "content-length", v)
    ensures GoodHeaders(headers) ==>
              (Declares(headers, n) && n <= 4096 <==> exists i :: 0 <= i < |headers| && IsLengthOf(headers[i], n))
  {
    forall i | 0 <= i < |headers|
      ensures AcceptableHeader(headers[i]) <==> GoodHeader(headers[i])
      ensures (exists v :: IsHeader(headers[i], "content-length", v)) <==> IsLength(headers[i])
      ensures IsLengthOf(headers[i], n) && n <= 4096 <==>
              IsLength(headers[i]) && GoodLength(headers[i]) && ReadDecimal(ReadHeader(headers[i]).value.value) == n
      ensures GoodHeader(headers[i]) && IsLengthOf(headers[i], n) ==> n <= 4096
    {
      AcceptableHeaderIff(headers[i]);
    }
    hide AcceptableHeader, IsHeader, IsLength, GoodLength, IsLengthOf, ReadHeader, ReadDecimal;
  }

  lemma ReadIff(head: Data, rest: Data, text: Data -> bool, verb: string, path: string, body: Data)
    ensures Read(head, rest, text) == Complete(verb, path, body)
            <==> body == rest && AcceptedBy(head, text, verb, path, body)
  {
    var headers := Pieces(head, CRLF)[1..];
    var line := ReadRequestLine(Pieces(head, CRLF)[0]);
    DeclaredLengthIff(headers);
    hide Pieces, ReadRequestLine, DeclaredLength;
    assert line.Some? ==> line.value.verb == "GET" || line.value.verb == "POST" by {
      OneOfTwoVerbs(Pieces(head, CRLF)[0]);
    }
    if GoodHeaders(headers) && DeclaredLength(headers).value.Some? {
      OneDeclaration(headers, DeclaredLength(headers).value.value, |rest|);
      assert !NoLength(headers);
    }
  }

  lemma OneOfTwoVerbs(line: string)
    ensures var r := ReadRequestLine(line); r.Some? ==> r.value.verb == "GET" || r.value.verb == "POST"
  {
  }

  /** A request is accepted exactly when its first blank line comes soon enough and what is before
      and after it is acceptable. */
  lemma AcceptedIff(data: Data, text: Data -> bool, verb: string, path: string, body: Data)
    ensures Parse(data, text) == Complete(verb, path, body) <==>
            var at := Find(data, "\r\n\r\n", 0);
            && at.Some? && at.value <= 8192 && body == data[at.value + 4..]
            && Acceptable(data[..at.value], text, verb, path, body)
  {
    hide Acceptable, AcceptedBy, Read;
    var at := Find(data, DIVIDER, 0);
    if at.Some? {
      AcceptableIff(data[..at.value], text, verb, path, body);
      ReadIff(data[..at.value], data[at.value + 4..], text, verb, path, body);
    }
  }

  lemma OneDeclaration(lines: seq<string>, a: nat, b: nat)
    requires GoodHeaders(lines) && Declares(lines, a)
    ensures Declares(lines, b) <==> a == b
  {
  }

  // --- requests in pieces ---

  lemma {:induction false} FindInPrefix(text: string, pattern: string, from: nat, n: nat)
    requires n <= |text|
    ensures var whole := Find(text, pattern, from);
            Find(text[..n], pattern, from) == if whole.Some? && whole.value + |pattern| <= n then whole else None
    decreases |text| + 1 - from
  {
    if from + |pattern| <= n {
      assert text[..n][from..from + |pattern|] == text[from..from + |pattern|];
      FindInPrefix(text, pattern, from + 1, n);
    }
  }

  /** Cut short anywhere, an accepted request is still awaited, exactly when its head is no longer
      than 8189 bytes: over that, the search for the divider gives up one to three bytes before the
      divider is whole. */
  lemma AwaitedIff(data: Data, text: Data -> bool)
    requires Parse(data, text).Complete?
    ensures (forall n :: 0 <= n < |data| ==> Parse(data[..n], text) == Incomplete)
            <==> Find(data, DIVIDER, 0).value <= 8189
  {
    var d := Find(data, DIVIDER, 0).value;
    forall n | 0 <= n < |data|
      ensures Parse(data[..n], text) == if d + 4 <= n || n <= MOST_HEAD then Incomplete else Invalid
    {
      PrefixVerdict(data, n, text);
    }
    hide Parse;
    if d > 8189 {
      assert Parse(data[..d + 3], text) == Invalid;
    }
  }

  lemma PrefixVerdict(data: Data, n: nat, text: Data -> bool)
    requires Parse(data, text).Complete? && n < |data|
    ensures var d := Find(data, DIVIDER, 0).value;
            Parse(data[..n], text) == if d + 4 <= n || n <= MOST_HEAD then Incomplete else Invalid
  {
    var d := Find(data, DIVIDER, 0).value;
    FindInPrefix(data, DIVIDER, 0, n);
    if d + 4 <= n {
      assert data[..n][..d] == data[..d];
      assert data[..n][d + 4..] == data[d + 4..n];
    }
  }

  function Joined(pieces: seq<Data>): Data {
    if pieces == [] then "" else Joined(pieces[..|pieces| - 1]) + pieces[|pieces| - 1]
  }

  /** A way for `data` to arrive: reads of one to 4096 bytes. */
  ghost predicate Arrival(pieces: seq<Data>, data: Data) {
    && (forall i :: 0 <= i < |pieces| ==> 0 < |pieces[i]| <= 4096)
    && Joined(pieces) == data
  }

  datatype Outcome = Waiting(request: Data) | Refused | Handled(verb: string, path: string, body: Data)

  /** One read: what has come so far, the new bytes, and whether the peer has stopped sending. */
  function Receive(request: Data, piece: Data, last: bool, text: Data -> bool): Outcome {
    match Parse(request + piece, text)
    case Incomplete => if last then Refused else Waiting(request + piece)
    case Invalid => Refused
    case Complete(verb, path, body) => Handled(verb, path, body)
  }

  /** A request read piece by piece, up to the first decision. */
  function Serve(pieces: seq<Data>, last: bool, text: Data -> bool): Outcome
    decreases |pieces|
  {
    if pieces == [] then Waiting("")
    else
      match Serve(pieces[..|pieces| - 1], false, text)
      case Waiting(request) => Receive(request, pieces[|pieces| - 1], last, text)
      case decided => decided
  }

  lemma {:induction false} JoinedGrows(pieces: seq<Data>, i: nat)
    requires i <= |pieces|
    ensures Joined(pieces[..i]) <= Joined(pieces)
    ensures (forall k :: 0 <= k < |pieces| ==> pieces[k] != "") && i < |pieces|
            ==> |Joined(pieces[..i])| < |Joined(pieces)|
    decreases |pieces|
  {
    if i == |pieces| {
      assert pieces[..i] == pieces;
    } else {
      assert pieces[..|pieces| - 1][..i] == pieces[..i];
      JoinedGrows(pieces[..|pieces| - 1], i);
    }
  }

  /** Until the request is whole, nothing is decided. */
  lemma {:induction false} AwaitsAll(pieces: seq<Data>, i: nat, data: Data, text: Data -> bool)
    requires Arrival(pieces, data) && i < |pieces|
    requires forall n :: 0 <= n < |data| ==> Parse(data[..n], text) == Incomplete
    ensures Serve(pieces[..i], false, text) == Waiting(Joined(pieces[..i]))
    decreases i
  {
    if i > 0 {
      AwaitsAll(pieces, i - 1, data, text);
      assert pieces[..i][..i - 1] == pieces[..i - 1];
      JoinedGrows(pieces, i);
      var sofar := Joined(pieces[..i]);
      assert sofar == data[..|sofar|];
    }
  }

  /** Before the divider is whole nothing is handled, and over the limit the request is refused. */
  lemma {:induction false} EarlyVerdict(pieces: seq<Data>, text: Data -> bool)
    requires Find(Joined(pieces), DIVIDER, 0).None?
    ensures var r := Serve(pieces, false, text);
            r == Refused || (r == Waiting(Joined(pieces)) && |Joined(pieces)| <= MOST_HEAD)
    decreases |pieces|
  {
    if pieces != [] {
      var front := pieces[..|pieces| - 1];
      assert Joined(front) == Joined(pieces)[..|Joined(front)|];
      FindInPrefix(Joined(pieces), DIVIDER, 0, |Joined(front)|);
      EarlyVerdict(front, text);
    }
  }

  lemma {:induction false} StaysRefused(pieces: seq<Data>, i: nat, last: bool, text: Data -> bool)
    requires i < |pieces| && Serve(pieces[..i], false, text) == Refused
    ensures Serve(pieces, last, text) == Refused
    decreases |pieces|
  {
    if i < |pieces| - 1 {
      assert pieces[..|pieces| - 1][..i] == pieces[..i];
      StaysRefused(pieces[..|pieces| - 1], i, false, text);
    }
  }

  /** When the peer has stopped sending, what came is handled or refused: handled exactly if it is a
      request. */
  lemma DecidedAtEnd(request: Data, piece: Data, text: Data -> bool)
    ensures var r, p := Receive(request, piece, true, text), Parse(request + piece, text);
            && (r.Handled? <==> p.Complete?) && (r == Refused <==> !p.Complete?)
            && (p.Complete? ==> r == Handled(p.verb, p.path, p.body))
  {
  }

  /** An accepted request is handled however it is cut up, exactly when its head is no longer than
      8189 bytes. */
  lemma HandledIff(data: Data, text: Data -> bool, verb: string, path: string, body: Data)
    requires Parse(data, text) == Complete(verb, path, body)
    ensures (forall pieces, last :: Arrival(pieces, data) ==> Serve(pieces, last, text) == Handled(verb, path, body))
            <==> Find(data, DIVIDER, 0).value <= 8189
  {
    var d := Find(data, DIVIDER, 0).value;
    if d <= 8189 {
      AwaitedIff(data, text);
      forall pieces, last | Arrival(pieces, data)
        ensures Serve(pieces, last, text) == Handled(verb, path, body)
      {
        AwaitsAll(pieces, |pieces| - 1, data, text);
      }
    } else {
      RefusedWhenCut(data, d, text);
    }
  }

  /** Cut inside the divider, a longer one is refused. */
  lemma RefusedWhenCut(data: Data, d: nat, text: Data -> bool)
    requires Find(data, DIVIDER, 0) == Some(d) && d > 8189
    ensures exists pieces, last :: Arrival(pieces, data) && Serve(pieces, last, text) == Refused
  {
    hide Cut, Parse;
    var early, late := Cut(data[..d + 3]), Cut(data[d + 3..]);
    CutArrives(data[..d + 3]);
    CutArrives(data[d + 3..]);
    JoinedConcat(early, late);
    assert data[..d + 3] + data[d + 3..] == data;
    var pieces := early + late;
    assert Arrival(pieces, data);
    FindInPrefix(data, DIVIDER, 0, d + 3);
    EarlyVerdict(early, text);
    assert pieces[..|early|] == early;
    StaysRefused(pieces, |early|, false, text);
  }

  /** A request cut into full reads. */
  function Cut(data: Data): seq<Data>
    decreases |data|
  {
    if data == "" then []
    else if |data| <= MOST_READ then [data]
    else Cut(data[..|data| - MOST_READ]) + [data[|data| - MOST_READ..]]
  }

  lemma {:induction false} CutArrives(data: Data)
    ensures Arrival(Cut(data), data)
    decreases |data|
  {
    if |data| > MOST_READ {
      var front, last := data[..|data| - MOST_READ], data[|data| - MOST_READ..];
      CutArrives(front);
      assert (Cut(front) + [last])[..|Cut(front)|] == Cut(front);
      assert front + last == data;
    } else if data != "" {
      assert [data][..0] == [];
    }
  }

  lemma {:induction false} JoinedConcat(a: seq<Data>, b: seq<Data>)
    ensures Joined(a + b) == Joined(a) + Joined(b)
    decreases |b|
  {
    if b == [] {
      assert a + b == a;
    } else {
      assert (a + b)[..|a + b| - 1] == a + b[..|b| - 1];
      JoinedConcat(a, b[..|b| - 1]);
    }
  }
}
