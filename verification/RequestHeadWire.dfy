/** A writer of request heads, and the proof that the parser reads back what it writes. */
module RequestHeadWire {
  import opened Bytes
  import opened RequestHead

  const CRLF_CRLF: bytes := CRLF + CRLF

  /** Lines with CR LF between them. */
  function WriteLines(lines: seq<bytes>): bytes
    requires lines != []
  {
    if |lines| == 1 then lines[0] else lines[0] + CRLF + WriteLines(lines[1..])
  }

  /** What the parser sees when it cuts at LF. */
  function WithCr(lines: seq<bytes>): (cut: seq<bytes>)
    requires lines != []
    ensures |cut| == |lines|
    ensures forall i :: 0 <= i < |lines| - 1 ==> cut[i] == lines[i] + [CR]
    ensures cut[|lines| - 1] == lines[|lines| - 1]
  {
    if |lines| == 1 then lines else [lines[0] + [CR]] + WithCr(lines[1..])
  }

  predicate Plain(line: bytes) {
    line != [] && CR !in line && LF !in line
  }

  predicate AllPlain(lines: seq<bytes>) {
    forall i :: 0 <= i < |lines| ==> Plain(lines[i])
  }

  lemma {:induction false} LinesSplit(lines: seq<bytes>)
    requires lines != [] && AllPlain(lines)
    ensures Split(WriteLines(lines), LF) == WithCr(lines)
  {
    if |lines| == 1 {
      assert IndexOf(lines[0], LF) < 0;
    } else {
      var rest := WriteLines(lines[1..]);
      assert lines[0] + CRLF + rest == (lines[0] + [CR]) + [LF] + rest;
      SplitStep(lines[0] + [CR], rest, LF);
      LinesSplit(lines[1..]);
    }
  }

  lemma LineRecovered(lines: seq<bytes>, i: nat)
    requires lines != [] && AllPlain(lines) && i < |lines|
    ensures LineAt(WithCr(lines), i) == Ok(lines[i])
  {
    assert Plain(lines[i]);
    if i + 1 < |lines| {
      assert (lines[i] + [CR])[..|lines[i]|] == lines[i];
    }
  }

  // ----- headers

  function HeaderText(h: Header): bytes {
    h.name + [58] + h.value
  }

  /** A header in the form the parser gives it: lower-case name, legal value without outer white space. */
  predicate Writable(h: Header, limits: Limits) {
    && h.name != [] && IsLowerToken(h.name)
    && FieldValue(h.value) && TrimRight(TrimLeft(h.value)) == h.value
    && |HeaderText(h)| <= limits.maxHeaderLineBytes
  }

  lemma {:induction false} LowerTokenFacts(s: bytes)
    requires IsLowerToken(s)
    ensures AllTchar(s) && ToLower(s) == s && 58 !in s && CR !in s && LF !in s && SPACE !in s
    ensures s != [] ==> !IsOws(s[0])
  {
    if s != [] {
      LowerTokenFacts(s[1..]);
      assert s == [s[0]] + s[1..];
    }
  }

  lemma {:induction false} FieldValueBytes(s: bytes)
    requires FieldValue(s)
    ensures CR !in s && LF !in s
  {
    if s != [] {
      FieldValueBytes(s[1..]);
      assert s == [s[0]] + s[1..];
    }
  }

  lemma HeaderRead(h: Header, limits: Limits)
    requires Writable(h, limits)
    ensures ParseHeader(HeaderText(h), limits) == Ok(h) && Plain(HeaderText(h))
  {
    LowerTokenFacts(h.name);
    FieldValueBytes(h.value);
    var text := HeaderText(h);
    assert text[..|h.name|] == h.name && text[|h.name| + 1..] == h.value;
    FirstAt(text, 58, |h.name|);
  }

  function HeaderTexts(headers: seq<Header>): (texts: seq<bytes>)
    ensures |texts| == |headers| && forall i :: 0 <= i < |headers| ==> texts[i] == HeaderText(headers[i])
  {
    if headers == [] then [] else [HeaderText(headers[0])] + HeaderTexts(headers[1..])
  }

  predicate AllWritable(headers: seq<Header>, limits: Limits) {
    |headers| <= limits.maxHeaders && forall i :: 0 <= i < |headers| ==> Writable(headers[i], limits)
  }

  lemma HeadersStep(cut: seq<bytes>, i: nat, line: bytes, h: Header, limits: Limits)
    requires 1 <= i < |cut| && i - 1 < limits.maxHeaders
    requires LineAt(cut, i) == Ok(line) && ParseHeader(line, limits) == Ok(h)
    ensures ParseHeaders(cut, i, limits) == Preceded([h], ParseHeaders(cut, i + 1, limits))
  {
  }

  /** Line `i` is the text of header `i - 1`. */
  predicate Carries(cut: seq<bytes>, headers: seq<Header>, limits: Limits, i: int) {
    && 1 <= i < |cut| && i - 1 < |headers|
    && LineAt(cut, i).Ok? && ParseHeader(LineAt(cut, i).value, limits) == Ok(headers[i - 1])
  }

  lemma HeaderCarried(lines: seq<bytes>, headers: seq<Header>, i: nat, limits: Limits)
    requires lines != [] && lines[1..] == HeaderTexts(headers) && AllPlain(lines) && AllWritable(headers, limits)
    requires 1 <= i < |lines|
    ensures Carries(WithCr(lines), headers, limits, i)
  {
    LineRecovered(lines, i);
    assert lines[i] == lines[1..][i - 1];
    HeaderRead(headers[i - 1], limits);
  }

  lemma {:induction false} HeadersRead(cut: seq<bytes>, headers: seq<Header>, i: nat, limits: Limits)
    requires 1 <= i <= |cut| == |headers| + 1 && |headers| <= limits.maxHeaders
    requires forall k {:trigger Carries(cut, headers, limits, k)} :: 1 <= k < |cut| ==> Carries(cut, headers, limits, k)
    ensures ParseHeaders(cut, i, limits) == Ok(headers[i - 1..])
    decreases |cut| - i
  {
    if i < |cut| {
      assert Carries(cut, headers, limits, i);
      HeadersStep(cut, i, LineAt(cut, i).value, headers[i - 1], limits);
      HeadersRead(cut, headers, i + 1, limits);
      assert headers[i - 1..] == [headers[i - 1]] + headers[i..];
    } else {
      assert headers[i - 1..] == [];
    }
  }

  // ----- the request line

  function RequestText(verb: bytes, target: bytes): bytes {
    verb + [SPACE] + (target + [SPACE] + VERSION)
  }

  lemma {:induction false} TokenFacts(s: bytes)
    requires AllTchar(s)
    ensures SPACE !in s && CR !in s && LF !in s
  {
    if s != [] {
      TokenFacts(s[1..]);
      assert s == [s[0]] + s[1..];
    }
  }

  lemma {:induction false} VisibleFacts(s: bytes)
    requires AllVisible(s)
    ensures SPACE !in s && CR !in s && LF !in s
  {
    if s != [] {
      VisibleFacts(s[1..]);
      assert s == [s[0]] + s[1..];
    }
  }

  const VERSION: bytes := [72, 84, 84, 80, 47, 49, 46, 49]

  lemma VersionBytes()
    ensures Ascii("HTTP/1.1") == VERSION
    ensures SPACE !in VERSION && CR !in VERSION && LF !in VERSION
  {
  }

  lemma ThreeWords(a: bytes, b: bytes, c: bytes)
    requires SPACE !in a && SPACE !in b && SPACE !in c
    ensures Split(a + [SPACE] + (b + [SPACE] + c), SPACE) == [a, b, c]
  {
    SplitStep(a, b + [SPACE] + c, SPACE);
    SplitStep(b, c, SPACE);
    assert IndexOf(c, SPACE) < 0;
  }

  lemma TextWithout(x: byte, verb: bytes, target: bytes)
    requires x != SPACE && x !in verb && x !in target && x !in VERSION
    ensures x !in RequestText(verb, target)
  {
    NotInConcat(x, verb, [SPACE]);
    NotInConcat(x, target, [SPACE]);
    NotInConcat(x, target + [SPACE], VERSION);
    NotInConcat(x, verb + [SPACE], target + [SPACE] + VERSION);
  }

  lemma RequestTextPlain(verb: bytes, target: bytes)
    requires AllTchar(verb) && AllVisible(target)
    ensures Plain(RequestText(verb, target))
    ensures Split(RequestText(verb, target), SPACE) == [verb, target, Ascii("HTTP/1.1")]
  {
    TokenFacts(verb);
    VisibleFacts(target);
    VersionBytes();
    ThreeWords(verb, target, VERSION);
    TextWithout(CR, verb, target);
    TextWithout(LF, verb, target);
  }

  lemma RequestLineRead(verb: bytes, target: bytes, limits: Limits)
    requires verb != [] && AllTchar(verb) && AllVisible(target)
    requires |RequestText(verb, target)| <= limits.maxRequestLineBytes
    ensures ParseRequestLine(RequestText(verb, target), limits) == ParseTarget(verb, target)
    ensures Plain(RequestText(verb, target))
  {
    RequestTextPlain(verb, target);
  }

  // ----- a whole head

  function HeadLines(verb: bytes, target: bytes, headers: seq<Header>): seq<bytes> {
    [RequestText(verb, target)] + HeaderTexts(headers)
  }

  function WriteHead(verb: bytes, target: bytes, headers: seq<Header>): bytes {
    WriteLines(HeadLines(verb, target, headers))
  }

  predicate WritableHead(verb: bytes, target: bytes, headers: seq<Header>, limits: Limits) {
    && verb != [] && AllTchar(verb) && AllVisible(target)
    && |RequestText(verb, target)| <= limits.maxRequestLineBytes
    && AllWritable(headers, limits)
  }

  lemma HeadLinesPlain(verb: bytes, target: bytes, headers: seq<Header>, limits: Limits)
    requires WritableHead(verb, target, headers, limits)
    ensures AllPlain(HeadLines(verb, target, headers)) && HeadLines(verb, target, headers)[1..] == HeaderTexts(headers)
  {
    var lines := HeadLines(verb, target, headers);
    assert lines[1..] == HeaderTexts(headers);
    RequestLineRead(verb, target, limits);
    forall i | 0 <= i < |lines| ensures Plain(lines[i]) {
      if i > 0 {
        assert lines[i] == HeaderText(headers[i - 1]);
        HeaderRead(headers[i - 1], limits);
      }
    }
  }

  /** A written head parses to its own method, target and headers; only the target and the framing
      fields can still be at fault. */
  lemma HeadRoundTrip(verb: bytes, target: bytes, headers: seq<Header>, limits: Limits)
    requires WritableHead(verb, target, headers, limits)
    ensures ParseHead(WriteHead(verb, target, headers), limits)
            == match ParseTarget(verb, target)
               case Err(error) => Err(error)
               case Ok(line) => Framing(line, headers)
  {
    var lines := HeadLines(verb, target, headers);
    HeadLinesPlain(verb, target, headers, limits);
    LinesSplit(lines);
    LineRecovered(lines, 0);
    RequestLineRead(verb, target, limits);
    forall k | 1 <= k < |lines| ensures Carries(WithCr(lines), headers, limits, k) {
      HeaderCarried(lines, headers, k, limits);
    }
    HeadersRead(WithCr(lines), headers, 1, limits);
    assert headers[0..] == headers;
  }

  // ----- and is found in front of its body

  lemma HeadEndSkip(a: bytes, s: bytes)
    requires HeadEnd(s) >= 0 && forall i :: 0 <= i < |a| ==> !BlankLineAt(a + s, i)
    ensures HeadEnd(a + s) == |a| + HeadEnd(s)
  {
    var p, q := HeadEnd(s), HeadEnd(a + s);
    assert BlankLineAt(a + s, |a| + p);
    assert q >= |a| ==> BlankLineAt(s, q - |a|);
  }

  lemma {:induction false} BlankLineFound(lines: seq<bytes>, body: bytes)
    requires lines != [] && AllPlain(lines)
    ensures HeadEnd(WriteLines(lines) + CRLF_CRLF + body) == |WriteLines(lines)|
  {
    var first := lines[0];
    assert Plain(first);
    if |lines| == 1 {
      var tail := CRLF_CRLF + body;
      assert BlankLineAt(tail, 0);
      Assoc(first, CRLF_CRLF, body);
      HeadEndSkip(first, tail);
    } else {
      var rest := WriteLines(lines[1..]) + CRLF_CRLF + body;
      BlankLineFound(lines[1..], body);
      FirstByte(lines[1..]);
      assert rest[0] != CR;
      var a := first + CRLF;
      assert WriteLines(lines) + CRLF_CRLF + body == a + rest by {
        Assoc(a + WriteLines(lines[1..]), CRLF_CRLF, body);
        Assoc(a, WriteLines(lines[1..]), CRLF_CRLF + body);
        Assoc(WriteLines(lines[1..]), CRLF_CRLF, body);
      }
      HeadEndSkip(a, rest);
    }
  }

  lemma FirstByte(lines: seq<bytes>)
    requires lines != [] && AllPlain(lines)
    ensures WriteLines(lines) != [] && WriteLines(lines)[0] != CR
  {
    assert Plain(lines[0]);
  }

  /** A written head, the blank line and any body are read as that head and that body. */
  lemma RequestRoundTrip(verb: bytes, target: bytes, headers: seq<Header>, body: bytes, limits: Limits)
    requires WritableHead(verb, target, headers, limits)
    requires |WriteHead(verb, target, headers)| + 4 <= limits.maxHeadBytes
    requires ParseTarget(verb, target).Ok? && Framing(ParseTarget(verb, target).value, headers).Ok?
    ensures Read(WriteHead(verb, target, headers) + CRLF_CRLF + body, limits)
            == Complete(Framing(ParseTarget(verb, target).value, headers).value, body)
  {
    var text := WriteHead(verb, target, headers);
    HeadLinesPlain(verb, target, headers, limits);
    BlankLineFound(HeadLines(verb, target, headers), body);
    HeadRoundTrip(verb, target, headers, limits);
    var all := text + CRLF_CRLF + body;
    assert all[..|text|] == text && all[|text| + 4..] == body;
  }
}
