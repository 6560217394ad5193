/** The canonical request of src/protocol/sigv4.rs: what is signed determines what is routed. */
module SigV4 {
  import opened Bytes
  import opened Ordering
  import opened Percent
  import opened PathStyle
  import opened RequestHead
  import Query

  const COLON: byte := 58
  const SEMICOLON: byte := 59
  const COMMA: byte := 44

  // ----- header values

  /** Runs of white space become one space; `skipping` drops leading ones. */
  function Squeeze(s: bytes, skipping: bool): bytes {
    if s == [] then []
    else if IsOws(s[0]) then (if skipping then [] else [SPACE]) + Squeeze(s[1..], true)
    else [s[0]] + Squeeze(s[1..], false)
  }

  function Normalize(value: bytes): bytes {
    var squeezed := Squeeze(value, true);
    if squeezed != [] && squeezed[|squeezed| - 1] == SPACE then squeezed[..|squeezed| - 1] else squeezed
  }

  lemma SqueezeStep(value: bytes, i: nat, skipping: bool)
    requires i < |value|
    ensures Squeeze(value[i..], skipping)
            == if !IsOws(value[i]) then [value[i]] + Squeeze(value[i + 1..], false)
               else if skipping then Squeeze(value[i + 1..], true)
               else [SPACE] + Squeeze(value[i + 1..], true)
  {
    assert value[i..][0] == value[i] && value[i..][1..] == value[i + 1..];
    assert [] + Squeeze(value[i + 1..], true) == Squeeze(value[i + 1..], true);
  }

  method NormalizeHeaderValue(value: bytes) returns (normalized: bytes)
    ensures normalized == Normalize(value)
  {
    normalized := [];
    var skipping := true;
    assert value[0..] == value && [] + Squeeze(value, true) == Squeeze(value, true);
    for i := 0 to |value|
      invariant Squeeze(value, true) == normalized + Squeeze(value[i..], skipping)
    {
      SqueezeStep(value, i, skipping);
      var b := value[i];
      if IsOws(b) {
        if !skipping {
          Assoc(normalized, [SPACE], Squeeze(value[i + 1..], true));
          normalized := normalized + [SPACE];
          skipping := true;
        }
      } else {
        Assoc(normalized, [b], Squeeze(value[i + 1..], false));
        normalized := normalized + [b];
        skipping := false;
      }
    }
    assert normalized + [] == normalized;
    if normalized != [] && normalized[|normalized| - 1] == SPACE {
      normalized := normalized[..|normalized| - 1];
    }
  }

  /** Number of bytes before the first white space. */
  function WordLength(s: bytes): (n: nat)
    ensures n <= |s| && (n < |s| ==> IsOws(s[n]))
  {
    if s == [] || IsOws(s[0]) then 0 else 1 + WordLength(s[1..])
  }

  /** The maximal runs without white space. */
  function Words(s: bytes): seq<bytes> {
    if s == [] then []
    else if IsOws(s[0]) then Words(s[1..])
    else
      var n := WordLength(s);
      assert n == 1 + WordLength(s[1..]);
      [s[..n]] + Words(s[n..])
  }

  predicate EndsInOws(s: bytes) {
    s != [] && IsOws(s[|s| - 1])
  }

  function TrailingSpace(s: bytes): bytes {
    if Words(s) != [] && EndsInOws(s) then [SPACE] else []
  }

  lemma {:induction false} SqueezeWord(s: bytes, skipping: bool)
    requires s != [] && (skipping ==> !IsOws(s[0]))
    ensures Squeeze(s, skipping) == s[..WordLength(s)] + Squeeze(s[WordLength(s)..], false)
    decreases |s|
  {
    if !IsOws(s[0]) {
      var tail := s[1..];
      var n := WordLength(tail);
      assert WordLength(s) == n + 1;
      if tail != [] {
        SqueezeWord(tail, false);
      }
      assert s[..n + 1] == [s[0]] + tail[..n] && s[n + 1..] == tail[n..];
      Assoc([s[0]], tail[..n], Squeeze(tail[n..], false));
    } else {
      assert s[..0] == [] && s[0..] == s;
    }
  }

  /** Squeezing writes the words with one space between them, and one after them if the value ends in
      white space. */
  lemma {:induction false} SqueezeIsWords(s: bytes)
    ensures Squeeze(s, true) == Join(Words(s), SPACE) + TrailingSpace(s)
    decreases |s|
  {
    if s == [] {
    } else if IsOws(s[0]) {
      SqueezeIsWords(s[1..]);
      assert [] + Squeeze(s[1..], true) == Squeeze(s[1..], true);
      assert s[1..] == [] ==> Words(s) == [];
    } else {
      var n := WordLength(s);
      assert n == 1 + WordLength(s[1..]);
      SqueezeWord(s, true);
      if n < |s| {
        SqueezeIsWords(s[n + 1..]);
        WordThenSpace(s, n);
      } else {
        WordBytes(s);
        assert s[..n] == s && s[n..] == [];
        assert Words(s) == [s] && s + [] == s;
      }
    }
  }

  lemma WordThenSpace(s: bytes, n: nat)
    requires 0 < n < |s| && !IsOws(s[0]) && n == WordLength(s)
    requires Squeeze(s[n + 1..], true) == Join(Words(s[n + 1..]), SPACE) + TrailingSpace(s[n + 1..])
    ensures s[..n] + Squeeze(s[n..], false) == Join(Words(s), SPACE) + TrailingSpace(s)
  {
    var w, t := s[..n], s[n + 1..];
    assert s[n..][1..] == t;
    assert Words(s) == [w] + Words(t);
    assert Squeeze(s[n..], false) == [SPACE] + Squeeze(t, true);
    SpaceThenWords(w, t, Words(t), Squeeze(t, true));
    if Words(t) == [] {
      NoWords(t);
    }
    assert t == [] || s[|s| - 1] == t[|t| - 1];
  }

  lemma SpaceThenWords(w: bytes, t: bytes, words: seq<bytes>, squeezed: bytes)
    requires squeezed == Join(words, SPACE) + (if words != [] && EndsInOws(t) then [SPACE] else [])
    ensures w + ([SPACE] + squeezed)
            == Join([w] + words, SPACE) + (if words == [] || EndsInOws(t) then [SPACE] else [])
  {
    if words == [] {
      assert [w] + words == [w];
    } else {
      JoinCons(w, words, SPACE);
      Assoc(w, [SPACE], squeezed);
      Assoc(w + [SPACE], Join(words, SPACE), if EndsInOws(t) then [SPACE] else []);
    }
  }

  lemma {:induction false} NoWords(s: bytes)
    requires Words(s) == []
    ensures forall i :: 0 <= i < |s| ==> IsOws(s[i])
  {
    if s != [] {
      NoWords(s[1..]);
    }
  }

  lemma {:induction false} WordsEnd(s: bytes)
    ensures forall i :: 0 <= i < |Words(s)| ==> Words(s)[i] != [] && !EndsInOws(Words(s)[i])
    decreases |s|
  {
    if s == [] {
    } else if IsOws(s[0]) {
      WordsEnd(s[1..]);
    } else {
      var n := WordLength(s);
      assert n == 1 + WordLength(s[1..]);
      WordBytes(s);
      WordsEnd(s[n..]);
    }
  }

  lemma {:induction false} WordBytes(s: bytes)
    ensures forall i :: 0 <= i < WordLength(s) ==> !IsOws(s[i])
  {
    if s != [] && !IsOws(s[0]) {
      WordBytes(s[1..]);
    }
  }

  lemma {:induction false} JoinedEnd(words: seq<bytes>)
    requires words != [] && forall i :: 0 <= i < |words| ==> words[i] != [] && !EndsInOws(words[i])
    ensures Join(words, SPACE) != [] && !EndsInOws(Join(words, SPACE))
  {
    if |words| > 1 {
      JoinedEnd(words[1..]);
    }
  }

  /** A normalized value is the words of the value with single spaces between them. */
  lemma NormalizeIsWords(value: bytes)
    ensures Normalize(value) == Join(Words(value), SPACE)
  {
    SqueezeIsWords(value);
    var joined := Join(Words(value), SPACE);
    if Words(value) != [] {
      WordsEnd(value);
      JoinedEnd(Words(value));
      assert (joined + [SPACE])[..|joined|] == joined;
    }
    assert joined + [] == joined;
  }

  // ----- canonical headers

  function NormalizedAll(values: seq<bytes>): seq<bytes> {
    if values == [] then [] else [Normalize(values[0])] + NormalizedAll(values[1..])
  }

  /** The canonical value of a signed header: its values, normalized and joined with commas. */
  function CanonicalValue(headers: seq<Header>, name: bytes): bytes {
    Join(NormalizedAll(Values(headers, name)), COMMA)
  }

  function HeaderLine(headers: seq<Header>, name: bytes): bytes {
    name + [COLON] + CanonicalValue(headers, name)
  }

  function HeaderLines(headers: seq<Header>, signed: seq<bytes>): (lines: seq<bytes>)
    ensures |lines| == |signed| && forall i :: 0 <= i < |signed| ==> lines[i] == HeaderLine(headers, signed[i])
  {
    if signed == [] then [] else [HeaderLine(headers, signed[0])] + HeaderLines(headers, signed[1..])
  }

  predicate AllPresent(headers: seq<Header>, signed: seq<bytes>) {
    forall i :: 0 <= i < |signed| ==> Values(headers, signed[i]) != []
  }

  function Terminated(lines: seq<bytes>): bytes {
    if lines == [] then [] else lines[0] + [LF] + Terminated(lines[1..])
  }

  function CanonicalHeaders(headers: seq<Header>, signed: seq<bytes>): Option<bytes> {
    if AllPresent(headers, signed) then Some(Terminated(HeaderLines(headers, signed))) else None
  }

  lemma {:induction false} TerminatedSnoc(lines: seq<bytes>, line: bytes)
    ensures Terminated(lines + [line]) == Terminated(lines) + (line + [LF])
  {
    if lines == [] {
      assert lines + [line] == [line];
    } else {
      TerminatedSnoc(lines[1..], line);
      assert (lines + [line])[1..] == lines[1..] + [line];
    }
  }

  method CanonicalValueOf(values: seq<bytes>) returns (joined: bytes)
    ensures joined == Join(NormalizedAll(values), COMMA)
  {
    joined := [];
    for i := 0 to |values|
      invariant joined == Join(NormalizedAll(values[..i]), COMMA)
    {
      var normalized := NormalizeHeaderValue(values[i]);
      JoinSnoc(values, i);
      joined := (if i != 0 then joined + [COMMA] else joined) + normalized;
    }
    assert values[..|values|] == values;
  }

  lemma {:induction false} NormalizedSnoc(values: seq<bytes>, value: bytes)
    ensures NormalizedAll(values + [value]) == NormalizedAll(values) + [Normalize(value)]
  {
    if values == [] {
      assert values + [value] == [value];
    } else {
      NormalizedSnoc(values[1..], value);
      assert (values + [value])[1..] == values[1..] + [value];
    }
  }

  lemma {:induction false} JoinLast(parts: seq<bytes>, part: bytes, d: byte)
    ensures Join(parts + [part], d) == (if parts == [] then [] else Join(parts, d) + [d]) + part
  {
    if parts == [] {
      assert parts + [part] == [part];
    } else {
      JoinLast(parts[1..], part, d);
      assert (parts + [part])[1..] == parts[1..] + [part];
    }
  }

  lemma JoinSnoc(values: seq<bytes>, i: nat)
    requires i < |values|
    ensures Join(NormalizedAll(values[..i + 1]), COMMA)
            == (if i == 0 then [] else Join(NormalizedAll(values[..i]), COMMA) + [COMMA]) + Normalize(values[i])
  {
    assert values[..i + 1] == values[..i] + [values[i]];
    NormalizedSnoc(values[..i], values[i]);
    JoinLast(NormalizedAll(values[..i]), Normalize(values[i]), COMMA);
  }

  method BuildCanonicalHeaders(headers: seq<Header>, signed: seq<bytes>) returns (canonical: Option<bytes>)
    ensures canonical == CanonicalHeaders(headers, signed)
  {
    var text: bytes := [];
    for i := 0 to |signed|
      invariant AllPresent(headers, signed[..i]) && text == Terminated(HeaderLines(headers, signed[..i]))
    {
      var values := Values(headers, signed[i]);
      if values == [] {
        return None;
      }
      var joined := CanonicalValueOf(values);
      assert signed[..i + 1] == signed[..i] + [signed[i]];
      TerminatedSnoc(HeaderLines(headers, signed[..i]), HeaderLine(headers, signed[i]));
      assert HeaderLines(headers, signed[..i + 1])
             == HeaderLines(headers, signed[..i]) + [HeaderLine(headers, signed[i])];
      text := text + (signed[i] + [COLON] + joined + [LF]);
    }
    assert signed[..|signed|] == signed;
    return Some(text);
  }

  // ----- the signed header list

  predicate StrictlyAscending(names: seq<bytes>) {
    forall i :: 0 <= i < |names| - 1 ==> LexLeq(names[i], names[i + 1]) && names[i] != names[i + 1]
  }

  predicate SignedList(names: seq<bytes>) {
    && names != []
    && (forall i :: 0 <= i < |names| ==> names[i] != [] && IsLowerToken(names[i]))
    && StrictlyAscending(names)
  }

  function ParseSignedHeaders(value: bytes): Option<seq<bytes>> {
    var names := Split(value, SEMICOLON);
    if SignedList(names) then Some(names) else None
  }

  /** The list is exactly the names that spell the value. */
  lemma SignedHeadersExact(value: bytes, names: seq<bytes>)
    ensures ParseSignedHeaders(value) == Some(names) <==> SignedList(names) && Join(names, SEMICOLON) == value
  {
    JoinSplit(value, SEMICOLON);
    if SignedList(names) && Join(names, SEMICOLON) == value {
      forall i | 0 <= i < |names| ensures SEMICOLON !in names[i] {
        LowerTokenBytes(names[i]);
      }
      SplitJoin(names, SEMICOLON);
    }
  }

  // ----- the canonical request

  datatype Request = Request(head: Head, signed: seq<bytes>, payload: bytes, exclude: bool)

  function UnsignedPayload(): bytes { Ascii("UNSIGNED-PAYLOAD") }

  function ContentSha256(): bytes { Ascii("x-amz-content-sha256") }

  function AlgorithmParameter(): bytes { Ascii("X-Amz-Algorithm") }

  predicate HasParam(params: seq<Pair>, name: bytes) {
    exists p :: p in params && p.name == name
  }

  function ParamValues(params: seq<Pair>, name: bytes): seq<bytes> {
    if params == [] then []
    else if params[0].name == name then [params[0].value] + ParamValues(params[1..], name)
    else ParamValues(params[1..], name)
  }

  function Only(values: seq<bytes>): Option<bytes> {
    if |values| == 1 then Some(values[0]) else None
  }

  predicate IsAmz(name: bytes) {
    Ascii("x-amz-") <= name
  }

  /** The payload literals that are understood; the last form is a SHA-256 in hexadecimal. */
  predicate PayloadLiteral(value: bytes) {
    || value == UnsignedPayload()
    || value == Ascii("STREAMING-AWS4-HMAC-SHA256-PAYLOAD")
    || value == Ascii("STREAMING-UNSIGNED-PAYLOAD-TRAILER")
    || (|value| == 64 && AllHex(value))
  }

  /** The host and every field of the x-amz- family are signed, and only fields that are present. */
  predicate Covers(headers: seq<Header>, signed: seq<bytes>) {
    && Ascii("host") in signed && AllPresent(headers, signed)
    && forall i :: 0 <= i < |headers| && IsAmz(headers[i].name) && headers[i].name != ContentSha256() ==>
         headers[i].name in signed
  }

  /** The request whose canonical form is checked for a head: authenticated by its header or by its
      query, never both. `attribute` is the list of signed headers in the authorization field; a
      presigned request has it among its parameters. */
  function ToVerify(head: Head, attribute: bytes): Option<Request> {
    var inHeader := Values(head.headers, Ascii("authorization")) != [];
    var inQuery := HasParam(head.line.params, AlgorithmParameter());
    if inHeader == inQuery then None
    else
      var listed := ParamValues(head.line.params, Ascii("X-Amz-SignedHeaders"));
      var list := if inQuery then Only(listed) else Some(attribute);
      var payload := if inQuery then Some(UnsignedPayload()) else Only(Values(head.headers, ContentSha256()));
      if list.None? || payload.None? || !PayloadLiteral(payload.value) then None
      else
        var signed := ParseSignedHeaders(list.value);
        if signed.None? || !Covers(head.headers, signed.value) then None
        else Some(Request(head, signed.value, payload.value, inQuery))
  }

  /** What has been established when a canonical request is built. */
  ghost predicate Accepted(r: Request) {
    && WellFormedHead(r.head)
    && SignedList(r.signed) && Covers(r.head.headers, r.signed)
    && r.exclude == HasParam(r.head.line.params, AlgorithmParameter())
    && (if r.exclude then Values(r.head.headers, Ascii("authorization")) == [] && r.payload == UnsignedPayload()
        else && Values(r.head.headers, Ascii("authorization")) != []
             && Values(r.head.headers, ContentSha256()) == [r.payload])
  }

  /** Every head that parses and gets as far as its canonical request is accepted. */
  lemma ParsedAccepted(head: bytes, limits: Limits, attribute: bytes)
    requires ParseHead(head, limits).Ok?
    requires ToVerify(ParseHead(head, limits).value, attribute).Some?
    ensures Accepted(ToVerify(ParseHead(head, limits).value, attribute).value)
  {
    ParsedHeadWellFormed(head, limits);
    var parsed := ParseHead(head, limits).value;
    var values := Values(parsed.headers, ContentSha256());
    assert |values| == 1 ==> values == [values[0]];
  }

  function QueryText(r: Request): bytes {
    if r.head.line.query.Some? then r.head.line.query.value else []
  }

  function CanonicalRequest(r: Request): Option<bytes> {
    var uri := CanonicalUri(r.head.line.path);
    var query := Query.CanonicalQuery(r.head.line.query, r.exclude);
    var headers := CanonicalHeaders(r.head.headers, r.signed);
    if uri.None? || query.None? || headers.None? then None
    else
      Some(r.head.line.verb + [LF] + uri.value + [LF] + query.value + [LF] + headers.value + [LF]
           + Join(r.signed, SEMICOLON) + [LF] + r.payload)
  }

  /** The lines of the canonical request. */
  function RequestLines(r: Request): seq<bytes>
    requires CanonicalRequest(r).Some?
  {
    [r.head.line.verb, CanonicalUri(r.head.line.path).value,
     Query.CanonicalQuery(r.head.line.query, r.exclude).value]
    + (HeaderLines(r.head.headers, r.signed) + [[], Join(r.signed, SEMICOLON), r.payload])
  }

  lemma {:induction false} JoinTerminated(lines: seq<bytes>, rest: seq<bytes>)
    requires rest != []
    ensures Join(lines + rest, LF) == Terminated(lines) + Join(rest, LF)
  {
    if lines == [] {
      assert lines + rest == rest;
    } else {
      JoinTerminated(lines[1..], rest);
      assert (lines + rest)[1..] == lines[1..] + rest;
      Assoc(lines[0] + [LF], Terminated(lines[1..]), Join(rest, LF));
    }
  }

  lemma TailLines(names: bytes, payload: bytes)
    ensures Join([[], names, payload], LF) == [LF] + names + [LF] + payload
  {
    assert [[], names, payload] == [[]] + [names, payload] && [names, payload] == [names] + [payload];
    JoinCons([], [names, payload], LF);
    JoinCons(names, [payload], LF);
    assert [] + [LF] == [LF];
    Assoc([LF], names + [LF], payload);
    Assoc([LF], names, [LF]);
  }

  lemma FrontLines(verb: bytes, uri: bytes, query: bytes, rest: seq<bytes>)
    requires rest != []
    ensures Join([verb, uri, query] + rest, LF) == verb + [LF] + uri + [LF] + query + [LF] + Join(rest, LF)
  {
    var (two, one) := ([uri] + ([query] + rest), [query] + rest);
    assert [verb, uri, query] + rest == [verb] + two;
    JoinCons(verb, two, LF);
    JoinCons(uri, one, LF);
    JoinCons(query, rest, LF);
    Flat(verb, uri, query, Join(rest, LF));
  }

  lemma Flat(verb: bytes, uri: bytes, query: bytes, rest: bytes)
    ensures verb + [LF] + (uri + [LF] + (query + [LF] + rest)) == verb + [LF] + uri + [LF] + query + [LF] + rest
  {
  }

  /** The canonical request is its lines joined by LF. */
  lemma CanonicalIsJoined(r: Request)
    requires CanonicalRequest(r).Some?
    ensures CanonicalRequest(r).value == Join(RequestLines(r), LF)
  {
    var lines := HeaderLines(r.head.headers, r.signed);
    var names := Join(r.signed, SEMICOLON);
    var tail := [[], names, r.payload];
    FrontLines(r.head.line.verb, CanonicalUri(r.head.line.path).value,
               Query.CanonicalQuery(r.head.line.query, r.exclude).value, lines + tail);
    JoinTerminated(lines, tail);
    TailLines(names, r.payload);
    Regroup(r.head.line.verb + [LF] + CanonicalUri(r.head.line.path).value + [LF]
            + Query.CanonicalQuery(r.head.line.query, r.exclude).value + [LF], Terminated(lines), names, r.payload);
  }

  lemma Regroup(front: bytes, middle: bytes, names: bytes, payload: bytes)
    ensures front + middle + [LF] + names + [LF] + payload == front + (middle + ([LF] + names + [LF] + payload))
  {
  }

  // ----- no piece contains a line feed

  lemma {:induction false} TokenBytes(s: bytes)
    requires AllTchar(s)
    ensures LF !in s
  {
    if s != [] {
      TokenBytes(s[1..]);
      assert s == [s[0]] + s[1..];
    }
  }

  lemma {:induction false} LowerTokenBytes(s: bytes)
    requires IsLowerToken(s)
    ensures LF !in s && COLON !in s && SEMICOLON !in s
  {
    if s != [] {
      LowerTokenBytes(s[1..]);
      assert s == [s[0]] + s[1..];
    }
  }

  lemma {:induction false} SqueezedBytes(s: bytes, skipping: bool)
    requires FieldValue(s)
    ensures LF !in Squeeze(s, skipping)
  {
    if s != [] {
      SqueezedBytes(s[1..], IsOws(s[0]));
    }
  }

  lemma {:induction false} ValueBytes(headers: seq<Header>, name: bytes)
    requires WellFormedHeaders(headers)
    ensures forall i :: 0 <= i < |Values(headers, name)| ==> FieldValue(Values(headers, name)[i])
  {
    if headers != [] {
      ValueBytes(headers[1..], name);
    }
  }

  lemma {:induction false} JoinedBytes(values: seq<bytes>)
    requires forall i :: 0 <= i < |values| ==> FieldValue(values[i])
    ensures LF !in Join(NormalizedAll(values), COMMA)
  {
    if values != [] {
      JoinedBytes(values[1..]);
      SqueezedBytes(values[0], true);
      assert LF !in Normalize(values[0]);
      assert NormalizedAll(values)[1..] == NormalizedAll(values[1..]);
    }
  }

  lemma HeaderLineBytes(headers: seq<Header>, name: bytes)
    requires WellFormedHeaders(headers) && IsLowerToken(name)
    ensures LF !in HeaderLine(headers, name)
  {
    LowerTokenBytes(name);
    ValueBytes(headers, name);
    JoinedBytes(Values(headers, name));
  }

  lemma {:induction false} NamesBytes(names: seq<bytes>)
    requires forall i :: 0 <= i < |names| ==> IsLowerToken(names[i])
    ensures LF !in Join(names, SEMICOLON)
  {
    if names != [] {
      LowerTokenBytes(names[0]);
      NamesBytes(names[1..]);
    }
  }

  lemma {:induction false} FieldBytes(s: bytes)
    requires FieldValue(s)
    ensures LF !in s
  {
    if s != [] {
      FieldBytes(s[1..]);
      assert s == [s[0]] + s[1..];
    }
  }

  lemma UnsignedBytes()
    ensures LF !in UnsignedPayload()
  {
  }

  lemma PayloadBytes(r: Request)
    requires Accepted(r)
    ensures LF !in r.payload
  {
    if r.exclude {
      UnsignedBytes();
    } else {
      ValueBytes(r.head.headers, ContentSha256());
      FieldBytes(Values(r.head.headers, ContentSha256())[0]);
    }
  }

  lemma FrontBytes(r: Request)
    requires Accepted(r)
    ensures CanonicalUri(r.head.line.path).Some? && LF !in CanonicalUri(r.head.line.path).value
    ensures Query.CanonicalQuery(r.head.line.query, r.exclude).Some?
    ensures LF !in Query.CanonicalQuery(r.head.line.query, r.exclude).value
    ensures LF !in r.head.line.verb
  {
    TokenBytes(r.head.line.verb);
    CanonicalMeaning(r.head.line.path);
    CanonicalAlphabet(r.head.line.path);
    if r.head.line.query.Some? {
      Query.CanonicalQueryAlphabet(r.head.line.query.value, r.exclude);
    }
  }

  lemma LineBytes(r: Request, i: nat)
    requires Accepted(r) && CanonicalRequest(r).Some? && i < |RequestLines(r)|
    ensures LF !in RequestLines(r)[i]
  {
    var n := |r.signed|;
    if i < 3 {
      FrontBytes(r);
    } else if i < 3 + n {
      assert RequestLines(r)[i] == HeaderLine(r.head.headers, r.signed[i - 3]);
      HeaderLineBytes(r.head.headers, r.signed[i - 3]);
    } else {
      NamesBytes(r.signed);
      PayloadBytes(r);
      var tail := [[], Join(r.signed, SEMICOLON), r.payload];
      assert RequestLines(r)[i] == tail[i - 3 - n];
    }
  }

  /** An accepted request has a canonical request, whose lines can be told apart. */
  lemma LinesSplit(r: Request)
    requires Accepted(r)
    ensures CanonicalRequest(r).Some?
    ensures Split(CanonicalRequest(r).value, LF) == RequestLines(r)
  {
    FrontBytes(r);
    CanonicalIsJoined(r);
    var lines := RequestLines(r);
    forall i | 0 <= i < |lines| ensures LF !in lines[i] {
      LineBytes(r, i);
    }
    SplitJoin(lines, LF);
  }

  lemma NamesRecovered(a: seq<bytes>, b: seq<bytes>)
    requires SignedList(a) && SignedList(b) && Join(a, SEMICOLON) == Join(b, SEMICOLON)
    ensures a == b
  {
    forall i | 0 <= i < |a| ensures SEMICOLON !in a[i] {
      LowerTokenBytes(a[i]);
    }
    forall i | 0 <= i < |b| ensures SEMICOLON !in b[i] {
      LowerTokenBytes(b[i]);
    }
    SplitJoin(a, SEMICOLON);
    SplitJoin(b, SEMICOLON);
  }

  lemma SameLines(a: Request, b: Request)
    requires CanonicalRequest(a).Some? && CanonicalRequest(b).Some? && RequestLines(a) == RequestLines(b)
    ensures a.head.line.verb == b.head.line.verb && a.payload == b.payload
    ensures CanonicalUri(a.head.line.path) == CanonicalUri(b.head.line.path)
    ensures Query.CanonicalQuery(a.head.line.query, a.exclude) == Query.CanonicalQuery(b.head.line.query, b.exclude)
    ensures Join(a.signed, SEMICOLON) == Join(b.signed, SEMICOLON)
    ensures HeaderLines(a.head.headers, a.signed) == HeaderLines(b.head.headers, b.signed)
  {
    ThreeParts(
      [a.head.line.verb, CanonicalUri(a.head.line.path).value,
       Query.CanonicalQuery(a.head.line.query, a.exclude).value],
      HeaderLines(a.head.headers, a.signed), [[], Join(a.signed, SEMICOLON), a.payload],
      [b.head.line.verb, CanonicalUri(b.head.line.path).value,
       Query.CanonicalQuery(b.head.line.query, b.exclude).value],
      HeaderLines(b.head.headers, b.signed), [[], Join(b.signed, SEMICOLON), b.payload]);
  }

  lemma ThreeParts(
    front: seq<bytes>, middle: seq<bytes>, tail: seq<bytes>, front': seq<bytes>, middle': seq<bytes>, tail': seq<bytes>)
    requires |front| == |front'| == 3 && |tail| == |tail'| == 3
    requires front + (middle + tail) == front' + (middle' + tail')
    ensures front[0] == front'[0] && front[1] == front'[1] && front[2] == front'[2]
    ensures middle == middle' && tail[1] == tail'[1] && tail[2] == tail'[2]
  {
    var x, y, n := front + (middle + tail), front' + (middle' + tail'), |middle|;
    assert |x| == n + 6 && |y| == |middle'| + 6;
    assert x[..3] == front && y[..3] == front';
    assert x[3..n + 3] == middle && y[3..n + 3] == middle';
    assert x[n + 3..] == tail && y[n + 3..] == tail';
  }

  /** The canonical request is unambiguous: accepted requests with the same canonical bytes agree on
      the method, the canonical path and query, the list of signed headers, the canonical value of
      each of them, and the payload literal. */
  lemma Unambiguous(a: Request, b: Request)
    requires Accepted(a) && Accepted(b)
    ensures CanonicalRequest(a).Some? && CanonicalRequest(b).Some?
    ensures CanonicalRequest(a) == CanonicalRequest(b) ==>
              && a.head.line.verb == b.head.line.verb
              && CanonicalUri(a.head.line.path) == CanonicalUri(b.head.line.path)
              && Query.CanonicalQuery(a.head.line.query, a.exclude)
                 == Query.CanonicalQuery(b.head.line.query, b.exclude)
              && a.signed == b.signed && a.payload == b.payload
              && forall i :: 0 <= i < |a.signed| ==>
                   CanonicalValue(a.head.headers, a.signed[i]) == CanonicalValue(b.head.headers, a.signed[i])
  {
    LinesSplit(a);
    LinesSplit(b);
    if CanonicalRequest(a) == CanonicalRequest(b) {
      SameLines(a, b);
      NamesRecovered(a.signed, b.signed);
      forall i | 0 <= i < |a.signed|
        ensures CanonicalValue(a.head.headers, a.signed[i]) == CanonicalValue(b.head.headers, a.signed[i])
      {
        SameLine(a.head.headers, b.head.headers, a.signed, i);
      }
    }
  }

  lemma SameLine(a: seq<Header>, b: seq<Header>, signed: seq<bytes>, i: nat)
    requires i < |signed| && HeaderLines(a, signed) == HeaderLines(b, signed)
    ensures CanonicalValue(a, signed[i]) == CanonicalValue(b, signed[i])
  {
    var name := signed[i];
    assert HeaderLine(a, name) == HeaderLines(a, signed)[i] && HeaderLine(b, name) == HeaderLines(b, signed)[i];
    assert HeaderLine(a, name)[|name| + 1..] == CanonicalValue(a, name);
    assert HeaderLine(b, name)[|name| + 1..] == CanonicalValue(b, name);
  }

  lemma ParametersDiffer()
    ensures AlgorithmParameter() != Query.SignatureParameter()
  {
    assert AlgorithmParameter()[6] == 'A' as byte && Query.SignatureParameter()[6] == 'S' as byte;
  }

  lemma KeptHas(a: seq<Pair>, excludeA: bool, b: seq<Pair>, excludeB: bool, name: bytes)
    requires multiset(Query.Kept(a, excludeA)) == multiset(Query.Kept(b, excludeB))
    requires name != Query.SignatureParameter() && HasParam(a, name)
    ensures HasParam(b, name)
  {
    var p :| p in a && p.name == name;
    Query.KeptMember(a, excludeA, p);
    Query.KeptMember(b, excludeB, p);
    assert p in multiset(Query.Kept(a, excludeA));
  }

  /** The same parameters but for the signature: the same mode of authentication. */
  lemma SameMode(a: Request, b: Request)
    requires Accepted(a) && Accepted(b)
    requires multiset(Query.Kept(a.head.line.params, a.exclude)) == multiset(Query.Kept(b.head.line.params, b.exclude))
    ensures a.exclude == b.exclude
  {
    ParametersDiffer();
    if a.exclude {
      KeptHas(a.head.line.params, a.exclude, b.head.line.params, b.exclude, AlgorithmParameter());
    }
    if b.exclude {
      KeptHas(b.head.line.params, b.exclude, a.head.line.params, a.exclude, AlgorithmParameter());
    }
  }

  /** What is signed determines what is routed: the same method, bucket and key (or routing error),
      the same mode of authentication, and the same multiset of decoded parameters, for a presigned
      request all but the signature. */
  lemma SignedDeterminesRouted(a: Request, b: Request)
    requires Accepted(a) && Accepted(b)
    requires CanonicalRequest(a) == CanonicalRequest(b)
    ensures a.head.line.verb == b.head.line.verb
    ensures ParsePath(a.head.line.path) == ParsePath(b.head.line.path)
    ensures a.exclude == b.exclude
    ensures multiset(Query.Kept(a.head.line.params, a.exclude)) == multiset(Query.Kept(b.head.line.params, b.exclude))
    ensures !a.exclude ==> multiset(a.head.line.params) == multiset(b.head.line.params)
  {
    Unambiguous(a, b);
    CanonicalUriRoutes(a.head.line.path);
    CanonicalUriRoutes(b.head.line.path);
    Query.CanonicalDecides(QueryText(a), a.exclude, QueryText(b), b.exclude);
    SameMode(a, b);
    if !a.exclude {
      Query.KeptAll(a.head.line.params);
      Query.KeptAll(b.head.line.params);
    }
  }

  lemma {:induction false} PresentIsField(headers: seq<Header>, name: bytes)
    ensures Values(headers, name) != [] <==> exists i :: 0 <= i < |headers| && headers[i].name == name
  {
    if headers != [] {
      PresentIsField(headers[1..], name);
      if Values(headers[1..], name) != [] {
        var i :| 0 <= i < |headers[1..]| && headers[1..][i].name == name;
        assert headers[i + 1].name == name;
      }
      if i :| 0 <= i < |headers| && headers[i].name == name {
        assert i > 0 ==> headers[1..][i - 1].name == name;
      }
    }
  }

  /** What is signed determines the fields that carry commands: equal canonical bytes mean the same
      host, the same fields of the x-amz- family and the same canonical value of each; the one field
      that need not be listed is the payload literal, which a header-signed request signs apart. */
  lemma SignedDeterminesFields(a: Request, b: Request, name: bytes)
    requires Accepted(a) && Accepted(b)
    requires CanonicalRequest(a) == CanonicalRequest(b)
    requires name == Ascii("host") || IsAmz(name)
    requires name == ContentSha256() ==> !a.exclude
    ensures (Values(a.head.headers, name) != []) <==> (Values(b.head.headers, name) != [])
    ensures CanonicalValue(a.head.headers, name) == CanonicalValue(b.head.headers, name)
  {
    Unambiguous(a, b);
    SignedDeterminesRouted(a, b);
    PresentIsField(a.head.headers, name);
    PresentIsField(b.head.headers, name);
    if name in a.signed {
      var i :| 0 <= i < |a.signed| && a.signed[i] == name;
    } else if name != ContentSha256() {
      assert Values(a.head.headers, name) == [] == Values(b.head.headers, name);
    }
  }
}
