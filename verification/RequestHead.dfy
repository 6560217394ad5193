/** Request heads (src/protocol/http.rs): parsing a complete head, and collecting one from fragments. */
module RequestHead {
  import opened Bytes
  import opened Ordering
  import opened Percent
  import opened PathStyle
  import Query

  datatype Limits = Limits(maxHeadBytes: nat, maxRequestLineBytes: nat, maxHeaderLineBytes: nat, maxHeaders: nat)

  datatype HeadError =
    | HeadTooLarge
    | RequestLineTooLarge
    | HeaderLineTooLarge
    | TooManyHeaders
    | InvalidRequestLine
    | UnsupportedHttpVersion
    | InvalidTarget
    | InvalidHeaderName
    | InvalidHeaderValue
    | DuplicateHost
    | MissingHost
    | InvalidContentLength
    | AmbiguousBodyFraming
    | UnsupportedTransferEncoding
    | InvalidEscape
    | ParserAlreadyCompleted

  datatype Result<T> = Ok(value: T) | Err(error: HeadError)

  datatype Header = Header(name: bytes, value: bytes)

  datatype RequestLine = RequestLine(verb: bytes, path: bytes, query: Option<bytes>, params: seq<Pair>)

  datatype Head = Head(line: RequestLine, headers: seq<Header>, contentLength: Option<nat>, chunked: bool)

  // ----- lines

  /** Line `i` of the head without its CR; the last line has none. */
  function LineAt(lines: seq<bytes>, i: nat): Result<bytes>
    requires i < |lines|
  {
    var line := lines[i];
    if i + 1 == |lines| then (if CR in line then Err(InvalidHeaderValue) else Ok(line))
    else if line != [] && line[|line| - 1] == CR then Ok(line[..|line| - 1])
    else Err(InvalidHeaderValue)
  }

  predicate AllVisible(s: bytes) {
    s == [] || (33 <= s[0] <= 126 && AllVisible(s[1..]))
  }

  function ParseTarget(verb: bytes, target: bytes): Result<RequestLine> {
    if target == [] || target[0] != SLASH || !AllVisible(target) || 35 in target then Err(InvalidTarget)
    else
      var mark := IndexOf(target, 63);
      var path := if mark < 0 then target else target[..mark];
      var query := if mark < 0 then None else Some(target[mark + 1..]);
      if Decode(path).None? then Err(InvalidEscape)
      else
        var params := Query.Parse(if query.Some? then query.value else []);
        if params.None? then Err(InvalidEscape) else Ok(RequestLine(verb, path, query, params.value))
  }

  function ParseRequestLine(line: bytes, limits: Limits): Result<RequestLine> {
    if |line| > limits.maxRequestLineBytes then Err(RequestLineTooLarge)
    else
      var words := Split(line, SPACE);
      if |words| != 3 || words[0] == [] || !AllTchar(words[0]) then Err(InvalidRequestLine)
      else if words[2] != Ascii("HTTP/1.1") then Err(UnsupportedHttpVersion)
      else ParseTarget(words[0], words[1])
  }

  function ToLower(s: bytes): (t: bytes)
    ensures |t| == |s|
  {
    if s == [] then [] else [if IsUpper(s[0]) then s[0] + 32 else s[0]] + ToLower(s[1..])
  }

  function ParseHeader(line: bytes, limits: Limits): Result<Header> {
    if |line| > limits.maxHeaderLineBytes then Err(HeaderLineTooLarge)
    else if line == [] || IsOws(line[0]) then Err(InvalidHeaderValue)
    else
      var colon := IndexOf(line, 58);
      if colon <= 0 || !AllTchar(line[..colon]) then Err(InvalidHeaderName)
      else
        var value := TrimRight(TrimLeft(line[colon + 1..]));
        if !FieldValue(value) then Err(InvalidHeaderValue) else Ok(Header(ToLower(line[..colon]), value))
  }

  /** The header lines from line `i`, which is header number `i - 1`. */
  function ParseHeaders(lines: seq<bytes>, i: nat, limits: Limits): Result<seq<Header>>
    requires 1 <= i <= |lines|
    decreases |lines| - i
  {
    if i == |lines| then Ok([])
    else if i - 1 >= limits.maxHeaders then Err(TooManyHeaders)
    else match LineAt(lines, i)
      case Err(error) => Err(error)
      case Ok(line) =>
        match ParseHeader(line, limits)
        case Err(error) => Err(error)
        case Ok(header) =>
          match ParseHeaders(lines, i + 1, limits)
          case Err(error) => Err(error)
          case Ok(rest) => Ok([header] + rest)
  }

  // ----- fields that frame the body

  /** The values of a field, in order. */
  function Values(headers: seq<Header>, name: bytes): seq<bytes> {
    if headers == [] then []
    else if headers[0].name == name then [headers[0].value] + Values(headers[1..], name)
    else Values(headers[1..], name)
  }

  predicate AllDigits(s: bytes) {
    s == [] || (IsDigit(s[|s| - 1]) && AllDigits(s[..|s| - 1]))
  }

  function DecimalNumber(s: bytes): nat
    requires AllDigits(s)
  {
    if s == [] then 0 else 10 * DecimalNumber(s[..|s| - 1]) + (s[|s| - 1] - 48)
  }

  /** A content length is a decimal number of 64 bits. */
  function ContentLength(value: bytes): Option<nat> {
    if value != [] && AllDigits(value) && DecimalNumber(value) <= U64_MAX then Some(DecimalNumber(value)) else None
  }

  function Trimmed(parts: seq<bytes>): seq<bytes> {
    if parts == [] then [] else [TrimRight(TrimLeft(parts[0]))] + Trimmed(parts[1..])
  }

  /** All list members of all values of a field. */
  function Members(values: seq<bytes>): seq<bytes> {
    if values == [] then [] else Trimmed(Split(values[0], 44)) + Members(values[1..])
  }

  function Framing(line: RequestLine, headers: seq<Header>): Result<Head> {
    var hosts := Values(headers, Ascii("host"));
    var lengths := Values(headers, Ascii("content-length"));
    var codings := Values(headers, Ascii("transfer-encoding"));
    if hosts == [] then Err(MissingHost)
    else if |hosts| != 1 || hosts[0] == [] then Err(DuplicateHost)
    else if lengths != [] && ContentLength(lengths[0]).None? then Err(InvalidContentLength)
    else if |lengths| > 1 then Err(InvalidContentLength)
    else if lengths != [] && codings != [] then Err(AmbiguousBodyFraming)
    else if codings == [] then
      Ok(Head(line, headers, if lengths == [] then None else ContentLength(lengths[0]), false))
    else
      var members := Members(codings);
      if |members| != 1 || ToLower(members[0]) != Ascii("chunked") then Err(UnsupportedTransferEncoding)
      else Ok(Head(line, headers, None, true))
  }

  function ParseHead(head: bytes, limits: Limits): Result<Head> {
    var lines := Split(head, LF);
    match LineAt(lines, 0)
    case Err(error) => Err(error)
    case Ok(first) =>
      match ParseRequestLine(first, limits)
      case Err(error) => Err(error)
      case Ok(line) =>
        match ParseHeaders(lines, 1, limits)
        case Err(error) => Err(error)
        case Ok(headers) => Framing(line, headers)
  }

  // ----- what a parsed head guarantees

  predicate IsLowerToken(s: bytes) {
    s == [] || (IsTchar(s[0]) && !IsUpper(s[0]) && IsLowerToken(s[1..]))
  }

  predicate WellFormedHeaders(headers: seq<Header>) {
    headers == []
    || (headers[0].name != [] && IsLowerToken(headers[0].name) && FieldValue(headers[0].value)
        && WellFormedHeaders(headers[1..]))
  }

  predicate WellFormedLine(line: RequestLine) {
    && line.verb != [] && AllTchar(line.verb)
    && IsPath(line.path) && Decode(line.path).Some?
    && Query.Parse(if line.query.Some? then line.query.value else []) == Some(line.params)
  }

  predicate WellFormedHead(head: Head) {
    && WellFormedLine(head.line)
    && WellFormedHeaders(head.headers)
    && |Values(head.headers, Ascii("host"))| == 1
    && (head.chunked ==> head.contentLength.None?)
  }

  lemma {:induction false} LowerToken(s: bytes)
    requires AllTchar(s)
    ensures IsLowerToken(ToLower(s))
  {
    if s != [] {
      LowerToken(s[1..]);
      assert ToLower(s)[1..] == ToLower(s[1..]);
    }
  }

  lemma {:induction false} HeadersWellFormed(lines: seq<bytes>, i: nat, limits: Limits)
    requires 1 <= i <= |lines| && ParseHeaders(lines, i, limits).Ok?
    ensures WellFormedHeaders(ParseHeaders(lines, i, limits).value)
    decreases |lines| - i
  {
    if i < |lines| {
      HeadersWellFormed(lines, i + 1, limits);
      var line := LineAt(lines, i).value;
      var header := ParseHeader(line, limits).value;
      LowerToken(line[..IndexOf(line, 58)]);
      var rest := ParseHeaders(lines, i + 1, limits).value;
      assert ([header] + rest)[1..] == rest;
    }
  }

  lemma TargetWellFormed(verb: bytes, target: bytes)
    requires verb != [] && AllTchar(verb) && ParseTarget(verb, target).Ok?
    ensures WellFormedLine(ParseTarget(verb, target).value)
  {
    var mark := IndexOf(target, 63);
    if mark >= 0 {
      assert target[..mark] != [];
    }
  }

  /** Everything later stages rely on holds of a parsed head. */
  lemma ParsedHeadWellFormed(head: bytes, limits: Limits)
    requires ParseHead(head, limits).Ok?
    ensures WellFormedHead(ParseHead(head, limits).value)
  {
    var lines := Split(head, LF);
    var words := Split(LineAt(lines, 0).value, SPACE);
    TargetWellFormed(words[0], words[1]);
    HeadersWellFormed(lines, 1, limits);
  }

  // ----- collecting a head

  predicate BlankLineAt(s: bytes, i: int) {
    0 <= i && i + 3 < |s| && s[i] == CR && s[i + 1] == LF && s[i + 2] == CR && s[i + 3] == LF
  }

  /** Index of the first CR LF CR LF, or -1. */
  function HeadEnd(s: bytes): (r: int)
    ensures -1 <= r
    ensures r >= 0 ==> BlankLineAt(s, r)
    ensures forall i :: BlankLineAt(s, i) ==> 0 <= r <= i
  {
    if |s| < 4 then -1
    else if BlankLineAt(s, 0) then 0
    else
      var r := HeadEnd(s[1..]);
      assert forall i :: BlankLineAt(s, i) ==> BlankLineAt(s[1..], i - 1);
      if r < 0 then -1 else r + 1
  }

  datatype Reading = Incomplete | Malformed(error: HeadError) | Complete(head: Head, remainder: bytes)

  /** What the bytes received so far amount to. */
  function Read(received: bytes, limits: Limits): Reading {
    var end := HeadEnd(received);
    if end < 0 then (if |received| > limits.maxHeadBytes then Malformed(HeadTooLarge) else Incomplete)
    else if end + 4 > limits.maxHeadBytes then Malformed(HeadTooLarge)
    else match ParseHead(received[..end], limits)
      case Err(error) => Malformed(error)
      case Ok(head) => Complete(head, received[end + 4..])
  }

  lemma AroundBlankLine(s: bytes)
    requires HeadEnd(s) >= 0
    ensures s == s[..HeadEnd(s)] + [CR, LF, CR, LF] + s[HeadEnd(s) + 4..]
  {
    var end := HeadEnd(s);
    assert s[end..end + 4] == [CR, LF, CR, LF];
    assert s == s[..end] + s[end..end + 4] + s[end + 4..];
  }

  lemma SliceExtends(a: bytes, b: bytes, end: nat)
    requires end + 4 <= |a|
    ensures (a + b)[..end] == a[..end] && (a + b)[end + 4..] == a[end + 4..] + b
  {
  }

  lemma HeadEndExtends(a: bytes, b: bytes)
    ensures HeadEnd(a) >= 0 ==> HeadEnd(a + b) == HeadEnd(a)
    ensures HeadEnd(a) < 0 && HeadEnd(a + b) >= 0 ==> HeadEnd(a + b) + 4 > |a|
  {
    var p, q := HeadEnd(a), HeadEnd(a + b);
    assert p >= 0 ==> BlankLineAt(a + b, p);
    assert 0 <= q && q + 4 <= |a| ==> BlankLineAt(a, q);
  }

  /** A verdict, once reached, stands: more bytes only join the remainder. */
  lemma ReadExtends(a: bytes, b: bytes, limits: Limits)
    ensures match Read(a, limits)
            case Incomplete => true
            case Malformed(error) => Read(a + b, limits) == Malformed(error)
            case Complete(head, remainder) => Read(a + b, limits) == Complete(head, remainder + b)
  {
    HeadEndExtends(a, b);
    var end := HeadEnd(a);
    if end >= 0 {
      SliceExtends(a, b, end);
    }
  }

  /** Fragments in turn until there is a verdict; the rest is not looked at. */
  function Collect(received: bytes, fragments: seq<bytes>, limits: Limits): (Reading, bytes)
    decreases |fragments|
  {
    if !Read(received, limits).Incomplete? || fragments == [] then (Read(received, limits), received)
    else Collect(received + fragments[0], fragments[1..], limits)
  }

  /** The bytes are a head that parses to this one, the blank line, which is the first, and the
      remainder. */
  ghost predicate Delimits(s: bytes, head: Head, remainder: bytes, limits: Limits) {
    exists text: bytes ::
      HeadEnd(s) == |text| && s == text + [CR, LF, CR, LF] + remainder && ParseHead(text, limits) == Ok(head)
  }

  lemma ReadDelimits(s: bytes, limits: Limits)
    requires Read(s, limits).Complete?
    ensures Delimits(s, Read(s, limits).head, Read(s, limits).remainder, limits)
  {
    AroundBlankLine(s);
    assert HeadEnd(s) == |s[..HeadEnd(s)]|;
  }

  /** Every fragmentation reaches the verdict of the whole: the same head or the same error. On
      completion the bytes pushed so far are that head, a blank line and the remainder. */
  lemma {:induction false} FragmentsIrrelevant(received: bytes, fragments: seq<bytes>, limits: Limits)
    ensures var (verdict, pushed) := Collect(received, fragments, limits);
            && pushed <= received + Flatten(fragments)
            && match verdict
               case Incomplete => Read(received + Flatten(fragments), limits) == Incomplete
               case Malformed(error) => Read(received + Flatten(fragments), limits) == Malformed(error)
               case Complete(head, remainder) =>
                 && Delimits(pushed, head, remainder, limits)
                 && Read(received + Flatten(fragments), limits).Complete?
                 && Read(received + Flatten(fragments), limits).head == head
    decreases |fragments|
  {
    if !Read(received, limits).Incomplete? || fragments == [] {
      ReadExtends(received, Flatten(fragments), limits);
      assert fragments == [] ==> received + Flatten(fragments) == received;
      if Read(received, limits).Complete? {
        ReadDelimits(received, limits);
      }
    } else {
      FragmentsIrrelevant(received + fragments[0], fragments[1..], limits);
      Assoc(received, fragments[0], Flatten(fragments[1..]));
    }
  }

  // ----- the loops and the object of the source

  lemma {:induction false} DigitsPrefix(value: bytes, i: nat)
    requires i <= |value| && AllDigits(value)
    ensures AllDigits(value[..i]) && DecimalNumber(value[..i]) <= DecimalNumber(value)
    decreases |value|
  {
    if i == |value| {
      assert value[..i] == value;
    } else {
      DigitsPrefix(value[..|value| - 1], i);
      assert value[..|value| - 1][..i] == value[..i];
    }
  }

  /** The checked arithmetic refuses exactly the numbers that do not fit. */
  method ParseContentLength(value: bytes) returns (length: Option<nat>)
    ensures length == ContentLength(value)
  {
    if value == [] || !AllDigits(value) {
      return None;
    }
    var result := 0;
    for i := 0 to |value|
      invariant AllDigits(value[..i]) && result == DecimalNumber(value[..i]) && result <= U64_MAX
    {
      DigitsPrefix(value, i + 1);
      assert value[..i + 1][..i] == value[..i];
      if result * 10 > U64_MAX || result * 10 + (value[i] - 48) > U64_MAX {
        return None;
      }
      result := result * 10 + (value[i] - 48);
    }
    assert value[..|value|] == value;
    return Some(result);
  }

  function Preceded(front: seq<Header>, rest: Result<seq<Header>>): Result<seq<Header>> {
    match rest
    case Err(error) => Err(error)
    case Ok(headers) => Ok(front + headers)
  }

  method ReadHeaders(lines: seq<bytes>, limits: Limits) returns (result: Result<seq<Header>>)
    requires lines != []
    ensures result == ParseHeaders(lines, 1, limits)
  {
    var headers: seq<Header> := [];
    ghost var all := ParseHeaders(lines, 1, limits);
    assert all.Ok? ==> [] + all.value == all.value;
    for i := 1 to |lines|
      invariant all == Preceded(headers, ParseHeaders(lines, i, limits))
    {
      if i - 1 >= limits.maxHeaders {
        return Err(TooManyHeaders);
      }
      var line := LineAt(lines, i);
      if line.Err? {
        return Err(line.error);
      }
      var header := ParseHeader(line.value, limits);
      if header.Err? {
        return Err(header.error);
      }
      ghost var rest := ParseHeaders(lines, i + 1, limits);
      if rest.Ok? {
        Assoc(headers, [header.value], rest.value);
      }
      headers := headers + [header.value];
    }
    assert headers + [] == headers;
    return Ok(headers);
  }

  class RequestHeadParser {
    const limits: Limits
    var buffer: bytes
    var remainder: bytes
    var completed: bool
    /** Everything pushed so far. */
    ghost var received: bytes

    ghost predicate Inv()
      reads this
    {
      !completed ==> buffer == received && remainder == []
    }

    constructor (limits: Limits)
      ensures this.limits == limits && !completed && received == [] && Inv()
    {
      this.limits := limits;
      buffer, remainder, completed, received := [], [], false, [];
    }

    /** One fragment; a completed parser refuses more. */
    method Push(more: bytes) returns (r: Result<Option<Head>>)
      requires Inv()
      modifies this
      ensures old(completed) ==>
                && r == Err(ParserAlreadyCompleted) && completed
                && received == old(received) && remainder == old(remainder)
      ensures !old(completed) ==>
                received == old(received) + more
                && match Read(received, limits)
                   case Incomplete => r == Ok(None) && !completed && Inv()
                   case Malformed(error) => r == Err(error) && !completed
                   case Complete(head, rest) => r == Ok(Some(head)) && completed && buffer == [] && remainder == rest
    {
      if completed {
        return Err(ParserAlreadyCompleted);
      }
      buffer := buffer + more;
      received := received + more;
      var end := HeadEnd(buffer);
      if end < 0 {
        if |buffer| > limits.maxHeadBytes {
          return Err(HeadTooLarge);
        }
        return Ok(None);
      }
      var headEnd := end + 4;
      if headEnd > limits.maxHeadBytes {
        return Err(HeadTooLarge);
      }
      var request := ParseHead(buffer[..end], limits);
      if request.Err? {
        return Err(request.error);
      }
      remainder := remainder + buffer[headEnd..];
      assert remainder == buffer[headEnd..];
      buffer := [];
      completed := true;
      return Ok(Some(request.value));
    }

    method TakeRemainder() returns (taken: bytes)
      modifies `remainder
      ensures taken == old(remainder) && remainder == []
    {
      taken := remainder;
      remainder := [];
    }
  }
}
