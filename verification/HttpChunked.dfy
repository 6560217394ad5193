/** The chunked transfer coding of src/workers/http.rs one byte at a time, and the proof that it does
    not matter how the bytes arrive. */
module HttpChunked {
  import opened Bytes

  const MAX_BODY: nat := 5 * 1024 * 1024 * 1024
  const MAX_WIRE: nat := MAX_BODY + 256 * 1024 * 1024
  const MAX_CHUNK_LINE: nat := 8 * 1024
  const MAX_TRAILER_LINE: nat := 16 * 1024
  const MAX_TRAILER_BYTES: nat := 64 * 1024
  const MAX_TRAILERS: nat := 100

  datatype Error = EntityTooLarge | InvalidChunk | InvalidTrailer | TooMuchFraming

  // ----- lines

  /** Number of token characters at the front. */
  function TokenLength(s: bytes): (n: nat)
    ensures n <= |s|
  {
    if s == [] || !IsTchar(s[0]) then 0 else 1 + TokenLength(s[1..])
  }

  predicate QuotedByte(b: byte) {
    b == TAB || 32 <= b <= 33 || 35 <= b <= 91 || 93 <= b <= 126 || b >= 128
  }

  predicate EscapedByte(b: byte) {
    b == TAB || 32 <= b <= 126 || b >= 128
  }

  /** Index after the closing quote of a quoted string whose inside starts at `i`, or -1. */
  function QuotedEnd(s: bytes, i: nat): (e: int)
    ensures e == -1 || i < e <= |s|
    decreases |s| - i
  {
    if i >= |s| then -1
    else if s[i] == 34 then i + 1
    else if s[i] == 92 then
      if i + 1 < |s| && EscapedByte(s[i + 1]) then QuotedEnd(s, i + 2) else -1
    else if QuotedByte(s[i]) then QuotedEnd(s, i + 1)
    else -1
  }

  /** What follows an extension name: an optional value, and the rest of the line. */
  function AfterExtension(s: bytes): (rest: Option<bytes>)
    ensures rest.Some? ==> |rest.value| <= |s|
  {
    if s == [] || s[0] != 61 then Some(s)
    else
      var value := TrimLeft(s[1..]);
      if value != [] && value[0] == 34 then
        var end := QuotedEnd(value, 1);
        if end < 0 then None else Some(TrimLeft(value[end..]))
      else
        var n := TokenLength(value);
        if n == 0 then None else Some(TrimLeft(value[n..]))
  }

  predicate ExtensionsValid(s: bytes)
    decreases |s|
  {
    s == [] ||
    (s[0] == 59 &&
     var name := TrimLeft(s[1..]);
     var n := TokenLength(name);
     n > 0 &&
     var rest := AfterExtension(TrimLeft(name[n..]));
     rest.Some? && (rest.value == [] || rest.value[0] == 59) && ExtensionsValid(rest.value))
  }

  /** The size a chunk-size line announces. */
  function SizeOf(line: bytes): Option<nat> {
    var semicolon := IndexOf(line, 59);
    var digits := if semicolon < 0 then line else line[..semicolon];
    if digits == [] || |digits| > 16 || !AllHex(digits) then None
    else if semicolon >= 0 && !ExtensionsValid(line[semicolon..]) then None
    else Some(HexNumber(digits))
  }

  predicate TrailerValid(line: bytes) {
    var colon := IndexOf(line, 58);
    !(line != [] && IsOws(line[0])) && colon > 0 && AllTchar(line[..colon]) && FieldValue(line[colon + 1..])
  }

  // ----- one byte

  datatype ChunkState =
    | SizeLine(line: bytes)
    | Data(remaining: nat)
    | DataCrLf(seen: nat)
    | TrailerLine(line: bytes)
    | Complete

  datatype Decoder = Decoder(state: ChunkState, wireBytes: nat, decodedBytes: nat, trailerBytes: nat, trailers: nat)

  const START: Decoder := Decoder(SizeLine([]), 0, 0, 0, 0)

  datatype ByteStep = Took(next: Decoder, emitted: bytes) | Bad(error: Error)

  predicate EndsInCr(line: bytes) {
    line != [] && line[|line| - 1] == CR
  }

  function SizeLineEnd(d: Decoder, line: bytes): ByteStep {
    if !EndsInCr(line) then Bad(InvalidChunk)
    else
      var size := SizeOf(line[..|line| - 1]);
      if size.None? then Bad(InvalidChunk)
      else if d.decodedBytes + size.value > MAX_BODY then Bad(EntityTooLarge)
      else Took(d.(state := if size.value == 0 then TrailerLine([]) else Data(size.value)), [])
  }

  function SizeLineByte(d: Decoder, line: bytes, b: byte): ByteStep {
    if b == LF then SizeLineEnd(d, line)
    else if EndsInCr(line) || |line| >= MAX_CHUNK_LINE then Bad(InvalidChunk)
    else Took(d.(state := SizeLine(line + [b])), [])
  }

  function TrailerLineEnd(d: Decoder, line: bytes): ByteStep {
    if !EndsInCr(line) then Bad(InvalidTrailer)
    else if |line| == 1 then Took(d.(state := Complete), [])
    else if !TrailerValid(line[..|line| - 1]) then Bad(InvalidTrailer)
    else if d.trailers + 1 > MAX_TRAILERS then Bad(TooMuchFraming)
    else Took(d.(state := TrailerLine([]), trailers := d.trailers + 1), [])
  }

  function TrailerLineByte(d: Decoder, line: bytes, b: byte): ByteStep {
    if d.trailerBytes + 1 > MAX_TRAILER_BYTES then Bad(TooMuchFraming)
    else
      var counted := d.(trailerBytes := d.trailerBytes + 1);
      if b == LF then TrailerLineEnd(counted, line)
      else if EndsInCr(line) || |line| >= MAX_TRAILER_LINE then Bad(InvalidTrailer)
      else Took(counted.(state := TrailerLine(line + [b])), [])
  }

  /** One byte of wire in a state that is not complete. */
  function StepByte(d: Decoder, b: byte): ByteStep
    requires !d.state.Complete?
  {
    if d.wireBytes + 1 > MAX_WIRE then Bad(TooMuchFraming)
    else
      var charged := d.(wireBytes := d.wireBytes + 1);
      match d.state
      case SizeLine(line) => SizeLineByte(charged, line, b)
      case Data(remaining) =>
        Took(charged.(decodedBytes := d.decodedBytes + 1,
                      state := if remaining <= 1 then DataCrLf(0) else Data(remaining - 1)), [b])
      case DataCrLf(seen) =>
        if b != (if seen == 0 then CR else LF) then Bad(InvalidChunk)
        else Took(charged.(state := if seen + 1 == 2 then SizeLine([]) else DataCrLf(seen + 1)), [])
      case TrailerLine(line) => TrailerLineByte(charged, line, b)
  }

  // ----- a run

  /** Where decoding stopped: the entity bytes so far and the input not consumed. */
  datatype Outcome = Stopped(decoder: Decoder, entity: bytes, rest: bytes) | Failed(error: Error)

  function Run(d: Decoder, entity: bytes, input: bytes): (o: Outcome)
    ensures o.Stopped? ==> o.rest == [] || o.decoder.state.Complete?
    decreases |input|
  {
    if input == [] || d.state.Complete? then Stopped(d, entity, input)
    else match StepByte(d, input[0])
      case Bad(error) => Failed(error)
      case Took(next, emitted) => Run(next, entity + emitted, input[1..])
  }

  /** `Run`, named so that specifications mention it without unfolding it. */
  function Ran(d: Decoder, entity: bytes, input: bytes): Outcome {
    Run(d, entity, input)
  }

  /** What one call of `push` reports: the new state, the entity bytes and how much was consumed. */
  datatype PushResult = Pushed(decoder: Decoder, entity: bytes, consumed: int) | Refused(error: Error)

  function Push(d: Decoder, input: bytes): PushResult {
    match Run(d, [], input)
    case Failed(error) => Refused(error)
    case Stopped(next, entity, rest) => Pushed(next, entity, |input| - |rest|)
  }

  function After(entity: bytes, o: Outcome): Outcome {
    match o
    case Failed(error) => Failed(error)
    case Stopped(next, more, rest) => Stopped(next, entity + more, rest)
  }

  /** Entity bytes only accumulate. */
  lemma {:induction false} RunAccumulates(d: Decoder, entity: bytes, more: bytes, input: bytes)
    ensures Run(d, entity + more, input) == After(entity, Run(d, more, input))
    decreases |input|
  {
    if input != [] && !d.state.Complete? {
      match StepByte(d, input[0]) {
        case Bad(_) =>
        case Took(next, emitted) =>
          assert entity + more + emitted == entity + (more + emitted);
          RunAccumulates(next, entity, more + emitted, input[1..]);
      }
    }
  }

  /** What is left is the end of the input. */
  lemma {:induction false} RunConsumes(d: Decoder, entity: bytes, input: bytes) returns (n: nat)
    requires Run(d, entity, input).Stopped?
    ensures n <= |input| && Run(d, entity, input).rest == input[n..]
    decreases |input|
  {
    if input == [] || d.state.Complete? {
      n := 0;
    } else {
      var step := StepByte(d, input[0]);
      n := RunConsumes(step.next, entity + step.emitted, input[1..]);
      assert input[1..][n..] == input[n + 1..];
      n := n + 1;
    }
  }

  /** Running over two fragments is running over their concatenation. */
  lemma {:induction false} RunAppend(d: Decoder, entity: bytes, a: bytes, b: bytes)
    ensures Run(d, entity, a + b)
            == match Run(d, entity, a)
               case Failed(error) => Failed(error)
               case Stopped(next, gathered, rest) => Run(next, gathered, rest + b)
    decreases |a|
  {
    if a == [] {
      assert a + b == b;
    } else if !d.state.Complete? {
      assert (a + b)[1..] == a[1..] + b;
      match StepByte(d, a[0]) {
        case Bad(_) =>
        case Took(next, emitted) => RunAppend(next, entity + emitted, a[1..], b);
      }
    }
  }

  /** Two pushes: the second is not made after an error or once the body is complete. */
  function PushTwice(d: Decoder, a: bytes, b: bytes): PushResult {
    match Push(d, a)
    case Refused(error) => Refused(error)
    case Pushed(next, entity, consumed) =>
      if next.state.Complete? then Pushed(next, entity, consumed)
      else match Push(next, b)
        case Refused(error) => Refused(error)
        case Pushed(last, more, also) => Pushed(last, entity + more, consumed + also)
  }

  /** Pushing two fragments and pushing their concatenation cannot be told apart: the same entity
      bytes, bytes consumed and state, or the same error at the same limit. */
  lemma PushAppend(d: Decoder, a: bytes, b: bytes)
    ensures PushTwice(d, a, b) == Push(d, a + b)
  {
    RunAppend(d, [], a, b);
    match Run(d, [], a) {
      case Failed(_) =>
      case Stopped(next, entity, rest) =>
        assert entity + [] == entity;
        RunAccumulates(next, entity, [], rest + b);
        if rest == [] {
          assert rest + b == b;
        }
    }
  }

  /** Any number of pushes. */
  function PushAll(d: Decoder, fragments: seq<bytes>): PushResult
    decreases |fragments|
  {
    if fragments == [] then Push(d, [])
    else match Push(d, fragments[0])
      case Refused(error) => Refused(error)
      case Pushed(next, entity, consumed) =>
        if next.state.Complete? then Pushed(next, entity, consumed)
        else match PushAll(next, fragments[1..])
          case Refused(error) => Refused(error)
          case Pushed(last, more, also) => Pushed(last, entity + more, consumed + also)
  }

  /** Every fragmentation of a stream gives what the whole stream gives. */
  lemma {:induction false} FragmentationIrrelevant(d: Decoder, fragments: seq<bytes>)
    ensures PushAll(d, fragments) == Push(d, Flatten(fragments))
    decreases |fragments|
  {
    if fragments != [] {
      PushAppend(d, fragments[0], Flatten(fragments[1..]));
      match Push(d, fragments[0]) {
        case Refused(_) =>
        case Pushed(next, _, _) => FragmentationIrrelevant(next, fragments[1..]);
      }
    }
  }

  // ----- data in bulk

  function Filled(d: Decoder, count: nat): Decoder
    requires d.state.Data? && count <= d.state.remaining
  {
    d.(wireBytes := d.wireBytes + count, decodedBytes := d.decodedBytes + count,
       state := if count == d.state.remaining then DataCrLf(0) else Data(d.state.remaining - count))
  }

  /** Copying a block of data at once is copying it byte by byte. */
  lemma {:induction false} BulkData(d: Decoder, entity: bytes, input: bytes, count: nat)
    requires d.state.Data? && 0 < count <= Min(d.state.remaining, |input|)
    ensures Run(d, entity, input)
            == if d.wireBytes + count > MAX_WIRE then Failed(TooMuchFraming)
               else Run(Filled(d, count), entity + input[..count], input[count..])
    decreases count
  {
    if d.wireBytes + 1 > MAX_WIRE {
    } else if count == 1 {
      assert input[..1] == [input[0]];
    } else {
      var next := Filled(d, 1);
      assert StepByte(d, input[0]) == Took(next, [input[0]]);
      BulkData(next, entity + [input[0]], input[1..], count - 1);
      assert entity + [input[0]] + input[1..][..count - 1] == entity + input[..count];
      assert input[1..][count - 1..] == input[count..];
    }
  }
}
