/** The transfer decoder object of src/workers/http.rs, which copies chunk data in blocks and updates
    its counters in place, proved against the decoder that takes one byte at a time. */
module HttpChunkedDecoder {
  import opened Bytes
  import opened HttpChunked

  datatype Progress = Progress(consumed: int, complete: bool) | Broken(error: Error)

  datatype Size = Size(value: nat) | NoSize(error: Error)

  // ----- lines

  method TrimLeftOws(s: bytes) returns (t: bytes)
    ensures t == TrimLeft(s)
  {
    t := s;
    while t != [] && IsOws(t[0])
      invariant TrimLeft(t) == TrimLeft(s)
      decreases |t|
    {
      t := t[1..];
    }
  }

  /** The inside of a quoted string, scanned by index. */
  method ScanQuoted(s: bytes) returns (end: int)
    requires s != []
    ensures end == QuotedEnd(s, 1)
  {
    var index := 1;
    while index < |s|
      invariant 1 <= index && QuotedEnd(s, index) == QuotedEnd(s, 1)
      decreases |s| - index
    {
      if s[index] == 34 {
        return index + 1;
      }
      if s[index] == 92 {
        index := index + 1;
        if index >= |s| || !EscapedByte(s[index]) {
          return -1;
        }
        index := index + 1;
      } else if QuotedByte(s[index]) {
        index := index + 1;
      } else {
        return -1;
      }
    }
    return -1;
  }

  method SkipExtension(s: bytes) returns (rest: Option<bytes>)
    ensures rest == AfterExtension(s)
  {
    if s == [] || s[0] != 61 {
      return Some(s);
    }
    var value := TrimLeftOws(s[1..]);
    if value != [] && value[0] == 34 {
      var end := ScanQuoted(value);
      if end < 0 {
        return None;
      }
      var after := TrimLeftOws(value[end..]);
      return Some(after);
    }
    var n := TokenLength(value);
    if n == 0 {
      return None;
    }
    var after := TrimLeftOws(value[n..]);
    return Some(after);
  }

  method ValidateExtensions(extensions: bytes) returns (ok: bool)
    ensures ok == ExtensionsValid(extensions)
  {
    var left := extensions;
    while left != []
      invariant ExtensionsValid(left) == ExtensionsValid(extensions)
      decreases |left|
    {
      if left[0] != 59 {
        return false;
      }
      var name := TrimLeftOws(left[1..]);
      var n := TokenLength(name);
      if n == 0 {
        return false;
      }
      var afterName := TrimLeftOws(name[n..]);
      var rest := SkipExtension(afterName);
      if rest.None? || (rest.value != [] && rest.value[0] != 59) {
        return false;
      }
      left := rest.value;
    }
    return true;
  }

  lemma {:induction false} HexBound(s: bytes)
    requires AllHex(s)
    ensures HexNumber(s) < Power16(|s|)
  {
    if s != [] {
      HexBound(s[..|s| - 1]);
    }
  }

  lemma {:induction false} Power16Monotone(a: nat, b: nat)
    requires a <= b
    ensures Power16(a) <= Power16(b)
    decreases b
  {
    if a < b {
      Power16Monotone(a, b - 1);
    }
  }

  /** Sixteen digits never overflow 64 bits. */
  lemma SizeFits(digits: bytes)
    requires AllHex(digits) && |digits| <= 16
    ensures HexNumber(digits) <= U64_MAX
  {
    HexBound(digits);
    Power16Monotone(|digits|, 16);
    assert Power16(16) == 16 * 16 * 16 * 16 * 16 * 16 * 16 * 16 * Power16(8);
    assert Power16(8) == 16 * 16 * 16 * 16 * 16 * 16 * 16 * 16;
  }

  lemma HexSnoc(digits: bytes, i: nat)
    requires i < |digits| && AllHex(digits[..i]) && IsHex(digits[i])
    ensures AllHex(digits[..i + 1])
    ensures HexNumber(digits[..i + 1]) == 16 * HexNumber(digits[..i]) + Nibble(digits[i])
  {
    assert digits[..i + 1] == digits[..i] + [digits[i]];
    assert digits[..i + 1][..i] == digits[..i];
  }

  /** The checked arithmetic on the size never overflows: the only error is a malformed line. */
  method ParseDigits(digits: bytes) returns (r: Size)
    requires |digits| <= 16
    ensures r == if AllHex(digits) then Size(HexNumber(digits)) else NoSize(InvalidChunk)
  {
    var size := 0;
    for i := 0 to |digits|
      invariant AllHex(digits[..i]) && size == HexNumber(digits[..i])
    {
      if !IsHex(digits[i]) {
        return NoSize(InvalidChunk);
      }
      HexSnoc(digits, i);
      SizeFits(digits[..i + 1]);
      if size * 16 + Nibble(digits[i]) > U64_MAX {
        return NoSize(EntityTooLarge);
      }
      size := size * 16 + Nibble(digits[i]);
    }
    assert digits[..|digits|] == digits;
    return Size(size);
  }

  method ParseSizeLine(line: bytes) returns (r: Size)
    ensures r == if SizeOf(line).Some? then Size(SizeOf(line).value) else NoSize(InvalidChunk)
  {
    var semicolon := IndexOf(line, 59);
    var digits := if semicolon < 0 then line else line[..semicolon];
    if digits == [] || |digits| > 16 {
      return NoSize(InvalidChunk);
    }
    r := ParseDigits(digits);
    if r.Size? && semicolon >= 0 {
      var valid := ValidateExtensions(line[semicolon..]);
      if !valid {
        return NoSize(InvalidChunk);
      }
    }
  }

  // ----- the object

  class ChunkDecoder {
    var state: ChunkState
    var wireBytes: nat
    var decodedBytes: nat
    var trailerBytes: nat
    var trailers: nat

    ghost function Value(): Decoder
      reads this
    {
      Decoder(state, wireBytes, decodedBytes, trailerBytes, trailers)
    }

    /** Counters stay within their limits, so none of the machine integers wraps. */
    ghost predicate Inv()
      reads this
    {
      Consistent(Value())
    }

    constructor ()
      ensures Inv() && Value() == START
    {
      state, wireBytes, decodedBytes, trailerBytes, trailers := SizeLine([]), 0, 0, 0, 0;
    }

    method IsComplete() returns (b: bool)
      ensures b == state.Complete?
    {
      b := state.Complete?;
    }

    method ChargeWire(count: nat) returns (error: Option<Error>)
      modifies `wireBytes
      ensures wireBytes == old(wireBytes) + count
      ensures error == if wireBytes > MAX_WIRE then Some(TooMuchFraming) else None
    {
      wireBytes := wireBytes + count;
      return if wireBytes > MAX_WIRE then Some(TooMuchFraming) else None;
    }

    method SizeByte(line: bytes, b: byte) returns (error: Option<Error>)
      requires state == SizeLine(line)
      modifies `state
      ensures match SizeLineByte(old(Value()), line, b)
              case Bad(e) => error == Some(e)
              case Took(next, emitted) => error == None && emitted == [] && Value() == next
    {
      if b == LF {
        if !EndsInCr(line) {
          return Some(InvalidChunk);
        }
        var size := ParseSizeLine(line[..|line| - 1]);
        if size.NoSize? {
          return Some(size.error);
        }
        if decodedBytes + size.value > MAX_BODY {
          return Some(EntityTooLarge);
        }
        state := if size.value == 0 then TrailerLine([]) else Data(size.value);
      } else {
        if EndsInCr(line) || |line| >= MAX_CHUNK_LINE {
          return Some(InvalidChunk);
        }
        state := SizeLine(line + [b]);
      }
      return None;
    }

    method TrailerByte(line: bytes, b: byte) returns (error: Option<Error>)
      requires state == TrailerLine(line)
      modifies `state, `trailerBytes, `trailers
      ensures match TrailerLineByte(old(Value()), line, b)
              case Bad(e) => error == Some(e)
              case Took(next, emitted) => error == None && emitted == [] && Value() == next
    {
      trailerBytes := trailerBytes + 1;
      if trailerBytes > MAX_TRAILER_BYTES {
        return Some(TooMuchFraming);
      }
      if b == LF {
        if !EndsInCr(line) {
          return Some(InvalidTrailer);
        }
        if |line| == 1 {
          state := Complete;
        } else {
          if !TrailerValid(line[..|line| - 1]) {
            return Some(InvalidTrailer);
          }
          trailers := trailers + 1;
          if trailers > MAX_TRAILERS {
            return Some(TooMuchFraming);
          }
          state := TrailerLine([]);
        }
      } else {
        if EndsInCr(line) || |line| >= MAX_TRAILER_LINE {
          return Some(InvalidTrailer);
        }
        state := TrailerLine(line + [b]);
      }
      return None;
    }

    /** The states that take one byte of framing. */
    method FramingByte(b: byte) returns (error: Option<Error>)
      requires Inv() && !state.Complete? && !state.Data?
      modifies this
      ensures match StepByte(old(Value()), b)
              case Bad(e) => error == Some(e)
              case Took(next, emitted) => error == None && emitted == [] && Value() == next
    {
      error := ChargeWire(1);
      if error.Some? {
        return;
      }
      match state {
        case SizeLine(line) => error := SizeByte(line, b);
        case TrailerLine(line) => error := TrailerByte(line, b);
        case DataCrLf(seen) =>
          if b != (if seen == 0 then CR else LF) {
            return Some(InvalidChunk);
          }
          state := if seen + 1 == 2 then SizeLine([]) else DataCrLf(seen + 1);
      }
    }

    /** The state that copies a block. */
    method DataBlock(available: nat) returns (error: Option<Error>, count: nat)
      requires Inv() && state.Data? && available > 0
      modifies this
      ensures count == Min(old(state.remaining), available)
      ensures if old(wireBytes) + count > MAX_WIRE then error == Some(TooMuchFraming)
              else error == None && Value() == Filled(old(Value()), count)
    {
      var remaining := state.remaining;
      count := Min(remaining, available);
      error := ChargeWire(count);
      if error.None? {
        decodedBytes := decodedBytes + count;
        state := if remaining - count == 0 then DataCrLf(0) else Data(remaining - count);
      }
    }

    /** A block of data or a byte of framing, from `offset` on. */
    method Advance(input: bytes, offset: nat, decoded: bytes) returns (error: Option<Error>, next: nat, more: bytes)
      requires Inv() && offset < |input| && !state.Complete?
      modifies this
      ensures match error
              case Some(e) => Ran(old(Value()), decoded, input[offset..]) == Failed(e)
              case None =>
                && Inv() && offset < next <= |input|
                && Ran(old(Value()), decoded, input[offset..]) == Ran(Value(), more, input[next..])
    {
      if state.Data? {
        BlockAdvances(Value(), decoded, input, offset);
        var count;
        error, count := DataBlock(|input| - offset);
        return error, offset + count, decoded + input[offset..offset + count];
      } else {
        ByteAdvances(Value(), decoded, input, offset);
        error := FramingByte(input[offset]);
        assert decoded + [] == decoded;
        return error, offset + 1, decoded;
      }
    }

    /** Decodes until the input is used up or the body is complete. */
    method Push(input: bytes) returns (r: Progress, decoded: bytes)
      requires Inv()
      modifies this
      ensures match HttpChunked.Push(old(Value()), input)
              case Refused(e) => r == Broken(e)
              case Pushed(next, entity, consumed) =>
                && Inv() && Value() == next && decoded == entity
                && r == Progress(consumed, next.state.Complete?)
    {
      decoded := [];
      var offset: nat := 0;
      ghost var result := Ran(Value(), [], input);
      assert input[0..] == input;
      while offset < |input| && !state.Complete?
        invariant offset <= |input| && Inv()
        invariant Ran(Value(), decoded, input[offset..]) == result
        decreases |input| - offset
      {
        var error;
        error, offset, decoded := Advance(input, offset, decoded);
        if error.Some? {
          return Broken(error.value), decoded;
        }
      }
      RunStops(Value(), decoded, input, offset);
      return Progress(offset, state.Complete?), decoded;
    }
  }

  ghost predicate Consistent(d: Decoder) {
    && d.wireBytes <= MAX_WIRE && d.trailerBytes <= MAX_TRAILER_BYTES && d.trailers <= MAX_TRAILERS
    && d.decodedBytes <= MAX_BODY
    && (d.state.Data? ==> 0 < d.state.remaining && d.decodedBytes + d.state.remaining <= MAX_BODY)
    && (d.state.DataCrLf? ==> d.state.seen < 2)
  }

  lemma RunStops(d: Decoder, decoded: bytes, input: bytes, offset: nat)
    requires offset <= |input| && (offset == |input| || d.state.Complete?)
    ensures Ran(d, decoded, input[offset..]) == Stopped(d, decoded, input[offset..])
    ensures |input| - |input[offset..]| == offset
  {
  }

  lemma ByteAdvances(d: Decoder, decoded: bytes, input: bytes, offset: nat)
    requires Consistent(d) && !d.state.Complete? && offset < |input|
    ensures match StepByte(d, input[offset])
            case Bad(e) => Ran(d, decoded, input[offset..]) == Failed(e)
            case Took(next, emitted) =>
              && Consistent(next)
              && Ran(d, decoded, input[offset..]) == Ran(next, decoded + emitted, input[offset + 1..])
  {
    assert input[offset..][1..] == input[offset + 1..];
  }

  lemma BlockAdvances(d: Decoder, decoded: bytes, input: bytes, offset: nat)
    requires Consistent(d) && d.state.Data? && offset < |input|
    ensures var count := Min(d.state.remaining, |input| - offset);
            if d.wireBytes + count > MAX_WIRE then Ran(d, decoded, input[offset..]) == Failed(TooMuchFraming)
            else
              && Consistent(Filled(d, count))
              && Ran(d, decoded, input[offset..])
                 == Ran(Filled(d, count), decoded + input[offset..offset + count], input[offset + count..])
  {
    var left := input[offset..];
    var count := Min(d.state.remaining, |left|);
    BulkData(d, decoded, left, count);
    assert left[..count] == input[offset..offset + count] && left[count..] == input[offset + count..];
  }
}
