/** The language of section 7.1 of RFC 9112 within the limits of the server, and its agreement with
    the decoder: what is read to completion is exactly a legal encoding. */
module HttpChunkedWire {
  import opened Bytes
  import opened ChunkFraming
  import opened HttpChunked

  predicate Clean(line: bytes) {
    CR !in line && LF !in line
  }

  predicate LegalSizeLine(line: bytes, size: nat) {
    Clean(line) && |line| < MAX_CHUNK_LINE && SizeOf(line) == Some(size)
  }

  predicate LegalChunks(chunks: seq<WireChunk>) {
    chunks == []
    || (chunks[0].data != [] && LegalSizeLine(chunks[0].header, |chunks[0].data|) && LegalChunks(chunks[1..]))
  }

  predicate LegalTrailer(line: bytes) {
    Clean(line) && line != [] && |line| < MAX_TRAILER_LINE && TrailerValid(line)
  }

  predicate LegalTrailers(lines: seq<bytes>) {
    lines == [] || (LegalTrailer(lines[0]) && LegalTrailers(lines[1..]))
  }

  /** Legal syntax within every limit. */
  predicate Legal(chunks: seq<WireChunk>, zero: bytes, lines: seq<bytes>) {
    && LegalChunks(chunks) && LegalSizeLine(zero, 0) && LegalTrailers(lines)
    && |DataOf(chunks)| <= MAX_BODY
    && |lines| <= MAX_TRAILERS && |EncodeLines(lines)| + 2 <= MAX_TRAILER_BYTES
    && |Wire(chunks, zero, lines)| <= MAX_WIRE
  }

  // ----- reading a line byte by byte

  function Charged(d: Decoder, n: nat): Decoder {
    d.(wireBytes := d.wireBytes + n)
  }

  lemma RunStep(d: Decoder, entity: bytes, b: byte, rest: bytes)
    requires !d.state.Complete? && StepByte(d, b).Took?
    ensures Ran(d, entity, [b] + rest) == Ran(StepByte(d, b).next, entity + StepByte(d, b).emitted, rest)
  {
    assert ([b] + rest)[1..] == rest;
  }

  lemma {:induction false} SizeLineText(d: Decoder, entity: bytes, pre: bytes, line: bytes, rest: bytes)
    requires d.state == SizeLine(pre) && !EndsInCr(pre) && Clean(line)
    requires |pre| + |line| < MAX_CHUNK_LINE && d.wireBytes + |line| <= MAX_WIRE
    ensures Ran(d, entity, line + rest) == Ran(Charged(d, |line|).(state := SizeLine(pre + line)), entity, rest)
    ensures !EndsInCr(pre + line)
    decreases |line|
  {
    if line == [] {
      assert pre + line == pre && line + rest == rest;
    } else {
      var b, tail := line[0], line[1..];
      var next := Charged(d, 1).(state := SizeLine(pre + [b]));
      assert line + rest == [b] + (tail + rest);
      assert entity + [] == entity;
      RunStep(d, entity, b, tail + rest);
      SizeLineText(next, entity, pre + [b], tail, rest);
      assert pre + [b] + tail == pre + line;
    }
  }

  function SizeRead(d: Decoder, line: bytes, size: nat): Decoder {
    Charged(d, |line| + 2).(state := if size == 0 then TrailerLine([]) else Data(size))
  }

  lemma SizeLineCr(d: Decoder, entity: bytes, line: bytes, rest: bytes)
    requires d.state == SizeLine(line) && !EndsInCr(line) && |line| < MAX_CHUNK_LINE && d.wireBytes + 1 <= MAX_WIRE
    ensures Ran(d, entity, CRLF + rest) == Ran(Charged(d, 1).(state := SizeLine(line + [CR])), entity, [LF] + rest)
  {
    assert CRLF + rest == [CR] + ([LF] + rest);
    assert entity + [] == entity;
    RunStep(d, entity, CR, [LF] + rest);
  }

  lemma SizeLineLf(d: Decoder, entity: bytes, line: bytes, size: nat, rest: bytes)
    requires d.state == SizeLine(line + [CR]) && SizeOf(line) == Some(size)
    requires d.wireBytes + 1 <= MAX_WIRE && d.decodedBytes + size <= MAX_BODY
    ensures Ran(d, entity, [LF] + rest)
            == Ran(Charged(d, 1).(state := if size == 0 then TrailerLine([]) else Data(size)), entity, rest)
  {
    assert (line + [CR])[..|line|] == line;
    assert entity + [] == entity;
    RunStep(d, entity, LF, rest);
  }

  lemma SizeLineFinish(d: Decoder, entity: bytes, line: bytes, size: nat, rest: bytes)
    requires d.state == SizeLine(line) && LegalSizeLine(line, size)
    requires d.wireBytes + 2 <= MAX_WIRE && d.decodedBytes + size <= MAX_BODY
    ensures Ran(d, entity, CRLF + rest)
            == Ran(Charged(d, 2).(state := if size == 0 then TrailerLine([]) else Data(size)), entity, rest)
  {
    SizeLineCr(d, entity, line, rest);
    SizeLineLf(Charged(d, 1).(state := SizeLine(line + [CR])), entity, line, size, rest);
  }

  /** A legal chunk-size line is read whole. */
  lemma SizeLineRead(d: Decoder, entity: bytes, line: bytes, size: nat, rest: bytes)
    requires d.state == SizeLine([]) && LegalSizeLine(line, size)
    requires d.wireBytes + |line| + 2 <= MAX_WIRE && d.decodedBytes + size <= MAX_BODY
    ensures Ran(d, entity, line + CRLF + rest) == Ran(SizeRead(d, line, size), entity, rest)
  {
    Assoc(line, CRLF, rest);
    SizeLineWhole(d, entity, line, CRLF + rest);
    SizeLineFinish(SizeTyped(d, line), entity, line, size, rest);
  }

  /** The decoder once the text of a size line is read. */
  function SizeTyped(d: Decoder, line: bytes): Decoder {
    Charged(d, |line|).(state := SizeLine(line))
  }

  lemma SizeLineWhole(d: Decoder, entity: bytes, line: bytes, rest: bytes)
    requires d.state == SizeLine([]) && Clean(line) && |line| < MAX_CHUNK_LINE && d.wireBytes + |line| <= MAX_WIRE
    ensures Ran(d, entity, line + rest) == Ran(SizeTyped(d, line), entity, rest)
  {
    SizeLineText(d, entity, [], line, rest);
    assert [] + line == line;
  }

  // ----- a chunk

  lemma TerminatorRead(d: Decoder, entity: bytes, rest: bytes)
    requires d.state == DataCrLf(0) && d.wireBytes + 2 <= MAX_WIRE
    ensures Ran(d, entity, CRLF + rest) == Ran(Charged(d, 2).(state := SizeLine([])), entity, rest)
  {
    assert CRLF + rest == [CR] + ([LF] + rest);
    assert entity + [] == entity;
    RunStep(d, entity, CR, [LF] + rest);
    RunStep(Charged(d, 1).(state := DataCrLf(1)), entity, LF, rest);
  }

  lemma DataRead(d: Decoder, entity: bytes, data: bytes, rest: bytes)
    requires data != [] && d.state == Data(|data|) && d.wireBytes + |data| + 2 <= MAX_WIRE
    ensures Ran(d, entity, data + CRLF + rest)
            == Ran(Charged(d, |data| + 2).(state := SizeLine([]), decodedBytes := d.decodedBytes + |data|),
                   entity + data, rest)
  {
    var input := data + CRLF + rest;
    assert input[..|data|] == data && input[|data|..] == CRLF + rest;
    BulkData(d, entity, input, |data|);
    TerminatorRead(Filled(d, |data|), entity + data, rest);
  }

  function ChunkDone(d: Decoder, c: WireChunk): Decoder {
    Charged(d, |EncodeChunk(c)|).(decodedBytes := d.decodedBytes + |c.data|)
  }

  lemma ChunkRead(d: Decoder, entity: bytes, c: WireChunk, rest: bytes)
    requires d.state == SizeLine([]) && c.data != [] && LegalSizeLine(c.header, |c.data|)
    requires d.wireBytes + |EncodeChunk(c)| <= MAX_WIRE && d.decodedBytes + |c.data| <= MAX_BODY
    ensures Ran(d, entity, EncodeChunk(c) + rest) == Ran(ChunkDone(d, c), entity + c.data, rest)
  {
    var afterLine := c.data + CRLF + rest;
    assert EncodeChunk(c) + rest == c.header + CRLF + afterLine;
    SizeLineRead(d, entity, c.header, |c.data|, afterLine);
    DataRead(SizeRead(d, c.header, |c.data|), entity, c.data, rest);
  }

  function ChunksDone(d: Decoder, chunks: seq<WireChunk>): Decoder {
    Charged(d, |Encode(chunks)|).(decodedBytes := d.decodedBytes + |DataOf(chunks)|)
  }

  lemma EncodeFirst(chunks: seq<WireChunk>, entity: bytes, rest: bytes)
    requires chunks != []
    ensures Encode(chunks) + rest == EncodeChunk(chunks[0]) + (Encode(chunks[1..]) + rest)
    ensures entity + DataOf(chunks) == entity + chunks[0].data + DataOf(chunks[1..])
    ensures |Encode(chunks)| == |EncodeChunk(chunks[0])| + |Encode(chunks[1..])|
  {
    Assoc(EncodeChunk(chunks[0]), Encode(chunks[1..]), rest);
    Assoc(entity, chunks[0].data, DataOf(chunks[1..]));
  }

  lemma {:induction false} ChunksRead(d: Decoder, entity: bytes, chunks: seq<WireChunk>, rest: bytes)
    requires d.state == SizeLine([]) && LegalChunks(chunks)
    requires d.wireBytes + |Encode(chunks)| <= MAX_WIRE && d.decodedBytes + |DataOf(chunks)| <= MAX_BODY
    ensures Ran(d, entity, Encode(chunks) + rest) == Ran(ChunksDone(d, chunks), entity + DataOf(chunks), rest)
    decreases |chunks|
  {
    if chunks == [] {
      assert Encode(chunks) + rest == rest && entity + DataOf(chunks) == entity;
    } else {
      var c, others := chunks[0], chunks[1..];
      EncodeFirst(chunks, entity, rest);
      ChunkRead(d, entity, c, Encode(others) + rest);
      ChunksRead(ChunkDone(d, c), entity + c.data, others, rest);
      assert ChunksDone(ChunkDone(d, c), others) == ChunksDone(d, chunks);
    }
  }

  // ----- the trailer section

  function Counted(d: Decoder, n: nat): Decoder {
    Charged(d, n).(trailerBytes := d.trailerBytes + n)
  }

  lemma {:induction false} TrailerText(d: Decoder, entity: bytes, pre: bytes, line: bytes, rest: bytes)
    requires d.state == TrailerLine(pre) && !EndsInCr(pre) && Clean(line)
    requires |pre| + |line| < MAX_TRAILER_LINE
    requires d.wireBytes + |line| <= MAX_WIRE && d.trailerBytes + |line| <= MAX_TRAILER_BYTES
    ensures Ran(d, entity, line + rest) == Ran(Counted(d, |line|).(state := TrailerLine(pre + line)), entity, rest)
    decreases |line|
  {
    if line == [] {
      assert pre + line == pre && line + rest == rest;
    } else {
      var b, tail := line[0], line[1..];
      var next := Counted(d, 1).(state := TrailerLine(pre + [b]));
      assert line + rest == [b] + (tail + rest);
      assert entity + [] == entity;
      RunStep(d, entity, b, tail + rest);
      TrailerText(next, entity, pre + [b], tail, rest);
      assert pre + [b] + tail == pre + line;
    }
  }

  lemma TrailerCr(d: Decoder, entity: bytes, line: bytes, rest: bytes)
    requires d.state == TrailerLine(line) && !EndsInCr(line) && |line| < MAX_TRAILER_LINE
    requires d.wireBytes + 1 <= MAX_WIRE && d.trailerBytes + 1 <= MAX_TRAILER_BYTES
    ensures Ran(d, entity, CRLF + rest) == Ran(Counted(d, 1).(state := TrailerLine(line + [CR])), entity, [LF] + rest)
  {
    assert CRLF + rest == [CR] + ([LF] + rest);
    assert entity + [] == entity;
    RunStep(d, entity, CR, [LF] + rest);
  }

  function LineEnded(d: Decoder, line: bytes): Decoder {
    if line == [] then Counted(d, 1).(state := Complete)
    else Counted(d, 1).(state := TrailerLine([]), trailers := d.trailers + 1)
  }

  lemma TrailerLf(d: Decoder, entity: bytes, line: bytes, rest: bytes)
    requires d.state == TrailerLine(line + [CR]) && (line == [] || (TrailerValid(line) && d.trailers < MAX_TRAILERS))
    requires d.wireBytes + 1 <= MAX_WIRE && d.trailerBytes + 1 <= MAX_TRAILER_BYTES
    ensures Ran(d, entity, [LF] + rest) == Ran(LineEnded(d, line), entity, rest)
  {
    assert (line + [CR])[..|line|] == line;
    assert entity + [] == entity;
    RunStep(d, entity, LF, rest);
  }

  lemma TrailerFinish(d: Decoder, entity: bytes, line: bytes, rest: bytes)
    requires d.state == TrailerLine(line) && (line == [] || LegalTrailer(line))
    requires d.wireBytes + 2 <= MAX_WIRE && d.trailerBytes + 2 <= MAX_TRAILER_BYTES
    requires line != [] ==> d.trailers < MAX_TRAILERS
    ensures Ran(d, entity, CRLF + rest) == Ran(LineEnded(Counted(d, 1), line), entity, rest)
  {
    TrailerCr(d, entity, line, rest);
    TrailerLf(Counted(d, 1).(state := TrailerLine(line + [CR])), entity, line, rest);
  }

  function TrailerDone(d: Decoder, line: bytes): Decoder {
    Counted(d, |line| + 2).(trailers := d.trailers + 1)
  }

  lemma TrailerRead(d: Decoder, entity: bytes, line: bytes, rest: bytes)
    requires d.state == TrailerLine([]) && LegalTrailer(line) && d.trailers < MAX_TRAILERS
    requires d.wireBytes + |line| + 2 <= MAX_WIRE && d.trailerBytes + |line| + 2 <= MAX_TRAILER_BYTES
    ensures Ran(d, entity, line + CRLF + rest) == Ran(TrailerDone(d, line), entity, rest)
  {
    Assoc(line, CRLF, rest);
    TrailerText(d, entity, [], line, CRLF + rest);
    assert [] + line == line;
    TrailerFinish(Counted(d, |line|).(state := TrailerLine(line)), entity, line, rest);
  }

  function TrailersDone(d: Decoder, lines: seq<bytes>): Decoder {
    Counted(d, |EncodeLines(lines)| + 2).(state := Complete, trailers := d.trailers + |lines|)
  }

  lemma {:induction false} TrailersRead(d: Decoder, entity: bytes, lines: seq<bytes>, rest: bytes)
    requires d.state == TrailerLine([]) && LegalTrailers(lines) && d.trailers + |lines| <= MAX_TRAILERS
    requires d.wireBytes + |EncodeLines(lines)| + 2 <= MAX_WIRE
    requires d.trailerBytes + |EncodeLines(lines)| + 2 <= MAX_TRAILER_BYTES
    ensures Ran(d, entity, EncodeLines(lines) + CRLF + rest) == Stopped(TrailersDone(d, lines), entity, rest)
    decreases |lines|
  {
    if lines == [] {
      assert EncodeLines(lines) + CRLF + rest == CRLF + rest;
      TrailerFinish(d, entity, [], rest);
    } else {
      var after := EncodeLines(lines[1..]) + CRLF + rest;
      assert EncodeLines(lines) + CRLF + rest == lines[0] + CRLF + after;
      TrailerRead(d, entity, lines[0], after);
      TrailersRead(TrailerDone(d, lines[0]), entity, lines[1..], rest);
    }
  }

  // ----- round trip

  lemma WireParts(chunks: seq<WireChunk>, zero: bytes, lines: seq<bytes>, suffix: bytes)
    ensures Wire(chunks, zero, lines) + suffix
            == Encode(chunks) + (zero + CRLF + (EncodeLines(lines) + CRLF + suffix))
    ensures |Wire(chunks, zero, lines)| == |Encode(chunks)| + |zero| + |EncodeLines(lines)| + 4
  {
  }

  function AllRead(chunks: seq<WireChunk>, zero: bytes, lines: seq<bytes>): Decoder {
    Decoder(Complete, |Wire(chunks, zero, lines)|, |DataOf(chunks)|, |EncodeLines(lines)| + 2, |lines|)
  }

  lemma WholeRead(chunks: seq<WireChunk>, zero: bytes, lines: seq<bytes>, suffix: bytes)
    requires Legal(chunks, zero, lines)
    ensures Ran(START, [], Encode(chunks) + (zero + CRLF + (EncodeLines(lines) + CRLF + suffix)))
            == Stopped(AllRead(chunks, zero, lines), DataOf(chunks), suffix)
  {
    var tail := EncodeLines(lines) + CRLF + suffix;
    WireParts(chunks, zero, lines, suffix);
    ChunksRead(START, [], chunks, zero + CRLF + tail);
    assert [] + DataOf(chunks) == DataOf(chunks);
    var d := ChunksDone(START, chunks);
    SizeLineRead(d, DataOf(chunks), zero, 0, tail);
    TrailersRead(SizeRead(d, zero, 0), DataOf(chunks), lines, suffix);
  }

  /** Any legal encoding followed by any suffix decodes to its data and leaves the suffix. */
  lemma RoundTrip(chunks: seq<WireChunk>, zero: bytes, lines: seq<bytes>, suffix: bytes)
    requires Legal(chunks, zero, lines)
    ensures Push(START, Wire(chunks, zero, lines) + suffix)
            == Pushed(AllRead(chunks, zero, lines), DataOf(chunks), |Wire(chunks, zero, lines)|)
  {
    WireParts(chunks, zero, lines, suffix);
    WholeRead(chunks, zero, lines, suffix);
  }

  // ----- what completes is legal

  predicate Completes(o: Outcome) {
    o.Stopped? && o.decoder.state.Complete?
  }

  lemma CompletesStep(d: Decoder, entity: bytes, input: bytes)
    requires !d.state.Complete? && Completes(Ran(d, entity, input))
    ensures input != [] && StepByte(d, input[0]).Took?
    ensures Ran(d, entity, input) == Ran(StepByte(d, input[0]).next, entity + StepByte(d, input[0]).emitted, input[1..])
  {
  }

  ghost predicate SizeLineAt(d: Decoder, pre: bytes, input: bytes, line: bytes, rest: bytes) {
    && input == line + CRLF + rest
    && Clean(pre + line) && |pre + line| < MAX_CHUNK_LINE && SizeOf(pre + line).Some?
    && d.decodedBytes + SizeOf(pre + line).value <= MAX_BODY
    && d.wireBytes + |line| + 2 <= MAX_WIRE
  }

  lemma SizeLineEnds(d: Decoder, entity: bytes, pre: bytes, input: bytes)
    requires d.state == SizeLine(pre) && Clean(pre) && |pre| < MAX_CHUNK_LINE
    requires input != [] && input[0] == CR && Completes(Ran(d, entity, input))
    ensures |input| >= 2 && SizeLineAt(d, pre, input, [], input[2..])
  {
    CompletesStep(d, entity, input);
    var next := StepByte(d, CR).next;
    assert (pre + [CR])[..|pre|] == pre;
    CompletesStep(next, entity + [], input[1..]);
    assert input[1..][0] == LF;
    assert input == [] + CRLF + input[2..] && pre + [] == pre;
  }

  lemma SizeLineGrows(d: Decoder, pre: bytes, input: bytes, line: bytes, rest: bytes)
    requires input != [] && d.state == SizeLine(pre)
    requires SizeLineAt(Charged(d, 1).(state := SizeLine(pre + [input[0]])), pre + [input[0]], input[1..], line, rest)
    ensures SizeLineAt(d, pre, input, [input[0]] + line, rest)
  {
    var b := input[0];
    assert input == [b] + input[1..];
    Assoc(pre, [b], line);
    Assoc([b] + line, CRLF, rest);
    Assoc([b], line, CRLF + rest);
    Assoc(line, CRLF, rest);
  }

  lemma SizeLineRoom(d: Decoder, entity: bytes, pre: bytes, input: bytes)
    requires d.state == SizeLine(pre) && !EndsInCr(pre) && Completes(Ran(d, entity, input))
    ensures |pre| < MAX_CHUNK_LINE
  {
    CompletesStep(d, entity, input);
  }

  lemma {:induction false} SizeLineSound(d: Decoder, entity: bytes, pre: bytes, input: bytes)
    returns (line: bytes, rest: bytes)
    requires d.state == SizeLine(pre) && Clean(pre) && |pre| < MAX_CHUNK_LINE
    requires Completes(Ran(d, entity, input))
    ensures SizeLineAt(d, pre, input, line, rest)
    decreases |input|
  {
    CompletesStep(d, entity, input);
    if input[0] == CR {
      SizeLineEnds(d, entity, pre, input);
      line, rest := [], input[2..];
    } else {
      var next := Charged(d, 1).(state := SizeLine(pre + [input[0]]));
      assert input[0] != LF && StepByte(d, input[0]).next == next;
      SizeLineRoom(next, entity + [], pre + [input[0]], input[1..]);
      line, rest := SizeLineSound(next, entity + [], pre + [input[0]], input[1..]);
      SizeLineGrows(d, pre, input, line, rest);
      line := [input[0]] + line;
    }
  }

  ghost predicate TrailerAt(d: Decoder, pre: bytes, input: bytes, line: bytes, rest: bytes) {
    && input == line + CRLF + rest
    && (pre + line == [] || (LegalTrailer(pre + line) && d.trailers < MAX_TRAILERS))
    && d.trailerBytes + |line| + 2 <= MAX_TRAILER_BYTES
    && d.wireBytes + |line| + 2 <= MAX_WIRE
  }

  lemma TrailerEnds(d: Decoder, entity: bytes, pre: bytes, input: bytes)
    requires d.state == TrailerLine(pre) && Clean(pre) && |pre| < MAX_TRAILER_LINE
    requires input != [] && input[0] == CR && Completes(Ran(d, entity, input))
    ensures |input| >= 2 && TrailerAt(d, pre, input, [], input[2..])
  {
    CompletesStep(d, entity, input);
    var next := StepByte(d, CR).next;
    assert (pre + [CR])[..|pre|] == pre;
    CompletesStep(next, entity + [], input[1..]);
    assert input[1..][0] == LF;
    assert input == [] + CRLF + input[2..] && pre + [] == pre;
  }

  lemma TrailerGrows(d: Decoder, pre: bytes, input: bytes, line: bytes, rest: bytes)
    requires input != [] && d.state == TrailerLine(pre)
    requires TrailerAt(Counted(d, 1).(state := TrailerLine(pre + [input[0]])), pre + [input[0]], input[1..], line, rest)
    ensures TrailerAt(d, pre, input, [input[0]] + line, rest)
  {
    var b := input[0];
    assert input == [b] + input[1..];
    Assoc(pre, [b], line);
    Assoc([b] + line, CRLF, rest);
    Assoc([b], line, CRLF + rest);
    Assoc(line, CRLF, rest);
  }

  lemma TrailerRoom(d: Decoder, entity: bytes, pre: bytes, input: bytes)
    requires d.state == TrailerLine(pre) && !EndsInCr(pre) && Completes(Ran(d, entity, input))
    ensures |pre| < MAX_TRAILER_LINE
  {
    CompletesStep(d, entity, input);
  }

  lemma {:induction false} TrailerSound(d: Decoder, entity: bytes, pre: bytes, input: bytes)
    returns (line: bytes, rest: bytes)
    requires d.state == TrailerLine(pre) && Clean(pre) && |pre| < MAX_TRAILER_LINE
    requires Completes(Ran(d, entity, input))
    ensures TrailerAt(d, pre, input, line, rest)
    decreases |input|
  {
    CompletesStep(d, entity, input);
    if input[0] == CR {
      TrailerEnds(d, entity, pre, input);
      line, rest := [], input[2..];
    } else {
      var next := Counted(d, 1).(state := TrailerLine(pre + [input[0]]));
      assert input[0] != LF && StepByte(d, input[0]).next == next;
      TrailerRoom(next, entity + [], pre + [input[0]], input[1..]);
      line, rest := TrailerSound(next, entity + [], pre + [input[0]], input[1..]);
      TrailerGrows(d, pre, input, line, rest);
      line := [input[0]] + line;
    }
  }

  lemma {:induction false} TrailersSound(d: Decoder, entity: bytes, input: bytes)
    returns (lines: seq<bytes>, rest: bytes)
    requires d.state == TrailerLine([]) && d.trailers <= MAX_TRAILERS && Completes(Ran(d, entity, input))
    ensures LegalTrailers(lines) && input == EncodeLines(lines) + CRLF + rest
    ensures d.trailers + |lines| <= MAX_TRAILERS
    ensures d.trailerBytes + |EncodeLines(lines)| + 2 <= MAX_TRAILER_BYTES
    ensures d.wireBytes + |EncodeLines(lines)| + 2 <= MAX_WIRE
    decreases |input|
  {
    var line, after := TrailerSound(d, entity, [], input);
    assert [] + line == line;
    if line == [] {
      lines, rest := [], after;
      assert EncodeLines([]) + CRLF + rest == line + CRLF + rest;
    } else {
      TrailerRead(d, entity, line, after);
      var others;
      others, rest := TrailersSound(TrailerDone(d, line), entity, after);
      lines := [line] + others;
      assert lines[1..] == others;
      Assoc(line + CRLF, EncodeLines(others), CRLF);
      Assoc(line + CRLF, EncodeLines(others) + CRLF, rest);
    }
  }

  lemma TerminatorSound(d: Decoder, entity: bytes, input: bytes)
    requires d.state == DataCrLf(0) && Completes(Ran(d, entity, input))
    ensures |input| >= 2 && input == CRLF + input[2..] && d.wireBytes + 2 <= MAX_WIRE
  {
    CompletesStep(d, entity, input);
    CompletesStep(Charged(d, 1).(state := DataCrLf(1)), entity + [], input[1..]);
    assert input[1..][0] == LF && input == [input[0]] + input[1..];
  }

  lemma DataSound(d: Decoder, entity: bytes, input: bytes) returns (data: bytes, rest: bytes)
    requires d.state.Data? && d.state.remaining > 0 && Completes(Ran(d, entity, input))
    ensures |data| == d.state.remaining && input == data + CRLF + rest && d.wireBytes + |data| + 2 <= MAX_WIRE
  {
    CompletesStep(d, entity, input);
    var count := Min(d.state.remaining, |input|);
    BulkData(d, entity, input, count);
    data := input[..count];
    var after := input[count..];
    assert Completes(Ran(Filled(d, count), entity + data, after));
    if count < d.state.remaining {
      CompletesStep(Filled(d, count), entity + data, after);
      assert false;
    }
    TerminatorSound(Filled(d, count), entity + data, after);
    rest := after[2..];
    assert input == data + after;
    Assoc(data, CRLF, rest);
  }

  /** Chunks and then the last chunk, from the start of a size line. */
  ghost predicate ChunksAt(
    d: Decoder, entity: bytes, input: bytes, chunks: seq<WireChunk>, zero: bytes, rest: bytes)
  {
    && input == Encode(chunks) + (zero + CRLF + rest)
    && LegalChunks(chunks) && LegalSizeLine(zero, 0)
    && d.decodedBytes + |DataOf(chunks)| <= MAX_BODY
    && Ran(d, entity, input) == Ran(SizeRead(ChunksDone(d, chunks), zero, 0), entity + DataOf(chunks), rest)
  }

  lemma NoChunks(d: Decoder, entity: bytes, input: bytes, zero: bytes, rest: bytes)
    requires d.state == SizeLine([]) && d.decodedBytes <= MAX_BODY
    requires SizeLineAt(d, [], input, zero, rest) && SizeOf(zero) == Some(0)
    ensures ChunksAt(d, entity, input, [], zero, rest)
  {
    assert [] + zero == zero;
    SizeLineRead(d, entity, zero, 0, rest);
    assert Encode([]) + (zero + CRLF + rest) == input && entity + DataOf([]) == entity;
    assert ChunksDone(d, []) == d;
  }

  lemma FirstChunk(d: Decoder, entity: bytes, input: bytes, line: bytes, after: bytes)
    returns (c: WireChunk, rest: bytes)
    requires d.state == SizeLine([]) && Completes(Ran(d, entity, input))
    requires SizeLineAt(d, [], input, line, after) && SizeOf(line) != Some(0)
    ensures c.data != [] && LegalSizeLine(c.header, |c.data|) && input == EncodeChunk(c) + rest
    ensures d.decodedBytes + |c.data| <= MAX_BODY && d.wireBytes + |EncodeChunk(c)| <= MAX_WIRE
  {
    assert [] + line == line;
    var size := SizeOf(line).value;
    SizeLineRead(d, entity, line, size, after);
    var data;
    data, rest := DataSound(SizeRead(d, line, size), entity, after);
    c := WireChunk(line, data);
    Assoc(line + CRLF, data + CRLF, rest);
    Assoc(line + CRLF, data, CRLF);
  }

  lemma MoreChunks(
    d: Decoder, entity: bytes, input: bytes, c: WireChunk, middle: bytes, chunks: seq<WireChunk>, zero: bytes,
    rest: bytes)
    requires d.state == SizeLine([]) && c.data != [] && LegalSizeLine(c.header, |c.data|)
    requires input == EncodeChunk(c) + middle
    requires d.decodedBytes + |c.data| <= MAX_BODY && d.wireBytes + |EncodeChunk(c)| <= MAX_WIRE
    requires ChunksAt(ChunkDone(d, c), entity + c.data, middle, chunks, zero, rest)
    ensures ChunksAt(d, entity, input, [c] + chunks, zero, rest)
  {
    var all := [c] + chunks;
    assert all[1..] == chunks;
    ChunkRead(d, entity, c, middle);
    EncodeFirst(all, entity, zero + CRLF + rest);
    assert ChunksDone(ChunkDone(d, c), chunks) == ChunksDone(d, all);
  }

  lemma {:induction false} ChunksSound(d: Decoder, entity: bytes, input: bytes)
    returns (chunks: seq<WireChunk>, zero: bytes, rest: bytes)
    requires d.state == SizeLine([]) && d.decodedBytes <= MAX_BODY && Completes(Ran(d, entity, input))
    ensures ChunksAt(d, entity, input, chunks, zero, rest)
    decreases |input|
  {
    var line, after := SizeLineSound(d, entity, [], input);
    if SizeOf(line) == Some(0) {
      NoChunks(d, entity, input, line, after);
      return [], line, after;
    }
    var c, middle := FirstChunk(d, entity, input, line, after);
    ChunkRead(d, entity, c, middle);
    chunks, zero, rest := ChunksSound(ChunkDone(d, c), entity + c.data, middle);
    MoreChunks(d, entity, input, c, middle, chunks, zero, rest);
    chunks := [c] + chunks;
  }

  /** Whatever is read to completion is a legal encoding followed by what is left. */
  lemma CompleteLegal(input: bytes) returns (chunks: seq<WireChunk>, zero: bytes, lines: seq<bytes>, suffix: bytes)
    requires Push(START, input).Pushed? && Push(START, input).decoder.state.Complete?
    ensures Legal(chunks, zero, lines) && input == Wire(chunks, zero, lines) + suffix
  {
    var rest;
    assert Completes(Ran(START, [], input));
    chunks, zero, rest := ChunksSound(START, [], input);
    var d := SizeRead(ChunksDone(START, chunks), zero, 0);
    lines, suffix := TrailersSound(d, [] + DataOf(chunks), rest);
    WireParts(chunks, zero, lines, suffix);
  }

  ghost predicate IsLegal(wire: bytes) {
    exists chunks, zero, lines :: Legal(chunks, zero, lines) && wire == Wire(chunks, zero, lines)
  }

  predicate CompleteAfter(r: PushResult, n: nat) {
    r.Pushed? && r.decoder.state.Complete? && r.consumed == n
  }

  lemma CompletedPrefix(input: bytes, n: nat)
    requires n <= |input| && CompleteAfter(Push(START, input), n)
    ensures IsLegal(input[..n])
  {
    var chunks, zero, lines, suffix := CompleteLegal(input);
    RoundTrip(chunks, zero, lines, suffix);
    assert input[..n] == Wire(chunks, zero, lines);
  }

  lemma LegalPrefix(input: bytes, n: nat)
    requires n <= |input| && IsLegal(input[..n])
    ensures CompleteAfter(Push(START, input), n)
  {
    var chunks, zero, lines :| Legal(chunks, zero, lines) && input[..n] == Wire(chunks, zero, lines);
    assert input == input[..n] + input[n..];
    RoundTrip(chunks, zero, lines, input[n..]);
  }

  /** The body is complete after exactly `n` bytes if and only if those are a legal encoding. */
  lemma CompletesExactlyLegal(input: bytes, n: nat)
    requires n <= |input|
    ensures CompleteAfter(Push(START, input), n) <==> IsLegal(input[..n])
  {
    if CompleteAfter(Push(START, input), n) {
      CompletedPrefix(input, n);
    }
    if IsLegal(input[..n]) {
      LegalPrefix(input, n);
    }
  }

  // ----- a writer: sizes in hexadecimal

  function HexText(n: nat): (text: bytes)
    ensures text != [] && AllHex(text) && HexNumber(text) == n
  {
    if n < 16 then [LowerHexDigit(n)]
    else
      var front := HexText(n / 16);
      var text := front + [LowerHexDigit(n % 16)];
      assert text[..|text| - 1] == front;
      text
  }

  lemma {:induction false} HexTextLength(n: nat, k: nat)
    requires n < Power16(k) && k > 0
    ensures |HexText(n)| <= k
  {
    if n >= 16 {
      HexTextLength(n / 16, k - 1);
    }
  }

  lemma {:induction false} HexTextClean(text: bytes)
    requires AllHex(text)
    ensures Clean(text) && 59 !in text
  {
    assert forall b: byte :: b in text ==> IsHex(b);
  }

  lemma HexSizeLine(n: nat)
    requires n <= MAX_BODY
    ensures LegalSizeLine(HexText(n), n)
  {
    assert Power16(16) == 16 * 16 * 16 * 16 * 16 * 16 * 16 * 16 * Power16(8);
    HexTextLength(n, 16);
    HexTextClean(HexText(n));
  }

  /** The pieces of a body as chunks. */
  function Written(pieces: seq<bytes>): seq<WireChunk> {
    if pieces == [] then [] else [WireChunk(HexText(|pieces[0]|), pieces[0])] + Written(pieces[1..])
  }

  lemma {:induction false} WrittenLegal(pieces: seq<bytes>)
    requires (forall i :: 0 <= i < |pieces| ==> pieces[i] != []) && |Flatten(pieces)| <= MAX_BODY
    ensures LegalChunks(Written(pieces)) && DataOf(Written(pieces)) == Flatten(pieces)
  {
    if pieces != [] {
      HexSizeLine(|pieces[0]|);
      WrittenLegal(pieces[1..]);
      assert Written(pieces)[1..] == Written(pieces[1..]);
    }
  }

  /** Any body cut into non-empty pieces, written with hexadecimal sizes, the last chunk and legal
      trailers within the limits, is read back exactly, whatever follows it. */
  lemma BodyRoundTrip(pieces: seq<bytes>, lines: seq<bytes>, suffix: bytes)
    requires forall i :: 0 <= i < |pieces| ==> pieces[i] != []
    requires |Flatten(pieces)| <= MAX_BODY && LegalTrailers(lines) && |lines| <= MAX_TRAILERS
    requires |EncodeLines(lines)| + 2 <= MAX_TRAILER_BYTES && |Wire(Written(pieces), [48], lines)| <= MAX_WIRE
    ensures var r := Push(START, Wire(Written(pieces), [48], lines) + suffix);
            && CompleteAfter(r, |Wire(Written(pieces), [48], lines)|)
            && r.entity == Flatten(pieces)
  {
    WrittenLegal(pieces);
    assert HexText(0) == [48];
    HexSizeLine(0);
    RoundTrip(Written(pieces), [48], lines, suffix);
  }
}
