/** The language of aws-chunked streams and its agreement with the decoder: what is accepted is
    exactly what is legal, and what is released is always authenticated. */
module AwsChunkedWire {
  import opened Bytes
  import opened ChunkFraming
  import opened AwsChunked
  import opened AwsChunkedCuts

  // ----- legality

  function SignatureOf(header: bytes): Option<bytes> {
    var parsed := ParseChunkHeader(header);
    if parsed.Some? then parsed.value.1 else None
  }

  /** A header line for `size` bytes, signed exactly in signed mode. */
  ghost predicate LegalHeader(cfg: Config, header: bytes, size: nat) {
    && CleanLine(header)
    && |header| <= cfg.limits.maxChunkHeaderBytes
    && ParseChunkHeader(header) == Some((size, SignatureOf(header)))
    && (SignatureOf(header).Some? <==> cfg.mode.Signed?)
  }

  ghost predicate LegalChunk(cfg: Config, decoded: nat, previous: Option<bytes>, c: WireChunk) {
    && LegalHeader(cfg, c.header, |c.data|)
    && 0 < |c.data| <= Min(cfg.limits.maxChunkBytes, MAX_BUFFERED_CHUNK_BYTES)
    && !OverBudget(cfg, decoded + |c.data|)
    && SignatureHolds(cfg, previous, c.data, SignatureOf(c.header))
  }

  /** Every chunk is legal after those before it: within the budget and next in the chain. */
  ghost predicate LegalChunks(cfg: Config, decoded: nat, previous: Option<bytes>, chunks: seq<WireChunk>)
    decreases |chunks|
  {
    chunks == []
    || (LegalChunk(cfg, decoded, previous, chunks[0])
        && LegalChunks(cfg, decoded + |chunks[0].data|, NextSignature(previous, SignatureOf(chunks[0].header)),
                       chunks[1..]))
  }

  function LastSignature(previous: Option<bytes>, chunks: seq<WireChunk>): Option<bytes>
    decreases |chunks|
  {
    if chunks == [] then previous
    else LastSignature(NextSignature(previous, SignatureOf(chunks[0].header)), chunks[1..])
  }

  ghost predicate LegalZero(cfg: Config, previous: Option<bytes>, zero: bytes) {
    LegalHeader(cfg, zero, 0) && SignatureHolds(cfg, previous, [], SignatureOf(zero))
  }

  /** Trailer lines that are accepted in turn, within the byte limit that also pays for the final
      empty line; `result` are the trailers collected. */
  ghost predicate LegalLines(cfg: Config, trailers: seq<Trailer>, used: nat, lines: seq<bytes>, result: seq<Trailer>)
    decreases |lines|
  {
    if lines == [] then used + 2 <= cfg.limits.maxTrailerBytes && result == trailers
    else
      && lines[0] != [] && CleanLine(lines[0])
      && used + |lines[0]| + 2 <= cfg.limits.maxTrailerBytes
      && AcceptTrailer(cfg, trailers, lines[0]).Added?
      && LegalLines(cfg, AcceptTrailer(cfg, trailers, lines[0]).trailers, used + |lines[0]| + 2, lines[1..], result)
  }

  /** What the end of the body checks: the declared length and, unsigned, every declared checksum. */
  ghost predicate Complete(cfg: Config, released: bytes, trailers: seq<Trailer>) {
    && (cfg.limits.expectedDecodedLength.Some? ==> |released| == cfg.limits.expectedDecodedLength.value)
    && match cfg.mode
       case Signed(_) => trailers == []
       case UnsignedTrailer(declared) => ChecksumsError(cfg, released, trailers, declared).None?
  }

  // ----- the three iterations of one chunk

  function After(st: State, c: WireChunk, rest: bytes): State {
    st.(input := rest, decodedBytes := st.decodedBytes + |c.data|, released := st.released + c.data,
        previous := NextSignature(st.previous, SignatureOf(c.header)))
  }

  lemma ChunkHeaderStep(cfg: Config, st: State, header: bytes, size: nat, rest: bytes)
    requires Valid(cfg, st) && st.phase.Header? && st.input == header + CRLF + rest
    requires LegalHeader(cfg, header, size) && !OverBudget(cfg, st.decodedBytes + size)
    requires 0 < size <= Min(cfg.limits.maxChunkBytes, MAX_BUFFERED_CHUNK_BYTES)
    ensures var next := st.(phase := Data, input := rest, current := Some(Chunk(size, [], SignatureOf(header))));
            Valid(cfg, next) && Drain(cfg, st) == Drain(cfg, next)
  {
    LineTaken(header, rest, cfg.limits.maxChunkHeaderBytes);
    DrainNext(cfg, st, st.(phase := Data, input := rest, current := Some(Chunk(size, [], SignatureOf(header)))));
  }

  lemma DataStep(cfg: Config, st: State, data: bytes, rest: bytes)
    requires Valid(cfg, st) && st.phase.Data? && st.current.value.data == [] && |data| == st.current.value.size
    requires st.input == data + rest
    ensures var next := st.(phase := DataCrlf, input := rest, current := Some(st.current.value.(data := data)));
            Valid(cfg, next) && Drain(cfg, st) == Drain(cfg, next)
  {
    assert (data + rest)[..|data|] == data && (data + rest)[|data|..] == rest;
    assert [] + data == data;
    DrainNext(cfg, st, st.(phase := DataCrlf, input := rest, current := Some(st.current.value.(data := data))));
  }

  lemma DataCrlfStep(cfg: Config, st: State, rest: bytes)
    requires Valid(cfg, st) && st.phase.DataCrlf? && st.input == CRLF + rest
    requires SignatureHolds(cfg, st.previous, st.current.value.data, st.current.value.signature)
    ensures var chunk := st.current.value;
            var next := st.(phase := Header, input := rest, current := None,
                            decodedBytes := st.decodedBytes + chunk.size, released := st.released + chunk.data,
                            previous := NextSignature(st.previous, chunk.signature));
            Valid(cfg, next) && Drain(cfg, st) == Drain(cfg, next)
  {
    var chunk := st.current.value;
    assert (CRLF + rest)[..2] == CRLF && (CRLF + rest)[2..] == rest;
    DrainNext(cfg, st, st.(phase := Header, input := rest, current := None,
                           decodedBytes := st.decodedBytes + chunk.size, released := st.released + chunk.data,
                           previous := NextSignature(st.previous, chunk.signature)));
  }

  /** A legal chunk is consumed whole and released. */
  lemma ChunkRound(cfg: Config, st: State, c: WireChunk, rest: bytes)
    requires Valid(cfg, st) && st.phase.Header? && st.input == EncodeChunk(c) + rest
    requires LegalChunk(cfg, st.decodedBytes, st.previous, c)
    ensures Valid(cfg, After(st, c, rest))
    ensures Drained(cfg, st) == Drained(cfg, After(st, c, rest))
  {
    var size, signature := |c.data|, SignatureOf(c.header);
    var afterData := CRLF + rest;
    var afterHeader := c.data + afterData;
    assert st.input == c.header + CRLF + afterHeader;
    var chunk := Chunk(size, [], signature);
    var st1 := st.(phase := Data, input := afterHeader, current := Some(chunk));
    var st2 := st.(phase := DataCrlf, input := afterData, current := Some(chunk.(data := c.data)));
    ChunkHeaderStep(cfg, st, c.header, size, afterHeader);
    DataStep(cfg, st1, c.data, afterData);
    DataCrlfStep(cfg, st2, rest);
  }

  // ----- the end of the stream

  function ZeroRead(st: State, zero: bytes, rest: bytes): State {
    st.(phase := Trailers, input := rest, previous := NextSignature(st.previous, SignatureOf(zero)))
  }

  lemma ZeroStep(cfg: Config, st: State, zero: bytes, rest: bytes)
    requires Valid(cfg, st) && st.phase.Header? && st.input == zero + CRLF + rest
    requires LegalZero(cfg, st.previous, zero)
    ensures Valid(cfg, ZeroRead(st, zero, rest)) && Drain(cfg, st) == Drain(cfg, ZeroRead(st, zero, rest))
  {
    LineTaken(zero, rest, cfg.limits.maxChunkHeaderBytes);
    DrainNext(cfg, st, ZeroRead(st, zero, rest));
  }

  function LineRead(cfg: Config, st: State, line: bytes, rest: bytes): State
    requires AcceptTrailer(cfg, st.trailers, line).Added?
  {
    st.(input := rest, trailerBytes := st.trailerBytes + |line| + 2,
        trailers := AcceptTrailer(cfg, st.trailers, line).trailers)
  }

  lemma LineStep(cfg: Config, st: State, line: bytes, rest: bytes)
    requires Valid(cfg, st) && st.phase.Trailers? && st.input == line + CRLF + rest
    requires line != [] && CleanLine(line) && st.trailerBytes + |line| + 2 <= cfg.limits.maxTrailerBytes
    requires AcceptTrailer(cfg, st.trailers, line).Added?
    ensures Valid(cfg, LineRead(cfg, st, line, rest))
    ensures Drain(cfg, st) == Drain(cfg, LineRead(cfg, st, line, rest))
  {
    LineTaken(line, rest, cfg.limits.maxTrailerBytes);
    DrainNext(cfg, st, LineRead(cfg, st, line, rest));
  }

  lemma EndStep(cfg: Config, st: State)
    requires Valid(cfg, st) && st.phase.Trailers? && st.input == CRLF
    requires st.trailerBytes + 2 <= cfg.limits.maxTrailerBytes && Complete(cfg, st.released, st.trailers)
    ensures Drain(cfg, st) == Finished(st.(phase := Done, input := [], trailerBytes := st.trailerBytes + 2))
  {
    assert [] + CRLF + [] == CRLF;
    LineTaken([], [], cfg.limits.maxTrailerBytes);
  }

  // ----- legal streams are accepted

  predicate Completes(o: Outcome, released: bytes, trailers: seq<Trailer>, previous: Option<bytes>) {
    && o.Finished?
    && o.state.released == released && o.state.decodedBytes == |released|
    && o.state.trailers == trailers && o.state.previous == previous
  }

  /** What is left after the zero-size chunk: legal lines and the empty one. */
  ghost predicate LegalTail(cfg: Config, st: State, lines: seq<bytes>, trailers: seq<Trailer>) {
    && st.input == EncodeLines(lines) + CRLF
    && LegalLines(cfg, st.trailers, st.trailerBytes, lines, trailers)
    && Complete(cfg, st.released, trailers)
  }

  lemma LegalTailFirst(cfg: Config, st: State, lines: seq<bytes>, trailers: seq<Trailer>) returns (rest: bytes)
    requires LegalTail(cfg, st, lines, trailers) && lines != []
    ensures st.input == lines[0] + CRLF + rest
    ensures lines[0] != [] && CleanLine(lines[0]) && st.trailerBytes + |lines[0]| + 2 <= cfg.limits.maxTrailerBytes
    ensures AcceptTrailer(cfg, st.trailers, lines[0]).Added?
    ensures LegalTail(cfg, LineRead(cfg, st, lines[0], rest), lines[1..], trailers)
  {
    rest := EncodeLines(lines[1..]) + CRLF;
    assert st.input == lines[0] + CRLF + rest;
  }

  lemma LegalTailEmpty(cfg: Config, st: State, trailers: seq<Trailer>)
    requires Valid(cfg, st) && st.phase.Trailers? && LegalTail(cfg, st, [], trailers)
    ensures Completes(Drain(cfg, st), st.released, trailers, st.previous)
  {
    assert EncodeLines([]) + CRLF == CRLF;
    EndStep(cfg, st);
  }

  lemma {:induction false} LinesAccepted(cfg: Config, st: State, lines: seq<bytes>, trailers: seq<Trailer>)
    requires Valid(cfg, st) && st.phase.Trailers? && LegalTail(cfg, st, lines, trailers)
    ensures Completes(Drain(cfg, st), st.released, trailers, st.previous)
    decreases |lines|
  {
    if lines == [] {
      LegalTailEmpty(cfg, st, trailers);
    } else {
      var rest := LegalTailFirst(cfg, st, lines, trailers);
      LineStep(cfg, st, lines[0], rest);
      LinesAccepted(cfg, LineRead(cfg, st, lines[0], rest), lines[1..], trailers);
    }
  }

  lemma ZeroAccepted(cfg: Config, st: State, zero: bytes, lines: seq<bytes>, trailers: seq<Trailer>)
    requires Valid(cfg, st) && st.phase.Header? && st.input == zero + CRLF + (EncodeLines(lines) + CRLF)
    requires LegalZero(cfg, st.previous, zero)
    requires LegalLines(cfg, st.trailers, st.trailerBytes, lines, trailers) && Complete(cfg, st.released, trailers)
    ensures Completes(Drain(cfg, st), st.released, trailers, NextSignature(st.previous, SignatureOf(zero)))
  {
    var rest := EncodeLines(lines) + CRLF;
    ZeroStep(cfg, st, zero, rest);
    LinesAccepted(cfg, ZeroRead(st, zero, rest), lines, trailers);
  }

  function AfterAll(st: State, chunks: seq<WireChunk>, rest: bytes): State {
    st.(input := rest, decodedBytes := st.decodedBytes + |DataOf(chunks)|, released := st.released + DataOf(chunks),
        previous := LastSignature(st.previous, chunks))
  }

  lemma AfterAllStep(st: State, chunks: seq<WireChunk>, middle: bytes, rest: bytes)
    requires chunks != []
    ensures AfterAll(After(st, chunks[0], middle), chunks[1..], rest) == AfterAll(st, chunks, rest)
  {
    assert st.released + chunks[0].data + DataOf(chunks[1..]) == st.released + DataOf(chunks);
  }

  /** A legal run of chunks is consumed and released, whatever follows. */
  lemma {:induction false} ChunksReleased(cfg: Config, st: State, chunks: seq<WireChunk>, rest: bytes)
    requires Valid(cfg, st) && st.phase.Header? && st.input == Encode(chunks) + rest
    requires LegalChunks(cfg, st.decodedBytes, st.previous, chunks)
    ensures Valid(cfg, AfterAll(st, chunks, rest))
    ensures Drained(cfg, st) == Drained(cfg, AfterAll(st, chunks, rest))
    decreases |chunks|
  {
    if chunks == [] {
      assert Encode(chunks) + rest == rest;
      assert st.released + DataOf(chunks) == st.released;
    } else {
      var middle := Encode(chunks[1..]) + rest;
      Assoc(EncodeChunk(chunks[0]), Encode(chunks[1..]), rest);
      ChunkRound(cfg, st, chunks[0], middle);
      ChunksReleased(cfg, After(st, chunks[0], middle), chunks[1..], rest);
      AfterAllStep(st, chunks, middle, rest);
    }
  }

  /** A stream is legal when it has such a decomposition from the start state. */
  ghost predicate Legal(cfg: Config, chunks: seq<WireChunk>, zero: bytes, lines: seq<bytes>, trailers: seq<Trailer>) {
    && LegalChunks(cfg, 0, Start(cfg).previous, chunks)
    && LegalZero(cfg, LastSignature(Start(cfg).previous, chunks), zero)
    && LegalLines(cfg, [], 0, lines, trailers)
    && Complete(cfg, DataOf(chunks), trailers)
  }

  /** Every legal stream is accepted and decodes to the data of its chunks. */
  lemma LegalAccepted(cfg: Config, chunks: seq<WireChunk>, zero: bytes, lines: seq<bytes>, trailers: seq<Trailer>)
    requires Legal(cfg, chunks, zero, lines, trailers)
    ensures Completes(Push(cfg, Begin(cfg).state, Wire(chunks, zero, lines)), DataOf(chunks), trailers,
                      NextSignature(LastSignature(Start(cfg).previous, chunks), SignatureOf(zero)))
  {
    var rest := zero + CRLF + (EncodeLines(lines) + CRLF);
    var st := Begin(cfg).state.With(Wire(chunks, zero, lines));
    assert st.input == Encode(chunks) + rest;
    ChunksReleased(cfg, st, chunks, rest);
    var last := AfterAll(st, chunks, rest);
    assert last.released == DataOf(chunks);
    ZeroAccepted(cfg, last, zero, lines, trailers);
  }

  // ----- accepted streams are legal

  lemma EndLine(cfg: Config, st: State)
    requires Valid(cfg, st) && st.phase.Trailers? && Iterate(cfg, st).End?
    ensures st.input == CRLF && st.trailerBytes + 2 <= cfg.limits.maxTrailerBytes
    ensures Complete(cfg, st.released, st.trailers)
    ensures Iterate(cfg, st).state == st.(phase := Done, input := [], trailerBytes := st.trailerBytes + 2)
  {
    TakenLine(st.input, cfg.limits.maxTrailerBytes);
    assert [] + CRLF + [] == CRLF;
  }

  lemma NextLine(cfg: Config, st: State) returns (line: bytes, rest: bytes)
    requires Valid(cfg, st) && st.phase.Trailers? && Iterate(cfg, st).Next?
    ensures st.input == line + CRLF + rest
    ensures line != [] && CleanLine(line) && st.trailerBytes + |line| + 2 <= cfg.limits.maxTrailerBytes
    ensures AcceptTrailer(cfg, st.trailers, line).Added? && Iterate(cfg, st).state == LineRead(cfg, st, line, rest)
  {
    var t := TakeLine(st.input, cfg.limits.maxTrailerBytes);
    TakenLine(st.input, cfg.limits.maxTrailerBytes);
    line, rest := t.text, t.rest;
  }

  lemma EncodeLinesCons(line: bytes, lines: seq<bytes>)
    ensures line + CRLF + (EncodeLines(lines) + CRLF) == EncodeLines([line] + lines) + CRLF
  {
    assert ([line] + lines)[1..] == lines;
    assert line + CRLF + (EncodeLines(lines) + CRLF) == line + CRLF + EncodeLines(lines) + CRLF;
  }

  lemma LegalLinesCons(
    cfg: Config, trailers: seq<Trailer>, used: nat, line: bytes, lines: seq<bytes>, result: seq<Trailer>)
    requires line != [] && CleanLine(line) && used + |line| + 2 <= cfg.limits.maxTrailerBytes
    requires AcceptTrailer(cfg, trailers, line).Added?
    requires LegalLines(cfg, AcceptTrailer(cfg, trailers, line).trailers, used + |line| + 2, lines, result)
    ensures LegalLines(cfg, trailers, used, [line] + lines, result)
  {
    LegalLinesFirst(cfg, trailers, used, [line] + lines, line, lines, result);
  }

  lemma LegalLinesFirst(
    cfg: Config, trailers: seq<Trailer>, used: nat, all: seq<bytes>, line: bytes, lines: seq<bytes>,
    result: seq<Trailer>)
    requires all == [line] + lines
    requires line != [] && CleanLine(line) && used + |line| + 2 <= cfg.limits.maxTrailerBytes
    requires AcceptTrailer(cfg, trailers, line).Added?
    requires LegalLines(cfg, AcceptTrailer(cfg, trailers, line).trailers, used + |line| + 2, lines, result)
    ensures LegalLines(cfg, trailers, used, all, result)
  {
    assert all != [] && all[0] == line;
    assert all[1..] == lines;
  }

  lemma LegalTailCons(cfg: Config, st: State, next: State, line: bytes, lines: seq<bytes>, trailers: seq<Trailer>)
    requires st.input == line + CRLF + next.input && next.released == st.released
    requires line != [] && CleanLine(line) && st.trailerBytes + |line| + 2 <= cfg.limits.maxTrailerBytes
    requires AcceptTrailer(cfg, st.trailers, line) == Added(next.trailers)
    requires next.trailerBytes == st.trailerBytes + |line| + 2
    requires LegalTail(cfg, next, lines, trailers)
    ensures LegalTail(cfg, st, [line] + lines, trailers)
  {
    LegalLinesCons(cfg, st.trailers, st.trailerBytes, line, lines, trailers);
    EncodeLinesCons(line, lines);
  }

  /** How an accepted tail goes on. */
  lemma TailStep(cfg: Config, st: State, last: State)
    requires Valid(cfg, st) && st.phase.Trailers? && Drain(cfg, st) == Finished(last)
    ensures Iterate(cfg, st) == End(last) || Iterate(cfg, st).Next?
    ensures Iterate(cfg, st).Next? ==> Iterate(cfg, st).state.phase.Trailers?
  {
    TrailersValid(cfg, st);
  }

  lemma EmptyTail(cfg: Config, st: State, last: State)
    requires Valid(cfg, st) && st.phase.Trailers? && Iterate(cfg, st) == End(last)
    ensures LegalTail(cfg, st, [], last.trailers)
  {
    EndLine(cfg, st);
    assert EncodeLines([]) + CRLF == CRLF;
  }

  /** An accepted tail is made of legal trailer lines and the empty line. */
  lemma {:induction false} LinesOf(cfg: Config, st: State, last: State) returns (lines: seq<bytes>)
    requires Valid(cfg, st) && st.phase.Trailers? && Drain(cfg, st) == Finished(last)
    ensures LegalTail(cfg, st, lines, last.trailers)
    decreases |st.input|
  {
    TailStep(cfg, st, last);
    if Iterate(cfg, st).End? {
      EmptyTail(cfg, st, last);
      lines := [];
    } else {
      var next := Iterate(cfg, st).state;
      DrainNext(cfg, st, next);
      var others := LinesOf(cfg, next, last);
      var line, rest := NextLine(cfg, st);
      LegalTailCons(cfg, st, next, line, others, last.trailers);
      lines := [line] + others;
    }
  }

  /** Trailers never release anything. */
  lemma {:induction false} TrailersRelease(cfg: Config, st: State)
    requires Valid(cfg, st) && st.phase.Trailers?
    ensures Released(Drain(cfg, st)) == st.released
    decreases |st.input|
  {
    if Iterate(cfg, st).Next? {
      TrailersValid(cfg, st);
      DrainStep(cfg, st);
      TrailersRelease(cfg, Iterate(cfg, st).state);
    }
  }

  function Released(o: Outcome): bytes {
    if o.Failed? then o.released else o.state.released
  }

  // ----- from the header phase

  /** One header line was accepted: it is legal, and either ends the data or opens a chunk. */
  lemma AcceptedHeader(cfg: Config, st: State) returns (header: bytes, size: nat, rest: bytes)
    requires Valid(cfg, st) && st.phase.Header? && Iterate(cfg, st).Next?
    ensures st.input == header + CRLF + rest && LegalHeader(cfg, header, size)
    ensures !OverBudget(cfg, st.decodedBytes + size) && size <= Min(cfg.limits.maxChunkBytes, MAX_BUFFERED_CHUNK_BYTES)
    ensures size == 0 ==> LegalZero(cfg, st.previous, header) && Iterate(cfg, st).state == ZeroRead(st, header, rest)
    ensures size > 0 ==>
              Iterate(cfg, st).state
              == st.(phase := Data, input := rest, current := Some(Chunk(size, [], SignatureOf(header))))
  {
    var t := TakeLine(st.input, cfg.limits.maxChunkHeaderBytes);
    TakenLine(st.input, cfg.limits.maxChunkHeaderBytes);
    header, rest := t.text, t.rest;
    size := ParseChunkHeader(header).value.0;
  }

  /** A chunk that has been opened is either completed or releases nothing. */
  lemma OpenedChunk(cfg: Config, st: State) returns (rest: bytes)
    requires Valid(cfg, st) && st.phase.Data? && st.current.value.data == []
    ensures var chunk := st.current.value;
            || (Released(Drain(cfg, st)) == st.released && !Drain(cfg, st).Finished?)
            || (&& |st.input| >= chunk.size && st.input[chunk.size..] == CRLF + rest
                && SignatureHolds(cfg, st.previous, st.input[..chunk.size], chunk.signature))
  {
    var chunk := st.current.value;
    rest := [];
    if st.input != [] {
      var filled := StepData(st).state;
      DrainNext(cfg, st, filled);
      if |st.input| >= chunk.size {
        assert [] + st.input[..chunk.size] == st.input[..chunk.size];
        var left := st.input[chunk.size..];
        assert filled.input == left && filled.phase.DataCrlf?;
        if |left| >= 2 {
          rest := left[2..];
          assert left == left[..2] + rest;
        }
      }
    }
  }

  /** From a header: a legal chunk, the legal end of the data, or nothing more is released. */
  datatype Progress = ChunkRead(chunk: WireChunk, rest: bytes) | DataEnd(zero: bytes, rest: bytes) | Nothing

  ghost predicate Progresses(cfg: Config, st: State, p: Progress)
    requires Valid(cfg, st) && st.phase.Header?
  {
    match p
    case ChunkRead(c, rest) => st.input == EncodeChunk(c) + rest && LegalChunk(cfg, st.decodedBytes, st.previous, c)
    case DataEnd(zero, rest) => st.input == zero + CRLF + rest && LegalZero(cfg, st.previous, zero)
    case Nothing => Released(Drain(cfg, st)) == st.released && !Drain(cfg, st).Finished?
  }

  lemma ChunkBytes(header: bytes, body: bytes, size: nat, after: bytes)
    requires size <= |body| && body[size..] == CRLF + after
    ensures header + CRLF + body == EncodeChunk(WireChunk(header, body[..size])) + after
  {
    var data := body[..size];
    assert body == data + (CRLF + after);
    assert header + CRLF + (data + (CRLF + after)) == header + CRLF + data + CRLF + after;
  }

  lemma ReadChunk(cfg: Config, st: State, header: bytes, size: nat, rest: bytes) returns (p: Progress)
    requires Valid(cfg, st) && st.phase.Header? && st.input == header + CRLF + rest && LegalHeader(cfg, header, size)
    requires !OverBudget(cfg, st.decodedBytes + size)
    requires 0 < size <= Min(cfg.limits.maxChunkBytes, MAX_BUFFERED_CHUNK_BYTES)
    ensures Progresses(cfg, st, p)
  {
    ChunkHeaderStep(cfg, st, header, size, rest);
    var started := st.(phase := Data, input := rest, current := Some(Chunk(size, [], SignatureOf(header))));
    var after := OpenedChunk(cfg, started);
    if Released(Drain(cfg, started)) == st.released && !Drain(cfg, started).Finished? {
      p := Nothing;
    } else {
      ChunkBytes(header, rest, size, after);
      p := ChunkRead(WireChunk(header, rest[..size]), after);
    }
  }

  lemma Progressed(cfg: Config, st: State) returns (p: Progress)
    requires Valid(cfg, st) && st.phase.Header?
    ensures Progresses(cfg, st, p)
  {
    if Iterate(cfg, st).Next? {
      var header, size, rest := AcceptedHeader(cfg, st);
      if size == 0 {
        p := DataEnd(header, rest);
      } else {
        p := ReadChunk(cfg, st, header, size, rest);
      }
    } else {
      HeaderStops(cfg, st);
      p := Nothing;
    }
  }

  lemma HeaderStops(cfg: Config, st: State)
    requires Valid(cfg, st) && st.phase.Header? && !Iterate(cfg, st).Next?
    ensures Progresses(cfg, st, Nothing)
  {
    assert Iterate(cfg, st) == StepHeader(cfg, st);
  }

  /** The chunks at the front of the input are legal and are exactly what is released. */
  ghost predicate Chain(cfg: Config, st: State, chunks: seq<WireChunk>, rest: bytes, released: bytes) {
    && st.input == Encode(chunks) + rest
    && LegalChunks(cfg, st.decodedBytes, st.previous, chunks)
    && released == st.released + DataOf(chunks)
  }

  lemma ChainEmpty(cfg: Config, st: State)
    ensures Chain(cfg, st, [], st.input, st.released)
  {
    assert [] + st.input == st.input && st.released + [] == st.released;
  }

  lemma ChainCons(
    cfg: Config, st: State, c: WireChunk, middle: bytes, chunks: seq<WireChunk>, rest: bytes, released: bytes)
    requires st.input == EncodeChunk(c) + middle && LegalChunk(cfg, st.decodedBytes, st.previous, c)
    requires Chain(cfg, After(st, c, middle), chunks, rest, released)
    ensures Chain(cfg, st, [c] + chunks, rest, released)
  {
    var all := [c] + chunks;
    assert all[1..] == chunks;
    assert st.input == Encode(all) + rest;
    assert released == st.released + DataOf(all);
  }

  /** Whatever the verdict, what has been released is the data of a legal, authenticated run of
      chunks at the front of the input; `p` is how reading went on from there. */
  lemma {:induction false} ReleasedChain(cfg: Config, st: State)
    returns (chunks: seq<WireChunk>, rest: bytes, p: Progress)
    requires Valid(cfg, st) && st.phase.Header?
    ensures Chain(cfg, st, chunks, rest, Released(Drain(cfg, st)))
    ensures var next := AfterAll(st, chunks, rest);
            Valid(cfg, next) && Progresses(cfg, next, p) && !p.ChunkRead? && Drain(cfg, next) == Drain(cfg, st)
    decreases |st.input|
  {
    p := Progressed(cfg, st);
    match p {
      case ChunkRead(c, middle) =>
        ChunkRound(cfg, st, c, middle);
        chunks, rest, p := ReleasedChain(cfg, After(st, c, middle));
        ChainCons(cfg, st, c, middle, chunks, rest, Released(Drain(cfg, st)));
        var all := [c] + chunks;
        assert all[1..] == chunks;
        AfterAllStep(st, all, middle, rest);
        chunks := all;
      case DataEnd(zero, tail) =>
        ZeroStep(cfg, st, zero, tail);
        TrailersRelease(cfg, ZeroRead(st, zero, tail));
        chunks, rest := [], st.input;
        ChainEmpty(cfg, st);
        assert AfterAll(st, [], rest) == st;
      case Nothing =>
        chunks, rest := [], st.input;
        ChainEmpty(cfg, st);
        assert AfterAll(st, [], rest) == st;
    }
  }

  // ----- whole streams

  /** `body` is the wire form of a legal stream. */
  ghost predicate IsLegal(cfg: Config, body: bytes) {
    exists chunks, zero, lines, trailers ::
      Legal(cfg, chunks, zero, lines, trailers) && body == Wire(chunks, zero, lines)
  }

  /** Every accepted stream is legal, and its trailers are those of its lines. */
  lemma AcceptedLegal(cfg: Config, body: bytes) returns (chunks: seq<WireChunk>, zero: bytes, lines: seq<bytes>)
    requires Push(cfg, Begin(cfg).state, body).Finished?
    ensures Legal(cfg, chunks, zero, lines, Push(cfg, Begin(cfg).state, body).state.trailers)
    ensures body == Wire(chunks, zero, lines)
  {
    var st := Begin(cfg).state.With(body);
    assert st.input == body;
    var rest, p;
    chunks, rest, p := ReleasedChain(cfg, st);
    var next := AfterAll(st, chunks, rest);
    zero := p.zero;
    ZeroStep(cfg, next, zero, p.rest);
    var tail := ZeroRead(next, zero, p.rest);
    var last := Drain(cfg, st).state;
    lines := LinesOf(cfg, tail, last);
    assert next.released == DataOf(chunks);
  }

  /** A stream pushed whole is accepted exactly when it is legal. */
  lemma AcceptsExactlyLegal(cfg: Config, body: bytes)
    ensures Push(cfg, Begin(cfg).state, body).Finished? <==> IsLegal(cfg, body)
  {
    if Push(cfg, Begin(cfg).state, body).Finished? {
      var chunks, zero, lines := AcceptedLegal(cfg, body);
    }
    if IsLegal(cfg, body) {
      var chunks, zero, lines, trailers :|
        Legal(cfg, chunks, zero, lines, trailers) && body == Wire(chunks, zero, lines);
      LegalAccepted(cfg, chunks, zero, lines, trailers);
    }
  }

  lemma PushedChain(cfg: Config, body: bytes) returns (chunks: seq<WireChunk>, rest: bytes)
    ensures LegalChunks(cfg, 0, Start(cfg).previous, chunks) && body == Encode(chunks) + rest
    ensures Released(Push(cfg, Begin(cfg).state, body)) == DataOf(chunks)
  {
    var st := Begin(cfg).state.With(body);
    var p;
    chunks, rest, p := ReleasedChain(cfg, st);
    ChainFromStart(cfg, body, chunks, rest, Released(Drain(cfg, st)));
  }

  lemma ChainFromStart(cfg: Config, body: bytes, chunks: seq<WireChunk>, rest: bytes, released: bytes)
    requires Chain(cfg, Begin(cfg).state.With(body), chunks, rest, released)
    ensures LegalChunks(cfg, 0, Start(cfg).previous, chunks)
    ensures body == Encode(chunks) + rest && released == DataOf(chunks)
  {
    assert [] + body == body && [] + DataOf(chunks) == DataOf(chunks);
  }

  /** However a stream is cut and however feeding it ends, what has been released so far is the data
      of a legal run of chunks that the stream begins with. */
  lemma ReleasedAuthentic(cfg: Config, fragments: seq<bytes>) returns (chunks: seq<WireChunk>)
    ensures LegalChunks(cfg, 0, Start(cfg).previous, chunks)
    ensures Released(Feed(cfg, Begin(cfg), fragments)) == DataOf(chunks)
    ensures Encode(chunks) <= Flatten(fragments)
  {
    EmptyWaits(cfg, Begin(cfg).state);
    var k := FeedPrefix(cfg, Begin(cfg).state, fragments);
    var rest;
    chunks, rest := PushedChain(cfg, Flatten(fragments[..k]));
    assert fragments == fragments[..k] + fragments[k..];
    FlattenAppend(fragments[..k], fragments[k..]);
    PrefixOf(Encode(chunks), rest, Flatten(fragments[k..]));
  }

  lemma PrefixOf(a: bytes, b: bytes, c: bytes)
    ensures a <= a + b + c
  {
    Assoc(a, b, c);
  }

  /** However it is cut, only a legal stream is accepted. */
  lemma FedLegal(cfg: Config, fragments: seq<bytes>)
    requires Feed(cfg, Begin(cfg), fragments).Finished?
    ensures IsLegal(cfg, Flatten(fragments))
    ensures Feed(cfg, Begin(cfg), fragments) == Push(cfg, Begin(cfg).state, Flatten(fragments))
  {
    EmptyWaits(cfg, Begin(cfg).state);
    FeedAgrees(cfg, Begin(cfg).state, fragments);
    AcceptsExactlyLegal(cfg, Flatten(fragments));
  }
}
