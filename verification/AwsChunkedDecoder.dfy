/** The decoder object of src/protocol/chunked.rs, whose buffer, offset and counters are updated in
    place, proved against the decoder on values. */
module AwsChunkedDecoder {
  import opened Bytes
  import opened AwsChunked

  datatype Status = NeedMoreInput | AllDone

  datatype Verdict = Success(status: Status) | Failure(error: Error)

  /** What one turn of the loop in `push` does. */
  datatype Turn = Continue | Return(verdict: Verdict)

  /** The verdict and the state that go with an outcome. */
  predicate Reports(o: Outcome, v: Verdict, st: State) {
    match o
    case NeedMore(s) => v == Success(NeedMoreInput) && st == s
    case Finished(s) => v == Success(AllDone) && st == s
    case Failed(e, released) => v == Failure(e) && st.released == released
  }

  predicate TurnsAs(step: Step, before: State, t: Turn, after: State) {
    match step
    case Next(s) => t == Continue && after == s
    case Wait => t == Return(Success(NeedMoreInput)) && after == before
    case End(s) => t == Return(Success(AllDone)) && after == s
    case Fail(e) => t == Return(Failure(e)) && after.released == before.released
  }

  /** A turn that continues leaves the outcome ahead, and one that returns reports it. */
  ghost predicate Advances(cfg: Config, before: State, t: Turn, after: State)
    requires Valid(cfg, before) && !before.phase.Done?
  {
    if t.Continue? then
      && Valid(cfg, after) && !after.phase.Done? && |after.input| < |before.input|
      && Drained(cfg, after) == Drained(cfg, before)
    else
      && Reports(Drained(cfg, before), t.verdict, after)
      && (t.verdict.Success? ==> Valid(cfg, after))
  }

  lemma TurnAdvances(cfg: Config, before: State, t: Turn, after: State)
    requires Valid(cfg, before) && !before.phase.Done?
    requires TurnsAs(Iterate(cfg, before), before, t, after)
    ensures Advances(cfg, before, t, after)
  {
    IterateValid(cfg, before);
  }

  method ValidateDeclarations(declared: seq<bytes>) returns (error: Option<Error>)
    ensures error == DeclarationError(declared)
    ensures error.None? <==>
              && declared != []
              && (forall i :: 0 <= i < |declared| ==> AlgorithmOf(declared[i]).Some?)
              && (forall i, j :: 0 <= i < j < |declared| ==> declared[i] != declared[j])
  {
    if declared == [] {
      return Some(MissingTrailer(Ascii("x-amz-trailer")));
    }
    for index := 0 to |declared|
      invariant FirstBadDeclaration(declared, 0) == FirstBadDeclaration(declared, index)
      invariant forall i :: 0 <= i < index ==> AlgorithmOf(declared[i]).Some?
      invariant forall i, j :: 0 <= i < j < index ==> declared[i] != declared[j]
    {
      if AlgorithmOf(declared[index]).None? {
        return Some(UnsupportedChecksum(declared[index]));
      }
      if declared[index] in declared[..index] {
        return Some(DuplicateTrailer(declared[index]));
      }
      assert forall i :: 0 <= i < index ==> declared[..index][i] == declared[i];
    }
    return None;
  }

  method TrimOws(value: bytes) returns (trimmed: bytes)
    ensures trimmed == TrimRight(TrimLeft(value))
    ensures trimmed != [] ==> !IsOws(trimmed[0]) && !IsOws(trimmed[|trimmed| - 1])
  {
    trimmed := value;
    while trimmed != [] && IsOws(trimmed[0])
      invariant TrimLeft(trimmed) == TrimLeft(value)
      decreases |trimmed|
    {
      trimmed := trimmed[1..];
    }
    ghost var left := trimmed;
    while trimmed != [] && IsOws(trimmed[|trimmed| - 1])
      invariant TrimRight(trimmed) == TrimRight(left) && trimmed <= left
      decreases |trimmed|
    {
      trimmed := trimmed[..|trimmed| - 1];
    }
  }

  method ParseHeader(line: bytes) returns (header: Option<(nat, Option<bytes>)>)
    ensures header == ParseChunkHeader(line)
  {
    var fields := Split(line, 59);
    var size := fields[0];
    if size == [] || |size| > 16 || !AllHex(size) {
      return None;
    }
    var signature: Option<bytes> := None;
    var extensions := fields[1..];
    for i := 0 to |extensions|
      invariant ParseExtensions(extensions, None) == ParseExtensions(extensions[i..], signature)
    {
      var extension := extensions[i];
      assert extensions[i..][1..] == extensions[i + 1..];
      var eq := IndexOf(extension, 61);
      if eq < 0 || extension[..eq] != SignatureName() || signature.Some? {
        return None;
      }
      var decoded := DecodeSignature(extension[eq + 1..]);
      if decoded.None? {
        return None;
      }
      signature := decoded;
    }
    return Some((HexNumber(size), signature));
  }

  class Decoder {
    const cfg: Config
    var phase: Phase
    var input: bytes
    var offset: nat
    var current: Option<Chunk>
    var decodedBytes: nat
    /** Everything the running checksums have absorbed. */
    var hashed: bytes
    var trailers: seq<Trailer>
    var trailerBytes: nat
    var previous: Option<bytes>

    ghost predicate WellFormed()
      reads this
    {
      offset <= |input|
    }

    ghost function Value(): State
      requires WellFormed()
      reads this
    {
      State(phase, input[offset..], current, decodedBytes, hashed, trailers, trailerBytes, previous)
    }

    ghost predicate Inv()
      reads this
    {
      WellFormed() && Valid(cfg, Value())
    }

    constructor (cfg: Config)
      ensures this.cfg == cfg && WellFormed() && Value() == Start(cfg) && Inv()
    {
      this.cfg := cfg;
      phase, input, offset, current, decodedBytes, hashed := Header, [], 0, None, 0, [];
      trailers, trailerBytes := [], 0;
      previous := if cfg.mode.Signed? then Some(cfg.mode.context.seed) else None;
      new;
      StartValid(cfg);
    }

    /** Dropping the consumed front of the buffer is not observable. */
    method Compact()
      requires WellFormed()
      modifies `input, `offset
      ensures WellFormed() && Value() == old(Value())
      ensures offset == 0 || offset <= 64 * 1024 || offset <= |input| / 2
    {
      if offset == |input| {
        input, offset := [], 0;
      } else if offset > 64 * 1024 && offset > |input| / 2 {
        input, offset := input[offset..], 0;
      }
    }

    method TakeInput(limit: nat) returns (line: Line)
      requires WellFormed()
      modifies `offset
      ensures WellFormed() && line == TakeLine(old(input[offset..]), limit)
      ensures Value() == if line.Taken? then old(Value()).(input := line.rest) else old(Value())
    {
      var available := input[offset..];
      var position := IndexOfCrlf(available);
      if position < 0 {
        return if |available| > limit then TooLong else NoLine;
      }
      if position > limit {
        return TooLong;
      }
      line := Taken(available[..position], available[position + 2..]);
      assert input[offset + (position + 2)..] == available[position + 2..];
      offset := offset + (position + 2);
    }

    method VerifySignature(data: bytes, signature: bytes) returns (error: Option<Error>)
      requires cfg.mode.Signed? && previous.Some?
      ensures error ==
              if SignatureHolds(cfg, previous, data, Some(signature)) then None else Some(ChunkSignatureMismatch)
    {
      var expected := ChunkSignature(cfg, previous.value, data);
      return if expected == signature then None else Some(ChunkSignatureMismatch);
    }

    method OpenChunk(line: bytes) returns (t: Turn)
      requires Inv() && phase.Header?
      modifies this
      ensures WellFormed() && TurnsAs(AcceptHeader(cfg, old(Value()), line), old(Value()), t, Value())
    {
      var header := ParseHeader(line);
      if header.None? {
        return Return(Failure(InvalidChunkHeader));
      }
      var (size, signature) := header.value;
      var error := CheckHeader(size, signature);
      if error.Some? {
        return Return(Failure(error.value));
      }
      if size == 0 {
        t := OpenLast(signature);
      } else {
        current := Some(Chunk(size, [], signature));
        phase := Data;
        t := Continue;
      }
    }

    /** The limits on a chunk and the presence of its signature, in this order. */
    method CheckHeader(size: nat, signature: Option<bytes>) returns (error: Option<Error>)
      ensures error == HeaderError(cfg, decodedBytes, size, signature)
    {
      if size > Min(cfg.limits.maxChunkBytes, MAX_BUFFERED_CHUNK_BYTES) {
        return Some(ChunkTooLarge);
      }
      if OverBudget(cfg, decodedBytes + size) {
        return Some(DecodedBodyTooLarge);
      }
      if cfg.mode.Signed? && signature.None? {
        return Some(MissingChunkSignature);
      }
      if cfg.mode.UnsignedTrailer? && signature.Some? {
        return Some(UnexpectedChunkSignature);
      }
      return None;
    }

    /** The last chunk is signed over no data; trailers follow it. */
    method OpenLast(signature: Option<bytes>) returns (t: Turn)
      requires Inv() && phase.Header? && (signature.Some? <==> cfg.mode.Signed?)
      modifies `previous, `phase
      ensures if SignatureHolds(cfg, old(previous), [], signature)
              then t == Continue && phase == Trailers && previous == NextSignature(old(previous), signature)
              else t == Return(Failure(ChunkSignatureMismatch))
    {
      if signature.Some? {
        var error := VerifySignature([], signature.value);
        if error.Some? {
          return Return(Failure(error.value));
        }
        previous := signature;
      }
      phase := Trailers;
      t := Continue;
    }

    method ReadHeader() returns (t: Turn)
      requires Inv() && phase.Header?
      modifies this
      ensures WellFormed() && TurnsAs(Iterate(cfg, old(Value())), old(Value()), t, Value())
    {
      var line := TakeInput(cfg.limits.maxChunkHeaderBytes);
      match line {
        case NoLine => t := Return(Success(NeedMoreInput));
        case TooLong => t := Return(Failure(HeaderTooLarge));
        case Taken(text, _) => t := OpenChunk(text);
      }
    }

    method ReadData() returns (t: Turn)
      requires Inv() && phase.Data?
      modifies this
      ensures WellFormed() && TurnsAs(Iterate(cfg, old(Value())), old(Value()), t, Value())
    {
      var chunk := current.value;
      var remaining := chunk.size - |chunk.data|;
      var available := |input| - offset;
      if available == 0 {
        return Return(Success(NeedMoreInput));
      }
      var count := Min(remaining, available);
      chunk := chunk.(data := chunk.data + input[offset..offset + count]);
      current := Some(chunk);
      assert input[offset..][..count] == input[offset..offset + count];
      assert input[offset..][count..] == input[offset + count..];
      offset := offset + count;
      if |chunk.data| == chunk.size {
        phase := DataCrlf;
      }
      t := Continue;
    }

    /** Everything the hashers absorb is also handed out. */
    method AcceptData(data: bytes) returns (t: Turn, output: bytes)
      requires WellFormed()
      modifies `phase, `decodedBytes, `hashed
      ensures hashed == old(hashed) + output
      ensures TurnsAs(AcceptDecoded(cfg, old(Value()), data), old(Value()), t, Value())
    {
      decodedBytes := decodedBytes + |data|;
      if OverBudget(cfg, decodedBytes) {
        return Return(Failure(DecodedBodyTooLarge)), [];
      }
      hashed := hashed + data;
      phase := Header;
      return Continue, data;
    }

    /** A chunk whose signature holds is released and extends the signature chain. */
    method ReleaseChunk() returns (t: Turn, output: bytes)
      requires WellFormed() && current.Some?
      requires current.value.signature.Some? ==> cfg.mode.Signed? && previous.Some?
      modifies `current, `previous, `phase, `decodedBytes, `hashed
      ensures hashed == old(hashed) + output
      ensures var st := old(Value());
              var chunk := st.current.value;
              TurnsAs(
                if !SignatureHolds(cfg, st.previous, chunk.data, chunk.signature) then Fail(ChunkSignatureMismatch)
                else
                  AcceptDecoded(
                    cfg, st.(current := None, previous := NextSignature(st.previous, chunk.signature)), chunk.data),
                st, t, Value())
    {
      output := [];
      var chunk := current.value;
      if chunk.signature.Some? {
        var error := VerifySignature(chunk.data, chunk.signature.value);
        if error.Some? {
          return Return(Failure(error.value)), [];
        }
      }
      current := None;
      previous := NextSignature(previous, chunk.signature);
      t, output := AcceptData(chunk.data);
    }

    method ReadTerminator() returns (t: Turn, output: bytes)
      requires Inv() && phase.DataCrlf?
      modifies this
      ensures WellFormed() && TurnsAs(Iterate(cfg, old(Value())), old(Value()), t, Value())
      ensures hashed == old(hashed) + output
    {
      output := [];
      if |input| - offset < 2 {
        return Return(Success(NeedMoreInput)), [];
      }
      assert input[offset..][..2] == input[offset..offset + 2];
      assert input[offset..][2..] == input[offset + 2..];
      if input[offset..offset + 2] != CRLF {
        return Return(Failure(MissingChunkTerminator)), [];
      }
      offset := offset + 2;
      t, output := ReleaseChunk();
    }

    method StoreTrailer(line: bytes) returns (error: Option<Error>)
      requires WellFormed()
      modifies `trailers
      ensures match AcceptTrailer(cfg, old(trailers), line)
              case Refused(e) => error == Some(e) && trailers == old(trailers)
              case Added(more) => error == None && trailers == more
    {
      if cfg.mode.Signed? {
        return Some(UnexpectedTrailer);
      }
      if |trailers| >= cfg.limits.maxTrailers {
        return Some(TooManyTrailers);
      }
      if line != [] && IsOws(line[0]) {
        return Some(InvalidTrailer);
      }
      var colon := IndexOf(line, 58);
      if colon < 0 {
        return Some(InvalidTrailer);
      }
      var name := line[..colon];
      if name == [] || !AllNameBytes(name) {
        return Some(InvalidTrailer);
      }
      var value := TrimOws(line[colon + 1..]);
      if value != [] && value[|value| - 1] == LF {
        value := value[..|value| - 1];
      }
      if value == [] || !AllGraphic(value) {
        return Some(InvalidTrailer);
      }
      if HasTrailer(trailers, name) {
        return Some(DuplicateTrailer(name));
      }
      if name !in cfg.mode.declared {
        return Some(UndeclaredTrailer(name));
      }
      trailers := trailers + [Trailer(name, value)];
      return None;
    }

    method CheckTrailers() returns (error: Option<Error>)
      requires WellFormed()
      ensures error == FinishError(cfg, Value())
    {
      var expected := cfg.limits.expectedDecodedLength;
      if expected.Some? && decodedBytes != expected.value {
        return Some(DecodedLengthMismatch(expected.value, decodedBytes));
      }
      match cfg.mode {
        case Signed(_) =>
          return if trailers == [] then None else Some(UnexpectedTrailer);
        case UnsignedTrailer(declared) =>
          for i := 0 to |declared|
            invariant ChecksumsError(cfg, hashed, trailers, declared)
                      == ChecksumsError(cfg, hashed, trailers, declared[i..])
          {
            assert declared[i..][1..] == declared[i + 1..];
            var failed := ChecksumError(cfg, hashed, trailers, declared[i]);
            if failed.Some? {
              return failed;
            }
          }
          return None;
      }
    }

    method AcceptLine(line: bytes) returns (t: Turn)
      requires Inv() && phase.Trailers?
      modifies this
      ensures WellFormed() && TurnsAs(AcceptTrailerLine(cfg, old(Value()), line), old(Value()), t, Value())
      ensures hashed == old(hashed)
    {
      trailerBytes := trailerBytes + |line| + 2;
      if trailerBytes > cfg.limits.maxTrailerBytes {
        return Return(Failure(TrailerTooLarge));
      }
      if line == [] {
        var error := CheckTrailers();
        if error.Some? {
          return Return(Failure(error.value));
        }
        phase := Done;
        if |input| != offset {
          return Return(Failure(InputAfterEnd));
        }
        return Return(Success(AllDone));
      }
      var error := StoreTrailer(line);
      if error.Some? {
        return Return(Failure(error.value));
      }
      t := Continue;
    }

    method ReadTrailers() returns (t: Turn)
      requires Inv() && phase.Trailers?
      modifies this
      ensures WellFormed() && TurnsAs(Iterate(cfg, old(Value())), old(Value()), t, Value())
      ensures hashed == old(hashed)
    {
      var line := TakeInput(cfg.limits.maxTrailerBytes);
      match line {
        case NoLine => t := Return(Success(NeedMoreInput));
        case TooLong => t := Return(Failure(TrailerTooLarge));
        case Taken(text, _) => t := AcceptLine(text);
      }
    }

    /** The outcome to be reached from here. */
    ghost predicate Aims(goal: Outcome)
      reads this
    {
      Inv() && !phase.Done? && Drained(cfg, Value()) == goal
    }

    method Iteration(ghost goal: Outcome) returns (t: Turn, output: bytes)
      requires Aims(goal)
      modifies this
      ensures WellFormed() && hashed == old(hashed) + output
      ensures if t.Continue? then Aims(goal) && |Value().input| < |old(Value()).input|
              else Reports(goal, t.verdict, Value()) && (t.verdict.Success? ==> Inv())
    {
      output := [];
      match phase {
        case Header => t := ReadHeader();
        case Data => t := ReadData();
        case DataCrlf => t, output := ReadTerminator();
        case Trailers => t := ReadTrailers();
      }
      TurnAdvances(cfg, old(Value()), t, Value());
    }

    method Run() returns (verdict: Verdict, output: bytes)
      requires Inv() && !phase.Done?
      modifies this
      ensures WellFormed() && Reports(Drained(cfg, old(Value())), verdict, Value())
      ensures hashed == old(hashed) + output
      ensures verdict.Success? ==> Inv()
    {
      output := [];
      ghost var goal, base := Drained(cfg, Value()), hashed;
      while true
        invariant Aims(goal)
        invariant hashed == base + output
        decreases |Value().input|
      {
        var t, released := Iteration(goal);
        Assoc(base, output, released);
        output := output + released;
        if t.Return? {
          return t.verdict, output;
        }
      }
    }

    /** Decodes as much as `more` allows; `output` is what the caller's buffer receives. */
    method Push(more: bytes) returns (verdict: Verdict, output: bytes)
      requires Inv()
      modifies this
      ensures WellFormed() && Reports(AwsChunked.Push(cfg, old(Value()), more), verdict, Value())
      ensures hashed == old(hashed) + output
      ensures verdict.Success? ==> Inv()
    {
      if phase == Done {
        return if more == [] then Success(AllDone) else Failure(InputAfterEnd), [];
      }
      Compact();
      input := input + more;
      assert input[offset..] == old(input[offset..]) + more;
      assert Value() == old(Value()).With(more);
      verdict, output := Run();
    }

    /** End of input: only a finished stream is complete. */
    method Finish() returns (error: Option<Error>)
      ensures error.None? <==> phase.Done?
      ensures phase.DataCrlf? ==> error == Some(MissingChunkTerminator)
      ensures phase.Trailers? ==> error == Some(InvalidTrailer)
      ensures phase.Header? || phase.Data? ==> error == Some(InvalidChunkHeader)
    {
      match phase {
        case Done => error := None;
        case DataCrlf => error := Some(MissingChunkTerminator);
        case Trailers => error := Some(InvalidTrailer);
        case Header => error := Some(InvalidChunkHeader);
        case Data => error := Some(InvalidChunkHeader);
      }
    }
  }

  /** A decoder exists only for declarations that can be checked. */
  method Create(cfg: Config) returns (error: Option<Error>, decoder: Decoder?)
    ensures error == if cfg.mode.UnsignedTrailer? then DeclarationError(cfg.mode.declared) else None
    ensures decoder == null <==> error.Some?
    ensures decoder != null ==> fresh(decoder) && decoder.cfg == cfg && decoder.Inv() && decoder.Value() == Start(cfg)
  {
    error := None;
    if cfg.mode.UnsignedTrailer? {
      error := ValidateDeclarations(cfg.mode.declared);
      if error.Some? {
        return error, null;
      }
    }
    decoder := new Decoder(cfg);
  }
}
