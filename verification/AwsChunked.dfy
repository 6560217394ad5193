/** The aws-chunked content encoding of src/protocol/chunked.rs as a function on values: the
    configuration, the state, one iteration of the decoding loop and a whole `push`. */
module AwsChunked {
  import opened Bytes

  const MAX_BUFFERED_CHUNK_BYTES: nat := 1024 * 1024

  datatype SigningContext = SigningContext(signingKey: bytes, amzDate: bytes, credentialScope: bytes, seed: bytes)

  datatype Mode = Signed(context: SigningContext) | UnsignedTrailer(declared: seq<bytes>)

  datatype Limits = Limits(
    maxChunkHeaderBytes: nat, maxChunkBytes: nat, maxDecodedBytes: UInt64,
    maxTrailerBytes: nat, maxTrailers: nat, expectedDecodedLength: Option<UInt64>)

  datatype Algorithm = Crc32 | Crc32c | Sha1 | Sha256 | Crc64Nvme

  /** The cryptographic and checksum functions, of which nothing is assumed. */
  datatype Primitives = Primitives(
    sha256: bytes -> bytes, hmac: (bytes, bytes) -> bytes,
    checksum: (Algorithm, bytes) -> bytes, base64: bytes -> Option<bytes>)

  datatype Config = Config(mode: Mode, limits: Limits, primitives: Primitives)

  datatype Error =
    | InputAfterEnd
    | HeaderTooLarge
    | InvalidChunkHeader
    | ChunkTooLarge
    | MissingChunkSignature
    | UnexpectedChunkSignature
    | ChunkSignatureMismatch
    | MissingChunkTerminator
    | DecodedBodyTooLarge
    | DecodedLengthMismatch(expected: int, actual: int)
    | TrailerTooLarge
    | TooManyTrailers
    | InvalidTrailer
    | DuplicateTrailer(name: bytes)
    | UndeclaredTrailer(name: bytes)
    | MissingTrailer(name: bytes)
    | UnsupportedChecksum(name: bytes)
    | InvalidChecksumEncoding(name: bytes)
    | ChecksumMismatch(name: bytes)
    | UnexpectedTrailer

  datatype Phase = Header | Data | DataCrlf | Trailers | Done

  datatype Chunk = Chunk(size: nat, data: bytes, signature: Option<bytes>)

  datatype Trailer = Trailer(name: bytes, value: bytes)

  /** `input` is the part of the buffer not yet consumed, `released` everything handed to the
      caller, which is also what the five running checksums have absorbed. */
  datatype State = State(
    phase: Phase, input: bytes, current: Option<Chunk>, decodedBytes: nat, released: bytes,
    trailers: seq<Trailer>, trailerBytes: nat, previous: Option<bytes>)
  {
    function With(more: bytes): State {
      this.(input := input + more)
    }
  }

  function Start(cfg: Config): State {
    State(Header, [], None, 0, [], [], 0, if cfg.mode.Signed? then Some(cfg.mode.context.seed) else None)
  }

  // ----- declarations and checksums

  function ChecksumHeader(a: Algorithm): bytes {
    match a
    case Crc32 => Ascii("x-amz-checksum-crc32")
    case Crc32c => Ascii("x-amz-checksum-crc32c")
    case Sha1 => Ascii("x-amz-checksum-sha1")
    case Sha256 => Ascii("x-amz-checksum-sha256")
    case Crc64Nvme => Ascii("x-amz-checksum-crc64nvme")
  }

  function AlgorithmOf(name: bytes): Option<Algorithm> {
    if name == ChecksumHeader(Crc32) then Some(Crc32)
    else if name == ChecksumHeader(Crc32c) then Some(Crc32c)
    else if name == ChecksumHeader(Sha1) then Some(Sha1)
    else if name == ChecksumHeader(Sha256) then Some(Sha256)
    else if name == ChecksumHeader(Crc64Nvme) then Some(Crc64Nvme)
    else None
  }

  /** Length of the base64 text the trailer must have. */
  function EncodedLength(a: Algorithm): nat {
    match a
    case Crc32 => 8
    case Crc32c => 8
    case Sha1 => 28
    case Sha256 => 44
    case Crc64Nvme => 12
  }

  function DeclarationError(declared: seq<bytes>): Option<Error> {
    if declared == [] then Some(MissingTrailer(Ascii("x-amz-trailer"))) else FirstBadDeclaration(declared, 0)
  }

  function FirstBadDeclaration(declared: seq<bytes>, i: nat): Option<Error>
    requires i <= |declared|
    decreases |declared| - i
  {
    if i == |declared| then None
    else if AlgorithmOf(declared[i]).None? then Some(UnsupportedChecksum(declared[i]))
    else if declared[i] in declared[..i] then Some(DuplicateTrailer(declared[i]))
    else FirstBadDeclaration(declared, i + 1)
  }

  // ----- chunk headers

  function DecodeSignature(text: bytes): Option<bytes> {
    if |text| == 64 && AllHex(text) then Some(HexPairs(text)) else None
  }

  function SignatureName(): bytes {
    Ascii("chunk-signature")
  }

  /** The extensions after the size: `chunk-signature` alone, and once. */
  function ParseExtensions(fields: seq<bytes>, signature: Option<bytes>): Option<Option<bytes>> {
    if fields == [] then Some(signature)
    else
      var eq := IndexOf(fields[0], 61);
      if eq < 0 || fields[0][..eq] != SignatureName() || signature.Some? then None
      else
        var decoded := DecodeSignature(fields[0][eq + 1..]);
        if decoded.None? then None else ParseExtensions(fields[1..], decoded)
  }

  function ParseChunkHeader(line: bytes): Option<(nat, Option<bytes>)> {
    var fields := Split(line, 59);
    if fields[0] == [] || |fields[0]| > 16 || !AllHex(fields[0]) then None
    else
      var signature := ParseExtensions(fields[1..], None);
      if signature.None? then None else Some((HexNumber(fields[0]), signature.value))
  }

  // ----- signatures

  function StringToSign(cfg: Config, previous: bytes, data: bytes): bytes
    requires cfg.mode.Signed?
  {
    Ascii("AWS4-HMAC-SHA256-PAYLOAD") + [LF] + cfg.mode.context.amzDate + [LF]
    + cfg.mode.context.credentialScope + [LF] + HexLower(previous) + [LF]
    + Ascii("e3b0c44298fc1c149afbf4c8996fb92427ae41e4649b934ca495991b7852b855") + [LF]
    + HexLower(cfg.primitives.sha256(data))
  }

  /** The signature a chunk must carry after `previous`. */
  function ChunkSignature(cfg: Config, previous: bytes, data: bytes): bytes
    requires cfg.mode.Signed?
  {
    cfg.primitives.hmac(cfg.mode.context.signingKey, StringToSign(cfg, previous, data))
  }

  /** A chunk without a signature needs none; one with a signature must match the chain. */
  predicate SignatureHolds(cfg: Config, previous: Option<bytes>, data: bytes, signature: Option<bytes>) {
    signature.Some? ==>
      cfg.mode.Signed? && previous.Some? && ChunkSignature(cfg, previous.value, data) == signature.value
  }

  function NextSignature(previous: Option<bytes>, signature: Option<bytes>): Option<bytes> {
    if signature.Some? then signature else previous
  }

  // ----- trailers

  predicate TrailerNameByte(b: byte) { IsLower(b) || IsDigit(b) || b == 45 }

  predicate IsGraphic(b: byte) { 33 <= b <= 126 }

  function TrailerValue(raw: bytes): bytes {
    var value := TrimRight(TrimLeft(raw));
    if value != [] && value[|value| - 1] == LF then value[..|value| - 1] else value
  }

  predicate AllNameBytes(s: bytes) {
    s == [] || (TrailerNameByte(s[0]) && AllNameBytes(s[1..]))
  }

  predicate AllGraphic(s: bytes) {
    s == [] || (IsGraphic(s[0]) && AllGraphic(s[1..]))
  }

  predicate HasTrailer(trailers: seq<Trailer>, name: bytes) {
    trailers != [] && (trailers[0].name == name || HasTrailer(trailers[1..], name))
  }

  datatype TrailerResult = Added(trailers: seq<Trailer>) | Refused(error: Error)

  function AcceptTrailer(cfg: Config, trailers: seq<Trailer>, line: bytes): TrailerResult {
    if cfg.mode.Signed? then Refused(UnexpectedTrailer)
    else if |trailers| >= cfg.limits.maxTrailers then Refused(TooManyTrailers)
    else if line != [] && IsOws(line[0]) then Refused(InvalidTrailer)
    else
      var colon := IndexOf(line, 58);
      if colon < 0 then Refused(InvalidTrailer)
      else
        var name, value := line[..colon], TrailerValue(line[colon + 1..]);
        if name == [] || !AllNameBytes(name) then Refused(InvalidTrailer)
        else if value == [] || !AllGraphic(value) then Refused(InvalidTrailer)
        else if HasTrailer(trailers, name) then Refused(DuplicateTrailer(name))
        else if name !in cfg.mode.declared then Refused(UndeclaredTrailer(name))
        else Added(trailers + [Trailer(name, value)])
  }

  function FindTrailer(trailers: seq<Trailer>, name: bytes): Option<bytes> {
    if trailers == [] then None
    else if trailers[0].name == name then Some(trailers[0].value)
    else FindTrailer(trailers[1..], name)
  }

  /** The check of one declared trailer against the released bytes. */
  function ChecksumError(cfg: Config, released: bytes, trailers: seq<Trailer>, name: bytes): Option<Error> {
    var text := FindTrailer(trailers, name);
    var algorithm := AlgorithmOf(name);
    if text.None? then Some(MissingTrailer(name))
    else if algorithm.None? then Some(UnsupportedChecksum(name))
    else if |text.value| != EncodedLength(algorithm.value) then Some(InvalidChecksumEncoding(name))
    else
      var supplied, expected := cfg.primitives.base64(text.value), cfg.primitives.checksum(algorithm.value, released);
      if supplied.None? || |supplied.value| != |expected| then Some(InvalidChecksumEncoding(name))
      else if supplied.value != expected then Some(ChecksumMismatch(name))
      else None
  }

  function ChecksumsError(cfg: Config, released: bytes, trailers: seq<Trailer>, declared: seq<bytes>): Option<Error> {
    if declared == [] then None
    else
      var error := ChecksumError(cfg, released, trailers, declared[0]);
      if error.Some? then error else ChecksumsError(cfg, released, trailers, declared[1..])
  }

  /** A declared trailer arrived, has the right length and decodes to the checksum of the bytes. */
  predicate ChecksumHolds(cfg: Config, released: bytes, trailers: seq<Trailer>, name: bytes) {
    var text, algorithm := FindTrailer(trailers, name), AlgorithmOf(name);
    && text.Some? && algorithm.Some?
    && |text.value| == EncodedLength(algorithm.value)
    && cfg.primitives.base64(text.value) == Some(cfg.primitives.checksum(algorithm.value, released))
  }

  /** No checksum error is found exactly when every declared checksum holds. */
  lemma {:induction false} ChecksumsExact(cfg: Config, released: bytes, trailers: seq<Trailer>, declared: seq<bytes>)
    ensures ChecksumsError(cfg, released, trailers, declared).None?
            <==> forall i :: 0 <= i < |declared| ==> ChecksumHolds(cfg, released, trailers, declared[i])
  {
    if declared != [] {
      ChecksumsExact(cfg, released, trailers, declared[1..]);
      assert ChecksumError(cfg, released, trailers, declared[0]).None?
             <==> ChecksumHolds(cfg, released, trailers, declared[0]);
      assert forall i :: 0 <= i < |declared[1..]| ==> declared[1..][i] == declared[i + 1];
      assert forall i :: 0 < i < |declared| ==> declared[i] == declared[1..][i - 1];
    }
  }

  function FinishError(cfg: Config, st: State): Option<Error> {
    var expected := cfg.limits.expectedDecodedLength;
    if expected.Some? && st.decodedBytes != expected.value then
      Some(DecodedLengthMismatch(expected.value, st.decodedBytes))
    else match cfg.mode
      case Signed(_) => if st.trailers == [] then None else Some(UnexpectedTrailer)
      case UnsignedTrailer(declared) => ChecksumsError(cfg, st.released, st.trailers, declared)
  }

  // ----- one iteration

  datatype Line = NoLine | TooLong | Taken(text: bytes, rest: bytes)

  function TakeLine(input: bytes, limit: nat): Line {
    var p := IndexOfCrlf(input);
    if p < 0 then (if |input| > limit then TooLong else NoLine)
    else if p > limit then TooLong
    else Taken(input[..p], input[p + 2..])
  }

  lemma LineTaken(line: bytes, rest: bytes, limit: nat)
    requires CleanLine(line) && |line| <= limit
    ensures TakeLine(line + CRLF + rest, limit) == Taken(line, rest)
  {
    FirstCrlf(line, rest);
    var s := line + CRLF + rest;
    assert s[..|line|] == line && s[|line| + 2..] == rest;
  }

  /** The line taken is clean and is what the input begins with. */
  lemma TakenLine(input: bytes, limit: nat)
    requires TakeLine(input, limit).Taken?
    ensures var t := TakeLine(input, limit);
            CleanLine(t.text) && |t.text| <= limit && input == t.text + CRLF + t.rest
  {
    var p := IndexOfCrlf(input);
    var text := input[..p];
    assert forall i :: CrlfAt(text, i) ==> CrlfAt(input, i);
    assert input == text + CRLF + input[p + 2..];
  }

  predicate OverBudget(cfg: Config, total: nat) {
    || total > U64_MAX
    || total > cfg.limits.maxDecodedBytes
    || (cfg.limits.expectedDecodedLength.Some? && total > cfg.limits.expectedDecodedLength.value)
  }

  /** `Wait` leaves the state alone until more bytes arrive. */
  datatype Step = Next(state: State) | Wait | End(state: State) | Fail(error: Error)

  function HeaderError(cfg: Config, decodedBytes: nat, size: nat, signature: Option<bytes>): Option<Error> {
    if size > Min(cfg.limits.maxChunkBytes, MAX_BUFFERED_CHUNK_BYTES) then Some(ChunkTooLarge)
    else if OverBudget(cfg, decodedBytes + size) then Some(DecodedBodyTooLarge)
    else if cfg.mode.Signed? && signature.None? then Some(MissingChunkSignature)
    else if cfg.mode.UnsignedTrailer? && signature.Some? then Some(UnexpectedChunkSignature)
    else None
  }

  function AcceptHeader(cfg: Config, st: State, line: bytes): Step {
    var parsed := ParseChunkHeader(line);
    if parsed.None? then Fail(InvalidChunkHeader)
    else
      var (size, signature) := parsed.value;
      var error := HeaderError(cfg, st.decodedBytes, size, signature);
      if error.Some? then Fail(error.value)
      else if size == 0 then
        if !SignatureHolds(cfg, st.previous, [], signature) then Fail(ChunkSignatureMismatch)
        else Next(st.(phase := Trailers, previous := NextSignature(st.previous, signature)))
      else Next(st.(phase := Data, current := Some(Chunk(size, [], signature))))
  }

  function StepHeader(cfg: Config, st: State): Step {
    match TakeLine(st.input, cfg.limits.maxChunkHeaderBytes)
    case NoLine => Wait
    case TooLong => Fail(HeaderTooLarge)
    case Taken(line, rest) => AcceptHeader(cfg, st.(input := rest), line)
  }

  function StepData(st: State): Step
    requires st.current.Some? && |st.current.value.data| <= st.current.value.size
  {
    if st.input == [] then Wait
    else
      var chunk := st.current.value;
      var count := Min(chunk.size - |chunk.data|, |st.input|);
      var filled := chunk.(data := chunk.data + st.input[..count]);
      Next(st.(input := st.input[count..], current := Some(filled),
               phase := if |filled.data| == filled.size then DataCrlf else Data))
  }

  function AcceptDecoded(cfg: Config, st: State, data: bytes): Step {
    if OverBudget(cfg, st.decodedBytes + |data|) then Fail(DecodedBodyTooLarge)
    else Next(st.(phase := Header, decodedBytes := st.decodedBytes + |data|, released := st.released + data))
  }

  function StepDataCrlf(cfg: Config, st: State): Step
    requires st.current.Some?
  {
    if |st.input| < 2 then Wait
    else if st.input[..2] != CRLF then Fail(MissingChunkTerminator)
    else
      var chunk := st.current.value;
      if !SignatureHolds(cfg, st.previous, chunk.data, chunk.signature) then Fail(ChunkSignatureMismatch)
      else
        AcceptDecoded(
          cfg,
          st.(input := st.input[2..], current := None, previous := NextSignature(st.previous, chunk.signature)),
          chunk.data)
  }

  function AcceptTrailerLine(cfg: Config, st: State, line: bytes): Step {
    var total := st.trailerBytes + |line| + 2;
    if total > cfg.limits.maxTrailerBytes then Fail(TrailerTooLarge)
    else if line == [] then
      var error := FinishError(cfg, st);
      if error.Some? then Fail(error.value)
      else if st.input != [] then Fail(InputAfterEnd)
      else End(st.(phase := Done, trailerBytes := total))
    else match AcceptTrailer(cfg, st.trailers, line)
      case Refused(error) => Fail(error)
      case Added(trailers) => Next(st.(trailerBytes := total, trailers := trailers))
  }

  function StepTrailers(cfg: Config, st: State): Step {
    match TakeLine(st.input, cfg.limits.maxTrailerBytes)
    case NoLine => Wait
    case TooLong => Fail(TrailerTooLarge)
    case Taken(line, rest) => AcceptTrailerLine(cfg, st.(input := rest), line)
  }

  /** What every state between pushes satisfies: the chunk being read fits the phase and the
      decoded budget has been reserved for all of it. */
  predicate Valid(cfg: Config, st: State) {
    && st.decodedBytes == |st.released|
    && !OverBudget(cfg, st.decodedBytes)
    && (cfg.mode.Signed? ==> st.previous.Some? && st.trailers == [])
    && (st.current.Some? <==> st.phase.Data? || st.phase.DataCrlf?)
    && (st.current.Some? ==>
          var chunk := st.current.value;
          && 0 < chunk.size <= MAX_BUFFERED_CHUNK_BYTES
          && (if st.phase.Data? then |chunk.data| < chunk.size else |chunk.data| == chunk.size)
          && !OverBudget(cfg, st.decodedBytes + chunk.size)
          && (chunk.signature.Some? <==> cfg.mode.Signed?))
  }

  function Iterate(cfg: Config, st: State): Step
    requires Valid(cfg, st) && !st.phase.Done?
  {
    match st.phase
    case Header => StepHeader(cfg, st)
    case Data => StepData(st)
    case DataCrlf => StepDataCrlf(cfg, st)
    case Trailers => StepTrailers(cfg, st)
  }

  lemma HeaderValid(cfg: Config, st: State)
    requires Valid(cfg, st) && st.phase.Header?
    ensures var step := StepHeader(cfg, st);
            step.Next? ==> Valid(cfg, step.state) && !step.state.phase.Done? && |step.state.input| < |st.input|
  {
    var taken := TakeLine(st.input, cfg.limits.maxChunkHeaderBytes);
    if taken.Taken? {
      AcceptHeaderValid(cfg, st.(input := taken.rest), taken.text);
    }
  }

  lemma AcceptHeaderValid(cfg: Config, st: State, line: bytes)
    requires Valid(cfg, st) && st.phase.Header?
    ensures var step := AcceptHeader(cfg, st, line);
            step.Next? ==> Valid(cfg, step.state) && !step.state.phase.Done? && step.state.input == st.input
  {
  }

  /** The budget reserved by the header makes the second check of it superfluous. */
  lemma DataCrlfValid(cfg: Config, st: State)
    requires Valid(cfg, st) && st.phase.DataCrlf?
    ensures var step := StepDataCrlf(cfg, st);
            && (step.Next? ==> Valid(cfg, step.state) && step.state.phase.Header? && |step.state.input| < |st.input|)
            && step != Fail(DecodedBodyTooLarge)
  {
  }

  lemma TrailersValid(cfg: Config, st: State)
    requires Valid(cfg, st) && st.phase.Trailers?
    ensures var step := StepTrailers(cfg, st);
            && (step.Next? ==> Valid(cfg, step.state) && step.state.phase.Trailers? && |step.state.input| < |st.input|)
            && (step.End? ==> Valid(cfg, step.state) && step.state.phase.Done? && step.state.input == [])
  {
  }

  lemma IterateValid(cfg: Config, st: State)
    requires Valid(cfg, st) && !st.phase.Done?
    ensures var step := Iterate(cfg, st);
            && (step.Next? ==> Valid(cfg, step.state) && !step.state.phase.Done? && |step.state.input| < |st.input|)
            && (step.End? ==> Valid(cfg, step.state) && step.state.phase.Done? && step.state.input == [])
  {
    match st.phase {
      case Header => HeaderValid(cfg, st);
      case Data =>
      case DataCrlf => DataCrlfValid(cfg, st);
      case Trailers => TrailersValid(cfg, st);
    }
  }

  // ----- a whole push

  datatype Outcome = NeedMore(state: State) | Finished(state: State) | Failed(error: Error, released: bytes)

  function Drain(cfg: Config, st: State): (o: Outcome)
    requires Valid(cfg, st) && !st.phase.Done?
    ensures o.NeedMore? ==> Valid(cfg, o.state) && !o.state.phase.Done?
    ensures o.Finished? ==> Valid(cfg, o.state) && o.state.phase.Done? && o.state.input == []
    decreases |st.input|
  {
    IterateValid(cfg, st);
    match Iterate(cfg, st)
    case Next(next) => Drain(cfg, next)
    case Wait => NeedMore(st)
    case End(last) => Finished(last)
    case Fail(error) => Failed(error, st.released)
  }

  /** `Drain`, named so that specifications mention it without unfolding it. */
  function Drained(cfg: Config, st: State): Outcome
    requires Valid(cfg, st) && !st.phase.Done?
  {
    Drain(cfg, st)
  }

  /** `push` from a state that has not failed. */
  function Push(cfg: Config, st: State, more: bytes): (o: Outcome)
    requires Valid(cfg, st)
    ensures !o.Failed? ==> Valid(cfg, o.state) && (o.Finished? <==> o.state.phase.Done?)
  {
    if st.phase.Done? then
      if more == [] then Finished(st) else Failed(InputAfterEnd, st.released)
    else Drain(cfg, st.With(more))
  }

  lemma StartValid(cfg: Config)
    ensures Valid(cfg, Start(cfg)) && !Start(cfg).phase.Done?
  {
  }
}
