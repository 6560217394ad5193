/** The service object of src/s3/service.rs that drives upload sessions against a database whose every
    call may fail. */
module UploadService {
  import opened Bytes
  import opened ChunkFraming
  import opened UploadTrace
  import opened AwsChunked
  import opened AwsChunkedCuts
  import opened AwsChunkedWire
  import opened UploadSession
  import RequestHead

  class Session {
    const hashes: Hashes
    const payload: Payload
    /** Algorithms whose digest of the body is computed. */
    const tracked: set<Algorithm>
    const encoding: Option<Config>
    const expectedWire: Option<nat>
    const maxDecoded: nat
    /** The digests the request declared, and where its body was to go. */
    const requested: Declared
    const origin: Sink
    var decoder: Option<State>
    var sink: Sink
    /** Everything the digests have absorbed. */
    var absorbed: bytes
    var declared: Declared
    var wireBytes: nat
    var decodedBytes: nat
    var active: bool
    /** The database calls made for this session. */
    var calls: seq<Entry>
    /** Every body fragment pushed so far. */
    ghost var fragments: seq<bytes>
    /** What the service last replied to the caller. */
    ghost var reply: Option<Failure>

    ghost predicate Held()
      reads `wireBytes
    {
      encoding.None? && expectedWire == Some(wireBytes)
    }

    ghost predicate InBounds()
      reads this
    {
      && wireBytes == |Flatten(fragments)|
      && (expectedWire.Some? ==> wireBytes <= expectedWire.value)
      && decodedBytes == |absorbed| <= maxDecoded
    }

    /** What holds between calls while the session is active. */
    ghost predicate Live()
      reads this
    {
      && active
      && InBounds()
      && declared == requested && SameTarget(origin, sink)
      && WireInv(encoding, decoder, fragments, absorbed)
      && SinkInv(Sha(), sink, absorbed, calls, Held())
    }

    function Sha(): bytes -> bytes {
      hashes.Sha256Of
    }

    constructor (hashes: Hashes, payload: Payload, tracked: set<Algorithm>, encoding: Option<Config>,
                 expectedWire: Option<nat>, maxDecoded: nat, declared: Declared, sink: Sink)
      requires match sink
               case DirectPut(_, _, body) => body == []
               case Buffered(body) => body == []
               case Staged(_, sequence, chunkBytes, buffer, ids, sizes) =>
                 sequence == 0 && chunkBytes > 0 && buffer == [] && ids == [] && sizes == []
      ensures Live() && fragments == [] && calls == [] && this.sink == sink == origin
      ensures this.hashes == hashes && this.payload == payload && this.tracked == tracked && this.encoding == encoding
      ensures this.expectedWire == expectedWire && this.maxDecoded == maxDecoded && requested == declared
    {
      this.hashes, this.payload, this.tracked, this.encoding := hashes, payload, tracked, encoding;
      this.expectedWire, this.maxDecoded, this.declared, this.sink := expectedWire, maxDecoded, declared, sink;
      requested, origin := declared, sink;
      this.decoder := if encoding.Some? then Some(Start(encoding.value)) else None;
      absorbed, wireBytes, decodedBytes, active, calls, fragments := [], 0, 0, true, [], [];
    }
  }

  /** Nothing has been published or cleaned up yet; at most the last call failed. */
  ghost predicate Stopped(s: Session)
    reads s
  {
    && SameTarget(s.origin, s.sink)
    && if s.sink.Staged? then Interrupted(s.Sha(), s.sink.part, s.calls)
       else SuccessfulPublishes(s.calls) == 0 && Cleanups(s.calls) == 0
  }

  /** The session is over and its upload was cleaned up exactly once. */
  ghost predicate Discarded(s: Session)
    reads s
  {
    && !s.active && SameTarget(s.origin, s.sink)
    && if s.sink.Staged? then CleanedUp(s.Sha(), s.sink.part, s.calls)
       else SuccessfulPublishes(s.calls) == 0 && Cleanups(s.calls) == 0
  }

  /** What must have checked out before a publish call is made: the length, the end of an encoded
      body, every digest the request declared and every trailer of the body. */
  ghost predicate Checked(s: Session)
    reads s`wireBytes, s`decoder, s`absorbed, s`declared
  {
    && (s.expectedWire.Some? ==> s.wireBytes == s.expectedWire.value)
    && DigestsHold(s.hashes, s.payload, s.requested, s.absorbed)
    && match s.encoding
       case None => s.declared == s.requested
       case Some(_) =>
         && s.decoder.Some? && s.decoder.value.phase.Done?
         && TrailersHold(s.hashes, s.decoder.value.trailers, s.absorbed)
         && ApplyTrailers(s.hashes, s.requested, s.decoder.value.trailers) == Applied(s.declared)
  }

  /** The last chunk of a plain body of known length travels with the call that publishes it. */
  ghost predicate SealedWithLast(s: Session, call: Call)
    reads s`wireBytes, s`sink
  {
    s.Held() && s.sink.Staged? && s.sink.part == 0 ==> call.FinishSealed?
  }

  /** Every fragment was counted and decoded. */
  ghost predicate Decoded(s: Session)
    reads s`wireBytes, s`decoder, s`absorbed, s`fragments
  {
    s.wireBytes == |Flatten(s.fragments)| && WireInv(s.encoding, s.decoder, s.fragments, s.absorbed)
  }

  /** The session is over and its body was published by its last call. */
  ghost predicate Delivered(s: Session)
    reads s
  {
    && !s.active && SameTarget(s.origin, s.sink)
    && s.calls != [] && s.calls[|s.calls| - 1].ok
    && Describes(s.hashes, s.declared, s.sink, s.absorbed, s.calls[..|s.calls| - 1], s.calls[|s.calls| - 1].call)
    && (s.sink.Staged? ==> Published(s.Sha(), s.sink.part, s.calls))
    && SealedWithLast(s, s.calls[|s.calls| - 1].call)
    && Checked(s) && Decoded(s)
  }

  /** A response, and whether one of its fields asks to close the connection. */
  datatype Response = Response(status: nat, close: bool)

  datatype Operation = PutOperation | PartOperation(part: int) | ControlOperation

  /** The verdict of authentication and routing on a head. */
  datatype Admission =
    | Denied(response: Response)
    | Admitted(operation: Operation, payload: Payload, tracked: set<Algorithm>, encoding: Option<Config>,
               declared: Declared, needsBody: bool)

  datatype HeadOutcome = Immediate(response: Response) | ReceiveBody(session: Session)

  /** A small body of known length is kept in memory and stored in one call. */
  predicate DirectPutEligible(
    contentLength: Option<nat>, chunked: bool, encoded: bool, expects: bool, maxBody: nat)
  {
    !chunked && !encoded && !expects && contentLength.Some? && contentLength.value <= maxBody
  }

  function Clamp(x: int, low: int, high: int): int
    requires low <= high
  {
    if x < low then low else if x > high then high else x
  }

  class Service {
    /** The answer of the database to the n-th call it receives. */
    const succeeds: (nat, Call) -> bool
    /** The database opens the n-th upload or part. */
    const begins: nat -> bool
    const admit: (nat, RequestHead.Head) -> Admission
    /** The response to a finished or failed body. */
    const respond: Option<Failure> -> Response
    const hashes: Hashes
    const maxObjectBytes: nat
    const maxControlBody: nat
    const directPutBytes: nat
    const stagingChunkBytes: nat
    var made: nat
    /** The heads handled so far. */
    ghost var handled: seq<RequestHead.Head>
    /** The sessions opened so far. */
    ghost var begun: set<Session>

    constructor (
      succeeds: (nat, Call) -> bool, begins: nat -> bool, admit: (nat, RequestHead.Head) -> Admission,
      respond: Option<Failure> -> Response, hashes: Hashes,
      maxObjectBytes: nat, maxControlBody: nat, directPutBytes: nat, stagingChunkBytes: nat)
      ensures MIN_STAGING_CHUNK_BYTES <= this.stagingChunkBytes <= MAX_STAGING_CHUNK_BYTES
      ensures 1 <= this.maxControlBody && this.directPutBytes <= this.maxControlBody
      ensures this.directPutBytes <= maxObjectBytes
      ensures this.directPutBytes <= directPutBytes && this.directPutBytes <= MAX_DIRECT_PUT_BYTES
      ensures this.succeeds == succeeds && this.begins == begins && this.admit == admit && this.respond == respond
      ensures this.hashes == hashes && this.maxObjectBytes == maxObjectBytes && handled == [] && begun == {}
    {
      this.succeeds, this.begins, this.admit, this.respond := succeeds, begins, admit, respond;
      this.hashes, this.maxObjectBytes := hashes, maxObjectBytes;
      this.stagingChunkBytes := Clamp(stagingChunkBytes, MIN_STAGING_CHUNK_BYTES, MAX_STAGING_CHUNK_BYTES);
      this.maxControlBody := Max(maxControlBody, 1);
      this.directPutBytes :=
        Min(Min(Min(directPutBytes, Max(maxControlBody, 1)), MAX_DIRECT_PUT_BYTES), maxObjectBytes);
      made, handled, begun := 0, [], {};
    }

    predicate Direct(head: RequestHead.Head, a: Admission)
      requires a.Admitted?
    {
      DirectPutEligible(head.contentLength, head.chunked, a.encoding.Some?,
                        RequestHead.Values(head.headers, Ascii("expect")) != [], directPutBytes)
    }

    /** Whether anything of the body is to be received. */
    predicate HasBody(head: RequestHead.Head, a: Admission)
      requires a.Admitted?
    {
      || !a.operation.ControlOperation? || a.needsBody || a.encoding.Some? || head.chunked
      || (head.contentLength.Some? && head.contentLength.value > 0)
    }

    /** Whether the body is staged in the database chunk by chunk. */
    predicate Staging(head: RequestHead.Head, a: Admission)
      requires a.Admitted?
    {
      a.operation.PartOperation? || (a.operation.PutOperation? && !Direct(head, a))
    }

    /** An empty sink of the kind, for the part and with the limits that the admitted request calls
        for. */
    ghost predicate Belongs(head: RequestHead.Head, a: Admission, sink: Sink)
      requires a.Admitted?
    {
      match sink
      case Buffered(body) => body == [] && a.operation.ControlOperation?
      case DirectPut(expected, maxBody, body) =>
        && body == [] && maxBody == directPutBytes && a.operation.PutOperation? && a.encoding.None? && !head.chunked
        && head.contentLength.Some? && head.contentLength.value <= directPutBytes
        && RequestHead.Values(head.headers, Ascii("expect")) == []
        && (Sha256 in a.declared.sums ==> expected == Some(a.declared.sums[Sha256]))
        && (Sha256 !in a.declared.sums ==> expected == if a.payload.FullHash? then Some(a.payload.hash) else None)
      case Staged(part, sequence, chunkBytes, buffer, ids, sizes) =>
        && sequence == 0 && buffer == [] && ids == [] && sizes == [] && chunkBytes == stagingChunkBytes
        && match a.operation
           case PutOperation => part == 0 && !Direct(head, a)
           case PartOperation(number) => part == number
           case ControlOperation => false
    }

    /** The session carries out this admission of the head: it has its digests, its encoding, its
        lengths and its sink. */
    ghost predicate Carries(head: RequestHead.Head, a: Admission, s: Session) {
      && a.Admitted? && HasBody(head, a)
      && s.hashes == hashes && s.payload == a.payload && s.tracked == a.tracked && s.encoding == a.encoding
      && s.requested == a.declared && s.expectedWire == head.contentLength && s.maxDecoded == maxObjectBytes
      && (head.contentLength.Some? ==> head.contentLength.value <= maxObjectBytes)
      && Belongs(head, a, s.origin)
    }

    /** The response to a request without a body: its digests are those of the empty body. */
    function Dispatched(a: Admission, ok: bool): Response
      requires a.Admitted?
    {
      var failure := VerifyDigests(hashes, a.payload, a.tracked, a.declared, []);
      respond(if failure.None? && !ok then Some(DatabaseFailed) else failure)
    }

    predicate TooLarge(head: RequestHead.Head) {
      head.contentLength.Some? && head.contentLength.value > maxObjectBytes
    }

    /** The head opens a session when it is the n-th thing the database is asked about. */
    predicate Opens(n: nat, head: RequestHead.Head) {
      var a := admit(n, head);
      a.Admitted? && HasBody(head, a) && !TooLarge(head) && (!Staging(head, a) || begins(n))
    }

    /** Otherwise it is answered at once. */
    function AtOnce(n: nat, head: RequestHead.Head): Response {
      var a := admit(n, head);
      if a.Denied? then a.response
      else if TooLarge(head) then respond(Some(WireTooLarge))
      else if HasBody(head, a) then respond(Some(DatabaseFailed))
      else Dispatched(a, succeeds(n, Dispatch([])))
    }

    /** Where the body of an admitted request goes; opening a staged upload may fail. */
    method OpenSink(head: RequestHead.Head, a: Admission) returns (sink: Option<Sink>)
      requires a.Admitted?
      modifies `made
      ensures sink.Some? ==> Belongs(head, a, sink.value)
      ensures sink.Some? <==> !Staging(head, a) || begins(old(made))
      ensures made == old(made) + if Staging(head, a) then 1 else 0
    {
      if a.operation.ControlOperation? {
        return Some(Buffered([]));
      }
      if a.operation.PutOperation? && Direct(head, a) {
        var expected := if Sha256 in a.declared.sums then Some(a.declared.sums[Sha256])
                        else if a.payload.FullHash? then Some(a.payload.hash) else None;
        return Some(DirectPut(expected, directPutBytes, []));
      }
      var ok := begins(made);
      made := made + 1;
      if !ok {
        return None;
      }
      return Some(Staged(if a.operation.PartOperation? then a.operation.part else 0, 0, stagingChunkBytes, [], [], []));
    }

    /** A head is answered at once or opens a session for its body. */
    method HandleHead(head: RequestHead.Head) returns (outcome: HeadOutcome)
      requires stagingChunkBytes > 0
      modifies `made, `handled, `begun
      ensures handled == old(handled) + [head]
      ensures begun == old(begun) + if outcome.ReceiveBody? then {outcome.session} else {}
      ensures outcome.ReceiveBody? ==>
                && fresh(outcome.session) && outcome.session.Live() && outcome.session.fragments == []
                && outcome.session.calls == [] && Carries(head, admit(old(made), head), outcome.session)
      ensures outcome.ReceiveBody? <==> Opens(old(made), head)
      ensures outcome.Immediate? ==> outcome.response == AtOnce(old(made), head)
    {
      handled := handled + [head];
      var a := admit(made, head);
      if a.Denied? {
        return Immediate(a.response);
      }
      if TooLarge(head) {
        return Immediate(respond(Some(WireTooLarge)));
      }
      if !HasBody(head, a) {
        var failure := VerifyDigests(hashes, a.payload, a.tracked, a.declared, []);
        if failure.None? {
          if !succeeds(made, Dispatch([])) {
            failure := Some(DatabaseFailed);
          }
          made := made + 1;
        }
        return Immediate(respond(failure));
      }
      var sink := OpenSink(head, a);
      if sink.None? {
        return Immediate(respond(Some(DatabaseFailed)));
      }
      var session := new Session(hashes, a.payload, a.tracked, a.encoding, head.contentLength, maxObjectBytes,
                                 a.declared, sink.value);
      begun := begun + {session};
      return ReceiveBody(session);
    }

    /** The database carries out whatever it is asked. */
    ghost predicate Obliging() {
      forall n, call :: succeeds(n, call)
    }

    method Ask(s: Session, call: Call) returns (ok: bool)
      modifies `made, s`calls
      ensures s.calls == old(s.calls) + [Entry(call, ok)]
      ensures ok == succeeds(old(made), call) && made == old(made) + 1
    {
      ok := succeeds(made, call);
      made := made + 1;
      s.calls := s.calls + [Entry(call, ok)];
    }

    /** Stores the full buffer as the next chunk. */
    method StoreChunk(s: Session, ghost body: bytes) returns (failure: Option<Failure>)
      requires s.sink.Staged? && StagedInv(s.Sha(), s.sink, body, s.calls, true) && |s.sink.buffer| == s.sink.chunkBytes
      modifies `made, s`calls, s`sink
      ensures SameTarget(old(s.sink), s.sink)
      ensures failure.None? ==> StagedInv(s.Sha(), s.sink, body, s.calls, false) && s.sink.buffer == []
      ensures failure.Some? ==> Interrupted(s.Sha(), s.sink.part, s.calls)
      ensures Obliging() && |body| < s.sink.chunkBytes * I32_MAX ==> failure.None?
    {
      var call := PutCall(s.Sha(), s.sink);
      var ok := Ask(s, call);
      if !ok {
        FailedCall(s.Sha(), s.sink.part, old(s.calls), call);
        return Some(DatabaseFailed);
      }
      if |body| < s.sink.chunkBytes * I32_MAX {
        FullBufferFits(s.Sha(), s.sink, body, old(s.calls));
      }
      if s.sink.sequence + 1 > I32_MAX {
        DepositAdded(s.Sha(), s.sink.part, old(s.calls), Entry(call, true));
        return Some(TooManyChunks);
      }
      StagedStored(s.Sha(), s.sink, body, old(s.calls));
      s.sink := Stored(s.Sha(), s.sink);
      return None;
    }

    /** As much of what is left as there is room for. */
    method NextPiece(decoded: bytes, taken: nat, room: nat, ghost body: bytes) returns (piece: bytes)
      requires taken < |decoded| && 0 < room
      ensures |piece| == Min(room, |decoded| - taken)
      ensures body + decoded[..taken] + piece == body + decoded[..taken + |piece|]
    {
      var count := Min(room, |decoded| - taken);
      piece := decoded[taken..taken + count];
      assert decoded[..taken + count] == decoded[..taken] + piece;
      Assoc(body, decoded[..taken], piece);
    }

    /** Adds a piece to the buffer and stores it once it is full; the last full chunk of a fixed-length
        body that is not multipart is held back. */
    method Fill(s: Session, piece: bytes, last: bool, ghost body: bytes) returns (failure: Option<Failure>)
      requires s.sink.Staged? && StagedInv(s.Sha(), s.sink, body, s.calls, false)
      requires piece != [] && |s.sink.buffer| + |piece| <= s.sink.chunkBytes
      modifies `made, s`calls, s`sink
      ensures SameTarget(old(s.sink), s.sink)
      ensures failure.None? ==> StagedInv(s.Sha(), s.sink, body + piece, s.calls, last)
      ensures failure.Some? ==> Interrupted(s.Sha(), s.sink.part, s.calls)
      ensures Obliging() && |body| + |piece| < s.sink.chunkBytes * I32_MAX ==> failure.None?
    {
      StagedBuffered(s.Sha(), s.sink, body, s.calls, false, piece, true);
      s.sink := s.sink.(buffer := s.sink.buffer + piece);
      if |s.sink.buffer| == s.sink.chunkBytes && !(s.sink.part == 0 && last) {
        failure := StoreChunk(s, body + piece);
        return;
      }
      return None;
    }

    /** Cuts decoded bytes into chunks. */
    method Stage(s: Session, decoded: bytes, fixedComplete: bool, ghost body: bytes) returns (failure: Option<Failure>)
      requires s.sink.Staged? && StagedInv(s.Sha(), s.sink, body, s.calls, decoded == [] && fixedComplete)
      modifies `made, s`calls, s`sink
      ensures SameTarget(old(s.sink), s.sink)
      ensures failure.None? ==> StagedInv(s.Sha(), s.sink, body + decoded, s.calls, fixedComplete)
      ensures failure.Some? ==> Interrupted(s.Sha(), s.sink.part, s.calls)
      ensures Obliging() && |body| + |decoded| < s.sink.chunkBytes * I32_MAX ==> failure.None?
    {
      var taken := 0;
      ghost var origin, sofar := s.sink, body;
      assert body + decoded[..0] == body;
      while taken < |decoded|
        invariant 0 <= taken <= |decoded| && SameTarget(origin, s.sink) && sofar == body + decoded[..taken]
        invariant StagedInv(s.Sha(), s.sink, sofar, s.calls, taken == |decoded| && fixedComplete)
        decreases |decoded| - taken
      {
        var piece := NextPiece(decoded, taken, s.sink.chunkBytes - |s.sink.buffer|, body);
        failure := Fill(s, piece, fixedComplete && taken + |piece| == |decoded|, sofar);
        if failure.Some? {
          return;
        }
        taken, sofar := taken + |piece|, sofar + piece;
      }
      assert decoded[..taken] == decoded;
      return None;
    }

    /** Gives up a staged upload; the outcome of the call is ignored. */
    method Cleanup(s: Session)
      modifies `made, s`calls
      ensures if s.sink.Staged? then
                && |s.calls| == |old(s.calls)| + 1 && s.calls[..|s.calls| - 1] == old(s.calls)
                && s.calls[|s.calls| - 1].call == CleanupCall(s.sink.part)
              else s.calls == old(s.calls)
    {
      if s.sink.Staged? {
        var call := CleanupCall(s.sink.part);
        var ok := Ask(s, call);
        CallAdded(old(s.calls), Entry(call, ok));
      }
    }

    method FailSession(s: Session)
      requires Stopped(s)
      modifies `made, s`calls, s`active
      ensures Discarded(s)
    {
      Cleanup(s);
      s.active := false;
    }

    /** There is room for n more decoded bytes. */
    ghost predicate Room(s: Session, n: nat)
      reads s
    {
      && s.decodedBytes + n <= U64_MAX && s.decodedBytes + n <= s.maxDecoded
      && match s.sink
         case DirectPut(_, maxBody, body) => |body| + n <= maxBody
         case Buffered(body) => |body| + n <= maxControlBody
         case Staged(_, _, chunkBytes, _, _, _) => |s.absorbed| + n < chunkBytes * I32_MAX
    }

    /** Absorbs decoded bytes into the digests and the sink. */
    method AcceptDecoded(s: Session, decoded: bytes, fixedComplete: bool) returns (failure: Option<Failure>)
      requires SinkInv(s.Sha(), s.sink, s.absorbed, s.calls, decoded == [] && fixedComplete)
      requires s.decodedBytes == |s.absorbed| <= s.maxDecoded && SameTarget(s.origin, s.sink)
      modifies `made, s`calls, s`sink, s`absorbed, s`decodedBytes
      ensures failure.None? ==>
                && s.absorbed == old(s.absorbed) + decoded && s.decodedBytes == |s.absorbed| <= s.maxDecoded
                && SinkInv(s.Sha(), s.sink, s.absorbed, s.calls, fixedComplete)
      ensures failure.Some? ==> Stopped(s)
      ensures SameTarget(s.origin, s.sink)
      ensures Obliging() && old(Room(s, |decoded|)) ==> failure.None?
    {
      s.decodedBytes := s.decodedBytes + |decoded|;
      if s.decodedBytes > U64_MAX || s.decodedBytes > s.maxDecoded {
        return Some(DecodedTooLarge);
      }
      s.absorbed := s.absorbed + decoded;
      match s.sink {
        case DirectPut(expected, maxBody, body) =>
          if |body| + |decoded| > maxBody {
            return Some(DirectTooLarge);
          }
          s.sink := DirectPut(expected, maxBody, body + decoded);
        case Buffered(body) =>
          if |body| + |decoded| > maxControlBody {
            return Some(ControlTooLarge);
          }
          s.sink := Buffered(body + decoded);
        case Staged(_, _, _, _, _, _) =>
          failure := Stage(s, decoded, fixedComplete, old(s.absorbed));
          return;
      }
      return None;
    }

    /** One call per minute keeps a staged upload alive. */
    method RenewLease(s: Session, due: bool) returns (failure: Option<Failure>)
      requires s.Live()
      modifies `made, s`calls
      ensures failure.None? ==> s.Live()
      ensures failure.Some? ==> Stopped(s)
      ensures if due && s.sink.Staged? then s.calls == old(s.calls) + [Entry(Renew(s.sink.part != 0), failure.None?)]
              else s.calls == old(s.calls)
      ensures Obliging() ==> failure.None?
    {
      if due && s.sink.Staged? {
        var call := Renew(s.sink.part != 0);
        var ok := Ask(s, call);
        if !ok {
          FailedCall(s.Sha(), s.sink.part, old(s.calls), call);
          return Some(DatabaseFailed);
        }
        RenewKeeps(s.Sha(), s.sink, s.absorbed, old(s.calls), s.Held());
      }
      return None;
    }

    /** The encoding of the body is at fault. */
    ghost predicate Undecodable(s: Session, bytes: bytes)
      requires WireInv(s.encoding, s.decoder, s.fragments, s.absorbed)
      reads s`decoder, s`fragments, s`absorbed
    {
      s.encoding.Some? && AwsChunked.Push(s.encoding.value, s.decoder.value, bytes).Failed?
    }

    ghost function DecodedSize(s: Session, bytes: bytes): int
      requires WireInv(s.encoding, s.decoder, s.fragments, s.absorbed)
      reads s`decoder, s`fragments, s`absorbed
    {
      if s.encoding.None? then |bytes|
      else
        var o := AwsChunked.Push(s.encoding.value, s.decoder.value, bytes);
        if o.Failed? then 0 else |o.state.released| - |s.decoder.value.released|
    }

    /** The fragment is within every limit and decodes. */
    ghost predicate Fits(s: Session, bytes: bytes)
      requires WireInv(s.encoding, s.decoder, s.fragments, s.absorbed)
      reads s
    {
      && s.wireBytes + |bytes| <= U64_MAX
      && (s.expectedWire.Some? ==> s.wireBytes + |bytes| <= s.expectedWire.value)
      && !Undecodable(s, bytes) && DecodedSize(s, bytes) >= 0 && Room(s, DecodedSize(s, bytes))
    }

    /** Takes the aws-chunked framing off, if there is one. */
    method Unwrap(s: Session, bytes: bytes) returns (failure: Option<Failure>, decoded: bytes)
      requires WireInv(s.encoding, s.decoder, s.fragments, s.absorbed)
      modifies s`decoder
      ensures failure.None? ==> WireInv(s.encoding, s.decoder, s.fragments + [bytes], s.absorbed + decoded)
      ensures failure.None? ==> |decoded| == old(DecodedSize(s, bytes))
      ensures failure.None? && s.encoding.None? ==> decoded == bytes
      ensures failure.Some? <==> old(Undecodable(s, bytes))
    {
      match s.encoding {
        case None =>
          PlainMore(s.fragments, s.absorbed, bytes);
          return None, bytes;
        case Some(cfg) =>
          var before := s.decoder.value;
          var o := AwsChunked.Push(cfg, before, bytes);
          DecodedMore(cfg, s.fragments, before, bytes);
          if o.Failed? {
            return Some(BadEncoding(o.error)), [];
          }
          s.decoder := Some(o.state);
          decoded := o.state.released[|before.released|..];
          assert before.released + decoded == o.state.released;
          return None, decoded;
      }
    }

    /** What of a live session outlasts the check of its body. */
    ghost predicate WasLive(s: Session)
      reads s
    {
      s.InBounds() && SameTarget(s.origin, s.sink) && SinkInv(s.Sha(), s.sink, s.absorbed, s.calls, s.Held())
    }

    lemma LiveStops(s: Session)
      requires s.Live()
      ensures Stopped(s)
    {
    }

    /** Absorbs what a fragment decoded to; the fragment is then part of the body. */
    method Absorb(s: Session, bytes: bytes, decoded: bytes) returns (failure: Option<Failure>)
      requires s.active && s.declared == s.requested && SameTarget(s.origin, s.sink)
      requires s.wireBytes == |Flatten(s.fragments)| + |bytes|
      requires s.expectedWire.Some? ==> s.wireBytes <= s.expectedWire.value
      requires s.decodedBytes == |s.absorbed| <= s.maxDecoded
      requires WireInv(s.encoding, s.decoder, s.fragments + [bytes], s.absorbed + decoded)
      requires SinkInv(s.Sha(), s.sink, s.absorbed, s.calls, decoded == [] && s.Held())
      modifies `made, s`calls, s`sink, s`absorbed, s`decodedBytes, s`fragments
      ensures failure.None? ==> s.Live() && s.fragments == old(s.fragments) + [bytes]
      ensures failure.Some? ==> Stopped(s)
      ensures Obliging() && old(Room(s, |decoded|)) ==> failure.None?
    {
      var fixedComplete := s.encoding.None? && s.expectedWire == Some(s.wireBytes);
      failure := AcceptDecoded(s, decoded, fixedComplete);
      FlattenSnoc(s.fragments, bytes);
      s.fragments := s.fragments + [bytes];
    }

    /** Counts, decodes and absorbs one fragment of the body. */
    method TakeBody(s: Session, bytes: bytes) returns (failure: Option<Failure>)
      requires s.Live()
      modifies `made, s`wireBytes, s`decoder, s`calls, s`sink, s`absorbed, s`decodedBytes, s`fragments
      ensures failure.None? ==> s.Live() && s.fragments == old(s.fragments) + [bytes]
      ensures failure.None? ==> s.wireBytes <= U64_MAX && !old(Undecodable(s, bytes))
      ensures old(s.wireBytes) + |bytes| > U64_MAX ==> failure == Some(WireTooLarge)
      ensures failure.Some? ==> Stopped(s)
      ensures Obliging() && old(Fits(s, bytes)) ==> failure.None?
    {
      LiveStops(s);
      var total := s.wireBytes + |bytes|;
      if total > U64_MAX {
        return Some(WireTooLarge);
      }
      ghost var wasHeld := s.Held();
      s.wireBytes := total;
      if s.expectedWire.Some? && total > s.expectedWire.value {
        return Some(ExtraWireBytes);
      }
      var decoded;
      failure, decoded := Unwrap(s, bytes);
      if failure.Some? {
        return;
      }
      assert wasHeld <==> decoded == [] && s.Held();
      failure := Absorb(s, bytes, decoded);
    }

    /** One fragment of the body. A failure ends the session and cleans it up. */
    method PushBody(s: Session, bytes: bytes, leaseDue: bool) returns (failure: Option<Failure>)
      requires s.active ==> s.Live()
      modifies `made, s
      ensures !old(s.active) ==> failure == Some(Inactive) && s.calls == old(s.calls) && !s.active
      ensures old(s.active) && failure.None? ==> s.Live() && s.fragments == old(s.fragments) + [bytes]
      ensures old(s.active) && failure.Some? ==> Discarded(s)
      ensures old(s.active) && failure.None? ==> s.wireBytes <= U64_MAX && !old(Undecodable(s, bytes))
      ensures old(s.active) && old(s.wireBytes) + |bytes| > U64_MAX ==> failure == Some(WireTooLarge)
      ensures old(s.active) && Obliging() && old(Fits(s, bytes)) ==> failure.None?
      ensures old(s.active) && failure.None? && leaseDue && s.sink.Staged? ==> Renewed(s.sink.part, s.calls)
      ensures s.reply == failure
    {
      if !s.active {
        s.reply := Some(Inactive);
        return Some(Inactive);
      }
      failure := TakeBody(s, bytes);
      if failure.None? {
        CallAdded(s.calls, Entry(Renew(s.sink.Staged? && s.sink.part != 0), true));
        failure := RenewLease(s, leaseDue);
      }
      if failure.Some? {
        FailSession(s);
      }
      s.reply := failure;
    }

    /** Everything that is checked before anything is published is as it should be. */
    ghost predicate Passes(s: Session)
      requires WireInv(s.encoding, s.decoder, s.fragments, s.absorbed)
      reads s
    {
      && (s.expectedWire.Some? ==> s.wireBytes == s.expectedWire.value)
      && s.decodedBytes <= I64_MAX
      && match s.encoding
         case None => VerifyDigests(s.hashes, s.payload, s.tracked, s.requested, s.absorbed).None?
         case Some(_) =>
           && s.decoder.value.phase.Done?
           && var all := ApplyTrailers(s.hashes, s.requested, s.decoder.value.trailers);
              all.Applied? && VerifyDigests(s.hashes, s.payload, s.tracked, all.declared, s.absorbed).None?
    }

    /** The checks before anything is published. */
    method CheckBody(s: Session) returns (failure: Option<Failure>)
      requires s.Live()
      modifies s`declared
      ensures failure.None? ==> Checked(s) && s.decodedBytes <= I64_MAX
      ensures failure.None? <==> old(Passes(s))
    {
      if s.expectedWire.Some? && s.wireBytes != s.expectedWire.value {
        return Some(WireLengthMismatch);
      }
      if s.decoder.Some? {
        var st := s.decoder.value;
        if !st.phase.Done? {
          return Some(BadEncoding(
            if st.phase.DataCrlf? then MissingChunkTerminator
            else if st.phase.Trailers? then InvalidTrailer
            else InvalidChunkHeader));
        }
        var applied := ApplyTrailers(s.hashes, s.declared, st.trailers);
        if applied.Rejected? {
          return Some(applied.failure);
        }
        s.declared := applied.declared;
        TrailersExtendDeclared(s.hashes, s.requested, st.trailers);
      }
      failure := VerifyDigests(s.hashes, s.payload, s.tracked, s.declared, s.absorbed);
      if failure.Some? {
        return;
      }
      VerifiedDigestsHold(s.hashes, s.payload, s.tracked, s.declared, s.absorbed);
      if s.decoder.Some? {
        TrailersChecked(s.hashes, s.requested, s.decoder.value.trailers, s.absorbed);
      }
      if s.decodedBytes > I64_MAX {
        return Some(DecodedTooLarge);
      }
    }

    /** Publishes an upload that is not multipart, its last chunk in the same call. */
    method PublishUpload(s: Session) returns (call: Call)
      requires WasLive(s) && s.sink.Staged? && s.sink.part == 0 && s.decodedBytes <= I64_MAX
      ensures Describes(s.hashes, s.declared, s.sink, s.absorbed, s.calls, call) && IsPublish(call)
      ensures SealedWithLast(s, call)
    {
      var sink := s.sink;
      var sha256 := s.hashes.Sha256Of(s.absorbed);
      var md5 := HexLower(s.hashes.md5(s.absorbed));
      if sink.buffer != [] || sink.sequence == 0 {
        var chunkSha256 :=
          if sink.sequence == 0 && |sink.buffer| == s.decodedBytes then sha256 else s.hashes.Sha256Of(sink.buffer);
        if sink.sequence == 0 {
          LoneChunk(s.Sha(), sink, s.absorbed, s.calls, s.Held());
        }
        LastChunkCuts(s.Sha(), sink, s.absorbed, s.calls, s.Held());
        call := FinishSealed(DeclaredSha(s.declared), sha256, md5, s.decodedBytes, sink.ids, sink.sizes,
                             sink.sequence, sink.buffer, chunkSha256);
      } else {
        FullChunksCut(s.Sha(), sink, s.absorbed, s.calls, s.Held());
        call := CompleteSealed(DeclaredSha(s.declared), sha256, md5, s.decodedBytes, sink.ids, sink.sizes);
      }
    }

    /** The last chunk of a part, if there is one left. */
    method StoreLastPart(s: Session) returns (failure: Option<Failure>)
      requires WasLive(s) && s.sink.Staged? && s.sink.part != 0
      modifies `made, s`calls
      ensures failure.None? ==>
                && Orderly(s.Sha(), s.sink.part, s.calls)
                && CutsBody(Deposits(s.calls), s.sink.chunkBytes, s.absorbed)
      ensures failure.Some? ==> Stopped(s)
      ensures Obliging() ==> failure.None?
    {
      var sink := s.sink;
      if sink.buffer != [] || sink.sequence == 0 {
        var call := PutChunk(sink.sequence, sink.buffer, sink.part);
        var ok := Ask(s, call);
        if !ok {
          FailedCall(s.Sha(), sink.part, old(s.calls), call);
          return Some(DatabaseFailed);
        }
        LastChunkCuts(s.Sha(), sink, s.absorbed, old(s.calls), s.Held());
        DepositAdded(s.Sha(), sink.part, old(s.calls), Entry(call, true));
      } else {
        FullChunksCut(s.Sha(), sink, s.absorbed, s.calls, s.Held());
      }
      return None;
    }

    /** A publish call that failed is followed by the cleanup. */
    method FailPublish(s: Session, ghost before: seq<Entry>, ghost call: Call)
      requires s.calls == before + [Entry(call, false)] && SameTarget(s.origin, s.sink) && !IsCleanup(call)
      requires if s.sink.Staged? then Orderly(s.Sha(), s.sink.part, before) else before == []
      modifies `made, s`calls, s`active
      ensures Discarded(s)
    {
      if s.sink.Staged? {
        FailedCall(s.Sha(), s.sink.part, before, call);
      } else {
        FailedAlone(call);
      }
      FailSession(s);
    }

    lemma PublishDelivers(s: Session, before: seq<Entry>, call: Call)
      requires s.calls == before + [Entry(call, true)] && !s.active && SameTarget(s.origin, s.sink)
      requires Checked(s) && Decoded(s) && SealedWithLast(s, call) && IsPublish(call)
      requires Describes(s.hashes, s.declared, s.sink, s.absorbed, before, call)
      requires s.sink.Staged? ==> Orderly(s.Sha(), s.sink.part, before)
      ensures Delivered(s)
    {
      CallAdded(before, Entry(call, true));
    }

    /** Makes the publish call; it ends the session one way or the other. */
    method Deliver(s: Session, call: Call) returns (failure: Option<Failure>)
      requires Checked(s) && Decoded(s) && SameTarget(s.origin, s.sink)
      requires Describes(s.hashes, s.declared, s.sink, s.absorbed, s.calls, call) && IsPublish(call)
      requires SealedWithLast(s, call)
      requires if s.sink.Staged? then Orderly(s.Sha(), s.sink.part, s.calls) else s.calls == []
      modifies `made, s`calls, s`active
      ensures failure.None? ==> Delivered(s)
      ensures failure.Some? ==> Discarded(s)
      ensures Obliging() ==> failure.None?
    {
      var ok := Ask(s, call);
      if !ok {
        FailPublish(s, old(s.calls), call);
        return Some(DatabaseFailed);
      }
      s.active := false;
      PublishDelivers(s, old(s.calls), call);
      return None;
    }

    /** Publishes what has passed the checks: the object, the upload or the part. */
    method Publish(s: Session) returns (failure: Option<Failure>)
      requires WasLive(s) && Checked(s) && Decoded(s) && s.decodedBytes <= I64_MAX
      modifies `made, s`calls, s`active
      ensures failure.None? ==> Delivered(s)
      ensures failure.Some? ==> Discarded(s)
      ensures Obliging() ==> failure.None?
    {
      var call;
      match s.sink {
        case DirectPut(expected, _, body) => call := PutObject(body, expected);
        case Buffered(body) => call := Dispatch(body);
        case Staged(part, _, _, _, _, _) =>
          if part == 0 {
            call := PublishUpload(s);
          } else {
            failure := StoreLastPart(s);
            if failure.Some? {
              FailSession(s);
              return;
            }
            call := CompletePart(part, DeclaredSha(s.declared));
          }
      }
      failure := Deliver(s, call);
    }

    /** The end of the body: publish what was checked, or clean up. */
    method FinishBody(s: Session) returns (failure: Option<Failure>)
      requires s.active ==> s.Live()
      modifies `made, s
      ensures !old(s.active) ==> failure == Some(Inactive) && s.calls == old(s.calls) && !s.active
      ensures old(s.active) && failure.None? ==> Delivered(s)
      ensures old(s.active) && failure.Some? ==> Discarded(s)
      ensures s.fragments == old(s.fragments)
      ensures old(s.active) && Obliging() && old(Passes(s)) ==> failure.None?
      ensures s.reply == failure
    {
      if !s.active {
        s.reply := Some(Inactive);
        return Some(Inactive);
      }
      LiveStops(s);
      failure := CheckBody(s);
      if failure.None? {
        failure := Publish(s);
      } else {
        FailSession(s);
      }
      s.reply := failure;
    }

    /** The request went away. Nothing guards against a session that is already over, so it is for
        the caller to abort only one that is not. */
    method AbortBody(s: Session)
      modifies `made, s`calls, s`active
      ensures old(s.active && s.Live()) ==> Discarded(s)
      ensures !s.active
      ensures if s.sink.Staged? then
                && |s.calls| == |old(s.calls)| + 1 && s.calls[..|s.calls| - 1] == old(s.calls)
                && s.calls[|s.calls| - 1].call == CleanupCall(s.sink.part)
                && (CleanedUp(s.Sha(), s.sink.part, s.calls) <==> Interrupted(s.Sha(), s.sink.part, old(s.calls)))
              else s.calls == old(s.calls)
    {
      Cleanup(s);
      s.active := false;
    }
  }

  /** Aborting a staged session, live or over, leaves it ended exactly once if and only if it is
      active: an abort after the end cleans up twice, or cleans up what was published. */
  lemma AbortOnlyActive(s: Session, ok: bool)
    requires s.Live() || Discarded(s) || Delivered(s)
    requires s.sink.Staged?
    ensures var after := s.calls + [Entry(CleanupCall(s.sink.part), ok)];
            && (CleanedUp(s.Sha(), s.sink.part, after) <==> s.active)
            && (SuccessfulPublishes(after) + Cleanups(after) == 1 <==> s.active)
  {
    CleanupEnds(s.Sha(), s.sink.part, s.calls, ok);
    CleanupTooMany(s.Sha(), s.sink.part, s.calls, ok);
    if s.active {
      OrderlyCounts(s.Sha(), s.sink.part, s.calls);
    }
  }

  /** What is published was received whole, authenticated and checked: a plain body is the bytes
      received; an encoded body is the data of a legal aws-chunked stream whose trailers are true of
      it. The digests are those the request declared. */
  lemma DeliveredAuthentic(s: Session)
    requires Delivered(s)
    ensures s.expectedWire.Some? ==> |Flatten(s.fragments)| == s.expectedWire.value
    ensures DigestsHold(s.hashes, s.payload, s.requested, s.absorbed)
    ensures match s.encoding
            case None => s.absorbed == Flatten(s.fragments)
            case Some(cfg) =>
              exists chunks, zero, lines, trailers ::
                Legal(cfg, chunks, zero, lines, trailers) && Flatten(s.fragments) == Wire(chunks, zero, lines)
                && s.absorbed == DataOf(chunks) && TrailersHold(s.hashes, trailers, s.absorbed)
  {
    if s.encoding.Some? {
      var cfg := s.encoding.value;
      FedLegal(cfg, s.fragments);
      var chunks, zero, lines := AcceptedLegal(cfg, Flatten(s.fragments));
      var trailers := s.decoder.value.trailers;
      LegalAccepted(cfg, chunks, zero, lines, trailers);
    }
  }
}
