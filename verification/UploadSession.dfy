/** The upload body session of src/s3/service.rs: decoded bytes are cut into database chunks, checked
    against every declared digest, and then published or cleaned up. */
module UploadSession {
  import opened Bytes
  import opened UploadTrace
  import opened AwsChunked
  import opened AwsChunkedCuts
  import opened AwsChunkedWire

  const MAX_DIRECT_PUT_BYTES: nat := 64 * 1024
  const MIN_STAGING_CHUNK_BYTES: nat := 64 * 1024
  const MAX_STAGING_CHUNK_BYTES: nat := 16 * 1024 * 1024

  /** The digests, of which nothing is assumed. */
  datatype Hashes = Hashes(md5: bytes -> bytes, checksum: (Algorithm, bytes) -> bytes, base64: bytes -> Option<bytes>)
  {
    function Sha256Of(data: bytes): bytes {
      checksum(Sha256, data)
    }
  }

  datatype Failure =
    | Inactive
    | WireTooLarge
    | ExtraWireBytes
    | BadEncoding(error: Error)
    | DecodedTooLarge
    | DirectTooLarge
    | ControlTooLarge
    | TooManyChunks
    | DatabaseFailed
    | WireLengthMismatch
    | BadTrailer
    | ContentShaMismatch
    | BadDigest
    | NotTracked

  // ----- digests

  datatype Payload = FullHash(hash: bytes) | OtherPayload

  /** Checksums the request declares, in headers or in verified trailers. */
  datatype Declared = Declared(md5: Option<bytes>, sums: map<Algorithm, bytes>)

  function DecodedLength(a: Algorithm): nat {
    match a
    case Crc32 => 4
    case Crc32c => 4
    case Sha1 => 20
    case Sha256 => 32
    case Crc64Nvme => 8
  }

  datatype TrailersApplied = Applied(declared: Declared) | Rejected(failure: Failure)

  function ApplyTrailer(hashes: Hashes, declared: Declared, t: Trailer): TrailersApplied {
    var a := AlgorithmOf(t.name);
    if a.None? then Rejected(BadTrailer)
    else
      var value := hashes.base64(t.value);
      if value.None? || |value.value| != DecodedLength(a.value) then Rejected(BadDigest)
      else if a.value in declared.sums && declared.sums[a.value] != value.value then Rejected(BadDigest)
      else Applied(declared.(sums := declared.sums[a.value := value.value]))
  }

  function ApplyTrailers(hashes: Hashes, declared: Declared, trailers: seq<Trailer>): TrailersApplied
    decreases |trailers|
  {
    if trailers == [] then Applied(declared)
    else match ApplyTrailer(hashes, declared, trailers[0])
      case Rejected(f) => Rejected(f)
      case Applied(next) => ApplyTrailers(hashes, next, trailers[1..])
  }

  /** A trailer never replaces a declared checksum by a different one. */
  lemma {:induction false} TrailersExtendDeclared(hashes: Hashes, declared: Declared, trailers: seq<Trailer>)
    requires ApplyTrailers(hashes, declared, trailers).Applied?
    ensures var all := ApplyTrailers(hashes, declared, trailers).declared;
            && all.md5 == declared.md5
            && forall a :: a in declared.sums ==> a in all.sums && all.sums[a] == declared.sums[a]
    decreases |trailers|
  {
    if trailers != [] {
      TrailersExtendDeclared(hashes, ApplyTrailer(hashes, declared, trailers[0]).declared, trailers[1..]);
    }
  }

  /** Every trailer carries the true digest of the body. */
  ghost predicate TrailersHold(hashes: Hashes, trailers: seq<Trailer>, body: bytes) {
    forall i :: 0 <= i < |trailers| ==> TrailerHolds(hashes, trailers[i], body)
  }

  predicate TrailerHolds(hashes: Hashes, t: Trailer, body: bytes) {
    var a := AlgorithmOf(t.name);
    a.Some? && hashes.base64(t.value) == Some(hashes.checksum(a.value, body))
  }

  /** Trailers that are taken up are checked with the rest: what holds of all declared checksums
      holds of each trailer. */
  lemma {:induction false} TrailersChecked(hashes: Hashes, declared: Declared, trailers: seq<Trailer>, body: bytes)
    requires ApplyTrailers(hashes, declared, trailers).Applied?
    requires var all := ApplyTrailers(hashes, declared, trailers).declared;
             forall a :: a in all.sums ==> all.sums[a] == hashes.checksum(a, body)
    ensures TrailersHold(hashes, trailers, body)
    decreases |trailers|
  {
    if trailers != [] {
      var next := ApplyTrailer(hashes, declared, trailers[0]).declared;
      TrailersExtendDeclared(hashes, next, trailers[1..]);
      TrailersChecked(hashes, next, trailers[1..], body);
      assert TrailerHolds(hashes, trailers[0], body);
      forall i | 0 <= i < |trailers| ensures TrailerHolds(hashes, trailers[i], body) {
        assert i > 0 ==> trailers[i] == trailers[1..][i - 1];
      }
    }
  }

  /** The SHA-256 that the database is asked to check again. */
  function DeclaredSha(declared: Declared): Option<bytes> {
    if Sha256 in declared.sums then Some(declared.sums[Sha256]) else None
  }

  function CheckSum(
    hashes: Hashes, tracked: set<Algorithm>, declared: Declared, body: bytes, a: Algorithm): Option<Failure>
  {
    if a !in declared.sums then None
    else if a != Sha256 && a !in tracked then Some(NotTracked)
    else if hashes.checksum(a, body) != declared.sums[a] then Some(BadDigest)
    else None
  }

  function CheckSums(
    hashes: Hashes, tracked: set<Algorithm>, declared: Declared, body: bytes, order: seq<Algorithm>): Option<Failure>
  {
    if order == [] then None
    else
      var failure := CheckSum(hashes, tracked, declared, body, order[0]);
      if failure.Some? then failure else CheckSums(hashes, tracked, declared, body, order[1..])
  }

  function VerifyDigests(
    hashes: Hashes, payload: Payload, tracked: set<Algorithm>, declared: Declared, body: bytes): Option<Failure>
  {
    if payload.FullHash? && payload.hash != hashes.Sha256Of(body) then Some(ContentShaMismatch)
    else if declared.md5.Some? && declared.md5.value != hashes.md5(body) then Some(BadDigest)
    else CheckSums(hashes, tracked, declared, body, [Sha256, Sha1, Crc32, Crc32c, Crc64Nvme])
  }

  /** Everything declared about the body is true of it. */
  predicate DigestsHold(hashes: Hashes, payload: Payload, declared: Declared, body: bytes) {
    && (payload.FullHash? ==> payload.hash == hashes.Sha256Of(body))
    && (declared.md5.Some? ==> declared.md5.value == hashes.md5(body))
    && forall a :: a in declared.sums ==> declared.sums[a] == hashes.checksum(a, body)
  }

  lemma {:induction false} SumsChecked(
    hashes: Hashes, tracked: set<Algorithm>, declared: Declared, body: bytes, order: seq<Algorithm>)
    requires CheckSums(hashes, tracked, declared, body, order).None?
    ensures forall a :: a in order && a in declared.sums ==> declared.sums[a] == hashes.checksum(a, body)
  {
    if order != [] {
      SumsChecked(hashes, tracked, declared, body, order[1..]);
    }
  }

  /** No declared digest escapes verification. */
  lemma VerifiedDigestsHold(hashes: Hashes, payload: Payload, tracked: set<Algorithm>, declared: Declared, body: bytes)
    requires VerifyDigests(hashes, payload, tracked, declared, body).None?
    ensures DigestsHold(hashes, payload, declared, body)
  {
    var order := [Sha256, Sha1, Crc32, Crc32c, Crc64Nvme];
    SumsChecked(hashes, tracked, declared, body, order);
    assert order[0] == Sha256 && order[1] == Sha1 && order[2] == Crc32 && order[3] == Crc32c && order[4] == Crc64Nvme;
    forall a: Algorithm ensures a in order {
      match a {
        case Crc32 =>
        case Crc32c =>
        case Sha1 =>
        case Sha256 =>
        case Crc64Nvme =>
      }
    }
  }

  // ----- the staged sink

  datatype Sink =
    | DirectPut(expectedSha256: Option<bytes>, maxBody: nat, body: bytes)
    | Staged(part: int, sequence: int, chunkBytes: nat, buffer: bytes, ids: seq<bytes>, sizes: seq<int>)
    | Buffered(body: bytes)

  /** The sink is of the kind it was opened as, for the same part and with the same limits. */
  predicate SameTarget(origin: Sink, sink: Sink) {
    match origin
    case DirectPut(expected, maxBody, _) =>
      sink.DirectPut? && sink.expectedSha256 == expected && sink.maxBody == maxBody
    case Staged(part, _, chunkBytes, _, _, _) => sink.Staged? && sink.part == part && sink.chunkBytes == chunkBytes
    case Buffered(_) => sink.Buffered?
  }

  /** Stored chunks and the buffer are the body so far. A full buffer is a last chunk held back; the
      last chunk of an upload that is not multipart is always held back, if there is any. */
  predicate StagedInv(sha256: bytes -> bytes, sink: Sink, body: bytes, calls: seq<Entry>, held: bool)
    requires sink.Staged?
  {
    var chunks := Deposits(calls);
    && 0 < sink.chunkBytes
    && Orderly(sha256, sink.part, calls)
    && sink.sequence == |chunks| <= I32_MAX
    && Flatten(chunks) + sink.buffer == body
    && AllOfSize(chunks, sink.chunkBytes)
    && |sink.buffer| <= sink.chunkBytes && (|sink.buffer| == sink.chunkBytes ==> held)
    && (held && sink.part == 0 ==> sink.buffer != [] || sink.sequence == 0)
    && (sink.part == 0 ==> sink.ids == DigestsOf(sha256, chunks) && sink.sizes == LengthsOf(chunks))
  }

  predicate SinkInv(sha256: bytes -> bytes, sink: Sink, body: bytes, calls: seq<Entry>, held: bool) {
    match sink
    case DirectPut(_, _, kept) => kept == body && calls == []
    case Buffered(kept) => kept == body && calls == []
    case Staged(_, _, _, _, _, _) => StagedInv(sha256, sink, body, calls, held)
  }

  lemma StagedBuffered(
    sha256: bytes -> bytes, sink: Sink, body: bytes, calls: seq<Entry>, held: bool, more: bytes, heldNow: bool)
    requires sink.Staged? && StagedInv(sha256, sink, body, calls, held) && |sink.buffer| + |more| <= sink.chunkBytes
    requires (|sink.buffer| + |more| == sink.chunkBytes ==> heldNow) && more != []
    ensures StagedInv(sha256, sink.(buffer := sink.buffer + more), body + more, calls, heldNow)
  {
    Assoc(Flatten(Deposits(calls)), sink.buffer, more);
  }

  /** The sink after its full buffer was stored. */
  function Stored(sha256: bytes -> bytes, sink: Sink): Sink
    requires sink.Staged?
  {
    if sink.part == 0 then
      sink.(buffer := [], sequence := sink.sequence + 1,
            ids := sink.ids + [sha256(sink.buffer)], sizes := sink.sizes + [|sink.buffer|])
    else sink.(buffer := [], sequence := sink.sequence + 1)
  }

  function PutCall(sha256: bytes -> bytes, sink: Sink): Call
    requires sink.Staged?
  {
    if sink.part == 0 then PutChunkSealed(sink.sequence, sink.buffer, sha256(sink.buffer))
    else PutChunk(sink.sequence, sink.buffer, sink.part)
  }

  lemma DepositAdded(sha256: bytes -> bytes, part: int, calls: seq<Entry>, e: Entry)
    requires Orderly(sha256, part, calls) && e.ok && IsPut(e.call) && e.call.sequence == |Deposits(calls)|
    requires if part == 0 then e.call.PutChunkSealed? && e.call.sha256 == sha256(e.call.data)
             else e.call.PutChunk? && e.call.part == part
    ensures Orderly(sha256, part, calls + [e]) && Deposits(calls + [e]) == Deposits(calls) + [e.call.data]
    ensures DigestsOf(sha256, Deposits(calls + [e])) == DigestsOf(sha256, Deposits(calls)) + [sha256(e.call.data)]
    ensures LengthsOf(Deposits(calls + [e])) == LengthsOf(Deposits(calls)) + [|e.call.data|]
    ensures Flatten(Deposits(calls + [e])) == Flatten(Deposits(calls)) + e.call.data
  {
    CallAdded(calls, e);
    var chunks := Deposits(calls);
    assert (chunks + [e.call.data])[..|chunks|] == chunks;
    FlattenSnoc(chunks, e.call.data);
  }

  /** Storing a full chunk keeps the books. */
  lemma StagedStored(sha256: bytes -> bytes, sink: Sink, body: bytes, calls: seq<Entry>)
    requires sink.Staged? && StagedInv(sha256, sink, body, calls, true)
    requires |sink.buffer| == sink.chunkBytes && sink.sequence < I32_MAX
    ensures StagedInv(sha256, Stored(sha256, sink), body, calls + [Entry(PutCall(sha256, sink), true)], false)
  {
    var e := Entry(PutCall(sha256, sink), true);
    DepositAdded(sha256, sink.part, calls, e);
    assert Flatten(Deposits(calls)) + sink.buffer + [] == body;
  }

  lemma RenewKeeps(sha256: bytes -> bytes, sink: Sink, body: bytes, calls: seq<Entry>, held: bool)
    requires sink.Staged? && StagedInv(sha256, sink, body, calls, held)
    ensures StagedInv(sha256, sink, body, calls + [Entry(Renew(sink.part != 0), true)], held)
  {
    CallAdded(calls, Entry(Renew(sink.part != 0), true));
  }

  lemma FailedCall(sha256: bytes -> bytes, part: int, calls: seq<Entry>, c: Call)
    requires Orderly(sha256, part, calls) && !IsCleanup(c)
    ensures Interrupted(sha256, part, calls + [Entry(c, false)])
  {
    CallAdded(calls, Entry(c, false));
  }

  // ----- the wire

  /** The decoder has seen exactly these fragments and has not failed. */
  ghost predicate Decoding(cfg: Config, fragments: seq<bytes>, st: State) {
    Valid(cfg, st) && Feed(cfg, Begin(cfg), fragments) == (if st.phase.Done? then Finished(st) else NeedMore(st))
  }

  ghost predicate WireInv(
    encoding: Option<Config>, decoder: Option<State>, fragments: seq<bytes>, absorbed: bytes)
  {
    match encoding
    case None => decoder.None? && absorbed == Flatten(fragments)
    case Some(cfg) => decoder.Some? && Decoding(cfg, fragments, decoder.value) && absorbed == decoder.value.released
  }

  lemma PlainMore(fragments: seq<bytes>, absorbed: bytes, more: bytes)
    requires WireInv(None, None, fragments, absorbed)
    ensures WireInv(None, None, fragments + [more], absorbed + more)
  {
    FlattenSnoc(fragments, more);
  }

  lemma DecodedMore(cfg: Config, fragments: seq<bytes>, st: State, more: bytes)
    requires Decoding(cfg, fragments, st)
    ensures var o := AwsChunked.Push(cfg, st, more);
            !o.Failed? ==> Decoding(cfg, fragments + [more], o.state) && st.released <= o.state.released
  {
    FeedSnoc(cfg, Begin(cfg), fragments, more);
    PushReleases(cfg, st, more);
  }

  // ----- what a publish call carries

  /** Chunks that hold the body: each but the last is full, and only an empty body has an empty one. */
  predicate CutsBody(chunks: seq<bytes>, chunkBytes: nat, body: bytes) {
    && chunks != [] && Flatten(chunks) == body
    && AllOfSize(chunks[..|chunks| - 1], chunkBytes)
    && |chunks[|chunks| - 1]| <= chunkBytes
    && (chunks[|chunks| - 1] == [] ==> body == [])
  }

  /** The stored chunks, the chunk that comes with the call if any, the manifest, the sizes and every
      digest in a publish call describe the body. */
  predicate Describes(hashes: Hashes, declared: Declared, sink: Sink, body: bytes, front: seq<Entry>, c: Call) {
    var chunks := Deposits(front);
    match sink
    case DirectPut(expected, _, _) => c.PutObject? && c.body == body && c.expectedSha256 == expected
    case Buffered(_) => c.Dispatch? && c.body == body
    case Staged(part, _, chunkBytes, _, _, _) =>
      match c
      case FinishSealed(expected, sha256, md5, size, ids, sizes, sequence, data, chunkSha256) =>
        && part == 0 && expected == DeclaredSha(declared) && CutsBody(chunks + [data], chunkBytes, body)
        && ids == DigestsOf(hashes.Sha256Of, chunks) && sizes == LengthsOf(chunks)
        && sequence == |chunks| && size == |body| == Sum(sizes) + |data|
        && sha256 == hashes.Sha256Of(body) && md5 == HexLower(hashes.md5(body)) && chunkSha256 == hashes.Sha256Of(data)
      case CompleteSealed(expected, sha256, md5, size, ids, sizes) =>
        && part == 0 && expected == DeclaredSha(declared) && CutsBody(chunks, chunkBytes, body)
        && ids == DigestsOf(hashes.Sha256Of, chunks) && sizes == LengthsOf(chunks)
        && size == |body| == Sum(sizes)
        && sha256 == hashes.Sha256Of(body) && md5 == HexLower(hashes.md5(body))
      case CompletePart(number, expected) =>
        part != 0 && number == part && expected == DeclaredSha(declared) && CutsBody(chunks, chunkBytes, body)
      case _ => false
  }

  lemma LastChunkCuts(sha256: bytes -> bytes, sink: Sink, body: bytes, calls: seq<Entry>, held: bool)
    requires sink.Staged? && StagedInv(sha256, sink, body, calls, held) && (sink.buffer != [] || sink.sequence == 0)
    ensures CutsBody(Deposits(calls) + [sink.buffer], sink.chunkBytes, body)
    ensures Sum(LengthsOf(Deposits(calls))) + |sink.buffer| == |body|
  {
    var chunks := Deposits(calls);
    FlattenSnoc(chunks, sink.buffer);
    assert (chunks + [sink.buffer])[..|chunks|] == chunks;
    LengthsSum(chunks);
  }

  lemma FullChunksCut(sha256: bytes -> bytes, sink: Sink, body: bytes, calls: seq<Entry>, held: bool)
    requires sink.Staged? && StagedInv(sha256, sink, body, calls, held) && sink.buffer == [] && sink.sequence > 0
    ensures CutsBody(Deposits(calls), sink.chunkBytes, body)
    ensures Sum(LengthsOf(Deposits(calls))) == |body|
  {
    var chunks := Deposits(calls);
    assert Flatten(chunks) + [] == Flatten(chunks);
    assert |chunks[|chunks| - 1]| == sink.chunkBytes;
    LengthsSum(chunks);
  }

  /** A chunk sent when nothing else was is the whole body, so the digest of the body is its digest. */
  lemma LoneChunk(sha256: bytes -> bytes, sink: Sink, body: bytes, calls: seq<Entry>, held: bool)
    requires sink.Staged? && StagedInv(sha256, sink, body, calls, held) && sink.sequence == 0
    ensures sink.buffer == body
  {
    assert Deposits(calls) == [];
    assert [] + sink.buffer == sink.buffer;
  }

  /** A body of known length that ends on a chunk boundary leaves its last chunk in the buffer. */
  lemma LastChunkHeld(sha256: bytes -> bytes, sink: Sink, body: bytes, calls: seq<Entry>, n: nat)
    requires sink.Staged? && StagedInv(sha256, sink, body, calls, true) && sink.part == 0
    requires body != [] && |body| == n * sink.chunkBytes
    ensures |sink.buffer| == sink.chunkBytes
  {
    var chunks := Deposits(calls);
    FlattenLength(chunks, sink.chunkBytes);
    WholeChunks(|chunks|, n, sink.chunkBytes, |sink.buffer|);
    if sink.buffer == [] {
      LoneChunk(sha256, sink, body, calls, true);
    }
  }

  lemma WholeChunks(m: nat, n: nat, size: nat, rest: nat)
    requires 0 < size && rest <= size && m * size + rest == n * size
    ensures rest == 0 || rest == size
  {
    if n <= m {
      AtLeast(size, n, m);
    } else {
      AtLeast(size, m + 1, n);
    }
  }

  /** With at most 2^31 - 1 minimal chunks in the size limit the sequence number cannot overflow. */
  lemma SequenceFits(sha256: bytes -> bytes, sink: Sink, body: bytes, calls: seq<Entry>, held: bool)
    requires sink.Staged? && StagedInv(sha256, sink, body, calls, held) && sink.chunkBytes >= MIN_STAGING_CHUNK_BYTES
    requires |body| < MIN_STAGING_CHUNK_BYTES * I32_MAX
    ensures sink.sequence < I32_MAX
  {
    FlattenLength(Deposits(calls), sink.chunkBytes);
    AtLeast(|Deposits(calls)|, MIN_STAGING_CHUNK_BYTES, sink.chunkBytes);
  }

  /** A full buffer can be stored while the body is shorter than that. */
  lemma FullBufferFits(sha256: bytes -> bytes, sink: Sink, body: bytes, calls: seq<Entry>)
    requires sink.Staged? && StagedInv(sha256, sink, body, calls, true) && |sink.buffer| == sink.chunkBytes
    requires |body| < sink.chunkBytes * I32_MAX
    ensures sink.sequence + 1 <= I32_MAX
  {
    FlattenLength(Deposits(calls), sink.chunkBytes);
  }

  lemma AtLeast(n: nat, small: nat, large: nat)
    requires small <= large
    ensures n * small <= n * large
  {
  }

  lemma {:induction false} FlattenLength(chunks: seq<bytes>, size: nat)
    requires AllOfSize(chunks, size)
    ensures |Flatten(chunks)| == |chunks| * size
  {
    if chunks != [] {
      FlattenLength(chunks[1..], size);
    }
  }
}
