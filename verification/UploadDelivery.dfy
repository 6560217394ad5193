/** When an upload is sure to succeed (src/s3/service.rs): a body that is within every limit, decodes and
    has the digests the request declares is accepted fragment by fragment, however it is cut, and
    published. */
module UploadDelivery {
  import opened Bytes
  import opened ChunkFraming
  import opened AwsChunked
  import opened AwsChunkedCuts
  import opened AwsChunkedWire
  import opened UploadSession
  import opened UploadService
  import RequestHead

  // ----- prefixes of an accepted stream

  /** A prefix of a stream that is accepted whole waits for more; what it has released stays. */
  lemma PrefixWaits(cfg: Config, st: State, a: bytes, b: bytes)
    requires Valid(cfg, st) && !st.phase.Done? && CutSafe(cfg) && b != []
    requires Push(cfg, st, a + b).Finished?
    ensures Push(cfg, st, a).NeedMore?
    ensures Push(cfg, st, a).state.released <= Push(cfg, st, a + b).state.released
  {
    assert st.With(a).With(b) == st.With(a + b) by {
      Assoc(st.input, a, b);
    }
    DrainExtends(cfg, st.With(a), b);
    var cut := Push(cfg, st, a);
    if cut.NeedMore? {
      PushReleases(cfg, cut.state, b);
    }
  }

  /** Fed in any fragments so far, an accepted stream is where one push of them would be. */
  lemma FedOnTrack(cfg: Config, fragments: seq<bytes>, rest: bytes)
    requires CutSafe(cfg) && Push(cfg, Begin(cfg).state, Flatten(fragments) + rest).Finished?
    ensures var fed := Feed(cfg, Begin(cfg), fragments);
            var whole := Push(cfg, Begin(cfg).state, Flatten(fragments) + rest);
            && !fed.Failed? && fed.state.released <= whole.state.released
            && (rest == [] ==> fed == whole)
  {
    var (st, sofar) := (Begin(cfg).state, Flatten(fragments));
    EmptyWaits(cfg, st);
    FeedAgrees(cfg, st, fragments);
    if rest == [] {
      assert sofar + rest == sofar;
    } else {
      PrefixWaits(cfg, st, sofar, rest);
    }
  }

  // ----- the body of an entity

  /** The body and the trailers an entity decodes to, if it is a whole legal encoding. */
  function BodyOf(encoding: Option<Config>, entity: bytes): Option<(bytes, seq<Trailer>)> {
    match encoding
    case None => Some((entity, []))
    case Some(cfg) =>
      var o := Push(cfg, Begin(cfg).state, entity);
      if o.Finished? then Some((o.state.released, o.state.trailers)) else None
  }

  /** The encodings that decode are the legal ones, and they decode to their data. */
  lemma LegalBody(cfg: Config, chunks: seq<WireChunk>, zero: bytes, lines: seq<bytes>, trailers: seq<Trailer>)
    requires Legal(cfg, chunks, zero, lines, trailers)
    ensures BodyOf(Some(cfg), Wire(chunks, zero, lines)) == Some((DataOf(chunks), trailers))
  {
    LegalAccepted(cfg, chunks, zero, lines, trailers);
  }

  /** The body is within the limits of the place it goes to. */
  predicate FitsSink(service: Service, sink: Sink, size: nat) {
    match sink
    case DirectPut(_, maxBody, _) => size <= maxBody
    case Buffered(_) => size <= service.maxControlBody
    case Staged(_, _, chunkBytes, _, _, _) => size < chunkBytes * I32_MAX
  }

  /** Everything declared about the body, in the request or in its trailers, is true of it. */
  predicate DigestsPass(
    hashes: Hashes, payload: Payload, tracked: set<Algorithm>, requested: Declared, body: bytes, trailers: seq<Trailer>)
  {
    var all := ApplyTrailers(hashes, requested, trailers);
    all.Applied? && VerifyDigests(hashes, payload, tracked, all.declared, body).None?
  }

  /** The entity is one that the session is sure to publish. Only what a session is opened with
      matters. */
  ghost predicate Deliverable(service: Service, s: Session, entity: bytes) {
    && (s.encoding.Some? ==> CutSafe(s.encoding.value))
    && |entity| <= U64_MAX && (s.expectedWire.Some? ==> |entity| == s.expectedWire.value)
    && BodyOf(s.encoding, entity).Some?
    && var (body, trailers) := BodyOf(s.encoding, entity).value;
       && |body| <= I64_MAX && |body| <= s.maxDecoded && FitsSink(service, s.origin, |body|)
       && DigestsPass(s.hashes, s.payload, s.tracked, s.requested, body, trailers)
  }

  /** The same of the admission of a head, before there is a session. */
  ghost predicate Wanted(service: Service, head: RequestHead.Head, a: Admission, entity: bytes)
    requires a.Admitted?
  {
    && (a.encoding.Some? ==> CutSafe(a.encoding.value))
    && |entity| <= U64_MAX && (head.contentLength.Some? ==> |entity| == head.contentLength.value)
    && BodyOf(a.encoding, entity).Some?
    && var (body, trailers) := BodyOf(a.encoding, entity).value;
       && |body| <= I64_MAX && |body| <= service.maxObjectBytes
       && (a.operation.ControlOperation? ==> |body| <= service.maxControlBody)
       && (service.Staging(head, a) ==> |body| < service.stagingChunkBytes * I32_MAX)
       && DigestsPass(service.hashes, a.payload, a.tracked, a.declared, body, trailers)
  }

  lemma WantedDeliverable(service: Service, head: RequestHead.Head, a: Admission, s: Session, entity: bytes)
    requires service.Carries(head, a, s) && Wanted(service, head, a, entity)
    ensures Deliverable(service, s, entity)
  {
  }

  // ----- every fragment fits

  /** What a live session has absorbed of a deliverable entity is a prefix of the body. */
  lemma AbsorbedPrefix(service: Service, s: Session, entity: bytes)
    requires s.Live() && Deliverable(service, s, entity) && Flatten(s.fragments) <= entity
    ensures |s.absorbed| <= |BodyOf(s.encoding, entity).value.0|
    ensures Flatten(s.fragments) == entity ==>
              && s.absorbed == BodyOf(s.encoding, entity).value.0
              && (s.encoding.Some? ==>
                    s.decoder.value.phase.Done? && s.decoder.value.trailers == BodyOf(s.encoding, entity).value.1)
  {
    if s.encoding.Some? {
      var rest := entity[|Flatten(s.fragments)|..];
      assert entity == Flatten(s.fragments) + rest;
      FedOnTrack(s.encoding.value, s.fragments, rest);
    }
  }

  /** The next fragment of a deliverable entity decodes, to no more than the body. */
  lemma NextDecodes(service: Service, s: Session, entity: bytes, data: bytes)
    requires s.Live() && Deliverable(service, s, entity) && Flatten(s.fragments) + data <= entity
    ensures !service.Undecodable(s, data) && 0 <= service.DecodedSize(s, data)
    ensures |s.absorbed| + service.DecodedSize(s, data) <= |BodyOf(s.encoding, entity).value.0|
  {
    if s.encoding.Some? {
      var (cfg, st) := (s.encoding.value, s.decoder.value);
      var rest := entity[|Flatten(s.fragments) + data|..];
      FlattenSnoc(s.fragments, data);
      assert entity == Flatten(s.fragments + [data]) + rest;
      FedOnTrack(cfg, s.fragments + [data], rest);
      FeedSnoc(cfg, Begin(cfg), s.fragments, data);
      PushReleases(cfg, st, data);
    }
  }

  lemma NextFits(service: Service, s: Session, entity: bytes, data: bytes)
    requires s.Live() && Deliverable(service, s, entity) && Flatten(s.fragments) + data <= entity
    ensures service.Fits(s, data)
  {
    NextDecodes(service, s, entity, data);
  }

  /** A deliverable entity that was received whole passes every check. */
  lemma WholePasses(service: Service, s: Session, entity: bytes)
    requires s.Live() && Deliverable(service, s, entity) && Flatten(s.fragments) == entity
    ensures service.Passes(s)
  {
    AbsorbedPrefix(service, s, entity);
  }

  // ----- a session from its first fragment to its end

  /** An entity the session can deliver is delivered, however it is cut, when the database obliges. */
  method DeliverAll(service: Service, s: Session, fragments: seq<bytes>, leases: nat -> bool)
    returns (failure: Option<Failure>)
    requires s.Live() && s.fragments == [] && service.Obliging() && Deliverable(service, s, Flatten(fragments))
    modifies service`made, s
    ensures failure.None? && Delivered(s) && s.fragments == fragments
  {
    for i := 0 to |fragments|
      invariant s.Live() && s.fragments == fragments[..i]
    {
      assert fragments[..i + 1] == fragments[..i] + [fragments[i]];
      assert fragments == fragments[..i + 1] + fragments[i + 1..];
      FlattenSnoc(fragments[..i], fragments[i]);
      FlattenAppend(fragments[..i + 1], fragments[i + 1..]);
      NextFits(service, s, Flatten(fragments), fragments[i]);
      failure := service.PushBody(s, fragments[i], leases(i));
    }
    assert fragments[..|fragments|] == fragments;
    WholePasses(service, s, Flatten(fragments));
    failure := service.FinishBody(s);
  }
}
