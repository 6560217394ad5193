/** From the bytes on the connection to the chunks in the database, through every layer at once. */
module EndToEnd {
  import opened Bytes
  import opened ChunkFraming
  import opened UploadService
  import opened HttpExchange
  import UploadSession
  import UploadDelivery
  import RequestHead
  import BodyFraming
  import HttpChunked
  import Http = HttpChunkedWire
  import Aws = AwsChunkedWire

  /** The bytes are this chunked encoding of the entity and a suffix. */
  ghost predicate Spells(
    wire: bytes, entity: bytes, chunks: seq<WireChunk>, zero: bytes, lines: seq<bytes>, suffix: bytes)
  {
    Http.Legal(chunks, zero, lines) && wire == Wire(chunks, zero, lines) + suffix && entity == DataOf(chunks)
  }

  /** The entity is what the framing of the head delimits in the body bytes: the data of a legal
      chunked encoding, the declared number of bytes, or nothing. */
  ghost predicate Framed(start: BodyFraming.Framing, wire: bytes, entity: bytes) {
    match start
    case NoBody => entity == []
    case Fixed(n) => |entity| == n && entity <= wire
    case Chunked(_) => exists chunks, zero, lines, suffix :: Spells(wire, entity, chunks, zero, lines, suffix)
  }

  lemma ChunkedEntity(wire: bytes)
    requires var r := HttpChunked.Push(HttpChunked.START, wire); r.Pushed? && r.decoder.state.Complete?
    ensures Framed(BodyFraming.Chunked(HttpChunked.START), wire, HttpChunked.Push(HttpChunked.START, wire).entity)
  {
    var chunks, zero, lines, suffix := Http.CompleteLegal(wire);
    Http.RoundTrip(chunks, zero, lines, suffix);
    assert Spells(wire, HttpChunked.Push(HttpChunked.START, wire).entity, chunks, zero, lines, suffix);
  }

  lemma WholeEntity(start: BodyFraming.Framing, wire: bytes, entity: bytes)
    requires BodyFraming.Initial(start) && FramedTo(start, wire, entity, true)
    ensures Framed(start, wire, entity)
  {
    if start.Chunked? {
      ChunkedEntity(wire);
    }
  }

  /** And the other way round: what the head delimits is framed to it, and the body is complete. */
  lemma EntityFramed(start: BodyFraming.Framing, wire: bytes, entity: bytes)
    requires BodyFraming.Initial(start) && Framed(start, wire, entity)
    ensures FramedTo(start, wire, entity, true)
  {
    if start.Chunked? {
      var chunks, zero, lines, suffix :| Spells(wire, entity, chunks, zero, lines, suffix);
      Http.RoundTrip(chunks, zero, lines, suffix);
    } else if start.Fixed? {
      assert wire[..|entity|] == entity;
    }
  }

  /** Bytes behind the framed ones change nothing. */
  lemma FramedLonger(start: BodyFraming.Framing, wire: bytes, rest: bytes, entity: bytes)
    requires Framed(start, wire, entity) && wire <= rest
    ensures Framed(start, rest, entity)
  {
    if start.Chunked? {
      var chunks, zero, lines, suffix :| Spells(wire, entity, chunks, zero, lines, suffix);
      SpellsLonger(wire, rest, entity, chunks, zero, lines, suffix);
    }
  }

  lemma SpellsLonger(
    wire: bytes, rest: bytes, entity: bytes, chunks: seq<WireChunk>, zero: bytes, lines: seq<bytes>, suffix: bytes)
    requires Spells(wire, entity, chunks, zero, lines, suffix) && wire <= rest
    ensures Spells(rest, entity, chunks, zero, lines, suffix + rest[|wire|..])
  {
    assert rest == wire + rest[|wire|..];
    Assoc(Wire(chunks, zero, lines), suffix, rest[|wire|..]);
  }

  /** The body that was stored, from the entity: the entity itself, or the data of the legal
      aws-chunked stream that the entity is, whose trailers are true of the body. */
  ghost predicate Decoded(s: Session, entity: bytes, body: bytes) {
    match s.encoding
    case None => body == entity
    case Some(cfg) =>
      exists chunks, zero, lines, trailers ::
        Aws.Legal(cfg, chunks, zero, lines, trailers) && entity == Wire(chunks, zero, lines)
        && body == DataOf(chunks) && UploadSession.TrailersHold(s.hashes, trailers, body)
  }

  /** The session published this body, cut into chunks of its configured size and for its part, and
      the body has every digest the request declared. */
  ghost predicate Stored(s: Session, body: bytes)
    reads s
  {
    && UploadSession.DigestsHold(s.hashes, s.payload, s.requested, body)
    && UploadSession.SameTarget(s.origin, s.sink)
    && s.calls != []
    && var last := s.calls[|s.calls| - 1];
       && last.ok
       && UploadSession.Describes(s.hashes, s.declared, s.sink, body, s.calls[..|s.calls| - 1], last.call)
  }

  /** When a request has been answered and its body delivered, the body bytes frame an entity of the
      declared length, the entity decodes to a body that every declared digest is true of, and the
      one publish call, with the chunks stored before it, describes exactly that body. */
  lemma Delivery(e: Exchange)
    requires e.Inv() && e.phase.Responding? && e.session != null && Delivered(e.session)
    ensures var s := e.session;
            && Framed(e.taken.start, e.taken.wire, Flatten(s.fragments))
            && (s.expectedWire.Some? ==> |Flatten(s.fragments)| == s.expectedWire.value)
            && Decoded(s, Flatten(s.fragments), s.absorbed)
            && Stored(s, s.absorbed)
  {
    CycleExactlyOnce(e);
    WholeEntity(e.taken.start, e.taken.wire, Flatten(e.session.fragments));
    DeliveredAuthentic(e.session);
  }

  /** From the bytes received to the body stored: they begin with this head; what follows is framed
      as the head says, to an entity; the entity decodes to the body under the admission of the head;
      and that body was published. */
  ghost predicate Uploaded(
    service: Service, n: nat, reading: RequestHead.Reading, s: Session)
    reads s
  {
    && reading.Complete?
    && var head := reading.head;
       && service.Carries(head, service.admit(n, head), s)
       && FramingOf(head).Some?
       && Framed(FramingOf(head).value, reading.remainder, Flatten(s.fragments))
       && (head.contentLength.Some? ==> |Flatten(s.fragments)| == head.contentLength.value)
       && Decoded(s, Flatten(s.fragments), s.absorbed)
       && Stored(s, s.absorbed)
  }

  /** A request that cannot fail: its head is acceptable and opens a session, its body is framed as the
      head says to an entity that decodes to a body within the limits with the declared digests, and
      the database obliges. */
  ghost predicate Faultless(
    service: Service, n: nat, expects: RequestHead.Head -> Option<bool>, reading: RequestHead.Reading, entity: bytes)
  {
    && reading.Complete? && expects(reading.head).Some? && FramingOf(reading.head).Some?
    && service.Obliging() && service.Opens(n, reading.head)
    && Framed(FramingOf(reading.head).value, reading.remainder, entity)
    && UploadDelivery.Wanted(service, reading.head, service.admit(n, reading.head), entity)
  }

  lemma FaultlessDelivered(
    e: Exchange, service: Service, before: seq<RequestHead.Head>, n: nat, inputs: seq<Input>, entity: bytes)
    requires Through(e, service, before, n, inputs, Behind(e.read(Received(inputs)))) && OnlyBytes(inputs)
    requires Faultless(service, n, e.expects, e.read(Received(inputs)), entity)
    requires e.session != null ==> e.taken.head.Some? && FramingOf(e.taken.head.value) == Some(e.taken.start)
    ensures e.phase.Responding? && e.session != null && Delivered(e.session)
    ensures e.queued == [service.respond(None)] && e.status == Some(e.StatusOf(service.respond(None)))
  {
    var reading := e.read(Received(inputs));
    var (head, whole) := (reading.head, reading.remainder);
    HandedOver(e, service, before, n, inputs, whole);
    UploadDelivery.WantedDeliverable(service, head, service.admit(n, head), e.session, entity);
    EntityFramed(e.taken.start, whole, entity);
    assert Promised(service, e.session, e.taken.start, whole);
    assert e.phase.Responding?;
    SuccessIsDelivery(e);
  }

  /** Any request on a connection, however its bytes arrive and whatever the database does. The service
      is asked about at most one head, the one that the bytes received begin with. If the cycle is
      answered, the response is the one its reason calls for, and a session has ended exactly once;
      success is reported exactly when the body was delivered. If anything was published, that is the
      body that the bytes received spell. And a request that cannot fail is delivered. */
  method RunRequest(e: Exchange, service: Service, limits: RequestHead.Limits, inputs: seq<Input>)
    requires e.Inv() && e.phase == AwaitingHead([]) && service.stagingChunkBytes > 0
    requires forall b :: e.read(b) == RequestHead.Read(b, limits)
    modifies e, service`made, service`handled, service`begun
    ensures service.handled == old(service.handled) + Handled(e.taken.head)
    ensures e.taken.head.Some? ==>
              RequestHead.Read(Received(inputs), limits).Complete?
              && RequestHead.Read(Received(inputs), limits).head == e.taken.head.value
    ensures e.phase.Responding? ==>
              && e.cause.Some? && e.queued == [Said(service.respond, e.cause.value)]
              && e.status == Some(e.StatusOf(e.queued[0]))
    ensures e.phase.Responding? && e.session != null ==>
              && (Delivered(e.session) || Discarded(e.session))
              && (e.cause == Some(BodyEnded(None)) <==> Delivered(e.session))
    ensures e.session != null && e.phase.Responding? && Delivered(e.session) ==>
              Uploaded(service, old(service.made), RequestHead.Read(Received(inputs), limits), e.session)
    ensures var reading := RequestHead.Read(Received(inputs), limits);
            forall entity :: OnlyBytes(inputs) && Faultless(service, old(service.made), e.expects, reading, entity) ==>
              e.phase.Responding? && e.session != null && Delivered(e.session) && e.queued == [service.respond(None)]
  {
    ghost var n := service.made;
    RunCycle(e, service, inputs);
    if e.phase.Responding? && e.session != null {
      CycleExactlyOnce(e);
      SuccessIsDelivery(e);
      if Delivered(e.session) {
        Delivery(e);
        FramedLonger(e.taken.start, e.taken.wire, e.read(Received(inputs)).remainder, Flatten(e.session.fragments));
      }
    }
    forall entity | OnlyBytes(inputs) && Faultless(service, n, e.expects, e.read(Received(inputs)), entity)
      ensures e.phase.Responding? && e.session != null && Delivered(e.session) && e.queued == [service.respond(None)]
    {
      FaultlessDelivered(e, service, old(service.handled), n, inputs, entity);
    }
  }
}
