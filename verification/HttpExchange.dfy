/** One request and its response on a connection (src/workers/http.rs): the exchange reads a head,
    hands the framed body to the service and queues one response. */
module HttpExchange {
  import opened Bytes
  import opened UploadSession
  import opened UploadService
  import opened UploadDelivery
  import BodyFraming
  import opened UploadTrace
  import HttpChunked
  import RequestHead

  /** A body is being received by a session, or not. The head parser is represented by the bytes it
      has received. */
  datatype Phase =
    | AwaitingHead(received: bytes)
    | ReceivingBody(session: Session, framing: BodyFraming.Framing)
    | Responding
    | Closed

  /** What the exchange does before it answers, in order. */
  datatype Event =
    | HeadHandled
    | BodyPushed(data: bytes)
    | PushRefused(data: bytes)
    | BodyFinished
    | BodyAborted

  // ----- the language of traces

  predicate IsExit(e: Event) {
    e.PushRefused? || e.BodyFinished? || e.BodyAborted?
  }

  predicate IsHead(e: Event) { e.HeadHandled? }

  /** A handled head and pushes. */
  predicate Receiving(trace: seq<Event>) {
    trace != [] && (if |trace| == 1 then trace[0] == HeadHandled
                    else trace[|trace| - 1].BodyPushed? && Receiving(trace[..|trace| - 1]))
  }

  /** Before the response: nothing, an immediate answer, or a body left by exactly one exit. */
  predicate Ready(trace: seq<Event>) {
    || trace == []
    || trace == [HeadHandled]
    || (|trace| > 1 && IsExit(trace[|trace| - 1]) && Receiving(trace[..|trace| - 1]))
  }

  /** The bytes handed to the service, a refused push included. */
  function Handed(trace: seq<Event>): bytes {
    if trace == [] then []
    else
      var (front, last) := (trace[..|trace| - 1], trace[|trace| - 1]);
      if last.BodyPushed? || last.PushRefused? then Handed(front) + last.data else Handed(front)
  }

  function Count(trace: seq<Event>, p: Event -> bool): nat {
    if trace == [] then 0
    else Count(trace[..|trace| - 1], p) + if p(trace[|trace| - 1]) then 1 else 0
  }

  lemma {:induction false} ReceivingCounts(trace: seq<Event>)
    requires Receiving(trace)
    ensures Count(trace, IsHead) == 1 && Count(trace, IsExit) == 0
  {
    var front := trace[..|trace| - 1];
    if |trace| == 1 {
      assert front == [];
    } else {
      ReceivingCounts(front);
    }
  }

  /** At most one handled head, and exactly one exit from a body that was begun. */
  lemma ReadyCounts(trace: seq<Event>)
    requires Ready(trace)
    ensures Count(trace, IsHead) == if trace == [] then 0 else 1
    ensures Count(trace, IsExit) == if |trace| > 1 then 1 else 0
  {
    if trace == [HeadHandled] {
      ReceivingCounts(trace);
    } else if trace != [] {
      ReceivingCounts(trace[..|trace| - 1]);
    }
  }

  lemma TraceAdded(trace: seq<Event>, e: Event)
    ensures (trace + [e])[..|trace + [e]| - 1] == trace && (trace + [e])[|trace + [e]| - 1] == e
    ensures Handed(trace + [e]) == if e.BodyPushed? || e.PushRefused? then Handed(trace) + e.data else Handed(trace)
  {
    assert (trace + [e])[..|trace|] == trace;
  }

  lemma PushAdded(trace: seq<Event>, data: bytes)
    requires Receiving(trace)
    ensures Receiving(trace + [BodyPushed(data)]) && Handed(trace + [BodyPushed(data)]) == Handed(trace) + data
  {
    TraceAdded(trace, BodyPushed(data));
  }

  lemma ExitAdded(trace: seq<Event>, e: Event)
    requires Receiving(trace) && IsExit(e)
    ensures Ready(trace + [e])
    ensures Handed(trace + [e]) == if e.PushRefused? then Handed(trace) + e.data else Handed(trace)
  {
    TraceAdded(trace, e);
  }

  /** How a cycle with a session ended. */
  ghost predicate Ended(trace: seq<Event>, s: Session, start: BodyFraming.Framing, wire: bytes)
    reads s
  {
    && Ready(trace) && |trace| > 1 && BodyFraming.Initial(start)
    && var exit := trace[|trace| - 1];
       match exit
       case BodyFinished =>
         && FramedTo(start, wire, Handed(trace), true)
         && Flatten(s.fragments) == Handed(trace)
         && (Delivered(s) || Discarded(s))
       case PushRefused(_) => FramedTo(start, wire, Handed(trace), false) && Discarded(s)
       case _ => FramedTo(start, wire, Handed(trace), false) && Discarded(s)
  }

  lemma AbortEnds(trace: seq<Event>, s: Session, start: BodyFraming.Framing, wire: bytes)
    requires Receiving(trace) && Discarded(s)
    requires BodyFraming.Initial(start) && FramedTo(start, wire, Handed(trace), false)
    ensures Ended(trace + [BodyAborted], s, start, wire)
  {
    ExitAdded(trace, BodyAborted);
  }

  lemma FinishEnds(trace: seq<Event>, s: Session, start: BodyFraming.Framing, wire: bytes)
    requires Receiving(trace) && BodyFraming.Initial(start) && FramedTo(start, wire, Handed(trace), true)
    requires Flatten(s.fragments) == Handed(trace) && (Delivered(s) || Discarded(s))
    ensures Ended(trace + [BodyFinished], s, start, wire)
  {
    ExitAdded(trace, BodyFinished);
  }

  /** These are the entity bytes framed by the wire bytes so far; `whole` when the body is complete. */
  predicate FramedTo(start: BodyFraming.Framing, wire: bytes, entity: bytes, whole: bool) {
    var p := BodyFraming.Push(start, wire);
    p.Progress? && p.entity == entity && (whole ==> BodyFraming.IsComplete(p.framing))
  }

  /** Bytes were left behind the end of the body. */
  predicate Surplus(start: BodyFraming.Framing, wire: bytes) {
    var p := BodyFraming.Push(start, wire);
    p.Progress? && p.consumed < |wire|
  }

  function FramingOf(head: RequestHead.Head): Option<BodyFraming.Framing> {
    BodyFraming.FromHead(head.contentLength, head.chunked)
  }

  /** The heads a cycle hands to the service. */
  function Handled(head: Option<RequestHead.Head>): seq<RequestHead.Head> {
    if head.Some? then [head.value] else []
  }

  function Only(s: Session?): set<Session> {
    if s != null then {s} else {}
  }

  /** A verdict on the head stands: more bytes only join what follows it. */
  ghost predicate Stands(read: bytes -> RequestHead.Reading) {
    && read([]).Incomplete?
    && forall a: bytes, b: bytes {:trigger read(a + b)} :: ReadOn(read(a), b, read(a + b))
  }

  predicate ReadOn(before: RequestHead.Reading, more: bytes, after: RequestHead.Reading) {
    match before
    case Incomplete => true
    case Malformed(error) => after == RequestHead.Malformed(error)
    case Complete(head, remainder) => after == RequestHead.Complete(head, remainder + more)
  }

  lemma ReadStands(read: bytes -> RequestHead.Reading, limits: RequestHead.Limits)
    requires forall b :: read(b) == RequestHead.Read(b, limits)
    ensures Stands(read)
  {
    forall a: bytes, b: bytes ensures ReadOn(read(a), b, read(a + b)) {
      RequestHead.ReadExtends(a, b, limits);
    }
  }

  /** What a cycle took from its connection: all the bytes, the head in them once it is handled, the
      framing of the body and the body bytes framed so far. */
  datatype Taken = Taken(arrived: bytes, head: Option<RequestHead.Head>, start: BodyFraming.Framing, wire: bytes)

  /** The body bytes stand behind a head read from the connection and are framed as the head says;
      bytes behind the body, or the wish of the head, close the connection. */
  ghost predicate Placed(
    read: bytes -> RequestHead.Reading, wantsClose: RequestHead.Head -> bool, k: Taken, close: bool)
  {
    && k.head.Some? && FramingOf(k.head.value) == Some(k.start)
    && read(k.arrived).Complete? && read(k.arrived).head == k.head.value && k.wire <= read(k.arrived).remainder
    && (Surplus(k.start, k.wire) || wantsClose(k.head.value) ==> close)
  }

  /** A cycle that only has its response to write: with or without a handled head, and with or
      without a session. */
  ghost predicate Over(
    read: bytes -> RequestHead.Reading, wantsClose: RequestHead.Head -> bool, k: Taken, close: bool,
    before: seq<Event>, s: Session?)
    reads s
  {
    && Ready(before)
    && (k.head.Some? <==> before != [])
    && (k.head.Some? ==> read(k.arrived).Complete? && read(k.arrived).head == k.head.value)
    && (s != null <==> |before| > 1)
    && (s != null ==> Ended(before, s, k.start, k.wire) && Placed(read, wantsClose, k, close))
  }

  lemma OverCloses(
    read: bytes -> RequestHead.Reading, wantsClose: RequestHead.Head -> bool, k: Taken, close: bool,
    before: seq<Event>, s: Session?)
    requires Over(read, wantsClose, k, close, before, s)
    ensures Over(read, wantsClose, k, true, before, s)
  {
  }

  /** What a fragment of the body adds to the trace: its entity bytes are pushed, or refused, and a
      complete body is finished. */
  predicate Continues(before: seq<Event>, entity: bytes, complete: bool, after: seq<Event>) {
    var pushed := if entity == [] then before else before + [BodyPushed(entity)];
    || (entity != [] && after == before + [PushRefused(entity)])
    || after == (if complete then pushed + [BodyFinished] else pushed)
  }

  function FramingResponse(error: HttpChunked.Error): Response {
    Response(if error.EntityTooLarge? then 413 else 400, false)
  }

  // ----- the response and its reason

  /** Why a cycle is answered. */
  datatype Cause =
    | MalformedHead
    | BadExpectation
    | LengthTooLarge
    | AnsweredAtOnce(response: Response)
    | BrokenFraming(error: HttpChunked.Error)
    | PushFailed(reason: Failure)
    | BodyEnded(failure: Option<Failure>)
    | PeerGone
    | TooIdle

  /** The response each of them calls for. */
  function Said(respond: Option<Failure> -> Response, c: Cause): Response {
    match c
    case MalformedHead => Response(400, false)
    case BadExpectation => Response(417, false)
    case LengthTooLarge => FramingResponse(HttpChunked.EntityTooLarge)
    case AnsweredAtOnce(response) => response
    case BrokenFraming(error) => FramingResponse(error)
    case PushFailed(reason) => respond(Some(reason))
    case BodyEnded(failure) => respond(failure)
    case PeerGone => Response(400, false)
    case TooIdle => Response(408, false)
  }

  predicate LeftBy(before: seq<Event>, exit: Event) {
    |before| > 1 && before[|before| - 1] == exit
  }

  /** Whether the bytes that arrived, the head in them and the events so far bear the reason out. In
      particular a head that is complete and acceptable was handed to the service, and success is
      reported exactly for a body that was delivered. */
  ghost predicate Explains(
    c: Cause, read: bytes -> RequestHead.Reading, expects: RequestHead.Head -> Option<bool>, k: Taken,
    before: seq<Event>, s: Session?)
    reads s
  {
    var reading := read(k.arrived);
    match c
    case MalformedHead => before == [] && reading.Malformed?
    case BadExpectation => before == [] && reading.Complete? && expects(reading.head).None?
    case LengthTooLarge =>
      before == [] && reading.Complete? && expects(reading.head).Some? && FramingOf(reading.head).None?
    case AnsweredAtOnce(_) => before == [HeadHandled]
    case BrokenFraming(error) =>
      && LeftBy(before, BodyAborted) && reading.Complete?
      && BodyFraming.Push(k.start, reading.remainder) == BodyFraming.Broken(error)
    case PushFailed(reason) =>
      |before| > 1 && before[|before| - 1].PushRefused? && s != null && s.reply == Some(reason)
    case BodyEnded(failure) =>
      LeftBy(before, BodyFinished) && s != null && s.reply == failure && (failure.None? <==> Delivered(s))
    case PeerGone => (before == [] && reading.Incomplete?) || LeftBy(before, BodyAborted)
    case TooIdle => (before == [] && reading.Incomplete?) || LeftBy(before, BodyAborted)
  }

  // ----- a promise of delivery

  /** The whole body is framed to an entity that the session is sure to deliver, and the database
      obliges. */
  ghost predicate Promised(service: Service, s: Session, start: BodyFraming.Framing, whole: bytes) {
    && service.Obliging() && FramedTo(start, whole, BodyFraming.Entity(start, whole), true)
    && Deliverable(service, s, BodyFraming.Entity(start, whole))
  }

  /** While the body arrives, every fragment of it is framed and fits. */
  lemma PromisedFits(service: Service, s: Session, start: BodyFraming.Framing, wire: bytes, more: bytes, whole: bytes)
    requires s.Live() && Promised(service, s, start, whole) && wire + more <= whole
    requires FramedTo(start, wire, Flatten(s.fragments), false)
    ensures var p := BodyFraming.Push(BodyFraming.Push(start, wire).framing, more);
            p.Progress? && service.Fits(s, p.entity)
  {
    BodyFraming.PushMore(start, wire, more);
    BodyFraming.EntityPrefix(start, wire + more, whole);
    var p := BodyFraming.Push(BodyFraming.Push(start, wire).framing, more);
    NextFits(service, s, BodyFraming.Entity(start, whole), p.entity);
  }

  lemma PromisedPasses(service: Service, s: Session, start: BodyFraming.Framing, wire: bytes, whole: bytes)
    requires s.Live() && Promised(service, s, start, whole) && wire <= whole
    requires FramedTo(start, wire, Flatten(s.fragments), true)
    ensures service.Passes(s)
  {
    BodyFraming.EntityPrefix(start, wire, whole);
    WholePasses(service, s, BodyFraming.Entity(start, whole));
  }

  class Exchange {
    /** Whether a response can be written out. */
    const serializes: Response -> bool
    /** The head asks to close the connection, and its expectation, if it is a legal one. */
    const wantsClose: RequestHead.Head -> bool
    const expects: RequestHead.Head -> Option<bool>
    /** What the head parser makes of the bytes received. */
    const read: bytes -> RequestHead.Reading
    var phase: Phase
    var status: Option<nat>
    var sendContinue: bool
    var closeAfterResponse: bool
    ghost var trace: seq<Event>
    /** Every response queued in this cycle, and why. */
    ghost var queued: seq<Response>
    ghost var cause: Option<Cause>
    ghost var taken: Taken
    /** The session of this cycle. */
    ghost var session: Session?

    ghost predicate Inv()
      reads this, session
    {
      && Stands(read)
      && match phase
         case AwaitingHead(received) =>
           && trace == [] && queued == [] && session == null && status == None
           && taken.head == None && taken.arrived == received && read(received).Incomplete?
         case ReceivingBody(s, f) =>
           && session == s && BodyInv(s, f) && Placed(read, wantsClose, taken, closeAfterResponse)
           && read(taken.arrived).remainder == taken.wire && !BodyFraming.IsComplete(f)
         case Responding =>
           && cause.Some? && |queued| == 1 && status == Some(StatusOf(queued[0]))
           && Over(read, wantsClose, taken, closeAfterResponse, trace, session)
           && Explains(cause.value, read, expects, taken, trace, session)
         case Closed => true
    }

    ghost predicate BodyInv(s: Session, f: BodyFraming.Framing)
      reads this, s
    {
      && status == None && queued == [] && BodyFraming.Initial(taken.start)
      && s.Live()
      && Receiving(trace)
      && Flatten(s.fragments) == Handed(trace)
      && var p := BodyFraming.Push(taken.start, taken.wire);
         p.Progress? && p.framing == f && p.entity == Handed(trace)
    }

    /** A response that cannot be written becomes a 500. */
    function StatusOf(r: Response): nat {
      if serializes(r) then r.status else 500
    }

    /** An answered cycle has queued the response its reason calls for. */
    ghost predicate Answers(service: Service)
      reads this
    {
      phase.Responding? ==> cause.Some? && queued == [Said(service.respond, cause.value)]
    }

    /** Enters the response phase. */
    method Record(r: Response, ghost c: Cause)
      requires Stands(read) && Over(read, wantsClose, taken, closeAfterResponse, trace, session) && queued == []
      requires Explains(c, read, expects, taken, trace, session)
      modifies `status, `phase, `queued, `cause
      ensures Inv() && phase.Responding? && queued == [r] && cause == Some(c)
    {
      status, phase, queued, cause := Some(StatusOf(r)), Responding, queued + [r], Some(c);
    }

    /** The one way into the response phase; a response that cannot be written closes the
        connection. */
    method QueueResponse(r: Response, ghost c: Cause)
      requires Stands(read) && Over(read, wantsClose, taken, closeAfterResponse, trace, session) && queued == []
      requires Explains(c, read, expects, taken, trace, session)
      modifies `status, `phase, `queued, `cause, `closeAfterResponse
      ensures Inv() && phase.Responding? && queued == [r] && cause == Some(c) && status == Some(StatusOf(r))
      ensures closeAfterResponse == (old(closeAfterResponse) || r.status >= 400 || r.close || !serializes(r))
    {
      OverCloses(read, wantsClose, taken, closeAfterResponse, trace, session);
      closeAfterResponse := closeAfterResponse || r.status >= 400 || r.close;
      if !serializes(r) {
        closeAfterResponse := true;
      }
      Record(r, c);
    }

    /** Leaves the body by giving it up. */
    method AbortSession(service: Service)
      requires phase.ReceivingBody? && session == phase.session && BodyInv(phase.session, phase.framing)
      requires Placed(read, wantsClose, taken, closeAfterResponse)
      modifies `trace, service`made, session
      ensures trace == old(trace) + [BodyAborted] && queued == []
      ensures Over(read, wantsClose, taken, closeAfterResponse, trace, session)
    {
      var s := phase.session;
      service.AbortBody(s);
      AbortEnds(trace, s, taken.start, taken.wire);
      trace := trace + [BodyAborted];
    }

    /** Gives the body up and answers. */
    method GiveUp(service: Service, r: Response, ghost c: Cause)
      requires phase.ReceivingBody? && session == phase.session && BodyInv(phase.session, phase.framing)
      requires Stands(read) && Placed(read, wantsClose, taken, closeAfterResponse)
      requires Explains(c, read, expects, taken, trace + [BodyAborted], null)
      modifies `trace, `queued, `cause, `status, `phase, `closeAfterResponse, service`made, session
      ensures Inv() && phase.Responding? && queued == [r] && cause == Some(c)
      ensures trace == old(trace) + [BodyAborted]
      ensures closeAfterResponse == (old(closeAfterResponse) || r.status >= 400 || r.close || !serializes(r))
    {
      AbortSession(service);
      assert !c.BodyEnded? && !c.PushFailed?;
      QueueResponse(r, c);
    }

    /** Leaves the body by finishing it; the service publishes or discards. */
    method FinishSession(service: Service) returns (r: Response)
      requires phase.ReceivingBody? && session == phase.session && BodyInv(phase.session, phase.framing)
      requires BodyFraming.IsComplete(phase.framing) && Placed(read, wantsClose, taken, closeAfterResponse)
      modifies `trace, service`made, session
      ensures trace == old(trace) + [BodyFinished]
      ensures r == service.respond(session.reply) && (session.reply.None? <==> Delivered(session))
      ensures service.Obliging() && old(service.Passes(phase.session)) ==> Delivered(session)
      ensures Over(read, wantsClose, taken, closeAfterResponse, trace, session)
    {
      var s := phase.session;
      var failure := service.FinishBody(s);
      OverExactlyOnce(s);
      FinishEnds(trace, s, taken.start, taken.wire);
      trace := trace + [BodyFinished];
      r := service.respond(failure);
    }

    method FinishBody(service: Service)
      requires phase.ReceivingBody? && session == phase.session && BodyInv(phase.session, phase.framing)
      requires Stands(read) && BodyFraming.IsComplete(phase.framing)
      requires Placed(read, wantsClose, taken, closeAfterResponse)
      modifies `trace, `queued, `cause, `status, `phase, `closeAfterResponse, service`made, session
      ensures Inv() && phase.Responding? && Answers(service) && (old(closeAfterResponse) ==> closeAfterResponse)
      ensures trace == old(trace) + [BodyFinished]
      ensures service.Obliging() && old(service.Passes(phase.session)) ==> Delivered(session)
    {
      var r := FinishSession(service);
      TraceAdded(old(trace), BodyFinished);
      QueueResponse(r, BodyEnded(session.reply));
    }

    /** Leaves the body because the service refused a push and has discarded the upload. */
    method RefuseSession(data: bytes)
      requires session != null && Receiving(trace) && Discarded(session) && BodyFraming.Initial(taken.start)
      requires FramedTo(taken.start, taken.wire, Handed(trace) + data, false)
      modifies `trace
      ensures trace == old(trace) + [PushRefused(data)] && Ended(trace, session, taken.start, taken.wire)
    {
      ExitAdded(trace, PushRefused(data));
      trace := trace + [PushRefused(data)];
    }

    /** Hands entity bytes to the service. */
    method PushData(service: Service, s: Session, data: bytes, due: bool) returns (refused: Option<Response>)
      requires session == s && s.Live() && Receiving(trace) && Flatten(s.fragments) == Handed(trace)
      requires data != [] && BodyFraming.Initial(taken.start)
      requires FramedTo(taken.start, taken.wire, Handed(trace) + data, false)
      modifies `trace, service`made, s
      ensures refused.None? ==>
                && trace == old(trace) + [BodyPushed(data)] && Receiving(trace)
                && s.Live() && Flatten(s.fragments) == Handed(trace) == old(Handed(trace)) + data
      ensures refused.Some? ==>
                && trace == old(trace) + [PushRefused(data)] && Ended(trace, s, taken.start, taken.wire)
                && s.reply.Some? && refused.value == service.respond(s.reply)
      ensures service.Obliging() && old(service.Fits(s, data)) ==> refused.None?
    {
      var failure := service.PushBody(s, data, due);
      if failure.Some? {
        RefuseSession(data);
        return Some(service.respond(failure));
      }
      FlattenSnoc(old(s.fragments), data);
      PushAdded(trace, data);
      trace := trace + [BodyPushed(data)];
      return None;
    }

    /** Hands entity bytes to the session, which may refuse them and has then discarded the upload. */
    method PushEntity(service: Service, next: BodyFraming.Framing, data: bytes, ghost more: bytes, due: bool)
      returns (refused: Option<Response>)
      requires phase.ReceivingBody? && session == phase.session && BodyInv(phase.session, phase.framing)
      requires BodyFraming.Push(phase.framing, more).Progress?
      requires BodyFraming.Push(phase.framing, more).framing == next
      requires BodyFraming.Push(phase.framing, more).entity == data
      modifies `trace, `taken, `phase, service`made, session
      ensures taken == old(taken).(wire := old(taken).wire + more)
      ensures refused.None? ==> phase == ReceivingBody(old(phase.session), next) && BodyInv(old(phase.session), next)
      ensures refused.None? ==> trace == if data == [] then old(trace) else old(trace) + [BodyPushed(data)]
      ensures refused.Some? ==> data != [] && trace == old(trace) + [PushRefused(data)]
      ensures refused.Some? ==> session.reply.Some? && refused.value == service.respond(session.reply)
      ensures service.Obliging() && old(service.Fits(phase.session, data)) ==> refused.None?
      ensures refused.Some? ==> Ready(trace) && |trace| > 1 && Ended(trace, session, taken.start, taken.wire)
    {
      var s := phase.session;
      BodyFraming.PushMore(taken.start, taken.wire, more);
      taken := taken.(wire := taken.wire + more);
      if data != [] {
        refused := PushData(service, s, data, due);
        if refused.Some? {
          return;
        }
      } else {
        assert Handed(trace) + [] == Handed(trace);
      }
      phase := ReceivingBody(s, next);
      return None;
    }

    /** The same; what was promised is not refused. */
    method PushPromised(service: Service, next: BodyFraming.Framing, data: bytes, ghost more: bytes, due: bool,
                        ghost whole: bytes)
      returns (refused: Option<Response>)
      requires phase.ReceivingBody? && session == phase.session && BodyInv(phase.session, phase.framing)
      requires BodyFraming.Push(phase.framing, more).Progress?
      requires BodyFraming.Push(phase.framing, more).framing == next
      requires BodyFraming.Push(phase.framing, more).entity == data
      modifies `trace, `taken, `phase, service`made, session
      ensures taken == old(taken).(wire := old(taken).wire + more)
      ensures refused.None? ==>
                && phase == ReceivingBody(old(phase.session), next) && BodyInv(old(phase.session), next)
                && trace == if data == [] then old(trace) else old(trace) + [BodyPushed(data)]
      ensures refused.Some? ==>
                && data != [] && trace == old(trace) + [PushRefused(data)] && trace[|trace| - 1].PushRefused?
                && session.reply.Some? && refused.value == service.respond(session.reply)
                && Ended(trace, session, taken.start, taken.wire)
      ensures Promised(service, session, taken.start, whole) && taken.wire <= whole ==> refused.None?
    {
      if Promised(service, session, taken.start, whole) && taken.wire + more <= whole {
        PromisedFits(service, session, taken.start, taken.wire, more, whole);
      }
      refused := PushEntity(service, next, data, more, due);
    }

    /** Answers a push that was refused. */
    method RefuseBody(service: Service, r: Response)
      requires Stands(read) && queued == [] && session != null
      requires session.reply.Some? && r == service.respond(session.reply)
      requires Ended(trace, session, taken.start, taken.wire) && trace[|trace| - 1].PushRefused?
      requires Placed(read, wantsClose, taken, closeAfterResponse)
      modifies `queued, `cause, `phase, `status, `closeAfterResponse
      ensures Inv() && phase.Responding? && Answers(service) && (old(closeAfterResponse) ==> closeAfterResponse)
    {
      QueueResponse(r, PushFailed(session.reply.value));
    }

    /** Finishes a complete body; one that was promised is delivered. */
    method CompleteBody(service: Service, ghost whole: bytes)
      requires phase.ReceivingBody? && session == phase.session && BodyInv(phase.session, phase.framing)
      requires Stands(read) && BodyFraming.IsComplete(phase.framing)
      requires Placed(read, wantsClose, taken, closeAfterResponse)
      modifies `trace, `queued, `cause, `status, `phase, `closeAfterResponse, service`made, session
      ensures Inv() && phase.Responding? && Answers(service) && (old(closeAfterResponse) ==> closeAfterResponse)
      ensures trace == old(trace) + [BodyFinished]
      ensures Promised(service, session, taken.start, whole) && taken.wire <= whole ==> Delivered(session)
    {
      if Promised(service, session, taken.start, whole) && taken.wire <= whole {
        PromisedPasses(service, session, taken.start, taken.wire, whole);
      }
      FinishBody(service);
    }

    /** More of the body is to come. */
    lemma StillReceiving()
      requires phase.ReceivingBody? && session == phase.session && BodyInv(phase.session, phase.framing)
      requires Stands(read) && Placed(read, wantsClose, taken, closeAfterResponse)
      requires read(taken.arrived).remainder == taken.wire && !BodyFraming.IsComplete(phase.framing)
      ensures Inv() && phase.ReceivingBody?
    {
    }

    /** Framed bytes: hand them on, and finish when the body is complete. */
    method TakeEntity(service: Service, next: BodyFraming.Framing, data: bytes, ghost more: bytes, due: bool,
                      ghost whole: bytes)
      requires phase.ReceivingBody? && session == phase.session && BodyInv(phase.session, phase.framing)
      requires BodyFraming.Push(phase.framing, more).Progress?
      requires BodyFraming.Push(phase.framing, more).framing == next
      requires BodyFraming.Push(phase.framing, more).entity == data
      requires Stands(read) && read(taken.arrived).Complete? && read(taken.arrived).remainder == taken.wire + more
      requires Placed(read, wantsClose, taken.(wire := taken.wire + more), closeAfterResponse)
      modifies `trace, `queued, `cause, `taken, `phase, `status, `closeAfterResponse, service`made, session
      ensures Inv() && (phase.ReceivingBody? || phase.Responding?) && Answers(service)
      ensures Continues(old(trace), data, BodyFraming.IsComplete(next), trace)
      ensures taken == old(taken).(wire := old(taken).wire + more) && (old(closeAfterResponse) ==> closeAfterResponse)
      ensures BodyFraming.IsComplete(next) ==> phase.Responding?
      ensures Promised(service, session, taken.start, whole) && taken.wire <= whole ==>
                phase.ReceivingBody? || Delivered(session)
    {
      var refused := PushPromised(service, next, data, more, due, whole);
      if refused.Some? {
        RefuseBody(service, refused.value);
      } else if BodyFraming.IsComplete(next) {
        CompleteBody(service, whole);
      } else {
        StillReceiving();
      }
    }

    /** Body bytes that do not parse: the body is given up. */
    method BreakBody(service: Service, bytes: bytes, error: HttpChunked.Error)
      requires phase.ReceivingBody? && session == phase.session && BodyInv(phase.session, phase.framing)
      requires Stands(read) && Placed(read, wantsClose, taken, closeAfterResponse)
      requires read(taken.arrived).remainder == taken.wire + bytes
      requires BodyFraming.Push(phase.framing, bytes) == BodyFraming.Broken(error)
      modifies `trace, `queued, `cause, `phase, `status, `closeAfterResponse, service`made, session
      ensures Inv() && phase.Responding? && Answers(service) && cause == Some(BrokenFraming(error))
      ensures trace == old(trace) + [BodyAborted] && (old(closeAfterResponse) ==> closeAfterResponse)
      ensures BodyFraming.Push(taken.start, taken.wire + bytes).Broken?
    {
      BodyFraming.PushMore(taken.start, taken.wire, bytes);
      TraceAdded(trace, BodyAborted);
      GiveUp(service, FramingResponse(error), BrokenFraming(error));
    }

    /** Body bytes: unframe them, hand them on, and finish when the body is complete. Whatever follows
        the body closes the connection. */
    method IngestBody(service: Service, bytes: bytes, due: bool, ghost whole: bytes)
      requires phase.ReceivingBody? && session == phase.session && BodyInv(phase.session, phase.framing)
      requires Stands(read) && Placed(read, wantsClose, taken, closeAfterResponse)
      requires read(taken.arrived).remainder == taken.wire + bytes
      modifies `trace, `queued, `cause, `taken, `phase, `status, `closeAfterResponse, service`made, session
      ensures Inv() && (phase.ReceivingBody? || phase.Responding?) && Answers(service)
      ensures old(closeAfterResponse) ==> closeAfterResponse
      ensures match BodyFraming.Push(old(phase.framing), bytes)
              case Broken(error) =>
                && phase.Responding? && taken == old(taken)
                && trace == old(trace) + [BodyAborted] && cause == Some(BrokenFraming(error))
              case Progress(framing, entity, consumed) =>
                && Continues(old(trace), entity, BodyFraming.IsComplete(framing), trace)
                && taken == old(taken).(wire := old(taken).wire + bytes)
                && (consumed < |bytes| ==> closeAfterResponse)
                && (BodyFraming.IsComplete(framing) ==> phase.Responding?)
      ensures Promised(service, session, taken.start, whole) && old(taken).wire + bytes <= whole ==>
                phase.ReceivingBody? || Delivered(session)
    {
      var progress := BodyFraming.Push(phase.framing, bytes);
      if progress.Broken? {
        if Promised(service, session, taken.start, whole) && taken.wire + bytes <= whole {
          PromisedFits(service, session, taken.start, taken.wire, bytes, whole);
          assert false;
        }
        BreakBody(service, bytes, progress.error);
        return;
      }
      if progress.consumed < |bytes| {
        closeAfterResponse := true;
      }
      BodyFraming.PushMore(taken.start, taken.wire, bytes);
      TakeEntity(service, progress.framing, progress.entity, bytes, due, whole);
    }

    constructor (serializes: Response -> bool, wantsClose: RequestHead.Head -> bool,
                 expects: RequestHead.Head -> Option<bool>, limits: RequestHead.Limits)
      ensures Inv() && phase == AwaitingHead([]) && session == null
      ensures forall b :: read(b) == RequestHead.Read(b, limits)
    {
      this.serializes, this.wantsClose, this.expects := serializes, wantsClose, expects;
      this.read := b => RequestHead.Read(b, limits);
      phase, status, sendContinue, closeAfterResponse := AwaitingHead([]), None, false, false;
      trace, queued, cause, taken, session := [], [], None, Taken([], None, BodyFraming.NoBody, []), null;
      new;
      ReadStands(read, limits);
    }

    /** The body phase begins with the framing of the head and nothing handed on. */
    method OpenBody(s: Session, framing: BodyFraming.Framing, ghost h: RequestHead.Head, continue100: bool)
      requires s.Live() && s.fragments == [] && trace == [] && queued == [] && status == None
      requires BodyFraming.Initial(framing)
      modifies `phase, `sendContinue, `session, `taken, `trace
      ensures phase == ReceivingBody(s, framing) && session == s && BodyInv(s, framing) && trace == [HeadHandled]
      ensures taken == Taken(old(taken.arrived), Some(h), framing, []) && !Surplus(framing, [])
      ensures sendContinue == continue100
    {
      phase := ReceivingBody(s, framing);
      sendContinue := continue100;
      session, trace, taken := s, [HeadHandled], Taken(taken.arrived, Some(h), framing, []);
      BodyFraming.PushNothing(framing);
      assert trace[..0] == [];
    }

    /** The body begins with what came with the head; one that is complete with it is finished. */
    method BeginBody(service: Service, s: Session, framing: BodyFraming.Framing, ghost h: RequestHead.Head,
                     remainder: bytes, continue100: bool, due: bool, ghost whole: bytes)
      requires s.Live() && s.fragments == [] && trace == [] && queued == [] && status == None
      requires Stands(read) && read(taken.arrived) == RequestHead.Complete(h, remainder)
      requires FramingOf(h) == Some(framing) && (wantsClose(h) ==> closeAfterResponse)
      modifies `trace, `queued, `cause, `taken, `session, `phase, `status, `sendContinue, `closeAfterResponse
      modifies service`made, s
      ensures Inv() && (phase.ReceivingBody? || phase.Responding?) && session == s && Answers(service)
      ensures taken.arrived == old(taken.arrived) && taken.head == Some(h) && taken.start == framing
      ensures taken.wire == if BodyFraming.Push(framing, remainder).Broken? then [] else remainder
      ensures old(closeAfterResponse) ==> closeAfterResponse
      ensures Promised(service, s, framing, whole) && remainder <= whole ==> phase.ReceivingBody? || Delivered(s)
    {
      OpenBody(s, framing, h, continue100);
      assert [] + remainder == remainder;
      if remainder != [] {
        IngestBody(service, remainder, due, whole);
      }
      if phase.ReceivingBody? && BodyFraming.IsComplete(phase.framing) {
        CompleteBody(service, whole);
      }
    }

    /** An immediate answer cannot share the connection with bytes of an unread body. */
    method AnswerNow(service: Service, r: Response, framing: BodyFraming.Framing, ghost h: RequestHead.Head,
                     remainder: bytes)
      requires trace == [] && queued == [] && session == null
      requires Stands(read) && read(taken.arrived) == RequestHead.Complete(h, remainder)
      modifies `status, `phase, `queued, `cause, `closeAfterResponse, `trace, `taken
      ensures Inv() && phase.Responding? && Answers(service) && cause == Some(AnsweredAtOnce(r))
      ensures taken == old(taken).(head := Some(h))
      ensures old(closeAfterResponse) || !BodyFraming.IsComplete(framing) || remainder != [] ==> closeAfterResponse
    {
      trace, taken := [HeadHandled], taken.(head := Some(h));
      closeAfterResponse := closeAfterResponse || !BodyFraming.IsComplete(framing) || remainder != [];
      QueueResponse(r, AnsweredAtOnce(r));
    }

    /** The head goes to the service, which answers at once or receives the body. */
    method HandOver(service: Service, h: RequestHead.Head, framing: BodyFraming.Framing, remainder: bytes,
                    continue100: bool, due: bool, ghost whole: bytes)
      requires trace == [] && queued == [] && session == null && status == None && taken.head == None
      requires Stands(read) && read(taken.arrived) == RequestHead.Complete(h, remainder)
      requires service.stagingChunkBytes > 0
      requires FramingOf(h) == Some(framing) && (wantsClose(h) ==> closeAfterResponse)
      modifies `trace, `queued, `cause, `taken, `session, `phase, `status, `sendContinue, `closeAfterResponse
      modifies service`made, service`handled, service`begun
      ensures Inv() && (phase.ReceivingBody? || phase.Responding?) && Answers(service)
      ensures taken.head == Some(h) && taken.arrived == old(taken.arrived)
      ensures service.handled == old(service.handled) + [h]
      ensures session != null <==> service.Opens(old(service.made), h)
      ensures service.begun == old(service.begun) + Only(session)
      ensures if session != null then
                && fresh(session) && service.Carries(h, service.admit(old(service.made), h), session)
                && taken.start == framing
                && taken.wire == if BodyFraming.Push(framing, remainder).Broken? then [] else remainder
              else
                && cause == Some(AnsweredAtOnce(service.AtOnce(old(service.made), h)))
                && (!BodyFraming.IsComplete(framing) || remainder != [] ==> closeAfterResponse)
      ensures old(closeAfterResponse) ==> closeAfterResponse
      ensures session != null && Promised(service, session, framing, whole) && remainder <= whole ==>
                phase.ReceivingBody? || Delivered(session)
    {
      var outcome := service.HandleHead(h);
      match outcome {
        case Immediate(r) => AnswerNow(service, r, framing, h, remainder);
        case ReceiveBody(s) => BeginBody(service, s, framing, h, remainder, continue100, due, whole);
      }
    }

    /** A complete head: it goes to the service once, unless its expectation or its length is
        refused. */
    method BeginRequest(service: Service, h: RequestHead.Head, remainder: bytes, due: bool, ghost whole: bytes)
      requires phase.AwaitingHead? && trace == [] && queued == [] && session == null
      requires status == None && taken.head == None
      requires Stands(read) && read(taken.arrived) == RequestHead.Complete(h, remainder)
      requires service.stagingChunkBytes > 0
      modifies `trace, `queued, `cause, `taken, `session, `phase, `status, `sendContinue, `closeAfterResponse
      modifies service`made, service`handled, service`begun
      ensures Inv() && (phase.ReceivingBody? || phase.Responding?) && Answers(service)
      ensures taken.arrived == old(taken.arrived)
      ensures taken.head == if expects(h).Some? && FramingOf(h).Some? then Some(h) else None
      ensures taken.head.None? ==> service.made == old(service.made)
      ensures service.handled == old(service.handled) + Handled(taken.head)
      ensures session != null <==> taken.head.Some? && service.Opens(old(service.made), h)
      ensures service.begun == old(service.begun) + Only(session)
      ensures session != null ==>
                && fresh(session) && service.Carries(h, service.admit(old(service.made), h), session)
                && FramingOf(h) == Some(taken.start)
                && taken.wire == if BodyFraming.Push(taken.start, remainder).Broken? then [] else remainder
      ensures taken.head.Some? && session == null ==>
                && cause == Some(AnsweredAtOnce(service.AtOnce(old(service.made), h)))
                && (!(BodyFraming.IsComplete(FramingOf(h).value) && remainder == []) ==> closeAfterResponse)
      ensures wantsClose(h) ==> closeAfterResponse
      ensures session != null && Promised(service, session, taken.start, whole) && remainder <= whole ==>
                phase.ReceivingBody? || Delivered(session)
    {
      closeAfterResponse := wantsClose(h);
      var expectation := expects(h);
      if expectation.None? {
        QueueResponse(Response(417, false), BadExpectation);
        return;
      }
      var framing := FramingOf(h);
      if framing.None? {
        QueueResponse(FramingResponse(HttpChunked.EntityTooLarge), LengthTooLarge);
        return;
      }
      HandOver(service, h, framing.value, remainder, expectation.value, due, whole);
    }

    /** A promise about the whole body is on, and so far only bytes of it have followed the head. */
    ghost predicate Due(service: Service, whole: bytes)
      requires session != null
      reads this
    {
      Promised(service, session, taken.start, whole) && Within(read(taken.arrived), whole)
    }

    /** Bytes while the head is awaited. */
    method IngestHead(service: Service, bytes: bytes, due: bool, ghost whole: bytes)
      requires phase.AwaitingHead? && Inv() && service.stagingChunkBytes > 0
      modifies this, service`made, service`handled, service`begun
      ensures Inv() && !phase.Closed? && Answers(service) && taken.arrived == old(taken.arrived) + bytes
      ensures taken.head.None? ==> service.made == old(service.made) && session == null
      ensures service.begun == old(service.begun) + Only(session)
      ensures taken.head.None? && phase.Responding? ==> !read(taken.arrived).Incomplete?
      ensures service.handled == old(service.handled) + Handled(taken.head)
      ensures taken.head.Some? ==> Started(service, old(service.made)) && (session != null ==> fresh(session))
      ensures session != null && Due(service, whole) ==> phase.ReceivingBody? || Delivered(session)
    {
      var received := phase.received + bytes;
      taken := taken.(arrived := received);
      match read(received) {
        case Incomplete => phase := AwaitingHead(received);
        case Malformed(_) => QueueResponse(Response(400, false), MalformedHead);
        case Complete(h, remainder) => BeginRequest(service, h, remainder, due, whole);
      }
    }

    /** The head was handed over when the database had been asked n times: a session carries its
        admission, or it was answered at once. */
    ghost predicate Started(service: Service, n: nat)
      reads this
    {
      && taken.head.Some?
      && (session != null <==> service.Opens(n, taken.head.value))
      && (if session != null then service.Carries(taken.head.value, service.admit(n, taken.head.value), session)
          else cause == Some(AnsweredAtOnce(service.AtOnce(n, taken.head.value))))
    }

    /** Bytes while the body is received. */
    method IngestMore(service: Service, bytes: bytes, due: bool, ghost whole: bytes)
      requires phase.ReceivingBody? && Inv()
      modifies `trace, `queued, `cause, `taken, `phase, `status, `closeAfterResponse, service`made, session
      ensures Inv() && !phase.Closed? && !phase.AwaitingHead? && Answers(service)
      ensures taken.arrived == old(taken.arrived) + bytes
      ensures taken.head == old(taken.head) && taken.start == old(taken.start)
      ensures session != null && Due(service, whole) ==> phase.ReceivingBody? || Delivered(session)
    {
      assert ReadOn(read(taken.arrived), bytes, read(taken.arrived + bytes));
      taken := taken.(arrived := taken.arrived + bytes);
      IngestBody(service, bytes, due, whole);
    }

    /** Bytes from the connection. */
    method Ingest(service: Service, bytes: bytes, due: bool, ghost whole: bytes)
      requires Inv() && Answers(service) && service.stagingChunkBytes > 0
      modifies this, service`made, service`handled, service`begun, session
      ensures Inv() && Answers(service) && (phase.Closed? ==> old(phase).Closed?)
      ensures if old(phase).Responding? || old(phase).Closed? then
                phase == old(phase) && Same(old(trace), old(queued), old(cause), old(taken), old(session))
              else
                taken.arrived == old(taken.arrived) + bytes
      ensures if old(phase).AwaitingHead? then
                && service.handled == old(service.handled) + Handled(taken.head)
                && service.begun == old(service.begun) + Only(session)
                && (taken.head.None? ==> service.made == old(service.made) && session == null)
                && (taken.head.None? && phase.Responding? ==> !read(taken.arrived).Incomplete?)
                && (taken.head.Some? ==> Started(service, old(service.made)) && (session != null ==> fresh(session)))
              else
                && service.handled == old(service.handled) && service.begun == old(service.begun)
                && taken.head == old(taken.head) && session == old(session)
      ensures old(phase).Responding? || old(phase).Closed? ==> service.made == old(service.made)
      ensures old(phase).ReceivingBody? ==> taken.start == old(taken.start)
      ensures old(phase).AwaitingHead? || old(phase).ReceivingBody? ==>
                session != null && Due(service, whole) ==> phase.ReceivingBody? || Delivered(session)
    {
      match phase {
        case AwaitingHead(_) => IngestHead(service, bytes, due, whole);
        case ReceivingBody(_, _) =>
          IngestMore(service, bytes, due, whole);
        case Responding =>
        case Closed =>
      }
    }

    ghost predicate Same(
      trace: seq<Event>, queued: seq<Response>, cause: Option<Cause>, taken: Taken, session: Session?)
      reads this
    {
      && this.trace == trace && this.queued == queued && this.cause == cause
      && this.taken == taken && this.session == session
    }

    /** Answers for the connection itself: what is being received is given up. */
    method Interrupt(service: Service, r: Response, ghost c: Cause)
      requires Inv() && Answers(service) && (c.PeerGone? || c.TooIdle?) && r == Said(service.respond, c)
      modifies `trace, `queued, `cause, `phase, `status, `closeAfterResponse, service`made, session
      ensures Inv() && Answers(service)
      ensures old(phase).AwaitingHead? || old(phase).ReceivingBody? ==>
                phase.Responding? && cause == Some(c) && closeAfterResponse && status == Some(StatusOf(r))
      ensures !old(phase).ReceivingBody? ==> service.made == old(service.made)
      ensures old(phase).Responding? || old(phase).Closed? ==>
                phase == old(phase) && Same(old(trace), old(queued), old(cause), taken, session)
    {
      if phase.ReceivingBody? {
        TraceAdded(trace, BodyAborted);
        GiveUp(service, r, c);
      } else if phase.AwaitingHead? {
        QueueResponse(r, c);
      }
    }

    /** The peer closed its side. */
    method Eof(service: Service)
      requires Inv() && Answers(service)
      modifies `trace, `queued, `cause, `phase, `status, `closeAfterResponse, service`made, session
      ensures Inv() && Answers(service)
      ensures old(phase).AwaitingHead? || old(phase).ReceivingBody? ==>
                && phase.Responding? && cause == Some(PeerGone) && closeAfterResponse
                && status == Some(StatusOf(Response(400, false)))
      ensures !old(phase).ReceivingBody? ==> service.made == old(service.made)
      ensures old(phase).Responding? || old(phase).Closed? ==>
                phase == old(phase) && Same(old(trace), old(queued), old(cause), taken, session)
    {
      Interrupt(service, Response(400, false), PeerGone);
    }

    /** Nothing arrived within the idle period. */
    method Timeout(service: Service)
      requires Inv() && Answers(service)
      modifies `trace, `queued, `cause, `phase, `status, `closeAfterResponse, service`made, session
      ensures Inv() && Answers(service)
      ensures old(phase).AwaitingHead? || old(phase).ReceivingBody? ==>
                && phase.Responding? && cause == Some(TooIdle) && closeAfterResponse
                && status == Some(StatusOf(Response(408, false)))
      ensures !old(phase).ReceivingBody? ==> service.made == old(service.made)
      ensures old(phase).Responding? || old(phase).Closed? ==>
                phase == old(phase) && Same(old(trace), old(queued), old(cause), taken, session)
    {
      Interrupt(service, Response(408, false), TooIdle);
    }

    method Close()
      requires Stands(read)
      modifies `phase
      ensures Inv() && phase == Closed
    {
      phase := Closed;
    }

    /** The next cycle starts afresh. */
    method Reset()
      requires Stands(read)
      modifies this
      ensures Inv() && phase == AwaitingHead([]) && trace == [] && session == null && !closeAfterResponse
    {
      phase, status, sendContinue, closeAfterResponse := AwaitingHead([]), None, false, false;
      trace, queued, cause, taken, session := [], [], None, Taken([], None, BodyFraming.NoBody, []), null;
    }
  }

  /** What reaches an exchange from its connection. */
  datatype Input = Arrived(bytes: bytes, leaseDue: bool) | PeerClosed | IdleTooLong

  /** Everything that arrives. */
  function Received(inputs: seq<Input>): bytes {
    if inputs == [] then []
    else Received(inputs[..|inputs| - 1]) + Carried(inputs[|inputs| - 1])
  }

  function Carried(input: Input): bytes {
    if input.Arrived? then input.bytes else []
  }

  /** The exchange has looked at everything received so far, unless it has answered before; the
      service got the one head it found, as the first thing it was asked, and the session, if any, was
      opened for it. */
  ghost predicate Follows(e: Exchange, service: Service, before: seq<RequestHead.Head>, n: nat, all: bytes)
    reads e, e.session, service
  {
    && e.Inv() && !e.phase.Closed? && e.Answers(service)
    && e.taken.arrived <= all && (!e.phase.Responding? ==> e.taken.arrived == all)
    && service.handled == before + Handled(e.taken.head)
    && (if e.taken.head.Some? then e.Started(service, n) else service.made == n && e.session == null)
  }

  /** An exchange that was not disturbed has answered only after a verdict on the head, and has kept a
      promise of delivery: if it has answered, the body was delivered. */
  ghost predicate Kept(e: Exchange, service: Service, whole: bytes)
    reads e, e.session
  {
    && (e.phase.Responding? && e.taken.head.None? ==> !e.read(e.taken.arrived).Incomplete?)
    && (e.phase.Responding? && e.session != null && Promised(service, e.session, e.taken.start, whole) ==>
          Delivered(e.session))
  }

  predicate Within(reading: RequestHead.Reading, whole: bytes) {
    reading.Complete? ==> reading.remainder <= whole
  }

  /** Nothing but bytes came from the connection. */
  predicate OnlyBytes(inputs: seq<Input>) {
    inputs == [] || (inputs[|inputs| - 1].Arrived? && OnlyBytes(inputs[..|inputs| - 1]))
  }

  method StepBytes(e: Exchange, service: Service, bytes: bytes, due: bool, ghost before: seq<RequestHead.Head>,
                   ghost n: nat, ghost all: bytes, ghost whole: bytes)
    requires Follows(e, service, before, n, all) && service.stagingChunkBytes > 0
    modifies e, e.session, service`made, service`handled, service`begun
    ensures Follows(e, service, before, n, all + bytes)
    ensures e.session == old(e.session) || fresh(e.session)
    ensures old(e.phase.Responding?) ==> e.phase.Responding?
    ensures old(Kept(e, service, whole)) && Within(e.read(all + bytes), whole) ==> Kept(e, service, whole)
  {
    e.Ingest(service, bytes, due, whole);
  }

  method StepOther(e: Exchange, service: Service, input: Input, ghost before: seq<RequestHead.Head>, ghost n: nat,
                   ghost all: bytes)
    requires Follows(e, service, before, n, all) && !input.Arrived?
    modifies e, e.session, service`made
    ensures Follows(e, service, before, n, all) && e.phase.Responding? && e.session == old(e.session)
  {
    if input.PeerClosed? {
      e.Eof(service);
    } else {
      e.Timeout(service);
    }
  }

  /** A cycle that has gone through these inputs: anything but bytes has ended it, and bytes alone keep
      a promise about the whole body. */
  ghost predicate Through(
    e: Exchange, service: Service, before: seq<RequestHead.Head>, n: nat, inputs: seq<Input>, whole: bytes)
    reads e, e.session, service
  {
    && Follows(e, service, before, n, Received(inputs))
    && (if OnlyBytes(inputs) then Kept(e, service, whole) else e.phase.Responding?)
  }

  method Step(e: Exchange, service: Service, ghost inputs: seq<Input>, input: Input,
              ghost before: seq<RequestHead.Head>, ghost n: nat, ghost whole: bytes)
    requires Through(e, service, before, n, inputs, whole) && service.stagingChunkBytes > 0
    requires Within(e.read(Received(inputs + [input])), whole)
    modifies e, e.session, service`made, service`handled, service`begun
    ensures Through(e, service, before, n, inputs + [input], whole)
    ensures e.session == old(e.session) || fresh(e.session)
  {
    assert (inputs + [input])[..|inputs|] == inputs;
    match input {
      case Arrived(bytes, due) => StepBytes(e, service, bytes, due, before, n, Received(inputs), whole);
      case _ =>
        StepOther(e, service, input, before, n, Received(inputs));
        assert Received(inputs) + [] == Received(inputs);
    }
  }

  /** The bytes behind the head in everything received. */
  function Behind(reading: RequestHead.Reading): bytes {
    if reading.Complete? then reading.remainder else []
  }

  /** Any run of one cycle, from a fresh exchange until it answers or the inputs end. The head handed
      to the service, if any, is the head of everything received; the body bytes are the bytes that
      follow it, as far as they were looked at, under the framing of the head. */
  method RunCycle(e: Exchange, service: Service, inputs: seq<Input>)
    requires e.Inv() && e.phase == AwaitingHead([]) && service.stagingChunkBytes > 0
    modifies e, service`made, service`handled, service`begun
    ensures Through(e, service, old(service.handled), old(service.made), inputs, Behind(e.read(Received(inputs))))
    ensures Count(e.trace, IsHead) == |Handled(e.taken.head)|
    ensures e.taken.head.Some? ==>
              e.read(Received(inputs)).Complete? && e.read(Received(inputs)).head == e.taken.head.value
    ensures e.session != null ==>
              && FramingOf(e.taken.head.value) == Some(e.taken.start)
              && e.taken.wire <= e.read(Received(inputs)).remainder
              && (Surplus(e.taken.start, e.taken.wire) ==> e.closeAfterResponse)
  {
    ghost var before, n := service.handled, service.made;
    ghost var whole := Behind(e.read(Received(inputs)));
    for i := 0 to |inputs|
      invariant Through(e, service, before, n, inputs[..i], whole)
      invariant e.session == null || fresh(e.session)
    {
      assert inputs[..i] + [inputs[i]] == inputs[..i + 1];
      ReceivedPrefix(inputs, i + 1);
      PrefixWithin(e.read, Received(inputs[..i + 1]), Received(inputs));
      Step(e, service, inputs[..i], inputs[i], before, n, whole);
    }
    assert inputs[..|inputs|] == inputs;
    ReadToTheEnd(e, Received(inputs));
  }

  lemma {:induction false} ReceivedPrefix(inputs: seq<Input>, k: nat)
    requires k <= |inputs|
    ensures Received(inputs[..k]) <= Received(inputs)
    decreases |inputs|
  {
    if k == |inputs| {
      assert inputs[..k] == inputs;
    } else {
      ReceivedPrefix(inputs[..|inputs| - 1], k);
      assert inputs[..|inputs| - 1][..k] == inputs[..k];
    }
  }

  /** What follows the head in some of the bytes begins what follows it in all of them. */
  lemma PrefixWithin(read: bytes -> RequestHead.Reading, some: bytes, all: bytes)
    requires Stands(read) && some <= all
    ensures Within(read(some), Behind(read(all)))
  {
    var more := all[|some|..];
    assert all == some + more;
    assert ReadOn(read(some), more, read(some + more));
  }

  /** What was found in the bytes looked at is found in all of them. */
  lemma ReadToTheEnd(e: Exchange, all: bytes)
    requires e.Inv() && !e.phase.Closed? && e.taken.arrived <= all
    ensures Count(e.trace, IsHead) == |Handled(e.taken.head)|
    ensures e.taken.head.Some? ==> e.read(all).Complete? && e.read(all).head == e.taken.head.value
    ensures e.session != null ==>
              && e.taken.head.Some? && e.taken.wire <= e.read(all).remainder
              && Placed(e.read, e.wantsClose, e.taken, e.closeAfterResponse)
  {
    var more := all[|e.taken.arrived|..];
    assert all == e.taken.arrived + more;
    assert ReadOn(e.read(e.taken.arrived), more, e.read(e.taken.arrived + more));
    match e.phase {
      case AwaitingHead(_) =>
      case ReceivingBody(_, _) => ReceivingCounts(e.trace);
      case Responding => ReadyCounts(e.trace);
    }
  }

  /** A head that is complete and acceptable is handed to the service when nothing but bytes came. */
  lemma HandedOver(
    e: Exchange, service: Service, before: seq<RequestHead.Head>, n: nat, inputs: seq<Input>, whole: bytes)
    requires Through(e, service, before, n, inputs, whole) && OnlyBytes(inputs)
    requires e.read(Received(inputs)).Complete?
    requires var h := e.read(Received(inputs)).head; e.expects(h).Some? && FramingOf(h).Some?
    ensures e.taken.head == Some(e.read(Received(inputs)).head)
  {
    var (arrived, all) := (e.taken.arrived, Received(inputs));
    var more := all[|arrived|..];
    assert all == arrived + more;
    assert ReadOn(e.read(arrived), more, e.read(arrived + more));
  }

  /** Success is reported exactly for a body that was delivered. */
  lemma SuccessIsDelivery(e: Exchange)
    requires e.Inv() && e.phase.Responding? && e.session != null
    ensures e.cause == Some(BodyEnded(None)) <==> Delivered(e.session)
  {
    if Delivered(e.session) {
      OverExactlyOnce(e.session);
    }
  }

  /** Whatever happened in a cycle: one response was queued, the head was handled at most once, and a
      body was left exactly once. A staged upload was published once, with the whole framed entity
      handed on, or cleaned up once, and not both. */
  lemma CycleExactlyOnce(e: Exchange)
    requires e.Inv() && e.phase.Responding?
    ensures |e.queued| == 1 && Count(e.trace, IsHead) <= 1 && Count(e.trace, IsExit) <= 1
    ensures e.session != null ==> Count(e.trace, IsHead) == 1 && Count(e.trace, IsExit) == 1
    ensures e.session != null ==> Delivered(e.session) || Discarded(e.session)
    ensures e.session != null && Delivered(e.session) ==>
              FramedTo(e.taken.start, e.taken.wire, Flatten(e.session.fragments), true)
    ensures e.session != null && e.session.sink.Staged? ==>
              var calls := e.session.calls;
              || (Delivered(e.session) && SuccessfulPublishes(calls) == 1 && Cleanups(calls) == 0)
              || (Discarded(e.session) && SuccessfulPublishes(calls) == 0 && Cleanups(calls) == 1)
  {
    ReadyCounts(e.trace);
    if e.session != null {
      OverExactlyOnce(e.session);
    }
  }

  lemma OverExactlyOnce(s: Session)
    requires Delivered(s) || Discarded(s)
    ensures s.sink.Staged? ==>
              || (Delivered(s) && SuccessfulPublishes(s.calls) == 1 && Cleanups(s.calls) == 0)
              || (Discarded(s) && SuccessfulPublishes(s.calls) == 0 && Cleanups(s.calls) == 1)
    ensures !(Delivered(s) && Discarded(s))
  {
    if s.sink.Staged? {
      ExactlyOneEnding(s.Sha(), s.sink.part, s.calls);
    }
  }
}
