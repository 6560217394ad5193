/** The life of a connection (src/workers/http.rs): whatever happens to it, a socket failure and the
    shutdown of the worker included, every session that is opened on it is ended exactly once. */
module HttpConnection {
  import opened Bytes
  import opened UploadTrace
  import opened UploadService
  import opened HttpExchange
  import RequestHead

  /** What happens to one connection. */
  datatype Happening =
    | Data(bytes: bytes, leaseDue: bool)
    | EndOfInput
    | Idle
    | ResponseWritten
    | SocketFailed

  /** The session is over, and a staged upload was published or cleaned up, once. */
  ghost predicate EndedOnce(s: Session)
    reads s
  {
    && (Delivered(s) || Discarded(s))
    && (s.sink.Staged? ==> SuccessfulPublishes(s.calls) + Cleanups(s.calls) == 1)
  }

  lemma OverIsOnce(s: Session)
    requires Delivered(s) || Discarded(s)
    ensures EndedOnce(s)
  {
    OverExactlyOnce(s);
  }

  class Connection {
    const exchange: Exchange
    /** A request has begun to arrive and is not answered in full. */
    var active: bool

    ghost predicate Inv(service: Service)
      reads this, exchange, exchange.session
    {
      && exchange.Inv() && exchange.Answers(service) && !exchange.phase.Closed?
      && (!active ==> exchange.phase == AwaitingHead([]))
    }

    constructor (exchange: Exchange, ghost service: Service)
      requires exchange.Inv() && exchange.phase == AwaitingHead([])
      ensures Inv(service) && this.exchange == exchange && !active
    {
      this.exchange, active := exchange, false;
    }

    /** Ends whatever is being received; the connection is not used any more. */
    method Abandon(service: Service)
      requires Inv(service)
      modifies exchange, exchange.session, service`made
      ensures exchange.session == old(exchange.session)
      ensures exchange.session != null ==> EndedOnce(exchange.session)
    {
      if active && exchange.phase.ReceivingBody? {
        exchange.AbortSession(service);
      }
      if exchange.session != null {
        OverIsOnce(exchange.session);
      }
    }

    /** The response is out: the connection is closed, or ready for the next request. */
    method Finish() returns (gone: bool)
      requires exchange.Inv() && exchange.phase.Responding?
      modifies this, exchange
      ensures !gone ==>
                exchange.Inv() && exchange.phase == AwaitingHead([]) && exchange.session == null && !active
      ensures old(exchange.session) != null ==> EndedOnce(old(exchange.session))
    {
      if exchange.session != null {
        OverIsOnce(exchange.session);
      }
      gone := exchange.closeAfterResponse;
      if gone {
        exchange.Close();
      } else {
        exchange.Reset();
        active := false;
      }
    }

    /** Bytes were read; the first of a request make it active. */
    method Receive(service: Service, bytes: bytes, due: bool)
      requires Inv(service) && service.stagingChunkBytes > 0
      modifies this, exchange, exchange.session, service`made, service`handled, service`begun
      ensures Inv(service) && Continued(service, old(exchange.session), old(service.begun))
      ensures exchange.session != old(exchange.session) ==> fresh(exchange.session)
    {
      active := true;
      exchange.Ingest(service, bytes, due, []);
    }

    /** The session stays, or the one opened now has none before it. */
    ghost predicate Continued(service: Service, session: Session?, begun: set<Session>)
      reads exchange, service
    {
      if exchange.session == session then service.begun == begun
      else session == null && exchange.session != null && service.begun == begun + {exchange.session}
    }

    /** One thing happens to the connection. Returns whether it is gone, and the session that has ended
        with it, if any. */
    method Handle(service: Service, what: Happening) returns (gone: bool, ghost over: Session?)
      requires Inv(service) && service.stagingChunkBytes > 0
      modifies this, exchange, exchange.session, service`made, service`handled, service`begun
      ensures !gone ==> Inv(service)
      ensures over != null ==> EndedOnce(over)
      ensures if over == null && !gone then
                && Continued(service, old(exchange.session), old(service.begun))
                && (exchange.session != old(exchange.session) ==> fresh(exchange.session))
              else
                && over == old(exchange.session) && service.begun == old(service.begun)
                && (!gone ==> exchange.session == null)
    {
      gone, over := false, null;
      match what {
        case Data(bytes, due) =>
          if !exchange.phase.Responding? {
            Receive(service, bytes, due);
          }
        case EndOfInput =>
          if active {
            exchange.Eof(service);
          } else {
            gone := true;
          }
        case Idle =>
          if active && !exchange.phase.Responding? {
            exchange.Timeout(service);
          } else {
            Abandon(service);
            gone, over := true, exchange.session;
          }
        case ResponseWritten =>
          if exchange.phase.Responding? {
            over := exchange.session;
            gone := Finish();
          }
        case SocketFailed =>
          Abandon(service);
          gone, over := true, exchange.session;
      }
    }
  }

  /** The sessions begun since are those that are over and the one the connection holds. */
  ghost predicate Accounted(
    service: Service, c: Connection, gone: bool, before: set<Session>, over: set<Session>)
    reads service, c.exchange
  {
    var held := if gone then null else c.exchange.session;
    && service.begun == before + over + Only(held)
    && (held != null ==> held !in before + over)
  }

  /** One thing happens, and the books are brought up to date. */
  method Next(c: Connection, service: Service, what: Happening, ghost before: set<Session>, ghost over: set<Session>)
    returns (gone: bool, ghost over': set<Session>)
    requires c.Inv(service) && service.stagingChunkBytes > 0 && Accounted(service, c, false, before, over)
    modifies c, c.exchange, c.exchange.session, service`made, service`handled, service`begun
    ensures (!gone ==> c.Inv(service)) && Accounted(service, c, gone, before, over')
    ensures over <= over' && forall s :: s in over' - over ==> EndedOnce(s)
    ensures !gone && c.exchange.session != null ==>
              c.exchange.session == old(c.exchange.session) || fresh(c.exchange.session)
  {
    ghost var ended;
    gone, ended := c.Handle(service, what);
    over' := over + Only(ended);
  }

  /** The whole life of a connection, and the shutdown of the worker at its end if it has not gone
      before: every session that was begun on it is over, exactly once. */
  method RunConnection(c: Connection, service: Service, life: seq<Happening>)
    requires c.Inv(service) && c.exchange.session == null && service.stagingChunkBytes > 0
    modifies c, c.exchange, service`made, service`handled, service`begun
    ensures old(service.begun) <= service.begun
    ensures forall s :: s in service.begun - old(service.begun) ==> EndedOnce(s)
  {
    ghost var before, over := service.begun, {};
    for i := 0 to |life|
      invariant c.Inv(service) && Accounted(service, c, false, before, over)
      invariant c.exchange.session == null || fresh(c.exchange.session)
      invariant forall s :: s in over ==> EndedOnce(s)
    {
      var gone;
      ghost var over';
      gone, over' := Next(c, service, life[i], before, over);
      over := over';
      if gone {
        return;
      }
    }
    c.Abandon(service);
  }
}
