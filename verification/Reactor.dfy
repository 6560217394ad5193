/** The connection loop of src/workers/http.rs: every connection is driven once per tick, and the
    gauges follow the requests through starts, reclassifications, completions and removals. */
module Reactor {
  import opened Bytes
  import opened Gauges

  const MAX_IO_STEPS_PER_TICK: nat := 8

  datatype ReadEvent =
    | ReadEof
    | ReadData(answered: bool, operation: Operation, continue100: bool)
    | ReadBlocked
    | ReadInterrupted
    | ReadFailed

  datatype ContinueEvent = ContinueDone | ContinuePending | ContinueFailed

  datatype WriteEvent = AllWritten | Wrote | WroteNothing | WriteBlocked | WriteInterrupted | WriteFailed

  /** What the socket, the clock and the exchange do to a connection during one drive. */
  datatype Io = Io(
    idle: bool, beforeRead: ContinueEvent, incoming: nat -> ReadEvent, afterRead: ContinueEvent,
    outgoing: nat -> WriteEvent, closeAfterResponse: bool)

  datatype DriveResult =
    | Pending
    | RequestComplete(close: bool, operation: Operation)
    | ConnectionClosed
    | IoFailed

  // ----- what one drive amounts to

  datatype ReadOutcome = ReadOn | ClosedIdle | ReadError

  /** The connection after data has arrived; the first data of a request starts it. */
  function Fed(c: Connection, answered: bool, operation: Operation, continue100: bool): Connection {
    (if c.active then c else c.(active := true, started := true)).(
      operation := operation, sendContinue := continue100, stage := if answered then Writing else Reading)
  }

  /** Reading from the given step on: at most eight reads, fewer when there is a response or a
      continuation to write. */
  function ReadFrom(c: Connection, incoming: nat -> ReadEvent, step: nat): (Connection, ReadOutcome)
    decreases MAX_IO_STEPS_PER_TICK - step
  {
    if step >= MAX_IO_STEPS_PER_TICK then (c, ReadOn)
    else
      match incoming(step)
      case ReadEof => if c.active then (c.(stage := Writing), ReadOn) else (c.(stage := Shut), ClosedIdle)
      case ReadData(answered, operation, continue100) =>
        var fed := Fed(c, answered, operation, continue100);
        if continue100 || answered then (fed, ReadOn) else ReadFrom(fed, incoming, step + 1)
      case ReadBlocked => (c, ReadOn)
      case ReadInterrupted => ReadFrom(c, incoming, step + 1)
      case ReadFailed => (c, ReadError)
  }

  /** Writing the response from the given step on, in at most eight writes. */
  function WriteFrom(c: Connection, outgoing: nat -> WriteEvent, close: bool, step: nat): (Connection, DriveResult)
    decreases MAX_IO_STEPS_PER_TICK - step
  {
    if step >= MAX_IO_STEPS_PER_TICK then (c, Pending)
    else
      match outgoing(step)
      case AllWritten =>
        (if close then c.(stage := Shut) else c.(stage := Reading, operation := InvalidRequest, sendContinue := false),
         RequestComplete(close, c.operation))
      case WroteNothing => (c.(stage := Shut), RequestComplete(true, c.operation))
      case WriteBlocked => (c, Pending)
      case WriteFailed => (c, IoFailed)
      case Wrote => WriteFrom(c, outgoing, close, step + 1)
      case WriteInterrupted => WriteFrom(c, outgoing, close, step + 1)
  }

  /** After reading: the interim response if one is due, then the response if there is one. */
  function Finished(c: Connection, io: Io): (Connection, DriveResult) {
    if c.sendContinue && io.afterRead.ContinuePending? then (c, Pending)
    else if c.sendContinue && io.afterRead.ContinueFailed? then (c, IoFailed)
    else
      var sent := c.(sendContinue := false);
      if sent.stage.Writing? then WriteFrom(sent, io.outgoing, io.closeAfterResponse, 0) else (sent, Pending)
  }

  /** Reading, if the exchange still reads, and what follows. */
  function Served(c: Connection, io: Io): (Connection, DriveResult) {
    if !c.stage.Reading? then Finished(c, io)
    else
      var (d, o) := ReadFrom(c, io.incoming, 0);
      match o
      case ClosedIdle => (d, ConnectionClosed)
      case ReadError => (d, IoFailed)
      case ReadOn => Finished(d, io)
  }

  /** One drive: idle connections close, an idle request is answered or, if its response is stuck,
      given up; then the interim response, reading and writing. */
  function Driven(c: Connection, io: Io): (Connection, DriveResult) {
    if io.idle && !c.active then (c.(stage := Shut), ConnectionClosed)
    else if io.idle && c.stage.Writing? then (c.(stage := Shut), RequestComplete(true, c.operation))
    else
      var begun := if io.idle then c.(stage := Writing) else c;
      if begun.sendContinue && io.beforeRead.ContinuePending? then (begun, Pending)
      else if begun.sendContinue && io.beforeRead.ContinueFailed? then (begun, IoFailed)
      else Served(begun.(sendContinue := false), io)
  }

  /** What driving a connection may do to its request: an active request stays active and classified
      as it was until it completes, a new one is marked as started, and a connection closes quietly
      only without a request. */
  predicate Drives(c: Connection, d: Connection, r: DriveResult) {
    && d.id == c.id && d.metricOperation == c.metricOperation
    && (if c.active then d.active && !d.started else d.active == d.started)
    && (r.ConnectionClosed? ==> !d.active)
    && (r.RequestComplete? ==> d.active && (if r.close then r.operation == d.operation else d.stage.Reading?))
    && (r.Pending? ==> !d.stage.Shut? && (d.stage.Writing? ==> d.active))
  }

  /** A connection in the middle of a drive that began with `c`. */
  predicate Underway(c: Connection, d: Connection) {
    && d.id == c.id && d.metricOperation == c.metricOperation
    && (if c.active then d.active && !d.started else d.active == d.started)
    && !d.stage.Shut? && (d.stage.Writing? ==> d.active)
  }

  lemma {:induction false} ReadKeeps(c: Connection, d: Connection, incoming: nat -> ReadEvent, step: nat)
    requires Underway(c, d) && d.stage.Reading?
    ensures var (e, o) := ReadFrom(d, incoming, step);
            match o
            case ReadOn => Underway(c, e)
            case ReadError => Underway(c, e)
            case ClosedIdle => e == d.(stage := Shut) && !d.active
    decreases MAX_IO_STEPS_PER_TICK - step
  {
    if step < MAX_IO_STEPS_PER_TICK {
      match incoming(step) {
        case ReadData(answered, operation, continue100) =>
          if !continue100 && !answered {
            ReadKeeps(c, Fed(d, answered, operation, continue100), incoming, step + 1);
          }
        case ReadInterrupted => ReadKeeps(c, d, incoming, step + 1);
        case ReadEof =>
        case ReadBlocked =>
        case ReadFailed =>
      }
    }
  }

  lemma {:induction false} WriteKeeps(
    c: Connection, d: Connection, outgoing: nat -> WriteEvent, close: bool, step: nat)
    requires Underway(c, d) && d.stage.Writing?
    ensures var (e, r) := WriteFrom(d, outgoing, close, step); Drives(c, e, r)
    decreases MAX_IO_STEPS_PER_TICK - step
  {
    if step < MAX_IO_STEPS_PER_TICK {
      WriteKeeps(c, d, outgoing, close, step + 1);
    }
  }

  lemma ServedKeeps(c: Connection, d: Connection, io: Io)
    requires Underway(c, d)
    ensures var (e, r) := Served(d, io); Drives(c, e, r)
  {
    var e := d;
    if d.stage.Reading? {
      ReadKeeps(c, d, io.incoming, 0);
      e := ReadFrom(d, io.incoming, 0).0;
    }
    if e.stage.Writing? {
      WriteKeeps(c, e.(sendContinue := false), io.outgoing, io.closeAfterResponse, 0);
    }
  }

  /** A drive never loses a request and never closes a connection under one without completing it. */
  lemma DrivenKeeps(c: Connection, io: Io)
    requires Sound(c)
    ensures var (d, r) := Driven(c, io); Drives(c, d, r)
  {
    var begun := if io.idle then c.(stage := Writing) else c;
    if c.active || !io.idle {
      ServedKeeps(c, begun.(sendContinue := false), io);
    }
  }

  /** Nothing keeps an idle connection: without a request it closes, a response that does not get
      through is given up, and a request that does not arrive is answered. */
  lemma IdleEnds(c: Connection, io: Io)
    requires Sound(c) && io.idle
    ensures var (d, r) := Driven(c, io);
            && (!c.active ==> r == ConnectionClosed)
            && (c.active && c.stage.Writing? ==> r == RequestComplete(true, c.operation))
            && (c.active && c.stage.Reading? ==> r.IoFailed? || r.RequestComplete? || d.stage.Writing?)
  {
    if c.active && c.stage.Reading? {
      var begun := c.(stage := Writing, sendContinue := false);
      WriteStays(begun, io.outgoing, io.closeAfterResponse, 0);
    }
  }

  lemma {:induction false} WriteStays(c: Connection, outgoing: nat -> WriteEvent, close: bool, step: nat)
    requires c.stage.Writing?
    ensures var (d, r) := WriteFrom(c, outgoing, close, step);
            r.IoFailed? || r.RequestComplete? || (r.Pending? && d == c)
    decreases MAX_IO_STEPS_PER_TICK - step
  {
    if step < MAX_IO_STEPS_PER_TICK {
      WriteStays(c, outgoing, close, step + 1);
    }
  }

  // ----- the loops of the source

  /** Reads at most eight times; returns early when there is a response or a continuation to write. */
  method DriveRead(c: Connection, incoming: nat -> ReadEvent) returns (d: Connection, o: ReadOutcome)
    ensures (d, o) == ReadFrom(c, incoming, 0)
  {
    d := c;
    ghost var goal := ReadFrom(c, incoming, 0);
    var step := 0;
    while step < MAX_IO_STEPS_PER_TICK
      invariant ReadFrom(d, incoming, step) == goal
    {
      match incoming(step) {
        case ReadEof =>
          if d.active {
            d := d.(stage := Writing);
            return d, ReadOn;
          }
          d := d.(stage := Shut);
          return d, ClosedIdle;
        case ReadData(answered, operation, continue100) =>
          if !d.active {
            d := d.(active := true, started := true);
          }
          d := d.(operation := operation, sendContinue := continue100, stage := if answered then Writing else Reading);
          if continue100 || answered {
            return d, ReadOn;
          }
        case ReadBlocked => return d, ReadOn;
        case ReadInterrupted =>
        case ReadFailed => return d, ReadError;
      }
      step := step + 1;
    }
    return d, ReadOn;
  }

  method DriveWrite(c: Connection, outgoing: nat -> WriteEvent, closeAfterResponse: bool)
    returns (d: Connection, r: DriveResult)
    ensures (d, r) == WriteFrom(c, outgoing, closeAfterResponse, 0)
  {
    d := c;
    ghost var goal := WriteFrom(c, outgoing, closeAfterResponse, 0);
    var step := 0;
    while step < MAX_IO_STEPS_PER_TICK
      invariant d == c && WriteFrom(c, outgoing, closeAfterResponse, step) == goal
    {
      match outgoing(step) {
        case AllWritten =>
          if closeAfterResponse {
            d := d.(stage := Shut);
          } else {
            d := d.(stage := Reading, operation := InvalidRequest, sendContinue := false);
          }
          return d, RequestComplete(closeAfterResponse, c.operation);
        case WroteNothing =>
          d := d.(stage := Shut);
          return d, RequestComplete(true, c.operation);
        case WriteBlocked => return d, Pending;
        case WriteFailed => return d, IoFailed;
        case Wrote =>
        case WriteInterrupted =>
      }
      step := step + 1;
    }
    return d, Pending;
  }

  // ----- identities

  function Ids(connections: seq<Connection>): (ids: seq<nat>)
    ensures |ids| == |connections| && forall i :: 0 <= i < |ids| ==> ids[i] == connections[i].id
  {
    if connections == [] then [] else [connections[0].id] + Ids(connections[1..])
  }

  /** Not yet driven in this tick: the connections from `index` on. */
  function Waiting(connections: seq<Connection>, index: nat): multiset<nat>
    requires index <= |connections|
  {
    multiset(Ids(connections[index..]))
  }

  lemma WaitingFirst(connections: seq<Connection>, index: nat)
    requires index < |connections|
    ensures Waiting(connections, index) == multiset{connections[index].id} + Waiting(connections, index + 1)
  {
    var left := connections[index..];
    assert left[0] == connections[index] && left[1..] == connections[index + 1..];
  }

  lemma WaitingKept(connections: seq<Connection>, index: nat, c: Connection)
    requires index < |connections|
    ensures Waiting(connections[index := c], index + 1) == Waiting(connections, index + 1)
  {
    assert connections[index := c][index + 1..] == connections[index + 1..];
  }

  /** After a removal the connection moved into the gap is still waiting. */
  lemma WaitingRemoved(connections: seq<Connection>, index: nat)
    requires index < |connections|
    ensures Waiting(SwapRemove(connections, index), index) == Waiting(connections, index + 1)
  {
    var n := |connections| - 1;
    var after := SwapRemove(connections, index);
    var left := connections[index + 1..];
    if index == n {
      assert after[index..] == [] && left == [];
    } else {
      var middle := connections[index + 1..n];
      assert after[index..] == [connections[n]] + middle;
      assert left == middle + [connections[n]];
      IdsAppend([connections[n]], middle);
      IdsAppend(middle, [connections[n]]);
    }
  }

  /** The driven and the waiting connections are all of them, each once. */
  ghost predicate Partition(driven: seq<nat>, waiting: multiset<nat>, all: multiset<nat>) {
    multiset(driven) + waiting == all
  }

  lemma PartitionStart(connections: seq<Connection>)
    ensures Partition([], Waiting(connections, 0), multiset(Ids(connections)))
  {
    assert connections[0..] == connections;
  }

  lemma PartitionNext(driven: seq<nat>, connections: seq<Connection>, index: nat, all: multiset<nat>)
    requires index < |connections| && Partition(driven, Waiting(connections, index), all)
    ensures Partition(driven + [connections[index].id], Waiting(connections, index + 1), all)
  {
    WaitingFirst(connections, index);
  }

  lemma PartitionEnd(driven: seq<nat>, connections: seq<Connection>, index: nat, all: multiset<nat>)
    requires index == |connections| && Partition(driven, Waiting(connections, index), all)
    ensures multiset(driven) == all
  {
    assert connections[index..] == [];
  }

  lemma IdsAppend(a: seq<Connection>, b: seq<Connection>)
    ensures Ids(a + b) == Ids(a) + Ids(b)
  {
  }

  /** Identities are below the next one and pairwise different. */
  ghost predicate Known(connections: seq<Connection>, nextId: nat) {
    && (forall i :: 0 <= i < |connections| ==> connections[i].id < nextId)
    && (forall i, j :: 0 <= i < j < |connections| ==> connections[i].id != connections[j].id)
  }

  lemma KnownKept(connections: seq<Connection>, i: nat, c: Connection, nextId: nat)
    requires Known(connections, nextId) && i < |connections| && c.id == connections[i].id
    ensures Known(connections[i := c], nextId)
  {
  }

  lemma KnownRemoved(connections: seq<Connection>, i: nat, nextId: nat)
    requires Known(connections, nextId) && i < |connections|
    ensures Known(SwapRemove(connections, i), nextId)
  {
  }

  lemma KnownAdded(connections: seq<Connection>, nextId: nat)
    requires Known(connections, nextId)
    ensures Known(connections + [Fresh(nextId)], nextId + 1)
  {
  }

  lemma {:induction false} IdsOnce(connections: seq<Connection>, i: nat, nextId: nat)
    requires Known(connections, nextId) && i < |connections|
    ensures multiset(Ids(connections))[connections[i].id] == 1
  {
    var rest := connections[1..];
    assert connections == [connections[0]] + rest;
    if i == 0 {
      assert connections[0].id !in Ids(rest);
    } else {
      IdsOnce(rest, i - 1, nextId);
      assert rest[i - 1] == connections[i];
    }
  }

  /** Every connection is driven exactly once. */
  ghost predicate EachOnce(driven: multiset<nat>, connections: seq<Connection>) {
    forall i :: 0 <= i < |connections| ==> driven[connections[i].id] == 1
  }

  lemma AllOnce(connections: seq<Connection>, nextId: nat)
    requires Known(connections, nextId)
    ensures EachOnce(multiset(Ids(connections)), connections)
  {
    forall i | 0 <= i < |connections| ensures multiset(Ids(connections))[connections[i].id] == 1 {
      IdsOnce(connections, i, nextId);
    }
  }

  /** Newly accepted connections are numbered on from `nextId`. */
  ghost predicate Numbered(before: seq<Connection>, after: seq<Connection>, nextId: nat) {
    before <= after && forall k :: |before| <= k < |after| ==> after[k] == Fresh(nextId + k - |before|)
  }

  // ----- one connection replaced

  ghost predicate InOrder(connections: seq<Connection>, nextId: nat) {
    AllSound(connections) && Known(connections, nextId)
  }

  lemma InOrderKept(connections: seq<Connection>, i: nat, c: Connection, nextId: nat)
    requires InOrder(connections, nextId) && i < |connections| && c.id == connections[i].id && Sound(c)
    ensures InOrder(connections[i := c], nextId)
  {
    KnownKept(connections, i, c, nextId);
  }

  lemma InOrderRemoved(connections: seq<Connection>, i: nat, nextId: nat)
    requires InOrder(connections, nextId) && i < |connections|
    ensures InOrder(SwapRemove(connections, i), nextId)
  {
    KnownRemoved(connections, i, nextId);
  }

  lemma Replaced(connections: seq<Connection>, i: nat, a: Connection, b: Connection)
    requires i < |connections|
    ensures connections[i := a][i := b] == connections[i := b]
    ensures SwapRemove(connections[i := a], i) == SwapRemove(connections, i)
  {
  }

  /** What the worker makes of a drive: an error ends the connection, and with it an active request. */
  function Outcome(d: Connection, r: DriveResult): DriveResult {
    if !r.IoFailed? then r else if d.active then RequestComplete(true, d.operation) else ConnectionClosed
  }

  /** What is left of a connection after a drive and its bookkeeping, if anything. */
  function Settled(c: Connection, io: Io): Option<Connection> {
    var (d, r) := Driven(c, io);
    Kept(d, Outcome(d, r))
  }

  function Kept(d: Connection, outcome: DriveResult): Option<Connection> {
    match outcome
    case Pending => Some(d.(started := false, metricOperation := if d.active then d.operation else d.metricOperation))
    case RequestComplete(close, _) =>
      if close then None else Some(d.(started := false, active := false, metricOperation := InvalidRequest))
    case ConnectionClosed => None
    case IoFailed => None
  }

  /** What is left of all connections after one drive of each, with its own events. */
  function AllSettled(connections: seq<Connection>, io: (nat, nat) -> Io, tick: nat): seq<Connection> {
    if connections == [] then []
    else AsSeq(Settled(connections[0], io(tick, connections[0].id))) + AllSettled(connections[1..], io, tick)
  }

  /** The same in no order, named so that specifications mention it without unfolding it. */
  function Remaining(connections: seq<Connection>, io: (nat, nat) -> Io, tick: nat): multiset<Connection> {
    multiset(AllSettled(connections, io, tick))
  }

  function AsSeq(c: Option<Connection>): seq<Connection> {
    if c.Some? then [c.value] else []
  }

  lemma SettledCons(c: Connection, rest: seq<Connection>, io: (nat, nat) -> Io, tick: nat)
    ensures AllSettled([c] + rest, io, tick) == AsSeq(Settled(c, io(tick, c.id))) + AllSettled(rest, io, tick)
  {
    assert ([c] + rest)[1..] == rest;
  }

  lemma {:induction false} SettledAppend(a: seq<Connection>, b: seq<Connection>, io: (nat, nat) -> Io, tick: nat)
    ensures AllSettled(a + b, io, tick) == AllSettled(a, io, tick) + AllSettled(b, io, tick)
  {
    if a == [] {
      assert a + b == b;
    } else {
      var (c, rest) := (a[0], a[1..]);
      assert a == [c] + rest && a + b == [c] + (rest + b);
      SettledCons(c, rest, io, tick);
      SettledCons(c, rest + b, io, tick);
      SettledAppend(rest, b, io, tick);
      Assoc(AsSeq(Settled(c, io(tick, c.id))), AllSettled(rest, io, tick), AllSettled(b, io, tick));
    }
  }

  /** The order of the connections does not matter to what is left of them. */
  lemma SettledMoved(last: Connection, middle: seq<Connection>, io: (nat, nat) -> Io, tick: nat)
    ensures Remaining([last] + middle, io, tick) == Remaining(middle + [last], io, tick)
  {
    SettledAppend([last], middle, io, tick);
    SettledAppend(middle, [last], io, tick);
  }

  /** Driven so far: what is left of the connections before `index`, and the rest as it was, will come
      to `goal`. */
  ghost predicate Settling(
    connections: seq<Connection>, index: nat, io: (nat, nat) -> Io, tick: nat, goal: multiset<Connection>)
  {
    index <= |connections| && multiset(connections[..index]) + Remaining(connections[index..], io, tick) == goal
  }

  lemma SettlingStart(connections: seq<Connection>, io: (nat, nat) -> Io, tick: nat)
    ensures Settling(connections, 0, io, tick, Remaining(connections, io, tick))
  {
    assert connections[..0] == [] && connections[0..] == connections;
  }

  lemma SettlingEnd(connections: seq<Connection>, io: (nat, nat) -> Io, tick: nat, goal: multiset<Connection>)
    requires Settling(connections, |connections|, io, tick, goal)
    ensures multiset(connections) == goal
  {
    assert connections[..|connections|] == connections && connections[|connections|..] == [];
  }

  lemma SettlingFirst(
    connections: seq<Connection>, index: nat, io: (nat, nat) -> Io, tick: nat, goal: multiset<Connection>)
    requires Settling(connections, index, io, tick, goal) && index < |connections|
    ensures multiset(connections[..index])
            + multiset(AsSeq(Settled(connections[index], io(tick, connections[index].id))))
            + Remaining(connections[index + 1..], io, tick) == goal
  {
    var left := connections[index..];
    assert left[0] == connections[index] && left[1..] == connections[index + 1..];
  }

  lemma SettlingKept(
    connections: seq<Connection>, index: nat, c: Connection, io: (nat, nat) -> Io, tick: nat,
    goal: multiset<Connection>)
    requires Settling(connections, index, io, tick, goal) && index < |connections|
    requires Settled(connections[index], io(tick, connections[index].id)) == Some(c)
    ensures Settling(connections[index := c], index + 1, io, tick, goal)
  {
    SettlingFirst(connections, index, io, tick, goal);
    var after := connections[index := c];
    assert after[..index + 1] == connections[..index] + [c] && after[index + 1..] == connections[index + 1..];
  }

  lemma SettlingSkip(
    connections: seq<Connection>, index: nat, io: (nat, nat) -> Io, tick: nat, goal: multiset<Connection>)
    requires Settling(connections, index, io, tick, goal) && index < |connections|
    requires Settled(connections[index], io(tick, connections[index].id)).None?
    ensures multiset(connections[..index]) + Remaining(connections[index + 1..], io, tick) == goal
  {
    SettlingFirst(connections, index, io, tick, goal);
  }

  lemma RemovedParts(connections: seq<Connection>, index: nat)
    requires index < |connections|
    ensures var (n, after) := (|connections| - 1, SwapRemove(connections, index));
            && index <= |after| && after[..index] == connections[..index]
            && if index < n
               then && after[index..] == [connections[n]] + connections[index + 1..n]
                    && connections[index + 1..] == connections[index + 1..n] + [connections[n]]
               else after[index..] == [] == connections[index + 1..]
  {
  }

  /** After a removal the connection moved into the gap is still to be driven. */
  lemma SettlingRemoved(
    connections: seq<Connection>, index: nat, io: (nat, nat) -> Io, tick: nat, goal: multiset<Connection>)
    requires Settling(connections, index, io, tick, goal) && index < |connections|
    requires Settled(connections[index], io(tick, connections[index].id)).None?
    ensures Settling(SwapRemove(connections, index), index, io, tick, goal)
  {
    SettlingSkip(connections, index, io, tick, goal);
    RemovedParts(connections, index);
    var n := |connections| - 1;
    if index < n {
      SettledMoved(connections[n], connections[index + 1..n], io, tick);
    }
  }

  /** Between two drives of a tick. */
  ghost predicate Midway(
    driven: seq<nat>, connections: seq<Connection>, index: nat, io: (nat, nat) -> Io, tick: nat,
    all: multiset<nat>, goal: multiset<Connection>)
  {
    && Settling(connections, index, io, tick, goal)
    && Partition(driven, Waiting(connections, index), all)
  }

  lemma MidwayKept(
    driven: seq<nat>, connections: seq<Connection>, index: nat, c: Connection, io: (nat, nat) -> Io, tick: nat,
    all: multiset<nat>, goal: multiset<Connection>)
    requires Midway(driven, connections, index, io, tick, all, goal) && index < |connections|
    requires Settled(connections[index], io(tick, connections[index].id)) == Some(c)
    ensures Midway(driven + [connections[index].id], connections[index := c], index + 1, io, tick, all, goal)
  {
    PartitionNext(driven, connections, index, all);
    WaitingKept(connections, index, c);
    SettlingKept(connections, index, c, io, tick, goal);
  }

  lemma MidwayRemoved(
    driven: seq<nat>, connections: seq<Connection>, index: nat, io: (nat, nat) -> Io, tick: nat,
    all: multiset<nat>, goal: multiset<Connection>)
    requires Midway(driven, connections, index, io, tick, all, goal) && index < |connections|
    requires Settled(connections[index], io(tick, connections[index].id)).None?
    ensures Midway(driven + [connections[index].id], SwapRemove(connections, index), index, io, tick, all, goal)
  {
    PartitionNext(driven, connections, index, all);
    WaitingRemoved(connections, index);
    SettlingRemoved(connections, index, io, tick, goal);
  }

  // ----- the worker

  class Worker {
    /** The events that meet a connection in a tick. */
    const io: (nat, nat) -> Io
    var connections: seq<Connection>
    /** Requests in flight and requests completed per operation, since they were last written out. */
    var buffered: Deltas
    var requests: Deltas
    var ticks: nat
    var nextId: nat
    /** Deltas written out so far, and the connections driven in this tick. */
    ghost var flushed: Deltas
    ghost var driven: seq<nat>

    ghost predicate Books()
      reads this
    {
      && |connections| <= MAX_CONNECTIONS && Balanced(connections, buffered, flushed) && Plausible(flushed)
      && requests.Keys <= buffered.Keys
    }

    ghost predicate Inv()
      reads this
    {
      Books() && InOrder(connections, nextId)
    }

    constructor (io: (nat, nat) -> Io)
      ensures Inv() && connections == [] && buffered == map[]
    {
      this.io := io;
      connections, buffered, requests, ticks, nextId, flushed, driven := [], map[], map[], 0, 0, map[], [];
    }

    /** The gauge of an operation is the number of requests being served under it. */
    lemma GaugesExact(op: Operation)
      requires Inv()
      ensures Get(buffered, op) + Get(flushed, op) == Serving(connections, op)
    {
      CountServing(connections, op);
    }

    method StartRequest(i: nat)
      requires Books() && i < |connections|
      requires connections[i].active && connections[i].started && connections[i].metricOperation == InvalidRequest
      modifies `connections, `buffered
      ensures Books() && connections == old(connections)[i := old(connections[i]).(started := false)]
    {
      var c := connections[i].(started := false);
      BalancedBegin(connections, i, c, InvalidRequest, buffered, flushed);
      connections := connections[i := c];
      buffered := Begin(buffered, InvalidRequest);
    }

    method ReclassifyRequest(i: nat, operation: Operation)
      requires Books() && i < |connections| && connections[i].active && !connections[i].started
      modifies `connections, `buffered
      ensures Books() && connections == old(connections)[i := old(connections[i]).(metricOperation := operation)]
      ensures buffered == Reclassify(old(buffered), old(connections[i].metricOperation), operation)
    {
      var c := connections[i];
      BalancedReclassify(connections, i, operation, buffered, flushed);
      buffered := Reclassify(buffered, c.metricOperation, operation);
      connections := connections[i := c.(metricOperation := operation)];
    }

    /** A request ends under the operation it turned out to be, and is counted there once. */
    method CompleteRequest(i: nat, operation: Operation)
      requires Books() && i < |connections| && connections[i].active && !connections[i].started
      modifies `connections, `buffered, `requests
      ensures Books()
      ensures buffered == End(Reclassify(old(buffered), old(connections[i].metricOperation), operation), operation)
      ensures requests == Begin(old(requests), operation)
      ensures connections ==
              old(connections)[i := old(connections[i]).(active := false, metricOperation := InvalidRequest)]
    {
      ReclassifyRequest(i, operation);
      var c := connections[i];
      var idle := c.(active := false, metricOperation := InvalidRequest);
      BalancedEnd(connections, i, idle, c.metricOperation, buffered, flushed);
      buffered := End(buffered, c.metricOperation);
      requests := Begin(requests, c.metricOperation);
      connections := connections[i := idle];
    }

    method Remove(i: nat)
      requires Books() && i < |connections| && !connections[i].active
      modifies `connections
      ensures Books() && connections == SwapRemove(old(connections), i)
    {
      BalancedRemove(connections, i, buffered, flushed);
      connections := SwapRemove(connections, i);
    }

    /** Installs what a drive left behind and counts a request that started. */
    method Install(i: nat, d: Connection, r: DriveResult)
      requires Inv() && i < |connections| && Drives(connections[i], d, r)
      modifies `connections, `buffered
      ensures Books() && connections == old(connections)[i := d.(started := false)]
    {
      BalancedSame(connections, i, d, buffered, flushed);
      connections := connections[i := d];
      if d.started {
        StartRequest(i);
      }
      assert d.started == false ==> d.(started := false) == d;
    }

    /** One drive of one connection, with the events of this tick. */
    method Drive(c: Connection) returns (d: Connection, r: DriveResult)
      modifies `driven
      ensures (d, r) == Driven(c, io(ticks, c.id)) && driven == old(driven) + [c.id]
    {
      driven := driven + [c.id];
      var io := io(ticks, c.id);
      d := c;
      if !d.active && io.idle {
        d := d.(stage := Shut);
        return d, ConnectionClosed;
      }
      if d.active && io.idle {
        if d.stage.Writing? {
          d := d.(stage := Shut);
          return d, RequestComplete(true, d.operation);
        }
        d := d.(stage := Writing);
      }
      if d.sendContinue {
        match io.beforeRead {
          case ContinueDone => d := d.(sendContinue := false);
          case ContinuePending => return d, Pending;
          case ContinueFailed => return d, IoFailed;
        }
      }
      if d.stage.Reading? {
        var o;
        d, o := DriveRead(d, io.incoming);
        if o.ClosedIdle? {
          return d, ConnectionClosed;
        }
        if o.ReadError? {
          return d, IoFailed;
        }
      }
      if d.sendContinue {
        match io.afterRead {
          case ContinueDone => d := d.(sendContinue := false);
          case ContinuePending => return d, Pending;
          case ContinueFailed => return d, IoFailed;
        }
      }
      if d.stage.Writing? {
        d, r := DriveWrite(d, io.outgoing, io.closeAfterResponse);
        return;
      }
      return d, Pending;
    }

    /** The bookkeeping after one drive. */
    method Account(i: nat, d: Connection, r: DriveResult) returns (removed: bool)
      requires Inv() && i < |connections| && Drives(connections[i], d, r)
      modifies `connections, `buffered, `requests
      ensures Inv()
      ensures removed == Kept(d, Outcome(d, r)).None?
      ensures requests == if Outcome(d, r).RequestComplete? then Begin(old(requests), Outcome(d, r).operation)
                          else old(requests)
      ensures if removed then connections == SwapRemove(old(connections), i)
              else connections == old(connections)[i := Kept(d, Outcome(d, r)).value]
    {
      ghost var before := connections;
      Install(i, d, r);
      match Outcome(d, r) {
        case Pending =>
          if d.active {
            ReclassifyRequest(i, d.operation);
            Replaced(before, i, d.(started := false), connections[i]);
          }
          InOrderKept(before, i, connections[i], nextId);
          return false;
        case ConnectionClosed =>
          Remove(i);
          Replaced(before, i, d.(started := false), d);
          InOrderRemoved(before, i, nextId);
          return true;
        case RequestComplete(close, operation) =>
          CompleteRequest(i, operation);
          Replaced(before, i, d.(started := false), connections[i]);
          if close {
            Replaced(before, i, connections[i], d);
            Remove(i);
            InOrderRemoved(before, i, nextId);
          } else {
            InOrderKept(before, i, connections[i], nextId);
          }
          return close;
      }
    }

    /** Drives the connection at `index` and returns the index to go on with. */
    method DriveOne(index: nat, ghost all: multiset<nat>, ghost goal: multiset<Connection>) returns (next: nat)
      requires Inv() && index < |connections| && Midway(driven, connections, index, io, ticks, all, goal)
      modifies `connections, `buffered, `requests, `driven
      ensures Inv() && driven == old(driven) + [old(connections[index].id)]
      ensures next <= |connections| && |connections| - next < |old(connections)| - index
      ensures Midway(driven, connections, next, io, ticks, all, goal)
    {
      ghost var before, earlier := connections, driven;
      var c := connections[index];
      var d, r := Drive(c);
      DrivenKeeps(c, io(ticks, c.id));
      var removed := Account(index, d, r);
      if removed {
        MidwayRemoved(earlier, before, index, io, ticks, all, goal);
        return index;
      }
      MidwayKept(earlier, before, index, connections[index], io, ticks, all, goal);
      return index + 1;
    }

    /** One tick over all connections: removals swap the last connection into the gap, and still every
        connection present at the start is driven exactly once, and no other; what is left is what
        one drive of each, with its own io, tick, leaves of it. */
    method DriveConnections()
      requires Inv()
      modifies `connections, `buffered, `requests, `driven, `ticks
      ensures Inv() && multiset(driven) == multiset(Ids(old(connections)))
      ensures EachOnce(multiset(driven), old(connections)) && ticks == old(ticks) + 1
      ensures multiset(connections) == Remaining(old(connections), io, old(ticks))
    {
      ghost var before, tick := connections, ticks;
      driven := [];
      PartitionStart(before);
      SettlingStart(before, io, tick);
      AllOnce(before, nextId);
      DriveAll(multiset(Ids(before)), Remaining(before, io, tick));
      ticks := ticks + 1;
    }

    method DriveAll(ghost all: multiset<nat>, ghost goal: multiset<Connection>)
      requires Inv() && Midway(driven, connections, 0, io, ticks, all, goal)
      modifies `connections, `buffered, `requests, `driven
      ensures Inv() && multiset(driven) == all && multiset(connections) == goal
    {
      var index: nat := 0;
      while index < |connections|
        invariant index <= |connections| && Inv()
        invariant Midway(driven, connections, index, io, ticks, all, goal)
        decreases |connections| - index
      {
        index := DriveOne(index, all, goal);
      }
      PartitionEnd(driven, connections, index, all);
      SettlingEnd(connections, io, ticks, goal);
    }

    /** A connection that cannot be served is counted and completed at once. */
    method TrackImmediateError(operation: Operation)
      requires Inv()
      modifies `buffered, `requests
      ensures Inv() && requests == Begin(old(requests), operation)
      ensures forall op :: Get(buffered, op) == Get(old(buffered), op)
    {
      NoSaturation(connections, buffered, flushed, operation);
      buffered := End(Begin(buffered, operation), operation);
      requests := Begin(requests, operation);
    }

    /** Accepts one connection if there is room and it can be set up, under a number never used
        before. */
    method AcceptOne(accepted: bool)
      requires Inv()
      modifies `connections, `buffered, `requests, `nextId
      ensures Inv() && forall op :: Get(buffered, op) == Get(old(buffered), op)
      ensures if accepted && |old(connections)| < MAX_CONNECTIONS
              then connections == old(connections) + [Fresh(old(nextId))] && nextId == old(nextId) + 1
              else connections == old(connections) && nextId == old(nextId)
    {
      if |connections| < MAX_CONNECTIONS {
        if accepted {
          BalancedAdd(connections, Fresh(nextId), buffered, flushed);
          KnownAdded(connections, nextId);
          connections := connections + [Fresh(nextId)];
          nextId := nextId + 1;
        } else {
          TrackImmediateError(InvalidRequest);
        }
      } else {
        TrackImmediateError(ServiceUnavailable);
      }
    }

    /** Accepts while there is room; the rest is turned away. */
    method AcceptConnections(accepted: seq<bool>)
      requires Inv()
      modifies `connections, `buffered, `requests, `nextId
      ensures Inv() && Numbered(old(connections), connections, old(nextId))
      ensures nextId - |connections| == old(nextId) - |old(connections)|
      ensures forall op :: Get(buffered, op) == Get(old(buffered), op)
    {
      for k := 0 to |accepted|
        invariant Inv() && Numbered(old(connections), connections, old(nextId))
        invariant nextId - |connections| == old(nextId) - |old(connections)|
        invariant forall op :: Get(buffered, op) == Get(old(buffered), op)
      {
        AcceptOne(accepted[k]);
      }
    }

    /** Writes deltas out; those that cannot be written stay buffered. */
    method FlushMetrics(writable: Operation -> bool) returns (success: bool)
      requires Inv()
      modifies `buffered, `requests, `flushed
      ensures connections == old(connections)
      ensures Inv()
      ensures forall op :: op in buffered ==> op in old(buffered) && !writable(op) && buffered[op] == old(buffered)[op]
      ensures forall op :: op in requests <==> op in old(requests) && !writable(op)
      ensures forall op :: op in requests ==> requests[op] == old(requests)[op]
      ensures success <==> buffered == map[]
    {
      var left := buffered.Keys;
      success := true;
      ghost var kept := InvalidRequest;
      while left != {}
        invariant left <= buffered.Keys && Inv()
        invariant forall op :: op in buffered ==> op in old(buffered) && buffered[op] == old(buffered)[op]
        invariant forall op :: op in buffered && op !in left ==> !writable(op)
        invariant forall op :: op in old(requests) && !writable(op) ==> op in requests
        invariant forall op :: op in requests ==> op in old(requests) && requests[op] == old(requests)[op]
        invariant if success then buffered.Keys <= left else kept in buffered && kept !in left
        decreases |left|
      {
        if forall op: Operation :: op !in left {
          assert false;
        }
        var op: Operation :| op in left;
        if writable(op) {
          BalancedFlush(connections, buffered, flushed, op);
          flushed := FlushOne(flushed, buffered, op);
          buffered, requests := buffered - {op}, requests - {op};
        } else {
          success, kept := false, op;
        }
        left := left - {op};
      }
    }

    /** At shutdown every request is completed and every gauge returns to zero. */
    method AbandonConnections()
      requires Inv()
      modifies `connections, `buffered, `requests
      ensures Inv() && connections == []
      ensures forall op :: Get(buffered, op) + Get(flushed, op) == 0
    {
      for i := 0 to |connections|
        invariant |connections| == |old(connections)| && Books()
        invariant forall k :: 0 <= k < |connections| ==> !connections[k].started
        invariant forall k :: 0 <= k < i ==> !connections[k].active
      {
        if connections[i].active {
          CompleteRequest(i, connections[i].operation);
        }
      }
      forall op ensures Get(buffered, op) + Get(flushed, op) == 0 {
        NoneActive(connections, op);
      }
      connections := [];
    }
  }

  /** What happens in one turn of the main loop besides driving the connections. */
  datatype Turn = Turn(accepted: seq<bool>, flush: bool, writable: Operation -> bool)

  /** The main loop, and the shutdown after it: whatever the sockets, the requests and the metrics
      table do, the worker leaves with every gauge at zero. */
  method Serve(w: Worker, turns: seq<Turn>, atExit: Operation -> bool)
    requires w.Inv()
    modifies w
    ensures w.Inv() && w.connections == []
    ensures forall op :: Get(w.buffered, op) + Get(w.flushed, op) == 0
  {
    for t := 0 to |turns|
      invariant w.Inv()
    {
      w.AcceptConnections(turns[t].accepted);
      w.DriveConnections();
      if turns[t].flush {
        var _ := w.FlushMetrics(turns[t].writable);
      }
    }
    w.AbandonConnections();
    var _ := w.FlushMetrics(atExit);
    forall op ensures Get(w.buffered, op) + Get(w.flushed, op) == 0 {
      assert Count(w.connections, op) == 0;
    }
  }

  lemma {:induction false} NoneActive(connections: seq<Connection>, op: Operation)
    requires forall k :: 0 <= k < |connections| ==> !connections[k].active
    ensures Count(connections, op) == 0
  {
    if connections != [] {
      NoneActive(connections[..|connections| - 1], op);
    }
  }
}
