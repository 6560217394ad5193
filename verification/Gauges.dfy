/** In-flight gauges (src/workers/http.rs, src/workers/mod.rs): signed deltas per operation, kept in
    step with the requests that are active. */
module Gauges {
  import opened Bytes

  datatype Operation = InvalidRequest | ServiceUnavailable | Named(name: string)

  type Deltas = map<Operation, int>

  function Get(m: Deltas, op: Operation): int {
    if op in m then m[op] else 0
  }

  function Saturate(x: int): int {
    if x > I64_MAX then I64_MAX else if x < -I64_MAX - 1 then -I64_MAX - 1 else x
  }

  /** One request enters the bucket of an operation. */
  function Begin(m: Deltas, op: Operation): Deltas {
    m[op := Saturate(Get(m, op) + 1)]
  }

  /** One request leaves it. */
  function End(m: Deltas, op: Operation): Deltas {
    m[op := Saturate(Get(m, op) - 1)]
  }

  function Reclassify(m: Deltas, from: Operation, to: Operation): Deltas {
    if from == to then m else Begin(End(m, from), to)
  }

  // ----- connections

  /** What the exchange of a connection is doing. */
  datatype Stage = Reading | Writing | Shut

  datatype Connection = Connection(
    id: nat, active: bool, started: bool, metricOperation: Operation, stage: Stage, operation: Operation,
    sendContinue: bool)

  function Fresh(id: nat): Connection {
    Connection(id, false, false, InvalidRequest, Reading, InvalidRequest, false)
  }

  /** Between ticks: only an active request is answered or classified, its start has been counted, and
      it is classified as the operation that its exchange serves. */
  predicate Sound(c: Connection) {
    && !c.started
    && (if c.active then c.metricOperation == c.operation
        else c.metricOperation == InvalidRequest && c.stage.Reading?)
    && !c.stage.Shut?
  }

  predicate AllSound(connections: seq<Connection>) {
    forall i :: 0 <= i < |connections| ==> Sound(connections[i])
  }

  /** A request counts once its start has been recorded. */
  predicate Counts(c: Connection, op: Operation) {
    c.active && !c.started && c.metricOperation == op
  }

  function One(c: Connection, op: Operation): nat {
    if Counts(c, op) then 1 else 0
  }

  /** Active requests classified under an operation. */
  function Count(connections: seq<Connection>, op: Operation): nat {
    if connections == [] then 0
    else Count(connections[..|connections| - 1], op) + One(connections[|connections| - 1], op)
  }

  /** Active requests whose exchange serves an operation. */
  function Serving(connections: seq<Connection>, op: Operation): nat {
    if connections == [] then 0
    else
      var last := connections[|connections| - 1];
      Serving(connections[..|connections| - 1], op) + if last.active && last.operation == op then 1 else 0
  }

  lemma {:induction false} CountServing(connections: seq<Connection>, op: Operation)
    requires AllSound(connections)
    ensures Count(connections, op) == Serving(connections, op)
  {
    if connections != [] {
      CountServing(connections[..|connections| - 1], op);
    }
  }

  lemma {:induction false} CountBounded(connections: seq<Connection>, op: Operation)
    ensures Count(connections, op) <= |connections|
  {
    if connections != [] {
      CountBounded(connections[..|connections| - 1], op);
    }
  }

  lemma CountSnoc(connections: seq<Connection>, c: Connection, op: Operation)
    ensures Count(connections + [c], op) == Count(connections, op) + One(c, op)
  {
    assert (connections + [c])[..|connections|] == connections;
  }

  lemma {:induction false} CountUpdate(connections: seq<Connection>, i: nat, c: Connection, op: Operation)
    requires i < |connections|
    ensures Count(connections[i := c], op) == Count(connections, op) - One(connections[i], op) + One(c, op)
  {
    var n := |connections| - 1;
    if i < n {
      CountUpdate(connections[..n], i, c, op);
      assert connections[i := c][..n] == connections[..n][i := c];
    } else {
      assert connections[i := c][..n] == connections[..n];
    }
  }

  /** Removal by moving the last connection into the gap. */
  function SwapRemove(connections: seq<Connection>, i: nat): seq<Connection>
    requires i < |connections|
  {
    connections[i := connections[|connections| - 1]][..|connections| - 1]
  }

  lemma CountSwapRemove(connections: seq<Connection>, i: nat, op: Operation)
    requires i < |connections|
    ensures Count(SwapRemove(connections, i), op) == Count(connections, op) - One(connections[i], op)
  {
    var n := |connections| - 1;
    CountUpdate(connections, i, connections[n], op);
    var moved := connections[i := connections[n]];
    assert moved == moved[..n] + [moved[n]];
    CountSnoc(moved[..n], moved[n], op);
  }

  // ----- the balance

  const MAX_CONNECTIONS: int := 256

  /** Buffered and flushed deltas together are the number of active requests of every operation. */
  ghost predicate Balanced(connections: seq<Connection>, buffered: Deltas, flushed: Deltas) {
    forall op :: Get(buffered, op) + Get(flushed, op) == Count(connections, op)
  }

  /** What has been flushed was once a number of connections. */
  ghost predicate Plausible(flushed: Deltas) {
    forall op :: 0 <= Get(flushed, op) <= MAX_CONNECTIONS
  }

  /** The arithmetic on buffered deltas never saturates. */
  lemma NoSaturation(connections: seq<Connection>, buffered: Deltas, flushed: Deltas, op: Operation)
    requires Balanced(connections, buffered, flushed) && Plausible(flushed) && |connections| <= MAX_CONNECTIONS
    ensures 0 - MAX_CONNECTIONS <= Get(buffered, op) <= MAX_CONNECTIONS
    ensures Get(Begin(buffered, op), op) == Get(buffered, op) + 1
    ensures Get(End(buffered, op), op) == Get(buffered, op) - 1
  {
    CountBounded(connections, op);
  }

  /** Replacing one connection by one that counts the same. */
  lemma BalancedSame(connections: seq<Connection>, i: nat, c: Connection, buffered: Deltas, flushed: Deltas)
    requires Balanced(connections, buffered, flushed) && i < |connections|
    requires forall op :: One(c, op) == One(connections[i], op)
    ensures Balanced(connections[i := c], buffered, flushed)
  {
    forall op ensures Get(buffered, op) + Get(flushed, op) == Count(connections[i := c], op) {
      CountUpdate(connections, i, c, op);
    }
  }

  /** A request starts being counted. */
  lemma BalancedBegin(
    connections: seq<Connection>, i: nat, c: Connection, op: Operation, buffered: Deltas, flushed: Deltas)
    requires Balanced(connections, buffered, flushed) && Plausible(flushed) && |connections| <= MAX_CONNECTIONS
    requires i < |connections| && Counts(c, op) && forall o :: !Counts(connections[i], o)
    ensures Balanced(connections[i := c], Begin(buffered, op), flushed)
  {
    NoSaturation(connections, buffered, flushed, op);
    forall o ensures Get(Begin(buffered, op), o) + Get(flushed, o) == Count(connections[i := c], o) {
      CountUpdate(connections, i, c, o);
    }
  }

  /** A request stops being counted. */
  lemma BalancedEnd(
    connections: seq<Connection>, i: nat, c: Connection, op: Operation, buffered: Deltas, flushed: Deltas)
    requires Balanced(connections, buffered, flushed) && Plausible(flushed) && |connections| <= MAX_CONNECTIONS
    requires i < |connections| && Counts(connections[i], op) && forall o :: !Counts(c, o)
    ensures Balanced(connections[i := c], End(buffered, op), flushed)
  {
    NoSaturation(connections, buffered, flushed, op);
    forall o ensures Get(End(buffered, op), o) + Get(flushed, o) == Count(connections[i := c], o) {
      CountUpdate(connections, i, c, o);
    }
  }

  /** A request moves from one operation to another. */
  lemma BalancedReclassify(connections: seq<Connection>, i: nat, to: Operation, buffered: Deltas, flushed: Deltas)
    requires Balanced(connections, buffered, flushed) && Plausible(flushed) && |connections| <= MAX_CONNECTIONS
    requires i < |connections| && connections[i].active && !connections[i].started
    ensures var c := connections[i];
            Balanced(connections[i := c.(metricOperation := to)], Reclassify(buffered, c.metricOperation, to), flushed)
  {
    var c := connections[i];
    if c.metricOperation == to {
      assert connections[i := c] == connections;
      assert c.(metricOperation := to) == c;
    } else {
      var idle := c.(active := false);
      BalancedEnd(connections, i, idle, c.metricOperation, buffered, flushed);
      var between := connections[i := idle];
      BalancedBegin(between, i, c.(metricOperation := to), to, End(buffered, c.metricOperation), flushed);
      assert between[i := c.(metricOperation := to)] == connections[i := c.(metricOperation := to)];
    }
  }

  lemma BalancedRemove(connections: seq<Connection>, i: nat, buffered: Deltas, flushed: Deltas)
    requires Balanced(connections, buffered, flushed) && i < |connections| && forall o :: !Counts(connections[i], o)
    ensures Balanced(SwapRemove(connections, i), buffered, flushed)
  {
    forall op ensures Get(buffered, op) + Get(flushed, op) == Count(SwapRemove(connections, i), op) {
      CountSwapRemove(connections, i, op);
    }
  }

  lemma BalancedAdd(connections: seq<Connection>, c: Connection, buffered: Deltas, flushed: Deltas)
    requires Balanced(connections, buffered, flushed) && !c.active
    ensures Balanced(connections + [c], buffered, flushed)
  {
    forall op ensures Get(buffered, op) + Get(flushed, op) == Count(connections + [c], op) {
      CountSnoc(connections, c, op);
    }
  }

  // ----- flushing

  /** One operation's delta was written out. */
  function FlushOne(flushed: Deltas, buffered: Deltas, op: Operation): Deltas {
    flushed[op := Get(flushed, op) + Get(buffered, op)]
  }

  lemma BalancedFlush(connections: seq<Connection>, buffered: Deltas, flushed: Deltas, op: Operation)
    requires Balanced(connections, buffered, flushed) && Plausible(flushed) && |connections| <= MAX_CONNECTIONS
    ensures Balanced(connections, buffered - {op}, FlushOne(flushed, buffered, op))
    ensures Plausible(FlushOne(flushed, buffered, op))
  {
    CountBounded(connections, op);
    forall o ensures Get(buffered - {op}, o) + Get(FlushOne(flushed, buffered, op), o) == Count(connections, o) {
    }
    forall o ensures 0 <= Get(FlushOne(flushed, buffered, op), o) <= MAX_CONNECTIONS {
    }
  }
}
