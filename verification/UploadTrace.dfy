/** The database calls an upload body makes (src/s3/service.rs), and what a well-behaved sequence of
    them looks like. */
module UploadTrace {
  import opened Bytes

  datatype Call =
    | PutChunk(sequence: int, data: bytes, part: int)
    | PutChunkSealed(sequence: int, data: bytes, sha256: bytes)
    | FinishSealed(
        expectedSha256: Option<bytes>, sha256: bytes, md5: bytes, size: int,
        ids: seq<bytes>, sizes: seq<int>, sequence: int, data: bytes, chunkSha256: bytes)
    | CompleteSealed(
        expectedSha256: Option<bytes>, sha256: bytes, md5: bytes, size: int, ids: seq<bytes>, sizes: seq<int>)
    | CompletePart(part: int, expectedSha256: Option<bytes>)
    | PutObject(body: bytes, expectedSha256: Option<bytes>)
    | Dispatch(body: bytes)
    | Renew(multipart: bool)
    | AbortUpload
    | AbortPart(part: int)

  /** A call and whether the database carried it out. */
  datatype Entry = Entry(call: Call, ok: bool)

  predicate IsPublish(c: Call) {
    c.FinishSealed? || c.CompleteSealed? || c.CompletePart? || c.PutObject? || c.Dispatch?
  }

  predicate IsCleanup(c: Call) {
    c.AbortUpload? || c.AbortPart?
  }

  predicate IsPut(c: Call) {
    c.PutChunk? || c.PutChunkSealed?
  }

  // ----- what has been stored

  /** The chunks stored by a sequence of calls, in order. */
  function Deposits(calls: seq<Entry>): seq<bytes> {
    if calls == [] then []
    else
      var (front, last) := (calls[..|calls| - 1], calls[|calls| - 1]);
      if last.ok && IsPut(last.call) then Deposits(front) + [last.call.data] else Deposits(front)
  }

  function DigestsOf(sha256: bytes -> bytes, chunks: seq<bytes>): seq<bytes> {
    if chunks == [] then [] else DigestsOf(sha256, chunks[..|chunks| - 1]) + [sha256(chunks[|chunks| - 1])]
  }

  function LengthsOf(chunks: seq<bytes>): seq<int> {
    if chunks == [] then [] else LengthsOf(chunks[..|chunks| - 1]) + [|chunks[|chunks| - 1]|]
  }

  function Sum(sizes: seq<int>): int {
    if sizes == [] then 0 else Sum(sizes[..|sizes| - 1]) + sizes[|sizes| - 1]
  }

  /** The sizes in a manifest add up to the bytes they describe. */
  lemma {:induction false} LengthsSum(chunks: seq<bytes>)
    ensures Sum(LengthsOf(chunks)) == |Flatten(chunks)|
  {
    if chunks != [] {
      var front, last := chunks[..|chunks| - 1], chunks[|chunks| - 1];
      LengthsSum(front);
      assert chunks == front + [last];
      FlattenSnoc(front, last);
      var sizes := LengthsOf(front);
      assert (sizes + [|last|])[..|sizes|] == sizes;
    }
  }

  /** Every chunk has this size. */
  predicate AllOfSize(chunks: seq<bytes>, size: nat) {
    forall i :: 0 <= i < |chunks| ==> |chunks[i]| == size
  }

  /** Chunks numbered from zero and stored with their digests, and lease renewals between them; part
      zero is an upload that is not multipart. All of them were carried out. */
  predicate Orderly(sha256: bytes -> bytes, part: int, calls: seq<Entry>) {
    calls == [] ||
    (var (front, last) := (calls[..|calls| - 1], calls[|calls| - 1]);
     && Orderly(sha256, part, front)
     && last.ok
     && match last.call
        case PutChunkSealed(sequence, data, digest) =>
          part == 0 && sequence == |Deposits(front)| && digest == sha256(data)
        case PutChunk(sequence, data, number) =>
          part != 0 && number == part && sequence == |Deposits(front)|
        case Renew(multipart) => multipart == (part != 0)
        case _ => false)
  }

  /** The last call has renewed the lease of the upload. */
  predicate Renewed(part: int, calls: seq<Entry>) {
    calls != [] && calls[|calls| - 1] == Entry(Renew(part != 0), true)
  }

  /** Orderly, or orderly up to one last call that failed. */
  predicate Interrupted(sha256: bytes -> bytes, part: int, calls: seq<Entry>) {
    Orderly(sha256, part, calls)
    || (calls != [] && !calls[|calls| - 1].ok && !IsCleanup(calls[|calls| - 1].call)
        && Orderly(sha256, part, calls[..|calls| - 1]))
  }

  /** The upload was published as its last call. */
  predicate Published(sha256: bytes -> bytes, part: int, calls: seq<Entry>) {
    && calls != []
    && calls[|calls| - 1].ok && IsPublish(calls[|calls| - 1].call)
    && Orderly(sha256, part, calls[..|calls| - 1])
  }

  function CleanupCall(part: int): Call {
    if part == 0 then AbortUpload else AbortPart(part)
  }

  /** The upload was given up and cleaned up as its last call. */
  predicate CleanedUp(sha256: bytes -> bytes, part: int, calls: seq<Entry>) {
    && calls != []
    && calls[|calls| - 1].call == CleanupCall(part)
    && Interrupted(sha256, part, calls[..|calls| - 1])
  }

  // ----- counting

  function SuccessfulPublishes(calls: seq<Entry>): nat {
    if calls == [] then 0
    else
      var (front, last) := (calls[..|calls| - 1], calls[|calls| - 1]);
      SuccessfulPublishes(front) + if last.ok && IsPublish(last.call) then 1 else 0
  }

  function Cleanups(calls: seq<Entry>): nat {
    if calls == [] then 0
    else
      var (front, last) := (calls[..|calls| - 1], calls[|calls| - 1]);
      Cleanups(front) + if IsCleanup(last.call) then 1 else 0
  }

  lemma {:induction false} OrderlyCounts(sha256: bytes -> bytes, part: int, calls: seq<Entry>)
    requires Orderly(sha256, part, calls)
    ensures SuccessfulPublishes(calls) == 0 && Cleanups(calls) == 0
  {
    if calls != [] {
      OrderlyCounts(sha256, part, calls[..|calls| - 1]);
    }
  }

  lemma InterruptedCounts(sha256: bytes -> bytes, part: int, calls: seq<Entry>)
    requires Interrupted(sha256, part, calls)
    ensures SuccessfulPublishes(calls) == 0 && Cleanups(calls) == 0
  {
    if Orderly(sha256, part, calls) {
      OrderlyCounts(sha256, part, calls);
    } else {
      OrderlyCounts(sha256, part, calls[..|calls| - 1]);
    }
  }

  /** A finished upload was published once and never cleaned up, or cleaned up once and never
      published. */
  lemma ExactlyOneEnding(sha256: bytes -> bytes, part: int, calls: seq<Entry>)
    ensures Published(sha256, part, calls) ==> SuccessfulPublishes(calls) == 1 && Cleanups(calls) == 0
    ensures CleanedUp(sha256, part, calls) ==> SuccessfulPublishes(calls) == 0 && Cleanups(calls) == 1
    ensures !(Published(sha256, part, calls) && CleanedUp(sha256, part, calls))
  {
    if Published(sha256, part, calls) {
      OrderlyCounts(sha256, part, calls[..|calls| - 1]);
    }
    if CleanedUp(sha256, part, calls) {
      InterruptedCounts(sha256, part, calls[..|calls| - 1]);
    }
  }

  /** In an orderly sequence the k-th put carries number k and the k-th chunk. */
  lemma {:induction false} PutsNumbered(sha256: bytes -> bytes, part: int, calls: seq<Entry>, i: nat)
    requires Orderly(sha256, part, calls) && i < |calls| && IsPut(calls[i].call)
    ensures var k := calls[i].call.sequence;
            0 <= k < |Deposits(calls)| && Deposits(calls)[k] == calls[i].call.data && k == |Deposits(calls[..i])|
  {
    var front := calls[..|calls| - 1];
    if i < |calls| - 1 {
      PutsNumbered(sha256, part, front, i);
      assert front[..i] == calls[..i];
    }
  }

  // ----- one more call

  lemma CallAdded(calls: seq<Entry>, e: Entry)
    ensures (calls + [e])[..|calls + [e]| - 1] == calls && (calls + [e])[|calls + [e]| - 1] == e
  {
  }

  /** One more cleanup ends an upload as it should exactly when the upload had not ended before. */
  lemma CleanupEnds(sha256: bytes -> bytes, part: int, calls: seq<Entry>, ok: bool)
    ensures var after := calls + [Entry(CleanupCall(part), ok)];
            && (CleanedUp(sha256, part, after) <==> Interrupted(sha256, part, calls))
            && SuccessfulPublishes(after) == SuccessfulPublishes(calls) && Cleanups(after) == Cleanups(calls) + 1
  {
    CallAdded(calls, Entry(CleanupCall(part), ok));
  }

  /** A cleanup too many: an upload that is over is cleaned up twice, or published and then cleaned
      up. */
  lemma CleanupTooMany(sha256: bytes -> bytes, part: int, calls: seq<Entry>, ok: bool)
    ensures var after := calls + [Entry(CleanupCall(part), ok)];
            && (CleanedUp(sha256, part, calls) ==>
                  !CleanedUp(sha256, part, after) && SuccessfulPublishes(after) == 0 && Cleanups(after) == 2)
            && (Published(sha256, part, calls) ==>
                  !CleanedUp(sha256, part, after) && SuccessfulPublishes(after) == 1 && Cleanups(after) == 1)
  {
    CleanupEnds(sha256, part, calls, ok);
    ExactlyOneEnding(sha256, part, calls);
    if Interrupted(sha256, part, calls) {
      InterruptedCounts(sha256, part, calls);
    }
  }

  /** The smallest such run: an upload given up before its first chunk, and given up again. */
  lemma GivenUpTwice(sha256: bytes -> bytes)
    ensures var once := [Entry(AbortUpload, true)];
            && CleanedUp(sha256, 0, once)
            && Cleanups(once + [Entry(AbortUpload, true)]) == 2
  {
    assert [Entry(AbortUpload, true)][..0] == [];
    CleanupTooMany(sha256, 0, [Entry(AbortUpload, true)], true);
  }

  lemma FailedAlone(c: Call)
    requires !IsCleanup(c)
    ensures SuccessfulPublishes([] + [Entry(c, false)]) == 0 && Cleanups([] + [Entry(c, false)]) == 0
  {
    CallAdded([], Entry(c, false));
  }
}
