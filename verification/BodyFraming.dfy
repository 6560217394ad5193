/** How a request body is delimited (src/workers/http.rs): not at all, by its length, or by the
    chunked transfer coding. */
module BodyFraming {
  import opened Bytes
  import HttpChunked

  datatype Framing = NoBody | Fixed(remaining: nat) | Chunked(decoder: HttpChunked.Decoder)

  datatype Progress = Progress(framing: Framing, entity: bytes, consumed: int) | Broken(error: HttpChunked.Error)

  predicate IsComplete(f: Framing) {
    match f
    case NoBody => true
    case Fixed(remaining) => remaining == 0
    case Chunked(d) => d.state.Complete?
  }

  /** A framing that nothing has been read with yet. */
  predicate Initial(f: Framing) {
    f.Chunked? ==> f.decoder == HttpChunked.START
  }

  /** The framing of a head; a declared length over the limit is refused. */
  function FromHead(contentLength: Option<nat>, chunked: bool): (f: Option<Framing>)
    ensures f.Some? ==> Initial(f.value)
  {
    if chunked then Some(Chunked(HttpChunked.START))
    else if contentLength.None? then Some(NoBody)
    else if contentLength.value > HttpChunked.MAX_BODY then None
    else Some(Fixed(contentLength.value))
  }

  function Push(f: Framing, input: bytes): Progress {
    match f
    case NoBody => Progress(NoBody, [], 0)
    case Fixed(remaining) =>
      var count := Min(remaining, |input|);
      Progress(Fixed(remaining - count), input[..count], count)
    case Chunked(d) =>
      match HttpChunked.Push(d, input)
      case Refused(error) => Broken(error)
      case Pushed(next, entity, consumed) => Progress(Chunked(next), entity, consumed)
  }

  /** What two fragments amount to; nothing is read after the end of the body. */
  function Then(first: Progress, more: bytes): Progress {
    match first
    case Broken(error) => Broken(error)
    case Progress(f, entity, consumed) =>
      if IsComplete(f) then first
      else match Push(f, more)
        case Broken(error) => Broken(error)
        case Progress(next, others, also) => Progress(next, entity + others, consumed + also)
  }

  /** The framed entity does not depend on how the bytes arrive. */
  lemma PushThen(f: Framing, a: bytes, b: bytes)
    ensures Then(Push(f, a), b) == Push(f, a + b)
  {
    match f {
      case NoBody =>
      case Fixed(remaining) =>
        var m, n := Min(remaining, |a|), Min(remaining, |a| + |b|);
        if m == remaining {
          assert (a + b)[..m] == a[..m];
        } else {
          assert a[..m] == a;
          assert (a + b)[..n] == a + b[..n - m];
        }
      case Chunked(d) => HttpChunked.PushAppend(d, a, b);
    }
  }

  lemma PushNothing(f: Framing)
    ensures Push(f, []) == Progress(f, [], 0)
  {
  }

  lemma PushComplete(f: Framing, input: bytes)
    requires IsComplete(f)
    ensures Push(f, input) == Progress(f, [], 0)
  {
    assert input[..0] == [];
  }

  /** The entity bytes in the body bytes, if these are framed. */
  function Entity(start: Framing, wire: bytes): bytes {
    match Push(start, wire)
    case Broken(_) => []
    case Progress(_, entity, _) => entity
  }

  /** A part of framed bytes is framed, to a part of the entity; the whole entity once the body is
      complete. */
  lemma EntityPrefix(start: Framing, wire: bytes, whole: bytes)
    requires wire <= whole && Push(start, whole).Progress?
    ensures Push(start, wire).Progress? && Entity(start, wire) <= Entity(start, whole)
    ensures IsComplete(Push(start, wire).framing) ==> Entity(start, wire) == Entity(start, whole)
  {
    var more := whole[|wire|..];
    assert whole == wire + more;
    PushThen(start, wire, more);
  }

  /** One more fragment, from the start of the body. */
  lemma PushMore(start: Framing, wire: bytes, more: bytes)
    requires Push(start, wire).Progress?
    ensures var p, q := Push(start, wire), Push(Push(start, wire).framing, more);
            match q
            case Broken(error) => Push(start, wire + more) == Broken(error)
            case Progress(f, entity, consumed) =>
              Push(start, wire + more) == Progress(f, p.entity + entity, p.consumed + consumed)
  {
    var p := Push(start, wire);
    PushThen(start, wire, more);
    if IsComplete(p.framing) {
      PushComplete(p.framing, more);
      assert p.entity + [] == p.entity;
    }
  }
}
