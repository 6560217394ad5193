/** Cutting an aws-chunked stream into `push` calls: when the cut cannot be observed. */
module AwsChunkedCuts {
  import opened Bytes
  import opened AwsChunked

  /** Successive pushes; a failure or an end is final. */
  function Feed(cfg: Config, o: Outcome, fragments: seq<bytes>): (r: Outcome)
    requires !o.Failed? ==> Valid(cfg, o.state) && (o.Finished? <==> o.state.phase.Done?)
    decreases |fragments|
  {
    if fragments == [] || o.Failed? then o
    else Feed(cfg, Push(cfg, o.state, fragments[0]), fragments[1..])
  }

  function Begin(cfg: Config): (o: Outcome)
    ensures o.NeedMore? && Valid(cfg, o.state) && !o.state.phase.Done?
  {
    StartValid(cfg);
    NeedMore(Start(cfg))
  }

  /** Same verdict and same observations; on failure the two errors may differ. */
  predicate Agree(a: Outcome, b: Outcome) {
    if a.Failed? && b.Failed? then a.released == b.released else a == b
  }

  // ----- lines under extension

  lemma CrlfExtends(s: bytes, t: bytes)
    ensures IndexOfCrlf(s) >= 0 ==> IndexOfCrlf(s + t) == IndexOfCrlf(s)
    ensures IndexOfCrlf(s) < 0 && IndexOfCrlf(s + t) >= 0 ==> IndexOfCrlf(s + t) >= |s| - 1
  {
    var p, q := IndexOfCrlf(s), IndexOfCrlf(s + t);
    assert p >= 0 ==> CrlfAt(s + t, p);
    assert 0 <= q && q + 1 < |s| ==> CrlfAt(s, q);
  }

  lemma TakenExtends(s: bytes, t: bytes, limit: nat)
    requires TakeLine(s, limit).Taken?
    ensures TakeLine(s + t, limit) == Taken(TakeLine(s, limit).text, TakeLine(s, limit).rest + t)
  {
    CrlfExtends(s, t);
    var p := IndexOfCrlf(s);
    assert (s + t)[..p] == s[..p];
    assert (s + t)[p + 2..] == s[p + 2..] + t;
  }

  /** A line already over the limit stays over it, except that the bytes so far may be one line of
      exactly `limit` bytes and its CR. */
  lemma TooLongExtends(s: bytes, t: bytes, limit: nat)
    requires TakeLine(s, limit).TooLong?
    ensures var line := TakeLine(s + t, limit);
            line.TooLong? || (line.Taken? && |line.text| == limit)
  {
    CrlfExtends(s, t);
  }

  // ----- header lengths

  lemma {:induction false} ExtensionLength(fields: seq<bytes>, signature: Option<bytes>)
    requires ParseExtensions(fields, signature).Some?
    ensures var r := ParseExtensions(fields, signature).value;
            && (fields == [] ==> r == signature)
            && (fields != [] ==> signature.None? && r.Some? && |fields| == 1 && |fields[0]| == 80)
  {
    if fields != [] {
      var eq := IndexOf(fields[0], 61);
      ExtensionLength(fields[1..], DecodeSignature(fields[0][eq + 1..]));
    }
  }

  /** A header the parser accepts is 1..16 bytes long without a signature and 82..97 with one. */
  lemma HeaderLength(line: bytes)
    requires ParseChunkHeader(line).Some?
    ensures var signature := ParseChunkHeader(line).value.1;
            if signature.None? then 1 <= |line| <= 16 else 82 <= |line| <= 97
  {
    var fields := Split(line, 59);
    ExtensionLength(fields[1..], None);
    JoinSplit(line, 59);
    if |fields| == 2 {
      assert fields == [fields[0], fields[1]];
      JoinCons(fields[0], [fields[1]], 59);
    }
  }

  /** No header that this mode accepts has exactly `maxChunkHeaderBytes` bytes. */
  predicate CutSafe(cfg: Config) {
    var limit := cfg.limits.maxChunkHeaderBytes;
    match cfg.mode
    case Signed(_) => limit < 82 || limit > 97
    case UnsignedTrailer(_) => limit == 0 || limit > 16
  }

  lemma LongestLineRefused(cfg: Config, st: State, line: bytes)
    requires CutSafe(cfg) && |line| == cfg.limits.maxChunkHeaderBytes
    ensures AcceptHeader(cfg, st, line).Fail?
  {
    if ParseChunkHeader(line).Some? {
      HeaderLength(line);
    }
  }

  // ----- one iteration under extension

  lemma HeaderExtends(cfg: Config, st: State, more: bytes)
    requires Valid(cfg, st) && st.phase.Header?
    ensures match StepHeader(cfg, st)
            case Next(next) => StepHeader(cfg, st.With(more)) == Next(next.With(more))
            case Fail(error) => CutSafe(cfg) || error != HeaderTooLarge ==> StepHeader(cfg, st.With(more)).Fail?
            case _ => true
  {
    var limit := cfg.limits.maxChunkHeaderBytes;
    match TakeLine(st.input, limit) {
      case Taken(line, rest) =>
        TakenExtends(st.input, more, limit);
        assert st.With(more).(input := rest + more) == st.(input := rest).With(more);
      case TooLong =>
        TooLongExtends(st.input, more, limit);
        var longer := TakeLine(st.input + more, limit);
        if longer.Taken? && CutSafe(cfg) {
          LongestLineRefused(cfg, st.(input := longer.rest), longer.text);
        }
      case NoLine =>
    }
  }

  lemma TrailersExtend(cfg: Config, st: State, more: bytes)
    requires Valid(cfg, st) && st.phase.Trailers?
    ensures match StepTrailers(cfg, st)
            case Next(next) => StepTrailers(cfg, st.With(more)) == Next(next.With(more))
            case Fail(error) => StepTrailers(cfg, st.With(more)).Fail?
            case End(last) => more != [] ==> StepTrailers(cfg, st.With(more)) == Fail(InputAfterEnd)
            case Wait => true
  {
    var limit := cfg.limits.maxTrailerBytes;
    match TakeLine(st.input, limit) {
      case Taken(line, rest) =>
        TakenExtends(st.input, more, limit);
        assert st.With(more).(input := rest + more) == st.(input := rest).With(more);
      case TooLong =>
        TooLongExtends(st.input, more, limit);
      case NoLine =>
    }
  }

  lemma DataCrlfExtends(cfg: Config, st: State, more: bytes)
    requires Valid(cfg, st) && st.phase.DataCrlf? && !StepDataCrlf(cfg, st).Wait?
    ensures StepDataCrlf(cfg, st.With(more))
            == match StepDataCrlf(cfg, st) case Next(next) => Next(next.With(more)) case other => other
  {
    assert (st.input + more)[..2] == st.input[..2];
    assert (st.input + more)[2..] == st.input[2..] + more;
  }

  /** Filling a chunk in two helpings is filling it in one. */
  lemma DataCut(cfg: Config, st: State, more: bytes)
    requires Valid(cfg, st) && st.phase.Data? && st.input != []
    requires |st.input| < st.current.value.size - |st.current.value.data|
    ensures var next := StepData(st).state;
            && next == st.(input := [], current := Some(st.current.value.(data := st.current.value.data + st.input)))
            && (more != [] ==> StepData(st.With(more)) == StepData(next.With(more)))
  {
    var chunk := st.current.value;
    assert st.input[..|st.input|] == st.input && [] + more == more;
    if more != [] {
      TakeBoth(chunk.data, st.input, more, Min(chunk.size - |chunk.data| - |st.input|, |more|));
    }
  }

  lemma DataExtends(cfg: Config, st: State, more: bytes)
    requires Valid(cfg, st) && st.phase.Data? && st.input != []
    ensures var next := StepData(st).state;
            if next.phase.DataCrlf? then StepData(st.With(more)) == Next(next.With(more))
            else next.input == [] && (more != [] ==> StepData(st.With(more)) == StepData(next.With(more)))
  {
    var chunk := st.current.value;
    if chunk.size - |chunk.data| <= |st.input| {
      TakeFirst(st.input, more, chunk.size - |chunk.data|);
    } else {
      DataCut(cfg, st, more);
    }
  }

  lemma TakeFirst(a: bytes, b: bytes, n: nat)
    requires n <= |a|
    ensures (a + b)[..n] == a[..n] && (a + b)[n..] == a[n..] + b
  {
  }

  lemma TakeBoth(data: bytes, a: bytes, b: bytes, n: nat)
    requires n <= |b|
    ensures data + (a + b)[..|a| + n] == (data + a) + b[..n]
    ensures (a + b)[|a| + n..] == b[n..]
  {
    assert (a + b)[..|a| + n] == a + b[..n];
    assert data + (a + b[..n]) == (data + a) + b[..n];
  }

  /** A step outside of chunk data is the same when more bytes follow. */
  predicate Survives(cfg: Config, step: Step, more: bytes, longer: Step) {
    match step
    case Next(next) => longer == Next(next.With(more))
    case Fail(_) => CutSafe(cfg) ==> longer.Fail?
    case End(_) => longer == Fail(InputAfterEnd)
    case Wait => true
  }

  lemma IterateExtends(cfg: Config, st: State, more: bytes)
    requires Valid(cfg, st) && !st.phase.Done? && !st.phase.Data? && more != []
    ensures Survives(cfg, Iterate(cfg, st), more, Iterate(cfg, st.With(more)))
  {
    match st.phase {
      case Header => HeaderExtends(cfg, st, more);
      case DataCrlf => if !StepDataCrlf(cfg, st).Wait? { DataCrlfExtends(cfg, st, more); }
      case Trailers => TrailersExtend(cfg, st, more);
    }
  }

  // ----- draining under extension

  lemma DrainStep(cfg: Config, st: State)
    requires Valid(cfg, st) && !st.phase.Done? && Iterate(cfg, st).Next?
    ensures Valid(cfg, Iterate(cfg, st).state) && !Iterate(cfg, st).state.phase.Done?
    ensures |Iterate(cfg, st).state.input| < |st.input|
    ensures Drain(cfg, st) == Drain(cfg, Iterate(cfg, st).state)
  {
    IterateValid(cfg, st);
  }

  lemma DrainNext(cfg: Config, st: State, next: State)
    requires Valid(cfg, st) && !st.phase.Done? && Iterate(cfg, st) == Next(next)
    ensures Valid(cfg, next) && !next.phase.Done? && |next.input| < |st.input|
    ensures Drain(cfg, st) == Drain(cfg, next)
  {
    IterateValid(cfg, st);
  }

  /** What the bytes after a cut can change. */
  lemma {:induction false} DrainExtends(cfg: Config, st: State, more: bytes)
    requires Valid(cfg, st) && !st.phase.Done? && more != []
    ensures Valid(cfg, st.With(more))
    ensures match Drain(cfg, st)
            case NeedMore(cut) => Drain(cfg, st.With(more)) == Drain(cfg, cut.With(more))
            case Finished(last) => Drain(cfg, st.With(more)) == Failed(InputAfterEnd, last.released)
            case Failed(_, released) =>
              CutSafe(cfg) ==> Drain(cfg, st.With(more)).Failed? && Drain(cfg, st.With(more)).released == released
    decreases |st.input|
  {
    if st.phase.Data? {
      if st.input != [] {
        DataDrains(cfg, st, more);
        DrainExtends(cfg, StepData(st).state, more);
      } else {
        EmptyWaits(cfg, st);
      }
    } else {
      IterateExtends(cfg, st, more);
      var step := Iterate(cfg, st);
      if step.Next? {
        DrainStep(cfg, st);
        DrainExtends(cfg, step.state, more);
        DrainStep(cfg, st.With(more));
      } else if step.End? {
        EndReleases(cfg, st);
      }
    }
  }

  /** Chunk data is collected alike whether it comes at once or is cut. */
  lemma DataDrains(cfg: Config, st: State, more: bytes)
    requires Valid(cfg, st) && st.phase.Data? && st.input != [] && more != []
    ensures var next := StepData(st).state;
            && Valid(cfg, next) && !next.phase.Done? && |next.input| < |st.input| && Drain(cfg, st) == Drain(cfg, next)
            && Valid(cfg, st.With(more)) && Valid(cfg, next.With(more))
            && Drain(cfg, st.With(more)) == Drain(cfg, next.With(more))
  {
    var next := StepData(st).state;
    DrainStep(cfg, st);
    DataExtends(cfg, st, more);
    DrainStep(cfg, st.With(more));
    if !next.phase.DataCrlf? {
      DrainStep(cfg, next.With(more));
    }
  }

  lemma EndReleases(cfg: Config, st: State)
    requires Valid(cfg, st) && !st.phase.Done? && Iterate(cfg, st).End?
    ensures Iterate(cfg, st).state.released == st.released
  {
  }

  lemma EmptyWaits(cfg: Config, st: State)
    requires Valid(cfg, st) && !st.phase.Done? && st.input == []
    ensures Drain(cfg, st) == NeedMore(st)
  {
  }

  // ----- whole streams

  /** A fed stream that does not fail is in the state the whole stream leads to; when no header can
      be cut short, failing agrees as well. */
  lemma {:induction false} FeedAgrees(cfg: Config, st: State, fragments: seq<bytes>)
    requires Valid(cfg, st) && !st.phase.Done?
    requires Drain(cfg, st) == NeedMore(st)
    ensures CutSafe(cfg) || !Feed(cfg, NeedMore(st), fragments).Failed? ==>
              Agree(Feed(cfg, NeedMore(st), fragments), Push(cfg, st, Flatten(fragments)))
    decreases |fragments|
  {
    if fragments == [] {
      assert st.With([]) == st;
    } else {
      var first, rest := fragments[0], Flatten(fragments[1..]);
      var o := Push(cfg, st, first);
      assert st.With(first).With(rest) == st.With(first + rest);
      if rest != [] {
        DrainExtends(cfg, st.With(first), rest);
      } else {
        assert first + rest == first;
      }
      match o {
        case NeedMore(cut) =>
          Settled(cfg, st.With(first));
          FeedAgrees(cfg, cut, fragments[1..]);
          assert rest == [] ==> cut.With(rest) == cut;
        case Finished(last) =>
          FeedAfterEnd(cfg, last, fragments[1..]);
        case Failed(_, _) =>
      }
    }
  }

  /** A state that waits has nothing left to do. */
  lemma {:induction false} Settled(cfg: Config, st: State)
    requires Valid(cfg, st) && !st.phase.Done?
    ensures Drain(cfg, st).NeedMore? ==> Drain(cfg, Drain(cfg, st).state) == Drain(cfg, st)
    decreases |st.input|
  {
    if Iterate(cfg, st).Next? {
      DrainStep(cfg, st);
      Settled(cfg, Iterate(cfg, st).state);
    }
  }

  lemma {:induction false} FeedAfterEnd(cfg: Config, last: State, fragments: seq<bytes>)
    requires Valid(cfg, last) && last.phase.Done?
    ensures Feed(cfg, Finished(last), fragments)
            == if Flatten(fragments) == [] then Finished(last) else Failed(InputAfterEnd, last.released)
    decreases |fragments|
  {
    if fragments != [] {
      if fragments[0] == [] {
        FeedAfterEnd(cfg, last, fragments[1..]);
        assert Flatten(fragments) == [] + Flatten(fragments[1..]);
      } else {
        assert Flatten(fragments)[0] == fragments[0][0];
      }
    }
  }

  /** Feeding is always one push of the fragments up to some point: a failure is the failure of what
      had arrived by then. */
  lemma {:induction false} FeedPrefix(cfg: Config, st: State, fragments: seq<bytes>) returns (k: nat)
    requires Valid(cfg, st) && !st.phase.Done? && Drain(cfg, st) == NeedMore(st)
    ensures k <= |fragments|
    ensures Feed(cfg, NeedMore(st), fragments) == Push(cfg, st, Flatten(fragments[..k]))
    decreases |fragments|
  {
    if fragments == [] {
      k := 0;
      assert st.With([]) == st;
    } else {
      var first := fragments[0];
      match Push(cfg, st, first) {
        case NeedMore(cut) =>
          Settled(cfg, st.With(first));
          var j := FeedPrefix(cfg, cut, fragments[1..]);
          k := j + 1;
          FlattenFirst(fragments, k);
          assert fragments[1..][..j] == fragments[1..k];
          PushBoth(cfg, st, first, Flatten(fragments[1..k]));
        case Finished(last) =>
          FeedAfterEnd(cfg, last, fragments[1..]);
          k := if Flatten(fragments[1..]) == [] then 1 else |fragments|;
          FlattenFirst(fragments, k);
          PushBoth(cfg, st, first, Flatten(fragments[1..k]));
        case Failed(_, _) =>
          k := 1;
          FlattenFirst(fragments, 1);
          assert first + [] == first;
      }
    }
  }

  lemma FlattenFirst(fragments: seq<bytes>, k: nat)
    requires 1 <= k <= |fragments|
    ensures Flatten(fragments[..k]) == fragments[0] + Flatten(fragments[1..k])
    ensures k == |fragments| ==> fragments[1..k] == fragments[1..]
    ensures k == 1 ==> Flatten(fragments[1..k]) == []
  {
    assert fragments[..k][1..] == fragments[1..k];
  }

  lemma PushBoth(cfg: Config, st: State, first: bytes, more: bytes)
    requires Valid(cfg, st) && !st.phase.Done?
    ensures match Push(cfg, st, first)
            case NeedMore(cut) => Push(cfg, st, first + more) == Push(cfg, cut, more)
            case Finished(last) =>
              Push(cfg, st, first + more) == if more == [] then Finished(last) else Failed(InputAfterEnd, last.released)
            case Failed(_, _) => true
  {
    assert st.With(first).With(more) == st.With(first + more);
    if more == [] {
      assert first + more == first;
      Settled(cfg, st.With(first));
      var o := Push(cfg, st, first);
      assert o.NeedMore? ==> o.state.With(more) == o.state;
    } else {
      DrainExtends(cfg, st.With(first), more);
    }
  }

  lemma {:induction false} FeedSnoc(cfg: Config, o: Outcome, fragments: seq<bytes>, more: bytes)
    requires !o.Failed? ==> Valid(cfg, o.state) && (o.Finished? <==> o.state.phase.Done?)
    ensures var p := Feed(cfg, o, fragments);
            && (!p.Failed? ==> Valid(cfg, p.state) && (p.Finished? <==> p.state.phase.Done?))
            && Feed(cfg, o, fragments + [more]) == if p.Failed? then p else Push(cfg, p.state, more)
    decreases |fragments|
  {
    if fragments == [] {
      assert fragments + [more] == [more] && [more][1..] == [];
    } else {
      assert (fragments + [more])[1..] == fragments[1..] + [more];
      if !o.Failed? {
        FeedSnoc(cfg, Push(cfg, o.state, fragments[0]), fragments[1..], more);
      }
    }
  }

  lemma IterateReleases(cfg: Config, st: State)
    requires Valid(cfg, st) && !st.phase.Done?
    ensures var step := Iterate(cfg, st);
            step.Next? || step.End? ==> st.released <= step.state.released
  {
  }

  /** Released bytes are never taken back. */
  lemma {:induction false} DrainReleases(cfg: Config, st: State)
    requires Valid(cfg, st) && !st.phase.Done?
    ensures !Drain(cfg, st).Failed? ==> st.released <= Drain(cfg, st).state.released
    decreases |st.input|
  {
    IterateReleases(cfg, st);
    if Iterate(cfg, st).Next? {
      DrainStep(cfg, st);
      DrainReleases(cfg, Iterate(cfg, st).state);
    }
  }

  lemma PushReleases(cfg: Config, st: State, more: bytes)
    requires Valid(cfg, st)
    ensures !Push(cfg, st, more).Failed? ==> st.released <= Push(cfg, st, more).state.released
  {
    if !st.phase.Done? {
      DrainReleases(cfg, st.With(more));
    }
  }
}
