/** The exact condition on the header limit under which cutting a stream cannot be observed. */
module AwsChunkedLimit {
  import opened Bytes
  import opened AwsChunked
  import opened AwsChunkedCuts
  import opened AwsChunkedWire

  /** Every way of cutting every stream gives what one push of the whole stream gives. */
  ghost predicate CutIndependent(cfg: Config) {
    forall fragments :: Agree(Feed(cfg, Begin(cfg), fragments), Push(cfg, Begin(cfg).state, Flatten(fragments)))
  }

  // ----- the streams that expose an unsafe limit

  function Zeros(n: nat): (z: bytes)
    ensures |z| == n && forall i :: 0 <= i < n ==> z[i] == 48
  {
    seq(n, _ => 48)
  }

  lemma {:induction false} ZerosValue(n: nat)
    ensures AllHex(Zeros(n)) && HexNumber(Zeros(n)) == 0
  {
    if n > 0 {
      assert Zeros(n)[..n - 1] == Zeros(n - 1);
      ZerosValue(n - 1);
    }
  }

  lemma SignatureNameBytes()
    ensures SignatureName() == [99, 104, 117, 110, 107, 45, 115, 105, 103, 110, 97, 116, 117, 114, 101]
  {
  }

  function Extension(signature: bytes): bytes {
    SignatureName() + [61] + HexLower(signature)
  }

  lemma ExtensionParses(signature: bytes)
    requires |signature| == 32
    ensures ParseExtensions([Extension(signature)], None) == Some(Some(signature))
    ensures 59 !in Extension(signature) && CR !in Extension(signature)
  {
    var text := Extension(signature);
    SignatureNameBytes();
    FirstAt(text, 61, 15);
    assert text[..15] == SignatureName() && text[16..] == HexLower(signature);
    HexRoundTrip(signature);
    assert ParseExtensions([], Some(signature)) == Some(Some(signature));
    assert [Extension(signature)][1..] == [];
  }

  /** A zero-size header of exactly the limit that this configuration accepts. */
  function ExposingHeader(cfg: Config): bytes
    requires !CutSafe(cfg)
  {
    if cfg.mode.UnsignedTrailer? then Zeros(cfg.limits.maxChunkHeaderBytes)
    else Zeros(cfg.limits.maxChunkHeaderBytes - 81) + [59] + Extension(ChunkSignature(cfg, cfg.mode.context.seed, []))
  }

  lemma SplitTwo(a: bytes, b: bytes, d: byte)
    requires d !in a && d !in b
    ensures Split(a + [d] + b, d) == [a, b] && [a, b][1..] == [b]
  {
    SplitStep(a, b, d);
    assert IndexOf(b, d) < 0;
  }

  lemma SignedZeroParses(n: nat, signature: bytes)
    requires 1 <= n <= 16 && |signature| == 32
    ensures var line := Zeros(n) + [59] + Extension(signature);
            |line| == n + 81 && CR !in line && ParseChunkHeader(line) == Some((0, Some(signature)))
  {
    ZerosValue(n);
    ExtensionParses(signature);
    SignatureNameBytes();
    SplitTwo(Zeros(n), Extension(signature), 59);
  }

  lemma ExposingHeaderParses(cfg: Config)
    requires !CutSafe(cfg)
    requires cfg.mode.Signed? ==> |ChunkSignature(cfg, cfg.mode.context.seed, [])| == 32
    ensures |ExposingHeader(cfg)| == cfg.limits.maxChunkHeaderBytes && CR !in ExposingHeader(cfg)
    ensures ParseChunkHeader(ExposingHeader(cfg))
            == Some((0, if cfg.mode.Signed? then Some(ChunkSignature(cfg, cfg.mode.context.seed, [])) else None))
  {
    var line := ExposingHeader(cfg);
    if cfg.mode.UnsignedTrailer? {
      ZerosValue(|line|);
      assert IndexOf(line, 59) < 0;
    } else {
      SignedZeroParses(cfg.limits.maxChunkHeaderBytes - 81, ChunkSignature(cfg, cfg.mode.context.seed, []));
    }
  }

  lemma ZeroHeaderAccepted(cfg: Config, line: bytes)
    requires LegalZero(cfg, Start(cfg).previous, line)
    ensures Push(cfg, Begin(cfg).state, line + CRLF).NeedMore?
  {
    var whole := Begin(cfg).state.With(line + CRLF);
    assert whole.input == line + CRLF + [];
    ZeroStep(cfg, whole, line, []);
    EmptyWaits(cfg, ZeroRead(whole, line, []));
  }

  lemma CutHeaderRefused(cfg: Config, line: bytes)
    requires |line| == cfg.limits.maxChunkHeaderBytes && CR !in line
    ensures Push(cfg, Begin(cfg).state, line + [CR]) == Failed(HeaderTooLarge, [])
  {
    var st := Begin(cfg).state.With(line + [CR]);
    assert st.input == line + [CR];
    assert forall i :: 0 <= i < |line| ==> st.input[i] == line[i];
    assert IndexOfCrlf(st.input) < 0;
  }

  /** With an unsafe limit the same bytes are accepted whole and refused when cut between CR and LF. */
  lemma CutExposed(cfg: Config)
    requires !CutSafe(cfg)
    requires cfg.mode.Signed? ==> |ChunkSignature(cfg, cfg.mode.context.seed, [])| == 32
    ensures Push(cfg, Begin(cfg).state, ExposingHeader(cfg) + CRLF).NeedMore?
    ensures Feed(cfg, Begin(cfg), [ExposingHeader(cfg) + [CR], [LF]]) == Failed(HeaderTooLarge, [])
  {
    ExposingHeaderParses(cfg);
    ZeroHeaderAccepted(cfg, ExposingHeader(cfg));
    CutHeaderRefused(cfg, ExposingHeader(cfg));
  }

  /** Exactly when the cut cannot be observed: the limit is none of the lengths an acceptable header
      can have, 82..97 bytes in signed mode and 1..16 in unsigned mode. */
  lemma CutIndependence(cfg: Config)
    requires cfg.mode.Signed? ==> |ChunkSignature(cfg, cfg.mode.context.seed, [])| == 32
    ensures CutIndependent(cfg) <==> CutSafe(cfg)
  {
    if CutSafe(cfg) {
      EmptyWaits(cfg, Begin(cfg).state);
      forall fragments
        ensures Agree(Feed(cfg, Begin(cfg), fragments), Push(cfg, Begin(cfg).state, Flatten(fragments)))
      {
        FeedAgrees(cfg, Begin(cfg).state, fragments);
      }
    } else {
      CutExposed(cfg);
      var line := ExposingHeader(cfg);
      var fragments := [line + [CR], [LF]];
      assert Flatten(fragments) == line + CRLF by {
        assert fragments[1..] == [[LF]];
        assert Flatten([[LF]]) == [LF] + Flatten<byte>([]);
        assert line + [CR] + [LF] == line + CRLF;
      }
      assert !Agree(Feed(cfg, Begin(cfg), fragments), Push(cfg, Begin(cfg).state, Flatten(fragments)));
    }
  }
}
