/** Path-style routing of src/protocol/http.rs, and why signing the canonical path signs the bucket
    and key that are routed. */
module PathStyle {
  import opened Bytes
  import opened Percent
  import opened Utf8

  datatype Error = InvalidRequestTarget | InvalidPercentEncoding | InvalidBucket | NulInPath | InvalidUtf8Path

  datatype Part = Part(value: bytes) | BadPart(error: Error)

  /** `bucket` and `key` are bytes of well-formed text. */
  datatype Route = Route(bucket: Option<bytes>, key: Option<bytes>) | NoRoute(error: Error)

  predicate HasControl(s: bytes) {
    s != [] && (s[0] < 32 || s[0] == 127 || HasControl(s[1..]))
  }

  function BucketOf(raw: bytes): Part {
    var decoded := Percent.Decode(raw);
    if decoded.None? then BadPart(InvalidPercentEncoding)
    else
      var b := decoded.value;
      if b == [] || SLASH in b || HasControl(b) then BadPart(InvalidBucket)
      else if 0 in b then BadPart(NulInPath)
      else if !IsUtf8(b) then BadPart(InvalidUtf8Path)
      else Part(b)
  }

  function KeyOf(raw: bytes): Part {
    var decoded := Percent.Decode(raw);
    if decoded.None? then BadPart(InvalidPercentEncoding)
    else if 0 in decoded.value then BadPart(NulInPath)
    else if !IsUtf8(decoded.value) then BadPart(InvalidUtf8Path)
    else Part(decoded.value)
  }

  function RouteParts(bucketRaw: bytes, keyRaw: Option<bytes>): Route {
    match BucketOf(bucketRaw)
    case BadPart(error) => NoRoute(error)
    case Part(bucket) =>
      if keyRaw.None? then Route(Some(bucket), None)
      else match KeyOf(keyRaw.value)
        case BadPart(error) => NoRoute(error)
        case Part(key) => Route(Some(bucket), Some(key))
  }

  /** No raw query or fragment delimiter. */
  predicate IsPath(raw: bytes) {
    raw != [] && raw[0] == SLASH && 63 !in raw && 35 !in raw
  }

  function ParsePath(raw: bytes): Route {
    if !IsPath(raw) then NoRoute(InvalidRequestTarget)
    else if raw == [SLASH] then Route(None, None)
    else
      var rest := raw[1..];
      var slash := IndexOf(rest, SLASH);
      if slash < 0 then RouteParts(rest, None) else RouteParts(rest[..slash], Some(rest[slash + 1..]))
  }

  lemma PartsAgree(bucketRaw: bytes, keyRaw: Option<bytes>)
    requires Canonical(bucketRaw).Some? && (keyRaw.Some? ==> Canonical(keyRaw.value).Some?)
    ensures RouteParts(Canonical(bucketRaw).value, if keyRaw.Some? then Canonical(keyRaw.value) else None)
            == RouteParts(bucketRaw, keyRaw)
  {
    CanonicalMeaning(bucketRaw);
    if keyRaw.Some? {
      CanonicalMeaning(keyRaw.value);
    }
  }

  lemma CanonicalSlash(rest: bytes)
    ensures Canonical([SLASH] + rest) == Prepend([SLASH], Canonical(rest))
  {
    CanonicalPlain(SLASH, rest);
  }

  lemma CanonicalIsPath(raw: bytes)
    requires IsPath(raw) && Canonical(raw).Some?
    ensures IsPath(Canonical(raw).value)
    ensures Canonical(raw[1..]).Some? && Canonical(raw).value == [SLASH] + Canonical(raw[1..]).value
    ensures Canonical(raw).value == [SLASH] <==> raw == [SLASH]
  {
    assert raw == [SLASH] + raw[1..];
    CanonicalSlash(raw[1..]);
    CanonicalAlphabet(raw);
    var tail := Canonical(raw[1..]).value;
    assert ([SLASH] + tail)[1..] == tail;
    CanonicalMeaning(raw[1..]);
  }

  /** Routing the canonical path is routing the path itself. */
  lemma CanonicalRoutes(raw: bytes)
    requires IsPath(raw) && Canonical(raw).Some?
    ensures ParsePath(Canonical(raw).value) == ParsePath(raw)
  {
    CanonicalIsPath(raw);
    if raw != [SLASH] {
      var rest := raw[1..];
      var canonical := Canonical(rest).value;
      assert Canonical(raw).value[1..] == canonical;
      var slash := IndexOf(rest, SLASH);
      if slash < 0 {
        NoSlash(rest);
        PartsAgree(rest, None);
      } else {
        var bucket, key := rest[..slash], rest[slash + 1..];
        assert rest == bucket + [SLASH] + key;
        CanonicalAtSlash(bucket, key);
        var b, k := Canonical(bucket).value, Canonical(key).value;
        SlashSplits(b, k);
        PartsAgree(bucket, Some(key));
      }
    }
  }

  lemma {:induction false} NoSlash(s: bytes)
    requires SLASH !in s && Canonical(s).Some?
    ensures SLASH !in Canonical(s).value
  {
    if s == [] {
    } else if s[0] == PERCENT {
      NoSlash(s[3..]);
    } else {
      NoSlash(s[1..]);
    }
  }

  lemma SlashSplits(a: bytes, b: bytes)
    requires SLASH !in a
    ensures var s := a + [SLASH] + b;
            IndexOf(s, SLASH) == |a| && s[..|a|] == a && s[|a| + 1..] == b
  {
    var s := a + [SLASH] + b;
    assert s[..|a|] == a;
    FirstAt(s, SLASH, |a|);
  }

  /** The whole statement: the canonical path exists exactly when the path decodes, is its own
      canonical path, and is routed like the path. */
  lemma CanonicalUriRoutes(raw: bytes)
    requires IsPath(raw)
    ensures CanonicalUri(raw).Some? <==> Percent.Decode(raw).Some?
    ensures CanonicalUri(raw).Some? ==>
              && CanonicalUri(CanonicalUri(raw).value) == CanonicalUri(raw)
              && Percent.Decode(CanonicalUri(raw).value) == Percent.Decode(raw)
              && ParsePath(CanonicalUri(raw).value) == ParsePath(raw)
  {
    CanonicalMeaning(raw);
    if Canonical(raw).Some? {
      CanonicalIsPath(raw);
      CanonicalRoutes(raw);
    }
  }

  /** The names that can be routed: text without NUL, a bucket also without slashes and controls. */
  predicate Routable(bucket: bytes, key: bytes) {
    && bucket != [] && SLASH !in bucket && !HasControl(bucket) && 0 !in bucket && IsUtf8(bucket)
    && 0 !in key && IsUtf8(key)
  }

  lemma PathParts(b: bytes, k: bytes)
    requires SLASH !in b && 63 !in b && 35 !in b && 63 !in k && 35 !in k
    ensures ParsePath([SLASH] + (b + [SLASH] + k)) == RouteParts(b, Some(k))
  {
    SlashSplits(b, k);
    var rest := b + [SLASH] + k;
    assert ([SLASH] + rest)[1..] == rest;
  }

  lemma EncodedParts(bucket: bytes, key: bytes)
    requires Routable(bucket, key)
    ensures RouteParts(Percent.Encode(bucket), Some(Percent.Encode(key))) == Route(Some(bucket), Some(key))
  {
    EncodeRoundTrip(bucket);
    EncodeRoundTrip(key);
  }

  /** Every routable bucket and key has a path that is routed to them. */
  lemma RouteRoundTrip(bucket: bytes, key: bytes)
    requires Routable(bucket, key)
    ensures ParsePath([SLASH] + (Percent.Encode(bucket) + [SLASH] + Percent.Encode(key)))
            == Route(Some(bucket), Some(key))
  {
    EncodeAlphabet(bucket);
    EncodeAlphabet(key);
    PathParts(Percent.Encode(bucket), Percent.Encode(key));
    EncodedParts(bucket, key);
  }
}
