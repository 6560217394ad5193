/** Query strings: the decoded parameters that are routed on (src/protocol/http.rs) and the canonical
    query that is signed (src/protocol/sigv4.rs). */
module Query {
  import opened Bytes
  import opened Ordering
  import opened Percent

  const AMPERSAND: byte := 38
  const EQUALS: byte := 61

  /** Name and value around the first `=`; without one the value is empty. */
  function SplitPair(component: bytes): Pair {
    var i := IndexOf(component, EQUALS);
    if i < 0 then Pair(component, []) else Pair(component[..i], component[i + 1..])
  }

  function DecodePair(raw: Pair): Option<Pair> {
    var name, value := Decode(raw.name), Decode(raw.value);
    if name.None? || value.None? then None else Some(Pair(name.value, value.value))
  }

  function ParseComponents(components: seq<bytes>): Option<seq<Pair>> {
    if components == [] then Some([])
    else
      var pair := DecodePair(SplitPair(components[0]));
      if pair.None? then None else Cons(pair.value, ParseComponents(components[1..]))
  }

  /** `QueryParams::parse`: the decoded parameters in order. */
  function Parse(raw: bytes): Option<seq<Pair>> {
    if raw == [] then Some([]) else ParseComponents(Split(raw, AMPERSAND))
  }

  function EncodePair(p: Pair): Pair {
    Pair(Encode(p.name), Encode(p.value))
  }

  function SignatureParameter(): bytes {
    Ascii("X-Amz-Signature")
  }

  /** Encoded parameters, without the signature itself if it is to be excluded. */
  function EncodedPairs(components: seq<bytes>, exclude: bool): Option<seq<Pair>> {
    if components == [] then Some([])
    else
      var raw := SplitPair(components[0]);
      var name := Decode(raw.name);
      if name.None? then None
      else if exclude && name.value == SignatureParameter() then EncodedPairs(components[1..], exclude)
      else
        var value := Decode(raw.value);
        if value.None? then None
        else Cons(EncodePair(Pair(name.value, value.value)), EncodedPairs(components[1..], exclude))
  }

  function Render(p: Pair): bytes {
    p.name + [EQUALS] + p.value
  }

  function Renders(pairs: seq<Pair>): (parts: seq<bytes>)
    ensures |parts| == |pairs| && forall i :: 0 <= i < |pairs| ==> parts[i] == Render(pairs[i])
  {
    if pairs == [] then [] else [Render(pairs[0])] + Renders(pairs[1..])
  }

  function Canonicalize(raw: bytes, exclude: bool): Option<bytes> {
    if raw == [] then Some([])
    else
      var pairs := EncodedPairs(Split(raw, AMPERSAND), exclude);
      if pairs.None? then None else Some(Join(Renders(Sort(pairs.value)), AMPERSAND))
  }

  function CanonicalQuery(raw: Option<bytes>, exclude: bool): Option<bytes> {
    if raw.None? then Some([]) else Canonicalize(raw.value, exclude)
  }

  // ----- encoded pairs

  /** An encoded pair is free of delimiters. */
  ghost predicate Encoded(p: Pair) {
    && (forall b :: b in p.name ==> IsUnreserved(b) || b == PERCENT)
    && (forall b :: b in p.value ==> IsUnreserved(b) || b == PERCENT)
  }

  ghost predicate AllEncoded(pairs: seq<Pair>) {
    forall p :: p in pairs ==> Encoded(p)
  }

  lemma EncodePairEncoded(p: Pair)
    ensures Encoded(EncodePair(p))
  {
    EncodeAlphabet(p.name);
    EncodeAlphabet(p.value);
  }

  lemma RenderSplits(p: Pair)
    requires Encoded(p)
    ensures SplitPair(Render(p)) == p && AMPERSAND !in Render(p)
  {
    var s := Render(p);
    assert s[..|p.name|] == p.name && s[|p.name| + 1..] == p.value;
    assert EQUALS !in p.name;
    FirstAt(s, EQUALS, |p.name|);
  }

  /** The joined text determines the pairs. */
  lemma RendersSplit(pairs: seq<Pair>)
    requires AllEncoded(pairs) && pairs != []
    ensures Join(Renders(pairs), AMPERSAND) != []
    ensures Split(Join(Renders(pairs), AMPERSAND), AMPERSAND) == Renders(pairs)
  {
    forall i | 0 <= i < |pairs| ensures AMPERSAND !in Renders(pairs)[i] {
      assert pairs[i] in pairs;
      RenderSplits(pairs[i]);
    }
    SplitJoin(Renders(pairs), AMPERSAND);
    assert Renders(pairs)[0] == Render(pairs[0]);
  }

  lemma RendersInjective(a: seq<Pair>, b: seq<Pair>)
    requires AllEncoded(a) && AllEncoded(b)
    requires Join(Renders(a), AMPERSAND) == Join(Renders(b), AMPERSAND)
    ensures a == b
  {
    if a != [] {
      RendersSplit(a);
    }
    if b != [] {
      RendersSplit(b);
    }
    assert Renders(a) == Renders(b);
    forall i | 0 <= i < |a| ensures a[i] == b[i] {
      assert a[i] in a && b[i] in b;
      RenderSplits(a[i]);
      RenderSplits(b[i]);
      assert Renders(a)[i] == Renders(b)[i];
    }
  }

  // ----- encoding and decoding parameters

  /** The parameters that are signed: all, or all but the signature itself. */
  function Kept(pairs: seq<Pair>, exclude: bool): seq<Pair> {
    if pairs == [] then []
    else if exclude && pairs[0].name == SignatureParameter() then Kept(pairs[1..], exclude)
    else [pairs[0]] + Kept(pairs[1..], exclude)
  }

  /** Only the signature can be excluded. */
  lemma {:induction false} KeptMember(pairs: seq<Pair>, exclude: bool, p: Pair)
    ensures p in Kept(pairs, exclude) <==> p in pairs && !(exclude && p.name == SignatureParameter())
  {
    if pairs != [] {
      KeptMember(pairs[1..], exclude, p);
      assert pairs == [pairs[0]] + pairs[1..];
    }
  }

  lemma {:induction false} KeptAll(pairs: seq<Pair>)
    ensures Kept(pairs, false) == pairs
  {
    if pairs != [] {
      KeptAll(pairs[1..]);
      assert pairs == [pairs[0]] + pairs[1..];
    }
  }

  lemma MapCons(p: Pair, rest: seq<Pair>)
    ensures Map(EncodePair, [p] + rest) == [EncodePair(p)] + Map(EncodePair, rest)
  {
    MapAppend(EncodePair, [p], rest);
  }

  lemma {:induction false} EncodedIsMapped(components: seq<bytes>, exclude: bool)
    requires ParseComponents(components).Some?
    ensures EncodedPairs(components, exclude) == Some(Map(EncodePair, Kept(ParseComponents(components).value, exclude)))
  {
    if components != [] {
      EncodedIsMapped(components[1..], exclude);
      var p := DecodePair(SplitPair(components[0])).value;
      var rest := ParseComponents(components[1..]).value;
      assert ([p] + rest)[1..] == rest;
      MapCons(p, Kept(rest, exclude));
    }
  }

  lemma {:induction false} EncodedParses(components: seq<bytes>)
    requires EncodedPairs(components, false).Some?
    ensures ParseComponents(components).Some?
  {
    if components != [] {
      EncodedParses(components[1..]);
    }
  }

  lemma MappedEncoded(pairs: seq<Pair>)
    ensures AllEncoded(Map(EncodePair, pairs))
  {
    forall p | p in Map(EncodePair, pairs) ensures Encoded(p) {
      var i :| 0 <= i < |pairs| && Map(EncodePair, pairs)[i] == p;
      EncodePairEncoded(pairs[i]);
    }
  }

  lemma SortedEncoded(pairs: seq<Pair>)
    requires AllEncoded(pairs)
    ensures AllEncoded(Sort(pairs))
  {
    SortSorts(pairs);
    forall p | p in Sort(pairs) ensures Encoded(p) {
      assert p in multiset(Sort(pairs));
      assert p in pairs;
    }
  }

  /** The canonical form of decoded parameters. */
  function Rendered(pairs: seq<Pair>): bytes {
    Join(Renders(Sort(Map(EncodePair, pairs))), AMPERSAND)
  }

  lemma CanonicalIsRendered(raw: bytes, exclude: bool)
    requires Parse(raw).Some?
    ensures Canonicalize(raw, exclude) == Some(Rendered(Kept(Parse(raw).value, exclude)))
  {
    if raw != [] {
      EncodedIsMapped(Split(raw, AMPERSAND), exclude);
    }
  }

  function UndoPair(p: Pair): Pair {
    var d := DecodePair(p);
    if d.Some? then d.value else p
  }

  lemma UndoEncode(p: Pair)
    ensures DecodePair(EncodePair(p)) == Some(p) && UndoPair(EncodePair(p)) == p
  {
    EncodeRoundTrip(p.name);
    EncodeRoundTrip(p.value);
  }

  lemma UndoMapped(pairs: seq<Pair>)
    ensures Map(UndoPair, Map(EncodePair, pairs)) == pairs
  {
    forall i | 0 <= i < |pairs| ensures Map(UndoPair, Map(EncodePair, pairs))[i] == pairs[i] {
      UndoEncode(pairs[i]);
    }
  }

  /** Encoding loses nothing about the multiset of parameters. */
  lemma EncodedMultiset(a: seq<Pair>, b: seq<Pair>)
    ensures multiset(Map(EncodePair, a)) == multiset(Map(EncodePair, b)) <==> multiset(a) == multiset(b)
  {
    var x, y := Map(EncodePair, a), Map(EncodePair, b);
    if multiset(a) == multiset(b) {
      MapMultiset(EncodePair, a, b);
    }
    if multiset(x) == multiset(y) {
      MapMultiset(UndoPair, x, y);
      UndoMapped(a);
      UndoMapped(b);
    }
  }

  lemma RenderedAgree(a: seq<Pair>, b: seq<Pair>)
    ensures Rendered(a) == Rendered(b) <==> multiset(a) == multiset(b)
  {
    var x, y := Map(EncodePair, a), Map(EncodePair, b);
    MappedEncoded(a);
    MappedEncoded(b);
    SortedEncoded(x);
    SortedEncoded(y);
    if Rendered(a) == Rendered(b) {
      RendersInjective(Sort(x), Sort(y));
    }
    SortUnique(x, y);
    EncodedMultiset(a, b);
  }

  /** Two well-formed queries have the same canonical form exactly when they carry the same multiset
      of decoded parameters, the signature left out if it is excluded. */
  lemma CanonicalDecides(a: bytes, excludeA: bool, b: bytes, excludeB: bool)
    requires Parse(a).Some? && Parse(b).Some?
    ensures Canonicalize(a, excludeA).Some? && Canonicalize(b, excludeB).Some?
    ensures Canonicalize(a, excludeA) == Canonicalize(b, excludeB)
            <==> multiset(Kept(Parse(a).value, excludeA)) == multiset(Kept(Parse(b).value, excludeB))
  {
    CanonicalIsRendered(a, excludeA);
    CanonicalIsRendered(b, excludeB);
    RenderedAgree(Kept(Parse(a).value, excludeA), Kept(Parse(b).value, excludeB));
  }

  /** With nothing excluded: the same canonical query exactly for the same multiset of parameters. */
  lemma CanonicalDecidesAll(a: bytes, b: bytes)
    requires Parse(a).Some? && Parse(b).Some?
    ensures Canonicalize(a, false) == Canonicalize(b, false) <==> multiset(Parse(a).value) == multiset(Parse(b).value)
  {
    CanonicalDecides(a, false, b, false);
    KeptAll(Parse(a).value);
    KeptAll(Parse(b).value);
  }

  // ----- the canonical form is its own canonical form

  lemma {:induction false} ParseRenders(encoded: seq<Pair>, pairs: seq<Pair>)
    requires encoded == Map(EncodePair, pairs)
    ensures ParseComponents(Renders(encoded)) == Some(pairs)
    decreases |pairs|
  {
    if pairs != [] {
      EncodePairEncoded(pairs[0]);
      RenderSplits(encoded[0]);
      UndoEncode(pairs[0]);
      assert encoded[1..] == Map(EncodePair, pairs[1..]);
      ParseRenders(encoded[1..], pairs[1..]);
      assert Renders(encoded)[1..] == Renders(encoded[1..]);
      assert pairs == [pairs[0]] + pairs[1..];
    }
  }

  lemma EncodedElement(pairs: seq<Pair>, p: Pair)
    requires p in multiset(Map(EncodePair, pairs))
    ensures EncodePair(UndoPair(p)) == p
  {
    var j := Located(p, Map(EncodePair, pairs));
    UndoEncode(pairs[j]);
  }

  lemma RedoMapped(pairs: seq<Pair>, sorted: seq<Pair>)
    requires multiset(sorted) == multiset(Map(EncodePair, pairs))
    ensures Map(EncodePair, Map(UndoPair, sorted)) == sorted
  {
    var redone := Map(EncodePair, Map(UndoPair, sorted));
    forall i | 0 <= i < |sorted| ensures redone[i] == sorted[i] {
      assert sorted[i] in multiset(sorted);
      EncodedElement(pairs, sorted[i]);
    }
  }

  /** Sorting encoded parameters is encoding some arrangement of them. */
  lemma SortedMapped(pairs: seq<Pair>) returns (arranged: seq<Pair>)
    ensures Sort(Map(EncodePair, pairs)) == Map(EncodePair, arranged)
    ensures multiset(arranged) == multiset(pairs)
  {
    var sorted := Sort(Map(EncodePair, pairs));
    SortSorts(Map(EncodePair, pairs));
    arranged := Map(UndoPair, sorted);
    RedoMapped(pairs, sorted);
    EncodedMultiset(arranged, pairs);
  }

  lemma ParseRendered(pairs: seq<Pair>)
    ensures Parse(Rendered(pairs)).Some? && multiset(Parse(Rendered(pairs)).value) == multiset(pairs)
  {
    var arranged := SortedMapped(pairs);
    var sorted := Map(EncodePair, arranged);
    if sorted == [] {
      assert |pairs| == |multiset(pairs)|;
      assert Rendered(pairs) == [];
    } else {
      MappedEncoded(arranged);
      RendersSplit(sorted);
      ParseRenders(sorted, arranged);
    }
  }

  lemma CanonicalIdempotent(raw: bytes)
    requires Canonicalize(raw, false).Some?
    ensures Canonicalize(Canonicalize(raw, false).value, false) == Canonicalize(raw, false)
  {
    if raw != [] {
      EncodedParses(Split(raw, AMPERSAND));
    }
    CanonicalIsRendered(raw, false);
    var pairs := Parse(raw).value;
    KeptAll(pairs);
    ParseRendered(pairs);
    var again := Parse(Rendered(pairs)).value;
    CanonicalIsRendered(Rendered(pairs), false);
    KeptAll(again);
    RenderedAgree(again, pairs);
  }

  /** The canonical query uses only these bytes. */
  lemma CanonicalQueryAlphabet(raw: bytes, exclude: bool)
    requires Parse(raw).Some?
    ensures Canonicalize(raw, exclude).Some?
    ensures forall b :: b in Canonicalize(raw, exclude).value ==>
              IsUnreserved(b) || b == PERCENT || b == EQUALS || b == AMPERSAND
  {
    CanonicalIsRendered(raw, exclude);
    var kept := Kept(Parse(raw).value, exclude);
    MappedEncoded(kept);
    SortedEncoded(Map(EncodePair, kept));
    JoinedAlphabet(Sort(Map(EncodePair, kept)));
  }

  lemma {:induction false} JoinedAlphabet(pairs: seq<Pair>)
    requires AllEncoded(pairs)
    ensures forall b :: b in Join(Renders(pairs), AMPERSAND) ==>
              IsUnreserved(b) || b == PERCENT || b == EQUALS || b == AMPERSAND
  {
    if pairs != [] {
      assert pairs[0] in pairs;
      assert forall p :: p in pairs[1..] ==> p in pairs;
      JoinedAlphabet(pairs[1..]);
      assert Renders(pairs)[1..] == Renders(pairs[1..]);
    }
  }

  // ----- the loops of the source

  method ParseQuery(raw: bytes) returns (result: Option<seq<Pair>>)
    ensures result == Parse(raw)
  {
    var pairs: seq<Pair> := [];
    if raw == [] {
      return Some(pairs);
    }
    var components := Split(raw, AMPERSAND);
    assert components[0..] == components;
    NothingBefore(ParseComponents(components));
    for i := 0 to |components|
      invariant ParseComponents(components) == Before(pairs, ParseComponents(components[i..]))
    {
      assert components[i..][1..] == components[i + 1..];
      var split := SplitPair(components[i]);
      var name := PercentDecode(split.name);
      if name.None? {
        return None;
      }
      var value := PercentDecode(split.value);
      if value.None? {
        return None;
      }
      var p := Pair(name.value, value.value);
      BeforeCons(pairs, p, ParseComponents(components[i + 1..]));
      pairs := pairs + [p];
    }
    assert pairs + [] == pairs;
    return Some(pairs);
  }

  function Before(front: seq<Pair>, rest: Option<seq<Pair>>): Option<seq<Pair>> {
    if rest.None? then None else Some(front + rest.value)
  }

  lemma NothingBefore(rest: Option<seq<Pair>>)
    ensures Before([], rest) == rest
  {
    if rest.Some? {
      assert [] + rest.value == rest.value;
    }
  }

  lemma BeforeCons(front: seq<Pair>, p: Pair, rest: Option<seq<Pair>>)
    ensures Before(front, Cons(p, rest)) == Before(front + [p], rest)
  {
    if rest.Some? {
      Assoc(front, [p], rest.value);
    }
  }

  method BuildCanonicalQuery(raw: Option<bytes>, exclude: bool) returns (result: Option<bytes>)
    ensures result == CanonicalQuery(raw, exclude)
  {
    if raw.None? || raw.value == [] {
      return Some([]);
    }
    var components := Split(raw.value, AMPERSAND);
    var pairs: seq<Pair> := [];
    assert components[0..] == components;
    NothingBefore(EncodedPairs(components, exclude));
    for i := 0 to |components|
      invariant EncodedPairs(components, exclude) == Before(pairs, EncodedPairs(components[i..], exclude))
    {
      assert components[i..][1..] == components[i + 1..];
      var split := SplitPair(components[i]);
      var name := PercentDecode(split.name);
      if name.None? {
        return None;
      }
      if exclude && name.value == SignatureParameter() {
        continue;
      }
      var value := PercentDecode(split.value);
      if value.None? {
        return None;
      }
      var encodedName := AwsEncode(name.value);
      var encodedValue := AwsEncode(value.value);
      BeforeCons(pairs, Pair(encodedName, encodedValue), EncodedPairs(components[i + 1..], exclude));
      pairs := pairs + [Pair(encodedName, encodedValue)];
    }
    assert pairs + [] == pairs;
    return Some(Join(Renders(Sort(pairs)), AMPERSAND));
  }
}
