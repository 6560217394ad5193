/** Percent-encoding as in sections 2.1 and 2.3 of RFC 3986: decoding (src/protocol/http.rs), the
    AWS encoding and the canonical path (src/protocol/sigv4.rs). */
module Percent {
  import opened Bytes

  const PERCENT: byte := 37
  const SLASH: byte := 47

  predicate IsUnreserved(b: byte) {
    IsAlphanumeric(b) || b == 45 || b == 46 || b == 95 || b == 126
  }

  function UpperHexDigit(v: nat): (b: byte)
    requires v < 16
    ensures IsHex(b) && Nibble(b) == v && !IsLower(b)
  {
    if v < 10 then 48 + v else 55 + v
  }

  function ToUpper(b: byte): (u: byte)
    ensures IsHex(b) ==> IsHex(u) && Nibble(u) == Nibble(b) && !IsLower(u)
  {
    if IsLower(b) then b - 32 else b
  }

  /** The escape of one byte. */
  function Escape(b: byte): bytes {
    [PERCENT, UpperHexDigit(b / 16), UpperHexDigit(b % 16)]
  }

  /** Does the text begin with a well-formed escape? */
  predicate EscapeAt(s: bytes) {
    |s| >= 3 && s[0] == PERCENT && IsHex(s[1]) && IsHex(s[2])
  }

  function Cons<T>(x: T, tail: Option<seq<T>>): Option<seq<T>> {
    if tail.None? then None else Some([x] + tail.value)
  }

  function Prepend(x: bytes, tail: Option<bytes>): Option<bytes> {
    if tail.None? then None else Some(x + tail.value)
  }

  function Decode(s: bytes): Option<bytes> {
    if s == [] then Some([])
    else if s[0] != PERCENT then Cons(s[0], Decode(s[1..]))
    else if EscapeAt(s) then Cons(16 * Nibble(s[1]) + Nibble(s[2]), Decode(s[3..]))
    else None
  }

  /** `aws_encode` with slashes encoded. */
  function Encode(s: bytes): bytes {
    if s == [] then [] else EncodeByte(s[0]) + Encode(s[1..])
  }

  function EncodeByte(b: byte): bytes {
    if IsUnreserved(b) then [b] else Escape(b)
  }

  /** The canonical spelling of a path: escapes in upper case, everything else that is not
      unreserved or a slash escaped. */
  function Canonical(s: bytes): Option<bytes> {
    if s == [] then Some([])
    else if s[0] == PERCENT then
      if EscapeAt(s) then Prepend([PERCENT, ToUpper(s[1]), ToUpper(s[2])], Canonical(s[3..])) else None
    else if s[0] == SLASH then Prepend([SLASH], Canonical(s[1..]))
    else Prepend(EncodeByte(s[0]), Canonical(s[1..]))
  }

  // ----- one unit at the front

  lemma DecodePlain(b: byte, t: bytes)
    requires b != PERCENT
    ensures Decode([b] + t) == Cons(b, Decode(t))
  {
    assert ([b] + t)[1..] == t;
  }

  lemma DecodeEscaped(h: byte, l: byte, t: bytes)
    requires IsHex(h) && IsHex(l)
    ensures Decode([PERCENT, h, l] + t) == Cons(16 * Nibble(h) + Nibble(l), Decode(t))
  {
    assert ([PERCENT, h, l] + t)[3..] == t;
  }

  lemma DecodeEncodedByte(b: byte, t: bytes)
    ensures Decode(EncodeByte(b) + t) == Cons(b, Decode(t))
  {
    if IsUnreserved(b) {
      DecodePlain(b, t);
    } else {
      DecodeEscaped(UpperHexDigit(b / 16), UpperHexDigit(b % 16), t);
    }
  }

  /** Encoding is undone by decoding. */
  lemma {:induction false} EncodeRoundTrip(s: bytes)
    ensures Decode(Encode(s)) == Some(s)
  {
    if s != [] {
      EncodeRoundTrip(s[1..]);
      DecodeEncodedByte(s[0], Encode(s[1..]));
      assert [s[0]] + s[1..] == s;
    }
  }

  lemma CanonicalEscaped(h: byte, l: byte, t: bytes)
    requires IsHex(h) && IsHex(l)
    ensures Canonical([PERCENT, h, l] + t) == Prepend([PERCENT, ToUpper(h), ToUpper(l)], Canonical(t))
  {
    assert ([PERCENT, h, l] + t)[3..] == t;
  }

  lemma CanonicalPlain(b: byte, t: bytes)
    requires b != PERCENT
    ensures Canonical([b] + t) == Prepend(if b == SLASH then [SLASH] else EncodeByte(b), Canonical(t))
  {
    assert ([b] + t)[1..] == t;
  }

  lemma CanonicalEncodedByte(b: byte, t: bytes)
    ensures Canonical(EncodeByte(b) + t) == Prepend(EncodeByte(b), Canonical(t))
  {
    if IsUnreserved(b) {
      CanonicalPlain(b, t);
    } else {
      CanonicalEscaped(UpperHexDigit(b / 16), UpperHexDigit(b % 16), t);
    }
  }

  // ----- the canonical path

  /** The canonical spelling exists exactly when the path decodes, decodes to the same bytes, and is
      its own canonical spelling. */
  lemma {:induction false} CanonicalMeaning(s: bytes)
    ensures Canonical(s).Some? <==> Decode(s).Some?
    ensures Canonical(s).Some? ==>
              Decode(Canonical(s).value) == Decode(s) && Canonical(Canonical(s).value) == Canonical(s)
  {
    if s == [] {
    } else if s[0] == PERCENT {
      if EscapeAt(s) {
        CanonicalMeaning(s[3..]);
        CanonicalFirstEscape(s);
      }
    } else {
      CanonicalMeaning(s[1..]);
      CanonicalFirstPlain(s);
    }
  }

  lemma CanonicalFirstEscape(s: bytes)
    requires EscapeAt(s)
    requires Canonical(s[3..]).Some? <==> Decode(s[3..]).Some?
    requires Canonical(s[3..]).Some? ==>
               && Decode(Canonical(s[3..]).value) == Decode(s[3..])
               && Canonical(Canonical(s[3..]).value) == Canonical(s[3..])
    ensures Canonical(s).Some? <==> Decode(s).Some?
    ensures Canonical(s).Some? ==>
              Decode(Canonical(s).value) == Decode(s) && Canonical(Canonical(s).value) == Canonical(s)
  {
    if Canonical(s[3..]).Some? {
      var t := Canonical(s[3..]).value;
      DecodeEscaped(ToUpper(s[1]), ToUpper(s[2]), t);
      CanonicalEscaped(ToUpper(s[1]), ToUpper(s[2]), t);
    }
  }

  lemma CanonicalFirstPlain(s: bytes)
    requires s != [] && s[0] != PERCENT
    requires Canonical(s[1..]).Some? <==> Decode(s[1..]).Some?
    requires Canonical(s[1..]).Some? ==>
               && Decode(Canonical(s[1..]).value) == Decode(s[1..])
               && Canonical(Canonical(s[1..]).value) == Canonical(s[1..])
    ensures Canonical(s).Some? <==> Decode(s).Some?
    ensures Canonical(s).Some? ==>
              Decode(Canonical(s).value) == Decode(s) && Canonical(Canonical(s).value) == Canonical(s)
  {
    if Canonical(s[1..]).Some? {
      var t := Canonical(s[1..]).value;
      if s[0] == SLASH {
        DecodePlain(SLASH, t);
        CanonicalPlain(SLASH, t);
      } else {
        DecodeEncodedByte(s[0], t);
        CanonicalEncodedByte(s[0], t);
      }
    }
  }

  /** Canonical text uses only these bytes. */
  predicate CanonicalByte(b: byte) {
    IsUnreserved(b) || b == SLASH || b == PERCENT
  }

  lemma {:induction false} CanonicalAlphabet(s: bytes)
    requires Canonical(s).Some?
    ensures forall b :: b in Canonical(s).value ==> CanonicalByte(b)
  {
    if s == [] {
    } else if s[0] == PERCENT {
      CanonicalAlphabet(s[3..]);
    } else {
      CanonicalAlphabet(s[1..]);
    }
  }

  lemma {:induction false} EncodeAlphabet(s: bytes)
    ensures forall b :: b in Encode(s) ==> IsUnreserved(b) || b == PERCENT
  {
    if s != [] {
      EncodeAlphabet(s[1..]);
    }
  }

  /** Both sides have a canonical form exactly when the whole has, and then it is the two around a
      slash, the first free of slashes. */
  predicate AtSlash(whole: Option<bytes>, left: Option<bytes>, right: Option<bytes>) {
    && (whole.Some? <==> left.Some? && right.Some?)
    && (whole.Some? ==> whole.value == left.value + [SLASH] + right.value && SLASH !in left.value)
  }

  lemma AtSlashBehind(unit: bytes, whole: Option<bytes>, left: Option<bytes>, right: Option<bytes>)
    requires AtSlash(whole, left, right) && SLASH !in unit
    ensures AtSlash(Prepend(unit, whole), Prepend(unit, left), right)
  {
    if whole.Some? {
      Assoc(unit, left.value + [SLASH], right.value);
      Assoc(unit, left.value, [SLASH]);
    }
  }

  /** An escape never straddles a slash, so the canonical spelling works on each side of it. */
  lemma {:induction false} CanonicalAtSlash(a: bytes, b: bytes)
    requires SLASH !in a
    ensures AtSlash(Canonical(a + [SLASH] + b), Canonical(a), Canonical(b))
    decreases |a|
  {
    var s := a + [SLASH] + b;
    if a == [] {
      assert s == [SLASH] + b;
      CanonicalPlain(SLASH, b);
      assert [] + [SLASH] == [SLASH];
    } else if a[0] == PERCENT {
      if EscapeAt(a) {
        var rest := a[3..];
        assert s == [PERCENT, a[1], a[2]] + (rest + [SLASH] + b);
        CanonicalEscaped(a[1], a[2], rest + [SLASH] + b);
        CanonicalAtSlash(rest, b);
        var unit := [PERCENT, ToUpper(a[1]), ToUpper(a[2])];
        AtSlashBehind(unit, Canonical(rest + [SLASH] + b), Canonical(rest), Canonical(b));
      } else {
        assert !EscapeAt(s);
      }
    } else {
      var rest := a[1..];
      assert s == [a[0]] + (rest + [SLASH] + b);
      CanonicalPlain(a[0], rest + [SLASH] + b);
      CanonicalAtSlash(rest, b);
      AtSlashBehind(EncodeByte(a[0]), Canonical(rest + [SLASH] + b), Canonical(rest), Canonical(b));
    }
  }

  // ----- the loops of the source

  lemma PrependNothing(t: Option<bytes>)
    ensures Prepend([], t) == t
  {
    if t.Some? {
      assert [] + t.value == t.value;
    }
  }

  method PercentDecode(input: bytes) returns (result: Option<bytes>)
    ensures result == Decode(input)
  {
    var decoded: bytes := [];
    var index := 0;
    assert input[0..] == input;
    PrependNothing(Decode(input));
    while index < |input|
      invariant 0 <= index <= |input|
      invariant Decode(input) == Prepend(decoded, Decode(input[index..]))
      decreases |input| - index
    {
      var left := input[index..];
      if input[index] != PERCENT {
        DecodeFront(decoded, left, 1);
        assert left[1..] == input[index + 1..];
        decoded := decoded + [input[index]];
        index := index + 1;
      } else {
        if index + 2 >= |input| || !IsHex(input[index + 1]) || !IsHex(input[index + 2]) {
          return None;
        }
        DecodeFront(decoded, left, 3);
        assert left[3..] == input[index + 3..];
        decoded := decoded + [16 * Nibble(input[index + 1]) + Nibble(input[index + 2])];
        index := index + 3;
      }
    }
    assert decoded + [] == decoded;
    return Some(decoded);
  }

  lemma DecodeFront(decoded: bytes, left: bytes, n: nat)
    requires left != [] && ((n == 1 && left[0] != PERCENT) || (n == 3 && EscapeAt(left)))
    ensures var b := if n == 1 then left[0] else 16 * Nibble(left[1]) + Nibble(left[2]);
            Prepend(decoded, Decode(left)) == Prepend(decoded + [b], Decode(left[n..]))
  {
    var rest := Decode(left[n..]);
    var b := if n == 1 then left[0] else 16 * Nibble(left[1]) + Nibble(left[2]);
    if rest.Some? {
      Assoc(decoded, [b], rest.value);
    }
  }

  method AwsEncode(value: bytes) returns (encoded: bytes)
    ensures encoded == Encode(value)
  {
    encoded := [];
    for i := 0 to |value|
      invariant Encode(value) == encoded + Encode(value[i..])
    {
      assert value[i..][0] == value[i] && value[i..][1..] == value[i + 1..];
      Assoc(encoded, EncodeByte(value[i]), Encode(value[i + 1..]));
      encoded := encoded + EncodeByte(value[i]);
    }
  }

  /** `canonical_uri`: only a path that starts with a slash has one. */
  function CanonicalUri(path: bytes): Option<bytes> {
    if path == [] || path[0] != SLASH then None else Canonical(path)
  }

  lemma CanonicalFront(output: bytes, left: bytes, unit: bytes, n: nat)
    requires left != [] && n <= |left|
    requires Canonical(left) == Prepend(unit, Canonical(left[n..]))
    ensures Prepend(output, Canonical(left)) == Prepend(output + unit, Canonical(left[n..]))
  {
    if Canonical(left[n..]).Some? {
      Assoc(output, unit, Canonical(left[n..]).value);
    }
  }

  method CanonicalizeUri(path: bytes) returns (uri: Option<bytes>)
    ensures uri == CanonicalUri(path)
  {
    if path == [] || path[0] != SLASH {
      return None;
    }
    var output: bytes := [];
    var index := 0;
    assert path[0..] == path;
    PrependNothing(Canonical(path));
    while index < |path|
      invariant 0 <= index <= |path|
      invariant Canonical(path) == Prepend(output, Canonical(path[index..]))
      decreases |path| - index
    {
      var b := path[index];
      var left := path[index..];
      if b == PERCENT {
        if index + 2 >= |path| || !IsHex(path[index + 1]) || !IsHex(path[index + 2]) {
          return None;
        }
        var unit := [PERCENT, ToUpper(path[index + 1]), ToUpper(path[index + 2])];
        CanonicalFront(output, left, unit, 3);
        assert left[3..] == path[index + 3..];
        output := output + unit;
        index := index + 3;
      } else {
        var unit := if b == SLASH || IsUnreserved(b) then [b] else Escape(b);
        CanonicalFront(output, left, unit, 1);
        assert left[1..] == path[index + 1..];
        output := output + unit;
        index := index + 1;
      }
    }
    assert output + [] == output;
    return Some(output);
  }
}
