/** Well-formed UTF-8 (table 3-7 of the Unicode Standard): text as a sequence of scalar values, and
    its bytes. */
module Utf8 {
  import opened Bytes

  type scalar = c: int | 0 <= c < 0xd800 || 0xe000 <= c <= 0x10ffff
  type text = seq<scalar>

  predicate IsContinuation(b: byte) { 0x80 <= b < 0xc0 }

  function EncodeScalar(c: scalar): (s: bytes)
    ensures 1 <= |s| <= 4
  {
    var (c1, c2, c3) := (c / 64, c / 64 / 64, c / 64 / 64 / 64);
    if c < 0x80 then [c]
    else if c < 0x800 then [0xc0 + c1, 0x80 + c % 64]
    else if c < 0x10000 then [0xe0 + c2, 0x80 + c1 % 64, 0x80 + c % 64]
    else [0xf0 + c3, 0x80 + c2 % 64, 0x80 + c1 % 64, 0x80 + c % 64]
  }

  lemma Radix(q: int, r: int)
    requires 0 <= r < 64
    ensures (q * 64 + r) / 64 == q && (q * 64 + r) % 64 == r
  {
  }

  function Encode(t: text): bytes {
    if t == [] then [] else EncodeScalar(t[0]) + Encode(t[1..])
  }

  datatype First = NoScalar | First(value: scalar, length: nat)

  /** The scalar value at the front; overlong forms, surrogates and values out of range are refused. */
  function DecodeFirst(s: bytes): (r: First)
    ensures r.First? ==> 1 <= r.length <= |s|
  {
    if s == [] then NoScalar
    else if s[0] < 0x80 then First(s[0], 1)
    else if s[0] < 0xc2 then NoScalar
    else if s[0] < 0xe0 then
      if |s| >= 2 && IsContinuation(s[1]) then First(Two(s[0], s[1]), 2) else NoScalar
    else if s[0] < 0xf0 then
      if |s| >= 3 && IsContinuation(s[1]) && IsContinuation(s[2]) then
        var c := Three(s[0], s[1], s[2]);
        if c < 0x800 || 0xd800 <= c < 0xe000 then NoScalar else First(c, 3)
      else NoScalar
    else if s[0] < 0xf5 then
      if |s| >= 4 && IsContinuation(s[1]) && IsContinuation(s[2]) && IsContinuation(s[3]) then
        var c := Four(s[0], s[1], s[2], s[3]);
        if c < 0x10000 || c > 0x10ffff then NoScalar else First(c, 4)
      else NoScalar
    else NoScalar
  }

  function Two(a: int, b: int): int {
    (a - 0xc0) * 64 + (b - 0x80)
  }

  function Three(a: int, b: int, d: int): int {
    ((a - 0xe0) * 64 + (b - 0x80)) * 64 + (d - 0x80)
  }

  function Four(a: int, b: int, d: int, e: int): int {
    (((a - 0xf0) * 64 + (b - 0x80)) * 64 + (d - 0x80)) * 64 + (e - 0x80)
  }

  /** A decoded scalar value is spelled by the bytes it was decoded from. */
  lemma FirstDecoded(s: bytes)
    requires DecodeFirst(s).First?
    ensures s[..DecodeFirst(s).length] == EncodeScalar(DecodeFirst(s).value)
  {
    var r := DecodeFirst(s);
    if r.length == 1 {
      assert s[..1] == [s[0]];
    } else if r.length == 2 {
      Radix(s[0] - 0xc0, s[1] - 0x80);
      assert s[..2] == [s[0], s[1]];
    } else if r.length == 3 {
      ThreeDecoded(s);
    } else {
      FourDecoded(s);
    }
  }

  lemma ThreeDecoded(s: bytes)
    requires DecodeFirst(s).First? && DecodeFirst(s).length == 3
    ensures s[..3] == EncodeScalar(DecodeFirst(s).value)
  {
    var (a: int, b: int) := (s[0] - 0xe0, s[1] - 0x80);
    var high := a * 64 + b;
    Radix(a, b);
    Radix(high, s[2] - 0x80);
    assert s[..3] == [s[0], s[1], s[2]];
  }

  lemma FourDecoded(s: bytes)
    requires DecodeFirst(s).First? && DecodeFirst(s).length == 4
    ensures s[..4] == EncodeScalar(DecodeFirst(s).value)
  {
    var (a: int, b: int) := (s[0] - 0xf0, s[1] - 0x80);
    var high := a * 64 + b;
    var middle := high * 64 + (s[2] - 0x80);
    Radix(a, b);
    Radix(high, s[2] - 0x80);
    Radix(middle, s[3] - 0x80);
    assert s[..4] == [s[0], s[1], s[2], s[3]];
  }

  function Decode(s: bytes): Option<text> {
    if s == [] then Some([])
    else
      var first := DecodeFirst(s);
      if first.NoScalar? then None
      else
        var rest := Decode(s[first.length..]);
        if rest.None? then None else Some([first.value] + rest.value)
  }

  predicate IsUtf8(s: bytes) {
    Decode(s).Some?
  }

  lemma FirstEncoded(c: scalar, tail: bytes)
    ensures DecodeFirst(EncodeScalar(c) + tail) == First(c, |EncodeScalar(c)|)
    ensures (EncodeScalar(c) + tail)[|EncodeScalar(c)|..] == tail
  {
    var (code, s) := (EncodeScalar(c), EncodeScalar(c) + tail);
    assert forall i :: 0 <= i < |code| ==> s[i] == code[i];
  }

  /** Text survives the trip through its bytes. */
  lemma {:induction false} TextRoundTrip(t: text)
    ensures Decode(Encode(t)) == Some(t)
  {
    if t != [] {
      TextRoundTrip(t[1..]);
      FirstEncoded(t[0], Encode(t[1..]));
      assert [t[0]] + t[1..] == t;
    }
  }

  lemma EncodeCons(v: scalar, rest: text)
    ensures Encode([v] + rest) == EncodeScalar(v) + Encode(rest)
  {
    assert ([v] + rest)[1..] == rest;
  }

  /** Well-formed bytes are the bytes of exactly the text they decode to. */
  lemma {:induction false} BytesRoundTrip(s: bytes)
    requires IsUtf8(s)
    ensures Encode(Decode(s).value) == s
    decreases |s|
  {
    if s != [] {
      var first := DecodeFirst(s);
      var rest := Decode(s[first.length..]).value;
      FirstDecoded(s);
      BytesRoundTrip(s[first.length..]);
      EncodeCons(first.value, rest);
      assert s == s[..first.length] + s[first.length..];
    }
  }
}
