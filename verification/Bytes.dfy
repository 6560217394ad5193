/** Byte strings and the small vocabulary that every component shares. */
module Bytes {
  type byte = x: int | 0 <= x < 256
  type bytes = seq<byte>

  datatype Option<+T> = None | Some(value: T)

  const TAB: byte := 9
  const LF: byte := 10
  const CR: byte := 13
  const SPACE: byte := 32
  const CRLF: bytes := [CR, LF]

  // Machine widths of the source: i32, i64, u64 and a 64-bit usize.
  const I32_MAX: int := 0x7fff_ffff
  const I64_MAX: int := 0x7fff_ffff_ffff_ffff
  const U64_MAX: int := 0xffff_ffff_ffff_ffff

  type Int32 = x: int | -0x8000_0000 <= x <= I32_MAX
  type Int64 = x: int | -0x8000_0000_0000_0000 <= x <= I64_MAX
  type UInt64 = x: int | 0 <= x <= U64_MAX

  function Min(a: int, b: int): int {
    if a < b then a else b
  }

  function Max(a: int, b: int): int {
    if a < b then b else a
  }

  /** Concatenation of a sequence of pieces. */
  function Flatten<T>(parts: seq<seq<T>>): seq<T> {
    if parts == [] then [] else parts[0] + Flatten(parts[1..])
  }

  lemma {:induction false} FlattenAppend<T>(a: seq<seq<T>>, b: seq<seq<T>>)
    ensures Flatten(a + b) == Flatten(a) + Flatten(b)
  {
    if a == [] {
      assert a + b == b;
    } else {
      assert (a + b)[1..] == a[1..] + b;
      FlattenAppend(a[1..], b);
    }
  }

  lemma Assoc<T>(a: seq<T>, b: seq<T>, c: seq<T>)
    ensures a + b + c == a + (b + c)
  {
  }

  lemma NotInConcat<T>(x: T, a: seq<T>, b: seq<T>)
    requires x !in a && x !in b
    ensures x !in a + b
  {
  }

  lemma FlattenSnoc<T>(a: seq<seq<T>>, x: seq<T>)
    ensures Flatten(a + [x]) == Flatten(a) + x
  {
    FlattenAppend(a, [x]);
    assert Flatten([x]) == x + Flatten<T>([]);
  }

  /** The bytes of an ASCII literal. */
  function Ascii(text: string): (b: bytes)
    ensures |b| == |text|
  {
    seq(|text|, i requires 0 <= i < |text| => text[i] as int % 256)
  }

  // ----- searching and splitting

  /** Index of the first `d`, or -1. */
  function IndexOf(s: bytes, d: byte): (r: int)
    ensures -1 <= r < |s|
    ensures r >= 0 ==> s[r] == d && forall i :: 0 <= i < r ==> s[i] != d
    ensures r < 0 ==> d !in s
  {
    if s == [] then -1
    else if s[0] == d then 0
    else
      var r := IndexOf(s[1..], d);
      assert r < 0 ==> forall i :: 0 < i < |s| ==> s[i] == s[1..][i - 1];
      if r < 0 then -1 else r + 1
  }

  /** The pieces between delimiters; always at least one. */
  function Split(s: bytes, d: byte): (parts: seq<bytes>)
    ensures |parts| >= 1
    decreases |s|
  {
    var i := IndexOf(s, d);
    if i < 0 then [s] else [s[..i]] + Split(s[i + 1..], d)
  }

  function Join(parts: seq<bytes>, d: byte): bytes {
    if parts == [] then []
    else if |parts| == 1 then parts[0]
    else parts[0] + [d] + Join(parts[1..], d)
  }

  lemma JoinCons(first: bytes, parts: seq<bytes>, d: byte)
    requires parts != []
    ensures Join([first] + parts, d) == first + [d] + Join(parts, d)
  {
    assert ([first] + parts)[1..] == parts;
  }

  lemma SplitStep(first: bytes, rest: bytes, d: byte)
    requires d !in first
    ensures Split(first + [d] + rest, d) == [first] + Split(rest, d)
  {
    var s := first + [d] + rest;
    FirstAt(s, d, |first|);
    assert s[..|first|] == first && s[|first| + 1..] == rest;
  }

  lemma {:induction false} JoinSplit(s: bytes, d: byte)
    ensures Join(Split(s, d), d) == s
    decreases |s|
  {
    var i := IndexOf(s, d);
    if i >= 0 {
      var first, rest := s[..i], s[i + 1..];
      assert s == first + [d] + rest;
      SplitStep(first, rest, d);
      JoinSplit(rest, d);
      JoinCons(first, Split(rest, d), d);
    }
  }

  lemma {:induction false} SplitPieces(s: bytes, d: byte)
    ensures forall k :: 0 <= k < |Split(s, d)| ==> d !in Split(s, d)[k]
    decreases |s|
  {
    var i := IndexOf(s, d);
    if i >= 0 {
      SplitPieces(s[i + 1..], d);
      assert d !in s[..i];
    }
  }

  /** Pieces free of the delimiter survive joining and splitting. */
  lemma {:induction false} SplitJoin(parts: seq<bytes>, d: byte)
    requires parts != []
    requires forall k :: 0 <= k < |parts| ==> d !in parts[k]
    ensures Split(Join(parts, d), d) == parts
  {
    if |parts| == 1 {
      assert IndexOf(parts[0], d) < 0;
      assert [parts[0]] == parts;
    } else {
      SplitStep(parts[0], Join(parts[1..], d), d);
      SplitJoin(parts[1..], d);
      assert [parts[0]] + parts[1..] == parts;
    }
  }

  lemma FirstAt(s: bytes, d: byte, i: nat)
    requires i < |s| && s[i] == d && d !in s[..i]
    ensures IndexOf(s, d) == i
  {
    assert forall k :: 0 <= k < i ==> s[k] == s[..i][k];
  }

  // ----- hexadecimal

  predicate IsDigit(b: byte) { 48 <= b <= 57 }

  predicate IsLower(b: byte) { 97 <= b <= 122 }

  predicate IsUpper(b: byte) { 65 <= b <= 90 }

  predicate IsHex(b: byte) { IsDigit(b) || 97 <= b <= 102 || 65 <= b <= 70 }

  function Nibble(b: byte): (v: nat)
    requires IsHex(b)
    ensures v < 16
  {
    if IsDigit(b) then b - 48 else if b >= 97 then b - 87 else b - 55
  }

  predicate AllHex(s: bytes) {
    forall i :: 0 <= i < |s| ==> IsHex(s[i])
  }

  function HexNumber(s: bytes): nat
    requires AllHex(s)
  {
    if s == [] then 0 else 16 * HexNumber(s[..|s| - 1]) + Nibble(s[|s| - 1])
  }

  function Power16(k: nat): nat {
    if k == 0 then 1 else 16 * Power16(k - 1)
  }

  function LowerHexDigit(v: nat): (b: byte)
    requires v < 16
    ensures IsHex(b) && Nibble(b) == v
  {
    if v < 10 then 48 + v else 87 + v
  }

  /** Two lower-case digits per byte. */
  function HexLower(s: bytes): (t: bytes)
    ensures |t| == 2 * |s| && AllHex(t)
  {
    if s == [] then []
    else [LowerHexDigit(s[0] / 16), LowerHexDigit(s[0] % 16)] + HexLower(s[1..])
  }

  /** The bytes spelled by pairs of hexadecimal digits. */
  function HexPairs(s: bytes): (t: bytes)
    requires |s| % 2 == 0 && AllHex(s)
    ensures |t| == |s| / 2
  {
    if s == [] then [] else [16 * Nibble(s[0]) + Nibble(s[1])] + HexPairs(s[2..])
  }

  lemma {:induction false} HexRoundTrip(s: bytes)
    ensures HexPairs(HexLower(s)) == s
  {
    if s != [] {
      HexRoundTrip(s[1..]);
      assert HexLower(s)[2..] == HexLower(s[1..]);
    }
  }

  // ----- line endings

  predicate CrlfAt(s: bytes, i: int) {
    0 <= i && i + 1 < |s| && s[i] == CR && s[i + 1] == LF
  }

  /** Index of the first CR LF, or -1. */
  function IndexOfCrlf(s: bytes): (r: int)
    ensures -1 <= r
    ensures r >= 0 ==> CrlfAt(s, r)
    ensures forall i :: CrlfAt(s, i) ==> 0 <= r <= i
  {
    if |s| < 2 then -1
    else if CrlfAt(s, 0) then 0
    else
      var r := IndexOfCrlf(s[1..]);
      assert forall i :: CrlfAt(s, i) ==> CrlfAt(s[1..], i - 1);
      if r < 0 then -1 else r + 1
  }

  /** No CR LF inside. */
  ghost predicate CleanLine(line: bytes) {
    forall i :: !CrlfAt(line, i)
  }

  /** A clean line ends at the CR LF that follows it. */
  lemma FirstCrlf(line: bytes, rest: bytes)
    requires CleanLine(line)
    ensures IndexOfCrlf(line + CRLF + rest) == |line|
  {
    var s := line + CRLF + rest;
    var p := IndexOfCrlf(s);
    assert CrlfAt(s, |line|);
    assert p < |line| ==> CrlfAt(line, p);
  }

  // ----- tokens and optional white space

  predicate IsOws(b: byte) { b == SPACE || b == TAB }

  function TrimLeft(s: bytes): (t: bytes)
    ensures |t| <= |s|
  {
    if s != [] && IsOws(s[0]) then TrimLeft(s[1..]) else s
  }

  function TrimRight(s: bytes): (t: bytes)
    ensures |t| <= |s|
  {
    if s != [] && IsOws(s[|s| - 1]) then TrimRight(s[..|s| - 1]) else s
  }

  predicate IsAlphanumeric(b: byte) { IsDigit(b) || IsLower(b) || IsUpper(b) }

  /** A token character of section 5.6.2 of RFC 9110. */
  predicate IsTchar(b: byte) {
    IsAlphanumeric(b) || b in {33, 35, 36, 37, 38, 39, 42, 43, 45, 46, 94, 95, 96, 124, 126}
  }

  predicate AllTchar(s: bytes) {
    s == [] || (IsTchar(s[0]) && AllTchar(s[1..]))
  }

  /** The bytes a field value may hold: no controls but the tab. */
  predicate FieldValue(s: bytes) {
    s == [] || ((s[0] == TAB || (s[0] >= 32 && s[0] != 127)) && FieldValue(s[1..]))
  }

  /** Lines, each with its CR LF. */
  function EncodeLines(lines: seq<bytes>): bytes {
    if lines == [] then [] else lines[0] + CRLF + EncodeLines(lines[1..])
  }
}
