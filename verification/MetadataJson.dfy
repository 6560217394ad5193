/** The metadata object of src/s3/service.rs: a flat JSON object of strings (section 7 of RFC 8259),
    its writer and its reader. */
module MetadataJson {
  import opened Bytes
  import opened Utf8

  const QUOTE: byte := 34
  const BACKSLASH: byte := 92
  const OPEN: byte := 123
  const CLOSE: byte := 125
  const COLON: byte := 58
  const COMMA: byte := 44
  const LETTER_U: byte := 117

  datatype Member = Member(name: text, value: text)

  // ----- writing

  predicate IsControl(c: scalar) { c < 0x20 || 0x7f <= c <= 0x9f }

  /** How one character is written. */
  function Unit(c: scalar): bytes {
    if c == 34 then [BACKSLASH, QUOTE]
    else if c == 92 then [BACKSLASH, BACKSLASH]
    else if c == 10 then [BACKSLASH, 110]
    else if c == 13 then [BACKSLASH, 114]
    else if c == 9 then [BACKSLASH, 116]
    else if IsControl(c) then [BACKSLASH, LETTER_U, 48, 48, LowerHexDigit(c / 16), LowerHexDigit(c % 16)]
    else EncodeScalar(c)
  }

  function Units(t: text): bytes {
    if t == [] then [] else Unit(t[0]) + Units(t[1..])
  }

  function WriteString(t: text): bytes {
    [QUOTE] + (Units(t) + [QUOTE])
  }

  function WriteMember(m: Member): bytes {
    WriteString(m.name) + ([COLON] + WriteString(m.value))
  }

  /** Members separated by commas, and the closing brace. */
  function WriteMembers(members: seq<Member>): bytes {
    if members == [] then [CLOSE]
    else WriteMember(members[0]) + (if |members| == 1 then [CLOSE] else [COMMA] + WriteMembers(members[1..]))
  }

  function WriteObject(members: seq<Member>): bytes {
    [OPEN] + WriteMembers(members)
  }

  // ----- reading

  /** A `u16` in hexadecimal; the number parser also takes a leading plus sign. */
  function ParseU16(s: bytes): Option<nat>
    requires |s| == 4
  {
    var digits := if s[0] == 43 then s[1..] else s;
    if AllHex(digits) then Some(HexNumber(digits)) else None
  }

  /** What an escape letter other than `u` stands for. */
  function EscapeLetter(b: byte): Option<scalar> {
    if b == QUOTE || b == BACKSLASH || b == 47 then Some(b)
    else if b == 98 then Some(8)
    else if b == 102 then Some(12)
    else if b == 110 then Some(10)
    else if b == 114 then Some(13)
    else if b == 116 then Some(9)
    else None
  }

  datatype Escape = NoEscape | Escape(value: scalar, length: nat)

  /** The escape after a backslash. */
  function ReadEscape(s: bytes): (e: Escape)
    ensures e.Escape? ==> 1 <= e.length <= |s|
  {
    if s == [] then NoEscape
    else if s[0] == LETTER_U then
      if |s| < 5 then NoEscape
      else
        var value := ParseU16(s[1..5]);
        if value.None? || 0xd800 <= value.value < 0xe000 || value.value > 0x10ffff then NoEscape
        else Escape(value.value, 5)
    else
      var c := EscapeLetter(s[0]);
      if c.None? then NoEscape else Escape(c.value, 1)
  }

  /** The inside of a string after `output`, and what follows its closing quote. */
  function ReadChars(s: bytes, output: text): (r: Option<(text, bytes)>)
    ensures r.Some? ==> |r.value.1| < |s|
    decreases |s|
  {
    if s == [] then None
    else if s[0] == QUOTE then Some((output, s[1..]))
    else if s[0] == BACKSLASH then
      var e := ReadEscape(s[1..]);
      if e.NoEscape? then None else ReadChars(s[1 + e.length..], output + [e.value])
    else if s[0] < 0x20 then None
    else if s[0] < 0x80 then ReadChars(s[1..], output + [s[0]])
    else
      var first := DecodeFirst(s);
      if !IsUtf8(s) || first.NoScalar? then None else ReadChars(s[first.length..], output + [first.value])
  }

  function ReadString(s: bytes): (r: Option<(text, bytes)>)
    ensures r.Some? ==> |r.value.1| < |s|
  {
    if s == [] || s[0] != QUOTE then None else ReadChars(s[1..], [])
  }

  predicate IsSpace(b: byte) { b == SPACE || b == TAB || b == LF || b == CR || b == 12 }

  function SkipSpace(s: bytes): (t: bytes)
    ensures |t| <= |s|
  {
    if s != [] && IsSpace(s[0]) then SkipSpace(s[1..]) else s
  }

  /** A name, a colon and a value, with the white space around them. */
  function ReadMember(s: bytes): (r: Option<(Member, bytes)>)
    ensures r.Some? ==> |r.value.1| < |s|
  {
    var name := ReadString(s);
    if name.None? then None
    else
      var afterName := SkipSpace(name.value.1);
      if afterName == [] || afterName[0] != COLON then None
      else
        var value := ReadString(SkipSpace(afterName[1..]));
        if value.None? then None else Some((Member(name.value.0, value.value.0), SkipSpace(value.value.1)))
  }

  /** The members after `result`; anything malformed yields none at all. */
  function ReadMembers(s: bytes, result: seq<Member>): seq<Member>
    decreases |s|
  {
    var left := SkipSpace(s);
    if left != [] && left[0] == CLOSE then result
    else
      var member := ReadMember(left);
      if member.None? then []
      else
        var (m, rest) := member.value;
        if rest != [] && rest[0] == COMMA then ReadMembers(rest[1..], result + [m])
        else if rest != [] && rest[0] == CLOSE then result + [m]
        else []
  }

  function ReadObject(s: bytes): seq<Member> {
    var left := SkipSpace(s);
    if left == [] || left[0] != OPEN then [] else ReadMembers(left[1..], [])
  }

  // ----- what is written is well-formed text

  lemma ScalarBefore(c: scalar, s: bytes)
    requires IsUtf8(s)
    ensures IsUtf8(EncodeScalar(c) + s)
  {
    FirstEncoded(c, s);
  }

  lemma AsciiBefore(b: byte, s: bytes)
    requires b < 0x80 && IsUtf8(s)
    ensures IsUtf8([b] + s)
  {
    ScalarBefore(b, s);
    assert EncodeScalar(b) == [b];
  }

  lemma {:induction false} AsciiRunBefore(a: bytes, s: bytes)
    requires (forall i :: 0 <= i < |a| ==> a[i] < 0x80) && IsUtf8(s)
    ensures IsUtf8(a + s)
    decreases |a|
  {
    if a == [] {
      assert a + s == s;
    } else {
      AsciiRunBefore(a[1..], s);
      AsciiBefore(a[0], a[1..] + s);
      assert [a[0]] + (a[1..] + s) == a + s;
    }
  }

  lemma UnitBefore(c: scalar, s: bytes)
    requires IsUtf8(s)
    ensures IsUtf8(Unit(c) + s)
  {
    if c == 34 || c == 92 || c == 10 || c == 13 || c == 9 || IsControl(c) {
      AsciiRunBefore(Unit(c), s);
    } else {
      ScalarBefore(c, s);
    }
  }

  lemma {:induction false} UnitsBefore(t: text, s: bytes)
    requires IsUtf8(s)
    ensures IsUtf8(Units(t) + s)
    decreases |t|
  {
    if t == [] {
      assert Units(t) + s == s;
    } else {
      UnitsBefore(t[1..], s);
      UnitBefore(t[0], Units(t[1..]) + s);
      Assoc(Unit(t[0]), Units(t[1..]), s);
    }
  }

  lemma StringBefore(t: text, s: bytes)
    requires IsUtf8(s)
    ensures IsUtf8(WriteString(t) + s)
  {
    AsciiBefore(QUOTE, s);
    UnitsBefore(t, [QUOTE] + s);
    AsciiBefore(QUOTE, Units(t) + ([QUOTE] + s));
    StringParts(t, s);
  }

  lemma StringParts(t: text, s: bytes)
    ensures WriteString(t) + s == [QUOTE] + (Units(t) + ([QUOTE] + s))
  {
    Assoc([QUOTE], Units(t) + [QUOTE], s);
    Assoc(Units(t), [QUOTE], s);
  }

  /** `ReadChars`, named so that specifications mention it without unfolding it. */
  function Chars(s: bytes, output: text): Option<(text, bytes)> {
    ReadChars(s, output)
  }

  // ----- reading back what was written

  lemma ControlEscape(c: scalar, s: bytes)
    requires IsControl(c)
    ensures ReadEscape([LETTER_U, 48, 48, LowerHexDigit(c / 16), LowerHexDigit(c % 16)] + s) == Escape(c, 5)
  {
    var escape := [LETTER_U, 48, 48, LowerHexDigit(c / 16), LowerHexDigit(c % 16)];
    var digits := [48, 48, LowerHexDigit(c / 16), LowerHexDigit(c % 16)];
    assert (escape + s)[1..5] == digits;
    FourHex(digits);
  }

  lemma FourHex(d: bytes)
    requires |d| == 4 && AllHex(d)
    ensures HexNumber(d) == 16 * (16 * (16 * Nibble(d[0]) + Nibble(d[1])) + Nibble(d[2])) + Nibble(d[3])
  {
    var (three, two, one) := (d[..3], d[..2], d[..1]);
    assert d[..3][..2] == two && two[..1] == one && one[..0] == [];
    assert HexNumber(one) == Nibble(d[0]);
    assert HexNumber(two) == 16 * HexNumber(one) + Nibble(d[1]);
    assert HexNumber(three) == 16 * HexNumber(two) + Nibble(d[2]);
  }

  lemma EscapedUnit(c: scalar, code: bytes, s: bytes, output: text)
    requires ReadEscape(code + s) == Escape(c, |code|)
    ensures Chars([BACKSLASH] + code + s, output) == Chars(s, output + [c])
  {
    var all := [BACKSLASH] + code + s;
    assert all[1..] == code + s && all[1 + |code|..] == s;
  }

  lemma RawUnit(c: scalar, s: bytes, output: text)
    requires c != 34 && c != 92 && c >= 0x20 && IsUtf8(s)
    ensures Chars(EncodeScalar(c) + s, output) == Chars(s, output + [c])
  {
    FirstEncoded(c, s);
    ScalarBefore(c, s);
    var all := EncodeScalar(c) + s;
    if c < 0x80 {
      assert all[1..] == s;
    } else {
      assert all[0] >= 0x80;
    }
  }

  /** One written character is read as that character. */
  lemma UnitRead(c: scalar, s: bytes, output: text)
    requires IsUtf8(s)
    ensures Chars(Unit(c) + s, output) == Chars(s, output + [c])
  {
    if c == 34 || c == 92 || c == 10 || c == 13 || c == 9 {
      var letter := [Unit(c)[1]];
      assert Unit(c) == [BACKSLASH] + letter;
      EscapedUnit(c, letter, s, output);
    } else if IsControl(c) {
      var code := [LETTER_U, 48, 48, LowerHexDigit(c / 16), LowerHexDigit(c % 16)];
      assert Unit(c) == [BACKSLASH] + code;
      ControlEscape(c, s);
      EscapedUnit(c, code, s, output);
    } else {
      RawUnit(c, s, output);
    }
  }

  lemma MoveOne(output: text, t: text)
    requires t != []
    ensures output + [t[0]] + t[1..] == output + t
  {
  }

  lemma {:induction false} UnitsRead(t: text, s: bytes, output: text)
    requires IsUtf8(s)
    ensures Chars(Units(t) + s, output) == Chars(s, output + t)
    decreases |t|
  {
    if t == [] {
      assert Units(t) + s == s && output + t == output;
    } else {
      UnitsBefore(t[1..], s);
      Assoc(Unit(t[0]), Units(t[1..]), s);
      UnitRead(t[0], Units(t[1..]) + s, output);
      UnitsRead(t[1..], s, output + [t[0]]);
      MoveOne(output, t);
    }
  }

  /** A written string is read back, and reading stops right after it. */
  lemma StringRead(t: text, s: bytes)
    requires IsUtf8(s)
    ensures ReadString(WriteString(t) + s) == Some((t, s))
  {
    StringParts(t, s);
    var inside := Units(t) + ([QUOTE] + s);
    assert ([QUOTE] + inside)[1..] == inside;
    AsciiBefore(QUOTE, s);
    UnitsRead(t, [QUOTE] + s, []);
    assert [] + t == t && ([QUOTE] + s)[1..] == s;
  }

  lemma MemberParts(m: Member, s: bytes)
    ensures WriteMember(m) + s == WriteString(m.name) + ([COLON] + (WriteString(m.value) + s))
    ensures WriteMember(m) + s != [] && (WriteMember(m) + s)[0] == QUOTE
  {
    Assoc(WriteString(m.name), [COLON] + WriteString(m.value), s);
    Assoc([COLON], WriteString(m.value), s);
  }

  lemma MemberRead(m: Member, s: bytes)
    requires IsUtf8(s) && (s == [] || !IsSpace(s[0]))
    ensures ReadMember(WriteMember(m) + s) == Some((m, s))
  {
    MemberParts(m, s);
    StringBefore(m.value, s);
    var value := WriteString(m.value) + s;
    AsciiBefore(COLON, value);
    StringRead(m.name, [COLON] + value);
    assert SkipSpace([COLON] + value) == [COLON] + value && ([COLON] + value)[1..] == value;
    assert value[0] == QUOTE;
    StringRead(m.value, s);
  }

  lemma {:induction false} MembersWellFormed(members: seq<Member>)
    ensures IsUtf8(WriteMembers(members))
    decreases |members|
  {
    assert IsUtf8([]);
    AsciiBefore(CLOSE, []);
    assert [CLOSE] + [] == [CLOSE];
    if members != [] {
      var rest := if |members| == 1 then [CLOSE] else [COMMA] + WriteMembers(members[1..]);
      if |members| > 1 {
        MembersWellFormed(members[1..]);
        AsciiBefore(COMMA, WriteMembers(members[1..]));
      }
      MemberWellFormed(members[0], rest);
    }
  }

  lemma MemberWellFormed(m: Member, s: bytes)
    requires IsUtf8(s)
    ensures IsUtf8(WriteMember(m) + s)
  {
    MemberParts(m, s);
    StringBefore(m.value, s);
    AsciiBefore(COLON, WriteString(m.value) + s);
    StringBefore(m.name, [COLON] + (WriteString(m.value) + s));
  }

  lemma {:induction false} MembersRead(members: seq<Member>, result: seq<Member>)
    requires members != []
    ensures ReadMembers(WriteMembers(members), result) == result + members
    decreases |members|
  {
    var m := members[0];
    var rest := if |members| == 1 then [CLOSE] else [COMMA] + WriteMembers(members[1..]);
    MembersWellFormed([]);
    if |members| > 1 {
      MembersWellFormed(members[1..]);
      AsciiBefore(COMMA, WriteMembers(members[1..]));
    }
    MemberParts(m, rest);
    MemberRead(m, rest);
    assert SkipSpace(WriteMembers(members)) == WriteMembers(members);
    assert members == [m] + members[1..];
    if |members| == 1 {
      assert result + [m] == result + members;
    } else {
      assert rest[1..] == WriteMembers(members[1..]);
      MembersRead(members[1..], result + [m]);
      Assoc(result, [m], members[1..]);
    }
  }

  /** Every list of members is read back exactly from the text written for it. */
  lemma ObjectRoundTrip(members: seq<Member>)
    ensures ReadObject(WriteObject(members)) == members
  {
    var all := WriteObject(members);
    assert SkipSpace(all) == all && all[1..] == WriteMembers(members);
    if members != [] {
      MembersRead(members, []);
      assert [] + members == members;
    }
  }

  // ----- the loops of the source

  method AppendString(output: bytes, value: text) returns (json: bytes)
    ensures json == output + WriteString(value)
  {
    json := output + [QUOTE];
    for i := 0 to |value|
      invariant json + (Units(value[i..]) + [QUOTE]) == output + WriteString(value)
    {
      assert value[i..][0] == value[i] && value[i..][1..] == value[i + 1..];
      Assoc(Unit(value[i]), Units(value[i + 1..]), [QUOTE]);
      Assoc(json, Unit(value[i]), Units(value[i + 1..]) + [QUOTE]);
      json := json + Unit(value[i]);
    }
    assert Units(value[|value|..]) + [QUOTE] == [QUOTE];
    json := json + [QUOTE];
  }

  /** What is still to be written before member `i`. */
  function ToWrite(members: seq<Member>, i: nat): bytes
    requires i <= |members|
  {
    if i == |members| then [CLOSE] else (if i == 0 then [] else [COMMA]) + WriteMembers(members[i..])
  }

  lemma ToWriteStep(members: seq<Member>, i: nat)
    requires i < |members|
    ensures ToWrite(members, i)
            == (if i == 0 then [] else [COMMA]) + (WriteMember(members[i]) + ToWrite(members, i + 1))
  {
    assert members[i..][0] == members[i] && members[i..][1..] == members[i + 1..];
  }

  method AppendMember(output: bytes, m: Member) returns (json: bytes)
    ensures json == output + WriteString(m.name) + [COLON] + WriteString(m.value)
  {
    json := AppendString(output, m.name);
    json := AppendString(json + [COLON], m.value);
  }

  method WriteMetadata(members: seq<Member>) returns (json: bytes)
    ensures json == WriteObject(members)
  {
    json := [OPEN];
    assert members[0..] == members && [] + WriteMembers(members) == WriteMembers(members);
    for i := 0 to |members|
      invariant json + ToWrite(members, i) == WriteObject(members)
    {
      ToWriteStep(members, i);
      var separator := if i == 0 then [] else [COMMA];
      MemberAppended(json, separator, members[i], ToWrite(members, i + 1));
      json := AppendMember(json + separator, members[i]);
    }
    json := json + [CLOSE];
  }

  lemma MemberAppended(json: bytes, separator: bytes, m: Member, rest: bytes)
    ensures json + (separator + (WriteMember(m) + rest))
            == json + separator + WriteString(m.name) + [COLON] + WriteString(m.value) + rest
  {
    MemberParts(m, rest);
    Assoc(json, separator, WriteMember(m) + rest);
    Assoc(json + separator, WriteString(m.name), [COLON] + (WriteString(m.value) + rest));
    Assoc(json + separator + WriteString(m.name), [COLON], WriteString(m.value) + rest);
    Assoc(json + separator + WriteString(m.name) + [COLON], WriteString(m.value), rest);
  }

  method SkipSpaceAt(input: bytes, start: nat) returns (index: nat)
    requires start <= |input|
    ensures start <= index <= |input| && input[index..] == SkipSpace(input[start..])
  {
    index := start;
    while index < |input| && IsSpace(input[index])
      invariant start <= index <= |input| && SkipSpace(input[index..]) == SkipSpace(input[start..])
      decreases |input| - index
    {
      assert input[index..][1..] == input[index + 1..];
      index := index + 1;
    }
  }

  /** The position form of a reading result. */
  ghost predicate At<T(!new)>(r: Option<(T, nat)>, spec: Option<(T, bytes)>, input: bytes) {
    match spec
    case None => r == None
    case Some((value, rest)) => r.Some? && r.value.0 == value && r.value.1 <= |input| && input[r.value.1..] == rest
  }

  lemma After(input: bytes, index: nat, n: nat)
    requires index + n <= |input|
    ensures input[index..][n..] == input[index + n..]
  {
  }

  method ParseStringAt(input: bytes, start: nat) returns (r: Option<(text, nat)>)
    requires start <= |input|
    ensures At(r, ReadString(input[start..]), input)
  {
    if start >= |input| || input[start] != QUOTE {
      return None;
    }
    var index := start + 1;
    After(input, start, 1);
    var output: text := [];
    ghost var goal := ReadString(input[start..]);
    while index < |input|
      invariant start < index <= |input|
      invariant Chars(input[index..], output) == goal
      decreases |input| - index
    {
      var b := input[index];
      var left := input[index..];
      if b == QUOTE {
        After(input, index, 1);
        return Some((output, index + 1));
      }
      if b == BACKSLASH {
        After(input, index, 1);
        var e := ReadEscape(input[index + 1..]);
        if e.NoEscape? {
          return None;
        }
        After(input, index, 1 + e.length);
        output := output + [e.value];
        index := index + 1 + e.length;
      } else if b < 0x20 {
        return None;
      } else if b < 0x80 {
        After(input, index, 1);
        output := output + [b];
        index := index + 1;
      } else {
        var first := DecodeFirst(left);
        if !IsUtf8(left) || first.NoScalar? {
          return None;
        }
        After(input, index, first.length);
        output := output + [first.value];
        index := index + first.length;
      }
    }
    return None;
  }

  method ParseMemberAt(input: bytes, start: nat) returns (r: Option<(Member, nat)>)
    requires start <= |input|
    ensures At(r, ReadMember(input[start..]), input)
    ensures r.Some? ==> start < r.value.1
  {
    var name := ParseStringAt(input, start);
    if name.None? {
      return None;
    }
    var index := SkipSpaceAt(input, name.value.1);
    if index >= |input| || input[index] != COLON {
      return None;
    }
    assert input[index..][1..] == input[index + 1..];
    index := SkipSpaceAt(input, index + 1);
    var value := ParseStringAt(input, index);
    if value.None? {
      return None;
    }
    index := SkipSpaceAt(input, value.value.1);
    assert |input[index..]| < |input[start..]|;
    return Some((Member(name.value.0, value.value.0), index));
  }

  /** `ReadMembers`, named so that specifications mention it without unfolding it. */
  function Listed(s: bytes, result: seq<Member>): seq<Member> {
    ReadMembers(s, result)
  }

  method ParseMetadata(input: bytes) returns (members: seq<Member>)
    ensures members == ReadObject(input)
  {
    assert input[0..] == input;
    var index := SkipSpaceAt(input, 0);
    if index >= |input| || input[index] != OPEN {
      return [];
    }
    assert input[index..][1..] == input[index + 1..];
    index := index + 1;
    var result: seq<Member> := [];
    ghost var goal := ReadObject(input);
    while true
      invariant index <= |input| && Listed(input[index..], result) == goal
      decreases |input| - index
    {
      var left := SkipSpaceAt(input, index);
      if left < |input| && input[left] == CLOSE {
        ListedEnd(input[index..], result);
        return result;
      }
      var member := ParseMemberAt(input, left);
      if member.None? {
        return [];
      }
      var (m, after) := member.value;
      ListedStep(input[index..], result, m, input[after..]);
      if after < |input| && input[after] == COMMA {
        assert input[after..][1..] == input[after + 1..];
        result := result + [m];
        index := after + 1;
      } else if after < |input| && input[after] == CLOSE {
        return result + [m];
      } else {
        return [];
      }
    }
  }

  lemma ListedEnd(s: bytes, result: seq<Member>)
    requires SkipSpace(s) != [] && SkipSpace(s)[0] == CLOSE
    ensures Listed(s, result) == result
  {
  }

  lemma ListedStep(s: bytes, result: seq<Member>, m: Member, rest: bytes)
    requires (SkipSpace(s) == [] || SkipSpace(s)[0] != CLOSE) && ReadMember(SkipSpace(s)) == Some((m, rest))
    ensures Listed(s, result)
            == if rest != [] && rest[0] == COMMA then Listed(rest[1..], result + [m])
               else if rest != [] && rest[0] == CLOSE then result + [m]
               else []
  {
  }
}
