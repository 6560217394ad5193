/** Civil dates and day numbers: `days_from_civil` of src/protocol/sigv4.rs and `civil_from_days` of
    src/s3/xml.rs, written independently of each other, and the order of request timestamps. */
module Civil {
  import opened Bytes
  import opened Ordering

  datatype Date = Date(year: int, month: int, day: int)

  predicate IsLeap(year: int) {
    year % 400 == 0 || (year % 4 == 0 && year % 100 != 0)
  }

  function DaysInMonth(year: int, month: int): int {
    if month in {1, 3, 5, 7, 8, 10, 12} then 31
    else if month in {4, 6, 9, 11} then 30
    else if month == 2 then (if IsLeap(year) then 29 else 28)
    else 0
  }

  predicate ValidDate(d: Date) {
    1 <= d.month <= 12 && 1 <= d.day <= DaysInMonth(d.year, d.month)
  }

  // ----- from a date to its day number

  /** The year that starts in March, and the month within it. */
  function MarchYear(d: Date): int {
    if d.month <= 2 then d.year - 1 else d.year
  }

  function ShiftedMonth(d: Date): int {
    if d.month > 2 then d.month - 3 else d.month + 9
  }

  function DayOfYear(d: Date): int {
    (153 * ShiftedMonth(d) + 2) / 5 + d.day - 1
  }

  function DaysFromCivil(d: Date): int {
    var year := MarchYear(d);
    var era := year / 400;
    var yearOfEra := year - era * 400;
    var dayOfEra := yearOfEra * 365 + yearOfEra / 4 - yearOfEra / 100 + DayOfYear(d);
    era * 146097 + dayOfEra - 719468
  }

  // ----- from a day number to its date

  /** Division that truncates toward zero. */
  function TruncatingDiv(a: int, b: int): int
    requires b > 0
  {
    if a >= 0 then a / b else -((-a) / b)
  }

  function EraOf(z: int): int {
    TruncatingDiv(if z >= 0 then z else z - 146096, 146097)
  }

  function YearOfEra(doe: int): int {
    (doe - doe / 1460 + doe / 36524 - doe / 146096) / 365
  }

  /** The date of a day within a March-based year. */
  function DateWithin(era: int, yoe: int, doy: int): Date {
    var mp := (5 * doy + 2) / 153;
    var day := doy - (153 * mp + 2) / 5 + 1;
    var month := mp + if mp < 10 then 3 else -9;
    Date(yoe + era * 400 + (if month <= 2 then 1 else 0), month, day)
  }

  /** Days of an era before its March-based year `yoe`. */
  function DaysBefore(yoe: int): int {
    365 * yoe + yoe / 4 - yoe / 100
  }

  function FromEra(era: int, doe: int): Date {
    var yoe := YearOfEra(doe);
    DateWithin(era, yoe, doe - DaysBefore(yoe))
  }

  function CivilFromDays(days: int): Date {
    var z := days + 719468;
    FromEra(EraOf(z), z - EraOf(z) * 146097)
  }

  // ----- eras, years and months

  /** Adjusting before truncation makes the quotient the floor. */
  lemma EraIsFloor(z: int)
    ensures EraOf(z) == z / 146097 && 0 <= z - EraOf(z) * 146097 < 146097
  {
  }

  /** Years of a March-based era: century `c`, four-year group `q` and year `r` within it. */
  predicate YearParts(c: int, q: int, r: int) {
    0 <= c < 4 && 0 <= q < 25 && 0 <= r < 4
  }

  lemma PartsOf(yoe: int) returns (c: int, q: int, r: int)
    requires 0 <= yoe < 400
    ensures YearParts(c, q, r) && yoe == 100 * c + 4 * q + r
    ensures yoe / 4 == 25 * c + q && yoe / 100 == c
  {
    c := yoe / 100;
    var y := yoe - 100 * c;
    q, r := y / 4, y % 4;
  }

  /** Length of the March-based year `yoe` of an era: it ends with the February of the next year. */
  function YearLength(yoe: int): int {
    if IsLeap(yoe + 1) then 366 else 365
  }

  lemma LeapParts(c: int, q: int, r: int)
    requires YearParts(c, q, r)
    ensures IsLeap(100 * c + 4 * q + r + 1) <==> r == 3 && (q != 24 || c == 3)
  {
    var y := 100 * c + 4 * q + r + 1;
    assert y % 4 == (r + 1) % 4;
    if r == 3 {
      assert y == 100 * c + 4 * (q + 1);
      if q == 24 {
        assert y == 100 * (c + 1);
      } else {
        assert 0 < y - 100 * c < 100;
        assert y % 100 == y - 100 * c;
      }
    }
  }

  /** The corrections for leap days recover the year from the day of the era. */
  lemma YearRecovered(yoe: int, doy: int)
    requires 0 <= yoe < 400 && 0 <= doy < YearLength(yoe)
    ensures 0 <= DaysBefore(yoe) + doy < 146097 && YearOfEra(DaysBefore(yoe) + doy) == yoe
  {
    var c, q, r := PartsOf(yoe);
    LeapParts(c, q, r);
    var doe := 365 * yoe + yoe / 4 - yoe / 100 + doy;
    assert doe == 36524 * c + 1461 * q + 365 * r + doy;
    CenturyTerm(c, 1461 * q + 365 * r + doy);
    GroupTerm(c, q, 365 * r + doy);
  }

  lemma CenturyTerm(c: int, rest: int)
    requires 0 <= c < 4 && 0 <= rest && (rest < 36524 || (rest == 36524 && c == 3))
    ensures (36524 * c + rest) / 36524 - (36524 * c + rest) / 146096 == c
  {
  }

  lemma GroupTerm(c: int, q: int, rest: int)
    requires 0 <= c < 4 && 0 <= q < 25 && 0 <= rest <= 1460
    ensures (36524 * c + 1461 * q + rest) / 1460 == 25 * c + q + (if 24 * c + q + rest >= 1460 then 1 else 0)
  {
    assert 36524 * c + 1461 * q + rest == 1460 * (25 * c + q) + (24 * c + q + rest);
  }

  /** First day of each March-based month, and its length. */
  function MonthStart(mp: int): int {
    (153 * mp + 2) / 5
  }

  lemma MonthRecovered(mp: int, k: int)
    requires 0 <= mp < 12 && 0 <= k
    requires k < (if mp == 11 then 29 else MonthStart(mp + 1) - MonthStart(mp))
    ensures (5 * (MonthStart(mp) + k) + 2) / 153 == mp
  {
  }

  lemma MonthLengths(d: Date)
    requires ValidDate(d)
    ensures var mp := ShiftedMonth(d);
            && 0 <= mp < 12
            && (mp < 11 ==> DaysInMonth(d.year, d.month) == MonthStart(mp + 1) - MonthStart(mp))
            && (mp == 11 ==> DaysInMonth(d.year, d.month) == YearLength(MarchYear(d)) - MonthStart(11))
  {
  }

  // ----- the two are inverse

  /** Day number of the first of March of a March-based year, counted from the start of era 0. */
  function YearStart(year: int): int {
    var era := year / 400;
    var yoe := year - era * 400;
    era * 146097 + DaysBefore(yoe)
  }

  lemma DayWithinYear(d: Date)
    requires ValidDate(d)
    ensures 0 <= DayOfYear(d) < YearLength(MarchYear(d))
    ensures DaysFromCivil(d) == YearStart(MarchYear(d)) + DayOfYear(d) - 719468
  {
    MonthLengths(d);
    MonthStarts(ShiftedMonth(d));
  }

  lemma MonthStarts(mp: int)
    requires 0 <= mp < 12
    ensures 0 <= MonthStart(mp) && MonthStart(mp) <= 337 && (mp < 11 ==> MonthStart(mp + 1) <= 337)
  {
  }

  lemma LeapCycle(year: int)
    ensures IsLeap(year) <==> IsLeap(year - year / 400 * 400)
  {
    var k := year / 400;
    assert year == 4 * (100 * k) + (year - 400 * k);
    assert year == 100 * (4 * k) + (year - 400 * k);
  }

  lemma LengthCycle(year: int)
    ensures YearLength(year) == YearLength(year - year / 400 * 400)
  {
    var era := year / 400;
    var yoe := year - era * 400;
    if yoe < 399 {
      assert (year + 1) / 400 == era;
      LeapCycle(year + 1);
    } else {
      assert year + 1 == 400 * (era + 1);
    }
  }

  lemma DateRecovered(d: Date)
    requires ValidDate(d)
    ensures var year := MarchYear(d);
            DateWithin(year / 400, year - year / 400 * 400, DayOfYear(d)) == d
  {
    MonthLengths(d);
    MonthRecovered(ShiftedMonth(d), d.day - 1);
  }

  lemma EraRecovered(era: int, doe: int)
    requires 0 <= doe < 146097
    ensures EraOf(era * 146097 + doe) == era
  {
    EraIsFloor(era * 146097 + doe);
  }

  lemma EraDay(era: int, doe: int)
    requires 0 <= doe < 146097
    ensures CivilFromDays(era * 146097 + doe - 719468) == FromEra(era, doe)
  {
    EraRecovered(era, doe);
    var z := era * 146097 + doe;
    assert EraOf(z) == era && z - EraOf(z) * 146097 == doe;
    assert era * 146097 + doe - 719468 + 719468 == z;
  }

  lemma FromEraDay(era: int, yoe: int, doy: int)
    requires YearOfEra(DaysBefore(yoe) + doy) == yoe
    ensures FromEra(era, DaysBefore(yoe) + doy) == DateWithin(era, yoe, doy)
  {
    assert DaysBefore(yoe) + doy - DaysBefore(yoe) == doy;
  }

  lemma YearDay(era: int, yoe: int, doy: int)
    requires 0 <= yoe < 400 && 0 <= doy < YearLength(yoe)
    ensures CivilFromDays(era * 146097 + (DaysBefore(yoe) + doy) - 719468) == DateWithin(era, yoe, doy)
  {
    YearRecovered(yoe, doy);
    EraDay(era, DaysBefore(yoe) + doy);
    FromEraDay(era, yoe, doy);
  }

  /** Reading a date back from its day number gives the date. */
  lemma CivilRoundTrip(d: Date)
    requires ValidDate(d)
    ensures CivilFromDays(DaysFromCivil(d)) == d
  {
    var year := MarchYear(d);
    DayWithinYear(d);
    LengthCycle(year);
    YearDay(year / 400, year - year / 400 * 400, DayOfYear(d));
    DateRecovered(d);
  }

  // ----- the day number counts days

  function NextDay(d: Date): Date {
    if d.day < DaysInMonth(d.year, d.month) then d.(day := d.day + 1)
    else if d.month < 12 then Date(d.year, d.month + 1, 1)
    else Date(d.year + 1, 1, 1)
  }

  function PreviousDay(d: Date): Date {
    if d.day > 1 then d.(day := d.day - 1)
    else if d.month > 1 then Date(d.year, d.month - 1, DaysInMonth(d.year, d.month - 1))
    else Date(d.year - 1, 12, 31)
  }

  lemma YearStep(year: int)
    ensures YearStart(year + 1) == YearStart(year) + YearLength(year)
  {
    var era := year / 400;
    var yoe := year - era * 400;
    LengthCycle(year);
    EraYearStep(yoe);
    if yoe < 399 {
      assert (year + 1) / 400 == era;
    } else {
      assert (year + 1) / 400 == era + 1;
    }
  }

  /** The years of an era follow each other, and the last of them ends the era. */
  lemma EraYearStep(yoe: int)
    requires 0 <= yoe < 400
    ensures DaysBefore(yoe) + YearLength(yoe) == if yoe < 399 then DaysBefore(yoe + 1) else 146097
  {
    var c, q, r := PartsOf(yoe);
    LeapParts(c, q, r);
    if yoe < 399 {
      var c1, q1, r1 := PartsOf(yoe + 1);
    }
  }

  /** The next date has the next day number. */
  lemma NextDayCounts(d: Date)
    requires ValidDate(d)
    ensures ValidDate(NextDay(d)) && DaysFromCivil(NextDay(d)) == DaysFromCivil(d) + 1
  {
    NextDayInYear(d);
    DayWithinYear(d);
    DayWithinYear(NextDay(d));
    YearStep(MarchYear(d));
  }

  /** Within the March-based year the next day has the next position; after its last day, the end of
      February, comes the first day of the next year. */
  lemma NextDayInYear(d: Date)
    requires ValidDate(d)
    ensures ValidDate(NextDay(d))
    ensures if MarchYear(NextDay(d)) == MarchYear(d) then DayOfYear(NextDay(d)) == DayOfYear(d) + 1
            else MarchYear(NextDay(d)) == MarchYear(d) + 1 && DayOfYear(NextDay(d)) == 0
                 && DayOfYear(d) + 1 == YearLength(MarchYear(d))
  {
    MonthLengths(d);
  }

  lemma PreviousDayCounts(d: Date)
    requires ValidDate(d)
    ensures ValidDate(PreviousDay(d)) && DaysFromCivil(PreviousDay(d)) == DaysFromCivil(d) - 1
  {
    assert ValidDate(PreviousDay(d)) && NextDay(PreviousDay(d)) == d;
    NextDayCounts(PreviousDay(d));
  }

  /** Day zero is the first of January 1970, and every day number has a date. */
  lemma {:induction false} DateExists(days: int) returns (d: Date)
    ensures ValidDate(d) && DaysFromCivil(d) == days
    decreases if days < 0 then -days else days
  {
    if days == 0 {
      d := Date(1970, 1, 1);
    } else if days > 0 {
      var before := DateExists(days - 1);
      NextDayCounts(before);
      d := NextDay(before);
    } else {
      var after := DateExists(days + 1);
      PreviousDayCounts(after);
      d := PreviousDay(after);
    }
  }

  /** Every day number is read as a valid date whose day number it is. */
  lemma DaysRoundTrip(days: int)
    ensures ValidDate(CivilFromDays(days)) && DaysFromCivil(CivilFromDays(days)) == days
  {
    var d := DateExists(days);
    CivilRoundTrip(d);
  }

  // ----- order

  predicate Before(a: Date, b: Date) {
    a.year < b.year || (a.year == b.year && (a.month < b.month || (a.month == b.month && a.day < b.day)))
  }

  lemma {:induction false} YearsAscend(a: int, b: int)
    requires a < b
    ensures YearStart(a) + YearLength(a) <= YearStart(b)
    decreases b - a
  {
    YearStep(a);
    if a + 1 < b {
      YearsAscend(a + 1, b);
    }
  }

  /** Later dates have larger day numbers. */
  lemma DaysAscend(a: Date, b: Date)
    requires ValidDate(a) && ValidDate(b) && Before(a, b)
    ensures DaysFromCivil(a) < DaysFromCivil(b)
  {
    DayWithinYear(a);
    DayWithinYear(b);
    if MarchYear(a) < MarchYear(b) {
      YearsAscend(MarchYear(a), MarchYear(b));
    } else {
      MonthLengths(a);
      MonthLengths(b);
      if ShiftedMonth(a) < ShiftedMonth(b) {
        MonthsAscend(ShiftedMonth(a), ShiftedMonth(b));
      }
    }
  }

  lemma MonthsAscend(a: int, b: int)
    requires 0 <= a < b < 12
    ensures MonthStart(a + 1) <= MonthStart(b)
  {
  }

  // ----- request timestamps

  /** The number that decimal digits spell, most significant first. */
  function Decimal(s: bytes): int {
    if s == [] then 0
    else
      var last: int := s[|s| - 1];
      10 * Decimal(s[..|s| - 1]) + (last - 48)
  }

  predicate Digits(s: bytes) {
    forall i :: 0 <= i < |s| ==> IsDigit(s[i])
  }

  /** `YYYYMMDDTHHMMSSZ`. */
  predicate HasShape(s: bytes) {
    |s| == 16 && s[8] == 84 && s[15] == 90 && forall i :: 0 <= i < 15 && i != 8 ==> IsDigit(s[i])
  }

  function DateOf(s: bytes): Date
    requires HasShape(s)
  {
    Date(Decimal(s[0..4]), Decimal(s[4..6]), Decimal(s[6..8]))
  }

  function TimeOf(s: bytes): int
    requires HasShape(s)
  {
    Decimal(s[9..11]) * 3600 + Decimal(s[11..13]) * 60 + Decimal(s[13..15])
  }

  /** Seconds since 1970 for a well-formed timestamp of an existing date and time. */
  function ParseTimestamp(s: bytes): Option<int> {
    if !HasShape(s) then None
    else
      var d := DateOf(s);
      if d.year < 1970 || !(1 <= d.month <= 12) || d.day == 0 || d.day > DaysInMonth(d.year, d.month)
         || Decimal(s[9..11]) > 23 || Decimal(s[11..13]) > 59 || Decimal(s[13..15]) > 59
      then None
      else Some(DaysFromCivil(d) * 86400 + TimeOf(s))
  }

  lemma {:induction false} LexAppend(a: bytes, b: bytes, c: bytes, d: bytes)
    requires |a| == |c|
    ensures LexLeq(a + b, c + d) <==> if a == c then LexLeq(b, d) else LexLeq(a, c)
    decreases |a|
  {
    if a == [] {
      assert a + b == b && c + d == d;
    } else {
      assert (a + b)[1..] == a[1..] + b && (c + d)[1..] == c[1..] + d;
      assert a == [a[0]] + a[1..] && c == [c[0]] + c[1..];
      LexAppend(a[1..], b, c[1..], d);
    }
  }

  /** For digits of the same length the lexicographic order is the numeric one. */
  lemma {:induction false} LexIsNumeric(a: bytes, b: bytes)
    requires |a| == |b| && Digits(a) && Digits(b)
    ensures LexLeq(a, b) <==> Decimal(a) <= Decimal(b)
    ensures a == b <==> Decimal(a) == Decimal(b)
    decreases |a|
  {
    if a != [] {
      var (x, y) := (a[..|a| - 1], b[..|b| - 1]);
      LexIsNumeric(x, y);
      LexAppend(x, [a[|a| - 1]], y, [b[|b| - 1]]);
      assert a == x + [a[|a| - 1]] && b == y + [b[|b| - 1]];
    }
  }

  lemma {:induction false} DigitsNonNegative(s: bytes)
    requires Digits(s)
    ensures Decimal(s) >= 0
  {
    if s != [] {
      DigitsNonNegative(s[..|s| - 1]);
    }
  }

  /** Comparing two texts from position `i` on: first the field up to `j`, then the rest. */
  lemma FieldFirst(a: bytes, b: bytes, i: nat, j: nat)
    requires i <= j <= |a| && |a| == |b| && Digits(a[i..j]) && Digits(b[i..j])
    ensures LexLeq(a[i..], b[i..])
            <==> if Decimal(a[i..j]) == Decimal(b[i..j]) then LexLeq(a[j..], b[j..])
                 else Decimal(a[i..j]) < Decimal(b[i..j])
    ensures a[i..] == b[i..] <==> Decimal(a[i..j]) == Decimal(b[i..j]) && a[j..] == b[j..]
  {
    assert a[i..] == a[i..j] + a[j..] && b[i..] == b[i..j] + b[j..];
    LexAppend(a[i..j], a[j..], b[i..j], b[j..]);
    LexIsNumeric(a[i..j], b[i..j]);
  }

  lemma FieldsOf(s: bytes)
    requires HasShape(s)
    ensures Digits(s[0..4]) && Digits(s[4..6]) && Digits(s[6..8])
    ensures Digits(s[9..11]) && Digits(s[11..13]) && Digits(s[13..15])
    ensures s[0..] == s
  {
  }

  /** The date part is compared first, then the time part. */
  lemma DateFirst(a: bytes, b: bytes)
    requires HasShape(a) && HasShape(b)
    ensures LexLeq(a, b) && a != b ==>
              || Before(DateOf(a), DateOf(b))
              || (DateOf(a) == DateOf(b) && LexLeq(a[8..], b[8..]) && a[8..] != b[8..])
  {
    FieldsOf(a);
    FieldsOf(b);
    FieldFirst(a, b, 0, 4);
    FieldFirst(a, b, 4, 6);
    FieldFirst(a, b, 6, 8);
  }

  lemma TimeNext(a: bytes, b: bytes)
    requires HasShape(a) && HasShape(b) && LexLeq(a[8..], b[8..]) && a[8..] != b[8..]
    requires Decimal(a[11..13]) <= 59 && Decimal(a[13..15]) <= 59
    ensures TimeOf(a) < TimeOf(b)
  {
    FieldsOf(a);
    FieldsOf(b);
    SameByte(a, b, 8);
    FieldFirst(a, b, 9, 11);
    FieldFirst(a, b, 11, 13);
    FieldFirst(a, b, 13, 15);
    DigitsNonNegative(b[11..13]);
    DigitsNonNegative(b[13..15]);
    assert a[15..] == [90] && b[15..] == [90];
  }

  lemma SameByte(a: bytes, b: bytes, i: nat)
    requires i < |a| && |a| == |b| && a[i] == b[i]
    ensures LexLeq(a[i..], b[i..]) <==> LexLeq(a[i + 1..], b[i + 1..])
    ensures a[i..] == b[i..] <==> a[i + 1..] == b[i + 1..]
  {
    assert a[i..] == [a[i]] + a[i + 1..] && b[i..] == [b[i]] + b[i + 1..];
    assert a[i..][1..] == a[i + 1..] && b[i..][1..] == b[i + 1..];
  }

  lemma TimeWithinDay(s: bytes)
    requires ParseTimestamp(s).Some?
    ensures 0 <= TimeOf(s) < 86400
  {
    FieldsOf(s);
    DigitsNonNegative(s[9..11]);
    DigitsNonNegative(s[11..13]);
    DigitsNonNegative(s[13..15]);
  }

  /** Timestamps that are later as text are later in time. */
  lemma TimestampsAscend(a: bytes, b: bytes)
    requires ParseTimestamp(a).Some? && ParseTimestamp(b).Some?
    requires LexLeq(a, b) && a != b
    ensures ParseTimestamp(a).value < ParseTimestamp(b).value
  {
    DateFirst(a, b);
    TimeWithinDay(a);
    TimeWithinDay(b);
    DigitsOfDay(a);
    DigitsOfDay(b);
    if DateOf(a) == DateOf(b) {
      TimeNext(a, b);
    } else {
      DaysAscend(DateOf(a), DateOf(b));
    }
  }

  lemma DigitsOfDay(s: bytes)
    requires ParseTimestamp(s).Some?
    ensures ValidDate(DateOf(s))
  {
    FieldsOf(s);
    DigitsNonNegative(s[6..8]);
  }

  lemma NotBefore1970(d: Date)
    requires ValidDate(d) && d.year >= 1970
    ensures 0 <= DaysFromCivil(d)
  {
    EpochDay();
    if d != Date(1970, 1, 1) {
      DaysAscend(Date(1970, 1, 1), d);
    }
  }

  lemma EpochDay()
    ensures DaysFromCivil(Date(1970, 1, 1)) == 0
  {
  }

  lemma BeforeYear10000(d: Date)
    requires ValidDate(d) && d.year <= 9999
    ensures DaysFromCivil(d) < 3000000
  {
    var end := Date(10000, 1, 1);
    assert DaysFromCivil(end) < 3000000;
    DaysAscend(d, end);
  }

  /** The checked arithmetic on seconds never overflows 64 bits. */
  lemma TimestampFits(s: bytes)
    requires ParseTimestamp(s).Some?
    ensures 0 <= ParseTimestamp(s).value <= I64_MAX
  {
    FieldsOf(s);
    TimeWithinDay(s);
    DigitsOfDay(s);
    FourDigits(s[0..4]);
    NotBefore1970(DateOf(s));
    BeforeYear10000(DateOf(s));
  }

  lemma FourDigits(s: bytes)
    requires |s| == 4 && Digits(s)
    ensures 0 <= Decimal(s) <= 9999
  {
    var (three, two, one) := (s[..3], s[..3][..2], s[..3][..2][..1]);
    assert Decimal(one[..0]) == 0;
    assert 0 <= Decimal(one) <= 9;
    assert 0 <= Decimal(two) <= 99;
    assert 0 <= Decimal(three) <= 999;
  }
}
