/** The exact calendar arithmetic behind `xsd:dateTime` values. */
module Calendar {
  import opened Elements

  /** The source's integer division and remainder truncate toward zero. */
  function TruncDiv(a: int, b: int): int
    requires b > 0
  {
    if a >= 0 then a / b else -((-a) / b)
  }

  function TruncRem(a: int, b: int): int
    requires b > 0
  {
    a - TruncDiv(a, b) * b
  }

  /** `days_in_month`. */
  function DaysInMonth(year: int, month: int): int {
    if month == 2 then
      if TruncRem(year, 4) != 0 || (TruncRem(year, 100) == 0 && TruncRem(year, 400) != 0) then 28 else 29
    else if month == 4 || month == 6 || month == 9 || month == 11 then 30
    else 31
  }

  /** `days_from_civil`. */
  function DaysFromCivil(year: int, month: int, day: int): int {
    var y := if month <= 2 then year - 1 else year;
    var era := TruncDiv(if y >= 0 then y else y - 399, 400);
    var yoe := y - era * 400;
    var mp := TruncRem(month + 9, 12);
    var doy := TruncDiv(153 * mp + 2, 5) + day - 1;
    var doe := yoe * 365 + TruncDiv(yoe, 4) - TruncDiv(yoe, 100) + doy;
    era * 146097 + doe - 719468
  }

  datatype Date = Date(year: int, month: int, day: int)

  /** The year within its 400-year cycle. */
  function InCycle(year: int): int {
    year % 400
  }

  predicate ValidDate(d: Date) {
    1 <= d.month <= 12 && 1 <= d.day <= DaysInMonth(InCycle(d.year), d.month)
  }

  /** The day number of a date in any year, as the instant computation finds it. */
  function DayNumber(d: Date): int {
    (d.year / 400) * 146097 + DaysFromCivil(InCycle(d.year), d.month, d.day)
  }

  /** The next date on the calendar. */
  function NextDate(d: Date): Date {
    if d.day < DaysInMonth(InCycle(d.year), d.month) then Date(d.year, d.month, d.day + 1)
    else if d.month < 12 then Date(d.year, d.month + 1, 1)
    else Date(d.year + 1, 1, 1)
  }

  /** The Gregorian rule, stated on the year itself. */
  predicate Leap(year: int) {
    year % 4 == 0 && (year % 100 != 0 || year % 400 == 0)
  }

  // --- closed forms ----------------------------------------------------------------------

  lemma SameRemainder(y: int, k: int, m: int)
    requires m == 4 || m == 100 || m == 400
    ensures (y + 400 * k) % m == y % m
  {
    if m == 4 {
      assert (y + 400 * k) / 4 == y / 4 + 100 * k;
    } else if m == 100 {
      assert (y + 400 * k) / 100 == y / 100 + 4 * k;
    } else {
      assert (y + 400 * k) / 400 == y / 400 + k;
    }
  }

  lemma RemainderOf(y: int, m: int)
    requires y >= 0 && m > 0
    ensures TruncRem(y, m) == y % m
  {
  }

  lemma CycleLeap(year: int)
    ensures DaysInMonth(InCycle(year), 2) == if Leap(year) then 29 else 28
  {
    hide TruncRem;
    var y, k := InCycle(year), year / 400;
    assert year == y + 400 * k;
    SameRemainder(y, k, 4);
    SameRemainder(y, k, 100);
    SameRemainder(y, k, 400);
    RemainderOf(y, 4);
    RemainderOf(y, 100);
    RemainderOf(y, 400);
  }

  /** The lengths of the twelve months of a year. */
  function MonthTable(year: int): (r: seq<int>)
    ensures |r| == 12
  {
    [31, if Leap(year) then 29 else 28, 31, 30, 31, 30, 31, 31, 30, 31, 30, 31]
  }

  lemma MonthLengths(year: int, month: int)
    requires 1 <= month <= 12
    ensures DaysInMonth(InCycle(year), month) == MonthTable(year)[month - 1]
  {
    hide InCycle, TruncRem, Leap;
    CycleLeap(year);
  }

  /** Days from 1 March of year 0 to 1 March of year `y`. */
  function MarchDays(y: int): int {
    365 * y + y / 4 - y / 100 + y / 400
  }

  function MonthOffset(month: int): int {
    (153 * ((month + 9) % 12) + 2) / 5
  }

  lemma Era(y: int)
    ensures TruncDiv(if y >= 0 then y else y - 399, 400) == y / 400
  {
  }

  lemma EraDays(y: int)
    ensures var era := y / 400; var yoe := y - era * 400;
      era * 146097 + yoe * 365 + TruncDiv(yoe, 4) - TruncDiv(yoe, 100) == MarchDays(y)
  {
    var era := y / 400;
    var yoe := y - era * 400;
    assert 0 <= yoe < 400;
    assert y / 4 == era * 100 + yoe / 4;
    assert y / 100 == era * 4 + yoe / 100;
  }

  lemma CivilClosed(year: int, month: int, day: int)
    requires 1 <= month <= 12
    ensures DaysFromCivil(year, month, day) ==
      MarchDays(if month <= 2 then year - 1 else year) + MonthOffset(month) + day - 1 - 719468
  {
    var y := if month <= 2 then year - 1 else year;
    Era(y);
    EraDays(y);
    assert TruncRem(month + 9, 12) == (month + 9) % 12;
  }

  lemma MarchCycle(y: int, k: int)
    ensures MarchDays(y + 400 * k) == MarchDays(y) + 146097 * k
  {
    assert (y + 400 * k) / 4 == y / 4 + 100 * k;
    assert (y + 400 * k) / 100 == y / 100 + 4 * k;
    assert (y + 400 * k) / 400 == y / 400 + k;
  }

  /** Splitting off whole cycles gives the same count as the plain calendar. */
  lemma DayNumberClosed(d: Date)
    requires 1 <= d.month <= 12
    ensures DayNumber(d) == MarchDays(if d.month <= 2 then d.year - 1 else d.year) + MonthOffset(d.month) + d.day - 1 - 719468
    ensures DayNumber(d) == DaysFromCivil(d.year, d.month, d.day)
  {
    var k, y := d.year / 400, InCycle(d.year);
    assert d.year == y + 400 * k;
    CivilClosed(y, d.month, d.day);
    CivilClosed(d.year, d.month, d.day);
    MarchCycle(if d.month <= 2 then y - 1 else y, k);
  }

  /** A March year has 366 days exactly when it ends with a leap February. */
  lemma MarchStep(y: int)
    ensures MarchDays(y) == MarchDays(y - 1) + if Leap(y) then 366 else 365
  {
    QuotientStep(y, 4);
    QuotientStep(y, 100);
    QuotientStep(y, 400);
    Divides(y);
    LeapCount(y % 4 == 0, y % 100 == 0, y % 400 == 0);
  }

  lemma QuotientStep(y: int, m: int)
    requires m == 4 || m == 100 || m == 400
    ensures y / m == (y - 1) / m + if y % m == 0 then 1 else 0
  {
    if m == 4 {
    } else if m == 100 {
    } else {
    }
  }

  lemma Divides(y: int)
    ensures y % 400 == 0 ==> y % 100 == 0
    ensures y % 100 == 0 ==> y % 4 == 0
  {
    if y % 400 == 0 {
      HundredTimes(4 * (y / 400), y);
    }
    if y % 100 == 0 {
      FourTimes(25 * (y / 100), y);
    }
  }

  lemma HundredTimes(k: int, y: int)
    requires y == 100 * k
    ensures y % 100 == 0
  {
  }

  lemma FourTimes(k: int, y: int)
    requires y == 4 * k
    ensures y % 4 == 0
  {
  }

  /** Adding the fourth years, less the hundredth, plus the four-hundredth. */
  lemma LeapCount(by4: bool, by100: bool, by400: bool)
    requires (by400 ==> by100) && (by100 ==> by4)
    ensures (if by4 then 1 else 0) - (if by100 then 1 else 0) + (if by400 then 1 else 0)
      == if by4 && (!by100 || by400) then 1 else 0
  {
  }

  // --- one day at a time --------------------------------------------------------------------

  function FirstOf(year: int, month: int): Date {
    Date(year, month, 1)
  }

  function MonthLength(year: int, month: int): int {
    DaysInMonth(InCycle(year), month)
  }

  /** The month offsets, listed. */
  lemma OffsetTable()
    ensures MonthOffset(1) == 306 && MonthOffset(2) == 337 && MonthOffset(3) == 0 && MonthOffset(4) == 31
    ensures MonthOffset(5) == 61 && MonthOffset(6) == 92 && MonthOffset(7) == 122 && MonthOffset(8) == 153
    ensures MonthOffset(9) == 184 && MonthOffset(10) == 214 && MonthOffset(11) == 245 && MonthOffset(12) == 275
  {
  }

  lemma OffsetStep(year: int, month: int)
    requires 1 <= month < 12 && month != 2
    ensures MonthOffset(month + 1) == MonthOffset(month) + MonthLength(year, month)
  {
    hide MonthOffset;
    OffsetTable();
  }

  /** Consecutive months adjoin, across February and the year end. */
  lemma MonthStep(year: int, month: int)
    requires 1 <= month <= 12
    ensures DayNumber(FirstOf(year, month)) + MonthLength(year, month) ==
      DayNumber(if month < 12 then FirstOf(year, month + 1) else FirstOf(year + 1, 1))
  {
    hide DayNumber, MonthOffset, MarchDays, Leap, InCycle, TruncRem, TruncDiv;
    OffsetTable();
    DayNumberClosed(FirstOf(year, month));
    if month == 12 {
      DayNumberClosed(FirstOf(year + 1, 1));
    } else {
      DayNumberClosed(FirstOf(year, month + 1));
      if month == 2 {
        CycleLeap(year);
        MarchStep(year);
      } else {
        OffsetStep(year, month);
      }
    }
  }

  lemma DayInMonth(d: Date)
    requires 1 <= d.month <= 12
    ensures DayNumber(d) == DayNumber(FirstOf(d.year, d.month)) + d.day - 1
  {
    DayNumberClosed(d);
    DayNumberClosed(FirstOf(d.year, d.month));
  }

  /** The day number grows by exactly one from each valid date to the next, in
      every year. */
  lemma NextDatePlusOne(d: Date)
    requires ValidDate(d)
    ensures ValidDate(NextDate(d)) && DayNumber(NextDate(d)) == DayNumber(d) + 1
  {
    hide DayNumber, InCycle, TruncRem;
    DayInMonth(d);
    DayInMonth(NextDate(d));
    MonthStep(d.year, d.month);
  }

  /** The date before, on the calendar. */
  function PrevDate(d: Date): Date {
    if d.day > 1 then Date(d.year, d.month, d.day - 1)
    else if d.month > 1 then Date(d.year, d.month - 1, MonthLength(d.year, d.month - 1))
    else Date(d.year - 1, 12, 31)
  }

  lemma PrevThenNext(d: Date)
    requires ValidDate(d)
    ensures ValidDate(PrevDate(d)) && NextDate(PrevDate(d)) == d
    ensures DayNumber(PrevDate(d)) == DayNumber(d) - 1
  {
    hide DayNumber, InCycle, TruncRem;
    LengthPositive(d.year, d.month - 1);
    NextDatePlusOne(PrevDate(d));
  }

  /** Together with `NextDatePlusOne` this fixes every day number. */
  lemma Epoch()
    ensures ValidDate(Date(1970, 1, 1)) && DayNumber(Date(1970, 1, 1)) == 0
  {
    DayNumberClosed(Date(1970, 1, 1));
  }

  predicate DateBefore(a: Date, b: Date) {
    a.year < b.year || (a.year == b.year && (a.month < b.month || (a.month == b.month && a.day < b.day)))
  }

  /** Months in calendar order. */
  function MonthIndex(year: int, month: int): int {
    12 * year + month - 1
  }

  lemma LengthPositive(year: int, month: int)
    ensures MonthLength(year, month) >= 28
  {
  }

  lemma MonthsAscend(y1: int, m1: int, y2: int, m2: int)
    requires 1 <= m1 <= 12 && 1 <= m2 <= 12 && MonthIndex(y1, m1) < MonthIndex(y2, m2)
    ensures DayNumber(FirstOf(y1, m1)) + MonthLength(y1, m1) <= DayNumber(FirstOf(y2, m2))
    decreases MonthIndex(y2, m2) - MonthIndex(y1, m1)
  {
    hide DayNumber, MonthLength;
    LengthPositive(y1, m1);
    MonthStep(y1, m1);
    var (y, m) := if m1 < 12 then (y1, m1 + 1) else (y1 + 1, 1);
    if MonthIndex(y, m) < MonthIndex(y2, m2) {
      LengthPositive(y, m);
      MonthsAscend(y, m, y2, m2);
    } else {
      assert y == y2 && m == m2;
    }
  }

  lemma DateAscends(a: Date, b: Date)
    requires ValidDate(a) && ValidDate(b) && DateBefore(a, b)
    ensures DayNumber(a) < DayNumber(b)
  {
    hide DayNumber, InCycle, TruncRem;
    DayInMonth(a);
    DayInMonth(b);
    if a.year != b.year || a.month != b.month {
      MonthsAscend(a.year, a.month, b.year, b.month);
    }
  }

  /** Day numbers order valid dates as the calendar does, and separate them. */
  lemma DateOrder(a: Date, b: Date)
    requires ValidDate(a) && ValidDate(b)
    ensures DayNumber(a) < DayNumber(b) <==> DateBefore(a, b)
    ensures DayNumber(a) == DayNumber(b) <==> a == b
  {
    if DateBefore(a, b) {
      DateAscends(a, b);
    } else if DateBefore(b, a) {
      DateAscends(b, a);
    } else {
      assert a == b;
    }
  }

  // --- instants ---------------------------------------------------------------------------------

  /** Decimal digits of a fraction of a second. */
  type Digits = seq<int>

  predicate DigitsOk(f: Digits) {
    forall i :: 0 <= i < |f| ==> 0 <= f[i] <= 9
  }

  /** `DtInstant`: whole seconds since the epoch and stripped fraction digits. */
  datatype Instant = Instant(seconds: int, fraction: Digits)

  predicate Stripped(f: Digits) {
    |f| > 0 ==> f[|f| - 1] != 0
  }

  /** `trim_end_matches('0')`. */
  function Strip(f: Digits): (r: Digits)
    ensures Stripped(r) && |r| <= |f| && r == f[..|r|]
    ensures DigitsOk(f) ==> DigitsOk(r)
    ensures forall i :: |r| <= i < |f| ==> f[i] == 0
  {
    if |f| > 0 && f[|f| - 1] == 0 then Strip(f[..|f| - 1]) else f
  }

  /** The fraction the digits denote. */
  ghost function FractionValue(f: Digits): real {
    if |f| == 0 then 0.0 else (f[0] as real + FractionValue(f[1..])) / 10.0
  }

  lemma {:induction false} FractionBounds(f: Digits)
    requires DigitsOk(f)
    ensures 0.0 <= FractionValue(f) < 1.0
    ensures |f| > 0 && Stripped(f) ==> FractionValue(f) > 0.0
    decreases |f|
  {
    if |f| > 0 {
      FractionBounds(f[1..]);
    }
  }

  lemma {:induction false} StripKeepsValue(f: Digits)
    ensures FractionValue(Strip(f)) == FractionValue(f)
    decreases |f|
  {
    if |f| > 0 && f[|f| - 1] == 0 {
      ZeroAtEnd(f[..|f| - 1]);
      assert f == f[..|f| - 1] + [0];
      StripKeepsValue(f[..|f| - 1]);
    }
  }

  lemma {:induction false} ZeroAtEnd(f: Digits)
    ensures FractionValue(f + [0]) == FractionValue(f)
    decreases |f|
  {
    if |f| > 0 {
      ZeroAtEnd(f[1..]);
      assert (f + [0])[1..] == f[1..] + [0];
    } else {
      assert (f + [0])[1..] == [];
    }
  }

  /** The derived order on digit strings. */
  predicate DigitsBefore(f: Digits, g: Digits) {
    |g| > 0 && (|f| == 0 || f[0] < g[0] || (f[0] == g[0] && DigitsBefore(f[1..], g[1..])))
  }

  lemma {:induction false} FractionOrder(f: Digits, g: Digits)
    requires DigitsOk(f) && DigitsOk(g) && Stripped(f) && Stripped(g)
    ensures DigitsBefore(f, g) <==> FractionValue(f) < FractionValue(g)
    ensures f == g <==> FractionValue(f) == FractionValue(g)
    decreases |f|
  {
    FractionBounds(f);
    FractionBounds(g);
    if |f| > 0 && |g| > 0 {
      FractionBounds(f[1..]);
      FractionBounds(g[1..]);
      FractionOrder(f[1..], g[1..]);
      assert f == [f[0]] + f[1..] && g == [g[0]] + g[1..];
    }
  }

  /** The derived order of `DtInstant`. */
  predicate InstantBefore(a: Instant, b: Instant) {
    a.seconds < b.seconds || (a.seconds == b.seconds && DigitsBefore(a.fraction, b.fraction))
  }

  predicate InstantOk(a: Instant) {
    DigitsOk(a.fraction) && Stripped(a.fraction)
  }

  /** The point on the timeline. */
  ghost function Timeline(a: Instant): real {
    a.seconds as real + FractionValue(a.fraction)
  }

  /** The derived order is the order of the timeline, and each point has one
      representation. */
  lemma InstantOrder(a: Instant, b: Instant)
    requires InstantOk(a) && InstantOk(b)
    ensures InstantBefore(a, b) <==> Timeline(a) < Timeline(b)
    ensures a == b <==> Timeline(a) == Timeline(b)
  {
    FractionBounds(a.fraction);
    FractionBounds(b.fraction);
    FractionOrder(a.fraction, b.fraction);
    if a.seconds < b.seconds {
      assert a.seconds as real + 1.0 <= b.seconds as real;
    } else if b.seconds < a.seconds {
      assert b.seconds as real + 1.0 <= a.seconds as real;
    }
  }

  /** The fields of a lexical form; `offset` is the sign, hours and minutes of a
      numeric timezone, and `Z` is an offset of zero. */
  datatype TimeZone = Absent | Zulu | Offset(positive: bool, hours: nat, minutes: nat)

  datatype Fields = Fields(date: Date, hour: nat, minute: nat, second: nat, fraction: Digits, zone: TimeZone)

  datatype Parsed = Parsed(instant: Instant, hasZone: bool, zoneMinutes: int)

  function ZoneMinutes(z: TimeZone): int {
    match z
    case Absent => 0
    case Zulu => 0
    case Offset(positive, h, m) => if positive then h * 60 + m else -(h * 60 + m)
  }

  predicate ValidZone(z: TimeZone) {
    z.Offset? ==> z.hours <= 14 && (z.hours == 14 ==> z.minutes == 0) && z.minutes < 60
  }

  predicate ValidTime(f: Fields) {
    && f.hour <= 24 && (f.hour == 24 ==> f.minute == 0 && f.second == 0 && Strip(f.fraction) == [])
    && f.minute <= 59 && f.second < 60
  }

  /** The instant computation of `parse_datetime`. */
  function ParseFields(f: Fields): Option<Parsed> {
    if !ValidDate(f.date) || !ValidTime(f) || !ValidZone(f.zone) then None
    else
      var days := DayNumber(f.date);
      var seconds := days * 86400 + (f.hour * 3600 + f.minute * 60 + f.second - ZoneMinutes(f.zone) * 60);
      Some(Parsed(Instant(seconds, Strip(f.fraction)), f.zone != Absent, ZoneMinutes(f.zone)))
  }

  /** What is accepted: a date on the calendar, a time before midnight or exactly
      24:00:00, and an offset of at most fourteen hours. */
  ghost predicate Acceptable(f: Fields) {
    && 1 <= f.date.month <= 12 && 1 <= f.date.day <= MonthTable(f.date.year)[f.date.month - 1]
    && (|| (f.hour < 24 && f.minute < 60 && f.second < 60)
        || (f.hour == 24 && f.minute == 0 && f.second == 0 && forall i :: 0 <= i < |f.fraction| ==> f.fraction[i] == 0))
    && (f.zone.Offset? ==> f.zone.minutes < 60 && f.zone.hours * 60 + f.zone.minutes <= 840)
  }

  lemma ParsesIff(f: Fields)
    ensures ParseFields(f).Some? <==> Acceptable(f)
  {
    hide DayNumber, DaysInMonth, MonthTable;
    if 1 <= f.date.month <= 12 {
      MonthLengths(f.date.year, f.date.month);
    }
    if Strip(f.fraction) != [] {
      assert f.fraction[|Strip(f.fraction)| - 1] != 0;
    }
  }

  /** A positive offset puts local fields that much before the same fields in UTC,
      a negative one that much after. `Z` and no timezone name the same instant. */
  lemma ZoneShift(f: Fields, h: nat, m: nat)
    requires f.zone == Zulu && ParseFields(f).Some? && m < 60 && h * 60 + m <= 840 && DigitsOk(f.fraction)
    ensures ParseFields(f.(zone := Offset(true, h, m))).Some? && ParseFields(f.(zone := Offset(false, h, m))).Some?
    ensures ParseFields(f.(zone := Absent)).Some?
    ensures
      var utc, none := ParseFields(f).value, ParseFields(f.(zone := Absent)).value;
      var east, west := ParseFields(f.(zone := Offset(true, h, m))).value, ParseFields(f.(zone := Offset(false, h, m))).value;
      && Timeline(east.instant) + (3600 * h + 60 * m) as real == Timeline(utc.instant)
      && Timeline(west.instant) - (3600 * h + 60 * m) as real == Timeline(utc.instant)
      && none.instant == utc.instant && utc.hasZone && east.hasZone && west.hasZone && !none.hasZone
      && east.zoneMinutes == 60 * h + m && west.zoneMinutes == -(60 * h + m) && utc.zoneMinutes == none.zoneMinutes == 0
  {
    hide DayNumber, ValidDate, DigitsOk, FractionValue;
  }

  /** `24:00:00` is the same value as `00:00:00` of the next day. */
  lemma EndOfDay(f: Fields)
    requires f.hour == 24 && ParseFields(f).Some?
    ensures ParseFields(f.(date := NextDate(f.date), hour := 0)) == ParseFields(f)
  {
    hide DayNumber, NextDate, ValidDate;
    NextDatePlusOne(f.date);
  }

  /** Calendar order of the fields, the fraction read as a number. */
  ghost predicate FieldsBefore(a: Fields, b: Fields) {
    || DateBefore(a.date, b.date)
    || (a.date == b.date
        && (a.hour < b.hour
            || (a.hour == b.hour
                && (a.minute < b.minute
                    || (a.minute == b.minute
                        && (a.second < b.second
                            || (a.second == b.second && FractionValue(a.fraction) < FractionValue(b.fraction))))))))
  }

  function SecondOfDay(f: Fields): int {
    f.hour * 3600 + f.minute * 60 + f.second
  }

  lemma ParsedParts(f: Fields)
    requires ParseFields(f).Some? && DigitsOk(f.fraction)
    ensures InstantOk(ParseFields(f).value.instant)
    ensures Timeline(ParseFields(f).value.instant) ==
      (DayNumber(f.date) * 86400 + SecondOfDay(f) - ZoneMinutes(f.zone) * 60) as real + FractionValue(f.fraction)
  {
    hide DayNumber, ValidDate, DigitsOk;
    StripKeepsValue(f.fraction);
  }

  lemma DayOrSecond(d1: int, d2: int, s1: int, s2: int)
    requires 0 <= s1 < 86400 && 0 <= s2 < 86400
    ensures d1 * 86400 + s1 < d2 * 86400 + s2 <==> d1 < d2 || (d1 == d2 && s1 < s2)
    ensures d1 * 86400 + s1 == d2 * 86400 + s2 <==> d1 == d2 && s1 == s2
  {
  }

  /** Before midnight, values of one timezone compare as their fields do. */
  lemma BeforeMidnightOrder(a: Fields, b: Fields)
    requires ParseFields(a).Some? && ParseFields(b).Some? && a.zone == b.zone
    requires a.hour < 24 && b.hour < 24 && DigitsOk(a.fraction) && DigitsOk(b.fraction)
    ensures InstantBefore(ParseFields(a).value.instant, ParseFields(b).value.instant) <==> FieldsBefore(a, b)
  {
    hide DayNumber, ValidDate, DigitsOk, Timeline, InstantBefore, InstantOk, DateBefore, FractionValue;
    ParsedParts(a);
    ParsedParts(b);
    InstantOrder(ParseFields(a).value.instant, ParseFields(b).value.instant);
    DateOrder(a.date, b.date);
    var x, y := DayNumber(a.date) * 86400 + SecondOfDay(a), DayNumber(b.date) * 86400 + SecondOfDay(b);
    DayOrSecond(DayNumber(a.date), DayNumber(b.date), SecondOfDay(a), SecondOfDay(b));
    FractionBounds(a.fraction);
    FractionBounds(b.fraction);
    assert x < y ==> x as real + 1.0 <= y as real;
    assert y < x ==> y as real + 1.0 <= x as real;
  }

  /** The end of a day read as the start of the next. */
  function Normal(f: Fields): Fields {
    if f.hour == 24 then f.(date := NextDate(f.date), hour := 0) else f
  }

  lemma NormalSame(f: Fields)
    requires ParseFields(f).Some?
    ensures ParseFields(Normal(f)) == ParseFields(f) && Normal(f).hour < 24
  {
    if f.hour == 24 {
      EndOfDay(f);
    }
  }

  /** In one timezone all parsed values, those at 24:00:00 included, compare as
      their normal fields do. */
  lemma FieldOrder(a: Fields, b: Fields)
    requires ParseFields(a).Some? && ParseFields(b).Some? && a.zone == b.zone && DigitsOk(a.fraction) && DigitsOk(b.fraction)
    ensures InstantBefore(ParseFields(a).value.instant, ParseFields(b).value.instant) <==> FieldsBefore(Normal(a), Normal(b))
  {
    hide ParseFields, InstantBefore, FieldsBefore, NextDate;
    NormalSame(a);
    NormalSame(b);
    BeforeMidnightOrder(Normal(a), Normal(b));
  }

  /** The minute of the local day, moved to UTC by the offset; before the day when
      negative. */
  function UtcMinute(f: Fields): int {
    match f.zone
    case Offset(true, h, m) => f.hour * 60 + f.minute - (h * 60 + m)
    case Offset(false, h, m) => f.hour * 60 + f.minute + (h * 60 + m)
    case _ => f.hour * 60 + f.minute
  }

  /** The same moment written in UTC, carrying into the day before or after. */
  function Utc(f: Fields): Fields
    requires ParseFields(f).Some?
  {
    var t := UtcMinute(f);
    var (date, minute) :=
      if t < 0 then (PrevDate(f.date), t + 1440)
      else if t >= 1440 then (NextDate(f.date), t - 1440)
      else (f.date, t);
    Fields(date, minute / 60, minute % 60, f.second, f.fraction, Zulu)
  }

  lemma UtcSame(f: Fields)
    requires ParseFields(f).Some?
    ensures ParseFields(Utc(f)).Some? && ParseFields(Utc(f)).value.instant == ParseFields(f).value.instant
    ensures Utc(f).hour < 24 && Utc(f).zone == Zulu && Utc(f).fraction == f.fraction
  {
    hide DayNumber, ValidDate, NextDate, PrevDate;
    NextDatePlusOne(f.date);
    PrevThenNext(f.date);
  }

  /** Fields that differ at most in the zeros that end the fraction. */
  ghost predicate SameMoment(a: Fields, b: Fields) {
    && a.date == b.date && a.hour == b.hour && a.minute == b.minute && a.second == b.second
    && FractionValue(a.fraction) == FractionValue(b.fraction)
  }

  /** Values of any two timezones compare, and coincide, as their fields written in
      UTC do. */
  lemma UtcOrder(a: Fields, b: Fields)
    requires ParseFields(a).Some? && ParseFields(b).Some? && DigitsOk(a.fraction) && DigitsOk(b.fraction)
    ensures InstantBefore(ParseFields(a).value.instant, ParseFields(b).value.instant) <==> FieldsBefore(Utc(a), Utc(b))
    ensures ParseFields(a).value.instant == ParseFields(b).value.instant <==> SameMoment(Utc(a), Utc(b))
  {
    hide ParseFields, InstantBefore, FieldsBefore, Utc, Timeline, InstantOk, SameMoment, FractionValue;
    UtcSame(a);
    UtcSame(b);
    BeforeMidnightOrder(Utc(a), Utc(b));
    BeforeMidnightOrder(Utc(b), Utc(a));
    ParsedParts(a);
    ParsedParts(b);
    InstantOrder(ParseFields(a).value.instant, ParseFields(b).value.instant);
    InstantOrder(ParseFields(b).value.instant, ParseFields(a).value.instant);
    FieldsTotal(Utc(a), Utc(b));
  }

  lemma FieldsTotal(a: Fields, b: Fields)
    ensures SameMoment(a, b) <==> !FieldsBefore(a, b) && !FieldsBefore(b, a)
  {
    hide FractionValue;
  }
}
