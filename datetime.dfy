/** `translateUnix`: a DATETIME condition operand `yyyy/MM/dd HH:mm:ss<offset>` becomes the decimal
    string of its epoch second. The local part is read the way `DateTimeFormatter.ofPattern` with
    the SMART resolver reads it, the offset the way `ZoneOffset.of` reads it, and the epoch second
    is computed with the arithmetic of `LocalDate.toEpochDay`. */
module Datetime {
  import opened Wrappers
  import opened Text

  /** The length of DATETIME_FORMAT_PATTERN, `yyyy/MM/dd HH:mm:ss`: where the offset starts. */
  const LocalLength: nat := 19
  const SecondsPerDay: int := 86400
  /** `ZoneOffset.MAX_SECONDS`: offsets lie within ±18:00. */
  const MaxOffsetSeconds: int := 18 * 3600
  /** `LocalDate.DAYS_0000_TO_1970`. */
  const Days0000To1970: int := 719528

  // ---------------------------------------------------------------- calendar

  predicate IsLeapYear(y: int) { (y % 4 == 0 && y % 100 != 0) || y % 400 == 0 }

  function YearLength(y: int): int { if IsLeapYear(y) then 366 else 365 }

  function MonthLength(y: int, m: int): int
    requires 1 <= m <= 12
  {
    if m == 2 then (if IsLeapYear(y) then 29 else 28)
    else if m == 4 || m == 6 || m == 9 || m == 11 then 30
    else 31
  }

  predicate ValidDate(y: int, m: int, d: int) { 1 <= y && 1 <= m <= 12 && 1 <= d <= MonthLength(y, m) }

  /** Reference count: the days of all years from 0001 up to (not including) `y`, one year at a time. */
  function YearDaysBefore(y: int): nat
    requires y >= 1
    decreases y
  {
    if y == 1 then 0 else YearDaysBefore(y - 1) + YearLength(y - 1)
  }

  /** Reference count: the days of the months of year `y` before month `m`, one month at a time. */
  function MonthDaysBefore(y: int, m: int): nat
    requires 1 <= m <= 12
    decreases m
  {
    if m == 1 then 0 else MonthDaysBefore(y, m - 1) + MonthLength(y, m - 1)
  }

  /** Reference epoch day: days counted from 1970-01-01. */
  function CountedEpochDay(y: int, m: int, d: int): int
    requires ValidDate(y, m, d)
  {
    YearDaysBefore(y) + MonthDaysBefore(y, m) + d - 1 - YearDaysBefore(1970)
  }

  /** The year part of `LocalDate.toEpochDay` for non-negative years: days from 0000-01-01. */
  function JavaYearDays(y: int): int
    requires y >= 0
  {
    365 * y + (y + 3) / 4 - (y + 99) / 100 + (y + 399) / 400
  }

  /** The month part of `LocalDate.toEpochDay`. */
  function JavaMonthDays(y: int, m: int): int
    requires 1 <= m <= 12
  {
    (367 * m - 362) / 12 - (if m <= 2 then 0 else if IsLeapYear(y) then 1 else 2)
  }

  /** `LocalDate.toEpochDay`. */
  function EpochDay(y: int, m: int, d: int): (r: int)
    requires ValidDate(y, m, d)
    ensures y == 1970 && m == 1 && d == 1 ==> r == 0
  {
    JavaYearDays(y) + JavaMonthDays(y, m) + d - 1 - Days0000To1970
  }

  lemma QuarterStep(p: int)
    requires p >= 0
    ensures (p + 4) / 4 - (p + 3) / 4 == (if p % 4 == 0 then 1 else 0)
  {
    var q, r := p / 4, p % 4;
    assert p == 4 * q + r;
    assert (p + 4) / 4 == q + 1;
    assert (p + 3) / 4 == if r == 0 then q else q + 1;
  }

  lemma CenturyStep(p: int)
    requires p >= 0
    ensures (p + 100) / 100 - (p + 99) / 100 == (if p % 100 == 0 then 1 else 0)
  {
    var q, r := p / 100, p % 100;
    assert p == 100 * q + r;
    assert (p + 100) / 100 == q + 1;
    assert (p + 99) / 100 == if r == 0 then q else q + 1;
  }

  lemma QuadricentennialStep(p: int)
    requires p >= 0
    ensures (p + 400) / 400 - (p + 399) / 400 == (if p % 400 == 0 then 1 else 0)
  {
    var q, r := p / 400, p % 400;
    assert p == 400 * q + r;
    assert (p + 400) / 400 == q + 1;
    assert (p + 399) / 400 == if r == 0 then q else q + 1;
  }

  /** One more year adds that year's length to the closed form. */
  lemma JavaYearDaysStep(p: int)
    requires p >= 0
    ensures JavaYearDays(p + 1) == JavaYearDays(p) + YearLength(p)
  {
    QuarterStep(p);
    CenturyStep(p);
    QuadricentennialStep(p);
    DivisibilityChain(p);
    var d4 := (p + 4) / 4 - (p + 3) / 4;
    var d100 := (p + 100) / 100 - (p + 99) / 100;
    var d400 := (p + 400) / 400 - (p + 399) / 400;
    assert JavaYearDays(p + 1) - JavaYearDays(p) == 365 + d4 - d100 + d400;
  }

  lemma DivisibilityChain(p: int)
    ensures p % 400 == 0 ==> p % 100 == 0
    ensures p % 100 == 0 ==> p % 4 == 0
  {
    if p % 400 == 0 {
      assert p == 400 * (p / 400);
      assert p == 100 * (4 * (p / 400));
    }
    if p % 100 == 0 {
      assert p == 100 * (p / 100);
      assert p == 4 * (25 * (p / 100));
    }
  }

  lemma {:induction false} JavaYearDaysCount(y: int)
    requires y >= 1
    ensures JavaYearDays(y) == 366 + YearDaysBefore(y)
    decreases y
  {
    if y > 1 {
      JavaYearDaysCount(y - 1);
      JavaYearDaysStep(y - 1);
    } else {
      assert JavaYearDays(1) == 366;
    }
  }

  lemma JavaMonthDaysCount(y: int, m: int)
    requires 1 <= m <= 12
    ensures JavaMonthDays(y, m) == MonthDaysBefore(y, m)
  {
    assert MonthDaysBefore(y, 2) == 31;
    assert MonthDaysBefore(y, 3) == 59 + (if IsLeapYear(y) then 1 else 0);
    assert MonthDaysBefore(y, 4) == 90 + (if IsLeapYear(y) then 1 else 0);
    assert MonthDaysBefore(y, 5) == 120 + (if IsLeapYear(y) then 1 else 0);
    assert MonthDaysBefore(y, 6) == 151 + (if IsLeapYear(y) then 1 else 0);
    assert MonthDaysBefore(y, 7) == 181 + (if IsLeapYear(y) then 1 else 0);
    assert MonthDaysBefore(y, 8) == 212 + (if IsLeapYear(y) then 1 else 0);
    assert MonthDaysBefore(y, 9) == 243 + (if IsLeapYear(y) then 1 else 0);
    assert MonthDaysBefore(y, 10) == 273 + (if IsLeapYear(y) then 1 else 0);
    assert MonthDaysBefore(y, 11) == 304 + (if IsLeapYear(y) then 1 else 0);
    assert MonthDaysBefore(y, 12) == 334 + (if IsLeapYear(y) then 1 else 0);
  }

  /** The closed-form epoch day of `LocalDate.toEpochDay` agrees with counting days one year and
      one month at a time from 1970-01-01, for every valid date of the years 1 and later. */
  lemma EpochDayMatchesCount(y: int, m: int, d: int)
    requires ValidDate(y, m, d)
    ensures EpochDay(y, m, d) == CountedEpochDay(y, m, d)
  {
    JavaYearDaysCount(y);
    JavaYearDaysCount(1970);
    JavaMonthDaysCount(y, m);
  }

  /** The calendar day after a valid date. */
  function NextDay(y: int, m: int, d: int): (r: (int, int, int))
    requires ValidDate(y, m, d)
    ensures ValidDate(r.0, r.1, r.2)
  {
    if d < MonthLength(y, m) then (y, m, d + 1)
    else if m < 12 then (y, m + 1, 1)
    else (y + 1, 1, 1)
  }

  /** The reference count advances by one from a date to the next. */
  lemma CountedNextDay(y: int, m: int, d: int)
    requires ValidDate(y, m, d)
    ensures CountedEpochDay(NextDay(y, m, d).0, NextDay(y, m, d).1, NextDay(y, m, d).2) == CountedEpochDay(y, m, d) + 1
  {
    var n := NextDay(y, m, d);
    if d < MonthLength(y, m) {
      assert n == (y, m, d + 1);
    } else if m < 12 {
      assert n == (y, m + 1, 1);
      assert MonthDaysBefore(y, m + 1) == MonthDaysBefore(y, m) + MonthLength(y, m);
    } else {
      assert n == (y + 1, 1, 1);
      assert MonthDaysBefore(y, 12) + 31 == YearLength(y) by {
        JavaMonthDaysCount(y, 12);
      }
      assert YearDaysBefore(y + 1) == YearDaysBefore(y) + YearLength(y);
    }
  }

  /** Moving to the next calendar day advances the epoch day by exactly one. */
  lemma NextDayAdvancesEpochDay(y: int, m: int, d: int)
    requires ValidDate(y, m, d)
    ensures EpochDay(NextDay(y, m, d).0, NextDay(y, m, d).1, NextDay(y, m, d).2) == EpochDay(y, m, d) + 1
  {
    var n := NextDay(y, m, d);
    EpochDayMatchesCount(y, m, d);
    EpochDayMatchesCount(n.0, n.1, n.2);
    CountedNextDay(y, m, d);
  }

  // ---------------------------------------------------------------- local date-time

  datatype LocalDateTime = LocalDateTime(year: int, month: int, day: int, hour: int, minute: int, second: int)

  predicate ValidLocalDateTime(t: LocalDateTime)
  {
    ValidDate(t.year, t.month, t.day) && 0 <= t.hour < 24 && 0 <= t.minute < 60 && 0 <= t.second < 60
  }

  /** `LocalDateTime.toEpochSecond` before the offset is subtracted. */
  function LocalEpochSeconds(t: LocalDateTime): (r: int)
    requires ValidLocalDateTime(t)
    ensures r / SecondsPerDay == EpochDay(t.year, t.month, t.day)
    ensures r % SecondsPerDay == t.hour * 3600 + t.minute * 60 + t.second
  {
    DayAndTime(EpochDay(t.year, t.month, t.day), t.hour * 3600 + t.minute * 60 + t.second);
    EpochDay(t.year, t.month, t.day) * SecondsPerDay + t.hour * 3600 + t.minute * 60 + t.second
  }

  /** A second count splits into its day and the second within that day. */
  lemma DayAndTime(day: int, secondOfDay: int)
    requires 0 <= secondOfDay < SecondsPerDay
    ensures (day * SecondsPerDay + secondOfDay) / SecondsPerDay == day
    ensures (day * SecondsPerDay + secondOfDay) % SecondsPerDay == secondOfDay
  {
  }

  /** The same quantity from the reference day count. */
  function CountedEpochSeconds(t: LocalDateTime): (r: int)
    requires ValidLocalDateTime(t)
    ensures r / SecondsPerDay == CountedEpochDay(t.year, t.month, t.day)
    ensures r % SecondsPerDay == t.hour * 3600 + t.minute * 60 + t.second
  {
    DayAndTime(CountedEpochDay(t.year, t.month, t.day), t.hour * 3600 + t.minute * 60 + t.second);
    CountedEpochDay(t.year, t.month, t.day) * SecondsPerDay + t.hour * 3600 + t.minute * 60 + t.second
  }

  /** ResolverStyle.SMART on the parsed fields: year-of-era from 1, month 1-12, day 1-31 clamped
      to the month's length, and 24:00:00 read as midnight of the following day. */
  function ResolveSmart(year: int, month: int, day: int, hour: int, minute: int, second: int): (r: Option<LocalDateTime>)
    ensures r.Some? ==> ValidLocalDateTime(r.value)
  {
    if !(1 <= year && 1 <= month <= 12 && 1 <= day <= 31 && 0 <= minute < 60 && 0 <= second < 60 && 0 <= hour) then None
    else
      var d := if day <= MonthLength(year, month) then day else MonthLength(year, month);
      if hour == 24 && minute == 0 && second == 0 then
        var n := NextDay(year, month, d);
        Some(LocalDateTime(n.0, n.1, n.2, 0, 0, 0))
      else if hour < 24 then Some(LocalDateTime(year, month, d, hour, minute, second))
      else None
  }

  /** `LocalDateTime.parse(s, ofPattern("yyyy/MM/dd HH:mm:ss"))`: the separators at fixed places,
      a four-digit year and two-digit fields elsewhere; None where Java throws. */
  function ParseLocalDateTime(s: string): (r: Option<LocalDateTime>)
    ensures r.Some? ==> ValidLocalDateTime(r.value)
  {
    if |s| != LocalLength || s[4] != '/' || s[7] != '/' || s[10] != ' ' || s[13] != ':' || s[16] != ':' then None
    else if !(AllDigits(s[0..4]) && AllDigits(s[5..7]) && AllDigits(s[8..10]) &&
              AllDigits(s[11..13]) && AllDigits(s[14..16]) && AllDigits(s[17..19])) then None
    else
      ResolveSmart(DigitsValue(s[0..4]), DigitsValue(s[5..7]), DigitsValue(s[8..10]),
                   DigitsValue(s[11..13]), DigitsValue(s[14..16]), DigitsValue(s[17..19]))
  }

  // ---------------------------------------------------------------- offset

  /** `ZoneOffset.parseNumber` without the colon check. */
  function TwoDigits(id: string, pos: nat): Option<int>
    requires pos + 1 < |id|
  {
    if IsDigit(id[pos]) && IsDigit(id[pos + 1]) then Some(DigitValue(id[pos]) * 10 + DigitValue(id[pos + 1])) else None
  }

  /** `ZoneOffset.parseNumber` with the colon check. */
  function ColonTwoDigits(id: string, pos: nat): Option<int>
    requires 1 <= pos && pos + 1 < |id|
  {
    if id[pos - 1] != ':' then None else TwoDigits(id, pos)
  }

  /** `ZoneOffset.validate`: the fields agree in sign, lie in range, and ±18 allows no minutes or seconds. */
  predicate ValidOffsetFields(h: int, m: int, s: int)
  {
    -18 <= h <= 18 &&
    (if h > 0 then m >= 0 && s >= 0
     else if h < 0 then m <= 0 && s <= 0
     else !((m > 0 && s < 0) || (m < 0 && s > 0))) &&
    -59 <= m <= 59 && -59 <= s <= 59 &&
    !((h == 18 || h == -18) && (m != 0 || s != 0))
  }

  /** `ZoneOffset.of(offsetId)` in total seconds: "Z" (always in the id cache), or by length
      +h, +hh, +hhmm, +hh:mm, +hhmmss, +hh:mm:ss with a leading '+' or '-'. */
  function ParseOffset(offsetId: string): (r: Option<int>)
    ensures r.Some? ==> -MaxOffsetSeconds <= r.value <= MaxOffsetSeconds
  {
    if offsetId == "Z" then Some(0)
    else
      var id := if |offsetId| == 2 then [offsetId[0], '0', offsetId[1]] else offsetId;
      var fields :=
        if |id| == 3 then (TwoDigits(id, 1), Some(0), Some(0))
        else if |id| == 5 then (TwoDigits(id, 1), TwoDigits(id, 3), Some(0))
        else if |id| == 6 then (TwoDigits(id, 1), ColonTwoDigits(id, 4), Some(0))
        else if |id| == 7 then (TwoDigits(id, 1), TwoDigits(id, 3), TwoDigits(id, 5))
        else if |id| == 9 then (TwoDigits(id, 1), ColonTwoDigits(id, 4), ColonTwoDigits(id, 7))
        else (None, None, None);
      if fields.0.None? || fields.1.None? || fields.2.None? then None
      else if id[0] != '+' && id[0] != '-' then None
      else
        var h := if id[0] == '-' then -fields.0.value else fields.0.value;
        var m := if id[0] == '-' then -fields.1.value else fields.1.value;
        var s := if id[0] == '-' then -fields.2.value else fields.2.value;
        if ValidOffsetFields(h, m, s) then Some(h * 3600 + m * 60 + s) else None
  }

  // ---------------------------------------------------------------- translateUnix

  /** `translateUnix`: parse characters 0-18 as the local date-time and the rest as the offset, then
      render the epoch second. `Instant.toEpochMilli() / 1000` is exact here: the instant has no
      fraction of a second, so the milliseconds are a multiple of 1000. */
  function TranslateUnix(datetime: string): (r: Option<string>)
    ensures |datetime| < LocalLength ==> r.None?
    ensures r.Some? <==>
              |datetime| >= LocalLength && ParseLocalDateTime(datetime[..LocalLength]).Some? &&
              ParseOffset(datetime[LocalLength..]).Some?
    ensures r.Some? ==> |r.value| > 0 && (IsDigit(r.value[0]) || r.value[0] == '-')
  {
    if |datetime| < LocalLength then None
    else
      var local := ParseLocalDateTime(datetime[..LocalLength]);
      var offset := ParseOffset(datetime[LocalLength..]);
      if local.None? || offset.None? then None
      else Some(IntToString(LocalEpochSeconds(local.value) - offset.value))
  }

  // ---------------------------------------------------------------- an independent writer

  function Pad2(n: nat): (r: string)
    requires n < 100
  {
    [DigitChar(n / 10), DigitChar(n % 10)]
  }

  function Pad4(n: nat): (r: string)
    requires n < 10000
  {
    [DigitChar(n / 1000), DigitChar(n / 100 % 10), DigitChar(n / 10 % 10), DigitChar(n % 10)]
  }

  lemma Pad2Value(n: nat)
    requires n < 100
    ensures AllDigits(Pad2(n)) && DigitsValue(Pad2(n)) == n
  {
    var s := Pad2(n);
    assert DigitValue(s[0]) == n / 10 && DigitValue(s[1]) == n % 10;
    assert s[..1][..0] == [];
    assert s[..1] == [s[0]];
    assert DigitsValue(s[..1]) == n / 10;
  }

  lemma Pad4Value(n: nat)
    requires n < 10000
    ensures AllDigits(Pad4(n)) && DigitsValue(Pad4(n)) == n
  {
    var s := Pad4(n);
    assert DigitsValue(s[..1]) == n / 1000 by {
      assert s[..1][..0] == [];
      assert DigitValue(s[0]) == n / 1000;
    }
    assert DigitsValue(s[..2]) == n / 100 by {
      assert s[..2][..1] == s[..1];
      assert DigitValue(s[1]) == n / 100 % 10;
      assert n / 100 == n / 1000 * 10 + n / 100 % 10;
    }
    assert DigitsValue(s[..3]) == n / 10 by {
      assert s[..3][..2] == s[..2];
      assert DigitValue(s[2]) == n / 10 % 10;
      assert n / 10 == n / 100 * 10 + n / 10 % 10;
    }
    assert DigitValue(s[3]) == n % 10;
  }

  /** Writes six fields in the pattern `yyyy/MM/dd HH:mm:ss`, whether or not they form a valid date-time. */
  function WriteFields(year: nat, month: nat, day: nat, hour: nat, minute: nat, second: nat): (r: string)
    requires year < 10000 && month < 100 && day < 100 && hour < 100 && minute < 100 && second < 100
  {
    var y, mo, d := Pad4(year), Pad2(month), Pad2(day);
    var h, mi, s := Pad2(hour), Pad2(minute), Pad2(second);
    [y[0], y[1], y[2], y[3], '/', mo[0], mo[1], '/', d[0], d[1], ' ',
     h[0], h[1], ':', mi[0], mi[1], ':', s[0], s[1]]
  }

  /** Writes a date-time in the pattern `yyyy/MM/dd HH:mm:ss`. */
  function FormatLocalDateTime(t: LocalDateTime): (r: string)
    requires ValidLocalDateTime(t) && t.year <= 9999
    ensures |r| == LocalLength
  {
    WriteFields(t.year, t.month, t.day, t.hour, t.minute, t.second)
  }

  /** Writes a whole-minute offset as `+hh:mm` or `-hh:mm`. */
  function FormatOffset(offset: int): (r: string)
    requires -MaxOffsetSeconds <= offset <= MaxOffsetSeconds && offset % 60 == 0
  {
    var a := if offset < 0 then -offset else offset;
    var h, m := Pad2(a / 3600), Pad2(a % 3600 / 60);
    [if offset < 0 then '-' else '+', h[0], h[1], ':', m[0], m[1]]
  }

  /** Parsing written fields is SMART resolution of exactly those fields. */
  lemma ParseWrittenFields(year: nat, month: nat, day: nat, hour: nat, minute: nat, second: nat)
    requires year < 10000 && month < 100 && day < 100 && hour < 100 && minute < 100 && second < 100
    ensures ParseLocalDateTime(WriteFields(year, month, day, hour, minute, second))
            == ResolveSmart(year, month, day, hour, minute, second)
  {
    var s := WriteFields(year, month, day, hour, minute, second);
    Pad4Value(year);
    Pad2Value(month);
    Pad2Value(day);
    Pad2Value(hour);
    Pad2Value(minute);
    Pad2Value(second);
    assert s[0..4] == Pad4(year);
    assert s[5..7] == Pad2(month);
    assert s[8..10] == Pad2(day);
    assert s[11..13] == Pad2(hour);
    assert s[14..16] == Pad2(minute);
    assert s[17..19] == Pad2(second);
  }

  /** The parser reads back every valid date-time of years 1 to 9999 that the writer produces. */
  lemma ParseFormattedLocalDateTime(t: LocalDateTime)
    requires ValidLocalDateTime(t) && t.year <= 9999
    ensures ParseLocalDateTime(FormatLocalDateTime(t)) == Some(t)
  {
    ParseWrittenFields(t.year, t.month, t.day, t.hour, t.minute, t.second);
  }

  /** A signed `hh:mm` offset within ±18:00 reads as its seconds. */
  lemma ParseHourMinuteOffset(id: string, hh: int, mm: int)
    requires |id| == 6 && (id[0] == '+' || id[0] == '-')
    requires TwoDigits(id, 1) == Some(hh) && ColonTwoDigits(id, 4) == Some(mm)
    requires 0 <= hh <= 18 && 0 <= mm < 60 && (hh == 18 ==> mm == 0)
    ensures ParseOffset(id) == Some(if id[0] == '-' then -(hh * 3600 + mm * 60) else hh * 3600 + mm * 60)
  {
    assert id != "Z";
  }

  /** The offset parser reads back every whole-minute offset within ±18:00 that the writer produces. */
  lemma ParseFormattedOffset(offset: int)
    requires -MaxOffsetSeconds <= offset <= MaxOffsetSeconds && offset % 60 == 0
    ensures ParseOffset(FormatOffset(offset)) == Some(offset)
  {
    var a := if offset < 0 then -offset else offset;
    var hh, mm := a / 3600, a % 3600 / 60;
    HoursAndMinutes(a);
    var id := FormatOffset(offset);
    assert |id| == 6 && id[0] == (if offset < 0 then '-' else '+');
    assert TwoDigits(id, 1) == Some(hh) && ColonTwoDigits(id, 4) == Some(mm) by {
      Pad2Digits(hh);
      Pad2Digits(mm);
      assert id[1..3] == Pad2(hh) && id[4..6] == Pad2(mm);
    }
    ParseHourMinuteOffset(id, hh, mm);
  }

  /** A whole-minute number of seconds up to 18 hours as hours and minutes. */
  lemma HoursAndMinutes(a: int)
    requires 0 <= a <= MaxOffsetSeconds && a % 60 == 0
    ensures a == a / 3600 * 3600 + a % 3600 / 60 * 60
    ensures a / 3600 <= 18 && a % 3600 / 60 < 60 && (a / 3600 == 18 ==> a % 3600 / 60 == 0)
  {
  }

  /** The two characters of `Pad2(n)` are digits whose value is n. */
  lemma Pad2Digits(n: nat)
    requires n < 100
    ensures IsDigit(Pad2(n)[0]) && IsDigit(Pad2(n)[1])
    ensures DigitValue(Pad2(n)[0]) * 10 + DigitValue(Pad2(n)[1]) == n
  {
  }

  /** translateUnix of a written date-time and offset is the decimal string of the epoch second
      obtained by counting days from 1970-01-01 and subtracting the offset. */
  lemma TranslateFormatted(t: LocalDateTime, offset: int)
    requires ValidLocalDateTime(t) && t.year <= 9999
    requires -MaxOffsetSeconds <= offset <= MaxOffsetSeconds && offset % 60 == 0
    ensures TranslateUnix(FormatLocalDateTime(t) + FormatOffset(offset))
            == Some(IntToString(CountedEpochSeconds(t) - offset))
  {
    var local, zone := FormatLocalDateTime(t), FormatOffset(offset);
    ParseFormattedLocalDateTime(t);
    ParseFormattedOffset(offset);
    TranslatePartsCounted(local + zone, local, zone, t, offset);
  }

  lemma LocalEpochSecondsMatchCount(t: LocalDateTime)
    requires ValidLocalDateTime(t)
    ensures LocalEpochSeconds(t) == CountedEpochSeconds(t)
  {
    EpochDayMatchesCount(t.year, t.month, t.day);
  }

  // ---------------------------------------------------------------- worked examples

  /** Helper for the examples below: the digits of their UTC epoch second, one digit at a time. */
  lemma NatToStringUtcExample()
    ensures NatToString(1672653600) == "1672653600"
  {
    assert NatToString(16) == NatToString(1) + "6";
    assert NatToString(167) == NatToString(16) + "7";
    assert NatToString(1672) == NatToString(167) + "2";
    assert NatToString(16726) == NatToString(1672) + "6";
    assert NatToString(167265) == NatToString(16726) + "5";
    assert NatToString(1672653) == NatToString(167265) + "3";
    assert NatToString(16726536) == NatToString(1672653) + "6";
    assert NatToString(167265360) == NatToString(16726536) + "0";
    assert NatToString(1672653600) == NatToString(167265360) + "0";
  }

  /** Helper for the examples below: the digits of their UTC+8 epoch second, one digit at a time. */
  lemma NatToStringEastExample()
    ensures NatToString(1672624800) == "1672624800"
  {
    assert NatToString(16) == NatToString(1) + "6";
    assert NatToString(167) == NatToString(16) + "7";
    assert NatToString(1672) == NatToString(167) + "2";
    assert NatToString(16726) == NatToString(1672) + "6";
    assert NatToString(167262) == NatToString(16726) + "2";
    assert NatToString(1672624) == NatToString(167262) + "4";
    assert NatToString(16726248) == NatToString(1672624) + "8";
    assert NatToString(167262480) == NatToString(16726248) + "0";
    assert NatToString(1672624800) == NatToString(167262480) + "0";
  }

  /** translateUnix of a date-time part followed by an offset part, each read on its own. */
  lemma TranslateParts(s: string, local: string, zone: string, t: LocalDateTime, offset: int)
    requires s == local + zone && |local| == LocalLength
    requires ParseLocalDateTime(local) == Some(t) && ParseOffset(zone) == Some(offset)
    ensures TranslateUnix(s) == Some(IntToString(LocalEpochSeconds(t) - offset))
  {
    assert s[..LocalLength] == local;
    assert s[LocalLength..] == zone;
  }

  lemma TranslatePartsCounted(s: string, local: string, zone: string, t: LocalDateTime, offset: int)
    requires s == local + zone && |local| == LocalLength
    requires ParseLocalDateTime(local) == Some(t) && ParseOffset(zone) == Some(offset)
    ensures TranslateUnix(s) == Some(IntToString(CountedEpochSeconds(t) - offset))
  {
    TranslateParts(s, local, zone, t, offset);
    LocalEpochSecondsMatchCount(t);
  }

  /** The wall-clock time of the examples below: 2023-01-02 10:00:00 is epoch second 1672653600 at UTC. */
  lemma ExampleWallClock()
    ensures ParseLocalDateTime("2023/01/02 10:00:00") == Some(LocalDateTime(2023, 1, 2, 10, 0, 0))
    ensures LocalEpochSeconds(LocalDateTime(2023, 1, 2, 10, 0, 0)) == 1672653600
  {
    var t := LocalDateTime(2023, 1, 2, 10, 0, 0);
    assert FormatLocalDateTime(t) == "2023/01/02 10:00:00";
    ParseFormattedLocalDateTime(t);
  }

  /** Helper for the examples below: their epoch seconds at UTC and at UTC+8, rendered. */
  lemma ExampleSeconds()
    ensures IntToString(1672653600 - 0) == "1672653600"
    ensures IntToString(1672653600 - 28800) == "1672624800"
  {
    NatToStringUtcExample();
    NatToStringEastExample();
  }

  lemma TranslateUtcExample()
    ensures TranslateUnix("2023/01/02 10:00:00+00:00") == Some("1672653600")
  {
    ExampleWallClock();
    ExampleSeconds();
    assert ParseOffset("+00:00") == Some(0) by {
      assert FormatOffset(0) == "+00:00";
      ParseFormattedOffset(0);
    }
    TranslateParts("2023/01/02 10:00:00+00:00", "2023/01/02 10:00:00", "+00:00",
                   LocalDateTime(2023, 1, 2, 10, 0, 0), 0);
  }

  lemma TranslateEastExample()
    ensures TranslateUnix("2023/01/02 10:00:00+08:00") == Some("1672624800")
  {
    ExampleWallClock();
    ExampleSeconds();
    assert ParseOffset("+08:00") == Some(28800) by {
      assert FormatOffset(28800) == "+08:00";
      ParseFormattedOffset(28800);
    }
    TranslateParts("2023/01/02 10:00:00+08:00", "2023/01/02 10:00:00", "+08:00",
                   LocalDateTime(2023, 1, 2, 10, 0, 0), 28800);
  }

  lemma TranslateZuluExample()
    ensures TranslateUnix("2023/01/02 10:00:00Z") == Some("1672653600")
  {
    ExampleWallClock();
    ExampleSeconds();
    TranslateParts("2023/01/02 10:00:00Z", "2023/01/02 10:00:00", "Z", LocalDateTime(2023, 1, 2, 10, 0, 0), 0);
  }

  /** 2023-01-02 10:00 at UTC is epoch second 1672653600; the same wall-clock time at UTC+8 is
      eight hours earlier, and "Z" names the zero offset. */
  lemma TranslateUnixExamples()
    ensures TranslateUnix("2023/01/02 10:00:00+00:00") == Some("1672653600")
    ensures TranslateUnix("2023/01/02 10:00:00+08:00") == Some("1672624800")
    ensures TranslateUnix("2023/01/02 10:00:00Z") == Some("1672653600")
  {
    TranslateUtcExample();
    TranslateEastExample();
    TranslateZuluExample();
  }

  /** 24:00:00 is accepted only as the end of a day, and denotes the same instant as 00:00:00
      of the next day: exactly one day of seconds after 00:00:00 of the written day. */
  lemma EndOfDay(y: int, m: int, d: int)
    requires ValidDate(y, m, d)
    ensures ResolveSmart(y, m, d, 24, 0, 0).Some?
    ensures LocalEpochSeconds(ResolveSmart(y, m, d, 24, 0, 0).value)
            == LocalEpochSeconds(LocalDateTime(y, m, d, 0, 0, 0)) + SecondsPerDay
    ensures forall mi, se :: 0 <= mi < 60 && 0 <= se < 60 && (mi != 0 || se != 0) ==>
              ResolveSmart(y, m, d, 24, mi, se).None?
  {
    NextDayAdvancesEpochDay(y, m, d);
  }

  /** SMART resolution clamps a day past the end of its month to the month's last day. */
  lemma FebruaryClampExample()
    ensures ParseLocalDateTime("2023/02/30 00:00:00") == Some(LocalDateTime(2023, 2, 28, 0, 0, 0))
  {
    assert Pad4(2023) == "2023" && Pad2(2) == "02" && Pad2(30) == "30" && Pad2(0) == "00";
    assert WriteFields(2023, 2, 30, 0, 0, 0) == "2023/02/30 00:00:00";
    ParseWrittenFields(2023, 2, 30, 0, 0, 0);
    assert MonthLength(2023, 2) == 28;
  }

  lemma AprilClampExample()
    ensures ParseLocalDateTime("2024/04/31 12:30:00") == Some(LocalDateTime(2024, 4, 30, 12, 30, 0))
  {
    assert Pad4(2024) == "2024" && Pad2(4) == "04" && Pad2(31) == "31" && Pad2(12) == "12";
    assert Pad2(30) == "30" && Pad2(0) == "00";
    assert WriteFields(2024, 4, 31, 12, 30, 0) == "2024/04/31 12:30:00";
    ParseWrittenFields(2024, 4, 31, 12, 30, 0);
  }

  /** 24:00:00 on the last day of a year is midnight of New Year's Day. */
  lemma EndOfYearExample()
    ensures ParseLocalDateTime("2023/12/31 24:00:00") == Some(LocalDateTime(2024, 1, 1, 0, 0, 0))
  {
    assert Pad4(2023) == "2023" && Pad2(12) == "12" && Pad2(31) == "31" && Pad2(24) == "24" && Pad2(0) == "00";
    assert WriteFields(2023, 12, 31, 24, 0, 0) == "2023/12/31 24:00:00";
    ParseWrittenFields(2023, 12, 31, 24, 0, 0);
  }

  /** Fields no calendar has are rejected: month 13, day 32, year 0. */
  lemma SmartRejectionExamples()
    ensures ParseLocalDateTime("2023/13/01 00:00:00") == None
    ensures ParseLocalDateTime("2023/01/32 00:00:00") == None
    ensures ParseLocalDateTime("0000/01/01 00:00:00") == None
  {
    assert WriteFields(2023, 13, 1, 0, 0, 0) == "2023/13/01 00:00:00";
    ParseWrittenFields(2023, 13, 1, 0, 0, 0);
    assert WriteFields(2023, 1, 32, 0, 0, 0) == "2023/01/32 00:00:00";
    ParseWrittenFields(2023, 1, 32, 0, 0, 0);
    assert WriteFields(0, 1, 1, 0, 0, 0) == "0000/01/01 00:00:00";
    ParseWrittenFields(0, 1, 1, 0, 0, 0);
  }

  /** Every form `ZoneOffset.of` accepts: +h, +hh, +hhmm, +hh:mm, +hhmmss, +hh:mm:ss and the ±18:00 limit. */
  lemma OffsetExamples()
    ensures ParseOffset("+8") == Some(28800)
    ensures ParseOffset("-05") == Some(-18000)
    ensures ParseOffset("-0530") == Some(-19800)
    ensures ParseOffset("+05:30") == Some(19800)
    ensures ParseOffset("+053045") == Some(19845)
    ensures ParseOffset("+05:30:45") == Some(19845)
    ensures ParseOffset("+18:00") == Some(MaxOffsetSeconds)
  {
  }

  /** The limits `ZoneOffset.of` enforces: beyond ±18:00, a field out of range, no sign, other letters. */
  lemma OffsetRejectExamples()
    ensures ParseOffset("+18:01") == None
    ensures ParseOffset("+19:00") == None
    ensures ParseOffset("+05:60") == None
    ensures ParseOffset("0530") == None
    ensures ParseOffset("z") == None
    ensures ParseOffset("") == None
  {
  }

  /** An operand without its offset, or shorter than the pattern, is malformed. */
  lemma TranslateUnixRejects()
    ensures TranslateUnix("2023/01/02 10:00:00") == None
    ensures TranslateUnix("2023/01/02") == None
  {
    assert ParseOffset("2023/01/02 10:00:00"[19..]) == None;
  }
}
