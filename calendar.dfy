/**
 * Calendar helpers of `src/lib/dateUtils.ts`.
 *
 * A date is a day number (`Day`, 0 is 1970-01-01) in the app's fixed
 * reference zone; its civil view (year, 0-based month index, day of month)
 * is derived from the proleptic Gregorian calendar.  The clock is never
 * read: "today" is always a parameter.
 */
module Calendar {

  import opened Wrappers
  import opened Text
  import opened Seqs

  /** A civil day in the reference zone, counted from 1970-01-01 (day 0). */
  type Day = int

  predicate IsLeapYear(y: int) { y % 4 == 0 && (y % 100 != 0 || y % 400 == 0) }

  function YearLength(y: int): int { if IsLeapYear(y) then 366 else 365 }

  /** The day number of January 1 of year `y`. */
  function YearStart(y: int): Day
    decreases if y >= 1970 then y - 1970 else 1970 - y
  {
    if y == 1970 then 0
    else if y > 1970 then YearStart(y - 1) + YearLength(y - 1)
    else YearStart(y + 1) - YearLength(y)
  }

  lemma YearStartStep(y: int)
    ensures YearStart(y + 1) == YearStart(y) + YearLength(y)
  {
  }

  lemma {:induction false} YearStartMonotone(a: int, b: int)
    requires a <= b
    ensures YearStart(a) + 365 * (b - a) <= YearStart(b)
    decreases b - a
  {
    if a < b {
      YearStartMonotone(a, b - 1);
      YearStartStep(b - 1);
    }
  }

  /** Days of year `y` before month index `mi` (0 = January; 12 = the whole year). */
  function DaysBeforeMonth(y: int, mi: int): int
    requires 0 <= mi <= 12
  {
    var common :=
      if mi < 6 then
        if mi == 0 then 0 else if mi == 1 then 31 else if mi == 2 then 59
        else if mi == 3 then 90 else if mi == 4 then 120 else 151
      else
        if mi == 6 then 181 else if mi == 7 then 212 else if mi == 8 then 243
        else if mi == 9 then 273 else if mi == 10 then 304 else if mi == 11 then 334 else 365;
    common + (if mi >= 2 && IsLeapYear(y) then 1 else 0)
  }

  function MonthLength(y: int, mi: int): (n: int)
    requires 0 <= mi < 12
    ensures 28 <= n <= 31
  {
    DaysBeforeMonth(y, mi + 1) - DaysBeforeMonth(y, mi)
  }

  /** The day number of the first day of month `mi` of year `y`. */
  function MonthStart(y: int, mi: int): Day
    requires 0 <= mi < 12
  {
    YearStart(y) + DaysBeforeMonth(y, mi)
  }

  /** The month of the year-day `doy`, searched downwards from month `mi`. */
  function MonthFrom(y: int, doy: int, mi: int): (r: int)
    requires 0 <= mi < 12 && 0 <= doy < DaysBeforeMonth(y, mi + 1)
    ensures 0 <= r <= mi && DaysBeforeMonth(y, r) <= doy < DaysBeforeMonth(y, r + 1)
    decreases mi
  {
    if DaysBeforeMonth(y, mi) <= doy then mi else MonthFrom(y, doy, mi - 1)
  }

  /** The civil view of a day: year, month index (0 = January) and day of month (from 1). */
  datatype Civil = Civil(year: int, month: nat, day: nat)

  /** The civil date of the 0-based day `doy` of year `y`. */
  function CivilOfYearDay(y: int, doy: int): Civil
    requires 0 <= doy < YearLength(y)
  {
    var mi := MonthFrom(y, doy, 11);
    Civil(y, mi, doy - DaysBeforeMonth(y, mi) + 1)
  }

  /** The civil date of `d`, searching upwards from a year starting on or before `d`. */
  function CivilFromBelow(y: int, d: Day): Civil
    requires YearStart(y) <= d
    decreases d - YearStart(y)
  {
    YearStartStep(y);
    if d < YearStart(y + 1) then CivilOfYearDay(y, d - YearStart(y)) else CivilFromBelow(y + 1, d)
  }

  /** The civil date of `d`, searching downwards from a year ending after `d`. */
  function CivilFromAbove(y: int, d: Day): Civil
    requires d < YearStart(y + 1)
    decreases YearStart(y + 1) - d
  {
    YearStartStep(y);
    if YearStart(y) <= d then CivilOfYearDay(y, d - YearStart(y)) else CivilFromAbove(y - 1, d)
  }

  /** The civil view of `d`: the one civil date whose year, month and day contain it. */
  function ToCivil(d: Day): Civil
  {
    CivilExists(d);
    CivilUniqueness(d);
    var c :| IsCivilOf(c, d); c
  }

  /** `getFullYear()`. */
  function Year(d: Day): int { ToCivil(d).year }

  /** `getMonth()`: 0 for January up to 11 for December. */
  function MonthIndex(d: Day): int { ToCivil(d).month }

  /** `getDate()`: 1 up to the length of the month. */
  function DayOfMonth(d: Day): int { ToCivil(d).day }

  /** What makes a civil date the right one for day `d`. */
  predicate IsCivilOf(c: Civil, d: Day)
  {
    && YearStart(c.year) <= d < YearStart(c.year + 1)
    && 0 <= c.month < 12
    && DaysBeforeMonth(c.year, c.month) <= d - YearStart(c.year) < DaysBeforeMonth(c.year, c.month + 1)
    && c.day == d - YearStart(c.year) - DaysBeforeMonth(c.year, c.month) + 1
  }

  lemma {:induction false} CivilFromBelowIsCivil(y: int, d: Day)
    requires YearStart(y) <= d
    ensures IsCivilOf(CivilFromBelow(y, d), d)
    decreases d - YearStart(y)
  {
    YearStartStep(y);
    if d >= YearStart(y + 1) {
      CivilFromBelowIsCivil(y + 1, d);
    }
  }

  lemma {:induction false} CivilFromAboveIsCivil(y: int, d: Day)
    requires d < YearStart(y + 1)
    ensures IsCivilOf(CivilFromAbove(y, d), d)
    decreases YearStart(y + 1) - d
  {
    YearStartStep(y);
    if d < YearStart(y) {
      CivilFromAboveIsCivil(y - 1, d);
    }
  }

  lemma CivilExists(d: Day)
    ensures exists c :: IsCivilOf(c, d)
  {
    if d >= 0 {
      CivilFromBelowIsCivil(1970, d);
    } else {
      CivilFromAboveIsCivil(1969, d);
    }
  }

  lemma CivilUniqueness(d: Day)
    ensures forall c, c' :: IsCivilOf(c, d) && IsCivilOf(c', d) ==> c == c'
  {
    forall c, c' | IsCivilOf(c, d) && IsCivilOf(c', d)
      ensures c == c'
    {
      if c.year < c'.year {
        YearStartMonotone(c.year + 1, c'.year);
      } else if c.year > c'.year {
        YearStartMonotone(c'.year + 1, c.year);
      }
      if c.month < c'.month {
        DaysBeforeMonthMonotone(c.year, c.month + 1, c'.month);
      } else if c.month > c'.month {
        DaysBeforeMonthMonotone(c.year, c'.month + 1, c.month);
      }
    }
  }

  /** The civil view of `d` is the year, month and day that contain it. */
  lemma CivilFacts(d: Day)
    ensures IsCivilOf(ToCivil(d), d)
    ensures 1 <= DayOfMonth(d) <= MonthLength(Year(d), MonthIndex(d))
    ensures d == MonthStart(Year(d), MonthIndex(d)) + DayOfMonth(d) - 1
  {
    CivilExists(d);
  }

  /** Only one civil date fits a day, so the civil view is determined by those bounds. */
  lemma CivilUnique(c: Civil, d: Day)
    requires IsCivilOf(c, d)
    ensures ToCivil(d) == c
  {
    CivilFacts(d);
    CivilUniqueness(d);
  }

  /** A day lies in exactly one year. */
  lemma YearOfDay(y: int, d: Day)
    requires YearStart(y) <= d < YearStart(y + 1)
    ensures Year(d) == y
  {
    CivilFacts(d);
    if Year(d) < y {
      YearStartMonotone(Year(d) + 1, y);
    } else if Year(d) > y {
      YearStartMonotone(y + 1, Year(d));
    }
  }

  /** A day's year is before `y` exactly when the day is before January 1 of `y`. */
  lemma YearBefore(d: Day, y: int)
    ensures Year(d) < y <==> d < YearStart(y)
  {
    CivilFacts(d);
    if Year(d) < y {
      YearStartMonotone(Year(d) + 1, y);
    } else {
      YearStartMonotone(y, Year(d));
    }
  }

  /** The 0-based day of the year. */
  function DayOfYear(d: Day): int
  {
    d - YearStart(Year(d))
  }

  lemma {:induction false} DaysBeforeMonthMonotone(y: int, a: int, b: int)
    requires 0 <= a <= b <= 12
    ensures DaysBeforeMonth(y, a) <= DaysBeforeMonth(y, b)
    decreases b - a
  {
    if a < b {
      DaysBeforeMonthMonotone(y, a + 1, b);
      assert MonthLength(y, a) >= 28;
    }
  }

  /** The day-of-month view of a day inside month `mi` of year `y`. */
  lemma CivilOf(y: int, mi: int, k: int)
    requires 0 <= mi < 12 && 0 <= k < MonthLength(y, mi)
    ensures ToCivil(MonthStart(y, mi) + k) == Civil(y, mi, k + 1)
  {
    YearStartStep(y);
    CivilUnique(Civil(y, mi, k + 1), MonthStart(y, mi) + k);
  }

  /** `getDay()`: 0 is Sunday; 1970-01-01 was a Thursday. */
  function DayOfWeek(d: Day): (w: int)
    ensures 0 <= w < 7
  {
    (d + 4) % 7
  }

  /** Weekdays follow each other: the day after a Saturday (6) is a Sunday (0). */
  lemma DayOfWeekNext(d: Day)
    ensures DayOfWeek(d + 1) == (DayOfWeek(d) + 1) % 7
  {
  }

  /** The month after month `mi` of year `y` starts right after it ends. */
  lemma NextMonthStart(y: int, mi: int)
    requires 0 <= mi < 12
    ensures MonthStart(y, mi) + MonthLength(y, mi)
            == if mi < 11 then MonthStart(y, mi + 1) else MonthStart(y + 1, 0)
  {
    YearStartStep(y);
  }

  /**
   * `new Date(y, mi, dd)` at local midnight: a year argument in 0..99 means
   * 1900..1999, and a month index or day outside its range carries over.
   */
  function MakeDay(y: int, mi: int, dd: int): Day
  {
    var yr := if 0 <= y <= 99 then 1900 + y else y;
    MonthStart(yr + mi / 12, mi % 12) + dd - 1
  }

  /** `new Date(y, mi, 1)` is the first day of a month; `new Date(y, mi + 1, 0)` its last. */
  lemma MakeDayMonthBounds(y: int, mi: int)
    requires 100 <= y && 0 <= mi < 12
    ensures MakeDay(y, mi, 1) == MonthStart(y, mi)
    ensures MakeDay(y, mi + 1, 0) == MonthStart(y, mi) + MonthLength(y, mi) - 1
  {
    NextMonthStart(y, mi);
    assert mi / 12 == 0 && mi % 12 == mi;
    if mi < 11 {
      assert (mi + 1) / 12 == 0 && (mi + 1) % 12 == mi + 1;
    } else {
      assert (mi + 1) / 12 == 1 && (mi + 1) % 12 == 0;
    }
  }

  /** The key text of a civil date: year, '-', 1-based month and day, each padded to two digits. */
  function CivilKey(c: Civil): string
  {
    IntToString(c.year) + "-" + Pad2(c.month + 1) + "-" + Pad2(c.day)
  }

  /** `getDateKey`: the key of the day's civil view. */
  function DateKey(d: Day): string
  {
    CivilKey(ToCivil(d))
  }

  /** A key is the year, then '-' and two digits of month, then '-' and two digits of day. */
  lemma CivilKeyShape(c: Civil)
    requires c.month < 99 && c.day < 100
    ensures var key := CivilKey(c);
      && |key| == |IntToString(c.year)| + 6
      && key[..|key| - 6] == IntToString(c.year)
      && key[|key| - 6] == '-' && key[|key| - 3] == '-'
      && AllDigits(key[|key| - 5..|key| - 3])
      && DigitsValue(key[|key| - 5..|key| - 3]) == c.month + 1
      && AllDigits(key[|key| - 2..])
      && DigitsValue(key[|key| - 2..]) == c.day
  {
    var y, m, dd := IntToString(c.year), Pad2(c.month + 1), Pad2(c.day);
    Pad2Shape(c.month + 1);
    Pad2Shape(c.day);
    Pad2Value(c.month + 1);
    Pad2Value(c.day);
    var key := y + "-" + m + "-" + dd;
    assert key == CivilKey(c);
    assert key[..|key| - 6] == y;
    assert key[|key| - 5..|key| - 3] == m;
    assert key[|key| - 2..] == dd;
  }

  /** Civil dates with a month below 99 and a day below 100 have distinct keys. */
  lemma CivilKeyInjective(c: Civil, c': Civil)
    requires c.month < 99 && c.day < 100 && c'.month < 99 && c'.day < 100
    requires CivilKey(c) == CivilKey(c')
    ensures c == c'
  {
    CivilKeyShape(c);
    CivilKeyShape(c');
    IntToStringInjective(c.year, c'.year);
  }

  /** Different days have different keys. */
  lemma DateKeyInjective(a: Day, b: Day)
    requires DateKey(a) == DateKey(b)
    ensures a == b
  {
    CivilFacts(a);
    CivilFacts(b);
    CivilKeyInjective(ToCivil(a), ToCivil(b));
  }

  /**
   * `parseISTDateKey`: split on '-', read the first three pieces with
   * `Number`, and build `new Date(year, month - 1, day)`; a missing or
   * non-numeric piece gives an invalid date (None).
   */
  function ParseDateKey(key: string): (r: Option<Day>)
    ensures r.Some? ==> |Split(key, '-')| >= 3
  {
    var parts := Split(key, '-');
    if |parts| < 3 then None
    else
      match (DecimalNumber(parts[0]), DecimalNumber(parts[1]), DecimalNumber(parts[2]))
      case (Some(y), Some(m), Some(dd)) => Some(MakeDay(y, m as int - 1, dd))
      case _ => None
  }

  lemma NoDashInDigits(s: string)
    requires AllDigits(s)
    ensures '-' !in s
  {
  }

  /** The key of a civil date with a non-negative year splits into its three fields. */
  lemma SplitCivilKey(c: Civil)
    requires c.year >= 0
    ensures Split(CivilKey(c), '-') == [NatToString(c.year), Pad2(c.month + 1), Pad2(c.day)]
  {
    var a, b, d := NatToString(c.year), Pad2(c.month + 1), Pad2(c.day);
    Pad2Shape(c.month + 1);
    Pad2Shape(c.day);
    NoDashInDigits(a);
    NoDashInDigits(b);
    NoDashInDigits(d);
    assert CivilKey(c) == a + ['-'] + (b + ['-'] + d);
    SplitAt(a, '-', b + ['-'] + d);
    SplitAt(b, '-', d);
    SplitNoSeparator(d, '-');
  }

  /** A key of a year written without sign parses to `new Date` of its own year, month and day. */
  lemma ParseCivilKey(c: Civil)
    requires c.year >= 0
    ensures ParseDateKey(CivilKey(c)) == Some(MakeDay(c.year, c.month, c.day))
  {
    SplitCivilKey(c);
    var a, b, d := NatToString(c.year), Pad2(c.month + 1), Pad2(c.day);
    NatToStringValue(c.year);
    Pad2Shape(c.month + 1);
    Pad2Shape(c.day);
    Pad2Value(c.month + 1);
    Pad2Value(c.day);
    assert DecimalNumber(a) == Some(c.year);
    assert DecimalNumber(b) == Some(c.month + 1);
    assert DecimalNumber(d) == Some(c.day);
  }

  /** Within the year, `new Date(y, mi, dd)` is day `dd` counted from the first of month `mi`. */
  lemma MakeDayInYear(y: int, mi: int, dd: int)
    requires 0 <= mi < 12
    ensures MakeDay(y, mi, dd) == MonthStart(if 0 <= y <= 99 then 1900 + y else y, mi) + dd - 1
  {
    assert mi / 12 == 0 && mi % 12 == mi;
  }

  /** The key of the civil view of `d`, for a year of three or more digits, reads back as `d`. */
  lemma ParseCivilKeyOf(c: Civil, d: Day)
    requires IsCivilOf(c, d) && c.year >= 100
    ensures ParseDateKey(CivilKey(c)) == Some(d)
  {
    ParseCivilKey(c);
    MakeDayOfCivil(c, d);
  }

  /** For a year of three or more digits, `new Date` of a day's civil fields is that day. */
  lemma MakeDayOfCivil(c: Civil, d: Day)
    requires IsCivilOf(c, d) && c.year >= 100
    ensures MakeDay(c.year, c.month, c.day) == d
  {
    MakeDayInYear(c.year, c.month, c.day);
  }

  /** Reading a key back gives the same day, for years written with at least three digits. */
  lemma ParseDateKeyRoundTrip(d: Day)
    requires Year(d) >= 100
    ensures ParseDateKey(DateKey(d)) == Some(d)
  {
    CivilFacts(d);
    ParseCivilKeyOf(ToCivil(d), d);
  }

  /** The key of a civil date of year 0..99 reads back as a day of 1900..1999, after `d`'s year. */
  lemma ParseTwoDigitCivilKey(c: Civil, d: Day)
    requires IsCivilOf(c, d) && 0 <= c.year <= 99
    ensures ParseDateKey(CivilKey(c)).Some?
    ensures ParseDateKey(CivilKey(c)).value >= YearStart(1900) > d
  {
    ParseCivilKey(c);
    TwoDigitYearShift(c, d);
  }

  /** `new Date` moves a year 0..99 to 1900..1999, past every day of the years 0..99. */
  lemma TwoDigitYearShift(c: Civil, d: Day)
    requires IsCivilOf(c, d) && 0 <= c.year <= 99
    ensures MakeDay(c.year, c.month, c.day) >= YearStart(1900) > d
  {
    MakeDayInYear(c.year, c.month, c.day);
    DaysBeforeMonthMonotone(1900 + c.year, 0, c.month);
    YearStartMonotone(c.year + 1, 1900);
    YearStartMonotone(1900, 1900 + c.year);
  }

  /** A key of a year 0..99 reads back as a day of 1900..1999, never as itself. */
  lemma ParseDateKeyTwoDigitYear(d: Day)
    requires 0 <= Year(d) <= 99
    ensures ParseDateKey(DateKey(d)).Some?
    ensures ParseDateKey(DateKey(d)).value >= YearStart(1900) > d
  {
    CivilFacts(d);
    ParseTwoDigitCivilKey(ToCivil(d), d);
  }

  /** `isInYear`: the key starts with the year and a '-'. */
  function IsInYear(key: string, year: int): bool
  {
    IntToString(year) + "-" <= key
  }

  /** Because of the trailing '-', the prefix test on a key is exactly year equality. */
  lemma IsInYearIffYear(d: Day, y: int)
    ensures IsInYear(DateKey(d), y) <==> Year(d) == y
  {
    var key, a, b := DateKey(d), IntToString(Year(d)), IntToString(y);
    assert key == a + "-" + Pad2(MonthIndex(d) + 1) + "-" + Pad2(DayOfMonth(d));
    IntToStringShape(Year(d));
    IntToStringShape(y);
    if IsInYear(key, y) {
      assert key[|a|] == '-';
      assert key[|b|] == (b + "-")[|b|] == '-';
      assert |b| == |a|;
      assert b == (b + "-")[..|b|] == key[..|a|] == a;
      IntToStringInjective(Year(d), y);
    }
  }

  const MsPerDay: int := 86400000
  const MsPerWeek: int := 7 * MsPerDay

  /** A moment: a day and the milliseconds elapsed since its midnight. */
  datatype Instant = Instant(day: Day, msOfDay: int)

  predicate ValidInstant(t: Instant) { 0 <= t.msOfDay < MsPerDay }

  /** `getISTStartOfDay`: the time value of the day's midnight. */
  function StartOfDay(t: Instant): int
  {
    t.day * MsPerDay
  }

  /** `getDaysBetween`: whole days between the two midnights; the time of day plays no part. */
  function DaysBetween(a: Instant, b: Instant): (r: int)
    ensures r == b.day - a.day
  {
    (StartOfDay(b) - StartOfDay(a)) / MsPerDay
  }

  /** `Math.ceil(a / b)` for a positive divisor. */
  function CeilDiv(a: int, b: int): (q: int)
    requires b > 0
    ensures (q - 1) * b < a <= q * b
  {
    -((-a) / b)
  }

  /** Rounding up preserves order. */
  lemma CeilDivMonotone(a: int, b: int, m: int)
    requires a <= b && m > 0
    ensures CeilDiv(a, m) <= CeilDiv(b, m)
  {
    var p, q := CeilDiv(a, m), CeilDiv(b, m);
    assert (q - 1) * m < b;
    assert p * m >= a;
  }

  /** Any amount up to one divisor rounds up to exactly one. */
  lemma CeilDivFirst(a: int, b: int)
    requires 0 < a <= b
    ensures CeilDiv(a, b) == 1
  {
  }

  /** Milliseconds from January 1 (midnight, via `new Date(year, 0, 1)`) of the instant's year. */
  function MsSinceYearStart(t: Instant): int
  {
    (t.day - MakeDay(Year(t.day), 0, 1)) * MsPerDay + t.msOfDay
  }

  /** `getWeekOfYear` as written: `Math.ceil(diff / oneWeek + 1)`. */
  function WeekOfYear(t: Instant): int
  {
    CeilDiv(MsSinceYearStart(t), MsPerWeek) + 1
  }

  /** For a year of three or more digits, the time since January 1 counts whole days of the year. */
  lemma MsSinceYearStartByDay(t: Instant)
    requires Year(t.day) >= 100
    ensures MsSinceYearStart(t) == DayOfYear(t.day) * MsPerDay + t.msOfDay
  {
    MakeDayMonthBounds(Year(t.day), 0);
  }

  /** January 1 of year `y` is day 0 of that year. */
  lemma DayOfYearOfYearStart(y: int)
    ensures Year(YearStart(y)) == y && DayOfYear(YearStart(y)) == 0
  {
    YearStartStep(y);
    YearOfDay(y, YearStart(y));
  }

  /** The 0-based day of the year is below the year's length. */
  lemma DayOfYearBounds(d: Day)
    ensures 0 <= DayOfYear(d) < YearLength(Year(d))
  {
    CivilFacts(d);
    YearStartStep(Year(d));
  }

  /** On January 1 the time since the year's start is the time of day. */
  lemma MsSinceJanuaryFirst(y: int, ms: int)
    requires y >= 100
    ensures MsSinceYearStart(Instant(YearStart(y), ms)) == ms
  {
    var t := Instant(YearStart(y), ms);
    DayOfYearOfYearStart(y);
    MsSinceYearStartByDay(t);
  }

  /** Week 1 at the midnight that starts January 1. */
  lemma WeekOfYearJanuaryFirst(y: int)
    requires y >= 100
    ensures WeekOfYear(Instant(YearStart(y), 0)) == 1
  {
    MsSinceJanuaryFirst(y, 0);
  }

  /** Later instants of the same year never get an earlier week. */
  lemma WeekOfYearMonotone(s: Instant, t: Instant)
    requires ValidInstant(s) && ValidInstant(t) && Year(s.day) == Year(t.day)
    requires s.day < t.day || (s.day == t.day && s.msOfDay <= t.msOfDay)
    ensures WeekOfYear(s) <= WeekOfYear(t)
  {
    var j := MakeDay(Year(s.day), 0, 1);
    var a, b := (s.day - j) * MsPerDay + s.msOfDay, (t.day - j) * MsPerDay + t.msOfDay;
    assert a == MsSinceYearStart(s) && b == MsSinceYearStart(t);
    assert a <= b;
    CeilDivMonotone(a, b, MsPerWeek);
  }

  /** Any later moment of January 1 is already counted as week 2. */
  lemma WeekOfYearJanuaryFirstLater(y: int, ms: int)
    requires y >= 100 && 0 < ms < MsPerDay
    ensures WeekOfYear(Instant(YearStart(y), ms)) == 2
  {
    MsSinceJanuaryFirst(y, ms);
    CeilDivFirst(ms, MsPerWeek);
  }

  /** The week number with week 1 covering January 1 to 7: `Math.floor(diff / oneWeek) + 1`. */
  function WeekOfYearFromJanuary(t: Instant): int
  {
    MsSinceYearStart(t) / MsPerWeek + 1
  }

  /** A whole-day count plus part of a day, in weeks, is the day count in weeks. */
  lemma WeeksOfDays(n: int, ms: int)
    requires 0 <= ms < MsPerDay
    ensures (n * MsPerDay + ms) / MsPerWeek == n / 7
  {
    var q := n / 7;
    assert q * MsPerWeek <= n * MsPerDay + ms < (q + 1) * MsPerWeek;
  }

  /** Week n covers the days 7(n-1) .. 7n-1 of the year, whatever the time of day. */
  lemma WeekOfYearFromJanuaryByDay(t: Instant)
    requires ValidInstant(t) && Year(t.day) >= 100
    ensures WeekOfYearFromJanuary(t) == DayOfYear(t.day) / 7 + 1
  {
    MsSinceYearStartByDay(t);
    WeeksOfDays(DayOfYear(t.day), t.msOfDay);
  }

  /** So the corrected week number runs from 1 to 53. */
  lemma WeekOfYearFromJanuaryBounds(t: Instant)
    requires ValidInstant(t) && Year(t.day) >= 100
    ensures 1 <= WeekOfYearFromJanuary(t) <= 53
  {
    WeekOfYearFromJanuaryByDay(t);
    DayOfYearBounds(t.day);
  }

  /** `count` consecutive days from `first`. */
  function DayRange(first: Day, count: nat): (days: seq<Day>)
    ensures |days| == count
  {
    seq(count, k => first + k)
  }

  /** The keys of a list of days, in the same order. */
  function KeysOf(days: seq<Day>): (keys: seq<string>)
    ensures |keys| == |days|
  {
    MapSeq(DateKey, days)
  }

  /** `getLastNDays`: the keys of the `n` days ending today, oldest first. */
  method GetLastNDays(n: int, today: Day) returns (keys: seq<string>)
    ensures keys == KeysOf(DayRange(today - (n - 1), if n > 0 then n else 0))
  {
    keys := [];
    var i := n - 1;
    ghost var days: seq<Day> := [];
    while i >= 0
      invariant -1 <= i || i == n - 1
      invariant |days| == n - 1 - i
      invariant days == DayRange(today - (n - 1), |days|)
      invariant keys == KeysOf(days)
    {
      MapSeqAppend(DateKey, days, [today - i]);
      keys := keys + KeysOf([today - i]);
      days := days + [today - i];
      i := i - 1;
    }
    assert |days| == if n > 0 then n else 0;
  }

  /** `getYearDates`: keys from `new Date(year, 0, 1)` to `new Date(year, 11, 31)`, not past today. */
  method GetYearDates(year: int, today: Day) returns (keys: seq<string>)
    ensures keys == KeysOf(YearDays(year, today))
  {
    var first, last := MakeDay(year, 0, 1), MakeDay(year, 11, 31);
    keys := [];
    var d := first;
    ghost var days: seq<Day> := [];
    while d <= last && d <= today
      invariant first <= d
      invariant d <= first || (d - 1 <= last && d - 1 <= today)
      invariant |days| == d - first
      invariant days == DayRange(first, |days|)
      invariant keys == KeysOf(days)
      decreases last - d
    {
      MapSeqAppend(DateKey, days, [d]);
      keys := keys + KeysOf([d]);
      days := days + [d];
      d := d + 1;
    }
    ghost var stop := if last < today then last else today;
    assert |days| == if stop < first then 0 else stop - first + 1;
  }

  /** Distinct days have distinct keys, so a list of distinct days has distinct keys. */
  lemma KeysOfDistinct(days: seq<Day>, i: int, j: int)
    requires 0 <= i < |days| && 0 <= j < |days|
    requires KeysOf(days)[i] == KeysOf(days)[j]
    ensures days[i] == days[j]
  {
    DateKeyInjective(days[i], days[j]);
  }

  /** The `n` days ending today are distinct, oldest first, and the last is today. */
  lemma LastNDaysRange(n: int, today: Day)
    requires n > 0
    ensures var days := DayRange(today - (n - 1), n);
      && days[n - 1] == today
      && (forall i, j :: 0 <= i < j < n ==> days[i] < days[j])
  {
  }

  /** The last of the `n` keys ending today is today's key. */
  lemma LastNDaysEndsToday(n: int, today: Day)
    requires n > 0
    ensures KeysOf(DayRange(today - (n - 1), n))[n - 1] == DateKey(today)
  {
    var days := DayRange(today - (n - 1), n);
    assert days[n - 1] == today;
  }

  /** For a year of three or more digits, January 1 to December 31 are that year's days. */
  lemma YearBounds(year: int)
    requires year >= 100
    ensures MakeDay(year, 0, 1) == YearStart(year)
    ensures MakeDay(year, 11, 31) == YearStart(year + 1) - 1
  {
    YearStartStep(year);
    MakeDayInYear(year, 11, 31);
  }

  /** The days `GetYearDates` walks through, for a given today. */
  function YearDays(year: int, today: Day): seq<Day>
  {
    var first, last := MakeDay(year, 0, 1), MakeDay(year, 11, 31);
    var stop := if last < today then last else today;
    DayRange(first, if stop < first then 0 else stop - first + 1)
  }

  /** Nothing is listed for a year whose January 1 is still to come. */
  lemma YearDaysBeforeStart(year: int, today: Day)
    requires today < MakeDay(year, 0, 1)
    ensures YearDays(year, today) == []
  {
  }

  /** Each listed day lies between the year's first day and the next year's. */
  lemma YearDaysSpan(year: int, today: Day, k: int)
    requires year >= 100 && 0 <= k < |YearDays(year, today)|
    ensures YearStart(year) <= YearDays(year, today)[k] < YearStart(year + 1)
  {
    YearBounds(year);
  }

  /** Every day listed for a year of three or more digits lies in that year. */
  lemma YearDaysInYear(year: int, today: Day, k: int)
    requires year >= 100 && 0 <= k < |YearDays(year, today)|
    ensures Year(YearDays(year, today)[k]) == year
  {
    YearDaysSpan(year, today, k);
    YearOfDay(year, YearDays(year, today)[k]);
  }

  /** So each of those keys passes the `startsWith(year)` filter. */
  lemma YearDateKeyInYear(days: seq<Day>, year: int, k: int)
    requires 0 <= k < |days| && Year(days[k]) == year && year >= 0
    ensures IsInYear(KeysOf(days)[k], year)
  {
    IsInYearIffYear(days[k], year);
  }
}
