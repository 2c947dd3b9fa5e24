/** The proleptic Gregorian calendar as Python's `datetime` uses it, and the
    rendering `strftime('%d.%m.%Y, %H:%M')` of a point in UTC. Day numbers
    count days since 1970-01-01 (negative before it); seconds are split into
    days with floor division, as `datetime` does. */
module CivilTime {
  import opened Strings

  const SECONDS_PER_DAY := 86400
  const EPOCH_YEAR := 1970

  predicate IsLeapYear(y: int) {
    y % 4 == 0 && (y % 100 != 0 || y % 400 == 0)
  }

  function DaysInYear(y: int): int {
    if IsLeapYear(y) then 366 else 365
  }

  function DaysInMonth(y: int, m: int): int
    requires 1 <= m <= 12
  {
    if m == 2 then (if IsLeapYear(y) then 29 else 28)
    else if m == 4 || m == 6 || m == 9 || m == 11 then 30
    else 31
  }

  /** Days of year `y` before the first of month `m`. */
  function DaysBeforeMonth(y: int, m: int): int
    requires 1 <= m <= 12
  {
    [0, 31, 59, 90, 120, 151, 181, 212, 243, 273, 304, 334][m - 1]
      + (if m > 2 && IsLeapYear(y) then 1 else 0)
  }

  /** The months of a year follow one another without gap or overlap. */
  lemma MonthsTileYear(y: int, m: int)
    requires 1 <= m <= 12
    ensures DaysBeforeMonth(y, m) + DaysInMonth(y, m)
            == if m < 12 then DaysBeforeMonth(y, m + 1) else DaysInYear(y)
  {
  }

  lemma {:induction false} MonthEndsWithinYear(y: int, a: int, b: int)
    requires 1 <= a <= b <= 12
    ensures DaysBeforeMonth(y, a) + DaysInMonth(y, a)
            <= if b < 12 then DaysBeforeMonth(y, b + 1) else DaysInYear(y)
    decreases b - a
  {
    MonthsTileYear(y, a);
    if a < b {
      MonthEndsWithinYear(y, a + 1, b);
      MonthsTileYear(y, a + 1);
    }
  }

  /** Day number of January 1 of year `y`. */
  function YearStart(y: int): int
    decreases if y < EPOCH_YEAR then EPOCH_YEAR - y else y - EPOCH_YEAR
  {
    if y == EPOCH_YEAR then 0
    else if y > EPOCH_YEAR then YearStart(y - 1) + DaysInYear(y - 1)
    else YearStart(y + 1) - DaysInYear(y)
  }

  lemma YearStartStep(y: int)
    ensures YearStart(y + 1) == YearStart(y) + DaysInYear(y)
  {
  }

  lemma {:induction false} YearStartIncreases(a: int, b: int)
    requires a < b
    ensures YearStart(a) + DaysInYear(a) <= YearStart(b)
    decreases b - a
  {
    YearStartStep(a);
    if a + 1 < b {
      YearStartIncreases(a + 1, b);
      YearStartStep(a + 1);
    }
  }

  datatype Date = Date(year: int, month: int, day: int)

  predicate ValidDate(d: Date) {
    1 <= d.month <= 12 && 1 <= d.day <= DaysInMonth(d.year, d.month)
  }

  /** Zero-based position of a valid date within its year. */
  function DayOfYear(d: Date): (k: int)
    requires ValidDate(d)
    ensures 0 <= k < DaysInYear(d.year)
  {
    MonthEndsWithinYear(d.year, d.month, 12);
    DaysBeforeMonth(d.year, d.month) + d.day - 1
  }

  /** Days from 1970-01-01 to the date. */
  function DayNumber(d: Date): int
    requires ValidDate(d)
  {
    YearStart(d.year) + DayOfYear(d)
  }

  /** The year holding day `n` counted from January 1 of year `y`, and the
      day's zero-based position in that year. */
  function YearOf(n: int, y: int): (r: (int, int))
    ensures 0 <= r.1 < DaysInYear(r.0)
    ensures YearStart(r.0) + r.1 == YearStart(y) + n
    decreases if n < 0 then 1 else 0, if n < 0 then -n else n
  {
    if n < 0 then
      YearStartStep(y - 1);
      YearOf(n + DaysInYear(y - 1), y - 1)
    else if n < DaysInYear(y) then (y, n)
    else
      YearStartStep(y);
      YearOf(n - DaysInYear(y), y + 1)
  }

  /** The month, from `m` on, holding zero-based day `k` of year `y`, and
      the one-based day of that month. */
  function MonthOf(y: int, k: int, m: int): (r: (int, int))
    requires 0 <= k < DaysInYear(y) && 1 <= m <= 12 && DaysBeforeMonth(y, m) <= k
    ensures 1 <= r.0 <= 12 && 1 <= r.1 <= DaysInMonth(y, r.0)
    ensures DaysBeforeMonth(y, r.0) + r.1 - 1 == k
    decreases 12 - m
  {
    MonthsTileYear(y, m);
    if k < DaysBeforeMonth(y, m) + DaysInMonth(y, m) then (m, k - DaysBeforeMonth(y, m) + 1)
    else MonthOf(y, k, m + 1)
  }

  /** The civil date of day number `n`. */
  function DateOf(n: int): (d: Date)
    ensures ValidDate(d) && DayNumber(d) == n
  {
    var (y, k) := YearOf(n, EPOCH_YEAR);
    var (m, day) := MonthOf(y, k, 1);
    Date(y, m, day)
  }

  lemma DayNumberInjective(a: Date, b: Date)
    requires ValidDate(a) && ValidDate(b) && DayNumber(a) == DayNumber(b)
    ensures a == b
  {
    if a.year < b.year {
      YearStartIncreases(a.year, b.year);
    } else if b.year < a.year {
      YearStartIncreases(b.year, a.year);
    } else if a.month < b.month {
      MonthEndsWithinYear(a.year, a.month, b.month - 1);
    } else if b.month < a.month {
      MonthEndsWithinYear(a.year, b.month, a.month - 1);
    }
  }

  /** Day numbers and valid dates correspond one to one: `DateOf` undoes
      `DayNumber` (and `DateOf`'s own contract gives the other direction). */
  lemma DateOfDayNumber(d: Date)
    requires ValidDate(d)
    ensures DateOf(DayNumber(d)) == d
  {
    DayNumberInjective(DateOf(DayNumber(d)), d);
  }

  /** The calendar day after `d`. */
  function NextDate(d: Date): Date
    requires ValidDate(d)
  {
    if d.day < DaysInMonth(d.year, d.month) then Date(d.year, d.month, d.day + 1)
    else if d.month < 12 then Date(d.year, d.month + 1, 1)
    else Date(d.year + 1, 1, 1)
  }

  lemma NextDateIsNextDay(d: Date)
    requires ValidDate(d)
    ensures ValidDate(NextDate(d)) && DayNumber(NextDate(d)) == DayNumber(d) + 1
  {
    var n := NextDate(d);
    MonthsTileYear(d.year, d.month);
    if d.day < DaysInMonth(d.year, d.month) {
      assert DayOfYear(n) == DayOfYear(d) + 1;
    } else if d.month < 12 {
      assert n == Date(d.year, d.month + 1, 1);
      assert DayOfYear(n) == DaysBeforeMonth(d.year, d.month + 1);
    } else {
      assert n == Date(d.year + 1, 1, 1);
      assert DayOfYear(n) == 0;
      assert DayOfYear(d) == DaysInYear(d.year) - 1;
      YearStartStep(d.year);
    }
  }

  /** Consecutive day numbers are consecutive calendar days. */
  lemma DateOfSuccessor(n: int)
    ensures DateOf(n + 1) == NextDate(DateOf(n))
  {
    var d := DateOf(n);
    NextDateIsNextDay(d);
    DateOfDayNumber(NextDate(d));
  }

  /** A day number no earlier than 1969-01-01 falls in 1969 or later. */
  lemma YearFromDayNumber(n: int)
    requires n >= -365
    ensures DateOf(n).year >= 1969
  {
    var d := DateOf(n);
    assert YearStart(1969) == -365;
    if d.year < 1969 {
      YearStartIncreases(d.year, 1969);
    }
  }

  /** A point in time to the minute; `strftime('%S')` is not part of the format. */
  datatype DateTime = DateTime(date: Date, hour: int, minute: int)

  predicate ValidDateTime(t: DateTime) {
    ValidDate(t.date) && 0 <= t.hour < 24 && 0 <= t.minute < 60
  }

  /** Seconds from the epoch to the first second of the minute `t`. */
  function MinuteStart(t: DateTime): int
    requires ValidDate(t.date)
  {
    DayNumber(t.date) * SECONDS_PER_DAY + t.hour * 3600 + t.minute * 60
  }

  /** The UTC calendar date, hour and minute of `s` seconds after the epoch:
      the minute that contains `s`. */
  function UtcDateTime(s: int): (t: DateTime)
    ensures ValidDateTime(t)
    ensures MinuteStart(t) <= s < MinuteStart(t) + 60
  {
    var secondOfDay := s % SECONDS_PER_DAY;
    DateTime(DateOf(s / SECONDS_PER_DAY), secondOfDay / 3600, secondOfDay % 3600 / 60)
  }

  lemma MinuteStartInjective(a: DateTime, b: DateTime)
    requires ValidDateTime(a) && ValidDateTime(b) && MinuteStart(a) == MinuteStart(b)
    ensures a == b
  {
    DayNumberInjective(a.date, b.date);
  }

  /** The minute containing `s` starts at the last multiple of 60 not after `s`. */
  lemma MinuteStartOf(t: DateTime, s: int)
    requires ValidDateTime(t) && MinuteStart(t) <= s < MinuteStart(t) + 60
    ensures MinuteStart(t) == s / 60 * 60
  {
    var q := DayNumber(t.date) * 1440 + t.hour * 60 + t.minute;
    assert MinuteStart(t) == q * 60;
    assert q == s / 60;
  }

  /** Two instants in the same minute break down to the same date and time. */
  lemma SameMinuteSameDateTime(s1: int, s2: int)
    requires s1 / 60 == s2 / 60
    ensures UtcDateTime(s1) == UtcDateTime(s2)
  {
    var a, b := UtcDateTime(s1), UtcDateTime(s2);
    MinuteStartOf(a, s1);
    MinuteStartOf(b, s2);
    MinuteStartInjective(a, b);
  }

  /** One day later is the next calendar day at the same hour and minute. */
  lemma OneDayLater(s: int)
    ensures var t := UtcDateTime(s);
            UtcDateTime(s + SECONDS_PER_DAY) == DateTime(NextDate(t.date), t.hour, t.minute)
  {
    assert (s + SECONDS_PER_DAY) / SECONDS_PER_DAY == s / SECONDS_PER_DAY + 1;
    assert (s + SECONDS_PER_DAY) % SECONDS_PER_DAY == s % SECONDS_PER_DAY;
    DateOfSuccessor(s / SECONDS_PER_DAY);
  }

  /** `strftime('%d.%m.%Y, %H:%M')`. */
  function Format(t: DateTime): string
    requires ValidDateTime(t)
  {
    Pad2(t.date.day) + "." + Pad2(t.date.month) + "." + IntToString(t.date.year)
      + ", " + Pad2(t.hour) + ":" + Pad2(t.minute)
  }

  /** The text of `s` seconds after the epoch, read on a UTC clock. */
  function Render(s: int): string {
    Format(UtcDateTime(s))
  }

  /** Seconds are not rendered. */
  lemma SameMinuteSameRender(s1: int, s2: int)
    requires s1 / 60 == s2 / 60
    ensures Render(s1) == Render(s2)
  {
    SameMinuteSameDateTime(s1, s2);
  }

  /** One day later renders as the next date at the same time of day. */
  lemma RenderNextDay(s: int)
    ensures var t := UtcDateTime(s);
            Render(s + SECONDS_PER_DAY) == Format(DateTime(NextDate(t.date), t.hour, t.minute))
  {
    OneDayLater(s);
  }

  /** `DD.MM.YYYY, HH:MM`: five digit fields and their fixed separators. */
  predicate HasRenderedShape(r: string) {
    && |r| == 17
    && r[2] == '.' && r[5] == '.' && r[10] == ',' && r[11] == ' ' && r[14] == ':'
    && AllDigits(r[0..2]) && AllDigits(r[3..5]) && AllDigits(r[6..10])
    && AllDigits(r[12..14]) && AllDigits(r[15..17])
  }

  /** Reads the fields back out of a rendered timestamp. */
  function ParseRendered(r: string): DateTime
    requires HasRenderedShape(r)
  {
    DateTime(Date(DigitsValue(r[6..10]), DigitsValue(r[3..5]), DigitsValue(r[0..2])),
             DigitsValue(r[12..14]), DigitsValue(r[15..17]))
  }

  /** Where the five fields sit in `DD.MM.YYYY, HH:MM`. */
  lemma RenderedFields(day: string, month: string, year: string, hour: string, minute: string)
    requires |day| == 2 && |month| == 2 && |year| == 4 && |hour| == 2 && |minute| == 2
    ensures var r := day + "." + month + "." + year + ", " + hour + ":" + minute;
            |r| == 17 && r[2] == '.' && r[5] == '.' && r[10] == ',' && r[11] == ' ' && r[14] == ':'
            && r[0..2] == day && r[3..5] == month && r[6..10] == year
            && r[12..14] == hour && r[15..17] == minute
  {
  }

  /** For four-digit years the rendering has the fixed shape and its fields
      read back as the date and time it was made from. */
  lemma RenderRoundTrip(s: int)
    requires 1000 <= UtcDateTime(s).date.year <= 9999
    ensures HasRenderedShape(Render(s))
    ensures ParseRendered(Render(s)) == UtcDateTime(s)
  {
    var t := UtcDateTime(s);
    var year := NatToString(t.date.year);
    FourDigitNumeral(t.date.year);
    NatToStringRoundTrip(t.date.year);
    RenderedFields(Pad2(t.date.day), Pad2(t.date.month), year, Pad2(t.hour), Pad2(t.minute));
  }
}
