/** The part of Python's `datetime` the feed builder uses: proleptic Gregorian
    dates, adding a non-negative number of seconds to a naive datetime (which
    raises OverflowError past the year 9999), and `strftime` with English day
    and month names. */
module Calendar {
  import opened Wrappers
  import opened Text

  const MaxYear := 9999

  predicate IsLeap(y: int) {
    y % 4 == 0 && (y % 100 != 0 || y % 400 == 0)
  }

  function DaysInYear(y: int): nat {
    if IsLeap(y) then 366 else 365
  }

  function DaysInMonth(y: int, m: int): nat
    requires 1 <= m <= 12
  {
    if m == 2 then (if IsLeap(y) then 29 else 28)
    else if m == 4 || m == 6 || m == 9 || m == 11 then 30
    else 31
  }

  /** Days in the months of year `y` that come before month `m`. */
  function DaysBeforeMonth(y: int, m: int): nat
    requires 1 <= m <= 13
    decreases m
  {
    if m == 1 then 0 else DaysBeforeMonth(y, m - 1) + DaysInMonth(y, m - 1)
  }

  lemma DaysBeforeMonthOfYear(y: int)
    ensures DaysBeforeMonth(y, 13) == DaysInYear(y)
  {
    assert DaysBeforeMonth(y, 13) == DaysBeforeMonth(y, 12) + 31;
    assert DaysBeforeMonth(y, 12) == DaysBeforeMonth(y, 11) + 30;
    assert DaysBeforeMonth(y, 11) == DaysBeforeMonth(y, 10) + 31;
    assert DaysBeforeMonth(y, 10) == DaysBeforeMonth(y, 9) + 30;
    assert DaysBeforeMonth(y, 9) == DaysBeforeMonth(y, 8) + 31;
    assert DaysBeforeMonth(y, 8) == DaysBeforeMonth(y, 7) + 31;
    assert DaysBeforeMonth(y, 7) == DaysBeforeMonth(y, 6) + 30;
    assert DaysBeforeMonth(y, 6) == DaysBeforeMonth(y, 5) + 31;
    assert DaysBeforeMonth(y, 5) == DaysBeforeMonth(y, 4) + 30;
    assert DaysBeforeMonth(y, 4) == DaysBeforeMonth(y, 3) + 31;
  }

  lemma {:induction false} DaysBeforeMonthMono(y: int, m1: int, m2: int)
    requires 1 <= m1 <= m2 <= 13
    ensures DaysBeforeMonth(y, m1) <= DaysBeforeMonth(y, m2)
    decreases m2
  {
    if m1 < m2 {
      DaysBeforeMonthMono(y, m1, m2 - 1);
    }
  }

  /** Days from 0001-01-01 to the first of January of year `y`, in closed form. */
  function DaysBeforeYear(y: int): int
    requires y >= 1
  {
    var k := y - 1;
    365 * k + k / 4 - k / 100 + k / 400
  }

  lemma DivStep4(k: int)
    requires k >= 0
    ensures (k + 1) / 4 == k / 4 + (if (k + 1) % 4 == 0 then 1 else 0)
  {
  }

  lemma DivStep100(k: int)
    requires k >= 0
    ensures (k + 1) / 100 == k / 100 + (if (k + 1) % 100 == 0 then 1 else 0)
  {
  }

  lemma DivStep400(k: int)
    requires k >= 0
    ensures (k + 1) / 400 == k / 400 + (if (k + 1) % 400 == 0 then 1 else 0)
  {
  }

  /** A multiple of 400 is one of 100, and a multiple of 100 is one of 4. */
  lemma ModFactors(y: int)
    requires y >= 1
    ensures y % 400 == 0 ==> y % 100 == 0
    ensures y % 100 == 0 ==> y % 4 == 0
  {
    Mod400(y);
    Mod100(y);
  }

  lemma Mod400(y: int)
    requires y >= 1
    ensures y % 100 == (y % 400) % 100
  {
    var q := y / 400;
    var r := y % 400;
    assert y == 100 * (4 * q) + r;
    assert y / 100 == 4 * q + r / 100;
  }

  lemma Mod100(y: int)
    requires y >= 1
    ensures y % 4 == (y % 100) % 4
  {
    var q := y / 100;
    var r := y % 100;
    assert y == 4 * (25 * q) + r;
    assert y / 4 == 25 * q + r / 4;
  }

  lemma DaysBeforeYearStep(y: int)
    requires y >= 1
    ensures DaysBeforeYear(y + 1) == DaysBeforeYear(y) + DaysInYear(y)
  {
    var k := y - 1;
    DivStep4(k);
    DivStep100(k);
    DivStep400(k);
    ModFactors(y);
    var a := if y % 4 == 0 then 1 else 0;
    var b := if y % 100 == 0 then 1 else 0;
    var c := if y % 400 == 0 then 1 else 0;
    assert DaysBeforeYear(y + 1) == DaysBeforeYear(y) + 365 + a - b + c;
    assert DaysInYear(y) == 365 + a - b + c;
  }

  lemma {:induction false} DaysBeforeYearMono(y1: int, y2: int)
    requires 1 <= y1 < y2
    ensures DaysBeforeYear(y1) + DaysInYear(y1) <= DaysBeforeYear(y2)
    decreases y2 - y1
  {
    DaysBeforeYearStep(y1);
    if y1 + 1 < y2 {
      DaysBeforeYearMono(y1 + 1, y2);
      DaysBeforeYearStep(y1 + 1);
    }
  }

  /** `date.toordinal()`: 0001-01-01 is day 1. */
  function Ordinal(y: int, m: int, d: int): int
    requires y >= 1 && 1 <= m <= 12
  {
    DaysBeforeYear(y) + DaysBeforeMonth(y, m) + d
  }

  /** A naive `datetime` (no time zone, no microseconds). */
  datatype DateTime = DateTime(year: int, month: int, day: int,
                               hour: int, minute: int, second: int)

  predicate Valid(t: DateTime) {
    1 <= t.year && 1 <= t.month <= 12 && 1 <= t.day <= DaysInMonth(t.year, t.month) &&
    0 <= t.hour < 24 && 0 <= t.minute < 60 && 0 <= t.second < 60
  }

  /** Valid and not past `datetime.max`. */
  predicate InRange(t: DateTime) {
    Valid(t) && t.year <= MaxYear
  }

  /** `datetime.min`. */
  const Min := DateTime(1, 1, 1, 0, 0, 0)

  function SecondOfDay(t: DateTime): int {
    t.hour * 3600 + t.minute * 60 + t.second
  }

  /** Seconds from `datetime.min` to `t`. */
  function Instant(t: DateTime): int
    requires Valid(t)
  {
    (Ordinal(t.year, t.month, t.day) - 1) * 86400 + SecondOfDay(t)
  }

  /** Seconds from `datetime.min` to the first instant past `datetime.max`,
      that is to 10000-01-01 00:00:00. */
  const Limit := 315537897600

  lemma LimitDays()
    ensures Limit == DaysBeforeYear(MaxYear + 1) * 86400
  {
    assert DaysBeforeYear(MaxYear + 1) == 3652059;
  }

  /** Chronological order, read field by field. */
  predicate Before(a: DateTime, b: DateTime) {
    a.year < b.year ||
    (a.year == b.year && (a.month < b.month ||
    (a.month == b.month && (a.day < b.day ||
    (a.day == b.day && (a.hour < b.hour ||
    (a.hour == b.hour && (a.minute < b.minute ||
    (a.minute == b.minute && a.second < b.second)))))))))
  }

  /** The ordinal of a day lies within its year. */
  lemma OrdinalWithinYear(y: int, m: int, d: int)
    requires y >= 1 && 1 <= m <= 12 && 1 <= d <= DaysInMonth(y, m)
    ensures DaysBeforeYear(y) < Ordinal(y, m, d) <= DaysBeforeYear(y) + DaysInYear(y)
  {
    DaysBeforeMonthMono(y, m + 1, 13);
    DaysBeforeMonthOfYear(y);
  }

  lemma OrdinalBefore(a: DateTime, b: DateTime)
    requires Valid(a) && Valid(b)
    requires a.year < b.year || (a.year == b.year && (a.month < b.month ||
             (a.month == b.month && a.day < b.day)))
    ensures Ordinal(a.year, a.month, a.day) < Ordinal(b.year, b.month, b.day)
  {
    if a.year < b.year {
      OrdinalWithinYear(a.year, a.month, a.day);
      OrdinalWithinYear(b.year, b.month, b.day);
      DaysBeforeYearMono(a.year, b.year);
    } else if a.month < b.month {
      DaysBeforeMonthMono(a.year, a.month + 1, b.month);
    }
  }

  lemma InstantBefore(a: DateTime, b: DateTime)
    requires Valid(a) && Valid(b) && Before(a, b)
    ensures Instant(a) < Instant(b)
  {
    if a.year < b.year || (a.year == b.year && (a.month < b.month ||
       (a.month == b.month && a.day < b.day))) {
      OrdinalBefore(a, b);
    }
  }

  /** Comparing instants is comparing the fields in order. */
  lemma InstantOrder(a: DateTime, b: DateTime)
    requires Valid(a) && Valid(b)
    ensures Instant(a) < Instant(b) <==> Before(a, b)
  {
    if Before(a, b) {
      InstantBefore(a, b);
    } else if Before(b, a) {
      InstantBefore(b, a);
    } else {
      assert a == b;
    }
  }

  /** Two valid datetimes at the same instant are the same datetime. */
  lemma InstantInjective(a: DateTime, b: DateTime)
    requires Valid(a) && Valid(b) && Instant(a) == Instant(b)
    ensures a == b
  {
    InstantOrder(a, b);
    InstantOrder(b, a);
  }

  /** A valid datetime is representable exactly when it comes before `Limit`. */
  lemma InstantBelowLimit(t: DateTime)
    requires Valid(t)
    ensures t.year <= MaxYear <==> Instant(t) < Limit
  {
    LimitDays();
    OrdinalWithinYear(t.year, t.month, t.day);
    if t.year <= MaxYear {
      DaysBeforeYearStep(t.year);
      if t.year < MaxYear {
        DaysBeforeYearMono(t.year + 1, MaxYear + 1);
      }
    } else if t.year > MaxYear + 1 {
      DaysBeforeYearMono(MaxYear + 1, t.year);
    }
  }

  /** Month and day of the day `doy` days after the first of January of `y`,
      searching from month `m` on. */
  function MonthDay(y: int, doy: nat, m: int): (r: (int, int))
    requires 1 <= m <= 12 && DaysBeforeMonth(y, m) <= doy < DaysInYear(y)
    ensures m <= r.0 <= 12 && 1 <= r.1 <= DaysInMonth(y, r.0)
    ensures DaysBeforeMonth(y, r.0) + r.1 - 1 == doy
    decreases 12 - m
  {
    DaysBeforeMonthOfYear(y);
    if doy < DaysBeforeMonth(y, m + 1) then (m, doy - DaysBeforeMonth(y, m) + 1)
    else MonthDay(y, doy, m + 1)
  }

  /** The date `days` days after the first of January of `y`. */
  function YearMonthDay(y: int, days: nat): (r: (int, int, int))
    requires y >= 1
    ensures r.0 >= y && 1 <= r.1 <= 12 && 1 <= r.2 <= DaysInMonth(r.0, r.1)
    ensures Ordinal(r.0, r.1, r.2) == DaysBeforeYear(y) + days + 1
    decreases days
  {
    if days < DaysInYear(y) then
      var md := MonthDay(y, days, 1);
      (y, md.0, md.1)
    else
      DaysBeforeYearStep(y);
      YearMonthDay(y + 1, days - DaysInYear(y))
  }

  lemma SplitSecondOfDay(s: int)
    requires 0 <= s < 86400
    ensures 0 <= s / 3600 < 24 && 0 <= s / 60 % 60 < 60 && 0 <= s % 60 < 60
    ensures (s / 3600) * 3600 + (s / 60 % 60) * 60 + s % 60 == s
  {
  }

  lemma DivideDays(total: int)
    requires total >= 0
    ensures (total / 86400) * 86400 + total % 86400 == total
  {
  }

  /** The datetime `delta` seconds after `t`, with no upper bound on the year. */
  function Advance(t: DateTime, delta: nat): (u: DateTime)
    requires InRange(t)
    ensures Valid(u) && u.year >= t.year
  {
    var total := SecondOfDay(t) + delta;
    var s := total % 86400;
    var ymd := YearMonthDay(t.year, DaysBeforeMonth(t.year, t.month) + t.day - 1 + total / 86400);
    DateTime(ymd.0, ymd.1, ymd.2, s / 3600, s / 60 % 60, s % 60)
  }

  lemma AdvanceInstant(t: DateTime, delta: nat)
    requires InRange(t)
    ensures Instant(Advance(t, delta)) == Instant(t) + delta
  {
    var total := SecondOfDay(t) + delta;
    SplitSecondOfDay(total % 86400);
    DivideDays(total);
  }

  /** `t + timedelta(seconds=delta)`; `None` stands for the OverflowError raised
      when the sum is past `datetime.max`. */
  function AddSeconds(t: DateTime, delta: nat): (r: Option<DateTime>)
    requires InRange(t)
    ensures r.Some? <==> Instant(t) + delta < Limit
    ensures r.Some? ==> InRange(r.value) && r.value.year >= t.year
    ensures r.Some? ==> Instant(r.value) == Instant(t) + delta
  {
    var u := Advance(t, delta);
    AdvanceInstant(t, delta);
    InstantBelowLimit(u);
    if u.year > MaxYear then None else Some(u)
  }

  lemma FirstDay(t: DateTime)
    requires Valid(t) && Ordinal(t.year, t.month, t.day) == 1
    ensures Instant(t) == SecondOfDay(t)
  {
    var o := Ordinal(t.year, t.month, t.day);
    calc {
      Instant(t);
      (o - 1) * 86400 + SecondOfDay(t);
      { assert o - 1 == 0; }
      0 * 86400 + SecondOfDay(t);
    }
  }

  // The facts about the first second of 0001-01-01 are kept in separate small
  // lemmas: stated together, the solver loses its way in the arithmetic.

  predicate IsFirstSecond(t: DateTime) {
    t.year == 1 && t.month == 1 && t.day == 1 && t.hour == 0 && t.minute == 0 && t.second == 0
  }

  lemma FirstSecondValid(t: DateTime)
    requires IsFirstSecond(t)
    ensures Valid(t) && SecondOfDay(t) == 0
  {
  }

  lemma OrdinalOne(y: int, m: int, d: int)
    requires y == 1 && m == 1 && d == 1
    ensures Ordinal(y, m, d) == 1
  {
  }

  lemma FirstSecondInstant(t: DateTime)
    requires IsFirstSecond(t)
    ensures Valid(t) && Instant(t) == 0
  {
    FirstSecondValid(t);
    OrdinalOne(t.year, t.month, t.day);
    FirstDay(t);
  }

  /** `datetime.min` is the zero of the instant scale. */
  lemma MinInstant()
    ensures InRange(Min) && Instant(Min) == 0
  {
    FirstSecondInstant(Min);
  }

  /** The time of day of a datetime is its instant modulo one day. */
  lemma TimeOfDay(t: DateTime)
    requires Valid(t)
    ensures SecondOfDay(t) == Instant(t) % 86400
    ensures t.hour == SecondOfDay(t) / 3600 && t.minute == SecondOfDay(t) / 60 % 60
    ensures t.second == SecondOfDay(t) % 60
  {
    var o := Ordinal(t.year, t.month, t.day);
    OrdinalWithinYear(t.year, t.month, t.day);
    assert DaysBeforeYear(t.year) >= 0 by {
      if t.year > 1 { DaysBeforeYearMono(1, t.year); }
    }
    DayRemainder(o - 1, SecondOfDay(t));
    ClockSplit(t.hour, t.minute, t.second);
  }

  lemma DayRemainder(days: int, s: int)
    requires days >= 0 && 0 <= s < 86400
    ensures (days * 86400 + s) % 86400 == s
  {
  }

  lemma ClockSplit(h: int, m: int, s: int)
    requires 0 <= h < 24 && 0 <= m < 60 && 0 <= s < 60
    ensures (h * 3600 + m * 60 + s) / 3600 == h
    ensures (h * 3600 + m * 60 + s) / 60 % 60 == m
    ensures (h * 3600 + m * 60 + s) % 60 == s
  {
    assert (h * 3600 + m * 60 + s) / 60 == h * 60 + m;
  }

  /** Hours, minutes and seconds of the time of day, read off a whole count of seconds. */
  lemma ClockFields(s: nat)
    ensures (s % 86400) / 3600 == (s / 3600) % 24
    ensures (s % 86400) / 60 % 60 == (s / 60) % 60
    ensures (s % 86400) % 60 == s % 60
  {
    var q, r := s / 86400, s % 86400;
    assert s == 86400 * q + r;
    assert s / 3600 == 24 * q + r / 3600;
    assert s / 60 == 1440 * q + r / 60;
    assert s % 60 == r % 60;
  }

  /** `%a`: Monday is 0, as `date.weekday()` counts. */
  function Weekday(t: DateTime): (w: int)
    requires Valid(t)
    ensures 0 <= w < 7
  {
    (Ordinal(t.year, t.month, t.day) + 6) % 7
  }

  function DayName(w: int): (r: string)
    requires 0 <= w < 7
    ensures |r| == 3
  {
    ["Mon", "Tue", "Wed", "Thu", "Fri", "Sat", "Sun"][w]
  }

  /** `%b` in the C locale. */
  function MonthName(m: int): (r: string)
    requires 1 <= m <= 12
    ensures |r| == 3
  {
    ["Jan", "Feb", "Mar", "Apr", "May", "Jun",
     "Jul", "Aug", "Sep", "Oct", "Nov", "Dec"][m - 1]
  }

  /** The month a `%b` name stands for, 0 for any other text. */
  function MonthNumber(s: string): int {
    if s == "Jan" then 1 else if s == "Feb" then 2 else if s == "Mar" then 3
    else if s == "Apr" then 4 else if s == "May" then 5 else if s == "Jun" then 6
    else if s == "Jul" then 7 else if s == "Aug" then 8 else if s == "Sep" then 9
    else if s == "Oct" then 10 else if s == "Nov" then 11 else if s == "Dec" then 12
    else 0
  }

  lemma MonthNumberOfName(m: int)
    requires 1 <= m <= 12
    ensures MonthNumber(MonthName(m)) == m
  {
  }

  /** Reads `HH:MM:SS` back into its three numbers. */
  function ParseClock(s: string): Option<(int, int, int)> {
    if |s| == 8 && s[2] == ':' && s[5] == ':' &&
       AllDigits(s[..2]) && AllDigits(s[3..5]) && AllDigits(s[6..])
    then Some((DigitsValue(s[..2]), DigitsValue(s[3..5]), DigitsValue(s[6..])))
    else None
  }

  /** `%H:%M:%S` of the given hour, minute and second. */
  function HourMinuteSecond(h: int, m: int, s: int): (r: string)
    requires 0 <= h < 24 && 0 <= m < 60 && 0 <= s < 60
    ensures |r| == 8 && r[2] == ':' && r[5] == ':'
  {
    Pad2(h) + ":" + Pad2(m) + ":" + Pad2(s)
  }

  /** The three numbers read back from `%H:%M:%S` are the ones written. */
  lemma HourMinuteSecondReadsBack(h: int, m: int, s: int)
    requires 0 <= h < 24 && 0 <= m < 60 && 0 <= s < 60
    ensures ParseClock(HourMinuteSecond(h, m, s)) == Some((h, m, s))
  {
    var r := HourMinuteSecond(h, m, s);
    assert r[..2] == Pad2(h) && r[3..5] == Pad2(m) && r[6..] == Pad2(s);
  }

  /** `t.strftime("%H:%M:%S")`. */
  function Clock(t: DateTime): (r: string)
    requires Valid(t)
    ensures |r| == 8 && r[2] == ':' && r[5] == ':'
  {
    HourMinuteSecond(t.hour, t.minute, t.second)
  }

  lemma ClockReadsBack(t: DateTime)
    requires Valid(t)
    ensures ParseClock(Clock(t)) == Some((t.hour, t.minute, t.second))
  {
    HourMinuteSecondReadsBack(t.hour, t.minute, t.second);
  }

  /** Reads a `%a, %d %b %Y %H:%M:%S GMT` text back into a datetime; the day
      name is not read, since the date determines it. */
  function ParseStamp(s: string): Option<DateTime> {
    if |s| == 29 && s[3..5] == ", " && s[7] == ' ' && s[11] == ' ' && s[16] == ' ' &&
       s[25..] == " GMT" && AllDigits(s[5..7]) && AllDigits(s[12..16]) &&
       ParseClock(s[17..25]).Some?
    then
      var c := ParseClock(s[17..25]).value;
      Some(DateTime(DigitsValue(s[12..16]), MonthNumber(s[8..11]), DigitsValue(s[5..7]),
                    c.0, c.1, c.2))
    else None
  }

  /** `t.strftime("%a, %d %b %Y %H:%M:%S GMT")` with English names. */
  function Stamp(t: DateTime): (r: string)
    requires InRange(t) && t.year >= 1000
    ensures |r| == 29
  {
    DayName(Weekday(t)) + ", " + Pad2(t.day) + " " + MonthName(t.month) + " " +
    Fixed(t.year, 4) + " " + Clock(t) + " GMT"
  }

  /** The stamp is a fixed-width text led by the day of the week, and the
      datetime reads back from it. */
  lemma StampReadsBack(t: DateTime)
    requires InRange(t) && t.year >= 1000
    ensures Stamp(t)[..3] == DayName(Weekday(t))
    ensures ParseStamp(Stamp(t)) == Some(t)
  {
    var r := Stamp(t);
    StampSlices(DayName(Weekday(t)), Pad2(t.day), MonthName(t.month), Fixed(t.year, 4), Clock(t));
    MonthNumberOfName(t.month);
    ClockReadsBack(t);
    assert ParseStamp(r) == Some(DateTime(DigitsValue(r[12..16]), MonthNumber(r[8..11]),
      DigitsValue(r[5..7]), t.hour, t.minute, t.second));
  }

  /** Where each field of a stamp sits. */
  lemma StampSlices(a: string, d: string, b: string, y: string, c: string)
    requires |a| == 3 && |d| == 2 && |b| == 3 && |y| == 4 && |c| == 8
    ensures var r := a + ", " + d + " " + b + " " + y + " " + c + " GMT";
      |r| == 29 && r[..3] == a && r[3..5] == ", " && r[5..7] == d && r[7] == ' ' &&
      r[8..11] == b && r[11] == ' ' && r[12..16] == y && r[16] == ' ' &&
      r[17..25] == c && r[25..] == " GMT"
  {
  }
}
