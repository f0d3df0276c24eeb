/** Seconds since 1970 to Gregorian dates and back. */
module Calendar {
  import opened Arithmetic

  const DAY := 86400
  /** TIMEZONE_OFFSET_SECS: decoding is for UTC+2. */
  const OFFSET := 7200
  const TICKS_PER_SECOND := 10_000_000
  const INT_MAX := 0x7FFF_FFFF
  const WORD_LIMIT := 0x1_0000_0000_0000_0000

  datatype DateTime = DateTime(year: int, month: int, day: int, hour: int, minute: int, second: int, weekday: int)

  predicate Leap(year: int) { year % 4 == 0 && (year % 100 != 0 || year % 400 == 0) }

  function YearDays(year: int): int { if Leap(year) then 366 else 365 }

  /** Days of month m, counted from 0. */
  function MonthDays(year: int, m: int): int {
    if m == 1 then (if Leap(year) then 29 else 28) else if m == 3 || m == 5 || m == 8 || m == 10 then 30 else 31
  }

  /** month_days: the table without leap days. */
  function TableDays(m: int): int
    requires 0 <= m < 12
  {
    [31, 28, 31, 30, 31, 30, 31, 31, 30, 31, 30, 31][m]
  }

  /** Days from the start of 1970 to the start of the year. */
  function DaysBefore(year: int): (d: nat)
    decreases year
  {
    if year <= 1970 then 0 else DaysBefore(year - 1) + YearDays(year - 1)
  }

  /** Days from the start of the year to the start of month m. */
  function DaysBeforeMonth(year: int, m: int): (d: nat)
    decreases m
  {
    if m <= 0 then 0 else DaysBeforeMonth(year, m - 1) + MonthDays(year, m - 1)
  }

  /** The number of leap years in 1..year, by the Gregorian rule. */
  function Leaps(year: int): int { year / 4 - year / 100 + year / 400 }

  lemma By4(y: int)
    ensures y / 4 == (y - 1) / 4 + (if y % 4 == 0 then 1 else 0)
  {
  }

  lemma Quotient100(q: int, r: int)
    requires 0 <= r < 100
    ensures (100 * q + r) / 100 == q
  {
  }

  lemma Quotient400(q: int, r: int)
    requires 0 <= r < 400
    ensures (400 * q + r) / 400 == q
  {
  }

  lemma By100(y: int)
    ensures y / 100 == (y - 1) / 100 + (if y % 100 == 0 then 1 else 0) && (y % 100 == 0 ==> y % 4 == 0)
  {
    var q, r := y / 100, y % 100;
    if r == 0 {
      assert y == 4 * (25 * q) + 0;
      Rem4(25 * q, 0);
      assert y - 1 == 100 * (q - 1) + 99;
      Quotient100(q - 1, 99);
    } else {
      assert y - 1 == 100 * q + (r - 1);
      Quotient100(q, r - 1);
    }
  }

  lemma By400(y: int)
    ensures y / 400 == (y - 1) / 400 + (if y % 400 == 0 then 1 else 0) && (y % 400 == 0 ==> y % 100 == 0)
  {
    var q, r := y / 400, y % 400;
    if r == 0 {
      assert y == 100 * (4 * q) + 0;
      Quotient100(4 * q, 0);
      assert y - 1 == 400 * (q - 1) + 399;
      Quotient400(q - 1, 399);
    } else {
      assert y - 1 == 400 * q + (r - 1);
      Quotient400(q, r - 1);
    }
  }

  lemma LeapStep(year: int)
    ensures Leaps(year) == Leaps(year - 1) + (if Leap(year) then 1 else 0)
  {
    By4(year);
    By100(year);
    By400(year);
  }

  /** The leap-year test of the month loops, which is spelled differently from that of the year loops. */
  predicate LeapMonthTest(year: int) { (year % 4 == 0 && year % 100 != 0) || year % 400 == 0 }

  lemma MonthLength(year: int, m: int)
    requires 0 <= m < 12
    ensures MonthDays(year, m) == TableDays(m) + (if m == 1 && LeapMonthTest(year) then 1 else 0)
  {
  }

  /** The year loop adds up to the closed form of the Gregorian calendar. */
  lemma {:induction false} DaysBeforeClosed(year: int)
    requires 1970 <= year
    ensures DaysBefore(year) == 365 * (year - 1970) + Leaps(year - 1) - Leaps(1969)
  {
    if year > 1970 {
      DaysBeforeClosed(year - 1);
      LeapStep(year - 1);
    }
  }

  lemma MonthsFillYear(year: int)
    ensures DaysBeforeMonth(year, 12) == YearDays(year)
  {
  }

  // ---------------------------------------------------------------- dates and the order of time

  predicate Valid(d: DateTime) {
    && 1970 <= d.year && 1 <= d.month <= 12 && 1 <= d.day <= MonthDays(d.year, d.month - 1)
    && 0 <= d.hour < 24 && 0 <= d.minute < 60 && 0 <= d.second < 60
  }

  function DayNumber(d: DateTime): int {
    DaysBefore(d.year) + DaysBeforeMonth(d.year, d.month - 1) + d.day - 1
  }

  function Seconds(d: DateTime): int {
    DayNumber(d) * DAY + d.hour * 3600 + d.minute * 60 + d.second
  }

  /** The order of the six fields. */
  predicate Before(a: DateTime, b: DateTime) {
    if a.year != b.year then a.year < b.year
    else if a.month != b.month then a.month < b.month
    else if a.day != b.day then a.day < b.day
    else if a.hour != b.hour then a.hour < b.hour
    else if a.minute != b.minute then a.minute < b.minute
    else a.second < b.second
  }

  predicate SameTime(a: DateTime, b: DateTime) { a == b.(weekday := a.weekday) }

  lemma {:induction false} LaterYear(y: int, y': int)
    requires 1970 <= y < y'
    ensures DaysBefore(y) + YearDays(y) <= DaysBefore(y')
    decreases y'
  {
    if y + 1 < y' { LaterYear(y, y' - 1); }
  }

  lemma {:induction false} LaterMonth(year: int, m: int, m': int)
    requires 0 <= m < m'
    ensures DaysBeforeMonth(year, m) + MonthDays(year, m) <= DaysBeforeMonth(year, m')
    decreases m'
  {
    if m + 1 < m' { LaterMonth(year, m, m' - 1); }
  }

  lemma DayInYear(d: DateTime)
    requires Valid(d)
    ensures DaysBefore(d.year) <= DayNumber(d) < DaysBefore(d.year) + YearDays(d.year)
  {
    MonthsFillYear(d.year);
    if d.month < 12 { LaterMonth(d.year, d.month - 1, 12); }
  }

  /** Seconds and calendar dates have the same order: the encoding is strictly increasing in the six fields, so no
      two dates share an encoding. */
  lemma Monotone(a: DateTime, b: DateTime)
    requires Valid(a) && Valid(b)
    ensures Before(a, b) <==> Seconds(a) < Seconds(b)
    ensures SameTime(a, b) <==> Seconds(a) == Seconds(b)
  {
    if Before(a, b) { Increasing(a, b); }
    if Before(b, a) { Increasing(b, a); }
  }

  lemma EarlierDay(a: DateTime, b: DateTime)
    requires Valid(a) && Valid(b) && Before(a, b)
    ensures DayNumber(a) < DayNumber(b) || (DayNumber(a) == DayNumber(b) && a.year == b.year && a.month == b.month && a.day == b.day)
  {
    DayInYear(a);
    DayInYear(b);
    if a.year < b.year {
      LaterYear(a.year, b.year);
    } else if a.month < b.month {
      LaterMonth(a.year, a.month - 1, b.month - 1);
    }
  }

  lemma Increasing(a: DateTime, b: DateTime)
    requires Valid(a) && Valid(b) && Before(a, b)
    ensures Seconds(a) < Seconds(b)
  {
    hide DayNumber, MonthDays;
    EarlierDay(a, b);
  }

  // ---------------------------------------------------------------- decoding

  /** The year that contains day number n, counted from year y on. */
  function YearAt(n: nat, y: int): int
    decreases n
  {
    if n < YearDays(y) then y else YearAt(n - YearDays(y), y + 1)
  }

  /** The month of the given year that contains day n of the year, searched from month m on. */
  function MonthAt(n: nat, year: int, m: int): int
    decreases n
  {
    if n < MonthDays(year, m) then m else MonthAt(n - MonthDays(year, m), year, m + 1)
  }

  /** The date of second t. */
  function Decode(t: nat): DateTime {
    var n, s := t / DAY, t % DAY;
    var year := YearAt(n, 1970);
    var rest := n - DaysBefore(year);
    var m := if rest >= 0 then MonthAt(rest, year, 0) else 0;
    DateTime(year, m + 1, rest - DaysBeforeMonth(year, m) + 1, s / 3600 % 24, s / 60 % 60, s % 60, (n + 4) % 7)
  }

  lemma {:induction false} YearFound(n: nat, y: int)
    requires 1970 <= y
    ensures var r := YearAt(n, y); y <= r && DaysBefore(r) <= DaysBefore(y) + n < DaysBefore(r) + YearDays(r)
    decreases n
  {
    if n >= YearDays(y) {
      YearFound(n - YearDays(y), y + 1);
    }
  }

  /** The month loop stops before it runs off the table. */
  lemma {:induction false} MonthFound(n: nat, year: int, m: int)
    requires 0 <= m < 12 && DaysBeforeMonth(year, m) + n < YearDays(year)
    ensures var r := MonthAt(n, year, m);
            m <= r < 12 && DaysBeforeMonth(year, r) <= DaysBeforeMonth(year, m) + n < DaysBeforeMonth(year, r) + MonthDays(year, r)
    decreases n
  {
    if n >= MonthDays(year, m) {
      MonthsFillYear(year);
      assert DaysBeforeMonth(year, m + 1) == DaysBeforeMonth(year, m) + MonthDays(year, m);
      if m < 11 { MonthFound(n - MonthDays(year, m), year, m + 1); }
    }
  }

  lemma Clock(s: int)
    requires 0 <= s < DAY
    ensures s / 3600 % 24 == s / 3600 < 24 && s / 3600 * 3600 + s / 60 % 60 * 60 + s % 60 == s
  {
  }

  /** Every second has a valid date, and encoding that date gives the second back. */
  lemma DecodeThenEncode(t: nat)
    ensures Valid(Decode(t)) && Seconds(Decode(t)) == t
  {
    var n, year := t / DAY, YearAt(t / DAY, 1970);
    YearFound(n, 1970);
    MonthFound(n - DaysBefore(year), year, 0);
    Clock(t % DAY);
    assert DayNumber(Decode(t)) == n;
  }

  /** Every valid date from 1970 on survives encoding and decoding. */
  lemma EncodeThenDecode(d: DateTime)
    requires Valid(d)
    ensures Seconds(d) >= 0 && SameTime(Decode(Seconds(d)), d)
  {
    DayInYear(d);
    DecodeThenEncode(Seconds(d));
    Monotone(Decode(Seconds(d)), d);
  }

  // ---------------------------------------------------------------- weekdays

  /** Sakamoto's congruence for the day of the week, 0 being Sunday. */
  function WeekdayOf(year: int, month: int, day: int): int
    requires 1 <= month <= 12
  {
    var y := if month < 3 then year - 1 else year;
    (y + Leaps(y) + [0, 3, 2, 5, 0, 3, 5, 1, 4, 6, 2, 4][month - 1] + day) % 7
  }

  /** Where the month starts, modulo seven. */
  lemma MonthStart(year: int, month: int) returns (k: int)
    requires 1 <= month <= 12
    ensures var leap := if Leap(year) && month > 2 then 1 else 0;
            DaysBeforeMonth(year, month - 1) == leap + [0, 3, 2, 5, 0, 3, 5, 1, 4, 6, 2, 4][month - 1] + (if month < 3 then 0 else 1) + 7 * k
  {
    var leap := if Leap(year) then 1 else 0;
    assert DaysBeforeMonth(year, 1) == 31 && DaysBeforeMonth(year, 2) == 59 + leap;
    if month > 3 {
      assert DaysBeforeMonth(year, 3) == 90 + leap;
      if month > 6 {
        assert DaysBeforeMonth(year, 5) == 151 + leap;
        assert DaysBeforeMonth(year, 7) == 212 + leap;
        if month > 9 { assert DaysBeforeMonth(year, 9) == 273 + leap; }
      }
    }
    k := [0, 4, 8, 12, 17, 21, 25, 30, 34, 38, 43, 47][month - 1];
  }

  lemma SameMod7(a: int, b: int, k: int)
    requires a == b + 7 * k
    ensures a % 7 == b % 7
  {
  }

  lemma LeapsBefore1970()
    ensures Leaps(1969) == 477
  {
  }

  /** The number of the day and the congruence differ by whole weeks. */
  lemma WholeWeeks(d: DateTime) returns (weeks: int)
    requires Valid(d)
    ensures var y := if d.month < 3 then d.year - 1 else d.year;
            DayNumber(d) + 4 == y + Leaps(y) + [0, 3, 2, 5, 0, 3, 5, 1, 4, 6, 2, 4][d.month - 1] + d.day + 7 * weeks
  {
    hide DaysBefore, DaysBeforeMonth, MonthDays, YearDays, Leaps, Leap;
    DaysBeforeClosed(d.year);
    LeapStep(d.year);
    LeapsBefore1970();
    var k := MonthStart(d.year, d.month);
    weeks := 52 * (d.year - 1970) - 349 + k;
  }

  /** The days before a month, in closed form: the months have 31, 28 or 29, 31, 30, 31, 30, 31, 31, 30, 31, 30 and 31 days. */
  lemma MonthClosed(year: int, month: int)
    requires 1 <= month <= 12
    ensures DaysBeforeMonth(year, month - 1) == (367 * month - 362) / 12 - LeapFix(year, month)
    ensures 28 <= MonthDays(year, month - 1) <= 31
  {
    var feb := if Leap(year) then 29 else 28;
    assert DaysBeforeMonth(year, 1) == 31 && DaysBeforeMonth(year, 2) == 31 + feb;
    if month > 3 {
      assert DaysBeforeMonth(year, 3) == 62 + feb;
      if month > 6 {
        assert DaysBeforeMonth(year, 5) == 123 + feb;
        assert DaysBeforeMonth(year, 7) == 184 + feb;
        if month > 9 { assert DaysBeforeMonth(year, 9) == 245 + feb; }
      }
    }
  }

  /** From March on the closed form counts February with 30 days. */
  function LeapFix(year: int, month: int): int {
    if month <= 2 then 0 else if year % 4 == 0 && (year % 100 != 0 || year % 400 == 0) then 1 else 2
  }

  /** The whole encoding in closed form, without loops or tables. */
  lemma SecondsClosed(d: DateTime)
    requires 1970 <= d.year && 1 <= d.month <= 12
    ensures var y := d.year - 1;
            var days := 365 * (d.year - 1970) + (y / 4 - y / 100 + y / 400 - 477) + ((367 * d.month - 362) / 12 - LeapFix(d.year, d.month)) + d.day - 1;
            Seconds(d) == 86400 * days + 3600 * d.hour + 60 * d.minute + d.second
  {
    hide DaysBefore, DaysBeforeMonth, Leap, LeapFix;
    DaysBeforeClosed(d.year);
    LeapsBefore1970();
    MonthClosed(d.year, d.month);
  }

  /** 1 January 1970 was a Thursday. */
  lemma EpochIsThursday()
    ensures Decode(0) == DateTime(1970, 1, 1, 0, 0, 0, 4) && WeekdayOf(1970, 1, 1) == 4
  {
  }

  /** Counting days from a Thursday gives the weekday of the Gregorian calendar. */
  lemma WeekdayRight(d: DateTime)
    requires Valid(d)
    ensures (DayNumber(d) + 4) % 7 == WeekdayOf(d.year, d.month, d.day)
  {
    hide DayNumber, MonthDays, Leaps, Leap;
    var weeks := WholeWeeks(d);
    var y := if d.month < 3 then d.year - 1 else d.year;
    SameMod7(DayNumber(d) + 4, y + Leaps(y) + [0, 3, 2, 5, 0, 3, 5, 1, 4, 6, 2, 4][d.month - 1] + d.day, weeks);
  }

  // ---------------------------------------------------------------- the code

  /** compute_epoch. The bounds are those of the table and of int arithmetic; the result wraps at 64 bits. */
  method ComputeEpoch(year: int, month: int, day: int, hour: int, minute: int, second: int) returns (e: int)
    requires month <= 13 && -INT_MAX <= hour * 3600 <= INT_MAX && -INT_MAX <= minute * 60 <= INT_MAX
    ensures e == Seconds(DateTime(year, month, day, hour, minute, second, 0)) % 0x1_0000_0000_0000_0000
  {
    var days := 0;
    for y := 1970 to (if year < 1970 then 1970 else year)
      invariant days == DaysBefore(y)
    {
      days := days + if Leap(y) then 366 else 365;
    }
    for m := 0 to (if month < 1 then 0 else month - 1)
      invariant days == DaysBefore(year) + DaysBeforeMonth(year, m)
    {
      MonthLength(year, m);
      days := days + TableDays(m);
      if m == 1 && LeapMonthTest(year) {
        days := days + 1;
      }
    }
    days := days + day - 1;
    e := (days * DAY + hour * 3600 + minute * 60 + second) % WORD_LIMIT;
  }

  /** The year loop: the year a day falls in, and the day's place in that year. */
  method FindYear(n: nat) returns (year: int, days: nat)
    ensures year == YearAt(n, 1970) && n == DaysBefore(year) + days && days < YearDays(year) && 1970 <= year
  {
    year, days := 1970, n;
    while true
      invariant 1970 <= year && n == DaysBefore(year) + days && YearAt(n, 1970) == YearAt(days, year)
      decreases days
    {
      var daysInYear := if Leap(year) then 366 else 365;
      if days < daysInYear { break; }
      days := days - daysInYear;
      year := year + 1;
    }
  }

  /** The month loop: every access to the month table is in bounds. */
  method FindMonth(year: int, n: nat) returns (month: int, days: nat)
    requires n < YearDays(year)
    ensures month == MonthAt(n, year, 0) && 0 <= month < 12 && n == DaysBeforeMonth(year, month) + days
  {
    month, days := 0, n;
    while true
      invariant 0 <= month < 12 && n == DaysBeforeMonth(year, month) + days
      invariant MonthAt(n, year, 0) == MonthAt(days, year, month)
      decreases days
    {
      MonthLength(year, month);
      MonthFound(days, year, month);
      var dim := TableDays(month);
      if month == 1 && LeapMonthTest(year) { dim := dim + 1; }
      if days < dim { break; }
      days := days - dim;
      month := month + 1;
    }
  }

  /** compute_datetime_from_epoch, for an epoch whose year fits an int. */
  method ComputeDatetimeFromEpoch(epoch: nat) returns (dt: DateTime)
    requires epoch + OFFSET < DaysBefore(INT_MAX + 1) * DAY && epoch + OFFSET < WORD_LIMIT
    ensures dt == Decode(epoch + OFFSET) && dt.year <= INT_MAX
    ensures Valid(dt) && Seconds(dt) == epoch + 7200 && dt.weekday == WeekdayOf(dt.year, dt.month, dt.day)
  {
    var e := epoch + OFFSET;
    var n, secs := e / DAY, e % DAY;
    var year, rest := FindYear(n);
    var month, days := FindMonth(year, rest);
    if year > INT_MAX { NoLaterYear(INT_MAX + 1, year); }
    dt := DateTime(year, month + 1, days + 1, secs / 3600 % 24, secs / 60 % 60, secs % 60, (e / DAY + 4) % 7);
    DecodedWeekday(e);
  }

  lemma DecodedWeekday(t: nat)
    ensures Valid(Decode(t)) && Seconds(Decode(t)) == t
    ensures Decode(t).weekday == WeekdayOf(Decode(t).year, Decode(t).month, Decode(t).day)
  {
    DecodeThenEncode(t);
    WeekdayRight(Decode(t));
    DayOfSecond(Decode(t), t);
  }

  lemma DayOfSecond(d: DateTime, t: nat)
    requires Valid(d) && Seconds(d) == t
    ensures DayNumber(d) == t / DAY
  {
  }

  lemma NoLaterYear(y: int, y': int)
    requires 1970 <= y <= y'
    ensures DaysBefore(y) <= DaysBefore(y')
  {
  }

  /** compute_datetime, for the time the kernel was built: the clock shows the build time, plus the seconds since
      boot, plus the offset. */
  method ComputeDatetime(ticks: nat, build: DateTime) returns (dt: DateTime)
    requires Valid(build)
    requires var t := Seconds(build) + ticks / TICKS_PER_SECOND + OFFSET; t < DaysBefore(INT_MAX + 1) * DAY && t < WORD_LIMIT
    ensures Valid(dt) && Seconds(dt) == Seconds(build) + ticks / 10_000_000 + 7200
    ensures dt.weekday == WeekdayOf(dt.year, dt.month, dt.day)
  {
    DayInYear(build);
    var base := ComputeEpoch(build.year, build.month, build.day, build.hour, build.minute, build.second);
    assert Seconds(build.(weekday := 0)) == Seconds(build);
    assert base == Seconds(build);
    var epoch := base + ticks / TICKS_PER_SECOND;
    dt := ComputeDatetimeFromEpoch(epoch);
  }
}
