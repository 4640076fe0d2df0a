/**
  Broken-down UTC time: muduo/base/TimeZone.cc:76-82 and 322-363 over the day
  numbers of muduo/base/Date.cc.
*/
module UtcTime {
  import opened Calendar

  datatype Tm = Tm(sec: int, min: int, hour: int, mday: int, mon: int, year: int, wday: int, yday: int)

  const SECONDS_PER_DAY: int := 24 * 60 * 60

  /** Date.cc:44. */
  const EPOCH_DAY: int := JulianDayNumber(1970, 1, 1)

  /** Date.h, weekDay(): 0 is Sunday. */
  function WeekDay(julianDayNumber: int): int {
    Rem(julianDayNumber + 1, 7)
  }

  /** The broken-down form of second s of day j. */
  function Broken(j: int, s: int, yday: bool): Tm {
    var d := YearMonthDay(j);
    Tm(s % 60, s / 60 % 60, s / 60 / 60, d.day, d.month - 1, d.year - 1900, WeekDay(j),
       if yday then j - JulianDayNumber(d.year, 1, 1) else 0)
  }

  /** The first second that the day numbers reach. */
  const FIRST_SECOND: int := (FIRST_DAY - EPOCH_DAY) * SECONDS_PER_DAY

  /** TimeZone.cc:322-348, with the truncating remainder corrected for times before 1970. */
  method ToUtcTime(secondsSinceEpoch: int, yday: bool) returns (utc: Tm)
    ensures utc == Broken(EPOCH_DAY + secondsSinceEpoch / SECONDS_PER_DAY, secondsSinceEpoch % SECONDS_PER_DAY, yday)
  {
    hide YearMonthDay, JulianDayNumber;
    utc := Tm(0, 0, 0, 0, 0, 0, 0, 0);
    var seconds := Rem(secondsSinceEpoch, SECONDS_PER_DAY);
    var days := Quot(secondsSinceEpoch, SECONDS_PER_DAY);
    if seconds < 0 {
      seconds := seconds + SECONDS_PER_DAY;
      days := days - 1;
    }
    FloorDivision(secondsSinceEpoch);
    var sec, min, hour := FillHMS(seconds);
    utc := utc.(sec := sec, min := min, hour := hour);
    var date := days + EPOCH_DAY;
    var ymd := YearMonthDay(date);
    utc := utc.(year := ymd.year - 1900, mon := ymd.month - 1, mday := ymd.day, wday := WeekDay(date));
    if yday {
      var startOfYear := JulianDayNumber(ymd.year, 1, 1);
      utc := utc.(yday := date - startOfYear);
    }
  }

  lemma FloorDivision(t: int)
    ensures var s, d := Rem(t, SECONDS_PER_DAY), Quot(t, SECONDS_PER_DAY);
      if s < 0 then t / SECONDS_PER_DAY == d - 1 && t % SECONDS_PER_DAY == s + SECONDS_PER_DAY
      else t / SECONDS_PER_DAY == d && t % SECONDS_PER_DAY == s
  {
  }

  /** TimeZone.cc:76-82. */
  method FillHMS(seconds: int) returns (sec: int, min: int, hour: int)
    requires 0 <= seconds < SECONDS_PER_DAY
    ensures sec == seconds % 60 && min == seconds / 60 % 60 && hour == seconds / 60 / 60
    ensures 0 <= sec < 60 && 0 <= min < 60 && 0 <= hour < 24 && hour * 3600 + min * 60 + sec == seconds
  {
    sec := seconds % 60;
    var minutes := seconds / 60;
    min := minutes % 60;
    hour := minutes / 60;
  }

  /** TimeZone.cc:350-363. */
  function FromUtcTime(utc: Tm): int {
    var days := JulianDayNumber(utc.year + 1900, utc.mon + 1, utc.mday) - EPOCH_DAY;
    days * SECONDS_PER_DAY + (utc.hour * 3600 + utc.min * 60 + utc.sec)
  }

  function Utc(t: int, yday: bool): Tm {
    Broken(EPOCH_DAY + t / SECONDS_PER_DAY, t % SECONDS_PER_DAY, yday)
  }

  function DateOfTm(utc: Tm): Date {
    Date(utc.year + 1900, utc.mon + 1, utc.mday)
  }

  /** A time of day on a date of the supported range. */
  predicate IsUtc(utc: Tm) {
    InRange(DateOfTm(utc)) && 0 <= utc.sec < 60 && 0 <= utc.min < 60 && 0 <= utc.hour < 24
  }

  lemma TimeOfDay(s: int)
    requires 0 <= s < SECONDS_PER_DAY
    ensures 0 <= s / 60 / 60 < 24 && s / 60 / 60 * 3600 + s / 60 % 60 * 60 + s % 60 == s
  {
  }

  /** Breaking a second count down and putting it together again, before 1970 too. */
  lemma SecondsRoundTrip(t: int, yday: bool)
    requires t >= FIRST_SECOND
    ensures IsUtc(Utc(t, yday)) && FromUtcTime(Utc(t, yday)) == t
  {
    hide YearMonthDay, JulianDayNumber, InRange;
    var j, s := EPOCH_DAY + t / SECONDS_PER_DAY, t % SECONDS_PER_DAY;
    NumberRoundTrip(j);
    TimeOfDay(s);
  }

  /** Two broken-down times that name the same instant. */
  predicate SameInstant(a: Tm, b: Tm) {
    DateOfTm(a) == DateOfTm(b) && a.hour == b.hour && a.min == b.min && a.sec == b.sec
  }

  /** Putting a broken-down time together and breaking it down again. */
  lemma TmRoundTrip(utc: Tm, yday: bool)
    requires IsUtc(utc)
    ensures FromUtcTime(utc) >= FIRST_SECOND && SameInstant(Utc(FromUtcTime(utc), yday), utc)
  {
    hide YearMonthDay, JulianDayNumber, InRange, WeekDay;
    var d, s := DateOfTm(utc), utc.hour * 3600 + utc.min * 60 + utc.sec;
    DateRoundTrip(d);
    FirstIsFirst(d);
    var days := Julian(d) - EPOCH_DAY;
    TimeParts(utc.hour, utc.min, utc.sec);
    Divides(days, s);
    assert FromUtcTime(utc) == days * SECONDS_PER_DAY + s;
    assert Utc(FromUtcTime(utc), yday) == Broken(Julian(d), s, yday);
  }

  lemma FirstIsFirst(d: Date)
    requires InRange(d)
    ensures Julian(d) >= FIRST_DAY
  {
    var first := Date(-4800, 3, 1);
    assert Julian(first) == FIRST_DAY;
    if Before(d, first) {
      assert false;
    }
    Monotone(d, first);
  }

  lemma Divides(days: int, s: int)
    requires 0 <= s < SECONDS_PER_DAY
    ensures (days * SECONDS_PER_DAY + s) / SECONDS_PER_DAY == days
    ensures (days * SECONDS_PER_DAY + s) % SECONDS_PER_DAY == s
  {
  }

  lemma TimeParts(hour: int, min: int, sec: int)
    requires 0 <= sec < 60 && 0 <= min < 60 && 0 <= hour < 24
    ensures var s := hour * 3600 + min * 60 + sec;
      0 <= s < SECONDS_PER_DAY && s % 60 == sec && s / 60 % 60 == min && s / 60 / 60 == hour
  {
    var s := hour * 3600 + min * 60 + sec;
    assert s / 60 == hour * 60 + min;
  }

  // ---------------------------------------------------------------- day of the year

  /** Days before month m in a year, and a date's place in its year counted from 0. */
  function MonthStart(year: int, m: int): int
    requires 1 <= m <= 12
    decreases m
  {
    if m == 1 then 0 else MonthStart(year, m - 1) + DaysInMonth(year, m - 1)
  }

  function Ordinal(d: Date): int
    requires IsDate(d)
  {
    MonthStart(d.year, d.month) + d.day - 1
  }

  lemma DaysOfMonth(year: int, m: int, day: int)
    ensures JulianDayNumber(year, m, day) == JulianDayNumber(year, m, 1) + day - 1
  {
  }

  lemma FirstOfMonth(year: int, m: int, from: int)
    requires 1 <= from <= m <= 12 && InRange(Date(year, from, 1))
    ensures Julian(Date(year, m, 1)) == Julian(Date(year, from, 1)) + MonthStart(year, m) - MonthStart(year, from)
    decreases m
  {
    hide JulianDayNumber;
    if from < m {
      FirstOfMonth(year, m - 1, from);
      var last := Date(year, m - 1, DaysInMonth(year, m - 1));
      Successive(last);
      assert NextDay(last) == Date(year, m, 1);
      DaysOfMonth(year, m - 1, DaysInMonth(year, m - 1));
    }
  }

  lemma FirstYear()
    ensures JulianDayNumber(-4800, 3, 1) == FIRST_DAY && JulianDayNumber(-4800, 1, 1) == FIRST_DAY - 59
    ensures MonthStart(-4800, 3) == 60
  {
    assert MonthStart(-4800, 2) == 31 && IsLeap(-4800);
  }

  /** tm_yday is the date's place in its year exactly for the years after -4800; in -4800 it is one less. */
  lemma YearDay(d: Date)
    requires InRange(d)
    ensures Julian(d) - JulianDayNumber(d.year, 1, 1) == Ordinal(d) - (if d.year > -4800 then 0 else 1)
  {
    hide JulianDayNumber;
    DaysOfMonth(d.year, d.month, d.day);
    if d.year > -4800 {
      FirstOfMonth(d.year, d.month, 1);
    } else {
      FirstOfMonth(d.year, d.month, 3);
      FirstYear();
    }
  }

  // ---------------------------------------------------------------- day of the week

  /**
    tm_wday is a day of the week exactly when the truncating remainder is not
    negative, and from there on it advances by one a day.
  */
  lemma WeekDays(j: int)
    ensures 0 <= WeekDay(j) <= 6 <==> j >= -1 || (j + 1) % 7 == 0
    ensures j >= -1 ==> WeekDay(j + 1) == (WeekDay(j) + 1) % 7
  {
    if j < -1 {
      var n := -(j + 1);
      assert WeekDay(j) == -(n % 7);
      assert n % 7 == 0 <==> (j + 1) % 7 == 0 by {
        var q := n / 7;
        assert n == 7 * q + n % 7;
        assert j + 1 == 7 * (-q) - n % 7;
      }
    } else {
      var q := (j + 1) / 7;
      assert j + 1 == 7 * q + (j + 1) % 7;
      assert j + 2 == 7 * q + (j + 1) % 7 + 1;
    }
  }

  /** The first date of the range has no day of the week. */
  lemma NoWeekDay()
    ensures WeekDay(Julian(Date(-4800, 3, 1))) == -4
  {
    assert Julian(Date(-4800, 3, 1)) == FIRST_DAY;
  }

  // ---------------------------------------------------------------- where the count starts

  /** Second 0 is midnight of Thursday, 1 January 1970, whose Julian day number is 2440588. */
  lemma Epoch()
    ensures EPOCH_DAY == 2440588 && Julian(Date(1970, 1, 1)) == EPOCH_DAY
    ensures Utc(0, true) == Tm(0, 0, 0, 1, 0, 70, 4, 0) && FromUtcTime(Tm(0, 0, 0, 1, 0, 70, 4, 0)) == 0
  {
    hide YearMonthDay, JulianDayNumber, Rem;
    EpochDay();
    var d := Date(1970, 1, 1);
    assert IsDate(d);
    DateRoundTrip(d);
    Thursday();
  }

  lemma EpochDay()
    ensures JulianDayNumber(1970, 1, 1) == 2440588
  {
    assert Quot(13, 12) == 1 && Quot(153 * 10 + 2, 5) == 306;
    assert Quot(6769, 4) == 1692 && Quot(6769, 100) == 67 && Quot(6769, 400) == 16;
  }

  lemma Thursday()
    ensures WeekDay(2440588) == 4
  {
    assert Quot(2440589, 7) == 348655;
  }

  /** tm_wday goes round with the days from that Thursday, and tm_yday is the place of the day in its year. */
  lemma DaysOf(t: int)
    requires t >= FIRST_SECOND
    ensures EPOCH_DAY + t / 86400 >= -1 ==> Utc(t, true).wday == (4 + t / 86400) % 7
    ensures var d := DateOfTm(Utc(t, true));
      InRange(d) && Utc(t, true).yday == Ordinal(d) - (if d.year > -4800 then 0 else 1)
    ensures Utc(t, false) == Utc(t, true).(yday := 0)
  {
    hide YearMonthDay, JulianDayNumber, InRange, Ordinal;
    var j := EPOCH_DAY + t / 86400;
    Epoch();
    SecondsRoundTrip(t, true);
    NumberRoundTrip(j);
    YearDay(YearMonthDay(j));
    if j >= -1 {
      DaysMod(t / 86400);
    }
  }

  lemma DaysMod(n: int)
    requires 2440588 + n >= -1
    ensures WeekDay(2440588 + n) == (4 + n) % 7
  {
    var x := 2440589 + n;
    assert x == 4 + n + 7 * 348655;
    var q := (4 + n) / 7;
    assert x == 7 * (q + 348655) + (4 + n) % 7;
  }
}
