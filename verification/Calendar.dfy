/**
  Julian day numbers and UTC broken-down time: muduo/base/Date.cc and the UTC
  half of muduo/base/TimeZone.cc, against the calendar itself.
*/
module Calendar {

  datatype Date = Date(year: int, month: int, day: int)

  /** C's integer division and remainder, which truncate towards zero. */
  function Quot(a: int, b: int): int
    requires b > 0
  {
    if a >= 0 then a / b else -((-a) / b)
  }

  function Rem(a: int, b: int): int
    requires b > 0
  {
    a - b * Quot(a, b)
  }

  // ---------------------------------------------------------------- the calendar

  predicate IsLeap(year: int) {
    year % 4 == 0 && (year % 100 != 0 || year % 400 == 0)
  }

  function DaysInMonth(year: int, month: int): int
    requires 1 <= month <= 12
  {
    if month == 2 then (if IsLeap(year) then 29 else 28)
    else if month == 4 || month == 6 || month == 9 || month == 11 then 30
    else 31
  }

  predicate IsDate(d: Date) {
    1 <= d.month <= 12 && 1 <= d.day <= DaysInMonth(d.year, d.month)
  }

  /** A date of the proleptic Gregorian calendar, 1 March -4800 or later. */
  predicate InRange(d: Date) {
    IsDate(d) && (d.year > -4800 || (d.year == -4800 && d.month >= 3))
  }

  function NextDay(d: Date): (n: Date)
    requires IsDate(d)
    ensures IsDate(n)
  {
    if d.day < DaysInMonth(d.year, d.month) then d.(day := d.day + 1)
    else if d.month < 12 then Date(d.year, d.month + 1, 1)
    else Date(d.year + 1, 1, 1)
  }

  // ---------------------------------------------------------------- the closed forms

  /** Date.cc:20-27. */
  function JulianDayNumber(year: int, month: int, day: int): int {
    var a := Quot(14 - month, 12);
    var y := year + 4800 - a;
    var m := month + 12 * a - 3;
    day + Quot(153 * m + 2, 5) + y * 365 + Quot(y, 4) - Quot(y, 100) + Quot(y, 400) - 32045
  }

  /** Date.cc:29-42. */
  function YearMonthDay(julianDayNumber: int): Date {
    var a := julianDayNumber + 32044;
    var b := Quot(4 * a + 3, 146097);
    var c := a - Quot(b * 146097, 4);
    var d := Quot(4 * c + 3, 1461);
    var e := c - Quot(1461 * d, 4);
    var m := Quot(5 * e + 2, 153);
    Date(b * 100 + d - 4800 + Quot(m, 10), m + 3 - 12 * Quot(m, 10), e - Quot(153 * m + 2, 5) + 1)
  }

  function Julian(d: Date): int {
    JulianDayNumber(d.year, d.month, d.day)
  }

  const FIRST_DAY: int := -32044

  // ---------------------------------------------------------------- years that begin in March

  /** Year and month counted from March -4800, as both closed forms do. */
  function MarchYear(d: Date): int {
    d.year + 4800 - (if d.month <= 2 then 1 else 0)
  }

  function MarchMonth(d: Date): int {
    if d.month <= 2 then d.month + 9 else d.month - 3
  }

  function DaysBeforeYear(y: int): int {
    365 * y + y / 4 - y / 100 + y / 400
  }

  function DaysBeforeMonth(m: int): int {
    (153 * m + 2) / 5
  }

  /** Day of the March-based year, from 0. */
  function DayOfYear(d: Date): int {
    DaysBeforeMonth(MarchMonth(d)) + d.day - 1
  }

  lemma JulianSplit(d: Date)
    requires InRange(d)
    ensures MarchYear(d) >= 0 && 0 <= MarchMonth(d) <= 11
    ensures Julian(d) == DaysBeforeYear(MarchYear(d)) + DayOfYear(d) + FIRST_DAY
  {
  }

  lemma Over4(k: int, r: int)
    ensures (4 * k + r) / 4 == k + r / 4 && (4 * k + r) % 4 == r % 4
  {
  }

  lemma Over100(k: int, r: int)
    ensures (100 * k + r) / 100 == k + r / 100 && (100 * k + r) % 100 == r % 100
  {
  }

  lemma Over400(k: int, r: int)
    ensures (400 * k + r) / 400 == k + r / 400 && (400 * k + r) % 400 == r % 400
  {
  }

  /** Years repeat every 400, which is 146097 days. */
  lemma Cycle(q: int, r: int)
    requires 0 <= r < 400
    ensures DaysBeforeYear(400 * q + r) == 146097 * q + 365 * r + r / 4 - r / 100
    ensures IsLeap(400 * q + r) <==> r % 4 == 0 && (r % 100 != 0 || r == 0)
  {
    Over4(100 * q, r);
    Over100(4 * q, r);
    Over400(q, r);
  }

  /** A March-based year ends with February, so its length depends on the year after it. */
  lemma YearLength(y: nat)
    ensures DaysBeforeYear(y + 1) == DaysBeforeYear(y) + 365 + (if IsLeap(y + 1) then 1 else 0)
  {
    var q, r := y / 400, y % 400;
    Cycle(q, r);
    assert y == 400 * q + r;
    if r == 399 {
      Cycle(q + 1, 0);
      assert y + 1 == 400 * (q + 1) + 0;
    } else {
      Cycle(q, r + 1);
      assert y + 1 == 400 * q + (r + 1);
      YearStep(r);
    }
  }

  lemma YearStep(r: int)
    requires 0 <= r < 399
    ensures (r + 1) / 4 - (r + 1) / 100 ==
      r / 4 - r / 100 + (if (r + 1) % 4 == 0 && (r + 1) % 100 != 0 then 1 else 0)
  {
    var c, z := r / 100, r % 100;
    assert r == 100 * c + z;
    if z == 99 {
      Over100(c + 1, 0);
      Over4(25 * c + 25, 0);
      Over4(25 * c, 99);
    } else {
      Over100(c, z + 1);
      Over4(25 * c, z + 1);
      Over4(25 * c, z);
    }
  }

  lemma LeapShift(year: int)
    ensures IsLeap(year + 4800) == IsLeap(year)
  {
    Over4(1200, year);
    Over100(48, year);
    Over400(12, year);
  }

  /** Every date's day of the year is within its year. */
  lemma DayOfYearBound(d: Date)
    requires InRange(d)
    ensures 0 <= DayOfYear(d) <= 364 + (if IsLeap(MarchYear(d) + 1) then 1 else 0)
  {
    LeapShift(d.year);
    assert d.month == 2 ==> MarchYear(d) + 1 == d.year + 4800;
  }

  // ---------------------------------------------------------------- the inverse

  /** The century and year of day r of March-based year y, as Date.cc:31-35 finds them. */
  lemma YearFound(y: nat, r: nat)
    requires r <= 364 + (if IsLeap(y + 1) then 1 else 0)
    ensures var a := DaysBeforeYear(y) + r;
      var b := (4 * a + 3) / 146097;
      var c := a - (b * 146097) / 4;
      var d := (4 * c + 3) / 1461;
      a >= 0 && b == y / 100 && c >= 0 && d == y % 100 && c - (1461 * d) / 4 == r
  {
    var q, h, z := y / 400, y % 400 / 100, y % 100;
    assert y == 400 * q + 100 * h + z && 0 <= h <= 3;
    assert y / 4 == 100 * q + 25 * h + z / 4;
    assert y / 100 == 4 * q + h;
    var a := DaysBeforeYear(y) + r;
    assert a == 146097 * q + 36524 * h + 365 * z + z / 4 + r;
    LastYearOfCentury(q, h, z, r);
    var b := 4 * q + h;
    assert 0 <= 4 * a + 3 - 146097 * b < 146097;
    assert (4 * a + 3) / 146097 == b;
    assert (b * 146097) / 4 == 146097 * q + 36524 * h;
    var c := 365 * z + z / 4 + r;
    assert 0 <= 4 * c + 3 - 1461 * z < 1461;
    assert (4 * c + 3) / 1461 == z;
    assert (1461 * z) / 4 == 365 * z + z / 4;
  }

  /** When the leap day is there, so is the room for it. */
  lemma LastYearOfCentury(q: nat, h: nat, z: nat, r: nat)
    requires h <= 3 && z <= 99 && r <= 364 + (if IsLeap(400 * q + 100 * h + z + 1) then 1 else 0)
    ensures 4 * (365 * z + z / 4 + r) + 3 - h < 146097
    ensures 4 * r + 3 - z % 4 < 1461
  {
    if z == 99 {
      if h == 3 {
        Cycle(q + 1, 0);
        assert 400 * q + 100 * h + z + 1 == 400 * (q + 1) + 0;
      } else {
        Cycle(q, 100 * h + 100);
        Over100(h + 1, 0);
        assert 400 * q + 100 * h + z + 1 == 400 * q + (100 * h + 100);
      }
    } else {
      Cycle(q, 100 * h + z + 1);
      Over4(25 * h, z + 1);
      assert 400 * q + 100 * h + z + 1 == 400 * q + (100 * h + z + 1);
    }
  }

  /** The month and day of day r of a year, as Date.cc:36-40 finds them. */
  lemma MonthFound(d: Date)
    requires IsDate(d)
    ensures var r := DayOfYear(d);
      var m := Quot(5 * r + 2, 153);
      r >= 0 && m == MarchMonth(d) && r - Quot(153 * m + 2, 5) + 1 == d.day
  {
    var m := MarchMonth(d);
    assert 0 <= m <= 11 && 1 <= d.day <= 31;
    assert m == 1 || m == 3 || m == 6 || m == 8 ==> d.day <= 30;
    assert m == 11 ==> d.day <= 29;
  }

  lemma QuotNat(a: int, b: int)
    requires a >= 0 && b > 0
    ensures Quot(a, b) == a / b
  {
  }

  /** YearFound in the terms of Date.cc. */
  lemma YearQuot(y: nat, r: nat)
    requires r <= 364 + (if IsLeap(y + 1) then 1 else 0)
    ensures var a := DaysBeforeYear(y) + r;
      var b := Quot(4 * a + 3, 146097);
      var c := a - Quot(b * 146097, 4);
      var d := Quot(4 * c + 3, 1461);
      b == y / 100 && d == y % 100 && c - Quot(1461 * d, 4) == r
  {
    YearFound(y, r);
    hide Quot, DaysBeforeYear, IsLeap;
    var a := DaysBeforeYear(y) + r;
    QuotNat(4 * a + 3, 146097);
    var b := Quot(4 * a + 3, 146097);
    QuotNat(b * 146097, 4);
    var c := a - Quot(b * 146097, 4);
    QuotNat(4 * c + 3, 1461);
    QuotNat(1461 * Quot(4 * c + 3, 1461), 4);
  }

  lemma YearMonthDayAt(y: nat, r: nat)
    requires r <= 364 + (if IsLeap(y + 1) then 1 else 0)
    ensures var m := Quot(5 * r + 2, 153);
      YearMonthDay(DaysBeforeYear(y) + r + FIRST_DAY) ==
        Date(y - 4800 + Quot(m, 10), m + 3 - 12 * Quot(m, 10), r - Quot(153 * m + 2, 5) + 1)
  {
    hide Quot, DaysBeforeYear, IsLeap;
    YearQuot(y, r);
    assert y == 100 * (y / 100) + y % 100;
  }

  /** Converting a date to its day number and back gives the date. */
  lemma DateRoundTrip(d: Date)
    requires InRange(d)
    ensures YearMonthDay(Julian(d)) == d
  {
    hide JulianDayNumber, YearMonthDay, Quot, DaysBeforeYear, DaysBeforeMonth, IsLeap, DaysInMonth, DayOfYear;
    hide MarchYear, MarchMonth;
    JulianSplit(d);
    DayOfYearBound(d);
    var y, r, m := MarchYear(d), DayOfYear(d), MarchMonth(d);
    YearMonthDayAt(y, r);
    MonthFound(d);
    MarchBack(d);
  }

  lemma MarchBack(d: Date)
    requires 1 <= d.month <= 12
    ensures Quot(MarchMonth(d), 10) == (if d.month <= 2 then 1 else 0)
    ensures MarchYear(d) - 4800 + Quot(MarchMonth(d), 10) == d.year
    ensures MarchMonth(d) + 3 - 12 * Quot(MarchMonth(d), 10) == d.month
  {
  }

  /** Successive days have successive numbers. */
  lemma Successive(d: Date)
    requires InRange(d)
    ensures InRange(NextDay(d)) && Julian(NextDay(d)) == Julian(d) + 1
  {
    hide JulianDayNumber, DaysBeforeYear;
    var n := NextDay(d);
    JulianSplit(d);
    JulianSplit(n);
    if d.month == 2 && n.month == 3 {
      YearLength(MarchYear(d));
      LeapShift(d.year);
    } else {
      assert MarchYear(n) == MarchYear(d);
    }
  }

  /** Every number from that of 1 March -4800 on is some date's. */
  lemma {:induction false} DateOf(j: int) returns (d: Date)
    requires j >= FIRST_DAY
    ensures InRange(d) && Julian(d) == j
    decreases j - FIRST_DAY
  {
    if j == FIRST_DAY {
      d := Date(-4800, 3, 1);
    } else {
      var p := DateOf(j - 1);
      Successive(p);
      d := NextDay(p);
    }
  }

  /** Converting a day number to its date and back gives the number. */
  lemma NumberRoundTrip(j: int)
    requires j >= FIRST_DAY
    ensures InRange(YearMonthDay(j)) && Julian(YearMonthDay(j)) == j
  {
    var d := DateOf(j);
    DateRoundTrip(d);
  }

  /** Order of dates. */
  predicate Before(d: Date, e: Date) {
    d.year < e.year || (d.year == e.year && (d.month < e.month || (d.month == e.month && d.day < e.day)))
  }

  /** Later dates have larger numbers, and the other way round. */
  lemma Monotone(d: Date, e: Date)
    requires InRange(d) && InRange(e)
    ensures Before(d, e) <==> Julian(d) < Julian(e)
  {
    if Before(d, e) { BeforeIsLess(d, e); }
    if Before(e, d) { BeforeIsLess(e, d); }
  }

  lemma BeforeIsLess(d: Date, e: Date)
    requires InRange(d) && InRange(e) && Before(d, e)
    ensures Julian(d) < Julian(e)
  {
    hide Julian, DaysBeforeYear, DayOfYear;
    JulianSplit(d);
    JulianSplit(e);
    DayOfYearBound(d);
    DayOfYearBound(e);
    if MarchYear(d) == MarchYear(e) {
      assert MarchMonth(d) < MarchMonth(e) || (MarchMonth(d) == MarchMonth(e) && d.day < e.day);
      MonthFound(d);
      MonthFound(e);
    } else {
      YearLength(MarchYear(d));
      YearsGrow(MarchYear(d) + 1, MarchYear(e));
    }
  }

  lemma {:induction false} YearsGrow(y: nat, z: nat)
    requires y <= z
    ensures DaysBeforeYear(y) <= DaysBeforeYear(z)
  {
    if y < z {
      YearsGrow(y, z - 1);
      YearLength(z - 1);
    }
  }
}
