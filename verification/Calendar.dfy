/** kernel/lib/time.c: seconds since 1970 from a broken-down time, in the Gregorian calendar. */
module Calendar {
  // ---------- the calendar, counted year by year ----------

  predicate Leap(y: int) {
    y % 4 == 0 && (y % 100 != 0 || y % 400 == 0)
  }

  function DaysIn(y: int): int { if Leap(y) then 366 else 365 }

  /** Days from 1 January 1970 to 1 January of year y. */
  function Days(y: int): int
    decreases if y < 1970 then 1970 - y else y - 1970
  {
    if y == 1970 then 0 else if y > 1970 then Days(y - 1) + DaysIn(y - 1) else Days(y + 1) - DaysIn(y)
  }

  /** Leap years before year y, up to a constant. */
  function LeapsBefore(y: int): int {
    (y - 1) / 4 - (y - 1) / 100 + (y - 1) / 400
  }

  lemma LeapsNext(y: int)
    ensures LeapsBefore(y + 1) == LeapsBefore(y) + (if Leap(y) then 1 else 0)
  {
    Quotient(y, 4);
    Quotient(y, 100);
    Quotient(y, 400);
  }

  lemma Quotient(y: int, n: int)
    requires n == 4 || n == 100 || n == 400
    ensures y / n == (y - 1) / n + (if y % n == 0 then 1 else 0)
  {
  }

  lemma {:induction false} DaysClosed(y: int)
    ensures Days(y) == 365 * (y - 1970) + LeapsBefore(y) - LeapsBefore(1970)
    decreases if y < 1970 then 1970 - y else y - 1970
  {
    hide LeapsBefore, Leap;
    if y > 1970 {
      DaysClosed(y - 1);
      LeapsNext(y - 1);
    } else if y < 1970 {
      DaysClosed(y + 1);
      LeapsNext(y);
    }
  }

  function MonthDays(month: int, leap: bool): int
    requires 0 <= month < 12
  {
    if month == 1 then (if leap then 29 else 28)
    else if month == 3 || month == 5 || month == 8 || month == 10 then 30
    else 31
  }

  /** Days of the year before a month, counted month by month. */
  function DaysBeforeMonth(month: int, leap: bool): int
    requires 0 <= month < 12
  {
    if month == 0 then 0 else DaysBeforeMonth(month - 1, leap) + MonthDays(month - 1, leap)
  }

  // ---------- C arithmetic ----------

  /** Division that truncates toward zero, and its remainder. */
  function TruncDiv(a: int, b: int): int
    requires b > 0
  {
    if a >= 0 then a / b else -(-a / b)
  }

  function TruncRem(a: int, b: int): int
    requires b > 0
  {
    a - TruncDiv(a, b) * b
  }

  predicate Int32(x: int) {
    -0x8000_0000 <= x < 0x8000_0000
  }

  /** Truncated quotient and remainder, put right for a negative remainder, are the floored ones. */
  lemma Floored(a: int, b: int)
    requires b == 400 || b == 12
    ensures var q, r := TruncDiv(a, b), TruncRem(a, b);
      (if r < 0 then q - 1 else q) == a / b && (if r < 0 then r + b else r) == a % b
  {
  }

  // ---------- _year_to_secs ----------

  /** The fast path, for 1902 to 2038. */
  method FastYear(year: int) returns (secs: int, leap: bool)
    requires 2 <= year <= 138
    ensures secs == 86400 * Days(year + 1900) && leap == Leap(year + 1900)
    ensures Int32(31536000 * (year - 70)) && Int32(secs)
  {
    DaysClosed(year + 1900);
    hide Days;
    var leaps := (year - 68) / 4;
    if (year - 68) % 4 == 0 {
      leaps := leaps - 1;
      leap := true;
    } else {
      leap := false;
    }
    secs := 31536000 * (year - 70) + 86400 * leaps;
    FastLeaps(year);
  }

  lemma FastLeaps(year: int)
    requires 2 <= year <= 138
    ensures Leap(year + 1900) == ((year - 68) % 4 == 0)
    ensures LeapsBefore(year + 1900) - LeapsBefore(1970) == (year - 68) / 4 - (if (year - 68) % 4 == 0 then 1 else 0)
  {
  }

  lemma Shifted4(q: int, r: int)
    ensures (4 * q + r) / 4 == q + r / 4 && (4 * q + r) % 4 == r % 4
  {
  }

  lemma Shifted100(q: int, r: int)
    ensures (100 * q + r) / 100 == q + r / 100 && (100 * q + r) % 100 == r % 100
  {
  }

  lemma Shifted400(q: int, r: int)
    ensures (400 * q + r) / 400 == q + r / 400 && (400 * q + r) % 400 == r % 400
  {
  }

  /** Which years of a century are leap years. */
  lemma LeapOfCentury(cycles: int, centuries: int, rem: int)
    requires 0 <= centuries < 4 && 0 <= rem < 100
    ensures Leap(2000 + 400 * cycles + 100 * centuries + rem) == (rem % 4 == 0 && (rem > 0 || centuries == 0))
  {
    var y := 2000 + 400 * cycles + 100 * centuries + rem;
    Shifted4(500 + 100 * cycles + 25 * centuries, rem);
    Shifted100(20 + 4 * cycles + centuries, rem);
    Shifted400(5 + cycles, 100 * centuries + rem);
    assert y == 4 * (500 + 100 * cycles + 25 * centuries) + rem;
    assert y == 100 * (20 + 4 * cycles + centuries) + rem;
    assert y == 400 * (5 + cycles) + (100 * centuries + rem);
  }

  /** How many leap years come before a year of a century. */
  lemma LeapsOfCentury(cycles: int, centuries: int, rem: int)
    requires 0 <= centuries < 4 && 0 <= rem < 100
    ensures LeapsBefore(2000 + 400 * cycles + 100 * centuries + rem) ==
            484 + 97 * cycles + 24 * centuries + (3 + rem) / 4 + (if rem == 0 && centuries > 0 then 1 else 0)
  {
    var y := 2000 + 400 * cycles + 100 * centuries + rem;
    Shifted4(499 + 100 * cycles + 25 * centuries, 3 + rem);
    Shifted100(19 + 4 * cycles + centuries, 99 + rem);
    Shifted400(4 + cycles, 399 + 100 * centuries + rem);
    assert y - 1 == 4 * (499 + 100 * cycles + 25 * centuries) + (3 + rem);
    assert y - 1 == 100 * (19 + 4 * cycles + centuries) + (99 + rem);
    assert y - 1 == 400 * (4 + cycles) + (399 + 100 * centuries + rem);
  }

  /** The general path, for any year. */
  method GeneralYear(year: int) returns (secs: int, leap: bool)
    ensures secs == 86400 * Days(year + 1900) && leap == Leap(year + 1900)
  {
    hide Days, Leap, TruncDiv, TruncRem;
    Floored(year - 100, 400);
    var cycles, rem := TruncDiv(year - 100, 400), TruncRem(year - 100, 400);
    if rem < 0 {
      cycles, rem := cycles - 1, rem + 400;
    }
    assert year - 100 == 400 * cycles + rem && 0 <= rem < 400;
    var centuries, leaps := 0, 0;
    if rem == 0 {
      leap := true;
    } else {
      if rem >= 200 {
        if rem >= 300 {
          centuries, rem := 3, rem - 300;
        } else {
          centuries, rem := 2, rem - 200;
        }
      } else {
        if rem >= 100 {
          centuries, rem := 1, rem - 100;
        }
      }
      if rem == 0 {
        leap := false;
      } else {
        leaps := rem / 4;
        rem := rem % 4;
        leap := rem == 0;
      }
    }
    GeneralCount(year, cycles, centuries, year - 100 - 400 * cycles - 100 * centuries);
    leaps := leaps + 97 * cycles + 24 * centuries - (if leap then 1 else 0);
    secs := (year - 100) * 31536000 + leaps * 86400 + 946684800 + 86400;
  }

  /** What the general path adds up, from the position of the year in its century. */
  lemma GeneralCount(year: int, cycles: int, centuries: int, rem: int)
    requires 0 <= centuries < 4 && 0 <= rem < 100 && year - 100 == 400 * cycles + 100 * centuries + rem
    ensures var leap := rem % 4 == 0 && (rem > 0 || centuries == 0);
      var leaps := (if rem == 0 then 0 else rem / 4) + 97 * cycles + 24 * centuries - (if leap then 1 else 0);
      && Leap(year + 1900) == leap
      && 86400 * Days(year + 1900) == (year - 100) * 31536000 + leaps * 86400 + 946684800 + 86400
  {
    hide Days, Leap, LeapsBefore;
    DaysClosed(year + 1900);
    Leaps1970();
    LeapOfCentury(cycles, centuries, rem);
    LeapsOfCentury(cycles, centuries, rem);
    assert year + 1900 == 2000 + 400 * cycles + 100 * centuries + rem;
  }

  lemma Leaps1970()
    ensures LeapsBefore(1970) == 477
  {
  }

  /** `_year_to_secs`: both paths count the same days. */
  method YearToSecs(year: int) returns (secs: int, leap: bool)
    ensures secs == 86400 * Days(year + 1900) && leap == Leap(year + 1900)
  {
    if 2 <= year <= 138 {
      secs, leap := FastYear(year);
    } else {
      secs, leap := GeneralYear(year);
    }
  }

  /** `__month_to_secs`: the table agrees with counting the months. */
  function MonthToSecs(month: int, leap: bool): (t: int)
    requires 0 <= month < 12
    ensures t == 86400 * DaysBeforeMonth(month, leap)
  {
    CountMonths(leap);
    [0, 31 * 86400, 59 * 86400, 90 * 86400, 120 * 86400, 151 * 86400, 181 * 86400, 212 * 86400, 243 * 86400,
     273 * 86400,
     304 * 86400, 334 * 86400][month] + (if leap && month >= 2 then 86400 else 0)
  }

  lemma CountMonths(leap: bool)
    ensures DaysBeforeMonth(0, leap) == 0 && DaysBeforeMonth(1, leap) == 31
    ensures var d := if leap then 1 else 0;
      && DaysBeforeMonth(2, leap) == 59 + d && DaysBeforeMonth(3, leap) == 90 + d && DaysBeforeMonth(4, leap) == 120 + d
      && DaysBeforeMonth(5, leap) == 151 + d && DaysBeforeMonth(6, leap) == 181 + d
      && DaysBeforeMonth(7, leap) == 212 + d
      && DaysBeforeMonth(8, leap) == 243 + d && DaysBeforeMonth(9, leap) == 273 + d
      && DaysBeforeMonth(10, leap) == 304 + d
      && DaysBeforeMonth(11, leap) == 334 + d
  {
  }

  // ---------- tm_to_secs ----------

  datatype Tm = Tm(sec: int, min: int, hour: int, mday: int, mon: int, year: int)

  /** The Gregorian year and month a broken-down time means, whatever its month. */
  function YearOf(tm: Tm): int { tm.year + 1900 + tm.mon / 12 }

  function MonthOf(tm: Tm): int { tm.mon % 12 }

  /** Seconds since the Epoch, by counting days. */
  function Counted(tm: Tm): int {
    86400 * (Days(YearOf(tm)) + DaysBeforeMonth(MonthOf(tm), Leap(YearOf(tm))) + tm.mday - 1)
    + 3600 * tm.hour + 60 * tm.min + tm.sec
  }

  /** Twelve months more are one year more, so any month is one of a normalised time. */
  lemma TwelveMonths(tm: Tm)
    ensures Counted(tm.(mon := tm.mon + 12)) == Counted(tm.(year := tm.year + 1))
    ensures 0 <= MonthOf(tm) < 12 && Counted(tm) == Counted(tm.(year := tm.year + tm.mon / 12, mon := tm.mon % 12))
    ensures tm.mon == 12 * (tm.mon / 12) + tm.mon % 12
  {
    hide Days, Leap, DaysBeforeMonth;
    assert (tm.mon + 12) / 12 == tm.mon / 12 + 1 && (tm.mon + 12) % 12 == tm.mon % 12;
  }

  /** `tm_to_secs`: for every year and any month, normalised or not. */
  method TmToSecs(tm: Tm) returns (t: int)
    ensures t == Counted(tm)
  {
    hide Days, Leap, DaysBeforeMonth, TruncDiv, TruncRem;
    Floored(tm.mon, 12);
    var year, month := tm.year, tm.mon;
    if month >= 12 || month < 0 {
      var adj := TruncDiv(month, 12);
      month := TruncRem(month, 12);
      if month < 0 {
        adj, month := adj - 1, month + 12;
      }
      year := year + adj;
    }
    var leap;
    t, leap := YearToSecs(year);
    t := t + MonthToSecs(month, leap);
    t := t + 86400 * (tm.mday - 1);
    t := t + 3600 * tm.hour;
    t := t + 60 * tm.min;
    t := t + tm.sec;
  }

  /** The formula of section 4.16 of POSIX.1-2017 XBD, with its day of the year. */
  function Posix(sec: int, min: int, hour: int, yday: int, year: int): int {
    sec + min * 60 + hour * 3600 + yday * 86400 + (year - 70) * 31536000 + (year - 69) / 4 * 86400
    - (year - 1) / 100 * 86400 + (year + 299) / 400 * 86400
  }

  lemma PosixLeaps(year: int)
    ensures (year - 69) / 4 - (year - 1) / 100 + (year + 299) / 400 == LeapsBefore(year + 1900) - 477
  {
    Shifted4(492, year - 69);
    Shifted100(19, year - 1);
    Shifted400(4, year + 299);
    assert year + 1899 == 4 * 492 + (year - 69) == 100 * 19 + (year - 1) == 400 * 4 + (year + 299);
  }

  /** Counting days gives the formula, for normalised times of any year. */
  lemma CountedIsPosix(tm: Tm)
    requires 0 <= tm.mon < 12
    ensures var yday := DaysBeforeMonth(tm.mon, Leap(tm.year + 1900)) + tm.mday - 1;
      Counted(tm) == Posix(tm.sec, tm.min, tm.hour, yday, tm.year)
  {
    hide Days, Leap, DaysBeforeMonth, LeapsBefore;
    DaysClosed(tm.year + 1900);
    Leaps1970();
    PosixLeaps(tm.year);
  }
}
