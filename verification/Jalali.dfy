/**
 Conversion of Gregorian dates to the Solar Hijri (Jalali) calendar, as the
 business date of the application is computed.

 The conversion is dense arithmetic: one day count, split by 33-year, 4-year
 and one-year lengths.  It is measured here against two calendars that are
 written down from their rules only, year by year and month by month.
 */
module Jalali {
  import opened Prelude

  datatype Date = Date(year: int, month: int, day: int)

  ghost predicate Before(a: Date, b: Date) {
    || a.year < b.year
    || (a.year == b.year && a.month < b.month)
    || (a.year == b.year && a.month == b.month && a.day < b.day)
  }

  // ---------------------------------------------------------------------
  // The Gregorian calendar
  // ---------------------------------------------------------------------

  predicate GregorianLeap(year: int) {
    year % 4 == 0 && (year % 100 != 0 || year % 400 == 0)
  }

  function GregorianMonthLength(year: int, month: int): int {
    if month == 2 then (if GregorianLeap(year) then 29 else 28)
    else if month in {4, 6, 9, 11} then 30 else 31
  }

  ghost predicate ValidGregorian(d: Date) {
    1 <= d.month <= 12 && 1 <= d.day <= GregorianMonthLength(d.year, d.month)
  }

  function NextGregorian(d: Date): Date {
    if d.day < GregorianMonthLength(d.year, d.month) then d.(day := d.day + 1)
    else if d.month < 12 then Date(d.year, d.month + 1, 1)
    else Date(d.year + 1, 1, 1)
  }

  /** Days from 1 January 1600 to 1 January of `year`, one year at a time. */
  ghost function GregorianYearStart(year: int): int
    requires 1600 <= year
  {
    if year == 1600 then 0
    else GregorianYearStart(year - 1) + (if GregorianLeap(year - 1) then 366 else 365)
  }

  ghost function GregorianMonthStart(year: int, month: int): int
    requires 1 <= month <= 12
    decreases month
  {
    if month == 1 then 0
    else GregorianMonthStart(year, month - 1) + GregorianMonthLength(year, month - 1)
  }

  /** Days from 1 January 1600 to `d`. */
  ghost function GregorianDayNumber(d: Date): int
    requires ValidGregorian(d) && 1600 <= d.year
  {
    GregorianYearStart(d.year) + GregorianMonthStart(d.year, d.month) + d.day - 1
  }

  // ---------------------------------------------------------------------
  // The Jalali calendar under its 33-year rule
  // ---------------------------------------------------------------------

  predicate JalaliLeap(year: int) {
    var r := year % 33;
    r == 1 || r == 5 || r == 9 || r == 13 || r == 17 || r == 22 || r == 26 || r == 30
  }

  function JalaliMonthLength(year: int, month: int): int {
    if month <= 6 then 31
    else if month <= 11 then 30
    else if JalaliLeap(year) then 30 else 29
  }

  ghost predicate ValidJalali(d: Date) {
    1 <= d.month <= 12 && 1 <= d.day <= JalaliMonthLength(d.year, d.month)
  }

  function NextJalali(d: Date): Date {
    if d.day < JalaliMonthLength(d.year, d.month) then d.(day := d.day + 1)
    else if d.month < 12 then Date(d.year, d.month + 1, 1)
    else Date(d.year + 1, 1, 1)
  }

  /** Days from 1 Farvardin 979 to 1 Farvardin of `year`, one year at a time. */
  ghost function JalaliYearStart(year: int): int
    requires 979 <= year
  {
    if year == 979 then 0
    else JalaliYearStart(year - 1) + (if JalaliLeap(year - 1) then 366 else 365)
  }

  ghost function JalaliMonthStart(year: int, month: int): int
    requires 1 <= month <= 12
    decreases month
  {
    if month == 1 then 0
    else JalaliMonthStart(year, month - 1) + JalaliMonthLength(year, month - 1)
  }

  /** Days from 1 Farvardin 979 to `d`. */
  ghost function JalaliDayNumber(d: Date): int
    requires ValidJalali(d) && 979 <= d.year
  {
    JalaliYearStart(d.year) + JalaliMonthStart(d.year, d.month) + d.day - 1
  }

  // ---------------------------------------------------------------------
  // The conversion
  // ---------------------------------------------------------------------

  const MONTH_OFFSETS := [0, 31, 59, 90, 120, 151, 181, 212, 243, 273, 304, 334]

  /** The leap-day terms of the day count. */
  function LeapDays(g: int): int {
    (g + 3) / 4 - (g + 99) / 100 + (g + 399) / 400
  }

  /** The day count that is split into a Jalali date. */
  function DayCount(d: Date): int
    requires 1 <= d.month <= 12
  {
    var gy := if d.year > 1600 then d.year - 1600 else d.year - 621;
    var gy2 := if d.month > 2 then gy + 1 else gy;
    365 * gy + LeapDays(gy2) - 80 + d.day + MONTH_OFFSETS[d.month - 1]
  }

  /** Splits a day count that starts with the first day of year `base`. */
  function Split(base: int, count: int): Date {
    var cycleDay := count % 12053;
    var blockDay := cycleDay % 1461;
    var firstYear := base + 33 * (count / 12053) + 4 * (cycleDay / 1461);
    var year := if blockDay > 365 then firstYear + (blockDay - 1) / 365 else firstYear;
    var day := if blockDay > 365 then (blockDay - 1) % 365 else blockDay;
    if day < 186
    then Date(year, 1 + day / 31, 1 + day % 31)
    else Date(year, 7 + (day - 186) / 30, 1 + (day - 186) % 30)
  }

  function ToJalali(d: Date): Date
    requires 1 <= d.month <= 12
  {
    Split(if d.year > 1600 then 979 else 0, DayCount(d))
  }

  lemma LeapDaysAre(g: int)
    ensures LeapDays(g) == (g + 3) / 4 - (g + 99) / 100 + (g + 399) / 400
  {
  }

  /** The conversion as it is executed, with its locals reassigned in turn. */
  method GregorianToJalali(value: Date) returns (r: Date)
    requires ValidGregorian(value)
    ensures r == ToJalali(value)
    ensures value.year > 1600 ==>
      ValidJalali(r) && r.year >= 979 && JalaliDayNumber(r) == GregorianDayNumber(value) - 79
  {
    hide ValidJalali, JalaliDayNumber, GregorianDayNumber, LeapDays;
    var jy, jm, jd;
    var gy, gm, gd := value.year, value.month, value.day;
    if gy > 1600 {
      jy := 979;
      gy := gy - 1600;
    } else {
      jy := 0;
      gy := gy - 621;
    }
    var gy2 := if gm > 2 then gy + 1 else gy;
    var days := 365 * gy + (gy2 + 3) / 4 - (gy2 + 99) / 100 + (gy2 + 399) / 400 - 80
                + gd + MONTH_OFFSETS[gm - 1];
    LeapDaysAre(gy2);
    assert days == DayCount(value);
    jy := jy + 33 * (days / 12053);
    days := days % 12053;
    jy := jy + 4 * (days / 1461);
    days := days % 1461;
    if days > 365 {
      jy := jy + (days - 1) / 365;
      days := (days - 1) % 365;
    }
    if days < 186 {
      jm := 1 + days / 31;
      jd := 1 + days % 31;
    } else {
      jm := 7 + (days - 186) / 30;
      jd := 1 + (days - 186) % 30;
    }
    r := Date(jy, jm, jd);
    if value.year > 1600 {
      ConversionKeepsDayNumber(value);
    }
  }

  // ---------------------------------------------------------------------
  // The conversion keeps the day number
  // ---------------------------------------------------------------------

  /** Multiples of `n` below `g`, counted by rounding up, grow exactly at a multiple of `n`. */
  lemma RoundedUpStep(g: int, n: int, q: int, r: int)
    requires 1 < n && g == n * q + r && 0 <= r < n
    ensures (g + n) / n == (g + n - 1) / n + (if r == 0 then 1 else 0)
  {
    QuotientIs(g + n, n, q + 1, r);
    if r == 0 {
      QuotientIs(g + n - 1, n, q, n - 1);
    } else {
      QuotientIs(g + n - 1, n, q + 1, r - 1);
    }
  }

  lemma QuotientIs(a: int, n: int, q: int, r: int)
    requires 0 < n && a == n * q + r && 0 <= r < n
    ensures a / n == q && a % n == r
  {
    assert n * (a / n - q) == r - a % n;
    NonzeroMultiple(n, a / n - q);
  }

  lemma NonzeroMultiple(n: int, d: int)
    requires 0 < n
    ensures d > 0 ==> n * d >= n
    ensures d < 0 ==> n * d <= -n
  {
  }

  /** The leap rule only looks at the year modulo 400. */
  lemma LeapShift(year: int)
    ensures GregorianLeap(year) <==> GregorianLeap(year - 1600)
  {
    QuotientIs(year - 1600, 4, year / 4 - 400, year % 4);
    QuotientIs(year - 1600, 100, year / 100 - 16, year % 100);
    QuotientIs(year - 1600, 400, year / 400 - 4, year % 400);
  }

  lemma LeapDaysStep(g: int)
    ensures LeapDays(g + 1) == LeapDays(g) + (if GregorianLeap(g) then 1 else 0)
  {
    RoundedUpStep(g, 4, g / 4, g % 4);
    RoundedUpStep(g, 100, g / 100, g % 100);
    RoundedUpStep(g, 400, g / 400, g % 400);
    LeapTermsNest(g);
  }

  lemma LeapTermsNest(g: int)
    ensures g % 400 == 0 ==> g % 100 == 0
    ensures g % 100 == 0 ==> g % 4 == 0
  {
    if g % 400 == 0 {
      QuotientIs(g, 100, 4 * (g / 400), 0);
    }
    if g % 100 == 0 {
      QuotientIs(g, 4, 25 * (g / 100), 0);
    }
  }

  lemma {:induction false} GregorianYearStartClosed(year: int)
    requires 1600 <= year
    ensures GregorianYearStart(year) == 365 * (year - 1600) + LeapDays(year - 1600)
  {
    if year > 1600 {
      GregorianYearStartClosed(year - 1);
      LeapShift(year - 1);
      LeapDaysStep(year - 1601);
    }
  }

  lemma {:induction false} GregorianMonthStartClosed(year: int, month: int)
    requires 1 <= month <= 12
    ensures GregorianMonthStart(year, month)
         == MONTH_OFFSETS[month - 1] + (if month > 2 && GregorianLeap(year) then 1 else 0)
    decreases month
  {
    if month > 1 {
      GregorianMonthStartClosed(year, month - 1);
    }
  }

  /** After 1600 the count is the number of days since 20 March 1600. */
  lemma DayCountIsDayNumber(d: Date)
    requires ValidGregorian(d) && d.year > 1600
    ensures DayCount(d) == GregorianDayNumber(d) - 79
    ensures DayCount(d) >= 0
  {
    GregorianYearStartClosed(d.year);
    GregorianMonthStartClosed(d.year, d.month);
    LeapShift(d.year);
    LeapDaysStep(d.year - 1600);
  }

  /** Days before year number `k` of a sequence whose years 0, 4, ..., 28 of every 33 are leap. */
  function YearsToDays(k: int): int {
    365 * k + 8 * (k / 33) + (k % 33 + 3) / 4
  }

  /** The leap years of that sequence. */
  predicate LongYear(k: int) {
    k % 33 % 4 == 0 && k % 33 != 32
  }

  lemma YearsToDaysStep(k: int)
    ensures YearsToDays(k + 1) == YearsToDays(k) + (if LongYear(k) then 366 else 365)
  {
    var q, r := k / 33, k % 33;
    if r < 32 {
      QuotientIs(k + 1, 33, q, r + 1);
    } else {
      QuotientIs(k + 1, 33, q + 1, 0);
    }
    RoundedUpStep(r, 4, r / 4, r % 4);
  }

  /** Counted from 979, the leap years of the 33-year rule are the long years. */
  lemma LongYearsAreLeap(k: int)
    ensures JalaliLeap(979 + k) <==> LongYear(k)
  {
    var q, r := k / 33, k % 33;
    if r < 11 {
      QuotientIs(979 + k, 33, q + 29, r + 22);
    } else {
      QuotientIs(979 + k, 33, q + 30, r - 11);
    }
  }

  lemma {:induction false} JalaliYearStartClosed(year: int)
    requires 979 <= year
    ensures JalaliYearStart(year) == YearsToDays(year - 979)
  {
    if year > 979 {
      JalaliYearStartClosed(year - 1);
      LongYearsAreLeap(year - 980);
      YearsToDaysStep(year - 980);
    }
  }

  lemma {:induction false} JalaliMonthStartClosed(year: int, month: int)
    requires 1 <= month <= 12
    ensures JalaliMonthStart(year, month)
         == if month <= 7 then 31 * (month - 1) else 186 + 30 * (month - 7)
    decreases month
  {
    if month > 1 {
      JalaliMonthStartClosed(year, month - 1);
    }
  }

  function DayOfYear(d: Date): int {
    (if d.month <= 7 then 31 * (d.month - 1) else 186 + 30 * (d.month - 7)) + d.day - 1
  }

  /** Years to days, from the number of the 33-year cycle and the year in it. */
  lemma YearsToDaysAt(c: int, t: int)
    requires 0 <= t <= 32
    ensures YearsToDays(33 * c + t) == 12053 * c + 365 * t + (t + 3) / 4
    ensures LongYear(33 * c + t) <==> t % 4 == 0 && t != 32
  {
    QuotientIs(33 * c + t, 33, c, t);
  }

  lemma DayOfYearSplits(year: int, day: int)
    requires 0 <= day <= 365
    ensures var r := (if day < 186
                      then Date(year, 1 + day / 31, 1 + day % 31)
                      else Date(year, 7 + (day - 186) / 30, 1 + (day - 186) % 30));
            && 1 <= r.month <= 12 && 1 <= r.day <= (if r.month <= 6 then 31 else 30)
            && DayOfYear(r) == day
            && (r.month == 12 && r.day == 30 ==> day == 365)
  {
  }

  /** Splitting loses nothing, for every count and every base year. */
  lemma SplitIsExact(base: int, count: int)
    ensures var r := Split(base, count);
            var k := r.year - base;
            && 1 <= r.month <= 12 && 1 <= r.day <= (if r.month <= 6 then 31 else 30)
            && YearsToDays(k) + DayOfYear(r) == count
            && (r.month == 12 && r.day == 30 ==> LongYear(k))
  {
    hide YearsToDays, LongYear, DayOfYear;
    var c, cycleDay := count / 12053, count % 12053;
    var q, blockDay := cycleDay / 1461, cycleDay % 1461;
    assert count == 12053 * c + 1461 * q + blockDay;
    var j := if blockDay > 365 then (blockDay - 1) / 365 else 0;
    var day := if blockDay > 365 then (blockDay - 1) % 365 else blockDay;
    assert 0 <= q <= 8 && (q == 8 ==> blockDay <= 364);
    assert 0 <= j <= 3 && blockDay == 365 * j + day + (if j == 0 then 0 else 1);
    YearsToDaysAt(c, 4 * q + j);
    QuotientIs(4 * q + j + 3, 4, if j == 0 then q else q + 1, if j == 0 then 3 else j - 1);
    DayOfYearSplits(base + 33 * c + 4 * q + j, day);
    if day == 365 {
      QuotientIs(4 * q, 4, q, 0);
    }
  }

  /**
   For every Gregorian date after 1600 the result is a valid Jalali date with
   the same position on the day line: 20 March 1600 is 1 Farvardin 979.
   */
  lemma ConversionKeepsDayNumber(d: Date)
    requires ValidGregorian(d) && d.year > 1600
    ensures var r := ToJalali(d);
            ValidJalali(r) && r.year >= 979 && JalaliDayNumber(r) == GregorianDayNumber(d) - 79
  {
    hide Split, DayCount, JalaliLeap, LongYear, YearsToDays;
    var r := ToJalali(d);
    DayCountIsDayNumber(d);
    SplitIsExact(979, DayCount(d));
    YearOfNonNegativeCount(r.year - 979, DayOfYear(r));
    LongYearsAreLeap(r.year - 979);
    JalaliYearStartClosed(r.year);
    JalaliMonthStartClosed(r.year, r.month);
  }

  lemma YearOfNonNegativeCount(k: int, dayOfYear: int)
    requires YearsToDays(k) + dayOfYear >= 0 && dayOfYear <= 365
    requires dayOfYear == 365 ==> LongYear(k)
    ensures k >= 0
  {
    if k < 0 {
      YearsToDaysGrows(k, 0);
    }
  }

  // ---------------------------------------------------------------------
  // Order
  // ---------------------------------------------------------------------

  lemma {:induction false} GregorianYearStartGrows(a: int, b: int)
    requires 1600 <= a < b
    ensures GregorianYearStart(a) + (if GregorianLeap(a) then 366 else 365) <= GregorianYearStart(b)
    decreases b
  {
    if a < b - 1 {
      GregorianYearStartGrows(a, b - 1);
    }
  }

  lemma {:induction false} JalaliYearStartGrows(a: int, b: int)
    requires 979 <= a < b
    ensures JalaliYearStart(a) + (if JalaliLeap(a) then 366 else 365) <= JalaliYearStart(b)
    decreases b
  {
    if a < b - 1 {
      JalaliYearStartGrows(a, b - 1);
    }
  }

  lemma GregorianDayNumberOrders(a: Date, b: Date)
    requires ValidGregorian(a) && ValidGregorian(b) && 1600 <= a.year && 1600 <= b.year
    requires Before(a, b)
    ensures GregorianDayNumber(a) < GregorianDayNumber(b)
  {
    GregorianMonthStartClosed(a.year, a.month);
    GregorianMonthStartClosed(b.year, b.month);
    if a.year < b.year {
      GregorianYearStartGrows(a.year, b.year);
    }
  }

  lemma JalaliDayNumberOrders(a: Date, b: Date)
    requires ValidJalali(a) && ValidJalali(b) && 979 <= a.year && 979 <= b.year
    requires Before(a, b)
    ensures JalaliDayNumber(a) < JalaliDayNumber(b)
  {
    JalaliMonthStartClosed(a.year, a.month);
    JalaliMonthStartClosed(b.year, b.month);
    if a.year < b.year {
      JalaliYearStartGrows(a.year, b.year);
    }
  }

  /** Dates with the same day numbers are in the same order. */
  lemma SameOrder(a: Date, b: Date, ja: Date, jb: Date)
    requires ValidGregorian(a) && ValidGregorian(b) && 1600 <= a.year && 1600 <= b.year
    requires ValidJalali(ja) && ValidJalali(jb) && 979 <= ja.year && 979 <= jb.year
    requires JalaliDayNumber(ja) - GregorianDayNumber(a) == JalaliDayNumber(jb) - GregorianDayNumber(b)
    ensures Before(a, b) <==> Before(ja, jb)
  {
    if Before(a, b) {
      GregorianDayNumberOrders(a, b);
    } else if a != b {
      GregorianDayNumberOrders(b, a);
    }
    if Before(ja, jb) {
      JalaliDayNumberOrders(ja, jb);
    } else if ja != jb {
      JalaliDayNumberOrders(jb, ja);
    }
  }

  /** After 1600 the conversion keeps the order of dates, in both directions. */
  lemma ConversionKeepsOrder(a: Date, b: Date)
    requires ValidGregorian(a) && ValidGregorian(b) && a.year > 1600 && b.year > 1600
    ensures Before(a, b) <==> Before(ToJalali(a), ToJalali(b))
  {
    hide ToJalali;
    ConversionKeepsDayNumber(a);
    ConversionKeepsDayNumber(b);
    SameOrder(a, b, ToJalali(a), ToJalali(b));
  }

  lemma NextGregorianNumber(d: Date)
    requires ValidGregorian(d) && 1600 <= d.year
    ensures ValidGregorian(NextGregorian(d))
    ensures GregorianDayNumber(NextGregorian(d)) == GregorianDayNumber(d) + 1
  {
    GregorianMonthStartClosed(d.year, d.month);
    GregorianMonthStartClosed(d.year, if d.month < 12 then d.month + 1 else 12);
  }

  lemma NextJalaliNumber(d: Date)
    requires ValidJalali(d) && 979 <= d.year
    ensures ValidJalali(NextJalali(d))
    ensures JalaliDayNumber(NextJalali(d)) == JalaliDayNumber(d) + 1
  {
    JalaliMonthStartClosed(d.year, d.month);
    JalaliMonthStartClosed(d.year, if d.month < 12 then d.month + 1 else 12);
  }

  /** After 1600 the day after a date is converted to the day after its conversion. */
  lemma ConversionKeepsSuccessor(d: Date)
    requires ValidGregorian(d) && d.year > 1600
    ensures ToJalali(NextGregorian(d)) == NextJalali(ToJalali(d))
  {
    ConversionKeepsDayNumber(d);
    NextGregorianNumber(d);
    ConversionKeepsDayNumber(NextGregorian(d));
    NextJalaliNumber(ToJalali(d));
    JalaliDayNumberIsInjective(ToJalali(NextGregorian(d)), NextJalali(ToJalali(d)));
  }

  lemma JalaliDayNumberIsInjective(a: Date, b: Date)
    requires ValidJalali(a) && ValidJalali(b) && 979 <= a.year && 979 <= b.year
    requires JalaliDayNumber(a) == JalaliDayNumber(b)
    ensures a == b
  {
    if Before(a, b) {
      JalaliDayNumberOrders(a, b);
    } else if a != b {
      JalaliDayNumberOrders(b, a);
    }
  }

  // ---------------------------------------------------------------------
  // The branch for years up to 1600
  // ---------------------------------------------------------------------

  lemma {:induction false} YearsToDaysGrows(a: int, b: int)
    requires a < b
    ensures YearsToDays(a) + 365 <= YearsToDays(b)
    ensures LongYear(a) ==> YearsToDays(a) + 366 <= YearsToDays(b)
    decreases b - a
  {
    hide YearsToDays, LongYear;
    YearsToDaysStep(b - 1);
    if a < b - 1 {
      YearsToDaysGrows(a, b - 1);
    }
  }

  /** Two counts from the same base year never give the same date. */
  lemma SplitIsInjective(base: int, count: int, other: int)
    requires Split(base, count) == Split(base, other)
    ensures count == other
  {
    SplitIsExact(base, count);
    SplitIsExact(base, other);
  }

  /** Away from the end of February the count goes up by one. */
  lemma OrdinaryStep(d: Date)
    requires ValidGregorian(d) && NextGregorian(d).year <= 1600
    requires d.month != 2 || d.day < GregorianMonthLength(d.year, d.month)
    ensures DayCount(NextGregorian(d)) == DayCount(d) + 1
  {
    if d.day == GregorianMonthLength(d.year, d.month) && d.month < 12 {
      assert MONTH_OFFSETS[d.month] == MONTH_OFFSETS[d.month - 1] + d.day;
    }
  }

  /** At the end of February the leap shift decides, and up to 1600 it is out of phase. */
  lemma EndOfFebruaryStep(d: Date)
    requires ValidGregorian(d) && d.year <= 1600 && d.month == 2
    requires d.day == GregorianMonthLength(d.year, d.month)
    ensures DayCount(NextGregorian(d)) == DayCount(d) <==> d.day == 29
  {
    var g := d.year - 621;
    assert DayCount(NextGregorian(d)) == DayCount(d) + 29 - d.day + LeapDays(g + 1) - LeapDays(g);
    LeapDaysStep(g);
    if GregorianLeap(d.year) {
      NeitherBothLeap(d.year);
    }
  }

  lemma NeitherBothLeap(year: int)
    requires GregorianLeap(year)
    ensures !GregorianLeap(year - 621)
  {
    QuotientIs(year - 621, 4, year / 4 - 156, 3);
  }

  /** Where the two branches meet, one Jalali day is skipped. */
  lemma TurnOf1601()
    ensures ToJalali(Date(1600, 12, 31)) == Date(979, 10, 10)
    ensures ToJalali(Date(1601, 1, 1)) == Date(979, 10, 12)
  {
    CountsAroundTheTurn();
    hide DayCount;
    assert 357858 / 12053 == 29 && 357858 % 12053 == 8321 && 8321 / 1461 == 5 && 8321 % 1461 == 1016;
  }

  lemma CountsAroundTheTurn()
    ensures DayCount(Date(1600, 12, 31)) == 357858
    ensures DayCount(Date(1601, 1, 1)) == 287
  {
    assert LeapDays(980) == 238 && LeapDays(1) == 1;
    hide LeapDays;
  }

  /**
   Consecutive days are told apart exactly when they are not 29 February and
   1 March of a year up to 1600; from 1601 on this never happens.
   */
  lemma ConsecutiveDaysCollide(d: Date)
    requires ValidGregorian(d)
    ensures ToJalali(NextGregorian(d)) == ToJalali(d)
       <==> d.year <= 1600 && d.month == 2 && d.day == 29
  {
    var e := NextGregorian(d);
    if d == Date(1600, 12, 31) {
      TurnOf1601();
    } else if d.year > 1600 {
      ConversionKeepsDayNumber(d);
      NextGregorianNumber(d);
      ConversionKeepsDayNumber(e);
    } else {
      if d.month == 2 && d.day == GregorianMonthLength(d.year, d.month) {
        EndOfFebruaryStep(d);
      } else {
        OrdinaryStep(d);
      }
      if ToJalali(e) == ToJalali(d) {
        SplitIsInjective(0, DayCount(e), DayCount(d));
      }
    }
  }

  // ---------------------------------------------------------------------
  // The formatted business date
  // ---------------------------------------------------------------------

  /** The decimal digits of `n`, zero-padded to `width` characters. */
  function Padded(n: nat, width: nat): (s: string)
    decreases width
  {
    if width == 0 then ""
    else Padded(n / 10, width - 1) + [('0' as int + n % 10) as char]
  }

  /** `yyyy/mm/dd`, for the years that fit four digits. */
  function Formatted(d: Date): string
    requires 0 <= d.year <= 9999 && 1 <= d.month <= 12 && 1 <= d.day <= 31
  {
    Padded(d.year, 4) + "/" + Padded(d.month, 2) + "/" + Padded(d.day, 2)
  }

  lemma {:induction false} PaddedLength(n: nat, width: nat)
    ensures |Padded(n, width)| == width
    decreases width
  {
    if width > 0 {
      PaddedLength(n / 10, width - 1);
    }
  }

  lemma {:induction false} SortsBeforeAppend(a: string, b: string, x: string, y: string)
    requires |a| == |b|
    ensures SortsBefore(a + x, b + y) <==> SortsBefore(a, b) || (a == b && SortsBefore(x, y))
  {
    if a == [] {
      assert a + x == x && b + y == y;
    } else {
      assert (a + x)[1..] == a[1..] + x && (b + y)[1..] == b[1..] + y;
      SortsBeforeAppend(a[1..], b[1..], x, y);
      assert a == [a[0]] + a[1..] && b == [b[0]] + b[1..];
    }
  }

  ghost function Power10(width: nat): nat {
    if width == 0 then 1 else 10 * Power10(width - 1)
  }

  lemma {:induction false} PaddedSorts(m: nat, n: nat, width: nat)
    requires m < Power10(width) && n < Power10(width)
    ensures SortsBefore(Padded(m, width), Padded(n, width)) <==> m < n
    ensures Padded(m, width) == Padded(n, width) <==> m == n
    decreases width
  {
    if width > 0 {
      PaddedSorts(m / 10, n / 10, width - 1);
      PaddedLength(m / 10, width - 1);
      PaddedLength(n / 10, width - 1);
      var c, d := ('0' as int + m % 10) as char, ('0' as int + n % 10) as char;
      SortsBeforeAppend(Padded(m / 10, width - 1), Padded(n / 10, width - 1), [c], [d]);
      assert c == d <==> m % 10 == n % 10;
      assert SortsBefore([c], [d]) <==> c < d;
      if Padded(m, width) == Padded(n, width) {
        assert Padded(m, width)[..width - 1] == Padded(m / 10, width - 1);
        assert Padded(n, width)[..width - 1] == Padded(n / 10, width - 1);
        assert Padded(m, width)[width - 1] == c && Padded(n, width)[width - 1] == d;
      }
    }
  }

  lemma {:induction false} NothingSortsBeforeItself(a: string)
    ensures !SortsBefore(a, a)
  {
    if a != [] {
      NothingSortsBeforeItself(a[1..]);
    }
  }

  lemma FormattedSorts(a: Date, b: Date)
    requires 0 <= a.year <= 9999 && 1 <= a.month <= 12 && 1 <= a.day <= 31
    requires 0 <= b.year <= 9999 && 1 <= b.month <= 12 && 1 <= b.day <= 31
    ensures SortsBefore(Formatted(a), Formatted(b)) <==> Before(a, b)
  {
    Power10Values();
    hide SortsBefore, Padded, Power10;
    var ya, yb := Padded(a.year, 4), Padded(b.year, 4);
    var ma, mb := Padded(a.month, 2), Padded(b.month, 2);
    var da, db := Padded(a.day, 2), Padded(b.day, 2);
    PaddedSorts(a.year, b.year, 4);
    PaddedSorts(a.month, b.month, 2);
    PaddedSorts(a.day, b.day, 2);
    PaddedLength(a.year, 4);
    PaddedLength(b.year, 4);
    PaddedLength(a.month, 2);
    PaddedLength(b.month, 2);
    NothingSortsBeforeItself("/");
    var ra, rb := ma + ("/" + da), mb + ("/" + db);
    SortsBeforeAppend("/", "/", da, db);
    SortsBeforeAppend(ma, mb, "/" + da, "/" + db);
    SortsBeforeAppend("/", "/", ra, rb);
    SortsBeforeAppend(ya, yb, "/" + ra, "/" + rb);
    assert Formatted(a) == ya + ("/" + ra);
    assert Formatted(b) == yb + ("/" + rb);
  }

  lemma Power10Values()
    ensures Power10(4) == 10000 && Power10(2) == 100
  {
  }

  /** Business dates sort as text exactly as the days follow each other. */
  lemma BusinessDatesSortChronologically(a: Date, b: Date)
    requires ValidGregorian(a) && ValidGregorian(b)
    requires 1600 < a.year <= 9999 && 1600 < b.year <= 9999
    ensures ToJalali(a).year <= 9999 && ToJalali(b).year <= 9999
    ensures ValidJalali(ToJalali(a)) && ValidJalali(ToJalali(b))
    ensures SortsBefore(Formatted(ToJalali(a)), Formatted(ToJalali(b))) <==> Before(a, b)
  {
    ConversionKeepsDayNumber(a);
    ConversionKeepsDayNumber(b);
    JalaliYearFits(a);
    JalaliYearFits(b);
    FormattedSorts(ToJalali(a), ToJalali(b));
    ConversionKeepsOrder(a, b);
  }

  lemma JalaliYearFits(d: Date)
    requires ValidGregorian(d) && 1600 < d.year <= 9999
    ensures 979 <= ToJalali(d).year <= 9999
  {
    var last := Date(9999, 12, 31);
    assert ToJalali(last).year == 9378;
    ConversionKeepsDayNumber(d);
    if Before(last, d) {
    } else {
      ConversionKeepsOrder(last, d);
    }
  }
}
