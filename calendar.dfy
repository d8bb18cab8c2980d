/**
 * Calendar arithmetic behind the weekly report: proleptic Gregorian dates, their day
 * numbers, rollover to the next and the previous day, the day of the week, and the
 * `YYYY-MM-DD` text form (the full-date of section 5.6 of RFC 3339) that
 * `Date.prototype.toISOString` writes and the date-only forms that `new Date(s)` reads.
 *
 * Day numbers count days from 0000-01-01 (day 0); JavaScript counts from 1970-01-01,
 * which is day 719528 here, so the two differ by a constant and agree on every difference.
 */
module Calendar {
  import opened Wrappers
  import opened Text

  /** A calendar date; `ValidDate` says whether it names a real day. */
  datatype Date = Date(year: int, month: int, day: int)

  predicate IsLeapYear(y: int)
  {
    y % 4 == 0 && (y % 100 != 0 || y % 400 == 0)
  }

  function DaysInMonth(y: int, m: int): int
    requires 1 <= m <= 12
  {
    if m == 2 then (if IsLeapYear(y) then 29 else 28)
    else if m == 4 || m == 6 || m == 9 || m == 11 then 30
    else 31
  }

  function DaysInYear(y: int): int
  {
    if IsLeapYear(y) then 366 else 365
  }

  predicate ValidDate(d: Date)
  {
    1 <= d.month <= 12 && 1 <= d.day <= DaysInMonth(d.year, d.month)
  }

  /** Days from 0000-01-01 to the first of January of year `y`: 365 a year plus one per leap year before it. */
  function DaysBeforeYear(y: int): int
  {
    365 * y + (y + 3) / 4 - (y + 99) / 100 + (y + 399) / 400
  }

  /** Days from the first of January to the first of month `m` of year `y`. */
  function DaysBeforeMonth(y: int, m: int): int
    requires 1 <= m <= 12
  {
    (match m
     case 1 => 0 case 2 => 31 case 3 => 59 case 4 => 90 case 5 => 120 case 6 => 151
     case 7 => 181 case 8 => 212 case 9 => 243 case 10 => 273 case 11 => 304 case _ => 334)
    + (if m > 2 && IsLeapYear(y) then 1 else 0)
  }

  /**
   * ECMA-262 MakeDay: the day number of day `date` of month `m` of year `y`, where `date`
   * may lie outside the month (0 is the last day of the month before, 32 a day of the next).
   * This is what `Date.prototype.setDate` relies on.
   */
  function MakeDay(y: int, m: int, date: int): int
    requires 1 <= m <= 12
  {
    DaysBeforeYear(y) + DaysBeforeMonth(y, m) + date - 1
  }

  function DayNumber(d: Date): int
    requires 1 <= d.month <= 12
  {
    MakeDay(d.year, d.month, d.day)
  }

  /** ECMA-262 WeekDay: 0 = Sunday, 1 = Monday, ..., 6 = Saturday; day 0 (0000-01-01) was a Saturday. */
  function Weekday(n: int): int
  {
    (n + 6) % 7
  }

  /** The following day, rolling over the end of a month and of a year. */
  function NextDay(d: Date): Date
    requires ValidDate(d)
  {
    if d.day < DaysInMonth(d.year, d.month) then Date(d.year, d.month, d.day + 1)
    else if d.month < 12 then Date(d.year, d.month + 1, 1)
    else Date(d.year + 1, 1, 1)
  }

  /** The preceding day, rolling back over the start of a month and of a year. */
  function PrevDay(d: Date): Date
    requires ValidDate(d)
  {
    if d.day > 1 then Date(d.year, d.month, d.day - 1)
    else if d.month > 1 then Date(d.year, d.month - 1, DaysInMonth(d.year, d.month - 1))
    else Date(d.year - 1, 12, 31)
  }

  /** A year is as long as the days between its first of January and the next one. */
  lemma YearLength(y: int)
    ensures DaysBeforeYear(y + 1) == DaysBeforeYear(y) + DaysInYear(y)
  {
    CountStep4(y);
    CountStep100(y);
    CountStep400(y);
    DivisorChain(y);
  }

  /** A multiple of 400 is a multiple of 100, and a multiple of 100 is a multiple of 4. */
  lemma DivisorChain(y: int)
    ensures y % 400 == 0 ==> y % 100 == 0
    ensures y % 100 == 0 ==> y % 4 == 0
  {
    if y % 400 == 0 {
      var k := y / 400;
      assert y == 400 * k;
      MultipleMod(k);
    }
    if y % 100 == 0 {
      var k := y / 100;
      assert y == 100 * k;
      MultipleMod(k);
    }
  }

  lemma MultipleMod(k: int)
    ensures (400 * k) % 100 == 0 && (100 * k) % 4 == 0
  {
    assert 400 * k == 100 * (4 * k) + 0;
    assert 100 * k == 4 * (25 * k) + 0;
  }

  /** The count of multiples of 4 before a year grows by one past each multiple. */
  lemma CountStep4(y: int)
    ensures (y + 4) / 4 - (y + 3) / 4 == if y % 4 == 0 then 1 else 0
  {
    var q, r := y / 4, y % 4;
    assert y + 4 == 4 * (q + 1) + r;
    assert y + 3 == if r == 0 then 4 * q + 3 else 4 * (q + 1) + (r - 1);
  }

  lemma CountStep100(y: int)
    ensures (y + 100) / 100 - (y + 99) / 100 == if y % 100 == 0 then 1 else 0
  {
    var q, r := y / 100, y % 100;
    assert y + 100 == 100 * (q + 1) + r;
    assert y + 99 == if r == 0 then 100 * q + 99 else 100 * (q + 1) + (r - 1);
  }

  lemma CountStep400(y: int)
    ensures (y + 400) / 400 - (y + 399) / 400 == if y % 400 == 0 then 1 else 0
  {
    var q, r := y / 400, y % 400;
    assert y + 400 == 400 * (q + 1) + r;
    assert y + 399 == if r == 0 then 400 * q + 399 else 400 * (q + 1) + (r - 1);
  }

  /** Moving to the next day adds one to the day number and stays on a valid date. */
  lemma NextDayNumber(d: Date)
    requires ValidDate(d)
    ensures ValidDate(NextDay(d))
    ensures DayNumber(NextDay(d)) == DayNumber(d) + 1
  {
    if d.day == DaysInMonth(d.year, d.month) && d.month == 12 {
      YearLength(d.year);
    }
  }

  /** `PrevDay` undoes `NextDay`. */
  lemma NextOfPrevDay(d: Date)
    requires ValidDate(d)
    ensures ValidDate(PrevDay(d))
    ensures NextDay(PrevDay(d)) == d
  {
  }

  lemma PrevDayNumber(d: Date)
    requires ValidDate(d)
    ensures ValidDate(PrevDay(d))
    ensures DayNumber(PrevDay(d)) == DayNumber(d) - 1
  {
    NextOfPrevDay(d);
    NextDayNumber(PrevDay(d));
  }

  /**
   * The date with day number `n`: what `toISOString` recovers from a time value. It is
   * reached from 0000-01-01 one day at a time, so each rollover is `NextDay`'s or `PrevDay`'s.
   */
  function FromDayNumber(n: int): (d: Date)
    ensures ValidDate(d) && DayNumber(d) == n
    decreases if n < 0 then -n else n
  {
    if n == 0 then Date(0, 1, 1)
    else if n > 0 then
      var p := FromDayNumber(n - 1);
      NextDayNumber(p);
      NextDay(p)
    else
      var p := FromDayNumber(n + 1);
      PrevDayNumber(p);
      PrevDay(p)
  }

  /** Calendar order: by year, then month, then day. */
  predicate OnOrBefore(a: Date, b: Date)
  {
    a.year < b.year || (a.year == b.year && (a.month < b.month || (a.month == b.month && a.day <= b.day)))
  }

  lemma DaysBeforeYearMonotone(y: int, z: int)
    requires y <= z
    ensures DaysBeforeYear(y) <= DaysBeforeYear(z)
  {
  }

  /** A valid date's day number lies within its year. */
  lemma DayNumberInYear(d: Date)
    requires ValidDate(d)
    ensures DaysBeforeYear(d.year) <= DayNumber(d) < DaysBeforeYear(d.year + 1)
  {
    YearLength(d.year);
  }

  /** A valid date's day number lies within its month. */
  lemma DayNumberInMonth(d: Date, m: int)
    requires ValidDate(d) && d.month < m <= 12
    ensures DayNumber(d) < MakeDay(d.year, m, 1)
  {
  }

  /** Day numbers follow calendar order. */
  lemma DayNumberOrder(a: Date, b: Date)
    requires ValidDate(a) && ValidDate(b)
    ensures DayNumber(a) <= DayNumber(b) <==> OnOrBefore(a, b)
  {
    DayNumberInYear(a);
    DayNumberInYear(b);
    if a.year < b.year {
      DaysBeforeYearMonotone(a.year + 1, b.year);
    } else if b.year < a.year {
      DaysBeforeYearMonotone(b.year + 1, a.year);
    } else if a.month < b.month {
      DayNumberInMonth(a, b.month);
    } else if b.month < a.month {
      DayNumberInMonth(b, a.month);
    }
  }

  /** Distinct valid dates have distinct day numbers. */
  lemma DayNumberInjective(a: Date, b: Date)
    requires ValidDate(a) && ValidDate(b) && DayNumber(a) == DayNumber(b)
    ensures a == b
  {
    DayNumberOrder(a, b);
    DayNumberOrder(b, a);
  }

  /** Going to a day number and back is the identity on valid dates. */
  lemma DayNumberRoundTrip(d: Date)
    requires ValidDate(d)
    ensures FromDayNumber(DayNumber(d)) == d
  {
    DayNumberInjective(FromDayNumber(DayNumber(d)), d);
  }

  // ---------------------------------------------------------------------------
  // The day of the week as RFC 3339 Appendix B computes it
  // ---------------------------------------------------------------------------

  /**
   * The day-of-week routine of Appendix B of RFC 3339 (0 = Sunday): months are shifted so
   * that February is the last month of the previous year, then the year is split into
   * century and year of century. Its C divisions truncate; here they floor, which is the
   * same for every year from 1 on and also makes the routine right before that.
   */
  function RfcDayOfWeek(d: Date): int
  {
    var shifted := d.month - 2;
    var month := if shifted < 1 then shifted + 12 else shifted;
    var year := if shifted < 1 then d.year - 1 else d.year;
    var cent := year / 100;
    var y := year % 100;
    ((26 * month - 2) / 10 + d.day + y + y / 4 + cent / 4 + 5 * cent) % 7
  }

  /** The month-dependent part of the routine, for a month numbered from March = 1. */
  function MonthTerm(month: int): int
  {
    (26 * month - 2) / 10
  }

  /** The year-dependent part of the routine, for the year that starts in March of `year`. */
  function CenturyTerm(year: int): int
  {
    var cent := year / 100;
    var y := year % 100;
    y + y / 4 + cent / 4 + 5 * cent
  }

  /** The routine is the sum of a month part, the day and a year part. */
  lemma RfcParts(d: Date)
    ensures d.month > 2 ==> RfcDayOfWeek(d) == (MonthTerm(d.month - 2) + d.day + CenturyTerm(d.year)) % 7
    ensures d.month <= 2 ==> RfcDayOfWeek(d) == (MonthTerm(d.month + 10) + d.day + CenturyTerm(d.year - 1)) % 7
  {
  }

  /** From the March of one year to the March of the next, the year part grows by the length of February less 27. */
  lemma CenturyTermStep(y: int)
    ensures (CenturyTerm(y) - CenturyTerm(y - 1)) % 7 == (if IsLeapYear(y) then 2 else 1)
  {
    var q, r := (y - 1) / 100, (y - 1) % 100;
    Hundreds(y - 1, q, r);
    QuarterStep(r);
    if r < 99 {
      Hundreds(y, q, r + 1);
      Hundreds4(q, r + 1);
      assert CenturyTerm(y) - CenturyTerm(y - 1) == 1 + (r + 1) / 4 - r / 4;
    } else {
      Hundreds(y, q + 1, 0);
      Hundreds4(q + 1, 0);
      QuarterStep(q);
      assert CenturyTerm(y) - CenturyTerm(y - 1) == -118 + (q + 1) / 4 - q / 4;
    }
  }

  /** Splitting a number into hundreds and a remainder below 100. */
  lemma Hundreds(y: int, q: int, r: int)
    requires y == 100 * q + r && 0 <= r < 100
    ensures y / 100 == q && y % 100 == r
  {
  }

  /** A multiple of 100 changes neither the remainder by 4 nor, past it, the remainder by 400. */
  lemma Hundreds4(q: int, r: int)
    requires 0 <= r < 100
    ensures (100 * q + r) % 4 == r % 4
    ensures r == 0 ==> ((100 * q) % 400 == 0 <==> q % 4 == 0)
  {
    var a, b := r / 4, r % 4;
    assert 100 * q + r == 4 * (25 * q + a) + b;
    var c, e := q / 4, q % 4;
    assert 100 * q == 400 * c + 100 * e;
  }

  /** The quotient by 4 grows by one exactly at multiples of 4. */
  lemma QuarterStep(r: int)
    ensures (r + 1) / 4 - r / 4 == if (r + 1) % 4 == 0 then 1 else 0
  {
  }

  /** Within a month, the routine advances by one from each day to the next. */
  lemma RfcNextDayInMonth(d: Date)
    requires ValidDate(d) && d.day < DaysInMonth(d.year, d.month)
    ensures RfcDayOfWeek(NextDay(d)) == (RfcDayOfWeek(d) + 1) % 7
  {
    RfcParts(d);
    RfcParts(NextDay(d));
    var y := if d.month > 2 then d.year else d.year - 1;
    var m := if d.month > 2 then d.month - 2 else d.month + 10;
    ModStep(MonthTerm(m) + d.day + CenturyTerm(y), MonthTerm(m) + d.day + 1 + CenturyTerm(y), 1);
  }

  /** Residues modulo 7 follow differences. */
  lemma ModStep(a: int, b: int, k: int)
    requires (b - a) % 7 == k % 7
    ensures b % 7 == (a % 7 + k) % 7
  {
  }

  /** The arithmetic of a step to the first of the next month, with the parts as plain numbers. */
  lemma NewMonthArith(m0: int, m1: int, day: int, c: int)
    requires (m1 + 1 - m0 - day) % 7 == 1
    ensures (m1 + 1 + c) % 7 == ((m0 + day + c) % 7 + 1) % 7
  {
  }

  /** From the last day of a month other than February to the first of the next, the routine advances by one. */
  lemma RfcNextDayNewMonth(d: Date)
    requires ValidDate(d) && d.day == DaysInMonth(d.year, d.month) && d.month != 2
    ensures RfcDayOfWeek(NextDay(d)) == (RfcDayOfWeek(d) + 1) % 7
  {
    if d.month == 12 {
      RfcNewYear(d.year);
    } else if d.month == 1 {
      RfcFebruary(d.year);
    } else {
      RfcNewMonth(d);
    }
  }

  lemma RfcNewYear(y: int)
    ensures RfcDayOfWeek(Date(y + 1, 1, 1)) == (RfcDayOfWeek(Date(y, 12, 31)) + 1) % 7
  {
    RfcParts(Date(y, 12, 31));
    RfcParts(Date(y + 1, 1, 1));
    assert MonthTerm(10) == 25 && MonthTerm(11) == 28;
    NewMonthArith(MonthTerm(10), MonthTerm(11), 31, CenturyTerm(y));
  }

  lemma RfcFebruary(y: int)
    ensures RfcDayOfWeek(Date(y, 2, 1)) == (RfcDayOfWeek(Date(y, 1, 31)) + 1) % 7
  {
    RfcParts(Date(y, 1, 31));
    RfcParts(Date(y, 2, 1));
    assert MonthTerm(11) == 28 && MonthTerm(12) == 31;
    NewMonthArith(MonthTerm(11), MonthTerm(12), 31, CenturyTerm(y - 1));
  }

  lemma RfcNewMonth(d: Date)
    requires ValidDate(d) && d.day == DaysInMonth(d.year, d.month) && 3 <= d.month <= 11
    ensures RfcDayOfWeek(Date(d.year, d.month + 1, 1)) == (RfcDayOfWeek(d) + 1) % 7
  {
    var m := d.month - 2;
    RfcParts(d);
    RfcParts(Date(d.year, d.month + 1, 1));
    MonthTermStep(m, d.day);
    NewMonthArith(MonthTerm(m), MonthTerm(m + 1), d.day, CenturyTerm(d.year));
  }

  /** From March to December, the month part grows by the length of the month less 28. */
  lemma MonthTermStep(m: int, days: int)
    requires 1 <= m <= 9 && days == DaysInMonth(0, m + 2)
    ensures (MonthTerm(m + 1) + 1 - MonthTerm(m) - days) % 7 == 1
  {
    assert m == 1 || m == 2 || m == 3 || m == 4 || m == 5 || m == 6 || m == 7 || m == 8 || m == 9;
  }

  /** The arithmetic of the step from February to March, with the parts as plain numbers. */
  lemma MarchArith(c0: int, c1: int, day: int, leap: bool)
    requires (c1 - c0) % 7 == (if leap then 2 else 1) && day == (if leap then 29 else 28)
    ensures (3 + c1) % 7 == ((31 + day + c0) % 7 + 1) % 7
  {
  }

  /** From the last day of February to the first of March, the routine advances by one. */
  lemma RfcNextDayMarch(d: Date)
    requires ValidDate(d) && d.day == DaysInMonth(d.year, d.month) && d.month == 2
    ensures RfcDayOfWeek(NextDay(d)) == (RfcDayOfWeek(d) + 1) % 7
  {
    RfcParts(d);
    var e := NextDay(d);
    assert e == Date(d.year, 3, 1);
    RfcParts(e);
    CenturyTermStep(d.year);
    assert MonthTerm(1) == 2 && MonthTerm(12) == 31;
    MarchArith(CenturyTerm(d.year - 1), CenturyTerm(d.year), d.day, IsLeapYear(d.year));
  }

  /** The routine advances by one day of the week from each day to the next. */
  lemma RfcNextDay(d: Date)
    requires ValidDate(d)
    ensures RfcDayOfWeek(NextDay(d)) == (RfcDayOfWeek(d) + 1) % 7
  {
    if d.day < DaysInMonth(d.year, d.month) {
      RfcNextDayInMonth(d);
    } else if d.month == 2 {
      RfcNextDayMarch(d);
    } else {
      RfcNextDayNewMonth(d);
    }
  }

  /** The first of January of year 0 was a Saturday by the routine as well as by `Weekday`. */
  lemma RfcEpoch()
    ensures RfcDayOfWeek(Date(0, 1, 1)) == 6
  {
  }

  /** Day 0 is the first of January of year 0 and no other date. */
  lemma EpochDayNumber(d: Date)
    requires ValidDate(d) && DayNumber(d) == 0
    ensures d == Date(0, 1, 1)
  {
    var e := Date(0, 1, 1);
    assert ValidDate(e) && DayNumber(e) == 0;
    DayNumberInjective(d, e);
  }

  /** The day of the week of the next day number is one more, modulo 7. */
  lemma WeekdayStep(n: int, r: int)
    requires r == Weekday(n)
    ensures Weekday(n + 1) == (r + 1) % 7
  {
  }

  /** If the routine is one ahead on the next day and `Weekday` agrees there, it agrees here. */
  lemma WeekdayBackStep(n: int, r: int, s: int)
    requires 0 <= r < 7 && s == (r + 1) % 7 && s == Weekday(n + 1)
    ensures r == Weekday(n)
  {
  }

  /**
   * JavaScript's `getDay` (the day of the week of the day number) and the RFC 3339 routine
   * agree on every valid date: by induction on the distance of the day number from day 0.
   */
  lemma {:induction false} WeekdayMatchesRfc(d: Date)
    requires ValidDate(d)
    ensures Weekday(DayNumber(d)) == RfcDayOfWeek(d)
    decreases if DayNumber(d) < 0 then -DayNumber(d) else DayNumber(d)
  {
    var n := DayNumber(d);
    if n == 0 {
      RfcEpoch();
      EpochDayNumber(d);
    } else if n > 0 {
      var p := PrevDay(d);
      PrevDayNumber(d);
      NextOfPrevDay(d);
      WeekdayMatchesRfc(p);
      RfcNextDay(p);
      WeekdayStep(n - 1, RfcDayOfWeek(p));
    } else {
      var q := NextDay(d);
      NextDayNumber(d);
      WeekdayMatchesRfc(q);
      RfcNextDay(d);
      WeekdayBackStep(n, RfcDayOfWeek(d), RfcDayOfWeek(q));
    }
  }

  // ---------------------------------------------------------------------------
  // Text form
  // ---------------------------------------------------------------------------

  /** The year as `toISOString` writes it: four digits for 0..9999, otherwise a sign and six digits. */
  function YearString(y: int): string
  {
    if 0 <= y <= 9999 then Pad(y, 4)
    else if y < 0 then "-" + Pad(-y, 6)
    else "+" + Pad(y, 6)
  }

  /** The date part of `toISOString()`, i.e. `toISOString().split('T')[0]`. */
  function IsoDate(d: Date): string
    requires ValidDate(d)
  {
    YearString(d.year) + "-" + Pad(d.month, 2) + "-" + Pad(d.day, 2)
  }

  /** The `YYYY-MM` month label, as `toISOString().slice(0, 7)` gives it. */
  function MonthLabel(y: int, m: nat): string
  {
    YearString(y) + "-" + Pad(m, 2)
  }

  predicate DigitsAt(s: string, from: nat, to: nat)
  {
    from <= to <= |s| && AllRadixDigits(s[from..to], 10)
  }

  function NumberAt(s: string, from: nat, to: nat): nat
    requires DigitsAt(s, from, to)
  {
    Value(s[from..to], 10)
  }

  /**
   * `new Date(s)` for the date-only forms of the ECMAScript date-time string format:
   * `YYYY`, `YYYY-MM` and `YYYY-MM-DD`, read as UTC; any other text gives `None`
   * (an Invalid Date).
   */
  function ParseDate(s: string): (r: Option<Date>)
    ensures r.Some? ==> ValidDate(r.value) && 0 <= r.value.year <= 9999
  {
    if !DigitsAt(s, 0, 4) then None
    else
      var y := NumberAt(s, 0, 4);
      ValuePad(s[0..4]);
      if |s| == 4 then Some(Date(y, 1, 1))
      else if |s| < 7 || s[4] != '-' || !DigitsAt(s, 5, 7) then None
      else
        var m := NumberAt(s, 5, 7);
        if m < 1 || m > 12 then None
        else if |s| == 7 then Some(Date(y, m, 1))
        else if |s| != 10 || s[7] != '-' || !DigitsAt(s, 8, 10) then None
        else
          var d := NumberAt(s, 8, 10);
          if d < 1 || d > DaysInMonth(y, m) then None
          else Some(Date(y, m, d))
  }

  /** Reading back what `toISOString` writes gives the same date, for four-digit years. */
  lemma ParseIsoDate(d: Date)
    requires ValidDate(d) && 0 <= d.year <= 9999
    ensures ParseDate(IsoDate(d)) == Some(d)
  {
    var s := IsoDate(d);
    assert s[0..4] == Pad(d.year, 4);
    assert s[5..7] == Pad(d.month, 2);
    assert s[8..10] == Pad(d.day, 2);
    PadValue(d.year, 4);
    PadValue(d.month, 2);
    PadValue(d.day, 2);
  }

  /** A full `YYYY-MM-DD` text that reads as a date is exactly what `toISOString` writes for it. */
  lemma IsoDateOfParse(s: string)
    requires |s| == 10 && ParseDate(s).Some?
    ensures IsoDate(ParseDate(s).value) == s
  {
    ValuePad(s[0..4]);
    ValuePad(s[5..7]);
    ValuePad(s[8..10]);
    assert s == s[0..4] + "-" + s[5..7] + "-" + s[8..10];
  }

  /**
   * For four-digit years, comparing `YYYY-MM-DD` texts as SQLite does is comparing the
   * dates: the weekly report's `date >= ? AND date <= ?` selects a calendar range.
   */
  lemma IsoDateOrder(a: Date, b: Date)
    requires ValidDate(a) && ValidDate(b)
    requires 0 <= a.year <= 9999 && 0 <= b.year <= 9999
    ensures LexLe(IsoDate(a), IsoDate(b)) <==> DayNumber(a) <= DayNumber(b)
  {
    DayNumberOrder(a, b);
    PadOrder(a.year, b.year, 4);
    PadInjective(a.year, b.year, 4);
    PadOrder(a.month, b.month, 2);
    PadInjective(a.month, b.month, 2);
    PadOrder(a.day, b.day, 2);
    DateTextOrder(Pad(a.year, 4), Pad(a.month, 2), Pad(a.day, 2), Pad(b.year, 4), Pad(b.month, 2), Pad(b.day, 2));
  }

  /** Text of the form `Y-M-D` with fields of equal widths compares field by field. */
  lemma DateTextOrder(ya: string, ma: string, da: string, yb: string, mb: string, db: string)
    requires |ya| == |yb| && |ma| == |mb|
    ensures LexLe(ya + "-" + ma + "-" + da, yb + "-" + mb + "-" + db) <==>
      (ya != yb && LexLe(ya, yb)) || (ya == yb && ((ma != mb && LexLe(ma, mb)) || (ma == mb && LexLe(da, db))))
  {
    assert ya + "-" + ma + "-" + da == ya + ("-" + (ma + ("-" + da)));
    assert yb + "-" + mb + "-" + db == yb + ("-" + (mb + ("-" + db)));
    LexLeConcat(ya, "-" + (ma + ("-" + da)), yb, "-" + (mb + ("-" + db)));
    LexLeConcat("-", ma + ("-" + da), "-", mb + ("-" + db));
    LexLeConcat(ma, "-" + da, mb, "-" + db);
    LexLeConcat("-", da, "-", db);
  }

  /**
   * For four-digit years, a date's text starts with the `YYYY-MM` label of a month exactly
   * when the date lies in that month: the `LIKE 'YYYY-MM%'` of the monthly report.
   */
  lemma IsoDateInMonth(d: Date, y: int, m: int)
    requires ValidDate(d) && 0 <= d.year <= 9999
    requires 0 <= y <= 9999 && 1 <= m <= 12
    ensures StartsWith(IsoDate(d), MonthLabel(y, m)) <==> d.year == y && d.month == m
  {
    var s := IsoDate(d);
    assert s[..7] == Pad(d.year, 4) + "-" + Pad(d.month, 2);
    PadInjective(d.year, y, 4);
    PadInjective(d.month, m, 2);
    if s[..7] == MonthLabel(y, m) {
      assert s[..4] == Pad(d.year, 4) && MonthLabel(y, m)[..4] == Pad(y, 4);
      assert s[5..7] == Pad(d.month, 2) && MonthLabel(y, m)[5..7] == Pad(m, 2);
    }
  }

  /**
   * For years 1000..9999, a date's text starts with the decimal numeral of a year exactly
   * when the date lies in that year: the `LIKE '${year}%'` of the annual report.
   */
  lemma IsoDateInYear(d: Date, y: int)
    requires ValidDate(d) && 0 <= d.year <= 9999
    requires 1000 <= y <= 9999
    ensures StartsWith(IsoDate(d), IntToString(y)) <==> d.year == y
  {
    PadOfFourDigitYear(y);
    PadInjective(d.year, y, 4);
    assert IsoDate(d)[..4] == Pad(d.year, 4);
  }

  /** Years with four digits have no padding to add. */
  lemma PadOfFourDigitYear(y: int)
    requires 1000 <= y <= 9999
    ensures IntToString(y) == Pad(y, 4)
  {
    var a, b, c := y / 10, y / 100, y / 1000;
    assert a / 10 == b && b / 10 == c && c / 10 == 0 && 1 <= c <= 9;
    var d0, d1, d2, d3 := [DigitChar(y % 10)], [DigitChar(a % 10)], [DigitChar(b % 10)], [DigitChar(c)];
    assert Decimal(c) == d3 == Pad(c, 1);
    assert Decimal(b) == d3 + d2 == Pad(b, 2);
    assert Decimal(a) == d3 + d2 + d1 == Pad(a, 3);
    assert Decimal(y) == d3 + d2 + d1 + d0 == Pad(y, 4);
  }

  // ---------------------------------------------------------------------------
  // The week around a date
  // ---------------------------------------------------------------------------

  /** How many days a date lies after the Monday of its week (Sunday closes the week). */
  function DaysSinceMonday(weekday: int): int
  {
    if weekday == 0 then 6 else weekday - 1
  }

  /**
   * The first day of the week of `anchor`: `setDate(getDate() - getDay() + (getDay() == 0 ? -6 : 1))`,
   * with the rollover into the previous month or year that `setDate` performs.
   */
  function WeekStart(anchor: Date): (start: Date)
    requires ValidDate(anchor)
    ensures ValidDate(start)
    ensures DayNumber(start) == DayNumber(anchor) - DaysSinceMonday(Weekday(DayNumber(anchor)))
  {
    var dow := Weekday(DayNumber(anchor));
    var diff := anchor.day - dow + (if dow == 0 then -6 else 1);
    FromDayNumber(MakeDay(anchor.year, anchor.month, diff))
  }

  /** The last day of the week that starts on `start`: `setDate(getDate() + 6)`. */
  function WeekEnd(start: Date): (end: Date)
    requires ValidDate(start)
    ensures ValidDate(end) && DayNumber(end) == DayNumber(start) + 6
  {
    FromDayNumber(MakeDay(start.year, start.month, start.day + 6))
  }

  /** Counting back `DaysSinceMonday` days from any day number lands on a Monday. */
  lemma BackToMonday(n: int)
    ensures Weekday(n - DaysSinceMonday(Weekday(n))) == 1
    ensures 0 <= DaysSinceMonday(Weekday(n)) <= 6
  {
    var w := Weekday(n);
    assert n + 6 == 7 * ((n + 6) / 7) + w;
    if w == 0 {
      assert n - 6 + 6 == 7 * ((n + 6) / 7 - 1) + 1;
    } else {
      assert n - (w - 1) + 6 == 7 * ((n + 6) / 7) + 1;
    }
  }

  /**
   * The week of a date runs from a Monday to the Sunday six days later and contains the
   * date; by the RFC 3339 routine, too, the start is a Monday and the end a Sunday.
   */
  lemma WeekBounds(anchor: Date)
    requires ValidDate(anchor)
    ensures Weekday(DayNumber(WeekStart(anchor))) == 1
    ensures Weekday(DayNumber(WeekEnd(WeekStart(anchor)))) == 0
    ensures RfcDayOfWeek(WeekStart(anchor)) == 1 && RfcDayOfWeek(WeekEnd(WeekStart(anchor))) == 0
    ensures DayNumber(WeekStart(anchor)) <= DayNumber(anchor) <= DayNumber(WeekEnd(WeekStart(anchor)))
  {
    var start := WeekStart(anchor);
    var end := WeekEnd(start);
    BackToMonday(DayNumber(anchor));
    SundayAfterMonday(DayNumber(start));
    WeekdayMatchesRfc(start);
    WeekdayMatchesRfc(end);
  }

  lemma SundayAfterMonday(n: int)
    requires Weekday(n) == 1
    ensures Weekday(n + 6) == 0
  {
  }

  /** A Sunday belongs to the week that started six days before it, not to the one it precedes. */
  lemma SundayWeek(anchor: Date)
    requires ValidDate(anchor) && Weekday(DayNumber(anchor)) == 0
    ensures DayNumber(WeekStart(anchor)) == DayNumber(anchor) - 6
    ensures WeekEnd(WeekStart(anchor)) == anchor
  {
    var n := DayNumber(anchor);
    var start := WeekStart(anchor);
    var end := WeekEnd(start);
    assert DayNumber(start) == n - 6;
    assert DayNumber(end) == n;
    DayNumberInjective(end, anchor);
  }

  /**
   * A JavaScript `Date` reduced to what the weekly report uses of it: a time value at
   * midnight UTC, counted in days, that `setDate` moves in place.
   */
  class JsDate {
    var time: int

    constructor(time: int)
      ensures this.time == time
    {
      this.time := time;
    }

    /** `getDate()`: the day of the month. */
    function GetDate(): int
      reads this
    {
      FromDayNumber(time).day
    }

    /** `getDay()`: the day of the week, 0 = Sunday. */
    function GetDay(): int
      reads this
    {
      Weekday(time)
    }

    /** `setDate(date)`: day `date` of the current month, rolling over; answers the new time value. */
    method SetDate(date: int) returns (t: int)
      modifies this
      ensures time == MakeDay(FromDayNumber(old(time)).year, FromDayNumber(old(time)).month, date)
      ensures t == time
    {
      var d := FromDayNumber(time);
      time := MakeDay(d.year, d.month, date);
      t := time;
    }

    /** `toISOString().split('T')[0]`. */
    function IsoDateString(): string
      reads this
    {
      IsoDate(FromDayNumber(time))
    }
  }
}
