/** date.c: conversion between julian day numbers and calendar dates. */
module Calendar {
  import opened CInt

  datatype Date = Date(year: int, month: int, day: int)

  // ---------------------------------------------------------------- the Gregorian calendar

  /** Leap years by section 3.2.1 of ISO 8601:2004. */
  predicate IsLeapYear(y: int) {
    y % 4 == 0 && (y % 100 != 0 || y % 400 == 0)
  }

  function DaysInMonth(y: int, m: int): int {
    if m == 2 then (if IsLeapYear(y) then 29 else 28)
    else if m == 4 || m == 6 || m == 9 || m == 11 then 30
    else 31
  }

  predicate IsDate(d: Date) {
    1 <= d.month <= 12 && 1 <= d.day <= DaysInMonth(d.year, d.month)
  }

  function NextDay(d: Date): Date {
    if d.day < DaysInMonth(d.year, d.month) then Date(d.year, d.month, d.day + 1)
    else if d.month < 12 then Date(d.year, d.month + 1, 1)
    else Date(d.year + 1, 1, 1)
  }

  /** The year counted from 1 March, and the month counted from March as month 3 to 14. */
  function MarchYear(d: Date): int {
    if d.month <= 2 then d.year - 1 else d.year
  }

  function MarchMonth(d: Date): int {
    if d.month <= 2 then d.month + 12 else d.month
  }

  /** Days before 1 March of year `y`, less a constant. */
  function YearDays(y: int): int {
    365 * y + y / 4 - y / 100 + y / 400
  }

  /** Days of the year before month `m` of the March year. */
  function MonthDays(m: int): int {
    (153 * m - 457) / 5
  }

  /** The julian day number: the count that every day advances by one. */
  function DayNumber(d: Date): int {
    d.day + MonthDays(MarchMonth(d)) + YearDays(MarchYear(d)) + 1721119
  }

  lemma DivStep(y: int, n: int)
    requires n == 4 || n == 100 || n == 400
    ensures (y + 1) / n == y / n + if (y + 1) % n == 0 then 1 else 0
  {
  }

  lemma YearDaysStep(y: int)
    ensures YearDays(y + 1) == YearDays(y) + 365 + if IsLeapYear(y + 1) then 1 else 0
  {
    DivStep(y, 4);
    DivStep(y, 100);
    DivStep(y, 400);
  }

  lemma FebruaryEnds(y: int)
    ensures DayNumber(Date(y, 3, 1)) == DayNumber(Date(y, 2, if IsLeapYear(y) then 29 else 28)) + 1
  {
    YearDaysStep(y - 1);
    assert MonthDays(14) == 337 && MonthDays(3) == 0;
  }

  lemma MonthDaysStep(m: int)
    requires 3 <= m <= 13
    ensures MonthDays(m + 1) == MonthDays(m) + if m == 4 || m == 6 || m == 9 || m == 11 then 30 else 31
  {
  }

  lemma MonthEnds(y: int, m: int)
    requires 1 <= m <= 12 && m != 2
    ensures DayNumber(if m == 12 then Date(y + 1, 1, 1) else Date(y, m + 1, 1)) == DayNumber(Date(y, m, DaysInMonth(y, m))) + 1
  {
    MonthDaysStep(if m == 1 then 13 else m);
  }

  /** Day numbers count days: each date's successor has the next number. */
  lemma NextDayAdvances(d: Date)
    requires IsDate(d)
    ensures IsDate(NextDay(d)) && DayNumber(NextDay(d)) == DayNumber(d) + 1
  {
    if d.day == DaysInMonth(d.year, d.month) {
      if d.month == 2 {
        FebruaryEnds(d.year);
      } else {
        MonthEnds(d.year, d.month);
      }
    }
  }

  /** The day of the March year, from 1. */
  function DayOfMarchYear(d: Date): int {
    d.day + MonthDays(MarchMonth(d))
  }

  lemma DayOfMarchYearRange(d: Date)
    requires IsDate(d)
    ensures 1 <= DayOfMarchYear(d) <= YearDays(MarchYear(d) + 1) - YearDays(MarchYear(d))
  {
    YearDaysStep(MarchYear(d));
  }

  lemma {:induction false} YearDaysMonotone(y: int, z: int)
    requires y <= z
    ensures YearDays(y) <= YearDays(z)
    decreases z - y
  {
    if y == z {
    } else {
      YearDaysMonotone(y, z - 1);
      YearDaysStep(z - 1);
    }
  }

  lemma MarchYearUnique(d: Date, e: Date)
    requires IsDate(d) && IsDate(e) && DayNumber(d) == DayNumber(e)
    ensures MarchYear(d) >= MarchYear(e)
  {
    DayOfMarchYearRange(d);
    DayOfMarchYearRange(e);
    if MarchYear(d) < MarchYear(e) {
      YearDaysMonotone(MarchYear(d) + 1, MarchYear(e));
    }
  }

  lemma MonthUnique(d: Date, e: Date)
    requires IsDate(d) && IsDate(e) && MarchYear(d) == MarchYear(e) && DayOfMarchYear(d) == DayOfMarchYear(e)
    ensures d.month == e.month
  {
  }

  /** A day number belongs to one date. */
  lemma DayNumberInjective(d: Date, e: Date)
    requires IsDate(d) && IsDate(e) && DayNumber(d) == DayNumber(e)
    ensures d == e
  {
    MarchYearUnique(d, e);
    MarchYearUnique(e, d);
    assert DayOfMarchYear(d) == DayOfMarchYear(e);
    MonthUnique(d, e);
  }

  // ---------------------------------------------------------------- dttoj

  /** `dttoj`: its divisions truncate, so years before 0 are not rounded down. */
  function Dttoj(d: Date): int {
    var y := if d.month <= 2 then d.year - 1 else d.year;
    var m := if d.month <= 2 then d.month + 12 else d.month;
    d.day + Quot(153 * m - 457, 5) + 365 * y + Quot(y, 4) - Quot(y, 100) + Quot(y, 400) + 1721118 + 1
  }

  lemma QuotFloor(y: int, n: int)
    requires n == 4 || n == 100 || n == 400
    ensures Quot(y, n) == y / n + if y < 0 && y % n != 0 then 1 else 0
  {
  }

  /** `dttoj` is the day number exactly when the March year is not negative or is divisible like a
      leap year; for every other date it is one too large. */
  lemma DttojIsDayNumberIff(d: Date)
    requires IsDate(d)
    ensures Dttoj(d) == DayNumber(d) <==> MarchYear(d) >= 0 || IsLeapYear(MarchYear(d))
    ensures Dttoj(d) == DayNumber(d) || Dttoj(d) == DayNumber(d) + 1
  {
    var y := MarchYear(d);
    QuotFloor(y, 4);
    QuotFloor(y, 100);
    QuotFloor(y, 400);
  }

  // ---------------------------------------------------------------- jtodt

  /** The century, counted from March of year -4900, and the day of the century. */
  function Century(src: int): int {
    4 * (src + 68569) / 146097
  }

  function CenturyDay(src: int): int {
    src + 68569 - (146097 * Century(src) + 3) / 4
  }

  /** The year of the century and the day of the year. */
  function CenturyYear(src: int): int {
    4000 * (CenturyDay(src) + 1) / 1461001
  }

  function YearDay(src: int): int {
    CenturyDay(src) - 1461 * CenturyYear(src) / 4
  }

  /** The month of the year, 1 for March. */
  function MonthIndex(src: int): int {
    80 * (YearDay(src) + 31) / 2447
  }

  /** `n` is the century (from March of year -4900) and the rest is the day of that century. */
  lemma CenturyStage(l0: int)
    requires l0 >= 0
    ensures var n := 4 * l0 / 146097; var l1 := l0 - (146097 * n + 3) / 4;
      0 <= n && 0 <= l1 <= (if n % 4 == 0 then 36524 else 36523)
  {
  }

  /** `i` is the year of the century and the rest is the day of that year. */
  lemma YearStage(l1: int)
    requires 0 <= l1 <= 36524
    ensures var i := 4000 * (l1 + 1) / 1461001; var r := l1 - 1461 * i / 4;
      && 0 <= i <= 99 && 0 <= r <= (if i % 4 == 3 then 365 else 364)
      && (i == 99 && r == 365 ==> l1 == 36524)
  {
  }

  /** `j` is the month, 1 for March, and the rest is the day of the month. */
  lemma MonthStage(r: int)
    requires 0 <= r <= 365
    ensures var j := 80 * (r + 31) / 2447; var day := r + 31 - 2447 * j / 80;
      && 1 <= j <= 12 && 1 <= day && day + MonthDays(j + 2) == r + 1
      && day <= (if j == 2 || j == 4 || j == 7 || j == 9 then 30 else if j == 12 then 29 else 31)
      && (j == 12 && day == 29 ==> r == 365)
  {
  }

  lemma Stages(src: int)
    requires src >= 0
    ensures Century(src) >= 0 && 0 <= CenturyDay(src) <= (if Century(src) % 4 == 0 then 36524 else 36523)
    ensures var i := CenturyYear(src);
      0 <= i <= 99 && 0 <= YearDay(src) <= (if i % 4 == 3 && (i < 99 || Century(src) % 4 == 0) then 365 else 364)
    ensures 1 <= MonthIndex(src) <= 12
  {
    CenturyStage(src + 68569);
    YearStage(CenturyDay(src));
    MonthStage(YearDay(src));
  }

  lemma CenturyQuotients(e: int, k: int, i: int)
    requires 0 <= k < 4 && 0 <= i <= 99
    ensures var y := 400 * e + 100 * k + i;
      && y / 4 == 100 * e + 25 * k + i / 4 && y % 4 == i % 4
      && y / 100 == 4 * e + k && y % 100 == i
      && y / 400 == e && y % 400 == 100 * k + i
  {
  }

  /** The days before a year, by its century and its year in the century. */
  lemma YearInCentury(c: int, i: int)
    requires 0 <= i <= 99
    ensures YearDays(100 * c + i) == 36524 * c + c / 4 + 365 * i + i / 4
    ensures i % 4 == 3 && (i < 99 || c % 4 == 3) ==> IsLeapYear(100 * c + i + 1)
  {
    CenturyQuotients(c / 4, c % 4, i);
    if i < 99 {
      CenturyQuotients(c / 4, c % 4, i + 1);
    } else {
      CenturyQuotients((c + 1) / 4, (c + 1) % 4, 0);
    }
  }

  lemma AssembleDate(c: int, i: int, j: int, r: int)
    requires 0 <= i <= 99 && 0 <= r <= (if i % 4 == 3 && (i < 99 || c % 4 == 3) then 365 else 364)
    requires j == 80 * (r + 31) / 2447
    ensures var d := Date(100 * c + i + j / 11, j + 2 - 12 * (j / 11), r + 31 - 2447 * j / 80);
      IsDate(d) && MarchYear(d) == 100 * c + i && MarchMonth(d) == j + 2
  {
    MonthStage(r);
    YearInCentury(c, i);
    assert j / 11 == if j >= 11 then 1 else 0;
  }

  lemma CenturyDays(n: int)
    ensures (146097 * n + 3) / 4 == 36524 * (n - 49) + (n - 49) / 4 + 1789689
  {
  }

  lemma Assemble(n: int, i: int, j: int, r: int)
    requires n >= 0 && 0 <= i <= 99 && 0 <= r <= (if i % 4 == 3 && (i < 99 || n % 4 == 0) then 365 else 364)
    requires j == 80 * (r + 31) / 2447
    ensures var d := Date(100 * (n - 49) + i + j / 11, j + 2 - 12 * (j / 11), r + 31 - 2447 * j / 80);
      IsDate(d) && DayNumber(d) == r + 1461 * i / 4 + (146097 * n + 3) / 4 - 68569
  {
    var c := n - 49;
    AssembleDate(c, i, j, r);
    MonthStage(r);
    YearInCentury(c, i);
    CenturyDays(n);
    assert 1461 * i / 4 == 365 * i + i / 4;
  }

  /** `jtodt` for a source that is not negative. */
  function JtoDate(src: int): (d: Date)
    requires src >= 0
    ensures IsDate(d) && DayNumber(d) == src
  {
    var j := MonthIndex(src);
    Stages(src);
    Assemble(Century(src), CenturyYear(src), j, YearDay(src));
    Date(100 * (Century(src) - 49) + CenturyYear(src) + j / 11, j + 2 - 12 * (j / 11), YearDay(src) + 31 - 2447 * j / 80)
  }

  // ---------------------------------------------------------------- the struct

  /** `date_t`, which `jtodt` fills in. */
  class DateVar {
    var julian: int
    var year: int
    var month: int
    var day: int

    function Value(): Date
      reads this
    {
      Date(year, month, day)
    }

    constructor () {
    }

    /** A negative source is refused and changes nothing. */
    method JtoDt(src: int) returns (code: int)
      modifies this
      ensures code == (if src < 0 then -1 else 0)
      ensures src >= 0 ==> julian == src && IsDate(Value()) && DayNumber(Value()) == src
      ensures src < 0 ==> julian == old(julian) && Value() == old(Value())
    {
      if src < 0 {
        return -1;
      }
      Stages(src);
      julian := src;
      var l := src + 68569;
      var n := Quot(4 * l, 146097);
      assert n == Century(src);
      l := l - Quot(146097 * n + 3, 4);
      assert l == CenturyDay(src);
      var i := Quot(4000 * (l + 1), 1461001);
      assert i == CenturyYear(src);
      l := l - Quot(1461 * i, 4) + 31;
      assert l == YearDay(src) + 31;
      var j := Quot(80 * l, 2447);
      assert j == MonthIndex(src);
      day := l - Quot(2447 * j, 80);
      l := Quot(j, 11);
      month := j + 2 - 12 * l;
      year := 100 * (n - 49) + i + l;
      assert Value() == JtoDate(src);
      return 0;
    }
  }

  // ---------------------------------------------------------------- round trips

  /** From a day number to a date and back. */
  lemma JulianRoundTrip(src: int)
    requires src >= 0
    ensures Dttoj(JtoDate(src)) == src <==> MarchYear(JtoDate(src)) >= 0 || IsLeapYear(MarchYear(JtoDate(src)))
  {
    DttojIsDayNumberIff(JtoDate(src));
  }

  lemma MarchYearNonnegative(d: Date)
    requires IsDate(d) && DayNumber(d) >= DayNumber(Date(0, 3, 1))
    ensures MarchYear(d) >= 0
  {
    DayOfMarchYearRange(d);
    if MarchYear(d) < 0 {
      YearDaysMonotone(MarchYear(d) + 1, 0);
    }
  }

  /** From 1 March of year 0 on it always closes. */
  lemma JulianRoundTripFromYearZero(src: int)
    requires src >= DayNumber(Date(0, 3, 1))
    ensures Dttoj(JtoDate(src)) == src
  {
    MarchYearNonnegative(JtoDate(src));
    DttojIsDayNumberIff(JtoDate(src));
  }

  /** From a date to a day number and back. */
  lemma DateRoundTrip(d: Date)
    requires IsDate(d) && Dttoj(d) >= 0
    ensures JtoDate(Dttoj(d)) == d <==> MarchYear(d) >= 0 || IsLeapYear(MarchYear(d))
  {
    DttojIsDayNumberIff(d);
    if Dttoj(d) == DayNumber(d) {
      DayNumberInjective(JtoDate(Dttoj(d)), d);
    }
  }

  /** `jtodt` enumerates the calendar: consecutive day numbers are consecutive dates. */
  lemma JtoDateEnumerates(src: int)
    requires src >= 0
    ensures JtoDate(src + 1) == NextDay(JtoDate(src))
  {
    NextDayAdvances(JtoDate(src));
    DayNumberInjective(JtoDate(src + 1), NextDay(JtoDate(src)));
  }

  /** `dttoj` advances by one from each date to the next from 1 March of year 0 on. */
  lemma DttojAdvances(d: Date)
    requires IsDate(d) && MarchYear(d) >= 0
    ensures Dttoj(NextDay(d)) == Dttoj(d) + 1
  {
    NextDayAdvances(d);
    DttojIsDayNumberIff(d);
    DttojIsDayNumberIff(NextDay(d));
  }
}
