/** date.c's `set_dow`: the doomsday rule, with the last year's results cached. */
module DayOfWeek {
  import opened CInt
  import opened Calendar

  /** `is_leap`: every century year passes. */
  predicate IsLeap(year: int) {
    if Rem(year, 100) == 0 then Rem(Rem(year, 400), 2) == 0 else Rem(year, 4) == 0
  }

  /** `known[]`: a day of each month that falls on the doomsday, in a year that is not leap. */
  function Known(month: int): int {
    match month
    case 1 => 3  case 2 => 0  case 3 => 0  case 4 => 4
    case 5 => 9  case 6 => 6  case 7 => 11 case 8 => 8
    case 9 => 5  case 10 => 10 case 11 => 7 case 12 => 12
    case _ => 0
  }

  /** `doomsday[]`: the doomsday of a century's first year, by the century less 15, modulo 4. */
  function Doomsday(i: int): int
    requires 0 <= i < 4
  {
    match i
    case 0 => 3 case 1 => 2 case 2 => 0 case _ => 5
  }

  /** The years, from 0 on, for which C's remainder gives `doomsday[]` an index that is not negative:
      those from 1500, and the centuries of the same place in the cycle before. */
  predicate InTable(year: int) {
    year >= 0 && (year >= 1500 || year / 100 % 4 == 3)
  }

  lemma InTableIff(year: int)
    requires year >= 0
    ensures InTable(year) <==> 0 <= Rem(Quot(year, 100) - 15, 4)
    ensures InTable(year) ==> Rem(Quot(year, 100) - 15, 4) == (year / 100 - 15) % 4
  {
  }

  /** The day of the week, 0 for Sunday, of the days `Known` lists. */
  function YearDoomsday(year: int): int
    requires InTable(year)
  {
    var q := year % 100;
    (Doomsday((year / 100 - 15) % 4) + q / 12 + q % 12 + q % 12 / 4) % 7
  }

  function KnownDay(year: int, month: int): int
    requires 1 <= month <= 12
  {
    Known(month) + if month <= 2 && IsLeap(year) then 1 else 0
  }

  /** January and February of a century year that the Gregorian rule does not make leap. */
  predicate Misplaced(d: Date) {
    d.month <= 2 && d.year % 100 == 0 && d.year % 400 != 0
  }

  /** The day of the week, 0 for Sunday: day number 0 was a Monday. */
  function Weekday(d: Date): int {
    (Dttoj(d) + 1) % 7
  }

  /** The two loops that bring a day count into 0 to 6. */
  method WithinWeek(days: int) returns (res: int)
    ensures res == days % 7
  {
    res := days;
    while res < 0
      invariant res % 7 == days % 7
    {
      res := res + 7;
    }
    while res > 6
      invariant 0 <= res && res % 7 == days % 7
    {
      res := res - 7;
    }
  }

  // ---------------------------------------------------------------- the doomsday rule

  lemma WeekSum(a: int, b: int)
    ensures (a % 7 + b) % 7 == (a + b) % 7
  {
  }

  lemma OneDayApart(x: int)
    ensures x % 7 != (x + 1) % 7
  {
  }

  lemma Weeks(a: int, b: int, k: int)
    requires a == b + 7 * k
    ensures a % 7 == b % 7
  {
  }

  lemma AddDays(a: int, b: int, t: int)
    requires a % 7 == b % 7
    ensures (a + t) % 7 == (b + t) % 7
  {
  }

  lemma CenturyDoomsday(c: int)
    requires c >= 0
    ensures (36524 * c + c / 4 + 1721120) % 7 == Doomsday((c - 15) % 4)
  {
    var e, k := c / 4, c % 4;
    Weeks(36524 * c + c / 4 + 1721120, 5 * k + 2, 20871 * e + 5217 * k + 245874);
  }

  lemma TwelveYears(q: int)
    requires 0 <= q < 100
    ensures q + q / 4 == q / 12 + q % 12 + q % 12 / 4 + 14 * (q / 12)
  {
  }

  /** The day before 1 March is a doomsday. */
  lemma YearDoomsdayIsMarchZero(year: int)
    requires InTable(year)
    ensures (YearDays(year) + 1721120) % 7 == YearDoomsday(year)
  {
    var c, q := year / 100, year % 100;
    var a, t := 36524 * c + c / 4 + 1721120, q / 12 + q % 12 + q % 12 / 4;
    YearInCentury(c, q);
    TwelveYears(q);
    Weeks(a + 365 * q + q / 4, a + t, 52 * q + 2 * (q / 12));
    CenturyDoomsday(c);
    AddDays(a, Doomsday((c - 15) % 4), t);
  }

  lemma KnownDayOfMonth(m: int)
    requires 3 <= m <= 12
    ensures (MonthDays(m) + Known(m)) % 7 == 0
  {
  }

  /** `is_leap` departs from the Gregorian rule in century years that 400 does not divide. */
  lemma LeapRules(year: int)
    requires year >= 0
    ensures IsLeap(year) <==> IsLeapYear(year) || (year % 100 == 0 && year % 400 != 0)
  {
    CenturyQuotients(year / 400, year % 400 / 100, year % 400 % 100);
  }

  /** Each month's known day is a whole number of weeks from the day before 1 March. */
  lemma KnownDayIsDoomsday(d: Date)
    requires IsDate(d) && InTable(d.year)
    ensures (MonthDays(MarchMonth(d)) + YearDays(MarchYear(d)) - YearDays(d.year)
             + KnownDay(d.year, d.month) - if Misplaced(d) then 1 else 0) % 7 == 0
  {
    if d.month <= 2 {
      YearDaysStep(d.year - 1);
      LeapRules(d.year);
      assert MonthDays(13) == 306 && MonthDays(14) == 337;
    } else {
      KnownDayOfMonth(d.month);
    }
  }

  lemma DoomsdayRule(d: Date)
    requires IsDate(d) && InTable(d.year)
    ensures (d.day - KnownDay(d.year, d.month) + YearDoomsday(d.year)) % 7
         == (if Misplaced(d) then Dttoj(d) else Dttoj(d) + 1) % 7
  {
    var x := MonthDays(MarchMonth(d)) + YearDays(MarchYear(d)) - YearDays(d.year)
             + KnownDay(d.year, d.month) - if Misplaced(d) then 1 else 0;
    var t := d.day - KnownDay(d.year, d.month);
    YearDoomsdayIsMarchZero(d.year);
    AddDays(YearDays(d.year) + 1721120, YearDoomsday(d.year), t);
    KnownDayIsDoomsday(d);
    DttojIsDayNumberIff(d);
    var z := YearDays(d.year) + 1721120 + t;
    Weeks(z + x, z, x / 7);
    assert DayNumber(d) + 1 == z + x + if Misplaced(d) then 1 else 0;
  }

  class DowCache {
    const known: array<int>

    var dday: int
    var lastYear: int

    ghost predicate Valid()
      reads this, known
    {
      && known.Length == 13
      && (forall m :: 3 <= m <= 12 ==> known[m] == Known(m))
      && (lastYear == -1 ||
          (InTable(lastYear) && dday == YearDoomsday(lastYear)
           && known[1] == KnownDay(lastYear, 1) && known[2] == KnownDay(lastYear, 2)))
    }

    constructor ()
      ensures Valid() && fresh(known)
    {
      known := new int[13](i => Known(i));
      dday, lastYear := 0, -1;
    }

    /** The part of `set_dow` that runs when the year changes. */
    method ChangeYear(year: int)
      requires Valid() && InTable(year)
      modifies this, known
      ensures Valid() && lastYear == year
    {
      if IsLeap(year) {
        known[1] := 4;
        known[2] := 1;
      } else {
        known[1] := 3;
        known[2] := 0;
      }
      InTableIff(year);
      var q := Rem(year, 100);
      var r := Rem(q, 12);
      q := Quot(q, 12);
      var s := Quot(r, 4);
      dday := Quot(year, 100);
      dday := dday - 15;
      dday := Rem(dday, 4);
      dday := Doomsday(dday);
      dday := dday + (q + r + s);
      dday := Rem(dday, 7);
      lastYear := year;
    }

    /** From any state the earlier calls left: the weekday of the date, except that it is one day
        early exactly in January and February of century years that are not leap. */
    method SetDow(d: Date) returns (res: int)
      requires Valid() && IsDate(d) && InTable(d.year)
      modifies this, known
      ensures Valid()
      ensures res == if Misplaced(d) then Dttoj(d) % 7 else Weekday(d)
      ensures res == Weekday(d) <==> !Misplaced(d)
    {
      if d.year != lastYear {
        ChangeYear(d.year);
      }
      res := d.day;
      res := res - known[d.month];
      assert res == d.day - KnownDay(d.year, d.month);
      DoomsdayRule(d);
      WeekSum(res, dday);
      OneDayApart(Dttoj(d));
      res := WithinWeek(res);
      res := res + dday;
      res := Rem(res, 7);
    }
  }
}
