/** ISO 8601 week numbers as exp_strf.c computes them from broken-down times. */
module IsoWeek {

  /** Years count from 1900, months and days of the year from 0; weekdays from Sunday. */
  datatype Tm = Tm(year: int, mon: int, mday: int, yday: int, wday: int)

  // ----- the Gregorian calendar -----

  predicate IsLeap(year: int) {
    (year % 4 == 0 && year % 100 != 0) || year % 400 == 0
  }

  function YearLength(year: int): (n: nat)
    ensures 365 <= n <= 366
  {
    if IsLeap(year) then 366 else 365
  }

  /** Days from 1 January of the year 1, a Monday, to 1 January of a year. */
  function DaysBefore(year: int): int {
    365 * (year - 1) + (year - 1) / 4 - (year - 1) / 100 + (year - 1) / 400
  }

  function MonthLength(year: int, mon: int): nat {
    if mon == 1 then (if IsLeap(year) then 29 else 28)
    else if mon == 3 || mon == 5 || mon == 8 || mon == 10 then 30
    else 31
  }

  function MonthStart(year: int, mon: nat): nat {
    if mon == 0 then 0 else MonthStart(year, mon - 1) + MonthLength(year, mon - 1)
  }

  function DayNumber(t: Tm): int {
    DaysBefore(t.year + 1900) + t.yday
  }

  /** The fields are those of one day. */
  predicate Consistent(t: Tm) {
    var y := t.year + 1900;
    && 0 <= t.yday < YearLength(y) && 0 <= t.mon < 12 && 1 <= t.mday <= MonthLength(y, t.mon)
    && t.yday == MonthStart(y, t.mon) + t.mday - 1
    && t.wday == (DayNumber(t) + 1) % 7
  }

  lemma NextYear(year: int)
    ensures DaysBefore(year + 1) == DaysBefore(year) + YearLength(year)
  {
    Quotient4(year);
    Quotient100(year);
    Quotient400(year);
    Multiples(year);
  }

  lemma Quotient4(x: int)
    ensures x / 4 == (x - 1) / 4 + if x % 4 == 0 then 1 else 0
  {}

  lemma Quotient100(x: int)
    ensures x / 100 == (x - 1) / 100 + if x % 100 == 0 then 1 else 0
  {}

  lemma Quotient400(x: int)
    ensures x / 400 == (x - 1) / 400 + if x % 400 == 0 then 1 else 0
  {}

  lemma Multiples(x: int)
    ensures (x % 400 == 0 ==> x % 100 == 0) && (x % 100 == 0 ==> x % 4 == 0)
  {
    if x % 400 == 0 { Hundreds(x, x / 400); }
    if x % 100 == 0 { Fours(x, x / 100); }
  }

  lemma Hundreds(x: int, q: int)
    requires x == 400 * q
    ensures x % 100 == 0
  {
    var r := x / 100;
    assert 0 <= x - 100 * r < 100;
    assert r == 4 * q;
  }

  lemma Fours(x: int, q: int)
    requires x == 100 * q
    ensures x % 4 == 0
  {
    var r := x / 4;
    assert 0 <= x - 4 * r < 4;
    assert r == 25 * q;
  }

  lemma {:induction false} YearsGrow(y: int, z: int)
    requires y <= z
    ensures DaysBefore(y) + 365 * (z - y) <= DaysBefore(z)
    decreases z - y
  {
    hide DaysBefore;
    if y < z {
      NextYear(y);
      YearsGrow(y + 1, z);
    }
  }

  // ----- clause 2.2.10 of ISO 8601:2004 -----

  /** The Thursday of the Monday-to-Sunday week of a day. */
  function ThursdayOf(day: int): int {
    day - day % 7 + 3
  }

  predicate InYear(day: int, year: int) {
    DaysBefore(year) <= day < DaysBefore(year + 1)
  }

  /** A week has the number of its Thursday among the Thursdays of the Thursday's year. */
  predicate IsWeekOf(day: int, week: int, year: int) {
    InYear(ThursdayOf(day), year) && week == (ThursdayOf(day) - DaysBefore(year)) / 7 + 1
  }

  /** There is only one such number. */
  lemma WeekIsUnique(day: int, week: int, year: int, week': int, year': int)
    requires IsWeekOf(day, week, year) && IsWeekOf(day, week', year')
    ensures week == week' && year == year' && 1 <= week <= 53
  {
    hide DaysBefore;
    NextYear(year);
    if year < year' {
      YearsGrow(year + 1, year');
    } else if year' < year {
      YearsGrow(year' + 1, year);
    }
  }

  // ----- the computation -----

  /** weeknumber(), with Monday as the first day: weeks begun this year. */
  function WeekNumber(t: Tm): (n: int)
    requires 0 <= t.yday && 0 <= t.wday < 7
    ensures n >= 0
  {
    var wday := if t.wday == 0 then 6 else t.wday - 1;
    (t.yday + 7 - wday) / 7
  }

  function Jan1Day(t: Tm): (d: int)
    requires 0 <= t.yday && 0 <= t.wday < 7
    ensures 0 <= d < 7
  {
    var d := t.wday - t.yday % 7;
    if d < 0 then d + 7 else d
  }

  /** The week is one of last year's. */
  predicate BelongsToLastYear(t: Tm)
    requires 0 <= t.yday && 0 <= t.wday < 7
  {
    (Jan1Day(t) == 5 || Jan1Day(t) == 6 || Jan1Day(t) == 0) && WeekNumber(t) == 0
  }

  /** 31 December of the year before, as the code fills it in. */
  function LastDecember31(t: Tm): Tm
    requires 0 <= t.yday && 0 <= t.wday < 7
  {
    var jan1day := Jan1Day(t);
    Tm(t.year - 1, 11, 31, 364 + (if IsLeap(t.year - 1 + 1900) then 1 else 0), if jan1day == 0 then 6 else jan1day - 1)
  }

  /** 1 January, counted from Monday. */
  lemma Jan1Is(t: Tm)
    requires Consistent(t)
    ensures Jan1Day(t) == (DaysBefore(t.year + 1900) + 1) % 7
    ensures (Jan1Day(t) + 6) % 7 == DaysBefore(t.year + 1900) % 7
    ensures (t.wday + 6) % 7 == DayNumber(t) % 7
  {
    hide DaysBefore, MonthStart, MonthLength, IsLeap;
    Weekdays(DaysBefore(t.year + 1900), t.yday, t.wday);
    FromMonday(DaysBefore(t.year + 1900));
    FromMonday(DayNumber(t));
  }

  lemma Weekdays(d: int, yday: nat, wday: int)
    requires wday == (d + yday + 1) % 7
    ensures var x := wday - yday % 7; (if x < 0 then x + 7 else x) == (d + 1) % 7
  {
    var a, b, c := (d + yday + 1) / 7, yday / 7, (d + 1) / 7;
    assert wday == d + yday + 1 - 7 * a && yday % 7 == yday - 7 * b && (d + 1) % 7 == d + 1 - 7 * c;
  }

  lemma FromMonday(d: int)
    ensures ((d + 1) % 7 + 6) % 7 == d % 7
  {
    var a, b := (d + 1) / 7, d / 7;
    assert (d + 1) % 7 == d + 1 - 7 * a && d % 7 == d - 7 * b;
  }

  lemma DecemberStarts(year: int)
    ensures MonthStart(year, 11) == YearLength(year) - 31
  {
    var feb := if IsLeap(year) then 29 else 28;
    assert MonthStart(year, 0) == 0;
    assert MonthStart(year, 1) == 31;
    assert MonthStart(year, 2) == 31 + feb;
    assert MonthStart(year, 3) == 62 + feb;
    assert MonthStart(year, 4) == 92 + feb;
    assert MonthStart(year, 5) == 123 + feb;
    assert MonthStart(year, 6) == 153 + feb;
    assert MonthStart(year, 7) == 184 + feb;
    assert MonthStart(year, 8) == 215 + feb;
    assert MonthStart(year, 9) == 245 + feb;
    assert MonthStart(year, 10) == 276 + feb;
  }

  lemma December31Consistent(t: Tm)
    requires Consistent(t)
    ensures Consistent(LastDecember31(t)) && DayNumber(LastDecember31(t)) == DaysBefore(t.year + 1900) - 1
  {
    hide DaysBefore, MonthStart;
    NextYear(t.year + 1899);
    DecemberStarts(t.year + 1899);
    Jan1Is(t);
  }

  /** The last day of a year is never in a week that belongs to the year before it: the
      recursion is at most one deep. */
  lemma NoSecondStep(t: Tm)
    requires Consistent(t)
    ensures Consistent(LastDecember31(t)) && !BelongsToLastYear(LastDecember31(t))
  {
    hide DaysBefore, MonthStart;
    December31Consistent(t);
  }

  /** iso8601wknum() */
  function Iso8601WkNum(t: Tm): int
    requires Consistent(t)
    decreases BelongsToLastYear(t)
  {
    var weeknum := WeekNumber(t);
    var jan1day := Jan1Day(t);
    var w :=
      if 2 <= jan1day <= 4 then weeknum + 1
      else if BelongsToLastYear(t) then
        NoSecondStep(t);
        Iso8601WkNum(LastDecember31(t))
      else weeknum;
    if t.mon == 11
       && ((t.wday == 1 && 29 <= t.mday <= 31) || (t.wday == 2 && (t.mday == 30 || t.mday == 31))
           || (t.wday == 3 && t.mday == 31))
    then 1 else w
  }

  /** The days from the Monday of its week to the Thursday, within the year of the day. */
  lemma ThursdayYear(t: Tm)
    requires Consistent(t)
    ensures var th := t.yday - (t.wday + 6) % 7 + 3;
            ThursdayOf(DayNumber(t)) == DaysBefore(t.year + 1900) + th
            && InYear(ThursdayOf(DayNumber(t)),
                      if th < 0 then t.year + 1899
                      else if th < YearLength(t.year + 1900) then t.year + 1900
                      else t.year + 1901)
  {
    hide DaysBefore, MonthStart;
    Jan1Is(t);
    NextYear(t.year + 1899);
    NextYear(t.year + 1900);
    NextYear(t.year + 1901);
  }

  /** The week number of a day whose Thursday is in the same year. */
  lemma SameYear(jan1: int, yday: int, wday: int, th: int)
    requires 0 <= jan1 < 7 && 0 <= yday && 0 <= wday < 7 && (wday + 6) % 7 == ((jan1 + 6) % 7 + yday) % 7
    requires th == yday - (wday + 6) % 7 + 3
    ensures var weeknum := (yday + 7 - (wday + 6) % 7) / 7;
            if 2 <= jan1 <= 4 then th >= 0 && weeknum + 1 == th / 7 + 1
            else if weeknum == 0 then jan1 != 1 && th < 0
            else th >= 0 && weeknum == th / 7 + 1
  {
    var j, w := (jan1 + 6) % 7, (wday + 6) % 7;
    var q := (j + yday) / 7;
    assert j + yday == 7 * q + w;
    assert th == 7 * q + 3 - j;
    assert yday + 7 - w == 7 * (q + 1) - j;
  }

  lemma WdayMinus(wday: int)
    requires 0 <= wday < 7
    ensures (wday + 6) % 7 == if wday == 0 then 6 else wday - 1
  {}

  /** The code's rule for December: its Thursday is in the next year. */
  lemma DecemberRule(t: Tm)
    requires Consistent(t)
    ensures var rule := t.mon == 11
              && ((t.wday == 1 && 29 <= t.mday <= 31) || (t.wday == 2 && (t.mday == 30 || t.mday == 31))
                  || (t.wday == 3 && t.mday == 31));
            rule <==> t.yday - (t.wday + 6) % 7 + 3 >= YearLength(t.year + 1900)
  {
    hide DaysBefore, MonthStart;
    DecemberStarts(t.year + 1900);
    WdayMinus(t.wday);
    if t.mon < 11 {
      BeforeDecember(t.year + 1900, t.mon);
    }
  }

  lemma {:induction false} BeforeDecember(year: int, mon: nat)
    requires mon < 11
    ensures MonthStart(year, mon) + MonthLength(year, mon) <= MonthStart(year, 11)
    decreases 11 - mon
  {
    assert MonthStart(year, mon + 1) == MonthStart(year, mon) + MonthLength(year, mon);
    if mon < 10 {
      BeforeDecember(year, mon + 1);
    }
  }

  /** The year whose week it is. */
  function IsoYear(t: Tm): int
    requires 0 <= t.wday < 7
  {
    var th := t.yday - (t.wday + 6) % 7 + 3;
    if th < 0 then t.year + 1899 else if th < YearLength(t.year + 1900) then t.year + 1900 else t.year + 1901
  }

  /** For every date the code computes the number that the standard gives the week. */
  lemma {:induction false} WeekIsIso(t: Tm)
    requires Consistent(t)
    ensures IsWeekOf(DayNumber(t), Iso8601WkNum(t), IsoYear(t)) && 1 <= Iso8601WkNum(t) <= 53
    decreases BelongsToLastYear(t)
  {
    hide DaysBefore, MonthStart, MonthLength, IsLeap;
    var y := t.year + 1900;
    var th := t.yday - (t.wday + 6) % 7 + 3;
    ThursdayYear(t);
    Jan1Is(t);
    WdayMinus(t.wday);
    Jan1Congruent(t);
    SameYear(Jan1Day(t), t.yday, t.wday, th);
    DecemberRule(t);
    NextYear(y);
    if th < 0 {
      NoSecondStep(t);
      December31Consistent(t);
      var u := LastDecember31(t);
      WeekIsIso(u);
      SameWeek(t);
      WeekIsUnique(DayNumber(u), Iso8601WkNum(u), IsoYear(u), Iso8601WkNum(u), IsoYear(u));
      YearOfThursday(ThursdayOf(DayNumber(t)), IsoYear(u), IsoYear(t));
    } else {
      assert IsWeekOf(DayNumber(t), Iso8601WkNum(t), IsoYear(t));
      WeekIsUnique(DayNumber(t), Iso8601WkNum(t), IsoYear(t), Iso8601WkNum(t), IsoYear(t));
    }
  }

  lemma Jan1Congruent(t: Tm)
    requires Consistent(t)
    ensures (t.wday + 6) % 7 == ((Jan1Day(t) + 6) % 7 + t.yday) % 7
  {
    hide DaysBefore, MonthStart, MonthLength, IsLeap, Jan1Day;
    Jan1Is(t);
    PlusDays(DaysBefore(t.year + 1900), t.yday);
  }

  lemma PlusDays(d: int, n: int)
    ensures (d % 7 + n) % 7 == (d + n) % 7
  {
    var a, b, c := d / 7, (d % 7 + n) / 7, (d + n) / 7;
    assert (d % 7 + n) % 7 == d - 7 * a + n - 7 * b && (d + n) % 7 == d + n - 7 * c;
  }

  /** A day that belongs to last year is in the week of last year's end. */
  lemma SameWeek(t: Tm)
    requires Consistent(t) && t.yday - (t.wday + 6) % 7 + 3 < 0
    ensures ThursdayOf(DayNumber(LastDecember31(t))) == ThursdayOf(DayNumber(t))
  {
    hide DaysBefore, MonthStart, MonthLength, IsLeap;
    December31Consistent(t);
    Jan1Is(t);
  }

  lemma YearOfThursday(day: int, y: int, z: int)
    requires InYear(day, y) && InYear(day, z)
    ensures y == z
  {
    hide DaysBefore;
    if y < z {
      YearsGrow(y + 1, z);
    } else if z < y {
      YearsGrow(z + 1, y);
    }
  }
}
