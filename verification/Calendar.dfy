/** The calendars of usr/bin/cal.c and usr/bin/date.c, which add up the lengths of
    years and months, and the closed form of usr/bin/herd.c for the same day number. */
module Calendar {

  predicate IsLeap(y: int) { (y % 4 == 0 && y % 100 != 0) || y % 400 == 0 }

  function MonthDays(y: int, m: int): (d: int)
    requires 1 <= m <= 12
    ensures 28 <= d <= 31
  {
    if m == 2 then (if IsLeap(y) then 29 else 28)
    else if m == 4 || m == 6 || m == 9 || m == 11 then 30
    else 31
  }

  function YearDays(y: int): (d: int) { if IsLeap(y) then 366 else 365 }

  /** Days from the start of 1970 to the start of `y`; none for an earlier year. */
  function DaysToYear(y: int): (d: int)
    ensures d >= 0
    decreases y - 1970
  {
    if y <= 1970 then 0 else DaysToYear(y - 1) + YearDays(y - 1)
  }

  function DaysToMonth(y: int, m: int): (d: int)
    requires 1 <= m <= 13
    ensures 28 * (m - 1) <= d
    decreases m
  {
    if m == 1 then 0 else DaysToMonth(y, m - 1) + MonthDays(y, m - 1)
  }

  datatype Date = Date(y: int, m: int, d: int)

  ghost predicate Valid(t: Date) {
    t.y >= 1970 && 1 <= t.m <= 12 && 1 <= t.d <= MonthDays(t.y, t.m)
  }

  /** Days since 1 January 1970, by adding up. */
  function DayNumber(t: Date): (n: int)
    requires 1 <= t.m <= 12
  {
    DaysToYear(t.y) + DaysToMonth(t.y, t.m) + t.d - 1
  }

  /** `days_from_civil`: the division by 400 rounds down for years before 0 as well. */
  function Civil(t: Date): (n: int)
    requires 1 <= t.m <= 12
  {
    var y := if t.m <= 2 then t.y - 1 else t.y;
    var era := if y >= 0 then y / 400 else -((399 - y) / 400);
    var yoe := y - era * 400;
    var doy := (153 * (t.m + (if t.m > 2 then -3 else 9)) + 2) / 5 + t.d - 1;
    era * 146097 + (yoe * 365 + yoe / 4 - yoe / 100 + doy) - 719468
  }

  /** Days to 1 March of year `y` from that of year 0. */
  function MarchDays(y: int): (n: int) { 365 * y + y / 4 - y / 100 + y / 400 }

  lemma EraDays(y: int)
    ensures var era := if y >= 0 then y / 400 else -((399 - y) / 400);
      var yoe := y - era * 400;
      era * 146097 + (yoe * 365 + yoe / 4 - yoe / 100) == MarchDays(y)
  {
    var era := if y >= 0 then y / 400 else -((399 - y) / 400);
    assert era == y / 400;
    var yoe := y - era * 400;
    assert y == 400 * era + yoe && 0 <= yoe < 400;
    assert y / 4 == 100 * era + yoe / 4;
    assert y / 100 == 4 * era + yoe / 100;
  }

  lemma MarchStep(y: int)
    ensures MarchDays(y) == MarchDays(y - 1) + YearDays(y)
  {
    assert y / 4 - (y - 1) / 4 == if y % 4 == 0 then 1 else 0;
    assert y / 100 - (y - 1) / 100 == if y % 100 == 0 then 1 else 0;
    assert y / 400 - (y - 1) / 400 == if y % 400 == 0 then 1 else 0;
  }

  function MarchOffset(m: int): int
    requires 1 <= m <= 12
  {
    (153 * (m + (if m > 2 then -3 else 9)) + 2) / 5
  }

  lemma CivilByMarch(t: Date)
    requires 1 <= t.m <= 12
    ensures Civil(t) == MarchDays(if t.m <= 2 then t.y - 1 else t.y) + MarchOffset(t.m) + t.d - 1 - 719468
  {
    hide MarchDays;
    EraDays(if t.m <= 2 then t.y - 1 else t.y);
  }

  lemma OffsetStep(y: int, m: int)
    requires 2 <= m <= 12
    ensures MarchOffset(1) == 306
    ensures MarchOffset(m) == if m == 3 then 0 else MarchOffset(m - 1) + MonthDays(y, m - 1)
  {
    hide IsLeap;
  }

  /** The first ten months after February, and the two before. */
  lemma {:induction false} MonthSums(y: int, m: int)
    requires 1 <= m <= 12
    ensures DaysToMonth(y, m) == MarchOffset(m) - 306 + if m > 2 then YearDays(y) else 0
    decreases m
  {
    hide IsLeap, MarchOffset;
    if m > 1 { MonthSums(y, m - 1); }
    OffsetStep(y, if m > 1 then m else 2);
  }

  /** Within any year at all, the closed form counts months as adding up does. */
  lemma CivilMonth(t: Date)
    requires 1 <= t.m <= 12
    ensures Civil(t) == Civil(Date(t.y, 1, 1)) + DaysToMonth(t.y, t.m) + t.d - 1
  {
    hide MarchDays, Civil, DaysToMonth, YearDays;
    CivilByMarch(t);
    CivilByMarch(Date(t.y, 1, 1));
    MarchStep(t.y);
    MonthSums(t.y, t.m);
  }

  lemma {:induction false} CivilYear(y: int)
    requires y >= 1970
    ensures Civil(Date(y, 1, 1)) == DaysToYear(y)
    decreases y
  {
    if y > 1970 {
      CivilYear(y - 1);
      CivilByMarch(Date(y, 1, 1));
      CivilByMarch(Date(y - 1, 1, 1));
      MarchStep(y - 1);
    }
  }

  /** The three programs agree on every date from 1970 on. */
  lemma CivilIsDayNumber(t: Date)
    requires t.y >= 1970 && 1 <= t.m <= 12
    ensures Civil(t) == DayNumber(t)
  {
    CivilMonth(t);
    CivilYear(t.y);
  }

  /** Later years and months start on later days. */
  lemma {:induction false} YearsGrow(y: int, z: int)
    requires 1970 <= y < z
    ensures DaysToYear(y) + YearDays(y) <= DaysToYear(z)
    decreases z
  {
    if y + 1 < z { YearsGrow(y, z - 1); }
  }

  lemma {:induction false} MonthsGrow(y: int, m: int, k: int)
    requires 1 <= m < k <= 13
    ensures DaysToMonth(y, m) + MonthDays(y, m) <= DaysToMonth(y, k)
    decreases k
  {
    if m + 1 < k { MonthsGrow(y, m, k - 1); }
  }

  lemma WholeYear(y: int)
    ensures DaysToMonth(y, 13) == YearDays(y)
  {
    hide IsLeap;
    MonthSums(y, 12);
  }

  lemma InYear(t: Date)
    requires Valid(t)
    ensures 0 <= DaysToMonth(t.y, t.m) + t.d - 1 < YearDays(t.y)
  {
    MonthsGrow(t.y, t.m, 13);
    WholeYear(t.y);
  }

  /** No two dates share a day number. */
  lemma DayNumberOnce(t: Date, u: Date)
    requires Valid(t) && Valid(u) && DayNumber(t) == DayNumber(u)
    ensures t == u
  {
    hide IsLeap, YearDays, MonthDays, DaysToYear, DaysToMonth;
    InYear(t);
    InYear(u);
    if t.y < u.y { YearsGrow(t.y, u.y); }
    if u.y < t.y { YearsGrow(u.y, t.y); }
    if t.m < u.m { MonthsGrow(t.y, t.m, u.m); }
    if u.m < t.m { MonthsGrow(t.y, u.m, t.m); }
  }

  // The weekday of the first of a month.

  /** The weekday of a day number, Sunday being 0: day 0 was a Thursday. */
  function Weekday(day: int): (w: int)
    ensures 0 <= w < 7
  {
    (day + 4) % 7
  }

  /** `first_dow`, whose loop over the years starts at 1970. */
  function FirstDow(y: int, m: int): (w: int)
    requires 1 <= m <= 12
  {
    Weekday(DaysToYear(y) + DaysToMonth(y, m))
  }

  /** Each month starts where the one before it ended. */
  lemma FirstDowNext(y: int, m: int)
    requires y >= 1970 && 1 <= m <= 12
    ensures var w := (FirstDow(y, m) + MonthDays(y, m)) % 7;
      if m < 12 then FirstDow(y, m + 1) == w else FirstDow(y + 1, 1) == w
  {
    hide IsLeap, MonthDays, YearDays, Weekday;
    WholeYear(y);
    WeekdayOn(DaysToYear(y) + DaysToMonth(y, m), MonthDays(y, m));
  }

  lemma WeekdayOn(day: int, n: int)
    ensures Weekday(day + n) == (Weekday(day) + n) % 7
  {
  }

  lemma {:induction false} Cycle(y: int)
    requires y >= 1970
    ensures DaysToYear(y + 400) == DaysToYear(y) + 146097
  {
    CivilYear(y);
    CivilYear(y + 400);
    CivilByMarch(Date(y, 1, 1));
    CivilByMarch(Date(y + 400, 1, 1));
    var z := y - 1;
    assert (z + 400) / 4 == z / 4 + 100 && (z + 400) / 100 == z / 100 + 4 && (z + 400) / 400 == z / 400 + 1;
  }

  lemma LeapCycle(y: int)
    ensures IsLeap(y + 400) == IsLeap(y)
  {
    assert (y + 400) / 4 == y / 4 + 100;
    assert (y + 400) / 100 == y / 100 + 4;
    assert (y + 400) / 400 == y / 400 + 1;
    assert (y + 400) % 4 == y % 4 && (y + 400) % 100 == y % 100 && (y + 400) % 400 == y % 400;
  }

  lemma {:induction false} CycleMonths(y: int, m: int)
    requires 1 <= m <= 13
    ensures DaysToMonth(y + 400, m) == DaysToMonth(y, m)
    decreases m
  {
    hide IsLeap;
    LeapCycle(y);
    if m > 1 { CycleMonths(y, m - 1); }
  }

  /** The calendar repeats every 400 years. */
  lemma FirstDowCycle(y: int, m: int)
    requires y >= 1970 && 1 <= m <= 12
    ensures FirstDow(y + 400, m) == FirstDow(y, m)
  {
    hide DaysToYear, DaysToMonth;
    Cycle(y);
    CycleMonths(y, m);
  }

  /** `cal` prints any year it is given. It is right from 1970 on, and of earlier years for
      those that start on a Thursday, as 1970 did. */
  lemma FirstDowRight(y: int, m: int)
    requires 1 <= m <= 12
    ensures FirstDow(y, m) == Weekday(Civil(Date(y, m, 1))) <==> y >= 1970 || Weekday(Civil(Date(y, 1, 1))) == 4
  {
    hide Civil, DaysToMonth, IsLeap;
    CivilMonth(Date(y, m, 1));
    if y >= 1970 { CivilYear(y); }
  }

  lemma WrongIn1969()
    ensures FirstDow(1969, 1) == 4 && Weekday(Civil(Date(1969, 1, 1))) == 3
  {
  }
}
