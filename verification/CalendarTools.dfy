/** The loops of cal and date (usr/bin/cal.c, usr/bin/date.c), each proved against
    the day number and inverse to it. */
module CalendarTools {
  import opened Calendar

  /** The summing loops of `rtc_read_unix`. */
  method CountDays(t: Date) returns (days: int)
    requires 1 <= t.m <= 12
    ensures days == DayNumber(t)
  {
    days := 0;
    var y := 1970;
    while y < t.y
      invariant (y <= t.y || y == 1970) && days == DaysToYear(y)
    {
      days := days + if IsLeap(y) then 366 else 365;
      y := y + 1;
    }
    days := DaysAndMonths(t, days);
  }

  method DaysAndMonths(t: Date, start: int) returns (days: int)
    requires 1 <= t.m <= 12
    ensures days == start + DaysToMonth(t.y, t.m) + t.d - 1
  {
    hide IsLeap, MonthDays;
    days := start;
    for m := 1 to t.m
      invariant days == start + DaysToMonth(t.y, m)
    {
      days := days + MonthDays(t.y, m);
    }
    days := days + t.d - 1;
  }

  /** The decoding loops of `get_today` and of date's `main`: the one date with that day number. */
  method Decode(day: nat) returns (t: Date)
    ensures Valid(t) && DayNumber(t) == day == Civil(t)
    ensures forall u :: Valid(u) && DayNumber(u) == day ==> u == t
  {
    hide IsLeap, MonthDays;
    var days, y := day, 1970;
    while true
      invariant y >= 1970 && days >= 0 && DaysToYear(y) + days == day
      decreases days
    {
      var dy := if IsLeap(y) then 366 else 365;
      if days < dy { break; }
      days := days - dy;
      y := y + 1;
    }
    WholeYear(y);
    var mo := 0;
    while mo < 12
      invariant 0 <= mo <= 12 && days >= 0
      invariant DaysToYear(y) + DaysToMonth(y, mo + 1) + days == day
    {
      if days < MonthDays(y, mo + 1) { break; }
      days := days - MonthDays(y, mo + 1);
      mo := mo + 1;
    }
    t := Date(y, mo + 1, days + 1);
    CivilIsDayNumber(t);
    forall u | Valid(u) && DayNumber(u) == day ensures u == t { DayNumberOnce(t, u); }
  }

  /** The loops of `first_dow`. */
  method CountFirstDow(y: int, m: int) returns (w: int)
    requires 1 <= m <= 12
    ensures w == FirstDow(y, m)
  {
    hide IsLeap, MonthDays;
    var days := CountDays(Date(y, m, 1));
    w := (days + 4) % 7;
  }

  datatype Moment = Moment(date: Date, hour: int, min: int, sec: int)

  ghost predicate Exists(x: Moment) {
    Valid(x.date) && 0 <= x.hour < 24 && 0 <= x.min < 60 && 0 <= x.sec < 60
  }

  /** The checks on a reading of the clock; a day is not held against its month. */
  predicate InRange(x: Moment) {
    && x.date.y >= 2000 && 1 <= x.date.m <= 12 && 1 <= x.date.d <= 31
    && 0 <= x.hour < 24 && 0 <= x.min < 60 && 0 <= x.sec < 60
  }

  function Seconds(x: Moment): (t: int)
    requires 1 <= x.date.m <= 12
  {
    DayNumber(x.date) * 86400 + x.hour * 3600 + x.min * 60 + x.sec
  }

  lemma SecondsOnce(x: Moment, y: Moment)
    requires Exists(x) && Exists(y) && Seconds(x) == Seconds(y)
    ensures x == y
  {
    hide DayNumber;
    assert DayNumber(x.date) == DayNumber(y.date);
    DayNumberOnce(x.date, y.date);
  }

  /** The day after, by the calendar. */
  function Tomorrow(t: Date): Date
    requires 1 <= t.m <= 12
  {
    if t.d < MonthDays(t.y, t.m) then Date(t.y, t.m, t.d + 1)
    else if t.m < 12 then Date(t.y, t.m + 1, 1)
    else Date(t.y + 1, 1, 1)
  }

  /** The second after, by the clock. */
  function Tick(x: Moment): Moment
    requires 1 <= x.date.m <= 12
  {
    if x.sec < 59 then x.(sec := x.sec + 1)
    else if x.min < 59 then x.(min := x.min + 1, sec := 0)
    else if x.hour < 23 then x.(hour := x.hour + 1, min := 0, sec := 0)
    else Moment(Tomorrow(x.date), 0, 0, 0)
  }

  lemma TomorrowCounts(t: Date)
    requires Valid(t)
    ensures Valid(Tomorrow(t)) && DayNumber(Tomorrow(t)) == DayNumber(t) + 1
  {
    hide IsLeap, MonthDays;
    if t.d == MonthDays(t.y, t.m) && t.m == 12 { WholeYear(t.y); }
    FirstDays(t);
  }

  lemma FirstDays(t: Date)
    requires Valid(t)
    ensures 1 <= MonthDays(Tomorrow(t).y, Tomorrow(t).m)
  {
  }

  /** The count starts at 0 with 1970, */
  lemma EpochIsZero()
    ensures Seconds(Moment(Date(1970, 1, 1), 0, 0, 0)) == 0
  {
  }

  /** and every tick of the clock adds one. */
  lemma TickCounts(x: Moment)
    requires Exists(x)
    ensures Exists(Tick(x)) && Seconds(Tick(x)) == Seconds(x) + 1
  {
    hide DayNumber, Tomorrow, Valid, Seconds;
    TomorrowCounts(x.date);
    MonthOf(x.date);
    MonthOf(Tomorrow(x.date));
    Counted(x);
    Counted(Tick(x));
  }

  lemma Counted(x: Moment)
    requires 1 <= x.date.m <= 12
    ensures Seconds(x) == DayNumber(x.date) * 86400 + x.hour * 3600 + x.min * 60 + x.sec
  {
  }

  lemma MonthOf(t: Date)
    ensures Valid(t) ==> 1 <= t.m <= 12
  {
  }

  /** What the clock chip gives, checked and counted; 0 for a reading out of range. */
  method ReadClock(x: Moment) returns (t: int)
    ensures t > 0 <==> InRange(x)
    ensures t == if InRange(x) then Seconds(x) else 0
    ensures Exists(x) && x.date.y >= 2000 ==> InRange(x)
  {
    hide IsLeap, MonthDays;
    if x.sec < 0 || x.sec > 59 || x.min < 0 || x.min > 59 { return 0; }
    if x.hour < 0 || x.hour > 23 { return 0; }
    if x.date.d < 1 || x.date.d > 31 { return 0; }
    if x.date.m < 1 || x.date.m > 12 { return 0; }
    if x.date.y < 2000 { return 0; }
    var days := CountDays(x.date);
    YearsGrow(1970, x.date.y);
    t := days * 86400 + x.hour * 3600 + x.min * 60 + x.sec;
  }

  /** date's `main` on a time: the one moment that counts to it. */
  method ShowTime(t: nat) returns (x: Moment)
    ensures Exists(x) && Seconds(x) == t
    ensures forall y :: Exists(y) && Seconds(y) == t ==> y == x
  {
    hide DayNumber;
    var days, rem := t / 86400, t % 86400;
    var date := Decode(days);
    x := Moment(date, rem / 3600, rem % 3600 / 60, rem % 60);
    assert rem == rem / 3600 * 3600 + rem % 3600 / 60 * 60 + rem % 60;
    forall y | Exists(y) && Seconds(y) == t ensures y == x { SecondsOnce(x, y); }
  }
}
