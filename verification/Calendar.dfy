/** The wall-clock conversion of the scheduler: a calendar date to microseconds since 1970. */
module Calendar {
  import opened Wrappers

  datatype Date = Date(year: int, month: int, day: int)
  datatype Stamp = Stamp(date: Date, hour: int, minute: int, second: int)

  // ------------------------------------------------------------- the civil calendar

  predicate IsLeap(y: int) {
    y % 4 == 0 && (y % 100 != 0 || y % 400 == 0)
  }

  function DaysIn(y: int, m: int): int {
    if m == 2 then (if IsLeap(y) then 29 else 28)
    else if m == 4 || m == 6 || m == 9 || m == 11 then 30
    else 31
  }

  predicate Valid(d: Date) {
    1970 <= d.year && 1 <= d.month <= 12 && 1 <= d.day <= DaysIn(d.year, d.month)
  }

  const EPOCH := Date(1970, 1, 1)

  function NextDay(d: Date): Date {
    if d.day < DaysIn(d.year, d.month) then d.(day := d.day + 1)
    else if d.month < 12 then Date(d.year, d.month + 1, 1)
    else Date(d.year + 1, 1, 1)
  }

  function PreviousDay(d: Date): Date {
    if d.day > 1 then d.(day := d.day - 1)
    else if d.month > 1 then Date(d.year, d.month - 1, DaysIn(d.year, d.month - 1))
    else Date(d.year - 1, 12, 31)
  }

  predicate Before(a: Date, b: Date) {
    || a.year < b.year
    || (a.year == b.year && a.month < b.month)
    || (a.year == b.year && a.month == b.month && a.day < b.day)
  }

  // The date reached from the epoch by stepping n days.
  function DayAfterEpoch(n: nat): Date {
    if n == 0 then EPOCH else NextDay(DayAfterEpoch(n - 1))
  }

  // ------------------------------------------------------------- the closed form

  // Signed division of the source rounds toward zero.
  function TruncDiv(a: int, b: int): int
    requires b > 0
  {
    if a >= 0 then a / b else -((-a) / b)
  }

  function YearTerm(y: int): int {
    365 * y + TruncDiv(y, 4) - TruncDiv(y, 100) + TruncDiv(y, 400)
  }

  function MonthTerm(m: int): int {
    30 * m + TruncDiv(3 * (m + 1), 5)
  }

  // January and February count as months 13 and 14 of the year before.
  function DaysSinceEpoch(d: Date): int {
    var y := if d.month <= 2 then d.year - 1 else d.year;
    var m := if d.month <= 2 then d.month + 12 else d.month;
    YearTerm(y) + MonthTerm(m) + d.day - 719561
  }

  function Seconds(s: Stamp): int {
    DaysSinceEpoch(s.date) * 86400 + s.hour * 3600 + s.minute * 60 + s.second
  }

  // The range check of the source: it knows no month lengths.
  predicate Accepted(s: Stamp) {
    && 1 <= s.date.month <= 12 && 1 <= s.date.day <= 31
    && 0 <= s.hour <= 23 && 0 <= s.minute <= 59 && 0 <= s.second <= 59
  }

  predicate ValidStamp(s: Stamp) {
    Accepted(s) && Valid(s.date)
  }

  /** `read_rtc_us`, given what the clock callback returned. */
  method ReadRtcMicros(clock: Option<Stamp>) returns (us: Option<nat>)
    ensures us.None? <==> clock.None? || !Accepted(clock.value) || Seconds(clock.value) < 0
    ensures us.Some? ==> us.value == Seconds(clock.value) * 1_000_000
  {
    hide YearTerm, MonthTerm;
    if clock.None? { return None; }
    var s := clock.value;
    if s.date.month <= 0 || s.date.month > 12 || s.date.day <= 0 || s.date.day > 31 ||
       s.hour < 0 || s.hour > 23 || s.minute < 0 || s.minute > 59 || s.second < 0 || s.second > 59 {
      return None;
    }
    var y, m := s.date.year, s.date.month;
    if m <= 2 {
      y := y - 1;
      m := m + 12;
    }
    var days := YearTerm(y) + MonthTerm(m) + s.date.day - 719561;
    var totalSeconds := days * 86400 + s.hour * 3600 + s.minute * 60 + s.second;
    if totalSeconds < 0 { return None; }
    return Some(totalSeconds * 1_000_000);
  }

  // ------------------------------------------------------------- one day at a time

  lemma DivStep(y: int, k: int)
    requires y >= 1 && (k == 4 || k == 100 || k == 400)
    ensures TruncDiv(y, k) == TruncDiv(y - 1, k) + if y % k == 0 then 1 else 0
  {
  }

  lemma YearStep(y: int)
    requires y >= 1
    ensures YearTerm(y) == YearTerm(y - 1) + if IsLeap(y) then 366 else 365
  {
    hide TruncDiv;
    DivStep(y, 4);
    DivStep(y, 100);
    DivStep(y, 400);
    assert y % 400 == 0 ==> y % 100 == 0;
    assert y % 100 == 0 ==> y % 4 == 0;
  }

  lemma MonthTermTable(m: int)
    requires 3 <= m <= 13
    ensures MonthTerm(m + 1) - MonthTerm(m)
         == if m == 4 || m == 6 || m == 9 || m == 11 then 30 else 31
    ensures MonthTerm(3) == 92 && MonthTerm(14) == 429
  {
  }

  lemma MonthStep(y: int, m: int)
    requires 1970 <= y && 1 <= m < 12
    ensures DaysSinceEpoch(Date(y, m + 1, 1)) == DaysSinceEpoch(Date(y, m, 1)) + DaysIn(y, m)
  {
    hide YearTerm, MonthTerm, IsLeap;
    if m == 2 {
      YearStep(y);
      MonthTermTable(3);
    } else {
      MonthTermTable(if m == 1 then 13 else m);
    }
  }

  lemma YearEndStep(y: int)
    requires 1970 <= y
    ensures DaysSinceEpoch(Date(y + 1, 1, 1)) == DaysSinceEpoch(Date(y, 12, 1)) + 31
  {
    hide YearTerm, MonthTerm;
    MonthTermTable(12);
  }

  /** Stepping the calendar by one day adds one to the closed form. */
  lemma NextDayCounts(d: Date)
    requires Valid(d)
    ensures Valid(NextDay(d)) && DaysSinceEpoch(NextDay(d)) == DaysSinceEpoch(d) + 1
    ensures Before(d, NextDay(d))
  {
    hide YearTerm, MonthTerm, IsLeap;
    if d.day == DaysIn(d.year, d.month) {
      if d.month < 12 { MonthStep(d.year, d.month); } else { YearEndStep(d.year); }
    }
  }

  lemma PreviousDayInverts(d: Date)
    requires Valid(d) && d != EPOCH
    ensures Valid(PreviousDay(d)) && NextDay(PreviousDay(d)) == d
  {
  }

  /** After n days the closed form says n. */
  lemma {:induction false} ClosedFormAfter(n: nat)
    ensures Valid(DayAfterEpoch(n)) && DaysSinceEpoch(DayAfterEpoch(n)) == n
  {
    if n == 0 {
      assert DaysSinceEpoch(EPOCH) == 0;
    } else {
      hide YearTerm, MonthTerm, NextDay, DaysSinceEpoch;
      ClosedFormAfter(n - 1);
      NextDayCounts(DayAfterEpoch(n - 1));
    }
  }

  /**
   * For every valid date from 1970 on the closed form is the number of days stepped from
   * 1970-01-01, and it is not negative.
   */
  lemma {:induction false} ClosedFormCountsDays(d: Date)
    requires Valid(d)
    ensures DaysSinceEpoch(d) >= 0 && DayAfterEpoch(DaysSinceEpoch(d)) == d
    decreases d.year, d.month, d.day
  {
    if d == EPOCH {
      ClosedFormAfter(0);
    } else {
      PreviousDayInverts(d);
      var p := PreviousDay(d);
      hide NextDay, DaysSinceEpoch;
      ClosedFormCountsDays(p);
      NextDayCounts(p);
    }
  }

  // ------------------------------------------------------------- order

  lemma {:induction false} StepsAscend(m: nat, n: nat)
    requires m < n
    ensures Before(DayAfterEpoch(m), DayAfterEpoch(n))
    decreases n
  {
    hide NextDay;
    ClosedFormAfter(n - 1);
    NextDayCounts(DayAfterEpoch(n - 1));
    if m < n - 1 {
      StepsAscend(m, n - 1);
    }
  }

  lemma DaysAscendIff(a: Date, b: Date)
    requires Valid(a) && Valid(b)
    ensures Before(a, b) <==> DaysSinceEpoch(a) < DaysSinceEpoch(b)
  {
    hide DaysSinceEpoch, DayAfterEpoch;
    ClosedFormCountsDays(a);
    ClosedFormCountsDays(b);
    var m, n := DaysSinceEpoch(a), DaysSinceEpoch(b);
    if m < n { StepsAscend(m, n); }
    if n < m { StepsAscend(n, m); }
  }

  predicate Earlier(a: Stamp, b: Stamp) {
    || Before(a.date, b.date)
    || (a.date == b.date && a.hour < b.hour)
    || (a.date == b.date && a.hour == b.hour && a.minute < b.minute)
    || (a.date == b.date && a.hour == b.hour && a.minute == b.minute && a.second < b.second)
  }

  /** Over all valid stamps the result is defined and strictly increasing with date and time. */
  lemma MicrosFollowTime(a: Stamp, b: Stamp)
    requires ValidStamp(a) && ValidStamp(b)
    ensures Seconds(a) >= 0
    ensures Earlier(a, b) <==> Seconds(a) * 1_000_000 < Seconds(b) * 1_000_000
  {
    hide DaysSinceEpoch, DayAfterEpoch, Valid;
    DaysAscendIff(a.date, b.date);
    DaysAscendIff(b.date, a.date);
    ClosedFormCountsDays(a.date);
    ClosedFormCountsDays(b.date);
    if DaysSinceEpoch(a.date) == DaysSinceEpoch(b.date) {
      assert a.date == b.date;
    }
  }

  /**
   * The range check lets days past the end of a month through. Such a date is read as the
   * day that many days into the next month, so it collides with a real one.
   */
  lemma OverhangingDayCollides(y: int, m: int, day: int)
    requires 1970 <= y && 1 <= m <= 12 && DaysIn(y, m) < day <= 31
    ensures Valid(Date(y, m + 1, day - DaysIn(y, m)))
    ensures DaysSinceEpoch(Date(y, m, day)) == DaysSinceEpoch(Date(y, m + 1, day - DaysIn(y, m)))
  {
    hide YearTerm, MonthTerm, IsLeap;
    MonthStep(y, m);
  }

  /** Among accepted dates from 1970 on, the exact ones no real date shares are the valid ones. */
  lemma UniqueIffValid(d: Date)
    requires 1970 <= d.year && 1 <= d.month <= 12 && 1 <= d.day <= 31
    ensures Valid(d) <==> forall e: Date :: Valid(e) && DaysSinceEpoch(e) == DaysSinceEpoch(d) ==> e == d
  {
    hide DaysSinceEpoch;
    if Valid(d) {
      forall e: Date | Valid(e) && DaysSinceEpoch(e) == DaysSinceEpoch(d) ensures e == d {
        ClosedFormCountsDays(d);
        ClosedFormCountsDays(e);
      }
    } else {
      OverhangingDayCollides(d.year, d.month, d.day);
      var e := Date(d.year, d.month + 1, d.day - DaysIn(d.year, d.month));
      assert e != d && Valid(e);
    }
  }

  // ------------------------------------------------------------- one second at a time

  function NextSecond(s: Stamp): Stamp {
    if s.second < 59 then s.(second := s.second + 1)
    else if s.minute < 59 then s.(minute := s.minute + 1, second := 0)
    else if s.hour < 23 then s.(hour := s.hour + 1, minute := 0, second := 0)
    else Stamp(NextDay(s.date), 0, 0, 0)
  }

  /** One second further on the clock, over the end of a minute, an hour, a day or a year, adds one. */
  lemma NextSecondCounts(s: Stamp)
    requires ValidStamp(s)
    ensures ValidStamp(NextSecond(s)) && Seconds(NextSecond(s)) == Seconds(s) + 1
  {
    hide DaysSinceEpoch, NextDay, DaysIn;
    if s.second == 59 && s.minute == 59 && s.hour == 23 {
      NextDayCounts(s.date);
      DayInMonth(NextDay(s.date));
    }
  }

  lemma DayInMonth(d: Date)
    requires Valid(d)
    ensures 1 <= d.day <= 31
  {
  }

  // The clock n seconds after midnight of 1970-01-01.
  function ClockAfter(n: nat): Stamp {
    if n == 0 then Stamp(EPOCH, 0, 0, 0) else NextSecond(ClockAfter(n - 1))
  }

  /** n seconds after the epoch the conversion says n. */
  lemma {:induction false} SecondsCount(n: nat)
    ensures ValidStamp(ClockAfter(n)) && Seconds(ClockAfter(n)) == n
    decreases n
  {
    if n == 0 {
      hide DaysSinceEpoch;
      EpochIsZero();
    } else {
      hide Seconds, NextSecond, ValidStamp;
      SecondsCount(n - 1);
      NextSecondCounts(ClockAfter(n - 1));
    }
  }

  lemma EpochIsZero()
    ensures DaysSinceEpoch(EPOCH) == 0 && Valid(EPOCH)
  {
    ClosedFormAfter(0);
  }
}
