// What the rows of a recognition schedule are: calendar months, the days of the period in them, and the shares.
module ScheduleMeaning {
  import opened Rounding
  import opened Calendar
  import opened PrepaidExpense

  // ----- the calendar -----

  /** Days of the year before month m of a common year. */
  const DAYS_BEFORE := [0, 31, 59, 90, 120, 151, 181, 212, 243, 273, 304, 334, 365]

  lemma OneMoreMonth(leap: bool, m: nat)
    requires 1 <= m <= 12
    ensures DAYS_BEFORE[m] == DAYS_BEFORE[m - 1] + MonthLength(leap, m - 1) - if m == 2 && leap then 1 else 0
  {}

  lemma {:induction false} MonthsOfYear(year: int, m: nat)
    requires m <= 12
    ensures FirstDay(12 * year + m) == FirstDay(12 * year) + DAYS_BEFORE[m] + if m > 1 && Leap(year) then 1 else 0
  {
    if m > 0 {
      MonthsOfYear(year, m - 1);
      NextMonth(12 * year + m - 1);
      DaysInYear(year, m - 1);
      OneMoreMonth(Leap(year), m);
    }
  }

  /** Where a month starts: 365 days a year, a day more for every fourth year but not for a century, except every fourth one,
      and the days of the months before it. */
  lemma MonthStarts(year: int, m: nat)
    requires m <= 12
    ensures FirstDay(12 * year + m) ==
      365 * year + (year + 3) / 4 - (year + 99) / 100 + (year + 399) / 400 + DAYS_BEFORE[m]
      + if m > 1 && year % 4 == 0 && (year % 100 != 0 || year % 400 == 0) then 1 else 0
  {
    YearsStart(year);
    MonthsOfYear(year, m);
  }

  /** A date's number counts on from the first of its month. */
  lemma DateNumber(date: CalendarDate)
    ensures Serial(date) == FirstDay(date.month) + date.day - 1
    ensures Valid(date) <==> FirstDay(date.month) <= Serial(date) < FirstDay(date.month + 1)
  {
    NextMonth(date.month);
  }

  // ----- the rows -----

  /** One row per calendar month from that of the start to that of the end, in order; none when the end is in an earlier one. */
  lemma MonthsAre(start: CalendarDate, end: CalendarDate)
    ensures |Months(start, end)| == if start.month <= end.month then end.month - start.month + 1 else 0
    ensures forall i | 0 <= i < |Months(start, end)| :: Months(start, end)[i] == start.month + i
  {}

  lemma FromIs(start: CalendarDate, i: nat, day: int)
    requires Valid(start)
    ensures From(start, i) <= day <==> Serial(start) <= day && FirstDay(start.month + i) <= day
  {
    DateNumber(start);
    if i > 0 { MonthsGrow(start.month + 1, start.month + i); }
  }

  lemma ToIs(start: CalendarDate, end: CalendarDate, i: nat, day: int)
    requires Valid(end) && start.month + i <= end.month
    ensures day <= To(start, end, i) <==> day <= Serial(end) && day < FirstDay(start.month + i + 1)
  {
    DateNumber(end);
    if start.month + i < end.month { MonthsGrow(start.month + i + 1, end.month); }
  }

  /** The part of the period that a row stands for is made of the days of the period that lie in its month. */
  lemma CoversIff(start: CalendarDate, end: CalendarDate, i: nat, day: int)
    requires Valid(start) && Valid(end) && Serial(start) <= Serial(end) && i < |Months(start, end)|
    ensures Covers(start, end, i, day) <==>
      && Serial(start) <= day <= Serial(end)
      && FirstDay(start.month + i) <= day < FirstDay(start.month + i + 1)
  {
    FromIs(start, i, day);
    ToIs(start, end, i, day);
  }

  /** By days, a row before the last gets the share that its days have in all days of the period, to within half a cent; in equal
      parts, an n-th of the amount. */
  lemma ShareIs(amount: int, start: CalendarDate, end: CalendarDate, how: AllocationMethod, i: nat, first: int, last: int)
    requires Valid(start) && Valid(end) && Serial(start) <= Serial(end) && i + 1 < |Months(start, end)|
    requires first <= last && forall day :: first <= day <= last <==> Covers(start, end, i, day)
    ensures |Shares(amount, start, end, how)| == |Months(start, end)|
    ensures var n, share := |Months(start, end)|, Shares(amount, start, end, how)[i];
      match how
      case ByDay =>
        var all := Serial(end) - Serial(start) + 1;
        -all <= 2 * (all * share - amount * (last - first + 1)) <= all
      case EqualMonths => -n <= 2 * (n * share - amount) <= n
  {
    SharesNear(amount, start, end, how, i);
    MonthsPartition(start, end, i);
    assert Covers(start, end, i, first) && Covers(start, end, i, last);
    assert Covers(start, end, i, From(start, i)) && Covers(start, end, i, To(start, end, i));
    assert first == From(start, i) && last == To(start, end, i);
  }
}
