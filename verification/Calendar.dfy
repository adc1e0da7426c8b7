// Days and months of the Gregorian calendar, as the date arithmetic of the schedules uses them.
module Calendar {
  /** Months are counted from January of year 0; a date is a day within a month. */
  datatype CalendarDate = CalendarDate(month: int, day: int)

  predicate Leap(year: int) {
    year % 4 == 0 && (year % 100 != 0 || year % 400 == 0)
  }

  function MonthLength(leap: bool, m: int): int {
    if m == 1 then (if leap then 29 else 28)
    else if m == 3 || m == 5 || m == 8 || m == 10 then 30 else 31
  }

  function DaysIn(month: int): int {
    MonthLength(Leap(month / 12), month % 12)
  }

  predicate Valid(date: CalendarDate) {
    1 <= date.day <= DaysIn(date.month)
  }

  /** Days from 1 January of year 0 to the month's first day. */
  function FirstDay(month: int): int
    decreases if month < 0 then -month else month
  {
    if month == 0 then 0
    else if month > 0 then FirstDay(month - 1) + DaysIn(month - 1)
    else FirstDay(month + 1) - DaysIn(month)
  }

  function Serial(date: CalendarDate): int {
    FirstDay(date.month) + date.day - 1
  }

  /** One month after another: the serial numbers of months leave no gap. */
  lemma NextMonth(month: int)
    ensures FirstDay(month + 1) == FirstDay(month) + DaysIn(month)
  {}

  /** Leap years before the given one, counted from year 0. */
  function LeapsBefore(year: int): int {
    (year + 3) / 4 - (year + 99) / 100 + (year + 399) / 400
  }

  lemma LeapStep(year: int)
    ensures LeapsBefore(year + 1) == LeapsBefore(year) + (if Leap(year) then 1 else 0)
  {
    assert (year + 4) / 4 == (year + 3) / 4 + (if year % 4 == 0 then 1 else 0);
    assert (year + 100) / 100 == (year + 99) / 100 + (if year % 100 == 0 then 1 else 0);
    assert (year + 400) / 400 == (year + 399) / 400 + (if year % 400 == 0 then 1 else 0);
  }

  lemma DaysInYear(year: int, m: nat)
    requires m < 12
    ensures DaysIn(12 * year + m) == MonthLength(Leap(year), m)
  {
    assert (12 * year + m) / 12 == year && (12 * year + m) % 12 == m;
  }

  lemma OneYear(year: int)
    ensures FirstDay(12 * year + 12) == FirstDay(12 * year) + (if Leap(year) then 366 else 365)
  {
    for m := 0 to 12
      invariant FirstDay(12 * year + m) == FirstDay(12 * year) +
        (if m > 1 && Leap(year) then 1 else 0) + [0, 31, 59, 90, 120, 151, 181, 212, 243, 273, 304, 334, 365][m]
    {
      NextMonth(12 * year + m);
      DaysInYear(year, m);
    }
  }

  /** The years start where the closed formula of the Gregorian calendar puts them. */
  lemma {:induction false} YearsStart(year: int)
    ensures FirstDay(12 * year) == 365 * year + LeapsBefore(year)
    decreases if year < 0 then -year else year
  {
    if year > 0 {
      YearsStart(year - 1);
      OneYear(year - 1);
      LeapStep(year - 1);
    } else if year < 0 {
      YearsStart(year + 1);
      OneYear(year);
      LeapStep(year);
    }
  }

  lemma {:induction false} MonthsGrow(a: int, b: int)
    requires a <= b
    ensures FirstDay(a) + 28 * (b - a) <= FirstDay(b)
    decreases b - a
  {
    if a < b {
      NextMonth(b - 1);
      MonthsGrow(a, b - 1);
    }
  }

  /** A month starts on or before a date exactly when it is not a later month. */
  lemma StartsByIff(month: int, date: CalendarDate)
    requires Valid(date)
    ensures FirstDay(month) <= Serial(date) <==> month <= date.month
  {
    NextMonth(date.month);
    if month <= date.month {
      MonthsGrow(month, date.month);
    } else {
      MonthsGrow(date.month + 1, month);
    }
  }
}
