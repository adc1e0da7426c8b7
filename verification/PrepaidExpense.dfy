// Recognition schedules of prepaid expenses: one row per calendar month, by day or in equal parts.
module PrepaidExpense {
  import opened Rounding
  import opened Calendar

  datatype AllocationMethod = ByDay | EqualMonths
  /** Amounts count cents. */
  datatype ScheduleRow = ScheduleRow(period: int, amount: int)

  /** The calendar months from the start's to the end's. */
  function Months(start: CalendarDate, end: CalendarDate): seq<int> {
    if start.month > end.month then [] else seq(end.month - start.month + 1, i => start.month + i)
  }

  function TotalDays(start: CalendarDate, end: CalendarDate): int {
    Serial(end) - Serial(start) + 1
  }

  /** First and last day of the schedule's i-th month that lie in the recognition period. */
  function From(start: CalendarDate, i: nat): int {
    if i == 0 then Serial(start) else FirstDay(start.month + i)
  }

  function To(start: CalendarDate, end: CalendarDate, i: nat): int {
    if start.month + i == end.month then Serial(end) else FirstDay(start.month + i + 1) - 1
  }

  function Tabulated(n: nat, f: nat -> int): (r: seq<int>)
    ensures |r| == n && forall i | 0 <= i < n :: r[i] == f(i)
  {
    seq(n, i requires 0 <= i < n => f(i))
  }

  function DaysInPart(start: CalendarDate, end: CalendarDate): nat -> int {
    (i: nat) => To(start, end, i) - From(start, i) + 1
  }

  function DayCounts(start: CalendarDate, end: CalendarDate): seq<int> {
    Tabulated(|Months(start, end)|, DaysInPart(start, end))
  }

  function Parts(start: CalendarDate, end: CalendarDate, how: AllocationMethod): seq<int> {
    if how.ByDay? then DayCounts(start, end) else seq(|Months(start, end)|, i => 1)
  }

  /** A divisor; a single month never divides, so there any stands in for a day count that is not positive. */
  function Divisor(count: int): (d: int)
    ensures d > 0
  {
    if count > 0 then count else 1
  }

  /** What the parts are parts of. */
  function Whole(start: CalendarDate, end: CalendarDate, how: AllocationMethod): (w: int)
    ensures w > 0
  {
    Divisor(if how.ByDay? then TotalDays(start, end) else |Months(start, end)|)
  }

  function Shares(amount: int, start: CalendarDate, end: CalendarDate, how: AllocationMethod): seq<int> {
    Split(amount, Parts(start, end, how), Whole(start, end, how))
  }

  // ----- the schedule as it is built -----

  /** Steps from month to month while the month starts by the end date. */
  method CollectMonths(start: CalendarDate, end: CalendarDate) returns (months: seq<int>)
    requires Valid(start) && Valid(end)
    ensures months == Months(start, end)
  {
    months := [];
    var d := start.month;
    StartsByIff(d, end);
    while FirstDay(d) <= Serial(end)
      invariant d == start.month + |months| && |months| <= |Months(start, end)|
      invariant months == Months(start, end)[..|months|]
      invariant FirstDay(d) <= Serial(end) <==> d <= end.month
      decreases end.month - d
    {
      months := months + [d];
      d := d + 1;
      StartsByIff(d, end);
    }
  }

  /** Two or more months always make more than one day, so nothing is divided by zero. */
  lemma SeveralMonthsHaveDays(start: CalendarDate, end: CalendarDate)
    requires Valid(start) && Valid(end) && start.month < end.month
    ensures Serial(start) < Serial(end)
  {
    NextMonth(start.month);
    MonthsGrow(start.month + 1, end.month);
  }

  ghost predicate Paired(rows: seq<ScheduleRow>, months: seq<int>, amounts: seq<int>) {
    |rows| == |amounts| <= |months| && forall k | 0 <= k < |rows| :: rows[k] == ScheduleRow(months[k], amounts[k])
  }

  /** Each row's share in proportion to its days, out of totalDays. */
  method AllotByDay(amount: int, months: seq<int>, days: nat -> int, totalDays: int) returns (rows: seq<ScheduleRow>)
    requires months != [] && (|months| > 1 ==> totalDays > 0)
    ensures Paired(rows, months, Split(amount, Tabulated(|months|, days), Divisor(totalDays)))
  {
    ghost var parts, whole := Tabulated(|months|, days), Divisor(totalDays);
    ghost var amounts := [];
    var soFar := 0;
    rows := [];
    for i := 0 to |months|
      invariant |rows| == i && Paired(rows, months, amounts)
      invariant if i < |months| then amounts == Rounded(amount, parts[..i], whole) && soFar == Total(amounts)
                else amounts == Split(amount, parts, whole)
    {
      RoundedNext(amount, parts, whole, i);
      assert parts[i] == days(i) && parts[..|months|] == parts;
      var share := if i == |months| - 1 then amount - soFar else RoundHalfUp(amount * days(i), totalDays);
      soFar := soFar + share;
      amounts := amounts + [share];
      rows := rows + [ScheduleRow(months[i], share)];
    }
  }

  method AllotEqually(amount: int, months: seq<int>) returns (rows: seq<ScheduleRow>)
    requires months != []
    ensures Paired(rows, months, Split(amount, seq(|months|, i => 1), |months|))
  {
    ghost var parts := seq(|months|, i => 1);
    ghost var amounts := [];
    var perMonth := RoundHalfUp(amount, |months|);
    var soFar := 0;
    rows := [];
    for i := 0 to |months|
      invariant |rows| == i && Paired(rows, months, amounts)
      invariant if i < |months| then amounts == Rounded(amount, parts[..i], |months|) && soFar == Total(amounts)
                else amounts == Split(amount, parts, |months|)
    {
      RoundedNext(amount, parts, |months|, i);
      assert amount * parts[i] == amount;
      var share := if i == |months| - 1 then amount - soFar else perMonth;
      soFar := soFar + share;
      amounts := amounts + [share];
      rows := rows + [ScheduleRow(months[i], share)];
    }
  }

  /** Month by month, each share rounded to the cent and the last month taking what is left. */
  method BuildSchedule(amount: int, start: CalendarDate, end: CalendarDate, how: AllocationMethod) returns (rows: seq<ScheduleRow>)
    requires Valid(start) && Valid(end)
    ensures |rows| == |Months(start, end)| && Paired(rows, Months(start, end), Shares(amount, start, end, how))
  {
    var months := CollectMonths(start, end);
    if |months| == 0 { return []; }
    if how.ByDay? {
      if |months| > 1 { SeveralMonthsHaveDays(start, end); }
      rows := AllotByDay(amount, months, DaysInPart(start, end), TotalDays(start, end));
    } else {
      rows := AllotEqually(amount, months);
      assert seq(|months|, i => 1) == Parts(start, end, how);
    }
  }

  // ----- what the schedule amounts to -----

  /** The months' parts of the period are consecutive, from the start to the end date, none of them empty. */
  lemma MonthsPartition(start: CalendarDate, end: CalendarDate, i: nat)
    requires Valid(start) && Valid(end) && Serial(start) <= Serial(end) && i < |Months(start, end)|
    ensures From(start, 0) == Serial(start) && To(start, end, |Months(start, end)| - 1) == Serial(end)
    ensures i + 1 < |Months(start, end)| ==> To(start, end, i) + 1 == From(start, i + 1)
    ensures From(start, i) <= To(start, end, i) && DayCounts(start, end)[i] >= 1
  {
    NextMonth(start.month + i);
  }

  lemma FromGrows(start: CalendarDate, end: CalendarDate, i: nat, j: nat)
    requires Valid(start) && Valid(end) && Serial(start) <= Serial(end) && i < j < |Months(start, end)|
    ensures To(start, end, i) < From(start, j)
    decreases j
  {
    MonthsPartition(start, end, j - 1);
    if i < j - 1 {
      FromGrows(start, end, i, j - 1);
    }
  }

  ghost predicate Covers(start: CalendarDate, end: CalendarDate, i: nat, day: int) {
    From(start, i) <= day <= To(start, end, i)
  }

  lemma {:induction false} SomeMonthCovers(start: CalendarDate, end: CalendarDate, day: int, n: nat) returns (i: nat)
    requires Valid(start) && Valid(end) && Serial(start) <= day <= Serial(end)
    requires n < |Months(start, end)| && day <= To(start, end, n)
    ensures i < |Months(start, end)| && Covers(start, end, i, day)
  {
    MonthsPartition(start, end, n);
    if day >= From(start, n) {
      i := n;
    } else {
      MonthsPartition(start, end, n - 1);
      i := SomeMonthCovers(start, end, day, n - 1);
    }
  }

  /** Every day of the period is counted in exactly one month. */
  lemma EveryDayCountedOnce(start: CalendarDate, end: CalendarDate, day: int)
    requires Valid(start) && Valid(end) && Serial(start) <= day <= Serial(end)
    ensures exists i: nat :: i < |Months(start, end)| && Covers(start, end, i, day)
    ensures forall i: nat, j: nat | i < |Months(start, end)| && j < |Months(start, end)| ::
      Covers(start, end, i, day) && Covers(start, end, j, day) ==> i == j
  {
    StartsByIff(start.month, start);
    StartsByIff(start.month, end);
    var n := |Months(start, end)|;
    MonthsPartition(start, end, n - 1);
    var k := SomeMonthCovers(start, end, day, n - 1);
    forall i: nat, j: nat | i < n && j < n && Covers(start, end, i, day) && Covers(start, end, j, day) ensures i == j {
      if i < j { FromGrows(start, end, i, j); }
      if j < i { FromGrows(start, end, j, i); }
    }
  }

  lemma {:induction false} DaysSoFar(start: CalendarDate, end: CalendarDate, n: nat)
    requires Valid(start) && Valid(end) && n < |Months(start, end)|
    ensures Total(DayCounts(start, end)[..n]) == From(start, n) - Serial(start)
  {
    var days := DayCounts(start, end);
    if n > 0 {
      DaysSoFar(start, end, n - 1);
      assert days[..n] == days[..n - 1] + [days[n - 1]];
      TotalAppend(days[..n - 1], days[n - 1]);
    }
  }

  /** The months' day counts add up to the length of the period. */
  lemma DaysAddUp(start: CalendarDate, end: CalendarDate)
    requires Valid(start) && Valid(end) && Months(start, end) != []
    ensures Total(DayCounts(start, end)) == TotalDays(start, end)
  {
    var days := DayCounts(start, end);
    DaysSoFar(start, end, |days| - 1);
    assert days == days[..|days| - 1] + [days[|days| - 1]];
    TotalAppend(days[..|days| - 1], days[|days| - 1]);
  }

  /** The parts make up the whole whenever there is something to divide. */
  lemma PartsMakeWhole(start: CalendarDate, end: CalendarDate, how: AllocationMethod)
    requires Valid(start) && Valid(end) && |Months(start, end)| > 1
    ensures Total(Parts(start, end, how)) == Whole(start, end, how)
  {
    SeveralMonthsHaveDays(start, end);
    if how.ByDay? {
      DaysAddUp(start, end);
    } else {
      OnesAddUp(Parts(start, end, how));
    }
  }

  /** The whole amount is scheduled, unless it is not zero and the end date lies before the first day of
      the start's month: then there is no row at all. */
  lemma WholeAmountIff(amount: int, start: CalendarDate, end: CalendarDate, how: AllocationMethod)
    requires Valid(start) && Valid(end)
    ensures Total(Shares(amount, start, end, how)) == amount <==> FirstDay(start.month) <= Serial(end) || amount == 0
  {
    StartsByIff(start.month, end);
    if Months(start, end) != [] {
      SplitSums(amount, Parts(start, end, how), Whole(start, end, how));
    }
  }

  /** Every share before the last is within half a cent of its proportion, by days of the period or by months. */
  lemma SharesNear(amount: int, start: CalendarDate, end: CalendarDate, how: AllocationMethod, i: nat)
    requires Valid(start) && Valid(end) && i + 1 < |Months(start, end)|
    ensures |Shares(amount, start, end, how)| == |Months(start, end)|
    ensures var whole := if how.ByDay? then TotalDays(start, end) else |Months(start, end)|;
      var part := if how.ByDay? then To(start, end, i) - From(start, i) + 1 else 1;
      whole > 0 && -whole <= Drift(amount, part, whole, Shares(amount, start, end, how)[i]) <= whole
  {
    SeveralMonthsHaveDays(start, end);
    SplitNear(amount, Parts(start, end, how), Whole(start, end, how), i);
  }

  /** The last of n shares is within (n - 1) / 2 cents of its proportion; a single share is the amount. */
  lemma LastShareNear(amount: int, start: CalendarDate, end: CalendarDate, how: AllocationMethod)
    requires Valid(start) && Valid(end) && Months(start, end) != []
    ensures var n := |Months(start, end)|;
      var whole := if how.ByDay? then TotalDays(start, end) else n;
      var part := if how.ByDay? then Serial(end) - From(start, n - 1) + 1 else 1;
      && |Shares(amount, start, end, how)| == n
      && (n == 1 ==> Shares(amount, start, end, how)[0] == amount)
      && (n > 1 ==> whole > 0)
      && var drift := Drift(amount, part, whole, Shares(amount, start, end, how)[n - 1]);
         n > 1 ==> -((n - 1) * whole) <= drift <= (n - 1) * whole
  {
    SplitSums(amount, Parts(start, end, how), Whole(start, end, how));
    if |Months(start, end)| > 1 {
      SeveralMonthsHaveDays(start, end);
      PartsMakeWhole(start, end, how);
      SplitLast(amount, Parts(start, end, how), Whole(start, end, how));
    }
  }
}
