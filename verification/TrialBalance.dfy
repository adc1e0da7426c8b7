// Balance queries over the movement register: the trial balance and the account card.
module TrialBalance {
  import opened Wrappers
  import opened Seqs
  import opened Ledger
  import opened LedgerInvariant

  /** A part of the register chosen by organization and date alone. */
  type Cut = (string, Date) -> bool

  function Before(organization: string, date: Date): Cut {
    (o, d) => o == organization && d < date
  }

  function Through(organization: string, date: Date): Cut {
    (o, d) => o == organization && d <= date
  }

  function Between(organization: string, from: Date, to: Date): Cut {
    (o, d) => o == organization && from <= d <= to
  }

  function InCut(cut: Cut): Movement -> bool {
    (m: Movement) => cut(m.organization, m.businessDate)
  }

  function SignedAmount(line: Line): int {
    if line.side.Debit? then line.amount else -line.amount
  }

  function Signed(cut: Cut): Movement -> int {
    (m: Movement) => if cut(m.organization, m.businessDate) then SignedAmount(m.line) else 0
  }

  function SideOf(cut: Cut, side: Side): Movement -> int {
    (m: Movement) => if cut(m.organization, m.businessDate) && m.line.side == side then m.line.amount else 0
  }

  function OnAccount(cut: Cut, account: string, side: Side): Movement -> int {
    (m: Movement) =>
      if cut(m.organization, m.businessDate) && m.line.account == account && m.line.side == side then m.line.amount else 0
  }

  lemma SideTerm(m: Movement, cut: Cut, side: Side)
    ensures SideOf(cut, side)(m) == if InCut(cut)(m) && m.line.side == side then m.line.amount else 0
    ensures Signed(cut)(m) == if InCut(cut)(m) then SignedAmount(m.line) else 0
  {}

  lemma AccountTerm(m: Movement, cut: Cut, account: string, side: Side)
    ensures OnAccount(cut, account, side)(m) == if m.line.account == account then SideOf(cut, side)(m) else 0
  {
    SideTerm(m, cut, side);
  }

  /** The sum the register holds for an account and side within a cut. */
  ghost function Figure(movements: seq<Movement>, cut: Cut, account: string, side: Side): int {
    SumBy(movements, OnAccount(cut, account, side))
  }

  datatype Row = Row(account: string, openingDebit: int, openingCredit: int, turnoverDebit: int, turnoverCredit: int,
                     closingDebit: int, closingCredit: int)

  // ----- every cut of the register balances -----

  function LineSign(): Line -> int {
    (line: Line) => SignedAmount(line)
  }

  lemma BalancedMeansNoNet(lines: seq<Line>)
    ensures SumBy(lines, LineSign()) == SumBy(lines, OnSide(Debit)) - SumBy(lines, OnSide(Credit))
  {
    SumLinear(lines, OnSide(Debit), OnSide(Credit), -1, LineSign());
  }

  lemma EntryNetsToZero(ledger: Ledger, id: EntryId, cut: Cut)
    requires Consistent(ledger)
    ensures SumBy(Filter(ledger.movements, OfEntry(id)), Signed(cut)) == 0
  {
    if id !in ledger.entries || ledger.entries[id].status.Draft? {
      NoMovements(ledger, id);
    } else {
      var entry := ledger.entries[id];
      assert EntryConsistent(ledger, id);
      var movements := MovementsFor(id, entry);
      if cut(entry.organization, entry.businessDate) {
        BalancedMeansNoNet(entry.lines);
        SumMatching(movements, entry.lines, Signed(cut), LineSign());
      } else {
        SumZero(movements, Signed(cut));
      }
    }
  }

  /** Entry by entry: removing one entry's movements removes nothing from the others. */
  lemma {:induction false} NetOverEntries(movements: seq<Movement>, f: Movement -> int)
    requires forall id :: SumBy(Filter(movements, OfEntry(id)), f) == 0
    ensures SumBy(movements, f) == 0
    decreases |movements|
  {
    if movements != [] {
      var id := movements[0].entry;
      var rest := Filter(movements, Except(OfEntry(id)));
      SumPartition(movements, OfEntry(id), f);
      assert movements[0] in movements && !Except(OfEntry(id))(movements[0]);
      FilterLength(movements, Except(OfEntry(id)));
      forall other ensures SumBy(Filter(rest, OfEntry(other)), f) == 0 {
        RemoveMovements(movements, id, other);
      }
      NetOverEntries(rest, f);
    }
  }

  /** In any consistent ledger, whatever organizations and dates are picked, debits equal credits. */
  lemma CutBalances(ledger: Ledger, cut: Cut)
    requires Consistent(ledger)
    ensures SumBy(ledger.movements, SideOf(cut, Debit)) == SumBy(ledger.movements, SideOf(cut, Credit))
  {
    forall id ensures SumBy(Filter(ledger.movements, OfEntry(id)), Signed(cut)) == 0 {
      EntryNetsToZero(ledger, id, cut);
    }
    NetOverEntries(ledger.movements, Signed(cut));
    forall m | m in ledger.movements ensures Signed(cut)(m) == SideOf(cut, Debit)(m) + -1 * SideOf(cut, Credit)(m) {
      SideTerm(m, cut, Debit);
      SideTerm(m, cut, Credit);
    }
    SumLinear(ledger.movements, SideOf(cut, Debit), SideOf(cut, Credit), -1, Signed(cut));
  }

  // ----- trial balance -----

  /** Positive net on the debit side, negative net on the credit side. */
  ghost function RowFor(movements: seq<Movement>, organization: string, from: Date, to: Date, account: string): Row {
    var od := Figure(movements, Before(organization, from), account, Debit);
    var oc := Figure(movements, Before(organization, from), account, Credit);
    var td := Figure(movements, Between(organization, from, to), account, Debit);
    var tc := Figure(movements, Between(organization, from, to), account, Credit);
    var net := od - oc + td - tc;
    Row(account, od, oc, td, tc, if net >= 0 then net else 0, if net < 0 then -net else 0)
  }

  ghost function Rows(movements: seq<Movement>, organization: string, from: Date, to: Date, accounts: seq<string>): seq<Row> {
    seq(|accounts|, i requires 0 <= i < |accounts| => RowFor(movements, organization, from, to, accounts[i]))
  }

  datatype Totals = Totals(debit: int, credit: int) {
    function Of(side: Side): int {
      if side.Debit? then debit else credit
    }
  }

  datatype GroupRow = GroupRow(account: string, side: Side, sum: int)

  /** What the database answers to a sum grouped by account and side, for the listed accounts. */
  ghost predicate IsGrouping(rows: seq<GroupRow>, movements: seq<Movement>, cut: Cut, accounts: seq<string>) {
    && (forall row | row in rows :: row.sum == Figure(movements, cut, row.account, row.side))
    && (forall m | m in movements :: InCut(cut)(m) && m.line.account in accounts ==>
          exists row | row in rows :: row.account == m.line.account && row.side == m.line.side)
  }

  /** The latest sum listed for an account and side, or nothing. */
  function LastSum(rows: seq<GroupRow>, account: string, side: Side): int {
    if rows == [] then 0
    else
      var last := rows[|rows| - 1];
      if last.account == account && last.side == side then last.sum else LastSum(rows[..|rows| - 1], account, side)
  }

  function TotalsAt(totals: map<string, Totals>, account: string): Totals {
    if account in totals then totals[account] else Totals(0, 0)
  }

  method GroupToMap(rows: seq<GroupRow>) returns (totals: map<string, Totals>)
    ensures forall account, side :: TotalsAt(totals, account).Of(side) == LastSum(rows, account, side)
  {
    totals := map[];
    for i := 0 to |rows|
      invariant forall account, side :: TotalsAt(totals, account).Of(side) == LastSum(rows[..i], account, side)
    {
      var row := rows[i];
      assert rows[..i + 1][..i] == rows[..i];
      var entry := TotalsAt(totals, row.account);
      entry := if row.side.Debit? then entry.(debit := row.sum) else entry.(credit := row.sum);
      totals := totals[row.account := entry];
    }
    assert rows[..|rows|] == rows;
  }

  lemma {:induction false} LastSumIsFigure(rows: seq<GroupRow>, movements: seq<Movement>, cut: Cut,
                                           account: string, side: Side)
    requires forall row | row in rows :: row.sum == Figure(movements, cut, row.account, row.side)
    requires (forall row | row in rows :: row.account != account || row.side != side) ==>
               Figure(movements, cut, account, side) == 0
    ensures LastSum(rows, account, side) == Figure(movements, cut, account, side)
  {
    if rows != [] {
      var last := rows[|rows| - 1];
      if !(last.account == account && last.side == side) {
        LastSumIsFigure(rows[..|rows| - 1], movements, cut, account, side);
      }
    }
  }

  /** A pair that no row lists has no movements, so its missing sum is zero. */
  lemma GroupingIsFigure(rows: seq<GroupRow>, movements: seq<Movement>, cut: Cut, accounts: seq<string>,
                         account: string, side: Side)
    requires IsGrouping(rows, movements, cut, accounts) && account in accounts
    ensures LastSum(rows, account, side) == Figure(movements, cut, account, side)
  {
    if forall row | row in rows :: row.account != account || row.side != side {
      SumZero(movements, OnAccount(cut, account, side));
    }
    LastSumIsFigure(rows, movements, cut, account, side);
  }

  /** The query, from the two grouped sums the database returns, in the order of the chart. */
  method ComputeTrialBalance(ghost movements: seq<Movement>, ghost organization: string, ghost from: Date, ghost to: Date,
                             accounts: seq<string>, opening: seq<GroupRow>, turnover: seq<GroupRow>)
    returns (rows: seq<Row>)
    requires IsGrouping(opening, movements, Before(organization, from), accounts)
    requires IsGrouping(turnover, movements, Between(organization, from, to), accounts)
    ensures rows == Rows(movements, organization, from, to, accounts)
  {
    var openingMap := GroupToMap(opening);
    var turnoverMap := GroupToMap(turnover);
    rows := [];
    for i := 0 to |accounts|
      invariant |rows| == i
      invariant forall k :: 0 <= k < i ==> rows[k] == RowFor(movements, organization, from, to, accounts[k])
    {
      var o := TotalsAt(openingMap, accounts[i]);
      var t := TotalsAt(turnoverMap, accounts[i]);
      var net := o.debit - o.credit + t.debit - t.credit;
      forall side: Side
        ensures o.Of(side) == Figure(movements, Before(organization, from), accounts[i], side)
        ensures t.Of(side) == Figure(movements, Between(organization, from, to), accounts[i], side)
      {
        GroupingIsFigure(opening, movements, Before(organization, from), accounts, accounts[i], side);
        GroupingIsFigure(turnover, movements, Between(organization, from, to), accounts, accounts[i], side);
      }
      assert o.Of(Debit) == o.debit && o.Of(Credit) == o.credit && t.Of(Debit) == t.debit && t.Of(Credit) == t.credit;
      rows := rows + [Row(accounts[i], o.debit, o.credit, t.debit, t.credit,
                          if net >= 0 then net else 0, if net < 0 then -net else 0)];
    }
  }

  // ----- the totals of a trial balance agree -----

  function ByAccount(movements: seq<Movement>, cut: Cut, side: Side): string -> int {
    account => SumBy(movements, OnAccount(cut, account, side))
  }

  function AtMovement(m: Movement, cut: Cut, side: Side): string -> int {
    account => OnAccount(cut, account, side)(m)
  }

  lemma {:induction false} OneAccountEach(m: Movement, cut: Cut, side: Side, accounts: seq<string>)
    requires Distinct(accounts)
    ensures SumBy(accounts, AtMovement(m, cut, side)) == if m.line.account in accounts then SideOf(cut, side)(m) else 0
  {
    if accounts != [] {
      OneAccountEach(m, cut, side, accounts[1..]);
      assert accounts == [accounts[0]] + accounts[1..];
      AccountTerm(m, cut, accounts[0], side);
    }
  }

  /** Summing over the chart counts every movement on its one account. */
  lemma {:induction false} ChartTotals(movements: seq<Movement>, cut: Cut, side: Side, accounts: seq<string>)
    requires Distinct(accounts)
    requires forall m | m in movements :: m.line.account in accounts
    ensures SumBy(accounts, ByAccount(movements, cut, side)) == SumBy(movements, SideOf(cut, side))
  {
    if movements == [] {
      SumZero(accounts, ByAccount(movements, cut, side));
    } else {
      ChartTotals(movements[1..], cut, side, accounts);
      OneAccountEach(movements[0], cut, side, accounts);
      SumLinear(accounts, AtMovement(movements[0], cut, side), ByAccount(movements[1..], cut, side), 1,
                ByAccount(movements, cut, side));
    }
  }

  /** In a full-chart trial balance of any consistent ledger the opening, turnover and closing
      columns each have equal debit and credit totals, for any from and to. */
  lemma TrialBalanceBalances(ledger: Ledger, organization: string, from: Date, to: Date, accounts: seq<string>)
    requires Consistent(ledger)
    requires Distinct(accounts)
    requires forall m | m in ledger.movements :: m.line.account in accounts
    ensures var rows := Rows(ledger.movements, organization, from, to, accounts);
      && SumBy(rows, (r: Row) => r.openingDebit) == SumBy(rows, (r: Row) => r.openingCredit)
      && SumBy(rows, (r: Row) => r.turnoverDebit) == SumBy(rows, (r: Row) => r.turnoverCredit)
      && SumBy(rows, (r: Row) => r.closingDebit) == SumBy(rows, (r: Row) => r.closingCredit)
  {
    var ms := ledger.movements;
    var rows := Rows(ms, organization, from, to, accounts);
    var opening, turnover := Before(organization, from), Between(organization, from, to);
    CutBalances(ledger, opening);
    CutBalances(ledger, turnover);
    ChartTotals(ms, opening, Debit, accounts);
    ChartTotals(ms, opening, Credit, accounts);
    ChartTotals(ms, turnover, Debit, accounts);
    ChartTotals(ms, turnover, Credit, accounts);
    var od, oc, td, tc := (r: Row) => r.openingDebit, (r: Row) => r.openingCredit,
                          (r: Row) => r.turnoverDebit, (r: Row) => r.turnoverCredit;
    SumMatching(rows, accounts, od, ByAccount(ms, opening, Debit));
    SumMatching(rows, accounts, oc, ByAccount(ms, opening, Credit));
    SumMatching(rows, accounts, td, ByAccount(ms, turnover, Debit));
    SumMatching(rows, accounts, tc, ByAccount(ms, turnover, Credit));
    // closing debit minus closing credit is the net of the four other columns
    var o, t, net, cd, cc := (r: Row) => r.openingDebit - r.openingCredit, (r: Row) => r.turnoverDebit - r.turnoverCredit,
                             (r: Row) => r.closingDebit - r.closingCredit,
                             (r: Row) => r.closingDebit, (r: Row) => r.closingCredit;
    SumLinear(rows, od, oc, -1, o);
    SumLinear(rows, td, tc, -1, t);
    SumLinear(rows, o, t, 1, net);
    SumLinear(rows, cd, cc, -1, net);
  }

  // ----- the chart always covers the register -----

  ghost predicate OnChart(movements: seq<Movement>, accounts: seq<string>) {
    forall m | m in movements :: m.line.account in accounts
  }

  lemma {:induction false} CheckedAccounts(env: Env, lines: seq<Line>, date: Date)
    requires CheckLines(env, lines, date).None?
    ensures forall line | line in lines :: line.account in env.accounts
  {
    if lines != [] {
      CheckedAccounts(env, lines[1..], date);
    }
  }

  /** A posted line names an account of the chart; a reversal looks none up but repeats the original's. */
  lemma StepStaysOnChart(ledger: Ledger, env: Env, command: Command, accounts: seq<string>)
    requires Consistent(ledger) && OnChart(ledger.movements, accounts)
    requires forall account | account in env.accounts :: account in accounts
    ensures OnChart(Step(ledger, env, command).movements, accounts)
  {
    var next := Step(ledger, env, command);
    if Execute(ledger, env, command).Success? {
      match command
      case PostDraftCommand(id, _) =>
        CheckedAccounts(env, ledger.entries[id].lines, ledger.entries[id].businessDate);
      case PostBatchCommand(_, date, _, inputs) =>
        CheckedAccounts(env, WriteLines(env, inputs, false).value, date);
      case ReverseCommand(id, _, _) =>
        var lines := ledger.entries[id].lines;
        assert EntryConsistent(ledger, id);
        WrittenLines(env, FlipLines(lines), true);
        forall k | 0 <= k < |lines| ensures lines[k].account in accounts {
          assert MovementsFor(id, ledger.entries[id])[k] in Filter(ledger.movements, OfEntry(id));
        }
      case _ =>
    }
  }

  lemma {:induction false} RunStaysOnChart(ledger: Ledger, steps: seq<(Env, Command)>, accounts: seq<string>)
    requires Consistent(ledger) && OnChart(ledger.movements, accounts)
    requires forall i, account | 0 <= i < |steps| && account in steps[i].0.accounts :: account in accounts
    ensures OnChart(Run(ledger, steps).movements, accounts)
    decreases |steps|
  {
    if steps != [] {
      StepKeeps(ledger, steps[0].0, steps[0].1);
      StepStaysOnChart(ledger, steps[0].0, steps[0].1, accounts);
      RunStaysOnChart(Step(ledger, steps[0].0, steps[0].1), steps[1..], accounts);
    }
  }

  /** After any run from the empty ledger, a trial balance over a chart that holds every account ever
      known balances in all three column pairs. */
  lemma TrialBalanceAfterAnyRun(steps: seq<(Env, Command)>, organization: string, from: Date, to: Date, accounts: seq<string>)
    requires Distinct(accounts)
    requires forall i, account | 0 <= i < |steps| && account in steps[i].0.accounts :: account in accounts
    ensures var rows := Rows(Run(EMPTY, steps).movements, organization, from, to, accounts);
      && SumBy(rows, (r: Row) => r.openingDebit) == SumBy(rows, (r: Row) => r.openingCredit)
      && SumBy(rows, (r: Row) => r.turnoverDebit) == SumBy(rows, (r: Row) => r.turnoverCredit)
      && SumBy(rows, (r: Row) => r.closingDebit) == SumBy(rows, (r: Row) => r.closingCredit)
  {
    RunKeeps(EMPTY, steps);
    RunStaysOnChart(EMPTY, steps, accounts);
    TrialBalanceBalances(Run(EMPTY, steps), organization, from, to, accounts);
  }
}
