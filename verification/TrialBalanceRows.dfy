// What the columns of a trial balance mean: what each movement adds to them, and how the closing follows.
module TrialBalanceRows {
  import opened Seqs
  import opened Ledger
  import opened TrialBalance
  import AccountCard

  /** What a movement of amount x adds to a column it belongs in. */
  function Added(belongs: bool, x: int): int {
    if belongs then x else 0
  }

  /** Without movements every column is zero. */
  lemma EmptyRows(organization: string, from: Date, to: Date, accounts: seq<string>, i: nat)
    requires i < |accounts|
    ensures var rows := Rows([], organization, from, to, accounts);
      |rows| == |accounts| && rows[i] == Row(accounts[i], 0, 0, 0, 0, 0, 0)
  {}

  lemma OneMoreInCut(movements: seq<Movement>, m: Movement, cut: Cut, account: string, side: Side)
    ensures Figure(movements + [m], cut, account, side) == Figure(movements, cut, account, side)
      + Added(cut(m.organization, m.businessDate) && m.line.account == account && m.line.side == side, m.line.amount)
  {
    SumAppend(movements, [m], OnAccount(cut, account, side));
    assert [m][1..] == [];
    AccountTerm(m, cut, account, side);
    SideTerm(m, cut, side);
  }

  /** A movement dated before the period raises the opening column of its side, on its account's row, by its amount; one
      dated within the period raises the turnover column; no other of the four columns of any row changes. */
  lemma OneMoreMovement(movements: seq<Movement>, m: Movement, organization: string, from: Date, to: Date,
                        accounts: seq<string>, i: nat)
    requires i < |accounts|
    ensures var before, after := Rows(movements, organization, from, to, accounts), Rows(movements + [m], organization, from, to, accounts);
      var mine := m.organization == organization && m.line.account == accounts[i];
      var early, within := mine && m.businessDate < from, mine && from <= m.businessDate <= to;
      && |before| == |after| == |accounts| && before[i].account == after[i].account == accounts[i]
      && after[i].openingDebit == before[i].openingDebit + Added(early && m.line.side == Debit, m.line.amount)
      && after[i].openingCredit == before[i].openingCredit + Added(early && m.line.side == Credit, m.line.amount)
      && after[i].turnoverDebit == before[i].turnoverDebit + Added(within && m.line.side == Debit, m.line.amount)
      && after[i].turnoverCredit == before[i].turnoverCredit + Added(within && m.line.side == Credit, m.line.amount)
  {
    OneMoreInCut(movements, m, Before(organization, from), accounts[i], Debit);
    OneMoreInCut(movements, m, Before(organization, from), accounts[i], Credit);
    OneMoreInCut(movements, m, Between(organization, from, to), accounts[i], Debit);
    OneMoreInCut(movements, m, Between(organization, from, to), accounts[i], Credit);
  }

  /** The closing shows the net of the other four columns on one side: neither column is negative and one is zero. */
  lemma ClosingShowsNet(movements: seq<Movement>, organization: string, from: Date, to: Date, accounts: seq<string>, i: nat)
    requires i < |accounts|
    ensures var row := Rows(movements, organization, from, to, accounts)[i];
      && row.closingDebit >= 0 && row.closingCredit >= 0 && (row.closingDebit == 0 || row.closingCredit == 0)
      && row.closingDebit - row.closingCredit
         == row.openingDebit - row.openingCredit + row.turnoverDebit - row.turnoverCredit
  {}

  /** The net that an account card shows through a day: debits of the organization's account up to that day less credits. */
  lemma OneMoreOnCard(movements: seq<Movement>, m: Movement, organization: string, date: Date, account: string)
    ensures AccountCard.Net([], Through(organization, date), account) == 0
    ensures var mine := m.organization == organization && m.line.account == account && m.businessDate <= date;
      AccountCard.Net(movements + [m], Through(organization, date), account)
        == AccountCard.Net(movements, Through(organization, date), account)
           + Added(mine && m.line.side == Debit, m.line.amount) - Added(mine && m.line.side == Credit, m.line.amount)
  {
    OneMoreInCut(movements, m, Through(organization, date), account, Debit);
    OneMoreInCut(movements, m, Through(organization, date), account, Credit);
  }
}
