// The account card: the movements of one account in date order with a running balance.
module AccountCard {
  import opened Seqs
  import opened Ledger
  import opened TrialBalance

  /** Debits minus credits of an account within a cut. */
  ghost function Net(movements: seq<Movement>, cut: Cut, account: string): int {
    Figure(movements, cut, account, Debit) - Figure(movements, cut, account, Credit)
  }

  function NetTerm(cut: Cut, account: string): Movement -> int {
    (m: Movement) => OnAccount(cut, account, Debit)(m) - OnAccount(cut, account, Credit)(m)
  }

  function OnCard(cut: Cut, account: string): Movement -> bool {
    (m: Movement) => cut(m.organization, m.businessDate) && m.line.account == account
  }

  function SignOf(): Movement -> int {
    (m: Movement) => SignedAmount(m.line)
  }

  function NoLaterThan(date: Date): Movement -> bool {
    (m: Movement) => m.businessDate <= date
  }

  /** What the database answers: the rows of the card, in date order. */
  ghost predicate IsListing(listed: seq<Movement>, movements: seq<Movement>, organization: string, account: string,
                            from: Date, to: Date) {
    && multiset(listed) == multiset(Filter(movements, OnCard(Between(organization, from, to), account)))
    && forall i, j | 0 <= i < j < |listed| :: listed[i].businessDate <= listed[j].businessDate
  }

  lemma CardRow(m: Movement, organization: string, from: Date, to: Date, account: string)
    ensures OnCard(Between(organization, from, to), account)(m)
        <==> m.organization == organization && from <= m.businessDate <= to && m.line.account == account
  {}

  lemma NetIsSum(movements: seq<Movement>, cut: Cut, account: string)
    ensures Net(movements, cut, account) == SumBy(movements, NetTerm(cut, account))
    ensures Net(movements, cut, account) == SumBy(Filter(movements, OnCard(cut, account)), SignOf())
  {
    SumLinear(movements, OnAccount(cut, account, Debit), OnAccount(cut, account, Credit), -1, NetTerm(cut, account));
    forall m: Movement
      ensures NetTerm(cut, account)(m) == if OnCard(cut, account)(m) then SignOf()(m) else 0
    {
      AccountTerm(m, cut, account, Debit);
      AccountTerm(m, cut, account, Credit);
      SideTerm(m, cut, Debit);
      SideTerm(m, cut, Credit);
    }
    SumOverFilter(movements, OnCard(cut, account), NetTerm(cut, account));
    var selected := Filter(movements, OnCard(cut, account));
    SumMatching(selected, selected, NetTerm(cut, account), SignOf());
  }

  /** The past of a date splits at any earlier date. */
  lemma NetSplits(movements: seq<Movement>, organization: string, from: Date, to: Date, account: string)
    requires from <= to + 1
    ensures Net(movements, Through(organization, to), account)
         == Net(movements, Before(organization, from), account) + Net(movements, Between(organization, from, to), account)
  {
    NetIsSum(movements, Through(organization, to), account);
    NetIsSum(movements, Before(organization, from), account);
    NetIsSum(movements, Between(organization, from, to), account);
    SumLinear(movements, NetTerm(Before(organization, from), account), NetTerm(Between(organization, from, to), account), 1,
              NetTerm(Through(organization, to), account));
  }

  lemma {:induction false} SortedPrefix(listed: seq<Movement>, k: nat)
    requires k < |listed|
    requires forall i, j | 0 <= i < j < |listed| :: listed[i].businessDate <= listed[j].businessDate
    requires k + 1 == |listed| || listed[k].businessDate < listed[k + 1].businessDate
    ensures Filter(listed, NoLaterThan(listed[k].businessDate)) == listed[..k + 1]
  {
    var p := NoLaterThan(listed[k].businessDate);
    assert listed == listed[..k + 1] + listed[k + 1..];
    FilterAppend(listed[..k + 1], listed[k + 1..], p);
    FilterAll(listed[..k + 1], p);
    forall m | m in listed[k + 1..] ensures !p(m) {
      var j :| k + 1 <= j < |listed| && listed[j] == m;
      assert listed[k + 1].businessDate <= listed[j].businessDate;
    }
    FilterNone(listed[k + 1..], p);
  }

  function EarlySign(date: Date): Movement -> int {
    (m: Movement) => if m.businessDate <= date then SignedAmount(m.line) else 0
  }

  lemma EarlySignIsSign(rows: seq<Movement>, date: Date)
    requires forall m | m in rows :: m.businessDate <= date
    ensures SumBy(rows, SignOf()) == SumBy(rows, EarlySign(date))
  {
    SumMatching(rows, rows, SignOf(), EarlySign(date));
  }

  lemma EarlyRows(listed: seq<Movement>, card: seq<Movement>, k: nat)
    requires multiset(listed) == multiset(card) && k < |listed|
    requires forall i, j | 0 <= i < j < |listed| :: listed[i].businessDate <= listed[j].businessDate
    requires k + 1 == |listed| || listed[k].businessDate < listed[k + 1].businessDate
    ensures SumBy(listed[..k + 1], SignOf()) == SumBy(card, EarlySign(listed[k].businessDate))
  {
    var date := listed[k].businessDate;
    SortedPrefix(listed, k);
    SumOverFilter(listed, NoLaterThan(date), EarlySign(date));
    EarlySignIsSign(listed[..k + 1], date);
    SumPermuted(listed, card, EarlySign(date));
  }

  lemma EarlyCard(movements: seq<Movement>, organization: string, account: string, from: Date, to: Date, date: Date)
    requires from <= date <= to
    ensures SumBy(Filter(movements, OnCard(Between(organization, from, to), account)), EarlySign(date))
         == Net(movements, Between(organization, from, date), account)
  {
    var days := OnCard(Between(organization, from, date), account);
    var card := Filter(movements, OnCard(Between(organization, from, to), account));
    forall m ensures m in card ==> NoLaterThan(date)(m) == days(m)
             ensures days(m) ==> OnCard(Between(organization, from, to), account)(m) {
      CardRow(m, organization, from, to, account);
      CardRow(m, organization, from, date, account);
    }
    SumOverFilter(card, NoLaterThan(date), EarlySign(date));
    FilterSame(card, NoLaterThan(date), days);
    FilterWithin(movements, OnCard(Between(organization, from, to), account), days);
    SumMatching(Filter(movements, days), Filter(movements, days), EarlySign(date), SignOf());
    NetIsSum(movements, Between(organization, from, date), account);
  }

  /** The rows listed so far, at the end of a day, are the account's whole movement from `from` to that day. */
  lemma DayEnd(listed: seq<Movement>, movements: seq<Movement>, organization: string, account: string,
               from: Date, to: Date, k: nat)
    requires IsListing(listed, movements, organization, account, from, to) && k < |listed|
    requires k + 1 == |listed| || listed[k].businessDate < listed[k + 1].businessDate
    ensures SumBy(listed[..k + 1], SignOf()) == Net(movements, Between(organization, from, listed[k].businessDate), account)
    ensures from <= listed[k].businessDate <= to
  {
    var card := Filter(movements, OnCard(Between(organization, from, to), account));
    assert listed[k] in multiset(card);
    CardRow(listed[k], organization, from, to, account);
    EarlyRows(listed, card, k);
    EarlyCard(movements, organization, account, from, to, listed[k].businessDate);
  }

  lemma CardTotal(listed: seq<Movement>, movements: seq<Movement>, organization: string, account: string, from: Date, to: Date)
    requires IsListing(listed, movements, organization, account, from, to)
    ensures SumBy(listed, SignOf()) == Net(movements, Between(organization, from, to), account)
  {
    SumPermuted(listed, Filter(movements, OnCard(Between(organization, from, to), account)), SignOf());
    NetIsSum(movements, Between(organization, from, to), account);
  }

  /** Whatever order the rows of one day come in, the balance shown at the end of each day is the account's
      true balance through that day, and the closing balance is the trial balance's. */
  method ComputeAccountCard(ghost movements: seq<Movement>, ghost organization: string, ghost account: string,
                            ghost from: Date, ghost to: Date,
                            openingDebit: int, openingCredit: int, listed: seq<Movement>)
    returns (openingBalance: int, runningBalances: seq<int>, closingBalance: int)
    requires openingDebit == Figure(movements, Before(organization, from), account, Debit)
    requires openingCredit == Figure(movements, Before(organization, from), account, Credit)
    requires IsListing(listed, movements, organization, account, from, to)
    ensures openingBalance == Net(movements, Before(organization, from), account)
    ensures |runningBalances| == |listed|
    ensures forall k | 0 <= k < |listed| && (k + 1 == |listed| || listed[k].businessDate < listed[k + 1].businessDate) ::
      runningBalances[k] == Net(movements, Through(organization, listed[k].businessDate), account)
    ensures var row := RowFor(movements, organization, from, to, account);
      closingBalance == row.closingDebit - row.closingCredit
  {
    openingBalance := openingDebit - openingCredit;
    var running := openingBalance;
    runningBalances := [];
    for i := 0 to |listed|
      invariant running == openingBalance + SumBy(listed[..i], SignOf())
      invariant |runningBalances| == i
      invariant forall k | 0 <= k < i :: runningBalances[k] == openingBalance + SumBy(listed[..k + 1], SignOf())
    {
      assert listed[..i + 1] == listed[..i] + [listed[i]];
      SumAppend(listed[..i], [listed[i]], SignOf());
      running := if listed[i].line.side == Debit then running + listed[i].line.amount else running - listed[i].line.amount;
      runningBalances := runningBalances + [running];
    }
    closingBalance := running;
    assert listed[..|listed|] == listed;
    CardTotal(listed, movements, organization, account, from, to);
    forall k | 0 <= k < |listed| && (k + 1 == |listed| || listed[k].businessDate < listed[k + 1].businessDate)
      ensures runningBalances[k] == Net(movements, Through(organization, listed[k].businessDate), account)
    {
      DayEnd(listed, movements, organization, account, from, to, k);
      NetSplits(movements, organization, from, listed[k].businessDate, account);
    }
  }
}
