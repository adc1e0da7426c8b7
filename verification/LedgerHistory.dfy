// What runs of the posting engine never change: closed dates, reversed entries, spent versions;
// and what chains of reversals leave on the books.
module LedgerHistory {
  import opened Wrappers
  import opened Seqs
  import opened Ledger
  import opened LedgerInvariant
  import opened TrialBalance

  // ----- closed dates -----

  ghost predicate ClosedThroughout(steps: seq<(Env, Command)>, cut: Cut) {
    forall i, organization, date | 0 <= i < |steps| && cut(organization, date) :: !steps[i].0.open(organization, date)
  }

  lemma AppendOutside(movements: seq<Movement>, id: EntryId, entry: Entry, cut: Cut)
    requires !cut(entry.organization, entry.businessDate)
    ensures Filter(movements + MovementsFor(id, entry), InCut(cut)) == Filter(movements, InCut(cut))
  {
    FilterAppend(movements, MovementsFor(id, entry), InCut(cut));
    FilterNone(MovementsFor(id, entry), InCut(cut));
  }

  /** Movements of one entry all carry the entry's own organization and date. */
  lemma MovementsAreDated(ledger: Ledger, m: Movement)
    requires Consistent(ledger) && m in ledger.movements
    ensures m.entry in ledger.entries
    ensures m in MovementsFor(m.entry, ledger.entries[m.entry])
    ensures m.organization == ledger.entries[m.entry].organization
    ensures m.businessDate == ledger.entries[m.entry].businessDate
  {
    assert EntryConsistent(ledger, m.entry);
    assert m in Filter(ledger.movements, OfEntry(m.entry));
  }

  lemma RemoveOutside(ledger: Ledger, id: EntryId, cut: Cut)
    requires Consistent(ledger) && id in ledger.entries
    requires !cut(ledger.entries[id].organization, ledger.entries[id].businessDate)
    ensures Filter(Filter(ledger.movements, Except(OfEntry(id))), InCut(cut)) == Filter(ledger.movements, InCut(cut))
  {
    forall m | m in ledger.movements && InCut(cut)(m) ensures Except(OfEntry(id))(m) {
      MovementsAreDated(ledger, m);
    }
    FilterWithin(ledger.movements, Except(OfEntry(id)), InCut(cut));
  }

  /** No command adds, removes or changes a movement on a closed date. */
  lemma StepKeepsClosed(ledger: Ledger, env: Env, command: Command, cut: Cut)
    requires Consistent(ledger)
    requires forall organization, date | cut(organization, date) :: !env.open(organization, date)
    ensures Filter(Step(ledger, env, command).movements, InCut(cut)) == Filter(ledger.movements, InCut(cut))
  {
    var next := Step(ledger, env, command);
    if Execute(ledger, env, command).Success? {
      match command
      case PostDraftCommand(id, _) => AppendOutside(ledger.movements, id, next.entries[id], cut);
      case UnpostCommand(id, _) => RemoveOutside(ledger, id, cut);
      case ReverseCommand(id, _, _) =>
        IdsAreOld(ledger);
        AppendOutside(ledger.movements, ledger.nextId, next.entries[ledger.nextId], cut);
      case PostBatchCommand(_, _, _, _) => AppendOutside(ledger.movements, ledger.nextId, next.entries[ledger.nextId], cut);
      case _ =>
    }
  }

  /** While a set of dates stays closed, the register on those dates is frozen, row for row. */
  lemma {:induction false} RunKeepsClosed(ledger: Ledger, steps: seq<(Env, Command)>, cut: Cut)
    requires Consistent(ledger)
    requires ClosedThroughout(steps, cut)
    ensures Filter(Run(ledger, steps).movements, InCut(cut)) == Filter(ledger.movements, InCut(cut))
    decreases |steps|
  {
    if steps != [] {
      StepKeeps(ledger, steps[0].0, steps[0].1);
      StepKeepsClosed(ledger, steps[0].0, steps[0].1, cut);
      RunKeepsClosed(Step(ledger, steps[0].0, steps[0].1), steps[1..], cut);
    }
  }

  lemma FigureWithin(movements: seq<Movement>, part: Cut, whole: Cut, account: string, side: Side)
    requires forall o, d | part(o, d) :: whole(o, d)
    ensures Figure(movements, part, account, side) == Figure(Filter(movements, InCut(whole)), part, account, side)
  {
    forall m | m in movements && !InCut(whole)(m) ensures OnAccount(part, account, side)(m) == 0 {
      assert part(m.organization, m.businessDate) ==> whole(m.organization, m.businessDate);
    }
    SumOverFilter(movements, InCut(whole), OnAccount(part, account, side));
  }

  lemma SameFigure(before: seq<Movement>, after: seq<Movement>, part: Cut, whole: Cut, account: string, side: Side)
    requires forall o, d | part(o, d) :: whole(o, d)
    requires Filter(after, InCut(whole)) == Filter(before, InCut(whole))
    ensures Figure(after, part, account, side) == Figure(before, part, account, side)
  {
    FigureWithin(after, part, whole, account, side);
    FigureWithin(before, part, whole, account, side);
  }

  lemma SameRow(before: seq<Movement>, after: seq<Movement>, organization: string, from: Date, to: Date, account: string)
    requires from <= to
    requires Filter(after, InCut(Through(organization, to))) == Filter(before, InCut(Through(organization, to)))
    ensures RowFor(after, organization, from, to, account) == RowFor(before, organization, from, to, account)
  {
    SameFigure(before, after, Before(organization, from), Through(organization, to), account, Debit);
    SameFigure(before, after, Before(organization, from), Through(organization, to), account, Credit);
    SameFigure(before, after, Between(organization, from, to), Through(organization, to), account, Debit);
    SameFigure(before, after, Between(organization, from, to), Through(organization, to), account, Credit);
  }

  /** A trial balance whose whole past is closed shows the same figures at the end of any run,
      even when one of its entries was reversed into an open date in between. */
  lemma ClosedTrialBalanceIsConstant(ledger: Ledger, steps: seq<(Env, Command)>, organization: string,
                                     from: Date, to: Date, accounts: seq<string>)
    requires Consistent(ledger)
    requires from <= to
    requires ClosedThroughout(steps, Through(organization, to))
    ensures Rows(Run(ledger, steps).movements, organization, from, to, accounts)
         == Rows(ledger.movements, organization, from, to, accounts)
  {
    var before, after := ledger.movements, Run(ledger, steps).movements;
    RunKeepsClosed(ledger, steps, Through(organization, to));
    forall i | 0 <= i < |accounts|
      ensures RowFor(after, organization, from, to, accounts[i]) == RowFor(before, organization, from, to, accounts[i])
    {
      SameRow(before, after, organization, from, to, accounts[i]);
    }
  }

  // ----- reversed entries -----

  lemma StepKeepsReversed(ledger: Ledger, env: Env, command: Command, id: EntryId)
    requires Consistent(ledger)
    requires id in ledger.entries && ledger.entries[id].status.Reversed?
    ensures var next := Step(ledger, env, command);
      && id in next.entries && next.entries[id] == ledger.entries[id]
      && Filter(next.movements, OfEntry(id)) == Filter(ledger.movements, OfEntry(id))
  {
    var next := Step(ledger, env, command);
    IdsAreOld(ledger);
    StepKeeps(ledger, env, command);
    assert EntryConsistent(ledger, id);
    assert next.entries[id] == ledger.entries[id];
    assert EntryConsistent(next, id);
  }

  /** REVERSED is final: the entry, its lines and its movements stay as they are in every run. */
  lemma {:induction false} RunKeepsReversed(ledger: Ledger, steps: seq<(Env, Command)>, id: EntryId)
    requires Consistent(ledger)
    requires id in ledger.entries && ledger.entries[id].status.Reversed?
    ensures var next := Run(ledger, steps);
      && id in next.entries && next.entries[id] == ledger.entries[id]
      && Filter(next.movements, OfEntry(id)) == Filter(ledger.movements, OfEntry(id))
    decreases |steps|
  {
    if steps != [] {
      StepKeeps(ledger, steps[0].0, steps[0].1);
      StepKeepsReversed(ledger, steps[0].0, steps[0].1, id);
      RunKeepsReversed(Step(ledger, steps[0].0, steps[0].1), steps[1..], id);
    }
  }

  /** Unposting a reversal does not undo it: the register is back to what it was, yet the original
      stays REVERSED, so no later run can unpost it or reverse it again. */
  lemma UnpostedReversalStrandsOriginal(ledger: Ledger, env: Env, id: EntryId, version: nat, date: Option<Date>,
                                        laterEnv: Env, laterVersion: nat, steps: seq<(Env, Command)>)
    requires Consistent(ledger)
    requires Reverse(ledger, env, id, version, date).Success?
    requires var reversed := Reverse(ledger, env, id, version, date).value;
      Unpost(reversed.0, laterEnv, reversed.1, laterVersion).Success?
    ensures var reversed := Reverse(ledger, env, id, version, date).value;
      var undone := Unpost(reversed.0, laterEnv, reversed.1, laterVersion).value.0;
      && undone.movements == ledger.movements
      && id in Run(undone, steps).entries && Run(undone, steps).entries[id].status.Reversed?
      && Filter(Run(undone, steps).movements, OfEntry(id)) == MovementsFor(id, ledger.entries[id])
  {
    var reversed := Reverse(ledger, env, id, version, date).value;
    var undone := Unpost(reversed.0, laterEnv, reversed.1, laterVersion).value.0;
    var reversalId := reversed.1;
    var added := MovementsFor(reversalId, reversed.0.entries[reversalId]);
    IdsAreOld(ledger);
    FilterAppend(ledger.movements, added, Except(OfEntry(reversalId)));
    FilterNone(added, Except(OfEntry(reversalId)));
    FilterAll(ledger.movements, Except(OfEntry(reversalId)));
    assert EntryConsistent(ledger, id);
    ReverseKeeps(ledger, env, id, version, date);
    UnpostKeeps(reversed.0, laterEnv, reversalId, laterVersion);
    RunKeepsReversed(undone, steps, id);
  }

  // ----- expected versions -----

  /** The version of an entry is past the given one, or the entry is gone for good. */
  ghost predicate Spent(ledger: Ledger, id: EntryId, version: nat) {
    id < ledger.nextId && (id in ledger.entries ==> ledger.entries[id].version > version)
  }

  lemma {:induction false} SpentStaysSpent(ledger: Ledger, steps: seq<(Env, Command)>, id: EntryId, version: nat)
    requires Spent(ledger, id, version)
    ensures Spent(Run(ledger, steps), id, version)
    decreases |steps|
  {
    if steps != [] {
      SpentStaysSpent(Step(ledger, steps[0].0, steps[0].1), steps[1..], id, version);
    }
  }

  ghost predicate Addresses(command: Command, id: EntryId, version: nat) {
    match command
    case PostDraftCommand(i, v) => i == id && v == version
    case UnpostCommand(i, v) => i == id && v == version
    case ReverseCommand(i, v, _) => i == id && v == version
    case _ => false
  }

  /** Optimistic locking over whole runs: once a command on an entry at some version has gone through,
      no post, unpost or reversal of that entry at that version ever goes through again. */
  lemma VersionIsUsedOnce(ledger: Ledger, env: Env, first: Command, steps: seq<(Env, Command)>, laterEnv: Env,
                          later: Command, id: EntryId, version: nat)
    requires Consistent(ledger)
    requires Addresses(first, id, version) && Addresses(later, id, version)
    requires Execute(ledger, env, first).Success?
    ensures var outcome := Execute(Run(Step(ledger, env, first), steps), laterEnv, later);
      outcome == Failure(ConcurrencyConflict) || outcome == Failure(NotFound)
  {
    IdsAreOld(ledger);
    SpentStaysSpent(Step(ledger, env, first), steps, id, version);
  }

  // ----- chains of reversals -----

  ghost predicate Reverses(ledger: Ledger, chain: seq<EntryId>, i: int)
    requires 0 < i < |chain|
  {
    chain[i] in ledger.entries && ledger.entries[chain[i]].reversalOf == Some(chain[i - 1])
  }

  /** Each entry reverses the one before it, and the last one has not been unposted. */
  ghost predicate ReversalChain(ledger: Ledger, chain: seq<EntryId>) {
    && chain != []
    && (forall id | id in chain :: id in ledger.entries)
    && (forall i | 0 < i < |chain| :: Reverses(ledger, chain, i))
    && !ledger.entries[chain[|chain| - 1]].status.Draft?
  }

  /** The net a line leaves on one account and dimension set. */
  ghost function LineNet(account: string, keys: multiset<DimensionKey>): Line -> int {
    (line: Line) => if line.account == account && KeysOf(line) == keys then SignedAmount(line) else 0
  }

  ghost function NetOn(cut: Cut, account: string, keys: multiset<DimensionKey>): Movement -> int {
    (m: Movement) => if cut(m.organization, m.businessDate) then LineNet(account, keys)(m.line) else 0
  }

  function InChain(chain: seq<EntryId>): Movement -> bool {
    (m: Movement) => m.entry in chain
  }

  lemma NegatedNet(a: seq<Line>, b: seq<Line>, account: string, keys: multiset<DimensionKey>)
    requires OppositeLines(a, b)
    ensures SumBy(a, LineNet(account, keys)) == -SumBy(b, LineNet(account, keys))
  {
    var negated := (line: Line) => -LineNet(account, keys)(line);
    forall i | 0 <= i < |a| ensures LineNet(account, keys)(a[i]) == negated(b[i]) {
      assert Opposite(a[i], b[i]);
    }
    SumMatching(a, b, LineNet(account, keys), negated);
    SumLinear(b, (line: Line) => 0, LineNet(account, keys), -1, negated);
    SumZero(b, (line: Line) => 0);
  }

  /** Inside a cut that holds its date, an entry's movements net to what its lines net to. */
  lemma EntryNet(ledger: Ledger, id: EntryId, cut: Cut, account: string, keys: multiset<DimensionKey>)
    requires Consistent(ledger) && id in ledger.entries && !ledger.entries[id].status.Draft?
    requires cut(ledger.entries[id].organization, ledger.entries[id].businessDate)
    ensures SumBy(Filter(ledger.movements, OfEntry(id)), NetOn(cut, account, keys))
         == SumBy(ledger.entries[id].lines, LineNet(account, keys))
  {
    assert EntryConsistent(ledger, id);
    SumMatching(MovementsFor(id, ledger.entries[id]), ledger.entries[id].lines, NetOn(cut, account, keys),
                LineNet(account, keys));
  }

  /** A chain runs forward in time of creation, so no entry occurs twice. */
  lemma {:induction false} ChainAscends(ledger: Ledger, chain: seq<EntryId>, i: nat, j: nat)
    requires Consistent(ledger) && ReversalChain(ledger, chain) && i < j < |chain|
    ensures chain[i] < chain[j]
    decreases j
  {
    assert Reverses(ledger, chain, j) && LinkConsistent(ledger, chain[j]);
    if i < j - 1 {
      ChainAscends(ledger, chain, i, j - 1);
    }
  }

  lemma ChainPrefix(ledger: Ledger, chain: seq<EntryId>)
    requires Consistent(ledger) && ReversalChain(ledger, chain) && |chain| > 1
    ensures ReversalChain(ledger, chain[..|chain| - 1])
    ensures OppositeLines(ledger.entries[chain[|chain| - 1]].lines, ledger.entries[chain[|chain| - 2]].lines)
    ensures chain[|chain| - 1] !in chain[..|chain| - 1]
  {
    var n := |chain| - 1;
    assert Reverses(ledger, chain, n) && LinkConsistent(ledger, chain[n]);
    assert chain[n - 1] in chain;
    forall i | 0 < i < n ensures Reverses(ledger, chain[..n], i) {
      assert Reverses(ledger, chain, i);
    }
    forall i | 0 <= i < n ensures chain[i] != chain[n] {
      ChainAscends(ledger, chain, i, n);
    }
  }

  lemma SplitLast(movements: seq<Movement>, chain: seq<EntryId>, f: Movement -> int)
    requires chain != [] && chain[|chain| - 1] !in chain[..|chain| - 1]
    ensures SumBy(Filter(movements, InChain(chain)), f)
         == SumBy(Filter(movements, InChain(chain[..|chain| - 1])), f) + SumBy(Filter(movements, OfEntry(chain[|chain| - 1])), f)
  {
    var before, last := chain[..|chain| - 1], chain[|chain| - 1];
    var selected := Filter(movements, InChain(chain));
    assert chain == before + [last];
    SumPartition(selected, InChain(before), f);
    FilterWithin(movements, InChain(chain), InChain(before));
    FilterSame(selected, Except(InChain(before)), OfEntry(last));
    FilterWithin(movements, InChain(chain), OfEntry(last));
  }

  ghost function EntryLinesNet(ledger: Ledger, id: EntryId, account: string, keys: multiset<DimensionKey>): int {
    if id in ledger.entries then SumBy(ledger.entries[id].lines, LineNet(account, keys)) else 0
  }

  ghost function Alternating(k: nat, x: int): int {
    if k % 2 == 0 then x else -x
  }

  lemma ReversalNet(ledger: Ledger, chain: seq<EntryId>, k: nat, account: string, keys: multiset<DimensionKey>)
    requires Consistent(ledger) && ReversalChain(ledger, chain) && 0 < k < |chain|
    ensures EntryLinesNet(ledger, chain[k], account, keys) == -EntryLinesNet(ledger, chain[k - 1], account, keys)
  {
    assert Reverses(ledger, chain, k) && LinkConsistent(ledger, chain[k]);
    NegatedNet(ledger.entries[chain[k]].lines, ledger.entries[chain[k - 1]].lines, account, keys);
  }

  /** Alternation of the entries themselves: the even ones repeat the first, the odd ones negate it. */
  lemma {:induction false} ChainEntryNet(ledger: Ledger, chain: seq<EntryId>, k: nat, account: string, keys: multiset<DimensionKey>)
    requires Consistent(ledger) && ReversalChain(ledger, chain) && k < |chain|
    ensures EntryLinesNet(ledger, chain[k], account, keys) == Alternating(k, EntryLinesNet(ledger, chain[0], account, keys))
  {
    if k > 0 {
      ChainEntryNet(ledger, chain, k - 1, account, keys);
      ReversalNet(ledger, chain, k, account, keys);
    }
  }

  ghost predicate ChainInside(ledger: Ledger, chain: seq<EntryId>, cut: Cut) {
    forall id | id in chain && id in ledger.entries :: cut(ledger.entries[id].organization, ledger.entries[id].businessDate)
  }

  ghost function ChainNet(ledger: Ledger, chain: seq<EntryId>, cut: Cut, account: string, keys: multiset<DimensionKey>): int {
    SumBy(Filter(ledger.movements, InChain(chain)), NetOn(cut, account, keys))
  }

  lemma ChainStep(ledger: Ledger, chain: seq<EntryId>, cut: Cut, account: string, keys: multiset<DimensionKey>)
    requires Consistent(ledger) && ReversalChain(ledger, chain) && ChainInside(ledger, chain, cut)
    ensures |chain| == 1 ==> ChainNet(ledger, chain, cut, account, keys) == EntryLinesNet(ledger, chain[0], account, keys)
    ensures |chain| > 1 ==>
      && ReversalChain(ledger, chain[..|chain| - 1])
      && ChainNet(ledger, chain, cut, account, keys)
         == ChainNet(ledger, chain[..|chain| - 1], cut, account, keys)
            + Alternating(|chain| - 1, EntryLinesNet(ledger, chain[0], account, keys))
  {
    var n := |chain| - 1;
    EntryNet(ledger, chain[n], cut, account, keys);
    ChainEntryNet(ledger, chain, n, account, keys);
    if n == 0 {
      FilterSame(ledger.movements, InChain(chain), OfEntry(chain[0]));
    } else {
      ChainPrefix(ledger, chain);
      SplitLast(ledger.movements, chain, NetOn(cut, account, keys));
    }
  }

  /** After k successive reversals the books show, on every account and dimension set, the original
      when k is even and nothing when k is odd, on any cut that holds all the dates involved. */
  lemma {:induction false} ReversalsAlternate(ledger: Ledger, chain: seq<EntryId>, cut: Cut, account: string,
                                              keys: multiset<DimensionKey>)
    requires Consistent(ledger) && ReversalChain(ledger, chain) && ChainInside(ledger, chain, cut)
    ensures var k := |chain| - 1;
      ChainNet(ledger, chain, cut, account, keys) == if k % 2 == 0 then EntryLinesNet(ledger, chain[0], account, keys) else 0
    decreases |chain|
  {
    ChainStep(ledger, chain, cut, account, keys);
    if |chain| > 1 {
      ReversalsAlternate(ledger, chain[..|chain| - 1], cut, account, keys);
    }
  }
}
