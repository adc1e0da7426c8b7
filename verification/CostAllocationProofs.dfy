// What an allocation run amounts to, and exactly when it can be posted.
module CostAllocationProofs {
  import opened Wrappers
  import opened Seqs
  import opened Rounding
  import opened Ledger
  import opened CostAllocation
  import LedgerInvariant

  function LineAmount(): RunLine -> int {
    (line: RunLine) => line.amount
  }

  // ----- weights -----

  /** The driver table keeps one value per cost center. */
  ghost predicate OneValueEach(rows: seq<DriverValue>) {
    forall i, j | 0 <= i < j < |rows| :: rows[i].costCenter != rows[j].costCenter
  }

  function ForCenter(costCenter: string): DriverValue -> bool {
    (row: DriverValue) => row.costCenter == costCenter
  }

  lemma {:induction false} ValueIsSum(rows: seq<DriverValue>, costCenter: string)
    requires OneValueEach(rows)
    ensures SumBy(Filter(rows, ForCenter(costCenter)), ValueOf()) == FindValue(rows, costCenter)
  {
    if rows != [] {
      if rows[0].costCenter == costCenter {
        FilterNone(rows[1..], ForCenter(costCenter));
      } else {
        ValueIsSum(rows[1..], costCenter);
      }
    }
  }

  lemma {:induction false} FindValueElsewhere(rows: seq<DriverValue>, gone: string, costCenter: string)
    requires gone != costCenter
    ensures FindValue(Filter(rows, Except(ForCenter(gone))), costCenter) == FindValue(rows, costCenter)
  {
    if rows != [] {
      FindValueElsewhere(rows[1..], gone, costCenter);
    }
  }

  lemma {:induction false} FilterKeepsOneEach(rows: seq<DriverValue>, p: DriverValue -> bool)
    requires OneValueEach(rows)
    ensures OneValueEach(Filter(rows, p))
  {
    if rows != [] {
      FilterKeepsOneEach(rows[1..], p);
      var rest := Filter(rows[1..], p);
      forall j | 0 <= j < |rest| ensures rest[j].costCenter != rows[0].costCenter {
        assert rest[j] in rows[1..];
      }
    }
  }

  lemma FirstWeight(rows: seq<DriverValue>, targets: seq<string>)
    requires targets != [] && Distinct(targets)
    ensures DriverWeights(rows, targets)
         == [FindValue(rows, targets[0])] + DriverWeights(Filter(rows, Except(ForCenter(targets[0]))), targets[1..])
  {
    forall i | 1 <= i < |targets|
      ensures FindValue(Filter(rows, Except(ForCenter(targets[0]))), targets[i]) == FindValue(rows, targets[i])
    {
      FindValueElsewhere(rows, targets[0], targets[i]);
    }
  }

  /** With distinct targets every value in force is some target's weight, once. */
  lemma {:induction false} DriverWeightsAddUp(rows: seq<DriverValue>, targets: seq<string>)
    requires OneValueEach(rows) && Distinct(targets) && forall row | row in rows :: row.costCenter in targets
    ensures Total(DriverWeights(rows, targets)) == SumBy(rows, ValueOf())
    decreases |targets|
  {
    if targets != [] {
      var others := Filter(rows, Except(ForCenter(targets[0])));
      SumPartition(rows, ForCenter(targets[0]), ValueOf());
      ValueIsSum(rows, targets[0]);
      FilterKeepsOneEach(rows, Except(ForCenter(targets[0])));
      DriverWeightsAddUp(others, targets[1..]);
      FirstWeight(rows, targets);
    } else {
      assert rows != [] ==> rows[0] in rows;
    }
  }

  /** The weights are fractions of one whole. Distinct targets matter only to the driver-based rule. */
  lemma WeightsMakeWhole(rule: Rule, values: seq<DriverValue>, period: Date)
    requires WeightsOf(rule, values, period).Success? && rule.targets != []
    requires rule.direct || (Distinct(rule.targets) && OneValueEach(Filter(values, InForce(rule, period))))
    ensures var weights := WeightsOf(rule, values, period).value; Total(weights.parts) == weights.whole
  {
    if rule.direct {
      OnesAddUp(WeightsOf(rule, values, period).value.parts);
    } else {
      DriverWeightsAddUp(Filter(values, InForce(rule, period)), rule.targets);
    }
  }

  // ----- lines -----

  ghost predicate IsRun(run: AllocationRun, rule: Rule, sourceAmount: int, weights: Weights, preview: bool) {
    weights.whole > 0 && |weights.parts| == |rule.targets| && run == RunOf(rule, sourceAmount, weights, preview)
  }

  lemma LinesAreShares(run: AllocationRun, rule: Rule, sourceAmount: int, weights: Weights, preview: bool)
    requires IsRun(run, rule, sourceAmount, weights, preview)
    ensures SumBy(run.lines, LineAmount()) == run.allocatedAmount
  {
    SumMatching(run.lines, Split(sourceAmount, weights.parts, weights.whole), LineAmount(), Itself());
  }

  /** Everything is allocated, to the cent, exactly when there is a target to allocate to or nothing to allocate. */
  lemma NothingRemainsIff(run: AllocationRun, rule: Rule, sourceAmount: int, weights: Weights, preview: bool)
    requires IsRun(run, rule, sourceAmount, weights, preview)
    ensures run.allocatedAmount + run.residual == sourceAmount == SumBy(run.lines, LineAmount()) + run.residual
    ensures run.residual == 0 <==> rule.targets != [] || sourceAmount == 0
  {
    LinesAreShares(run, rule, sourceAmount, weights, preview);
    if rule.targets != [] {
      SplitSums(sourceAmount, weights.parts, weights.whole);
    }
  }

  /** One line per target, in order; every line before the last within half a cent of its weight's worth, and
      the last within (n - 1) / 2 cents of its own when the weights make up one whole. */
  lemma LinesNear(run: AllocationRun, rule: Rule, sourceAmount: int, weights: Weights, preview: bool, i: nat)
    requires IsRun(run, rule, sourceAmount, weights, preview) && i < |rule.targets|
    ensures |run.lines| == |rule.targets| && run.lines[i].target == rule.targets[i]
    ensures var whole, drift := weights.whole, Drift(sourceAmount, weights.parts[i], weights.whole, run.lines[i].amount);
      && (i + 1 < |rule.targets| ==> -whole <= drift <= whole)
      && (i + 1 == |rule.targets| && Total(weights.parts) == whole ==> -(i * whole) <= drift <= i * whole)
  {
    SplitSums(sourceAmount, weights.parts, weights.whole);
    if i + 1 < |rule.targets| {
      SplitNear(sourceAmount, weights.parts, weights.whole, i);
    } else if Total(weights.parts) == weights.whole {
      SplitLast(sourceAmount, weights.parts, weights.whole);
    }
  }

  // ----- the batch -----

  function InputOnSide(side: Side): LineInput -> int {
    (line: LineInput) => if line.side == side then line.amount else 0
  }

  ghost predicate NoNegativeLine(run: AllocationRun) {
    forall line | line in run.lines :: line.amount >= 0
  }

  function LedgerUnits(): RunLine -> int {
    (line: RunLine) => 100 * line.amount
  }

  lemma DebitsOf(lines: seq<RunLine>, account: string)
    ensures SumBy(DebitLines(lines, account), InputOnSide(Debit)) == 100 * SumBy(lines, LineAmount())
    ensures SumBy(DebitLines(lines, account), InputOnSide(Credit)) == 0
  {
    SumMatching(DebitLines(lines, account), lines, InputOnSide(Debit), LedgerUnits());
    SumLinear(lines, Zero(), LineAmount(), 100, LedgerUnits());
    SumZero(lines, Zero());
    SumZero(DebitLines(lines, account), InputOnSide(Credit));
  }

  function Zero(): RunLine -> int {
    (line: RunLine) => 0
  }

  /** Dropping what is not positive raises the total, unless there was nothing negative to drop. */
  lemma {:induction false} PositivesExceed(lines: seq<RunLine>)
    ensures SumBy(Filter(lines, PositiveLine()), LineAmount()) >= SumBy(lines, LineAmount())
    ensures SumBy(Filter(lines, PositiveLine()), LineAmount()) == SumBy(lines, LineAmount())
       <==> forall line | line in lines :: line.amount >= 0
  {
    if lines != [] {
      PositivesExceed(lines[1..]);
      assert lines == [lines[0]] + lines[1..];
    }
  }

  /** The batch's debits equal its credit exactly when no line is negative. */
  lemma BatchBalancedIff(run: AllocationRun, rule: Rule, sourceAmount: int, weights: Weights, preview: bool,
                         expense: string, clearing: string)
    requires IsRun(run, rule, sourceAmount, weights, preview)
    ensures var batch := BatchOf(run, expense, clearing);
      SumBy(batch, InputOnSide(Debit)) == SumBy(batch, InputOnSide(Credit)) <==> NoNegativeLine(run)
  {
    var charged := Filter(run.lines, PositiveLine());
    var credit := LedgerLine(clearing, Credit, run.allocatedAmount, rule.sourceCostCenter);
    SumAppend(DebitLines(charged, expense), [credit], InputOnSide(Debit));
    SumAppend(DebitLines(charged, expense), [credit], InputOnSide(Credit));
    DebitsOf(charged, expense);
    PositivesExceed(run.lines);
    LinesAreShares(run, rule, sourceAmount, weights, preview);
  }

  /** What a batch puts on one account and cost center, on one side. */
  function Charged(account: string, side: Side, costCenter: string): LineInput -> int {
    (line: LineInput) =>
      if line.account == account && line.side == side && line.dimensions == [DimensionInput("COST_CENTER", costCenter, None)]
      then line.amount else 0
  }

  function ForTarget(costCenter: string): RunLine -> int {
    (line: RunLine) => if line.target == costCenter then line.amount else 0
  }

  function LedgerUnitsFor(costCenter: string): RunLine -> int {
    (line: RunLine) => if line.target == costCenter then 100 * line.amount else 0
  }

  lemma DebitsFor(lines: seq<RunLine>, expense: string, costCenter: string)
    ensures SumBy(DebitLines(lines, expense), Charged(expense, Debit, costCenter)) == 100 * SumBy(lines, ForTarget(costCenter))
  {
    SumMatching(DebitLines(lines, expense), lines, Charged(expense, Debit, costCenter), LedgerUnitsFor(costCenter));
    SumLinear(lines, Zero(), ForTarget(costCenter), 100, LedgerUnitsFor(costCenter));
    SumZero(lines, Zero());
  }

  /** A run without negative lines charges every cost center with what was allocated to it, and credits the source
      with all of it, so that expense moves between cost centers and none is made or lost. */
  lemma ExpenseOnlyMoves(run: AllocationRun, expense: string, clearing: string, costCenter: string)
    requires NoNegativeLine(run)
    ensures var batch := BatchOf(run, expense, clearing);
      && SumBy(batch, Charged(expense, Debit, costCenter)) == 100 * SumBy(run.lines, ForTarget(costCenter))
      && SumBy(batch, Charged(clearing, Credit, costCenter))
         == (if costCenter == run.rule.sourceCostCenter then 100 * run.allocatedAmount else 0)
  {
    var charged := Filter(run.lines, PositiveLine());
    var credit := LedgerLine(clearing, Credit, run.allocatedAmount, run.rule.sourceCostCenter);
    SumAppend(DebitLines(charged, expense), [credit], Charged(expense, Debit, costCenter));
    SumAppend(DebitLines(charged, expense), [credit], Charged(clearing, Credit, costCenter));
    DebitsFor(charged, expense, costCenter);
    SumZero(DebitLines(charged, expense), Charged(clearing, Credit, costCenter));
    SumOverFilter(run.lines, PositiveLine(), ForTarget(costCenter));
    assert [credit][1..] == [];
    assert credit.dimensions == [DimensionInput("COST_CENTER", costCenter, None)] <==> costCenter == run.rule.sourceCostCenter by {
      assert credit.dimensions[0].reference == run.rule.sourceCostCenter;
    }
  }

  // ----- posting -----

  ghost predicate Postable(env: Env, account: string, date: Date, definition: string) {
    && account in env.accounts && env.accounts[account].active && env.accounts[account].postingAllowed
    && forall rule | rule in env.rules :: RuleApplies(rule, account, date) ==> rule.definition == definition
  }

  /** Nothing but the amounts can stand in the way: the period is open, the run not yet posted, the accounts take
      postings, and the cost center is the only dimension they may require. */
  ghost predicate Ready(ledger: Ledger, env: Env, organization: string, date: Date, source: SourceKey, expense: string, clearing: string) {
    && !HasPosted(ledger, source) && env.open(organization, date)
    && var costCenter := FindDefinition(env.definitions, "COST_CENTER", false);
       costCenter.Some? && Postable(env, expense, date, costCenter.value.id) && Postable(env, clearing, date, costCenter.value.id)
  }

  ghost predicate CostCenterLine(line: LineInput) {
    exists account, side, cents, costCenter :: line == LedgerLine(account, side, cents, costCenter)
  }

  lemma OneDimension(env: Env, line: LineInput)
    requires CostCenterLine(line) && FindDefinition(env.definitions, "COST_CENTER", false).Some?
    ensures WriteLine(env, line, false).Success?
    ensures CarriesDimension(WriteLine(env, line, false).value, FindDefinition(env.definitions, "COST_CENTER", false).value.id)
  {
    assert line.dimensions[1..] == [];
    assert WriteDimensions(env, line.dimensions[1..], false) == Success([]);
    var written := WriteDimensions(env, line.dimensions, false).value;
    assert written[0] in written;
  }

  lemma {:induction false} LinesAreWritten(env: Env, inputs: seq<LineInput>)
    requires FindDefinition(env.definitions, "COST_CENTER", false).Some?
    requires forall line | line in inputs :: CostCenterLine(line)
    ensures WriteLines(env, inputs, false).Success?
  {
    if inputs != [] {
      OneDimension(env, inputs[0]);
      LinesAreWritten(env, inputs[1..]);
    }
  }

  lemma {:induction false} LinesPass(env: Env, lines: seq<Line>, date: Date)
    requires forall line | line in lines :: CheckLine(env, line, date).None?
    ensures CheckLines(env, lines, date).None?
  {
    if lines != [] {
      LinesPass(env, lines[1..], date);
    }
  }

  lemma BatchLines(run: AllocationRun, expense: string, clearing: string, line: LineInput)
    requires line in BatchOf(run, expense, clearing)
    ensures CostCenterLine(line) && (line.account == expense || line.account == clearing)
    ensures line.amount > 0 || line == LedgerLine(clearing, Credit, run.allocatedAmount, run.rule.sourceCostCenter)
  {
    var charged := Filter(run.lines, PositiveLine());
    var batch := BatchOf(run, expense, clearing);
    var i :| 0 <= i < |batch| && batch[i] == line;
    if i < |charged| {
      assert charged[i] in charged && PositiveLine()(charged[i]);
      assert line == LedgerLine(expense, Debit, charged[i].amount, charged[i].target);
    }
  }

  /** With the ledger ready, every line of the batch passes the account and dimension checks. */
  lemma BatchPasses(env: Env, run: AllocationRun, date: Date, expense: string, clearing: string, definition: string)
    requires FindDefinition(env.definitions, "COST_CENTER", false).Some?
    requires definition == FindDefinition(env.definitions, "COST_CENTER", false).value.id
    requires Postable(env, expense, date, definition) && Postable(env, clearing, date, definition)
    ensures var lines := WriteLines(env, BatchOf(run, expense, clearing), false);
      lines.Success? && CheckLines(env, lines.value, date).None?
  {
    var batch := BatchOf(run, expense, clearing);
    forall line | line in batch ensures CostCenterLine(line) {
      BatchLines(run, expense, clearing, line);
    }
    LinesAreWritten(env, batch);
    LedgerInvariant.WrittenLines(env, batch, false);
    var lines := WriteLines(env, batch, false).value;
    forall line | line in lines ensures CheckLine(env, line, date).None? {
      var i :| 0 <= i < |lines| && lines[i] == line;
      BatchLines(run, expense, clearing, batch[i]);
      OneDimension(env, batch[i]);
      assert Postable(env, line.account, date, definition);
    }
    LinesPass(env, lines, date);
  }

  /** With the ledger ready, a run with targets can be posted exactly when it allocates a positive amount and
      rounding has left no line negative. */
  lemma PostingSucceedsIff(ledger: Ledger, env: Env, organization: string, date: Date, source: SourceKey, run: AllocationRun,
                           rule: Rule, sourceAmount: int, weights: Weights, expense: string, clearing: string)
    requires IsRun(run, rule, sourceAmount, weights, false) && rule.targets != []
    requires Ready(ledger, env, organization, date, source, expense, clearing)
    ensures PostBatch(ledger, env, organization, date, Some(source), BatchOf(run, expense, clearing)).Success?
       <==> sourceAmount > 0 && NoNegativeLine(run)
  {
    var batch := BatchOf(run, expense, clearing);
    BatchPasses(env, run, date, expense, clearing, FindDefinition(env.definitions, "COST_CENTER", false).value.id);
    var lines := WriteLines(env, batch, false).value;
    LedgerInvariant.WrittenLines(env, batch, false);
    SumMatching(lines, batch, OnSide(Debit), InputOnSide(Debit));
    SumMatching(lines, batch, OnSide(Credit), InputOnSide(Credit));
    BatchBalancedIff(run, rule, sourceAmount, weights, false, expense, clearing);
    NothingRemainsIff(run, rule, sourceAmount, weights, false);
    var credit := LedgerLine(clearing, Credit, run.allocatedAmount, rule.sourceCostCenter);
    assert batch[|batch| - 1] == credit && credit in batch;
    forall line | line in batch ensures sourceAmount > 0 ==> line.amount > 0 {
      BatchLines(run, expense, clearing, line);
    }
  }

  /** No line is negative when no weight is and the last target is due at least (n - 1) / 2 cents. */
  lemma EnoughForTheLast(run: AllocationRun, rule: Rule, sourceAmount: int, weights: Weights, preview: bool)
    requires IsRun(run, rule, sourceAmount, weights, preview) && rule.targets != [] && sourceAmount >= 0
    requires Total(weights.parts) == weights.whole && forall i | 0 <= i < |weights.parts| :: weights.parts[i] >= 0
    requires 2 * (sourceAmount * weights.parts[|weights.parts| - 1]) >= (|weights.parts| - 1) * weights.whole
    ensures NoNegativeLine(run)
  {
    forall line | line in run.lines ensures line.amount >= 0 {
      var i :| 0 <= i < |run.lines| && run.lines[i] == line;
      SplitSums(sourceAmount, weights.parts, weights.whole);
      SplitNotNegative(sourceAmount, weights.parts, weights.whole, i);
    }
  }

  // ----- which runs end below zero -----

  /** With a non-negative amount and weights, every line before the last is not negative; the last is so exactly when
      the rounded lines before it do not take more than there is. */
  lemma NoNegativeLineIff(run: AllocationRun, rule: Rule, sourceAmount: int, weights: Weights, preview: bool)
    requires IsRun(run, rule, sourceAmount, weights, preview) && rule.targets != [] && sourceAmount >= 0
    requires forall i | 0 <= i < |weights.parts| :: weights.parts[i] >= 0
    ensures NoNegativeLine(run) <==>
      Total(Rounded(sourceAmount, weights.parts[..|weights.parts| - 1], weights.whole)) <= sourceAmount
  {
    var n := |weights.parts| - 1;
    var before := weights.parts[..n];
    SplitSums(sourceAmount, weights.parts, weights.whole);
    forall i | 0 <= i < n ensures run.lines[i].amount >= 0 {
      RoundedAt(sourceAmount, before, weights.whole, i);
      Product(sourceAmount, weights.parts[i]);
      RoundsToNearest(sourceAmount * weights.parts[i], weights.whole);
    }
    assert run.lines[n] in run.lines;
    forall line | line in run.lines && line.amount < 0 ensures line == run.lines[n] {
      var i :| 0 <= i < |run.lines| && run.lines[i] == line;
      assert i == n;
    }
  }

  lemma Product(a: int, b: int)
    requires a >= 0 && b >= 0
    ensures a * b >= 0
  {}

  lemma {:induction false} EqualShares(amount: int, parts: seq<int>, whole: int)
    requires whole > 0 && forall i | 0 <= i < |parts| :: parts[i] == 1
    ensures Total(Rounded(amount, parts, whole)) == |parts| * RoundHalfUp(amount, whole)
    decreases |parts|
  {
    if parts != [] {
      var n := |parts| - 1;
      EqualShares(amount, parts[..n], whole);
      RoundedNext(amount, parts, whole, n);
      assert parts[..n + 1] == parts && amount * parts[n] == amount;
      Multiple(n, RoundHalfUp(amount, whole));
    }
  }

  lemma DirectLinesIff(rule: Rule, values: seq<DriverValue>, period: Date, sourceAmount: int)
    requires rule.direct && rule.targets != [] && sourceAmount >= 0
    ensures WeightsOf(rule, values, period).Success?
    ensures var run := RunOf(rule, sourceAmount, WeightsOf(rule, values, period).value, false);
      var n := |rule.targets|;
      NoNegativeLine(run) <==> (n - 1) * RoundHalfUp(sourceAmount, n) <= sourceAmount
  {
    var weights := WeightsOf(rule, values, period).value;
    NoNegativeLineIff(RunOf(rule, sourceAmount, weights, false), rule, sourceAmount, weights, false);
    EqualShares(sourceAmount, weights.parts[..|weights.parts| - 1], weights.whole);
  }

  /** A direct rule over n targets can be posted exactly when n - 1 rounded shares do not exceed the amount, as can be
      seen from the amount and the number of targets alone. */
  lemma DirectRunPostsIff(ledger: Ledger, env: Env, organization: string, date: Date, source: SourceKey, rule: Rule,
                          values: seq<DriverValue>, period: Date, sourceAmount: int, expense: string, clearing: string)
    requires rule.direct && rule.targets != [] && sourceAmount >= 0
    requires Ready(ledger, env, organization, date, source, expense, clearing)
    ensures WeightsOf(rule, values, period).Success?
    ensures var run := RunOf(rule, sourceAmount, WeightsOf(rule, values, period).value, false);
      var n := |rule.targets|;
      var outcome := PostBatch(ledger, env, organization, date, Some(source), BatchOf(run, expense, clearing));
      outcome.Success? <==> sourceAmount > 0 && (n - 1) * RoundHalfUp(sourceAmount, n) <= sourceAmount
  {
    var weights := WeightsOf(rule, values, period).value;
    var run := RunOf(rule, sourceAmount, weights, false);
    DirectLinesIff(rule, values, period, sourceAmount);
    PostingSucceedsIff(ledger, env, organization, date, source, run, rule, sourceAmount, weights, expense, clearing);
  }

  lemma ThreeCentsOverFive()
    ensures Split(3, [1, 1, 1, 1, 1], 5) == [1, 1, 1, 1, -1]
  {
    var parts := [1, 1, 1, 1, 1];
    RoundedNext(3, parts, 5, 0);
    RoundedNext(3, parts, 5, 1);
    RoundedNext(3, parts, 5, 2);
    RoundedNext(3, parts, 5, 3);
    assert RoundHalfUp(3, 5) == 1 && parts[..0] == [];
  }

  /** Three cents of approved claims over the five targets of a direct rule: what the calculation stores is 1, 1, 1, 1
      and -1, complete to the cent, and the ledger refuses it. */
  lemma ThreeCentsCannotBePosted(ledger: Ledger, env: Env, organization: string, date: Date, source: SourceKey, rule: Rule,
                                 claims: seq<ClaimLine>, from: Date, to: Date, values: seq<DriverValue>,
                                 expense: string, clearing: string)
    requires rule.direct && |rule.targets| == 5 && SourceAmount(rule, claims, from, to) == 3
    requires Ready(ledger, env, organization, date, source, expense, clearing)
    ensures WeightsOf(rule, values, from).Success?
    ensures var run := RunOf(rule, SourceAmount(rule, claims, from, to), WeightsOf(rule, values, from).value, false);
      && run.residual == 0 && |run.lines| == 5
      && (forall i | 0 <= i < 5 :: run.lines[i] == RunLine(rule.targets[i], if i < 4 then 1 else -1))
      && PostBatch(ledger, env, organization, date, Some(source), BatchOf(run, expense, clearing)).Failure?
  {
    var weights := WeightsOf(rule, values, from).value;
    var run := RunOf(rule, 3, weights, false);
    ThreeCentsOverFive();
    assert weights.parts == [1, 1, 1, 1, 1];
    assert run.lines[4].amount == -1 && run.lines[4] in run.lines;
    NothingRemainsIff(run, rule, 3, weights, false);
    PostingSucceedsIff(ledger, env, organization, date, source, run, rule, 3, weights, expense, clearing);
  }

  // ----- which claims count -----

  function IsPosted(): ClaimLine -> bool {
    (line: ClaimLine) => line.posted
  }

  /** The source amount is that of the posted claims and that of the others taken together, so it is the amount of
      the posted ones exactly when the others come to nothing. */
  lemma {:induction false} UnpostedClaimsCount(rule: Rule, claims: seq<ClaimLine>, from: Date, to: Date)
    ensures SourceAmount(rule, claims, from, to) == SourceAmount(rule, Filter(claims, IsPosted()), from, to)
      <==> SourceAmount(rule, Filter(claims, Except(IsPosted())), from, to) == 0
    ensures SourceAmount(rule, claims, from, to) == SourceAmount(rule, Filter(claims, IsPosted()), from, to)
      + SourceAmount(rule, Filter(claims, Except(IsPosted())), from, to)
  {
    var allocable := Allocable(rule, from, to);
    SumPartition(Filter(claims, allocable), IsPosted(), ApprovedAmount());
    FilterCommutes(claims, allocable, IsPosted());
    FilterCommutes(claims, allocable, Except(IsPosted()));
  }

  // ----- what a calculated run holds, in terms of the claims and the driver table -----

  ghost predicate Selected(rule: Rule, from: Date, to: Date, line: ClaimLine) {
    && line.costCenter == rule.sourceCostCenter && from <= line.date && line.date <= to && line.approved.Some?
    && (rule.categories.Some? ==> line.category in rule.categories.value)
  }

  /** A claim line of the source, dated within the period, approved and of an allowed category adds its approved amount to the
      source amount; any other adds nothing. */
  lemma OneMoreClaim(rule: Rule, claims: seq<ClaimLine>, line: ClaimLine, from: Date, to: Date)
    ensures SourceAmount(rule, [], from, to) == 0
    ensures SourceAmount(rule, claims + [line], from, to) == SourceAmount(rule, claims, from, to)
      + if Selected(rule, from, to, line) then line.approved.value else 0
  {
    FilterAppend(claims, [line], Allocable(rule, from, to));
    assert [line][1..] == [];
    SumAppend(Filter(claims, Allocable(rule, from, to)), Filter([line], Allocable(rule, from, to)), ApprovedAmount());
  }

  /** A row of the rule's driver for that period, in force, for the center. */
  ghost predicate RowFor(rule: Rule, period: Date, center: string, row: DriverValue) {
    Some(row.driver) == rule.driver && row.period == period && row.active && row.costCenter == center
  }

  /** The driver table has at most one such row for each target. */
  ghost predicate OneRowEach(rule: Rule, values: seq<DriverValue>, period: Date) {
    forall i, j, target | 0 <= i < j < |values| && target in rule.targets ::
      !(RowFor(rule, period, target, values[i]) && RowFor(rule, period, target, values[j]))
  }

  /** The center's value: that of its row, zero without one. */
  ghost predicate HasValue(rule: Rule, values: seq<DriverValue>, period: Date, center: string, value: int) {
    || (exists row :: row in values && RowFor(rule, period, center, row) && row.value == value)
    || (value == 0 && forall row | row in values :: !RowFor(rule, period, center, row))
  }

  function TargetValue(rule: Rule, period: Date): DriverValue -> int {
    (row: DriverValue) =>
      if Some(row.driver) == rule.driver && row.period == period && row.active && row.costCenter in rule.targets then row.value else 0
  }

  /** All that the targets' rows add up to. */
  function DriverTotal(rule: Rule, values: seq<DriverValue>, period: Date): int {
    SumBy(values, TargetValue(rule, period))
  }

  lemma TotalIsSum(rule: Rule, values: seq<DriverValue>, period: Date)
    ensures SumBy(Filter(values, InForce(rule, period)), ValueOf()) == DriverTotal(rule, values, period)
  {
    SumOverFilter(values, InForce(rule, period), TargetValue(rule, period));
    var rows := Filter(values, InForce(rule, period));
    forall row | row in rows ensures ValueOf()(row) == TargetValue(rule, period)(row) {
      assert InForce(rule, period)(row);
    }
    SumMatching(rows, rows, ValueOf(), TargetValue(rule, period));
  }

  lemma {:induction false} InForceOneEach(rule: Rule, values: seq<DriverValue>, period: Date)
    requires OneRowEach(rule, values, period)
    ensures OneValueEach(Filter(values, InForce(rule, period)))
  {
    if values != [] {
      forall i, j, target | 0 <= i < j < |values[1..]| && target in rule.targets
        ensures !(RowFor(rule, period, target, values[1..][i]) && RowFor(rule, period, target, values[1..][j]))
      {
        assert values[1..][i] == values[i + 1] && values[1..][j] == values[j + 1];
      }
      InForceOneEach(rule, values[1..], period);
      if InForce(rule, period)(values[0]) {
        var rest := Filter(values[1..], InForce(rule, period));
        forall j | 0 <= j < |rest| ensures rest[j].costCenter != values[0].costCenter {
          assert rest[j] in rest;
          var k :| 0 <= k < |values[1..]| && values[1..][k] == rest[j];
          assert RowFor(rule, period, values[0].costCenter, values[0]);
          assert !RowFor(rule, period, values[0].costCenter, values[k + 1]);
        }
      }
    }
  }

  lemma {:induction false} ValueIsFound(rows: seq<DriverValue>, center: string)
    ensures FindValue(rows, center) == 0 || exists row :: row in rows && row.costCenter == center && row.value == FindValue(rows, center)
    ensures (forall row | row in rows :: row.costCenter != center) ==> FindValue(rows, center) == 0
  {
    if rows != [] && rows[0].costCenter != center {
      ValueIsFound(rows[1..], center);
    }
  }

  lemma {:induction false} FoundIfThere(rows: seq<DriverValue>, row: DriverValue)
    requires OneValueEach(rows) && row in rows
    ensures FindValue(rows, row.costCenter) == row.value
  {
    if rows[0] != row {
      var j :| 0 <= j < |rows| && rows[j] == row;
      assert rows[0].costCenter != rows[j].costCenter;
      FoundIfThere(rows[1..], row);
    }
  }

  lemma ValueOfTarget(rule: Rule, values: seq<DriverValue>, period: Date, target: string, value: int)
    requires OneRowEach(rule, values, period) && target in rule.targets && HasValue(rule, values, period, target, value)
    ensures FindValue(Filter(values, InForce(rule, period)), target) == value
  {
    var rows := Filter(values, InForce(rule, period));
    InForceOneEach(rule, values, period);
    if row :| row in values && RowFor(rule, period, target, row) && row.value == value {
      assert InForce(rule, period)(row);
      FoundIfThere(rows, row);
    } else {
      forall row | row in rows ensures row.costCenter != target {
        assert InForce(rule, period)(row) && !RowFor(rule, period, target, row);
      }
      ValueIsFound(rows, target);
    }
  }

  /** Twice the error of a line against its exact share part / whole of the amount, times the whole. */
  ghost predicate Within(amount: int, sourceAmount: int, part: int, whole: int, halves: int) {
    -(halves * whole) <= 2 * (whole * amount - sourceAmount * part) <= halves * whole
  }

  /** A run is refused exactly for a driver-based rule whose driver is not named or whose values do not add up to something. */
  lemma CalculatedIff(rule: Rule, claims: seq<ClaimLine>, from: Date, to: Date, values: seq<DriverValue>, preview: bool)
    ensures var r := Calculation(rule, claims, from, to, values, preview);
      && (r.Success? <==> rule.direct || (rule.driver.Some? && DriverTotal(rule, values, from) > 0))
      && (r.Failure? ==> r.error == ValidationFailed)
  {
    TotalIsSum(rule, values, from);
  }

  /** One line per target in order; what was there to allocate is the source amount, and the run is not yet posted. */
  lemma CalculatedShape(rule: Rule, claims: seq<ClaimLine>, from: Date, to: Date, values: seq<DriverValue>, preview: bool)
    requires Calculation(rule, claims, from, to, values, preview).Success?
    ensures var run := Calculation(rule, claims, from, to, values, preview).value;
      && run.rule == rule && run.status == (if preview then Preview else Calculated)
      && run.sourceAmount == SourceAmount(rule, claims, from, to) && run.allocatedAmount + run.residual == run.sourceAmount
      && run.allocatedAmount == SumBy(run.lines, LineAmount())
      && |run.lines| == |rule.targets| && forall i | 0 <= i < |rule.targets| :: run.lines[i].target == rule.targets[i]
  {
    var run := Calculation(rule, claims, from, to, values, preview).value;
    var weights := WeightsOf(rule, values, from).value;
    LinesAreShares(run, rule, SourceAmount(rule, claims, from, to), weights, preview);
    forall i | 0 <= i < |rule.targets| ensures |run.lines| == |rule.targets| && run.lines[i].target == rule.targets[i] {
      LinesNear(run, rule, SourceAmount(rule, claims, from, to), weights, preview, i);
    }
  }

  /** Under a driver-based rule a target gets the share that its value has in the total: to within half a cent before the
      last target, and within (n - 1) / 2 cents at the last of n different ones. */
  lemma DriverShares(rule: Rule, claims: seq<ClaimLine>, from: Date, to: Date, values: seq<DriverValue>, preview: bool, i: nat, value: int)
    requires !rule.direct && Calculation(rule, claims, from, to, values, preview).Success?
    requires OneRowEach(rule, values, from) && i < |rule.targets| && HasValue(rule, values, from, rule.targets[i], value)
    ensures var run := Calculation(rule, claims, from, to, values, preview).value;
      && |run.lines| == |rule.targets|
      && var total := DriverTotal(rule, values, from);
      && (i + 1 < |rule.targets| ==> Within(run.lines[i].amount, run.sourceAmount, value, total, 1))
      && (i + 1 == |rule.targets| && Distinct(rule.targets) ==> Within(run.lines[i].amount, run.sourceAmount, value, total, i))
  {
    var run := Calculation(rule, claims, from, to, values, preview).value;
    var weights := WeightsOf(rule, values, from).value;
    TotalIsSum(rule, values, from);
    InForceOneEach(rule, values, from);
    ValueOfTarget(rule, values, from, rule.targets[i], value);
    assert weights.parts[i] == value && weights.whole == DriverTotal(rule, values, from);
    if Distinct(rule.targets) { WeightsMakeWhole(rule, values, from); }
    LinesNear(run, rule, SourceAmount(rule, claims, from, to), weights, preview, i);
  }

  /** Under a direct rule each of n targets gets an n-th, to within half a cent, and (n - 1) / 2 cents at the last. */
  lemma DirectShares(rule: Rule, claims: seq<ClaimLine>, from: Date, to: Date, values: seq<DriverValue>, preview: bool, i: nat)
    requires rule.direct && i < |rule.targets|
    ensures Calculation(rule, claims, from, to, values, preview).Success?
    ensures var run := Calculation(rule, claims, from, to, values, preview).value;
      && |run.lines| == |rule.targets|
      && (i + 1 < |rule.targets| ==> Within(run.lines[i].amount, run.sourceAmount, 1, |rule.targets|, 1))
      && (i + 1 == |rule.targets| ==> Within(run.lines[i].amount, run.sourceAmount, 1, |rule.targets|, i))
  {
    var run := Calculation(rule, claims, from, to, values, preview).value;
    var weights := WeightsOf(rule, values, from).value;
    WeightsMakeWhole(rule, values, from);
    LinesNear(run, rule, SourceAmount(rule, claims, from, to), weights, preview, i);
  }
}
