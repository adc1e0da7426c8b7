// Allocation of a cost center's expenses to other cost centers, and its posting to the ledger.
module CostAllocation {
  import opened Wrappers
  import opened Seqs
  import opened Rounding
  import opened Ledger
  import PostingEngine

  datatype Rule = Rule(code: string, direct: bool, driver: Option<string>, categories: Option<seq<string>>,
                       sourceCostCenter: string, targets: seq<string>)

  /** Amounts count cents, driver values units of the fourth decimal. */
  datatype ClaimLine = ClaimLine(costCenter: string, category: string, date: Date, approved: Option<int>, posted: bool)
  datatype DriverValue = DriverValue(driver: string, period: Date, costCenter: string, active: bool, value: int)

  datatype RunStatus = Preview | Calculated | PostedRun
  datatype RunLine = RunLine(target: string, amount: int)
  datatype AllocationRun = AllocationRun(rule: Rule, status: RunStatus, sourceAmount: int, allocatedAmount: int,
                                         residual: int, lines: seq<RunLine>)

  // ----- what is allocated -----

  function Allocable(rule: Rule, from: Date, to: Date): ClaimLine -> bool {
    (line: ClaimLine) =>
      && line.costCenter == rule.sourceCostCenter && from <= line.date <= to && line.approved.Some?
      && (rule.categories.Some? ==> line.category in rule.categories.value)
  }

  function ApprovedAmount(): ClaimLine -> int {
    (line: ClaimLine) => if line.approved.Some? then line.approved.value else 0
  }

  /** Approved, not necessarily posted, claim lines of the source within the period. */
  function SourceAmount(rule: Rule, claims: seq<ClaimLine>, from: Date, to: Date): int {
    SumBy(Filter(claims, Allocable(rule, from, to)), ApprovedAmount())
  }

  // ----- weights -----

  function InForce(rule: Rule, period: Date): DriverValue -> bool {
    (row: DriverValue) => Some(row.driver) == rule.driver && row.period == period && row.active && row.costCenter in rule.targets
  }

  function ValueOf(): DriverValue -> int {
    (row: DriverValue) => row.value
  }

  /** The first row of the cost center; a target without one weighs nothing. */
  function FindValue(rows: seq<DriverValue>, costCenter: string): int {
    if rows == [] then 0 else if rows[0].costCenter == costCenter then rows[0].value else FindValue(rows[1..], costCenter)
  }

  function DriverWeights(rows: seq<DriverValue>, targets: seq<string>): seq<int> {
    seq(|targets|, i requires 0 <= i < |targets| => FindValue(rows, targets[i]))
  }

  datatype Weights = Weights(parts: seq<int>, whole: int)

  /** The weight of target i is parts[i] / whole. */
  function WeightsOf(rule: Rule, values: seq<DriverValue>, period: Date): (r: Result<Weights, Error>)
    ensures r.Success? ==> |r.value.parts| == |rule.targets| && r.value.whole > 0
  {
    if rule.direct then
      Success(Weights(seq(|rule.targets|, i => 1), if rule.targets == [] then 1 else |rule.targets|))
    else if rule.driver.None? then
      Failure(ValidationFailed)
    else
      var rows := Filter(values, InForce(rule, period));
      var total := SumBy(rows, ValueOf());
      if total <= 0 then Failure(ValidationFailed) else Success(Weights(DriverWeights(rows, rule.targets), total))
  }

  // ----- runs -----

  function RunOf(rule: Rule, sourceAmount: int, weights: Weights, preview: bool): AllocationRun
    requires weights.whole > 0 && |weights.parts| == |rule.targets|
  {
    var shares := Split(sourceAmount, weights.parts, weights.whole);
    AllocationRun(rule, if preview then Preview else Calculated, sourceAmount, Total(shares), sourceAmount - Total(shares),
                  seq(|shares|, i requires 0 <= i < |shares| => RunLine(rule.targets[i], shares[i])))
  }

  /** The run for a rule and period, or why there is none. */
  function Calculation(rule: Rule, claims: seq<ClaimLine>, from: Date, to: Date, values: seq<DriverValue>, preview: bool)
    : Result<AllocationRun, Error>
  {
    match WeightsOf(rule, values, from)
    case Success(weights) => Success(RunOf(rule, SourceAmount(rule, claims, from, to), weights, preview))
    case Failure(error) => Failure(error)
  }

  // ----- posting -----

  const NO_DETAIL := Detail(None, None, None, None, None)

  function PositiveLine(): RunLine -> bool {
    (line: RunLine) => line.amount > 0
  }

  /** A ledger line; the ledger counts the fourth decimal, a run the second. */
  function LedgerLine(account: string, side: Side, cents: int, costCenter: string): LineInput {
    LineInput(account, side, 100 * cents, NO_DETAIL, None, [DimensionInput("COST_CENTER", costCenter, None)])
  }

  function DebitLines(lines: seq<RunLine>, account: string): seq<LineInput> {
    seq(|lines|, i requires 0 <= i < |lines| => LedgerLine(account, Debit, lines[i].amount, lines[i].target))
  }

  /** Debits for the lines that are worth something, one credit for everything that was allocated. */
  function BatchOf(run: AllocationRun, expense: string, clearing: string): seq<LineInput> {
    DebitLines(Filter(run.lines, PositiveLine()), expense)
    + [LedgerLine(clearing, Credit, run.allocatedAmount, run.rule.sourceCostCenter)]
  }

  ghost predicate Paired(lines: seq<RunLine>, targets: seq<string>, amounts: seq<int>) {
    |lines| == |amounts| <= |targets| && forall k | 0 <= k < |lines| :: lines[k] == RunLine(targets[k], amounts[k])
  }

  /** Line after line, the last taking whatever is left. */
  method AllocateLines(targets: seq<string>, sourceAmount: int, parts: seq<int>, whole: int)
    returns (lines: seq<RunLine>, soFar: int)
    requires whole > 0 && |parts| == |targets|
    ensures Paired(lines, targets, Split(sourceAmount, parts, whole))
    ensures soFar == Total(Split(sourceAmount, parts, whole))
  {
    lines, soFar := [], 0;
    ghost var amounts := [];
    for i := 0 to |parts|
      invariant |lines| == i && Paired(lines, targets, amounts) && soFar == Total(amounts)
      invariant amounts == if i < |parts| then Rounded(sourceAmount, parts[..i], whole) else Split(sourceAmount, parts, whole)
    {
      RoundedNext(sourceAmount, parts, whole, i);
      var isLast := i == |parts| - 1;
      var amount := if isLast then sourceAmount - soFar else RoundHalfUp(sourceAmount * parts[i], whole);
      TotalAppend(amounts, amount);
      soFar := soFar + amount;
      amounts := amounts + [amount];
      lines := lines + [RunLine(targets[i], amount)];
    }
  }

  class CostAllocationService {
    const engine: PostingEngine.AccountingPostingEngine
    var runs: map<string, AllocationRun>

    constructor (engine: PostingEngine.AccountingPostingEngine)
      ensures this.engine == engine && runs == map[]
    {
      this.engine := engine;
      runs := map[];
    }

    /** The weights are settled first; only then is the run written, line after line. */
    method Calculate(rule: Rule, claims: seq<ClaimLine>, from: Date, to: Date, values: seq<DriverValue>, preview: bool, runId: string)
      returns (r: Result<AllocationRun, Error>)
      requires runId !in runs
      modifies this`runs
      ensures r == Calculation(rule, claims, from, to, values, preview)
      ensures runs == if r.Success? then old(runs)[runId := r.value] else old(runs)
    {
      var sourceAmount := SumBy(Filter(claims, Allocable(rule, from, to)), ApprovedAmount());
      var weights := WeightsOf(rule, values, from);
      if weights.Failure? { return Failure(weights.error); }
      var parts, whole := weights.value.parts, weights.value.whole;
      var lines, soFar := AllocateLines(rule.targets, sourceAmount, parts, whole);
      var run := AllocationRun(rule, if preview then Preview else Calculated, sourceAmount, soFar, sourceAmount - soFar, lines);
      assert lines == RunOf(rule, sourceAmount, weights.value, preview).lines;
      runs := runs[runId := run];
      return Success(run);
    }

    /** A run is posted once: only a CALCULATED one can be, and posting makes it POSTED. */
    method Post(env: Env, organization: string, businessDate: Date, runId: string, expense: Option<string>, clearing: Option<string>)
      returns (r: Result<EntryId, Error>)
      modifies this`runs, engine
      ensures r.Failure? ==> runs == old(runs) && engine.State() == old(engine.State())
      ensures runId !in old(runs) ==> r == Failure(NotFound)
      ensures runId in old(runs) && !(old(runs[runId]).status.Calculated? && expense.Some? && clearing.Some?) ==>
        r == Failure(ValidationFailed)
      ensures r.Success? ==>
        && runId in old(runs) && old(runs[runId]).status.Calculated? && expense.Some? && clearing.Some?
        && runs == old(runs)[runId := old(runs[runId]).(status := PostedRun)]
      ensures runId in old(runs) && old(runs[runId]).status.Calculated? && expense.Some? && clearing.Some? ==>
        match PostBatch(old(engine.State()), env, organization, businessDate, Some(SourceKey("COST_ALLOCATION_RUN", runId)),
                        BatchOf(old(runs[runId]), expense.value, clearing.value))
        case Success(done) => r == Success(done.1) && engine.State() == done.0
        case Failure(error) => r == Failure(error)
    {
      if runId !in runs { return Failure(NotFound); }
      var run := runs[runId];
      if !run.status.Calculated? { return Failure(ValidationFailed); }
      if expense.None? || clearing.None? { return Failure(ValidationFailed); }
      var lines: seq<LineInput> := [];
      var charged := Filter(run.lines, PositiveLine());
      for i := 0 to |charged|
        invariant lines == DebitLines(charged, expense.value)[..i]
        invariant runs == old(runs) && engine.State() == old(engine.State())
      {
        lines := lines + [LedgerLine(expense.value, Debit, charged[i].amount, charged[i].target)];
      }
      assert DebitLines(charged, expense.value)[..|charged|] == DebitLines(charged, expense.value);
      lines := lines + [LedgerLine(clearing.value, Credit, run.allocatedAmount, run.rule.sourceCostCenter)];
      r := engine.PostBatch(env, organization, businessDate, Some(SourceKey("COST_ALLOCATION_RUN", runId)), lines);
      if r.Success? {
        runs := runs[runId := run.(status := PostedRun)];
      }
    }
  }
}
