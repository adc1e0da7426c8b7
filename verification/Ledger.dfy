// The journal and its movement register as values, and what each command of the
// posting engine does to them. Every command is one transaction: it either returns the
// next ledger or an error, in which case nothing changes.
module Ledger {
  import opened Wrappers
  import opened Seqs

  /** Days; entries and movements are dated to the day. */
  type Date = int
  type EntryId = nat

  datatype Side = Debit | Credit
  datatype Status = Draft | Posted | Reversed
  datatype SourceKey = SourceKey(documentType: string, documentId: string)

  datatype Dimension = Dimension(definition: string, referenceType: string, reference: string, scalar: Option<string>)
  datatype DimensionInput = DimensionInput(key: string, reference: string, scalar: Option<string>)

  /** The foreign-currency and quantity columns, carried along unread. */
  datatype Detail = Detail(currency: Option<string>, transactionAmount: Option<int>, exchangeRate: Option<int>,
                           quantity: Option<int>, unit: Option<string>)

  /** Amounts count units of the fourth decimal. */
  datatype Line = Line(account: string, side: Side, amount: int, detail: Detail,
                       sourceLine: Option<string>, dimensions: seq<Dimension>)
  datatype LineInput = LineInput(account: string, side: Side, amount: int, detail: Detail,
                                 sourceLine: Option<string>, dimensions: seq<DimensionInput>)

  datatype Entry = Entry(organization: string, businessDate: Date, source: Option<SourceKey>,
                         reversalOf: Option<EntryId>, status: Status, version: nat, lines: seq<Line>)

  /** One row of the register: a line frozen together with its entry's date and organization. */
  datatype Movement = Movement(entry: EntryId, sequence: nat, organization: string, businessDate: Date,
                               source: Option<SourceKey>, line: Line)

  /** The register is kept in posting order. */
  datatype Ledger = Ledger(entries: map<EntryId, Entry>, movements: seq<Movement>, nextId: EntryId)

  const EMPTY := Ledger(map[], [], 0)

  datatype Account = Account(active: bool, postingAllowed: bool)
  datatype DimensionDefinition = DimensionDefinition(id: string, code: string, referenceEntityType: Option<string>)
  datatype DimensionRule = DimensionRule(account: string, definition: string, active: bool, required: bool,
                                         validFrom: Date, validTo: Option<Date>)

  /** What a command reads but does not write: the chart, the dimension tables and the open periods. */
  datatype Env = Env(accounts: map<string, Account>, definitions: seq<DimensionDefinition>,
                     rules: seq<DimensionRule>, open: (string, Date) -> bool)

  datatype Error =
    | NotFound
    | ConcurrencyConflict
    | AlreadyPosted
    | NotPosted
    | ReversalNotAllowed
    | ValidationFailed
    | PeriodClosed
    | AccountInactive
    | AccountNotPostable
    | DimensionRequired
    | NotBalanced
    | DuplicatePosting

  type Outcome = Result<(Ledger, EntryId), Error>

  // ----- lines -----

  function Flip(side: Side): Side {
    if side.Debit? then Credit else Debit
  }

  /** Amount of a line when it is on the given side, else nothing. */
  function OnSide(side: Side): Line -> int {
    (line: Line) => if line.side == side then line.amount else 0
  }

  ghost predicate Balanced(lines: seq<Line>) {
    SumBy(lines, OnSide(Debit)) == SumBy(lines, OnSide(Credit))
  }

  predicate ShapeValid(lines: seq<LineInput>) {
    lines != [] && forall line | line in lines :: line.amount > 0
  }

  /** Look-up in a table built from a list of rows: the last row with the key wins. */
  function FindDefinition(definitions: seq<DimensionDefinition>, key: string, byId: bool): (r: Option<DimensionDefinition>)
    ensures r.Some? ==> r.value in definitions && (if byId then r.value.id else r.value.code) == key
  {
    if definitions == [] then
      None
    else
      var last := definitions[|definitions| - 1];
      if (if byId then last.id else last.code) == key then
        Some(last)
      else
        FindDefinition(definitions[..|definitions| - 1], key, byId)
  }

  function WriteDimensions(env: Env, inputs: seq<DimensionInput>, byId: bool): Result<seq<Dimension>, Error> {
    if inputs == [] then
      Success([])
    else
      var definition := FindDefinition(env.definitions, inputs[0].key, byId);
      if definition.None? then
        Failure(ValidationFailed)
      else
        var referenceType := if definition.value.referenceEntityType.Some?
                             then definition.value.referenceEntityType.value else definition.value.code;
        var rest := WriteDimensions(env, inputs[1..], byId);
        if rest.Failure? then rest
        else Success([Dimension(definition.value.id, referenceType, inputs[0].reference, inputs[0].scalar)] + rest.value)
  }

  function WriteLine(env: Env, input: LineInput, byId: bool): Result<Line, Error> {
    var dimensions := WriteDimensions(env, input.dimensions, byId);
    if dimensions.Failure? then Failure(dimensions.error)
    else Success(Line(input.account, input.side, input.amount, input.detail, input.sourceLine, dimensions.value))
  }

  /** The stored lines, or the first unknown dimension. */
  function WriteLines(env: Env, inputs: seq<LineInput>, byId: bool): Result<seq<Line>, Error> {
    if inputs == [] then
      Success([])
    else
      var first := WriteLine(env, inputs[0], byId);
      if first.Failure? then
        Failure(first.error)
      else
        var rest := WriteLines(env, inputs[1..], byId);
        if rest.Failure? then rest else Success([first.value] + rest.value)
  }

  /** A required-dimension rule that is in force for the account on the date. */
  predicate RuleApplies(rule: DimensionRule, account: string, date: Date) {
    && rule.account == account && rule.active && rule.required
    && rule.validFrom <= date && (rule.validTo.Some? ==> date <= rule.validTo.value)
  }

  predicate CarriesDimension(line: Line, definition: string) {
    exists dimension | dimension in line.dimensions :: dimension.definition == definition
  }

  function CheckLine(env: Env, line: Line, date: Date): Option<Error> {
    if line.account !in env.accounts then Some(NotFound)
    else if !env.accounts[line.account].active then Some(AccountInactive)
    else if !env.accounts[line.account].postingAllowed then Some(AccountNotPostable)
    else if exists rule | rule in env.rules ::
              RuleApplies(rule, line.account, date) && !CarriesDimension(line, rule.definition) then Some(DimensionRequired)
    else None
  }

  function CheckLines(env: Env, lines: seq<Line>, date: Date): Option<Error> {
    if lines == [] then None
    else if CheckLine(env, lines[0], date).Some? then CheckLine(env, lines[0], date)
    else CheckLines(env, lines[1..], date)
  }

  /** The first bad line, else a refusal of unequal totals. */
  function ValidateLines(env: Env, lines: seq<Line>, date: Date): Option<Error> {
    if CheckLines(env, lines, date).Some? then CheckLines(env, lines, date)
    else if SumBy(lines, OnSide(Debit)) != SumBy(lines, OnSide(Credit)) then Some(NotBalanced)
    else None
  }

  function FlipDimension(dimension: Dimension): DimensionInput {
    DimensionInput(dimension.definition, dimension.reference, dimension.scalar)
  }

  /** The input line of a reversal: same account, amount and dimensions, other side, no source line. */
  function FlipLine(line: Line): LineInput {
    LineInput(line.account, Flip(line.side), line.amount, line.detail, None,
              seq(|line.dimensions|, i requires 0 <= i < |line.dimensions| => FlipDimension(line.dimensions[i])))
  }

  function FlipLines(lines: seq<Line>): seq<LineInput> {
    seq(|lines|, i requires 0 <= i < |lines| => FlipLine(lines[i]))
  }

  // ----- register -----

  function OfEntry(id: EntryId): Movement -> bool {
    (movement: Movement) => movement.entry == id
  }

  function MovementsFor(id: EntryId, entry: Entry): seq<Movement> {
    seq(|entry.lines|, i requires 0 <= i < |entry.lines| =>
      Movement(id, i, entry.organization, entry.businessDate, entry.source, entry.lines[i]))
  }

  predicate HasPosted(ledger: Ledger, source: SourceKey) {
    exists id | id in ledger.entries :: ledger.entries[id].source == Some(source) && ledger.entries[id].status.Posted?
  }

  // ----- commands -----

  function CreateDraft(ledger: Ledger, env: Env, organization: string, date: Date, inputs: seq<LineInput>): Outcome {
    if !ShapeValid(inputs) then
      Failure(ValidationFailed)
    else
      var lines := WriteLines(env, inputs, false);
      if lines.Failure? then
        Failure(lines.error)
      else
        var entry := Entry(organization, date, None, None, Draft, 1, lines.value);
        Success((Ledger(ledger.entries[ledger.nextId := entry], ledger.movements, ledger.nextId + 1), ledger.nextId))
  }

  function PostDraft(ledger: Ledger, env: Env, id: EntryId, version: nat): Outcome {
    if id !in ledger.entries then Failure(NotFound) else
    var entry := ledger.entries[id];
    if entry.version != version then Failure(ConcurrencyConflict)
    else if entry.status.Posted? then Failure(AlreadyPosted)
    else if entry.status.Reversed? then Failure(ValidationFailed)
    else if !env.open(entry.organization, entry.businessDate) then Failure(PeriodClosed)
    else
      var problem := ValidateLines(env, entry.lines, entry.businessDate);
      if problem.Some? then
        Failure(problem.value)
      else
        var posted := entry.(status := Posted, version := entry.version + 1);
        Success((Ledger(ledger.entries[id := posted], ledger.movements + MovementsFor(id, posted), ledger.nextId), id))
  }

  function Unpost(ledger: Ledger, env: Env, id: EntryId, version: nat): Outcome {
    if id !in ledger.entries then Failure(NotFound) else
    var entry := ledger.entries[id];
    if entry.version != version then Failure(ConcurrencyConflict)
    else if !entry.status.Posted? then Failure(NotPosted)
    else if !env.open(entry.organization, entry.businessDate) then Failure(PeriodClosed)
    else
      var draft := entry.(status := Draft, version := entry.version + 1);
      Success((Ledger(ledger.entries[id := draft], Filter(ledger.movements, Except(OfEntry(id))), ledger.nextId), id))
  }

  /** No line is validated here: neither the accounts nor the balance are looked at again. */
  function Reverse(ledger: Ledger, env: Env, id: EntryId, version: nat, date: Option<Date>): Outcome {
    if id !in ledger.entries then Failure(NotFound) else
    var original := ledger.entries[id];
    if original.version != version then Failure(ConcurrencyConflict)
    else if !original.status.Posted? then Failure(ReversalNotAllowed)
    else
      var businessDate := if date.Some? then date.value else original.businessDate;
      if !env.open(original.organization, businessDate) then
        Failure(PeriodClosed)
      else
        var lines := WriteLines(env, FlipLines(original.lines), true);
        if lines.Failure? then
          Failure(lines.error)
        else
          var reversal := Entry(original.organization, businessDate, original.source, Some(id), Posted, 1, lines.value);
          var reversed := original.(status := Reversed, version := original.version + 1);
          Success((Ledger(ledger.entries[ledger.nextId := reversal][id := reversed],
                          ledger.movements + MovementsFor(ledger.nextId, reversal), ledger.nextId + 1), ledger.nextId))
  }

  /** Why a batch is refused before any line of it is written. */
  function BatchRefusal(ledger: Ledger, env: Env, organization: string, date: Date, source: Option<SourceKey>,
                        inputs: seq<LineInput>): Option<Error> {
    if source.Some? && HasPosted(ledger, source.value) then Some(DuplicatePosting)
    else if !ShapeValid(inputs) then Some(ValidationFailed)
    else if !env.open(organization, date) then Some(PeriodClosed)
    else None
  }

  function PostBatch(ledger: Ledger, env: Env, organization: string, date: Date, source: Option<SourceKey>,
                     inputs: seq<LineInput>): Outcome {
    var refusal := BatchRefusal(ledger, env, organization, date, source, inputs);
    if refusal.Some? then
      Failure(refusal.value)
    else
      var lines := WriteLines(env, inputs, false);
      if lines.Failure? then
        Failure(lines.error)
      else
        var problem := ValidateLines(env, lines.value, date);
        if problem.Some? then
          Failure(problem.value)
        else
          var entry := Entry(organization, date, source, None, Posted, 1, lines.value);
          Success((Ledger(ledger.entries[ledger.nextId := entry],
                          ledger.movements + MovementsFor(ledger.nextId, entry), ledger.nextId + 1), ledger.nextId))
  }

  predicate IsStaleDraft(entry: Entry, source: SourceKey) {
    entry.source == Some(source) && entry.status.Draft?
  }

  /** Reposting a document first removes the drafts that an earlier unpost left behind. */
  function DeleteDrafts(ledger: Ledger, source: SourceKey): Ledger {
    ledger.(entries := map id | id in ledger.entries && !IsStaleDraft(ledger.entries[id], source) :: ledger.entries[id])
  }

  datatype Command =
    | CreateDraftCommand(organization: string, date: Date, inputs: seq<LineInput>)
    | PostDraftCommand(id: EntryId, version: nat)
    | UnpostCommand(id: EntryId, version: nat)
    | ReverseCommand(id: EntryId, version: nat, reversalDate: Option<Date>)
    | PostBatchCommand(organization: string, date: Date, source: Option<SourceKey>, inputs: seq<LineInput>)
    | DeleteDraftsCommand(key: SourceKey)

  function Execute(ledger: Ledger, env: Env, command: Command): Outcome {
    match command
    case CreateDraftCommand(organization, date, inputs) => CreateDraft(ledger, env, organization, date, inputs)
    case PostDraftCommand(id, version) => PostDraft(ledger, env, id, version)
    case UnpostCommand(id, version) => Unpost(ledger, env, id, version)
    case ReverseCommand(id, version, date) => Reverse(ledger, env, id, version, date)
    case PostBatchCommand(organization, date, source, inputs) => PostBatch(ledger, env, organization, date, source, inputs)
    case DeleteDraftsCommand(key) => Success((DeleteDrafts(ledger, key), ledger.nextId))
  }

  /** A refused command is rolled back. */
  function Step(ledger: Ledger, env: Env, command: Command): Ledger {
    var outcome := Execute(ledger, env, command);
    if outcome.Success? then outcome.value.0 else ledger
  }

  /** A run: commands in order, each against whatever the charts and periods are by then. */
  ghost function Run(ledger: Ledger, steps: seq<(Env, Command)>): Ledger
    decreases |steps|
  {
    if steps == [] then ledger else Run(Step(ledger, steps[0].0, steps[0].1), steps[1..])
  }
}
