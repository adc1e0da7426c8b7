// Cash moved between desks, at once or in two steps, over the register of cash movements.
module CashTransfers {
  import opened Wrappers
  import opened Seqs
  import Ledger
  import Documents

  type Date = Ledger.Date
  type Env = Ledger.Env
  type Error = Ledger.Error
  type Document = Documents.Document

  datatype Desk = Desk(id: string, currency: string, multiCurrency: bool, neverNegative: bool)

  datatype Direction = Inflow | Outflow
  /** A transfer is named by its place in the table; other documents by their type and id. */
  datatype CashSource = TransferSource(id: nat) | OtherSource(documentType: string, documentId: string)
  /** Amounts count cents. */
  datatype CashInput = CashInput(desk: string, currency: string, direction: Direction, amount: int, source: CashSource, date: Date)
  datatype CashMovement = CashMovement(input: CashInput, reversed: bool)

  datatype TransferState = DraftTransfer | InTransit | PartiallyReceived | Received
  datatype Transfer = Transfer(document: Document, source: string, destination: string, currency: string, amount: int,
                               twoStep: bool, received: int, state: TransferState)

  datatype Treasury = Treasury(desks: seq<Desk>, transfers: seq<Transfer>, movements: seq<CashMovement>)

  // ----- the movement register -----

  function FindDesk(desks: seq<Desk>, id: string): (r: Option<Desk>)
    ensures r.Some? ==> r.value in desks && r.value.id == id
    ensures r.None? ==> forall desk | desk in desks :: desk.id != id
  {
    if desks == [] then None else if desks[0].id == id then Some(desks[0]) else FindDesk(desks[1..], id)
  }

  function Flow(desk: string, currency: string, direction: Direction): CashMovement -> int {
    (m: CashMovement) =>
      if m.input.desk == desk && m.input.currency == currency && m.input.direction == direction && !m.reversed
      then m.input.amount else 0
  }

  function Balance(movements: seq<CashMovement>, desk: string, currency: string): int {
    SumBy(movements, Flow(desk, currency, Inflow)) - SumBy(movements, Flow(desk, currency, Outflow))
  }

  /** Why a movement is not recorded, if it is not. */
  function RecordRefusal(t: Treasury, input: CashInput): Option<Error> {
    if input.amount <= 0 then Some(Ledger.ValidationFailed)
    else
      var desk := FindDesk(t.desks, input.desk);
      if desk.None? then Some(Ledger.ValidationFailed)
      else if !desk.value.multiCurrency && desk.value.currency != input.currency then Some(Ledger.ValidationFailed)
      else if input.direction.Outflow? && desk.value.neverNegative
              && Balance(t.movements, input.desk, input.currency) - input.amount < 0 then Some(Ledger.ValidationFailed)
      else None
  }

  function Record(t: Treasury, input: CashInput): Result<Treasury, Error> {
    var refusal := RecordRefusal(t, input);
    if refusal.Some? then Failure(refusal.value)
    else Success(t.(movements := t.movements + [CashMovement(input, false)]))
  }

  function Struck(m: CashMovement, source: CashSource): CashMovement {
    if m.input.source == source then m.(reversed := true) else m
  }

  /** Every live movement of the source is marked; nothing else is looked at, balances included. */
  function Reverse(movements: seq<CashMovement>, source: CashSource): seq<CashMovement> {
    seq(|movements|, i requires 0 <= i < |movements| => Struck(movements[i], source))
  }

  // ----- transfers -----

  function Leg(x: Transfer, id: nat, direction: Direction, amount: int, date: Date): CashInput {
    CashInput(if direction.Outflow? then x.source else x.destination, x.currency, direction, amount, TransferSource(id), date)
  }

  function WithTransfer(t: Treasury, id: nat, x: Transfer): Treasury
    requires id < |t.transfers|
  {
    t.(transfers := t.transfers[id := x])
  }

  /** What posting does besides the document's own status: the legs, and the transfer's state. */
  function Legs(t: Treasury, id: nat): Result<Treasury, Error>
    requires id < |t.transfers|
  {
    var x := t.transfers[id];
    var date := Documents.BusinessDate(x.document);
    if x.amount <= 0 || x.source == x.destination then Failure(Ledger.ValidationFailed)
    else
      var out := Record(t, Leg(x, id, Outflow, x.amount, date));
      if out.Failure? then out
      else if x.twoStep then Success(WithTransfer(out.value, id, x.(state := InTransit)))
      else
        var both := Record(out.value, Leg(x, id, Inflow, x.amount, date));
        if both.Failure? then both
        else Success(WithTransfer(both.value, id, x.(state := Received, received := x.amount)))
  }

  function Undo(t: Treasury, id: nat): Result<Treasury, Error>
    requires id < |t.transfers|
  {
    var x := t.transfers[id];
    if (x.state.PartiallyReceived? || x.state.Received?) && x.twoStep then Failure(Ledger.ValidationFailed)
    else Success(WithTransfer(t, id, x.(state := DraftTransfer, received := 0)).(movements := Reverse(t.movements, TransferSource(id))))
  }

  function Patched(t: Treasury, id: nat, document: Document): Treasury
    requires id < |t.transfers|
  {
    WithTransfer(t, id, t.transfers[id].(document := document.(version := document.version + 1)))
  }

  function Post(t: Treasury, env: Env, id: nat, version: nat): Result<Treasury, Error> {
    if id >= |t.transfers| then Failure(Ledger.NotFound) else
    var document := t.transfers[id].document;
    var refusal := Documents.PostGuard(document, env, version);
    if refusal.Some? then Failure(refusal.value)
    else
      var legs := Legs(t, id);
      if legs.Failure? then legs else Success(Patched(legs.value, id, document.(posting := Documents.PostedDocument)))
  }

  function Unpost(t: Treasury, env: Env, id: nat, version: nat): Result<Treasury, Error> {
    if id >= |t.transfers| then Failure(Ledger.NotFound) else
    var document := t.transfers[id].document;
    var refusal := Documents.UnpostGuard(document, env, version);
    if refusal.Some? then Failure(refusal.value)
    else
      var undone := Undo(t, id);
      if undone.Failure? then undone else Success(Patched(undone.value, id, document.(posting := Documents.Unposted)))
  }

  function Cancel(t: Treasury, id: nat, version: nat): Result<Treasury, Error> {
    if id >= |t.transfers| then Failure(Ledger.NotFound) else
    var document := t.transfers[id].document;
    var refusal := Documents.CancelGuard(document, version);
    if refusal.Some? then Failure(refusal.value)
    else Success(Patched(t, id, document.(status := Documents.Cancelled)))
  }

  /** A new transfer is a draft; neither its amount nor its desks are checked yet. */
  function Create(t: Treasury, organization: string, documentDate: Date, source: string, destination: string, currency: string,
                  amount: int, twoStep: bool): Treasury
  {
    var document := Documents.Document(1, organization, documentDate, None, Documents.DraftDocument, Documents.Unposted);
    t.(transfers := t.transfers + [Transfer(document, source, destination, currency, amount, twoStep, 0, DraftTransfer)])
  }

  /** The destination counts in what has arrived: at most a cent more than was sent, and complete once no more
      than a cent is missing. */
  function Receive(t: Treasury, organization: string, id: nat, amount: int, today: Date): Result<Treasury, Error> {
    if id >= |t.transfers| || t.transfers[id].document.organization != organization then Failure(Ledger.NotFound) else
    var x := t.transfers[id];
    if !x.twoStep then Failure(Ledger.ValidationFailed)
    else if !x.state.InTransit? && !x.state.PartiallyReceived? then Failure(Ledger.ValidationFailed)
    else if x.received + amount > x.amount + 1 then Failure(Ledger.ValidationFailed)
    else
      var recorded := Record(t, Leg(x, id, Inflow, amount, today));
      if recorded.Failure? then recorded
      else
        var total := x.received + amount;
        var state := if total >= x.amount - 1 then Received else PartiallyReceived;
        Success(WithTransfer(recorded.value, id, x.(received := total, state := state)))
  }

  // ----- runs -----

  datatype Command =
    | CreateCommand(organization: string, documentDate: Date, source: string, destination: string, currency: string,
                    amount: int, twoStep: bool)
    | PostCommand(id: nat, version: nat)
    | UnpostCommand(id: nat, version: nat)
    | CancelCommand(id: nat, version: nat)
    | ReceiveCommand(receiver: string, id: nat, arrived: int, today: Date)
    | OtherRecord(input: CashInput)
    | OtherReverse(other: CashSource)

  function OrElse(r: Result<Treasury, Error>, t: Treasury): Treasury {
    if r.Success? then r.value else t
  }

  /** Other documents record and reverse their own movements only. */
  function Step(t: Treasury, env: Env, command: Command): Treasury {
    match command
    case CreateCommand(organization, date, source, destination, currency, amount, twoStep) =>
      Create(t, organization, date, source, destination, currency, amount, twoStep)
    case PostCommand(id, version) => OrElse(Post(t, env, id, version), t)
    case UnpostCommand(id, version) => OrElse(Unpost(t, env, id, version), t)
    case CancelCommand(id, version) => OrElse(Cancel(t, id, version), t)
    case ReceiveCommand(organization, id, amount, today) => OrElse(Receive(t, organization, id, amount, today), t)
    case OtherRecord(input) => if input.source.OtherSource? then OrElse(Record(t, input), t) else t
    case OtherReverse(source) => if source.OtherSource? then t.(movements := Reverse(t.movements, source)) else t
  }

  ghost function Run(t: Treasury, steps: seq<(Env, Command)>): Treasury
    decreases |steps|
  {
    if steps == [] then t else Run(Step(t, steps[0].0, steps[0].1), steps[1..])
  }
}
