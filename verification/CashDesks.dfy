// The cash services as they run: movements recorded and struck out in the register, transfers updated in place,
// and everything rolled back when a step refuses.
module CashDesks {
  import opened Wrappers
  import opened Seqs
  import opened CashTransfers
  import Spec = CashTransfers
  import Ledger
  import Documents

  class CashDeskService {
    const desks: seq<Desk>
    var transfers: seq<Transfer>
    var movements: seq<CashMovement>

    function State(): Treasury
      reads this
    {
      Treasury(desks, transfers, movements)
    }

    ghost predicate Committed<T>(before: Treasury, outcome: Result<Treasury, Error>, r: Result<T, Error>)
      reads this
    {
      match outcome
      case Success(next) => State() == next && r.Success?
      case Failure(error) => State() == before && r == Failure(error)
    }

    constructor (desks: seq<Desk>)
      ensures State() == Treasury(desks, [], [])
    {
      this.desks := desks;
      transfers, movements := [], [];
    }

    // ----- the movement service -----

    /** What has come in less what has gone out. */
    method GetBalance(desk: string, currency: string) returns (balance: int)
      ensures balance == Balance(movements, desk, currency)
    {
      var inflow := SumBy(movements, Flow(desk, currency, Inflow));
      var outflow := SumBy(movements, Flow(desk, currency, Outflow));
      return inflow - outflow;
    }

    method Record(input: CashInput) returns (r: Result<nat, Error>)
      modifies this`movements
      ensures Committed(old(State()), Spec.Record(old(State()), input), r)
    {
      if input.amount <= 0 { return Failure(Ledger.ValidationFailed); }
      var desk := FindDesk(desks, input.desk);
      if desk.None? { return Failure(Ledger.ValidationFailed); }
      if !desk.value.multiCurrency && desk.value.currency != input.currency { return Failure(Ledger.ValidationFailed); }
      if input.direction.Outflow? && desk.value.neverNegative {
        var currentBalance := GetBalance(input.desk, input.currency);
        if currentBalance - input.amount < 0 { return Failure(Ledger.ValidationFailed); }
      }
      movements := movements + [CashMovement(input, false)];
      return Success(|movements| - 1);
    }

    /** Only live rows of the source are written to. */
    method Reverse(source: CashSource)
      modifies this`movements
      ensures movements == Spec.Reverse(old(movements), source)
    {
      for i := 0 to |movements|
        invariant |movements| == |old(movements)|
        invariant forall k | 0 <= k < i :: movements[k] == Struck(old(movements)[k], source)
        invariant forall k | i <= k < |movements| :: movements[k] == old(movements)[k]
      {
        if movements[i].input.source == source && !movements[i].reversed {
          movements := movements[i := movements[i].(reversed := true)];
        }
      }
    }

    // ----- the posting handler -----

    method BuildAccountingBatch(id: nat) returns (r: Result<(), Error>)
      requires id < |transfers|
      modifies this
      ensures Committed(old(State()), Legs(old(State()), id), r)
    {
      var transfer := transfers[id];
      if transfer.amount <= 0 { return Failure(Ledger.ValidationFailed); }
      if transfer.source == transfer.destination { return Failure(Ledger.ValidationFailed); }
      var saved := movements;
      var date := Documents.BusinessDate(transfer.document);
      var sent := Record(Leg(transfer, id, Outflow, transfer.amount, date));
      if sent.Failure? { return Failure(sent.error); }
      if !transfer.twoStep {
        var arrived := Record(Leg(transfer, id, Inflow, transfer.amount, date));
        if arrived.Failure? {
          movements := saved;
          return Failure(arrived.error);
        }
        transfers := transfers[id := transfer.(state := Received, received := transfer.amount)];
      } else {
        transfers := transfers[id := transfer.(state := InTransit)];
      }
      return Success(());
    }

    method UndoSideEffects(id: nat) returns (r: Result<(), Error>)
      requires id < |transfers|
      modifies this
      ensures Committed(old(State()), Undo(old(State()), id), r)
    {
      var transfer := transfers[id];
      if (transfer.state.PartiallyReceived? || transfer.state.Received?) && transfer.twoStep {
        return Failure(Ledger.ValidationFailed);
      }
      Reverse(TransferSource(id));
      transfers := transfers[id := transfer.(state := DraftTransfer, received := 0)];
      return Success(());
    }

    // ----- the document's own steps -----

    method Post(env: Env, id: nat, version: nat) returns (r: Result<(), Error>)
      modifies this
      ensures Committed(old(State()), Spec.Post(old(State()), env, id, version), r)
    {
      if id >= |transfers| { return Failure(Ledger.NotFound); }
      var document := transfers[id].document;
      var refusal := Documents.PostGuard(document, env, version);
      if refusal.Some? { return Failure(refusal.value); }
      r := BuildAccountingBatch(id);
      if r.Success? {
        transfers := transfers[id := transfers[id].(document := document.(posting := Documents.PostedDocument, version := version + 1))];
      }
    }

    method Unpost(env: Env, id: nat, version: nat) returns (r: Result<(), Error>)
      modifies this
      ensures Committed(old(State()), Spec.Unpost(old(State()), env, id, version), r)
    {
      if id >= |transfers| { return Failure(Ledger.NotFound); }
      var document := transfers[id].document;
      var refusal := Documents.UnpostGuard(document, env, version);
      if refusal.Some? { return Failure(refusal.value); }
      r := UndoSideEffects(id);
      if r.Success? {
        transfers := transfers[id := transfers[id].(document := document.(posting := Documents.Unposted, version := version + 1))];
      }
    }

    // ----- the transfer service -----

    method Receive(organization: string, id: nat, receivedAmount: int, today: Date) returns (r: Result<TransferState, Error>)
      modifies this
      ensures Committed(old(State()), Spec.Receive(old(State()), organization, id, receivedAmount, today), r)
      ensures r.Success? ==> id < |transfers| && r.value == transfers[id].state
    {
      if id >= |transfers| || transfers[id].document.organization != organization { return Failure(Ledger.NotFound); }
      var transfer := transfers[id];
      if !transfer.twoStep { return Failure(Ledger.ValidationFailed); }
      if !transfer.state.InTransit? && !transfer.state.PartiallyReceived? { return Failure(Ledger.ValidationFailed); }
      if transfer.received + receivedAmount > transfer.amount + 1 { return Failure(Ledger.ValidationFailed); }
      var arrived := Record(Leg(transfer, id, Inflow, receivedAmount, today));
      if arrived.Failure? { return Failure(arrived.error); }
      var newReceived := transfer.received + receivedAmount;
      var fullyReceived := newReceived >= transfer.amount - 1;
      transfers := transfers[id := transfer.(received := newReceived, state := if fullyReceived then Received else PartiallyReceived)];
      return Success(transfers[id].state);
    }
  }
}
