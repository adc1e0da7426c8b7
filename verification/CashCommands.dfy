// What each operation on cash desks and transfers demands and leaves behind, read off the tables alone.
module CashCommands {
  import opened Wrappers
  import opened Seqs
  import Ledger
  import Documents
  import DocumentCommands
  import opened CashTransfers
  import opened CashTransfersInvariant
  import opened CashBalances

  // ----- desks and movements -----

  /** A live movement adds its amount to its own desk and currency when it comes in and takes it off when it goes out; one
      that was reversed does nothing. */
  lemma OneMoreInBalance(movements: seq<CashMovement>, m: CashMovement, desk: string, currency: string)
    ensures Balance([], desk, currency) == 0
    ensures Balance(movements + [m], desk, currency) == Balance(movements, desk, currency) +
      if m.reversed || m.input.desk != desk || m.input.currency != currency then 0
      else if m.input.direction == Inflow then m.input.amount else -m.input.amount
  {
    SumAppend(movements, [m], Flow(desk, currency, Inflow));
    SumAppend(movements, [m], Flow(desk, currency, Outflow));
    assert [m][1..] == [];
  }

  /** The first desk with the id. */
  ghost predicate IsDesk(desks: seq<Desk>, id: string, desk: Desk) {
    exists k :: 0 <= k < |desks| && desks[k] == desk && desk.id == id && forall j | 0 <= j < k :: desks[j].id != id
  }

  lemma {:induction false} DeskIsFound(desks: seq<Desk>, id: string)
    ensures match FindDesk(desks, id)
            case Some(desk) => IsDesk(desks, id, desk)
            case None => forall desk :: !IsDesk(desks, id, desk)
  {
    if desks != [] {
      if desks[0].id == id {
        assert IsDesk(desks, id, desks[0]);
      } else {
        DeskIsFound(desks[1..], id);
        forall desk ensures IsDesk(desks[1..], id, desk) <==> IsDesk(desks, id, desk) {
          if IsDesk(desks[1..], id, desk) {
            var k :| 0 <= k < |desks[1..]| && desks[1..][k] == desk && desk.id == id && forall j | 0 <= j < k :: desks[1..][j].id != id;
            assert desks[k + 1] == desk;
            forall j | 0 <= j < k + 1 ensures desks[j].id != id { assert j > 0 ==> desks[1..][j - 1] == desks[j]; }
          }
          if IsDesk(desks, id, desk) {
            var k :| 0 <= k < |desks| && desks[k] == desk && desk.id == id && forall j | 0 <= j < k :: desks[j].id != id;
            assert k > 0 && desks[1..][k - 1] == desk;
            forall j | 0 <= j < k - 1 ensures desks[1..][j].id != id { assert desks[1..][j] == desks[j + 1]; }
          }
        }
      }
    }
  }

  lemma DeskIsUnique(desks: seq<Desk>, id: string, a: Desk, b: Desk)
    requires IsDesk(desks, id, a) && IsDesk(desks, id, b)
    ensures a == b
  {
    var i :| 0 <= i < |desks| && desks[i] == a && a.id == id && forall j | 0 <= j < i :: desks[j].id != id;
    var k :| 0 <= k < |desks| && desks[k] == b && b.id == id && forall j | 0 <= j < k :: desks[j].id != id;
    assert i == k;
  }

  /** The amount is positive, the desk exists and takes the currency, and a desk that must never be negative still holds what
      is to go out. */
  ghost predicate Recordable(t: Treasury, input: CashInput) {
    && input.amount > 0
    && exists desk :: IsDesk(t.desks, input.desk, desk)
         && (desk.multiCurrency || desk.currency == input.currency)
         && (input.direction == Outflow && desk.neverNegative ==> Balance(t.movements, input.desk, input.currency) >= input.amount)
  }

  /** A movement is recorded, live and after the others, exactly when it may be; nothing else changes. */
  lemma MovementIsRecordedIff(t: Treasury, input: CashInput)
    ensures var r := Record(t, input);
      && (r.Success? <==> Recordable(t, input))
      && (r.Failure? ==> r.error == Ledger.ValidationFailed)
      && (r.Success? ==> r.value == t.(movements := t.movements + [CashMovement(input, false)]))
  {
    DeskIsFound(t.desks, input.desk);
    forall desk | IsDesk(t.desks, input.desk, desk) ensures FindDesk(t.desks, input.desk) == Some(desk) {
      DeskIsUnique(t.desks, input.desk, FindDesk(t.desks, input.desk).value, desk);
    }
  }

  /** Exactly the source's movements are marked, all others stay as they are. */
  lemma MovementsAreReversed(movements: seq<CashMovement>, source: CashSource, i: nat)
    requires i < |movements|
    ensures |Reverse(movements, source)| == |movements|
    ensures Reverse(movements, source)[i].input == movements[i].input
    ensures Reverse(movements, source)[i].reversed <==> movements[i].reversed || movements[i].input.source == source
  {}

  // ----- transfers -----

  /** Every transfer but one is as it was. */
  ghost predicate OnlyTransfer(before: Treasury, after: Treasury, id: nat) {
    && after.desks == before.desks && |after.transfers| == |before.transfers| && id < |before.transfers|
    && forall i | 0 <= i < |before.transfers| && i != id :: after.transfers[i] == before.transfers[i]
  }

  /** The leg that takes the amount out of the source, and the one that brings an amount to the destination. */
  ghost predicate IsOutLeg(t: Treasury, id: nat, date: Ledger.Date, input: CashInput) {
    && id < |t.transfers|
    && input == CashInput(t.transfers[id].source, t.transfers[id].currency, Outflow, t.transfers[id].amount, TransferSource(id), date)
  }

  ghost predicate IsInLeg(t: Treasury, id: nat, amount: int, date: Ledger.Date, input: CashInput) {
    && id < |t.transfers|
    && input == CashInput(t.transfers[id].destination, t.transfers[id].currency, Inflow, amount, TransferSource(id), date)
  }

  /** Posting is refused by the document's guards first; then it needs a positive amount, two different desks, and legs that can
      be recorded on the document's day, the second after the first. */
  lemma TransferIsPostedIff(t: Treasury, env: Env, id: nat, version: nat, day: Ledger.Date, out: CashInput, into: CashInput)
    requires id < |t.transfers| && DocumentCommands.IsDay(t.transfers[id].document, day)
    requires IsOutLeg(t, id, day, out) && IsInLeg(t, id, t.transfers[id].amount, day, into)
    ensures var r := Post(t, env, id, version);
      var x := t.transfers[id];
      match Documents.PostGuard(x.document, env, version)
      case Some(error) => r == Failure(error)
      case None =>
        && (r.Success? <==>
              && x.amount > 0 && x.source != x.destination && Recordable(t, out)
              && (x.twoStep || Recordable(t.(movements := t.movements + [CashMovement(out, false)]), into)))
        && (r.Failure? ==> r.error == Ledger.ValidationFailed)
  {
    var x := t.transfers[id];
    MovementIsRecordedIff(t, out);
    MovementIsRecordedIff(t.(movements := t.movements + [CashMovement(out, false)]), into);
  }

  /** A posted transfer in two steps has its amount taken out and is IN_TRANSIT; one at once has it brought in as well and is
      RECEIVED in full. The document is POSTED under the next version. */
  lemma TransferIsPosted(t: Treasury, env: Env, id: nat, version: nat, day: Ledger.Date, out: CashInput, into: CashInput)
    requires Post(t, env, id, version).Success? && id < |t.transfers| && DocumentCommands.IsDay(t.transfers[id].document, day)
    requires IsOutLeg(t, id, day, out) && IsInLeg(t, id, t.transfers[id].amount, day, into)
    ensures var next, x := Post(t, env, id, version).value, t.transfers[id];
      && x.document.version == version && OnlyTransfer(t, next, id)
      && next.movements == t.movements + [CashMovement(out, false)] + (if x.twoStep then [] else [CashMovement(into, false)])
      && next.transfers[id] == x.(
           document := x.document.(posting := Documents.PostedDocument, version := version + 1),
           state := if x.twoStep then InTransit else Received,
           received := if x.twoStep then x.received else x.amount)
  {
    assert t.movements + [CashMovement(out, false)] + [] == t.movements + [CashMovement(out, false)];
  }

  /** Unposting is refused by the document's guards first, then when a transfer in two steps has arrived in part or in full;
      else its movements are reversed and it is a draft again with nothing received. */
  lemma TransferIsUnpostedIff(t: Treasury, env: Env, id: nat, version: nat)
    requires id < |t.transfers|
    ensures var r, x := Unpost(t, env, id, version), t.transfers[id];
      match Documents.UnpostGuard(x.document, env, version)
      case Some(error) => r == Failure(error)
      case None =>
        if x.twoStep && (x.state == PartiallyReceived || x.state == Received) then r == Failure(Ledger.ValidationFailed)
        else
          && r.Success? && OnlyTransfer(t, r.value, id) && r.value.movements == Reverse(t.movements, TransferSource(id))
          && r.value.transfers[id] == x.(
               document := x.document.(posting := Documents.Unposted, version := x.document.version + 1),
               state := DraftTransfer, received := 0)
  {}

  /** Cancelling only marks the document. */
  lemma TransferIsCancelledIff(t: Treasury, id: nat, version: nat)
    requires id < |t.transfers|
    ensures var r, x := Cancel(t, id, version), t.transfers[id];
      match Documents.CancelGuard(x.document, version)
      case Some(error) => r == Failure(error)
      case None =>
        && r.Success? && OnlyTransfer(t, r.value, id) && r.value.movements == t.movements
        && r.value.transfers[id] == x.(document := x.document.(status := Documents.Cancelled, version := x.document.version + 1))
  {}

  lemma UnknownTransfer(t: Treasury, env: Env, organization: string, id: nat, version: nat, amount: int, today: Ledger.Date)
    requires id >= |t.transfers|
    ensures Post(t, env, id, version) == Failure(Ledger.NotFound) && Unpost(t, env, id, version) == Failure(Ledger.NotFound)
    ensures Cancel(t, id, version) == Failure(Ledger.NotFound) && Receive(t, organization, id, amount, today) == Failure(Ledger.NotFound)
  {}

  /** A new transfer is an unposted draft at version one, with nothing received. */
  lemma TransferIsCreated(t: Treasury, organization: string, date: Ledger.Date, source: string, destination: string,
                          currency: string, amount: int, twoStep: bool)
    ensures var next := Create(t, organization, date, source, destination, currency, amount, twoStep);
      && next == t.(transfers := next.transfers) && |next.transfers| == |t.transfers| + 1
      && next.transfers[..|t.transfers|] == t.transfers
      && var x := next.transfers[|t.transfers|];
      && x.source == source && x.destination == destination && x.currency == currency && x.amount == amount && x.twoStep == twoStep
      && x.received == 0 && x.state == DraftTransfer && x.document.version == 1 && x.document.organization == organization
      && x.document.documentDate == date && x.document.postingDate == None && x.document.posting == Documents.Unposted
      && x.document.status == Documents.DraftDocument
  {}

  /** An arrival is accepted for a transfer of the organization in two steps that is under way, when no more than a cent over
      its amount has then arrived and the movement may be recorded; the transfer is RECEIVED once no more than a cent is missing. */
  lemma ArrivalIsReceivedIff(t: Treasury, organization: string, id: nat, amount: int, today: Ledger.Date, arrival: CashInput)
    requires id < |t.transfers| && IsInLeg(t, id, amount, today, arrival)
    ensures var r, x := Receive(t, organization, id, amount, today), t.transfers[id];
      && (r.Success? <==>
            && x.document.organization == organization && x.twoStep && (x.state == InTransit || x.state == PartiallyReceived)
            && x.received + amount <= x.amount + 1 && Recordable(t, arrival))
      && (r.Failure? ==> r.error == if x.document.organization != organization then Ledger.NotFound else Ledger.ValidationFailed)
      && (r.Success? ==>
            && OnlyTransfer(t, r.value, id) && r.value.movements == t.movements + [CashMovement(arrival, false)]
            && r.value.transfers[id] == x.(
                 received := x.received + amount,
                 state := if x.amount - (x.received + amount) <= 1 then Received else PartiallyReceived))
  {
    MovementIsRecordedIff(t, arrival);
  }
}
