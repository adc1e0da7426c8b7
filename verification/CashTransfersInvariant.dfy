// No cash is made or lost in transfers, over every run of posting, unposting, receiving and other cash documents.
module CashTransfersInvariant {
  import opened Wrappers
  import opened Seqs
  import Documents
  import opened CashTransfers

  // ----- what is counted -----

  function Signed(m: CashMovement): int {
    if m.reversed then 0 else if m.input.direction.Inflow? then m.input.amount else -m.input.amount
  }

  /** Live movements of a currency, whatever the desk. */
  function Net(currency: string): CashMovement -> int {
    (m: CashMovement) => if m.input.currency == currency then Signed(m) else 0
  }

  function OtherNet(currency: string): CashMovement -> int {
    (m: CashMovement) => if m.input.currency == currency && m.input.source.OtherSource? then Signed(m) else 0
  }

  function LegTerm(id: nat, direction: Direction): CashMovement -> int {
    (m: CashMovement) => if !m.reversed && m.input.source == TransferSource(id) && m.input.direction == direction then m.input.amount else 0
  }

  predicate Posted(x: Transfer) {
    x.document.posting.PostedDocument?
  }

  /** Sent and not yet received. */
  function Transit(currency: string): Transfer -> int {
    (x: Transfer) => if Posted(x) && x.currency == currency then x.amount - x.received else 0
  }

  // ----- the invariant -----

  ghost predicate MovementSound(t: Treasury, m: CashMovement) {
    && m.input.amount > 0 && FindDesk(t.desks, m.input.desk).Some?
    && (m.input.source.TransferSource? ==>
          && m.input.source.id < |t.transfers|
          && var x := t.transfers[m.input.source.id];
             m.input.currency == x.currency && m.input.desk == (if m.input.direction.Outflow? then x.source else x.destination))
  }

  ghost predicate StateSound(x: Transfer) {
    if !Posted(x) then x.state.DraftTransfer? && x.received == 0
    else
      && x.amount > 0 && x.source != x.destination
      && if !x.twoStep then x.state.Received? && x.received == x.amount
         else match x.state
              case DraftTransfer => false
              case InTransit => x.received == 0
              case PartiallyReceived => 0 < x.received < x.amount - 1
              case Received => 0 < x.received && x.amount - 1 <= x.received <= x.amount + 1
  }

  /** The register's live legs of a transfer are what its document says. */
  ghost predicate LegsSound(t: Treasury, id: nat)
    requires id < |t.transfers|
  {
    var x := t.transfers[id];
    && SumBy(t.movements, LegTerm(id, Inflow)) == x.received
    && SumBy(t.movements, LegTerm(id, Outflow)) == (if Posted(x) then x.amount else 0)
  }

  ghost predicate Conserved(t: Treasury, currency: string) {
    SumBy(t.movements, Net(currency)) + SumBy(t.transfers, Transit(currency)) == SumBy(t.movements, OtherNet(currency))
  }

  ghost predicate Sound(t: Treasury) {
    && (forall m {:trigger MovementSound(t, m)} | m in t.movements :: MovementSound(t, m))
    && (forall id: nat {:trigger LegsSound(t, id)} | id < |t.transfers| :: LegsSound(t, id) && StateSound(t.transfers[id]))
    && (forall currency {:trigger Conserved(t, currency)} :: Conserved(t, currency))
  }

  // ----- sums under the three elementary changes -----

  lemma Appended<T>(s: seq<T>, x: T, f: T -> int)
    ensures SumBy(s + [x], f) == SumBy(s, f) + f(x)
  {
    SumAppend(s, [x], f);
  }

  lemma Reversal(movements: seq<CashMovement>, source: CashSource, f: CashMovement -> int, g: CashMovement -> int)
    requires forall m | m in movements :: f(Struck(m, source)) == f(m) - g(m)
    ensures SumBy(Reverse(movements, source), f) == SumBy(movements, f) - SumBy(movements, g)
  {
    var h := (m: CashMovement) => f(Struck(m, source));
    forall i | 0 <= i < |movements| ensures f(Reverse(movements, source)[i]) == h(movements[i]) {}
    SumMatching(Reverse(movements, source), movements, f, h);
    SumLinear(movements, f, g, -1, h);
  }

  function Nothing(): CashMovement -> int {
    (m: CashMovement) => 0
  }

  lemma ReversalElsewhere(movements: seq<CashMovement>, source: CashSource, f: CashMovement -> int)
    requires forall m | m in movements :: f(Struck(m, source)) == f(m)
    ensures SumBy(Reverse(movements, source), f) == SumBy(movements, f)
  {
    Reversal(movements, source, f, Nothing());
    SumZero(movements, Nothing());
  }

  lemma RecordKeepsOthers(t: Treasury, input: CashInput, id: nat)
    requires Record(t, input).Success? && id < |t.transfers| && LegsSound(t, id)
    ensures var next := Record(t, input).value;
      && SumBy(next.movements, LegTerm(id, Inflow)) == t.transfers[id].received +
           (if input.source == TransferSource(id) && input.direction.Inflow? then input.amount else 0)
      && SumBy(next.movements, LegTerm(id, Outflow)) == (if Posted(t.transfers[id]) then t.transfers[id].amount else 0) +
           (if input.source == TransferSource(id) && input.direction.Outflow? then input.amount else 0)
  {
    Appended(t.movements, CashMovement(input, false), LegTerm(id, Inflow));
    Appended(t.movements, CashMovement(input, false), LegTerm(id, Outflow));
  }

  lemma RecordMovesNet(t: Treasury, input: CashInput, currency: string)
    requires Record(t, input).Success?
    ensures var next := Record(t, input).value;
      var amount := if input.currency != currency then 0 else if input.direction.Inflow? then input.amount else -input.amount;
      && SumBy(next.movements, Net(currency)) == SumBy(t.movements, Net(currency)) + amount
      && SumBy(next.movements, OtherNet(currency)) ==
           SumBy(t.movements, OtherNet(currency)) + (if input.source.OtherSource? then amount else 0)
  {
    Appended(t.movements, CashMovement(input, false), Net(currency));
    Appended(t.movements, CashMovement(input, false), OtherNet(currency));
  }

  // ----- what a command leaves alone -----

  /** Desks stay, and a transfer keeps its desks, currency, amount and mode. */
  ghost predicate SameTerms(t: Treasury, next: Treasury) {
    && next.desks == t.desks && |t.transfers| <= |next.transfers|
    && forall i | 0 <= i < |t.transfers| ::
         var a, b := t.transfers[i], next.transfers[i];
         && b.source == a.source && b.destination == a.destination
         && b.currency == a.currency && b.amount == a.amount && b.twoStep == a.twoStep
  }

  ghost predicate OnlyTransfer(t: Treasury, next: Treasury, id: nat)
    requires id < |t.transfers|
  {
    SameTerms(t, next) && next.transfers == t.transfers[id := next.transfers[id]]
  }

  lemma StaysSound(t: Treasury, next: Treasury, m: CashMovement)
    requires SameTerms(t, next) && MovementSound(t, m)
    ensures MovementSound(next, m) && MovementSound(next, m.(reversed := true))
  {}

  /** A transfer's own change, against the total in transit. */
  lemma TransitMoves(t: Treasury, next: Treasury, id: nat, currency: string)
    requires id < |t.transfers| && OnlyTransfer(t, next, id)
    ensures SumBy(next.transfers, Transit(currency))
         == SumBy(t.transfers, Transit(currency)) - Transit(currency)(t.transfers[id]) + Transit(currency)(next.transfers[id])
  {
    SumUpdated(t.transfers, id, next.transfers[id], Transit(currency));
  }

  // ----- posting -----

  function OutLeg(t: Treasury, id: nat): CashInput
    requires id < |t.transfers|
  {
    Leg(t.transfers[id], id, Outflow, t.transfers[id].amount, Documents.BusinessDate(t.transfers[id].document))
  }

  function InLeg(t: Treasury, id: nat): CashInput
    requires id < |t.transfers|
  {
    Leg(t.transfers[id], id, Inflow, t.transfers[id].amount, Documents.BusinessDate(t.transfers[id].document))
  }

  lemma PostShape(t: Treasury, env: Env, id: nat, version: nat)
    requires Post(t, env, id, version).Success?
    ensures var next := Post(t, env, id, version).value;
      && id < |t.transfers| && OnlyTransfer(t, next, id) && !Posted(t.transfers[id])
      && var x, y := t.transfers[id], next.transfers[id];
         && x.amount > 0 && x.source != x.destination && Posted(y)
         && Record(t, OutLeg(t, id)).Success?
         && var out := Record(t, OutLeg(t, id)).value;
         if x.twoStep then next.movements == out.movements && y.state.InTransit? && y.received == x.received
         else Record(out, InLeg(t, id)).Success? && next.movements == Record(out, InLeg(t, id)).value.movements
              && y.state.Received? && y.received == x.amount
  {}

  lemma PostKeepsLegs(t: Treasury, env: Env, id: nat, version: nat, other: nat)
    requires Sound(t) && Post(t, env, id, version).Success? && other < |t.transfers|
    ensures var next := Post(t, env, id, version).value;
      other < |next.transfers| && LegsSound(next, other) && StateSound(next.transfers[other])
  {
    PostShape(t, env, id, version);
    assert LegsSound(t, other) && LegsSound(t, id);
    RecordKeepsOthers(t, OutLeg(t, id), other);
    if !t.transfers[id].twoStep {
      var out := Record(t, OutLeg(t, id)).value;
      Appended(out.movements, CashMovement(InLeg(t, id), false), LegTerm(other, Inflow));
      Appended(out.movements, CashMovement(InLeg(t, id), false), LegTerm(other, Outflow));
    }
  }

  lemma PostConserves(t: Treasury, env: Env, id: nat, version: nat, currency: string)
    requires Sound(t) && Post(t, env, id, version).Success?
    ensures Conserved(Post(t, env, id, version).value, currency)
  {
    PostShape(t, env, id, version);
    assert Conserved(t, currency) && LegsSound(t, id);
    TransitMoves(t, Post(t, env, id, version).value, id, currency);
    RecordMovesNet(t, OutLeg(t, id), currency);
    if !t.transfers[id].twoStep {
      RecordMovesNet(Record(t, OutLeg(t, id)).value, InLeg(t, id), currency);
    }
  }

  lemma PostKeeps(t: Treasury, env: Env, id: nat, version: nat)
    requires Sound(t) && Post(t, env, id, version).Success?
    ensures Sound(Post(t, env, id, version).value)
  {
    var next := Post(t, env, id, version).value;
    PostShape(t, env, id, version);
    forall m | m in next.movements ensures MovementSound(next, m) {
      if m in t.movements {
        assert MovementSound(t, m);
        StaysSound(t, next, m);
      }
    }
    forall other: nat | other < |next.transfers| ensures LegsSound(next, other) && StateSound(next.transfers[other]) {
      PostKeepsLegs(t, env, id, version, other);
    }
    forall currency ensures Conserved(next, currency) {
      PostConserves(t, env, id, version, currency);
    }
  }

  // ----- receiving -----

  function Arrival(t: Treasury, id: nat, amount: int, today: Date): CashInput
    requires id < |t.transfers|
  {
    Leg(t.transfers[id], id, Inflow, amount, today)
  }

  lemma ReceiveShape(t: Treasury, organization: string, id: nat, amount: int, today: Date)
    requires Sound(t) && Receive(t, organization, id, amount, today).Success?
    ensures var next := Receive(t, organization, id, amount, today).value;
      && id < |t.transfers| && OnlyTransfer(t, next, id)
      && Record(t, Arrival(t, id, amount, today)).Success?
      && next.movements == Record(t, Arrival(t, id, amount, today)).value.movements
      && var x, y := t.transfers[id], next.transfers[id];
         Posted(x) && Posted(y) && y.received == x.received + amount && StateSound(y)
  {
    assert LegsSound(t, id);
  }

  lemma ReceiveKeeps(t: Treasury, organization: string, id: nat, amount: int, today: Date)
    requires Sound(t) && Receive(t, organization, id, amount, today).Success?
    ensures Sound(Receive(t, organization, id, amount, today).value)
  {
    var next := Receive(t, organization, id, amount, today).value;
    ReceiveShape(t, organization, id, amount, today);
    var input := Arrival(t, id, amount, today);
    forall m | m in next.movements ensures MovementSound(next, m) {
      if m in t.movements {
        assert MovementSound(t, m);
        StaysSound(t, next, m);
      }
    }
    forall other: nat | other < |next.transfers| ensures LegsSound(next, other) && StateSound(next.transfers[other]) {
      assert LegsSound(t, other);
      RecordKeepsOthers(t, input, other);
    }
    forall currency ensures Conserved(next, currency) {
      assert Conserved(t, currency);
      RecordMovesNet(t, input, currency);
      TransitMoves(t, next, id, currency);
    }
  }

  // ----- unposting -----

  lemma UnpostShape(t: Treasury, env: Env, id: nat, version: nat)
    requires Sound(t) && Unpost(t, env, id, version).Success?
    ensures var next := Unpost(t, env, id, version).value;
      && id < |t.transfers| && OnlyTransfer(t, next, id)
      && next.movements == Reverse(t.movements, TransferSource(id))
      && var x, y := t.transfers[id], next.transfers[id];
         Posted(x) && !Posted(y) && y.received == 0 && StateSound(y) && (x.twoStep ==> x.received == 0)
  {
    assert LegsSound(t, id);
  }

  lemma UnpostKeepsLegs(t: Treasury, env: Env, id: nat, version: nat, other: nat)
    requires Sound(t) && Unpost(t, env, id, version).Success? && other < |t.transfers|
    ensures var next := Unpost(t, env, id, version).value;
      other < |next.transfers| && LegsSound(next, other) && StateSound(next.transfers[other])
  {
    UnpostShape(t, env, id, version);
    assert LegsSound(t, other);
    if other == id {
      Reversal(t.movements, TransferSource(id), LegTerm(id, Inflow), LegTerm(id, Inflow));
      Reversal(t.movements, TransferSource(id), LegTerm(id, Outflow), LegTerm(id, Outflow));
    } else {
      ReversalElsewhere(t.movements, TransferSource(id), LegTerm(other, Inflow));
      ReversalElsewhere(t.movements, TransferSource(id), LegTerm(other, Outflow));
    }
  }

  /** The net of a transfer's live legs, in its own currency. */
  function LegsNet(id: nat): CashMovement -> int {
    (m: CashMovement) => LegTerm(id, Inflow)(m) - LegTerm(id, Outflow)(m)
  }

  lemma LegsNetSum(t: Treasury, id: nat)
    requires id < |t.transfers| && LegsSound(t, id)
    ensures SumBy(t.movements, LegsNet(id)) == t.transfers[id].received - (if Posted(t.transfers[id]) then t.transfers[id].amount else 0)
  {
    SumLinear(t.movements, LegTerm(id, Inflow), LegTerm(id, Outflow), -1, LegsNet(id));
  }

  lemma UnpostConserves(t: Treasury, env: Env, id: nat, version: nat, currency: string)
    requires Sound(t) && Unpost(t, env, id, version).Success?
    ensures Conserved(Unpost(t, env, id, version).value, currency)
  {
    UnpostShape(t, env, id, version);
    assert Conserved(t, currency) && LegsSound(t, id);
    TransitMoves(t, Unpost(t, env, id, version).value, id, currency);
    LegsNetSum(t, id);
    ReversalElsewhere(t.movements, TransferSource(id), OtherNet(currency));
    if t.transfers[id].currency == currency {
      forall m | m in t.movements ensures Net(currency)(Struck(m, TransferSource(id))) == Net(currency)(m) - LegsNet(id)(m) {
        assert MovementSound(t, m);
      }
      Reversal(t.movements, TransferSource(id), Net(currency), LegsNet(id));
    } else {
      forall m | m in t.movements ensures Net(currency)(Struck(m, TransferSource(id))) == Net(currency)(m) {
        assert MovementSound(t, m);
      }
      ReversalElsewhere(t.movements, TransferSource(id), Net(currency));
    }
  }

  lemma StruckSound(t: Treasury, next: Treasury, source: CashSource, m: CashMovement)
    requires SameTerms(t, next) && m in Reverse(t.movements, source) && forall k | k in t.movements :: MovementSound(t, k)
    ensures MovementSound(next, m)
  {
    var i :| 0 <= i < |t.movements| && Reverse(t.movements, source)[i] == m;
    StaysSound(t, next, t.movements[i]);
  }

  lemma UnpostKeeps(t: Treasury, env: Env, id: nat, version: nat)
    requires Sound(t) && Unpost(t, env, id, version).Success?
    ensures Sound(Unpost(t, env, id, version).value)
  {
    var next := Unpost(t, env, id, version).value;
    UnpostShape(t, env, id, version);
    forall m | m in next.movements ensures MovementSound(next, m) {
      StruckSound(t, next, TransferSource(id), m);
    }
    forall other: nat | other < |next.transfers| ensures LegsSound(next, other) && StateSound(next.transfers[other]) {
      UnpostKeepsLegs(t, env, id, version, other);
    }
    forall currency ensures Conserved(next, currency) {
      UnpostConserves(t, env, id, version, currency);
    }
  }

  // ----- the other commands -----

  lemma CancelKeeps(t: Treasury, id: nat, version: nat)
    requires Sound(t) && Cancel(t, id, version).Success?
    ensures Sound(Cancel(t, id, version).value)
  {
    var next := Cancel(t, id, version).value;
    assert OnlyTransfer(t, next, id);
    forall m | m in next.movements ensures MovementSound(next, m) {
      assert MovementSound(t, m);
      StaysSound(t, next, m);
    }
    forall other: nat | other < |next.transfers| ensures LegsSound(next, other) && StateSound(next.transfers[other]) {
      assert LegsSound(t, other);
    }
    forall currency ensures Conserved(next, currency) {
      assert Conserved(t, currency);
      TransitMoves(t, next, id, currency);
    }
  }

  lemma CreateKeeps(t: Treasury, organization: string, date: Date, source: string, destination: string, currency: string,
                    amount: int, twoStep: bool)
    requires Sound(t)
    ensures Sound(Create(t, organization, date, source, destination, currency, amount, twoStep))
  {
    var next := Create(t, organization, date, source, destination, currency, amount, twoStep);
    assert SameTerms(t, next);
    forall m | m in next.movements ensures MovementSound(next, m) {
      assert MovementSound(t, m);
      StaysSound(t, next, m);
    }
    forall other: nat | other < |next.transfers| ensures LegsSound(next, other) && StateSound(next.transfers[other]) {
      if other < |t.transfers| {
        assert LegsSound(t, other);
      } else {
        forall m | m in t.movements ensures LegTerm(other, Inflow)(m) == 0 && LegTerm(other, Outflow)(m) == 0 {
          assert MovementSound(t, m);
        }
        SumZero(t.movements, LegTerm(other, Inflow));
        SumZero(t.movements, LegTerm(other, Outflow));
      }
    }
    forall c ensures Conserved(next, c) {
      assert Conserved(t, c);
      Appended(t.transfers, next.transfers[|t.transfers|], Transit(c));
    }
  }

  lemma OtherRecordKeeps(t: Treasury, input: CashInput)
    requires Sound(t) && input.source.OtherSource? && Record(t, input).Success?
    ensures Sound(Record(t, input).value)
  {
    var next := Record(t, input).value;
    assert SameTerms(t, next);
    forall m | m in next.movements ensures MovementSound(next, m) {
      if m in t.movements {
        assert MovementSound(t, m);
        StaysSound(t, next, m);
      }
    }
    forall other: nat | other < |next.transfers| ensures LegsSound(next, other) && StateSound(next.transfers[other]) {
      assert LegsSound(t, other);
      RecordKeepsOthers(t, input, other);
    }
    forall currency ensures Conserved(next, currency) {
      assert Conserved(t, currency);
      RecordMovesNet(t, input, currency);
    }
  }

  function NetOf(source: CashSource, currency: string): CashMovement -> int {
    (m: CashMovement) => if m.input.source == source then Net(currency)(m) else 0
  }

  lemma OtherReverseKeeps(t: Treasury, source: CashSource)
    requires Sound(t) && source.OtherSource?
    ensures Sound(t.(movements := Reverse(t.movements, source)))
  {
    var next := t.(movements := Reverse(t.movements, source));
    assert SameTerms(t, next);
    forall m | m in next.movements ensures MovementSound(next, m) {
      StruckSound(t, next, source, m);
    }
    forall other: nat | other < |next.transfers| ensures LegsSound(next, other) && StateSound(next.transfers[other]) {
      assert LegsSound(t, other);
      ReversalElsewhere(t.movements, source, LegTerm(other, Inflow));
      ReversalElsewhere(t.movements, source, LegTerm(other, Outflow));
    }
    forall currency ensures Conserved(next, currency) {
      assert Conserved(t, currency);
      Reversal(t.movements, source, Net(currency), NetOf(source, currency));
      Reversal(t.movements, source, OtherNet(currency), NetOf(source, currency));
    }
  }

  // ----- runs -----

  lemma StepKeeps(t: Treasury, env: Env, command: Command)
    requires Sound(t)
    ensures Sound(Step(t, env, command)) && Step(t, env, command).desks == t.desks
  {
    match command
    case CreateCommand(organization, date, source, destination, currency, amount, twoStep) =>
      CreateKeeps(t, organization, date, source, destination, currency, amount, twoStep);
    case PostCommand(id, version) =>
      if Post(t, env, id, version).Success? { PostKeeps(t, env, id, version); PostShape(t, env, id, version); }
    case UnpostCommand(id, version) =>
      if Unpost(t, env, id, version).Success? { UnpostKeeps(t, env, id, version); UnpostShape(t, env, id, version); }
    case CancelCommand(id, version) =>
      if Cancel(t, id, version).Success? { CancelKeeps(t, id, version); }
    case ReceiveCommand(organization, id, amount, today) =>
      if Receive(t, organization, id, amount, today).Success? {
        ReceiveKeeps(t, organization, id, amount, today);
        ReceiveShape(t, organization, id, amount, today);
      }
    case OtherRecord(input) =>
      if input.source.OtherSource? && Record(t, input).Success? { OtherRecordKeeps(t, input); }
    case OtherReverse(source) =>
      if source.OtherSource? { OtherReverseKeeps(t, source); }
  }

  lemma {:induction false} RunKeeps(t: Treasury, steps: seq<(Env, Command)>)
    requires Sound(t)
    ensures Sound(Run(t, steps)) && Run(t, steps).desks == t.desks
    decreases |steps|
  {
    if steps != [] {
      StepKeeps(t, steps[0].0, steps[0].1);
      RunKeeps(Step(t, steps[0].0, steps[0].1), steps[1..]);
    }
  }
}
