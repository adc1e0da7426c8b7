// Desk balances: what transfers leave unchanged in total, and when a desk that must never be negative stays so.
module CashBalances {
  import opened Wrappers
  import opened Seqs
  import Documents
  import Ledger
  import opened CashTransfers
  import opened CashTransfersInvariant

  ghost predicate DistinctDesks(desks: seq<Desk>) {
    forall i, j | 0 <= i < j < |desks| :: desks[i].id != desks[j].id
  }

  function DeskBalance(movements: seq<CashMovement>, currency: string): Desk -> int {
    (desk: Desk) => Balance(movements, desk.id, currency)
  }

  /** All the cash of a currency that lies in some desk. */
  function TotalBalance(t: Treasury, currency: string): int {
    SumBy(t.desks, DeskBalance(t.movements, currency))
  }

  function InTransitTotal(t: Treasury, currency: string): int {
    SumBy(t.transfers, Transit(currency))
  }

  // ----- desks hold all the movements -----

  /** A movement's signed amount, as one desk sees it. */
  function AtDesk(m: CashMovement, currency: string): Desk -> int {
    (desk: Desk) => if m.input.desk == desk.id then Net(currency)(m) else 0
  }

  lemma {:induction false} OneDeskSees(desks: seq<Desk>, m: CashMovement, currency: string)
    requires DistinctDesks(desks)
    ensures SumBy(desks, AtDesk(m, currency)) == if FindDesk(desks, m.input.desk).Some? then Net(currency)(m) else 0
  {
    if desks != [] {
      if desks[0].id == m.input.desk {
        forall desk | desk in desks[1..] ensures AtDesk(m, currency)(desk) == 0 {
          var j :| 0 <= j < |desks[1..]| && desks[1..][j] == desk;
          assert desks[j + 1].id != desks[0].id;
        }
        SumZero(desks[1..], AtDesk(m, currency));
      } else {
        OneDeskSees(desks[1..], m, currency);
      }
    }
  }

  lemma {:induction false} DesksHoldAll(desks: seq<Desk>, movements: seq<CashMovement>, currency: string)
    requires DistinctDesks(desks) && forall m | m in movements :: FindDesk(desks, m.input.desk).Some?
    ensures SumBy(desks, DeskBalance(movements, currency)) == SumBy(movements, Net(currency))
  {
    if movements == [] {
      SumZero(desks, DeskBalance(movements, currency));
    } else {
      var rest := movements[1..];
      DesksHoldAll(desks, rest, currency);
      OneDeskSees(desks, movements[0], currency);
      SumLinear(desks, DeskBalance(rest, currency), AtDesk(movements[0], currency), 1, DeskBalance(movements, currency));
    }
  }

  // ----- conservation -----

  /** What desks hold and what is under way add up to what other documents have brought in, in every run. */
  lemma CashIsConserved(desks: seq<Desk>, steps: seq<(Env, Command)>, currency: string)
    requires DistinctDesks(desks)
    ensures var t := Run(Treasury(desks, [], []), steps);
      TotalBalance(t, currency) + InTransitTotal(t, currency) == SumBy(t.movements, OtherNet(currency))
  {
    var start := Treasury(desks, [], []);
    assert Sound(start);
    RunKeeps(start, steps);
    var t := Run(start, steps);
    assert Conserved(t, currency);
    forall m | m in t.movements ensures FindDesk(t.desks, m.input.desk).Some? {
      assert MovementSound(t, m);
    }
    DesksHoldAll(t.desks, t.movements, currency);
  }

  predicate TransferCommand(command: Command) {
    !command.OtherRecord? && !command.OtherReverse?
  }

  lemma TransfersLeaveOthers(t: Treasury, env: Env, command: Command, currency: string)
    requires Sound(t) && TransferCommand(command)
    ensures SumBy(Step(t, env, command).movements, OtherNet(currency)) == SumBy(t.movements, OtherNet(currency))
  {
    match command
    case CreateCommand(_, _, _, _, _, _, _) =>
    case CancelCommand(_, _) =>
    case PostCommand(id, version) =>
      if Post(t, env, id, version).Success? {
        PostShape(t, env, id, version);
        RecordMovesNet(t, OutLeg(t, id), currency);
        if !t.transfers[id].twoStep {
          RecordMovesNet(Record(t, OutLeg(t, id)).value, InLeg(t, id), currency);
        }
      }
    case UnpostCommand(id, version) =>
      ReversalElsewhere(t.movements, TransferSource(id), OtherNet(currency));
    case ReceiveCommand(organization, id, amount, today) =>
      if Receive(t, organization, id, amount, today).Success? {
        ReceiveShape(t, organization, id, amount, today);
        RecordMovesNet(t, Arrival(t, id, amount, today), currency);
      }
  }

  lemma {:induction false} OthersStay(t: Treasury, steps: seq<(Env, Command)>, currency: string)
    requires Sound(t) && forall step | step in steps :: TransferCommand(step.1)
    ensures SumBy(Run(t, steps).movements, OtherNet(currency)) == SumBy(t.movements, OtherNet(currency))
    decreases |steps|
  {
    if steps != [] {
      assert steps[0] in steps;
      StepKeeps(t, steps[0].0, steps[0].1);
      TransfersLeaveOthers(t, steps[0].0, steps[0].1, currency);
      OthersStay(Step(t, steps[0].0, steps[0].1), steps[1..], currency);
    }
  }

  /** Creating, posting, unposting, cancelling and receiving transfers never changes desk balances plus what is
      under way, currency by currency. */
  lemma TransfersConserve(t: Treasury, steps: seq<(Env, Command)>, currency: string)
    requires Sound(t) && DistinctDesks(t.desks) && forall step | step in steps :: TransferCommand(step.1)
    ensures var later := Run(t, steps);
      TotalBalance(later, currency) + InTransitTotal(later, currency) == TotalBalance(t, currency) + InTransitTotal(t, currency)
  {
    var later := Run(t, steps);
    RunKeeps(t, steps);
    OthersStay(t, steps, currency);
    assert Conserved(t, currency) && Conserved(later, currency);
    forall m | m in t.movements ensures FindDesk(t.desks, m.input.desk).Some? { assert MovementSound(t, m); }
    forall m | m in later.movements ensures FindDesk(t.desks, m.input.desk).Some? { assert MovementSound(later, m); }
    DesksHoldAll(t.desks, t.movements, currency);
    DesksHoldAll(t.desks, later.movements, currency);
  }

  /** In every reachable state: what a transfer counts as received is its live inflow, never more than a cent over
      its amount, and once RECEIVED within a cent of it; nothing is out unless it is posted. */
  lemma ReceivedIsInflow(desks: seq<Desk>, steps: seq<(Env, Command)>, id: nat)
    requires id < |Run(Treasury(desks, [], []), steps).transfers|
    ensures var t := Run(Treasury(desks, [], []), steps);
      var x := t.transfers[id];
      && x.received == SumBy(t.movements, LegTerm(id, Inflow)) && 0 <= x.received
      && SumBy(t.movements, LegTerm(id, Outflow)) == (if Posted(x) then x.amount else 0)
      && (Posted(x) ==> x.received <= x.amount + 1)
      && (x.state.Received? ==> -1 <= x.amount - x.received <= 1)
      && (x.state.Received? && !x.twoStep ==> x.received == x.amount)
      && (!Posted(x) ==> x.received == 0)
  {
    var start := Treasury(desks, [], []);
    assert Sound(start);
    RunKeeps(start, steps);
    assert LegsSound(Run(start, steps), id);
  }

  // ----- a posting undone -----

  /** Signed live movements of one desk. */
  function DeskNet(desk: string, currency: string): CashMovement -> int {
    (m: CashMovement) => if m.input.desk == desk && m.input.currency == currency then Signed(m) else 0
  }

  lemma BalanceIsNet(movements: seq<CashMovement>, desk: string, currency: string)
    ensures Balance(movements, desk, currency) == SumBy(movements, DeskNet(desk, currency))
  {
    SumLinear(movements, Flow(desk, currency, Inflow), Flow(desk, currency, Outflow), -1, DeskNet(desk, currency));
  }

  lemma RecordMovesBalance(t: Treasury, input: CashInput, desk: string, currency: string)
    requires Record(t, input).Success?
    ensures Balance(Record(t, input).value.movements, desk, currency) == Balance(t.movements, desk, currency) +
      (if input.desk != desk || input.currency != currency then 0 else if input.direction.Inflow? then input.amount else -input.amount)
  {
    Appended(t.movements, CashMovement(input, false), Flow(desk, currency, Inflow));
    Appended(t.movements, CashMovement(input, false), Flow(desk, currency, Outflow));
  }

  /** What a transfer's live legs contribute to a desk. */
  function LegsAt(x: Transfer, desk: string, currency: string): int {
    if currency != x.currency || !Posted(x) then 0
    else (if desk == x.destination then x.received else 0) - (if desk == x.source then x.amount else 0)
  }

  function LegsAtDesk(id: nat, x: Transfer, desk: string): CashMovement -> int {
    (m: CashMovement) =>
      (if desk == x.destination then LegTerm(id, Inflow)(m) else 0) - (if desk == x.source then LegTerm(id, Outflow)(m) else 0)
  }

  lemma LegsAtDeskSum(t: Treasury, id: nat, desk: string)
    requires id < |t.transfers| && LegsSound(t, id) && Posted(t.transfers[id])
    ensures SumBy(t.movements, LegsAtDesk(id, t.transfers[id], desk)) == LegsAt(t.transfers[id], desk, t.transfers[id].currency)
  {
    var x := t.transfers[id];
    var a := if desk == x.destination then 1 else 0;
    var b := if desk == x.source then 1 else 0;
    SumZero(t.movements, Nothing());
    var into := (m: CashMovement) => if desk == x.destination then LegTerm(id, Inflow)(m) else 0;
    SumLinear(t.movements, Nothing(), LegTerm(id, Inflow), a, into);
    SumLinear(t.movements, into, LegTerm(id, Outflow), -b, LegsAtDesk(id, x, desk));
  }

  lemma LegsStruck(t: Treasury, id: nat, desk: string)
    requires Sound(t) && id < |t.transfers| && Posted(t.transfers[id])
    ensures var x := t.transfers[id];
      SumBy(Reverse(t.movements, TransferSource(id)), DeskNet(desk, x.currency))
        == SumBy(t.movements, DeskNet(desk, x.currency)) - LegsAt(x, desk, x.currency)
  {
    assert LegsSound(t, id);
    var x := t.transfers[id];
    LegsAtDeskSum(t, id, desk);
    forall m | m in t.movements
      ensures DeskNet(desk, x.currency)(Struck(m, TransferSource(id))) == DeskNet(desk, x.currency)(m) - LegsAtDesk(id, x, desk)(m)
    {
      assert MovementSound(t, m);
    }
    Reversal(t.movements, TransferSource(id), DeskNet(desk, x.currency), LegsAtDesk(id, x, desk));
  }

  /** Unposting takes exactly the transfer's own legs off every desk. */
  lemma UnpostMovesBalance(t: Treasury, env: Env, id: nat, version: nat, desk: string, currency: string)
    requires Sound(t) && Unpost(t, env, id, version).Success?
    ensures id < |t.transfers|
    ensures Balance(Unpost(t, env, id, version).value.movements, desk, currency)
         == Balance(t.movements, desk, currency) - LegsAt(t.transfers[id], desk, currency)
  {
    UnpostShape(t, env, id, version);
    assert LegsSound(t, id);
    BalanceIsNet(t.movements, desk, currency);
    BalanceIsNet(Reverse(t.movements, TransferSource(id)), desk, currency);
    if currency == t.transfers[id].currency {
      LegsStruck(t, id, desk);
    } else {
      forall m | m in t.movements
        ensures DeskNet(desk, currency)(Struck(m, TransferSource(id))) == DeskNet(desk, currency)(m)
      {
        assert MovementSound(t, m);
      }
      ReversalElsewhere(t.movements, TransferSource(id), DeskNet(desk, currency));
    }
  }

  lemma PostMovesBalance(t: Treasury, env: Env, id: nat, version: nat, desk: string, currency: string)
    requires Post(t, env, id, version).Success?
    ensures var next := Post(t, env, id, version).value;
      && id < |t.transfers| && id < |next.transfers|
      && (t.transfers[id].received == 0 ==>
            Balance(next.movements, desk, currency) == Balance(t.movements, desk, currency) + LegsAt(next.transfers[id], desk, currency))
  {
    PostShape(t, env, id, version);
    RecordMovesBalance(t, OutLeg(t, id), desk, currency);
    if !t.transfers[id].twoStep {
      RecordMovesBalance(Record(t, OutLeg(t, id)).value, InLeg(t, id), desk, currency);
    }
  }

  /** Posting a transfer and unposting it at once restores the balance of every desk in every currency. */
  lemma PostThenUnpostRestores(t: Treasury, env: Env, id: nat, version: nat, again: nat, desk: string, currency: string)
    requires Sound(t) && Post(t, env, id, version).Success?
    requires Unpost(Post(t, env, id, version).value, env, id, again).Success?
    ensures Balance(Unpost(Post(t, env, id, version).value, env, id, again).value.movements, desk, currency)
         == Balance(t.movements, desk, currency)
  {
    PostShape(t, env, id, version);
    PostKeeps(t, env, id, version);
    assert LegsSound(t, id);
    PostMovesBalance(t, env, id, version, desk, currency);
    UnpostMovesBalance(Post(t, env, id, version).value, env, id, again, desk, currency);
  }

  // ----- desks that must never be negative -----

  ghost predicate Covered(t: Treasury, desk: Desk, currency: string) {
    desk.neverNegative ==> Balance(t.movements, desk.id, currency) >= 0
  }

  ghost predicate Solvent(t: Treasury) {
    forall desk, currency {:trigger Covered(t, desk, currency)} | desk in t.desks :: Covered(t, desk, currency)
  }

  lemma {:induction false} FindsItself(desks: seq<Desk>, desk: Desk)
    requires DistinctDesks(desks) && desk in desks
    ensures FindDesk(desks, desk.id) == Some(desk)
  {
    if desks[0] != desk {
      var j :| 0 <= j < |desks| && desks[j] == desk;
      assert desks[0].id != desks[j].id && desks[1..][j - 1] == desk;
      FindsItself(desks[1..], desk);
    }
  }

  lemma RecordKeepsSolvent(t: Treasury, input: CashInput)
    requires DistinctDesks(t.desks) && Solvent(t) && Record(t, input).Success?
    ensures Solvent(Record(t, input).value)
  {
    var next := Record(t, input).value;
    forall desk, currency | desk in next.desks ensures Covered(next, desk, currency) {
      assert Covered(t, desk, currency);
      RecordMovesBalance(t, input, desk.id, currency);
      FindsItself(t.desks, desk);
    }
  }

  lemma PostKeepsSolvent(t: Treasury, env: Env, id: nat, version: nat)
    requires DistinctDesks(t.desks) && Solvent(t) && Post(t, env, id, version).Success?
    ensures Solvent(Post(t, env, id, version).value)
  {
    PostShape(t, env, id, version);
    var next := Post(t, env, id, version).value;
    var out := Record(t, OutLeg(t, id)).value;
    RecordKeepsSolvent(t, OutLeg(t, id));
    if !t.transfers[id].twoStep {
      RecordKeepsSolvent(out, InLeg(t, id));
    }
    var recorded := if t.transfers[id].twoStep then out else Record(out, InLeg(t, id)).value;
    forall desk, currency | desk in next.desks ensures Covered(next, desk, currency) {
      assert Covered(recorded, desk, currency);
    }
  }

  /** The balance check is made when a movement is recorded and not when one is reversed. So unposting keeps every
      such desk from going negative exactly when the destination still holds what it received. */
  lemma UnpostKeepsSolventIff(t: Treasury, env: Env, id: nat, version: nat, destination: Desk)
    requires Sound(t) && DistinctDesks(t.desks) && Solvent(t) && Unpost(t, env, id, version).Success?
    requires id < |t.transfers| && FindDesk(t.desks, t.transfers[id].destination) == Some(destination)
    ensures Solvent(Unpost(t, env, id, version).value) <==>
      destination.neverNegative ==> Balance(t.movements, destination.id, t.transfers[id].currency) >= t.transfers[id].received
  {
    var next := Unpost(t, env, id, version).value;
    var x := t.transfers[id];
    UnpostShape(t, env, id, version);
    assert LegsSound(t, id);
    UnpostMovesBalance(t, env, id, version, destination.id, x.currency);
    if Solvent(next) {
      assert Covered(next, destination, x.currency);
    }
    if destination.neverNegative ==> Balance(t.movements, destination.id, x.currency) >= x.received {
      forall desk, currency | desk in next.desks ensures Covered(next, desk, currency) {
        assert Covered(t, desk, currency);
        UnpostMovesBalance(t, env, id, version, desk.id, currency);
        FindsItself(t.desks, desk);
      }
    }
  }

  /** What the live movements of a source contribute to a desk. */
  function SourceNet(source: CashSource, desk: string, currency: string): CashMovement -> int {
    (m: CashMovement) => if m.input.source == source then DeskNet(desk, currency)(m) else 0
  }

  lemma ReverseMovesBalance(movements: seq<CashMovement>, source: CashSource, desk: string, currency: string)
    ensures Balance(Reverse(movements, source), desk, currency)
         == Balance(movements, desk, currency) - SumBy(movements, SourceNet(source, desk, currency))
  {
    BalanceIsNet(movements, desk, currency);
    BalanceIsNet(Reverse(movements, source), desk, currency);
    Reversal(movements, source, DeskNet(desk, currency), SourceNet(source, desk, currency));
  }

  /** The desk still holds what the source brought in. */
  ghost predicate StillHolds(t: Treasury, source: CashSource, desk: Desk, currency: string) {
    desk.neverNegative ==> Balance(t.movements, desk.id, currency) >= SumBy(t.movements, SourceNet(source, desk.id, currency))
  }

  predicate LiveAt(m: CashMovement, source: CashSource, desk: Desk, currency: string) {
    m.input.source == source && !m.reversed && m.input.desk == desk.id && m.input.currency == currency
  }

  ghost predicate MovedAt(t: Treasury, source: CashSource, desk: Desk, currency: string) {
    exists m :: m in t.movements && LiveAt(m, source, desk, currency)
  }

  lemma NothingMovedNothingHeld(t: Treasury, source: CashSource, desk: Desk, currency: string)
    requires !MovedAt(t, source, desk, currency)
    ensures SumBy(t.movements, SourceNet(source, desk.id, currency)) == 0
  {
    forall m | m in t.movements ensures SourceNet(source, desk.id, currency)(m) == 0 {
      assert !LiveAt(m, source, desk, currency);
      assert m.input.source == source && m.input.desk == desk.id && m.input.currency == currency ==> Signed(m) == 0;
      assert DeskNet(desk.id, currency)(m) == if m.input.desk == desk.id && m.input.currency == currency then Signed(m) else 0;
    }
    SumZero(t.movements, SourceNet(source, desk.id, currency));
  }

  /** Likewise for any other document: reversing its movements keeps such desks from going negative exactly when every one
      it has live movements at still holds what these brought in. */
  lemma ReverseKeepsSolventIff(t: Treasury, env: Env, source: CashSource)
    requires Solvent(t) && source.OtherSource?
    ensures Solvent(Step(t, env, OtherReverse(source))) <==>
      forall desk, currency | desk in t.desks && MovedAt(t, source, desk, currency) :: StillHolds(t, source, desk, currency)
  {
    var next := Step(t, env, OtherReverse(source));
    forall desk, currency | desk in t.desks
      ensures Covered(next, desk, currency) <==> MovedAt(t, source, desk, currency) ==> StillHolds(t, source, desk, currency)
    {
      assert Covered(t, desk, currency);
      ReverseMovesBalance(t.movements, source, desk.id, currency);
      if !MovedAt(t, source, desk, currency) { NothingMovedNothingHeld(t, source, desk, currency); }
    }
  }

  predicate Undoes(command: Command) {
    command.UnpostCommand? || command.OtherReverse?
  }

  lemma StepKeepsSolvent(t: Treasury, env: Env, command: Command)
    requires Sound(t) && DistinctDesks(t.desks) && Solvent(t) && !Undoes(command)
    ensures Solvent(Step(t, env, command))
  {
    var next := Step(t, env, command);
    if command.PostCommand? {
      if Post(t, env, command.id, command.version).Success? { PostKeepsSolvent(t, env, command.id, command.version); }
    } else if command.ReceiveCommand? {
      if Receive(t, command.receiver, command.id, command.arrived, command.today).Success? {
        ReceiveShape(t, command.receiver, command.id, command.arrived, command.today);
        var recorded := Record(t, Arrival(t, command.id, command.arrived, command.today)).value;
        RecordKeepsSolvent(t, Arrival(t, command.id, command.arrived, command.today));
        forall desk, currency | desk in next.desks ensures Covered(next, desk, currency) {
          assert Covered(recorded, desk, currency);
        }
      }
    } else if command.OtherRecord? {
      if command.input.source.OtherSource? && Record(t, command.input).Success? { RecordKeepsSolvent(t, command.input); }
    } else {
      forall desk, currency | desk in next.desks ensures Covered(next, desk, currency) {
        assert Covered(t, desk, currency);
      }
    }
  }

  /** As long as nothing is unposted or reversed, no such desk goes negative. */
  lemma {:induction false} RunKeepsSolvent(t: Treasury, steps: seq<(Env, Command)>)
    requires Sound(t) && DistinctDesks(t.desks) && Solvent(t) && forall step | step in steps :: !Undoes(step.1)
    ensures Solvent(Run(t, steps))
    decreases |steps|
  {
    if steps != [] {
      assert steps[0] in steps;
      StepKeepsSolvent(t, steps[0].0, steps[0].1);
      StepKeeps(t, steps[0].0, steps[0].1);
      RunKeepsSolvent(Step(t, steps[0].0, steps[0].1), steps[1..]);
    }
  }

  // ----- the desk that was emptied in between -----

  const ENV := Ledger.Env(map[], [], [], (organization: string, date: Date) => true)
  const DESKS := [Desk("A", "AZN", false, true), Desk("B", "AZN", false, true)]
  const RECEIPT := CashInput("A", "AZN", Inflow, 100, OtherSource("CASH_RECEIPT", "1"), 0)
  const EXPENSE := CashInput("B", "AZN", Outflow, 100, OtherSource("CASH_EXPENSE", "1"), 0)

  const DRAFT := CreateCommand("O", 0, "A", "B", "AZN", 100, false)
  const START := Treasury(DESKS, [], [])
  const FUNDED := Step(START, ENV, OtherRecord(RECEIPT))
  const DRAWN_UP := Step(FUNDED, ENV, DRAFT)
  const MOVED := Step(DRAWN_UP, ENV, PostCommand(0, 1))
  const SPENT := Step(MOVED, ENV, OtherRecord(EXPENSE))

  lemma DesksFound()
    ensures FindDesk(DESKS, "A") == Some(DESKS[0]) && FindDesk(DESKS, "B") == Some(DESKS[1])
  {
    assert DESKS[1..][0] == DESKS[1];
  }

  lemma FundedState()
    ensures FUNDED.desks == DESKS && FUNDED.transfers == []
    ensures Balance(FUNDED.movements, "A", "AZN") == 100 && Balance(FUNDED.movements, "B", "AZN") == 0
  {
    DesksFound();
    assert Record(START, RECEIPT).Success?;
    RecordMovesBalance(START, RECEIPT, "A", "AZN");
    RecordMovesBalance(START, RECEIPT, "B", "AZN");
  }

  lemma MovedState()
    ensures MOVED.desks == DESKS && |MOVED.transfers| == 1 && Post(DRAWN_UP, ENV, 0, 1) == Success(MOVED)
    ensures var x := MOVED.transfers[0];
      Posted(x) && x.received == 100 && x.document.version == 2 && x.destination == "B" && x.currency == "AZN" && !x.twoStep
    ensures Balance(MOVED.movements, "B", "AZN") == 100
  {
    FundedState();
    DesksFound();
    var out := Record(DRAWN_UP, OutLeg(DRAWN_UP, 0));
    assert out.Success?;
    assert Record(out.value, InLeg(DRAWN_UP, 0)).Success?;
    PostMovesBalance(DRAWN_UP, ENV, 0, 1, "B", "AZN");
  }

  lemma SpentState()
    ensures SPENT.desks == DESKS && SPENT.transfers == MOVED.transfers && Balance(SPENT.movements, "B", "AZN") == 0
  {
    MovedState();
    DesksFound();
    assert Record(MOVED, EXPENSE).Success?;
    RecordMovesBalance(MOVED, EXPENSE, "B", "AZN");
  }

  /** The exception in numbers: 100 cents arrive in A, are transferred to B and spent there. Unposting the transfer
      succeeds and leaves B, which must never be negative, 100 cents short. */
  lemma UnpostOverdraws()
    ensures Sound(SPENT) && Solvent(SPENT) && Unpost(SPENT, ENV, 0, 2).Success?
    ensures Balance(Unpost(SPENT, ENV, 0, 2).value.movements, "B", "AZN") == -100
  {
    assert Sound(START) && Solvent(START);
    StepKeeps(START, ENV, OtherRecord(RECEIPT));
    StepKeepsSolvent(START, ENV, OtherRecord(RECEIPT));
    StepKeeps(FUNDED, ENV, DRAFT);
    StepKeepsSolvent(FUNDED, ENV, DRAFT);
    StepKeeps(DRAWN_UP, ENV, PostCommand(0, 1));
    StepKeepsSolvent(DRAWN_UP, ENV, PostCommand(0, 1));
    StepKeeps(MOVED, ENV, OtherRecord(EXPENSE));
    StepKeepsSolvent(MOVED, ENV, OtherRecord(EXPENSE));
    MovedState();
    SpentState();
    UnpostMovesBalance(SPENT, ENV, 0, 2, "B", "AZN");
  }
}
