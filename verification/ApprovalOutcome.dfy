// What a document's approval status says about its steps and the plan in force, and when it is final.
module ApprovalOutcome {
  import opened Wrappers
  import opened Seqs
  import opened Approvals
  import opened ApprovalsInvariant

  ghost predicate HasSteps(office: Office, key: DocumentKey) {
    exists s :: s in office.steps && s.document == key
  }

  ghost predicate SomeStep(office: Office, key: DocumentKey, status: StepStatus) {
    exists s :: s in office.steps && s.document == key && s.status == status
  }

  ghost predicate AllCleared(office: Office, key: DocumentKey) {
    forall s | s in office.steps && s.document == key :: Cleared(s)
  }

  /** Some step of the document has not been passed over. */
  ghost predicate SomeCounts(office: Office, key: DocumentKey) {
    exists s :: s in office.steps && s.document == key && !s.status.Skipped?
  }

  ghost predicate AllSkipped(plan: seq<PlanItem>) {
    forall item | item in plan :: item.skipped
  }

  /** The status called for by a document's steps and the plan in force: refused by one rejection, approved when all is
      cleared and something was approved. */
  ghost function StatusOf(office: Office, key: DocumentKey, plan: seq<PlanItem>): ApprovalStatus {
    if plan == [] then NotRequired
    else if SomeStep(office, key, Rejected) then Refused
    else if AllCleared(office, key) && SomeStep(office, key, Approved) then FullyApproved
    else AwaitingApproval
  }

  /** The document and its steps are what the plan in force and the decisions so far have made of them. */
  ghost predicate Told(office: Office, key: DocumentKey, plan: seq<PlanItem>)
    requires key in office.documents
  {
    && office.documents[key].approvalStatus == StatusOf(office, key, plan)
    && (SomeCounts(office, key) <==> !AllSkipped(plan))
    && (plan != [] ==> HasSteps(office, key))
  }

  /** The steps of a document are the same rows in both. */
  ghost predicate SameSteps(office: Office, next: Office, key: DocumentKey) {
    forall s: ApprovalStep | s.document == key :: s in office.steps <==> s in next.steps
  }

  lemma SameStepsSameStatus(office: Office, next: Office, key: DocumentKey, plan: seq<PlanItem>)
    requires SameSteps(office, next, key) && key in office.documents && key in next.documents
    requires office.documents[key].approvalStatus == next.documents[key].approvalStatus
    ensures Told(office, key, plan) <==> Told(next, key, plan)
  {
    assert HasSteps(office, key) <==> HasSteps(next, key);
    assert SomeCounts(office, key) <==> SomeCounts(next, key);
    assert forall status :: SomeStep(office, key, status) <==> SomeStep(next, key, status);
  }

  // ----- planning -----

  lemma PlannedIn(office: Office, key: DocumentKey, plan: seq<PlanItem>, now: int, i: nat)
    requires key in office.documents && i < |plan|
    ensures var s := PlannedSteps(key, plan, office.nextId, now)[i];
      s in PlanSteps(office, key, plan, now).steps && s.document == key && (s.status.Skipped? <==> plan[i].skipped)
  {}

  /** A document with nothing but skipped steps, once a plan is made for it. */
  lemma PlannedIsTold(office: Office, key: DocumentKey, plan: seq<PlanItem>, now: int)
    requires key in office.documents && OnlySkipped(office, key)
    ensures Told(PlanSteps(office, key, plan, now), key, plan)
  {
    var next := PlanSteps(office, key, plan, now);
    forall s | s in next.steps && s.document == key
      ensures s.status.Pending? || s.status.Skipped?
      ensures s.status.Pending? ==> !AllSkipped(plan)
    {
      if s !in office.steps {
        var i := Planned(key, plan, office.nextId, now, s);
        assert plan[i] in plan;
      }
    }
    if plan != [] {
      PlannedIn(office, key, plan, now, 0);
    }
    if !AllSkipped(plan) {
      var i: nat :| i < |plan| && !plan[i].skipped;
      PlannedIn(office, key, plan, now, i);
    }
  }

  lemma PlanningLeavesOthers(office: Office, key: DocumentKey, plan: seq<PlanItem>, now: int, other: DocumentKey)
    requires key in office.documents && other != key
    ensures SameSteps(office, PlanSteps(office, key, plan, now), other)
  {
    forall s: ApprovalStep | s.document == other && s in PlanSteps(office, key, plan, now).steps ensures s in office.steps {
      if s !in office.steps {
        var i := Planned(key, plan, office.nextId, now, s);
      }
    }
  }

  lemma WithoutPendingLeavesOthers(office: Office, key: DocumentKey, other: DocumentKey)
    requires other != key
    ensures SameSteps(office, WithoutPending(office, key), other)
  {
    forall s: ApprovalStep | s.document == other && s in office.steps ensures s in WithoutPending(office, key).steps {
      assert Except(PendingOf(key))(s);
    }
  }

  // ----- deciding -----

  lemma OtherDocumentsKeepSteps(office: Office, s: ApprovalStep, user: string, approve: bool, key: DocumentKey)
    requires Sound(office) && Deciding(office, s.document, user, s) && key != s.document
    ensures SameSteps(office, After(office, s, user, approve), key)
  {
    var next := After(office, s, user, approve);
    forall x: ApprovalStep | x.document == key ensures x in office.steps <==> x in next.steps {
      if x in office.steps {
        var i :| 0 <= i < |office.steps| && office.steps[i] == x;
        if x.id == s.id { SameIdSameStep(office, x, s); }
        assert next.steps[i] == x;
      }
      if x in next.steps {
        var a := Origin(office, s, user, approve, x);
        if a.id == s.id { SameIdSameStep(office, a, s); }
      }
    }
  }

  lemma DecidedStepIn(office: Office, s: ApprovalStep, user: string, approve: bool)
    requires Sound(office) && Deciding(office, s.document, user, s)
    ensures SomeStep(After(office, s, user, approve), s.document, if approve then Approved else Rejected)
    ensures HasSteps(After(office, s, user, approve), s.document) && SomeCounts(After(office, s, user, approve), s.document)
  {
    var next := After(office, s, user, approve);
    var i :| 0 <= i < |office.steps| && office.steps[i] == s;
    assert next.steps[i] in next.steps && next.steps[i] == Outcome(s, user, approve)(s);
  }

  /** Beside the step being decided, a document has only cleared and pending steps. */
  lemma NothingRejectedYet(office: Office, s: ApprovalStep, a: ApprovalStep)
    requires Sound(office) && IsEarliest(office.steps, s.document, s)
    requires a in office.steps && a.document == s.document
    ensures Cleared(a) || a.status.Pending?
  {
    assert PendingOf(s.document)(s);
    if a != s { AroundEarliest(office, s, a); }
  }

  lemma StatusBeforeDecision(office: Office, s: ApprovalStep, user: string, plan: seq<PlanItem>)
    requires Sound(office) && Deciding(office, s.document, user, s) && plan != []
    ensures StatusOf(office, s.document, plan) == AwaitingApproval
  {
    assert PendingOf(s.document)(s);
    forall a | a in office.steps && a.document == s.document ensures !a.status.Rejected? {
      NothingRejectedYet(office, s, a);
    }
    assert !Cleared(s);
  }

  lemma StepsAfterApproval(office: Office, s: ApprovalStep, user: string, x: ApprovalStep)
    requires Sound(office) && Deciding(office, s.document, user, s)
    requires x in After(office, s, user, true).steps && x.document == s.document
    ensures Cleared(x) || PendingOf(s.document)(x)
  {
    var a := Origin(office, s, user, true, x);
    NothingRejectedYet(office, s, a);
  }

  lemma ApprovalOutcomes(office: Office, s: ApprovalStep, user: string)
    requires Sound(office) && Deciding(office, s.document, user, s)
    ensures var next, key := After(office, s, user, true), s.document;
      && !SomeStep(next, key, Rejected)
      && (Filter(next.steps, PendingOf(key)) == [] <==> AllCleared(next, key))
  {
    var next, key := After(office, s, user, true), s.document;
    var pending := Filter(next.steps, PendingOf(key));
    forall x | x in next.steps && x.document == key ensures !x.status.Rejected? && (pending == [] ==> Cleared(x)) {
      StepsAfterApproval(office, s, user, x);
      assert PendingOf(key)(x) ==> x in pending;
    }
    if pending != [] {
      assert pending[0] in pending && PendingOf(key)(pending[0]);
      assert !Cleared(pending[0]);
    }
  }

  lemma DecidedIsTold(office: Office, s: ApprovalStep, user: string, approve: bool, plan: seq<PlanItem>)
    requires Sound(office) && Deciding(office, s.document, user, s) && Told(office, s.document, plan)
    ensures Told(After(office, s, user, approve), s.document, plan)
  {
    assert PendingOf(s.document)(s);
    assert SomeCounts(office, s.document);
    DecidedStepIn(office, s, user, approve);
    if approve {
      ApprovalOutcomes(office, s, user);
      StatusBeforeDecision(office, s, user, plan);
    }
  }

  // ----- runs -----

  /** A successful decision, as what it does to the step acted on. */
  lemma DecisionIsAfter(office: Office, registered: seq<string>, resolver: Resolver, organization: string, key: DocumentKey,
                        user: string, approve: bool) returns (s: ApprovalStep)
    requires Sound(office)
    requires Decide(office, registered, resolver, organization, key, user, approve).Success?
    ensures Deciding(office, key, user, s) && s.document == key && Actionable(office.steps, key) == Some(s)
    ensures Decide(office, registered, resolver, organization, key, user, approve).value == After(office, s, user, approve)
  {
    s := DecisionStarts(office, registered, resolver, organization, key, user, approve);
    DecidedSteps(office, registered, resolver, organization, key, user, approve, s);
    assert PendingOf(key)(s);
  }

  /** Whether the move replaces the document's plan. */
  ghost predicate Plans(office: Office, move: Move, key: DocumentKey) {
    && !move.DecideMove? && move.key == key && key.documentType in move.registered
    && if move.CreateMove? then key !in office.documents else key in office.documents && !SomeDecided(office, key)
  }

  /** The plan that was made last for the document. */
  ghost function InForce(office: Office, moves: seq<Move>, key: DocumentKey, plan: seq<PlanItem>): seq<PlanItem>
    decreases |moves|
  {
    if moves == [] then plan
    else InForce(Advance(office, moves[0]), moves[1..], key, if Plans(office, moves[0], key) then moves[0].plan else plan)
  }

  lemma PlanningIsTold(office: Office, move: Move, key: DocumentKey)
    requires Sound(office) && Plans(office, move, key)
    ensures key in Advance(office, move).documents && Told(Advance(office, move), key, move.plan)
  {
    DecidedIff(office, key);
    if move.CreateMove? {
      NewDocumentKeeps(office, key, move.document);
      PlannedIsTold(WithDocument(office, key, move.document), key, move.plan, move.now);
    } else {
      UndecidedLeavesSkipped(office, key);
      PlannedIsTold(WithoutPending(office, key), key, move.plan, move.now);
    }
  }

  /** The move is a decision on the document that goes through. */
  ghost predicate Decides(office: Office, move: Move, key: DocumentKey) {
    move.DecideMove? && move.key == key && Attempt(office, move).Success?
  }

  /** Every other move leaves the document and its steps alone. */
  lemma OtherwiseUntouched(office: Office, move: Move, key: DocumentKey)
    requires Sound(office) && !Plans(office, move, key) && !Decides(office, move, key)
    ensures key in office.documents <==> key in Advance(office, move).documents
    ensures key in office.documents ==> Advance(office, move).documents[key] == office.documents[key]
    ensures SameSteps(office, Advance(office, move), key)
  {
    var next := Advance(office, move);
    DecidedIff(office, move.key);
    if next != office && move.DecideMove? {
      var s := DecisionIsAfter(office, move.registered, move.resolver, move.organization, move.key, move.user, move.approve);
      OtherDocumentsKeepSteps(office, s, move.user, move.approve, key);
    } else if next != office && move.key != key {
      var start := if move.CreateMove? then WithDocument(office, move.key, move.document) else WithoutPending(office, move.key);
      WithoutPendingLeavesOthers(office, move.key, key);
      PlanningLeavesOthers(start, move.key, move.plan, move.now, key);
    }
  }

  lemma AdvanceKeepsTold(office: Office, move: Move, key: DocumentKey, plan: seq<PlanItem>)
    requires Sound(office) && (key in office.documents ==> Told(office, key, plan))
    ensures key in Advance(office, move).documents ==>
      Told(Advance(office, move), key, if Plans(office, move, key) then move.plan else plan)
  {
    if Plans(office, move, key) {
      PlanningIsTold(office, move, key);
    } else if Decides(office, move, key) {
      var s := DecisionIsAfter(office, move.registered, move.resolver, move.organization, key, move.user, move.approve);
      DecidedIsTold(office, s, move.user, move.approve, plan);
    } else {
      OtherwiseUntouched(office, move, key);
      if key in office.documents {
        SameStepsSameStatus(office, Advance(office, move), key, plan);
      }
    }
  }

  /** Every run, plans made anew included, keeps each document's status what its steps and the plan in force say. */
  lemma {:induction false} RunKeepsTold(office: Office, moves: seq<Move>, key: DocumentKey, plan: seq<PlanItem>)
    requires Sound(office) && PlansAreDistinct(moves) && (key in office.documents ==> Told(office, key, plan))
    ensures Sound(Run(office, moves))
    ensures key in Run(office, moves).documents ==> Told(Run(office, moves), key, InForce(office, moves, key, plan))
    decreases |moves|
  {
    if moves != [] {
      assert moves[0] in moves;
      AdvanceKeeps(office, moves[0]);
      AdvanceKeepsTold(office, moves[0], key, plan);
      RunKeepsTold(Advance(office, moves[0]), moves[1..], key, if Plans(office, moves[0], key) then moves[0].plan else plan);
    }
  }

  /** In every reachable state: no approval is needed exactly when the plan in force is empty, which it is when there are no
      steps; a document is approved exactly when every step is approved or skipped and at least one is approved, refused
      exactly when one is rejected, and awaiting approval otherwise. */
  lemma StatusIsExact(moves: seq<Move>, key: DocumentKey)
    requires PlansAreDistinct(moves) && key in Run(EMPTY, moves).documents
    ensures var office := Run(EMPTY, moves);
      var status := office.documents[key].approvalStatus;
      && (status.NotRequired? <==> InForce(EMPTY, moves, key, []) == [])
      && (!HasSteps(office, key) ==> status.NotRequired?)
      && (status.FullyApproved? <==> AllCleared(office, key) && SomeStep(office, key, Approved))
      && (status.Refused? <==> SomeStep(office, key, Rejected))
  {
    RunKeepsTold(EMPTY, moves, key, []);
    var office, plan := Run(EMPTY, moves), InForce(EMPTY, moves, key, []);
    assert Told(office, key, plan);
    if plan == [] {
      assert !SomeCounts(office, key);
    }
  }

  /** Whether a document needs approval shows in its steps alone, until an edit leaves an empty plan over steps that an earlier
      plan had skipped: then no approval is needed although there are steps. */
  lemma ReplanShowsIff(office: Office, registered: seq<string>, key: DocumentKey, plan: seq<PlanItem>, now: int)
    requires Sound(office) && key in office.documents && key.documentType in registered && !SomeDecided(office, key)
    ensures Replan(office, registered, key, plan, now).Success?
    ensures var next := Replan(office, registered, key, plan, now).value;
      && key in next.documents
      && ((next.documents[key].approvalStatus.NotRequired? <==> !HasSteps(next, key))
          <==> plan != [] || !SomeStep(office, key, Skipped))
  {
    DecidedIff(office, key);
    var start := WithoutPending(office, key);
    UndecidedLeavesSkipped(office, key);
    PlannedIsTold(start, key, plan, now);
    var next := PlanSteps(start, key, plan, now);
    if plan == [] {
      assert next.steps == start.steps;
      if SomeStep(office, key, Skipped) {
        var s :| s in office.steps && s.document == key && s.status == Skipped;
        assert Except(PendingOf(key))(s);
        assert s in next.steps;
      }
    }
  }

  // ----- when a plan comes to a decision -----

  ghost predicate NothingPending(office: Office, key: DocumentKey) {
    forall s | s in office.steps && s.document == key :: !s.status.Pending?
  }

  /** Once nothing is pending for a document, it is approved or refused exactly when the plan made last has an item that was
      not skipped: refused if a step was rejected, approved if none was. Under an empty plan it needs no approval,
      and under one with skipped items only it still awaits it. */
  lemma DecidedIffNotAllSkipped(office: Office, moves: seq<Move>, key: DocumentKey, first: seq<PlanItem>)
    requires Sound(office) && PlansAreDistinct(moves) && (key in office.documents ==> Told(office, key, first))
    requires key in Run(office, moves).documents && NothingPending(Run(office, moves), key)
    ensures var later, plan := Run(office, moves), InForce(office, moves, key, first);
      later.documents[key].approvalStatus ==
        if plan == [] then NotRequired
        else if AllSkipped(plan) then AwaitingApproval
        else if SomeStep(later, key, Rejected) then Refused
        else FullyApproved
  {
    RunKeepsTold(office, moves, key, first);
    var later, plan := Run(office, moves), InForce(office, moves, key, first);
    assert Told(later, key, plan);
    if !AllSkipped(plan) && !SomeStep(later, key, Rejected) {
      var s :| s in later.steps && s.document == key && !s.status.Skipped?;
      assert s.status == Approved;
      forall x | x in later.steps && x.document == key ensures Cleared(x) {
        assert !x.status.Rejected?;
      }
    }
  }

  ghost predicate Replans(moves: seq<Move>, key: DocumentKey) {
    exists move :: move in moves && move.ReplanMove? && move.key == key
  }

  lemma {:induction false} UnreplannedKeepsPlan(office: Office, moves: seq<Move>, key: DocumentKey, plan: seq<PlanItem>)
    requires Sound(office) && PlansAreDistinct(moves) && key in office.documents && !Replans(moves, key)
    ensures key in Run(office, moves).documents && InForce(office, moves, key, plan) == plan
    decreases |moves|
  {
    if moves != [] {
      var move := moves[0];
      assert move in moves;
      assert !Plans(office, move, key);
      AdvanceKeeps(office, move);
      if !Decides(office, move, key) { OtherwiseUntouched(office, move, key); }
      UnreplannedKeepsPlan(Advance(office, move), moves[1..], key, plan);
    }
  }

  /** Skipped steps are meant never to block a document, yet a plan made only of skipped steps leaves it awaiting approval
      with nothing to decide, in every run in which the document is not planned again. */
  lemma AllSkippedNeverApproved(office: Office, key: DocumentKey, plan: seq<PlanItem>, moves: seq<Move>)
    requires Sound(office) && key in office.documents && Told(office, key, plan) && plan != [] && AllSkipped(plan)
    requires PlansAreDistinct(moves) && !Replans(moves, key)
    ensures var later := Run(office, moves);
      && key in later.documents && later.documents[key].approvalStatus.AwaitingApproval?
      && NothingPending(later, key)
  {
    UnreplannedKeepsPlan(office, moves, key, plan);
    RunKeepsTold(office, moves, key, plan);
    assert !SomeCounts(Run(office, moves), key);
  }

  // ----- decisions are never discarded -----

  lemma AdvanceKeepsDecision(office: Office, move: Move, s: ApprovalStep)
    requires Sound(office) && s in office.steps && DecidedOf(s.document)(s)
    ensures s in Advance(office, move).steps
  {
    var key := s.document;
    assert RowSound(office, s) && SomeDecided(office, key);
    if Decides(office, move, key) {
      var acted := DecisionIsAfter(office, move.registered, move.resolver, move.organization, key, move.user, move.approve);
      var i :| 0 <= i < |office.steps| && office.steps[i] == s;
      assert PendingOf(key)(acted);
      if s.id == acted.id { SameIdSameStep(office, s, acted); }
      assert Advance(office, move).steps[i] == Outcome(acted, move.user, move.approve)(s);
    } else {
      OtherwiseUntouched(office, move, key);
    }
  }

  /** A step that was approved or rejected stays in the table as it is, whatever is edited and planned again. */
  lemma {:induction false} RunKeepsDecisions(office: Office, moves: seq<Move>, s: ApprovalStep)
    requires Sound(office) && PlansAreDistinct(moves) && s in office.steps && DecidedOf(s.document)(s)
    ensures s in Run(office, moves).steps
    decreases |moves|
  {
    if moves != [] {
      assert moves[0] in moves;
      AdvanceKeeps(office, moves[0]);
      AdvanceKeepsDecision(office, moves[0], s);
      RunKeepsDecisions(Advance(office, moves[0]), moves[1..], s);
    }
  }

  // ----- when a status is final -----

  /** Only documents of these types are planned again when edited. */
  ghost predicate ReplansOnly(moves: seq<Move>, types: set<string>) {
    forall move | move in moves && move.ReplanMove? :: move.key.documentType in types
  }

  /** Nothing is pending and nothing can be planned any more. */
  ghost predicate Closed(office: Office, key: DocumentKey, types: set<string>) {
    NothingPending(office, key) && (SomeDecided(office, key) || key.documentType !in types)
  }

  lemma DecisionNeedsPending(office: Office, move: Move, key: DocumentKey)
    requires Sound(office)
    ensures Decides(office, move, key) ==> !NothingPending(office, key)
  {
    if Decides(office, move, key) {
      var s := DecisionIsAfter(office, move.registered, move.resolver, move.organization, key, move.user, move.approve);
      assert PendingOf(key)(s);
    }
  }

  lemma ClosedIsUntouched(office: Office, move: Move, key: DocumentKey, types: set<string>)
    requires Sound(office) && key in office.documents && Closed(office, key, types)
    requires move.ReplanMove? ==> move.key.documentType in types
    ensures key in Advance(office, move).documents && Advance(office, move).documents[key] == office.documents[key]
    ensures Closed(Advance(office, move), key, types)
  {
    var next := Advance(office, move);
    DecisionNeedsPending(office, move, key);
    OtherwiseUntouched(office, move, key);
    if SomeDecided(office, key) {
      var s :| s in office.steps && DecidedOf(key)(s);
      assert s in next.steps;
    }
  }

  /** A closed document keeps its status in every run. */
  lemma {:induction false} ClosedStaysClosed(office: Office, moves: seq<Move>, key: DocumentKey, types: set<string>)
    requires Sound(office) && PlansAreDistinct(moves) && ReplansOnly(moves, types)
    requires key in office.documents && Closed(office, key, types)
    ensures key in Run(office, moves).documents && Run(office, moves).documents[key] == office.documents[key]
    decreases |moves|
  {
    if moves != [] {
      assert moves[0] in moves;
      AdvanceKeeps(office, moves[0]);
      ClosedIsUntouched(office, moves[0], key, types);
      ClosedStaysClosed(Advance(office, moves[0]), moves[1..], key, types);
    }
  }

  /** No run changes the document's status. */
  ghost predicate Final(office: Office, key: DocumentKey, types: set<string>)
    requires key in office.documents
  {
    forall moves {:trigger Run(office, moves)} | PlansAreDistinct(moves) && ReplansOnly(moves, types) ::
      && key in Run(office, moves).documents
      && Run(office, moves).documents[key].approvalStatus == office.documents[key].approvalStatus
  }

  lemma RunOne(office: Office, move: Move)
    ensures Run(office, [move]) == Advance(office, move)
  {
    assert [move][1..] == [];
  }

  /** Somebody other than the creator. */
  function Another(user: Option<string>): (r: string)
    ensures Some(r) != user
  {
    if user.None? then "" else
    assert |user.value + "x"| == |user.value| + 1;
    user.value + "x"
  }

  lemma Actable(office: Office, key: DocumentKey, s: ApprovalStep)
    requires s in office.steps && PendingOf(key)(s)
    ensures Actionable(office.steps, key).Some? && Filter(office.steps, OfDocument(key)) != []
  {
    ActionableIsEarliest(office.steps, key);
    assert OfDocument(key)(s) && s in Filter(office.steps, OfDocument(key));
  }

  /** A rejection of whatever is pending, by somebody allowed to. */
  function Rejection(office: Office, key: DocumentKey): Move
    requires key in office.documents
  {
    DecideMove([key.documentType], key, (o: string, t: string, k: DocumentKey, u: string) => true, "",
               Another(office.documents[key].createdBy), false)
  }

  lemma RejectionRefuses(office: Office, key: DocumentKey, s: ApprovalStep)
    requires key in office.documents && s in office.steps && PendingOf(key)(s)
    ensures var next := Advance(office, Rejection(office, key));
      key in next.documents && next.documents[key].approvalStatus == Refused
  {
    Actable(office, key, s);
  }

  lemma PendingIsNotFinal(office: Office, key: DocumentKey, s: ApprovalStep, types: set<string>)
    requires Sound(office) && key in office.documents && s in office.steps && PendingOf(key)(s)
    ensures !Final(office, key, types)
  {
    var moves := [Rejection(office, key)];
    RejectionRefuses(office, key, s);
    RunOne(office, moves[0]);
    assert StatusSound(office, s);
    assert ReplansOnly(moves, types) && PlansAreDistinct(moves);
    assert Run(office, moves).documents[key].approvalStatus != office.documents[key].approvalStatus;
  }

  lemma OpenIsNotFinal(office: Office, key: DocumentKey, types: set<string>)
    requires Sound(office) && key in office.documents && !SomeDecided(office, key) && key.documentType in types
    ensures !Final(office, key, types)
  {
    var plan := if office.documents[key].approvalStatus.NotRequired? then [PlanItem(1, "", false)] else [];
    var move := ReplanMove([key.documentType], key, plan, 0);
    DecidedIff(office, key);
    RunOne(office, move);
    assert ReplansOnly([move], types) && PlansAreDistinct([move]);
    assert Run(office, [move]).documents[key].approvalStatus != office.documents[key].approvalStatus;
  }

  /** A document's status is final exactly when nothing is pending and a step was approved or rejected, or edits of its type
      never plan again. */
  lemma FinalIff(office: Office, key: DocumentKey, types: set<string>)
    requires Sound(office) && key in office.documents
    ensures Final(office, key, types) <==> Closed(office, key, types)
  {
    if Closed(office, key, types) {
      forall moves | PlansAreDistinct(moves) && ReplansOnly(moves, types)
        ensures key in Run(office, moves).documents && Run(office, moves).documents[key] == office.documents[key]
      {
        ClosedStaysClosed(office, moves, key, types);
      }
    } else if NothingPending(office, key) {
      OpenIsNotFinal(office, key, types);
    } else {
      var s :| s in office.steps && s.document == key && s.status.Pending?;
      PendingIsNotFinal(office, key, s, types);
    }
  }
}
