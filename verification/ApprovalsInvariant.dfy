// What every run of approvals keeps, when it ends, and how the inbox relates to what `decide` accepts.
module ApprovalsInvariant {
  import opened Wrappers
  import opened Seqs
  import opened Ordering
  import opened Approvals

  ghost predicate Cleared(s: ApprovalStep) {
    s.status.Approved? || s.status.Skipped?
  }

  /** A step's number has been given out, and it belongs to a known document whose creator did not decide it. */
  ghost predicate RowSound(office: Office, s: ApprovalStep) {
    && s.id < office.nextId && s.document in office.documents
    && (s.approvedBy.Some? ==> s.approvedBy != office.documents[s.document].createdBy)
  }

  /** Two steps have different ids and, when of one document and not passed over, different sequence numbers; a rejection
      has everything before it cleared and everything after it skipped, and nothing is approved while an earlier step
      is pending. */
  ghost predicate PairSound(a: ApprovalStep, b: ApprovalStep) {
    && (a.id == b.id ==> a == b)
    && (a.document == b.document && a.sequence == b.sequence ==> a.status.Skipped? || b.status.Skipped? || a == b)
    && (a.document == b.document && a.sequence < b.sequence ==>
          && (b.status.Rejected? ==> Cleared(a))
          && (a.status.Rejected? ==> b.status.Skipped?)
          && (b.status.Approved? ==> !a.status.Pending?))
  }

  /** The document's status against one of its steps. */
  ghost predicate StatusSound(office: Office, s: ApprovalStep)
    requires s.document in office.documents
  {
    var status := office.documents[s.document].approvalStatus;
    && (status.FullyApproved? ==> Cleared(s))
    && (status.Refused? ==> !s.status.Pending?)
    && (s.status.Rejected? ==> status.Refused?)
    && (status.NotRequired? ==> s.status.Skipped?)
  }

  ghost predicate Sound(office: Office) {
    && (forall s {:trigger RowSound(office, s)} | s in office.steps :: RowSound(office, s))
    && (forall a, b {:trigger PairSound(a, b)} | a in office.steps && b in office.steps :: PairSound(a, b))
    && (forall s {:trigger StatusSound(office, s)} | s in office.steps && s.document in office.documents :: StatusSound(office, s))
  }

  lemma SoundIsUnique(office: Office)
    requires Sound(office)
    ensures UniqueSequences(office.steps)
  {
    forall a, b | a in office.steps && b in office.steps && a.document == b.document && a.sequence == b.sequence
      ensures a.status.Skipped? || b.status.Skipped? || a == b
    {
      assert PairSound(a, b);
    }
  }

  // ----- decisions, step by step -----

  /** The document the acted-on step belongs to, and that step: what a successful decision starts from. */
  ghost predicate Deciding(office: Office, key: DocumentKey, user: string, s: ApprovalStep) {
    && key in office.documents && office.documents[key].createdBy != Some(user)
    && IsEarliest(office.steps, key, s)
  }

  lemma DecisionStarts(office: Office, registered: seq<string>, resolver: Resolver, organization: string, key: DocumentKey,
                       user: string, approve: bool) returns (s: ApprovalStep)
    requires Decide(office, registered, resolver, organization, key, user, approve).Success?
    ensures Actionable(office.steps, key) == Some(s) && Deciding(office, key, user, s)
    ensures resolver(organization, s.stepType, key, user)
  {
    ActionableIsEarliest(office.steps, key);
    s := Actionable(office.steps, key).value;
  }

  /** What a decision on step s makes of each row. */
  function Outcome(s: ApprovalStep, user: string, approve: bool): ApprovalStep -> ApprovalStep {
    (a: ApprovalStep) =>
      if a.id == s.id then a.(status := if approve then Approved else Rejected, approvedBy := Some(user))
      else if !approve && a.document == s.document && a.status.Pending? then a.(status := Skipped)
      else a
  }

  lemma DecidedSteps(office: Office, registered: seq<string>, resolver: Resolver, organization: string, key: DocumentKey,
                     user: string, approve: bool, s: ApprovalStep)
    requires Sound(office)
    requires Decide(office, registered, resolver, organization, key, user, approve).Success?
    requires Actionable(office.steps, key) == Some(s) && Deciding(office, key, user, s)
    ensures Decide(office, registered, resolver, organization, key, user, approve).value.steps
         == MapSteps(office.steps, Outcome(s, user, approve))
  {
    var next := Decide(office, registered, resolver, organization, key, user, approve).value;
    forall k | 0 <= k < |office.steps| ensures next.steps[k] == Outcome(s, user, approve)(office.steps[k]) {
      if office.steps[k].id == s.id { SameIdSameStep(office, office.steps[k], s); }
    }
  }

  lemma SameIdSameStep(office: Office, a: ApprovalStep, b: ApprovalStep)
    requires Sound(office) && a in office.steps && b in office.steps && a.id == b.id
    ensures a == b
  {
    assert PairSound(a, b);
  }

  /** Before the acted-on step everything is cleared; after it everything is pending or skipped, and beside it skipped. */
  lemma AroundEarliest(office: Office, s: ApprovalStep, a: ApprovalStep)
    requires Sound(office) && IsEarliest(office.steps, s.document, s)
    requires a in office.steps && a.document == s.document && a != s
    ensures a.sequence == s.sequence ==> a.status.Skipped?
    ensures a.sequence < s.sequence ==> Cleared(a)
    ensures a.sequence > s.sequence ==> a.status.Pending? || a.status.Skipped?
  {
    assert PairSound(a, s) && PairSound(s, a);
    assert PendingOf(s.document)(s);
    assert a.status.Pending? ==> PendingOf(s.document)(a);
  }

  lemma PairAfter(office: Office, s: ApprovalStep, user: string, approve: bool, a: ApprovalStep, b: ApprovalStep)
    requires Sound(office) && IsEarliest(office.steps, s.document, s)
    requires a in office.steps && b in office.steps
    ensures PairSound(Outcome(s, user, approve)(a), Outcome(s, user, approve)(b))
  {
    assert PairSound(a, b);
    if a.document == b.document && a.sequence < b.sequence && a.document == s.document {
      if a != s { AroundEarliest(office, s, a); }
      if b != s { AroundEarliest(office, s, b); }
      if a.id == s.id { SameIdSameStep(office, a, s); }
      if b.id == s.id { SameIdSameStep(office, b, s); }
    } else {
      if a.id == s.id { SameIdSameStep(office, a, s); }
      if b.id == s.id { SameIdSameStep(office, b, s); }
    }
  }

  /** A row after the decision and the row it came from. */
  lemma Origin(office: Office, s: ApprovalStep, user: string, approve: bool, x: ApprovalStep) returns (a: ApprovalStep)
    requires x in MapSteps(office.steps, Outcome(s, user, approve))
    ensures a in office.steps && x == Outcome(s, user, approve)(a)
  {
    var i :| 0 <= i < |office.steps| && MapSteps(office.steps, Outcome(s, user, approve))[i] == x;
    a := office.steps[i];
  }

  lemma StatusAfter(office: Office, next: Office, s: ApprovalStep, user: string, approve: bool, a: ApprovalStep)
    requires Sound(office) && IsEarliest(office.steps, s.document, s) && s.document in office.documents
    requires a in office.steps && a.document in office.documents
    requires next.steps == MapSteps(office.steps, Outcome(s, user, approve))
    requires var done := !approve || Filter(next.steps, PendingOf(s.document)) == [];
      next.documents == if done then WithStatus(office.documents, s.document, if approve then FullyApproved else Refused)
                        else office.documents
    requires StatusSound(office, a) && StatusSound(office, s)
    ensures StatusSound(next, Outcome(s, user, approve)(a))
  {
    var x := Outcome(s, user, approve)(a);
    assert PendingOf(s.document)(s) && s.status.Pending?;
    if a.id == s.id { SameIdSameStep(office, a, s); }
    if a.document == s.document {
      if a != s { AroundEarliest(office, s, a); }
      var i :| 0 <= i < |office.steps| && office.steps[i] == a;
      assert next.steps[i] == x;
      if x.status.Pending? {
        assert PendingOf(s.document)(x) && x in Filter(next.steps, PendingOf(s.document));
      }
    }
  }

  lemma RowAfter(office: Office, next: Office, s: ApprovalStep, user: string, approve: bool, a: ApprovalStep)
    requires Sound(office) && Deciding(office, s.document, user, s) && a in office.steps
    requires next.documents.Keys == office.documents.Keys && next.nextId == office.nextId
    requires forall k | k in office.documents :: next.documents[k].createdBy == office.documents[k].createdBy
    ensures RowSound(next, Outcome(s, user, approve)(a))
  {
    assert RowSound(office, a);
    if a.id == s.id {
      SameIdSameStep(office, a, s);
    }
  }

  /** The document table after a decision on s. */
  ghost function DocumentsAfter(office: Office, s: ApprovalStep, approve: bool, steps: seq<ApprovalStep>): map<DocumentKey, Document>
    requires s.document in office.documents
  {
    if !approve || Filter(steps, PendingOf(s.document)) == []
    then WithStatus(office.documents, s.document, if approve then FullyApproved else Refused)
    else office.documents
  }

  ghost function After(office: Office, s: ApprovalStep, user: string, approve: bool): Office
    requires s.document in office.documents
  {
    var steps := MapSteps(office.steps, Outcome(s, user, approve));
    office.(documents := DocumentsAfter(office, s, approve, steps), steps := steps)
  }

  lemma PairsAfter(office: Office, s: ApprovalStep, user: string, approve: bool, x: ApprovalStep, y: ApprovalStep)
    requires Sound(office) && Deciding(office, s.document, user, s)
    requires x in After(office, s, user, approve).steps && y in After(office, s, user, approve).steps
    ensures PairSound(x, y)
  {
    var a := Origin(office, s, user, approve, x);
    var b := Origin(office, s, user, approve, y);
    PairAfter(office, s, user, approve, a, b);
  }

  lemma StatusesAfter(office: Office, s: ApprovalStep, user: string, approve: bool, x: ApprovalStep)
    requires Sound(office) && Deciding(office, s.document, user, s)
    requires x in After(office, s, user, approve).steps && x.document in office.documents
    ensures StatusSound(After(office, s, user, approve), x)
  {
    var a := Origin(office, s, user, approve, x);
    assert StatusSound(office, a) && StatusSound(office, s);
    StatusAfter(office, After(office, s, user, approve), s, user, approve, a);
  }

  lemma AfterKeeps(office: Office, s: ApprovalStep, user: string, approve: bool)
    requires Sound(office) && Deciding(office, s.document, user, s)
    ensures Sound(After(office, s, user, approve))
  {
    var next := After(office, s, user, approve);
    forall x | x in next.steps ensures RowSound(next, x) {
      var a := Origin(office, s, user, approve, x);
      RowAfter(office, next, s, user, approve, a);
    }
    forall x, y | x in next.steps && y in next.steps
      ensures PairSound(x, y)
    {
      PairsAfter(office, s, user, approve, x, y);
    }
    forall x | x in next.steps && x.document in next.documents ensures StatusSound(next, x) {
      StatusesAfter(office, s, user, approve, x);
    }
  }

  lemma DecisionKeeps(office: Office, registered: seq<string>, resolver: Resolver, organization: string, key: DocumentKey,
                      user: string, approve: bool)
    requires Sound(office)
    requires Decide(office, registered, resolver, organization, key, user, approve).Success?
    ensures Sound(Decide(office, registered, resolver, organization, key, user, approve).value)
  {
    var s := DecisionStarts(office, registered, resolver, organization, key, user, approve);
    DecidedSteps(office, registered, resolver, organization, key, user, approve, s);
    assert PendingOf(key)(s) && s.document == key;
    AfterKeeps(office, s, user, approve);
    var next := Decide(office, registered, resolver, organization, key, user, approve).value;
    assert next.documents == DocumentsAfter(office, s, approve, next.steps);
  }

  // ----- planning -----

  /** Items of a plan have different sequence numbers, those passed over aside. */
  ghost predicate DistinctSequences(plan: seq<PlanItem>) {
    forall i, j | 0 <= i < j < |plan| :: plan[i].sequence == plan[j].sequence ==> plan[i].skipped || plan[j].skipped
  }

  /** The document has no steps, or only such as were passed over. */
  ghost predicate OnlySkipped(office: Office, key: DocumentKey) {
    forall s | s in office.steps && s.document == key :: s.status.Skipped?
  }

  lemma Planned(key: DocumentKey, plan: seq<PlanItem>, firstId: nat, now: int, s: ApprovalStep) returns (i: nat)
    requires s in PlannedSteps(key, plan, firstId, now)
    ensures i < |plan| && s.id == firstId + i && s.document == key && s.sequence == plan[i].sequence && s.approvedBy == None
    ensures s.status == if plan[i].skipped then Skipped else Pending
    ensures s == PlannedSteps(key, plan, firstId, now)[i]
  {
    i :| i < |plan| && PlannedSteps(key, plan, firstId, now)[i] == s;
  }

  lemma PlannedPair(office: Office, key: DocumentKey, plan: seq<PlanItem>, now: int, a: ApprovalStep, b: ApprovalStep)
    requires Sound(office) && key in office.documents && OnlySkipped(office, key) && DistinctSequences(plan)
    requires a in PlanSteps(office, key, plan, now).steps && b in PlanSteps(office, key, plan, now).steps
    ensures PairSound(a, b)
  {
    if a in office.steps && b in office.steps {
      assert PairSound(a, b);
    } else if a in office.steps {
      var j := Planned(key, plan, office.nextId, now, b);
      assert RowSound(office, a);
    } else if b in office.steps {
      var i := Planned(key, plan, office.nextId, now, a);
      assert RowSound(office, b);
    } else {
      var i := Planned(key, plan, office.nextId, now, a);
      var j := Planned(key, plan, office.nextId, now, b);
    }
  }

  lemma PlannedRow(office: Office, key: DocumentKey, plan: seq<PlanItem>, now: int, s: ApprovalStep)
    requires Sound(office) && key in office.documents && OnlySkipped(office, key)
    requires s in PlanSteps(office, key, plan, now).steps
    ensures RowSound(PlanSteps(office, key, plan, now), s) && StatusSound(PlanSteps(office, key, plan, now), s)
  {
    if s in office.steps {
      assert RowSound(office, s) && StatusSound(office, s);
    } else {
      var i := Planned(key, plan, office.nextId, now, s);
    }
  }

  lemma PlanKeeps(office: Office, key: DocumentKey, plan: seq<PlanItem>, now: int)
    requires Sound(office) && key in office.documents && OnlySkipped(office, key) && DistinctSequences(plan)
    ensures Sound(PlanSteps(office, key, plan, now))
  {
    var next := PlanSteps(office, key, plan, now);
    forall s | s in next.steps ensures RowSound(next, s) && StatusSound(next, s) {
      PlannedRow(office, key, plan, now, s);
    }
    forall a, b | a in next.steps && b in next.steps
      ensures PairSound(a, b)
    {
      PlannedPair(office, key, plan, now, a, b);
    }
  }

  lemma NewDocumentKeeps(office: Office, key: DocumentKey, document: Document)
    requires Sound(office) && key !in office.documents
    ensures Sound(WithDocument(office, key, document))
    ensures forall s | s in office.steps :: s.document != key
  {
    var next := WithDocument(office, key, document);
    forall s | s in office.steps ensures s.document != key && RowSound(next, s) && StatusSound(next, s) {
      assert RowSound(office, s) && StatusSound(office, s);
    }
  }

  lemma WithoutPendingKeeps(office: Office, key: DocumentKey)
    requires Sound(office)
    ensures Sound(WithoutPending(office, key))
  {
    var next := WithoutPending(office, key);
    forall s | s in next.steps ensures s in office.steps && RowSound(next, s) && StatusSound(next, s) {
      assert RowSound(office, s) && StatusSound(office, s);
    }
  }

  /** Some step of the document was approved or rejected. */
  ghost predicate SomeDecided(office: Office, key: DocumentKey) {
    exists s :: s in office.steps && DecidedOf(key)(s)
  }

  lemma DecidedIff(office: Office, key: DocumentKey)
    ensures Filter(office.steps, DecidedOf(key)) != [] <==> SomeDecided(office, key)
  {
    var decided := Filter(office.steps, DecidedOf(key));
    if decided != [] {
      assert decided[0] in decided;
    }
  }

  /** When nothing was decided, only what was skipped is left to plan over. */
  lemma UndecidedLeavesSkipped(office: Office, key: DocumentKey)
    requires !SomeDecided(office, key)
    ensures OnlySkipped(WithoutPending(office, key), key)
  {
    forall s | s in WithoutPending(office, key).steps && s.document == key ensures s.status.Skipped? {
      assert !DecidedOf(key)(s) && Except(PendingOf(key))(s);
    }
  }

  lemma CreationKeeps(office: Office, registered: seq<string>, key: DocumentKey, document: Document, plan: seq<PlanItem>, now: int)
    requires Sound(office) && key !in office.documents && DistinctSequences(plan)
    ensures var r := CreateDocument(office, registered, key, document, plan, now);
      r.Success? ==> Sound(r.value)
  {
    NewDocumentKeeps(office, key, document);
    PlanKeeps(WithDocument(office, key, document), key, plan, now);
  }

  /** Planning again keeps the table sound whatever sequence numbers the skipped steps of earlier plans have. */
  lemma ReplanKeeps(office: Office, registered: seq<string>, key: DocumentKey, plan: seq<PlanItem>, now: int)
    requires Sound(office) && DistinctSequences(plan)
    ensures var r := Replan(office, registered, key, plan, now);
      r.Success? ==> Sound(r.value)
  {
    DecidedIff(office, key);
    if key in office.documents && !SomeDecided(office, key) {
      UndecidedLeavesSkipped(office, key);
      WithoutPendingKeeps(office, key);
      PlanKeeps(WithoutPending(office, key), key, plan, now);
    }
  }

  // ----- runs -----

  datatype Move =
    | CreateMove(registered: seq<string>, key: DocumentKey, document: Document, plan: seq<PlanItem>, now: int)
    | ReplanMove(registered: seq<string>, key: DocumentKey, plan: seq<PlanItem>, now: int)
    | DecideMove(registered: seq<string>, key: DocumentKey, resolver: Resolver, organization: string, user: string, approve: bool)

  function Attempt(office: Office, move: Move): Result<Office, Error> {
    match move
    case CreateMove(registered, key, document, plan, now) => CreateDocument(office, registered, key, document, plan, now)
    case ReplanMove(registered, key, plan, now) => Replan(office, registered, key, plan, now)
    case DecideMove(registered, key, resolver, organization, user, approve) =>
      Decide(office, registered, resolver, organization, key, user, approve)
  }

  /** What is refused changes nothing. A new document has a new key. */
  function Advance(office: Office, move: Move): Office {
    if move.CreateMove? && move.key in office.documents then office
    else
      var r := Attempt(office, move);
      if r.Success? then r.value else office
  }

  ghost function Run(office: Office, moves: seq<Move>): Office
    decreases |moves|
  {
    if moves == [] then office else Run(Advance(office, moves[0]), moves[1..])
  }

  ghost predicate PlansAreDistinct(moves: seq<Move>) {
    forall move | move in moves && !move.DecideMove? :: DistinctSequences(move.plan)
  }

  lemma AdvanceKeeps(office: Office, move: Move)
    requires Sound(office) && (!move.DecideMove? ==> DistinctSequences(move.plan))
    ensures Sound(Advance(office, move))
  {
    match move
    case CreateMove(registered, key, document, plan, now) =>
      if key !in office.documents { CreationKeeps(office, registered, key, document, plan, now); }
    case ReplanMove(registered, key, plan, now) =>
      ReplanKeeps(office, registered, key, plan, now);
    case DecideMove(registered, key, resolver, organization, user, approve) =>
      if Decide(office, registered, resolver, organization, key, user, approve).Success? {
        DecisionKeeps(office, registered, resolver, organization, key, user, approve);
      }
  }

  lemma {:induction false} RunKeeps(office: Office, moves: seq<Move>)
    requires Sound(office) && PlansAreDistinct(moves)
    ensures Sound(Run(office, moves))
    decreases |moves|
  {
    if moves != [] {
      assert moves[0] in moves;
      AdvanceKeeps(office, moves[0]);
      RunKeeps(Advance(office, moves[0]), moves[1..]);
    }
  }

  /** Read off any reachable state: at most one rejection, everything before it cleared and everything else of its
      document skipped; a fully approved document has only cleared steps; nobody decided a document of their own. */
  lemma ReachableShape(moves: seq<Move>, a: ApprovalStep, b: ApprovalStep)
    requires PlansAreDistinct(moves)
    requires a in Run(EMPTY, moves).steps && b in Run(EMPTY, moves).steps && a.document == b.document
    ensures a.status.Rejected? && b.status.Rejected? ==> a == b
    ensures b.status.Rejected? && a.sequence < b.sequence ==> Cleared(a)
    ensures b.status.Rejected? && a.sequence >= b.sequence && a != b ==> a.status.Skipped?
    ensures var documents := Run(EMPTY, moves).documents;
      a.document in documents && (documents[a.document].approvalStatus.FullyApproved? ==> Cleared(a))
      && (a.approvedBy.Some? ==> a.approvedBy != documents[a.document].createdBy)
  {
    var office := Run(EMPTY, moves);
    RunKeeps(EMPTY, moves);
    assert RowSound(office, a) && StatusSound(office, a);
    assert PairSound(a, b) && PairSound(b, a);
  }

  // ----- runs end -----

  function PendingTerm(): ApprovalStep -> int {
    (s: ApprovalStep) => if s.status.Pending? then 1 else 0
  }

  ghost function TotalPending(office: Office): int {
    SumBy(office.steps, PendingTerm())
  }

  /** Every successful decision leaves fewer pending steps. */
  lemma DecisionLowersPending(office: Office, registered: seq<string>, resolver: Resolver, organization: string,
                              key: DocumentKey, user: string, approve: bool)
    requires Sound(office)
    requires Decide(office, registered, resolver, organization, key, user, approve).Success?
    ensures TotalPending(Decide(office, registered, resolver, organization, key, user, approve).value) < TotalPending(office)
  {
    var s := DecisionStarts(office, registered, resolver, organization, key, user, approve);
    DecidedSteps(office, registered, resolver, organization, key, user, approve, s);
    var i: nat :| i < |office.steps| && office.steps[i] == s;
    var f := Outcome(s, user, approve);
    var one := office.steps[i := f(s)];
    assert PendingOf(key)(s);
    SumUpdated(office.steps, i, f(s), PendingTerm());
    forall k | 0 <= k < |one| ensures PendingTerm()(MapSteps(office.steps, f)[k]) <= PendingTerm()(one[k]) {
      if office.steps[k].id == s.id { SameIdSameStep(office, office.steps[k], s); }
    }
    SumMonotone(MapSteps(office.steps, f), one, PendingTerm(), PendingTerm());
  }

  ghost function Successes(office: Office, moves: seq<Move>): nat
    decreases |moves|
  {
    if moves == [] then 0
    else
      var move := moves[0];
      var decided := move.DecideMove? && Attempt(office, move).Success?;
      (if decided then 1 else 0) + Successes(Advance(office, move), moves[1..])
  }

  lemma {:induction false} NoMoreThanPending(steps: seq<ApprovalStep>)
    ensures SumBy(steps, PendingTerm()) >= 0
  {
    if steps != [] {
      NoMoreThanPending(steps[1..]);
    }
  }

  /** No run of decisions succeeds more often than there were pending steps. */
  lemma {:induction false} DecisionsEnd(office: Office, moves: seq<Move>)
    requires Sound(office) && forall move | move in moves :: move.DecideMove?
    ensures Successes(office, moves) <= TotalPending(office)
    decreases |moves|
  {
    if moves == [] {
      NoMoreThanPending(office.steps);
    } else {
      var move := moves[0];
      assert move in moves;
      AdvanceKeeps(office, move);
      if Attempt(office, move).Success? {
        DecisionLowersPending(office, move.registered, move.resolver, move.organization, move.key, move.user, move.approve);
      }
      DecisionsEnd(Advance(office, move), moves[1..]);
    }
  }

  // ----- inbox and decide -----

  /** The inbox lists a document exactly when a decision by that user, made for the document's own organization,
      passes every guard, unless the user created the document. */
  lemma InboxMatchesDecide(office: Office, registered: seq<string>, resolver: Resolver, user: string, key: DocumentKey, approve: bool)
    requires key in office.documents
    ensures Decide(office, registered, resolver, OrganizationOf(office.documents[key]), key, user, approve).Success?
       <==> Listed(office, registered, resolver, user, key) && office.documents[key].createdBy != Some(user)
  {}

  /** The row with the step's number holds the decision. */
  ghost predicate WrittenAs(office: Office, step: ApprovalStep, user: string, approve: bool) {
    var written := step.(status := if approve then Approved else Rejected, approvedBy := Some(user));
    forall x :: x in office.steps && x.id == step.id <==> x == written
  }

  /** And the decision is then recorded on the very step the inbox shows. */
  lemma DecideActsOnListedStep(office: Office, registered: seq<string>, resolver: Resolver, organization: string, user: string,
                               key: DocumentKey, approve: bool)
    requires Sound(office)
    requires Decide(office, registered, resolver, organization, key, user, approve).Success?
    ensures var shown := Actionable(office.steps, key);
      && shown.Some?
      && WrittenAs(Decide(office, registered, resolver, organization, key, user, approve).value, shown.value, user, approve)
  {
    var s := DecisionStarts(office, registered, resolver, organization, key, user, approve);
    DecidedSteps(office, registered, resolver, organization, key, user, approve, s);
    var next := Decide(office, registered, resolver, organization, key, user, approve).value;
    var i: nat :| i < |office.steps| && office.steps[i] == s;
    assert next.steps[i] == Outcome(s, user, approve)(s);
    forall x | x in next.steps && x.id == s.id ensures x == next.steps[i] {
      var a := Origin(office, s, user, approve, x);
      SameIdSameStep(office, a, s);
    }
  }

  /** The inbox and decisions agree but for the user's own documents, which the inbox shows and a decision refuses: a
      decision on an existing document passes every guard and acts on a step exactly when the inbox shows that step and
      the user did not create the document, and the step shown is the row then written. */
  lemma InboxShowsDecisions(office: Office, registered: seq<string>, resolver: Resolver, user: string, items: seq<InboxItem>,
                            item: InboxItem, approve: bool)
    requires Sound(office) && IsInbox(office, registered, resolver, user, items)
    requires item.document in office.documents
    ensures var document := office.documents[item.document];
      var outcome := Decide(office, registered, resolver, OrganizationOf(document), item.document, user, approve);
      var acted := outcome.Success? && Actionable(office.steps, item.document) == Some(item.step);
      && (acted <==> item in items && document.createdBy != Some(user))
      && (item in items && document.createdBy == Some(user) ==> outcome == Failure(OwnDocument))
      && (item in items && document.createdBy != Some(user) ==> WrittenAs(outcome.value, item.step, user, approve))
  {
    var organization := OrganizationOf(office.documents[item.document]);
    InboxMatchesDecide(office, registered, resolver, user, item.document, approve);
    if item in items && office.documents[item.document].createdBy != Some(user) {
      DecideActsOnListedStep(office, registered, resolver, organization, user, item.document, approve);
    }
  }
}
