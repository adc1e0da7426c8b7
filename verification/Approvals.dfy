// Sequential approval of documents, and the inbox of steps a user can act on.
module Approvals {
  import opened Wrappers
  import opened Seqs
  import opened Ordering

  datatype DocumentKey = DocumentKey(documentType: string, documentId: string)
  datatype StepStatus = Pending | Approved | Rejected | Skipped
  datatype ApprovalStep = ApprovalStep(id: nat, document: DocumentKey, sequence: int, stepType: string,
                                       status: StepStatus, approvedBy: Option<string>, createdAt: int)

  datatype ApprovalStatus = NotRequired | AwaitingApproval | FullyApproved | Refused
  datatype Document = Document(organization: Option<string>, createdBy: Option<string>, approvalStatus: ApprovalStatus)

  datatype PlanItem = PlanItem(sequence: int, stepType: string, skipped: bool)

  /** The documents, the step table in order of creation, and the number of the next step. */
  datatype Office = Office(documents: map<DocumentKey, Document>, steps: seq<ApprovalStep>, nextId: nat)

  const EMPTY := Office(map[], [], 0)

  /** The document type's own rule: organization, step type, document and user. */
  type Resolver = (string, string, DocumentKey, string) -> bool

  datatype Error = NotRegistered | NotFound | OwnDocument | NoSteps | NothingPending | NotEligible

  // ----- selecting steps -----

  function OfDocument(key: DocumentKey): ApprovalStep -> bool {
    (s: ApprovalStep) => s.document == key
  }

  function PendingOf(key: DocumentKey): ApprovalStep -> bool {
    (s: ApprovalStep) => s.document == key && s.status.Pending?
  }

  /** Steps somebody approved or rejected. */
  function DecidedOf(key: DocumentKey): ApprovalStep -> bool {
    (s: ApprovalStep) => s.document == key && (s.status.Approved? || s.status.Rejected?)
  }

  function PendingOfType(documentType: string): ApprovalStep -> bool {
    (s: ApprovalStep) => s.document.documentType == documentType && s.status.Pending?
  }

  function BySequence(): (ApprovalStep, ApprovalStep) -> bool {
    (a: ApprovalStep, b: ApprovalStep) => a.sequence <= b.sequence
  }

  function FirstPending(steps: seq<ApprovalStep>): Option<ApprovalStep> {
    if steps == [] then None else if steps[0].status.Pending? then Some(steps[0]) else FirstPending(steps[1..])
  }

  /** The step `decide` acts on. */
  function Actionable(steps: seq<ApprovalStep>, key: DocumentKey): Option<ApprovalStep> {
    FirstPending(Sort(Filter(steps, OfDocument(key)), BySequence()))
  }

  // ----- updating steps -----

  function MapSteps(steps: seq<ApprovalStep>, f: ApprovalStep -> ApprovalStep): seq<ApprovalStep> {
    seq(|steps|, i requires 0 <= i < |steps| => f(steps[i]))
  }

  function DecidedAs(id: nat, user: string, status: StepStatus): ApprovalStep -> ApprovalStep {
    (s: ApprovalStep) => if s.id == id && s.status.Pending? then s.(status := status, approvedBy := Some(user)) else s
  }

  function Skipping(key: DocumentKey): ApprovalStep -> ApprovalStep {
    (s: ApprovalStep) => if s.document == key && s.status.Pending? then s.(status := Skipped) else s
  }

  function WithStatus(documents: map<DocumentKey, Document>, key: DocumentKey, status: ApprovalStatus): map<DocumentKey, Document>
    requires key in documents
  {
    documents[key := documents[key].(approvalStatus := status)]
  }

  // ----- operations -----

  function PlannedSteps(key: DocumentKey, plan: seq<PlanItem>, firstId: nat, now: int): seq<ApprovalStep> {
    seq(|plan|, i requires 0 <= i < |plan| =>
      ApprovalStep(firstId + i, key, plan[i].sequence, plan[i].stepType, if plan[i].skipped then Skipped else Pending, None, now))
  }

  /** The steps of a plan for a known document, and the status that goes with them; an empty plan needs no approval. */
  function PlanSteps(office: Office, key: DocumentKey, plan: seq<PlanItem>, now: int): Office
    requires key in office.documents
  {
    Office(WithStatus(office.documents, key, if plan == [] then NotRequired else AwaitingApproval),
           office.steps + PlannedSteps(key, plan, office.nextId, now), office.nextId + |plan|)
  }

  function CreateSteps(office: Office, registered: seq<string>, key: DocumentKey, plan: seq<PlanItem>, now: int): Result<Office, Error> {
    if key.documentType !in registered then Failure(NotRegistered)
    else if key !in office.documents then Failure(NotFound)
    else Success(PlanSteps(office, key, plan, now))
  }

  function WithDocument(office: Office, key: DocumentKey, document: Document): Office {
    office.(documents := office.documents[key := document])
  }

  /** A new document together with its steps. */
  function CreateDocument(office: Office, registered: seq<string>, key: DocumentKey, document: Document, plan: seq<PlanItem>, now: int)
    : Result<Office, Error>
  {
    CreateSteps(WithDocument(office, key, document), registered, key, plan, now)
  }

  function WithoutPending(office: Office, key: DocumentKey): Office {
    office.(steps := Filter(office.steps, Except(PendingOf(key))))
  }

  /** After a change of its lines a document is planned again, unless one of its steps was decided already: what is
      pending goes, what was skipped stays. */
  function Replan(office: Office, registered: seq<string>, key: DocumentKey, plan: seq<PlanItem>, now: int): Result<Office, Error> {
    if key !in office.documents then Failure(NotFound)
    else if Filter(office.steps, DecidedOf(key)) != [] then Success(office)
    else CreateSteps(WithoutPending(office, key), registered, key, plan, now)
  }

  function Decide(office: Office, registered: seq<string>, resolver: Resolver, organization: string, key: DocumentKey,
                  user: string, approve: bool): Result<Office, Error>
  {
    if key.documentType !in registered then Failure(NotRegistered)
    else if key !in office.documents then Failure(NotFound)
    else if office.documents[key].createdBy == Some(user) then Failure(OwnDocument)
    else if Filter(office.steps, OfDocument(key)) == [] then Failure(NoSteps)
    else
      var pending := Actionable(office.steps, key);
      if pending.None? then Failure(NothingPending)
      else if !resolver(organization, pending.value.stepType, key, user) then Failure(NotEligible)
      else if !approve then
        var rejected := MapSteps(office.steps, DecidedAs(pending.value.id, user, Rejected));
        Success(office.(documents := WithStatus(office.documents, key, Refused), steps := MapSteps(rejected, Skipping(key))))
      else
        var approved := MapSteps(office.steps, DecidedAs(pending.value.id, user, Approved));
        Success(office.(documents := if Filter(approved, PendingOf(key)) == [] then WithStatus(office.documents, key, FullyApproved)
                                     else office.documents, steps := approved))
  }

  // ----- the inbox -----

  datatype InboxItem = InboxItem(document: DocumentKey, step: ApprovalStep)

  function OrganizationOf(document: Document): string {
    if document.organization.Some? then document.organization.value else ""
  }

  predicate Listed(office: Office, registered: seq<string>, resolver: Resolver, user: string, key: DocumentKey) {
    && key.documentType in registered && key in office.documents
    && var step := Actionable(office.steps, key);
       step.Some? && resolver(OrganizationOf(office.documents[key]), step.value.stepType, key, user)
  }

  /** The user's inbox: every document listed for the user, with the step a decision on it would act on. */
  ghost predicate IsInbox(office: Office, registered: seq<string>, resolver: Resolver, user: string, items: seq<InboxItem>) {
    forall item: InboxItem {:trigger item in items} :: item in items <==>
      Listed(office, registered, resolver, user, item.document) && Actionable(office.steps, item.document) == Some(item.step)
  }

  function ByCreation(): (InboxItem, InboxItem) -> bool {
    (a: InboxItem, b: InboxItem) => a.step.createdAt <= b.step.createdAt
  }

  // ----- which step comes first -----

  /** Steps of one document have different sequence numbers, those passed over aside. */
  ghost predicate UniqueSequences(steps: seq<ApprovalStep>) {
    forall a, b | a in steps && b in steps && a.document == b.document && a.sequence == b.sequence ::
      a.status.Skipped? || b.status.Skipped? || a == b
  }

  /** Pending, and before every other pending step of its document. */
  ghost predicate IsEarliest(steps: seq<ApprovalStep>, key: DocumentKey, s: ApprovalStep) {
    && s in steps && PendingOf(key)(s)
    && forall other | other in steps && PendingOf(key)(other) :: s.sequence <= other.sequence
  }

  lemma BySequenceRanks()
    ensures Ranking(BySequence())
  {}

  lemma {:induction false} FirstPendingFound(steps: seq<ApprovalStep>)
    ensures var r := FirstPending(steps);
      if r.Some? then exists i :: 0 <= i < |steps| && steps[i] == r.value && r.value.status.Pending?
                        && forall j | 0 <= j < i :: !steps[j].status.Pending?
      else forall s | s in steps :: !s.status.Pending?
  {
    if steps != [] && !steps[0].status.Pending? {
      FirstPendingFound(steps[1..]);
      var r := FirstPending(steps[1..]);
      if r.Some? {
        var i :| 0 <= i < |steps[1..]| && steps[1..][i] == r.value && forall j | 0 <= j < i :: !steps[1..][j].status.Pending?;
        assert steps[i + 1] == r.value;
        forall j | 0 <= j < i + 1 ensures !steps[j].status.Pending? {
          assert j > 0 ==> steps[1..][j - 1] == steps[j];
        }
      } else {
        assert steps == [steps[0]] + steps[1..];
      }
    }
  }

  /** A document's steps in order hold just its steps. */
  lemma OwnSteps(steps: seq<ApprovalStep>, key: DocumentKey)
    ensures var sorted := Sort(Filter(steps, OfDocument(key)), BySequence());
      && Sorted(sorted, BySequence())
      && forall s :: s in sorted <==> s in steps && s.document == key
  {
    var own := Filter(steps, OfDocument(key));
    BySequenceRanks();
    SortSorted(own, BySequence());
    SortDistinct(own, BySequence());
    forall s ensures s in own <==> s in steps && s.document == key {
      assert OfDocument(key)(s) <==> s.document == key;
    }
  }

  lemma FirstIsLeast(sorted: seq<ApprovalStep>, i: nat, other: ApprovalStep)
    requires Sorted(sorted, BySequence()) && i < |sorted| && forall j | 0 <= j < i :: !sorted[j].status.Pending?
    requires other in sorted && other.status.Pending?
    ensures sorted[i].sequence <= other.sequence
  {
    var j :| 0 <= j < |sorted| && sorted[j] == other;
    assert j > i ==> BySequence()(sorted[i], sorted[j]);
  }

  lemma ActionableIsEarliest(steps: seq<ApprovalStep>, key: DocumentKey)
    ensures var r := Actionable(steps, key);
      if r.Some? then IsEarliest(steps, key, r.value)
      else forall s | s in steps :: !PendingOf(key)(s)
  {
    var sorted := Sort(Filter(steps, OfDocument(key)), BySequence());
    OwnSteps(steps, key);
    FirstPendingFound(sorted);
    var r := Actionable(steps, key);
    if r.Some? {
      var i: nat :| i < |sorted| && sorted[i] == r.value && forall j | 0 <= j < i :: !sorted[j].status.Pending?;
      assert sorted[i] in sorted;
      forall other | other in steps && PendingOf(key)(other) ensures r.value.sequence <= other.sequence {
        FirstIsLeast(sorted, i, other);
      }
    }
  }

  /** With distinct sequence numbers the step acted on is the earliest pending one, and there is only one such. */
  lemma ActionableIff(steps: seq<ApprovalStep>, key: DocumentKey, s: ApprovalStep)
    requires UniqueSequences(steps)
    ensures Actionable(steps, key) == Some(s) <==> IsEarliest(steps, key, s)
  {
    ActionableIsEarliest(steps, key);
  }

  ghost predicate FirstFor(list: seq<ApprovalStep>, s: ApprovalStep) {
    exists i :: 0 <= i < |list| && list[i] == s && forall j | 0 <= j < i :: list[j].document != s.document
  }

  /** The first step of each document, in the order of the list. */
  ghost predicate FirstOfEach(list: seq<ApprovalStep>, firsts: seq<ApprovalStep>) {
    && (forall i, j | 0 <= i < j < |firsts| :: firsts[i].document != firsts[j].document)
    && (forall s | s in firsts :: FirstFor(list, s))
    && (forall s | s in list :: exists f :: f in firsts && f.document == s.document)
  }

  /** The pending steps of a type in order hold just those. */
  lemma PendingSteps(steps: seq<ApprovalStep>, documentType: string)
    ensures var list := Sort(Filter(steps, PendingOfType(documentType)), BySequence());
      && Sorted(list, BySequence())
      && forall s :: s in list <==> s in steps && s.document.documentType == documentType && s.status.Pending?
  {
    var pending := Filter(steps, PendingOfType(documentType));
    BySequenceRanks();
    SortSorted(pending, BySequence());
    SortDistinct(pending, BySequence());
    forall s ensures s in pending <==> s in steps && s.document.documentType == documentType && s.status.Pending? {
      assert PendingOfType(documentType)(s) <==> s.document.documentType == documentType && s.status.Pending?;
    }
  }

  lemma FirstForIsLeast(list: seq<ApprovalStep>, s: ApprovalStep, other: ApprovalStep)
    requires Sorted(list, BySequence()) && FirstFor(list, s) && other in list && other.document == s.document
    ensures s.sequence <= other.sequence
  {
    var i :| 0 <= i < |list| && list[i] == s && forall j | 0 <= j < i :: list[j].document != s.document;
    var j :| 0 <= j < |list| && list[j] == other;
    assert j > i ==> BySequence()(list[i], list[j]);
  }

  lemma FirstIsEarliest(steps: seq<ApprovalStep>, documentType: string, s: ApprovalStep)
    requires FirstFor(Sort(Filter(steps, PendingOfType(documentType)), BySequence()), s)
    ensures s.document.documentType == documentType && IsEarliest(steps, s.document, s)
  {
    var list := Sort(Filter(steps, PendingOfType(documentType)), BySequence());
    PendingSteps(steps, documentType);
    assert s in list;
    forall other | other in steps && PendingOf(s.document)(other) ensures s.sequence <= other.sequence {
      FirstForIsLeast(list, s, other);
    }
  }

  /** The first entries per document of the type's pending list are what `decide` would act on. */
  lemma EarliestIsActionable(steps: seq<ApprovalStep>, documentType: string, firsts: seq<ApprovalStep>,
                             key: DocumentKey, s: ApprovalStep)
    requires UniqueSequences(steps)
    requires FirstOfEach(Sort(Filter(steps, PendingOfType(documentType)), BySequence()), firsts)
    ensures s in firsts && s.document == key <==> key.documentType == documentType && Actionable(steps, key) == Some(s)
  {
    ActionableIff(steps, key, s);
    PendingSteps(steps, documentType);
    if s in firsts {
      FirstIsEarliest(steps, documentType, s);
    }
    if key.documentType == documentType && IsEarliest(steps, key, s) {
      var f :| f in firsts && f.document == s.document;
      FirstIsEarliest(steps, documentType, f);
      assert f.sequence == s.sequence;
    }
  }
}
