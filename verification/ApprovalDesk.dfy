// The approval service: steps created with their document, decisions, and each user's inbox.
module ApprovalDesk {
  import opened Wrappers
  import opened Seqs
  import opened Ordering
  import opened Approvals
  import Spec = Approvals

  class ApprovalService {
    var documents: map<DocumentKey, Document>
    var steps: seq<ApprovalStep>
    var nextId: nat
    const registered: seq<string>

    ghost function State(): Office
      reads this
    {
      Office(documents, steps, nextId)
    }

    ghost predicate Committed(before: Office, outcome: Result<Office, Error>, problem: Option<Error>)
      reads this
    {
      match outcome
      case Success(next) => State() == next && problem == None
      case Failure(error) => State() == before && problem == Some(error)
    }

    constructor (registered: seq<string>)
      ensures State() == EMPTY && this.registered == registered
    {
      this.registered := registered;
      documents, steps, nextId := map[], [], 0;
    }

    method CreateStepsForDocument(key: DocumentKey, plan: seq<PlanItem>, now: int) returns (problem: Option<Error>)
      modifies this
      ensures Committed(old(State()), Spec.CreateSteps(old(State()), registered, key, plan, now), problem)
    {
      if key.documentType !in registered { return Some(NotRegistered); }
      if key !in documents { return Some(NotFound); }
      if |plan| == 0 {
        documents := WithStatus(documents, key, NotRequired);
        assert PlannedSteps(key, plan, nextId, now) == [] && steps + [] == steps;
        return None;
      }
      ghost var before, planned := steps, PlannedSteps(key, plan, nextId, now);
      for i := 0 to |plan|
        invariant steps == before + planned[..i] && nextId == old(nextId) + i
        invariant documents == old(documents)
      {
        var status := if plan[i].skipped then Skipped else Pending;
        steps := steps + [ApprovalStep(nextId, key, plan[i].sequence, plan[i].stepType, status, None, now)];
        nextId := nextId + 1;
      }
      documents := WithStatus(documents, key, AwaitingApproval);
      return None;
    }

    /** A document and its steps are created in one transaction. */
    method CreateDocument(key: DocumentKey, document: Document, plan: seq<PlanItem>, now: int) returns (problem: Option<Error>)
      modifies this
      ensures Committed(old(State()), Spec.CreateDocument(old(State()), registered, key, document, plan, now), problem)
    {
      var before := documents;
      documents := documents[key := document];
      problem := CreateStepsForDocument(key, plan, now);
      if problem.Some? { documents := before; }
    }

    /** The approval side of an edit that replaces a document's lines. */
    method ReplanAfterEdit(key: DocumentKey, plan: seq<PlanItem>, now: int) returns (problem: Option<Error>)
      modifies this
      ensures Committed(old(State()), Spec.Replan(old(State()), registered, key, plan, now), problem)
    {
      if key !in documents { return Some(NotFound); }
      var decided := Filter(steps, DecidedOf(key));
      if |decided| > 0 { return None; }
      var before := steps;
      steps := Filter(steps, Except(PendingOf(key)));
      problem := CreateStepsForDocument(key, plan, now);
      if problem.Some? { steps := before; }
    }

    /** Reads the document's steps in sequence order and acts on the first pending one. */
    method Decide(resolver: Resolver, organization: string, key: DocumentKey, user: string, approve: bool)
      returns (r: Result<ApprovalStatus, Error>)
      modifies this
      ensures match Spec.Decide(old(State()), registered, resolver, organization, key, user, approve)
              case Success(next) => State() == next && r.Success?
              case Failure(error) => State() == old(State()) && r == Failure(error)
      ensures r.Success? ==> r.value == if !approve then Refused
                else if Filter(steps, PendingOf(key)) == [] then FullyApproved else AwaitingApproval
    {
      if key.documentType !in registered { return Failure(NotRegistered); }
      if key !in documents { return Failure(NotFound); }
      if documents[key].createdBy == Some(user) { return Failure(OwnDocument); }
      var found := Filter(steps, OfDocument(key));
      if |found| == 0 { return Failure(NoSteps); }
      var pending := FindPending(Sort(found, BySequence()));
      if pending.None? { return Failure(NothingPending); }
      if !resolver(organization, pending.value.stepType, key, user) { return Failure(NotEligible); }
      if !approve {
        steps := MapSteps(steps, DecidedAs(pending.value.id, user, Rejected));
        steps := MapSteps(steps, Skipping(key));
        documents := WithStatus(documents, key, Refused);
        return Success(Refused);
      }
      steps := MapSteps(steps, DecidedAs(pending.value.id, user, Approved));
      var remaining := |Filter(steps, PendingOf(key))|;
      if remaining == 0 {
        documents := WithStatus(documents, key, FullyApproved);
        return Success(FullyApproved);
      }
      return Success(AwaitingApproval);
    }

    /** Every step the user could act on, one per document, oldest first. */
    method GetPendingApprovalsForUser(resolver: Resolver, user: string) returns (items: seq<InboxItem>)
      requires Distinct(registered) && UniqueSequences(steps)
      ensures IsInbox(State(), registered, resolver, user, items)
      ensures Distinct(items) && forall i, j | 0 <= i < j < |items| :: items[i].step.createdAt <= items[j].step.createdAt
    {
      var results := [];
      for i := 0 to |registered|
        invariant Distinct(results)
        invariant forall item: InboxItem :: item in results <==>
          && item.document.documentType in registered[..i]
          && Listed(State(), registered, resolver, user, item.document) && Actionable(steps, item.document) == Some(item.step)
      {
        var documentType := registered[i];
        assert documentType !in registered[..i] && registered[..i + 1] == registered[..i] + [documentType];
        var ofType := CollectType(resolver, user, documentType);
        AppendDistinct(results, ofType);
        results := results + ofType;
      }
      assert registered[..|registered|] == registered;
      items := Sort(results, ByCreation());
      SortSorted(results, ByCreation());
      SortDistinct(results, ByCreation());
      forall i, j | 0 <= i < j < |items| ensures items[i].step.createdAt <= items[j].step.createdAt {
        assert ByCreation()(items[i], items[j]);
      }
    }

    /** The earliest pending step of each document of the type, kept if the user may act on it. */
    method CollectType(resolver: Resolver, user: string, documentType: string) returns (results: seq<InboxItem>)
      requires documentType in registered && UniqueSequences(steps)
      ensures Distinct(results)
      ensures forall item: InboxItem :: item in results <==>
        && item.document.documentType == documentType
        && Listed(State(), registered, resolver, user, item.document) && Actionable(steps, item.document) == Some(item.step)
    {
      var earliest := EarliestByDocument(Sort(Filter(steps, PendingOfType(documentType)), BySequence()));
      results := KeepEligible(resolver, user, earliest);
      forall item: InboxItem ensures item in results <==>
        && item.document.documentType == documentType
        && Listed(State(), registered, resolver, user, item.document) && Actionable(steps, item.document) == Some(item.step)
      {
        EarliestIsActionable(steps, documentType, earliest, item.document, item.step);
      }
    }

    predicate Eligible(resolver: Resolver, user: string, step: ApprovalStep)
      reads this
    {
      && step.document in documents
      && resolver(OrganizationOf(documents[step.document]), step.stepType, step.document, user)
    }

    method KeepEligible(resolver: Resolver, user: string, earliest: seq<ApprovalStep>) returns (results: seq<InboxItem>)
      requires Distinct(earliest)
      ensures Distinct(results)
      ensures forall item: InboxItem :: item in results <==>
        item.step in earliest && item.document == item.step.document && Eligible(resolver, user, item.step)
    {
      results := [];
      for i := 0 to |earliest|
        invariant Distinct(results)
        invariant forall item: InboxItem :: item in results <==>
          item.step in earliest[..i] && item.document == item.step.document && Eligible(resolver, user, item.step)
      {
        var step := earliest[i];
        assert earliest[..i + 1] == earliest[..i] + [step];
        assert step !in earliest[..i];
        if Eligible(resolver, user, step) {
          AppendDistinct(results, [InboxItem(step.document, step)]);
          results := results + [InboxItem(step.document, step)];
        }
      }
      assert earliest[..|earliest|] == earliest;
    }
  }

  method FindPending(steps: seq<ApprovalStep>) returns (r: Option<ApprovalStep>)
    ensures r == FirstPending(steps)
  {
    for i := 0 to |steps|
      invariant FirstPending(steps) == FirstPending(steps[i..])
    {
      assert steps[i..][1..] == steps[i + 1..];
      if steps[i].status.Pending? { return Some(steps[i]); }
    }
    return None;
  }

  ghost function DocumentsOf(steps: seq<ApprovalStep>): set<DocumentKey> {
    set s | s in steps :: s.document
  }

  method EarliestByDocument(list: seq<ApprovalStep>) returns (firsts: seq<ApprovalStep>)
    ensures FirstOfEach(list, firsts) && Distinct(firsts)
  {
    firsts := [];
    var seen: set<DocumentKey> := {};
    for i := 0 to |list|
      invariant seen == DocumentsOf(firsts)
      invariant forall k, l | 0 <= k < l < |firsts| :: firsts[k].document != firsts[l].document
      invariant forall s | s in firsts :: FirstFor(list, s)
      invariant forall k | 0 <= k < i :: list[k].document in seen
      invariant forall s | s in firsts :: exists k :: 0 <= k < i && list[k].document == s.document
    {
      if list[i].document !in seen {
        assert FirstFor(list, list[i]) by {
          assert forall j | 0 <= j < i :: list[j].document != list[i].document;
        }
        assert DocumentsOf(firsts + [list[i]]) == DocumentsOf(firsts) + {list[i].document} by {
          assert list[i] in firsts + [list[i]];
          forall s | s in firsts ensures s in firsts + [list[i]] {}
        }
        forall k | 0 <= k < |firsts| ensures firsts[k].document in seen {
          assert firsts[k] in firsts;
        }
        firsts := firsts + [list[i]];
        seen := seen + {list[i].document};
      }
    }
    forall s | s in list ensures exists f :: f in firsts && f.document == s.document {
      var k :| 0 <= k < |list| && list[k] == s;
      assert s.document in seen;
    }
  }

  lemma AppendDistinct<T>(a: seq<T>, b: seq<T>)
    requires Distinct(a) && Distinct(b) && forall x :: !(x in a && x in b)
    ensures Distinct(a + b)
  {
    forall i, j | 0 <= i < j < |a + b| ensures (a + b)[i] != (a + b)[j] {
      if i < |a| && j >= |a| {
        assert a[i] in a && b[j - |a|] in b;
      }
    }
  }
}
