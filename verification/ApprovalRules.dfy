// The rules of approval in terms of its tables: the steps a plan makes, who may decide, and what a decision writes.
module ApprovalRules {
  import opened Wrappers
  import opened Seqs
  import opened Approvals
  import opened ApprovalsInvariant

  // ----- planning -----

  ghost predicate OnlyDocument(before: Office, next: Office, key: DocumentKey) {
    && key in next.documents
    && forall other | other != key :: (other in next.documents <==> other in before.documents)
         && (other in before.documents ==> next.documents[other] == before.documents[other])
  }

  /** The step made of a plan item: pending, or skipped when the item says so. */
  ghost predicate StepOf(item: PlanItem, key: DocumentKey, now: int, s: ApprovalStep) {
    && s.document == key && s.sequence == item.sequence && s.stepType == item.stepType
    && s.status == (if item.skipped then Skipped else Pending) && s.approvedBy == None && s.createdAt == now
  }

  /** One step per plan item, in order, after the others and under numbers not given out before; the document needs no
      approval when there is none, and awaits it otherwise. */
  lemma StepsArePlanned(office: Office, key: DocumentKey, plan: seq<PlanItem>, now: int)
    requires key in office.documents
    ensures var next := PlanSteps(office, key, plan, now);
      && OnlyDocument(office, next, key)
      && next.documents[key] == office.documents[key].(approvalStatus := if |plan| == 0 then NotRequired else AwaitingApproval)
      && |next.steps| == |office.steps| + |plan| && next.steps[..|office.steps|] == office.steps
      && next.nextId == office.nextId + |plan|
      && forall i | 0 <= i < |plan| ::
           && next.steps[|office.steps| + i].id == office.nextId + i
           && StepOf(plan[i], key, now, next.steps[|office.steps| + i])
  {}

  lemma PlanningIsRefused(office: Office, registered: seq<string>, key: DocumentKey, document: Document, plan: seq<PlanItem>, now: int)
    ensures CreateSteps(office, registered, key, plan, now) ==
      if key.documentType !in registered then Failure(NotRegistered)
      else if key !in office.documents then Failure(NotFound)
      else Success(PlanSteps(office, key, plan, now))
    ensures CreateDocument(office, registered, key, document, plan, now) ==
      if key.documentType !in registered then Failure(NotRegistered)
      else Success(PlanSteps(office.(documents := office.documents[key := document]), key, plan, now))
  {}

  /** After a change of lines: nothing when a step of the document was approved or rejected; else its pending steps are gone,
      everything else stays in its order, and the new plan's steps follow. */
  lemma DocumentIsReplanned(office: Office, registered: seq<string>, key: DocumentKey, plan: seq<PlanItem>, now: int)
    ensures var r := Replan(office, registered, key, plan, now);
      var decided := exists s :: s in office.steps && s.document == key && (s.status == Approved || s.status == Rejected);
      if key !in office.documents then r == Failure(NotFound)
      else if decided then r == Success(office)
      else if key.documentType !in registered then r == Failure(NotRegistered)
      else exists kept :: r == Success(PlanSteps(office.(steps := kept), key, plan, now))
             && forall s :: s in kept <==> s in office.steps && !(s.document == key && s.status == Pending)
  {
    DecidedIff(office, key);
    assert SomeDecided(office, key) <==>
      exists s :: s in office.steps && s.document == key && (s.status == Approved || s.status == Rejected) by {
      forall s | s in office.steps ensures DecidedOf(key)(s) <==> s.document == key && (s.status == Approved || s.status == Rejected) {}
    }
    var kept := WithoutPending(office, key).steps;
    forall s ensures s in kept <==> s in office.steps && !(s.document == key && s.status == Pending) {
      assert Except(PendingOf(key))(s) <==> !(s.document == key && s.status == Pending);
    }
  }

  // ----- deciding -----

  /** The document's pending step with the lowest sequence number. */
  ghost predicate Due(office: Office, key: DocumentKey, s: ApprovalStep) {
    && s in office.steps && s.document == key && s.status == Pending
    && forall other | other in office.steps && other.document == key && other.status == Pending :: s.sequence <= other.sequence
  }

  lemma DueIff(office: Office, key: DocumentKey, s: ApprovalStep)
    requires Sound(office)
    ensures Actionable(office.steps, key) == Some(s) <==> Due(office, key, s)
  {
    SoundIsUnique(office);
    ActionableIff(office.steps, key, s);
    assert IsEarliest(office.steps, key, s) <==> Due(office, key, s) by {
      forall x | x in office.steps ensures PendingOf(key)(x) <==> x.document == key && x.status == Pending {}
    }
  }

  lemma DueUnlessNonePending(office: Office, key: DocumentKey)
    requires Sound(office)
    ensures Actionable(office.steps, key).None? <==> forall s | s in office.steps && s.document == key :: s.status != Pending
    ensures Filter(office.steps, OfDocument(key)) == [] <==> forall s | s in office.steps :: s.document != key
  {
    ActionableIsEarliest(office.steps, key);
    forall s | s in office.steps ensures PendingOf(key)(s) <==> s.document == key && s.status == Pending
                                 ensures OfDocument(key)(s) <==> s.document == key {}
    var own := Filter(office.steps, OfDocument(key));
    if own != [] {
      assert own[0] in own;
    }
  }

  /** A decision goes through exactly when the document's type is registered, the document exists, the user did not create
      it, and the type's rule lets the user act on the pending step that comes first; the error is that of the first of
      these that fails. */
  lemma DecisionGoesThroughIff(office: Office, registered: seq<string>, resolver: Resolver, organization: string,
                               key: DocumentKey, user: string, approve: bool)
    requires Sound(office)
    ensures var r := Decide(office, registered, resolver, organization, key, user, approve);
      r.Success? <==>
        && key.documentType in registered && key in office.documents && office.documents[key].createdBy != Some(user)
        && exists s :: Due(office, key, s) && resolver(organization, s.stepType, key, user)
    ensures var r := Decide(office, registered, resolver, organization, key, user, approve);
      var first := if key.documentType !in registered then NotRegistered
        else if key !in office.documents then NotFound
        else if office.documents[key].createdBy == Some(user) then OwnDocument
        else if forall s | s in office.steps :: s.document != key then NoSteps
        else if forall s | s in office.steps && s.document == key :: s.status != Pending then NothingPending
        else NotEligible;
      r.Failure? ==> r.error == first
  {
    DueUnlessNonePending(office, key);
    if Actionable(office.steps, key).Some? {
      DueIff(office, key, Actionable(office.steps, key).value);
    }
    forall s | Due(office, key, s) ensures Actionable(office.steps, key) == Some(s) {
      DueIff(office, key, s);
    }
  }

  /** The row of the step acted on holds the decision and who made it; a rejection skips what else is pending for the document;
      every other row stays as it is. */
  lemma DecisionWrites(office: Office, registered: seq<string>, resolver: Resolver, organization: string,
                       key: DocumentKey, user: string, approve: bool, s: ApprovalStep)
    requires Sound(office) && Due(office, key, s)
    requires Decide(office, registered, resolver, organization, key, user, approve).Success?
    ensures var next := Decide(office, registered, resolver, organization, key, user, approve).value;
      && |next.steps| == |office.steps| && next.nextId == office.nextId
      && forall i | 0 <= i < |office.steps| ::
           var before := office.steps[i];
           next.steps[i] ==
             if before == s then s.(status := if approve then Approved else Rejected, approvedBy := Some(user))
             else if !approve && before.document == key && before.status == Pending then before.(status := Skipped)
             else before
  {
    DueIff(office, key, s);
    var acted := DecisionStarts(office, registered, resolver, organization, key, user, approve);
    DecidedSteps(office, registered, resolver, organization, key, user, approve, s);
    forall i | 0 <= i < |office.steps| ensures office.steps[i].id == s.id <==> office.steps[i] == s {
      if office.steps[i].id == s.id { SameIdSameStep(office, office.steps[i], s); }
    }
  }

  /** A rejection makes the document REJECTED, an approval APPROVED once nothing of it is pending; no other document changes. */
  lemma DecisionSettles(office: Office, registered: seq<string>, resolver: Resolver, organization: string,
                        key: DocumentKey, user: string, approve: bool)
    requires Decide(office, registered, resolver, organization, key, user, approve).Success?
    ensures var next := Decide(office, registered, resolver, organization, key, user, approve).value;
      && key in office.documents && OnlyDocument(office, next, key)
      && var open := exists s :: s in next.steps && s.document == key && s.status == Pending;
         next.documents[key] == office.documents[key].(approvalStatus :=
           if !approve then Refused else if open then office.documents[key].approvalStatus else FullyApproved)
  {
    var next := Decide(office, registered, resolver, organization, key, user, approve).value;
    var pending := Filter(next.steps, PendingOf(key));
    forall s | s in next.steps ensures PendingOf(key)(s) <==> s.document == key && s.status == Pending {}
    if pending != [] {
      assert pending[0] in pending;
    }
  }

  /** The inbox lists a document for those the type's rule lets act on its due step, asked for the document's organization, or
      for none when it has none. */
  lemma ListedIff(office: Office, registered: seq<string>, resolver: Resolver, user: string, key: DocumentKey)
    requires Sound(office)
    ensures Listed(office, registered, resolver, user, key) <==>
      && key.documentType in registered && key in office.documents
      && exists s :: Due(office, key, s)
           && resolver(match office.documents[key].organization case Some(o) => o case None => "", s.stepType, key, user)
  {
    if Actionable(office.steps, key).Some? {
      DueIff(office, key, Actionable(office.steps, key).value);
    }
    forall s | Due(office, key, s) ensures Actionable(office.steps, key) == Some(s) {
      DueIff(office, key, s);
    }
  }
}
