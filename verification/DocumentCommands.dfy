// What posting, unposting and cancelling a document demand and leave behind, read off the tables alone.
module DocumentCommands {
  import opened Wrappers
  import opened Seqs
  import opened Ledger
  import opened LedgerCommands
  import opened Documents
  import Journal = Ledger
  import Commands = LedgerCommands

  /** The posting date where there is one, else the document's own. */
  ghost predicate IsDay(document: Document, day: Date) {
    match document.postingDate
    case Some(date) => day == date
    case None => day == document.documentDate
  }

  lemma DayOf(document: Document)
    ensures IsDay(document, BusinessDate(document))
  {}

  /** Nothing else about the documents has changed. */
  ghost predicate OnlyDocument(before: Framework, next: Framework, key: SourceKey) {
    && key in next.documents
    && forall other | other != key :: (other in next.documents <==> other in before.documents)
         && (other in before.documents ==> next.documents[other] == before.documents[other])
  }

  /** The framework's checks before a handler is asked, and what they refuse with: the version, then the state of the
      document, then the period its day falls in. */
  lemma PostGuardIff(document: Document, env: Env, version: nat, day: Date)
    requires IsDay(document, day)
    ensures PostGuard(document, env, version) ==
      if document.version != version then Some(ConcurrencyConflict)
      else if document.status == Cancelled || document.status == DeletionMarked then Some(ValidationFailed)
      else if document.posting == PostedDocument then Some(AlreadyPosted)
      else if env.open(document.organization, day) then None else Some(PeriodClosed)
    ensures UnpostGuard(document, env, version) ==
      if document.version != version then Some(ConcurrencyConflict)
      else if document.posting != PostedDocument then Some(NotPosted)
      else if env.open(document.organization, day) then None else Some(PeriodClosed)
    ensures CancelGuard(document, version) ==
      if document.version != version then Some(ConcurrencyConflict)
      else if document.posting == PostedDocument then Some(ValidationFailed) else None
  {}

  /** The document's rows in the register: those of the last posting, numbered from one in the handler's order. */
  ghost predicate RowsAre(register: seq<RegisterRow>, key: SourceKey, movements: seq<RegisterInput>) {
    && |register| >= |movements|
    && var others, own := register[..|register| - |movements|], register[|register| - |movements|..];
    && (forall i | 0 <= i < |movements| :: own[i] == RegisterRow(key, i + 1, movements[i]))
    && forall row | row in others :: row.recorder != key
  }

  /** The rows of other documents, each as often as before. */
  ghost predicate OthersKeepRows(before: seq<RegisterRow>, after: seq<RegisterRow>, key: SourceKey) {
    forall row: RegisterRow | row.recorder != key :: multiset(after)[row] == multiset(before)[row]
  }

  lemma OneMoreRow(row: RegisterRow, before: seq<RegisterRow>, after: seq<RegisterRow>, key: SourceKey)
    requires OthersKeepRows(before, after, key)
    ensures OthersKeepRows([row] + before, if row.recorder == key then after else [row] + after, key)
  {
    assert multiset([row] + before) == multiset{row} + multiset(before);
    assert multiset([row] + after) == multiset{row} + multiset(after);
  }

  lemma {:induction false} OthersStay(register: seq<RegisterRow>, key: SourceKey)
    ensures OthersKeepRows(register, Filter(register, Except(RecordedBy(key))), key)
    ensures forall row | row in Filter(register, Except(RecordedBy(key))) :: row.recorder != key
  {
    if register != [] {
      OthersStay(register[1..], key);
      assert register == [register[0]] + register[1..];
      OneMoreRow(register[0], register[1..], Filter(register[1..], Except(RecordedBy(key))), key);
    }
  }

  lemma OthersStayBeside(before: seq<RegisterRow>, kept: seq<RegisterRow>, key: SourceKey, movements: seq<RegisterInput>)
    requires OthersKeepRows(before, kept, key)
    ensures OthersKeepRows(before, kept + Recorded(key, movements), key)
  {
    var added := Recorded(key, movements);
    forall row: RegisterRow | row.recorder != key ensures multiset(kept + added)[row] == multiset(before)[row] {
      assert row !in added;
      assert multiset(kept + added) == multiset(kept) + multiset(added);
    }
  }

  lemma RowsComeLast(kept: seq<RegisterRow>, key: SourceKey, movements: seq<RegisterInput>)
    requires forall row | row in kept :: row.recorder != key
    ensures RowsAre(kept + Recorded(key, movements), key, movements)
  {
    var added := Recorded(key, movements);
    var after := kept + added;
    assert after[..|kept|] == kept && after[|kept|..] == added;
  }

  lemma RegisterAfterPosting(register: seq<RegisterRow>, key: SourceKey, movements: seq<RegisterInput>)
    ensures var after := Filter(register, Except(RecordedBy(key))) + Recorded(key, movements);
      RowsAre(after, key, movements) && OthersKeepRows(register, after, key)
  {
    var kept := Filter(register, Except(RecordedBy(key)));
    OthersStay(register, key);
    OthersStayBeside(register, kept, key, movements);
    RowsComeLast(kept, key, movements);
  }

  /** A document that was posted is marked so under the next version; its register rows are the handler's movements, and
      nothing else in documents or register has changed. */
  lemma PostedDocumentIs(f: Framework, env: Env, key: SourceKey, version: nat, handler: Handler)
    requires Documents.Post(f, env, key, version, handler).Success?
    ensures key in f.documents && handler.Accepts? && f.documents[key].version == version
    ensures var next := Documents.Post(f, env, key, version, handler).value;
      && OnlyDocument(f, next, key)
      && next.documents[key] == f.documents[key].(posting := PostedDocument, version := version + 1)
      && RowsAre(next.register, key, handler.movements) && OthersKeepRows(f.register, next.register, key)
  {
    RegisterAfterPosting(f.register, key, handler.movements);
  }

  /** A non-empty batch of the handler is posted for the document: under its key, for its organization and on its day, and
      after the drafts of the document were deleted. Without one the drafts go, without a hook nothing is done. */
  lemma ConsequenceIs(ledger: Ledger, env: Env, key: SourceKey, document: Document, hook: Hook, day: Date)
    requires IsDay(document, day)
    ensures var r := PostConsequence(ledger, env, key, document, hook);
      match hook
      case NoHook => r == Success(ledger)
      case Hook(None) => r == Success(DeleteDrafts(ledger, key))
      case Hook(Some(batch)) =>
        if |batch| == 0 then r == Success(DeleteDrafts(ledger, key))
        else
          match Journal.PostBatch(DeleteDrafts(ledger, key), env, document.organization, day, Some(key), batch)
          case Success(done) => r == Success(done.0)
          case Failure(error) => r == Failure(error)
  {}

  /** The entry that a posting with accounting leaves in the ledger. */
  lemma PostedEntryIs(f: Framework, env: Env, key: SourceKey, version: nat, handler: Handler, batch: seq<LineInput>, day: Date)
    requires Documents.Post(f, env, key, version, handler).Success?
    requires handler.Accepts? && handler.hook == Hook(Some(batch)) && batch != []
    requires key in f.documents && IsDay(f.documents[key], day)
    ensures var next, id := Documents.Post(f, env, key, version, handler).value.ledger, f.ledger.nextId;
      && id in next.entries
      && var entry := next.entries[id];
      && entry.source == Some(key) && entry.organization == f.documents[key].organization && entry.businessDate == day
      && entry.status == Posted && StoredLines(env, batch, false, entry.lines)
      && RegisterGrew(f.ledger, next, id, entry)
  {
    var cleaned := DeleteDrafts(f.ledger, key);
    ConsequenceIs(f.ledger, env, key, f.documents[key], handler.hook, day);
    Commands.BatchIsPosted(cleaned, env, f.documents[key].organization, day, Some(key), batch);
  }

  /** Posting is refused by the guards first, then by the handler, then by the ledger. */
  lemma PostIsRefused(f: Framework, env: Env, key: SourceKey, version: nat, handler: Handler)
    ensures var r := Documents.Post(f, env, key, version, handler);
      && (key !in f.documents ==> r == Failure(NotFound))
      && (key in f.documents ==>
            var document := f.documents[key];
            match PostGuard(document, env, version)
            case Some(error) => r == Failure(error)
            case None =>
              if handler == Rejects then r == Failure(ValidationFailed)
              else
                match PostConsequence(f.ledger, env, key, document, handler.hook)
                case Success(ledger) => r.Success? && r.value.ledger == ledger
                case Failure(error) => r == Failure(error))
  {}

  /** An unposted document is marked so under the next version, its register rows are gone, and the posted entry of the document
      with the lowest id, if there is one, is unposted. */
  lemma UnpostedDocumentIs(f: Framework, env: Env, key: SourceKey, version: nat, undoRejects: bool)
    requires Documents.Unpost(f, env, key, version, undoRejects).Success?
    ensures key in f.documents && !undoRejects && f.documents[key].version == version
    ensures var next := Documents.Unpost(f, env, key, version, undoRejects).value;
      && OnlyDocument(f, next, key)
      && next.documents[key] == f.documents[key].(posting := Unposted, version := version + 1)
      && RowsAre(next.register, key, []) && OthersKeepRows(f.register, next.register, key)
  {
    RegisterAfterPosting(f.register, key, []);
    assert Recorded(key, []) == [];
    assert Filter(f.register, Except(RecordedBy(key))) + [] == Filter(f.register, Except(RecordedBy(key)));
  }

  /** The first posted entry of the source. */
  ghost predicate IsActive(ledger: Ledger, key: SourceKey, id: EntryId) {
    && id < ledger.nextId && id in ledger.entries && ledger.entries[id].source == Some(key) && ledger.entries[id].status == Posted
    && forall other | other < id && other in ledger.entries ::
         ledger.entries[other].source != Some(key) || ledger.entries[other].status != Posted
  }

  lemma {:induction false} FoundIsActive(ledger: Ledger, key: SourceKey, from: EntryId)
    requires forall other | other < from && other in ledger.entries ::
      ledger.entries[other].source != Some(key) || ledger.entries[other].status != Posted
    ensures match FindPosted(ledger, key, from)
            case Some(id) => IsActive(ledger, key, id)
            case None => forall id: EntryId :: !IsActive(ledger, key, id)
    decreases ledger.nextId - from
  {
    if from < ledger.nextId
       && !(from in ledger.entries && ledger.entries[from].source == Some(key) && ledger.entries[from].status == Posted) {
      FoundIsActive(ledger, key, from + 1);
    }
  }

  lemma UnpostedEntryIs(f: Framework, env: Env, key: SourceKey, version: nat, undoRejects: bool)
    requires Documents.Unpost(f, env, key, version, undoRejects).Success?
    ensures var next := Documents.Unpost(f, env, key, version, undoRejects).value.ledger;
      && (forall id: EntryId | IsActive(f.ledger, key, id) ::
            && OnlyEntry(f.ledger, next, id) && RowsGone(f.ledger.movements, next.movements, id)
            && next.entries[id] == f.ledger.entries[id].(status := Draft, version := f.ledger.entries[id].version + 1))
      && ((forall id: EntryId :: !IsActive(f.ledger, key, id)) ==> next == f.ledger)
  {
    FoundIsActive(f.ledger, key, 0);
    forall id: EntryId | IsActive(f.ledger, key, id) ensures FindPosted(f.ledger, key, 0) == Some(id) {}
    var active := FindPosted(f.ledger, key, 0);
    if active.Some? {
      Commands.EntryIsUnposted(f.ledger, env, active.value, f.ledger.entries[active.value].version);
    }
  }

  /** Cancelling marks a document that is not posted, under the next version, and touches nothing else. */
  lemma CancelledDocumentIs(f: Framework, key: SourceKey, version: nat)
    ensures var r := Cancel(f, key, version);
      && (r.Success? <==> key in f.documents && f.documents[key].version == version && f.documents[key].posting != PostedDocument)
      && (r.Success? ==>
            && OnlyDocument(f, r.value, key) && r.value.register == f.register && r.value.ledger == f.ledger
            && r.value.documents[key] == f.documents[key].(status := Cancelled, version := version + 1))
  {}
}
