// Posting, unposting and cancelling source documents: the document table, the movement registers the
// documents write, and the ledger behind them, in one transaction.
module Documents {
  import opened Wrappers
  import opened Seqs
  import opened Ledger
  import Journal = Ledger

  datatype DocumentStatus = DraftDocument | ActiveDocument | Cancelled | DeletionMarked
  datatype PostingStatus = Unposted | PostedDocument | PostingFailed

  datatype Document = Document(version: nat, organization: string, documentDate: Date, postingDate: Option<Date>,
                               status: DocumentStatus, posting: PostingStatus)

  datatype RegisterInput = RegisterInput(register: string, date: Date, payload: string)
  datatype RegisterRow = RegisterRow(recorder: SourceKey, sequence: nat, content: RegisterInput)

  datatype Framework = Framework(documents: map<SourceKey, Document>, register: seq<RegisterRow>, ledger: Ledger)

  /** The accounting consequence a handler declares: none at all, or one computed for this document, if any. */
  datatype Hook = NoHook | Hook(batch: Option<seq<LineInput>>)

  /** What the document type's handler answers during one posting. */
  datatype Handler = Rejects | Accepts(movements: seq<RegisterInput>, hook: Hook)

  function BusinessDate(document: Document): Date {
    if document.postingDate.Some? then document.postingDate.value else document.documentDate
  }

  function RecordedBy(key: SourceKey): RegisterRow -> bool {
    (row: RegisterRow) => row.recorder == key
  }

  /** The rows of one posting are numbered from one. */
  function Recorded(key: SourceKey, movements: seq<RegisterInput>): seq<RegisterRow> {
    seq(|movements|, i requires 0 <= i < |movements| => RegisterRow(key, i + 1, movements[i]))
  }

  /** The accounting step of a posting: drop stale drafts, then post the new batch unless it is empty. */
  function PostConsequence(ledger: Ledger, env: Env, key: SourceKey, document: Document, hook: Hook): Result<Ledger, Error> {
    match hook
    case NoHook => Success(ledger)
    case Hook(batch) =>
      var cleaned := DeleteDrafts(ledger, key);
      if batch.None? || batch.value == [] then
        Success(cleaned)
      else
        var outcome := PostBatch(cleaned, env, document.organization, BusinessDate(document), Some(key), batch.value);
        if outcome.Failure? then Failure(outcome.error) else Success(outcome.value.0)
  }

  /** The framework's own checks before a handler is asked. */
  function PostGuard(document: Document, env: Env, version: nat): Option<Error> {
    if document.version != version then Some(ConcurrencyConflict)
    else if document.status.Cancelled? || document.status.DeletionMarked? then Some(ValidationFailed)
    else if document.posting.PostedDocument? then Some(AlreadyPosted)
    else if !env.open(document.organization, BusinessDate(document)) then Some(PeriodClosed)
    else None
  }

  function UnpostGuard(document: Document, env: Env, version: nat): Option<Error> {
    if document.version != version then Some(ConcurrencyConflict)
    else if !document.posting.PostedDocument? then Some(NotPosted)
    else if !env.open(document.organization, BusinessDate(document)) then Some(PeriodClosed)
    else None
  }

  function CancelGuard(document: Document, version: nat): Option<Error> {
    if document.version != version then Some(ConcurrencyConflict)
    else if document.posting.PostedDocument? then Some(ValidationFailed)
    else None
  }

  function Post(f: Framework, env: Env, key: SourceKey, version: nat, handler: Handler): Result<Framework, Error> {
    if key !in f.documents then Failure(NotFound) else
    var document := f.documents[key];
    var refusal := PostGuard(document, env, version);
    if refusal.Some? then Failure(refusal.value)
    else if handler.Rejects? then Failure(ValidationFailed)
    else
      var ledger := PostConsequence(f.ledger, env, key, document, handler.hook);
      if ledger.Failure? then
        Failure(ledger.error)
      else
        Success(Framework(f.documents[key := document.(posting := PostedDocument, version := version + 1)],
                          Filter(f.register, Except(RecordedBy(key))) + Recorded(key, handler.movements),
                          ledger.value))
  }

  /** The first posted entry of a source, in order of creation. */
  function FindPosted(ledger: Ledger, key: SourceKey, from: EntryId): (r: Option<EntryId>)
    ensures r.Some? ==> r.value in ledger.entries && ledger.entries[r.value].source == Some(key)
                        && ledger.entries[r.value].status.Posted?
    ensures r.None? ==> forall id | id in ledger.entries && from <= id < ledger.nextId ::
                          !(ledger.entries[id].source == Some(key) && ledger.entries[id].status.Posted?)
    decreases ledger.nextId - from
  {
    if from >= ledger.nextId then None
    else if from in ledger.entries && ledger.entries[from].source == Some(key) && ledger.entries[from].status.Posted? then Some(from)
    else FindPosted(ledger, key, from + 1)
  }

  function UnpostConsequence(ledger: Ledger, env: Env, key: SourceKey): Result<Ledger, Error> {
    var active := FindPosted(ledger, key, 0);
    if active.None? then
      Success(ledger)
    else
      var outcome := Journal.Unpost(ledger, env, active.value, ledger.entries[active.value].version);
      if outcome.Failure? then Failure(outcome.error) else Success(outcome.value.0)
  }

  function Unpost(f: Framework, env: Env, key: SourceKey, version: nat, undoRejects: bool): Result<Framework, Error> {
    if key !in f.documents then Failure(NotFound) else
    var document := f.documents[key];
    var refusal := UnpostGuard(document, env, version);
    if refusal.Some? then Failure(refusal.value)
    else if undoRejects then Failure(ValidationFailed)
    else
      var ledger := UnpostConsequence(f.ledger, env, key);
      if ledger.Failure? then
        Failure(ledger.error)
      else
        Success(Framework(f.documents[key := document.(posting := Unposted, version := version + 1)],
                          Filter(f.register, Except(RecordedBy(key))), ledger.value))
  }

  function Cancel(f: Framework, key: SourceKey, version: nat): Result<Framework, Error> {
    if key !in f.documents then Failure(NotFound) else
    var document := f.documents[key];
    var refusal := CancelGuard(document, version);
    if refusal.Some? then Failure(refusal.value)
    else Success(f.(documents := f.documents[key := document.(status := Cancelled, version := version + 1)]))
  }

  /** The steps of a run. Saving stands for the document's own service creating or editing it unposted;
      engine steps are manual operations on the journal. */
  datatype Move =
    | PostMove(key: SourceKey, version: nat, handler: Handler)
    | UnpostMove(key: SourceKey, version: nat, undoRejects: bool)
    | CancelMove(key: SourceKey, version: nat)
    | SaveMove(key: SourceKey, document: Document)
    | EngineMove(command: Command)

  predicate MaySave(f: Framework, key: SourceKey, document: Document) {
    document.posting.Unposted? && (key in f.documents ==> !f.documents[key].posting.PostedDocument?)
  }

  /** A refused move leaves everything as it was. */
  function Advance(f: Framework, env: Env, move: Move): Framework {
    match move
    case PostMove(key, version, handler) =>
      var r := Post(f, env, key, version, handler); if r.Success? then r.value else f
    case UnpostMove(key, version, undoRejects) =>
      var r := Unpost(f, env, key, version, undoRejects); if r.Success? then r.value else f
    case CancelMove(key, version) =>
      var r := Cancel(f, key, version); if r.Success? then r.value else f
    case SaveMove(key, document) =>
      if MaySave(f, key, document) then f.(documents := f.documents[key := document]) else f
    case EngineMove(command) =>
      f.(ledger := Step(f.ledger, env, command))
  }
}
