// Document posting as it runs: registers rewritten row by row, the engine called inside the same
// transaction, and everything rolled back when any step refuses.
module PostingService {
  import opened Wrappers
  import opened Seqs
  import opened Ledger
  import opened Documents
  import Spec = Documents
  import Journal = Ledger
  import PostingEngine

  class DocumentPostingService {
    const engine: PostingEngine.AccountingPostingEngine
    var documents: map<SourceKey, Document>
    var register: seq<RegisterRow>

    ghost function State(): Framework
      reads this, engine
    {
      Framework(documents, register, engine.State())
    }

    ghost predicate Committed(before: Framework, outcome: Result<Framework, Error>, r: Result<nat, Error>, key: SourceKey)
      reads this, engine
    {
      match outcome
      case Success(next) => State() == next && key in documents && r == Success(documents[key].version)
      case Failure(error) => State() == before && r == Failure(error)
    }

    constructor (engine: PostingEngine.AccountingPostingEngine)
      ensures this.engine == engine && documents == map[] && register == []
    {
      this.engine := engine;
      documents, register := map[], [];
    }

    method Post(env: Env, key: SourceKey, expectedVersion: nat, handler: Handler) returns (r: Result<nat, Error>)
      modifies this, engine
      ensures Committed(old(State()), Spec.Post(old(State()), env, key, expectedVersion, handler), r, key)
    {
      if key !in documents { return Failure(NotFound); }
      var document := documents[key];
      if document.version != expectedVersion { return Failure(ConcurrencyConflict); }
      if document.status.Cancelled? || document.status.DeletionMarked? { return Failure(ValidationFailed); }
      if document.posting.PostedDocument? { return Failure(AlreadyPosted); }
      if !env.open(document.organization, BusinessDate(document)) { return Failure(PeriodClosed); }
      if handler.Rejects? { return Failure(ValidationFailed); }

      var savedRegister, savedEntries := register, engine.entries;
      register := Filter(register, Except(RecordedBy(key)));
      SaveMovements(key, handler.movements);
      if handler.hook.Hook? {
        engine.DeleteDrafts(key);
        var batch := handler.hook.batch;
        if batch.Some? && |batch.value| > 0 {
          var posted := engine.PostBatch(env, document.organization, BusinessDate(document), Some(key), batch.value);
          if posted.Failure? {
            register, engine.entries := savedRegister, savedEntries;
            return Failure(posted.error);
          }
        }
      }
      documents := documents[key := document.(posting := PostedDocument, version := expectedVersion + 1)];
      return Success(expectedVersion + 1);
    }

    /** Rows are numbered by a counter that starts over with every posting. */
    method SaveMovements(key: SourceKey, movements: seq<RegisterInput>)
      modifies this`register
      ensures register == old(register) + Recorded(key, movements)
    {
      var sequence := 0;
      for i := 0 to |movements|
        invariant sequence == i
        invariant register == old(register) + Recorded(key, movements)[..i]
      {
        sequence := sequence + 1;
        register := register + [RegisterRow(key, sequence, movements[i])];
      }
    }

    method Unpost(env: Env, key: SourceKey, expectedVersion: nat, undoRejects: bool) returns (r: Result<nat, Error>)
      modifies this, engine
      ensures Committed(old(State()), Spec.Unpost(old(State()), env, key, expectedVersion, undoRejects), r, key)
    {
      if key !in documents { return Failure(NotFound); }
      var document := documents[key];
      if document.version != expectedVersion { return Failure(ConcurrencyConflict); }
      if !document.posting.PostedDocument? { return Failure(Error.NotPosted); }
      if !env.open(document.organization, BusinessDate(document)) { return Failure(PeriodClosed); }

      var savedRegister := register;
      register := Filter(register, Except(RecordedBy(key)));
      if undoRejects {
        register := savedRegister;
        return Failure(ValidationFailed);
      }
      var active := FindActiveEntry(key);
      if active.Some? {
        var undone := engine.Unpost(env, active.value, engine.entries[active.value].version);
        if undone.Failure? {
          register := savedRegister;
          return Failure(undone.error);
        }
      }
      documents := documents[key := document.(posting := Unposted, version := expectedVersion + 1)];
      return Success(expectedVersion + 1);
    }

    method FindActiveEntry(key: SourceKey) returns (r: Option<EntryId>)
      ensures r == FindPosted(engine.State(), key, 0)
    {
      for id := 0 to engine.nextId
        invariant FindPosted(engine.State(), key, 0) == FindPosted(engine.State(), key, id)
      {
        if id in engine.entries && engine.entries[id].source == Some(key) && engine.entries[id].status.Posted? {
          return Some(id);
        }
      }
      return None;
    }

    method Cancel(key: SourceKey, expectedVersion: nat) returns (r: Result<nat, Error>)
      modifies this`documents
      ensures Committed(old(State()), Spec.Cancel(old(State()), key, expectedVersion), r, key)
    {
      if key !in documents { return Failure(NotFound); }
      var document := documents[key];
      if document.version != expectedVersion { return Failure(ConcurrencyConflict); }
      if document.posting.PostedDocument? { return Failure(ValidationFailed); }
      documents := documents[key := document.(status := Cancelled, version := expectedVersion + 1)];
      return Success(expectedVersion + 1);
    }
  }
}
