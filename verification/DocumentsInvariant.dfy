// What every run of document posting keeps, and exactly which manual engine commands would break it.
module DocumentsInvariant {
  import opened Wrappers
  import opened Seqs
  import opened Ledger
  import opened LedgerInvariant
  import opened LedgerHistory
  import opened Documents
  import Journal = Ledger

  /** An entry of a document exists only with it, is POSTED only while the document is, and is never reversed. */
  ghost predicate Owned(f: Framework, id: EntryId)
    requires id in f.ledger.entries
  {
    var entry := f.ledger.entries[id];
    entry.source.Some? ==>
      && entry.source.value in f.documents
      && !entry.status.Reversed?
      && (entry.status.Posted? ==> f.documents[entry.source.value].posting.PostedDocument?)
  }

  ghost predicate OneEntryEach(ledger: Ledger) {
    forall i, j {:trigger ledger.entries[i].source, ledger.entries[j].source} | i in ledger.entries && j in ledger.entries ::
      ledger.entries[i].source.Some? && ledger.entries[i].source == ledger.entries[j].source ==> i == j
  }

  /** A register row belongs to a posted document. */
  ghost predicate RowOwned(f: Framework, row: RegisterRow) {
    row.recorder in f.documents && f.documents[row.recorder].posting.PostedDocument?
  }

  ghost predicate DocumentSound(document: Document) {
    !(document.status.Cancelled? && document.posting.PostedDocument?)
  }

  /** The rows of each document are numbered one, two, three, ... */
  ghost predicate Numbered(register: seq<RegisterRow>, key: SourceKey) {
    var rows := Filter(register, RecordedBy(key));
    forall i | 0 <= i < |rows| :: rows[i].sequence == i + 1
  }

  ghost predicate Sound(f: Framework) {
    && Consistent(f.ledger)
    && (forall id {:trigger Owned(f, id)} :: id in f.ledger.entries ==> Owned(f, id))
    && OneEntryEach(f.ledger)
    && (forall row {:trigger RowOwned(f, row)} :: row in f.register ==> RowOwned(f, row))
    && (forall key | key in f.documents :: DocumentSound(f.documents[key]))
    && (forall key :: Numbered(f.register, key))
  }

  // ----- register -----

  lemma RegisterReplaced(register: seq<RegisterRow>, key: SourceKey, movements: seq<RegisterInput>, other: SourceKey)
    ensures Filter(Filter(register, Except(RecordedBy(key))) + Recorded(key, movements), RecordedBy(other))
         == if other == key then Recorded(key, movements) else Filter(register, RecordedBy(other))
  {
    var kept := Filter(register, Except(RecordedBy(key)));
    FilterAppend(kept, Recorded(key, movements), RecordedBy(other));
    if other == key {
      FilterNone(kept, RecordedBy(other));
      FilterAll(Recorded(key, movements), RecordedBy(other));
    } else {
      FilterWithin(register, Except(RecordedBy(key)), RecordedBy(other));
      FilterNone(Recorded(key, movements), RecordedBy(other));
    }
  }

  lemma RegisterRemoved(register: seq<RegisterRow>, key: SourceKey, other: SourceKey)
    ensures Filter(Filter(register, Except(RecordedBy(key))), RecordedBy(other))
         == if other == key then [] else Filter(register, RecordedBy(other))
  {
    RegisterReplaced(register, key, [], other);
    assert Filter(register, Except(RecordedBy(key))) + Recorded(key, []) == Filter(register, Except(RecordedBy(key)));
  }

  lemma UnpostedHasNoRows(f: Framework, key: SourceKey)
    requires Sound(f)
    requires key !in f.documents || !f.documents[key].posting.PostedDocument?
    ensures Filter(f.register, Except(RecordedBy(key))) == f.register
  {
    forall row | row in f.register ensures Except(RecordedBy(key))(row) {
      assert RowOwned(f, row);
    }
    FilterAll(f.register, Except(RecordedBy(key)));
  }

  // ----- the ledger side of posting and unposting -----

  /** After the stale drafts are gone an unposted document has no entry at all. */
  lemma CleanedHasNone(f: Framework, key: SourceKey, id: EntryId)
    requires Sound(f)
    requires key in f.documents && !f.documents[key].posting.PostedDocument?
    requires id in DeleteDrafts(f.ledger, key).entries
    ensures f.ledger.entries[id].source != Some(key)
  {
    assert Owned(f, id);
  }

  lemma ConsequenceKeeps(f: Framework, env: Env, key: SourceKey, hook: Hook)
    requires Sound(f)
    requires key in f.documents && !f.documents[key].posting.PostedDocument?
    requires PostConsequence(f.ledger, env, key, f.documents[key], hook).Success?
    ensures var next := PostConsequence(f.ledger, env, key, f.documents[key], hook).value;
      && Consistent(next) && OneEntryEach(next)
      && (forall id | id in next.entries && next.entries[id].source != Some(key) ::
            id in f.ledger.entries && next.entries[id] == f.ledger.entries[id])
      && (forall id | id in next.entries && next.entries[id].source == Some(key) :: !next.entries[id].status.Reversed?)
  {
    var next := PostConsequence(f.ledger, env, key, f.documents[key], hook).value;
    forall id | id in f.ledger.entries ensures f.ledger.entries[id].source == Some(key) ==> !f.ledger.entries[id].status.Reversed? {
      assert Owned(f, id);
    }
    match hook
    case NoHook =>
    case Hook(batch) =>
      var cleaned := DeleteDrafts(f.ledger, key);
      DeleteDraftsKeeps(f.ledger, key);
      forall id | id in cleaned.entries ensures cleaned.entries[id].source != Some(key) {
        CleanedHasNone(f, key, id);
      }
      if batch.Some? && batch.value != [] {
        PostBatchKeeps(cleaned, env, f.documents[key].organization, BusinessDate(f.documents[key]), Some(key), batch.value);
        IdsAreOld(cleaned);
      }
  }

  lemma PostKeeps(f: Framework, env: Env, key: SourceKey, version: nat, handler: Handler)
    requires Sound(f)
    requires Post(f, env, key, version, handler).Success?
    ensures Sound(Post(f, env, key, version, handler).value)
  {
    var next := Post(f, env, key, version, handler).value;
    ConsequenceKeeps(f, env, key, handler.hook);
    forall id | id in next.ledger.entries ensures Owned(next, id) {
      if next.ledger.entries[id].source != Some(key) {
        assert Owned(f, id);
      }
    }
    forall row | row in next.register ensures RowOwned(next, row) {
      if row in f.register {
        assert RowOwned(f, row);
      }
    }
    forall other ensures Numbered(next.register, other) {
      RegisterReplaced(f.register, key, handler.movements, other);
      assert Numbered(f.register, other);
    }
  }

  lemma UnpostKeeps(f: Framework, env: Env, key: SourceKey, version: nat, undoRejects: bool)
    requires Sound(f)
    requires Documents.Unpost(f, env, key, version, undoRejects).Success?
    ensures Sound(Documents.Unpost(f, env, key, version, undoRejects).value)
  {
    var next := Documents.Unpost(f, env, key, version, undoRejects).value;
    var active := FindPosted(f.ledger, key, 0);
    IdsAreOld(f.ledger);
    if active.Some? {
      LedgerInvariant.UnpostKeeps(f.ledger, env, active.value, f.ledger.entries[active.value].version);
    }
    forall id | id in next.ledger.entries ensures Owned(next, id) {
      assert Owned(f, id);
      if f.ledger.entries[id].source == Some(key) && active.Some? {
        assert f.ledger.entries[active.value].source == f.ledger.entries[id].source;
      }
    }
    forall row | row in next.register ensures RowOwned(next, row) {
      assert RowOwned(f, row);
    }
    forall other ensures Numbered(next.register, other) {
      RegisterRemoved(f.register, key, other);
      assert Numbered(f.register, other);
    }
  }

  // ----- manual commands -----

  /** What a caller can check before a manual command: it must not reverse a document's entry, nor
      post one behind the document's back. */
  predicate Respectful(f: Framework, command: Command) {
    match command
    case ReverseCommand(id, _, _) => id in f.ledger.entries ==> f.ledger.entries[id].source.None?
    case PostDraftCommand(id, _) =>
      id in f.ledger.entries && f.ledger.entries[id].source.Some? && f.ledger.entries[id].source.value in f.documents ==>
        f.documents[f.ledger.entries[id].source.value].posting.PostedDocument?
    case PostBatchCommand(_, _, source, _) =>
      source.Some? ==>
        && source.value in f.documents && f.documents[source.value].posting.PostedDocument?
        && forall id | id in f.ledger.entries :: f.ledger.entries[id].source != source
    case _ => true
  }

  lemma RespectfulOwned(f: Framework, env: Env, command: Command, id: EntryId)
    requires Sound(f) && Respectful(f, command) && id in Step(f.ledger, env, command).entries
    ensures Owned(f.(ledger := Step(f.ledger, env, command)), id)
  {
    IdsAreOld(f.ledger);
    if id in f.ledger.entries {
      assert Owned(f, id);
    }
  }

  /** Every command but a batch leaves sources where they are; a reversal only copies the absence of one. */
  lemma SourcesStay(f: Framework, env: Env, command: Command, id: EntryId)
    requires Sound(f) && Respectful(f, command) && id in Step(f.ledger, env, command).entries
    ensures var entry := Step(f.ledger, env, command).entries[id];
      if id in f.ledger.entries then entry.source == f.ledger.entries[id].source
      else entry.source.None? || (command.PostBatchCommand? && entry.source == command.source && id == f.ledger.nextId)
  {
    IdsAreOld(f.ledger);
  }

  lemma RespectfulOneEach(f: Framework, env: Env, command: Command)
    requires Sound(f) && Respectful(f, command)
    ensures OneEntryEach(Step(f.ledger, env, command))
  {
    var next := Step(f.ledger, env, command);
    forall i, j | i in next.entries && j in next.entries && next.entries[i].source.Some? && next.entries[i].source == next.entries[j].source
      ensures i == j
    {
      SourcesStay(f, env, command, i);
      SourcesStay(f, env, command, j);
      if i in f.ledger.entries && j in f.ledger.entries {
        assert f.ledger.entries[i].source == f.ledger.entries[j].source;
      }
    }
  }

  lemma RespectfulKeeps(f: Framework, env: Env, command: Command)
    requires Sound(f)
    requires Respectful(f, command)
    ensures Sound(f.(ledger := Step(f.ledger, env, command)))
  {
    var next := f.(ledger := Step(f.ledger, env, command));
    StepKeeps(f.ledger, env, command);
    RespectfulOneEach(f, env, command);
    forall id | id in next.ledger.entries ensures Owned(next, id) {
      RespectfulOwned(f, env, command, id);
    }
    forall row | row in next.register ensures RowOwned(next, row) {
      assert RowOwned(f, row);
    }
  }

  lemma DisrespectfulBreaks(f: Framework, env: Env, command: Command)
    requires Sound(f)
    requires Execute(f.ledger, env, command).Success? && !Respectful(f, command)
    ensures !Sound(f.(ledger := Step(f.ledger, env, command)))
  {
    var next := f.(ledger := Step(f.ledger, env, command));
    var newId := f.ledger.nextId;
    IdsAreOld(f.ledger);
    match command
    case ReverseCommand(id, _, _) =>
      assert id != newId && next.ledger.entries[id].source == next.ledger.entries[newId].source;
      assert !OneEntryEach(next.ledger);
    case PostDraftCommand(id, _) =>
      assert !Owned(next, id);
    case PostBatchCommand(_, _, source, _) =>
      if id :| id in f.ledger.entries && f.ledger.entries[id].source == source {
        assert next.ledger.entries[id].source == next.ledger.entries[newId].source;
        assert !OneEntryEach(next.ledger);
      } else {
        assert !Owned(next, newId);
      }
    case _ =>
  }

  /** A successful manual command keeps documents and journal together exactly when it is respectful. */
  lemma ManualCommandKeepsIff(f: Framework, env: Env, command: Command)
    requires Sound(f)
    requires Execute(f.ledger, env, command).Success?
    ensures Sound(f.(ledger := Step(f.ledger, env, command))) <==> Respectful(f, command)
  {
    if Respectful(f, command) {
      RespectfulKeeps(f, env, command);
    } else {
      DisrespectfulBreaks(f, env, command);
    }
  }

  // ----- runs -----

  ghost function RunMoves(f: Framework, moves: seq<(Env, Move)>): Framework
    decreases |moves|
  {
    if moves == [] then f else RunMoves(Advance(f, moves[0].0, moves[0].1), moves[1..])
  }

  /** Nobody reverses or hand-posts a document's own entry during the run. */
  ghost predicate Undisturbed(f: Framework, moves: seq<(Env, Move)>)
    decreases |moves|
  {
    moves != [] ==>
      && (moves[0].1.EngineMove? ==> Respectful(f, moves[0].1.command))
      && Undisturbed(Advance(f, moves[0].0, moves[0].1), moves[1..])
  }

  lemma MoveKeeps(f: Framework, env: Env, move: Move)
    requires Sound(f)
    requires move.EngineMove? ==> Respectful(f, move.command)
    ensures Sound(Advance(f, env, move))
  {
    match move
    case PostMove(key, version, handler) =>
      if Post(f, env, key, version, handler).Success? { PostKeeps(f, env, key, version, handler); }
    case UnpostMove(key, version, undoRejects) =>
      if Documents.Unpost(f, env, key, version, undoRejects).Success? { UnpostKeeps(f, env, key, version, undoRejects); }
    case EngineMove(command) =>
      RespectfulKeeps(f, env, command);
    case _ =>
      var next := Advance(f, env, move);
      forall id | id in next.ledger.entries ensures Owned(next, id) {
        assert Owned(f, id);
      }
      forall row | row in next.register ensures RowOwned(next, row) {
        assert RowOwned(f, row);
      }
  }

  /** Over every undisturbed run each source has at most one entry, POSTED only while its document is;
      register rows belong to posted documents; no document is both CANCELLED and POSTED. */
  lemma {:induction false} RunMovesKeeps(f: Framework, moves: seq<(Env, Move)>)
    requires Sound(f)
    requires Undisturbed(f, moves)
    ensures Sound(RunMoves(f, moves))
    decreases |moves|
  {
    if moves != [] {
      MoveKeeps(f, moves[0].0, moves[0].1);
      RunMovesKeeps(Advance(f, moves[0].0, moves[0].1), moves[1..]);
    }
  }

  // ----- post, unpost, post -----

  lemma PostedEntryIsFound(f: Framework, key: SourceKey, id: EntryId)
    requires Sound(f)
    requires id in f.ledger.entries && f.ledger.entries[id].source == Some(key) && f.ledger.entries[id].status.Posted?
    ensures FindPosted(f.ledger, key, 0) == Some(id)
  {
    IdsAreOld(f.ledger);
    var found := FindPosted(f.ledger, key, 0);
    assert f.ledger.entries[id].source == Some(key);
    assert found.Some? ==> f.ledger.entries[found.value].source == f.ledger.entries[id].source;
  }

  lemma AppendThenRemove(ledger: Ledger, id: EntryId, entry: Entry)
    requires Consistent(ledger) && id !in ledger.entries
    ensures Filter(ledger.movements + MovementsFor(id, entry), Except(OfEntry(id))) == ledger.movements
  {
    FilterAppend(ledger.movements, MovementsFor(id, entry), Except(OfEntry(id)));
    FilterNone(MovementsFor(id, entry), Except(OfEntry(id)));
    FilterAll(ledger.movements, Except(OfEntry(id)));
  }

  lemma LedgerRestored(f: Framework, env: Env, key: SourceKey, version: nat, handler: Handler, laterEnv: Env)
    requires Sound(f)
    requires Post(f, env, key, version, handler).Success?
    requires UnpostConsequence(Post(f, env, key, version, handler).value.ledger, laterEnv, key).Success?
    ensures UnpostConsequence(Post(f, env, key, version, handler).value.ledger, laterEnv, key).value.movements
         == f.ledger.movements
  {
    var posted := Post(f, env, key, version, handler).value;
    PostKeeps(f, env, key, version, handler);
    if handler.hook.Hook? && handler.hook.batch.Some? && handler.hook.batch.value != [] {
      var id := f.ledger.nextId;
      var cleaned := DeleteDrafts(f.ledger, key);
      DeleteDraftsKeeps(f.ledger, key);
      IdsAreOld(cleaned);
      PostedEntryIsFound(posted, key, id);
      AppendThenRemove(cleaned, id, posted.ledger.entries[id]);
    } else {
      forall id | id in posted.ledger.entries && posted.ledger.entries[id].source == Some(key)
        ensures !posted.ledger.entries[id].status.Posted?
      {
        assert Owned(f, id);
      }
    }
  }

  /** Unposting what was just posted puts both registers back exactly as they were. */
  lemma PostThenUnpostRestores(f: Framework, env: Env, key: SourceKey, version: nat, handler: Handler, laterEnv: Env)
    requires Sound(f)
    requires Post(f, env, key, version, handler).Success?
    requires Documents.Unpost(Post(f, env, key, version, handler).value, laterEnv, key, version + 1, false).Success?
    ensures var undone := Documents.Unpost(Post(f, env, key, version, handler).value, laterEnv, key, version + 1, false).value;
      && undone.ledger.movements == f.ledger.movements
      && undone.register == f.register
      && undone.documents == f.documents[key := f.documents[key].(posting := Unposted, version := version + 2)]
  {
    LedgerRestored(f, env, key, version, handler, laterEnv);
    UnpostedHasNoRows(f, key);
    var rows := Recorded(key, handler.movements);
    FilterAppend(f.register, rows, Except(RecordedBy(key)));
    FilterNone(rows, Except(RecordedBy(key)));
  }

  /** The part of a posting that depends only on the document, the handler and the environment:
      the entry that lands in the journal. */
  ghost function EntryPosted(env: Env, key: SourceKey, document: Document, batch: seq<LineInput>): Entry
    requires WriteLines(env, batch, false).Success?
  {
    Entry(document.organization, BusinessDate(document), Some(key), None, Posted, 1, WriteLines(env, batch, false).value)
  }

  /** Posting appends one entry's movements and rewrites the document's register rows, and nothing else. */
  lemma PostAppends(f: Framework, env: Env, key: SourceKey, version: nat, movements: seq<RegisterInput>, batch: seq<LineInput>)
    requires Sound(f) && batch != []
    requires Post(f, env, key, version, Accepts(movements, Hook(Some(batch)))).Success?
    ensures WriteLines(env, batch, false).Success?
    ensures var posted := Post(f, env, key, version, Accepts(movements, Hook(Some(batch)))).value;
      && posted.ledger.movements
         == f.ledger.movements + MovementsFor(f.ledger.nextId, EntryPosted(env, key, f.documents[key], batch))
      && posted.register == f.register + Recorded(key, movements)
  {
    UnpostedHasNoRows(f, key);
  }

  /** Post, unpost, post leaves the movements of a single post; only the entry's id is a later one. */
  lemma RepostEqualsPost(f: Framework, env: Env, key: SourceKey, version: nat, movements: seq<RegisterInput>,
                         batch: seq<LineInput>, laterEnv: Env)
    requires Sound(f) && batch != []
    requires var handler := Accepts(movements, Hook(Some(batch)));
      && Post(f, env, key, version, handler).Success?
      && var undone := Documents.Unpost(Post(f, env, key, version, handler).value, laterEnv, key, version + 1, false);
      && undone.Success?
      && Post(undone.value, env, key, version + 2, handler).Success?
    ensures var handler := Accepts(movements, Hook(Some(batch)));
      var once := Post(f, env, key, version, handler).value;
      var undone := Documents.Unpost(once, laterEnv, key, version + 1, false).value;
      var again := Post(undone, env, key, version + 2, handler).value;
      && again.register == once.register
      && WriteLines(env, batch, false).Success?
      && var entry := EntryPosted(env, key, f.documents[key], batch);
      && once.ledger.movements == f.ledger.movements + MovementsFor(f.ledger.nextId, entry)
      && again.ledger.movements == f.ledger.movements + MovementsFor(undone.ledger.nextId, entry)
  {
    var handler := Accepts(movements, Hook(Some(batch)));
    var once := Post(f, env, key, version, handler).value;
    var undone := Documents.Unpost(once, laterEnv, key, version + 1, false).value;
    PostThenUnpostRestores(f, env, key, version, handler, laterEnv);
    PostKeeps(f, env, key, version, handler);
    UnpostKeeps(once, laterEnv, key, version + 1, false);
    PostAppends(f, env, key, version, movements, batch);
    PostAppends(undone, env, key, version + 2, movements, batch);
  }

  /** The guard in ManualCommandKeepsIff is needed: after a document's entry is reversed by hand, unposting the document
      removes the reversal instead, and the original's movements stay behind with the document NOT_POSTED. */
  lemma ReversedByHandThenUnposted(f: Framework, env: Env, id: EntryId, version: nat, date: Option<Date>,
                                   laterEnv: Env, key: SourceKey, documentVersion: nat)
    requires Sound(f)
    requires id in f.ledger.entries && f.ledger.entries[id].source == Some(key)
    requires Reverse(f.ledger, env, id, version, date).Success?
    requires Documents.Unpost(f.(ledger := Step(f.ledger, env, ReverseCommand(id, version, date))), laterEnv, key,
                              documentVersion, false).Success?
    ensures var undone := Documents.Unpost(f.(ledger := Step(f.ledger, env, ReverseCommand(id, version, date))), laterEnv, key,
                                           documentVersion, false).value;
      && undone.documents[key].posting.Unposted?
      && Filter(undone.ledger.movements, OfEntry(id)) == MovementsFor(id, f.ledger.entries[id]) != []
  {
    var reversed := Step(f.ledger, env, ReverseCommand(id, version, date));
    ReverseKeeps(f.ledger, env, id, version, date);
    assert EntryConsistent(f.ledger, id);
    assert EntryConsistent(reversed, id);
    var found := FindPosted(reversed, key, 0);
    if found.Some? {
      assert found.value != id;
      RemoveMovements(reversed.movements, found.value, id);
    }
  }
}
