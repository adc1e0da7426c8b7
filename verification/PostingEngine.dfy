// The posting engine itself: rows created, updated and deleted step by step inside a
// transaction that is rolled back when a check fails.
module PostingEngine {
  import opened Wrappers
  import opened Seqs
  import opened Ledger
  import Spec = Ledger

  /** Movements do not depend on the entry's status or version. */
  lemma StatusIsNotCopied(id: EntryId, entry: Entry, status: Status)
    ensures MovementsFor(id, entry.(status := status)) == MovementsFor(id, entry)
  {}

  /** The lines written so far, followed by what the remaining inputs bring. */
  function Following(written: seq<Line>, rest: Result<seq<Line>, Error>): Result<seq<Line>, Error> {
    if rest.Failure? then rest else Success(written + rest.value)
  }

  lemma NothingWritten(rest: Result<seq<Line>, Error>)
    ensures Following([], rest) == rest
  {
    assert rest.Success? ==> [] + rest.value == rest.value;
  }

  lemma NextLine(env: Env, inputs: seq<LineInput>, byId: bool, written: seq<Line>)
    requires inputs != []
    ensures var line := WriteLine(env, inputs[0], byId);
      Following(written, WriteLines(env, inputs, byId)) ==
        if line.Failure? then Failure(line.error) else Following(written + [line.value], WriteLines(env, inputs[1..], byId))
  {
    var line := WriteLine(env, inputs[0], byId);
    var rest := WriteLines(env, inputs[1..], byId);
    if line.Success? && rest.Success? {
      assert written + [line.value] + rest.value == written + ([line.value] + rest.value);
    }
  }

  /** The ledger a reversal ends with, given that nothing refuses it. */
  lemma ReversalCommits(before: Ledger, env: Env, id: EntryId, date: Option<Date>, lines: seq<Line>)
    requires id in before.entries && before.entries[id].status.Posted?
    requires WriteLines(env, FlipLines(before.entries[id].lines), true) == Success(lines)
    requires env.open(before.entries[id].organization, if date.Some? then date.value else before.entries[id].businessDate)
    ensures var original := before.entries[id];
      var draft := Entry(original.organization, if date.Some? then date.value else original.businessDate,
                         original.source, Some(id), Draft, 1, lines);
      var entries := before.entries[before.nextId := draft];
      var posted := entries[before.nextId := draft.(status := Posted)];
      var after := Ledger(posted[id := original.(status := Reversed, version := original.version + 1)],
                          before.movements + MovementsFor(before.nextId, draft), before.nextId + 1);
      Spec.Reverse(before, env, id, original.version, date) == Success((after, before.nextId))
  {
    var original := before.entries[id];
    var draft := Entry(original.organization, if date.Some? then date.value else original.businessDate,
                       original.source, Some(id), Draft, 1, lines);
    StatusIsNotCopied(before.nextId, draft, Posted);
    assert before.entries[before.nextId := draft][before.nextId := draft.(status := Posted)]
        == before.entries[before.nextId := draft.(status := Posted)];
  }

  class AccountingPostingEngine {
    var entries: map<EntryId, Entry>
    var movements: seq<Movement>
    var nextId: EntryId

    ghost function State(): Ledger
      reads this
    {
      Ledger(entries, movements, nextId)
    }

    /** What a transaction leaves behind: the specified ledger, or the old one and the error. */
    ghost predicate Committed(before: Ledger, outcome: Outcome, r: Result<EntryId, Error>)
      reads this
    {
      match outcome
      case Success(next) => State() == next.0 && r == Success(next.1)
      case Failure(error) => State() == before && r == Failure(error)
    }

    constructor ()
      ensures State() == EMPTY
    {
      entries, movements, nextId := map[], [], 0;
    }

    method CreateDraft(env: Env, organization: string, date: Date, inputs: seq<LineInput>) returns (r: Result<EntryId, Error>)
      modifies this
      ensures Committed(old(State()), Spec.CreateDraft(old(State()), env, organization, date, inputs), r)
    {
      var shaped := AssertShapeValid(inputs);
      if !shaped { return Failure(ValidationFailed); }
      var savedEntries, savedId := entries, nextId;
      var id := nextId;
      nextId := nextId + 1;
      entries := entries[id := Entry(organization, date, None, None, Draft, 1, [])];
      var written := WriteLines(env, id, inputs, false);
      if written.Some? {
        entries, nextId := savedEntries, savedId;
        return Failure(written.value);
      }
      return Success(id);
    }

    method PostDraft(env: Env, id: EntryId, expectedVersion: nat) returns (r: Result<EntryId, Error>)
      modifies this
      ensures Committed(old(State()), Spec.PostDraft(old(State()), env, id, expectedVersion), r)
    {
      if id !in entries { return Failure(NotFound); }
      var entry := entries[id];
      if entry.version != expectedVersion { return Failure(ConcurrencyConflict); }
      if entry.status.Posted? { return Failure(AlreadyPosted); }
      if entry.status.Reversed? { return Failure(ValidationFailed); }
      if !env.open(entry.organization, entry.businessDate) { return Failure(PeriodClosed); }
      var problem := ValidateLinesForPosting(env, entry.lines, entry.businessDate);
      if problem.Some? { return Failure(problem.value); }
      CreateMovementsForLines(id, entry);
      entries := entries[id := entry.(status := Posted, version := entry.version + 1)];
      return Success(id);
    }

    method Unpost(env: Env, id: EntryId, expectedVersion: nat) returns (r: Result<EntryId, Error>)
      modifies this
      ensures Committed(old(State()), Spec.Unpost(old(State()), env, id, expectedVersion), r)
    {
      if id !in entries { return Failure(NotFound); }
      var entry := entries[id];
      if entry.version != expectedVersion { return Failure(ConcurrencyConflict); }
      if !entry.status.Posted? { return Failure(NotPosted); }
      if !env.open(entry.organization, entry.businessDate) { return Failure(PeriodClosed); }
      movements := Filter(movements, Except(OfEntry(id)));
      entries := entries[id := entry.(status := Draft, version := entry.version + 1)];
      return Success(id);
    }

    method Reverse(env: Env, id: EntryId, expectedVersion: nat, reversalDate: Option<Date>)
      returns (r: Result<EntryId, Error>)
      requires nextId !in entries
      modifies this
      ensures Committed(old(State()), Spec.Reverse(old(State()), env, id, expectedVersion, reversalDate), r)
    {
      if id !in entries { return Failure(NotFound); }
      var original := entries[id];
      if original.version != expectedVersion { return Failure(ConcurrencyConflict); }
      if !original.status.Posted? { return Failure(ReversalNotAllowed); }
      var date := if reversalDate.Some? then reversalDate.value else original.businessDate;
      if !env.open(original.organization, date) { return Failure(PeriodClosed); }
      var empty := Entry(original.organization, date, original.source, Some(id), Draft, 1, []);
      var written, reversalId := WriteEntry(env, empty, FlipLines(original.lines), true);
      if written.Some? { return Failure(written.value); }
      ReversalCommits(old(State()), env, id, reversalDate, entries[reversalId].lines);
      CreateMovementsForLines(reversalId, entries[reversalId]);
      entries := entries[reversalId := entries[reversalId].(status := Posted)];
      entries := entries[id := original.(status := Reversed, version := original.version + 1)];
      return Success(reversalId);
    }

    method PostBatch(env: Env, organization: string, date: Date, source: Option<SourceKey>, inputs: seq<LineInput>)
      returns (r: Result<EntryId, Error>)
      modifies this
      ensures Committed(old(State()), Spec.PostBatch(old(State()), env, organization, date, source, inputs), r)
    {
      var refusal := CheckBatch(env, organization, date, source, inputs);
      if refusal.Some? { return Failure(refusal.value); }
      var savedEntries, savedId := entries, nextId;
      var written, id := WriteEntry(env, Entry(organization, date, source, None, Draft, 1, []), inputs, false);
      if written.Some? { return Failure(written.value); }
      var problem := ValidateLinesForPosting(env, entries[id].lines, date);
      if problem.Some? {
        entries, nextId := savedEntries, savedId;
        return Failure(problem.value);
      }
      ghost var lines := entries[id].lines;
      CreateMovementsForLines(id, entries[id]);
      entries := entries[id := entries[id].(status := Posted)];
      assert entries == savedEntries[id := Entry(organization, date, source, None, Posted, 1, lines)];
      StatusIsNotCopied(id, Entry(organization, date, source, None, Draft, 1, lines), Posted);
      return Success(id);
    }

    method CheckBatch(env: Env, organization: string, date: Date, source: Option<SourceKey>, inputs: seq<LineInput>)
      returns (refusal: Option<Error>)
      ensures refusal == BatchRefusal(State(), env, organization, date, source, inputs)
    {
      if source.Some? {
        var active := exists id | id in entries :: entries[id].source == Some(source.value) && entries[id].status.Posted?;
        if active { return Some(DuplicatePosting); }
      }
      var shaped := AssertShapeValid(inputs);
      if !shaped { return Some(ValidationFailed); }
      if !env.open(organization, date) { return Some(PeriodClosed); }
      return None;
    }

    method DeleteDrafts(source: SourceKey)
      modifies this`entries
      ensures State() == Spec.DeleteDrafts(old(State()), source)
    {
      entries := map id | id in entries && !IsStaleDraft(entries[id], source) :: entries[id];
    }

    method AssertShapeValid(lines: seq<LineInput>) returns (ok: bool)
      ensures ok == ShapeValid(lines)
    {
      if lines == [] { return false; }
      for i := 0 to |lines|
        invariant forall k :: 0 <= k < i ==> lines[k].amount > 0
      {
        if lines[i].amount <= 0 { return false; }
      }
      return true;
    }

    /** A new entry and its lines, under the next id; nothing when a line cannot be written. */
    method WriteEntry(env: Env, empty: Entry, inputs: seq<LineInput>, byId: bool) returns (problem: Option<Error>, id: EntryId)
      requires empty.lines == []
      modifies this`entries, this`nextId
      ensures id == old(nextId)
      ensures match Spec.WriteLines(env, inputs, byId)
              case Success(lines) =>
                problem == None && nextId == id + 1 && entries == old(entries)[id := empty.(lines := lines)]
              case Failure(error) => problem == Some(error) && nextId == id && entries == old(entries)
    {
      var savedEntries := entries;
      id := nextId;
      nextId := nextId + 1;
      entries := entries[id := empty];
      problem := WriteLines(env, id, inputs, byId);
      if problem.Some? {
        entries, nextId := savedEntries, id;
      }
    }

    /** Stores the lines of an entry one after the other, or reports the first unknown dimension. */
    method WriteLines(env: Env, id: EntryId, inputs: seq<LineInput>, byId: bool) returns (problem: Option<Error>)
      requires id in entries && entries[id].lines == []
      modifies this`entries
      ensures match Spec.WriteLines(env, inputs, byId)
              case Success(lines) => problem == None && entries == old(entries)[id := old(entries)[id].(lines := lines)]
              case Failure(error) => problem == Some(error)
    {
      ghost var was := entries;
      NothingWritten(Spec.WriteLines(env, inputs, byId));
      assert inputs[0..] == inputs;
      for i := 0 to |inputs|
        invariant id in entries && entries == was[id := was[id].(lines := entries[id].lines)]
        invariant Spec.WriteLines(env, inputs, byId) == Following(entries[id].lines, Spec.WriteLines(env, inputs[i..], byId))
      {
        NextLine(env, inputs[i..], byId, entries[id].lines);
        assert inputs[i..][1..] == inputs[i + 1..];
        var line := WriteLine(env, inputs[i], byId);
        if line.Failure? { return Some(line.error); }
        entries := entries[id := entries[id].(lines := entries[id].lines + [line.value])];
      }
      assert inputs[|inputs|..] == [];
      assert entries[id].lines + [] == entries[id].lines;
      return None;
    }

    /** Every line against its account and dimension rules, then debits against credits. */
    method ValidateLinesForPosting(env: Env, lines: seq<Line>, date: Date) returns (problem: Option<Error>)
      ensures problem == ValidateLines(env, lines, date)
    {
      var debitTotal, creditTotal := 0, 0;
      for i := 0 to |lines|
        invariant CheckLines(env, lines, date) == CheckLines(env, lines[i..], date)
        invariant SumBy(lines, OnSide(Debit)) == debitTotal + SumBy(lines[i..], OnSide(Debit))
        invariant SumBy(lines, OnSide(Credit)) == creditTotal + SumBy(lines[i..], OnSide(Credit))
      {
        assert lines[i..][1..] == lines[i + 1..];
        problem := CheckLine(env, lines[i], date);
        if problem.Some? { return; }
        if lines[i].side == Debit {
          debitTotal := debitTotal + lines[i].amount;
        } else {
          creditTotal := creditTotal + lines[i].amount;
        }
      }
      return if debitTotal != creditTotal then Some(NotBalanced) else None;
    }

    /** One movement per line, in line order, dated and keyed like the entry. */
    method CreateMovementsForLines(id: EntryId, entry: Entry)
      modifies this`movements
      ensures movements == old(movements) + MovementsFor(id, entry)
    {
      for i := 0 to |entry.lines|
        invariant movements == old(movements) + MovementsFor(id, entry)[..i]
      {
        movements := movements
          + [Movement(id, i, entry.organization, entry.businessDate, entry.source, entry.lines[i])];
      }
    }
  }
}
