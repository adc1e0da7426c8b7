// What every run of the posting engine keeps: the register holds exactly the movements of the
// posted and reversed entries, and each of those entries balances. A reversal is never
// validated by the code, so its balance is derived from the entry it flips.
module LedgerInvariant {
  import opened Wrappers
  import opened Seqs
  import opened Ledger

  /** One entry against the register. */
  ghost predicate EntryConsistent(ledger: Ledger, id: EntryId)
    requires id in ledger.entries
  {
    var entry := ledger.entries[id];
    && id < ledger.nextId
    && entry.lines != []
    && (forall line :: line in entry.lines ==> line.amount > 0)
    && Filter(ledger.movements, OfEntry(id)) == (if entry.status.Draft? then [] else MovementsFor(id, entry))
    && (!entry.status.Draft? ==> Balanced(entry.lines))
  }

  /** What identifies a dimension value on a line; the reference type is only a label. */
  datatype DimensionKey = DimensionKey(definition: string, reference: string, scalar: Option<string>)

  function KeyOf(dimension: Dimension): DimensionKey {
    DimensionKey(dimension.definition, dimension.reference, dimension.scalar)
  }

  ghost function KeysOf(line: Line): multiset<DimensionKey> {
    multiset(seq(|line.dimensions|, i requires 0 <= i < |line.dimensions| => KeyOf(line.dimensions[i])))
  }

  ghost predicate Opposite(a: Line, b: Line) {
    a.account == b.account && a.side == Flip(b.side) && a.amount == b.amount && a.detail == b.detail && KeysOf(a) == KeysOf(b)
  }

  ghost predicate OppositeLines(a: seq<Line>, b: seq<Line>) {
    |a| == |b| && forall i :: 0 <= i < |a| ==> Opposite(a[i], b[i])
  }

  /** A reversal points back at an earlier entry that stays REVERSED, and mirrors its lines. */
  ghost predicate LinkConsistent(ledger: Ledger, id: EntryId)
    requires id in ledger.entries
  {
    var entry := ledger.entries[id];
    entry.reversalOf.Some? ==>
      var original := entry.reversalOf.value;
      && original in ledger.entries && original < id
      && ledger.entries[original].status.Reversed?
      && ledger.entries[original].organization == entry.organization
      && OppositeLines(entry.lines, ledger.entries[original].lines)
  }

  ghost predicate ReversedOnce(ledger: Ledger) {
    forall i, j {:trigger ledger.entries[i].reversalOf, ledger.entries[j].reversalOf} |
      i in ledger.entries && j in ledger.entries ::
      ledger.entries[i].reversalOf.Some? && ledger.entries[i].reversalOf == ledger.entries[j].reversalOf ==> i == j
  }

  ghost predicate Consistent(ledger: Ledger) {
    && (forall id {:trigger EntryConsistent(ledger, id)} :: id in ledger.entries ==> EntryConsistent(ledger, id))
    && (forall id {:trigger LinkConsistent(ledger, id)} :: id in ledger.entries ==> LinkConsistent(ledger, id))
    && (forall movement :: movement in ledger.movements ==> movement.entry in ledger.entries)
    && ReversedOnce(ledger)
  }

  // ----- lines -----

  lemma {:induction false} WrittenDimensions(env: Env, inputs: seq<DimensionInput>)
    requires WriteDimensions(env, inputs, true).Success?
    ensures var written := WriteDimensions(env, inputs, true).value;
      |written| == |inputs| &&
      forall i :: 0 <= i < |inputs| ==> KeyOf(written[i]) == DimensionKey(inputs[i].key, inputs[i].reference, inputs[i].scalar)
  {
    if inputs != [] {
      WrittenDimensions(env, inputs[1..]);
    }
  }

  /** Written lines keep account, side and amount, in order. */
  lemma {:induction false} WrittenLines(env: Env, inputs: seq<LineInput>, byId: bool)
    requires WriteLines(env, inputs, byId).Success?
    ensures var lines := WriteLines(env, inputs, byId).value;
      |lines| == |inputs| &&
      forall i :: 0 <= i < |inputs| ==>
        && WriteLine(env, inputs[i], byId) == Success(lines[i])
        && lines[i].account == inputs[i].account && lines[i].side == inputs[i].side
        && lines[i].amount == inputs[i].amount
  {
    if inputs != [] {
      WrittenLines(env, inputs[1..], byId);
    }
  }

  lemma FlippedKeys(env: Env, line: Line, written: Line)
    requires WriteLine(env, FlipLine(line), true) == Success(written)
    ensures Opposite(written, line)
  {
    WrittenDimensions(env, FlipLine(line).dimensions);
    assert seq(|written.dimensions|, i requires 0 <= i < |written.dimensions| => KeyOf(written.dimensions[i]))
        == seq(|line.dimensions|, i requires 0 <= i < |line.dimensions| => KeyOf(line.dimensions[i]));
  }

  /** The lines a reversal writes are the originals on the other side, dimensions included. */
  lemma FlippedLines(env: Env, lines: seq<Line>)
    requires WriteLines(env, FlipLines(lines), true).Success?
    ensures OppositeLines(WriteLines(env, FlipLines(lines), true).value, lines)
  {
    var written := WriteLines(env, FlipLines(lines), true).value;
    WrittenLines(env, FlipLines(lines), true);
    forall i | 0 <= i < |lines| ensures Opposite(written[i], lines[i]) {
      FlippedKeys(env, lines[i], written[i]);
    }
  }

  /** Flipping a balanced entry leaves it balanced; this stands in for the missing validation. */
  lemma OppositeBalanced(a: seq<Line>, b: seq<Line>)
    requires OppositeLines(a, b) && Balanced(b)
    ensures Balanced(a)
  {
    SumMatching(a, b, OnSide(Debit), OnSide(Credit));
    SumMatching(a, b, OnSide(Credit), OnSide(Debit));
  }

  lemma PositiveOpposites(a: seq<Line>, b: seq<Line>)
    requires OppositeLines(a, b)
    requires forall line :: line in b ==> line.amount > 0
    ensures forall line :: line in a ==> line.amount > 0
  {
    forall i | 0 <= i < |a| ensures a[i].amount > 0 {
      assert b[i] in b;
    }
  }

  // ----- the register under appends and deletions -----

  /** Appending the movements of one entry that had none. */
  lemma AppendMovements(movements: seq<Movement>, id: EntryId, entry: Entry, other: EntryId)
    ensures Filter(movements + MovementsFor(id, entry), OfEntry(other))
         == Filter(movements, OfEntry(other)) + (if other == id then MovementsFor(id, entry) else [])
  {
    FilterAppend(movements, MovementsFor(id, entry), OfEntry(other));
    if other == id {
      FilterAll(MovementsFor(id, entry), OfEntry(other));
    } else {
      FilterNone(MovementsFor(id, entry), OfEntry(other));
    }
  }

  lemma RemoveMovements(movements: seq<Movement>, id: EntryId, other: EntryId)
    ensures Filter(Filter(movements, Except(OfEntry(id))), OfEntry(other))
         == if other == id then [] else Filter(movements, OfEntry(other))
  {
    if other == id {
      FilterNone(Filter(movements, Except(OfEntry(id))), OfEntry(other));
    } else {
      FilterWithin(movements, Except(OfEntry(id)), OfEntry(other));
    }
  }

  lemma NoMovements(ledger: Ledger, id: EntryId)
    requires Consistent(ledger)
    requires id !in ledger.entries || ledger.entries[id].status.Draft?
    ensures Filter(ledger.movements, OfEntry(id)) == []
  {
    if id !in ledger.entries {
      FilterNone(ledger.movements, OfEntry(id));
    } else {
      assert EntryConsistent(ledger, id);
    }
  }

  lemma IdsAreOld(ledger: Ledger)
    requires Consistent(ledger)
    ensures forall id :: id in ledger.entries ==> id < ledger.nextId
  {
    forall id | id in ledger.entries ensures id < ledger.nextId {
      assert EntryConsistent(ledger, id);
    }
  }

  /** A new entry may claim to reverse another only as `reverse` builds it. */
  ghost predicate LinkAllowed(ledger: Ledger, entry: Entry) {
    entry.reversalOf.Some? ==>
      var original := entry.reversalOf.value;
      && original in ledger.entries
      && ledger.entries[original].status.Reversed?
      && ledger.entries[original].organization == entry.organization
      && OppositeLines(entry.lines, ledger.entries[original].lines)
      && forall other | other in ledger.entries :: ledger.entries[other].reversalOf != entry.reversalOf
  }

  /** Posting an entry that has no movements yet, new or draft, keeps the ledger consistent. */
  lemma Posting(ledger: Ledger, id: EntryId, entry: Entry, next: Ledger)
    requires Consistent(ledger)
    requires if id in ledger.entries then
               && ledger.entries[id].status.Draft? && next.nextId == ledger.nextId
               && entry.reversalOf == ledger.entries[id].reversalOf && entry.lines == ledger.entries[id].lines
               && entry.organization == ledger.entries[id].organization
             else
               id == ledger.nextId && next.nextId == id + 1 && LinkAllowed(ledger, entry)
    requires entry.status.Posted? && entry.lines != [] && Balanced(entry.lines)
    requires forall line :: line in entry.lines ==> line.amount > 0
    requires next.entries == ledger.entries[id := entry]
    requires next.movements == ledger.movements + MovementsFor(id, entry)
    ensures Consistent(next)
  {
    NoMovements(ledger, id);
    IdsAreOld(ledger);
    forall other | other in next.entries ensures EntryConsistent(next, other) && LinkConsistent(next, other) {
      AppendMovements(ledger.movements, id, entry, other);
      if other in ledger.entries {
        assert EntryConsistent(ledger, other) && LinkConsistent(ledger, other);
      }
    }
  }

  /** Marking a posted entry REVERSED touches neither its lines nor its movements. */
  lemma MarkingOne(ledger: Ledger, id: EntryId, entry: Entry, other: EntryId)
    requires Consistent(ledger) && other in ledger.entries
    requires id in ledger.entries && ledger.entries[id].status.Posted?
    requires entry == ledger.entries[id].(status := Reversed, version := entry.version)
    ensures var next := ledger.(entries := ledger.entries[id := entry]);
      EntryConsistent(next, other) && LinkConsistent(next, other) && ledger.entries[other].reversalOf != Some(id)
  {
    assert EntryConsistent(ledger, other) && LinkConsistent(ledger, other);
  }

  lemma Marking(ledger: Ledger, id: EntryId, entry: Entry)
    requires Consistent(ledger)
    requires id in ledger.entries && ledger.entries[id].status.Posted?
    requires entry == ledger.entries[id].(status := Reversed, version := entry.version)
    ensures Consistent(ledger.(entries := ledger.entries[id := entry]))
    ensures forall other | other in ledger.entries :: ledger.entries[other].reversalOf != Some(id)
  {
    var next := ledger.(entries := ledger.entries[id := entry]);
    forall other | other in next.entries
      ensures EntryConsistent(next, other) && LinkConsistent(next, other) && ledger.entries[other].reversalOf != Some(id)
    {
      MarkingOne(ledger, id, entry, other);
    }
  }

  // ----- one lemma per command -----

  lemma CreateDraftKeeps(ledger: Ledger, env: Env, organization: string, date: Date, inputs: seq<LineInput>)
    requires Consistent(ledger)
    requires CreateDraft(ledger, env, organization, date, inputs).Success?
    ensures Consistent(CreateDraft(ledger, env, organization, date, inputs).value.0)
  {
    var next := CreateDraft(ledger, env, organization, date, inputs).value.0;
    WrittenLines(env, inputs, false);
    IdsAreOld(ledger);
    NoMovements(ledger, ledger.nextId);
    forall other | other in next.entries ensures EntryConsistent(next, other) && LinkConsistent(next, other) {
      if other != ledger.nextId {
        assert EntryConsistent(ledger, other) && LinkConsistent(ledger, other);
      }
    }
  }

  lemma PostDraftKeeps(ledger: Ledger, env: Env, id: EntryId, version: nat)
    requires Consistent(ledger)
    requires PostDraft(ledger, env, id, version).Success?
    ensures Consistent(PostDraft(ledger, env, id, version).value.0)
  {
    var next := PostDraft(ledger, env, id, version).value.0;
    assert EntryConsistent(ledger, id);
    Posting(ledger, id, next.entries[id], next);
  }

  lemma UnpostKeeps(ledger: Ledger, env: Env, id: EntryId, version: nat)
    requires Consistent(ledger)
    requires Unpost(ledger, env, id, version).Success?
    ensures Consistent(Unpost(ledger, env, id, version).value.0)
  {
    var next := Unpost(ledger, env, id, version).value.0;
    forall other | other in next.entries ensures EntryConsistent(next, other) && LinkConsistent(next, other) {
      assert EntryConsistent(ledger, other) && LinkConsistent(ledger, other);
      RemoveMovements(ledger.movements, id, other);
    }
  }

  /** What a reversal writes is in order, although nothing checks it. */
  lemma ReversalLinesSound(env: Env, lines: seq<Line>)
    requires lines != [] && Balanced(lines) && forall line :: line in lines ==> line.amount > 0
    requires WriteLines(env, FlipLines(lines), true).Success?
    ensures var written := WriteLines(env, FlipLines(lines), true).value;
      && written != [] && Balanced(written) && OppositeLines(written, lines)
      && forall line :: line in written ==> line.amount > 0
  {
    var written := WriteLines(env, FlipLines(lines), true).value;
    FlippedLines(env, lines);
    OppositeBalanced(written, lines);
    PositiveOpposites(written, lines);
  }

  lemma ReverseShape(ledger: Ledger, env: Env, id: EntryId, version: nat, date: Option<Date>)
    requires Reverse(ledger, env, id, version, date).Success?
    ensures id in ledger.entries && ledger.entries[id].status.Posted?
    ensures var next := Reverse(ledger, env, id, version, date).value.0;
      var original := ledger.entries[id];
      var lines := WriteLines(env, FlipLines(original.lines), true);
      && lines.Success?
      && var reversal := Entry(original.organization, if date.Some? then date.value else original.businessDate,
                               original.source, Some(id), Posted, 1, lines.value);
         var reversed := original.(status := Reversed, version := original.version + 1);
      && next == Ledger(ledger.entries[ledger.nextId := reversal][id := reversed],
                        ledger.movements + MovementsFor(ledger.nextId, reversal), ledger.nextId + 1)
  {}

  /** The original marked REVERSED and the mirrored entry posted. */
  lemma MarkedAndPosted(ledger: Ledger, id: EntryId, reversed: Entry, reversal: Entry, next: Ledger)
    requires Consistent(ledger) && id in ledger.entries && ledger.entries[id].status.Posted?
    requires reversed == ledger.entries[id].(status := Reversed, version := reversed.version)
    requires reversal.reversalOf == Some(id) && reversal.status.Posted? && reversal.organization == reversed.organization
    requires reversal.lines != [] && Balanced(reversal.lines) && OppositeLines(reversal.lines, reversed.lines)
    requires forall line :: line in reversal.lines ==> line.amount > 0
    requires next == Ledger(ledger.entries[ledger.nextId := reversal][id := reversed],
                            ledger.movements + MovementsFor(ledger.nextId, reversal), ledger.nextId + 1)
    ensures Consistent(next)
  {
    IdsAreOld(ledger);
    var marked := ledger.(entries := ledger.entries[id := reversed]);
    Marking(ledger, id, reversed);
    assert next.entries == marked.entries[ledger.nextId := reversal];
    Posting(marked, ledger.nextId, reversal, next);
  }

  lemma ReverseKeeps(ledger: Ledger, env: Env, id: EntryId, version: nat, date: Option<Date>)
    requires Consistent(ledger)
    requires Reverse(ledger, env, id, version, date).Success?
    ensures Consistent(Reverse(ledger, env, id, version, date).value.0)
  {
    var next := Reverse(ledger, env, id, version, date).value.0;
    ReverseShape(ledger, env, id, version, date);
    assert EntryConsistent(ledger, id);
    IdsAreOld(ledger);
    ReversalLinesSound(env, ledger.entries[id].lines);
    MarkedAndPosted(ledger, id, next.entries[id], next.entries[ledger.nextId], next);
  }

  lemma PostBatchKeeps(ledger: Ledger, env: Env, organization: string, date: Date, source: Option<SourceKey>,
                       inputs: seq<LineInput>)
    requires Consistent(ledger)
    requires PostBatch(ledger, env, organization, date, source, inputs).Success?
    ensures Consistent(PostBatch(ledger, env, organization, date, source, inputs).value.0)
  {
    var next := PostBatch(ledger, env, organization, date, source, inputs).value.0;
    WrittenLines(env, inputs, false);
    IdsAreOld(ledger);
    Posting(ledger, ledger.nextId, next.entries[ledger.nextId], next);
  }

  lemma DeleteDraftsKeeps(ledger: Ledger, source: SourceKey)
    requires Consistent(ledger)
    ensures Consistent(DeleteDrafts(ledger, source))
  {
    var next := DeleteDrafts(ledger, source);
    forall id | id in next.entries ensures EntryConsistent(next, id) && LinkConsistent(next, id) {
      assert EntryConsistent(ledger, id) && LinkConsistent(ledger, id);
    }
    forall movement | movement in ledger.movements ensures movement.entry in next.entries {
      var id := movement.entry;
      assert EntryConsistent(ledger, id);
      assert movement in Filter(ledger.movements, OfEntry(id));
    }
  }

  lemma StepKeeps(ledger: Ledger, env: Env, command: Command)
    requires Consistent(ledger)
    ensures Consistent(Step(ledger, env, command))
  {
    if Execute(ledger, env, command).Success? {
      match command
      case CreateDraftCommand(organization, date, inputs) => CreateDraftKeeps(ledger, env, organization, date, inputs);
      case PostDraftCommand(id, version) => PostDraftKeeps(ledger, env, id, version);
      case UnpostCommand(id, version) => UnpostKeeps(ledger, env, id, version);
      case ReverseCommand(id, version, date) => ReverseKeeps(ledger, env, id, version, date);
      case PostBatchCommand(organization, date, source, inputs) => PostBatchKeeps(ledger, env, organization, date, source, inputs);
      case DeleteDraftsCommand(key) => DeleteDraftsKeeps(ledger, key);
    }
  }

  /** Every ledger reachable from a consistent one, in particular from the empty one, is consistent. */
  lemma {:induction false} RunKeeps(ledger: Ledger, steps: seq<(Env, Command)>)
    requires Consistent(ledger)
    ensures Consistent(Run(ledger, steps))
    decreases |steps|
  {
    if steps != [] {
      StepKeeps(ledger, steps[0].0, steps[0].1);
      RunKeeps(Step(ledger, steps[0].0, steps[0].1), steps[1..]);
    }
  }
}
