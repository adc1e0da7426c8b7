// Which logs verify, and which changes to a stored log are always noticed.
module TamperEvidence {
  import opened Wrappers
  import opened Seqs
  import opened CanonicalJson
  import opened CanonicalJsonProofs
  import opened AuditLog
  import opened AuditLogProofs

  type Hash = string -> string

  /** Hashed and chained the way `Record` does it. */
  ghost predicate Chained(events: seq<Event>, hash: Hash, i: int)
    requires 0 <= i < |events|
  {
    && ValidEvent(events[i])
    && events[i].integrityHash == Some(hash(Canonical(RecordedContent(events[i]))))
    && events[i].previousEventHash == LastHash(events[..i])
  }

  ghost predicate Built(events: seq<Event>, hash: Hash) {
    forall i {:trigger Chained(events, hash, i)} | 0 <= i < |events| :: Chained(events, hash, i)
  }

  /** Written to the table past `Record`: without a hash and without a predecessor. */
  ghost predicate Unhashed(e: Event) {
    e.integrityHash == None && e.previousEventHash == None
  }

  ghost predicate Logged(events: seq<Event>, hash: Hash, i: int)
    requires 0 <= i < |events|
  {
    Unhashed(events[i]) || Chained(events, hash, i)
  }

  /** Recorded events with such rows between them. */
  ghost predicate Mixed(events: seq<Event>, hash: Hash) {
    forall i {:trigger Logged(events, hash, i)} | 0 <= i < |events| :: Logged(events, hash, i)
  }

  /** Both value columns hold something. */
  ghost predicate Complete(e: Event) {
    e.oldValues.Some? && e.newValues.Some?
  }

  /** Hashed with both values, or not hashed at all. */
  ghost predicate Passing(e: Event) {
    Complete(e) || Unhashed(e)
  }

  lemma BuiltIsMixed(events: seq<Event>, hash: Hash)
    requires Built(events, hash)
    ensures Mixed(events, hash)
  {
    forall i | 0 <= i < |events| ensures Logged(events, hash, i) {
      assert Chained(events, hash, i);
    }
  }

  lemma RecordKeepsBuilt(events: seq<Event>, id: nat, timestamp: int, p: Params, hash: Hash)
    requires Built(events, hash) && ValidOption(p.oldValues) && ValidOption(p.newValues)
    ensures Built(events + [NewEvent(events, id, timestamp, p, hash)], hash)
  {
    var e := NewEvent(events, id, timestamp, p, hash);
    var longer := events + [e];
    if p.oldValues.Some? { RedactedIsValid(p.oldValues.value); }
    if p.newValues.Some? { RedactedIsValid(p.newValues.value); }
    forall i | 0 <= i < |longer| ensures Chained(longer, hash, i) {
      assert longer[..i] == if i < |events| then events[..i] else events;
      if i < |events| {
        assert Chained(events, hash, i);
      }
    }
  }

  /** What one recording is given: the generated id, the clock and the caller's values. */
  datatype Recording = Recording(id: nat, timestamp: int, params: Params)

  /** A log made of recordings only, in order. */
  ghost function Recorded(recordings: seq<Recording>, hash: Hash): seq<Event> {
    if recordings == [] then []
    else
      var before, last := Recorded(recordings[..|recordings| - 1], hash), recordings[|recordings| - 1];
      before + [NewEvent(before, last.id, last.timestamp, last.params, hash)]
  }

  lemma {:induction false} RecordedIsBuilt(recordings: seq<Recording>, hash: Hash)
    requires forall r | r in recordings :: ValidOption(r.params.oldValues) && ValidOption(r.params.newValues)
    ensures Built(Recorded(recordings, hash), hash) && |Recorded(recordings, hash)| == |recordings|
    decreases |recordings|
  {
    if recordings != [] {
      var n := |recordings| - 1;
      var last := recordings[n];
      RecordedIsBuilt(recordings[..n], hash);
      RecordKeepsBuilt(Recorded(recordings[..n], hash), last.id, last.timestamp, last.params, hash);
    }
  }

  ghost predicate TellsRecording(e: Event, r: Recording) {
    e.id == r.id && e.timestamp == r.timestamp && Tells(e, r.params)
  }

  lemma {:induction false} RecordedLength(recordings: seq<Recording>, hash: Hash)
    ensures |Recorded(recordings, hash)| == |recordings|
    decreases |recordings|
  {
    if recordings != [] { RecordedLength(recordings[..|recordings| - 1], hash); }
  }

  lemma LastTells(recordings: seq<Recording>, hash: Hash)
    requires recordings != []
    ensures |Recorded(recordings, hash)| == |recordings|
    ensures TellsRecording(Recorded(recordings, hash)[|recordings| - 1], recordings[|recordings| - 1])
  {
    var n := |recordings| - 1;
    var last, before := recordings[n], Recorded(recordings[..n], hash);
    RecordedLength(recordings[..n], hash);
    NewEventTells(before, last.id, last.timestamp, last.params, hash);
  }

  lemma RecordedInit(recordings: seq<Recording>, hash: Hash)
    requires recordings != []
    ensures var n := |recordings| - 1;
      |Recorded(recordings, hash)| == n + 1 && Recorded(recordings, hash)[..n] == Recorded(recordings[..n], hash)
  {
    RecordedLength(recordings[..|recordings| - 1], hash);
  }

  lemma SliceOfSlice<T>(s: seq<T>, k: nat, n: nat)
    requires k <= n <= |s|
    ensures s[..n][..k] == s[..k]
  {}

  lemma {:induction false} RecordedPrefix(recordings: seq<Recording>, hash: Hash, k: nat)
    requires k <= |recordings|
    ensures |Recorded(recordings, hash)| == |recordings| && Recorded(recordings, hash)[..k] == Recorded(recordings[..k], hash)
    decreases |recordings|
  {
    RecordedLength(recordings, hash);
    if k == |recordings| {
      assert recordings[..k] == recordings;
    } else {
      var n := |recordings| - 1;
      var log := Recorded(recordings, hash);
      RecordedInit(recordings, hash);
      RecordedPrefix(recordings[..n], hash, k);
      SliceOfSlice(recordings, k, n);
      SliceOfSlice(log, k, n);
    }
  }

  /** Event by event, a recorded log tells what the callers handed over. */
  lemma RecordedTells(recordings: seq<Recording>, hash: Hash, i: nat)
    requires i < |recordings|
    ensures |Recorded(recordings, hash)| == |recordings|
    ensures TellsRecording(Recorded(recordings, hash)[i], recordings[i])
  {
    var first := recordings[..i + 1];
    RecordedPrefix(recordings, hash, i + 1);
    LastTells(first, hash);
    assert Recorded(recordings, hash)[i] == Recorded(first, hash)[i] && first[i] == recordings[i];
  }

  /** What was passed without secrets is stored as it was passed. */
  lemma PlainValuesAreKept(recordings: seq<Recording>, hash: Hash, i: nat)
    requires i < |recordings|
    ensures |Recorded(recordings, hash)| == |recordings|
    ensures var e, p := Recorded(recordings, hash)[i], recordings[i].params;
      && (p.oldValues.None? || NoSecrets(p.oldValues.value) ==> e.oldValues == p.oldValues)
      && (p.newValues.None? || NoSecrets(p.newValues.value) ==> e.newValues == p.newValues)
  {
    RecordedTells(recordings, hash, i);
    var e, p := Recorded(recordings, hash)[i], recordings[i].params;
    if p.oldValues.Some? && NoSecrets(p.oldValues.value) { MaskedWithoutSecrets(e.oldValues.value, p.oldValues.value); }
    if p.newValues.Some? && NoSecrets(p.newValues.value) { MaskedWithoutSecrets(e.newValues.value, p.newValues.value); }
  }

  /** What the hash is taken of: the named fields with the stored values, a missing value column leaving no field. */
  lemma HashedFields(e: Event, name: string, value: Json)
    ensures RecordedContent(e).Obj?
    ensures Field(name, value) in RecordedContent(e).fields <==>
      || (name == "tenantId" && value == TextOrNull(e.tenantId)) || (name == "eventType" && value == Str(e.eventType))
      || (name == "entityType" && value == Str(e.entityType)) || (name == "entityId" && value == Str(e.entityId))
      || (name == "action" && value == Str(e.action)) || (name == "userId" && value == TextOrNull(e.userId))
      || (name == "oldValues" && e.oldValues == Some(value)) || (name == "newValues" && e.newValues == Some(value))
      || (name == "previousEventHash" && value == TextOrNull(e.previousEventHash))
  {}

  /** Verification looks at the events dated within the two dates, both included. */
  lemma SelectedIff(events: seq<Event>, from: Option<int>, to: Option<int>, e: Event)
    ensures e in Filter(events, InWindow(from, to)) <==>
      && e in events
      && (from.Some? ==> from.value <= e.timestamp) && (to.Some? ==> e.timestamp <= to.value)
  {
    assert InWindow(from, to)(e) <==> (from.Some? ==> from.value <= e.timestamp) && (to.Some? ==> e.timestamp <= to.value);
  }

  /** What is written to the table: by a recording, or as a row of its own as when a tenant or an organization is set up. */
  datatype Writing = ByRecord(recording: Recording) | Directly(row: Event)

  ghost function Written(writings: seq<Writing>, hash: Hash): seq<Event> {
    if writings == [] then []
    else
      var before, last := Written(writings[..|writings| - 1], hash), writings[|writings| - 1];
      match last
      case ByRecord(r) => before + [NewEvent(before, r.id, r.timestamp, r.params, hash)]
      case Directly(row) => before + [row]
  }

  ghost predicate Writable(writing: Writing) {
    match writing
    case ByRecord(r) => ValidOption(r.params.oldValues) && ValidOption(r.params.newValues)
    case Directly(row) => Unhashed(row)
  }

  lemma NewEventIsLogged(before: seq<Event>, r: Recording, hash: Hash)
    requires ValidOption(r.params.oldValues) && ValidOption(r.params.newValues)
    ensures var longer := before + [NewEvent(before, r.id, r.timestamp, r.params, hash)];
      Logged(longer, hash, |before|)
  {
    if r.params.oldValues.Some? { RedactedIsValid(r.params.oldValues.value); }
    if r.params.newValues.Some? { RedactedIsValid(r.params.newValues.value); }
    var longer := before + [NewEvent(before, r.id, r.timestamp, r.params, hash)];
    assert longer[..|before|] == before;
    assert Chained(longer, hash, |before|);
  }

  lemma MixedOneMore(before: seq<Event>, e: Event, hash: Hash)
    requires Mixed(before, hash) && Logged(before + [e], hash, |before|)
    ensures Mixed(before + [e], hash)
  {
    var longer := before + [e];
    forall i | 0 <= i < |longer| ensures Logged(longer, hash, i) {
      if i < |before| {
        assert Logged(before, hash, i) && longer[..i] == before[..i];
      }
    }
  }

  /** Whatever the table holds was hashed and chained to its last row, or was not hashed at all. */
  lemma {:induction false} WrittenIsMixed(writings: seq<Writing>, hash: Hash)
    requires forall w | w in writings :: Writable(w)
    ensures Mixed(Written(writings, hash), hash) && |Written(writings, hash)| == |writings|
    decreases |writings|
  {
    if writings != [] {
      var n := |writings| - 1;
      var before := Written(writings[..n], hash);
      assert writings[n] in writings;
      WrittenIsMixed(writings[..n], hash);
      match writings[n]
      case ByRecord(r) =>
        NewEventIsLogged(before, r, hash);
        MixedOneMore(before, NewEvent(before, r.id, r.timestamp, r.params, hash), hash);
      case Directly(row) =>
        MixedOneMore(before, row, hash);
    }
  }

  // ----- equal digests, equal contents -----

  lemma DigestsDetermine(a: Event, oldA: Option<Json>, newA: Option<Json>, b: Event, oldB: Option<Json>, newB: Option<Json>, hash: Hash)
    requires Collisionless(hash)
    requires ValidOption(oldA) && ValidOption(newA) && ValidOption(oldB) && ValidOption(newB)
    ensures hash(Canonical(Content(a, oldA, newA))) == hash(Canonical(Content(b, oldB, newB)))
       <==> SameBase(a, b) && SameOption(oldA, oldB) && SameOption(newA, newB)
  {
    ContentIsValid(a, oldA, newA);
    ContentIsValid(b, oldB, newB);
    CanonicalIff(Content(a, oldA, newA), Content(b, oldB, newB));
    if Same(Content(a, oldA, newA), Content(b, oldB, newB)) {
      ContentDetermines(a, oldA, newA, b, oldB, newB);
    }
    if SameBase(a, b) && SameOption(oldA, oldB) && SameOption(newA, newB) {
      FieldsDetermine(a, oldA, newA, b, oldB, newB);
    }
  }

  // ----- which built logs verify -----

  /** A recorded event matches its own hash exactly when neither value column is empty; a row without a hash is
      never reported. */
  lemma MismatchIff(events: seq<Event>, hash: Hash, i: nat)
    requires Collisionless(hash) && Mixed(events, hash) && i < |events|
    ensures Mismatched(events[i], hash) <==> !Passing(events[i])
  {
    var e := events[i];
    assert Logged(events, hash, i);
    if !Unhashed(e) {
      DigestsDetermine(e, OrNull(e.oldValues), OrNull(e.newValues), e, e.oldValues, e.newValues, hash);
      if Complete(e) {
        assert VerifiedContent(e) == RecordedContent(e);
      }
    }
  }

  lemma {:induction false} NoMismatches(events: seq<Event>, hash: Hash)
    ensures Mismatches(events, hash) == [] <==> forall i | 0 <= i < |events| :: !Mismatched(events[i], hash)
  {
    if events != [] {
      NoMismatches(events[1..], hash);
      if forall i | 0 <= i < |events| :: !Mismatched(events[i], hash) {
        forall i | 0 <= i < |events[1..]| ensures !Mismatched(events[1..][i], hash) {
          assert events[1..][i] == events[i + 1];
        }
      } else {
        var i :| 0 <= i < |events| && Mismatched(events[i], hash);
        assert i > 0 ==> events[1..][i - 1] == events[i];
      }
    }
  }

  lemma LastOfPrefix(events: seq<Event>, hash: Hash, i: nat)
    requires Built(events, hash) && i < |events|
    ensures events[i].integrityHash.Some? && LastHash(events[..i + 1]) == events[i].integrityHash
  {
    assert Chained(events, hash, i);
    assert events[..i + 1][i] == events[i];
  }

  /** The hash known so far fits the rows up to i, or cannot clash with what the next one names. */
  ghost predicate FitsPrefix(events: seq<Event>, i: nat, previous: Option<string>)
    requires i <= |events|
  {
    previous.None? || LastHash(events[..i]).None? || previous == LastHash(events[..i])
  }

  lemma NextFits(events: seq<Event>, hash: Hash, i: nat, previous: Option<string>)
    requires Mixed(events, hash) && i < |events|
    ensures FitsPrefix(events, i + 1, NextHash(previous, events[i]))
    ensures Breaks(previous, events[i]) ==> events[i].previousEventHash == LastHash(events[..i])
  {
    assert Logged(events, hash, i);
    assert events[..i + 1][i] == events[i];
  }

  lemma {:induction false} ChainIntact(events: seq<Event>, hash: Hash, i: nat, j: nat, previous: Option<string>)
    requires Mixed(events, hash) && i <= j <= |events| && FitsPrefix(events, i, previous)
    ensures ChainBreaks(events[i..j], previous) == []
    decreases j - i
  {
    if i < j {
      NextFits(events, hash, i, previous);
      assert events[i..j][1..] == events[i + 1..j];
      ChainIntact(events, hash, i + 1, j, NextHash(previous, events[i]));
    }
  }

  lemma NoMismatchWithin(events: seq<Event>, hash: Hash, i: nat, j: nat)
    requires i <= j <= |events|
    ensures Mismatches(events[i..j], hash) == [] <==> forall k | i <= k < j :: !Mismatched(events[k], hash)
  {
    var window := events[i..j];
    NoMismatches(window, hash);
    if Mismatches(window, hash) == [] {
      forall k | i <= k < j ensures !Mismatched(events[k], hash) {
        assert window[k - i] == events[k];
      }
    }
  }

  /** Any contiguous part of the table verifies exactly when all its hashed events have both values; the chain itself is
      never reported broken, rows without a hash between its parts included. */
  lemma WindowVerifiesIff(events: seq<Event>, hash: Hash, i: nat, j: nat)
    requires Collisionless(hash) && Mixed(events, hash) && i <= j <= |events|
    ensures Verification(events[i..j], hash).valid <==> forall k | i <= k < j :: Passing(events[k])
    ensures Verification(events[i..j], hash).chainBreaks == []
  {
    ChainIntact(events, hash, i, j, None);
    NoMismatchWithin(events, hash, i, j);
    forall k: nat | i <= k < j ensures Mismatched(events[k], hash) <==> !Passing(events[k]) {
      MismatchIff(events, hash, k);
    }
  }

  ghost predicate Increasing(events: seq<Event>) {
    forall i, j | 0 <= i < j < |events| :: events[i].timestamp < events[j].timestamp
  }

  lemma FirstFrom(events: seq<Event>, bound: int) returns (k: nat)
    requires Increasing(events)
    ensures k <= |events|
    ensures forall i | 0 <= i < k :: events[i].timestamp < bound
    ensures forall i | k <= i < |events| :: bound <= events[i].timestamp
  {
    k := 0;
    while k < |events| && events[k].timestamp < bound
      invariant k <= |events| && forall i | 0 <= i < k :: events[i].timestamp < bound
    {
      k := k + 1;
    }
  }

  /** A range of dates selects a contiguous part of the log. */
  lemma WindowIsSlice(events: seq<Event>, from: Option<int>, to: Option<int>) returns (i: nat, j: nat)
    requires Increasing(events)
    ensures i <= j <= |events| && Filter(events, InWindow(from, to)) == events[i..j]
  {
    i, j := 0, |events|;
    if from.Some? { i := FirstFrom(events, from.value); }
    if to.Some? { j := FirstFrom(events, to.value + 1); }
    if j < i { j := i; }
    FilterSlice(events, i, j, InWindow(from, to));
  }

  lemma SlicePasses(events: seq<Event>, i: nat, j: nat)
    requires i <= j <= |events|
    ensures (forall e | e in events[i..j] :: Passing(e)) <==> forall k | i <= k < j :: Passing(events[k])
  {
    forall k | i <= k < j ensures events[k] in events[i..j] {
      assert events[i..j][k - i] == events[k];
    }
  }

  /** Verification between any two dates accepts the table exactly when all hashed events between them are complete. */
  lemma DatesVerifyIff(events: seq<Event>, hash: Hash, from: Option<int>, to: Option<int>)
    requires Collisionless(hash) && Mixed(events, hash) && Increasing(events)
    ensures Verification(Filter(events, InWindow(from, to)), hash).valid <==>
      forall e | e in events && InWindow(from, to)(e) :: Passing(e)
  {
    var i, j := WindowIsSlice(events, from, to);
    WindowVerifiesIff(events, hash, i, j);
    SlicePasses(events, i, j);
  }

  // ----- all digests of a log are different -----

  lemma EqualDigestsEqualPrevious(events: seq<Event>, hash: Hash, i: nat, j: nat)
    requires Collisionless(hash) && Built(events, hash) && i < |events| && j < |events|
    requires events[i].integrityHash == events[j].integrityHash
    ensures LastHash(events[..i]) == LastHash(events[..j])
  {
    assert Chained(events, hash, i) && Chained(events, hash, j);
    var a, b := events[i], events[j];
    DigestsDetermine(a, a.oldValues, a.newValues, b, b.oldValues, b.newValues, hash);
  }

  lemma {:induction false} DigestsAreDistinct(events: seq<Event>, hash: Hash, i: nat, j: nat)
    requires Collisionless(hash) && Built(events, hash) && i < j < |events|
    ensures events[i].integrityHash != events[j].integrityHash
    decreases i
  {
    if events[i].integrityHash == events[j].integrityHash {
      EqualDigestsEqualPrevious(events, hash, i, j);
      LastOfPrefix(events, hash, j - 1);
      if i > 0 {
        LastOfPrefix(events, hash, i - 1);
        DigestsAreDistinct(events, hash, i - 1, j - 1);
      }
    }
  }

  // ----- events recorded at the same time -----

  /** The hash the next event is expected to name. */
  ghost function Expected(events: seq<Event>, previous: Option<string>): Option<string>
    decreases |events|
  {
    if events == [] then previous else Expected(events[1..], NextHash(previous, events[0]))
  }

  lemma {:induction false} BreaksConcat(a: seq<Event>, b: seq<Event>, previous: Option<string>)
    ensures ChainBreaks(a + b, previous) == ChainBreaks(a, previous) + ChainBreaks(b, Expected(a, previous))
    decreases |a|
  {
    if a == [] {
      assert a + b == b;
    } else {
      assert (a + b)[1..] == a[1..] + b;
      BreaksConcat(a[1..], b, NextHash(previous, a[0]));
    }
  }

  lemma {:induction false} ExpectedIsLast(events: seq<Event>, hash: Hash, i: nat, previous: Option<string>)
    requires Built(events, hash) && i <= |events|
    requires i == |events| ==> previous == LastHash(events)
    ensures Expected(events[i..], previous) == LastHash(events)
    decreases |events| - i
  {
    if i < |events| {
      LastOfPrefix(events, hash, i);
      assert events[..i + 1] == events ==> i + 1 == |events|;
      assert events[i..][1..] == events[i + 1..];
      if i + 1 == |events| { assert events[..i + 1] == events; }
      ExpectedIsLast(events, hash, i + 1, events[i].integrityHash);
    }
  }

  /** Whatever row follows a recorded log: its link is reported exactly when it names a hash other than the last one's. */
  lemma LateEventBreaksIff(events: seq<Event>, hash: Hash, late: Event)
    requires Built(events, hash)
    ensures ChainBreaks(events + [late], None)
         == if late.previousEventHash.Some? && events != [] && late.previousEventHash != LastHash(events) then [late.id] else []
  {
    BreaksConcat(events, [late], None);
    assert [late][1..] == [];
    BuiltIsMixed(events, hash);
    ChainIntact(events, hash, 0, |events|, None);
    ExpectedIsLast(events, hash, 0, None);
    assert events[0..] == events && events[0..|events|] == events;
    if events != [] {
      LastOfPrefix(events, hash, |events| - 1);
      assert events[..|events|] == events;
    }
  }

  /** Two events recorded on the same log at once both name its last hash. The fork is reported, and the log invalid,
      exactly when the log was not empty; the one event listed is the later of the two. */
  lemma ForkIsReportedIff(events: seq<Event>, hash: Hash, first: Recording, second: Recording)
    requires Collisionless(hash) && Built(events, hash)
    requires ValidOption(first.params.oldValues) && ValidOption(first.params.newValues)
    ensures var a := NewEvent(events, first.id, first.timestamp, first.params, hash);
      var b := NewEvent(events, second.id, second.timestamp, second.params, hash);
      && ChainBreaks(events + [a, b], None) == (if events == [] then [] else [b.id])
      && (events != [] ==> !Verification(events + [a, b], hash).valid)
  {
    var a := NewEvent(events, first.id, first.timestamp, first.params, hash);
    var b := NewEvent(events, second.id, second.timestamp, second.params, hash);
    var log := events + [a];
    RecordKeepsBuilt(events, first.id, first.timestamp, first.params, hash);
    LateEventBreaksIff(log, hash, b);
    assert events + [a, b] == log + [b];
    if events != [] {
      var n := |events|;
      LastOfPrefix(log, hash, n - 1);
      assert log[..n] == events && log[n] == a && log[n - 1] == events[n - 1];
      DigestsAreDistinct(log, hash, n - 1, n);
    }
  }

  // ----- what is noticed -----

  /** The events differ in some hashed field, beyond the order of keys inside their values. */
  ghost predicate Altered(a: Event, b: Event) {
    !(SameBase(a, b) && SameOption(OrNull(a.oldValues), OrNull(b.oldValues)) && SameOption(OrNull(a.newValues), OrNull(b.newValues)))
  }

  lemma {:induction false} MismatchIsListed(events: seq<Event>, hash: Hash, k: nat)
    requires k < |events| && Mismatched(events[k], hash)
    ensures events[k].id in Mismatches(events, hash)
  {
    if k > 0 {
      MismatchIsListed(events[1..], hash, k - 1);
    }
  }

  lemma {:induction false} BreakIsListed(events: seq<Event>, previous: Option<string>, k: nat)
    requires 0 < k < |events|
    requires events[k - 1].integrityHash.Some? && Breaks(events[k - 1].integrityHash, events[k])
    ensures events[k].id in ChainBreaks(events, previous)
    decreases k
  {
    var rest := ChainBreaks(events[1..], NextHash(previous, events[0]));
    if k == 1 {
      assert events[1..][0] == events[1];
    } else {
      BreakIsListed(events[1..], NextHash(previous, events[0]), k - 1);
    }
  }

  /** Altering a hashed field of a stored event is noticed at that event. */
  lemma AlterationIsNoticed(events: seq<Event>, hash: Hash, k: nat, forged: Event)
    requires Collisionless(hash) && Built(events, hash) && k < |events| && Complete(events[k])
    requires ValidEvent(forged) && forged.integrityHash == events[k].integrityHash && Altered(forged, events[k])
    ensures forged.id in Verification(events[k := forged], hash).hashMismatches
    ensures !Verification(events[k := forged], hash).valid
  {
    var e := events[k];
    assert Chained(events, hash, k);
    DigestsDetermine(forged, OrNull(forged.oldValues), OrNull(forged.newValues), e, e.oldValues, e.newValues, hash);
    MismatchIsListed(events[k := forged], hash, k);
  }

  /** Altering it and hashing it anew is noticed at the next event, if there is one. */
  lemma RehashedAlterationIsNoticed(events: seq<Event>, hash: Hash, k: nat, forged: Event)
    requires Collisionless(hash) && Built(events, hash) && k + 1 < |events| && Complete(events[k])
    requires ValidEvent(forged) && Altered(forged, events[k])
    requires forged.integrityHash == Some(hash(Canonical(VerifiedContent(forged))))
    ensures events[k + 1].id in Verification(events[k := forged], hash).chainBreaks
    ensures !Verification(events[k := forged], hash).valid
  {
    var e := events[k];
    assert Chained(events, hash, k) && Chained(events, hash, k + 1);
    LastOfPrefix(events, hash, k);
    DigestsDetermine(forged, OrNull(forged.oldValues), OrNull(forged.newValues), e, e.oldValues, e.newValues, hash);
    BreakIsListed(events[k := forged], None, k + 1);
  }

  ghost predicate Picks(kept: seq<nat>, n: nat) {
    (forall i | 0 <= i < |kept| :: kept[i] < n) && (forall i, j | 0 <= i < j < |kept| :: kept[i] < kept[j])
  }

  ghost function Kept(events: seq<Event>, kept: seq<nat>): seq<Event>
    requires Picks(kept, |events|)
  {
    seq(|kept|, i requires 0 <= i < |kept| => events[kept[i]])
  }

  /** Somewhere two kept neighbours were not neighbours before. */
  lemma {:induction false} GapExists(kept: seq<nat>, n: nat) returns (k: nat)
    requires Picks(kept, n) && 0 < |kept| && kept[|kept| - 1] - kept[0] >= |kept|
    ensures 0 < k < |kept| && kept[k] > kept[k - 1] + 1
  {
    if kept[1] > kept[0] + 1 {
      return 1;
    }
    k := GapExists(kept[1..], n);
    k := k + 1;
  }

  /** Removing any events from between the first and the last is noticed at an event that was kept. */
  lemma DeletionIsNoticed(events: seq<Event>, hash: Hash, kept: seq<nat>)
    requires Collisionless(hash) && Built(events, hash)
    requires Picks(kept, |events|) && 0 < |kept| < |events|
    requires kept[0] == 0 && kept[|kept| - 1] == |events| - 1
    ensures Verification(Kept(events, kept), hash).chainBreaks != []
    ensures !Verification(Kept(events, kept), hash).valid
  {
    var k := GapExists(kept, |events|);
    var a, b := kept[k - 1], kept[k];
    assert Chained(events, hash, b);
    LastOfPrefix(events, hash, a);
    LastOfPrefix(events, hash, b - 1);
    DigestsAreDistinct(events, hash, a, b - 1);
    BreakIsListed(Kept(events, kept), None, k);
  }

  /** With rows in between that were not hashed, events can be taken out before the next recorded one: a run of deleted rows is
      reported exactly when the row after it names a predecessor, and another one than the last hash before the gap. */
  lemma DeletedBlockIff(events: seq<Event>, hash: Hash, i: nat, j: nat)
    requires Mixed(events, hash) && i <= j < |events|
    ensures ChainBreaks(events[..i] + events[j..], None)
         == if Breaks(Expected(events[..i], None), events[j]) then [events[j].id] else []
  {
    var before := Expected(events[..i], None);
    BreaksConcat(events[..i], events[j..], None);
    ChainIntact(events, hash, 0, i, None);
    NextFits(events, hash, j, before);
    ChainIntact(events, hash, j + 1, |events|, NextHash(before, events[j]));
    assert events[0..i] == events[..i] && events[j..][1..] == events[j + 1..] && events[j + 1..|events|] == events[j + 1..];
  }

  ghost predicate StoredAs(stored: Event, e: Event) {
    !Altered(stored, e) && stored.integrityHash == e.integrityHash && stored.id == e.id
  }

  /** The database may hand back values with their keys in another order: the verdict stays the same. */
  lemma KeyOrderIsHarmless(events: seq<Event>, hash: Hash, stored: seq<Event>)
    requires Collisionless(hash) && |stored| == |events|
    requires forall i | 0 <= i < |events| :: ValidEvent(events[i]) && ValidEvent(stored[i])
    requires forall i | 0 <= i < |events| :: StoredAs(stored[i], events[i])
    ensures Verification(stored, hash) == Verification(events, hash)
  {
    SameMismatches(events, hash, stored);
    SameBreaks(events, stored, None);
  }

  lemma {:induction false} SameMismatches(events: seq<Event>, hash: Hash, stored: seq<Event>)
    requires Collisionless(hash) && |stored| == |events|
    requires forall i | 0 <= i < |events| :: ValidEvent(events[i]) && ValidEvent(stored[i])
    requires forall i | 0 <= i < |events| :: StoredAs(stored[i], events[i])
    ensures Mismatches(stored, hash) == Mismatches(events, hash)
    decreases |events|
  {
    if events != [] {
      var s, e := stored[0], events[0];
      DigestsDetermine(s, OrNull(s.oldValues), OrNull(s.newValues), e, OrNull(e.oldValues), OrNull(e.newValues), hash);
      SameMismatches(events[1..], hash, stored[1..]);
    }
  }

  lemma {:induction false} SameBreaks(events: seq<Event>, stored: seq<Event>, previous: Option<string>)
    requires |stored| == |events|
    requires forall i | 0 <= i < |events| :: StoredAs(stored[i], events[i])
    ensures ChainBreaks(stored, previous) == ChainBreaks(events, previous)
    decreases |events|
  {
    if events != [] {
      assert StoredAs(stored[0], events[0]);
      SameBreaks(events[1..], stored[1..], NextHash(previous, events[0]));
    }
  }
}
