// The audit log of one tenant: every event is hashed together with the hash of the one before it.
module AuditLog {
  import opened Wrappers
  import opened Seqs
  import opened CanonicalJson

  /** A stored event; an absent JSON column is None. Timestamps order the log. */
  datatype Event = Event(id: nat, timestamp: int, tenantId: Option<string>, eventType: string, entityType: string,
                         entityId: string, action: string, userId: Option<string>, oldValues: Option<Json>,
                         newValues: Option<Json>, integrityHash: Option<string>, previousEventHash: Option<string>)

  /** What the caller hands over; metadata and the unhashed columns are left aside. */
  datatype Params = Params(tenantId: Option<string>, eventType: string, entityType: string, entityId: string,
                           action: string, userId: Option<string>, oldValues: Option<Json>, newValues: Option<Json>)

  // ----- redaction -----

  predicate IsSensitive(key: string) {
    || key == "password" || key == "passwordHash" || key == "token"
    || key == "refreshToken" || key == "accessToken" || key == "secret"
  }

  const MASK := Str("[REDACTED]")

  function RedactItems(items: seq<Json>): seq<Json> {
    if items == [] then [] else [Redact(items[0])] + RedactItems(items[1..])
  }

  function RedactField(field: Field): Field {
    Field(field.key, if IsSensitive(field.key) then MASK else Redact(field.value))
  }

  function RedactFields(fields: seq<Field>): seq<Field> {
    if fields == [] then [] else [RedactField(fields[0])] + RedactFields(fields[1..])
  }

  function Redact(value: Json): Json {
    match value
    case Arr(items) => Arr(RedactItems(items))
    case Obj(fields) => Obj(RedactFields(fields))
    case _ => value
  }

  function RedactOption(value: Option<Json>): Option<Json> {
    if value.Some? then Some(Redact(value.value)) else None
  }

  method RedactDeep(value: Json) returns (r: Json)
    ensures r == Redact(value)
    decreases value
  {
    match value {
      case Arr(items) =>
        var redacted := [];
        RedactedItems(items);
        for i := 0 to |items|
          invariant redacted == RedactItems(items)[..i]
        {
          var item := RedactDeep(items[i]);
          redacted := redacted + [item];
        }
        r := Arr(redacted);
      case Obj(fields) =>
        var result := [];
        RedactedFields(fields);
        for i := 0 to |fields|
          invariant result == RedactFields(fields)[..i]
        {
          if IsSensitive(fields[i].key) {
            result := result + [Field(fields[i].key, MASK)];
          } else {
            var inner := RedactDeep(fields[i].value);
            result := result + [Field(fields[i].key, inner)];
          }
        }
        r := Obj(result);
      case _ =>
        r := value;
    }
  }

  lemma {:induction false} RedactedItems(items: seq<Json>)
    ensures |RedactItems(items)| == |items|
    ensures forall i | 0 <= i < |items| :: RedactItems(items)[i] == Redact(items[i])
  {
    if items != [] {
      RedactedItems(items[1..]);
    }
  }

  lemma {:induction false} RedactedFields(fields: seq<Field>)
    ensures |RedactFields(fields)| == |fields|
    ensures forall i | 0 <= i < |fields| :: RedactFields(fields)[i] == RedactField(fields[i])
  {
    if fields != [] {
      RedactedFields(fields[1..]);
    }
  }

  /** No sensitive key holds anything but the mask, at any depth. */
  ghost predicate NoSecrets(value: Json) {
    match value
    case Arr(items) => forall i | 0 <= i < |items| :: NoSecrets(items[i])
    case Obj(fields) =>
      forall i | 0 <= i < |fields| ::
        if IsSensitive(fields[i].key) then fields[i].value == MASK else NoSecrets(fields[i].value)
    case _ => true
  }

  lemma {:induction false} RedactedHasNoSecrets(value: Json)
    ensures NoSecrets(Redact(value))
    decreases value
  {
    match value
    case Arr(items) =>
      RedactedItems(items);
      forall i | 0 <= i < |items| ensures NoSecrets(RedactItems(items)[i]) {
        RedactedHasNoSecrets(items[i]);
      }
    case Obj(fields) =>
      RedactedFields(fields);
      forall i | 0 <= i < |fields| && !IsSensitive(fields[i].key) ensures NoSecrets(RedactFields(fields)[i].value) {
        RedactedHasNoSecrets(fields[i].value);
      }
    case _ =>
  }

  /** Redaction changes exactly the values that hold a secret, so doing it twice is doing it once. */
  lemma {:induction false} RedactIsIdentityIff(value: Json)
    ensures Redact(value) == value <==> NoSecrets(value)
    decreases value
  {
    match value
    case Arr(items) =>
      RedactedItems(items);
      forall i | 0 <= i < |items| ensures RedactItems(items)[i] == items[i] <==> NoSecrets(items[i]) {
        RedactIsIdentityIff(items[i]);
      }
      assert Redact(value) == value <==> forall i | 0 <= i < |items| :: RedactItems(items)[i] == items[i];
    case Obj(fields) =>
      RedactedFields(fields);
      forall i | 0 <= i < |fields|
        ensures RedactFields(fields)[i] == fields[i] <==>
          if IsSensitive(fields[i].key) then fields[i].value == MASK else NoSecrets(fields[i].value)
      {
        RedactIsIdentityIff(fields[i].value);
      }
      assert Redact(value) == value <==> forall i | 0 <= i < |fields| :: RedactFields(fields)[i] == fields[i];
    case _ =>
  }

  lemma {:induction false} RedactedIsValid(value: Json)
    requires Valid(value)
    ensures Valid(Redact(value))
    decreases value
  {
    match value
    case Arr(items) =>
      RedactedItems(items);
      forall i | 0 <= i < |items| ensures Valid(RedactItems(items)[i]) {
        RedactedIsValid(items[i]);
      }
    case Obj(fields) =>
      RedactedFields(fields);
      forall i | 0 <= i < |fields|
        ensures RedactFields(fields)[i].key != "__proto__" && Valid(RedactFields(fields)[i].value)
      {
        RedactedIsValid(fields[i].value);
      }
    case _ =>
  }

  /** The caller's value at every place that is not below one of the six sensitive keys, and the mask at those. */
  ghost predicate Masked(stored: Json, given: Json) {
    match (stored, given)
    case (Arr(x), Arr(y)) => |x| == |y| && forall i | 0 <= i < |x| :: Masked(x[i], y[i])
    case (Obj(f), Obj(g)) =>
      |f| == |g| && forall i | 0 <= i < |f| ::
        && f[i].key == g[i].key
        && if f[i].key in ["password", "passwordHash", "token", "refreshToken", "accessToken", "secret"]
           then f[i].value == Str("[REDACTED]") else Masked(f[i].value, g[i].value)
    case _ => stored == given
  }

  ghost predicate MaskedOption(stored: Option<Json>, given: Option<Json>) {
    if given.Some? then stored.Some? && Masked(stored.value, given.value) else stored.None?
  }

  lemma ItemsAreMasked(items: seq<Json>)
    requires forall i | 0 <= i < |items| :: Masked(Redact(items[i]), items[i])
    ensures Masked(Redact(Arr(items)), Arr(items))
  {
    RedactedItems(items);
  }

  lemma FieldsAreMasked(fields: seq<Field>)
    requires forall i | 0 <= i < |fields| :: Masked(Redact(fields[i].value), fields[i].value)
    ensures Masked(Redact(Obj(fields)), Obj(fields))
  {
    RedactedFields(fields);
  }

  lemma {:induction false} RedactedIsMasked(value: Json)
    ensures Masked(Redact(value), value)
    decreases value
  {
    match value
    case Arr(items) =>
      forall i | 0 <= i < |items| ensures Masked(Redact(items[i]), items[i]) {
        RedactedIsMasked(items[i]);
      }
      ItemsAreMasked(items);
    case Obj(fields) =>
      forall i | 0 <= i < |fields| ensures Masked(Redact(fields[i].value), fields[i].value) {
        RedactedIsMasked(fields[i].value);
      }
      FieldsAreMasked(fields);
    case _ =>
  }

  /** A value without secrets is masked as itself and nothing else. */
  lemma {:induction false} MaskedWithoutSecrets(stored: Json, given: Json)
    requires NoSecrets(given) && Masked(stored, given)
    ensures stored == given
    decreases given
  {
    match (stored, given)
    case (Arr(x), Arr(y)) =>
      forall i | 0 <= i < |x| ensures x[i] == y[i] {
        MaskedWithoutSecrets(x[i], y[i]);
      }
    case (Obj(f), Obj(g)) =>
      forall i | 0 <= i < |f| ensures f[i] == g[i] {
        if !IsSensitive(g[i].key) {
          MaskedWithoutSecrets(f[i].value, g[i].value);
        }
      }
    case _ =>
  }

  /** The event tells what the caller handed over: old values as old and new ones as new. */
  ghost predicate Tells(e: Event, p: Params) {
    && e.tenantId == p.tenantId && e.eventType == p.eventType && e.entityType == p.entityType
    && e.entityId == p.entityId && e.action == p.action && e.userId == p.userId
    && MaskedOption(e.oldValues, p.oldValues) && MaskedOption(e.newValues, p.newValues)
  }

  // ----- what is hashed -----

  function TextOrNull(s: Option<string>): Json {
    if s.Some? then Str(s.value) else Null
  }

  /** An undefined property is not printed. */
  function Property(key: string, value: Option<Json>): seq<Field> {
    if value.Some? then [Field(key, value.value)] else []
  }

  function BaseFields(e: Event): seq<Field> {
    [Field("tenantId", TextOrNull(e.tenantId)), Field("eventType", Str(e.eventType)),
     Field("entityType", Str(e.entityType)), Field("entityId", Str(e.entityId)), Field("action", Str(e.action)),
     Field("userId", TextOrNull(e.userId))]
  }

  function Content(e: Event, oldValues: Option<Json>, newValues: Option<Json>): Json {
    Obj(BaseFields(e) + (Property("oldValues", oldValues) +
        (Property("newValues", newValues) + [Field("previousEventHash", TextOrNull(e.previousEventHash))])))
  }

  /** Recording hashes what the caller passed: absent values are absent keys. */
  function RecordedContent(e: Event): Json {
    Content(e, e.oldValues, e.newValues)
  }

  function OrNull(value: Option<Json>): Option<Json> {
    Some(if value.Some? then value.value else Null)
  }

  /** Verifying hashes what the database returns: absent values are nulls. */
  function VerifiedContent(e: Event): Json {
    Content(e, OrNull(e.oldValues), OrNull(e.newValues))
  }

  // ----- recording -----

  function LastHash(events: seq<Event>): Option<string> {
    if events == [] then None else events[|events| - 1].integrityHash
  }

  /** The row that is stored: values redacted, chained to the last event, then hashed. */
  function NewEvent(events: seq<Event>, id: nat, timestamp: int, p: Params, hash: string -> string): Event {
    var unhashed := Event(id, timestamp, p.tenantId, p.eventType, p.entityType, p.entityId, p.action, p.userId,
                          RedactOption(p.oldValues), RedactOption(p.newValues), None, LastHash(events));
    unhashed.(integrityHash := Some(hash(Canonical(RecordedContent(unhashed)))))
  }

  lemma NewEventTells(events: seq<Event>, id: nat, timestamp: int, p: Params, hash: string -> string)
    ensures var e := NewEvent(events, id, timestamp, p, hash);
      && e.id == id && e.timestamp == timestamp && Tells(e, p)
      && e.previousEventHash == (if events == [] then None else events[|events| - 1].integrityHash)
  {
    if p.oldValues.Some? { RedactedIsMasked(p.oldValues.value); }
    if p.newValues.Some? { RedactedIsMasked(p.newValues.value); }
  }

  // ----- verifying -----

  datatype Verdict = Verdict(valid: bool, eventsChecked: nat, hashMismatches: seq<nat>, chainBreaks: seq<nat>)

  predicate Mismatched(e: Event, hash: string -> string) {
    e.integrityHash.Some? && e.integrityHash.value != "" && hash(Canonical(VerifiedContent(e))) != e.integrityHash.value
  }

  function Mismatches(events: seq<Event>, hash: string -> string): seq<nat> {
    if events == [] then [] else
    if Mismatched(events[0], hash) then [events[0].id] + Mismatches(events[1..], hash) else Mismatches(events[1..], hash)
  }

  predicate Breaks(previous: Option<string>, e: Event) {
    previous.Some? && e.previousEventHash.Some? && e.previousEventHash != previous
  }

  function NextHash(previous: Option<string>, e: Event): Option<string> {
    if e.integrityHash.Some? then e.integrityHash else previous
  }

  function ChainBreaks(events: seq<Event>, previous: Option<string>): seq<nat> {
    if events == [] then [] else
    var rest := ChainBreaks(events[1..], NextHash(previous, events[0]));
    if Breaks(previous, events[0]) then [events[0].id] + rest else rest
  }

  function Verification(events: seq<Event>, hash: string -> string): Verdict {
    var mismatches, breaks := Mismatches(events, hash), ChainBreaks(events, None);
    Verdict(mismatches == [] && breaks == [], |events|, mismatches, breaks)
  }

  function InWindow(from: Option<int>, to: Option<int>): Event -> bool {
    (e: Event) => (from.Some? ==> from.value <= e.timestamp) && (to.Some? ==> e.timestamp <= to.value)
  }

  class AuditTrail {
    var events: seq<Event>

    constructor ()
      ensures events == []
    {
      events := [];
    }

    method Record(id: nat, timestamp: int, p: Params, hash: string -> string) returns (e: Event)
      modifies this
      ensures e == NewEvent(old(events), id, timestamp, p, hash)
      ensures events == old(events) + [e]
      ensures e.id == id && e.timestamp == timestamp && Tells(e, p)
    {
      NewEventTells(events, id, timestamp, p, hash);
      var previous: Option<string> := None;
      if |events| > 0 {
        previous := events[|events| - 1].integrityHash;
      }
      var redactedOld, redactedNew := None, None;
      if p.oldValues.Some? {
        var value := RedactDeep(p.oldValues.value);
        redactedOld := Some(value);
      }
      if p.newValues.Some? {
        var value := RedactDeep(p.newValues.value);
        redactedNew := Some(value);
      }
      e := Event(id, timestamp, p.tenantId, p.eventType, p.entityType, p.entityId, p.action, p.userId,
                 redactedOld, redactedNew, None, previous);
      e := e.(integrityHash := Some(hash(Canonical(RecordedContent(e)))));
      events := events + [e];
    }

    method Verify(from: Option<int>, to: Option<int>, hash: string -> string) returns (r: Verdict)
      ensures r == Verification(Filter(events, InWindow(from, to)), hash)
    {
      var selected := Filter(events, InWindow(from, to));
      r := CheckEvents(selected, hash);
    }
  }

  lemma NextMismatch(events: seq<Event>, hash: string -> string, i: nat, found: seq<nat>)
    requires i < |events|
    ensures found + Mismatches(events[i..], hash)
         == (if Mismatched(events[i], hash) then found + [events[i].id] else found) + Mismatches(events[i + 1..], hash)
  {
    assert events[i..][1..] == events[i + 1..];
  }

  lemma NextBreak(events: seq<Event>, i: nat, previous: Option<string>, found: seq<nat>)
    requires i < |events|
    ensures found + ChainBreaks(events[i..], previous)
         == (if Breaks(previous, events[i]) then found + [events[i].id] else found)
            + ChainBreaks(events[i + 1..], NextHash(previous, events[i]))
  {
    assert events[i..][1..] == events[i + 1..];
  }

  method CheckEvents(events: seq<Event>, hash: string -> string) returns (r: Verdict)
    ensures r == Verification(events, hash)
  {
    var hashMismatches, chainBreaks := [], [];
    var previousHash: Option<string> := None;
    for i := 0 to |events|
      invariant Mismatches(events, hash) == hashMismatches + Mismatches(events[i..], hash)
      invariant ChainBreaks(events, None) == chainBreaks + ChainBreaks(events[i..], previousHash)
    {
      var e := events[i];
      NextMismatch(events, hash, i, hashMismatches);
      NextBreak(events, i, previousHash, chainBreaks);
      if Mismatched(e, hash) {
        hashMismatches := hashMismatches + [e.id];
      }
      if Breaks(previousHash, e) {
        chainBreaks := chainBreaks + [e.id];
      }
      previousHash := if e.integrityHash.Some? then e.integrityHash else previousHash;
    }
    r := Verdict(|hashMismatches| == 0 && |chainBreaks| == 0, |events|, hashMismatches, chainBreaks);
  }
}
