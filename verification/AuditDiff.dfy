// Differences between two snapshots of an entity: fields compared by their text, collections by the ids of their items.
module AuditDiff {
  import opened Wrappers
  import opened CanonicalJson
  import CanonicalJsonProofs

  datatype Path = WholeField(key: string) | LineOf(key: string, id: Json)
  datatype ChangeType = ItemAdded | ItemRemoved | ItemUpdated
  datatype FieldDiff = FieldDiff(path: Path, change: ChangeType, oldValue: Option<Json>, newValue: Option<Json>)

  type Snapshot = seq<Field>

  // ----- reading a snapshot -----

  function Lookup(fields: Snapshot, key: string): Option<Json> {
    if fields == [] then None else if fields[0].key == key then Some(fields[0].value) else Lookup(fields[1..], key)
  }

  lemma {:induction false} LookupFinds(fields: Snapshot, key: string)
    ensures var r := Lookup(fields, key);
      if r.Some? then exists i :: 0 <= i < |fields| && fields[i] == Field(key, r.value)
      else forall i | 0 <= i < |fields| :: fields[i].key != key
  {
    if fields != [] && fields[0].key != key {
      LookupFinds(fields[1..], key);
      if Lookup(fields, key).Some? {
        var i :| 0 <= i < |fields[1..]| && fields[1..][i] == Field(key, Lookup(fields, key).value);
        assert fields[i + 1] == Field(key, Lookup(fields, key).value);
      } else {
        forall i | 0 <= i < |fields| ensures fields[i].key != key {
          assert i > 0 ==> fields[1..][i - 1] == fields[i];
        }
      }
    }
  }

  /** The texts of two values, either of which may be missing, differ. */
  predicate TextsDiffer(a: Option<Json>, b: Option<Json>) {
    if a.Some? && b.Some? then Text(a.value, []) != Text(b.value, []) else a.Some? || b.Some?
  }

  predicate HasId(item: Json) {
    item.Obj? && Lookup(item.fields, "id").Some?
  }

  function IdOf(item: Json): Json
    requires HasId(item)
  {
    Lookup(item.fields, "id").value
  }

  // ----- collections -----

  /** A missing or null side counts as an empty list. */
  function Operand(v: Option<Json>): Json {
    if v.None? || v.value.Null? then Arr([]) else v.value
  }

  /** Can be spread into a list: anything else makes the comparison throw. */
  predicate Iterable(v: Json) {
    v.Arr? || v.Str?
  }

  predicate Stable(items: seq<Json>) {
    forall item | item in items :: HasId(item)
  }

  /** All elements are objects with an id; the empty string has no elements. */
  predicate AllHaveIds(v: Json) {
    match v
    case Arr(items) => Stable(items)
    case Str(chars) => chars == []
    case _ => false
  }

  /** Ids in order of first appearance. */
  function Ids(items: seq<Json>): seq<Json>
    requires Stable(items)
  {
    if items == [] then []
    else
      var before, id := Ids(items[..|items| - 1]), IdOf(items[|items| - 1]);
      if id in before then before else before + [id]
  }

  /** Each id with its last item. */
  function ItemMap(items: seq<Json>): map<Json, Json>
    requires Stable(items)
  {
    if items == [] then map[] else ItemMap(items[..|items| - 1])[IdOf(items[|items| - 1]) := items[|items| - 1]]
  }

  predicate Changed(id: Json, before: map<Json, Json>, after: map<Json, Json>)
    requires id in after
  {
    id !in before || Text(before[id], []) != Text(after[id], [])
  }

  function Arrival(key: string, id: Json, before: map<Json, Json>, after: map<Json, Json>): seq<FieldDiff>
    requires id in after
  {
    if id !in before then [FieldDiff(LineOf(key, id), ItemAdded, None, Some(after[id]))]
    else if Changed(id, before, after) then [FieldDiff(LineOf(key, id), ItemUpdated, Some(before[id]), Some(after[id]))]
    else []
  }

  /** What the items present afterwards contribute. */
  function Arrivals(key: string, ids: seq<Json>, before: map<Json, Json>, after: map<Json, Json>): seq<FieldDiff>
    requires forall id | id in ids :: id in after
  {
    if ids == [] then [] else Arrival(key, ids[0], before, after) + Arrivals(key, ids[1..], before, after)
  }

  function Departure(key: string, id: Json, before: map<Json, Json>, after: map<Json, Json>): seq<FieldDiff>
    requires id in before
  {
    if id !in after then [FieldDiff(LineOf(key, id), ItemRemoved, Some(before[id]), None)] else []
  }

  function Departures(key: string, ids: seq<Json>, before: map<Json, Json>, after: map<Json, Json>): seq<FieldDiff>
    requires forall id | id in ids :: id in before
  {
    if ids == [] then [] else Departure(key, ids[0], before, after) + Departures(key, ids[1..], before, after)
  }

  lemma {:induction false} IdsAreKeys(items: seq<Json>)
    requires Stable(items)
    ensures forall id :: id in Ids(items) <==> id in ItemMap(items)
  {
    if items != [] {
      IdsAreKeys(items[..|items| - 1]);
    }
  }

  function DiffItems(key: string, before: seq<Json>, after: seq<Json>): seq<FieldDiff>
    requires Stable(before) && Stable(after)
  {
    IdsAreKeys(before);
    IdsAreKeys(after);
    Arrivals(key, Ids(after), ItemMap(before), ItemMap(after)) + Departures(key, Ids(before), ItemMap(before), ItemMap(after))
  }

  datatype Thrown = NotACollection

  function DiffCollection(key: string, before: Json, after: Json): Result<seq<FieldDiff>, Thrown> {
    if !Iterable(before) || !Iterable(after) then
      Failure(NotACollection)
    else if !AllHaveIds(before) || !AllHaveIds(after) then
      Success(if TextsDiffer(Some(before), Some(after))
              then [FieldDiff(WholeField(key), ItemUpdated, Some(before), Some(after))] else [])
    else if before.Str? || after.Str? then
      Failure(NotACollection)
    else
      Success(DiffItems(key, before.items, after.items))
  }

  function DiffField(key: string, oldVal: Option<Json>, newVal: Option<Json>): Result<seq<FieldDiff>, Thrown> {
    if (oldVal.Some? && oldVal.value.Arr?) || (newVal.Some? && newVal.value.Arr?) then
      DiffCollection(key, Operand(oldVal), Operand(newVal))
    else
      Success(if TextsDiffer(oldVal, newVal) then [FieldDiff(WholeField(key), ItemUpdated, oldVal, newVal)] else [])
  }

  function DiffKeys(keys: seq<string>, before: Snapshot, after: Snapshot): Result<seq<FieldDiff>, Thrown> {
    if keys == [] then Success([])
    else
      var first := DiffField(keys[0], Lookup(before, keys[0]), Lookup(after, keys[0]));
      if first.Failure? then first
      else
        var rest := DiffKeys(keys[1..], before, after);
        if rest.Failure? then rest else Success(first.value + rest.value)
  }

  /** The keys of both snapshots, each once, in order of first appearance. */
  function KeysOf(fields: Snapshot): seq<string>
    decreases |fields|
  {
    if fields == [] then []
    else
      var before, last := KeysOf(fields[..|fields| - 1]), fields[|fields| - 1].key;
      if last in before then before else before + [last]
  }

  lemma {:induction false} KeysOfAll(fields: Snapshot, i: nat)
    requires i < |fields|
    ensures fields[i].key in KeysOf(fields)
    decreases |fields|
  {
    if i < |fields| - 1 {
      KeysOfAll(fields[..|fields| - 1], i);
    }
  }

  function OrEmpty(snapshot: Option<Snapshot>): Snapshot {
    if snapshot.Some? then snapshot.value else []
  }

  function Diff(before: Option<Snapshot>, after: Option<Snapshot>): Result<seq<FieldDiff>, Thrown> {
    DiffKeys(KeysOf(OrEmpty(before) + OrEmpty(after)), OrEmpty(before), OrEmpty(after))
  }

  // ----- the service's loops -----

  /** Items put into a map by id, in order; a later item with the same id takes the earlier one's place. */
  method CollectById(items: seq<Json>) returns (ids: seq<Json>, byId: map<Json, Json>)
    requires Stable(items)
    ensures ids == Ids(items) && byId == ItemMap(items)
  {
    ids, byId := [], map[];
    for i := 0 to |items|
      invariant ids == Ids(items[..i]) && byId == ItemMap(items[..i])
    {
      assert items[..i + 1][..i] == items[..i];
      var id := IdOf(items[i]);
      if id !in ids { ids := ids + [id]; }
      byId := byId[id := items[i]];
    }
    assert items[..|items|] == items;
  }

  lemma NextArrival(changes: seq<FieldDiff>, key: string, ids: seq<Json>, i: nat, before: map<Json, Json>, after: map<Json, Json>)
    requires i < |ids| && forall id | id in ids :: id in after
    ensures changes + Arrivals(key, ids[i..], before, after)
         == changes + Arrival(key, ids[i], before, after) + Arrivals(key, ids[i + 1..], before, after)
  {
    assert ids[i..][1..] == ids[i + 1..];
  }

  method FindArrivals(key: string, ids: seq<Json>, before: map<Json, Json>, after: map<Json, Json>) returns (changes: seq<FieldDiff>)
    requires forall id | id in ids :: id in after
    ensures changes == Arrivals(key, ids, before, after)
  {
    changes := [];
    for i := 0 to |ids|
      invariant Arrivals(key, ids, before, after) == changes + Arrivals(key, ids[i..], before, after)
    {
      var id := ids[i];
      NextArrival(changes, key, ids, i, before, after);
      if id !in before {
        changes := changes + [FieldDiff(LineOf(key, id), ItemAdded, None, Some(after[id]))];
      } else if Text(before[id], []) != Text(after[id], []) {
        changes := changes + [FieldDiff(LineOf(key, id), ItemUpdated, Some(before[id]), Some(after[id]))];
      } else {
        assert changes + [] == changes;
      }
    }
  }

  lemma NextDeparture(changes: seq<FieldDiff>, key: string, ids: seq<Json>, i: nat, before: map<Json, Json>, after: map<Json, Json>)
    requires i < |ids| && forall id | id in ids :: id in before
    ensures changes + Departures(key, ids[i..], before, after)
         == changes + Departure(key, ids[i], before, after) + Departures(key, ids[i + 1..], before, after)
  {
    assert ids[i..][1..] == ids[i + 1..];
  }

  method FindDepartures(key: string, ids: seq<Json>, before: map<Json, Json>, after: map<Json, Json>) returns (changes: seq<FieldDiff>)
    requires forall id | id in ids :: id in before
    ensures changes == Departures(key, ids, before, after)
  {
    changes := [];
    for i := 0 to |ids|
      invariant Departures(key, ids, before, after) == changes + Departures(key, ids[i..], before, after)
    {
      var id := ids[i];
      NextDeparture(changes, key, ids, i, before, after);
      if id !in after {
        changes := changes + [FieldDiff(LineOf(key, id), ItemRemoved, Some(before[id]), None)];
      } else {
        assert changes + [] == changes;
      }
    }
  }

  method CompareItems(key: string, before: seq<Json>, after: seq<Json>) returns (changes: seq<FieldDiff>)
    requires Stable(before) && Stable(after)
    ensures changes == DiffItems(key, before, after)
  {
    var beforeIds, beforeById := CollectById(before);
    var afterIds, afterById := CollectById(after);
    IdsAreKeys(before);
    IdsAreKeys(after);
    var arrivals := FindArrivals(key, afterIds, beforeById, afterById);
    var departures := FindDepartures(key, beforeIds, beforeById, afterById);
    return arrivals + departures;
  }

  method CompareCollections(key: string, before: Json, after: Json) returns (r: Result<seq<FieldDiff>, Thrown>)
    ensures r == DiffCollection(key, before, after)
  {
    if !Iterable(before) || !Iterable(after) { return Failure(NotACollection); }
    if !AllHaveIds(before) || !AllHaveIds(after) {
      if TextsDiffer(Some(before), Some(after)) {
        return Success([FieldDiff(WholeField(key), ItemUpdated, Some(before), Some(after))]);
      }
      return Success([]);
    }
    if before.Str? || after.Str? { return Failure(NotACollection); }
    var changes := CompareItems(key, before.items, after.items);
    return Success(changes);
  }

  /** What has been found so far, followed by what the remaining keys bring. */
  function After(changes: seq<FieldDiff>, rest: Result<seq<FieldDiff>, Thrown>): Result<seq<FieldDiff>, Thrown> {
    if rest.Failure? then rest else Success(changes + rest.value)
  }

  lemma NothingBefore(rest: Result<seq<FieldDiff>, Thrown>)
    ensures After([], rest) == rest
  {
    assert rest.Success? ==> [] + rest.value == rest.value;
  }

  lemma NextKey(changes: seq<FieldDiff>, keys: seq<string>, before: Snapshot, after: Snapshot)
    requires keys != []
    ensures var found := DiffField(keys[0], Lookup(before, keys[0]), Lookup(after, keys[0]));
      After(changes, DiffKeys(keys, before, after)) ==
        if found.Failure? then found else After(changes + found.value, DiffKeys(keys[1..], before, after))
  {
    var found := DiffField(keys[0], Lookup(before, keys[0]), Lookup(after, keys[0]));
    var rest := DiffKeys(keys[1..], before, after);
    if found.Success? && rest.Success? {
      assert changes + (found.value + rest.value) == changes + found.value + rest.value;
    }
  }

  method Compare(before: Option<Snapshot>, after: Option<Snapshot>) returns (r: Result<seq<FieldDiff>, Thrown>)
    ensures r == Diff(before, after)
  {
    var beforeObj, afterObj := OrEmpty(before), OrEmpty(after);
    var keys := KeysOf(beforeObj + afterObj);
    var changes: seq<FieldDiff> := [];
    assert keys[0..] == keys;
    NothingBefore(DiffKeys(keys, beforeObj, afterObj));
    for i := 0 to |keys|
      invariant Diff(before, after) == After(changes, DiffKeys(keys[i..], beforeObj, afterObj))
    {
      var key := keys[i];
      NextKey(changes, keys[i..], beforeObj, afterObj);
      assert keys[i..][1..] == keys[i + 1..];
      var oldVal, newVal := Lookup(beforeObj, key), Lookup(afterObj, key);
      if (oldVal.Some? && oldVal.value.Arr?) || (newVal.Some? && newVal.value.Arr?) {
        var found := CompareCollections(key, Operand(oldVal), Operand(newVal));
        if found.Failure? { return found; }
        changes := changes + found.value;
        continue;
      }
      assert changes + [] == changes;
      if TextsDiffer(oldVal, newVal) {
        changes := changes + [FieldDiff(WholeField(key), ItemUpdated, oldVal, newVal)];
      }
    }
    assert keys[|keys|..] == [] && changes + [] == changes;
    return Success(changes);
  }

  // ----- what a list of changes says -----

  ghost predicate ValidItems(items: seq<Json>) {
    forall item | item in items :: Valid(item)
  }

  /** Carries out one change to a collection. */
  function Apply(items: map<Json, Json>, change: FieldDiff): map<Json, Json> {
    if change.path.WholeField? then items
    else if change.newValue.Some? then items[change.path.id := change.newValue.value]
    else items - {change.path.id}
  }

  function Replay(items: map<Json, Json>, changes: seq<FieldDiff>): map<Json, Json>
    decreases |changes|
  {
    if changes == [] then items else Replay(Apply(items, changes[0]), changes[1..])
  }

  lemma {:induction false} ReplayAppend(items: map<Json, Json>, a: seq<FieldDiff>, b: seq<FieldDiff>)
    ensures Replay(items, a + b) == Replay(Replay(items, a), b)
    decreases |a|
  {
    if a == [] {
      assert a + b == b;
    } else {
      assert (a + b)[1..] == a[1..] + b;
      ReplayAppend(Apply(items, a[0]), a[1..], b);
    }
  }

  lemma {:induction false} ItemMapHolds(items: seq<Json>)
    requires Stable(items)
    ensures forall id | id in ItemMap(items) :: ItemMap(items)[id] in items
  {
    if items != [] {
      ItemMapHolds(items[..|items| - 1]);
    }
  }

  lemma ReplayOne(items: map<Json, Json>, change: FieldDiff)
    ensures Replay(items, [change]) == Apply(items, change)
  {
    assert [change][1..] == [];
  }

  lemma OneArrival(key: string, id: Json, before: map<Json, Json>, after: map<Json, Json>, items: map<Json, Json>)
    requires id in after
    ensures Replay(items, Arrival(key, id, before, after)) == if Changed(id, before, after) then items[id := after[id]] else items
  {
    if Changed(id, before, after) {
      ReplayOne(items, Arrival(key, id, before, after)[0]);
    }
  }

  lemma OneDeparture(key: string, id: Json, before: map<Json, Json>, after: map<Json, Json>, items: map<Json, Json>)
    requires id in before
    ensures Replay(items, Departure(key, id, before, after)) == if id !in after then items - {id} else items
  {
    if id !in after {
      ReplayOne(items, Departure(key, id, before, after)[0]);
    }
  }

  lemma {:induction false} ReplayArrivals(key: string, ids: seq<Json>, before: map<Json, Json>, after: map<Json, Json>,
                                          items: map<Json, Json>)
    requires forall id | id in ids :: id in after
    ensures var r := Replay(items, Arrivals(key, ids, before, after));
      && (forall id :: id in r <==> id in items || (id in ids && Changed(id, before, after)))
      && (forall id | id in r :: r[id] == if id in ids && Changed(id, before, after) then after[id] else items[id])
    decreases |ids|
  {
    if ids != [] {
      var next := if Changed(ids[0], before, after) then items[ids[0] := after[ids[0]]] else items;
      ReplayAppend(items, Arrival(key, ids[0], before, after), Arrivals(key, ids[1..], before, after));
      OneArrival(key, ids[0], before, after, items);
      ReplayArrivals(key, ids[1..], before, after, next);
    }
  }

  lemma {:induction false} ReplayDepartures(key: string, ids: seq<Json>, before: map<Json, Json>, after: map<Json, Json>,
                                            items: map<Json, Json>)
    requires forall id | id in ids :: id in before
    ensures var r := Replay(items, Departures(key, ids, before, after));
      && (forall id :: id in r <==> id in items && !(id in ids && id !in after))
      && (forall id | id in r :: r[id] == items[id])
    decreases |ids|
  {
    if ids != [] {
      var next := if ids[0] !in after then items - {ids[0]} else items;
      ReplayAppend(items, Departure(key, ids[0], before, after), Departures(key, ids[1..], before, after));
      OneDeparture(key, ids[0], before, after, items);
      ReplayDepartures(key, ids[1..], before, after, next);
    }
  }

  lemma UnchangedIsEqual(before: seq<Json>, after: seq<Json>, id: Json)
    requires Stable(before) && Stable(after) && ValidItems(before) && ValidItems(after)
    requires id in ItemMap(before) && id in ItemMap(after)
    ensures Changed(id, ItemMap(before), ItemMap(after)) <==> ItemMap(before)[id] != ItemMap(after)[id]
  {
    ItemMapHolds(before);
    ItemMapHolds(after);
    if Text(ItemMap(before)[id], []) == Text(ItemMap(after)[id], []) {
      CanonicalJsonProofs.TextIsInjective(ItemMap(before)[id], ItemMap(after)[id]);
    }
  }

  /** The changes found between two collections turn the earlier one, by id, into the later one. */
  lemma ReplayReachesAfter(key: string, before: seq<Json>, after: seq<Json>)
    requires Stable(before) && Stable(after) && ValidItems(before) && ValidItems(after)
    ensures Replay(ItemMap(before), DiffItems(key, before, after)) == ItemMap(after)
  {
    var b, a := ItemMap(before), ItemMap(after);
    IdsAreKeys(before);
    IdsAreKeys(after);
    var arrivals, departures := Arrivals(key, Ids(after), b, a), Departures(key, Ids(before), b, a);
    ReplayAppend(b, arrivals, departures);
    ReplayArrivals(key, Ids(after), b, a, b);
    ReplayDepartures(key, Ids(before), b, a, Replay(b, arrivals));
    var r := Replay(b, DiffItems(key, before, after));
    forall id ensures id in r <==> id in a {}
    forall id | id in a ensures r[id] == a[id] {
      if id in b {
        UnchangedIsEqual(before, after, id);
      }
    }
  }

  lemma {:induction false} NoArrivals(key: string, ids: seq<Json>, before: map<Json, Json>, after: map<Json, Json>)
    requires forall id | id in ids :: id in after && !Changed(id, before, after)
    ensures Arrivals(key, ids, before, after) == []
  {
    if ids != [] {
      NoArrivals(key, ids[1..], before, after);
    }
  }

  lemma {:induction false} NoDepartures(key: string, ids: seq<Json>, before: map<Json, Json>, after: map<Json, Json>)
    requires forall id | id in ids :: id in before && id in after
    ensures Departures(key, ids, before, after) == []
  {
    if ids != [] {
      NoDepartures(key, ids[1..], before, after);
    }
  }

  /** Nothing is reported exactly when both sides hold the same last item under the same ids: neither the order
      of the items nor an earlier item with a repeated id is looked at. */
  lemma NoItemChangeIff(key: string, before: seq<Json>, after: seq<Json>)
    requires Stable(before) && Stable(after) && ValidItems(before) && ValidItems(after)
    ensures DiffItems(key, before, after) == [] <==> ItemMap(before) == ItemMap(after)
  {
    ReplayReachesAfter(key, before, after);
    if ItemMap(before) == ItemMap(after) {
      IdsAreKeys(before);
      IdsAreKeys(after);
      NoArrivals(key, Ids(after), ItemMap(before), ItemMap(after));
      NoDepartures(key, Ids(before), ItemMap(before), ItemMap(after));
    }
  }

  ghost predicate DistinctIds(items: seq<Json>)
    requires Stable(items)
  {
    forall i, j | 0 <= i < j < |items| :: IdOf(items[i]) != IdOf(items[j])
  }

  lemma {:induction false} ItemsByTheirIds(items: seq<Json>)
    requires Stable(items) && DistinctIds(items)
    ensures forall item | item in items :: IdOf(item) in ItemMap(items) && ItemMap(items)[IdOf(item)] == item
    ensures forall id | id in ItemMap(items) :: HasId(ItemMap(items)[id]) && IdOf(ItemMap(items)[id]) == id
  {
    if items != [] {
      var before := items[..|items| - 1];
      ItemsByTheirIds(before);
      forall item | item in before ensures IdOf(item) != IdOf(items[|items| - 1]) {
        var i :| 0 <= i < |before| && before[i] == item;
        assert items[i] == item;
      }
      assert items == before + [items[|items| - 1]];
    }
  }

  /** With ids used once on each side, nothing is reported exactly when both sides have the same items, in
      whatever order: a reordering is never reported. */
  lemma ReorderingIsNotReported(key: string, before: seq<Json>, after: seq<Json>)
    requires Stable(before) && Stable(after) && ValidItems(before) && ValidItems(after)
    requires DistinctIds(before) && DistinctIds(after)
    ensures DiffItems(key, before, after) == [] <==> forall item :: item in before <==> item in after
  {
    NoItemChangeIff(key, before, after);
    ItemsByTheirIds(before);
    ItemsByTheirIds(after);
    ItemMapHolds(before);
    ItemMapHolds(after);
    if ItemMap(before) == ItemMap(after) {
      forall item ensures item in before <==> item in after {
        if item in before { assert ItemMap(after)[IdOf(item)] == item; }
        if item in after { assert ItemMap(before)[IdOf(item)] == item; }
      }
    } else if forall item :: item in before <==> item in after {
      forall id ensures id in ItemMap(before) <==> id in ItemMap(after) {
        if id in ItemMap(before) { assert ItemMap(before)[id] in after; }
        if id in ItemMap(after) { assert ItemMap(after)[id] in before; }
      }
      forall id | id in ItemMap(before) ensures ItemMap(before)[id] == ItemMap(after)[id] {
        assert ItemMap(before)[id] in after;
      }
    }
  }

  // ----- whole snapshots -----

  ghost predicate EitherIsArray(a: Option<Json>, b: Option<Json>) {
    (a.Some? && a.value.Arr?) || (b.Some? && b.value.Arr?)
  }

  /** The same as far as the comparison goes. */
  ghost predicate Alike(a: Option<Json>, b: Option<Json>) {
    if !EitherIsArray(a, b) then a == b
    else
      var x, y := Operand(a), Operand(b);
      if x.Arr? && y.Arr? && Stable(x.items) && Stable(y.items) then ItemMap(x.items) == ItemMap(y.items) else x == y
  }

  /** A list against a number, a truth value or an object, or a list of items with ids against an empty string. */
  ghost predicate Incomparable(a: Option<Json>, b: Option<Json>) {
    && EitherIsArray(a, b)
    && var x, y := Operand(a), Operand(b);
       !Iterable(x) || !Iterable(y) || (AllHaveIds(x) && AllHaveIds(y) && (x.Str? || y.Str?))
  }

  ghost predicate ValidValue(v: Option<Json>) {
    v.Some? ==> Valid(v.value)
  }

  lemma TextsDifferIff(a: Option<Json>, b: Option<Json>)
    requires ValidValue(a) && ValidValue(b)
    ensures TextsDiffer(a, b) <==> a != b
  {
    if a.Some? && b.Some? && Text(a.value, []) == Text(b.value, []) {
      CanonicalJsonProofs.TextIsInjective(a.value, b.value);
    }
  }

  lemma FieldVerdict(key: string, a: Option<Json>, b: Option<Json>)
    requires ValidValue(a) && ValidValue(b)
    ensures DiffField(key, a, b).Failure? <==> Incomparable(a, b)
    ensures DiffField(key, a, b).Success? ==> (DiffField(key, a, b).value == [] <==> Alike(a, b))
  {
    TextsDifferIff(a, b);
    if EitherIsArray(a, b) {
      var x, y := Operand(a), Operand(b);
      assert Valid(x) && Valid(y);
      TextsDifferIff(Some(x), Some(y));
      if x.Arr? && y.Arr? && Stable(x.items) && Stable(y.items) {
        NoItemChangeIff(key, x.items, y.items);
      }
    }
  }

  ghost predicate ValidSnapshot(fields: Snapshot) {
    forall i | 0 <= i < |fields| :: Valid(fields[i].value)
  }

  ghost predicate AlikeAt(before: Snapshot, after: Snapshot, key: string) {
    Alike(Lookup(before, key), Lookup(after, key))
  }

  ghost predicate IncomparableAt(before: Snapshot, after: Snapshot, key: string) {
    Incomparable(Lookup(before, key), Lookup(after, key))
  }

  lemma {:induction false} KeysVerdict(keys: seq<string>, before: Snapshot, after: Snapshot)
    requires ValidSnapshot(before) && ValidSnapshot(after)
    ensures DiffKeys(keys, before, after).Failure? <==> exists key :: key in keys && IncomparableAt(before, after, key)
    ensures DiffKeys(keys, before, after).Success? ==>
      (DiffKeys(keys, before, after).value == [] <==> forall key | key in keys :: AlikeAt(before, after, key))
  {
    if keys != [] {
      LookupFinds(before, keys[0]);
      LookupFinds(after, keys[0]);
      FieldVerdict(keys[0], Lookup(before, keys[0]), Lookup(after, keys[0]));
      KeysVerdict(keys[1..], before, after);
      assert forall key :: key in keys <==> key == keys[0] || key in keys[1..];
      assert IncomparableAt(before, after, keys[0]) <==> DiffField(keys[0], Lookup(before, keys[0]), Lookup(after, keys[0])).Failure?;
      if DiffKeys(keys, before, after).Success? {
        var first := DiffField(keys[0], Lookup(before, keys[0]), Lookup(after, keys[0])).value;
        var rest := DiffKeys(keys[1..], before, after).value;
        assert first + rest == [] <==> |first| == 0 && |rest| == 0;
        assert AlikeAt(before, after, keys[0]) <==> first == [];
      }
    }
  }

  /** No difference is reported exactly when every field is alike, and the comparison fails exactly when some
      field cannot be compared; snapshots that are not there count as empty. */
  lemma DiffIff(before: Option<Snapshot>, after: Option<Snapshot>)
    requires ValidSnapshot(OrEmpty(before)) && ValidSnapshot(OrEmpty(after))
    ensures var b, a := OrEmpty(before), OrEmpty(after);
      && (Diff(before, after).Failure? <==> exists key :: IncomparableAt(b, a, key))
      && (Diff(before, after).Success? ==> (Diff(before, after).value == [] <==> forall key :: AlikeAt(b, a, key)))
  {
    var b, a := OrEmpty(before), OrEmpty(after);
    KeysVerdict(KeysOf(b + a), b, a);
    forall key | !AlikeAt(b, a, key) || IncomparableAt(b, a, key) ensures key in KeysOf(b + a) {
      LookupFinds(b, key);
      LookupFinds(a, key);
      if Lookup(b, key).Some? {
        var i :| 0 <= i < |b| && b[i] == Field(key, Lookup(b, key).value);
        KeysOfAll(b + a, i);
      } else if Lookup(a, key).Some? {
        var i :| 0 <= i < |a| && a[i] == Field(key, Lookup(a, key).value);
        KeysOfAll(b + a, |b| + i);
      }
    }
  }
}
