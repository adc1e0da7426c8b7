// What each reported difference between two snapshots says, and that nothing else is reported.
module DiffContents {
  import opened Wrappers
  import opened CanonicalJson
  import opened AuditDiff

  // ----- values of a snapshot -----

  /** The value of the first property with the key, if there is one. */
  ghost predicate ValueAt(fields: Snapshot, key: string, value: Option<Json>) {
    match value
    case Some(v) => exists i :: 0 <= i < |fields| && fields[i] == Field(key, v) && forall j | 0 <= j < i :: fields[j].key != key
    case None => forall i | 0 <= i < |fields| :: fields[i].key != key
  }

  lemma {:induction false} LookupIff(fields: Snapshot, key: string)
    ensures ValueAt(fields, key, Lookup(fields, key))
  {
    if fields != [] {
      if fields[0].key == key {
        assert fields[0] == Field(key, fields[0].value);
      } else {
        LookupIff(fields[1..], key);
        if Lookup(fields, key).Some? {
          var i :| 0 <= i < |fields[1..]| && fields[1..][i] == Field(key, Lookup(fields, key).value)
                   && forall j | 0 <= j < i :: fields[1..][j].key != key;
          forall j | 0 <= j < i + 1 ensures fields[j].key != key {
            assert j > 0 ==> fields[1..][j - 1] == fields[j];
          }
          assert fields[i + 1] == Field(key, Lookup(fields, key).value);
        } else {
          forall i | 0 <= i < |fields| ensures fields[i].key != key {
            assert i > 0 ==> fields[1..][i - 1] == fields[i];
          }
        }
      }
    }
  }

  lemma ValueIsUnique(fields: Snapshot, key: string, a: Option<Json>, b: Option<Json>)
    requires ValueAt(fields, key, a) && ValueAt(fields, key, b)
    ensures a == b
  {
    if a.Some? && b.Some? {
      var i :| 0 <= i < |fields| && fields[i] == Field(key, a.value) && forall j | 0 <= j < i :: fields[j].key != key;
      var k :| 0 <= k < |fields| && fields[k] == Field(key, b.value) && forall j | 0 <= j < k :: fields[j].key != key;
      assert i == k;
    }
  }

  /** The two values, either of which may be missing, read differently. */
  ghost predicate Differ(before: Option<Json>, after: Option<Json>) {
    match (before, after)
    case (None, None) => false
    case (Some(b), Some(a)) => Text(b, []) != Text(a, [])
    case _ => true
  }

  // ----- items of a collection -----

  ghost predicate Identified(item: Json, id: Json) {
    HasId(item) && IdOf(item) == id
  }

  ghost predicate LastAt(items: seq<Json>, id: Json, k: nat) {
    k < |items| && Identified(items[k], id) && forall j | k < j < |items| :: !Identified(items[j], id)
  }

  /** The last item with the id. */
  ghost predicate LastWith(items: seq<Json>, id: Json, item: Json) {
    exists k: nat :: LastAt(items, id, k) && items[k] == item
  }

  ghost predicate NoneWith(items: seq<Json>, id: Json) {
    forall item :: !LastWith(items, id, item)
  }

  lemma IdIsRead(item: Json)
    ensures HasId(item) <==> item.Obj? && exists id :: ValueAt(item.fields, "id", Some(id))
    ensures HasId(item) ==> ValueAt(item.fields, "id", Some(IdOf(item)))
  {
    if item.Obj? {
      LookupIff(item.fields, "id");
    }
  }

  lemma LastIsEarlier(items: seq<Json>, id: Json, k: nat)
    requires items != [] && !Identified(items[|items| - 1], id)
    ensures LastAt(items, id, k) <==> LastAt(items[..|items| - 1], id, k)
  {
    var shorter := items[..|items| - 1];
    forall j | 0 <= j < |shorter| ensures shorter[j] == items[j] {}
    if LastAt(shorter, id, k) {
      forall j | k < j < |items| ensures !Identified(items[j], id) {
        assert j < |shorter| ==> !Identified(shorter[j], id);
      }
    }
  }

  lemma LastOfShorter(items: seq<Json>, id: Json, item: Json)
    requires items != [] && !Identified(items[|items| - 1], id)
    ensures LastWith(items, id, item) <==> LastWith(items[..|items| - 1], id, item)
  {
    var shorter := items[..|items| - 1];
    if LastWith(items, id, item) {
      var k: nat :| LastAt(items, id, k) && items[k] == item;
      LastIsEarlier(items, id, k);
      assert shorter[k] == item;
    }
    if LastWith(shorter, id, item) {
      var k: nat :| LastAt(shorter, id, k) && shorter[k] == item;
      LastIsEarlier(items, id, k);
      assert items[k] == item;
    }
  }

  lemma LastIsLast(items: seq<Json>, id: Json, item: Json)
    requires items != [] && Identified(items[|items| - 1], id)
    ensures LastWith(items, id, item) <==> item == items[|items| - 1]
  {
    assert LastAt(items, id, |items| - 1);
    if LastWith(items, id, item) {
      var k: nat :| LastAt(items, id, k) && items[k] == item;
      assert k == |items| - 1;
    }
  }

  lemma {:induction false} ItemMapIff(items: seq<Json>, id: Json, item: Json)
    requires Stable(items)
    ensures id in ItemMap(items) && ItemMap(items)[id] == item <==> LastWith(items, id, item)
  {
    if items != [] {
      var last := items[|items| - 1];
      assert last in items;
      if IdOf(last) == id {
        LastIsLast(items, id, item);
      } else {
        LastOfShorter(items, id, item);
        ItemMapIff(items[..|items| - 1], id, item);
      }
    }
  }

  lemma NoneWithIff(items: seq<Json>, id: Json)
    requires Stable(items)
    ensures id !in ItemMap(items) <==> NoneWith(items, id)
  {
    if id in ItemMap(items) {
      ItemMapIff(items, id, ItemMap(items)[id]);
    }
    forall item ensures id !in ItemMap(items) ==> !LastWith(items, id, item) {
      ItemMapIff(items, id, item);
    }
  }

  /** The change says what became of the item with its id: it was added, it was removed, or it reads differently; the old and
      the new value are the last such items of the earlier and of the later list. */
  ghost predicate ItemChange(key: string, before: seq<Json>, after: seq<Json>, id: Json, change: FieldDiff) {
    && change.path == LineOf(key, id)
    && match change.change
       case ItemAdded =>
         change.oldValue == None && NoneWith(before, id) && change.newValue.Some? && LastWith(after, id, change.newValue.value)
       case ItemRemoved =>
         change.newValue == None && NoneWith(after, id) && change.oldValue.Some? && LastWith(before, id, change.oldValue.value)
       case ItemUpdated =>
         && change.oldValue.Some? && LastWith(before, id, change.oldValue.value)
         && change.newValue.Some? && LastWith(after, id, change.newValue.value)
         && Text(change.oldValue.value, []) != Text(change.newValue.value, [])
  }

  lemma {:induction false} ArrivalsIff(key: string, ids: seq<Json>, before: map<Json, Json>, after: map<Json, Json>, change: FieldDiff)
    requires forall id | id in ids :: id in after
    ensures change in Arrivals(key, ids, before, after) <==> exists id :: id in ids && change in Arrival(key, id, before, after)
  {
    if ids != [] {
      ArrivalsIff(key, ids[1..], before, after, change);
      assert ids == [ids[0]] + ids[1..];
    }
  }

  lemma {:induction false} DeparturesIff(key: string, ids: seq<Json>, before: map<Json, Json>, after: map<Json, Json>, change: FieldDiff)
    requires forall id | id in ids :: id in before
    ensures change in Departures(key, ids, before, after) <==> exists id :: id in ids && change in Departure(key, id, before, after)
  {
    if ids != [] {
      DeparturesIff(key, ids[1..], before, after, change);
      assert ids == [ids[0]] + ids[1..];
    }
  }

  lemma OneItemChange(key: string, before: seq<Json>, after: seq<Json>, id: Json, change: FieldDiff)
    requires Stable(before) && Stable(after)
    ensures var b, a := ItemMap(before), ItemMap(after);
      var told := (id in a && change in Arrival(key, id, b, a)) || (id in b && change in Departure(key, id, b, a));
      told <==> ItemChange(key, before, after, id, change)
  {
    NoneWithIff(before, id);
    NoneWithIff(after, id);
    if change.oldValue.Some? { ItemMapIff(before, id, change.oldValue.value); }
    if change.newValue.Some? { ItemMapIff(after, id, change.newValue.value); }
  }

  /** Between two collections whose items have ids exactly these changes are reported. */
  lemma ItemChangesIff(key: string, before: seq<Json>, after: seq<Json>, change: FieldDiff)
    requires Stable(before) && Stable(after)
    ensures change in DiffItems(key, before, after) <==> exists id :: ItemChange(key, before, after, id, change)
  {
    var b, a := ItemMap(before), ItemMap(after);
    IdsAreKeys(before);
    IdsAreKeys(after);
    ArrivalsIff(key, Ids(after), b, a, change);
    DeparturesIff(key, Ids(before), b, a, change);
    forall id ensures ItemChange(key, before, after, id, change) <==>
      (id in a && change in Arrival(key, id, b, a)) || (id in b && change in Departure(key, id, b, a))
    {
      OneItemChange(key, before, after, id, change);
    }
  }

  // ----- the order of the changes -----

  ghost predicate FirstAt(items: seq<Json>, id: Json, k: nat) {
    k < |items| && Identified(items[k], id) && forall j | 0 <= j < k :: !Identified(items[j], id)
  }

  /** One id appears, for the first time, before the other. */
  ghost predicate AppearsBefore(items: seq<Json>, x: Json, y: Json) {
    exists i: nat, k: nat :: i < k && FirstAt(items, x, i) && FirstAt(items, y, k)
  }

  lemma StillFirst(items: seq<Json>, id: Json, k: nat)
    requires items != [] && FirstAt(items[..|items| - 1], id, k)
    ensures FirstAt(items, id, k)
  {
    var shorter := items[..|items| - 1];
    forall j | 0 <= j < |shorter| ensures shorter[j] == items[j] {}
  }

  lemma {:induction false} IdsAppear(items: seq<Json>, id: Json)
    requires Stable(items)
    ensures id in Ids(items) ==> exists k: nat :: FirstAt(items, id, k)
    ensures id !in Ids(items) ==> forall k | 0 <= k < |items| :: !Identified(items[k], id)
  {
    if items != [] {
      var n := |items| - 1;
      assert items[n] in items;
      IdsAppear(items[..n], id);
      if id in Ids(items[..n]) {
        var k: nat :| FirstAt(items[..n], id, k);
        StillFirst(items, id, k);
      } else {
        forall k | 0 <= k < n ensures !Identified(items[k], id) { assert items[..n][k] == items[k]; }
        if id in Ids(items) { assert FirstAt(items, id, n); }
      }
    }
  }

  lemma {:induction false} IdsInOrder(items: seq<Json>, p: nat, q: nat)
    requires Stable(items) && p < q < |Ids(items)|
    ensures AppearsBefore(items, Ids(items)[p], Ids(items)[q])
    decreases |items|
  {
    var n := |items| - 1;
    var before := Ids(items[..n]);
    assert items[n] in items;
    if q < |before| {
      IdsInOrder(items[..n], p, q);
      var i: nat, k: nat :| i < k && FirstAt(items[..n], before[p], i) && FirstAt(items[..n], before[q], k);
      StillFirst(items, before[p], i);
      StillFirst(items, before[q], k);
    } else {
      IdsAppear(items[..n], before[p]);
      IdsAppear(items[..n], IdOf(items[n]));
      var i: nat :| FirstAt(items[..n], before[p], i);
      StillFirst(items, before[p], i);
      forall k | 0 <= k < n ensures !Identified(items[k], IdOf(items[n])) { assert items[..n][k] == items[k]; }
      assert FirstAt(items, IdOf(items[n]), n);
    }
  }

  /** The changes are about these ids, in their order. */
  ghost predicate Follow(changes: seq<FieldDiff>, ids: seq<Json>) {
    && (forall i | 0 <= i < |changes| :: changes[i].path.LineOf? && changes[i].path.id in ids)
    && forall i, j | 0 <= i < j < |changes| :: Precedes(ids, changes[i].path, changes[j].path)
  }

  ghost predicate Precedes(ids: seq<Json>, x: Path, y: Path) {
    x.LineOf? && y.LineOf? && exists p, q :: 0 <= p < q < |ids| && ids[p] == x.id && ids[q] == y.id
  }

  lemma PrecedesLater(ids: seq<Json>, x: Path, y: Path)
    requires ids != [] && Precedes(ids[1..], x, y)
    ensures Precedes(ids, x, y)
  {
    var p, q :| 0 <= p < q < |ids[1..]| && ids[1..][p] == x.id && ids[1..][q] == y.id;
    assert ids[p + 1] == x.id && ids[q + 1] == y.id;
  }

  lemma PrecedesAsFirst(ids: seq<Json>, x: Path, y: Path)
    requires ids != [] && x.LineOf? && y.LineOf? && x.id == ids[0] && y.id in ids[1..]
    ensures Precedes(ids, x, y)
  {
    var q :| 0 <= q < |ids[1..]| && ids[1..][q] == y.id;
    assert ids[q + 1] == y.id;
  }

  lemma FollowLater(rest: seq<FieldDiff>, ids: seq<Json>)
    requires ids != [] && Follow(rest, ids[1..])
    ensures Follow(rest, ids)
  {
    forall i, j | 0 <= i < j < |rest| ensures Precedes(ids, rest[i].path, rest[j].path) {
      PrecedesLater(ids, rest[i].path, rest[j].path);
    }
  }

  lemma FollowFirst(first: FieldDiff, rest: seq<FieldDiff>, ids: seq<Json>)
    requires ids != [] && Follow(rest, ids[1..]) && first.path.LineOf? && first.path.id == ids[0]
    ensures Follow([first] + rest, ids)
  {
    var all := [first] + rest;
    FollowLater(rest, ids);
    forall i, j | 0 <= i < j < |all| ensures Precedes(ids, all[i].path, all[j].path) {
      assert all[j] == rest[j - 1];
      if i == 0 {
        PrecedesAsFirst(ids, first.path, rest[j - 1].path);
      } else {
        assert all[i] == rest[i - 1] && Precedes(ids, rest[i - 1].path, rest[j - 1].path);
      }
    }
  }

  lemma FollowOneMore(first: seq<FieldDiff>, rest: seq<FieldDiff>, ids: seq<Json>)
    requires ids != [] && |first| <= 1 && Follow(rest, ids[1..])
    requires first == [] || (first[0].path.LineOf? && first[0].path.id == ids[0])
    ensures Follow(first + rest, ids)
  {
    if first == [] {
      FollowLater(rest, ids);
      assert first + rest == rest;
    } else {
      FollowFirst(first[0], rest, ids);
      assert first + rest == [first[0]] + rest;
    }
  }

  lemma {:induction false} ArrivalsFollow(key: string, ids: seq<Json>, before: map<Json, Json>, after: map<Json, Json>)
    requires forall id | id in ids :: id in after
    ensures Follow(Arrivals(key, ids, before, after), ids)
    ensures forall change | change in Arrivals(key, ids, before, after) :: change.change != ItemRemoved
  {
    if ids != [] {
      ArrivalsFollow(key, ids[1..], before, after);
      FollowOneMore(Arrival(key, ids[0], before, after), Arrivals(key, ids[1..], before, after), ids);
    }
  }

  lemma {:induction false} DeparturesFollow(key: string, ids: seq<Json>, before: map<Json, Json>, after: map<Json, Json>)
    requires forall id | id in ids :: id in before
    ensures Follow(Departures(key, ids, before, after), ids)
    ensures forall change | change in Departures(key, ids, before, after) :: change.change == ItemRemoved
  {
    if ids != [] {
      DeparturesFollow(key, ids[1..], before, after);
      FollowOneMore(Departure(key, ids[0], before, after), Departures(key, ids[1..], before, after), ids);
    }
  }

  lemma FollowsItems(changes: seq<FieldDiff>, items: seq<Json>, i: nat, j: nat)
    requires Stable(items) && Follow(changes, Ids(items)) && i < j < |changes|
    ensures changes[i].path.LineOf? && changes[j].path.LineOf?
    ensures AppearsBefore(items, changes[i].path.id, changes[j].path.id)
  {
    var ids := Ids(items);
    assert Precedes(ids, changes[i].path, changes[j].path);
    var p, q :| 0 <= p < q < |ids| && ids[p] == changes[i].path.id && ids[q] == changes[j].path.id;
    IdsInOrder(items, p, q);
  }

  /** The later of two changes is a removal if the earlier is, and each kind keeps the order of its list. */
  ghost predicate InOrder(x: FieldDiff, y: FieldDiff, before: seq<Json>, after: seq<Json>) {
    && x.path.LineOf? && y.path.LineOf?
    && (x.change == ItemRemoved ==> y.change == ItemRemoved && AppearsBefore(before, x.path.id, y.path.id))
    && (y.change != ItemRemoved ==> AppearsBefore(after, x.path.id, y.path.id))
  }

  lemma ArrivalsInOrder(arrivals: seq<FieldDiff>, before: seq<Json>, after: seq<Json>, i: nat, j: nat)
    requires Stable(after) && Follow(arrivals, Ids(after)) && i < j < |arrivals|
    requires forall change | change in arrivals :: change.change != ItemRemoved
    ensures InOrder(arrivals[i], arrivals[j], before, after)
  {
    assert arrivals[i] in arrivals && arrivals[j] in arrivals;
    FollowsItems(arrivals, after, i, j);
  }

  lemma DeparturesInOrder(departures: seq<FieldDiff>, before: seq<Json>, after: seq<Json>, i: nat, j: nat)
    requires Stable(before) && Follow(departures, Ids(before)) && i < j < |departures|
    requires forall change | change in departures :: change.change == ItemRemoved
    ensures InOrder(departures[i], departures[j], before, after)
  {
    assert departures[i] in departures && departures[j] in departures;
    FollowsItems(departures, before, i, j);
  }

  /** Every two changes are in order. */
  ghost predicate AllInOrder(changes: seq<FieldDiff>, before: seq<Json>, after: seq<Json>) {
    forall i, j | 0 <= i < j < |changes| :: InOrder(changes[i], changes[j], before, after)
  }

  lemma ArrivalsAreInOrder(key: string, before: seq<Json>, after: seq<Json>)
    requires Stable(before) && Stable(after) && forall id | id in Ids(after) :: id in ItemMap(after)
    ensures var arrivals := Arrivals(key, Ids(after), ItemMap(before), ItemMap(after));
      AllInOrder(arrivals, before, after) && forall change | change in arrivals :: change.change != ItemRemoved && change.path.LineOf?
  {
    var arrivals := Arrivals(key, Ids(after), ItemMap(before), ItemMap(after));
    ArrivalsFollow(key, Ids(after), ItemMap(before), ItemMap(after));
    forall i, j | 0 <= i < j < |arrivals| ensures InOrder(arrivals[i], arrivals[j], before, after) {
      ArrivalsInOrder(arrivals, before, after, i, j);
    }
  }

  lemma DeparturesAreInOrder(key: string, before: seq<Json>, after: seq<Json>)
    requires Stable(before) && Stable(after) && forall id | id in Ids(before) :: id in ItemMap(before)
    ensures var departures := Departures(key, Ids(before), ItemMap(before), ItemMap(after));
      AllInOrder(departures, before, after) && forall change | change in departures :: change.change == ItemRemoved && change.path.LineOf?
  {
    var departures := Departures(key, Ids(before), ItemMap(before), ItemMap(after));
    DeparturesFollow(key, Ids(before), ItemMap(before), ItemMap(after));
    forall i, j | 0 <= i < j < |departures| ensures InOrder(departures[i], departures[j], before, after) {
      DeparturesInOrder(departures, before, after, i, j);
    }
  }

  lemma JoinedInOrder(arrivals: seq<FieldDiff>, departures: seq<FieldDiff>, before: seq<Json>, after: seq<Json>)
    requires AllInOrder(arrivals, before, after) && AllInOrder(departures, before, after)
    requires forall change | change in arrivals :: change.change != ItemRemoved && change.path.LineOf?
    requires forall change | change in departures :: change.change == ItemRemoved && change.path.LineOf?
    ensures AllInOrder(arrivals + departures, before, after)
  {
    var all, n := arrivals + departures, |arrivals|;
    forall i, j | 0 <= i < j < |all| ensures InOrder(all[i], all[j], before, after) {
      if j < n {
        assert InOrder(arrivals[i], arrivals[j], before, after);
      } else if i >= n {
        assert InOrder(departures[i - n], departures[j - n], before, after);
      } else {
        assert arrivals[i] in arrivals && departures[j - n] in departures;
      }
    }
  }

  /** Additions and updates come first, in the order in which the ids first appear in the later list; removals follow, in that
      of the earlier list. No id is reported twice among either. */
  lemma ItemChangesInOrder(key: string, before: seq<Json>, after: seq<Json>)
    requires Stable(before) && Stable(after)
    ensures AllInOrder(DiffItems(key, before, after), before, after)
  {
    IdsAreKeys(before);
    IdsAreKeys(after);
    ArrivalsAreInOrder(key, before, after);
    DeparturesAreInOrder(key, before, after);
    JoinedInOrder(Arrivals(key, Ids(after), ItemMap(before), ItemMap(after)),
                  Departures(key, Ids(before), ItemMap(before), ItemMap(after)), before, after);
  }

  // ----- fields -----

  /** A field as a whole: its value before and after, which read differently. */
  ghost predicate WholeChange(key: string, before: Option<Json>, after: Option<Json>, change: FieldDiff) {
    Differ(before, after) && change == FieldDiff(WholeField(key), ItemUpdated, before, after)
  }

  ghost predicate IsList(value: Option<Json>) {
    value.Some? && value.value.Arr?
  }

  /** A field that is a list on neither side is reported as a whole, when its values read differently. */
  lemma PlainFieldIff(key: string, before: Option<Json>, after: Option<Json>, change: FieldDiff)
    requires !IsList(before) && !IsList(after)
    ensures DiffField(key, before, after).Success?
    ensures change in DiffField(key, before, after).value <==> WholeChange(key, before, after, change)
  {}

  /** A missing or null list is taken for an empty one. */
  ghost predicate ListSide(value: Option<Json>, list: Json) {
    if value == None || value == Some(Null) then list == Arr([]) else value == Some(list)
  }

  /** A field that is a list on some side: item by item when all items on both sides have ids, and as a whole otherwise. */
  lemma ListFieldIff(key: string, before: Option<Json>, after: Option<Json>, b: Json, a: Json, change: FieldDiff)
    requires IsList(before) || IsList(after)
    requires ListSide(before, b) && ListSide(after, a) && b.Arr? && a.Arr?
    ensures DiffField(key, before, after).Success?
    ensures change in DiffField(key, before, after).value <==>
      if Stable(b.items) && Stable(a.items) then exists id :: ItemChange(key, b.items, a.items, id, change)
      else WholeChange(key, Some(b), Some(a), change)
  {
    if Stable(b.items) && Stable(a.items) {
      ItemChangesIff(key, b.items, a.items, change);
    }
  }

  /** A list against a text is reported as a whole, unless the text is empty and all items have ids; that, and a list against a
      number, a truth value or an object, makes the comparison throw. */
  lemma ListAgainstOtherIff(key: string, before: Option<Json>, after: Option<Json>, list: Json, other: Json, change: FieldDiff)
    requires list.Arr? && !other.Arr? && !other.Null?
    requires (before == Some(list) && after == Some(other)) || (before == Some(other) && after == Some(list))
    ensures var r := DiffField(key, before, after);
      if other.Str? && !(other.chars == "" && Stable(list.items))
      then r.Success? && (change in r.value <==> WholeChange(key, before, after, change))
      else r == Failure(NotACollection)
  {}

  // ----- whole snapshots -----

  ghost predicate Known(fields: Snapshot, key: string) {
    exists i :: 0 <= i < |fields| && fields[i].key == key
  }

  lemma KnownOneMore(fields: Snapshot, last: Field, key: string)
    ensures Known(fields + [last], key) <==> Known(fields, key) || last.key == key
  {
    var longer := fields + [last];
    if Known(fields, key) {
      var i :| 0 <= i < |fields| && fields[i].key == key;
      assert longer[i].key == key;
    }
    assert longer[|fields|] == last;
  }

  lemma KnownInEither(a: Snapshot, b: Snapshot, key: string)
    ensures Known(a + b, key) <==> Known(a, key) || Known(b, key)
  {
    if i :| 0 <= i < |a| && a[i].key == key { assert (a + b)[i].key == key; }
    if i :| 0 <= i < |b| && b[i].key == key { assert (a + b)[|a| + i].key == key; }
  }

  lemma {:induction false} KeysIff(fields: Snapshot, key: string)
    ensures key in KeysOf(fields) <==> Known(fields, key)
    decreases |fields|
  {
    if fields != [] {
      var n := |fields| - 1;
      KeysIff(fields[..n], key);
      KnownOneMore(fields[..n], fields[n], key);
      assert fields == fields[..n] + [fields[n]];
    }
  }

  /** The change belongs to the key. */
  ghost predicate At(key: string, before: Snapshot, after: Snapshot, change: FieldDiff) {
    var found := DiffField(key, Lookup(before, key), Lookup(after, key));
    found.Success? && change in found.value
  }

  lemma {:induction false} ChangesByKey(keys: seq<string>, before: Snapshot, after: Snapshot, change: FieldDiff)
    requires DiffKeys(keys, before, after).Success?
    ensures change in DiffKeys(keys, before, after).value <==> exists key :: key in keys && At(key, before, after, change)
  {
    if keys != [] {
      ChangesByKey(keys[1..], before, after, change);
      assert keys == [keys[0]] + keys[1..];
      assert change in DiffKeys(keys, before, after).value
        <==> At(keys[0], before, after, change) || change in DiffKeys(keys[1..], before, after).value;
      if key :| key in keys && At(key, before, after, change) {
        assert key == keys[0] || key in keys[1..];
      }
    }
  }

  /** The change is the one that the key's values before and after give rise to. */
  ghost predicate ChangeAt(before: Snapshot, after: Snapshot, key: string, change: FieldDiff) {
    exists b, a :: ValueAt(before, key, b) && ValueAt(after, key, a)
      && DiffField(key, b, a).Success? && change in DiffField(key, b, a).value
  }

  /** Every key of either snapshot is compared under its own values, the earlier as old and the later as new; and nothing else
      is reported. */
  lemma SnapshotChangesIff(before: Option<Snapshot>, after: Option<Snapshot>, change: FieldDiff)
    requires Diff(before, after).Success?
    ensures var b, a := (match before case Some(s) => s case None => []), (match after case Some(s) => s case None => []);
      change in Diff(before, after).value <==> exists key :: (Known(b, key) || Known(a, key)) && ChangeAt(b, a, key, change)
  {
    var b, a := OrEmpty(before), OrEmpty(after);
    var keys := KeysOf(b + a);
    ChangesByKey(keys, b, a, change);
    forall key ensures key in keys <==> Known(b, key) || Known(a, key) {
      KeysIff(b + a, key);
      KnownInEither(b, a, key);
    }
    forall key | key in keys
      ensures At(key, b, a, change) <==> ChangeAt(b, a, key, change)
    {
      LookupIff(b, key);
      LookupIff(a, key);
      forall x, y | ValueAt(b, key, x) && ValueAt(a, key, y) ensures x == Lookup(b, key) && y == Lookup(a, key) {
        ValueIsUnique(b, key, x, Lookup(b, key));
        ValueIsUnique(a, key, y, Lookup(a, key));
      }
    }
  }
}
