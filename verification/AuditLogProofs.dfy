// What the hash chain proves: which logs verify, and which changes to a log are noticed.
module AuditLogProofs {
  import opened Wrappers
  import opened Seqs
  import opened CanonicalJson
  import opened CanonicalJsonProofs
  import opened AuditLog

  /** No two texts share a digest, and no digest is empty. */
  ghost predicate Collisionless(hash: string -> string) {
    (forall a, b :: hash(a) == hash(b) ==> a == b) && forall a :: hash(a) != ""
  }

  ghost predicate ValidOption(value: Option<Json>) {
    value.Some? ==> Valid(value.value)
  }

  ghost predicate ValidEvent(e: Event) {
    ValidOption(e.oldValues) && ValidOption(e.newValues)
  }

  // ----- content determines fields -----

  ghost predicate SameOption(a: Option<Json>, b: Option<Json>) {
    (a.None? && b.None?) || (a.Some? && b.Some? && Same(a.value, b.value))
  }

  ghost predicate SameBase(a: Event, b: Event) {
    && a.tenantId == b.tenantId && a.eventType == b.eventType && a.entityType == b.entityType
    && a.entityId == b.entityId && a.action == b.action && a.userId == b.userId
    && a.previousEventHash == b.previousEventHash
  }

  /** The keys of a content differ from one another by their length and first letter. */
  ghost function Shape(key: string): (int, char) {
    if key == [] then (0, ' ') else (|key|, key[0])
  }

  lemma Shapes()
    ensures Shape("tenantId") == (8, 't') && Shape("eventType") == (9, 'e') && Shape("entityType") == (10, 'e')
    ensures Shape("entityId") == (8, 'e') && Shape("action") == (6, 'a') && Shape("userId") == (6, 'u')
    ensures Shape("oldValues") == (9, 'o') && Shape("newValues") == (9, 'n')
    ensures Shape("previousEventHash") == (17, 'p') && Shape("__proto__") == (9, '_')
  {}

  ghost function ContentFields(e: Event, oldValues: Option<Json>, newValues: Option<Json>): seq<Field> {
    Content(e, oldValues, newValues).fields
  }

  /** Where each key stands. */
  lemma Layout(e: Event, oldValues: Option<Json>, newValues: Option<Json>)
    ensures var f := ContentFields(e, oldValues, newValues);
      var o, n := if oldValues.Some? then 1 else 0, if newValues.Some? then 1 else 0;
      && |f| == 7 + o + n && f[..6] == BaseFields(e)
      && (oldValues.Some? ==> f[6] == Field("oldValues", oldValues.value))
      && (newValues.Some? ==> f[6 + o] == Field("newValues", newValues.value))
      && f[6 + o + n] == Field("previousEventHash", TextOrNull(e.previousEventHash))
  {}

  lemma ShapesOf(e: Event, oldValues: Option<Json>, newValues: Option<Json>, i: nat)
    requires i < |ContentFields(e, oldValues, newValues)|
    ensures var f := ContentFields(e, oldValues, newValues);
      var shape, last := Shape(f[i].key), |f| - 1;
      && (i == 0 ==> shape == (8, 't')) && (i == 1 ==> shape == (9, 'e')) && (i == 2 ==> shape == (10, 'e'))
      && (i == 3 ==> shape == (8, 'e')) && (i == 4 ==> shape == (6, 'a')) && (i == 5 ==> shape == (6, 'u'))
      && (i == last ==> shape == (17, 'p'))
      && (6 <= i < last ==> shape == if i == 6 && oldValues.Some? then (9, 'o') else (9, 'n'))
      && (6 <= i < last && newValues.None? ==> shape == (9, 'o'))
  {
    Shapes();
    Layout(e, oldValues, newValues);
    var f := ContentFields(e, oldValues, newValues);
    if i < 6 {
      assert f[i] == f[..6][i];
    }
  }

  lemma ContentIsValid(e: Event, oldValues: Option<Json>, newValues: Option<Json>)
    requires ValidOption(oldValues) && ValidOption(newValues)
    ensures Valid(Content(e, oldValues, newValues))
  {
    var f := ContentFields(e, oldValues, newValues);
    Shapes();
    Layout(e, oldValues, newValues);
    forall i | 0 <= i < |f| ensures f[i].key != "__proto__" && Valid(f[i].value) {
      ShapesOf(e, oldValues, newValues, i);
      if i < 6 {
        assert f[i] == f[..6][i];
      }
    }
    forall i, j | 0 <= i < j < |f| ensures f[i].key != f[j].key {
      ShapesOf(e, oldValues, newValues, i);
      ShapesOf(e, oldValues, newValues, j);
    }
  }

  /** A key of this shape is present exactly when the value is. */
  lemma PresenceOf(e: Event, oldValues: Option<Json>, newValues: Option<Json>)
    ensures HasKey(ContentFields(e, oldValues, newValues), "oldValues") <==> oldValues.Some?
    ensures HasKey(ContentFields(e, oldValues, newValues), "newValues") <==> newValues.Some?
  {
    var f := ContentFields(e, oldValues, newValues);
    Shapes();
    Layout(e, oldValues, newValues);
    forall i: nat | i < |f|
      ensures f[i].key == "oldValues" ==> oldValues.Some?
      ensures f[i].key == "newValues" ==> newValues.Some?
    {
      ShapesOf(e, oldValues, newValues, i);
    }
  }

  lemma KeysCarry(f: seq<Field>, g: seq<Field>, key: string)
    requires SameKeys(f, g)
    ensures HasKey(f, key) <==> HasKey(g, key)
  {
    if HasKey(f, key) {
      var i :| 0 <= i < |f| && f[i].key == key;
      assert HasKey(g, f[i].key);
    }
    if HasKey(g, key) {
      var i :| 0 <= i < |g| && g[i].key == key;
      assert HasKey(f, g[i].key);
    }
  }

  ghost predicate Aligned(f: seq<Field>, g: seq<Field>) {
    |f| == |g| && forall i | 0 <= i < |f| :: f[i].key == g[i].key && Same(f[i].value, g[i].value)
  }

  lemma SameAt(f: seq<Field>, g: seq<Field>, i: nat)
    requires Same(Obj(f), Obj(g)) && i < |f| && i < |g| && f[i].key == g[i].key
    ensures Same(f[i].value, g[i].value)
  {}

  lemma SameLayout(a: Event, oldA: Option<Json>, newA: Option<Json>, b: Event, oldB: Option<Json>, newB: Option<Json>)
    requires (oldA.Some? <==> oldB.Some?) && (newA.Some? <==> newB.Some?)
    ensures var f, g := ContentFields(a, oldA, newA), ContentFields(b, oldB, newB);
      |f| == |g| && forall i | 0 <= i < |f| :: f[i].key == g[i].key
  {
    var f, g := ContentFields(a, oldA, newA), ContentFields(b, oldB, newB);
    Layout(a, oldA, newA);
    Layout(b, oldB, newB);
    forall i | 0 <= i < |f| ensures f[i].key == g[i].key {
      if i < 6 {
        assert f[i] == f[..6][i] && g[i] == g[..6][i];
      }
    }
  }

  lemma SameObjectsSameKeys(f: seq<Field>, g: seq<Field>)
    requires Same(Obj(f), Obj(g))
    ensures SameKeys(f, g)
  {}

  /** Contents that agree up to key order have the same layout. */
  lemma ContentsAlign(a: Event, oldA: Option<Json>, newA: Option<Json>, b: Event, oldB: Option<Json>, newB: Option<Json>)
    requires Same(Content(a, oldA, newA), Content(b, oldB, newB))
    ensures (oldA.Some? <==> oldB.Some?) && (newA.Some? <==> newB.Some?)
    ensures Aligned(ContentFields(a, oldA, newA), ContentFields(b, oldB, newB))
  {
    var f, g := ContentFields(a, oldA, newA), ContentFields(b, oldB, newB);
    SameObjectsSameKeys(f, g);
    PresenceOf(a, oldA, newA);
    PresenceOf(b, oldB, newB);
    KeysCarry(f, g, "oldValues");
    KeysCarry(f, g, "newValues");
    SameLayout(a, oldA, newA, b, oldB, newB);
    forall i | 0 <= i < |f| ensures Same(f[i].value, g[i].value) {
      SameAt(f, g, i);
    }
  }

  lemma TextDetermines(a: Option<string>, b: Option<string>)
    requires Same(TextOrNull(a), TextOrNull(b))
    ensures a == b
  {}

  lemma BaseDetermined(a: Event, b: Event)
    requires Aligned(BaseFields(a), BaseFields(b))
    requires Same(TextOrNull(a.previousEventHash), TextOrNull(b.previousEventHash))
    ensures SameBase(a, b)
  {
    var f, g := BaseFields(a), BaseFields(b);
    assert Same(f[0].value, g[0].value) && Same(f[1].value, g[1].value) && Same(f[2].value, g[2].value);
    assert Same(f[3].value, g[3].value) && Same(f[4].value, g[4].value) && Same(f[5].value, g[5].value);
    TextDetermines(a.tenantId, b.tenantId);
    TextDetermines(a.userId, b.userId);
    TextDetermines(a.previousEventHash, b.previousEventHash);
  }

  /** Contents that agree up to key order agree in every hashed field. */
  lemma ContentDetermines(a: Event, oldA: Option<Json>, newA: Option<Json>, b: Event, oldB: Option<Json>, newB: Option<Json>)
    requires Same(Content(a, oldA, newA), Content(b, oldB, newB))
    ensures SameBase(a, b) && SameOption(oldA, oldB) && SameOption(newA, newB)
  {
    var f, g := ContentFields(a, oldA, newA), ContentFields(b, oldB, newB);
    ContentsAlign(a, oldA, newA, b, oldB, newB);
    Layout(a, oldA, newA);
    Layout(b, oldB, newB);
    var last := |f| - 1;
    assert Same(f[last].value, g[last].value);
    assert oldA.Some? ==> Same(f[6].value, g[6].value);
    assert newA.Some? ==> Same(f[last - 1].value, g[last - 1].value);
    forall i | 0 <= i < 6 ensures BaseFields(a)[i].key == BaseFields(b)[i].key && Same(BaseFields(a)[i].value, BaseFields(b)[i].value) {
      assert f[i] == f[..6][i] && g[i] == g[..6][i];
    }
    BaseDetermined(a, b);
  }

  lemma FieldwiseSame(a: Event, oldA: Option<Json>, newA: Option<Json>, b: Event, oldB: Option<Json>, newB: Option<Json>)
    requires SameBase(a, b) && SameOption(oldA, oldB) && SameOption(newA, newB)
    ensures var f, g := ContentFields(a, oldA, newA), ContentFields(b, oldB, newB);
      |f| == |g| && forall i | 0 <= i < |f| :: f[i].key == g[i].key && Same(f[i].value, g[i].value)
  {
    var f, g := ContentFields(a, oldA, newA), ContentFields(b, oldB, newB);
    Layout(a, oldA, newA);
    Layout(b, oldB, newB);
    forall i | 0 <= i < |f| ensures f[i].key == g[i].key && Same(f[i].value, g[i].value) {
      if i < 6 {
        assert f[i] == f[..6][i] && g[i] == g[..6][i];
      }
    }
  }

  /** The same keys with the same values in the same order. */
  lemma SameInOrder(f: seq<Field>, g: seq<Field>)
    requires DistinctKeys(f) && |f| == |g|
    requires forall i | 0 <= i < |f| :: f[i].key == g[i].key && Same(f[i].value, g[i].value)
    ensures Same(Obj(f), Obj(g))
  {
    forall i | 0 <= i < |f| ensures HasKey(g, f[i].key) && HasKey(f, g[i].key) {
      assert f[i].key == g[i].key;
    }
    forall i, j | 0 <= i < |f| && 0 <= j < |g| && f[i].key == g[j].key ensures Same(f[i].value, g[j].value) {
      assert f[j].key == g[j].key;
      assert i == j;
    }
  }

  lemma FieldsDetermine(a: Event, oldA: Option<Json>, newA: Option<Json>, b: Event, oldB: Option<Json>, newB: Option<Json>)
    requires ValidOption(oldA) && ValidOption(newA)
    requires SameBase(a, b) && SameOption(oldA, oldB) && SameOption(newA, newB)
    ensures Same(Content(a, oldA, newA), Content(b, oldB, newB))
  {
    var f, g := ContentFields(a, oldA, newA), ContentFields(b, oldB, newB);
    FieldwiseSame(a, oldA, newA, b, oldB, newB);
    ContentIsValid(a, oldA, newA);
    SameInOrder(f, g);
  }
}
