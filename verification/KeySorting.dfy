// Key sorting as it runs: each object is rebuilt property by property in sorted key order.
module KeySorting {
  import opened Seqs
  import opened Ordering
  import opened CanonicalJson
  import opened CanonicalJsonProofs

  /** Setting a new property: an array index goes to its place among the indices, any other key to the end. */
  function SetProperty(fields: seq<Field>, field: Field): seq<Field> {
    if IsIndex(field.key) then Insert(field, fields, ByKey()) else fields + [field]
  }

  function ByText(): (Field, Field) -> bool {
    (a: Field, b: Field) => StringLe(a.key, b.key)
  }

  lemma ByTextRanks()
    ensures Ranking(ByText())
  {
    forall a: Field, b: Field ensures ByText()(a, b) || ByText()(b, a) {
      StringLeTotal(a.key, b.key);
    }
    forall a: Field, b: Field, c: Field | ByText()(a, b) && ByText()(b, c) ensures ByText()(a, c) {
      StringLeTransitive(a.key, b.key, c.key);
    }
  }

  lemma InsertElements<T>(x: T, s: seq<T>, le: (T, T) -> bool, y: T)
    ensures y in Insert(x, s, le) <==> y == x || y in s
  {
    InsertPermutes(x, s, le);
    assert y in Insert(x, s, le) <==> y in multiset(Insert(x, s, le));
  }

  lemma {:induction false} InsertDistinct<T>(x: T, s: seq<T>, le: (T, T) -> bool)
    requires Distinct(s) && x !in s
    ensures Distinct(Insert(x, s, le))
  {
    if s != [] && !le(x, s[0]) {
      Headed(s);
      InsertDistinct(x, s[1..], le);
      InsertElements(x, s[1..], le, s[0]);
    }
  }

  /** Canonical so far: in enumeration order, each property once, and exactly these. */
  ghost predicate Built(result: seq<Field>, values: seq<Field>) {
    Sorted(result, ByKey()) && Distinct(result) && forall x :: x in result <==> x in values
  }

  lemma PropertySet(result: seq<Field>, values: seq<Field>, field: Field)
    requires Built(result, values) && field !in values
    requires forall f | f in values :: StringLe(f.key, field.key)
    ensures Built(SetProperty(result, field), values + [field])
  {
    var next := SetProperty(result, field);
    if IsIndex(field.key) {
      ByKeyRanks();
      InsertSorted(field, result, ByKey());
      InsertDistinct(field, result, ByKey());
      forall x ensures x in next <==> x in values + [field] {
        InsertElements(field, result, ByKey(), x);
      }
    } else {
      forall i | 0 <= i < |result| ensures ByKey()(result[i], field) {
        assert result[i] in result;
      }
    }
  }

  lemma {:induction false} ValuesAppend(a: seq<Field>, f: Field)
    ensures SortValues(a + [f]) == SortValues(a) + [Field(f.key, SortKeys(f.value))]
  {
    if a != [] {
      ValuesAppend(a[1..], f);
      assert (a + [f])[1..] == a[1..] + [f];
    } else {
      assert a + [f] == [f];
    }
  }

  lemma SameFieldsSameValues(a: seq<Field>, b: seq<Field>, x: Field)
    requires forall f | f in a :: f in b
    requires x in SortValues(a)
    ensures x in SortValues(b)
  {
    SortedValues(a);
    SortedValues(b);
    var i :| 0 <= i < |a| && SortValues(a)[i] == x;
    assert a[i] in a;
    var j :| 0 <= j < |b| && b[j] == a[i];
    assert SortValues(b)[j] == x;
  }

  /** What the loop leaves is the sorted object. */
  lemma LoopResult(fields: seq<Field>, sorted: seq<Field>, result: seq<Field>)
    requires DistinctKeys(fields) && forall f :: f in sorted <==> f in fields
    requires Built(result, SortValues(sorted))
    ensures result == Sort(SortValues(fields), ByKey())
  {
    var canonical := Sort(SortValues(fields), ByKey());
    SortedFields(fields);
    forall x ensures x in result <==> x in canonical {
      if x in SortValues(sorted) { SameFieldsSameValues(sorted, fields, x); }
      if x in SortValues(fields) { SameFieldsSameValues(fields, sorted, x); }
    }
    forall x, y | x in result && y in result && ByKey()(x, y) && ByKey()(y, x) ensures x == y {
      KeyLeAntisymmetric(x.key, y.key);
      var i :| 0 <= i < |canonical| && canonical[i] == x;
      var j :| 0 <= j < |canonical| && canonical[j] == y;
    }
    SortedUnique(result, canonical, ByKey());
  }

  /** The keys already set come earlier in text order than the next one. */
  lemma SetEarlier(sorted: seq<Field>, i: nat)
    requires Sorted(sorted, ByText()) && DistinctKeys(sorted) && i < |sorted|
    ensures forall f | f in SortValues(sorted[..i]) :: StringLe(f.key, sorted[i].key) && f.key != sorted[i].key
  {
    SortedValues(sorted[..i]);
    forall f | f in SortValues(sorted[..i]) ensures StringLe(f.key, sorted[i].key) && f.key != sorted[i].key {
      var k :| 0 <= k < i && SortValues(sorted[..i])[k] == f;
      assert ByText()(sorted[k], sorted[i]);
    }
  }

  lemma SortedByText(fields: seq<Field>)
    requires DistinctKeys(fields)
    ensures var sorted := Sort(fields, ByText());
      Sorted(sorted, ByText()) && DistinctKeys(sorted) && forall f :: f in sorted <==> f in fields
  {
    var sorted := Sort(fields, ByText());
    ByTextRanks();
    SortSorted(fields, ByText());
    assert Distinct(fields);
    SortDistinct(fields, ByText());
    forall i, j | 0 <= i < j < |sorted| ensures sorted[i].key != sorted[j].key {
      assert sorted[i] in fields && sorted[j] in fields && sorted[i] != sorted[j];
    }
  }

  method SortKeysDeep(value: Json) returns (r: Json)
    requires Valid(value)
    ensures r == SortKeys(value)
    decreases value, 1
  {
    match value {
      case Arr(items) =>
        var sortedItems := [];
        SortedItems(items);
        for i := 0 to |items|
          invariant sortedItems == SortItems(items)[..i]
        {
          var item := SortKeysDeep(items[i]);
          sortedItems := sortedItems + [item];
        }
        r := Arr(sortedItems);
      case Obj(fields) =>
        var sortedFields := SortObject(fields);
        r := Obj(sortedFields);
      case _ =>
        r := value;
    }
  }

  /** One round of the loop below. */
  lemma OneMoreProperty(sorted: seq<Field>, i: nat, result: seq<Field>)
    requires Sorted(sorted, ByText()) && DistinctKeys(sorted) && i < |sorted|
    requires Built(result, SortValues(sorted[..i]))
    ensures Built(SetProperty(result, Field(sorted[i].key, SortKeys(sorted[i].value))), SortValues(sorted[..i + 1]))
  {
    SetEarlier(sorted, i);
    PropertySet(result, SortValues(sorted[..i]), Field(sorted[i].key, SortKeys(sorted[i].value)));
    ValuesAppend(sorted[..i], sorted[i]);
    assert sorted[..i + 1] == sorted[..i] + [sorted[i]];
  }

  method SortObject(fields: seq<Field>) returns (result: seq<Field>)
    requires Valid(Obj(fields))
    ensures result == Sort(SortValues(fields), ByKey())
    decreases fields, 0
  {
    var sorted := Sort(fields, ByText());
    SortedByText(fields);
    result := [];
    for i := 0 to |sorted|
      invariant Built(result, SortValues(sorted[..i]))
    {
      var next := sorted[i];
      assert next in fields;
      ghost var k :| 0 <= k < |fields| && fields[k] == next;
      var inner := SortKeysDeep(next.value);
      OneMoreProperty(sorted, i, result);
      result := SetProperty(result, Field(next.key, inner));
    }
    assert sorted[..|sorted|] == sorted;
    LoopResult(fields, sorted, result);
  }
}
