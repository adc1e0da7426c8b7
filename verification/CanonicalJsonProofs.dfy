// Two values have the same canonical text exactly when they differ only in the order of object keys.
module CanonicalJsonProofs {
  import opened Seqs
  import opened Ordering
  import opened CanonicalJson

  // ----- the printer can be read back in only one way -----

  lemma ConsSplit(c: char, x: string, d: char, y: string)
    requires [c] + x == [d] + y
    ensures c == d && x == y
  {
    var s := [c] + x;
    assert s[0] == c && s[1..] == x;
    assert ([d] + y)[0] == d && ([d] + y)[1..] == y;
  }

  lemma SamePrefixSplit(p: string, x: string, y: string)
    requires p + x == p + y
    ensures x == y
  {
    assert (p + x)[|p|..] == x && (p + y)[|p|..] == y;
  }

  lemma EscapedDiffers(c: char, d: char) returns (i: nat)
    requires c != d
    ensures i < |Escaped(c)| && i < |Escaped(d)| && Escaped(c)[i] != Escaped(d)[i]
  {
    var p, q := Escaped(c), Escaped(d);
    if p[0] != q[0] {
      return 0;
    }
    if p[1] != q[1] {
      return 1;
    }
    assert p[1] == 'u';
    assert c as int == 16 * (c as int / 16) + c as int % 16 && d as int == 16 * (d as int / 16) + d as int % 16;
    i := if p[4] != q[4] then 4 else 5;
  }

  lemma EscapedSplit(c: char, x: string, d: char, y: string)
    requires Escaped(c) + x == Escaped(d) + y
    ensures c == d && x == y
  {
    forall i | 0 <= i < |Escaped(c)| && i < |Escaped(d)| ensures Escaped(c)[i] == Escaped(d)[i] {
      assert (Escaped(c) + x)[i] == Escaped(c)[i] && (Escaped(d) + y)[i] == Escaped(d)[i];
    }
    if c != d {
      var i := EscapedDiffers(c, d);
    }
    SamePrefixSplit(Escaped(c), x, y);
  }

  lemma QuoteBegins(s: string, x: string)
    ensures QuoteTail(s, x) != [] && (QuoteTail(s, x)[0] == '\"' <==> s == [])
  {
    if s != [] {
      assert QuoteTail(s, x)[0] == Escaped(s[0])[0];
    }
  }

  lemma {:induction false} QuoteSplit(s: string, x: string, t: string, y: string)
    requires QuoteTail(s, x) == QuoteTail(t, y)
    ensures s == t && x == y
    decreases |s|
  {
    QuoteBegins(s, x);
    QuoteBegins(t, y);
    if s == [] {
      ConsSplit('\"', x, '\"', y);
    } else {
      EscapedSplit(s[0], QuoteTail(s[1..], x), t[0], QuoteTail(t[1..], y));
      QuoteSplit(s[1..], x, t[1..], y);
      assert s == [s[0]] + s[1..] && t == [t[0]] + t[1..];
    }
  }

  /** The text after a value never goes on with a character that could belong to a number. */
  ghost predicate Stops(rest: string) {
    rest == [] || !IsNumberChar(rest[0])
  }

  lemma NumberGoesOn(p: string, x: string, q: string, y: string)
    requires p + x == q + y && |p| < |q|
    requires forall c | c in q :: IsNumberChar(c)
    ensures x != [] && IsNumberChar(x[0])
  {
    assert |p + x| == |q + y|;
    assert (p + x)[|p|] == x[0] && (q + y)[|p|] == q[|p|];
  }

  lemma NumberEnds(p: string, x: string, q: string, y: string)
    requires p + x == q + y && Stops(x)
    requires forall c | c in q :: IsNumberChar(c)
    ensures |q| <= |p|
  {
    if |p| < |q| {
      NumberGoesOn(p, x, q, y);
    }
  }

  lemma NumberSplit(p: string, x: string, q: string, y: string)
    requires p + x == q + y && Stops(x) && Stops(y)
    requires forall c | c in p :: IsNumberChar(c)
    requires forall c | c in q :: IsNumberChar(c)
    ensures p == q && x == y
  {
    NumberEnds(p, x, q, y);
    NumberEnds(q, y, p, x);
    assert (p + x)[..|p|] == p && (q + y)[..|q|] == q;
    SamePrefixSplit(p, x, y);
  }

  /** The first character of a text tells what kind of value it begins. */
  ghost function Kind(value: Json): nat {
    match value
    case Null => 0
    case Bool(b) => if b then 1 else 2
    case Num(_) => 3
    case Str(_) => 4
    case Arr(_) => 5
    case Obj(_) => 6
  }

  ghost function KindOfChar(c: char): nat {
    if c == 'n' then 0 else if c == 't' then 1 else if c == 'f' then 2
    else if c == '\"' then 4 else if c == '[' then 5 else if c == '{' then 6 else 3
  }

  lemma TextBegins(value: Json, rest: string)
    requires Valid(value)
    ensures Text(value, rest) != [] && KindOfChar(Text(value, rest)[0]) == Kind(value)
    ensures Text(value, rest)[0] != ']'
  {
    match value
    case Num(text) => assert text[0] in text && Text(value, rest)[0] == text[0];
    case Null => assert Text(value, rest)[0] == 'n';
    case Bool(b) => assert Text(value, rest)[0] == if b then 't' else 'f';
    case _ =>
  }

  lemma {:induction false} TextSplit(a: Json, x: string, b: Json, y: string)
    requires Valid(a) && Valid(b) && Stops(x) && Stops(y)
    requires Text(a, x) == Text(b, y)
    ensures a == b && x == y
    decreases a, 1
  {
    TextBegins(a, x);
    TextBegins(b, y);
    assert Kind(a) == Kind(b);
    match a
    case Null => SamePrefixSplit("null", x, y);
    case Bool(v) => SamePrefixSplit(if v then "true" else "false", x, y);
    case Num(text) => NumberSplit(text, x, b.text, y);
    case Str(s) =>
      ConsSplit('\"', QuoteTail(s, x), '\"', QuoteTail(b.chars, y));
      QuoteSplit(s, x, b.chars, y);
    case Arr(items) => ArraySplit(items, x, b.items, y);
    case Obj(fields) => ObjectSplit(fields, x, b.fields, y);
  }

  lemma ItemsTailStops(items: seq<Json>, rest: string)
    ensures Stops(ItemsTail(items, rest)) && ItemsTail(items, rest) != []
    ensures ItemsTail(items, rest)[0] == if items == [] then ']' else ','
  {}

  lemma FieldsTailStops(fields: seq<Field>, rest: string)
    ensures Stops(FieldsTail(fields, rest)) && FieldsTail(fields, rest) != []
    ensures FieldsTail(fields, rest)[0] == if fields == [] then '}' else ','
  {}

  lemma {:induction false} ArraySplit(f: seq<Json>, x: string, g: seq<Json>, y: string)
    requires Valid(Arr(f)) && Valid(Arr(g))
    requires Text(Arr(f), x) == Text(Arr(g), y)
    ensures f == g && x == y
    decreases f, 2
  {
    var left := if f == [] then [']'] + x else Text(f[0], ItemsTail(f[1..], x));
    var right := if g == [] then [']'] + y else Text(g[0], ItemsTail(g[1..], y));
    ConsSplit('[', left, '[', right);
    if f != [] { TextBegins(f[0], ItemsTail(f[1..], x)); }
    if g != [] { TextBegins(g[0], ItemsTail(g[1..], y)); }
    if f == [] {
      assert left[0] == ']';
      ConsSplit(']', x, ']', y);
    } else {
      ItemsTailStops(f[1..], x);
      ItemsTailStops(g[1..], y);
      TextSplit(f[0], ItemsTail(f[1..], x), g[0], ItemsTail(g[1..], y));
      ItemsSplit(f[1..], x, g[1..], y);
      assert f == [f[0]] + f[1..] && g == [g[0]] + g[1..];
    }
  }

  lemma {:induction false} ItemsSplit(f: seq<Json>, x: string, g: seq<Json>, y: string)
    requires (forall i | 0 <= i < |f| :: Valid(f[i])) && (forall i | 0 <= i < |g| :: Valid(g[i]))
    requires ItemsTail(f, x) == ItemsTail(g, y)
    ensures f == g && x == y
    decreases f, 0
  {
    ItemsTailStops(f, x);
    ItemsTailStops(g, y);
    if f == [] {
      ConsSplit(']', x, ']', y);
    } else {
      ConsSplit(',', Text(f[0], ItemsTail(f[1..], x)), ',', Text(g[0], ItemsTail(g[1..], y)));
      ItemsTailStops(f[1..], x);
      ItemsTailStops(g[1..], y);
      TextSplit(f[0], ItemsTail(f[1..], x), g[0], ItemsTail(g[1..], y));
      ItemsSplit(f[1..], x, g[1..], y);
      assert f == [f[0]] + f[1..] && g == [g[0]] + g[1..];
    }
  }

  lemma {:induction false} FieldSplit(f: Field, x: string, g: Field, y: string)
    requires Valid(f.value) && Valid(g.value) && Stops(x) && Stops(y)
    requires FieldText(f, x) == FieldText(g, y)
    ensures f == g && x == y
    decreases f, 0
  {
    var left, right := [':'] + Text(f.value, x), [':'] + Text(g.value, y);
    ConsSplit('\"', QuoteTail(f.key, left), '\"', QuoteTail(g.key, right));
    QuoteSplit(f.key, left, g.key, right);
    ConsSplit(':', Text(f.value, x), ':', Text(g.value, y));
    TextSplit(f.value, x, g.value, y);
  }

  ghost predicate ValidFields(fields: seq<Field>) {
    forall i | 0 <= i < |fields| :: Valid(fields[i].value)
  }

  lemma {:induction false} ObjectSplit(f: seq<Field>, x: string, g: seq<Field>, y: string)
    requires ValidFields(f) && ValidFields(g)
    requires Text(Obj(f), x) == Text(Obj(g), y)
    ensures f == g && x == y
    decreases f, 2
  {
    var left := if f == [] then ['}'] + x else FieldText(f[0], FieldsTail(f[1..], x));
    var right := if g == [] then ['}'] + y else FieldText(g[0], FieldsTail(g[1..], y));
    ConsSplit('{', left, '{', right);
    if f != [] { assert left[0] == '\"'; }
    if g != [] { assert right[0] == '\"'; }
    if f == [] {
      assert left[0] == '}';
      ConsSplit('}', x, '}', y);
    } else {
      FieldsTailStops(f[1..], x);
      FieldsTailStops(g[1..], y);
      FieldSplit(f[0], FieldsTail(f[1..], x), g[0], FieldsTail(g[1..], y));
      FieldsSplit(f[1..], x, g[1..], y);
      assert f == [f[0]] + f[1..] && g == [g[0]] + g[1..];
    }
  }

  lemma {:induction false} FieldsSplit(f: seq<Field>, x: string, g: seq<Field>, y: string)
    requires ValidFields(f) && ValidFields(g)
    requires FieldsTail(f, x) == FieldsTail(g, y)
    ensures f == g && x == y
    decreases f, 0
  {
    FieldsTailStops(f, x);
    FieldsTailStops(g, y);
    if f == [] {
      ConsSplit('}', x, '}', y);
    } else {
      ConsSplit(',', FieldText(f[0], FieldsTail(f[1..], x)), ',', FieldText(g[0], FieldsTail(g[1..], y)));
      FieldsTailStops(f[1..], x);
      FieldsTailStops(g[1..], y);
      FieldSplit(f[0], FieldsTail(f[1..], x), g[0], FieldsTail(g[1..], y));
      FieldsSplit(f[1..], x, g[1..], y);
      assert f == [f[0]] + f[1..] && g == [g[0]] + g[1..];
    }
  }

  /** Printing loses nothing. */
  lemma TextIsInjective(a: Json, b: Json)
    requires Valid(a) && Valid(b) && Text(a, []) == Text(b, [])
    ensures a == b
  {
    TextSplit(a, [], b, []);
  }

  // ----- sorting keys -----

  lemma {:induction false} SortedItems(items: seq<Json>)
    ensures |SortItems(items)| == |items|
    ensures forall i | 0 <= i < |items| :: SortItems(items)[i] == SortKeys(items[i])
  {
    if items != [] {
      SortedItems(items[1..]);
    }
  }

  lemma {:induction false} SortedValues(fields: seq<Field>)
    ensures |SortValues(fields)| == |fields|
    ensures forall i | 0 <= i < |fields| :: SortValues(fields)[i] == Field(fields[i].key, SortKeys(fields[i].value))
  {
    if fields != [] {
      SortedValues(fields[1..]);
    }
  }

  /** The sorted fields are the fields with sorted values, each once. */
  lemma SortedFields(fields: seq<Field>)
    requires DistinctKeys(fields)
    ensures var sorted := Sort(SortValues(fields), ByKey());
      && Sorted(sorted, ByKey()) && Distinct(sorted) && DistinctKeys(sorted)
      && forall x :: x in sorted <==> x in SortValues(fields)
  {
    var values := SortValues(fields);
    var sorted := Sort(values, ByKey());
    SortedValues(fields);
    ByKeyRanks();
    SortSorted(values, ByKey());
    assert Distinct(values);
    SortDistinct(values, ByKey());
    forall i, j | 0 <= i < j < |sorted| ensures sorted[i].key != sorted[j].key {
      assert sorted[i] in values && sorted[j] in values && sorted[i] != sorted[j];
    }
  }

  lemma {:induction false} SortedIsValid(value: Json)
    requires Valid(value)
    ensures Valid(SortKeys(value))
    decreases value
  {
    match value
    case Arr(items) =>
      SortedItems(items);
      forall i | 0 <= i < |items| ensures Valid(SortItems(items)[i]) {
        SortedIsValid(items[i]);
      }
    case Obj(fields) =>
      var sorted := Sort(SortValues(fields), ByKey());
      SortedFields(fields);
      SortedValues(fields);
      forall i | 0 <= i < |sorted| ensures sorted[i].key != "__proto__" && Valid(sorted[i].value) {
        assert sorted[i] in SortValues(fields);
        var k :| 0 <= k < |fields| && SortValues(fields)[k] == sorted[i];
        SortedIsValid(fields[k].value);
      }
    case _ =>
  }

  lemma ValuesOfSame(f: seq<Field>, g: seq<Field>, x: Field)
    requires SameKeys(f, g)
    requires forall i, j | 0 <= i < |f| && 0 <= j < |g| && f[i].key == g[j].key :: SortKeys(f[i].value) == SortKeys(g[j].value)
    requires x in SortValues(f)
    ensures x in SortValues(g)
  {
    SortedValues(f);
    SortedValues(g);
    var i :| 0 <= i < |f| && SortValues(f)[i] == x;
    assert HasKey(g, f[i].key);
    var j :| 0 <= j < |g| && g[j].key == f[i].key;
    assert SortValues(g)[j] == x;
  }

  lemma OneFieldPerKey(fields: seq<Field>, x: Field, y: Field)
    requires DistinctKeys(fields) && x in fields && y in fields && ByKey()(x, y) && ByKey()(y, x)
    ensures x == y
  {
    KeyLeAntisymmetric(x.key, y.key);
    var i :| 0 <= i < |fields| && fields[i] == x;
    var j :| 0 <= j < |fields| && fields[j] == y;
  }

  lemma EqualWhenSorted(f: seq<Field>, g: seq<Field>)
    requires DistinctKeys(f) && DistinctKeys(g)
    requires forall x :: x in SortValues(f) <==> x in SortValues(g)
    ensures Sort(SortValues(f), ByKey()) == Sort(SortValues(g), ByKey())
  {
    var a, b := Sort(SortValues(f), ByKey()), Sort(SortValues(g), ByKey());
    SortedFields(f);
    SortedFields(g);
    forall x, y | x in a && y in a && ByKey()(x, y) && ByKey()(y, x) ensures x == y {
      OneFieldPerKey(a, x, y);
    }
    SortedUnique(a, b, ByKey());
  }

  lemma {:induction false} SameSortsEqually(a: Json, b: Json)
    requires Valid(a) && Valid(b) && Same(a, b)
    ensures SortKeys(a) == SortKeys(b)
    decreases a
  {
    match (a, b)
    case (Arr(x), Arr(y)) =>
      SortedItems(x);
      SortedItems(y);
      forall i | 0 <= i < |x| ensures SortItems(x)[i] == SortItems(y)[i] {
        SameSortsEqually(x[i], y[i]);
      }
    case (Obj(f), Obj(g)) =>
      forall i, j | 0 <= i < |f| && 0 <= j < |g| && f[i].key == g[j].key
        ensures SortKeys(f[i].value) == SortKeys(g[j].value)
      {
        SameSortsEqually(f[i].value, g[j].value);
      }
      forall x ensures x in SortValues(f) <==> x in SortValues(g) {
        if x in SortValues(f) { ValuesOfSame(f, g, x); }
        if x in SortValues(g) { ValuesOfSame(g, f, x); }
      }
      EqualWhenSorted(f, g);
    case _ =>
  }

  lemma KeyCarriesOver(f: seq<Field>, g: seq<Field>, i: nat)
    requires i < |f| && forall x :: x in SortValues(f) ==> x in SortValues(g)
    ensures exists j :: 0 <= j < |g| && g[j].key == f[i].key && SortKeys(g[j].value) == SortKeys(f[i].value)
  {
    SortedValues(f);
    SortedValues(g);
    var x := SortValues(f)[i];
    assert x in SortValues(f);
    var j :| 0 <= j < |g| && SortValues(g)[j] == x;
  }

  lemma {:induction false} EqualSortsSame(a: Json, b: Json)
    requires Valid(a) && Valid(b) && SortKeys(a) == SortKeys(b)
    ensures Same(a, b)
    decreases a
  {
    match (a, b)
    case (Arr(x), Arr(y)) =>
      SortedItems(x);
      SortedItems(y);
      forall i | 0 <= i < |x| ensures Same(x[i], y[i]) {
        assert SortItems(x)[i] == SortItems(y)[i];
        EqualSortsSame(x[i], y[i]);
      }
    case (Obj(f), Obj(g)) =>
      SortedFields(f);
      SortedFields(g);
      forall i | 0 <= i < |f| ensures HasKey(g, f[i].key) {
        KeyCarriesOver(f, g, i);
      }
      forall i | 0 <= i < |g| ensures HasKey(f, g[i].key) {
        KeyCarriesOver(g, f, i);
      }
      forall i, j | 0 <= i < |f| && 0 <= j < |g| && f[i].key == g[j].key ensures Same(f[i].value, g[j].value) {
        KeyCarriesOver(f, g, i);
        EqualSortsSame(f[i].value, g[j].value);
      }
    case _ =>
  }

  /** Same text, same value up to key order: nothing else is confused, and nothing else is told apart. */
  lemma CanonicalIff(a: Json, b: Json)
    requires Valid(a) && Valid(b)
    ensures Canonical(a) == Canonical(b) <==> Same(a, b)
  {
    SortedIsValid(a);
    SortedIsValid(b);
    if Canonical(a) == Canonical(b) {
      TextIsInjective(SortKeys(a), SortKeys(b));
      EqualSortsSame(a, b);
    }
    if Same(a, b) {
      SameSortsEqually(a, b);
    }
  }
}
