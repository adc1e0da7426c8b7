// What the canonical text looks like: its grammar as in RFC 8259, and the order of the keys in it.
module CanonicalText {
  import opened Wrappers
  import opened Seqs
  import opened Ordering
  import opened CanonicalJson
  import opened CanonicalJsonProofs

  // ----- reading strings, as in section 7 of RFC 8259 -----

  function HexValue(c: char): Option<int> {
    if '0' <= c <= '9' then Some(c as int - '0' as int)
    else if 'a' <= c <= 'f' then Some(c as int - 'a' as int + 10)
    else if 'A' <= c <= 'F' then Some(c as int - 'A' as int + 10)
    else None
  }

  /** The character that stands after the backslash of a short escape. */
  function ShortEscape(c: char): Option<char> {
    if c == '\"' || c == '\\' || c == '/' then Some(c)
    else if c == 'b' then Some(8 as char)
    else if c == 'f' then Some(12 as char)
    else if c == 'n' then Some(10 as char)
    else if c == 'r' then Some(13 as char)
    else if c == 't' then Some(9 as char)
    else None
  }

  function HexQuad(text: string): Option<int>
    requires |text| == 4
  {
    var a, b, c, d := HexValue(text[0]), HexValue(text[1]), HexValue(text[2]), HexValue(text[3]);
    if a.None? || b.None? || c.None? || d.None? then None
    else Some(4096 * a.value + 256 * b.value + 16 * c.value + d.value)
  }

  /** One character of a string and the text after it; surrogate pairs are not joined. */
  function ReadChar(text: string): Option<(char, string)> {
    if text == [] || text[0] == '\"' || text[0] < ' ' then None
    else if text[0] != '\\' then Some((text[0], text[1..]))
    else if |text| < 2 then None
    else if text[1] == 'u' then
      if |text| < 6 then None
      else
        var code := HexQuad(text[2..6]);
        if code.None? || !(0 <= code.value < 0xD800) then None else Some((code.value as char, text[6..]))
    else
      var c := ShortEscape(text[1]);
      if c.None? then None else Some((c.value, text[2..]))
  }

  lemma EscapeReads(c: char, rest: string)
    ensures ReadChar(Escaped(c) + rest) == Some((c, rest))
  {
    var text := Escaped(c) + rest;
    if |Escaped(c)| == 1 {
      assert text[1..] == rest;
    } else if |Escaped(c)| == 2 {
      assert text[2..] == rest;
    } else {
      var h, l := c as int / 16, c as int % 16;
      assert text[2..6] == ['0', '0', Hex(h), Hex(l)] && text[6..] == rest;
      assert HexValue(Hex(h)) == Some(h) && HexValue(Hex(l)) == Some(l);
      assert 16 * h + l == c as int;
    }
  }

  /** The characters up to the closing quote, and the text after it. */
  function ReadString(text: string): Option<(string, string)>
    decreases |text|
  {
    if text != [] && text[0] == '\"' then Some(("", text[1..]))
    else
      match ReadChar(text)
      case None => None
      case Some((c, rest)) =>
        if |rest| >= |text| then None
        else
          match ReadString(rest)
          case None => None
          case Some((s, after)) => Some(([c] + s, after))
  }

  lemma EscapedStarts(c: char)
    ensures |Escaped(c)| >= 1 && Escaped(c)[0] != '\"'
  {}

  /** Every string is read back from its quoted form, whatever follows it. */
  lemma {:induction false} StringReadsBack(s: string, rest: string)
    ensures ReadString(QuoteTail(s, rest)) == Some((s, rest))
  {
    var text := QuoteTail(s, rest);
    if s == [] {
      assert text[1..] == rest;
    } else {
      EscapeReads(s[0], QuoteTail(s[1..], rest));
      EscapedStarts(s[0]);
      StringReadsBack(s[1..], rest);
      assert [s[0]] + s[1..] == s;
    }
  }

  // ----- the grammar -----

  function Quoted(s: string): string {
    "\"" + QuoteTail(s, [])
  }

  /** The texts with a comma between each two. */
  function Joined(texts: seq<string>): string {
    if texts == [] then "" else if |texts| == 1 then texts[0] else texts[0] + "," + Joined(texts[1..])
  }

  function ItemTexts(items: seq<Json>): seq<string> {
    seq(|items|, i requires 0 <= i < |items| => Text(items[i], []))
  }

  /** Key, colon, value. */
  function MemberTexts(fields: seq<Field>): seq<string> {
    seq(|fields|, i requires 0 <= i < |fields| => Quoted(fields[i].key) + ":" + Text(fields[i].value, []))
  }

  lemma {:induction false} QuoteThen(s: string, rest: string)
    ensures QuoteTail(s, rest) == QuoteTail(s, []) + rest
  {
    if s != [] {
      QuoteThen(s[1..], rest);
      QuoteThen(s[1..], []);
      Assoc(Escaped(s[0]), QuoteTail(s[1..], []), rest);
    } else {
      assert ['\"'] + [] == ['\"'];
    }
  }

  lemma Assoc(a: string, b: string, c: string)
    ensures (a + b) + c == a + (b + c)
  {}

  lemma {:induction false} TextThen(value: Json, rest: string)
    ensures Text(value, rest) == Text(value, []) + rest
    decreases value, 1
  {
    match value
    case Null => assert "null" + [] == "null";
    case Bool(b) => assert "true" + [] == "true" && "false" + [] == "false";
    case Num(text) => assert text + [] == text;
    case Str(s) =>
      QuoteThen(s, rest);
      Assoc("\"", QuoteTail(s, []), rest);
    case Arr(items) =>
      if items == [] {
        assert ['['] + ([']'] + rest) == ['['] + ([']'] + []) + rest;
      } else {
        ItemsThen(items[1..], rest);
        TextThen(items[0], ItemsTail(items[1..], rest));
        TextThen(items[0], ItemsTail(items[1..], []));
        Assoc(Text(items[0], []), ItemsTail(items[1..], []), rest);
        Assoc("[", Text(items[0], []) + ItemsTail(items[1..], []), rest);
      }
    case Obj(fields) =>
      if fields == [] {
        assert ['{'] + (['}'] + rest) == ['{'] + (['}'] + []) + rest;
      } else {
        FieldsThen(fields[1..], rest);
        FieldThen(fields[0], FieldsTail(fields[1..], rest));
        FieldThen(fields[0], FieldsTail(fields[1..], []));
        Assoc(FieldText(fields[0], []), FieldsTail(fields[1..], []), rest);
        Assoc("{", FieldText(fields[0], []) + FieldsTail(fields[1..], []), rest);
      }
  }

  lemma {:induction false} FieldThen(field: Field, rest: string)
    ensures FieldText(field, rest) == FieldText(field, []) + rest
    ensures FieldText(field, []) == Quoted(field.key) + ":" + Text(field.value, [])
    decreases field
  {
    TextThen(field.value, rest);
    QuoteThen(field.key, ":" + Text(field.value, rest));
    QuoteThen(field.key, ":" + Text(field.value, []));
    assert "\"" + (QuoteTail(field.key, []) + (":" + (Text(field.value, []) + rest)))
        == "\"" + (QuoteTail(field.key, []) + (":" + Text(field.value, []))) + rest;
    assert "\"" + (QuoteTail(field.key, []) + (":" + Text(field.value, []))) == Quoted(field.key) + ":" + Text(field.value, []);
  }

  lemma {:induction false} ItemsThen(items: seq<Json>, rest: string)
    ensures ItemsTail(items, rest) == ItemsTail(items, []) + rest
    decreases items
  {
    if items == [] {
      assert [']'] + [] == [']'];
    } else {
      ItemsThen(items[1..], rest);
      TextThen(items[0], ItemsTail(items[1..], rest));
      TextThen(items[0], ItemsTail(items[1..], []));
      Assoc(Text(items[0], []), ItemsTail(items[1..], []), rest);
      Assoc(",", Text(items[0], []) + ItemsTail(items[1..], []), rest);
    }
  }

  lemma {:induction false} FieldsThen(fields: seq<Field>, rest: string)
    ensures FieldsTail(fields, rest) == FieldsTail(fields, []) + rest
    decreases fields
  {
    if fields == [] {
      assert ['}'] + [] == ['}'];
    } else {
      FieldsThen(fields[1..], rest);
      FieldThen(fields[0], FieldsTail(fields[1..], rest));
      FieldThen(fields[0], FieldsTail(fields[1..], []));
      Assoc(FieldText(fields[0], []), FieldsTail(fields[1..], []), rest);
      Assoc(",", FieldText(fields[0], []) + FieldsTail(fields[1..], []), rest);
    }
  }

  lemma {:induction false} ItemsAreJoined(items: seq<Json>)
    requires items != []
    ensures Text(items[0], ItemsTail(items[1..], [])) == Joined(ItemTexts(items)) + "]"
    decreases |items|
  {
    var texts := ItemTexts(items);
    TextThen(items[0], ItemsTail(items[1..], []));
    if |items| == 1 {
      assert ItemsTail(items[1..], []) == "]";
    } else {
      ItemsAreJoined(items[1..]);
      assert texts[1..] == ItemTexts(items[1..]);
      Assoc(texts[0] + ",", Joined(texts[1..]), "]");
      Assoc(texts[0], ",", Joined(texts[1..]) + "]");
    }
  }

  lemma {:induction false} FieldsAreJoined(fields: seq<Field>)
    requires fields != []
    ensures FieldText(fields[0], FieldsTail(fields[1..], [])) == Joined(MemberTexts(fields)) + "}"
    decreases |fields|
  {
    var texts := MemberTexts(fields);
    FieldThen(fields[0], FieldsTail(fields[1..], []));
    if |fields| == 1 {
      assert FieldsTail(fields[1..], []) == "}";
    } else {
      FieldsAreJoined(fields[1..]);
      assert texts[1..] == MemberTexts(fields[1..]);
      Assoc(texts[0] + ",", Joined(texts[1..]), "}");
      Assoc(texts[0], ",", Joined(texts[1..]) + "}");
    }
  }

  /** The text of each kind of value: literals, numbers as given, strings in quotes, arrays and objects in brackets with their
      parts between commas and no space anywhere. */
  lemma TextIs(value: Json)
    ensures match value
            case Null => Text(value, []) == "null"
            case Bool(b) => Text(value, []) == if b then "true" else "false"
            case Num(text) => Text(value, []) == text
            case Str(s) => Text(value, []) == Quoted(s)
            case Arr(items) => Text(value, []) == "[" + Joined(ItemTexts(items)) + "]"
            case Obj(fields) => Text(value, []) == "{" + Joined(MemberTexts(fields)) + "}"
  {
    match value
    case Null => assert "null" + [] == "null";
    case Bool(b) => assert "true" + [] == "true" && "false" + [] == "false";
    case Num(text) => assert text + [] == text;
    case Str(s) =>
    case Arr(items) =>
      if items != [] {
        ItemsAreJoined(items);
        Assoc("[", Joined(ItemTexts(items)), "]");
      } else {
        assert [']'] + [] == [']'];
      }
    case Obj(fields) =>
      if fields != [] {
        FieldsAreJoined(fields);
        Assoc("{", Joined(MemberTexts(fields)), "}");
      } else {
        assert ['}'] + [] == ['}'];
      }
  }

  // ----- the order of keys -----

  /** The first difference decides; a proper prefix comes first. */
  lemma {:induction false} TextOrder(a: string, b: string)
    ensures StringLe(a, b) <==>
      || a <= b
      || exists k :: 0 <= k < |a| && k < |b| && a[..k] == b[..k] && a[k] < b[k]
  {
    if a != [] && b != [] && a[0] == b[0] {
      TextOrder(a[1..], b[1..]);
      assert a <= b <==> a[1..] <= b[1..] by {
        assert a == [a[0]] + a[1..] && b == [b[0]] + b[1..];
      }
      if k :| 0 <= k < |a[1..]| && k < |b[1..]| && a[1..][..k] == b[1..][..k] && a[1..][k] < b[1..][k] {
        assert a[..k + 1] == [a[0]] + a[1..][..k] && b[..k + 1] == [b[0]] + b[1..][..k];
        assert a[k + 1] < b[k + 1];
      }
      if k :| 0 <= k < |a| && k < |b| && a[..k] == b[..k] && a[k] < b[k] {
        assert k > 0;
        assert a[1..][..k - 1] == a[..k][1..] && b[1..][..k - 1] == b[..k][1..];
        assert a[1..][k - 1] < b[1..][k - 1];
      }
    } else if a != [] && b != [] && a[0] < b[0] {
      assert a[..0] == b[..0];
    } else if a != [] && b != [] {
      if k :| 0 <= k < |a| && k < |b| && a[..k] == b[..k] && a[k] < b[k] {
        assert k > 0 ==> a[..k][0] == b[..k][0];
      }
    }
  }

  function Power(n: nat): nat {
    if n == 0 then 1 else 10 * Power(n - 1)
  }

  function Digit(c: char): int {
    c as int - '0' as int
  }

  /** The number that a string of digits stands for. */
  function NumberOf(s: string): int {
    if s == [] then 0 else Digit(s[0]) * Power(|s| - 1) + NumberOf(s[1..])
  }

  lemma {:induction false} NumberFits(s: string)
    requires IsDigits(s)
    ensures 0 <= NumberOf(s) < Power(|s|)
  {
    if s != [] {
      TailIsDigits(s);
      NumberFits(s[1..]);
      DigitTimes(Digit(s[0]), Power(|s| - 1));
    }
  }

  lemma DigitTimes(d: int, p: int)
    requires 0 <= d <= 9 && p >= 1
    ensures 0 <= d * p <= 9 * p
  {}

  lemma {:induction false} DigitGap(d: int, e: int, p: int)
    requires d < e && p >= 1
    ensures d * p + p <= e * p
    decreases e - d
  {
    assert e * p == (e - 1) * p + p;
    if d + 1 < e { DigitGap(d, e - 1, p); }
  }

  lemma TailIsDigits(s: string)
    requires s != [] && IsDigits(s)
    ensures '0' <= s[0] <= '9' && IsDigits(s[1..])
  {
    assert s[0] in s;
    forall c | c in s[1..] ensures c in s {}
  }

  lemma {:induction false} SameLengthOrder(a: string, b: string)
    requires IsDigits(a) && IsDigits(b) && |a| == |b|
    ensures StringLe(a, b) <==> NumberOf(a) <= NumberOf(b)
  {
    if a != [] {
      TailIsDigits(a);
      TailIsDigits(b);
      var p := Power(|a| - 1);
      NumberFits(a[1..]);
      NumberFits(b[1..]);
      if a[0] == b[0] {
        SameLengthOrder(a[1..], b[1..]);
      } else if a[0] < b[0] {
        DigitGap(Digit(a[0]), Digit(b[0]), p);
      } else {
        DigitGap(Digit(b[0]), Digit(a[0]), p);
      }
    }
  }

  lemma {:induction false} PowersGrow(m: nat, n: nat)
    requires m <= n
    ensures Power(m) <= Power(n)
  {
    if m < n { PowersGrow(m, n - 1); }
  }

  /** A number without leading zeros is at least the power of its length. */
  lemma LongIsLarge(s: string)
    requires IsDigits(s) && s != [] && s[0] != '0'
    ensures Power(|s| - 1) <= NumberOf(s)
  {
    TailIsDigits(s);
    NumberFits(s[1..]);
    DigitGap(0, Digit(s[0]), Power(|s| - 1));
  }

  lemma OneMoreDigit(c: char, s: string, t: string, n: int)
    requires NumberOf(s) == n && t == [c] + s
    ensures NumberOf(t) == Digit(c) * Power(|s|) + n
  {
    assert t[1..] == s;
  }

  lemma PowersAre()
    ensures Power(0) == 1 && Power(1) == 10 && Power(2) == 100 && Power(3) == 1000 && Power(4) == 10000 && Power(5) == 100000
    ensures Power(6) == 1000000 && Power(7) == 10000000 && Power(8) == 100000000
    ensures Power(9) == 1000000000 && Power(10) == 10000000000
  {
    assert Power(3) == 1000;
    assert Power(6) == 1000000;
    assert Power(9) == 1000000000;
  }

  lemma LowerHalf()
    ensures NumberOf("67294") == 67294
  {
    PowersAre();
    OneMoreDigit('4', "", "4", 0);
    OneMoreDigit('9', "4", "94", 4);
    OneMoreDigit('2', "94", "294", 94);
    OneMoreDigit('7', "294", "7294", 294);
    OneMoreDigit('6', "7294", "67294", 7294);
  }

  lemma MiddleDigits()
    ensures NumberOf("94967294") == 94967294
  {
    LowerHalf();
    PowersAre();
    OneMoreDigit('9', "67294", "967294", 67294);
    OneMoreDigit('4', "967294", "4967294", 967294);
    OneMoreDigit('9', "4967294", "94967294", 4967294);
  }

  lemma BoundIs()
    ensures NumberOf("4294967294") == 4294967294
  {
    MiddleDigits();
    PowersAre();
    OneMoreDigit('2', "94967294", "294967294", 94967294);
    OneMoreDigit('4', "294967294", "4294967294", 294967294);
  }

  lemma SameLengthBound(key: string, bound: string, n: int)
    requires IsDigits(key) && IsDigits(bound) && |key| == |bound| && NumberOf(bound) == n
    ensures StringLe(key, bound) <==> NumberOf(key) <= n
  {
    SameLengthOrder(key, bound);
  }

  lemma BoundIsDigits()
    ensures IsDigits("4294967294") && |"4294967294"| == 10
  {}

  lemma TenDigits(key: string)
    requires IsDigits(key) && |key| == 10
    ensures StringLe(key, "4294967294") <==> NumberOf(key) <= 4294967294
  {
    BoundIs();
    BoundIsDigits();
    SameLengthBound(key, "4294967294", 4294967294);
  }

  /** Index keys are the decimal numbers up to 4294967294 without leading zeros. */
  lemma IndexIff(key: string)
    ensures IsIndex(key) <==> key != [] && IsDigits(key) && (key[0] == '0' ==> |key| == 1) && NumberOf(key) <= 4294967294
  {
    PowersAre();
    if key != [] && IsDigits(key) && (key[0] == '0' ==> |key| == 1) {
      NumberFits(key);
      if |key| == 10 {
        TenDigits(key);
      } else if |key| < 10 {
        PowersGrow(|key|, 9);
      } else {
        LongIsLarge(key);
        PowersGrow(10, |key| - 1);
      }
    }
  }

  lemma IndexOrder(a: string, b: string)
    requires IsIndex(a) && IsIndex(b)
    ensures KeyLe(a, b) <==> NumberOf(a) <= NumberOf(b)
  {
    if |a| == |b| {
      SameLengthOrder(a, b);
    } else if |a| < |b| {
      NumberFits(a);
      LongIsLarge(b);
      PowersGrow(|a|, |b| - 1);
    } else {
      NumberFits(b);
      LongIsLarge(a);
      PowersGrow(|b|, |a| - 1);
    }
  }

  /** Which of two keys of an object is printed first: an index before any other, two indices by number, others by text. */
  ghost predicate PrintedBefore(a: string, b: string) {
    if IsIndex(a) && IsIndex(b) then NumberOf(a) < NumberOf(b)
    else if IsIndex(a) || IsIndex(b) then IsIndex(a)
    else a != b && StringLe(a, b)
  }

  lemma OrderedKeys(a: string, b: string)
    requires KeyLe(a, b) && a != b
    ensures PrintedBefore(a, b)
  {
    if IsIndex(a) && IsIndex(b) {
      IndexOrder(a, b);
      IndexOrder(b, a);
      if NumberOf(a) == NumberOf(b) { KeyLeAntisymmetric(a, b); }
    }
  }

  /** The canonical form of an object prints each of its keys once, with the canonical form of its value, in that order. */
  lemma KeysAreOrdered(fields: seq<Field>)
    requires DistinctKeys(fields)
    ensures SortKeys(Obj(fields)).Obj? && |SortKeys(Obj(fields)).fields| == |fields|
    ensures var sorted := SortKeys(Obj(fields)).fields;
      && (forall i, j | 0 <= i < j < |sorted| :: PrintedBefore(sorted[i].key, sorted[j].key))
      && forall x :: x in sorted <==> exists i :: 0 <= i < |fields| && x == Field(fields[i].key, SortKeys(fields[i].value))
  {
    var values := SortValues(fields);
    var sorted := Sort(values, ByKey());
    SortedFields(fields);
    SortedValues(fields);
    assert Distinct(values);
    DistinctFits(sorted, values);
    DistinctFits(values, sorted);
    forall i, j | 0 <= i < j < |sorted| ensures PrintedBefore(sorted[i].key, sorted[j].key) {
      assert ByKey()(sorted[i], sorted[j]) && sorted[i].key != sorted[j].key;
      OrderedKeys(sorted[i].key, sorted[j].key);
    }
  }
}
