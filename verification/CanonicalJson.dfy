// The canonical JSON text that audit hashes are taken of: object keys sorted at every depth, then printed.
module CanonicalJson {
  import opened Seqs
  import opened Ordering

  datatype Field = Field(key: string, value: Json)

  /** A number is identified with its shortest decimal text; an object lists its properties in enumeration order. */
  datatype Json =
    | Null
    | Bool(value: bool)
    | Num(text: string)
    | Str(chars: string)
    | Arr(items: seq<Json>)
    | Obj(fields: seq<Field>)

  predicate IsNumberChar(c: char) {
    '0' <= c <= '9' || c == '-' || c == '+' || c == '.' || c == 'e' || c == 'E'
  }

  ghost predicate DistinctKeys(fields: seq<Field>) {
    forall i, j | 0 <= i < j < |fields| :: fields[i].key != fields[j].key
  }

  /** Values as the database stores them. The one key that cannot be set by assignment does not occur. */
  ghost predicate Valid(value: Json) {
    match value
    case Num(text) => text != [] && forall c | c in text :: IsNumberChar(c)
    case Arr(items) => forall i | 0 <= i < |items| :: Valid(items[i])
    case Obj(fields) =>
      && DistinctKeys(fields)
      && forall i | 0 <= i < |fields| :: fields[i].key != "__proto__" && Valid(fields[i].value)
    case _ => true
  }

  ghost predicate SameKeys(f: seq<Field>, g: seq<Field>) {
    && (forall i | 0 <= i < |f| :: HasKey(g, f[i].key))
    && (forall i | 0 <= i < |g| :: HasKey(f, g[i].key))
  }

  ghost predicate HasKey(fields: seq<Field>, key: string) {
    exists i :: 0 <= i < |fields| && fields[i].key == key
  }

  /** Equal up to the order of object keys, at any depth. */
  ghost predicate Same(a: Json, b: Json) {
    match (a, b)
    case (Arr(x), Arr(y)) => |x| == |y| && forall i | 0 <= i < |x| :: Same(x[i], y[i])
    case (Obj(f), Obj(g)) =>
      && SameKeys(f, g)
      && forall i, j | 0 <= i < |f| && 0 <= j < |g| && f[i].key == g[j].key :: Same(f[i].value, g[j].value)
    case _ => a == b
  }

  // ----- sorting keys -----

  predicate IsDigits(s: string) {
    forall c | c in s :: '0' <= c <= '9'
  }

  /** Keys that are array indices; an object always enumerates them first, by value. */
  predicate IsIndex(key: string) {
    && key != [] && IsDigits(key) && (key[0] == '0' ==> |key| == 1)
    && (|key| < 10 || (|key| == 10 && StringLe(key, "4294967294")))
  }

  /** The order in which properties are enumerated after they were set in sorted order. */
  predicate KeyLe(a: string, b: string) {
    if IsIndex(a) && IsIndex(b) then |a| < |b| || (|a| == |b| && StringLe(a, b))
    else if IsIndex(a) then true
    else if IsIndex(b) then false
    else StringLe(a, b)
  }

  function ByKey(): (Field, Field) -> bool {
    (a: Field, b: Field) => KeyLe(a.key, b.key)
  }

  function SortItems(items: seq<Json>): seq<Json> {
    if items == [] then [] else [SortKeys(items[0])] + SortItems(items[1..])
  }

  function SortValues(fields: seq<Field>): seq<Field> {
    if fields == [] then [] else [Field(fields[0].key, SortKeys(fields[0].value))] + SortValues(fields[1..])
  }

  function SortKeys(value: Json): Json {
    match value
    case Arr(items) => Arr(SortItems(items))
    case Obj(fields) => Obj(Sort(SortValues(fields), ByKey()))
    case _ => value
  }

  lemma KeyLeTotal(a: string, b: string)
    ensures KeyLe(a, b) || KeyLe(b, a)
  {
    StringLeTotal(a, b);
  }

  lemma KeyLeTransitive(a: string, b: string, c: string)
    requires KeyLe(a, b) && KeyLe(b, c)
    ensures KeyLe(a, c)
  {
    if StringLe(a, b) && StringLe(b, c) {
      StringLeTransitive(a, b, c);
    }
  }

  lemma KeyLeAntisymmetric(a: string, b: string)
    requires KeyLe(a, b) && KeyLe(b, a)
    ensures a == b
  {
    StringLeAntisymmetric(a, b);
  }

  lemma ByKeyRanks()
    ensures Ranking(ByKey())
  {
    forall a: Field, b: Field ensures ByKey()(a, b) || ByKey()(b, a) {
      KeyLeTotal(a.key, b.key);
    }
    forall a: Field, b: Field, c: Field | ByKey()(a, b) && ByKey()(b, c) ensures ByKey()(a, c) {
      KeyLeTransitive(a.key, b.key, c.key);
    }
  }

  // ----- printing -----

  /** Digits of a control character's escape, in lower case. */
  function Hex(n: int): char
    requires 0 <= n < 16
  {
    if n < 10 then '0' + n as char else 'a' + (n - 10) as char
  }

  /** How a character appears between quotes. */
  function Escaped(c: char): string {
    if c == '\"' then ['\\', '\"']
    else if c == '\\' then ['\\', '\\']
    else if c == '\U{0008}' then ['\\', 'b']
    else if c == '\t' then ['\\', 't']
    else if c == '\n' then ['\\', 'n']
    else if c == '\U{000C}' then ['\\', 'f']
    else if c == '\r' then ['\\', 'r']
    else if c < ' ' then ['\\', 'u', '0', '0', Hex(c as int / 16), Hex(c as int % 16)]
    else [c]
  }

  /** The escaped characters and the closing quote, followed by the rest of the text. */
  function QuoteTail(s: string, rest: string): string {
    if s == [] then ['\"'] + rest else Escaped(s[0]) + QuoteTail(s[1..], rest)
  }

  /** The text of a value followed by the rest of the text. */
  function Text(value: Json, rest: string): string
    decreases value, 1
  {
    match value
    case Null => "null" + rest
    case Bool(b) => if b then "true" + rest else "false" + rest
    case Num(text) => text + rest
    case Str(s) => ['\"'] + QuoteTail(s, rest)
    case Arr(items) => ['['] + (if items == [] then [']'] + rest else Text(items[0], ItemsTail(items[1..], rest)))
    case Obj(fields) => ['{'] + (if fields == [] then ['}'] + rest else FieldText(fields[0], FieldsTail(fields[1..], rest)))
  }

  function ItemsTail(items: seq<Json>, rest: string): string
    decreases items
  {
    if items == [] then [']'] + rest else [','] + Text(items[0], ItemsTail(items[1..], rest))
  }

  function FieldText(field: Field, rest: string): string
    decreases field
  {
    ['\"'] + QuoteTail(field.key, [':'] + Text(field.value, rest))
  }

  function FieldsTail(fields: seq<Field>, rest: string): string
    decreases fields
  {
    if fields == [] then ['}'] + rest else [','] + FieldText(fields[0], FieldsTail(fields[1..], rest))
  }

  function Canonical(value: Json): string {
    Text(SortKeys(value), [])
  }
}
