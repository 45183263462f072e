/** The canonical text of a JSON value: object keys sorted, no whitespace. Text is a sequence of
    UTF-16 code units, as in the original's strings. */
module CanonicalJson {

  type Unit = x: int | 0 <= x < 0x1_0000

  type Str = seq<Unit>

  const QUOTE: Unit := 34
  const COMMA: Unit := 44
  const BACKSLASH: Unit := 92
  const OPEN_LIST: Unit := 91
  const CLOSE_LIST: Unit := 93
  const OPEN_OBJECT: Unit := 123
  const CLOSE_OBJECT: Unit := 125
  const COLON: Unit := 58

  // ---------------------------------------------------------------- values

  /** A number is carried as its decimal text: for finite numbers other than -0 the original's
      number-to-string conversion is one-to-one. An object keeps its fields in insertion order. */
  datatype Json =
    | JNull
    | JBool(b: bool)
    | JNumber(text: Str)
    | JString(s: Str)
    | JArray(items: seq<Json>)
    | JObject(fields: seq<Field>)

  datatype Field = Field(key: Str, value: Json)

  predicate NumberUnit(c: Unit) {
    48 <= c <= 57 || c == 45 || c == 43 || c == 46 || c == 101
  }

  /** A digit or a minus sign, then digits, signs, a point, an exponent mark. */
  predicate NumberText(t: Str) {
    && t != [] && (48 <= t[0] <= 57 || t[0] == 45)
    && forall i :: 0 <= i < |t| ==> NumberUnit(t[i])
  }

  ghost predicate DistinctKeys(fields: seq<Field>) {
    forall i, j :: 0 <= i < j < |fields| ==> fields[i].key != fields[j].key
  }

  ghost predicate WellFormed(v: Json) {
    match v
    case JNumber(t) => NumberText(t)
    case JArray(items) => forall i :: 0 <= i < |items| ==> WellFormed(items[i])
    case JObject(fields) =>
      DistinctKeys(fields) && forall i :: 0 <= i < |fields| ==> WellFormed(fields[i].value)
    case _ => true
  }

  function Keys(fields: seq<Field>): seq<Str> {
    seq(|fields|, i requires 0 <= i < |fields| => fields[i].key)
  }

  /** The value of a property. */
  function Lookup(fields: seq<Field>, key: Str): (v: Json)
    requires key in Keys(fields)
    ensures exists i :: 0 <= i < |fields| && fields[i] == Field(key, v)
  {
    if fields[0].key == key then
      assert fields[0] == Field(key, fields[0].value);
      fields[0].value
    else
      assert key in Keys(fields[1..]) by {
        var i :| 0 <= i < |fields| && fields[i].key == key;
        assert Keys(fields[1..])[i - 1] == key;
      }
      var v := Lookup(fields[1..], key);
      assert exists i :: 0 <= i < |fields| && fields[i] == Field(key, v) by {
        var i :| 0 <= i < |fields[1..]| && fields[1..][i] == Field(key, v);
        assert fields[i + 1] == Field(key, v);
      }
      v
  }

  /** The same value: like numbers and strings, lists item by item, objects property by property
      whatever the order of insertion. */
  ghost predicate Same(v: Json, w: Json) {
    match (v, w)
    case (JArray(s), JArray(t)) => |s| == |t| && forall i :: 0 <= i < |s| ==> Same(s[i], t[i])
    case (JObject(f), JObject(g)) =>
      && (forall k :: k in Keys(f) <==> k in Keys(g))
      && forall k :: k in Keys(f) && k in Keys(g) ==> Same(Lookup(f, k), Lookup(g, k))
    case _ => v == w
  }

  // ---------------------------------------------------------------- strings

  function HexUnit(d: nat): Unit
    requires d < 16
  {
    if d < 10 then 48 + d else 87 + d
  }

  function UnicodeEscape(c: Unit): Str {
    [BACKSLASH, 117, HexUnit(c / 4096), HexUnit(c / 256 % 16), HexUnit(c / 16 % 16), HexUnit(c % 16)]
  }

  /** The escape of one unit; `paired` says whether a surrogate has its other half beside it. */
  function EscapeUnit(c: Unit, paired: bool): Str {
    if c == QUOTE || c == BACKSLASH then [BACKSLASH, c]
    else if c == 8 then [BACKSLASH, 98]
    else if c == 12 then [BACKSLASH, 102]
    else if c == 10 then [BACKSLASH, 110]
    else if c == 13 then [BACKSLASH, 114]
    else if c == 9 then [BACKSLASH, 116]
    else if c < 32 || (0xd800 <= c < 0xe000 && !paired) then UnicodeEscape(c)
    else [c]
  }

  predicate HighAt(s: Str, i: int) {
    0 <= i < |s| && 0xd800 <= s[i] < 0xdc00
  }

  predicate LowAt(s: Str, i: int) {
    0 <= i < |s| && 0xdc00 <= s[i] < 0xe000
  }

  predicate Paired(s: Str, i: int) {
    (HighAt(s, i) && LowAt(s, i + 1)) || (LowAt(s, i) && HighAt(s, i - 1))
  }

  function EscapeFrom(s: Str, i: nat): Str
    decreases |s| - i
  {
    if i >= |s| then [] else EscapeUnit(s[i], Paired(s, i)) + EscapeFrom(s, i + 1)
  }

  /** `JSON.stringify` of a string. */
  function Quoted(s: Str): Str {
    [QUOTE] + EscapeFrom(s, 0) + [QUOTE]
  }

  // ---------------------------------------------------------------- sorting keys

  predicate Before(a: Str, b: Str) {
    if b == [] then false
    else if a == [] then true
    else a[0] < b[0] || (a[0] == b[0] && Before(a[1..], b[1..]))
  }

  function Insert(k: Str, keys: seq<Str>): seq<Str> {
    if keys == [] || !Before(keys[0], k) then [k] + keys else [keys[0]] + Insert(k, keys[1..])
  }

  function Sort(keys: seq<Str>): (sorted: seq<Str>)
    ensures forall k :: k in sorted <==> k in keys
  {
    if keys == [] then []
    else
      InsertKeeps(keys[0], Sort(keys[1..]));
      assert keys == [keys[0]] + keys[1..];
      Insert(keys[0], Sort(keys[1..]))
  }

  lemma {:induction false} InsertKeeps(k: Str, keys: seq<Str>)
    ensures forall x :: x in Insert(k, keys) <==> x == k || x in keys
  {
    if keys != [] && Before(keys[0], k) {
      InsertKeeps(k, keys[1..]);
      assert keys == [keys[0]] + keys[1..];
    }
  }

  // ---------------------------------------------------------------- the canonical text

  function Canonical(v: Json): Str
    decreases v, 0
  {
    match v
    case JNull => [110, 117, 108, 108]
    case JBool(b) => if b then [116, 114, 117, 101] else [102, 97, 108, 115, 101]
    case JNumber(t) => t
    case JString(s) => Quoted(s)
    case JArray(items) => [OPEN_LIST] + Items(items) + [CLOSE_LIST]
    case JObject(fields) => [OPEN_OBJECT] + Members(Sort(Keys(fields)), fields) + [CLOSE_OBJECT]
  }

  /** Comma-separated items. */
  function Items(items: seq<Json>): Str
    decreases items, 0
  {
    if items == [] then []
    else if |items| == 1 then Canonical(items[0])
    else Canonical(items[0]) + [COMMA] + Items(items[1..])
  }

  /** Comma-separated `"key":value` members, in the order of the keys given. */
  function Members(keys: seq<Str>, fields: seq<Field>): Str
    requires forall k :: k in keys ==> k in Keys(fields)
    decreases fields, |keys|
  {
    if keys == [] then []
    else
      var member := Quoted(keys[0]) + [COLON] + Canonical(Lookup(fields, keys[0]));
      if |keys| == 1 then member else member + [COMMA] + Members(keys[1..], fields)
  }
}
