/** What the canonical text says to a reader of JSON: the grammar of RFC 8259, as a relation between texts and values,
    restricted to texts without white space whose object keys ascend. */
module JsonText {
  import Bytes
  import opened CanonicalJson
  import opened JsonReadability

  // ---------------------------------------------------------------- strings

  predicate HexDigit(c: Unit) {
    48 <= c <= 57 || 65 <= c <= 70 || 97 <= c <= 102
  }

  function HexValue(c: Unit): nat
    requires HexDigit(c)
  {
    if c <= 57 then c - 48 else if c <= 70 then c - 55 else c - 87
  }

  /** The letters after a backslash, in section 7 of RFC 8259, and what they stand for. */
  predicate ShortEscape(letter: Unit, c: Unit) {
    || (letter == 34 && c == 34) || (letter == 92 && c == 92) || (letter == 47 && c == 47)
    || (letter == 98 && c == 8) || (letter == 102 && c == 12) || (letter == 110 && c == 10)
    || (letter == 114 && c == 13) || (letter == 116 && c == 9)
  }

  /** The text stands for the unit c inside a string. */
  predicate StandsFor(e: Str, c: Unit) {
    || (e == [c] && c >= 32 && c != 34 && c != 92)
    || (|e| == 2 && e[0] == 92 && ShortEscape(e[1], c))
    || (|e| == 6 && e[0] == 92 && e[1] == 117 && HexDigit(e[2]) && HexDigit(e[3]) && HexDigit(e[4]) && HexDigit(e[5])
        && c == 4096 * HexValue(e[2]) + 256 * HexValue(e[3]) + 16 * HexValue(e[4]) + HexValue(e[5]))
  }

  function Flat(ts: seq<Str>): Str {
    if ts == [] then [] else ts[0] + Flat(ts[1..])
  }

  ghost predicate StandFor(es: seq<Str>, s: Str) {
    |es| == |s| && forall i :: 0 <= i < |s| ==> StandsFor(es[i], s[i])
  }

  /** Quotation marks around texts that stand for the units of s. */
  ghost predicate StringText(t: Str, s: Str) {
    exists es :: StandFor(es, s) && t == [34] + Flat(es) + [34]
  }

  lemma EscapeStands(c: Unit, paired: bool)
    ensures StandsFor(EscapeUnit(c, paired), c)
  {
    hide UnicodeEscape;
    UnicodeStands(c);
  }

  lemma FourDigits(c: Unit)
    ensures c == 4096 * (c / 4096) + 256 * (c / 256 % 16) + 16 * (c / 16 % 16) + c % 16
    ensures 0 <= c / 4096 < 16
  {
    assert c / 16 / 16 == c / 256 && c / 256 / 16 == c / 4096;
  }

  lemma HexReads(d: nat)
    requires d < 16
    ensures HexDigit(HexUnit(d)) && HexValue(HexUnit(d)) == d
  {
  }

  lemma UnicodeStands(c: Unit)
    ensures StandsFor(UnicodeEscape(c), c)
  {
    hide HexDigit, HexValue, HexUnit;
    FourDigits(c);
    HexReads(c / 4096);
    HexReads(c / 256 % 16);
    HexReads(c / 16 % 16);
    HexReads(c % 16);
  }

  function Escapes(s: Str): seq<Str> {
    seq(|s|, i requires 0 <= i < |s| => EscapeUnit(s[i], Paired(s, i)))
  }

  lemma {:induction false} FlatEscapes(s: Str, i: nat)
    requires i <= |s|
    ensures Flat(Escapes(s)[i..]) == EscapeFrom(s, i)
    decreases |s| - i
  {
    hide EscapeUnit;
    if i < |s| {
      FlatEscapes(s, i + 1);
      assert Escapes(s)[i..][1..] == Escapes(s)[i + 1..];
    }
  }

  lemma QuotedText(s: Str)
    ensures StringText(Quoted(s), s)
  {
    hide EscapeUnit, StandsFor;
    forall i | 0 <= i < |s| ensures StandsFor(Escapes(s)[i], s[i]) {
      EscapeStands(s[i], Paired(s, i));
    }
    FlatEscapes(s, 0);
    assert Escapes(s)[0..] == Escapes(s);
    assert StandFor(Escapes(s), s);
  }

  /** Every surrogate unit of t has its other half beside it; that of a low one at the front may stand before t. */
  ghost predicate Coupled(t: Str, halfBefore: bool) {
    && (forall k :: HighAt(t, k) ==> LowAt(t, k + 1))
    && (forall k :: LowAt(t, k) ==> HighAt(t, k - 1) || (k == 0 && halfBefore))
  }

  lemma {:induction false} EscapedCoupled(s: Str, i: nat)
    requires i <= |s|
    ensures Coupled(EscapeFrom(s, i), LowAt(s, i) && HighAt(s, i - 1))
    decreases |s| - i
  {
    if i < |s| {
      var e, rest := EscapeUnit(s[i], Paired(s, i)), EscapeFrom(s, i + 1);
      EscapedCoupled(s, i + 1);
      if HighAt(s, i) && LowAt(s, i + 1) {
        assert Paired(s, i + 1) && rest == [s[i + 1]] + EscapeFrom(s, i + 2);
      }
      EscapeSurrogates(s[i], Paired(s, i));
      var t := e + rest;
      forall k | HighAt(t, k) ensures LowAt(t, k + 1) {
        if k >= |e| {
          assert HighAt(rest, k - |e|);
        }
      }
      forall k | LowAt(t, k) ensures HighAt(t, k - 1) || (k == 0 && LowAt(s, i) && HighAt(s, i - 1)) {
        if k >= |e| {
          assert LowAt(rest, k - |e|);
        }
      }
    }
  }

  lemma EscapeSurrogates(c: Unit, paired: bool)
    ensures var e := EscapeUnit(c, paired);
            forall k :: 0 <= k < |e| && 0xd800 <= e[k] < 0xe000 ==> e == [c] && paired
  {
  }

  /** No half of a surrogate pair stands alone in a quoted string, so that it has a UTF-8 form. */
  lemma QuotedCoupled(s: Str)
    ensures Coupled(Quoted(s), false)
  {
    EscapedCoupled(s, 0);
    var t, q := EscapeFrom(s, 0), Quoted(s);
    forall k | HighAt(q, k) ensures LowAt(q, k + 1) {
      assert HighAt(t, k - 1);
    }
    forall k | LowAt(q, k) ensures HighAt(q, k - 1) {
      assert LowAt(t, k - 1);
    }
  }

  // ---------------------------------------------------------------- values

  function Commas(ts: seq<Str>): Str {
    if ts == [] then [] else if |ts| == 1 then ts[0] else ts[0] + [44] + Commas(ts[1..])
  }

  /** Each text is a key in quotation marks, a colon, and a value's text. */
  ghost predicate Pairs(ts: seq<Str>, ks: seq<Str>, names: seq<Str>, values: seq<Str>) {
    && |ts| == |ks| == |names| == |values|
    && forall i :: 0 <= i < |ts| ==> StringText(names[i], ks[i]) && ts[i] == names[i] + [58] + values[i]
  }

  /** a comes before b unit by unit, as `sort` compares strings: they agree up to n, where a ends or has the lesser
      unit. */
  ghost predicate DiffersAt(a: Str, b: Str, n: nat) {
    n <= |a| && n < |b| && a[..n] == b[..n] && (n == |a| || a[n] < b[n])
  }

  ghost predicate Precedes(a: Str, b: Str) {
    exists n: nat :: DiffersAt(a, b, n)
  }

  ghost predicate Ascending(ks: seq<Str>) {
    forall i, j :: 0 <= i < j < |ks| ==> Precedes(ks[i], ks[j])
  }

  lemma {:induction false} BeforePrecedes(a: Str, b: Str)
    requires Before(a, b)
    ensures Precedes(a, b)
  {
    if a != [] && a[0] == b[0] {
      BeforePrecedes(a[1..], b[1..]);
      var n: nat :| DiffersAt(a[1..], b[1..], n);
      assert a[..n + 1] == [a[0]] + a[1..][..n] && b[..n + 1] == [b[0]] + b[1..][..n];
      assert DiffersAt(a, b, n + 1);
    } else {
      assert DiffersAt(a, b, 0);
    }
  }

  ghost predicate SameKeys(ks: seq<Str>, fields: seq<Field>) {
    forall k :: k in ks <==> k in Keys(fields)
  }

  /** Braces around members separated by commas, with all keys of the object in ascending order. */
  ghost predicate Layout(t: Str, fields: seq<Field>, ks: seq<Str>, ts: seq<Str>, names: seq<Str>, values: seq<Str>) {
    SameKeys(ks, fields) && Ascending(ks) && Pairs(ts, ks, names, values) && t == [123] + Commas(ts) + [125]
  }

  /** The text is a JSON text of the value, without white space, the keys of every object ascending. */
  ghost predicate IsJson(t: Str, v: Json)
    decreases v
  {
    match v
    case JNull => t == Bytes.Literal("null")
    case JBool(b) => t == if b then Bytes.Literal("true") else Bytes.Literal("false")
    case JNumber(n) => t == n
    case JString(s) => StringText(t, s)
    case JArray(items) =>
      exists ts: seq<Str> ::
        && |ts| == |items| && t == [91] + Commas(ts) + [93]
        && forall i :: 0 <= i < |items| ==> IsJson(ts[i], items[i])
    case JObject(fields) =>
      exists ks, ts, names, values: seq<Str> ::
        && Layout(t, fields, ks, ts, names, values)
        && forall i :: 0 <= i < |ks| ==> IsJson(values[i], Lookup(fields, ks[i]))
  }

  lemma {:induction false} CommasItems(ts: seq<Str>, items: seq<Json>)
    requires |ts| == |items| && forall i :: 0 <= i < |items| ==> ts[i] == Canonical(items[i])
    ensures Commas(ts) == Items(items)
    decreases |items|
  {
    hide Canonical;
    if |items| > 1 {
      CommasItems(ts[1..], items[1..]);
    }
  }

  lemma {:induction false} CommasMembers(ts: seq<Str>, ks: seq<Str>, fields: seq<Field>)
    requires |ts| == |ks| && forall k :: k in ks ==> k in Keys(fields)
    requires forall i :: 0 <= i < |ks| ==> ts[i] == Quoted(ks[i]) + [COLON] + Canonical(Lookup(fields, ks[i]))
    ensures Commas(ts) == Members(ks, fields)
    decreases |ks|
  {
    hide Canonical, Quoted, Lookup, Keys;
    if |ks| > 1 {
      CommasMembers(ts[1..], ks[1..], fields);
    }
  }

  lemma SortedKeys(fields: seq<Field>)
    requires DistinctKeys(fields)
    ensures SameKeys(Sort(Keys(fields)), fields) && Ascending(Sort(Keys(fields)))
  {
    var ks := Sort(Keys(fields));
    SortSorts(Keys(fields));
    hide Sort;
    forall i, j | 0 <= i < j < |ks| ensures Precedes(ks[i], ks[j]) {
      BeforePrecedes(ks[i], ks[j]);
    }
  }

  lemma MembersText(fields: seq<Field>, ks: seq<Str>) returns (ts: seq<Str>, names: seq<Str>, values: seq<Str>)
    requires forall k :: k in ks ==> k in Keys(fields)
    ensures Pairs(ts, ks, names, values) && Commas(ts) == Members(ks, fields)
    ensures forall i :: 0 <= i < |ks| ==> values[i] == Canonical(Lookup(fields, ks[i]))
  {
    hide Lookup, Quoted, StringText, Canonical, Keys;
    names := seq(|ks|, i requires 0 <= i < |ks| => Quoted(ks[i]));
    values := seq(|ks|, i requires 0 <= i < |ks| => Canonical(Lookup(fields, ks[i])));
    ts := seq(|ks|, i requires 0 <= i < |ks| => names[i] + [COLON] + values[i]);
    forall i | 0 <= i < |ks| ensures StringText(names[i], ks[i]) {
      QuotedText(ks[i]);
    }
    CommasMembers(ts, ks, fields);
  }

  lemma ObjectText(fields: seq<Field>)
    requires DistinctKeys(fields)
    requires forall k :: k in Keys(fields) ==> IsJson(Canonical(Lookup(fields, k)), Lookup(fields, k))
    ensures IsJson(Canonical(JObject(fields)), JObject(fields))
  {
    hide Lookup, Keys, Sort, Ascending, Pairs, Commas, Members;
    var ks := Sort(Keys(fields));
    SortedKeys(fields);
    var ts, names, values := MembersText(fields, ks);
    assert Layout(Canonical(JObject(fields)), fields, ks, ts, names, values);
  }

  /** The canonical text of a value is a JSON text of it, without white space and with ascending keys. */
  lemma {:induction false} CanonicalIsJson(v: Json)
    requires WellFormed(v)
    ensures IsJson(Canonical(v), v)
    decreases v
  {
    match v
    case JString(s) => QuotedText(s);
    case JArray(items) =>
      var ts := seq(|items|, i requires 0 <= i < |items| => Canonical(items[i]));
      forall i | 0 <= i < |items| ensures IsJson(ts[i], items[i]) {
        CanonicalIsJson(items[i]);
      }
      hide IsJson;
      CommasItems(ts, items);
    case JObject(fields) =>
      forall k | k in Keys(fields) ensures IsJson(Canonical(Lookup(fields, k)), Lookup(fields, k)) {
        CanonicalIsJson(Lookup(fields, k));
      }
      ObjectText(fields);
    case _ =>
  }
}
