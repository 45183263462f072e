/** Two JSON values have the same canonical text exactly when they are the same value. One direction
    is independence of the order in which keys were inserted; the other is unique readability. */
module JsonReadability {
  import opened CanonicalJson

  lemma SamePrefix(a: Str, x: Str, b: Str, y: Str)
    requires a + x == b + y && |a| == |b|
    ensures a == b && x == y
  {
    assert (a + x)[..|a|] == a && (b + y)[..|b|] == b;
    assert (a + x)[|a|..] == x && (b + y)[|b|..] == y;
  }

  // ---------------------------------------------------------------- strings

  lemma HexInjective(c: nat, d: nat)
    requires c < 16 && d < 16 && HexUnit(c) == HexUnit(d)
    ensures c == d
  {
  }

  lemma UnicodeInjective(c: Unit, d: Unit)
    requires UnicodeEscape(c) == UnicodeEscape(d)
    ensures c == d
  {
    var a, b := UnicodeEscape(c), UnicodeEscape(d);
    assert a[2] == b[2] && a[3] == b[3] && a[4] == b[4] && a[5] == b[5];
    HexInjective(c / 4096, d / 4096);
    HexInjective(c / 256 % 16, d / 256 % 16);
    HexInjective(c / 16 % 16, d / 16 % 16);
    HexInjective(c % 16, d % 16);
    FourDigits(c);
    FourDigits(d);
  }

  lemma FourDigits(c: Unit)
    ensures c == ((c / 4096 * 16 + c / 256 % 16) * 16 + c / 16 % 16) * 16 + c % 16
  {
    assert c / 16 / 16 == c / 256 && c / 256 / 16 == c / 4096;
  }

  /** No escape begins another, whichever form each takes. */
  lemma UnitReadable(c: Unit, p: bool, x: Str, d: Unit, q: bool, y: Str)
    requires EscapeUnit(c, p) + x == EscapeUnit(d, q) + y
    ensures c == d && x == y
  {
    var a, b := EscapeUnit(c, p), EscapeUnit(d, q);
    assert a[0] == (a + x)[0] && b[0] == (b + y)[0];
    if |a| > 1 {
      assert a[1] == (a + x)[1];
    }
    if |b| > 1 {
      assert b[1] == (b + y)[1];
    }
    SamePrefix(a, x, b, y);
    if |a| == 6 {
      UnicodeInjective(c, d);
    }
  }

  lemma EscapeFirst(c: Unit, p: bool)
    ensures EscapeUnit(c, p) != [] && EscapeUnit(c, p)[0] != QUOTE
  {
  }

  lemma {:induction false} EscapeReadable(s: Str, i: nat, x: Str, t: Str, j: nat, y: Str)
    requires i <= |s| && j <= |t|
    requires EscapeFrom(s, i) + [QUOTE] + x == EscapeFrom(t, j) + [QUOTE] + y
    ensures s[i..] == t[j..] && x == y
    decreases |s| - i
  {
    hide EscapeUnit, Paired;
    var a, b := EscapeFrom(s, i) + [QUOTE] + x, EscapeFrom(t, j) + [QUOTE] + y;
    if i < |s| {
      EscapeFirst(s[i], Paired(s, i));
      assert a == EscapeUnit(s[i], Paired(s, i)) + (EscapeFrom(s, i + 1) + [QUOTE] + x);
    }
    if j < |t| {
      EscapeFirst(t[j], Paired(t, j));
      assert b == EscapeUnit(t[j], Paired(t, j)) + (EscapeFrom(t, j + 1) + [QUOTE] + y);
    }
    assert i == |s| <==> a[0] == QUOTE;
    assert j == |t| <==> b[0] == QUOTE;
    if i < |s| {
      UnitReadable(s[i], Paired(s, i), EscapeFrom(s, i + 1) + [QUOTE] + x,
                   t[j], Paired(t, j), EscapeFrom(t, j + 1) + [QUOTE] + y);
      EscapeReadable(s, i + 1, x, t, j + 1, y);
      assert s[i..] == [s[i]] + s[i + 1..] && t[j..] == [t[j]] + t[j + 1..];
    } else {
      assert a == [QUOTE] + x && b == [QUOTE] + y;
      SamePrefix([QUOTE], x, [QUOTE], y);
    }
  }

  lemma QuotedReadable(s: Str, x: Str, t: Str, y: Str)
    requires Quoted(s) + x == Quoted(t) + y
    ensures s == t && x == y
  {
    hide EscapeFrom;
    assert Quoted(s) + x == [QUOTE] + (EscapeFrom(s, 0) + [QUOTE] + x);
    assert Quoted(t) + y == [QUOTE] + (EscapeFrom(t, 0) + [QUOTE] + y);
    SamePrefix([QUOTE], EscapeFrom(s, 0) + [QUOTE] + x, [QUOTE], EscapeFrom(t, 0) + [QUOTE] + y);
    EscapeReadable(s, 0, x, t, 0, y);
    assert s[0..] == s && t[0..] == t;
  }

  // ---------------------------------------------------------------- values

  /** What follows a value in a text never continues a number. */
  predicate Delimits(x: Str) {
    x == [] || !NumberUnit(x[0])
  }

  lemma {:induction false} NumberReadable(s: Str, x: Str, t: Str, y: Str)
    requires (forall i :: 0 <= i < |s| ==> NumberUnit(s[i])) && (forall i :: 0 <= i < |t| ==> NumberUnit(t[i]))
    requires Delimits(x) && Delimits(y) && s + x == t + y
    ensures s == t && x == y
  {
    var a, b := s + x, t + y;
    assert |s| < |a| ==> a[|s|] == x[0];
    assert |t| < |b| ==> b[|t|] == y[0];
    assert forall k :: 0 <= k < |s| ==> NumberUnit(a[k]);
    assert forall k :: 0 <= k < |t| ==> NumberUnit(b[k]);
    SamePrefix(s, x, t, y);
  }

  /** The kind of value that a text starting with this unit spells. */
  function Kind(c: Unit): nat {
    if c == 110 then 0 else if c == 116 then 1 else if c == 102 then 2
    else if c == QUOTE then 3 else if c == OPEN_LIST then 4 else if c == OPEN_OBJECT then 5
    else if NumberUnit(c) then 6 else 7
  }

  function KindOf(v: Json): nat {
    match v
    case JNull => 0
    case JBool(b) => if b then 1 else 2
    case JString(_) => 3
    case JArray(_) => 4
    case JObject(_) => 5
    case JNumber(_) => 6
  }

  lemma FirstUnit(v: Json)
    requires WellFormed(v)
    ensures Canonical(v) != [] && Kind(Canonical(v)[0]) == KindOf(v)
  {
  }

  /** Unique readability: a text that starts with the canonical text of a value, properly delimited,
      determines the value and the rest. */
  lemma {:induction false} Readable(v: Json, x: Str, w: Json, y: Str)
    requires WellFormed(v) && WellFormed(w) && Delimits(x) && Delimits(y)
    requires Canonical(v) + x == Canonical(w) + y
    ensures Same(v, w) && x == y
    decreases v, 0
  {
    FirstUnit(v);
    FirstUnit(w);
    var a, b := Canonical(v), Canonical(w);
    assert a[0] == (a + x)[0] && b[0] == (b + y)[0];
    match v
    case JNull => SamePrefix(a, x, b, y);
    case JBool(_) => SamePrefix(a, x, b, y);
    case JNumber(s) => NumberReadable(s, x, w.text, y);
    case JString(s) => QuotedReadable(s, x, w.s, y);
    case JArray(items) =>
      var c, d := Items(items) + [CLOSE_LIST] + x, Items(w.items) + [CLOSE_LIST] + y;
      assert a + x == [OPEN_LIST] + c && b + y == [OPEN_LIST] + d;
      SamePrefix([OPEN_LIST], c, [OPEN_LIST], d);
      ItemsReadable(items, x, w.items, y);
    case JObject(fields) =>
      ObjectReadable(fields, x, w.fields, y);
  }

  lemma ObjectReadable(f: seq<Field>, x: Str, g: seq<Field>, y: Str)
    requires WellFormed(JObject(f)) && WellFormed(JObject(g))
    requires Canonical(JObject(f)) + x == Canonical(JObject(g)) + y
    ensures Same(JObject(f), JObject(g)) && x == y
    decreases f, |f| + 1
  {
    hide Members, Sort;
    var ks, ls := Sort(Keys(f)), Sort(Keys(g));
    var c, d := Members(ks, f) + [CLOSE_OBJECT] + x, Members(ls, g) + [CLOSE_OBJECT] + y;
    assert Canonical(JObject(f)) + x == [OPEN_OBJECT] + c && Canonical(JObject(g)) + y == [OPEN_OBJECT] + d;
    SamePrefix([OPEN_OBJECT], c, [OPEN_OBJECT], d);
    SortLength(Keys(f));
    MembersReadable(ks, f, x, ls, g, y);
  }

  lemma {:induction false} SortLength(keys: seq<Str>)
    ensures |Sort(keys)| == |keys|
  {
    if keys != [] {
      SortLength(keys[1..]);
      InsertLength(keys[0], Sort(keys[1..]));
    }
  }

  lemma {:induction false} InsertLength(k: Str, keys: seq<Str>)
    ensures |Insert(k, keys)| == |keys| + 1
  {
    if keys != [] && Before(keys[0], k) {
      InsertLength(k, keys[1..]);
    }
  }

  /** What follows the first item of a list: its end, or a comma and the other items. */
  function AfterFirst(items: seq<Json>, x: Str): Str
    requires items != []
  {
    if |items| == 1 then [CLOSE_LIST] + x else [COMMA] + (Items(items[1..]) + [CLOSE_LIST] + x)
  }

  lemma ItemsSplit(items: seq<Json>, x: Str)
    requires items != []
    ensures Items(items) + [CLOSE_LIST] + x == Canonical(items[0]) + AfterFirst(items, x)
  {
    if |items| > 1 {
      assert Canonical(items[0]) + [COMMA] + Items(items[1..]) + [CLOSE_LIST] + x
          == Canonical(items[0]) + ([COMMA] + (Items(items[1..]) + [CLOSE_LIST] + x));
    } else {
      assert Canonical(items[0]) + [CLOSE_LIST] + x == Canonical(items[0]) + ([CLOSE_LIST] + x);
    }
  }

  lemma {:induction false} ItemsReadable(s: seq<Json>, x: Str, t: seq<Json>, y: Str)
    requires WellFormed(JArray(s)) && WellFormed(JArray(t))
    requires Items(s) + [CLOSE_LIST] + x == Items(t) + [CLOSE_LIST] + y
    ensures Same(JArray(s), JArray(t)) && x == y
    decreases s, |s|
  {
    hide Canonical;
    var a, b := Items(s) + [CLOSE_LIST] + x, Items(t) + [CLOSE_LIST] + y;
    if s != [] {
      ItemsSplit(s, x);
      FirstUnit(s[0]);
    }
    if t != [] {
      ItemsSplit(t, y);
      FirstUnit(t[0]);
    }
    assert s == [] <==> Kind(a[0]) == 7;
    assert t == [] <==> Kind(b[0]) == 7;
    if s == [] {
      assert a == [CLOSE_LIST] + x && b == [CLOSE_LIST] + y;
      SamePrefix([CLOSE_LIST], x, [CLOSE_LIST], y);
    } else {
      var c, d := AfterFirst(s, x), AfterFirst(t, y);
      Readable(s[0], c, t[0], d);
      assert |s| == 1 <==> c[0] == CLOSE_LIST;
      assert |t| == 1 <==> d[0] == CLOSE_LIST;
      if |s| == 1 {
        SamePrefix([CLOSE_LIST], x, [CLOSE_LIST], y);
      } else {
        SamePrefix([COMMA], Items(s[1..]) + [CLOSE_LIST] + x, [COMMA], Items(t[1..]) + [CLOSE_LIST] + y);
        ItemsReadable(s[1..], x, t[1..], y);
        assert forall i :: 0 < i < |s| ==> s[i] == s[1..][i - 1] && t[i] == t[1..][i - 1];
      }
    }
  }

  function Value(fields: seq<Field>, keys: seq<Str>): Str
    requires keys != [] && forall k :: k in keys ==> k in Keys(fields)
  {
    Canonical(Lookup(fields, keys[0]))
  }

  function AfterMember(keys: seq<Str>, fields: seq<Field>, x: Str): Str
    requires keys != [] && forall k :: k in keys ==> k in Keys(fields)
  {
    if |keys| == 1 then [CLOSE_OBJECT] + x else [COMMA] + (Members(keys[1..], fields) + [CLOSE_OBJECT] + x)
  }

  lemma MembersSplit(keys: seq<Str>, fields: seq<Field>, x: Str)
    requires keys != [] && forall k :: k in keys ==> k in Keys(fields)
    ensures Members(keys, fields) + [CLOSE_OBJECT] + x
         == Quoted(keys[0]) + ([COLON] + (Value(fields, keys) + AfterMember(keys, fields, x)))
  {
    hide Quoted, Canonical, Lookup, Keys;
    var q, v := Quoted(keys[0]), Value(fields, keys);
    if |keys| == 1 {
      Regroup(q, v, [CLOSE_OBJECT], x);
    } else {
      var m := Members(keys[1..], fields);
      var rest := m + [CLOSE_OBJECT] + x;
      Regroup(q, v, [COMMA], rest);
      assert q + [COLON] + v + [COMMA] + m + [CLOSE_OBJECT] + x == q + [COLON] + v + [COMMA] + rest;
    }
  }

  lemma Regroup(q: Str, v: Str, c: Str, x: Str)
    ensures q + [COLON] + v + c + x == q + ([COLON] + (v + (c + x)))
  {
  }

  /** Both texts have a first member or neither; and then they agree on its key and go on with its value. */
  lemma FirstMember(ks: seq<Str>, f: seq<Field>, x: Str, ls: seq<Str>, g: seq<Field>, y: Str)
    requires (forall k :: k in ks ==> k in Keys(f)) && (forall k :: k in ls ==> k in Keys(g))
    requires Members(ks, f) + [CLOSE_OBJECT] + x == Members(ls, g) + [CLOSE_OBJECT] + y
    ensures ks == [] <==> ls == []
    ensures ks == [] ==> x == y
    ensures ks != [] ==> ks[0] == ls[0]
                         && Value(f, ks) + AfterMember(ks, f, x) == Value(g, ls) + AfterMember(ls, g, y)
  {
    hide EscapeFrom, Lookup, Canonical, AfterMember, Value, Keys;
    var a, b := Members(ks, f) + [CLOSE_OBJECT] + x, Members(ls, g) + [CLOSE_OBJECT] + y;
    if ks != [] {
      MembersSplit(ks, f, x);
    }
    if ls != [] {
      MembersSplit(ls, g, y);
    }
    assert ks == [] <==> a[0] == CLOSE_OBJECT;
    assert ls == [] <==> b[0] == CLOSE_OBJECT;
    if ks == [] {
      assert a == [CLOSE_OBJECT] + x && b == [CLOSE_OBJECT] + y;
      SamePrefix([CLOSE_OBJECT], x, [CLOSE_OBJECT], y);
    } else {
      var v, w := Value(f, ks) + AfterMember(ks, f, x), Value(g, ls) + AfterMember(ls, g, y);
      QuotedReadable(ks[0], [COLON] + v, ls[0], [COLON] + w);
      SamePrefix([COLON], v, [COLON], w);
    }
  }

  lemma AfterDelimits(keys: seq<Str>, fields: seq<Field>, x: Str)
    requires keys != [] && forall k :: k in keys ==> k in Keys(fields)
    ensures Delimits(AfterMember(keys, fields, x))
  {
  }

  /** What follows the first members agrees: both end there, or both go on with the remaining members. */
  lemma SameAfter(ks: seq<Str>, f: seq<Field>, x: Str, ls: seq<Str>, g: seq<Field>, y: Str)
    requires ks != [] && ls != []
    requires (forall k :: k in ks ==> k in Keys(f)) && (forall k :: k in ls ==> k in Keys(g))
    requires AfterMember(ks, f, x) == AfterMember(ls, g, y)
    ensures |ks| == 1 <==> |ls| == 1
    ensures |ks| == 1 ==> x == y
    ensures |ks| > 1 ==> Members(ks[1..], f) + [CLOSE_OBJECT] + x == Members(ls[1..], g) + [CLOSE_OBJECT] + y
  {
    hide Keys, Members;
    var c, d := AfterMember(ks, f, x), AfterMember(ls, g, y);
    assert |ks| == 1 <==> c[0] == CLOSE_OBJECT;
    assert |ls| == 1 <==> d[0] == CLOSE_OBJECT;
    if |ks| == 1 {
      SamePrefix([CLOSE_OBJECT], x, [CLOSE_OBJECT], y);
    } else {
      SamePrefix([COMMA], Members(ks[1..], f) + [CLOSE_OBJECT] + x,
                 [COMMA], Members(ls[1..], g) + [CLOSE_OBJECT] + y);
    }
  }

  lemma {:induction false} MembersReadable(ks: seq<Str>, f: seq<Field>, x: Str, ls: seq<Str>, g: seq<Field>, y: Str)
    requires (forall k :: k in ks ==> k in Keys(f)) && (forall k :: k in ls ==> k in Keys(g))
    requires WellFormed(JObject(f)) && WellFormed(JObject(g))
    requires Members(ks, f) + [CLOSE_OBJECT] + x == Members(ls, g) + [CLOSE_OBJECT] + y
    ensures ks == ls && x == y
    ensures forall k :: k in ks ==> Same(Lookup(f, k), Lookup(g, k))
    decreases f, |ks|
  {
    hide EscapeFrom, Lookup, Canonical, Quoted, Members, AfterMember;
    FirstMember(ks, f, x, ls, g, y);
    if ks != [] {
      var c, d := AfterMember(ks, f, x), AfterMember(ls, g, y);
      AfterDelimits(ks, f, x);
      AfterDelimits(ls, g, y);
      Readable(Lookup(f, ks[0]), c, Lookup(g, ls[0]), d);
      SameAfter(ks, f, x, ls, g, y);
      if |ks| > 1 {
        MembersReadable(ks[1..], f, x, ls[1..], g, y);
      }
      assert ks == [ks[0]] + ks[1..] && ls == [ls[0]] + ls[1..];
    }
  }

  /** Equal canonical texts come from the same value. */
  lemma CanonicalInjective(v: Json, w: Json)
    requires WellFormed(v) && WellFormed(w) && Canonical(v) == Canonical(w)
    ensures Same(v, w)
  {
    Readable(v, [], w, []);
  }

  // ---------------------------------------------------------------- insertion order does not matter

  lemma {:induction false} BeforeTransitive(a: Str, b: Str, c: Str)
    requires Before(a, b) && Before(b, c)
    ensures Before(a, c)
    decreases |a|
  {
    if a != [] && a[0] == b[0] == c[0] {
      BeforeTransitive(a[1..], b[1..], c[1..]);
    }
  }

  lemma {:induction false} BeforeTotal(a: Str, b: Str)
    ensures Before(a, b) || a == b || Before(b, a)
    ensures !(Before(a, b) && Before(b, a)) && !Before(a, a)
    decreases |a|
  {
    if a != [] {
      BeforeTotal(a[1..], a[1..]);
      if b != [] && a[0] == b[0] {
        BeforeTotal(a[1..], b[1..]);
        assert a == [a[0]] + a[1..] && b == [b[0]] + b[1..];
      }
    }
  }

  ghost predicate Sorted(keys: seq<Str>) {
    forall i, j :: 0 <= i < j < |keys| ==> Before(keys[i], keys[j])
  }

  lemma {:induction false} InsertSorted(k: Str, keys: seq<Str>)
    requires Sorted(keys) && k !in keys
    ensures Sorted(Insert(k, keys))
  {
    InsertKeeps(k, keys);
    if keys != [] {
      BeforeTotal(k, keys[0]);
      if Before(keys[0], k) {
        InsertSorted(k, keys[1..]);
        InsertKeeps(k, keys[1..]);
        var rest := Insert(k, keys[1..]);
        forall j | 0 <= j < |rest| ensures Before(keys[0], rest[j]) {
          assert rest[j] in rest;
        }
      } else {
        forall j | 0 <= j < |keys| ensures Before(k, keys[j]) {
          if j > 0 {
            BeforeTransitive(k, keys[0], keys[j]);
          }
        }
      }
    }
  }

  lemma {:induction false} SortSorts(keys: seq<Str>)
    requires forall i, j :: 0 <= i < j < |keys| ==> keys[i] != keys[j]
    ensures Sorted(Sort(keys))
  {
    if keys != [] {
      SortSorts(keys[1..]);
      InsertSorted(keys[0], Sort(keys[1..]));
    }
  }

  lemma HeadLeast(a: seq<Str>)
    requires Sorted(a) && a != []
    ensures a[0] in a && a[0] !in a[1..] && a == [a[0]] + a[1..]
  {
    BeforeTotal(a[0], a[0]);
  }

  /** Sorted sequences with the same elements are equal. */
  lemma {:induction false} SortedUnique(a: seq<Str>, b: seq<Str>)
    requires Sorted(a) && Sorted(b) && forall k :: k in a <==> k in b
    ensures a == b
  {
    if a == [] {
      if b != [] {
        HeadLeast(b);
      }
    } else {
      HeadLeast(a);
      HeadLeast(b);
      BeforeTotal(a[0], b[0]);
      assert a[0] == b[0];
      forall k ensures k in a[1..] <==> k in b[1..] {
        assert k in a <==> k == a[0] || k in a[1..];
        assert k in b <==> k == b[0] || k in b[1..];
      }
      SortedUnique(a[1..], b[1..]);
    }
  }

  /** The same value has one canonical text, whatever the order in which its keys were inserted. */
  lemma {:induction false} CanonicalDeterminate(v: Json, w: Json)
    requires WellFormed(v) && WellFormed(w) && Same(v, w)
    ensures Canonical(v) == Canonical(w)
    decreases v, 0
  {
    match v
    case JArray(s) => ItemsDeterminate(s, w.items);
    case JObject(f) =>
      var g := w.fields;
      SortSorts(Keys(f));
      SortSorts(Keys(g));
      SortedUnique(Sort(Keys(f)), Sort(Keys(g)));
      MembersDeterminate(Sort(Keys(f)), f, g);
    case _ =>
  }

  lemma {:induction false} ItemsDeterminate(s: seq<Json>, t: seq<Json>)
    requires WellFormed(JArray(s)) && WellFormed(JArray(t)) && Same(JArray(s), JArray(t))
    ensures Items(s) == Items(t)
    decreases s, |s|
  {
    if s != [] {
      CanonicalDeterminate(s[0], t[0]);
      ItemsDeterminate(s[1..], t[1..]);
    }
  }

  lemma {:induction false} MembersDeterminate(keys: seq<Str>, f: seq<Field>, g: seq<Field>)
    requires WellFormed(JObject(f)) && WellFormed(JObject(g))
    requires forall k :: k in keys ==> k in Keys(f) && k in Keys(g) && Same(Lookup(f, k), Lookup(g, k))
    ensures Members(keys, f) == Members(keys, g)
    decreases f, |keys|
  {
    if keys != [] {
      CanonicalDeterminate(Lookup(f, keys[0]), Lookup(g, keys[0]));
      MembersDeterminate(keys[1..], f, g);
    }
  }

  /** Canonical texts are equal exactly for the same value. */
  lemma CanonicalIffSame(v: Json, w: Json)
    requires WellFormed(v) && WellFormed(w)
    ensures Canonical(v) == Canonical(w) <==> Same(v, w)
  {
    if Canonical(v) == Canonical(w) {
      CanonicalInjective(v, w);
    }
    if Same(v, w) {
      CanonicalDeterminate(v, w);
    }
  }
}
