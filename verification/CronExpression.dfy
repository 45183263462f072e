/** Five-field cron expressions: how a field's text is parsed into a set of values, and that this is what the
    documented grammar means. Text is ASCII. */
module CronExpression {
  import opened Wrappers
  import opened Bytes
  import CronNextFire

  datatype Field = Minutes | Hours | Doms | Months | Dows

  datatype CronError = Empty | UnknownShortcut | FieldCount | BadStep | BadValue | OutOfBounds

  const STAR: byte := 42
  const PLUS: byte := 43
  const COMMA: byte := 44
  const DASH: byte := 45
  const SLASH: byte := 47
  const SPACE: byte := 32
  const AT_SIGN: byte := 64

  const MONTH_NAMES: seq<Text> := [
    Literal("JAN"), Literal("FEB"), Literal("MAR"), Literal("APR"), Literal("MAY"), Literal("JUN"),
    Literal("JUL"), Literal("AUG"), Literal("SEP"), Literal("OCT"), Literal("NOV"), Literal("DEC")]

  const DAY_NAMES: seq<Text> := [
    Literal("SUN"), Literal("MON"), Literal("TUE"), Literal("WED"), Literal("THU"), Literal("FRI"), Literal("SAT")]

  function Min(f: Field): nat {
    match f
    case Doms => 1
    case Months => 1
    case _ => 0
  }

  function Max(f: Field): nat {
    match f
    case Minutes => 59
    case Hours => 23
    case Doms => 31
    case Months => 12
    case Dows => 6
  }

  /** Weekdays may be written 0 to 7. */
  function ParseMax(f: Field): nat {
    if f == Dows then 7 else Max(f)
  }

  function Remap(f: Field, v: nat): nat {
    if f == Dows && v == 7 then 0 else v
  }

  function Names(f: Field): seq<Text> {
    match f
    case Months => MONTH_NAMES
    case Dows => DAY_NAMES
    case _ => []
  }

  // ---------------------------------------------------------------- tokens

  function IndexOf<T(==)>(s: seq<T>, c: T): (i: nat)
    ensures i <= |s| && c !in s[..i] && (i < |s| ==> s[i] == c)
  {
    if s == [] || s[0] == c then 0 else 1 + IndexOf(s[1..], c)
  }

  function LeadingDigits(t: Text): (d: Text)
    ensures IsDigits(d)
  {
    if t != [] && 48 <= t[0] <= 57 then [t[0]] + LeadingDigits(t[1..]) else []
  }

  /** `Number.parseInt(t, 10)` on a text without white space: a sign, digits, and anything after them. */
  function ParseInt(t: Text): Option<int> {
    var signed := t != [] && (t[0] == DASH || t[0] == PLUS);
    var d := LeadingDigits(if signed then t[1..] else t);
    if d == [] then None
    else
      var n: int := DigitsValue(d);
      Some(if signed && t[0] == DASH then -n else n)
  }

  /** An alias in any case, or a number in its shortest form. Tokens never hold a dash. */
  function ResolveValue(token: Text, f: Field): Result<nat, CronError> {
    var i := IndexOf(Names(f), Upper(token));
    if i < |Names(f)| then Success(Min(f) + i)
    else
      var n := ParseInt(token);
      if n.None? || n.value < 0 || Decimal(n.value) != token then Failure(BadValue)
      else Success(n.value)
  }

  // ---------------------------------------------------------------- one part of a field

  datatype Range = Range(start: nat, end: nat, step: nat)

  /** The first and last value that the text before the slash gives. */
  function Ends(body: Text, slashed: bool, f: Field): Result<(nat, nat), CronError> {
    if body == [STAR] || body == [] then Success((Min(f), ParseMax(f)))
    else
      var ends := SplitOn(body, DASH);
      var start :- ResolveValue(ends[0], f);
      var end :- if |ends| > 1 then ResolveValue(ends[1], f) else Success(if slashed then ParseMax(f) else start);
      Success((start, end))
  }

  /** The range with these ends and this step, once both have been checked; a bad step is reported first. */
  function RangeIs(ends: Result<(nat, nat), CronError>, step: Option<int>, f: Field): (r: Result<Range, CronError>)
    ensures r.Success? ==> Min(f) <= r.value.start <= r.value.end <= ParseMax(f) && r.value.step > 0
  {
    if step.None? || step.value <= 0 then Failure(BadStep)
    else if ends.Failure? then Failure(ends.error)
    else if ends.value.0 < Min(f) || ends.value.1 > ParseMax(f) || ends.value.0 > ends.value.1 then Failure(OutOfBounds)
    else Success(Range(ends.value.0, ends.value.1, step.value))
  }

  /** The range a part denotes. */
  function RangeOf(part: Text, f: Field): (r: Result<Range, CronError>)
    ensures r.Success? ==> Min(f) <= r.value.start <= r.value.end <= ParseMax(f) && r.value.step > 0
  {
    var slash := IndexOf(part, SLASH);
    var step := if slash < |part| then ParseInt(part[slash + 1..]) else Some(1);
    RangeIs(Ends(part[..slash], slash < |part|, f), step, f)
  }

  function StepOf(part: Text, k: nat): Option<int>
    requires k <= |part|
  {
    if k < |part| then ParseInt(part[k + 1..]) else Some(1)
  }

  lemma RangeByStep(part: Text, f: Field, k: nat)
    requires k <= |part| && IndexOf(part, SLASH) == k
    ensures RangeOf(part, f) == RangeIs(Ends(part[..k], k < |part|, f), StepOf(part, k), f)
  {
    hide Ends, ParseInt, RangeIs;
  }

  /** The values of a range from v on, in steps. */
  function ValuesFrom(v: nat, end: nat, step: nat, f: Field): set<nat>
    requires step > 0
    decreases end + 1 - v
  {
    if v > end then {} else {Remap(f, v)} + ValuesFrom(v + step, end, step, f)
  }

  function Values(r: Range, f: Field): set<nat>
    requires r.step > 0
  {
    ValuesFrom(r.start, r.end, r.step, f)
  }

  method AddSteps(g: Range, f: Field, collected: set<nat>) returns (out: set<nat>)
    requires Min(f) <= g.start && g.end <= ParseMax(f) && g.step > 0
    ensures out == collected + Values(g, f)
  {
    out := collected;
    var v := g.start;
    while v <= g.end
      invariant v >= g.start
      invariant out + ValuesFrom(v, g.end, g.step, f) == collected + Values(g, f)
      decreases g.end + 1 - v
    {
      var remapped := Remap(f, v);
      assert Min(f) <= remapped <= Max(f);
      out := out + {remapped};
      v := v + g.step;
    }
    assert out + {} == out;
  }

  /** The first and last value of what comes before the slash. */
  method PartEnds(body: Text, slashed: bool, f: Field) returns (r: Result<(nat, nat), CronError>)
    ensures r == Ends(body, slashed, f)
  {
    hide ResolveValue, SplitOn, Min, ParseMax;
    SplitCount(body, DASH);
    if body == [STAR] || body == [] {
      return Success((Min(f), ParseMax(f)));
    }
    if DASH in body {
      var ends := SplitOn(body, DASH);
      var start :- ResolveValue(ends[0], f);
      var end :- ResolveValue(ends[1], f);
      return Success((start, end));
    }
    var value :- ResolveValue(body, f);
    r := Success((value, if slashed then ParseMax(f) else value));
  }

  /** Adds the values of a part to the set collected so far. */
  method ExpandPart(part: Text, f: Field, collected: set<nat>) returns (r: Result<set<nat>, CronError>)
    ensures var g := RangeOf(part, f);
            r == if g.Failure? then Failure(g.error) else Success(collected + Values(g.value, f))
  {
    hide Ends, ParseInt, Values, Min, ParseMax, RangeOf;
    var body := part;
    var step := 1;
    var slash := IndexOf(part, SLASH);
    RangeByStep(part, f, slash);
    assert slash == |part| ==> part[..slash] == part;
    if slash < |part| {
      body := part[..slash];
      var parsed := ParseInt(part[slash + 1..]);
      if parsed.None? || parsed.value <= 0 { return Failure(BadStep); }
      step := parsed.value;
    }
    var ends :- PartEnds(body, slash < |part|, f);
    var (start, end) := ends;
    if start < Min(f) || end > ParseMax(f) || start > end { return Failure(OutOfBounds); }
    var out := AddSteps(Range(start, end, step), f, collected);
    r := Success(out);
  }

  lemma {:induction false} SplitCount(s: Text, sep: byte)
    ensures |SplitOn(s, sep)| > 1 <==> sep in s
    ensures sep !in s ==> SplitOn(s, sep) == [s]
  {
    if s != [] && s[0] != sep {
      SplitCount(s[1..], sep);
      assert s == [s[0]] + s[1..];
    }
  }

  // ---------------------------------------------------------------- a field

  /** The union of the first n parts, or the error of the first that has one. */
  function Union(parts: seq<Text>, n: nat, f: Field): Result<set<nat>, CronError>
    requires n <= |parts|
  {
    if n == 0 then Success({})
    else
      var before :- Union(parts, n - 1, f);
      var r :- RangeOf(parts[n - 1], f);
      Success(before + Values(r, f))
  }

  function FieldOf(raw: Text, f: Field): Result<set<nat>, CronError> {
    var parts := SplitOn(raw, COMMA);
    Union(parts, |parts|, f)
  }

  method ParseField(raw: Text, f: Field) returns (r: Result<set<nat>, CronError>)
    ensures r == FieldOf(raw, f)
  {
    hide RangeOf, Values, SplitOn;
    var parts := SplitOn(raw, COMMA);
    var result: set<nat> := {};
    for i := 0 to |parts|
      invariant Union(parts, i, f) == Success(result)
    {
      var expanded := ExpandPart(parts[i], f, result);
      if expanded.Failure? {
        FirstError(parts, i + 1, f);
        return Failure(expanded.error);
      }
      result := expanded.value;
    }
    r := Success(result);
  }

  lemma {:induction false} FirstError(parts: seq<Text>, n: nat, f: Field)
    requires n <= |parts| && Union(parts, n, f).Failure?
    ensures Union(parts, |parts|, f) == Union(parts, n, f)
    decreases |parts| - n
  {
    hide RangeOf, Values;
    if n < |parts| {
      FirstError(parts, n + 1, f);
    }
  }

  // ---------------------------------------------------------------- what a field means

  /** w is one of the values a range steps through. */
  ghost predicate Steps(r: Range, w: nat) {
    r.start <= w <= r.end && exists k: nat :: w == r.start + k * r.step
  }

  /** A range steps through its start, and through what the range a step later does. */
  lemma StepsOn(v: nat, end: nat, step: nat, w: nat)
    requires step > 0 && v <= end
    ensures Steps(Range(v, end, step), w) <==> w == v || Steps(Range(v + step, end, step), w)
  {
    var here, next := Range(v, end, step), Range(v + step, end, step);
    assert v == v + 0 * step;
    if Steps(next, w) {
      var k: nat :| w == v + step + k * step;
      Regrouped(k, step);
      assert w == v + (k + 1) * step;
    }
    if Steps(here, w) && w != v {
      var k: nat :| w == v + k * step;
      assert k > 0;
      Regrouped(k - 1, step);
      assert w == v + step + (k - 1) * step;
    }
  }

  lemma Regrouped(k: nat, step: nat)
    ensures (k + 1) * step == k * step + step && k * step >= 0
  {
  }

  lemma {:induction false} ValuesMeaning(v: nat, end: nat, step: nat, f: Field, x: nat)
    requires step > 0
    ensures x in ValuesFrom(v, end, step, f) <==> exists w :: Steps(Range(v, end, step), w) && Remap(f, w) == x
    decreases end + 1 - v
  {
    if v <= end {
      ValuesMeaning(v + step, end, step, f, x);
      hide Remap;
      forall w: nat ensures Steps(Range(v, end, step), w) <==> w == v || Steps(Range(v + step, end, step), w) {
        StepsOn(v, end, step, w);
      }
    }
  }

  /** The i-th part of the field steps through a value that counts as x. */
  ghost predicate PartGives(parts: seq<Text>, i: nat, f: Field, x: nat)
    requires i < |parts|
  {
    RangeOf(parts[i], f).Success? && exists w :: Steps(RangeOf(parts[i], f).value, w) && Remap(f, w) == x
  }

  lemma {:induction false} UnionMeaning(parts: seq<Text>, n: nat, f: Field)
    requires n <= |parts|
    ensures Union(parts, n, f).Success? <==> forall i :: 0 <= i < n ==> RangeOf(parts[i], f).Success?
    ensures var r := Union(parts, n, f);
            r.Success? ==> forall x: nat :: x in r.value <==> exists i :: 0 <= i < n && PartGives(parts, i, f, x)
  {
    hide RangeOf, ValuesFrom, Remap;
    if n > 0 {
      UnionMeaning(parts, n - 1, f);
      var r := Union(parts, n, f);
      if r.Success? {
        var g := RangeOf(parts[n - 1], f).value;
        forall x: nat ensures x in r.value <==> exists i :: 0 <= i < n && PartGives(parts, i, f, x) {
          ValuesMeaning(g.start, g.end, g.step, f, x);
          assert x in Values(g, f) <==> PartGives(parts, n - 1, f, x);
        }
      }
    }
  }

  /** A field is accepted exactly when each of its comma-separated parts is; it then holds the values they step
      through, weekday 7 counted as 0; the set is never empty and never leaves the field's bounds. */
  lemma FieldMeaning(raw: Text, f: Field)
    ensures var parts, r := SplitOn(raw, COMMA), FieldOf(raw, f);
            && (r.Success? <==> forall part :: part in parts ==> RangeOf(part, f).Success?)
            && (r.Success? ==>
                  && (forall x: nat :: x in r.value <==> exists i :: 0 <= i < |parts| && PartGives(parts, i, f, x))
                  && r.value != {}
                  && forall x :: x in r.value ==> Min(f) <= x <= Max(f))
  {
    hide RangeOf;
    var parts, r := SplitOn(raw, COMMA), FieldOf(raw, f);
    UnionMeaning(parts, |parts|, f);
    hide SplitOn;
    if r.Success? {
      FirstStep(parts[0], f);
      assert PartGives(parts, 0, f, Remap(f, RangeOf(parts[0], f).value.start));
      forall x | x in r.value ensures Min(f) <= x <= Max(f) {
        var i :| 0 <= i < |parts| && PartGives(parts, i, f, x);
      }
    }
  }

  lemma FirstStep(part: Text, f: Field)
    requires RangeOf(part, f).Success?
    ensures Steps(RangeOf(part, f).value, RangeOf(part, f).value.start)
  {
    var g := RangeOf(part, f).value;
    assert g.start == g.start + 0 * g.step;
  }

  // ---------------------------------------------------------------- the documented grammar

  datatype Token = Number(n: nat) | Name(text: Text)

  datatype Item = Any | Single(t: Token) | Span(from: Token, to: Token)

  /** An item, with or without `/step`. */
  datatype Part = Part(item: Item, step: Option<nat>)

  function TokenText(t: Token): Text {
    match t
    case Number(n) => Decimal(n)
    case Name(text) => text
  }

  function TokenValue(t: Token, f: Field): nat {
    match t
    case Number(n) => n
    case Name(text) => Min(f) + IndexOf(Names(f), Upper(text))
  }

  function ItemText(item: Item): Text {
    match item
    case Any => [STAR]
    case Single(t) => TokenText(t)
    case Span(a, b) => TokenText(a) + [DASH] + TokenText(b)
  }

  function PartText(p: Part): Text {
    if p.step.None? then ItemText(p.item) else ItemText(p.item) + [SLASH] + Decimal(p.step.value)
  }

  /** The range a part stands for. A lone value with a step, of which the documentation does not speak, runs to the
      field's end. */
  function PartRange(p: Part, f: Field): Range {
    var step := if p.step.None? then 1 else p.step.value;
    match p.item
    case Any => Range(Min(f), ParseMax(f), step)
    case Single(t) => Range(TokenValue(t, f), if p.step.None? then TokenValue(t, f) else ParseMax(f), step)
    case Span(a, b) => Range(TokenValue(a, f), TokenValue(b, f), step)
  }

  /** A part of known tokens, with a positive step and within the field's bounds. */
  ghost predicate Meaningful(p: Part, f: Field) {
    && (p.item.Single? ==> WfToken(p.item.t, f))
    && (p.item.Span? ==> WfToken(p.item.from, f) && WfToken(p.item.to, f))
    && PartRange(p, f).step > 0
    && Min(f) <= PartRange(p, f).start <= PartRange(p, f).end <= ParseMax(f)
  }

  /** The documented grammar: aliases in capitals, and steps only after a star or a span. */
  ghost predicate WfPart(p: Part, f: Field) {
    Meaningful(p, f) && (p.step.Some? ==> !p.item.Single?) && Upper(ItemText(p.item)) == ItemText(p.item)
  }

  ghost predicate WfToken(t: Token, f: Field) {
    t.Name? ==> Upper(t.text) in Names(f)
  }

  /** The bytes of a token: digits and letters. */
  predicate Plain(t: Text) {
    t != [] && forall i :: 0 <= i < |t| ==> 48 <= t[i] <= 57 || 65 <= t[i] <= 90 || 97 <= t[i] <= 122
  }

  lemma {:induction false} FoundAt<T>(s: seq<T>, c: T)
    requires c in s
    ensures IndexOf(s, c) < |s|
  {
    if s[0] != c {
      FoundAt(s[1..], c);
    }
  }

  lemma {:induction false} FoundFirst(a: Text, c: byte, b: Text)
    requires c !in a
    ensures IndexOf(a + [c] + b, c) == |a|
    ensures IndexOf(a, c) == |a|
  {
    if a == [] {
      assert a + [c] + b == [c] + b;
    } else {
      FoundFirst(a[1..], c, b);
      assert (a + [c] + b)[1..] == a[1..] + [c] + b;
    }
  }

  lemma {:induction false} AllDigits(t: Text)
    requires IsDigits(t)
    ensures LeadingDigits(t) == t
  {
    if t != [] {
      AllDigits(t[1..]);
    }
  }

  lemma ParseIntDecimal(n: nat)
    ensures ParseInt(Decimal(n)) == Some(n)
  {
    ParsePrintDecimal(n);
    AllDigits(Decimal(n));
  }

  lemma NamesAreLetters(f: Field, name: Text)
    requires name in Names(f)
    ensures |name| == 3 && forall i :: 0 <= i < 3 ==> 65 <= name[i] <= 90
  {
  }

  lemma NumberReads(n: nat, f: Field)
    ensures ResolveValue(Decimal(n), f) == Success(n) && Plain(Decimal(n))
  {
    var t := Decimal(n);
    ParsePrintDecimal(n);
    ParseIntDecimal(n);
    hide Decimal, ParseInt, Names, MONTH_NAMES, DAY_NAMES;
    assert Upper(t)[0] == t[0];
    if Upper(t) in Names(f) {
      NamesAreLetters(f, Upper(t));
      assert false;
    }
  }

  lemma NameReads(name: Text, f: Field)
    requires Upper(name) in Names(f)
    ensures ResolveValue(name, f) == Success(TokenValue(Name(name), f)) && Plain(name)
  {
    hide Decimal, ParseInt, Names, MONTH_NAMES, DAY_NAMES;
    FoundAt(Names(f), Upper(name));
    NamesAreLetters(f, Upper(name));
    forall i | 0 <= i < |name| ensures 65 <= name[i] <= 90 || 97 <= name[i] <= 122 {
      assert 65 <= Upper(name)[i] <= 90;
    }
  }

  lemma TokenReads(t: Token, f: Field)
    requires WfToken(t, f)
    ensures ResolveValue(TokenText(t), f) == Success(TokenValue(t, f)) && Plain(TokenText(t))
  {
    hide ResolveValue, Plain, Decimal;
    match t
    case Number(n) => NumberReads(n, f);
    case Name(name) => NameReads(name, f);
  }

  /** How an item's text divides at its dash. */
  lemma ItemReads(item: Item, slashed: bool, f: Field)
    requires item.Single? ==> WfToken(item.t, f)
    requires item.Span? ==> WfToken(item.from, f) && WfToken(item.to, f)
    ensures SLASH !in ItemText(item) && COMMA !in ItemText(item)
    ensures Ends(ItemText(item), slashed, f) == Success(
              match item
              case Any => (Min(f), ParseMax(f))
              case Single(t) => (TokenValue(t, f), if slashed then ParseMax(f) else TokenValue(t, f))
              case Span(a, b) => (TokenValue(a, f), TokenValue(b, f)))
  {
    hide ResolveValue, TokenText, TokenValue, SplitOn;
    match item
    case Any =>
    case Single(t) =>
      TokenReads(t, f);
      SplitAfterPart(TokenText(t), [], DASH);
      assert TokenText(t)[0] != STAR;
    case Span(a, b) =>
      TokenReads(a, f);
      TokenReads(b, f);
      SplitAfterPart(TokenText(a), TokenText(b), DASH);
      SplitAfterPart(TokenText(b), [], DASH);
      assert DASH in ItemText(item);
  }

  lemma DecimalPlain(n: nat)
    ensures Plain(Decimal(n))
  {
    ParsePrintDecimal(n);
  }

  lemma AtSlash(body: Text, rest: Text, f: Field)
    requires SLASH !in body
    ensures RangeOf(body + [SLASH] + rest, f) == RangeIs(Ends(body, true, f), ParseInt(rest), f)
    ensures RangeOf(body, f) == RangeIs(Ends(body, false, f), Some(1), f)
  {
    hide Ends, ParseInt;
    FoundFirst(body, SLASH, rest);
    var part := body + [SLASH] + rest;
    assert part[..|body|] == body && part[|body| + 1..] == rest && body[..|body|] == body;
  }

  /** Printing a part and parsing it gives the range it stands for; for parts of the documented grammar that is what
      they are documented to mean. */
  lemma PartReads(p: Part, f: Field)
    requires Meaningful(p, f)
    ensures RangeOf(PartText(p), f) == Success(PartRange(p, f))
    ensures COMMA !in PartText(p)
  {
    hide Ends, ParseInt, TokenText, TokenValue, Decimal, RangeOf, ItemText;
    ItemReads(p.item, p.step.Some?, f);
    if p.step.Some? {
      ParseIntDecimal(p.step.value);
      DecimalPlain(p.step.value);
      AtSlash(ItemText(p.item), Decimal(p.step.value), f);
    } else {
      AtSlash(ItemText(p.item), [], f);
    }
  }

  function PartTexts(parts: seq<Part>): seq<Text> {
    seq(|parts|, i requires 0 <= i < |parts| => PartText(parts[i]))
  }

  /** x counts for the i-th part of a list. */
  ghost predicate Means(parts: seq<Part>, i: nat, f: Field, x: nat)
    requires i < |parts|
  {
    exists w :: Steps(PartRange(parts[i], f), w) && Remap(f, w) == x
  }

  /** Every list of such parts, printed and parsed, gives exactly the values they stand for. */
  lemma GrammarReads(parts: seq<Part>, f: Field)
    requires parts != [] && forall i :: 0 <= i < |parts| ==> Meaningful(parts[i], f)
    ensures var r := FieldOf(Join(PartTexts(parts), COMMA), f);
            r.Success? && forall x: nat :: x in r.value <==> exists i :: 0 <= i < |parts| && Means(parts, i, f, x)
  {
    hide RangeOf, PartRange, PartText;
    var texts := PartTexts(parts);
    forall i | 0 <= i < |parts|
      ensures COMMA !in texts[i] && RangeOf(texts[i], f) == Success(PartRange(parts[i], f))
    {
      PartReads(parts[i], f);
    }
    SplitJoin(texts, COMMA);
    UnionMeaning(texts, |texts|, f);
    var r := FieldOf(Join(texts, COMMA), f);
    forall x: nat ensures x in r.value <==> exists i :: 0 <= i < |parts| && Means(parts, i, f, x) {
      assert forall i :: 0 <= i < |parts| ==> (PartGives(texts, i, f, x) <==> Means(parts, i, f, x));
    }
  }

  /** The place of a name in the year, by its letters. */
  function MonthAt(t: Text): nat
    requires |t| == 3
  {
    var p: (int, int, int) := (t[0], t[1], t[2]);
    if p == (74, 65, 78) then 0 else if p == (70, 69, 66) then 1 else if p == (77, 65, 82) then 2
    else if p == (65, 80, 82) then 3 else if p == (77, 65, 89) then 4 else if p == (74, 85, 78) then 5
    else if p == (74, 85, 76) then 6 else if p == (65, 85, 71) then 7 else if p == (83, 69, 80) then 8
    else if p == (79, 67, 84) then 9 else if p == (78, 79, 86) then 10 else if p == (68, 69, 67) then 11 else 12
  }

  /** The place of a name in the week, by its letters. */
  function DayAt(t: Text): nat
    requires |t| == 3
  {
    var p: (int, int, int) := (t[0], t[1], t[2]);
    if p == (83, 85, 78) then 0 else if p == (77, 79, 78) then 1 else if p == (84, 85, 69) then 2
    else if p == (87, 69, 68) then 3 else if p == (84, 72, 85) then 4 else if p == (70, 82, 73) then 5
    else if p == (83, 65, 84) then 6 else 7
  }

  lemma NamesPlaced()
    ensures |MONTH_NAMES| == 12 && |DAY_NAMES| == 7
    ensures forall i :: 0 <= i < 12 ==> |MONTH_NAMES[i]| == 3 && MonthAt(MONTH_NAMES[i]) == i
    ensures forall i :: 0 <= i < 7 ==> |DAY_NAMES[i]| == 3 && DayAt(DAY_NAMES[i]) == i
  {
  }

  lemma {:induction false} FoundOnce(s: seq<Text>, i: nat)
    requires i < |s| && forall k :: 0 <= k < i ==> s[k] != s[i]
    ensures IndexOf(s, s[i]) == i
  {
    if i > 0 {
      FoundOnce(s[1..], i - 1);
    }
  }

  lemma NamedAt(t: Text, f: Field, i: nat)
    requires t in Names(f) && IndexOf(Names(f), t) == i
    ensures ResolveValue(t, f) == Success(Min(f) + i)
  {
    hide Names, Literal, MONTH_NAMES, DAY_NAMES;
    NamesAreLetters(f, t);
    FoundAt(Names(f), t);
    assert Upper(t) == t;
  }

  /** The three-letter names stand for the months from January, 1, and the weekdays from Sunday, 0. */
  lemma AliasValues(t: Text)
    requires |t| == 3
    ensures t in MONTH_NAMES ==> ResolveValue(t, Months) == Success(MonthAt(t) + 1)
    ensures t in DAY_NAMES ==> ResolveValue(t, Dows) == Success(DayAt(t))
  {
    hide Literal, MonthAt, DayAt, ResolveValue, MONTH_NAMES, DAY_NAMES;
    NamesPlaced();
    if t in MONTH_NAMES {
      var i :| 0 <= i < |MONTH_NAMES| && MONTH_NAMES[i] == t;
      FoundOnce(MONTH_NAMES, i);
      NamedAt(t, Months, i);
    }
    if t in DAY_NAMES {
      var i :| 0 <= i < |DAY_NAMES| && DAY_NAMES[i] == t;
      FoundOnce(DAY_NAMES, i);
      NamedAt(t, Dows, i);
    }
  }

  // ---------------------------------------------------------------- everything the parser accepts

  /** A token spells v: an alias in any case, or the shortest decimal form of v. */
  ghost predicate Spells(t: Text, f: Field, v: nat) {
    (Upper(t) in Names(f) && v == Min(f) + IndexOf(Names(f), Upper(t))) || t == Decimal(v)
  }

  predicate DigitFirst(t: Text) {
    t != [] && 48 <= t[0] <= 57
  }

  /** Digits of value v, with anything but a digit after them. */
  ghost predicate DigitsAndJunk(t: Text, v: nat) {
    exists n :: 0 < n <= |t| && IsDigits(t[..n]) && DigitsValue(t[..n]) == v && !DigitFirst(t[n..])
  }

  /** What follows the body: nothing, or a slash, possibly a plus sign, and digits of a positive value with anything
      after them. */
  ghost predicate StepText(tail: Text, step: nat) {
    || (tail == [] && step == 1)
    || (tail != [] && tail[0] == SLASH && step > 0
        && (DigitsAndJunk(tail[1..], step) || (|tail| > 1 && tail[1] == PLUS && DigitsAndJunk(tail[2..], step))))
  }

  /** Two tokens with a dash between them, and possibly another dash with anything after it. */
  ghost predicate SpanText(body: Text, a: Text, b: Text) {
    var pair := a + [DASH] + b;
    body == pair || (|body| > |pair| && body[..|pair|] == pair && body[|pair|] == DASH)
  }

  /** What comes before the slash: nothing or a star, a token, or a span. */
  ghost predicate BodyText(body: Text, slashed: bool, f: Field, start: nat, end: nat) {
    || ((body == [] || body == [STAR]) && start == Min(f) && end == ParseMax(f))
    || (Spells(body, f, start) && end == if slashed then ParseMax(f) else start)
    || (exists a, b :: SpanText(body, a, b) && Spells(a, f, start) && Spells(b, f, end))
  }

  /** The part has its body in the first k characters, and denotes the range g within the field's bounds. */
  ghost predicate AcceptsAt(part: Text, f: Field, g: Range, k: nat) {
    && k <= |part| && SLASH !in part[..k]
    && StepText(part[k..], g.step)
    && BodyText(part[..k], k < |part|, f, g.start, g.end)
    && Min(f) <= g.start <= g.end <= ParseMax(f)
  }

  ghost predicate Accepts(part: Text, f: Field, g: Range) {
    exists k: nat :: AcceptsAt(part, f, g, k)
  }

  lemma SpellsReads(t: Text, f: Field, v: nat)
    ensures ResolveValue(t, f) == Success(v) <==> Spells(t, f, v)
    ensures Spells(t, f, v) ==> Plain(t)
  {
    hide Names, MONTH_NAMES, DAY_NAMES, Decimal, ParseInt, Upper, Plain;
    if Upper(t) in Names(f) {
      NameReads(t, f);
      if t == Decimal(v) {
        NumberReads(v, f);
      }
    } else if t == Decimal(v) {
      NumberReads(v, f);
    } else {
      NotFound(Names(f), Upper(t));
    }
  }

  lemma {:induction false} NotFound<T>(s: seq<T>, c: T)
    requires c !in s
    ensures IndexOf(s, c) == |s|
  {
    if s != [] {
      NotFound(s[1..], c);
    }
  }

  lemma {:induction false} LeadingAre(t: Text)
    ensures var d := LeadingDigits(t); |d| <= |t| && t[..|d|] == d && !DigitFirst(t[|d|..])
  {
    if DigitFirst(t) {
      LeadingAre(t[1..]);
      assert t == [t[0]] + t[1..];
    }
  }

  lemma LeadingMeaning(t: Text, v: nat)
    ensures LeadingDigits(t) != [] && DigitsValue(LeadingDigits(t)) == v <==> DigitsAndJunk(t, v)
  {
    hide DigitsValue;
    LeadingAre(t);
    if DigitsAndJunk(t, v) {
      var n :| 0 < n <= |t| && IsDigits(t[..n]) && DigitsValue(t[..n]) == v && !DigitFirst(t[n..]);
      DigitsThen(t[..n], t[n..]);
      assert t[..n] + t[n..] == t;
    }
  }

  lemma StepReads(tail: Text, step: nat)
    requires tail != [] && tail[0] == SLASH && step > 0
    ensures ParseInt(tail[1..]) == Some(step) <==> StepText(tail, step)
  {
    var t := tail[1..];
    LeadingMeaning(t, step);
    if t != [] {
      LeadingMeaning(t[1..], step);
      assert t[1..] == tail[2..];
    }
    hide DigitsAndJunk, DigitsValue;
    if t != [] && t[0] == PLUS {
      assert !DigitFirst(t);
      LeadingAre(t);
    }
  }

  lemma SpanReads(body: Text, a: Text, b: Text)
    requires DASH !in a && DASH !in b
    ensures SpanText(body, a, b) <==>
              |SplitOn(body, DASH)| > 1 && SplitOn(body, DASH)[0] == a && SplitOn(body, DASH)[1] == b
  {
    hide SplitOn, Join;
    var pair := a + [DASH] + b;
    var ends := SplitOn(body, DASH);
    if SpanText(body, a, b) {
      if body == pair {
        SplitAfterPart(a, b, DASH);
        SplitAfterPart(b, [], DASH);
      } else {
        var junk := body[|pair| + 1..];
        assert body == a + [DASH] + (b + [DASH] + junk);
        SplitAfterPart(a, b + [DASH] + junk, DASH);
        SplitAfterPart(b, junk, DASH);
      }
    } else if |ends| > 1 && ends[0] == a && ends[1] == b {
      JoinSplit(body, DASH);
      JoinTwo(ends);
      assert false;
    }
  }

  lemma JoinTwo(ends: seq<Text>)
    requires |ends| > 1
    ensures SpanText(Join(ends, DASH), ends[0], ends[1])
  {
    var rest := ends[1..];
    assert rest[0] == ends[1];
    if |ends| == 2 {
      assert Join(rest, DASH) == ends[1];
    } else {
      var junk := Join(rest[1..], DASH);
      assert Join(ends, DASH) == ends[0] + [DASH] + (ends[1] + [DASH] + junk);
      assert Join(ends, DASH) == (ends[0] + [DASH] + ends[1]) + ([DASH] + junk);
    }
  }

  /** What Ends says of a body that is neither empty nor a star. */
  lemma EndsOfTokens(body: Text, slashed: bool, f: Field, start: nat, end: nat)
    requires body != [] && body != [STAR]
    ensures var ends := SplitOn(body, DASH);
            Ends(body, slashed, f) == Success((start, end)) <==>
              && Spells(ends[0], f, start)
              && if |ends| > 1 then Spells(ends[1], f, end) else end == if slashed then ParseMax(f) else start
  {
    hide ResolveValue, Spells, SplitOn, ParseMax;
    var ends := SplitOn(body, DASH);
    SpellsReads(ends[0], f, start);
    if |ends| > 1 {
      SpellsReads(ends[1], f, end);
    }
  }

  lemma BodyReads(body: Text, slashed: bool, f: Field, start: nat, end: nat)
    ensures Ends(body, slashed, f) == Success((start, end)) <==> BodyText(body, slashed, f, start, end)
  {
    var ends := SplitOn(body, DASH);
    SplitCount(body, DASH);
    SpellsReads(body, f, start);
    hide Spells, SplitOn, SpanText, ResolveValue, Plain;
    forall a, b | SpanText(body, a, b) && Spells(a, f, start) && Spells(b, f, end)
      ensures |ends| > 1 && ends[0] == a && ends[1] == b && body != [] && body != [STAR]
    {
      DashFree(a, f, start);
      DashFree(b, f, end);
      SpanReads(body, a, b);
      SplitCount(body, DASH);
    }
    if body == [] || body == [STAR] {
      NotToken(body, f, start);
    } else {
      EndsOfTokens(body, slashed, f, start, end);
      if |ends| > 1 {
        NoDashToken(body, f, start);
        if Spells(ends[0], f, start) && Spells(ends[1], f, end) {
          DashFree(ends[0], f, start);
          DashFree(ends[1], f, end);
          SpanReads(body, ends[0], ends[1]);
        }
      }
    }
  }

  lemma DashFree(t: Text, f: Field, v: nat)
    requires Spells(t, f, v)
    ensures DASH !in t
  {
    SpellsReads(t, f, v);
  }

  lemma NoDashToken(t: Text, f: Field, v: nat)
    requires DASH in t
    ensures !Spells(t, f, v)
  {
    SpellsReads(t, f, v);
  }

  lemma NotToken(t: Text, f: Field, v: nat)
    requires t == [] || t == [STAR]
    ensures !Spells(t, f, v)
  {
    SpellsReads(t, f, v);
  }

  lemma {:induction false} FoundOnly(t: Text, k: nat)
    requires k <= |t| && SLASH !in t[..k] && (k < |t| ==> t[k] == SLASH)
    ensures IndexOf(t, SLASH) == k
  {
    if k > 0 {
      assert t[0] == t[..k][0] && t[1..][..k - 1] == t[..k][1..];
      FoundOnly(t[1..], k - 1);
    }
  }

  lemma StepAt(part: Text, k: nat, step: nat)
    requires k <= |part| && (k < |part| ==> part[k] == SLASH)
    ensures StepOf(part, k) == Some(step) && step > 0 <==> StepText(part[k..], step)
  {
    if k < |part| {
      assert part[k..][0] == part[k] && part[k..][1..] == part[k + 1..];
      if step > 0 {
        StepReads(part[k..], step);
      }
    }
    hide ParseInt, DigitsAndJunk;
  }

  lemma RangeAt(part: Text, f: Field, g: Range, k: nat)
    requires k <= |part| && IndexOf(part, SLASH) == k
    ensures RangeOf(part, f) == Success(g) <==> AcceptsAt(part, f, g, k)
  {
    hide Ends, ParseInt, BodyText, StepText, StepOf, ParseMax, Min, RangeIs;
    BodyReads(part[..k], k < |part|, f, g.start, g.end);
    StepAt(part, k, g.step);
    RangeIsMeaning(Ends(part[..k], k < |part|, f), StepOf(part, k), f, g);
    assert RangeOf(part, f) == RangeIs(Ends(part[..k], k < |part|, f), StepOf(part, k), f) by {
      RangeByStep(part, f, k);
    }
  }

  lemma RangeIsMeaning(ends: Result<(nat, nat), CronError>, step: Option<int>, f: Field, g: Range)
    ensures RangeIs(ends, step, f) == Success(g) <==>
              && ends == Success((g.start, g.end)) && step == Some(g.step) && g.step > 0
              && Min(f) <= g.start <= g.end <= ParseMax(f)
  {
    hide Min, ParseMax;
  }

  /** Exactly which parts are accepted, and as which range: for every text, a step of any length being read as the
      number it is. */
  lemma AcceptsExactly(part: Text, f: Field, g: Range)
    ensures RangeOf(part, f) == Success(g) <==> Accepts(part, f, g)
  {
    hide RangeOf, BodyText;
    RangeAt(part, f, g, IndexOf(part, SLASH));
    if Accepts(part, f, g) {
      var k: nat :| AcceptsAt(part, f, g, k);
      if k < |part| {
        assert part[k..][0] == part[k];
      }
      FoundOnly(part, k);
    }
  }

  /** What follows the body is a step, or nothing. */
  ghost predicate HasStep(tail: Text) {
    exists step :: step > 0 && StepText(tail, step)
  }

  /** The body has a first and a last value. */
  ghost predicate HasEnds(body: Text, slashed: bool, f: Field) {
    exists start, end :: BodyText(body, slashed, f, start, end)
  }

  lemma TokenError(token: Text, f: Field)
    ensures ResolveValue(token, f).Failure? ==> ResolveValue(token, f).error == BadValue
  {
    hide ParseInt, Names, Decimal;
  }

  lemma EndsError(body: Text, slashed: bool, f: Field)
    ensures Ends(body, slashed, f).Failure? ==> Ends(body, slashed, f).error == BadValue
  {
    hide ResolveValue, SplitOn;
    var ends := SplitOn(body, DASH);
    TokenError(ends[0], f);
    if |ends| > 1 {
      TokenError(ends[1], f);
    }
  }

  lemma EndsExist(body: Text, slashed: bool, f: Field)
    ensures HasEnds(body, slashed, f) <==> Ends(body, slashed, f).Success?
    ensures Ends(body, slashed, f).Failure? ==> Ends(body, slashed, f).error == BadValue
  {
    hide BodyText, Ends;
    EndsError(body, slashed, f);
    if Ends(body, slashed, f).Success? {
      var (start, end) := Ends(body, slashed, f).value;
      BodyReads(body, slashed, f, start, end);
    }
    if HasEnds(body, slashed, f) {
      var start, end :| BodyText(body, slashed, f, start, end);
      BodyReads(body, slashed, f, start, end);
    }
  }

  lemma StepExists(part: Text, k: nat)
    requires k <= |part| && (k < |part| ==> part[k] == SLASH)
    ensures HasStep(part[k..]) <==> StepOf(part, k).Some? && StepOf(part, k).value > 0
  {
    hide StepText, StepOf;
    if StepOf(part, k).Some? && StepOf(part, k).value > 0 {
      StepAt(part, k, StepOf(part, k).value);
    }
    if HasStep(part[k..]) {
      var step :| step > 0 && StepText(part[k..], step);
      StepAt(part, k, step);
    }
  }

  /** Which error a part is rejected with: a step that is none is reported first, then tokens that are none, then
      values out of bounds or order. The body is what comes before the first slash. */
  lemma PartErrors(part: Text, f: Field, k: nat)
    requires k <= |part| && SLASH !in part[..k] && (k < |part| ==> part[k] == SLASH)
    ensures RangeOf(part, f) == Failure(BadStep) <==> !HasStep(part[k..])
    ensures RangeOf(part, f) == Failure(BadValue) <==> HasStep(part[k..]) && !HasEnds(part[..k], k < |part|, f)
    ensures RangeOf(part, f).Failure? ==> RangeOf(part, f).error in {BadStep, BadValue, OutOfBounds}
  {
    hide Ends, ParseInt, HasStep, HasEnds, RangeOf, StepOf;
    FoundOnly(part, k);
    RangeByStep(part, f, k);
    StepExists(part, k);
    EndsExist(part[..k], k < |part|, f);
  }

  /** The form of a documented part: something in capitals before the slash, at most one dash in it; and after the
      slash, which follows a star or a dash, the shortest form of the step. */
  predicate Documented(part: Text, step: nat) {
    var k := IndexOf(part, SLASH);
    var body := part[..k];
    && body != [] && Upper(body) == body && |SplitOn(body, DASH)| <= 2
    && (k < |part| ==> (body == [STAR] || |SplitOn(body, DASH)| == 2) && part[k + 1..] == Decimal(step))
  }

  /** Exactly which accepted parts are in the documented grammar. */
  lemma GrammarExactly(part: Text, f: Field)
    ensures (exists p :: WfPart(p, f) && part == PartText(p)) <==>
              RangeOf(part, f).Success? && Documented(part, RangeOf(part, f).value.step)
  {
    hide RangeOf, Meaningful, PartText, Documented, ItemText, Upper;
    forall p | WfPart(p, f) && part == PartText(p)
      ensures RangeOf(part, f).Success? && Documented(part, RangeOf(part, f).value.step)
    {
      PartReads(p, f);
      PartDocumented(p, f);
    }
    hide WfPart;
    if RangeOf(part, f).Success? && Documented(part, RangeOf(part, f).value.step) {
      var p := PartOf(part, f);
    }
  }

  lemma DocumentedAt(body: Text, rest: Text, step: nat)
    requires SLASH !in body
    ensures Documented(body, step) <==> body != [] && Upper(body) == body && |SplitOn(body, DASH)| <= 2
    ensures Documented(body + [SLASH] + rest, step) <==>
              && body != [] && Upper(body) == body && |SplitOn(body, DASH)| <= 2
              && (body == [STAR] || |SplitOn(body, DASH)| == 2) && rest == Decimal(step)
  {
    hide Upper, SplitOn, Decimal;
    FoundFirst(body, SLASH, rest);
    var part := body + [SLASH] + rest;
    assert part[..|body|] == body && part[|body| + 1..] == rest && body[..|body|] == body;
  }

  lemma PartDocumented(p: Part, f: Field)
    requires WfPart(p, f)
    ensures Documented(PartText(p), PartRange(p, f).step)
  {
    hide TokenText, TokenValue, Decimal, SplitOn, Upper, ItemText, Documented;
    var body := ItemText(p.item);
    ItemReads(p.item, p.step.Some?, f);
    ItemDashes(p.item, f);
    DocumentedAt(body, if p.step.Some? then Decimal(p.step.value) else [], PartRange(p, f).step);
  }

  lemma ItemDashes(item: Item, f: Field)
    requires item.Single? ==> WfToken(item.t, f)
    requires item.Span? ==> WfToken(item.from, f) && WfToken(item.to, f)
    ensures ItemText(item) != [] && |SplitOn(ItemText(item), DASH)| == (if item.Span? then 2 else 1)
    ensures item.Any? <==> ItemText(item) == [STAR]
  {
    hide TokenText, SplitOn;
    match item
    case Any => SplitAfterPart([STAR], [], DASH);
    case Single(t) =>
      TokenReads(t, f);
      SplitAfterPart(TokenText(t), [], DASH);
      assert TokenText(t)[0] != STAR;
    case Span(a, b) =>
      TokenReads(a, f);
      TokenReads(b, f);
      SplitAfterPart(TokenText(a), TokenText(b), DASH);
      SplitAfterPart(TokenText(b), [], DASH);
      assert |ItemText(item)| > 1;
  }

  ghost function TokenOf(t: Text, f: Field, v: nat): Token {
    if Upper(t) in Names(f) then Name(t) else Number(v)
  }

  lemma TokenOfReads(t: Text, f: Field, v: nat)
    requires Spells(t, f, v)
    ensures WfToken(TokenOf(t, f, v), f) && TokenText(TokenOf(t, f, v)) == t && TokenValue(TokenOf(t, f, v), f) == v
  {
    hide Names, MONTH_NAMES, DAY_NAMES, Decimal, ResolveValue, Upper, Plain;
    if Upper(t) in Names(f) && t == Decimal(v) {
      NumberReads(v, f);
      NameReads(t, f);
    }
  }

  lemma ItemOf(body: Text, slashed: bool, f: Field) returns (item: Item)
    requires Ends(body, slashed, f).Success? && body != [] && |SplitOn(body, DASH)| <= 2
    ensures ItemText(item) == body
    ensures item.Single? <==> body != [STAR] && |SplitOn(body, DASH)| == 1
    ensures item.Single? ==> WfToken(item.t, f)
    ensures item.Span? ==> WfToken(item.from, f) && WfToken(item.to, f)
  {
    var ends := SplitOn(body, DASH);
    var (start, end) := Ends(body, slashed, f).value;
    SplitCount(body, DASH);
    JoinSplit(body, DASH);
    if body == [STAR] {
      item := Any;
    } else {
      EndsOfTokens(body, slashed, f, start, end);
      hide Ends, Spells, SplitOn, TokenOf, TokenText, WfToken;
      TokenOfReads(ends[0], f, start);
      if |ends| == 1 {
        item := Single(TokenOf(ends[0], f, start));
      } else {
        TokenOfReads(ends[1], f, end);
        item := Span(TokenOf(ends[0], f, start), TokenOf(ends[1], f, end));
        assert ends[1..] == [ends[1]];
      }
    }
  }

  lemma PartOf(part: Text, f: Field) returns (p: Part)
    requires RangeOf(part, f).Success? && Documented(part, RangeOf(part, f).value.step)
    ensures WfPart(p, f) && part == PartText(p)
  {
    hide Ends, ItemText, Decimal, ParseInt, SplitOn, WfToken, RangeIs, StepOf, PartRange, RangeOf, Upper;
    var k, g := IndexOf(part, SLASH), RangeOf(part, f).value;
    RangeByStep(part, f, k);
    RangeIsMeaning(Ends(part[..k], k < |part|, f), StepOf(part, k), f, g);
    var item := ItemOf(part[..k], k < |part|, f);
    p := Part(item, if k < |part| then Some(g.step) else None);
    assert part == PartText(p) by {
      assert k < |part| ==> part == part[..k] + [SLASH] + part[k + 1..];
      assert k == |part| ==> part == part[..k];
    }
    ItemReads(item, k < |part|, f);
    hide Meaningful;
    SameRange(p, f, g);
  }

  lemma SameRange(p: Part, f: Field, g: Range)
    requires p.item.Single? ==> WfToken(p.item.t, f)
    requires p.item.Span? ==> WfToken(p.item.from, f) && WfToken(p.item.to, f)
    requires p.step.Some? ==> p.step.value == g.step
    requires g.step > 0 && Min(f) <= g.start <= g.end <= ParseMax(f)
    requires Ends(ItemText(p.item), p.step.Some?, f) == Success((g.start, g.end))
    ensures Meaningful(p, f)
  {
    hide Ends, ItemText, WfToken, TokenValue;
    ItemReads(p.item, p.step.Some?, f);
  }

  /** Some of what the parser accepts beyond the grammar: nothing at all reads as `*`; what follows a second dash is
      dropped, and so is what follows the digits of a step; a value with a step runs to the field's end; and aliases
      may be written in any case. */
  lemma AcceptsMore(f: Field, a: Token, b: Token, step: nat, junk: Text)
    requires Meaningful(Part(Span(a, b), None), f) && step > 0 && !DigitFirst(junk)
    ensures RangeOf([], f) == Success(Range(Min(f), ParseMax(f), 1))
    ensures SLASH !in junk ==>
              RangeOf(TokenText(a) + [DASH] + TokenText(b) + [DASH] + junk, f)
              == RangeOf(TokenText(a) + [DASH] + TokenText(b), f)
    ensures RangeOf([STAR, SLASH] + Decimal(step) + junk, f) == RangeOf([STAR, SLASH] + Decimal(step), f)
    ensures RangeOf(TokenText(a) + [SLASH] + Decimal(step), f)
         == Success(Range(TokenValue(a, f), ParseMax(f), step))
    ensures a.Name? ==> RangeOf(a.text, f) == RangeOf(Upper(a.text), f)
  {
    assert IndexOf([], SLASH) == 0;
    assert RangeOf([], f) == Success(Range(Min(f), ParseMax(f), 1));
    hide RangeOf;
    if SLASH !in junk {
      DroppedSpan(f, a, b, junk);
    }
    DroppedStep(f, step, junk);
    ValueWithStep(f, a, step);
    if a.Name? {
      AnyCase(f, a.text);
    }
  }

  lemma ValueWithStep(f: Field, t: Token, step: nat)
    requires WfToken(t, f) && Min(f) <= TokenValue(t, f) <= ParseMax(f) && step > 0
    ensures RangeOf(TokenText(t) + [SLASH] + Decimal(step), f)
         == Success(Range(TokenValue(t, f), ParseMax(f), step))
  {
    PartReads(Part(Single(t), Some(step)), f);
  }

  lemma AnyCase(f: Field, name: Text)
    requires Upper(name) in Names(f)
    ensures RangeOf(name, f) == RangeOf(Upper(name), f)
  {
    hide Names, MONTH_NAMES, DAY_NAMES, Upper, RangeOf;
    UpperTwice(name);
    NameRange(f, name);
    NameRange(f, Upper(name));
  }

  lemma NameRange(f: Field, name: Text)
    requires Upper(name) in Names(f)
    ensures var v := Min(f) + IndexOf(Names(f), Upper(name)); RangeOf(name, f) == Success(Range(v, v, 1))
  {
    hide *;
    NamePart(f, name);
    PartReads(Part(Single(Name(name)), None), f);
  }

  lemma NamePart(f: Field, name: Text)
    requires Upper(name) in Names(f)
    ensures var p, v := Part(Single(Name(name)), None), Min(f) + IndexOf(Names(f), Upper(name));
            Meaningful(p, f) && PartText(p) == name && PartRange(p, f) == Range(v, v, 1)
  {
    hide Names, MONTH_NAMES, DAY_NAMES, Upper, IndexOf, Min, ParseMax, Decimal;
    NameInBounds(f, name);
  }

  lemma UpperTwice(t: Text)
    ensures Upper(Upper(t)) == Upper(t)
  {
  }

  lemma NameInBounds(f: Field, name: Text)
    requires Upper(name) in Names(f)
    ensures Min(f) <= TokenValue(Name(name), f) <= ParseMax(f)
  {
    FoundAt(Names(f), Upper(name));
  }

  /** Those parts are indeed not documented. */
  lemma MoreIsUndocumented(f: Field, a: Token, b: Token, step: nat, junk: Text)
    requires WfToken(a, f) && WfToken(b, f)
    ensures !Documented([], 1)
    ensures SLASH !in junk ==> !Documented(TokenText(a) + [DASH] + TokenText(b) + [DASH] + junk, 1)
    ensures junk != [] ==> !Documented([STAR, SLASH] + Decimal(step) + junk, step)
    ensures !Documented(TokenText(a) + [SLASH] + Decimal(step), step)
    ensures a.Name? && Upper(a.text) != a.text ==> !Documented(a.text, 1)
  {
    TokenReads(a, f);
    TokenReads(b, f);
    hide TokenText, Decimal, SplitOn, Upper, Documented, WfToken, Plain;
    DocumentedAt([], [], 1);
    if SLASH !in junk {
      SpanThenJunk(TokenText(a), TokenText(b), junk);
    }
    if junk != [] {
      StepThenJunk(step, junk);
    }
    ValueThenStep(TokenText(a), step);
    if a.Name? {
      NameText(a);
      PlainHas(a.text);
      DocumentedAt(a.text, [], 1);
    }
  }

  lemma PlainHas(t: Text)
    requires Plain(t)
    ensures t != [] && t[0] != STAR && SLASH !in t && DASH !in t
  {
  }

  lemma SpanThenJunk(a: Text, b: Text, junk: Text)
    requires Plain(a) && Plain(b) && SLASH !in junk
    ensures !Documented(a + [DASH] + b + [DASH] + junk, 1)
  {
    PlainHas(a);
    PlainHas(b);
    hide Plain, SplitOn, Upper, Documented;
    ThreeEnds(a, b, junk);
    DocumentedAt(a + [DASH] + b + [DASH] + junk, [], 1);
  }

  lemma ValueThenStep(t: Text, step: nat)
    requires Plain(t)
    ensures !Documented(t + [SLASH] + Decimal(step), step)
  {
    PlainHas(t);
    hide Plain, SplitOn, Upper, Documented, Decimal;
    SplitCount(t, DASH);
    DocumentedAt(t, Decimal(step), step);
  }

  lemma StepThenJunk(step: nat, junk: Text)
    requires junk != []
    ensures !Documented([STAR, SLASH] + Decimal(step) + junk, step)
  {
    hide Decimal, SplitOn, Upper, Documented;
    var rest := Decimal(step) + junk;
    DocumentedAt([STAR], rest, step);
    assert [STAR, SLASH] + Decimal(step) + junk == [STAR] + [SLASH] + rest;
    assert |rest| > |Decimal(step)|;
  }

  lemma NameText(t: Token)
    requires t.Name?
    ensures TokenText(t) == t.text
  {
  }

  lemma ThreeEnds(a: Text, b: Text, junk: Text)
    requires DASH !in a && DASH !in b
    ensures |SplitOn(a + [DASH] + b + [DASH] + junk, DASH)| > 2
  {
    SplitAfterPart(a, b + [DASH] + junk, DASH);
    SplitAfterPart(b, junk, DASH);
    hide SplitOn;
    assert a + [DASH] + b + [DASH] + junk == a + [DASH] + (b + [DASH] + junk);
  }

  lemma DroppedSpan(f: Field, a: Token, b: Token, junk: Text)
    requires WfToken(a, f) && WfToken(b, f) && SLASH !in junk
    ensures RangeOf(TokenText(a) + [DASH] + TokenText(b) + [DASH] + junk, f)
         == RangeOf(TokenText(a) + [DASH] + TokenText(b), f)
  {
    hide ResolveValue, TokenText, TokenValue, RangeOf, SplitOn;
    TokenReads(a, f);
    TokenReads(b, f);
    var x, y := TokenText(a), TokenText(b);
    var short, long := x + [DASH] + y, x + [DASH] + y + [DASH] + junk;
    assert long == x + [DASH] + (y + [DASH] + junk);
    SplitAfterPart(x, y + [DASH] + junk, DASH);
    SplitAfterPart(x, y, DASH);
    SplitAfterPart(y, junk, DASH);
    AtSlash(short, [], f);
    AtSlash(long, [], f);
    assert |short| > 1 && |long| > 1;
  }

  lemma DroppedStep(f: Field, step: nat, junk: Text)
    requires step > 0 && !DigitFirst(junk)
    ensures RangeOf([STAR, SLASH] + Decimal(step) + junk, f) == RangeOf([STAR, SLASH] + Decimal(step), f)
  {
    hide Decimal, RangeOf, Ends, ParseInt, RangeIs, DigitsValue;
    var d := Decimal(step);
    ParsePrintDecimal(step);
    SameInt(d, junk);
    AtSlash([STAR], d + junk, f);
    AtSlash([STAR], d, f);
    assert [STAR, SLASH] + d + junk == [STAR] + [SLASH] + (d + junk);
    assert [STAR, SLASH] + d == [STAR] + [SLASH] + d;
  }

  lemma SameInt(d: Text, junk: Text)
    requires IsDigits(d) && d != [] && !DigitFirst(junk)
    ensures ParseInt(d + junk) == ParseInt(d)
  {
    DigitsThen(d, junk);
    AllDigits(d);
    assert d[0] == (d + junk)[0];
  }

  lemma {:induction false} DigitsThen(d: Text, junk: Text)
    requires IsDigits(d) && !DigitFirst(junk)
    ensures LeadingDigits(d + junk) == d
  {
    if d == [] {
      assert d + junk == junk;
    } else {
      DigitsThen(d[1..], junk);
      assert (d + junk)[1..] == d[1..] + junk;
    }
  }

  // ---------------------------------------------------------------- whole expressions

  predicate IsSpace(c: byte) {
    c == SPACE || 9 <= c <= 13
  }

  /** `trim().split(/\s+/)`, and no words when nothing is left after trimming. */
  function Words(t: Text): (words: seq<Text>)
    ensures t != [] && !IsSpace(t[0]) ==> words != [] && words[0] != []
  {
    if t == [] then []
    else if IsSpace(t[0]) then Words(t[1..])
    else if |t| == 1 || IsSpace(t[1]) then [[t[0]]] + Words(t[1..])
    else
      var rest := Words(t[1..]);
      [[t[0]] + rest[0]] + rest[1..]
  }

  const ZERO: Text := Literal("0")
  const ONE: Text := Literal("1")
  const ANY: Text := [STAR]

  const AT_YEARLY: Text := Literal("@yearly")
  const AT_ANNUALLY: Text := Literal("@annually")
  const AT_MONTHLY: Text := Literal("@monthly")
  const AT_WEEKLY: Text := Literal("@weekly")
  const AT_DAILY: Text := Literal("@daily")
  const AT_MIDNIGHT: Text := Literal("@midnight")
  const AT_HOURLY: Text := Literal("@hourly")

  /** The five fields a shortcut stands for. */
  function Shortcut(lower: Text): Option<seq<Text>> {
    if lower == AT_YEARLY || lower == AT_ANNUALLY then Some([ZERO, ZERO, ONE, ONE, ANY])
    else if lower == AT_MONTHLY then Some([ZERO, ZERO, ONE, ANY, ANY])
    else if lower == AT_WEEKLY then Some([ZERO, ZERO, ANY, ANY, ZERO])
    else if lower == AT_DAILY || lower == AT_MIDNIGHT then Some([ZERO, ZERO, ANY, ANY, ANY])
    else if lower == AT_HOURLY then Some([ZERO, ANY, ANY, ANY, ANY])
    else None
  }

  function ParseFields(fields: seq<Text>): Result<CronNextFire.Cron, CronError> {
    if |fields| != 5 then Failure(FieldCount)
    else
      var months :- FieldOf(fields[3], Months);
      var dows :- FieldOf(fields[4], Dows);
      var minutes :- FieldOf(fields[0], Minutes);
      var hours :- FieldOf(fields[1], Hours);
      var doms :- FieldOf(fields[2], Doms);
      Success(CronNextFire.Cron(minutes, hours, doms, months, dows, fields[2] != ANY && fields[4] != ANY))
  }

  function ParseCron(expression: Text): Result<CronNextFire.Cron, CronError> {
    var words := Words(expression);
    if words == [] then Failure(Empty)
    else if words[0] != [] && words[0][0] == AT_SIGN then
      var fields := if |words| == 1 then Shortcut(Lower(words[0])) else None;
      if fields.None? then Failure(UnknownShortcut) else ParseFields(fields.value)
    else ParseFields(words)
  }

  ghost predicate IsWord(w: Text) {
    w != [] && forall i :: 0 <= i < |w| ==> !IsSpace(w[i])
  }

  lemma {:induction false} WordThen(w: Text, rest: Text)
    requires IsWord(w) && (rest != [] ==> IsSpace(rest[0]))
    ensures Words(w + rest) == [w] + Words(rest)
  {
    assert (w + rest)[1..] == w[1..] + rest;
    if |w| > 1 {
      WordThen(w[1..], rest);
      assert [w[0]] + w[1..] == w;
    } else {
      assert w[1..] + rest == rest && w == [w[0]];
    }
  }

  lemma {:induction false} WordsJoin(words: seq<Text>)
    requires forall i :: 0 <= i < |words| ==> IsWord(words[i])
    ensures Words(Join(words, SPACE)) == words
  {
    if |words| == 1 {
      WordThen(words[0], []);
      assert words[0] + [] == words[0];
    } else if words != [] {
      var rest := Join(words[1..], SPACE);
      WordsJoin(words[1..]);
      WordThen(words[0], [SPACE] + rest);
      assert Join(words, SPACE) == words[0] + ([SPACE] + rest);
      assert ([SPACE] + rest)[1..] == rest;
      assert words == [words[0]] + words[1..];
    }
  }

  // ---------------------------------------------------------------- what an expression means

  /** The words in order, each with white space before it, and white space at the end. */
  function Spaced(words: seq<Text>, gaps: seq<Text>): Text
    requires |gaps| == |words| + 1
  {
    gaps[0] + if words == [] then [] else words[0] + Spaced(words[1..], gaps[1..])
  }

  ghost predicate Blank(t: Text) {
    forall i :: 0 <= i < |t| ==> IsSpace(t[i])
  }

  /** White space throughout, and some of it between any two words. */
  ghost predicate Gaps(gaps: seq<Text>) {
    (forall i :: 0 <= i < |gaps| ==> Blank(gaps[i])) && forall i :: 0 < i < |gaps| - 1 ==> gaps[i] != []
  }

  lemma {:induction false} BlankThen(gap: Text, t: Text)
    requires Blank(gap)
    ensures Words(gap + t) == Words(t)
  {
    if gap == [] {
      assert gap + t == t;
    } else {
      BlankThen(gap[1..], t);
      assert (gap + t)[1..] == gap[1..] + t;
    }
  }

  /** However words are spaced, they are the words read. */
  lemma {:induction false} WordsSpaced(words: seq<Text>, gaps: seq<Text>)
    requires |gaps| == |words| + 1 && Gaps(gaps) && forall i :: 0 <= i < |words| ==> IsWord(words[i])
    ensures Words(Spaced(words, gaps)) == words
    decreases |words|
  {
    if words == [] {
      BlankThen(gaps[0], []);
    } else {
      var rest := Spaced(words[1..], gaps[1..]);
      WordsSpaced(words[1..], gaps[1..]);
      BlankThen(gaps[0], words[0] + rest);
      if rest != [] {
        SpacedFirst(words[1..], gaps[1..]);
      }
      WordThen(words[0], rest);
      assert words == [words[0]] + words[1..];
    }
  }

  lemma SpacedFirst(words: seq<Text>, gaps: seq<Text>)
    requires |gaps| == |words| + 1 && Blank(gaps[0]) && (words != [] ==> gaps[0] != []) && Spaced(words, gaps) != []
    ensures IsSpace(Spaced(words, gaps)[0])
  {
  }

  /** The fields in the order in which they are written. */
  function FieldAt(i: nat): Field
    requires i < 5
  {
    [Minutes, Hours, Doms, Months, Dows][i]
  }

  /** The set that the expression has for a field. */
  function SetOf(c: CronNextFire.Cron, f: Field): set<nat> {
    match f
    case Minutes => c.minutes
    case Hours => c.hours
    case Doms => c.doms
    case Months => c.months
    case Dows => c.dows
  }

  /** Without a shortcut, an expression is accepted exactly when it has five words and each is accepted in its field;
      its sets are those of the words, and it counts as restricted exactly when neither day field is a bare star. */
  lemma CronMeaning(expression: Text)
    requires var words := Words(expression); words != [] ==> words[0] != [] && words[0][0] != AT_SIGN
    ensures var words, r := Words(expression), ParseCron(expression);
            && (r.Success? <==>
                  |words| == 5 && forall i: nat :: i < |words| ==> FieldOf(words[i], FieldAt(i)).Success?)
            && (r.Success? ==>
                  && (forall i: nat :: i < |words| ==>
                        SetOf(r.value, FieldAt(i)) == FieldOf(words[i], FieldAt(i)).value)
                  && (r.value.domDowRestricted <==> words[2] != [STAR] && words[4] != [STAR]))
            && (words == [] ==> r == Failure(Empty))
            && (words != [] && |words| != 5 ==> r == Failure(FieldCount))
  {
    hide FieldOf, Words;
    var words := Words(expression);
    if |words| == 5 {
      assert FieldAt(0) == Minutes && FieldAt(1) == Hours && FieldAt(2) == Doms && FieldAt(3) == Months
             && FieldAt(4) == Dows;
      hide FieldAt;
      assert words == [words[0], words[1], words[2], words[3], words[4]];
    }
  }

  /** The order in which the fields are parsed: month, weekday, minute, hour, day of month. */
  function Order(k: nat): (i: nat)
    requires k < 5
    ensures i < 5
  {
    if k == 0 then 3 else if k == 1 then 4 else k - 2
  }

  function FieldRead(words: seq<Text>, i: nat): Result<set<nat>, CronError>
    requires |words| == 5 && i < 5
  {
    FieldOf(words[i], FieldAt(i))
  }

  lemma FieldsFail(words: seq<Text>, j: nat)
    requires |words| == 5 && j < 5 && FieldRead(words, Order(j)).Failure?
    requires forall k :: 0 <= k < j ==> FieldRead(words, Order(k)).Success?
    ensures ParseFields(words) == Failure(FieldRead(words, Order(j)).error)
  {
    hide FieldOf;
    assert j > 0 ==> FieldRead(words, Order(0)).Success?;
    assert j > 1 ==> FieldRead(words, Order(1)).Success?;
    assert j > 2 ==> FieldRead(words, Order(2)).Success?;
    assert j > 3 ==> FieldRead(words, Order(3)).Success?;
  }

  /** Of several bad fields, the one reported is the first of month, weekday, minute, hour and day of month. */
  lemma FirstBadField(expression: Text, j: nat)
    requires var words := Words(expression); |words| == 5 && words[0] != [] && words[0][0] != AT_SIGN
    requires j < 5
    requires FieldRead(Words(expression), Order(j)).Failure?
    requires forall k :: 0 <= k < j ==> FieldRead(Words(expression), Order(k)).Success?
    ensures ParseCron(expression) == Failure(FieldRead(Words(expression), Order(j)).error)
  {
    hide FieldOf, Words, FieldRead, ParseFields;
    FieldsFail(Words(expression), j);
  }

  /** x is meant by some part of the list. */
  ghost predicate Listed(parts: seq<Part>, f: Field, x: nat) {
    exists i :: 0 <= i < |parts| && Means(parts, i, f, x)
  }

  function ListTexts(lists: seq<seq<Part>>): seq<Text> {
    seq(|lists|, i requires 0 <= i < |lists| => Join(PartTexts(lists[i]), COMMA))
  }

  ghost predicate WfList(parts: seq<Part>, f: Field) {
    parts != [] && forall i :: 0 <= i < |parts| ==> Meaningful(parts[i], f)
  }

  /** The characters of a part: those of tokens, stars, dashes and slashes. */
  predicate PartChar(c: byte) {
    48 <= c <= 57 || 65 <= c <= 90 || 97 <= c <= 122 || c == STAR || c == DASH || c == SLASH
  }

  lemma PartChars(p: Part, f: Field)
    requires Meaningful(p, f)
    ensures PartText(p) != [] && forall i :: 0 <= i < |PartText(p)| ==> PartChar(PartText(p)[i])
  {
    hide Decimal, TokenText, TokenValue;
    if p.step.Some? {
      NumberReads(p.step.value, f);
    }
    match p.item
    case Any =>
    case Single(t) => TokenReads(t, f);
    case Span(a, b) =>
      TokenReads(a, f);
      TokenReads(b, f);
  }

  lemma ListIsWord(parts: seq<Part>, f: Field)
    requires WfList(parts, f)
    ensures var t := Join(PartTexts(parts), COMMA); IsWord(t) && t[0] != AT_SIGN
  {
    hide PartText, Meaningful, TokenText;
    var texts := PartTexts(parts);
    var t := Join(texts, COMMA);
    PartChars(parts[0], f);
    assert t[0] == texts[0][0];
    forall i | 0 <= i < |t| ensures t[i] == COMMA || PartChar(t[i]) {
      JoinBytes(texts, COMMA, t[i]);
      if t[i] != COMMA {
        var k :| 0 <= k < |texts| && t[i] in texts[k];
        PartChars(parts[k], f);
      }
    }
  }

  lemma StarList(parts: seq<Part>, f: Field)
    requires WfList(parts, f)
    ensures Join(PartTexts(parts), COMMA) == [STAR] <==> parts == [Part(Any, None)]
  {
    var texts := PartTexts(parts);
    PartReads(parts[0], f);
    PartChars(parts[0], f);
    if |parts| == 1 {
      StarPart(parts[0], f);
    } else {
      assert |Join(texts, COMMA)| > 1;
    }
  }

  lemma StarPart(p: Part, f: Field)
    requires Meaningful(p, f)
    ensures PartText(p) == [STAR] <==> p == Part(Any, None)
  {
    hide Decimal, TokenText, TokenValue, Names;
    match p.item
    case Any =>
    case Single(t) =>
      TokenReads(t, f);
      assert PartText(p)[0] == TokenText(t)[0] != STAR;
    case Span(a, b) =>
      TokenReads(a, f);
      assert PartText(p)[0] == TokenText(a)[0] != STAR;
  }

  /** Five lists of printed parts, however spaced: a value is in the set of minutes, hours, days of month, months or
      weekdays exactly when the first, second, third, fourth or fifth list means it, and the expression counts as
      restricted exactly when neither the third nor the fifth list is a bare star. */
  lemma CronReads(lists: seq<seq<Part>>, gaps: seq<Text>)
    requires |lists| == 5 && |gaps| == 6 && Gaps(gaps)
    requires forall i: nat :: i < |lists| ==> WfList(lists[i], FieldAt(i))
    ensures var r := ParseCron(Spaced(ListTexts(lists), gaps));
            && r.Success?
            && (forall x: nat :: x in r.value.minutes <==> Listed(lists[0], Minutes, x))
            && (forall x: nat :: x in r.value.hours <==> Listed(lists[1], Hours, x))
            && (forall x: nat :: x in r.value.doms <==> Listed(lists[2], Doms, x))
            && (forall x: nat :: x in r.value.months <==> Listed(lists[3], Months, x))
            && (forall x: nat :: x in r.value.dows <==> Listed(lists[4], Dows, x))
            && (r.value.domDowRestricted <==> lists[2] != [Part(Any, None)] && lists[4] != [Part(Any, None)])
  {
    hide FieldOf, Words, ParseCron, Spaced, Means, WfList, IsWord, PartTexts;
    var texts := ListTexts(lists);
    forall i: nat | i < |lists|
      ensures IsWord(texts[i]) && texts[i] != [] && texts[i][0] != AT_SIGN
      ensures FieldOf(texts[i], FieldAt(i)).Success?
      ensures forall x: nat :: x in FieldOf(texts[i], FieldAt(i)).value <==> Listed(lists[i], FieldAt(i), x)
    {
      ListReads(lists[i], FieldAt(i));
    }
    assert FieldAt(0) == Minutes && FieldAt(1) == Hours && FieldAt(2) == Doms && FieldAt(3) == Months
           && FieldAt(4) == Dows;
    StarList(lists[2], Doms);
    StarList(lists[4], Dows);
    hide FieldAt, Listed;
    WordsSpaced(texts, gaps);
    CronMeaning(Spaced(texts, gaps));
  }

  lemma ListReads(parts: seq<Part>, f: Field)
    requires WfList(parts, f)
    ensures var t := Join(PartTexts(parts), COMMA);
            && IsWord(t) && t != [] && t[0] != AT_SIGN
            && FieldOf(t, f).Success? && forall x: nat :: x in FieldOf(t, f).value <==> Listed(parts, f, x)
  {
    ListIsWord(parts, f);
    GrammarReads(parts, f);
    hide FieldOf, Means, PartTexts, Meaningful;
  }

  /** From the text to the minutes: minute m of hour h of a day is due exactly when the lists mean its minute, hour and
      month, and its day of month and weekday, of which one is enough when neither is written as a bare star. */
  lemma DueByLists(lists: seq<seq<Part>>, gaps: seq<Text>, zone: CronNextFire.Zone, day: int, h: nat, m: nat)
    requires |lists| == 5 && |gaps| == 6 && Gaps(gaps) && h < 24 && m < 60
    requires forall i: nat :: i < |lists| ==> WfList(lists[i], FieldAt(i))
    ensures var r, d := ParseCron(Spaced(ListTexts(lists), gaps)), zone.calendar(day);
            var byDom, byDow := Listed(lists[2], Doms, d.dom), Listed(lists[4], Dows, d.dow);
            && r.Success?
            && (CronNextFire.Matches(r.value, zone, CronNextFire.At(zone, day, 60 * h + m)) <==>
                  && Listed(lists[0], Minutes, m) && Listed(lists[1], Hours, h) && Listed(lists[3], Months, d.month)
                  && if [Part(Any, None)] in [lists[2], lists[4]] then byDom && byDow else byDom || byDow)
  {
    hide ParseCron, Spaced, Listed, WfList, FieldAt, Gaps, CronNextFire.Matches, CronNextFire.At;
    CronReads(lists, gaps);
    CronNextFire.MatchesFields(ParseCron(Spaced(ListTexts(lists), gaps)).value, zone, day, h, m);
  }

  /** Every accepted expression has five non-empty sets within their fields' bounds. */
  lemma ParsedInBounds(expression: Text)
    ensures var r := ParseCron(expression);
            r.Success? ==>
              && InBounds(r.value.minutes, Minutes) && InBounds(r.value.hours, Hours) && InBounds(r.value.doms, Doms)
              && InBounds(r.value.months, Months) && InBounds(r.value.dows, Dows)
  {
    if ParseCron(expression).Success? {
      var fields := FieldsBehind(expression);
      hide FieldOf, InBounds, ParseCron;
      FieldInBounds(fields[0], Minutes);
      FieldInBounds(fields[1], Hours);
      FieldInBounds(fields[2], Doms);
      FieldInBounds(fields[3], Months);
      FieldInBounds(fields[4], Dows);
    }
  }

  lemma FieldsBehind(expression: Text) returns (fields: seq<Text>)
    requires ParseCron(expression).Success?
    ensures ParseCron(expression) == ParseFields(fields) && |fields| == 5
  {
    hide FieldOf, Words, Shortcut;
    var words := Words(expression);
    fields := if words[0] != [] && words[0][0] == AT_SIGN then Shortcut(Lower(words[0])).value else words;
  }

  ghost predicate InBounds(s: set<nat>, f: Field) {
    s != {} && forall x :: x in s ==> Min(f) <= x <= Max(f)
  }

  lemma FieldInBounds(raw: Text, f: Field)
    ensures FieldOf(raw, f).Success? ==> InBounds(FieldOf(raw, f).value, f)
  {
    FieldMeaning(raw, f);
  }

  // ---------------------------------------------------------------- @monthly, from its text to its fires

  lemma OnePart(p: Part, f: Field)
    requires Meaningful(p, f)
    ensures FieldOf(PartText(p), f) == Success(Values(PartRange(p, f), f))
  {
    var t := PartText(p);
    PartReads(p, f);
    SplitAfterPart(t, [], COMMA);
    hide RangeOf, Values, PartRange, PartText;
    assert Union([t], 0, f) == Success({});
    assert Union([t], 1, f) == Success({} + Values(PartRange(p, f), f));
    assert {} + Values(PartRange(p, f), f) == Values(PartRange(p, f), f);
  }

  lemma OneNumber(n: nat, f: Field)
    requires Min(f) <= n <= Max(f)
    ensures FieldOf(Decimal(n), f) == Success({n})
  {
    var p := Part(Single(Number(n)), None);
    OnePart(p, f);
    hide FieldOf;
    assert PartRange(p, f) == Range(n, n, 1);
    assert ValuesFrom(n + 1, n, 1, f) == {};
    assert ValuesFrom(n, n, 1, f) == {n};
  }

  lemma AnyValue(f: Field)
    ensures FieldOf(ANY, f).Success?
    ensures forall x: nat :: x in FieldOf(ANY, f).value <==> Min(f) <= x <= Max(f)
  {
    hide FieldOf, ValuesFrom;
    var p := Part(Any, None);
    OnePart(p, f);
    var g := Range(Min(f), ParseMax(f), 1);
    forall x: nat ensures x in Values(g, f) <==> Min(f) <= x <= Max(f) {
      ValuesMeaning(g.start, g.end, g.step, f, x);
      if Min(f) <= x <= Max(f) {
        var k: nat := x - Min(f);
        assert x == Min(f) + k * 1;
        assert Steps(g, x);
      }
    }
  }

  lemma AnyMonthOrDay()
    ensures FieldOf(ANY, Months) == Success(CronNextFire.MONTHLY.months)
    ensures FieldOf(ANY, Dows) == Success(CronNextFire.MONTHLY.dows)
  {
    AnyValue(Months);
    AnyValue(Dows);
    hide FieldOf;
    assert FieldOf(ANY, Months).value == CronNextFire.MONTHLY.months;
    assert FieldOf(ANY, Dows).value == CronNextFire.MONTHLY.dows;
  }

  lemma ZeroAndOne()
    ensures FieldOf(ZERO, Minutes) == FieldOf(ZERO, Hours) == FieldOf(ZERO, Dows) == Success({0})
    ensures FieldOf(ONE, Doms) == FieldOf(ONE, Months) == Success({1})
  {
    assert ZERO == Decimal(0) && ONE == Decimal(1);
    hide FieldOf, Decimal, Literal;
    OneNumber(0, Minutes);
    OneNumber(0, Hours);
    OneNumber(0, Dows);
    OneNumber(1, Doms);
    OneNumber(1, Months);
  }

  lemma MonthlyFields()
    ensures ParseFields([ZERO, ZERO, ONE, ANY, ANY]) == Success(CronNextFire.MONTHLY)
  {
    hide FieldOf, Literal;
    ZeroAndOne();
    AnyMonthOrDay();
  }

  lemma MonthlyShortcut()
    ensures Shortcut(AT_MONTHLY) == Some([ZERO, ZERO, ONE, ANY, ANY])
  {
    DifferentNames();
  }

  lemma DifferentNames()
    ensures |AT_YEARLY| == |AT_WEEKLY| == |AT_HOURLY| == 7
    ensures |AT_ANNUALLY| == |AT_MIDNIGHT| == 9 && |AT_MONTHLY| == 8
    ensures |AT_DAILY| == 6
    ensures AT_YEARLY[1] == 121 && AT_WEEKLY[1] == 119 && AT_HOURLY[1] == 104
    ensures AT_ANNUALLY[1] == 97 && AT_MIDNIGHT[1] == 109
  {
  }

  lemma StarIsEvery()
    ensures FieldOf(ANY, Hours) == Success(CronNextFire.EVERY_HOUR)
    ensures FieldOf(ANY, Doms) == Success(CronNextFire.EVERY_DOM)
    ensures FieldOf(ANY, Months) == Success(CronNextFire.EVERY_MONTH)
    ensures FieldOf(ANY, Dows) == Success(CronNextFire.EVERY_DOW)
  {
    hide FieldOf;
    AnyValue(Hours);
    AnyValue(Doms);
    AnyValue(Months);
    AnyValue(Dows);
    assert FieldOf(ANY, Hours).value == CronNextFire.EVERY_HOUR;
    assert FieldOf(ANY, Doms).value == CronNextFire.EVERY_DOM;
    assert FieldOf(ANY, Months).value == CronNextFire.EVERY_MONTH;
    assert FieldOf(ANY, Dows).value == CronNextFire.EVERY_DOW;
  }

  /** What the shortcuts stand for, in any case and with any white space around them: the start of each year, month,
      week, day or hour. */
  lemma ShortcutsMean(expression: Text, t: Text)
    requires Words(expression) == [t]
    ensures Lower(t) == AT_YEARLY || Lower(t) == AT_ANNUALLY ==>
              ParseCron(expression) == Success(CronNextFire.YEARLY)
    ensures Lower(t) == AT_MONTHLY ==>
              ParseCron(expression) == Success(CronNextFire.MONTHLY)
    ensures Lower(t) == AT_WEEKLY ==>
              ParseCron(expression) == Success(CronNextFire.WEEKLY)
    ensures Lower(t) == AT_DAILY || Lower(t) == AT_MIDNIGHT ==>
              ParseCron(expression) == Success(CronNextFire.DAILY)
    ensures Lower(t) == AT_HOURLY ==>
              ParseCron(expression) == Success(CronNextFire.HOURLY)
  {
    hide *;
    TheShortcuts();
    if Shortcut(Lower(t)).Some? {
      SpacedShortcut(expression, t);
      ShortcutFields();
    }
  }

  lemma TheShortcuts()
    ensures Shortcut(AT_YEARLY) == Shortcut(AT_ANNUALLY) == Some([ZERO, ZERO, ONE, ONE, ANY])
    ensures Shortcut(AT_MONTHLY) == Some([ZERO, ZERO, ONE, ANY, ANY])
    ensures Shortcut(AT_WEEKLY) == Some([ZERO, ZERO, ANY, ANY, ZERO])
    ensures Shortcut(AT_DAILY) == Shortcut(AT_MIDNIGHT) == Some([ZERO, ZERO, ANY, ANY, ANY])
    ensures Shortcut(AT_HOURLY) == Some([ZERO, ANY, ANY, ANY, ANY])
  {
    DifferentNames();
    hide Literal;
  }

  lemma ShortcutFields()
    ensures ParseFields([ZERO, ZERO, ONE, ONE, ANY]) == Success(CronNextFire.YEARLY)
    ensures ParseFields([ZERO, ZERO, ONE, ANY, ANY]) == Success(CronNextFire.MONTHLY)
    ensures ParseFields([ZERO, ZERO, ANY, ANY, ZERO]) == Success(CronNextFire.WEEKLY)
    ensures ParseFields([ZERO, ZERO, ANY, ANY, ANY]) == Success(CronNextFire.DAILY)
    ensures ParseFields([ZERO, ANY, ANY, ANY, ANY]) == Success(CronNextFire.HOURLY)
  {
    hide FieldOf, Literal;
    ZeroAndOne();
    StarIsEvery();
  }

  lemma SpacedShortcut(expression: Text, t: Text)
    requires Words(expression) == [t] && Shortcut(Lower(t)).Some?
    ensures ParseCron(expression) == ParseFields(Shortcut(Lower(t)).value)
  {
    ShortcutAt(t);
    hide ParseFields, Shortcut, Words, Lower;
  }

  lemma ShortcutAt(t: Text)
    ensures Shortcut(Lower(t)).Some? ==> t != [] && t[0] == AT_SIGN
  {
    if Shortcut(Lower(t)).Some? {
      AtFirst();
      hide Literal;
      assert Lower(t)[0] == 64;
    }
  }

  lemma AtFirst()
    ensures AT_YEARLY[..1] == AT_ANNUALLY[..1] == AT_MONTHLY[..1] == [64]
    ensures AT_WEEKLY[..1] == AT_DAILY[..1] == AT_MIDNIGHT[..1] == [64]
    ensures AT_HOURLY[..1] == [64]
  {
  }

  /** An expression that begins with an at sign is accepted only if it is one of the seven shortcuts. */
  lemma ShortcutsOnly(expression: Text)
    requires var words := Words(expression); words != [] && words[0] != [] && words[0][0] == AT_SIGN
    ensures var words := Words(expression);
            && (ParseCron(expression).Success? <==>
                  && |words| == 1
                  && (var t := Lower(words[0]);
                      || t == AT_YEARLY || t == AT_ANNUALLY || t == AT_MONTHLY
                      || t == AT_WEEKLY || t == AT_DAILY || t == AT_MIDNIGHT
                      || t == AT_HOURLY))
            && (ParseCron(expression).Failure? ==> ParseCron(expression) == Failure(UnknownShortcut))
  {
    hide Words, FieldOf, ParseFields, Literal, Lower;
    var words := Words(expression);
    if |words| == 1 {
      assert words == [words[0]];
      ShortcutsMean(expression, words[0]);
    }
  }

  lemma OneWord(t: Text)
    requires IsWord(t)
    ensures Words(t) == [t]
  {
    WordThen(t, []);
    assert t + [] == t;
  }

  lemma MonthlyWord()
    ensures var t := AT_MONTHLY; IsWord(t) && Lower(t) == t && t[0] == AT_SIGN
  {
  }

  lemma ShortcutParses(t: Text)
    requires IsWord(t) && t[0] == AT_SIGN && Shortcut(Lower(t)).Some?
    ensures ParseCron(t) == ParseFields(Shortcut(Lower(t)).value)
  {
    hide ParseFields, Shortcut, Words, Lower;
    OneWord(t);
  }

  lemma MonthlyParses()
    ensures ParseCron(AT_MONTHLY) == Success(CronNextFire.MONTHLY)
  {
    hide *;
    MonthlyWord();
    MonthlyShortcut();
    ShortcutParses(AT_MONTHLY);
    MonthlyFields();
  }

  /** The accepted text "@monthly", searched from any day but the first of a month, never fires. */
  lemma MonthlyTextNeverFires(zone: CronNextFire.Zone, after: int, horizon: int)
    requires forall day :: zone.calendar(day).dom == 1 ==> zone.calendar(day - 1).dom != 1
    requires zone.calendar(CronNextFire.DayOf(zone, CronNextFire.Start(after))).dom != 1
    ensures var r := ParseCron(AT_MONTHLY);
            r.Success? && CronNextFire.Search(r.value, zone, CronNextFire.Start(after), after + horizon) == None
  {
    MonthlyParses();
    CronNextFire.MonthlyNeverFires(zone, after, horizon);
  }
}
