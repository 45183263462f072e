/** Bytes, big-endian integers, ASCII text and operations (`split`, `join`, decimal, hexadecimal)
    on it. Text is a sequence of ASCII codes. */
module Bytes {
  import opened Wrappers

  type byte = x: int | 0 <= x < 256

  type Text = seq<byte>

  const DOT: byte := 46
  const COLON: byte := 58

  /** The codes of an ASCII string. */
  function Literal(s: string): Text
    requires forall i :: 0 <= i < |s| ==> s[i] < 128 as char
  {
    seq(|s|, i requires 0 <= i < |s| => s[i] as int)
  }

  /** `toLowerCase` and `toUpperCase`, on ASCII. */
  function Lower(t: Text): Text {
    seq(|t|, i requires 0 <= i < |t| => if 65 <= t[i] <= 90 then t[i] + 32 else t[i])
  }

  function Upper(t: Text): Text {
    seq(|t|, i requires 0 <= i < |t| => if 97 <= t[i] <= 122 then t[i] - 32 else t[i])
  }

  /** The same letter, or the same byte that is not a letter. */
  predicate SameLetter(a: byte, b: byte) {
    a == b || (65 <= a <= 90 && b == a + 32) || (97 <= a <= 122 && b == a - 32)
  }

  /** Two texts have the same lower case, and the same upper case, exactly when they have the same letters. */
  lemma CaseFolds(s: Text, t: Text)
    ensures Lower(s) == Lower(t) <==> |s| == |t| && forall i :: 0 <= i < |s| ==> SameLetter(s[i], t[i])
    ensures Upper(s) == Upper(t) <==> Lower(s) == Lower(t)
    ensures Lower(s) == Lower(Upper(s)) && Lower(Lower(s)) == Lower(s) && Upper(Upper(s)) == Upper(s)
    ensures forall i :: 0 <= i < |s| ==> !(65 <= Lower(s)[i] <= 90) && SameLetter(s[i], Lower(s)[i])
    ensures forall i :: 0 <= i < |s| ==> !(97 <= Upper(s)[i] <= 122) && SameLetter(s[i], Upper(s)[i])
  {
    if |s| == |t| {
      SameFold(s, t);
    }
    assert Lower(Upper(s)) == Lower(s) && Lower(Lower(s)) == Lower(s) && Upper(Upper(s)) == Upper(s);
  }

  lemma SameFold(s: Text, t: Text)
    requires |s| == |t|
    ensures Lower(s) == Lower(t) <==> forall i :: 0 <= i < |s| ==> SameLetter(s[i], t[i])
    ensures Upper(s) == Upper(t) <==> forall i :: 0 <= i < |s| ==> SameLetter(s[i], t[i])
  {
    forall i | 0 <= i < |s|
      ensures Lower(s)[i] == Lower(t)[i] <==> SameLetter(s[i], t[i])
      ensures Upper(s)[i] == Upper(t)[i] <==> SameLetter(s[i], t[i])
    {
    }
    if forall i :: 0 <= i < |s| ==> SameLetter(s[i], t[i]) {
      assert forall i :: 0 <= i < |s| ==> Lower(s)[i] == Lower(t)[i] && Upper(s)[i] == Upper(t)[i];
      assert Lower(s) == Lower(t) && Upper(s) == Upper(t);
    } else {
      var i :| 0 <= i < |s| && !SameLetter(s[i], t[i]);
      assert Lower(s)[i] != Lower(t)[i] && Upper(s)[i] != Upper(t)[i];
    }
  }

  /** The two bytes `(v >> 8) & 0xff, v & 0xff`, for any integer v. */
  function U16(v: int): seq<byte> {
    [(v / 256) % 256, v % 256]
  }

  function U32(v: int): seq<byte> {
    [(v / 0x100_0000) % 256, (v / 0x1_0000) % 256, (v / 256) % 256, v % 256]
  }

  /** The bytes e occupy buf from position off. */
  ghost predicate At(buf: seq<byte>, off: nat, e: seq<byte>) {
    off + |e| <= |buf| && buf[off..off + |e|] == e
  }

  lemma AtSplit(buf: seq<byte>, off: nat, a: seq<byte>, b: seq<byte>)
    requires At(buf, off, a + b)
    ensures At(buf, off, a) && At(buf, off + |a|, b)
  {
    var s := buf[off..off + |a + b|];
    assert s[..|a|] == a && s[|a|..] == b;
    assert buf[off..off + |a|] == s[..|a|];
    assert buf[off + |a|..off + |a| + |b|] == s[|a|..];
  }

  // ---------------------------------------------------------------- split and join

  function SplitOn(s: Text, sep: byte): (parts: seq<Text>)
    ensures |parts| >= 1
  {
    if s == [] then [[]]
    else if s[0] == sep then [[]] + SplitOn(s[1..], sep)
    else
      var rest := SplitOn(s[1..], sep);
      [[s[0]] + rest[0]] + rest[1..]
  }

  function Join(parts: seq<Text>, sep: byte): Text {
    if |parts| == 0 then []
    else if |parts| == 1 then parts[0]
    else parts[0] + [sep] + Join(parts[1..], sep)
  }

  ghost predicate Free(parts: seq<Text>, sep: byte) {
    forall i :: 0 <= i < |parts| ==> sep !in parts[i]
  }

  lemma {:induction false} SplitAfterPart(part: Text, rest: Text, sep: byte)
    requires sep !in part
    ensures SplitOn(part, sep) == [part]
    ensures SplitOn(part + [sep] + rest, sep) == [part] + SplitOn(rest, sep)
  {
    if part == [] {
      assert [] + [sep] + rest == [sep] + rest;
    } else {
      SplitAfterPart(part[1..], rest, sep);
      assert (part + [sep] + rest)[1..] == part[1..] + [sep] + rest;
      assert part == [part[0]] + part[1..];
    }
  }

  /** Splitting undoes joining, for one or more separator-free parts. */
  lemma {:induction false} SplitJoin(parts: seq<Text>, sep: byte)
    requires |parts| >= 1 && Free(parts, sep)
    ensures SplitOn(Join(parts, sep), sep) == parts
  {
    if |parts| == 1 {
      SplitAfterPart(parts[0], [], sep);
    } else {
      SplitJoin(parts[1..], sep);
      SplitAfterPart(parts[0], Join(parts[1..], sep), sep);
    }
  }

  /** Joining undoes splitting, for every text. */
  lemma {:induction false} JoinSplit(s: Text, sep: byte)
    ensures Join(SplitOn(s, sep), sep) == s
    ensures Free(SplitOn(s, sep), sep)
  {
    if s != [] {
      JoinSplit(s[1..], sep);
      var rest := SplitOn(s[1..], sep);
      if s[0] == sep {
        assert ([[]] + rest)[1..] == rest;
        assert Join([[]] + rest, sep) == [sep] + s[1..];
      } else {
        var parts := [[s[0]] + rest[0]] + rest[1..];
        assert parts[1..] == rest[1..];
        assert Join(parts, sep) == [s[0]] + Join(rest, sep);
      }
    }
  }

  lemma {:induction false} JoinBytes(parts: seq<Text>, sep: byte, c: byte)
    requires c in Join(parts, sep)
    ensures c == sep || exists i :: 0 <= i < |parts| && c in parts[i]
  {
    if |parts| > 1 && c !in parts[0] && c != sep {
      JoinBytes(parts[1..], sep, c);
      var i :| 0 <= i < |parts[1..]| && c in parts[1..][i];
      assert c in parts[i + 1];
    }
  }

  // ---------------------------------------------------------------- decimal

  function Decimal(n: nat): Text {
    if n < 10 then [48 + n] else Decimal(n / 10) + [48 + n % 10]
  }

  predicate IsDigits(t: Text) {
    forall i :: 0 <= i < |t| ==> 48 <= t[i] <= 57
  }

  function DigitsValue(t: Text): nat
    requires IsDigits(t)
  {
    if t == [] then 0 else 10 * DigitsValue(t[..|t| - 1]) + (t[|t| - 1] - 48)
  }

  /** `Number(t)` on plain digit strings; the empty string is 0. */
  function ParseDecimal(t: Text): Option<nat> {
    if IsDigits(t) then Some(DigitsValue(t)) else None
  }

  lemma {:induction false} ParsePrintDecimal(n: nat)
    ensures |Decimal(n)| >= 1 && IsDigits(Decimal(n))
    ensures ParseDecimal(Decimal(n)) == Some(n)
  {
    if n < 10 {
      assert Decimal(n)[..0] == [];
      assert DigitsValue(Decimal(n)) == 10 * DigitsValue([]) + n;
    } else {
      ParsePrintDecimal(n / 10);
      assert Decimal(n)[..|Decimal(n)| - 1] == Decimal(n / 10);
    }
  }

  // ---------------------------------------------------------------- hexadecimal

  function HexDigit(d: nat): byte
    requires d < 16
  {
    if d < 10 then 48 + d else 87 + d
  }

  function HexDigitValue(c: byte): Option<nat> {
    if 48 <= c <= 57 then Some(c - 48)
    else if 97 <= c <= 102 then Some(c - 87)
    else if 65 <= c <= 70 then Some(c - 55)
    else None
  }

  /** `n.toString(16)`. */
  function Hex(n: nat): Text {
    if n < 16 then [HexDigit(n)] else Hex(n / 16) + [HexDigit(n % 16)]
  }

  /** `Number.parseInt(t, 16)` on strings made of hexadecimal digits only. */
  function ParseHex(t: Text): Option<nat> {
    if t == [] then None
    else
      var last := HexDigitValue(t[|t| - 1]);
      if last.None? then None
      else if |t| == 1 then last
      else
        var front := ParseHex(t[..|t| - 1]);
        if front.None? then None else Some(16 * front.value + last.value)
  }

  lemma {:induction false} ParsePrintHex(n: nat)
    ensures |Hex(n)| >= 1 && ParseHex(Hex(n)) == Some(n)
    ensures COLON !in Hex(n)
  {
    if n >= 16 {
      ParsePrintHex(n / 16);
      assert Hex(n)[..|Hex(n)| - 1] == Hex(n / 16);
    }
  }
}
