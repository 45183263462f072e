/** Decoding undoes encoding, for every well-formed message; and a decoded message re-encodes. */
module DnsRoundTrip {
  import opened Wrappers
  import opened Bytes
  import opened DnsMessage
  import opened DnsDecoding
  import opened DnsEncoding

  // ---------------------------------------------------------------- well-formed entities

  ghost predicate Ascii(t: Text) {
    forall i :: 0 <= i < |t| ==> t[i] < 128
  }

  ghost predicate WfLabels(labels: seq<Text>) {
    forall i :: 0 <= i < |labels| ==> 0 < |labels[i]| <= MAX_LABEL
  }

  /** The root, or dot-separated ASCII labels of 1 to 63 characters whose wire form fits 255 bytes. */
  ghost predicate WfName(n: Text) {
    n == [] || (Ascii(n) && WfLabels(SplitOn(n, DOT)) && |n| + 2 <= MAX_NAME)
  }

  ghost predicate DottedQuad(t: Text) {
    exists b: seq<byte> :: |b| == 4 && t == Join(Octets(b), DOT)
  }

  ghost predicate EightGroups(t: Text) {
    exists b: seq<byte> :: |b| == 16 && t == Join(Groups(b), COLON)
  }

  const TWO32 := 0x1_0000_0000

  ghost predicate WfRData(d: RData) {
    && (match d
        case A(address) => DottedQuad(address)
        case AAAA(address) => EightGroups(address)
        case CNAME(target) => WfName(target)
        case NS(target) => WfName(target)
        case MX(preference, exchange) => preference < 0x1_0000 && WfName(exchange)
        case TXT(strings) => forall i :: 0 <= i < |strings| ==> Ascii(strings[i]) && |strings[i]| <= 255
        case SOA(mname, rname, serial, refresh, retry, expire, minimum) =>
          && WfName(mname) && WfName(rname)
          && serial < TWO32 && refresh < TWO32 && retry < TWO32 && expire < TWO32 && minimum < TWO32)
    && (EncBody(d).Success? ==> |EncBody(d).value| < 0x1_0000)
  }

  ghost predicate WfRecord(r: Record) {
    WfName(r.name) && r.class_ < 0x1_0000 && r.ttl < TWO32 && WfRData(r.data)
  }

  ghost predicate WfRecords(records: seq<Record>) {
    forall i :: 0 <= i < |records| ==> WfRecord(records[i])
  }

  ghost predicate WfQuestions(questions: seq<Question>) {
    forall i :: 0 <= i < |questions| ==>
      WfName(questions[i].name) && questions[i].qtype < 0x1_0000 && questions[i].qclass < 0x1_0000
  }

  ghost predicate WfHeader(m: Message) {
    var h := m.header;
    && h.id < 0x1_0000 && h.opcode < 16 && h.z < 8 && h.rcode < 16
    && h.qdcount == |m.questions| < 0x1_0000 && h.ancount == |m.answers| < 0x1_0000
    && h.nscount == |m.authorities| < 0x1_0000 && h.arcount == |m.additionals| < 0x1_0000
  }

  ghost predicate WfMessage(m: Message) {
    && WfHeader(m) && WfQuestions(m.questions)
    && WfRecords(m.answers) && WfRecords(m.authorities) && WfRecords(m.additionals)
  }

  // ---------------------------------------------------------------- integers

  lemma U16RoundTrip(buf: seq<byte>, off: nat, v: nat)
    requires At(buf, off, U16(v)) && v < 0x1_0000
    ensures U16At(buf, off) == Success((v, off + 2))
  {
    assert buf[off] == buf[off..off + 2][0] == v / 256 && buf[off + 1] == buf[off..off + 2][1];
  }

  lemma U32RoundTrip(buf: seq<byte>, off: nat, v: nat)
    requires At(buf, off, U32(v)) && v < TWO32
    ensures U32At(buf, off) == Success((v, off + 4))
  {
    var s := buf[off..off + 4];
    assert buf[off] == s[0] && buf[off + 1] == s[1] && buf[off + 2] == s[2] && buf[off + 3] == s[3];
    FourBytes(v);
  }

  lemma FourBytes(v: nat)
    requires v < TWO32
    ensures v == v / 0x100_0000 * 0x100_0000 + v / 0x1_0000 % 256 * 0x1_0000 + v / 256 % 256 * 256 + v % 256
  {
    assert v / 256 / 256 == v / 0x1_0000 && v / 0x1_0000 / 256 == v / 0x100_0000;
  }

  // ---------------------------------------------------------------- names

  /** One label at off, and then the others. */
  lemma OneLabel(buf: seq<byte>, off: nat, l: Text, rest: seq<Text>, jumps: nat)
    requires 0 < |l| <= MAX_LABEL && At(buf, off, [|l|]) && At(buf, off + 1, l)
    requires Labels(buf, off + 1 + |l|, jumps) == Success(rest)
    ensures Labels(buf, off, jumps) == Success([l] + rest)
    ensures NameEnd(buf, off) == NameEnd(buf, off + 1 + |l|)
  {
    assert buf[off] == buf[off..off + 1][0] == |l|;
  }

  lemma NoLabel(buf: seq<byte>, off: nat, jumps: nat)
    requires At(buf, off, [0])
    ensures Labels(buf, off, jumps) == Success([]) && NameEnd(buf, off) == off + 1
  {
    assert buf[off] == buf[off..off + 1][0];
  }

  lemma {:induction false} WireLabelsRoundTrip(buf: seq<byte>, off: nat, labels: seq<Text>, jumps: nat)
    requires WfLabels(labels) && At(buf, off, WireLabels(labels))
    ensures Labels(buf, off, jumps) == Success(labels)
    ensures NameEnd(buf, off) == off + |WireLabels(labels)|
    decreases |labels|
  {
    hide Labels, NameEnd;
    if labels == [] {
      NoLabel(buf, off, jumps);
    } else {
      var l, rest := labels[0], WireLabels(labels[1..]);
      assert WireLabels(labels) == [|l|] + l + rest;
      hide WireLabels;
      AtSplit(buf, off, [|l|] + l, rest);
      AtSplit(buf, off, [|l|], l);
      hide At;
      WireLabelsRoundTrip(buf, off + 1 + |l|, labels[1..], jumps);
      OneLabel(buf, off, l, labels[1..], jumps);
      assert labels == [l] + labels[1..];
    }
  }

  lemma {:induction false} WireLengthOf(labels: seq<Text>)
    ensures WireLength(labels).Success? <==> WfLabels(labels)
    ensures WfLabels(labels) && |labels| > 0 ==>
              WireLength(labels).value == |Join(labels, DOT)| + 2 == |WireLabels(labels)|
    ensures WfLabels(labels) ==> WireLength(labels).value == |WireLabels(labels)|
  {
    if labels != [] {
      WireLengthOf(labels[1..]);
      assert labels == [labels[0]] + labels[1..];
      assert WfLabels(labels) <==> 0 < |labels[0]| <= MAX_LABEL && WfLabels(labels[1..]);
      if WfLabels(labels) && |labels| == 1 {
        assert labels[1..] == [];
      }
    }
  }

  /** The encoder accepts a non-root ASCII text exactly when it is a well-formed name ("." aside). */
  lemma EncodableName(n: Text)
    requires Ascii(n) && n != [DOT]
    ensures EncName(n).Success? <==> WfName(n)
    ensures WfName(n) ==> |EncName(n).value| <= MAX_NAME
  {
    WireLengthOf(SplitOn(n, DOT));
    JoinSplit(n, DOT);
  }

  lemma NameRoundTrip(buf: seq<byte>, off: nat, n: Text)
    requires WfName(n) && EncName(n).Success? && At(buf, off, EncName(n).value)
    ensures NameAt(buf, off) == Success((n, off + |EncName(n).value|))
  {
    if n == [] {
      assert buf[off] == buf[off..off + 1][0];
    } else {
      var labels := SplitOn(n, DOT);
      WireLabelsRoundTrip(buf, off, labels, MAX_JUMPS);
      JoinSplit(n, DOT);
    }
  }

  // ---------------------------------------------------------------- addresses

  lemma {:induction false} OctetsRoundTrip(b: seq<byte>)
    ensures EncOctets(Octets(b)) == Success(b)
    ensures Free(Octets(b), DOT)
  {
    if b != [] {
      OctetsRoundTrip(b[1..]);
      ParsePrintDecimal(b[0]);
      assert Octets(b)[0] == Decimal(b[0]) && Octets(b)[1..] == Octets(b[1..]);
      assert b == [b[0]] + b[1..];
      assert Octets(b) == [Octets(b)[0]] + Octets(b[1..]);
    }
  }

  lemma IPv4RoundTrip(b: seq<byte>)
    requires |b| == 4
    ensures EncIPv4(Join(Octets(b), DOT)) == Success(b)
  {
    OctetsRoundTrip(b);
    SplitJoin(Octets(b), DOT);
  }

  /** The i-th part is digits, and their value the i-th byte. */
  ghost predicate OctetAt(parts: seq<Text>, b: seq<byte>, i: nat)
    requires i < |parts| == |b|
  {
    IsDigits(parts[i]) && DigitsValue(parts[i]) == b[i]
  }

  lemma OctetsTail(parts: seq<Text>, b: seq<byte>)
    requires parts != [] && |b| == |parts|
    ensures (forall i :: 0 <= i < |parts| ==> OctetAt(parts, b, i)) <==>
              OctetAt(parts, b, 0) && forall i :: 0 <= i < |parts| - 1 ==> OctetAt(parts[1..], b[1..], i)
  {
    hide IsDigits, DigitsValue;
    forall i | 0 <= i < |parts| - 1 ensures OctetAt(parts[1..], b[1..], i) <==> OctetAt(parts, b, i + 1) {
    }
    if forall i :: 0 <= i < |parts| - 1 ==> OctetAt(parts[1..], b[1..], i) {
      forall i | 0 < i < |parts| ensures OctetAt(parts, b, i) {
        assert OctetAt(parts[1..], b[1..], i - 1);
      }
    }
  }

  lemma OneByte(n: byte, t: seq<byte>, b: seq<byte>)
    ensures [n] + t == b <==> b != [] && t == b[1..] && n == b[0]
  {
    if b != [] && t == b[1..] && n == b[0] {
      assert b == [b[0]] + t;
    }
  }

  lemma {:induction false} OctetsExactly(parts: seq<Text>, b: seq<byte>)
    ensures EncOctets(parts) == Success(b) <==>
              |b| == |parts| && forall i :: 0 <= i < |parts| ==> OctetAt(parts, b, i)
    decreases |parts|
  {
    hide DigitsValue, IsDigits;
    if parts != [] && b != [] {
      OctetsExactly(parts[1..], b[1..]);
      if |b| == |parts| {
        OctetsTail(parts, b);
      }
      var n, rest := ParseDecimal(parts[0]), EncOctets(parts[1..]);
      if n.Some? && n.value < 256 && rest.Success? {
        OneByte(n.value, rest.value, b);
      }
    }
  }

  /** An address is encoded exactly when it has four parts between dots, each nothing but digits of a value below 256,
      and then as those values. */
  lemma IPv4Exactly(address: Text, b: seq<byte>)
    ensures EncIPv4(address) == Success(b) <==>
              var parts := SplitOn(address, DOT);
              |parts| == |b| == 4 && forall i :: 0 <= i < 4 ==> OctetAt(parts, b, i)
  {
    hide SplitOn, EncOctets, OctetAt;
    OctetsExactly(SplitOn(address, DOT), b);
  }

  /** The i-th group in hexadecimal is the number of the i-th two bytes. */
  ghost predicate GroupAt(groups: seq<Text>, b: seq<byte>, i: nat)
    requires i < |groups| && |b| == 2 * |groups|
  {
    ParseHex(groups[i]) == Some(256 * (b[2 * i] as nat) + b[2 * i + 1])
  }

  lemma GroupsTail(groups: seq<Text>, b: seq<byte>)
    requires groups != [] && |b| == 2 * |groups|
    ensures (forall i :: 0 <= i < |groups| ==> GroupAt(groups, b, i)) <==>
              GroupAt(groups, b, 0) && forall i :: 0 <= i < |groups| - 1 ==> GroupAt(groups[1..], b[2..], i)
  {
    hide ParseHex;
    forall i | 0 <= i < |groups| - 1 ensures GroupAt(groups[1..], b[2..], i) <==> GroupAt(groups, b, i + 1) {
      assert b[2..][2 * i] == b[2 * (i + 1)] && b[2..][2 * i + 1] == b[2 * (i + 1) + 1];
    }
    if forall i :: 0 <= i < |groups| - 1 ==> GroupAt(groups[1..], b[2..], i) {
      forall i | 0 < i < |groups| ensures GroupAt(groups, b, i) {
        assert GroupAt(groups[1..], b[2..], i - 1);
      }
    }
  }

  lemma GroupBytes(n: nat, t: seq<byte>, b: seq<byte>)
    requires n < 0x1_0000
    ensures U16(n) + t == b <==> |b| >= 2 && t == b[2..] && n == 256 * (b[0] as nat) + b[1]
  {
    if U16(n) + t == b {
      assert b[0] == n / 256 && b[1] == n % 256 && b[2..] == t;
    }
    if |b| >= 2 && t == b[2..] && n == 256 * (b[0] as nat) + b[1] {
      assert U16(n) == [b[0], b[1]];
      assert b == [b[0], b[1]] + t;
    }
  }

  /** Groups are encoded exactly when each is hexadecimal digits of a value below 65536, and then as those values. */
  lemma {:induction false} GroupsExactly(groups: seq<Text>, b: seq<byte>)
    ensures EncGroups(groups) == Success(b) <==>
              |b| == 2 * |groups| && forall i :: 0 <= i < |groups| ==> GroupAt(groups, b, i)
    decreases |groups|
  {
    hide ParseHex, U16;
    if groups != [] && |b| >= 2 {
      GroupsExactly(groups[1..], b[2..]);
      if |b| == 2 * |groups| {
        GroupsTail(groups, b);
      }
      var n, rest := ParseHex(groups[0]), EncGroups(groups[1..]);
      if n.Some? && n.value < 0x1_0000 && rest.Success? {
        GroupBytes(n.value, rest.value, b);
      }
    } else if groups != [] && EncGroups(groups).Success? {
      U16Length(ParseHex(groups[0]).value);
    }
  }

  lemma GroupsFirst(b: seq<byte>)
    requires |b| >= 2 && |b| % 2 == 0
    ensures var g := b[0] as int * 256 + b[1];
            && Groups(b) == [Hex(g)] + Groups(b[2..])
            && Groups(b)[0] == Hex(g) && Groups(b)[1..] == Groups(b[2..]) && U16(g) + b[2..] == b
  {
    hide Hex;
  }

  lemma {:induction false} GroupsRoundTrip(b: seq<byte>)
    requires |b| % 2 == 0
    ensures EncGroups(Groups(b)) == Success(b)
    ensures ColonFree(Groups(b))
  {
    hide Hex, ParseHex, ColonFree, U16;
    if b != [] {
      var g := b[0] as int * 256 + b[1];
      GroupsRoundTrip(b[2..]);
      ParsePrintHex(g);
      GroupsFirst(b);
      hide Groups;
      ColonFreeCons(Hex(g), Groups(b[2..]));
    } else {
      ColonFreeNil();
    }
  }

  lemma ColonFreeCons(part: Text, rest: seq<Text>)
    requires part != [] && COLON !in part && ColonFree(rest)
    ensures ColonFree([part] + rest)
  {
  }

  lemma ColonFreeNil()
    ensures ColonFree([])
  {
  }

  ghost predicate ColonFree(parts: seq<Text>) {
    forall i :: 0 <= i < |parts| ==> parts[i] != [] && COLON !in parts[i]
  }

  ghost predicate DoubleAt(t: Text, i: nat) {
    i + 1 < |t| && t[i] == COLON && t[i + 1] == COLON
  }

  /** FindDouble finds the first "::". */
  lemma {:induction false} FindDoubleFirst(t: Text, i: nat)
    requires i <= |t| && (i == |t| || DoubleAt(t, i)) && forall k: nat :: k < i ==> !DoubleAt(t, k)
    ensures FindDouble(t) == i
  {
    if i > 0 {
      assert !DoubleAt(t, 0);
      forall k: nat | k < i - 1 ensures !DoubleAt(t[1..], k) {
        assert !DoubleAt(t, k + 1);
      }
      if |t| >= 2 {
        FindDoubleFirst(t[1..], i - 1);
      }
    }
  }

  /** Joining non-empty colon-free parts makes no "::", and no colon at either end. */
  lemma {:induction false} JoinNoDouble(parts: seq<Text>)
    requires ColonFree(parts) && parts != []
    ensures var t := Join(parts, COLON);
            && t != [] && t[0] != COLON && t[|t| - 1] != COLON && forall k: nat :: !DoubleAt(t, k)
  {
    if |parts| > 1 {
      JoinNoDouble(parts[1..]);
      var p, t, rest := parts[0], Join(parts, COLON), Join(parts[1..], COLON);
      assert t == p + [COLON] + rest;
      assert t[0] == p[0] && t[|t| - 1] == rest[|rest| - 1];
      forall k: nat ensures !DoubleAt(t, k) {
        if k + 1 < |t| {
          if k > |p| {
            assert t[k] == rest[k - |p| - 1] && t[k + 1] == rest[k - |p|];
            assert !DoubleAt(rest, k - |p| - 1);
          } else if k == |p| {
            assert t[k + 1] == rest[0];
          } else {
            assert t[k] == p[k];
          }
        }
      }
    } else {
      assert forall k :: 0 <= k < |parts[0]| ==> parts[0][k] in parts[0];
    }
  }

  lemma IPv6RoundTrip(b: seq<byte>)
    requires |b| == 16
    ensures EncIPv6(Join(Groups(b), COLON)) == Success(b)
  {
    GroupsRoundTrip(b);
    var t := Join(Groups(b), COLON);
    JoinedParts(Groups(b));
    assert t[..|t|] == t;
  }

  lemma JoinedParts(parts: seq<Text>)
    requires ColonFree(parts)
    ensures ColonParts(Join(parts, COLON)) == parts
    ensures FindDouble(Join(parts, COLON)) == |Join(parts, COLON)|
  {
    var t := Join(parts, COLON);
    if parts != [] {
      JoinNoDouble(parts);
      SplitJoin(parts, COLON);
    }
    FindDoubleFirst(t, |t|);
  }

  lemma DoubleFound(left: seq<Text>, r: Text)
    requires ColonFree(left)
    ensures FindDouble(Join(left, COLON) + [COLON, COLON] + r) == |Join(left, COLON)|
  {
    var l := Join(left, COLON);
    var t := l + [COLON, COLON] + r;
    if left != [] {
      JoinNoDouble(left);
    }
    forall k: nat | k < |l| ensures !DoubleAt(t, k) {
      assert !DoubleAt(l, k);
    }
    assert t[|l|] == COLON && t[|l| + 1] == COLON;
    FindDoubleFirst(t, |l|);
  }

  /** Shorthand: "left::right" stands for the groups of left, then zeros, then the groups of right. */
  lemma IPv6Shorthand(left: seq<Text>, right: seq<Text>)
    requires ColonFree(left) && ColonFree(right) && |left| + |right| <= 8
    ensures EncIPv6(Join(left, COLON) + [COLON, COLON] + Join(right, COLON))
         == EncGroups(left + seq(8 - |left| - |right|, _ => [48]) + right)
  {
    hide EncGroups, Join, FindDouble, ColonParts, ColonFree;
    var l, r := Join(left, COLON), Join(right, COLON);
    var t := l + [COLON, COLON] + r;
    DoubleFound(left, r);
    JoinedParts(left);
    JoinedParts(right);
    assert t[..|l|] == l && t[|l| + 2..] == r && r[..|r|] == r;
    assert V6Groups(t) == Some(left + seq(8 - |left| - |right|, _ => [48]) + right);
  }

  // ---------------------------------------------------------------- records

  /** One string at off, and then the others. */
  lemma OneString(buf: seq<byte>, off: nat, end: nat, s: Text, rest: seq<Text>)
    requires |s| <= 255 && off < end && At(buf, off, [|s|]) && At(buf, off + 1, s)
    requires StringsAt(buf, off + 1 + |s|, end) == Success((rest, end))
    ensures StringsAt(buf, off, end) == Success(([s] + rest, end))
  {
    assert buf[off] == buf[off..off + 1][0];
  }

  lemma NoString(buf: seq<byte>, off: nat)
    ensures EncStrings([]) == Success([]) && StringsAt(buf, off, off) == Success(([], off))
  {
  }

  lemma FirstString(strings: seq<Text>)
    requires strings != [] && EncStrings(strings).Success?
    ensures var s, e := strings[0], EncStrings(strings[1..]);
            e.Success? && EncStrings(strings).value == [|s|] + s + e.value
  {
  }

  lemma {:induction false} StringsRead(buf: seq<byte>, off: nat, strings: seq<Text>, enc: seq<byte>)
    requires forall i :: 0 <= i < |strings| ==> |strings[i]| <= 255
    requires EncStrings(strings) == Success(enc) && At(buf, off, enc)
    ensures StringsAt(buf, off, off + |enc|) == Success((strings, off + |enc|))
    decreases |strings|
  {
    hide EncStrings, StringsAt;
    if strings == [] {
      NoString(buf, off);
    } else {
      FirstString(strings);
      var s, e := strings[0], EncStrings(strings[1..]).value;
      AtSplit(buf, off, [|s|] + s, e);
      AtSplit(buf, off, [|s|], s);
      hide At;
      StringsRead(buf, off + 1 + |s|, strings[1..], e);
      OneString(buf, off, off + |enc|, s, strings[1..]);
      assert strings == [s] + strings[1..];
    }
  }

  lemma StringsRoundTrip(buf: seq<byte>, off: nat, strings: seq<Text>)
    requires forall i :: 0 <= i < |strings| ==> |strings[i]| <= 255
    ensures EncStrings(strings).Success?
    ensures At(buf, off, EncStrings(strings).value) ==>
              var end := off + |EncStrings(strings).value|;
              StringsAt(buf, off, end) == Success((strings, end))
  {
    hide EncStrings, StringsAt, At;
    StringsEncode(strings);
    if At(buf, off, EncStrings(strings).value) {
      StringsRead(buf, off, strings, EncStrings(strings).value);
    }
  }

  lemma SoaRoundTrip(buf: seq<byte>, off: nat, d: RData)
    requires d.SOA? && WfRData(d) && EncBody(d).Success? && At(buf, off, EncBody(d).value)
    ensures SoaAt(buf, off) == Success((d, off + |EncBody(d).value|))
  {
    hide U32, U32At, EncName, NameAt, WfName;
    var m, r := EncName(d.mname).value, EncName(d.rname).value;
    var e5 := U32(d.minimum);
    var e4 := U32(d.expire) + e5;
    var e3 := U32(d.retry) + e4;
    var e2 := U32(d.refresh) + e3;
    var e1 := U32(d.serial) + e2;
    AtSplit(buf, off, m, r + e1);
    NameRoundTrip(buf, off, d.mname);
    var o := off + |m|;
    AtSplit(buf, o, r, e1);
    NameRoundTrip(buf, o, d.rname);
    o := o + |r|;
    AtSplit(buf, o, U32(d.serial), e2);
    U32RoundTrip(buf, o, d.serial);
    U32Length(d.serial); U32Length(d.refresh); U32Length(d.retry); U32Length(d.expire); U32Length(d.minimum);
    AtSplit(buf, o + 4, U32(d.refresh), e3);
    U32RoundTrip(buf, o + 4, d.refresh);
    AtSplit(buf, o + 8, U32(d.retry), e4);
    U32RoundTrip(buf, o + 8, d.retry);
    AtSplit(buf, o + 12, U32(d.expire), e5);
    U32RoundTrip(buf, o + 12, d.expire);
    U32RoundTrip(buf, o + 16, d.minimum);
  }

  lemma U32Length(v: nat)
    ensures |U32(v)| == 4
  {
  }

  /** The data of every record type reads back, from a buffer holding it with its length. */
  lemma RDataRoundTrip(buf: seq<byte>, off: nat, d: RData)
    requires WfRData(d) && EncBody(d).Success? && At(buf, off, EncBody(d).value)
    ensures RDataAt(buf, off, TypeOf(d), |EncBody(d).value|) == Success((d, off + |EncBody(d).value|))
  {
    hide NameAt, EncName, StringsAt, EncStrings, EncIPv4, EncIPv6, SoaAt, U16, Octets, Groups;
    var e := EncBody(d).value;
    match d
    case A(address) =>
      var b: seq<byte> :| |b| == 4 && address == Join(Octets(b), DOT);
      IPv4RoundTrip(b);
    case AAAA(address) =>
      var b: seq<byte> :| |b| == 16 && address == Join(Groups(b), COLON);
      IPv6RoundTrip(b);
    case CNAME(target) => NameRoundTrip(buf, off, target);
    case NS(target) => NameRoundTrip(buf, off, target);
    case MX(preference, exchange) =>
      AtSplit(buf, off, U16(preference), EncName(exchange).value);
      U16RoundTrip(buf, off, preference);
      U16Length(preference);
      NameRoundTrip(buf, off + 2, exchange);
    case TXT(strings) => StringsRoundTrip(buf, off, strings);
    case SOA(_, _, _, _, _, _, _) => SoaRoundTrip(buf, off, d);
  }

  lemma U16Length(v: int)
    ensures |U16(v)| == 2
  {
  }

  lemma RecordRoundTrip(buf: seq<byte>, off: nat, r: Record)
    requires WfRecord(r) && EncRecord(r).Success? && At(buf, off, EncRecord(r).value)
    ensures RecordAt(buf, off) == Success((r, off + |EncRecord(r).value|))
  {
    hide NameAt, EncName, RDataAt, EncBody, U16, U32, U16At, U32At, WfName, At;
    var n, body := EncName(r.name).value, EncBody(r.data).value;
    var t, c, l := U16(TypeOf(r.data)), U16(r.class_), U32(r.ttl);
    U16Length(TypeOf(r.data)); U16Length(r.class_); U32Length(r.ttl); U16Length(|body|);
    AtSplit(buf, off, n, t + (c + (l + (U16(|body|) + body))));
    NameRoundTrip(buf, off, r.name);
    var o := off + |n|;
    AtSplit(buf, o, t, c + (l + (U16(|body|) + body)));
    U16RoundTrip(buf, o, TypeOf(r.data));
    AtSplit(buf, o + 2, c, l + (U16(|body|) + body));
    U16RoundTrip(buf, o + 2, r.class_);
    AtSplit(buf, o + 4, l, U16(|body|) + body);
    U32RoundTrip(buf, o + 4, r.ttl);
    AtSplit(buf, o + 8, U16(|body|), body);
    U16RoundTrip(buf, o + 8, |body|);
    RDataRoundTrip(buf, o + 10, r.data);
  }

  lemma EncRecordsStep(r: Record, rest: seq<Record>)
    requires EncRecords([r] + rest).Success?
    ensures EncRecord(r).Success? && EncRecords(rest).Success?
    ensures EncRecords([r] + rest).value == EncRecord(r).value + EncRecords(rest).value
  {
    hide EncRecord;
    assert ([r] + rest)[1..] == rest;
  }

  lemma {:induction false} RecordsRoundTrip(buf: seq<byte>, off: nat, records: seq<Record>)
    requires WfRecords(records) && EncRecords(records).Success? && At(buf, off, EncRecords(records).value)
    ensures RecordsAt(buf, off, |records|) == Success((records, off + |EncRecords(records).value|))
    decreases |records|
  {
    hide RecordAt, EncRecord, WfRecord, At;
    if records != [] {
      var r, rest := records[0], records[1..];
      assert records == [r] + rest;
      hide EncRecords;
      EncRecordsStep(r, rest);
      var first, more := EncRecord(r).value, EncRecords(rest).value;
      AtSplit(buf, off, first, more);
      RecordRoundTrip(buf, off, r);
      RecordsRoundTrip(buf, off + |first|, rest);
    }
  }

  lemma QuestionRoundTrip(buf: seq<byte>, off: nat, q: Question)
    requires WfQuestions([q]) && EncQuestion(q).Success? && At(buf, off, EncQuestion(q).value)
    ensures QuestionAt(buf, off) == Success((q, off + |EncQuestion(q).value|))
  {
    hide NameAt, EncName, WfName, U16, U16At, At;
    assert q == [q][0];
    var n := EncName(q.name).value;
    U16Length(q.qtype); U16Length(q.qclass);
    AtSplit(buf, off, n, U16(q.qtype) + U16(q.qclass));
    AtSplit(buf, off + |n|, U16(q.qtype), U16(q.qclass));
    NameRoundTrip(buf, off, q.name);
    U16RoundTrip(buf, off + |n|, q.qtype);
    U16RoundTrip(buf, off + |n| + 2, q.qclass);
  }

  lemma EncQuestionsStep(q: Question, rest: seq<Question>)
    requires EncQuestions([q] + rest).Success?
    ensures EncQuestion(q).Success? && EncQuestions(rest).Success?
    ensures EncQuestions([q] + rest).value == EncQuestion(q).value + EncQuestions(rest).value
  {
    hide EncQuestion;
    assert ([q] + rest)[1..] == rest;
  }

  lemma {:induction false} QuestionsRoundTrip(buf: seq<byte>, off: nat, questions: seq<Question>)
    requires WfQuestions(questions) && EncQuestions(questions).Success? && At(buf, off, EncQuestions(questions).value)
    ensures QuestionsAt(buf, off, |questions|) == Success((questions, off + |EncQuestions(questions).value|))
    decreases |questions|
  {
    hide QuestionAt, EncQuestion, WfName, At;
    if questions != [] {
      var q, rest := questions[0], questions[1..];
      assert questions == [q] + rest;
      hide EncQuestions;
      EncQuestionsStep(q, rest);
      var first, more := EncQuestion(q).value, EncQuestions(rest).value;
      AtSplit(buf, off, first, more);
      QuestionRoundTrip(buf, off, q);
      QuestionsRoundTrip(buf, off + |first|, rest);
    }
  }

  // ---------------------------------------------------------------- well-formed means encodable

  lemma {:induction false} StringsEncode(strings: seq<Text>)
    requires forall i :: 0 <= i < |strings| ==> |strings[i]| <= 255
    ensures EncStrings(strings).Success?
  {
    if strings != [] {
      StringsEncode(strings[1..]);
    }
  }

  lemma NameEncodes(n: Text)
    requires WfName(n)
    ensures EncName(n).Success?
  {
    WireLengthOf(SplitOn(n, DOT));
    JoinSplit(n, DOT);
  }

  lemma BodyEncodes(d: RData)
    requires WfRData(d)
    ensures EncBody(d).Success?
  {
    hide EncName, EncStrings, EncIPv4, EncIPv6, WfName, Octets, Groups, U16, U32, Join;
    match d
    case A(address) =>
      var b: seq<byte> :| |b| == 4 && address == Join(Octets(b), DOT);
      IPv4RoundTrip(b);
    case AAAA(address) =>
      var b: seq<byte> :| |b| == 16 && address == Join(Groups(b), COLON);
      IPv6RoundTrip(b);
    case CNAME(target) => NameEncodes(target);
    case NS(target) => NameEncodes(target);
    case MX(_, exchange) => NameEncodes(exchange);
    case TXT(strings) => StringsEncode(strings);
    case SOA(mname, rname, _, _, _, _, _) =>
      NameEncodes(mname);
      NameEncodes(rname);
  }

  lemma {:induction false} RecordsEncode(records: seq<Record>)
    requires WfRecords(records)
    ensures EncRecords(records).Success?
  {
    hide EncName, EncBody, WfRData, WfName, U16, U32;
    if records != [] {
      NameEncodes(records[0].name);
      BodyEncodes(records[0].data);
      RecordsEncode(records[1..]);
    }
  }

  lemma {:induction false} QuestionsEncode(questions: seq<Question>)
    requires WfQuestions(questions)
    ensures EncQuestions(questions).Success?
  {
    hide EncName, WfName;
    if questions != [] {
      NameEncodes(questions[0].name);
      QuestionsEncode(questions[1..]);
    }
  }

  // ---------------------------------------------------------------- messages

  /** Packing and unpacking the flag word. */
  lemma FlagsRoundTrip(h: Header)
    requires h.opcode < 16 && h.z < 8 && h.rcode < 16
    ensures Flags(h) < 0x1_0000
    ensures FlagsHeader(h.id, Flags(h), h.qdcount, h.ancount, h.nscount, h.arcount) == h
  {
    FlagsNested(h);
    hide Flags;
    Unpack(Flags(h), Bit(h.qr, 1), h.opcode, Bit(h.aa, 1), Bit(h.tc, 1), Bit(h.rd, 1), Bit(h.ra, 1), h.z, h.rcode);
  }

  /** The flag word, most significant field innermost. */
  function Nested(qr: nat, op: nat, aa: nat, tc: nat, rd: nat, ra: nat, z: nat, rcode: nat): nat {
    16 * (8 * (2 * (2 * (2 * (2 * (16 * qr + op) + aa) + tc) + rd) + ra) + z) + rcode
  }

  lemma FlagsNested(h: Header)
    requires h.opcode < 16 && h.z < 8 && h.rcode < 16
    ensures Flags(h) == Nested(Bit(h.qr, 1), h.opcode, Bit(h.aa, 1), Bit(h.tc, 1), Bit(h.rd, 1), Bit(h.ra, 1),
                               h.z, h.rcode)
  {
    hide Bit, Nested, Flags;
    BitWeight(h.qr);
    BitWeight(h.aa);
    BitWeight(h.tc);
    BitWeight(h.rd);
    BitWeight(h.ra);
    FlagsSum(h);
    Expanded(Bit(h.qr, 1), h.opcode, Bit(h.aa, 1), Bit(h.tc, 1), Bit(h.rd, 1), Bit(h.ra, 1), h.z, h.rcode);
  }

  lemma FlagsSum(h: Header)
    requires h.opcode < 16 && h.z < 8 && h.rcode < 16
    ensures Flags(h) == Bit(h.qr, 0x8000) + h.opcode * 0x800 + Bit(h.aa, 0x400) + Bit(h.tc, 0x200)
                        + Bit(h.rd, 0x100) + Bit(h.ra, 0x80) + h.z * 16 + h.rcode
  {
    hide Bit;
    SmallMod(h.opcode, h.z, h.rcode);
  }

  lemma SmallMod(op: nat, z: nat, rcode: nat)
    requires op < 16 && z < 8 && rcode < 16
    ensures op % 16 == op && z % 8 == z && rcode % 16 == rcode
  {
  }

  lemma Expanded(qr: nat, op: nat, aa: nat, tc: nat, rd: nat, ra: nat, z: nat, rcode: nat)
    ensures Nested(qr, op, aa, tc, rd, ra, z, rcode)
         == 0x8000 * qr + op * 0x800 + 0x400 * aa + 0x200 * tc + 0x100 * rd + 0x80 * ra + z * 16 + rcode
  {
  }

  lemma BitWeight(b: bool)
    ensures Bit(b, 0x80) == 0x80 * Bit(b, 1) && Bit(b, 0x100) == 0x100 * Bit(b, 1)
    ensures Bit(b, 0x200) == 0x200 * Bit(b, 1) && Bit(b, 0x400) == 0x400 * Bit(b, 1)
    ensures Bit(b, 0x8000) == 0x8000 * Bit(b, 1)
  {
  }

  lemma Unpack(v: nat, qr: nat, op: nat, aa: nat, tc: nat, rd: nat, ra: nat, z: nat, rcode: nat)
    requires qr < 2 && op < 16 && aa < 2 && tc < 2 && rd < 2 && ra < 2 && z < 8 && rcode < 16
    requires v == Nested(qr, op, aa, tc, rd, ra, z, rcode)
    ensures v < 0x1_0000 && v % 16 == rcode && (v / 16) % 8 == z && (v / 0x80) % 2 == ra && (v / 0x100) % 2 == rd
    ensures (v / 0x200) % 2 == tc && (v / 0x400) % 2 == aa && (v / 0x800) % 16 == op && (v / 0x8000) % 2 == qr
  {
    var v11 := 16 * qr + op;
    var v10 := 2 * v11 + aa;
    var v9 := 2 * v10 + tc;
    var v8 := 2 * v9 + rd;
    var v7 := 2 * v8 + ra;
    var v4 := 8 * v7 + z;
    Quotient(v, 16, v4, rcode);
    Quotient(v4, 8, v7, z);
    Quotient(v7, 2, v8, ra);
    Quotient(v8, 2, v9, rd);
    Quotient(v9, 2, v10, tc);
    Quotient(v10, 2, v11, aa);
    Quotient(v11, 16, qr, op);
    Quotient(v, 0x80, v7, 16 * z + rcode);
    Quotient(v, 0x100, v8, 0x80 * ra + 16 * z + rcode);
    Quotient(v, 0x200, v9, v - 0x200 * v9);
    Quotient(v, 0x400, v10, v - 0x400 * v10);
    Quotient(v, 0x800, v11, v - 0x800 * v11);
    Quotient(v, 0x8000, qr, v - 0x8000 * qr);
  }

  lemma Quotient(v: nat, d: nat, q: nat, r: nat)
    requires d in {2, 8, 16, 0x80, 0x100, 0x200, 0x400, 0x800, 0x8000}
    requires v == d * q + r && r < d
    ensures v / d == q && v % d == r
  {
    if {
      case d == 2 => assert v == 2 * q + r;
      case d == 8 => assert v == 8 * q + r;
      case d == 16 => assert v == 16 * q + r;
      case d == 0x80 => assert v == 0x80 * q + r;
      case d == 0x100 => assert v == 0x100 * q + r;
      case d == 0x200 => assert v == 0x200 * q + r;
      case d == 0x400 => assert v == 0x400 * q + r;
      case d == 0x800 => assert v == 0x800 * q + r;
      case d == 0x8000 => assert v == 0x8000 * q + r;
    }
  }

  lemma HeaderRoundTrip(buf: seq<byte>, m: Message)
    requires WfHeader(m) && At(buf, 0, EncHeader(m))
    ensures HeaderAt(buf, 0) == Success((m.header, 12))
  {
    FlagsRoundTrip(m.header);
    hide U16, U16At, FlagsHeader, Flags;
    var h := m.header;
    var e5 := U16(|m.additionals|);
    var e4 := U16(|m.authorities|) + e5;
    var e3 := U16(|m.answers|) + e4;
    var e2 := U16(|m.questions|) + e3;
    var e1 := U16(Flags(h)) + e2;
    U16Length(h.id); U16Length(Flags(h)); U16Length(h.qdcount); U16Length(h.ancount); U16Length(h.nscount);
    AtSplit(buf, 0, U16(h.id), e1);
    U16RoundTrip(buf, 0, h.id);
    AtSplit(buf, 2, U16(Flags(h)), e2);
    U16RoundTrip(buf, 2, Flags(h));
    AtSplit(buf, 4, U16(|m.questions|), e3);
    U16RoundTrip(buf, 4, h.qdcount);
    AtSplit(buf, 6, U16(|m.answers|), e4);
    U16RoundTrip(buf, 6, h.ancount);
    AtSplit(buf, 8, U16(|m.authorities|), e5);
    U16RoundTrip(buf, 8, h.nscount);
    U16RoundTrip(buf, 10, h.arcount);
  }

  /** Every well-formed message encodes, and decoding its encoding gives back the message. */
  lemma MessageRoundTrip(m: Message)
    requires WfMessage(m)
    ensures EncMessage(m).Success? && MessageAt(EncMessage(m).value) == Success(m)
  {
    hide EncHeader, EncQuestions, EncRecords, HeaderAt, QuestionsAt, RecordsAt, WfRecords, WfQuestions;
    QuestionsEncode(m.questions);
    RecordsEncode(m.answers);
    RecordsEncode(m.authorities);
    RecordsEncode(m.additionals);
    var buf := EncMessage(m).value;
    var q, a, n, x := EncQuestions(m.questions).value, EncRecords(m.answers).value,
                      EncRecords(m.authorities).value, EncRecords(m.additionals).value;
    assert buf[0..|buf|] == buf;
    AtSplit(buf, 0, EncHeader(m), q + (a + (n + x)));
    HeaderRoundTrip(buf, m);
    HeaderLength(m);
    AtSplit(buf, 12, q, a + (n + x));
    QuestionsRoundTrip(buf, 12, m.questions);
    AtSplit(buf, 12 + |q|, a, n + x);
    RecordsRoundTrip(buf, 12 + |q|, m.answers);
    AtSplit(buf, 12 + |q| + |a|, n, x);
    RecordsRoundTrip(buf, 12 + |q| + |a|, m.authorities);
    RecordsRoundTrip(buf, 12 + |q| + |a| + |n|, m.additionals);
  }

  lemma HeaderLength(m: Message)
    ensures |EncHeader(m)| == 12
  {
  }

  /** The message with the counts of its own sections in the header. */
  function Counted(m: Message): Message {
    m.(header := m.header.(qdcount := |m.questions|, ancount := |m.answers|, nscount := |m.authorities|,
                           arcount := |m.additionals|))
  }

  /** Whatever counts the header holds, the encoder writes those of the sections, and they are what is decoded. */
  lemma CountsIgnored(m: Message)
    ensures EncMessage(m) == EncMessage(Counted(m))
    ensures WfMessage(Counted(m)) ==> EncMessage(m).Success? && MessageAt(EncMessage(m).value) == Success(Counted(m))
  {
    hide EncQuestions, EncRecords, MessageAt, WfQuestions, WfRecords;
    if WfMessage(Counted(m)) {
      MessageRoundTrip(Counted(m));
    }
  }
}
