/** The layout of a message in a buffer, as a relation between bytes and entities with the offsets, numbers and bits of
    section 4 of RFC 1035 written out; and that the decoder accepts exactly the buffers with this layout. */
module DnsWire {
  import opened Wrappers
  import opened Bytes
  import opened DnsMessage
  import opened DnsDecoding
  import opened DnsEncoding
  import opened DnsRoundTrip

  function BigEndian(b: seq<byte>): nat {
    if b == [] then 0 else 256 * BigEndian(b[..|b| - 1]) + b[|b| - 1]
  }

  /** n bytes from off on, which are there, and their value. */
  ghost predicate Number(buf: seq<byte>, off: nat, n: nat, v: nat) {
    off + n <= |buf| && v == BigEndian(buf[off..off + n])
  }

  // ---------------------------------------------------------------- names

  /** The labels stand one after the other, each behind its length. */
  ghost predicate InPlace(buf: seq<byte>, pos: nat, labels: seq<Text>)
    decreases |labels|
  {
    labels == [] ||
    (var l := labels[0];
     && 0 < |l| <= 63 && pos + 1 + |l| <= |buf| && buf[pos] == |l| && buf[pos + 1..pos + 1 + |l|] == l
     && InPlace(buf, pos + 1 + |l|, labels[1..]))
  }

  function Extent(labels: seq<Text>): nat {
    if labels == [] then 0 else 1 + |labels[0]| + Extent(labels[1..])
  }

  /** The first n labels stand in place. Behind them is the zero byte that ends a name, or the first of so many
      pointers, two bytes whose lower 14 bits say where the name goes on. */
  ghost predicate NameFrom(buf: seq<byte>, pos: nat, labels: seq<Text>, n: nat, pointers: nat, end: nat)
    decreases pointers, 0
  {
    && n <= |labels| && InPlace(buf, pos, labels[..n])
    && var p := pos + Extent(labels[..n]);
       if pointers == 0 then n == |labels| && p < |buf| && buf[p] == 0 && end == p + 1
       else
         && p + 1 < |buf| && buf[p] >= 192 && end == p + 2
         && NameLaid(buf, (buf[p] as int - 192) * 256 + buf[p + 1], labels[n..], pointers - 1)
  }

  ghost predicate NameLaid(buf: seq<byte>, pos: nat, labels: seq<Text>, pointers: nat)
    decreases pointers, 1
  {
    exists n: nat, end: nat :: NameFrom(buf, pos, labels, n, pointers, end)
  }

  ghost predicate NameText(buf: seq<byte>, pos: nat, name: Text, end: nat) {
    exists labels, n: nat, pointers: nat ::
      pointers <= 32 && NameFrom(buf, pos, labels, n, pointers, end) && name == Join(labels, 46) && |name| <= 255
  }

  ghost predicate Named(buf: seq<byte>, pos: nat, name: Text) {
    exists end: nat :: NameText(buf, pos, name, end)
  }

  lemma LabelInPlace(buf: seq<byte>, pos: nat, labels: seq<Text>, n: nat)
    requires pos < |buf| && 0 < buf[pos] <= 63 && pos + 1 + buf[pos] <= |buf| && n < |labels|
    requires labels[0] == buf[pos + 1..pos + 1 + buf[pos]] && InPlace(buf, pos + 1 + buf[pos], labels[1..][..n])
    ensures InPlace(buf, pos, labels[..n + 1])
    ensures Extent(labels[..n + 1]) == 1 + buf[pos] + Extent(labels[1..][..n])
  {
    assert labels[..n + 1][1..] == labels[1..][..n];
  }

  lemma NoLabelInPlace(buf: seq<byte>, pos: nat, labels: seq<Text>)
    ensures labels[..0] == [] && labels[0..] == labels && InPlace(buf, pos, labels[..0]) && Extent(labels[..0]) == 0
  {
  }

  /** One more label in front of a name. */
  lemma OneMoreLabel(buf: seq<byte>, pos: nat, labels: seq<Text>, n: nat, pointers: nat, end: nat)
    requires pos < |buf| && 0 < buf[pos] <= 63 && pos + 1 + buf[pos] <= |buf| && labels != []
    requires labels[0] == buf[pos + 1..pos + 1 + buf[pos]]
    requires NameFrom(buf, pos + 1 + buf[pos], labels[1..], n, pointers, end)
    ensures NameFrom(buf, pos, labels, n + 1, pointers, end)
  {
    LabelInPlace(buf, pos, labels, n);
    assert labels[1..][n..] == labels[n + 1..];
    hide InPlace, Extent, NameLaid;
  }

  /** The first label of a name, and the name without it. */
  lemma FirstLabel(buf: seq<byte>, pos: nat, labels: seq<Text>, n: nat, pointers: nat, end: nat)
    requires n > 0 && NameFrom(buf, pos, labels, n, pointers, end)
    ensures pos < |buf| && labels != [] && 0 < buf[pos] <= 63 && pos + 1 + buf[pos] <= |buf|
    ensures labels[0] == buf[pos + 1..pos + 1 + buf[pos]]
    ensures NameFrom(buf, pos + 1 + buf[pos], labels[1..], n - 1, pointers, end)
  {
    assert labels[..n][1..] == labels[1..][..n - 1] && labels[1..][n - 1..] == labels[n..];
    hide NameLaid;
  }

  lemma ZeroAt(buf: seq<byte>, pos: nat)
    requires pos < |buf| && buf[pos] == 0
    ensures NameFrom(buf, pos, [], 0, 0, pos + 1)
  {
    NoLabelInPlace(buf, pos, []);
  }

  lemma PointerFrom(buf: seq<byte>, pos: nat, labels: seq<Text>, pointers: nat)
    requires pos + 1 < |buf| && buf[pos] >= 192 && pointers > 0
    requires NameLaid(buf, PointerAt(buf, pos), labels, pointers - 1)
    ensures NameFrom(buf, pos, labels, 0, pointers, pos + 2)
  {
    NoLabelInPlace(buf, pos, labels);
    hide NameLaid, InPlace, Extent;
  }

  lemma {:induction false} DenotesLaid(buf: seq<byte>, pos: nat, labels: seq<Text>, pointers: nat) returns (n: nat)
    requires Denotes(buf, pos, labels, pointers)
    ensures NameFrom(buf, pos, labels, n, pointers, NameEnd(buf, pos))
    decreases pointers, |labels|
  {
    hide NameFrom, InPlace, Extent;
    if buf[pos] == 0 {
      n := 0;
      ZeroAt(buf, pos);
    } else if buf[pos] >= 192 {
      n := 0;
      var k := DenotesLaid(buf, PointerAt(buf, pos), labels, pointers - 1);
      PointerFrom(buf, pos, labels, pointers);
    } else {
      var k := DenotesLaid(buf, pos + 1 + buf[pos], labels[1..], pointers);
      OneMoreLabel(buf, pos, labels, k, pointers, NameEnd(buf, pos));
      n := k + 1;
    }
  }

  lemma {:induction false} LaidDenotes(buf: seq<byte>, pos: nat, labels: seq<Text>, n: nat, pointers: nat, end: nat)
    requires NameFrom(buf, pos, labels, n, pointers, end)
    ensures Denotes(buf, pos, labels, pointers) && end == NameEnd(buf, pos)
    decreases pointers, n
  {
    hide InPlace, Extent;
    if n > 0 {
      hide NameFrom;
      FirstLabel(buf, pos, labels, n, pointers, end);
      LaidDenotes(buf, pos + 1 + buf[pos], labels[1..], n - 1, pointers, end);
    } else {
      NoLabelInPlace(buf, pos, labels);
      if pointers > 0 {
        var k: nat, e: nat :| NameFrom(buf, PointerAt(buf, pos), labels, k, pointers - 1, e);
        LaidDenotes(buf, PointerAt(buf, pos), labels, k, pointers - 1, e);
      }
    }
  }

  lemma NameLayout(buf: seq<byte>, off: nat, name: Text, end: nat)
    ensures NameAt(buf, off) == Success((name, end)) <==> NameText(buf, off, name, end)
  {
    NameMeaning(buf, off, name, end);
    hide NameAt, NameEnd;
    if Spells(buf, off, name) && |name| <= MAX_NAME && end == NameEnd(buf, off) {
      var labels, pointers: nat :|
        pointers <= MAX_JUMPS && Denotes(buf, off, labels, pointers) && name == Join(labels, DOT);
      var n := DenotesLaid(buf, off, labels, pointers);
    }
    if NameText(buf, off, name, end) {
      var labels, n: nat, pointers: nat :|
        pointers <= 32 && NameFrom(buf, off, labels, n, pointers, end) && name == Join(labels, 46) && |name| <= 255;
      LaidDenotes(buf, off, labels, n, pointers, end);
    }
  }

  // ---------------------------------------------------------------- numbers

  lemma TwoBytes(buf: seq<byte>, off: nat, v: nat)
    ensures U16At(buf, off) == Success((v, off + 2)) <==> Number(buf, off, 2, v)
    ensures U16At(buf, off).Success? <==> off + 2 <= |buf|
  {
    if off + 2 <= |buf| {
      var b := buf[off..off + 2];
      assert b[..1][..0] == [] && b[..1][0] == buf[off] && b[1] == buf[off + 1];
      assert BigEndian(b[..1]) == 256 * BigEndian([]) + buf[off];
    }
  }

  lemma FourBytesAt(buf: seq<byte>, off: nat, v: nat)
    ensures U32At(buf, off) == Success((v, off + 4)) <==> Number(buf, off, 4, v)
    ensures U32At(buf, off).Success? <==> off + 4 <= |buf|
  {
    if off + 4 <= |buf| {
      var b := buf[off..off + 4];
      assert b[..3][..2] == b[..2] && b[..2][..1] == b[..1] && b[..1][..0] == [];
      assert BigEndian(b[..1]) == 256 * BigEndian([]) + buf[off];
      assert BigEndian(b[..2]) == 256 * BigEndian(b[..1]) + buf[off + 1];
      assert BigEndian(b[..3]) == 256 * BigEndian(b[..2]) + buf[off + 2];
    }
  }

  // ---------------------------------------------------------------- records

  /** The type numbers of section 3.2.2 of RFC 1035 and section 2.1 of RFC 3596. */
  function TypeNumber(d: RData): nat {
    match d
    case A(_) => 1
    case NS(_) => 2
    case CNAME(_) => 5
    case SOA(_, _, _, _, _, _, _) => 6
    case MX(_, _) => 15
    case TXT(_) => 16
    case AAAA(_) => 28
  }

  /** Strings, each behind its length, as long as they begin before the limit. */
  ghost predicate StringsLaid(buf: seq<byte>, off: nat, limit: nat, strings: seq<Text>, end: nat)
    decreases |strings|
  {
    if strings == [] then off >= limit && end == off
    else
      var s := strings[0];
      && off < limit && off + 1 + |s| <= |buf| && buf[off] == |s| && buf[off + 1..off + 1 + |s|] == s
      && StringsLaid(buf, off + 1 + |s|, limit, strings[1..], end)
  }

  ghost predicate SoaLaid(buf: seq<byte>, off: nat, d: RData, e: nat, f: nat)
    requires d.SOA?
  {
    && NameText(buf, off, d.mname, e) && NameText(buf, e, d.rname, f)
    && Number(buf, f, 4, d.serial) && Number(buf, f + 4, 4, d.refresh) && Number(buf, f + 8, 4, d.retry)
    && Number(buf, f + 12, 4, d.expire) && Number(buf, f + 16, 4, d.minimum)
  }

  /** Record data of that length; `end` is where the next record begins. */
  ghost predicate DataLaid(buf: seq<byte>, off: nat, length: nat, d: RData, end: nat) {
    && off + length <= |buf|
    && (d.TXT? || end == off + length)
    && match d
       case A(address) =>
         && length == 4
         && var (a, b, c, d) := (buf[off], buf[off + 1], buf[off + 2], buf[off + 3]);
            address == Join([Decimal(a), Decimal(b), Decimal(c), Decimal(d)], 46)
       case AAAA(address) =>
         && length == 16
         && var group := i requires 0 <= i < 8 => Hex(256 * (buf[off + 2 * i] as nat) + buf[off + 2 * i + 1]);
            address == Join(seq(8, group), 58)
       case NS(target) => Named(buf, off, target)
       case CNAME(target) => Named(buf, off, target)
       case MX(preference, exchange) => Number(buf, off, 2, preference) && Named(buf, off + 2, exchange)
       case TXT(strings) => StringsLaid(buf, off, off + length, strings, end)
       case SOA(_, _, _, _, _, _, _) => exists e: nat, f: nat :: SoaLaid(buf, off, d, e, f)
  }

  lemma {:induction false} StringsLayout(buf: seq<byte>, off: nat, limit: nat, strings: seq<Text>, end: nat)
    ensures StringsAt(buf, off, limit) == Success((strings, end)) <==> StringsLaid(buf, off, limit, strings, end)
    decreases |strings|
  {
    if off < limit && off < |buf| && strings != [] {
      var o2 := off + 1 + buf[off];
      if o2 <= |buf| {
        StringsLayout(buf, o2, limit, strings[1..], end);
        assert strings == [strings[0]] + strings[1..];
      }
    }
  }

  lemma SoaLayout(buf: seq<byte>, off: nat, d: RData)
    ensures SoaAt(buf, off).Success? && SoaAt(buf, off).value.0 == d <==>
              d.SOA? && exists e: nat, f: nat :: SoaLaid(buf, off, d, e, f)
  {
    hide NameAt, NameText, U32At, Number;
    if SoaAt(buf, off).Success? && SoaAt(buf, off).value.0 == d {
      var (m, e) := NameAt(buf, off).value;
      var (r, f) := NameAt(buf, e).value;
      NameLayout(buf, off, m, e);
      NameLayout(buf, e, r, f);
      SoaNumbers(buf, f, d);
      assert SoaLaid(buf, off, d, e, f);
    }
    if d.SOA? && exists e: nat, f: nat :: SoaLaid(buf, off, d, e, f) {
      var e: nat, f: nat :| SoaLaid(buf, off, d, e, f);
      NameLayout(buf, off, d.mname, e);
      NameLayout(buf, e, d.rname, f);
      SoaNumbers(buf, f, d);
      assert SoaAt(buf, off) == Success((d, f + 20));
    }
  }

  lemma SoaNumbers(buf: seq<byte>, f: nat, d: RData)
    requires d.SOA?
    ensures U32At(buf, f) == Success((d.serial, f + 4)) <==> Number(buf, f, 4, d.serial)
    ensures U32At(buf, f + 4) == Success((d.refresh, f + 8)) <==> Number(buf, f + 4, 4, d.refresh)
    ensures U32At(buf, f + 8) == Success((d.retry, f + 12)) <==> Number(buf, f + 8, 4, d.retry)
    ensures U32At(buf, f + 12) == Success((d.expire, f + 16)) <==> Number(buf, f + 12, 4, d.expire)
    ensures U32At(buf, f + 16) == Success((d.minimum, f + 20)) <==> Number(buf, f + 16, 4, d.minimum)
    ensures forall o: nat :: U32At(buf, o).Success? ==> U32At(buf, o).value.1 == o + 4
  {
    hide Number;
    FourBytesAt(buf, f, d.serial);
    FourBytesAt(buf, f + 4, d.refresh);
    FourBytesAt(buf, f + 8, d.retry);
    FourBytesAt(buf, f + 12, d.expire);
    FourBytesAt(buf, f + 16, d.minimum);
  }

  lemma NamedLayout(buf: seq<byte>, off: nat, name: Text)
    ensures Named(buf, off, name) <==> NameAt(buf, off).Success? && NameAt(buf, off).value.0 == name
  {
    hide NameAt, NameText;
    if NameAt(buf, off).Success? && NameAt(buf, off).value.0 == name {
      NameLayout(buf, off, name, NameAt(buf, off).value.1);
    }
    if Named(buf, off, name) {
      var end: nat :| NameText(buf, off, name, end);
      NameLayout(buf, off, name, end);
    }
  }

  lemma OctetsOf(buf: seq<byte>, off: nat)
    requires off + 4 <= |buf|
    ensures Octets(buf[off..off + 4])
         == [Decimal(buf[off]), Decimal(buf[off + 1]), Decimal(buf[off + 2]), Decimal(buf[off + 3])]
  {
    hide Decimal;
  }

  lemma GroupsOf(buf: seq<byte>, off: nat)
    requires off + 16 <= |buf|
    ensures Groups(buf[off..off + 16])
         == seq(8, i requires 0 <= i < 8 => Hex(256 * (buf[off + 2 * i] as nat) + buf[off + 2 * i + 1]))
  {
    hide Hex;
  }

  lemma SoaIsSoa(buf: seq<byte>, off: nat)
    ensures SoaAt(buf, off).Success? ==> SoaAt(buf, off).value.0.SOA?
  {
    hide NameAt, U32At;
  }

  /** Data of the type with the given number is laid out there. */
  lemma DataLayout(buf: seq<byte>, off: nat, rtype: nat, length: nat, d: RData, end: nat)
    ensures RDataAt(buf, off, rtype, length) == Success((d, end)) <==>
              rtype == TypeNumber(d) && DataLaid(buf, off, length, d, end)
  {
    hide NameAt, Named, U16At, U32At, Number, StringsAt, StringsLaid, SoaAt, SoaLaid;
    hide Octets, Groups, Decimal, Hex, Join;
    SoaIsSoa(buf, off);
    if off + length <= |buf| && rtype == TypeNumber(d) {
      match d
      case A(_) =>
        if length == 4 {
          OctetsOf(buf, off);
        }
      case AAAA(_) =>
        if length == 16 {
          GroupsOf(buf, off);
        }
      case NS(target) => NamedLayout(buf, off, target);
      case CNAME(target) => NamedLayout(buf, off, target);
      case MX(preference, exchange) =>
        TwoBytes(buf, off, preference);
        TwoAdvance(buf, off);
        NamedLayout(buf, off + 2, exchange);
      case TXT(strings) =>
        StringsLayout(buf, off, off + length, strings, end);
        if StringsAt(buf, off, off + length).Success? {
          var (read, stop) := StringsAt(buf, off, off + length).value;
          assert StringsAt(buf, off, off + length) == Success((read, stop));
        }
      case SOA(_, _, _, _, _, _, _) => SoaLayout(buf, off, d);
    }
  }

  lemma TwoAdvance(buf: seq<byte>, off: nat)
    ensures U16At(buf, off).Success? ==> U16At(buf, off).value.1 == off + 2
  {
  }

  lemma FourAdvance(buf: seq<byte>, off: nat)
    ensures U32At(buf, off).Success? ==> U32At(buf, off).value.1 == off + 4
  {
  }

  /** A record: its name up to e, then type, class, TTL, the length of the data, and the data. */
  ghost predicate RecordFrom(buf: seq<byte>, off: nat, r: Record, e: nat, length: nat, end: nat) {
    && NameText(buf, off, r.name, e)
    && Number(buf, e, 2, TypeNumber(r.data)) && Number(buf, e + 2, 2, r.class_) && Number(buf, e + 4, 4, r.ttl)
    && Number(buf, e + 8, 2, length) && DataLaid(buf, e + 10, length, r.data, end)
  }

  ghost predicate RecordLaid(buf: seq<byte>, off: nat, r: Record, end: nat) {
    exists e: nat, length: nat :: RecordFrom(buf, off, r, e, length, end)
  }

  lemma RecordLayout(buf: seq<byte>, off: nat, r: Record, end: nat)
    ensures RecordAt(buf, off) == Success((r, end)) <==> RecordLaid(buf, off, r, end)
  {
    hide NameAt, NameText, U16At, U32At, RDataAt, DataLaid, Number;
    if RecordAt(buf, off) == Success((r, end)) {
      var e := NameAt(buf, off).value.1;
      RecordNumbers(buf, e);
      var length := U16At(buf, e + 8).value.0;
      NameLayout(buf, off, r.name, e);
      var rtype := U16At(buf, e).value.0;
      TwoBytes(buf, e, rtype);
      TwoBytes(buf, e + 2, r.class_);
      FourBytesAt(buf, e + 4, r.ttl);
      TwoBytes(buf, e + 8, length);
      DataLayout(buf, e + 10, rtype, length, r.data, end);
      assert RDataAt(buf, e + 10, rtype, length).value == (r.data, end);
      assert RDataAt(buf, e + 10, rtype, length) == Success((r.data, end));
      assert RecordFrom(buf, off, r, e, length, end);
    }
    if RecordLaid(buf, off, r, end) {
      var e: nat, length: nat :| RecordFrom(buf, off, r, e, length, end);
      NameLayout(buf, off, r.name, e);
      TwoBytes(buf, e, TypeNumber(r.data));
      TwoBytes(buf, e + 2, r.class_);
      FourBytesAt(buf, e + 4, r.ttl);
      TwoBytes(buf, e + 8, length);
      DataLayout(buf, e + 10, TypeNumber(r.data), length, r.data, end);
    }
  }

  lemma RecordNumbers(buf: seq<byte>, e: nat)
    ensures U16At(buf, e).Success? ==> U16At(buf, e).value.1 == e + 2
    ensures U16At(buf, e + 2).Success? ==> U16At(buf, e + 2).value.1 == e + 4
    ensures U32At(buf, e + 4).Success? ==> U32At(buf, e + 4).value.1 == e + 8
    ensures U16At(buf, e + 8).Success? ==> U16At(buf, e + 8).value.1 == e + 10
  {
  }

  // ---------------------------------------------------------------- sections

  ghost predicate QuestionLaid(buf: seq<byte>, off: nat, q: Question, end: nat) {
    && end >= 4 && NameText(buf, off, q.name, end - 4)
    && Number(buf, end - 4, 2, q.qtype) && Number(buf, end - 2, 2, q.qclass)
  }

  lemma QuestionLayout(buf: seq<byte>, off: nat, q: Question, end: nat)
    ensures QuestionAt(buf, off) == Success((q, end)) <==> QuestionLaid(buf, off, q, end)
  {
    hide NameAt, NameText, U16At, Number;
    if QuestionAt(buf, off) == Success((q, end)) {
      var e := NameAt(buf, off).value.1;
      RecordNumbers(buf, e);
    }
    if end >= 4 {
      NameLayout(buf, off, q.name, end - 4);
      TwoBytes(buf, end - 4, q.qtype);
      TwoBytes(buf, end - 2, q.qclass);
    }
  }

  ghost predicate QuestionsLaid(buf: seq<byte>, off: nat, questions: seq<Question>, end: nat)
    decreases |questions|
  {
    if questions == [] then end == off
    else exists mid: nat :: QuestionLaid(buf, off, questions[0], mid) && QuestionsLaid(buf, mid, questions[1..], end)
  }

  lemma {:induction false} QuestionsLayout(buf: seq<byte>, off: nat, questions: seq<Question>, end: nat)
    ensures QuestionsAt(buf, off, |questions|) == Success((questions, end)) <==> QuestionsLaid(buf, off, questions, end)
    decreases |questions|
  {
    hide QuestionAt, QuestionLaid;
    if questions != [] {
      var rest := questions[1..];
      assert questions == [questions[0]] + rest;
      if QuestionAt(buf, off).Success? {
        var (q, mid) := QuestionAt(buf, off).value;
        QuestionLayout(buf, off, q, mid);
        QuestionsLayout(buf, mid, rest, end);
      }
      if QuestionsLaid(buf, off, questions, end) {
        var mid: nat :| QuestionLaid(buf, off, questions[0], mid) && QuestionsLaid(buf, mid, rest, end);
        QuestionLayout(buf, off, questions[0], mid);
        QuestionsLayout(buf, mid, rest, end);
      }
    }
  }

  ghost predicate RecordsLaid(buf: seq<byte>, off: nat, records: seq<Record>, end: nat)
    decreases |records|
  {
    if records == [] then end == off
    else exists mid: nat :: RecordLaid(buf, off, records[0], mid) && RecordsLaid(buf, mid, records[1..], end)
  }

  lemma {:induction false} RecordsLayout(buf: seq<byte>, off: nat, records: seq<Record>, end: nat)
    ensures RecordsAt(buf, off, |records|) == Success((records, end)) <==> RecordsLaid(buf, off, records, end)
    decreases |records|
  {
    hide RecordAt, RecordLaid;
    if records != [] {
      var rest := records[1..];
      assert records == [records[0]] + rest;
      if RecordAt(buf, off).Success? {
        var (r, mid) := RecordAt(buf, off).value;
        RecordLayout(buf, off, r, mid);
        RecordsLayout(buf, mid, rest, end);
      }
      if RecordsLaid(buf, off, records, end) {
        var mid: nat :| RecordLaid(buf, off, records[0], mid) && RecordsLaid(buf, mid, rest, end);
        RecordLayout(buf, off, records[0], mid);
        RecordsLayout(buf, mid, rest, end);
      }
    }
  }

  // ---------------------------------------------------------------- messages

  /** Section 4.1.1 of RFC 1035: twelve bytes. In the third and fourth, from the highest bit down: QR, four bits of
      OPCODE, AA, TC, RD; RA, three bits of Z, and four bits of RCODE. */
  ghost predicate HeaderLaid(buf: seq<byte>, h: Header) {
    && |buf| >= 12
    && Number(buf, 0, 2, h.id)
    && h.qr == (buf[2] / 128 == 1) && h.opcode == buf[2] / 8 % 16
    && h.aa == (buf[2] / 4 % 2 == 1) && h.tc == (buf[2] / 2 % 2 == 1) && h.rd == (buf[2] % 2 == 1)
    && h.ra == (buf[3] / 128 == 1) && h.z == buf[3] / 16 % 8 && h.rcode == buf[3] % 16
    && Number(buf, 4, 2, h.qdcount) && Number(buf, 6, 2, h.ancount)
    && Number(buf, 8, 2, h.nscount) && Number(buf, 10, 2, h.arcount)
  }

  lemma HighFlags(a: byte, b: byte)
    ensures var flags := a as int * 256 + b;
            && flags / 0x8000 == a / 128 && flags / 0x800 == a / 8
            && flags / 0x400 == a / 4 && flags / 0x200 == a / 2 && flags / 0x100 == a
  {
    var h: nat, l: nat := a, b;
    var flags := h * 256 + l;
    Quotient(flags, 0x8000, h / 128, h % 128 * 256 + l);
    Quotient(flags, 0x800, h / 8, h % 8 * 256 + l);
    Quotient(flags, 0x400, h / 4, h % 4 * 256 + l);
    Quotient(flags, 0x200, h / 2, h % 2 * 256 + l);
    Quotient(flags, 0x100, h, l);
  }

  lemma LowFlags(a: byte, b: byte)
    ensures var flags := a as int * 256 + b;
            flags / 0x80 % 2 == b / 128 && flags / 16 % 8 == b / 16 % 8 && flags % 16 == b % 16
  {
    var h: nat, l: nat := a, b;
    var flags := h * 256 + l;
    Quotient(flags, 0x80, 2 * h + l / 128, l % 128);
    Quotient(flags, 16, 16 * h + l / 16, l % 16);
    Quotient(2 * h + l / 128, 2, h, l / 128);
    Quotient(16 * h + l / 16, 8, 2 * h + l / 16 / 8, l / 16 % 8);
  }

  /** Each bit of the flag word in its byte. */
  lemma FlagBits(a: byte, b: byte)
    ensures var flags := a as int * 256 + b;
            && flags / 0x8000 % 2 == a / 128 && flags / 0x800 % 16 == a / 8 % 16
            && flags / 0x400 % 2 == a / 4 % 2 && flags / 0x200 % 2 == a / 2 % 2 && flags / 0x100 % 2 == a % 2
            && flags / 0x80 % 2 == b / 128 && flags / 16 % 8 == b / 16 % 8 && flags % 16 == b % 16
  {
    HighFlags(a, b);
    LowFlags(a, b);
    var h: nat := a / 128;
    Quotient(h, 2, 0, h);
  }

  lemma HeaderLayout(buf: seq<byte>, h: Header)
    ensures HeaderAt(buf, 0) == Success((h, 12)) <==> HeaderLaid(buf, h)
    ensures HeaderAt(buf, 0).Success? ==> HeaderAt(buf, 0).value.1 == 12
  {
    if |buf| >= 12 {
      FlagBits(buf[2], buf[3]);
      TwoBytes(buf, 0, h.id);
      TwoBytes(buf, 4, h.qdcount);
      TwoBytes(buf, 6, h.ancount);
      TwoBytes(buf, 8, h.nscount);
      TwoBytes(buf, 10, h.arcount);
      hide Number;
    }
  }

  /** Four sections behind the header, each of as many entries as the header counts. */
  ghost predicate MessageFrom(buf: seq<byte>, m: Message, o2: nat, o3: nat, o4: nat, o5: nat) {
    && HeaderLaid(buf, m.header)
    && m.header.qdcount == |m.questions| && m.header.ancount == |m.answers|
    && m.header.nscount == |m.authorities| && m.header.arcount == |m.additionals|
    && QuestionsLaid(buf, 12, m.questions, o2) && RecordsLaid(buf, o2, m.answers, o3)
    && RecordsLaid(buf, o3, m.authorities, o4) && RecordsLaid(buf, o4, m.additionals, o5)
  }

  ghost predicate MessageLaid(buf: seq<byte>, m: Message) {
    exists o2: nat, o3: nat, o4: nat, o5: nat :: MessageFrom(buf, m, o2, o3, o4, o5)
  }

  lemma {:induction false} QuestionCount(buf: seq<byte>, off: nat, n: nat)
    ensures QuestionsAt(buf, off, n).Success? ==> |QuestionsAt(buf, off, n).value.0| == n
    decreases n
  {
    hide QuestionAt;
    if n > 0 && QuestionAt(buf, off).Success? {
      QuestionCount(buf, QuestionAt(buf, off).value.1, n - 1);
    }
  }

  lemma {:induction false} RecordCount(buf: seq<byte>, off: nat, n: nat)
    ensures RecordsAt(buf, off, n).Success? ==> |RecordsAt(buf, off, n).value.0| == n
    decreases n
  {
    hide RecordAt;
    if n > 0 && RecordAt(buf, off).Success? {
      RecordCount(buf, RecordAt(buf, off).value.1, n - 1);
    }
  }

  /** A buffer decodes to a message exactly when the message is laid out in it. */
  lemma MessageLayout(buf: seq<byte>, m: Message)
    ensures MessageAt(buf) == Success(m) <==> MessageLaid(buf, m)
  {
    hide HeaderAt, HeaderLaid, QuestionsAt, QuestionsLaid, RecordsAt, RecordsLaid;
    HeaderLayout(buf, m.header);
    if MessageAt(buf) == Success(m) {
      var h := m.header;
      var o2 := QuestionsAt(buf, 12, h.qdcount).value.1;
      var o3 := RecordsAt(buf, o2, h.ancount).value.1;
      var o4 := RecordsAt(buf, o3, h.nscount).value.1;
      var o5 := RecordsAt(buf, o4, h.arcount).value.1;
      QuestionCount(buf, 12, h.qdcount);
      RecordCount(buf, o2, h.ancount);
      RecordCount(buf, o3, h.nscount);
      RecordCount(buf, o4, h.arcount);
      SectionsLayout(buf, m, o2, o3, o4, o5);
      assert MessageFrom(buf, m, o2, o3, o4, o5);
    }
    if MessageLaid(buf, m) {
      var o2: nat, o3: nat, o4: nat, o5: nat :| MessageFrom(buf, m, o2, o3, o4, o5);
      SectionsLayout(buf, m, o2, o3, o4, o5);
    }
  }

  lemma SectionsLayout(buf: seq<byte>, m: Message, o2: nat, o3: nat, o4: nat, o5: nat)
    ensures QuestionsAt(buf, 12, |m.questions|) == Success((m.questions, o2)) <==>
              QuestionsLaid(buf, 12, m.questions, o2)
    ensures RecordsAt(buf, o2, |m.answers|) == Success((m.answers, o3)) <==> RecordsLaid(buf, o2, m.answers, o3)
    ensures RecordsAt(buf, o3, |m.authorities|) == Success((m.authorities, o4)) <==>
              RecordsLaid(buf, o3, m.authorities, o4)
    ensures RecordsAt(buf, o4, |m.additionals|) == Success((m.additionals, o5)) <==>
              RecordsLaid(buf, o4, m.additionals, o5)
  {
    QuestionsLayout(buf, 12, m.questions, o2);
    RecordsLayout(buf, o2, m.answers, o3);
    RecordsLayout(buf, o3, m.authorities, o4);
    RecordsLayout(buf, o4, m.additionals, o5);
  }

  /** The encoding of a well-formed message has that layout, and is no encoding of any other message. */
  lemma EncodingLaid(m: Message, other: Message)
    requires WfMessage(m)
    ensures EncMessage(m).Success? && (MessageLaid(EncMessage(m).value, other) <==> other == m)
  {
    hide MessageAt, MessageLaid, EncMessage, WfMessage;
    MessageRoundTrip(m);
    MessageLayout(EncMessage(m).value, other);
  }
}
