/** What the decoder accepts, the encoder can say again: a buffer, compressed or not, and the
    uncompressed re-encoding of what it decodes to mean the same message. */
module DnsReencode {
  import opened Bytes
  import opened DnsMessage
  import opened DnsDecoding
  import opened DnsEncoding
  import opened DnsRoundTrip

  lemma {:induction false} DecodedLabels(buf: seq<byte>, pos: nat, jumps: nat)
    requires Labels(buf, pos, jumps).Success?
    ensures WfLabels(Labels(buf, pos, jumps).value)
    decreases jumps, |buf| - pos
  {
    var len := buf[pos];
    if len >= 192 {
      DecodedLabels(buf, PointerAt(buf, pos), jumps - 1);
    } else if len != 0 {
      DecodedLabels(buf, pos + 1 + len, jumps);
    }
  }

  /** The two length limits differ: the decoder allows 255 characters of text, the encoder 255 bytes
      on the wire. A decoded name with dot-free ASCII labels re-encodes exactly when its text has at
      most 253 characters; 254 and 255 decode but do not re-encode. */
  lemma DecodedNameEncodes(buf: seq<byte>, off: nat)
    requires NameAt(buf, off).Success?
    requires var labels := Labels(buf, off, MAX_JUMPS).value;
             Free(labels, DOT) && forall i :: 0 <= i < |labels| ==> Ascii(labels[i])
    ensures EncName(NameAt(buf, off).value.0).Success? <==> |NameAt(buf, off).value.0| <= MAX_NAME - 2
    ensures EncName(NameAt(buf, off).value.0).Success? <==> WfName(NameAt(buf, off).value.0)
  {
    var labels := Labels(buf, off, MAX_JUMPS).value;
    var name := NameAt(buf, off).value.0;
    DecodedLabels(buf, off, MAX_JUMPS);
    if labels != [] {
      SplitJoin(labels, DOT);
      forall i | 0 <= i < |name| ensures name[i] < 128 {
        JoinBytes(labels, DOT, name[i]);
      }
      assert Ascii(name);
      assert SplitOn([DOT], DOT) == [[]] + SplitOn([], DOT);
      assert name != [DOT] && name != [];
      EncodableName(name);
    }
  }

  /** Four labels of 63, 63, 63 and 62 bytes, none of them a dot. */
  function LongLabels(): seq<Text> {
    var a, b := seq(63, _ => 97 as byte), seq(62, _ => 97 as byte);
    [a, a, a, b]
  }

  lemma LongText()
    ensures |Join(LongLabels(), DOT)| == 254 && |WireLabels(LongLabels())| == 256
    ensures WfLabels(LongLabels()) && Free(LongLabels(), DOT)
    ensures forall i :: 0 <= i < |LongLabels()| ==> Ascii(LongLabels()[i])
  {
    WireLengthOf(LongLabels());
    var labels := LongLabels();
    assert labels[1..][1..] == labels[2..] && labels[2..][1..] == labels[3..];
    assert |Join(labels[3..], DOT)| == 62;
    assert |Join(labels[2..], DOT)| == 63 + 1 + 62;
    assert |Join(labels[1..], DOT)| == 63 + 1 + 126;
  }

  /** A name of 254 characters in a buffer of 256 bytes, which decodes and cannot be encoded again. */
  lemma LongNameWitness()
    ensures var d := NameAt(WireLabels(LongLabels()), 0);
            d.Success? && |d.value.0| == 254 && EncName(d.value.0).Failure?
  {
    var buf := WireLabels(LongLabels());
    LongText();
    assert buf[0..0 + |buf|] == buf;
    WireLabelsRoundTrip(buf, 0, LongLabels(), MAX_JUMPS);
    DecodedNameEncodes(buf, 0);
  }

  /** The part of well-formedness that the bytes do not guarantee: names that can be encoded again,
      and character strings that are ASCII and did not run past the record into a longer one. */
  ghost predicate Encodable(d: RData) {
    match d
    case A(_) => true
    case AAAA(_) => true
    case CNAME(target) => WfName(target)
    case NS(target) => WfName(target)
    case MX(_, exchange) => WfName(exchange)
    case TXT(strings) =>
      && (forall i :: 0 <= i < |strings| ==> Ascii(strings[i]))
      && (EncStrings(strings).Success? ==> |EncStrings(strings).value| < 0x1_0000)
    case SOA(mname, rname, _, _, _, _, _) => WfName(mname) && WfName(rname)
  }

  ghost predicate EncodableRecords(records: seq<Record>) {
    forall i :: 0 <= i < |records| ==> WfName(records[i].name) && Encodable(records[i].data)
  }

  ghost predicate EncodableMessage(m: Message) {
    && (forall i :: 0 <= i < |m.questions| ==> WfName(m.questions[i].name))
    && EncodableRecords(m.answers) && EncodableRecords(m.authorities) && EncodableRecords(m.additionals)
  }

  lemma NameEncodedLength(n: Text)
    requires WfName(n) && EncName(n).Success?
    ensures |EncName(n).value| <= MAX_NAME
  {
    WireLengthOf(SplitOn(n, DOT));
  }

  lemma {:induction false} DecodedStrings(buf: seq<byte>, off: nat, end: nat)
    requires StringsAt(buf, off, end).Success?
    ensures forall i :: 0 <= i < |StringsAt(buf, off, end).value.0| ==> |StringsAt(buf, off, end).value.0[i]| <= 255
    decreases |buf| - off
  {
    if off < end {
      DecodedStrings(buf, off + 1 + buf[off], end);
    }
  }

  lemma DecodedRData(buf: seq<byte>, off: nat, rtype: nat, length: nat)
    requires RDataAt(buf, off, rtype, length).Success?
    requires Encodable(RDataAt(buf, off, rtype, length).value.0)
    ensures WfRData(RDataAt(buf, off, rtype, length).value.0)
  {
    hide NameAt, EncName, StringsAt, EncStrings, EncIPv4, EncIPv6, Octets, Groups, Join, WfName;
    var d := RDataAt(buf, off, rtype, length).value.0;
    match d
    case A(address) =>
      assert DottedQuad(address) by { assert address == Join(Octets(buf[off..off + length]), DOT); }
      IPv4RoundTrip(buf[off..off + length]);
    case AAAA(address) =>
      assert EightGroups(address) by { assert address == Join(Groups(buf[off..off + length]), COLON); }
      IPv6RoundTrip(buf[off..off + length]);
    case CNAME(target) => NameEncodes(target); NameEncodedLength(target);
    case NS(target) => NameEncodes(target); NameEncodedLength(target);
    case MX(_, exchange) => NameEncodes(exchange); NameEncodedLength(exchange);
    case TXT(strings) => DecodedStrings(buf, off, off + length);
    case SOA(mname, rname, _, _, _, _, _) =>
      DecodedSoa(buf, off);
      NameEncodes(mname); NameEncodedLength(mname);
      NameEncodes(rname); NameEncodedLength(rname);
  }

  lemma DecodedSoa(buf: seq<byte>, off: nat)
    requires SoaAt(buf, off).Success?
    ensures var d := SoaAt(buf, off).value.0;
            && d.SOA? && d.serial < TWO32 && d.refresh < TWO32 && d.retry < TWO32
            && d.expire < TWO32 && d.minimum < TWO32
  {
    hide NameAt;
  }

  lemma {:induction false} DecodedRecords(buf: seq<byte>, off: nat, n: nat)
    requires RecordsAt(buf, off, n).Success? && EncodableRecords(RecordsAt(buf, off, n).value.0)
    ensures |RecordsAt(buf, off, n).value.0| == n && WfRecords(RecordsAt(buf, off, n).value.0)
    decreases n
  {
    hide NameAt, WfName, RDataAt, WfRData, Encodable;
    if n > 0 {
      var records := RecordsAt(buf, off, n).value.0;
      var (r, o1) := RecordAt(buf, off).value;
      var o5 := NameAt(buf, off).value.1 + 10;
      assert records[0] == r && records[1..] == RecordsAt(buf, o1, n - 1).value.0;
      DecodedRData(buf, o5, U16At(buf, o5 - 10).value.0, U16At(buf, o5 - 2).value.0);
      DecodedRecords(buf, o1, n - 1);
      assert WfRecord(records[0]);
      assert forall i :: 0 < i < |records| ==> records[i] == records[1..][i - 1];
    }
  }

  lemma {:induction false} DecodedQuestions(buf: seq<byte>, off: nat, n: nat)
    requires QuestionsAt(buf, off, n).Success?
    requires var questions := QuestionsAt(buf, off, n).value.0;
             forall i :: 0 <= i < |questions| ==> WfName(questions[i].name)
    ensures |QuestionsAt(buf, off, n).value.0| == n && WfQuestions(QuestionsAt(buf, off, n).value.0)
    decreases n
  {
    hide NameAt, WfName;
    if n > 0 {
      var questions := QuestionsAt(buf, off, n).value.0;
      var o1 := QuestionAt(buf, off).value.1;
      assert questions[0] == QuestionAt(buf, off).value.0;
      assert questions[1..] == QuestionsAt(buf, o1, n - 1).value.0;
      DecodedQuestions(buf, o1, n - 1);
      assert forall i :: 0 < i < |questions| ==> questions[i] == questions[1..][i - 1];
    }
  }

  /** Any accepted buffer whose names and strings can be encoded decodes to a well-formed message,
      and the uncompressed re-encoding of that message decodes to it again. */
  lemma Reencode(buf: seq<byte>)
    requires MessageAt(buf).Success? && EncodableMessage(MessageAt(buf).value)
    ensures WfMessage(MessageAt(buf).value)
    ensures var e := EncMessage(MessageAt(buf).value); e.Success? && MessageAt(e.value) == MessageAt(buf)
  {
    hide QuestionsAt, RecordsAt, WfName, Encodable;
    var m := MessageAt(buf).value;
    var (h, o1) := HeaderAt(buf, 0).value;
    var (_, o2) := QuestionsAt(buf, o1, h.qdcount).value;
    var (_, o3) := RecordsAt(buf, o2, h.ancount).value;
    var (_, o4) := RecordsAt(buf, o3, h.nscount).value;
    DecodedQuestions(buf, o1, h.qdcount);
    DecodedRecords(buf, o2, h.ancount);
    DecodedRecords(buf, o3, h.nscount);
    DecodedRecords(buf, o4, h.arcount);
    MessageRoundTrip(m);
  }
}
