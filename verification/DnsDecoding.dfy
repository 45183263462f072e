/** What decoding means, as functions of the buffer and a position: each returns the decoded value
    and the position after it, or the error. The class in DnsCursor computes these. */
module DnsDecoding {
  import opened Wrappers
  import opened Bytes
  import opened DnsMessage

  type Parsed<T> = Result<(T, nat), DecodeError>

  function U8At(buf: seq<byte>, off: nat): Parsed<nat> {
    if off + 1 > |buf| then Failure(UnexpectedEof) else Success((buf[off], off + 1))
  }

  function U16At(buf: seq<byte>, off: nat): (p: Parsed<nat>)
    ensures p.Success? ==> p.value.0 < 0x1_0000
  {
    if off + 2 > |buf| then Failure(UnexpectedEof)
    else Success((buf[off] as int * 256 + buf[off + 1], off + 2))
  }

  function U32At(buf: seq<byte>, off: nat): (p: Parsed<nat>)
    ensures p.Success? ==> p.value.0 < 0x1_0000_0000
  {
    if off + 4 > |buf| then Failure(UnexpectedEof)
    else
      var high := buf[off] as int * 0x100_0000 + buf[off + 1] as int * 0x1_0000;
      Success((high + buf[off + 2] as int * 256 + buf[off + 3], off + 4))
  }

  function BytesAt(buf: seq<byte>, off: nat, n: nat): Parsed<Text> {
    if off + n > |buf| then Failure(UnexpectedEof) else Success((buf[off..off + n], off + n))
  }

  // ---------------------------------------------------------------- names

  /** The target of the compression pointer whose two bytes start at pos. */
  function PointerAt(buf: seq<byte>, pos: nat): nat
    requires pos + 1 < |buf|
  {
    (buf[pos] as int % 64) * 256 + buf[pos + 1]
  }

  /** The labels of the name at pos, following at most `jumps` compression pointers. */
  function Labels(buf: seq<byte>, pos: nat, jumps: nat): Result<seq<Text>, DecodeError>
    decreases jumps, |buf| - pos
  {
    if pos >= |buf| then Failure(NameEof)
    else
      var len := buf[pos];
      if len == 0 then Success([])
      else if len >= 192 then
        if pos + 1 >= |buf| then Failure(TruncatedPointer)
        else if jumps == 0 then Failure(PointerLoop)
        else Labels(buf, PointerAt(buf, pos), jumps - 1)
      else if len > MAX_LABEL then Failure(ReservedLabel)
      else if pos + 1 + len > |buf| then Failure(LabelExceedsBuffer)
      else
        var rest :- Labels(buf, pos + 1 + len, jumps);
        Success([buf[pos + 1..pos + 1 + len]] + rest)
  }

  /** Where a name stops occupying the buffer: after its terminator or its first pointer. */
  function NameEnd(buf: seq<byte>, pos: nat): nat
    decreases |buf| - pos
  {
    if pos >= |buf| then pos
    else if buf[pos] == 0 then pos + 1
    else if buf[pos] > MAX_LABEL then pos + 2
    else NameEnd(buf, pos + 1 + buf[pos])
  }

  function NameAt(buf: seq<byte>, off: nat): Parsed<Text> {
    var labels :- Labels(buf, off, MAX_JUMPS);
    var name := Join(labels, DOT);
    if |name| > MAX_NAME then Failure(NameTooLong) else Success((name, NameEnd(buf, off)))
  }

  // ---------------------------------------------------------------- header and question

  function FlagsHeader(id: nat, flags: nat, qd: nat, an: nat, ns: nat, ar: nat): Header {
    Header(id, (flags / 0x8000) % 2 == 1, (flags / 0x800) % 16, (flags / 0x400) % 2 == 1,
           (flags / 0x200) % 2 == 1, (flags / 0x100) % 2 == 1, (flags / 0x80) % 2 == 1,
           (flags / 16) % 8, flags % 16, qd, an, ns, ar)
  }

  function HeaderAt(buf: seq<byte>, off: nat): Parsed<Header> {
    var (id, o1) :- U16At(buf, off);
    var (flags, o2) :- U16At(buf, o1);
    var (qd, o3) :- U16At(buf, o2);
    var (an, o4) :- U16At(buf, o3);
    var (ns, o5) :- U16At(buf, o4);
    var (ar, o6) :- U16At(buf, o5);
    Success((FlagsHeader(id, flags, qd, an, ns, ar), o6))
  }

  function QuestionAt(buf: seq<byte>, off: nat): Parsed<Question> {
    var (name, o1) :- NameAt(buf, off);
    var (qtype, o2) :- U16At(buf, o1);
    var (qclass, o3) :- U16At(buf, o2);
    Success((Question(name, qtype, qclass), o3))
  }

  // ---------------------------------------------------------------- resource records

  function Octets(b: seq<byte>): seq<Text> {
    seq(|b|, i requires 0 <= i < |b| => Decimal(b[i]))
  }

  function Groups(b: seq<byte>): seq<Text> {
    seq(|b| / 2, i requires 0 <= i < |b| / 2 => Hex(b[2 * i] as int * 256 + b[2 * i + 1]))
  }

  /** The character strings read while the position is before end; the last may run past it. */
  function StringsAt(buf: seq<byte>, off: nat, end: nat): Parsed<seq<Text>>
    decreases |buf| - off
  {
    if off >= end then Success(([], off))
    else
      var (len, o1) :- U8At(buf, off);
      var (s, o2) :- BytesAt(buf, o1, len);
      var (rest, o3) :- StringsAt(buf, o2, end);
      Success(([s] + rest, o3))
  }

  function SoaAt(buf: seq<byte>, off: nat): Parsed<RData> {
    var (mname, o1) :- NameAt(buf, off);
    var (rname, o2) :- NameAt(buf, o1);
    var (serial, o3) :- U32At(buf, o2);
    var (refresh, o4) :- U32At(buf, o3);
    var (retry, o5) :- U32At(buf, o4);
    var (expire, o6) :- U32At(buf, o5);
    var (minimum, o7) :- U32At(buf, o6);
    Success((SOA(mname, rname, serial, refresh, retry, expire, minimum), o7))
  }

  /** Record data of the given type and length; all types but TXT leave the position at the end. */
  function RDataAt(buf: seq<byte>, off: nat, rtype: nat, length: nat): Parsed<RData> {
    var end := off + length;
    if end > |buf| then Failure(RdataExceedsBuffer)
    else if rtype == TYPE_A then
      if length != 4 then Failure(BadLength)
      else Success((A(Join(Octets(buf[off..end]), DOT)), end))
    else if rtype == TYPE_AAAA then
      if length != 16 then Failure(BadLength)
      else Success((AAAA(Join(Groups(buf[off..end]), COLON)), end))
    else if rtype == TYPE_CNAME then
      var (target, _) :- NameAt(buf, off);
      Success((CNAME(target), end))
    else if rtype == TYPE_NS then
      var (target, _) :- NameAt(buf, off);
      Success((NS(target), end))
    else if rtype == TYPE_MX then
      var (preference, o1) :- U16At(buf, off);
      var (exchange, _) :- NameAt(buf, o1);
      Success((MX(preference, exchange), end))
    else if rtype == TYPE_TXT then
      var (strings, o1) :- StringsAt(buf, off, end);
      Success((TXT(strings), o1))
    else if rtype == TYPE_SOA then
      var (soa, _) :- SoaAt(buf, off);
      Success((soa, end))
    else Failure(UnsupportedType)
  }

  function RecordAt(buf: seq<byte>, off: nat): Parsed<Record> {
    var (name, o1) :- NameAt(buf, off);
    var (rtype, o2) :- U16At(buf, o1);
    var (class_, o3) :- U16At(buf, o2);
    var (ttl, o4) :- U32At(buf, o3);
    var (length, o5) :- U16At(buf, o4);
    var (data, o6) :- RDataAt(buf, o5, rtype, length);
    Success((Record(name, class_, ttl, data), o6))
  }

  // ---------------------------------------------------------------- message

  function QuestionsAt(buf: seq<byte>, off: nat, n: nat): Parsed<seq<Question>>
    decreases n
  {
    if n == 0 then Success(([], off))
    else
      var (q, o1) :- QuestionAt(buf, off);
      var (rest, o2) :- QuestionsAt(buf, o1, n - 1);
      Success(([q] + rest, o2))
  }

  function RecordsAt(buf: seq<byte>, off: nat, n: nat): Parsed<seq<Record>>
    decreases n
  {
    if n == 0 then Success(([], off))
    else
      var (r, o1) :- RecordAt(buf, off);
      var (rest, o2) :- RecordsAt(buf, o1, n - 1);
      Success(([r] + rest, o2))
  }

  function MessageAt(buf: seq<byte>): Result<Message, DecodeError> {
    var (header, o1) :- HeaderAt(buf, 0);
    var (questions, o2) :- QuestionsAt(buf, o1, header.qdcount);
    var (answers, o3) :- RecordsAt(buf, o2, header.ancount);
    var (authorities, o4) :- RecordsAt(buf, o3, header.nscount);
    var (additionals, _) :- RecordsAt(buf, o4, header.arcount);
    Success(Message(header, questions, answers, authorities, additionals))
  }

  // ---------------------------------------------------------------- what a name denotes

  /** Section 4.1.4 of RFC 1035, as a relation: at pos the buffer spells the labels, and reading
      them to the terminator passes through exactly `pointers` compression pointers. */
  ghost predicate Denotes(buf: seq<byte>, pos: nat, labels: seq<Text>, pointers: nat)
    decreases pointers, |labels|
  {
    && pos < |buf|
    && if buf[pos] == 0 then labels == [] && pointers == 0
       else if buf[pos] >= 192 then
         pos + 1 < |buf| && pointers > 0 && Denotes(buf, PointerAt(buf, pos), labels, pointers - 1)
       else
         && buf[pos] <= MAX_LABEL && |labels| > 0 && pos + 1 + buf[pos] <= |buf|
         && labels[0] == buf[pos + 1..pos + 1 + buf[pos]]
         && Denotes(buf, pos + 1 + buf[pos], labels[1..], pointers)
  }

  lemma {:induction false} LabelsSound(buf: seq<byte>, pos: nat, jumps: nat) returns (pointers: nat)
    requires Labels(buf, pos, jumps).Success?
    ensures pointers <= jumps && Denotes(buf, pos, Labels(buf, pos, jumps).value, pointers)
    ensures pos < NameEnd(buf, pos) <= |buf|
    decreases jumps, |buf| - pos
  {
    var len := buf[pos];
    if len == 0 {
      pointers := 0;
    } else if len >= 192 {
      pointers := LabelsSound(buf, PointerAt(buf, pos), jumps - 1);
      pointers := pointers + 1;
    } else {
      pointers := LabelsSound(buf, pos + 1 + len, jumps);
      assert Labels(buf, pos, jumps).value[1..] == Labels(buf, pos + 1 + len, jumps).value;
    }
  }

  lemma {:induction false} LabelsComplete(buf: seq<byte>, pos: nat, labels: seq<Text>, pointers: nat, jumps: nat)
    requires Denotes(buf, pos, labels, pointers) && pointers <= jumps
    ensures Labels(buf, pos, jumps) == Success(labels)
    decreases pointers, |labels|
  {
    if buf[pos] >= 192 {
      LabelsComplete(buf, PointerAt(buf, pos), labels, pointers - 1, jumps - 1);
    } else if buf[pos] != 0 {
      LabelsComplete(buf, pos + 1 + buf[pos], labels[1..], pointers, jumps);
      assert labels == [labels[0]] + labels[1..];
    }
  }

  /** The text that the buffer spells at off through at most 32 pointers. */
  ghost predicate Spells(buf: seq<byte>, off: nat, name: Text) {
    exists labels, pointers: nat ::
      pointers <= MAX_JUMPS && Denotes(buf, off, labels, pointers) && name == Join(labels, DOT)
  }

  /** A name decodes exactly when the buffer spells it through at most 32 pointers and its text has
      at most 255 characters; then the result is the dotted text and the position after the
      terminator or the first pointer, inside the buffer. */
  lemma NameMeaning(buf: seq<byte>, off: nat, name: Text, end: nat)
    ensures NameAt(buf, off) == Success((name, end)) <==>
            Spells(buf, off, name) && |name| <= MAX_NAME && end == NameEnd(buf, off)
    ensures NameAt(buf, off) == Success((name, end)) ==> off < end <= |buf|
  {
    if NameAt(buf, off) == Success((name, end)) {
      var pointers := LabelsSound(buf, off, MAX_JUMPS);
      assert Denotes(buf, off, Labels(buf, off, MAX_JUMPS).value, pointers);
    }
    if Spells(buf, off, name) {
      var labels, pointers: nat :|
        pointers <= MAX_JUMPS && Denotes(buf, off, labels, pointers) && name == Join(labels, DOT);
      LabelsComplete(buf, off, labels, pointers, MAX_JUMPS);
    }
  }

  /** A position spells at most one name. */
  lemma {:induction false} DenotesUnique(buf: seq<byte>, pos: nat, l1: seq<Text>, p1: nat, l2: seq<Text>, p2: nat)
    requires Denotes(buf, pos, l1, p1) && Denotes(buf, pos, l2, p2)
    ensures l1 == l2 && p1 == p2
    decreases p1, |l1|
  {
    if buf[pos] >= 192 {
      DenotesUnique(buf, PointerAt(buf, pos), l1, p1 - 1, l2, p2 - 1);
    } else if buf[pos] != 0 {
      DenotesUnique(buf, pos + 1 + buf[pos], l1[1..], p1, l2[1..], p2);
      assert l1 == [l1[0]] + l1[1..] && l2 == [l2[0]] + l2[1..];
    }
  }

  // ---------------------------------------------------------------- positions only move forward

  lemma {:induction false} StringsForward(buf: seq<byte>, off: nat, end: nat)
    requires off <= |buf| && StringsAt(buf, off, end).Success?
    ensures off <= StringsAt(buf, off, end).value.1 <= |buf|
    ensures end <= StringsAt(buf, off, end).value.1
    decreases |buf| - off
  {
    if off < end {
      StringsForward(buf, off + 1 + buf[off], end);
    }
  }

  /** Reading a record moves the position forward and never past the buffer, whatever the bytes. */
  lemma RecordForward(buf: seq<byte>, off: nat)
    requires RecordAt(buf, off).Success?
    ensures off < RecordAt(buf, off).value.1 <= |buf|
  {
    var name := NameAt(buf, off).value;
    NameMeaning(buf, off, name.0, name.1);
    var o5 := name.1 + 10;
    var rtype := U16At(buf, name.1).value.0;
    var length := U16At(buf, name.1 + 8).value.0;
    if rtype == TYPE_TXT {
      StringsForward(buf, o5, o5 + length);
    }
  }
}
