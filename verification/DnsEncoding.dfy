/** What encoding means, as functions from entities to bytes, and the writer that computes it. */
module DnsEncoding {
  import opened Wrappers
  import opened Bytes
  import opened DnsMessage

  type Encoded = Result<seq<byte>, EncodeError>

  // ---------------------------------------------------------------- names

  function WireLabels(labels: seq<Text>): seq<byte> {
    if labels == [] then [0] else [|labels[0]| % 256] + labels[0] + WireLabels(labels[1..])
  }

  /** The wire length of the labels, or the first label that is empty or too long. */
  function WireLength(labels: seq<Text>): Result<nat, EncodeError> {
    if labels == [] then Success(1)
    else if labels[0] == [] then Failure(EmptyLabel)
    else if |labels[0]| > MAX_LABEL then Failure(LabelTooLong)
    else
      var rest :- WireLength(labels[1..]);
      Success(1 + |labels[0]| + rest)
  }

  function EncName(n: Text): Encoded {
    if n == [] || n == [DOT] then Success([0])
    else
      var labels := SplitOn(n, DOT);
      var total :- WireLength(labels);
      if total > MAX_NAME then Failure(EncodedNameTooLong) else Success(WireLabels(labels))
  }

  // ---------------------------------------------------------------- addresses

  function EncOctets(parts: seq<Text>): Encoded {
    if parts == [] then Success([])
    else
      var n := ParseDecimal(parts[0]);
      if n.None? || n.value > 255 then Failure(InvalidIPv4)
      else
        var rest :- EncOctets(parts[1..]);
        Success([n.value] + rest)
  }

  function EncIPv4(address: Text): Encoded {
    var parts := SplitOn(address, DOT);
    if |parts| != 4 then Failure(InvalidIPv4) else EncOctets(parts)
  }

  /** The position of the first "::", or the length of the text if there is none. */
  function FindDouble(t: Text): (i: nat)
    ensures i <= |t|
    ensures i < |t| ==> i + 1 < |t| && t[i] == t[i + 1] == COLON
  {
    if |t| < 2 then |t|
    else if t[0] == COLON && t[1] == COLON then 0
    else 1 + FindDouble(t[1..])
  }

  function ColonParts(t: Text): seq<Text> {
    if t == [] then [] else SplitOn(t, COLON)
  }

  /** The eight groups of an address, with "::" standing for the missing zero groups. */
  function V6Groups(address: Text): Option<seq<Text>> {
    var i := FindDouble(address);
    var left := ColonParts(address[..i]);
    if i == |address| then
      if |left| == 8 then Some(left) else None
    else
      var tail := address[i + 2..];
      var right := ColonParts(tail[..FindDouble(tail)]);
      if |left| + |right| > 8 then None
      else Some(left + seq(8 - |left| - |right|, _ => [48]) + right)
  }

  function EncGroups(groups: seq<Text>): Encoded {
    if groups == [] then Success([])
    else
      var n := ParseHex(groups[0]);
      if n.None? || n.value > 0xffff then Failure(InvalidIPv6)
      else
        var rest :- EncGroups(groups[1..]);
        Success(U16(n.value) + rest)
  }

  function EncIPv6(address: Text): Encoded {
    var groups := V6Groups(address);
    if groups.None? then Failure(InvalidIPv6) else EncGroups(groups.value)
  }

  // ---------------------------------------------------------------- records

  function EncStrings(strings: seq<Text>): Encoded {
    if strings == [] then Success([])
    else if |strings[0]| > 255 then Failure(StringTooLong)
    else
      var rest :- EncStrings(strings[1..]);
      Success([|strings[0]|] + strings[0] + rest)
  }

  function EncBody(d: RData): Encoded {
    match d
    case A(address) => EncIPv4(address)
    case AAAA(address) => EncIPv6(address)
    case CNAME(target) => EncName(target)
    case NS(target) => EncName(target)
    case MX(preference, exchange) =>
      var name :- EncName(exchange);
      Success(U16(preference) + name)
    case TXT(strings) => EncStrings(strings)
    case SOA(mname, rname, serial, refresh, retry, expire, minimum) =>
      var m :- EncName(mname);
      var r :- EncName(rname);
      Success(m + (r + (U32(serial) + (U32(refresh) + (U32(retry) + (U32(expire) + U32(minimum)))))))
  }

  function EncRData(d: RData): Encoded {
    var body :- EncBody(d);
    Success(U16(|body|) + body)
  }

  function EncRecord(r: Record): Encoded {
    var name :- EncName(r.name);
    var rdata :- EncRData(r.data);
    Success(name + (U16(TypeOf(r.data)) + (U16(r.class_) + (U32(r.ttl) + rdata))))
  }

  function EncRecords(records: seq<Record>): Encoded {
    if records == [] then Success([])
    else
      var first :- EncRecord(records[0]);
      var rest :- EncRecords(records[1..]);
      Success(first + rest)
  }

  function EncQuestion(q: Question): Encoded {
    var name :- EncName(q.name);
    Success(name + (U16(q.qtype) + U16(q.qclass)))
  }

  function EncQuestions(questions: seq<Question>): Encoded {
    if questions == [] then Success([])
    else
      var first :- EncQuestion(questions[0]);
      var rest :- EncQuestions(questions[1..]);
      Success(first + rest)
  }

  // ---------------------------------------------------------------- message

  function Bit(b: bool, weight: nat): nat {
    if b then weight else 0
  }

  /** The 16 flag bits; the masked fields occupy disjoint bits, so the sum is their bitwise or. */
  function Flags(h: Header): nat {
    Bit(h.qr, 0x8000) + h.opcode % 16 * 0x800 + Bit(h.aa, 0x400) + Bit(h.tc, 0x200)
    + Bit(h.rd, 0x100) + Bit(h.ra, 0x80) + h.z % 8 * 16 + h.rcode % 16
  }

  function EncHeader(m: Message): seq<byte> {
    U16(m.header.id) + (U16(Flags(m.header)) + (U16(|m.questions|) + (U16(|m.answers|)
    + (U16(|m.authorities|) + U16(|m.additionals|)))))
  }

  function EncMessage(m: Message): Encoded {
    var questions :- EncQuestions(m.questions);
    var answers :- EncRecords(m.answers);
    var authorities :- EncRecords(m.authorities);
    var additionals :- EncRecords(m.additionals);
    Success(EncHeader(m) + (questions + (answers + (authorities + additionals))))
  }

  // ---------------------------------------------------------------- the writer

  /** A growing byte buffer. Each method appends what the function of the same entity says. */
  class Writer {
    var chunks: seq<byte>

    constructor ()
      ensures chunks == []
    {
      chunks := [];
    }

    /** After success exactly the encoding e has been appended to what was there before. */
    ghost predicate Appended(before: seq<byte>, e: Encoded, r: Result<(), EncodeError>)
      reads this
    {
      match e
      case Success(bytes) => r == Success(()) && chunks == before + bytes
      case Failure(error) => r == Failure(error)
    }

    /** In the middle of a loop: what is still to be appended completes the encoding of the whole. */
    ghost predicate Pending(before: seq<byte>, all: Encoded, left: Encoded)
      reads this
    {
      match left
      case Success(rest) => all.Success? && chunks + rest == before + all.value
      case Failure(e) => all == Failure(e)
    }

    method U8(v: int)
      modifies this
      ensures chunks == old(chunks) + [v % 256]
    {
      chunks := chunks + [v % 256];
    }

    method PutU16(v: int)
      modifies this
      ensures chunks == old(chunks) + U16(v)
    {
      chunks := chunks + [(v / 256) % 256, v % 256];
    }

    method PutU32(v: int)
      modifies this
      ensures chunks == old(chunks) + U32(v)
    {
      chunks := chunks + [(v / 0x100_0000) % 256, (v / 0x1_0000) % 256, (v / 256) % 256, v % 256];
    }

    method PutBytes(b: seq<byte>)
      modifies this
      ensures chunks == old(chunks) + b
    {
      for i := 0 to |b|
        invariant chunks == old(chunks) + b[..i]
      {
        chunks := chunks + [b[i]];
      }
    }

    method Name(n: Text) returns (r: Result<(), EncodeError>)
      modifies this
      ensures Appended(old(chunks), EncName(n), r)
    {
      if n == [] || n == [DOT] {
        U8(0);
        return Success(());
      }
      var labels := SplitOn(n, DOT);
      var total := 1;
      for i := 0 to |labels|
        invariant WireLength(labels) == match WireLength(labels[i..])
                                        case Success(rest) => Success(total - 1 + rest)
                                        case Failure(e) => Failure(e)
        invariant total >= 1
      {
        if |labels[i]| == 0 { return Failure(EmptyLabel); }
        if |labels[i]| > MAX_LABEL { return Failure(LabelTooLong); }
        assert labels[i..][1..] == labels[i + 1..];
        total := total + 1 + |labels[i]|;
      }
      if total > MAX_NAME { return Failure(EncodedNameTooLong); }

      for i := 0 to |labels|
        invariant chunks + WireLabels(labels[i..]) == old(chunks) + WireLabels(labels)
      {
        assert labels[i..][1..] == labels[i + 1..];
        ghost var before := chunks;
        U8(|labels[i]|);
        PutBytes(labels[i]);
        assert before + ([|labels[i]| % 256] + labels[i] + WireLabels(labels[i + 1..]))
            == chunks + WireLabels(labels[i + 1..]);
      }
      U8(0);
      r := Success(());
    }

    /** Reserves two bytes for a length and returns where they are. */
    method LengthSlot() returns (idx: nat)
      modifies this
      ensures idx == |old(chunks)| && chunks == old(chunks) + [0, 0]
    {
      idx := |chunks|;
      chunks := chunks + [0, 0];
    }

    /** Fills in a reserved length. */
    method SetLength(idx: nat, len: int)
      requires idx + 2 <= |chunks|
      modifies this
      ensures chunks == old(chunks)[..idx] + U16(len) + old(chunks)[idx + 2..]
    {
      chunks := chunks[idx := (len / 256) % 256];
      chunks := chunks[idx + 1 := len % 256];
    }

    method IPv4(address: Text) returns (r: Result<(), EncodeError>)
      modifies this
      ensures Appended(old(chunks), EncIPv4(address), r)
    {
      var parts := SplitOn(address, DOT);
      if |parts| != 4 { return Failure(InvalidIPv4); }
      for i := 0 to 4
        invariant Pending(old(chunks), EncOctets(parts), EncOctets(parts[i..]))
      {
        assert parts[i..][1..] == parts[i + 1..];
        var n := ParseDecimal(parts[i]);
        if n.None? || n.value > 255 { return Failure(InvalidIPv4); }
        ghost var rest := EncOctets(parts[i + 1..]);
        assert rest.Success? ==> chunks + ([n.value] + rest.value) == chunks + [n.value] + rest.value;
        U8(n.value);
      }
      r := Success(());
    }

    method IPv6(address: Text) returns (r: Result<(), EncodeError>)
      modifies this
      ensures Appended(old(chunks), EncIPv6(address), r)
    {
      var groups := V6Groups(address);
      if groups.None? { return Failure(InvalidIPv6); }
      var g := groups.value;
      for i := 0 to |g|
        invariant Pending(old(chunks), EncGroups(g), EncGroups(g[i..]))
      {
        assert g[i..][1..] == g[i + 1..];
        var n := ParseHex(g[i]);
        if n.None? || n.value > 0xffff { return Failure(InvalidIPv6); }
        ghost var rest := EncGroups(g[i + 1..]);
        assert rest.Success? ==> chunks + (U16(n.value) + rest.value) == chunks + U16(n.value) + rest.value;
        PutU16(n.value);
      }
      r := Success(());
    }

    method Strings(strings: seq<Text>) returns (r: Result<(), EncodeError>)
      modifies this
      ensures Appended(old(chunks), EncStrings(strings), r)
    {
      for i := 0 to |strings|
        invariant Pending(old(chunks), EncStrings(strings), EncStrings(strings[i..]))
      {
        assert strings[i..][1..] == strings[i + 1..];
        var s := strings[i];
        if |s| > 255 { return Failure(StringTooLong); }
        ghost var rest := EncStrings(strings[i + 1..]);
        assert rest.Success? ==> chunks + ([|s|] + s + rest.value) == chunks + [|s|] + s + rest.value;
        U8(|s|);
        PutBytes(s);
      }
      r := Success(());
    }

    method Soa(d: RData) returns (r: Result<(), EncodeError>)
      requires d.SOA?
      modifies this
      ensures Appended(old(chunks), EncBody(d), r)
    {
      hide EncName, U32;
      var _ :- Name(d.mname);
      var _ :- Name(d.rname);
      PutU32(d.serial);
      PutU32(d.refresh);
      PutU32(d.retry);
      PutU32(d.expire);
      PutU32(d.minimum);
      r := Success(());
    }

    method Body(d: RData) returns (r: Result<(), EncodeError>)
      modifies this
      ensures Appended(old(chunks), EncBody(d), r)
    {
      hide EncName, EncIPv4, EncIPv6, EncStrings, U16, U32;
      match d
      case A(address) => r := IPv4(address);
      case AAAA(address) => r := IPv6(address);
      case CNAME(target) => r := Name(target);
      case NS(target) => r := Name(target);
      case MX(preference, exchange) =>
        PutU16(preference);
        r := Name(exchange);
      case TXT(strings) => r := Strings(strings);
      case SOA(_, _, _, _, _, _, _) => r := Soa(d);
    }

    /** The length is not known when its two bytes are written; it is patched in afterwards. */
    method RData(d: RData) returns (r: Result<(), EncodeError>)
      modifies this
      ensures Appended(old(chunks), EncRData(d), r)
    {
      hide EncBody;
      var slot := LengthSlot();
      var start := |chunks|;
      var _ :- Body(d);
      SetLength(slot, |chunks| - start);
      r := Success(());
    }

    method ResourceRecord(rr: Record) returns (r: Result<(), EncodeError>)
      modifies this
      ensures Appended(old(chunks), EncRecord(rr), r)
    {
      hide EncName, EncRData, U16, U32;
      var _ :- Name(rr.name);
      PutU16(TypeOf(rr.data));
      PutU16(rr.class_);
      PutU32(rr.ttl);
      r := RData(rr.data);
    }

    method ResourceRecords(records: seq<Record>) returns (r: Result<(), EncodeError>)
      modifies this
      ensures Appended(old(chunks), EncRecords(records), r)
    {
      hide EncRecord;
      for i := 0 to |records|
        invariant Pending(old(chunks), EncRecords(records), EncRecords(records[i..]))
      {
        assert records[i..][1..] == records[i + 1..];
        ghost var before, rest := chunks, EncRecords(records[i + 1..]);
        var _ :- ResourceRecord(records[i]);
        assert rest.Success? ==> before + (EncRecord(records[i]).value + rest.value) == chunks + rest.value;
      }
      r := Success(());
    }

    method Questions(questions: seq<Question>) returns (r: Result<(), EncodeError>)
      modifies this
      ensures Appended(old(chunks), EncQuestions(questions), r)
    {
      hide EncName;
      for i := 0 to |questions|
        invariant Pending(old(chunks), EncQuestions(questions), EncQuestions(questions[i..]))
      {
        assert questions[i..][1..] == questions[i + 1..];
        var q := questions[i];
        ghost var before, rest := chunks, EncQuestions(questions[i + 1..]);
        var _ :- Name(q.name);
        PutU16(q.qtype);
        PutU16(q.qclass);
        assert rest.Success? ==> before + (EncQuestion(q).value + rest.value) == chunks + rest.value;
      }
      r := Success(());
    }
  }

  /** Sets the flag bits one field at a time. */
  method ComputeFlags(h: Header) returns (flags: nat)
    ensures flags == Flags(h)
  {
    flags := 0;
    if h.qr { flags := flags + 0x8000; }
    flags := flags + h.opcode % 16 * 0x800;
    if h.aa { flags := flags + 0x400; }
    if h.tc { flags := flags + 0x200; }
    if h.rd { flags := flags + 0x100; }
    if h.ra { flags := flags + 0x80; }
    flags := flags + h.z % 8 * 16;
    flags := flags + h.rcode % 16;
  }

  method WriteHeader(m: Message, w: Writer)
    modifies w
    ensures w.chunks == old(w.chunks) + EncHeader(m)
  {
    hide U16, Bit;
    var flags := ComputeFlags(m.header);
    w.PutU16(m.header.id);
    w.PutU16(flags);
    w.PutU16(|m.questions|);
    w.PutU16(|m.answers|);
    w.PutU16(|m.authorities|);
    w.PutU16(|m.additionals|);
  }

  /** The whole encoder computes the encoding of the message. */
  method EncodeMessage(m: Message) returns (r: Encoded)
    ensures r == EncMessage(m)
  {
    hide EncHeader, EncQuestions, EncRecords;
    var w := new Writer();
    WriteHeader(m, w);
    var _ :- w.Questions(m.questions);
    var _ :- w.ResourceRecords(m.answers);
    var _ :- w.ResourceRecords(m.authorities);
    var _ :- w.ResourceRecords(m.additionals);
    assert w.chunks == EncHeader(m) + (EncQuestions(m.questions).value + (EncRecords(m.answers).value
                     + (EncRecords(m.authorities).value + EncRecords(m.additionals).value)));
    r := Success(w.chunks);
  }
}
