/** The decoder: a cursor over an immutable buffer whose offset every read advances. Each method
    is proved to return, and to leave the offset at, what DnsDecoding says. After an error the
    decoder is abandoned, so the offset is then left unspecified. */
module DnsCursor {
  import opened Wrappers
  import opened Bytes
  import opened DnsMessage
  import opened DnsDecoding

  /** The items still to come, put behind the items already read. */
  ghost function Behind<T>(front: seq<T>, rest: Result<seq<T>, DecodeError>): Result<seq<T>, DecodeError> {
    match rest
    case Success(more) => Success(front + more)
    case Failure(e) => Failure(e)
  }

  ghost function BehindAt<T>(front: seq<T>, rest: Parsed<seq<T>>): Parsed<seq<T>> {
    match rest
    case Success((more, end)) => Success((front + more, end))
    case Failure(e) => Failure(e)
  }

  lemma BehindNothing<T>(rest: Result<seq<T>, DecodeError>, restAt: Parsed<seq<T>>)
    ensures Behind([], rest) == rest && BehindAt([], restAt) == restAt
  {
    assert rest.Success? ==> [] + rest.value == rest.value;
    assert restAt.Success? ==> [] + restAt.value.0 == restAt.value.0;
  }

  lemma BehindOneMore<T>(front: seq<T>, x: T, rest: Result<seq<T>, DecodeError>, restAt: Parsed<seq<T>>)
    ensures Behind(front, Behind([x], rest)) == Behind(front + [x], rest)
    ensures BehindAt(front, BehindAt([x], restAt)) == BehindAt(front + [x], restAt)
  {
    assert rest.Success? ==> front + ([x] + rest.value) == front + [x] + rest.value;
    assert restAt.Success? ==> front + ([x] + restAt.value.0) == front + [x] + restAt.value.0;
  }

  class Cursor {
    const buf: seq<byte>
    var offset: nat

    constructor (buf: seq<byte>)
      ensures this.buf == buf && offset == 0
    {
      this.buf := buf;
      offset := 0;
    }

    /** The method result r and the present offset are what the meaning p says. */
    ghost predicate Follows<T>(p: Parsed<T>, r: Result<T, DecodeError>)
      reads this
    {
      match p
      case Success((v, end)) => r == Success(v) && offset == end
      case Failure(e) => r == Failure(e)
    }

    method ReadUint8() returns (r: Result<nat, DecodeError>)
      modifies this
      ensures Follows(U8At(buf, old(offset)), r)
    {
      if offset + 1 > |buf| { return Failure(UnexpectedEof); }
      r := Success(buf[offset]);
      offset := offset + 1;
    }

    method ReadUint16() returns (r: Result<nat, DecodeError>)
      modifies this
      ensures Follows(U16At(buf, old(offset)), r)
    {
      if offset + 2 > |buf| { return Failure(UnexpectedEof); }
      r := Success(buf[offset] as int * 256 + buf[offset + 1]);
      offset := offset + 2;
    }

    method ReadUint32() returns (r: Result<nat, DecodeError>)
      modifies this
      ensures Follows(U32At(buf, old(offset)), r)
    {
      if offset + 4 > |buf| { return Failure(UnexpectedEof); }
      r := Success(buf[offset] as int * 0x100_0000 + buf[offset + 1] as int * 0x1_0000
                   + buf[offset + 2] as int * 256 + buf[offset + 3]);
      offset := offset + 4;
    }

    method ReadBytes(n: nat) returns (r: Result<Text, DecodeError>)
      modifies this
      ensures Follows(BytesAt(buf, old(offset), n), r)
    {
      if offset + n > |buf| { return Failure(UnexpectedEof); }
      r := Success(buf[offset..offset + n]);
      offset := offset + n;
    }

    method DecodeName() returns (r: Result<Text, DecodeError>)
      modifies this
      ensures Follows(NameAt(buf, old(offset)), r)
    {
      hide Join;
      var labels: seq<Text> := [];
      var jumped := false;
      var cursor := offset;
      var savedOffset := -1;
      var jumpCount := 0;
      ghost var meaning := Labels(buf, offset, MAX_JUMPS);
      ghost var end := NameEnd(buf, offset);
      BehindNothing(meaning, Failure(NameEof));

      while true
        invariant offset == old(offset) && 0 <= jumpCount <= MAX_JUMPS && 0 <= cursor
        invariant meaning == Behind(labels, Labels(buf, cursor, MAX_JUMPS - jumpCount))
        invariant if jumped then savedOffset == end else NameEnd(buf, cursor) == end
        decreases MAX_JUMPS - jumpCount, |buf| - cursor
      {
        if cursor >= |buf| { return Failure(NameEof); }
        var len := buf[cursor];

        if len == 0 {
          cursor := cursor + 1;
          if !jumped { offset := cursor; }
          break;
        }

        if len >= 192 {
          if cursor + 1 >= |buf| { return Failure(TruncatedPointer); }
          var pointer := (len as int % 64) * 256 + buf[cursor + 1];
          if !jumped {
            savedOffset := cursor + 2;
            jumped := true;
          }
          jumpCount := jumpCount + 1;
          if jumpCount > MAX_JUMPS { return Failure(PointerLoop); }
          cursor := pointer;
          continue;
        }

        if len >= 64 { return Failure(ReservedLabel); }
        if cursor + 1 + len > |buf| { return Failure(LabelExceedsBuffer); }
        var labelBytes := buf[cursor + 1..cursor + 1 + len];
        BehindOneMore(labels, labelBytes, Labels(buf, cursor + 1 + len, MAX_JUMPS - jumpCount), Failure(NameEof));
        labels := labels + [labelBytes];
        cursor := cursor + 1 + len;
      }

      assert meaning == Success(labels) by { assert labels + [] == labels; }
      if jumped { offset := savedOffset; }
      var name := Join(labels, DOT);
      if |name| > MAX_NAME { return Failure(NameTooLong); }
      r := Success(name);
    }

    method DecodeHeader() returns (r: Result<Header, DecodeError>)
      modifies this
      ensures Follows(HeaderAt(buf, old(offset)), r)
    {
      var id :- ReadUint16();
      var flags :- ReadUint16();
      var qdcount :- ReadUint16();
      var ancount :- ReadUint16();
      var nscount :- ReadUint16();
      var arcount :- ReadUint16();
      r := Success(Header(
        id, (flags / 0x8000) % 2 == 1, (flags / 0x800) % 16, (flags / 0x400) % 2 == 1,
        (flags / 0x200) % 2 == 1, (flags / 0x100) % 2 == 1, (flags / 0x80) % 2 == 1,
        (flags / 16) % 8, flags % 16, qdcount, ancount, nscount, arcount));
    }

    method DecodeQuestion() returns (r: Result<Question, DecodeError>)
      modifies this
      ensures Follows(QuestionAt(buf, old(offset)), r)
    {
      var name :- DecodeName();
      var qtype :- ReadUint16();
      var qclass :- ReadUint16();
      r := Success(Question(name, qtype, qclass));
    }

    method DecodeStrings(end: nat) returns (r: Result<seq<Text>, DecodeError>)
      modifies this
      ensures Follows(StringsAt(buf, old(offset), end), r)
    {
      var strings: seq<Text> := [];
      ghost var meaning := StringsAt(buf, offset, end);
      BehindNothing(Failure(NameEof), meaning);
      while offset < end
        invariant meaning == BehindAt(strings, StringsAt(buf, offset, end))
        decreases |buf| - offset
      {
        var len :- ReadUint8();
        var s :- ReadBytes(len);
        BehindOneMore(strings, s, Failure(NameEof), StringsAt(buf, offset, end));
        strings := strings + [s];
      }
      assert strings + [] == strings;
      r := Success(strings);
    }

    method DecodeSoa() returns (r: Result<RData, DecodeError>)
      modifies this
      ensures Follows(SoaAt(buf, old(offset)), r)
    {
      var mname :- DecodeName();
      var rname :- DecodeName();
      var serial :- ReadUint32();
      var refresh :- ReadUint32();
      var retry :- ReadUint32();
      var expire :- ReadUint32();
      var minimum :- ReadUint32();
      r := Success(SOA(mname, rname, serial, refresh, retry, expire, minimum));
    }

    method DecodeRData(rtype: nat, rdLength: nat) returns (r: Result<RData, DecodeError>)
      modifies this
      ensures Follows(RDataAt(buf, old(offset), rtype, rdLength), r)
    {
      var end := offset + rdLength;
      if end > |buf| { return Failure(RdataExceedsBuffer); }
      if rtype == TYPE_A {
        if rdLength != 4 { return Failure(BadLength); }
        var bytes := ReadBytes(4);
        var b := bytes.value;
        r := Success(A(Join(Octets(b), DOT)));
      } else if rtype == TYPE_AAAA {
        if rdLength != 16 { return Failure(BadLength); }
        var bytes := ReadBytes(16);
        var b := bytes.value;
        var parts: seq<Text> := [];
        var i := 0;
        while i < 16
          invariant 0 <= i <= 16 && i % 2 == 0
          invariant parts == Groups(b[..i])
        {
          parts := parts + [Hex(b[i] as int * 256 + b[i + 1])];
          i := i + 2;
        }
        assert b[..16] == b;
        r := Success(AAAA(Join(parts, COLON)));
      } else if rtype == TYPE_CNAME {
        var target :- DecodeName();
        if offset != end { offset := end; }
        r := Success(CNAME(target));
      } else if rtype == TYPE_NS {
        var target :- DecodeName();
        if offset != end { offset := end; }
        r := Success(NS(target));
      } else if rtype == TYPE_MX {
        var preference :- ReadUint16();
        var exchange :- DecodeName();
        if offset != end { offset := end; }
        r := Success(MX(preference, exchange));
      } else if rtype == TYPE_TXT {
        var strings :- DecodeStrings(end);
        r := Success(TXT(strings));
      } else if rtype == TYPE_SOA {
        var soa :- DecodeSoa();
        if offset != end { offset := end; }
        r := Success(soa);
      } else {
        r := Failure(UnsupportedType);
      }
    }

    method DecodeResourceRecord() returns (r: Result<Record, DecodeError>)
      modifies this
      ensures Follows(RecordAt(buf, old(offset)), r)
    {
      var name :- DecodeName();
      var rtype :- ReadUint16();
      var class_ :- ReadUint16();
      var ttl :- ReadUint32();
      var rdLength :- ReadUint16();
      var data :- DecodeRData(rtype, rdLength);
      r := Success(Record(name, class_, ttl, data));
    }

    method DecodeQuestions(n: nat) returns (r: Result<seq<Question>, DecodeError>)
      modifies this
      ensures Follows(QuestionsAt(buf, old(offset), n), r)
    {
      var questions: seq<Question> := [];
      ghost var meaning := QuestionsAt(buf, offset, n);
      BehindNothing(Failure(NameEof), meaning);
      for i := 0 to n
        invariant meaning == BehindAt(questions, QuestionsAt(buf, offset, n - i))
      {
        var q :- DecodeQuestion();
        BehindOneMore(questions, q, Failure(NameEof), QuestionsAt(buf, offset, n - i - 1));
        questions := questions + [q];
      }
      assert questions + [] == questions;
      r := Success(questions);
    }

    method DecodeRecords(n: nat) returns (r: Result<seq<Record>, DecodeError>)
      modifies this
      ensures Follows(RecordsAt(buf, old(offset), n), r)
    {
      hide RecordAt;
      var records: seq<Record> := [];
      ghost var meaning := RecordsAt(buf, offset, n);
      BehindNothing(Failure(NameEof), meaning);
      for i := 0 to n
        invariant meaning == BehindAt(records, RecordsAt(buf, offset, n - i))
      {
        var rr :- DecodeResourceRecord();
        BehindOneMore(records, rr, Failure(NameEof), RecordsAt(buf, offset, n - i - 1));
        records := records + [rr];
      }
      assert records + [] == records;
      r := Success(records);
    }
  }

  /** The whole decoder computes the meaning of the buffer. */
  method DecodeMessage(buf: seq<byte>) returns (r: Result<Message, DecodeError>)
    ensures r == MessageAt(buf)
  {
    var cursor := new Cursor(buf);
    var header :- cursor.DecodeHeader();
    var questions :- cursor.DecodeQuestions(header.qdcount);
    var answers :- cursor.DecodeRecords(header.ancount);
    var authorities :- cursor.DecodeRecords(header.nscount);
    var additionals :- cursor.DecodeRecords(header.arcount);
    r := Success(Message(header, questions, answers, authorities, additionals));
  }
}
