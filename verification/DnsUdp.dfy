/** Building responses, and what the UDP handler does to encoded ones. */
module DnsUdp {
  import opened Wrappers
  import opened Bytes
  import opened DnsMessage
  import opened DnsDecoding
  import opened DnsEncoding
  import opened DnsRoundTrip

  function BuildResponse(request: Message, answers: seq<Record>, authorities: seq<Record>, rcode: nat, aa: bool)
    : Message
  {
    Message(
      Header(request.header.id, true, request.header.opcode, aa, false, request.header.rd, false, 0, rcode,
             |request.questions|, |answers|, |authorities|, 0),
      request.questions, answers, authorities, [])
  }

  // ---------------------------------------------------------------- rewriting the id

  function WithId(m: Message, id: nat): Message {
    m.(header := m.header.(id := id))
  }

  /** Copies the bytes and overwrites the first two; writes past the end are ignored, as in a
      Uint8Array. */
  method RewriteId(bytes: seq<byte>, id: int) returns (out: array<byte>)
    ensures fresh(out) && out.Length == |bytes|
    ensures |bytes| >= 2 ==> out[..] == U16(id) + bytes[2..]
    ensures |bytes| < 2 ==> out[..] == U16(id)[..|bytes|]
  {
    out := new byte[|bytes|](i requires 0 <= i < |bytes| => bytes[i]);
    if out.Length > 0 { out[0] := (id / 256) % 256; }
    if out.Length > 1 { out[1] := id % 256; }
  }

  /** Overwriting the first two bytes of an encoding is encoding the message with the other id. */
  lemma RewriteIsReencode(m: Message, id: nat)
    requires EncMessage(m).Success?
    ensures EncMessage(WithId(m, id)) == Success(U16(id) + EncMessage(m).value[2..])
  {
    hide EncQuestions, EncRecords;
    var h, h' := EncHeader(m), EncHeader(WithId(m, id));
    var body := EncMessage(m).value[|h|..];
    assert EncMessage(m).value == h + body;
    assert h' == U16(id) + h[2..];
    assert EncMessage(WithId(m, id)).value == h' + body;
    assert EncMessage(m).value[2..] == h[2..] + body;
    assert h' + body == U16(id) + (h[2..] + body);
  }

  // ---------------------------------------------------------------- truncation

  function Truncated(request: Message, id: nat): Message {
    var m := BuildResponse(request, [], [], NOERROR, true);
    m.(header := m.header.(id := id, tc := true))
  }

  /** The reply sent, for an encoded response. */
  function Sent(encoded: seq<byte>, id: nat, request: Message): Encoded {
    if |encoded| <= MAX_UDP then Success(encoded) else EncMessage(Truncated(request, id))
  }

  method MaybeTruncateForUdp(encoded: seq<byte>, id: nat, request: Message) returns (r: Encoded)
    ensures r == Sent(encoded, id, request)
  {
    if |encoded| <= MAX_UDP { return Success(encoded); }
    var truncated := BuildResponse(request, [], [], NOERROR, true);
    truncated := truncated.(header := truncated.header.(id := id));
    truncated := truncated.(header := truncated.header.(tc := true));
    r := EncodeMessage(truncated);
  }

  ghost predicate SaysTruncated(m: Message, request: Message, id: nat) {
    && m.header == Header(id, true, request.header.opcode, true, true, request.header.rd, false, 0, 0,
                          |request.questions|, 0, 0, 0)
    && m.questions == request.questions && m.answers == [] && m.authorities == [] && m.additionals == []
  }

  lemma TruncatedLength(request: Message, id: nat)
    requires EncQuestions(request.questions).Success?
    ensures EncMessage(Truncated(request, id)).Success?
    ensures |EncMessage(Truncated(request, id)).value| == 12 + |EncQuestions(request.questions).value|
  {
    hide EncQuestions;
    HeaderLength(Truncated(request, id));
  }

  /** For a request with one question whose name encodes, the truncated reply has at most 271 bytes,
      so it fits a UDP reply; whoever decodes it sees an authoritative NOERROR reply to that request and question under
      the id, without records and with TC set. */
  lemma TruncationFits(request: Message, id: nat)
    requires |request.questions| == 1 && WfQuestions(request.questions)
    requires id < 0x1_0000 && request.header.opcode < 16
    ensures var e := EncMessage(Truncated(request, id));
            && e.Success? && |e.value| <= 12 + MAX_NAME + 4 <= MAX_UDP
            && MessageAt(e.value) == Success(Truncated(request, id))
    ensures SaysTruncated(Truncated(request, id), request, id)
  {
    var q := request.questions[0];
    QuestionsEncode(request.questions);
    assert EncQuestions(request.questions[1..]) == Success([]);
    WireLengthOf(SplitOn(q.name, DOT));
    TruncatedLength(request, id);
    assert WfMessage(Truncated(request, id));
    MessageRoundTrip(Truncated(request, id));
  }

  /** With any number of questions, a reply that had to be truncated fits exactly when the echoed
      questions leave room for the header; the listener does not check this. */
  lemma TruncationFitsExactly(request: Message, id: nat, encoded: seq<byte>)
    requires EncQuestions(request.questions).Success? && |encoded| > MAX_UDP
    ensures |EncMessage(Truncated(request, id)).value| <= MAX_UDP
       <==> |EncQuestions(request.questions).value| <= MAX_UDP - 12
  {
    TruncatedLength(request, id);
  }

  /** Section 4.2.1 of RFC 1035, for every response built from a request with one question: the reply that leaves has
      at most 512 bytes and decodes, with the request's id and question; it carries TC exactly when the response did
      not fit, and then it is authoritative, without error and without records; otherwise it is the whole response. */
  lemma ReplyMeaning(request: Message, answers: seq<Record>, authorities: seq<Record>, rcode: nat, aa: bool)
    requires |request.questions| == 1 && WfMessage(BuildResponse(request, answers, authorities, rcode, aa))
    ensures var response := BuildResponse(request, answers, authorities, rcode, aa);
            var full := EncMessage(response);
            && full.Success?
            && var reply := Sent(full.value, request.header.id, request);
               && reply.Success? && |reply.value| <= MAX_UDP
               && var seen := MessageAt(reply.value);
                  && seen.Success?
                  && seen.value.header.id == request.header.id && seen.value.questions == request.questions
                  && (seen.value.header.tc <==> |full.value| > MAX_UDP)
                  && (seen.value.header.tc ==> SaysTruncated(seen.value, request, request.header.id))
                  && (!seen.value.header.tc ==> seen.value == response)
  {
    hide EncMessage, MessageAt, WfQuestions;
    var response := BuildResponse(request, answers, authorities, rcode, aa);
    MessageRoundTrip(response);
    TruncationFits(request, request.header.id);
  }

  // ---------------------------------------------------------------- a truncated reply that does not fit

  function Roots(n: nat): seq<Question> {
    if n == 0 then [] else [Question([], 1, 1)] + Roots(n - 1)
  }

  lemma {:induction false} RootsLength(n: nat)
    ensures |Roots(n)| == n && EncQuestions(Roots(n)).Success? && |EncQuestions(Roots(n)).value| == 5 * n
  {
    if n > 0 {
      RootsLength(n - 1);
      assert Roots(n)[1..] == Roots(n - 1) && Roots(n)[0] == Question([], 1, 1);
      assert EncQuestion(Question([], 1, 1)) == Success([0] + (U16(1) + U16(1)));
    }
  }

  /** A request with 101 questions for the root: the reply to it, truncated, still has 517 bytes. */
  lemma TruncatedTooLong(request: Message, encoded: seq<byte>)
    requires request.questions == Roots(101) && |encoded| > MAX_UDP
    ensures Sent(encoded, request.header.id, request).Success?
    ensures |Sent(encoded, request.header.id, request).value| == 517 > MAX_UDP
  {
    RootsLength(101);
    TruncatedLength(request, request.header.id);
  }
}
