/** What the TCP listener does with one message: decode it, answer it from the cache or the resolver, and on an error
    say so with an empty SERVFAIL reply. That reply echoes the questions, and nothing catches an error in it. */
module DnsHandler {
  import opened Wrappers
  import opened Bytes
  import opened DnsMessage
  import opened DnsDecoding
  import opened DnsEncoding
  import opened DnsUdp
  import opened DnsRoundTrip
  import DnsReencode
  import DnsResolver
  import DnsCursor
  import DnsTcp
  import ResponseCache

  /** Ignored: nothing is written back. Rejected: the handler's promise rejects. */
  datatype Handled = Ignored | Replied(reply: seq<byte>) | Rejected(error: EncodeError)

  /** What the resolver's answer leads to; None when resolving threw. */
  function Answer(request: Message, resolved: Option<Message>): Handled {
    if resolved.Some? && EncMessage(resolved.value).Success? then Replied(EncMessage(resolved.value).value)
    else
      match EncMessage(BuildResponse(request, [], [], SERVFAIL, false))
      case Success(reply) => Replied(reply)
      case Failure(error) => Rejected(error)
  }

  function Handle(bytes: seq<byte>, cached: Option<seq<byte>>, resolved: Option<Message>): Handled {
    match MessageAt(bytes)
    case Failure(_) => Ignored
    case Success(request) =>
      match cached
      case Some(reply) =>
        var id := U16(request.header.id);
        Replied(if |reply| < 2 then id[..|reply|] else id + reply[2..])
      case None => Answer(request, resolved)
  }

  method HandleMessage(bytes: seq<byte>, cached: Option<seq<byte>>, resolved: Option<Message>) returns (h: Handled)
    ensures h == Handle(bytes, cached, resolved)
  {
    var decoded := DnsCursor.DecodeMessage(bytes);
    if decoded.Failure? { return Ignored; }
    var request := decoded.value;
    if cached.Some? {
      var out := RewriteId(cached.value, request.header.id);
      return Replied(out[..]);
    }
    if resolved.Some? {
      var encoded := EncodeMessage(resolved.value);
      if encoded.Success? { return Replied(encoded.value); }
    }
    var errResp := EncodeMessage(BuildResponse(request, [], [], SERVFAIL, false));
    h := if errResp.Success? then Replied(errResp.value) else Rejected(errResp.error);
  }

  lemma EchoEncodes(m: Message)
    requires m.answers == [] && m.authorities == [] && m.additionals == []
    ensures EncMessage(m).Success? <==> EncQuestions(m.questions).Success?
  {
    hide EncQuestions, EncHeader;
    assert EncRecords([]) == Success([]);
  }

  lemma MessageNeedsQuestions(m: Message)
    ensures EncMessage(m).Success? ==> EncQuestions(m.questions).Success?
  {
    hide EncQuestions, EncRecords, EncHeader;
  }

  /** The handler rejects exactly when the message decodes, nothing is cached for it, and its questions cannot be
      encoded again: whatever the resolver found, and whether or not it threw. Otherwise it replies, unless the
      message does not decode. */
  lemma RejectsExactly(bytes: seq<byte>, cached: Option<seq<byte>>, resolved: Option<Message>)
    requires resolved.Some? && MessageAt(bytes).Success? ==>
               resolved.value.questions == MessageAt(bytes).value.questions
    ensures Handle(bytes, cached, resolved).Rejected? <==>
              MessageAt(bytes).Success? && cached.None? && EncQuestions(MessageAt(bytes).value.questions).Failure?
    ensures Handle(bytes, cached, resolved).Ignored? <==> MessageAt(bytes).Failure?
  {
    hide EncQuestions, EncMessage, MessageAt;
    if MessageAt(bytes).Success? {
      EchoEncodes(BuildResponse(MessageAt(bytes).value, [], [], SERVFAIL, false));
      if resolved.Some? {
        MessageNeedsQuestions(resolved.value);
      }
    }
  }

  // ---------------------------------------------------------------- what an uncached reply says

  /** The empty SERVFAIL reply to the request. */
  ghost predicate SaysServfail(m: Message, request: Message) {
    && m.header == Header(request.header.id, true, request.header.opcode, false, false, request.header.rd, false, 0,
                          2, |request.questions|, 0, 0, 0)
    && m.questions == request.questions && m.answers == [] && m.authorities == [] && m.additionals == []
  }

  lemma DecodedForm(bytes: seq<byte>)
    requires MessageAt(bytes).Success?
    requires forall q :: q in MessageAt(bytes).value.questions ==> WfName(q.name)
    ensures var m := MessageAt(bytes).value;
            && m.header.id < 0x1_0000 && m.header.opcode < 16 && |m.questions| < 0x1_0000 && WfQuestions(m.questions)
  {
    hide QuestionsAt, RecordsAt, WfName, FlagsHeader;
    var (h, o1) := HeaderAt(bytes, 0).value;
    DecodedHeader(bytes);
    hide HeaderAt;
    DnsReencode.DecodedQuestions(bytes, o1, h.qdcount);
  }

  lemma DecodedHeader(bytes: seq<byte>)
    requires HeaderAt(bytes, 0).Success?
    ensures var h := HeaderAt(bytes, 0).value.0; h.id < 0x1_0000 && h.opcode < 16 && h.qdcount < 0x1_0000
  {
  }

  lemma DecodedId(bytes: seq<byte>)
    requires MessageAt(bytes).Success?
    ensures MessageAt(bytes).value.header.id < 0x1_0000
  {
    hide QuestionsAt, RecordsAt, HeaderAt;
    DecodedHeader(bytes);
  }

  lemma ServfailRoundTrip(bytes: seq<byte>)
    requires MessageAt(bytes).Success?
    requires forall q :: q in MessageAt(bytes).value.questions ==> WfName(q.name)
    ensures var m := BuildResponse(MessageAt(bytes).value, [], [], SERVFAIL, false);
            && SaysServfail(m, MessageAt(bytes).value)
            && EncMessage(m).Success? && MessageAt(EncMessage(m).value) == Success(m)
  {
    hide MessageAt, EncMessage, WfQuestions;
    DecodedForm(bytes);
    MessageRoundTrip(BuildResponse(MessageAt(bytes).value, [], [], SERVFAIL, false));
  }

  /** A request that decodes and is not cached is told what the resolver found: whoever decodes the reply sees exactly
      the resolver's message. If resolving threw, or its message cannot be encoded, the reply says SERVFAIL. */
  lemma UncachedReply(bytes: seq<byte>, resolved: Option<Message>)
    requires MessageAt(bytes).Success?
    ensures var h := Handle(bytes, None, resolved);
            && (resolved.Some? && WfMessage(resolved.value) ==>
                  h.Replied? && MessageAt(h.reply) == Success(resolved.value))
            && ((resolved.None? || EncMessage(resolved.value).Failure?)
                && (forall q :: q in MessageAt(bytes).value.questions ==> WfName(q.name)) ==>
                  && h.Replied? && MessageAt(h.reply).Success?
                  && SaysServfail(MessageAt(h.reply).value, MessageAt(bytes).value))
  {
    hide MessageAt, EncMessage, WfMessage, WfName, SaysServfail;
    if resolved.Some? && WfMessage(resolved.value) {
      MessageRoundTrip(resolved.value);
    }
    if forall q :: q in MessageAt(bytes).value.questions ==> WfName(q.name) {
      ServfailRoundTrip(bytes);
    }
  }

  /** From the bytes of a query to the bytes of its reply: one question of class IN in a zone served here, whose CNAMEs
      settle within the depth limit and lead to records. The reply decodes to the same id and question, NOERROR and
      authoritative, with the answers of section 3.6.2 of RFC 1034. */
  lemma QueryAnswered(bytes: seq<byte>, zone: DnsResolver.Zone, ttl: nat, maxDepth: nat)
    requires MessageAt(bytes).Success? && DnsResolver.Consistent(zone.find)
    requires var request := MessageAt(bytes).value;
             && |request.questions| == 1 && request.questions[0].qclass == 1
             && zone.apex(Lower(request.questions[0].name)).Some?
             && WfMessage(DnsResolver.Resolved(zone, request, ttl, maxDepth).response)
    requires var q := MessageAt(bytes).value.questions[0];
             var found := DnsResolver.Restart(zone.find, q.qtype, ttl, Lower(q.name), maxDepth);
             found.Some? && found.value != []
    ensures var request := MessageAt(bytes).value;
            var q := request.questions[0];
            var h := Handle(bytes, None, Some(DnsResolver.Resolved(zone, request, ttl, maxDepth).response));
            && h.Replied? && MessageAt(h.reply).Success?
            && var seen := MessageAt(h.reply).value;
               && seen.header.id == request.header.id && seen.questions == request.questions
               && seen.header.qr && seen.header.aa && seen.header.rcode == 0
               && seen.answers == DnsResolver.Restart(zone.find, q.qtype, ttl, Lower(q.name), maxDepth).value
               && seen.authorities == [] && seen.additionals == []
  {
    hide MessageAt, Handle, WfMessage, DnsResolver.Resolved, DnsResolver.Chase, DnsResolver.Restart, Lower;
    hide DnsResolver.InZone, DnsResolver.AllHeld, DnsResolver.IsLeastTtl;
    var request := MessageAt(bytes).value;
    UncachedReply(bytes, Some(DnsResolver.Resolved(zone, request, ttl, maxDepth).response));
    DnsResolver.ResolveMeaning(zone, request, ttl, maxDepth);
    DnsResolver.ReplyForm(zone, request, ttl, maxDepth);
    DnsResolver.ResolvedIsRestart(zone, request, ttl, maxDepth);
  }

  // ---------------------------------------------------------------- what a cached reply says

  /** The key under which a request is looked up, or under which its reply is stored: that of its first question. */
  function CacheKey(request: Message): Option<Text> {
    if request.questions == [] then None
    else
      var q := request.questions[0];
      Some(ResponseCache.Key(q.name, q.qtype, q.qclass))
  }

  /** The bytes of a cached response, with the id replaced, decode to the response with that id. */
  lemma CachedDecodes(response: Message, id: nat)
    requires WfMessage(response) && id < 0x1_0000
    ensures EncMessage(response).Success?
    ensures MessageAt(U16(id) + EncMessage(response).value[2..]) == Success(WithId(response, id))
  {
    hide EncMessage, MessageAt;
    MessageRoundTrip(response);
    RewriteIsReencode(response, id);
    WfWithId(response, id);
    MessageRoundTrip(WithId(response, id));
  }

  lemma WfWithId(m: Message, id: nat)
    requires WfMessage(m) && id < 0x1_0000
    ensures WfMessage(WithId(m, id))
  {
    hide WfQuestions, WfRecords;
  }

  lemma EncodedHeader(m: Message)
    requires EncMessage(m).Success?
    ensures |EncMessage(m).value| >= 12
  {
    hide EncQuestions, EncRecords;
    HeaderLength(m);
  }

  /** A request answered from the cache gets the response built for the request that filled the cache, under its own
      id. The opcode and the RD bit in it are the earlier request's. Its questions are the new request's exactly when
      that has one question only and spells its name in the same letters: the key folds case and covers the first
      question alone, so that a request with several questions can get an answer where the resolver would say
      FORMERR. */
  lemma HitMeaning(earlier: Message, answers: seq<Record>, authorities: seq<Record>, rcode: nat, aa: bool,
                   bytes: seq<byte>, resolved: Option<Message>)
    requires |earlier.questions| == 1 && WfMessage(BuildResponse(earlier, answers, authorities, rcode, aa))
    requires MessageAt(bytes).Success? && CacheKey(MessageAt(bytes).value) == CacheKey(earlier)
    ensures var request, response := MessageAt(bytes).value, BuildResponse(earlier, answers, authorities, rcode, aa);
            && EncMessage(response).Success?
            && var h := Handle(bytes, Some(EncMessage(response).value), resolved);
               && h.Replied? && MessageAt(h.reply) == Success(WithId(response, request.header.id))
               && var seen := WithId(response, request.header.id);
                  && seen.header.id == request.header.id
                  && seen.header.opcode == earlier.header.opcode && seen.header.rd == earlier.header.rd
                  && (seen.questions == request.questions <==>
                        |request.questions| == 1 && request.questions[0].name == earlier.questions[0].name)
  {
    hide EncMessage, MessageAt, WfMessage;
    var request, response := MessageAt(bytes).value, BuildResponse(earlier, answers, authorities, rcode, aa);
    DecodedId(bytes);
    CachedDecodes(response, request.header.id);
    EncodedHeader(response);
    SameKey(request, earlier);
  }

  lemma SameKey(request: Message, earlier: Message)
    requires CacheKey(request) == CacheKey(earlier) && |earlier.questions| == 1
    ensures earlier.questions == request.questions <==>
              |request.questions| == 1 && request.questions[0].name == earlier.questions[0].name
  {
    var q, e := request.questions[0], earlier.questions[0];
    ResponseCache.KeyInjective(q.name, q.qtype, q.qclass, e.name, e.qtype, e.qclass);
  }

  // ---------------------------------------------------------------- a query that is never answered

  /** A query for the name "..", sent as one label of two dots. */
  const DOTS: seq<byte> := [0, 1, 1, 0, 0, 1, 0, 0, 0, 0, 0, 0, 2, 46, 46, 0, 0, 1, 0, 1]

  lemma DotsName()
    ensures NameAt(DOTS, 12) == Success(([DOT, DOT], 16))
    ensures EncName([DOT, DOT]).Failure?
  {
    assert Labels(DOTS, 15, MAX_JUMPS) == Success([]);
    assert DOTS[13..15] == [DOT, DOT];
    assert [DOTS[13..15]] + [] == [[DOT, DOT]];
    assert Labels(DOTS, 12, MAX_JUMPS) == Success([[DOT, DOT]]);
    assert Join([[DOT, DOT]], DOT) == [DOT, DOT];
    assert NameEnd(DOTS, 12) == NameEnd(DOTS, 15) == 16;
    assert SplitOn([DOT, DOT], DOT)[0] == [];
  }

  lemma DotsDecode()
    ensures MessageAt(DOTS).Success?
    ensures MessageAt(DOTS).value.questions == [Question([DOT, DOT], 1, 1)]
    ensures EncQuestions(MessageAt(DOTS).value.questions).Failure?
  {
    DotsName();
    hide NameAt, EncName, FlagsHeader;
    var q := Question([DOT, DOT], 1, 1);
    assert HeaderAt(DOTS, 0) == Success((FlagsHeader(1, 256, 1, 0, 0, 0), 12));
    assert FlagsHeader(1, 256, 1, 0, 0, 0).qdcount == 1 by { DotsCounts(); }
    assert QuestionAt(DOTS, 12) == Success((q, 20));
    assert QuestionsAt(DOTS, 20, 0) == Success(([], 20));
    assert QuestionsAt(DOTS, 12, 1) == Success(([q], 20)) by { assert [q] + [] == [q]; }
    DotsCounts();
  }

  lemma DotsCounts()
    ensures var h := FlagsHeader(1, 256, 1, 0, 0, 0);
            h.qdcount == 1 && h.ancount == 0 && h.nscount == 0 && h.arcount == 0
  {
  }

  /** Such a query rejects the handler, so that a message behind it in the same chunk is never handed over although
      the connection is open, idle and has not overflowed. */
  lemma DotsStrand(good: seq<byte>, maxBuffer: nat, resolved: Option<Message>)
    requires 0 < |good| < 0x1_0000 && |good| + 24 <= maxBuffer
    requires resolved.Some? ==> resolved.value.questions == [Question([DOT, DOT], 1, 1)]
    ensures Handle(DOTS, None, resolved).Rejected?
    ensures var events := [DnsTcp.Data(DnsTcp.Frame(DOTS) + DnsTcp.Frame(good)), DnsTcp.Reject];
            var s := DnsTcp.Run(maxBuffer, events);
            && s.suspended == 0 && !s.overflowed && !s.ended && DnsTcp.Stranded(maxBuffer, events)
            && s.delivered == [DOTS] && DnsTcp.Frames(DnsTcp.Received(events)) == [DOTS, good]
  {
    DotsDecode();
    RejectsExactly(DOTS, None, resolved);
    hide Handle, MessageAt;
    DnsTcp.RejectionStrands(DOTS, good, maxBuffer);
  }
}
