/** DNS over TCP: length-prefixed messages reassembled from arbitrary chunks by callbacks that
    interleave. A `data` callback appends its chunk and then takes messages off the shared buffer
    one at a time; after each it awaits the handler, and meanwhile other callbacks run. A handler that
    rejects ends its callback without another pass. */
module DnsTcp {
  import opened Bytes

  // ---------------------------------------------------------------- frames

  /** The complete frames at the front of a stream, up to an empty or incomplete one. */
  function Frames(s: seq<byte>): seq<seq<byte>> {
    if |s| < 2 then []
    else
      var len := s[0] as int * 256 + s[1];
      if len == 0 || |s| < 2 + len then [] else [s[2..2 + len]] + Frames(s[2 + len..])
  }

  function Frame(m: seq<byte>): seq<byte> {
    U16(|m|) + m
  }

  function Framed(ms: seq<seq<byte>>): seq<byte> {
    if ms == [] then [] else Framed(ms[..|ms| - 1]) + Frame(ms[|ms| - 1])
  }

  ghost predicate Sendable(ms: seq<seq<byte>>) {
    forall i :: 0 <= i < |ms| ==> 0 < |ms[i]| < 0x1_0000
  }

  lemma OneFrame(m: seq<byte>, rest: seq<byte>)
    requires 0 < |m| < 0x1_0000
    ensures Frames(Frame(m) + rest) == [m] + Frames(rest)
  {
    var s := Frame(m) + rest;
    assert s[0] as int * 256 + s[1] == |m|;
    assert s[2..2 + |m|] == m && s[2 + |m|..] == rest;
  }

  lemma {:induction false} FramesOfFramed(ms: seq<seq<byte>>, rest: seq<byte>)
    requires Sendable(ms)
    ensures Frames(Framed(ms) + rest) == ms + Frames(rest)
    decreases |ms|
  {
    hide Frames, Frame;
    if ms == [] {
      assert Framed(ms) + rest == rest;
    } else {
      var front, last := ms[..|ms| - 1], ms[|ms| - 1];
      FramesOfFramed(front, Frame(last) + rest);
      OneFrame(last, rest);
      assert Framed(ms) + rest == Framed(front) + (Frame(last) + rest);
      assert ms == front + [last];
    }
  }

  /** The writer is the inverse of the reader. */
  lemma WriterInverse(ms: seq<seq<byte>>)
    requires Sendable(ms)
    ensures Frames(Framed(ms)) == ms
  {
    FramesOfFramed(ms, []);
    assert Framed(ms) + [] == Framed(ms);
  }

  /** A single written message reads back exactly when it is non-empty and its length fits 16 bits. */
  lemma OneMessage(m: seq<byte>)
    ensures Frames(Frame(m)) == [m] <==> 0 < |m| < 0x1_0000
  {
    if 0 < |m| < 0x1_0000 {
      OneFrame(m, []);
      assert Frame(m) + [] == Frame(m);
    } else {
      var s := Frame(m);
      var len := s[0] as int * 256 + s[1];
      assert len < 0x1_0000;
      if Frames(s) != [] {
        assert |Frames(s)[0]| == len;
      }
    }
  }

  /** Prefixes a message with its length in a fresh buffer. */
  method WriteWithLengthPrefix(bytes: seq<byte>) returns (framed: array<byte>)
    ensures fresh(framed) && framed[..] == Frame(bytes)
  {
    framed := new byte[2 + |bytes|];
    framed[0] := (|bytes| / 256) % 256;
    framed[1] := |bytes| % 256;
    forall i | 0 <= i < |bytes| {
      framed[2 + i] := bytes[i];
    }
    assert framed[..] == Frame(bytes);
  }

  // ---------------------------------------------------------------- the connection

  /** The state of one connection. `suspended` counts the callbacks awaiting the handler; they keep no
      data of their own. `stream` and `delivered` record everything received and handed over. */
  datatype State = State(
    buffer: seq<byte>, suspended: nat, overflowed: bool, ended: bool,
    stream: seq<byte>, delivered: seq<seq<byte>>)

  const INITIAL := State([], 0, false, false, [], [])

  /** One pass of the loop: up to the next await or return. */
  function Pass(s: State): State {
    var buf := s.buffer;
    if |buf| < 2 then s
    else
      var len := buf[0] as int * 256 + buf[1];
      if len == 0 then s.(ended := true)
      else if |buf| < 2 + len then s
      else s.(buffer := buf[2 + len..], delivered := s.delivered + [buf[2..2 + len]], suspended := s.suspended + 1)
  }

  /** A chunk arrives; or the handler that some suspended callback awaits returns, or rejects. */
  datatype Event = Data(chunk: seq<byte>) | Resume | Reject

  function Step(s: State, maxBuffer: nat, e: Event): State {
    match e
    case Data(chunk) =>
      var merged := s.(buffer := s.buffer + chunk, stream := s.stream + chunk);
      if |merged.buffer| > maxBuffer then merged.(overflowed := true, ended := true) else Pass(merged)
    case Resume =>
      if s.suspended == 0 then s else Pass(s.(suspended := s.suspended - 1))
    case Reject =>
      if s.suspended == 0 then s else s.(suspended := s.suspended - 1)
  }

  class Connection {
    const maxBuffer: nat
    var buffer: seq<byte>
    var suspended: nat
    var overflowed: bool
    var ended: bool
    ghost var stream: seq<byte>
    var delivered: seq<seq<byte>>

    ghost function Abs(): State
      reads this
    {
      State(buffer, suspended, overflowed, ended, stream, delivered)
    }

    constructor (maxBuffer: nat)
      ensures this.maxBuffer == maxBuffer && Abs() == INITIAL
    {
      this.maxBuffer := maxBuffer;
      buffer, suspended, overflowed, ended, stream, delivered := [], 0, false, false, [], [];
    }

    /** The body of the loop, up to the await of the handler or the return of the callback. */
    method LoopPass()
      modifies this
      ensures Abs() == Pass(old(Abs()))
    {
      var buf := buffer;
      if |buf| < 2 { return; }
      var msgLen := buf[0] as int * 256 + buf[1];
      if msgLen == 0 {
        ended := true;
        return;
      }
      if |buf| < 2 + msgLen { return; }
      var msgBytes := buf[2..2 + msgLen];
      buffer := buf[2 + msgLen..];
      delivered := delivered + [msgBytes];
      suspended := suspended + 1;
    }

    method OnData(chunk: seq<byte>)
      modifies this
      ensures Abs() == Step(old(Abs()), maxBuffer, Data(chunk))
    {
      var existing := buffer;
      var merged := existing + chunk;
      buffer := merged;
      stream := stream + chunk;
      if |buffer| > maxBuffer {
        overflowed, ended := true, true;
        return;
      }
      LoopPass();
    }

    /** The handler a callback was awaiting has finished. */
    method OnHandled()
      requires suspended > 0
      modifies this
      ensures Abs() == Step(old(Abs()), maxBuffer, Resume)
    {
      suspended := suspended - 1;
      LoopPass();
    }

    /** The handler a callback was awaiting has thrown, and the callback with it: nothing catches the error. */
    method OnRejected()
      requires suspended > 0
      modifies `suspended
      ensures Abs() == Step(old(Abs()), maxBuffer, Reject)
    {
      suspended := suspended - 1;
    }
  }

  // ---------------------------------------------------------------- every interleaving

  function Run(maxBuffer: nat, events: seq<Event>): State {
    if events == [] then INITIAL
    else Step(Run(maxBuffer, events[..|events| - 1]), maxBuffer, events[|events| - 1])
  }

  /** The chunk does not fit the buffer. */
  predicate Overflows(s: State, maxBuffer: nat, e: Event) {
    e.Data? && |s.buffer| + |e.chunk| > maxBuffer
  }

  /** A callback that goes over the buffer finds an empty message at its front. */
  predicate FindsEmpty(s: State, maxBuffer: nat, e: Event) {
    && (if e.Data? then !Overflows(s, maxBuffer, e) else e.Resume? && s.suspended > 0)
    && var b := if e.Data? then s.buffer + e.chunk else s.buffer;
       |b| >= 2 && b[0] == 0 && b[1] == 0
  }

  ghost predicate OverflowAt(maxBuffer: nat, events: seq<Event>, i: nat)
    requires i < |events|
  {
    Overflows(Run(maxBuffer, events[..i]), maxBuffer, events[i])
  }

  ghost predicate EmptyAt(maxBuffer: nat, events: seq<Event>, i: nat)
    requires i < |events|
  {
    FindsEmpty(Run(maxBuffer, events[..i]), maxBuffer, events[i])
  }

  /** Some chunk did not fit. */
  ghost predicate EverOverflows(maxBuffer: nat, events: seq<Event>) {
    exists i :: 0 <= i < |events| && OverflowAt(maxBuffer, events, i)
  }

  /** Some callback found an empty message. */
  ghost predicate EverEmpty(maxBuffer: nat, events: seq<Event>) {
    exists i :: 0 <= i < |events| && EmptyAt(maxBuffer, events, i)
  }

  lemma EverStep(maxBuffer: nat, events: seq<Event>)
    requires events != []
    ensures var n := |events| - 1;
            && (EverOverflows(maxBuffer, events) <==>
                  OverflowAt(maxBuffer, events, n) || EverOverflows(maxBuffer, events[..n]))
            && (EverEmpty(maxBuffer, events) <==> EmptyAt(maxBuffer, events, n) || EverEmpty(maxBuffer, events[..n]))
  {
    hide OverflowAt, EmptyAt;
    var n := |events| - 1;
    assert |events[..n]| == n;
    forall i | 0 <= i < n
      ensures OverflowAt(maxBuffer, events, i) <==> OverflowAt(maxBuffer, events[..n], i)
      ensures EmptyAt(maxBuffer, events, i) <==> EmptyAt(maxBuffer, events[..n], i)
    {
      EarlierEnds(maxBuffer, events, i);
    }
  }

  /** The connection is ended exactly by a chunk that does not fit or by an empty message, and nothing opens it
      again. */
  lemma {:induction false} EndedExactly(maxBuffer: nat, events: seq<Event>)
    ensures Run(maxBuffer, events).overflowed <==> EverOverflows(maxBuffer, events)
    ensures Run(maxBuffer, events).ended <==> EverOverflows(maxBuffer, events) || EverEmpty(maxBuffer, events)
  {
    if events != [] {
      hide Run, OverflowAt, EmptyAt, EverOverflows, EverEmpty;
      EndedExactly(maxBuffer, events[..|events| - 1]);
      EverStep(maxBuffer, events);
      LastEnds(maxBuffer, events);
    }
  }

  lemma EarlierEnds(maxBuffer: nat, events: seq<Event>, i: nat)
    requires i < |events| - 1
    ensures OverflowAt(maxBuffer, events, i) <==> OverflowAt(maxBuffer, events[..|events| - 1], i)
    ensures EmptyAt(maxBuffer, events, i) <==> EmptyAt(maxBuffer, events[..|events| - 1], i)
  {
    hide Run, Overflows, FindsEmpty;
    assert events[..|events| - 1][..i] == events[..i];
  }

  lemma LastEnds(maxBuffer: nat, events: seq<Event>)
    requires events != []
    ensures var n := |events| - 1;
            var s := Run(maxBuffer, events[..n]);
            && (Run(maxBuffer, events).overflowed <==> s.overflowed || OverflowAt(maxBuffer, events, n))
            && (Run(maxBuffer, events).ended <==>
                  s.ended || OverflowAt(maxBuffer, events, n) || EmptyAt(maxBuffer, events, n))
  {
    hide Step, Overflows, FindsEmpty;
    StepEnds(Run(maxBuffer, events[..|events| - 1]), maxBuffer, events[|events| - 1]);
  }

  lemma StepEnds(s: State, maxBuffer: nat, e: Event)
    ensures Step(s, maxBuffer, e).overflowed <==> s.overflowed || Overflows(s, maxBuffer, e)
    ensures Step(s, maxBuffer, e).ended <==> s.ended || Overflows(s, maxBuffer, e) || FindsEmpty(s, maxBuffer, e)
  {
  }

  /** Everything received is accounted for: as messages handed over, and as what is left in the buffer. */
  ghost predicate Inv(s: State) {
    Sendable(s.delivered) && s.stream == Framed(s.delivered) + s.buffer
  }

  /** A pass hands over the first frame of the buffer, or there is none and it leaves the buffer. */
  lemma PassTakesFirst(s: State) returns (m: seq<byte>)
    ensures var s' := Pass(s);
            if s'.suspended == s.suspended
            then s'.buffer == s.buffer && s'.delivered == s.delivered && Frames(s.buffer) == []
            else && 0 < |m| < 0x1_0000 && s.buffer == Frame(m) + s'.buffer
                 && s'.delivered == s.delivered + [m] && s'.suspended == s.suspended + 1
    ensures Pass(s).stream == s.stream && Pass(s).overflowed == s.overflowed
  {
    m := [];
    var buf := s.buffer;
    if |buf| >= 2 {
      var len := buf[0] as int * 256 + buf[1];
      if 0 < len <= |buf| - 2 {
        m := buf[2..2 + len];
        assert U16(len) == [buf[0], buf[1]];
        assert buf == [buf[0], buf[1]] + m + buf[2 + len..];
      }
    }
  }

  /** A pass keeps the stream accounted for, and ends without a suspension only when no frame is left. */
  lemma PassKeeps(s: State)
    requires Inv(s)
    ensures Inv(Pass(s))
    ensures Pass(s).suspended == 0 ==> Frames(Pass(s).buffer) == []
  {
    var m := PassTakesFirst(s);
    hide Frames, Frame, Pass;
    var s' := Pass(s);
    if s'.suspended != s.suspended {
      assert s'.delivered[..|s.delivered|] == s.delivered;
      assert Framed(s'.delivered) + s'.buffer == Framed(s.delivered) + (Frame(m) + s'.buffer);
    }
  }

  lemma StepKeeps(s: State, maxBuffer: nat, e: Event)
    requires Inv(s)
    ensures Inv(Step(s, maxBuffer, e))
  {
    hide Frames, Framed, Pass;
    match e
    case Data(chunk) =>
      var merged := s.(buffer := s.buffer + chunk, stream := s.stream + chunk);
      assert merged.stream == Framed(s.delivered) + merged.buffer;
      PassKeeps(merged);
    case Resume =>
      if s.suspended > 0 {
        PassKeeps(s.(suspended := s.suspended - 1));
      }
    case Reject =>
  }

  lemma {:induction false} RunKeeps(maxBuffer: nat, events: seq<Event>)
    ensures Inv(Run(maxBuffer, events))
  {
    if events == [] {
      assert Framed([]) + [] == [];
    } else {
      RunKeeps(maxBuffer, events[..|events| - 1]);
      StepKeeps(Run(maxBuffer, events[..|events| - 1]), maxBuffer, events[|events| - 1]);
    }
  }

  /** Everything the connection received, in order. */
  function Received(events: seq<Event>): seq<byte> {
    if events == [] then []
    else
      var last := events[|events| - 1];
      Received(events[..|events| - 1]) + if last.Data? then last.chunk else []
  }

  lemma {:induction false} StreamIsReceived(maxBuffer: nat, events: seq<Event>)
    ensures Run(maxBuffer, events).stream == Received(events)
  {
    if events != [] {
      StreamIsReceived(maxBuffer, events[..|events| - 1]);
    }
  }

  /** At event i the last suspended callback dies of a rejection while a whole frame is waiting, and no chunk
      arrives afterwards to start another callback. */
  ghost predicate StrandedAt(maxBuffer: nat, events: seq<Event>, i: nat)
    requires i < |events|
  {
    var before := Run(maxBuffer, events[..i]);
    && events[i].Reject? && before.suspended == 1 && Frames(before.buffer) != []
    && forall j :: i < j < |events| ==> !events[j].Data?
  }

  ghost predicate Stranded(maxBuffer: nat, events: seq<Event>) {
    exists i :: 0 <= i < |events| && StrandedAt(maxBuffer, events, i)
  }

  lemma StrandedLater(maxBuffer: nat, events: seq<Event>, i: nat)
    requires i < |events| - 1
    ensures StrandedAt(maxBuffer, events, i)
       <==> StrandedAt(maxBuffer, events[..|events| - 1], i) && !events[|events| - 1].Data?
  {
    var front := events[..|events| - 1];
    assert events[..i] == front[..i];
  }

  /** What the last event adds: it strands frames itself, or leaves them stranded. */
  lemma StrandedStep(maxBuffer: nat, events: seq<Event>)
    requires events != []
    ensures Stranded(maxBuffer, events)
       <==> StrandedAt(maxBuffer, events, |events| - 1)
            || (!events[|events| - 1].Data? && Stranded(maxBuffer, events[..|events| - 1]))
  {
    hide StrandedAt;
    var n := |events| - 1;
    forall i | 0 <= i < n
      ensures StrandedAt(maxBuffer, events, i) <==> StrandedAt(maxBuffer, events[..n], i) && !events[n].Data?
    {
      StrandedLater(maxBuffer, events, i);
    }
  }

  /** Once frames are stranded no callback is left, and nothing is handed over until another chunk arrives. */
  lemma {:induction false} StrandedIdle(maxBuffer: nat, events: seq<Event>)
    ensures Stranded(maxBuffer, events) ==>
              Run(maxBuffer, events).suspended == 0 && Frames(Run(maxBuffer, events).buffer) != []
  {
    if events != [] {
      StrandedIdle(maxBuffer, events[..|events| - 1]);
      StrandedStep(maxBuffer, events);
      hide Stranded, Frames;
    }
  }

  /** A whole frame in an idle connection was left there by a rejection, or was there already and no chunk came. */
  lemma StepEmpties(s: State, maxBuffer: nat, e: Event)
    requires Inv(s)
    ensures var s' := Step(s, maxBuffer, e);
            s'.suspended == 0 && !s'.overflowed && Frames(s'.buffer) != [] ==>
              && !e.Data? && !s.overflowed && Frames(s.buffer) != []
              && (s.suspended == 0 || (e.Reject? && s.suspended == 1))
  {
    hide Frames, Framed, Pass;
    match e
    case Data(chunk) =>
      var merged := s.(buffer := s.buffer + chunk, stream := s.stream + chunk);
      assert merged.stream == Framed(s.delivered) + merged.buffer;
      PassKeeps(merged);
      PassFrame(merged);
    case Resume =>
      if s.suspended > 0 {
        PassKeeps(s.(suspended := s.suspended - 1));
        PassFrame(s.(suspended := s.suspended - 1));
      }
    case Reject =>
  }

  /** Without overflow, a whole frame stays behind in an idle connection only if it was stranded. */
  lemma {:induction false} IdleIsEmpty(maxBuffer: nat, events: seq<Event>)
    ensures var s := Run(maxBuffer, events);
            s.suspended == 0 && !s.overflowed && Frames(s.buffer) != [] ==> Stranded(maxBuffer, events)
  {
    if events != [] {
      var n := |events| - 1;
      var s, e := Run(maxBuffer, events[..n]), events[n];
      IdleIsEmpty(maxBuffer, events[..n]);
      StrandedStep(maxBuffer, events);
      RunKeeps(maxBuffer, events[..n]);
      StepEmpties(s, maxBuffer, e);
      hide Stranded, Frames, Step, Inv;
    }
  }

  lemma PassFrame(s: State)
    ensures Pass(s).overflowed == s.overflowed
  {
  }

  /** For every split into chunks and every interleaving of the callbacks, rejections, empty frames and overflow
      included: the messages handed to the handler are the first frames of the received stream, each once and in
      order, and what is left in the buffer holds the others. When no callback is suspended and the buffer never
      overflowed, every frame has been handed over, unless some were stranded: exactly when the last callback
      to end was rejected while a whole frame was waiting, and no chunk has arrived since. */
  lemma Reassembly(maxBuffer: nat, events: seq<Event>)
    ensures var s := Run(maxBuffer, events);
            && Frames(Received(events)) == s.delivered + Frames(s.buffer)
            && (s.suspended == 0 && !s.overflowed ==>
                  (s.delivered == Frames(Received(events)) <==> !Stranded(maxBuffer, events)))
  {
    var s := Run(maxBuffer, events);
    RunKeeps(maxBuffer, events);
    StreamIsReceived(maxBuffer, events);
    FramesOfFramed(s.delivered, s.buffer);
    StrandedIdle(maxBuffer, events);
    IdleIsEmpty(maxBuffer, events);
    hide Stranded, Run;
    if Frames(s.buffer) == [] {
      assert s.delivered + [] == s.delivered;
    } else {
      assert |s.delivered + Frames(s.buffer)| > |s.delivered|;
    }
  }

  /** If no handler rejects, nothing is stranded. */
  lemma NoRejection(maxBuffer: nat, events: seq<Event>)
    requires forall i :: 0 <= i < |events| ==> !events[i].Reject?
    ensures !Stranded(maxBuffer, events)
  {
  }

  /** What was sent with the writer has all arrived, once the callbacks have ended without overflow, exactly when
      no frame is stranded. */
  lemma SentIsDelivered(maxBuffer: nat, events: seq<Event>, sent: seq<seq<byte>>)
    requires Sendable(sent) && Received(events) == Framed(sent)
    requires Run(maxBuffer, events).suspended == 0 && !Run(maxBuffer, events).overflowed
    ensures Run(maxBuffer, events).delivered == sent <==> !Stranded(maxBuffer, events)
    ensures exists left :: sent == Run(maxBuffer, events).delivered + left
  {
    Reassembly(maxBuffer, events);
    WriterInverse(sent);
  }

  lemma PassTwo(s: State, m: seq<byte>, rest: seq<byte>)
    requires 0 < |m| < 0x1_0000 && s.buffer == Frame(m) + rest
    ensures Pass(s) == s.(buffer := rest, delivered := s.delivered + [m], suspended := s.suspended + 1)
  {
    var f, b := Frame(m), s.buffer;
    assert b[0] == f[0] && b[1] == f[1] && b[2..2 + |m|] == m && b[2 + |m|..] == rest;
  }

  lemma AfterTwo(bad: seq<byte>, good: seq<byte>, maxBuffer: nat)
    requires 0 < |bad| < 0x1_0000 && |bad| + |good| + 4 <= maxBuffer
    ensures var stream := Frame(bad) + Frame(good);
            Run(maxBuffer, [Data(stream)]) == State(Frame(good), 1, false, false, stream, [bad])
  {
    var stream := Frame(bad) + Frame(good);
    assert [Data(stream)][..0] == [] && [] + stream == stream && [] + [bad] == [bad];
    assert Run(maxBuffer, []) == INITIAL;
    PassTwo(INITIAL.(buffer := stream, stream := stream), bad, Frame(good));
    hide Pass;
  }

  /** Two messages in one chunk, the first of which makes the handler reject: the second is stranded, although the
      connection is idle, open and has not overflowed. */
  lemma RejectionStrands(bad: seq<byte>, good: seq<byte>, maxBuffer: nat)
    requires 0 < |bad| < 0x1_0000 && 0 < |good| < 0x1_0000 && |bad| + |good| + 4 <= maxBuffer
    ensures var events := [Data(Frame(bad) + Frame(good)), Reject];
            var s := Run(maxBuffer, events);
            && s.suspended == 0 && !s.overflowed && !s.ended && Stranded(maxBuffer, events)
            && s.delivered == [bad] && Frames(Received(events)) == [bad, good]
  {
    hide Run, Pass, Frame, Frames, Framed;
    var stream := Frame(bad) + Frame(good);
    var events := [Data(stream), Reject];
    AfterTwo(bad, good, maxBuffer);
    TwoFrames(bad, good);
    RunSnoc(maxBuffer, [Data(stream)], Reject);
    assert events == [Data(stream)] + [Reject] && events[..1] == [Data(stream)];
    hide Received;
    assert Stranded(maxBuffer, events) by {
      assert StrandedAt(maxBuffer, events, 1);
    }
    hide Stranded;
    StreamIsReceived(maxBuffer, events);
  }

  lemma RunSnoc(maxBuffer: nat, front: seq<Event>, e: Event)
    ensures Run(maxBuffer, front + [e]) == Step(Run(maxBuffer, front), maxBuffer, e)
  {
    assert (front + [e])[..|front|] == front;
  }

  lemma TwoFrames(a: seq<byte>, b: seq<byte>)
    requires 0 < |a| < 0x1_0000 && 0 < |b| < 0x1_0000
    ensures Frames(Frame(a) + Frame(b)) == [a, b] && Frames(Frame(b)) == [b]
  {
    OneFrame(a, Frame(b));
    OneFrame(b, []);
    hide Frame, Frames;
    assert Frame(b) + [] == Frame(b);
  }

  function Measure(s: State): nat {
    |s.buffer| + s.suspended
  }

  /** A callback that ends, either way, uses up a suspension or bytes of the buffer. */
  lemma EndUsesUp(s: State, maxBuffer: nat, e: Event)
    requires !e.Data?
    ensures Measure(Step(s, maxBuffer, e)) <= if s.suspended == 0 then Measure(s) else Measure(s) - 1
    ensures s.suspended == 0 ==> Step(s, maxBuffer, e) == s
  {
  }

  /** Suspended callbacks finish: between chunks, no more than as many of them can end as the buffer has bytes and
      the connection suspensions, whichever of their handlers return and whichever reject. */
  lemma {:induction false} Drains(maxBuffer: nat, events: seq<Event>, ends: seq<Event>)
    requires forall i :: 0 <= i < |ends| ==> !ends[i].Data?
    requires |ends| >= Measure(Run(maxBuffer, events))
    ensures Run(maxBuffer, events + ends).suspended == 0
    decreases |ends|
  {
    var s := Run(maxBuffer, events);
    if ends == [] {
      assert events + [] == events;
    } else {
      var more := events + [ends[0]];
      assert more[..|events|] == events && more + ends[1..] == events + ends;
      EndUsesUp(s, maxBuffer, ends[0]);
      if s.suspended > 0 || |ends| > Measure(s) {
        Drains(maxBuffer, more, ends[1..]);
      } else {
        StaysIdle(maxBuffer, events, ends);
      }
    }
  }

  lemma {:induction false} StaysIdle(maxBuffer: nat, events: seq<Event>, ends: seq<Event>)
    requires forall i :: 0 <= i < |ends| ==> !ends[i].Data?
    requires Run(maxBuffer, events).suspended == 0
    ensures Run(maxBuffer, events + ends) == Run(maxBuffer, events)
  {
    if ends == [] {
      assert events + [] == events;
    } else {
      var n := |ends| - 1;
      StaysIdle(maxBuffer, events, ends[..n]);
      assert (events + ends)[..|events + ends| - 1] == events + ends[..n];
    }
  }

  // ---------------------------------------------------------------- one message

  /** While the frame of m is arriving: nothing is handed over before its last byte, and then m is, unless the
      frame is longer than the buffer may be. */
  ghost predicate Arriving(s: State, maxBuffer: nat, m: seq<byte>) {
    if s.delivered == [] then s.buffer == s.stream && s.suspended == 0 && (s.stream == Frame(m) ==> |m| + 2 > maxBuffer)
    else s.delivered == [m] && s.buffer == [] && s.stream == Frame(m) && |m| + 2 <= maxBuffer
  }

  lemma PartOfFrame(s: State, m: seq<byte>)
    requires 0 < |m| < 0x1_0000 && s.buffer <= Frame(m)
    ensures s.buffer != Frame(m) ==> Pass(s) == s
    ensures s.buffer == Frame(m) ==>
              Pass(s) == s.(buffer := [], delivered := s.delivered + [m], suspended := s.suspended + 1)
  {
    var f, b := Frame(m), s.buffer;
    assert f[0] as int * 256 + f[1] == |m| && f[2..] == m;
    assert b == f[..|b|] && f[..|f|] == f;
    if |b| >= 2 {
      assert b[0] == f[0] && b[1] == f[1];
      if b == f {
        assert b[2..2 + |m|] == m && b[2 + |m|..] == [];
      } else {
        assert |b| < |f|;
      }
    }
  }

  lemma StepArrives(s: State, maxBuffer: nat, m: seq<byte>, e: Event)
    requires 0 < |m| < 0x1_0000 && Arriving(s, maxBuffer, m)
    requires Step(s, maxBuffer, e).stream <= Frame(m)
    ensures Arriving(Step(s, maxBuffer, e), maxBuffer, m)
  {
    match e
    case Data(chunk) =>
      var merged := s.(buffer := s.buffer + chunk, stream := s.stream + chunk);
      PassKeepsStream(merged);
      assert merged.stream <= Frame(m);
      if s.delivered == [] {
        PartOfFrame(merged, m);
      } else {
        assert |chunk| == 0 && merged.stream == s.stream && merged.buffer == [];
        PartOfFrame(merged, m);
      }
    case Resume =>
    case Reject =>
  }

  lemma PassKeepsStream(s: State)
    ensures Pass(s).stream == s.stream
  {
  }

  lemma {:induction false} Arrives(maxBuffer: nat, m: seq<byte>, events: seq<Event>)
    requires 0 < |m| < 0x1_0000 && Received(events) <= Frame(m)
    ensures Arriving(Run(maxBuffer, events), maxBuffer, m)
  {
    StreamIsReceived(maxBuffer, events);
    if events != [] {
      var n := |events| - 1;
      assert Received(events[..n]) <= Received(events);
      Arrives(maxBuffer, m, events[..n]);
      StepArrives(Run(maxBuffer, events[..n]), maxBuffer, m, events[n]);
    } else {
      assert Frame(m) != [];
    }
  }

  /** A message of any size that is all a connection receives, in whatever chunks, is handed over exactly when its
      frame fits the buffer limit; with the default limit of 65536 bytes the longest messages, of 65535 bytes, are
      refused. */
  lemma LargestMessage(maxBuffer: nat, m: seq<byte>, events: seq<Event>)
    requires 0 < |m| < 0x1_0000 && Received(events) == Frame(m)
    ensures Run(maxBuffer, events).delivered == (if |m| + 2 <= maxBuffer then [m] else [])
  {
    Arrives(maxBuffer, m, events);
    StreamIsReceived(maxBuffer, events);
  }
}
