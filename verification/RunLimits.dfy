/** The race of one invocation against its time and memory limits: a timeout, a self-rearming memory poll, and the
    invocation's own settlement, in any order. Callbacks may also arrive after the race is over. */
module RunLimits {
  datatype Limits = Limits(timeoutMs: int, memoryMb: int)

  datatype Settlement = Resolved(value: string) | Rejected(error: string)

  /** The callbacks, with the clock and heap readings they take. */
  datatype Event =
    | TimeoutFires
    | PollFires(heap: int, elapsedMs: int)
    | RunSettles(how: Settlement, elapsedMs: int)

  datatype Outcome = Ok(how: Settlement) | Timeout(afterMs: int) | Memory(usedBytes: int)

  datatype RunResult = RunResult(outcome: Outcome, durationMs: int, peakBytes: int)

  /** resolved lists every value the outer promise has been given. */
  datatype State = State(
    settled: bool, timeoutPending: bool, pollPending: bool, peakBytes: int, resolved: seq<RunResult>)

  function Cap(l: Limits): int {
    l.memoryMb * 1024 * 1024
  }

  /** The heap delta a sample shows. */
  function Used(baseline: int, heap: int): nat {
    if heap < baseline then 0 else heap - baseline
  }

  const START := State(false, true, true, 0, [])

  function Finished(s: State, r: RunResult): State {
    if s.settled then s else State(true, false, false, s.peakBytes, s.resolved + [r])
  }

  function Step(l: Limits, baseline: int, s: State, e: Event): State {
    match e
    case TimeoutFires =>
      Finished(s.(timeoutPending := false), RunResult(Timeout(l.timeoutMs), l.timeoutMs, s.peakBytes))
    case PollFires(heap, ms) =>
      if s.settled then s.(pollPending := false)
      else
        var used := Used(baseline, heap);
        var s' := s.(peakBytes := if used > s.peakBytes then used else s.peakBytes);
        if used >= Cap(l) then Finished(s', RunResult(Memory(used), ms, s'.peakBytes))
        else s'.(pollPending := true)
    case RunSettles(how, ms) =>
      Finished(s, RunResult(Ok(how), ms, s.peakBytes))
  }

  /** The state after a series of callbacks, oldest first. */
  function After(l: Limits, baseline: int, events: seq<Event>): State {
    if events == [] then START
    else Step(l, baseline, After(l, baseline, events[..|events| - 1]), events[|events| - 1])
  }

  class Race {
    const limits: Limits
    const baseline: int
    var settled: bool
    var timeoutPending: bool
    var pollPending: bool
    var peakBytes: int
    var resolved: seq<RunResult>

    ghost function Abs(): State
      reads this
    {
      State(settled, timeoutPending, pollPending, peakBytes, resolved)
    }

    constructor (l: Limits, heap: int)
      ensures limits == l && baseline == heap && Abs() == START
    {
      limits, baseline := l, heap;
      settled, peakBytes, resolved := false, 0, [];
      timeoutPending, pollPending := true, true;
    }

    method Finish(r: RunResult)
      modifies this
      ensures Abs() == Finished(old(Abs()), r)
    {
      if settled { return; }
      settled := true;
      timeoutPending := false;
      pollPending := false;
      resolved := resolved + [r];
    }

    method OnTimeout()
      modifies this
      ensures Abs() == Step(limits, baseline, old(Abs()), TimeoutFires)
    {
      timeoutPending := false;
      Finish(RunResult(Timeout(limits.timeoutMs), limits.timeoutMs, peakBytes));
    }

    method OnPoll(heap: int, elapsedMs: int)
      modifies this
      ensures Abs() == Step(limits, baseline, old(Abs()), PollFires(heap, elapsedMs))
    {
      pollPending := false;
      if settled { return; }
      var used := if heap < baseline then 0 else heap - baseline;
      if used > peakBytes { peakBytes := used; }
      if used >= limits.memoryMb * 1024 * 1024 {
        Finish(RunResult(Memory(used), elapsedMs, peakBytes));
        return;
      }
      pollPending := true;
    }

    method OnSettled(how: Settlement, elapsedMs: int)
      modifies this
      ensures Abs() == Step(limits, baseline, old(Abs()), RunSettles(how, elapsedMs))
    {
      Finish(RunResult(Ok(how), elapsedMs, peakBytes));
    }
  }

  // ---------------------------------------------------------------- the race, told without state

  /** Whether a callback, on its own, can end the race: a sample does when the heap has grown by the memory limit, in
      megabytes of 2^20 bytes, since the start. */
  predicate Ends(l: Limits, baseline: int, e: Event) {
    e.PollFires? ==> e.heap - baseline >= l.memoryMb * 0x10_0000 || l.memoryMb <= 0
  }

  /** The i-th callback is the first that can end the race. */
  ghost predicate FirstEnd(l: Limits, baseline: int, events: seq<Event>, i: nat) {
    i < |events| && Ends(l, baseline, events[i]) && forall j :: 0 <= j < i ==> !Ends(l, baseline, events[j])
  }

  /** p is the largest growth of the heap sampled, or zero when there is none. */
  ghost predicate IsPeak(baseline: int, events: seq<Event>, p: int) {
    && p >= 0 && (forall e :: e in events && e.PollFires? ==> e.heap - baseline <= p)
    && (p == 0 || exists e :: e in events && e.PollFires? && e.heap - baseline == p)
  }

  /** What the caller is told when callback e ends the race at peak p. */
  function Told(l: Limits, baseline: int, e: Event, p: int): RunResult {
    match e
    case TimeoutFires => RunResult(Timeout(l.timeoutMs), l.timeoutMs, p)
    case PollFires(heap, ms) => RunResult(Memory(Used(baseline, heap)), ms, p)
    case RunSettles(how, ms) => RunResult(Ok(how), ms, p)
  }

  lemma PeakGrows(baseline: int, events: seq<Event>, p: int, e: Event)
    requires IsPeak(baseline, events, p) && p >= 0
    ensures e.PollFires? ==> var u := Used(baseline, e.heap); IsPeak(baseline, events + [e], if u > p then u else p)
    ensures !e.PollFires? ==> IsPeak(baseline, events + [e], p)
  {
    if p != 0 {
      var w :| w in events && w.PollFires? && w.heap - baseline == p;
      assert w in events + [e];
    }
    assert e in events + [e];
  }

  /** Until a callback can end the race it runs on, both timers are armed and the peak follows the samples. */
  lemma {:induction false} RunsOn(l: Limits, baseline: int, events: seq<Event>)
    requires forall j :: 0 <= j < |events| ==> !Ends(l, baseline, events[j])
    ensures var s := After(l, baseline, events);
            s == State(false, true, true, s.peakBytes, []) && s.peakBytes >= 0 && IsPeak(baseline, events, s.peakBytes)
  {
    if events != [] {
      var n := |events| - 1;
      RunsOn(l, baseline, events[..n]);
      PeakGrows(baseline, events[..n], After(l, baseline, events[..n]).peakBytes, events[n]);
      assert events[..n] + [events[n]] == events;
    }
  }

  lemma StepEnds(l: Limits, baseline: int, s: State, e: Event)
    requires s == State(false, true, true, s.peakBytes, []) && s.peakBytes >= 0 && Ends(l, baseline, e)
    ensures var u := if e.PollFires? then Used(baseline, e.heap) else 0;
            var p := if u > s.peakBytes then u else s.peakBytes;
            Step(l, baseline, s, e) == State(true, false, false, p, [Told(l, baseline, e, p)])
  {
  }

  lemma EndsNow(l: Limits, baseline: int, events: seq<Event>)
    requires events != [] && FirstEnd(l, baseline, events, |events| - 1)
    ensures var n, s := |events| - 1, After(l, baseline, events);
            && s == State(true, false, false, s.peakBytes, [Told(l, baseline, events[n], s.peakBytes)])
            && IsPeak(baseline, events, s.peakBytes)
  {
    hide IsPeak, Step, Told, Ends, Used;
    var n := |events| - 1;
    RunsOn(l, baseline, events[..n]);
    StepEnds(l, baseline, After(l, baseline, events[..n]), events[n]);
    PeakGrows(baseline, events[..n], After(l, baseline, events[..n]).peakBytes, events[n]);
    assert events[..n] + [events[n]] == events;
  }

  /** The first callback that can end the race does: the outer promise is resolved once, with that callback's result
      and the peak sampled up to it, no timer stays armed, and nothing that arrives later changes any of it. */
  lemma {:induction false} SettlesOnce(l: Limits, baseline: int, events: seq<Event>, i: nat)
    requires FirstEnd(l, baseline, events, i)
    ensures var s := After(l, baseline, events);
            && s == State(true, false, false, s.peakBytes, [Told(l, baseline, events[i], s.peakBytes)])
            && IsPeak(baseline, events[..i + 1], s.peakBytes)
  {
    hide IsPeak;
    var n := |events| - 1;
    if i == n {
      EndsNow(l, baseline, events);
      assert events == events[..i + 1];
    } else {
      hide Ends, Used, Told;
      assert events[..n][..i + 1] == events[..i + 1];
      SettlesOnce(l, baseline, events[..n], i);
    }
  }

  lemma {:induction false} FindEnd(l: Limits, baseline: int, events: seq<Event>, from: nat) returns (i: nat)
    requires from <= |events| && forall j :: 0 <= j < from ==> !Ends(l, baseline, events[j])
    ensures if i < |events| then FirstEnd(l, baseline, events, i)
            else forall j :: 0 <= j < |events| ==> !Ends(l, baseline, events[j])
    decreases |events| - from
  {
    i := from;
    if from < |events| && !Ends(l, baseline, events[from]) {
      i := FindEnd(l, baseline, events, from + 1);
    }
  }

  /** Settled or not, for every series of callbacks; and a memory outcome always has a sample at the cap behind it,
      which is then the peak reported. */
  lemma RaceMeaning(l: Limits, baseline: int, events: seq<Event>)
    ensures var s := After(l, baseline, events);
            && (s.settled <==> exists i :: FirstEnd(l, baseline, events, i))
            && s.timeoutPending == s.pollPending == !s.settled
            && |s.resolved| == (if s.settled then 1 else 0)
            && (s.settled && s.resolved[0].outcome.Memory? ==>
                  && s.resolved[0].outcome.usedBytes == s.resolved[0].peakBytes >= l.memoryMb * 0x10_0000
                  && exists e :: e in events && e.PollFires? && Used(baseline, e.heap) == s.resolved[0].peakBytes)
  {
    var i := FindEnd(l, baseline, events, 0);
    if i < |events| {
      SettlesOnce(l, baseline, events, i);
      if events[i].PollFires? {
        assert events[i] in events[..i + 1];
        forall e | e in events[..i + 1] && e.PollFires?
          ensures Used(baseline, e.heap) <= Used(baseline, events[i].heap)
        {
          var j :| 0 <= j <= i && events[j] == e;
        }
      }
    } else {
      RunsOn(l, baseline, events);
    }
  }
}
