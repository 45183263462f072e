/** How ticks and executions go on: how long executions wait between attempts, how many they make, how they end, that
    only a pause or a deletion of the job stops them before, and that neither they nor ticks go on forever. */
module CronRetry {
  import opened Wrappers
  import opened CronHistory
  import opened CronScheduler

  // ---------------------------------------------------------------- backoff

  /** The wait after the first attempt is the backoff, and each further one twice the one before, up to the cap. */
  lemma WaitsDouble(backoffMs: nat, cap: nat, attempt: nat)
    ensures ComputeBackoffMs(backoffMs, cap, 0) == 0
    ensures ComputeBackoffMs(backoffMs, cap, 1) == if backoffMs < cap then backoffMs else cap
    ensures attempt >= 1 ==>
              var wait := ComputeBackoffMs(backoffMs, cap, attempt);
              ComputeBackoffMs(backoffMs, cap, attempt + 1) == if 2 * wait < cap then 2 * wait else cap
  {
    if attempt >= 1 {
      var p := Pow2(attempt - 1);
      assert Pow2(attempt) == 2 * p;
      assert backoffMs * (2 * p) == 2 * (backoffMs * p);
    }
  }

  /** What the first k waits add up to. */
  function TotalBackoff(backoffMs: nat, cap: nat, k: nat): nat {
    if k == 0 then 0 else TotalBackoff(backoffMs, cap, k - 1) + ComputeBackoffMs(backoffMs, cap, k)
  }

  /** Of k waits the first j double from the backoff on without exceeding the cap, and the others take the cap. */
  ghost predicate CappedAfter(backoffMs: nat, cap: nat, k: nat, j: nat) {
    j <= k && (j > 0 ==> backoffMs * Pow2(j - 1) <= cap) && (j < k ==> backoffMs * Pow2(j) >= cap)
  }

  lemma Doubles(b: nat, p: nat)
    ensures b * (2 * p - 1) == b * (p - 1) + b * p && b * (2 * p) == 2 * (b * p) >= b * p
  {
  }

  lemma {:induction false} PowersGrow(b: nat, i: nat, j: nat)
    requires i <= j
    ensures b * Pow2(i) <= b * Pow2(j)
    decreases j
  {
    if i < j {
      PowersGrow(b, i, j - 1);
      Doubles(b, Pow2(j - 1));
    }
  }

  lemma LastWait(backoffMs: nat, cap: nat, k: nat, j: nat)
    requires CappedAfter(backoffMs, cap, k, j) && k > 0
    ensures CappedAfter(backoffMs, cap, k - 1, if j == k then k - 1 else j)
    ensures ComputeBackoffMs(backoffMs, cap, k) == if j == k then backoffMs * Pow2(k - 1) else cap
  {
    if j == k {
      if k > 1 {
        PowersGrow(backoffMs, k - 2, k - 1);
      }
    } else {
      PowersGrow(backoffMs, j, k - 1);
    }
  }

  lemma OneMore(b: nat, cap: nat, p: nat, n: nat)
    requires n > 0
    ensures b * (2 * p - 1) == b * (p - 1) + b * p && n * cap == (n - 1) * cap + cap
  {
  }

  /** Exactly how long k waits are together. */
  lemma {:induction false} BackoffExactly(backoffMs: nat, cap: nat, k: nat, j: nat)
    requires CappedAfter(backoffMs, cap, k, j)
    ensures TotalBackoff(backoffMs, cap, k) == backoffMs * (Pow2(j) - 1) + (k - j) * cap
    decreases k
  {
    hide CappedAfter, ComputeBackoffMs;
    if k > 0 {
      LastWait(backoffMs, cap, k, j);
      if j == k {
        BackoffExactly(backoffMs, cap, k - 1, k - 1);
        OneMore(backoffMs, cap, Pow2(k - 1), 1);
        assert Pow2(k) == 2 * Pow2(k - 1);
      } else {
        BackoffExactly(backoffMs, cap, k - 1, j);
        assert j < k by { AtMost(backoffMs, cap, k, j); }
        hide Pow2;
        OneMore(backoffMs, cap, 0, k - j);
      }
    } else {
      AtMost(backoffMs, cap, k, j);
    }
  }

  lemma AtMost(backoffMs: nat, cap: nat, k: nat, j: nat)
    requires CappedAfter(backoffMs, cap, k, j)
    ensures j <= k
  {
  }

  /** Some number of waits always stays below the cap. */
  lemma {:induction false} SomeCapped(backoffMs: nat, cap: nat, k: nat) returns (j: nat)
    ensures CappedAfter(backoffMs, cap, k, j)
  {
    if k == 0 {
      j := 0;
    } else {
      j := SomeCapped(backoffMs, cap, k - 1);
      if j == k - 1 && backoffMs * Pow2(k - 1) <= cap {
        j := k;
      }
    }
  }

  /** The waits after the first k attempts add up to at most backoff * (2^k - 1), and at most k caps. */
  lemma {:induction false} BackoffBound(backoffMs: nat, cap: nat, k: nat)
    ensures TotalBackoff(backoffMs, cap, k) <= backoffMs * (Pow2(k) - 1)
    ensures TotalBackoff(backoffMs, cap, k) <= k * cap
  {
    if k > 0 {
      BackoffBound(backoffMs, cap, k - 1);
      var p := Pow2(k - 1);
      assert Pow2(k) == 2 * p;
      hide Pow2;
      Doubles(backoffMs, p);
      assert k * cap == (k - 1) * cap + cap;
    }
  }

  // ---------------------------------------------------------------- retry discipline

  ghost predicate AllFailed(runs: seq<Recorded>) {
    forall i :: 0 <= i < |runs| ==> !runs[i].ok
  }

  /** The recorded runs are numbered 1, 2, ..., and one is terminal if it succeeded or was the last allowed. */
  ghost predicate Numbered(x: Execution) {
    forall i :: 0 <= i < |x.runs| ==>
      x.runs[i].attempt == i + 1 && (x.runs[i].terminal <==> x.runs[i].ok || i + 1 == x.maxAttempts)
  }

  /** Attempts go up to the maximum and each but the last was recorded as failed; the dead letter is written exactly
      when the maximum was reached without success. */
  ghost predicate Disciplined(x: Execution) {
    && 1 <= x.attempt <= x.maxAttempts && Numbered(x)
    && (x.dead <==> |x.runs| == x.maxAttempts && AllFailed(x.runs))
    && match x.phase
       case Dispatching => FailedBefore(x)
       case Threw => FailedBefore(x)
       case Sleeping => Waited(x) && |x.runs| == x.attempt
       case Finished =>
         || (x.attempt == 1 && x.runs == [] && x.slept == 0)
         || (&& |x.runs| == x.attempt && AllFailed(x.runs[..x.attempt - 1])
             && if x.dead || x.runs[x.attempt - 1].ok
                then x.slept == TotalBackoff(x.backoffMs, x.cap, x.attempt - 1)
                else Waited(x))
  }

  /** All attempts before the present one failed, each followed by its wait. */
  ghost predicate FailedBefore(x: Execution)
    requires x.attempt >= 1
  {
    |x.runs| == x.attempt - 1 && AllFailed(x.runs) && x.slept == TotalBackoff(x.backoffMs, x.cap, x.attempt - 1)
  }

  /** The present attempt failed too, another is allowed, and its wait has begun. */
  ghost predicate Waited(x: Execution) {
    x.attempt < x.maxAttempts && AllFailed(x.runs) && x.slept == TotalBackoff(x.backoffMs, x.cap, x.attempt)
  }

  lemma BeginDisciplined(s: State, id: Id)
    requires id in s.jobs
    ensures Disciplined(Begin(s, id))
  {
  }

  lemma StepDisciplined(s: State, next: NextFire, e: Event)
    requires forall x :: 0 <= x < |s.executions| ==> Disciplined(s.executions[x])
    ensures forall x :: 0 <= x < |Step(s, next, e).executions| ==> Disciplined(Step(s, next, e).executions[x])
  {
    match e
    case TriggerNow(id) =>
      if id in s.jobs {
        BeginDisciplined(s, id);
      }
    case TickVisit(_) =>
      if s.tick.Ticking? && s.tick.queue != [] && s.tick.queue[0] in s.jobs {
        BeginDisciplined(s, s.tick.queue[0]);
      }
    case Dispatched(x, ok) =>
      if x < |s.executions| && s.executions[x].phase.Dispatching? {
        DispatchDisciplined(s, s.executions[x], ok);
      }
    case Wake(x) =>
      if x < |s.executions| && s.executions[x].phase.Sleeping? {
        assert Disciplined(AfterSleep(s, s.executions[x]));
      }
    case _ =>
  }

  lemma DispatchDisciplined(s: State, x: Execution, ok: bool)
    requires Disciplined(x) && x.phase.Dispatching?
    ensures Disciplined(AfterDispatch(s, x, ok))
  {
    var y := AfterDispatch(s, x, ok);
    if !y.phase.Threw? {
      assert y.runs[..x.attempt - 1] == x.runs;
      assert y.runs[x.attempt - 1].ok == ok;
    }
  }

  lemma {:induction false} RunDisciplined(next: NextFire, events: seq<Event>)
    ensures forall x :: 0 <= x < |Run(next, events).executions| ==> Disciplined(Run(next, events).executions[x])
  {
    if events != [] {
      RunDisciplined(next, events[..|events| - 1]);
      StepDisciplined(Run(next, events[..|events| - 1]), next, events[|events| - 1]);
    }
  }

  /** The time slept is that of so many waits. */
  ghost predicate Slept(x: Execution, waits: nat) {
    exists j: nat :: CappedAfter(x.backoffMs, x.cap, waits, j)
                     && x.slept == x.backoffMs * (Pow2(j) - 1) + (waits - j) * x.cap
  }

  lemma SleptIs(x: Execution, waits: nat)
    requires x.slept == TotalBackoff(x.backoffMs, x.cap, waits)
    ensures Slept(x, waits)
    ensures x.slept <= x.backoffMs * (Pow2(waits) - 1) && x.slept <= waits * x.cap
  {
    hide Pow2, TotalBackoff, CappedAfter;
    var j := SomeCapped(x.backoffMs, x.cap, waits);
    BackoffExactly(x.backoffMs, x.cap, waits, j);
    BackoffBound(x.backoffMs, x.cap, waits);
  }

  /** In every run, for every execution, ticked or triggered: at most max(1, maxAttempts) runs are recorded, numbered
      from 1; all but the last failed and are not terminal; the last is terminal exactly when it succeeded or was the
      last one allowed; a dead letter is written exactly when all the allowed attempts failed. There is a wait after
      each run but one that succeeded or was the last allowed; the time slept is exactly that of those waits, which
      double from the backoff up to the cap. */
  lemma RetryDiscipline(next: NextFire, events: seq<Event>, x: nat)
    requires x < |Run(next, events).executions|
    ensures var e := Run(next, events).executions[x];
            var k := |e.runs|;
            var waits := if k > 0 && (e.dead || e.runs[k - 1].ok) then k - 1 else k;
            && k <= e.maxAttempts
            && (forall i :: 0 <= i < k ==> e.runs[i].attempt == i + 1)
            && (forall i :: 0 <= i < k - 1 ==> !e.runs[i].ok && !e.runs[i].terminal)
            && (k > 0 ==> (e.runs[k - 1].terminal <==> e.runs[k - 1].ok || k == e.maxAttempts))
            && (e.dead <==> k == e.maxAttempts && AllFailed(e.runs))
            && Slept(e, waits)
            && e.slept <= e.backoffMs * (Pow2(waits) - 1) && e.slept <= waits * e.cap
  {
    hide Run, Pow2, Slept;
    RunDisciplined(next, events);
    var e := Run(next, events).executions[x];
    var k := |e.runs|;
    assert Disciplined(e);
    SleptIs(e, if k > 0 && (e.dead || e.runs[k - 1].ok) then k - 1 else k);
    forall i | 0 <= i < k - 1 ensures !e.runs[i].ok {
      assert e.runs[..k - 1][i] == e.runs[i];
    }
  }

  // ---------------------------------------------------------------- whose policy

  /** An execution of a job that still exists follows that job's retry policy. */
  ghost predicate FollowsPolicy(s: State, x: Execution) {
    x.job in s.jobs ==>
      var job := s.jobs[x.job];
      && x.maxAttempts == (if job.maxAttempts < 1 then 1 else job.maxAttempts)
      && x.backoffMs == job.backoffMs && x.cap == job.cap
  }

  ghost predicate PoliciesKept(s: State) {
    forall x :: x in s.executions ==> x.job in s.used && FollowsPolicy(s, x)
  }

  lemma StepPolicies(s: State, next: NextFire, e: Event)
    requires PoliciesKept(s) && forall id :: id in s.jobs ==> id in s.used
    ensures PoliciesKept(Step(s, next, e)) && forall id :: id in Step(s, next, e).jobs ==> id in Step(s, next, e).used
  {
    hide Newest, WithRun;
  }

  lemma {:induction false} PolicyFollowed(next: NextFire, events: seq<Event>)
    ensures PoliciesKept(Run(next, events))
    ensures forall id :: id in Run(next, events).jobs ==> id in Run(next, events).used
  {
    if events != [] {
      var n := |events| - 1;
      PolicyFollowed(next, events[..n]);
      StepPolicies(Run(next, events[..n]), next, events[n]);
      hide Step, PoliciesKept;
    }
  }

  // ---------------------------------------------------------------- what stops an execution

  predicate ActiveJob(s: State, id: Id) {
    id in s.jobs && s.jobs[id].status == Active
  }

  /** An attempt is dispatched only for a job that exists and is active: the first when the execution begins, and each
      further one after a wait. */
  lemma NoDispatchWhilePaused(s: State, next: NextFire, e: Event, x: nat)
    requires x < |Step(s, next, e).executions| && Step(s, next, e).executions[x].phase.Dispatching?
    requires x < |s.executions| ==> s.executions[x] != Step(s, next, e).executions[x]
    ensures var y := Step(s, next, e).executions[x];
            && ActiveJob(s, y.job)
            && if x < |s.executions|
               then s.executions[x].phase.Sleeping? && y.attempt == s.executions[x].attempt + 1
               else y.attempt == 1 && y.runs == [] && y.slept == 0
  {
    hide Newest;
  }

  /** Nothing has paused or deleted the job at any time. */
  ghost predicate Steady(next: NextFire, events: seq<Event>, id: Id) {
    forall i :: 0 <= i <= |events| && id in Run(next, events[..i]).used ==> ActiveJob(Run(next, events[..i]), id)
  }

  /** The execution is under way, or has succeeded or made all the attempts it is allowed. */
  ghost predicate RunsItsCourse(x: Execution) {
    || x.phase.Dispatching? || x.phase.Sleeping?
    || (x.phase.Finished? && (x.dead || (x.runs != [] && x.runs[|x.runs| - 1].ok)))
  }

  ghost predicate AllRunTheirCourse(s: State, id: Id) {
    forall x :: x in s.executions && x.job == id ==> id in s.used && RunsItsCourse(x)
  }

  lemma StepCourse(s: State, next: NextFire, e: Event, id: Id)
    requires AllRunTheirCourse(s, id) && (id in s.used ==> ActiveJob(s, id)) && (id in s.jobs ==> id in s.used)
    ensures AllRunTheirCourse(Step(s, next, e), id)
  {
    hide Newest;
  }

  /** An execution of a job that is never paused or deleted ends only in success or after all attempts, with a dead
      letter. */
  lemma {:induction false} OnlyPausesStop(next: NextFire, events: seq<Event>, id: Id)
    requires Steady(next, events, id)
    ensures AllRunTheirCourse(Run(next, events), id)
  {
    if events != [] {
      var n := |events| - 1;
      assert Steady(next, events[..n], id) by {
        assert forall i :: 0 <= i <= n ==> events[..n][..i] == events[..i];
      }
      OnlyPausesStop(next, events[..n], id);
      PolicyFollowed(next, events[..n]);
      StepCourse(Run(next, events[..n]), next, events[n], id);
      RunStep(next, events);
      hide Step, AllRunTheirCourse, Run, PoliciesKept;
    }
  }

  // ---------------------------------------------------------------- nothing goes on forever

  /** How many more events of its own an execution can have. */
  function Left(x: Execution): int {
    match x.phase
    case Dispatching => 2 * (x.maxAttempts - x.attempt) + 2
    case Sleeping => 2 * (x.maxAttempts - x.attempt) + 1
    case _ => 0
  }

  /** Each return of a dispatch and each end of a wait brings its execution closer to its end, and touches no other. */
  lemma ExecutionMoves(s: State, next: NextFire, e: Event, x: nat)
    requires x < |s.executions| && Disciplined(s.executions[x])
    requires (e.Dispatched? && s.executions[x].phase.Dispatching?) || (e.Wake? && s.executions[x].phase.Sleeping?)
    requires e.x == x
    ensures var s' := Step(s, next, e);
            && |s'.executions| == |s.executions| && 0 <= Left(s'.executions[x]) < Left(s.executions[x])
            && (forall y :: 0 <= y < |s.executions| && y != x ==> s'.executions[y] == s.executions[y])
  {
    hide TotalBackoff, ComputeBackoffMs;
  }

  /** How many more rounds and resumptions a tick can have. */
  function TickLeft(t: Tick): nat {
    if t.Idle? then 0 else 2 * |t.queue| + if t.awaiting.None? then 1 else 0
  }

  /** A tick begins when none is under way, with the jobs that are active then, among them every job that is due. */
  lemma TickListsDue(s: State, next: NextFire, queue: seq<Id>, id: Id, t: int)
    requires s.tick.Idle? && ListsActive(s.jobs, queue)
    ensures var s' := Step(s, next, TickBegin(queue));
            && s'.tick.Ticking? && s'.tick.now == s.clock && s'.tick.awaiting.None?
            && (forall q :: q in s'.tick.queue <==> q in s.jobs && s.jobs[q].status == Active)
            && NoneDeleted(s')
            && (Scheduled(s, id, t) && t <= s.clock ==> InQueue(s', id, t))
  {
  }

  /** Each round of the loop, and each resumption after an execution that has ended, brings the tick closer to its end.
      A job whose round begins an execution is the one the tick then waits for. */
  lemma TickMoves(s: State, next: NextFire, e: Event)
    requires s.tick.Ticking?
    requires (e.TickVisit? && s.tick.awaiting.None?) || (e.TickResume? && s.tick.awaiting.Some?)
    requires s.tick.awaiting.Some? ==>
               && s.tick.queue != [] && s.tick.awaiting.value < |s.executions|
               && s.executions[s.tick.awaiting.value].phase in {Finished, Threw}
    ensures TickLeft(Step(s, next, e).tick) < TickLeft(s.tick)
    ensures |Step(s, next, e).executions| <= |s.executions| + 1
    ensures |Step(s, next, e).executions| > |s.executions| ==>
              && Step(s, next, e).tick.Ticking? && Step(s, next, e).tick.awaiting == Some(|s.executions|)
              && Step(s, next, e).executions[|s.executions|].job == s.tick.queue[0]
  {
  }
}
