/** The cron scheduler's tick loop, its retrying executions, and what happens between their awaits:
    pauses, resumes, deletions, manual triggers, the clock. An event is a stretch of code between
    awaits; a run is any sequence of events. Job ids are not reused. */
module CronScheduler {
  import opened Wrappers
  import opened CronHistory
  import CronNextFire

  datatype Status = Active | Paused

  datatype Job = Job(status: Status, nextRunAt: Option<int>, maxAttempts: int, backoffMs: nat, cap: nat)

  /** `next(id, after)` is the fire time the parser finds for the job's expression. */
  type NextFire = (Id, int) -> Option<int>

  /** The parser only returns times after the anchor. */
  ghost predicate Later(next: NextFire) {
    forall id, after :: next(id, after).Some? ==> next(id, after).value > after
  }

  datatype Phase = Dispatching | Sleeping | Finished | Threw

  datatype Recorded = Recorded(attempt: nat, ok: bool, terminal: bool)

  /** One `executeWithRetry`, with the job's retry policy, which never changes; `maxAttempts` is at least 1.
      `attempt` is the number of the attempt under way or just made; `runs` are the runs it recorded;
      `slept` is the total backoff. */
  datatype Execution = Execution(
    job: Id, maxAttempts: nat, backoffMs: nat, cap: nat,
    attempt: nat, phase: Phase, runs: seq<Recorded>, slept: nat, dead: bool)

  /** The tick loop: idle, or going through the jobs that were active when the tick began, possibly
      waiting for one execution. */
  datatype Tick = Idle | Ticking(now: int, queue: seq<Id>, awaiting: Option<nat>)

  /** A recorded run, and the execution that recorded it. */
  datatype Logged = Logged(execution: nat, run: Recorded)

  /** `history` is the registry's list of runs of each job, dropped with the job, and `log` all runs ever recorded;
      `deadLetters` is the registry's list of executions given up, and `died` all of them; `triggers` maps the
      execution of a manual trigger to the length of the history when it began. */
  datatype Records = Records(
    history: map<Id, seq<Logged>>, log: map<Id, seq<Logged>>, deadLetters: seq<nat>, died: seq<nat>,
    triggers: map<nat, nat>)

  /** `fired` records, per job, the scheduled times of the executions a tick started. */
  datatype State = State(
    clock: int, jobs: map<Id, Job>, used: set<Id>, tick: Tick, executions: seq<Execution>, fired: map<Id, seq<int>>,
    records: Records)

  const INITIAL := State(0, map[], {}, Idle, [], map[], Records(map[], map[], [], [], map[]))

  datatype Event =
    | Advance(to: int)
    | Create(id: Id, job: Job)
    | Delete(id: Id)
    | SetStatus(id: Id, status: Status)
    | TriggerNow(id: Id)
    | TickBegin(queue: seq<Id>)
    | TickVisit(threw: bool)
    | TickResume
    | Dispatched(x: nat, ok: bool)
    | Wake(x: nat)

  /** The next-fire search of the parser is such a function, for any expressions, zones and horizon. */
  lemma ParserIsLater(crons: Id -> CronNextFire.Cron, zones: Id -> CronNextFire.Zone, horizon: int)
    ensures Later((id: Id, after: int) =>
              CronNextFire.Search(crons(id), zones(id), CronNextFire.Start(after), after + horizon))
  {
    forall id: Id, after: int
      ensures var t := CronNextFire.Search(crons(id), zones(id), CronNextFire.Start(after), after + horizon);
              t.Some? ==> t.value > after
    {
      CronNextFire.NextFireMeaning(crons(id), zones(id), after, horizon);
    }
  }

  // ---------------------------------------------------------------- backoff

  function Pow2(n: nat): (p: nat)
    ensures p >= 1
  {
    if n == 0 then 1 else 2 * Pow2(n - 1)
  }

  function Min(a: nat, b: nat): nat {
    if a < b then a else b
  }

  function ComputeBackoffMs(backoffMs: nat, cap: nat, attempt: nat): nat {
    if attempt < 1 then 0 else Min(backoffMs * Pow2(attempt - 1), cap)
  }

  // ---------------------------------------------------------------- steps

  function MaxAttempts(job: Job): nat {
    if job.maxAttempts > 1 then job.maxAttempts else 1
  }

  /** `scheduleNext`: the anchor decides the next run. */
  function ScheduleNext(s: State, next: NextFire, id: Id, after: int): State {
    if id in s.jobs then s.(jobs := s.jobs[id := s.jobs[id].(nextRunAt := next(id, after))]) else s
  }

  function RefreshNextFire(s: State, next: NextFire, id: Id): State {
    if id !in s.jobs then s
    else if s.jobs[id].status != Active then s.(jobs := s.jobs[id := s.jobs[id].(nextRunAt := None)])
    else ScheduleNext(s, next, id, s.clock)
  }

  function FiredOf(s: State, id: Id): seq<int> {
    if id in s.fired then s.fired[id] else []
  }

  /** The start of an execution: it dispatches its first attempt, unless the job is paused. */
  function Begin(s: State, id: Id): Execution
    requires id in s.jobs
  {
    var job := s.jobs[id];
    Execution(id, MaxAttempts(job), job.backoffMs, job.cap, 1,
              if job.status == Active then Dispatching else Finished, [], 0, false)
  }

  /** The queue lists each active job once. */
  predicate ListsActive(jobs: map<Id, Job>, queue: seq<Id>) {
    && (forall i, j :: 0 <= i < j < |queue| ==> queue[i] != queue[j])
    && (forall id :: id in jobs ==> (jobs[id].status == Active <==> id in queue))
    && (forall id :: id in queue ==> id in jobs)
  }

  /** One round of the loop: a job without a fire time gets one, counted from the start of the tick even
      if that was a while ago; a job that is due is executed. A job deleted since the tick began has left
      a stale object behind, and the round passes over it or throws. */
  function Visit(s: State, next: NextFire): State
    requires s.tick.Ticking? && s.tick.queue != [] && s.tick.awaiting.None?
  {
    var id := s.tick.queue[0];
    var popped := s.tick.(queue := s.tick.queue[1..]);
    if id !in s.jobs then s.(tick := popped)
    else
      var job := s.jobs[id];
      if job.nextRunAt.None? then ScheduleNext(s, next, id, s.tick.now).(tick := popped)
      else if job.nextRunAt.value <= s.tick.now then
        s.(tick := s.tick.(awaiting := Some(|s.executions|)),
           executions := s.executions + [Begin(s, id)],
           fired := if job.status == Active then s.fired[id := FiredOf(s, id) + [job.nextRunAt.value]] else s.fired)
      else s.(tick := popped)
  }

  /** After the awaited execution: the fire time is recomputed if the job is still active; an execution
      that threw ends the tick. */
  function Resume(s: State, next: NextFire): State
    requires s.tick.Ticking? && s.tick.queue != []
  {
    var id := s.tick.queue[0];
    if s.tick.awaiting.None? || s.tick.awaiting.value >= |s.executions| then s
    else
      var x := s.executions[s.tick.awaiting.value];
      if x.phase.Threw? then s.(tick := Idle)
      else if x.phase.Finished? then
        var t := s.tick.(queue := s.tick.queue[1..], awaiting := None);
        if id in s.jobs && s.jobs[id].status == Active then ScheduleNext(s, next, id, s.clock).(tick := t)
        else s.(tick := t)
      else s
  }

  /** A dispatch has returned: record the run (which throws if the job is gone), then finish, give up, or
      wait before the next attempt. */
  function AfterDispatch(s: State, x: Execution, ok: bool): Execution {
    if x.job !in s.jobs then x.(phase := Threw)
    else
      var recorded := x.(runs := x.runs + [Recorded(x.attempt, ok, ok || x.attempt >= x.maxAttempts)]);
      if ok then recorded.(phase := Finished)
      else if x.attempt >= x.maxAttempts then recorded.(phase := Finished, dead := true)
      else recorded.(phase := Sleeping, slept := x.slept + ComputeBackoffMs(x.backoffMs, x.cap, x.attempt))
  }

  function HistoryOf(r: Records, id: Id): seq<Logged> {
    if id in r.history then r.history[id] else []
  }

  function LogOf(r: Records, id: Id): seq<Logged> {
    if id in r.log then r.log[id] else []
  }

  function Opened(r: Records, id: Id): Records {
    r.(history := r.history[id := []], log := r.log[id := []])
  }

  function Dropped(r: Records, id: Id): Records {
    r.(history := r.history - {id})
  }

  function WithTrigger(r: Records, i: nat, id: Id): Records {
    r.(triggers := r.triggers[i := |HistoryOf(r, id)|])
  }

  /** What a dispatch that has returned leaves in the records, if the job is still there. */
  function WithRun(r: Records, i: nat, x: Execution, ok: bool): Records {
    var entry := Logged(i, Recorded(x.attempt, ok, ok || x.attempt >= x.maxAttempts));
    var recorded := r.(history := r.history[x.job := Newest(HistoryOf(r, x.job) + [entry], MAX_RUNS)],
                       log := r.log[x.job := LogOf(r, x.job) + [entry]]);
    if !ok && x.attempt >= x.maxAttempts
    then recorded.(deadLetters := Newest(r.deadLetters + [i], MAX_DEAD_LETTERS), died := r.died + [i])
    else recorded
  }

  /** The next attempt, unless the job was deleted or paused meanwhile. */
  function AfterSleep(s: State, x: Execution): Execution {
    if x.job !in s.jobs || s.jobs[x.job].status != Active then x.(phase := Finished)
    else x.(phase := Dispatching, attempt := x.attempt + 1)
  }

  function Step(s: State, next: NextFire, e: Event): State {
    match e
    case Advance(to) => if to >= s.clock then s.(clock := to) else s
    case Create(id, job) =>
      if id in s.used then s
      else
        RefreshNextFire(s.(jobs := s.jobs[id := job.(nextRunAt := None)], used := s.used + {id},
                           records := Opened(s.records, id)), next, id)
    case Delete(id) => s.(jobs := s.jobs - {id}, records := Dropped(s.records, id))
    case SetStatus(id, status) =>
      if id in s.jobs then RefreshNextFire(s.(jobs := s.jobs[id := s.jobs[id].(status := status)]), next, id) else s
    case TriggerNow(id) =>
      if id in s.jobs then
        s.(executions := s.executions + [Begin(s, id)], records := WithTrigger(s.records, |s.executions|, id))
      else s
    case TickBegin(queue) =>
      if s.tick.Idle? && ListsActive(s.jobs, queue) then s.(tick := Ticking(s.clock, queue, None)) else s
    case TickVisit(threw) =>
      if s.tick.Idle? || s.tick.awaiting.Some? then s
      else if s.tick.queue == [] || (s.tick.queue[0] !in s.jobs && threw) then s.(tick := Idle)
      else Visit(s, next)
    case TickResume => if s.tick.Ticking? && s.tick.queue != [] then Resume(s, next) else s
    case Dispatched(x, ok) =>
      if x < |s.executions| && s.executions[x].phase.Dispatching?
      then
        s.(executions := s.executions[x := AfterDispatch(s, s.executions[x], ok)],
           records := if s.executions[x].job in s.jobs then WithRun(s.records, x, s.executions[x], ok) else s.records)
      else s
    case Wake(x) =>
      if x < |s.executions| && s.executions[x].phase.Sleeping?
      then s.(executions := s.executions[x := AfterSleep(s, s.executions[x])]) else s
  }

  /** How a manual trigger ends: its promise rejects if its execution threw, and else it reports the last run in the
      job's history, if that has become longer. */
  datatype Reply = Pending | Rejected | Reported(run: Option<Logged>)

  function ReplyOf(s: State, i: nat): Reply
    requires i < |s.executions| && i in s.records.triggers
  {
    var list := HistoryOf(s.records, s.executions[i].job);
    match s.executions[i].phase
    case Threw => Rejected
    case Finished => Reported(if |list| > s.records.triggers[i] then Some(list[|list| - 1]) else None)
    case _ => Pending
  }

  function Run(next: NextFire, events: seq<Event>): State {
    if events == [] then INITIAL else Step(Run(next, events[..|events| - 1]), next, events[|events| - 1])
  }

  // ---------------------------------------------------------------- the class

  /** The scheduler and its registry; each method is one stretch of code between awaits. */
  class Scheduler {
    var clock: int
    var jobs: map<Id, Job>
    var used: set<Id>
    var tick: Tick
    var executions: seq<Execution>
    var fired: map<Id, seq<int>>
    var history: map<Id, seq<Logged>>
    ghost var log: map<Id, seq<Logged>>
    var deadLetters: seq<nat>
    ghost var died: seq<nat>
    var triggers: map<nat, nat>

    ghost function Abs(): State
      reads this
    {
      State(clock, jobs, used, tick, executions, fired, Records(history, log, deadLetters, died, triggers))
    }

    constructor ()
      ensures Abs() == INITIAL
    {
      clock, jobs, used, tick, executions, fired := 0, map[], {}, Idle, [], map[];
      history, log, deadLetters, died, triggers := map[], map[], [], [], map[];
    }

    method ScheduleNextRun(next: NextFire, id: Id, after: int)
      modifies `jobs
      ensures Abs() == ScheduleNext(old(Abs()), next, id, after)
    {
      if id in jobs {
        jobs := jobs[id := jobs[id].(nextRunAt := next(id, after))];
      }
    }

    method Refresh(next: NextFire, id: Id)
      modifies `jobs
      ensures Abs() == RefreshNextFire(old(Abs()), next, id)
    {
      if id !in jobs { return; }
      if jobs[id].status != Active {
        jobs := jobs[id := jobs[id].(nextRunAt := None)];
        return;
      }
      ScheduleNextRun(next, id, clock);
    }

    /** The pause and resume routes. */
    method SetJobStatus(next: NextFire, id: Id, status: Status)
      modifies `jobs
      ensures Abs() == Step(old(Abs()), next, SetStatus(id, status))
    {
      if id in jobs {
        jobs := jobs[id := jobs[id].(status := status)];
        Refresh(next, id);
      }
    }

    /** Starts `executeWithRetry`, up to its first await. */
    method BeginExecution(id: Id)
      requires id in jobs
      modifies `executions
      ensures executions == old(executions) + [Begin(old(Abs()), id)]
    {
      var job := jobs[id];
      var maxAttempts := if job.maxAttempts > 1 then job.maxAttempts else 1;
      var phase := if job.status == Active then Dispatching else Finished;
      executions := executions + [Execution(id, maxAttempts, job.backoffMs, job.cap, 1, phase, [], 0, false)];
    }

    /** One round of the loop over the active jobs, up to the await of an execution. */
    method VisitNextJob(next: NextFire)
      requires tick.Ticking? && tick.queue != [] && tick.awaiting.None?
      modifies this
      ensures Abs() == Visit(old(Abs()), next)
    {
      var id, rest := tick.queue[0], tick.queue[1..];
      if id !in jobs {
        tick := tick.(queue := rest);
        return;
      }
      var job := jobs[id];
      if job.nextRunAt.None? {
        ScheduleNextRun(next, id, tick.now);
        tick := tick.(queue := rest);
        return;
      }
      if job.nextRunAt.value <= tick.now {
        var x := |executions|;
        BeginExecution(id);
        tick := tick.(awaiting := Some(x));
        if job.status == Active {
          fired := fired[id := (if id in fired then fired[id] else []) + [job.nextRunAt.value]];
        }
        return;
      }
      tick := tick.(queue := rest);
    }

    /** After the awaited execution returned normally. */
    method AfterExecution(next: NextFire)
      requires tick.Ticking? && tick.queue != [] && tick.awaiting.Some?
      requires tick.awaiting.value < |executions| && executions[tick.awaiting.value].phase.Finished?
      modifies this
      ensures Abs() == Resume(old(Abs()), next)
    {
      var id := tick.queue[0];
      if id in jobs && jobs[id].status == Active {
        ScheduleNextRun(next, id, clock);
      }
      tick := tick.(queue := tick.queue[1..], awaiting := None);
    }

    /** Appends to the job's history, and splices off what exceeds the bound. */
    method RecordRun(id: Id, entry: Logged)
      modifies `history, `log
      ensures history == old(history)[id := Newest(HistoryOf(old(Abs()).records, id) + [entry], MAX_RUNS)]
      ensures log == old(log)[id := LogOf(old(Abs()).records, id) + [entry]]
    {
      var list := (if id in history then history[id] else []) + [entry];
      log := log[id := (if id in log then log[id] else []) + [entry]];
      if |list| > 500 {
        list := list[|list| - 500..];
      }
      history := history[id := list];
    }

    method RecordDeadLetter(i: nat)
      modifies `deadLetters, `died
      ensures deadLetters == Newest(old(deadLetters) + [i], MAX_DEAD_LETTERS) && died == old(died) + [i]
    {
      died := died + [i];
      deadLetters := deadLetters + [i];
      if |deadLetters| > 1000 {
        deadLetters := deadLetters[|deadLetters| - 1000..];
      }
    }

    /** The part of the retry loop after a dispatch returned, up to the next await. */
    method AfterDispatched(next: NextFire, i: nat, ok: bool)
      requires i < |executions| && executions[i].phase.Dispatching?
      modifies `executions, `history, `log, `deadLetters, `died
      ensures Abs() == Step(old(Abs()), next, Dispatched(i, ok))
    {
      hide LogOf, HistoryOf;
      var x := executions[i];
      if x.job !in jobs {
        executions := executions[i := x.(phase := Threw)];
        return;
      }
      var run := Recorded(x.attempt, ok, ok || x.attempt >= x.maxAttempts);
      RecordRun(x.job, Logged(i, run));
      x := x.(runs := x.runs + [run]);
      if ok {
        x := x.(phase := Finished);
      } else if x.attempt >= x.maxAttempts {
        RecordDeadLetter(i);
        x := x.(phase := Finished, dead := true);
      } else {
        x := x.(phase := Sleeping, slept := x.slept + ComputeBackoffMs(x.backoffMs, x.cap, x.attempt));
      }
      executions := executions[i := x];
    }

    /** The part of the retry loop after a wait, up to the next await. */
    method AfterBackoff(next: NextFire, i: nat)
      requires i < |executions| && executions[i].phase.Sleeping?
      modifies `executions
      ensures Abs() == Step(old(Abs()), next, Wake(i))
    {
      var x := executions[i];
      if x.job !in jobs || jobs[x.job].status != Active {
        x := x.(phase := Finished);
      } else {
        x := x.(phase := Dispatching, attempt := x.attempt + 1);
      }
      executions := executions[i := x];
    }

    /** The start of a tick: the time and the list of active jobs are read once. */
    method BeginTick(next: NextFire, active: seq<Id>)
      requires tick.Idle? && ListsActive(jobs, active)
      modifies `tick
      ensures Abs() == Step(old(Abs()), next, TickBegin(active))
    {
      tick := Ticking(clock, active, None);
    }

    /** A manual trigger executes the job beside whatever the tick is doing, and does not reschedule it. */
    method TriggerJob(next: NextFire, id: Id)
      modifies `executions, `triggers
      ensures Abs() == Step(old(Abs()), next, TriggerNow(id))
    {
      if id in jobs {
        var before := if id in history then |history[id]| else 0;
        triggers := triggers[|executions| := before];
        BeginExecution(id);
      }
    }

    /** What a manual trigger returns once its execution has ended. */
    method EndTrigger(i: nat) returns (r: Reply)
      requires i < |executions| && i in triggers && executions[i].phase in {Finished, Threw}
      ensures r == ReplyOf(Abs(), i)
    {
      if executions[i].phase.Threw? { return Rejected; }
      var id := executions[i].job;
      var runs := if id in history then history[id] else [];
      r := Reported(if |runs| > triggers[i] then Some(runs[|runs| - 1]) else None);
    }

    method CreateJob(next: NextFire, id: Id, job: Job)
      requires id !in used
      modifies this
      ensures Abs() == Step(old(Abs()), next, Create(id, job))
    {
      jobs := jobs[id := job.(nextRunAt := None)];
      used := used + {id};
      history := history[id := []];
      log := log[id := []];
      Refresh(next, id);
    }

    /** The job's history goes with it. */
    method DeleteJob(next: NextFire, id: Id)
      modifies `jobs, `history
      ensures Abs() == Step(old(Abs()), next, Delete(id))
    {
      jobs := jobs - {id};
      history := history - {id};
    }
  }

  // ---------------------------------------------------------------- no fire twice

  ghost predicate Increasing(times: seq<int>) {
    forall i, j :: 0 <= i < j < |times| ==> times[i] < times[j]
  }

  /** t is later than every time at which a tick has fired the job. */
  ghost predicate AfterFires(s: State, id: Id, t: int) {
    forall i :: 0 <= i < |FiredOf(s, id)| ==> FiredOf(s, id)[i] < t
  }

  /** Every fire so far was due by the present tick, or by now. */
  ghost predicate PastFires(s: State, id: Id) {
    AfterFires(s, id, (if s.tick.Ticking? then s.tick.now else s.clock) + 1)
  }

  /** The job whose execution the tick is waiting for. */
  ghost predicate Awaited(s: State, id: Id) {
    s.tick.Ticking? && s.tick.awaiting.Some? && s.tick.queue != [] && s.tick.queue[0] == id
  }

  ghost predicate JobOk(s: State, id: Id)
    requires id in s.jobs
  {
    || s.jobs[id].nextRunAt.None?
    || AfterFires(s, id, s.jobs[id].nextRunAt.value)
    || (Awaited(s, id) && s.jobs[id].status == Active)
  }

  /** What does not depend on fire times: nothing but the set of jobs is read of the registry. */
  ghost predicate Frame(s: State) {
    && (forall id :: id in s.jobs ==> id in s.used)
    && (forall id :: id in s.fired ==> id in s.used)
    && (forall id :: Increasing(FiredOf(s, id)) && PastFires(s, id))
    && (s.tick.Ticking? ==> s.tick.now <= s.clock)
    && (s.tick.Ticking? && s.tick.awaiting.Some? ==>
          && s.tick.queue != [] && s.tick.awaiting.value < |s.executions|
          && s.executions[s.tick.awaiting.value].job == s.tick.queue[0])
    && (forall x :: 0 <= x < |s.executions| ==>
          && s.executions[x].job in s.used
          && (s.executions[x].phase.Threw? ==> s.executions[x].job !in s.jobs))
  }

  ghost predicate Inv(s: State) {
    Frame(s) && forall id :: id in s.jobs ==> JobOk(s, id)
  }

  lemma FrameSame(s: State, s': State)
    requires Frame(s) && s'.jobs.Keys == s.jobs.Keys
    requires s' == s.(jobs := s'.jobs)
    ensures Frame(s')
  {
    assert forall id :: id in s'.jobs <==> id in s'.jobs.Keys;
    assert forall id :: id in s.jobs <==> id in s.jobs.Keys;
    forall id ensures Increasing(FiredOf(s', id)) && PastFires(s', id) {
      assert PastFires(s, id) && FiredOf(s', id) == FiredOf(s, id);
    }
  }

  /** Giving a job a fire time later than its fires so far keeps the invariant. */
  lemma ScheduleKeeps(s: State, next: NextFire, id: Id, after: int)
    requires Later(next) && Frame(s) && id in s.jobs && AfterFires(s, id, after + 1)
    requires forall i :: i in s.jobs && i != id ==> JobOk(s, i)
    ensures Inv(ScheduleNext(s, next, id, after))
  {
    var s' := ScheduleNext(s, next, id, after);
    FrameSame(s, s');
    forall i | i in s'.jobs ensures JobOk(s', i) {
      assert FiredOf(s', i) == FiredOf(s, i);
      if i != id {
        assert JobOk(s, i);
      }
    }
  }

  lemma RefreshKeeps(s: State, next: NextFire, id: Id)
    requires Later(next) && Frame(s) && id in s.jobs
    requires forall i :: i in s.jobs && i != id ==> JobOk(s, i)
    ensures Inv(RefreshNextFire(s, next, id))
  {
    assert PastFires(s, id);
    if s.jobs[id].status == Active {
      ScheduleKeeps(s, next, id, s.clock);
    } else {
      var s' := RefreshNextFire(s, next, id);
      FrameSame(s, s');
      forall i | i in s'.jobs ensures JobOk(s', i) {
        if i != id {
          assert JobOk(s, i);
          assert FiredOf(s', i) == FiredOf(s, i);
        }
      }
    }
  }

  /** Steps that fire nothing and give no job a new fire time or status. */
  lemma SameFires(s: State, s': State)
    requires Inv(s) && s'.fired == s.fired && s'.used == s.used
    requires forall id :: id in s'.jobs ==> id in s.jobs && s'.jobs[id] == s.jobs[id]
    requires s'.tick == s.tick || s.tick.Idle? || s.tick.awaiting.None?
    requires s'.tick.Ticking? ==> s'.tick.now <= s'.clock
    requires s.clock <= s'.clock && (s.tick.Ticking? && s'.tick.Ticking? ==> s.tick.now <= s'.tick.now)
    requires s.tick.Idle? && s'.tick.Ticking? ==> s.clock <= s'.tick.now
    requires s'.tick.Ticking? && s'.tick.awaiting.Some? ==> s'.tick == s.tick
    requires |s.executions| <= |s'.executions|
    requires forall x :: 0 <= x < |s.executions| ==> s'.executions[x].job == s.executions[x].job
    requires forall x :: 0 <= x < |s'.executions| ==>
               && s'.executions[x].job in s'.used
               && (s'.executions[x].phase.Threw? ==> s'.executions[x].job !in s'.jobs)
    ensures Inv(s')
  {
    forall id ensures Increasing(FiredOf(s', id)) && PastFires(s', id) {
      assert PastFires(s, id) && FiredOf(s', id) == FiredOf(s, id);
    }
    forall id | id in s'.jobs ensures JobOk(s', id) {
      assert JobOk(s, id) && FiredOf(s', id) == FiredOf(s, id);
    }
  }

  lemma VisitKeeps(s: State, next: NextFire)
    requires Later(next) && Inv(s) && s.tick.Ticking? && s.tick.queue != [] && s.tick.awaiting.None?
    ensures Inv(Visit(s, next))
  {
    var id := s.tick.queue[0];
    var popped := s.(tick := s.tick.(queue := s.tick.queue[1..]));
    assert PastFires(s, id);
    SameFires(s, popped);
    if id in s.jobs {
      var job := s.jobs[id];
      if job.nextRunAt.None? {
        assert FiredOf(popped, id) == FiredOf(s, id);
        ScheduleKeeps(popped, next, id, s.tick.now);
      } else if job.nextRunAt.value <= s.tick.now {
        BeginKeeps(s, id, Visit(s, next));
      }
    }
  }

  /** Executing a due job: its scheduled time is later than all its fires, and joins them. */
  lemma BeginKeeps(s: State, id: Id, s': State)
    requires Inv(s) && s.tick.Ticking? && s.tick.awaiting.None? && s.tick.queue != [] && s.tick.queue[0] == id
    requires id in s.jobs && s.jobs[id].nextRunAt.Some? && s.jobs[id].nextRunAt.value <= s.tick.now
    requires s' == s.(tick := s.tick.(awaiting := Some(|s.executions|)),
                      executions := s.executions + [Begin(s, id)],
                      fired := if s.jobs[id].status == Active
                               then s.fired[id := FiredOf(s, id) + [s.jobs[id].nextRunAt.value]] else s.fired)
    ensures Inv(s')
  {
    assert JobOk(s, id) && AfterFires(s, id, s.jobs[id].nextRunAt.value);
    forall i ensures Increasing(FiredOf(s', i)) && PastFires(s', i) {
      assert PastFires(s, i);
      assert i != id ==> FiredOf(s', i) == FiredOf(s, i);
    }
    forall i | i in s'.jobs ensures JobOk(s', i) {
      assert JobOk(s, i);
      assert i != id ==> FiredOf(s', i) == FiredOf(s, i);
      if i == id {
        assert Awaited(s', id);
      }
    }
  }

  /** Ending a wait or a tick: if the job waited for is active, it gets a new fire time first. */
  lemma UnawaitKeeps(s: State, s': State)
    requires Inv(s) && s.tick.Ticking? && s.tick.queue != []
    requires s' == s.(tick := s'.tick)
    requires s'.tick.Idle? || (s'.tick.awaiting.None? && s'.tick.now == s.tick.now)
    ensures Frame(s')
    ensures forall i :: i in s'.jobs && i != s.tick.queue[0] ==> JobOk(s', i)
    ensures s.tick.queue[0] in s.jobs && s.jobs[s.tick.queue[0]].status != Active ==> JobOk(s', s.tick.queue[0])
  {
    forall id ensures Increasing(FiredOf(s', id)) && PastFires(s', id) {
      assert PastFires(s, id) && FiredOf(s', id) == FiredOf(s, id);
    }
    forall id | id in s'.jobs && (id != s.tick.queue[0] || s.jobs[id].status != Active) ensures JobOk(s', id) {
      assert JobOk(s, id) && FiredOf(s', id) == FiredOf(s, id);
    }
  }

  lemma ResumeKeeps(s: State, next: NextFire)
    requires Later(next) && Inv(s) && s.tick.Ticking? && s.tick.queue != []
    ensures Inv(Resume(s, next))
  {
    var id := s.tick.queue[0];
    if s.tick.awaiting.Some? {
      var x := s.executions[s.tick.awaiting.value];
      if x.phase.Threw? {
        UnawaitKeeps(s, Resume(s, next));
      } else if x.phase.Finished? {
        var s0 := s.(tick := s.tick.(queue := s.tick.queue[1..], awaiting := None));
        UnawaitKeeps(s, s0);
        if id in s.jobs && s.jobs[id].status == Active {
          assert PastFires(s0, id);
          ScheduleKeeps(s0, next, id, s.clock);
        }
      }
    }
  }

  lemma EndKeeps(s: State)
    requires Inv(s) && s.tick.Ticking? && s.tick.awaiting.None?
    ensures Inv(s.(tick := Idle))
  {
    hide JobOk, PastFires, Increasing;
    SameFires(s, s.(tick := Idle));
  }

  /** The clock, deletions, manual triggers, the start of a tick, and what happens inside an execution. */
  lemma OtherKeeps(s: State, next: NextFire, e: Event)
    requires Inv(s) && !e.Create? && !e.SetStatus? && !e.TickVisit? && !e.TickResume?
    ensures Inv(Step(s, next, e))
  {
    hide JobOk, PastFires, Increasing;
    SameFires(s, Step(s, next, e));
  }

  lemma StepKeeps(s: State, next: NextFire, e: Event)
    requires Later(next) && Inv(s)
    ensures Inv(Step(s, next, e))
  {
    hide JobOk, PastFires, Increasing, Frame, Visit, Resume;
    match e
    case Create(id, job) =>
      if id !in s.used {
        CreateKeeps(s, next, id, job);
      }
    case SetStatus(id, status) =>
      if id in s.jobs {
        StatusKeeps(s, next, id, status);
      }
    case TickVisit(threw) =>
      if s.tick.Ticking? && s.tick.awaiting.None? {
        if s.tick.queue == [] || (s.tick.queue[0] !in s.jobs && threw) {
          EndKeeps(s);
        } else {
          VisitKeeps(s, next);
        }
      }
    case TickResume =>
      if s.tick.Ticking? && s.tick.queue != [] {
        ResumeKeeps(s, next);
      }
    case _ => OtherKeeps(s, next, e);
  }

  lemma CreateKeeps(s: State, next: NextFire, id: Id, job: Job)
    requires Later(next) && Inv(s) && id !in s.used
    ensures Inv(Step(s, next, Create(id, job)))
  {
    var s0 := s.(jobs := s.jobs[id := job.(nextRunAt := None)], used := s.used + {id},
                 records := Opened(s.records, id));
    forall i ensures Increasing(FiredOf(s0, i)) && PastFires(s0, i) {
      assert PastFires(s, i) && FiredOf(s0, i) == FiredOf(s, i);
    }
    forall i | i in s0.jobs && i != id ensures JobOk(s0, i) {
      assert JobOk(s, i) && FiredOf(s0, i) == FiredOf(s, i);
    }
    RefreshKeeps(s0, next, id);
  }

  lemma StatusKeeps(s: State, next: NextFire, id: Id, status: Status)
    requires Later(next) && Inv(s) && id in s.jobs
    ensures Inv(Step(s, next, SetStatus(id, status)))
  {
    var s0 := s.(jobs := s.jobs[id := s.jobs[id].(status := status)]);
    FrameSame(s, s0);
    forall i | i in s0.jobs && i != id ensures JobOk(s0, i) {
      assert JobOk(s, i) && FiredOf(s0, i) == FiredOf(s, i);
    }
    RefreshKeeps(s0, next, id);
  }

  lemma {:induction false} RunKeeps(next: NextFire, events: seq<Event>)
    requires Later(next)
    ensures Inv(Run(next, events))
  {
    if events != [] {
      RunKeeps(next, events[..|events| - 1]);
      StepKeeps(Run(next, events[..|events| - 1]), next, events[|events| - 1]);
    }
  }

  /** In every run, whatever is paused, resumed, triggered or deleted while executions are awaited, the
      scheduled times at which ticks fire a job strictly increase: no fire happens twice. */
  lemma NoFireTwice(next: NextFire, events: seq<Event>, id: Id)
    requires Later(next)
    ensures Increasing(FiredOf(Run(next, events), id))
  {
    RunKeeps(next, events);
  }

  // ---------------------------------------------------------------- no fire lost

  /** The job is active and next runs at t, and no execution that would reschedule it is awaited. */
  ghost predicate Scheduled(s: State, id: Id, t: int) {
    id in s.jobs && s.jobs[id].status == Active && s.jobs[id].nextRunAt == Some(t) && !Awaited(s, id)
  }

  ghost predicate Owed(s: State, id: Id, t: int) {
    Scheduled(s, id, t) || t in FiredOf(s, id)
  }

  /** The event neither pauses, resumes nor deletes the job. */
  predicate Leaves(e: Event, id: Id) {
    !(e.SetStatus? && e.id == id) && !(e.Delete? && e.id == id)
  }

  lemma StepOwes(s: State, next: NextFire, e: Event, id: Id, t: int)
    requires Inv(s) && Owed(s, id, t) && Leaves(e, id)
    ensures Owed(Step(s, next, e), id, t)
  {
    hide JobOk, PastFires, Increasing;
  }

  /** The present tick has yet to visit the job, which is due; or the job has fired at t. */
  ghost predicate InQueue(s: State, id: Id, t: int) {
    t in FiredOf(s, id)
    || (Scheduled(s, id, t) && s.tick.Ticking? && t <= s.tick.now && id in s.tick.queue)
  }

  ghost predicate NoneDeleted(s: State) {
    s.tick.Ticking? ==> forall q :: q in s.tick.queue ==> q in s.jobs
  }

  /** A round takes only the head of the queue off. */
  lemma Popped(q: seq<Id>, id: Id)
    requires q != []
    ensures q[0] in q && (forall i :: i in q[1..] ==> i in q) && (id in q ==> id == q[0] || id in q[1..])
  {
    assert q == [q[0]] + q[1..];
  }

  lemma VisitVisits(s: State, next: NextFire, id: Id, t: int)
    requires s.tick.Ticking? && s.tick.queue != [] && s.tick.awaiting.None?
    requires InQueue(s, id, t) && NoneDeleted(s)
    ensures InQueue(Visit(s, next), id, t) && NoneDeleted(Visit(s, next))
  {
    Popped(s.tick.queue, id);
  }

  lemma ResumeVisits(s: State, next: NextFire, id: Id, t: int)
    requires Inv(s) && s.tick.Ticking? && s.tick.queue != []
    requires InQueue(s, id, t) && NoneDeleted(s)
    ensures InQueue(Resume(s, next), id, t) && NoneDeleted(Resume(s, next))
  {
    hide JobOk, PastFires, Increasing;
    Popped(s.tick.queue, id);
  }

  lemma StepVisits(s: State, next: NextFire, e: Event, id: Id, t: int)
    requires Inv(s) && InQueue(s, id, t) && NoneDeleted(s) && Leaves(e, id) && !e.Delete?
    ensures InQueue(Step(s, next, e), id, t) && NoneDeleted(Step(s, next, e))
  {
    hide JobOk, PastFires, Increasing, Visit, Resume;
    if e.TickVisit? && s.tick.Ticking? && s.tick.queue != [] && s.tick.awaiting.None? {
      Popped(s.tick.queue, id);
      VisitVisits(s, next, id, t);
    } else if e.TickResume? && s.tick.Ticking? && s.tick.queue != [] {
      ResumeVisits(s, next, id, t);
    }
  }

  lemma RunStep(next: NextFire, events: seq<Event>)
    requires events != []
    ensures Run(next, events) == Step(Run(next, events[..|events| - 1]), next, events[|events| - 1])
  {
    hide Step;
  }

  lemma RunOneMore(next: NextFire, events: seq<Event>, more: seq<Event>)
    requires more != []
    ensures Run(next, events + more) == Step(Run(next, events + more[..|more| - 1]), next, more[|more| - 1])
  {
    hide Run, Step;
    var all, n := events + more, |more| - 1;
    RunStep(next, all);
    assert all[..|all| - 1] == events + more[..n];
  }

  /** Once an active job is due to run at t, it keeps that time, whatever happens to other jobs and however it is
      triggered by hand, until a tick fires it at exactly t. */
  lemma {:induction false} NoFireLost(next: NextFire, events: seq<Event>, more: seq<Event>, id: Id, t: int)
    requires Later(next) && Owed(Run(next, events), id, t)
    requires forall i :: 0 <= i < |more| ==> Leaves(more[i], id)
    ensures Owed(Run(next, events + more), id, t)
    decreases |more|
  {
    if more == [] {
      assert events + more == events;
    } else {
      var n := |more| - 1;
      hide Run, Step, Inv, Owed, Leaves;
      NoFireLost(next, events, more[..n], id, t);
      RunKeeps(next, events + more[..n]);
      RunOneMore(next, events, more);
      StepOwes(Run(next, events + more[..n]), next, more[n], id, t);
    }
  }

  /** A tick that began with the job due and listed does not end before it has fired it, provided that no job is
      deleted and this one is not paused meanwhile. */
  lemma {:induction false} TickFiresDue(next: NextFire, events: seq<Event>, more: seq<Event>, id: Id, t: int)
    requires Later(next) && InQueue(Run(next, events), id, t) && NoneDeleted(Run(next, events))
    requires forall i :: 0 <= i < |more| ==> Leaves(more[i], id) && !more[i].Delete?
    ensures InQueue(Run(next, events + more), id, t) && NoneDeleted(Run(next, events + more))
    ensures Run(next, events + more).tick.Idle? ==> t in FiredOf(Run(next, events + more), id)
    decreases |more|
  {
    if more == [] {
      assert events + more == events;
    } else {
      var n := |more| - 1;
      hide Run, Step, Inv, Leaves, NoneDeleted, Scheduled;
      TickFiresDue(next, events, more[..n], id, t);
      RunKeeps(next, events + more[..n]);
      RunOneMore(next, events, more);
      StepVisits(Run(next, events + more[..n]), next, more[n], id, t);
    }
  }

  // ---------------------------------------------------------------- dead letters

  ghost predicate Buried(s: State) {
    && s.records.deadLetters == Newest(s.records.died, MAX_DEAD_LETTERS)
    && (forall i, j :: 0 <= i < j < |s.records.died| ==> s.records.died[i] != s.records.died[j])
    && (forall i: nat :: i in s.records.died <==> i < |s.executions| && s.executions[i].dead)
    && (forall i: nat :: i < |s.executions| && s.executions[i].dead ==> s.executions[i].phase.Finished?)
  }

  lemma SameBuried(s: State, s': State)
    requires Buried(s)
    requires s'.records.deadLetters == s.records.deadLetters && s'.records.died == s.records.died
    requires |s.executions| <= |s'.executions|
    requires forall i :: 0 <= i < |s'.executions| ==>
               if i < |s.executions| && s.executions[i].dead then s'.executions[i] == s.executions[i]
               else !s'.executions[i].dead
    ensures Buried(s')
  {
  }

  lemma DispatchedBuried(s: State, next: NextFire, x: nat, ok: bool)
    requires Buried(s) && x < |s.executions| && s.executions[x].phase.Dispatching?
    ensures Buried(Step(s, next, Dispatched(x, ok)))
  {
    NewestOfNewest(s.records.died, x, MAX_DEAD_LETTERS);
    hide Newest;
    var s' := Step(s, next, Dispatched(x, ok));
    if s'.executions[x].dead {
      assert s'.records.died == s.records.died + [x];
    } else {
      SameBuried(s, s');
    }
  }

  lemma StepBuried(s: State, next: NextFire, e: Event)
    requires Buried(s)
    ensures Buried(Step(s, next, e))
  {
    if e.Dispatched? && e.x < |s.executions| && s.executions[e.x].phase.Dispatching? {
      hide *;
      DispatchedBuried(s, next, e.x, e.ok);
    } else {
      OthersBury(s, next, e);
    }
  }

  lemma OthersBury(s: State, next: NextFire, e: Event)
    requires Buried(s) && !(e.Dispatched? && e.x < |s.executions| && s.executions[e.x].phase.Dispatching?)
    ensures Buried(Step(s, next, e))
  {
    assert forall i: nat :: i < |s.executions| && s.executions[i].dead ==> s.executions[i].phase.Finished?;
    hide Newest, Buried;
    SameBuried(s, Step(s, next, e));
  }

  /** In every run the dead letters are those of the newest 1000 executions given up, each once and in the order in
      which they were; and those are exactly the executions that RetryDiscipline calls dead. */
  lemma {:induction false} DeadLettersExactly(next: NextFire, events: seq<Event>)
    ensures Buried(Run(next, events))
  {
    if events == [] {
      NoneBuried();
    } else {
      DeadLettersExactly(next, events[..|events| - 1]);
      hide Buried, Step;
      StepBuried(Run(next, events[..|events| - 1]), next, events[|events| - 1]);
    }
  }

  lemma NoneBuried()
    ensures Buried(INITIAL)
  {
    assert INITIAL.records.died == [];
  }

  // ---------------------------------------------------------------- next runs of paused jobs

  predicate PausedJob(s: State, id: Id) {
    id in s.jobs && s.jobs[id].status == Paused
  }

  /** A tick that listed the job while it was active comes to it after it was paused, finds no fire time, and gives
      it one. */
  predicate StaleVisit(s: State, next: NextFire, e: Event, id: Id) {
    && e.TickVisit? && s.tick.Ticking? && s.tick.awaiting.None? && s.tick.queue != [] && s.tick.queue[0] == id
    && PausedJob(s, id) && s.jobs[id].nextRunAt.None? && next(id, s.tick.now).Some?
  }

  predicate SetsStatus(e: Event, id: Id) {
    e.SetStatus? && e.id == id
  }

  /** The tick comes to the job, and it has no fire time. */
  predicate VisitsUnscheduled(s: State, e: Event, id: Id) {
    && e.TickVisit? && s.tick.Ticking? && s.tick.awaiting.None? && s.tick.queue != [] && s.tick.queue[0] == id
    && id in s.jobs && s.jobs[id].nextRunAt.None?
  }

  /** The execution of an active job that the tick waited for has ended without throwing. */
  ghost predicate EndsWait(s: State, e: Event, id: Id) {
    && e.TickResume? && Awaited(s, id) && s.tick.awaiting.value < |s.executions|
    && s.executions[s.tick.awaiting.value].phase.Finished? && id in s.jobs && s.jobs[id].status == Active
  }

  /** Every way in which a job's next run can change. When it is created, when its status is set, and when the tick
      goes on after its execution, it is the next fire after the present time, so that fires missed meanwhile are
      skipped, or nothing for a paused job. When the tick finds it without one, it is the next fire after the beginning
      of the tick. Otherwise it stays. */
  lemma NextRunChanges(s: State, next: NextFire, e: Event, id: Id)
    requires id in Step(s, next, e).jobs && (id in s.jobs ==> id in s.used)
    ensures var s' := Step(s, next, e);
            s'.jobs[id].nextRunAt ==
              if id !in s.jobs || SetsStatus(e, id) then
                if s'.jobs[id].status == Active then next(id, s.clock) else None
              else if VisitsUnscheduled(s, e, id) then next(id, s.tick.now)
              else if EndsWait(s, e, id) then next(id, s.clock)
              else s.jobs[id].nextRunAt
    ensures id !in s.jobs ==> e.Create? && e.id == id
    ensures id in s.jobs ==>
              Step(s, next, e).jobs[id].status == if SetsStatus(e, id) then e.status else s.jobs[id].status
  {
    hide Newest;
  }

  lemma StepPaused(s: State, next: NextFire, e: Event, id: Id)
    requires Inv(s) && PausedJob(Step(s, next, e), id)
    ensures Step(s, next, e).jobs[id].nextRunAt.Some? <==>
              || StaleVisit(s, next, e, id)
              || (PausedJob(s, id) && s.jobs[id].nextRunAt.Some? && !SetsStatus(e, id))
  {
    hide JobOk, PastFires, Increasing;
  }

  /** The i-th event visited the job stalely, and its status has not been set since. */
  ghost predicate GivenAt(next: NextFire, events: seq<Event>, id: Id, i: nat)
    requires i < |events|
  {
    && StaleVisit(Run(next, events[..i]), next, events[i], id)
    && forall j :: i < j < |events| ==> !SetsStatus(events[j], id)
  }

  lemma GivenLater(next: NextFire, events: seq<Event>, id: Id, i: nat)
    requires i < |events| - 1
    ensures GivenAt(next, events, id, i) <==>
              GivenAt(next, events[..|events| - 1], id, i) && !SetsStatus(events[|events| - 1], id)
  {
    assert events[..|events| - 1][..i] == events[..i];
  }

  lemma StepUses(s: State, next: NextFire, e: Event, id: Id)
    requires id in s.used
    ensures id in Step(s, next, e).used
  {
  }

  lemma {:induction false} UsedStays(next: NextFire, events: seq<Event>, m: nat, id: Id)
    requires m <= |events| && id in Run(next, events[..m]).used
    ensures id in Run(next, events).used
    decreases |events|
  {
    hide Run, Step;
    if m == |events| {
      assert events[..m] == events;
    } else {
      var n := |events| - 1;
      assert events[..n][..m] == events[..m];
      UsedStays(next, events[..n], m, id);
      StepUses(Run(next, events[..n]), next, events[n], id);
      RunStep(next, events);
    }
  }

  lemma StatusStays(s: State, next: NextFire, e: Event, id: Id)
    requires id in s.used && id in Step(s, next, e).jobs && !SetsStatus(e, id)
    ensures id in s.jobs && s.jobs[id].status == Step(s, next, e).jobs[id].status
  {
  }

  /** A paused job has a next run exactly when a tick has visited it stalely since its status was last set. */
  lemma {:induction false} PausedNextRunExactly(next: NextFire, events: seq<Event>, id: Id)
    requires Later(next) && PausedJob(Run(next, events), id)
    ensures Run(next, events).jobs[id].nextRunAt.Some? <==>
              exists i :: 0 <= i < |events| && GivenAt(next, events, id, i)
    decreases |events|
  {
    if events != [] {
      var n := |events| - 1;
      var front, e := events[..n], events[n];
      var s := Run(next, front);
      RunKeeps(next, front);
      StepPaused(s, next, e, id);
      assert GivenAt(next, events, id, n) <==> StaleVisit(s, next, e, id);
      forall i | 0 <= i < n
        ensures GivenAt(next, events, id, i) <==> GivenAt(next, front, id, i) && !SetsStatus(e, id)
        ensures GivenAt(next, events, id, i) ==> PausedJob(s, id)
      {
        GivenLater(next, events, id, i);
        if GivenAt(next, events, id, i) {
          GivenUsed(next, events, id, i);
          StatusStays(s, next, e, id);
        }
      }
      hide GivenAt, StaleVisit, Inv;
      if PausedJob(s, id) {
        PausedNextRunExactly(next, front, id);
      }
    }
  }

  lemma GivenUsed(next: NextFire, events: seq<Event>, id: Id, i: nat)
    requires Later(next) && i < |events| - 1 && GivenAt(next, events, id, i)
    ensures id in Run(next, events[..|events| - 1]).used
  {
    var front := events[..|events| - 1];
    RunKeeps(next, events[..i]);
    assert front[..i] == events[..i];
    UsedStays(next, front, i, id);
  }

  /** How it comes about: the tick waits for one job and has listed another, which is paused meanwhile; when it goes
      on, the paused job is given a next run. */
  lemma PausedMeanwhile(s: State, next: NextFire, id: Id)
    requires s.tick.Ticking? && |s.tick.queue| > 1 && s.tick.queue[1] == id && s.tick.queue[0] != id
    requires s.tick.awaiting.Some? && s.tick.awaiting.value < |s.executions|
    requires s.executions[s.tick.awaiting.value].phase.Finished?
    requires id in s.jobs && next(id, s.tick.now).Some?
    ensures var paused := Step(s, next, SetStatus(id, Paused));
            var later := Step(Step(paused, next, TickResume), next, TickVisit(false));
            && PausedJob(paused, id) && paused.jobs[id].nextRunAt.None?
            && PausedJob(later, id) && later.jobs[id].nextRunAt == next(id, s.tick.now)
  {
    var paused := Step(s, next, SetStatus(id, Paused));
    assert paused == s.(jobs := s.jobs[id := s.jobs[id].(status := Paused, nextRunAt := None)]);
    var resumed := Step(paused, next, TickResume);
    assert resumed.tick == Ticking(s.tick.now, s.tick.queue[1..], None) && resumed.jobs[id] == paused.jobs[id];
  }

  // ---------------------------------------------------------------- what a manual trigger reports

  /** The registry keeps a history for the jobs it has and no others: the newest runs of the job's log. */
  ghost predicate Kept(jobs: set<Id>, used: set<Id>, r: Records) {
    && jobs <= used && r.history.Keys == jobs && r.log.Keys == used
    && (forall id :: id in r.history && id in r.log ==> r.history[id] == Newest(r.log[id], MAX_RUNS))
  }

  ghost predicate KeptIn(s: State) {
    Kept(s.jobs.Keys, s.used, s.records)
  }

  lemma RunKeepsHistory(jobs: set<Id>, used: set<Id>, r: Records, i: nat, x: Execution, ok: bool)
    requires Kept(jobs, used, r) && x.job in jobs
    ensures Kept(jobs, used, WithRun(r, i, x, ok))
  {
    var entry := Logged(i, Recorded(x.attempt, ok, ok || x.attempt >= x.maxAttempts));
    assert x.job in r.history && x.job in r.log;
    NewestOfNewest(r.log[x.job], entry, MAX_RUNS);
    hide Newest;
    var r' := WithRun(r, i, x, ok);
    assert r'.history.Keys == r.history.Keys && r'.log.Keys == r.log.Keys;
  }

  lemma OpenKeeps(jobs: set<Id>, used: set<Id>, r: Records, id: Id)
    requires Kept(jobs, used, r) && id !in used
    ensures Kept(jobs + {id}, used + {id}, Opened(r, id))
  {
    assert Newest<Logged>([], MAX_RUNS) == [];
    hide Newest;
    assert Opened(r, id).history.Keys == r.history.Keys + {id} && Opened(r, id).log.Keys == r.log.Keys + {id};
  }

  lemma DropKeeps(jobs: set<Id>, used: set<Id>, r: Records, id: Id)
    requires Kept(jobs, used, r)
    ensures Kept(jobs - {id}, used, Dropped(r, id))
  {
    hide Newest;
    assert Dropped(r, id).history.Keys == r.history.Keys - {id};
  }

  /** How an event changes the sets of jobs and of used ids, and the records. */
  lemma StepChanges(s: State, next: NextFire, e: Event)
    ensures var s' := Step(s, next, e);
            match e
            case Create(id, _) =>
              if id in s.used then s' == s
              else s'.jobs.Keys == s.jobs.Keys + {id} && s'.used == s.used + {id}
                   && s'.records == Opened(s.records, id)
            case Delete(id) =>
              s'.jobs.Keys == s.jobs.Keys - {id} && s'.used == s.used && s'.records == Dropped(s.records, id)
            case TriggerNow(id) =>
              s'.jobs == s.jobs && s'.used == s.used
              && s'.records == if id in s.jobs then WithTrigger(s.records, |s.executions|, id) else s.records
            case Dispatched(x, ok) =>
              s'.jobs == s.jobs && s'.used == s.used
              && s'.records == if x < |s.executions| && s.executions[x].phase.Dispatching?
                                  && s.executions[x].job in s.jobs
                               then WithRun(s.records, x, s.executions[x], ok) else s.records
            case _ => s'.jobs.Keys == s.jobs.Keys && s'.used == s.used && s'.records == s.records
  {
    hide Opened, Dropped, WithTrigger, WithRun, AfterDispatch, AfterSleep, Begin;
  }

  lemma StepKept(s: State, next: NextFire, e: Event)
    requires KeptIn(s)
    ensures KeptIn(Step(s, next, e))
  {
    StepChanges(s, next, e);
    hide Step, Kept, Opened, Dropped, WithRun;
    match e
    case Create(id, job) =>
      if id !in s.used {
        OpenKeeps(s.jobs.Keys, s.used, s.records, id);
      }
    case Delete(id) => DropKeeps(s.jobs.Keys, s.used, s.records, id);
    case TriggerNow(id) => TriggerKeeps(s.jobs.Keys, s.used, s.records, |s.executions|, id);
    case Dispatched(x, ok) =>
      if x < |s.executions| && s.executions[x].phase.Dispatching? && s.executions[x].job in s.jobs {
        RunKeepsHistory(s.jobs.Keys, s.used, s.records, x, s.executions[x], ok);
      }
    case _ =>
  }

  lemma TriggerKeeps(jobs: set<Id>, used: set<Id>, r: Records, i: nat, id: Id)
    requires Kept(jobs, used, r)
    ensures Kept(jobs, used, WithTrigger(r, i, id))
  {
    hide Newest;
  }

  lemma {:induction false} RunKept(next: NextFire, events: seq<Event>)
    ensures KeptIn(Run(next, events))
  {
    if events == [] {
      assert KeptIn(INITIAL);
    } else {
      RunKept(next, events[..|events| - 1]);
      hide KeptIn, Step;
      StepKept(Run(next, events[..|events| - 1]), next, events[|events| - 1]);
    }
  }

  /** The trigger that began as execution i of the job, when the log was as given. */
  ghost predicate Triggered(s: State, i: nat, id: Id, length: nat, before: seq<Logged>) {
    && i < |s.executions| && s.executions[i].job == id
    && i in s.records.triggers && s.records.triggers[i] == length
    && id in s.used && before <= LogOf(s.records, id)
  }

  lemma StepTriggered(s: State, next: NextFire, e: Event, i: nat, id: Id, length: nat, before: seq<Logged>)
    requires Triggered(s, i, id, length, before)
    ensures Triggered(Step(s, next, e), i, id, length, before)
  {
    StepChanges(s, next, e);
    StepExecutions(s, next, e, i);
    hide Step, Newest;
  }

  lemma StepExecutions(s: State, next: NextFire, e: Event, i: nat)
    requires i < |s.executions|
    ensures i < |Step(s, next, e).executions| && Step(s, next, e).executions[i].job == s.executions[i].job
  {
    hide Opened, Dropped, WithTrigger, WithRun;
  }

  lemma {:induction false} StaysTriggered(next: NextFire, events: seq<Event>, more: seq<Event>,
                                          i: nat, id: Id, length: nat, before: seq<Logged>)
    requires Triggered(Run(next, events), i, id, length, before)
    ensures Triggered(Run(next, events + more), i, id, length, before)
    decreases |more|
  {
    if more == [] {
      assert events + more == events;
    } else {
      var n := |more| - 1;
      StaysTriggered(next, events, more[..n], i, id, length, before);
      RunOneMore(next, events, more);
      hide Run, Step, Triggered;
      StepTriggered(Run(next, events + more[..n]), next, more[n], i, id, length, before);
    }
  }

  lemma NewestGrows(before: seq<Logged>, now: seq<Logged>)
    requires before <= now
    ensures |Newest(now, MAX_RUNS)| > |Newest(before, MAX_RUNS)| <==> |now| > |before| && |before| < MAX_RUNS
    ensures now != [] ==> Newest(now, MAX_RUNS) != []
                          && Newest(now, MAX_RUNS)[|Newest(now, MAX_RUNS)| - 1] == now[|now| - 1]
  {
  }

  /** In every run, whatever else happens meanwhile, a manual trigger reports a run exactly when, at its end, the job is
      still there, a run of it was recorded since, and its history was not full when the trigger began. It is the last
      run recorded, be it the trigger's or another execution's. If the job was deleted while the trigger was
      dispatching, its promise rejects. */
  lemma TriggerReportsExactly(next: NextFire, events: seq<Event>, id: Id, more: seq<Event>)
    requires Later(next) && id in Run(next, events).jobs
    ensures var before, s := Run(next, events), Run(next, events + [TriggerNow(id)] + more);
            var i := |before.executions|;
            var was, now := LogOf(before.records, id), LogOf(s.records, id);
            && i < |s.executions| && i in s.records.triggers && s.executions[i].job == id && was <= now
            && (s.executions[i].phase.Finished? ==>
                  ReplyOf(s, i) == Reported(
                    if id in s.jobs && |now| > |was| && |HistoryOf(before.records, id)| < MAX_RUNS
                    then Some(now[|now| - 1])
                    else None))
            && (s.executions[i].phase.Threw? ==> ReplyOf(s, i).Rejected? && id !in s.jobs)
  {
    var before := Run(next, events);
    var i := |before.executions|;
    var log := LogOf(before.records, id);
    RunKept(next, events);
    assert id in before.records.history && id in before.records.log;
    assert HistoryOf(before.records, id) == Newest(log, MAX_RUNS);
    hide Newest;
    var one := events + [TriggerNow(id)];
    assert one[..|events|] == events;
    assert Triggered(Run(next, one), i, id, |Newest(log, MAX_RUNS)|, log);
    StaysTriggered(next, one, more, i, id, |Newest(log, MAX_RUNS)|, log);
    var s := Run(next, one + more);
    RunKept(next, one + more);
    RunKeeps(next, one + more);
    AtEnd(s, i, id, log);
  }

  lemma AtEnd(s: State, i: nat, id: Id, log: seq<Logged>)
    requires KeptIn(s) && Inv(s) && Triggered(s, i, id, |Newest(log, MAX_RUNS)|, log)
    ensures var now := LogOf(s.records, id);
            && (s.executions[i].phase.Finished? ==>
                  ReplyOf(s, i) == Reported(
                    if id in s.jobs && |now| > |log| && |Newest(log, MAX_RUNS)| < MAX_RUNS
                    then Some(now[|now| - 1])
                    else None))
            && (s.executions[i].phase.Threw? ==> id !in s.jobs)
  {
    NewestGrows(log, LogOf(s.records, id));
    assert id in s.jobs <==> id in s.records.history;
    assert id in s.records.log;
    NewestSize(log);
    hide JobOk, Newest;
  }

  lemma NewestSize(log: seq<Logged>)
    ensures |Newest(log, MAX_RUNS)| < MAX_RUNS <==> |log| < MAX_RUNS
  {
  }
}
