/** The per-tenant deploy queue. A task waits for the promise `previous` it found as the tail of its key;
    `chained` is the promise it leaves as the new tail, and `=== chained` guards the removal of the tail.
    Events are the microtasks of those promises; any order of enabled events is a run. */
module TenantQueue {
  import opened Wrappers

  type Key = nat

  /** Where a task stands: queued behind `previous`, running, finished (`next` settled), chained (`chained`
      resolved), and swept (its clean-up callback has run). */
  datatype Phase = Queued | Running | Settled | Chained | Swept

  /** `previous` is the task whose `chained` promise this one waits for, or None for a resolved promise. */
  datatype Task = Task(key: Key, previous: Option<nat>, phase: Phase)

  /** `tails` maps a key to the task whose `chained` promise is its tail; `started` is the order of starts. */
  datatype State = State(tasks: seq<Task>, tails: map<Key, nat>, started: seq<nat>)

  const INITIAL := State([], map[], [])

  datatype Event =
    | Enqueue(key: Key)
    | Start(i: nat)
    | Settle(i: nat, ok: bool)
    | Chain(i: nat)
    | Sweep(i: nat)

  predicate Resolved(s: State, previous: Option<nat>) {
    previous.None? || (previous.value < |s.tasks| && s.tasks[previous.value].phase in {Chained, Swept})
  }

  predicate Enabled(s: State, e: Event) {
    match e
    case Enqueue(_) => true
    case Start(i) => i < |s.tasks| && s.tasks[i].phase.Queued? && Resolved(s, s.tasks[i].previous)
    case Settle(i, _) => i < |s.tasks| && s.tasks[i].phase.Running?
    case Chain(i) => i < |s.tasks| && s.tasks[i].phase.Settled?
    case Sweep(i) => i < |s.tasks| && s.tasks[i].phase.Chained?
  }

  function Tail(s: State, key: Key): Option<nat> {
    if key in s.tails then Some(s.tails[key]) else None
  }

  function To(s: State, i: nat, p: Phase): State
    requires i < |s.tasks|
  {
    s.(tasks := s.tasks[i := s.tasks[i].(phase := p)])
  }

  /** A task moves on whether it resolved or rejected: `then(task, task)` and the catch see to it. */
  function Step(s: State, e: Event): State
    requires Enabled(s, e)
  {
    StepWith(s, e, true)
  }

  /** The same with or without the guard on the removal of the tail. */
  function StepWith(s: State, e: Event, guarded: bool): State
    requires Enabled(s, e)
  {
    match e
    case Enqueue(key) =>
      s.(tasks := s.tasks + [Task(key, Tail(s, key), Queued)], tails := s.tails[key := |s.tasks|])
    case Start(i) => To(s, i, Running).(started := s.started + [i])
    case Settle(i, _) => To(s, i, Settled)
    case Chain(i) => To(s, i, Chained)
    case Sweep(i) =>
      var key := s.tasks[i].key;
      To(s, i, Swept).(tails := if Tail(s, key) == Some(i) || !guarded then s.tails - {key} else s.tails)
  }

  // ---------------------------------------------------------------- the class

  class Queue {
    var tails: map<Key, nat>
    var tasks: seq<Task>
    ghost var started: seq<nat>

    ghost function Abs(): State
      reads this
    {
      State(tasks, tails, started)
    }

    constructor ()
      ensures Abs() == INITIAL
    {
      tails, tasks, started := map[], [], [];
    }

    method EnqueueTask(key: Key) returns (i: nat)
      modifies this
      ensures i == |old(tasks)| && Abs() == Step(old(Abs()), Enqueue(key))
    {
      i := |tasks|;
      var previous := if key in tails then Some(tails[key]) else None;
      tasks := tasks + [Task(key, previous, Queued)];
      tails := tails[key := i];
    }

    /** The promise the task waits for has resolved: `then(task, task)` runs it. */
    method RunTask(i: nat)
      requires Enabled(Abs(), Start(i))
      modifies this
      ensures Abs() == Step(old(Abs()), Start(i))
    {
      tasks := tasks[i := tasks[i].(phase := Running)];
      started := started + [i];
    }

    method TaskSettled(i: nat, ok: bool)
      requires Enabled(Abs(), Settle(i, ok))
      modifies `tasks
      ensures Abs() == Step(old(Abs()), Settle(i, ok))
    {
      tasks := tasks[i := tasks[i].(phase := Settled)];
    }

    method ChainResolved(i: nat)
      requires Enabled(Abs(), Chain(i))
      modifies `tasks
      ensures Abs() == Step(old(Abs()), Chain(i))
    {
      tasks := tasks[i := tasks[i].(phase := Chained)];
    }

    /** Drops the tail if nothing newer was queued behind the task. */
    method SweepTail(i: nat)
      requires Enabled(Abs(), Sweep(i))
      modifies this
      ensures Abs() == Step(old(Abs()), Sweep(i))
    {
      var key := tasks[i].key;
      if key in tails && tails[key] == i {
        tails := tails - {key};
      }
      tasks := tasks[i := tasks[i].(phase := Swept)];
    }

    /** In a queue kept by these methods, a key is listed exactly while its last task has not been swept: so with
        every unsettled task, and no longer when all tasks have been swept. */
    method ActiveKeys() returns (keys: set<Key>)
      ensures keys == tails.Keys
      ensures Inv(Abs()) ==> forall key :: key in keys <==> LastPending(Abs(), key)
      ensures Inv(Abs()) ==> forall i :: 0 <= i < |tasks| && Unsettled(tasks[i]) ==> tasks[i].key in keys
      ensures Inv(Abs()) && (forall i :: 0 <= i < |tasks| ==> tasks[i].phase.Swept?) ==> keys == {}
    {
      keys := tails.Keys;
      if Inv(Abs()) {
        forall key ensures key in keys <==> LastPending(Abs(), key) {
          TrackedExactly(Abs(), key);
        }
        forall i | 0 <= i < |tasks| && Unsettled(tasks[i]) ensures tasks[i].key in keys {
          UnsettledTracked(Abs(), i);
        }
      }
    }
  }

  // ---------------------------------------------------------------- the invariant

  /** j is the last task of the key before position i. */
  ghost predicate LastBefore(s: State, key: Key, j: nat, i: nat) {
    && j < i <= |s.tasks| && s.tasks[j].key == key
    && forall k :: j < k < i ==> s.tasks[k].key != key
  }

  /** Every task of the key before position i has been chained. */
  ghost predicate AllChained(s: State, key: Key, i: nat) {
    i <= |s.tasks| && forall k :: 0 <= k < i && s.tasks[k].key == key ==> s.tasks[k].phase in {Chained, Swept}
  }

  ghost predicate Links(s: State, i: nat)
    requires i < |s.tasks|
  {
    match s.tasks[i].previous
    case Some(j) => LastBefore(s, s.tasks[i].key, j, i)
    case None => AllChained(s, s.tasks[i].key, i)
  }

  ghost predicate TailOk(s: State, key: Key) {
    if key in s.tails
    then LastBefore(s, key, s.tails[key], |s.tasks|) && !s.tasks[s.tails[key]].phase.Swept?
    else AllChained(s, key, |s.tasks|) && LastSwept(s, key)
  }

  ghost predicate LastSwept(s: State, key: Key) {
    forall j: nat :: LastBefore(s, key, j, |s.tasks|) ==> s.tasks[j].phase.Swept?
  }

  /** The task enqueued last for the key has not been swept. */
  ghost predicate LastPending(s: State, key: Key) {
    exists j: nat :: LastBefore(s, key, j, |s.tasks|) && !s.tasks[j].phase.Swept?
  }

  ghost predicate Begun(s: State, i: nat)
    requires i < |s.tasks|
  {
    !s.tasks[i].phase.Queued?
  }

  ghost predicate Inv(s: State) {
    && (forall i :: 0 <= i < |s.tasks| ==> Links(s, i))
    && (forall key :: TailOk(s, key))
    && (forall i :: 0 <= i < |s.tasks| && Begun(s, i) ==> AllChained(s, s.tasks[i].key, i))
    && StartsInOrder(s)
  }

  /** The tasks that have begun are those recorded as started, and those of one key started in order. */
  ghost predicate StartsInOrder(s: State) {
    && (forall a :: 0 <= a < |s.started| ==> s.started[a] < |s.tasks| && Begun(s, s.started[a]))
    && (forall i :: 0 <= i < |s.tasks| && Begun(s, i) ==> i in s.started)
    && (forall a, b :: 0 <= a < b < |s.started| && s.tasks[s.started[a]].key == s.tasks[s.started[b]].key ==>
          s.started[a] < s.started[b])
  }

  lemma TrackedExactly(s: State, key: Key)
    requires Inv(s)
    ensures key in s.tails <==> LastPending(s, key)
  {
    assert TailOk(s, key);
  }

  lemma UnsettledTracked(s: State, i: nat)
    requires Inv(s) && i < |s.tasks| && Unsettled(s.tasks[i])
    ensures s.tasks[i].key in s.tails
  {
    assert TailOk(s, s.tasks[i].key);
  }

  function Rank(p: Phase): nat {
    match p
    case Queued => 0
    case Running => 1
    case Settled => 2
    case Chained => 3
    case Swept => 4
  }

  /** Tasks are only added at the end, and their phases only advance. */
  ghost predicate Advances(s: State, s': State) {
    && |s.tasks| <= |s'.tasks|
    && forall i :: 0 <= i < |s.tasks| ==>
         && s'.tasks[i].key == s.tasks[i].key && s'.tasks[i].previous == s.tasks[i].previous
         && Rank(s.tasks[i].phase) <= Rank(s'.tasks[i].phase)
  }

  lemma ChainedStays(s: State, s': State, key: Key, i: nat)
    requires Advances(s, s') && AllChained(s, key, i)
    ensures AllChained(s', key, i)
  {
    forall k | 0 <= k < i && s'.tasks[k].key == key ensures s'.tasks[k].phase in {Chained, Swept} {
      assert s.tasks[k].phase in {Chained, Swept} && Rank(s.tasks[k].phase) >= 3;
    }
  }

  lemma LastStays(s: State, s': State, key: Key)
    requires Advances(s, s') && LastSwept(s, key)
    requires forall i :: |s.tasks| <= i < |s'.tasks| ==> s'.tasks[i].key != key
    ensures LastSwept(s', key)
  {
    forall j: nat | LastBefore(s', key, j, |s'.tasks|) ensures s'.tasks[j].phase.Swept? {
      assert LastBefore(s, key, j, |s.tasks|);
      assert Rank(s.tasks[j].phase) == 4;
    }
  }

  lemma LinksStay(s: State, s': State, i: nat)
    requires Advances(s, s') && i < |s.tasks| && Links(s, i)
    ensures Links(s', i)
  {
    if s.tasks[i].previous.None? {
      ChainedStays(s, s', s.tasks[i].key, i);
    }
  }

  /** A task whose turn has come: all earlier tasks of its key have been chained. */
  lemma TurnCome(s: State, i: nat)
    requires Inv(s) && Enabled(s, Start(i))
    ensures AllChained(s, s.tasks[i].key, i)
  {
    assert Links(s, i);
    if s.tasks[i].previous.Some? {
      var j := s.tasks[i].previous.value;
      assert Begun(s, j);
    }
  }

  lemma EnqueueKeeps(s: State, key: Key)
    requires Inv(s)
    ensures Inv(Step(s, Enqueue(key)))
  {
    var s' := Step(s, Enqueue(key));
    assert TailOk(s, key);
    forall i | 0 <= i < |s'.tasks| ensures Links(s', i) {
      if i < |s.tasks| {
        LinksStay(s, s', i);
      } else if key !in s.tails {
        ChainedStays(s, s', key, i);
      }
    }
    forall k ensures TailOk(s', k) {
      assert TailOk(s, k);
      if k != key && k !in s.tails {
        LastStays(s, s', k);
      }
    }
    forall i | 0 <= i < |s'.tasks| && Begun(s', i) ensures AllChained(s', s'.tasks[i].key, i) && i in s'.started {
      assert Begun(s, i);
      ChainedStays(s, s', s.tasks[i].key, i);
    }
    assert forall a :: 0 <= a < |s.started| ==> Begun(s, s.started[a]);
  }

  /** Moving one task on, when it has begun or its turn has come. */
  lemma MoveKeeps(s: State, s': State, i: nat)
    requires Inv(s) && i < |s.tasks| && AllChained(s, s.tasks[i].key, i)
    requires |s'.tasks| == |s.tasks| && s'.tasks == s.tasks[i := s.tasks[i].(phase := s'.tasks[i].phase)]
    requires Begun(s', i)
    requires Rank(s.tasks[i].phase) < Rank(s'.tasks[i].phase)
    requires s'.started == if Begun(s, i) then s.started else s.started + [i]
    requires forall key :: TailOk(s', key)
    ensures Inv(s')
  {
    assert Advances(s, s');
    StartsKeep(s, s', i);
    hide StartsInOrder;
    forall k | 0 <= k < |s'.tasks| ensures Links(s', k) {
      LinksStay(s, s', k);
    }
    forall k | 0 <= k < |s'.tasks| && Begun(s', k) ensures AllChained(s', s'.tasks[k].key, k) {
      if k != i {
        assert Begun(s, k);
      }
      ChainedStays(s, s', s.tasks[k].key, k);
    }
  }

  lemma StartsKeep(s: State, s': State, i: nat)
    requires StartsInOrder(s) && i < |s.tasks| && AllChained(s, s.tasks[i].key, i)
    requires forall k :: 0 <= k < |s.tasks| && Begun(s, k) ==> AllChained(s, s.tasks[k].key, k)
    requires |s'.tasks| == |s.tasks| && s'.tasks == s.tasks[i := s.tasks[i].(phase := s'.tasks[i].phase)]
    requires Begun(s', i) && Rank(s.tasks[i].phase) < Rank(s'.tasks[i].phase)
    requires s'.started == if Begun(s, i) then s.started else s.started + [i]
    ensures StartsInOrder(s')
  {
    forall k | 0 <= k < |s'.tasks| && Begun(s', k) ensures k in s'.started {
      if k != i {
        assert Begun(s, k);
      }
      if !Begun(s, i) {
        assert s'.started[|s.started|] == i;
      }
    }
    forall a | 0 <= a < |s'.started| ensures s'.started[a] < |s'.tasks| && Begun(s', s'.started[a]) {
      if a < |s.started| {
        assert Begun(s, s.started[a]);
      }
    }
    forall a, b | 0 <= a < b < |s'.started| && s'.tasks[s'.started[a]].key == s'.tasks[s'.started[b]].key
      ensures s'.started[a] < s'.started[b]
    {
      if b == |s.started| {
        assert Begun(s, s.started[a]) && !Begun(s, i);
        assert AllChained(s, s.tasks[i].key, s.started[a]);
      }
    }
  }

  lemma TailsStay(s: State, i: nat, p: Phase, key: Key)
    requires TailOk(s, key) && i < |s.tasks| && Rank(s.tasks[i].phase) < Rank(p) < 4
    ensures TailOk(To(s, i, p), key)
  {
    var s' := To(s, i, p);
    if key !in s.tails {
      ChainedStays(s, s', key, |s.tasks|);
      LastStays(s, s', key);
    }
  }

  lemma SweepTails(s: State, i: nat, key: Key)
    requires Inv(s) && Enabled(s, Sweep(i))
    ensures TailOk(Step(s, Sweep(i)), key)
  {
    var s' := Step(s, Sweep(i));
    assert TailOk(s, key) && Begun(s, i) && AllChained(s, s.tasks[i].key, i);
    if key !in s'.tails {
      if key in s.tails {
        assert LastBefore(s, key, i, |s.tasks|);
        assert AllChained(s, key, |s.tasks|);
        forall j: nat | LastBefore(s', key, j, |s'.tasks|) ensures j == i {
          assert s'.tasks[i].key == key && s'.tasks[j].key == key && s.tasks[j].key == key;
          assert !(j < i) && !(i < j);
        }
      } else {
        LastStays(s, s', key);
      }
      ChainedStays(s, s', key, |s.tasks|);
    }
  }

  lemma StepKeeps(s: State, e: Event)
    requires Inv(s) && Enabled(s, e)
    ensures Inv(Step(s, e))
  {
    if e.Enqueue? {
      EnqueueKeeps(s, e.key);
    } else {
      var s' := Step(s, e);
      if e.Start? {
        TurnCome(s, e.i);
      } else {
        assert Begun(s, e.i);
      }
      forall key ensures TailOk(s', key) {
        if e.Sweep? {
          SweepTails(s, e.i, key);
        } else {
          assert TailOk(s, key);
          TailsStay(s, e.i, s'.tasks[e.i].phase, key);
          assert s'.tasks == To(s, e.i, s'.tasks[e.i].phase).tasks;
        }
      }
      MoveKeeps(s, s', e.i);
    }
  }

  // ---------------------------------------------------------------- every run

  /** The state after the events, from the empty queue, if each was enabled in its turn. */
  function Run(events: seq<Event>, guarded: bool): Option<State> {
    if events == [] then Some(INITIAL)
    else
      var last := events[|events| - 1];
      match Run(events[..|events| - 1], guarded)
      case None => None
      case Some(s) => if Enabled(s, last) then Some(StepWith(s, last, guarded)) else None
  }

  lemma {:induction false} RunInv(events: seq<Event>)
    requires Run(events, true).Some?
    ensures Inv(Run(events, true).value)
  {
    if events == [] {
      forall key ensures TailOk(INITIAL, key) {
        assert LastSwept(INITIAL, key);
      }
    } else {
      RunInv(events[..|events| - 1]);
      StepKeeps(Run(events[..|events| - 1], true).value, events[|events| - 1]);
    }
  }

  /** The promise handed to the task's caller has not settled. */
  predicate Unsettled(t: Task) {
    t.phase in {Queued, Running}
  }

  /** In every interleaving: at most one task per key runs; tasks of a key start in the order in which
      they were enqueued, rejections or not, each only when all earlier ones have settled; a key with an unsettled
      task is tracked; and once every task has been swept nothing is tracked. */
  lemma SerialPerKey(events: seq<Event>, s: State)
    requires Run(events, true) == Some(s)
    ensures forall i, j :: 0 <= i < j < |s.tasks| && s.tasks[i].phase.Running? && s.tasks[j].phase.Running? ==>
              s.tasks[i].key != s.tasks[j].key
    ensures forall i, j :: 0 <= i < j < |s.tasks| && s.tasks[i].key == s.tasks[j].key && Begun(s, j) ==>
              s.tasks[i].phase in {Chained, Swept}
    ensures forall a, b :: 0 <= a < b < |s.started| ==>
              s.started[a] < |s.tasks| && s.started[b] < |s.tasks|
              && (s.tasks[s.started[a]].key == s.tasks[s.started[b]].key ==> s.started[a] < s.started[b])
    ensures forall i: nat :: i in s.started <==> i < |s.tasks| && Begun(s, i)
    ensures forall i :: 0 <= i < |s.tasks| && Unsettled(s.tasks[i]) ==> s.tasks[i].key in s.tails
    ensures (forall i :: 0 <= i < |s.tasks| ==> s.tasks[i].phase.Swept?) ==> s.tails == map[]
  {
    RunInv(events);
    forall i, j | 0 <= i < j < |s.tasks| && s.tasks[i].phase.Running? && s.tasks[j].phase.Running?
      ensures s.tasks[i].key != s.tasks[j].key
    {
      assert Begun(s, j);
    }
    forall i | 0 <= i < |s.tasks| && Unsettled(s.tasks[i]) ensures s.tasks[i].key in s.tails {
      UnsettledTracked(s, i);
    }
    if forall i :: 0 <= i < |s.tasks| ==> s.tasks[i].phase.Swept? {
      forall key ensures key !in s.tails {
        assert TailOk(s, key);
      }
    }
  }

  /** No task is stuck, and keys do not wait for each other: the first task of a key that has not been swept can
      move, whatever the tasks of other keys are doing. */
  lemma FirstMoves(events: seq<Event>, s: State, i: nat, ok: bool)
    requires Run(events, true) == Some(s) && i < |s.tasks| && !s.tasks[i].phase.Swept?
    requires forall j :: 0 <= j < i && s.tasks[j].key == s.tasks[i].key ==> s.tasks[j].phase.Swept?
    ensures Enabled(s, Start(i)) || Enabled(s, Settle(i, ok)) || Enabled(s, Chain(i)) || Enabled(s, Sweep(i))
  {
    RunInv(events);
    assert Links(s, i);
  }

  /** Every event but an arrival moves one task on by one stage, rejected or not, and touches no other; an arrival
      queues one more task. So every task is over after four events of its own. */
  lemma TaskMoves(s: State, e: Event)
    requires Enabled(s, e)
    ensures e.Enqueue? ==>
              |Step(s, e).tasks| == |s.tasks| + 1 && Step(s, e).tasks[..|s.tasks|] == s.tasks
              && Step(s, e).tasks[|s.tasks|].key == e.key && Rank(Step(s, e).tasks[|s.tasks|].phase) == 0
    ensures !e.Enqueue? ==>
              && |Step(s, e).tasks| == |s.tasks|
              && Rank(Step(s, e).tasks[e.i].phase) == Rank(s.tasks[e.i].phase) + 1
              && Step(s, e).tasks[e.i].key == s.tasks[e.i].key
              && forall k :: 0 <= k < |s.tasks| && k != e.i ==> Step(s, e).tasks[k] == s.tasks[k]
  {
  }

  // ---------------------------------------------------------------- why the guard

  /** Without the guard, the clean-up of a finished task forgets the running one behind it, and a task
      enqueued next runs beside it. */
  lemma UnguardedOverlaps()
    ensures exists events :: Run(events, false) == Some(
              State([Task(0, None, Swept), Task(0, Some(0), Running), Task(0, None, Running)], map[0 := 2], [0, 1, 2]))
  {
    hide Run;
    var w, q := Task(0, None, Swept), Task(0, None, Queued);
    var q1, r1 := Task(0, Some(0), Queued), Task(0, Some(0), Running);
    var es := TailForgotten();
    es := RunOne(es, State([w, q1], map[], [0]), Start(1), State([w, r1], map[], [0, 1]));
    es := RunOne(es, State([w, r1], map[], [0, 1]), Enqueue(0), State([w, r1, q], map[0 := 2], [0, 1]));
    es := RunOne(es, State([w, r1, q], map[0 := 2], [0, 1]), Start(2),
                 State([w, r1, Task(0, None, Running)], map[0 := 2], [0, 1, 2]));
  }

  /** The clean-up of the first task runs before the second starts, as its callback was registered first. */
  lemma TailForgotten() returns (es: seq<Event>)
    ensures Run(es, false) == Some(State([Task(0, None, Swept), Task(0, Some(0), Queued)], map[], [0]))
  {
    assert Run([], false) == Some(INITIAL);
    hide Run;
    var q, r, t, c, w := Task(0, None, Queued), Task(0, None, Running), Task(0, None, Settled),
                         Task(0, None, Chained), Task(0, None, Swept);
    var q1 := Task(0, Some(0), Queued);
    es := RunOne([], INITIAL, Enqueue(0), State([q], map[0 := 0], []));
    es := RunOne(es, State([q], map[0 := 0], []), Start(0), State([r], map[0 := 0], [0]));
    es := RunOne(es, State([r], map[0 := 0], [0]), Enqueue(0), State([r, q1], map[0 := 1], [0]));
    es := RunOne(es, State([r, q1], map[0 := 1], [0]), Settle(0, true), State([t, q1], map[0 := 1], [0]));
    es := RunOne(es, State([t, q1], map[0 := 1], [0]), Chain(0), State([c, q1], map[0 := 1], [0]));
    es := RunOne(es, State([c, q1], map[0 := 1], [0]), Sweep(0), State([w, q1], map[], [0]));
  }

  /** One more event of an unguarded run. */
  lemma RunOne(events: seq<Event>, s: State, e: Event, s': State) returns (more: seq<Event>)
    requires Run(events, false) == Some(s) && Enabled(s, e)
    requires StepWith(s, e, false).tasks == s'.tasks && StepWith(s, e, false).tails == s'.tails
    requires StepWith(s, e, false).started == s'.started
    ensures more == events + [e] && Run(more, false) == Some(s')
  {
    more := events + [e];
    assert more[..|events|] == events;
  }
}
