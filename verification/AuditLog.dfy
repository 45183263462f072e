/** Concurrent appends to the audit log. Each call takes the current lock promise as its own to wait for
    and installs `prior.then(() => next)` as the new one, where `next` is released when the call ends.
    The events below are the stretches of code between awaits, plus the settling of those promises;
    any order of enabled events is a run. */
module AuditLog {
  import opened Wrappers
  import opened CanonicalJson
  import opened HashChain

  /** Where a call of `append` stands. */
  datatype Phase =
    | Waiting                        // for the promise it found as the lock
    | ReadingTail
    | Counting(tail: Option<Entry>)
    | Stamping(sealed: Entry)        // for the timestamp authority
    | Storing(entry: Entry)
    | Released(result: Option<Entry>)  // returned an entry, or threw; either way the gate is open

  /** `locks[i]` says whether the promise that call i waits for is resolved; the last one is the
      promise the next call will find. `order` records which call stored each entry. */
  datatype State = State(storage: seq<Entry>, calls: seq<Phase>, locks: seq<bool>, order: seq<nat>)

  const INITIAL := State([], [], [true], [])

  /** How a call to the storage or to the timestamp authority ends. Lost: it took effect, yet failed. */
  datatype Outcome = Done | Refused | Lost

  datatype Event =
    | Arrive
    | SettleLock(i: nat)
    | Start(i: nat)
    | ReadTail(i: nat, ok: bool)
    | Count(i: nat, base: Entry, ok: bool)
    | Stamp(i: nat, token: Option<Str>, ok: bool)
    | Store(i: nat, outcome: Outcome)

  function Tail(storage: seq<Entry>): Option<Entry> {
    if storage == [] then None else Some(storage[|storage| - 1])
  }

  predicate Shape(s: State) {
    |s.locks| == |s.calls| + 1
  }

  /** When an event can happen. Ids, times and tokens are assumed to make a schema-valid entry. */
  predicate Enabled(s: State, hash: Hash, valid: Schema, e: Event)
    requires Shape(s)
  {
    match e
    case Arrive => true
    case SettleLock(i) => i < |s.calls| && s.locks[i] && s.calls[i].Released? && !s.locks[i + 1]
    case Start(i) => i < |s.calls| && s.calls[i].Waiting? && s.locks[i]
    case ReadTail(i, _) => i < |s.calls| && s.calls[i].ReadingTail?
    case Count(i, base, _) =>
      && i < |s.calls| && s.calls[i].Counting?
      && valid(SealEntry(hash, base.(sequence := |s.storage|), s.calls[i].tail))
    case Stamp(i, token, _) =>
      i < |s.calls| && s.calls[i].Stamping? && valid(s.calls[i].sealed.(timestampToken := token))
    case Store(i, _) => i < |s.calls| && s.calls[i].Storing?
  }

  function Step(s: State, hash: Hash, e: Event): State
    requires Shape(s)
  {
    match e
    case Arrive => s.(calls := s.calls + [Waiting], locks := s.locks + [false])
    case SettleLock(i) => if i < |s.calls| then s.(locks := s.locks[i + 1 := true]) else s
    case Start(i) => To(s, i, ReadingTail)
    case ReadTail(i, ok) => To(s, i, if ok then Counting(Tail(s.storage)) else Released(None))
    case Count(i, base, ok) =>
      if i < |s.calls| && s.calls[i].Counting? && ok
      then To(s, i, Stamping(SealEntry(hash, base.(sequence := |s.storage|), s.calls[i].tail)))
      else To(s, i, Released(None))
    case Stamp(i, token, ok) =>
      if i < |s.calls| && s.calls[i].Stamping? && ok
      then To(s, i, Storing(s.calls[i].sealed.(timestampToken := token)))
      else To(s, i, Released(None))
    case Store(i, outcome) =>
      if i < |s.calls| && s.calls[i].Storing? && outcome != Refused
      then To(s, i, Released(if outcome.Done? then Some(s.calls[i].entry) else None))
           .(storage := s.storage + [s.calls[i].entry], order := s.order + [i])
      else To(s, i, Released(None))
  }

  function To(s: State, i: nat, p: Phase): State {
    if i < |s.calls| then s.(calls := s.calls[i := p]) else s
  }

  // ---------------------------------------------------------------- the class

  /** The log and its in-flight calls; each method is one event. */
  class Log {
    var storage: seq<Entry>
    var calls: seq<Phase>
    var locks: seq<bool>
    ghost var order: seq<nat>

    ghost function Abs(): State
      reads this
    {
      State(storage, calls, locks, order)
    }

    constructor ()
      ensures Abs() == INITIAL
    {
      storage, calls, locks, order := [], [], [true], [];
    }

    method Append() returns (i: nat)
      requires Shape(Abs())
      modifies this
      ensures i == old(|calls|) && Shape(Abs())
      ensures forall hash :: Abs() == Step(old(Abs()), hash, Arrive)
    {
      i := |calls|;
      calls := calls + [Waiting];
      locks := locks + [false];
    }

    /** `prior.then(() => next)`: the promise after call i resolves once its own lock and gate have. */
    method ResolveLock(i: nat)
      requires Shape(Abs()) && i < |calls| && locks[i] && calls[i].Released?
      modifies `locks
      ensures forall hash :: Abs() == Step(old(Abs()), hash, SettleLock(i))
    {
      locks := locks[i + 1 := true];
    }

    method AfterLock(i: nat)
      requires Shape(Abs()) && i < |calls| && calls[i].Waiting? && locks[i]
      modifies `calls
      ensures forall hash :: Abs() == Step(old(Abs()), hash, Start(i))
    {
      calls := calls[i := ReadingTail];
    }

    method AfterTail(i: nat)
      requires Shape(Abs()) && i < |calls| && calls[i].ReadingTail?
      modifies `calls
      ensures forall hash :: Abs() == Step(old(Abs()), hash, ReadTail(i, true))
    {
      var tail := if |storage| == 0 then None else Some(storage[|storage| - 1]);
      calls := calls[i := Counting(tail)];
    }

    method AfterCount(hash: Hash, i: nat, base: Entry)
      requires Shape(Abs()) && i < |calls| && calls[i].Counting?
      modifies this
      ensures Abs() == Step(old(Abs()), hash, Count(i, base, true))
    {
      var sequence := |storage|;
      var tail := calls[i].tail;
      var sealed := SealEntry(hash, base.(sequence := sequence), tail);
      calls := calls[i := Stamping(sealed)];
    }

    method AfterStamp(hash: Hash, i: nat, token: Option<Str>)
      requires Shape(Abs()) && i < |calls| && calls[i].Stamping?
      modifies this
      ensures Abs() == Step(old(Abs()), hash, Stamp(i, token, true))
    {
      var finalEntry := calls[i].sealed.(timestampToken := token);
      calls := calls[i := Storing(finalEntry)];
    }

    method AfterStore(hash: Hash, i: nat)
      requires Shape(Abs()) && i < |calls| && calls[i].Storing?
      modifies this
      ensures Abs() == Step(old(Abs()), hash, Store(i, Done))
    {
      var entry := calls[i].entry;
      storage := storage + [entry];
      order := order + [i];
      calls := calls[i := Released(Some(entry))];
    }

    /** Whatever was awaited threw: the finally block releases the gate. */
    method AfterThrow(i: nat)
      requires Shape(Abs()) && i < |calls|
      modifies `calls
      ensures Abs() == To(old(Abs()), i, Released(None))
    {
      calls := calls[i := Released(None)];
    }
  }

  // ---------------------------------------------------------------- the invariant

  /** The call has got past its lock and has not opened its gate. */
  predicate Inside(p: Phase) {
    !p.Waiting? && !p.Released?
  }

  ghost predicate LocksInOrder(s: State)
    requires Shape(s)
  {
    && s.locks[0]
    && (forall i :: 0 <= i < |s.calls| && s.locks[i + 1] ==> s.locks[i] && s.calls[i].Released?)
    && (forall i :: 0 <= i < |s.calls| && !s.calls[i].Waiting? ==> s.locks[i])
  }

  /** What a call has in hand fits the storage as it is now. */
  ghost predicate Fits(storage: seq<Entry>, hash: Hash, valid: Schema, p: Phase) {
    match p
    case Counting(tail) => tail == Tail(storage)
    case Stamping(sealed) =>
      forall token :: valid(sealed.(timestampToken := token)) ==>
        Chain(hash, valid, storage + [sealed.(timestampToken := token)])
    case Storing(entry) => Chain(hash, valid, storage + [entry])
    case _ => true
  }

  ghost predicate Inv(s: State, hash: Hash, valid: Schema) {
    && Shape(s) && LocksInOrder(s)
    && Chain(hash, valid, s.storage)
    && (forall i :: 0 <= i < |s.calls| ==> Fits(s.storage, hash, valid, s.calls[i]))
    && |s.order| == |s.storage|
    && (forall k :: 0 <= k < |s.order| ==> s.order[k] < |s.calls| && s.calls[s.order[k]].Released?)
    && (forall k, l :: 0 <= k < l < |s.order| ==> s.order[k] < s.order[l])
  }

  /** A resolved lock means every earlier call is over. */
  lemma {:induction false} EarlierReleased(s: State, i: nat)
    requires Shape(s) && LocksInOrder(s) && i <= |s.calls| && s.locks[i]
    ensures forall j :: 0 <= j < i ==> s.calls[j].Released?
    ensures forall j :: 0 <= j <= i ==> s.locks[j]
  {
    if i > 0 {
      assert s.locks[(i - 1) + 1];
      EarlierReleased(s, i - 1);
    }
  }

  /** At most one call is inside at a time, and whatever comes after it is still waiting. */
  lemma OneInside(s: State, i: nat)
    requires Shape(s) && LocksInOrder(s) && i < |s.calls| && Inside(s.calls[i])
    ensures forall j :: 0 <= j < i ==> s.calls[j].Released?
    ensures forall j :: i < j < |s.calls| ==> s.calls[j].Waiting?
  {
    EarlierReleased(s, i);
    forall j | i < j < |s.calls| ensures s.calls[j].Waiting? {
      if !s.calls[j].Waiting? {
        EarlierReleased(s, j);
      }
    }
  }

  lemma CallStepKeeps(s: State, hash: Hash, valid: Schema, i: nat, p: Phase)
    requires Inv(s, hash, valid) && i < |s.calls| && !s.calls[i].Released?
    requires s.locks[i] && !p.Waiting? && Fits(s.storage, hash, valid, p)
    ensures Inv(To(s, i, p), hash, valid)
  {
    hide Fits, Chain;
    var s' := To(s, i, p);
    assert !s.locks[i + 1];
    forall k | 0 <= k < |s'.order| ensures s'.calls[s'.order[k]].Released? {
      assert s.order[k] != i;
    }
  }

  lemma StoreKeeps(s: State, hash: Hash, valid: Schema, i: nat, p: Phase)
    requires Inv(s, hash, valid) && i < |s.calls| && s.calls[i].Storing? && p.Released?
    ensures Inv(To(s, i, p).(storage := s.storage + [s.calls[i].entry], order := s.order + [i]), hash, valid)
  {
    OneInside(s, i);
    var s' := To(s, i, p).(storage := s.storage + [s.calls[i].entry], order := s.order + [i]);
    assert Fits(s.storage, hash, valid, s.calls[i]);
    forall k | 0 <= k < |s.order| ensures s.order[k] < i {
      assert s.calls[s.order[k]].Released?;
    }
    forall j | 0 <= j < |s'.calls| ensures Fits(s'.storage, hash, valid, s'.calls[j]) {
      assert s'.calls[j].Released? || s'.calls[j].Waiting?;
    }
    hide Fits, Chain;
    assert !s.locks[i + 1];
  }

  lemma SealedFits(s: State, hash: Hash, valid: Schema, base: Entry)
    requires Inv(s, hash, valid)
    ensures Fits(s.storage, hash, valid, Stamping(SealEntry(hash, base.(sequence := |s.storage|), Tail(s.storage))))
  {
    var b := base.(sequence := |s.storage|);
    var sealed := SealEntry(hash, b, Tail(s.storage));
    forall token | valid(sealed.(timestampToken := token))
      ensures Chain(hash, valid, s.storage + [sealed.(timestampToken := token)])
    {
      SealExtends(hash, valid, s.storage, b, token);
    }
  }

  lemma ArriveKeeps(s: State, hash: Hash, valid: Schema)
    requires Inv(s, hash, valid)
    ensures Inv(Step(s, hash, Arrive), hash, valid)
  {
    assert WaitingFits(s.storage, hash, valid);
    hide Fits, Chain;
  }

  lemma SettleKeeps(s: State, hash: Hash, valid: Schema, i: nat)
    requires Inv(s, hash, valid) && Enabled(s, hash, valid, SettleLock(i))
    ensures Inv(Step(s, hash, SettleLock(i)), hash, valid)
  {
    hide Fits, Chain;
  }

  lemma CountKeeps(s: State, hash: Hash, valid: Schema, i: nat, base: Entry, ok: bool)
    requires Inv(s, hash, valid) && Enabled(s, hash, valid, Count(i, base, ok))
    ensures Inv(Step(s, hash, Count(i, base, ok)), hash, valid)
  {
    if ok {
      assert Fits(s.storage, hash, valid, s.calls[i]);
      SealedFits(s, hash, valid, base);
      CallStepKeeps(s, hash, valid, i, Stamping(SealEntry(hash, base.(sequence := |s.storage|), s.calls[i].tail)));
    } else {
      CallStepKeeps(s, hash, valid, i, Released(None));
    }
  }

  lemma StampKeeps(s: State, hash: Hash, valid: Schema, i: nat, token: Option<Str>, ok: bool)
    requires Inv(s, hash, valid) && Enabled(s, hash, valid, Stamp(i, token, ok))
    ensures Inv(Step(s, hash, Stamp(i, token, ok)), hash, valid)
  {
    assert Fits(s.storage, hash, valid, s.calls[i]);
    var p := if ok then Storing(s.calls[i].sealed.(timestampToken := token)) else Released(None);
    CallStepKeeps(s, hash, valid, i, p);
  }

  lemma StepKeeps(s: State, hash: Hash, valid: Schema, e: Event)
    requires Inv(s, hash, valid) && Enabled(s, hash, valid, e)
    ensures Inv(Step(s, hash, e), hash, valid)
  {
    hide Chain, SealEntry;
    match e
    case Arrive => ArriveKeeps(s, hash, valid);
    case SettleLock(i) => SettleKeeps(s, hash, valid, i);
    case Start(i) => CallStepKeeps(s, hash, valid, i, ReadingTail);
    case ReadTail(i, ok) => CallStepKeeps(s, hash, valid, i, if ok then Counting(Tail(s.storage)) else Released(None));
    case Count(i, base, ok) => CountKeeps(s, hash, valid, i, base, ok);
    case Stamp(i, token, ok) => StampKeeps(s, hash, valid, i, token, ok);
    case Store(i, outcome) =>
      if outcome != Refused {
        StoreKeeps(s, hash, valid, i, Released(if outcome.Done? then Some(s.calls[i].entry) else None));
      } else {
        CallStepKeeps(s, hash, valid, i, Released(None));
      }
  }

  ghost predicate WaitingFits(storage: seq<Entry>, hash: Hash, valid: Schema) {
    Fits(storage, hash, valid, Waiting)
  }

  // ---------------------------------------------------------------- every run

  /** The events can happen one after the other, from the empty log, and lead to s. */
  ghost predicate Reaches(hash: Hash, valid: Schema, events: seq<Event>, s: State) {
    if events == [] then s == INITIAL
    else
      var last := events[|events| - 1];
      exists before :: Reaches(hash, valid, events[..|events| - 1], before)
        && Shape(before) && Enabled(before, hash, valid, last) && s == Step(before, hash, last)
  }

  lemma {:induction false} ReachableInv(hash: Hash, valid: Schema, events: seq<Event>, s: State)
    requires Reaches(hash, valid, events, s)
    ensures Inv(s, hash, valid)
    decreases |events|
  {
    if events != [] {
      var last := events[|events| - 1];
      var before :| Reaches(hash, valid, events[..|events| - 1], before)
        && Shape(before) && Enabled(before, hash, valid, last) && s == Step(before, hash, last);
      ReachableInv(hash, valid, events[..|events| - 1], before);
      StepKeeps(before, hash, valid, last);
    }
  }

  /** In every interleaving of appends, refusals and lost replies included: the storage verifies, so its
      sequence numbers are 0, 1, 2 and so on; its entries come from distinct calls in the order in which
      those took the lock; and at most one call is between its lock and its release. */
  lemma AlwaysAChain(hash: Hash, valid: Schema, events: seq<Event>, s: State)
    requires Reaches(hash, valid, events, s)
    ensures Failures(hash, valid, s.storage, |s.storage|) == []
    ensures forall i :: 0 <= i < |s.storage| ==> s.storage[i].sequence == i
    ensures |s.order| == |s.storage| && forall k, l :: 0 <= k < l < |s.order| ==> s.order[k] < s.order[l]
    ensures forall i, j :: 0 <= i < |s.calls| && 0 <= j < |s.calls| && Inside(s.calls[i]) && Inside(s.calls[j]) ==>
              i == j
  {
    ReachableInv(hash, valid, events, s);
    VerifiesExactlyChains(hash, valid, s.storage);
    forall i | 0 <= i < |s.storage| ensures s.storage[i].sequence == i {
      assert Linked(hash, valid, s.storage, i);
    }
    forall i, j | 0 <= i < |s.calls| && 0 <= j < |s.calls| && Inside(s.calls[i]) && Inside(s.calls[j]) ensures i == j {
      OneInside(s, i);
    }
  }

  // ---------------------------------------------------------------- what a caller was told

  ghost predicate StoredBy(s: State, i: nat, e: Entry) {
    |s.order| == |s.storage| && exists k :: 0 <= k < |s.order| && s.order[k] == i && s.storage[k] == e
  }

  ghost predicate Honest(s: State) {
    forall i :: 0 <= i < |s.calls| && s.calls[i].Released? && s.calls[i].result.Some? ==>
      StoredBy(s, i, s.calls[i].result.value)
  }

  /** What has been stored stays where it is. */
  lemma StoredStays(s: State, hash: Hash, valid: Schema, e: Event, i: nat, entry: Entry)
    requires Shape(s) && Enabled(s, hash, valid, e) && StoredBy(s, i, entry)
    ensures StoredBy(Step(s, hash, e), i, entry)
    ensures |s.storage| <= |Step(s, hash, e).storage| && Step(s, hash, e).storage[..|s.storage|] == s.storage
  {
    var k :| 0 <= k < |s.order| && s.order[k] == i && s.storage[k] == entry;
    assert Step(s, hash, e).order[k] == i && Step(s, hash, e).storage[k] == entry;
  }

  lemma StepHonest(s: State, hash: Hash, valid: Schema, e: Event)
    requires Inv(s, hash, valid) && Honest(s) && Enabled(s, hash, valid, e)
    ensures Honest(Step(s, hash, e))
  {
    var s' := Step(s, hash, e);
    hide StoredBy, Fits, LocksInOrder, SealEntry;
    forall i | 0 <= i < |s'.calls| && s'.calls[i].Released? && s'.calls[i].result.Some?
      ensures StoredBy(s', i, s'.calls[i].result.value)
    {
      if i < |s.calls| && s.calls[i] == s'.calls[i] {
        StoredStays(s, hash, valid, e, i, s.calls[i].result.value);
      } else {
        JustStored(s, hash, valid, i);
      }
    }
  }

  lemma JustStored(s: State, hash: Hash, valid: Schema, i: nat)
    requires Inv(s, hash, valid) && i < |s.calls| && s.calls[i].Storing?
    ensures StoredBy(Step(s, hash, Store(i, Done)), i, s.calls[i].entry)
  {
    hide Fits, LocksInOrder;
    var s' := Step(s, hash, Store(i, Done));
    assert s'.order[|s.order|] == i && s'.storage[|s.order|] == s.calls[i].entry;
  }

  /** In every interleaving, a call that returned an entry has stored exactly that entry, and no later event moves
      or changes it. */
  lemma {:induction false} Acknowledged(hash: Hash, valid: Schema, events: seq<Event>, s: State)
    requires Reaches(hash, valid, events, s)
    ensures Honest(s)
  {
    if events != [] {
      var last := events[|events| - 1];
      var before :| Reaches(hash, valid, events[..|events| - 1], before)
        && Shape(before) && Enabled(before, hash, valid, last) && s == Step(before, hash, last);
      Acknowledged(hash, valid, events[..|events| - 1], before);
      ReachableInv(hash, valid, events[..|events| - 1], before);
      StepHonest(before, hash, valid, last);
    }
  }

  // ---------------------------------------------------------------- what is stored, and for whom

  /** The entry says what the caller gave. */
  ghost predicate Says(entry: Entry, base: Entry) {
    && entry.id == base.id && entry.timestamp == base.timestamp && entry.actor == base.actor
    && entry.action == base.action && entry.resource == base.resource && entry.result == base.result
    && entry.detail == base.detail && entry.errorCode == base.errorCode
  }

  /** The entry is what call i gave, with the token that the timestamp authority gave it. */
  ghost predicate GivenBy(events: seq<Event>, i: nat, entry: Entry) {
    && Stamp(i, entry.timestampToken, true) in events
    && exists base :: Count(i, base, true) in events && Says(entry, base)
  }

  ghost predicate PhaseGiven(events: seq<Event>, i: nat, p: Phase) {
    match p
    case Stamping(sealed) => exists base :: Count(i, base, true) in events && Says(sealed, base)
    case Storing(entry) => GivenBy(events, i, entry)
    case _ => true
  }

  /** How a call has ended, told from the events alone. */
  ghost predicate EndGiven(events: seq<Event>, s: State, i: nat)
    requires Shape(s)
  {
    && (Store(i, Done) in events <==> i < |s.calls| && s.calls[i].Released? && s.calls[i].result.Some?)
    && (i in s.order <==> Store(i, Done) in events || Store(i, Lost) in events)
    && (Store(i, Lost) in events ==> i < |s.calls| && s.calls[i].Released?)
  }

  ghost predicate AllGiven(events: seq<Event>, s: State) {
    && Shape(s) && |s.order| == |s.storage|
    && (forall i :: 0 <= i < |s.calls| ==> PhaseGiven(events, i, s.calls[i]))
    && (forall k :: 0 <= k < |s.storage| ==> GivenBy(events, s.order[k], s.storage[k]))
    && (forall i: nat :: EndGiven(events, s, i))
  }

  lemma StepGiven(front: seq<Event>, s: State, hash: Hash, valid: Schema, e: Event)
    requires AllGiven(front, s) && Enabled(s, hash, valid, e)
    ensures AllGiven(front + [e], Step(s, hash, e))
  {
    var events, s' := front + [e], Step(s, hash, e);
    forall i | 0 <= i < |s'.calls| ensures PhaseGiven(events, i, s'.calls[i]) {
      if i < |s.calls| {
        assert PhaseGiven(front, i, s.calls[i]);
      }
    }
    forall k | 0 <= k < |s'.storage| ensures GivenBy(events, s'.order[k], s'.storage[k]) {
      if k < |s.storage| {
        assert GivenBy(front, s.order[k], s.storage[k]);
      } else {
        assert PhaseGiven(front, s'.order[k], s.calls[s'.order[k]]);
      }
    }
    forall i: nat ensures EndGiven(events, s', i) {
      StepEnds(front, s, hash, valid, e, i);
    }
  }

  lemma StepEnds(front: seq<Event>, s: State, hash: Hash, valid: Schema, e: Event, i: nat)
    requires Shape(s) && Enabled(s, hash, valid, e) && EndGiven(front, s, i)
    ensures EndGiven(front + [e], Step(s, hash, e), i)
  {
    hide SealEntry;
    var order, order' := s.order, Step(s, hash, e).order;
    assert order' == order || order' == order + [e.i];
  }

  /** In every interleaving, each stored entry is the one given to the call that stored it, with the token that call
      was given. A call has stored an entry exactly when a store of it took effect, and has returned one exactly when
      the store also succeeded. */
  lemma {:induction false} StoredAsGiven(hash: Hash, valid: Schema, events: seq<Event>, s: State)
    requires Reaches(hash, valid, events, s)
    ensures AllGiven(events, s)
  {
    if events == [] {
      assert AllGiven([], INITIAL);
    } else {
      var n := |events| - 1;
      var before :| Reaches(hash, valid, events[..n], before)
        && Shape(before) && Enabled(before, hash, valid, events[n]) && s == Step(before, hash, events[n]);
      StoredAsGiven(hash, valid, events[..n], before);
      StepGiven(events[..n], before, hash, valid, events[n]);
      assert events[..n] + [events[n]] == events;
    }
  }

  // ---------------------------------------------------------------- no caller waits forever

  function Remaining(p: Phase): nat {
    match p
    case Waiting => 5
    case ReadingTail => 4
    case Counting(_) => 3
    case Stamping(_) => 2
    case Storing(_) => 1
    case Released(_) => 0
  }

  /** Steps still to come: those of the calls, and the locks still to settle. */
  function Work(calls: seq<Phase>, locks: seq<bool>): nat
    requires |locks| == |calls| + 1
  {
    if calls == [] then 0
    else Remaining(calls[0]) + (if locks[1] then 0 else 1) + Work(calls[1..], locks[1..])
  }

  lemma {:induction false} WorkUpdate(calls: seq<Phase>, locks: seq<bool>, i: nat, p: Phase, b: bool)
    requires |locks| == |calls| + 1 && i < |calls|
    ensures Work(calls[i := p], locks[i + 1 := b]) - Work(calls, locks)
         == Remaining(p) - Remaining(calls[i]) + (if b then 0 else 1) - (if locks[i + 1] then 0 else 1)
  {
    if i > 0 {
      WorkUpdate(calls[1..], locks[1..], i - 1, p, b);
      assert calls[i := p][1..] == calls[1..][i - 1 := p];
      assert locks[i + 1 := b][1..] == locks[1..][i := b];
    } else {
      assert calls[i := p][1..] == calls[1..];
      assert locks[i + 1 := b][2..] == locks[2..];
      assert locks[i + 1 := b][1..][1..] == locks[1..][1..];
      WorkHead(calls[1..], locks[1..], b);
    }
  }

  /** The first lock is no one's work. */
  lemma WorkHead(calls: seq<Phase>, locks: seq<bool>, b: bool)
    requires |locks| == |calls| + 1
    ensures Work(calls, locks[0 := b]) == Work(calls, locks)
  {
    assert locks[0 := b][1..] == locks[1..];
  }

  /** Every event but an arrival leaves less to do, so between arrivals only finitely many can happen. */
  lemma StepWorks(s: State, hash: Hash, valid: Schema, e: Event)
    requires Shape(s) && Enabled(s, hash, valid, e) && e != Arrive
    ensures Work(Step(s, hash, e).calls, Step(s, hash, e).locks) < Work(s.calls, s.locks)
  {
    hide Step, Enabled, Work, Remaining;
    var p, b := StepMoves(s, hash, valid, e);
    WorkUpdate(s.calls, s.locks, e.i, p, b);
  }

  /** Every event but an arrival moves one call on, or settles the lock behind it. */
  lemma StepMoves(s: State, hash: Hash, valid: Schema, e: Event) returns (p: Phase, b: bool)
    requires Shape(s) && Enabled(s, hash, valid, e) && e != Arrive
    ensures e.i < |s.calls|
    ensures Step(s, hash, e).calls == s.calls[e.i := p] && Step(s, hash, e).locks == s.locks[e.i + 1 := b]
    ensures Remaining(p) + (if b then 0 else 1) < Remaining(s.calls[e.i]) + (if s.locks[e.i + 1] then 0 else 1)
  {
    hide SealEntry;
    var s' := Step(s, hash, e);
    p, b := s'.calls[e.i], s'.locks[e.i + 1];
    if e.SettleLock? {
      assert s.calls == s.calls[e.i := p];
    } else {
      assert s.locks == s.locks[e.i + 1 := b];
    }
  }

  /** No deadlock: while a call is not over, the first such call is inside, or about to enter, or a lock
      before it is about to settle. Which of these it is does not depend on later calls. */
  lemma SomeoneMoves(s: State, hash: Hash, valid: Schema, i: nat) returns (j: nat)
    requires Inv(s, hash, valid) && i < |s.calls| && !s.calls[i].Released?
    ensures j <= i
    ensures || Inside(s.calls[j])
            || Enabled(s, hash, valid, Start(j))
            || Enabled(s, hash, valid, SettleLock(j))
  {
    j := 0;
    while s.calls[j].Released?
      invariant 0 <= j <= i && s.locks[j]
      invariant forall k :: 0 <= k < j ==> s.calls[k].Released?
      decreases i - j
    {
      if !s.locks[j + 1] { return; }
      j := j + 1;
    }
  }
}
