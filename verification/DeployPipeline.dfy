/** The deploy pipeline as a saga: forward steps on three remote stores, an undo stack, and a best-effort
    rollback. Any remote call may be refused, or take effect and still be reported as failed. */
module DeployPipeline {
  import opened Wrappers

  type Key = string
  type BundleId = string
  type Host = string

  /** The remote state: objects in storage, bundles on the edge runtime, routes in the tunnel. */
  datatype Remote = Remote(objects: map<Key, string>, bundles: map<BundleId, string>, routes: map<Host, BundleId>)

  datatype Artefact = Artefact(key: Key, bundleId: BundleId, host: Host, tarball: string, code: string)

  datatype Status = Queued | Uploading | Registering | Routing | HealthChecking | Swapping | Live | RollingBack | Failed

  /** The calls a deploy makes, in order, then those of the rollback. */
  datatype Call =
    | ReadTarball | PutObject | FetchCodeAndSecrets | RegisterBundle | SwapRoute | Probe
    | DeleteObject | DeleteBundle | RestoreRoute

  /** Lost: the call took effect, but its reply did not arrive or did not parse. */
  datatype Outcome = Done | Refused | Lost

  type Faults = Call -> Outcome

  /** An entry of the undo stack; the tunnel's remembers the route it replaced. */
  datatype Undo = UndoPut | UndoRegister | UndoSwap(previous: Option<BundleId>)

  // ---------------------------------------------------------------- effects

  function Route(m: Remote, host: Host): Option<BundleId> {
    if host in m.routes then Some(m.routes[host]) else None
  }

  /** What a forward call does to the remote state when it takes effect. */
  function Effect(m: Remote, a: Artefact, c: Call): Remote {
    match c
    case PutObject => m.(objects := m.objects[a.key := a.tarball])
    case RegisterBundle => m.(bundles := m.bundles[a.bundleId := a.code])
    case SwapRoute => m.(routes := m.routes[a.host := a.bundleId])
    case _ => m
  }

  function CallOf(u: Undo): Call {
    match u
    case UndoPut => DeleteObject
    case UndoRegister => DeleteBundle
    case UndoSwap(_) => RestoreRoute
  }

  /** An undo step; an empty previous bundle id counts as none. */
  function Undone(m: Remote, a: Artefact, u: Undo): Remote {
    match u
    case UndoPut => m.(objects := m.objects - {a.key})
    case UndoRegister => m.(bundles := m.bundles - {a.bundleId})
    case UndoSwap(previous) =>
      if previous.Some? && previous.value != "" then m.(routes := m.routes[a.host := previous.value])
      else m.(routes := m.routes - {a.host})
  }

  function TryUndo(m: Remote, a: Artefact, u: Undo, faults: Faults): Remote {
    if faults(CallOf(u)) == Refused then m else Undone(m, a, u)
  }

  /** The undo steps from the last pushed to the first; one that fails does not stop the others. */
  function Rollback(m: Remote, a: Artefact, undo: seq<Undo>, faults: Faults): Remote
    decreases |undo|
  {
    if undo == [] then m
    else Rollback(TryUndo(m, a, undo[|undo| - 1], faults), a, undo[..|undo| - 1], faults)
  }

  // ---------------------------------------------------------------- the saga

  const FORWARD: seq<Call> := [ReadTarball, PutObject, FetchCodeAndSecrets, RegisterBundle, SwapRoute, Probe]

  /** The status announced before a call. */
  function Announced(c: Call): seq<Status> {
    match c
    case ReadTarball => [Uploading]
    case RegisterBundle => [Registering]
    case SwapRoute => [Routing]
    case Probe => [HealthChecking]
    case _ => []
  }

  function Pushed(m: Remote, a: Artefact, c: Call): seq<Undo> {
    match c
    case PutObject => [UndoPut]
    case RegisterBundle => [UndoRegister]
    case SwapRoute => [UndoSwap(Route(m, a.host))]
    case _ => []
  }

  /** How a deploy ends; `undone` are the undo steps it attempted, in order. */
  datatype Result = Result(ok: bool, remote: Remote, trace: seq<Status>, undone: seq<Undo>)

  function Reversed(undo: seq<Undo>): seq<Undo>
    decreases |undo|
  {
    if undo == [] then [] else [undo[|undo| - 1]] + Reversed(undo[..|undo| - 1])
  }

  /** The rest of the pipeline from the i-th call on. */
  function Pipeline(m: Remote, a: Artefact, faults: Faults, i: nat, undo: seq<Undo>): Result
    requires i <= |FORWARD|
    decreases |FORWARD| - i
  {
    if i == |FORWARD| then Result(true, m, [Swapping, Live], [])
    else
      var c := FORWARD[i];
      var m' := if faults(c) == Refused then m else Effect(m, a, c);
      var rest :=
        if faults(c) == Done then Pipeline(m', a, faults, i + 1, undo + Pushed(m, a, c))
        else Result(false, Rollback(m', a, undo, faults), [RollingBack, Failed], Reversed(undo));
      rest.(trace := Announced(c) + rest.trace)
  }

  function Deploy(m: Remote, a: Artefact, faults: Faults): Result {
    var r := Pipeline(m, a, faults, 0, []);
    r.(trace := [Queued] + r.trace)
  }

  // ---------------------------------------------------------------- a deploy seen from the middle

  /** From m0 and t0, the deploy has got to its i-th call, with m, t and the undo stack as given. */
  ghost predicate At(m0: Remote, t0: seq<Status>, a: Artefact, faults: Faults, i: nat, undo: seq<Undo>,
                     m: Remote, t: seq<Status>)
    requires i <= |FORWARD|
  {
    var whole, rest := Deploy(m0, a, faults), Pipeline(m, a, faults, i, undo);
    && whole.ok == rest.ok && whole.remote == rest.remote && whole.undone == rest.undone
    && t0 + whole.trace == t + rest.trace
  }

  /** What the pipeline's own text must match at each call. */
  lemma Reading()
    ensures |FORWARD| == 6 && FORWARD[0] == ReadTarball && FORWARD[1] == PutObject && FORWARD[2] == FetchCodeAndSecrets
    ensures FORWARD[3] == RegisterBundle && FORWARD[4] == SwapRoute && FORWARD[5] == Probe
    ensures Announced(ReadTarball) == [Uploading] && Announced(PutObject) == Announced(FetchCodeAndSecrets) == []
    ensures Announced(RegisterBundle) == [Registering] && Announced(SwapRoute) == [Routing]
    ensures Announced(Probe) == [HealthChecking]
  {
  }

  lemma Acts(m: Remote, a: Artefact)
    ensures Effect(m, a, ReadTarball) == Effect(m, a, FetchCodeAndSecrets) == Effect(m, a, Probe) == m
    ensures Pushed(m, a, ReadTarball) == Pushed(m, a, FetchCodeAndSecrets) == Pushed(m, a, Probe) == []
    ensures Pushed(m, a, PutObject) == [UndoPut] && Pushed(m, a, RegisterBundle) == [UndoRegister]
    ensures Pushed(m, a, SwapRoute) == [UndoSwap(Route(m, a.host))]
  {
  }

  lemma Begin(m0: Remote, t0: seq<Status>, a: Artefact, faults: Faults)
    ensures At(m0, t0, a, faults, 0, [], m0, t0 + [Queued])
  {
  }

  lemma Advances(m0: Remote, t0: seq<Status>, a: Artefact, faults: Faults, i: nat, undo: seq<Undo>,
                 m: Remote, t: seq<Status>) returns (m': Remote, t': seq<Status>)
    requires i < |FORWARD| && faults(FORWARD[i]) == Done
    requires At(m0, t0, a, faults, i, undo, m, t)
    ensures m' == Effect(m, a, FORWARD[i]) && t' == t + Announced(FORWARD[i])
    ensures At(m0, t0, a, faults, i + 1, undo + Pushed(m, a, FORWARD[i]), m', t')
    ensures Pushed(m, a, FORWARD[i]) == [] ==> At(m0, t0, a, faults, i + 1, undo, m', t')
  {
    hide Rollback, Reversed, Effect, Pushed, Announced, Deploy;
    m', t' := Effect(m, a, FORWARD[i]), t + Announced(FORWARD[i]);
    var rest := Pipeline(m', a, faults, i + 1, undo + Pushed(m, a, FORWARD[i]));
    assert undo + [] == undo;
    assert t' + rest.trace == t + (Announced(FORWARD[i]) + rest.trace);
  }

  lemma Stops(m0: Remote, t0: seq<Status>, a: Artefact, faults: Faults, i: nat, undo: seq<Undo>,
              m: Remote, t: seq<Status>)
    requires i < |FORWARD| && faults(FORWARD[i]) != Done
    requires At(m0, t0, a, faults, i, undo, m, t)
    ensures var r := Deploy(m0, a, faults);
            var m' := if faults(FORWARD[i]) == Refused then m else Effect(m, a, FORWARD[i]);
            !r.ok && r.remote == Rollback(m', a, undo, faults) && r.undone == Reversed(undo)
            && t0 + r.trace == t + Announced(FORWARD[i]) + [RollingBack, Failed]
  {
    assert t + (Announced(FORWARD[i]) + [RollingBack, Failed]) == t + Announced(FORWARD[i]) + [RollingBack, Failed];
  }

  lemma Ends(m0: Remote, t0: seq<Status>, a: Artefact, faults: Faults, undo: seq<Undo>, m: Remote, t: seq<Status>)
    requires At(m0, t0, a, faults, |FORWARD|, undo, m, t)
    ensures var r := Deploy(m0, a, faults);
            r.ok && r.remote == m && r.undone == [] && t0 + r.trace == t + [Swapping, Live]
  {
  }

  /** The services a deploy talks to, and the statuses it has emitted. */
  class Services {
    var objects: map<Key, string>
    var bundles: map<BundleId, string>
    var routes: map<Host, BundleId>
    var trace: seq<Status>
    ghost var undone: seq<Undo>

    ghost function Abs(): Remote
      reads this
    {
      Remote(objects, bundles, routes)
    }

    method Emit(s: Status)
      modifies `trace
      ensures trace == old(trace) + [s] && Abs() == old(Abs())
    {
      trace := trace + [s];
    }

    method Put(a: Artefact, faults: Faults) returns (ok: bool)
      modifies `objects
      ensures ok <==> faults(PutObject) == Done
      ensures Abs() == if faults(PutObject) == Refused then old(Abs()) else Effect(old(Abs()), a, PutObject)
    {
      if faults(PutObject) != Refused {
        objects := objects[a.key := a.tarball];
      }
      ok := faults(PutObject) == Done;
    }

    method Register(a: Artefact, faults: Faults) returns (ok: bool)
      modifies `bundles
      ensures ok <==> faults(RegisterBundle) == Done
      ensures Abs() == if faults(RegisterBundle) == Refused then old(Abs()) else Effect(old(Abs()), a, RegisterBundle)
    {
      if faults(RegisterBundle) != Refused {
        bundles := bundles[a.bundleId := a.code];
      }
      ok := faults(RegisterBundle) == Done;
    }

    method Swap(a: Artefact, faults: Faults) returns (ok: bool, previous: Option<BundleId>)
      modifies `routes
      ensures ok <==> faults(SwapRoute) == Done
      ensures previous == Route(old(Abs()), a.host)
      ensures Abs() == if faults(SwapRoute) == Refused then old(Abs()) else Effect(old(Abs()), a, SwapRoute)
    {
      previous := if a.host in routes then Some(routes[a.host]) else None;
      if faults(SwapRoute) != Refused {
        routes := routes[a.host := a.bundleId];
      }
      ok := faults(SwapRoute) == Done;
    }

    method RunUndo(a: Artefact, u: Undo, faults: Faults)
      modifies `objects, `bundles, `routes, `undone
      ensures Abs() == TryUndo(old(Abs()), a, u, faults) && undone == old(undone) + [u]
    {
      undone := undone + [u];
      if faults(CallOf(u)) == Refused { return; }
      match u
      case UndoPut => objects := objects - {a.key};
      case UndoRegister => bundles := bundles - {a.bundleId};
      case UndoSwap(previous) =>
        if previous.Some? && previous.value != "" {
          routes := routes[a.host := previous.value];
        } else {
          routes := routes - {a.host};
        }
    }

    /** Transitions to rolling-back, runs the undo stack from its top, and reports the failure. */
    method Fail(a: Artefact, undo: seq<Undo>, faults: Faults)
      modifies this
      ensures Abs() == Rollback(old(Abs()), a, undo, faults)
      ensures trace == old(trace) + [RollingBack, Failed] && undone == old(undone) + Reversed(undo)
    {
      Emit(RollingBack);
      assert undo[..|undo|] == undo;
      var i := |undo|;
      while i > 0
        invariant 0 <= i <= |undo| && trace == old(trace) + [RollingBack]
        invariant Rollback(Abs(), a, undo[..i], faults) == Rollback(old(Abs()), a, undo, faults)
        invariant undone + Reversed(undo[..i]) == old(undone) + Reversed(undo)
      {
        i := i - 1;
        assert undo[..i + 1][..i] == undo[..i];
        RunUndo(a, undo[i], faults);
      }
      Emit(Failed);
    }

    /** Fail, as the end of a deploy whose i-th call did not succeed. */
    method FailAt(ghost m0: Remote, ghost t0: seq<Status>, a: Artefact, faults: Faults, ghost i: nat, undo: seq<Undo>,
                  ghost m: Remote, ghost t: seq<Status>)
      requires i < |FORWARD| && faults(FORWARD[i]) != Done && At(m0, t0, a, faults, i, undo, m, t)
      requires Abs() == (if faults(FORWARD[i]) == Refused then m else Effect(m, a, FORWARD[i]))
      requires trace == t + Announced(FORWARD[i]) && undone == []
      modifies this
      ensures Ended(Deploy(m0, a, faults), false, t0)
    {
      hide Pipeline, Deploy, At, Effect, Rollback;
      Stops(m0, t0, a, faults, i, undo, m, t);
      Fail(a, undo, faults);
    }

    /** The end of a deploy whose calls all succeeded. */
    method Finish(ghost m0: Remote, ghost t0: seq<Status>, a: Artefact, faults: Faults, ghost undo: seq<Undo>,
                  ghost m: Remote, ghost t: seq<Status>)
      requires At(m0, t0, a, faults, |FORWARD|, undo, m, t) && Abs() == m && trace == t && undone == []
      modifies this
      ensures Ended(Deploy(m0, a, faults), true, t0)
    {
      Ends(m0, t0, a, faults, undo, m, t);
      Emit(Swapping);
      Emit(Live);
    }

    ghost predicate Ended(r: Result, ok: bool, t0: seq<Status>)
      reads this
    {
      ok == r.ok && Abs() == r.remote && trace == t0 + r.trace && undone == r.undone
    }

    /** The second half of a deploy: register, swap, probe. */
    method GoLive(ghost m0: Remote, ghost t0: seq<Status>, a: Artefact, faults: Faults, uploaded: seq<Undo>,
                  ghost m3: Remote, ghost t3: seq<Status>) returns (ok: bool)
      requires At(m0, t0, a, faults, 3, uploaded, m3, t3) && Abs() == m3 && trace == t3 && undone == []
      modifies this
      ensures Ended(Deploy(m0, a, faults), ok, t0)
    {
      hide *;
      Reading();
      Acts(m3, a);
      var undo := uploaded;

      Emit(Registering);
      var registered := Register(a, faults);
      if !registered {
        FailAt(m0, t0, a, faults, 3, undo, m3, t3);
        return false;
      }
      ghost var m4, t4 := Advances(m0, t0, a, faults, 3, undo, m3, t3);
      Acts(m4, a);
      undo := undo + [UndoRegister];

      Emit(Routing);
      var swapped, previous := Swap(a, faults);
      if !swapped {
        FailAt(m0, t0, a, faults, 4, undo, m4, t4);
        return false;
      }
      ghost var m5, t5 := Advances(m0, t0, a, faults, 4, undo, m4, t4);
      Acts(m5, a);
      undo := undo + [UndoSwap(previous)];

      Emit(HealthChecking);
      if faults(Probe) != Done {
        FailAt(m0, t0, a, faults, 5, undo, m5, t5);
        return false;
      }
      ghost var m6, t6 := Advances(m0, t0, a, faults, 5, undo, m5, t5);
      Acts(m6, a);

      Finish(m0, t0, a, faults, undo, m6, t6);
      ok := true;
    }

    method RunDeployPipeline(a: Artefact, faults: Faults) returns (ok: bool)
      modifies this
      ensures Ended(Deploy(old(Abs()), a, faults), ok, old(trace))
    {
      hide Deploy;
      undone := [];
      ok := Saga(a, faults);
    }

    /** The deploy, before any step has been undone. */
    method Saga(a: Artefact, faults: Faults) returns (ok: bool)
      requires undone == []
      modifies this
      ensures Ended(Deploy(old(Abs()), a, faults), ok, old(trace))
    {
      hide *;
      ghost var m0, t0 := Abs(), trace;
      Reading();
      Begin(m0, t0, a, faults);
      Acts(m0, a);
      Emit(Queued);
      var undo: seq<Undo> := [];

      Emit(Uploading);
      if faults(ReadTarball) != Done {
        FailAt(m0, t0, a, faults, 0, undo, m0, t0 + [Queued]);
        return false;
      }
      ghost var m1, t1 := Advances(m0, t0, a, faults, 0, undo, m0, t0 + [Queued]);
      Acts(m1, a);

      var put := Put(a, faults);
      if !put {
        FailAt(m0, t0, a, faults, 1, undo, m1, t1);
        return false;
      }
      ghost var m2, t2 := Advances(m0, t0, a, faults, 1, undo, m1, t1);
      Acts(m2, a);
      undo := undo + [UndoPut];

      if faults(FetchCodeAndSecrets) != Done {
        FailAt(m0, t0, a, faults, 2, undo, m2, t2);
        return false;
      }
      ghost var m3, t3 := Advances(m0, t0, a, faults, 2, undo, m2, t2);
      Acts(m3, a);
      ok := GoLive(m0, t0, a, faults, undo, m3, t3);
    }
  }

  // ---------------------------------------------------------------- what a deploy leaves behind

  const LIFECYCLE: seq<Status> := [Queued, Uploading, Registering, Routing, HealthChecking, Swapping, Live]

  /** The first i forward calls all succeed. */
  ghost predicate Reached(faults: Faults, i: nat)
    requires i <= |FORWARD|
  {
    forall j :: 0 <= j < i ==> faults(FORWARD[j]) == Done
  }

  /** The remote state, the undo stack and the statuses after the first i calls, when they succeed. */
  function After(m: Remote, a: Artefact, i: nat): (Remote, seq<Undo>, seq<Status>)
    requires i <= |FORWARD|
  {
    if i == 0 then (m, [], [Queued])
    else
      var (m', undo, t) := After(m, a, i - 1);
      (Effect(m', a, FORWARD[i - 1]), undo + Pushed(m', a, FORWARD[i - 1]), t + Announced(FORWARD[i - 1]))
  }

  lemma {:induction false} Arrives(m: Remote, a: Artefact, faults: Faults, i: nat)
    requires i <= |FORWARD| && Reached(faults, i)
    ensures var (m', undo, t) := After(m, a, i); At(m, [], a, faults, i, undo, m', t)
  {
    hide Pipeline, Deploy, At, Effect, Pushed, Announced;
    if i == 0 {
      Begin(m, [], a, faults);
      assert [] + [Queued] == [Queued];
    } else {
      Arrives(m, a, faults, i - 1);
      var (m', undo, t) := After(m, a, i - 1);
      var m'', t'' := Advances(m, [], a, faults, i - 1, undo, m', t);
    }
  }

  lemma {:induction false} FirstFault(faults: Faults, i: nat) returns (k: nat)
    requires i <= |FORWARD| && Reached(faults, i)
    ensures i <= k <= |FORWARD| && Reached(faults, k) && (k < |FORWARD| ==> faults(FORWARD[k]) != Done)
    decreases |FORWARD| - i
  {
    k := i;
    if i < |FORWARD| && faults(FORWARD[i]) == Done {
      k := FirstFault(faults, i + 1);
    }
  }

  /** The whole deploy, from its first failing call. */
  lemma EndsAt(m: Remote, a: Artefact, faults: Faults, k: nat)
    requires k < |FORWARD| && Reached(faults, k) && faults(FORWARD[k]) != Done
    ensures var r, (m', undo, t) := Deploy(m, a, faults), After(m, a, k);
            !r.ok && r.trace == t + Announced(FORWARD[k]) + [RollingBack, Failed]
            && var m'' := if faults(FORWARD[k]) == Refused then m' else Effect(m', a, FORWARD[k]);
               r.remote == Rollback(m'', a, undo, faults) && r.undone == Reversed(undo)
  {
    hide Pipeline, Deploy, At, Effect, Pushed, Announced, Rollback;
    Arrives(m, a, faults, k);
    var (m', undo, t) := After(m, a, k);
    Stops(m, [], a, faults, k, undo, m', t);
    assert [] + Deploy(m, a, faults).trace == Deploy(m, a, faults).trace;
  }

  lemma Succeeds(m: Remote, a: Artefact, faults: Faults)
    requires Reached(faults, |FORWARD|)
    ensures var r, (m', undo, t) := Deploy(m, a, faults), After(m, a, |FORWARD|);
            r.ok && r.remote == m' && r.undone == [] && r.trace == t + [Swapping, Live]
  {
    hide Pipeline, Deploy, At, Effect, Pushed, Announced;
    Arrives(m, a, faults, |FORWARD|);
    var (m', undo, t) := After(m, a, |FORWARD|);
    Ends(m, [], a, faults, undo, m', t);
    assert [] + Deploy(m, a, faults).trace == Deploy(m, a, faults).trace;
  }

  /** After, spelled out. */
  lemma Stages(m: Remote, a: Artefact)
    ensures After(m, a, 0) == (m, [], LIFECYCLE[..1])
    ensures After(m, a, 1) == (m, [], LIFECYCLE[..2])
    ensures After(m, a, 2) == (Effect(m, a, PutObject), [UndoPut], LIFECYCLE[..2])
    ensures After(m, a, 3) == After(m, a, 2)
    ensures var m' := Effect(Effect(m, a, PutObject), a, RegisterBundle);
            After(m, a, 4) == (m', [UndoPut, UndoRegister], LIFECYCLE[..3])
    ensures var m' := Effect(Effect(Effect(m, a, PutObject), a, RegisterBundle), a, SwapRoute);
            After(m, a, 5) == (m', [UndoPut, UndoRegister, UndoSwap(Route(m, a.host))], LIFECYCLE[..4])
            && After(m, a, 6) == (m', [UndoPut, UndoRegister, UndoSwap(Route(m, a.host))], LIFECYCLE[..5])
  {
    hide Effect, Pushed, Announced, Route, After;
    Reading();
    assert LIFECYCLE[..1] == [Queued] && LIFECYCLE[..1] + [Uploading] == LIFECYCLE[..2];
    assert LIFECYCLE[..2] + [Registering] == LIFECYCLE[..3] && LIFECYCLE[..3] + [Routing] == LIFECYCLE[..4];
    assert LIFECYCLE[..4] + [HealthChecking] == LIFECYCLE[..5];
    assert forall t: seq<Status> {:trigger t + []} :: t + [] == t;
    assert forall u: seq<Undo> {:trigger u + []} :: u + [] == u;
    assert [] + [UndoPut] == [UndoPut] && [UndoPut] + [UndoRegister] == [UndoPut, UndoRegister];
    var swap := UndoSwap(Route(m, a.host));
    assert [UndoPut, UndoRegister] + [swap] == [UndoPut, UndoRegister, swap];
    var m2 := Effect(m, a, PutObject);
    var m4 := Effect(m2, a, RegisterBundle);
    Acts(m, a);
    Acts(m2, a);
    Acts(m4, a);
    Acts(Effect(m4, a, SwapRoute), a);
    assert Route(m4, a.host) == Route(m, a.host) by { RouteKept(m, a); }
    forall i: nat | 0 < i <= |FORWARD|
      ensures var (m', undo, t) := After(m, a, i - 1); var c := FORWARD[i - 1];
              After(m, a, i) == (Effect(m', a, c), undo + Pushed(m', a, c), t + Announced(c))
    {
      NextStage(m, a, i);
    }
    assert After(m, a, 0) == (m, [], [Queued]) by { FirstStage(m, a); }
    assert After(m, a, 1) == (m, [], LIFECYCLE[..2]);
    assert After(m, a, 2) == (m2, [UndoPut], LIFECYCLE[..2]);
    assert After(m, a, 3) == (m2, [UndoPut], LIFECYCLE[..2]);
    assert After(m, a, 4) == (m4, [UndoPut, UndoRegister], LIFECYCLE[..3]);
  }

  lemma RouteKept(m: Remote, a: Artefact)
    ensures Route(Effect(Effect(m, a, PutObject), a, RegisterBundle), a.host) == Route(m, a.host)
  {
  }

  lemma FirstStage(m: Remote, a: Artefact)
    ensures After(m, a, 0) == (m, [], [Queued])
  {
  }

  lemma NextStage(m: Remote, a: Artefact, i: nat)
    requires 0 < i <= |FORWARD|
    ensures var (m', undo, t) := After(m, a, i - 1); var c := FORWARD[i - 1];
            After(m, a, i) == (Effect(m', a, c), undo + Pushed(m', a, c), t + Announced(c))
  {
  }

  /** A deploy succeeds exactly when every forward call does; a failed one has walked a prefix of the lifecycle
      that stops before swapping, and then rolled back. */
  lemma StatusTrace(m: Remote, a: Artefact, faults: Faults)
    ensures var r := Deploy(m, a, faults);
            && (r.ok <==> Reached(faults, |FORWARD|))
            && (r.ok ==> r.trace == LIFECYCLE)
            && (!r.ok ==> exists n :: 2 <= n <= 5 && r.trace == LIFECYCLE[..n] + [RollingBack, Failed])
            && (Swapping in r.trace ==> r.ok)
  {
    hide Pipeline, Deploy, At, Effect, Pushed, Rollback, After;
    var k := FirstFault(faults, 0);
    Stages(m, a);
    if k == |FORWARD| {
      Succeeds(m, a, faults);
    } else {
      EndsAt(m, a, faults, k);
      assert !Reached(faults, |FORWARD|);
      var n := if k < 3 then 2 else k;
      assert Deploy(m, a, faults).trace == LIFECYCLE[..n] + [RollingBack, Failed];
    }
  }

  lemma ReversedStacks(swap: Undo)
    ensures Reversed([]) == [] && Reversed([UndoPut]) == [UndoPut]
    ensures Reversed([UndoPut, UndoRegister]) == [UndoRegister, UndoPut]
    ensures Reversed([UndoPut, UndoRegister, swap]) == [swap, UndoRegister, UndoPut]
  {
    assert [UndoPut, UndoRegister, swap][..2] == [UndoPut, UndoRegister] && [UndoPut, UndoRegister][..1] == [UndoPut];
    assert Reversed([UndoPut]) == [UndoPut] + Reversed([]);
    assert Reversed([UndoPut, UndoRegister]) == [UndoRegister] + Reversed([UndoPut]);
  }

  /** A deploy whose k-th call is the first that does not succeed attempts the undo step of each earlier call once, the
      latest first, whatever becomes of the steps before; a live one attempts none. */
  lemma UndoneInReverse(m: Remote, a: Artefact, faults: Faults, k: nat)
    requires k <= |FORWARD| && Reached(faults, k) && (k < |FORWARD| ==> faults(FORWARD[k]) != Done)
    ensures var steps := [UndoSwap(Route(m, a.host)), UndoRegister, UndoPut];
            Deploy(m, a, faults).undone ==
              if k == 6 then [] else if k == 5 then steps else if k == 4 then steps[1..] else if k >= 2 then steps[2..]
              else []
  {
    hide Deploy, After, Effect, Reversed;
    Stages(m, a);
    ReversedStacks(UndoSwap(Route(m, a.host)));
    if k == |FORWARD| {
      Succeeds(m, a, faults);
    } else {
      EndsAt(m, a, faults, k);
    }
  }

  /** A live deploy stored the tarball, serves its own code under the hostname, and touched nothing else. */
  lemma LiveServes(m: Remote, a: Artefact, faults: Faults)
    ensures var r := Deploy(m, a, faults);
            r.ok ==>
              && r.remote.objects == m.objects[a.key := a.tarball]
              && r.remote.bundles == m.bundles[a.bundleId := a.code]
              && r.remote.routes == m.routes[a.host := a.bundleId]
  {
    hide Deploy, After, Reached;
    StatusTrace(m, a, faults);
    if Deploy(m, a, faults).ok {
      Succeeds(m, a, faults);
      Stages(m, a);
    }
  }

  /** What becomes of a forward call's effect in a failed deploy. */
  datatype Fate = Untouched | Left | TakenBack

  ghost function FateOf(faults: Faults, i: nat, undo: Call): Fate
    requires i < |FORWARD|
  {
    if !Reached(faults, i) || faults(FORWARD[i]) == Refused then Untouched
    else if faults(FORWARD[i]) == Lost || faults(undo) == Refused then Left
    else TakenBack
  }

  /** The remote state of a failed deploy, store by store: each depends on one forward call and its undo only. */
  ghost function Leftover(m: Remote, a: Artefact, faults: Faults): Remote {
    Remote(
      match FateOf(faults, 1, DeleteObject)
      case Untouched => m.objects
      case Left => m.objects[a.key := a.tarball]
      case TakenBack => m.objects - {a.key},
      match FateOf(faults, 3, DeleteBundle)
      case Untouched => m.bundles
      case Left => m.bundles[a.bundleId := a.code]
      case TakenBack => m.bundles - {a.bundleId},
      match FateOf(faults, 4, RestoreRoute)
      case Untouched => m.routes
      case Left => m.routes[a.host := a.bundleId]
      case TakenBack => if Route(m, a.host) == Some("") then m.routes - {a.host} else m.routes)
  }

  lemma Unwinding(m: Remote, a: Artefact, faults: Faults, previous: Option<BundleId>)
    ensures Rollback(m, a, [], faults) == m
    ensures Rollback(m, a, [UndoPut], faults) == TryUndo(m, a, UndoPut, faults)
    ensures Rollback(m, a, [UndoPut, UndoRegister], faults)
         == TryUndo(TryUndo(m, a, UndoRegister, faults), a, UndoPut, faults)
    ensures Rollback(m, a, [UndoPut, UndoRegister, UndoSwap(previous)], faults)
         == TryUndo(TryUndo(TryUndo(m, a, UndoSwap(previous), faults), a, UndoRegister, faults), a, UndoPut, faults)
  {
    hide TryUndo;
    assert [UndoPut][..0] == [] && [UndoPut, UndoRegister][..1] == [UndoPut];
    assert [UndoPut, UndoRegister, UndoSwap(previous)][..2] == [UndoPut, UndoRegister];
    var m1 := TryUndo(m, a, UndoSwap(previous), faults);
    var m2 := TryUndo(m, a, UndoRegister, faults);
    var m3 := TryUndo(m1, a, UndoRegister, faults);
    assert Rollback(m3, a, [UndoPut], faults) == TryUndo(m3, a, UndoPut, faults);
    assert Rollback(m2, a, [UndoPut], faults) == TryUndo(m2, a, UndoPut, faults);
  }

  /** Undoing what was done, and undoing what was never done. */
  lemma UndoesEffect(m: Remote, a: Artefact)
    ensures Undone(Effect(m, a, PutObject), a, UndoPut) == m.(objects := m.objects - {a.key})
    ensures Undone(Effect(m, a, RegisterBundle), a, UndoRegister) == m.(bundles := m.bundles - {a.bundleId})
    ensures Undone(Effect(m, a, SwapRoute), a, UndoSwap(Route(m, a.host)))
         == if Route(m, a.host) == Some("") then m.(routes := m.routes - {a.host}) else m
  {
    assert m.objects[a.key := a.tarball] - {a.key} == m.objects - {a.key};
    assert m.bundles[a.bundleId := a.code] - {a.bundleId} == m.bundles - {a.bundleId};
    assert m.routes[a.host := a.bundleId] - {a.host} == m.routes - {a.host};
    if a.host in m.routes {
      assert m.routes[a.host := a.bundleId][a.host := m.routes[a.host]] == m.routes;
    } else {
      assert m.routes - {a.host} == m.routes;
    }
  }

  lemma Fates(faults: Faults, k: nat, i: nat, undo: Call)
    requires k < |FORWARD| && Reached(faults, k) && faults(FORWARD[k]) != Done
    requires i < |FORWARD|
    ensures FateOf(faults, i, undo)
         == if i < k then (if faults(undo) == Refused then Left else TakenBack)
            else if i == k && faults(FORWARD[k]) == Lost then Left
            else Untouched
  {
  }

  /** The undo steps run, written out for each failing call. */
  lemma RolledBack(m: Remote, a: Artefact, faults: Faults, k: nat)
    requires k < |FORWARD| && Reached(faults, k) && faults(FORWARD[k]) != Done
    ensures var m' := if faults(FORWARD[k]) == Refused then After(m, a, k).0
                      else Effect(After(m, a, k).0, a, FORWARD[k]);
            var swapped := if k < 5 then m' else TryUndo(m', a, UndoSwap(Route(m, a.host)), faults);
            var removed := if k < 4 then swapped else TryUndo(swapped, a, UndoRegister, faults);
            Deploy(m, a, faults).remote == if k < 2 then removed else TryUndo(removed, a, UndoPut, faults)
  {
    hide Deploy, Pipeline, At, Rollback, After, Announced, Pushed, Reached, Effect, TryUndo, Route;
    Stages(m, a);
    EndsAt(m, a, faults, k);
    var m' := if faults(FORWARD[k]) == Refused then After(m, a, k).0 else Effect(After(m, a, k).0, a, FORWARD[k]);
    Unwinding(m', a, faults, Route(m, a.host));
  }

  lemma LeavesAt(m: Remote, a: Artefact, faults: Faults, k: nat)
    requires k < |FORWARD| && Reached(faults, k) && faults(FORWARD[k]) != Done
    ensures Deploy(m, a, faults).remote == Leftover(m, a, faults)
  {
    hide Pipeline, Deploy, At, Rollback, After, Announced, Pushed, FateOf, Reached;
    Stages(m, a);
    RolledBack(m, a, faults, k);
    Fates(faults, k, 1, DeleteObject);
    Fates(faults, k, 3, DeleteBundle);
    Fates(faults, k, 4, RestoreRoute);
    UndoesEffect(m, a);
  }

  /** For every failing call and every set of failing undo steps. */
  lemma RollbackLeaves(m: Remote, a: Artefact, faults: Faults)
    requires !Reached(faults, |FORWARD|)
    ensures Deploy(m, a, faults).remote == Leftover(m, a, faults)
  {
    hide Deploy, Leftover;
    var k := FirstFault(faults, 0);
    LeavesAt(m, a, faults, k);
  }

  /** When a failed deploy leaves each store as it found it. */
  lemma RestoresExactly(m: Remote, a: Artefact, faults: Faults)
    requires !Reached(faults, |FORWARD|)
    ensures var r := Deploy(m, a, faults).remote;
            && (r.objects == m.objects <==>
                  match FateOf(faults, 1, DeleteObject)
                  case Untouched => true
                  case Left => a.key in m.objects && m.objects[a.key] == a.tarball
                  case TakenBack => a.key !in m.objects)
            && (r.bundles == m.bundles <==>
                  match FateOf(faults, 3, DeleteBundle)
                  case Untouched => true
                  case Left => a.bundleId in m.bundles && m.bundles[a.bundleId] == a.code
                  case TakenBack => a.bundleId !in m.bundles)
            && (r.routes == m.routes <==>
                  match FateOf(faults, 4, RestoreRoute)
                  case Untouched => true
                  case Left => Route(m, a.host) == Some(a.bundleId)
                  case TakenBack => Route(m, a.host) != Some(""))
  {
    hide Deploy, FateOf, Reached;
    RollbackLeaves(m, a, faults);
    assert a.key in m.objects ==> m.objects - {a.key} != m.objects;
    assert a.key !in m.objects ==> m.objects - {a.key} == m.objects;
    assert a.bundleId in m.bundles ==> m.bundles - {a.bundleId} != m.bundles;
    assert a.bundleId !in m.bundles ==> m.bundles - {a.bundleId} == m.bundles;
    assert m.objects[a.key := a.tarball] == m.objects ==> a.key in m.objects;
    assert m.bundles[a.bundleId := a.code] == m.bundles ==> a.bundleId in m.bundles;
    assert m.routes[a.host := a.bundleId] == m.routes ==> a.host in m.routes;
    assert Route(m, a.host) == Some("") ==> m.routes - {a.host} != m.routes;
  }

  /** The promised rollback: with the build's key and bundle id unused at the start and no empty route, a failed
      deploy differs from the state it began in only where an undo step failed, or where the failing call itself
      took effect. */
  lemma SagaRollback(m: Remote, a: Artefact, faults: Faults)
    requires a.key !in m.objects && a.bundleId !in m.bundles && Route(m, a.host) != Some("")
    ensures var r := Deploy(m, a, faults);
            !r.ok ==>
              && (r.remote.objects == m.objects <==> FateOf(faults, 1, DeleteObject) != Left)
              && (r.remote.bundles == m.bundles <==> FateOf(faults, 3, DeleteBundle) != Left)
              && (r.remote.routes == m.routes <==>
                    FateOf(faults, 4, RestoreRoute) != Left || Route(m, a.host) == Some(a.bundleId))
              && (forall k :: k in m.objects ==> k in r.remote.objects && r.remote.objects[k] == m.objects[k])
              && (forall b :: b in m.bundles ==> b in r.remote.bundles && r.remote.bundles[b] == m.bundles[b])
              && (forall h :: h != a.host ==> Route(r.remote, h) == Route(m, h))
  {
    hide Deploy, FateOf, Reached;
    StatusTrace(m, a, faults);
    if !Deploy(m, a, faults).ok {
      RestoresExactly(m, a, faults);
      RollbackLeaves(m, a, faults);
    }
  }

  /** Some route leads to a bundle that is not registered. */
  ghost predicate Dangling(m: Remote) {
    exists h :: h in m.routes && m.routes[h] !in m.bundles
  }

  /** Starting from routes that all lead to registered bundles, a failed deploy leaves a route that leads nowhere
      exactly when its swap stayed in place and the rollback deleted its bundle. */
  lemma DanglesExactly(m: Remote, a: Artefact, faults: Faults)
    requires !Dangling(m) && a.bundleId !in m.bundles && !Deploy(m, a, faults).ok
    ensures Dangling(Deploy(m, a, faults).remote) <==>
              FateOf(faults, 4, RestoreRoute) == Left && faults(DeleteBundle) != Refused
  {
    StatusTrace(m, a, faults);
    RollbackLeaves(m, a, faults);
    var r := Deploy(m, a, faults).remote;
    assert r == Leftover(m, a, faults);
    assert FORWARD[3] == RegisterBundle && FORWARD[4] == SwapRoute;
    var route, bundle := FateOf(faults, 4, RestoreRoute), FateOf(faults, 3, DeleteBundle);
    assert route == Left ==> bundle == if faults(DeleteBundle) == Refused then Left else TakenBack by {
      if route == Left {
        assert Reached(faults, 3) && faults(FORWARD[3]) == Done;
      }
    }
    hide Deploy, FateOf, Reached, Leftover;
    if route == Left {
      assert r.routes == m.routes[a.host := a.bundleId] by { LeftoverStores(m, a, faults); }
      assert bundle == TakenBack ==> r.bundles == m.bundles - {a.bundleId} by { LeftoverStores(m, a, faults); }
      assert bundle == Left ==> r.bundles == m.bundles[a.bundleId := a.code] by { LeftoverStores(m, a, faults); }
      assert a.host in r.routes && r.routes[a.host] == a.bundleId;
    } else {
      LeftoverStores(m, a, faults);
      forall h | h in r.routes ensures r.routes[h] in r.bundles {
        assert h in m.routes && m.routes[h] in m.bundles;
      }
    }
  }

  lemma LeftoverStores(m: Remote, a: Artefact, faults: Faults)
    ensures var r := Leftover(m, a, faults);
            && (forall b :: b in m.bundles && b != a.bundleId ==> b in r.bundles)
            && (FateOf(faults, 3, DeleteBundle) == TakenBack ==> r.bundles == m.bundles - {a.bundleId})
            && (FateOf(faults, 3, DeleteBundle) == Left ==> r.bundles == m.bundles[a.bundleId := a.code])
            && (FateOf(faults, 4, RestoreRoute) == Left ==> r.routes == m.routes[a.host := a.bundleId])
            && (FateOf(faults, 4, RestoreRoute) != Left ==>
                  forall h :: h in r.routes ==> h in m.routes && r.routes[h] == m.routes[h])
  {
    hide FateOf;
  }

  /** The object key depends on the tenant and the build alone: deploying a build again and failing a health check
      deletes the tarball that the first, live deploy uploaded. */
  lemma RedeployDeletes(m: Remote, a: Artefact, faults: Faults)
    requires a.key in m.objects && faults(DeleteObject) != Refused
    requires Reached(faults, 5) && faults(Probe) != Done
    ensures !Deploy(m, a, faults).ok && a.key !in Deploy(m, a, faults).remote.objects
  {
    assert FORWARD[5] == Probe;
    assert FORWARD[1] == PutObject && faults(FORWARD[1]) == Done;
    StatusTrace(m, a, faults);
    hide Deploy;
    RollbackLeaves(m, a, faults);
  }

  lemma RedeployWitness()
    ensures exists m, a, faults ::
      !Deploy(m, a, faults).ok && (forall c :: c != Probe ==> faults(c) == Done)
      && a.key in m.objects && a.key !in Deploy(m, a, faults).remote.objects
  {
    hide Deploy;
    var a := Artefact("bundles/t/b.tar", "bdl_b_2", "app", "tar", "code");
    var m := Remote(map[a.key := "tar"], map["bdl_b_1" := "code"], map["app" := "bdl_b_1"]);
    var faults: Faults := c => if c == Probe then Refused else Done;
    RedeployDeletes(m, a, faults);
  }
}
