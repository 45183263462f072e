/** The AI gateway's exact-match LRU cache. Map iteration order is recency order, oldest first. */
module LruCache {
  import opened Wrappers
  import opened OrderedMap

  type Store<K, V> = seq<(K, V)>

  // ---------------------------------------------------------------- the operations as functions

  /** A hit moves the entry to the most recent end. */
  function AfterGet<K(==), V>(m: Store<K, V>, k: K): Store<K, V> {
    match Get(m, k)
    case Some(v) => Without(m, k) + [(k, v)]
    case None => m
  }

  /** A new key evicts the oldest entry of a full store. */
  function AfterSet<K(==), V>(m: Store<K, V>, capacity: nat, k: K, v: V): Store<K, V> {
    if Has(m, k) then Without(m, k) + [(k, v)]
    else if |m| >= capacity && m != [] then m[1..] + [(k, v)]
    else m + [(k, v)]
  }

  datatype Op<K, V> = Fetch(k: K) | Put(k: K, v: V) | Clear

  function After<K(==), V>(m: Store<K, V>, capacity: nat, op: Op<K, V>): Store<K, V> {
    match op
    case Fetch(k) => AfterGet(m, k)
    case Put(k, v) => AfterSet(m, capacity, k, v)
    case Clear => []
  }

  function Run<K(==), V>(capacity: nat, trace: seq<Op<K, V>>): Store<K, V> {
    if trace == [] then []
    else After(Run(capacity, trace[..|trace| - 1]), capacity, trace[|trace| - 1])
  }

  // ---------------------------------------------------------------- the class

  class Cache<K(==), V> {
    const capacity: nat
    var store: Store<K, V>
    var hits: nat
    var misses: nat

    constructor (capacity: nat)
      ensures this.capacity == capacity && store == [] && hits == 0 && misses == 0
    {
      this.capacity := capacity;
      store := [];
      hits, misses := 0, 0;
    }

    /** The source's constructor: it rejects what is not positive, and rounds the rest down, to 0 even. */
    static method Create(argument: real) returns (r: Option<Cache<K, V>>)
      ensures r.Some? <==> argument > 0.0
      ensures r.Some? ==> fresh(r.value) && r.value.capacity == argument.Floor && r.value.store == []
    {
      if argument <= 0.0 { return None; }
      var capacity: nat := argument.Floor;
      var cache := new Cache<K, V>(capacity);
      r := Some(cache);
    }

    method Lookup(key: K) returns (r: Option<V>)
      modifies this
      ensures r == Get(old(store), key) && store == AfterGet(old(store), key)
      ensures hits == old(hits) + (if r.Some? then 1 else 0)
      ensures misses == old(misses) + (if r.None? then 1 else 0)
    {
      r := Get(store, key);
      if r.None? {
        misses := misses + 1;
        return;
      }
      store := Without(store, key);
      store := store + [(key, r.value)];
      hits := hits + 1;
    }

    method Set(key: K, value: V)
      modifies `store
      ensures store == AfterSet(old(store), capacity, key, value)
    {
      if Has(store, key) {
        store := Without(store, key);
      } else if |store| >= capacity {
        if store != [] {
          var oldest := store[0].0;
          store := store[1..];
        }
      }
      store := store + [(key, value)];
    }

    method Clear()
      modifies this
      ensures store == [] && hits == 0 && misses == 0
    {
      store := [];
      hits, misses := 0, 0;
    }
  }

  // ---------------------------------------------------------------- size and contents

  /** The value a trace last set for the key, if it was set after the last clear. */
  function LastSet<K(==), V>(trace: seq<Op<K, V>>, k: K): Option<V> {
    if trace == [] then None
    else
      match trace[|trace| - 1]
      case Clear => None
      case Put(k', v) => if k' == k then Some(v) else LastSet(trace[..|trace| - 1], k)
      case Fetch(_) => LastSet(trace[..|trace| - 1], k)
  }

  /** How many entries a cache of this capacity can hold: an empty one takes an entry whatever its capacity. */
  function Room(capacity: nat): nat {
    if capacity == 0 then 1 else capacity
  }

  /** So a cache of capacity 0 behaves like one of capacity 1. */
  lemma {:induction false} RunsByRoom<K, V>(capacity: nat, trace: seq<Op<K, V>>)
    ensures Run(capacity, trace) == Run(Room(capacity), trace)
  {
    if trace != [] {
      RunsByRoom(capacity, trace[..|trace| - 1]);
    }
  }

  /** After every trace the keys are distinct, there is room for the entries, and each entry is the value last set for
      its key. */
  lemma {:induction false} Contents<K, V>(capacity: nat, trace: seq<Op<K, V>>)
    ensures Distinct(Run(capacity, trace)) && |Run(capacity, trace)| <= Room(capacity)
    ensures forall p :: p in Run(capacity, trace) ==> LastSet(trace, p.0) == Some(p.1)
  {
    if trace != [] {
      var before := trace[..|trace| - 1];
      var m := Run(capacity, before);
      Contents(capacity, before);
      hide Distinct, Without, Has;
      match trace[|trace| - 1]
      case Clear => NothingDistinct<K, V>();
      case Fetch(k) =>
        GetKeeps(m, k);
      case Put(k, v) =>
        SetKeeps(m, capacity, k, v);
    }
  }

  lemma NothingDistinct<K, V>()
    ensures Distinct<K, V>([])
  {
  }

  lemma GetKeeps<K, V>(m: Store<K, V>, k: K)
    requires Distinct(m)
    ensures Distinct(AfterGet(m, k)) && |AfterGet(m, k)| == |m|
    ensures forall p :: p in AfterGet(m, k) ==> p in m
  {
    hide Distinct, Without, Has;
    GetHas(m, k);
    if Get(m, k).Some? {
      MoveDistinct(m, k, Get(m, k).value);
      forall p | p in AfterGet(m, k) ensures p in m {
        MovedIn(m, k, Get(m, k).value, p);
      }
    }
  }

  lemma SetKeeps<K, V>(m: Store<K, V>, capacity: nat, k: K, v: V)
    requires Distinct(m) && |m| <= Room(capacity)
    ensures Distinct(AfterSet(m, capacity, k, v)) && |AfterSet(m, capacity, k, v)| <= Room(capacity)
    ensures forall p :: p in AfterSet(m, capacity, k, v) ==> p == (k, v) || (p in m && p.0 != k)
  {
    MoveDistinct(m, k, v);
    WithoutIn(m, k);
    hide Without;
    if !Has(m, k) && m != [] {
      EvictDistinct(m, k, v);
      assert m == [m[0]] + m[1..];
    }
    forall p | p in AfterSet(m, capacity, k, v) ensures p == (k, v) || (p in m && p.0 != k) {
      MovedIn(m, k, v, p);
    }
  }

  /** A lookup after any trace hits only with the value last set for that key. */
  lemma HitIsLastSet<K, V>(capacity: nat, trace: seq<Op<K, V>>, k: K)
    requires Get(Run(capacity, trace), k).Some?
    ensures Get(Run(capacity, trace), k) == LastSet(trace, k)
  {
    Contents(capacity, trace);
    GetHas(Run(capacity, trace), k);
  }

  /** Something was set since the last clear. */
  predicate SetSinceClear<K, V>(trace: seq<Op<K, V>>) {
    trace != []
    && match trace[|trace| - 1]
       case Clear => false
       case Put(_, _) => true
       case Fetch(_) => SetSinceClear(trace[..|trace| - 1])
  }

  lemma {:induction false} HoldsSomething<K, V>(capacity: nat, trace: seq<Op<K, V>>)
    ensures Run(capacity, trace) != [] <==> SetSinceClear(trace)
  {
    if trace != [] {
      HoldsSomething(capacity, trace[..|trace| - 1]);
    }
  }

  /** For every argument that the constructor accepts, the size exceeds the capacity exactly when the argument is below
      1 and something was set since the last clear; and then it is 1. */
  lemma SizeExceedsExactly<K, V>(argument: real, trace: seq<Op<K, V>>)
    requires argument > 0.0
    ensures var size := |Run(argument.Floor, trace)|;
            && (size > argument.Floor <==> argument < 1.0 && SetSinceClear(trace))
            && (size > argument.Floor ==> size == 1)
  {
    Contents(argument.Floor, trace);
    HoldsSomething(argument.Floor, trace);
  }

  /** A cache made with the argument 0.5 holds an entry. */
  lemma HalfWitness()
    ensures (0.5).Floor == 0 && Run(0, [Put(1, 2)]) == [(1, 2)]
  {
    assert [Put(1, 2)][..0] == [];
    assert Run<int, int>(0, []) == [];
  }

  // ---------------------------------------------------------------- recently used keys stay

  function KeyOf<K, V>(op: Op<K, V>): set<K> {
    match op
    case Fetch(k) => {k}
    case Put(k, _) => {k}
    case Clear => {}
  }

  /** The keys a trace uses. */
  function Used<K, V>(trace: seq<Op<K, V>>): set<K> {
    if trace == [] then {} else Used(trace[..|trace| - 1]) + KeyOf(trace[|trace| - 1])
  }

  predicate Spares<K(==), V>(op: Op<K, V>, k: K) {
    op.Fetch? || (op.Put? && op.k != k)
  }

  lemma StepRecent<K, V>(m: Store<K, V>, capacity: nat, op: Op<K, V>, k: K, v: V, T: set<K>)
    requires Distinct(m) && |m| <= capacity && Recent(m, k, v, T) && k !in T && Spares(op, k)
    requires |T + KeyOf(op) - {k}| < capacity
    ensures Recent(After(m, capacity, op), k, v, T + KeyOf(op) - {k})
  {
    hide Recent, Distinct, Has, Without;
    var x := op.k;
    var T' := T + {x} - {k};
    RecentGet(m, k, v, T);
    GetHas(m, x);
    if op.Fetch? && x == k {
      WithoutDistinct(m, k);
      RecentLast(Without(m, k), k, v);
      RecentGrows(Without(m, k) + [(k, v)], k, v, {}, T');
    } else {
      assert T' == T + {x};
      RecentGrows(m, k, v, T, T');
      var w := if op.Put? then op.v else if Get(m, x).Some? then Get(m, x).value else v;
      RecentWithout(m, k, v, T, x);
      RecentAppend(Without(m, x), k, v, T, x, w);
      if op.Put? && !Has(m, x) {
        MoveDistinct(m, x, w);
        WithoutIn(m, x);
        RecentAppend(m, k, v, T, x, w);
        if |m| >= capacity {
          RecentEvict(m + [(x, w)], k, v, T');
          assert (m + [(x, w)])[1..] == m[1..] + [(x, w)];
        }
      }
    }
  }

  lemma LastOp<K, V>(capacity: nat, before: seq<Op<K, V>>, op: Op<K, V>)
    ensures Run(capacity, before + [op]) == After(Run(capacity, before), capacity, op)
  {
    hide After;
    assert (before + [op])[..|before|] == before;
  }

  /** The last operation of a trace, and the keys used up to it. */
  lemma OneMore<K, V>(capacity: nat, trace: seq<Op<K, V>>, more: seq<Op<K, V>>, k: K)
    requires more != []
    ensures var n := |more| - 1;
            && Run(capacity, trace + more) == After(Run(capacity, trace + more[..n]), capacity, more[n])
            && Used(more[..n]) - {k} + KeyOf(more[n]) - {k} == Used(more) - {k}
            && |Used(more[..n]) - {k}| <= |Used(more) - {k}|
  {
    var n := |more| - 1;
    assert trace + more == trace + more[..n] + [more[n]];
    LastOp(capacity, trace + more[..n], more[n]);
    hide After;
    Smaller(Used(more[..n]) - {k}, Used(more) - {k});
  }

  /** The operation sets the key to v, or finds it to be v. */
  ghost predicate Uses<K, V>(m: Store<K, V>, op: Op<K, V>, k: K, v: V) {
    op == Put(k, v) || (op == Fetch(k) && Get(m, k) == Some(v))
  }

  lemma JustUsed<K, V>(capacity: nat, m: Store<K, V>, op: Op<K, V>, k: K, v: V)
    requires Distinct(m) && Uses(m, op, k, v)
    ensures Recent(After(m, capacity, op), k, v, {})
  {
    if op.Put? {
      JustSet(capacity, m, k, v);
    } else {
      WithoutDistinct(m, k);
      RecentLast(Without(m, k), k, v);
    }
  }

  lemma {:induction false} RecentOnes<K, V>(capacity: nat, before: seq<Op<K, V>>, op: Op<K, V>, k: K, v: V,
                                            more: seq<Op<K, V>>)
    requires capacity > 0 && Uses(Run(capacity, before), op, k, v)
    requires (forall i :: 0 <= i < |more| ==> Spares(more[i], k)) && |Used(more) - {k}| < capacity
    ensures Recent(Run(capacity, before + [op] + more), k, v, Used(more) - {k})
    decreases |more|
  {
    var trace := before + [op];
    if more == [] {
      LastOp(capacity, before, op);
      assert trace + more == trace;
      Contents(capacity, before);
      JustUsed(capacity, Run(capacity, before), op, k, v);
      assert Used(more) - {k} == {};
    } else {
      var n := |more| - 1;
      var T := Used(more[..n]) - {k};
      OneMore(capacity, trace, more, k);
      hide Run, Used, After, Recent, Distinct;
      RecentOnes(capacity, before, op, k, v, more[..n]);
      Contents(capacity, trace + more[..n]);
      StepRecent(Run(capacity, trace + more[..n]), capacity, more[n], k, v, T);
    }
  }

  /** A value that was set or found is found again as long as fewer other keys than there is room for have been used
      since. */
  lemma RecentlyUsedStays<K, V>(capacity: nat, before: seq<Op<K, V>>, op: Op<K, V>, k: K, v: V, more: seq<Op<K, V>>)
    requires Uses(Run(capacity, before), op, k, v)
    requires (forall i :: 0 <= i < |more| ==> Spares(more[i], k)) && |Used(more) - {k}| < Room(capacity)
    ensures Get(Run(capacity, before + [op] + more), k) == Some(v)
  {
    RunsByRoom(capacity, before);
    RunsByRoom(capacity, before + [op] + more);
    RecentOnes(Room(capacity), before, op, k, v, more);
    RecentGet(Run(Room(capacity), before + [op] + more), k, v, Used(more) - {k});
  }

  lemma JustSet<K, V>(capacity: nat, m: Store<K, V>, k: K, v: V)
    requires Distinct(m)
    ensures Recent(AfterSet(m, capacity, k, v), k, v, {})
  {
    WithoutDistinct(m, k);
    RecentLast(Without(m, k), k, v);
    if !Has(m, k) {
      RecentLast(m, k, v);
      if m != [] {
        assert forall i :: 0 <= i < |m[1..]| ==> m[1..][i] == m[i + 1];
        RecentLast(m[1..], k, v);
      }
    }
  }

  // ---------------------------------------------------------------- inclusion

  ghost predicate Included<K(!new), V(!new)>(small: Store<K, V>, big: Store<K, V>, k: nat, K': nat) {
    && Distinct(small) && Distinct(big) && Sub(small, big)
    && |big| <= K' && |small| == if |big| < k then |big| else k
  }

  lemma GetIncluded<K(!new), V(!new)>(small: Store<K, V>, big: Store<K, V>, c: nat, C: nat, k: K)
    requires 0 < c <= C && Included(small, big, c, C)
    ensures Included(AfterGet(small, k), AfterGet(big, k), c, C)
  {
    SubIn(small, big);
    GetHas(small, k);
    GetHas(big, k);
    if Get(small, k).Some? {
      GetIn(big, (k, Get(small, k).value));
    }
    if Get(big, k).Some? {
      var v := Get(big, k).value;
      MoveDistinct(big, k, v);
      SubWithout(small, big, k);
      if Get(small, k).Some? {
        MoveDistinct(small, k, v);
      } else {
        WithoutIn(small, k);
      }
      SubBothEnds(Without(small, k), Without(big, k), (k, v));
    }
  }

  lemma SetIncluded<K(!new), V(!new)>(small: Store<K, V>, big: Store<K, V>, c: nat, C: nat, k: K, v: V)
    requires 0 < c <= C && Included(small, big, c, C)
    ensures Included(AfterSet(small, c, k, v), AfterSet(big, C, k, v), c, C)
  {
    hide Sub, Distinct, Has, Without;
    SubIn(small, big);
    MoveDistinct(small, k, v);
    MoveDistinct(big, k, v);
    WithoutIn(small, k);
    WithoutIn(big, k);
    SubWithout(small, big, k);
    if Has(small, k) {
      SubHas(small, big, k);
      SubBothEnds(Without(small, k), Without(big, k), (k, v));
    } else if Has(big, k) {
      assert |small| == c;
      SubTail(small, Without(big, k));
      SubBothEnds(small[1..], Without(big, k), (k, v));
      EvictDistinct(small, k, v);
    } else if |small| < c {
      SubBothEnds(small, big, (k, v));
    } else if |big| < C {
      EvictDistinct(small, k, v);
      SubTail(small, big);
      SubBothEnds(small[1..], big, (k, v));
    } else {
      EvictDistinct(small, k, v);
      EvictDistinct(big, k, v);
      SubSkipFirst(small, big);
      SubBothEnds(small[1..], big[1..], (k, v));
    }
  }

  lemma {:induction false} InclusionByRoom<K(!new), V(!new)>(c: nat, C: nat, trace: seq<Op<K, V>>)
    requires 0 < c <= C
    ensures Included(Run(c, trace), Run(C, trace), c, C)
  {
    if trace != [] {
      var before := trace[..|trace| - 1];
      InclusionByRoom(c, C, before);
      match trace[|trace| - 1]
      case Clear =>
      case Fetch(k) => GetIncluded(Run(c, before), Run(C, before), c, C, k);
      case Put(k, v) => SetIncluded(Run(c, before), Run(C, before), c, C, k, v);
    }
  }

  /** Inclusion: after the same trace, the cache with the smaller capacity holds, in recency order, a subsequence of
      what the larger one holds, and is full unless it holds all of it. */
  lemma Inclusion<K(!new), V(!new)>(c: nat, C: nat, trace: seq<Op<K, V>>)
    requires c <= C
    ensures Included(Run(c, trace), Run(C, trace), Room(c), Room(C))
  {
    RunsByRoom(c, trace);
    RunsByRoom(C, trace);
    InclusionByRoom(Room(c), Room(C), trace);
  }
}
