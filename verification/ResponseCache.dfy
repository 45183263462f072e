/** The DNS response cache: an LRU map whose entries also expire. */
module ResponseCache {
  import opened Wrappers
  import opened Bytes
  import opened OrderedMap

  datatype Entry<R> = Entry(response: R, expiresAt: int)

  type Entries<R> = seq<(Text, Entry<R>)>

  // ---------------------------------------------------------------- the key

  const BAR: byte := 124

  /** `name|type|class`. */
  function Key(name: Text, qtype: nat, qclass: nat): Text {
    Lower(name) + [BAR] + Decimal(qtype) + [BAR] + Decimal(qclass)
  }

  lemma {:induction false} LastField(a: Text, x: Text, b: Text, y: Text)
    requires a + [BAR] + x == b + [BAR] + y && BAR !in x && BAR !in y
    ensures a == b && x == y
    decreases |x|
  {
    var s, t := a + [BAR] + x, b + [BAR] + y;
    assert s[|a|] == BAR && t[|b|] == BAR;
    assert forall k :: |a| < k < |s| ==> s[k] in x;
    assert forall k :: |b| < k < |t| ==> t[k] in y;
    if |x| == |y| {
      assert s[..|a|] == a && t[..|b|] == b && s[|a| + 1..] == x && t[|b| + 1..] == y;
    }
  }

  /** The key tells questions apart up to the case of the name, even when the name contains bars. */
  lemma KeyInjective(n1: Text, t1: nat, c1: nat, n2: Text, t2: nat, c2: nat)
    ensures Key(n1, t1, c1) == Key(n2, t2, c2) <==> Lower(n1) == Lower(n2) && t1 == t2 && c1 == c2
  {
    if Key(n1, t1, c1) == Key(n2, t2, c2) {
      ParsePrintDecimal(t1); ParsePrintDecimal(t2); ParsePrintDecimal(c1); ParsePrintDecimal(c2);
      LastField(Lower(n1) + [BAR] + Decimal(t1), Decimal(c1), Lower(n2) + [BAR] + Decimal(t2), Decimal(c2));
      LastField(Lower(n1), Decimal(t1), Lower(n2), Decimal(t2));
    }
  }

  // ---------------------------------------------------------------- the operations as functions

  function AfterGet<R>(m: Entries<R>, key: Text, now: int): Entries<R> {
    match OrderedMap.Get(m, key)
    case None => m
    case Some(e) => if e.expiresAt <= now then Without(m, key) else Without(m, key) + [(key, e)]
  }

  function Answer<R>(m: Entries<R>, key: Text, now: int): Option<R> {
    match OrderedMap.Get(m, key)
    case None => None
    case Some(e) => if e.expiresAt <= now then None else Some(e.response)
  }

  function AfterSet<R>(m: Entries<R>, maxEntries: nat, key: Text, response: R, ttl: int, now: int): Entries<R> {
    if ttl <= 0 then m
    else
      var m' := Without(m, key) + [(key, Entry(response, now + ttl * 1000))];
      if |m'| > maxEntries then m'[1..] else m'
  }

  datatype Op<R> =
    | Fetch(key: Text, now: int)
    | Put(key: Text, response: R, ttl: int, now: int)
    | Delete(key: Text)
    | Clear

  function After<R>(m: Entries<R>, maxEntries: nat, op: Op<R>): Entries<R> {
    match op
    case Fetch(key, now) => AfterGet(m, key, now)
    case Put(key, response, ttl, now) => AfterSet(m, maxEntries, key, response, ttl, now)
    case Delete(key) => Without(m, key)
    case Clear => []
  }

  function Run<R>(maxEntries: nat, trace: seq<Op<R>>): Entries<R> {
    if trace == [] then []
    else After(Run(maxEntries, trace[..|trace| - 1]), maxEntries, trace[|trace| - 1])
  }

  // ---------------------------------------------------------------- the class

  class Cache<R> {
    const maxEntries: nat
    var entries: Entries<R>
    var hits: nat
    var misses: nat
    var evictions: nat
    var expirations: nat

    constructor (maxEntries: nat)
      ensures this.maxEntries == maxEntries && entries == []
    {
      this.maxEntries := maxEntries;
      entries := [];
      hits, misses, evictions, expirations := 0, 0, 0, 0;
    }

    method Get(key: Text, now: int) returns (r: Option<R>)
      modifies this
      ensures entries == AfterGet(old(entries), key, now) && r == Answer(old(entries), key, now)
      ensures hits + misses == old(hits + misses) + 1 && (hits == old(hits) + 1 <==> r.Some?)
      ensures evictions == old(evictions)
    {
      var entry := OrderedMap.Get(entries, key);
      if entry.None? {
        misses := misses + 1;
        return None;
      }
      if entry.value.expiresAt <= now {
        entries := Without(entries, key);
        expirations := expirations + 1;
        misses := misses + 1;
        return None;
      }
      entries := Without(entries, key);
      entries := entries + [(key, entry.value)];
      hits := hits + 1;
      r := Some(entry.value.response);
    }

    method Set(key: Text, response: R, ttlSeconds: int, now: int)
      modifies `entries, `evictions
      ensures entries == AfterSet(old(entries), maxEntries, key, response, ttlSeconds, now)
    {
      if ttlSeconds <= 0 { return; }
      var expiresAt := now + ttlSeconds * 1000;
      WithoutIn(entries, key);
      if Has(entries, key) {
        entries := Without(entries, key);
      }
      entries := entries + [(key, Entry(response, expiresAt))];
      if |entries| > maxEntries {
        entries := entries[1..];
        evictions := evictions + 1;
      }
    }
  }

  // ---------------------------------------------------------------- what a hit means

  /** The entry made by the latest positive-TTL set of the key, unless the key was deleted since. */
  function Latest<R>(trace: seq<Op<R>>, key: Text): Option<Entry<R>> {
    if trace == [] then None
    else
      var before := trace[..|trace| - 1];
      match trace[|trace| - 1]
      case Fetch(_, _) => Latest(before, key)
      case Put(k, response, ttl, now) =>
        if k == key && ttl > 0 then Some(Entry(response, now + ttl * 1000)) else Latest(before, key)
      case Delete(k) => if k == key then None else Latest(before, key)
      case Clear => None
  }

  lemma GetContents<R>(m: Entries<R>, key: Text, now: int)
    requires Distinct(m)
    ensures Distinct(AfterGet(m, key, now)) && |AfterGet(m, key, now)| <= |m|
    ensures forall p :: p in AfterGet(m, key, now) ==> p in m
  {
    hide Distinct, Has, Without;
    GetHas(m, key);
    WithoutIn(m, key);
    WithoutDistinct(m, key);
    var e := Get(m, key);
    if e.Some? {
      MoveDistinct(m, key, e.value);
      forall p | p in Without(m, key) + [(key, e.value)] ensures p in m {
        MovedIn(m, key, e.value, p);
      }
    }
  }

  lemma SetContents<R>(m: Entries<R>, maxEntries: nat, key: Text, response: R, ttl: int, now: int)
    requires Distinct(m) && |m| <= maxEntries && ttl > 0
    ensures var m' := AfterSet(m, maxEntries, key, response, ttl, now);
            && Distinct(m') && |m'| <= maxEntries
            && forall p :: p in m' ==> p == (key, Entry(response, now + ttl * 1000)) || (p in m && p.0 != key)
  {
    hide Distinct, Has, Without;
    var e := Entry(response, now + ttl * 1000);
    var m' := Without(m, key) + [(key, e)];
    MoveDistinct(m, key, e);
    WithoutIn(m, key);
    TailDistinct(m');
    forall p | p in AfterSet(m, maxEntries, key, response, ttl, now) ensures p == (key, e) || (p in m && p.0 != key) {
      assert p in m';
      MovedIn(m, key, e, p);
    }
  }

  ghost predicate Sound<R(!new)>(trace: seq<Op<R>>, m: Entries<R>, maxEntries: nat) {
    && Distinct(m) && |m| <= maxEntries
    && forall p :: p in m ==> Latest(trace, p.0) == Some(p.1)
  }

  lemma LatestStep<R>(before: seq<Op<R>>, op: Op<R>, key: Text)
    ensures Latest(before + [op], key) ==
            match op
            case Fetch(_, _) => Latest(before, key)
            case Put(k, response, ttl, now) =>
              if k == key && ttl > 0 then Some(Entry(response, now + ttl * 1000)) else Latest(before, key)
            case Delete(k) => if k == key then None else Latest(before, key)
            case Clear => None
  {
    assert (before + [op])[..|before|] == before;
  }

  lemma SoundStep<R(!new)>(before: seq<Op<R>>, m: Entries<R>, maxEntries: nat, op: Op<R>)
    requires Sound(before, m, maxEntries)
    ensures Sound(before + [op], After(m, maxEntries, op), maxEntries)
  {
    hide Distinct, Has, Without, AfterGet, AfterSet, Latest;
    match op {
      case Clear => EmptyDistinct<R>();
      case Delete(k) =>
        WithoutDistinct(m, k);
        WithoutIn(m, k);
      case Fetch(k, now) => GetContents(m, k, now);
      case Put(k, response, ttl, now) =>
        if ttl > 0 {
          SetContents(m, maxEntries, k, response, ttl, now);
        } else {
          SetNothing(m, maxEntries, k, response, ttl, now);
        }
    }
    forall p | p in After(m, maxEntries, op) ensures Latest(before + [op], p.0) == Some(p.1) {
      LatestStep(before, op, p.0);
      match op {
        case Put(k, response, ttl, now) =>
          assert p == (k, Entry(response, now + ttl * 1000)) || p in m;
        case Fetch(_, _) => assert p in m;
        case Delete(k) => WithoutOne(m, k, p);
        case Clear =>
      }
    }
  }

  lemma {:induction false} Contents<R(!new)>(maxEntries: nat, trace: seq<Op<R>>)
    ensures Sound(trace, Run(maxEntries, trace), maxEntries)
  {
    if trace == [] {
      EmptyDistinct<R>();
    } else {
      var before := trace[..|trace| - 1];
      Contents(maxEntries, before);
      SoundStep(before, Run(maxEntries, before), maxEntries, trace[|trace| - 1]);
      assert before + [trace[|trace| - 1]] == trace;
    }
  }

  lemma SetNothing<R>(m: Entries<R>, maxEntries: nat, key: Text, response: R, ttl: int, now: int)
    requires ttl <= 0
    ensures AfterSet(m, maxEntries, key, response, ttl, now) == m
  {
  }

  lemma EmptyDistinct<R>()
    ensures Distinct<Text, Entry<R>>([])
  {
  }

  lemma TailDistinct<R>(m: Entries<R>)
    requires Distinct(m) && m != []
    ensures Distinct(m[1..])
  {
  }

  /** A hit at time now is the response of the latest positive-TTL set of the key, still unexpired. */
  lemma HitIsLatest<R(!new)>(maxEntries: nat, trace: seq<Op<R>>, key: Text, now: int)
    requires Answer(Run(maxEntries, trace), key, now).Some?
    ensures var e := Latest(trace, key);
            e.Some? && now < e.value.expiresAt && Answer(Run(maxEntries, trace), key, now) == Some(e.value.response)
  {
    Contents(maxEntries, trace);
    GetHas(Run(maxEntries, trace), key);
  }
  // ---------------------------------------------------------------- recently used answers stay

  /** The key that an operation can make the newest. */
  function KeyOf<R>(op: Op<R>): set<Text> {
    match op
    case Fetch(key, _) => {key}
    case Put(key, _, _, _) => {key}
    case _ => {}
  }

  function Used<R>(trace: seq<Op<R>>): set<Text> {
    if trace == [] then {} else Used(trace[..|trace| - 1]) + KeyOf(trace[|trace| - 1])
  }

  /** The operation does not remove or replace the answer for the key, which expires at the time given. */
  predicate Spares<R>(op: Op<R>, key: Text, expiresAt: int) {
    match op
    case Fetch(k, now) => k == key ==> now < expiresAt
    case Put(k, _, ttl, _) => k == key ==> ttl <= 0
    case Delete(k) => k != key
    case Clear => false
  }

  lemma StepRecent<R>(m: Entries<R>, maxEntries: nat, op: Op<R>, key: Text, e: Entry<R>, T: set<Text>)
    requires Distinct(m) && |m| <= maxEntries && Recent(m, key, e, T) && key !in T && Spares(op, key, e.expiresAt)
    requires |T + KeyOf(op) - {key}| < maxEntries
    ensures Recent(After(m, maxEntries, op), key, e, T + KeyOf(op) - {key})
  {
    hide Recent, Distinct, Has, Without, AfterGet, AfterSet;
    var T' := T + KeyOf(op) - {key};
    RecentGrows(m, key, e, T, T');
    match op
    case Delete(x) => RecentWithout(m, key, e, T', x);
    case Fetch(x, now) => FetchRecent(m, x, now, key, e, T');
    case Put(x, response, ttl, now) =>
      if ttl > 0 {
        PutRecent(m, maxEntries, op, key, e, T');
      } else {
        SetNothing(m, maxEntries, x, response, ttl, now);
      }
  }

  lemma FetchRecent<R>(m: Entries<R>, x: Text, now: int, key: Text, e: Entry<R>, T: set<Text>)
    requires Distinct(m) && Recent(m, key, e, T) && (if x == key then now < e.expiresAt else x in T)
    ensures Recent(AfterGet(m, x, now), key, e, T)
  {
    hide Recent, Distinct, Has, Without;
    RecentGet(m, key, e, T);
    if x == key {
      WithoutDistinct(m, key);
      RecentLast(Without(m, key), key, e);
      RecentGrows(Without(m, key) + [(key, e)], key, e, {}, T);
    } else {
      RecentWithout(m, key, e, T, x);
      if OrderedMap.Get(m, x).Some? {
        RecentAppend(Without(m, x), key, e, T, x, OrderedMap.Get(m, x).value);
        assert T + {x} == T;
      }
    }
  }

  lemma PutRecent<R>(m: Entries<R>, maxEntries: nat, put: Op<R>, key: Text, e: Entry<R>, T: set<Text>)
    requires put.Put? && put.ttl > 0 && put.key != key && put.key in T
    requires Distinct(m) && Recent(m, key, e, T) && |T| < maxEntries
    ensures Recent(AfterSet(m, maxEntries, put.key, put.response, put.ttl, put.now), key, e, T)
  {
    hide Recent, Distinct, Has, Without;
    var x, entry := put.key, Entry(put.response, put.now + put.ttl * 1000);
    RecentWithout(m, key, e, T, x);
    RecentAppend(Without(m, x), key, e, T, x, entry);
    assert T + {x} == T;
    MoveDistinct(m, x, entry);
    if |Without(m, x) + [(x, entry)]| > maxEntries {
      RecentEvict(Without(m, x) + [(x, entry)], key, e, T);
    }
  }

  lemma JustSet<R>(maxEntries: nat, m: Entries<R>, key: Text, response: R, ttl: int, now: int)
    requires Distinct(m) && |m| <= maxEntries && maxEntries > 0 && ttl > 0
    ensures Recent(AfterSet(m, maxEntries, key, response, ttl, now), key, Entry(response, now + ttl * 1000), {})
  {
    var e := Entry(response, now + ttl * 1000);
    WithoutDistinct(m, key);
    WithoutIn(m, key);
    var w := Without(m, key);
    RecentLast(w, key, e);
    hide Without;
    if |w| + 1 > maxEntries {
      assert forall i :: 0 <= i < |w[1..]| ==> w[1..][i] == w[i + 1];
      RecentLast(w[1..], key, e);
      assert (w + [(key, e)])[1..] == w[1..] + [(key, e)];
    }
  }

  /** The operation stores the entry for the key, or finds it unexpired. */
  ghost predicate Uses<R>(m: Entries<R>, op: Op<R>, key: Text, e: Entry<R>) {
    match op
    case Put(k, response, ttl, now) => k == key && ttl > 0 && e == Entry(response, now + ttl * 1000)
    case Fetch(k, now) => k == key && OrderedMap.Get(m, key) == Some(e) && now < e.expiresAt
    case _ => false
  }

  lemma JustUsed<R>(maxEntries: nat, m: Entries<R>, op: Op<R>, key: Text, e: Entry<R>)
    requires Distinct(m) && |m| <= maxEntries && maxEntries > 0 && Uses(m, op, key, e)
    ensures Recent(After(m, maxEntries, op), key, e, {})
  {
    hide Without;
    if op.Put? {
      JustSet(maxEntries, m, key, op.response, op.ttl, op.now);
    } else {
      WithoutDistinct(m, key);
      RecentLast(Without(m, key), key, e);
    }
  }

  /** A cached answer is served until it expires, as long as fewer other keys than the cache holds have been used
      since it was set or last served. */
  lemma {:induction false} RecentAnswerStays<R(!new)>(maxEntries: nat, before: seq<Op<R>>, op: Op<R>, key: Text,
                                                      e: Entry<R>, more: seq<Op<R>>, now: int)
    requires maxEntries > 0 && Uses(Run(maxEntries, before), op, key, e)
    requires forall i :: 0 <= i < |more| ==> Spares(more[i], key, e.expiresAt)
    requires |Used(more) - {key}| < maxEntries
    ensures Recent(Run(maxEntries, before + [op] + more), key, e, Used(more) - {key})
    ensures now < e.expiresAt ==> Answer(Run(maxEntries, before + [op] + more), key, now) == Some(e.response)
    decreases |more|
  {
    hide Recent, After, AfterSet, Distinct, Spares, Run, Used, Answer, Uses;
    var trace := before + [op];
    if more == [] {
      JustPut(maxEntries, before, op);
      assert trace + more == trace;
      Bounds(maxEntries, before);
      JustUsed(maxEntries, Run(maxEntries, before), op, key, e);
      assert Used(more) - {key} == {} by { NoneUsed<R>(); }
    } else {
      var n := |more| - 1;
      var T := Used(more[..n]) - {key};
      OneMore(maxEntries, trace, more, key);
      RecentAnswerStays(maxEntries, before, op, key, e, more[..n], now);
      Bounds(maxEntries, trace + more[..n]);
      StepRecent(Run(maxEntries, trace + more[..n]), maxEntries, more[n], key, e, T);
    }
    Serves(Run(maxEntries, trace + more), key, e, Used(more) - {key}, now);
  }

  lemma Serves<R>(m: Entries<R>, key: Text, e: Entry<R>, T: set<Text>, now: int)
    ensures Recent(m, key, e, T) && now < e.expiresAt ==> Answer(m, key, now) == Some(e.response)
  {
    if Recent(m, key, e, T) {
      RecentGet(m, key, e, T);
    }
  }

  lemma NoneUsed<R>()
    ensures Used<R>([]) == {}
  {
  }

  lemma JustPut<R>(maxEntries: nat, before: seq<Op<R>>, put: Op<R>)
    ensures Run(maxEntries, before + [put]) == After(Run(maxEntries, before), maxEntries, put)
  {
    hide After;
    assert (before + [put])[..|before|] == before;
  }

  /** The last operation of a trace, and the keys used up to it. */
  lemma OneMore<R>(maxEntries: nat, trace: seq<Op<R>>, more: seq<Op<R>>, k: Text)
    requires more != []
    ensures var n := |more| - 1;
            && Run(maxEntries, trace + more) == After(Run(maxEntries, trace + more[..n]), maxEntries, more[n])
            && Used(more[..n]) - {k} + KeyOf(more[n]) - {k} == Used(more) - {k}
            && |Used(more[..n]) - {k}| <= |Used(more) - {k}|
  {
    var n := |more| - 1;
    assert trace + more == trace + more[..n] + [more[n]];
    JustPut(maxEntries, trace + more[..n], more[n]);
    hide After;
    Smaller(Used(more[..n]) - {k}, Used(more) - {k});
  }

  lemma Bounds<R(!new)>(maxEntries: nat, trace: seq<Op<R>>)
    ensures Distinct(Run(maxEntries, trace)) && |Run(maxEntries, trace)| <= maxEntries
  {
    Contents(maxEntries, trace);
  }

  /** A lookup leaves an entry for its key exactly when it is a hit, and then an unexpired one, and leaves all other
      entries as they are. */
  lemma FetchDrops<R(!new)>(maxEntries: nat, trace: seq<Op<R>>, key: Text, now: int, p: (Text, Entry<R>))
    ensures var m, m' := Run(maxEntries, trace), Run(maxEntries, trace + [Fetch(key, now)]);
            && (Has(m', key) <==> Answer(m, key, now).Some?)
            && (p in m' <==> p in m && (p.0 != key || now < p.1.expiresAt))
  {
    var m := Run(maxEntries, trace);
    Bounds(maxEntries, trace);
    JustPut(maxEntries, trace, Fetch(key, now));
    hide Run;
    GetHas(m, key);
    if p in m && p.0 == key {
      GetIn(m, p);
    }
    if OrderedMap.Get(m, key).Some? {
      var e := OrderedMap.Get(m, key).value;
      WithoutOne(m, key, p);
      WithoutDistinct(m, key);
      MovedIn(m, key, e, p);
      var moved := Without(m, key) + [(key, e)];
      assert moved[|moved| - 1] == (key, e);
    }
  }
}
