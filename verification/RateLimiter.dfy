/** The gateway's token buckets, one per API key, over real-valued tokens and clock readings in milliseconds. */
module RateLimiter {
  import opened Wrappers

  type Key = string

  datatype Bucket = Bucket(tokens: real, lastRefillMs: real, capacity: real, refillRate: real)

  /** A consume with its key's override, or the limiter's default, already chosen. */
  datatype Call = Call(key: Key, capacity: real, rate: real, now: real)

  /** retryAfterSec is None for an endless wait. */
  datatype Decision = Decision(allowed: bool, retryAfterSec: Option<real>, remaining: int)

  type Buckets = map<Key, Bucket>

  function Or(o: Option<real>, otherwise: real): real {
    if o.Some? then o.value else otherwise
  }

  function Max(a: real, b: real): real {
    if a < b then b else a
  }

  function Min(a: real, b: real): real {
    if a < b then a else b
  }

  // ---------------------------------------------------------------- one call

  /** The key's bucket, created full or refilled up to the call's time. */
  function Refilled(buckets: Buckets, c: Call): Bucket {
    if c.key !in buckets then Bucket(c.capacity, c.now, c.capacity, c.rate)
    else
      var b := buckets[c.key];
      Bucket(Min(c.capacity, b.tokens + Gain(c.rate, c.now - b.lastRefillMs)), c.now, c.capacity, c.rate)
  }

  /** The tokens earned in so many milliseconds; none when the clock has gone back. */
  function Gain(rate: real, ms: real): real {
    Max(0.0, ms / 1000.0) * rate
  }

  predicate Allowed(buckets: Buckets, c: Call) {
    Refilled(buckets, c).tokens >= 1.0
  }

  function Next(buckets: Buckets, c: Call): Buckets {
    var b := Refilled(buckets, c);
    buckets[c.key := if b.tokens >= 1.0 then b.(tokens := b.tokens - 1.0) else b]
  }

  function Decide(buckets: Buckets, c: Call): Decision {
    var b := Refilled(buckets, c);
    if b.tokens >= 1.0 then Decision(true, Some(0.0), (b.tokens - 1.0).Floor)
    else Decision(false, if c.rate > 0.0 then Some((1.0 - b.tokens) / c.rate) else None, 0)
  }

  class Limiter {
    var buckets: Buckets
    const defaultBurst: real
    const defaultRps: real

    constructor (burst: Option<real>, rps: Option<real>)
      ensures buckets == map[]
      ensures defaultBurst == Or(burst, 60.0) && defaultRps == Or(rps, 10.0)
    {
      buckets := map[];
      defaultBurst := Or(burst, 60.0);
      defaultRps := Or(rps, 10.0);
    }

    method Consume(key: Key, burst: Option<real>, rps: Option<real>, now: real) returns (d: Decision)
      modifies this
      ensures var c := Call(key, Or(burst, defaultBurst), Or(rps, defaultRps), now);
              buckets == Next(old(buckets), c) && d == Decide(old(buckets), c)
    {
      var capacity := Or(burst, defaultBurst);
      var refillRate := Or(rps, defaultRps);
      var bucket: Bucket;
      if key !in buckets {
        bucket := Bucket(capacity, now, capacity, refillRate);
      } else {
        bucket := buckets[key].(capacity := capacity, refillRate := refillRate);
        var elapsedSec := Max(0.0, (now - bucket.lastRefillMs) / 1000.0);
        bucket := bucket.(tokens := Min(capacity, bucket.tokens + elapsedSec * refillRate));
        bucket := bucket.(lastRefillMs := now);
      }
      if bucket.tokens >= 1.0 {
        bucket := bucket.(tokens := bucket.tokens - 1.0);
        buckets := buckets[key := bucket];
        return Decision(true, Some(0.0), bucket.tokens.Floor);
      }
      buckets := buckets[key := bucket];
      var deficit := 1.0 - bucket.tokens;
      d := Decision(false, if refillRate > 0.0 then Some(deficit / refillRate) else None, 0);
    }

    method Reset()
      modifies this
      ensures buckets == map[]
    {
      buckets := map[];
    }
  }

  // ---------------------------------------------------------------- runs

  /** The buckets after a series of calls, oldest first. */
  function After(buckets: Buckets, calls: seq<Call>): Buckets {
    if calls == [] then buckets
    else Next(After(buckets, calls[..|calls| - 1]), calls[|calls| - 1])
  }

  /** How many of a series of calls were by this key, at a time in [s, t], and allowed. */
  function Admitted(buckets: Buckets, calls: seq<Call>, key: Key, s: real, t: real): nat {
    if calls == [] then 0
    else
      var n := |calls| - 1;
      var c := calls[n];
      Admitted(buckets, calls[..n], key, s, t)
      + if c.key == key && s <= c.now <= t && Allowed(After(buckets, calls[..n]), c) then 1 else 0
  }

  predicate Ordered(calls: seq<Call>) {
    forall i, j :: 0 <= i < j < |calls| ==> calls[i].now <= calls[j].now
  }

  /** Every call by the key carries this configuration. */
  predicate Configured(calls: seq<Call>, key: Key, capacity: real, rate: real) {
    forall i :: 0 <= i < |calls| && calls[i].key == key ==> calls[i].capacity == capacity && calls[i].rate == rate
  }

  /** burst + rps * (t - s) / 1000. */
  function Budget(capacity: real, rate: real, s: real, t: real): real {
    capacity + rate * ((t - s) / 1000.0)
  }

  lemma GainAtLeastZero(rate: real, ms: real)
    requires rate >= 0.0
    ensures Gain(rate, ms) >= 0.0
  {
  }

  lemma BudgetGrows(capacity: real, rate: real, s: real, t: real, t': real)
    requires rate >= 0.0 && t <= t'
    ensures Budget(capacity, rate, s, t') == Budget(capacity, rate, s, t) + Gain(rate, t' - t)
    ensures Budget(capacity, rate, s, t) <= Budget(capacity, rate, s, t')
    ensures Budget(capacity, rate, s, s) == capacity
  {
    GainAtLeastZero(rate, t' - t);
    var x, y := (t - s) / 1000.0, (t' - t) / 1000.0;
    assert (t' - s) / 1000.0 == x + y;
    assert rate * (x + y) == rate * x + rate * y;
    assert rate * ((s - s) / 1000.0) == 0.0;
  }

  // ---------------------------------------------------------------- tokens stay within the bucket

  ghost predicate Bounded(buckets: Buckets) {
    forall k :: k in buckets ==> 0.0 <= buckets[k].tokens <= buckets[k].capacity
  }

  /** Whatever the clock does, and however a key's configuration changes between calls. */
  lemma {:induction false} TokensBounded(buckets: Buckets, calls: seq<Call>)
    requires Bounded(buckets)
    requires forall i :: 0 <= i < |calls| ==> calls[i].capacity >= 0.0 && calls[i].rate >= 0.0
    ensures Bounded(After(buckets, calls))
  {
    if calls != [] {
      var n := |calls| - 1;
      TokensBounded(buckets, calls[..n]);
      var was, c := After(buckets, calls[..n]), calls[n];
      if c.key in was {
        GainAtLeastZero(c.rate, c.now - was[c.key].lastRefillMs);
      }
    }
  }

  // ---------------------------------------------------------------- the window bound

  /** While the window is open: what has been admitted, and what is left in the bucket, fit the budget so far. */
  lemma {:induction false} Spent(buckets: Buckets, calls: seq<Call>, key: Key, capacity: real, rate: real,
                                 s: real, t: real)
    requires capacity >= 0.0 && rate >= 0.0 && Configured(calls, key, capacity, rate) && Ordered(calls)
    requires forall i :: 0 <= i < |calls| ==> calls[i].now <= t
    ensures var n, now := Admitted(buckets, calls, key, s, t), After(buckets, calls);
            n > 0 ==> key in now && s <= now[key].lastRefillMs <= t && 0.0 <= now[key].tokens
                      && (exists i :: 0 <= i < |calls| && calls[i].now == now[key].lastRefillMs)
                      && n as real + now[key].tokens <= Budget(capacity, rate, s, now[key].lastRefillMs)
  {
    hide Gain, Budget;
    if calls != [] {
      var m := |calls| - 1;
      var c, was := calls[m], After(buckets, calls[..m]);
      Spent(buckets, calls[..m], key, capacity, rate, s, t);
      var n := Admitted(buckets, calls[..m], key, s, t);
      if c.key == key {
        if n > 0 {
          var i :| 0 <= i < m && calls[i].now == was[key].lastRefillMs;
          assert was[key].lastRefillMs <= c.now;
          BudgetGrows(capacity, rate, s, was[key].lastRefillMs, c.now);
          GainAtLeastZero(rate, c.now - was[key].lastRefillMs);
        } else if s <= c.now {
          BudgetGrows(capacity, rate, s, s, c.now);
        }
        assert calls[m].now == After(buckets, calls)[key].lastRefillMs;
      } else if n > 0 {
        var i :| 0 <= i < m && calls[i].now == was[key].lastRefillMs;
        assert calls[i].now == After(buckets, calls)[key].lastRefillMs;
      }
    }
  }

  /** In every window [s, t], however the keys' calls interleave and whatever the buckets held before. */
  lemma {:induction false} WindowBound(buckets: Buckets, calls: seq<Call>, key: Key, capacity: real, rate: real,
                                       s: real, t: real)
    requires capacity >= 0.0 && rate >= 0.0 && Configured(calls, key, capacity, rate) && Ordered(calls) && s <= t
    ensures Admitted(buckets, calls, key, s, t) as real <= Budget(capacity, rate, s, t)
  {
    if calls == [] {
      BudgetGrows(capacity, rate, s, s, t);
    } else if calls[|calls| - 1].now > t {
      WindowBound(buckets, calls[..|calls| - 1], key, capacity, rate, s, t);
    } else {
      Spent(buckets, calls, key, capacity, rate, s, t);
      if Admitted(buckets, calls, key, s, t) > 0 {
        BudgetGrows(capacity, rate, s, After(buckets, calls)[key].lastRefillMs, t);
      } else {
        BudgetGrows(capacity, rate, s, s, t);
      }
    }
  }

  // ---------------------------------------------------------------- no needless denial

  /** Since some earlier moment the bucket holds at least its budget less what was admitted. */
  ghost predicate Earned(buckets: Buckets, calls: seq<Call>, key: Key, capacity: real, rate: real, t: real, s: real) {
    var now := After(buckets, calls);
    key in now && s <= now[key].lastRefillMs
    && now[key].tokens >= Budget(capacity, rate, s, now[key].lastRefillMs) - Admitted(buckets, calls, key, s, t) as real
  }

  lemma {:induction false} SinceFull(calls: seq<Call>, key: Key, capacity: real, rate: real, t: real) returns (s: real)
    requires rate >= 0.0 && Configured(calls, key, capacity, rate) && Ordered(calls)
    requires forall i :: 0 <= i < |calls| ==> calls[i].now <= t
    requires key in After(map[], calls)
    ensures Earned(map[], calls, key, capacity, rate, t, s)
    ensures exists i :: 0 <= i < |calls| && calls[i].now == After(map[], calls)[key].lastRefillMs
  {
    hide Gain, Budget;
    var m := |calls| - 1;
    var c, was := calls[m], After(map[], calls[..m]);
    var b := Refilled(was, c);
    if c.key != key {
      s := SinceFull(calls[..m], key, capacity, rate, t);
      var i :| 0 <= i < m && calls[i].now == was[key].lastRefillMs;
      assert calls[i].now == After(map[], calls)[key].lastRefillMs;
    } else {
      assert calls[m].now == After(map[], calls)[key].lastRefillMs;
      if key !in was || b.tokens == capacity {
        s := c.now;
        BudgetGrows(capacity, rate, s, s, c.now);
      } else {
        s := SinceFull(calls[..m], key, capacity, rate, t);
        var i :| 0 <= i < m && calls[i].now == was[key].lastRefillMs;
        BudgetGrows(capacity, rate, s, was[key].lastRefillMs, c.now);
      }
    }
  }

  /** The reference definition: from a fresh limiter, a call is allowed exactly when admitting it keeps every window
      that ends at it within its budget. */
  lemma AllowedExactly(calls: seq<Call>, c: Call)
    requires c.capacity >= 0.0 && c.rate >= 0.0 && Configured(calls, c.key, c.capacity, c.rate) && Ordered(calls + [c])
    ensures Allowed(After(map[], calls), c) <==>
            forall s :: s <= c.now ==>
              Admitted(map[], calls, c.key, s, c.now) as real + 1.0 <= Budget(c.capacity, c.rate, s, c.now)
  {
    var all := calls + [c];
    assert all[..|all| - 1] == calls && all[|all| - 1] == c;
    var was := After(map[], calls);
    if Allowed(was, c) {
      forall s | s <= c.now
        ensures Admitted(map[], calls, c.key, s, c.now) as real + 1.0 <= Budget(c.capacity, c.rate, s, c.now)
      {
        WindowBound(map[], all, c.key, c.capacity, c.rate, s, c.now);
      }
    } else {
      forall i | 0 <= i < |all| ensures all[i].now <= c.now {}
      var s := SinceFull(all, c.key, c.capacity, c.rate, c.now);
      assert Admitted(map[], all, c.key, s, c.now) == Admitted(map[], calls, c.key, s, c.now);
      assert Earned(map[], all, c.key, c.capacity, c.rate, c.now, s);
    }
  }

  // ---------------------------------------------------------------- the advised wait

  lemma {:induction false} OthersLeave(buckets: Buckets, calls: seq<Call>, key: Key)
    requires forall i :: 0 <= i < |calls| ==> calls[i].key != key
    ensures key in buckets <==> key in After(buckets, calls)
    ensures key in buckets ==> After(buckets, calls)[key] == buckets[key]
  {
    if calls != [] { OthersLeave(buckets, calls[..|calls| - 1], key); }
  }

  /** After a denial and any calls by other keys, the key's next call is allowed exactly when the bucket can hold a
      token at all and the advised wait has passed: not earlier, and never when no wait was advised. */
  lemma RetryAfter(buckets: Buckets, denied: Call, others: seq<Call>, again: Call)
    requires denied.rate >= 0.0 && !Allowed(buckets, denied)
    requires forall i :: 0 <= i < |others| ==> others[i].key != denied.key
    requires again == denied.(now := again.now) && denied.now <= again.now
    ensures Allowed(After(Next(buckets, denied), others), again) <==>
              denied.capacity >= 1.0 && Waits(Decide(buckets, denied), denied.now, again.now)
  {
    hide Gain, Decide, Waits, Next, After, Refilled, Allowed;
    AfterDenial(buckets, denied);
    OthersLeave(Next(buckets, denied), others, denied.key);
    AllowedFrom(After(Next(buckets, denied), others), again);
    Advised(buckets, denied, again.now);
  }

  /** A denial only refills. */
  lemma AfterDenial(buckets: Buckets, denied: Call)
    requires !Allowed(buckets, denied)
    ensures denied.key in Next(buckets, denied) && Next(buckets, denied)[denied.key] == Refilled(buckets, denied)
    ensures Refilled(buckets, denied).lastRefillMs == denied.now
  {
    hide Gain;
  }

  /** When a call on an existing bucket is allowed. */
  lemma AllowedFrom(buckets: Buckets, c: Call)
    requires c.key in buckets
    ensures var b := buckets[c.key];
            Allowed(buckets, c) <==> c.capacity >= 1.0 && b.tokens + Gain(c.rate, c.now - b.lastRefillMs) >= 1.0
  {
    hide Gain;
  }

  /** The advised wait has passed. */
  predicate Waits(d: Decision, from: real, now: real) {
    d.retryAfterSec.Some? && now >= from + 1000.0 * d.retryAfterSec.value
  }

  lemma Advised(buckets: Buckets, denied: Call, now: real)
    requires denied.rate >= 0.0 && !Allowed(buckets, denied) && denied.now <= now
    ensures Refilled(buckets, denied).tokens + Gain(denied.rate, now - denied.now) >= 1.0
            <==> Waits(Decide(buckets, denied), denied.now, now)
  {
    hide Refilled;
    var b := Refilled(buckets, denied);
    Earns(denied.rate, 1.0 - b.tokens, now - denied.now);
    hide Gain;
  }

  /** When a positive deficit has been earned. */
  lemma Earns(rate: real, deficit: real, ms: real)
    requires rate >= 0.0 && deficit > 0.0 && ms >= 0.0
    ensures Gain(rate, ms) >= deficit <==> rate > 0.0 && ms >= 1000.0 * (deficit / rate)
  {
    var sec := ms / 1000.0;
    if rate > 0.0 {
      var wait := deficit / rate;
      assert wait * rate == deficit;
      if sec >= wait {
        assert sec * rate == wait * rate + (sec - wait) * rate;
      } else {
        assert (wait - sec) * rate > 0.0;
        assert wait * rate == sec * rate + (wait - sec) * rate;
      }
    }
  }

  // ---------------------------------------------------------------- what `remaining` promises

  /** The buckets after the same call made n times more. */
  function Again(buckets: Buckets, c: Call, n: nat): Buckets {
    if n == 0 then buckets else Next(Again(buckets, c, n - 1), c)
  }

  lemma NoGain(buckets: Buckets, c: Call)
    requires c.key in buckets && buckets[c.key].lastRefillMs == c.now && buckets[c.key].tokens <= c.capacity
    ensures Refilled(buckets, c).tokens == buckets[c.key].tokens
  {
  }

  lemma {:induction false} Spending(buckets: Buckets, c: Call, n: nat)
    requires c.key in buckets && buckets[c.key].lastRefillMs == c.now && buckets[c.key].tokens <= c.capacity
    ensures var b, t := Again(buckets, c, n), buckets[c.key].tokens;
            && c.key in b && b[c.key].lastRefillMs == c.now && b[c.key].tokens <= c.capacity
            && (n as real <= t ==> b[c.key].tokens == t - n as real)
            && (n as real > t ==> b[c.key].tokens < 1.0)
  {
    if n > 0 {
      Spending(buckets, c, n - 1);
      NoGain(Again(buckets, c, n - 1), c);
      hide Refilled, Gain;
    }
  }

  /** Whatever came before, `remaining` is exactly the number of further requests that would be allowed at the same
      instant. */
  lemma RemainingMeaning(buckets: Buckets, c: Call, n: nat)
    ensures Decide(buckets, c).allowed <==> Allowed(buckets, c)
    ensures Allowed(Again(Next(buckets, c), c, n), c) <==> n < Decide(buckets, c).remaining
  {
    var b := Next(buckets, c);
    Spending(b, c, n);
    NoGain(Again(b, c, n), c);
    assert b[c.key].tokens <= c.capacity;
    hide Gain, Refilled;
  }
}
