/** The registry's bounded histories: the newest 500 runs of each job, and the newest 1000 dead letters. */
module CronHistory {
  type Id = nat

  const MAX_RUNS: nat := 500
  const MAX_DEAD_LETTERS: nat := 1000

  function Newest<T>(s: seq<T>, bound: nat): seq<T> {
    if |s| <= bound then s else s[|s| - bound..]
  }

  /** What is stored after recording the entries one by one. */
  function Stored<T>(entries: seq<T>, bound: nat): seq<T> {
    if entries == [] then []
    else Newest(Stored(entries[..|entries| - 1], bound) + [entries[|entries| - 1]], bound)
  }

  lemma NewestOfNewest<T>(s: seq<T>, x: T, bound: nat)
    ensures Newest(Newest(s, bound) + [x], bound) == Newest(s + [x], bound)
  {
    if |s| > bound {
      assert s[|s| - bound..] + [x] == (s + [x])[|s| - bound..];
    }
  }

  /** The history is always the newest entries ever recorded, up to the bound. */
  lemma {:induction false} StoredIsNewest<T>(entries: seq<T>, bound: nat)
    ensures Stored(entries, bound) == Newest(entries, bound)
  {
    if entries != [] {
      var n := |entries| - 1;
      StoredIsNewest(entries[..n], bound);
      assert entries[..n] + [entries[n]] == entries;
      NewestOfNewest(entries[..n], entries[n], bound);
    }
  }
}
