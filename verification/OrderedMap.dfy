/** An insertion-ordered map, as a sequence of key-value pairs with distinct keys. */
module OrderedMap {
  import opened Wrappers

  predicate Has<K(==), V>(m: seq<(K, V)>, k: K) {
    exists i :: 0 <= i < |m| && m[i].0 == k
  }

  function Get<K(==), V>(m: seq<(K, V)>, k: K): Option<V> {
    if m == [] then None
    else if m[0].0 == k then Some(m[0].1)
    else Get(m[1..], k)
  }

  function Without<K(==), V>(m: seq<(K, V)>, k: K): seq<(K, V)> {
    if m == [] then []
    else if m[0].0 == k then Without(m[1..], k)
    else [m[0]] + Without(m[1..], k)
  }

  ghost predicate Distinct<K, V>(m: seq<(K, V)>) {
    forall i, j :: 0 <= i < j < |m| ==> m[i].0 != m[j].0
  }

  lemma {:induction false} GetHas<K, V>(m: seq<(K, V)>, k: K)
    ensures Get(m, k).Some? <==> Has(m, k)
    ensures Get(m, k).Some? ==> (k, Get(m, k).value) in m
  {
    if m != [] {
      GetHas(m[1..], k);
      if Has(m[1..], k) {
        var i :| 0 <= i < |m[1..]| && m[1..][i].0 == k;
        assert m[i + 1].0 == k;
      }
      if Has(m, k) && m[0].0 != k {
        var i :| 0 <= i < |m| && m[i].0 == k;
        assert m[1..][i - 1].0 == k;
      }
    }
  }

  lemma {:induction false} GetIn<K, V>(m: seq<(K, V)>, p: (K, V))
    requires Distinct(m) && p in m
    ensures Get(m, p.0) == Some(p.1)
  {
    if m[0] != p {
      var i :| 0 <= i < |m| && m[i] == p;
      assert m[1..][i - 1] == p;
      assert m[0].0 != m[i].0;
      GetIn(m[1..], p);
    }
  }

  lemma {:induction false} WithoutIn<K, V>(m: seq<(K, V)>, k: K)
    ensures forall p :: p in Without(m, k) <==> p in m && p.0 != k
    ensures |Without(m, k)| <= |m|
    ensures !Has(m, k) ==> Without(m, k) == m
  {
    if m != [] {
      WithoutIn(m[1..], k);
      assert m == [m[0]] + m[1..];
      if !Has(m, k) {
        assert m[0].0 != k;
        assert forall i :: 0 <= i < |m[1..]| ==> m[1..][i] == m[i + 1];
      }
    }
  }

  lemma HasCons<K, V>(p: (K, V), m: seq<(K, V)>, k: K)
    ensures Has([p] + m, k) <==> p.0 == k || Has(m, k)
  {
    assert ([p] + m)[0] == p;
    if Has(m, k) {
      var i :| 0 <= i < |m| && m[i].0 == k;
      assert ([p] + m)[i + 1].0 == k;
    }
  }

  lemma DistinctCons<K, V>(p: (K, V), m: seq<(K, V)>)
    ensures Distinct([p] + m) <==> Distinct(m) && !Has(m, p.0)
  {
    var c := [p] + m;
    assert forall i :: 0 <= i < |m| ==> m[i] == c[i + 1];
    assert c[0] == p;
  }

  lemma {:induction false} WithoutDistinct<K, V>(m: seq<(K, V)>, k: K)
    requires Distinct(m)
    ensures Distinct(Without(m, k)) && !Has(Without(m, k), k)
    ensures Has(m, k) ==> |Without(m, k)| == |m| - 1
    ensures forall x :: Has(Without(m, k), x) ==> Has(m, x)
  {
    if m != [] {
      assert m == [m[0]] + m[1..];
      DistinctCons(m[0], m[1..]);
      WithoutDistinct(m[1..], k);
      HasCons(m[0], m[1..], k);
      WithoutIn(m[1..], k);
      var w := Without(m[1..], k);
      DistinctCons(m[0], w);
      HasCons(m[0], w, k);
      forall x ensures Has(Without(m, k), x) ==> Has(m, x) {
        HasCons(m[0], w, x);
        HasCons(m[0], m[1..], x);
      }
    }
  }

  /** Moving a key to the end (delete, then set) keeps the keys distinct. */
  lemma MoveDistinct<K, V>(m: seq<(K, V)>, k: K, v: V)
    requires Distinct(m)
    ensures Distinct(Without(m, k) + [(k, v)])
    ensures |Without(m, k) + [(k, v)]| == if Has(m, k) then |m| else |m| + 1
  {
    WithoutDistinct(m, k);
    WithoutIn(m, k);
  }

  lemma WithoutOne<K, V>(m: seq<(K, V)>, k: K, p: (K, V))
    ensures p in Without(m, k) <==> p in m && p.0 != k
  {
    WithoutIn(m, k);
  }

  lemma MovedIn<K, V>(m: seq<(K, V)>, k: K, v: V, p: (K, V))
    ensures p in Without(m, k) + [(k, v)] <==> p == (k, v) || (p in m && p.0 != k)
  {
    WithoutIn(m, k);
  }

  // ---------------------------------------------------------------- subsequences

  /** a is b with some elements left out. */
  ghost predicate Sub<T(!new)>(a: seq<T>, b: seq<T>) {
    a == [] || (b != [] && if a[0] == b[0] then Sub(a[1..], b[1..]) else Sub(a, b[1..]))
  }

  lemma {:induction false} SubLonger<T(!new)>(a: seq<T>, b: seq<T>, x: T)
    requires Sub(a, b)
    ensures Sub(a, [x] + b)
    decreases |b|, 1
  {
    assert ([x] + b)[1..] == b;
    if a != [] && a[0] == x {
      SubTail(a, b);
    }
  }

  lemma {:induction false} SubTail<T(!new)>(a: seq<T>, b: seq<T>)
    requires a != [] && Sub(a, b)
    ensures Sub(a[1..], b)
    decreases |b|, 0
  {
    assert b == [b[0]] + b[1..];
    if a[0] == b[0] {
      SubLonger(a[1..], b[1..], b[0]);
    } else {
      SubTail(a, b[1..]);
      SubLonger(a[1..], b[1..], b[0]);
    }
  }

  lemma {:induction false} SubBothEnds<T(!new)>(a: seq<T>, b: seq<T>, x: T)
    requires Sub(a, b)
    ensures Sub(a + [x], b + [x])
    ensures Sub(a, b + [x])
    decreases |b|
  {
    if b == [] {
      assert [x][1..] == [];
    } else {
      assert (b + [x])[1..] == b[1..] + [x];
      if a == [] {
        SubBothEnds([], b[1..], x);
        assert [] + [x] == [x];
        SubLonger([x], b[1..] + [x], b[0]);
        assert b + [x] == [b[0]] + (b[1..] + [x]);
      } else if a[0] == b[0] {
        SubBothEnds(a[1..], b[1..], x);
        assert (a + [x])[1..] == a[1..] + [x];
      } else {
        SubBothEnds(a, b[1..], x);
      }
    }
  }

  lemma {:induction false} SubIn<T(!new)>(a: seq<T>, b: seq<T>)
    requires Sub(a, b)
    ensures forall x :: x in a ==> x in b
    ensures |a| <= |b|
    ensures |a| == |b| ==> a == b
    decreases |b|
  {
    if a != [] {
      assert b == [b[0]] + b[1..] && a == [a[0]] + a[1..];
      if a[0] == b[0] {
        SubIn(a[1..], b[1..]);
      } else {
        SubIn(a, b[1..]);
      }
    }
  }

  lemma {:induction false} SubWithout<K(!new), V(!new)>(a: seq<(K, V)>, b: seq<(K, V)>, k: K)
    requires Sub(a, b)
    ensures Sub(Without(a, k), Without(b, k))
    decreases |b|
  {
    if a != [] {
      if a[0] == b[0] {
        SubWithout(a[1..], b[1..], k);
        if a[0].0 != k {
          assert Without(a, k)[1..] == Without(a[1..], k) && Without(b, k)[1..] == Without(b[1..], k);
        }
      } else {
        SubWithout(a, b[1..], k);
        if b[0].0 != k {
          SubLonger(Without(a, k), Without(b[1..], k), b[0]);
        }
      }
    }
  }

  lemma SubSkipFirst<T(!new)>(a: seq<T>, b: seq<T>)
    requires a != [] && b != [] && Sub(a, b)
    ensures Sub(a[1..], b[1..])
  {
    if a[0] != b[0] {
      SubTail(a, b[1..]);
    }
  }

  lemma SubHas<K(!new), V(!new)>(a: seq<(K, V)>, b: seq<(K, V)>, k: K)
    requires Sub(a, b) && Has(a, k)
    ensures Has(b, k)
  {
    SubIn(a, b);
    var i :| 0 <= i < |a| && a[i].0 == k;
    assert a[i] in b;
  }

  /** Dropping the oldest entry and adding a new key keeps the keys distinct. */
  lemma EvictDistinct<K, V>(m: seq<(K, V)>, k: K, v: V)
    requires Distinct(m) && !Has(m, k) && m != []
    ensures Distinct(m[1..] + [(k, v)])
  {
  }
  // ---------------------------------------------------------------- recency

  /** k is mapped to v, and the keys that are more recent than it are all among T. */
  ghost predicate Recent<K, V>(m: seq<(K, V)>, k: K, v: V, T: set<K>) {
    m != [] && if m[0].0 == k then m[0].1 == v && (forall q :: q in m[1..] ==> q.0 in T) else Recent(m[1..], k, v, T)
  }

  lemma {:induction false} RecentGet<K, V>(m: seq<(K, V)>, k: K, v: V, T: set<K>)
    requires Recent(m, k, v, T)
    ensures Get(m, k) == Some(v)
  {
    if m[0].0 != k { RecentGet(m[1..], k, v, T); }
  }

  lemma {:induction false} RecentGrows<K, V>(m: seq<(K, V)>, k: K, v: V, T: set<K>, T': set<K>)
    requires Recent(m, k, v, T) && T <= T'
    ensures Recent(m, k, v, T')
  {
    if m[0].0 != k { RecentGrows(m[1..], k, v, T, T'); }
  }

  lemma {:induction false} RecentLast<K, V>(m: seq<(K, V)>, k: K, v: V)
    requires !Has(m, k)
    ensures Recent(m + [(k, v)], k, v, {})
  {
    if m != [] {
      assert m == [m[0]] + m[1..];
      HasCons(m[0], m[1..], k);
      RecentLast(m[1..], k, v);
      assert (m + [(k, v)])[1..] == m[1..] + [(k, v)];
    }
  }

  lemma {:induction false} RecentAppend<K, V>(m: seq<(K, V)>, k: K, v: V, T: set<K>, x: K, w: V)
    requires Recent(m, k, v, T)
    ensures Recent(m + [(x, w)], k, v, T + {x})
  {
    assert (m + [(x, w)])[1..] == m[1..] + [(x, w)];
    if m[0].0 != k { RecentAppend(m[1..], k, v, T, x, w); }
  }

  lemma {:induction false} RecentWithout<K, V>(m: seq<(K, V)>, k: K, v: V, T: set<K>, x: K)
    requires Recent(m, k, v, T) && x != k
    ensures Recent(Without(m, x), k, v, T)
  {
    if m[0].0 == k {
      WithoutIn(m[1..], x);
      assert Without(m, x)[1..] == Without(m[1..], x);
      forall q | q in Without(m[1..], x) ensures q.0 in T {
        WithoutOne(m[1..], x, q);
      }
    } else {
      RecentWithout(m[1..], k, v, T, x);
      if m[0].0 != x {
        assert Without(m, x)[1..] == Without(m[1..], x);
      }
    }
  }

  /** Distinct keys from a set are no more than its elements. */
  lemma {:induction false} DistinctCount<K, V>(m: seq<(K, V)>, T: set<K>)
    requires Distinct(m) && forall q :: q in m ==> q.0 in T
    ensures |m| <= |T|
  {
    if m != [] {
      var k := m[0].0;
      assert m[0] in m;
      forall q | q in m[1..] ensures q.0 in T - {k} {
        var i :| 0 <= i < |m[1..]| && m[1..][i] == q;
        assert m[i + 1] == q && q in m;
      }
      DistinctCount(m[1..], T - {k});
    }
  }

  /** Dropping the oldest of more entries than T and one leaves the key alone. */
  lemma RecentEvict<K, V>(m: seq<(K, V)>, k: K, v: V, T: set<K>)
    requires Distinct(m) && Recent(m, k, v, T) && |m| > |T| + 1
    ensures Recent(m[1..], k, v, T)
  {
    if m[0].0 == k {
      DistinctCount(m[1..], T);
    }
  }

  lemma Smaller<T>(a: set<T>, b: set<T>)
    requires a <= b
    ensures |a| <= |b|
  {
    assert b == a + (b - a);
    assert |b| == |a| + |b - a|;
  }
}
