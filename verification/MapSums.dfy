/** Sums over the values of a finite map, independent of any enumeration order. */
module MapSums {

  ghost function Pick<K>(m: map<K, nat>): (k: K)
    requires m != map[]
    ensures k in m
  {
    assert m.Keys != {};
    var k :| k in m.Keys;
    k
  }

  ghost function Sum<K>(m: map<K, nat>): nat
    decreases m.Keys
  {
    if m == map[] then 0 else
      var k := Pick(m);
      assert (m - {k}).Keys == m.Keys - {k};
      m[k] + Sum(m - {k})
  }

  /** Any key may be taken out first. */
  lemma {:induction false} SumRemove<K>(m: map<K, nat>, k: K)
    requires k in m
    ensures Sum(m) == m[k] + Sum(m - {k})
    decreases m.Keys
  {
    var p := Pick(m);
    if p != k {
      assert (m - {p}).Keys == m.Keys - {p};
      assert (m - {k}).Keys == m.Keys - {k};
      SumRemove(m - {p}, k);
      SumRemove(m - {k}, p);
      assert m - {p} - {k} == m - {k} - {p};
    }
  }

  function Get<K(==)>(m: map<K, nat>, k: K): nat { if k in m then m[k] else 0 }

  /** Updating one entry moves the sum by exactly that entry's change. */
  lemma SumUpdate<K>(m: map<K, nat>, k: K, v: nat)
    ensures Sum(m[k := v]) + Get(m, k) == Sum(m) + v
  {
    SumRemove(m[k := v], k);
    assert m[k := v] - {k} == m - {k};
    if k in m {
      SumRemove(m, k);
    } else {
      assert m - {k} == m;
    }
  }

  lemma SumDrop<K>(m: map<K, nat>, k: K)
    ensures Sum(m - {k}) + Get(m, k) == Sum(m)
  {
    if k in m {
      SumRemove(m, k);
    } else {
      assert m - {k} == m;
    }
  }

  lemma OneMoreTime(n: nat, next: nat, most: nat)
    requires next == n + 1
    ensures n * most + most == next * most
  {
  }

  lemma {:induction false} SumAtMost<K(!new)>(m: map<K, nat>, most: nat)
    requires forall k :: k in m ==> m[k] <= most
    ensures Sum(m) <= |m| * most
    decreases m.Keys
  {
    if m != map[] {
      var k := Pick(m);
      assert (m - {k}).Keys == m.Keys - {k};
      SumAtMost(m - {k}, most);
      OneMoreTime(|m - {k}|, |m|, most);
    }
  }

  /** Pointwise bounds carry over to the sums. */
  lemma {:induction false} SumBounded<K(!new)>(m: map<K, nat>, n: map<K, nat>, bound: map<K, nat>)
    requires m.Keys == n.Keys == bound.Keys
    requires forall k :: k in m ==> m[k] + n[k] <= bound[k]
    ensures Sum(m) + Sum(n) <= Sum(bound)
    decreases m.Keys
  {
    if m != map[] {
      var k := Pick(m);
      SumRemove(n, k);
      SumRemove(bound, k);
      assert (m - {k}).Keys == m.Keys - {k} == (n - {k}).Keys == (bound - {k}).Keys;
      SumBounded(m - {k}, n - {k}, bound - {k});
    } else {
      assert n == map[] && bound == map[];
    }
  }

  /** Pointwise sums carry over to the sums. */
  lemma {:induction false} SumSplit<K(!new)>(m: map<K, nat>, n: map<K, nat>, whole: map<K, nat>)
    requires m.Keys == n.Keys == whole.Keys
    requires forall k :: k in m ==> m[k] + n[k] == whole[k]
    ensures Sum(m) + Sum(n) == Sum(whole)
    decreases m.Keys
  {
    if m != map[] {
      var k := Pick(m);
      SumRemove(n, k);
      SumRemove(whole, k);
      assert (m - {k}).Keys == m.Keys - {k} == (n - {k}).Keys == (whole - {k}).Keys;
      SumSplit(m - {k}, n - {k}, whole - {k});
    } else {
      assert n == map[] && whole == map[];
    }
  }

  lemma {:induction false} SumZero<K(!new)>(m: map<K, nat>)
    requires forall k :: k in m ==> m[k] == 0
    ensures Sum(m) == 0
    decreases m.Keys
  {
    if m != map[] {
      var k := Pick(m);
      assert (m - {k}).Keys == m.Keys - {k};
      SumZero(m - {k});
    }
  }
}
