/** Sums over the values of a finite map. */
module Totals {

  ghost function Total<K>(m: map<K, nat>): nat {
    if m.Keys == {} then 0
    else
      var k :| k in m.Keys;
      m[k] + Total(m - {k})
  }

  lemma TotalEmpty<K>(m: map<K, nat>)
    requires m.Keys == {}
    ensures Total(m) == 0
  {}

  /** Any key may be taken out first. */
  lemma {:induction false} TotalRemove<K>(m: map<K, nat>, k: K)
    requires k in m
    ensures Total(m) == m[k] + Total(m - {k})
    decreases |m|
  {
    var j :| j in m.Keys && Total(m) == m[j] + Total(m - {j});
    if j != k {
      Smaller(m, j);
      TotalRemove(m - {j}, k);
      Smaller(m, k);
      TotalRemove(m - {k}, j);
      assert m - {j} - {k} == m - {k} - {j};
    }
  }

  lemma Smaller<K>(m: map<K, nat>, k: K)
    requires k in m
    ensures |m - {k}| < |m|
  {
    assert (m - {k}).Keys == m.Keys - {k};
  }

  lemma TotalInsert<K>(m: map<K, nat>, k: K, v: nat)
    requires k !in m
    ensures Total(m[k := v]) == Total(m) + v
  {
    TotalRemove(m[k := v], k);
    assert m[k := v] - {k} == m;
  }

  lemma TotalUpdate<K>(m: map<K, nat>, k: K, v: nat)
    requires k in m
    ensures Total(m[k := v]) + m[k] == Total(m) + v
  {
    TotalRemove(m, k);
    TotalRemove(m[k := v], k);
    assert m[k := v] - {k} == m - {k};
  }

  lemma Distribute(n: nat, b: nat)
    requires n > 0
    ensures (n - 1) * b + b == n * b
  {}

  /** A sum of at most n values, each at most b. */
  lemma {:induction false} TotalBound<K>(m: map<K, nat>, b: nat, n: nat)
    requires |m| <= n && forall k :: k in m ==> m[k] <= b
    ensures Total(m) <= n * b
    decreases n
  {
    hide Total;
    if m.Keys == {} {
      TotalEmpty(m);
    } else {
      var k :| k in m.Keys;
      TotalRemove(m, k);
      Smaller(m, k);
      Distribute(n, b);
      TotalBound(m - {k}, b, n - 1);
    }
  }

  lemma {:induction false} TotalFloor<K>(m: map<K, nat>, b: nat)
    requires forall k :: k in m ==> b <= m[k]
    ensures |m| * b <= Total(m)
    decreases |m|
  {
    hide Total;
    if m.Keys != {} {
      var k :| k in m.Keys;
      TotalRemove(m, k);
      assert (m - {k}).Keys == m.Keys - {k};
      TotalFloor(m - {k}, b);
      Distribute(|m|, b);
    }
  }
}
