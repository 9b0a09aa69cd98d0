/** Sums of a weight over a finite map, and how they change when one key changes. */
module Totals {

  ghost function Pick<K, V>(m: map<K, V>): (k: K)
    requires m != map[]
    ensures k in m
  {
    var k :| k in m;
    k
  }

  ghost function Total<K>(m: map<K, nat>): nat
    decreases |m|
  {
    if m == map[] then 0
    else
      var k := Pick(m);
      Smaller(m, k);
      m[k] + Total(m - {k})
  }

  lemma Smaller<K, V>(m: map<K, V>, k: K)
    requires k in m
    ensures |m - {k}| == |m| - 1
  {
  }

  lemma {:induction false} Remove<K>(m: map<K, nat>, k: K)
    requires k in m
    ensures Total(m) == m[k] + Total(m - {k})
    decreases |m|
  {
    var p := Pick(m);
    if p != k {
      Smaller(m, p);
      Smaller(m, k);
      Remove(m - {p}, k);
      Remove(m - {k}, p);
      assert (m - {p}) - {k} == (m - {k}) - {p};
    }
  }

  lemma Insert<K>(m: map<K, nat>, k: K, w: nat)
    ensures Total(m[k := w]) == Total(m) - (if k in m then m[k] else 0) + w
  {
    Remove(m[k := w], k);
    assert m[k := w] - {k} == m - {k};
    if k in m {
      Remove(m, k);
    } else {
      assert m - {k} == m;
    }
  }

  lemma {:induction false} Monotone<K>(m: map<K, nat>, m': map<K, nat>)
    requires m.Keys <= m'.Keys
    requires forall k :: k in m ==> m[k] <= m'[k]
    ensures Total(m) <= Total(m')
    decreases |m|
  {
    if m != map[] {
      var k := Pick(m);
      Smaller(m, k);
      Monotone(m - {k}, m' - {k});
      Remove(m', k);
    }
  }

  lemma {:induction false} DropZeros<K>(m: map<K, nat>, ks: set<K>)
    requires forall k :: k in ks ==> k in m && m[k] == 0
    ensures Total(m - ks) == Total(m)
  {
    if ks == {} {
      assert m - ks == m;
    } else {
      var k :| k in ks;
      Remove(m, k);
      DropZeros(m - {k}, ks - {k});
      assert m - {k} - (ks - {k}) == m - ks;
    }
  }

  lemma {:induction false} Zero<K>(m: map<K, nat>)
    requires forall k :: k in m ==> m[k] == 0
    ensures Total(m) == 0
    decreases |m|
  {
    if m != map[] {
      Smaller(m, Pick(m));
      Zero(m - {Pick(m)});
    }
  }
}
