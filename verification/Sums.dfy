// The sum of the values of a map.
module Sums {

  ghost function SumOf<K>(m: map<K, int>): int
    decreases |m|
  {
    if m == map[] then 0
    else
      var k :| k in m;
      m[k] + SumOf(m - {k})
  }

  lemma {:induction false} SumPick<K>(m: map<K, int>, k: K)
    requires k in m
    ensures SumOf(m) == m[k] + SumOf(m - {k})
    decreases |m|
  {
    assert m != map[];
    var p :| p in m && SumOf(m) == m[p] + SumOf(m - {p});
    if p != k {
      SumPick(m - {p}, k);
      SumPick(m - {k}, p);
      assert m - {p} - {k} == m - {k} - {p};
    }
  }

  // Changing one entry moves the sum by the difference.
  lemma SumUpdate<K>(m: map<K, int>, k: K, n: int)
    ensures SumOf(m[k := n]) == SumOf(m - {k}) + n
    ensures k in m ==> SumOf(m[k := n]) == SumOf(m) - m[k] + n
    ensures k !in m ==> SumOf(m[k := n]) == SumOf(m) + n
  {
    SumPick(m[k := n], k);
    assert m[k := n] - {k} == m - {k};
    if k in m {
      SumPick(m, k);
    } else {
      assert m - {k} == m;
    }
  }

  lemma {:induction false} SumNonNegative<K>(m: map<K, int>)
    requires forall k :: k in m ==> m[k] >= 0
    ensures SumOf(m) >= 0
    decreases |m|
  {
    if m != map[] {
      var k :| k in m;
      SumPick(m, k);
      SumNonNegative(m - {k});
    }
  }

  // Entries of zero do not count.
  lemma {:induction false} SumOfPositive<K>(m: map<K, int>)
    requires forall k :: k in m ==> m[k] >= 0
    ensures SumOf(m) == SumOf(map k | k in m && m[k] > 0 :: m[k])
    decreases |m|
  {
    var positive := map k | k in m && m[k] > 0 :: m[k];
    if m == map[] {
      assert positive == m;
    } else {
      var k :| k in m;
      var rest := m - {k};
      SumPick(m, k);
      SumOfPositive(rest);
      var restPositive := map x | x in rest && rest[x] > 0 :: rest[x];
      if m[k] > 0 {
        SumPick(positive, k);
        assert positive - {k} == restPositive;
      } else {
        assert positive == restPositive;
      }
    }
  }
}
