// Recency lists: duplicate-free enumerations of a map, most recent first, with
// the sum of the sizes of what they name (internal/session/cache.go).
module Recency {
  import opened Ordering

  ghost predicate Enumerates<K(!new)>(keys: seq<K>, held: set<K>) {
    Distinct(keys) && forall k :: k in keys <==> k in held
  }

  function Total<K(==,!new)>(keys: seq<K>, size: map<K, nat>): nat
    requires forall k :: k in keys ==> k in size
  {
    if keys == [] then 0 else Total(keys[..|keys| - 1], size) + size[keys[|keys| - 1]]
  }

  lemma TotalSnoc<K(!new)>(keys: seq<K>, k: K, size: map<K, nat>)
    requires forall x :: x in keys ==> x in size
    requires k in size
    ensures Total(keys + [k], size) == Total(keys, size) + size[k]
  {
    assert (keys + [k])[..|keys + [k]| - 1] == keys;
  }

  lemma {:induction false} TotalJoin<K(!new)>(a: seq<K>, b: seq<K>, size: map<K, nat>)
    requires forall x :: x in a + b ==> x in size
    ensures forall x :: x in a || x in b ==> x in size
    ensures Total(a + b, size) == Total(a, size) + Total(b, size)
    decreases |b|
  {
    forall x | x in a || x in b
      ensures x in size
    {
      assert x in a + b;
    }
    if b == [] {
      assert a + b == a;
    } else {
      var init, last := b[..|b| - 1], b[|b| - 1];
      assert a + b == (a + init) + [last];
      TotalJoin(a, init, size);
      TotalSnoc(a + init, last, size);
    }
  }

  lemma {:induction false} TotalSame<K(!new)>(keys: seq<K>, x: map<K, nat>, y: map<K, nat>)
    requires forall k :: k in keys ==> k in x && k in y && x[k] == y[k]
    ensures Total(keys, x) == Total(keys, y)
  {
    if keys != [] {
      TotalSame(keys[..|keys| - 1], x, y);
    }
  }

  /* ---- Moving, removing, filtering ---- */

  function Front<T>(s: seq<T>, i: nat, x: T): seq<T>
    requires i < |s|
  {
    [x] + s[..i] + s[i + 1..]
  }

  function Cut<T>(s: seq<T>, i: nat): seq<T>
    requires i < |s|
  {
    s[..i] + s[i + 1..]
  }

  lemma TotalCut<K(!new)>(keys: seq<K>, i: nat, size: map<K, nat>)
    requires i < |keys| && forall x :: x in keys ==> x in size
    ensures forall x :: x in Cut(keys, i) ==> x in size
    ensures Total(keys, size) == Total(Cut(keys, i), size) + size[keys[i]]
  {
    var a, b := keys[..i], keys[i + 1..];
    assert keys == (a + [keys[i]]) + b;
    TotalJoin(a + [keys[i]], b, size);
    TotalSnoc(a, keys[i], size);
    TotalJoin(a, b, size);
  }

  lemma TotalCons<K(!new)>(k: K, keys: seq<K>, size: map<K, nat>)
    requires k in size && forall x :: x in keys ==> x in size
    ensures Total([k] + keys, size) == size[k] + Total(keys, size)
  {
    TotalJoin([k], keys, size);
    assert [k] == [] + [k];
    TotalSnoc([], k, size);
  }

  lemma CutEnumerates<K(!new)>(keys: seq<K>, i: nat, held: set<K>)
    requires i < |keys| && Enumerates(keys, held)
    ensures Enumerates(Cut(keys, i), held - {keys[i]})
  {
    forall k
      ensures k in Cut(keys, i) <==> k in held - {keys[i]}
    {
      if k in held - {keys[i]} {
        var j :| 0 <= j < |keys| && keys[j] == k;
        assert k == Cut(keys, i)[if j < i then j else j - 1];
      }
    }
  }

  lemma ConsEnumerates<K(!new)>(k: K, keys: seq<K>, held: set<K>)
    requires k !in held && Enumerates(keys, held)
    ensures Enumerates([k] + keys, held + {k})
  {
  }

  lemma LastEnumerates<K(!new)>(keys: seq<K>, held: set<K>)
    requires keys != [] && Enumerates(keys, held)
    ensures keys[|keys| - 1] in held
    ensures Enumerates(keys[..|keys| - 1], held - {keys[|keys| - 1]})
  {
    var n := |keys| - 1;
    assert Cut(keys, n) == keys[..n];
    CutEnumerates(keys, n, held);
    assert keys[n] in keys;
  }

  lemma TotalLast<K(!new)>(keys: seq<K>, size: map<K, nat>)
    requires keys != [] && forall x :: x in keys ==> x in size
    ensures forall x :: x in keys[..|keys| - 1] ==> x in size
    ensures Total(keys, size) == Total(keys[..|keys| - 1], size) + size[keys[|keys| - 1]]
  {
  }

  // Removing a set of keys from both sides.
  lemma ExceptEnumerates<K(!new)>(keys: seq<K>, held: set<K>, gone: set<K>)
    requires Enumerates(keys, held)
    ensures Enumerates(Except(keys, gone), held - gone)
  {
    ExceptKeeps(keys, gone);
  }

  lemma TotalExceptOne<K(!new)>(keys: seq<K>, size: map<K, nat>, k: K)
    requires Distinct(keys) && k in keys && forall x :: x in keys ==> x in size
    ensures forall x :: x in Except(keys, {k}) ==> x in size
    ensures Total(keys, size) == Total(Except(keys, {k}), size) + size[k]
  {
    var i :| 0 <= i < |keys| && keys[i] == k;
    TotalCut(keys, i, size);
    CutIsExcept(keys, i);
  }

  lemma CutIsExcept<K(!new)>(keys: seq<K>, i: nat)
    requires Distinct(keys) && i < |keys|
    ensures Cut(keys, i) == Except(keys, {keys[i]})
  {
    assert keys == keys[..i] + [keys[i]] + keys[i + 1..];
    ExceptMiddle(keys[..i], keys[i], keys[i + 1..]);
  }

  ghost predicate Submap<K(!new), V(!new)>(a: map<K, V>, b: map<K, V>) {
    forall k :: k in a ==> k in b && a[k] == b[k]
  }

  /* ---- The longest most-recent prefix that fits ---- */

  ghost predicate Fits<K(!new)>(keys: seq<K>, size: map<K, nat>, n: nat, count: nat, bytes: nat)
    requires forall k :: k in keys ==> k in size
  {
    n <= |keys| && n <= count && Total(keys[..n], size) <= bytes
  }

  function Fit<K(==,!new)>(keys: seq<K>, size: map<K, nat>, count: nat, bytes: nat): (n: nat)
    requires forall k :: k in keys ==> k in size
    ensures n <= |keys|
  {
    if |keys| <= count && Total(keys, size) <= bytes then |keys|
    else Fit(keys[..|keys| - 1], size, count, bytes)
  }

  lemma {:induction false} FitIsLongest<K(!new)>(keys: seq<K>, size: map<K, nat>, count: nat, bytes: nat)
    requires forall k :: k in keys ==> k in size
    ensures Fits(keys, size, Fit(keys, size, count, bytes), count, bytes)
    ensures forall n: nat :: Fits(keys, size, n, count, bytes) ==> n <= Fit(keys, size, count, bytes)
    decreases |keys|
  {
    assert keys[..|keys|] == keys;
    if !(|keys| <= count && Total(keys, size) <= bytes) {
      var init := keys[..|keys| - 1];
      FitIsLongest(init, size, count, bytes);
      forall n: nat | n < |keys|
        ensures init[..n] == keys[..n]
      {
      }
      forall n: nat | Fits(keys, size, n, count, bytes)
        ensures n <= Fit(init, size, count, bytes)
      {
        assert n < |keys|;
        assert Fits(init, size, n, count, bytes);
      }
    }
  }

}
