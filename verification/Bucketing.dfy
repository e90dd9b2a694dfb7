// The bucket index of duplicate detection, apart from what the keys are: every
// position is filed under each of its keys, and the pairs of places in one
// bucket are the pairs that get scored (internal/merge/cluster.go).
module Bucketing {
  import opened Ordering

  type Pairs = set<(nat, nat)>

  function MembersOf<K>(buckets: map<K, seq<nat>>, key: K): seq<nat> {
    if key in buckets then buckets[key] else []
  }

  // How often position `i` has been filed under `key` once the positions below
  // `n`, and the first `m` keys of position `n`, have been filed.
  function Filings<K(==)>(keys: seq<seq<K>>, n: nat, m: nat, key: K, i: nat): nat
    requires n < |keys| ==> m <= |keys[n]|
  {
    if i < n && i < |keys| then multiset(keys[i])[key]
    else if i == n && n < |keys| then multiset(keys[n][..m])[key]
    else 0
  }

  ghost predicate InOrder(s: seq<nat>, bound: nat) {
    && (forall i, j :: 0 <= i < j < |s| ==> s[i] <= s[j])
    && (forall i :: 0 <= i < |s| ==> s[i] <= bound)
  }

  ghost predicate FiledUnder<K>(keys: seq<seq<K>>, n: nat, m: nat, key: K, members: seq<nat>)
    requires n < |keys| ==> m <= |keys[n]|
  {
    && InOrder(members, n)
    && forall i: nat :: multiset(members)[i] == Filings(keys, n, m, key, i)
  }

  ghost predicate Bucketed<K(!new)>(keys: seq<seq<K>>, buckets: map<K, seq<nat>>, n: nat, m: nat)
    requires n < |keys| ==> m <= |keys[n]|
  {
    forall key :: FiledUnder(keys, n, m, key, MembersOf(buckets, key))
  }

  lemma FileOne<K(!new)>(keys: seq<seq<K>>, n: nat, m: nat, key: K, members: seq<nat>)
    requires n < |keys| && m < |keys[n]| && FiledUnder(keys, n, m, key, members)
    ensures FiledUnder(keys, n, m + 1, key, if key == keys[n][m] then members + [n] else members)
  {
    var members': seq<nat> := if key == keys[n][m] then members + [n] else members;
    forall i: nat
      ensures multiset(members')[i] == Filings(keys, n, m + 1, key, i)
    {
      assert multiset(members)[i] == Filings(keys, n, m, key, i);
      OneMoreFiling(keys, n, m, key, i);
      hide Filings;
    }
    hide Filings;
  }

  lemma OneMoreFiling<K>(keys: seq<seq<K>>, n: nat, m: nat, key: K, i: nat)
    requires n < |keys| && m < |keys[n]|
    ensures Filings(keys, n, m + 1, key, i) == Filings(keys, n, m, key, i) + if i == n && key == keys[n][m] then 1 else 0
  {
    assert keys[n][..m + 1] == keys[n][..m] + [keys[n][m]];
  }

  lemma FileKey<K(!new)>(keys: seq<seq<K>>, buckets: map<K, seq<nat>>, n: nat, m: nat)
    requires n < |keys| && m < |keys[n]| && Bucketed(keys, buckets, n, m)
    ensures Bucketed(keys, buckets[keys[n][m] := MembersOf(buckets, keys[n][m]) + [n]], n, m + 1)
  {
    var buckets' := buckets[keys[n][m] := MembersOf(buckets, keys[n][m]) + [n]];
    forall key
      ensures FiledUnder(keys, n, m + 1, key, MembersOf(buckets', key))
    {
      assert FiledUnder(keys, n, m, key, MembersOf(buckets, key));
      FileOne(keys, n, m, key, MembersOf(buckets, key));
    }
  }

  lemma NextPosition<K(!new)>(keys: seq<seq<K>>, buckets: map<K, seq<nat>>, n: nat)
    requires n < |keys| && Bucketed(keys, buckets, n, |keys[n]|)
    ensures Bucketed(keys, buckets, n + 1, 0)
  {
    assert keys[n][..|keys[n]|] == keys[n];
    forall key
      ensures FiledUnder(keys, n + 1, 0, key, MembersOf(buckets, key))
    {
      assert FiledUnder(keys, n, |keys[n]|, key, MembersOf(buckets, key));
    }
  }

  // The pairs of places p < q of a list, up to place (i, j) in loop order.
  ghost function PairsUpTo(members: seq<nat>, i: nat, j: nat): Pairs
    requires i <= |members| && j <= |members|
  {
    set p, q | 0 <= p < q < |members| && (p < i || (p == i && q < j)) :: (members[p], members[q])
  }

  ghost function PairsOf(members: seq<nat>): Pairs {
    PairsUpTo(members, |members|, 0)
  }

  ghost function PairsUnder<K>(buckets: map<K, seq<nat>>, keys: set<K>): Pairs
    requires keys <= buckets.Keys
  {
    set key, p | key in keys && p in PairsOf(buckets[key]) :: p
  }

  lemma PairsUnderStep<K>(buckets: map<K, seq<nat>>, keys: set<K>, key: K)
    requires keys <= buckets.Keys && key in buckets
    ensures PairsUnder(buckets, keys + {key}) == PairsUnder(buckets, keys) + PairsOf(buckets[key])
  {
  }

  lemma NextPlace(members: seq<nat>, i: nat, j: nat)
    requires i < j < |members|
    ensures PairsUpTo(members, i, j + 1) == PairsUpTo(members, i, j) + {(members[i], members[j])}
  {
  }

  lemma NextRow(members: seq<nat>, i: nat)
    requires i < |members|
    ensures PairsUpTo(members, i, 0) == PairsUpTo(members, i, i + 1)
    ensures PairsUpTo(members, i, |members|) == PairsUpTo(members, i + 1, 0)
  {
  }

  // Positions with a key in common, and a position with itself when one of its
  // keys occurs twice.
  ghost predicate Meets<K(!new)>(keys: seq<seq<K>>, a: nat, b: nat) {
    && a <= b < |keys|
    && if a < b then exists key :: key in keys[a] && key in keys[b]
       else !Distinct(keys[a])
  }

  lemma PairsMeet<K(!new)>(keys: seq<seq<K>>, buckets: map<K, seq<nat>>, a: nat, b: nat)
    requires Bucketed(keys, buckets, |keys|, 0)
    ensures (a, b) in PairsUnder(buckets, buckets.Keys) <==> Meets(keys, a, b)
  {
    if (a, b) in PairsUnder(buckets, buckets.Keys) {
      var key, pair :| key in buckets && pair in PairsOf(buckets[key]) && pair == (a, b);
      PairedMeets(keys, buckets, key, a, b);
    }
    if Meets(keys, a, b) {
      var key := MeetingKey(keys, a, b);
      MeetingPaired(keys, buckets, key, a, b);
      assert (a, b) in PairsOf(buckets[key]);
    }
  }

  lemma {:induction false} CountTwice(s: seq<nat>, p: nat, q: nat)
    requires p < q < |s| && s[p] == s[q]
    ensures multiset(s)[s[p]] >= 2
  {
    assert s == [s[0]] + s[1..];
    if p == 0 {
      assert s[q] == s[1..][q - 1];
      assert s[q] in multiset(s[1..]);
    } else {
      CountTwice(s[1..], p - 1, q - 1);
    }
  }

  lemma {:induction false} FindTwice(s: seq<nat>, x: nat) returns (p: nat, q: nat)
    requires multiset(s)[x] >= 2
    ensures p < q < |s| && s[p] == x && s[q] == x
  {
    assert s == [s[0]] + s[1..];
    if s[0] == x {
      assert x in multiset(s[1..]);
      var k :| 0 <= k < |s[1..]| && s[1..][k] == x;
      p, q := 0, k + 1;
    } else {
      p, q := FindTwice(s[1..], x);
      p, q := p + 1, q + 1;
    }
  }

  lemma PairedMeets<K(!new)>(keys: seq<seq<K>>, buckets: map<K, seq<nat>>, key: K, a: nat, b: nat)
    requires Bucketed(keys, buckets, |keys|, 0) && key in buckets && (a, b) in PairsOf(buckets[key])
    ensures Meets(keys, a, b)
  {
    var list := MembersOf(buckets, key);
    var p, q :| 0 <= p < q < |list| && list[p] == a && list[q] == b;
    assert FiledUnder(keys, |keys|, 0, key, list);
    assert a in multiset(list) && b in multiset(list);
    assert multiset(list)[a] == Filings(keys, |keys|, 0, key, a);
    assert multiset(list)[b] == Filings(keys, |keys|, 0, key, b);
    if a < b {
      assert key in multiset(keys[a]) && key in multiset(keys[b]);
      assert key in keys[a] && key in keys[b];
    } else {
      CountTwice(list, p, q);
      DistinctCounts(keys[a]);
      assert key in multiset(keys[a]);
    }
  }

  // A key two positions meet under, and how often they carry it.
  lemma MeetingKey<K(!new)>(keys: seq<seq<K>>, a: nat, b: nat) returns (key: K)
    requires Meets(keys, a, b)
    ensures key in keys[a] && key in keys[b]
    ensures a == b ==> multiset(keys[a])[key] >= 2
  {
    if a < b {
      key :| key in keys[a] && key in keys[b];
    } else {
      DistinctCounts(keys[a]);
      key :| key in keys[a] && multiset(keys[a])[key] != 1;
      assert key in multiset(keys[a]);
    }
  }

  lemma MeetingPaired<K(!new)>(keys: seq<seq<K>>, buckets: map<K, seq<nat>>, key: K, a: nat, b: nat)
    requires Bucketed(keys, buckets, |keys|, 0) && a <= b < |keys|
    requires key in keys[a] && key in keys[b]
    requires a == b ==> multiset(keys[a])[key] >= 2
    ensures key in buckets && (a, b) in PairsOf(buckets[key])
  {
    var list := MembersOf(buckets, key);
    assert FiledUnder(keys, |keys|, 0, key, list);
    assert key in multiset(keys[a]) && key in multiset(keys[b]);
    assert multiset(list)[a] == Filings(keys, |keys|, 0, key, a);
    assert multiset(list)[b] == Filings(keys, |keys|, 0, key, b);
    assert a in multiset(list) && b in multiset(list);
    var p: nat, q: nat;
    if a < b {
      p :| 0 <= p < |list| && list[p] == a;
      q :| 0 <= q < |list| && list[q] == b;
    } else {
      p, q := FindTwice(list, a);
    }
    assert p < q;
    assert (list[p], list[q]) in PairsUpTo(list, |list|, 0);
  }
}
