// Reading the groups out of the disjoint sets: `Sets` and the grouping loop it
// shares with `unionFind.clusters` (internal/merge/cluster.go).
module Grouping {
  import opened Ordering
  import opened Connectivity
  import opened DisjointSets

  // The positions below `n` whose representative is `r`, ascending.
  function ClassOf(root: seq<nat>, r: nat, n: nat): seq<nat>
    requires n <= |root|
  {
    if n == 0 then []
    else ClassOf(root, r, n - 1) + if root[n - 1] == r then [n - 1] else []
  }

  lemma {:induction false} ClassHolds(root: seq<nat>, r: nat, n: nat)
    requires n <= |root|
    ensures forall i :: i in ClassOf(root, r, n) <==> 0 <= i < n && root[i] == r
    ensures Ascending(ClassOf(root, r, n))
    decreases n
  {
    if n > 0 {
      ClassHolds(root, r, n - 1);
      var before := ClassOf(root, r, n - 1);
      forall k | 0 <= k < |before|
        ensures before[k] < n - 1
      {
        assert before[k] in before;
      }
    }
  }

  predicate Ascending(s: seq<nat>) {
    forall i, j :: 0 <= i < j < |s| ==> s[i] < s[j]
  }

  predicate ByFirst(a: seq<nat>, b: seq<nat>) {
    a == [] || (b != [] && a[0] <= b[0])
  }

  lemma ByFirstOrder()
    ensures TotalPreorder(ByFirst)
  {
  }

  ghost predicate Covered(out: seq<seq<nat>>, i: nat) {
    exists k :: 0 <= k < |out| && i in out[k]
  }

  // The finest grouping of 0..n-1 in which every given pair is together, each
  // group ascending and the groups ordered by their least position.
  ghost predicate Groups(n: nat, links: Links, out: seq<seq<nat>>) {
    && (forall k :: 0 <= k < |out| ==> out[k] != [] && Ascending(out[k]))
    && (forall k, l :: 0 <= k < l < |out| ==> out[k][0] < out[l][0])
    && (forall i: nat :: i < n ==> Covered(out, i))
    && (forall k, i :: 0 <= k < |out| && i in out[k] ==> i < n)
    && (forall k, l, i, j :: 0 <= k < |out| && 0 <= l < |out| && i in out[k] && j in out[l]
          ==> (k == l <==> Connected(links, i, j)))
  }

  // `Groups` leaves no freedom: two answers that satisfy it are one and the same list.
  lemma GroupsDetermined(n: nat, links: Links, x: seq<seq<nat>>, y: seq<seq<nat>>)
    requires Groups(n, links, x) && Groups(n, links, y)
    ensures x == y
  {
    forall g
      ensures g in x <==> g in y
    {
      if g in x {
        var k :| 0 <= k < |x| && x[k] == g;
        GroupInBoth(n, links, x, y, k);
      }
      if g in y {
        var k :| 0 <= k < |y| && y[k] == g;
        GroupInBoth(n, links, y, x, k);
      }
    }
    hide Groups, Connected;
    FamiliesSame(x, y);
  }

  ghost predicate FirstsRise(x: seq<seq<nat>>) {
    && (forall k :: 0 <= k < |x| ==> x[k] != [])
    && (forall k, l :: 0 <= k < l < |x| ==> x[k][0] < x[l][0])
  }

  lemma {:induction false} FamiliesSame(x: seq<seq<nat>>, y: seq<seq<nat>>)
    requires FirstsRise(x) && FirstsRise(y)
    requires forall g :: g in x <==> g in y
    ensures x == y
    decreases |x|
  {
    assert x != [] ==> x[0] in x && x[0] in y;
    assert y != [] ==> y[0] in y && y[0] in x;
    if x != [] {
      HeadIsLeast(x, y[0]);
      HeadIsLeast(y, x[0]);
      assert x[0] == y[0];
      forall g
        ensures g in x[1..] <==> g in y[1..]
      {
        TailHas(x, g);
        TailHas(y, g);
      }
      assert x == [x[0]] + x[1..] && y == [y[0]] + y[1..];
      FamiliesSame(x[1..], y[1..]);
    }
  }

  lemma HeadIsLeast(x: seq<seq<nat>>, g: seq<nat>)
    requires FirstsRise(x) && g in x
    ensures x != [] && g != [] && x[0] != [] && x[0][0] <= g[0] && (x[0][0] == g[0] ==> g == x[0])
  {
    var k :| 0 <= k < |x| && x[k] == g;
  }

  lemma TailHas(x: seq<seq<nat>>, g: seq<nat>)
    requires FirstsRise(x) && x != []
    ensures g in x[1..] <==> g in x && g != x[0]
  {
    if g in x[1..] {
      var k :| 0 <= k < |x[1..]| && x[1..][k] == g;
      assert x[k + 1] == g;
    }
    if g in x && g != x[0] {
      var k :| 0 <= k < |x| && x[k] == g;
      assert x[1..][k - 1] == g;
    }
  }

  lemma GroupInBoth(n: nat, links: Links, x: seq<seq<nat>>, y: seq<seq<nat>>, k: nat)
    requires Groups(n, links, x) && Groups(n, links, y) && k < |x|
    ensures x[k] in y
  {
    var i := x[k][0];
    assert i in x[k] && i < n;
    assert Covered(y, i);
    var l :| 0 <= l < |y| && i in y[l];
    forall j
      ensures j in x[k] <==> j in y[l]
    {
      if j in x[k] {
        assert Connected(links, i, j);
        assert Covered(y, j);
        var m :| 0 <= m < |y| && j in y[m];
        assert m == l;
      }
      if j in y[l] {
        assert Connected(links, i, j);
        assert Covered(x, j);
        var m :| 0 <= m < |x| && j in x[m];
        assert m == k;
      }
    }
    AscendingSame(x[k], y[l]);
  }

  lemma {:induction false} AscendingSame(a: seq<nat>, b: seq<nat>)
    requires Ascending(a) && Ascending(b)
    requires forall j :: j in a <==> j in b
    ensures a == b
    decreases |a|
  {
    assert a != [] ==> a[0] in a && a[0] in b;
    assert b != [] ==> b[0] in b && b[0] in a;
    if a != [] {
      assert a[0] in a;
      assert a[0] in b && b != [];
      assert b[0] in b;
      assert b[0] in a;
      assert a[0] == b[0];
      forall j
        ensures j in a[1..] <==> j in b[1..]
      {
        if j in a[1..] {
          assert j in a && j != a[0];
        }
        if j in b[1..] {
          assert j in b && j != b[0];
        }
      }
      AscendingSame(a[1..], b[1..]);
      assert a == [a[0]] + a[1..] && b == [b[0]] + b[1..];
    }
  }

  ghost predicate Root(root: seq<nat>, r: nat) {
    r < |root| && root[r] == r
  }

  // The filing of the positions below `n`.
  ghost predicate Filed(root: seq<nat>, members: map<nat, seq<nat>>, n: nat)
    requires n <= |root|
  {
    forall r: nat :: ClassOf(root, r, n) == if r in members then members[r] else []
  }

  function File(members: map<nat, seq<nat>>, r: nat, i: nat): map<nat, seq<nat>> {
    members[r := (if r in members then members[r] else []) + [i]]
  }

  lemma FiledStep(root: seq<nat>, members: map<nat, seq<nat>>, n: nat)
    requires n < |root| && Filed(root, members, n)
    ensures Filed(root, File(members, root[n], n), n + 1)
  {
    var members' := File(members, root[n], n);
    forall r: nat
      ensures ClassOf(root, r, n + 1) == if r in members' then members'[r] else []
    {
      assert ClassOf(root, r, n) == if r in members then members[r] else [];
    }
  }

  lemma FiledAll(root: seq<nat>, members: map<nat, seq<nat>>)
    requires Filed(root, members, |root|)
    requires forall r: nat :: r in members ==> Root(root, r)
    ensures forall r: nat :: r in members <==> Root(root, r)
    ensures forall r: nat :: r in members ==> members[r] == ClassOf(root, r, |root|)
  {
    forall r: nat | Root(root, r)
      ensures r in members
    {
      ClassHolds(root, r, |root|);
      assert r in ClassOf(root, r, |root|);
    }
    forall r: nat | r in members
      ensures members[r] == ClassOf(root, r, |root|)
    {
    }
  }

  // The grouping loop: every position is filed under its representative.
  method Members(sets: UnionFind) returns (members: map<nat, seq<nat>>)
    requires sets.Valid()
    modifies sets.parent
    ensures sets.Valid()
    ensures forall r: nat :: r in members <==> Root(sets.root, r)
    ensures forall r: nat :: r in members ==> members[r] == ClassOf(sets.root, r, |sets.root|)
  {
    members := map[];
    ghost var root := sets.root;
    var n := sets.parent.Length;
    assert n == |root|;
    for i := 0 to n
      invariant sets.Valid() && sets.root == root
      invariant forall r: nat :: r in members ==> Root(root, r)
      invariant Filed(root, members, i)
    {
      FiledStep(root, members, i);
      var r := sets.Find(i);
      members := File(members, r, i);
    }
    FiledAll(root, members);
  }

  // What the loop over `members` collects: one class for each representative.
  ghost predicate Classes(root: seq<nat>, keys: seq<nat>, lists: seq<seq<nat>>) {
    && |keys| == |lists| && Distinct(keys)
    && (forall r: nat :: r in keys <==> Root(root, r))
    && (forall k :: 0 <= k < |keys| ==> lists[k] == ClassOf(root, keys[k], |root|))
  }

  lemma ClassAt(root: seq<nat>, keys: seq<nat>, lists: seq<seq<nat>>, k: nat)
    requires Classes(root, keys, lists) && k < |lists|
    ensures forall i: nat :: i in lists[k] <==> i < |root| && root[i] == keys[k]
    ensures lists[k] != [] && Ascending(lists[k])
  {
    ClassHolds(root, keys[k], |root|);
    assert keys[k] in keys;
    assert keys[k] in lists[k];
  }

  lemma SameClass(root: seq<nat>, keys: seq<nat>, lists: seq<seq<nat>>, a: seq<nat>, b: seq<nat>, i: nat, j: nat)
    requires Classes(root, keys, lists)
    requires a in lists && b in lists && i in a && j in b
    ensures i < |root| && j < |root| && (a == b <==> root[i] == root[j])
  {
    var k :| 0 <= k < |lists| && a == lists[k];
    var l :| 0 <= l < |lists| && b == lists[l];
    ClassAt(root, keys, lists, k);
    ClassAt(root, keys, lists, l);
  }

  lemma ClassesDistinct(root: seq<nat>, keys: seq<nat>, lists: seq<seq<nat>>)
    requires Classes(root, keys, lists)
    ensures Distinct(lists)
  {
    forall k, l | 0 <= k < l < |lists|
      ensures lists[k] != lists[l]
    {
      ClassAt(root, keys, lists, k);
      ClassAt(root, keys, lists, l);
      assert keys[k] != keys[l];
      assert keys[k] in keys && keys[k] in lists[k];
    }
  }

  // The classes of all representatives, once sorted, are the groups.
  lemma ClassesAreGroups(root: seq<nat>, joins: set<Join>, keys: seq<nat>, lists: seq<seq<nat>>)
    requires Describes(root, joins) && Classes(root, keys, lists)
    requires forall i: nat :: i < |root| ==> Root(root, root[i])
    ensures Groups(|root|, LinksOf(joins), StableSort(lists, ByFirst))
  {
    var links, out := LinksOf(joins), StableSort(lists, ByFirst);
    ClassesDistinct(root, keys, lists);
    ByFirstOrder();
    SortKeepsDistinct(lists, ByFirst);
    SortSorts(lists, ByFirst);
    forall k | 0 <= k < |out|
      ensures out[k] in lists && out[k] != [] && Ascending(out[k])
    {
      assert out[k] in out;
      var m :| 0 <= m < |lists| && out[k] == lists[m];
      ClassAt(root, keys, lists, m);
    }
    forall i: nat | i < |root|
      ensures Covered(out, i)
    {
      assert Root(root, root[i]);
      var m :| 0 <= m < |keys| && keys[m] == root[i];
      ClassAt(root, keys, lists, m);
      assert lists[m] in out;
    }
    forall k, i | 0 <= k < |out| && i in out[k]
      ensures i < |root|
    {
      SameClass(root, keys, lists, out[k], out[k], i, i);
    }
    forall k, l, i, j | 0 <= k < |out| && 0 <= l < |out| && i in out[k] && j in out[l]
      ensures i < |root| && (k == l <==> Connected(links, i, j))
    {
      SameClass(root, keys, lists, out[k], out[l], i, j);
      SameRootIsConnected(root, joins, i, j);
    }
    forall k, l | 0 <= k < l < |out|
      ensures out[k][0] < out[l][0]
    {
      assert ByFirst(out[k], out[l]);
      SameClass(root, keys, lists, out[k], out[l], out[k][0], out[l][0]);
    }
  }

  // Positions outside the range are passed over, as the source does.
  function InRange(n: nat, pairs: seq<(int, int)>): Links {
    set k | 0 <= k < |pairs| && 0 <= pairs[k].0 < n && 0 <= pairs[k].1 < n :: (pairs[k].0 as nat, pairs[k].1 as nat)
  }

  method Sets(n: nat, pairs: seq<(int, int)>) returns (out: seq<seq<nat>>)
    ensures Groups(n, InRange(n, pairs), out)
  {
    var sets := new UnionFind(n);
    for k := 0 to |pairs|
      invariant fresh(sets) && fresh(sets.parent) && fresh(sets.score) && fresh(sets.signals)
      invariant sets.Valid() && sets.parent.Length == n
      invariant LinksOf(sets.joins) == InRange(n, pairs[..k])
    {
      var pair := pairs[k];
      ghost var before := sets.joins;
      InRangeStep(n, pairs, k);
      if !(pair.0 < 0 || pair.1 < 0 || pair.0 >= n || pair.1 >= n) {
        sets.Union(pair.0, pair.1, 0, {});
        LinksStep(before, Join(pair.0, pair.1, 0, {}));
      }
    }
    assert pairs[..|pairs|] == pairs;
    var members := Members(sets);
    var keys;
    keys, out := Listed(sets.root, members);
    RootsAreRoots(sets);
    ClassesAreGroups(sets.root, sets.joins, keys, out);
    out := StableSort(out, ByFirst);
  }

  lemma RootsAreRoots(sets: UnionFind)
    requires sets.Valid()
    ensures forall i: nat :: i < |sets.root| ==> Root(sets.root, sets.root[i])
  {
    forall i: nat | i < |sets.root|
      ensures Root(sets.root, sets.root[i])
    {
      assert Placed(sets.parent[..], sets.root, sets.rank, sets.top, i);
    }
  }

  // Map order is arbitrary, so the classes come out in any order.
  method Listed(ghost root: seq<nat>, members: map<nat, seq<nat>>) returns (keys: seq<nat>, out: seq<seq<nat>>)
    requires forall r: nat :: r in members <==> Root(root, r)
    requires forall r: nat :: r in members ==> members[r] == ClassOf(root, r, |root|)
    ensures Classes(root, keys, out)
  {
    var rest := members.Keys;
    keys, out := [], [];
    while rest != {}
      invariant rest <= members.Keys && |keys| == |out| && Distinct(keys)
      invariant forall r: nat :: r in keys <==> r in members && r !in rest
      invariant forall k :: 0 <= k < |keys| ==> out[k] == ClassOf(root, keys[k], |root|)
    {
      var r :| r in rest;
      // The positions of a class are ascending already, so sorting keeps them.
      ClassHolds(root, r, |root|);
      SortOfSorted(members[r], NatLeq);
      out := out + [StableSort(members[r], NatLeq)];
      keys := keys + [r];
      rest := rest - {r};
    }
  }

  lemma LinksStep(joins: set<Join>, j: Join)
    ensures LinksOf(joins + {j}) == LinksOf(joins) + {(j.a, j.b)}
  {
  }

  lemma InRangeStep(n: nat, pairs: seq<(int, int)>, k: nat)
    requires k < |pairs|
    ensures InRange(n, pairs[..k + 1]) == InRange(n, pairs[..k]) +
            if 0 <= pairs[k].0 < n && 0 <= pairs[k].1 < n then {(pairs[k].0 as nat, pairs[k].1 as nat)} else {}
  {
    var p := pairs[..k + 1];
    forall x | x in InRange(n, pairs[..k])
      ensures x in InRange(n, p)
    {
      var m :| 0 <= m < k && 0 <= pairs[m].0 < n && 0 <= pairs[m].1 < n && x == (pairs[m].0 as nat, pairs[m].1 as nat);
      assert p[m] == pairs[m];
    }
    assert p[k] == pairs[k];
  }
}
