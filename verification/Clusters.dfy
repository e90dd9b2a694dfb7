// Duplicate detection. What the bucketed search finds is stated as the components of a
// graph over all records, and above a threshold of fifty no pair is lost by the buckets
// (internal/merge/cluster.go).
module Clustering {
  import opened Ordering
  import opened Connectivity
  import opened DisjointSets
  import opened Grouping
  import opened Bucketing
  import opened Scoring

  type Buckets = map<BucketKey, seq<nat>>

  datatype Options = Options(threshold: int, skip: (nat, nat) -> bool)

  function EffectiveThreshold(opts: Options): int {
    if opts.threshold <= 0 then DefaultThreshold else opts.threshold
  }

  datatype Cluster = Cluster(indexes: seq<nat>, score: nat, signals: seq<string>)

  /* ---- The pairs that get scored ---- */

  // A blank fingerprint is filed nowhere.
  function KeysOf(f: Fingerprint): seq<BucketKey> {
    if Empty(f) then [] else BucketsOf(f)
  }

  function AllKeys(prints: seq<Fingerprint>): seq<seq<BucketKey>> {
    seq(|prints|, i requires 0 <= i < |prints| => KeysOf(prints[i]))
  }

  method FillBuckets(prints: seq<Fingerprint>, ghost keys: seq<seq<BucketKey>>) returns (buckets: Buckets)
    requires keys == AllKeys(prints)
    ensures Bucketed(keys, buckets, |prints|, 0)
  {
    buckets := map[];
    for i := 0 to |prints|
      invariant Bucketed(keys, buckets, i, 0)
    {
      buckets := FilePrint(prints[i], i, keys, buckets);
    }
  }

  // One turn of the outer filing loop.
  method FilePrint(f: Fingerprint, i: nat, ghost keys: seq<seq<BucketKey>>, before: Buckets) returns (buckets: Buckets)
    requires i < |keys| && keys[i] == KeysOf(f) && Bucketed(keys, before, i, 0)
    ensures Bucketed(keys, buckets, i + 1, 0)
  {
    buckets := before;
    if Empty(f) {
      NextPosition(keys, buckets, i);
      return;
    }
    var own := Scoring.Buckets(f);
    for m := 0 to |own|
      invariant Bucketed(keys, buckets, i, m)
    {
      FileKey(keys, buckets, i, m);
      buckets := buckets[own[m] := MembersOf(buckets, own[m]) + [i]];
    }
    NextPosition(keys, buckets, i);
  }

  /* ---- From scored pairs to clusters ---- */

  ghost predicate Passes(prints: seq<Fingerprint>, opts: Options, a: nat, b: nat)
    requires a < |prints| && b < |prints|
  {
    !opts.skip(a, b) && ScoreOf(prints[a], prints[b]).points >= EffectiveThreshold(opts)
  }

  ghost function JoinOf(prints: seq<Fingerprint>, a: nat, b: nat): Join
    requires a < |prints| && b < |prints|
  {
    var scored := ScoreOf(prints[a], prints[b]);
    Join(a, b, scored.points, scored.signals)
  }

  ghost function JoinsOf(prints: seq<Fingerprint>, opts: Options, pairs: Pairs): set<Join> {
    set p | p in pairs && p.0 < |prints| && p.1 < |prints| && Passes(prints, opts, p.0, p.1) :: JoinOf(prints, p.0, p.1)
  }

  // The pairs the buckets bring together, and all pairs.
  ghost function MeetingPairs(prints: seq<Fingerprint>): Pairs {
    set a, b | 0 <= a < |prints| && 0 <= b < |prints| && Meets(AllKeys(prints), a, b) :: (a, b)
  }

  ghost function AllPairs(n: nat): Pairs {
    set a, b | 0 <= a < n && 0 <= b < n && a < b :: (a, b)
  }

  lemma PassingPairMeets(prints: seq<Fingerprint>, opts: Options, a: nat, b: nat)
    requires EffectiveThreshold(opts) > 50
    requires a < |prints| && b < |prints| && WellFormed(prints[a]) && Passes(prints, opts, a, b)
    ensures Meets(AllKeys(prints), a, b) <==> a < b
  {
    var keys := AllKeys(prints);
    assert keys[a] == KeysOf(prints[a]) && keys[b] == KeysOf(prints[b]);
    if a < b {
      AboveFiftySharesBucket(prints[a], prints[b]);
      var key :| key in BucketsOf(prints[a]) && key in BucketsOf(prints[b]);
      assert key in keys[a] && key in keys[b];
    } else if a == b {
      BucketsDistinct(prints[a]);
    }
  }

  // Above 50 the bucketed search joins exactly what an exhaustive comparison would.
  lemma BucketedEqualsExhaustive(prints: seq<Fingerprint>, opts: Options)
    requires EffectiveThreshold(opts) > 50
    requires forall i :: 0 <= i < |prints| ==> WellFormed(prints[i])
    ensures JoinsOf(prints, opts, MeetingPairs(prints)) == JoinsOf(prints, opts, AllPairs(|prints|))
  {
    forall a: nat, b: nat | a < |prints| && b < |prints| && Passes(prints, opts, a, b)
      ensures (a, b) in MeetingPairs(prints) <==> (a, b) in AllPairs(|prints|)
    {
      PassingPairMeets(prints, opts, a, b);
    }
  }

  // With no threshold of one's own, two records are joined exactly when they are not
  // skipped and something identifies them as one.
  lemma DefaultJoinsExactly(prints: seq<Fingerprint>, opts: Options, a: nat, b: nat)
    requires opts.threshold <= 0 && a < b < |prints|
    ensures (a, b) in LinksOf(JoinsOf(prints, opts, AllPairs(|prints|))) <==>
              !opts.skip(a, b) && Comparable(prints[a], prints[b]) && Identified(prints[a], prints[b])
  {
    ReachesDefaultExactly(prints[a], prints[b]);
    JoinsAreThose(prints, opts, a, b);
    hide Identified, ScoreOf, JoinsOf;
  }

  // Any other threshold is the number itself.
  lemma JoinsExactly(prints: seq<Fingerprint>, opts: Options, a: nat, b: nat)
    requires opts.threshold > 0 && a < b < |prints|
    ensures (a, b) in LinksOf(JoinsOf(prints, opts, AllPairs(|prints|))) <==>
              !opts.skip(a, b) && ScoreOf(prints[a], prints[b]).points >= opts.threshold
  {
    JoinsAreThose(prints, opts, a, b);
    hide ScoreOf, JoinsOf;
  }

  lemma JoinsAreThose(prints: seq<Fingerprint>, opts: Options, a: nat, b: nat)
    requires a < b < |prints|
    ensures (a, b) in LinksOf(JoinsOf(prints, opts, AllPairs(|prints|))) <==> Passes(prints, opts, a, b)
  {
    hide ScoreOf;
    var joins := JoinsOf(prints, opts, AllPairs(|prints|));
    if Passes(prints, opts, a, b) {
      assert (a, b) in AllPairs(|prints|);
      assert JoinOf(prints, a, b) in joins;
    }
  }

  // The connected components of two or more, each with what its pairs amount to: the
  // highest score and all signals.
  ghost predicate Clustered(joins: set<Join>, n: nat, out: seq<Cluster>) {
    && (forall k :: 0 <= k < |out| ==> ClusterOf(joins, n, out[k]))
    && (forall k, l :: 0 <= k < l < |out| ==> out[k].indexes[0] < out[l].indexes[0])
    && (forall i: nat, j: nat :: i < n && j < n && i != j && Connected(LinksOf(joins), i, j) ==> Grouped(out, i))
  }

  ghost predicate Grouped(out: seq<Cluster>, i: nat) {
    exists k :: 0 <= k < |out| && i in out[k].indexes
  }

  ghost predicate Inside(j: Join, c: Cluster) {
    j.a in c.indexes
  }

  ghost predicate ClusterOf(joins: set<Join>, n: nat, c: Cluster) {
    && Component(LinksOf(joins), n, c.indexes)
    && Weighed(joins, c)
  }

  ghost predicate Component(links: Links, n: nat, indexes: seq<nat>) {
    && |indexes| >= 2 && Ascending(indexes)
    && (forall i: nat :: i in indexes <==> i < n && Connected(links, indexes[0], i))
  }

  ghost predicate Weighed(joins: set<Join>, c: Cluster) {
    && (forall j :: j in joins && Inside(j, c) ==> j.score <= c.score)
    && (exists j :: j in joins && Inside(j, c) && j.score == c.score)
    && (forall s :: s in c.signals <==> exists j :: j in joins && Inside(j, c) && s in j.signals)
    && Sorted(c.signals, TextLeq) && Distinct(c.signals)
  }

  method SortedSignals(signals: set<string>) returns (out: seq<string>)
    ensures Sorted(out, TextLeq) && Distinct(out)
    ensures forall s :: s in out <==> s in signals
  {
    var rest := signals;
    out := [];
    while rest != {}
      invariant rest <= signals && Distinct(out)
      invariant forall s :: s in out <==> s in signals && s !in rest
    {
      var s :| s in rest;
      out := out + [s];
      rest := rest - {s};
    }
    TextOrder();
    SortSorts(out, TextLeq);
    SortKeepsDistinct(out, TextLeq);
    out := StableSort(out, TextLeq);
  }

  lemma ClassIsComponent(root: seq<nat>, joins: set<Join>, r: nat)
    requires Describes(root, joins) && r < |root| && root[r] == r
    requires |ClassOf(root, r, |root|)| >= 2
    ensures Component(LinksOf(joins), |root|, ClassOf(root, r, |root|))
  {
    var indexes := ClassOf(root, r, |root|);
    ClassHolds(root, r, |root|);
    assert indexes[0] in indexes;
    forall i: nat
      ensures i in indexes <==> i < |root| && Connected(LinksOf(joins), indexes[0], i)
    {
      if i < |root| {
        SameRootIsConnected(root, joins, indexes[0], i);
      }
    }
  }

  lemma ClassIsWeighed(root: seq<nat>, joins: set<Join>, r: nat, score: nat, signals: set<string>, c: Cluster)
    requires Describes(root, joins) && r < |root| && root[r] == r
    requires Carries(r, score, signals, root, joins)
    requires c.indexes == ClassOf(root, r, |root|) && |c.indexes| >= 2 && c.score == score
    requires Sorted(c.signals, TextLeq) && Distinct(c.signals) && forall s :: s in c.signals <==> s in signals
    ensures Weighed(joins, c)
  {
    ClassHolds(root, r, |root|);
    assert c.indexes[0] in c.indexes && c.indexes[1] in c.indexes;
    assert forall j :: j in joins ==> (Inside(j, c) <==> root[j.a] == r);
    if score == 0 {
      SomeJoin(root, joins, c.indexes[0], c.indexes[1]);
      var j :| j in joins && root[j.a] == r;
      assert Inside(j, c) && j.score == c.score;
    } else {
      var j :| j in joins && root[j.a] == r && j.score == score;
      assert Inside(j, c);
    }
    SignalsOfClass(root, joins, r, score, signals, c);
  }

  lemma SignalsOfClass(root: seq<nat>, joins: set<Join>, r: nat, score: nat, signals: set<string>, c: Cluster)
    requires forall j :: j in joins ==> j.a < |root|
    requires Carries(r, score, signals, root, joins)
    requires forall j :: j in joins ==> (Inside(j, c) <==> root[j.a] == r)
    requires forall s :: s in c.signals <==> s in signals
    ensures forall s :: s in c.signals <==> exists j :: j in joins && Inside(j, c) && s in j.signals
  {
    forall s | s in c.signals
      ensures exists j :: j in joins && Inside(j, c) && s in j.signals
    {
      var j :| j in joins && root[j.a] == r && s in j.signals;
      assert Inside(j, c);
    }
  }

  // Two different positions of one class: some join is inside it.
  lemma SomeJoin(root: seq<nat>, joins: set<Join>, a: nat, b: nat)
    requires Describes(root, joins) && a < |root| && b < |root| && a != b && root[a] == root[b]
    ensures exists j :: j in joins && root[j.a] == root[a]
  {
    SameRootIsConnected(root, joins, a, b);
    var links := LinksOf(joins);
    var p :| Walk(links, p) && p[0] == a && p[|p| - 1] == b;
    assert Linked(links, p[0], p[1]);
    var j :| j in joins && ((j.a, j.b) == (p[0], p[1]) || (j.b, j.a) == (p[0], p[1]));
    assert root[j.a] == root[a];
  }

  predicate ClusterOrder(a: Cluster, b: Cluster) {
    ByFirst(a.indexes, b.indexes)
  }

  lemma ClusterOrderTotal()
    ensures TotalPreorder(ClusterOrder)
  {
    ByFirstOrder();
  }

  // `unionFind.clusters`: the classes of two or more, in the order of their
  // least position.
  method Collect(sets: UnionFind) returns (out: seq<Cluster>)
    requires sets.Valid()
    modifies sets.parent
    ensures Clustered(sets.joins, |sets.root|, out)
  {
    var members := Members(sets);
    RootsAreRoots(sets);
    ghost var reps;
    out, reps := ReportAll(sets, members);
    ReportedIsClustered(sets.root, sets.joins, members, reps, out);
    out := StableSort(out, ClusterOrder);
  }

  // Map order is arbitrary, so the clusters come out in any order.
  method ReportAll(sets: UnionFind, members: map<nat, seq<nat>>) returns (out: seq<Cluster>, ghost reps: seq<nat>)
    requires sets.Valid()
    requires forall r: nat :: r in members <==> Root(sets.root, r)
    requires forall r: nat :: r in members ==> members[r] == ClassOf(sets.root, r, |sets.root|)
    ensures Reported(sets.root, sets.joins, reps, out)
    ensures forall r: nat :: r in members && |members[r]| >= 2 ==> r in reps
  {
    ghost var root, joins := sets.root, sets.joins;
    var rest := members.Keys;
    out, reps := [], [];
    while rest != {}
      invariant rest <= members.Keys && Reported(root, joins, reps, out)
      invariant forall r :: r in reps ==> r !in rest
      invariant forall r: nat :: r in members && r !in rest && |members[r]| >= 2 ==> r in reps
    {
      var r :| r in rest;
      rest := rest - {r};
      if |members[r]| < 2 {
        continue;
      }
      var cluster := Report(sets, r, members[r]);
      ReportedOneMore(root, joins, reps, out, r, cluster);
      out := out + [cluster];
      reps := reps + [r];
    }
  }

  lemma ReportedOneMore(root: seq<nat>, joins: set<Join>, reps: seq<nat>, out: seq<Cluster>, r: nat, c: Cluster)
    requires Reported(root, joins, reps, out) && r !in reps && Root(root, r)
    requires ClusterOf(joins, |root|, c) && c.indexes == ClassOf(root, r, |root|)
    ensures Reported(root, joins, reps + [r], out + [c])
  {
  }

  method Report(sets: UnionFind, r: nat, indexes: seq<nat>) returns (c: Cluster)
    requires sets.Valid() && Root(sets.root, r)
    requires indexes == ClassOf(sets.root, r, |sets.root|) && |indexes| >= 2
    ensures c.indexes == indexes && ClusterOf(sets.joins, |sets.root|, c)
  {
    ghost var root, joins := sets.root, sets.joins;
    assert Carries(r, sets.score[..][r], sets.signals[..][r], root, joins);
    // The positions of a class are ascending already, so sorting keeps them.
    ClassHolds(root, r, |root|);
    SortOfSorted(indexes, NatLeq);
    var signals := SortedSignals(sets.signals[r]);
    c := Cluster(StableSort(indexes, NatLeq), sets.score[r], signals);
    ClassIsComponent(root, joins, r);
    ClassIsWeighed(root, joins, r, sets.score[r], sets.signals[r], c);
  }

  // The clusters reported so far, each for its own representative.
  ghost predicate Reported(root: seq<nat>, joins: set<Join>, reps: seq<nat>, out: seq<Cluster>) {
    && |reps| == |out| && Distinct(reps)
    && (forall k :: 0 <= k < |reps| ==> Root(root, reps[k]))
    && (forall k :: 0 <= k < |out| ==> ClusterOf(joins, |root|, out[k]) && out[k].indexes == ClassOf(root, reps[k], |root|))
  }

  lemma ReportedDiffer(root: seq<nat>, joins: set<Join>, reps: seq<nat>, out: seq<Cluster>, k: nat, l: nat)
    requires Reported(root, joins, reps, out) && k < |out| && l < |out| && k != l
    ensures out[k].indexes != [] && out[l].indexes != [] && out[k].indexes[0] != out[l].indexes[0]
  {
    ClassHolds(root, reps[k], |root|);
    ClassHolds(root, reps[l], |root|);
    assert out[k].indexes[0] in out[k].indexes && out[l].indexes[0] in out[l].indexes;
    assert reps[k] != reps[l];
  }

  lemma SortedClusters(root: seq<nat>, joins: set<Join>, reps: seq<nat>, out: seq<Cluster>)
    requires Reported(root, joins, reps, out)
    ensures var sorted := StableSort(out, ClusterOrder);
            && (forall k :: 0 <= k < |sorted| ==> ClusterOf(joins, |root|, sorted[k]))
            && (forall k, l :: 0 <= k < l < |sorted| ==> sorted[k].indexes[0] < sorted[l].indexes[0])
  {
    var sorted := StableSort(out, ClusterOrder);
    forall k, l | 0 <= k < l < |out|
      ensures out[k] != out[l]
    {
      ReportedDiffer(root, joins, reps, out, k, l);
    }
    ClusterOrderTotal();
    SortSorts(out, ClusterOrder);
    SortKeepsDistinct(out, ClusterOrder);
    hide StableSort, ClassOf, Root;
    forall k | 0 <= k < |sorted|
      ensures sorted[k] in out && ClusterOf(joins, |root|, sorted[k])
    {
      assert sorted[k] in sorted;
    }
    hide ClusterOf;
    forall k, l | 0 <= k < l < |sorted|
      ensures sorted[k].indexes[0] < sorted[l].indexes[0]
    {
      assert ClusterOrder(sorted[k], sorted[l]);
      var m :| 0 <= m < |out| && out[m] == sorted[k];
      var o :| 0 <= o < |out| && out[o] == sorted[l];
      ReportedDiffer(root, joins, reps, out, m, o);
    }
  }

  lemma ReportedIsClustered(root: seq<nat>, joins: set<Join>, members: map<nat, seq<nat>>, reps: seq<nat>, out: seq<Cluster>)
    requires Describes(root, joins) && Reported(root, joins, reps, out)
    requires forall i: nat :: i < |root| ==> Root(root, root[i])
    requires forall r: nat :: r in members <==> Root(root, r)
    requires forall r: nat :: r in members ==> members[r] == ClassOf(root, r, |root|)
    requires forall r: nat :: r in members && |members[r]| >= 2 ==> r in reps
    ensures Clustered(joins, |root|, StableSort(out, ClusterOrder))
  {
    hide Describes, Reported, ClassOf, Root, ClusterOf, StableSort, Connected, LinksOf, ClusterOrder;
    SortedClusters(root, joins, reps, out);
    ClusterOrderTotal();
    SortSorts(out, ClusterOrder);
    var sorted := StableSort(out, ClusterOrder);
    forall i: nat, j: nat | i < |root| && j < |root| && i != j && Connected(LinksOf(joins), i, j)
      ensures Grouped(sorted, i)
    {
      ConnectedIsReported(root, joins, members, reps, out, i, j);
      var k :| 0 <= k < |out| && i in out[k].indexes;
      assert out[k] in multiset(sorted) && out[k] in sorted;
    }
  }

  lemma ConnectedIsReported(root: seq<nat>, joins: set<Join>, members: map<nat, seq<nat>>, reps: seq<nat>, out: seq<Cluster>,
                            i: nat, j: nat)
    requires Describes(root, joins) && Reported(root, joins, reps, out)
    requires forall i: nat :: i < |root| ==> Root(root, root[i])
    requires forall r: nat :: r in members <==> Root(root, r)
    requires forall r: nat :: r in members ==> members[r] == ClassOf(root, r, |root|)
    requires forall r: nat :: r in members && |members[r]| >= 2 ==> r in reps
    requires i < |root| && j < |root| && i != j && Connected(LinksOf(joins), i, j)
    ensures Grouped(out, i)
  {
    SameRootIsConnected(root, joins, i, j);
    hide Describes, Connected, LinksOf, ClusterOf;
    var r := root[i];
    assert Root(root, r);
    ClassHolds(root, r, |root|);
    hide Reported, ClassOf, Root;
    TwoInList(members[r], i, j);
    ReportedHolds(root, joins, reps, out, r, i);
  }

  lemma ReportedHolds(root: seq<nat>, joins: set<Join>, reps: seq<nat>, out: seq<Cluster>, r: nat, i: nat)
    requires Reported(root, joins, reps, out) && r in reps && i in ClassOf(root, r, |root|)
    ensures Grouped(out, i)
  {
    hide ClusterOf, ClassOf, Root;
    var k :| 0 <= k < |reps| && reps[k] == r;
    assert i in out[k].indexes;
  }

  lemma TwoInList(s: seq<nat>, i: nat, j: nat)
    requires i in s && j in s && i != j
    ensures |s| >= 2
  {
  }

  method Clusters(prints: seq<Fingerprint>, opts: Options) returns (out: seq<Cluster>)
    ensures Clustered(JoinsOf(prints, opts, MeetingPairs(prints)), |prints|, out)
    ensures EffectiveThreshold(opts) > 50 && (forall i :: 0 <= i < |prints| ==> WellFormed(prints[i]))
            ==> Clustered(JoinsOf(prints, opts, AllPairs(|prints|)), |prints|, out)
  {
    var sets := new UnionFind(|prints|);
    ghost var keys := AllKeys(prints);
    var buckets := FillBuckets(prints, keys);
    var scored: Pairs := {};
    var rest := buckets.Keys;
    while rest != {}
      invariant fresh(sets) && fresh(sets.parent) && fresh(sets.score) && fresh(sets.signals)
      invariant sets.Valid() && sets.parent.Length == |prints| && rest <= buckets.Keys
      invariant scored == PairsUnder(buckets, buckets.Keys - rest)
      invariant sets.joins == JoinsOf(prints, opts, scored)
    {
      var key :| key in rest;
      MembersInRange(keys, buckets, key);
      ghost var before := scored;
      scored := JoinBucket(prints, opts, sets, buckets[key], scored);
      PairsUnderStep(buckets, buckets.Keys - rest, key);
      rest := rest - {key};
      assert buckets.Keys - rest == (buckets.Keys - (rest + {key})) + {key};
    }
    assert buckets.Keys - rest == buckets.Keys;
    forall a: nat, b: nat
      ensures (a, b) in scored <==> (a, b) in MeetingPairs(prints)
    {
      PairsMeet(keys, buckets, a, b);
    }
    assert scored == MeetingPairs(prints);
    out := Collect(sets);
    if EffectiveThreshold(opts) > 50 && forall i :: 0 <= i < |prints| ==> WellFormed(prints[i]) {
      BucketedEqualsExhaustive(prints, opts);
    }
  }

  lemma MembersInRange(keys: seq<seq<BucketKey>>, buckets: Buckets, key: BucketKey)
    requires Bucketed(keys, buckets, |keys|, 0) && key in buckets
    ensures InOrder(buckets[key], |keys|) && forall i :: i in buckets[key] ==> i < |keys|
  {
    var list := MembersOf(buckets, key);
    assert FiledUnder(keys, |keys|, 0, key, list);
    forall i | i in list
      ensures i < |keys|
    {
      assert multiset(list)[i] == Filings(keys, |keys|, 0, key, i);
    }
  }

  lemma JoinsStep(prints: seq<Fingerprint>, opts: Options, pairs: Pairs, a: nat, b: nat)
    requires a < |prints| && b < |prints|
    ensures JoinsOf(prints, opts, pairs + {(a, b)}) ==
            JoinsOf(prints, opts, pairs) + if Passes(prints, opts, a, b) then {JoinOf(prints, a, b)} else {}
  {
  }

  // The inner two loops over one bucket.
  method JoinBucket(prints: seq<Fingerprint>, opts: Options, sets: UnionFind, members: seq<nat>, before: Pairs)
      returns (scored: Pairs)
    requires sets.Valid() && sets.parent.Length == |prints|
    requires forall i :: i in members ==> i < |prints|
    requires InOrder(members, |prints|) && sets.joins == JoinsOf(prints, opts, before)
    modifies sets, sets.parent, sets.score, sets.signals
    ensures sets.Valid() && scored == before + PairsOf(members)
    ensures sets.joins == JoinsOf(prints, opts, scored)
  {
    scored := before;
    assert PairsUpTo(members, 0, 0) == {};
    hide JoinsOf, InOrder;
    for i := 0 to |members|
      invariant sets.Valid()
      invariant scored == before + PairsUpTo(members, i, 0) && sets.joins == JoinsOf(prints, opts, scored)
    {
      NextRow(members, i);
      scored := JoinRow(prints, opts, sets, members, i, before, scored);
    }
  }

  // The inner loop: one place with all after it.
  method JoinRow(prints: seq<Fingerprint>, opts: Options, sets: UnionFind, members: seq<nat>, i: nat, ghost before: Pairs, scored0: Pairs)
      returns (scored: Pairs)
    requires sets.Valid() && sets.parent.Length == |prints| && i < |members|
    requires forall i :: i in members ==> i < |prints|
    requires InOrder(members, |prints|) && sets.joins == JoinsOf(prints, opts, scored0)
    requires scored0 == before + PairsUpTo(members, i, i + 1)
    modifies sets, sets.parent, sets.score, sets.signals
    ensures sets.Valid() && scored == before + PairsUpTo(members, i, |members|)
    ensures sets.joins == JoinsOf(prints, opts, scored)
  {
    hide JoinsOf;
    scored := scored0;
    for j := i + 1 to |members|
      invariant sets.Valid()
      invariant scored == before + PairsUpTo(members, i, j) && sets.joins == JoinsOf(prints, opts, scored)
    {
      NextPlace(members, i, j);
      hide PairsUpTo;
      var a, b := members[i], members[j];
      assert a in members && b in members;
      if a > b {
        a, b := b, a;
      }
      scored := TryPair(prints, opts, sets, a, b, scored);
    }
  }

  method TryPair(prints: seq<Fingerprint>, opts: Options, sets: UnionFind, a: nat, b: nat, before: Pairs) returns (scored: Pairs)
    requires sets.Valid() && sets.parent.Length == |prints| && a < |prints| && b < |prints|
    requires sets.joins == JoinsOf(prints, opts, before)
    modifies sets, sets.parent, sets.score, sets.signals
    ensures sets.Valid() && scored == before + {(a, b)}
    ensures sets.joins == JoinsOf(prints, opts, scored)
  {
    if (a, b) in before {
      assert before + {(a, b)} == before;
      return before;
    }
    JoinsStep(prints, opts, before, a, b);
    scored := before + {(a, b)};
    if opts.skip(a, b) {
      return;
    }
    var score, signals := Score(prints[a], prints[b]);
    if score < EffectiveThreshold(opts) {
      return;
    }
    sets.Union(a, b, score, signals);
  }
}
