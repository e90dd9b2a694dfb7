// The disjoint sets of duplicate detection: `unionFind` and `Sets` of
// internal/merge/cluster.go.
module Connectivity {

  type Links = set<(nat, nat)>

  predicate Linked(links: Links, a: nat, b: nat) {
    (a, b) in links || (b, a) in links
  }

  ghost predicate Walk(links: Links, p: seq<nat>) {
    |p| > 0 && forall k :: 0 < k < |p| ==> Linked(links, p[k - 1], p[k])
  }

  // Reference reading of a group: two positions belong together exactly when a
  // chain of given pairs leads from one to the other.
  ghost predicate Connected(links: Links, a: nat, b: nat) {
    exists p :: Walk(links, p) && p[0] == a && p[|p| - 1] == b
  }

  lemma Reflexive(links: Links, a: nat)
    ensures Connected(links, a, a)
  {
    assert Walk(links, [a]);
  }

  lemma Direct(links: Links, a: nat, b: nat)
    requires Linked(links, a, b)
    ensures Connected(links, a, b)
  {
    var p := [a, b];
    assert Walk(links, p) && p[0] == a && p[|p| - 1] == b;
  }

  lemma Transitive(links: Links, a: nat, b: nat, c: nat)
    requires Connected(links, a, b) && Connected(links, b, c)
    ensures Connected(links, a, c)
  {
    var p :| Walk(links, p) && p[0] == a && p[|p| - 1] == b;
    var q :| Walk(links, q) && q[0] == b && q[|q| - 1] == c;
    var r := p + q[1..];
    forall k | 0 < k < |r|
      ensures Linked(links, r[k - 1], r[k])
    {
      if k >= |p| {
        assert r[k] == q[k - |p| + 1] && r[k - 1] == q[k - |p|];
      }
    }
    assert Walk(links, r) && r[0] == a && r[|r| - 1] == c;
  }

  lemma Symmetric(links: Links, a: nat, b: nat)
    requires Connected(links, a, b)
    ensures Connected(links, b, a)
  {
    var p :| Walk(links, p) && p[0] == a && p[|p| - 1] == b;
    var r := seq(|p|, k requires 0 <= k < |p| => p[|p| - 1 - k]);
    forall k | 0 < k < |r|
      ensures Linked(links, r[k - 1], r[k])
    {
      assert Linked(links, p[|p| - 1 - k], p[|p| - k]);
    }
    assert Walk(links, r) && r[0] == b && r[|r| - 1] == a;
  }

  lemma Monotone(small: Links, large: Links, a: nat, b: nat)
    requires small <= large && Connected(small, a, b)
    ensures Connected(large, a, b)
  {
    var p :| Walk(small, p) && p[0] == a && p[|p| - 1] == b;
    assert Walk(large, p);
  }

  // A labelling that every pair respects is constant along a walk.
  lemma {:induction false} LabelAlongWalk(links: Links, tag: seq<nat>, p: seq<nat>)
    requires Walk(links, p)
    requires forall a, b :: (a, b) in links ==> a < |tag| && b < |tag| && tag[a] == tag[b]
    requires p[0] < |tag|
    ensures p[|p| - 1] < |tag| && tag[p[0]] == tag[p[|p| - 1]]
    decreases |p|
  {
    if |p| > 1 {
      assert Linked(links, p[0], p[1]);
      forall k | 0 < k < |p[1..]|
        ensures Linked(links, p[1..][k - 1], p[1..][k])
      {
        assert Linked(links, p[k], p[k + 1]);
      }
      LabelAlongWalk(links, tag, p[1..]);
    }
  }

  lemma LabelOfConnected(links: Links, tag: seq<nat>, a: nat, b: nat)
    requires Connected(links, a, b) && a < |tag|
    requires forall a, b :: (a, b) in links ==> a < |tag| && b < |tag| && tag[a] == tag[b]
    ensures b < |tag| && tag[a] == tag[b]
  {
    var p :| Walk(links, p) && p[0] == a && p[|p| - 1] == b;
    LabelAlongWalk(links, tag, p);
  }
}

module DisjointSets {
  import opened Connectivity

  // One call of `union`: the pair, its score and its reasons.
  datatype Join = Join(a: nat, b: nat, score: nat, signals: set<string>)

  function LinksOf(joins: set<Join>): Links {
    set j | j in joins :: (j.a, j.b)
  }

  // `root` names the representative each chain of parents ends in; the rank
  // grows along every chain, which is why `find` stops.
  ghost predicate Forest(parent: seq<nat>, root: seq<nat>, rank: seq<nat>, top: nat) {
    && |parent| == |root| == |rank|
    && forall i :: 0 <= i < |parent| ==> Placed(parent, root, rank, top, i)
  }

  ghost predicate Placed(parent: seq<nat>, root: seq<nat>, rank: seq<nat>, top: nat, i: nat)
    requires i < |parent| == |root| == |rank|
  {
    && parent[i] < |parent| && root[i] < |parent|
    && root[parent[i]] == root[i] && parent[root[i]] == root[i] && root[root[i]] == root[i]
    && (parent[i] == i <==> root[i] == i)
    && rank[i] <= top && (parent[i] != i ==> rank[i] < rank[parent[i]])
  }

  // The representatives describe exactly the pairs joined so far.
  ghost predicate Describes(root: seq<nat>, joins: set<Join>) {
    && (forall j :: j in joins ==> j.a < |root| && j.b < |root| && root[j.a] == root[j.b])
    && (forall i :: 0 <= i < |root| ==> root[i] < |root| && Connected(LinksOf(joins), i, root[i]))
  }

  // What a representative carries for its set: the highest score of a pair in it, and
  // the signals of all of them.
  ghost predicate Carries(r: nat, score: nat, signals: set<string>, root: seq<nat>, joins: set<Join>)
    requires forall j :: j in joins ==> j.a < |root|
  {
    && (forall j :: j in joins && root[j.a] == r ==> j.score <= score)
    && (score == 0 || exists j :: j in joins && root[j.a] == r && j.score == score)
    && (forall j :: j in joins && root[j.a] == r ==> j.signals <= signals)
    && (forall s :: s in signals ==> exists j :: j in joins && root[j.a] == r && s in j.signals)
  }

  ghost predicate AllCarry(score: seq<nat>, signals: seq<set<string>>, root: seq<nat>, joins: set<Join>)
    requires |score| == |signals| == |root|
    requires forall j :: j in joins ==> j.a < |root|
  {
    forall i :: 0 <= i < |root| && root[i] == i ==> Carries(i, score[i], signals[i], root, joins)
  }

  // Same representative and same chain of pairs are one thing.
  lemma SameRootIsConnected(root: seq<nat>, joins: set<Join>, i: nat, k: nat)
    requires Describes(root, joins) && i < |root| && k < |root|
    ensures root[i] == root[k] <==> Connected(LinksOf(joins), i, k)
  {
    var links := LinksOf(joins);
    if root[i] == root[k] {
      Symmetric(links, k, root[k]);
      Transitive(links, i, root[i], k);
    }
    if Connected(links, i, k) {
      LabelOfConnected(links, root, i, k);
    }
  }

  function Merged(root: seq<nat>, ra: nat, rb: nat): (r: seq<nat>)
    ensures |r| == |root|
    ensures forall i :: 0 <= i < |r| ==> r[i] == if root[i] == rb then ra else root[i]
  {
    seq(|root|, i requires 0 <= i < |root| => if root[i] == rb then ra else root[i])
  }

  function Raised(rank: seq<nat>, ra: nat, rb: nat): seq<nat>
    requires ra < |rank| && rb < |rank|
  {
    if rank[ra] <= rank[rb] then rank[ra := rank[rb] + 1] else rank
  }

  lemma MergeKeepsForest(parent: seq<nat>, root: seq<nat>, rank: seq<nat>, top: nat, ra: nat, rb: nat)
    requires Forest(parent, root, rank, top)
    requires ra < |root| && rb < |root| && ra != rb && root[ra] == ra && root[rb] == rb
    ensures Forest(parent[rb := ra], Merged(root, ra, rb), Raised(rank, ra, rb), top + 1)
  {
    var parent', root', rank', top' := parent[rb := ra], Merged(root, ra, rb), Raised(rank, ra, rb), top + 1;
    forall i | 0 <= i < |parent|
      ensures Placed(parent', root', rank', top', i)
    {
      assert Placed(parent, root, rank, top, i) && Placed(parent, root, rank, top, ra) && Placed(parent, root, rank, top, rb);
    }
  }

  lemma HalvingKeepsForest(parent: seq<nat>, root: seq<nat>, rank: seq<nat>, top: nat, at: nat)
    requires Forest(parent, root, rank, top) && at < |parent|
    ensures parent[at] < |parent| && parent[parent[at]] < |parent| && Forest(parent[at := parent[parent[at]]], root, rank, top)
    ensures root[parent[parent[at]]] == root[at]
    ensures parent[at] != at ==> rank[at] < rank[parent[parent[at]]] <= top
  {
    assert Placed(parent, root, rank, top, at) && Placed(parent, root, rank, top, parent[at]);
    var parent' := parent[at := parent[parent[at]]];
    forall i | 0 <= i < |parent|
      ensures Placed(parent', root, rank, top, i)
    {
      assert Placed(parent, root, rank, top, i) && Placed(parent, root, rank, top, root[i]);
    }
    assert Placed(parent, root, rank, top, parent[parent[at]]);
  }

  lemma JoinKeepsDescription(root: seq<nat>, joins: set<Join>, j: Join)
    requires Describes(root, joins) && j.a < |root| && j.b < |root|
    requires root[root[j.a]] == root[j.a] && root[root[j.b]] == root[j.b]
    ensures Describes(Merged(root, root[j.a], root[j.b]), joins + {j})
  {
    var links, links' := LinksOf(joins), LinksOf(joins + {j});
    assert links <= links';
    assert (j.a, j.b) in links';
    var ra, rb := root[j.a], root[j.b];
    Direct(links', j.b, j.a);
    Monotone(links, links', j.a, ra);
    Monotone(links, links', j.b, rb);
    Symmetric(links', j.b, rb);
    Transitive(links', rb, j.b, j.a);
    Transitive(links', rb, j.a, ra);
    var root' := Merged(root, ra, rb);
    forall i | 0 <= i < |root|
      ensures Connected(links', i, root'[i])
    {
      Monotone(links, links', i, root[i]);
      if root[i] == rb {
        Transitive(links', i, rb, ra);
      }
    }
  }

  function Max(a: nat, b: nat): nat {
    if b > a then b else a
  }

  lemma JoinCarries(root: seq<nat>, joins: set<Join>, j: Join, score: seq<nat>, signals: seq<set<string>>)
    requires |score| == |signals| == |root|
    requires Describes(root, joins) && j.a < |root| && j.b < |root|
    requires root[root[j.a]] == root[j.a] && root[root[j.b]] == root[j.b]
    requires AllCarry(score, signals, root, joins)
    ensures var ra, rb := root[j.a], root[j.b];
            Carries(ra, Max(Max(score[ra], score[rb]), j.score), signals[ra] + signals[rb] + j.signals,
                    Merged(root, ra, rb), joins + {j})
  {
    var ra, rb := root[j.a], root[j.b];
    var root', joins' := Merged(root, ra, rb), joins + {j};
    assert Carries(ra, score[ra], signals[ra], root, joins);
    assert Carries(rb, score[rb], signals[rb], root, joins);
    var best := Max(Max(score[ra], score[rb]), j.score);
    if best == j.score {
      assert j in joins' && root'[j.a] == ra;
    } else if best == score[ra] {
      var k :| k in joins && root[k.a] == ra && k.score == score[ra];
      assert k in joins' && root'[k.a] == ra;
    } else {
      var k :| k in joins && root[k.a] == rb && k.score == score[rb];
      assert k in joins' && root'[k.a] == ra;
    }
    forall s | s in signals[ra] + signals[rb] + j.signals
      ensures exists k :: k in joins' && root'[k.a] == ra && s in k.signals
    {
      if s in j.signals {
        assert j in joins' && root'[j.a] == ra;
      } else if s in signals[ra] {
        var k :| k in joins && root[k.a] == ra && s in k.signals;
        assert k in joins' && root'[k.a] == ra;
      } else {
        var k :| k in joins && root[k.a] == rb && s in k.signals;
        assert k in joins' && root'[k.a] == ra;
      }
    }
  }

  // Sets the join does not touch carry what they carried.
  lemma OthersCarry(root: seq<nat>, joins: set<Join>, j: Join, r: nat, score: nat, signals: set<string>)
    requires Describes(root, joins) && j.a < |root| && j.b < |root|
    requires r != root[j.a] && r != root[j.b] && Carries(r, score, signals, root, joins)
    ensures Carries(r, score, signals, Merged(root, root[j.a], root[j.b]), joins + {j})
  {
    var root', joins' := Merged(root, root[j.a], root[j.b]), joins + {j};
    if score != 0 {
      var k :| k in joins && root[k.a] == r && k.score == score;
      assert k in joins' && root'[k.a] == r;
    }
    forall s | s in signals
      ensures exists k :: k in joins' && root'[k.a] == r && s in k.signals
    {
      var k :| k in joins && root[k.a] == r && s in k.signals;
      assert k in joins' && root'[k.a] == r;
    }
  }

  // What a union has to leave in the two arrays, and that it is enough.
  ghost predicate Absorbed(root: seq<nat>, j: Join, score0: seq<nat>, signals0: seq<set<string>>,
                           score: seq<nat>, signals: seq<set<string>>)
    requires |score0| == |signals0| == |score| == |signals| == |root|
    requires j.a < |root| && j.b < |root| && root[j.a] < |root| && root[j.b] < |root|
  {
    var ra, rb := root[j.a], root[j.b];
    && score[ra] == Max(Max(score0[ra], score0[rb]), j.score)
    && signals[ra] == signals0[ra] + signals0[rb] + j.signals
    && forall i :: 0 <= i < |root| && i != ra && i != rb ==> score[i] == score0[i] && signals[i] == signals0[i]
  }

  lemma AbsorbedCarries(root: seq<nat>, joins: set<Join>, j: Join, score0: seq<nat>, signals0: seq<set<string>>,
                        score: seq<nat>, signals: seq<set<string>>)
    requires |score0| == |signals0| == |score| == |signals| == |root|
    requires Describes(root, joins) && j.a < |root| && j.b < |root|
    requires root[root[j.a]] == root[j.a] && root[root[j.b]] == root[j.b]
    requires AllCarry(score0, signals0, root, joins)
    requires Absorbed(root, j, score0, signals0, score, signals)
    ensures Describes(Merged(root, root[j.a], root[j.b]), joins + {j})
    ensures AllCarry(score, signals, Merged(root, root[j.a], root[j.b]), joins + {j})
  {
    JoinKeepsDescription(root, joins, j);
    JoinCarries(root, joins, j, score0, signals0);
    var root', joins' := Merged(root, root[j.a], root[j.b]), joins + {j};
    forall r | 0 <= r < |root| && root'[r] == r
      ensures Carries(r, score[r], signals[r], root', joins')
    {
      if r != root[j.a] {
        OthersCarry(root, joins, j, r, score0[r], signals0[r]);
      }
    }
  }

  ghost predicate Consistent(parent: seq<nat>, score: seq<nat>, signals: seq<set<string>>,
                             root: seq<nat>, rank: seq<nat>, top: nat, joins: set<Join>) {
    && |parent| == |score| == |signals|
    && Forest(parent, root, rank, top) && Describes(root, joins) && AllCarry(score, signals, root, joins)
  }

  lemma UnionConsistent(parent: seq<nat>, score0: seq<nat>, signals0: seq<set<string>>,
                        root: seq<nat>, rank: seq<nat>, top: nat, joins: set<Join>, j: Join,
                        score: seq<nat>, signals: seq<set<string>>)
      returns (rank': seq<nat>, top': nat)
    requires Consistent(parent, score0, signals0, root, rank, top, joins)
    requires |score| == |signals| == |root|
    requires j.a < |root| && j.b < |root|
    requires Absorbed(root, j, score0, signals0, score, signals)
    ensures var ra, rb := root[j.a], root[j.b];
            Consistent(if ra == rb then parent else parent[rb := ra], score, signals,
                       Merged(root, ra, rb), rank', top', joins + {j})
  {
    var ra, rb := root[j.a], root[j.b];
    assert Placed(parent, root, rank, top, j.a) && Placed(parent, root, rank, top, j.b);
    AbsorbedCarries(root, joins, j, score0, signals0, score, signals);
    if ra != rb {
      MergeKeepsForest(parent, root, rank, top, ra, rb);
      rank', top' := Raised(rank, ra, rb), top + 1;
    } else {
      assert Merged(root, ra, rb) == root;
      rank', top' := rank, top;
    }
  }

  class UnionFind {
    const parent: array<nat>
    const score: array<nat>
    // A nil reason map and an empty one are both the empty set.
    const signals: array<set<string>>

    ghost var root: seq<nat>
    ghost var rank: seq<nat>
    ghost var top: nat
    ghost var joins: set<Join>

    ghost predicate Valid()
      reads this, parent, score, signals
    {
      && parent != score
      && Consistent(parent[..], score[..], signals[..], root, rank, top, joins)
    }

    constructor (n: nat)
      ensures Valid() && fresh(parent) && fresh(score) && fresh(signals)
      ensures parent.Length == n && joins == {}
    {
      parent := new nat[n](i => i);
      score := new nat[n](_ => 0);
      signals := new set<string>[n](_ => {});
      root := seq(n, i => i);
      rank := seq(n, _ => 0);
      top := 0;
      joins := {};
      new;
      forall i | 0 <= i < n
        ensures Connected(LinksOf(joins), i, root[i])
      {
        Reflexive(LinksOf(joins), i);
      }
    }

    // Path halving rewrites parents and nothing a caller can see: the
    // representative, and with it the partition, is what it was.
    method Find(i: nat) returns (r: nat)
      requires Valid() && i < parent.Length
      modifies parent
      ensures Valid() && r == root[i] && r < parent.Length && root[r] == r
    {
      var at: nat := i;
      while parent[at] != at
        invariant parent.Length == |root| == |rank| && at < |root|
        invariant Forest(parent[..], root, rank, top) && root[at] == root[i]
        decreases top - rank[at]
      {
        ghost var before := parent[..];
        assert Placed(before, root, rank, top, at);
        HalvingKeepsForest(before, root, rank, top, at);
        parent[at] := parent[parent[at]];
        assert parent[..] == before[at := before[before[at]]];
        at := parent[at];
      }
      assert Placed(parent[..], root, rank, top, at);
      r := at;
    }

    method AddSignals(r: nat, more: set<string>)
      requires r < signals.Length
      modifies signals
      ensures signals[r] == old(signals[r]) + more
      ensures forall i :: 0 <= i < signals.Length && i != r ==> signals[i] == old(signals[i])
    {
      var rest := more;
      while rest != {}
        invariant rest <= more
        invariant signals[r] == old(signals[r]) + (more - rest)
        invariant forall i :: 0 <= i < signals.Length && i != r ==> signals[i] == old(signals[i])
      {
        var signal :| signal in rest;
        signals[r] := signals[r] + {signal};
        rest := rest - {signal};
      }
    }

    method Union(a: nat, b: nat, points: nat, reasons: set<string>)
      requires Valid() && a < parent.Length && b < parent.Length
      modifies this, parent, score, signals
      ensures Valid() && joins == old(joins) + {Join(a, b, points, reasons)}
    {
      hide Describes, Carries, Placed;
      var rootA := Find(a);
      var rootB := Find(b);
      ghost var j := Join(a, b, points, reasons);
      ghost var parent0, score0, signals0 := parent[..], score[..], signals[..];
      JoinRoots(rootA, rootB, points, reasons);
      ghost var rank', top' := UnionConsistent(parent0, score0, signals0, root, rank, top, joins, j, score[..], signals[..]);
      root, rank, top, joins := Merged(root, rootA, rootB), rank', top', joins + {j};
    }

    // The part of `union` after both roots are known.
    method JoinRoots(rootA: nat, rootB: nat, points: nat, reasons: set<string>)
      requires parent != score && parent.Length == score.Length == signals.Length
      requires rootA < parent.Length && rootB < parent.Length
      modifies parent, score, signals
      ensures parent[..] == if rootA == rootB then old(parent[..]) else old(parent[..])[rootB := rootA]
      ensures score[rootA] == Max(Max(old(score[rootA]), old(score[rootB])), points)
      ensures signals[rootA] == old(signals[rootA]) + old(signals[rootB]) + reasons
      ensures forall i :: 0 <= i < parent.Length && i != rootA && i != rootB
                          ==> score[i] == old(score[i]) && signals[i] == old(signals[i])
    {
      if rootA != rootB {
        parent[rootB] := rootA;
        if score[rootB] > score[rootA] {
          score[rootA] := score[rootB];
        }
        AddSignals(rootA, signals[rootB]);
        signals[rootB] := {};
      }
      if points > score[rootA] {
        score[rootA] := points;
      }
      AddSignals(rootA, reasons);
    }
  }
}
