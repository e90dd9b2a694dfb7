// The decisions about duplicate groups: a family of disjoint groups, updated in place.
// A group is known by its members, not by its identifier (internal/account/duplicates.go).
module DuplicateDecisions {
  import opened GoText
  import opened Ordering

  datatype Option<T> = None | Some(value: T)
  datatype Verdict = Linked | Ignored | Unknown
  datatype Error = NoError | BadVerdict | TooFew | BadKind | NoIdentifier

  datatype Member = Member(account: string, collection: string, uid: string)
  // The value preferred under each property name.
  type Fields = map<string, string>

  datatype Group = Group(id: string, kind: string, verdict: Verdict, members: seq<Member>, fields: Fields, decidedAt: int)

  function NormalPath(path: string): string {
    var trimmed := TrimSpace(path);
    if trimmed == "" then ""
    else
      var lead := if trimmed[0] == '/' then trimmed else "/" + trimmed;
      if lead[|lead| - 1] == '/' then lead else lead + "/"
  }

  function Key(m: Member): string {
    m.account + "|" + NormalPath(m.collection) + "|" + TrimSpace(m.uid)
  }

  function Normalized(m: Member): Member {
    Member(TrimSpace(m.account), NormalPath(m.collection), TrimSpace(m.uid))
  }

  predicate Usable(m: Member) {
    var n := Normalized(m);
    n.account != "" && n.collection != "" && n.uid != ""
  }

  function KeySet(members: seq<Member>): set<string> {
    set m | m in members :: Key(m)
  }

  predicate DistinctKeys(members: seq<Member>) {
    forall i, j :: 0 <= i < j < |members| ==> Key(members[i]) != Key(members[j])
  }

  ghost predicate GroupOk(g: Group) {
    |g.members| >= 2 && DistinctKeys(g.members)
  }

  ghost predicate Apart(g: Group, h: Group) {
    KeySet(g.members) !! KeySet(h.members)
  }

  // Disjoint groups of two or more.
  ghost predicate GroupsOk(groups: seq<Group>) {
    && (forall i {:trigger GroupOk(groups[i])} :: 0 <= i < |groups| ==> GroupOk(groups[i]))
    && (forall i, j {:trigger Apart(groups[i], groups[j])} :: 0 <= i < |groups| && 0 <= j < |groups| && i != j ==> Apart(groups[i], groups[j]))
  }

  // Two records are in one group, decided this way.
  ghost predicate Shares(groups: seq<Group>, a: string, b: string, v: Verdict) {
    exists i :: 0 <= i < |groups| && Holds(groups[i], a, b, v)
  }

  ghost predicate Holds(g: Group, a: string, b: string, v: Verdict) {
    g.verdict == v && a in KeySet(g.members) && b in KeySet(g.members)
  }

  ghost predicate Listed(groups: seq<Group>, key: string) {
    exists i :: 0 <= i < |groups| && key in KeySet(groups[i].members)
  }

  /* ---- Taking members out ---- */

  function Drop(members: seq<Member>, gone: Member -> bool): seq<Member> {
    if members == [] then []
    else Drop(members[..|members| - 1], gone) + if gone(members[|members| - 1]) then [] else [members[|members| - 1]]
  }

  // One member by itself is no group.
  function Thinned(g: Group, gone: Member -> bool): seq<Group> {
    var left := Drop(g.members, gone);
    if |left| == |g.members| then [g] else if |left| < 2 then [] else [g.(members := left)]
  }

  function Thin(groups: seq<Group>, gone: Member -> bool): seq<Group> {
    if groups == [] then [] else Thin(groups[..|groups| - 1], gone) + Thinned(groups[|groups| - 1], gone)
  }

  lemma {:induction false} DropMembers(members: seq<Member>, gone: Member -> bool)
    ensures forall m :: m in Drop(members, gone) <==> m in members && !gone(m)
  {
    if members != [] {
      var init, last := members[..|members| - 1], members[|members| - 1];
      DropMembers(init, gone);
      assert members == init + [last];
    }
  }

  lemma {:induction false} DropWhole(members: seq<Member>, gone: Member -> bool)
    ensures |Drop(members, gone)| <= |members|
    ensures |Drop(members, gone)| == |members| ==> Drop(members, gone) == members
  {
    if members != [] {
      DropWhole(members[..|members| - 1], gone);
    }
  }

  lemma DropKeeps(members: seq<Member>, gone: Member -> bool)
    ensures |Drop(members, gone)| <= |members|
    ensures forall m :: m in Drop(members, gone) <==> m in members && !gone(m)
    ensures |Drop(members, gone)| == |members| <==> forall m :: m in members ==> !gone(m)
    ensures |Drop(members, gone)| == |members| ==> Drop(members, gone) == members
  {
    DropMembers(members, gone);
    DropWhole(members, gone);
    if forall m :: m in members ==> !gone(m) {
      DropNone(members, gone);
    }
  }

  lemma {:induction false} DropNone(members: seq<Member>, gone: Member -> bool)
    requires forall i :: 0 <= i < |members| ==> !gone(members[i])
    ensures |Drop(members, gone)| == |members|
  {
    if members != [] {
      DropNone(members[..|members| - 1], gone);
    }
  }

  lemma {:induction false} DropKeysDistinct(members: seq<Member>, gone: Member -> bool)
    requires DistinctKeys(members)
    ensures DistinctKeys(Drop(members, gone))
  {
    hide Key;
    if members != [] {
      var init, last := members[..|members| - 1], members[|members| - 1];
      DropKeysDistinct(init, gone);
      DropMembers(init, gone);
      var kept := Drop(init, gone);
      assert Drop(members, gone) == kept || Drop(members, gone) == kept + [last];
      hide Drop;
      LastKeyApart(members, kept);
    }
  }

  lemma LastKeyApart(members: seq<Member>, kept: seq<Member>)
    requires members != [] && DistinctKeys(members) && DistinctKeys(kept)
    requires forall m :: m in kept ==> m in members[..|members| - 1]
    ensures DistinctKeys(kept + [members[|members| - 1]])
  {
    hide Key;
    forall i | 0 <= i < |kept|
      ensures Key(kept[i]) != Key(members[|members| - 1])
    {
      assert kept[i] in kept;
      var j :| 0 <= j < |members| - 1 && members[j] == kept[i];
    }
  }

  lemma ThinnedOk(g: Group, gone: Member -> bool)
    requires GroupOk(g)
    ensures |Thinned(g, gone)| <= 1
    ensures forall h :: h in Thinned(g, gone) ==> GroupOk(h) && h.verdict == g.verdict && KeySet(h.members) <= KeySet(g.members)
    ensures forall h, m :: h in Thinned(g, gone) && m in h.members ==> m in g.members && !gone(m)
  {
    hide Key;
    DropKeeps(g.members, gone);
    DropKeysDistinct(g.members, gone);
    var left := Drop(g.members, gone);
    hide Drop, DistinctKeys;
    assert KeySet(left) <= KeySet(g.members);
    assert Thinned(g, gone) == [] || Thinned(g, gone) == [g.(members := left)] || (left == g.members && Thinned(g, gone) == [g]);
  }

  lemma AtLeastTwo<T>(s: seq<T>, x: T, y: T)
    requires x in s && y in s && x != y
    ensures |s| >= 2
  {
    var i :| 0 <= i < |s| && s[i] == x;
    var j :| 0 <= j < |s| && s[j] == y;
  }

  // Two members that stay keep their group alive.
  lemma TwoStay(g: Group, gone: Member -> bool, a: string, b: string, v: Verdict)
    requires GroupOk(g) && a != b
    requires forall m :: m in g.members && (Key(m) == a || Key(m) == b) ==> !gone(m)
    ensures Holds(g, a, b, v) <==> Thinned(g, gone) != [] && Holds(Thinned(g, gone)[0], a, b, v)
  {
    hide Key;
    ThinnedOk(g, gone);
    DropKeeps(g.members, gone);
    if Holds(g, a, b, v) {
      var ma :| ma in g.members && Key(ma) == a;
      var mb :| mb in g.members && Key(mb) == b;
      var left := Drop(g.members, gone);
      assert ma in left && mb in left && ma != mb;
      AtLeastTwo(left, ma, mb);
    } else if Thinned(g, gone) != [] {
      assert Thinned(g, gone)[0] in Thinned(g, gone);
    }
  }

  // Whom a thinned family descends from.
  lemma {:induction false} ThinFrom(groups: seq<Group>, gone: Member -> bool) returns (from: seq<nat>)
    requires forall i :: 0 <= i < |groups| ==> GroupOk(groups[i])
    ensures |from| == |Thin(groups, gone)|
    ensures forall k :: 0 <= k < |from| ==> from[k] < |groups| && Thinned(groups[from[k]], gone) == [Thin(groups, gone)[k]]
    ensures forall k, l :: 0 <= k < l < |from| ==> from[k] < from[l]
    ensures forall i :: 0 <= i < |groups| && Thinned(groups[i], gone) != [] ==> i in from
  {
    hide Thinned;
    from := [];
    if groups != [] {
      var n := |groups| - 1;
      from := ThinFrom(groups[..n], gone);
      ThinnedOk(groups[n], gone);
      if Thinned(groups[n], gone) != [] {
        from := from + [n];
      }
      forall i | 0 <= i < |groups| && Thinned(groups[i], gone) != []
        ensures i in from
      {
        if i < n {
          assert groups[..n][i] == groups[i];
        }
      }
    }
  }

  // `left` is what stays of `all` when those are gone, in order.
  ghost predicate StaysOf(all: seq<Member>, gone: Member -> bool, left: seq<Member>) {
    if all == [] then left == []
    else if gone(all[0]) then StaysOf(all[1..], gone, left)
    else left != [] && left[0] == all[0] && StaysOf(all[1..], gone, left[1..])
  }

  lemma {:induction false} StaysSnoc(all: seq<Member>, gone: Member -> bool, left: seq<Member>, m: Member)
    requires StaysOf(all, gone, left)
    ensures StaysOf(all + [m], gone, if gone(m) then left else left + [m])
  {
    if all == [] {
      assert all + [m] == [m] && [m][1..] == [] && left + [m] == [m];
    } else {
      assert (all + [m])[1..] == all[1..] + [m];
      if gone(all[0]) {
        StaysSnoc(all[1..], gone, left, m);
      } else {
        StaysSnoc(all[1..], gone, left[1..], m);
        assert (left + [m])[1..] == left[1..] + [m];
      }
    }
  }

  lemma {:induction false} DropStays(all: seq<Member>, gone: Member -> bool)
    ensures StaysOf(all, gone, Drop(all, gone))
  {
    if all != [] {
      var init, last := all[..|all| - 1], all[|all| - 1];
      DropStays(init, gone);
      StaysSnoc(init, gone, Drop(init, gone), last);
      assert all == init + [last] && Drop(init, gone) + [] == Drop(init, gone);
    }
  }

  // A group that loses nobody stays; one of which two or more are left keeps all it had but
  // the others; any other is dissolved. The groups that are left stay in order.
  lemma ThinExactly(groups: seq<Group>, gone: Member -> bool) returns (from: seq<nat>)
    requires GroupsOk(groups)
    ensures |from| == |Thin(groups, gone)|
    ensures forall k :: 0 <= k < |from| ==>
              && from[k] < |groups|
              && Thin(groups, gone)[k] == groups[from[k]].(members := Thin(groups, gone)[k].members)
              && StaysOf(groups[from[k]].members, gone, Thin(groups, gone)[k].members)
    ensures forall k, l :: 0 <= k < l < |from| ==> from[k] < from[l]
    ensures forall i :: 0 <= i < |groups| ==>
              (i in from <==> exists a, b :: a in groups[i].members && b in groups[i].members && a != b && !gone(a) && !gone(b))
  {
    hide Key, Drop, StaysOf, Apart;
    from := ThinFrom(groups, gone);
    hide Thin, Thinned;
    forall i | 0 <= i < |groups|
      ensures i in from <==> exists a, b :: a in groups[i].members && b in groups[i].members && a != b && !gone(a) && !gone(b)
    {
      assert GroupOk(groups[i]);
      TwoLeft(groups[i], gone);
    }
    forall k | 0 <= k < |from|
      ensures Thin(groups, gone)[k] == groups[from[k]].(members := Thin(groups, gone)[k].members)
      ensures StaysOf(groups[from[k]].members, gone, Thin(groups, gone)[k].members)
    {
      assert GroupOk(groups[from[k]]);
      ThinnedIs(groups[from[k]], gone, Thin(groups, gone)[k]);
    }
  }

  lemma ThinnedIs(g: Group, gone: Member -> bool, h: Group)
    requires Thinned(g, gone) == [h]
    ensures h == g.(members := h.members) && StaysOf(g.members, gone, h.members)
  {
    DropStays(g.members, gone);
    DropKeeps(g.members, gone);
    hide Drop, StaysOf;
    assert h == Thinned(g, gone)[0];
  }

  lemma TwoLeft(g: Group, gone: Member -> bool)
    requires GroupOk(g)
    ensures Thinned(g, gone) != [] <==> exists a, b :: a in g.members && b in g.members && a != b && !gone(a) && !gone(b)
  {
    hide Key;
    DropKeeps(g.members, gone);
    DropKeysDistinct(g.members, gone);
    var left := Drop(g.members, gone);
    hide Drop;
    if |left| >= 2 {
      assert left[0] in left && left[1] in left && Key(left[0]) != Key(left[1]);
    }
    if a, b :| a in g.members && b in g.members && a != b && !gone(a) && !gone(b) {
      assert a in left && b in left;
      AtLeastTwo(left, a, b);
    }
  }

  // Taking members out keeps the family sound, and none of them is left in it.
  lemma ThinOk(groups: seq<Group>, gone: Member -> bool)
    requires GroupsOk(groups)
    ensures GroupsOk(Thin(groups, gone))
    ensures forall i, m :: 0 <= i < |Thin(groups, gone)| && m in Thin(groups, gone)[i].members ==> !gone(m)
  {
    hide Thinned, Thin, KeySet, Key;
    var from := ThinFrom(groups, gone);
    var thin := Thin(groups, gone);
    forall k | 0 <= k < |thin|
      ensures GroupOk(thin[k]) && KeySet(thin[k].members) <= KeySet(groups[from[k]].members)
      ensures forall m :: m in thin[k].members ==> !gone(m)
    {
      assert GroupOk(groups[from[k]]);
      ThinnedOk(groups[from[k]], gone);
      assert thin[k] in Thinned(groups[from[k]], gone);
    }
    forall k, l | 0 <= k < |thin| && 0 <= l < |thin| && k != l
      ensures Apart(thin[k], thin[l])
    {
      assert Apart(groups[from[k]], groups[from[l]]);
    }
  }

  // Any two others that shared a group still share one, decided the same way; and no
  // two come to share one.
  lemma ThinKeepsOthers(groups: seq<Group>, gone: Member -> bool, a: string, b: string, v: Verdict)
    requires GroupsOk(groups) && a != b
    requires forall i, m :: 0 <= i < |groups| && m in groups[i].members && (Key(m) == a || Key(m) == b) ==> !gone(m)
    ensures Shares(Thin(groups, gone), a, b, v) <==> Shares(groups, a, b, v)
  {
    hide Thinned, Thin, Holds, Key;
    var from := ThinFrom(groups, gone);
    var thin := Thin(groups, gone);
    forall i | 0 <= i < |groups|
      ensures Holds(groups[i], a, b, v) <==> Thinned(groups[i], gone) != [] && Holds(Thinned(groups[i], gone)[0], a, b, v)
    {
      assert GroupOk(groups[i]);
      TwoStay(groups[i], gone, a, b, v);
    }
    if Shares(groups, a, b, v) {
      var i :| 0 <= i < |groups| && Holds(groups[i], a, b, v);
      var k :| 0 <= k < |from| && from[k] == i;
      assert Holds(thin[k], a, b, v);
    }
    if Shares(thin, a, b, v) {
      var k :| 0 <= k < |thin| && Holds(thin[k], a, b, v);
      assert Holds(groups[from[k]], a, b, v);
    }
  }

  /* ---- The members of a decision ---- */

  predicate ByKey(m: Member, n: Member) {
    TextLeq(Key(m), Key(n))
  }

  lemma KeyOrder()
    ensures TotalPreorder(ByKey)
  {
    hide Key, TextLeq;
    TextOrder();
  }

  // The records a decision is about: usable members that name the same record count once.
  function Named(members: seq<Member>): set<string> {
    set m | m in members && Usable(m) :: Key(Normalized(m))
  }

  function Chosen(id: string, made: Option<string>): string {
    if id != "" || made == None then id else made.value
  }

  predicate KnownKind(kind: string) {
    kind == "contact" || kind == "event" || kind == "todo" || kind == "note"
  }

  // What a decision is refused for, in this order.
  function DecisionError(id: string, kind: string, verdict: Verdict, members: seq<Member>, made: Option<string>): Error {
    if verdict == Unknown then BadVerdict
    else if |Named(members)| < 2 then TooFew
    else if !KnownKind(kind) then BadKind
    else if id == "" && made == None then NoIdentifier
    else NoError
  }

  lemma DecisionErrorsExactly(id: string, kind: string, verdict: Verdict, members: seq<Member>, made: Option<string>)
    ensures var e, known := DecisionError(id, kind, verdict, members, made), kind == "contact" || kind == "event" || kind == "todo" || kind == "note";
            && (e == BadVerdict <==> verdict == Unknown)
            && (e == TooFew <==> verdict != Unknown && |Named(members)| < 2)
            && (e == BadKind <==> verdict != Unknown && |Named(members)| >= 2 && !known)
            && (e == NoIdentifier <==> verdict != Unknown && |Named(members)| >= 2 && known && id == "" && made == None)
            && (e == NoError <==> verdict != Unknown && |Named(members)| >= 2 && known && (id != "" || made.Some?))
  {
    hide Named;
  }

  // Usable, one for each key, in the order of the keys.
  ghost predicate NormalMembers(members: seq<Member>, out: seq<Member>) {
    && DistinctKeys(out) && Sorted(out, ByKey)
    && (forall m :: m in members && Usable(m) ==> Key(Normalized(m)) in KeySet(out))
    && (forall n :: n in out ==> exists m :: m in members && Usable(m) && n == Normalized(m))
  }

  method NormalizeMembers(members: seq<Member>) returns (out: seq<Member>)
    ensures NormalMembers(members, out)
  {
    out := [];
    for i := 0 to |members|
      invariant Collected(members[..i], out)
    {
      hide Collected, Key, KeySet, Usable, Normalized;
      assert members[..i + 1] == members[..i] + [members[i]];
      CollectedNext(members[..i], out, members[i]);
      if Usable(members[i]) && Key(Normalized(members[i])) !in KeySet(out) {
        out := out + [Normalized(members[i])];
      }
    }
    assert members[..|members|] == members;
    SortedMembers(out);
    SameKeys(out, StableSort(out, ByKey));
    out := StableSort(out, ByKey);
  }

  ghost predicate Collected(members: seq<Member>, out: seq<Member>) {
    && DistinctKeys(out)
    && (forall m :: m in members && Usable(m) ==> Key(Normalized(m)) in KeySet(out))
    && (forall n :: n in out ==> exists m :: m in members && Usable(m) && n == Normalized(m))
  }

  lemma CollectedNext(members: seq<Member>, out: seq<Member>, m: Member)
    requires Collected(members, out)
    ensures Collected(members + [m],
              if Usable(m) && Key(Normalized(m)) !in KeySet(out) then out + [Normalized(m)] else out)
  {
    hide Key, KeySet, Usable, Normalized;
    KeySetNext(out, Normalized(m));
    forall n | n in out + [Normalized(m)] && (n in out || Usable(m))
      ensures exists x :: x in members + [m] && Usable(x) && n == Normalized(x)
    {
      if n in out {
        var x :| x in members && Usable(x) && n == Normalized(x);
        assert x in members + [m];
      } else {
        assert m in members + [m];
      }
    }
  }

  lemma SameKeys(a: seq<Member>, b: seq<Member>)
    requires forall m :: m in b <==> m in a
    ensures KeySet(b) == KeySet(a)
  {
    hide Key;
  }

  lemma KeySetNext(members: seq<Member>, m: Member)
    ensures KeySet(members + [m]) == KeySet(members) + {Key(m)}
    ensures DistinctKeys(members) && Key(m) !in KeySet(members) ==> DistinctKeys(members + [m])
  {
    hide Key;
  }

  lemma SortedMembers(members: seq<Member>)
    requires DistinctKeys(members)
    ensures DistinctKeys(StableSort(members, ByKey)) && Sorted(StableSort(members, ByKey), ByKey)
    ensures forall m :: m in StableSort(members, ByKey) <==> m in members
  {
    hide Key, ByKey;
    KeyOrder();
    SortSorts(members, ByKey);
    SortKeepsDistinct(members, ByKey);
    var t := StableSort(members, ByKey);
    forall i, j | 0 <= i < j < |t|
      ensures Key(t[i]) != Key(t[j])
    {
      assert t[i] in members && t[j] in members && t[i] != t[j];
      var k :| 0 <= k < |members| && members[k] == t[i];
      var l :| 0 <= l < |members| && members[l] == t[j];
    }
  }

  function Among(keys: set<string>): Member -> bool {
    m => Key(m) in keys
  }

  function InCollection(account: string, path: string): Member -> bool {
    (m: Member) => m.account == account && NormalPath(m.collection) == path
  }

  /* ---- When two members are one record ---- */

  // A path is named with a slash at either end, whatever it was written with; nothing
  // stands for nothing, and a path in that form is left alone.
  lemma NormalPathMeans(path: string)
    ensures NormalPath(path) == "" <==> TrimSpace(path) == ""
    ensures var n := NormalPath(path); n != "" ==> n[0] == '/' && n[|n| - 1] == '/'
    ensures var n, t := NormalPath(path), TrimSpace(path);
            t != "" ==> n == (if t[0] == '/' then "" else "/") + t + (if t[|t| - 1] == '/' then "" else "/")
    ensures NormalPath(NormalPath(path)) == NormalPath(path)
  {
    hide TrimSpace;
    TrimSpaceTrims(path);
    var n := NormalPath(path);
    if n != "" {
      assert !IsSpace('/');
      TrimmedStays(n);
    }
  }

  // Where account and path hold no bar, two members have one key exactly when account,
  // path and UID agree, the path up to its slashes and the UID up to space.
  lemma KeyTellsApart(m: Member, n: Member)
    requires '|' !in m.account && '|' !in n.account && '|' !in m.collection && '|' !in n.collection
    ensures Key(m) == Key(n) <==>
              m.account == n.account && NormalPath(m.collection) == NormalPath(n.collection) && TrimSpace(m.uid) == TrimSpace(n.uid)
  {
    PathHasNoBar(m.collection);
    PathHasNoBar(n.collection);
    KeyParts(m);
    KeyParts(n);
    hide NormalPath, TrimSpace, Key;
    var p, q := NormalPath(m.collection), NormalPath(n.collection);
    if Key(m) == Key(n) {
      FirstBar(m.account, p + "|" + TrimSpace(m.uid), n.account, q + "|" + TrimSpace(n.uid));
      FirstBar(p, TrimSpace(m.uid), q, TrimSpace(n.uid));
    }
  }

  lemma KeyParts(m: Member)
    ensures Key(m) == m.account + "|" + (NormalPath(m.collection) + "|" + TrimSpace(m.uid))
  {
    hide NormalPath, TrimSpace;
  }

  lemma PathHasNoBar(path: string)
    requires '|' !in path
    ensures '|' !in NormalPath(path)
  {
    var t := TrimSpace(path);
    assert forall c :: c in t ==> c in path;
    hide TrimSpace;
  }

  lemma FirstBar(a: string, x: string, b: string, y: string)
    requires '|' !in a && '|' !in b && a + "|" + x == b + "|" + y
    ensures a == b && x == y
  {
    var s, t := a + "|" + x, b + "|" + y;
    assert "|"[0] == '|' && s[|a|] == '|' && t[|b|] == '|';
    assert forall i :: 0 <= i < |a| ==> s[i] == a[i];
    assert forall i :: 0 <= i < |b| ==> t[i] == b[i];
    assert a == s[..|a|] && b == t[..|b|] && x == s[|a| + 1..] && y == t[|b| + 1..];
  }

  // A collection is purged under any spelling of its path.
  lemma PurgedExactly(m: Member, account: string, path: string)
    ensures InCollection(account, NormalPath(path))(m) <==> m.account == account && NormalPath(m.collection) == NormalPath(path)
  {
    hide NormalPath;
  }

  // Accounts that hold a bar could be mistaken for a longer path.
  lemma BarsConfuse()
    ensures var m, n := Member("a", "/b/|/c/", "u"), Member("a|/b/", "/c/", "u");
            m.account != n.account && NormalPath(m.collection) != NormalPath(n.collection) && Key(m) == Key(n)
  {
    TrimmedStays("/b/|/c/");
    TrimmedStays("/c/");
    TrimmedStays("u");
    hide TrimSpace;
    assert "a" + "|" + "/b/|/c/" + "|" + "u" == "a|/b/" + "|" + "/c/" + "|" + "u";
  }

  /* ---- Preferred fields ---- */

  function FieldName(name: string): string {
    ToUpper(TrimSpace(name))
  }

  // setField: a blank value takes the preference away, a blank name is passed over.
  function WithField(fields: Fields, name: string, value: string): Fields {
    var n, v := FieldName(name), TrimSpace(value);
    if n == "" then fields else if v == "" then fields - {n} else fields[n := v]
  }

  // The preferences given with a decision, set one after the other.
  function FieldsIn(given: Fields, order: seq<string>): Fields
    requires forall n :: n in order ==> n in given
  {
    if order == [] then map[]
    else
      var last := order[|order| - 1];
      WithField(FieldsIn(given, order[..|order| - 1]), last, given[last])
  }

  // An order in which the map may be walked.
  ghost predicate Walk(given: Fields, order: seq<string>) {
    Distinct(order) && forall n :: n in order <==> n in given
  }

  method CollectFields(given: Fields) returns (fields: Fields, ghost order: seq<string>)
    ensures Walk(given, order) && fields == FieldsIn(given, order)
  {
    fields, order := map[], [];
    var rest := given.Keys;
    while rest != {}
      invariant rest <= given.Keys && Distinct(order) && forall n :: n in order <==> n in given.Keys - rest
      invariant fields == FieldsIn(given, order)
    {
      hide WithField;
      var name :| name in rest;
      assert (order + [name])[..|order|] == order && name !in order;
      fields := WithField(fields, name, given[name]);
      order, rest := order + [name], rest - {name};
    }
  }

  // Of the names that fold to one, the last one set decides.
  lemma {:induction false} LastNameDecides(given: Fields, order: seq<string>, k: nat, n: string)
    requires (forall x :: x in order ==> x in given) && k < |order| && FieldName(order[k]) == n != ""
    requires forall j :: k < j < |order| ==> FieldName(order[j]) != n
    ensures var v := TrimSpace(given[order[k]]);
            if v == "" then n !in FieldsIn(given, order) else n in FieldsIn(given, order) && FieldsIn(given, order)[n] == v
    decreases |order|
  {
    hide FieldName, TrimSpace;
    if k < |order| - 1 {
      assert FieldName(order[|order| - 1]) != n;
      LastNameDecides(given, order[..|order| - 1], k, n);
    }
  }

  lemma {:induction false} UnnamedField(given: Fields, order: seq<string>, n: string)
    requires (forall x :: x in order ==> x in given) && forall j :: 0 <= j < |order| ==> FieldName(order[j]) != n || n == ""
    ensures n !in FieldsIn(given, order)
    decreases |order|
  {
    hide FieldName, TrimSpace;
    if order != [] {
      assert FieldName(order[|order| - 1]) != n || n == "";
      UnnamedField(given, order[..|order| - 1], n);
    }
  }

  lemma {:induction false} LastNamed(order: seq<string>, n: string) returns (k: int)
    ensures -1 <= k < |order| && (k >= 0 ==> FieldName(order[k]) == n)
    ensures forall j :: k < j < |order| ==> FieldName(order[j]) != n
    decreases |order|
  {
    hide FieldName;
    if order == [] {
      k := -1;
    } else if FieldName(order[|order| - 1]) == n {
      k := |order| - 1;
    } else {
      k := LastNamed(order[..|order| - 1], n);
    }
  }

  // Names that fold to one carry one value.
  ghost predicate Agree(given: Fields) {
    forall m, n :: m in given && n in given && FieldName(m) == FieldName(n) != "" ==> TrimSpace(given[m]) == TrimSpace(given[n])
  }

  // A map is walked in no fixed order. What a decision keeps depends on that order, unless
  // names that fold to one carry one value.
  lemma FieldsDeterminedExactly(given: Fields)
    ensures (forall a, b :: Walk(given, a) && Walk(given, b) ==> FieldsIn(given, a) == FieldsIn(given, b)) <==> Agree(given)
  {
    hide FieldName, TrimSpace;
    if Agree(given) {
      forall a, b | Walk(given, a) && Walk(given, b)
        ensures FieldsIn(given, a) == FieldsIn(given, b)
      {
        AgreeingWalks(given, a, b);
      }
    } else {
      var m, n :| m in given && n in given && FieldName(m) == FieldName(n) != "" && TrimSpace(given[m]) != TrimSpace(given[n]);
      ClashingWalks(given, m, n);
    }
  }

  lemma AgreeingWalks(given: Fields, a: seq<string>, b: seq<string>)
    requires Agree(given) && Walk(given, a) && Walk(given, b)
    ensures FieldsIn(given, a) == FieldsIn(given, b)
  {
    forall n
      ensures n in FieldsIn(given, a) <==> n in FieldsIn(given, b)
      ensures n in FieldsIn(given, a) && n in FieldsIn(given, b) ==> FieldsIn(given, a)[n] == FieldsIn(given, b)[n]
    {
      SameField(given, a, b, n);
    }
  }

  lemma SameField(given: Fields, a: seq<string>, b: seq<string>, n: string)
    requires Agree(given) && Walk(given, a) && Walk(given, b)
    ensures n in FieldsIn(given, a) <==> n in FieldsIn(given, b)
    ensures n in FieldsIn(given, a) && n in FieldsIn(given, b) ==> FieldsIn(given, a)[n] == FieldsIn(given, b)[n]
  {
    hide FieldName, TrimSpace, FieldsIn;
    var k := LastNamed(a, n);
    var l := LastNamed(b, n);
    if n == "" || k < 0 {
      UnnamedField(given, a, n);
    } else {
      LastNameDecides(given, a, k, n);
      assert a[k] in b;
    }
    if n == "" || l < 0 {
      UnnamedField(given, b, n);
    } else {
      LastNameDecides(given, b, l, n);
      assert b[l] in a;
    }
    if k >= 0 && l >= 0 {
      assert a[k] in given && b[l] in given;
    }
  }

  lemma ClashingWalks(given: Fields, m: string, n: string)
    requires m in given && n in given && FieldName(m) == FieldName(n) != "" && TrimSpace(given[m]) != TrimSpace(given[n])
    ensures exists a, b :: Walk(given, a) && Walk(given, b) && FieldsIn(given, a) != FieldsIn(given, b)
  {
    hide FieldName, TrimSpace, FieldsIn;
    var rest := SomeOrder(given.Keys - {m, n});
    var a, b := rest + [m, n], rest + [n, m];
    assert a[|rest|] == m && a[|rest| + 1] == n && b[|rest|] == n && b[|rest| + 1] == m;
    assert Walk(given, a) && Walk(given, b);
    LastNameDecides(given, a, |rest| + 1, FieldName(n));
    LastNameDecides(given, b, |rest| + 1, FieldName(n));
  }

  lemma {:induction false} SomeOrder(names: set<string>) returns (order: seq<string>)
    ensures Distinct(order) && forall n :: n in order <==> n in names
    decreases names
  {
    order := [];
    if names != {} {
      var name :| name in names;
      order := SomeOrder(names - {name});
      order := order + [name];
    }
  }

  /* ---- The store of decisions ---- */

  class Duplicates {
    var groups: seq<Group>

    ghost predicate Valid()
      reads this
    {
      GroupsOk(groups)
    }

    constructor ()
      ensures Valid() && groups == []
    {
      groups := [];
    }

    method Find(member: Member) returns (found: Option<Group>)
      ensures found.Some? ==> found.value in groups && Key(Normalized(member)) in KeySet(found.value.members)
      ensures found == None <==> !Listed(groups, Key(Normalized(member)))
    {
      hide Key, KeySet, Normalized;
      var key := Key(Normalized(member));
      for i := 0 to |groups|
        invariant forall j :: 0 <= j < i ==> key !in KeySet(groups[j].members)
      {
        var has := Has(groups[i], key);
        if has {
          return Some(groups[i]);
        }
      }
      return None;
    }

    static method Has(g: Group, key: string) returns (has: bool)
      ensures has <==> key in KeySet(g.members)
    {
      hide Key;
      for i := 0 to |g.members|
        invariant forall j :: 0 <= j < i ==> Key(g.members[j]) != key
      {
        if Key(g.members[i]) == key {
          assert g.members[i] in g.members;
          return true;
        }
      }
      return false;
    }

    method IsIgnored(a: Member, b: Member) returns (ignored: bool)
      ensures ignored <==> Shares(groups, Key(Normalized(a)), Key(Normalized(b)), Ignored)
    {
      hide Key, KeySet, Normalized;
      var ka, kb := Key(Normalized(a)), Key(Normalized(b));
      for i := 0 to |groups|
        invariant forall j :: 0 <= j < i ==> !Holds(groups[j], ka, kb, Ignored)
      {
        if groups[i].verdict == Ignored {
          var hasA := Has(groups[i], ka);
          var hasB := Has(groups[i], kb);
          if hasA && hasB {
            assert Holds(groups[i], ka, kb, Ignored);
            return true;
          }
        }
      }
      return false;
    }

    // release
    method Release(members: seq<Member>)
      modifies this
      ensures groups == Thin(old(groups), Among(KeySet(members)))
    {
      var wanted := KeySet(members);
      var gone := Among(wanted);
      var kept: seq<Group> := [];
      for i := 0 to |groups|
        invariant groups == old(groups) && kept == Thin(groups[..i], gone)
      {
        assert groups[..i + 1][..i] == groups[..i];
        var g := groups[i];
        var remaining := Remaining(g.members, gone);
        if |remaining| == |g.members| {
          kept := kept + [g];
        } else if |remaining| >= 2 {
          kept := kept + [g.(members := remaining)];
        }
      }
      assert groups[..|groups|] == groups;
      groups := kept;
    }

    static method Remaining(members: seq<Member>, gone: Member -> bool) returns (remaining: seq<Member>)
      ensures remaining == Drop(members, gone)
    {
      remaining := [];
      for i := 0 to |members|
        invariant remaining == Drop(members[..i], gone)
      {
        assert members[..i + 1][..i] == members[..i];
        if !gone(members[i]) {
          remaining := remaining + [members[i]];
        }
      }
      assert members[..|members|] == members;
    }

    // The decision is the current one: its members leave whatever groups they were in.
    // Everything is checked before the first group is touched, except that an identifier
    // could be made: when it cannot, the members have already left.
    method Decide(id: string, kind: string, verdict: Verdict, members: seq<Member>, fields: Fields, now: int, made: Option<string>)
      returns (err: Error, decided: Option<Group>)
      requires Valid()
      modifies this
      ensures Valid()
      ensures err == DecisionError(TrimSpace(id), TrimSpace(kind), verdict, members, made)
      ensures err in {BadVerdict, TooFew, BadKind} ==> groups == old(groups)
      ensures decided.Some? <==> err == NoError
      ensures err == NoError ==> NormalMembers(members, decided.value.members)
      ensures err == NoError ==> decided.value.verdict == verdict && decided.value.kind == TrimSpace(kind)
      ensures err == NoError ==> exists order :: Walk(fields, order) && decided.value.fields == FieldsIn(fields, order)
      ensures err == NoError ==> decided.value.id == Chosen(TrimSpace(id), made) && decided.value.decidedAt == now
      ensures err == NoError ==>
                groups == Thin(old(groups), Among(KeySet(decided.value.members))) + [decided.value]
      ensures err == NoIdentifier ==> exists normal ::
                NormalMembers(members, normal) && groups == Thin(old(groups), Among(KeySet(normal)))
    {
      hide Key, KeySet, Thin, NormalMembers, GroupsOk, Drop, Named, KnownKind, TrimSpace;
      if verdict == Unknown {
        return BadVerdict, None;
      }
      var normal := NormalizeMembers(members);
      NormalAreDistinct(members, normal);
      if |normal| < 2 {
        return TooFew, None;
      }
      var trimmed := TrimSpace(kind);
      if !KnownKind(trimmed) {
        return BadKind, None;
      }
      ReleaseThen(groups, normal);
      Release(normal);
      var chosen := TrimSpace(id);
      if chosen == "" {
        if made == None {
          return NoIdentifier, None;
        }
        chosen := made.value;
      }
      ghost var order;
      var kept;
      kept, order := CollectFields(fields);
      var g := Group(chosen, trimmed, verdict, normal, kept, now);
      NewGroupOk(groups, g);
      groups := groups + [g];
      return NoError, Some(g);
    }

    // The first group of that identifier prefers this value from now on.
    method SetField(id: string, name: string, value: string) returns (found: bool)
      requires Valid()
      modifies this
      ensures Valid()
      ensures !found ==> groups == old(groups) && forall g :: g in groups ==> g.id != TrimSpace(id)
      ensures found ==> exists i ::
                && 0 <= i < |old(groups)| && old(groups)[i].id == TrimSpace(id)
                && (forall j :: 0 <= j < i ==> old(groups)[j].id != TrimSpace(id))
                && groups == old(groups)[i := old(groups)[i].(fields := WithField(old(groups)[i].fields, name, value))]
    {
      hide GroupsOk, TrimSpace, WithField;
      var wanted := TrimSpace(id);
      for i := 0 to |groups|
        invariant groups == old(groups) && forall j :: 0 <= j < i ==> groups[j].id != wanted
      {
        if groups[i].id == wanted {
          var g := groups[i].(fields := WithField(groups[i].fields, name, value));
          SameMembersOk(groups, i, g);
          groups := groups[i := g];
          return true;
        }
      }
      return false;
    }

    // Members that are no longer there go silently.
    method Prune(gone: Member -> bool) returns (changed: bool)
      requires Valid()
      modifies this
      ensures Valid() && groups == Thin(old(groups), gone)
      ensures changed <==> exists i :: 0 <= i < |old(groups)| && Loses(old(groups)[i], gone)
      ensures !changed ==> groups == old(groups)
    {
      hide Key, Thin, GroupsOk, Drop;
      ThinOk(groups, gone);
      var kept;
      kept, changed := Survivors(groups, gone);
      if changed {
        groups := kept;
      }
    }

    static method Survivors(groups: seq<Group>, gone: Member -> bool) returns (kept: seq<Group>, changed: bool)
      requires GroupsOk(groups)
      ensures kept == Thin(groups, gone) && (!changed ==> kept == groups)
      ensures changed <==> exists i :: 0 <= i < |groups| && Loses(groups[i], gone)
    {
      hide Thin, GroupsOk, Drop, Loses;
      changed, kept := false, [];
      ThinNone(gone);
      for i := 0 to |groups|
        invariant kept == Thin(groups[..i], gone)
        invariant changed <==> exists j :: 0 <= j < i && Loses(groups[j], gone)
        invariant !changed ==> kept == groups[..i]
      {
        PruneStep(groups, i, gone);
        var left, lost := PruneOne(groups[i], gone);
        kept := kept + left;
        changed := changed || lost;
      }
      assert groups[..|groups|] == groups;
    }

    static method PruneOne(g: Group, gone: Member -> bool) returns (left: seq<Group>, lost: bool)
      ensures left == if |Drop(g.members, gone)| < 2 then [] else [g.(members := Drop(g.members, gone))]
      ensures lost <==> |Drop(g.members, gone)| != |g.members|
    {
      var remaining := Remaining(g.members, gone);
      lost := |remaining| != |g.members|;
      left := if |remaining| < 2 then [] else [g.(members := remaining)];
    }

    method PurgeCollection(account: string, collection: string) returns (changed: bool)
      requires Valid()
      modifies this
      ensures Valid()
      ensures groups == Thin(old(groups), InCollection(account, NormalPath(collection)))
      ensures changed <==> exists i :: 0 <= i < |old(groups)| && Loses(old(groups)[i], InCollection(account, NormalPath(collection)))
    {
      changed := Prune(InCollection(account, NormalPath(collection)));
    }

    // The first group of that identifier goes, whole; the others stay.
    method Remove(id: string) returns (removed: bool)
      requires Valid()
      modifies this
      ensures Valid()
      ensures !removed ==> groups == old(groups) && forall g :: g in groups ==> g.id != TrimSpace(id)
      ensures removed ==> exists i ::
                && 0 <= i < |old(groups)| && old(groups)[i].id == TrimSpace(id)
                && (forall j :: 0 <= j < i ==> old(groups)[j].id != TrimSpace(id))
                && groups == old(groups)[..i] + old(groups)[i + 1..]
    {
      hide GroupsOk, TrimSpace;
      var wanted := TrimSpace(id);
      for i := 0 to |groups|
        invariant groups == old(groups) && forall j :: 0 <= j < i ==> groups[j].id != wanted
      {
        if groups[i].id == wanted {
          WithoutOneOk(groups, i);
          groups := groups[..i] + groups[i + 1..];
          return true;
        }
      }
      return false;
    }
  }

  ghost predicate Loses(g: Group, gone: Member -> bool) {
    exists m :: m in g.members && gone(m)
  }

  lemma ThinNone(gone: Member -> bool)
    ensures Thin([], gone) == []
  {
  }

  lemma PruneStep(groups: seq<Group>, i: nat, gone: Member -> bool)
    requires GroupsOk(groups) && i < |groups|
    ensures var g := groups[i];
            var left := Drop(g.members, gone);
            && Thin(groups[..i + 1], gone) == Thin(groups[..i], gone) + (if |left| < 2 then [] else [g.(members := left)])
            && (|left| != |g.members| <==> Loses(g, gone))
            && (|left| == |g.members| ==> |left| >= 2 && groups[..i + 1] == groups[..i] + [g.(members := left)])
  {
    hide Key, Drop;
    assert GroupOk(groups[i]);
    hide GroupsOk, GroupOk;
    DropKeeps(groups[i].members, gone);
    assert groups[..i + 1][..i] == groups[..i];
  }

  lemma NormalAreDistinct(members: seq<Member>, normal: seq<Member>)
    requires NormalMembers(members, normal)
    ensures DistinctKeys(normal) && KeySet(normal) == Named(members) && |normal| == |Named(members)|
  {
    KeysCount(normal);
    forall n | n in normal
      ensures Key(n) in Named(members)
    {
      var m :| m in members && Usable(m) && n == Normalized(m);
      assert Key(Normalized(m)) in Named(members);
    }
    assert KeySet(normal) == Named(members);
  }

  lemma {:induction false} KeysCount(members: seq<Member>)
    requires DistinctKeys(members)
    ensures |KeySet(members)| == |members|
  {
    hide Key;
    if members != [] {
      var init, last := members[..|members| - 1], members[|members| - 1];
      KeysCount(init);
      assert members == init + [last];
      forall m | m in init
        ensures Key(m) != Key(last)
      {
        var i :| 0 <= i < |init| && init[i] == m;
        assert members[i] == m && Key(members[i]) != Key(members[|init|]);
      }
      assert KeySet(members) == KeySet(init) + {Key(last)};
    }
  }

  lemma ReleaseThen(groups: seq<Group>, normal: seq<Member>)
    requires GroupsOk(groups)
    ensures var left := Thin(groups, Among(KeySet(normal)));
            GroupsOk(left) && forall i, m :: 0 <= i < |left| && m in left[i].members ==> Key(m) !in KeySet(normal)
  {
    hide Key, KeySet, GroupsOk, Thin;
    var left, gone := Thin(groups, Among(KeySet(normal))), Among(KeySet(normal));
    ThinOk(groups, gone);
    forall i, m | 0 <= i < |left| && m in left[i].members
      ensures Key(m) !in KeySet(normal)
    {
      assert !gone(m);
    }
  }

  lemma NewGroupOk(groups: seq<Group>, g: Group)
    requires GroupsOk(groups) && GroupOk(g)
    requires forall i, m :: 0 <= i < |groups| && m in groups[i].members ==> Key(m) !in KeySet(g.members)
    ensures GroupsOk(groups + [g])
  {
    hide Key;
    var all := groups + [g];
    forall i | 0 <= i < |all|
      ensures GroupOk(all[i])
    {
      if i < |groups| {
        assert GroupOk(groups[i]);
      }
    }
    forall i, j | 0 <= i < |all| && 0 <= j < |all| && i != j
      ensures Apart(all[i], all[j])
    {
      if i < |groups| && j < |groups| {
        assert Apart(groups[i], groups[j]);
      }
    }
  }

  lemma SameMembersOk(groups: seq<Group>, i: nat, g: Group)
    requires GroupsOk(groups) && i < |groups| && g.members == groups[i].members
    ensures GroupsOk(groups[i := g])
  {
    hide Key;
    var all := groups[i := g];
    forall j | 0 <= j < |all|
      ensures GroupOk(all[j])
    {
      assert GroupOk(groups[j]);
    }
    forall j, k | 0 <= j < |all| && 0 <= k < |all| && j != k
      ensures Apart(all[j], all[k])
    {
      assert Apart(groups[j], groups[k]);
    }
  }

  lemma WithoutOneOk(groups: seq<Group>, i: nat)
    requires GroupsOk(groups) && i < |groups|
    ensures GroupsOk(groups[..i] + groups[i + 1..])
  {
    hide GroupOk, Apart;
    var rest := groups[..i] + groups[i + 1..];
    forall j | 0 <= j < |rest|
      ensures GroupOk(rest[j])
    {
      assert GroupOk(groups[if j < i then j else j + 1]);
    }
    forall j, k | 0 <= j < |rest| && 0 <= k < |rest| && j != k
      ensures Apart(rest[j], rest[k])
    {
      assert Apart(groups[if j < i then j else j + 1], groups[if k < i then k else k + 1]);
    }
  }

  /* ---- After a decision ---- */

  // Each named member is in the new group, and in no other.
  lemma DecidedAreTogether(before: seq<Group>, g: Group, members: seq<Member>, m: Member, i: nat)
    requires GroupsOk(before) && GroupOk(g) && NormalMembers(members, g.members) && m in members && Usable(m)
    requires i <= |Thin(before, Among(KeySet(g.members)))|
    ensures var groups := Thin(before, Among(KeySet(g.members))) + [g];
            Key(Normalized(m)) in KeySet(groups[i].members) <==> i == |groups| - 1
  {
    hide Key, Normalized, Usable, Thin, GroupsOk;
    ReleaseThen(before, g.members);
    assert Key(Normalized(m)) in KeySet(g.members);
  }

  // Any two others stand as they stood.
  lemma DecisionSparesOthers(before: seq<Group>, g: Group, a: string, b: string, v: Verdict)
    requires GroupsOk(before) && a != b && a !in KeySet(g.members) && b !in KeySet(g.members)
    ensures Shares(Thin(before, Among(KeySet(g.members))) + [g], a, b, v) <==> Shares(before, a, b, v)
  {
    hide Key, Thin, KeySet;
    var thin := Thin(before, Among(KeySet(g.members)));
    ThinKeepsOthers(before, Among(KeySet(g.members)), a, b, v);
    if Shares(thin, a, b, v) {
      var i :| 0 <= i < |thin| && Holds(thin[i], a, b, v);
      assert Holds((thin + [g])[i], a, b, v);
    }
    if Shares(thin + [g], a, b, v) {
      var i :| 0 <= i < |thin + [g]| && Holds((thin + [g])[i], a, b, v);
      assert i < |thin| && Holds(thin[i], a, b, v);
    }
  }
}
