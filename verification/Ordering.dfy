// Sorting as the Go standard library promises it: a stable sort by a total
// preorder, and the byte order of strings.
module Ordering {

  ghost predicate TotalPreorder<T(!new)>(leq: (T, T) -> bool) {
    && (forall a, b :: leq(a, b) || leq(b, a))
    && (forall a, b, c :: leq(a, b) && leq(b, c) ==> leq(a, c))
  }

  ghost predicate Sorted<T>(s: seq<T>, leq: (T, T) -> bool) {
    forall i, j :: 0 <= i < j < |s| ==> leq(s[i], s[j])
  }

  ghost predicate Distinct<T>(s: seq<T>) {
    forall i, j :: 0 <= i < j < |s| ==> s[i] != s[j]
  }

  function Insert<T>(x: T, s: seq<T>, leq: (T, T) -> bool): seq<T> {
    if s == [] then [x]
    else if leq(x, s[0]) then [x] + s
    else [s[0]] + Insert(x, s[1..], leq)
  }

  function StableSort<T>(s: seq<T>, leq: (T, T) -> bool): seq<T> {
    if s == [] then [] else Insert(s[0], StableSort(s[1..], leq), leq)
  }

  // The elements of `s` that compare equal to `e`, in their order.
  ghost function Ties<T>(s: seq<T>, e: T, leq: (T, T) -> bool): seq<T> {
    if s == [] then []
    else (if leq(s[0], e) && leq(e, s[0]) then [s[0]] else []) + Ties(s[1..], e, leq)
  }

  lemma {:induction false} InsertAdds<T>(x: T, s: seq<T>, leq: (T, T) -> bool)
    ensures multiset(Insert(x, s, leq)) == multiset(s) + multiset{x}
    ensures forall y :: y in Insert(x, s, leq) ==> y == x || y in s
  {
    if s != [] && !leq(x, s[0]) {
      InsertAdds(x, s[1..], leq);
      assert s == [s[0]] + s[1..];
    }
  }

  lemma {:induction false} InsertSorts<T(!new)>(x: T, s: seq<T>, leq: (T, T) -> bool)
    requires TotalPreorder(leq) && Sorted(s, leq)
    ensures Sorted(Insert(x, s, leq), leq)
  {
    if s == [] {
    } else if leq(x, s[0]) {
      forall i | 0 <= i < |s|
        ensures leq(x, s[i])
      {
        if i > 0 {
          assert leq(s[0], s[i]);
        }
      }
    } else {
      InsertSorts(x, s[1..], leq);
      InsertAdds(x, s[1..], leq);
      var t := Insert(x, s[1..], leq);
      forall y | y in t
        ensures leq(s[0], y)
      {
      }
    }
  }

  lemma {:induction false} SortSorts<T(!new)>(s: seq<T>, leq: (T, T) -> bool)
    requires TotalPreorder(leq)
    ensures Sorted(StableSort(s, leq), leq) && multiset(StableSort(s, leq)) == multiset(s)
  {
    if s != [] {
      SortSorts(s[1..], leq);
      InsertSorts(s[0], StableSort(s[1..], leq), leq);
      InsertAdds(s[0], StableSort(s[1..], leq), leq);
      assert s == [s[0]] + s[1..];
    }
  }

  lemma {:induction false} InsertKeepsTies<T(!new)>(x: T, s: seq<T>, leq: (T, T) -> bool, e: T)
    requires TotalPreorder(leq)
    ensures Ties(Insert(x, s, leq), e, leq) == (if leq(x, e) && leq(e, x) then [x] else []) + Ties(s, e, leq)
  {
    if s != [] && !leq(x, s[0]) {
      InsertKeepsTies(x, s[1..], leq, e);
      assert Insert(x, s, leq)[1..] == Insert(x, s[1..], leq);
    } else {
      assert Insert(x, s, leq)[1..] == s;
    }
  }

  lemma {:induction false} SortIsStable<T(!new)>(s: seq<T>, leq: (T, T) -> bool, e: T)
    requires TotalPreorder(leq)
    ensures Ties(StableSort(s, leq), e, leq) == Ties(s, e, leq)
  {
    if s != [] {
      SortIsStable(s[1..], leq, e);
      InsertKeepsTies(s[0], StableSort(s[1..], leq), leq, e);
    }
  }

  lemma DistinctCounts<T>(s: seq<T>)
    ensures Distinct(s) <==> forall x :: x in s ==> multiset(s)[x] == 1
  {
    if Distinct(s) {
      forall x | x in s
        ensures multiset(s)[x] == 1
      {
        DistinctCount(s, x);
      }
    } else {
      var i, j :| 0 <= i < j < |s| && s[i] == s[j];
      assert s == s[..j] + [s[j]] + s[j + 1..];
      assert s[i] in s[..j];
      assert s[i] in multiset(s[..j]);
      assert multiset(s) == multiset(s[..j]) + multiset{s[j]} + multiset(s[j + 1..]);
      assert s[i] in s && multiset(s)[s[i]] != 1;
    }
  }

  lemma {:induction false} DistinctCount<T>(s: seq<T>, x: T)
    requires Distinct(s)
    ensures multiset(s)[x] == if x in s then 1 else 0
  {
    if s != [] {
      DistinctCount(s[1..], x);
      assert s == [s[0]] + s[1..];
      if x == s[0] {
        assert x !in s[1..];
      } else {
        assert x in s <==> x in s[1..];
      }
    }
  }

  lemma SortKeepsDistinct<T(!new)>(s: seq<T>, leq: (T, T) -> bool)
    requires TotalPreorder(leq) && Distinct(s)
    ensures Distinct(StableSort(s, leq))
    ensures forall x :: x in StableSort(s, leq) <==> x in s
  {
    SortSorts(s, leq);
    var t := StableSort(s, leq);
    forall x
      ensures x in t <==> x in s
    {
      assert x in t <==> x in multiset(t);
      assert x in s <==> x in multiset(s);
    }
    DistinctCounts(s);
    DistinctCounts(t);
  }

  lemma {:induction false} SortOfSorted<T(!new)>(s: seq<T>, leq: (T, T) -> bool)
    requires Sorted(s, leq)
    ensures StableSort(s, leq) == s
  {
    if s != [] {
      SortOfSorted(s[1..], leq);
      assert |s| > 1 ==> leq(s[0], s[1]);
    }
  }

  /* ---- Leaving elements out ---- */

  function Except<T(==)>(xs: seq<T>, gone: set<T>): seq<T> {
    if xs == [] then []
    else Except(xs[..|xs| - 1], gone) + if xs[|xs| - 1] in gone then [] else [xs[|xs| - 1]]
  }

  lemma ExceptSnoc<T>(xs: seq<T>, x: T, gone: set<T>)
    ensures Except(xs + [x], gone) == Except(xs, gone) + if x in gone then [] else [x]
  {
    assert (xs + [x])[..|xs + [x]| - 1] == xs;
  }

  lemma {:induction false} ExceptKeeps<T>(xs: seq<T>, gone: set<T>)
    ensures forall y :: y in Except(xs, gone) <==> y in xs && y !in gone
    ensures |Except(xs, gone)| <= |xs|
    ensures Distinct(xs) ==> Distinct(Except(xs, gone))
  {
    if xs != [] {
      ExceptKeeps(xs[..|xs| - 1], gone);
      assert xs == xs[..|xs| - 1] + [xs[|xs| - 1]];
    }
  }

  lemma {:induction false} ExceptTwice<T>(xs: seq<T>, a: set<T>, b: set<T>)
    ensures Except(Except(xs, a), b) == Except(xs, a + b)
  {
    if xs != [] {
      var init, last := xs[..|xs| - 1], xs[|xs| - 1];
      ExceptTwice(init, a, b);
      if last !in a {
        ExceptSnoc(Except(init, a), last, b);
      } else {
        assert Except(init, a) + [] == Except(init, a);
        assert Except(init, a + b) + [] == Except(init, a + b);
      }
    }
  }

  lemma {:induction false} ExceptNothing<T>(xs: seq<T>, gone: set<T>)
    requires forall y :: y in xs ==> y !in gone
    ensures Except(xs, gone) == xs
  {
    if xs != [] {
      ExceptNothing(xs[..|xs| - 1], gone);
      assert xs == xs[..|xs| - 1] + [xs[|xs| - 1]];
    }
  }

  lemma {:induction false} ExceptAll<T>(xs: seq<T>, gone: set<T>)
    requires forall y :: y in xs ==> y in gone
    ensures Except(xs, gone) == []
  {
    if xs != [] {
      ExceptAll(xs[..|xs| - 1], gone);
    }
  }

  lemma {:induction false} ExceptJoin<T>(a: seq<T>, b: seq<T>, gone: set<T>)
    ensures Except(a + b, gone) == Except(a, gone) + Except(b, gone)
    decreases |b|
  {
    if b == [] {
      assert a + b == a;
    } else {
      var init, last := b[..|b| - 1], b[|b| - 1];
      ExceptJoin(a, init, gone);
      assert a + b == (a + init) + [last];
      ExceptSnoc(a + init, last, gone);
    }
  }

  lemma ExceptMiddle<T>(a: seq<T>, x: T, b: seq<T>)
    requires x !in a && x !in b
    ensures Except(a + [x] + b, {x}) == a + b
  {
    ExceptNothing(a, {x});
    ExceptNothing(b, {x});
    ExceptSnoc(a, x, {x});
    assert a + [] == a;
    ExceptJoin(a + [x], b, {x});
  }

  // Splicing out the one place an identifier has removes it.
  lemma SpliceIsExcept<T>(xs: seq<T>, i: nat)
    requires Distinct(xs) && i < |xs|
    ensures xs[..i] + xs[i + 1..] == Except(xs, {xs[i]})
  {
    assert xs == xs[..i] + [xs[i]] + xs[i + 1..];
    ExceptMiddle(xs[..i], xs[i], xs[i + 1..]);
  }

  /* ---- The two orders in use ---- */

  predicate NatLeq(a: nat, b: nat) {
    a <= b
  }

  predicate TextLeq(a: string, b: string) {
    if a == [] then true
    else if b == [] then false
    else if a[0] != b[0] then a[0] < b[0]
    else TextLeq(a[1..], b[1..])
  }

  lemma {:induction false} TextTotal(a: string, b: string)
    ensures TextLeq(a, b) || TextLeq(b, a)
    ensures TextLeq(a, b) && TextLeq(b, a) ==> a == b
    decreases |a|
  {
    if a != [] && b != [] {
      TextTotal(a[1..], b[1..]);
      assert a == [a[0]] + a[1..] && b == [b[0]] + b[1..];
    }
  }

  lemma {:induction false} TextTransitive(a: string, b: string, c: string)
    requires TextLeq(a, b) && TextLeq(b, c)
    ensures TextLeq(a, c)
    decreases |a|
  {
    if a != [] && b != [] && c != [] && a[0] == b[0] == c[0] {
      TextTransitive(a[1..], b[1..], c[1..]);
    }
  }

  // Texts are in order when one begins the other, or at the first place where they differ
  // the character is less.
  lemma {:induction false} TextLeqExactly(a: string, b: string)
    ensures TextLeq(a, b) <==> a <= b || exists k :: 0 <= k < |a| && k < |b| && a[..k] == b[..k] && a[k] < b[k]
    decreases |a|
  {
    if a != [] && b != [] && a[0] == b[0] {
      TextLeqExactly(a[1..], b[1..]);
      assert a == [a[0]] + a[1..] && b == [b[0]] + b[1..];
      if k :| 0 <= k < |a| - 1 && k < |b| - 1 && a[1..][..k] == b[1..][..k] && a[1..][k] < b[1..][k] {
        assert a[..k + 1] == [a[0]] + a[1..][..k] && b[..k + 1] == [b[0]] + b[1..][..k];
        assert a[k + 1] < b[k + 1];
      }
      if k :| 0 <= k < |a| && k < |b| && a[..k] == b[..k] && a[k] < b[k] {
        assert a[1..][..k - 1] == a[..k][1..] && b[1..][..k - 1] == b[..k][1..];
        assert a[1..][k - 1] < b[1..][k - 1];
      }
    } else if a != [] && b != [] && a[0] < b[0] {
      assert a[..0] == b[..0];
    }
  }

  lemma TextOrder()
    ensures TotalPreorder(TextLeq)
    ensures forall a, b :: TextLeq(a, b) && TextLeq(b, a) ==> a == b
  {
    forall a, b
      ensures TextLeq(a, b) || TextLeq(b, a)
      ensures TextLeq(a, b) && TextLeq(b, a) ==> a == b
    {
      TextTotal(a, b);
    }
    forall a, b, c | TextLeq(a, b) && TextLeq(b, c)
      ensures TextLeq(a, c)
    {
      TextTransitive(a, b, c);
    }
  }
}
