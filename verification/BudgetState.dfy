// The process-wide budget as a value: what every cache holds, what the budget
// thinks it holds, and what an eviction across sessions may take
// (internal/session/budget.go).
module BudgetState {
  import opened Ordering
  import opened Recency
  import opened Sums
  import opened CacheState
  import opened CacheEviction

  ghost predicate Counted(v: State, listed: bool, n: int) {
    if Bytes(v) > 0 then listed && n == Bytes(v) else !listed
  }

  // The budget lists exactly the caches that hold something, each at its true size.
  ghost predicate Accounted<C>(views: map<C, State>, used: map<C, int>, total: int) {
    && used.Keys <= views.Keys && total == SumOf(used)
    && forall c :: c in views ==> Counted(views[c], c in used, if c in used then used[c] else 0)
  }

  function BodyStamps(v: State): set<nat> {
    set r | r in v.bodies :: r.seqno
  }

  function ThumbStamps(v: State): set<nat> {
    set k | k in v.thumbs :: v.thumbs[k].seqno
  }

  // One clock orders every cache, so no two caches share a sequence number.
  ghost predicate ApartPair(v: State, w: State) {
    BodyStamps(v) !! BodyStamps(w) && ThumbStamps(v) !! ThumbStamps(w)
  }

  ghost predicate Apart<C>(views: map<C, State>) {
    forall c, d {:trigger ApartPair(views[c], views[d])} :: c in views && d in views && c != d ==> ApartPair(views[c], views[d])
  }

  ghost predicate Sound(v: State, clock: nat) {
    Wf(v) && Before(v, clock)
  }

  ghost predicate Pool<C>(views: map<C, State>, clock: nat) {
    Apart(views) && forall c {:trigger Sound(views[c], clock)} :: c in views ==> Sound(views[c], clock)
  }

  // Every sequence number in `w` was in `v` or is newer than `clock`.
  ghost predicate Younger(v: State, w: State, clock: nat) {
    && (forall n :: n in BodyStamps(w) ==> n in BodyStamps(v) || n > clock)
    && (forall n :: n in ThumbStamps(w) ==> n in ThumbStamps(v) || n > clock)
  }

  lemma YoungerTwice(v: State, w: State, x: State, clock: nat, clock': nat)
    requires Younger(v, w, clock) && Younger(w, x, clock') && clock <= clock'
    ensures Younger(v, x, clock)
  {
  }

  lemma StampsBefore(v: State, clock: nat)
    requires Before(v, clock)
    ensures forall n :: n in BodyStamps(v) ==> n <= clock
    ensures forall n :: n in ThumbStamps(v) ==> n <= clock
  {
  }

  lemma PairStays(v: State, w: State, d: State, clock: nat)
    requires ApartPair(v, d) && Younger(v, w, clock) && Before(d, clock)
    ensures ApartPair(w, d) && ApartPair(d, w)
  {
    StampsBefore(d, clock);
  }

  lemma PoolUpdate<C>(views: map<C, State>, clock: nat, c: C, w: State, clock': nat)
    requires Pool(views, clock) && c in views && clock <= clock'
    requires Younger(views[c], w, clock) && Sound(w, clock')
    ensures Pool(views[c := w], clock')
  {
    forall d | d in views && d != c
      ensures ApartPair(w, views[d]) && ApartPair(views[d], w) && Sound(views[d], clock')
    {
      assert ApartPair(views[c], views[d]);
      assert Sound(views[d], clock);
      PairStays(views[c], w, views[d], clock);
    }
  }

  lemma InPool<C>(views: map<C, State>, clock: nat, c: C)
    requires Pool(views, clock) && c in views
    ensures Wf(views[c]) && Before(views[c], clock)
  {
    assert Sound(views[c], clock);
  }

  // A cache joining with nothing in it.
  lemma JoinsEmpty<C>(views: map<C, State>, used: map<C, int>, total: int, clock: nat, c: C)
    requires Pool(views, clock) && Accounted(views, used, total) && c !in views
    ensures Pool(views[c := EmptyState], clock) && Accounted(views[c := EmptyState], used, total)
  {
    assert Sound(EmptyState, clock);
    hide Sound;
    forall d | d in views
      ensures ApartPair(EmptyState, views[d]) && ApartPair(views[d], EmptyState)
    {
      assert BodyStamps(EmptyState) == {} && ThumbStamps(EmptyState) == {};
    }
  }

  // What `adjust` does to the book.
  function Adjusted<C>(used: map<C, int>, c: C, n: int): map<C, int> {
    if n <= 0 then used - {c} else used[c := n]
  }

  function Listed<C>(used: map<C, int>, c: C): int {
    if c in used then used[c] else 0
  }

  lemma AdjustAccounts<C>(views: map<C, State>, used: map<C, int>, total: int, c: C, w: State)
    requires Accounted(views, used, total) && c in views && Bytes(w) >= 0
    ensures Accounted(views[c := w], Adjusted(used, c, Bytes(w)), total + Bytes(w) - Listed(used, c))
  {
    AdjustSum(used, c, Bytes(w));
    var views', used' := views[c := w], Adjusted(used, c, Bytes(w));
    forall d | d in views' && d != c
      ensures d in used' <==> d in used
      ensures d in used ==> used'[d] == used[d]
    {
    }
  }

  lemma AdjustSum<C>(used: map<C, int>, c: C, n: int)
    requires n >= 0
    ensures SumOf(Adjusted(used, c, n)) == SumOf(used) + n - Listed(used, c)
  {
    SumUpdate(used, c, n);
    if n <= 0 {
      if c in used {
        SumPick(used, c);
      } else {
        assert used - {c} == used;
      }
    }
  }

  /* ---- Eviction across sessions ---- */

  // What one cache gives up: bodies and thumbnails from the old end, and no metadata.
  ghost predicate Trimmed(v: State, w: State) {
    && w.collections == v.collections && w.order == v.order && w.etagCount == v.etagCount
    && w.bodies <= v.bodies && Submap(w.data, v.data)
    && w.thumbOrder <= v.thumbOrder && Submap(w.thumbs, v.thumbs)
  }

  // `cut` parts what goes from what stays, in the one order of all sessions: every
  // body dropped is at most that old, and every body kept by a cache that holds
  // body bytes is newer. (An empty body weighs nothing, and may be left behind.)
  ghost predicate BodyCut(v: State, w: State, cut: int) {
    forall r :: r in v.bodies ==>
      (r !in w.bodies ==> r.seqno <= cut) && (r in w.bodies && w.bodyBytes > 0 ==> r.seqno > cut)
  }

  ghost predicate ThumbCut(v: State, w: State, cut: int) {
    forall k :: k in v.thumbs ==>
      (k !in w.thumbs ==> v.thumbs[k].seqno <= cut) && (k in w.thumbs && w.thumbBytes > 0 ==> v.thumbs[k].seqno > cut)
  }

  datatype Cuts = Cuts(body: int, thumb: int)

  ghost predicate CutAt(v: State, w: State, cuts: Cuts) {
    Trimmed(v, w) && BodyCut(v, w, cuts.body) && ThumbCut(v, w, cuts.thumb)
  }

  ghost predicate AllCutAt<C>(before: map<C, State>, now: map<C, State>, cuts: Cuts) {
    before.Keys == now.Keys && forall c :: c in before ==> CutAt(before[c], now[c], cuts)
  }

  // The newest thing dropped was needed: with it, the total would be over `max`.
  // A body is the newest dropped only while no thumbnail has gone.
  ghost predicate Needed(v: State, w: State, cuts: Cuts, total: int, max: int)
    requires Trimmed(v, w)
  {
    var n, m := |w.bodies|, |w.thumbOrder|;
    || (n < |v.bodies| && v.bodies[n].seqno == cuts.body && cuts.thumb == -1
        && v.bodies[n].key in v.data && total + |v.data[v.bodies[n].key]| > max)
    || (m < |v.thumbOrder| && v.thumbOrder[m] in v.thumbs && v.thumbs[v.thumbOrder[m]].seqno == cuts.thumb
        && total + |v.thumbs[v.thumbOrder[m]].data| > max)
  }

  ghost predicate NoBodyBytes<C>(views: map<C, State>) {
    forall c :: c in views ==> views[c].bodyBytes == 0
  }

  ghost predicate Eviction<C>(before: map<C, State>, after: map<C, State>, cuts: Cuts, total: int, max: int) {
    && AllCutAt(before, after, cuts)
    && (cuts.thumb != -1 ==> NoBodyBytes(after))
    && (before != after ==> exists c :: c in before && Needed(before[c], after[c], cuts, total, max))
  }

  ghost predicate EvictedAcross<C>(before: map<C, State>, after: map<C, State>, total: int, max: int) {
    exists cuts :: Eviction(before, after, cuts, total, max)
  }

  lemma EvictsNothing<C>(views: map<C, State>, total: int, max: int)
    ensures Eviction(views, views, Cuts(-1, -1), total, max)
  {
  }

  // The two candidates of one cache.
  ghost predicate OffersBody(v: State) {
    v.bodyBytes > 0 && v.bodies != []
  }

  ghost predicate OffersThumb(v: State) {
    !OffersBody(v) && v.thumbBytes > 0 && v.thumbOrder != [] && v.thumbOrder[|v.thumbOrder| - 1] in v.thumbs
  }

  function OldestBody(v: State): nat
    requires v.bodies != []
  {
    v.bodies[|v.bodies| - 1].seqno
  }

  function OldestThumb(v: State): nat
    requires v.thumbOrder != [] && v.thumbOrder[|v.thumbOrder| - 1] in v.thumbs
  {
    v.thumbs[v.thumbOrder[|v.thumbOrder| - 1]].seqno
  }

  // What stays in front of the oldest body is newer, what went is not.
  lemma LastBodyCut(bodies: seq<BodyRef>, r: BodyRef)
    requires Falling(bodies) && bodies != []
    ensures r in bodies[..|bodies| - 1] ==> r.seqno > bodies[|bodies| - 1].seqno
    ensures r in bodies && r !in bodies[..|bodies| - 1] ==> r == bodies[|bodies| - 1]
  {
  }

  lemma BodyCutStep(v: State, w: State, cut: int)
    requires BodyCut(v, w, cut) && w.bodies <= v.bodies && OffersBody(w) && Falling(w.bodies)
    requires w.bodies[|w.bodies| - 1].key in w.data
    ensures OldestBody(w) > cut && BodyCut(v, WithoutLastBody(w), OldestBody(w))
  {
    assert w.bodies[|w.bodies| - 1] in v.bodies;
    forall r | r in v.bodies
      ensures r !in WithoutLastBody(w).bodies ==> r.seqno <= OldestBody(w)
      ensures r in WithoutLastBody(w).bodies ==> r.seqno > OldestBody(w)
    {
      LastBodyCut(w.bodies, r);
    }
  }

  // One body goes from the cache `w`, which held `v` when the loop began.
  lemma BodyStep(v: State, w: State, cuts: Cuts)
    requires BodiesWf(w) && CutAt(v, w, cuts) && OffersBody(w)
    ensures w.bodies[|w.bodies| - 1].key in w.data && OldestBody(w) > cuts.body
    ensures CutAt(v, WithoutLastBody(w), cuts.(body := OldestBody(w)))
  {
    LastBodyHeld(w);
    BodyCutStep(v, w, cuts.body);
  }

  // A body goes elsewhere, and it is older than anything this cache offers.
  lemma BodyElsewhere(v: State, w: State, cuts: Cuts, stamp: nat)
    requires Wf(w) && CutAt(v, w, cuts) && stamp > cuts.body
    requires OffersBody(w) ==> stamp < OldestBody(w)
    ensures CutAt(v, w, cuts.(body := stamp))
  {
    assert Falling(w.bodies);
    hide Wf, Falling, ThumbCut;
    forall r | r in v.bodies && r in w.bodies && w.bodyBytes > 0
      ensures r.seqno > stamp
    {
      OldestIsOldest(w, r);
      assert OffersBody(w);
    }
  }

  lemma OldestIsOldest(w: State, r: BodyRef)
    requires Falling(w.bodies) && r in w.bodies
    ensures w.bodies != [] && OldestBody(w) <= r.seqno
  {
    var i :| 0 <= i < |w.bodies| && w.bodies[i] == r;
  }

  lemma LastThumbCut(order: seq<ThumbKey>, thumbs: map<ThumbKey, Thumb>, k: ThumbKey)
    requires (forall x :: x in order ==> x in thumbs) && ThumbsFalling(order, thumbs) && order != [] && k in order
    ensures k in order[..|order| - 1] ==> thumbs[k].seqno > thumbs[order[|order| - 1]].seqno
    ensures k !in order[..|order| - 1] ==> k == order[|order| - 1]
  {
  }

  lemma ThumbCutStep(v: State, w: State, cut: int)
    requires ThumbCut(v, w, cut) && Submap(w.thumbs, v.thumbs) && OffersThumb(w)
    requires Enumerates(w.thumbOrder, w.thumbs.Keys) && ThumbsFalling(w.thumbOrder, w.thumbs)
    ensures OldestThumb(w) > cut && ThumbCut(v, WithoutLastThumb(w), OldestThumb(w))
  {
    forall k | k in v.thumbs
      ensures k !in WithoutLastThumb(w).thumbs ==> v.thumbs[k].seqno <= OldestThumb(w)
      ensures k in WithoutLastThumb(w).thumbs ==> v.thumbs[k].seqno > OldestThumb(w)
    {
      if k in w.thumbs {
        assert k in w.thumbOrder;
        LastThumbCut(w.thumbOrder, w.thumbs, k);
      }
    }
  }

  lemma ThumbStep(v: State, w: State, cuts: Cuts)
    requires ThumbsWf(w) && CutAt(v, w, cuts) && OffersThumb(w)
    ensures OldestThumb(w) > cuts.thumb
    ensures CutAt(v, WithoutLastThumb(w), cuts.(thumb := OldestThumb(w)))
  {
    ThumbCutStep(v, w, cuts.thumb);
  }

  lemma ThumbElsewhere(v: State, w: State, cuts: Cuts, stamp: nat)
    requires Wf(w) && CutAt(v, w, cuts) && stamp > cuts.thumb && w.bodyBytes == 0
    requires OffersThumb(w) ==> stamp < OldestThumb(w)
    ensures CutAt(v, w, cuts.(thumb := stamp))
  {
    forall k | k in v.thumbs && k in w.thumbs && w.thumbBytes > 0
      ensures v.thumbs[k].seqno > stamp
    {
      assert k in w.thumbOrder;
      var i :| 0 <= i < |w.thumbOrder| && w.thumbOrder[i] == k;
      assert OffersThumb(w);
    }
  }

  /* ---- One round of the loop, over all caches ---- */

  lemma OffersWhatItHolds(v: State)
    requires Wf(v)
    ensures v.bodyBytes >= 0 && v.thumbBytes >= 0
    ensures !OffersBody(v) ==> v.bodyBytes == 0
    ensures !OffersBody(v) && !OffersThumb(v) ==> Bytes(v) == 0
  {
    if v.thumbOrder != [] {
      assert v.thumbOrder[|v.thumbOrder| - 1] in v.thumbOrder;
    }
  }

  lemma StampIn(v: State)
    ensures OffersBody(v) ==> OldestBody(v) in BodyStamps(v)
    ensures OffersThumb(v) ==> OldestThumb(v) in ThumbStamps(v)
  {
    if OffersBody(v) {
      assert v.bodies[|v.bodies| - 1] in v.bodies;
    }
  }

  lemma OlderBody<C>(now: map<C, State>, c: C, d: C)
    requires Apart(now) && c in now && d in now && c != d && OffersBody(now[c]) && OffersBody(now[d])
    ensures OldestBody(now[c]) != OldestBody(now[d])
  {
    StampIn(now[c]);
    StampIn(now[d]);
    assert ApartPair(now[c], now[d]);
  }

  lemma OlderThumb<C>(now: map<C, State>, c: C, d: C)
    requires Apart(now) && c in now && d in now && c != d && OffersThumb(now[c]) && OffersThumb(now[d])
    ensures OldestThumb(now[c]) != OldestThumb(now[d])
  {
    StampIn(now[c]);
    StampIn(now[d]);
    assert ApartPair(now[c], now[d]);
  }

  ghost predicate OldestOffer<C>(now: map<C, State>, c: C) {
    c in now && OffersBody(now[c]) && forall d :: d in now && OffersBody(now[d]) ==> OldestBody(now[c]) <= OldestBody(now[d])
  }

  ghost predicate OldestThumbOffer<C>(now: map<C, State>, c: C) {
    && c in now && OffersThumb(now[c]) && (forall d :: d in now ==> !OffersBody(now[d]))
    && forall d :: d in now && OffersThumb(now[d]) ==> OldestThumb(now[c]) <= OldestThumb(now[d])
  }

  lemma UpdateCut<C>(before: map<C, State>, now: map<C, State>, cuts: Cuts, c: C, w: State)
    requires before.Keys == now.Keys && c in before && CutAt(before[c], w, cuts)
    requires forall d :: d in before && d != c ==> CutAt(before[d], now[d], cuts)
    ensures AllCutAt(before, now[c := w], cuts)
  {
  }

  lemma BodyOther<C>(before: map<C, State>, now: map<C, State>, cuts: Cuts, c: C, clock: nat, d: C)
    requires AllCutAt(before, now, cuts) && Pool(now, clock) && OldestOffer(now, c) && OldestBody(now[c]) > cuts.body
    requires d in before && d != c
    ensures CutAt(before[d], now[d], cuts.(body := OldestBody(now[c])))
  {
    assert Sound(now[d], clock);
    if OffersBody(now[d]) {
      OlderBody(now, c, d);
    }
    BodyElsewhere(before[d], now[d], cuts, OldestBody(now[c]));
  }

  lemma ThumbOther<C>(before: map<C, State>, now: map<C, State>, cuts: Cuts, c: C, clock: nat, d: C)
    requires AllCutAt(before, now, cuts) && Pool(now, clock) && OldestThumbOffer(now, c) && OldestThumb(now[c]) > cuts.thumb
    requires d in before && d != c
    ensures CutAt(before[d], now[d], cuts.(thumb := OldestThumb(now[c])))
  {
    assert Sound(now[d], clock);
    OffersWhatItHolds(now[d]);
    if OffersThumb(now[d]) {
      OlderThumb(now, c, d);
    }
    ThumbElsewhere(before[d], now[d], cuts, OldestThumb(now[c]));
  }

  lemma BodyRound<C>(before: map<C, State>, now: map<C, State>, cuts: Cuts, c: C, clock: nat)
    requires AllCutAt(before, now, cuts) && Pool(now, clock) && OldestOffer(now, c)
    ensures now[c].bodies[|now[c].bodies| - 1].key in now[c].data
    ensures AllCutAt(before, now[c := WithoutLastBody(now[c])], cuts.(body := OldestBody(now[c])))
  {
    assert Sound(now[c], clock) && CutAt(before[c], now[c], cuts);
    BodyStep(before[c], now[c], cuts);
    forall d | d in before && d != c
      ensures CutAt(before[d], now[d], cuts.(body := OldestBody(now[c])))
    {
      BodyOther(before, now, cuts, c, clock, d);
    }
    UpdateCut(before, now, cuts.(body := OldestBody(now[c])), c, WithoutLastBody(now[c]));
  }

  lemma ThumbRound<C>(before: map<C, State>, now: map<C, State>, cuts: Cuts, c: C, clock: nat)
    requires AllCutAt(before, now, cuts) && Pool(now, clock) && OldestThumbOffer(now, c)
    ensures AllCutAt(before, now[c := WithoutLastThumb(now[c])], cuts.(thumb := OldestThumb(now[c])))
  {
    assert Sound(now[c], clock) && CutAt(before[c], now[c], cuts);
    ThumbStep(before[c], now[c], cuts);
    forall d | d in before && d != c
      ensures CutAt(before[d], now[d], cuts.(thumb := OldestThumb(now[c])))
    {
      ThumbOther(before, now, cuts, c, clock, d);
    }
    UpdateCut(before, now, cuts.(thumb := OldestThumb(now[c])), c, WithoutLastThumb(now[c]));
  }

  lemma BodyWasNeeded(v: State, w: State, cuts: Cuts, total: int, max: int)
    requires Trimmed(v, w) && OffersBody(w) && w.bodies[|w.bodies| - 1].key in w.data && total > max && cuts.thumb == -1
    ensures Trimmed(v, WithoutLastBody(w))
    ensures Needed(v, WithoutLastBody(w), cuts.(body := OldestBody(w)), total - |w.data[w.bodies[|w.bodies| - 1].key]|, max)
  {
    assert v.bodies[|w.bodies| - 1] == w.bodies[|w.bodies| - 1];
  }

  lemma ThumbWasNeeded(v: State, w: State, cuts: Cuts, total: int, max: int)
    requires Trimmed(v, w) && OffersThumb(w) && total > max
    ensures Trimmed(v, WithoutLastThumb(w))
    ensures Needed(v, WithoutLastThumb(w), cuts.(thumb := OldestThumb(w)),
                   total - |w.thumbs[w.thumbOrder[|w.thumbOrder| - 1]].data|, max)
  {
    assert v.thumbOrder[|w.thumbOrder| - 1] == w.thumbOrder[|w.thumbOrder| - 1];
  }

  lemma NothingButThumbs<C>(now: map<C, State>, clock: nat)
    requires Pool(now, clock) && forall d :: d in now ==> !OffersBody(now[d])
    ensures NoBodyBytes(now)
  {
    forall d | d in now
      ensures now[d].bodyBytes == 0
    {
      assert Sound(now[d], clock);
      OffersWhatItHolds(now[d]);
    }
  }

  lemma StillNothingButThumbs<C>(now: map<C, State>, c: C, clock: nat)
    requires Pool(now, clock) && OldestThumbOffer(now, c)
    ensures NoBodyBytes(now[c := WithoutLastThumb(now[c])])
  {
    NothingButThumbs(now, clock);
  }

  lemma IsEviction<C>(before: map<C, State>, after: map<C, State>, cuts: Cuts, total: int, max: int, c: C)
    requires AllCutAt(before, after, cuts) && c in before && Trimmed(before[c], after[c])
    requires Needed(before[c], after[c], cuts, total, max)
    requires cuts.thumb != -1 ==> NoBodyBytes(after)
    ensures Eviction(before, after, cuts, total, max)
  {
  }

  lemma EvictBody<C>(before: map<C, State>, now: map<C, State>, cuts: Cuts, total: int, max: int, c: C, clock: nat)
    requires Eviction(before, now, cuts, total, max) && Pool(now, clock) && OldestOffer(now, c) && total > max
    ensures now[c].bodies[|now[c].bodies| - 1].key in now[c].data
    ensures Eviction(before, now[c := WithoutLastBody(now[c])], cuts.(body := OldestBody(now[c])),
                     total - |now[c].data[now[c].bodies[|now[c].bodies| - 1].key]|, max)
  {
    BodyRound(before, now, cuts, c, clock);
    assert CutAt(before[c], now[c], cuts);
    assert cuts.thumb == -1;
    BodyWasNeeded(before[c], now[c], cuts, total, max);
    IsEviction(before, now[c := WithoutLastBody(now[c])], cuts.(body := OldestBody(now[c])),
               total - |now[c].data[now[c].bodies[|now[c].bodies| - 1].key]|, max, c);
  }

  lemma EvictThumb<C>(before: map<C, State>, now: map<C, State>, cuts: Cuts, total: int, max: int, c: C, clock: nat)
    requires Eviction(before, now, cuts, total, max) && Pool(now, clock) && OldestThumbOffer(now, c) && total > max
    ensures Eviction(before, now[c := WithoutLastThumb(now[c])], cuts.(thumb := OldestThumb(now[c])),
                     total - |now[c].thumbs[now[c].thumbOrder[|now[c].thumbOrder| - 1]].data|, max)
  {
    assert CutAt(before[c], now[c], cuts);
    ThumbWasNeeded(before[c], now[c], cuts, total, max);
    StillNothingButThumbs(now, c, clock);
    ThumbRound(before, now, cuts, c, clock);
    IsEviction(before, now[c := WithoutLastThumb(now[c])], cuts.(thumb := OldestThumb(now[c])),
               total - |now[c].thumbs[now[c].thumbOrder[|now[c].thumbOrder| - 1]].data|, max, c);
  }

  // Something is over the ceiling, so some cache has something to give.
  lemma SomeOffer<C>(views: map<C, State>, used: map<C, int>, total: int, clock: nat)
    requires Accounted(views, used, total) && Pool(views, clock) && total > 0
    ensures exists c :: c in used && (OffersBody(views[c]) || OffersThumb(views[c]))
  {
    assert used != map[];
    var c :| c in used;
    assert Counted(views[c], c in used, used[c]) && Sound(views[c], clock);
    OffersWhatItHolds(views[c]);
  }

  // Only listed caches can offer anything.
  lemma OffersAreListed<C>(views: map<C, State>, used: map<C, int>, total: int, clock: nat, c: C)
    requires Accounted(views, used, total) && Pool(views, clock) && c in views
    requires OffersBody(views[c]) || OffersThumb(views[c])
    ensures c in used
  {
    assert Counted(views[c], c in used, if c in used then used[c] else 0) && Sound(views[c], clock);
    OffersWhatItHolds(views[c]);
  }

  /* ---- The victim one cache names, and dropping it ---- */

  datatype Victim = NoVictim | BodyVictim(seqno: nat) | ThumbVictim(seqno: nat)

  // peekVictim
  function Offer(v: State): Victim {
    if v.bodyBytes > 0 && v.bodies != [] then BodyVictim(v.bodies[|v.bodies| - 1].seqno)
    else if v.thumbBytes > 0 && v.thumbOrder != [] then
      var k := v.thumbOrder[|v.thumbOrder| - 1];
      ThumbVictim(if k in v.thumbs then v.thumbs[k].seqno else 0)
    else NoVictim
  }

  // `a` goes before `b`, or as early: bodies before thumbnails, then by age.
  predicate NotAfter(a: Victim, b: Victim) {
    || b.NoVictim?
    || (a.BodyVictim? && (b.ThumbVictim? || a.seqno <= b.seqno))
    || (a.ThumbVictim? && b.ThumbVictim? && a.seqno <= b.seqno)
  }

  lemma OfferMeans(v: State)
    requires Wf(v)
    ensures Offer(v).BodyVictim? <==> OffersBody(v)
    ensures OffersBody(v) ==> Offer(v).seqno == OldestBody(v) && v.bodies[|v.bodies| - 1].key in v.data
    ensures Offer(v).ThumbVictim? <==> OffersThumb(v)
    ensures OffersThumb(v) ==> Offer(v).seqno == OldestThumb(v)
    ensures Offer(v) == NoVictim ==> Bytes(v) == 0
  {
    OffersWhatItHolds(v);
    if v.thumbOrder != [] {
      assert v.thumbOrder[|v.thumbOrder| - 1] in v.thumbOrder;
    }
    if v.bodies != [] {
      LastBodyHeld(v);
    }
  }

  function Without(v: State): State {
    if v.bodyBytes > 0 && v.bodies != [] then
      if v.bodies[|v.bodies| - 1].key in v.data then WithoutLastBody(v) else v
    else if v.thumbOrder != [] && v.thumbOrder[|v.thumbOrder| - 1] in v.thumbs then WithoutLastThumb(v)
    else v
  }

  function CutsAfter(v: State, cuts: Cuts): Cuts {
    match Offer(v)
    case NoVictim => cuts
    case BodyVictim(seqno) => cuts.(body := seqno)
    case ThumbVictim(seqno) => cuts.(thumb := seqno)
  }

  ghost predicate BestVictim<C>(views: map<C, State>, used: map<C, int>, c: C) {
    && c in views && Offer(views[c]) != NoVictim
    && forall d :: d in views && d in used ==> NotAfter(Offer(views[c]), Offer(views[d]))
  }

  // Caches that are not listed hold nothing, so the best of the listed is the best of all.
  lemma BestOfAll<C>(views: map<C, State>, used: map<C, int>, total: int, clock: nat, c: C, d: C)
    requires Accounted(views, used, total) && Pool(views, clock) && BestVictim(views, used, c) && d in views
    ensures NotAfter(Offer(views[c]), Offer(views[d]))
  {
    assert Sound(views[d], clock);
    OfferMeans(views[d]);
    if OffersBody(views[d]) || OffersThumb(views[d]) {
      OffersAreListed(views, used, total, clock, d);
    }
  }

  lemma BestIsOldest<C>(views: map<C, State>, used: map<C, int>, total: int, clock: nat, c: C)
    requires Accounted(views, used, total) && Pool(views, clock) && BestVictim(views, used, c)
    ensures if Offer(views[c]).BodyVictim? then OldestOffer(views, c) else OldestThumbOffer(views, c)
  {
    hide Pool, Accounted, Wf, Before, Sound, Offer;
    InPool(views, clock, c);
    OfferMeans(views[c]);
    forall d | d in views
      ensures NotAfter(Offer(views[c]), Offer(views[d]))
      ensures Offer(views[d]).BodyVictim? <==> OffersBody(views[d])
      ensures OffersBody(views[d]) ==> Offer(views[d]).seqno == OldestBody(views[d])
      ensures OffersThumb(views[d]) ==> Offer(views[d]).ThumbVictim? && Offer(views[d]).seqno == OldestThumb(views[d])
    {
      InPool(views, clock, d);
      OfferMeans(views[d]);
      BestOfAll(views, used, total, clock, c, d);
    }
  }

  lemma WithoutMeans(v: State)
    requires Wf(v)
    ensures Wf(Without(v))
    ensures OffersBody(v) ==> v.bodies[|v.bodies| - 1].key in v.data && Without(v) == WithoutLastBody(v)
    ensures !OffersBody(v) && OffersThumb(v) ==> Without(v) == WithoutLastThumb(v)
  {
    if v.bodies != [] {
      WithoutLastBodyKeeps(v);
    }
    if v.thumbOrder != [] {
      WithoutLastThumbKeeps(v);
    }
  }

  lemma WithoutIsYounger(v: State, clock: nat)
    ensures Younger(v, Without(v), clock)
    ensures Before(v, clock) ==> Before(Without(v), clock)
  {
  }

  lemma WithoutSound(v: State, clock: nat)
    requires Sound(v, clock)
    ensures Sound(Without(v), clock) && Younger(v, Without(v), clock)
    ensures Bytes(Without(v)) >= 0
  {
    WithoutMeans(v);
    WithoutIsYounger(v, clock);
    OffersWhatItHolds(Without(v));
  }

  lemma BestEvicts<C>(before: map<C, State>, now: map<C, State>, cuts: Cuts, used: map<C, int>, total: int, max: int,
                      clock: nat, c: C)
    requires Eviction(before, now, cuts, total, max) && Pool(now, clock) && Accounted(now, used, total) && total > max
    requires BestVictim(now, used, c)
    ensures Eviction(before, now[c := Without(now[c])], CutsAfter(now[c], cuts), total - Bytes(now[c]) + Bytes(Without(now[c])), max)
  {
    hide Pool, Accounted, Eviction, Without, WithoutLastBody, WithoutLastThumb, OldestOffer, OldestThumbOffer;
    BestIsOldest(now, used, total, clock, c);
    BestOffer(now, clock, c);
    if Offer(now[c]).BodyVictim? {
      EvictBody(before, now, cuts, total, max, c, clock);
    } else {
      EvictThumb(before, now, cuts, total, max, c, clock);
    }
  }

  lemma BestOffer<C>(now: map<C, State>, clock: nat, c: C)
    requires Pool(now, clock) && c in now && Offer(now[c]) != NoVictim
    ensures var v := now[c];
            if Offer(v).BodyVictim?
            then v.bodies != [] && v.bodies[|v.bodies| - 1].key in v.data && Without(v) == WithoutLastBody(v)
                 && Bytes(Without(v)) == Bytes(v) - |v.data[v.bodies[|v.bodies| - 1].key]|
                 && Offer(v).seqno == OldestBody(v)
            else OffersThumb(v) && Without(v) == WithoutLastThumb(v)
                 && Bytes(Without(v)) == Bytes(v) - |v.thumbs[v.thumbOrder[|v.thumbOrder| - 1]].data|
                 && Offer(v).seqno == OldestThumb(v)
  {
    assert Sound(now[c], clock);
    OfferMeans(now[c]);
    WithoutMeans(now[c]);
  }

  lemma WithoutAccounts<C>(now: map<C, State>, used: map<C, int>, total: int, clock: nat, c: C)
    requires Pool(now, clock) && Accounted(now, used, total) && c in now
    ensures Pool(now[c := Without(now[c])], clock)
    ensures var w := Without(now[c]);
            Accounted(now[c := w], Adjusted(used, c, Bytes(w)), total + Bytes(w) - Listed(used, c))
    ensures Listed(used, c) == Bytes(now[c])
  {
    assert Sound(now[c], clock);
    WithoutSound(now[c], clock);
    PoolUpdate(now, clock, c, Without(now[c]), clock);
    AdjustAccounts(now, used, total, c, Without(now[c]));
    OffersWhatItHolds(now[c]);
    assert Counted(now[c], c in used, Listed(used, c));
  }

  // How many entries there are to drop: the measure of the loop.
  function Count(v: State): nat {
    |v.bodies| + |v.thumbOrder|
  }

  function Counts<C>(views: map<C, State>): map<C, int> {
    map c | c in views :: Count(views[c])
  }

  ghost function Entries<C>(views: map<C, State>): int {
    SumOf(Counts(views))
  }

  lemma FewerEntries<C>(views: map<C, State>, clock: nat, c: C)
    requires Pool(views, clock) && c in views && Offer(views[c]) != NoVictim
    ensures 0 <= Entries(views[c := Without(views[c])]) < Entries(views)
  {
    BestOffer(views, clock, c);
    var w := Without(views[c]);
    assert Count(w) == Count(views[c]) - 1;
    assert Counts(views[c := w]) == Counts(views)[c := Count(w)];
    SumUpdate(Counts(views), c, Count(w));
    SumNonNegative(Counts(views[c := w]));
  }

  lemma ListedHeld<C>(views: map<C, State>, used: map<C, int>, total: int)
    requires Accounted(views, used, total)
    ensures used.Keys <= views.Keys
  {
  }

  lemma SomeVictim<C>(views: map<C, State>, used: map<C, int>, total: int, clock: nat)
    requires Accounted(views, used, total) && Pool(views, clock) && total > 0
    ensures exists c :: c in used && Offer(views[c]) != NoVictim
  {
    SomeOffer(views, used, total, clock);
    var c :| c in used && (OffersBody(views[c]) || OffersThumb(views[c]));
    assert Sound(views[c], clock);
    OfferMeans(views[c]);
  }

  /* ---- Trimming keeps the session's own ceilings ---- */

  lemma TotalOfPrefix<K(!new)>(keys: seq<K>, n: nat, size: map<K, nat>)
    requires n <= |keys| && forall k :: k in keys ==> k in size
    ensures Total(keys[..n], size) <= Total(keys, size)
  {
    assert keys == keys[..n] + keys[n..];
    TotalJoin(keys[..n], keys[n..], size);
  }

  lemma TrimmedBodies(v: State, w: State)
    requires BodiesWf(v) && BodiesWf(w) && w.bodies <= v.bodies && Submap(w.data, v.data)
    ensures w.bodyBytes <= v.bodyBytes
  {
    var keys, n := Keys(v.bodies), |w.bodies|;
    assert Keys(w.bodies) == keys[..n];
    TotalOfPrefix(keys, n, BodySizes(v));
    TotalSame(keys[..n], BodySizes(v), BodySizes(w));
  }

  lemma TrimmedThumbs(v: State, w: State)
    requires ThumbsWf(v) && ThumbsWf(w) && w.thumbOrder <= v.thumbOrder && Submap(w.thumbs, v.thumbs)
    ensures w.thumbBytes <= v.thumbBytes && |w.thumbs| <= |v.thumbs|
  {
    var n := |w.thumbOrder|;
    assert w.thumbOrder == v.thumbOrder[..n];
    TotalOfPrefix(v.thumbOrder, n, ThumbSizes(v));
    TotalSame(w.thumbOrder, ThumbSizes(v), ThumbSizes(w));
    EnumeratesSize(v.thumbOrder, v.thumbs.Keys);
    EnumeratesSize(w.thumbOrder, w.thumbs.Keys);
  }

  lemma TrimmedUnder(v: State, w: State, cfg: Config)
    requires Wf(v) && Wf(w) && Trimmed(v, w) && UnderCeilings(v, cfg)
    ensures UnderCeilings(w, cfg)
  {
    TrimmedBodies(v, w);
    TrimmedThumbs(v, w);
  }

  /* ---- Sequence numbers after an operation ---- */

  lemma WithBodyYounger(v: State, key: BodyKey, body: Blob, clock: nat)
    requires Before(v, clock)
    ensures Younger(v, WithBody(v, key, body, clock + 1), clock) && Before(WithBody(v, key, body, clock + 1), clock + 1)
  {
    ExceptKeeps(v.bodies, RefOf(v.bodies, key));
  }

  lemma WithThumbYounger(v: State, k: ThumbKey, media: string, data: Blob, clock: nat)
    ensures Younger(v, WithThumb(v, k, media, data, clock + 1), clock)
    ensures Before(v, clock) ==> Before(WithThumb(v, k, media, data, clock + 1), clock + 1)
  {
  }

  lemma EvictedYounger(v: State, w: State, cfg: Config, clock: nat)
    requires Wf(v) && Evicted(v, w, cfg)
    ensures Younger(v, w, clock) && (Before(v, clock) ==> Before(w, clock))
  {
    hide Fit, Total, Falling, ThumbsFalling, Except;
    var kept := v.bodies[..BodyFit(v, cfg)];
    ExceptKeeps(kept, Outside(kept, w.collections.Keys));
  }

  lemma DroppedYounger(v: State, w: State, key: CollectionKey, clock: nat)
    requires Dropped(v, w, key)
    ensures Younger(v, w, clock) && (Before(v, clock) ==> Before(w, clock))
  {
    ExceptKeeps(v.bodies, RefsOf(v.bodies, key));
  }

  /* ---- What the eviction comes to ---- */

  // The budget's total is what is really held, over all caches.
  lemma TotalIsHeld<C>(views: map<C, State>, used: map<C, int>, total: int, clock: nat)
    requires Pool(views, clock) && Accounted(views, used, total)
    ensures total == SumOf(map c | c in views :: Bytes(views[c]))
  {
    var held := map c | c in views :: Bytes(views[c]);
    forall c | c in views
      ensures held[c] >= 0 && Counted(views[c], c in used, Listed(used, c))
    {
      InPool(views, clock, c);
      OffersWhatItHolds(views[c]);
    }
    SumOfPositive(held);
    assert used == map c | c in held && held[c] > 0 :: held[c];
  }

  lemma {:induction false} PositiveTotal<K(!new)>(keys: seq<K>, size: map<K, nat>)
    requires keys != [] && forall k :: k in keys ==> k in size && size[k] > 0
    ensures Total(keys, size) > 0
  {
  }

  ghost predicate NoEmptyBody(v: State) {
    forall k :: k in v.data ==> v.data[k] != []
  }

  lemma HoldsBytes(v: State, w: State)
    requires Wf(v) && Wf(w) && Trimmed(v, w) && NoEmptyBody(v) && w.bodies != []
    ensures w.bodyBytes > 0
  {
    forall k | k in Keys(w.bodies)
      ensures k in w.data && |w.data[k]| > 0
    {
    }
    PositiveTotal(Keys(w.bodies), BodySizes(w));
  }

  ghost predicate PartedAt<C>(before: map<C, State>, after: map<C, State>, cut: int)
    requires before.Keys <= after.Keys
  {
    forall c, r :: c in before && r in before[c].bodies ==> (r in after[c].bodies <==> r.seqno > cut)
  }

  // With no empty bodies about, what is kept is exactly what is newer than one point
  // of the recency order merged across all sessions.
  lemma DropsExactlyTheOldest<C>(before: map<C, State>, after: map<C, State>, total: int, max: int)
    requires EvictedAcross(before, after, total, max)
    requires forall c :: c in before ==> Wf(before[c]) && NoEmptyBody(before[c])
    requires forall c :: c in after ==> Wf(after[c])
    ensures exists cut: int :: PartedAt(before, after, cut)
  {
    var cuts :| Eviction(before, after, cuts, total, max);
    forall c, r | c in before && r in before[c].bodies
      ensures r in after[c].bodies <==> r.seqno > cuts.body
    {
      assert CutAt(before[c], after[c], cuts);
      if r in after[c].bodies {
        HoldsBytes(before[c], after[c]);
      }
    }
    assert PartedAt(before, after, cuts.body);
  }

  // No thumbnail goes while any session holds body bytes.
  lemma ThumbsGoLast<C>(before: map<C, State>, after: map<C, State>, total: int, max: int, c: C, k: ThumbKey, d: C)
    requires EvictedAcross(before, after, total, max)
    requires c in before && k in before[c].thumbs && k !in after[c].thumbs && d in after
    ensures after[d].bodyBytes == 0
  {
    var cuts :| Eviction(before, after, cuts, total, max);
    assert CutAt(before[c], after[c], cuts);
  }
}