// What the eviction of one session leaves: of each recency list the longest
// most-recent prefix that fits (internal/session/cache.go, evictLocked).
module CacheEviction {
  import opened Ordering
  import opened Recency
  import opened CacheState

  function BodyFit(v: State, cfg: Config): nat
    requires forall k :: k in Keys(v.bodies) ==> k in v.data
    ensures BodyFit(v, cfg) <= |v.bodies|
  {
    Fit(Keys(v.bodies), BodySizes(v), |v.bodies|, cfg.maxBodyBytes)
  }

  function ThumbFit(v: State, cfg: Config): nat
    requires forall k :: k in v.thumbOrder ==> k in v.thumbs
    ensures ThumbFit(v, cfg) <= |v.thumbOrder|
  {
    Fit(v.thumbOrder, ThumbSizes(v), cfg.maxThumbs, cfg.maxThumbBytes)
  }

  function CollectionFit(v: State, cfg: Config): nat
    requires forall k :: k in v.order ==> k in v.collections
    ensures CollectionFit(v, cfg) <= |v.order|
  {
    Fit(v.order, EtagSizes(v), cfg.maxCollections, cfg.maxEtags)
  }

  // Stages of the eviction: `w` is what remains after some drops from `v`.
  ghost predicate BodiesLeft(v: State, w: State, n: nat) {
    && n <= |v.bodies| && w.bodies == v.bodies[..n] && Submap(w.data, v.data)
    && w == v.(bodies := w.bodies, data := w.data, bodyBytes := w.bodyBytes)
  }

  ghost predicate ThumbsLeft(v: State, w: State, n: nat) {
    && n <= |v.thumbOrder| && w.thumbOrder == v.thumbOrder[..n] && Submap(w.thumbs, v.thumbs)
    && w == v.(thumbOrder := w.thumbOrder, thumbs := w.thumbs, thumbBytes := w.thumbBytes)
  }

  function Outside(bodies: seq<BodyRef>, held: set<CollectionKey>): set<BodyRef> {
    set r | r in bodies && r.key.collection !in held
  }

  ghost predicate CollectionsLeft(v: State, w: State, n: nat) {
    && n <= |v.order| && w.order == v.order[..n] && Submap(w.collections, v.collections)
    && w.bodies == Except(v.bodies, Outside(v.bodies, w.collections.Keys)) && Submap(w.data, v.data)
    && w.thumbs == v.thumbs && w.thumbOrder == v.thumbOrder && w.thumbBytes == v.thumbBytes
  }

  // The whole of it: bodies first, then thumbnails, then collections, and with a
  // collection the bodies it still has.
  ghost predicate Evicted(v: State, w: State, cfg: Config)
    requires Wf(v)
  {
    && w.order == v.order[..CollectionFit(v, cfg)] && Submap(w.collections, v.collections)
    && w.thumbOrder == v.thumbOrder[..ThumbFit(v, cfg)] && Submap(w.thumbs, v.thumbs)
    && (var kept := v.bodies[..BodyFit(v, cfg)]; w.bodies == Except(kept, Outside(kept, w.collections.Keys)))
    && Submap(w.data, v.data) && Wf(w)
  }

  // Nothing is in `w` that was not in `v`, and what is there is the same.
  ghost predicate Within(v: State, w: State) {
    && Submap(w.data, v.data) && Submap(w.collections, v.collections) && Submap(w.thumbs, v.thumbs)
    && forall r :: r in w.bodies ==> r in v.bodies
  }

  lemma EvictedWithin(v: State, w: State, cfg: Config)
    requires Wf(v) && Evicted(v, w, cfg)
    ensures Within(v, w)
  {
    var kept := v.bodies[..BodyFit(v, cfg)];
    ExceptKeeps(kept, Outside(kept, w.collections.Keys));
    hide Wf, BodyFit;
    forall r | r in w.bodies
      ensures r in v.bodies
    {
      assert r in kept;
    }
  }

  // A session under its ceilings evicts nothing.
  lemma NothingToEvict(v: State, w: State, cfg: Config)
    requires Wf(v) && Evicted(v, w, cfg) && UnderCeilings(v, cfg)
    ensures w == v
  {
    EnumeratesSize(v.thumbOrder, v.thumbs.Keys);
    EnumeratesSize(v.order, v.collections.Keys);
    AllFit(v, cfg);
    SameLists(v, w, cfg);
    EvictedWithin(v, w, cfg);
    SameMaps(v, w);
  }

  lemma AllFit(v: State, cfg: Config)
    requires Wf(v) && UnderCeilings(v, cfg) && |v.thumbOrder| == |v.thumbs| && |v.order| == |v.collections|
    ensures BodyFit(v, cfg) == |v.bodies| && ThumbFit(v, cfg) == |v.thumbOrder| && CollectionFit(v, cfg) == |v.order|
  {
  }

  lemma SameLists(v: State, w: State, cfg: Config)
    requires Wf(v) && Evicted(v, w, cfg)
    requires BodyFit(v, cfg) == |v.bodies| && ThumbFit(v, cfg) == |v.thumbOrder| && CollectionFit(v, cfg) == |v.order|
    ensures w.order == v.order && w.thumbOrder == v.thumbOrder && w.bodies == v.bodies
  {
    var kept := v.bodies[..BodyFit(v, cfg)];
    assert kept == v.bodies && w.order == v.order;
    assert forall c :: c in w.collections <==> c in v.collections;
    hide BodyFit, ThumbFit, CollectionFit;
    forall r | r in v.bodies
      ensures r !in Outside(kept, w.collections.Keys)
    {
      var i :| 0 <= i < |v.bodies| && v.bodies[i] == r;
      assert Keys(v.bodies)[i] == r.key && r.key in v.data;
    }
    ExceptNothing(kept, Outside(kept, w.collections.Keys));
  }

  lemma SameMaps(v: State, w: State)
    requires Wf(v) && Wf(w) && Within(v, w)
    requires w.order == v.order && w.thumbOrder == v.thumbOrder && w.bodies == v.bodies
    ensures w == v
  {
    SameKeysSameMap(v.order, w.collections, v.collections);
    SameKeysSameMap(v.thumbOrder, w.thumbs, v.thumbs);
    SameKeysSameMap(Keys(v.bodies), w.data, v.data);
    assert w.etagCount == v.etagCount && w.thumbBytes == v.thumbBytes && w.bodyBytes == v.bodyBytes;
    hide Wf, Within;
  }

  lemma SameKeysSameMap<K(!new), V(!new)>(keys: seq<K>, a: map<K, V>, b: map<K, V>)
    requires Submap(a, b) && Enumerates(keys, a.Keys) && Enumerates(keys, b.Keys)
    ensures a == b
  {
    assert forall k :: k in b ==> k in a;
  }

  lemma StagesEvict(v: State, a: State, b: State, w: State, cfg: Config)
    requires Wf(v) && BodiesLeft(v, a, BodyFit(v, cfg)) && Wf(a)
    requires ThumbsLeft(a, b, ThumbFit(a, cfg)) && Wf(b)
    requires CollectionsLeft(b, w, CollectionFit(b, cfg)) && Wf(w)
    ensures Evicted(v, w, cfg)
  {
    assert ThumbSizes(a) == ThumbSizes(v) && EtagSizes(b) == EtagSizes(v);
  }

  lemma {:induction false} EnumeratesSize<K(!new)>(keys: seq<K>, held: set<K>)
    requires Enumerates(keys, held)
    ensures |keys| == |held|
    decreases |keys|
  {
    if keys == [] {
      assert held == {};
    } else {
      LastEnumerates(keys, held);
      EnumeratesSize(keys[..|keys| - 1], held - {keys[|keys| - 1]});
    }
  }

  // The loop over bodies goes on exactly while more is held than fits.
  lemma BodiesGoOn(v: State, w: State, n: nat, cfg: Config)
    requires BodiesWf(v) && BodiesWf(w) && BodiesLeft(v, w, n) && BodyFit(v, cfg) <= n
    ensures w.bodyBytes > cfg.maxBodyBytes ==> BodyFit(v, cfg) < n && w.bodies != []
    ensures w.bodyBytes <= cfg.maxBodyBytes ==> n == BodyFit(v, cfg)
  {
    var keys := Keys(v.bodies);
    assert Keys(w.bodies) == keys[..n];
    TotalSame(keys[..n], BodySizes(v), BodySizes(w));
    FitIsLongest(keys, BodySizes(v), |v.bodies|, cfg.maxBodyBytes);
    assert Fits(keys, BodySizes(v), n, |v.bodies|, cfg.maxBodyBytes) <==> w.bodyBytes <= cfg.maxBodyBytes;
  }

  lemma BodiesLeftStep(v: State, w: State, n: nat)
    requires BodiesLeft(v, w, n) && n > 0 && w.bodies[|w.bodies| - 1].key in w.data
    ensures BodiesLeft(v, WithoutLastBody(w), n - 1)
  {
  }

  lemma ThumbsLeftStep(v: State, w: State, n: nat)
    requires ThumbsLeft(v, w, n) && n > 0 && w.thumbOrder[|w.thumbOrder| - 1] in w.thumbs
    ensures ThumbsLeft(v, WithoutLastThumb(w), n - 1)
  {
  }

  lemma ThumbsGoOn(v: State, w: State, n: nat, cfg: Config)
    requires ThumbsWf(v) && ThumbsWf(w) && ThumbsLeft(v, w, n) && ThumbFit(v, cfg) <= n
    ensures |w.thumbs| > cfg.maxThumbs || w.thumbBytes > cfg.maxThumbBytes ==> ThumbFit(v, cfg) < n && w.thumbOrder != []
    ensures |w.thumbs| <= cfg.maxThumbs && w.thumbBytes <= cfg.maxThumbBytes ==> n == ThumbFit(v, cfg)
  {
    EnumeratesSize(w.thumbOrder, w.thumbs.Keys);
    TotalSame(w.thumbOrder, ThumbSizes(v), ThumbSizes(w));
    FitIsLongest(v.thumbOrder, ThumbSizes(v), cfg.maxThumbs, cfg.maxThumbBytes);
    assert Fits(v.thumbOrder, ThumbSizes(v), n, cfg.maxThumbs, cfg.maxThumbBytes) <==>
           n <= cfg.maxThumbs && w.thumbBytes <= cfg.maxThumbBytes;
  }

  lemma CollectionsGoOn(v: State, w: State, n: nat, cfg: Config)
    requires CollectionsWf(v) && CollectionsWf(w) && CollectionsLeft(v, w, n) && CollectionFit(v, cfg) <= n
    ensures |w.collections| == n
    ensures n > cfg.maxCollections || w.etagCount > cfg.maxEtags ==> CollectionFit(v, cfg) < n && w.order != []
    ensures n <= cfg.maxCollections && w.etagCount <= cfg.maxEtags ==> n == CollectionFit(v, cfg)
  {
    EnumeratesSize(w.order, w.collections.Keys);
    TotalSame(w.order, EtagSizes(v), EtagSizes(w));
    FitIsLongest(v.order, EtagSizes(v), cfg.maxCollections, cfg.maxEtags);
    assert Fits(v.order, EtagSizes(v), n, cfg.maxCollections, cfg.maxEtags) <==>
           n <= cfg.maxCollections && w.etagCount <= cfg.maxEtags;
  }

  lemma NothingLeftOut(v: State)
    requires BodiesWf(v) && CollectionsWf(v)
    ensures CollectionsLeft(v, v, |v.order|)
  {
    RefsHeld(v.bodies, v.data.Keys);
    assert Outside(v.bodies, v.collections.Keys) == {};
    ExceptNothing(v.bodies, {});
    assert v.order[..|v.order|] == v.order;
  }

  lemma LastExcept<K(!new)>(keys: seq<K>, n: nat)
    requires Distinct(keys) && |keys| == n > 0
    ensures Except(keys, {keys[n - 1]}) == keys[..n - 1]
  {
    var init, key := keys[..n - 1], keys[n - 1];
    assert keys == init + [key];
    ExceptSnoc(init, key, {key});
    ExceptNothing(init, {key});
  }

  // Dropping the oldest of the collections still there.
  lemma CollectionsLeftStep(v: State, w: State, n: nat, x: State)
    requires CollectionsLeft(v, w, n) && n > 0 && CollectionsWf(w) && Dropped(w, x, w.order[n - 1])
    ensures CollectionsLeft(v, x, n - 1)
  {
    var key := w.order[n - 1];
    LastExcept(w.order, n);
    OutsideStep(v.bodies, w.collections.Keys, key);
    assert x.collections.Keys == w.collections.Keys - {key};
  }

  lemma OutsideStep(bodies: seq<BodyRef>, held: set<CollectionKey>, key: CollectionKey)
    ensures var left := Except(bodies, Outside(bodies, held));
            Except(left, RefsOf(left, key)) == Except(bodies, Outside(bodies, held - {key}))
  {
    var gone := Outside(bodies, held);
    var left := Except(bodies, gone);
    ExceptKeeps(bodies, gone);
    ExceptTwice(bodies, gone, RefsOf(left, key));
    ExceptAgree(bodies, gone + RefsOf(left, key), Outside(bodies, held - {key}));
  }

  lemma {:induction false} ExceptAgree<T(!new)>(xs: seq<T>, a: set<T>, b: set<T>)
    requires forall x :: x in xs ==> (x in a <==> x in b)
    ensures Except(xs, a) == Except(xs, b)
  {
    if xs != [] {
      ExceptAgree(xs[..|xs| - 1], a, b);
    }
  }

  /* ---- The three loops, `n` entries before their end ---- */

  ghost predicate BodyStage(v: State, w: State, n: nat, cfg: Config) {
    Wf(v) && Wf(w) && BodiesLeft(v, w, n) && BodyFit(v, cfg) <= n
  }

  lemma BodyStageStart(v: State, cfg: Config)
    requires Wf(v)
    ensures BodyStage(v, v, |v.bodies|, cfg)
  {
    assert v.bodies[..|v.bodies|] == v.bodies;
  }

  lemma BodyStageStep(v: State, w: State, n: nat, cfg: Config)
    requires BodyStage(v, w, n, cfg) && w.bodyBytes > cfg.maxBodyBytes
    ensures n > 0 && w.bodies != [] && w.bodies[|w.bodies| - 1].key in w.data
    ensures BodyStage(v, WithoutLastBody(w), n - 1, cfg)
  {
    BodiesGoOn(v, w, n, cfg);
    WithoutLastBodyKeeps(w);
    BodiesLeftStep(v, w, n);
  }

  lemma BodyStageEnd(v: State, w: State, n: nat, cfg: Config)
    requires BodyStage(v, w, n, cfg) && w.bodyBytes <= cfg.maxBodyBytes
    ensures Wf(w) && BodiesLeft(v, w, BodyFit(v, cfg))
  {
    BodiesGoOn(v, w, n, cfg);
  }

  ghost predicate ThumbStage(v: State, w: State, n: nat, cfg: Config) {
    Wf(v) && Wf(w) && ThumbsLeft(v, w, n) && ThumbFit(v, cfg) <= n
  }

  lemma ThumbStageStart(v: State, cfg: Config)
    requires Wf(v)
    ensures ThumbStage(v, v, |v.thumbOrder|, cfg)
  {
    assert v.thumbOrder[..|v.thumbOrder|] == v.thumbOrder;
  }

  lemma ThumbStageStep(v: State, w: State, n: nat, cfg: Config)
    requires ThumbStage(v, w, n, cfg) && (|w.thumbs| > cfg.maxThumbs || w.thumbBytes > cfg.maxThumbBytes)
    ensures n > 0 && w.thumbOrder != [] && w.thumbOrder[|w.thumbOrder| - 1] in w.thumbs
    ensures ThumbStage(v, WithoutLastThumb(w), n - 1, cfg)
  {
    ThumbsGoOn(v, w, n, cfg);
    WithoutLastThumbKeeps(w);
    ThumbsLeftStep(v, w, n);
  }

  lemma ThumbStageEnd(v: State, w: State, n: nat, cfg: Config)
    requires ThumbStage(v, w, n, cfg) && |w.thumbs| <= cfg.maxThumbs && w.thumbBytes <= cfg.maxThumbBytes
    ensures Wf(w) && ThumbsLeft(v, w, ThumbFit(v, cfg))
  {
    ThumbsGoOn(v, w, n, cfg);
  }

  ghost predicate CollectionStage(v: State, w: State, n: nat, cfg: Config) {
    Wf(v) && Wf(w) && CollectionsLeft(v, w, n) && CollectionFit(v, cfg) <= n
  }

  lemma CollectionStageStart(v: State, cfg: Config)
    requires Wf(v)
    ensures CollectionStage(v, v, |v.order|, cfg)
  {
    NothingLeftOut(v);
  }

  lemma CollectionStageGoesOn(v: State, w: State, n: nat, cfg: Config)
    requires CollectionStage(v, w, n, cfg) && (|w.collections| > cfg.maxCollections || w.etagCount > cfg.maxEtags)
    ensures n > 0 && |w.order| == n && n > CollectionFit(v, cfg)
    ensures Wf(w) && w.order[n - 1] in w.collections
  {
    CollectionsGoOn(v, w, n, cfg);
    assert w.order[n - 1] in w.order;
  }

  lemma CollectionStageStep(v: State, w: State, n: nat, x: State, cfg: Config)
    requires CollectionStage(v, w, n, cfg) && CollectionFit(v, cfg) < n
    requires Wf(x) && Dropped(w, x, w.order[n - 1])
    ensures CollectionStage(v, x, n - 1, cfg) && |x.collections| <= |w.collections|
  {
    CollectionsLeftStep(v, w, n, x);
    FewerCollections(w, x, w.order[n - 1]);
  }

  lemma FewerCollections(w: State, x: State, key: CollectionKey)
    requires CollectionsWf(w) && CollectionsWf(x) && Dropped(w, x, key)
    ensures |x.collections| <= |w.collections|
  {
    EnumeratesSize(w.order, w.collections.Keys);
    EnumeratesSize(x.order, x.collections.Keys);
    ExceptKeeps(w.order, {key});
  }

  lemma CollectionStageEnd(v: State, w: State, n: nat, cfg: Config)
    requires CollectionStage(v, w, n, cfg) && |w.collections| <= cfg.maxCollections && w.etagCount <= cfg.maxEtags
    ensures Wf(w) && CollectionsLeft(v, w, CollectionFit(v, cfg))
  {
    CollectionsGoOn(v, w, n, cfg);
  }

  // What is left is under every ceiling of the session.
  lemma EvictedIsUnder(v: State, w: State, cfg: Config)
    requires Wf(v) && Evicted(v, w, cfg)
    ensures UnderCeilings(w, cfg)
  {
    CollectionsUnder(v, w, cfg);
    ThumbsUnder(v, w, cfg);
    BodiesUnder(v, w, cfg);
  }

  lemma CollectionsUnder(v: State, w: State, cfg: Config)
    requires CollectionsWf(v) && CollectionsWf(w)
    requires w.order == v.order[..CollectionFit(v, cfg)] && Submap(w.collections, v.collections)
    ensures |w.collections| <= cfg.maxCollections && w.etagCount <= cfg.maxEtags
  {
    FitIsLongest(v.order, EtagSizes(v), cfg.maxCollections, cfg.maxEtags);
    EnumeratesSize(w.order, w.collections.Keys);
    TotalSame(w.order, EtagSizes(v), EtagSizes(w));
  }

  lemma ThumbsUnder(v: State, w: State, cfg: Config)
    requires ThumbsWf(v) && ThumbsWf(w)
    requires w.thumbOrder == v.thumbOrder[..ThumbFit(v, cfg)] && Submap(w.thumbs, v.thumbs)
    ensures |w.thumbs| <= cfg.maxThumbs && w.thumbBytes <= cfg.maxThumbBytes
  {
    FitIsLongest(v.thumbOrder, ThumbSizes(v), cfg.maxThumbs, cfg.maxThumbBytes);
    EnumeratesSize(w.thumbOrder, w.thumbs.Keys);
    TotalSame(w.thumbOrder, ThumbSizes(v), ThumbSizes(w));
  }

  lemma {:induction false} TotalExceptAtMost<K(!new)>(keys: seq<K>, gone: set<K>, size: map<K, nat>)
    requires forall k :: k in keys ==> k in size
    ensures forall k :: k in Except(keys, gone) ==> k in size
    ensures Total(Except(keys, gone), size) <= Total(keys, size)
  {
    ExceptKeeps(keys, gone);
    if keys != [] {
      var init, last := keys[..|keys| - 1], keys[|keys| - 1];
      TotalExceptAtMost(init, gone, size);
      assert last in keys;
      if last !in gone {
        TotalSnoc(Except(init, gone), last, size);
      } else {
        assert Except(init, gone) + [] == Except(init, gone);
      }
    }
  }

  lemma BodiesUnder(v: State, w: State, cfg: Config)
    requires BodiesWf(v) && BodiesWf(w) && Submap(w.data, v.data)
    requires var kept := v.bodies[..BodyFit(v, cfg)]; w.bodies == Except(kept, Outside(kept, w.collections.Keys))
    ensures w.bodyBytes <= cfg.maxBodyBytes
  {
    var keys, n := Keys(v.bodies), BodyFit(v, cfg);
    var kept := v.bodies[..n];
    FitIsLongest(keys, BodySizes(v), |v.bodies|, cfg.maxBodyBytes);
    assert Keys(kept) == keys[..n];
    var gone := set r | r in Outside(kept, w.collections.Keys) :: r.key;
    forall r | r in kept
      ensures r in Outside(kept, w.collections.Keys) <==> r.key in gone
    {
    }
    KeysOfExcept(kept, Outside(kept, w.collections.Keys), gone);
    TotalExceptAtMost(Keys(kept), gone, BodySizes(v));
    TotalSame(Keys(w.bodies), BodySizes(v), BodySizes(w));
  }
}
