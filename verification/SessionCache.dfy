// The session caches and the process budget that evicts across them, updated in
// place (internal/session/cache.go, internal/session/thumb.go, internal/session/budget.go).
module SessionCache {
  import opened Ordering
  import opened Recency
  import opened Sums
  import opened CacheState
  import opened CacheEviction
  import opened BudgetState

  datatype Option<T> = None | Some(value: T)

  class Cache {
    const cfg: Config
    const budget: Budget

    var collections: map<CollectionKey, Collection>
    var order: seq<CollectionKey>
    var etagCount: int
    var data: map<BodyKey, Blob>
    var bodies: seq<BodyRef>
    var bodyBytes: int
    var thumbs: map<ThumbKey, Thumb>
    var thumbOrder: seq<ThumbKey>
    var thumbBytes: int

    constructor (cfg: Config, budget: Budget)
      requires budget.Valid()
      modifies budget`views
      ensures budget.Valid() && this !in old(budget.views) && budget.views == old(budget.views)[this := EmptyState]
      ensures View() == EmptyState && this.cfg == cfg && this.budget == budget
    {
      this.cfg, this.budget := cfg, budget;
      collections, order, etagCount := map[], [], 0;
      data, bodies, bodyBytes := map[], [], 0;
      thumbs, thumbOrder, thumbBytes := map[], [], 0;
      new;
      budget.Join(this);
    }

    function View(): State
      reads this
    {
      State(collections, order, etagCount, data, bodies, bodyBytes, thumbs, thumbOrder, thumbBytes)
    }

    ghost predicate Shows(v: State)
      reads this
    {
      View() == v
    }

    /* ---- Eviction under this session's own ceilings ---- */

    method EvictOldestBody()
      requires bodies != [] ==> bodies[|bodies| - 1].key in data
      modifies this`bodies, this`data, this`bodyBytes
      ensures View() == if old(bodies) == [] then old(View()) else WithoutLastBody(old(View()))
    {
      if |bodies| == 0 {
        return;
      }
      var ref := bodies[|bodies| - 1];
      bodies := bodies[..|bodies| - 1];
      bodyBytes := bodyBytes - |data[ref.key]|;
      data := data - {ref.key};
    }

    method EvictOldestThumb()
      requires thumbOrder != [] ==> thumbOrder[|thumbOrder| - 1] in thumbs
      modifies this`thumbOrder, this`thumbs, this`thumbBytes
      ensures View() == if old(thumbOrder) == [] then old(View()) else WithoutLastThumb(old(View()))
    {
      if |thumbOrder| == 0 {
        return;
      }
      var key := thumbOrder[|thumbOrder| - 1];
      thumbBytes := thumbBytes - |thumbs[key].data|;
      thumbs := thumbs - {key};
      thumbOrder := thumbOrder[..|thumbOrder| - 1];
    }

    method EvictBodies()
      requires Wf(View())
      modifies this`bodies, this`data, this`bodyBytes
      ensures Wf(View()) && BodiesLeft(old(View()), View(), BodyFit(old(View()), cfg))
    {
      hide Wf, BodyStage, BodiesLeft, BodyFit;
      ghost var v := View();
      ghost var n: nat := |bodies|;
      BodyStageStart(v, cfg);
      while bodyBytes > cfg.maxBodyBytes
        invariant BodyStage(v, View(), n, cfg)
        decreases n
      {
        BodyStageStep(v, View(), n, cfg);
        EvictOldestBody();
        n := n - 1;
      }
      BodyStageEnd(v, View(), n, cfg);
    }

    method EvictThumbs()
      requires Wf(View())
      modifies this`thumbOrder, this`thumbs, this`thumbBytes
      ensures Wf(View()) && ThumbsLeft(old(View()), View(), ThumbFit(old(View()), cfg))
    {
      hide Wf, ThumbStage, ThumbsLeft, ThumbFit;
      ghost var v := View();
      ghost var n: nat := |thumbOrder|;
      ThumbStageStart(v, cfg);
      while |thumbs| > cfg.maxThumbs || thumbBytes > cfg.maxThumbBytes
        invariant ThumbStage(v, View(), n, cfg)
        decreases n
      {
        ThumbStageStep(v, View(), n, cfg);
        EvictOldestThumb();
        n := n - 1;
      }
      ThumbStageEnd(v, View(), n, cfg);
    }

    method EvictCollections()
      requires Wf(View())
      modifies this`collections, this`order, this`etagCount, this`data, this`bodies, this`bodyBytes
      ensures Wf(View()) && CollectionsLeft(old(View()), View(), CollectionFit(old(View()), cfg))
    {
      ghost var v := View();
      ghost var n: nat := |order|;
      CollectionStageStart(v, cfg);
      while |collections| > cfg.maxCollections
        invariant CollectionStage(v, View(), n, cfg)
        decreases n
      {
        n := DropOldest(v, n);
      }
      ghost var m := |collections|;
      while etagCount > cfg.maxEtags
        invariant CollectionStage(v, View(), n, cfg) && |collections| <= cfg.maxCollections
        decreases n
      {
        n := DropOldest(v, n);
      }
      CollectionStageEnd(v, View(), n, cfg);
    }

    // evictOldestCollection
    method DropOldest(ghost v: State, ghost n: nat) returns (ghost n': nat)
      requires CollectionStage(v, View(), n, cfg)
      requires |collections| > cfg.maxCollections || etagCount > cfg.maxEtags
      modifies this`collections, this`order, this`etagCount, this`data, this`bodies, this`bodyBytes
      ensures n > 0 && n' == n - 1 && CollectionStage(v, View(), n', cfg) && |collections| <= old(|collections|)
    {
      ghost var w := View();
      CollectionStageGoesOn(v, w, n, cfg);
      DropCollection(order[|order| - 1]);
      CollectionStageStep(v, w, n, View(), cfg);
      n' := n - 1;
    }

    method Evict()
      requires Wf(View())
      modifies this
      ensures Wf(View()) && Evicted(old(View()), View(), cfg)
      ensures UnderCeilings(old(View()), cfg) ==> View() == old(View())
    {
      ghost var v := View();
      EvictBodies();
      ghost var a := View();
      EvictThumbs();
      ghost var b := View();
      EvictCollections();
      StagesEvict(v, a, b, View(), cfg);
      if UnderCeilings(v, cfg) {
        NothingToEvict(v, View(), cfg);
      }
    }

    /* ---- Dropping one collection ---- */

    method BytesOutside(key: CollectionKey) returns (left: int)
      requires BodiesWf(View())
      ensures LeftOf(View(), KeysIn(data, key), left)
    {
      left := bodyBytes;
      var rest := KeysIn(data, key);
      ghost var v, done: set<BodyKey> := View(), {};
      LeftAtFirst(v);
      while rest != {}
        invariant done + rest == KeysIn(v.data, key) && done !! rest
        invariant LeftOf(v, done, left)
      {
        var k :| k in rest;
        LeftStep(v, done, left, k);
        left := left - |data[k]|;
        rest, done := rest - {k}, done + {k};
      }
      assert done == KeysIn(data, key);
    }

    method BodiesOutside(key: CollectionKey) returns (kept: seq<BodyRef>)
      ensures kept == Except(bodies, RefsOf(bodies, key))
    {
      kept := [];
      for i := 0 to |bodies|
        invariant kept == Except(bodies[..i], RefsOf(bodies, key))
      {
        assert bodies[..i + 1] == bodies[..i] + [bodies[i]];
        ExceptSnoc(bodies[..i], bodies[i], RefsOf(bodies, key));
        if bodies[i].key.collection != key {
          kept := kept + [bodies[i]];
        }
      }
      assert bodies[..|bodies|] == bodies;
    }

    method DropCollection(key: CollectionKey)
      requires Wf(View())
      modifies this`collections, this`order, this`etagCount, this`data, this`bodies, this`bodyBytes
      ensures Wf(View()) && Dropped(old(View()), View(), key)
    {
      if key !in collections {
        AbsentDropped(View(), key);
        return;
      }
      ghost var v := View();
      DropHeld(key);
      DropIsSound(v, View(), key);
    }

    method DropHeld(key: CollectionKey)
      requires BodiesWf(View()) && Distinct(order) && key in collections
      modifies this`collections, this`order, this`etagCount, this`data, this`bodies, this`bodyBytes
      ensures View() == DropState(old(View()), key, bodyBytes)
      ensures LeftOf(old(View()), KeysIn(old(data), key), bodyBytes)
    {
      var left := BytesOutside(key);
      var kept := BodiesOutside(key);
      etagCount := etagCount - |collections[key].etags|;
      bodyBytes, bodies := left, kept;
      data := data - KeysIn(data, key);
      collections := collections - {key};
      RemoveKey(key);
    }

    /* ---- The public operations ---- */

    // Every public operation comes down to this: the cache went to the state `View()`
    // by local steps, and now tells the budget, which may evict anywhere.
    method Settle(ghost was: State, ghost clock0: nat)
      requires this in budget.views && budget.views[this] == was && clock0 <= budget.clock
      requires Pool(budget.views, clock0) && Accounted(budget.views, budget.used, budget.total)
      requires forall d :: d in budget.views ==> d.budget == budget && (d != this ==> d.Shows(budget.views[d]))
      requires forall d :: d in budget.views && d != this ==> UnderCeilings(budget.views[d], d.cfg)
      requires Wf(View()) && Before(View(), budget.clock) && Younger(was, View(), clock0) && UnderCeilings(View(), cfg)
      modifies budget`total, budget`used, budget`views, budget.views.Keys
      ensures budget.Valid() && budget.views.Keys == old(budget.views.Keys)
      ensures EvictedAcross(old(budget.views[this := View()]), budget.views, budget.total, budget.max)
      ensures budget.max == 0 || old(budget.total) + old(Bytes(View())) - Bytes(was) <= budget.max ==>
                View() == old(View()) && budget.views == old(budget.views)[this := View()]
    {
      hide Wf, Before, Younger, Accounted, UnderCeilings, EvictedAcross;
      ListedIsHeld(budget.views, budget.used, budget.total, clock0, this);
      PoolUpdate(budget.views, clock0, this, View(), budget.clock);
      hide Pool;
      ghost var put := budget.views[this := View()];
      assert forall d :: d in put ==> UnderCeilings(put[d], d.cfg);
      PoolIsWf(put, budget.clock);
      budget.Set(this, bodyBytes + thumbBytes);
      PoolIsWf(budget.views, budget.clock);
      UnderAfter(put, budget.views, budget.total, budget.max);
    }

    // evictLocked, then publish.
    method EvictAndSettle(ghost was: State, ghost clock0: nat)
      requires this in budget.views && budget.views[this] == was && clock0 <= budget.clock
      requires Pool(budget.views, clock0) && Accounted(budget.views, budget.used, budget.total)
      requires forall d :: d in budget.views ==> d.budget == budget && (d != this ==> d.Shows(budget.views[d]))
      requires forall d :: d in budget.views && d != this ==> UnderCeilings(budget.views[d], d.cfg)
      requires Wf(View()) && Before(View(), budget.clock) && Younger(was, View(), clock0)
      modifies this, budget`total, budget`used, budget`views, budget.views.Keys
      ensures budget.Valid() && budget.views.Keys == old(budget.views.Keys)
      ensures SettledAs(old(budget.views), this, old(View()), budget)
      ensures Roomy(old(View()), was, cfg, old(budget.total), budget.max) ==>
                View() == old(View()) && budget.views == old(budget.views)[this := View()]
    {
      hide Wf, Before, Pool, Accounted, UnderCeilings, Evicted, EvictedAcross, Younger;
      ghost var put := View();
      Evict();
      EvictedStays(was, put, View(), cfg, clock0, budget.clock);
      Settle(was, clock0);
    }

    method PutBody(key: BodyKey, body: Blob)
      requires budget.Valid() && this in budget.views
      modifies this, budget`clock, budget`total, budget`used, budget`views, budget.views.Keys
      ensures budget.Valid() && budget.views.Keys == old(budget.views.Keys) && budget.clock == old(budget.clock) + 1
      ensures SettledAs(old(budget.views), this,
                        WithBody(WithCollection(old(View()), key.collection), key, body, budget.clock), budget)
      ensures key in data ==> data[key] == body && BodyRef(key, budget.clock) in bodies
      ensures forall k :: k in data && k != key ==> k in old(data) && data[k] == old(data)[k]
      ensures forall c :: c in collections ==>
                if c in old(collections) then collections[c] == old(collections)[c] else c == key.collection && collections[c].etags == map[]
      ensures Submap(thumbs, old(thumbs))
      ensures BodyFitsIn(old(View()), key, body, cfg, old(budget.total), budget.max) ==>
                data == old(data)[key := body] && thumbs == old(thumbs) && key.collection in collections
                && collections - {key.collection} == old(collections) - {key.collection}
    {
      hide Wf, Before, Pool, Accounted, UnderCeilings, SettledAs, Younger, Recent, RecentRef, WithBody, WithCollection;
      hide Within, BodyFitsIn, Roomy;
      ghost var v, clock0, total := View(), budget.clock, budget.total;
      assert budget.Linked(this);
      InPool(budget.views, clock0, this);
      assert UnderCeilings(v, cfg);
      StoreAndTouch(key, body);
      ghost var put := View();
      BodyRoom(v, put, key, body, clock0 + 1, cfg, total, budget.max);
      EvictAndSettle(v, clock0);
      SettledWithin(old(budget.views), this, put, budget);
      assert budget.Linked(this);
      InPool(budget.views, budget.clock, this);
      BodyPut(v, put, View(), key, body, clock0 + 1);
    }

    method StoreAndTouch(key: BodyKey, body: Blob)
      requires Wf(View()) && Before(View(), budget.clock)
      modifies this, budget`clock
      ensures budget.clock == old(budget.clock) + 1
      ensures View() == WithBody(WithCollection(old(View()), key.collection), key, body, budget.clock)
      ensures Wf(View()) && Before(View(), budget.clock) && Younger(old(View()), View(), old(budget.clock))
    {
      hide Wf, Before, Younger, BodiesWf, Recent, RecentRef;
      PutBodyParts(View(), key, body, budget.clock);
      EnsureCollection(key.collection);
      StoreBody(key, body);
      TouchCollection(key.collection);
    }

    method PutThumb(k: ThumbKey, media: string, bytes: Blob)
      requires budget.Valid() && this in budget.views
      modifies this, budget`clock, budget`total, budget`used, budget`views, budget.views.Keys
      ensures budget.Valid() && budget.views.Keys == old(budget.views.Keys)
      ensures k.etag == [] || bytes == [] ==>
        View() == old(View()) && budget.views == old(budget.views) && budget.clock == old(budget.clock)
      ensures k.etag != [] && bytes != [] ==>
        && budget.clock == old(budget.clock) + 1
        && SettledAs(old(budget.views), this, WithThumb(old(View()), k, media, bytes, budget.clock), budget)
      ensures k.etag != [] && bytes != [] && k in thumbs ==> thumbs[k] == Thumb(media, bytes, budget.clock)
      ensures forall x :: x in thumbs && x != k ==> x in old(thumbs) && thumbs[x] == old(thumbs)[x]
      ensures Submap(data, old(data)) && Submap(collections, old(collections))
      ensures k.etag != [] && bytes != [] && ThumbFitsIn(old(View()), k, bytes, cfg, old(budget.total), budget.max) ==>
                thumbs == old(thumbs)[k := Thumb(media, bytes, budget.clock)] && data == old(data) && collections == old(collections)
    {
      if |k.etag| == 0 || |bytes| == 0 {
        return;
      }
      KeepThumb(k, media, bytes);
    }

    method KeepThumb(k: ThumbKey, media: string, bytes: Blob)
      requires budget.Valid() && this in budget.views
      modifies this, budget`clock, budget`total, budget`used, budget`views, budget.views.Keys
      ensures budget.Valid() && budget.views.Keys == old(budget.views.Keys) && budget.clock == old(budget.clock) + 1
      ensures SettledAs(old(budget.views), this, WithThumb(old(View()), k, media, bytes, budget.clock), budget)
      ensures k in thumbs ==> thumbs[k] == Thumb(media, bytes, budget.clock)
      ensures forall x :: x in thumbs && x != k ==> x in old(thumbs) && thumbs[x] == old(thumbs)[x]
      ensures Submap(data, old(data)) && Submap(collections, old(collections))
      ensures ThumbFitsIn(old(View()), k, bytes, cfg, old(budget.total), budget.max) ==>
                thumbs == old(thumbs)[k := Thumb(media, bytes, budget.clock)] && data == old(data) && collections == old(collections)
    {
      hide Wf, Before, Pool, Accounted, UnderCeilings, SettledAs, Younger, Recent, Within, ThumbFitsIn, Roomy;
      ghost var v, clock0, total := View(), budget.clock, budget.total;
      assert budget.Linked(this);
      InPool(budget.views, clock0, this);
      assert UnderCeilings(v, cfg);
      WithThumbKeeps(v, k, media, bytes, clock0);
      hide ThumbsWf, WithThumb;
      StoreThumb(k, media, bytes);
      ghost var put := View();
      ThumbRoom(v, put, k, media, bytes, clock0 + 1, cfg, total, budget.max);
      EvictAndSettle(v, clock0);
      SettledWithin(old(budget.views), this, put, budget);
      assert budget.Linked(this);
      ThumbPut(v, put, View(), k, media, bytes, clock0 + 1);
    }

    method SetETags(c: CollectionKey, ctag: string, etags: map<string, string>, now: int)
      requires budget.Valid() && this in budget.views
      modifies this, budget`total, budget`used, budget`views, budget.views.Keys
      ensures budget.Valid() && budget.views.Keys == old(budget.views.Keys)
      ensures SettledAs(old(budget.views), this, WithEtags(old(View()), c, ctag, etags, now), budget)
      ensures c in collections ==> collections[c] == Collection(ctag, now, etags)
      ensures forall x :: x in collections && x != c ==> x in old(collections) && collections[x] == old(collections)[x]
      ensures Submap(data, old(data)) && Submap(thumbs, old(thumbs))
      ensures EtagsFitIn(old(View()), c, etags, cfg) ==>
                collections == old(collections)[c := Collection(ctag, now, etags)] && data == old(data) && thumbs == old(thumbs)
    {
      hide Wf, Before, Pool, Accounted, UnderCeilings, SettledAs, Younger, Recent;
      ghost var v, clock0, total := View(), budget.clock, budget.total;
      assert budget.Linked(this);
      InPool(budget.views, clock0, this);
      assert UnderCeilings(v, cfg);
      WithEtagsKeeps(v, c, ctag, etags, now, clock0);
      StoreEtags(c, ctag, etags, now);
      ghost var put := View();
      EtagsRoom(v, put, c, ctag, etags, now, cfg, total, budget.max);
      EvictAndSettle(v, clock0);
      SettledWithin(old(budget.views), this, put, budget);
      assert budget.Linked(this);
      EtagsPut(v, put, View(), c, ctag, etags, now);
    }

    method StoreEtags(c: CollectionKey, ctag: string, etags: map<string, string>, now: int)
      requires CollectionsWf(View())
      modifies this`collections, this`order, this`etagCount
      ensures View() == WithEtags(old(View()), c, ctag, etags, now)
    {
      var was := if c in collections then |collections[c].etags| else 0;
      ListAndTouch(c);
      collections := collections[c := Collection(ctag, now, etags)];
      etagCount := etagCount - was + |etags|;
    }

    method ListAndTouch(c: CollectionKey)
      requires CollectionsWf(View())
      modifies this`order
      ensures order == Recent(c, old(order))
    {
      ListedOnce(View(), c);
      if c !in collections {
        order := order + [c];
      }
      TouchCollection(c);
    }

    // A read: what is held moves to the front of its lists, and the budget is not told.
    ghost method Note(was: State, clock0: nat)
      requires this in budget.views && budget.views[this] == was && clock0 <= budget.clock
      requires Pool(budget.views, clock0) && Accounted(budget.views, budget.used, budget.total)
      requires budget.max > 0 ==> budget.total <= budget.max
      requires forall d :: d in budget.views ==> d.budget == budget && (d != this ==> d.Shows(budget.views[d]))
      requires forall d :: d in budget.views ==> UnderCeilings(budget.views[d], d.cfg)
      requires Wf(View()) && Before(View(), budget.clock) && Younger(was, View(), clock0) && SameSizes(was, View())
      modifies budget`views
      ensures budget.Valid() && budget.views == old(budget.views)[this := View()]
    {
      hide Wf, Before, Younger, UnderCeilings;
      PoolUpdate(budget.views, clock0, this, View(), budget.clock);
      SameUnder(was, View(), cfg);
      SameAccounts(budget.views, budget.used, budget.total, this, View());
      hide Pool, Accounted, SameSizes;
      budget.views := budget.views[this := View()];
    }

    method GetBody(key: BodyKey) returns (body: Option<Blob>)
      requires budget.Valid() && this in budget.views
      modifies this, budget`clock, budget`views
      ensures budget.Valid() && budget.views == old(budget.views)[this := View()]
      ensures body == if key in old(data) then Some(old(data)[key]) else None
      ensures body == None ==> View() == old(View()) && budget.clock == old(budget.clock)
      ensures body.Some? ==> budget.clock == old(budget.clock) + 1
      ensures body.Some? ==>
        View() == WithBody(WithCollection(old(View()), key.collection), key, body.value, budget.clock)
      ensures data == old(data) && collections == old(collections) && thumbs == old(thumbs)
      ensures body.Some? ==> FrontRef(bodies, old(bodies), BodyRef(key, budget.clock)) && FrontKey(order, old(order), key.collection)
    {
      hide Wf, Before, Pool, Accounted, UnderCeilings, Younger, WithBody, WithCollection, FrontRef, FrontKey;
      assert budget.Linked(this);
      if key !in data {
        assert budget.views == budget.views[this := View()];
        return None;
      }
      body := Some(data[key]);
      ghost var v := View();
      InPool(budget.views, budget.clock, this);
      TouchHeld(key);
      ReadMoves(v, View(), key, budget.clock);
    }

    method TouchHeld(key: BodyKey)
      requires budget.Valid() && this in budget.views && key in data
      modifies this, budget`clock, budget`views
      ensures budget.Valid() && budget.views == old(budget.views)[this := View()]
      ensures budget.clock == old(budget.clock) + 1
      ensures View() == WithBody(WithCollection(old(View()), key.collection), key, old(data[key]), budget.clock)
    {
      hide Wf, Before, Pool, Accounted, UnderCeilings, Younger, WithBody, WithCollection;
      ghost var v, clock0 := View(), budget.clock;
      assert budget.Linked(this);
      InPool(budget.views, clock0, this);
      HeldBody(v, key, clock0);
      hide RecentRef, Recent;
      TouchBody(key);
      TouchCollection(key.collection);
      Note(v, clock0);
    }

    method GetThumb(k: ThumbKey) returns (thumb: Option<Thumb>)
      requires budget.Valid() && this in budget.views
      modifies this, budget`clock, budget`views
      ensures budget.Valid() && budget.views == old(budget.views)[this := View()]
      ensures if k.etag != [] && k in old(thumbs)
              then thumb == Some(old(thumbs)[k]) && budget.clock == old(budget.clock) + 1
              else thumb == None && View() == old(View()) && budget.clock == old(budget.clock)
      ensures thumb.Some? ==> View() == WithThumb(old(View()), k, thumb.value.media, thumb.value.data, budget.clock)
      ensures data == old(data) && collections == old(collections)
      ensures thumb.Some? ==> thumbs == old(thumbs)[k := thumb.value.(seqno := budget.clock)] && FrontKey(thumbOrder, old(thumbOrder), k)
    {
      hide Wf, Before, Pool, Accounted, UnderCeilings, Younger, WithThumb, FrontKey;
      assert budget.Linked(this);
      if |k.etag| == 0 || k !in thumbs {
        assert budget.views == budget.views[this := View()];
        return None;
      }
      thumb := Some(thumbs[k]);
      ghost var v := View();
      TouchKept(k);
      ThumbMoves(v, View(), k, thumb.value, budget.clock);
    }

    method TouchKept(k: ThumbKey)
      requires budget.Valid() && this in budget.views && k in thumbs
      modifies this, budget`clock, budget`views
      ensures budget.Valid() && budget.views == old(budget.views)[this := View()]
      ensures budget.clock == old(budget.clock) + 1
      ensures View() == WithThumb(old(View()), k, old(thumbs[k]).media, old(thumbs[k]).data, budget.clock)
    {
      hide Wf, Before, Pool, Accounted, UnderCeilings, Younger;
      ghost var v, clock0 := View(), budget.clock;
      assert budget.Linked(this);
      InPool(budget.views, clock0, this);
      WithThumbKeeps(v, k, v.thumbs[k].media, v.thumbs[k].data, clock0);
      SameThumb(v, k, clock0 + 1);
      hide ThumbsWf, WithThumb;
      TouchThumb(k);
      Note(v, clock0);
    }

    method GetETags(c: CollectionKey) returns (etags: Option<map<string, string>>)
      requires budget.Valid() && this in budget.views
      modifies this, budget`views
      ensures budget.Valid() && budget.views == old(budget.views)[this := View()]
      ensures etags == if c in old(collections) then Some(old(collections)[c].etags) else None
      ensures View() == if c in old(collections) then WithCollection(old(View()), c) else old(View())
      ensures data == old(data) && collections == old(collections) && thumbs == old(thumbs) && bodies == old(bodies)
      ensures etags.Some? ==> FrontKey(order, old(order), c)
    {
      hide Wf, Before, Pool, Accounted, UnderCeilings, Younger, FrontKey;
      ghost var v, clock0 := View(), budget.clock;
      assert budget.Linked(this);
      if c !in collections {
        assert budget.views == budget.views[this := View()];
        return None;
      }
      etags := Some(collections[c].etags);
      InPool(budget.views, clock0, this);
      WithCollectionKeeps(v, c, clock0);
      TouchCollection(c);
      RecentIsFront(c, v.order);
      Note(v, clock0);
    }

    // Holding less than before: nothing is evicted, here or elsewhere.
    method Shrink(ghost was: State, ghost clock0: nat)
      requires this in budget.views && budget.views[this] == was && clock0 == budget.clock
      requires Pool(budget.views, clock0) && Accounted(budget.views, budget.used, budget.total)
      requires budget.max > 0 ==> budget.total <= budget.max
      requires forall d :: d in budget.views ==> d.budget == budget && (d != this ==> d.Shows(budget.views[d]))
      requires forall d :: d in budget.views && d != this ==> UnderCeilings(budget.views[d], d.cfg)
      requires Wf(View()) && Before(View(), budget.clock) && Younger(was, View(), clock0) && UnderCeilings(View(), cfg)
      requires Bytes(View()) <= Bytes(was)
      modifies budget`total, budget`used, budget`views, budget.views.Keys
      ensures budget.Valid() && budget.views == old(budget.views)[this := old(View())]
    {
      hide Wf, Before, Younger, UnderCeilings, EvictedAcross;
      PoolUpdate(budget.views, clock0, this, View(), budget.clock);
      ListedIsHeld(budget.views, budget.used, budget.total, clock0, this);
      hide Pool, Accounted;
      ghost var put := budget.views[this := View()];
      assert forall d :: d in put ==> UnderCeilings(put[d], d.cfg);
      budget.Set(this, bodyBytes + thumbBytes);
    }

    method InvalidateCollection(c: CollectionKey)
      requires budget.Valid() && this in budget.views
      modifies this, budget`total, budget`used, budget`views, budget.views.Keys
      ensures budget.Valid() && budget.views == old(budget.views)[this := View()]
      ensures Dropped(old(View()), View(), c)
      ensures collections == old(collections) - {c} && thumbs == old(thumbs)
      ensures forall k :: k in data <==> k in old(data) && k.collection != c
      ensures forall k :: k in data ==> data[k] == old(data)[k]
    {
      hide Wf, Before, Pool, Accounted, UnderCeilings, Younger;
      ghost var v, clock0 := View(), budget.clock;
      assert budget.Linked(this);
      InPool(budget.views, clock0, this);
      DropCollection(c);
      ghost var w := View();
      DroppedStays(v, w, c, cfg, clock0);
      DroppedIs(v, w, c);
      hide Dropped;
      Shrink(v, clock0);
      assert budget.Linked(this);
    }

    method Wipe()
      requires budget.Valid() && this in budget.views
      modifies this, budget`total, budget`used, budget`views, budget.views.Keys
      ensures budget.Valid() && View() == EmptyState && budget.views == old(budget.views)[this := EmptyState]
    {
      hide Wf, Before, Pool, Accounted, UnderCeilings, Younger;
      ghost var v, clock0 := View(), budget.clock;
      assert budget.Linked(this);
      InPool(budget.views, clock0, this);
      OffersWhatItHolds(v);
      EmptyStays(v, cfg, clock0);
      Clear();
      Shrink(v, clock0);
      assert budget.Linked(this);
    }

    method Clear()
      modifies this
      ensures View() == EmptyState
    {
      collections, order, etagCount := map[], [], 0;
      bodies, bodyBytes, data := [], 0, map[];
      thumbs, thumbOrder, thumbBytes := map[], [], 0;
    }

    /* ---- Under the process ceiling ---- */

    method PeekVictim() returns (victim: Victim)
      ensures victim == Offer(View())
    {
      if bodyBytes > 0 && |bodies| > 0 {
        return BodyVictim(bodies[|bodies| - 1].seqno);
      }
      if thumbBytes > 0 && |thumbOrder| > 0 {
        var key := thumbOrder[|thumbOrder| - 1];
        return ThumbVictim(if key in thumbs then thumbs[key].seqno else 0);
      }
      return NoVictim;
    }

    method DropOffered(victim: Victim)
      requires Wf(View()) && victim == Offer(View()) && victim != NoVictim
      modifies this`bodies, this`data, this`bodyBytes, this`thumbOrder, this`thumbs, this`thumbBytes
      ensures View() == Without(old(View()))
    {
      OfferMeans(View());
      if victim.BodyVictim? {
        EvictOldestBody();
      } else {
        EvictOldestThumb();
      }
    }

    method DropVictim(victim: Victim)
      requires Wf(View()) && victim == Offer(View()) && victim != NoVictim
      modifies this`bodies, this`data, this`bodyBytes, this`thumbOrder, this`thumbs, this`thumbBytes
      modifies budget`total, budget`used
      ensures View() == Without(old(View()))
      ensures budget.used == Adjusted(old(budget.used), this, Bytes(View()))
      ensures budget.total == old(budget.total) + Bytes(View()) - Listed(old(budget.used), this)
    {
      DropOffered(victim);
      budget.Adjust(this, bodyBytes + thumbBytes);
    }

    /* ---- The recency lists, shifted in place ---- */

    method EnsureCollection(c: CollectionKey)
      modifies this`collections, this`order
      ensures View() == Ensured(old(View()), c)
    {
      if c !in collections {
        collections := collections[c := NewCollection];
        order := order + [c];
      }
    }

    method TouchCollection(c: CollectionKey)
      requires Distinct(order) && c in order
      modifies this`order
      ensures order == Recent(c, old(order))
    {
      var i := IndexOf(order, c);
      FrontIsRecent(order, i);
      order := [order[i]] + order[..i] + order[i + 1..];
    }

    method BodyIndex(key: BodyKey) returns (i: int)
      ensures -1 <= i < |bodies|
      ensures if i < 0 then key !in Keys(bodies) else bodies[i].key == key
    {
      for n := 0 to |bodies|
        invariant forall j :: 0 <= j < n ==> Keys(bodies)[j] != key
      {
        if bodies[n].key == key {
          return n;
        }
      }
      return -1;
    }

    method TouchBody(key: BodyKey)
      requires Distinct(Keys(bodies)) && key in Keys(bodies)
      modifies this`bodies, budget`clock
      ensures budget.clock == old(budget.clock) + 1
      ensures bodies == RecentRef(key, old(bodies), budget.clock)
    {
      var i := BodyIndex(key);
      var n := budget.Tick();
      FrontIsRecentRef(bodies, i, n);
      bodies := [BodyRef(key, n)] + bodies[..i] + bodies[i + 1..];
    }

    method RemoveBody(key: BodyKey)
      requires Distinct(Keys(bodies))
      modifies this`bodies
      ensures bodies == Except(old(bodies), RefOf(old(bodies), key))
    {
      var i := BodyIndex(key);
      if i < 0 {
        NoRef(bodies, key);
        return;
      }
      CutRef(bodies, i);
      bodies := bodies[..i] + bodies[i + 1..];
    }

    method StoreBody(key: BodyKey, body: Blob)
      requires BodiesWf(View())
      modifies this`data, this`bodies, this`bodyBytes, budget`clock
      ensures budget.clock == old(budget.clock) + 1
      ensures View() == WithBody(old(View()), key, body, old(budget.clock) + 1)
    {
      ForgetBody(key);
      data := data[key := body];
      bodyBytes := bodyBytes + |body|;
      var n := budget.Tick();
      bodies := [BodyRef(key, n)] + bodies;
    }

    method ForgetBody(key: BodyKey)
      requires BodiesWf(View())
      modifies this`bodies, this`bodyBytes
      ensures bodies == Except(old(bodies), RefOf(old(bodies), key))
      ensures bodyBytes == old(bodyBytes) - if key in data then |data[key]| else 0
    {
      NewRefEver(View(), key);
      KeysOnce(View());
      hide BodiesWf, RefOf, Keys;
      if key in data {
        bodyBytes := bodyBytes - |data[key]|;
        RemoveBody(key);
      }
    }

    method StoreThumb(k: ThumbKey, media: string, bytes: Blob)
      requires ThumbsWf(View())
      modifies this`thumbs, this`thumbOrder, this`thumbBytes, budget`clock
      ensures budget.clock == old(budget.clock) + 1
      ensures View() == WithThumb(old(View()), k, media, bytes, budget.clock)
    {
      ForgetThumb(k);
      hide ThumbsWf;
      var n := budget.Tick();
      thumbs := thumbs[k := Thumb(media, bytes, n)];
      thumbOrder := [k] + thumbOrder;
      thumbBytes := thumbBytes + |bytes|;
    }

    method ForgetThumb(k: ThumbKey)
      requires ThumbsWf(View())
      modifies this`thumbs, this`thumbOrder, this`thumbBytes
      ensures thumbs == old(thumbs) - {k} && thumbOrder == Except(old(thumbOrder), {k})
      ensures thumbBytes == old(thumbBytes) - if k in old(thumbs) then |old(thumbs)[k].data| else 0
    {
      assert Distinct(thumbOrder) && (k in thumbs <==> k in thumbOrder);
      hide ThumbsWf, Distinct, Except;
      if k in thumbs {
        thumbBytes := thumbBytes - |thumbs[k].data|;
        thumbs := thumbs - {k};
        var i := IndexOf(thumbOrder, k);
        CutIsExcept(thumbOrder, i);
        thumbOrder := thumbOrder[..i] + thumbOrder[i + 1..];
      } else {
        ExceptNothing(thumbOrder, {k});
      }
    }

    method TouchThumb(k: ThumbKey)
      requires ThumbsWf(View()) && k in thumbs
      modifies this`thumbs, this`thumbOrder, budget`clock
      ensures budget.clock == old(budget.clock) + 1
      ensures View() == WithThumb(old(View()), k, old(thumbs[k]).media, old(thumbs[k]).data, budget.clock)
    {
      var i := IndexOf(thumbOrder, k);
      FrontIsRecent(thumbOrder, i);
      thumbOrder := [k] + thumbOrder[..i] + thumbOrder[i + 1..];
      var n := budget.Tick();
      thumbs := thumbs[k := thumbs[k].(seqno := n)];
    }

    method RemoveKey(key: CollectionKey)
      requires Distinct(order)
      modifies this`order
      ensures order == Except(old(order), {key})
    {
      var i := IndexOf(order, key);
      if i < 0 {
        ExceptNothing(order, {key});
        return;
      }
      CutIsExcept(order, i);
      order := order[..i] + order[i + 1..];
    }
  }

  method IndexOf<K(==)>(keys: seq<K>, key: K) returns (i: int)
    ensures -1 <= i < |keys|
    ensures if i < 0 then key !in keys else keys[i] == key
  {
    for n := 0 to |keys|
      invariant key !in keys[..n]
    {
      if keys[n] == key {
        return n;
      }
      assert keys[..n + 1] == keys[..n] + [keys[n]];
    }
    assert keys[..|keys|] == keys;
    return -1;
  }

  lemma PutBodyParts(v: State, key: BodyKey, body: Blob, clock: nat)
    requires Wf(v) && Before(v, clock)
    ensures BodiesWf(Ensured(v, key.collection))
    ensures var e := Ensured(v, key.collection);
            && Distinct(e.order) && key.collection in e.order
            && WithBody(e, key, body, clock + 1).(order := Recent(key.collection, e.order))
               == WithBody(WithCollection(v, key.collection), key, body, clock + 1)
    ensures var put := WithBody(WithCollection(v, key.collection), key, body, clock + 1);
            Wf(put) && Before(put, clock + 1) && Younger(v, put, clock)
  {
    hide Wf, Before, Younger;
    var e, t := Ensured(v, key.collection), WithCollection(v, key.collection);
    EnsuredParts(v, key.collection, clock);
    WithCollectionWf(v, key.collection);
    WithBodyKeeps(t, key, body, clock);
    YoungerTwice(v, t, WithBody(t, key, body, clock + 1), clock, clock);
  }

  lemma EvictedStays(was: State, put: State, w: State, cfg: Config, clock0: nat, clock: nat)
    requires Wf(put) && Evicted(put, w, cfg) && Before(put, clock) && Younger(was, put, clock0)
    ensures Wf(w) && UnderCeilings(w, cfg) && Before(w, clock) && Younger(was, w, clock0)
  {
    EvictedIsUnder(put, w, cfg);
    EvictedYounger(put, w, cfg, clock);
    EvictedYounger(put, w, cfg, clock0);
    YoungerTwice(was, put, w, clock0, clock0);
  }

  lemma WithCollectionYounger(v: State, c: CollectionKey, clock: nat)
    ensures Before(v, clock) ==> Before(WithCollection(v, c), clock)
    ensures Younger(v, WithCollection(v, c), clock)
  {
  }

  lemma WithThumbKeeps(v: State, k: ThumbKey, media: string, bytes: Blob, clock: nat)
    requires Wf(v) && Before(v, clock)
    ensures ThumbsWf(v)
    ensures var w := WithThumb(v, k, media, bytes, clock + 1); Wf(w) && Before(w, clock + 1) && Younger(v, w, clock)
  {
    WithThumbWf(v, k, media, bytes, clock + 1);
    WithThumbYounger(v, k, media, bytes, clock);
  }

  lemma WithEtagsKeeps(v: State, c: CollectionKey, ctag: string, etags: map<string, string>, now: int, clock: nat)
    requires Wf(v) && Before(v, clock)
    ensures CollectionsWf(v)
    ensures var w := WithEtags(v, c, ctag, etags, now); Wf(w) && Before(w, clock) && Younger(v, w, clock)
  {
    WithEtagsWf(v, c, ctag, etags, now);
  }

  // Nothing came or went.
  ghost predicate SameSizes(v: State, w: State) {
    && w.bodyBytes == v.bodyBytes && w.thumbBytes == v.thumbBytes && w.etagCount == v.etagCount
    && w.collections == v.collections && w.data == v.data && w.thumbs.Keys == v.thumbs.Keys
  }

  lemma SameAccounts<C>(views: map<C, State>, used: map<C, int>, total: int, c: C, w: State)
    requires c in views && Accounted(views, used, total) && SameSizes(views[c], w)
    ensures Accounted(views[c := w], used, total)
  {
  }

  lemma SameUnder(v: State, w: State, cfg: Config)
    requires SameSizes(v, w) && UnderCeilings(v, cfg)
    ensures UnderCeilings(w, cfg)
  {
    assert |w.thumbs| == |w.thumbs.Keys| == |v.thumbs|;
  }

  lemma ListedOnce(v: State, c: CollectionKey)
    requires CollectionsWf(v)
    ensures Distinct(v.order) && (c in v.collections <==> c in v.order)
    ensures c !in v.collections ==> Distinct(v.order + [c]) && Recent(c, v.order + [c]) == Recent(c, v.order)
  {
    if c !in v.collections {
      RecentOfNew(c, v.order);
    }
  }

  lemma SameThumb(v: State, k: ThumbKey, seqno: nat)
    requires k in v.thumbs
    ensures SameSizes(v, WithThumb(v, k, v.thumbs[k].media, v.thumbs[k].data, seqno))
  {
  }

  lemma WithCollectionKeeps(v: State, c: CollectionKey, clock: nat)
    requires Wf(v) && Before(v, clock) && c in v.collections
    ensures Distinct(v.order) && c in v.order
    ensures var w := WithCollection(v, c); Wf(w) && Before(w, clock) && Younger(v, w, clock) && SameSizes(v, w)
  {
    WithCollectionWf(v, c);
    WithCollectionYounger(v, c, clock);
  }

  lemma DroppedStays(v: State, w: State, c: CollectionKey, cfg: Config, clock: nat)
    requires Wf(v) && Wf(w) && Dropped(v, w, c) && Before(v, clock) && UnderCeilings(v, cfg)
    ensures Before(w, clock) && Younger(v, w, clock) && UnderCeilings(w, cfg) && Bytes(w) <= Bytes(v)
  {
    DroppedYounger(v, w, c, clock);
    DroppedBytes(v, w, c);
    DroppedEtags(v, w, c);
  }

  lemma DroppedBytes(v: State, w: State, c: CollectionKey)
    requires BodiesWf(v) && BodiesWf(w) && Dropped(v, w, c)
    ensures w.bodyBytes <= v.bodyBytes
  {
    DroppedKeys(v, c);
    TotalExceptAtMost(Keys(v.bodies), KeysIn(v.data, c), BodySizes(v));
    TotalSame(Keys(w.bodies), BodySizes(v), BodySizes(w));
  }

  lemma DroppedEtags(v: State, w: State, c: CollectionKey)
    requires CollectionsWf(v) && CollectionsWf(w) && Dropped(v, w, c)
    ensures w.etagCount <= v.etagCount && |w.collections| <= |v.collections|
  {
    TotalExceptAtMost(v.order, {c}, EtagSizes(v));
    TotalSame(w.order, EtagSizes(v), EtagSizes(w));
    FewerCollections(v, w, c);
  }

  lemma EmptyStays(v: State, cfg: Config, clock: nat)
    ensures Wf(EmptyState) && Before(EmptyState, clock) && Younger(v, EmptyState, clock) && UnderCeilings(EmptyState, cfg)
  {
  }

  lemma ListedIsHeld<C>(views: map<C, State>, used: map<C, int>, total: int, clock: nat, c: C)
    requires Accounted(views, used, total) && Pool(views, clock) && c in views
    ensures Listed(used, c) == Bytes(views[c])
  {
    InPool(views, clock, c);
    OffersWhatItHolds(views[c]);
    assert Counted(views[c], c in used, Listed(used, c));
  }

  lemma SameBody(v: State, key: BodyKey, seqno: nat)
    requires key in v.data && key.collection in v.collections
    ensures WithBody(WithCollection(v, key.collection), key, v.data[key], seqno)
         == v.(bodies := RecentRef(key, v.bodies, seqno), order := Recent(key.collection, v.order))
  {
    hide Recent, RecentRef;
    assert v.data[key := v.data[key]] == v.data;
  }

  lemma HeldBody(v: State, key: BodyKey, clock: nat)
    requires Wf(v) && Before(v, clock) && key in v.data
    ensures Distinct(Keys(v.bodies)) && key in Keys(v.bodies) && Distinct(v.order) && key.collection in v.order
    ensures var w := WithBody(WithCollection(v, key.collection), key, v.data[key], clock + 1);
            && Wf(w) && Before(w, clock + 1) && Younger(v, w, clock) && SameSizes(v, w)
            && w == v.(bodies := RecentRef(key, v.bodies, clock + 1), order := Recent(key.collection, v.order))
  {
    HeldKeys(v, key);
    PutBodyParts(v, key, v.data[key], clock);
    hide WithBody, WithCollection, Wf, Before, Younger, Recent, RecentRef, Ensured;
    SameBody(v, key, clock + 1);
  }

  lemma HeldKeys(v: State, key: BodyKey)
    requires Wf(v) && key in v.data
    ensures Distinct(Keys(v.bodies)) && key in Keys(v.bodies) && Distinct(v.order) && key.collection in v.order
    ensures key.collection in v.collections
  {
  }

  lemma EnsuredBodies(v: State, c: CollectionKey)
    requires BodiesWf(v)
    ensures BodiesWf(Ensured(v, c))
  {
    BodiesApart(v, Ensured(v, c));
  }

  lemma EnsuredParts(v: State, c: CollectionKey, clock: nat)
    requires Wf(v) && Before(v, clock)
    ensures BodiesWf(Ensured(v, c)) && Distinct(Ensured(v, c).order) && c in Ensured(v, c).order
    ensures Ensured(v, c).(order := Recent(c, Ensured(v, c).order)) == WithCollection(v, c)
    ensures c in WithCollection(v, c).collections && Before(WithCollection(v, c), clock) && Younger(v, WithCollection(v, c), clock)
  {
    hide BodiesWf, ThumbsWf, Before, Younger;
    EnsuredBodies(v, c);
    WithCollectionYounger(v, c, clock);
    EnsuredThenTouched(v, c);
  }

  lemma WithBodyKeeps(v: State, key: BodyKey, body: Blob, clock: nat)
    requires Wf(v) && Before(v, clock) && key.collection in v.collections
    ensures var w := WithBody(v, key, body, clock + 1); Wf(w) && Before(w, clock + 1) && Younger(v, w, clock)
  {
    WithBodyWf(v, key, body, clock + 1);
    WithBodyYounger(v, key, body, clock);
  }

  lemma PoolIsWf<C>(views: map<C, State>, clock: nat)
    requires Pool(views, clock)
    ensures forall c :: c in views ==> Wf(views[c])
  {
    forall c | c in views
      ensures Wf(views[c])
    {
      InPool(views, clock, c);
    }
  }

  lemma UnderAfter(before: map<Cache, State>, after: map<Cache, State>, total: int, max: int)
    requires EvictedAcross(before, after, total, max)
    requires forall c :: c in before ==> Wf(before[c]) && UnderCeilings(before[c], c.cfg)
    requires forall c :: c in after ==> Wf(after[c])
    ensures forall c :: c in after ==> UnderCeilings(after[c], c.cfg)
  {
    hide Wf, UnderCeilings;
    var cuts :| Eviction(before, after, cuts, total, max);
    forall c | c in after
      ensures UnderCeilings(after[c], c.cfg)
    {
      assert CutAt(before[c], after[c], cuts);
      TrimmedUnder(before[c], after[c], c.cfg);
    }
  }

  // `x` came to the front, and the rest stayed as it was.
  ghost predicate FrontKey<K(!new)>(now: seq<K>, was: seq<K>, x: K) {
    && now != [] && now[0] == x && x !in now[1..]
    && forall y :: y in now[1..] <==> y in was && y != x
  }

  ghost predicate FrontRef(now: seq<BodyRef>, was: seq<BodyRef>, r: BodyRef) {
    && now != [] && now[0] == r && (forall s :: s in now[1..] <==> s in was && s.key != r.key)
  }

  lemma RecentIsFront<K(!new)>(x: K, was: seq<K>)
    ensures FrontKey(Recent(x, was), was, x)
  {
    ExceptKeeps(was, {x});
    assert Recent(x, was)[1..] == Except(was, {x});
  }

  lemma RecentRefIsFront(key: BodyKey, was: seq<BodyRef>, seqno: nat)
    ensures FrontRef(RecentRef(key, was, seqno), was, BodyRef(key, seqno))
  {
    ExceptKeeps(was, RefOf(was, key));
    assert RecentRef(key, was, seqno)[1..] == Except(was, RefOf(was, key));
  }

  lemma ReadMoves(v: State, w: State, key: BodyKey, seqno: nat)
    requires Wf(v) && key in v.data && w == WithBody(WithCollection(v, key.collection), key, v.data[key], seqno)
    ensures w.data == v.data && w.collections == v.collections && w.thumbs == v.thumbs
    ensures FrontRef(w.bodies, v.bodies, BodyRef(key, seqno)) && FrontKey(w.order, v.order, key.collection)
  {
    hide RecentRef, Recent, FrontRef, FrontKey;
    RecentRefIsFront(key, v.bodies, seqno);
    RecentIsFront(key.collection, v.order);
  }

  lemma ThumbMoves(v: State, w: State, k: ThumbKey, t: Thumb, seqno: nat)
    requires k in v.thumbs && v.thumbs[k] == t && w == WithThumb(v, k, t.media, t.data, seqno)
    ensures w.data == v.data && w.collections == v.collections
    ensures w.thumbs == v.thumbs[k := t.(seqno := seqno)] && FrontKey(w.thumbOrder, v.thumbOrder, k)
  {
    hide Recent, FrontKey;
    RecentIsFront(k, v.thumbOrder);
  }

  lemma DroppedIs(v: State, w: State, c: CollectionKey)
    requires Dropped(v, w, c)
    ensures w.collections == v.collections - {c} && w.thumbs == v.thumbs
    ensures (forall k :: k in w.data <==> k in v.data && k.collection != c) && forall k :: k in w.data ==> w.data[k] == v.data[k]
  {
  }

  // There is room for `put` in place of `was`, in the session and in the process.
  ghost predicate Roomy(put: State, was: State, cfg: Config, total: int, max: nat) {
    UnderCeilings(put, cfg) && (max == 0 || total + Bytes(put) - Bytes(was) <= max)
  }

  // What is held of one key, in bytes or in entries.
  function HeldBytes(v: State, key: BodyKey): nat {
    if key in v.data then |v.data[key]| else 0
  }

  // A body fits in without anything having to go.
  ghost predicate BodyFitsIn(v: State, key: BodyKey, body: Blob, cfg: Config, total: int, max: nat) {
    && v.bodyBytes - HeldBytes(v, key) + |body| <= cfg.maxBodyBytes
    && |v.collections.Keys + {key.collection}| <= cfg.maxCollections
    && (max == 0 || total - HeldBytes(v, key) + |body| <= max)
  }

  ghost predicate ThumbFitsIn(v: State, k: ThumbKey, bytes: Blob, cfg: Config, total: int, max: nat) {
    var was := if k in v.thumbs then |v.thumbs[k].data| else 0;
    && v.thumbBytes - was + |bytes| <= cfg.maxThumbBytes && |v.thumbs.Keys + {k}| <= cfg.maxThumbs
    && (max == 0 || total - was + |bytes| <= max)
  }

  // Tags weigh nothing with the process.
  ghost predicate EtagsFitIn(v: State, c: CollectionKey, etags: map<string, string>, cfg: Config) {
    && v.etagCount - (if c in v.collections then |v.collections[c].etags| else 0) + |etags| <= cfg.maxEtags
    && |v.collections.Keys + {c}| <= cfg.maxCollections
  }

  lemma BodyRoom(v: State, put: State, key: BodyKey, body: Blob, seqno: nat, cfg: Config, total: int, max: nat)
    requires put == WithBody(WithCollection(v, key.collection), key, body, seqno) && UnderCeilings(v, cfg)
    ensures BodyFitsIn(v, key, body, cfg, total, max) ==> Roomy(put, v, cfg, total, max)
  {
    assert put.collections.Keys == v.collections.Keys + {key.collection};
  }

  lemma ThumbRoom(v: State, put: State, k: ThumbKey, media: string, bytes: Blob, seqno: nat, cfg: Config, total: int, max: nat)
    requires put == WithThumb(v, k, media, bytes, seqno) && UnderCeilings(v, cfg)
    ensures ThumbFitsIn(v, k, bytes, cfg, total, max) ==> Roomy(put, v, cfg, total, max)
  {
    assert put.thumbs.Keys == v.thumbs.Keys + {k};
  }

  lemma EtagsRoom(v: State, put: State, c: CollectionKey, ctag: string, etags: map<string, string>, now: int, cfg: Config, total: int, max: nat)
    requires put == WithEtags(v, c, ctag, etags, now) && UnderCeilings(v, cfg) && (max == 0 || total <= max)
    ensures EtagsFitIn(v, c, etags, cfg) ==> Roomy(put, v, cfg, total, max)
  {
    assert put.collections.Keys == v.collections.Keys + {c};
  }

  lemma BodyPut(v: State, put: State, w: State, key: BodyKey, body: Blob, seqno: nat)
    requires put == WithBody(WithCollection(v, key.collection), key, body, seqno) && Within(put, w) && Wf(w)
    ensures key in w.data ==> w.data[key] == body && BodyRef(key, seqno) in w.bodies
    ensures forall k :: k in w.data && k != key ==> k in v.data && w.data[k] == v.data[k]
    ensures forall c :: c in w.collections ==>
              if c in v.collections then w.collections[c] == v.collections[c] else c == key.collection && w.collections[c].etags == map[]
    ensures Submap(w.thumbs, v.thumbs)
    ensures w == put ==> w.data == v.data[key := body] && w.thumbs == v.thumbs && key.collection in w.collections
                         && w.collections - {key.collection} == v.collections - {key.collection}
  {
    NewRefHeld(v.bodies, w, key, seqno);
    WithBodyIs(v, key, body, seqno);
    hide RecentRef, Recent, Wf, WithBody, WithCollection;
    DataPut(v.data, put.data, w.data, key, body);
    CollectionPut(v.collections, put.collections, w.collections, key.collection);
  }

  lemma WithBodyIs(v: State, key: BodyKey, body: Blob, seqno: nat)
    ensures var put := WithBody(WithCollection(v, key.collection), key, body, seqno);
            && put.data == v.data[key := body] && put.bodies == RecentRef(key, v.bodies, seqno) && put.thumbs == v.thumbs
            && put.collections == if key.collection in v.collections then v.collections else v.collections[key.collection := NewCollection]
  {
    hide RecentRef, Recent;
  }

  lemma DataPut(was: map<BodyKey, Blob>, put: map<BodyKey, Blob>, now: map<BodyKey, Blob>, key: BodyKey, body: Blob)
    requires put == was[key := body] && Submap(now, put)
    ensures key in now ==> now[key] == body
    ensures forall k :: k in now && k != key ==> k in was && now[k] == was[k]
  {
  }

  lemma CollectionPut(was: map<CollectionKey, Collection>, put: map<CollectionKey, Collection>, now: map<CollectionKey, Collection>, c: CollectionKey)
    requires put == (if c in was then was else was[c := NewCollection]) && Submap(now, put)
    ensures forall x :: x in now ==> if x in was then now[x] == was[x] else x == c && now[x].etags == map[]
    ensures now == put ==> c in now && now - {c} == was - {c}
  {
  }

  lemma NewRefHeld(bodies: seq<BodyRef>, w: State, key: BodyKey, seqno: nat)
    requires Wf(w) && forall r :: r in w.bodies ==> r in RecentRef(key, bodies, seqno)
    ensures key in w.data ==> BodyRef(key, seqno) in w.bodies
  {
    if key in w.data {
      assert key in Keys(w.bodies);
      var i :| 0 <= i < |w.bodies| && Keys(w.bodies)[i] == key;
      hide Wf, RecentRef, Keys;
      OnlyNewRef(bodies, key, seqno, w.bodies[i]);
    }
  }

  lemma OnlyNewRef(bodies: seq<BodyRef>, key: BodyKey, seqno: nat, r: BodyRef)
    requires r in RecentRef(key, bodies, seqno) && r.key == key
    ensures r == BodyRef(key, seqno)
  {
    ExceptKeeps(bodies, RefOf(bodies, key));
  }

  lemma ThumbPut(v: State, put: State, w: State, k: ThumbKey, media: string, bytes: Blob, seqno: nat)
    requires put == WithThumb(v, k, media, bytes, seqno) && Within(put, w)
    ensures k in w.thumbs ==> w.thumbs[k] == Thumb(media, bytes, seqno)
    ensures forall x :: x in w.thumbs && x != k ==> x in v.thumbs && w.thumbs[x] == v.thumbs[x]
    ensures Submap(w.data, v.data) && Submap(w.collections, v.collections)
    ensures w == put ==> w.thumbs == v.thumbs[k := Thumb(media, bytes, seqno)] && w.data == v.data && w.collections == v.collections
  {
  }

  lemma EtagsPut(v: State, put: State, w: State, c: CollectionKey, ctag: string, etags: map<string, string>, now: int)
    requires put == WithEtags(v, c, ctag, etags, now) && Within(put, w)
    ensures c in w.collections ==> w.collections[c] == Collection(ctag, now, etags)
    ensures forall x :: x in w.collections && x != c ==> x in v.collections && w.collections[x] == v.collections[x]
    ensures Submap(w.data, v.data) && Submap(w.thumbs, v.thumbs)
    ensures w == put ==> w.collections == v.collections[c := Collection(ctag, now, etags)] && w.data == v.data && w.thumbs == v.thumbs
  {
  }

  lemma SettledWithin(before: map<Cache, State>, c: Cache, put: State, b: Budget)
    requires SettledAs(before, c, put, b)
    ensures c in b.views && Within(put, b.views[c])
  {
    var kept :| Evicted(put, kept, c.cfg) && EvictedAcross(before[c := kept], b.views, b.total, b.max);
    EvictedWithin(put, kept, c.cfg);
    AcrossWithin(before[c := kept], b.views, b.total, b.max, c);
    hide Evicted, EvictedAcross, Wf;
    WithinTwice(put, kept, b.views[c]);
  }

  lemma AcrossWithin<C>(before: map<C, State>, after: map<C, State>, total: int, max: int, c: C)
    requires EvictedAcross(before, after, total, max) && c in before
    ensures c in after && Within(before[c], after[c])
  {
    var cuts :| Eviction(before, after, cuts, total, max);
    assert CutAt(before[c], after[c], cuts);
    assert forall r :: r in after[c].bodies ==> r in before[c].bodies;
  }

  lemma WithinTwice(u: State, v: State, w: State)
    requires Within(u, v) && Within(v, w)
    ensures Within(u, w)
  {
  }

  // What was put is what is read, if it is still there.
  method ReadBack(c: Cache, key: BodyKey, body: Blob) returns (got: Option<Blob>)
    requires c.budget.Valid() && c in c.budget.views
    modifies c, c.budget, c.budget.views.Keys
    ensures c.budget.Valid() && (got == None || got == Some(body))
    ensures old(BodyFitsIn(c.View(), key, body, c.cfg, c.budget.total, c.budget.max)) ==> got == Some(body)
  {
    hide UnderCeilings, Pool, Accounted, SettledAs;
    c.PutBody(key, body);
    got := c.GetBody(key);
  }

  // The cache `c` stored `put`, cut it down to its own ceilings, and the process
  // ceiling was then met across all caches.
  ghost predicate SettledAs(before: map<Cache, State>, c: Cache, put: State, b: Budget)
    reads b
  {
    && Wf(put) && exists kept :: Evicted(put, kept, c.cfg) && EvictedAcross(before[c := kept], b.views, b.total, b.max)
  }

  lemma NoRef(bodies: seq<BodyRef>, key: BodyKey)
    requires key !in Keys(bodies)
    ensures Except(bodies, RefOf(bodies, key)) == bodies
  {
    forall r | r in bodies
      ensures r.key != key
    {
      var i :| 0 <= i < |bodies| && bodies[i] == r;
      assert Keys(bodies)[i] == r.key;
    }
    ExceptNothing(bodies, RefOf(bodies, key));
  }

  lemma KeysOnce(v: State)
    requires BodiesWf(v)
    ensures Distinct(Keys(v.bodies))
  {
  }

  lemma NewRefEver(v: State, key: BodyKey)
    requires BodiesWf(v)
    ensures key !in v.data ==> Except(v.bodies, RefOf(v.bodies, key)) == v.bodies
  {
    if key !in v.data {
      NoRef(v.bodies, key);
    }
  }

  // `left` is what the bodies weigh once those in `done` are gone.
  ghost predicate LeftOf(v: State, done: set<BodyKey>, left: int) {
    && Enumerates(Except(Keys(v.bodies), done), v.data.Keys - done)
    && left == Total(Except(Keys(v.bodies), done), BodySizes(v))
  }

  lemma LeftAtFirst(v: State)
    requires BodiesWf(v)
    ensures LeftOf(v, {}, v.bodyBytes)
  {
    ExceptNothing(Keys(v.bodies), {});
    BodiesExcept(v, {});
  }

  lemma LeftStep(v: State, done: set<BodyKey>, left: int, k: BodyKey)
    requires BodiesWf(v) && LeftOf(v, done, left) && k in v.data && k !in done && done <= v.data.Keys
    ensures LeftOf(v, done + {k}, left - |v.data[k]|)
  {
    BytesWithoutOne(v, done, k);
  }

  function DropState(v: State, key: CollectionKey, left: int): State
    requires key in v.collections
  {
    v.(etagCount := v.etagCount - |v.collections[key].etags|, bodyBytes := left,
       bodies := Except(v.bodies, RefsOf(v.bodies, key)), data := v.data - KeysIn(v.data, key),
       collections := v.collections - {key}, order := Except(v.order, {key}))
  }

  lemma DropIsSound(v: State, w: State, key: CollectionKey)
    requires Wf(v) && key in v.collections && LeftOf(v, KeysIn(v.data, key), w.bodyBytes)
    requires w == DropState(v, key, w.bodyBytes)
    ensures Wf(w) && Dropped(v, w, key)
  {
    DroppedBodiesWf(v, w, key);
    DroppedCollectionsWf(v, w, key);
    ThumbsApart(v, w);
  }

  class Budget {
    const max: nat
    var clock: nat
    var total: int
    var used: map<Cache, int>
    // What every cache bound here holds.
    ghost var views: map<Cache, State>

    ghost predicate Linked(c: Cache)
      requires c in views
      reads this, c
    {
      c.budget == this && c.Shows(views[c])
    }

    // The book is right and every cache is sound; the ceilings may be crossed.
    ghost predicate Balanced()
      reads this, views.Keys
    {
      (forall c :: c in views ==> Linked(c)) && Pool(views, clock) && Accounted(views, used, total)
    }

    ghost predicate Valid()
      reads this, views.Keys
    {
      && Balanced() && (max > 0 ==> total <= max)
      && forall c :: c in views ==> UnderCeilings(views[c], c.cfg)
    }

    constructor (max: int)
      ensures Valid() && views == map[]
      ensures this.max == if max < 0 then 0 else max
    {
      this.max := if max < 0 then 0 else max;
      clock, total, used, views := 0, 0, map[], map[];
    }

    ghost method Join(c: Cache)
      requires Valid() && c !in views && c.budget == this && c.View() == EmptyState
      modifies this`views
      ensures Valid() && views == old(views)[c := EmptyState]
    {
      hide Pool, Accounted, UnderCeilings, Wf, Before;
      JoinsEmpty(views, used, total, clock, c);
      EmptyStays(EmptyState, c.cfg, clock);
      views := views[c := EmptyState];
    }

    method Tick() returns (n: nat)
      modifies this`clock
      ensures n == clock == old(clock) + 1
    {
      clock := clock + 1;
      n := clock;
    }

    method Adjust(c: Cache, n: int)
      modifies this`total, this`used
      ensures used == Adjusted(old(used), c, n) && total == old(total) + n - Listed(old(used), c)
    {
      var was := if c in used then used[c] else 0;
      total := total + (n - was);
      if n <= 0 {
        used := used - {c};
      } else {
        used := used[c := n];
      }
    }

    method PickVictim(listed: set<Cache>) returns (best: Cache?, victim: Victim)
      ensures best == null ==> forall c :: c in listed ==> Offer(c.View()) == NoVictim
      ensures best != null ==> best in listed && victim == Offer(best.View()) && victim != NoVictim
      ensures best != null ==> forall c :: c in listed ==> NotAfter(victim, Offer(c.View()))
    {
      best, victim := null, NoVictim;
      var rest := listed;
      while rest != {}
        invariant rest <= listed
        invariant best == null ==> forall c :: c in listed - rest ==> Offer(c.View()) == NoVictim
        invariant best != null ==> best in listed && victim == Offer(best.View()) && victim != NoVictim
        invariant best != null ==> forall c :: c in listed - rest ==> NotAfter(victim, Offer(c.View()))
      {
        var c :| c in rest;
        var offered := c.PeekVictim();
        rest := rest - {c};
        if offered != NoVictim && (best == null || !NotAfter(victim, offered)) {
          best, victim := c, offered;
        }
      }
    }

    // The cache `c` gives up its victim, and the book follows.
    method TakeFrom(c: Cache)
      requires Balanced() && c in views && Offer(views[c]) != NoVictim
      modifies this`total, this`used, this`views, c
      ensures Balanced() && views == old(views)[c := Without(old(views[c]))]
      ensures total == old(total - Bytes(views[c])) + Bytes(views[c])
    {
      hide Pool, Accounted, Wf, Before, Without, Offer;
      assert Linked(c);
      InPool(views, clock, c);
      WithoutAccounts(views, used, total, clock, c);
      ghost var w := Without(views[c]);
      c.DropVictim(Offer(c.View()));
      views := views[c := w];
    }

    // One round: the best victim of all listed caches goes.
    method EvictOne(ghost before: map<Cache, State>, ghost cuts: Cuts) returns (ghost cuts': Cuts)
      requires Balanced() && total > max && Eviction(before, views, cuts, total, max)
      modifies this`total, this`used, this`views, views.Keys
      ensures Balanced() && views.Keys == old(views.Keys) && Eviction(before, views, cuts', total, max)
      ensures 0 <= Entries(views) < old(Entries(views))
    {
      hide Pool, Accounted, Eviction, Without, Offer, NotAfter, Entries, CutsAfter;
      ListedHeld(views, used, total);
      SomeVictim(views, used, total, clock);
      assert forall d :: d in used ==> Linked(d);
      var best, victim := PickVictim(used.Keys);
      assert best != null;
      var c: Cache := best;
      assert BestVictim(views, used, c);
      BestEvicts(before, views, cuts, used, total, max, clock, c);
      FewerEntries(views, clock, c);
      cuts' := CutsAfter(views[c], cuts);
      TakeFrom(c);
    }

    method EvictUntilUnder()
      requires Balanced()
      modifies this`total, this`used, this`views, views.Keys
      ensures Balanced() && views.Keys == old(views.Keys) && (max > 0 ==> total <= max)
      ensures EvictedAcross(old(views), views, total, max)
    {
      hide Pool, Accounted, Eviction, Entries;
      ghost var before, cuts := views, Cuts(-1, -1);
      EvictsNothing(views, total, max);
      while max > 0 && total > max
        invariant Balanced() && views.Keys == before.Keys && Eviction(before, views, cuts, total, max)
        decreases Entries(views)
      {
        cuts := EvictOne(before, cuts);
      }
    }

    // Everything is right but for the cache `c`, which has just changed what it holds.
    ghost predicate BalancedBut(c: Cache)
      reads this, c, views.Keys
    {
      && c in views && c.budget == this && (forall d :: d in views && d != c ==> Linked(d))
      && Pool(views[c := c.View()], clock) && Accounted(views, used, total)
    }

    method Set(c: Cache, n: int)
      requires BalancedBut(c) && n == Bytes(c.View())
      modifies this`total, this`used, this`views, views.Keys
      ensures Balanced() && views.Keys == old(views.Keys) && (max > 0 ==> total <= max)
      ensures EvictedAcross(old(views[c := c.View()]), views, total, max)
      ensures max == 0 || old(total) + n - old(Listed(used, c)) <= max ==> views == old(views)[c := old(c.View())]
    {
      Publish(c, n);
      if max > 0 && total > max {
        EvictUntilUnder();
      } else {
        EvictsNothing(views, total, max);
      }
    }

    method Publish(c: Cache, n: int)
      requires BalancedBut(c) && n == Bytes(c.View())
      modifies this`total, this`used, this`views
      ensures Balanced() && views == old(views)[c := c.View()]
      ensures total == old(total) + n - old(Listed(used, c))
    {
      hide Accounted, Wf;
      InPool(views[c := c.View()], clock, c);
      OffersWhatItHolds(c.View());
      AdjustAccounts(views, used, total, c, c.View());
      hide Pool;
      Adjust(c, n);
      views := views[c := c.View()];
    }
  }
}
