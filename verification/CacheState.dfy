// What one session cache holds, as a value: the maps, the three recency lists
// over them and the counters (internal/session/cache.go, internal/session/thumb.go).
// The class that updates it in place is in SessionCache.
module CacheState {
  import opened Ordering
  import opened Recency

  type Blob = seq<bv8>

  // The limits after withDefaults.
  datatype Config = Config(maxCollections: nat, maxEtags: nat, maxBodyBytes: nat, maxThumbBytes: nat, maxThumbs: nat)

  datatype CollectionKey = CollectionKey(account: string, path: string)
  datatype BodyKey = BodyKey(collection: CollectionKey, path: string)
  datatype ThumbKey = ThumbKey(account: string, path: string, etag: string)

  datatype Collection = Collection(ctag: string, fetchedAt: int, etags: map<string, string>)
  datatype BodyRef = BodyRef(key: BodyKey, seqno: nat)
  datatype Thumb = Thumb(media: string, data: Blob, seqno: nat)

  datatype State = State(
    collections: map<CollectionKey, Collection>, order: seq<CollectionKey>, etagCount: int,
    data: map<BodyKey, Blob>, bodies: seq<BodyRef>, bodyBytes: int,
    thumbs: map<ThumbKey, Thumb>, thumbOrder: seq<ThumbKey>, thumbBytes: int)

  const EmptyState := State(map[], [], 0, map[], [], 0, map[], [], 0)

  function EtagSizes(v: State): map<CollectionKey, nat> {
    map k | k in v.collections :: |v.collections[k].etags|
  }

  function BodySizes(v: State): map<BodyKey, nat> {
    map k | k in v.data :: |v.data[k]|
  }

  function ThumbSizes(v: State): map<ThumbKey, nat> {
    map k | k in v.thumbs :: |v.thumbs[k].data|
  }

  function Keys(bodies: seq<BodyRef>): (keys: seq<BodyKey>)
    ensures |keys| == |bodies| && forall i :: 0 <= i < |keys| ==> keys[i] == bodies[i].key
  {
    seq(|bodies|, i requires 0 <= i < |bodies| => bodies[i].key)
  }

  ghost predicate Falling(bodies: seq<BodyRef>) {
    forall i, j :: 0 <= i < j < |bodies| ==> bodies[i].seqno > bodies[j].seqno
  }

  ghost predicate ThumbsFalling(order: seq<ThumbKey>, thumbs: map<ThumbKey, Thumb>)
    requires forall k :: k in order ==> k in thumbs
  {
    forall i, j :: 0 <= i < j < |order| ==> thumbs[order[i]].seqno > thumbs[order[j]].seqno
  }

  // The invariant: each list enumerates its map without repetition, sequence
  // numbers fall along it, and each counter is the true sum.
  ghost predicate CollectionsWf(v: State) {
    Enumerates(v.order, v.collections.Keys) && v.etagCount == Total(v.order, EtagSizes(v))
  }

  ghost predicate BodiesWf(v: State) {
    && Enumerates(Keys(v.bodies), v.data.Keys) && Falling(v.bodies)
    && v.bodyBytes == Total(Keys(v.bodies), BodySizes(v))
    && forall k :: k in v.data ==> k.collection in v.collections
  }

  ghost predicate ThumbsWf(v: State) {
    && Enumerates(v.thumbOrder, v.thumbs.Keys) && ThumbsFalling(v.thumbOrder, v.thumbs)
    && v.thumbBytes == Total(v.thumbOrder, ThumbSizes(v))
  }

  ghost predicate Wf(v: State) {
    CollectionsWf(v) && BodiesWf(v) && ThumbsWf(v)
  }

  // Every sequence number handed out so far is at most the clock.
  ghost predicate Before(v: State, clock: nat) {
    && (forall r :: r in v.bodies ==> r.seqno <= clock)
    && (forall k :: k in v.thumbs ==> v.thumbs[k].seqno <= clock)
  }

  ghost predicate UnderCeilings(v: State, cfg: Config) {
    && v.bodyBytes <= cfg.maxBodyBytes && v.thumbBytes <= cfg.maxThumbBytes && |v.thumbs| <= cfg.maxThumbs
    && |v.collections| <= cfg.maxCollections && v.etagCount <= cfg.maxEtags
  }

  function Bytes(v: State): int {
    v.bodyBytes + v.thumbBytes
  }

  /* ---- Dropping the oldest body or thumbnail ---- */

  function WithoutLastBody(v: State): State
    requires v.bodies != [] && v.bodies[|v.bodies| - 1].key in v.data
  {
    var n := |v.bodies| - 1;
    var k := v.bodies[n].key;
    v.(bodies := v.bodies[..n], data := v.data - {k}, bodyBytes := v.bodyBytes - |v.data[k]|)
  }

  function WithoutLastThumb(v: State): State
    requires v.thumbOrder != [] && v.thumbOrder[|v.thumbOrder| - 1] in v.thumbs
  {
    var n := |v.thumbOrder| - 1;
    var k := v.thumbOrder[n];
    v.(thumbOrder := v.thumbOrder[..n], thumbs := v.thumbs - {k}, thumbBytes := v.thumbBytes - |v.thumbs[k].data|)
  }

  lemma LastBodyHeld(v: State)
    requires BodiesWf(v) && v.bodies != []
    ensures v.bodies[|v.bodies| - 1].key in v.data
  {
    LastEnumerates(Keys(v.bodies), v.data.Keys);
  }

  lemma WithoutLastBodyWf(v: State)
    requires BodiesWf(v) && v.bodies != []
    ensures v.bodies[|v.bodies| - 1].key in v.data && BodiesWf(WithoutLastBody(v))
  {
    LastBodyHeld(v);
    var keys, w := Keys(v.bodies), WithoutLastBody(v);
    LastEnumerates(keys, v.data.Keys);
    assert Keys(w.bodies) == keys[..|keys| - 1];
    TotalLast(keys, BodySizes(v));
    TotalSame(Keys(w.bodies), BodySizes(v), BodySizes(w));
  }

  lemma WithoutLastThumbWf(v: State)
    requires ThumbsWf(v) && v.thumbOrder != []
    ensures v.thumbOrder[|v.thumbOrder| - 1] in v.thumbs && ThumbsWf(WithoutLastThumb(v))
  {
    LastEnumerates(v.thumbOrder, v.thumbs.Keys);
    var w := WithoutLastThumb(v);
    TotalLast(v.thumbOrder, ThumbSizes(v));
    TotalSame(w.thumbOrder, ThumbSizes(v), ThumbSizes(w));
  }

  lemma WithoutLastBodyKeeps(w: State)
    requires Wf(w) && w.bodies != []
    ensures w.bodies[|w.bodies| - 1].key in w.data && Wf(WithoutLastBody(w))
  {
    WithoutLastBodyWf(w);
    CollectionsApart(w, WithoutLastBody(w));
    ThumbsApart(w, WithoutLastBody(w));
  }

  lemma WithoutLastThumbKeeps(w: State)
    requires Wf(w) && w.thumbOrder != []
    ensures w.thumbOrder[|w.thumbOrder| - 1] in w.thumbs && Wf(WithoutLastThumb(w))
  {
    WithoutLastThumbWf(w);
    CollectionsApart(w, WithoutLastThumb(w));
    BodiesApart(w, WithoutLastThumb(w));
  }

  /* ---- Dropping a collection ---- */

  function RefsOf(bodies: seq<BodyRef>, key: CollectionKey): set<BodyRef> {
    set r | r in bodies && r.key.collection == key
  }

  function KeysIn(data: map<BodyKey, Blob>, key: CollectionKey): set<BodyKey> {
    set k | k in data && k.collection == key
  }

  lemma {:induction false} KeysOfExcept(bodies: seq<BodyRef>, refs: set<BodyRef>, keys: set<BodyKey>)
    requires forall r :: r in bodies ==> (r in refs <==> r.key in keys)
    ensures Keys(Except(bodies, refs)) == Except(Keys(bodies), keys)
  {
    if bodies != [] {
      var init, last := bodies[..|bodies| - 1], bodies[|bodies| - 1];
      KeysOfExcept(init, refs, keys);
      assert Keys(bodies) == Keys(init) + [last.key];
      assert bodies == init + [last];
      ExceptSnoc(init, last, refs);
      ExceptSnoc(Keys(init), last.key, keys);
    }
  }

  lemma {:induction false} ExceptFalling(bodies: seq<BodyRef>, gone: set<BodyRef>)
    requires Falling(bodies)
    ensures Falling(Except(bodies, gone))
  {
    if bodies != [] {
      var init, last := bodies[..|bodies| - 1], bodies[|bodies| - 1];
      ExceptFalling(init, gone);
      ExceptKeeps(init, gone);
      var kept := Except(init, gone);
      forall i | 0 <= i < |kept|
        ensures kept[i].seqno > last.seqno
      {
        assert kept[i] in kept;
        var j :| 0 <= j < |init| && init[j] == kept[i];
        assert bodies[j] == kept[i];
      }
    }
  }

  // What is left when a collection goes: its map entry, and the bodies in it.
  ghost predicate Dropped(v: State, w: State, key: CollectionKey) {
    && w.collections == v.collections - {key} && w.order == Except(v.order, {key})
    && w.bodies == Except(v.bodies, RefsOf(v.bodies, key)) && w.data == v.data - KeysIn(v.data, key)
    && w.thumbs == v.thumbs && w.thumbOrder == v.thumbOrder && w.thumbBytes == v.thumbBytes
  }

  // Removing bodies one at a time keeps the rest of the reference list sound.
  lemma BodiesExcept(v: State, done: set<BodyKey>)
    requires BodiesWf(v) && done <= v.data.Keys
    ensures Enumerates(Except(Keys(v.bodies), done), v.data.Keys - done)
  {
    ExceptEnumerates(Keys(v.bodies), v.data.Keys, done);
  }

  lemma BytesWithoutOne(v: State, done: set<BodyKey>, k: BodyKey)
    requires BodiesWf(v) && done <= v.data.Keys && k in v.data && k !in done
    ensures Enumerates(Except(Keys(v.bodies), done), v.data.Keys - done)
    ensures Enumerates(Except(Keys(v.bodies), done + {k}), v.data.Keys - (done + {k}))
    ensures Total(Except(Keys(v.bodies), done), BodySizes(v)) ==
            Total(Except(Keys(v.bodies), done + {k}), BodySizes(v)) + |v.data[k]|
  {
    BodiesExcept(v, done);
    BodiesExcept(v, done + {k});
    ExceptTwice(Keys(v.bodies), done, {k});
    TotalExceptOne(Except(Keys(v.bodies), done), BodySizes(v), k);
  }

  lemma RefsHeld(bodies: seq<BodyRef>, held: set<BodyKey>)
    requires Enumerates(Keys(bodies), held)
    ensures forall r :: r in bodies ==> r.key in held
  {
    forall r | r in bodies
      ensures r.key in held
    {
      var j :| 0 <= j < |bodies| && bodies[j] == r;
      assert Keys(bodies)[j] in Keys(bodies);
    }
  }

  lemma DroppedKeys(v: State, key: CollectionKey)
    requires Enumerates(Keys(v.bodies), v.data.Keys)
    ensures Keys(Except(v.bodies, RefsOf(v.bodies, key))) == Except(Keys(v.bodies), KeysIn(v.data, key))
  {
    RefsHeld(v.bodies, v.data.Keys);
    KeysOfExcept(v.bodies, RefsOf(v.bodies, key), KeysIn(v.data, key));
  }

  lemma DroppedRest(v: State, w: State, key: CollectionKey)
    requires w.data == v.data - KeysIn(v.data, key) && w.collections == v.collections - {key}
    requires forall k :: k in v.data ==> k.collection in v.collections
    ensures w.data.Keys == v.data.Keys - KeysIn(v.data, key)
    ensures forall k :: k in w.data ==> k.collection in w.collections && k in v.data && w.data[k] == v.data[k]
  {
  }

  lemma DroppedBodiesWf(v: State, w: State, key: CollectionKey)
    requires BodiesWf(v) && Dropped(v, w, key)
    requires Enumerates(Except(Keys(v.bodies), KeysIn(v.data, key)), v.data.Keys - KeysIn(v.data, key))
    requires w.bodyBytes == Total(Except(Keys(v.bodies), KeysIn(v.data, key)), BodySizes(v))
    ensures BodiesWf(w)
  {
    DroppedKeys(v, key);
    DroppedRest(v, w, key);
    ExceptFalling(v.bodies, RefsOf(v.bodies, key));
    TotalSame(Keys(w.bodies), BodySizes(v), BodySizes(w));
  }

  lemma DroppedCollectionsWf(v: State, w: State, key: CollectionKey)
    requires CollectionsWf(v) && Dropped(v, w, key) && key in v.collections
    requires w.etagCount == v.etagCount - |v.collections[key].etags|
    ensures CollectionsWf(w)
  {
    ExceptEnumerates(v.order, v.collections.Keys, {key});
    TotalExceptOne(v.order, EtagSizes(v), key);
    TotalSame(w.order, EtagSizes(v), EtagSizes(w));
  }

  lemma MinusAbsent<K(!new), V>(m: map<K, V>, gone: set<K>)
    requires gone !! m.Keys
    ensures m - gone == m
  {
  }

  // A collection that is not held has nothing to drop.
  lemma AbsentDropped(v: State, key: CollectionKey)
    requires CollectionsWf(v) && BodiesWf(v) && key !in v.collections
    ensures Dropped(v, v, key)
  {
    ExceptNothing(v.order, {key});
    RefsHeld(v.bodies, v.data.Keys);
    assert RefsOf(v.bodies, key) == {};
    ExceptNothing(v.bodies, {});
    MinusAbsent(v.collections, {key});
    assert KeysIn(v.data, key) == {};
    MinusAbsent(v.data, {});
  }

  /* ---- Storing and touching ---- */

  // A key moved, or brought, to the front of a list.
  function Recent<K(==)>(k: K, keys: seq<K>): seq<K> {
    [k] + Except(keys, {k})
  }

  function RefOf(bodies: seq<BodyRef>, key: BodyKey): set<BodyRef> {
    set r | r in bodies && r.key == key
  }

  function RecentRef(key: BodyKey, bodies: seq<BodyRef>, seqno: nat): seq<BodyRef> {
    [BodyRef(key, seqno)] + Except(bodies, RefOf(bodies, key))
  }

  lemma RecentEnumerates<K(!new)>(k: K, keys: seq<K>, held: set<K>)
    requires Enumerates(keys, held)
    ensures Enumerates(Recent(k, keys), held + {k})
  {
    ExceptEnumerates(keys, held, {k});
    ConsEnumerates(k, Except(keys, {k}), held - {k});
    assert held - {k} + {k} == held + {k};
  }

  lemma RecentTotal<K(!new)>(k: K, keys: seq<K>, size: map<K, nat>, size': map<K, nat>)
    requires Enumerates(keys, size.Keys) && k in size' && size' == size[k := size'[k]]
    ensures Enumerates(Recent(k, keys), size'.Keys)
    ensures Total(Recent(k, keys), size') == Total(keys, size) - (if k in size then size[k] else 0) + size'[k]
  {
    RecentEnumerates(k, keys, size.Keys);
    ExceptEnumerates(keys, size.Keys, {k});
    TotalCons(k, Except(keys, {k}), size');
    if k in size {
      TotalExceptOne(keys, size, k);
    } else {
      ExceptNothing(keys, {k});
    }
    TotalSame(Except(keys, {k}), size, size');
  }

  lemma RecentRefKeys(key: BodyKey, bodies: seq<BodyRef>, seqno: nat)
    ensures Keys(RecentRef(key, bodies, seqno)) == Recent(key, Keys(bodies))
  {
    KeysOfExcept(bodies, RefOf(bodies, key), {key});
  }

  lemma RecentRefFalling(key: BodyKey, bodies: seq<BodyRef>, seqno: nat)
    requires Falling(bodies) && forall r :: r in bodies ==> r.seqno < seqno
    ensures Falling(RecentRef(key, bodies, seqno))
  {
    var rest := Except(bodies, RefOf(bodies, key));
    ExceptFalling(bodies, RefOf(bodies, key));
    ExceptKeeps(bodies, RefOf(bodies, key));
    forall i | 0 <= i < |rest|
      ensures rest[i].seqno < seqno
    {
      assert rest[i] in rest;
    }
  }

  const NewCollection := Collection("", 0, map[])

  function WithCollection(v: State, c: CollectionKey): State {
    v.(collections := if c in v.collections then v.collections else v.collections[c := NewCollection],
       order := Recent(c, v.order))
  }

  function WithBody(v: State, key: BodyKey, body: Blob, seqno: nat): State {
    v.(data := v.data[key := body], bodies := RecentRef(key, v.bodies, seqno),
       bodyBytes := v.bodyBytes - (if key in v.data then |v.data[key]| else 0) + |body|)
  }

  function WithEtags(v: State, c: CollectionKey, ctag: string, etags: map<string, string>, now: int): State {
    v.(collections := v.collections[c := Collection(ctag, now, etags)], order := Recent(c, v.order),
       etagCount := v.etagCount - (if c in v.collections then |v.collections[c].etags| else 0) + |etags|)
  }

  function WithThumb(v: State, k: ThumbKey, media: string, data: Blob, seqno: nat): State {
    v.(thumbs := v.thumbs[k := Thumb(media, data, seqno)], thumbOrder := Recent(k, v.thumbOrder),
       thumbBytes := v.thumbBytes - (if k in v.thumbs then |v.thumbs[k].data| else 0) + |data|)
  }

  lemma WithCollectionWf(v: State, c: CollectionKey)
    requires Wf(v)
    ensures Wf(WithCollection(v, c))
  {
    var w := WithCollection(v, c);
    EtagSizesUpdate(v, w, c);
    RecentTotal(c, v.order, EtagSizes(v), EtagSizes(w));
    BodiesApart(v, w);
    ThumbsApart(v, w);
  }

  lemma EtagSizesUpdate(v: State, w: State, c: CollectionKey)
    requires c in w.collections && w.collections == v.collections[c := w.collections[c]]
    ensures EtagSizes(w) == EtagSizes(v)[c := |w.collections[c].etags|]
    ensures EtagSizes(v).Keys == v.collections.Keys && EtagSizes(w).Keys == w.collections.Keys
  {
  }

  lemma WithBodyWf(v: State, key: BodyKey, body: Blob, seqno: nat)
    requires Wf(v) && key.collection in v.collections && forall r :: r in v.bodies ==> r.seqno < seqno
    ensures Wf(WithBody(v, key, body, seqno))
  {
    WithBodyBodies(v, key, body, seqno);
    CollectionsApart(v, WithBody(v, key, body, seqno));
    ThumbsApart(v, WithBody(v, key, body, seqno));
    hide CollectionsWf, BodiesWf, ThumbsWf, WithBody;
  }

  lemma WithBodyBodies(v: State, key: BodyKey, body: Blob, seqno: nat)
    requires BodiesWf(v) && key.collection in v.collections && forall r :: r in v.bodies ==> r.seqno < seqno
    ensures BodiesWf(WithBody(v, key, body, seqno))
  {
    hide Enumerates, Total, RecentRef, Falling, Keys, BodySizes;
    var w := WithBody(v, key, body, seqno);
    RecentRefKeys(key, v.bodies, seqno);
    BodySizesUpdate(v, w, key);
    BodySizeOf(v, key);
    RecentTotal(key, Keys(v.bodies), BodySizes(v), BodySizes(w));
    RecentRefFalling(key, v.bodies, seqno);
  }

  lemma BodySizeOf(v: State, key: BodyKey)
    ensures key in BodySizes(v) <==> key in v.data
    ensures key in v.data ==> BodySizes(v)[key] == |v.data[key]|
  {
  }

  lemma BodySizesUpdate(v: State, w: State, k: BodyKey)
    requires k in w.data && w.data == v.data[k := w.data[k]]
    ensures BodySizes(w) == BodySizes(v)[k := |w.data[k]|]
    ensures BodySizes(v).Keys == v.data.Keys && BodySizes(w).Keys == w.data.Keys
  {
  }

  lemma ThumbSizesUpdate(v: State, w: State, k: ThumbKey)
    requires k in w.thumbs && w.thumbs == v.thumbs[k := w.thumbs[k]]
    ensures ThumbSizes(w) == ThumbSizes(v)[k := |w.thumbs[k].data|]
    ensures ThumbSizes(v).Keys == v.thumbs.Keys && ThumbSizes(w).Keys == w.thumbs.Keys
  {
  }

  // The three parts of the invariant do not see each other's fields.
  lemma CollectionsApart(v: State, w: State)
    requires CollectionsWf(v) && w.collections == v.collections && w.order == v.order && w.etagCount == v.etagCount
    ensures CollectionsWf(w)
  {
    assert EtagSizes(w) == EtagSizes(v);
  }

  lemma BodiesApart(v: State, w: State)
    requires BodiesWf(v) && w.data == v.data && w.bodies == v.bodies && w.bodyBytes == v.bodyBytes
    requires v.collections.Keys <= w.collections.Keys
    ensures BodiesWf(w)
  {
    assert BodySizes(w) == BodySizes(v);
  }

  lemma ThumbsApart(v: State, w: State)
    requires ThumbsWf(v) && w.thumbs == v.thumbs && w.thumbOrder == v.thumbOrder && w.thumbBytes == v.thumbBytes
    ensures ThumbsWf(w)
  {
    assert ThumbSizes(w) == ThumbSizes(v);
  }

  lemma WithEtagsWf(v: State, c: CollectionKey, ctag: string, etags: map<string, string>, now: int)
    requires Wf(v)
    ensures Wf(WithEtags(v, c, ctag, etags, now))
  {
    var w := WithEtags(v, c, ctag, etags, now);
    EtagSizesUpdate(v, w, c);
    RecentTotal(c, v.order, EtagSizes(v), EtagSizes(w));
    BodiesApart(v, w);
    ThumbsApart(v, w);
  }

  lemma WithThumbWf(v: State, k: ThumbKey, media: string, data: Blob, seqno: nat)
    requires Wf(v) && forall x :: x in v.thumbs ==> v.thumbs[x].seqno < seqno
    ensures Wf(WithThumb(v, k, media, data, seqno))
  {
    WithThumbThumbs(v, k, media, data, seqno);
    CollectionsApart(v, WithThumb(v, k, media, data, seqno));
    BodiesApart(v, WithThumb(v, k, media, data, seqno));
    hide CollectionsWf, BodiesWf, ThumbsWf, WithThumb;
  }

  lemma WithThumbThumbs(v: State, k: ThumbKey, media: string, data: Blob, seqno: nat)
    requires ThumbsWf(v) && forall x :: x in v.thumbs ==> v.thumbs[x].seqno < seqno
    ensures ThumbsWf(WithThumb(v, k, media, data, seqno))
  {
    hide Total, ThumbsFalling;
    var w := WithThumb(v, k, media, data, seqno);
    ThumbSizesUpdate(v, w, k);
    RecentTotal(k, v.thumbOrder, ThumbSizes(v), ThumbSizes(w));
    RecentThumbsFalling(v, w, k, seqno);
  }

  lemma RecentThumbsFalling(v: State, w: State, k: ThumbKey, seqno: nat)
    requires Enumerates(v.thumbOrder, v.thumbs.Keys) && ThumbsFalling(v.thumbOrder, v.thumbs)
    requires forall x :: x in v.thumbs ==> v.thumbs[x].seqno < seqno
    requires w.thumbOrder == Recent(k, v.thumbOrder) && k in w.thumbs && w.thumbs[k].seqno == seqno
    requires w.thumbs.Keys == v.thumbs.Keys + {k} && forall x :: x in v.thumbs && x != k ==> w.thumbs[x] == v.thumbs[x]
    requires forall x :: x in w.thumbOrder ==> x in w.thumbs
    ensures ThumbsFalling(w.thumbOrder, w.thumbs)
  {
    var rest := Except(v.thumbOrder, {k});
    ExceptKeeps(v.thumbOrder, {k});
    ExceptThumbsFalling(v.thumbOrder, v.thumbs, {k});
    forall i | 0 <= i < |rest|
      ensures rest[i] in v.thumbs && rest[i] != k && w.thumbs[rest[i]] == v.thumbs[rest[i]]
    {
      assert rest[i] in rest;
    }
    ConsFalling(k, rest, v.thumbs, w.thumbs);
  }

  lemma ConsFalling(k: ThumbKey, rest: seq<ThumbKey>, v: map<ThumbKey, Thumb>, w: map<ThumbKey, Thumb>)
    requires (forall x :: x in rest ==> x in v) && ThumbsFalling(rest, v)
    requires k in w && forall i :: 0 <= i < |rest| ==> rest[i] in w && w[rest[i]] == v[rest[i]] && v[rest[i]].seqno < w[k].seqno
    ensures forall x :: x in [k] + rest ==> x in w
    ensures ThumbsFalling([k] + rest, w)
  {
    var all := [k] + rest;
    forall i, j | 0 <= i < j < |all|
      ensures w[all[i]].seqno > w[all[j]].seqno
    {
      assert all[j] == rest[j - 1];
      if i > 0 {
        assert all[i] == rest[i - 1];
      }
    }
  }

  lemma {:induction false} ExceptThumbsFalling(order: seq<ThumbKey>, thumbs: map<ThumbKey, Thumb>, gone: set<ThumbKey>)
    requires (forall k :: k in order ==> k in thumbs) && ThumbsFalling(order, thumbs)
    ensures forall k :: k in Except(order, gone) ==> k in thumbs
    ensures ThumbsFalling(Except(order, gone), thumbs)
  {
    ExceptKeeps(order, gone);
    if order != [] {
      var init, last := order[..|order| - 1], order[|order| - 1];
      ExceptThumbsFalling(init, thumbs, gone);
      ExceptKeeps(init, gone);
      var kept := Except(init, gone);
      forall i | 0 <= i < |kept|
        ensures thumbs[kept[i]].seqno > thumbs[last].seqno
      {
        assert kept[i] in kept;
        var j :| 0 <= j < |init| && init[j] == kept[i];
        assert order[j] == kept[i];
      }
    }
  }

  // Moving the place `i` to the front, as the slices are shifted in place.
  lemma FrontIsRecent<K(!new)>(keys: seq<K>, i: nat)
    requires Distinct(keys) && i < |keys|
    ensures Front(keys, i, keys[i]) == Recent(keys[i], keys)
  {
    CutIsExcept(keys, i);
    assert Front(keys, i, keys[i]) == [keys[i]] + Cut(keys, i);
  }

  lemma OneRef(bodies: seq<BodyRef>, i: nat)
    requires Distinct(Keys(bodies)) && i < |bodies|
    ensures RefOf(bodies, bodies[i].key) == {bodies[i]}
  {
    var keys := Keys(bodies);
    assert forall j :: 0 <= j < |bodies| ==> keys[j] == bodies[j].key;
  }

  lemma RefsDistinct(bodies: seq<BodyRef>)
    requires Distinct(Keys(bodies))
    ensures Distinct(bodies)
  {
    forall i, j | 0 <= i < j < |bodies|
      ensures bodies[i] != bodies[j]
    {
      assert Keys(bodies)[i] != Keys(bodies)[j];
    }
  }

  lemma CutRef(bodies: seq<BodyRef>, i: nat)
    requires Distinct(Keys(bodies)) && i < |bodies|
    ensures Cut(bodies, i) == Except(bodies, RefOf(bodies, bodies[i].key))
  {
    OneRef(bodies, i);
    RefsDistinct(bodies);
    CutIsExcept(bodies, i);
  }

  lemma FrontIsRecentRef(bodies: seq<BodyRef>, i: nat, seqno: nat)
    requires Distinct(Keys(bodies)) && i < |bodies|
    ensures Front(bodies, i, BodyRef(bodies[i].key, seqno)) == RecentRef(bodies[i].key, bodies, seqno)
  {
    CutRef(bodies, i);
    assert Front(bodies, i, BodyRef(bodies[i].key, seqno)) == [BodyRef(bodies[i].key, seqno)] + Cut(bodies, i);
  }

  // A collection seen for the first time joins at the old end, and is then touched.
  function Ensured(v: State, c: CollectionKey): State {
    if c in v.collections then v
    else v.(collections := v.collections[c := NewCollection], order := v.order + [c])
  }

  lemma RecentOfNew<K(!new)>(k: K, keys: seq<K>)
    requires Distinct(keys) && k !in keys
    ensures Distinct(keys + [k]) && k in keys + [k] && Recent(k, keys + [k]) == Recent(k, keys)
  {
    ExceptSnoc(keys, k, {k});
    assert Except(keys, {k}) + [] == Except(keys, {k});
  }

  lemma EnsuredThenTouched(v: State, c: CollectionKey)
    requires CollectionsWf(v)
    ensures Distinct(Ensured(v, c).order) && c in Ensured(v, c).order
    ensures Recent(c, Ensured(v, c).order) == Recent(c, v.order)
  {
    if c !in v.collections {
      RecentOfNew(c, v.order);
    }
  }
}
