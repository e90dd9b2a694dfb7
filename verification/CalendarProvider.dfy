// Reading and writing calendar objects through a cache, beside any number of other
// clients (internal/provider/calendar/provider.go, internal/provider/calendar/write.go).
module CalendarProvider {
  import opened Patches
  import opened Versions

  datatype Status = Stored | PreconditionFailed | Failed

  // One resource in the answer to a multiget; a missing body is an error status.
  datatype Response = Response(path: Path, tag: Option<Tag>, body: Option<Body>)

  // The server, and everyone else who writes to it. Other clients act before each
  // request is served; they run the same code, so what they leave is legal.
  class Server {
    var history: History

    constructor ()
      ensures Legal(history) && history == map[]
    {
      history := map[];
    }

    method Elapse()
      requires Legal(history)
      modifies this
      ensures Legal(history) && Later(old(history), history)
    {
      var h: History := *;
      if Later(history, h) && Legal(h) {
        history := h;
      }
    }

    // A request, or the answer to it, may be lost; an answer may lack the tag. `seen` is what
    // was there when the request was judged: the precondition decides, and on a failed one
    // this request stores nothing.
    method Put(path: Path, payload: Payload, ifMatch: Option<Tag>, ifNoneMatch: bool, origin: Origin, ghost base: Payload)
      returns (status: Status, tag: Option<Tag>, ghost seen: History)
      requires Legal(history)
      requires origin.Edited? ==> ifMatch.Some? && Read(ChainOf(history, path), ifMatch.value, base)
                                  && DiffersOnlyIn(base, payload, origin.names)
      modifies this
      ensures Legal(history) && Later(old(history), seen) && Later(seen, history)
      ensures status == PreconditionFailed ==> !Allowed(Current(ChainOf(seen, path)), ifMatch, ifNoneMatch) && history == seen
      ensures status == Stored ==> Allowed(Current(ChainOf(seen, path)), ifMatch, ifNoneMatch) && exists t: Tag ::
                history == Appended(seen, path, Version(t, Good(payload), origin)) && (tag == None || tag == Some(t))
      ensures status == Failed ==> history == seen || (Allowed(Current(ChainOf(seen, path)), ifMatch, ifNoneMatch) && exists t: Tag ::
                history == Appended(seen, path, Version(t, Good(payload), origin)))
      ensures status != Stored ==> tag == None
    {
      Elapse();
      seen := history;
      var arrived: bool, answered: bool := *, *;
      if !arrived {
        return Failed, None, seen;
      }
      LaterChain(old(history), history, path);
      var chain := ChainOf(history, path);
      if origin.Edited? {
        ReadStays(ChainOf(old(history), path), chain, ifMatch.value, base);
      }
      var now := Current(chain);
      if (ifMatch.Some? && !(now.Version? && now.tag == ifMatch.value)) || (ifNoneMatch && now.Version?) {
        return if answered then PreconditionFailed else Failed, None, seen;
      }
      FreshTag(chain);
      var t :| TagUnused(chain, t);
      ghost var e := Version(t, Good(payload), origin);
      if origin.Edited? {
        ReadHere(history, path, ifMatch.value, base);
      }
      AppendIsLegal(history, path, e);
      AppendIsLater(history, path, e);
      history := Appended(history, path, Version(t, Good(payload), origin));
      var tagged: bool := *;
      if !answered {
        return Failed, None, seen;
      }
      return Stored, if tagged then Some(t) else None, seen;
    }

    method Delete(path: Path, ifMatch: Tag) returns (status: Status, ghost seen: History)
      requires Legal(history)
      modifies this
      ensures Legal(history) && Later(old(history), seen) && Later(seen, history)
      ensures status == PreconditionFailed ==> !HasTag(Current(ChainOf(seen, path)), ifMatch) && history == seen
      ensures status == Stored ==> HasTag(Current(ChainOf(seen, path)), ifMatch) && history == Appended(seen, path, Deleted)
      ensures status == Failed ==> history == seen
                                   || (HasTag(Current(ChainOf(seen, path)), ifMatch) && history == Appended(seen, path, Deleted))
    {
      Elapse();
      seen := history;
      var arrived: bool, answered: bool := *, *;
      if !arrived {
        return Failed, seen;
      }
      var now := Current(ChainOf(history, path));
      if !(now.Version? && now.tag == ifMatch) {
        return if answered then PreconditionFailed else Failed, seen;
      }
      AppendIsLegal(history, path, Deleted);
      AppendIsLater(history, path, Deleted);
      history := Appended(history, path, Deleted);
      return if answered then Stored else Failed, seen;
    }

    // One request: each body comes with the tag of the same version.
    method Report(paths: seq<Path>) returns (ok: bool, responses: seq<Response>)
      requires Legal(history)
      modifies this
      ensures Legal(history) && Later(old(history), history)
      ensures ok ==> |responses| == |paths| && forall i :: 0 <= i < |paths| ==> responses[i] == Answer(history, paths[i])
    {
      Elapse();
      ok := *;
      responses := [];
      if ok {
        for i := 0 to |paths|
          invariant |responses| == i && forall j :: 0 <= j < i ==> responses[j] == Answer(history, paths[j])
        {
          responses := responses + [Answer(history, paths[i])];
        }
      }
    }

    // Two requests: what is read second may be newer than what is read first.
    method PropFindTag(path: Path) returns (ok: bool, tag: Option<Tag>)
      requires Legal(history)
      modifies this
      ensures Legal(history) && Later(old(history), history)
      ensures ok && tag.Some? ==> HasTag(Current(ChainOf(history, path)), tag.value)
    {
      Elapse();
      ok := *;
      var now, tagged: bool := Current(ChainOf(history, path)), *;
      tag := if tagged && now.Version? then Some(now.tag) else None;
    }

    method Get(path: Path) returns (ok: bool, body: Option<Body>)
      requires Legal(history)
      modifies this
      ensures Legal(history) && Later(old(history), history)
      ensures var now := Current(ChainOf(history, path)); body == if ok && now.Version? then Some(now.body) else None
    {
      Elapse();
      ok := *;
      var now := Current(ChainOf(history, path));
      body := if ok && now.Version? then Some(now.body) else None;
    }
  }

  function Answer(h: History, path: Path): Response {
    var now := Current(ChainOf(h, path));
    if now.Version? then Response(path, Some(now.tag), Some(now.body)) else Response(path, None, None)
  }

  // What the preconditions ask for: the version of that tag, or that there is none.
  predicate Allowed(now: Entry, ifMatch: Option<Tag>, ifNoneMatch: bool) {
    && (ifMatch.Some? ==> HasTag(now, ifMatch.value))
    && (ifNoneMatch ==> now == Deleted)
  }

  lemma ReadHere(h: History, path: Path, tag: Tag, base: Payload)
    requires Legal(h) && Read(ChainOf(h, path), tag, base)
    requires Current(ChainOf(h, path)).Version? && Current(ChainOf(h, path)).tag == tag
    ensures Current(ChainOf(h, path)).body == Good(base)
  {
    assert ChainOk(ChainOf(h, path));
    ReadWhileCurrent(ChainOf(h, path), tag, base);
  }

  /* ---- Objects as a client holds them ---- */

  datatype Held = Held(path: Path, etag: Option<Tag>, payload: Payload)

  // The payload is that of the version the tag names, or of a later one.
  ghost predicate Backed(o: Held, h: History) {
    o.etag.Some? ==> Read(ChainOf(h, o.path), o.etag.value, o.payload)
  }

  lemma BackedStays(o: Held, h: History, h': History)
    requires Backed(o, h) && Later(h, h')
    ensures Backed(o, h')
  {
    LaterChain(h, h', o.path);
    if o.etag.Some? {
      ReadStays(ChainOf(h, o.path), ChainOf(h', o.path), o.etag.value, o.payload);
    }
  }

  // The payload is that of the very version its tag names.
  ghost predicate Own(o: Held, h: History) {
    o.etag.Some? ==> StoredUnder(ChainOf(h, o.path), o.etag.value, o.payload)
  }

  // What may be said of an object that was read: it is its tag's version, unless tag and
  // body were read apart and somebody wrote in between. Then it is a later version.
  ghost predicate Known(o: Held, h: History, torn: set<(Path, Tag)>) {
    && Backed(o, h)
    && (o.etag.Some? && (o.path, o.etag.value) !in torn ==> Own(o, h))
  }

  lemma KnownStays(o: Held, h: History, h': History, torn: set<(Path, Tag)>, torn': set<(Path, Tag)>)
    requires Known(o, h, torn) && Later(h, h') && torn <= torn'
    ensures Known(o, h', torn')
  {
    BackedStays(o, h, h');
    LaterChain(h, h', o.path);
    hide Read, StoredUnder;
    if o.etag.Some? && (o.path, o.etag.value) !in torn' {
      StoredStays(ChainOf(h, o.path), ChainOf(h', o.path), o.etag.value, o.payload);
    }
  }

  // What an uncached read of one path gives.
  function One(h: History, path: Path): Option<Held> {
    match Current(ChainOf(h, path))
    case Version(tag, Good(payload), _) => Some(Held(path, Some(tag), payload))
    case _ => None
  }

  function Objects(h: History, paths: seq<Path>): seq<Held> {
    if paths == [] then []
    else
      var last := paths[|paths| - 1];
      Objects(h, paths[..|paths| - 1]) + if last == "" || One(h, last) == None then [] else [One(h, last).value]
  }

  lemma OneIsKnown(h: History, path: Path, torn: set<(Path, Tag)>)
    ensures One(h, path).Some? ==> Known(One(h, path).value, h, torn) && Own(One(h, path).value, h) && One(h, path).value.path == path
    ensures One(h, path).Some? ==> var o := One(h, path).value; HasTag(Current(ChainOf(h, path)), o.etag.value)
  {
    var chain := ChainOf(h, path);
    if One(h, path).Some? {
      assert StoredAt(chain, Current(chain).tag, Current(chain).body.payload, |chain| - 1);
      assert ReadAt(chain, Current(chain).tag, Current(chain).body.payload, |chain| - 1, |chain| - 1);
    }
  }

  // The patch was carried out: each property is what the last operation on it leaves.
  ghost predicate Patched(p: Payload, ops: Patch, q: Payload) {
    if ops == [] then q == p
    else PropsOf(p).Some? && PropsOf(q).Some? && Reached(p, PropsOf(p).value, ops, PropsOf(q).value)
  }

  // An edit between reading and writing back.
  method Edit(o: Held, ops: Patch) returns (edited: Held, err: Error)
    ensures edited.path == o.path && edited.etag == o.etag
    ensures err != NoError ==> edited == o
    ensures err == NoError <==> ops == [] || (AllChecked(ops) && PropsOf(o.payload).Some?)
    ensures err == NoError ==> Patched(o.payload, ops, edited.payload)
    ensures DiffersOnlyIn(o.payload, edited.payload, Touched(ops))
  {
    var copy := new Object(o.payload);
    err := copy.Apply(ops);
    edited := o.(payload := copy.payload);
    SameElsewhere(o.payload, edited.payload, Touched(ops));
    if err == NoError && ops != [] {
      forall c: string | c !in Touched(ops)
        ensures Lookup(o.payload, c) == Lookup(edited.payload, c)
      {
        NotTouched(ops, c);
        UnnamedStays(o.payload, ops, c, Lookup(o.payload, c));
        assert Patches.Get(PropsOf(edited.payload).value, c) == Outcome(o.payload, ops, c, Patches.Get(PropsOf(o.payload).value, c));
      }
    }
  }

  // The properties a patch names.
  function Touched(ops: Patch): set<string> {
    set i | 0 <= i < |ops| && CanonicalName(ops[i].name).Some? :: CanonicalName(ops[i].name).value
  }

  lemma NotTouched(ops: Patch, c: string)
    requires c !in Touched(ops)
    ensures !Names(ops, c)
  {
    hide CanonicalName;
    forall i | 0 <= i < |ops|
      ensures !IsNamed(ops[i], c)
    {
      assert CanonicalName(ops[i].name).Some? ==> CanonicalName(ops[i].name).value in Touched(ops);
    }
  }

  datatype WriteResult = WriteResult(stored: Held, etag: Option<Tag>, verified: bool)

  datatype WriteOutcome =
    | Refused
    | Wrote(result: WriteResult)
    | Conflict(path: Path, local: Option<Held>, remote: Option<Held>)
    | Removed
    | WriteFailed

  // Its body is in the cache, under its path and tag.
  predicate CachedIn(o: Held, bodies: map<(Path, Tag), Payload>) {
    o.etag.Some? ==> (o.path, o.etag.value) in bodies && bodies[(o.path, o.etag.value)] == o.payload
  }

  ghost predicate AllCached(objects: seq<Held>, bodies: map<(Path, Tag), Payload>, h: History) {
    forall o :: o in objects ==> CachedIn(o, bodies) && One(h, o.path) == Some(o)
  }

  // Nothing was put under any other path.
  ghost predicate OnlyAbout(paths: seq<Path>, bodies: map<(Path, Tag), Payload>, was: map<(Path, Tag), Payload>) {
    forall k :: k in bodies ==> k.0 in paths || (k in was && bodies[k] == was[k])
  }

  lemma CachedNext(objects: seq<Held>, bodies: map<(Path, Tag), Payload>, h: History, o: Held)
    requires AllCached(objects, bodies, h) && One(h, o.path) == Some(o) && o.etag.Some?
    ensures AllCached(objects + [o], bodies[(o.path, o.etag.value) := o.payload], h)
  {
    hide One;
  }

  lemma AboutNext(paths: seq<Path>, bodies: map<(Path, Tag), Payload>, was: map<(Path, Tag), Payload>, path: Path, tag: Option<Tag>,
                  payload: Payload)
    requires OnlyAbout(paths, bodies, was) && path in paths
    ensures tag.Some? ==> OnlyAbout(paths, bodies[(path, tag.value) := payload], was)
  {
  }

  // None of these is in the cache under its tag.
  ghost predicate Uncached(wanted: seq<Path>, etags: map<Path, Tag>, bodies: map<(Path, Tag), Payload>) {
    forall p :: p in wanted && p in etags ==> (p, etags[p]) !in bodies
  }

  lemma UncachedNext(wanted: seq<Path>, etags: map<Path, Tag>, was: map<(Path, Tag), Payload>, bodies: map<(Path, Tag), Payload>, path: Path)
    requires Uncached(wanted, etags, was) && bodies.Keys <= was.Keys
    ensures Uncached(wanted, etags, bodies)
    ensures (path in etags ==> (path, etags[path]) !in bodies) ==> Uncached(wanted + [path], etags, bodies)
  {
  }

  // Objects of one kind can be compared.
  predicate SameKind(p: Payload, q: Payload) {
    (p.VCard? <==> q.VCard?) && (p.ICal? <==> q.ICal?)
  }

  // The body cache of one collection: a map from a path and a tag, of which any part
  // may have been evicted since. `torn` holds the pairs whose tag and body were ever read
  // apart with a different body stored in between.
  class Provider {
    const server: Server
    const verify: bool
    const batchSize: nat
    var bodies: map<(Path, Tag), Payload>
    ghost var torn: set<(Path, Tag)>

    constructor (server: Server, verify: bool, batchSize: nat)
      requires Legal(server.history) && batchSize > 0
      ensures Valid() && this.server == server && this.verify == verify && this.batchSize == batchSize
      ensures bodies == map[] && torn == {}
    {
      this.server, this.verify, this.batchSize := server, verify, batchSize;
      bodies, torn := map[], {};
    }

    ghost predicate Valid()
      reads this, server
    {
      && batchSize > 0 && Legal(server.history)
      && Sound(server.history)
    }

    ghost predicate Sound(h: History)
      reads this
    {
      forall k :: k in bodies ==> Known(Held(k.0, Some(k.1), bodies[k]), h, torn)
    }

    // After requests: the cache is as sound as it was.
    lemma CacheStays(h: History)
      requires Later(h, server.history) && Sound(h)
      ensures Sound(server.history)
    {
      hide Known, Later;
      forall k | k in bodies
        ensures Known(Held(k.0, Some(k.1), bodies[k]), server.history, torn)
      {
        KnownStays(Held(k.0, Some(k.1), bodies[k]), h, server.history, torn, torn);
      }
    }

    // What is in the cache, less whatever has been evicted.
    method CachedBody(path: Path, etag: Option<Tag>) returns (body: Option<Payload>)
      requires Valid()
      modifies this`bodies
      ensures Valid() && (body.Some? ==> etag.Some? && Known(Held(path, etag, body.value), server.history, torn))
      ensures bodies.Keys <= old(bodies).Keys && forall k :: k in bodies ==> bodies[k] == old(bodies)[k]
      ensures body == if etag.Some? && (path, etag.value) in bodies then Some(bodies[(path, etag.value)]) else None
    {
      var gone: set<(Path, Tag)> := *;
      bodies := bodies - gone;
      body := if etag.Some? && (path, etag.value) in bodies then Some(bodies[(path, etag.value)]) else None;
    }

    method PutCachedBody(path: Path, etag: Option<Tag>, body: Payload)
      requires Valid() && Known(Held(path, etag, body), server.history, torn)
      modifies this`bodies
      ensures Valid() && bodies == if etag.Some? then old(bodies)[(path, etag.value) := body] else old(bodies)
    {
      if etag.Some? {
        bodies := bodies[(path, etag.value) := body];
      }
    }

    method MultigetBatch(paths: seq<Path>) returns (ok: bool, objects: seq<Held>, failed: seq<Path>)
      requires Valid()
      modifies this`bodies, server
      ensures Valid() && Later(old(server.history), server.history)
      ensures ok ==> objects == Found(server.history, paths) && failed == Missing(server.history, paths)
      ensures ok ==> AllCached(objects, bodies, server.history)
      ensures OnlyAbout(paths, bodies, old(bodies))
    {
      var responses;
      ok, responses := server.Report(paths);
      CacheStays(old(server.history));
      objects, failed := [], [];
      if !ok {
        return;
      }
      ghost var h := server.history;
      for i := 0 to |responses|
        invariant Valid() && server.history == h && objects == Found(h, paths[..i]) && failed == Missing(h, paths[..i])
        invariant AllCached(objects, bodies, h) && OnlyAbout(paths, bodies, old(bodies))
      {
        hide Known, AllCached, OnlyAbout;
        assert paths[..i + 1][..i] == paths[..i];
        var r := responses[i];
        OneIsKnown(server.history, paths[i], torn);
        match r.body
        case Some(Good(payload)) =>
          CachedNext(objects, bodies, h, Held(r.path, r.tag, payload));
          AboutNext(paths, bodies, old(bodies), r.path, r.tag, payload);
          PutCachedBody(r.path, r.tag, payload);
          objects := objects + [Held(r.path, r.tag, payload)];
        case _ =>
          failed := failed + [r.path];
      }
      assert paths[..|responses|] == paths;
    }

    // The first pass: what the cache has, and what must be asked for.
    method TakeCached(paths: seq<Path>, etags: map<Path, Tag>) returns (found: map<Path, Held>, wanted: seq<Path>)
      requires Valid()
      modifies this`bodies
      ensures Valid() && SoundFound(server.history, torn, found)
      ensures TagsCurrent(server.history, paths, etags) ==> Taken(server.history, paths, found, wanted)
      ensures forall p :: p in wanted ==> p in paths && p != ""
      ensures Uncached(wanted, etags, bodies)
      ensures forall p :: p in paths && p != "" ==> p in found || p in wanted
    {
      found, wanted := map[], [];
      assert paths[..0] == [];
      hide Known, One, Taken, TagsCurrent, Legal, Current, ChainOf, Uncached;
      for i := 0 to |paths|
        invariant Valid() && SoundFound(server.history, torn, found)
        invariant TagsCurrent(server.history, paths, etags) ==> Taken(server.history, paths[..i], found, wanted)
        invariant forall p :: p in wanted ==> p in paths && p != ""
        invariant Uncached(wanted, etags, bodies)
        invariant forall p :: p in paths[..i] && p != "" ==> p in found || p in wanted
      {
        var path := paths[i];
        assert paths[..i + 1] == paths[..i] + [path];
        if path == "" {
          if TagsCurrent(server.history, paths, etags) {
            TakenNext(server.history, paths[..i], path, found, wanted);
          }
          continue;
        }
        found, wanted := TakeOne(path, etags, found, wanted, paths, paths[..i]);
      }
      assert paths[..|paths|] == paths;
    }

    method TakeOne(path: Path, etags: map<Path, Tag>, was: map<Path, Held>, wanted0: seq<Path>, ghost paths: seq<Path>, ghost before: seq<Path>)
      returns (found: map<Path, Held>, wanted: seq<Path>)
      requires Valid() && path in paths && path != ""
      requires SoundFound(server.history, torn, was) && Uncached(wanted0, etags, bodies)
      requires TagsCurrent(server.history, paths, etags) ==> Taken(server.history, before, was, wanted0)
      modifies this`bodies
      ensures Valid() && SoundFound(server.history, torn, found) && Uncached(wanted, etags, bodies)
      ensures TagsCurrent(server.history, paths, etags) ==> Taken(server.history, before + [path], found, wanted)
      ensures (found.Keys == was.Keys + {path} && wanted == wanted0) || (found == was && wanted == wanted0 + [path])
    {
      hide Known, One, Taken, TagsCurrent, Legal, Current, ChainOf, Uncached;
      if TagsCurrent(server.history, paths, etags) {
        TakenNext(server.history, before, path, was, wanted0);
      }
      var etag := if path in etags then Some(etags[path]) else None;
      ghost var cached := bodies;
      var body := CachedBody(path, etag);
      UncachedNext(wanted0, etags, cached, bodies, path);
      found, wanted := was, wanted0;
      if body.Some? {
        var o := Held(path, etag, body.value);
        CachedIsCurrent(server.history, o, torn, paths, etags);
        found := found[path := o];
      } else {
        wanted := wanted + [path];
      }
    }

    method FetchBatch(wanted: seq<Path>, was: map<Path, Held>)
      returns (ok: bool, found: map<Path, Held>, failed: seq<Path>)
      requires Valid() && SoundFound(server.history, torn, was) && "" !in wanted
      modifies this`bodies, server
      ensures Valid() && Later(old(server.history), server.history)
      ensures ok ==> SoundFound(server.history, torn, found) && was.Keys <= found.Keys
      ensures ok ==> failed == Missing(server.history, wanted) && forall p :: p in wanted ==> p in found || p in failed
      ensures ok ==> Covers(server.history, found, wanted)
      ensures ok && server.history == old(server.history) && ExactFound(server.history, was) ==> ExactFound(server.history, found)
    {
      ghost var h0 := server.history;
      var objects;
      ok, objects, failed := MultigetBatch(wanted);
      found := was;
      if !ok {
        return;
      }
      hide ExactFound, Known;
      SoundStays(h0, server.history, torn, was);
      MissingAre(server.history, wanted);
      found := AddFound(server.history, torn, wanted, objects, was);
    }

    static method AddFound(ghost h: History, ghost torn: set<(Path, Tag)>, ghost wanted: seq<Path>, objects: seq<Held>,
                           was: map<Path, Held>)
      returns (found: map<Path, Held>)
      requires objects == Found(h, wanted) && SoundFound(h, torn, was) && "" !in wanted
      ensures SoundFound(h, torn, found) && was.Keys <= found.Keys && Covers(h, found, wanted)
      ensures ExactFound(h, was) ==> ExactFound(h, found)
    {
      FoundAreKnown(h, wanted, torn);
      hide Known, One, Found;
      found := was;
      for i := 0 to |objects|
        invariant SoundFound(h, torn, found) && was.Keys <= found.Keys
        invariant forall j :: 0 <= j < i ==> objects[j].path in found
        invariant ExactFound(h, was) ==> ExactFound(h, found)
      {
        assert objects[i] in objects;
        found := found[objects[i].path := objects[i]];
      }
      forall p | p in wanted && One(h, p).Some?
        ensures p in found
      {
        OneIsKnown(h, p, torn);
        var j :| 0 <= j < |objects| && objects[j] == One(h, p).value;
      }
    }

    // The request may go out in batches; cached bodies save part of it. Each path ends up
    // among the objects or among the failures.
    method Multiget(paths: seq<Path>, etags: map<Path, Tag>) returns (ok: bool, objects: seq<Held>, failed: seq<Path>)
      requires Valid()
      modifies this`bodies, server
      ensures Valid() && Later(old(server.history), server.history)
      ensures ok ==> forall o :: o in objects ==> Known(o, server.history, torn) && o.path in paths
      ensures ok && torn == {} ==> forall o :: o in objects ==> Own(o, server.history)
      ensures ok ==> forall p :: p in failed ==> p in paths && p != ""
      ensures ok ==> forall p :: p in paths && p != "" ==> p in failed || exists o :: o in objects && o.path == p
      ensures ok && server.history == old(server.history) && TagsCurrent(server.history, paths, etags) ==>
                objects == Objects(server.history, paths) && failed == Missing(server.history, NonBlank(paths))
    {
      hide Known, One, SoundFound, ExactFound, Legal, Sound;
      ghost var h0 := server.history;
      var found, wanted := TakeCached(paths, etags);
      ok, found, failed := FetchAll(wanted, found);
      if !ok {
        return false, [], [];
      }
      objects := Gather(server.history, torn, paths, found);
      OwnWhenWhole(server.history, torn, objects);
      if server.history == h0 && TagsCurrent(h0, paths, etags) {
        CoversAll(h0, found, paths, wanted);
      }
    }

    method FetchAll(wanted: seq<Path>, was: map<Path, Held>)
      returns (ok: bool, found: map<Path, Held>, failed: seq<Path>)
      requires Valid() && SoundFound(server.history, torn, was) && "" !in wanted
      modifies this`bodies, server
      ensures Valid() && Later(old(server.history), server.history)
      ensures ok ==> SoundFound(server.history, torn, found) && was.Keys <= found.Keys
      ensures ok ==> forall p :: p in failed ==> p in wanted
      ensures ok ==> forall p :: p in wanted ==> p in found || p in failed
      ensures ok && server.history == old(server.history) ==>
                && failed == Missing(server.history, wanted) && Covers(server.history, found, wanted)
                && (ExactFound(server.history, was) ==> ExactFound(server.history, found))
    {
      ghost var h0 := server.history;
      found, failed, ok := was, [], true;
      assert wanted[..0] == [] && Missing(h0, []) == [] && Covers(h0, was, []);
      hide Known, One, Found, SoundFound, ExactFound, Covers, Missing, Legal, Sound, ChainOf;
      var start := 0;
      while start < |wanted|
        invariant 0 <= start <= |wanted| && ok && Valid() && Later(h0, server.history)
        invariant SoundFound(server.history, torn, found) && was.Keys <= found.Keys
        invariant forall p :: p in wanted[..start] ==> p in found || p in failed
        invariant forall p :: p in failed ==> p in wanted
        invariant server.history == h0 ==>
                    && failed == Missing(h0, wanted[..start]) && Covers(h0, found, wanted[..start])
                    && (ExactFound(h0, was) ==> ExactFound(h0, found))
      {
        var end := if start + batchSize > |wanted| then |wanted| else start + batchSize;
        ghost var h := server.history;
        var batch, lost := wanted[start..end], [];
        assert wanted[..end] == wanted[..start] + batch;
        assert forall p :: p in batch ==> p in wanted;
        ghost var before := found;
        ok, found, lost := FetchBatch(batch, found);
        LaterTwice(h0, h, server.history);
        if !ok {
          return;
        }
        MissingAre(server.history, batch);
        if server.history == h0 {
          NothingBetweenIs(h0, h, server.history);
          MissingJoin(h0, wanted[..start], batch);
          CoversBoth(h0, before, found, wanted[..start], batch);
        }
        failed := failed + lost;
        start := end;
      }
      assert wanted[..|wanted|] == wanted;
    }

    static method Gather(ghost h: History, ghost torn: set<(Path, Tag)>, paths: seq<Path>, found: map<Path, Held>)
      returns (objects: seq<Held>)
      requires SoundFound(h, torn, found)
      ensures forall o :: o in objects ==> Known(o, h, torn) && o.path in paths
      ensures forall p :: p in paths && p in found ==> exists o :: o in objects && o.path == p
      ensures ExactFound(h, found) && Covers(h, found, paths) ==> objects == Objects(h, paths)
    {
      hide Known, One;
      objects := [];
      for i := 0 to |paths|
        invariant forall o :: o in objects ==> Known(o, h, torn) && o.path in paths
        invariant forall p :: p in paths[..i] && p in found ==> found[p] in objects
        invariant ExactFound(h, found) && Covers(h, found, paths) ==> objects == Objects(h, paths[..i])
      {
        assert paths[..i + 1][..i] == paths[..i];
        if paths[i] in found {
          objects := objects + [found[paths[i]]];
        }
      }
      assert paths[..|paths|] == paths;
      forall p | p in paths && p in found
        ensures exists o :: o in objects && o.path == p
      {
        assert found[p] in objects;
      }
    }

    // The tag is read first, the body second: between them someone else may write. The
    // object is its tag's version exactly when the body did not change in between.
    // `tagged` is the history when the tag was read, `answered` whether both were answered.
    method GetDirect(path: Path) returns (o: Option<Held>, ghost answered: bool, ghost tagged: History)
      requires Valid()
      modifies this`bodies, this`torn, server
      ensures Valid() && Later(old(server.history), tagged) && Later(tagged, server.history)
      ensures var now := Current(ChainOf(server.history, path));
              o.Some? <==> answered && now.Version? && now.body.Good?
      ensures o.Some? ==> o.value.path == path && Known(o.value, server.history, torn)
      ensures o.Some? && o.value.etag.Some? ==>
                HasTag(Current(ChainOf(tagged, path)), o.value.etag.value)
      ensures o.Some? ==> Current(ChainOf(server.history, path)).body == Good(o.value.payload)
      ensures o.Some? && o.value.etag.Some? ==>
                (Own(o.value, server.history)
                 <==> Current(ChainOf(server.history, path)).body == Current(ChainOf(tagged, path)).body)
      ensures torn == old(torn) + TornBy(o, server.history)
      ensures bodies == if o.Some? && o.value.etag.Some? then old(bodies)[(path, o.value.etag.value) := o.value.payload] else old(bodies)
    {
      hide Known, Legal, Read, StoredUnder;
      ghost var h0 := server.history;
      var ok, tag := server.PropFindTag(path);
      CacheStays(h0);
      tagged := server.history;
      if !ok {
        return None, false, tagged;
      }
      var body;
      ok, body := server.Get(path);
      answered := ok;
      CacheStays(tagged);
      match body {
        case Some(Good(payload)) =>
          o := Some(Held(path, tag, payload));
          TagThenBody(tagged, server.history, path, tag, payload);
          if tag.Some? {
            TagAndBodyAgreeExactly(tagged, server.history, path, payload);
          }
          TearStays(torn + TornBy(o, server.history));
          torn := torn + TornBy(o, server.history);
          KnownOnce(o.value, server.history, torn);
          PutCachedBody(path, tag, payload);
        case _ =>
          o := None;
      }
    }

    // More pairs in `torn` promise less.
    lemma TearStays(more: set<(Path, Tag)>)
      requires Valid() && torn <= more
      ensures forall k :: k in bodies ==> Known(Held(k.0, Some(k.1), bodies[k]), server.history, more)
    {
      hide Known;
      forall k | k in bodies
        ensures Known(Held(k.0, Some(k.1), bodies[k]), server.history, more)
      {
        KnownStays(Held(k.0, Some(k.1), bodies[k]), server.history, server.history, torn, more);
      }
    }

    method Get(path: Path) returns (o: Option<Held>)
      requires Valid()
      modifies this`bodies, this`torn, server
      ensures Valid() && Later(old(server.history), server.history)
      ensures o.Some? ==> o.value.path == path && Known(o.value, server.history, torn)
      ensures o.Some? ==> NamedSince(ChainOf(server.history, path), |ChainOf(old(server.history), path)|, o.value.etag)
      ensures torn == old(torn) || torn == old(torn) + TornBy(o, server.history)
      ensures o.Some? ==> CachedIn(o.value, bodies)
      ensures OnlyAbout([path], bodies, old(bodies))
    {
      if path == "" {
        return None;
      }
      hide Known, Legal, Sound;
      ghost var h0 := server.history;
      var ok, objects, failed := MultigetBatch([path]);
      ghost var h := server.history;
      LaterChain(h0, h, path);
      if ok {
        FoundAreKnown(h, [path], torn);
        if |objects| > 0 {
          assert objects[0] in objects;
          assert NamedAt(ChainOf(h, path), |ChainOf(h, path)| - 1, |ChainOf(h0, path)|, objects[0].etag);
          return Some(objects[0]);
        }
        if path in failed {
          return None;
        }
      }
      ghost var answered, tagged;
      o, answered, tagged := GetDirect(path);
      LaterTwice(h, tagged, server.history);
      LaterTwice(h0, h, server.history);
      LaterChain(h, tagged, path);
      LaterChain(tagged, server.history, path);
      if o.Some? {
        var at := if o.value.etag.Some? then |ChainOf(tagged, path)| - 1 else 0;
        assert NamedAt(ChainOf(server.history, path), at, |ChainOf(h0, path)|, o.value.etag);
      }
    }

    method Invalidate()
      requires Valid()
      modifies this`bodies
      ensures Valid() && bodies == map[]
    {
      bodies := map[];
    }

    method ConflictAt(path: Path, local: Option<Held>) returns (r: WriteOutcome)
      requires Valid()
      modifies this`bodies, this`torn, server
      ensures Valid() && Later(old(server.history), server.history) && old(torn) <= torn
      ensures r.Conflict? && r.path == path && r.local == local
      ensures r.remote.Some? ==> r.remote.value.path == path && Known(r.remote.value, server.history, torn)
      ensures r.remote.Some? ==> NamedSince(ChainOf(server.history, path), |ChainOf(old(server.history), path)|, r.remote.value.etag)
      ensures forall k :: k in bodies ==> k.0 == path
    {
      hide Known, Sound;
      Invalidate();
      var remote := Get(path);
      r := Conflict(path, local, remote);
    }

    // put: a write under a precondition, and what the client then knows. Which of the three
    // outcomes it is follows from the answer alone. A conflict is read again after `seen`,
    // where the precondition did not hold; an unverified result is what was sent, unless the
    // server gave something of another kind.
    method Write(path: Path, o: Held, ifMatch: Option<Tag>, ifNoneMatch: bool, origin: Origin, ghost base: Payload)
      returns (r: WriteOutcome, ghost status: Status, ghost seen: History)
      requires Valid()
      requires origin.Edited? ==> ifMatch.Some? && Read(ChainOf(server.history, path), ifMatch.value, base)
                                  && DiffersOnlyIn(base, o.payload, origin.names)
      modifies this`bodies, this`torn, server
      ensures Valid() && Later(old(server.history), seen) && Later(seen, server.history) && old(torn) <= torn
      ensures (r.Conflict? <==> status == PreconditionFailed) && (r.Wrote? <==> status == Stored) && (r.WriteFailed? <==> status == Failed)
      ensures !r.WriteFailed? ==> (r.Wrote? <==> Allowed(Current(ChainOf(seen, path)), ifMatch, ifNoneMatch))
      ensures r.Wrote? ==> Known(r.result.stored, server.history, torn) && r.result.stored.path == path
      ensures r.Wrote? ==> Accepted(ChainOf(server.history, path), o.payload, origin, ifMatch, ifNoneMatch, r.result.etag)
      ensures r.Wrote? && r.result.stored.etag.Some? ==> r.result.etag == r.result.stored.etag
      ensures r.Wrote? && r.result.verified ==> verify && SameKind(o.payload, r.result.stored.payload)
      ensures r.Wrote? && !r.result.verified && SameKind(o.payload, r.result.stored.payload) ==>
                r.result.stored == o.(path := path, etag := r.result.etag)
      ensures r.Conflict? ==> r.path == path && r.local == Some(o.(path := path))
      ensures r.Conflict? ==> RemoteSince(r.remote, path, seen, server.history, torn)
      ensures if r.WriteFailed? then bodies == old(bodies) else forall k :: k in bodies ==> k.0 == path
    {
      hide Legal, Read, DiffersOnlyIn, Known, StoredUnder, SameKind, Sound, Later, Accepted, NamedSince, Allowed;
      ghost var h0 := server.history;
      var sent := o.(path := path);
      var answer, tag;
      answer, tag, seen := server.Put(path, o.payload, ifMatch, ifNoneMatch, origin, base);
      status := answer;
      LaterTwice(h0, seen, server.history);
      CacheStays(h0);
      ghost var h := server.history;
      if answer == PreconditionFailed {
        r := ConflictAt(path, Some(sent));
        return;
      }
      if answer == Failed {
        return WriteFailed, status, seen;
      }
      AcceptedNow(seen, h, path, o.payload, origin, ifMatch, ifNoneMatch, tag);
      var fallback := sent.(etag := tag);
      SentIsKnown(seen, h, path, o.payload, origin, fallback, torn);
      Invalidate();
      if !verify {
        LaterItself(h);
        NamedNow(h, h, path, o.payload, origin, ifMatch, ifNoneMatch, tag, tag);
        return Wrote(WriteResult(fallback, tag, false)), status, seen;
      }
      ghost var torn0 := torn;
      var stored := Get(path);
      LaterTwice(seen, h, server.history);
      KnownStays(fallback, h, server.history, torn0, torn);
      var etag := if stored.Some? && stored.value.etag.Some? then stored.value.etag else tag;
      NamedNow(h, server.history, path, o.payload, origin, ifMatch, ifNoneMatch, tag, etag);
      if stored == None {
        return Wrote(WriteResult(fallback, tag, false)), status, seen;
      }
      return Wrote(WriteResult(stored.value, etag, SameKind(o.payload, stored.value.payload))), status, seen;
    }

    method Create(o: Held, uid: string, defaultPath: Path) returns (r: WriteOutcome, ghost status: Option<Status>, ghost seen: History)
      requires Valid()
      modifies this`bodies, this`torn, server
      ensures Valid() && Later(old(server.history), seen) && Later(seen, server.history) && old(torn) <= torn
      ensures (r == Refused <==> uid == "") && (r == Refused <==> status == None)
      ensures status == None ==> server.history == old(server.history) && bodies == old(bodies)
      ensures (r.Conflict? <==> status == Some(PreconditionFailed)) && (r.Wrote? <==> status == Some(Stored))
              && (r.WriteFailed? <==> status == Some(Failed))
      ensures var path := if o.path == "" then defaultPath else o.path;
              && (r.Conflict? ==> Current(ChainOf(seen, path)).Version? && r.path == path && r.local == Some(o.(path := path))
                                  && RemoteSince(r.remote, path, seen, server.history, torn))
              && (r.Wrote? ==> Current(ChainOf(seen, path)) == Deleted && r.result.stored.path == path
                               && Known(r.result.stored, server.history, torn)
                               && Accepted(ChainOf(server.history, path), o.payload, Created, None, true, r.result.etag))
    {
      if uid == "" {
        LaterItself(server.history);
        return Refused, None, server.history;
      }
      hide Known, Later, Legal;
      ghost var answer;
      r, answer, seen := Write(if o.path == "" then defaultPath else o.path, o, None, true, Created, o.payload);
      status := Some(answer);
    }

    method Update(o: Held, names: set<string>, ghost base: Payload)
      returns (r: WriteOutcome, ghost status: Option<Status>, ghost seen: History)
      requires Valid()
      requires o.etag.Some? ==> Read(ChainOf(server.history, o.path), o.etag.value, base) && DiffersOnlyIn(base, o.payload, names)
      modifies this`bodies, this`torn, server
      ensures Valid() && Later(old(server.history), seen) && Later(seen, server.history) && old(torn) <= torn
      ensures (r == Refused <==> o.path == "" || o.etag == None) && (r == Refused <==> status == None)
      ensures status == None ==> server.history == old(server.history) && bodies == old(bodies)
      ensures (r.Conflict? <==> status == Some(PreconditionFailed)) && (r.Wrote? <==> status == Some(Stored))
              && (r.WriteFailed? <==> status == Some(Failed))
      ensures r.Conflict? ==> !HasTag(Current(ChainOf(seen, o.path)), o.etag.value) && r.path == o.path && r.local == Some(o)
                              && RemoteSince(r.remote, o.path, seen, server.history, torn)
      ensures r.Wrote? ==> HasTag(Current(ChainOf(seen, o.path)), o.etag.value)
                           && Known(r.result.stored, server.history, torn) && r.result.stored.path == o.path
                           && Accepted(ChainOf(server.history, o.path), o.payload, Edited(names), o.etag, false, r.result.etag)
    {
      if o.path == "" || o.etag == None {
        LaterItself(server.history);
        return Refused, None, server.history;
      }
      hide Known, Later, Legal, Read, DiffersOnlyIn;
      ghost var answer;
      r, answer, seen := Write(o.path, o, o.etag, false, Edited(names), base);
      status := Some(answer);
    }

    method Delete(path: Path, etag: Option<Tag>) returns (r: WriteOutcome, ghost status: Option<Status>, ghost seen: History)
      requires Valid()
      modifies this`bodies, this`torn, server
      ensures Valid() && Later(old(server.history), seen) && Later(seen, server.history) && old(torn) <= torn
      ensures (r == Refused <==> path == "" || etag == None) && (r == Refused <==> status == None)
      ensures status == None ==> server.history == old(server.history) && bodies == old(bodies)
      ensures (r.Conflict? <==> status == Some(PreconditionFailed)) && (r.Removed? <==> status == Some(Stored))
              && (r.WriteFailed? <==> status == Some(Failed))
      ensures r.Removed? ==> HasTag(Current(ChainOf(seen, path)), etag.value) && server.history == Appended(seen, path, Deleted)
                             && bodies == map[]
      ensures r.Conflict? ==> !HasTag(Current(ChainOf(seen, path)), etag.value) && r.path == path && r.local == None
                              && RemoteSince(r.remote, path, seen, server.history, torn)
      ensures r.WriteFailed? ==> bodies == old(bodies)
    {
      hide Known, Later, Legal, Sound, NamedSince;
      if path == "" || etag == None {
        LaterItself(server.history);
        return Refused, None, server.history;
      }
      ghost var h0 := server.history;
      var got;
      got, seen := server.Delete(path, etag.value);
      status := Some(got);
      LaterTwice(h0, seen, server.history);
      CacheStays(h0);
      if got == PreconditionFailed {
        r := ConflictAt(path, None);
        return;
      }
      if got == Failed {
        return WriteFailed, status, seen;
      }
      Invalidate();
      r := Removed;
    }

    // Read some time ago, edited, written back: if it is accepted, then it is the
    // version it was edited from, changed as the patch says and in nothing else.
    method EditAndUpdate(o: Held, ops: Patch)
      returns (r: WriteOutcome, edited: Held, ghost status: Option<Status>, ghost seen: History)
      requires Valid() && Backed(o, server.history)
      modifies this`bodies, this`torn, server
      ensures Valid() && Later(old(server.history), seen) && Later(seen, server.history) && old(torn) <= torn
      ensures DiffersOnlyIn(o.payload, edited.payload, Touched(ops))
      ensures r == Refused <==> o.path == "" || o.etag == None || (ops != [] && !(AllChecked(ops) && PropsOf(o.payload).Some?))
      ensures r != Refused ==> Patched(o.payload, ops, edited.payload) && edited.path == o.path && edited.etag == o.etag
      ensures (r == Refused <==> status == None) && (r.Conflict? <==> status == Some(PreconditionFailed))
              && (r.Wrote? <==> status == Some(Stored)) && (r.WriteFailed? <==> status == Some(Failed))
      ensures r.Conflict? ==> !HasTag(Current(ChainOf(seen, o.path)), o.etag.value) && r.path == o.path && r.local == Some(edited)
                              && RemoteSince(r.remote, o.path, seen, server.history, torn)
      ensures r.Wrote? ==> Known(r.result.stored, server.history, torn)
                           && Accepted(ChainOf(server.history, o.path), edited.payload, Edited(Touched(ops)), o.etag, false, r.result.etag)
    {
      var err;
      edited, err := Edit(o, ops);
      if err != NoError {
        LaterItself(server.history);
        return Refused, edited, None, server.history;
      }
      hide DiffersOnlyIn, Patched, Known, Later, Read, AllChecked, Legal;
      r, status, seen := Update(edited, Touched(ops), o.payload);
    }
  }

  // What a conflict says is there: read again after the write was turned down, or nothing.
  ghost predicate RemoteSince(remote: Option<Held>, path: Path, seen: History, h: History, torn: set<(Path, Tag)>) {
    remote.Some? ==>
      && remote.value.path == path && Known(remote.value, h, torn)
      && NamedSince(ChainOf(h, path), |ChainOf(seen, path)|, remote.value.etag)
  }

  // The pair of a direct read whose body is not that of its tag.
  ghost function TornBy(o: Option<Held>, h: History): set<(Path, Tag)> {
    if o.Some? && o.value.etag.Some? && !Own(o.value, h) then {(o.value.path, o.value.etag.value)} else {}
  }

  // As long as no direct read was torn, every object read is its tag's version.
  lemma OwnWhenWhole(h: History, torn: set<(Path, Tag)>, objects: seq<Held>)
    requires forall o :: o in objects ==> Known(o, h, torn)
    ensures torn == {} ==> forall o :: o in objects ==> Own(o, h)
  {
    hide Backed, StoredUnder;
  }

  lemma KnownOnce(o: Held, h: History, torn: set<(Path, Tag)>)
    requires Backed(o, h) && TornBy(Some(o), h) <= torn
    ensures Known(o, h, torn)
  {
  }

  // The tag names a version that was current when the chain had `n` entries, or later.
  ghost predicate NamedSince(chain: Chain, n: nat, tag: Option<Tag>) {
    exists k: nat :: NamedAt(chain, k, n, tag)
  }

  predicate NamedAt(chain: Chain, k: nat, n: nat, tag: Option<Tag>) {
    tag.Some? ==> n <= k + 1 && k < |chain| && HasTag(chain[k], tag.value)
  }

  // The write is in the chain, right on top of what its precondition asked for, and the
  // tag the client is left with, if any, names that version or a later one.
  ghost predicate Accepted(chain: Chain, payload: Payload, origin: Origin, ifMatch: Option<Tag>, ifNoneMatch: bool,
                           tag: Option<Tag>) {
    exists i: nat :: AcceptedAt(chain, i, payload, origin, ifMatch, ifNoneMatch) && NamedSince(chain, i + 1, tag)
  }

  predicate AcceptedAt(chain: Chain, i: nat, payload: Payload, origin: Origin, ifMatch: Option<Tag>, ifNoneMatch: bool) {
    && i < |chain| && chain[i].Version? && chain[i].body == Good(payload) && chain[i].origin == origin
    && (ifMatch.Some? ==> i > 0 && HasTag(chain[i - 1], ifMatch.value))
    && (ifNoneMatch ==> i == 0 || chain[i - 1] == Deleted)
  }

  lemma LaterItself(h: History)
    ensures Later(h, h)
  {
  }

  lemma AcceptedNow(seen: History, h: History, path: Path, payload: Payload, origin: Origin, ifMatch: Option<Tag>, ifNoneMatch: bool,
                    tag: Option<Tag>)
    requires Allowed(Current(ChainOf(seen, path)), ifMatch, ifNoneMatch)
    requires exists t: Tag :: h == Appended(seen, path, Version(t, Good(payload), origin)) && (tag == None || tag == Some(t))
    ensures ChainOf(h, path) != []
    ensures AcceptedAt(ChainOf(h, path), |ChainOf(h, path)| - 1, payload, origin, ifMatch, ifNoneMatch)
    ensures NamedAt(ChainOf(h, path), |ChainOf(h, path)| - 1, |ChainOf(h, path)|, tag)
  {
  }

  // The answer to the write or a later read gives the tag.
  lemma NamedNow(h: History, h': History, path: Path, payload: Payload, origin: Origin, ifMatch: Option<Tag>, ifNoneMatch: bool,
                 put: Option<Tag>, tag: Option<Tag>)
    requires Later(h, h') && ChainOf(h, path) != []
    requires AcceptedAt(ChainOf(h, path), |ChainOf(h, path)| - 1, payload, origin, ifMatch, ifNoneMatch)
    requires NamedAt(ChainOf(h, path), |ChainOf(h, path)| - 1, |ChainOf(h, path)|, put)
    requires tag == put || NamedSince(ChainOf(h', path), |ChainOf(h, path)|, tag)
    ensures Accepted(ChainOf(h', path), payload, origin, ifMatch, ifNoneMatch, tag)
  {
    LaterChain(h, h', path);
    var chain, i := ChainOf(h', path), |ChainOf(h, path)| - 1;
    assert AcceptedAt(chain, i, payload, origin, ifMatch, ifNoneMatch);
    if tag == put {
      assert NamedAt(chain, i, i + 1, tag);
    }
  }

  lemma SentIsKnown(seen: History, h: History, path: Path, payload: Payload, origin: Origin, o: Held, torn: set<(Path, Tag)>)
    requires exists t: Tag :: h == Appended(seen, path, Version(t, Good(payload), origin)) && (o.etag == None || o.etag == Some(t))
    requires o.path == path && o.payload == payload
    ensures Known(o, h, torn)
  {
    var chain := ChainOf(h, path);
    if o.etag.Some? {
      assert ReadAt(chain, o.etag.value, payload, |chain| - 1, |chain| - 1);
      assert StoredAt(chain, o.etag.value, payload, |chain| - 1);
    }
  }

  lemma TagThenBody(h: History, h': History, path: Path, tag: Option<Tag>, payload: Payload)
    requires Later(h, h') && (tag.Some? ==> HasTag(Current(ChainOf(h, path)), tag.value))
    requires Current(ChainOf(h', path)).Version? && Current(ChainOf(h', path)).body == Good(payload)
    ensures Backed(Held(path, tag, payload), h')
  {
    LaterChain(h, h', path);
    if tag.Some? {
      assert ReadAt(ChainOf(h', path), tag.value, payload, |ChainOf(h, path)| - 1, |ChainOf(h', path)| - 1);
    }
  }

  // An accepted edit differs from the version before it in the named properties alone,
  // and that version is the one its tag named.
  lemma AcceptedEditIsClean(h: History, path: Path, payload: Payload, names: set<string>, tag: Tag, now: Option<Tag>)
    requires Legal(h) && Accepted(ChainOf(h, path), payload, Edited(names), Some(tag), false, now)
    ensures exists i ::
              && 0 < i < |ChainOf(h, path)| && HasTag(ChainOf(h, path)[i - 1], tag) && ChainOf(h, path)[i - 1].body.Good?
              && ChainOf(h, path)[i].Version? && ChainOf(h, path)[i].body == Good(payload)
              && DiffersOnlyIn(ChainOf(h, path)[i - 1].body.payload, payload, names)
  {
    var chain := ChainOf(h, path);
    var i :| AcceptedAt(chain, i, payload, Edited(names), Some(tag), false);
    assert ChainOk(chain) && EntryOk(chain, i);
  }

  // The map of tags agrees with the server about the paths asked for.
  predicate TagsCurrent(h: History, paths: seq<Path>, etags: map<Path, Tag>) {
    forall p :: p in paths && p in etags ==> HasTag(Current(ChainOf(h, p)), etags[p])
  }

  ghost predicate SoundFound(h: History, torn: set<(Path, Tag)>, found: map<Path, Held>) {
    forall p :: p in found ==> p != "" && found[p].path == p && Known(found[p], h, torn)
  }

  ghost predicate ExactFound(h: History, found: map<Path, Held>) {
    forall p :: p in found ==> One(h, p) == Some(found[p])
  }

  ghost predicate Covers(h: History, found: map<Path, Held>, paths: seq<Path>) {
    forall p :: p in paths && p != "" && One(h, p).Some? ==> p in found
  }

  // A cached body under the current tag is the current body, torn or not: what a torn pair
  // holds is newer than its tag.
  lemma CachedIsCurrent(h: History, o: Held, torn: set<(Path, Tag)>, paths: seq<Path>, etags: map<Path, Tag>)
    requires Legal(h) && Known(o, h, torn) && o.etag.Some? && o.path in etags && o.etag.value == etags[o.path]
    ensures HasTag(Current(ChainOf(h, o.path)), etags[o.path]) ==> One(h, o.path) == Some(o)
    ensures o.path in paths && TagsCurrent(h, paths, etags) ==> One(h, o.path) == Some(o)
  {
    if HasTag(Current(ChainOf(h, o.path)), etags[o.path]) {
      ReadHere(h, o.path, o.etag.value, o.payload);
    }
  }

  lemma SoundStays(h: History, h': History, torn: set<(Path, Tag)>, found: map<Path, Held>)
    requires Later(h, h') && SoundFound(h, torn, found)
    ensures SoundFound(h', torn, found)
  {
    hide Known, Later;
    forall p | p in found
      ensures Known(found[p], h', torn)
    {
      KnownStays(found[p], h, h', torn, torn);
    }
  }

  lemma NothingBetweenIs(a: History, b: History, c: History)
    requires Later(a, b) && Later(b, c) && a == c
    ensures b == a
  {
    NothingBetween(a, b, c);
    assert forall p :: p in b ==> p in c;
  }

  // The objects behind the paths, each as it is now.
  function Found(h: History, paths: seq<Path>): seq<Held> {
    if paths == [] then []
    else
      var last := paths[|paths| - 1];
      Found(h, paths[..|paths| - 1]) + if One(h, last) == None then [] else [One(h, last).value]
  }

  // An uncached read of one path gives the current version, under its tag, if it is an object.
  lemma OneExactly(h: History, path: Path, tag: Tag, payload: Payload)
    ensures One(h, path) == Some(Held(path, Some(tag), payload)) <==>
              HasTag(Current(ChainOf(h, path)), tag) && Current(ChainOf(h, path)).body == Good(payload)
    ensures One(h, path) == None <==> Current(ChainOf(h, path)) == Deleted || Current(ChainOf(h, path)).body == Garbage
  {
  }

  // Of several paths it gives those objects in the order of the paths, and the failures are
  // the paths that are left.
  lemma {:induction false} ObjectsExactly(h: History, paths: seq<Path>) returns (at: seq<nat>)
    ensures |at| == |Objects(h, paths)|
    ensures forall i :: 0 <= i < |at| ==> at[i] < |paths| && Some(Objects(h, paths)[i]) == One(h, paths[at[i]])
    ensures forall i, j :: 0 <= i < j < |at| ==> at[i] < at[j]
    ensures forall k :: 0 <= k < |paths| ==> (k in at <==> paths[k] != "" && One(h, paths[k]).Some?)
  {
    hide One;
    at := [];
    if paths != [] {
      var n := |paths| - 1;
      at := ObjectsExactly(h, paths[..n]);
      assert n !in at && forall k :: 0 <= k < n ==> paths[..n][k] == paths[k];
      if paths[n] != "" && One(h, paths[n]).Some? {
        at := at + [n];
      }
    }
  }

  lemma {:induction false} FailuresExactly(h: History, paths: seq<Path>) returns (at: seq<nat>)
    ensures FailedAt(h, paths, Missing(h, NonBlank(paths)), at)
  {
    hide Missing, NonBlank, FailedAt;
    if paths == [] {
      at := [];
      FailedNone(h);
    } else {
      at := FailuresExactly(h, paths[..|paths| - 1]);
      at := FailedStep(h, paths[..|paths| - 1], paths[|paths| - 1], at);
      assert paths == paths[..|paths| - 1] + [paths[|paths| - 1]];
    }
  }

  lemma FailedNone(h: History)
    ensures FailedAt(h, [], Missing(h, NonBlank([])), [])
  {
    hide One;
  }

  lemma FailedStep(h: History, paths: seq<Path>, last: Path, before: seq<nat>) returns (at: seq<nat>)
    requires FailedAt(h, paths, Missing(h, NonBlank(paths)), before)
    ensures FailedAt(h, paths + [last], Missing(h, NonBlank(paths + [last])), at)
  {
    hide One, Missing, NonBlank, FailedAt;
    NonBlankNext(paths, last);
    MissingNext(h, NonBlank(paths), last);
    FailedNext(h, paths, last, Missing(h, NonBlank(paths)), before);
    at := if last != "" && One(h, last) == None then before + [|paths|] else before;
  }

  // These paths are those of `paths` at these places: the ones that are named and have no
  // object, in order.
  ghost predicate FailedAt(h: History, paths: seq<Path>, failed: seq<Path>, at: seq<nat>) {
    && |at| == |failed|
    && (forall i :: 0 <= i < |at| ==> at[i] < |paths| && failed[i] == paths[at[i]])
    && (forall i, j :: 0 <= i < j < |at| ==> at[i] < at[j])
    && (forall k :: 0 <= k < |paths| ==> (k in at <==> paths[k] != "" && One(h, paths[k]) == None))
  }

  lemma FailedNext(h: History, paths: seq<Path>, last: Path, failed: seq<Path>, at: seq<nat>)
    requires FailedAt(h, paths, failed, at)
    ensures if last != "" && One(h, last) == None then FailedAt(h, paths + [last], failed + [last], at + [|paths|])
            else FailedAt(h, paths + [last], failed, at)
  {
    hide One;
    assert |paths| !in at;
  }

  // The paths behind which there is no object now.
  function Missing(h: History, paths: seq<Path>): seq<Path> {
    if paths == [] then []
    else
      var last := paths[|paths| - 1];
      Missing(h, paths[..|paths| - 1]) + if One(h, last) == None then [last] else []
  }

  function NonBlank(paths: seq<Path>): seq<Path> {
    if paths == [] then []
    else
      var last := paths[|paths| - 1];
      NonBlank(paths[..|paths| - 1]) + if last == "" then [] else [last]
  }

  lemma NonBlankNext(paths: seq<Path>, last: Path)
    ensures NonBlank(paths + [last]) == if last == "" then NonBlank(paths) else NonBlank(paths) + [last]
  {
    assert (paths + [last])[..|paths|] == paths;
  }

  lemma MissingNext(h: History, paths: seq<Path>, last: Path)
    ensures Missing(h, paths + [last]) == if One(h, last) == None then Missing(h, paths) + [last] else Missing(h, paths)
  {
    assert (paths + [last])[..|paths|] == paths;
  }

  lemma {:induction false} MissingJoin(h: History, a: seq<Path>, b: seq<Path>)
    ensures Missing(h, a + b) == Missing(h, a) + Missing(h, b)
    decreases |b|
  {
    hide One;
    var all := a + b;
    if b == [] {
      assert all == a;
    } else {
      var init := b[..|b| - 1];
      MissingJoin(h, a, init);
      assert all[..|all| - 1] == a + init && all[|all| - 1] == b[|b| - 1];
    }
  }

  lemma {:induction false} MissingAre(h: History, paths: seq<Path>)
    ensures forall p :: p in Missing(h, paths) <==> p in paths && One(h, p) == None
  {
    hide One;
    if paths != [] {
      MissingAre(h, paths[..|paths| - 1]);
      assert paths == paths[..|paths| - 1] + [paths[|paths| - 1]];
    }
  }

  // What the first pass has is exact, and what is missing is missing among what it asks for.
  ghost predicate Taken(h: History, paths: seq<Path>, found: map<Path, Held>, wanted: seq<Path>) {
    ExactFound(h, found) && Missing(h, wanted) == Missing(h, NonBlank(paths))
  }

  lemma TakenNext(h: History, paths: seq<Path>, path: Path, found: map<Path, Held>, wanted: seq<Path>)
    requires Taken(h, paths, found, wanted)
    ensures path == "" ==> Taken(h, paths + [path], found, wanted)
    ensures path != "" ==> Taken(h, paths + [path], found, wanted + [path])
    ensures path != "" && One(h, path).Some? ==> Taken(h, paths + [path], found[path := One(h, path).value], wanted)
  {
    hide One, Missing, NonBlank;
    NonBlankNext(paths, path);
    MissingNext(h, NonBlank(paths), path);
    MissingNext(h, wanted, path);
  }

  lemma CoversBoth(h: History, before: map<Path, Held>, found: map<Path, Held>, a: seq<Path>, b: seq<Path>)
    requires Covers(h, before, a) && Covers(h, found, b) && before.Keys <= found.Keys
    ensures Covers(h, found, a + b)
  {
    hide One;
  }

  lemma CoversAll(h: History, found: map<Path, Held>, paths: seq<Path>, wanted: seq<Path>)
    requires Covers(h, found, wanted) && forall p :: p in paths && p != "" ==> p in found || p in wanted
    ensures Covers(h, found, paths)
  {
  }

  lemma {:induction false} FoundAreKnown(h: History, paths: seq<Path>, torn: set<(Path, Tag)>)
    ensures forall o :: o in Found(h, paths) ==> Known(o, h, torn) && o.path in paths && One(h, o.path) == Some(o)
    ensures forall p :: p in paths && One(h, p).Some? ==> One(h, p).value in Found(h, paths)
  {
    hide Known, One;
    if paths != [] {
      FoundAreKnown(h, paths[..|paths| - 1], torn);
      OneIsKnown(h, paths[|paths| - 1], torn);
      assert paths == paths[..|paths| - 1] + [paths[|paths| - 1]];
    }
  }
}
