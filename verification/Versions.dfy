// What a server that honours preconditions keeps of each resource: every version it
// ever stored, each under an entity tag of its own (section 13.1.1 of RFC 9110), and
// what a client may conclude from a tag and a body it has read.
module Versions {
  import opened Patches

  type Path = string
  type Tag = nat

  // A stored body, which may not be a calendar object at all.
  datatype Body = Good(payload: Payload) | Garbage

  // How a version came to be: written anew, or edited in the named properties.
  datatype Origin = Created | Edited(names: set<string>)

  datatype Entry = Deleted | Version(tag: Tag, body: Body, origin: Origin)

  type Chain = seq<Entry>
  type History = map<Path, Chain>

  function ChainOf(h: History, path: Path): Chain {
    if path in h then h[path] else []
  }

  function Current(chain: Chain): Entry {
    if chain == [] then Deleted else chain[|chain| - 1]
  }

  // Nothing but the named properties differs: not in the component that is edited, and
  // not around it.
  predicate DiffersOnlyIn(p: Payload, q: Payload, names: set<string>) {
    && SameRest(p, q)
    && forall c :: c in NamesIn(p) + NamesIn(q) - names ==> Lookup(p, c) == Lookup(q, c)
  }

  // Everything is the same but the properties of the component that is edited: the rest
  // of that component, the other components and the calendar around them.
  predicate SameRest(p: Payload, q: Payload) {
    p == q || SameAround(p, q)
  }

  function NamesIn(p: Payload): set<string> {
    match PropsOf(p) case None => {} case Some(props) => props.Keys
  }

  lemma SameElsewhere(p: Payload, q: Payload, names: set<string>)
    requires SameRest(p, q)
    ensures DiffersOnlyIn(p, q, names) <==> forall c: string :: c !in names ==> Lookup(p, c) == Lookup(q, c)
  {
    hide PropsOf, SameRest;
    if DiffersOnlyIn(p, q, names) {
      forall c: string | c !in names
        ensures Lookup(p, c) == Lookup(q, c)
      {
        if c in NamesIn(p) + NamesIn(q) - names {
        } else {
          assert Lookup(p, c) == [] && Lookup(q, c) == [];
        }
      }
    }
  }

  predicate EntryOk(chain: Chain, i: nat)
    requires i < |chain|
  {
    chain[i].Version? && chain[i].origin.Edited? ==>
      && i > 0 && chain[i - 1].Version? && chain[i].body.Good? && chain[i - 1].body.Good?
      && DiffersOnlyIn(chain[i - 1].body.payload, chain[i].body.payload, chain[i].origin.names)
  }

  predicate TagsApart(chain: Chain) {
    forall i, j :: 0 <= i < j < |chain| && chain[i].Version? && chain[j].Version? ==> chain[i].tag != chain[j].tag
  }

  predicate ChainOk(chain: Chain) {
    TagsApart(chain) && forall i {:trigger EntryOk(chain, i)} :: 0 <= i < |chain| ==> EntryOk(chain, i)
  }

  predicate Legal(h: History) {
    forall path :: path in h ==> ChainOk(h[path])
  }

  // Histories only grow.
  predicate Later(h: History, h': History) {
    forall path :: path in h ==> path in h' && h[path] <= h'[path]
  }

  lemma LaterTwice(a: History, b: History, c: History)
    requires Later(a, b) && Later(b, c)
    ensures Later(a, c)
  {
  }

  lemma LaterChain(h: History, h': History, path: Path)
    requires Later(h, h')
    ensures ChainOf(h, path) <= ChainOf(h', path)
  {
  }

  // If nothing was added in all, nothing was added on the way.
  lemma NothingBetween(a: History, b: History, c: History)
    requires Later(a, b) && Later(b, c) && a == c
    ensures forall path :: path in a ==> path in b && b[path] == a[path]
    ensures forall path :: ChainOf(b, path) == ChainOf(a, path)
  {
    forall path | path in a
      ensures path in b && b[path] == a[path]
    {
    }
    forall path
      ensures ChainOf(b, path) == ChainOf(a, path)
    {
      if path in b {
        assert path in c;
      }
    }
  }

  /* ---- Writing ---- */

  function Appended(h: History, path: Path, e: Entry): History {
    h[path := ChainOf(h, path) + [e]]
  }

  predicate TagUnused(chain: Chain, tag: Tag) {
    forall i :: 0 <= i < |chain| && chain[i].Version? ==> chain[i].tag != tag
  }

  lemma AppendIsLater(h: History, path: Path, e: Entry)
    ensures Later(h, Appended(h, path, e))
  {
  }

  lemma AppendIsLegal(h: History, path: Path, e: Entry)
    requires Legal(h) && (e.Version? ==> TagUnused(ChainOf(h, path), e.tag))
    requires e.Version? && e.origin.Edited? ==>
               var was := Current(ChainOf(h, path));
               was.Version? && was.body.Good? && e.body.Good? && DiffersOnlyIn(was.body.payload, e.body.payload, e.origin.names)
    ensures Legal(Appended(h, path, e))
  {
    var was := ChainOf(h, path);
    var chain := was + [e];
    assert ChainOk(was);
    forall i | 0 <= i < |chain|
      ensures EntryOk(chain, i)
    {
      if i < |was| {
        assert EntryOk(was, i);
      }
    }
    assert ChainOk(chain);
  }

  lemma {:induction false} FreshTag(chain: Chain)
    ensures exists tag: Tag :: TagUnused(chain, tag)
  {
    var tag := TagBound(chain);
    assert TagUnused(chain, tag);
  }

  lemma {:induction false} TagBound(chain: Chain) returns (n: nat)
    ensures forall i :: 0 <= i < |chain| && chain[i].Version? ==> chain[i].tag < n
  {
    n := 0;
    if chain != [] {
      n := TagBound(chain[..|chain| - 1]);
      var last := chain[|chain| - 1];
      if last.Version? && last.tag >= n {
        n := last.tag + 1;
      }
    }
  }

  /* ---- What a tag and a body tell ---- */

  // The version the tag names is in the chain, and the body is that version's or a
  // later one's. The tag is read first, so a body may be newer than its tag; never older.
  ghost predicate Read(chain: Chain, tag: Tag, payload: Payload) {
    exists i, k :: ReadAt(chain, tag, payload, i, k)
  }

  ghost predicate ReadAt(chain: Chain, tag: Tag, payload: Payload, i: nat, k: nat) {
    && i <= k < |chain| && chain[i].Version? && chain[i].tag == tag
    && chain[k].Version? && chain[k].body == Good(payload)
  }

  lemma ReadStays(chain: Chain, chain': Chain, tag: Tag, payload: Payload)
    requires Read(chain, tag, payload) && chain <= chain'
    ensures Read(chain', tag, payload)
  {
    var i, k :| ReadAt(chain, tag, payload, i, k);
    assert ReadAt(chain', tag, payload, i, k);
  }

  // While the tag is the current one, the body is the current body: there is nothing newer.
  lemma ReadWhileCurrent(chain: Chain, tag: Tag, payload: Payload)
    requires TagsApart(chain) && Read(chain, tag, payload)
    requires Current(chain).Version? && Current(chain).tag == tag
    ensures Current(chain).body == Good(payload)
  {
    var i, k :| ReadAt(chain, tag, payload, i, k);
    assert i == |chain| - 1;
  }

  // The body is that of the very version the tag names.
  ghost predicate StoredUnder(chain: Chain, tag: Tag, payload: Payload) {
    exists i: nat :: StoredAt(chain, tag, payload, i)
  }

  predicate StoredAt(chain: Chain, tag: Tag, payload: Payload, i: nat) {
    i < |chain| && HasTag(chain[i], tag) && chain[i].body == Good(payload)
  }

  predicate HasTag(e: Entry, tag: Tag) {
    e.Version? && e.tag == tag
  }

  lemma StoredStays(chain: Chain, chain': Chain, tag: Tag, payload: Payload)
    requires StoredUnder(chain, tag, payload) && chain <= chain'
    ensures StoredUnder(chain', tag, payload)
  {
    var i :| StoredAt(chain, tag, payload, i);
    assert StoredAt(chain', tag, payload, i);
  }

  // A tag read first and a body read second belong together exactly when nobody stored
  // a different body in between.
  lemma TagAndBodyAgreeExactly(h: History, h': History, path: Path, payload: Payload)
    requires Legal(h') && Later(h, h') && Current(ChainOf(h, path)).Version?
    requires Current(ChainOf(h', path)).Version? && Current(ChainOf(h', path)).body == Good(payload)
    ensures StoredUnder(ChainOf(h', path), Current(ChainOf(h, path)).tag, payload)
            <==> Current(ChainOf(h', path)).body == Current(ChainOf(h, path)).body
  {
    LaterChain(h, h', path);
    var chain, at := ChainOf(h', path), |ChainOf(h, path)| - 1;
    assert ChainOk(chain) && chain[at] == Current(ChainOf(h, path));
    if chain[at].body == Good(payload) {
      assert StoredAt(chain, chain[at].tag, payload, at);
    }
  }

  // They can part: the resource is replaced between the two requests.
  lemma TagAndBodyCanPart(path: Path, a: Payload, b: Payload) returns (h: History, h': History)
    requires a != b
    ensures Legal(h) && Legal(h') && Later(h, h')
    ensures Current(ChainOf(h, path)).Version? && Current(ChainOf(h', path)).Version?
    ensures Current(ChainOf(h', path)).body == Good(b)
    ensures !StoredUnder(ChainOf(h', path), Current(ChainOf(h, path)).tag, b)
  {
    var one, two := Version(0, Good(a), Created), Version(1, Good(b), Created);
    h, h' := map[path := [one]], map[path := [one, two]];
    assert forall i :: 0 <= i < 1 ==> EntryOk([one], i);
    assert forall i :: 0 <= i < 2 ==> EntryOk([one, two], i);
    TagAndBodyAgreeExactly(h, h', path, b);
  }

  /* ---- Through a whole run ---- */

  // Every version after `i` up to `j` was an edit that does not name `c`.
  ghost predicate EditsSpare(chain: Chain, i: nat, j: nat, c: string) {
    i <= j < |chain| && forall k :: i < k <= j ==> chain[k].Version? && chain[k].origin.Edited? && c !in chain[k].origin.names
  }

  // A property that no accepted edit names keeps its exact values throughout.
  lemma {:induction false} UntouchedThroughout(chain: Chain, i: nat, j: nat, c: string)
    requires ChainOk(chain) && EditsSpare(chain, i, j, c) && chain[i].Version? && chain[i].body.Good?
    ensures chain[j].Version? && chain[j].body.Good?
    ensures Lookup(chain[i].body.payload, c) == Lookup(chain[j].body.payload, c)
    decreases j
  {
    hide Lookup, SameRest;
    if i < j {
      UntouchedThroughout(chain, i, j - 1, c);
      assert EntryOk(chain, j);
      SameElsewhere(chain[j - 1].body.payload, chain[j].body.payload, chain[j].origin.names);
    }
  }

  // Every version after `i` up to `j` was an edit.
  ghost predicate EditsOnly(chain: Chain, i: nat, j: nat) {
    i <= j < |chain| && forall k :: i < k <= j ==> chain[k].Version? && chain[k].origin.Edited?
  }

  // What is around the edited component comes through any number of edits unchanged,
  // whatever they name: repeated instances, time zones, the calendar's own properties.
  lemma {:induction false} RestThroughout(chain: Chain, i: nat, j: nat)
    requires ChainOk(chain) && EditsOnly(chain, i, j) && chain[i].Version? && chain[i].body.Good?
    ensures chain[j].Version? && chain[j].body.Good?
    ensures SameRest(chain[i].body.payload, chain[j].body.payload)
    decreases j
  {
    if i < j {
      RestThroughout(chain, i, j - 1);
      assert EntryOk(chain, j);
      SameRestTwice(chain[i].body.payload, chain[j - 1].body.payload, chain[j].body.payload);
    }
  }

  lemma SameRestTwice(p: Payload, q: Payload, r: Payload)
    requires SameRest(p, q) && SameRest(q, r)
    ensures SameRest(p, r)
  {
    hide SameAround;
    if p != q && q != r {
      SameAroundTwice(p, q, r);
    }
  }
}
