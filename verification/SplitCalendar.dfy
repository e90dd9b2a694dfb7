// A calendar cut into resources, one for each UID: which entry goes where, what is kept of
// their order, and which zones go along (internal/model/icals.go).
module SplitCalendar {
  import opened GoText
  import opened Ordering
  import opened Patches

  const NO_UID := "\U{0000}no-uid-"

  function Digits(n: nat): string {
    if n < 10 then [('0' as int + n) as char] else Digits(n / 10) + Digits(n % 10)
  }

  // The group of an entry that has no UID.
  function Sentinel(n: nat): string {
    NO_UID + Digits(n)
  }

  lemma {:induction false} DigitsAreDigits(n: nat)
    ensures |Digits(n)| > 0 && forall i :: 0 <= i < |Digits(n)| ==> '0' <= Digits(n)[i] <= '9'
  {
    if n >= 10 {
      DigitsAreDigits(n / 10);
    }
  }

  lemma {:induction false} DigitsTell(n: nat, m: nat)
    requires Digits(n) == Digits(m)
    ensures n == m
  {
    DigitsAreDigits(n / 10);
    DigitsAreDigits(m / 10);
    if n >= 10 && m >= 10 {
      var a, b := Digits(n), Digits(m);
      assert a[..|a| - 1] == Digits(n / 10) && b[..|b| - 1] == Digits(m / 10);
      DigitsTell(n / 10, m / 10);
      assert a[|a| - 1] == Digits(n % 10)[0] && b[|b| - 1] == Digits(m % 10)[0];
    }
  }

  lemma SentinelTells(n: nat, m: nat)
    requires Sentinel(n) == Sentinel(m)
    ensures n == m
  {
    assert Sentinel(n)[|NO_UID|..] == Digits(n) && Sentinel(m)[|NO_UID|..] == Digits(m);
    DigitsTell(n, m);
  }

  function First(values: seq<Value>): string {
    if values == [] then "" else values[0].text
  }

  function PropRaw(c: Component, name: string): string {
    if name in c.props then First(c.props[name]) else ""
  }

  predicate IsZone(c: Component) {
    ToUpper(c.name) == "VTIMEZONE"
  }

  /* ---- Groups ---- */

  // The entries among the children, in order.
  function Entries(children: seq<Component>): seq<Component> {
    if children == [] then []
    else
      var last := children[|children| - 1];
      Entries(children[..|children| - 1]) + if IsEntry(last) then [last] else []
  }

  // The groups met so far, each once, in the order they were first met.
  function Order(keys: seq<string>): seq<string> {
    if keys == [] then []
    else
      var init, last := Order(keys[..|keys| - 1]), keys[|keys| - 1];
      if last in init then init else init + [last]
  }

  // The group of each entry.
  function KeysOf(entries: seq<Component>): (keys: seq<string>)
    ensures |keys| == |entries|
  {
    if entries == [] then []
    else
      var init := KeysOf(entries[..|entries| - 1]);
      init + [KeyOf(entries[|entries| - 1], |Order(init)|)]
  }

  function KeyOf(entry: Component, groups: nat): string {
    var uid := PropRaw(entry, "UID");
    if uid == "" then Sentinel(groups) else uid
  }

  // The entries of one group, in order.
  function Members(entries: seq<Component>, keys: seq<string>, key: string): seq<Component>
    requires |keys| == |entries|
  {
    if entries == [] then []
    else
      var n := |entries| - 1;
      Members(entries[..n], keys[..n], key) + if keys[n] == key then [entries[n]] else []
  }

  // The time zones by name; a later definition replaces an earlier one.
  function Zones(children: seq<Component>): map<string, Component> {
    if children == [] then map[]
    else
      var init, last := Zones(children[..|children| - 1]), children[|children| - 1];
      if IsZone(last) then init[PropRaw(last, "TZID") := last] else init
  }

  /* ---- The zones a component names ---- */

  function ZoneOf(v: Value): string {
    if "TZID" in v.params && v.params["TZID"] != [] then v.params["TZID"][0] else ""
  }

  function ZonesIn(values: seq<Value>): set<string> {
    set v | v in values && ZoneOf(v) != "" :: ZoneOf(v)
  }

  // Every zone named anywhere in the trees.
  function ZonesUsed(comps: seq<Component>): set<string> {
    if comps == [] then {} else ZonesUsed(comps[..|comps| - 1]) + ZonesOfTree(comps[|comps| - 1])
  }

  function ZonesOfTree(c: Component): set<string> {
    (set n, z | n in c.props && z in ZonesIn(c.props[n]) :: z) + ZonesUsed(c.children)
  }

  method TimezonesUsedBy(comps: seq<Component>) returns (ids: seq<string>)
    ensures Distinct(ids) && (forall id :: id in ids <==> id in ZonesUsed(comps))
    decreases comps
  {
    ids := [];
    for i := 0 to |comps|
      invariant Distinct(ids) && forall id :: id in ids <==> id in ZonesUsed(comps[..i])
    {
      var comp := comps[i];
      assert comps[..i + 1][..i] == comps[..i];
      ghost var before := ZonesUsed(comps[..i]);
      ids := AddOwn(ids, comp.props);
      var inner := TimezonesUsedBy(comp.children);
      ids := AddAll(ids, inner);
    }
    assert comps[..|comps|] == comps;
  }

  method AddOwn(ids0: seq<string>, props: Props) returns (ids: seq<string>)
    requires Distinct(ids0)
    ensures Distinct(ids)
    ensures forall id :: id in ids <==> id in ids0 || id in set n, z | n in props && z in ZonesIn(props[n]) :: z
  {
    ids := ids0;
    var rest := props.Keys;
    while rest != {}
      invariant rest <= props.Keys && Distinct(ids)
      invariant forall id :: id in ids <==> id in ids0 || exists n :: n in props.Keys - rest && id in ZonesIn(props[n])
    {
      var n :| n in rest;
      ids := AddValues(ids, props[n]);
      rest := rest - {n};
    }
  }

  method AddValues(ids0: seq<string>, values: seq<Value>) returns (ids: seq<string>)
    requires Distinct(ids0)
    ensures Distinct(ids) && forall id :: id in ids <==> id in ids0 || id in ZonesIn(values)
  {
    ids := ids0;
    for i := 0 to |values|
      invariant Distinct(ids) && forall id :: id in ids <==> id in ids0 || id in ZonesIn(values[..i])
    {
      assert values[..i + 1] == values[..i] + [values[i]];
      var id := ZoneOf(values[i]);
      if id != "" && id !in ids {
        ids := ids + [id];
      }
    }
    assert values[..|values|] == values;
  }

  method AddAll(ids0: seq<string>, more: seq<string>) returns (ids: seq<string>)
    requires Distinct(ids0)
    ensures Distinct(ids) && forall id :: id in ids <==> id in ids0 || id in more
  {
    ids := ids0;
    for i := 0 to |more|
      invariant Distinct(ids) && forall id :: id in ids <==> id in ids0 || id in more[..i]
    {
      assert more[..i + 1] == more[..i] + [more[i]];
      if more[i] !in ids {
        ids := ids + [more[i]];
      }
    }
    assert more[..|more|] == more;
  }

  /* ---- The cut ---- */

  function Defs(zones: map<string, Component>, ids: seq<string>): seq<Component>
    requires forall id :: id in ids ==> id in zones
  {
    if ids == [] then [] else Defs(zones, ids[..|ids| - 1]) + [zones[ids[|ids| - 1]]]
  }

  // A resource: the envelope, the zones its entries name and the calendar defines, once
  // each, and then the entries of one group.
  ghost predicate Resource(cal: Component, out: Component, members: seq<Component>, zones: map<string, Component>) {
    && out.name == cal.name && out.props == cal.props
    && exists ids: seq<string> :: CarriedZones(ids, members, zones) && out.children == Defs(zones, ids) + members
  }

  ghost predicate CarriedZones(ids: seq<string>, members: seq<Component>, zones: map<string, Component>) {
    Distinct(ids) && forall id :: id in ids <==> id in ZonesUsed(members) && id in zones
  }

  ghost predicate GroupsOf(groups: map<string, seq<Component>>, entries: seq<Component>, keys: seq<string>) {
    && |keys| == |entries| && groups.Keys == (set k | k in Order(keys))
    && forall k :: k in groups ==> groups[k] == Members(entries, keys, k)
  }

  method SplitByComponent(cal: Component) returns (out: seq<Component>)
    ensures var entries := Entries(cal.children);
            var order := Order(KeysOf(entries));
            if |order| <= 1 then out == [cal]
            else |out| == |order| && forall j :: 0 <= j < |order| ==>
                   Resource(cal, out[j], Members(entries, KeysOf(entries), order[j]), Zones(cal.children))
  {
    hide Resource, Members, Entries, Zones;
    var order, groups, zones := Sort(cal.children);
    if |order| <= 1 {
      return [cal];
    }
    out := CutAll(cal, order, groups, zones);
  }

  method CutAll(cal: Component, order: seq<string>, groups: map<string, seq<Component>>, zones: map<string, Component>)
    returns (out: seq<Component>)
    requires forall key :: key in order ==> key in groups
    ensures |out| == |order| && forall j :: 0 <= j < |order| ==> Resource(cal, out[j], groups[order[j]], zones)
  {
    hide Resource;
    out := [];
    for j := 0 to |order|
      invariant |out| == j && forall i :: 0 <= i < j ==> Resource(cal, out[i], groups[order[i]], zones)
    {
      var part := Cut(cal, groups[order[j]], zones);
      out := out + [part];
    }
  }

  method Sort(children: seq<Component>)
    returns (order: seq<string>, groups: map<string, seq<Component>>, zones: map<string, Component>)
    ensures order == Order(KeysOf(Entries(children))) && zones == Zones(children)
    ensures GroupsOf(groups, Entries(children), KeysOf(Entries(children)))
  {
    order, groups, zones := [], map[], map[];
    ghost var entries: seq<Component>, keys: seq<string> := [], [];
    for i := 0 to |children|
      invariant entries == Entries(children[..i]) && keys == KeysOf(entries)
      invariant order == Order(keys) && zones == Zones(children[..i]) && GroupsOf(groups, entries, keys)
    {
      hide Members, ToUpper, Order, KeysOf, GroupsOf;
      var child := children[i];
      assert children[..i + 1][..i] == children[..i];
      ZoneIsNoEntry(child);
      if ToUpper(child.name) == "VTIMEZONE" {
        zones := zones[PropRaw(child, "TZID") := child];
      } else if IsEntry(child) {
        order, groups := AddEntry(order, groups, child, entries);
        entries := entries + [child];
        keys := KeysOf(entries);
      }
    }
    assert children[..|children|] == children;
  }

  method AddEntry(order0: seq<string>, groups0: map<string, seq<Component>>, child: Component, ghost entries: seq<Component>)
    returns (order: seq<string>, groups: map<string, seq<Component>>)
    requires order0 == Order(KeysOf(entries)) && GroupsOf(groups0, entries, KeysOf(entries))
    ensures order == Order(KeysOf(entries + [child])) && GroupsOf(groups, entries + [child], KeysOf(entries + [child]))
  {
    hide Members;
    order, groups := order0, groups0;
    var key := PropRaw(child, "UID");
    if key == "" {
      key := Sentinel(|order|);
    }
    KeysOfNext(entries, child);
    Joined(groups, entries, KeysOf(entries), child, key);
    if key !in groups {
      order := order + [key];
    }
    groups := groups[key := (if key in groups then groups[key] else []) + [child]];
  }

  lemma KeysOfNext(entries: seq<Component>, child: Component)
    ensures KeysOf(entries + [child]) == KeysOf(entries) + [KeyOf(child, |Order(KeysOf(entries))|)]
    ensures forall key :: Order(KeysOf(entries) + [key]) ==
              if key in Order(KeysOf(entries)) then Order(KeysOf(entries)) else Order(KeysOf(entries)) + [key]
  {
    assert (entries + [child])[..|entries|] == entries;
    forall key
      ensures Order(KeysOf(entries) + [key]) ==
              if key in Order(KeysOf(entries)) then Order(KeysOf(entries)) else Order(KeysOf(entries)) + [key]
    {
      assert (KeysOf(entries) + [key])[..|KeysOf(entries)|] == KeysOf(entries);
    }
  }

  lemma ZoneIsNoEntry(c: Component)
    ensures IsZone(c) ==> !IsEntry(c)
  {
    assert |"VTIMEZONE"| == 9;
  }

  method Cut(cal: Component, members: seq<Component>, zones: map<string, Component>) returns (out: Component)
    ensures Resource(cal, out, members, zones)
  {
    var used := TimezonesUsedBy(members);
    var children: seq<Component> := [];
    ghost var ids: seq<string> := [];
    for i := 0 to |used|
      invariant Distinct(ids) && forall id :: id in ids <==> id in used[..i] && id in zones
      invariant children == Defs(zones, ids)
    {
      assert used[..i + 1] == used[..i] + [used[i]];
      if used[i] in zones {
        children := children + [zones[used[i]]];
        ids := ids + [used[i]];
      }
    }
    assert used[..|used|] == used;
    assert CarriedZones(ids, members, zones);
    out := Component(cal.name, cal.props, children + members);
  }

  lemma OrderHas(keys: seq<string>, k: string)
    ensures k in Order(keys) <==> k in keys
    ensures Distinct(Order(keys))
  {
    if keys != [] {
      OrderHas(keys[..|keys| - 1], k);
      assert keys == keys[..|keys| - 1] + [keys[|keys| - 1]];
    }
  }

  lemma NoMembers(entries: seq<Component>, keys: seq<string>, key: string)
    requires |keys| == |entries| && key !in keys
    ensures Members(entries, keys, key) == []
  {
    if entries != [] {
      NoMembers(entries[..|entries| - 1], keys[..|keys| - 1], key);
    }
  }

  lemma MembersNext(entries: seq<Component>, keys: seq<string>, child: Component, key: string, k: string)
    requires |keys| == |entries|
    ensures Members(entries + [child], keys + [key], k) == Members(entries, keys, k) + if k == key then [child] else []
  {
    assert (entries + [child])[..|entries|] == entries && (keys + [key])[..|keys|] == keys;
  }

  lemma Joined(groups: map<string, seq<Component>>, entries: seq<Component>, keys: seq<string>, child: Component, key: string)
    requires GroupsOf(groups, entries, keys)
    ensures key in groups <==> key in Order(keys)
    ensures GroupsOf(groups[key := (if key in groups then groups[key] else []) + [child]], entries + [child], keys + [key])
  {
    hide Order, Members;
    OrderHas(keys, key);
    OrderHas(keys + [key], key);
    forall k
      ensures k in Order(keys) <==> k in keys
      ensures k in Order(keys + [key]) <==> k in keys || k == key
      ensures Members(entries + [child], keys + [key], k) == Members(entries, keys, k) + if k == key then [child] else []
    {
      OrderHas(keys, k);
      OrderHas(keys + [key], k);
      MembersNext(entries, keys, child, key, k);
    }
    if key !in groups {
      NoMembers(entries, keys, key);
    }
  }

  /* ---- Nothing is lost, nothing is doubled, nothing is reordered ---- */

  function Sum(entries: seq<Component>, keys: seq<string>, order: seq<string>): multiset<Component>
    requires |keys| == |entries|
  {
    if order == [] then multiset{}
    else Sum(entries, keys, order[..|order| - 1]) + multiset(Members(entries, keys, order[|order| - 1]))
  }

  lemma MembersOfOneMore(entries: seq<Component>, keys: seq<string>, key: string)
    requires |keys| == |entries| > 0
    ensures var n := |entries| - 1;
            multiset(Members(entries, keys, key)) ==
            multiset(Members(entries[..n], keys[..n], key)) + if keys[n] == key then multiset{entries[n]} else multiset{}
  {
  }

  lemma LastOrBefore(order: seq<string>, key: string)
    requires order != [] && Distinct(order)
    ensures key in order <==> key in order[..|order| - 1] || key == order[|order| - 1]
    ensures key == order[|order| - 1] ==> key !in order[..|order| - 1]
  {
    assert order == order[..|order| - 1] + [order[|order| - 1]];
  }

  lemma MovedOut(a: multiset<Component>, b: multiset<Component>, c: Component, inA: bool, inB: bool)
    requires !(inA && inB)
    ensures (a + if inA then multiset{c} else multiset{}) + (b + if inB then multiset{c} else multiset{})
         == a + b + if inA || inB then multiset{c} else multiset{}
  {
  }

  lemma {:induction false} SumWithOneMore(entries: seq<Component>, keys: seq<string>, order: seq<string>)
    requires |keys| == |entries| > 0 && Distinct(order)
    ensures var n := |entries| - 1;
            Sum(entries, keys, order) ==
            Sum(entries[..n], keys[..n], order) + if keys[n] in order then multiset{entries[n]} else multiset{}
  {
    if order != [] {
      hide Members;
      var init, last, n := order[..|order| - 1], order[|order| - 1], |entries| - 1;
      SumWithOneMore(entries, keys, init);
      MembersOfOneMore(entries, keys, last);
      LastOrBefore(order, keys[n]);
      MovedOut(Sum(entries[..n], keys[..n], init), multiset(Members(entries[..n], keys[..n], last)), entries[n],
               keys[n] in init, keys[n] == last);
    }
  }

  // The groups partition the entries.
  lemma {:induction false} GroupsPartition(entries: seq<Component>, keys: seq<string>, order: seq<string>)
    requires |keys| == |entries| && Distinct(order) && forall k :: k in keys ==> k in order
    ensures Sum(entries, keys, order) == multiset(entries)
  {
    if entries == [] {
      SumOfNothing(order);
    } else {
      var n := |entries| - 1;
      GroupsPartition(entries[..n], keys[..n], order);
      SumWithOneMore(entries, keys, order);
      assert entries == entries[..n] + [entries[n]];
      assert keys[n] in keys;
    }
  }

  lemma {:induction false} SumOfNothing(order: seq<string>)
    ensures Sum([], [], order) == multiset{}
  {
    if order != [] {
      SumOfNothing(order[..|order| - 1]);
    }
  }

  function EntriesOf(out: seq<Component>): multiset<Component> {
    if out == [] then multiset{} else EntriesOf(out[..|out| - 1]) + multiset(Entries(out[|out| - 1].children))
  }

  lemma {:induction false} EntriesJoin(a: seq<Component>, b: seq<Component>)
    ensures Entries(a + b) == Entries(a) + Entries(b)
    decreases |b|
  {
    if b == [] {
      assert a + b == a;
    } else {
      assert (a + b)[..|a + b| - 1] == a + b[..|b| - 1];
      EntriesJoin(a, b[..|b| - 1]);
    }
  }

  lemma {:induction false} AllEntries(comps: seq<Component>)
    requires forall c :: c in comps ==> IsEntry(c)
    ensures Entries(comps) == comps
  {
    if comps != [] {
      AllEntries(comps[..|comps| - 1]);
      assert comps == comps[..|comps| - 1] + [comps[|comps| - 1]];
    }
  }

  lemma {:induction false} ZonesAreZones(children: seq<Component>)
    ensures forall id :: id in Zones(children) ==> IsZone(Zones(children)[id]) && Zones(children)[id] in children
                                                   && PropRaw(Zones(children)[id], "TZID") == id
    ensures forall c :: c in children && IsZone(c) ==> PropRaw(c, "TZID") in Zones(children)
  {
    hide ToUpper, PropRaw;
    if children != [] {
      ZonesAreZones(children[..|children| - 1]);
      assert children == children[..|children| - 1] + [children[|children| - 1]];
    }
  }

  lemma {:induction false} DefsAreNoEntries(zones: map<string, Component>, ids: seq<string>)
    requires forall id :: id in ids ==> id in zones && IsZone(zones[id])
    ensures Entries(Defs(zones, ids)) == []
    ensures forall c :: c in Defs(zones, ids) <==> exists id :: id in ids && zones[id] == c
  {
    if ids != [] {
      var init, last := ids[..|ids| - 1], ids[|ids| - 1];
      assert ids == init + [last];
      DefsAreNoEntries(zones, init);
      ZoneIsNoEntry(zones[last]);
      assert Defs(zones, ids)[..|Defs(zones, ids)| - 1] == Defs(zones, init);
    }
  }

  lemma {:induction false} MembersAreEntries(entries: seq<Component>, keys: seq<string>, key: string)
    requires |keys| == |entries|
    ensures forall c :: c in Members(entries, keys, key) ==> c in entries
  {
    if entries != [] {
      MembersAreEntries(entries[..|entries| - 1], keys[..|keys| - 1], key);
    }
  }

  lemma {:induction false} EntriesAreEntries(children: seq<Component>)
    ensures forall c :: c in Entries(children) ==> IsEntry(c)
  {
    if children != [] {
      EntriesAreEntries(children[..|children| - 1]);
    }
  }

  // One resource holds exactly its group, in order, and of the zones exactly those that
  // are defined and named somewhere in it.
  lemma ResourceHolds(cal: Component, out: Component, key: string)
    requires Resource(cal, out, Members(Entries(cal.children), KeysOf(Entries(cal.children)), key), Zones(cal.children))
    ensures var members := Members(Entries(cal.children), KeysOf(Entries(cal.children)), key);
            && Entries(out.children) == members
            && forall z :: z in out.children && IsZone(z) <==>
                 PropRaw(z, "TZID") in ZonesUsed(members) && PropRaw(z, "TZID") in Zones(cal.children)
                 && z == Zones(cal.children)[PropRaw(z, "TZID")]
  {
    var entries, zones := Entries(cal.children), Zones(cal.children);
    var members := Members(entries, KeysOf(entries), key);
    var ids: seq<string> :| CarriedZones(ids, members, zones) && out.children == Defs(zones, ids) + members;
    hide ToUpper, PropRaw, ZonesUsed, Members, Entries, Zones, KeysOf;
    ZonesAreZones(cal.children);
    DefsAreNoEntries(zones, ids);
    MembersAreEntries(entries, KeysOf(entries), key);
    EntriesAreEntries(cal.children);
    AllEntries(members);
    EntriesJoin(Defs(zones, ids), members);
    forall z
      ensures z in members ==> !IsZone(z)
    {
      ZoneIsNoEntry(z);
    }
  }

  lemma {:induction false} ResourcesSum(cal: Component, out: seq<Component>, order: seq<string>)
    requires |out| == |order|
    requires forall j :: 0 <= j < |order| ==>
               Resource(cal, out[j], Members(Entries(cal.children), KeysOf(Entries(cal.children)), order[j]), Zones(cal.children))
    ensures EntriesOf(out) == Sum(Entries(cal.children), KeysOf(Entries(cal.children)), order)
    decreases |order|
  {
    hide Members, KeysOf, Zones, Entries, Resource;
    if order != [] {
      var n := |order| - 1;
      ResourcesSum(cal, out[..n], order[..n]);
      ResourceHolds(cal, out[n], order[n]);
    }
  }

  // The resources together hold every entry once.
  lemma NothingLostNorDoubled(cal: Component, out: seq<Component>)
    requires var order := Order(KeysOf(Entries(cal.children)));
             |out| == |order| && forall j :: 0 <= j < |order| ==>
               Resource(cal, out[j], Members(Entries(cal.children), KeysOf(Entries(cal.children)), order[j]), Zones(cal.children))
    ensures EntriesOf(out) == multiset(Entries(cal.children))
  {
    hide Members, Zones, Entries, Resource;
    var entries := Entries(cal.children);
    var keys := KeysOf(entries);
    ResourcesSum(cal, out, Order(keys));
    forall k | k in keys
      ensures k in Order(keys)
    {
      OrderHas(keys, k);
    }
    OrderHas(keys, "");
    GroupsPartition(entries, keys, Order(keys));
  }

  /* ---- Who shares a resource with whom ---- */

  function Uid(entries: seq<Component>, i: nat): string
    requires i < |entries|
  {
    PropRaw(entries[i], "UID")
  }

  // How many groups there were when the entry `i` came.
  function GroupsAt(entries: seq<Component>, i: nat): nat
    requires i < |entries|
  {
    |Order(KeysOf(entries[..i]))|
  }

  lemma {:induction false} KeyAt(entries: seq<Component>, i: nat)
    requires i < |entries|
    ensures KeysOf(entries)[i] == KeyOf(entries[i], GroupsAt(entries, i))
    ensures KeysOf(entries)[..i] == KeysOf(entries[..i])
  {
    hide KeyOf;
    var n := |entries| - 1;
    if i < n {
      KeyAt(entries[..n], i);
      assert entries[..n][..i] == entries[..i];
      assert KeysOf(entries)[..i] == KeysOf(entries[..n])[..i];
    }
  }

  // Two entries are in one resource just when they share a UID.
  ghost predicate SharesByUid(entries: seq<Component>) {
    forall i, j :: 0 <= i < j < |entries| ==>
      (KeysOf(entries)[i] == KeysOf(entries)[j] <==> Uid(entries, i) != "" && Uid(entries, i) == Uid(entries, j))
  }

  // No entry's UID is the name made up for an entry without one.
  ghost predicate NoClash(entries: seq<Component>) {
    forall i, j :: 0 <= i < |entries| && 0 <= j < |entries| && Uid(entries, i) == "" ==> Uid(entries, j) != Sentinel(GroupsAt(entries, i))
  }

  lemma OrderGrows(keys: seq<string>, key: string)
    ensures |Order(keys + [key])| == |Order(keys)| + if key in keys then 0 else 1
  {
    assert (keys + [key])[..|keys|] == keys;
    OrderHas(keys, key);
  }

  lemma {:induction false} OrderNeverShrinks(keys: seq<string>, n: nat)
    requires n <= |keys|
    ensures |Order(keys[..n])| <= |Order(keys)|
    decreases |keys|
  {
    if n < |keys| {
      var init := keys[..|keys| - 1];
      OrderNeverShrinks(init, n);
      assert init[..n] == keys[..n];
    } else {
      assert keys[..n] == keys;
    }
  }

  lemma GroupsGrow(entries: seq<Component>, i: nat, j: nat)
    requires i < j < |entries| && KeysOf(entries)[i] !in KeysOf(entries)[..i]
    ensures GroupsAt(entries, i) < GroupsAt(entries, j)
  {
    hide KeysOf, Order;
    var keys := KeysOf(entries);
    KeyAt(entries, i);
    KeyAt(entries, j);
    OrderGrows(keys[..i], keys[i]);
    assert keys[..i + 1] == keys[..i] + [keys[i]];
    OrderNeverShrinks(keys[..j], i + 1);
    assert keys[..j][..i + 1] == keys[..i + 1];
  }

  // Without a clash each entry with no UID opens a group of its own.
  lemma {:induction false} NamelessIsNew(entries: seq<Component>, i: nat)
    requires NoClash(entries) && i < |entries| && Uid(entries, i) == ""
    ensures KeysOf(entries)[i] !in KeysOf(entries)[..i]
    decreases i
  {
    hide KeysOf, PropRaw;
    var keys := KeysOf(entries);
    KeyAt(entries, i);
    forall k | 0 <= k < i
      ensures keys[k] != keys[i]
    {
      KeyAt(entries, k);
      if Uid(entries, k) == "" {
        NamelessIsNew(entries, k);
        GroupsGrow(entries, k, i);
        if keys[k] == keys[i] {
          SentinelTells(GroupsAt(entries, k), GroupsAt(entries, i));
        }
      }
    }
  }

  lemma SharesByUidExactly(entries: seq<Component>)
    ensures SharesByUid(entries) <==> NoClash(entries)
  {
    if NoClash(entries) {
      forall i, j | 0 <= i < j < |entries|
        ensures KeysOf(entries)[i] == KeysOf(entries)[j] <==> Uid(entries, i) != "" && Uid(entries, i) == Uid(entries, j)
      {
        KeyAt(entries, i);
        KeyAt(entries, j);
        if Uid(entries, i) == "" && Uid(entries, j) == "" {
          NamelessIsNew(entries, j);
          assert KeysOf(entries)[i] == KeysOf(entries)[..j][i];
        }
      }
    }
    if SharesByUid(entries) {
      forall i, j | 0 <= i < |entries| && 0 <= j < |entries| && Uid(entries, i) == ""
        ensures Uid(entries, j) != Sentinel(GroupsAt(entries, i))
      {
        KeyAt(entries, i);
        KeyAt(entries, j);
      }
    }
  }

  // A UID that starts with no NUL is enough.
  lemma OrdinaryUidsNeverClash(entries: seq<Component>)
    requires forall i :: 0 <= i < |entries| ==> !(NO_UID <= Uid(entries, i))
    ensures NoClash(entries)
  {
    forall i, j | 0 <= i < |entries| && 0 <= j < |entries| && Uid(entries, i) == ""
      ensures Uid(entries, j) != Sentinel(GroupsAt(entries, i))
    {
      assert NO_UID <= Sentinel(GroupsAt(entries, i));
    }
  }

  // It does happen: a first entry that is named what a second one without a name is given.
  // The two end up as one group, and the calendar is not split.
  lemma MadeUpNameClashes() returns (entries: seq<Component>)
    ensures entries == [Component("VEVENT", map["UID" := [Value("\U{0000}no-uid-1", map[], "")]], []), Component("VEVENT", map[], [])]
    ensures Uid(entries, 0) != Uid(entries, 1) == ""
    ensures KeysOf(entries) == [Uid(entries, 0), Uid(entries, 0)] && Order(KeysOf(entries)) == [Uid(entries, 0)]
    ensures !SharesByUid(entries)
  {
    var named := Component("VEVENT", map["UID" := [Value("\U{0000}no-uid-1", map[], "")]], []);
    var nameless := Component("VEVENT", map[], []);
    entries := [named, nameless];
    var uid := PropRaw(named, "UID");
    assert uid == "\U{0000}no-uid-1" == Sentinel(1) && PropRaw(nameless, "UID") == "";
    hide Sentinel, PropRaw;
    TwoKeys(named, nameless);
    OneGroup(uid);
  }

  lemma TwoKeys(a: Component, b: Component)
    requires PropRaw(a, "UID") == Sentinel(1) && PropRaw(b, "UID") == ""
    ensures KeysOf([a, b]) == [Sentinel(1), Sentinel(1)]
  {
    hide PropRaw;
    SentinelNamed(1);
    hide Sentinel;
    assert [a, b][..1] == [a] && [a][..0] == [];
    assert KeysOf([]) == [] && KeysOf([a]) == [Sentinel(1)];
    assert [Sentinel(1)][..0] == [] && Order([]) == [] && Order([Sentinel(1)]) == [Sentinel(1)];
  }

  lemma SentinelNamed(n: nat)
    ensures Sentinel(n) != ""
  {
  }

  lemma OneGroup(key: string)
    ensures Order([key, key]) == [key]
  {
    assert [key, key][..1] == [key] && [key][..0] == [] && Order([key]) == [key];
  }

  /* ---- The lists and the zones, without the loops ---- */

  // `kept` is what stands in `all` at the places `at`, in order.
  ghost predicate Picked<T>(all: seq<T>, kept: seq<T>, at: seq<nat>) {
    && |at| == |kept|
    && (forall i :: 0 <= i < |at| ==> at[i] < |all| && kept[i] == all[at[i]])
    && (forall i, j :: 0 <= i < j < |at| ==> at[i] < at[j])
  }

  lemma PickedNext<T>(all: seq<T>, kept: seq<T>, at: seq<nat>, x: T)
    requires Picked(all, kept, at)
    ensures Picked(all + [x], kept, at) && Picked(all + [x], kept + [x], at + [|all|])
  {
  }

  // The entries are the events, tasks and journals, in order.
  lemma {:induction false} EntriesExactly(children: seq<Component>) returns (at: seq<nat>)
    ensures Picked(children, Entries(children), at)
    ensures forall k :: 0 <= k < |children| ==> (k in at <==> ToUpper(children[k].name) in {"VEVENT", "VTODO", "VJOURNAL"})
  {
    hide ToUpper;
    at := [];
    if children != [] {
      var init, last := children[..|children| - 1], children[|children| - 1];
      at := EntriesExactly(init);
      PickedNext(init, Entries(init), at, last);
      assert children == init + [last] && |init| !in at;
      if IsEntry(last) {
        at := at + [|init|];
      } else {
        assert Entries(children) == Entries(init);
      }
    }
  }

  // The members of a group are the entries of its key, in order.
  lemma {:induction false} MembersExactly(entries: seq<Component>, keys: seq<string>, key: string) returns (at: seq<nat>)
    requires |keys| == |entries|
    ensures Picked(entries, Members(entries, keys, key), at)
    ensures forall k :: 0 <= k < |entries| ==> (k in at <==> keys[k] == key)
  {
    at := [];
    if entries != [] {
      var n := |entries| - 1;
      var init, last := entries[..n], entries[n];
      at := MembersExactly(init, keys[..n], key);
      PickedNext(init, Members(init, keys[..n], key), at, last);
      assert entries == init + [last] && n !in at;
      if keys[n] == key {
        at := at + [n];
      } else {
        assert Members(entries, keys, key) == Members(init, keys[..n], key);
      }
    }
  }

  // The groups come in the order of their first entries.
  lemma {:induction false} OrderExactly(keys: seq<string>) returns (at: seq<nat>)
    ensures Picked(keys, Order(keys), at)
    ensures forall k :: 0 <= k < |keys| ==> (k in at <==> keys[k] !in keys[..k])
  {
    at := [];
    if keys != [] {
      var n := |keys| - 1;
      var init, last := keys[..n], keys[n];
      at := OrderExactly(init);
      PickedNext(init, Order(init), at, last);
      assert keys == init + [last] && n !in at && forall k :: 0 <= k < n ==> init[..k] == keys[..k] && init[k] == keys[k];
      OrderHas(init, last);
      if last !in init {
        at := at + [n];
      }
    }
  }

  // A zone name stands for the last definition that has it.
  lemma {:induction false} ZonesExactly(children: seq<Component>, id: string)
    ensures id in Zones(children) <==> exists k :: 0 <= k < |children| && DefinesZone(children[k], id)
    ensures id in Zones(children) ==> exists k ::
              && 0 <= k < |children| && DefinesZone(children[k], id) && Zones(children)[id] == children[k]
              && forall j :: k < j < |children| ==> !DefinesZone(children[j], id)
  {
    hide DefinesZone;
    if children != [] {
      var n := |children| - 1;
      ZonesExactly(children[..n], id);
      ZonesNext(children, id);
      if DefinesZone(children[n], id) {
        assert Zones(children)[id] == children[n];
      } else if id in Zones(children[..n]) {
        var k :| 0 <= k < n && DefinesZone(children[..n][k], id) && Zones(children[..n])[id] == children[..n][k]
                 && forall j :: k < j < n ==> !DefinesZone(children[..n][j], id);
        assert children[k] == children[..n][k];
        forall j | k < j < |children|
          ensures !DefinesZone(children[j], id)
        {
          assert j < n ==> children[j] == children[..n][j];
        }
      }
    }
  }

  lemma ZonesNext(children: seq<Component>, id: string)
    requires children != []
    ensures var n := |children| - 1;
            && (DefinesZone(children[n], id) ==> id in Zones(children) && Zones(children)[id] == children[n])
            && (!DefinesZone(children[n], id) ==>
                  && (id in Zones(children) <==> id in Zones(children[..n]))
                  && (id in Zones(children) ==> Zones(children)[id] == Zones(children[..n])[id]))
  {
    hide ToUpper, PropRaw;
  }

  predicate DefinesZone(c: Component, id: string) {
    ToUpper(c.name) == "VTIMEZONE" && PropRaw(c, "TZID") == id
  }

  // The component names the zone itself, in a parameter of one of its properties.
  ghost predicate NamesItself(c: Component, z: string) {
    z != "" && exists n, k :: n in c.props && 0 <= k < |c.props[n]| && NamedBy(c.props[n][k], z)
  }

  predicate NamedBy(v: Value, z: string) {
    "TZID" in v.params && v.params["TZID"] != [] && v.params["TZID"][0] == z
  }

  // It is named by the component that `path` leads to from one of these, however deep.
  ghost predicate NamedAlong(comps: seq<Component>, path: seq<nat>, z: string) {
    && path != [] && path[0] < |comps|
    && if |path| == 1 then NamesItself(comps[path[0]], z) else NamedAlong(comps[path[0]].children, path[1..], z)
  }

  lemma ZonesUsedExactly(comps: seq<Component>, z: string)
    ensures z in ZonesUsed(comps) <==> exists path :: NamedAlong(comps, path, z)
  {
    if z in ZonesUsed(comps) {
      var path := PathTo(comps, z);
    }
    if path :| NamedAlong(comps, path, z) {
      PathLeads(comps, path, z);
    }
  }

  lemma {:induction false} PathTo(comps: seq<Component>, z: string) returns (path: seq<nat>)
    requires z in ZonesUsed(comps)
    ensures NamedAlong(comps, path, z)
    decreases comps
  {
    hide NamesItself, ZonesOfTree;
    var n := |comps| - 1;
    TreeZones(comps[n], z);
    if z in ZonesUsed(comps[..n]) {
      path := PathTo(comps[..n], z);
      assert comps[..n][path[0]] == comps[path[0]];
    } else if NamesItself(comps[n], z) {
      path := [n];
    } else {
      var rest := PathTo(comps[n].children, z);
      path := [n] + rest;
      assert path[1..] == rest;
    }
  }

  lemma {:induction false} PathLeads(comps: seq<Component>, path: seq<nat>, z: string)
    requires NamedAlong(comps, path, z)
    ensures z in ZonesUsed(comps)
    decreases comps
  {
    hide NamesItself, ZonesOfTree;
    var n := |comps| - 1;
    TreeZones(comps[n], z);
    if path[0] < n {
      assert comps[..n][path[0]] == comps[path[0]];
      PathLeads(comps[..n], path, z);
    } else if |path| > 1 {
      PathLeads(comps[n].children, path[1..], z);
    }
  }

  lemma TreeZones(c: Component, z: string)
    ensures z in ZonesOfTree(c) <==> NamesItself(c, z) || z in ZonesUsed(c.children)
  {
    if NamesItself(c, z) {
      var n, k :| n in c.props && 0 <= k < |c.props[n]| && NamedBy(c.props[n][k], z);
      assert c.props[n][k] in c.props[n] && z in ZonesIn(c.props[n]);
    }
    if n :| n in c.props && z in ZonesIn(c.props[n]) {
      var v :| v in c.props[n] && ZoneOf(v) == z && z != "";
      var k :| 0 <= k < |c.props[n]| && c.props[n][k] == v;
      assert NamedBy(c.props[n][k], z);
    }
  }
}
