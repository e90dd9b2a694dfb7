// Several cards made one by an edit of the target, and what that edit keeps, adds and
// misses (internal/merge/vcard.go). How two values are compared is a parameter: everything
// here holds for every way of folding a property's text.
module MergedPatches {
  import opened GoText
  import opened Ordering
  import opened Patches

  type Fold = (string, string) -> string

  const REPEATABLE: set<string> := {"TEL", "EMAIL", "ADR", "URL", "IMPP", "RELATED", "MEMBER", "LANG"}
  const SERVER: set<string> := {"VERSION", "UID", "PRODID", "REV"}

  // What a value is compared by; "" for one that is blank and not kept.
  function KeyOf(fold: Fold, name: string, v: Value): string {
    var text := TrimSpace(v.text);
    if text == "" then "" else fold(name, text)
  }

  function KeysOf(fold: Fold, name: string, values: seq<Value>): set<string> {
    set v | v in values && KeyOf(fold, name, v) != "" :: KeyOf(fold, name, v)
  }

  // The values whose keys have not been seen before them.
  function Dedupe(fold: Fold, name: string, values: seq<Value>, seen: set<string>): seq<Value> {
    if values == [] then []
    else
      var k := KeyOf(fold, name, values[0]);
      if k == "" || k in seen then Dedupe(fold, name, values[1..], seen)
      else [values[0]] + Dedupe(fold, name, values[1..], seen + {k})
  }

  lemma KeysNone(fold: Fold, name: string)
    ensures KeysOf(fold, name, []) == {}
  {
  }

  lemma KeysCons(fold: Fold, name: string, a: seq<Value>)
    requires a != []
    ensures KeysOf(fold, name, a) ==
            KeysOf(fold, name, a[1..]) + if KeyOf(fold, name, a[0]) == "" then {} else {KeyOf(fold, name, a[0])}
  {
    hide KeyOf;
    assert a == [a[0]] + a[1..];
  }

  lemma KeysSnoc(fold: Fold, name: string, a: seq<Value>, v: Value)
    ensures KeysOf(fold, name, a + [v]) ==
            KeysOf(fold, name, a) + if KeyOf(fold, name, v) == "" then {} else {KeyOf(fold, name, v)}
  {
    hide KeyOf;
  }

  method DedupeValues(fold: Fold, name: string, base: seq<Value>, incoming: seq<Value>) returns (out: seq<Value>)
    ensures out == Dedupe(fold, name, base + incoming, {})
  {
    hide KeyOf, KeysOf, Dedupe;
    var seen: set<string>;
    out, seen := DedupeInto(fold, name, base, [], {});
    DedupeJoin(fold, name, base, incoming, {});
    out, seen := DedupeInto(fold, name, incoming, out, seen);
  }

  method DedupeInto(fold: Fold, name: string, values: seq<Value>, out0: seq<Value>, seen0: set<string>)
    returns (out: seq<Value>, seen: set<string>)
    ensures out == out0 + Dedupe(fold, name, values, seen0) && seen == seen0 + KeysOf(fold, name, values)
  {
    hide KeyOf, KeysOf;
    out, seen := out0, seen0;
    KeysNone(fold, name);
    assert values[0..] == values;
    for i := 0 to |values|
      invariant out + Dedupe(fold, name, values[i..], seen) == out0 + Dedupe(fold, name, values, seen0)
      invariant seen == seen0 + KeysOf(fold, name, values[..i])
    {
      hide Dedupe;
      DedupeAt(fold, name, values, i, seen);
      assert KeyOf(fold, name, values[i]) in seen ==> seen + {KeyOf(fold, name, values[i])} == seen;
      KeysSnoc(fold, name, values[..i], values[i]);
      assert values[..i + 1] == values[..i] + [values[i]];
      out, seen := DedupeOne(fold, name, values[i], out, seen);
    }
    assert values[..|values|] == values && values[|values|..] == [];
  }

  method DedupeOne(fold: Fold, name: string, v: Value, out0: seq<Value>, seen0: set<string>)
    returns (out: seq<Value>, seen: set<string>)
    ensures var k := KeyOf(fold, name, v);
            if k == "" || k in seen0 then out == out0 && seen == seen0
            else out == out0 + [v] && seen == seen0 + {k}
  {
    out, seen := out0, seen0;
    var text := TrimSpace(v.text);
    if text == "" {
      return;
    }
    var folded := fold(name, text);
    if folded == "" || folded in seen {
      return;
    }
    seen := seen + {folded};
    out := out + [v];
  }

  lemma DedupeAt(fold: Fold, name: string, values: seq<Value>, i: nat, seen: set<string>)
    requires i < |values|
    ensures var k := KeyOf(fold, name, values[i]);
            Dedupe(fold, name, values[i..], seen) ==
            if k == "" || k in seen then Dedupe(fold, name, values[i + 1..], seen)
            else [values[i]] + Dedupe(fold, name, values[i + 1..], seen + {k})
  {
    hide KeyOf;
    assert values[i..][1..] == values[i + 1..];
  }

  lemma {:induction false} DedupeJoin(fold: Fold, name: string, a: seq<Value>, b: seq<Value>, seen: set<string>)
    ensures Dedupe(fold, name, a + b, seen) == Dedupe(fold, name, a, seen) + Dedupe(fold, name, b, seen + KeysOf(fold, name, a))
  {
    hide KeyOf, KeysOf;
    if a == [] {
      KeysNone(fold, name);
      assert a + b == b && seen + {} == seen;
    } else {
      var k := KeyOf(fold, name, a[0]);
      assert (a + b)[1..] == a[1..] + b && (a + b)[0] == a[0];
      KeysCons(fold, name, a);
      if k == "" || k in seen {
        DedupeJoin(fold, name, a[1..], b, seen);
        assert seen + KeysOf(fold, name, a) == seen + KeysOf(fold, name, a[1..]);
      } else {
        DedupeJoin(fold, name, a[1..], b, seen + {k});
        assert seen + KeysOf(fold, name, a) == seen + {k} + KeysOf(fold, name, a[1..]);
      }
    }
  }

  // One value per key, and every key that was not seen.
  lemma {:induction false} DedupeKeys(fold: Fold, name: string, values: seq<Value>, seen: set<string>)
    ensures KeysOf(fold, name, Dedupe(fold, name, values, seen)) == KeysOf(fold, name, values) - seen
    ensures |Dedupe(fold, name, values, seen)| == |KeysOf(fold, name, values) - seen|
  {
    hide KeyOf, KeysOf;
    if values == [] {
      KeysNone(fold, name);
    } else {
      var k := KeyOf(fold, name, values[0]);
      KeysCons(fold, name, values);
      if k == "" || k in seen {
        DedupeKeys(fold, name, values[1..], seen);
        assert KeysOf(fold, name, values) - seen == KeysOf(fold, name, values[1..]) - seen;
      } else {
        var rest := Dedupe(fold, name, values[1..], seen + {k});
        DedupeKeys(fold, name, values[1..], seen + {k});
        KeysCons(fold, name, [values[0]] + rest);
        assert ([values[0]] + rest)[1..] == rest;
        assert KeysOf(fold, name, values) - seen == (KeysOf(fold, name, values[1..]) - (seen + {k})) + {k};
      }
    }
  }

  // Deduplicated values stay as they are.
  lemma {:induction false} DedupeTwice(fold: Fold, name: string, values: seq<Value>, seen: set<string>)
    ensures Dedupe(fold, name, Dedupe(fold, name, values, seen), seen) == Dedupe(fold, name, values, seen)
  {
    if values != [] {
      var k := KeyOf(fold, name, values[0]);
      if k == "" || k in seen {
        DedupeTwice(fold, name, values[1..], seen);
      } else {
        DedupeTwice(fold, name, values[1..], seen + {k});
        var rest := Dedupe(fold, name, values[1..], seen + {k});
        assert ([values[0]] + rest)[1..] == rest;
      }
    }
  }

  lemma {:induction false} DedupeNothing(fold: Fold, name: string, values: seq<Value>, seen: set<string>)
    requires KeysOf(fold, name, values) <= seen
    ensures Dedupe(fold, name, values, seen) == []
  {
    DedupeKeys(fold, name, values, seen);
    assert KeysOf(fold, name, values) - seen == {};
  }

  /* ---- The patch ---- */

  function Collect(others: seq<Payload>, name: string): seq<Value> {
    if others == [] then [] else Collect(others[..|others| - 1], name) + Property(others[|others| - 1], name)
  }

  // What the merge writes for one name, if anything.
  function Merged(fold: Fold, target: Payload, others: seq<Payload>, name: string): Option<seq<Value>> {
    var existing := Property(target, name);
    if existing == [] then
      var values := Dedupe(fold, name, Collect(others, name), {});
      if values == [] then None else Some(values)
    else if name in REPEATABLE then
      var values := Dedupe(fold, name, existing + Collect(others, name), {});
      if |values| == |existing| then None else Some(values)
    else None
  }

  function OpsOf(fold: Fold, target: Payload, others: seq<Payload>, names: seq<string>): Patch {
    if names == [] then []
    else
      var init, last := names[..|names| - 1], names[|names| - 1];
      OpsOf(fold, target, others, init)
      + match Merged(fold, target, others, last) case None => [] case Some(values) => [Set(last, values)]
  }

  function NamesOf(p: Payload): set<string> {
    match PropsOf(p) case None => {} case Some(props) => props.Keys
  }

  ghost predicate MergeNames(others: seq<Payload>, names: seq<string>) {
    && Sorted(names, TextLeq) && Distinct(names)
    && forall n :: n in names <==> n !in SERVER && exists i :: 0 <= i < |others| && n in NamesOf(others[i])
  }

  datatype Outcome = Refused | Patched(patch: Patch, added: seq<string>)

  method MergedPatch(fold: Fold, target: Option<Payload>, others: seq<Option<Payload>>) returns (r: Outcome)
    ensures r == Refused <==> target == None || !target.value.VCard? || exists o :: o in others && (o == None || !o.value.VCard?)
    ensures r != Refused ==> exists names ::
              && MergeNames(Payloads(others), names)
              && r.patch == OpsOf(fold, target.value, Payloads(others), names)
    ensures r != Refused ==> NamesThem(r.added, r.patch)
  {
    if target == None || !target.value.VCard? {
      return Refused;
    }
    hide NamesOf, OpsOf, Gathered;
    var names: seq<string> := [];
    var cards: seq<Payload> := [];
    GatheredNothing();
    for i := 0 to |others|
      invariant forall j :: 0 <= j < i ==> others[j] != None && others[j].value.VCard?
      invariant cards == Payloads(others[..i])
      invariant Distinct(names) && Gathered(cards, names)
    {
      if others[i] == None || !others[i].value.VCard? {
        assert others[i] in others;
        return Refused;
      }
      assert others[..i + 1][..i] == others[..i];
      names := GatherNames(NamesOf(others[i].value), cards, others[i].value, names);
      cards := cards + [others[i].value];
    }
    assert others[..|others|] == others;
    SortedNames(cards, names);
    names := StableSort(names, TextLeq);
    var patch, added := WriteOps(fold, target.value, cards, names);
    return Patched(patch, added);
  }

  lemma GatheredNothing()
    ensures Gathered([], [])
  {
  }

  lemma SortedNames(cards: seq<Payload>, names: seq<string>)
    requires Distinct(names) && Gathered(cards, names)
    ensures MergeNames(cards, StableSort(names, TextLeq))
  {
    TextOrder();
    SortSorts(names, TextLeq);
    SortKeepsDistinct(names, TextLeq);
  }

  ghost predicate NamesThem(added: seq<string>, patch: Patch) {
    |added| == |patch| && forall i :: 0 <= i < |added| ==> patch[i].name == added[i]
  }

  lemma NamesThemToo(added: seq<string>, patch: Patch, name: string, values: seq<Value>)
    requires NamesThem(added, patch)
    ensures NamesThem(added + [name], patch + [Set(name, values)])
  {
  }

  method WriteOps(fold: Fold, target: Payload, cards: seq<Payload>, names: seq<string>)
    returns (patch: Patch, added: seq<string>)
    ensures patch == OpsOf(fold, target, cards, names) && NamesThem(added, patch)
  {
    patch, added := [], [];
    OpsOfNone(fold, target, cards);
    for i := 0 to |names|
      invariant patch == OpsOf(fold, target, cards, names[..i]) && NamesThem(added, patch)
    {
      hide Merged, OpsOf, NamesThem;
      OpsOfNext(fold, target, cards, names, i);
      var values := MergeOne(fold, target, cards, names[i]);
      if values.Some? {
        NamesThemToo(added, patch, names[i], values.value);
        patch, added := patch + [Set(names[i], values.value)], added + [names[i]];
      }
    }
    hide OpsOf;
    assert names[..|names|] == names;
  }

  lemma OpsOfNone(fold: Fold, target: Payload, cards: seq<Payload>)
    ensures OpsOf(fold, target, cards, []) == []
  {
  }

  lemma OpsOfNext(fold: Fold, target: Payload, cards: seq<Payload>, names: seq<string>, i: nat)
    requires i < |names|
    ensures OpsOf(fold, target, cards, names[..i + 1]) ==
            match Merged(fold, target, cards, names[i])
            case None => OpsOf(fold, target, cards, names[..i])
            case Some(values) => OpsOf(fold, target, cards, names[..i]) + [Set(names[i], values)]
  {
    hide Merged;
    assert names[..i + 1][..i] == names[..i];
    assert OpsOf(fold, target, cards, names[..i]) + [] == OpsOf(fold, target, cards, names[..i]);
  }

  method MergeOne(fold: Fold, target: Payload, cards: seq<Payload>, name: string) returns (r: Option<seq<Value>>)
    ensures r == Merged(fold, target, cards, name)
  {
    hide Dedupe, Property, Collect;
    var existing := Property(target, name);
    if |existing| == 0 {
      // Nothing to disagree with: what the others have.
      var values := DedupeValues(fold, name, [], Collect(cards, name));
      assert [] + Collect(cards, name) == Collect(cards, name);
      return if |values| == 0 then None else Some(values);
    }
    if name in REPEATABLE {
      var values := DedupeValues(fold, name, existing, Collect(cards, name));
      return if |values| == |existing| then None else Some(values);
    }
    return None;
  }

  function Payloads(others: seq<Option<Payload>>): seq<Payload> {
    if others == [] then []
    else
      var last := others[|others| - 1];
      Payloads(others[..|others| - 1]) + if last == None then [] else [last.value]
  }

  ghost predicate Gathered(cards: seq<Payload>, names: seq<string>) {
    forall n :: n in names <==> n !in SERVER && exists i :: 0 <= i < |cards| && n in NamesOf(cards[i])
  }

  method GatherNames(found: set<string>, ghost cards: seq<Payload>, ghost card: Payload, names0: seq<string>)
    returns (names: seq<string>)
    requires Distinct(names0) && Gathered(cards, names0) && found == NamesOf(card)
    ensures Distinct(names) && Gathered(cards + [card], names)
  {
    names := names0;
    var rest := found;
    while rest != {}
      invariant rest <= found && Distinct(names)
      invariant forall n :: n in names <==> n in names0 || (n !in SERVER && n in found - rest)
    {
      var n :| n in rest;
      rest := rest - {n};
      if n !in SERVER && n !in names {
        names := names + [n];
      }
    }
    forall n
      ensures n in names <==> n !in SERVER && exists i :: 0 <= i < |cards + [card]| && n in NamesOf((cards + [card])[i])
    {
      if n in found {
        assert (cards + [card])[|cards|] == card;
      }
      if i :| 0 <= i < |cards| && n in NamesOf(cards[i]) {
        assert (cards + [card])[i] == cards[i];
      }
    }
  }

  /* ---- What the patch does to the target ---- */

  // A name the parser can deliver: it is not a property name at all, or it is written
  // as patches write it.
  predicate PlainName(n: string) {
    CanonicalName(n) == None || CanonicalName(n) == Some(n)
  }

  ghost predicate PlainNames(names: seq<string>) {
    forall n :: n in names ==> PlainName(n)
  }

  lemma {:induction false} OpsAre(fold: Fold, target: Payload, others: seq<Payload>, names: seq<string>)
    ensures forall op :: op in OpsOf(fold, target, others, names) ==>
              op.Set? && op.name in names && Merged(fold, target, others, op.name) == Some(op.values)
    ensures forall n :: n in names && Merged(fold, target, others, n).Some? ==>
              Set(n, Merged(fold, target, others, n).value) in OpsOf(fold, target, others, names)
  {
    hide Merged;
    if names != [] {
      OpsAre(fold, target, others, names[..|names| - 1]);
    }
  }

  lemma {:induction false} NoValuesWithoutName(fold: Fold, others: seq<Payload>, n: string)
    requires CanonicalName(n) == None
    ensures Collect(others, n) == []
  {
    if others != [] {
      NoValuesWithoutName(fold, others[..|others| - 1], n);
    }
  }

  lemma MergedHasName(fold: Fold, target: Payload, others: seq<Payload>, n: string)
    requires Merged(fold, target, others, n).Some?
    ensures CanonicalName(n).Some?
  {
    hide CanonicalName;
    if CanonicalName(n) == None {
      NoValuesWithoutName(fold, others, n);
    }
  }

  // A repeatable property the target has, of which nobody has a usable value.
  predicate AllBlank(fold: Fold, target: Payload, others: seq<Payload>, n: string) {
    n in REPEATABLE && Property(target, n) != [] && KeysOf(fold, n, Property(target, n) + Collect(others, n)) == {}
  }

  lemma EmptyOnlyWhenBlank(fold: Fold, target: Payload, others: seq<Payload>, n: string)
    ensures Merged(fold, target, others, n) == Some([]) <==> AllBlank(fold, target, others, n)
  {
    hide Property, KeysOf;
    DedupeKeys(fold, n, Property(target, n) + Collect(others, n), {});
    assert KeysOf(fold, n, Property(target, n) + Collect(others, n)) - {} == KeysOf(fold, n, Property(target, n) + Collect(others, n));
  }

  // The patch is accepted unless some repeatable property of the target is blank
  // throughout: then it is refused whole, for carrying no value.
  lemma AcceptedExactly(fold: Fold, target: Payload, others: seq<Payload>, names: seq<string>)
    requires MergeNames(others, names) && PlainNames(names)
    ensures AllChecked(OpsOf(fold, target, others, names)) <==> forall n :: n in names ==> !AllBlank(fold, target, others, n)
  {
    hide Merged, AllBlank, CanonicalName, OpsOf;
    var ops := OpsOf(fold, target, others, names);
    OpsAre(fold, target, others, names);
    forall i | 0 <= i < |ops|
      ensures CheckOp(ops[i]) == NoError <==> !AllBlank(fold, target, others, ops[i].name)
    {
      assert ops[i] in ops;
      MergedHasName(fold, target, others, ops[i].name);
      EmptyOnlyWhenBlank(fold, target, others, ops[i].name);
      assert PlainName(ops[i].name);
    }
    forall n | n in names && AllBlank(fold, target, others, n)
      ensures !AllChecked(ops)
    {
      EmptyOnlyWhenBlank(fold, target, others, n);
      var op := Set(n, []);
      assert op in ops;
      var i :| 0 <= i < |ops| && ops[i] == op;
    }
  }

  /* ---- Cards on which the merge does less ---- */

  // A card as the parser lets it through, with these numbers.
  function NumbersCard(numbers: seq<Value>): Payload {
    VCard(Some(map["VERSION" := [Value("3.0", map[], "")], "UID" := [Value("u", map[], "")], "TEL" := numbers]))
  }

  const BLANK := Value("", map[], "")

  // Two cards whose only number is blank: the patch is refused whole.
  lemma BlankNumbersAreRefused(fold: Fold)
    ensures var card := NumbersCard([BLANK]);
            MergeNames([card], ["TEL"]) && !AllChecked(OpsOf(fold, card, [card], ["TEL"]))
  {
    var card := NumbersCard([BLANK]);
    OnlyNumbersMerge([BLANK]);
    NumbersAre([BLANK]);
    BlankAreBlank(fold);
    hide CanonicalName, OpsOf, NumbersCard, Property, Collect, KeysOf, MergeNames;
    AcceptedExactly(fold, card, [card], ["TEL"]);
    assert ["TEL"][0] == "TEL" && AllBlank(fold, card, [card], "TEL");
  }

  lemma BlankAreBlank(fold: Fold)
    ensures KeysOf(fold, "TEL", [BLANK] + [BLANK]) == {}
  {
    assert KeyOf(fold, "TEL", BLANK) == "";
    hide KeyOf;
    assert forall v :: v in [BLANK] + [BLANK] ==> v == BLANK;
  }

  // A number that stands twice in the target hides a new one: the lengths agree, nothing
  // is written, and the new number is in neither the patch nor the target.
  lemma RepeatedNumberHidesNew(fold: Fold, a: Value, b: Value)
    requires KeyOf(fold, "TEL", a) != "" && KeyOf(fold, "TEL", b) != "" && KeyOf(fold, "TEL", a) != KeyOf(fold, "TEL", b)
    ensures var target, other := NumbersCard([a, a]), NumbersCard([b]);
            && MergeNames([other], ["TEL"]) && OpsOf(fold, target, [other], ["TEL"]) == []
            && KeyOf(fold, "TEL", b) !in KeysOf(fold, "TEL", Property(target, "TEL"))
  {
    var target, other := NumbersCard([a, a]), NumbersCard([b]);
    OnlyNumbersMerge([b]);
    NumbersAre([a, a]);
    NumbersAre([b]);
    KeysOfTwo(fold, a, b);
    assert ["TEL"][..0] == [] && OpsOf(fold, target, [other], []) == [];
    hide KeyOf, KeysOf, NumbersCard, Property, Collect, MergeNames, Merged;
    CoverageExactly(fold, target, [other], "TEL");
  }

  lemma KeysOfTwo(fold: Fold, a: Value, b: Value)
    requires KeyOf(fold, "TEL", a) != "" && KeyOf(fold, "TEL", b) != ""
    ensures KeysOf(fold, "TEL", [a, a]) == {KeyOf(fold, "TEL", a)} && KeysOf(fold, "TEL", [b]) == {KeyOf(fold, "TEL", b)}
  {
    hide KeyOf;
    assert [a, a][0] == a && [b][0] == b;
  }

  lemma OnlyNumbersMerge(numbers: seq<Value>)
    ensures MergeNames([NumbersCard(numbers)], ["TEL"]) && PlainNames(["TEL"])
  {
    TelIsPlain();
    hide CanonicalName;
    assert NamesOf([NumbersCard(numbers)][0]) == {"VERSION", "UID", "TEL"};
    assert PlainName("TEL");
  }

  lemma NumbersAre(numbers: seq<Value>)
    ensures Property(NumbersCard(numbers), "TEL") == numbers && Collect([NumbersCard(numbers)], "TEL") == numbers
  {
    TelIsPlain();
    hide CanonicalName;
    var cards := [NumbersCard(numbers)];
    assert cards[..0] == [] && Collect([], "TEL") == [];
  }

  lemma TelIsPlain()
    ensures CanonicalName("TEL") == Some("TEL")
  {
    TelIsNeat();
    hide TrimSpace, ToUpper;
  }

  lemma TelIsNeat()
    ensures ToUpper("TEL") == "TEL" && TrimSpace("TEL") == "TEL"
  {
    TrimmedStays("TEL");
    assert "TEL"[1..] == "EL" && "EL"[1..] == "L" && "L"[1..] == "";
  }

  /* ---- What is there afterwards ---- */

  // What the merge leaves under one name.
  function After(fold: Fold, target: Payload, others: seq<Payload>, names: seq<string>, c: string): seq<Value> {
    if c in names && Merged(fold, target, others, c).Some? then Merged(fold, target, others, c).value else Lookup(target, c)
  }

  lemma {:induction false} MergeOutcome(fold: Fold, target: Payload, others: seq<Payload>, names: seq<string>, c: string)
    requires target.VCard? && Distinct(names) && PlainNames(names)
    ensures Patches.Outcome(target, OpsOf(fold, target, others, names), c, Lookup(target, c)) == After(fold, target, others, names, c)
  {
    hide Merged, CanonicalName, Lookup;
    if names != [] {
      var init, last := names[..|names| - 1], names[|names| - 1];
      assert names == init + [last];
      MergeOutcome(fold, target, others, init, c);
      if Merged(fold, target, others, last).Some? {
        MergedHasName(fold, target, others, last);
        assert PlainName(last);
        StoredAllCard(target, Merged(fold, target, others, last).value);
        OutcomeOfLast(target, OpsOf(fold, target, others, init), Set(last, Merged(fold, target, others, last).value), c, Lookup(target, c));
      } else {
        assert OpsOf(fold, target, others, names) == OpsOf(fold, target, others, init);
      }
    }
  }

  lemma OutcomeOfLast(p: Payload, ops: Patch, op: Op, c: string, was: seq<Value>)
    ensures Patches.Outcome(p, ops + [op], c, was) ==
            if CanonicalName(op.name) == Some(c) then (if op.Remove? then [] else StoredAll(p, op.values))
            else Patches.Outcome(p, ops, c, was)
  {
    hide CanonicalName, StoredAll;
    assert (ops + [op])[..|ops|] == ops;
  }

  // Carrying the patch out on the target leaves exactly that.
  lemma AppliedMerge(fold: Fold, target: Payload, others: seq<Payload>, names: seq<string>, merged: Payload)
    requires target.VCard? && target.card.Some? && merged.VCard? && merged.card.Some?
    requires MergeNames(others, names) && PlainNames(names)
    requires Reached(target, target.card.value, OpsOf(fold, target, others, names), merged.card.value)
    ensures forall c: string :: Lookup(merged, c) == After(fold, target, others, names, c)
  {
    hide After, OpsOf, CanonicalName;
    forall c: string
      ensures Lookup(merged, c) == After(fold, target, others, names, c)
    {
      MergeOutcome(fold, target, others, names, c);
      assert Get(merged.card.value, c) == Lookup(merged, c) && Get(target.card.value, c) == Lookup(target, c);
    }
  }

  lemma PropertyOfPlain(p: Payload, c: string)
    requires CanonicalName(c) == Some(c)
    ensures Property(p, c) == Lookup(p, c)
  {
  }

  // Nothing usable is lost: under every name, each key the target had it still has;
  // and what is not repeatable stays exactly as the target has it.
  lemma MergeLosesNothing(fold: Fold, target: Payload, others: seq<Payload>, names: seq<string>, c: string)
    requires MergeNames(others, names) && CanonicalName(c) == Some(c)
    ensures KeysOf(fold, c, Lookup(target, c)) <= KeysOf(fold, c, After(fold, target, others, names, c))
    ensures Lookup(target, c) != [] && c !in REPEATABLE ==> After(fold, target, others, names, c) == Lookup(target, c)
    ensures c in SERVER ==> After(fold, target, others, names, c) == Lookup(target, c)
  {
    hide CanonicalName, Lookup, Property, KeysOf, KeyOf, Dedupe, Sorted, Distinct;
    PropertyOfPlain(target, c);
    if c in names && Merged(fold, target, others, c).Some? && Lookup(target, c) != [] {
      UnionKeys(fold, c, Lookup(target, c), Collect(others, c));
    } else if Lookup(target, c) == [] {
      KeysNone(fold, c);
    }
  }

  lemma UnionKeys(fold: Fold, c: string, existing: seq<Value>, incoming: seq<Value>)
    ensures KeysOf(fold, c, Dedupe(fold, c, existing + incoming, {})) == KeysOf(fold, c, existing) + KeysOf(fold, c, incoming)
  {
    hide KeysOf, Dedupe;
    DedupeKeys(fold, c, existing + incoming, {});
    KeysJoin(fold, c, existing, incoming);
  }

  lemma {:induction false} KeysJoin(fold: Fold, name: string, a: seq<Value>, b: seq<Value>)
    ensures KeysOf(fold, name, a + b) == KeysOf(fold, name, a) + KeysOf(fold, name, b)
  {
    hide KeyOf;
  }

  // The union, in order: the target's own values, then those nobody had yet.
  lemma UnionInOrder(fold: Fold, target: Payload, others: seq<Payload>, c: string)
    requires Merged(fold, target, others, c).Some? && Property(target, c) != []
    ensures Merged(fold, target, others, c).value ==
            Dedupe(fold, c, Property(target, c), {})
            + Dedupe(fold, c, Collect(others, c), KeysOf(fold, c, Property(target, c)))
  {
    hide KeysOf, Property;
    DedupeJoin(fold, c, Property(target, c), Collect(others, c), {});
    assert {} + KeysOf(fold, c, Property(target, c)) == KeysOf(fold, c, Property(target, c));
  }

  // The lengths are compared, not the values: a repeatable property is left alone when
  // as many new keys come in as blanks and repeats would go. Then, and only then, a new
  // key is missed.
  lemma CoverageExactly(fold: Fold, target: Payload, others: seq<Payload>, c: string)
    requires Property(target, c) != [] && c in REPEATABLE
    ensures var existing, incoming := Property(target, c), Collect(others, c);
            var unseen := KeysOf(fold, c, incoming) - KeysOf(fold, c, existing);
            var waste := |existing| - |KeysOf(fold, c, existing)|;
            && (Merged(fold, target, others, c) == None <==> |unseen| == waste)
            && (Merged(fold, target, others, c).Some? ==>
                  KeysOf(fold, c, incoming) <= KeysOf(fold, c, Merged(fold, target, others, c).value))
            && (Merged(fold, target, others, c) == None ==>
                  (KeysOf(fold, c, incoming) <= KeysOf(fold, c, existing) <==> unseen == {}))
  {
    hide KeyOf, KeysOf, Property;
    var existing, incoming := Property(target, c), Collect(others, c);
    var old', new' := KeysOf(fold, c, existing), KeysOf(fold, c, incoming);
    DedupeKeys(fold, c, existing + incoming, {});
    KeysJoin(fold, c, existing, incoming);
    assert old' + new' - {} == old' + (new' - old');
    assert |old' + (new' - old')| == |old'| + |new' - old'|;
  }

  /* ---- What is there afterwards, without the loops ---- */

  // Of `all`, the first value of each usable key, in order: `at` says where they stood.
  ghost predicate FirstAt(fold: Fold, c: string, all: seq<Value>, kept: seq<Value>, at: seq<nat>) {
    && |at| == |kept|
    && (forall i :: 0 <= i < |at| ==> at[i] < |all| && kept[i] == all[at[i]] && IsFirst(fold, c, all, at[i]))
    && (forall i, j :: 0 <= i < j < |at| ==> at[i] < at[j])
    && (forall k :: 0 <= k < |all| && IsFirst(fold, c, all, k) ==> k in at)
  }

  ghost predicate IsFirst(fold: Fold, c: string, all: seq<Value>, k: nat)
    requires k < |all|
  {
    KeyOf(fold, c, all[k]) != "" && forall j :: 0 <= j < k ==> KeyOf(fold, c, all[j]) != KeyOf(fold, c, all[k])
  }

  ghost predicate FirstOfEach(fold: Fold, c: string, all: seq<Value>, kept: seq<Value>) {
    exists at :: FirstAt(fold, c, all, kept, at)
  }

  // The places that deduplication keeps, counted from `from`.
  ghost function Places(fold: Fold, c: string, all: seq<Value>, from: nat): seq<nat>
    requires from <= |all|
    decreases |all| - from
  {
    if from == |all| then []
    else (if IsFirst(fold, c, all, from) then [from] else []) + Places(fold, c, all, from + 1)
  }

  lemma {:induction false} PlacesAre(fold: Fold, c: string, all: seq<Value>, from: nat)
    requires from <= |all|
    ensures forall i :: 0 <= i < |Places(fold, c, all, from)| ==>
              from <= Places(fold, c, all, from)[i] < |all| && IsFirst(fold, c, all, Places(fold, c, all, from)[i])
    ensures forall i, j :: 0 <= i < j < |Places(fold, c, all, from)| ==> Places(fold, c, all, from)[i] < Places(fold, c, all, from)[j]
    ensures forall k :: from <= k < |all| && IsFirst(fold, c, all, k) ==> k in Places(fold, c, all, from)
    decreases |all| - from
  {
    hide IsFirst;
    if from < |all| {
      PlacesAre(fold, c, all, from + 1);
    }
  }

  lemma {:induction false} DedupeKeepsPlaces(fold: Fold, c: string, all: seq<Value>, from: nat)
    requires from <= |all|
    ensures Dedupe(fold, c, all[from..], KeysOf(fold, c, all[..from])) == ValuesAt(all, Places(fold, c, all, from))
    decreases |all| - from
  {
    hide KeyOf, KeysOf, IsFirst, ValuesAt;
    if from == |all| {
      assert all[from..] == [] && ValuesAt(all, []) == [] by {
        NoValues(all);
      }
    } else {
      DedupeKeepsPlaces(fold, c, all, from + 1);
      SeenBefore(fold, c, all, from);
      hide Dedupe;
      DedupeFrom(fold, c, all, from);
      ValuesCons(all, from, Places(fold, c, all, from + 1));
      assert [] + Places(fold, c, all, from + 1) == Places(fold, c, all, from + 1);
    }
  }

  lemma NoValues(all: seq<Value>)
    ensures ValuesAt(all, []) == []
  {
  }

  lemma DedupeFrom(fold: Fold, c: string, all: seq<Value>, from: nat)
    requires from < |all|
    ensures var seen, k := KeysOf(fold, c, all[..from]), KeyOf(fold, c, all[from]);
            var rest := Dedupe(fold, c, all[from + 1..], KeysOf(fold, c, all[..from + 1]));
            Dedupe(fold, c, all[from..], seen) == if k == "" || k in seen then rest else [all[from]] + rest
  {
    hide KeyOf, KeysOf, Dedupe;
    var seen, k := KeysOf(fold, c, all[..from]), KeyOf(fold, c, all[from]);
    DedupeAt(fold, c, all, from, seen);
    assert all[..from + 1] == all[..from] + [all[from]];
    KeysSnoc(fold, c, all[..from], all[from]);
    assert seen + {} == seen && (k in seen ==> seen + {k} == seen);
  }

  ghost function ValuesAt(all: seq<Value>, at: seq<nat>): seq<Value> {
    seq(|at|, i requires 0 <= i < |at| => if at[i] < |all| then all[at[i]] else Value("", map[], ""))
  }

  lemma ValuesCons(all: seq<Value>, k: nat, at: seq<nat>)
    requires k < |all|
    ensures ValuesAt(all, [k] + at) == [all[k]] + ValuesAt(all, at)
  {
  }

  lemma SeenBefore(fold: Fold, c: string, all: seq<Value>, k: nat)
    requires k < |all|
    ensures IsFirst(fold, c, all, k) <==> KeyOf(fold, c, all[k]) != "" && KeyOf(fold, c, all[k]) !in KeysOf(fold, c, all[..k])
  {
    hide KeyOf;
    if KeyOf(fold, c, all[k]) != "" && KeyOf(fold, c, all[k]) in KeysOf(fold, c, all[..k]) {
      var v :| v in all[..k] && KeyOf(fold, c, v) == KeyOf(fold, c, all[k]);
      var j :| 0 <= j < k && all[j] == v;
    }
    forall j | 0 <= j < k && KeyOf(fold, c, all[j]) == KeyOf(fold, c, all[k]) && KeyOf(fold, c, all[k]) != ""
      ensures KeyOf(fold, c, all[k]) in KeysOf(fold, c, all[..k])
    {
      assert all[j] in all[..k];
    }
  }

  lemma DedupeIsFirstOfEach(fold: Fold, c: string, all: seq<Value>)
    ensures FirstOfEach(fold, c, all, Dedupe(fold, c, all, {}))
  {
    DedupeKeepsPlaces(fold, c, all, 0);
    PlacesAre(fold, c, all, 0);
    assert all[..0] == [] && all[0..] == all;
    KeysNone(fold, c);
    hide Dedupe, KeysOf, Places, IsFirst;
    assert FirstAt(fold, c, all, Dedupe(fold, c, all, {}), Places(fold, c, all, 0));
  }

  // What the merge leaves under a name: what the server maintains, what no other card has,
  // and what is there and not repeatable, as it was. What the target lacks is the first value of each key in the
  // other cards. A repeatable property is the first of each key in the target and then the
  // others, unless it has as many values as that already.
  lemma MergeExactly(fold: Fold, target: Payload, others: seq<Payload>, names: seq<string>, c: string)
    requires MergeNames(others, names) && CanonicalName(c) == Some(c)
    ensures var was, now := Lookup(target, c), After(fold, target, others, names, c);
            var all := was + Collect(others, c);
            if c in SERVER || !(exists i :: 0 <= i < |others| && c in NamesOf(others[i])) then now == was
            else if was == [] then FirstOfEach(fold, c, Collect(others, c), now)
            else if c !in REPEATABLE then now == was
            else if |KeysOf(fold, c, all)| == |was| then now == was
            else FirstOfEach(fold, c, all, now)
  {
    hide CanonicalName, Lookup, Property, KeysOf, KeyOf, Dedupe, Sorted, Distinct, Collect, FirstOfEach, NamesOf;
    PropertyOfPlain(target, c);
    var was, incoming := Lookup(target, c), Collect(others, c);
    DedupeIsFirstOfEach(fold, c, incoming);
    DedupeIsFirstOfEach(fold, c, was + incoming);
    DedupeKeys(fold, c, was + incoming, {});
    assert KeysOf(fold, c, was + incoming) - {} == KeysOf(fold, c, was + incoming);
    MergedIs(fold, target, others, c);
    hide Merged;
  }

  lemma MergedIs(fold: Fold, target: Payload, others: seq<Payload>, c: string)
    ensures var existing, incoming := Property(target, c), Collect(others, c);
            Merged(fold, target, others, c) ==
            if existing == [] then
              (if Dedupe(fold, c, incoming, {}) == [] then None else Some(Dedupe(fold, c, incoming, {})))
            else if c !in REPEATABLE || |Dedupe(fold, c, existing + incoming, {})| == |existing| then None
            else Some(Dedupe(fold, c, existing + incoming, {}))
  {
    hide Property, Dedupe, Collect;
  }

  // A name in no other card gives nothing.
  lemma {:induction false} NobodyNames(others: seq<Payload>, names: seq<string>, c: string)
    requires CanonicalName(c) == Some(c) && (forall i :: 0 <= i < |others| ==> c in NamesOf(others[i]) ==> c in names || c in SERVER)
    ensures c !in names && c !in SERVER ==> Collect(others, c) == []
  {
    if others != [] && c !in names && c !in SERVER {
      var last := others[|others| - 1];
      assert c !in NamesOf(last);
      PropertyOfPlain(last, c);
      NobodyNames(others[..|others| - 1], names, c);
    }
  }

  // Every usable key of the other cards is in the result, except of what the server
  // maintains, of what stood there and is not repeatable, and where the lengths agreed.
  lemma CoveredExactly(fold: Fold, target: Payload, others: seq<Payload>, names: seq<string>, c: string)
    requires MergeNames(others, names) && CanonicalName(c) == Some(c)
    ensures var was, now := Lookup(target, c), After(fold, target, others, names, c);
            var theirs := KeysOf(fold, c, Collect(others, c));
            theirs <= KeysOf(fold, c, now) <==>
              || theirs <= KeysOf(fold, c, was)
              || !(|| c in SERVER
                   || (was != [] && c !in REPEATABLE)
                   || (was != [] && |KeysOf(fold, c, was + Collect(others, c))| == |was|))
    ensures forall o :: o in others ==> KeysOf(fold, c, Lookup(o, c)) <= KeysOf(fold, c, Collect(others, c))
  {
    hide CanonicalName, Lookup, Property, KeysOf, KeyOf, Dedupe, Sorted, Distinct, Collect, FirstOfEach, After, NamesOf;
    var was, all := Lookup(target, c), Lookup(target, c) + Collect(others, c);
    NobodyNames(others, names, c);
    hide MergeNames;
    KeysNone(fold, c);
    KeysJoin(fold, c, was, Collect(others, c));
    FirstKeys(fold, c, all);
    FirstKeys(fold, c, Collect(others, c));
    MergeExactly(fold, target, others, names, c);
    forall o | o in others
      ensures KeysOf(fold, c, Lookup(o, c)) <= KeysOf(fold, c, Collect(others, c))
    {
      PropertyOfPlain(o, c);
      OneOfThem(fold, others, o, c);
    }
  }

  lemma FirstKeys(fold: Fold, c: string, all: seq<Value>)
    ensures forall kept :: FirstOfEach(fold, c, all, kept) ==> KeysOf(fold, c, kept) == KeysOf(fold, c, all)
  {
    forall kept | FirstOfEach(fold, c, all, kept)
      ensures KeysOf(fold, c, kept) == KeysOf(fold, c, all)
    {
      var at :| FirstAt(fold, c, all, kept, at);
      FirstKeysAt(fold, c, all, kept, at);
    }
  }

  lemma FirstKeysAt(fold: Fold, c: string, all: seq<Value>, kept: seq<Value>, at: seq<nat>)
    requires FirstAt(fold, c, all, kept, at)
    ensures KeysOf(fold, c, kept) == KeysOf(fold, c, all)
  {
    hide KeyOf;
    forall v | v in kept
      ensures v in all && KeyOf(fold, c, v) != ""
    {
      var i :| 0 <= i < |kept| && kept[i] == v;
      assert kept[i] == all[at[i]] && IsFirst(fold, c, all, at[i]);
    }
    forall v | v in all && KeyOf(fold, c, v) != ""
      ensures exists w :: w in kept && KeyOf(fold, c, w) == KeyOf(fold, c, v)
    {
      var k :| 0 <= k < |all| && all[k] == v;
      var first := FirstWith(fold, c, all, k);
      var i :| 0 <= i < |at| && at[i] == first;
      assert kept[i] in kept && kept[i] == all[first];
    }
  }

  lemma {:induction false} FirstWith(fold: Fold, c: string, all: seq<Value>, k: nat) returns (first: nat)
    requires k < |all| && KeyOf(fold, c, all[k]) != ""
    ensures first < |all| && IsFirst(fold, c, all, first) && KeyOf(fold, c, all[first]) == KeyOf(fold, c, all[k])
  {
    hide KeyOf;
    if j :| 0 <= j < k && KeyOf(fold, c, all[j]) == KeyOf(fold, c, all[k]) {
      first := FirstWith(fold, c, all, j);
    } else {
      first := k;
    }
  }

  lemma {:induction false} OneOfThem(fold: Fold, others: seq<Payload>, o: Payload, c: string)
    requires o in others
    ensures KeysOf(fold, c, Property(o, c)) <= KeysOf(fold, c, Collect(others, c))
  {
    hide KeysOf, Property;
    var init, last := others[..|others| - 1], others[|others| - 1];
    KeysJoin(fold, c, Collect(init, c), Property(last, c));
    if o != last {
      assert others == init + [last];
      OneOfThem(fold, init, o, c);
    }
  }

  // Merging the same cards again has nothing left to do.
  lemma {:induction false} SecondMergeIsEmpty(fold: Fold, target: Payload, merged: Payload, others: seq<Payload>,
                                             all: seq<string>, names: seq<string>)
    requires target.VCard? && merged.VCard? && PlainNames(all) && MergeNames(others, all)
    requires forall n :: n in names ==> n in all
    requires forall c: string :: Lookup(merged, c) == After(fold, target, others, all, c)
    requires forall n :: n in all ==> !AllBlank(fold, target, others, n)
    ensures OpsOf(fold, merged, others, names) == []
    decreases |names|
  {
    if names != [] {
      var last := names[|names| - 1];
      SecondMergeIsEmpty(fold, target, merged, others, all, names[..|names| - 1]);
      assert PlainName(last) && !AllBlank(fold, target, others, last);
      NothingMore(fold, target, merged, others, all, last);
    }
  }

  lemma NothingMore(fold: Fold, target: Payload, merged: Payload, others: seq<Payload>, all: seq<string>, n: string)
    requires n in all && PlainName(n) && Lookup(merged, n) == After(fold, target, others, all, n)
    requires !AllBlank(fold, target, others, n)
    ensures Merged(fold, merged, others, n) == None
  {
    hide CanonicalName, Lookup, Property, AllBlank, KeysOf, KeyOf, Dedupe;
    if CanonicalName(n) == None {
      if Merged(fold, merged, others, n).Some? {
        MergedHasName(fold, merged, others, n);
      }
    } else {
      PropertyOfPlain(target, n);
      PropertyOfPlain(merged, n);
      EmptyOnlyWhenBlank(fold, target, others, n);
      WrittenIsDone(fold, target, merged, others, n);
    }
  }

  lemma WrittenIsDone(fold: Fold, target: Payload, merged: Payload, others: seq<Payload>, n: string)
    requires Property(merged, n) ==
               if Merged(fold, target, others, n).Some? then Merged(fold, target, others, n).value else Property(target, n)
    requires Merged(fold, target, others, n) != Some([])
    ensures Merged(fold, merged, others, n) == None
  {
    hide Property, KeysOf, KeyOf, Dedupe;
    if Merged(fold, target, others, n).Some? {
      var existing, incoming := Property(target, n), Collect(others, n);
      KeysJoin(fold, n, existing, incoming);
      DoneTwice(fold, n, if existing == [] then incoming else existing + incoming, incoming);
    }
  }

  lemma DoneTwice(fold: Fold, n: string, values: seq<Value>, incoming: seq<Value>)
    requires KeysOf(fold, n, incoming) <= KeysOf(fold, n, values)
    ensures var done := Dedupe(fold, n, values, {}); Dedupe(fold, n, done + incoming, {}) == done
  {
    hide KeyOf, KeysOf;
    var done := Dedupe(fold, n, values, {});
    DedupeTwice(fold, n, values, {});
    DedupeKeys(fold, n, values, {});
    DedupeJoin(fold, n, done, incoming, {});
    assert {} + KeysOf(fold, n, done) == KeysOf(fold, n, values);
    DedupeNothing(fold, n, incoming, KeysOf(fold, n, values));
    assert done + [] == done;
  }
}
