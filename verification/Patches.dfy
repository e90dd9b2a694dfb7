// Property-level edits: an object changes only in the properties a patch names, and
// a patch that is refused changes nothing (internal/model/patch.go, object.go).
module Patches {
  import opened GoText

  datatype Option<T> = None | Some(value: T)

  datatype Value = Value(text: string, params: map<string, seq<string>>, group: string)

  type Props = map<string, seq<Value>>

  datatype Component = Component(name: string, props: Props, children: seq<Component>)

  // What an object holds; the payload may be missing.
  datatype Payload = VCard(card: Option<Props>) | ICal(cal: Option<Component>) | Unknown

  datatype Op = Set(name: string, values: seq<Value>) | Remove(name: string)

  type Patch = seq<Op>

  datatype Error = NoError | BadName | Protected | NoValue | NoPayload | NoComponent | UnknownKind

  predicate NameChar(c: char) {
    'A' <= c <= 'Z' || '0' <= c <= '9' || c == '-'
  }

  function CanonicalName(name: string): (r: Option<string>)
  {
    var trimmed := ToUpper(TrimSpace(name));
    if trimmed == "" || trimmed == "BEGIN" || trimmed == "END" then None
    else if forall i :: 0 <= i < |trimmed| ==> NameChar(trimmed[i]) then Some(trimmed)
    else None
  }

  const PROTECTED: set<string> := {"VERSION", "UID"}

  /* ---- Reading ---- */

  predicate IsEntry(c: Component) {
    ToUpper(c.name) in {"VEVENT", "VTODO", "VJOURNAL"}
  }

  // The place of the first entry among the children, or their number.
  function PrimaryIndex(children: seq<Component>): (i: nat)
    ensures i <= |children| && (i < |children| ==> IsEntry(children[i]))
    ensures forall j :: 0 <= j < i ==> !IsEntry(children[j])
  {
    if children == [] || IsEntry(children[0]) then 0 else PrimaryIndex(children[1..]) + 1
  }

  // The properties a patch reads and writes.
  function PropsOf(p: Payload): Option<Props> {
    match p
    case VCard(card) => card
    case ICal(Some(cal)) =>
      var i := PrimaryIndex(cal.children);
      if i < |cal.children| then Some(cal.children[i].props) else None
    case _ => None
  }

  function Property(p: Payload, name: string): seq<Value> {
    match CanonicalName(name)
    case None => []
    case Some(canonical) => Lookup(p, canonical)
  }

  function Lookup(p: Payload, canonical: string): seq<Value> {
    match PropsOf(p)
    case None => []
    case Some(props) => if canonical in props then props[canonical] else []
  }

  // What a value becomes in storage: a calendar property has no group.
  function Stored(p: Payload, v: Value): Value {
    if p.ICal? then v.(group := "") else v
  }

  function StoredAll(p: Payload, values: seq<Value>): seq<Value> {
    if values == [] then [] else [Stored(p, values[0])] + StoredAll(p, values[1..])
  }

  lemma {:induction false} StoredAllCard(p: Payload, values: seq<Value>)
    requires p.VCard?
    ensures StoredAll(p, values) == values
  {
    if values != [] {
      StoredAllCard(p, values[1..]);
    }
  }

  /* ---- Applying ---- */

  // What is wrong with one operation taken by itself.
  function CheckOp(op: Op): Error {
    match CanonicalName(op.name)
    case None => BadName
    case Some(name) =>
      if name in PROTECTED then Protected
      else if op.Set? && op.values == [] then NoValue
      else NoError
  }

  ghost predicate AllChecked(ops: Patch) {
    forall i :: 0 <= i < |ops| ==> CheckOp(ops[i]) == NoError
  }

  // What the last operation on a name leaves; `was` when none names it.
  function Outcome(p: Payload, ops: Patch, canonical: string, was: seq<Value>): seq<Value> {
    if ops == [] then was
    else
      var op := ops[|ops| - 1];
      if CanonicalName(op.name) == Some(canonical) then (if op.Remove? then [] else StoredAll(p, op.values))
      else Outcome(p, ops[..|ops| - 1], canonical, was)
  }

  // Everything of the object but the properties of its primary component.
  predicate SameAround(p: Payload, q: Payload) {
    match p
    case VCard(card) => q.VCard? && card.Some? && q.card.Some?
    case ICal(Some(cal)) =>
      && q.ICal? && q.cal.Some?
      && (var i := PrimaryIndex(cal.children);
          && i < |cal.children| && |q.cal.value.children| == |cal.children|
          && q.cal.value == cal.(children := cal.children[i := q.cal.value.children[i]])
          && q.cal.value.children[i] == cal.children[i].(props := q.cal.value.children[i].props))
    case _ => false
  }

  function Get(props: Props, name: string): seq<Value> {
    if name in props then props[name] else []
  }

  // The state of the properties after `ops` have been carried out on `was`.
  ghost predicate Reached(p: Payload, was: Props, ops: Patch, props: Props) {
    forall name: string :: Get(props, name) == Outcome(p, ops, name, Get(was, name))
  }

  lemma ReachedNext(p: Payload, was: Props, ops: Patch, props: Props, op: Op, next: Props)
    requires Reached(p, was, ops, props) && CanonicalName(op.name).Some?
    requires next == if op.Remove? then props - {CanonicalName(op.name).value}
                     else props[CanonicalName(op.name).value := StoredAll(p, op.values)]
    ensures Reached(p, was, ops + [op], next)
  {
    hide CanonicalName, StoredAll;
    forall name: string
      ensures Get(next, name) == Outcome(p, ops + [op], name, Get(was, name))
    {
      assert (ops + [op])[..|ops|] == ops;
    }
  }

  class Object {
    var payload: Payload

    constructor (payload: Payload)
      ensures this.payload == payload
    {
      this.payload := payload;
    }

    method Apply(ops: Patch) returns (err: Error)
      modifies this
      ensures err != NoError ==> payload == old(payload)
      ensures err == NoError <==> ops == [] || (AllChecked(ops) && PropsOf(old(payload)).Some?)
      ensures ops == [] ==> payload == old(payload)
      ensures err == NoError && ops != [] ==> SameAround(old(payload), payload) && PropsOf(payload).Some?
      ensures err == NoError && ops != [] ==>
                Reached(old(payload), PropsOf(old(payload)).value, ops, PropsOf(payload).value)
    {
      if |ops| == 0 {
        return NoError;
      }
      hide Outcome, Reached, PropsOf, SameAround, AllChecked;
      err := CheckAll(ops);
      if err != NoError {
        return;
      }
      err := ApplyChecked(ops);
    }

    // NoError says that all of them pass, so nothing needs undoing later.
    static method CheckAll(ops: Patch) returns (err: Error)
      ensures err == NoError <==> AllChecked(ops)
    {
      hide CheckOp;
      for i := 0 to |ops|
        invariant forall j :: 0 <= j < i ==> CheckOp(ops[j]) == NoError
      {
        err := CheckOp(ops[i]);
        if err != NoError {
          return;
        }
      }
      return NoError;
    }

    method ApplyChecked(ops: Patch) returns (err: Error)
      requires AllChecked(ops)
      modifies this
      ensures err != NoError ==> payload == old(payload)
      ensures err == NoError <==> PropsOf(old(payload)).Some?
      ensures err == NoError ==> SameAround(old(payload), payload) && PropsOf(payload).Some?
      ensures err == NoError ==> Reached(old(payload), PropsOf(old(payload)).value, ops, PropsOf(payload).value)
    {
      hide Outcome, Reached, CheckOp;
      match payload {
        case VCard(None) => return NoPayload;
        case VCard(Some(card)) =>
          var props := ApplyOps(payload, card, ops);
          payload := VCard(Some(props));
        case ICal(None) => return NoComponent;
        case ICal(Some(cal)) =>
          var i := PrimaryIndex(cal.children);
          if i == |cal.children| {
            return NoComponent;
          }
          var props := ApplyOps(payload, cal.children[i].props, ops);
          SamePrimary(cal.children, i, props);
          payload := ICal(Some(cal.(children := cal.children[i := cal.children[i].(props := props)])));
        case Unknown => return UnknownKind;
      }
      return NoError;
    }
  }

  lemma SamePrimary(children: seq<Component>, i: nat, props: Props)
    requires i == PrimaryIndex(children) < |children|
    ensures PrimaryIndex(children[i := children[i].(props := props)]) == i
  {
    var changed := children[i := children[i].(props := props)];
    var j := PrimaryIndex(changed);
    assert IsEntry(changed[i]);
    assert forall k :: 0 <= k < i ==> !IsEntry(changed[k]);
  }

  // What is around the properties stays the same over several steps.
  lemma SameAroundTwice(p: Payload, q: Payload, r: Payload)
    requires SameAround(p, q) && SameAround(q, r)
    ensures SameAround(p, r)
  {
    if p.ICal? {
      var children, i := p.cal.value.children, PrimaryIndex(p.cal.value.children);
      SamePrimary(children, i, q.cal.value.children[i].props);
      assert q.cal.value.children == children[i := children[i].(props := q.cal.value.children[i].props)];
      hide PrimaryIndex;
      var last := r.cal.value.children;
      assert last == q.cal.value.children[i := last[i]] == children[i := last[i]];
    }
  }

  method ApplyOps(p: Payload, was: Props, ops: Patch) returns (props: Props)
    requires AllChecked(ops)
    ensures Reached(p, was, ops, props)
  {
    props := was;
    ReachedAtFirst(p, was);
    for i := 0 to |ops|
      invariant Reached(p, was, ops[..i], props)
    {
      hide Reached, CheckOp;
      assert ops[..i + 1] == ops[..i] + [ops[i]];
      props := ApplyOne(p, was, ops[..i], ops[i], props);
    }
    assert ops[..|ops|] == ops;
  }

  lemma ReachedAtFirst(p: Payload, was: Props)
    ensures Reached(p, was, [], was)
  {
  }

  method ApplyOne(p: Payload, ghost was: Props, ghost ops: Patch, op: Op, props0: Props) returns (props: Props)
    requires CheckOp(op) == NoError && Reached(p, was, ops, props0)
    ensures Reached(p, was, ops + [op], props)
  {
    hide Reached, StoredAll, TrimSpace, ToUpper;
    var name := CanonicalName(op.name).value;
    props := if op.Remove? then props0 - {name} else props0[name := StoredAll(p, op.values)];
    ReachedNext(p, was, ops, props0, op, props);
  }

  /* ---- Checks, names and values as they come ---- */

  // An operation is turned down for a name that is none, for a name that identifies the
  // object, or for setting nothing; and for nothing else.
  lemma CheckedExactly(op: Op)
    ensures CheckOp(op) == BadName <==> CanonicalName(op.name) == None
    ensures CheckOp(op) == Protected <==> CanonicalName(op.name) == Some("VERSION") || CanonicalName(op.name) == Some("UID")
    ensures CheckOp(op) == NoValue <==> op.Set? && op.values == [] && CanonicalName(op.name) !in {None, Some("VERSION"), Some("UID")}
    ensures CheckOp(op) in {NoError, BadName, Protected, NoValue}
  {
    hide CanonicalName;
  }

  // Stored values are the given ones in order, texts and parameters as they are; a card
  // keeps their groups, a calendar has none.
  lemma {:induction false} StoredExactly(p: Payload, values: seq<Value>)
    ensures |StoredAll(p, values)| == |values|
    ensures forall i :: 0 <= i < |values| ==>
              && StoredAll(p, values)[i].text == values[i].text && StoredAll(p, values)[i].params == values[i].params
              && StoredAll(p, values)[i].group == if p.ICal? then "" else values[i].group
  {
    if values != [] {
      StoredExactly(p, values[1..]);
    }
  }

  // A name is letters, digits and hyphens, in upper case, and neither BEGIN nor END; white
  // space around it and the case of its letters do not matter.
  lemma CanonicalMeans(name: string)
    ensures CanonicalName(name).Some? ==>
              var n := CanonicalName(name).value;
              && n != "" && n != "BEGIN" && n != "END" && (forall i :: 0 <= i < |n| ==> NameChar(n[i]))
              && n == ToUpper(TrimSpace(name)) && CanonicalName(n) == Some(n)
    ensures CanonicalName(name) == None <==>
              || ToUpper(TrimSpace(name)) in {"", "BEGIN", "END"}
              || exists i :: 0 <= i < |ToUpper(TrimSpace(name))| && !NameChar(ToUpper(TrimSpace(name))[i])
  {
    if CanonicalName(name).Some? {
      var n := CanonicalName(name).value;
      UpperNameStays(n);
      assert Trimmed(n);
      TrimmedStays(n);
      hide TrimSpace, ToUpper, Trimmed;
    }
  }

  lemma {:induction false} UpperNameStays(n: string)
    requires forall i :: 0 <= i < |n| ==> NameChar(n[i])
    ensures ToUpper(n) == n
  {
    if n != "" {
      assert NameChar(n[0]);
      UpperNameStays(n[1..]);
      assert n == [n[0]] + n[1..];
    }
  }

  /* ---- What a patch leaves alone ---- */

  predicate IsNamed(op: Op, canonical: string) {
    CanonicalName(op.name) == Some(canonical)
  }

  ghost predicate Names(ops: Patch, canonical: string) {
    exists i :: 0 <= i < |ops| && IsNamed(ops[i], canonical)
  }

  // A property no operation names keeps its exact values.
  lemma {:induction false} UnnamedStays(p: Payload, ops: Patch, canonical: string, was: seq<Value>)
    requires !Names(ops, canonical)
    ensures Outcome(p, ops, canonical, was) == was
  {
    hide CanonicalName, StoredAll;
    if ops != [] {
      var init := ops[..|ops| - 1];
      assert forall i :: 0 <= i < |init| ==> init[i] == ops[i];
      assert !IsNamed(ops[|ops| - 1], canonical);
      UnnamedStays(p, init, canonical, was);
    }
  }

  // A named one has what the last operation on it gave, whatever was there.
  lemma {:induction false} LastOneWins(p: Payload, before: Patch, op: Op, after: Patch, canonical: string, was: seq<Value>)
    requires IsNamed(op, canonical) && !Names(after, canonical)
    ensures Outcome(p, before + [op] + after, canonical, was) == if op.Remove? then [] else StoredAll(p, op.values)
    decreases |after|
  {
    hide CanonicalName, StoredAll;
    var ops := before + [op] + after;
    if after == [] {
      assert ops == before + [op] && ops[..|ops| - 1] == before;
    } else {
      var init, last := after[..|after| - 1], after[|after| - 1];
      assert ops[..|ops| - 1] == before + [op] + init && ops[|ops| - 1] == last;
      assert !IsNamed(last, canonical);
      assert forall i :: 0 <= i < |init| ==> init[i] == after[i];
      LastOneWins(p, before, op, init, canonical, was);
    }
  }
}
