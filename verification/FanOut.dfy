// One fan-out task and its critical sections (internal/fanout/fanout.go).
//
// `Core` is what the task lock protects. Each critical section is a function on
// it, and the class below is proved to carry out exactly those functions. The
// protocol the goroutines run over them is in FanOutProtocol.
module FanOut {
  import opened Ordering
  import opened Quotients

  datatype State = Waiting | Querying | Done | Empty | Error | Timeout | Cancelled

  predicate Terminal(s: State) {
    s != Waiting && s != Querying
  }

  predicate Failed(s: State) {
    s == Error || s == Timeout
  }

  datatype Option<T> = None | Some(value: T)

  datatype Item = Item(sourceId: string, key: string, data: int)

  // What a query came back with. An error is known by the two questions the
  // source asks of it; `reason` is the text reasonOf shortens it to.
  datatype Outcome =
    | Answer(items: seq<Item>, fromCache: bool)
    | Failure(fromCache: bool, cancellation: bool, deadline: bool, reason: string)

  datatype Source = Source(state: State, items: seq<Item>, fromCache: bool, reason: string,
                           startedAt: Option<int>, duration: int, attempt: nat)

  const FreshSource := Source(Waiting, [], false, "", None, 0, 0)

  datatype Core = Core(order: seq<string>, sources: map<string, Source>, inFlight: nat,
                       expired: bool, cancelled: bool, settled: bool, started: int, elapsed: int,
                       released: bool)

  function Open(sources: map<string, Source>): set<string> {
    set id | id in sources && !Terminal(sources[id].state)
  }

  /* ---- The critical sections as functions ---- */

  // settleLocked. `released` records that runCancel has been called.
  function Settle(c: Core, now: int): Core {
    var running := |Open(c.sources)|;
    var counted := c.(inFlight := running);
    if running == 0 then
      counted.(settled := true, elapsed := if c.settled then c.elapsed else now - c.started, released := true)
    else counted
  }

  function Timed(s: Source, now: int): int {
    if s.startedAt.Some? then now - s.startedAt.value else s.duration
  }

  // begin, and whether the source is to be polled.
  function BeginSection(c: Core, id: string, now: int): (Core, bool) {
    if id !in c.sources then (c, false)
    else if c.cancelled then
      (Settle(c.(sources := c.sources[id := c.sources[id].(state := Cancelled)]), now), false)
    else
      var s := c.sources[id];
      (c.(sources := c.sources[id := s.(state := Querying, startedAt := Some(now), attempt := s.attempt + 1)]), true)
  }

  function Concluded(c: Core, s: Source, outcome: Outcome, now: int): Source {
    var timed := s.(duration := Timed(s, now), fromCache := outcome.fromCache);
    match outcome
    case Answer(items, _) => timed.(items := items, reason := "", state := if items == [] then Empty else Done)
    case Failure(_, cancellation, deadline, reason) =>
      if c.cancelled && cancellation then timed.(state := Cancelled, reason := "poll interrupted")
      else if deadline || (c.expired && cancellation) then timed.(state := Timeout, reason := "timed out")
      else if cancellation then timed.(state := Cancelled, reason := "poll interrupted")
      else timed.(state := Error, reason := reason)
  }

  function FinishSection(c: Core, id: string, outcome: Outcome, now: int): Core {
    if id !in c.sources then c
    else Settle(c.(sources := c.sources[id := Concluded(c, c.sources[id], outcome, now)]), now)
  }

  function TimedOut(s: Source, now: int): Source {
    if Terminal(s.state) then s
    else s.(state := Timeout, reason := "timed out", duration := Timed(s, now))
  }

  // The section of watchCeiling that runs once the deadline has passed.
  function CeilingSection(c: Core, now: int): Core {
    var marked := c.(expired := true, sources := map id | id in c.sources :: TimedOut(c.sources[id], now));
    if Open(c.sources) != {} then Settle(marked, now) else marked
  }

  function RetrySection(c: Core, id: string, now: int): (Core, bool) {
    if id !in c.sources || c.cancelled || !Terminal(c.sources[id].state) then (c, false)
    else
      var s := c.sources[id].(state := Waiting, reason := "", items := [], duration := 0, startedAt := None);
      (Settle(c.(sources := c.sources[id := s], settled := false, elapsed := 0, started := now), now), true)
  }

  function Interrupted(s: Source): Source {
    if Terminal(s.state) then s else s.(state := Cancelled, reason := "poll interrupted")
  }

  function CancelSection(c: Core, now: int): Core {
    Settle(c.(cancelled := true, sources := map id | id in c.sources :: Interrupted(c.sources[id])), now)
  }

  // The sources a task is opened with: blank and repeated identifiers dropped.
  function Kept(ids: seq<string>): seq<string> {
    if ids == [] then []
    else
      var rest, id := Kept(ids[..|ids| - 1]), ids[|ids| - 1];
      if id == "" || id in rest then rest else rest + [id]
  }

  function FreshSources(order: seq<string>): map<string, Source> {
    map id | id in order :: FreshSource
  }

  function Opened(order: seq<string>, now: int): Core {
    Core(order, FreshSources(order), |order|, false, false, false, now, 0, false)
  }

  lemma {:induction false} KeptDistinct(ids: seq<string>)
    ensures Distinct(Kept(ids)) && forall id :: id in Kept(ids) <==> id in ids && id != ""
  {
    if ids != [] {
      KeptDistinct(ids[..|ids| - 1]);
      assert ids == ids[..|ids| - 1] + [ids[|ids| - 1]];
    }
  }

  /* ---- Snapshots ---- */

  // What is shown of one source; the duration is in whole milliseconds.
  datatype Row = Row(id: string, state: State, count: nat, attempt: nat, fromCache: bool, reason: string, duration: int)

  datatype Snapshot = Snapshot(total: nat, queried: nat, records: nat, failed: nat, cached: nat,
                               running: bool, cancelled: bool, elapsed: int, rows: seq<Row>, items: seq<Item>)

  // Duration.Round: to the nearest million nanoseconds, half away from zero.
  function Milliseconds(d: int): int {
    if d < 0 then -Rounded(-d) else Rounded(d)
  }

  function Rounded(d: int): int {
    var q := d / 1_000_000;
    if 2 * (d - q * 1_000_000) < 1_000_000 then q else q + 1
  }

  function RowOf(id: string, s: Source): Row {
    Row(id, s.state, |s.items|, s.attempt, s.fromCache, s.reason, Milliseconds(s.duration))
  }

  function Rows(order: seq<string>, sources: map<string, Source>): seq<Row>
    requires forall id :: id in order ==> id in sources
  {
    if order == [] then []
    else Rows(order[..|order| - 1], sources) + [RowOf(order[|order| - 1], sources[order[|order| - 1]])]
  }

  predicate ItemLeq(a: Item, b: Item) {
    TextLeq(a.key, b.key)
  }

  lemma ItemOrder()
    ensures TotalPreorder(ItemLeq)
  {
    TextOrder();
  }

  function Gathered(order: seq<string>, sources: map<string, Source>): seq<Item>
    requires forall id :: id in order ==> id in sources
  {
    if order == [] then []
    else Gathered(order[..|order| - 1], sources) + sources[order[|order| - 1]].items
  }

  function Count(order: seq<string>, sources: map<string, Source>, p: Source -> bool): nat
    requires forall id :: id in order ==> id in sources
  {
    if order == [] then 0
    else Count(order[..|order| - 1], sources, p) + if p(sources[order[|order| - 1]]) then 1 else 0
  }

  predicate IsTerminal(s: Source) {
    Terminal(s.state)
  }

  predicate IsFailed(s: Source) {
    Failed(s.state)
  }

  predicate IsCached(s: Source) {
    s.fromCache && Terminal(s.state) && !Failed(s.state)
  }

  // Well-formedness of the protected state: the order enumerates the sources.
  ghost predicate Wf(c: Core) {
    && Distinct(c.order)
    && (forall id :: id in c.order <==> id in c.sources)
  }

  function SnapshotOf(c: Core, now: int): Snapshot
    requires forall id :: id in c.order ==> id in c.sources
  {
    var gathered := Gathered(c.order, c.sources);
    Snapshot(|c.order|, Count(c.order, c.sources, IsTerminal), |gathered|,
             Count(c.order, c.sources, IsFailed), Count(c.order, c.sources, IsCached),
             c.inFlight > 0, c.cancelled, if c.inFlight > 0 then now - c.started else c.elapsed,
             Rows(c.order, c.sources), StableSort(gathered, ItemLeq))
  }

  function Percent(s: Snapshot): nat {
    if s.total <= 0 then (if s.running then 0 else 100)
    else
      var n := if s.queried > s.total then s.total else s.queried;
      100 * n / s.total
  }

  lemma {:induction false} TerminalAndOpen(order: seq<string>, sources: map<string, Source>)
    requires Distinct(order) && forall id :: id in order ==> id in sources
    ensures Count(order, sources, IsTerminal) + |set id | id in order && !Terminal(sources[id].state)| == |order|
    decreases |order|
  {
    if order != [] {
      var init, last := order[..|order| - 1], order[|order| - 1];
      TerminalAndOpen(init, sources);
      var before := set id | id in init && !Terminal(sources[id].state);
      var after := set id | id in order && !Terminal(sources[id].state);
      assert order == init + [last] && last !in init;
      OneMoreOpen(init, sources, last);
    }
  }

  lemma OneMoreOpen(init: seq<string>, sources: map<string, Source>, last: string)
    requires last in sources && last !in init && forall id :: id in init ==> id in sources
    ensures var before := set id | id in init && !Terminal(sources[id].state);
            var after := set id | id in init + [last] && !Terminal(sources[id].state);
            |after| == |before| + if Terminal(sources[last].state) then 0 else 1
  {
    hide Terminal;
    var before := set id | id in init && !Terminal(sources[id].state);
    var after := set id | id in init + [last] && !Terminal(sources[id].state);
    if Terminal(sources[last].state) {
      assert after == before;
    } else {
      assert after == before + {last};
    }
  }

  // What the list is made of: the sources' items, in key order, ties in source
  // order. Nothing about when each source answered enters into it.
  lemma SnapshotItems(c: Core, now: int, e: Item)
    requires Wf(c)
    ensures var s := SnapshotOf(c, now);
            && Sorted(s.items, ItemLeq) && multiset(s.items) == multiset(Gathered(c.order, c.sources))
            && Ties(s.items, e, ItemLeq) == Ties(Gathered(c.order, c.sources), e, ItemLeq)
            && s.records == |s.items|
  {
    ItemOrder();
    var gathered := Gathered(c.order, c.sources);
    SortSorts(gathered, ItemLeq);
    SortIsStable(gathered, ItemLeq, e);
    assert |multiset(StableSort(gathered, ItemLeq))| == |multiset(gathered)|;
  }

  // Two tasks over the same sources whose sources hold the same items print the
  // same list, whatever order the answers came in.
  lemma {:induction false} SameContentsSameList(order: seq<string>, x: map<string, Source>, y: map<string, Source>)
    requires forall id :: id in order ==> id in x && id in y && x[id].items == y[id].items
    ensures Gathered(order, x) == Gathered(order, y)
    decreases |order|
  {
    if order != [] {
      SameContentsSameList(order[..|order| - 1], x, y);
    }
  }

  // One row for each source, in the order they were chosen.
  lemma {:induction false} RowsAre(order: seq<string>, sources: map<string, Source>)
    requires forall id :: id in order ==> id in sources
    ensures |Rows(order, sources)| == |order|
    ensures forall k :: 0 <= k < |order| ==> Rows(order, sources)[k] == RowOf(order[k], sources[order[k]])
    decreases |order|
  {
    hide RowOf;
    if order != [] {
      RowsAre(order[..|order| - 1], sources);
    }
  }

  // What the rows say adds up to what the totals say.
  lemma {:induction false} RowsAddUp(order: seq<string>, sources: map<string, Source>)
    requires forall id :: id in order ==> id in sources
    ensures Records(Rows(order, sources)) == |Gathered(order, sources)|
    decreases |order|
  {
    if order != [] {
      RowsAddUp(order[..|order| - 1], sources);
      var rows := Rows(order, sources);
      assert rows[..|rows| - 1] == Rows(order[..|order| - 1], sources);
    }
  }

  // A shown duration is off by half a millisecond at most.
  lemma RowIsClose(id: string, s: Source)
    ensures -1_000_000 <= 2 * (1_000_000 * RowOf(id, s).duration - s.duration) <= 1_000_000
  {
    if s.duration < 0 {
      RoundedIsClose(-s.duration);
    } else {
      RoundedIsClose(s.duration);
    }
  }

  lemma RoundedIsClose(d: int)
    ensures -1_000_000 <= 2 * (1_000_000 * Rounded(d) - d) <= 1_000_000
  {
    var q := d / 1_000_000;
    assert 0 <= d - q * 1_000_000 < 1_000_000;
  }

  function Records(rows: seq<Row>): nat {
    if rows == [] then 0 else Records(rows[..|rows| - 1]) + rows[|rows| - 1].count
  }

  lemma SnapshotCounts(c: Core, now: int)
    requires Wf(c)
    ensures var s := SnapshotOf(c, now);
            && s.queried + |Open(c.sources)| == s.total
            && 0 <= Percent(s) <= 100
            && (c.order != [] ==> (Percent(s) == 100 <==> Open(c.sources) == {}))
  {
    TerminalAndOpen(c.order, c.sources);
    assert Open(c.sources) == set id | id in c.order && !Terminal(c.sources[id].state);
    var s := SnapshotOf(c, now);
    if s.total > 0 {
      PercentBounds(s.queried, s.total);
    }
  }

  lemma PercentBounds(n: nat, total: nat)
    requires n <= total && 0 < total
    ensures 0 <= 100 * n / total <= 100
    ensures 100 * n / total == 100 <==> n == total
  {
    QuotientBelow(100 * n, total, 100);
    QuotientBelow(100 * n, total, 101);
  }

  /* ---- The task ---- */

  method CountOpen(sources: map<string, Source>) returns (running: nat)
    ensures running == |Open(sources)|
  {
    running := 0;
    var rest := sources.Keys;
    while rest != {}
      invariant rest <= sources.Keys && running == |Open(sources) - rest|
    {
      var id :| id in rest;
      OpenBut(sources, rest, id);
      if !Terminal(sources[id].state) {
        running := running + 1;
      }
      rest := rest - {id};
    }
    assert Open(sources) - rest == Open(sources);
  }

  lemma OpenBut(sources: map<string, Source>, rest: set<string>, id: string)
    requires id in rest && id in sources
    ensures |Open(sources) - (rest - {id})| == |Open(sources) - rest| + if Terminal(sources[id].state) then 0 else 1
  {
    hide Terminal;
    if Terminal(sources[id].state) {
      assert Open(sources) - (rest - {id}) == Open(sources) - rest;
    } else {
      assert Open(sources) - (rest - {id}) == (Open(sources) - rest) + {id};
    }
  }

  // The loop of watchCeiling over the sources.
  method MarkTimedOut(sources: map<string, Source>, now: int) returns (marked: map<string, Source>, changed: bool)
    ensures marked == map id | id in sources :: TimedOut(sources[id], now)
    ensures changed <==> Open(sources) != {}
  {
    marked, changed := sources, false;
    var rest := sources.Keys;
    while rest != {}
      invariant rest <= sources.Keys == marked.Keys
      invariant forall id :: id in sources ==> marked[id] == if id in rest then sources[id] else TimedOut(sources[id], now)
      invariant changed ==> Open(sources) != {}
      invariant !changed ==> Open(sources) <= rest
    {
      var id :| id in rest;
      rest := rest - {id};
      var st := marked[id];
      if !Terminal(st.state) {
        assert id in Open(sources);
        marked := marked[id := st.(state := Timeout, reason := "timed out",
                                   duration := if st.startedAt.Some? then now - st.startedAt.value else st.duration)];
        changed := true;
      }
    }
  }

  class Task {
    var order: seq<string>
    var sources: map<string, Source>
    var inFlight: nat
    var expired: bool
    var cancelled: bool
    var settled: bool
    var started: int
    var elapsed: int
    var released: bool

    ghost function View(): Core
      reads this
    {
      Core(order, sources, inFlight, expired, cancelled, settled, started, elapsed, released)
    }

    // Start refuses an empty selection before it builds the task; see Registry.
    constructor (ids: seq<string>, now: int)
      ensures View() == Opened(Kept(ids), now)
    {
      var kept: seq<string> := [];
      var states: map<string, Source> := map[];
      for i := 0 to |ids|
        invariant kept == Kept(ids[..i]) && states == FreshSources(kept)
      {
        assert ids[..i + 1][..i] == ids[..i];
        if !(ids[i] in states || ids[i] == "") {
          states := states[ids[i] := FreshSource];
          kept := kept + [ids[i]];
        }
      }
      assert ids[..|ids|] == ids;
      order, sources := kept, states;
      inFlight := |kept|;
      expired, cancelled, settled, released := false, false, false, false;
      started, elapsed := now, 0;
    }

    method SettleLocked(now: int)
      modifies this
      ensures View() == Settle(old(View()), now)
    {
      var running := CountOpen(sources);
      inFlight := running;
      if running == 0 {
        if !settled {
          settled := true;
          elapsed := now - started;
        }
        released := true;
      }
    }

    method Begin(id: string, now: int) returns (poll: bool)
      modifies this
      ensures (View(), poll) == BeginSection(old(View()), id, now)
    {
      if id !in sources {
        return false;
      }
      if cancelled {
        sources := sources[id := sources[id].(state := Cancelled)];
        SettleLocked(now);
        return false;
      }
      var st := sources[id];
      sources := sources[id := st.(state := Querying, startedAt := Some(now), attempt := st.attempt + 1)];
      return true;
    }

    method Finish(id: string, outcome: Outcome, now: int)
      modifies this
      ensures View() == FinishSection(old(View()), id, outcome, now)
    {
      if id !in sources {
        return;
      }
      hide Settle, Open;
      var st := Conclude(View(), sources[id], outcome, cancelled, expired, now);
      sources := sources[id := st];
      SettleLocked(now);
    }

    static method Conclude(ghost c: Core, was: Source, outcome: Outcome, cancelled: bool, expired: bool, now: int)
      returns (st: Source)
      requires cancelled == c.cancelled && expired == c.expired
      ensures st == Concluded(c, was, outcome, now)
    {
      st := was;
      if st.startedAt.Some? {
        st := st.(duration := now - st.startedAt.value);
      }
      st := st.(fromCache := outcome.fromCache);
      match outcome {
        case Answer(items, _) =>
          st := st.(items := items, reason := "", state := if items == [] then Empty else Done);
        case Failure(_, cancellation, deadline, reason) =>
          if cancelled && cancellation {
            st := st.(state := Cancelled, reason := "poll interrupted");
          } else if deadline || (expired && cancellation) {
            st := st.(state := Timeout, reason := "timed out");
          } else if cancellation {
            st := st.(state := Cancelled, reason := "poll interrupted");
          } else {
            st := st.(state := Error, reason := reason);
          }
      }
    }

    method WatchCeiling(now: int)
      modifies this
      ensures View() == CeilingSection(old(View()), now)
    {
      expired := true;
      var changed;
      sources, changed := MarkTimedOut(sources, now);
      if changed {
        SettleLocked(now);
      }
    }

    method Retry(id: string, now: int) returns (accepted: bool)
      modifies this
      ensures (View(), accepted) == RetrySection(old(View()), id, now)
    {
      if id !in sources || cancelled || !Terminal(sources[id].state) {
        return false;
      }
      sources := sources[id := sources[id].(state := Waiting, reason := "", items := [], duration := 0, startedAt := None)];
      settled, elapsed, started := false, 0, now;
      SettleLocked(now);
      return true;
    }

    method Cancel(now: int)
      modifies this
      ensures View() == CancelSection(old(View()), now)
    {
      cancelled := true;
      var rest := sources.Keys;
      while rest != {}
        invariant View() == old(View()).(cancelled := true, sources := sources)
        invariant rest <= sources.Keys == old(sources).Keys
        invariant forall id :: id in rest ==> sources[id] == old(sources)[id]
        invariant forall id :: id in sources && id !in rest ==> sources[id] == Interrupted(old(sources)[id])
      {
        var id :| id in rest;
        rest := rest - {id};
        if !Terminal(sources[id].state) {
          sources := sources[id := sources[id].(state := Cancelled, reason := "poll interrupted")];
        }
      }
      assert sources == map id | id in old(sources) :: Interrupted(old(sources)[id]);
      SettleLocked(now);
    }

    method TakeSnapshot(now: int) returns (snap: Snapshot)
      requires Wf(View())
      ensures snap == SnapshotOf(View(), now)
    {
      var queried: nat, failed: nat, cached: nat, records: nat := 0, 0, 0, 0;
      var rows: seq<Row> := [];
      var items: seq<Item> := [];
      for i := 0 to |order|
        invariant rows == Rows(order[..i], sources)
        invariant queried == Count(order[..i], sources, IsTerminal)
        invariant failed == Count(order[..i], sources, IsFailed)
        invariant cached == Count(order[..i], sources, IsCached)
        invariant items == Gathered(order[..i], sources) && records == |items|
      {
        assert order[..i + 1][..i] == order[..i] && order[..i + 1][i] == order[i];
        var st := sources[order[i]];
        if Terminal(st.state) {
          queried := queried + 1;
        }
        if Failed(st.state) {
          failed := failed + 1;
        }
        if st.fromCache && Terminal(st.state) && !Failed(st.state) {
          cached := cached + 1;
        }
        rows := rows + [RowOf(order[i], st)];
        items := items + st.items;
        records := records + |st.items|;
      }
      assert order[..|order|] == order;
      snap := Snapshot(|order|, queried, records, failed, cached, inFlight > 0, cancelled,
                       if inFlight > 0 then now - started else elapsed, rows, StableSort(items, ItemLeq));
    }
  }
}
