// What a source of a fan-out task shows, told from what happened to it: in every
// interleaving its state, items, reason and time follow from the last thing that moved it
// (internal/fanout/fanout.go).
module FanOutVerdicts {
  import opened Ordering
  import opened Quotients
  import opened FanOut
  import opened FanOutProtocol

  // What one step does to one source.
  datatype Event =
    | Nothing
    | Asked(at: int)
    | Reopened
    | Finished(outcome: Outcome, cancelled: bool, expired: bool, at: int)
    | Overdue(at: int)
    | CutOff
    | TurnedAway

  predicate OpenAt(c: Core, id: string) {
    id in c.sources && !Terminal(c.sources[id].state)
  }

  ghost function EventOf(s: System, step: Step, id: string): Event
    requires Enabled(s, step)
  {
    match step
    case BeginRun(r, now) => if s.runs[r].id != id then Nothing else if s.core.cancelled then TurnedAway else Asked(now)
    case FinishRun(r, outcome, now) =>
      if s.runs[r].id == id then Finished(outcome, s.core.cancelled, s.core.expired, now) else Nothing
    case GiveUp(r, now) =>
      if s.runs[r].id != id then Nothing
      else
        var context := if s.runs[r].sweep then s.sweep else s.root;
        Finished(Failure(false, context == Canceled, context == Deadline, ""), s.core.cancelled, s.core.expired, now)
    case WatcherWakes(now) => if s.sweep == Deadline && OpenAt(s.core, id) then Overdue(now) else Nothing
    case RetryCall(other, _) => if other == id && !s.core.cancelled && !OpenAt(s.core, id) then Reopened else Nothing
    case CancelCall(_) => if OpenAt(s.core, id) then CutOff else Nothing
    case _ => Nothing
  }

  // The last thing that moved a source in the first `n` steps; at the start it is as if
  // just reopened.
  ghost function LastEvent(states: seq<System>, steps: seq<Step>, n: nat, id: string): Event
    requires Behaviour(states, steps) && n <= |steps|
  {
    if n == 0 then Reopened
    else
      assert TakesAt(states, steps, n - 1);
      var e := EventOf(states[n - 1], steps[n - 1], id);
      if e == Nothing then LastEvent(states, steps, n - 1, id) else e
  }

  // When it was last asked, since it was last reopened.
  ghost function AskedAt(states: seq<System>, steps: seq<Step>, n: nat, id: string): Option<int>
    requires Behaviour(states, steps) && n <= |steps|
  {
    if n == 0 then None
    else
      assert TakesAt(states, steps, n - 1);
      match EventOf(states[n - 1], steps[n - 1], id)
      case Asked(at) => Some(at)
      case Reopened => None
      case _ => AskedAt(states, steps, n - 1, id)
  }

  // How often it was asked.
  ghost function Asks(states: seq<System>, steps: seq<Step>, n: nat, id: string): nat
    requires Behaviour(states, steps) && n <= |steps|
  {
    if n == 0 then 0
    else
      assert TakesAt(states, steps, n - 1);
      Asks(states, steps, n - 1, id) + if EventOf(states[n - 1], steps[n - 1], id).Asked? then 1 else 0
  }

  /* ---- The verdicts ---- */

  predicate Answered(e: Event) {
    e.Finished? && e.outcome.Answer?
  }

  // A failure of the source itself.
  predicate Broken(e: Event) {
    e.Finished? && e.outcome.Failure? && !e.outcome.cancellation && !e.outcome.deadline
  }

  // Its time ran out: at the ceiling, or by a failure that says so. A cancellation counts
  // as one once the ceiling has passed, unless the task was cancelled.
  predicate TooLate(e: Event) {
    || e.Overdue?
    || (e.Finished? && e.outcome.Failure? && !(e.cancelled && e.outcome.cancellation)
        && (e.outcome.deadline || (e.expired && e.outcome.cancellation)))
  }

  // It was stopped: while open when the task was cancelled, or on its way in afterwards, or
  // by a failure that is a cancellation.
  predicate Stopped(e: Event) {
    || e.CutOff? || e.TurnedAway?
    || (e.Finished? && e.outcome.Failure? && e.outcome.cancellation
        && (e.cancelled || (!e.outcome.deadline && !e.expired)))
  }

  ghost predicate Shows(s: Source, e: Event, asked: Option<int>) {
    && (s.state == Waiting <==> e.Reopened?)
    && (s.state == Querying <==> e.Asked?)
    && (s.state == Done <==> Answered(e) && e.outcome.items != [])
    && (s.state == Empty <==> Answered(e) && e.outcome.items == [])
    && (s.state == Error <==> Broken(e))
    && (s.state == Timeout <==> TooLate(e))
    && (s.state == Cancelled <==> Stopped(e))
    && (Answered(e) ==> s.items == e.outcome.items && s.reason == "")
    && (Broken(e) ==> s.reason == e.outcome.reason)
    && (TooLate(e) ==> s.reason == "timed out")
    && (Stopped(e) && !e.TurnedAway? ==> s.reason == "poll interrupted")
    && (e.Finished? ==> s.fromCache == e.outcome.fromCache)
    && (e.Reopened? ==> s.items == [] && s.reason == "" && s.duration == 0)
    && s.startedAt == asked && (asked == None ==> s.duration == 0)
    && (e.Finished? || e.Overdue? ==> s.duration == if asked.Some? then e.at - asked.value else 0)
  }

  // Where one step leaves one source.
  function Moved(c: Core, source: Source, e: Event): Source {
    match e
    case Nothing => source
    case Asked(at) => source.(state := Querying, startedAt := Some(at), attempt := source.attempt + 1)
    case Reopened => source.(state := Waiting, reason := "", items := [], duration := 0, startedAt := None)
    case Finished(outcome, _, _, at) => Concluded(c, source, outcome, at)
    case Overdue(at) => source.(state := Timeout, reason := "timed out", duration := Timed(source, at))
    case CutOff => source.(state := Cancelled, reason := "poll interrupted")
    case TurnedAway => source.(state := Cancelled)
  }

  lemma SectionMoves(s: System, step: Step, id: string)
    requires Enabled(s, step) && Base(s) && id in s.core.sources
    ensures id in Apply(s, step).core.sources
    ensures Apply(s, step).core.sources[id] == Moved(s.core, s.core.sources[id], EventOf(s, step, id))
  {
    hide Settle, Concluded;
    match step {
      case BeginRun(r, now) => BeginMoves(s.core, s.runs[r].id, now);
      case FinishRun(r, outcome, now) => FinishMoves(s.core, s.runs[r].id, outcome, now);
      case GiveUp(r, now) => FinishMoves(s.core, s.runs[r].id, ContextError(ContextOf(s, s.runs[r])), now);
      case WatcherWakes(now) => CeilingMoves(s.core, id, now);
      case RetryCall(other, now) => RetryMovesOnly(s.core, other, now);
      case CancelCall(now) => CancelMoves(s.core, id, now);
      case _ =>
    }
  }

  lemma BeginMoves(c: Core, id: string, now: int)
    requires id in c.sources
    ensures var s' := BeginSection(c, id, now).0.sources;
            if c.cancelled then s' == c.sources[id := c.sources[id].(state := Cancelled)]
            else s' == c.sources[id := c.sources[id].(state := Querying, startedAt := Some(now), attempt := c.sources[id].attempt + 1)]
  {
    SettleKeeps(c.(sources := c.sources[id := c.sources[id].(state := Cancelled)]), now);
    hide Settle;
  }

  lemma FinishMoves(c: Core, id: string, outcome: Outcome, now: int)
    requires id in c.sources
    ensures FinishSection(c, id, outcome, now).sources == c.sources[id := Concluded(c, c.sources[id], outcome, now)]
  {
    SettleKeeps(c.(sources := c.sources[id := Concluded(c, c.sources[id], outcome, now)]), now);
    hide Settle, Concluded;
  }

  lemma CeilingMoves(c: Core, id: string, now: int)
    requires id in c.sources
    ensures id in CeilingSection(c, now).sources && CeilingSection(c, now).sources[id] == TimedOut(c.sources[id], now)
  {
    SettleKeeps(c.(expired := true, sources := map id | id in c.sources :: TimedOut(c.sources[id], now)), now);
    hide Settle, TimedOut;
  }

  lemma RetryMovesOnly(c: Core, id: string, now: int)
    ensures var (d, accepted) := RetrySection(c, id, now);
            && (accepted <==> id in c.sources && !c.cancelled && Terminal(c.sources[id].state))
            && (!accepted ==> d == c)
            && (accepted ==> d.sources == c.sources[id := c.sources[id].(state := Waiting, reason := "", items := [], duration := 0, startedAt := None)])
  {
    if id in c.sources {
      var source := c.sources[id].(state := Waiting, reason := "", items := [], duration := 0, startedAt := None);
      SettleKeeps(c.(sources := c.sources[id := source], settled := false, elapsed := 0, started := now), now);
    }
    hide Settle;
  }

  lemma CancelMoves(c: Core, id: string, now: int)
    requires id in c.sources
    ensures id in CancelSection(c, now).sources && CancelSection(c, now).sources[id] == Interrupted(c.sources[id])
  {
    SettleKeeps(c.(cancelled := true, sources := map id | id in c.sources :: Interrupted(c.sources[id])), now);
    hide Settle, Interrupted;
  }

  lemma MovedShows(c: Core, source: Source, e: Event, last: Event, asked: Option<int>)
    requires Shows(source, last, asked) && e != Nothing
    requires e.Finished? ==> e.cancelled == c.cancelled && e.expired == c.expired
    ensures Shows(Moved(c, source, e), e, if e.Asked? then Some(e.at) else if e.Reopened? then None else asked)
    ensures Moved(c, source, e).attempt == source.attempt + if e.Asked? then 1 else 0
  {
  }

  // One step: a source nothing happens to stays as it is, any other shows what happened.
  lemma StepShows(s: System, step: Step, id: string, last: Event, asked: Option<int>)
    requires Enabled(s, step) && Base(s) && id in s.core.sources && Shows(s.core.sources[id], last, asked)
    ensures id in Apply(s, step).core.sources
    ensures var e := EventOf(s, step, id);
            && (e == Nothing ==> Apply(s, step).core.sources[id] == s.core.sources[id])
            && (e != Nothing ==>
                  Shows(Apply(s, step).core.sources[id], e, if e.Asked? then Some(e.at) else if e.Reopened? then None else asked))
            && Apply(s, step).core.sources[id].attempt == s.core.sources[id].attempt + if e.Asked? then 1 else 0
  {
    SectionMoves(s, step, id);
    var e := EventOf(s, step, id);
    assert e.Finished? ==> e.cancelled == s.core.cancelled && e.expired == s.core.expired;
    hide Apply, EventOf, Shows, Base, Enabled;
    if e != Nothing {
      MovedShows(s.core, s.core.sources[id], e, last, asked);
    }
  }

  // In every state of every interleaving.
  lemma {:induction false} VerdictsExactly(states: seq<System>, steps: seq<Step>, n: nat, id: string)
    requires Behaviour(states, steps) && n <= |steps| && id in states[0].core.sources
    ensures id in states[n].core.sources
    ensures Shows(states[n].core.sources[id], LastEvent(states, steps, n, id), AskedAt(states, steps, n, id))
    ensures states[n].core.sources[id].attempt == Asks(states, steps, n, id)
    decreases n
  {
    if n > 0 {
      VerdictsExactly(states, steps, n - 1, id);
      AlwaysInv(states, steps, n - 1);
      assert TakesAt(states, steps, n - 1);
      StepShows(states[n - 1], steps[n - 1], id, LastEvent(states, steps, n - 1, id), AskedAt(states, steps, n - 1, id));
    }
  }

  // A task is opened over the named sources in the order given, each where it first stands,
  // and all of them wait.
  lemma {:induction false} OpenedExactly(ids: seq<string>) returns (at: seq<nat>)
    ensures FirstPlaces(ids, Kept(ids), at)
  {
    at := [];
    if ids != [] {
      var n := |ids| - 1;
      var init, last := ids[..n], ids[n];
      at := OpenedExactly(init);
      KeptDistinct(init);
      assert ids == init + [last];
      hide FirstPlaces, Distinct;
      OnePlaceMore(init, Kept(init), at, last);
      if last != "" && last !in Kept(init) {
        at := at + [n];
      }
    }
  }

  // These are the named identifiers, each where it first stands.
  ghost predicate FirstPlaces(ids: seq<string>, kept: seq<string>, at: seq<nat>) {
    && |at| == |kept| && (forall i :: 0 <= i < |at| ==> at[i] < |ids| && kept[i] == ids[at[i]])
    && (forall i, j :: 0 <= i < j < |at| ==> at[i] < at[j])
    && (forall k :: 0 <= k < |ids| ==> (k in at <==> ids[k] != "" && ids[k] !in ids[..k]))
  }

  lemma OnePlaceMore(ids: seq<string>, kept: seq<string>, at: seq<nat>, last: string)
    requires FirstPlaces(ids, kept, at)
    ensures if last != "" && last !in ids then FirstPlaces(ids + [last], kept + [last], at + [|ids|])
            else FirstPlaces(ids + [last], kept, at)
  {
    assert |ids| !in at && forall k :: 0 <= k <= |ids| ==> (ids + [last])[..k] == ids[..k];
  }

  /* ---- Snapshots ---- */

  // `those` are the listed sources of which `p` holds.
  ghost predicate Marked(order: seq<string>, sources: map<string, Source>, p: Source -> bool, those: set<string>) {
    && (forall id :: id in order ==> id in sources)
    && (forall id :: id in those <==> id in order && id in sources && p(sources[id]))
  }

  lemma MarkedInit(init: seq<string>, last: string, sources: map<string, Source>, p: Source -> bool, those: set<string>)
    requires Marked(init + [last], sources, p, those) && last !in init
    ensures Marked(init, sources, p, those - {last}) && (p(sources[last]) <==> last in those)
  {
    assert (init + [last])[|init|] == last;
    assert forall id :: id in init ==> id in init + [last];
  }

  lemma {:induction false} CountIs(order: seq<string>, sources: map<string, Source>, p: Source -> bool, those: set<string>)
    requires Distinct(order) && Marked(order, sources, p, those)
    ensures Count(order, sources, p) == |those|
    decreases |order|
  {
    if order != [] {
      var init, last := order[..|order| - 1], order[|order| - 1];
      assert order == init + [last] && last !in init && Distinct(init);
      MarkedInit(init, last, sources, p, those);
      CountIs(init, sources, p, those - {last});
      FewerWithout(those, last);
    }
  }

  lemma {:induction false} SourcesStay(states: seq<System>, steps: seq<Step>, n: nat)
    requires Behaviour(states, steps) && n <= |steps|
    ensures states[n].core.order == states[0].core.order && Wf(states[n].core) && states[n].core.sources.Keys == states[0].core.sources.Keys
    decreases n
  {
    AlwaysInv(states, steps, n);
    AlwaysInv(states, steps, 0);
    if n > 0 {
      SourcesStay(states, steps, n - 1);
      assert TakesAt(states, steps, n - 1);
      OrderStays(states[n - 1], steps[n - 1]);
      hide Apply, Enabled;
    }
    assert Wf(states[n].core) && Wf(states[0].core);
    hide Inv, Behaviour;
    SameOrderSameKeys(states[n].core, states[0].core);
  }

  lemma SameOrderSameKeys(c: Core, d: Core)
    requires Wf(c) && Wf(d) && (c.order == d.order)
    ensures c.sources.Keys == d.sources.Keys
  {
    assert forall id :: id in c.sources <==> id in d.sources;
  }

  lemma OrderStays(s: System, step: Step)
    requires Enabled(s, step)
    ensures Apply(s, step).core.order == s.core.order
  {
    hide Open, Concluded, TimedOut, Interrupted, Terminal;
    forall c, now
      ensures SettleClock(c, now)
    {
      SettlesOnce(c, now);
    }
    hide Settle;
  }

  ghost predicate HasFailed(states: seq<System>, steps: seq<Step>, n: nat, id: string)
    requires Behaviour(states, steps) && n <= |steps|
  {
    Broken(LastEvent(states, steps, n, id)) || TooLate(LastEvent(states, steps, n, id))
  }

  ghost predicate IsPending(states: seq<System>, steps: seq<Step>, n: nat, id: string)
    requires Behaviour(states, steps) && n <= |steps|
  {
    LastEvent(states, steps, n, id).Reopened? || LastEvent(states, steps, n, id).Asked?
  }

  lemma SourceTells(states: seq<System>, steps: seq<Step>, n: nat, id: string)
    requires Behaviour(states, steps) && n <= |steps| && id in states[0].core.sources
    ensures id in states[n].core.sources
    ensures IsFailed(states[n].core.sources[id]) <==> HasFailed(states, steps, n, id)
    ensures !Terminal(states[n].core.sources[id].state) <==> IsPending(states, steps, n, id)
  {
    VerdictsExactly(states, steps, n, id);
    hide Behaviour, LastEvent, AskedAt, Asks;
  }

  lemma CountsTell(c: Core, failed: set<string>, pending: set<string>, now: int)
    requires Wf(c) && forall id :: id in failed || id in pending ==> id in c.order
    requires forall id :: id in c.order ==> (IsFailed(c.sources[id]) <==> id in failed)
    requires forall id :: id in c.order ==> (!Terminal(c.sources[id].state) <==> id in pending)
    ensures SnapshotOf(c, now).failed == |failed| && SnapshotOf(c, now).total - SnapshotOf(c, now).queried == |pending|
  {
    CountIs(c.order, c.sources, IsFailed, failed);
    TerminalAndOpen(c.order, c.sources);
    assert (set id | id in c.order && !Terminal(c.sources[id].state)) == pending;
    hide Count, Gathered, Rows, StableSort;
  }

  // The page says failed of exactly as many sources as broke or came too late, and waits
  // for exactly those that are to be asked or have been asked.
  lemma SnapshotTells(states: seq<System>, steps: seq<Step>, n: nat, now: int)
    requires Behaviour(states, steps) && n <= |steps|
    ensures Wf(states[n].core)
    ensures var order, s := states[0].core.order, SnapshotOf(states[n].core, now);
            && s.total == |order|
            && s.failed == |set id | id in order && HasFailed(states, steps, n, id)|
            && s.total - s.queried == |set id | id in order && IsPending(states, steps, n, id)|
  {
    SourcesStay(states, steps, n);
    var c, order := states[n].core, states[0].core.order;
    forall id | id in order
      ensures IsFailed(c.sources[id]) <==> HasFailed(states, steps, n, id)
      ensures !Terminal(c.sources[id].state) <==> IsPending(states, steps, n, id)
    {
      SourceTells(states, steps, n, id);
    }
    hide Behaviour, HasFailed, IsPending, Terminal, IsFailed, SnapshotOf;
    var failed := set id | id in order && HasFailed(states, steps, n, id);
    var pending := set id | id in order && IsPending(states, steps, n, id);
    CountsTell(c, failed, pending, now);
    SnapshotTotal(c, now);
  }

  lemma SnapshotTotal(c: Core, now: int)
    requires Wf(c)
    ensures SnapshotOf(c, now).total == |c.order|
  {
  }

  // Shown as from a cache are the sources that have stopped without failing and whose
  // answer said so; the bar is the share of those that have stopped, rounded down.
  lemma CachedAndPercent(c: Core, now: int)
    requires Wf(c)
    ensures SnapshotOf(c, now).cached ==
            |set id | id in c.order && c.sources[id].fromCache && c.sources[id].state in {Done, Empty, Cancelled}|
    ensures var s := SnapshotOf(c, now);
            s.total > 0 ==> Percent(s) * s.total <= 100 * s.queried < (Percent(s) + 1) * s.total
  {
    var those := set id | id in c.order && c.sources[id].fromCache && c.sources[id].state in {Done, Empty, Cancelled};
    CountIs(c.order, c.sources, IsCached, those);
    TerminalAndOpen(c.order, c.sources);
    hide Count, Gathered, Rows, StableSort;
    var s := SnapshotOf(c, now);
    if s.total > 0 {
      FloorOf(100 * s.queried, s.total);
    }
  }

  lemma FloorOf(m: nat, n: nat)
    requires n > 0
    ensures m / n * n <= m < (m / n + 1) * n
  {
    QuotientBelow(m, n, m / n);
    QuotientBelow(m, n, m / n + 1);
  }

  /* ---- The clock of the task ---- */

  function TimeOf(step: Step): Option<int> {
    match step
    case GiveUp(_, now) => Some(now)
    case BeginRun(_, now) => Some(now)
    case FinishRun(_, _, now) => Some(now)
    case WatcherWakes(now) => Some(now)
    case RetryCall(_, now) => Some(now)
    case CancelCall(now) => Some(now)
    case _ => None
  }

  // The elapsed time is taken when the last open source closes, stands from then on, and
  // starts anew only with an accepted retry.
  lemma ClockMoves(s: System, step: Step)
    requires Enabled(s, step)
    ensures var c, d := s.core, Apply(s, step).core;
            var again := step.RetryCall? && EventOf(s, step, step.id).Reopened? && step.id in c.sources;
            && (again ==> d.started == step.now && !d.settled)
            && (!again ==> d.started == c.started && (c.settled ==> d.settled && d.elapsed == c.elapsed))
            && (!c.settled && d.settled ==> TimeOf(step).Some? && d.elapsed == TimeOf(step).value - c.started)
            && (!c.settled && d.settled ==> Open(d.sources) == {})
  {
    match step {
      case RetryCall(id, now) => RetryClock(s.core, id, now);
      case _ => ClockRuns(s, step);
    }
  }

  lemma ClockRuns(s: System, step: Step)
    requires Enabled(s, step) && !step.RetryCall?
    ensures var c, d := s.core, Apply(s, step).core;
            && d.started == c.started && (c.settled ==> d.settled && d.elapsed == c.elapsed)
            && (!c.settled && d.settled ==> TimeOf(step).Some? && d.elapsed == TimeOf(step).value - c.started)
            && (!c.settled && d.settled ==> Open(d.sources) == {})
  {
    hide Concluded, TimedOut, Interrupted, Open;
    forall c, now
      ensures SettleClock(c, now)
    {
      SettlesOnce(c, now);
    }
    hide Settle;
  }

  ghost predicate SettleClock(c: Core, now: int) {
    var d := Settle(c, now);
    && d.order == c.order && d.started == c.started && d.sources == c.sources && (c.settled ==> d.settled && d.elapsed == c.elapsed)
    && (!c.settled && d.settled ==> d.elapsed == now - c.started && Open(d.sources) == {})
  }

  lemma SettlesOnce(c: Core, now: int)
    ensures SettleClock(c, now)
  {
  }

  lemma RetryClock(c: Core, id: string, now: int)
    ensures var (d, accepted) := RetrySection(c, id, now);
            && (accepted ==> d.started == now && !d.settled)
            && (!accepted ==> d == c)
            && (accepted <==> id in c.sources && !c.cancelled && !OpenAt(c, id))
  {
    if id !in c.sources {
      return;
    }
    var source := c.sources[id].(state := Waiting, reason := "", items := [], duration := 0, startedAt := None);
    assert id in Open(c.sources[id := source]);
  }
}
