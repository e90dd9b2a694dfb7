// The goroutines of one fan-out task as a state machine over its critical
// sections: any number of runs, the ceiling, retries and cancellation, in any
// interleaving (internal/fanout/fanout.go).
module FanOutProtocol {
  import opened Ordering
  import opened FanOut

  // A run waits for the gate, holds a slot, then polls. A retry has a gate of
  // its own and hangs off the root context.
  datatype Phase = Queued | Holding | Polling
  datatype Run = Run(id: string, sweep: bool, phase: Phase)
  datatype Context = Live | Canceled | Deadline

  datatype System = System(core: Core, runs: map<nat, Run>, next: nat, root: Context, sweep: Context,
                           watching: bool, parallel: nat)

  datatype Step =
    | Admit(run: nat)                           // the gate took the run
    | GiveUp(run: nat, now: int)                // the context was done first
    | BeginRun(run: nat, now: int)
    | FinishRun(run: nat, outcome: Outcome, now: int)
    | DeadlinePasses
    | WatcherWakes(now: int)
    | RetryCall(id: string, now: int)
    | CancelCall(now: int)
    | RootCancelled                             // the tail of Cancel, outside the lock

  ghost function InPhase(s: System, phase: Phase): set<nat> {
    set r | r in s.runs && s.runs[r].phase == phase
  }

  // Slots of the sweep's gate that are taken.
  ghost function Holders(s: System): set<nat> {
    set r | r in s.runs && s.runs[r].sweep && s.runs[r].phase != Queued
  }

  function ContextOf(s: System, run: Run): Context {
    if run.sweep then s.sweep else s.root
  }

  ghost predicate Enabled(s: System, step: Step) {
    match step
    case Admit(r) => r in s.runs && s.runs[r].phase == Queued && (s.runs[r].sweep ==> |Holders(s)| < s.parallel)
    case GiveUp(r, _) => r in s.runs && s.runs[r].phase == Queued && ContextOf(s, s.runs[r]) != Live
    case BeginRun(r, _) => r in s.runs && s.runs[r].phase == Holding
    case FinishRun(r, _, _) => r in s.runs && s.runs[r].phase == Polling
    case DeadlinePasses => s.sweep == Live
    case WatcherWakes(_) => s.watching && s.sweep != Live
    case RetryCall(_, _) => true
    case CancelCall(_) => true
    case RootCancelled => s.core.cancelled && s.root == Live
  }

  // Leaving a critical section: runCancel may have stopped the sweep.
  function Leave(s: System, core: Core): System {
    s.(core := core, sweep := if core.released && s.sweep == Live then Canceled else s.sweep)
  }

  function Without(s: System, r: nat): System {
    s.(runs := s.runs - {r})
  }

  function ContextError(c: Context): Outcome {
    Failure(false, c == Canceled, c == Deadline, "")
  }

  ghost function Apply(s: System, step: Step): System
    requires Enabled(s, step)
  {
    match step
    case Admit(r) => s.(runs := s.runs[r := s.runs[r].(phase := Holding)])
    case GiveUp(r, now) =>
      Leave(Without(s, r), FinishSection(s.core, s.runs[r].id, ContextError(ContextOf(s, s.runs[r])), now))
    case BeginRun(r, now) =>
      var (core, poll) := BeginSection(s.core, s.runs[r].id, now);
      Leave(if poll then s.(runs := s.runs[r := s.runs[r].(phase := Polling)]) else Without(s, r), core)
    case FinishRun(r, outcome, now) => Leave(Without(s, r), FinishSection(s.core, s.runs[r].id, outcome, now))
    case DeadlinePasses => s.(sweep := Deadline)
    case WatcherWakes(now) =>
      if s.sweep == Deadline then Leave(s.(watching := false), CeilingSection(s.core, now)) else s.(watching := false)
    case RetryCall(id, now) =>
      var (core, accepted) := RetrySection(s.core, id, now);
      if accepted then Leave(s.(runs := s.runs[s.next := Run(id, false, Queued)], next := s.next + 1), core) else s
    case CancelCall(now) => Leave(s, CancelSection(s.core, now))
    case RootCancelled => s.(root := Canceled, sweep := if s.sweep == Live then Canceled else s.sweep)
  }

  ghost predicate Init(s: System) {
    exists ids, now :: InitFrom(s, ids, now)
  }

  // Start: one queued run per source kept, and the watcher.
  ghost predicate InitFrom(s: System, ids: seq<string>, now: int) {
    var order := Kept(ids);
    && order != [] && s.parallel > 0
    && s.core == Opened(order, now)
    && s.runs == (map k: nat | k < |order| :: Run(order[k], true, Queued)) && s.next == |order|
    && s.root == Live && s.sweep == Live && s.watching
  }

  ghost predicate Behaviour(states: seq<System>, steps: seq<Step>) {
    && |states| == |steps| + 1 && Init(states[0])
    && forall i :: 0 <= i < |steps| ==> TakesAt(states, steps, i)
  }

  ghost predicate TakesAt(states: seq<System>, steps: seq<Step>, i: nat)
    requires i < |steps| && |states| == |steps| + 1
  {
    Takes(states[i], steps[i], states[i + 1])
  }

  ghost predicate Takes(s: System, step: Step, s': System) {
    Enabled(s, step) && s' == Apply(s, step)
  }

  /* ---- The invariant ---- */

  ghost predicate Served(s: System, id: string) {
    exists r :: r in s.runs && s.runs[r].id == id
  }

  // Every source still to be settled has a run that will settle it.
  ghost predicate AllServed(s: System) {
    forall id {:trigger Served(s, id)} :: id in Open(s.core.sources) ==> Served(s, id)
  }

  // Until the ceiling a run is the only one of its source, and its source is open.
  ghost predicate Exclusive(s: System) {
    && (forall r :: r in s.runs ==> s.runs[r].id in Open(s.core.sources))
    && (forall q, r :: q in s.runs && r in s.runs && q != r ==> s.runs[q].id != s.runs[r].id)
  }

  ghost predicate Counted(s: System) {
    && s.core.inFlight <= |Open(s.core.sources)|
    && (s.core.inFlight == 0 ==> s.core.settled && s.core.released)
    && (s.core.released ==> s.sweep != Live)
    && (s.core.cancelled ==> Open(s.core.sources) == {})
  }

  ghost predicate Exact(s: System) {
    !s.core.expired && !s.core.cancelled ==> s.core.inFlight == |Open(s.core.sources)| && Exclusive(s)
  }

  ghost predicate Base(s: System) {
    && Wf(s.core)
    && (forall r :: r in s.runs ==> s.runs[r].id in s.core.sources && r < s.next)
    && 0 < s.parallel && |Holders(s)| <= s.parallel
    && (s.root != Live ==> s.root == Canceled && s.core.cancelled && s.sweep != Live)
    && (s.core.expired ==> !s.watching)
  }

  ghost predicate Inv(s: System) {
    Base(s) && AllServed(s) && Counted(s) && Exact(s)
  }

  lemma InitInv(s: System)
    requires Init(s)
    ensures Inv(s)
  {
    var ids, now :| InitFrom(s, ids, now);
    var order := Kept(ids);
    KeptDistinct(ids);
    assert Holders(s) == {};
    forall id | id in s.core.sources
      ensures Served(s, id)
    {
      var k :| 0 <= k < |order| && order[k] == id;
      assert k in s.runs && s.runs[k].id == id;
    }
    assert Open(s.core.sources) == set id | id in order;
    SetOfDistinct(order);
  }

  lemma {:induction false} SetOfDistinct(order: seq<string>)
    requires Distinct(order)
    ensures |set id | id in order| == |order|
  {
    if order != [] {
      var init, last := order[..|order| - 1], order[|order| - 1];
      SetOfDistinct(init);
      assert order == init + [last];
      assert (set id | id in order) == (set id | id in init) + {last};
    }
  }

  // Runs that stay keep serving their sources.
  lemma ServedKept(s: System, s': System, id: string)
    requires Served(s, id)
    requires forall r :: r in s.runs && s.runs[r].id == id ==> r in s'.runs && s'.runs[r].id == id
    ensures Served(s', id)
  {
    var q :| q in s.runs && s.runs[q].id == id;
    assert q in s'.runs;
  }

  // One source takes a terminal state, as its run leaves.
  ghost predicate Leaves(s: System, r: nat, core: Core, now: int) {
    && r in s.runs && core.sources.Keys == s.core.sources.Keys && s.runs[r].id in core.sources
    && Terminal(core.sources[s.runs[r].id].state)
    && core == s.core.(sources := core.sources)
    && forall id :: id in core.sources && id != s.runs[r].id ==> core.sources[id] == s.core.sources[id]
  }

  // What settling leaves as it is.
  lemma SettleKeeps(c: Core, now: int)
    ensures var d := Settle(c, now);
            && d == c.(inFlight := |Open(c.sources)|, settled := d.settled, elapsed := d.elapsed, released := d.released)
            && (c.released ==> d.released) && (d.inFlight == 0 ==> d.settled && d.released)
  {
  }

  lemma RunLeaves(s: System, r: nat, core: Core, now: int)
    requires Inv(s) && Leaves(s, r, core, now)
    ensures Inv(Leave(Without(s, r), Settle(core, now)))
  {
    LeaveBase(s, r, core, now);
    LeaveServed(s, r, core, now);
    LeaveCounted(s, r, core, now);
  }

  lemma LeaveBase(s: System, r: nat, core: Core, now: int)
    requires Base(s) && Leaves(s, r, core, now)
    ensures Base(Leave(Without(s, r), Settle(core, now)))
  {
    var s' := Leave(Without(s, r), Settle(core, now));
    SettleKeeps(core, now);
    hide Settle, Open, Terminal;
    assert Holders(s') <= Holders(s);
    hide Holders;
    HoldersShrink(s, s');
  }

  lemma LeaveServed(s: System, r: nat, core: Core, now: int)
    requires AllServed(s) && Leaves(s, r, core, now)
    ensures AllServed(Leave(Without(s, r), Settle(core, now)))
  {
    var s' := Leave(Without(s, r), Settle(core, now));
    assert Open(core.sources) == Open(s.core.sources) - {s.runs[r].id};
    SettleKeeps(core, now);
    hide Settle, Open, Terminal;
    forall id | id in Open(core.sources)
      ensures Served(s', id)
    {
      assert Served(s, id);
      ServedKept(s, s', id);
    }
  }

  lemma LeaveCounted(s: System, r: nat, core: Core, now: int)
    requires Counted(s) && Exact(s) && Leaves(s, r, core, now)
    ensures Counted(Leave(Without(s, r), Settle(core, now))) && Exact(Leave(Without(s, r), Settle(core, now)))
  {
    var s' := Leave(Without(s, r), Settle(core, now));
    assert Open(core.sources) == Open(s.core.sources) - {s.runs[r].id};
    LeaveExclusive(s, r, s');
  }

  lemma LeaveExclusive(s: System, r: nat, s': System)
    requires r in s.runs && s'.runs == s.runs - {r} && Open(s'.core.sources) == Open(s.core.sources) - {s.runs[r].id}
    ensures Exclusive(s) ==> Exclusive(s')
  {
  }

  lemma HoldersShrink(s: System, s': System)
    requires Holders(s') <= Holders(s)
    ensures |Holders(s')| <= |Holders(s)|
  {
    Smaller(Holders(s'), Holders(s));
  }

  lemma {:induction false} Smaller<T>(a: set<T>, b: set<T>)
    requires a <= b
    ensures |a| <= |b|
    decreases a
  {
    if a != {} {
      var x :| x in a;
      Smaller(a - {x}, b - {x});
    }
  }

  lemma FinishInv(s: System, r: nat, outcome: Outcome, now: int)
    requires Inv(s) && r in s.runs
    ensures Inv(Leave(Without(s, r), FinishSection(s.core, s.runs[r].id, outcome, now)))
  {
    var id := s.runs[r].id;
    RunLeaves(s, r, s.core.(sources := s.core.sources[id := Concluded(s.core, s.core.sources[id], outcome, now)]), now);
  }

  lemma AdmitInv(s: System, r: nat)
    requires Inv(s) && Enabled(s, Admit(r))
    ensures Inv(Apply(s, Admit(r)))
  {
    var s' := Apply(s, Admit(r));
    AdmitBase(s, r);
    forall id | id in Open(s.core.sources)
      ensures Served(s', id)
    {
      assert Served(s, id);
      ServedKept(s, s', id);
    }
    hide Base;
    SameIdsExclusive(s, s');
  }

  lemma AdmitBase(s: System, r: nat)
    requires Base(s) && Enabled(s, Admit(r))
    ensures Base(Apply(s, Admit(r)))
  {
    var s' := Apply(s, Admit(r));
    if s.runs[r].sweep {
      assert Holders(s') == Holders(s) + {r};
    } else {
      assert Holders(s') == Holders(s);
    }
    hide Holders;
  }

  lemma BeginInv(s: System, r: nat, now: int)
    requires Inv(s) && Enabled(s, BeginRun(r, now))
    ensures Inv(Apply(s, BeginRun(r, now)))
  {
    var id := s.runs[r].id;
    if s.core.cancelled {
      RunLeaves(s, r, s.core.(sources := s.core.sources[id := s.core.sources[id].(state := Cancelled)]), now);
    } else {
      BeginPollInv(s, r, now);
    }
  }

  lemma BeginPollInv(s: System, r: nat, now: int)
    requires Inv(s) && Enabled(s, BeginRun(r, now)) && !s.core.cancelled
    ensures Inv(Apply(s, BeginRun(r, now)))
    ensures Open(Apply(s, BeginRun(r, now)).core.sources) == Open(s.core.sources) + {s.runs[r].id}
  {
    var s' := Apply(s, BeginRun(r, now));
    BeginPolls(s, r, now);
    BeginBase(s, s', r);
    BeginServed(s, s', r);
    BeginCounted(s, s', r);
  }

  // The shape of the state after a source starts polling.
  lemma BeginPolls(s: System, r: nat, now: int)
    requires Base(s) && (s.core.released ==> s.sweep != Live) && Enabled(s, BeginRun(r, now)) && !s.core.cancelled
    ensures var s' := Apply(s, BeginRun(r, now));
            && s' == s.(core := s.core.(sources := s'.core.sources), runs := s.runs[r := s.runs[r].(phase := Polling)])
            && s'.core.sources.Keys == s.core.sources.Keys
            && Open(s'.core.sources) == Open(s.core.sources) + {s.runs[r].id}
  {
    var s' := Apply(s, BeginRun(r, now));
    var id := s.runs[r].id;
    assert forall other :: other in s.core.sources && other != id ==> s'.core.sources[other] == s.core.sources[other];
  }

  lemma BeginBase(s: System, s': System, r: nat)
    requires Base(s) && r in s.runs && s.runs[r].phase == Holding
    requires s' == s.(core := s.core.(sources := s'.core.sources), runs := s.runs[r := s.runs[r].(phase := Polling)])
    requires s'.core.sources.Keys == s.core.sources.Keys
    ensures Base(s')
  {
    assert Holders(s') == Holders(s);
  }

  lemma BeginServed(s: System, s': System, r: nat)
    requires AllServed(s) && r in s.runs && s'.runs == s.runs[r := s.runs[r].(phase := Polling)]
    requires Open(s'.core.sources) == Open(s.core.sources) + {s.runs[r].id}
    ensures AllServed(s')
  {
    forall id | id in Open(s'.core.sources)
      ensures Served(s', id)
    {
      if id == s.runs[r].id {
        assert r in s'.runs && s'.runs[r].id == id;
      } else {
        assert Served(s, id);
        ServedKept(s, s', id);
      }
    }
  }

  lemma BeginCounted(s: System, s': System, r: nat)
    requires Counted(s) && Exact(s) && !s.core.cancelled && r in s.runs
    requires s'.runs == s.runs[r := s.runs[r].(phase := Polling)] && s'.sweep == s.sweep
    requires s'.core == s.core.(sources := s'.core.sources)
    requires Open(s'.core.sources) == Open(s.core.sources) + {s.runs[r].id}
    ensures Counted(s') && Exact(s')
  {
    Smaller(Open(s.core.sources), Open(s'.core.sources));
    if s.runs[r].id in Open(s.core.sources) {
      assert Open(s'.core.sources) == Open(s.core.sources);
      SameIdsExclusive(s, s');
    }
  }

  lemma SameIdsExclusive(s: System, s': System)
    requires Open(s'.core.sources) == Open(s.core.sources) && s'.runs.Keys == s.runs.Keys
    requires forall r :: r in s.runs ==> s'.runs[r].id == s.runs[r].id
    ensures Exclusive(s) ==> Exclusive(s')
  {
  }

  lemma CeilingInv(s: System, now: int)
    requires Inv(s) && Enabled(s, WatcherWakes(now))
    ensures Inv(Apply(s, WatcherWakes(now)))
  {
    var s' := Apply(s, WatcherWakes(now));
    if s.sweep == Deadline {
      CeilingFires(s, now);
    } else {
      assert Holders(s') == Holders(s);
      hide Holders;
      SameIdsExclusive(s, s');
      hide Exclusive, Open;
      assert forall id :: Served(s, id) ==> Served(s', id);
    }
  }

  lemma CeilingFires(s: System, now: int)
    requires Inv(s) && Enabled(s, WatcherWakes(now)) && s.sweep == Deadline
    ensures Inv(Apply(s, WatcherWakes(now)))
  {
    var s' := Apply(s, WatcherWakes(now));
    assert Holders(s') == Holders(s);
    CeilingSettles(s.core, now);
    hide CeilingSection, Open, Exclusive, Served, Holders;
  }

  // The ceiling leaves nothing open.
  lemma CeilingSettles(c: Core, now: int)
    requires Open(c.sources) == {} ==> c.inFlight == 0
    ensures var d := CeilingSection(c, now);
            && d.order == c.order && d.sources.Keys == c.sources.Keys && Open(d.sources) == {}
            && d.inFlight == 0 && d.expired && d.cancelled == c.cancelled
            && ((c.inFlight == 0 && c.settled && c.released) || Open(c.sources) != {} ==> d.settled && d.released)
            && (c.released ==> d.released)
  {
    assert Open(CeilingSection(c, now).sources) == {};
  }

  lemma RetryInv(s: System, id: string, now: int)
    requires Inv(s)
    ensures Inv(Apply(s, RetryCall(id, now)))
  {
    var (core, accepted) := RetrySection(s.core, id, now);
    if accepted {
      RetryAcceptedInv(s, id, now);
    }
  }

  lemma RetryAcceptedInv(s: System, id: string, now: int)
    requires Inv(s) && RetrySection(s.core, id, now).1
    ensures Inv(Apply(s, RetryCall(id, now)))
  {
    var s' := Apply(s, RetryCall(id, now));
    RetryOpens(s, id, now);
    RetryBase(s, s', id);
    RetryServed(s, s', id);
    RetryExclusive(s, s', id);
  }

  // The shape of the state after an accepted retry.
  lemma RetryOpens(s: System, id: string, now: int)
    requires Base(s) && Counted(s) && RetrySection(s.core, id, now).1
    ensures var s' := Apply(s, RetryCall(id, now));
            && s'.core.inFlight == |Open(s'.core.sources)|
            && s' == s.(core := s'.core, runs := s.runs[s.next := Run(id, false, Queued)], next := s.next + 1)
            && s'.core.order == s.core.order && s'.core.sources.Keys == s.core.sources.Keys
            && s'.core.expired == s.core.expired && !s'.core.cancelled && !s.core.cancelled
            && s'.core.released == s.core.released
            && id in s.core.sources && id !in Open(s.core.sources)
            && Open(s'.core.sources) == Open(s.core.sources) + {id}
  {
    var reopened := s.core.sources[id := s.core.sources[id].(state := Waiting, reason := "", items := [], duration := 0, startedAt := None)];
    assert Open(reopened) == Open(s.core.sources) + {id};
    assert id in Open(reopened);
    hide Open;
  }

  lemma RetryBase(s: System, s': System, id: string)
    requires Base(s) && id in s.core.sources
    requires s' == s.(core := s'.core, runs := s.runs[s.next := Run(id, false, Queued)], next := s.next + 1)
    requires s'.core.order == s.core.order && s'.core.sources.Keys == s.core.sources.Keys
    requires s'.core.expired == s.core.expired && !s'.core.cancelled && !s.core.cancelled
    ensures Base(s')
  {
    assert Holders(s') == Holders(s);
  }

  lemma RetryServed(s: System, s': System, id: string)
    requires AllServed(s) && s'.runs == s.runs[s.next := Run(id, false, Queued)]
    requires forall r :: r in s.runs ==> r < s.next
    requires Open(s'.core.sources) == Open(s.core.sources) + {id}
    ensures AllServed(s')
  {
    assert s'.runs[s.next].id == id;
    forall other | other in Open(s'.core.sources)
      ensures Served(s', other)
    {
      if other != id {
        assert Served(s, other);
        ServedKept(s, s', other);
      }
    }
  }

  lemma RetryExclusive(s: System, s': System, id: string)
    requires forall r :: r in s.runs ==> r < s.next
    requires s'.runs == s.runs[s.next := Run(id, false, Queued)] && id !in Open(s.core.sources)
    requires Open(s'.core.sources) == Open(s.core.sources) + {id}
    ensures Exclusive(s) ==> Exclusive(s')
  {
  }

  lemma CancelInv(s: System, now: int)
    requires Inv(s)
    ensures Inv(Apply(s, CancelCall(now)))
  {
    var s' := Apply(s, CancelCall(now));
    assert Open(s'.core.sources) == {};
    assert s'.core.sources.Keys == s.core.sources.Keys;
    assert Holders(s') == Holders(s);
  }

  lemma ContextInv(s: System, s': System)
    requires Inv(s)
    requires s' == s.(root := s'.root, sweep := s'.sweep)
    requires s.sweep != Live ==> s'.sweep != Live
    requires s'.root != Live ==> s'.root == Canceled && s.core.cancelled && s'.sweep != Live
    ensures Inv(s')
  {
    assert Holders(s') == Holders(s);
    assert forall id :: Served(s, id) ==> Served(s', id);
  }

  lemma StepInv(s: System, step: Step)
    requires Inv(s) && Enabled(s, step)
    ensures Inv(Apply(s, step))
  {
    match step {
      case Admit(r) => AdmitInv(s, r);
      case GiveUp(r, now) => FinishInv(s, r, ContextError(ContextOf(s, s.runs[r])), now);
      case BeginRun(r, now) => BeginInv(s, r, now);
      case FinishRun(r, outcome, now) => FinishInv(s, r, outcome, now);
      case DeadlinePasses => ContextInv(s, Apply(s, step));
      case WatcherWakes(now) => CeilingInv(s, now);
      case RetryCall(id, now) => RetryInv(s, id, now);
      case CancelCall(now) => CancelInv(s, now);
      case RootCancelled => ContextInv(s, Apply(s, step));
    }
  }

  // The invariant holds in every state of every interleaving.
  lemma {:induction false} AlwaysInv(states: seq<System>, steps: seq<Step>, i: nat)
    requires Behaviour(states, steps) && i < |states|
    ensures Inv(states[i])
    decreases i
  {
    if i == 0 {
      InitInv(states[0]);
    } else {
      AlwaysInv(states, steps, i - 1);
      assert TakesAt(states, steps, i - 1);
      StepInv(states[i - 1], steps[i - 1]);
    }
  }

  /* ---- What follows for whole runs ---- */

  ghost predicate Quiescent(s: System) {
    s.runs.Keys == {} && !s.watching
  }

  // Once every run and the watcher have returned, nothing is left open.
  lemma QuiescentIsSettled(states: seq<System>, steps: seq<Step>, i: nat)
    requires Behaviour(states, steps) && i < |states| && Quiescent(states[i])
    ensures forall id :: id in states[i].core.sources ==> Terminal(states[i].core.sources[id].state)
    ensures states[i].core.inFlight == 0 && states[i].core.settled
  {
    AlwaysInv(states, steps, i);
    var s := states[i];
    forall id | id in Open(s.core.sources)
      ensures Served(s, id)
    {
    }
    assert Open(s.core.sources) == {};
    NothingOpen(s.core);
  }

  // Short of that some goroutine can always move: the gate never locks up.
  lemma NeverStuck(states: seq<System>, steps: seq<Step>, i: nat)
    requires Behaviour(states, steps) && i < |states| && !Quiescent(states[i])
    ensures exists step :: Enabled(states[i], step) && !step.RetryCall? && !step.CancelCall?
  {
    AlwaysInv(states, steps, i);
    var s := states[i];
    if s.sweep == Live {
      assert Enabled(s, DeadlinePasses);
    } else if s.watching {
      assert Enabled(s, WatcherWakes(0));
    } else {
      var r :| r in s.runs;
      match s.runs[r].phase {
        case Holding => assert Enabled(s, BeginRun(r, 0));
        case Polling => assert Enabled(s, FinishRun(r, Answer([], false), 0));
        case Queued =>
          if s.runs[r].sweep {
            assert Enabled(s, GiveUp(r, 0));
          } else {
            assert Enabled(s, Admit(r));
          }
      }
    }
  }

  // A slot frees even if the ceiling never fires: with runs left, some run moves
  // without waiting for a deadline.
  lemma RunsMoveOnTheirOwn(states: seq<System>, steps: seq<Step>, i: nat)
    requires Behaviour(states, steps) && i < |states| && states[i].runs.Keys != {}
    ensures exists step :: Enabled(states[i], step) && (step.Admit? || step.BeginRun? || step.FinishRun?)
  {
    AlwaysInv(states, steps, i);
    var s := states[i];
    var r :| r in s.runs;
    if s.runs[r].phase == Queued {
      if s.runs[r].sweep && |Holders(s)| >= s.parallel {
        var q :| q in Holders(s);
        MovingRun(s, q);
      } else {
        assert Enabled(s, Admit(r));
      }
    } else {
      MovingRun(s, r);
    }
  }

  lemma MovingRun(s: System, r: nat)
    requires r in s.runs && s.runs[r].phase != Queued
    ensures exists step :: Enabled(s, step) && (step.Admit? || step.BeginRun? || step.FinishRun?)
  {
    if s.runs[r].phase == Holding {
      assert Enabled(s, BeginRun(r, 0));
    } else {
      assert Enabled(s, FinishRun(r, Answer([], false), 0));
    }
  }

  // What is left to do: every goroutine step uses some of it up, a retry adds
  // three steps.
  ghost function Work(s: System): nat {
    |s.runs.Keys| + |s.runs.Keys - InPhase(s, Polling)| + |InPhase(s, Queued)|
    + (if s.watching then 1 else 0) + (if s.sweep == Live then 1 else 0) + (if s.root == Live then 1 else 0)
  }

  // What one step does to it.
  ghost predicate UsesWork(s: System, step: Step, s': System) {
    && (!step.RetryCall? && !step.CancelCall? ==> Work(s') < Work(s))
    && (step.CancelCall? ==> Work(s') <= Work(s))
    && (step.RetryCall? ==> Work(s') <= Work(s) + 3)
  }

  lemma WorkAfter(s: System, step: Step)
    requires Inv(s) && Enabled(s, step)
    ensures UsesWork(s, step, Apply(s, step))
  {
    hide Inv, Work, Enabled, Apply;
    match step {
      case Admit(r) => WorkAdmit(s, r);
      case GiveUp(r, now) => WorkGiveUp(s, r, now);
      case BeginRun(r, now) => WorkBegin(s, r, now);
      case FinishRun(r, outcome, now) => WorkFinish(s, r, outcome, now);
      case RetryCall(id, now) => WorkRetry(s, id, now);
      case WatcherWakes(now) => WorkWatcher(s, now);
      case CancelCall(now) => WorkCancel(s, now);
      case _ => WorkContext(s, step);
    }
  }

  lemma WorkContext(s: System, step: Step)
    requires Enabled(s, step) && (step.DeadlinePasses? || step.RootCancelled?)
    ensures Work(Apply(s, step)) < Work(s)
  {
    WorkSameRuns(s, Apply(s, step));
    hide InPhase;
  }

  lemma WorkCancel(s: System, now: int)
    ensures Work(Apply(s, CancelCall(now))) <= Work(s)
  {
    WorkSameRuns(s, Apply(s, CancelCall(now)));
    hide InPhase, CancelSection;
  }

  lemma WorkGiveUp(s: System, r: nat, now: int)
    requires Enabled(s, GiveUp(r, now))
    ensures Work(Apply(s, GiveUp(r, now))) < Work(s)
  {
    WorkLeave(s, r, Apply(s, GiveUp(r, now)));
  }

  lemma WorkFinish(s: System, r: nat, outcome: Outcome, now: int)
    requires Enabled(s, FinishRun(r, outcome, now))
    ensures Work(Apply(s, FinishRun(r, outcome, now))) < Work(s)
  {
    WorkLeave(s, r, Apply(s, FinishRun(r, outcome, now)));
  }

  lemma WorkWatcher(s: System, now: int)
    requires Enabled(s, WatcherWakes(now))
    ensures Work(Apply(s, WatcherWakes(now))) < Work(s)
  {
    WorkSameRuns(s, Apply(s, WatcherWakes(now)));
  }

  lemma WorkBegin(s: System, r: nat, now: int)
    requires Inv(s) && Enabled(s, BeginRun(r, now))
    ensures Work(Apply(s, BeginRun(r, now))) < Work(s)
  {
    if s.core.cancelled {
      WorkLeave(s, r, Apply(s, BeginRun(r, now)));
    } else {
      WorkPoll(s, r, Apply(s, BeginRun(r, now)));
    }
  }

  lemma WorkPoll(s: System, r: nat, s': System)
    requires r in s.runs && s.runs[r].phase == Holding && s'.runs == s.runs[r := s.runs[r].(phase := Polling)]
    requires s'.watching == s.watching && s'.root == s.root && (s'.sweep == Live ==> s.sweep == Live)
    ensures Work(s') < Work(s)
  {
    PollPhases(s, s', r);
    hide InPhase;
    LessBusy(s.runs.Keys, InPhase(s, Polling), r);
  }

  lemma WorkSameRuns(s: System, s': System)
    requires s'.runs == s.runs
    ensures InPhase(s', Polling) == InPhase(s, Polling) && InPhase(s', Queued) == InPhase(s, Queued)
  {
  }

  lemma WorkAdmit(s: System, r: nat)
    requires Enabled(s, Admit(r))
    ensures Work(Apply(s, Admit(r))) < Work(s)
  {
    var s' := Apply(s, Admit(r));
    assert s'.runs.Keys == s.runs.Keys;
    assert InPhase(s', Polling) == InPhase(s, Polling);
    assert InPhase(s', Queued) == InPhase(s, Queued) - {r};
  }

  lemma WorkLeave(s: System, r: nat, s': System)
    requires r in s.runs && s'.runs == s.runs - {r} && s'.watching == s.watching && s'.root == s.root
    requires s'.sweep == Live ==> s.sweep == Live
    ensures Work(s') < Work(s)
  {
    assert s'.runs.Keys == s.runs.Keys - {r};
    PhaseWithout(s, s', r, Queued);
    PhaseWithout(s, s', r, Polling);
    hide InPhase;
    FewerWithout(InPhase(s, Queued), r);
    FewerWithout(s.runs.Keys, r);
    NotBusier(s.runs.Keys, InPhase(s, Polling), r);
  }

  lemma PhaseWithout(s: System, s': System, r: nat, phase: Phase)
    requires s'.runs == s.runs - {r}
    ensures InPhase(s', phase) == InPhase(s, phase) - {r}
  {
  }

  lemma PollPhases(s: System, s': System, r: nat)
    requires r in s.runs && s.runs[r].phase == Holding && s'.runs == s.runs[r := s.runs[r].(phase := Polling)]
    ensures s'.runs.Keys == s.runs.Keys && InPhase(s', Queued) == InPhase(s, Queued)
    ensures InPhase(s', Polling) == InPhase(s, Polling) + {r} && r !in InPhase(s, Polling)
  {
  }

  lemma LessBusy<T>(all: set<T>, polling: set<T>, x: T)
    requires x in all && x !in polling
    ensures |all - (polling + {x})| == |all - polling| - 1
  {
    assert all - (polling + {x}) == (all - polling) - {x};
  }

  lemma NotBusier<T>(all: set<T>, polling: set<T>, x: T)
    ensures |(all - {x}) - (polling - {x})| <= |all - polling|
  {
    assert (all - {x}) - (polling - {x}) == (all - polling) - {x};
    FewerWithout(all - polling, x);
  }

  lemma OneMoreBusy<T>(all: set<T>, polling: set<T>, x: T)
    requires x !in all && x !in polling
    ensures |(all + {x}) - polling| == |all - polling| + 1 && |all + {x}| == |all| + 1
  {
    assert (all + {x}) - polling == (all - polling) + {x};
  }

  lemma FewerWithout<T>(a: set<T>, x: T)
    ensures |a - {x}| == |a| - if x in a then 1 else 0
  {
    if x !in a {
      assert a - {x} == a;
    }
  }

  lemma WorkAdded(s: System, s': System, id: string)
    requires forall r :: r in s.runs ==> r < s.next
    requires s'.runs == s.runs[s.next := Run(id, false, Queued)]
    ensures |s'.runs.Keys| == |s.runs.Keys| + 1 && |InPhase(s', Queued)| == |InPhase(s, Queued)| + 1
    ensures |s'.runs.Keys - InPhase(s', Polling)| == |s.runs.Keys - InPhase(s, Polling)| + 1
  {
    assert s'.runs.Keys == s.runs.Keys + {s.next};
    QueuedAdded(s, s', id);
    PollingSame(s, s', id);
    hide InPhase;
    OneMoreBusy(s.runs.Keys, InPhase(s, Polling), s.next);
  }

  lemma QueuedAdded(s: System, s': System, id: string)
    requires s.next !in s.runs && s'.runs == s.runs[s.next := Run(id, false, Queued)]
    ensures |InPhase(s', Queued)| == |InPhase(s, Queued)| + 1
  {
    assert InPhase(s', Queued) == InPhase(s, Queued) + {s.next};
  }

  lemma PollingSame(s: System, s': System, id: string)
    requires s.next !in s.runs && s'.runs == s.runs[s.next := Run(id, false, Queued)]
    ensures InPhase(s', Polling) == InPhase(s, Polling) && s.next !in InPhase(s, Polling)
  {
  }

  lemma WorkRetry(s: System, id: string, now: int)
    requires Inv(s)
    ensures Work(Apply(s, RetryCall(id, now))) <= Work(s) + 3
  {
    assert forall r :: r in s.runs ==> r < s.next;
    hide Inv, InPhase, Apply, Work;
    var s' := Apply(s, RetryCall(id, now));
    RetryMoves(s, id, now);
    if s' != s {
      WorkAdded(s, s', id);
      WorkWithOneMore(s, s');
    }
  }

  lemma RetryMoves(s: System, id: string, now: int)
    ensures var s' := Apply(s, RetryCall(id, now));
            s' == s || (s'.runs == s.runs[s.next := Run(id, false, Queued)] && s'.watching == s.watching && s'.root == s.root
                        && (s'.sweep == Live ==> s.sweep == Live))
  {
    hide RetrySection;
  }

  lemma WorkWithOneMore(s: System, s': System)
    requires |s'.runs.Keys| == |s.runs.Keys| + 1 && |InPhase(s', Queued)| == |InPhase(s, Queued)| + 1
    requires |s'.runs.Keys - InPhase(s', Polling)| == |s.runs.Keys - InPhase(s, Polling)| + 1
    requires s'.watching == s.watching && s'.root == s.root && (s'.sweep == Live ==> s.sweep == Live)
    ensures Work(s') <= Work(s) + 3
  {
    hide InPhase;
  }

  function Retries(steps: seq<Step>): nat {
    if steps == [] then 0 else Retries(steps[..|steps| - 1]) + if steps[|steps| - 1].RetryCall? then 1 else 0
  }

  function Cancels(steps: seq<Step>): nat {
    if steps == [] then 0 else Cancels(steps[..|steps| - 1]) + if steps[|steps| - 1].CancelCall? then 1 else 0
  }

  lemma WorkAt(states: seq<System>, steps: seq<Step>, i: nat)
    requires Behaviour(states, steps) && i < |steps|
    ensures UsesWork(states[i], steps[i], states[i + 1])
  {
    AlwaysInv(states, steps, i);
    assert TakesAt(states, steps, i);
    WorkAfter(states[i], steps[i]);
  }

  // No interleaving runs on for ever by itself: apart from the calls made from
  // outside, a task takes at most as many steps as it had work, plus three for
  // each retry asked for.
  lemma {:induction false} StepsAreBounded(states: seq<System>, steps: seq<Step>, i: nat)
    requires Behaviour(states, steps) && i <= |steps|
    ensures i - Retries(steps[..i]) - Cancels(steps[..i]) + Work(states[i]) <= Work(states[0]) + 3 * Retries(steps[..i])
    decreases i
  {
    hide Behaviour, Work;
    if i > 0 {
      StepsAreBounded(states, steps, i - 1);
      WorkAt(states, steps, i - 1);
      assert steps[..i][..i - 1] == steps[..i - 1];
    }
  }

  lemma CancelledStays(states: seq<System>, steps: seq<Step>, i: nat)
    requires Behaviour(states, steps) && i < |steps| && states[i].core.cancelled
    ensures states[i + 1].core.cancelled
  {
    assert TakesAt(states, steps, i);
  }

  // Cancel is final: nothing is open or in flight afterwards, whatever follows.
  lemma {:induction false} CancelIsFinal(states: seq<System>, steps: seq<Step>, i: nat, j: nat)
    requires Behaviour(states, steps) && i <= j < |states| && states[i].core.cancelled
    ensures states[j].core.cancelled && states[j].core.inFlight == 0
    ensures forall id :: id in states[j].core.sources ==> Terminal(states[j].core.sources[id].state)
    decreases j
  {
    AlwaysInv(states, steps, j);
    if i < j {
      CancelIsFinal(states, steps, i, j - 1);
      CancelledStays(states, steps, j - 1);
    }
    NothingOpen(states[j].core);
  }

  lemma NothingOpen(c: Core)
    requires Open(c.sources) == {}
    ensures forall id :: id in c.sources ==> Terminal(c.sources[id].state)
  {
    assert forall id :: id in c.sources && !Terminal(c.sources[id].state) ==> id in Open(c.sources);
  }

  lemma CancelSettles(s: System, now: int)
    requires Inv(s)
    ensures var s' := Apply(s, CancelCall(now));
            s'.core.cancelled && s'.core.inFlight == 0 && s'.core.settled && Open(s'.core.sources) == {}
  {
    CancelInv(s, now);
  }

  // Before the ceiling the in-flight count is exact, and a source is open just
  // when one run is at work on it.
  lemma ExactBeforeCeiling(states: seq<System>, steps: seq<Step>, i: nat)
    requires Behaviour(states, steps) && i < |states| && !states[i].core.expired
    ensures states[i].core.inFlight == |Open(states[i].core.sources)|
    ensures !states[i].core.cancelled ==>
              forall id :: id in states[i].core.sources ==>
                (id in Open(states[i].core.sources) <==> Served(states[i], id))
  {
    AlwaysInv(states, steps, i);
  }

  // The sweep never polls more sources at once than it was allowed to.
  lemma SweepWithinParallel(states: seq<System>, steps: seq<Step>, i: nat)
    requires Behaviour(states, steps) && i < |states|
    ensures |Holders(states[i])| <= states[i].parallel
  {
    AlwaysInv(states, steps, i);
  }

  // `Running` on the page is never claimed with nothing open.
  lemma RunningMeansOpen(states: seq<System>, steps: seq<Step>, i: nat, now: int)
    requires Behaviour(states, steps) && i < |states|
    ensures Wf(states[i].core)
    ensures var snap := SnapshotOf(states[i].core, now);
            && (snap.running ==> snap.queried < snap.total)
            && (!states[i].core.expired ==> (snap.running <==> snap.queried < snap.total))
  {
    AlwaysInv(states, steps, i);
    SnapshotCounts(states[i].core, now);
  }

  /* ---- The order of answers ---- */

  // Each source gives one answer whenever it is asked; nobody gives up or cancels.
  ghost predicate Answering(states: seq<System>, steps: seq<Step>, n: nat, answers: map<string, Outcome>) {
    n <= |steps| < |states| && forall k :: 0 <= k < n ==> AnswersAt(states[k], steps[k], answers)
  }

  ghost predicate AnswersAt(s: System, step: Step, answers: map<string, Outcome>) {
    match step
    case FinishRun(r, outcome, _) => r in s.runs && s.runs[r].id in answers && outcome == answers[s.runs[r].id]
    case GiveUp(_, _) => false
    case CancelCall(_) => false
    case _ => true
  }

  function Given(answers: map<string, Outcome>, id: string): seq<Item> {
    if id in answers && answers[id].Answer? then answers[id].items else []
  }

  ghost predicate GotIt(source: Source, given: seq<Item>) {
    && (source.items == [] || source.items == given)
    && (Terminal(source.state) ==> source.items == given)
  }

  ghost predicate AllGotIt(c: Core, answers: map<string, Outcome>) {
    !c.cancelled && forall id :: id in c.sources ==> GotIt(c.sources[id], Given(answers, id))
  }

  lemma AnswerArrives(s: System, step: Step, answers: map<string, Outcome>)
    requires Enabled(s, step) && AnswersAt(s, step, answers) && AllGotIt(s.core, answers)
    requires !Apply(s, step).core.expired
    ensures !s.core.expired && AllGotIt(Apply(s, step).core, answers) && Apply(s, step).core.order == s.core.order
  {
    hide Settle;
    match step {
      case BeginRun(r, now) =>
      case FinishRun(r, outcome, now) =>
        var id := s.runs[r].id;
        if id in s.core.sources {
          SettleKeeps(s.core.(sources := s.core.sources[id := Concluded(s.core, s.core.sources[id], outcome, now)]), now);
        }
      case RetryCall(id, now) =>
        if RetrySection(s.core, id, now).1 {
          var s0 := s.core.sources[id].(state := Waiting, reason := "", items := [], duration := 0, startedAt := None);
          SettleKeeps(s.core.(sources := s.core.sources[id := s0], settled := false, elapsed := 0, started := now), now);
        }
      case WatcherWakes(now) =>
        if s.sweep == Deadline {
          CeilingExpires(s.core, now);
        }
      case _ =>
    }
  }

  lemma CeilingExpires(c: Core, now: int)
    ensures CeilingSection(c, now).expired
  {
  }

  lemma {:induction false} AnswersArrive(states: seq<System>, steps: seq<Step>, n: nat, answers: map<string, Outcome>)
    requires Behaviour(states, steps) && Answering(states, steps, n, answers) && !states[n].core.expired
    ensures AllGotIt(states[n].core, answers) && states[n].core.order == states[0].core.order
    decreases n
  {
    hide AllGotIt, Apply, Enabled;
    if n == 0 {
      NothingYet(states[0], answers);
    } else {
      assert TakesAt(states, steps, n - 1) && AnswersAt(states[n - 1], steps[n - 1], answers);
      StillUnexpired(states[n - 1], steps[n - 1]);
      AnswersArrive(states, steps, n - 1, answers);
      AnswerArrives(states[n - 1], steps[n - 1], answers);
    }
  }

  lemma NothingYet(s: System, answers: map<string, Outcome>)
    requires Init(s)
    ensures AllGotIt(s.core, answers)
  {
  }

  lemma StillUnexpired(s: System, step: Step)
    requires Enabled(s, step) && !Apply(s, step).core.expired
    ensures !s.core.expired
  {
  }

  // However the answers were interleaved, and whatever was retried on the way: two tasks
  // over the same sources, asked the same, show the same list once all have answered.
  lemma AnswerOrderDoesNotMatter(x: seq<System>, stepsX: seq<Step>, n: nat, y: seq<System>, stepsY: seq<Step>, m: nat,
                                 answers: map<string, Outcome>, now: int, later: int)
    requires Behaviour(x, stepsX) && Answering(x, stepsX, n, answers) && !x[n].core.expired && Open(x[n].core.sources) == {}
    requires Behaviour(y, stepsY) && Answering(y, stepsY, m, answers) && !y[m].core.expired && Open(y[m].core.sources) == {}
    requires x[0].core.order == y[0].core.order
    ensures Wf(x[n].core) && Wf(y[m].core)
    ensures SnapshotOf(x[n].core, now).items == SnapshotOf(y[m].core, later).items
  {
    AlwaysInv(x, stepsX, n);
    AlwaysInv(y, stepsY, m);
    AnswersArrive(x, stepsX, n, answers);
    AnswersArrive(y, stepsY, m, answers);
    AllHaveTheirs(x[n].core, answers);
    AllHaveTheirs(y[m].core, answers);
    hide Inv, AllGotIt, Behaviour, Answering;
    SameContentsSameList(x[n].core.order, x[n].core.sources, y[m].core.sources);
  }

  lemma AllHaveTheirs(c: Core, answers: map<string, Outcome>)
    requires AllGotIt(c, answers) && Open(c.sources) == {}
    ensures forall id :: id in c.sources ==> c.sources[id].items == Given(answers, id)
  {
    NothingOpen(c);
  }

  // After the ceiling `begin` can reopen a source without counting it. It keeps
  // the count exact just when the source was open already, or the task is
  // cancelled.
  lemma BeginKeepsCountExactly(s: System, r: nat, now: int)
    requires Inv(s) && Enabled(s, BeginRun(r, now)) && s.core.inFlight == |Open(s.core.sources)|
    ensures var s' := Apply(s, BeginRun(r, now));
            s'.core.inFlight == |Open(s'.core.sources)| <==> s.core.cancelled || s.runs[r].id in Open(s.core.sources)
  {
    var id := s.runs[r].id;
    var s' := Apply(s, BeginRun(r, now));
    if !s.core.cancelled {
      BeginPolls(s, r, now);
      hide Inv, Open, BeginSection;
      if id in Open(s.core.sources) {
        assert Open(s.core.sources) + {id} == Open(s.core.sources);
      }
    } else {
      SettleKeeps(s.core.(sources := s.core.sources[id := s.core.sources[id].(state := Cancelled)]), now);
    }
  }

  // Such a run exists: the only source times out while its run holds a slot.
  lemma UndercountAfterCeiling() returns (states: seq<System>, steps: seq<Step>)
    ensures Behaviour(states, steps)
    ensures states[|states| - 1].core.inFlight == 0 && Open(states[|states| - 1].core.sources) == {"a"}
  {
    var s0, s1 := OneSourceHolding();
    var s2 := s1.(sweep := Deadline);
    assert Takes(s1, DeadlinePasses, s2);
    var s3, s4 := LateBegin(s2);
    states, steps := [s0, s1, s2, s3, s4], [Admit(0), DeadlinePasses, WatcherWakes(30), BeginRun(0, 31)];
    forall i | 0 <= i < |steps|
      ensures TakesAt(states, steps, i)
    {
      assert i == 0 || i == 1 || i == 2 || i == 3;
    }
  }

  // The watcher, and then the run that held its slot all the while.
  lemma LateBegin(s2: System) returns (s3: System, s4: System)
    requires s2 == System(Opened(["a"], 0), map[0 := Run("a", true, Holding)], 1, Live, Deadline, true, 1)
    ensures Takes(s2, WatcherWakes(30), s3) && Takes(s3, BeginRun(0, 31), s4)
    ensures s4.core.inFlight == 0 && Open(s4.core.sources) == {"a"}
  {
    s3 := Apply(s2, WatcherWakes(30));
    assert "a" in Open(s2.core.sources);
    assert Open(s3.core.sources) == {};
    assert s3.core.inFlight == 0 && s3.core.sources.Keys == {"a"} && !s3.core.cancelled;
    s4 := Apply(s3, BeginRun(0, 31));
    assert Open(s4.core.sources) == {"a"};
  }

  lemma OneSourceHolding() returns (s0: System, s1: System)
    ensures Init(s0) && Takes(s0, Admit(0), s1)
    ensures s1 == System(Opened(["a"], 0), map[0 := Run("a", true, Holding)], 1, Live, Live, true, 1)
  {
    KeptOne();
    hide Opened, Kept;
    var runs: map<nat, Run> := map k: nat | k < |["a"]| :: Run(["a"][k], true, Queued);
    assert runs == map[0 := Run("a", true, Queued)];
    s0 := System(Opened(["a"], 0), runs, 1, Live, Live, true, 1);
    assert InitFrom(s0, ["a"], 0);
    NobodyHolds(s0);
    s1 := Apply(s0, Admit(0));
  }

  lemma KeptOne()
    ensures Kept(["a"]) == ["a"]
  {
    assert ["a"][..0] == [] && ["a"][0] == "a" && "a" != "";
  }

  lemma NobodyHolds(s: System)
    requires forall r :: r in s.runs ==> s.runs[r].phase == Queued
    ensures Holders(s) == {}
  {
  }
}
