// The registry that owns the tasks of every session (internal/fanout/registry.go).
module Registry {
  import opened Ordering
  import opened FanOut

  const MaxPerSession := 4
  // Ten minutes, in nanoseconds.
  const TaskTTL := 600_000_000_000

  datatype Entry = Entry(task: Task, session: string, touched: int)

  // The two maps the registry lock protects.
  datatype Index = Index(byId: map<string, Entry>, bySession: map<string, seq<string>>)

  // Every list is short, without repetition, and names tasks of its session.
  ghost predicate ListedWell(ix: Index, s: string, limit: nat) {
    s in ix.bySession ==>
      var ids := ix.bySession[s];
      && ids != [] && |ids| <= limit && Distinct(ids)
      && forall id :: id in ids ==> id in ix.byId && ix.byId[id].session == s
  }

  ghost predicate Filed(ix: Index, id: string) {
    id in ix.byId ==> ix.byId[id].session in ix.bySession && id in ix.bySession[ix.byId[id].session]
  }

  ghost predicate OwnTasks(ix: Index) {
    forall a, b :: a in ix.byId && b in ix.byId && a != b ==> ix.byId[a].task != ix.byId[b].task
  }

  ghost predicate Consistent(ix: Index) {
    && (forall s :: ListedWell(ix, s, MaxPerSession))
    && (forall id :: Filed(ix, id))
    && OwnTasks(ix)
  }

  function TasksOf(ix: Index, ids: set<string>): set<Task> {
    set id | id in ids && id in ix.byId :: ix.byId[id].task
  }

  function Ids(ids: seq<string>): set<string> {
    set id | id in ids
  }

  function Tasks(ix: Index): set<Task> {
    TasksOf(ix, ix.byId.Keys)
  }

  function OwnedBy(ix: Index, s: string): set<string> {
    set id | id in ix.byId && ix.byId[id].session == s
  }

  function Stale(ix: Index, now: int): set<string> {
    set id | id in ix.byId && ix.byId[id].touched < now - TaskTTL
  }

  // How many of a list are beyond the limit, oldest first, and which.
  function Cut(ids: seq<string>): nat {
    if |ids| <= MaxPerSession then 0 else |ids| - MaxPerSession
  }

  function Overflow(ids: seq<string>): set<string> {
    Ids(ids[..Cut(ids)])
  }

  /* ---- Dropping identifiers from both maps ---- */

  function Remaining(ix: Index, s: string, gone: set<string>): seq<string> {
    if s in ix.bySession then Except(ix.bySession[s], gone) else []
  }

  function Minus(ix: Index, gone: set<string>): Index {
    Index(ix.byId - gone, map s | s in ix.bySession && Remaining(ix, s, gone) != [] :: Remaining(ix, s, gone))
  }

  lemma SameIndex(a: Index, b: Index)
    requires a.byId == b.byId
    requires forall s :: s in a.bySession <==> s in b.bySession
    requires forall s :: s in a.bySession && s in b.bySession ==> a.bySession[s] == b.bySession[s]
    ensures a == b
  {
    assert a.bySession == b.bySession;
  }

  lemma MinusTwice(ix: Index, a: set<string>, b: set<string>)
    ensures Minus(Minus(ix, a), b) == Minus(ix, a + b)
  {
    var once, both := Minus(ix, a), Minus(ix, a + b);
    forall s
      ensures Remaining(once, s, b) == Remaining(ix, s, a + b)
    {
      if s in ix.bySession {
        ExceptTwice(ix.bySession[s], a, b);
      }
    }
    SameIndex(Minus(once, b), both);
  }

  lemma MinusConsistent(ix: Index, gone: set<string>)
    requires Consistent(ix)
    ensures Consistent(Minus(ix, gone))
  {
    var ix' := Minus(ix, gone);
    forall s
      ensures ListedWell(ix', s, MaxPerSession)
    {
      assert ListedWell(ix, s, MaxPerSession);
      if s in ix.bySession {
        ExceptKeeps(ix.bySession[s], gone);
      }
    }
    forall id
      ensures Filed(ix', id)
    {
      assert Filed(ix, id);
      if id in ix'.byId {
        ExceptKeeps(ix.bySession[ix.byId[id].session], gone);
      }
    }
  }

  lemma MinusNothing(ix: Index)
    requires Consistent(ix)
    ensures Minus(ix, {}) == ix
  {
    forall s | s in ix.bySession
      ensures Remaining(ix, s, {}) == ix.bySession[s] && ix.bySession[s] != []
    {
      assert ListedWell(ix, s, MaxPerSession);
      ExceptNothing(ix.bySession[s], {});
    }
    SameIndex(Minus(ix, {}), ix);
  }

  // Dropping one identifier touches one list.
  lemma MinusOne(ix: Index, id: string)
    requires Consistent(ix)
    ensures id !in ix.byId ==> Minus(ix, {id}) == ix
    ensures id in ix.byId ==>
              var s := ix.byId[id].session;
              && s in ix.bySession && id in ix.bySession[s] && Distinct(ix.bySession[s])
              && Minus(ix, {id}) == Index(ix.byId - {id},
                   var ids := Except(ix.bySession[s], {id});
                   if ids == [] then ix.bySession - {s} else ix.bySession[s := ids])
  {
    assert Filed(ix, id);
    forall s | s in ix.bySession
      ensures ix.bySession[s] != [] && Distinct(ix.bySession[s])
      ensures !(id in ix.byId && ix.byId[id].session == s) ==> Remaining(ix, s, {id}) == ix.bySession[s]
    {
      assert ListedWell(ix, s, MaxPerSession);
      if !(id in ix.byId && ix.byId[id].session == s) {
        ExceptNothing(ix.bySession[s], {id});
      }
    }
    if id !in ix.byId {
      SameIndex(Minus(ix, {id}), ix);
    } else {
      var s := ix.byId[id].session;
      var ids := Except(ix.bySession[s], {id});
      SameIndex(Minus(ix, {id}), Index(ix.byId - {id}, if ids == [] then ix.bySession - {s} else ix.bySession[s := ids]));
    }
  }

  /* ---- Adding a task ---- */

  ghost predicate ListedUnder(ix: Index, s: string, session: string) {
    ListedWell(ix, s, if s == session then MaxPerSession + 1 else MaxPerSession)
  }

  // Consistent but for one list, which may be one too long.
  ghost predicate Overfull(ix: Index, session: string) {
    && session in ix.bySession
    && (forall s :: ListedUnder(ix, s, session))
    && (forall id :: Filed(ix, id))
    && OwnTasks(ix)
  }

  function Added(kept: Index, session: string, id: string, task: Task, now: int): Index {
    var ids := (if session in kept.bySession then kept.bySession[session] else []) + [id];
    Index(kept.byId[id := Entry(task, session, now)], kept.bySession[session := ids])
  }

  lemma AddedOverfull(kept: Index, session: string, id: string, task: Task, now: int)
    requires Consistent(kept) && id !in kept.byId && task !in Tasks(kept)
    ensures Overfull(Added(kept, session, id, task, now), session)
  {
    var ix := Added(kept, session, id, task, now);
    forall s
      ensures ListedUnder(ix, s, session)
    {
      assert ListedWell(kept, s, MaxPerSession);
    }
    forall other
      ensures Filed(ix, other)
    {
      assert Filed(kept, other);
    }
    forall a | a in kept.byId
      ensures kept.byId[a].task != task
    {
      assert kept.byId[a].task in Tasks(kept);
    }
  }

  lemma Trimmed(ix: Index, session: string)
    requires Overfull(ix, session)
    ensures var ids := ix.bySession[session];
            && Minus(ix, Overflow(ids)) == Index(ix.byId - Overflow(ids), ix.bySession[session := ids[Cut(ids)..]])
            && Consistent(Minus(ix, Overflow(ids)))
  {
    var ids := ix.bySession[session];
    var gone, cut := Overflow(ids), Cut(ids);
    assert ListedUnder(ix, session, session);
    CutList(ids);
    OthersKeepTheirs(ix, session);
    TrimmedIndex(ix, session);
    TrimmedConsistent(ix, Index(ix.byId - gone, ix.bySession[session := ids[cut..]]), session, cut);
  }

  lemma TrimmedIndex(ix: Index, session: string)
    requires session in ix.bySession && ix.bySession[session][Cut(ix.bySession[session])..] != []
    requires var ids := ix.bySession[session]; Except(ids, Overflow(ids)) == ids[Cut(ids)..]
    requires forall s :: s in ix.bySession && s != session ==>
               Remaining(ix, s, Overflow(ix.bySession[session])) == ix.bySession[s] && ix.bySession[s] != []
    ensures var ids := ix.bySession[session];
            Minus(ix, Overflow(ids)) == Index(ix.byId - Overflow(ids), ix.bySession[session := ids[Cut(ids)..]])
  {
    hide Overflow, Except;
    var ids := ix.bySession[session];
    SameIndex(Minus(ix, Overflow(ids)), Index(ix.byId - Overflow(ids), ix.bySession[session := ids[Cut(ids)..]]));
  }

  lemma LeftAfter(a: seq<string>, b: seq<string>, gone: set<string>)
    requires (forall id :: id in a ==> id in gone) && (forall id :: id in b ==> id !in gone)
    ensures Except(a + b, gone) == b
  {
    hide Except;
    ExceptAll(a, gone);
    ExceptNothing(b, gone);
    ExceptJoin(a, b, gone);
  }

  lemma CutList(ids: seq<string>)
    requires Distinct(ids)
    ensures Except(ids, Overflow(ids)) == ids[Cut(ids)..]
  {
    var cut := Cut(ids);
    forall id | id in ids[cut..]
      ensures id !in Overflow(ids)
    {
      var k :| cut <= k < |ids| && ids[k] == id;
    }
    hide Except, Distinct;
    LeftAfter(ids[..cut], ids[cut..], Overflow(ids));
    assert ids == ids[..cut] + ids[cut..];
  }

  lemma OthersKeepTheirs(ix: Index, session: string)
    requires Overfull(ix, session)
    ensures forall s :: s in ix.bySession && s != session ==>
              Remaining(ix, s, Overflow(ix.bySession[session])) == ix.bySession[s] && ix.bySession[s] != []
  {
    var gone := Overflow(ix.bySession[session]);
    forall s | s in ix.bySession && s != session
      ensures Remaining(ix, s, gone) == ix.bySession[s] && ix.bySession[s] != []
    {
      assert ListedUnder(ix, s, session) && ListedUnder(ix, session, session);
      ExceptNothing(ix.bySession[s], gone);
    }
  }

  lemma TrimmedConsistent(ix: Index, ix': Index, session: string, cut: nat)
    requires Overfull(ix, session) && cut <= |ix.bySession[session]| && |ix.bySession[session]| - cut <= MaxPerSession
    requires cut < |ix.bySession[session]|
    requires ix' == Index(ix.byId - Ids(ix.bySession[session][..cut]),
                          ix.bySession[session := ix.bySession[session][cut..]])
    ensures Consistent(ix')
  {
    var ids := ix.bySession[session];
    assert ListedUnder(ix, session, session);
    forall s
      ensures ListedWell(ix', s, MaxPerSession)
    {
      assert ListedUnder(ix, s, session);
    }
    forall id
      ensures Filed(ix', id)
    {
      assert Filed(ix, id);
      if id in ix'.byId && ix.byId[id].session == session {
        var k :| 0 <= k < |ids| && ids[k] == id;
        assert k >= cut && ids[cut..][k - cut] == id;
      }
    }
  }

  /* ---- Ending a session ---- */

  lemma SessionMinus(ix: Index, session: string)
    requires Consistent(ix)
    ensures OwnedBy(ix, session) == Ids(if session in ix.bySession then ix.bySession[session] else [])
    ensures Minus(ix, OwnedBy(ix, session)) == Index(ix.byId - OwnedBy(ix, session), ix.bySession - {session})
  {
    var gone := OwnedBy(ix, session);
    assert ListedWell(ix, session, MaxPerSession);
    forall id | id in gone
      ensures session in ix.bySession && id in ix.bySession[session]
    {
      assert Filed(ix, id);
    }
    forall s | s in ix.bySession
      ensures Remaining(ix, s, gone) == if s == session then [] else ix.bySession[s]
      ensures ix.bySession[s] != []
    {
      assert ListedWell(ix, s, MaxPerSession);
      if s == session {
        ExceptAll(ix.bySession[s], gone);
      } else {
        ExceptNothing(ix.bySession[s], gone);
      }
    }
    SameIndex(Minus(ix, gone), Index(ix.byId - gone, ix.bySession - {session}));
  }

  /* ---- Cancelling ---- */

  // A task nothing more will come of (FanOutProtocol.CancelIsFinal).
  ghost predicate Stopped(c: Core) {
    c.cancelled && c.inFlight == 0 && c.settled && Open(c.sources) == {}
  }

  lemma CancelStops(c: Core, now: int)
    ensures Stopped(CancelSection(c, now))
  {
    assert Open(CancelSection(c, now).sources) == {};
  }

  lemma CancelTwice(c: Core, now: int)
    ensures CancelSection(CancelSection(c, now), now) == CancelSection(c, now)
  {
    var once := CancelSection(c, now);
    assert Open(once.sources) == {};
    assert once.sources == map id | id in once.sources :: Interrupted(once.sources[id]);
  }

  method CancelAll(tasks: seq<Task>, now: int)
    modifies tasks
    ensures forall t :: t in tasks ==> t.View() == CancelSection(old(t.View()), now)
  {
    for i := 0 to |tasks|
      invariant forall t :: t in tasks ==> t.View() == if t in tasks[..i] then CancelSection(old(t.View()), now) else old(t.View())
    {
      CancelTwice(old(tasks[i].View()), now);
      tasks[i].Cancel(now);
    }
    assert tasks[..|tasks|] == tasks;
  }

  class TaskRegistry {
    var byId: map<string, Entry>
    var bySession: map<string, seq<string>>

    ghost function View(): Index
      reads this
    {
      Index(byId, bySession)
    }

    constructor ()
      ensures View() == Index(map[], map[]) && Consistent(View())
    {
      byId, bySession := map[], map[];
    }

    // dropLocked: both maps lose the identifier, and no task changes.
    method DropLocked(id: string)
      requires Consistent(View())
      modifies this
      ensures View() == Minus(old(View()), {id})
    {
      MinusOne(View(), id);
      if id !in byId {
        return;
      }
      var session := byId[id].session;
      byId := byId - {id};
      var ids := WithoutOne(bySession[session], id);
      if |ids| == 0 {
        bySession := bySession - {session};
      } else {
        bySession := bySession[session := ids];
      }
    }

    // The splice loop of dropLocked.
    method WithoutOne(ids: seq<string>, id: string) returns (rest: seq<string>)
      requires Distinct(ids) && id in ids
      ensures rest == Except(ids, {id})
    {
      var i := 0;
      while i < |ids| && ids[i] != id
        invariant 0 <= i <= |ids| && id !in ids[..i]
      {
        i := i + 1;
      }
      assert ids[..|ids|] == ids;
      SpliceIsExcept(ids, i);
      rest := ids[..i] + ids[i + 1..];
    }

    // sweepLocked, in whatever order the map is walked.
    method SweepLocked(now: int) returns (stale: seq<Task>)
      requires Consistent(View())
      modifies this
      ensures View() == Minus(old(View()), Stale(old(View()), now))
      ensures Lists(stale, old(View()), Stale(old(View()), now))
    {
      ghost var before := View();
      var cutoff := now - TaskTTL;
      var rest := set id | id in byId && byId[id].touched < cutoff;
      ghost var gone: set<string> := {};
      MinusNothing(before);
      stale := [];
      while rest != {}
        invariant View() == Minus(before, gone)
        invariant gone + rest == Stale(before, now) && gone !! rest
        invariant Lists(stale, before, gone)
      {
        hide Consistent, Minus, Lists, Stale;
        var id :| id in rest;
        assert id in Stale(before, now) && id in before.byId by {
          StaleAreFiled(before, now);
        }
        ListsNext(stale, before, gone, id);
        Moved(gone, rest, id);
        MinusLooks(before, gone);
        stale := stale + [byId[id].task];
        MinusConsistent(before, gone);
        DropLocked(id);
        MinusTwice(before, gone, {id});
        gone, rest := gone + {id}, rest - {id};
      }
      assert gone == Stale(before, now);
    }

    // trimLocked: an overfull list loses its head, and hands the tasks of it back.
    method TrimLocked(session: string) returns (stale: seq<Task>)
      requires Overfull(View(), session)
      modifies this
      ensures View() == Minus(old(View()), Overflow(old(bySession)[session])) && Consistent(View())
      ensures forall t :: t in stale <==> t in TasksOf(old(View()), Overflow(old(bySession)[session]))
    {
      hide Consistent, Minus;
      ghost var before := View();
      Trimmed(before, session);
      var ids := bySession[session];
      stale := [];
      if |ids| <= MaxPerSession {
        assert Overflow(ids) == {} && bySession[session := ids[0..]] == bySession;
        assert byId - {} == byId;
        return;
      }
      var cut := |ids| - MaxPerSession;
      stale := Unlink(ids[..cut]);
      bySession := bySession[session := ids[cut..]];
    }

    // The loop that trimming and ending a session share: the tasks of a list
    // leave the map and are handed back.
    method Unlink(ids: seq<string>) returns (tasks: seq<Task>)
      modifies this
      ensures byId == old(byId) - Ids(ids) && bySession == old(bySession)
      ensures forall t :: t in tasks <==> t in TasksOf(old(View()), Ids(ids))
    {
      ghost var before := View();
      tasks := [];
      for i := 0 to |ids|
        invariant byId == before.byId - Ids(ids[..i]) && bySession == before.bySession
        invariant forall t :: t in tasks <==> t in TasksOf(before, Ids(ids[..i]))
      {
        var id := ids[i];
        assert ids[..i + 1] == ids[..i] + [id];
        assert Ids(ids[..i + 1]) == Ids(ids[..i]) + {id};
        if id in byId {
          tasks := tasks + [byId[id].task];
          byId := byId - {id};
        }
      }
      assert ids[..|ids|] == ids;
    }

    // What Start drops: the stale tasks, without cancelling them, and the oldest
    // ones over the limit, which it does cancel.
    method Start(session: string, id: Option<string>, sources: seq<string>, now: int) returns (task: Task?)
      requires Consistent(View())
      requires id.Some? ==> id.value !in byId
      modifies this, Tasks(View())
      ensures Consistent(View())
      ensures task == null <==> id.None? || Kept(sources) == []
      ensures task == null ==> View() == old(View())
      ensures task == null ==> forall t :: t in Tasks(old(View())) ==> t.View() == old(t.View())
      ensures task != null ==> fresh(task) && task.View() == Opened(Kept(sources), now)
      ensures task != null ==>
        (var all := Added(Minus(old(View()), Stale(old(View()), now)), session, id.value, task, now);
         var over := Overflow(all.bySession[session]);
         && View() == Minus(all, over)
         && (forall t :: t in Tasks(old(View())) ==>
               t.View() == if t in TasksOf(all, over) then CancelSection(old(t.View()), now) else old(t.View())))
      ensures task != null ==> id.value in byId && byId[id.value] == Entry(task, session, now)
      ensures task != null ==> session in bySession && |bySession[session]| <= 4 && bySession[session][|bySession[session]| - 1] == id.value
      ensures task != null ==> forall x :: x in byId && x != id.value ==>
                x in old(byId) && byId[x] == old(byId)[x] && old(byId)[x].touched >= now - 600_000_000_000
      ensures task != null ==> forall x :: x in old(byId) && old(byId)[x].session != session && old(byId)[x].touched >= now - 600_000_000_000 ==>
                x in byId
    {
      if id.None? {
        return null;
      }
      var created := new Task(sources, now);
      if |created.order| == 0 {
        return null;
      }
      hide Consistent, Minus, Stale, Overflow, Added, CancelSection, TasksOf;
      ghost var before := View();
      assert created !in Tasks(before) by { NotHeld(before, created); }
      Enter(session, id.value, created, now);
      task := created;
      StartedWell(before, View(), session, id.value, created, now);
    }

    // The part of Start under the lock, and the cancelling after it.
    method Enter(session: string, id: string, created: Task, now: int)
      requires Consistent(View()) && id !in byId && created !in Tasks(View())
      modifies this, Tasks(View())
      ensures Consistent(View())
      ensures var all := Added(Minus(old(View()), Stale(old(View()), now)), session, id, created, now);
              var over := Overflow(all.bySession[session]);
              && View() == Minus(all, over)
              && (forall t :: t in Tasks(old(View())) ==>
                    t.View() == if t in TasksOf(all, over) then CancelSection(old(t.View()), now) else old(t.View()))
    {
      ghost var before := View();
      var swept := SweepLocked(now);
      ghost var kept := View();
      MinusConsistent(before, Stale(before, now));
      MinusLooks(before, Stale(before, now));
      hide Consistent, Minus, Overflow, Stale, Settle;
      byId := byId[id := Entry(created, session, now)];
      bySession := bySession[session := (if session in bySession then bySession[session] else []) + [id]];
      AddedOverfull(kept, session, id, created, now);
      ghost var all := View();
      var stale := TrimLocked(session);
      OlderTasks(before, kept, session, id, created, now);
      assert created !in stale;
      CancelAll(stale, now);
    }

    method Get(session: string, id: string, now: int) returns (task: Task?)
      requires Consistent(View())
      modifies this
      ensures Consistent(View())
      ensures task != null <==> id in old(byId) && old(byId)[id].session == session
      ensures task != null ==> task == old(byId)[id].task && byId == old(byId)[id := Entry(task, session, now)]
      ensures task == null ==> byId == old(byId)
      ensures bySession == old(bySession)
    {
      if id !in byId || byId[id].session != session {
        return null;
      }
      TouchedConsistent(View(), id, now);
      byId := byId[id := byId[id].(touched := now)];
      return byId[id].task;
    }

    method Cancel(session: string, id: string, now: int)
      requires Consistent(View())
      modifies this, Tasks(View())
      ensures Consistent(View())
      ensures var mine := if id in old(byId) && old(byId)[id].session == session then {id} else {};
              && View() == Minus(old(View()), mine)
              && (forall t :: t in Tasks(old(View())) ==>
                    t.View() == if t in TasksOf(old(View()), mine) then CancelSection(old(t.View()), now) else old(t.View()))
    {
      MinusNothing(View());
      if id !in byId || byId[id].session != session {
        return;
      }
      MinusConsistent(View(), {id});
      var task := byId[id].task;
      assert TasksOf(View(), {id}) == {task};
      DropLocked(id);
      task.Cancel(now);
    }

    // Logout and expiry: every task the session had is cancelled, no other task
    // is touched.
    method CancelSession(session: string, now: int)
      requires Consistent(View())
      modifies this, Tasks(View())
      ensures Consistent(View()) && View() == Minus(old(View()), OwnedBy(old(View()), session))
      ensures session !in bySession && OwnedBy(View(), session) == {}
      ensures forall t :: t in Tasks(old(View())) ==>
                t.View() == if t in TasksOf(old(View()), OwnedBy(old(View()), session)) then CancelSection(old(t.View()), now)
                            else old(t.View())
    {
      SessionMinus(View(), session);
      MinusConsistent(View(), OwnedBy(View(), session));
      var ids := if session in bySession then bySession[session] else [];
      var tasks := Unlink(ids);
      bySession := bySession - {session};
      TasksWithin(old(View()), OwnedBy(old(View()), session));
      CancelAll(tasks, now);
    }

    method Sweep(now: int) returns (n: nat)
      requires Consistent(View())
      modifies this, Tasks(View())
      ensures Consistent(View()) && View() == Minus(old(View()), Stale(old(View()), now))
      ensures n == |Stale(old(View()), now)|
      ensures forall x :: x in byId <==> x in old(byId) && old(byId)[x].touched >= now - 600_000_000_000
      ensures forall t :: t in Tasks(old(View())) ==>
                t.View() == if t in TasksOf(old(View()), Stale(old(View()), now)) then CancelSection(old(t.View()), now)
                            else old(t.View())
    {
      MinusConsistent(View(), Stale(View(), now));
      var stale := SweepLocked(now);
      TasksWithin(old(View()), Stale(old(View()), now));
      CancelAll(stale, now);
      n := |stale|;
    }

    method Close(now: int)
      modifies this, Tasks(View())
      ensures View() == Index(map[], map[]) && Consistent(View())
      ensures forall t :: t in Tasks(old(View())) ==> t.View() == CancelSection(old(t.View()), now)
    {
      var tasks := Gather();
      byId, bySession := map[], map[];
      CancelAll(tasks, now);
    }

    method Gather() returns (tasks: seq<Task>)
      ensures forall t :: t in tasks <==> t in Tasks(View())
    {
      tasks := [];
      var rest := byId.Keys;
      while rest != {}
        invariant rest <= byId.Keys
        invariant forall t :: t in tasks <==> t in TasksOf(View(), byId.Keys - rest)
      {
        var id :| id in rest;
        assert byId.Keys - (rest - {id}) == (byId.Keys - rest) + {id};
        tasks := tasks + [byId[id].task];
        rest := rest - {id};
      }
      assert byId.Keys - rest == byId.Keys;
    }
  }

  // The tasks under these identifiers, each once.
  ghost predicate Lists(tasks: seq<Task>, ix: Index, ids: set<string>) {
    |tasks| == |ids| && (set t | t in tasks) == TasksOf(ix, ids)
  }

  lemma ListsNext(tasks: seq<Task>, ix: Index, ids: set<string>, id: string)
    requires Lists(tasks, ix, ids) && id in ix.byId && id !in ids
    ensures Lists(tasks + [ix.byId[id].task], ix, ids + {id})
  {
    assert TasksOf(ix, ids + {id}) == TasksOf(ix, ids) + {ix.byId[id].task};
  }

  lemma StaleAreFiled(ix: Index, now: int)
    ensures Stale(ix, now) <= ix.byId.Keys
  {
  }

  lemma Moved<T>(gone: set<T>, rest: set<T>, x: T)
    requires gone !! rest && x in rest
    ensures (gone + {x}) + (rest - {x}) == gone + rest && gone + {x} !! rest - {x} && x !in gone && x in gone + rest
  {
  }

  lemma MinusLooks(ix: Index, gone: set<string>)
    ensures Minus(ix, gone).byId == ix.byId - gone
  {
  }

  lemma TasksWithin(ix: Index, ids: set<string>)
    ensures TasksOf(ix, ids) <= Tasks(ix)
  {
  }

  lemma TouchedConsistent(ix: Index, id: string, now: int)
    requires Consistent(ix) && id in ix.byId
    ensures Consistent(ix.(byId := ix.byId[id := ix.byId[id].(touched := now)]))
  {
    var ix' := ix.(byId := ix.byId[id := ix.byId[id].(touched := now)]);
    forall s
      ensures ListedWell(ix', s, MaxPerSession)
    {
      assert ListedWell(ix, s, MaxPerSession);
    }
    forall x
      ensures Filed(ix', x)
    {
      assert Filed(ix, x);
    }
  }

  // The task just added is the last of its list, so trimming never takes it.
  lemma NewestStays(kept: Index, session: string, id: string, task: Task, now: int)
    requires Consistent(kept) && id !in kept.byId
    ensures id !in Overflow(Added(kept, session, id, task, now).bySession[session])
  {
    assert ListedWell(kept, session, MaxPerSession);
  }

  lemma OlderTasks(before: Index, kept: Index, session: string, id: string, task: Task, now: int)
    requires Consistent(kept) && kept == Minus(before, Stale(before, now)) && id !in before.byId
    ensures var all := Added(kept, session, id, task, now);
            TasksOf(all, Overflow(all.bySession[session])) <= Tasks(before)
  {
    NewestStays(kept, session, id, task, now);
  }

  // Of a list, the last four stay.
  lemma LastFourStay(ids: seq<string>, k: nat)
    requires Distinct(ids) && k < |ids|
    ensures ids[k] in Overflow(ids) <==> k + 4 < |ids|
  {
    if ids[k] in Overflow(ids) {
      var j :| 0 <= j < Cut(ids) && ids[..Cut(ids)][j] == ids[k];
    }
  }

  // After Start: the new task is filed, young and last of its session; what else is left is
  // not stale, and of other sessions nothing else is gone.
  lemma StartedWell(before: Index, after: Index, session: string, id: string, task: Task, now: int)
    requires Consistent(before) && Consistent(after) && id !in before.byId
    requires var all := Added(Minus(before, Stale(before, now)), session, id, task, now);
             after == Minus(all, Overflow(all.bySession[session]))
    ensures id in after.byId && after.byId[id] == Entry(task, session, now)
    ensures session in after.bySession && |after.bySession[session]| <= 4
            && after.bySession[session][|after.bySession[session]| - 1] == id
    ensures forall x :: x in after.byId && x != id ==>
              x in before.byId && after.byId[x] == before.byId[x] && before.byId[x].touched >= now - 600_000_000_000
    ensures forall x :: x in before.byId && before.byId[x].session != session && before.byId[x].touched >= now - 600_000_000_000 ==>
              x in after.byId
  {
    var stale := Stale(before, now);
    var kept := Minus(before, stale);
    var all := Added(kept, session, id, task, now);
    var over := Overflow(all.bySession[session]);
    MinusConsistent(before, stale);
    NewestStays(kept, session, id, task, now);
    OverIsOwn(kept, session, id, task, now);
    MinusLooks(before, stale);
    MinusLooks(all, over);
    ListAfter(all, after, session, over, id);
    hide Consistent, Minus, Overflow;
  }

  lemma NotHeld(ix: Index, task: Task)
    requires forall id :: id in ix.byId ==> ix.byId[id].task != task
    ensures task !in Tasks(ix)
  {
  }

  lemma ListAfter(all: Index, after: Index, session: string, over: set<string>, id: string)
    requires session in all.bySession && all.bySession[session] != [] && all.bySession[session][|all.bySession[session]| - 1] == id
    requires after == Minus(all, over) && id !in over && Consistent(after)
    ensures session in after.bySession && |after.bySession[session]| <= 4
            && after.bySession[session][|after.bySession[session]| - 1] == id
  {
    LastOfList(all.bySession[session], id, over);
    assert ListedWell(after, session, MaxPerSession);
    hide Consistent;
  }

  lemma OverIsOwn(kept: Index, session: string, id: string, task: Task, now: int)
    requires Consistent(kept) && id !in kept.byId
    ensures forall x :: x in Overflow(Added(kept, session, id, task, now).bySession[session]) && x in kept.byId ==>
              kept.byId[x].session == session
  {
    assert ListedWell(kept, session, MaxPerSession);
  }

  lemma LastOfList(ids: seq<string>, id: string, gone: set<string>)
    requires ids != [] && ids[|ids| - 1] == id && id !in gone
    ensures Except(ids, gone) != [] && Except(ids, gone)[|Except(ids, gone)| - 1] == id
  {
  }

  // The package comment promises that whatever is dropped is cancelled. For
  // Start that holds exactly when nothing was stale: a task its own sweep drops
  // is neither over the limit nor the new one, so it is left as it was.
  lemma StartCancelsAllItDropsExactly(before: Index, session: string, id: string, task: Task, now: int)
    requires Consistent(before) && id !in before.byId && task !in Tasks(before)
    ensures var all := Added(Minus(before, Stale(before, now)), session, id, task, now);
            var over := Overflow(all.bySession[session]);
            (forall x :: x in before.byId && x !in Minus(all, over).byId ==> before.byId[x].task in TasksOf(all, over))
            <==> Stale(before, now) == {}
  {
    var stale := Stale(before, now);
    var kept := Minus(before, stale);
    var all := Added(kept, session, id, task, now);
    var over := Overflow(all.bySession[session]);
    NewestStaysAfterSweep(before, session, id, task, now);
    if stale != {} {
      var x :| x in stale;
      forall y | y in over && y in all.byId
        ensures all.byId[y].task != before.byId[x].task
      {
        assert y in before.byId && y != x;
      }
      assert x in before.byId && x !in Minus(all, over).byId;
    } else {
      forall x | x in before.byId && x !in Minus(all, over).byId
        ensures before.byId[x].task in TasksOf(all, over)
      {
        assert x in over && all.byId[x].task == before.byId[x].task;
      }
    }
  }

  lemma NewestStaysAfterSweep(before: Index, session: string, id: string, task: Task, now: int)
    requires Consistent(before) && id !in before.byId
    ensures id !in Overflow(Added(Minus(before, Stale(before, now)), session, id, task, now).bySession[session])
  {
    MinusConsistent(before, Stale(before, now));
    NewestStays(Minus(before, Stale(before, now)), session, id, task, now);
  }

  // It does happen: the only task of a session has gone stale, and the next Start forgets
  // it while its sources are still being polled.
  lemma StaleTaskIsLeft(old': Task, new': Task, session: string, now: int)
    requires old' != new'
    ensures var before := Index(map["a" := Entry(old', session, now - TaskTTL - 1)], map[session := ["a"]]);
            var all := Added(Minus(before, Stale(before, now)), session, "b", new', now);
            var over := Overflow(all.bySession[session]);
            && Consistent(before) && Stale(before, now) == {"a"}
            && "a" !in Minus(all, over).byId && old' !in TasksOf(all, over)
  {
    var before := Index(map["a" := Entry(old', session, now - TaskTTL - 1)], map[session := ["a"]]);
    assert ["a"][0] == "a" && "a" in ["a"] && forall s :: ListedWell(before, s, MaxPerSession);
    assert forall id :: Filed(before, id);
    assert Stale(before, now) == {"a"};
    ExceptKeeps(["a"], {"a"});
    MinusConsistent(before, {"a"});
    StartCancelsAllItDropsExactly(before, session, "b", new', now);
  }
}
