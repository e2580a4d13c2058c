/**
 The Version 4 scheduler with its map accesses split into memory steps. A worker's status
 write is a walk along a chain, node by node: the write of status 1 inside the critical
 section, whose mutex the walking worker holds, and the write of status 2 outside it. A saver
 walks the same memory. All of them interleave.
 */
module SplitScheduler {

  import opened Options
  import opened PoolModel
  import opened PoolSafety
  import opened PoolLiveness
  import opened PoolHistory
  import opened ChainedMap
  import opened SharedChains
  import W = UnlockedWalk
  import F = FuzzySnapshot

  /** `walks` holds the walks under way, by worker; `holder` is the worker that walks inside the section. */
  datatype System = System(s: State, m: Memory, walks: map<nat, W.Walk>, holder: Option<nat>, saver: F.Saver)

  datatype Step =
    | Plain(action: Action)
    | StartWalk(id: nat)
    | LookAhead(id: nat)
    | WriteStatus(id: nat, woken: Waiter)
    | SaverStep

  function Begin(c: Config, todo: seq<int>): System {
    System(Init(c, todo), EmptyMemory(), map[], None, F.Start(EmptyMemory()).s)
  }

  /** The ticket whose status a worker writes: the one it holds, or the one it is about to take. */
  function TicketOf(s: State, id: nat): int {
    if id < |s.workers| && s.workers[id].Grading? then s.workers[id].ticket
    else if s.queue != [] then s.queue[0] else -1
  }

  /** The step of the scheduler that a status write completes. */
  function Completed(s: State, id: nat, woken: Waiter): Action {
    if id < |s.workers| && s.workers[id].Grading? then GraderDone(id) else WorkerSection(id, woken)
  }

  function NewStatus(s: State, id: nat): int {
    if id < |s.workers| && s.workers[id].Grading? then 2 else 1
  }

  predicate NeedsMutex(a: Action) {
    a.MasterSection? || a.WorkerSection? || a.WorkerResumes?
  }

  ghost predicate Allowed(c: Config, x: System, st: Step) {
    match st
    case Plain(a) =>
      // no status write: those are walks
      && Enabled(c, x.s, a) && !a.GraderDone? && (a.WorkerSection? ==> x.s.noReq <= 0)
      && (NeedsMutex(a) ==> x.holder == None)
      && (a.MasterSection? ==> |x.m.heads| == SIZE && 0 <= Hash(x.s.todo[0]))
    case StartWalk(id) =>
      && id < |x.s.workers| && id !in x.walks
      && (x.s.workers[id].Grading? || (x.s.workers[id].Idle? && x.s.noReq > 0 && x.s.queue != [] && x.holder == None))
      && |x.m.heads| == SIZE && 0 <= Hash(TicketOf(x.s, id))
    case LookAhead(id) => id in x.walks && W.CanMove(x.m, x.walks[id], W.Own)
    case WriteStatus(id, w) =>
      && id in x.walks && x.walks[id].Found? && x.walks[id].address < |x.m.nodes|
      && Enabled(c, x.s, Completed(x.s, id, w))
    case SaverStep => F.CanMove(F.Situation(x.m, x.saver), F.Own)
  }

  /** What a step does to the memory, if anything. */
  ghost function MemoryEvent(c: Config, x: System, st: Step): Option<Event>
    requires Allowed(c, x, st)
  {
    match st
    case Plain(a) =>
      if a.MasterSection? && |x.s.queue| != c.capacity then Some(Publish(x.s.todo[0], 0)) else None
    case WriteStatus(id, _) => Some(Write(x.walks[id].address, NewStatus(x.s, id)))
    case _ => None
  }

  ghost function MemoryNext(c: Config, x: System, st: Step): Memory
    requires Allowed(c, x, st)
  {
    match MemoryEvent(c, x, st) case Some(e) => Do(x.m, e) case None => x.m
  }

  /** The step of the scheduler that a split step amounts to, if any. */
  function SchedulerSteps(x: System, st: Step): seq<Action> {
    match st
    case Plain(a) => [a]
    case WriteStatus(id, w) => [Completed(x.s, id, w)]
    case _ => []
  }

  ghost function Proceed(c: Config, x: System, st: Step): System
    requires Allowed(c, x, st)
  {
    var m := MemoryNext(c, x, st);
    match st
    case Plain(a) => x.(s := Next(c, x.s, a), m := m)
    case StartWalk(id) =>
      x.(walks := x.walks[id := W.At(x.m.heads[Hash(TicketOf(x.s, id))])],
         holder := if x.s.workers[id].Idle? then Some(id) else x.holder)
    case LookAhead(id) => x.(walks := x.walks[id := W.Look(x.m, x.walks[id], TicketOf(x.s, id))])
    case WriteStatus(id, w) =>
      x.(s := Next(c, x.s, Completed(x.s, id, w)),
         m := m,
         walks := x.walks - {id},
         holder := if x.holder == Some(id) then None else x.holder)
    case SaverStep => x.(saver := F.SaveStep(x.m, x.saver))
  }

  ghost predicate IsSplitRun(c: Config, x: System, steps: seq<Step>)
    decreases |steps|
  {
    steps == [] || (Allowed(c, x, steps[0]) && IsSplitRun(c, Proceed(c, x, steps[0]), steps[1..]))
  }

  ghost function Reached(c: Config, x: System, steps: seq<Step>): System
    requires IsSplitRun(c, x, steps)
    decreases |steps|
  {
    if steps == [] then x else Reached(c, Proceed(c, x, steps[0]), steps[1..])
  }

  /** The run of the scheduler that a split run amounts to. */
  ghost function Projected(c: Config, x: System, steps: seq<Step>): seq<Action>
    requires IsSplitRun(c, x, steps)
    decreases |steps|
  {
    if steps == [] then []
    else SchedulerSteps(x, steps[0]) + Projected(c, Proceed(c, x, steps[0]), steps[1..])
  }

  // ---------- The invariant ----------

  ghost predicate Bound(m: Memory, ticket: int) {
    exists a :: 0 <= a < |m.nodes| && m.nodes[a].key == ticket
  }

  /** The memory binds each ticket once, to its status. */
  ghost predicate Agrees(status: map<int, int>, m: Memory) {
    && WellFormed(m) && F.UniqueKeys(m)
    && (forall a :: 0 <= a < |m.nodes| ==> m.nodes[a].key in status && status[m.nodes[a].key] == m.nodes[a].status)
    && (forall t :: t in status ==> Bound(m, t))
  }

  /** A walk will find the node of its worker's ticket. */
  ghost predicate WalkOk(x: System, id: nat)
    requires WellFormed(x.m) && id in x.walks
  {
    var t := TicketOf(x.s, id);
    var w := W.Situation(x.m, x.walks[id]);
    && id < |x.s.workers| && 0 <= Hash(t) && t in x.s.accepted
    && (x.s.workers[id].Grading? ||
        (x.s.workers[id].Idle? && x.holder == Some(id) && x.s.queue != [] && x.s.noReq > 0))
    && W.InMemory(w) && W.Ahead(w, t).Some? && W.Ahead(w, t) == Target(x.m, t)
  }

  ghost predicate SchedulerInv(c: Config, submitted: seq<int>, s: State) {
    && c.variant.Version4? && Distinct(submitted) && (forall t :: t in submitted ==> 0 <= Hash(t))
    && CountInv(c, s) && OrderInv(submitted, s) && StatusInv(s)
  }

  ghost predicate WalksOk(x: System)
    requires WellFormed(x.m)
  {
    && (forall id :: id in x.walks ==> WalkOk(x, id))
    && (x.holder.Some? ==>
          && x.holder.value in x.walks && x.holder.value < |x.s.workers|
          && x.s.workers[x.holder.value].Idle?)
  }

  ghost predicate SystemInv(c: Config, submitted: seq<int>, x: System) {
    SchedulerInv(c, submitted, x.s) && Agrees(x.s.status, x.m) && WalksOk(x)
  }

  lemma NextKeepsSchedulerInv(c: Config, submitted: seq<int>, s: State, a: Action)
    requires SchedulerInv(c, submitted, s) && Enabled(c, s, a)
    ensures SchedulerInv(c, submitted, Next(c, s, a))
  {
    StepCounts(c, s, a);
    StepOrder(c, submitted, s, a);
    StepStatus(c, submitted, s, a);
  }

  lemma AcceptedInTable(c: Config, submitted: seq<int>, s: State, t: int)
    requires SchedulerInv(c, submitted, s) && t in s.accepted
    ensures 0 <= Hash(t)
  {
    var i :| 0 <= i < |s.accepted| && s.accepted[i] == t;
    assert submitted[i] == t;
  }

  /** A bound ticket's node is what a lookup finds. */
  lemma BoundHasTarget(status: map<int, int>, m: Memory, t: int)
    requires Agrees(status, m) && t in status && 0 <= Hash(t)
    ensures Target(m, t).Some? && m.nodes[Target(m, t).value].status == status[t]
  {
    var a :| 0 <= a < |m.nodes| && m.nodes[a].key == t;
    assert a in Addresses(m.nodes, m.heads[Hash(t)]);
    F.SearchFindsUnique(m.nodes, m.heads[Hash(t)], t, a);
  }

  // ---------- Steps keep the memory in agreement ----------

  lemma PublishAgrees(status: map<int, int>, m: Memory, t: int)
    requires Agrees(status, m) && t !in status && 0 <= Hash(t)
    ensures Agrees(status[t := 0], Do(m, Publish(t, 0)))
  {
    var r := Do(m, Publish(t, 0));
    DoWellFormed(m, Publish(t, 0));
    assert r.nodes[|m.nodes|].key == t;
    forall k | k in status ensures Bound(r, k) {
      var a :| 0 <= a < |m.nodes| && m.nodes[a].key == k;
      assert r.nodes[a].key == k;
    }
  }

  lemma WriteAgrees(status: map<int, int>, m: Memory, a: nat, v: int)
    requires Agrees(status, m) && a < |m.nodes|
    ensures Agrees(status[m.nodes[a].key := v], Do(m, Write(a, v)))
  {
    var r := Do(m, Write(a, v));
    DoWellFormed(m, Write(a, v));
    forall k | k in status ensures Bound(r, k) {
      var b :| 0 <= b < |m.nodes| && m.nodes[b].key == k;
      assert r.nodes[b].key == k;
    }
  }

  /** A walk of which nothing changes but the memory, by an event that does not insert its key. */
  lemma WalkSurvives(x: System, y: System, id: nat, e: Option<Event>)
    requires WellFormed(x.m) && id in x.walks && WalkOk(x, id)
    requires id in y.walks && y.walks[id] == x.walks[id]
    requires e.Some? ==> Possible(x.m, e.value) && (e.value.Publish? ==> e.value.key != TicketOf(x.s, id))
    requires y.m == match e case Some(v) => Do(x.m, v) case None => x.m
    requires id < |y.s.workers| && y.s.workers[id] == x.s.workers[id] && TicketOf(x.s, id) in y.s.accepted
    requires x.s.workers[id].Idle? ==> y.holder == x.holder && y.s.queue == x.s.queue && y.s.noReq == x.s.noReq
    ensures WellFormed(y.m) && WalkOk(y, id)
  {
    if e.Some? {
      var t := TicketOf(x.s, id);
      DoWellFormed(x.m, e.value);
      DoKeepsLinks(x.m, e.value);
      TargetKept(x.m, e.value, t);
      if x.walks[id].At? {
        SearchKept(x.m.nodes, y.m.nodes, x.walks[id].p, t);
      }
    }
  }

  lemma PlainAgrees(c: Config, submitted: seq<int>, x: System, a: Action)
    requires SystemInv(c, submitted, x) && Allowed(c, x, Plain(a))
    ensures Agrees(Next(c, x.s, a).status, MemoryNext(c, x, Plain(a)))
  {
    if a.MasterSection? && |x.s.queue| != c.capacity {
      PartsDisjoint(submitted, x.s);
      PublishAgrees(x.s.status, x.m, x.s.todo[0]);
    }
  }

  /** What a plain step leaves to a walking worker. */
  lemma PlainSparesWalker(c: Config, submitted: seq<int>, x: System, a: Action, id: nat)
    requires SystemInv(c, submitted, x) && Allowed(c, x, Plain(a)) && id in x.walks
    ensures var y, t := Next(c, x.s, a), TicketOf(x.s, id);
            && id < |x.s.workers| && id < |y.workers| && y.workers[id] == x.s.workers[id]
            && TicketOf(y, id) == t && t in y.accepted
            && (x.s.workers[id].Idle? ==> y.queue == x.s.queue && y.noReq == x.s.noReq)
            && (a.MasterSection? && |x.s.queue| != c.capacity ==> x.s.todo[0] != t)
  {
    hide W.InMemory;
    hide F.UniqueKeys;
    hide Bound;
    hide StatusInv;
    hide CountInv;
    hide Distinct;
    hide Target;
    assert WalkOk(x, id);
    var t := TicketOf(x.s, id);
    PartsDisjoint(submitted, x.s);
    StepOrder(c, submitted, x.s, a);
    assert t in Next(c, x.s, a).accepted by { PrefixMember(x.s.accepted, Next(c, x.s, a).accepted, t); }
  }

  lemma PlainKeepsWalk(c: Config, submitted: seq<int>, x: System, a: Action, id: nat)
    requires SystemInv(c, submitted, x) && Allowed(c, x, Plain(a)) && id in x.walks
    ensures var y := Proceed(c, x, Plain(a)); WellFormed(y.m) && WalkOk(y, id)
  {
    hide Next;
    PlainSparesWalker(c, submitted, x, a, id);
    WalkSurvives(x, Proceed(c, x, Plain(a)), id, MemoryEvent(c, x, Plain(a)));
  }

  lemma PlainKeepsInv(c: Config, submitted: seq<int>, x: System, a: Action)
    requires SystemInv(c, submitted, x) && Allowed(c, x, Plain(a))
    ensures SystemInv(c, submitted, Proceed(c, x, Plain(a)))
  {
    hide Next;
    hide WalkOk;
    hide SchedulerInv;
    hide Enabled;
    var y := Proceed(c, x, Plain(a));
    NextKeepsSchedulerInv(c, submitted, x.s, a);
    PlainAgrees(c, submitted, x, a);
    forall id | id in y.walks ensures WalkOk(y, id) {
      PlainKeepsWalk(c, submitted, x, a, id);
    }
    if x.holder.Some? {
      PlainSparesWalker(c, submitted, x, a, x.holder.value);
    }
  }

  lemma PrefixMember(a: seq<int>, b: seq<int>, t: int)
    requires a <= b && t in a
    ensures t in b
  {
    var i :| 0 <= i < |a| && a[i] == t;
    assert b[i] == t;
  }

  lemma TicketHashes(c: Config, submitted: seq<int>, x: System, id: nat)
    requires SystemInv(c, submitted, x) && id < |x.s.workers|
    requires x.s.workers[id].Grading? || x.s.queue != []
    ensures TicketOf(x.s, id) in x.s.accepted && 0 <= Hash(TicketOf(x.s, id))
  {
    PartsDisjoint(submitted, x.s);
    if !x.s.workers[id].Grading? {
      assert x.s.queue[0] in x.s.queue;
    }
    AcceptedInTable(c, submitted, x.s, TicketOf(x.s, id));
  }

  lemma StartKeepsInv(c: Config, submitted: seq<int>, x: System, id: nat)
    requires SystemInv(c, submitted, x) && Allowed(c, x, StartWalk(id))
    ensures SystemInv(c, submitted, Proceed(c, x, StartWalk(id)))
  {
    var y, t := Proceed(c, x, StartWalk(id)), TicketOf(x.s, id);
    TicketHashes(c, submitted, x, id);
    BoundHasTarget(x.s.status, x.m, t);
    forall other | other in y.walks ensures WalkOk(y, other) {
      if other != id {
        assert WalkOk(x, other);
        WalkSurvives(x, y, other, None);
      }
    }
  }

  lemma LookKeepsInv(c: Config, submitted: seq<int>, x: System, id: nat)
    requires SystemInv(c, submitted, x) && Allowed(c, x, LookAhead(id))
    ensures SystemInv(c, submitted, Proceed(c, x, LookAhead(id)))
  {
    hide SchedulerInv;
    hide F.UniqueKeys;
    hide Bound;
    var y := Proceed(c, x, LookAhead(id));
    assert WalkOk(x, id);
    forall other | other in y.walks ensures WalkOk(y, other) {
      if other != id {
        assert WalkOk(x, other);
        WalkSurvives(x, y, other, None);
      }
    }
  }

  /** A completed walk stands on the node of its ticket, whose status it raises by one. */
  lemma WriteHits(c: Config, submitted: seq<int>, x: System, id: nat, w: Waiter)
    requires SystemInv(c, submitted, x) && Allowed(c, x, WriteStatus(id, w))
    ensures var node := x.m.nodes[x.walks[id].address];
            && node.key == TicketOf(x.s, id) && node.status == NewStatus(x.s, id) - 1
            && Next(c, x.s, Completed(x.s, id, w)).status == x.s.status[node.key := NewStatus(x.s, id)]
  {
    hide F.UniqueKeys;
    hide Bound;
    hide CountInv;
    hide Distinct;
    assert WalkOk(x, id);
    PartsDisjoint(submitted, x.s);
    if x.s.workers[id].Idle? {
      assert x.s.queue[0] in x.s.queue;
    }
  }

  lemma WriteKeepsWalk(c: Config, submitted: seq<int>, x: System, id: nat, w: Waiter, other: nat)
    requires SystemInv(c, submitted, x) && Allowed(c, x, WriteStatus(id, w)) && other in x.walks && other != id
    ensures var y := Proceed(c, x, WriteStatus(id, w));
            && other in y.walks && WellFormed(y.m) && WalkOk(y, other)
            && other < |x.s.workers| && other < |y.s.workers| && y.s.workers[other] == x.s.workers[other]
  {
    hide Next;
    hide F.UniqueKeys;
    hide Bound;
    hide SchedulerInv;
    assert WalkOk(x, id) && WalkOk(x, other);
    WriteSparesOthers(c, x.s, id, other, w);
    WalkSurvives(x, Proceed(c, x, WriteStatus(id, w)), other, MemoryEvent(c, x, WriteStatus(id, w)));
  }

  lemma WriteKeepsInv(c: Config, submitted: seq<int>, x: System, id: nat, w: Waiter)
    requires SystemInv(c, submitted, x) && Allowed(c, x, WriteStatus(id, w))
    ensures SystemInv(c, submitted, Proceed(c, x, WriteStatus(id, w)))
  {
    hide Next;
    hide Enabled;
    hide SchedulerInv;
    hide WalkOk;
    var y, a := Proceed(c, x, WriteStatus(id, w)), Completed(x.s, id, w);
    WriteHits(c, submitted, x, id, w);
    NextKeepsSchedulerInv(c, submitted, x.s, a);
    WriteAgrees(x.s.status, x.m, x.walks[id].address, NewStatus(x.s, id));
    forall other | other in y.walks ensures WalkOk(y, other) {
      WriteKeepsWalk(c, submitted, x, id, w, other);
    }
    if x.holder.Some? && x.holder.value != id {
      WriteKeepsWalk(c, submitted, x, id, w, x.holder.value);
    }
  }

  lemma WriteSparesOthers(c: Config, s: State, id: nat, other: nat, w: Waiter)
    requires id < |s.workers| && other < |s.workers| && other != id
    requires Enabled(c, s, Completed(s, id, w)) && !s.workers[other].Waiting?
    ensures var t := Next(c, s, Completed(s, id, w));
            && other < |t.workers| && t.workers[other] == s.workers[other] && t.accepted == s.accepted
            && (s.workers[id].Grading? ==> t.queue == s.queue && t.noReq == s.noReq)
  {
  }

  lemma SplitStepKeepsInv(c: Config, submitted: seq<int>, x: System, st: Step)
    requires SystemInv(c, submitted, x) && Allowed(c, x, st)
    ensures SystemInv(c, submitted, Proceed(c, x, st))
    ensures IsRun(c, x.s, SchedulerSteps(x, st)) && After(c, x.s, SchedulerSteps(x, st)) == Proceed(c, x, st).s
  {
    match st
    case Plain(a) =>
      PlainKeepsInv(c, submitted, x, a);
      OneStepRun(c, x.s, a);
    case StartWalk(id) => StartKeepsInv(c, submitted, x, id);
    case LookAhead(id) => LookKeepsInv(c, submitted, x, id);
    case WriteStatus(id, w) =>
      WriteKeepsInv(c, submitted, x, id, w);
      OneStepRun(c, x.s, Completed(x.s, id, w));
    case SaverStep =>
      var y := Proceed(c, x, st);
      forall id | id in y.walks ensures WalkOk(y, id) {
        assert WalkOk(x, id);
      }
  }

  lemma OneStepRun(c: Config, s: State, a: Action)
    requires Enabled(c, s, a)
    ensures IsRun(c, s, [a]) && After(c, s, [a]) == Next(c, s, a)
  {
    assert IsRun(c, Next(c, s, a), [a][1..]);
  }

  // ---------- Split runs are runs of the scheduler ----------

  lemma {:induction false} SplitRunKeepsInv(c: Config, submitted: seq<int>, x: System, steps: seq<Step>)
    requires SystemInv(c, submitted, x) && IsSplitRun(c, x, steps)
    ensures SystemInv(c, submitted, Reached(c, x, steps))
    ensures IsRun(c, x.s, Projected(c, x, steps))
    ensures After(c, x.s, Projected(c, x, steps)) == Reached(c, x, steps).s
    decreases |steps|
  {
    if steps != [] {
      var y := Proceed(c, x, steps[0]);
      SplitStepKeepsInv(c, submitted, x, steps[0]);
      SplitRunKeepsInv(c, submitted, y, steps[1..]);
      RunThenRun(c, x.s, SchedulerSteps(x, steps[0]), Projected(c, y, steps[1..]));
    }
  }

  lemma BeginInv(c: Config, todo: seq<int>)
    requires c.variant.Version4? && Distinct(todo) && forall t :: t in todo ==> 0 <= Hash(t)
    ensures SystemInv(c, todo, Begin(c, todo))
  {
    InitCounts(c, todo);
    InitOrder(c, todo);
    InitStatus(c, todo);
    EmptyIsWellFormed();
  }

  /** A walking worker is never stuck: it looks at the next node, or it has found its ticket and writes. */
  ghost predicate CanGoOn(c: Config, x: System, id: nat) {
    Allowed(c, x, LookAhead(id)) || exists w :: Allowed(c, x, WriteStatus(id, w))
  }

  lemma NoWalkFails(c: Config, submitted: seq<int>, x: System, id: nat)
    requires SystemInv(c, submitted, x) && id in x.walks
    ensures x.walks[id] != W.At(None) && CanGoOn(c, x, id)
  {
    hide SchedulerInv;
    hide F.UniqueKeys;
    hide Bound;
    assert WalkOk(x, id);
    if x.walks[id].Found? {
      var w := SomeChoice(x.s);
      assert Enabled(c, x.s, Completed(x.s, id, w));
      assert Allowed(c, x, WriteStatus(id, w));
    }
  }

  /**
   Refinement. However the memory accesses interleave, the split scheduler runs as the
   scheduler whose status writes are indivisible: its scheduler state is reached by such a
   run, the memory binds exactly the accepted tickets, once each and to their statuses, and
   no walk ever ends without having found its ticket or gets stuck.
   */
  lemma SplitRunRefines(c: Config, todo: seq<int>, steps: seq<Step>)
    requires c.variant.Version4? && Distinct(todo) && forall t :: t in todo ==> 0 <= Hash(t)
    requires IsSplitRun(c, Begin(c, todo), steps)
    ensures var x := Reached(c, Begin(c, todo), steps);
            var run := Projected(c, Begin(c, todo), steps);
            && IsRun(c, Init(c, todo), run) && After(c, Init(c, todo), run) == x.s
            && Agrees(x.s.status, x.m)
            && (forall id :: id in x.walks ==> x.walks[id] != W.At(None) && CanGoOn(c, x, id))
  {
    hide SchedulerInv;
    hide Enabled;
    hide Next;
    hide Allowed;
    hide WalkOk;
    hide StatusInv;
    BeginInv(c, todo);
    SplitRunKeepsInv(c, todo, Begin(c, todo), steps);
    var x := Reached(c, Begin(c, todo), steps);
    forall id | id in x.walks ensures x.walks[id] != W.At(None) && CanGoOn(c, x, id) {
      NoWalkFails(c, todo, x, id);
    }
  }

  // ---------- Runs of the scheduler are split runs ----------

  lemma {:induction false} SplitRunThenRun(c: Config, x: System, first: seq<Step>, second: seq<Step>)
    requires IsSplitRun(c, x, first) && IsSplitRun(c, Reached(c, x, first), second)
    ensures IsSplitRun(c, x, first + second)
    ensures Reached(c, x, first + second) == Reached(c, Reached(c, x, first), second)
    ensures Projected(c, x, first + second) == Projected(c, x, first) + Projected(c, Reached(c, x, first), second)
    decreases |first|
  {
    hide Allowed;
    hide Proceed;
    if first == [] {
      assert first + second == second;
    } else {
      assert (first + second)[1..] == first[1..] + second;
      SplitRunThenRun(c, Proceed(c, x, first[0]), first[1..], second);
    }
  }

  lemma StepThenRun(c: Config, x: System, st: Step, rest: seq<Step>)
    requires Allowed(c, x, st) && IsSplitRun(c, Proceed(c, x, st), rest)
    ensures IsSplitRun(c, x, [st] + rest)
    ensures Reached(c, x, [st] + rest) == Reached(c, Proceed(c, x, st), rest)
    ensures Projected(c, x, [st] + rest) == SchedulerSteps(x, st) + Projected(c, Proceed(c, x, st), rest)
  {
    hide Allowed;
    hide Proceed;
    assert ([st] + rest)[1..] == rest;
  }

  /** The only walk under way is walked to its end and its status written. */
  lemma WalkOut(c: Config, submitted: seq<int>, x: System, id: nat, w: Waiter) returns (steps: seq<Step>)
    requires SystemInv(c, submitted, x) && x.walks.Keys == {id} && Enabled(c, x.s, Completed(x.s, id, w))
    ensures IsSplitRun(c, x, steps) && Projected(c, x, steps) == [Completed(x.s, id, w)]
    ensures Reached(c, x, steps).walks == map[] && Reached(c, x, steps).holder == None
    decreases W.LooksLeft(W.Situation(x.m, x.walks[id]))
  {
    hide SchedulerInv;
    hide Next;
    hide F.UniqueKeys;
    hide Bound;
    hide Target;
    assert WalkOk(x, id);
    var st := if x.walks[id].Found? then WriteStatus(id, w) else LookAhead(id);
    var y := Proceed(c, x, st);
    if x.walks[id].Found? {
      steps := [];
    } else {
      LookKeepsInv(c, submitted, x, id);
      assert WalkOk(y, id);
      steps := WalkOut(c, submitted, y, id, w);
    }
    StepThenRun(c, x, st, steps);
    steps := [st] + steps;
  }

  predicate AtRest(x: System) {
    x.walks == map[] && x.holder == None
  }

  /** Without a walk under way a status write can be walked through from its start to its end. */
  lemma WalkThrough(c: Config, submitted: seq<int>, x: System, id: nat, w: Waiter) returns (steps: seq<Step>)
    requires SystemInv(c, submitted, x) && AtRest(x) && Enabled(c, x.s, Completed(x.s, id, w))
    requires id < |x.s.workers| && (x.s.workers[id].Idle? ==> x.s.noReq > 0)
    ensures IsSplitRun(c, x, steps) && Projected(c, x, steps) == [Completed(x.s, id, w)]
    ensures AtRest(Reached(c, x, steps))
  {
    hide Next;
    hide StatusInv;
    hide OrderInv;
    hide F.UniqueKeys;
    hide Bound;
    var st := StartWalk(id);
    TicketHashes(c, submitted, x, id);
    StartKeepsInv(c, submitted, x, id);
    steps := WalkOut(c, submitted, Proceed(c, x, st), id, w);
    StepThenRun(c, x, st, steps);
    steps := [st] + steps;
  }

  lemma SplitOneStep(c: Config, submitted: seq<int>, x: System, a: Action) returns (steps: seq<Step>)
    requires SystemInv(c, submitted, x) && AtRest(x) && Enabled(c, x.s, a)
    ensures IsSplitRun(c, x, steps) && Projected(c, x, steps) == [a] && AtRest(Reached(c, x, steps))
  {
    hide Next;
    hide StatusInv;
    hide F.UniqueKeys;
    hide Bound;
    if a.GraderDone? || (a.WorkerSection? && x.s.noReq > 0) {
      steps := WalkThrough(c, submitted, x, a.id, if a.WorkerSection? then a.woken else Nobody);
    } else {
      if a.MasterSection? {
        assert x.s.todo[0] in submitted;
      }
      StepThenRun(c, x, Plain(a), []);
      steps := [Plain(a)] + [];
    }
  }

  lemma {:induction false} SplitAllSteps(c: Config, submitted: seq<int>, x: System, run: seq<Action>)
      returns (steps: seq<Step>)
    requires SystemInv(c, submitted, x) && AtRest(x) && IsRun(c, x.s, run)
    ensures IsSplitRun(c, x, steps) && Projected(c, x, steps) == run && AtRest(Reached(c, x, steps))
    decreases |run|
  {
    if run == [] {
      return [];
    }
    steps := SplitOneStep(c, submitted, x, run[0]);
    SplitRunKeepsInv(c, submitted, x, steps);
    OneStepRun(c, x.s, run[0]);
    var rest := SplitAllSteps(c, submitted, Reached(c, x, steps), run[1..]);
    SplitRunThenRun(c, x, steps, rest);
    steps := steps + rest;
  }

  /** Conversely every run of the scheduler with indivisible status writes is what some split run amounts to. */
  lemma EveryRunIsSplit(c: Config, todo: seq<int>, run: seq<Action>)
    requires c.variant.Version4? && Distinct(todo) && forall t :: t in todo ==> 0 <= Hash(t)
    requires IsRun(c, Init(c, todo), run)
    ensures exists steps :: IsSplitRun(c, Begin(c, todo), steps) && Projected(c, Begin(c, todo), steps) == run
  {
    BeginInv(c, todo);
    var steps := SplitAllSteps(c, todo, Begin(c, todo), run);
  }

  /**
   What may happen next beside the walks under way: any step of the scheduler that is no
   status write, unless it needs the mutex and a walk inside the section holds it; the start
   of any status write that is due; the next look of any walk that has not ended; the write
   of any that has; and any step of the saver until it has finished.
   */
  lemma AllowedExactlyWhen(c: Config, submitted: seq<int>, start: Memory, x: System, st: Step)
    requires SystemInv(c, submitted, x) && Saving(start, x)
    ensures Allowed(c, x, st) <==>
            match st
            case Plain(a) =>
              && Enabled(c, x.s, a) && !a.GraderDone? && !(a.WorkerSection? && x.s.queue != [])
              && (NeedsMutex(a) ==> x.holder == None)
            case StartWalk(id) =>
              && id < |x.s.workers| && id !in x.walks
              && (x.s.workers[id].Grading? || (x.s.workers[id].Idle? && x.s.queue != [] && x.holder == None))
            case LookAhead(id) => id in x.walks && x.walks[id].At?
            case WriteStatus(id, w) =>
              id in x.walks && x.walks[id].Found? && (x.s.workers[id].Grading? || CanWake(x.s, w))
            case SaverStep => x.saver.bucket < SIZE
  {
    hide Next, StatusInv, F.UniqueKeys, Bound, F.LinesOk, F.Covered;
    if st.StartWalk? && st.id < |x.s.workers| && (x.s.workers[st.id].Grading? || x.s.queue != []) {
      TicketHashes(c, submitted, x, st.id);
    } else if st.Plain? && Enabled(c, x.s, st.action) && st.action.MasterSection? {
      assert x.s.todo[0] in submitted;
    } else if (st.LookAhead? || st.WriteStatus?) && st.id in x.walks {
      assert WalkOk(x, st.id);
    }
  }

  // ---------- A save beside the running scheduler ----------

  ghost predicate Saving(start: Memory, x: System) {
    F.SaveInv(start, F.Situation(x.m, x.saver))
  }

  lemma SplitStepKeepsSave(c: Config, submitted: seq<int>, start: Memory, x: System, st: Step)
    requires SystemInv(c, submitted, x) && Allowed(c, x, st) && Saving(start, x)
    ensures Saving(start, Proceed(c, x, st))
  {
    var save := F.Situation(x.m, x.saver);
    if st.SaverStep? {
      F.OwnKeepsSaveInv(start, save);
    } else if MemoryEvent(c, x, st).Some? {
      if st.WriteStatus? {
        WriteHits(c, submitted, x, st.id, st.woken);
      }
      F.OtherKeepsSaveInv(start, save, MemoryEvent(c, x, st).value);
    }
  }

  lemma {:induction false} SplitRunKeepsSave(c: Config, submitted: seq<int>, start: Memory, x: System, steps: seq<Step>)
    requires SystemInv(c, submitted, x) && IsSplitRun(c, x, steps) && Saving(start, x)
    ensures Saving(start, Reached(c, x, steps))
    decreases |steps|
  {
    if steps != [] {
      SplitStepKeepsSave(c, submitted, start, x, steps[0]);
      SplitStepKeepsInv(c, submitted, x, steps[0]);
      SplitRunKeepsSave(c, submitted, start, Proceed(c, x, steps[0]), steps[1..]);
    }
  }

  /** The system with a save about to start. */
  function StartSave(x: System): System {
    x.(saver := F.Start(x.m).s)
  }

  /**
   A save of the running scheduler. It starts at any moment of a split run and ends after any
   further steps of everybody. Its file has exactly one line for every ticket accepted before
   the start, none for a ticket not accepted by the end, and each line's status lies between
   the ticket's statuses in the scheduler at the start and at the end.
   */
  lemma SaveOfRunningScheduler(c: Config, todo: seq<int>, steps: seq<Step>, more: seq<Step>)
    requires c.variant.Version4? && Distinct(todo) && forall t :: t in todo ==> 0 <= Hash(t)
    requires IsSplitRun(c, Begin(c, todo), steps)
    requires var y := StartSave(Reached(c, Begin(c, todo), steps));
             IsSplitRun(c, y, more) && Reached(c, y, more).saver.bucket == SIZE
    ensures var y := StartSave(Reached(c, Begin(c, todo), steps));
            var z := Reached(c, y, more);
            var lines := z.saver.lines;
            && IsRun(c, y.s, Projected(c, y, more)) && After(c, y.s, Projected(c, y, more)) == z.s
            && (forall i, j :: 0 <= i < j < |lines| ==> lines[i].key != lines[j].key)
            && (forall t :: t in y.s.status ==> exists i :: 0 <= i < |lines| && lines[i].key == t)
            && (forall i :: 0 <= i < |lines| ==>
                  && lines[i].key in z.s.status && lines[i].status <= z.s.status[lines[i].key]
                  && (lines[i].key in y.s.status ==> y.s.status[lines[i].key] <= lines[i].status))
  {
    hide SchedulerInv;
    hide Enabled;
    hide Next;
    hide Allowed;
    hide WalkOk;
    hide F.LineOk;
    hide StatusInv;
    BeginInv(c, todo);
    SplitRunKeepsInv(c, todo, Begin(c, todo), steps);
    var x := Reached(c, Begin(c, todo), steps);
    var y := StartSave(x);
    StartSaveKeepsInv(c, todo, x);
    SplitRunKeepsInv(c, todo, y, more);
    SplitRunKeepsSave(c, todo, y.m, y, more);
    var z := Reached(c, y, more);
    SavedLines(y.s.status, y.m, z.s.status, z.m, z.saver);
  }

  lemma StartSaveKeepsInv(c: Config, submitted: seq<int>, x: System)
    requires SystemInv(c, submitted, x)
    ensures SystemInv(c, submitted, StartSave(x)) && Saving(x.m, StartSave(x))
  {
    hide SchedulerInv;
    hide W.InMemory;
    hide W.Ahead;
    hide F.UniqueKeys;
    hide Bound;
    forall id | id in x.walks ensures WalkOk(StartSave(x), id) {
      assert WalkOk(x, id);
    }
    SavingFromTheStart(x);
  }

  lemma SavingFromTheStart(x: System)
    requires WellFormed(x.m)
    ensures Saving(x.m, StartSave(x))
  {
  }

  /** What a finished save says in terms of the statuses. */
  lemma SavedLines(before: map<int, int>, start: Memory, now: map<int, int>, m: Memory, saver: F.Saver)
    requires Agrees(before, start) && Agrees(now, m) && F.SaveInv(start, F.Situation(m, saver)) && saver.bucket == SIZE
    ensures var lines := saver.lines;
            && (forall i, j :: 0 <= i < j < |lines| ==> lines[i].key != lines[j].key)
            && (forall t :: t in before ==> exists i :: 0 <= i < |lines| && lines[i].key == t)
            && (forall i :: 0 <= i < |lines| ==>
                  && lines[i].key in now && lines[i].status <= now[lines[i].key]
                  && (lines[i].key in before ==> before[lines[i].key] <= lines[i].status))
  {
    var lines := saver.lines;
    forall t | t in before ensures exists i :: 0 <= i < |lines| && lines[i].key == t {
      var a :| 0 <= a < |start.nodes| && start.nodes[a].key == t;
      assert 0 <= Hash(start.nodes[a].key) < SIZE;
      assert F.Written(lines, a);
      var i :| 0 <= i < |lines| && lines[i].address == a;
      assert F.LineOk(start, m, lines[i]);
    }
    forall i | 0 <= i < |lines|
      ensures lines[i].key in now && lines[i].status <= now[lines[i].key]
      ensures lines[i].key in before ==> before[lines[i].key] <= lines[i].status
    {
      assert F.LineOk(start, m, lines[i]);
      if lines[i].key in before {
        var a :| 0 <= a < |start.nodes| && start.nodes[a].key == lines[i].key;
        assert m.nodes[a].key == lines[i].key;
      }
    }
  }
}
