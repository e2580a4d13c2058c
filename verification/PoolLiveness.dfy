/** How long the pool can run, and where it can come to rest. */
module PoolLiveness {

  import opened PoolModel
  import opened PoolSafety

  /** The work left: every step with a cause uses some up. */
  ghost function WorkLeft(s: State): nat {
    7 * |s.todo| + 4 * |s.queue| + Total(Effort, s.workers) + if s.master.Awake? then 1 else 0
  }

  function SpuriousSteps(run: seq<Action>): nat {
    if run == [] then 0
    else (if Spurious(run[0]) then 1 else 0) + SpuriousSteps(run[1..])
  }

  lemma WakeUpWork(s: State, w: Waiter)
    requires w.TheMaster? ==> s.master.Asleep?
    requires w.TheWorker? ==> w.id < |s.workers| && s.workers[w.id].Waiting?
    ensures WorkLeft(WakeUp(s, w)) <= WorkLeft(s) + 2
  {
    if w.TheWorker? {
      TotalAfterChange(Effort, s.workers, w.id, Woken);
    }
  }

  lemma DispatchWork(c: Config, s: State, id: nat, w: Waiter)
    requires id < |s.workers| && (s.workers[id].Idle? || s.workers[id].Woken?) && CanDispatch(s, w)
    ensures WorkLeft(WakeUp(Dispatch(c, s, id), w)) < WorkLeft(s)
  {
    TotalAfterChange(Effort, s.workers, id, Grading(s.queue[0]));
    WakeUpWork(Dispatch(c, s, id), w);
  }

  lemma StepWork(c: Config, s: State, a: Action)
    requires CountInv(c, s) && Enabled(c, s, a)
    ensures WorkLeft(Next(c, s, a)) <= WorkLeft(s) + if Spurious(a) then 2 else -1
  {
    match a
    case MasterSection(w) =>
      if |s.queue| < c.capacity {
        WakeUpWork(Accept(c, s), w);
      }
    case WorkerSection(id, w) =>
      if s.noReq > 0 {
        DispatchWork(c, s, id, w);
      } else {
        TotalAfterChange(Effort, s.workers, id, Waiting);
      }
    case WorkerResumes(id, w) =>
      if c.variant.Version3? && s.noReq > 0 {
        DispatchWork(c, s, id, w);
      } else {
        TotalAfterChange(Effort, s.workers, id, Idle);
      }
    case GraderDone(id) => TotalAfterChange(Effort, s.workers, id, Idle);
    case SpuriousWorker(id) => TotalAfterChange(Effort, s.workers, id, Woken);
    case SpuriousMaster =>
  }

  lemma {:induction false} RunWork(c: Config, s: State, run: seq<Action>)
    requires CountInv(c, s) && IsRun(c, s, run)
    ensures |run| + WorkLeft(After(c, s, run)) <= WorkLeft(s) + 3 * SpuriousSteps(run)
    decreases |run|
  {
    if run != [] {
      StepWork(c, s, run[0]);
      StepCounts(c, s, run[0]);
      RunWork(c, Next(c, s, run[0]), run[1..]);
    }
  }

  /**
   Every run is finite once spurious wakeups stop: T submissions and N workers allow at most
   7T + N + 1 steps, and three more for each spurious wakeup.
   */
  lemma RunLengthBound(c: Config, todo: seq<int>, run: seq<Action>)
    requires IsRun(c, Init(c, todo), run)
    ensures |run| <= 7 * |todo| + c.workers + 1 + 3 * SpuriousSteps(run)
  {
    InitCounts(c, todo);
    RunWork(c, Init(c, todo), run);
    TotalOfUniform(Effort, Init(c, todo).workers, Idle);
  }

  // ---------- Where a run can come to rest ----------

  /** A signal can always be sent. */
  lemma SomeChoice(s: State) returns (w: Waiter)
    ensures CanWake(s, w)
  {
    if s.master.Asleep? {
      w := TheMaster;
    } else if i: nat :| i < |s.workers| && s.workers[i].Waiting? {
      w := TheWorker(i);
    } else {
      w := Nobody;
    }
  }

  ghost predicate AllWorkersWait(s: State) {
    forall i :: 0 <= i < |s.workers| ==> s.workers[i].Waiting?
  }

  /**
   At rest, all workers wait on an empty queue, and the master has either run out of
   submissions or sleeps; and such a state is at rest.
   */
  lemma QuietExactly(c: Config, s: State)
    requires CountInv(c, s) && c.workers >= 1
    ensures Quiet(c, s) <==>
            AllWorkersWait(s) && s.queue == [] && (s.master.Asleep? || s.todo == [])
  {
    AllWait(s.workers);
    TotalBounds(WaitingCount, s.workers);
    if Quiet(c, s) {
      var w := SomeChoice(s);
      forall i: nat | i < |s.workers| ensures s.workers[i].Waiting? {
        assert !Enabled(c, s, WorkerSection(i, if s.noReq > 0 then w else Nobody));
        assert !Enabled(c, s, WorkerResumes(i, if c.variant.Version3? && s.noReq > 0 then w else Nobody));
        assert !Enabled(c, s, GraderDone(i));
      }
      assert !Enabled(c, s, MasterSection(if |s.queue| == c.capacity then Nobody else w));
    }
  }

  lemma RestIsQuiet(c: Config, s: State)
    requires AllWorkersWait(s) && (s.master.Asleep? || s.todo == [])
    ensures Quiet(c, s)
  {
  }

  /** A master that sleeps while only spurious wakeups can still happen. */
  ghost predicate Stranded(c: Config, s: State) {
    s.master.Asleep? && Quiet(c, s)
  }

  /** With 1 <= N <= 2K-1 a run can come to rest only when everything is dispatched. */
  lemma RestsOnlyWhenFinished(c: Config, todo: seq<int>, run: seq<Action>)
    requires 1 <= c.workers <= 2 * c.capacity - 1
    requires IsRun(c, Init(c, todo), run) && Quiet(c, After(c, Init(c, todo), run))
    ensures var s := After(c, Init(c, todo), run);
            && s.todo == [] && s.queue == [] && s.noReq == 0
            && s.master.Awake? && AllWorkersWait(s)
  {
    InitCounts(c, todo);
    RunCounts(c, Init(c, todo), run);
    QuietExactly(c, After(c, Init(c, todo), run));
  }

  /** From every state some continuation without spurious wakeups comes to rest. */
  lemma {:induction false} ComesToRest(c: Config, s: State) returns (run: seq<Action>)
    requires CountInv(c, s)
    ensures IsRun(c, s, run) && Quiet(c, After(c, s, run)) && SpuriousSteps(run) == 0
    decreases WorkLeft(s)
  {
    if Quiet(c, s) {
      run := [];
    } else {
      var a :| Enabled(c, s, a) && !Spurious(a);
      StepWork(c, s, a);
      StepCounts(c, s, a);
      var rest := ComesToRest(c, Next(c, s, a));
      run := [a] + rest;
      assert run[1..] == rest;
    }
  }
}
