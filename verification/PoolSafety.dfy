/** What every step keeps about the numbers of waiting threads and queued tickets. */
module PoolSafety {

  import opened PoolModel

  /** The counter agrees with the queue, and neither leaves its range. */
  ghost predicate QueueAgrees(c: Config, s: State) {
    && |s.workers| == c.workers
    && s.noReq == |s.queue| <= c.capacity
    && (s.master.Asleep? ==> s.todo != [])
  }

  /** Once a worker waits, waiting workers and queued tickets together fit in the pool. */
  ghost predicate WaitersBounded(c: Config, s: State) {
    WaitingWorkers(s) > 0 ==> WaitingWorkers(s) + |s.queue| <= c.workers
  }

  /** A waiting master is outnumbered: there are more queued tickets than waiting workers. */
  ghost predicate MasterOutnumbers(s: State) {
    s.master.Asleep? ==> WaitingWorkers(s) < |s.queue|
  }

  ghost predicate CountInv(c: Config, s: State) {
    && QueueAgrees(c, s)
    && WaitersBounded(c, s)
    && (c.workers <= 2 * c.capacity - 1 ==> MasterOutnumbers(s))
  }

  lemma InitCounts(c: Config, todo: seq<int>)
    ensures CountInv(c, Init(c, todo))
    ensures WaitingWorkers(Init(c, todo)) == 0
  {
    TotalOfUniform(WaitingCount, Init(c, todo).workers, Idle);
  }

  /** A signal takes one waiting thread out of the wait set, if there is one. */
  lemma SignalCounts(s: State, w: Waiter, t: State)
    requires CanWake(s, w) && |t.workers| == |s.workers| && t.master == s.master
    requires w.TheWorker? ==> t.workers[w.id].Waiting?
    requires WaitingWorkers(t) == WaitingWorkers(s)
    ensures var r := WakeUp(t, w);
            && |r.workers| == |s.workers|
            && r == t.(workers := r.workers, master := r.master)
            && (r.master.Asleep? ==> s.master.Asleep?)
            && WaitingWorkers(r) <= WaitingWorkers(s)
            && (r.master.Asleep? || (s.master.Awake? && WaitingWorkers(s) > 0) ==>
                  WaitingWorkers(r) == WaitingWorkers(s) - 1)
  {
    TotalBounds(WaitingCount, s.workers);
    if w.TheWorker? {
      TotalAfterChange(WaitingCount, t.workers, w.id, Woken);
    } else if w.Nobody? {
      NobodyCounts(s.workers);
    }
  }

  lemma {:induction false} NobodyCounts(ws: seq<Worker>)
    requires forall i :: 0 <= i < |ws| ==> !ws[i].Waiting?
    ensures Total(WaitingCount, ws) == 0
  {
    if ws != [] {
      NobodyCounts(ws[1..]);
    }
  }

  lemma DispatchCounts(c: Config, s: State, id: nat, w: Waiter)
    requires CountInv(c, s) && id < |s.workers| && !s.workers[id].Waiting? && CanDispatch(s, w)
    ensures CountInv(c, WakeUp(Dispatch(c, s, id), w))
  {
    var t := Dispatch(c, s, id);
    TotalAfterChange(WaitingCount, s.workers, id, Grading(s.queue[0]));
    SignalCounts(s, w, t);
  }

  lemma AcceptCounts(c: Config, s: State, w: Waiter)
    requires CountInv(c, s) && s.master.Awake? && s.todo != [] && |s.queue| < c.capacity && CanWake(s, w)
    ensures CountInv(c, WakeUp(Accept(c, s), w))
  {
    SignalCounts(s, w, Accept(c, s));
  }

  /** The invariants hold after every step, spurious wakeups included. */
  lemma StepCounts(c: Config, s: State, a: Action)
    requires CountInv(c, s) && Enabled(c, s, a)
    ensures CountInv(c, Next(c, s, a))
  {
    TotalBounds(WaitingCount, s.workers);
    match a
    case MasterSection(w) =>
      if |s.queue| < c.capacity {
        AcceptCounts(c, s, w);
      }
    case WorkerSection(id, w) =>
      if s.noReq > 0 {
        DispatchCounts(c, s, id, w);
      } else {
        TotalAfterChange(WaitingCount, s.workers, id, Waiting);
        TotalBounds(WaitingCount, s.workers[id := Waiting]);
      }
    case WorkerResumes(id, w) =>
      if c.variant.Version3? && s.noReq > 0 {
        DispatchCounts(c, s, id, w);
      } else {
        TotalAfterChange(WaitingCount, s.workers, id, Idle);
      }
    case GraderDone(id) => TotalAfterChange(WaitingCount, s.workers, id, Idle);
    case SpuriousWorker(id) => TotalAfterChange(WaitingCount, s.workers, id, Woken);
    case SpuriousMaster =>
  }

  lemma {:induction false} RunCounts(c: Config, s: State, run: seq<Action>)
    requires CountInv(c, s) && IsRun(c, s, run)
    ensures CountInv(c, After(c, s, run))
    decreases |run|
  {
    if run != [] {
      StepCounts(c, s, run[0]);
      RunCounts(c, Next(c, s, run[0]), run[1..]);
    }
  }

  /**
   In every reachable state the counter equals the queue's length and the queue fits, so the
   guards let through exactly the inserts and deletes that the ring can serve.
   */
  lemma CounterMatchesQueue(c: Config, todo: seq<int>, run: seq<Action>)
    requires IsRun(c, Init(c, todo), run)
    ensures var s := After(c, Init(c, todo), run);
            s.noReq == |s.queue| <= c.capacity
  {
    InitCounts(c, todo);
    RunCounts(c, Init(c, todo), run);
  }

  /** No lost wakeup: at least min(N, no_req) workers are outside the wait set. */
  lemma NoLostWorkerWakeup(c: Config, todo: seq<int>, run: seq<Action>)
    requires IsRun(c, Init(c, todo), run)
    ensures var s := After(c, Init(c, todo), run);
            c.workers - WaitingWorkers(s) >= if s.noReq < c.workers then s.noReq else c.workers
  {
    InitCounts(c, todo);
    RunCounts(c, Init(c, todo), run);
  }

  /** With at most 2K-1 workers a waiting master always finds more queued tickets than waiting workers. */
  lemma NoStrandedMaster(c: Config, todo: seq<int>, run: seq<Action>)
    requires c.workers <= 2 * c.capacity - 1
    requires IsRun(c, Init(c, todo), run)
    ensures var s := After(c, Init(c, todo), run);
            s.master.Asleep? ==> WaitingWorkers(s) < s.noReq
  {
    InitCounts(c, todo);
    RunCounts(c, Init(c, todo), run);
  }
}
