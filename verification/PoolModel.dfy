/**
 The ticket scheduler as a transition system: one submitting thread (the master), a pool of
 workers, one mutex and one condition variable that both directions share. A step is one
 stretch of code run under the mutex, the status write that ends grading, or a wakeup.

 pthread_cond_wait and pthread_cond_signal follow POSIX.1-2017, System Interfaces: a wait
 enters the wait set and releases the mutex at once, a signal releases a thread of its own
 choosing if any is waiting, and a thread may also wake up spuriously.
 */
module PoolModel {

  datatype Variant = Version3 | Version4

  /** `capacity` is QUEUE_SIZE - 1, the number of tickets that fit. */
  datatype Config = Config(capacity: nat, workers: nat, variant: Variant)

  /**
   Idle is outside the critical section, about to enter it; Woken has left the wait set but
   not yet got the mutex back.
   */
  datatype Worker = Idle | Waiting | Woken | Grading(ticket: int)

  datatype Master = Awake | Asleep

  /** The thread a signal releases. */
  datatype Waiter = Nobody | TheMaster | TheWorker(id: nat)

  /**
   `queue`, `noReq` and `status` are the shared data; `todo` holds the submissions still to
   come; `accepted` and `dispatched` record what was enqueued and dequeued so far.
   */
  datatype State = State(
    workers: seq<Worker>,
    master: Master,
    todo: seq<int>,
    queue: seq<int>,
    noReq: int,
    status: map<int, int>,
    accepted: seq<int>,
    dispatched: seq<int>)

  datatype Action =
    | MasterSection(woken: Waiter)
    | WorkerSection(id: nat, woken: Waiter)
    | WorkerResumes(id: nat, woken: Waiter)
    | GraderDone(id: nat)
    | SpuriousWorker(id: nat)
    | SpuriousMaster

  predicate Spurious(a: Action) {
    a.SpuriousWorker? || a.SpuriousMaster?
  }

  function Init(c: Config, todo: seq<int>): State {
    State(seq(c.workers, _ => Idle), Awake, todo, [], 0, map[], [], [])
  }

  // ---------- Signals ----------

  /** Whom a signal may release: any waiting thread, and nobody only if none waits. */
  predicate CanRelease(workers: seq<Worker>, master: Master, w: Waiter) {
    match w
    case Nobody => master.Awake? && forall i :: 0 <= i < |workers| ==> !workers[i].Waiting?
    case TheMaster => master.Asleep?
    case TheWorker(id) => id < |workers| && workers[id].Waiting?
  }

  predicate CanWake(s: State, w: Waiter) {
    CanRelease(s.workers, s.master, w)
  }

  function ReleaseWorker(workers: seq<Worker>, w: Waiter): seq<Worker> {
    if w.TheWorker? && w.id < |workers| then workers[w.id := Woken] else workers
  }

  function ReleaseMaster(master: Master, w: Waiter): Master {
    if w.TheMaster? then Awake else master
  }

  function WakeUp(s: State, w: Waiter): State {
    s.(workers := ReleaseWorker(s.workers, w), master := ReleaseMaster(s.master, w))
  }

  // ---------- Steps ----------

  /** update_status: a key without a binding is left alone. */
  function WithStatus(status: map<int, int>, ticket: int, value: int): map<int, int> {
    if ticket in status then status[ticket := value] else status
  }

  /** The master enqueues the next submission. */
  function Accept(c: Config, s: State): State
    requires s.todo != []
  {
    var t := s.todo[0];
    s.(todo := s.todo[1..],
       queue := s.queue + [t],
       noReq := s.noReq + 1,
       status := if c.variant.Version4? then s.status[t := 0] else s.status,
       accepted := s.accepted + [t])
  }

  /** A worker dequeues the oldest ticket. */
  function Dispatch(c: Config, s: State, id: nat): State
    requires id < |s.workers| && s.queue != []
  {
    var t := s.queue[0];
    s.(workers := s.workers[id := Grading(t)],
       queue := s.queue[1..],
       noReq := s.noReq - 1,
       status := if c.variant.Version4? then WithStatus(s.status, t, 1) else s.status,
       dispatched := s.dispatched + [t])
  }

  /**
   Dequeuing needs a queue that is not empty: the C function returns no value otherwise, and
   the invariants below show that this never excludes a step.
   */
  predicate CanDispatch(s: State, w: Waiter) {
    s.queue != [] && CanWake(s, w)
  }

  predicate Enabled(c: Config, s: State, a: Action) {
    match a
    case MasterSection(w) =>
      && s.master.Awake? && s.todo != []
      && if |s.queue| == c.capacity then w == Nobody else CanWake(s, w)
    case WorkerSection(id, w) =>
      && id < |s.workers| && s.workers[id].Idle?
      && if s.noReq > 0 then CanDispatch(s, w) else w == Nobody
    case WorkerResumes(id, w) =>
      && id < |s.workers| && s.workers[id].Woken?
      && if c.variant.Version3? && s.noReq > 0 then CanDispatch(s, w) else w == Nobody
    case GraderDone(id) => id < |s.workers| && s.workers[id].Grading?
    case SpuriousWorker(id) => id < |s.workers| && s.workers[id].Waiting?
    case SpuriousMaster => s.master.Asleep?
  }

  function Next(c: Config, s: State, a: Action): State
    requires Enabled(c, s, a)
  {
    match a
    case MasterSection(w) =>
      if |s.queue| == c.capacity then s.(master := Asleep)
      else WakeUp(Accept(c, s), w)
    case WorkerSection(id, w) =>
      if s.noReq > 0 then WakeUp(Dispatch(c, s, id), w)
      else if s.noReq == 0 then s.(workers := s.workers[id := Waiting])
      else s
    case WorkerResumes(id, w) =>
      // Version 3 goes on to the dequeue in the same critical section, Version 4 starts over
      if c.variant.Version3? && s.noReq > 0 then WakeUp(Dispatch(c, s, id), w)
      else s.(workers := s.workers[id := Idle])
    case GraderDone(id) =>
      s.(workers := s.workers[id := Idle],
         status := if c.variant.Version4? then WithStatus(s.status, s.workers[id].ticket, 2) else s.status)
    case SpuriousWorker(id) => s.(workers := s.workers[id := Woken])
    case SpuriousMaster => s.(master := Awake)
  }

  // ---------- Runs ----------

  predicate IsRun(c: Config, s: State, run: seq<Action>)
    decreases |run|
  {
    run == [] || (Enabled(c, s, run[0]) && IsRun(c, Next(c, s, run[0]), run[1..]))
  }

  function After(c: Config, s: State, run: seq<Action>): State
    requires IsRun(c, s, run)
    decreases |run|
  {
    if run == [] then s else After(c, Next(c, s, run[0]), run[1..])
  }

  lemma {:induction false} RunThenRun(c: Config, s: State, first: seq<Action>, second: seq<Action>)
    requires IsRun(c, s, first) && IsRun(c, After(c, s, first), second)
    ensures IsRun(c, s, first + second)
    ensures After(c, s, first + second) == After(c, After(c, s, first), second)
    decreases |first|
  {
    if first == [] {
      assert first + second == second;
    } else {
      assert (first + second)[1..] == first[1..] + second;
      RunThenRun(c, Next(c, s, first[0]), first[1..], second);
    }
  }

  lemma {:induction false} RunSplits(c: Config, s: State, run: seq<Action>, k: nat)
    requires IsRun(c, s, run) && k <= |run|
    ensures IsRun(c, s, run[..k]) && IsRun(c, After(c, s, run[..k]), run[k..])
    ensures After(c, s, run) == After(c, After(c, s, run[..k]), run[k..])
    decreases |run|
  {
    if k > 0 {
      RunSplits(c, Next(c, s, run[0]), run[1..], k - 1);
      assert run[..k][1..] == run[1..][..k - 1];
      assert run[1..][k - 1..] == run[k..];
    } else {
      assert run[0..] == run;
    }
  }

  /** A run can be continued by any step that is possible where it ends. */
  lemma RunGrows(c: Config, s: State, run: seq<Action>, a: Action)
    requires IsRun(c, s, run) && Enabled(c, After(c, s, run), a)
    ensures IsRun(c, s, run + [a]) && After(c, s, run + [a]) == Next(c, After(c, s, run), a)
  {
    assert IsRun(c, Next(c, After(c, s, run), a), [a][1..]);
    RunThenRun(c, s, run, [a]);
  }

  /** Only wakeups without a cause are left to happen. */
  ghost predicate Quiet(c: Config, s: State) {
    forall a :: Enabled(c, s, a) ==> Spurious(a)
  }

  // ---------- Counting workers ----------

  datatype Gauge = WaitingCount | Effort

  function Reading(g: Gauge, w: Worker): nat {
    match g
    case WaitingCount => if w.Waiting? then 1 else 0
    case Effort => match w case Waiting => 0 case Idle => 1 case Woken => 2 case Grading(_) => 2
  }

  function Total(g: Gauge, ws: seq<Worker>): nat {
    if ws == [] then 0 else Reading(g, ws[0]) + Total(g, ws[1..])
  }

  lemma {:induction false} TotalAfterChange(g: Gauge, ws: seq<Worker>, i: nat, w: Worker)
    requires i < |ws|
    ensures Total(g, ws[i := w]) == Total(g, ws) - Reading(g, ws[i]) + Reading(g, w)
  {
    if i == 0 {
      assert ws[0 := w][1..] == ws[1..];
    } else {
      assert ws[i := w][1..] == ws[1..][i - 1 := w];
      TotalAfterChange(g, ws[1..], i - 1, w);
    }
  }

  lemma {:induction false} TotalBounds(g: Gauge, ws: seq<Worker>)
    ensures Total(g, ws) <= (if g.Effort? then 2 else 1) * |ws|
    ensures forall i :: 0 <= i < |ws| ==> Reading(g, ws[i]) <= Total(g, ws)
  {
    if ws != [] {
      TotalBounds(g, ws[1..]);
      forall i | 0 <= i < |ws| ensures Reading(g, ws[i]) <= Total(g, ws) {
        if i > 0 {
          assert ws[i] == ws[1..][i - 1];
        }
      }
    }
  }

  lemma {:induction false} TotalOfUniform(g: Gauge, ws: seq<Worker>, w: Worker)
    requires forall i :: 0 <= i < |ws| ==> ws[i] == w
    ensures Total(g, ws) == Reading(g, w) * |ws|
  {
    if ws != [] {
      TotalOfUniform(g, ws[1..], w);
    }
  }

  /** All workers wait as soon as their number says so. */
  lemma {:induction false} AllWait(ws: seq<Worker>)
    ensures Total(WaitingCount, ws) == |ws| <==> forall i :: 0 <= i < |ws| ==> ws[i].Waiting?
  {
    if ws != [] {
      AllWait(ws[1..]);
      TotalBounds(WaitingCount, ws[1..]);
      if Total(WaitingCount, ws) == |ws| {
        forall i | 0 <= i < |ws| ensures ws[i].Waiting? {
          if i > 0 {
            assert ws[i] == ws[1..][i - 1];
          }
        }
      }
    }
  }

  ghost function WaitingWorkers(s: State): nat {
    Total(WaitingCount, s.workers)
  }
}
