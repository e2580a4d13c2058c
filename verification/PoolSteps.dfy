/**
 What a single step does, told in terms of the threads, the wait set and the queue: which
 threads can go on, who enters and leaves the wait set, and who dequeues what.
 */
module PoolSteps {

  import opened PoolModel
  import opened PoolSafety
  import opened PoolHistory
  import opened PoolLiveness

  /** The thread is in the wait set of the condition variable. */
  ghost predicate Waits(s: State, t: Waiter) {
    match t
    case Nobody => false
    case TheMaster => s.master.Asleep?
    case TheWorker(id) => id < |s.workers| && s.workers[id].Waiting?
  }

  /** The thread that takes the step. */
  function Actor(a: Action): Waiter {
    match a
    case MasterSection(_) => TheMaster
    case WorkerSection(id, _) => TheWorker(id)
    case WorkerResumes(id, _) => TheWorker(id)
    case GraderDone(id) => TheWorker(id)
    case SpuriousWorker(id) => TheWorker(id)
    case SpuriousMaster => TheMaster
  }

  /** The thread that a signal of the step releases. */
  function Released(a: Action): Waiter {
    match a
    case MasterSection(w) => w
    case WorkerSection(_, w) => w
    case WorkerResumes(_, w) => w
    case _ => Nobody
  }

  /** The step puts a ticket into the queue. */
  predicate Enqueues(c: Config, s: State, a: Action) {
    a.MasterSection? && |s.queue| < c.capacity
  }

  /**
   The step takes a ticket out: a worker has entered the section, or in Version 3 come back
   from its wait, and there is one.
   */
  predicate Dequeues(c: Config, s: State, a: Action) {
    s.queue != [] && (a.WorkerSection? || (a.WorkerResumes? && c.variant.Version3?))
  }

  /** The step puts its own thread to sleep: the master on a full queue, a worker on an empty one. */
  predicate FallsAsleep(c: Config, s: State, a: Action) {
    (a.MasterSection? && |s.queue| == c.capacity) || (a.WorkerSection? && s.queue == [])
  }

  // ---------- Who can go on ----------

  /** A signal can release exactly the waiting threads, whichever they are, and nobody exactly if none waits. */
  lemma SignalChoice(s: State, w: Waiter)
    ensures CanWake(s, w) <==> Waits(s, w) || (w == Nobody && forall t :: !Waits(s, t))
  {
    assert Waits(s, TheMaster) <==> s.master.Asleep?;
    assert forall i: nat :: i < |s.workers| ==> (Waits(s, TheWorker(i)) <==> s.workers[i].Waiting?);
  }

  ghost predicate CanStep(c: Config, s: State, t: Waiter, spurious: bool) {
    exists a :: Enabled(c, s, a) && Actor(a) == t && Spurious(a) == spurious
  }

  /**
   The mutex and the condition variable are all that holds a thread back. A worker can go on
   by itself exactly if it does not wait, the master if it has something left to submit too;
   and exactly a waiting thread can wake up spuriously.
   */
  lemma WhoCanStep(c: Config, s: State, t: Waiter)
    requires CountInv(c, s) && t != Nobody && (t.TheWorker? ==> t.id < |s.workers|)
    ensures CanStep(c, s, t, true) <==> Waits(s, t)
    ensures CanStep(c, s, t, false) <==> !Waits(s, t) && (t == TheMaster ==> s.todo != [])
  {
    var w := SomeChoice(s);
    if t == TheMaster {
      var a := MasterSection(if |s.queue| == c.capacity then Nobody else w);
      assert Enabled(c, s, a) <==> !Waits(s, t) && s.todo != [];
      assert Enabled(c, s, SpuriousMaster) <==> Waits(s, t);
    } else {
      var id := t.id;
      var enter := WorkerSection(id, if s.noReq > 0 then w else Nobody);
      var resume := WorkerResumes(id, if c.variant.Version3? && s.noReq > 0 then w else Nobody);
      assert Enabled(c, s, enter) || Enabled(c, s, resume) || Enabled(c, s, GraderDone(id)) <==> !Waits(s, t);
      assert Enabled(c, s, SpuriousWorker(id)) <==> Waits(s, t);
    }
  }

  // ---------- The wait set ----------

  /**
   A thread is in the wait set after a step exactly if it fell asleep in it, or waited before
   and was neither released by its signal nor woken spuriously. A worker that left the wait
   set has yet to get the mutex back.
   */
  lemma WaitSetAfterStep(c: Config, s: State, a: Action, t: Waiter)
    requires CountInv(c, s) && Enabled(c, s, a)
    ensures Waits(Next(c, s, a), t) <==>
            (FallsAsleep(c, s, a) && t == Actor(a)) ||
            (Waits(s, t) && t != Released(a) && !(Spurious(a) && t == Actor(a)))
    ensures t.TheWorker? && Waits(s, t) && !Waits(Next(c, s, a), t) ==> Next(c, s, a).workers[t.id] == Woken
  {
  }

  ghost function Sleepers(s: State): nat {
    WaitingWorkers(s) + if s.master.Asleep? then 1 else 0
  }

  /** How many threads the step adds to the wait set. */
  ghost function Gained(c: Config, s: State, a: Action): int {
    (if FallsAsleep(c, s, a) then 1 else 0)
    - (if Released(a) != Nobody then 1 else 0)
    - (if Spurious(a) then 1 else 0)
  }

  lemma SleepersAfterStep(c: Config, s: State, a: Action)
    requires CountInv(c, s) && Enabled(c, s, a)
    ensures Sleepers(Next(c, s, a)) == Sleepers(s) + Gained(c, s, a)
  {
    match a
    case MasterSection(w) =>
      if Enqueues(c, s, a) {
        SignalWakesOne(Accept(c, s), w);
      }
    case WorkerSection(id, w) =>
      if s.noReq > 0 {
        TotalAfterChange(WaitingCount, s.workers, id, Grading(s.queue[0]));
        SignalWakesOne(Dispatch(c, s, id), w);
      } else {
        TotalAfterChange(WaitingCount, s.workers, id, Waiting);
      }
    case WorkerResumes(id, w) =>
      if Dequeues(c, s, a) {
        TotalAfterChange(WaitingCount, s.workers, id, Grading(s.queue[0]));
        SignalWakesOne(Dispatch(c, s, id), w);
      } else {
        TotalAfterChange(WaitingCount, s.workers, id, Idle);
      }
    case GraderDone(id) => TotalAfterChange(WaitingCount, s.workers, id, Idle);
    case SpuriousWorker(id) => TotalAfterChange(WaitingCount, s.workers, id, Woken);
    case SpuriousMaster =>
  }

  lemma SignalWakesOne(s: State, w: Waiter)
    requires w == Nobody || Waits(s, w)
    ensures Sleepers(WakeUp(s, w)) == Sleepers(s) - if w != Nobody then 1 else 0
  {
    if w.TheWorker? {
      TotalAfterChange(WaitingCount, s.workers, w.id, Woken);
    }
  }

  /** Of a run, what each step adds to the wait set. */
  ghost function GainedIn(c: Config, s: State, run: seq<Action>): int
    requires IsRun(c, s, run)
    decreases |run|
  {
    if run == [] then 0 else Gained(c, s, run[0]) + GainedIn(c, Next(c, s, run[0]), run[1..])
  }

  lemma {:induction false} SleepersAfterRun(c: Config, s: State, run: seq<Action>)
    requires CountInv(c, s) && IsRun(c, s, run)
    ensures Sleepers(After(c, s, run)) == Sleepers(s) + GainedIn(c, s, run)
    decreases |run|
  {
    if run != [] {
      SleepersAfterStep(c, s, run[0]);
      StepCounts(c, s, run[0]);
      SleepersAfterRun(c, Next(c, s, run[0]), run[1..]);
    }
  }

  /** In every run as many threads wait as fell asleep and were not released or woken spuriously since. */
  lemma WaitersConserved(c: Config, todo: seq<int>, run: seq<Action>)
    requires IsRun(c, Init(c, todo), run)
    ensures Sleepers(After(c, Init(c, todo), run)) == GainedIn(c, Init(c, todo), run)
  {
    InitCounts(c, todo);
    SleepersAfterRun(c, Init(c, todo), run);
  }

  // ---------- The queue and the workers ----------

  /** A step enqueues the next submission, dequeues the oldest ticket, or leaves the tickets alone. */
  lemma TicketsAfterStep(c: Config, s: State, a: Action)
    requires CountInv(c, s) && Enabled(c, s, a)
    ensures var n := Next(c, s, a);
            if Enqueues(c, s, a) then
              n.queue == s.queue + [s.todo[0]] && n.todo == s.todo[1..] && n.dispatched == s.dispatched
            else if Dequeues(c, s, a) then
              n.queue == s.queue[1..] && n.todo == s.todo && n.dispatched == s.dispatched + [s.queue[0]]
            else n.queue == s.queue && n.todo == s.todo && n.dispatched == s.dispatched
  {
  }

  /**
   Where the workers are after a step: one that dequeued has the ticket it took, one that fell
   asleep waits, and any other whose step it was is free again or has left the wait set. The
   rest stay where they were, but for the one that was released.
   */
  lemma WorkersAfterStep(c: Config, s: State, a: Action, id: nat)
    requires CountInv(c, s) && Enabled(c, s, a) && id < |s.workers|
    ensures var n := Next(c, s, a);
            && |n.workers| == |s.workers|
            && n.workers[id] ==
               if Actor(a) == TheWorker(id) then
                 if Dequeues(c, s, a) then Grading(s.queue[0])
                 else if FallsAsleep(c, s, a) then Waiting
                 else if Spurious(a) then Woken
                 else Idle
               else if Released(a) == TheWorker(id) then Woken
               else s.workers[id]
  {
  }

  /**
   The difference between the two worker loops, in any run. A worker back from its wait that
   sees a positive counter dequeues exactly one ticket in the same section in Version 3,
   whatever the other threads do; in Version 4 it never dequeues, and starts over.
   */
  lemma ReturnFromWait(c: Config, todo: seq<int>, run: seq<Action>, id: nat, w: Waiter)
    requires IsRun(c, Init(c, todo), run)
    requires Enabled(c, After(c, Init(c, todo), run), WorkerResumes(id, w))
    ensures var s := After(c, Init(c, todo), run);
            var again := run + [WorkerResumes(id, w)];
            && IsRun(c, Init(c, todo), again)
            && var t := After(c, Init(c, todo), again);
            if c.variant.Version3? && s.noReq > 0 then
              && s.queue != [] && t.dispatched == s.dispatched + [s.queue[0]] && t.queue == s.queue[1..]
              && t.noReq == s.noReq - 1
              && id < |t.workers| && t.workers[id] == Grading(s.queue[0])
            else t == s.(workers := s.workers[id := Idle])
  {
    var s := After(c, Init(c, todo), run);
    InitCounts(c, todo);
    RunCounts(c, Init(c, todo), run);
    RunGrows(c, Init(c, todo), run, WorkerResumes(id, w));
    TicketsAfterStep(c, s, WorkerResumes(id, w));
    WorkersAfterStep(c, s, WorkerResumes(id, w), id);
  }

  /** How many steps of a run found a ticket to dequeue. */
  ghost function DequeuesIn(c: Config, s: State, run: seq<Action>): nat
    requires IsRun(c, s, run)
    decreases |run|
  {
    if run == [] then 0
    else (if Dequeues(c, s, run[0]) then 1 else 0) + DequeuesIn(c, Next(c, s, run[0]), run[1..])
  }

  /** How many steps of a run found room to enqueue a ticket. */
  ghost function EnqueuesIn(c: Config, s: State, run: seq<Action>): nat
    requires IsRun(c, s, run)
    decreases |run|
  {
    if run == [] then 0
    else (if Enqueues(c, s, run[0]) then 1 else 0) + EnqueuesIn(c, Next(c, s, run[0]), run[1..])
  }

  lemma {:induction false} TicketsAfterRun(c: Config, s: State, run: seq<Action>)
    requires CountInv(c, s) && IsRun(c, s, run)
    ensures |After(c, s, run).dispatched| == |s.dispatched| + DequeuesIn(c, s, run)
    ensures |After(c, s, run).todo| == |s.todo| - EnqueuesIn(c, s, run)
    decreases |run|
  {
    hide Next, Enabled;
    if run != [] {
      TicketsAfterStep(c, s, run[0]);
      EnqueuesNeedsTodo(c, s, run[0]);
      StepCounts(c, s, run[0]);
      TicketsAfterRun(c, Next(c, s, run[0]), run[1..]);
    }
  }

  lemma EnqueuesNeedsTodo(c: Config, s: State, a: Action)
    requires Enabled(c, s, a)
    ensures Enqueues(c, s, a) ==> s.todo != []
  {
  }

  /**
   Every section that finds a ticket dequeues one and every master's section that finds room
   enqueues one: in any run these steps and the tickets dispatched and submitted are equally
   many, and the tickets are the first ones.
   */
  lemma SectionsCounted(c: Config, todo: seq<int>, run: seq<Action>)
    requires IsRun(c, Init(c, todo), run)
    ensures var s := After(c, Init(c, todo), run);
            var taken, put := DequeuesIn(c, Init(c, todo), run), EnqueuesIn(c, Init(c, todo), run);
            && taken <= put <= |todo| && s.dispatched == todo[..taken]
            && s.queue == todo[taken..put] && s.todo == todo[put..]
  {
    InitCounts(c, todo);
    TicketsAfterRun(c, Init(c, todo), run);
    InitOrder(c, todo);
    RunOrder(c, todo, Init(c, todo), run);
  }
}
