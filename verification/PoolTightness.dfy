/** The bound on the pool's size is sharp, and what a run that stays below it achieves. */
module PoolTightness {

  import opened Options
  import opened PoolModel
  import opened PoolSafety
  import opened PoolLiveness
  import opened PoolHistory

  /** The run leaves the master asleep with only spurious wakeups left to happen. */
  ghost predicate Strands(c: Config, todo: seq<int>, run: seq<Action>) {
    IsRun(c, Init(c, todo), run) && Stranded(c, After(c, Init(c, todo), run))
  }

  // ---------- A schedule that strands the master ----------

  /** Stage 1: the first n workers find the queue empty and go to sleep. */
  function SleepSchedule(n: nat): seq<Action> {
    if n == 0 then [] else SleepSchedule(n - 1) + [WorkerSection(n - 1, Nobody)]
  }

  ghost predicate FallingAsleep(c: Config, todo: seq<int>, s: State, n: nat) {
    && |s.workers| == c.workers && n <= c.workers
    && (forall i :: 0 <= i < |s.workers| ==> s.workers[i] == if i < n then Waiting else Idle)
    && s.master.Awake? && s.todo == todo && |s.queue| == s.noReq == 0
  }

  lemma {:induction false} AllFallAsleep(c: Config, todo: seq<int>, n: nat)
    requires n <= c.workers
    ensures IsRun(c, Init(c, todo), SleepSchedule(n))
    ensures FallingAsleep(c, todo, After(c, Init(c, todo), SleepSchedule(n)), n)
  {
    if n > 0 {
      AllFallAsleep(c, todo, n - 1);
      RunGrows(c, Init(c, todo), SleepSchedule(n - 1), WorkerSection(n - 1, Nobody));
    }
  }

  /** Stage 2: the master enqueues k tickets, and each signal wakes a worker. */
  function FillSchedule(c: Config, k: nat): seq<Action> {
    if k == 0 then SleepSchedule(c.workers)
    else FillSchedule(c, k - 1) + [MasterSection(TheWorker(k - 1))]
  }

  ghost predicate Filling(c: Config, todo: seq<int>, s: State, k: nat) {
    && |s.workers| == c.workers && k <= c.workers && k <= |todo|
    && (forall i :: 0 <= i < |s.workers| ==> s.workers[i] == if i < k then Woken else Waiting)
    && s.master.Awake? && |s.todo| == |todo| - k && |s.queue| == s.noReq == k
  }

  lemma {:induction false} FillUp(c: Config, todo: seq<int>, k: nat)
    requires k <= c.capacity < |todo| && 2 * c.capacity <= c.workers
    ensures IsRun(c, Init(c, todo), FillSchedule(c, k))
    ensures Filling(c, todo, After(c, Init(c, todo), FillSchedule(c, k)), k)
  {
    if k == 0 {
      AllFallAsleep(c, todo, c.workers);
    } else {
      FillUp(c, todo, k - 1);
      RunGrows(c, Init(c, todo), FillSchedule(c, k - 1), MasterSection(TheWorker(k - 1)));
    }
  }

  /**
   Stage 3: the master sleeps on the full queue. Of the K workers it woke, j serve a ticket
   each, and each of their signals goes to another sleeping worker, which finds nothing to do.
   */
  function TakeSchedule(c: Config, j: nat): seq<Action> {
    if c.variant.Version3? then [WorkerResumes(j, TheWorker(c.capacity + j))]
    else [WorkerResumes(j, Nobody), WorkerSection(j, TheWorker(c.capacity + j))]
  }

  function DrainSchedule(c: Config, j: nat): seq<Action> {
    if j == 0 then FillSchedule(c, c.capacity) + [MasterSection(Nobody)]
    else DrainSchedule(c, j - 1) + TakeSchedule(c, j - 1) + [GraderDone(j - 1)]
  }

  ghost predicate Draining(c: Config, s: State, j: nat) {
    var K := c.capacity;
    && |s.workers| == c.workers && j <= K && 2 * K <= c.workers
    && (forall i :: 0 <= i < |s.workers| ==>
          s.workers[i] == if i < j then Idle else if i < K + j then Woken else Waiting)
    && s.master.Asleep? && |s.queue| == s.noReq == K - j
  }

  /** Worker j has taken a ticket and signalled a worker that will find nothing to do. */
  ghost predicate Serving(c: Config, s: State, j: nat) {
    var K := c.capacity;
    && |s.workers| == c.workers && j < K && 2 * K <= c.workers
    && (forall i :: 0 <= i < |s.workers| && i != j ==>
          s.workers[i] == if i < j then Idle else if i < K + j + 1 then Woken else Waiting)
    && s.workers[j].Grading?
    && s.master.Asleep? && |s.queue| == s.noReq == K - j - 1
  }

  lemma TakeVersion3(c: Config, s: State, j: nat)
    requires c.variant.Version3? && Draining(c, s, j) && j < c.capacity
    ensures IsRun(c, s, TakeSchedule(c, j)) && Serving(c, After(c, s, TakeSchedule(c, j)), j)
  {
    assert IsRun(c, s, []);
    RunGrows(c, s, [], WorkerResumes(j, TheWorker(c.capacity + j)));
  }

  lemma TakeVersion4(c: Config, s: State, j: nat)
    requires c.variant.Version4? && Draining(c, s, j) && j < c.capacity
    ensures IsRun(c, s, TakeSchedule(c, j)) && Serving(c, After(c, s, TakeSchedule(c, j)), j)
  {
    var first := [WorkerResumes(j, Nobody)];
    assert IsRun(c, s, []);
    RunGrows(c, s, [], first[0]);
    RunGrows(c, s, first, WorkerSection(j, TheWorker(c.capacity + j)));
  }

  lemma Finish(c: Config, s: State, j: nat)
    requires Serving(c, s, j)
    ensures Enabled(c, s, GraderDone(j)) && Draining(c, Next(c, s, GraderDone(j)), j + 1)
  {
  }

  lemma {:induction false} Drain(c: Config, todo: seq<int>, j: nat)
    requires j <= c.capacity < |todo| && 2 * c.capacity <= c.workers
    ensures IsRun(c, Init(c, todo), DrainSchedule(c, j))
    ensures Draining(c, After(c, Init(c, todo), DrainSchedule(c, j)), j)
  {
    if j == 0 {
      FillUp(c, todo, c.capacity);
      RunGrows(c, Init(c, todo), FillSchedule(c, c.capacity), MasterSection(Nobody));
    } else {
      Drain(c, todo, j - 1);
      hide Draining, Serving, TakeSchedule;
      var start, before := Init(c, todo), DrainSchedule(c, j - 1);
      if c.variant.Version3? {
        TakeVersion3(c, After(c, start, before), j - 1);
      } else {
        TakeVersion4(c, After(c, start, before), j - 1);
      }
      RunThenRun(c, start, before, TakeSchedule(c, j - 1));
      Finish(c, After(c, start, before + TakeSchedule(c, j - 1)), j - 1);
      RunGrows(c, start, before + TakeSchedule(c, j - 1), GraderDone(j - 1));
    }
  }

  /** While the queue is empty nobody signals, so a sleeping master stays asleep. */
  lemma {:induction false} SleepsOn(c: Config, s: State, run: seq<Action>)
    requires IsRun(c, s, run) && SpuriousSteps(run) == 0
    requires s.master.Asleep? && s.queue == [] && s.noReq == 0
    ensures After(c, s, run).master.Asleep?
    decreases |run|
  {
    if run != [] {
      SleepsOn(c, Next(c, s, run[0]), run[1..]);
    }
  }

  lemma StrandingRun(c: Config, todo: seq<int>) returns (run: seq<Action>)
    requires c.workers >= 2 * c.capacity && |todo| > c.capacity
    ensures Strands(c, todo, run)
  {
    var drained := DrainSchedule(c, c.capacity);
    Drain(c, todo, c.capacity);
    InitCounts(c, todo);
    RunCounts(c, Init(c, todo), drained);
    var s := After(c, Init(c, todo), drained);
    var rest := ComesToRest(c, s);
    SleepsOn(c, s, rest);
    RunThenRun(c, Init(c, todo), drained, rest);
    run := drained + rest;
  }

  // ---------- Nothing else strands it ----------

  /** The master goes to sleep only after a whole queue's worth of tickets. */
  ghost predicate SleepsAfterFilling(c: Config, s: State) {
    s.master.Asleep? ==> |s.accepted| >= c.capacity
  }

  lemma {:induction false} RunSleepsAfterFilling(c: Config, submitted: seq<int>, s: State, run: seq<Action>)
    requires OrderInv(submitted, s) && SleepsAfterFilling(c, s) && IsRun(c, s, run)
    ensures SleepsAfterFilling(c, After(c, s, run))
    decreases |run|
  {
    if run != [] {
      StepOrder(c, submitted, s, run[0]);
      RunSleepsAfterFilling(c, submitted, Next(c, s, run[0]), run[1..]);
    }
  }

  lemma StrandedOnlyWhen(c: Config, todo: seq<int>, run: seq<Action>)
    requires c.workers >= 1 && Strands(c, todo, run)
    ensures c.workers >= 2 * c.capacity && |todo| > c.capacity
  {
    InitCounts(c, todo);
    RunCounts(c, Init(c, todo), run);
    InitOrder(c, todo);
    RunOrder(c, todo, Init(c, todo), run);
    RunSleepsAfterFilling(c, todo, Init(c, todo), run);
    QuietExactly(c, After(c, Init(c, todo), run));
  }

  /**
   The sharp bound. Some run strands the master exactly when the pool has at least twice as
   many workers as the queue has places and there are more submissions than places.
   */
  lemma StrandingExactlyWhen(c: Config, todo: seq<int>)
    requires c.workers >= 1
    ensures (exists run :: Strands(c, todo, run)) <==>
            (c.workers >= 2 * c.capacity && |todo| > c.capacity)
  {
    if c.workers >= 2 * c.capacity && |todo| > c.capacity {
      var run := StrandingRun(c, todo);
      assert Strands(c, todo, run);
    }
    if run :| Strands(c, todo, run) {
      StrandedOnlyWhen(c, todo, run);
    }
  }

  /**
   Total correctness. With 1 <= N <= 2K-1, Version 4 and fresh tickets, every run is bounded,
   can be continued to a state of rest without spurious wakeups, and wherever it comes to
   rest every submitted ticket is graded, in the order of submission.
   */
  lemma EveryTicketGraded(c: Config, todo: seq<int>, run: seq<Action>)
    requires 1 <= c.workers <= 2 * c.capacity - 1 && c.variant.Version4? && Distinct(todo)
    requires IsRun(c, Init(c, todo), run)
    ensures |run| <= 7 * |todo| + c.workers + 1 + 3 * SpuriousSteps(run)
    ensures exists more :: IsRun(c, After(c, Init(c, todo), run), more) && SpuriousSteps(more) == 0
              && Quiet(c, After(c, After(c, Init(c, todo), run), more))
    ensures var s := After(c, Init(c, todo), run);
            Quiet(c, s) ==>
              && s.dispatched == todo && s.queue == [] && s.master.Awake? && AllWorkersWait(s)
              && (forall t :: t in todo <==> t in s.status)
              && (forall t :: t in todo ==> s.status[t] == 2)
  {
    var s := After(c, Init(c, todo), run);
    RunLengthBound(c, todo, run);
    InitCounts(c, todo);
    RunCounts(c, Init(c, todo), run);
    var more := ComesToRest(c, s);
    if Quiet(c, s) {
      RestsOnlyWhenFinished(c, todo, run);
      TicketsConserved(c, todo, run);
      assert s.dispatched == todo;
      assert forall t :: !Held(s, t);
    }
  }
}
