/**
 The Version 3 pool on the heap. Its queue carries socket descriptors, which may repeat, and
 a worker woken in its wait goes on to the dequeue in the same critical section.
 */
module DescriptorPool {

  import opened Options
  import opened PoolModel
  import opened PoolSafety
  import opened PoolSteps
  import opened PoolLiveness
  import opened PoolHistory
  import opened PoolTightness
  import opened PoolThreads
  import opened RingQueue

  class Pool {
    const ring: Ring
    const threads: Threads
    var noFd: int
    var todo: seq<int>
    const config: Config
    ghost const submitted: seq<int>
    ghost var accepted: seq<int>
    ghost var dispatched: seq<int>
    ghost var run: seq<Action>

    ghost predicate Valid()
      reads this, ring
    {
      ring.Valid() && config.variant.Version3? && config.capacity == ring.queue.Length - 1
    }

    /** The protocol state the heap stands for. */
    ghost function Abs(): State
      requires Valid()
      reads this, threads, ring, ring.queue
    {
      State(threads.workers, threads.master, todo, ring.Contents(), noFd, map[], accepted, dispatched)
    }

    /** The heap is where a run of the protocol from the initial state has led. */
    ghost predicate Sound()
      reads this, threads, ring, ring.queue
    {
      && Valid()
      && IsRun(config, Init(config, submitted), run)
      && Abs() == After(config, Init(config, submitted), run)
    }

    constructor (size: nat, poolSize: nat, todo: seq<int>)
      requires size > 0
      ensures Sound() && config == Config(size - 1, poolSize, Version3) && submitted == todo && run == []
      ensures fresh(ring) && fresh(ring.queue) && fresh(threads)
    {
      var r := new Ring(size);
      var t := new Threads(poolSize);
      ring, threads, noFd := r, t, 0;
      config, submitted := Config(size - 1, poolSize, Version3), todo;
      this.todo, accepted, dispatched, run := todo, [], [], [];
    }

    /** Records that the heap has just taken step `a`. */
    ghost method Record(before: State, a: Action)
      requires Valid()
      requires IsRun(config, Init(config, submitted), run) && before == After(config, Init(config, submitted), run)
      requires Enabled(config, before, a) && Abs() == Next(config, before, a)
      modifies this`run
      ensures Sound() && run == old(run) + [a] && Abs() == old(Abs())
    {
      RunGrows(config, Init(config, submitted), run, a);
      run := run + [a];
    }

    /** One pass of masterfunction under the mutex; `woken` is the thread a signal releases. */
    method MasterPass(woken: Waiter)
      requires Sound() && Enabled(config, Abs(), MasterSection(woken))
      modifies this, threads, ring, ring.queue
      ensures Sound()
      ensures Abs() == Next(config, old(Abs()), MasterSection(woken)) && run == old(run) + [MasterSection(woken)]
    {
      ghost var before := Abs();
      FullExactly(ring.front, ring.rear, ring.queue[..]);
      if (ring.rear + 1) % ring.queue.Length == ring.front {
        threads.master := Asleep;
      } else {
        var newsockfd := todo[0];
        ring.Insert(newsockfd);
        noFd := noFd + 1;
        todo, accepted := todo[1..], accepted + [newsockfd];
        threads.Signal(woken);
      }
      Record(before, MasterSection(woken));
    }

    /** What the next step of a worker will do with the queue and with the worker. */
    lemma StepFacts(a: Action, id: nat)
      requires Sound() && Enabled(config, Abs(), a) && id < |threads.workers|
      requires a.WorkerSection? || a.WorkerResumes?
      requires Actor(a) == TheWorker(id)
      ensures noFd == |ring.Contents()|
      ensures var s, n := Abs(), Next(config, Abs(), a);
              if noFd > 0 then
                && n.queue == s.queue[1..] && n.dispatched == s.dispatched + [s.queue[0]]
                && id < |n.workers| && n.workers[id] == Grading(s.queue[0])
              else
                && n.queue == s.queue && n.dispatched == s.dispatched
                && id < |n.workers| && n.workers[id] == if a.WorkerSection? then Waiting else Idle
    {
      InitCounts(config, submitted);
      RunCounts(config, Init(config, submitted), run);
      TicketsAfterStep(config, Abs(), a);
      WorkersAfterStep(config, Abs(), a, id);
    }

    /** The second conditional of the worker's section. */
    method Dequeue(id: nat, woken: Waiter)
      requires Valid() && id < |threads.workers| && !threads.workers[id].Waiting?
      requires CanDispatch(Abs(), woken)
      modifies this`noFd, this`dispatched, threads, ring
      ensures Valid() && Abs() == WakeUp(Dispatch(config, old(Abs()), id), woken)
    {
      var deleted := ring.Delete();
      noFd := noFd - 1;
      threads.workers, dispatched := threads.workers[id := Grading(deleted.value)], dispatched + [deleted.value];
      threads.Signal(woken);
    }

    /** A worker enters the section: it starts to wait, or dequeues at once. */
    method WorkerPass(id: nat, woken: Waiter)
      requires Sound() && Enabled(config, Abs(), WorkerSection(id, woken))
      modifies this, threads, ring
      ensures Sound()
      ensures Abs() == Next(config, old(Abs()), WorkerSection(id, woken))
      ensures run == old(run) + [WorkerSection(id, woken)]
      ensures old(noFd) > 0 ==>
                && old(ring.Contents()) != [] && ring.Contents() == old(ring.Contents())[1..]
                && dispatched == old(dispatched) + [old(ring.Contents())[0]]
                && id < |threads.workers| && threads.workers[id] == Grading(old(ring.Contents())[0])
      ensures old(noFd) == 0 ==>
                && ring.Contents() == old(ring.Contents()) && dispatched == old(dispatched)
                && id < |threads.workers| && threads.workers[id] == Waiting
    {
      ghost var before := Abs();
      StepFacts(WorkerSection(id, woken), id);
      if noFd == 0 {
        threads.workers := threads.workers[id := Waiting];
      } else if noFd > 0 {
        Dequeue(id, woken);
      }
      Record(before, WorkerSection(id, woken));
    }

    /**
     A worker comes back from its wait with the mutex, and dequeues in the same section if it
     can, whatever the master does.
     */
    method WorkerReturns(id: nat, woken: Waiter)
      requires Sound() && Enabled(config, Abs(), WorkerResumes(id, woken))
      modifies this, threads, ring
      ensures Sound()
      ensures Abs() == Next(config, old(Abs()), WorkerResumes(id, woken))
      ensures run == old(run) + [WorkerResumes(id, woken)]
      ensures old(noFd) > 0 ==>
                && old(ring.Contents()) != [] && ring.Contents() == old(ring.Contents())[1..]
                && dispatched == old(dispatched) + [old(ring.Contents())[0]]
                && id < |threads.workers| && threads.workers[id] == Grading(old(ring.Contents())[0])
      ensures old(noFd) == 0 ==>
                && ring.Contents() == old(ring.Contents()) && dispatched == old(dispatched)
                && id < |threads.workers| && threads.workers[id] == Idle
    {
      ghost var before := Abs();
      StepFacts(WorkerResumes(id, woken), id);
      if noFd > 0 {
        Dequeue(id, woken);
      } else {
        threads.workers := threads.workers[id := Idle];
      }
      Record(before, WorkerResumes(id, woken));
    }

    /** start_function returns. */
    method FinishServing(id: nat)
      requires Sound() && Enabled(config, Abs(), GraderDone(id))
      modifies this`run, threads
      ensures Sound()
      ensures Abs() == Next(config, old(Abs()), GraderDone(id)) && run == old(run) + [GraderDone(id)]
    {
      ghost var before := Abs();
      threads.workers := threads.workers[id := Idle];
      Record(before, GraderDone(id));
    }

    /** A thread leaves the wait set without a signal. */
    method WakeSpuriously(a: Action)
      requires Sound() && Spurious(a) && Enabled(config, Abs(), a)
      modifies this`run, threads
      ensures Sound()
      ensures Abs() == Next(config, old(Abs()), a) && run == old(run) + [a]
    {
      ghost var before := Abs();
      if a.SpuriousMaster? {
        threads.master := Awake;
      } else {
        threads.workers := threads.workers[a.id := Woken];
      }
      Record(before, a);
    }

    /** Any step that the protocol allows can be taken. */
    method Take(a: Action)
      requires Sound() && Enabled(config, Abs(), a)
      modifies this, threads, ring, ring.queue
      ensures Sound()
      ensures Abs() == Next(config, old(Abs()), a) && run == old(run) + [a]
    {
      match a {
        case MasterSection(w) => MasterPass(w);
        case WorkerSection(id, w) => WorkerPass(id, w);
        case WorkerResumes(id, w) => WorkerReturns(id, w);
        case GraderDone(id) => FinishServing(id);
        case SpuriousWorker(_) => WakeSpuriously(a);
        case SpuriousMaster => WakeSpuriously(a);
      }
    }

    /** Any run of the protocol, from wherever the heap is, can be followed on the heap. */
    method Follow(steps: seq<Action>)
      requires Sound() && IsRun(config, Abs(), steps)
      modifies this, threads, ring, ring.queue
      ensures Sound()
      ensures Abs() == After(config, old(Abs()), steps) && run == old(run) + steps
    {
      hide Next, Enabled;
      for i := 0 to |steps|
        invariant Sound()
        invariant IsRun(config, Abs(), steps[i..])
        invariant After(config, Abs(), steps[i..]) == After(config, old(Abs()), steps)
        invariant run == old(run) + steps[..i]
      {
        assert steps[i..][1..] == steps[i + 1..];
        Take(steps[i]);
      }
    }

    /**
     What holds on the heap at any time, since it holds after every run: the counter agrees,
     no wakeup is lost, no master is stranded, and at rest every connection has been handed
     to a worker in the order of arrival.
     */
    lemma AtAnyTime()
      requires Sound()
      ensures noFd == |ring.Contents()|
      ensures config.workers - WaitingWorkers(Abs()) >= if noFd < config.workers then noFd else config.workers
      ensures 1 <= config.workers <= 2 * config.capacity - 1 ==>
                && (threads.master.Asleep? ==> WaitingWorkers(Abs()) < noFd)
                && (Quiet(config, Abs()) ==> todo == [] && ring.Contents() == [] && dispatched == submitted)
    {
      CounterMatchesQueue(config, submitted, run);
      NoLostWorkerWakeup(config, submitted, run);
      if 1 <= config.workers <= 2 * config.capacity - 1 {
        NoStrandedMaster(config, submitted, run);
        if Quiet(config, Abs()) {
          RestsOnlyWhenFinished(config, submitted, run);
          InitOrder(config, submitted);
          RunOrder(config, submitted, Init(config, submitted), run);
        }
      }
    }

    /** With N >= 2K and more than K connections the master can be driven to sleep on an empty queue. */
    method Strand()
      requires Sound() && run == []
      requires config.workers >= 2 * config.capacity && |submitted| > config.capacity
      modifies this, threads, ring, ring.queue
      ensures Sound() && threads.master.Asleep? && ring.Contents() == []
    {
      Drain(config, submitted, config.capacity);
      Follow(DrainSchedule(config, config.capacity));
    }
  }
}
