/**
 The Version 4 scheduler on the heap: the ring, the hash map and the request counter, changed
 by the critical sections as they stand in the code. Every section is one step of the
 protocol, and every step of the protocol is one that a section can take, so the heap runs
 exactly as the protocol does.

 The mutex makes a section atomic. A thread's place in its code (`threads`) and the
 submissions still to come (`todo`) are part of the state.
 */
module Scheduler {

  import opened Options
  import opened PoolModel
  import opened PoolSafety
  import opened PoolSteps
  import opened PoolHistory
  import opened PoolLiveness
  import opened PoolTightness
  import opened PoolThreads
  import opened RingQueue
  import opened ChainedMap
  import opened HashTable

  datatype Reply = InQueue(position: Option<nat>) | Processing | Finished | NotFound

  class Server {
    const ring: Ring
    const myMap: HashMap
    const threads: Threads
    var noReq: int
    var todo: seq<int>
    const config: Config
    ghost const submitted: seq<int>
    ghost var accepted: seq<int>
    ghost var dispatched: seq<int>
    ghost var run: seq<Action>

    ghost predicate Valid()
      reads this, ring, ring.queue, myMap, myMap.slots, myMap.Repr
    {
      && ring.Valid() && myMap.Valid()
      && config.variant.Version4? && config.capacity == ring.queue.Length - 1
      && (forall t :: t in submitted ==> t >= 0)
    }

    /** The protocol state the heap stands for. */
    ghost function Abs(): State
      requires Valid()
      reads this, threads, ring, ring.queue, myMap, myMap.slots, myMap.Repr
    {
      State(threads.workers, threads.master, todo, ring.Contents(), noReq, Model(myMap.buckets), accepted, dispatched)
    }

    /** The dead slot of the ring holds the ticket dequeued last. */
    ghost predicate DeadCellStale()
      requires Valid()
      reads this, ring, ring.queue, myMap, myMap.slots, myMap.Repr
    {
      ring.DeadCell() == if dispatched == [] then 0 else dispatched[|dispatched| - 1]
    }

    /** The heap is where a run of the protocol from the initial state has led. */
    ghost predicate Sound()
      reads this, threads, ring, ring.queue, myMap, myMap.slots, myMap.Repr
    {
      && Valid() && DeadCellStale() && Distinct(submitted)
      && IsRun(config, Init(config, submitted), run)
      && Abs() == After(config, Init(config, submitted), run)
    }

    /** The server before its first request; tickets are fresh and not negative. */
    constructor (size: nat, poolSize: nat, todo: seq<int>)
      requires size > 0
      requires Distinct(todo) && forall t :: t in todo ==> t >= 0
      ensures Sound() && config == Config(size - 1, poolSize, Version4) && submitted == todo && run == []
      ensures fresh(ring) && fresh(ring.queue) && fresh(threads)
      ensures fresh(myMap) && fresh(myMap.slots) && fresh(myMap.Repr)
    {
      var r := new Ring(size);
      var m := new HashMap();
      var t := new Threads(poolSize);
      ring, myMap, threads, noReq := r, m, t, 0;
      config, submitted := Config(size - 1, poolSize, Version4), todo;
      this.todo, accepted, dispatched, run := todo, [], [], [];
      new;
      ModelOfEmpty(m.buckets);
    }

    /** What the master does once there is room: thread_handler.c, lines 122 to 124. */
    method Enqueue()
      requires Valid() && todo != [] && todo[0] >= 0 && |ring.Contents()| < config.capacity
      modifies this`noReq, this`todo, this`accepted, ring, ring.queue, myMap, myMap.slots
      ensures Valid() && fresh(myMap.Repr - old(myMap.Repr)) && (old(DeadCellStale()) ==> DeadCellStale())
      ensures Abs() == Accept(config, old(Abs()))
    {
      hide Model, WellHashed;
      var ticket := todo[0];
      ring.Insert(ticket);
      ModelAfterInsert(myMap.buckets, ticket, 0);
      myMap.Insert(ticket, 0);
      noReq := noReq + 1;
      todo, accepted := todo[1..], accepted + [ticket];
    }

    /** What a worker does with a ticket to take: thread_handler.c, lines 35 to 38. */
    method Dequeue(id: nat)
      requires Valid() && ring.Contents() != [] && ring.Contents()[0] >= 0 && id < |threads.workers|
      modifies this`noReq, this`dispatched, threads, ring, myMap`buckets, myMap.Repr`status
      ensures Valid() && myMap.Repr == old(myMap.Repr) && DeadCellStale()
      ensures Abs() == Dispatch(config, old(Abs()), id)
    {
      hide Model, WellHashed;
      var deleted := ring.Delete();
      var ticket := deleted.value;
      ModelAfterUpdate(myMap.buckets, ticket, 1);
      var missing := myMap.UpdateStatus(ticket, 1);
      noReq := noReq - 1;
      threads.workers, dispatched := threads.workers[id := Grading(ticket)], dispatched + [ticket];
    }

    /** The status write that ends grading: thread_handler.c, line 107. */
    method MarkDone(id: nat) returns (missing: int)
      requires Valid() && id < |threads.workers|
      requires threads.workers[id].Grading? && threads.workers[id].ticket >= 0
      modifies threads, myMap`buckets, myMap.Repr`status
      ensures Valid() && myMap.Repr == old(myMap.Repr) && (old(DeadCellStale()) ==> DeadCellStale())
      ensures Abs() == Next(config, old(Abs()), GraderDone(id))
      ensures missing == if old(threads.workers)[id].ticket in old(Abs()).status then 0 else 1
    {
      var ticket := threads.workers[id].ticket;
      ModelAfterUpdate(myMap.buckets, ticket, 2);
      ModelIsLookup(myMap.buckets, ticket);
      missing := myMap.UpdateStatus(ticket, 2);
      threads.workers := threads.workers[id := Idle];
    }

    /** Dequeuing itself does not change who waits. */
    lemma SameWaiters(before: State, id: nat, w: Waiter)
      requires id < |before.workers| && !before.workers[id].Waiting? && before.queue != []
      requires CanWake(before, w)
      ensures CanWake(Dispatch(config, before, id), w)
    {
    }

    /** Records that the heap has just taken step `a`. */
    ghost method Record(before: State, a: Action)
      requires Valid() && DeadCellStale() && Distinct(submitted)
      requires IsRun(config, Init(config, submitted), run) && before == After(config, Init(config, submitted), run)
      requires Enabled(config, before, a) && Abs() == Next(config, before, a)
      modifies this`run
      ensures Sound() && run == old(run) + [a] && Abs() == old(Abs())
    {
      RunGrows(config, Init(config, submitted), run, a);
      run := run + [a];
    }

    /**
     One pass of masterfunction under the mutex: it goes to sleep on a full ring, and
     otherwise enqueues the ticket, binds it to status 0 and signals. `woken` is the thread
     that the system lets the signal release, Nobody if there is no signal.
     */
    method MasterPass(woken: Waiter)
      requires Sound() && Enabled(config, Abs(), MasterSection(woken))
      modifies this, threads, ring, ring.queue, myMap, myMap.slots
      ensures Sound() && fresh(myMap.Repr - old(myMap.Repr))
      ensures Abs() == Next(config, old(Abs()), MasterSection(woken)) && run == old(run) + [MasterSection(woken)]
    {
      ghost var before := Abs();
      TicketsSubmitted(config, submitted, run, 0);
      FullExactly(ring.front, ring.rear, ring.queue[..]);
      if (ring.rear + 1) % ring.queue.Length == ring.front {
        threads.master := Asleep;
      } else {
        Enqueue();
        threads.Signal(woken);
      }
      Record(before, MasterSection(woken));
    }

    /** What a worker's next section will do with the queue and with the worker. */
    lemma SectionFacts(id: nat, woken: Waiter)
      requires Sound() && Enabled(config, Abs(), WorkerSection(id, woken))
      ensures noReq == |ring.Contents()|
      ensures var s, n := Abs(), Next(config, Abs(), WorkerSection(id, woken));
              if noReq > 0 then
                && n.queue == s.queue[1..] && n.dispatched == s.dispatched + [s.queue[0]]
                && id < |n.workers| && n.workers[id] == Grading(s.queue[0])
              else
                && n.queue == s.queue && n.dispatched == s.dispatched
                && id < |n.workers| && n.workers[id] == Waiting
    {
      InitCounts(config, submitted);
      RunCounts(config, Init(config, submitted), run);
      TicketsAfterStep(config, Abs(), WorkerSection(id, woken));
      WorkersAfterStep(config, Abs(), WorkerSection(id, woken), id);
    }

    /** One pass of a worker's loop under the mutex. */
    method WorkerPass(id: nat, woken: Waiter)
      requires Sound() && Enabled(config, Abs(), WorkerSection(id, woken))
      modifies this, threads, ring, myMap`buckets, myMap.Repr`status
      ensures Sound() && myMap.Repr == old(myMap.Repr)
      ensures Abs() == Next(config, old(Abs()), WorkerSection(id, woken))
      ensures run == old(run) + [WorkerSection(id, woken)]
      ensures old(noReq) > 0 ==>
                && old(ring.Contents()) != [] && ring.Contents() == old(ring.Contents())[1..]
                && dispatched == old(dispatched) + [old(ring.Contents())[0]]
                && id < |threads.workers| && threads.workers[id] == Grading(old(ring.Contents())[0])
      ensures old(noReq) == 0 ==>
                && ring.Contents() == old(ring.Contents()) && dispatched == old(dispatched)
                && id < |threads.workers| && threads.workers[id] == Waiting
    {
      ghost var before := Abs();
      SectionFacts(id, woken);
      TicketsSubmitted(config, submitted, run, id);
      if noReq == 0 {
        threads.workers := threads.workers[id := Waiting];
      } else if noReq > 0 {
        SameWaiters(before, id, woken);
        Dequeue(id);
        threads.Signal(woken);
      }
      Record(before, WorkerSection(id, woken));
    }

    /** A worker that got the mutex back in pthread_cond_wait leaves the section and starts over. */
    method Resume(id: nat)
      requires Sound() && Enabled(config, Abs(), WorkerResumes(id, Nobody))
      modifies this`run, threads
      ensures Sound()
      ensures Abs() == Next(config, old(Abs()), WorkerResumes(id, Nobody))
      ensures run == old(run) + [WorkerResumes(id, Nobody)]
      ensures threads.workers == old(threads.workers)[id := Idle] && ring.Contents() == old(ring.Contents())
    {
      ghost var before := Abs();
      threads.workers := threads.workers[id := Idle];
      Record(before, WorkerResumes(id, Nobody));
    }

    lemma HeldTicketKnown(id: nat)
      requires Sound() && id < |threads.workers| && threads.workers[id].Grading?
      ensures threads.workers[id].ticket >= 0 && threads.workers[id].ticket in Abs().status
    {
      TicketsSubmitted(config, submitted, run, id);
      UpdatesFindTheirTicket(config, submitted, run, id);
    }

    /** The last act of grading, outside the mutex; it always finds its ticket. */
    method FinishGrading(id: nat) returns (missing: int)
      requires Sound() && Enabled(config, Abs(), GraderDone(id))
      modifies this`run, threads, myMap`buckets, myMap.Repr`status
      ensures Sound() && myMap.Repr == old(myMap.Repr) && missing == 0
      ensures Abs() == Next(config, old(Abs()), GraderDone(id)) && run == old(run) + [GraderDone(id)]
    {
      ghost var before := Abs();
      HeldTicketKnown(id);
      missing := MarkDone(id);
      Record(before, GraderDone(id));
    }

    /** A thread leaves the wait set without a signal. */
    method WakeSpuriously(a: Action)
      requires Sound() && Spurious(a) && Enabled(config, Abs(), a)
      modifies this`run, threads
      ensures Sound()
      ensures Abs() == Next(config, old(Abs()), a) && run == old(run) + [a]
    {
      ghost var before := Abs();
      if a.SpuriousMaster? {
        threads.master := Awake;
      } else {
        threads.workers := threads.workers[a.id := Woken];
      }
      Record(before, a);
    }

    /** Any step that the protocol allows can be taken. */
    method Take(a: Action)
      requires Sound() && Enabled(config, Abs(), a)
      modifies this, threads, ring, ring.queue, myMap, myMap.slots, myMap.Repr
      ensures Sound() && fresh(myMap.Repr - old(myMap.Repr))
      ensures Abs() == Next(config, old(Abs()), a) && run == old(run) + [a]
    {
      match a {
        case MasterSection(w) => MasterPass(w);
        case WorkerSection(id, w) => WorkerPass(id, w);
        case WorkerResumes(id, _) => Resume(id);
        case GraderDone(id) => var missing := FinishGrading(id);
        case SpuriousWorker(_) => WakeSpuriously(a);
        case SpuriousMaster => WakeSpuriously(a);
      }
    }

    /** Any run of the protocol, from wherever the heap is, can be followed on the heap. */
    method Follow(steps: seq<Action>)
      requires Sound() && IsRun(config, Abs(), steps)
      modifies this, threads, ring, ring.queue, myMap, myMap.slots, myMap.Repr
      ensures Sound() && fresh(myMap.Repr - old(myMap.Repr))
      ensures Abs() == After(config, old(Abs()), steps) && run == old(run) + steps
    {
      hide Next, Enabled, Model, WellHashed, DeadCellStale, Distinct, Init;
      for i := 0 to |steps|
        invariant Sound() && fresh(myMap.Repr - old(myMap.Repr))
        invariant IsRun(config, Abs(), steps[i..])
        invariant After(config, Abs(), steps[i..]) == After(config, old(Abs()), steps)
        invariant run == old(run) + steps[..i]
      {
        assert steps[i..][1..] == steps[i + 1..];
        Take(steps[i]);
      }
    }

    /** What holds on the heap at any time, since it holds after every run. */
    lemma AtAnyTime()
      requires Sound()
      ensures noReq == |ring.Contents()|
      ensures config.workers - WaitingWorkers(Abs()) >= if noReq < config.workers then noReq else config.workers
      ensures config.workers <= 2 * config.capacity - 1 && threads.master.Asleep? ==> WaitingWorkers(Abs()) < noReq
    {
      CounterMatchesQueue(config, submitted, run);
      NoLostWorkerWakeup(config, submitted, run);
      if config.workers <= 2 * config.capacity - 1 {
        NoStrandedMaster(config, submitted, run);
      }
    }

    /** Some thread the system lets run next, other than by a spurious wakeup. */
    method AnyStep() returns (a: Action)
      requires Sound() && !(AllWorkersWait(Abs()) && (threads.master.Asleep? || todo == []))
      ensures Enabled(config, Abs(), a) && !Spurious(a)
    {
      AtAnyTime();
      FullExactly(ring.front, ring.rear, ring.queue[..]);
      var w := threads.AnyWaiter();
      if
      case threads.master.Awake? && todo != [] =>
        a := MasterSection(if (ring.rear + 1) % ring.queue.Length == ring.front then Nobody else w);
      case exists i :: 0 <= i < |threads.workers| && threads.workers[i].Idle? =>
        var i :| 0 <= i < |threads.workers| && threads.workers[i].Idle?;
        a := WorkerSection(i, if noReq > 0 then w else Nobody);
      case exists i :: 0 <= i < |threads.workers| && threads.workers[i].Woken? =>
        var i :| 0 <= i < |threads.workers| && threads.workers[i].Woken?;
        a := WorkerResumes(i, Nobody);
      case exists i :: 0 <= i < |threads.workers| && threads.workers[i].Grading? =>
        var i :| 0 <= i < |threads.workers| && threads.workers[i].Grading?;
        a := GraderDone(i);
    }

    lemma Progress(before: State, a: Action)
      requires Sound() && run != [] && run[|run| - 1] == a
      requires IsRun(config, Init(config, submitted), run[..|run| - 1])
      requires before == After(config, Init(config, submitted), run[..|run| - 1])
      requires Enabled(config, before, a) && !Spurious(a) && Abs() == Next(config, before, a)
      ensures WorkLeft(Abs()) < WorkLeft(before)
      ensures before.master.Asleep? && before.queue == [] ==> threads.master.Asleep? && ring.Contents() == []
    {
      InitCounts(config, submitted);
      RunCounts(config, Init(config, submitted), run[..|run| - 1]);
      StepWork(config, before, a);
    }

    lemma AllGraded()
      requires Sound() && Quiet(config, Abs()) && 1 <= config.workers <= 2 * config.capacity - 1
      ensures todo == [] && ring.Contents() == [] && dispatched == submitted
      ensures forall t :: t in submitted ==> t in Abs().status && Abs().status[t] == 2
    {
      EveryTicketGraded(config, submitted, run);
      RestsOnlyWhenFinished(config, submitted, run);
    }

    /**
     The server until nothing but a spurious wakeup can happen, whichever threads the system
     lets run and whichever waiters it releases. It always gets there; with 1 <= N <= 2K-1
     every ticket is then graded, in the order of submission. A master asleep on an empty
     queue stays asleep.
     */
    method RunToRest()
      requires Sound()
      modifies this, threads, ring, ring.queue, myMap, myMap.slots, myMap.Repr
      ensures Sound() && fresh(myMap.Repr - old(myMap.Repr))
      ensures Quiet(config, Abs())
      ensures old(threads.master.Asleep? && ring.Contents() == []) ==> threads.master.Asleep?
      ensures 1 <= config.workers <= 2 * config.capacity - 1 ==>
                && todo == [] && ring.Contents() == [] && dispatched == submitted
                && forall t :: t in submitted ==> t in Abs().status && Abs().status[t] == 2
    {
      hide IsRun, After, Next, Enabled, Quiet, Model, WellHashed;
      ghost var sleeping := threads.master.Asleep? && ring.Contents() == [];
      while (threads.master.Awake? && todo != [])
         || exists i :: 0 <= i < |threads.workers| && !threads.workers[i].Waiting?
        invariant Sound() && fresh(myMap.Repr - old(myMap.Repr))
        invariant sleeping ==> threads.master.Asleep? && ring.Contents() == []
        decreases WorkLeft(Abs())
      {
        var a := AnyStep();
        ghost var before, path := Abs(), run;
        Take(a);
        assert run[..|run| - 1] == path;
        Progress(before, a);
      }
      RestIsQuiet(config, Abs());
      if 1 <= config.workers <= 2 * config.capacity - 1 {
        AllGraded();
      }
    }

    /** With N >= 2K and more than K submissions the server can be driven into a stranded master. */
    method Strand()
      requires Sound() && run == []
      requires config.workers >= 2 * config.capacity && |submitted| > config.capacity
      modifies this, threads, ring, ring.queue, myMap, myMap.slots, myMap.Repr
      ensures Sound() && Stranded(config, Abs())
    {
      Drain(config, submitted, config.capacity);
      Follow(DrainSchedule(config, config.capacity));
      RunToRest();
    }

    lemma QueuedNotDispatched(ticket: int)
      requires Sound() && ticket in ring.Contents()
      ensures ticket !in dispatched
    {
      TicketsConserved(config, submitted, run);
      assert ticket in Abs().queue;
    }

    /**
     Every position that the server reports with the scan as written is wrong: for a queued
     ticket it finds nothing once the ring has wrapped, and otherwise says one too many.
     */
    lemma ReportedPositionWrong(ticket: int)
      requires Sound() && ticket in ring.Contents() && ticket > 0
      ensures var p := Position(ring.Contents(), ticket);
              var scan := LinearScan(ring.front, ring.rear, ring.queue[..], ticket);
              p.Some? && scan != p && scan == if ring.rear < ring.front then None else Some(p.value + 1)
    {
      QueuedNotDispatched(ticket);
      hide IsRun, After, Model, WellHashed;
      LinearScanError(ring.front, ring.rear, ring.queue[..], ticket);
    }

    /** What the status read by a query tells. */
    lemma StatusTells(ticket: int)
      requires Sound() && 0 <= Hash(ticket)
      ensures var known := Lookup(myMap.buckets, ticket);
              && (known == Some(0) <==> ticket in ring.Contents())
              && (known == Some(1) <==> Held(Abs(), ticket))
              && (known == Some(2) <==> ticket in dispatched && !Held(Abs(), ticket))
              && (known == None <==> ticket !in accepted)
              && (known == None || known == Some(0) || known == Some(1) || known == Some(2))
              && (Held(Abs(), ticket) ==> ticket !in ring.Contents())
              && (ticket in dispatched ==> ticket !in ring.Contents())
    {
      TicketsConserved(config, submitted, run);
      ModelIsLookup(myMap.buckets, ticket);
      var s := Abs();
      assert ticket in s.accepted <==> ticket in s.dispatched || ticket in s.queue;
    }

    /**
     The other branch of the server's loop: what a client that asks for a ticket is told. The
     status and the position are read at two moments, with the steps `between` happening in
     the meantime. A ticket that a worker held at the first is being processed, one that was
     done has its result, and one never accepted is not found. A ticket found queued is
     reported at the place it has by the second moment, which is its first place less the
     dequeues in between, or at none if it has been dequeued.
     */
    method StatusQuery(ticket: int, between: seq<Action>) returns (reply: Reply)
      requires Sound() && 0 <= Hash(ticket) && IsRun(config, Abs(), between)
      modifies this, threads, ring, ring.queue, myMap, myMap.slots, myMap.Repr
      ensures Sound() && Abs() == After(config, old(Abs()), between)
      ensures reply == Processing <==> Held(old(Abs()), ticket)
      ensures reply == Finished <==> ticket in old(dispatched) && !Held(old(Abs()), ticket)
      ensures reply == NotFound <==> ticket !in old(accepted)
      ensures reply.InQueue? <==> ticket in old(ring.Contents())
      ensures reply.InQueue? ==>
                match reply.position
                case Some(p) =>
                  && 1 <= p <= |ring.Contents()| && ring.Contents()[p - 1] == ticket && ticket !in dispatched
                  && |dispatched| >= |old(dispatched)|
                  && var first := p + |dispatched| - |old(dispatched)|;
                     first <= |old(ring.Contents())| && old(ring.Contents())[first - 1] == ticket
                case None => ticket in dispatched
    {
      hide IsRun, After, Lookup, Held, Model, WellHashed, Position, DeadCellStale, Distinct;
      StatusTells(ticket);
      var status := myMap.KnowStatus(ticket);
      if status == 0 {
        PlaceLater(config, submitted, run, ticket, between);
      }
      Follow(between);
      if status == 0 {
        var position := ring.KnowPosition(ticket);
        reply := InQueue(position);
      } else if status == 1 {
        reply := Processing;
      } else if status == 2 {
        reply := Finished;
      } else {
        reply := NotFound;
      }
    }
  }
}
