# Verified model of the grading server

The repository is a client and server for automatic grading of programs. Version 4 hands out a
ticket for every submission, queues it, grades it in a pool of worker threads and answers status
queries. This project models that scheduler in Dafny 4.11 and proves what it promises.

- `PoolModel`, `PoolSafety`, `PoolLiveness`, `PoolHistory`, `PoolTightness`, `PoolSteps`: the master and the
  workers as a transition system with one mutex and one condition variable, for any number of
  workers N, any queue capacity K (QUEUE_SIZE - 1) and both worker loops (Versions 3 and 4).
- `PoolRestart`: the pool on a queue that was loaded from a file.
- `PoolThreads`, `Scheduler` (Version 4), `DescriptorPool` (Version 3): the same sections as methods
  on the heap. Each is proved to be the step of the transition system that its caller names, and
  every run can be followed on the heap (`Follow`). So what is proved of all runs holds of the heap,
  and what some run does the heap can do.
- `RingQueue`: the circular queue. `ChainedMap`, `HashTable`: the chained hash map, as values and
  as linked nodes.
- `DecimalText`, `QueueFile`, `MapFile`: saving and loading as text.
- `SharedChains`, `UnlockedWalk`, `FuzzySnapshot`, `Recovery`: the hash map read and saved without
  a lock while other threads change it. `SplitScheduler`: the pool whose status writes, together with
  a saver, are split into single reads and writes of memory.
- `FramedTransfer`: Version 2's size-prefixed transfer.
- `Options`: the optional value and searching a sequence.

`dafny verify dfyconfig.toml` checks everything.

## Premises

- Condition variables follow POSIX.1-2017, System Interfaces, pthread_cond_wait and
  pthread_cond_signal. A signal releases one waiting thread of the system's choosing, if any waits;
  further threads it may release are spurious wakeups, which are always possible.
- Memory is an interleaving of atomic reads and writes. The mutex makes a section atomic; the status
  write that ends grading is atomic in the pool, which `SplitScheduler` proves to be no restriction.
- Submissions are a finite sequence. In Version 4 tickets are not negative and never repeat
  (timestamps in nanoseconds, and a repeated one fails in mkdir and stops the server,
  `version 4/simple-server.c:105-112`). Version 3's descriptors may repeat.
- There is one master (`version 4/simple-server.c:89-158`) and the map starts empty
  (`version 4/simple-server.c:70-73`).
- `UnlockedWalk` and `FuzzySnapshot` take rising statuses and keys inserted once as premises about
  other threads; `SplitScheduler` proves both of the pool's own threads.
- Grading takes some time and ends. What it computes is not modelled.

## Where the code departs from its intent

- The shared condition variable is safe only for small pools. With N workers and K places the
  master can be left asleep on an empty queue exactly when N >= 2K and more than K submissions come.
- `know_position` starts its scan on the dead slot and does not wrap
  (`version 4/queue.c:49-51`). Every position the running server reports is wrong: one too high, or
  nothing once the ring has wrapped (`Server.ReportedPositionWrong`). `Ring.ScanPosition` is the scan
  as written, `Ring.KnowPosition` the repaired one.
- The queue's save and load loops cover front..rear-1 instead of front+1..rear
  (`version 4/fault_tolerance.c:29` and `:46`) and lose the newest ticket. The flag `repaired`
  selects the range.
- Loading the queue does not rebuild `no_req`. With L loaded tickets the pool then behaves exactly like
  one with K - L places. Loaded tickets are still served first and in order, but as many tickets as
  were loaded, the last ones, stay in the queue for good. `main` never calls the loaders, so the
  server as it stands never gets there.
- `loadQueueFromFile` does not check the two positions it reads. It stays inside the array and ends
  exactly if they are equal or both index it.
- Loading the map reverses every chain, so with a key bound twice it changes what a query says.

## Model

| member | source | states |
|---|---|---|
| `PoolSafety.StepCounts` | version 4/thread_handler.c:22-47 | every step, spurious wakeups included, keeps the counter equal to the queue's length, waiting workers plus queued tickets within N once a worker waits, and (N <= 2K-1) a sleeping master outnumbering the waiting workers with queued tickets |
| `PoolSafety.CounterMatchesQueue` | version 4/thread_handler.c:29-38 | in every reachable state `no_req` is the queue's length and at most K; so where a worker sees a positive counter the ring is not empty, and the master never inserts into a full one |
| `PoolSafety.NoLostWorkerWakeup` | Ver3/thread_handler.c:18-30 | in every reachable state at least min(N, `no_req`) workers are outside the wait set, for both worker loops |
| `PoolSafety.NoStrandedMaster` | version 4/thread_handler.c:114-128 | for N <= 2K-1, in every reachable state a waiting master sees more queued tickets than waiting workers, so the queue cannot drain without waking it |
| `PoolLiveness.StepWork` | version 4/thread_handler.c:22-47 | every step that is not a spurious wakeup uses up some of a bounded amount of work, and a spurious one adds at most two |
| `PoolLiveness.RunLengthBound` | version 4/thread_handler.c:22-47 | T submissions and N workers allow at most 7T + N + 1 steps plus three for each spurious wakeup |
| `PoolLiveness.QuietExactly` | version 4/thread_handler.c:28-41 | only spurious wakeups are left exactly when all workers wait on an empty queue and the master sleeps or has nothing left to submit |
| `PoolLiveness.RestsOnlyWhenFinished` | version 4/thread_handler.c:114-128 | for 1 <= N <= 2K-1 a run can come to rest only with nothing to submit, an empty queue, an awake master and all workers waiting |
| `PoolLiveness.ComesToRest` | version 4/thread_handler.c:22-47 | from every state that meets the invariants some continuation without spurious wakeups comes to rest |
| `PoolTightness.StrandingRun` | version 4/thread_handler.c:28-41 | for every K, N >= 2K and more than K submissions there is a run that leaves the master asleep with only spurious wakeups left to happen |
| `PoolTightness.StrandingExactlyWhen` | version 4/thread_handler.c:114-128 | some run strands the master if and only if N >= 2K and there are more than K submissions |
| `PoolTightness.EveryTicketGraded` | version 4/thread_handler.c:22-47 | total correctness for 1 <= N <= 2K-1: every run is bounded, can be continued to rest without spurious wakeups, and at rest every submitted ticket has status 2 and was dispatched in order |
| `PoolRestart.RestartIsSmallerPool` | version 4/fault_tolerance.c:37-51 | on L loaded tickets and a counter at zero the pool has exactly the runs of a fresh pool with K - L places on the loaded and new tickets but the last L, and the two stay in step along each run |
| `PoolRestart.RestartStrandsExactlyWhen` | version 4/fault_tolerance.c:37-51 | after loading L tickets some run strands the master if and only if N >= 2(K-L) and there are more than K - L new submissions |
| `PoolRestart.RestartRests` | version 4/fault_tolerance.c:37-51 | below that bound, at rest as many tickets were dispatched as newly submitted, the loaded ones first, and the last L are left in the queue; so all loaded ones are served if and only if at least L new ones came, and all tickets if and only if none was loaded |
| `PoolRestart.SomeRunServesAllExactlyWhen` | version 4/fault_tolerance.c:37-51 | for 1 <= N <= 2K-1 some run serves every loaded and new ticket if and only if nothing was loaded |
| `PoolThreads.Threads.Signal` | version 4/thread_handler.c:39 | a signal releases the one waiting thread the system has chosen and no other; with nobody waiting it is lost |
| `PoolHistory.DispatchedInOrder` | version 4/thread_handler.c:36-38 | FIFO: in every reachable state the dequeued tickets are a prefix of the submitted ones |
| `PoolHistory.DispatchedOnce` | version 4/thread_handler.c:36-38 | no ticket is dequeued twice |
| `PoolHistory.DispatchedInTurn` | version 4/thread_handler.c:36-38 | a ticket behind m others is returned by exactly the (m+1)-st following dequeue, and m <= K-1 |
| `PoolHistory.PositionCountsDown` | version 4/queue.c:46-61 | over any continuation a queued ticket's position drops by exactly the number of dequeues and vanishes with the p-th, so a reported position p names the dequeue that serves it and never rises |
| `PoolHistory.StepStatus` | version 4/thread_handler.c:33-40 | every step keeps the status map in agreement with the queued, held and finished tickets |
| `PoolHistory.TicketsConserved` | version 4/thread_handler.c:33-40 | accepted tickets are, in order, the dequeued and the queued ones; no two workers hold the same; statuses 0, 1 and 2 mean exactly queued, held and done, and other tickets have none |
| `PoolHistory.UpdatesFindTheirTicket` | version 4/thread_handler.c:37 | both status writes of a worker find their ticket in the map, at status 0 and 1 |
| `PoolHistory.StatusOnlyRises` | version 4/thread_handler.c:107 | along a run a ticket's status never goes down, so later queries never go back |
| `PoolHistory.StatusCounts` | version 4/thread_handler.c:107 | at most N tickets are at status 1, and those at status 0 are as many as are queued, at most K |
| `PoolHistory.NeverInsertedAgain` | version 4/simple-server.c:105-112 | an accepted ticket is not among the submissions still to come, so no update of it can meet a second insertion |
| `PoolHistory.PlaceLater` | version 4/simple-server.c:176-183 | what the place of a ticket that was queued earlier tells: while it has one it stands there and its first place was further back by the dequeues in between, and without one it has been dequeued |
| `PoolSteps.SignalChoice` | version 4/thread_handler.c:39 | a signal can release every waiting thread, master or worker, and goes to nobody exactly if none waits |
| `PoolSteps.WhoCanStep` | version 4/thread_handler.c:22-47 | a worker can go on by itself exactly if it is not in the wait set, the master if it has a submission left too, and exactly a waiting thread can wake up spuriously |
| `PoolSteps.WaitSetAfterStep` | version 4/thread_handler.c:28-41 | a thread enters the wait set only on an empty queue (worker) or a full one (master), leaves it only by being released or woken spuriously, and has then yet to get the mutex back |
| `PoolSteps.WaitersConserved` | version 4/thread_handler.c:28-41 | in every run the number of waiting threads is the number of times one fell asleep less the releases and the spurious wakeups |
| `PoolSteps.WorkersAfterStep` | Ver3/thread_handler.c:18-34 | where every worker is after any step: a dequeuing one holds the oldest ticket, and only the acting and the released worker move |
| `PoolSteps.ReturnFromWait` | Ver3/thread_handler.c:19-30 | in every run a Version 3 worker back from its wait that sees a positive counter dequeues exactly one ticket in the same section, whatever the master does; a Version 4 worker never does |
| `PoolSteps.SectionsCounted` | version 4/thread_handler.c:33-40 | in every run as many tickets are dispatched as sections found one, and as many enqueued as master sections found room; dispatched, queued and coming tickets are the three stretches of the submissions these numbers cut |
| `Scheduler.Server.constructor` | version 4/simple-server.c:65-87 | the server starts where the protocol starts, on an empty ring and an empty map |
| `Scheduler.Server.MasterPass` | version 4/thread_handler.c:114-128 | one pass under the mutex is the step of the protocol in which the given waiter is released, on the ring, the map, the counter and the wait set together |
| `Scheduler.Server.Enqueue` | version 4/thread_handler.c:122-124 | the ring, the map and the counter accept the ticket together, at status 0 |
| `Scheduler.Server.WorkerPass` | version 4/thread_handler.c:24-41 | one pass of a worker's loop under the mutex is the step of the protocol in which the given waiter is released: with a positive counter the oldest ticket leaves the ring and the worker holds it, with a zero one the worker waits |
| `Scheduler.Server.Dequeue` | version 4/thread_handler.c:35-38 | the oldest ticket leaves the ring for the worker, at status 1, and the counter follows |
| `Scheduler.Server.Resume` | version 4/thread_handler.c:31 | a worker that returns from its wait leaves the section without dequeuing, whatever the queue holds, which is a step of the protocol |
| `Scheduler.Server.FinishGrading` | version 4/thread_handler.c:107 | the last status write is a step of the protocol and always finds its ticket |
| `Scheduler.Server.StatusQuery` | version 4/simple-server.c:171-230 | status and position are read at two moments, with any run in between. The reply is being processed exactly if a worker held the ticket at the first, finished exactly if it was done, not found exactly if it was never accepted, and queued exactly if it was in the ring; a reported place is where the ticket stands at the second moment, less by the dequeues in between than its first place, and there is none exactly if it has been dequeued |
| `Scheduler.Server.ReportedPositionWrong` | version 4/queue.c:46-61 | in every reachable state the scan as written gives a wrong position for every queued ticket above zero: nothing once the ring has wrapped, else one too many |
| `Scheduler.Server.WakeSpuriously` | version 4/thread_handler.c:31 | a thread may leave the wait set without a signal, which is a step of the protocol |
| `Scheduler.Server.Take` | version 4/thread_handler.c:22-47 | every step that the protocol allows can be taken on the heap |
| `Scheduler.Server.Follow` | version 4/thread_handler.c:22-47 | every run of the protocol, from any state the heap stands for, can be followed on the heap and leads where the protocol says |
| `Scheduler.Server.RunToRest` | version 4/simple-server.c:89-158 | total correctness on the heap: whichever threads run and whichever waiters are released, the server comes to rest, and with 1 <= N <= 2K-1 every ticket then has status 2 and was dispatched in the order of submission |
| `Scheduler.Server.Strand` | version 4/thread_handler.c:114-128 | with N >= 2K and more than K submissions the server on the heap can be driven into a stranded master |
| `Scheduler.Server.AtAnyTime` | version 4/thread_handler.c:20 | on the heap the counter equals the ring's contents, no worker wakeup is lost and no master is stranded |
| `DescriptorPool.Pool.MasterPass` | Ver3/thread_handler.c:38-51 | one pass of the Version 3 master is one enabled step of the protocol |
| `DescriptorPool.Pool.Dequeue` | Ver3/queue.c:29-41 | the oldest descriptor leaves the ring for the worker, the counter follows, and a waiting thread is released if there is one |
| `DescriptorPool.Pool.WorkerPass` | Ver3/thread_handler.c:18-30 | a worker that enters the section waits on a zero counter and otherwise takes the oldest descriptor, which is one enabled step of the protocol |
| `DescriptorPool.Pool.WorkerReturns` | Ver3/thread_handler.c:21-30 | a worker that returns from its wait to a positive counter takes the oldest descriptor in the same section, whatever the master does, and otherwise becomes idle, which is one enabled step |
| `DescriptorPool.Pool.FinishServing` | Ver3/thread_handler.c:31-34 | a worker that has served its connection becomes idle again, which is one enabled step |
| `DescriptorPool.Pool.Follow` | Ver3/thread_handler.c:14-51 | every run of the protocol can be followed on the Version 3 heap |
| `DescriptorPool.Pool.Strand` | Ver3/thread_handler.c:38-51 | Version 3 too can be driven to a master asleep on an empty queue with N >= 2K and more than K submissions |
| `DescriptorPool.Pool.AtAnyTime` | Ver3/thread_handler.c:10 | on the heap of Version 3 the counter equals the ring's contents, no worker wakeup is lost and no master is stranded, and with 1 <= N <= 2K-1 at rest every connection has been handed to a worker, in the order of arrival |
| `RingQueue.LiveCount` | version 4/queue.c:4-5 | the number of live elements is (rear - front) modulo the array's length |
| `RingQueue.FullExactly` | version 4/thread_handler.c:117 | the master's guard holds exactly when all cells but the dead one are live |
| `RingQueue.Ring.Insert` | version 4/queue.c:9-30 | appends one ticket, or on a full ring restores every position and cell, for any array length |
| `RingQueue.Ring.Delete` | version 4/queue.c:32-44 | removes and returns the oldest ticket; an empty ring yields no value and is unchanged |
| `RingQueue.Ring.KnowPosition` | version 4/queue.c:46-61 | repaired: the one-based place of the ticket in the queue, wrapped or not, or nothing |
| `RingQueue.Ring.ScanPosition` | version 4/queue.c:49-59 | as written: the first match in the unwrapped cells front..rear, counted from one |
| `RingQueue.LinearScanError` | version 4/queue.c:49-59 | exactly how the scan as written is off: first for a ticket still in the dead slot, one too high for any other queued one, nothing after a wrap |
| `RingQueue.LinearScanCorrectExactlyWhen` | version 4/queue.c:49-59 | for every ring and ticket, the exact condition under which the scan as written agrees with the place in the queue |
| `ChainedMap.HashInTableExactlyWhen` | version 4/hashmap.c:8-10 | the truncating remainder indexes the table exactly for keys that are not negative or are multiples of its size |
| `ChainedMap.HashExactlyWhen` | version 4/hashmap.c:8-10 | the hash is the one number that differs from the key by a multiple of the table size, is smaller than it and has no other sign than the key |
| `ChainedMap.BucketsRefinePlainList` | version 4/hashmap.c:45-60 | after any sequence of insertions and updates every bucket is exactly the part of one plain newest-first list that hashes there |
| `ChainedMap.LookupRefinesPlainList` | version 4/hashmap.c:63-78 | so a lookup in the table is a lookup in the plain list, for every key |
| `ChainedMap.ModelAfterInsert` | version 4/hashmap.c:45-60 | as a map, insertion rebinds its key and touches no other |
| `ChainedMap.ModelAfterUpdate` | version 4/hashmap.c:12-27 | as a map, an update rebinds a key that is bound and otherwise changes nothing |
| `HashTable.HashMap.ChainsDisjoint` | version 4/hashmap.c:45-60 | chains of different buckets never share a node |
| `HashTable.HashMap.Insert` | version 4/hashmap.c:45-60 | on the heap: one binding is prepended to the chain of the bucket that `HashExactlyWhen` gives, chains stay acyclic and well hashed, everything else is as before |
| `HashTable.HashMap.UpdateStatus` | version 4/hashmap.c:12-27 | on the heap: the newest binding of the key is overwritten in place, no link changes, and the result tells whether there was one |
| `HashTable.HashMap.KnowStatus` | version 4/hashmap.c:63-78 | the newest status of the key, or -1 if it has none |
| `DecimalText.ScanPrinted` | version 4/fault_tolerance.c:86 | scanning a printed number gives back every integer, of either sign, and stops right behind it |
| `DecimalText.PrintExactlyWhen` | version 4/fault_tolerance.c:27 | the text of a number is the one text that is scanned as it and consists of an optional minus sign and digits without a leading zero |
| `DecimalText.PrintedDigits` | version 4/fault_tolerance.c:27 | one-digit numbers print as their digit, a further decimal place as a further digit behind, and a negative number as a minus sign before its opposite |
| `DecimalText.ScanAnything` | version 4/fault_tolerance.c:86 | a conversion of any input skips white space, takes one sign, succeeds exactly if a digit follows and stops behind the digits |
| `DecimalText.TextDeterminesLines` | version 4/fault_tolerance.c:27-31 | a file of lines without newlines in them has only one list of lines |
| `MapFile.TextRoundTrip` | version 4/fault_tolerance.c:81-92 | one pass of the loader reads back exactly the printed bindings, in order, up to the end of the file |
| `MapFile.FirstPassSuffices` | version 4/fault_tolerance.c:81-92 | however often the outer loop runs, its first pass inserts everything that was saved and the others nothing |
| `MapFile.PassesReadParts` | version 4/fault_tolerance.c:81-92 | a lone sign ends a pass and the next one goes on behind it, so on a file with such signs n passes load the first n stretches between them and no more |
| `MapFile.CutOffFile` | version 4/fault_tolerance.c:81-92 | a saved map cut off anywhere in a line loads every line before the cut; a line cut before the first digit of its status gives no binding, one cut later a binding to the digits left |
| `MapFile.DamagedFile` | version 4/fault_tolerance.c:81-92 | at a character that starts no number every pass stops, and nothing behind it is loaded |
| `MapFile.SavedMapLines` | version 4/fault_tolerance.c:62-68 | a saved map has one line for each binding: its key, one space, its status |
| `MapFile.SaveOrderExactlyWhen` | version 4/fault_tolerance.c:62-68 | the saved order is the one list that goes through the buckets from first to last and within each from the newest binding on |
| `MapFile.SaveMapToFile` | version 4/fault_tolerance.c:55-71 | the file holds the lines of all bindings in the order that `SaveOrderExactlyWhen` determines |
| `MapFile.LoadMapFromFile` | version 4/fault_tolerance.c:74-95 | terminates on every file and inserts exactly the bindings its passes read |
| `MapFile.Reload` | version 4/fault_tolerance.c:55-95 | saving a heap map and loading the text into a new one gives every chain reversed |
| `MapFile.ReloadReverses` | version 4/fault_tolerance.c:55-95 | one save and load reverses every chain and keeps keys in their buckets |
| `MapFile.TwoReloadsRestore` | version 4/fault_tolerance.c:55-95 | two successive reloads restore every chain identically |
| `MapFile.LookupSurvivesExactlyWhen` | version 4/hashmap.c:63-78 | a reload keeps a query's answer if and only if the key's newest and oldest status agree |
| `MapFile.UniqueKeysSurvive` | version 4/hashmap.c:63-78 | with unique keys a reload changes no answer |
| `QueueFile.SaveQueueToFile` | version 4/fault_tolerance.c:20-34 | the file is the text whose lines `SavedQueueLines` gives, for wrapped and unwrapped rings |
| `QueueFile.SavedQueueLines` | version 4/fault_tolerance.c:27-31 | line by line: the two positions with one space between, then as many cells as are live, on around the ring from the dead slot as written or from the oldest live cell |
| `QueueFile.LoadedCells` | version 4/fault_tolerance.c:46-48 | loading stores the printed numbers in consecutive cells, and where the file ends early the cells behind stay as they were |
| `QueueFile.UnreadableCell` | version 4/fault_tolerance.c:46-48 | a number that cannot be read leaves its own cell alone, and the next one goes into the next cell |
| `QueueFile.ShortHeader` | version 4/fault_tolerance.c:44 | an empty header leaves both positions, one number alone sets only the first, and an unreadable first number leaves both |
| `QueueFile.LoadQueueFromFile` | version 4/fault_tolerance.c:37-51 | the positions of the file are taken over and its numbers stored in the chosen range; a number that cannot be read leaves its variable or cell as it was; two equal positions change no cell, and positions that index nothing leave an unusable ring |
| `QueueFile.SafePositionsExactlyWhen` | version 4/fault_tolerance.c:46-48 | with C's remainder the loader's loop ends without leaving the array if and only if the two positions are equal or both index it |
| `QueueFile.Reload` | version 4/fault_tolerance.c:20-51 | saving one heap ring and loading it over another: the positions come back, and repaired the whole queue |
| `QueueFile.WrittenLosesNewest` | version 4/fault_tolerance.c:29-31 | as written, every live element comes back except the newest, whose place keeps the overwritten ring's cell |
| `QueueFile.WrittenSurvivesExactlyWhen` | version 4/fault_tolerance.c:46-48 | as written, the queue survives if and only if it is empty or that cell happened to equal the newest element |
| `QueueFile.RepairedRestores` | version 4/fault_tolerance.c:46-48 | with the range front+1..rear the whole queue comes back for every ring |
| `SharedChains.PublishIsInsert` | version 4/hashmap.c:45-60 | publishing a node in memory is an insertion into the chains |
| `SharedChains.AtomicUpdateIsUpdate` | version 4/hashmap.c:12-27 | an indivisible update of the memory is an update of the chains |
| `SharedChains.AtomicKnowIsLookup` | version 4/hashmap.c:63-78 | an indivisible query of the memory is a lookup in the chains |
| `SharedChains.EmptyIsWellFormed` | version 4/simple-server.c:70-73 | the memory before the first insertion is well formed and stands for empty chains |
| `SharedChains.MemoryRefinesBuckets` | version 4/hashmap.c:45-60 | after any sequence of indivisible insertions and updates the memory stands for exactly the chains of the table on values |
| `UnlockedWalk.UpdateLinearizes` | version 4/hashmap.c:12-27 | against any interleaved insertions and status writes an unlocked update finds its key exactly if it was there at the head read, within as many looks as the chain had nodes, on the node an indivisible call would write; its write is an indivisible update at that moment unless the key itself was inserted meanwhile |
| `UnlockedWalk.QueryLinearizes` | version 4/hashmap.c:63-78 | an unlocked query returns what an indivisible one returns at its last read, or -1 exactly if the key was absent at the head read |
| `UnlockedWalk.WalkGoesOnExactlyWhen` | version 4/hashmap.c:12-27 | at every moment of an unlocked call any insertion and any status write may come next, and the call's own next look exactly until it ends |
| `FuzzySnapshot.SnapshotSound` | version 4/fault_tolerance.c:62-68 | a save interleaved with insertions and rising statuses writes every node at most once, every node of the start, only nodes of the end, and statuses between start and end |
| `FuzzySnapshot.SnapshotByKey` | version 4/fault_tolerance.c:62-68 | with unique keys: one line for each key of the start, none for a key unknown at the end, each status between the answers of indivisible queries at start and end |
| `FuzzySnapshot.SaveEnds` | version 4/fault_tolerance.c:62-68 | however many nodes are inserted beside it, a save takes at most as many steps of its own as there are nodes at the end plus two for each bucket, and it can go on until it has finished |
| `FuzzySnapshot.SaveGoesOnExactlyWhen` | version 4/fault_tolerance.c:62-68 | at every moment of a save any insertion and any rising status write may come next, and the saver's own next step exactly until it has finished |
| `Recovery.SnapshotRecovers` | version 4/fault_tolerance.c:74-95 | a map loaded from such a snapshot knows every key of the start, none unknown at the end, and gives each a status in between |
| `Recovery.UninterruptedSave` | version 4/fault_tolerance.c:62-68 | a save beside which nothing happens writes exactly the saved order of the chains in memory |
| `Recovery.EveryTableHasMemory` | version 4/hashmap.c:45-60 | whatever chains the table of linked nodes on the heap holds, there is a well-formed memory that stands for them |
| `SplitScheduler.SplitRunRefines` | version 4/thread_handler.c:37 | with every status write split into its reads and its write, inside the section and outside it, the pool still runs as the pool with indivisible ones: its memory binds exactly the accepted tickets, once each and to their statuses, and no write misses its ticket or gets stuck on the way |
| `SplitScheduler.EveryRunIsSplit` | version 4/thread_handler.c:107 | conversely every run of the pool with indivisible status writes is what some split run amounts to |
| `SplitScheduler.AllowedExactlyWhen` | version 4/thread_handler.c:26-42 | at every moment, beside the walks under way, exactly these steps can come next: any step of the pool that the mutex allows, the start of any status write that is due, the next look of any walk, the write of any that has ended, and the saver's |
| `SplitScheduler.SaveOfRunningScheduler` | version 4/fault_tolerance.c:55-71 | a save that starts at any moment of a split run and ends at any later one writes one line for each ticket accepted at its start, none for a ticket not accepted by its end, and statuses between those the scheduler gives at start and end |
| `FramedTransfer.SizeRoundTrip` | Ver2/gradingclient.c:118 | the four bytes of a size that is not negative decode to it |
| `FramedTransfer.DecodedExactlyWhen` | Ver2/simple-server.c:36-37 | a decoded size is the one C int that agrees with its four bytes, the first of least weight, modulo 2^32 |
| `FramedTransfer.ReceivedExactlyWhen` | Ver2/simple-server.c:47-72 | the loop ends exactly if the bytes make up the announced size after some read, with the bytes read so far; reading past the size does not end it |
| `FramedTransfer.DeliveredExactlyWhen` | Ver2/simple-server.c:47-72 | under every fragmentation into non-empty reads of limited length the server's loop ends with exactly the sent bytes, if and only if the announced size is the content's and not zero |
| `FramedTransfer.DeliveredThenEofExactlyWhen` | Ver2/gradingclient.c:178-193 | on a connection that the sender closes the loop ends with exactly the sent bytes if and only if the announced size is the content's, zero included |
| `FramedTransfer.SendAll` | Ver2/gradingclient.c:126-141 | the whole file, and nothing else, is appended to the stream |
| `FramedTransfer.ReceiveFile` | Ver2/simple-server.c:35-72 | terminates with exactly the bytes behind the size header and leaves the stream empty |
| `FramedTransfer.ReceiveResponse` | Ver2/gradingclient.c:174-193 | the client's loop does the same with reads of at most 255 bytes, for an empty response too |
| `FramedTransfer.Exchange` | Ver2/simple-server.c:159-192 | a request and its response over one connection: each side gets exactly the other's bytes and no byte of either frame is left over |

## Left out

- Sockets, accept, compiling and running submissions, diff, chmod, mkdir, chdir: foreign effects; a file that cannot be opened is not modelled either.
- RingQueue.Ring.KnowPosition: the code returns from a successful scan still holding `queue_lock` (`version 4/queue.c:53-55`), after which no thread enters a section again; the model's query releases it.
- RingQueue.Ring.Delete: on an empty ring the C function returns an undefined value; the model returns none, and `CounterMatchesQueue` shows that this never happens.
- ChainedMap.HashInTableExactlyWhen: for other negative keys the C code indexes outside its array; the map's operations require a key in the table.
- QueueFile.LoadQueueFromFile: requires that the two positions are equal or both index the array, by `QueueFile.SafePositionsExactlyWhen` exactly the files that the loop as written survives.
- QueueFile.SaveQueueToFile: taken as an atomic snapshot, although the code runs it beside the pool without the lock; only the map's save is split into steps.
- MapFile.LoadMapFromFile: requires keys that the table can be indexed with.
- DecimalText.ScanPrinted: stated for all integers; that a number outside its C type has no defined conversion is not modelled.
- FramedTransfer.ReceiveFile: the size must be that of the bytes that follow and not zero, by `DeliveredExactlyWhen` the only case in which the loop always ends well; early close, read errors, partial writes and a header that arrives in pieces are not modelled.
- The receive loops of Versions 1, 3 and 4 start their count again on every pass (`version 4/simple-server.c:130-134`) and do not accumulate; they are not modelled.
- The endless loop of `periodicSave`, delivery of results, deletion of directories, timing statistics, Version 1, the copies under `Ver3/server_folder` and the Version 4 client: no hard property.
