/** Which tickets are queued, held or done, in what order, and what the status map says. */
module PoolHistory {

  import opened Options
  import opened PoolModel
  import opened PoolSafety
  import RingQueue

  // ---------- Order ----------

  /** Submissions are accepted in order, and accepted tickets are dispatched in order. */
  ghost predicate OrderInv(submitted: seq<int>, s: State) {
    && submitted == s.accepted + s.todo
    && s.accepted == s.dispatched + s.queue
  }

  /** A history only grows. */
  ghost predicate Extends(s: State, t: State) {
    s.accepted <= t.accepted && s.dispatched <= t.dispatched
  }

  lemma AcceptOrder(c: Config, submitted: seq<int>, s: State)
    requires OrderInv(submitted, s) && s.todo != []
    ensures OrderInv(submitted, Accept(c, s)) && Extends(s, Accept(c, s))
  {
    assert s.accepted + [s.todo[0]] + s.todo[1..] == s.accepted + s.todo;
    assert s.dispatched + (s.queue + [s.todo[0]]) == s.accepted + [s.todo[0]];
  }

  lemma DispatchOrder(c: Config, submitted: seq<int>, s: State, id: nat)
    requires OrderInv(submitted, s) && id < |s.workers| && s.queue != []
    ensures OrderInv(submitted, Dispatch(c, s, id)) && Extends(s, Dispatch(c, s, id))
  {
    assert s.dispatched + [s.queue[0]] + s.queue[1..] == s.dispatched + s.queue;
  }

  lemma StepOrder(c: Config, submitted: seq<int>, s: State, a: Action)
    requires OrderInv(submitted, s) && Enabled(c, s, a)
    ensures OrderInv(submitted, Next(c, s, a)) && Extends(s, Next(c, s, a))
  {
    hide Accept, Dispatch, CanWake;
    match a
    case MasterSection(_) => AcceptOrder(c, submitted, s);
    case WorkerSection(id, _) => if s.noReq > 0 { DispatchOrder(c, submitted, s, id); }
    case WorkerResumes(id, _) => if c.variant.Version3? && s.noReq > 0 { DispatchOrder(c, submitted, s, id); }
    case GraderDone(_) =>
    case SpuriousWorker(_) =>
    case SpuriousMaster =>
  }

  lemma {:induction false} RunOrder(c: Config, submitted: seq<int>, s: State, run: seq<Action>)
    requires OrderInv(submitted, s) && IsRun(c, s, run)
    ensures OrderInv(submitted, After(c, s, run)) && Extends(s, After(c, s, run))
    decreases |run|
  {
    if run != [] {
      StepOrder(c, submitted, s, run[0]);
      RunOrder(c, submitted, Next(c, s, run[0]), run[1..]);
    }
  }

  lemma InitOrder(c: Config, todo: seq<int>)
    ensures OrderInv(todo, Init(c, todo))
  {
  }

  /** FIFO: what has been dequeued is a prefix of what was submitted. */
  lemma DispatchedInOrder(c: Config, todo: seq<int>, run: seq<Action>)
    requires IsRun(c, Init(c, todo), run)
    ensures After(c, Init(c, todo), run).dispatched <= todo
  {
    InitOrder(c, todo);
    RunOrder(c, todo, Init(c, todo), run);
  }

  /** With fresh tickets no ticket is dequeued twice. */
  lemma DispatchedOnce(c: Config, todo: seq<int>, run: seq<Action>)
    requires Distinct(todo) && IsRun(c, Init(c, todo), run)
    ensures Distinct(After(c, Init(c, todo), run).dispatched)
  {
    var d := After(c, Init(c, todo), run).dispatched;
    DispatchedInOrder(c, todo, run);
    assert forall i :: 0 <= i < |d| ==> d[i] == todo[i];
  }

  /**
   A ticket with m tickets ahead of it is the (m+1)-st to be dequeued from then on, and
   m is at most K-1.
   */
  lemma DispatchedInTurn(c: Config, todo: seq<int>, run: seq<Action>, m: nat, more: seq<Action>)
    requires IsRun(c, Init(c, todo), run)
    requires var s := After(c, Init(c, todo), run); m < |s.queue| && IsRun(c, s, more)
    ensures var s := After(c, Init(c, todo), run);
            var d := After(c, s, more).dispatched;
            && m <= c.capacity - 1
            && (|d| > |s.dispatched| + m ==> d[|s.dispatched| + m] == s.queue[m])
  {
    ReachableThenReachable(c, todo, run, more);
    var s := After(c, Init(c, todo), run);
    var t := After(c, s, more);
    if |t.dispatched| > |s.dispatched| + m {
      InTurn(s, t, m);
    }
  }

  lemma InTurn(s: State, t: State, m: nat)
    requires s.accepted == s.dispatched + s.queue && t.accepted == t.dispatched + t.queue && Extends(s, t)
    requires m < |s.queue| && |t.dispatched| > |s.dispatched| + m
    ensures t.dispatched[|s.dispatched| + m] == s.queue[m]
  {
    assert t.dispatched[|s.dispatched| + m] == t.accepted[|s.dispatched| + m];
  }

  lemma ReachableThenReachable(c: Config, todo: seq<int>, run: seq<Action>, more: seq<Action>)
    requires IsRun(c, Init(c, todo), run) && IsRun(c, After(c, Init(c, todo), run), more)
    ensures var s := After(c, Init(c, todo), run);
            var t := After(c, s, more);
            OrderInv(todo, s) && OrderInv(todo, t) && Extends(s, t) && |s.queue| <= c.capacity
  {
    InitOrder(c, todo);
    RunOrder(c, todo, Init(c, todo), run);
    RunOrder(c, todo, After(c, Init(c, todo), run), more);
    InitCounts(c, todo);
    RunCounts(c, Init(c, todo), run);
  }

  /**
   Queue positions. A ticket at position p keeps it except for moving up one place with
   every dequeue, and leaves the queue with the p-th; so a reported position never rises and
   tells exactly which following dequeue serves the ticket.
   */
  lemma PositionCountsDown(c: Config, todo: seq<int>, run: seq<Action>, ticket: int, more: seq<Action>)
    requires Distinct(todo) && IsRun(c, Init(c, todo), run)
    requires var s := After(c, Init(c, todo), run); ticket in s.queue && IsRun(c, s, more)
    ensures var s := After(c, Init(c, todo), run);
            var t := After(c, s, more);
            var p := RingQueue.Position(s.queue, ticket);
            && p.Some? && 1 <= p.value <= c.capacity && s.queue[p.value - 1] == ticket
            && |s.dispatched| <= |t.dispatched|
            && RingQueue.Position(t.queue, ticket) == LaterPosition(p.value, |t.dispatched| - |s.dispatched|)
  {
    ReachableThenReachable(c, todo, run, more);
    var s := After(c, Init(c, todo), run);
    var t := After(c, s, more);
    QueueIsWindow(todo, s);
    QueueIsWindow(todo, t);
    PositionBetween(todo, |s.dispatched|, |s.accepted|, |t.dispatched|, |t.accepted|, ticket);
  }

  /**
   What the place of a once queued ticket tells later on: while it has one, it stands there,
   and its first place was further back by the dequeues in between; without one it has been
   dequeued.
   */
  lemma PlaceLater(c: Config, todo: seq<int>, run: seq<Action>, ticket: int, more: seq<Action>)
    requires Distinct(todo) && IsRun(c, Init(c, todo), run)
    requires var s := After(c, Init(c, todo), run); ticket in s.queue && IsRun(c, s, more)
    ensures var s := After(c, Init(c, todo), run);
            var t := After(c, s, more);
            match RingQueue.Position(t.queue, ticket)
            case Some(p) =>
              && 1 <= p <= |t.queue| && t.queue[p - 1] == ticket && ticket !in t.dispatched
              && |t.dispatched| >= |s.dispatched|
              && var first := p + |t.dispatched| - |s.dispatched|;
                 first <= |s.queue| && s.queue[first - 1] == ticket
            case None => ticket in t.dispatched
  {
    hide IsRun, After, RingQueue.Position, Distinct;
    PositionCountsDown(c, todo, run, ticket, more);
    ReachableThenReachable(c, todo, run, more);
    var s := After(c, Init(c, todo), run);
    var t := After(c, s, more);
    PartsDisjoint(todo, t);
    RingQueue.PositionFinds(t.queue, ticket);
    var i :| 0 <= i < |s.queue| && s.queue[i] == ticket;
    assert t.accepted[|s.dispatched| + i] == ticket;
  }

  /** A queue position after so many more dequeues. */
  function LaterPosition(position: nat, served: int): Option<nat> {
    if served < position then Some(position - served) else None
  }

  lemma PositionBetween(submitted: seq<int>, d: nat, a: nat, laterD: nat, laterA: nat, ticket: int)
    requires Distinct(submitted) && d <= a <= |submitted| && laterD <= laterA <= |submitted|
    requires d <= laterD && a <= laterA && ticket in submitted[d..a]
    ensures var q := submitted[d..a];
            var p := RingQueue.Position(q, ticket);
            && p.Some? && 1 <= p.value <= |q| && q[p.value - 1] == ticket
            && RingQueue.Position(submitted[laterD..laterA], ticket) == LaterPosition(p.value, laterD - d)
  {
  }

  /** The queue is the stretch of the submissions that is accepted but not dispatched. */
  lemma QueueIsWindow(submitted: seq<int>, s: State)
    requires OrderInv(submitted, s)
    ensures |s.dispatched| <= |s.accepted| <= |submitted|
    ensures s.queue == submitted[|s.dispatched|..|s.accepted|]
  {
  }

  // ---------- Statuses ----------

  /** A worker is grading the ticket. */
  ghost predicate Held(s: State, ticket: int) {
    exists i :: 0 <= i < |s.workers| && s.workers[i] == Grading(ticket)
  }

  ghost predicate StatusInv(s: State) {
    && (forall t :: t in s.status <==> t in s.accepted)
    && (forall t :: t in s.queue ==> t in s.status && s.status[t] == 0)
    && (forall i :: 0 <= i < |s.workers| && s.workers[i].Grading? ==>
          var t := s.workers[i].ticket; t in s.dispatched && t in s.status && s.status[t] == 1)
    && (forall i, j :: 0 <= i < j < |s.workers| && s.workers[i].Grading? && s.workers[j].Grading? ==>
          s.workers[i] != s.workers[j])
    && (forall t :: t in s.dispatched ==> t in s.status && (s.status[t] == 2 || (s.status[t] == 1 && Held(s, t))))
  }

  /** Fresh tickets keep what is done or held, what is queued and what is still to come apart. */
  lemma PartsDisjoint(submitted: seq<int>, s: State)
    requires Distinct(submitted) && OrderInv(submitted, s)
    ensures Distinct(s.queue)
    ensures forall t :: t in s.accepted <==> t in s.dispatched || t in s.queue
    ensures forall t :: t in s.dispatched ==> t !in s.queue
    ensures forall t :: t in s.todo ==> t !in s.accepted
  {
    var d, q := |s.dispatched|, |s.accepted|;
    assert forall i :: 0 <= i < |s.dispatched| ==> s.dispatched[i] == submitted[i];
    assert forall i :: 0 <= i < |s.queue| ==> s.queue[i] == submitted[d + i];
    assert forall i :: 0 <= i < |s.accepted| ==> s.accepted[i] == submitted[i];
    assert forall i :: 0 <= i < |s.todo| ==> s.todo[i] == submitted[q + i];
  }

  /** A wakeup changes no ticket's state. */
  lemma WakeUpStatus(s: State, w: Waiter)
    requires StatusInv(s)
    requires w.TheWorker? ==> w.id < |s.workers| && s.workers[w.id].Waiting?
    ensures StatusInv(WakeUp(s, w))
  {
    var r := WakeUp(s, w);
    forall t | Held(s, t) ensures Held(r, t) {
      var i :| 0 <= i < |s.workers| && s.workers[i] == Grading(t);
      assert r.workers[i] == Grading(t);
    }
  }

  lemma AcceptStatus(c: Config, submitted: seq<int>, s: State)
    requires c.variant.Version4? && Distinct(submitted) && OrderInv(submitted, s) && StatusInv(s)
    requires s.todo != []
    ensures StatusInv(Accept(c, s))
  {
    var r := Accept(c, s);
    PartsDisjoint(submitted, s);
    forall t | Held(s, t) ensures Held(r, t) {
      var i :| 0 <= i < |s.workers| && s.workers[i] == Grading(t);
      assert r.workers[i] == Grading(t);
    }
  }

  lemma DispatchStatus(c: Config, submitted: seq<int>, s: State, id: nat)
    requires c.variant.Version4? && Distinct(submitted) && OrderInv(submitted, s) && StatusInv(s)
    requires id < |s.workers| && !s.workers[id].Grading? && s.queue != []
    ensures StatusInv(Dispatch(c, s, id))
  {
    var r, first := Dispatch(c, s, id), s.queue[0];
    PartsDisjoint(submitted, s);
    assert first in s.queue && first !in s.dispatched;
    assert first !in r.queue;
    assert r.workers[id] == Grading(first) && Held(r, first);
    forall t | t in s.dispatched && Held(s, t) ensures Held(r, t) {
      var i :| 0 <= i < |s.workers| && s.workers[i] == Grading(t);
      assert r.workers[i] == Grading(t);
    }
  }

  lemma GraderDoneStatus(c: Config, submitted: seq<int>, s: State, id: nat)
    requires c.variant.Version4? && Distinct(submitted) && OrderInv(submitted, s) && StatusInv(s)
    requires id < |s.workers| && s.workers[id].Grading?
    ensures StatusInv(Next(c, s, GraderDone(id)))
  {
    var r, ticket := Next(c, s, GraderDone(id)), s.workers[id].ticket;
    PartsDisjoint(submitted, s);
    forall t | t != ticket && Held(s, t) ensures Held(r, t) {
      var i :| 0 <= i < |s.workers| && s.workers[i] == Grading(t);
      assert r.workers[i] == Grading(t);
    }
  }

  lemma SameTicketsStatus(s: State, r: State)
    requires StatusInv(s)
    requires r.status == s.status && r.accepted == s.accepted && r.dispatched == s.dispatched && r.queue == s.queue
    requires |r.workers| == |s.workers|
    requires forall i :: 0 <= i < |s.workers| ==>
               r.workers[i] == s.workers[i] || (!s.workers[i].Grading? && !r.workers[i].Grading?)
    ensures StatusInv(r)
  {
  }

  lemma StepStatus(c: Config, submitted: seq<int>, s: State, a: Action)
    requires c.variant.Version4? && Distinct(submitted) && OrderInv(submitted, s) && StatusInv(s)
    requires Enabled(c, s, a)
    ensures StatusInv(Next(c, s, a))
  {
    match a
    case MasterSection(w) =>
      if |s.queue| == c.capacity {
        SameTicketsStatus(s, Next(c, s, a));
      } else {
        AcceptStatus(c, submitted, s);
        WakeUpStatus(Accept(c, s), w);
      }
    case WorkerSection(id, w) =>
      if s.noReq > 0 {
        DispatchStatus(c, submitted, s, id);
        WakeUpStatus(Dispatch(c, s, id), w);
      } else {
        SameTicketsStatus(s, Next(c, s, a));
      }
    case GraderDone(id) => GraderDoneStatus(c, submitted, s, id);
    case WorkerResumes(id, w) => SameTicketsStatus(s, Next(c, s, a));
    case SpuriousWorker(id) => SameTicketsStatus(s, Next(c, s, a));
    case SpuriousMaster => SameTicketsStatus(s, Next(c, s, a));
  }

  /** A step never lowers a status. */
  lemma StepMonotone(c: Config, submitted: seq<int>, s: State, a: Action, ticket: int)
    requires c.variant.Version4? && Distinct(submitted) && OrderInv(submitted, s) && StatusInv(s)
    requires Enabled(c, s, a) && ticket in s.status
    ensures ticket in Next(c, s, a).status && s.status[ticket] <= Next(c, s, a).status[ticket]
  {
    PartsDisjoint(submitted, s);
  }

  lemma {:induction false} RunStatus(c: Config, submitted: seq<int>, s: State, run: seq<Action>)
    requires c.variant.Version4? && Distinct(submitted) && OrderInv(submitted, s) && StatusInv(s)
    requires IsRun(c, s, run)
    ensures OrderInv(submitted, After(c, s, run)) && StatusInv(After(c, s, run))
    ensures forall t :: t in s.status ==>
              t in After(c, s, run).status && s.status[t] <= After(c, s, run).status[t]
    decreases |run|
  {
    if run != [] {
      var n := Next(c, s, run[0]);
      StepOrder(c, submitted, s, run[0]);
      StepStatus(c, submitted, s, run[0]);
      RunStatus(c, submitted, n, run[1..]);
      forall t | t in s.status ensures t in n.status && s.status[t] <= n.status[t] {
        StepMonotone(c, submitted, s, run[0], t);
      }
    }
  }

  lemma InitStatus(c: Config, todo: seq<int>)
    ensures StatusInv(Init(c, todo))
  {
  }

  /**
   Conservation and agreement. Every accepted ticket is queued, held or done, and only one
   of them; no two workers hold the same ticket; and the status map says 0, 1 and 2 for
   exactly these, and nothing about any other ticket.
   */
  lemma TicketsConserved(c: Config, todo: seq<int>, run: seq<Action>)
    requires c.variant.Version4? && Distinct(todo) && IsRun(c, Init(c, todo), run)
    ensures var s := After(c, Init(c, todo), run);
            && s.accepted == s.dispatched + s.queue && s.accepted + s.todo == todo
            && (forall t :: t in s.dispatched ==> t !in s.queue)
            && (forall t :: Held(s, t) ==> t in s.dispatched)
            && (forall i, j :: 0 <= i < j < |s.workers| && s.workers[i].Grading? ==> s.workers[i] != s.workers[j])
            && (forall t :: t in s.status <==> t in s.accepted)
            && (forall t :: t in s.status ==>
                  && 0 <= s.status[t] <= 2
                  && (s.status[t] == 0 <==> t in s.queue)
                  && (s.status[t] == 1 <==> Held(s, t))
                  && (s.status[t] == 2 <==> t in s.dispatched && !Held(s, t)))
  {
    InitOrder(c, todo);
    InitStatus(c, todo);
    RunStatus(c, todo, Init(c, todo), run);
    PartsDisjoint(todo, After(c, Init(c, todo), run));
  }

  /** The workers' status writes always find their ticket in the map. */
  lemma UpdatesFindTheirTicket(c: Config, todo: seq<int>, run: seq<Action>, id: nat)
    requires c.variant.Version4? && Distinct(todo) && IsRun(c, Init(c, todo), run)
    ensures var s := After(c, Init(c, todo), run);
            && (s.noReq > 0 ==> s.queue != [] && s.queue[0] in s.status && s.status[s.queue[0]] == 0)
            && (id < |s.workers| && s.workers[id].Grading? ==>
                  s.workers[id].ticket in s.status && s.status[s.workers[id].ticket] == 1)
  {
    TicketsConserved(c, todo, run);
    CounterMatchesQueue(c, todo, run);
    var s := After(c, Init(c, todo), run);
    if s.noReq > 0 {
      assert s.accepted[|s.dispatched|] == s.queue[0];
    }
    if id < |s.workers| && s.workers[id].Grading? {
      assert Held(s, s.workers[id].ticket);
    }
  }

  /** Every ticket that is to come, queued or held was submitted. */
  lemma TicketsSubmitted(c: Config, todo: seq<int>, run: seq<Action>, id: nat)
    requires c.variant.Version4? && Distinct(todo) && IsRun(c, Init(c, todo), run)
    ensures var s := After(c, Init(c, todo), run);
            && (s.todo != [] ==> s.todo[0] in todo)
            && (s.queue != [] ==> s.queue[0] in todo)
            && (id < |s.workers| && s.workers[id].Grading? ==> s.workers[id].ticket in todo)
  {
    InitOrder(c, todo);
    RunOrder(c, todo, Init(c, todo), run);
    UpdatesFindTheirTicket(c, todo, run, id);
    var s := After(c, Init(c, todo), run);
    if s.todo != [] {
      assert todo[|s.accepted|] == s.todo[0];
    }
    if s.queue != [] {
      assert todo[|s.dispatched|] == s.queue[0];
    }
    TicketsConserved(c, todo, run);
  }

  /** A ticket once accepted is never inserted again, so no update of it can meet an insertion of its key. */
  lemma NeverInsertedAgain(c: Config, todo: seq<int>, run: seq<Action>, more: seq<Action>, ticket: int)
    requires Distinct(todo) && IsRun(c, Init(c, todo), run)
    requires IsRun(c, After(c, Init(c, todo), run), more)
    requires ticket in After(c, Init(c, todo), run).accepted
    ensures ticket !in After(c, After(c, Init(c, todo), run), more).todo
  {
    ReachableThenReachable(c, todo, run, more);
    PartsDisjoint(todo, After(c, After(c, Init(c, todo), run), more));
  }

  /** Along a run a ticket's status only moves up, so later queries never go back. */
  lemma StatusOnlyRises(c: Config, todo: seq<int>, run: seq<Action>, more: seq<Action>, ticket: int)
    requires c.variant.Version4? && Distinct(todo) && IsRun(c, Init(c, todo), run)
    requires IsRun(c, After(c, Init(c, todo), run), more)
    requires ticket in After(c, Init(c, todo), run).status
    ensures var s := After(c, Init(c, todo), run);
            var t := After(c, s, more);
            ticket in t.status && s.status[ticket] <= t.status[ticket] <= 2
  {
    InitOrder(c, todo);
    InitStatus(c, todo);
    RunStatus(c, todo, Init(c, todo), run);
    RunStatus(c, todo, After(c, Init(c, todo), run), more);
  }

  ghost function TicketsAt(s: State, value: int): set<int> {
    set t | t in s.status && s.status[t] == value
  }

  lemma {:induction false} MembersBound(s: seq<int>, x: set<int>)
    requires forall t :: t in x ==> t in s
    ensures |x| <= |s|
  {
    if s == [] {
      assert forall t :: t !in x;
    } else {
      MembersBound(s[1..], x - {s[0]});
    }
  }

  function HeldTickets(ws: seq<Worker>): seq<int> {
    if ws == [] then []
    else (if ws[0].Grading? then [ws[0].ticket] else []) + HeldTickets(ws[1..])
  }

  lemma {:induction false} HeldTicketsMembers(ws: seq<Worker>, t: int)
    ensures |HeldTickets(ws)| <= |ws|
    ensures (exists i :: 0 <= i < |ws| && ws[i] == Grading(t)) ==> t in HeldTickets(ws)
  {
    if ws != [] {
      HeldTicketsMembers(ws[1..], t);
      if i :| 0 <= i < |ws| && ws[i] == Grading(t) {
        if i > 0 {
          assert ws[1..][i - 1] == Grading(t);
        }
      }
    }
  }

  /** At most N tickets are being graded and at most K are queued at any time. */
  lemma StatusCounts(c: Config, todo: seq<int>, run: seq<Action>)
    requires c.variant.Version4? && Distinct(todo) && IsRun(c, Init(c, todo), run)
    ensures var s := After(c, Init(c, todo), run);
            |TicketsAt(s, 1)| <= c.workers && |TicketsAt(s, 0)| == |s.queue| <= c.capacity
  {
    var s := After(c, Init(c, todo), run);
    TicketsConserved(c, todo, run);
    InitCounts(c, todo);
    RunCounts(c, Init(c, todo), run);
    HeldTicketsMembers(s.workers, 0);
    forall t | t in TicketsAt(s, 1) ensures t in HeldTickets(s.workers) {
      HeldTicketsMembers(s.workers, t);
    }
    MembersBound(HeldTickets(s.workers), TicketsAt(s, 1));
    InitOrder(c, todo);
    RunOrder(c, todo, Init(c, todo), run);
    PartsDisjoint(todo, s);
    assert forall t :: t in TicketsAt(s, 0) <==> t in s.queue;
    DistinctCount(s.queue, TicketsAt(s, 0));
  }

  lemma {:induction false} DistinctCount(s: seq<int>, x: set<int>)
    requires Distinct(s) && forall t :: t in x <==> t in s
    ensures |x| == |s|
  {
    if s == [] {
      assert forall t :: t !in x;
    } else {
      assert s[0] in s;
      forall t | t in x - {s[0]} ensures t in s[1..] {
        assert s == [s[0]] + s[1..];
      }
      DistinctCount(s[1..], x - {s[0]});
    }
  }
}
