/**
 A server that starts on a loaded queue. Loading restores the ring but leaves the counter at
 zero, so the pool never counts as many tickets as were loaded. It then behaves exactly like
 a pool whose queue has that many places fewer, on the loaded tickets followed by the new
 submissions, of which it leaves the last ones in the queue.
 */
module PoolRestart {

  import opened PoolModel
  import opened PoolSafety
  import opened PoolLiveness
  import opened PoolHistory
  import opened PoolTightness

  /** The start after loading: a queue and a status map, and a counter that was not rebuilt. */
  function Restart(c: Config, loaded: seq<int>, status: map<int, int>, todo: seq<int>): State {
    Init(c, todo).(queue := loaded, status := status, accepted := loaded)
  }

  /** The queue holds `lag` tickets that the counter does not know of. */
  ghost predicate Lags(c: Config, s: State, lag: nat) {
    0 <= s.noReq && |s.queue| == s.noReq + lag && |s.queue| <= c.capacity
  }

  function Smaller(c: Config, lag: nat): Config
    requires lag <= c.capacity
  {
    c.(capacity := c.capacity - lag)
  }

  /**
   The state of the smaller pool. It sees the counted tickets as its queue, and the tickets
   behind them as still to come, up to the last `lag` ones.
   */
  ghost function Mirror(s: State, lag: nat): State
    requires 0 <= s.noReq && |s.queue| == s.noReq + lag
  {
    var stream := s.queue + s.todo;
    s.(todo := stream[s.noReq..|stream| - lag],
       queue := stream[..s.noReq],
       accepted := s.dispatched + stream[..s.noReq],
       status := map[])
  }

  /** Two states that differ in their statuses only. */
  ghost predicate Alike(r: State, s: State) {
    r.(status := map[]) == s.(status := map[])
  }

  lemma MirrorAccepts(c: Config, s: State, lag: nat, r: State)
    requires Lags(c, s, lag) && Alike(r, Mirror(s, lag)) && s.todo != []
    ensures r.todo != [] && |Accept(c, s).queue| == Accept(c, s).noReq + lag
    ensures Alike(Accept(c, r), Mirror(Accept(c, s), lag))
  {
    var t := Accept(c, s);
    assert t.queue + t.todo == s.queue + s.todo;
  }

  lemma MirrorDispatches(c: Config, s: State, lag: nat, r: State, id: nat)
    requires Lags(c, s, lag) && Alike(r, Mirror(s, lag)) && s.noReq > 0 && id < |s.workers|
    ensures r.queue != [] && |Dispatch(c, s, id).queue| == Dispatch(c, s, id).noReq + lag
    ensures Alike(Dispatch(c, r, id), Mirror(Dispatch(c, s, id), lag))
  {
    var t := Dispatch(c, s, id);
    var before, after := s.queue + s.todo, t.queue + t.todo;
    assert after == before[1..];
    assert before[..s.noReq] == [s.queue[0]] + after[..t.noReq];
    assert after[t.noReq..|after| - lag] == before[s.noReq..|before| - lag];
  }

  lemma MirrorEnables(c: Config, s: State, lag: nat, r: State, a: Action)
    requires lag <= c.capacity && Lags(c, s, lag) && Alike(r, Mirror(s, lag))
    ensures Enabled(c, s, a) <==> Enabled(Smaller(c, lag), r, a)
  {
  }

  /** A signal, or any other step of the threads alone, is the same in both pools. */
  lemma MirrorThreads(s: State, lag: nat, r: State, workers: seq<Worker>, master: Master)
    requires 0 <= s.noReq && |s.queue| == s.noReq + lag && Alike(r, Mirror(s, lag))
    ensures Alike(r.(workers := workers, master := master), Mirror(s.(workers := workers, master := master), lag))
  {
  }

  /** Both pools can take the same steps, and stay in step. */
  lemma StepMirrors(c: Config, s: State, lag: nat, r: State, a: Action)
    requires lag <= c.capacity && Lags(c, s, lag) && Alike(r, Mirror(s, lag))
    ensures Enabled(c, s, a) <==> Enabled(Smaller(c, lag), r, a)
    ensures Enabled(c, s, a) ==>
              Lags(c, Next(c, s, a), lag) && Alike(Next(Smaller(c, lag), r, a), Mirror(Next(c, s, a), lag))
  {
    MirrorEnables(c, s, lag, r, a);
    if Enabled(c, s, a) {
      if a.MasterSection? && |s.queue| != c.capacity {
        AcceptMirrors(c, s, lag, r, a.woken);
      } else if (a.WorkerSection? || (a.WorkerResumes? && c.variant.Version3?)) && s.noReq > 0 {
        DispatchMirrors(c, s, lag, r, a.id, a.woken);
      } else {
        var t := Next(c, s, a);
        MirrorThreads(s, lag, r, t.workers, t.master);
      }
    }
  }

  lemma AcceptMirrors(c: Config, s: State, lag: nat, r: State, w: Waiter)
    requires lag <= c.capacity && Lags(c, s, lag) && Alike(r, Mirror(s, lag))
    requires s.todo != [] && |s.queue| != c.capacity
    ensures r.todo != []
    ensures var t := WakeUp(Accept(c, s), w);
            Lags(c, t, lag) && Alike(WakeUp(Accept(Smaller(c, lag), r), w), Mirror(t, lag))
  {
    MirrorAccepts(c, s, lag, r);
    SmallerAccepts(c, s, lag, r);
    hide Accept;
    var t := Accept(c, s);
    MirrorThreads(t, lag, Accept(c, r), ReleaseWorker(t.workers, w), ReleaseMaster(t.master, w));
  }

  lemma DispatchMirrors(c: Config, s: State, lag: nat, r: State, id: nat, w: Waiter)
    requires lag <= c.capacity && Lags(c, s, lag) && Alike(r, Mirror(s, lag))
    requires id < |s.workers| && s.noReq > 0
    ensures r.queue != []
    ensures var t := WakeUp(Dispatch(c, s, id), w);
            Lags(c, t, lag) && Alike(WakeUp(Dispatch(Smaller(c, lag), r, id), w), Mirror(t, lag))
  {
    MirrorDispatches(c, s, lag, r, id);
    SmallerDispatches(c, s, lag, r, id);
    hide Dispatch;
    var t := Dispatch(c, s, id);
    MirrorThreads(t, lag, Dispatch(c, r, id), ReleaseWorker(t.workers, w), ReleaseMaster(t.master, w));
  }

  lemma SmallerAccepts(c: Config, s: State, lag: nat, r: State)
    requires lag <= c.capacity && s.todo != [] && r.todo != []
    ensures Accept(Smaller(c, lag), r) == Accept(c, r)
    ensures var t := Accept(c, s);
            t == t.(workers := s.workers, master := s.master) && |t.queue| == |s.queue| + 1 && t.noReq == s.noReq + 1
  {
  }

  lemma SmallerDispatches(c: Config, s: State, lag: nat, r: State, id: nat)
    requires lag <= c.capacity && s.queue != [] && r.queue != [] && id < |s.workers| == |r.workers|
    ensures Dispatch(Smaller(c, lag), r, id) == Dispatch(c, r, id)
    ensures var t := Dispatch(c, s, id);
            t.master == s.master && |t.workers| == |s.workers| && |t.queue| == |s.queue| - 1 && t.noReq == s.noReq - 1
  {
  }

  lemma {:induction false} RunMirrors(c: Config, s: State, lag: nat, r: State, run: seq<Action>)
    requires lag <= c.capacity && Lags(c, s, lag) && Alike(r, Mirror(s, lag))
    ensures IsRun(c, s, run) <==> IsRun(Smaller(c, lag), r, run)
    ensures IsRun(c, s, run) ==>
              Lags(c, After(c, s, run), lag) && Alike(After(Smaller(c, lag), r, run), Mirror(After(c, s, run), lag))
    decreases |run|
  {
    if run != [] {
      StepMirrors(c, s, lag, r, run[0]);
      if Enabled(c, s, run[0]) {
        RunMirrors(c, Next(c, s, run[0]), lag, Next(Smaller(c, lag), r, run[0]), run[1..]);
      }
    }
  }

  /**
   The restarted pool has exactly the runs of a fresh pool with as many places fewer as
   tickets were loaded, on the loaded and new tickets but the last ones; and along each run
   the two stay in step.
   */
  lemma RestartIsSmallerPool(c: Config, loaded: seq<int>, status: map<int, int>, todo: seq<int>, run: seq<Action>)
    requires |loaded| <= c.capacity
    ensures var s0 := Restart(c, loaded, status, todo);
            var d := Smaller(c, |loaded|);
            var r0 := Init(d, (loaded + todo)[..|todo|]);
            && (IsRun(c, s0, run) <==> IsRun(d, r0, run))
            && (IsRun(c, s0, run) ==>
                  Lags(c, After(c, s0, run), |loaded|) &&
                  Alike(After(d, r0, run), Mirror(After(c, s0, run), |loaded|)))
  {
    RunMirrors(c, Restart(c, loaded, status, todo), |loaded|,
               Init(Smaller(c, |loaded|), (loaded + todo)[..|todo|]), run);
  }

  lemma QuietMirrors(c: Config, s: State, lag: nat, r: State)
    requires lag <= c.capacity && Lags(c, s, lag) && Alike(r, Mirror(s, lag))
    ensures Quiet(c, s) <==> Quiet(Smaller(c, lag), r)
  {
    forall a ensures Enabled(c, s, a) <==> Enabled(Smaller(c, lag), r, a) {
      StepMirrors(c, s, lag, r, a);
    }
  }

  /** Nothing is lost or reordered: dequeued, queued and coming tickets are the loaded and the new ones. */
  lemma {:induction false} StreamKept(c: Config, s: State, run: seq<Action>)
    requires IsRun(c, s, run)
    ensures var t := After(c, s, run);
            t.dispatched + t.queue + t.todo == s.dispatched + s.queue + s.todo
    decreases |run|
  {
    if run != [] {
      var n := Next(c, s, run[0]);
      StreamKept(c, n, run[1..]);
      StepKeepsStream(c, s, run[0]);
    }
  }

  lemma StepKeepsStream(c: Config, s: State, a: Action)
    requires Enabled(c, s, a)
    ensures var t := Next(c, s, a);
            t.dispatched + t.queue + t.todo == s.dispatched + s.queue + s.todo
  {
    var before := s.(accepted := s.dispatched + s.queue);
    StepOrder(c, before.accepted + s.todo, before, a);
  }

  ghost predicate RestartStrands(c: Config, loaded: seq<int>, status: map<int, int>, todo: seq<int>, run: seq<Action>) {
    var s := Restart(c, loaded, status, todo);
    IsRun(c, s, run) && Stranded(c, After(c, s, run))
  }

  lemma RestartStrandsAsSmaller(c: Config, loaded: seq<int>, status: map<int, int>, todo: seq<int>, run: seq<Action>)
    requires |loaded| <= c.capacity
    ensures RestartStrands(c, loaded, status, todo, run)
       <==> Strands(Smaller(c, |loaded|), (loaded + todo)[..|todo|], run)
  {
    RestartIsSmallerPool(c, loaded, status, todo, run);
    var s0 := Restart(c, loaded, status, todo);
    if IsRun(c, s0, run) {
      QuietMirrors(c, After(c, s0, run), |loaded|,
                   After(Smaller(c, |loaded|), Init(Smaller(c, |loaded|), (loaded + todo)[..|todo|]), run));
    }
  }

  /**
   The bound after a restart: with L loaded tickets some run strands the master exactly when
   there are at least 2(K-L) workers and more than K-L new submissions.
   */
  lemma RestartStrandsExactlyWhen(c: Config, loaded: seq<int>, status: map<int, int>, todo: seq<int>)
    requires c.workers >= 1 && |loaded| <= c.capacity
    ensures (exists run :: RestartStrands(c, loaded, status, todo, run)) <==>
            (c.workers >= 2 * (c.capacity - |loaded|) && |todo| > c.capacity - |loaded|)
  {
    var d, front := Smaller(c, |loaded|), (loaded + todo)[..|todo|];
    StrandingExactlyWhen(d, front);
    if run :| Strands(d, front, run) {
      RestartStrandsAsSmaller(c, loaded, status, todo, run);
    }
    if run :| RestartStrands(c, loaded, status, todo, run) {
      RestartStrandsAsSmaller(c, loaded, status, todo, run);
    }
  }

  /**
   Below that bound, wherever a run comes to rest exactly as many tickets are dispatched as
   were submitted anew, the loaded ones first, and the last L stay in the queue. So the
   loaded tickets are all served if and only if at least as many new ones were submitted, and
   everything is served if and only if nothing was loaded.
   */
  lemma RestartRests(c: Config, loaded: seq<int>, status: map<int, int>, todo: seq<int>, run: seq<Action>)
    requires |loaded| <= c.capacity && 1 <= c.workers <= 2 * (c.capacity - |loaded|) - 1
    requires var s0 := Restart(c, loaded, status, todo);
             IsRun(c, s0, run) && Quiet(c, After(c, s0, run))
    ensures var t := After(c, Restart(c, loaded, status, todo), run);
            && t.dispatched == (loaded + todo)[..|todo|]
            && t.queue == (loaded + todo)[|todo|..]
            && t.todo == [] && t.noReq == 0 && t.master.Awake? && AllWorkersWait(t)
            && (loaded <= t.dispatched <==> |todo| >= |loaded|)
            && (t.dispatched == loaded + todo <==> loaded == [])
  {
    var s0, d, front := Restart(c, loaded, status, todo), Smaller(c, |loaded|), (loaded + todo)[..|todo|];
    RestartIsSmallerPool(c, loaded, status, todo, run);
    var t, r := After(c, s0, run), After(d, Init(d, front), run);
    QuietMirrors(c, t, |loaded|, r);
    RestsOnlyWhenFinished(d, front, run);
    StreamKept(c, s0, run);
    RestedStream(loaded, todo, t, r);
  }

  lemma RestedStream(loaded: seq<int>, todo: seq<int>, t: State, r: State)
    requires 0 <= t.noReq && |t.queue| == t.noReq + |loaded| && Alike(r, Mirror(t, |loaded|))
    requires r.todo == [] && r.noReq == 0
    requires t.dispatched + t.queue + t.todo == loaded + todo
    ensures t.todo == [] && t.dispatched == (loaded + todo)[..|todo|] && t.queue == (loaded + todo)[|todo|..]
    ensures loaded <= t.dispatched <==> |todo| >= |loaded|
    ensures t.dispatched == loaded + todo <==> loaded == []
  {
    assert |r.todo| == |t.todo|;
    assert t.dispatched + t.queue == loaded + todo;
  }

  /** Every ticket is dispatched in the run. */
  ghost predicate ServesAll(c: Config, loaded: seq<int>, status: map<int, int>, todo: seq<int>, run: seq<Action>) {
    var s := Restart(c, loaded, status, todo);
    IsRun(c, s, run) && After(c, s, run).dispatched == loaded + todo
  }

  /** For 1 <= N <= 2K-1 some run serves every ticket if and only if no ticket was loaded. */
  lemma SomeRunServesAllExactlyWhen(c: Config, loaded: seq<int>, status: map<int, int>, todo: seq<int>)
    requires |loaded| <= c.capacity && 1 <= c.workers <= 2 * c.capacity - 1
    ensures (exists run :: ServesAll(c, loaded, status, todo, run)) <==> loaded == []
  {
    var s0 := Restart(c, loaded, status, todo);
    if loaded == [] {
      InitCounts(c, todo);
      assert CountInv(c, s0);
      var run := ComesToRest(c, s0);
      RestartRests(c, loaded, status, todo, run);
      assert ServesAll(c, loaded, status, todo, run);
    }
    if run :| ServesAll(c, loaded, status, todo, run) {
      RestartIsSmallerPool(c, loaded, status, todo, run);
      StreamKept(c, s0, run);
    }
  }
}
