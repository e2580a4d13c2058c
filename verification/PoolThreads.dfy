/** The threads of a pool: where each one is, and the wait set of the condition variable they share. */
module PoolThreads {

  import opened PoolModel

  class Threads {
    var workers: seq<Worker>
    var master: Master

    constructor (poolSize: nat)
      ensures workers == seq(poolSize, _ => Idle) && master == Awake
    {
      workers, master := seq(poolSize, _ => Idle), Awake;
    }

    /** pthread_cond_signal, where the system releases the thread `woken`. */
    method Signal(woken: Waiter)
      requires CanRelease(workers, master, woken)
      modifies this
      ensures workers == ReleaseWorker(old(workers), woken) && master == ReleaseMaster(old(master), woken)
    {
      match woken {
        case Nobody =>
        case TheMaster => master := Awake;
        case TheWorker(id) => workers := workers[id := Woken];
      }
    }

    /** Some thread that a signal may release; there always is an answer. */
    method AnyWaiter() returns (w: Waiter)
      ensures CanRelease(workers, master, w)
    {
      if
      case master.Asleep? =>
        w := TheMaster;
      case exists i :: 0 <= i < |workers| && workers[i].Waiting? =>
        var i :| 0 <= i < |workers| && workers[i].Waiting?;
        w := TheWorker(i);
      case master.Awake? && forall i :: 0 <= i < |workers| ==> !workers[i].Waiting? =>
        w := Nobody;
    }
  }
}
