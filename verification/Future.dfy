/**
 The future as the code keeps it: the argument, the result and the flag, written by the worker and read
 by await.  Every method is one step of `FutureModel`; between calls any thread may run.
 */
module Future {
  import opened Addresses
  import opened FutureModel
  import O = Ownership

  class Runtime {
    var arg: Addr
    var result: Addr
    var isReady: bool
    ghost var s: State

    ghost predicate Valid()
      reads this
    {
      Inv(s) && arg == s.arg && result == s.result && isReady == s.ready
    }

    /** Spawning: the block comes from the registry, the worker starts at once. */
    constructor (a: Addr, f: Addr, ghost metas: map<Addr, O.Meta>, home: Tid, ghost waiter: Tid, worker: Tid, ghost id: int, size: nat)
      requires f != NULL && f !in metas && (a != NULL ==> Live(metas, a))
      ensures Valid() && Spawned(s) && s.f == f && s.arg == a && s.home == home && s.waiter == waiter && s.worker == worker
      ensures s.metas == metas[f := O.Meta(id, size, O.Owned, 0, home)]
    {
      arg, result, isReady := a, NULL, false;
      s := State(metas[f := O.Meta(id, size, O.Owned, 0, home)], f, a, home, waiter, worker, NULL, NULL, false, Unheld, Claiming, Away);
      new;
      RunInv(s, []);
    }

    /** The steps that do not touch the fields. */
    ghost method Happens(e: Step)
      requires Valid() && !e.WorkerWrites? && !e.AwaitChecks?
      modifies this`s
      ensures Valid() && s == Next(old(s), e)
    {
      StepKeepsInv(s, e);
      s := Next(s, e);
    }

    /** The critical section of the worker, without the signal. */
    method Fulfil(res: Addr)
      requires Valid() && s.w.Writing? && res == s.value
      modifies this
      ensures Valid() && s == Next(old(s), WorkerWrites) && isReady && result == res && arg == old(arg)
    {
      StepKeepsInv(s, WorkerWrites);
      result := res;
      isReady := true;
      s := Next(s, WorkerWrites);
    }

    /** One test of the wait loop: not ready blocks, ready reads the task's value. */
    method Check() returns (done: bool, res: Addr)
      requires Valid() && s.a.Checking?
      modifies this`s
      ensures Valid() && s == Next(old(s), AwaitChecks)
      ensures done ==> TaskDone(s) && res == s.value && s.a == Leaving(res)
      ensures !done ==> s.a.Waiting? && s.mutex.Unheld?
    {
      StepKeepsInv(s, AwaitChecks);
      done := isReady;
      res := result;
      s := Next(s, AwaitChecks);
    }
  }
}
