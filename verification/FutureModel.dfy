/**
 A future under interleaving: the worker that runs the task, the thread that awaits it once, and
 everybody else.  Every step is what one thread does between two points where others may run.
 */
module FutureModel {
  import opened Addresses
  import O = Ownership

  type Tid = O.Tid

  datatype WorkerPc = Claiming | Running | Locking | Writing | Signalling | Unlocking | Exited

  /** `res` is the local variable of await once it was read. */
  datatype AwaitPc =
    | Away                  // spawned, await not called yet
    | Checking              // holds the mutex
    | Waiting               // blocked in cond_wait, not signalled
    | Woken                 // signalled or woken spuriously, without the mutex
    | Leaving(res: Addr)    // has read the result, holds the mutex
    | Joining(res: Addr)
    | Freeing(res: Addr)
    | Taking(res: Addr)     // future freed, about to claim the result
    | Returned(res: Addr)
    | Stopped               // fatal report

  datatype Mutex = Unheld | ByWorker | ByAwaiter

  datatype State = State(
    metas: map<Addr, O.Meta>,   // the live blocks of the registry
    f: Addr,                    // the future
    arg: Addr,
    home: Tid,                  // the spawning thread
    waiter: Tid,                // the awaiting thread
    worker: Tid,
    value: Addr,                // what the task returned, once it has
    result: Addr,               // the fields of the future
    ready: bool,
    mutex: Mutex,
    w: WorkerPc,
    a: AwaitPc)

  datatype Step =
    | WorkerClaims | TaskReturns(v: Addr) | WorkerLocks | WorkerWrites | WorkerSignals | WorkerUnlocks
    | AwaitLocks | AwaitChecks | AwaitUnlocks | AwaitJoins | AwaitFrees | AwaitClaims
    | Spurious
    | OnFuture(op: Op, t: Tid)        // a registry operation of any thread on the future
    | Elsewhere(x: Addr, m: O.Meta)   // any registry operation on another block that leaves it live
    | Vanish(x: Addr)                 // a block that is not in transit is freed

  /** What clients may do with a future that they hold, short of freeing it. */
  datatype Op = Claim | Share | Borrow | Release

  predicate Live(metas: map<Addr, O.Meta>, x: Addr) {
    x in metas && metas[x].state != O.Freed
  }

  predicate TaskDone(s: State) {
    !s.w.Claiming? && !s.w.Running?
  }

  predicate FutureFreed(s: State) {
    s.a.Taking? || s.a.Returned?
  }

  /** Blocks that must not be freed: the future, the argument and the result on their way. */
  predicate InTransit(s: State, x: Addr) {
    || (x == s.f && !FutureFreed(s))
    || (x == s.arg && s.w.Claiming?)
    || (x == s.value && TaskDone(s) && !s.a.Returned?)
  }

  predicate Legal(s: State, e: Step) {
    match e
    case WorkerClaims => s.w.Claiming?
    case TaskReturns(v) => s.w.Running? && (v == NULL || (Live(s.metas, v) && v != s.f))
    case WorkerLocks => s.w.Locking? && s.mutex.Unheld?
    case WorkerWrites => s.w.Writing?
    case WorkerSignals => s.w.Signalling?
    case WorkerUnlocks => s.w.Unlocking?
    case AwaitLocks => (s.a.Away? || s.a.Woken?) && s.mutex.Unheld?
    case AwaitChecks => s.a.Checking?
    case AwaitUnlocks => s.a.Leaving?
    case AwaitJoins => s.a.Joining? && s.w.Exited?
    case AwaitFrees => s.a.Freeing?
    case AwaitClaims => s.a.Taking?
    case Spurious => s.a.Waiting?
    case OnFuture(_, _) => !FutureFreed(s) && s.f in s.metas
    case Elsewhere(x, m) => (x == s.f ==> FutureFreed(s)) && m.state != O.Freed
    case Vanish(x) => !InTransit(s, x)
  }

  function ClaimIf(metas: map<Addr, O.Meta>, x: Addr, t: Tid): map<Addr, O.Meta> {
    if x != NULL && x in metas then metas[x := O.Claim(metas[x], t)] else metas
  }

  /** The header after an operation; a report changes nothing and concerns the thread that gets it. */
  function Operate(m: O.Meta, op: Op, t: Tid): O.Meta {
    var v := match op
             case Claim => O.Ok(O.Claim(m, t))
             case Share => O.Share(m, t)
             case Borrow => O.Borrow(m, t)
             case Release => O.Release(m);
    if v.Ok? then v.meta else m
  }

  function DoFree(s: State): State {
    if s.f !in s.metas || O.Free(s.metas[s.f], s.waiter).Fatal? then s.(a := Stopped)
    else s.(metas := s.metas - {s.f}, a := if s.a.Freeing? then Taking(s.a.res) else s.a)
  }

  function Next(s: State, e: Step): State {
    if !Legal(s, e) then s
    else match e
      case WorkerClaims => s.(metas := ClaimIf(s.metas, s.arg, s.worker), w := Running)
      case TaskReturns(v) => s.(value := v, w := Locking)
      case WorkerLocks => s.(mutex := ByWorker, w := Writing)
      case WorkerWrites => s.(result := s.value, ready := true, w := Signalling)
      case WorkerSignals => s.(a := if s.a.Waiting? then Woken else s.a, w := Unlocking)
      case WorkerUnlocks => s.(mutex := Unheld, w := Exited)
      case AwaitLocks => s.(mutex := ByAwaiter, a := Checking)
      case AwaitChecks => if s.ready then s.(a := Leaving(s.result)) else s.(mutex := Unheld, a := Waiting)
      case AwaitUnlocks => s.(mutex := Unheld, a := Joining(s.a.res))
      case AwaitJoins => s.(a := Freeing(s.a.res))
      case AwaitFrees => DoFree(s)
      case AwaitClaims => s.(metas := ClaimIf(s.metas, s.a.res, s.waiter), a := Returned(s.a.res))
      case Spurious => s.(a := Woken)
      case OnFuture(op, t) => s.(metas := s.metas[s.f := Operate(s.metas[s.f], op, t)])
      case Elsewhere(x, m) => s.(metas := s.metas[x := m])
      case Vanish(x) => s.(metas := s.metas - {x})
  }

  /** What spawn leaves behind: the future just allocated by the spawning thread, the worker started. */
  predicate Spawned(s: State) {
    && s.f != NULL && s.f in s.metas && s.metas[s.f] == O.Meta(s.metas[s.f].id, s.metas[s.f].size, O.Owned, 0, s.home)
    && (s.arg != NULL ==> Live(s.metas, s.arg) && s.arg != s.f)
    && s.result == NULL && !s.ready && s.mutex.Unheld? && s.w.Claiming? && s.a.Away?
  }

  function Run(s: State, es: seq<Step>): State {
    if es == [] then s else Next(Run(s, es[..|es| - 1]), es[|es| - 1])
  }

  // ----- Invariants -----

  ghost predicate MutexInv(s: State) {
    && (s.w.Writing? || s.w.Signalling? || s.w.Unlocking? <==> s.mutex.ByWorker?)
    && (s.a.Checking? || s.a.Leaving? <==> s.mutex.ByAwaiter?)
  }

  /** The flag goes up with the result, and whatever await has read is the task's value. */
  ghost predicate ValueInv(s: State) {
    && (s.ready <==> s.w.Signalling? || s.w.Unlocking? || s.w.Exited?)
    && (s.ready ==> s.result == s.value)
    && (s.a.Leaving? || s.a.Joining? || s.a.Freeing? || s.a.Taking? || s.a.Returned? ==> s.ready && s.a.res == s.value)
  }

  ghost predicate WakeInv(s: State) {
    s.a.Waiting? && s.ready ==> s.w.Signalling?
  }

  /** The future lives until its worker has exited, and is freed only when its header allows it. */
  ghost predicate FutureInv(s: State) {
    && (s.a.Freeing? || FutureFreed(s) ==> s.w.Exited?)
    && (!FutureFreed(s) ==> Live(s.metas, s.f))
  }

  /** Argument and result are live until they are claimed. */
  ghost predicate TransitInv(s: State) {
    && (s.w.Claiming? && s.arg != NULL ==> Live(s.metas, s.arg) && s.arg != s.f)
    && (TaskDone(s) && !s.a.Returned? && s.value != NULL ==> Live(s.metas, s.value))
    && (TaskDone(s) && !FutureFreed(s) && s.value != NULL ==> s.value != s.f)
  }

  ghost predicate Inv(s: State) {
    MutexInv(s) && ValueInv(s) && WakeInv(s) && FutureInv(s) && TransitInv(s)
  }

  lemma StepKeepsInv(s: State, e: Step)
    requires Inv(s)
    ensures Inv(Next(s, e))
  {
  }

  lemma {:induction false} RunInv(s: State, es: seq<Step>)
    requires Spawned(s)
    ensures Inv(Run(s, es))
  {
    if es != [] {
      RunInv(s, es[..|es| - 1]);
      StepKeepsInv(Run(s, es[..|es| - 1]), es[|es| - 1]);
    }
  }

  // ----- The hand-off -----

  /** Await never sleeps once the result is there, unless its wake-up is about to be sent. */
  lemma {:induction false} NoSleepWhenReady(s: State, es: seq<Step>)
    requires Spawned(s) && Run(s, es).a.Waiting? && Run(s, es).ready
    ensures Legal(Run(s, es), WorkerSignals) && Next(Run(s, es), WorkerSignals).a.Woken?
  {
    RunInv(s, es);
  }

  /** The value of the task never changes once it is there. */
  lemma {:induction false} ValueStays(s: State, es: seq<Step>, later: seq<Step>)
    requires TaskDone(Run(s, es))
    ensures TaskDone(Run(s, es + later)) && Run(s, es + later).value == Run(s, es).value
  {
    if later == [] {
      assert es + later == es;
    } else {
      var n := |later| - 1;
      ValueStays(s, es, later[..n]);
      assert (es + later)[..|es + later| - 1] == es + later[..n];
    }
  }

  /** What await returns is what the task returned at its end, however much later. */
  lemma {:induction false} ReturnsTheValue(s: State, es: seq<Step>, later: seq<Step>, v: Addr)
    requires Spawned(s) && Legal(Run(s, es), TaskReturns(v))
    requires Run(s, es + [TaskReturns(v)] + later).a.Returned?
    ensures Run(s, es + [TaskReturns(v)] + later).a.res == v
  {
    var done := es + [TaskReturns(v)];
    assert done[..|done| - 1] == es;
    assert Run(s, done) == Next(Run(s, es), TaskReturns(v));
    ValueStays(s, done, later);
    RunInv(s, done + later);
  }

  /** Await does not return before the task has. */
  lemma {:induction false} ReturnsAfterTask(s: State, es: seq<Step>)
    requires Spawned(s) && Run(s, es).a.Returned?
    ensures TaskDone(Run(s, es)) && Run(s, es).a.res == Run(s, es).value
  {
    RunInv(s, es);
  }

  /** A non-NULL result ends up OWNED by the awaiting thread. */
  lemma {:induction false} ResultIsOwned(s: State, es: seq<Step>)
    requires Spawned(s) && Run(s, es).a.Taking? && Run(s, es).a.res != NULL
    ensures var s' := Next(Run(s, es), AwaitClaims);
      s'.a == Returned(s'.value) && s'.value in s'.metas && s'.metas[s'.value].state == O.Owned && s'.metas[s'.value].owner == s'.waiter
  {
    RunInv(s, es);
  }

  /** The worker takes no more steps once the future may be freed, and until then it is there. */
  lemma {:induction false} FreedAfterLastAccess(s: State, es: seq<Step>)
    requires Spawned(s)
    ensures FutureFreed(Run(s, es)) ==> Run(s, es).w.Exited?
    ensures !Run(s, es).w.Exited? ==> Live(Run(s, es).metas, s.f) && Run(s, es).f == s.f
  {
    RunInv(s, es);
    SameFuture(s, es);
  }

  lemma {:induction false} SameFuture(s: State, es: seq<Step>)
    ensures Run(s, es).f == s.f && Run(s, es).home == s.home && Run(s, es).waiter == s.waiter && Run(s, es).worker == s.worker
  {
    if es != [] { SameFuture(s, es[..|es| - 1]); }
  }

  /**
   Freeing the future passes the registry's checks exactly when at that moment nothing borrows it and
   it is SHARED or the awaiting thread owns it.
   */
  lemma {:induction false} FreeingPasses(s: State, es: seq<Step>)
    requires Spawned(s) && Run(s, es).a.Freeing?
    ensures s.f in Run(s, es).metas
    ensures var r := Run(s, es); var m := r.metas[s.f];
      Next(r, AwaitFrees).a == if m.borrows == 0 && (m.state == O.Shared || m.owner == s.waiter) then Taking(r.value) else Stopped
  {
    RunInv(s, es);
    SameFuture(s, es);
  }

  /** A future that nobody claims, shares or borrows keeps the header it was spawned with. */
  lemma {:induction false} Untouched(s: State, es: seq<Step>)
    requires Spawned(s) && forall i :: 0 <= i < |es| ==> !es[i].OnFuture?
    ensures !FutureFreed(Run(s, es)) ==> s.f in Run(s, es).metas && Run(s, es).metas[s.f] == s.metas[s.f]
  {
    if es != [] {
      var init := es[..|es| - 1];
      Untouched(s, init);
      RunInv(s, init);
      SameFuture(s, init);
      HeaderStays(Run(s, init), es[|es| - 1]);
    }
  }

  lemma HeaderStays(s: State, e: Step)
    requires Inv(s) && !e.OnFuture?
    ensures !FutureFreed(Next(s, e)) ==> !FutureFreed(s) && s.f in Next(s, e).metas && Next(s, e).metas[s.f] == s.metas[s.f]
  {
  }

  /** So freeing an untouched future passes exactly when the spawning thread awaits it. */
  lemma {:induction false} FreeingUntouched(s: State, es: seq<Step>)
    requires Spawned(s) && Run(s, es).a.Freeing? && forall i :: 0 <= i < |es| ==> !es[i].OnFuture?
    ensures Next(Run(s, es), AwaitFrees).a == (if s.waiter == s.home then Taking(Run(s, es).value) else Stopped)
  {
    FreeingPasses(s, es);
    Untouched(s, es);
  }

  /** The task runs with its argument OWNED by the worker. */
  lemma {:induction false} ArgumentIsClaimed(s: State, es: seq<Step>)
    requires Spawned(s) && Run(s, es).w.Claiming? && Run(s, es).arg != NULL
    ensures var s' := Next(Run(s, es), WorkerClaims);
      s'.w.Running? && s'.arg in s'.metas && s'.metas[s'.arg].state == O.Owned && s'.metas[s'.arg].owner == s'.worker
  {
    RunInv(s, es);
  }

  // ----- Step by step -----

  /** The header after a claim of `t`. */
  function Claimed(m: O.Meta, t: Tid): O.Meta {
    O.Meta(m.id, m.size, O.Owned, m.borrows, t)
  }

  /** What the worker does at each point: it waits for nothing but the mutex, and a task may return any live block. */
  lemma WorkerSteps(s: State, v: Addr)
    ensures s.w.Claiming? && s.arg != NULL && s.arg in s.metas ==>
      Next(s, WorkerClaims) == s.(metas := s.metas[s.arg := Claimed(s.metas[s.arg], s.worker)], w := Running)
    ensures s.w.Claiming? && s.arg == NULL ==> Next(s, WorkerClaims) == s.(w := Running)
    ensures s.w.Running? && (v == NULL || (v in s.metas && s.metas[v].state != O.Freed && v != s.f)) ==>
      Next(s, TaskReturns(v)) == s.(value := v, w := Locking)
    ensures s.w.Locking? && s.mutex.Unheld? ==> Next(s, WorkerLocks) == s.(mutex := ByWorker, w := Writing)
    ensures s.w.Writing? ==> Next(s, WorkerWrites) == s.(result := s.value, ready := true, w := Signalling)
    ensures s.w.Signalling? ==> Next(s, WorkerSignals) == s.(a := if s.a.Waiting? then Woken else s.a, w := Unlocking)
    ensures s.w.Unlocking? ==> Next(s, WorkerUnlocks) == s.(mutex := Unheld, w := Exited)
  {
  }

  /** What await does at each point: it waits for the mutex, for the flag and for the worker's exit. */
  lemma AwaitSteps(s: State)
    ensures (s.a.Away? || s.a.Woken?) && s.mutex.Unheld? ==> Next(s, AwaitLocks) == s.(mutex := ByAwaiter, a := Checking)
    ensures s.a.Checking? && s.ready ==> Next(s, AwaitChecks) == s.(a := Leaving(s.result))
    ensures s.a.Checking? && !s.ready ==> Next(s, AwaitChecks) == s.(mutex := Unheld, a := Waiting)
    ensures s.a.Waiting? ==> Next(s, Spurious) == s.(a := Woken)
    ensures s.a.Leaving? ==> Next(s, AwaitUnlocks) == s.(mutex := Unheld, a := Joining(s.a.res))
    ensures s.a.Joining? && s.w.Exited? ==> Next(s, AwaitJoins) == s.(a := Freeing(s.a.res))
    ensures s.a.Freeing? && s.f in s.metas ==>
      var m := s.metas[s.f];
      Next(s, AwaitFrees) == if m.state == O.Freed || m.borrows > 0 || (m.state != O.Shared && m.owner != s.waiter)
                             then s.(a := Stopped) else s.(metas := s.metas - {s.f}, a := Taking(s.a.res))
    ensures s.a.Taking? && s.a.res != NULL && s.a.res in s.metas ==>
      Next(s, AwaitClaims) == s.(metas := s.metas[s.a.res := Claimed(s.metas[s.a.res], s.waiter)], a := Returned(s.a.res))
    ensures s.a.Taking? && s.a.res == NULL ==> Next(s, AwaitClaims) == s.(a := Returned(NULL))
  {
  }

  /** The worker gets on from every point of every run: the mutex is free, its own, or await's who can go on. */
  lemma {:induction false} WorkerGoesOn(s: State, es: seq<Step>, v: Addr) returns (e: Step)
    requires Spawned(s) && !Run(s, es).w.Exited?
    requires v == NULL || (Live(Run(s, es).metas, v) && v != Run(s, es).f)
    ensures var r := Run(s, es);
      Legal(r, e) && (Next(r, e).w != r.w || (r.w.Locking? && r.mutex.ByAwaiter? && Next(r, e).a != r.a))
    ensures Run(s, es).w.Running? ==> Next(Run(s, es), e).value == v
  {
    RunInv(s, es);
    var r := Run(s, es);
    match r.w
    case Claiming => e := WorkerClaims;
    case Running => e := TaskReturns(v);
    case Locking => e := if r.mutex.Unheld? then WorkerLocks else if r.a.Checking? then AwaitChecks else AwaitUnlocks;
    case Writing => e := WorkerWrites;
    case Signalling => e := WorkerSignals;
    case Unlocking => e := WorkerUnlocks;
  }

  /** So does await once the worker has exited. */
  lemma {:induction false} AwaitGoesOn(s: State, es: seq<Step>) returns (e: Step)
    requires Spawned(s) && Run(s, es).w.Exited? && !Run(s, es).a.Returned? && !Run(s, es).a.Stopped?
    ensures Legal(Run(s, es), e) && !e.Spurious? && Next(Run(s, es), e).a != Run(s, es).a
  {
    RunInv(s, es);
    match Run(s, es).a
    case Checking => e := AwaitChecks;
    case Leaving(_) => e := AwaitUnlocks;
    case Joining(_) => e := AwaitJoins;
    case Freeing(_) => e := AwaitFrees;
    case Taking(_) => e := AwaitClaims;
    case _ => e := AwaitLocks;
  }

  /** Unless await is over or the task still runs, one of the two threads can get further. */
  lemma {:induction false} NeverStuck(s: State, es: seq<Step>) returns (e: Step)
    requires Spawned(s) && !Run(s, es).a.Returned? && !Run(s, es).a.Stopped? && !Run(s, es).w.Running?
    ensures Legal(Run(s, es), e) && !e.Spurious? && !e.Elsewhere? && !e.Vanish?
    ensures Next(Run(s, es), e).w != Run(s, es).w || Next(Run(s, es), e).a != Run(s, es).a
  {
    RunInv(s, es);
    var r := Run(s, es);
    match r.w {
      case Claiming => e := WorkerClaims;
      case Writing => e := WorkerWrites;
      case Signalling => e := WorkerSignals;
      case Unlocking => e := WorkerUnlocks;
      case _ =>
        match r.a {
          case Checking => e := AwaitChecks;
          case Leaving(_) => e := AwaitUnlocks;
          case _ =>
            e := if r.w.Locking? then WorkerLocks
                 else if r.a.Joining? then AwaitJoins
                 else if r.a.Freeing? then AwaitFrees
                 else if r.a.Taking? then AwaitClaims
                 else AwaitLocks;
        }
    }
  }
}
