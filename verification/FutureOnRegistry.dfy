/**
 Runs of a future and the registry together, from the spawn in any state the registry can be in: the
 worker and the awaiting thread take their steps, and every thread does anything else in the registry,
 with the future too, short of freeing or resizing what is in transit.  A thread goes on when its call
 into the registry is over.
 */
module FutureOnRegistry {
  import opened Addresses
  import opened HandOff
  import O = Ownership
  import R = RegistryModel
  import F = FutureModel

  datatype Joint = Joint(s: R.State, f: F.State)

  /** A step of the worker or the awaiting thread, or one of any thread in the registry. */
  datatype Act = Inside(inner: F.Step) | Outside(outer: R.Step)

  /** Steps of the future's model that stand for what happens in the registry. */
  predicate Echoed(e: F.Step) {
    e.OnFuture? || e.Elsewhere? || e.Vanish?
  }

  /** Whose step it is. */
  predicate ByWorker(e: F.Step) {
    e.WorkerClaims? || e.TaskReturns? || e.WorkerLocks? || e.WorkerWrites? || e.WorkerSignals? || e.WorkerUnlocks?
  }

  function ThreadOf(f: F.State, e: F.Step): O.Tid {
    if ByWorker(e) then f.worker else f.waiter
  }

  /** The registry step that a step of the future is, if it is one. */
  ghost function Call(j: Joint, e: F.Step): seq<R.Step> {
    match e
    case WorkerClaims => if j.f.arg == NULL then [] else [R.Claim(j.f.worker, j.f.arg)]
    case AwaitFrees => [R.FreeDecide(j.f.waiter, j.f.f)]
    case AwaitClaims => if !j.f.a.Taking? || j.f.a.res == NULL then [] else [R.Claim(j.f.waiter, j.f.a.res)]
    case _ => []
  }

  /** The rules of clients, and nothing about the calls the future makes itself. */
  ghost predicate Allowed(j: Joint, act: Act) {
    match act
    case Inside(e) =>
      && F.Legal(j.f, e) && !Echoed(e) && R.PcOf(j.s, ThreadOf(j.f, e)).Idle?
      && (e.TaskReturns? && e.v != NULL ==> e.v in j.s.blocks && j.s.blocks[e.v].place.Listed?)
    case Outside(e) =>
      R.Legal(j.s, e) && forall a :: a in Touched(j.s, e) && F.InTransit(j.f, a) ==> Keeping(e)
  }

  function OpOf(e: R.Step): F.Op
    requires Keeping(e)
  {
    match e
    case Claim(_, _) => F.Claim
    case Share(_, _) => F.Share
    case Borrow(_, _) => F.Borrow
    case Release(_, _) => F.Release
  }

  /** How the future sees a registry step. */
  ghost function Seen(j: Joint, e: R.Step): seq<F.Step>
    requires R.Legal(j.s, e)
  {
    if Keeping(e) && e.a == j.f.f && !F.FutureFreed(j.f) then [F.OnFuture(OpOf(e), e.t)] else FutureEcho(j.s, e)
  }

  ghost function Next(j: Joint, act: Act): Joint {
    if !Allowed(j, act) then j
    else match act
      case Inside(e) => Joint(Calls(j.s, Call(j, e)), F.Next(j.f, e))
      case Outside(e) => Joint(R.Next(j.s, e), F.Run(j.f, Seen(j, e)))
  }

  ghost function Run(j: Joint, acts: seq<Act>): Joint {
    if acts == [] then j else Next(Run(j, acts[..|acts| - 1]), acts[|acts| - 1])
  }

  // ----- What holds of every joint state -----

  /** What is in transit is published in the registry. */
  ghost predicate Published(blocks: R.Blocks, f: F.State) {
    forall a :: F.InTransit(f, a) && a != NULL ==> a in blocks && blocks[a].place.Listed?
  }

  ghost predicate Inv(j: Joint) {
    FutureOn(j.f, j.s) && R.Inv(j.s) && F.Inv(j.f) && Published(j.s.blocks, j.f)
  }

  /** A future just spawned in a state that the registry has run to. */
  ghost predicate Spawned(es: seq<R.Step>, f: F.State) {
    F.Spawned(f) && FutureOn(f, R.Run(es)) && Published(R.Run(es).blocks, f)
  }

  /** Such spawns are reached from the empty registry. */
  lemma {:induction false} SpawnExists(t: O.Tid, u: O.Tid, a: Addr, size: nat) returns (es: seq<R.Step>, f: F.State)
    requires a != NULL
    ensures Spawned(es, f) && f.f == a && f.home == t && f.worker == u
  {
    es := [R.Malloc(t, a, size)] + [R.Insert(t)];
    RegistryRunOn([], R.Malloc(t, a, size));
    RegistryRunOn([R.Malloc(t, a, size)], R.Insert(t));
    assert [] + [R.Malloc(t, a, size)] == [R.Malloc(t, a, size)];
    var m := O.Fresh(0, size, t);
    assert R.Run([R.Malloc(t, a, size)]).blocks == map[a := R.Block(m, R.Loose(t))];
    assert R.Run(es).blocks == map[a := R.Block(m, R.Listed)];
    f := F.State(map[a := m], a, NULL, t, t, u, NULL, NULL, false, F.Unheld, F.Claiming, F.Away);
    assert Headers(R.Run(es).blocks) == map[a := m];
  }

  lemma {:induction false} SpawnInv(es: seq<R.Step>, f: F.State)
    requires Spawned(es, f)
    ensures Inv(Joint(R.Run(es), f))
  {
    R.RunInv(es);
    F.RunInv(f, []);
  }

  // ----- Outside -----

  /** Steps elsewhere and on the future change no more than headers. */
  lemma EchoKeeps(f: F.State, e: F.Step)
    requires Echoed(e)
    ensures F.Next(f, e) == f.(metas := F.Next(f, e).metas)
  {
  }

  lemma {:induction false} EchoesKeep(f: F.State, es: seq<F.Step>)
    requires forall i :: 0 <= i < |es| ==> Echoed(es[i])
    ensures F.Run(f, es) == f.(metas := F.Run(f, es).metas)
  {
    if es != [] {
      EchoesKeep(f, es[..|es| - 1]);
      EchoKeeps(F.Run(f, es[..|es| - 1]), es[|es| - 1]);
    }
  }

  lemma OutsidePublished(j: Joint, e: R.Step)
    requires R.Sane(j.s) && Published(j.s.blocks, j.f) && Allowed(j, Outside(e))
    ensures Published(R.Next(j.s, e).blocks, j.f)
  {
    forall a | F.InTransit(j.f, a) && a != NULL
      ensures a in R.Next(j.s, e).blocks && R.Next(j.s, e).blocks[a].place.Listed?
    {
      ListedStays(j.s, e, a);
    }
  }

  lemma KeptLive(s: R.State, e: R.Step)
    requires Ready(s) && R.Legal(s, e) && Keeping(e) && e.a in Headers(s.blocks)
    ensures e.a in Headers(R.Next(s, e).blocks)
  {
  }

  lemma OutsideSeen(j: Joint, e: R.Step)
    requires FutureOn(j.f, j.s) && Ready(j.s) && F.Inv(j.f) && Allowed(j, Outside(e))
    ensures FutureOn(F.Run(j.f, Seen(j, e)), R.Next(j.s, e))
  {
    if Keeping(e) && e.a == j.f.f && !F.FutureFreed(j.f) {
      OnFutureInRegistry(j.f, j.s, OpOf(e), e.t);
      var x := F.OnFuture(OpOf(e), e.t);
      RunSteps(j.f, x, x);
    } else {
      forall a | a in Touched(j.s, e) && F.InTransit(j.f, a)
        ensures R.InPlace(e) && (a == j.f.f ==> F.FutureFreed(j.f)) && a in Headers(R.Next(j.s, e).blocks)
      {
        assert a == e.a;
        Listens(j, e, a);
      }
      FutureFollowsRegistry(j.f, j.s, e);
    }
  }

  lemma Listens(j: Joint, e: R.Step, a: Addr)
    requires FutureOn(j.f, j.s) && Ready(j.s) && F.Inv(j.f) && R.Legal(j.s, e) && Keeping(e)
    requires a == e.a && F.InTransit(j.f, a)
    ensures a in Headers(R.Next(j.s, e).blocks)
  {
    assert a in j.s.blocks && a != NULL;
    assert a in j.f.metas;
    KeptLive(j.s, e);
  }

  lemma SeenIsEchoed(j: Joint, e: R.Step)
    requires R.Legal(j.s, e)
    ensures forall i :: 0 <= i < |Seen(j, e)| ==> Echoed(Seen(j, e)[i])
  {
  }

  lemma {:induction false} FollowInv(f: F.State, es: seq<F.Step>)
    requires F.Inv(f)
    ensures F.Inv(F.Run(f, es))
  {
    if es != [] {
      FollowInv(f, es[..|es| - 1]);
      F.StepKeepsInv(F.Run(f, es[..|es| - 1]), es[|es| - 1]);
    }
  }

  lemma OutsideStep(j: Joint, e: R.Step)
    requires Inv(j) && Allowed(j, Outside(e))
    ensures Inv(Next(j, Outside(e)))
  {
    OutsideSeen(j, e);
    OutsidePublished(j, e);
    SeenIsEchoed(j, e);
    EchoesKeep(j.f, Seen(j, e));
    R.StepKeepsInv(j.s, e);
    FollowInv(j.f, Seen(j, e));
  }

  // ----- Inside -----

  /** Wherever the worker or the awaiting thread may go on, the registry call it makes is legal. */
  lemma CallIsLegal(j: Joint, e: F.Step)
    requires FutureOn(j.f, j.s) && Ready(j.s) && F.Inv(j.f) && Published(j.s.blocks, j.f) && Allowed(j, Inside(e))
    ensures forall x :: x in Call(j, e) ==> R.Legal(j.s, x)
  {
    if e.WorkerClaims? {
      assert F.InTransit(j.f, j.f.arg);
    } else if e.AwaitFrees? {
      assert F.InTransit(j.f, j.f.f);
    } else if e.AwaitClaims? {
      assert F.InTransit(j.f, j.f.value);
    }
  }

  /** The three steps that call, in the registry. */
  lemma CallingStep(j: Joint, e: F.Step)
    requires FutureOn(j.f, j.s) && Ready(j.s) && F.Inv(j.f) && Published(j.s.blocks, j.f) && Allowed(j, Inside(e))
    ensures FutureOn(F.Next(j.f, e), Calls(j.s, Call(j, e)))
  {
    CallIsLegal(j, e);
    if e.WorkerClaims? {
      if j.f.arg != NULL { WorkerClaimsInRegistry(j.f, j.s); }
    } else if e.AwaitFrees? {
      FreesFutureInRegistry(j.f, j.s);
    } else if e.AwaitClaims? {
      if j.f.a.res != NULL { AwaitClaimsInRegistry(j.f, j.s); }
    }
  }

  /** What is still in transit after a step was so before, or is the result the task just returned. */
  lemma TransitAfter(f: F.State, e: F.Step, a: Addr)
    requires F.Legal(f, e) && !Echoed(e) && F.InTransit(F.Next(f, e), a)
    ensures F.InTransit(f, a) || (e.TaskReturns? && a == e.v)
  {
  }

  lemma CalledStays(j: Joint, e: F.Step, a: Addr)
    requires R.Sane(j.s) && F.Inv(j.f) && Published(j.s.blocks, j.f) && Allowed(j, Inside(e))
    requires a in j.s.blocks && j.s.blocks[a].place.Listed? && (e.AwaitFrees? ==> a != j.f.f || F.Next(j.f, e).a.Stopped?)
    requires FutureOn(j.f, j.s)
    ensures var s' := Calls(j.s, Call(j, e)); a in s'.blocks && s'.blocks[a].place.Listed?
  {
    CallIsLegal(j, e);
    if Call(j, e) != [] {
      var x := Call(j, e)[0];
      if e.AwaitFrees? && a == j.f.f {
        assert R.Next(j.s, x).blocks == j.s.blocks;
      } else {
        ListedStays(j.s, x, a);
      }
    }
  }

  lemma InsidePublished(j: Joint, e: F.Step)
    requires FutureOn(j.f, j.s) && R.Sane(j.s) && F.Inv(j.f) && Published(j.s.blocks, j.f) && Allowed(j, Inside(e))
    ensures Published(Calls(j.s, Call(j, e)).blocks, F.Next(j.f, e))
  {
    F.StepKeepsInv(j.f, e);
    forall a | F.InTransit(F.Next(j.f, e), a) && a != NULL
      ensures var s' := Calls(j.s, Call(j, e)); a in s'.blocks && s'.blocks[a].place.Listed?
    {
      TransitAfter(j.f, e, a);
      CalledStays(j, e, a);
    }
  }

  lemma InsideStep(j: Joint, e: F.Step)
    requires Inv(j) && Allowed(j, Inside(e))
    ensures Inv(Next(j, Inside(e)))
  {
    CallingStep(j, e);
    InsidePublished(j, e);
    F.StepKeepsInv(j.f, e);
    if Call(j, e) != [] { R.StepKeepsInv(j.s, Call(j, e)[0]); }
  }

  // ----- Joint runs -----

  lemma StepKeepsInv(j: Joint, act: Act)
    requires Inv(j)
    ensures Inv(Next(j, act))
  {
    if Allowed(j, act) {
      match act
      case Inside(e) => InsideStep(j, e);
      case Outside(e) => OutsideStep(j, e);
    }
  }

  lemma {:induction false} RunKeepsInv(j: Joint, acts: seq<Act>)
    requires Inv(j)
    ensures Inv(Run(j, acts))
  {
    if acts != [] {
      RunKeepsInv(j, acts[..|acts| - 1]);
      StepKeepsInv(Run(j, acts[..|acts| - 1]), acts[|acts| - 1]);
    }
  }

  /** In every state of every joint run the future's view is the registry's, and both invariants hold. */
  lemma {:induction false} RunInv(es: seq<R.Step>, f: F.State, acts: seq<Act>)
    requires Spawned(es, f)
    ensures Inv(Run(Joint(R.Run(es), f), acts))
  {
    SpawnInv(es, f);
    RunKeepsInv(Joint(R.Run(es), f), acts);
  }

  /** The three calls into the registry are legal steps of it in every joint run. */
  lemma {:induction false} CallsAreLegal(es: seq<R.Step>, f: F.State, acts: seq<Act>, e: F.Step)
    requires Spawned(es, f) && Allowed(Run(Joint(R.Run(es), f), acts), Inside(e))
    ensures var j := Run(Joint(R.Run(es), f), acts); forall x :: x in Call(j, e) ==> R.Legal(j.s, x)
  {
    RunInv(es, f, acts);
    CallIsLegal(Run(Joint(R.Run(es), f), acts), e);
  }

  // ----- A joint run is a run of either -----

  lemma {:induction false} FutureRunOn(f: F.State, es: seq<F.Step>, xs: seq<F.Step>)
    ensures F.Run(F.Run(f, es), xs) == F.Run(f, es + xs)
  {
    if xs == [] {
      assert es + xs == es;
    } else {
      FutureRunOn(f, es, xs[..|xs| - 1]);
      assert (es + xs)[..|es + xs| - 1] == es + xs[..|xs| - 1];
    }
  }

  /** The registry of a joint run is one that `RegistryModel` runs to, so all that is proved of those holds. */
  lemma {:induction false} IsRegistryRun(es: seq<R.Step>, f: F.State, acts: seq<Act>) returns (all: seq<R.Step>)
    ensures Run(Joint(R.Run(es), f), acts).s == R.Run(all)
  {
    all := es;
    if acts != [] {
      var j, act := Run(Joint(R.Run(es), f), acts[..|acts| - 1]), acts[|acts| - 1];
      all := IsRegistryRun(es, f, acts[..|acts| - 1]);
      if Allowed(j, act) {
        if act.Outside? {
          RegistryRunOn(all, act.outer);
          all := all + [act.outer];
        } else if Call(j, act.inner) != [] {
          RegistryRunOn(all, Call(j, act.inner)[0]);
          all := all + [Call(j, act.inner)[0]];
        }
      }
    }
  }

  /** And the future is one that `FutureModel` runs to from its spawn. */
  lemma {:induction false} IsFutureRun(j0: Joint, acts: seq<Act>) returns (es: seq<F.Step>)
    ensures Run(j0, acts).f == F.Run(j0.f, es)
  {
    es := [];
    if acts != [] {
      var j, act := Run(j0, acts[..|acts| - 1]), acts[|acts| - 1];
      es := IsFutureRun(j0, acts[..|acts| - 1]);
      if Allowed(j, act) {
        var xs := if act.Outside? then Seen(j, act.outer) else [act.inner];
        FutureRunOn(j0.f, es, xs);
        if act.Inside? { RunSteps(j.f, act.inner, act.inner); }
        es := es + xs;
      }
    }
  }

  /**
   While both threads' calls into the registry are over, the worker or the awaiting thread goes on in
   every joint state, until await has returned or was stopped; the task may end then with NULL.
   */
  lemma {:induction false} GoesOn(es: seq<R.Step>, f: F.State, acts: seq<Act>) returns (act: Act)
    requires Spawned(es, f)
    requires var j := Run(Joint(R.Run(es), f), acts); R.PcOf(j.s, j.f.worker).Idle? && R.PcOf(j.s, j.f.waiter).Idle?
    requires var j := Run(Joint(R.Run(es), f), acts); !j.f.a.Returned? && !j.f.a.Stopped?
    ensures var j := Run(Joint(R.Run(es), f), acts); var j' := Next(j, act);
      Allowed(j, act) && act.Inside? && (j'.f.w != j.f.w || j'.f.a != j.f.a)
  {
    var j0 := Joint(R.Run(es), f);
    var j := Run(j0, acts);
    var xs := IsFutureRun(j0, acts);
    SpawnIs(es, f);
    var e;
    if j.f.w.Running? {
      e := F.TaskReturns(NULL);
      F.WorkerSteps(j.f, NULL);
    } else {
      e := F.NeverStuck(f, xs);
      OnFutureStays(j.f, e);
    }
    hide R.Run, F.Run, Spawned;
    act := Inside(e);
  }

  lemma SpawnIs(es: seq<R.Step>, f: F.State)
    requires Spawned(es, f)
    ensures F.Spawned(f)
  {
  }

  lemma OnFutureStays(f: F.State, e: F.Step)
    ensures e.OnFuture? ==> F.Next(f, e).w == f.w && F.Next(f, e).a == f.a
    ensures e.TaskReturns? && F.Legal(f, e) ==> f.w.Running?
  {
  }
}
