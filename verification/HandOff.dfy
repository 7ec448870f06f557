/**
 The channel and the future on the registry proved in `RegistryModel`: their view of the live blocks is
 the registry's, and each of their steps that touches a block is the registry's step on that block.
 */
module HandOff {
  import opened Addresses
  import O = Ownership
  import R = RegistryModel
  import C = ChannelModel
  import F = FutureModel

  type Metas = map<Addr, O.Meta>

  /** The live blocks of the registry with their headers. */
  ghost function Headers(blocks: R.Blocks): Metas {
    map a | a in blocks && blocks[a].meta.state != O.Freed :: blocks[a].meta
  }

  lemma HeadersPut(blocks: R.Blocks, a: Addr, b: R.Block)
    ensures Headers(blocks[a := b]) == if b.meta.state != O.Freed then Headers(blocks)[a := b.meta] else Headers(blocks) - {a}
  {
  }

  lemma HeadersSame(blocks: R.Blocks, a: Addr, b: R.Block)
    requires a in blocks && b.meta == blocks[a].meta
    ensures Headers(blocks[a := b]) == Headers(blocks)
  {
  }

  lemma HeadersMoved(blocks: R.Blocks, a: Addr, a': Addr, b: R.Block)
    requires b.meta.state != O.Freed
    ensures Headers((blocks - {a})[a' := b]) == (Headers(blocks) - {a})[a' := b.meta]
  {
  }

  /** A verdict applied to a live block. */
  ghost function Judged(m: Metas, a: Addr, v: O.Verdict): Metas {
    if v.Ok? then m[a := v.meta] else m
  }

  /** What each step of the registry makes of its live blocks. */
  ghost function After(s: R.State, e: R.Step): Metas
    requires R.Legal(s, e) && (e.ReallocMove? ==> R.PcOf(s, e.t).a in s.blocks)
  {
    var m := Headers(s.blocks);
    match e
    case Malloc(t, a, size) => m[a := O.Fresh(s.h.allocs, size, t)]
    case FreeDecide(t, a) => if O.Free(s.blocks[a].meta, t).Ok? then m - {a} else m
    case Claim(t, a) => m[a := O.Claim(s.blocks[a].meta, t)]
    case Borrow(t, a) => Judged(m, a, O.Borrow(s.blocks[a].meta, t))
    case Release(t, a) => Judged(m, a, O.Release(s.blocks[a].meta))
    case Share(t, a) => Judged(m, a, O.Share(s.blocks[a].meta, t))
    case ReallocMove(t, a') => (m - {s.pc[t].a})[a' := s.blocks[s.pc[t].a].meta.(size := s.pc[t].size)]
    case _ => m
  }

  lemma AfterJudged(s: R.State, e: R.Step)
    requires R.MetaInv(s.blocks) && R.Legal(s, e) && (e.Borrow? || e.Release? || e.Share?)
    ensures Headers(R.Next(s, e).blocks) == After(s, e)
  {
    var b := s.blocks[e.a];
    match e
    case Borrow(t, a) => if O.Borrow(b.meta, t).Ok? { HeadersPut(s.blocks, a, b.(meta := O.Borrow(b.meta, t).meta)); }
    case Release(t, a) => if O.Release(b.meta).Ok? { HeadersPut(s.blocks, a, b.(meta := O.Release(b.meta).meta)); }
    case Share(t, a) => if O.Share(b.meta, t).Ok? { HeadersPut(s.blocks, a, b.(meta := O.Share(b.meta, t).meta)); }
  }

  lemma AfterInPlace(s: R.State, e: R.Step)
    requires R.MetaInv(s.blocks) && R.Legal(s, e) && R.InPlace(e)
    ensures Headers(R.Next(s, e).blocks) == After(s, e)
  {
    match e
    case Malloc(t, a, size) => HeadersPut(s.blocks, a, R.Block(O.Fresh(s.h.allocs, size, t), R.Loose(t)));
    case FreeDecide(t, a) =>
      var v := O.Free(s.blocks[a].meta, t);
      if v.Ok? { HeadersPut(s.blocks, a, R.Block(v.meta, R.Doomed(t))); }
    case Claim(t, a) => HeadersPut(s.blocks, a, s.blocks[a].(meta := O.Claim(s.blocks[a].meta, t)));
    case ReallocCheck(t, a, size) =>
      if O.Realloc(s.blocks[a].meta, t).Ok? { HeadersSame(s.blocks, a, s.blocks[a].(place := R.Busy(t))); }
    case _ => AfterJudged(s, e);
  }

  /** Releasing a quarantined block takes no live one away. */
  lemma AfterQuarantine(s: R.State, e: R.Step)
    requires R.PcInv(s.blocks, s.pc) && R.MetaInv(s.blocks) && R.RingInv(s.blocks, s.ring) && R.Legal(s, e) && e.Quarantine?
    ensures Headers(R.Next(s, e).blocks) == Headers(s.blocks)
  {
    R.QuarantineStep(s, e);
    R.EvictRing(s);
    var a := s.pc[e.t].a;
    HeadersSame(R.Evict(s).blocks, a, R.Evict(s).blocks[a].(place := R.Quarantined));
    if s.ring != [] {
      var o := s.ring[0];
      assert o in s.blocks && s.blocks[o].meta.state == O.Freed;
    }
    assert Headers(R.Evict(s).blocks) == Headers(s.blocks);
  }

  /** Only these steps touch live blocks, and so they do. */
  lemma HeadersAfter(s: R.State, e: R.Step)
    requires R.PcInv(s.blocks, s.pc) && R.MetaInv(s.blocks) && R.RingInv(s.blocks, s.ring) && R.Legal(s, e)
    ensures e.ReallocMove? ==> R.PcOf(s, e.t).a in s.blocks
    ensures Headers(R.Next(s, e).blocks) == After(s, e)
  {
    if R.InPlace(e) {
      AfterInPlace(s, e);
    } else if R.Passing(e) {
      R.PassingStep(s, e);
      HeadersSame(s.blocks, s.pc[e.t].a, R.Next(s, e).blocks[s.pc[e.t].a]);
    } else if e.ReallocMove? {
      R.MoveStep(s, e);
      HeadersMoved(s.blocks, s.pc[e.t].a, e.a', R.Next(s, e).blocks[e.a']);
    } else if e.Quarantine? {
      AfterQuarantine(s, e);
    }
  }

  ghost predicate Ready(s: R.State) {
    R.PcInv(s.blocks, s.pc) && R.MetaInv(s.blocks) && R.RingInv(s.blocks, s.ring)
  }

  lemma SaneIsReady(s: R.State)
    requires R.Sane(s)
    ensures Ready(s)
  {
  }

  /** Operations that leave a block live and where it is. */
  predicate Keeping(e: R.Step) {
    e.Claim? || e.Share? || e.Borrow? || e.Release?
  }

  /** Such operations leave a block where it is. */
  lemma OperatedStays(s: R.State, e: R.Step, a: Addr)
    requires R.Sane(s) && R.Legal(s, e) && a in s.blocks && Keeping(e)
    ensures a in R.Next(s, e).blocks && R.Next(s, e).blocks[a].place == s.blocks[a].place
  {
  }

  /** A published block stays so unless a step takes it up. */
  lemma ListedStays(s: R.State, e: R.Step, a: Addr)
    requires R.Sane(s) && R.Legal(s, e) && a in s.blocks && s.blocks[a].place.Listed? && (a in Touched(s, e) ==> Keeping(e))
    ensures a in R.Next(s, e).blocks && R.Next(s, e).blocks[a].place.Listed?
  {
    if R.InPlace(e) {
      R.InPlaceStep(s, e);
    } else if R.Passing(e) {
      R.PassingStep(s, e);
    } else if e.ReallocMove? {
      R.MoveStep(s, e);
    } else if e.Quarantine? {
      R.QuarantineStep(s, e);
      R.EvictRing(s);
    }
  }

  ghost function Calls(s: R.State, es: seq<R.Step>): R.State {
    if es == [] then s else R.Next(s, es[0])
  }

  lemma RegistryRunOn(es: seq<R.Step>, e: R.Step)
    ensures R.Run(es + [e]) == R.Next(R.Run(es), e)
  {
    assert (es + [e])[..|es + [e]| - 1] == es;
  }

  // ----- The channel on the registry -----

  ghost predicate ChannelOn(c: C.State, s: R.State) {
    c.metas == Headers(s.blocks)
  }

  /** Sharing a message is the registry's share. */
  lemma SharesInRegistry(c: C.State, s: R.State, t: O.Tid, msg: Addr)
    requires ChannelOn(c, s) && Ready(s) && C.Legal(c, C.Share(t, msg)) && R.Legal(s, R.Share(t, msg))
    ensures ChannelOn(C.Next(c, C.Share(t, msg)), R.Next(s, R.Share(t, msg)))
  {
    HeadersAfter(s, R.Share(t, msg));
  }

  /** A node's header is the one the registry gives it. */
  lemma AllocatesInRegistry(c: C.State, s: R.State, t: O.Tid, n: Addr, size: nat)
    requires ChannelOn(c, s) && Ready(s) && C.Inv(c) && C.Legal(c, C.AllocNode(t, n, s.h.allocs, size)) && R.Legal(s, R.Malloc(t, n, size))
    ensures ChannelOn(C.Next(c, C.AllocNode(t, n, s.h.allocs, size)), R.Next(s, R.Malloc(t, n, size)))
  {
    HeadersAfter(s, R.Malloc(t, n, size));
    var i := C.Carried(c, t);
  }

  lemma ClaimHeaders(s: R.State, t: O.Tid, a: Addr)
    requires Ready(s) && R.Legal(s, R.Claim(t, a)) && a in Headers(s.blocks)
    ensures Headers(R.Next(s, R.Claim(t, a)).blocks) == Headers(s.blocks)[a := O.Claim(Headers(s.blocks)[a], t)]
  {
    HeadersAfter(s, R.Claim(t, a));
  }

  lemma NodeStays(c: C.State, t: O.Tid) returns (n: Addr)
    requires C.Inv(c) && C.PcOf(c, t).Holding?
    ensures c.pc[t].i in c.items && n == c.items[c.pc[t].i].node && n in c.metas
    ensures C.Next(c, C.ClaimNode(t)).metas == c.metas[n := O.Claim(c.metas[n], t)]
  {
    var i := C.Carried(c, t);
    assert C.NodeOwned(i, c.items[i], c.metas, c.call);
    n := c.items[i].node;
  }

  /** Claiming a taken node is the registry's claim. */
  lemma ClaimsNodeInRegistry(c: C.State, s: R.State, t: O.Tid) returns (n: Addr)
    requires ChannelOn(c, s) && Ready(s) && C.Inv(c) && C.PcOf(c, t).Holding?
    ensures c.pc[t].i in c.items && n == c.items[c.pc[t].i].node && n in s.blocks
    ensures R.Legal(s, R.Claim(t, n)) ==> ChannelOn(C.Next(c, C.ClaimNode(t)), R.Next(s, R.Claim(t, n)))
  {
    hide C.Inv, C.Next, R.Next, Ready;
    n := NodeStays(c, t);
    if R.Legal(s, R.Claim(t, n)) { ClaimHeaders(s, t, n); }
  }

  /** Freeing a claimed node is a free that the registry lets pass: the thread goes on to unlink it. */
  lemma FreesNodeInRegistry(c: C.State, s: R.State, t: O.Tid) returns (n: Addr)
    requires ChannelOn(c, s) && Ready(s) && C.Inv(c) && C.PcOf(c, t).Freeing?
    ensures c.pc[t].i in c.items && n == c.items[c.pc[t].i].node && n in s.blocks
    ensures R.Legal(s, R.FreeDecide(t, n)) ==>
      var s' := R.Next(s, R.FreeDecide(t, n)); ChannelOn(C.Next(c, C.FreeNode(t)), s') && R.PcOf(s', t) == R.Freeing(n)
  {
    hide C.Inv, C.Next, R.Next, Ready;
    n := NodeGoes(c, t);
    if R.Legal(s, R.FreeDecide(t, n)) { FreesInRegistry(s, t, n); }
  }

  lemma NodeGoes(c: C.State, t: O.Tid) returns (n: Addr)
    requires C.Inv(c) && C.PcOf(c, t).Freeing?
    ensures c.pc[t].i in c.items && n == c.items[c.pc[t].i].node && n in c.metas && O.Free(c.metas[n], t).Ok?
    ensures C.Next(c, C.FreeNode(t)).metas == c.metas - {n}
  {
    C.NodeFrees(c, t);
    var i := C.Carried(c, t);
    n := c.items[i].node;
  }

  lemma FreesInRegistry(s: R.State, t: O.Tid, n: Addr)
    requires Ready(s) && R.Legal(s, R.FreeDecide(t, n)) && O.Free(s.blocks[n].meta, t).Ok?
    ensures Headers(R.Next(s, R.FreeDecide(t, n)).blocks) == Headers(s.blocks) - {n}
    ensures R.PcOf(R.Next(s, R.FreeDecide(t, n)), t) == R.Freeing(n)
  {
    HeadersAfter(s, R.FreeDecide(t, n));
  }

  lemma MessageStays(c: C.State, t: O.Tid) returns (m: Addr)
    requires C.Inv(c) && C.PcOf(c, t).Claiming?
    ensures c.pc[t].i in c.items && m == c.items[c.pc[t].i].msg && m in c.metas
    ensures C.Next(c, C.ClaimMsg(t)).metas == c.metas[m := O.Claim(c.metas[m], t)]
  {
    var i := C.Carried(c, t);
    assert C.MsgOwned(i, c.items[i], c.metas, c.call);
    m := c.items[i].msg;
  }

  /** The receiver's last claim is the registry's claim of the message. */
  lemma ClaimsMessageInRegistry(c: C.State, s: R.State, t: O.Tid) returns (m: Addr)
    requires ChannelOn(c, s) && Ready(s) && C.Inv(c) && C.PcOf(c, t).Claiming?
    ensures c.pc[t].i in c.items && m == c.items[c.pc[t].i].msg && m in s.blocks
    ensures R.Legal(s, R.Claim(t, m)) ==> ChannelOn(C.Next(c, C.ClaimMsg(t)), R.Next(s, R.Claim(t, m)))
  {
    hide C.Inv, C.Next, R.Next, Ready;
    m := MessageStays(c, t);
    if R.Legal(s, R.Claim(t, m)) { ClaimHeaders(s, t, m); }
  }

  lemma LentHeaders(s: R.State, e: R.Step)
    requires Ready(s) && R.Legal(s, e) && (e.Borrow? || e.Release?)
    requires e.a in Headers(s.blocks) && s.blocks[e.a].meta.state == O.Shared
    ensures e.a in R.Next(s, e).blocks
    ensures var h, h', n := Headers(s.blocks), Headers(R.Next(s, e).blocks), R.Next(s, e).blocks[e.a].meta.borrows;
      h' == h || h' == h[e.a := h[e.a].(borrows := n)]
  {
    HeadersAfter(s, e);
  }

  lemma SharedThere(c: C.State, a: Addr)
    requires C.Inv(c) && a in c.call && a == c.items[c.call[a]].msg && !c.items[c.call[a]].place.Done?
    ensures a in c.metas && c.metas[a].state == O.Shared && forall n :: C.Legal(c, C.Lend(a, n))
  {
    var i := c.call[a];
    assert C.MsgOwned(i, c.items[i], c.metas, c.call);
  }

  /** Borrows and releases of a message under way are the channel's `Lend`, or change nothing. */
  lemma LendsInRegistry(c: C.State, s: R.State, e: R.Step)
    requires ChannelOn(c, s) && Ready(s) && C.Inv(c) && R.Legal(s, e) && (e.Borrow? || e.Release?)
    requires e.a in c.call && e.a == c.items[c.call[e.a]].msg && !c.items[c.call[e.a]].place.Done?
    ensures var s' := R.Next(s, e); ChannelOn(c, s') || (e.a in s'.blocks && ChannelOn(C.Next(c, C.Lend(e.a, s'.blocks[e.a].meta.borrows)), s'))
  {
    SharedThere(c, e.a);
    hide C.Inv, R.Next, Ready;
    LentHeaders(s, e);
  }

  /** The blocks whose headers a registry step may change. */
  ghost function Touched(s: R.State, e: R.Step): set<Addr> {
    if R.InPlace(e) then {e.a} else if e.ReallocMove? && R.PcOf(s, e.t).Moving? then {R.PcOf(s, e.t).a, e.a'} else {}
  }

  /** A registry step elsewhere, as the channel sees it. */
  ghost function Echo(s: R.State, e: R.Step): seq<C.Step>
    requires R.Legal(s, e)
  {
    var s' := R.Next(s, e);
    if R.InPlace(e) then [EchoOf(s', e.a)]
    else if e.ReallocMove? then [C.Vanish(R.PcOf(s, e.t).a), EchoOf(s', e.a')]
    else []
  }

  ghost function EchoOf(s: R.State, a: Addr): C.Step {
    if a in Headers(s.blocks) then C.Elsewhere(a, Headers(s.blocks)[a]) else C.Vanish(a)
  }

  ghost function Follow(c: C.State, es: seq<C.Step>): C.State
    decreases es
  {
    if es == [] then c else Follow(C.Next(c, es[0]), es[1..])
  }

  /** Whatever any thread does to blocks that are not under way, the channel sees as steps elsewhere. */
  lemma FollowsRegistry(c: C.State, s: R.State, e: R.Step)
    requires ChannelOn(c, s) && Ready(s) && R.Legal(s, e) && forall a :: a in Touched(s, e) ==> a !in c.call
    ensures ChannelOn(Follow(c, Echo(s, e)), R.Next(s, e))
    ensures Follow(c, Echo(s, e)) == c.(metas := Headers(R.Next(s, e).blocks))
  {
    if R.InPlace(e) {
      EchoInPlace(c, s, e);
      FollowSteps(c, EchoOf(R.Next(s, e), e.a), EchoOf(R.Next(s, e), e.a));
    } else if e.ReallocMove? {
      R.MoveStep(s, e);
      EchoMove(c, s, e);
      FollowSteps(c, C.Vanish(R.PcOf(s, e.t).a), EchoOf(R.Next(s, e), e.a'));
    } else {
      HeadersAfter(s, e);
      assert c == c.(metas := Headers(R.Next(s, e).blocks));
    }
  }

  lemma FollowSteps(c: C.State, a: C.Step, b: C.Step)
    ensures Follow(c, [a]) == C.Next(c, a) && Follow(c, [a, b]) == C.Next(C.Next(c, a), b)
  {
    assert [a, b][1..] == [b] && [a][1..] == [] && [b][1..] == [];
    assert Follow(C.Next(c, a), [b]) == C.Next(C.Next(c, a), b);
  }

  lemma EchoInPlace(c: C.State, s: R.State, e: R.Step)
    requires ChannelOn(c, s) && Ready(s) && R.Legal(s, e) && R.InPlace(e) && e.a !in c.call
    ensures C.Next(c, EchoOf(R.Next(s, e), e.a)) == c.(metas := Headers(R.Next(s, e).blocks))
  {
    R.InPlaceStep(s, e);
    HeadersPut(s.blocks, e.a, R.Next(s, e).blocks[e.a]);
  }

  lemma EchoMove(c: C.State, s: R.State, e: R.Step)
    requires ChannelOn(c, s) && Ready(s) && R.Legal(s, e) && e.ReallocMove? && R.PcOf(s, e.t).a !in c.call && e.a' !in c.call
    ensures C.Next(C.Next(c, C.Vanish(R.PcOf(s, e.t).a)), EchoOf(R.Next(s, e), e.a')) == c.(metas := Headers(R.Next(s, e).blocks))
  {
    R.MoveStep(s, e);
    HeadersMoved(s.blocks, s.pc[e.t].a, e.a', R.Next(s, e).blocks[e.a']);
  }

  // ----- The future on the registry -----

  ghost predicate FutureOn(f: F.State, s: R.State) {
    f.metas == Headers(s.blocks)
  }

  /** The worker's claim of the argument, which is live then, is the registry's. */
  lemma WorkerClaimsInRegistry(f: F.State, s: R.State)
    requires FutureOn(f, s) && Ready(s) && F.Inv(f) && f.w.Claiming? && f.arg != NULL
    ensures f.arg in s.blocks
    ensures R.Legal(s, R.Claim(f.worker, f.arg)) ==> FutureOn(F.Next(f, F.WorkerClaims), R.Next(s, R.Claim(f.worker, f.arg)))
  {
    if R.Legal(s, R.Claim(f.worker, f.arg)) { HeadersAfter(s, R.Claim(f.worker, f.arg)); }
  }

  /** Freeing the future is the registry's free: it passes, or the thread stops, in both alike. */
  lemma FreesFutureInRegistry(f: F.State, s: R.State)
    requires FutureOn(f, s) && Ready(s) && F.Inv(f) && f.a.Freeing?
    ensures f.f in s.blocks
    ensures R.Legal(s, R.FreeDecide(f.waiter, f.f)) ==>
      var s' := R.Next(s, R.FreeDecide(f.waiter, f.f));
      FutureOn(F.Next(f, F.AwaitFrees), s') && (F.Next(f, F.AwaitFrees).a.Stopped? <==> R.PcOf(s', f.waiter).Stopped?)
  {
    if R.Legal(s, R.FreeDecide(f.waiter, f.f)) { HeadersAfter(s, R.FreeDecide(f.waiter, f.f)); }
  }

  /** The claim of the result is the registry's. */
  lemma AwaitClaimsInRegistry(f: F.State, s: R.State)
    requires FutureOn(f, s) && Ready(s) && F.Inv(f) && f.a.Taking? && f.a.res != NULL
    ensures f.a.res in s.blocks
    ensures R.Legal(s, R.Claim(f.waiter, f.a.res)) ==> FutureOn(F.Next(f, F.AwaitClaims), R.Next(s, R.Claim(f.waiter, f.a.res)))
  {
    if R.Legal(s, R.Claim(f.waiter, f.a.res)) { HeadersAfter(s, R.Claim(f.waiter, f.a.res)); }
  }

  ghost function Counterpart(op: F.Op, t: O.Tid, a: Addr): R.Step {
    match op
    case Claim => R.Claim(t, a)
    case Share => R.Share(t, a)
    case Borrow => R.Borrow(t, a)
    case Release => R.Release(t, a)
  }

  /** What anybody does to a future is the registry's operation on it. */
  lemma OnFutureInRegistry(f: F.State, s: R.State, op: F.Op, t: O.Tid)
    requires FutureOn(f, s) && Ready(s) && F.Inv(f) && F.Legal(f, F.OnFuture(op, t)) && R.Legal(s, Counterpart(op, t, f.f))
    ensures FutureOn(F.Next(f, F.OnFuture(op, t)), R.Next(s, Counterpart(op, t, f.f)))
  {
    HeadersAfter(s, Counterpart(op, t, f.f));
    assert f.metas == f.metas[f.f := f.metas[f.f]];
  }

  ghost function FutureEchoOf(s: R.State, a: Addr): F.Step {
    if a in Headers(s.blocks) then F.Elsewhere(a, Headers(s.blocks)[a]) else F.Vanish(a)
  }

  /** A registry step elsewhere, as the future sees it. */
  ghost function FutureEcho(s: R.State, e: R.Step): seq<F.Step>
    requires R.Legal(s, e)
  {
    var s' := R.Next(s, e);
    if R.InPlace(e) then [FutureEchoOf(s', e.a)]
    else if e.ReallocMove? then [F.Vanish(R.PcOf(s, e.t).a), FutureEchoOf(s', e.a')]
    else []
  }

  /**
   Whatever any thread does to blocks that are not in transit, and whatever leaves an argument or a
   result in transit live, the future sees as steps elsewhere.
   */
  lemma FutureFollowsRegistry(f: F.State, s: R.State, e: R.Step)
    requires FutureOn(f, s) && Ready(s) && R.Legal(s, e)
    requires forall a :: a in Touched(s, e) && F.InTransit(f, a) ==>
      R.InPlace(e) && (a == f.f ==> F.FutureFreed(f)) && a in Headers(R.Next(s, e).blocks)
    ensures FutureOn(F.Run(f, FutureEcho(s, e)), R.Next(s, e))
  {
    if R.InPlace(e) {
      var a := e.a;
      assert a in Touched(s, e);
      FutureEchoInPlace(f, s, e);
      RunSteps(f, FutureEchoOf(R.Next(s, e), a), FutureEchoOf(R.Next(s, e), a));
    } else if e.ReallocMove? {
      var a, a' := R.PcOf(s, e.t).a, e.a';
      assert a in Touched(s, e) && a' in Touched(s, e);
      FutureEchoMove(f, s, e);
      RunSteps(f, F.Vanish(a), FutureEchoOf(R.Next(s, e), a'));
    } else {
      HeadersAfter(s, e);
    }
  }

  lemma FutureEchoInPlace(f: F.State, s: R.State, e: R.Step)
    requires FutureOn(f, s) && Ready(s) && R.Legal(s, e) && R.InPlace(e)
    requires F.InTransit(f, e.a) ==> (e.a == f.f ==> F.FutureFreed(f)) && e.a in Headers(R.Next(s, e).blocks)
    ensures FutureOn(F.Next(f, FutureEchoOf(R.Next(s, e), e.a)), R.Next(s, e))
  {
    R.InPlaceStep(s, e);
    HeadersPut(s.blocks, e.a, R.Next(s, e).blocks[e.a]);
  }

  lemma FutureEchoMove(f: F.State, s: R.State, e: R.Step)
    requires FutureOn(f, s) && Ready(s) && R.Legal(s, e) && e.ReallocMove?
    requires !F.InTransit(f, R.PcOf(s, e.t).a) && !F.InTransit(f, e.a')
    ensures FutureOn(F.Next(F.Next(f, F.Vanish(R.PcOf(s, e.t).a)), FutureEchoOf(R.Next(s, e), e.a')), R.Next(s, e))
  {
    R.MoveStep(s, e);
    HeadersMoved(s.blocks, s.pc[e.t].a, e.a', R.Next(s, e).blocks[e.a']);
  }

  lemma RunSteps(f: F.State, a: F.Step, b: F.Step)
    ensures F.Run(f, [a]) == F.Next(f, a) && F.Run(f, [a, b]) == F.Next(F.Next(f, a), b)
  {
    assert [a, b][..1] == [a] && [a][..0] == [];
    assert F.Run(f, [a]) == F.Next(f, a);
  }
}
