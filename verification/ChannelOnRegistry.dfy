/**
 Runs of the channel and the registry together, from the empty registry: threads send, receive and do
 anything else in the registry, in any interleaving.  A thread goes on in the channel only when its
 call into the registry is over.
 */
module ChannelOnRegistry {
  import opened Addresses
  import opened HandOff
  import opened Seqs
  import O = Ownership
  import R = RegistryModel
  import C = ChannelModel
  import E = ChannelEffects
  import RE = RegistryEffects

  datatype Joint = Joint(s: R.State, c: C.State)

  /** A step of a thread in the channel, or one of any thread in the registry. */
  datatype Act = Inside(inner: C.Step) | Outside(outer: R.Step)

  /** Steps of the channel model that stand for what happens in the registry. */
  predicate Echoed(e: C.Step) {
    e.Lend? || e.Elsewhere? || e.Vanish?
  }

  /** The registry step that a channel step is, if it is one. */
  ghost function Call(j: Joint, e: C.Step): seq<R.Step> {
    match e
    case Share(t, msg) => [R.Share(t, msg)]
    case AllocNode(t, n, _, size) => [R.Malloc(t, n, size)]
    case ClaimNode(t) => if Carries(j.c, t) then [R.Claim(t, j.c.items[C.PcOf(j.c, t).i].node)] else []
    case FreeNode(t) => if Carries(j.c, t) then [R.FreeDecide(t, j.c.items[C.PcOf(j.c, t).i].node)] else []
    case ClaimMsg(t) => if Carries(j.c, t) then [R.Claim(t, j.c.items[C.PcOf(j.c, t).i].msg)] else []
    case _ => []
  }

  predicate Carries(c: C.State, t: O.Tid) {
    t in c.pc && C.Working(c.pc[t]) && c.pc[t].i in c.items
  }

  /** A message on its way, which its sender has published and anybody may borrow. */
  predicate UnderWay(c: C.State, a: Addr) {
    a in c.call && c.call[a] in c.items && c.items[c.call[a]].msg == a && !c.items[c.call[a]].place.Done?
  }

  /**
   The rules of clients, and nothing about the calls the channel makes itself but that the allocator
   returns an address that is free.
   */
  ghost predicate Allowed(j: Joint, act: Act) {
    match act
    case Inside(e) =>
      && C.Legal(j.c, e) && !Echoed(e) && R.PcOf(j.s, e.t).Idle?
      && (e.Share? ==> e.msg in j.s.blocks && j.s.blocks[e.msg].place.Listed?)
      && (e.AllocNode? ==> e.id == j.s.h.allocs && e.n !in j.s.blocks)
    case Outside(e) =>
      && R.Legal(j.s, e)
      && forall a :: a in Touched(j.s, e) && a in j.c.call ==> (e.Borrow? || e.Release?) && UnderWay(j.c, a)
  }

  /** How the channel sees a registry step. */
  ghost function Seen(j: Joint, e: R.Step): seq<C.Step>
    requires R.Legal(j.s, e)
  {
    if (e.Borrow? || e.Release?) && e.a in j.c.call then
      if R.Next(j.s, e).blocks == j.s.blocks then [] else [C.Lend(e.a, R.Next(j.s, e).blocks[e.a].meta.borrows)]
    else Echo(j.s, e)
  }

  ghost function Next(j: Joint, act: Act): Joint {
    if !Allowed(j, act) then j
    else match act
      case Inside(e) => Joint(Calls(j.s, Call(j, e)), C.Next(j.c, e))
      case Outside(e) => Joint(R.Next(j.s, e), Follow(j.c, Seen(j, e)))
  }

  ghost function Run(acts: seq<Act>): Joint {
    if acts == [] then Joint(R.Start(), C.Start(map[])) else Next(Run(acts[..|acts| - 1]), acts[|acts| - 1])
  }

  // ----- What holds of every joint state -----

  /** Blocks under way are published, except a node whose sender is still in the allocation. */
  ghost predicate Published(blocks: R.Blocks, call: map<Addr, int>, items: C.Items) {
    forall a :: a in call ==> a in blocks && call[a] in items && InList(blocks[a].place, items[call[a]].place)
  }

  predicate InList(p: R.Place, q: C.Place) {
    p.Listed? || (q.Out? && p == R.Loose(q.t))
  }

  ghost predicate Inv(j: Joint) {
    ChannelOn(j.c, j.s) && R.Inv(j.s) && C.Inv(j.c) && Published(j.s.blocks, j.c.call, j.c.items)
  }

  // ----- Places in the registry -----

  /** A block in the hands of its allocating thread stays there or is published. */
  lemma LooseStays(s: R.State, e: R.Step, a: Addr, t: O.Tid)
    requires R.Sane(s) && R.Legal(s, e) && a in s.blocks && s.blocks[a].place == R.Loose(t) && a !in Touched(s, e)
    ensures a in R.Next(s, e).blocks
    ensures R.Next(s, e).blocks[a].place == R.Loose(t) || R.Next(s, e).blocks[a].place.Listed?
  {
    if R.InPlace(e) {
      R.InPlaceStep(s, e);
    } else if R.Passing(e) {
      R.PassingStep(s, e);
    } else if e.ReallocMove? {
      R.MoveStep(s, e);
    } else if e.Quarantine? {
      R.QuarantineStep(s, e);
      R.EvictRing(s);
    }
  }

  /** A thread whose call is over has nothing in its hands. */
  lemma IdleHoldsNothing(s: R.State, a: Addr, t: O.Tid)
    requires R.Sane(s) && a in s.blocks && R.PcOf(s, t).Idle?
    ensures s.blocks[a].place != R.Loose(t)
  {
  }

  // ----- Outside -----

  lemma OutsidePublished(j: Joint, e: R.Step)
    requires R.Sane(j.s) && Published(j.s.blocks, j.c.call, j.c.items) && Allowed(j, Outside(e))
    ensures Published(R.Next(j.s, e).blocks, j.c.call, j.c.items)
  {
    forall a | a in j.c.call
      ensures a in R.Next(j.s, e).blocks && InList(R.Next(j.s, e).blocks[a].place, j.c.items[j.c.call[a]].place)
    {
      if a in Touched(j.s, e) {
        OperatedStays(j.s, e, a);
      } else if j.s.blocks[a].place.Listed? {
        ListedStays(j.s, e, a);
      } else {
        LooseStays(j.s, e, a, j.c.items[j.c.call[a]].place.t);
      }
    }
  }

  lemma {:induction false} FollowInv(c: C.State, es: seq<C.Step>)
    requires C.Inv(c)
    ensures C.Inv(Follow(c, es))
    decreases es
  {
    if es != [] {
      C.StepKeepsInv(c, es[0]);
      FollowInv(C.Next(c, es[0]), es[1..]);
    }
  }

  lemma LendIs(c: C.State, a: Addr, n: nat, metas: map<Addr, O.Meta>)
    requires C.Legal(c, C.Lend(a, n)) && metas == C.Next(c, C.Lend(a, n)).metas
    ensures Follow(c, [C.Lend(a, n)]) == c.(metas := metas)
  {
    FollowSteps(c, C.Lend(a, n), C.Lend(a, n));
  }

  lemma LendsHere(j: Joint, e: R.Step)
    requires Inv(j) && R.Legal(j.s, e) && (e.Borrow? || e.Release?) && UnderWay(j.c, e.a)
    ensures var s' := R.Next(j.s, e);
      ChannelOn(j.c, s') || (e.a in s'.blocks && ChannelOn(C.Next(j.c, C.Lend(e.a, s'.blocks[e.a].meta.borrows)), s'))
    ensures Ready(j.s)
  {
    SaneIsReady(j.s);
    LendsInRegistry(j.c, j.s, e);
  }

  lemma OutsideLends(j: Joint, e: R.Step)
    requires Inv(j) && Allowed(j, Outside(e)) && (e.Borrow? || e.Release?) && e.a in j.c.call
    ensures Follow(j.c, Seen(j, e)) == j.c.(metas := Headers(R.Next(j.s, e).blocks))
  {
    assert e.a in Touched(j.s, e);
    hide C.Inv, R.Inv, Published;
    LendsHere(j, e);
    if Seen(j, e) == [] {
      assert j.c == j.c.(metas := Headers(R.Next(j.s, e).blocks));
    } else {
      UnderWayIsLive(j, e.a);
      Changes(j.s, e);
      LendIs(j.c, e.a, R.Next(j.s, e).blocks[e.a].meta.borrows, Headers(R.Next(j.s, e).blocks));
    }
  }

  lemma UnderWayIsLive(j: Joint, a: Addr)
    requires Inv(j) && UnderWay(j.c, a)
    ensures a in j.c.metas && C.Legal(j.c, C.Lend(a, 0))
  {
    assert C.MsgOwned(j.c.call[a], j.c.items[j.c.call[a]], j.c.metas, j.c.call);
  }

  /** A borrow or release that changes the blocks changes the header. */
  lemma Changes(s: R.State, e: R.Step)
    requires Ready(s) && R.Legal(s, e) && (e.Borrow? || e.Release?) && R.Next(s, e).blocks != s.blocks
    requires e.a in Headers(s.blocks)
    ensures Headers(R.Next(s, e).blocks) != Headers(s.blocks)
  {
    assert Headers(s.blocks)[e.a] == s.blocks[e.a].meta;
    assert e.a in R.Next(s, e).blocks;
    assert R.Next(s, e).blocks[e.a].meta.borrows != s.blocks[e.a].meta.borrows;
    assert R.Next(s, e).blocks[e.a].meta.state != O.Freed;
    assert Headers(R.Next(s, e).blocks)[e.a] == R.Next(s, e).blocks[e.a].meta;
  }

  lemma OutsideStep(j: Joint, e: R.Step)
    requires Inv(j) && Allowed(j, Outside(e))
    ensures Inv(Next(j, Outside(e)))
  {
    SaneIsReady(j.s);
    if (e.Borrow? || e.Release?) && e.a in j.c.call {
      OutsideLends(j, e);
    } else {
      FollowsRegistry(j.c, j.s, e);
    }
    OutsidePublished(j, e);
    R.StepKeepsInv(j.s, e);
    FollowInv(j.c, Seen(j, e));
  }

  // ----- Inside: the calls are legal -----

  lemma CarriesIt(c: C.State, t: O.Tid) returns (i: int)
    requires C.Inv(c) && t in c.pc && C.Working(c.pc[t])
    ensures Carries(c, t) && i == c.pc[t].i && C.Fits(c.pc[t], t, c.items[i])
  {
    i := C.Carried(c, t);
  }

  /** A node that a receiver took is published in the registry. */
  lemma NodeIsPublished(blocks: R.Blocks, c: C.State, t: O.Tid) returns (n: Addr)
    requires C.Inv(c) && Published(blocks, c.call, c.items) && (C.PcOf(c, t).Holding? || C.PcOf(c, t).Freeing?)
    ensures Carries(c, t) && n == c.items[c.pc[t].i].node && n in c.call && n in c.metas
    ensures n in blocks && blocks[n].place.Listed?
  {
    var i := CarriesIt(c, t);
    n := c.items[i].node;
    assert C.NodeOwned(i, c.items[i], c.metas, c.call);
  }

  /** And so is the message, when the node is gone. */
  lemma MessageIsPublished(blocks: R.Blocks, c: C.State, t: O.Tid) returns (m: Addr)
    requires C.Inv(c) && Published(blocks, c.call, c.items) && C.PcOf(c, t).Claiming?
    ensures Carries(c, t) && m == c.items[c.pc[t].i].msg && m in c.call && m in c.metas
    ensures m in blocks && blocks[m].place.Listed?
  {
    var i := CarriesIt(c, t);
    m := c.items[i].msg;
    assert C.MsgOwned(i, c.items[i], c.metas, c.call);
  }

  /** Wherever a thread may go on in the channel, the registry call it makes there is legal. */
  lemma CallIsLegal(j: Joint, e: C.Step)
    requires C.Inv(j.c) && Published(j.s.blocks, j.c.call, j.c.items) && Allowed(j, Inside(e))
    ensures forall x :: x in Call(j, e) ==> R.Legal(j.s, x)
    ensures e.ClaimNode? || e.FreeNode? || e.ClaimMsg? ==> |Call(j, e)| == 1
  {
    hide C.Inv, Published;
    if e.ClaimNode? || e.FreeNode? {
      var n := NodeIsPublished(j.s.blocks, j.c, e.t);
    } else if e.ClaimMsg? {
      var m := MessageIsPublished(j.s.blocks, j.c, e.t);
    }
  }

  // ----- Inside: what is published -----

  lemma PublishedPut(blocks: R.Blocks, call: map<Addr, int>, items: C.Items, a: Addr, b: R.Block)
    requires Published(blocks, call, items) && a in blocks && b.place == blocks[a].place
    ensures Published(blocks[a := b], call, items)
  {
  }

  /** A block goes under way. */
  lemma PublishedAdd(blocks: R.Blocks, call: map<Addr, int>, items: C.Items, a: Addr, b: R.Block, i: int, it: C.Item)
    requires Published(blocks, call, items) && a !in call && InList(b.place, it.place)
    requires i in items ==> it.place == items[i].place
    ensures Published(blocks[a := b], call[a := i], items[i := it])
  {
  }

  /** A block is under way no more. */
  lemma PublishedCut(blocks: R.Blocks, call: map<Addr, int>, items: C.Items, a: Addr, b: R.Block, i: int, it: C.Item)
    requires Published(blocks, call, items) && i in items && !items[i].place.Out?
    ensures Published(blocks[a := b], call - {a}, items[i := it])
  {
  }

  /** A message goes on when nothing of it is in its sender's hands. */
  lemma PublishedMove(blocks: R.Blocks, call: map<Addr, int>, items: C.Items, i: int, it: C.Item)
    requires Published(blocks, call, items) && i in items
    requires items[i].place.Out? ==> forall a :: a in blocks ==> blocks[a].place != R.Loose(items[i].place.t)
    ensures Published(blocks, call, items[i := it])
  {
  }

  // ----- Inside: what the steps keep -----

  lemma ShareStep(j: Joint, t: O.Tid, msg: Addr)
    requires ChannelOn(j.c, j.s) && Ready(j.s) && Published(j.s.blocks, j.c.call, j.c.items)
    requires Allowed(j, Inside(C.Share(t, msg))) && j.c.begun !in j.c.items
    ensures var c', s' := C.Next(j.c, C.Share(t, msg)), R.Next(j.s, R.Share(t, msg));
      ChannelOn(c', s') && Published(s'.blocks, c'.call, c'.items)
  {
    SharesInRegistry(j.c, j.s, t, msg);
    var v := O.Share(j.s.blocks[msg].meta, t);
    if v.Ok? {
      PublishedAdd(j.s.blocks, j.c.call, j.c.items, msg, j.s.blocks[msg].(meta := v.meta), j.c.begun, C.Item(msg, t, NULL, C.Out(t)));
    }
  }

  lemma AllocStep(j: Joint, t: O.Tid, n: Addr, size: nat)
    requires ChannelOn(j.c, j.s) && Ready(j.s) && C.Inv(j.c) && Published(j.s.blocks, j.c.call, j.c.items)
    requires Allowed(j, Inside(C.AllocNode(t, n, j.s.h.allocs, size)))
    ensures var c', s' := C.Next(j.c, C.AllocNode(t, n, j.s.h.allocs, size)), R.Next(j.s, R.Malloc(t, n, size));
      ChannelOn(c', s') && Published(s'.blocks, c'.call, c'.items)
  {
    AllocatesInRegistry(j.c, j.s, t, n, size);
    var i := CarriesIt(j.c, t);
    PublishedAdd(j.s.blocks, j.c.call, j.c.items, n, R.Block(O.Fresh(j.s.h.allocs, size, t), R.Loose(t)), i, j.c.items[i].(node := n));
  }

  lemma ClaimedKeeps(c: C.State, t: O.Tid)
    requires C.PcOf(c, t).Holding?
    ensures C.Next(c, C.ClaimNode(t)).call == c.call && C.Next(c, C.ClaimNode(t)).items == c.items
  {
  }

  lemma ClaimNodeStep(j: Joint, t: O.Tid, n: Addr)
    requires ChannelOn(j.c, j.s) && Ready(j.s) && C.Inv(j.c) && Published(j.s.blocks, j.c.call, j.c.items)
    requires Allowed(j, Inside(C.ClaimNode(t))) && Carries(j.c, t) && n == j.c.items[j.c.pc[t].i].node
    ensures var c', s' := C.Next(j.c, C.ClaimNode(t)), R.Next(j.s, R.Claim(t, n));
      ChannelOn(c', s') && Published(s'.blocks, c'.call, c'.items)
  {
    hide C.Inv, Ready, Published, ChannelOn;
    var m := NodeIsPublished(j.s.blocks, j.c, t);
    m := ClaimsNodeInRegistry(j.c, j.s, t);
    ClaimedKeeps(j.c, t);
    PublishedPut(j.s.blocks, j.c.call, j.c.items, n, j.s.blocks[n].(meta := O.Claim(j.s.blocks[n].meta, t)));
  }

  lemma NodeIsGone(c: C.State, t: O.Tid, n: Addr)
    requires C.Inv(c) && C.PcOf(c, t).Freeing? && Carries(c, t) && n == c.items[c.pc[t].i].node
    ensures var i := c.pc[t].i; var c' := C.Next(c, C.FreeNode(t));
      c'.call == c.call - {n} && c'.items == c.items[i := c.items[i].(node := NULL)] && !c.items[i].place.Out?
  {
    C.NodeFrees(c, t);
    var i := CarriesIt(c, t);
  }

  lemma OneBlock(s: R.State, e: R.Step)
    requires Ready(s) && R.Legal(s, e) && R.InPlace(e)
    ensures e.a in R.Next(s, e).blocks && R.Next(s, e).blocks == s.blocks[e.a := R.Next(s, e).blocks[e.a]]
  {
    R.InPlaceStep(s, e);
  }

  /** The receiver wins the free of its node and goes on to unlink it. */
  lemma FreeNodeStep(j: Joint, t: O.Tid, n: Addr)
    requires ChannelOn(j.c, j.s) && Ready(j.s) && C.Inv(j.c) && Published(j.s.blocks, j.c.call, j.c.items)
    requires Allowed(j, Inside(C.FreeNode(t))) && Carries(j.c, t) && n == j.c.items[j.c.pc[t].i].node
    ensures var c', s' := C.Next(j.c, C.FreeNode(t)), R.Next(j.s, R.FreeDecide(t, n));
      ChannelOn(c', s') && Published(s'.blocks, c'.call, c'.items) && R.PcOf(s', t) == R.Freeing(n)
  {
    hide C.Inv, Ready, Published, ChannelOn, C.Next;
    var m := NodeIsPublished(j.s.blocks, j.c, t);
    m := FreesNodeInRegistry(j.c, j.s, t);
    NodeIsGone(j.c, t, n);
    OneBlock(j.s, R.FreeDecide(t, n));
    hide R.Next;
    var i := j.c.pc[t].i;
    PublishedCut(j.s.blocks, j.c.call, j.c.items, n, R.Next(j.s, R.FreeDecide(t, n)).blocks[n], i, j.c.items[i].(node := NULL));
  }

  lemma MessageIsGone(c: C.State, t: O.Tid, m: Addr)
    requires C.Inv(c) && C.PcOf(c, t).Claiming? && Carries(c, t) && m == c.items[c.pc[t].i].msg
    ensures var i := c.pc[t].i; var c' := C.Next(c, C.ClaimMsg(t));
      c'.call == c.call - {m} && c'.items == c.items[i := c.items[i].(place := C.Done(t))] && !c.items[i].place.Out?
  {
    var i := CarriesIt(c, t);
    assert C.MsgOwned(i, c.items[i], c.metas, c.call);
  }

  lemma ClaimMsgStep(j: Joint, t: O.Tid, m: Addr)
    requires ChannelOn(j.c, j.s) && Ready(j.s) && C.Inv(j.c) && Published(j.s.blocks, j.c.call, j.c.items)
    requires Allowed(j, Inside(C.ClaimMsg(t))) && Carries(j.c, t) && m == j.c.items[j.c.pc[t].i].msg
    ensures var c', s' := C.Next(j.c, C.ClaimMsg(t)), R.Next(j.s, R.Claim(t, m));
      ChannelOn(c', s') && Published(s'.blocks, c'.call, c'.items)
  {
    hide C.Inv, Ready, Published, ChannelOn, C.Next;
    var n := MessageIsPublished(j.s.blocks, j.c, t);
    n := ClaimsMessageInRegistry(j.c, j.s, t);
    MessageIsGone(j.c, t, m);
    var i := j.c.pc[t].i;
    PublishedCut(j.s.blocks, j.c.call, j.c.items, m, j.s.blocks[m].(meta := O.Claim(j.s.blocks[m].meta, t)), i, j.c.items[i].(place := C.Done(t)));
  }

  lemma LinkStep(j: Joint, t: O.Tid)
    requires R.Sane(j.s) && C.Inv(j.c) && Published(j.s.blocks, j.c.call, j.c.items) && Allowed(j, Inside(C.Link(t)))
    ensures var c' := C.Next(j.c, C.Link(t)); c'.metas == j.c.metas && Published(j.s.blocks, c'.call, c'.items)
  {
    var i := CarriesIt(j.c, t);
    forall a | a in j.s.blocks ensures j.s.blocks[a].place != R.Loose(t) {
      IdleHoldsNothing(j.s, a, t);
    }
    PublishedMove(j.s.blocks, j.c.call, j.c.items, i, j.c.items[i].(place := C.Queued));
  }

  lemma CheckIs(c: C.State, t: O.Tid)
    requires C.Inv(c) && C.Legal(c, C.Check(t))
    ensures var c' := C.Next(c, C.Check(t));
      && c'.metas == c.metas && c'.call == c.call
      && (c'.items == c.items || (c.queue != [] && c.queue[0] in c.items && !c.items[c.queue[0]].place.Out? &&
                                  c'.items == c.items[c.queue[0] := c.items[c.queue[0]].(place := C.Back(t))]))
  {
    if c.queue != [] {
      C.HeadIsQueued(c.items, c.queue);
    }
    hide C.Inv;
    assert C.Next(c, C.Check(t)) == C.DoCheck(c, t);
  }

  lemma CheckStep(j: Joint, t: O.Tid)
    requires C.Inv(j.c) && Published(j.s.blocks, j.c.call, j.c.items) && Allowed(j, Inside(C.Check(t)))
    ensures var c' := C.Next(j.c, C.Check(t)); c'.metas == j.c.metas && Published(j.s.blocks, c'.call, c'.items)
  {
    hide C.Inv, Published, C.Next;
    CheckIs(j.c, t);
    if C.Next(j.c, C.Check(t)).items != j.c.items {
      var i := j.c.queue[0];
      PublishedMove(j.s.blocks, j.c.call, j.c.items, i, j.c.items[i].(place := C.Back(t)));
    }
  }

  predicate Calling(e: C.Step) {
    e.Share? || e.AllocNode? || e.ClaimNode? || e.FreeNode? || e.ClaimMsg?
  }

  lemma WaitingStep(c: C.State, e: C.Step)
    requires C.Legal(c, e) && !Echoed(e) && !Calling(e) && !e.Link? && !e.Check?
    ensures var c' := C.Next(c, e); c'.metas == c.metas && c'.call == c.call && c'.items == c.items
  {
  }

  /** A node is linked when its allocation is over; a message is taken when it is queued. */
  lemma QuietStep(j: Joint, e: C.Step)
    requires R.Sane(j.s) && C.Inv(j.c) && Published(j.s.blocks, j.c.call, j.c.items) && Allowed(j, Inside(e)) && !Calling(e)
    ensures var c' := C.Next(j.c, e); c'.metas == j.c.metas && Published(j.s.blocks, c'.call, c'.items)
  {
    if e.Link? {
      LinkStep(j, e.t);
    } else if e.Check? {
      CheckStep(j, e.t);
    } else {
      WaitingStep(j.c, e);
    }
  }

  lemma CallingStep(j: Joint, e: C.Step)
    requires ChannelOn(j.c, j.s) && Ready(j.s) && C.Inv(j.c) && Published(j.s.blocks, j.c.call, j.c.items)
    requires Allowed(j, Inside(e)) && Calling(e) && j.c.begun !in j.c.items
    ensures var n := Next(j, Inside(e)); ChannelOn(n.c, n.s) && Published(n.s.blocks, n.c.call, n.c.items)
  {
    CallIsLegal(j, e);
    match e
    case Share(t, msg) => ShareStep(j, t, msg);
    case AllocNode(t, n, _, size) => AllocStep(j, t, n, size);
    case ClaimNode(t) => ClaimNodeStep(j, t, j.c.items[j.c.pc[t].i].node);
    case FreeNode(t) => FreeNodeStep(j, t, j.c.items[j.c.pc[t].i].node);
    case ClaimMsg(t) => ClaimMsgStep(j, t, j.c.items[j.c.pc[t].i].msg);
  }

  lemma NextNumber(c: C.State)
    requires C.Inv(c)
    ensures c.begun !in c.items
  {
  }

  lemma InsideStep(j: Joint, e: C.Step)
    requires Inv(j) && Allowed(j, Inside(e))
    ensures Inv(Next(j, Inside(e)))
  {
    C.StepKeepsInv(j.c, e);
    SaneIsReady(j.s);
    if Calling(e) {
      NextNumber(j.c);
      CallingStep(j, e);
      if Call(j, e) != [] { R.StepKeepsInv(j.s, Call(j, e)[0]); }
    } else {
      QuietStep(j, e);
    }
  }

  // ----- Joint runs -----

  lemma StepKeepsInv(j: Joint, act: Act)
    requires Inv(j)
    ensures Inv(Next(j, act))
  {
    if Allowed(j, act) {
      match act
      case Inside(e) => InsideStep(j, e);
      case Outside(e) => OutsideStep(j, e);
    }
  }

  lemma StartInv()
    ensures Inv(Run([]))
  {
    R.StartInv();
    C.RunInv(map[], []);
    hide R.Inv, C.Inv;
  }

  /** In every state of every joint run the channel's view is the registry's, and both invariants hold. */
  lemma {:induction false} RunInv(acts: seq<Act>)
    ensures Inv(Run(acts))
  {
    if acts == [] {
      StartInv();
    } else {
      RunInv(acts[..|acts| - 1]);
      StepKeepsInv(Run(acts[..|acts| - 1]), acts[|acts| - 1]);
    }
  }

  /** Whatever the channel does in a joint run, its calls are legal steps of the registry. */
  lemma {:induction false} CallsAreLegal(acts: seq<Act>, e: C.Step)
    requires Allowed(Run(acts), Inside(e))
    ensures forall x :: x in Call(Run(acts), e) ==> R.Legal(Run(acts).s, x)
    ensures e.ClaimNode? || e.FreeNode? || e.ClaimMsg? ==> |Call(Run(acts), e)| == 1
  {
    RunInv(acts);
    CallIsLegal(Run(acts), e);
  }

  /**
   A thread in a call goes on in every joint state: in the registry until its call there is over, and
   then in the channel, once the mutex is free or its own.
   */
  lemma {:induction false} ThreadGoesOn(acts: seq<Act>, t: O.Tid) returns (act: Act)
    requires !R.PcOf(Run(acts).s, t).Stopped?
    requires var c := Run(acts).c; R.PcOf(Run(acts).s, t).Idle? ==> E.Runs(C.PcOf(c, t)) && (c.mutex.Unheld? || c.mutex == C.Held(t))
    ensures Allowed(Run(acts), act)
    ensures var j := Run(acts); var j' := Next(j, act);
      if R.PcOf(j.s, t).Idle? then E.Follows(C.PcOf(j.c, t), C.PcOf(j'.c, t), j.c.queue == [])
      else R.PcOf(j'.s, t) != R.PcOf(j.s, t)
  {
    RunInv(acts);
    var j := Run(acts);
    if R.PcOf(j.s, t).Idle? {
      act := GoesOnInside(j, t);
    } else {
      act := GoesOnOutside(j, t);
    }
  }

  lemma GoesOnInside(j: Joint, t: O.Tid) returns (act: Act)
    requires C.Inv(j.c) && R.PcOf(j.s, t).Idle? && E.Runs(C.PcOf(j.c, t)) && (j.c.mutex.Unheld? || j.c.mutex == C.Held(t))
    ensures Allowed(j, act) && E.Follows(C.PcOf(j.c, t), C.PcOf(Next(j, act).c, t), j.c.queue == [])
  {
    hide C.Inv, C.Next, Calls, Call, E.Follows;
    if C.PcOf(j.c, t).Sharing? {
      act := GoesToReady(j, t);
    } else {
      var e := E.Onward(j.c, t);
      hide C.Legal;
      act := Inside(e);
    }
  }

  lemma GoesToReady(j: Joint, t: O.Tid) returns (act: Act)
    requires C.Inv(j.c) && R.PcOf(j.s, t).Idle? && C.PcOf(j.c, t).Sharing?
    ensures Allowed(j, act) && E.Follows(C.PcOf(j.c, t), C.PcOf(Next(j, act).c, t), j.c.queue == [])
  {
    var i := C.Carried(j.c, t);
    hide C.Inv, C.Next, Calls, Call;
    var n := E.NodeAddress(j.s.blocks.Keys + j.c.metas.Keys + j.c.call.Keys);
    act := Inside(C.AllocNode(t, n, j.s.h.allocs, 0));
    E.AllocNodeEffect(j.c, t, i, n, j.s.h.allocs, 0);
  }

  lemma GoesOnOutside(j: Joint, t: O.Tid) returns (act: Act)
    requires R.Sane(j.s) && !R.PcOf(j.s, t).Idle? && !R.PcOf(j.s, t).Stopped?
    ensures Allowed(j, act) && R.PcOf(Next(j, act).s, t) != R.PcOf(j.s, t)
  {
    hide R.Sane, R.Next, Follow, Seen;
    if R.PcOf(j.s, t).Moving? {
      act := Outside(R.ReallocFails(t));
      RE.ReallocFailsEffect(j.s, t, R.PcOf(j.s, t).a, R.PcOf(j.s, t).size);
    } else {
      var e := RE.Onward(j.s, t);
      act := Outside(e);
    }
  }

  // ----- A joint run is a run of either -----

  lemma ChannelRunOn(es: seq<C.Step>, e: C.Step)
    ensures C.Run(map[], es + [e]) == C.Next(C.Run(map[], es), e)
  {
    assert (es + [e])[..|es + [e]| - 1] == es;
  }

  lemma {:induction false} FollowRun(es: seq<C.Step>, xs: seq<C.Step>)
    ensures Follow(C.Run(map[], es), xs) == C.Run(map[], es + xs)
    decreases xs
  {
    if xs == [] {
      assert es + xs == es;
    } else {
      ChannelRunOn(es, xs[0]);
      FollowRun(es + [xs[0]], xs[1..]);
      assert es + [xs[0]] + xs[1..] == es + xs;
    }
  }

  /** The registry of a joint run is one that `RegistryModel` runs to, so all that is proved of those holds. */
  lemma {:induction false} IsRegistryRun(acts: seq<Act>) returns (es: seq<R.Step>)
    ensures Run(acts).s == R.Run(es)
  {
    es := [];
    if acts != [] {
      var j, act := Run(acts[..|acts| - 1]), acts[|acts| - 1];
      es := IsRegistryRun(acts[..|acts| - 1]);
      if Allowed(j, act) {
        if act.Outside? {
          RegistryRunOn(es, act.outer);
          es := es + [act.outer];
        } else if Call(j, act.inner) != [] {
          RegistryRunOn(es, Call(j, act.inner)[0]);
          es := es + [Call(j, act.inner)[0]];
        }
      }
    }
  }

  /** And the channel is one that `ChannelModel` runs to. */
  lemma {:induction false} IsChannelRun(acts: seq<Act>) returns (es: seq<C.Step>)
    ensures Run(acts).c == C.Run(map[], es)
  {
    es := [];
    if acts != [] {
      var j, act := Run(acts[..|acts| - 1]), acts[|acts| - 1];
      es := IsChannelRun(acts[..|acts| - 1]);
      if Allowed(j, act) {
        if act.Outside? {
          FollowRun(es, Seen(j, act.outer));
          es := es + Seen(j, act.outer);
        } else {
          ChannelRunOn(es, act.inner);
          es := es + [act.inner];
        }
      }
    }
  }

  lemma ClaimedThere(j: Joint, t: O.Tid, m: Addr)
    requires Allowed(j, Inside(C.ClaimMsg(t))) && Carries(j.c, t) && m == j.c.items[j.c.pc[t].i].msg
    requires m in j.s.blocks && j.s.blocks[m].place.Listed?
    ensures Next(j, Inside(C.ClaimMsg(t))).s.blocks == j.s.blocks[m := j.s.blocks[m].(meta := O.Claim(j.s.blocks[m].meta, t))]
  {
    assert Call(j, C.ClaimMsg(t)) == [R.Claim(t, m)];
  }

  lemma Delivered(j: Joint, t: O.Tid) returns (m: Addr)
    requires C.Inv(j.c) && Published(j.s.blocks, j.c.call, j.c.items) && C.PcOf(j.c, t).Claiming? && R.PcOf(j.s, t).Idle?
    ensures Carries(j.c, t) && m == j.c.items[j.c.pc[t].i].msg
    ensures var s' := Next(j, Inside(C.ClaimMsg(t))).s;
      m in s'.blocks && s'.blocks[m].place.Listed? && s'.blocks[m].meta.state == O.Owned && s'.blocks[m].meta.owner == t
  {
    m := MessageIsPublished(j.s.blocks, j.c, t);
    ClaimedThere(j, t, m);
  }

  /** What the receiver ends with is the registry's: the message is published and OWNED by it there. */
  lemma {:induction false} DeliveredInRegistry(acts: seq<Act>, t: O.Tid) returns (m: Addr)
    requires C.PcOf(Run(acts).c, t).Claiming? && R.PcOf(Run(acts).s, t).Idle?
    ensures Carries(Run(acts).c, t) && m == Run(acts).c.items[Run(acts).c.pc[t].i].msg
    ensures var s' := Next(Run(acts), Inside(C.ClaimMsg(t))).s;
      m in s'.blocks && s'.blocks[m].place.Listed? && s'.blocks[m].meta.state == O.Owned && s'.blocks[m].meta.owner == t
  {
    RunInv(acts);
    m := Delivered(Run(acts), t);
  }
}
