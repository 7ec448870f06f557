/**
 What each step of the channel does, field by field, and that a call under way gets on: asked for is
 only what the client has to see to and, where the code waits for it, the mutex.
 */
module ChannelEffects {
  import opened Addresses
  import opened ChannelModel
  import opened Seqs
  import H = OwnerHeap
  import O = Ownership

  // ----- Sending -----

  /** Only the owner may send: anybody else is stopped with a report. */
  lemma ShareEffect(s: State, t: Tid, msg: Addr)
    requires PcOf(s, t).Idle? && msg != NULL && msg in s.metas && s.metas[msg].state != O.Freed && msg !in s.call
    ensures var m := s.metas[msg]; var s' := Next(s, Share(t, msg));
      if m.owner != t then s' == s.(pc := s.pc[t := Stopped])
      else s' == s.(metas := s.metas[msg := O.Meta(m.id, m.size, O.Shared, m.borrows, m.owner)],
                    items := s.items[s.begun := Item(msg, t, NULL, Out(t))], call := s.call[msg := s.begun],
                    begun := s.begun + 1, pc := s.pc[t := Sharing(s.begun)])
  {
  }

  lemma AllocNodeEffect(s: State, t: Tid, i: int, n: Addr, id: int, size: nat)
    requires PcOf(s, t) == Sharing(i) && i in s.items && n != NULL && n !in s.metas && n !in s.call
    ensures Next(s, AllocNode(t, n, id, size)) ==
      s.(metas := s.metas[n := O.Meta(id, size, O.Owned, 0, t)], items := s.items[i := s.items[i].(node := n)],
         call := s.call[n := i], pc := s.pc[t := Ready(i)])
  {
  }

  /** Whoever waits for the mutex gets it when it is free; a woken receiver looks at the queue again. */
  lemma LockEffect(s: State, t: Tid)
    requires s.mutex.Unheld? && (PcOf(s, t).Ready? || PcOf(s, t).Entering? || PcOf(s, t).Woken?)
    ensures var p := match PcOf(s, t) case Ready(i) => Linking(i) case Entering => Checking(false) case _ => Checking(true);
      Next(s, Lock(t)) == s.(mutex := Held(t), pc := s.pc[t := p])
  {
  }

  lemma LinkEffect(s: State, t: Tid, i: int)
    requires PcOf(s, t) == Linking(i) && i in s.items
    ensures Next(s, Link(t)) == s.(queue := s.queue + [i], sent := s.sent + [i],
                                   items := s.items[i := s.items[i].(place := Queued)], pc := s.pc[t := Signalling])
  {
  }

  /** A signal wakes one blocked receiver if there is one, and nobody else. */
  lemma SignalEffect(s: State, t: Tid, w: Tid)
    requires PcOf(s, t).Signalling?
    ensures PcOf(s, w).Waiting? ==> Next(s, Signal(t, w)) == s.(pc := s.pc[w := Woken][t := Leaving])
    ensures (forall u :: !PcOf(s, u).Waiting?) ==> Next(s, Signal(t, w)) == s.(pc := s.pc[t := Leaving])
  {
    if PcOf(s, w).Waiting? {
      assert w in WaitingSet(s.pc);
    } else if forall u :: !PcOf(s, u).Waiting? {
      Nobody(s);
    }
  }

  lemma Nobody(s: State)
    requires forall u :: !PcOf(s, u).Waiting?
    ensures WaitingSet(s.pc) == {}
  {
    forall u | u in s.pc ensures !s.pc[u].Waiting? {
      assert PcOf(s, u) == s.pc[u];
    }
    assert WaitingSet(s.pc) == {};
  }

  lemma UnlockEffect(s: State, t: Tid)
    ensures PcOf(s, t).Leaving? ==> Next(s, Unlock(t)) == s.(mutex := Unheld, pc := s.pc[t := Idle])
    ensures PcOf(s, t).Taking? ==> Next(s, Unlock(t)) == s.(mutex := Unheld, pc := s.pc[t := Holding(PcOf(s, t).i)])
  {
  }

  // ----- Receiving -----

  lemma RecvEffect(s: State, t: Tid)
    requires PcOf(s, t).Idle?
    ensures Next(s, Recv(t)) == s.(pc := s.pc[t := Entering])
  {
  }

  /** A blocked receiver may wake up at any time without a signal. */
  lemma SpuriousEffect(s: State, t: Tid)
    requires PcOf(s, t).Waiting?
    ensures Next(s, Spurious(t)) == s.(pc := s.pc[t := Woken])
  {
  }

  /** A receiver blocks exactly when the queue is empty; otherwise it takes the oldest message. */
  lemma CheckEffect(s: State, t: Tid)
    requires PcOf(s, t).Checking? && (s.queue != [] ==> s.queue[0] in s.items)
    ensures var s' := Next(s, Check(t));
      if s.queue == [] then s' == s.(mutex := Unheld, pc := s.pc[t := Waiting])
      else
        var i := s.queue[0];
        s' == s.(queue := s.queue[1..], taken := s.taken + [i], items := s.items[i := s.items[i].(place := Back(t))],
                 pc := s.pc[t := Taking(i)])
  {
  }

  lemma ClaimNodeEffect(s: State, t: Tid, i: int)
    requires PcOf(s, t) == Holding(i) && i in s.items && s.items[i].node in s.metas
    ensures var n := s.items[i].node; var m := s.metas[n];
      Next(s, ClaimNode(t)) == s.(metas := s.metas[n := O.Meta(m.id, m.size, O.Owned, m.borrows, t)], pc := s.pc[t := Freeing(i)])
  {
  }

  lemma FreeNodeEffect(s: State, t: Tid, i: int)
    requires PcOf(s, t) == Freeing(i) && i in s.items && s.items[i].node in s.metas
    ensures var n := s.items[i].node; var m := s.metas[n]; var s' := Next(s, FreeNode(t));
      if m.state == O.Freed || m.borrows > 0 || (m.state != O.Shared && m.owner != t) then s' == s.(pc := s.pc[t := Stopped])
      else s' == s.(metas := s.metas - {n}, call := s.call - {n}, items := s.items[i := s.items[i].(node := NULL)],
                    pc := s.pc[t := Claiming(i)])
  {
  }

  lemma ClaimMsgEffect(s: State, t: Tid, i: int)
    requires PcOf(s, t) == Claiming(i) && i in s.items && s.items[i].msg in s.metas
    ensures var a := s.items[i].msg; var m := s.metas[a];
      Next(s, ClaimMsg(t)) == s.(metas := s.metas[a := O.Meta(m.id, m.size, O.Owned, m.borrows, t)], call := s.call - {a},
                                 items := s.items[i := s.items[i].(place := Done(t))], pc := s.pc[t := Idle])
  {
  }

  // ----- Progress -----

  /** The thread is in a call and waits for nothing but perhaps the mutex. */
  predicate Runs(p: Pc) {
    !p.Idle? && !p.Stopped? && !p.Waiting?
  }

  /** A step that `t` takes itself inside a call. */
  predicate OfCall(e: Step, t: Tid) {
    && (e.AllocNode? || e.Lock? || e.Link? || e.Signal? || e.Unlock? || e.Check? || e.ClaimNode? || e.FreeNode? || e.ClaimMsg?)
    && e.t == t
  }

  /** Where its own next step takes a thread that runs, with or without something in the queue. */
  predicate Follows(p: Pc, p': Pc, empty: bool) {
    match p
    case Sharing(i) => p' == Ready(i)
    case Ready(i) => p' == Linking(i)
    case Linking(_) => p' == Signalling
    case Signalling => p' == Leaving
    case Leaving => p' == Idle
    case Entering => p' == Checking(false)
    case Woken => p' == Checking(true)
    case Checking(_) => if empty then p' == Waiting else p'.Taking?
    case Taking(i) => p' == Holding(i)
    case Holding(i) => p' == Freeing(i)
    case Freeing(i) => p' == Claiming(i)
    case Claiming(_) => p' == Idle
    case _ => false
  }

  /** In every reachable state every thread that runs has its next step, once the mutex is free or its own. */
  lemma {:induction false} CallsGoOn(metas: map<Addr, O.Meta>, es: seq<Step>, t: Tid) returns (e: Step)
    requires var s := Run(metas, es); Runs(PcOf(s, t)) && (s.mutex.Unheld? || s.mutex == Held(t))
    ensures var s := Run(metas, es);
      Legal(s, e) && OfCall(e, t) && Follows(PcOf(s, t), PcOf(Next(s, e), t), s.queue == [])
  {
    RunInv(metas, es);
    e := Onward(Run(metas, es), t);
  }

  /** Only a thread inside a critical section has the mutex. */
  lemma Outside(s: State, t: Tid)
    requires Inv(s) && (s.mutex.Unheld? || s.mutex == Held(t)) && !NeedsMutex(PcOf(s, t))
    ensures s.mutex.Unheld?
  {
  }

  lemma Onward(s: State, t: Tid) returns (e: Step)
    requires Inv(s) && Runs(PcOf(s, t)) && (s.mutex.Unheld? || s.mutex == Held(t))
    ensures Legal(s, e) && OfCall(e, t) && Follows(PcOf(s, t), PcOf(Next(s, e), t), s.queue == [])
    ensures e.AllocNode? ==> PcOf(s, t).Sharing?
  {
    hide Inv, Next, Legal, Follows;
    var p := PcOf(s, t);
    if p.Ready? || p.Entering? || p.Woken? {
      e := OnwardToLock(s, t);
    } else if p.Holding? || p.Freeing? || p.Claiming? {
      e := OnwardOutside(s, t);
    } else {
      e := OnwardInside(s, t);
    }
  }

  lemma OnwardToLock(s: State, t: Tid) returns (e: Step)
    requires Inv(s) && (PcOf(s, t).Ready? || PcOf(s, t).Entering? || PcOf(s, t).Woken?)
    requires s.mutex.Unheld? || s.mutex == Held(t)
    ensures e == Lock(t) && Legal(s, e) && Follows(PcOf(s, t), PcOf(Next(s, e), t), s.queue == [])
  {
    e := Lock(t);
    Outside(s, t);
    hide Inv, Next;
    LockEffect(s, t);
  }

  /** With the mutex, or before it was asked for. */
  lemma OnwardInside(s: State, t: Tid) returns (e: Step)
    requires Inv(s) && (NeedsMutex(PcOf(s, t)) || PcOf(s, t).Sharing?)
    ensures Legal(s, e) && OfCall(e, t) && Follows(PcOf(s, t), PcOf(Next(s, e), t), s.queue == [])
    ensures e.AllocNode? ==> PcOf(s, t).Sharing?
  {
    hide Inv, Next;
    match PcOf(s, t)
    case Sharing(i) =>
      var j := Carrier(s, t);
      var n := NodeAddress(s.metas.Keys + s.call.Keys);
      e := AllocNode(t, n, 0, 0);
      AllocNodeEffect(s, t, i, n, 0, 0);
    case Linking(i) =>
      var j := Carrier(s, t);
      e := Link(t);
      LinkEffect(s, t, i);
    case Signalling => e := SomeSignal(s, t);
    case Checking(_) =>
      e := Check(t);
      FirstIsThere(s);
      CheckEffect(s, t);
    case _ =>
      e := Unlock(t);
      UnlockEffect(s, t);
  }

  /** With a node taken and the mutex given back. */
  lemma OnwardOutside(s: State, t: Tid) returns (e: Step)
    requires Inv(s) && (PcOf(s, t).Holding? || PcOf(s, t).Freeing? || PcOf(s, t).Claiming?)
    ensures Legal(s, e) && OfCall(e, t) && !e.AllocNode? && Follows(PcOf(s, t), PcOf(Next(s, e), t), s.queue == [])
  {
    hide Inv, Next;
    InHand(s, t);
    match PcOf(s, t)
    case Holding(i) =>
      e := ClaimNode(t);
      ClaimNodeEffect(s, t, i);
    case Freeing(i) =>
      e := FreeNode(t);
      MayFreeNode(s, t);
      FreeNodeEffect(s, t, i);
    case Claiming(i) =>
      e := ClaimMsg(t);
      ClaimMsgEffect(s, t, i);
  }

  lemma Carrier(s: State, t: Tid) returns (i: int)
    requires Inv(s) && Working(PcOf(s, t))
    ensures i == PcOf(s, t).i && i in s.items
  {
    i := Carried(s, t);
  }

  lemma FirstIsThere(s: State)
    requires Inv(s)
    ensures s.queue != [] ==> s.queue[0] in s.items
  {
    if s.queue != [] { HeadIsQueued(s.items, s.queue); }
  }

  /** The node of a receiver that frees it is its own. */
  lemma MayFreeNode(s: State, t: Tid)
    requires Inv(s) && PcOf(s, t).Freeing?
    ensures var i := PcOf(s, t).i; i in s.items && s.items[i].node in s.metas
    ensures var m := s.metas[s.items[PcOf(s, t).i].node]; m.state == O.Owned && m.borrows == 0 && m.owner == t
  {
    var i := Carried(s, t);
    assert NodeOwned(i, s.items[i], s.metas, s.call);
    NodeFrees(s, t);
  }

  lemma SomeSignal(s: State, t: Tid) returns (e: Step)
    requires PcOf(s, t).Signalling?
    ensures Legal(s, e) && e.Signal? && e.t == t && PcOf(Next(s, e), t) == Leaving
  {
    if w :| PcOf(s, w).Waiting? {
      e := Signal(t, w);
      SignalEffect(s, t, w);
      assert w in WaitingSet(s.pc);
    } else {
      e := Signal(t, t);
      Nobody(s);
      SignalEffect(s, t, t);
    }
  }

  lemma {:induction false} NodeAddress(used: set<Addr>) returns (n: Addr)
    ensures n != NULL && n !in used
  {
    n := H.FreshAddress(used, 1, set x | x in used && x >= 1);
  }

  /** The node and the message in a receiver's hands are there. */
  lemma InHand(s: State, t: Tid)
    requires Inv(s) && (PcOf(s, t).Holding? || PcOf(s, t).Freeing? || PcOf(s, t).Claiming?)
    ensures var i := PcOf(s, t).i; i in s.items && s.items[i].msg in s.metas
    ensures var i := PcOf(s, t).i; !PcOf(s, t).Claiming? ==> s.items[i].node in s.metas
  {
    var i := Carried(s, t);
    assert MsgOwned(i, s.items[i], s.metas, s.call);
    if !PcOf(s, t).Claiming? { assert NodeOwned(i, s.items[i], s.metas, s.call); }
  }

  // ----- Whole calls, when nobody comes between -----

  ghost function SendCall(s: State, t: Tid, msg: Addr, n: Addr, id: int, size: nat, w: Tid): State {
    var s1 := Next(Next(s, Share(t, msg)), AllocNode(t, n, id, size));
    Next(Next(Next(Next(s1, Lock(t)), Link(t)), Signal(t, w)), Unlock(t))
  }

  /** The message is SHARED and last in the queue, and one blocked receiver, if there is one, is awake. */
  lemma SendCallEffect(s: State, t: Tid, msg: Addr, n: Addr, id: int, size: nat, w: Tid)
    requires PcOf(s, t).Idle? && s.mutex.Unheld? && msg != NULL && msg in s.metas && msg !in s.call
    requires s.metas[msg].state != O.Freed && s.metas[msg].owner == t
    requires n != NULL && n !in s.metas && n !in s.call
    requires PcOf(s, w).Waiting? || forall u :: !PcOf(s, u).Waiting?
    ensures var m := s.metas[msg]; var s' := SendCall(s, t, msg, n, id, size, w);
      && s'.metas == s.metas[msg := O.Meta(m.id, m.size, O.Shared, m.borrows, t)][n := O.Meta(id, size, O.Owned, 0, t)]
      && s'.queue == s.queue + [s.begun] && s'.begun == s.begun + 1 && s'.mutex.Unheld? && s'.taken == s.taken
      && s'.items == s.items[s.begun := Item(msg, t, n, Queued)]
      && s'.pc == if PcOf(s, w).Waiting? then s.pc[w := Woken][t := Idle] else s.pc[t := Idle]
  {
    hide Next;
    MadeReady(s, t, msg, n, id, size);
    var s2 := Next(Next(s, Share(t, msg)), AllocNode(t, n, id, size));
    forall u ensures PcOf(s, u).Waiting? <==> PcOf(s2, u).Waiting? {
    }
    Passed(s2, t, s.begun, w);
    assert s2.pc[w := Woken][t := Idle] == s.pc[w := Woken][t := Idle] && s2.pc[t := Idle] == s.pc[t := Idle];
    assert s2.items[s.begun := Item(msg, t, n, Queued)] == s.items[s.begun := Item(msg, t, n, Queued)];
  }

  /** The part of send before the critical section. */
  lemma MadeReady(s: State, t: Tid, msg: Addr, n: Addr, id: int, size: nat)
    requires PcOf(s, t).Idle? && msg != NULL && msg in s.metas && msg !in s.call
    requires s.metas[msg].state != O.Freed && s.metas[msg].owner == t
    requires n != NULL && n !in s.metas && n !in s.call
    ensures var m := s.metas[msg];
      Next(Next(s, Share(t, msg)), AllocNode(t, n, id, size)) ==
      s.(metas := s.metas[msg := O.Meta(m.id, m.size, O.Shared, m.borrows, t)][n := O.Meta(id, size, O.Owned, 0, t)],
         items := s.items[s.begun := Item(msg, t, n, Out(t))], call := s.call[msg := s.begun][n := s.begun],
         begun := s.begun + 1, pc := s.pc[t := Ready(s.begun)])
  {
    hide Next;
    ShareEffect(s, t, msg);
    var s1 := Next(s, Share(t, msg));
    AllocNodeEffect(s1, t, s.begun, n, id, size);
    assert s1.items[s.begun := Item(msg, t, n, Out(t))] == s.items[s.begun := Item(msg, t, n, Out(t))];
    assert s1.pc[t := Ready(s.begun)] == s.pc[t := Ready(s.begun)];
  }

  /** The critical section of send. */
  lemma Passed(s: State, t: Tid, i: int, w: Tid)
    requires PcOf(s, t) == Ready(i) && i in s.items && s.mutex.Unheld?
    requires PcOf(s, w).Waiting? || forall u :: !PcOf(s, u).Waiting?
    ensures Next(Next(Next(Next(s, Lock(t)), Link(t)), Signal(t, w)), Unlock(t)) ==
      s.(queue := s.queue + [i], sent := s.sent + [i], items := s.items[i := s.items[i].(place := Queued)],
         pc := if PcOf(s, w).Waiting? then s.pc[w := Woken][t := Idle] else s.pc[t := Idle])
  {
    hide Next;
    LockEffect(s, t);
    var s1 := Next(s, Lock(t));
    LinkEffect(s1, t, i);
    var s2 := Next(s1, Link(t));
    forall u ensures PcOf(s, u).Waiting? <==> PcOf(s2, u).Waiting? {
    }
    SignalEffect(s2, t, w);
    var s3 := Next(s2, Signal(t, w));
    assert s3.pc[t := Idle] == if PcOf(s, w).Waiting? then s.pc[w := Woken][t := Idle] else s.pc[t := Idle];
    UnlockEffect(s3, t);
  }

  ghost function RecvCall(s: State, t: Tid): State {
    var s1 := Next(Next(Next(Next(s, Recv(t)), Lock(t)), Check(t)), Unlock(t));
    Next(Next(Next(s1, ClaimNode(t)), FreeNode(t)), ClaimMsg(t))
  }

  /** The oldest message has left the queue OWNED by the receiver, and its node is gone. */
  lemma RecvCallEffect(s: State, t: Tid)
    requires Inv(s) && PcOf(s, t).Idle? && s.mutex.Unheld? && s.queue != []
    ensures var i := s.queue[0]; i in s.items && s.items[i].msg in s.metas && s.items[i].node in s.metas
    ensures var i := s.queue[0]; var it := s.items[i]; var m := s.metas[it.msg]; var s' := RecvCall(s, t);
      && s'.metas == (s.metas - {it.node})[it.msg := O.Meta(m.id, m.size, O.Owned, m.borrows, t)]
      && s'.queue == s.queue[1..] && s'.taken == s.taken + [i] && s'.mutex.Unheld? && s'.pc == s.pc[t := Idle]
      && s'.items == s.items[i := Item(it.msg, it.from, NULL, Done(t))]
  {
    hide Inv, Next;
    var i := s.queue[0];
    HeadThere(s);
    TakenOut(s, t);
    var s4 := Next(Next(Next(Next(s, Recv(t)), Lock(t)), Check(t)), Unlock(t));
    TakenHome(s4, t, i);
    assert s4.items[i := s4.items[i].(node := NULL, place := Done(t))]
        == s.items[i := Item(s.items[i].msg, s.items[i].from, NULL, Done(t))];
    assert s4.pc[t := Idle] == s.pc[t := Idle];
  }

  /** The critical section of recv, with a message there. */
  lemma TakenOut(s: State, t: Tid)
    requires PcOf(s, t).Idle? && s.mutex.Unheld? && s.queue != [] && s.queue[0] in s.items
    ensures var i := s.queue[0];
      Next(Next(Next(Next(s, Recv(t)), Lock(t)), Check(t)), Unlock(t)) ==
      s.(queue := s.queue[1..], taken := s.taken + [i], items := s.items[i := s.items[i].(place := Back(t))],
         pc := s.pc[t := Holding(i)])
  {
    hide Next;
    RecvEffect(s, t);
    var s1 := Next(s, Recv(t));
    LockEffect(s1, t);
    var s2 := Next(s1, Lock(t));
    CheckEffect(s2, t);
    var s3 := Next(s2, Check(t));
    UnlockEffect(s3, t);
    assert s3.pc[t := Holding(s.queue[0])] == s.pc[t := Holding(s.queue[0])];
  }

  lemma HeadThere(s: State)
    requires Inv(s) && s.queue != []
    ensures var i := s.queue[0]; i in s.items
    ensures var it := s.items[s.queue[0]]; it.msg in s.metas && it.node in s.metas && it.node != it.msg
    ensures var n := s.metas[s.items[s.queue[0]].node]; n.state == O.Owned && n.borrows == 0
  {
    HeadIsQueued(s.items, s.queue);
    var i := s.queue[0];
    assert Placed(i, s.items[i], s.pc);
    assert MsgOwned(i, s.items[i], s.metas, s.call) && NodeOwned(i, s.items[i], s.metas, s.call);
  }

  /** The part of recv after the critical section. */
  lemma TakenHome(s: State, t: Tid, i: int)
    requires PcOf(s, t) == Holding(i) && i in s.items
    requires var it := s.items[i]; it.msg in s.metas && it.node in s.metas && it.node != it.msg && s.metas[it.node].borrows == 0
    ensures var it := s.items[i]; var m := s.metas[it.msg]; var s' := Next(Next(Next(s, ClaimNode(t)), FreeNode(t)), ClaimMsg(t));
      && s'.metas == (s.metas - {it.node})[it.msg := O.Meta(m.id, m.size, O.Owned, m.borrows, t)]
      && s'.items == s.items[i := it.(node := NULL, place := Done(t))] && s'.pc == s.pc[t := Idle]
      && s'.queue == s.queue && s'.taken == s.taken && s'.mutex == s.mutex
  {
    ClaimNodeEffect(s, t, i);
    var s1 := Next(s, ClaimNode(t));
    FreeNodeEffect(s1, t, i);
    var s2 := Next(s1, FreeNode(t));
    assert s2.metas == s.metas - {s.items[i].node};
    ClaimMsgEffect(s2, t, i);
    hide Next;
  }
}
