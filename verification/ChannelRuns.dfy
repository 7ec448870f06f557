/** What the invariants of the channel mean for senders and receivers, over every run. */
module ChannelRuns {
  import opened Addresses
  import opened ChannelModel
  import opened Seqs
  import O = Ownership

  // ----- No lost wake-up -----

  /**
   While a receiver is blocked without a signal, every queued message has a woken receiver that still
   has to look at the queue; a sender inside its critical section may owe one more signal.
   */
  lemma {:induction false} NoLostWakeup(metas: map<Addr, O.Meta>, es: seq<Step>, t: Tid)
    requires PcOf(Run(metas, es), t).Waiting?
    ensures var s := Run(metas, es); |s.queue| <= |WokenSet(s.pc)| + PendingSignal(s.mutex, s.pc)
    ensures var s := Run(metas, es); s.mutex.Unheld? ==> |s.queue| <= |WokenSet(s.pc)|
  {
    RunInv(metas, es);
    assert t in WaitingSet(Run(metas, es).pc);
  }

  // ----- The bound is met -----

  lemma {:induction false} RunOn(metas: map<Addr, O.Meta>, es: seq<Step>, e: Step)
    ensures Run(metas, es + [e]) == Next(Run(metas, es), e)
  {
    assert (es + [e])[..|es|] == es;
  }

  function Receive(t: Tid, es: seq<Step>): seq<Step> {
    es + [Recv(t)] + [Lock(t)] + [Check(t)]
  }

  /** A receiver that finds the queue empty blocks. */
  lemma {:induction false} Blocks(metas: map<Addr, O.Meta>, es: seq<Step>, t: Tid)
    requires var s := Run(metas, es); PcOf(s, t).Idle? && s.mutex.Unheld? && s.queue == []
    ensures Run(metas, Receive(t, es)) == Run(metas, es).(pc := Run(metas, es).pc[t := Waiting])
  {
    RunOn(metas, es, Recv(t));
    RunOn(metas, es + [Recv(t)], Lock(t));
    RunOn(metas, es + [Recv(t)] + [Lock(t)], Check(t));
    BlockSteps(Run(metas, es), t);
  }

  lemma BlockSteps(s: State, t: Tid)
    requires PcOf(s, t).Idle? && s.mutex.Unheld? && s.queue == []
    ensures Next(Next(Next(s, Recv(t)), Lock(t)), Check(t)) == s.(pc := s.pc[t := Waiting])
  {
    var s1 := Next(s, Recv(t));
    assert s1 == s.(pc := s.pc[t := Entering]);
    var s2 := Next(s1, Lock(t));
    assert s2 == s1.(pc := s1.pc[t := Checking(false)], mutex := Held(t));
    var s3 := Next(s2, Check(t));
    assert s3.pc == s.pc[t := Waiting];
  }

  function SendToLink(t: Tid, msg: Addr, n: Addr, es: seq<Step>): seq<Step> {
    es + [Share(t, msg)] + [AllocNode(t, n, 0, 0)] + [Lock(t)] + [Link(t)]
  }

  predicate CanSend(s: State, t: Tid, msg: Addr, n: Addr) {
    && PcOf(s, t).Idle? && s.mutex.Unheld? && msg != NULL && msg in s.metas && O.Share(s.metas[msg], t).Ok?
    && s.metas[msg].state != O.Freed && msg !in s.call && n != NULL && n !in s.metas && n !in s.call && n != msg
  }

  lemma {:induction false} Links(metas: map<Addr, O.Meta>, es: seq<Step>, t: Tid, msg: Addr, n: Addr)
    requires CanSend(Run(metas, es), t, msg, n)
    ensures var s := Run(metas, es); var s' := Run(metas, SendToLink(t, msg, n, es));
      s'.pc == s.pc[t := Signalling] && s'.mutex == Held(t) && s'.queue == s.queue + [s.begun]
  {
    RunOn(metas, es, Share(t, msg));
    RunOn(metas, es + [Share(t, msg)], AllocNode(t, n, 0, 0));
    RunOn(metas, es + [Share(t, msg)] + [AllocNode(t, n, 0, 0)], Lock(t));
    RunOn(metas, es + [Share(t, msg)] + [AllocNode(t, n, 0, 0)] + [Lock(t)], Link(t));
    var s := Run(metas, es);
    var s1 := Next(s, Share(t, msg));
    var s2 := Next(s1, AllocNode(t, n, 0, 0));
    ReadySteps(s, t, msg, n);
    LinkSteps(s2, t);
    assert s.pc[t := Ready(s.begun)][t := Signalling] == s.pc[t := Signalling];
  }

  lemma ReadySteps(s: State, t: Tid, msg: Addr, n: Addr)
    requires CanSend(s, t, msg, n)
    ensures var s' := Next(Next(s, Share(t, msg)), AllocNode(t, n, 0, 0));
      s'.pc == s.pc[t := Ready(s.begun)] && s'.mutex == s.mutex && s'.queue == s.queue && s.begun in s'.items
  {
    var s1 := Next(s, Share(t, msg));
    assert s1.pc == s.pc[t := Sharing(s.begun)] && n !in s1.metas && n !in s1.call && s.begun in s1.items;
  }

  lemma LinkSteps(s: State, t: Tid)
    requires PcOf(s, t).Ready? && s.pc[t].i in s.items && s.mutex.Unheld?
    ensures var s' := Next(Next(s, Lock(t)), Link(t));
      s'.pc == s.pc[t := Signalling] && s'.mutex == Held(t) && s'.queue == s.queue + [s.pc[t].i]
  {
    var s1 := Next(s, Lock(t));
    assert s1 == s.(pc := s.pc[t := Linking(s.pc[t].i)], mutex := Held(t));
  }

  lemma {:induction false} Signals(metas: map<Addr, O.Meta>, es: seq<Step>, t: Tid, w: Tid)
    requires var s := Run(metas, es); PcOf(s, t).Signalling? && PcOf(s, w).Waiting?
    ensures var s := Run(metas, es); var s' := Run(metas, es + [Signal(t, w)] + [Unlock(t)]);
      s'.pc == s.pc[w := Woken][t := Idle] && s'.mutex.Unheld? && s'.queue == s.queue
  {
    RunOn(metas, es, Signal(t, w));
    RunOn(metas, es + [Signal(t, w)], Unlock(t));
    var s := Run(metas, es);
    assert w in WaitingSet(s.pc);
    assert Next(s, Signal(t, w)) == s.(pc := s.pc[w := Woken][t := Leaving]);
  }

  function Linked(): seq<Step> {
    SendToLink(3, 7, 8, Receive(2, Receive(1, [])))
  }

  function Signalled(): seq<Step> {
    Linked() + [Signal(3, 1)] + [Unlock(3)]
  }

  lemma {:induction false} BothBlock(metas: map<Addr, O.Meta>)
    ensures var s := Run(metas, Receive(2, Receive(1, [])));
      && s.pc == map[1 := Waiting, 2 := Waiting] && s.begun == 0 && s.mutex.Unheld? && s.queue == []
      && s.metas == metas && s.call == map[]
  {
    Blocks(metas, [], 1);
    Blocks(metas, Receive(1, []), 2);
  }

  /**
   Two receivers block and a third thread sends.  Between its link and its signal the queue is longer
   than the woken receivers are many, by the signal it owes; afterwards, with the mutex free and one
   receiver still blocked, the two are equal.
   */
  lemma {:induction false} BoundIsMet()
    ensures var s := Run(map[7 := O.Fresh(0, 0, 3)], Linked());
      PcOf(s, 1).Waiting? && |s.queue| == |WokenSet(s.pc)| + 1 && PendingSignal(s.mutex, s.pc) == 1
    ensures var s := Run(map[7 := O.Fresh(0, 0, 3)], Signalled());
      PcOf(s, 2).Waiting? && s.mutex.Unheld? && |s.queue| == |WokenSet(s.pc)| == 1
  {
    var metas := map[7 := O.Fresh(0, 0, 3)];
    BothBlock(metas);
    hide Next;
    Links(metas, Receive(2, Receive(1, [])), 3, 7, 8);
    var l := Run(metas, Linked()).pc;
    assert l == map[1 := Waiting, 2 := Waiting, 3 := Signalling];
    assert WokenSet(l) == {};
    Signals(metas, Linked(), 3, 1);
    assert WokenSet(Run(metas, Signalled()).pc) == {1};
  }

  /** Sleepers and woken receivers are there when they are counted. */
  lemma NobodyCounted(pc: Pcs)
    ensures (forall t :: t in pc ==> !pc[t].Waiting?) ==> WaitingSet(pc) == {}
    ensures (forall t :: t in pc ==> !(pc[t].Woken? || pc[t] == Checking(true))) ==> WokenSet(pc) == {}
  {
    if forall t :: t in pc ==> !pc[t].Waiting? { assert WaitingSet(pc) == {}; }
    if forall t :: t in pc ==> !(pc[t].Woken? || pc[t] == Checking(true)) { assert WokenSet(pc) == {}; }
  }

  /** Whoever holds the mutex can take its next step. */
  lemma HolderMoves(s: State) returns (e: Step)
    requires Inv(s) && s.mutex.Held?
    ensures Legal(s, e) && !e.Spurious? && PcOf(Next(s, e), s.mutex.t) != PcOf(s, s.mutex.t)
  {
    var t := s.mutex.t;
    match s.pc[t]
    case Linking(_) =>
      var i := Carried(s, t);
      e := Link(t);
    case Signalling =>
      if WaitingSet(s.pc) == {} {
        e := Signal(t, t);
      } else {
        NobodyCounted(s.pc);
        var w :| w in s.pc && s.pc[w].Waiting?;
        e := Signal(t, w);
      }
    case Checking(_) =>
      e := Check(t);
      if s.queue != [] { HeadIsQueued(s.items, s.queue); }
    case _ => e := Unlock(t);
  }

  /** A receiver never sleeps beside a message with everybody else stuck: someone can move. */
  lemma {:induction false} SomebodyMoves(metas: map<Addr, O.Meta>, es: seq<Step>, t: Tid) returns (e: Step, u: Tid)
    requires PcOf(Run(metas, es), t).Waiting? && Run(metas, es).queue != []
    ensures Legal(Run(metas, es), e) && !e.Spurious?
    ensures u != t && PcOf(Next(Run(metas, es), e), u) != PcOf(Run(metas, es), u)
  {
    RunInv(metas, es);
    var s := Run(metas, es);
    if s.mutex.Held? {
      e := HolderMoves(s);
      u := s.mutex.t;
    } else {
      NoLostWakeup(metas, es, t);
      NobodyCounted(s.pc);
      u :| u in s.pc && (s.pc[u].Woken? || s.pc[u] == Checking(true));
      e := Lock(u);
    }
  }

  // ----- Delivery -----

  /** What is received is what was linked, in that order, the queue still to come; nothing twice. */
  lemma {:induction false} FirstInFirstOut(metas: map<Addr, O.Meta>, es: seq<Step>)
    ensures var s := Run(metas, es); s.sent == s.taken + s.queue && Distinct(s.sent)
  {
    RunInv(metas, es);
  }

  /** One sender's messages leave in the order of its calls. */
  lemma {:induction false} SenderOrder(metas: map<Addr, O.Meta>, es: seq<Step>, p: nat, q: nat)
    requires p < q < |Run(metas, es).sent|
    ensures var s := Run(metas, es);
      s.sent[p] in s.items && s.sent[q] in s.items && (s.items[s.sent[p]].from == s.items[s.sent[q]].from ==> s.sent[p] < s.sent[q])
  {
    RunInv(metas, es);
  }

  /** Every message sent is on its way in, queued or received, and only one of these. */
  lemma {:induction false} Conservation(metas: map<Addr, O.Meta>, es: seq<Step>)
    ensures var s := Run(metas, es); s.begun == |OutSet(s.items)| + |s.queue| + |s.taken|
  {
    RunInv(metas, es);
    var s := Run(metas, es);
    CountStages(s.items, s.queue, s.begun, s.sent, s.taken);
  }

  lemma CountStages(items: Items, queue: seq<int>, begun: nat, sent: seq<int>, taken: seq<int>)
    requires OrderInv(items, queue, begun, sent, taken)
    ensures begun == |OutSet(items)| + |queue| + |taken|
  {
    DistinctTail(taken, queue);
    DistinctHead(taken, queue);
    DistinctCard(queue);
    DistinctCard(taken);
    Stages(items);
    NumbersCard(items.Keys, begun);
  }

  lemma SameSet<T>(a: set<T>, b: set<T>)
    requires forall x :: x in a <==> x in b
    ensures a == b
  {
  }

  lemma NumbersCard(s: set<int>, n: nat)
    requires forall i :: i in s <==> 0 <= i < n
    ensures |s| == n
  {
    BelowCard(n);
    forall i: int ensures i in s <==> i in Below(n) {
    }
    SameSet(s, Below(n));
  }

  lemma Stages(items: Items)
    ensures |items.Keys| == |OutSet(items)| + |QueuedSet(items)| + |BackSet(items)|
  {
    var out, queued, received := OutSet(items), QueuedSet(items), BackSet(items);
    assert queued !! received && out !! queued + received;
    forall i ensures i in items <==> i in out + (queued + received) {
      if i in items { assert items[i].place.Out? || items[i].place.Queued? || items[i].place.Back? || items[i].place.Done?; }
    }
    assert items.Keys == out + (queued + received);
  }

  ghost function Below(n: nat): set<int> {
    if n == 0 then {} else Below(n - 1) + {n - 1}
  }

  lemma {:induction false} BelowCard(n: nat)
    ensures |Below(n)| == n && forall i :: i in Below(n) <==> 0 <= i < n
  {
    if n > 0 {
      BelowCard(n - 1);
    }
  }

  function Rank(p: Place): int {
    if p.Out? then 0 else if p.Queued? then 1 else if p.Back? then 2 else 3
  }

  /** Where a message is only advances; once received it stays with the receiver that took it. */
  predicate Advances(a: Item, b: Item) {
    && b.msg == a.msg && b.from == a.from && Rank(a.place) <= Rank(b.place)
    && (a.place.Out? && b.place.Out? ==> b.place == a.place)
    && (a.place.Back? ==> b.place == a.place || b.place == Done(a.place.t))
    && (a.place.Done? ==> b.place == a.place)
  }

  lemma SendAdvances(s: State, e: Step, i: int)
    requires Hands(s.pc, s.items) && s.begun !in s.items && i in s.items && Legal(s, e) && Sending(e)
    ensures i in Next(s, e).items && Advances(s.items[i], Next(s, e).items[i])
  {
    if e.AllocNode? || e.Link? {
      var j := Carried(s, e.t);
    }
  }

  lemma RecvAdvances(s: State, e: Step, i: int)
    requires Hands(s.pc, s.items) && Elems(s.queue) == QueuedSet(s.items) && i in s.items && Legal(s, e) && Receiving(e)
    ensures i in Next(s, e).items && Advances(s.items[i], Next(s, e).items[i])
  {
    if e.FreeNode? || e.ClaimMsg? {
      var j := Carried(s, e.t);
    } else if s.queue != [] {
      HeadIsQueued(s.items, s.queue);
    }
  }

  lemma StepAdvances(s: State, e: Step, i: int)
    requires Inv(s) && i in s.items
    ensures i in Next(s, e).items && Advances(s.items[i], Next(s, e).items[i])
  {
    if Legal(s, e) {
      if Sending(e) {
        SendAdvances(s, e, i);
      } else if Receiving(e) {
        RecvAdvances(s, e, i);
      }
    }
  }

  /** Over the rest of any run: the pointer received is the pointer sent, and only one thread gets it. */
  lemma {:induction false} ReceivedOnce(metas: map<Addr, O.Meta>, es: seq<Step>, later: seq<Step>, i: int)
    requires i in Run(metas, es).items
    ensures i in Run(metas, es + later).items
    ensures Advances(Run(metas, es).items[i], Run(metas, es + later).items[i])
  {
    if later == [] {
      assert es + later == es;
    } else {
      var n := |later| - 1;
      ReceivedOnce(metas, es, later[..n], i);
      assert (es + later)[..|es + later| - 1] == es + later[..n];
      RunInv(metas, es + later[..n]);
      StepAdvances(Run(metas, es + later[..n]), later[n], i);
    }
  }

  // ----- Ownership -----

  /** A message is SHARED from the share to the receiver's claim, whoever borrows it meanwhile. */
  lemma {:induction false} UnderWayIsShared(metas: map<Addr, O.Meta>, es: seq<Step>, i: int)
    requires i in Run(metas, es).items && !Run(metas, es).items[i].place.Done?
    ensures var s := Run(metas, es); s.items[i].msg in s.metas && s.metas[s.items[i].msg].state == O.Shared
  {
    RunInv(metas, es);
    var s := Run(metas, es);
    assert MsgOwned(i, s.items[i], s.metas, s.call);
  }

  /** Freeing the queue node passes the registry's checks in every interleaving. */
  lemma {:induction false} NodeFreesCleanly(metas: map<Addr, O.Meta>, es: seq<Step>, t: Tid)
    requires PcOf(Run(metas, es), t).Freeing?
    ensures var s := Run(metas, es); var i := s.pc[t].i;
      i in s.items && s.items[i].node in s.metas && O.Free(s.metas[s.items[i].node], t).Ok? && PcOf(Next(s, FreeNode(t)), t) == Claiming(i)
  {
    RunInv(metas, es);
    NodeFrees(Run(metas, es), t);
    var i := Carried(Run(metas, es), t);
  }

  /**
   After its last step the receiver is the OWNED owner of the message: it may free it exactly when
   nobody has borrowed it, and no other thread may.
   */
  lemma {:induction false} ReceiverOwns(metas: map<Addr, O.Meta>, es: seq<Step>, t: Tid, u: Tid)
    requires PcOf(Run(metas, es), t).Claiming?
    ensures var s' := Next(Run(metas, es), ClaimMsg(t)); var i := Run(metas, es).pc[t].i;
      && PcOf(s', t).Idle? && i in s'.items && s'.items[i].place == Done(t) && s'.items[i].msg in s'.metas
      && s'.metas[s'.items[i].msg].state == O.Owned && s'.metas[s'.items[i].msg].owner == t
      && (O.Free(s'.metas[s'.items[i].msg], t).Ok? <==> s'.metas[s'.items[i].msg].borrows == 0)
      && (u != t ==> O.Free(s'.metas[s'.items[i].msg], u).Fatal?)
  {
    RunInv(metas, es);
    var s := Run(metas, es);
    var i := Carried(s, t);
    assert MsgOwned(i, s.items[i], s.metas, s.call);
  }
}
