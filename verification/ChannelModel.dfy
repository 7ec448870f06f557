/**
 The channel under interleaving: any number of senders and receivers, one mutex, one condition
 variable with spurious wake-ups, and the ownership of messages and queue nodes in the registry.
 Every step is what one thread does between two points where others may run.
 */
module ChannelModel {
  import opened Addresses
  import opened Seqs
  import O = Ownership

  type Tid = O.Tid

  /** Who has a message: `Back` is a receiver before its final claim, `Done` after it. */
  datatype Place = Out(t: Tid) | Queued | Back(t: Tid) | Done(t: Tid)

  /** One call of send, numbered; `node` is NULL until it is allocated and after it is freed. */
  datatype Item = Item(msg: Addr, from: Tid, node: Addr, place: Place)

  datatype Pc =
    | Idle
    | Sharing(i: int)            // message shared, node not allocated yet
    | Ready(i: int)              // node filled in, mutex not taken yet
    | Linking(i: int)            // holds the mutex, about to link
    | Signalling                 // linked, about to signal
    | Leaving                    // signalled, about to unlock
    | Entering                   // receiver without the mutex
    | Checking(woken: bool)      // holds the mutex, about to look at the head
    | Waiting                    // blocked in cond_wait, not signalled
    | Woken                      // signalled or woken spuriously, without the mutex
    | Taking(i: int)             // holds the mutex, has unlinked a node
    | Holding(i: int)            // unlocked, about to claim the node
    | Freeing(i: int)            // node claimed, about to free it
    | Claiming(i: int)           // node freed, about to claim the message
    | Stopped                    // fatal report

  datatype Mutex = Unheld | Held(t: Tid)

  type Pcs = map<Tid, Pc>

  type Items = map<int, Item>

  datatype State = State(
    metas: map<Addr, O.Meta>,    // the live blocks of the registry
    items: Items,                     // every send call that passed its share
    call: map<Addr, int>,        // which call a message or node under way belongs to
    queue: seq<int>,
    mutex: Mutex,
    pc: Pcs,
    begun: nat,                  // number of send calls
    sent: seq<int>,              // order of linking
    taken: seq<int>)             // order of unlinking

  function PcOf(s: State, t: Tid): Pc {
    if t in s.pc then s.pc[t] else Idle
  }

  // ----- Steps -----

  datatype Step =
    | Share(t: Tid, msg: Addr)
    | AllocNode(t: Tid, n: Addr, id: int, size: nat)
    | Lock(t: Tid)
    | Link(t: Tid)
    | Signal(t: Tid, w: Tid)
    | Unlock(t: Tid)
    | Recv(t: Tid)
    | Check(t: Tid)
    | ClaimNode(t: Tid)
    | FreeNode(t: Tid)
    | ClaimMsg(t: Tid)
    | Spurious(t: Tid)
    | Lend(a: Addr, borrows: nat)     // a message under way is borrowed or released by anyone
    | Elsewhere(a: Addr, m: O.Meta)   // any registry operation on a block that is not under way
    | Vanish(a: Addr)                 // such a block is freed

  ghost function WaitingSet(pc: Pcs): set<Tid> {
    set t | t in pc && pc[t].Waiting?
  }

  /** The woken receivers that have not looked at the queue again yet. */
  ghost function WokenSet(pc: Pcs): set<Tid> {
    set t | t in pc && (pc[t].Woken? || pc[t] == Checking(true))
  }

  /** The rules of clients: a message under way is not sent again, nor touched otherwise. */
  ghost predicate Legal(s: State, e: Step) {
    match e
    case Share(t, msg) => PcOf(s, t).Idle? && msg != NULL && msg in s.metas && s.metas[msg].state != O.Freed && msg !in s.call
    case AllocNode(t, n, _, _) => PcOf(s, t).Sharing? && n != NULL && n !in s.metas && n !in s.call
    case Lock(t) => s.mutex.Unheld? && (PcOf(s, t).Ready? || PcOf(s, t).Entering? || PcOf(s, t).Woken?)
    case Link(t) => PcOf(s, t).Linking?
    case Signal(t, w) => PcOf(s, t).Signalling? && (WaitingSet(s.pc) != {} ==> w in WaitingSet(s.pc))
    case Unlock(t) => PcOf(s, t).Leaving? || PcOf(s, t).Taking?
    case Recv(t) => PcOf(s, t).Idle?
    case Check(t) => PcOf(s, t).Checking?
    case ClaimNode(t) => PcOf(s, t).Holding?
    case FreeNode(t) => PcOf(s, t).Freeing?
    case ClaimMsg(t) => PcOf(s, t).Claiming?
    case Spurious(t) => PcOf(s, t).Waiting?
    case Lend(a, _) => a in s.call && a in s.metas && s.call[a] in s.items && s.items[s.call[a]].msg == a
    case Elsewhere(a, m) => a !in s.call && m.state != O.Freed
    case Vanish(a) => a !in s.call
  }

  function Go(s: State, t: Tid, p: Pc): State {
    s.(pc := s.pc[t := p])
  }

  function DoShare(s: State, t: Tid, msg: Addr): State
    requires msg in s.metas
  {
    var v := O.Share(s.metas[msg], t);
    if v.Fatal? then Go(s, t, Stopped)
    else Go(s, t, Sharing(s.begun))
      .(metas := s.metas[msg := v.meta], items := s.items[s.begun := Item(msg, t, NULL, Out(t))],
        call := s.call[msg := s.begun], begun := s.begun + 1)
  }

  function DoAllocNode(s: State, t: Tid, i: int, n: Addr, m: O.Meta): State
    requires i in s.items
  {
    Go(s, t, Ready(i)).(metas := s.metas[n := m], items := s.items[i := s.items[i].(node := n)],
                        call := s.call[n := i])
  }

  function DoLock(s: State, t: Tid): State {
    var p := match PcOf(s, t)
             case Ready(i) => Linking(i)
             case Woken => Checking(true)
             case _ => Checking(false);
    Go(s, t, p).(mutex := Held(t))
  }

  function DoLink(s: State, t: Tid, i: int): State
    requires i in s.items
  {
    Go(s, t, Signalling).(queue := s.queue + [i], sent := s.sent + [i], items := s.items[i := s.items[i].(place := Queued)])
  }

  /** The signal wakes a blocked receiver if there is one. */
  function DoSignal(s: State, t: Tid, w: Tid): State {
    if PcOf(s, w).Waiting? then Go(Go(s, w, Woken), t, Leaving) else Go(s, t, Leaving)
  }

  function DoUnlock(s: State, t: Tid): State {
    Go(s, t, if PcOf(s, t).Taking? then Holding(PcOf(s, t).i) else Idle).(mutex := Unheld)
  }

  /** The loop test: an empty queue releases the mutex and blocks in one go. */
  function DoCheck(s: State, t: Tid): State {
    if s.queue == [] then Go(s, t, Waiting).(mutex := Unheld)
    else if s.queue[0] !in s.items then s
    else Go(s, t, Taking(s.queue[0]))
      .(queue := s.queue[1..], taken := s.taken + [s.queue[0]],
        items := s.items[s.queue[0] := s.items[s.queue[0]].(place := Back(t))])
  }

  function DoClaimNode(s: State, t: Tid, i: int): State
    requires i in s.items && s.items[i].node in s.metas
  {
    Go(s, t, Freeing(i)).(metas := s.metas[s.items[i].node := O.Claim(s.metas[s.items[i].node], t)])
  }

  function DoFreeNode(s: State, t: Tid, i: int): State
    requires i in s.items && s.items[i].node in s.metas
  {
    var n := s.items[i].node;
    if O.Free(s.metas[n], t).Fatal? then Go(s, t, Stopped)
    else Go(s, t, Claiming(i)).(metas := s.metas - {n}, call := s.call - {n}, items := s.items[i := s.items[i].(node := NULL)])
  }

  function DoClaimMsg(s: State, t: Tid, i: int): State
    requires i in s.items && s.items[i].msg in s.metas
  {
    var m := s.items[i].msg;
    Go(s, t, Idle).(metas := s.metas[m := O.Claim(s.metas[m], t)], call := s.call - {m},
                    items := s.items[i := s.items[i].(place := Done(t))])
  }

  ghost function Next(s: State, e: Step): State {
    if !Legal(s, e) then s
    else match e
      case Share(t, msg) => DoShare(s, t, msg)
      case AllocNode(t, n, id, size) => if PcOf(s, t).i in s.items then DoAllocNode(s, t, PcOf(s, t).i, n, O.Fresh(id, size, t)) else s
      case Lock(t) => DoLock(s, t)
      case Link(t) => if PcOf(s, t).i in s.items then DoLink(s, t, PcOf(s, t).i) else s
      case Signal(t, w) => DoSignal(s, t, w)
      case Unlock(t) => DoUnlock(s, t)
      case Recv(t) => Go(s, t, Entering)
      case Check(t) => DoCheck(s, t)
      case ClaimNode(t) =>
        var i := PcOf(s, t).i;
        if i in s.items && s.items[i].node in s.metas then DoClaimNode(s, t, i) else s
      case FreeNode(t) =>
        var i := PcOf(s, t).i;
        if i in s.items && s.items[i].node in s.metas then DoFreeNode(s, t, i) else s
      case ClaimMsg(t) =>
        var i := PcOf(s, t).i;
        if i in s.items && s.items[i].msg in s.metas then DoClaimMsg(s, t, i) else s
      case Spurious(t) => Go(s, t, Woken)
      case Lend(a, n) => s.(metas := s.metas[a := s.metas[a].(borrows := n)])
      case Elsewhere(a, m) => s.(metas := s.metas[a := m])
      case Vanish(a) => s.(metas := s.metas - {a})
  }

  ghost function Start(metas: map<Addr, O.Meta>): State {
    State(metas, map[], map[], [], Unheld, map[], 0, [], [])
  }

  ghost function Run(metas: map<Addr, O.Meta>, es: seq<Step>): State {
    if es == [] then Start(metas) else Next(Run(metas, es[..|es| - 1]), es[|es| - 1])
  }

  // ----- Invariants -----

  predicate NeedsMutex(p: Pc) {
    p.Linking? || p.Signalling? || p.Leaving? || p.Checking? || p.Taking?
  }

  /** Exactly the holder of the mutex is inside a critical section. */
  ghost predicate MutexInv(mutex: Mutex, pc: Pcs) {
    && (forall t :: t in pc && NeedsMutex(pc[t]) ==> mutex == Held(t))
    && (mutex.Held? ==> mutex.t in pc && NeedsMutex(pc[mutex.t]))
  }

  /** The call a thread works for; -1 for none. */
  function Work(p: Pc): int {
    match p
    case Sharing(i) => i
    case Ready(i) => i
    case Linking(i) => i
    case Taking(i) => i
    case Holding(i) => i
    case Freeing(i) => i
    case Claiming(i) => i
    case _ => -1
  }

  predicate Working(p: Pc) {
    p.Sharing? || p.Ready? || p.Linking? || p.Taking? || p.Holding? || p.Freeing? || p.Claiming?
  }

  /** What a thread at `p` knows of its message: it has it, and the node is there when it must be. */
  predicate Fits(p: Pc, t: Tid, it: Item) {
    match p
    case Sharing(_) => it.place == Out(t) && it.node == NULL
    case Ready(_) => it.place == Out(t) && it.node != NULL
    case Linking(_) => it.place == Out(t) && it.node != NULL
    case Taking(_) => it.place == Back(t) && it.node != NULL
    case Holding(_) => it.place == Back(t) && it.node != NULL
    case Freeing(_) => it.place == Back(t) && it.node != NULL
    case Claiming(_) => it.place == Back(t) && it.node == NULL
    case _ => true
  }

  ghost predicate CarryInv(pc: Pcs, items: Items) {
    forall t :: t in pc && Working(pc[t]) ==> Work(pc[t]) in items && Fits(pc[t], t, items[Work(pc[t])])
  }

  /** A message with a thread is that thread's work; a queued one has its node, a delivered one none. */
  ghost predicate Placed(i: int, it: Item, pc: Pcs) {
    match it.place
    case Out(t) => t in pc && Work(pc[t]) == i
    case Queued => it.node != NULL
    case Back(t) => t in pc && Work(pc[t]) == i
    case Done(_) => it.node == NULL
  }

  ghost predicate PlaceInv(pc: Pcs, items: Items) {
    forall i :: i in items ==> i != -1 && Placed(i, items[i], pc)
  }

  /** The numbers of the calls whose message has not been linked yet. */
  ghost function OutSet(items: Items): set<int> {
    set i | i in items && items[i].place.Out?
  }

  ghost function QueuedSet(items: Items): set<int> {
    set i | i in items && items[i].place.Queued?
  }

  ghost function BackSet(items: Items): set<int> {
    set i | i in items && (items[i].place.Back? || items[i].place.Done?)
  }

  /** First in, first out, nothing lost, nothing twice. */
  ghost predicate OrderInv(items: Items, queue: seq<int>, begun: nat, sent: seq<int>, taken: seq<int>) {
    && sent == taken + queue
    && Distinct(sent)
    && (forall i :: i in items <==> 0 <= i < begun)
    && Elems(queue) == QueuedSet(items)
    && Elems(taken) == BackSet(items)
  }

  /** A thread sends one message at a time, so its messages are linked in the order of its calls. */
  ghost predicate SenderInv(items: Items, sent: seq<int>) {
    && (forall i :: i in items && items[i].place.Out? ==> items[i].place.t == items[i].from)
    && (forall i, j :: i in items && j in items && i < j && items[i].from == items[j].from ==> !items[i].place.Out?)
    && (forall p :: 0 <= p < |sent| ==> sent[p] in items && !items[sent[p]].place.Out?)
    && (forall p, q :: 0 <= p < q < |sent| && items[sent[p]].from == items[sent[q]].from ==> sent[p] < sent[q])
  }

  predicate MsgOwned(i: int, it: Item, metas: map<Addr, O.Meta>, call: map<Addr, int>) {
    it.msg != NULL && it.msg in call && call[it.msg] == i && it.msg in metas && metas[it.msg].state == O.Shared
  }

  predicate NodeOwned(i: int, it: Item, metas: map<Addr, O.Meta>, call: map<Addr, int>) {
    && it.node != it.msg && it.node in call && call[it.node] == i
    && it.node in metas && metas[it.node].state == O.Owned && metas[it.node].borrows == 0
  }

  predicate Uses(it: Item, a: Addr) {
    (a == it.msg && !it.place.Done?) || (a == it.node && a != NULL)
  }

  /** What is under way is live: a message SHARED, a node OWNED and not borrowed, each of one call. */
  ghost predicate OwnInv(metas: map<Addr, O.Meta>, items: Items, call: map<Addr, int>) {
    && (forall i :: i in items && !items[i].place.Done? ==> MsgOwned(i, items[i], metas, call))
    && (forall i :: i in items && items[i].node != NULL ==> NodeOwned(i, items[i], metas, call))
    && (forall a :: a in call ==> call[a] in items && Uses(items[call[a]], a))
  }

  /** A node whose freeing is next belongs to the thread that will free it. */
  ghost predicate ClaimedInv(metas: map<Addr, O.Meta>, items: Items, pc: Pcs) {
    forall t :: t in pc && pc[t].Freeing? && pc[t].i in items && items[pc[t].i].node in metas ==>
      metas[items[pc[t].i].node].owner == t
  }

  ghost function PendingSignal(mutex: Mutex, pc: Pcs): nat {
    if mutex.Held? && mutex.t in pc && pc[mutex.t].Signalling? then 1 else 0
  }

  /** No lost wake-up: messages beside a sleeper are all being come for. */
  ghost predicate WakeInv(mutex: Mutex, pc: Pcs, queue: seq<int>) {
    WaitingSet(pc) != {} ==> |queue| <= |WokenSet(pc)| + PendingSignal(mutex, pc)
  }

  ghost predicate Inv(s: State) {
    && MutexInv(s.mutex, s.pc) && CarryInv(s.pc, s.items) && PlaceInv(s.pc, s.items)
    && OrderInv(s.items, s.queue, s.begun, s.sent, s.taken) && SenderInv(s.items, s.sent)
    && OwnInv(s.metas, s.items, s.call) && ClaimedInv(s.metas, s.items, s.pc) && WakeInv(s.mutex, s.pc, s.queue)
  }

  predicate Sending(e: Step) {
    e.Share? || e.AllocNode? || e.Link? || e.Signal?
  }

  predicate Receiving(e: Step) {
    e.Recv? || e.Check? || e.ClaimNode? || e.FreeNode? || e.ClaimMsg? || e.Spurious?
  }

  // ----- Threads and the messages they carry -----

  lemma MoveKeeps(pc: Pcs, items: Items, t: Tid, p: Pc)
    requires CarryInv(pc, items) && PlaceInv(pc, items)
    requires Work(p) == (if t in pc then Work(pc[t]) else -1)
    requires Working(p) ==> Work(p) in items && Fits(p, t, items[Work(p)])
    ensures CarryInv(pc[t := p], items) && PlaceInv(pc[t := p], items)
  {
    var pc' := pc[t := p];
    forall i | i in items ensures Placed(i, items[i], pc') {
      assert Placed(i, items[i], pc);
    }
  }

  /** One thread moves on together with the message it picks up, carries or lays down. */
  lemma HandKeeps(pc: Pcs, items: Items, t: Tid, p: Pc, i: int, it: Item)
    requires CarryInv(pc, items) && PlaceInv(pc, items) && i != -1
    requires t in pc ==> Work(pc[t]) == -1 || Work(pc[t]) == i
    requires i in items ==> items[i].place == Out(t) || items[i].place == Queued || items[i].place == Back(t)
    requires Working(p) ==> Work(p) == i && Fits(p, t, it)
    requires Placed(i, it, pc[t := p])
    ensures CarryInv(pc[t := p], items[i := it]) && PlaceInv(pc[t := p], items[i := it])
  {
    var pc', items' := pc[t := p], items[i := it];
    forall u | u in pc' && Working(pc'[u])
      ensures Work(pc'[u]) in items' && Fits(pc'[u], u, items'[Work(pc'[u])])
    {
      assert u != t ==> u in pc && Work(pc[u]) in items && Fits(pc[u], u, items[Work(pc[u])]);
    }
    forall j | j in items' ensures j != -1 && Placed(j, items'[j], pc') {
      assert j != i ==> Placed(j, items[j], pc);
    }
  }

  ghost predicate Hands(pc: Pcs, items: Items) {
    CarryInv(pc, items) && PlaceInv(pc, items)
  }

  /** The message a working thread carries. */
  lemma Carried(s: State, t: Tid) returns (i: int)
    requires Hands(s.pc, s.items) && Working(PcOf(s, t))
    ensures i == Work(PcOf(s, t)) && i in s.items && i != -1 && t in s.pc && Fits(s.pc[t], t, s.items[i])
  {
    i := Work(s.pc[t]);
  }

  lemma SignalHands(s: State, t: Tid, w: Tid)
    requires Hands(s.pc, s.items) && Legal(s, Signal(t, w))
    ensures Hands(DoSignal(s, t, w).pc, s.items)
  {
    if PcOf(s, w).Waiting? {
      MoveKeeps(s.pc, s.items, w, Woken);
      MoveKeeps(s.pc[w := Woken], s.items, t, Leaving);
    } else {
      MoveKeeps(s.pc, s.items, t, Leaving);
    }
  }

  lemma CheckHands(s: State, t: Tid)
    requires Hands(s.pc, s.items) && Legal(s, Check(t)) && Elems(s.queue) == QueuedSet(s.items)
    ensures Hands(DoCheck(s, t).pc, DoCheck(s, t).items)
  {
    if s.queue == [] {
      MoveKeeps(s.pc, s.items, t, Waiting);
    } else {
      var i := s.queue[0];
      assert i in Elems(s.queue);
      HandKeeps(s.pc, s.items, t, Taking(i), i, s.items[i].(place := Back(t)));
    }
  }

  /** The steps of sending. */
  lemma SendHands(s: State, e: Step)
    requires Hands(s.pc, s.items) && Legal(s, e) && s.begun !in s.items
    requires Sending(e)
    ensures Hands(Next(s, e).pc, Next(s, e).items)
  {
    match e
    case Share(t, msg) =>
      if O.Share(s.metas[msg], t).Fatal? { MoveKeeps(s.pc, s.items, t, Stopped); }
      else { HandKeeps(s.pc, s.items, t, Sharing(s.begun), s.begun, Item(msg, t, NULL, Out(t))); }
    case AllocNode(t, n, _, _) =>
      var i := Carried(s, t);
      HandKeeps(s.pc, s.items, t, Ready(i), i, s.items[i].(node := n));
    case Link(t) =>
      var i := Carried(s, t);
      HandKeeps(s.pc, s.items, t, Signalling, i, s.items[i].(place := Queued));
    case Signal(t, w) => SignalHands(s, t, w);
  }

  /** The steps of receiving; freeing the node is known not to be fatal. */
  lemma RecvHands(s: State, e: Step)
    requires Hands(s.pc, s.items) && Legal(s, e) && Elems(s.queue) == QueuedSet(s.items)
    requires Receiving(e)
    requires e.FreeNode? ==> !FreesBadly(s, e.t)
    ensures Hands(Next(s, e).pc, Next(s, e).items)
  {
    match e
    case Recv(t) => MoveKeeps(s.pc, s.items, t, Entering);
    case Check(t) => CheckHands(s, t);
    case Spurious(t) => MoveKeeps(s.pc, s.items, t, Woken);
    case ClaimNode(t) =>
      var i := Carried(s, t);
      MoveKeeps(s.pc, s.items, t, Freeing(i));
    case FreeNode(t) =>
      var i := Carried(s, t);
      HandKeeps(s.pc, s.items, t, Claiming(i), i, s.items[i].(node := NULL));
    case ClaimMsg(t) =>
      var i := Carried(s, t);
      HandKeeps(s.pc, s.items, t, Idle, i, s.items[i].(place := Done(t)));
  }

  predicate FreesBadly(s: State, t: Tid) {
    var i := Work(PcOf(s, t));
    i in s.items && s.items[i].node in s.metas && O.Free(s.metas[s.items[i].node], t).Fatal?
  }

  /** The registry's thread check never stops a receiver that frees the node. */
  lemma NodeFrees(s: State, t: Tid)
    requires Hands(s.pc, s.items) && OwnInv(s.metas, s.items, s.call) && ClaimedInv(s.metas, s.items, s.pc)
    requires PcOf(s, t).Freeing?
    ensures !FreesBadly(s, t) && s.items[PcOf(s, t).i].node in s.metas
  {
    var i := Carried(s, t);
    assert NodeOwned(i, s.items[i], s.metas, s.call);
  }

  lemma HandsKept(s: State, e: Step)
    requires Inv(s) && Legal(s, e)
    ensures Hands(Next(s, e).pc, Next(s, e).items)
  {
    match e
    case Lock(t) => MoveKeeps(s.pc, s.items, t, DoLock(s, t).pc[t]);
    case Unlock(t) => MoveKeeps(s.pc, s.items, t, DoUnlock(s, t).pc[t]);
    case Lend(_, _) =>
    case Elsewhere(_, _) =>
    case Vanish(_) =>
    case FreeNode(t) =>
      NodeFrees(s, t);
      RecvHands(s, e);
    case _ =>
      if Sending(e) { SendHands(s, e); } else { RecvHands(s, e); }
  }

  // ----- The mutex -----

  lemma MutexMoves(mutex: Mutex, pc: Pcs, t: Tid, p: Pc)
    requires MutexInv(mutex, pc)
    ensures NeedsMutex(p) == (t in pc && NeedsMutex(pc[t])) ==> MutexInv(mutex, pc[t := p])
    ensures mutex.Unheld? && NeedsMutex(p) ==> MutexInv(Held(t), pc[t := p])
    ensures t in pc && NeedsMutex(pc[t]) && !NeedsMutex(p) ==> MutexInv(Unheld, pc[t := p])
  {
  }

  lemma MutexInSend(s: State, e: Step)
    requires MutexInv(s.mutex, s.pc) && Legal(s, e) && Sending(e)
    ensures MutexInv(Next(s, e).mutex, Next(s, e).pc)
  {
    match e
    case Share(t, msg) => MutexMoves(s.mutex, s.pc, t, Next(s, e).pc[t]);
    case AllocNode(t, _, _, _) => MutexMoves(s.mutex, s.pc, t, Ready(PcOf(s, t).i));
    case Link(t) => MutexMoves(s.mutex, s.pc, t, Signalling);
    case Signal(t, w) =>
      MutexMoves(s.mutex, s.pc, w, Woken);
      MutexMoves(s.mutex, if PcOf(s, w).Waiting? then s.pc[w := Woken] else s.pc, t, Leaving);
  }

  lemma MutexInRecv(s: State, e: Step)
    requires MutexInv(s.mutex, s.pc) && Legal(s, e) && Receiving(e)
    ensures MutexInv(Next(s, e).mutex, Next(s, e).pc)
  {
    if Next(s, e) != s {
      MutexMoves(s.mutex, s.pc, e.t, Next(s, e).pc[e.t]);
    }
  }

  lemma MutexKept(s: State, e: Step)
    requires MutexInv(s.mutex, s.pc) && Legal(s, e)
    ensures MutexInv(Next(s, e).mutex, Next(s, e).pc)
  {
    if Sending(e) {
      MutexInSend(s, e);
    } else if Receiving(e) {
      MutexInRecv(s, e);
    } else if e.Lock? || e.Unlock? {
      MutexMoves(s.mutex, s.pc, e.t, Next(s, e).pc[e.t]);
    }
  }

  // ----- The order of messages -----

  predicate SameStage(p: Place, q: Place) {
    (p.Out? <==> q.Out?) && (p.Queued? <==> q.Queued?)
  }

  lemma OrderStays(items: Items, queue: seq<int>, begun: nat, sent: seq<int>, taken: seq<int>, i: int, it: Item)
    requires OrderInv(items, queue, begun, sent, taken)
    requires i in items && SameStage(items[i].place, it.place)
    ensures OrderInv(items[i := it], queue, begun, sent, taken)
  {
    assert QueuedSet(items[i := it]) == QueuedSet(items);
    assert BackSet(items[i := it]) == BackSet(items);
  }

  lemma OrderBegins(items: Items, queue: seq<int>, begun: nat, sent: seq<int>, taken: seq<int>, it: Item)
    requires OrderInv(items, queue, begun, sent, taken) && it.place.Out?
    ensures OrderInv(items[begun := it], queue, begun + 1, sent, taken)
  {
    assert QueuedSet(items[begun := it]) == QueuedSet(items);
    assert BackSet(items[begun := it]) == BackSet(items);
  }

  lemma OrderLinks(items: Items, queue: seq<int>, begun: nat, sent: seq<int>, taken: seq<int>, i: int, it: Item)
    requires OrderInv(items, queue, begun, sent, taken)
    requires i in items && items[i].place.Out? && it.place.Queued?
    ensures OrderInv(items[i := it], queue + [i], begun, sent + [i], taken)
  {
    ElemsAppend(queue, [i]);
    ElemsAppend(taken, queue);
    assert QueuedSet(items[i := it]) == QueuedSet(items) + {i};
    assert BackSet(items[i := it]) == BackSet(items);
    assert i !in Elems(sent);
    ElemsLast(sent, i);
    assert sent + [i] == taken + (queue + [i]);
  }

  lemma HeadIsQueued(items: Items, queue: seq<int>)
    requires Elems(queue) == QueuedSet(items) && queue != []
    ensures queue[0] in items && items[queue[0]].place.Queued?
  {
    assert queue[0] in Elems(queue);
  }

  lemma OrderTakes(items: Items, queue: seq<int>, begun: nat, sent: seq<int>, taken: seq<int>, it: Item)
    requires OrderInv(items, queue, begun, sent, taken) && queue != [] && it.place.Back?
    ensures OrderInv(items[queue[0] := it], queue[1..], begun, sent, taken + [queue[0]])
  {
    var i := queue[0];
    assert i in Elems(queue);
    ElemsAppend(taken, [i]);
    DistinctTail(taken, queue);
    assert QueuedSet(items[i := it]) == QueuedSet(items) - {i};
    assert BackSet(items[i := it]) == BackSet(items) + {i};
    assert taken + queue == taken + [i] + queue[1..];
  }

  ghost predicate Ordered(s: State) {
    OrderInv(s.items, s.queue, s.begun, s.sent, s.taken)
  }

  lemma OrderKept(s: State, e: Step)
    requires Ordered(s) && Hands(s.pc, s.items) && Legal(s, e)
    ensures Ordered(Next(s, e))
  {
    match e
    case Share(t, msg) => OrderBegins(s.items, s.queue, s.begun, s.sent, s.taken, Item(msg, t, NULL, Out(t)));
    case Link(t) =>
      var i := Carried(s, t);
      OrderLinks(s.items, s.queue, s.begun, s.sent, s.taken, i, s.items[i].(place := Queued));
    case Check(t) =>
      if s.queue != [] {
        HeadIsQueued(s.items, s.queue);
        OrderTakes(s.items, s.queue, s.begun, s.sent, s.taken, s.items[s.queue[0]].(place := Back(t)));
      }
    case AllocNode(t, n, _, _) =>
      var i := Carried(s, t);
      OrderStays(s.items, s.queue, s.begun, s.sent, s.taken, i, s.items[i].(node := n));
    case FreeNode(t) =>
      var i := Carried(s, t);
      OrderStays(s.items, s.queue, s.begun, s.sent, s.taken, i, s.items[i].(node := NULL));
    case ClaimMsg(t) =>
      var i := Carried(s, t);
      OrderStays(s.items, s.queue, s.begun, s.sent, s.taken, i, s.items[i].(place := Done(t)));
    case _ =>
  }

  // ----- Each sender's messages -----

  lemma SenderStays(items: Items, sent: seq<int>, i: int, it: Item)
    requires SenderInv(items, sent) && i in items
    requires it.from == items[i].from && (if it.place.Out? then it.place == items[i].place else !items[i].place.Out?)
    ensures SenderInv(items[i := it], sent)
  {
  }

  lemma SenderBegins(items: Items, sent: seq<int>, i: int, it: Item)
    requires SenderInv(items, sent) && it.place == Out(it.from)
    requires forall j :: j in items ==> j < i && !(items[j].place.Out? && items[j].from == it.from)
    ensures SenderInv(items[i := it], sent)
  {
  }

  lemma SenderLinks(items: Items, sent: seq<int>, i: int, it: Item)
    requires SenderInv(items, sent) && i in items && items[i].place.Out? && it.from == items[i].from && it.place.Queued?
    ensures SenderInv(items[i := it], sent + [i])
  {
    forall p | 0 <= p < |sent| && items[sent[p]].from == it.from ensures sent[p] < i {
      assert sent[p] in items && !items[sent[p]].place.Out?;
    }
  }

  lemma SenderInSend(s: State, e: Step)
    requires SenderInv(s.items, s.sent) && Ordered(s) && Hands(s.pc, s.items) && Legal(s, e) && Sending(e)
    ensures SenderInv(Next(s, e).items, Next(s, e).sent)
  {
    match e
    case Share(t, msg) =>
      forall j | j in s.items ensures !(s.items[j].place.Out? && s.items[j].from == t) {
        assert Placed(j, s.items[j], s.pc);
      }
      SenderBegins(s.items, s.sent, s.begun, Item(msg, t, NULL, Out(t)));
    case AllocNode(t, n, _, _) =>
      var i := Carried(s, t);
      SenderStays(s.items, s.sent, i, s.items[i].(node := n));
    case Link(t) =>
      var i := Carried(s, t);
      SenderLinks(s.items, s.sent, i, s.items[i].(place := Queued));
    case Signal(_, _) =>
  }

  lemma SenderAtCheck(s: State, t: Tid)
    requires SenderInv(s.items, s.sent) && Elems(s.queue) == QueuedSet(s.items)
    ensures SenderInv(DoCheck(s, t).items, DoCheck(s, t).sent)
  {
    if s.queue != [] {
      HeadIsQueued(s.items, s.queue);
      SenderStays(s.items, s.sent, s.queue[0], s.items[s.queue[0]].(place := Back(t)));
    }
  }

  lemma SenderInRecv(s: State, e: Step)
    requires SenderInv(s.items, s.sent) && Elems(s.queue) == QueuedSet(s.items) && Hands(s.pc, s.items)
    requires Legal(s, e) && Receiving(e)
    ensures SenderInv(Next(s, e).items, Next(s, e).sent)
  {
    match e
    case Check(t) => SenderAtCheck(s, t);
    case FreeNode(t) =>
      var i := Carried(s, t);
      SenderStays(s.items, s.sent, i, s.items[i].(node := NULL));
    case ClaimMsg(t) =>
      var i := Carried(s, t);
      SenderStays(s.items, s.sent, i, s.items[i].(place := Done(t)));
    case _ =>
  }

  lemma SenderKept(s: State, e: Step)
    requires SenderInv(s.items, s.sent) && Ordered(s) && Hands(s.pc, s.items) && Legal(s, e)
    ensures SenderInv(Next(s, e).items, Next(s, e).sent)
  {
    if Sending(e) {
      SenderInSend(s, e);
    } else if Receiving(e) {
      SenderInRecv(s, e);
    }
  }

  // ----- The registry blocks under way -----
  lemma OwnBegins(metas: map<Addr, O.Meta>, items: Items, call: map<Addr, int>, i: int, msg: Addr, m: O.Meta, t: Tid)
    requires OwnInv(metas, items, call) && i !in items && msg != NULL && msg !in call && m.state == O.Shared
    ensures OwnInv(metas[msg := m], items[i := Item(msg, t, NULL, Out(t))], call[msg := i])
  {
  }

  lemma OwnAllocs(metas: map<Addr, O.Meta>, items: Items, call: map<Addr, int>, i: int, n: Addr, m: O.Meta)
    requires OwnInv(metas, items, call) && i in items && !items[i].place.Done? && items[i].node == NULL
    requires n != NULL && n !in call && m.state == O.Owned && m.borrows == 0
    ensures OwnInv(metas[n := m], items[i := items[i].(node := n)], call[n := i])
  {
  }

  lemma OwnPlaces(metas: map<Addr, O.Meta>, items: Items, call: map<Addr, int>, i: int, p: Place)
    requires OwnInv(metas, items, call) && i in items && !items[i].place.Done? && !p.Done?
    ensures OwnInv(metas, items[i := items[i].(place := p)], call)
  {
  }

  lemma OwnClaims(metas: map<Addr, O.Meta>, items: Items, call: map<Addr, int>, i: int, t: Tid)
    requires OwnInv(metas, items, call) && i in items && items[i].node != NULL
    ensures items[i].node in metas
    ensures OwnInv(metas[items[i].node := O.Claim(metas[items[i].node], t)], items, call)
  {
    assert NodeOwned(i, items[i], metas, call);
  }

  lemma OwnFrees(metas: map<Addr, O.Meta>, items: Items, call: map<Addr, int>, i: int)
    requires OwnInv(metas, items, call) && i in items && items[i].node != NULL
    ensures OwnInv(metas - {items[i].node}, items[i := items[i].(node := NULL)], call - {items[i].node})
  {
    assert NodeOwned(i, items[i], metas, call);
  }

  lemma OwnDelivers(metas: map<Addr, O.Meta>, items: Items, call: map<Addr, int>, i: int, m: O.Meta, t: Tid)
    requires OwnInv(metas, items, call) && i in items && items[i].node == NULL && !items[i].place.Done?
    ensures OwnInv(metas[items[i].msg := m], items[i := items[i].(place := Done(t))], call - {items[i].msg})
  {
    assert MsgOwned(i, items[i], metas, call);
  }

  lemma OwnLends(metas: map<Addr, O.Meta>, items: Items, call: map<Addr, int>, a: Addr, n: nat)
    requires OwnInv(metas, items, call) && a in metas && a in call && items[call[a]].msg == a
    ensures OwnInv(metas[a := metas[a].(borrows := n)], items, call)
  {
  }

  lemma OwnElsewhere(metas: map<Addr, O.Meta>, items: Items, call: map<Addr, int>, a: Addr, m: O.Meta)
    requires OwnInv(metas, items, call) && a !in call
    ensures OwnInv(metas[a := m], items, call) && OwnInv(metas - {a}, items, call)
  {
  }

  ghost predicate Owning(s: State) {
    OwnInv(s.metas, s.items, s.call)
  }

  lemma OwnInSend(s: State, e: Step)
    requires Owning(s) && Ordered(s) && Hands(s.pc, s.items) && Legal(s, e) && Sending(e)
    ensures Owning(Next(s, e))
  {
    match e
    case Share(t, msg) =>
      var v := O.Share(s.metas[msg], t);
      if v.Ok? { OwnBegins(s.metas, s.items, s.call, s.begun, msg, v.meta, t); }
    case AllocNode(t, n, id, size) =>
      var i := Carried(s, t);
      OwnAllocs(s.metas, s.items, s.call, i, n, O.Fresh(id, size, t));
    case Link(t) =>
      var i := Carried(s, t);
      OwnPlaces(s.metas, s.items, s.call, i, Queued);
    case Signal(_, _) =>
  }

  lemma OwnInRecv(s: State, e: Step)
    requires Owning(s) && Ordered(s) && Hands(s.pc, s.items) && Legal(s, e) && Receiving(e)
    ensures Owning(Next(s, e))
  {
    match e
    case Check(t) =>
      if s.queue != [] {
        HeadIsQueued(s.items, s.queue);
        OwnPlaces(s.metas, s.items, s.call, s.queue[0], Back(t));
      }
    case ClaimNode(t) =>
      var i := Carried(s, t);
      OwnClaims(s.metas, s.items, s.call, i, t);
    case FreeNode(t) =>
      var i := Carried(s, t);
      OwnFrees(s.metas, s.items, s.call, i);
    case ClaimMsg(t) =>
      var i := Carried(s, t);
      OwnDelivers(s.metas, s.items, s.call, i, O.Claim(s.metas[s.items[i].msg], t), t);
    case _ =>
  }

  lemma OwnKept(s: State, e: Step)
    requires Owning(s) && Ordered(s) && Hands(s.pc, s.items) && Legal(s, e)
    ensures Owning(Next(s, e))
  {
    if Sending(e) {
      OwnInSend(s, e);
    } else if Receiving(e) {
      OwnInRecv(s, e);
    } else {
      match e
      case Lend(a, n) => OwnLends(s.metas, s.items, s.call, a, n);
      case Elsewhere(a, m) => OwnElsewhere(s.metas, s.items, s.call, a, m);
      case Vanish(a) => OwnElsewhere(s.metas, s.items, s.call, a, O.Fresh(0, 0, 0));
      case _ =>
    }
  }

  // ----- Who may free the nodes -----

  /** Only `t` moves, and the nodes in the hands of other receivers are left alone. */
  ghost predicate Aloof(s: State, s': State, t: Tid) {
    && (forall u :: u in s'.pc && u != t && s'.pc[u].Freeing? ==> u in s.pc && s'.pc[u] == s.pc[u])
    && forall i :: i in s.items && s.items[i].place.Back? && s.items[i].place.t != t ==>
         && i in s'.items && s'.items[i].node == s.items[i].node
         && (s.items[i].node in s'.metas ==> s.items[i].node in s.metas && s'.metas[s.items[i].node] == s.metas[s.items[i].node])
  }

  lemma ClaimedAloof(s: State, s': State, t: Tid)
    requires ClaimedInv(s.metas, s.items, s.pc) && CarryInv(s.pc, s.items) && Aloof(s, s', t)
    requires t in s'.pc && !s'.pc[t].Freeing?
    ensures ClaimedInv(s'.metas, s'.items, s'.pc)
  {
    forall u | u in s'.pc && s'.pc[u].Freeing? && s'.pc[u].i in s'.items && s'.items[s'.pc[u].i].node in s'.metas
      ensures s'.metas[s'.items[s'.pc[u].i].node].owner == u
    {
      assert Working(s.pc[u]) && Work(s.pc[u]) == s.pc[u].i;
    }
  }

  lemma SenderAloof(s: State, e: Step)
    requires Owning(s) && Hands(s.pc, s.items) && s.begun !in s.items && Legal(s, e) && (e.Share? || e.Signal?)
    ensures Aloof(s, Next(s, e), e.t) && e.t in Next(s, e).pc && !Next(s, e).pc[e.t].Freeing?
  {
  }

  lemma WorkerAloof(s: State, e: Step)
    requires Owning(s) && Hands(s.pc, s.items) && Legal(s, e) && (e.AllocNode? || e.Link?)
    ensures Aloof(s, Next(s, e), e.t) && e.t in Next(s, e).pc && !Next(s, e).pc[e.t].Freeing?
  {
    var i := Carried(s, e.t);
  }

  lemma ClaimedInSend(s: State, e: Step)
    requires ClaimedInv(s.metas, s.items, s.pc) && Owning(s) && Hands(s.pc, s.items) && s.begun !in s.items
    requires Legal(s, e) && Sending(e)
    ensures ClaimedInv(Next(s, e).metas, Next(s, e).items, Next(s, e).pc)
  {
    hide ClaimedInv;
    if e.AllocNode? || e.Link? { WorkerAloof(s, e); } else { SenderAloof(s, e); }
    hide Next, Aloof;
    ClaimedAloof(s, Next(s, e), e.t);
  }

  lemma ClaimedInRecv(s: State, e: Step)
    requires ClaimedInv(s.metas, s.items, s.pc) && Owning(s) && Hands(s.pc, s.items) && Elems(s.queue) == QueuedSet(s.items)
    requires Legal(s, e) && Receiving(e) && !e.ClaimNode?
    requires e.FreeNode? ==> !FreesBadly(s, e.t)
    ensures ClaimedInv(Next(s, e).metas, Next(s, e).items, Next(s, e).pc)
  {
    hide ClaimedInv;
    if e.FreeNode? || e.ClaimMsg? {
      var i := Carried(s, e.t);
    } else if s.queue != [] {
      HeadIsQueued(s.items, s.queue);
    }
    ClaimedAloof(s, Next(s, e), e.t);
  }

  lemma ClaimedByClaim(s: State, t: Tid)
    requires ClaimedInv(s.metas, s.items, s.pc) && Owning(s) && Hands(s.pc, s.items) && PcOf(s, t).Holding?
    ensures ClaimedInv(Next(s, ClaimNode(t)).metas, s.items, Next(s, ClaimNode(t)).pc)
  {
    var i := Carried(s, t);
    var s' := Next(s, ClaimNode(t));
    forall u | u in s'.pc && s'.pc[u].Freeing? && s'.pc[u].i in s.items && s.items[s'.pc[u].i].node in s'.metas
      ensures s'.metas[s.items[s'.pc[u].i].node].owner == u
    {
      if u != t {
        var j := Carried(s, u);
        assert NodeOwned(i, s.items[i], s.metas, s.call) && NodeOwned(j, s.items[j], s.metas, s.call);
      }
    }
  }

  lemma ClaimedKept(s: State, e: Step)
    requires ClaimedInv(s.metas, s.items, s.pc) && Owning(s) && Hands(s.pc, s.items) && Ordered(s) && Legal(s, e)
    ensures ClaimedInv(Next(s, e).metas, Next(s, e).items, Next(s, e).pc)
  {
    if Sending(e) {
      ClaimedInSend(s, e);
    } else if e.ClaimNode? {
      ClaimedByClaim(s, e.t);
    } else if Receiving(e) {
      if e.FreeNode? { NodeFrees(s, e.t); }
      ClaimedInRecv(s, e);
    } else {
      ClaimedByOthers(s, e);
    }
  }

  lemma ClaimedByOthers(s: State, e: Step)
    requires ClaimedInv(s.metas, s.items, s.pc) && Owning(s) && Hands(s.pc, s.items)
    requires Legal(s, e) && !Sending(e) && !Receiving(e)
    ensures ClaimedInv(Next(s, e).metas, Next(s, e).items, Next(s, e).pc)
  {
    if e.Lock? || e.Unlock? {
      ClaimedAloof(s, Next(s, e), e.t);
    } else {
      forall u | u in s.pc && s.pc[u].Freeing? ensures Work(s.pc[u]) in s.items && (s.items[Work(s.pc[u])].node != e.a || e.Lend?) {
        var j := Carried(s, u);
        assert NodeOwned(j, s.items[j], s.metas, s.call);
      }
    }
  }

  // ----- Wake-ups -----

  /** What a step of one thread does to the sets of sleepers and of woken receivers. */
  lemma SetsMove(pc: Pcs, t: Tid, p: Pc)
    ensures WaitingSet(pc[t := p]) == (if p.Waiting? then WaitingSet(pc) + {t} else WaitingSet(pc) - {t})
    ensures WokenSet(pc[t := p]) == (if p.Woken? || p == Checking(true) then WokenSet(pc) + {t} else WokenSet(pc) - {t})
  {
  }

  predicate Awake(p: Pc) {
    !p.Waiting? && !p.Woken? && p != Checking(true)
  }

  predicate Calm(p: Pc) {
    Awake(p) && !p.Signalling?
  }

  /** A step that neither blocks, wakes, links, takes nor signals. */
  lemma WakeStays(mutex: Mutex, mutex': Mutex, pc: Pcs, t: Tid, p: Pc, queue: seq<int>)
    requires WakeInv(mutex, pc, queue) && Calm(p) && (t in pc ==> Calm(pc[t]))
    requires mutex' == mutex || (mutex.Unheld? && mutex' == Held(t)) || (mutex == Held(t) && mutex'.Unheld?)
    ensures WakeInv(mutex', pc[t := p], queue)
  {
    SetsMove(pc, t, p);
    assert WaitingSet(pc[t := p]) == WaitingSet(pc) && WokenSet(pc[t := p]) == WokenSet(pc);
  }

  /** A linked message is covered by the signal its sender still owes. */
  lemma WakeByLink(mutex: Mutex, pc: Pcs, t: Tid, queue: seq<int>, i: int)
    requires WakeInv(mutex, pc, queue) && mutex == Held(t) && t in pc && pc[t].Linking?
    ensures WakeInv(mutex, pc[t := Signalling], queue + [i])
  {
    SetsMove(pc, t, Signalling);
    assert WaitingSet(pc[t := Signalling]) == WaitingSet(pc) && WokenSet(pc[t := Signalling]) == WokenSet(pc);
  }

  lemma WakeInSend(s: State, e: Step)
    requires WakeInv(s.mutex, s.pc, s.queue) && MutexInv(s.mutex, s.pc) && Hands(s.pc, s.items)
    requires Legal(s, e) && Sending(e) && !e.Signal?
    ensures WakeInv(Next(s, e).mutex, Next(s, e).pc, Next(s, e).queue)
  {
    match e
    case Share(t, msg) => WakeStays(s.mutex, s.mutex, s.pc, t, Next(s, e).pc[t], s.queue);
    case AllocNode(t, _, _, _) => WakeStays(s.mutex, s.mutex, s.pc, t, Ready(s.pc[t].i), s.queue);
    case Link(t) => WakeByLink(s.mutex, s.pc, t, s.queue, s.pc[t].i);
  }

  lemma WakeBySignal(s: State, t: Tid, w: Tid)
    requires WakeInv(s.mutex, s.pc, s.queue) && MutexInv(s.mutex, s.pc) && Legal(s, Signal(t, w))
    ensures WakeInv(s.mutex, DoSignal(s, t, w).pc, s.queue)
  {
    if WaitingSet(s.pc) == {} {
      SetsMove(s.pc, t, Leaving);
    } else {
      var pc1 := s.pc[w := Woken];
      SetsMove(s.pc, w, Woken);
      SetsMove(pc1, t, Leaving);
      assert WokenSet(pc1[t := Leaving]) == WokenSet(s.pc) + {w};
    }
  }

  /** Whoever takes a message had been counted, or holds the mutex without having slept. */
  lemma WakeByTake(mutex: Mutex, pc: Pcs, t: Tid, queue: seq<int>)
    requires WakeInv(mutex, pc, queue) && mutex == Held(t) && t in pc && pc[t].Checking? && queue != []
    ensures WakeInv(mutex, pc[t := Taking(queue[0])], queue[1..])
  {
    SetsMove(pc, t, Taking(queue[0]));
    assert WaitingSet(pc) - {t} == WaitingSet(pc);
    if pc[t] == Checking(false) {
      assert WokenSet(pc) - {t} == WokenSet(pc);
    } else {
      assert |WokenSet(pc) - {t}| == |WokenSet(pc)| - 1;
    }
  }

  lemma WakeByCheck(s: State, t: Tid)
    requires WakeInv(s.mutex, s.pc, s.queue) && MutexInv(s.mutex, s.pc) && Legal(s, Check(t))
    requires Elems(s.queue) == QueuedSet(s.items)
    ensures WakeInv(DoCheck(s, t).mutex, DoCheck(s, t).pc, DoCheck(s, t).queue)
  {
    if s.queue != [] {
      HeadIsQueued(s.items, s.queue);
      WakeByTake(s.mutex, s.pc, t, s.queue);
    }
  }

  lemma WakeInRecv(s: State, e: Step)
    requires WakeInv(s.mutex, s.pc, s.queue) && MutexInv(s.mutex, s.pc) && Hands(s.pc, s.items)
    requires Legal(s, e) && Receiving(e) && !e.Check?
    ensures WakeInv(Next(s, e).mutex, Next(s, e).pc, Next(s, e).queue)
  {
    if e.Spurious? {
      SetsMove(s.pc, e.t, Woken);
    } else if Next(s, e) != s {
      WakeStays(s.mutex, s.mutex, s.pc, e.t, Next(s, e).pc[e.t], s.queue);
    }
  }

  /** The receiver that was woken keeps counting until it has looked at the queue. */
  lemma WakeByRelock(pc: Pcs, t: Tid, queue: seq<int>)
    requires WakeInv(Unheld, pc, queue) && t in pc && pc[t].Woken?
    ensures WakeInv(Held(t), pc[t := Checking(true)], queue)
  {
    SetsMove(pc, t, Checking(true));
    assert WaitingSet(pc) - {t} == WaitingSet(pc) && WokenSet(pc) + {t} == WokenSet(pc);
  }

  lemma WakeByLock(s: State, e: Step)
    requires WakeInv(s.mutex, s.pc, s.queue) && MutexInv(s.mutex, s.pc) && Legal(s, e) && (e.Lock? || e.Unlock?)
    ensures WakeInv(Next(s, e).mutex, Next(s, e).pc, Next(s, e).queue)
  {
    if PcOf(s, e.t).Woken? {
      WakeByRelock(s.pc, e.t, s.queue);
    } else {
      WakeStays(s.mutex, Next(s, e).mutex, s.pc, e.t, Next(s, e).pc[e.t], s.queue);
    }
  }

  lemma WakeKept(s: State, e: Step)
    requires WakeInv(s.mutex, s.pc, s.queue) && MutexInv(s.mutex, s.pc) && Hands(s.pc, s.items) && Ordered(s) && Legal(s, e)
    ensures WakeInv(Next(s, e).mutex, Next(s, e).pc, Next(s, e).queue)
  {
    if e.Signal? {
      WakeBySignal(s, e.t, e.w);
    } else if e.Check? {
      WakeByCheck(s, e.t);
    } else if Sending(e) {
      WakeInSend(s, e);
    } else if Receiving(e) {
      WakeInRecv(s, e);
    } else if e.Lock? || e.Unlock? {
      WakeByLock(s, e);
    }
  }

  // ----- All of it, over every run -----

  lemma StepKeepsInv(s: State, e: Step)
    requires Inv(s)
    ensures Inv(Next(s, e))
  {
    if Legal(s, e) {
      MutexKept(s, e);
      HandsKept(s, e);
      OrderKept(s, e);
      SenderKept(s, e);
      OwnKept(s, e);
      ClaimedKept(s, e);
      WakeKept(s, e);
    }
  }

  lemma {:induction false} RunInv(metas: map<Addr, O.Meta>, es: seq<Step>)
    ensures Inv(Run(metas, es))
  {
    if es != [] {
      RunInv(metas, es[..|es| - 1]);
      StepKeepsInv(Run(metas, es[..|es| - 1]), es[|es| - 1]);
    }
  }
}
