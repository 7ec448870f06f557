/**
 The channel as the code keeps it: a linked queue with a head and a tail pointer.  Every method is one
 step of `ChannelModel`, and moves the ghost state `s` along; between calls any thread may run.
 */
module Channel {
  import opened Addresses
  import opened ChannelModel
  import opened Seqs
  import O = Ownership

  datatype Node = Node(data: Addr, next: Addr)

  type Memory = map<Addr, Node>

  /** The k-th node of the queue; NULL before the first and past the last. */
  ghost function NodeAt(items: Items, queue: seq<int>, k: int): Addr {
    if 0 <= k < |queue| && queue[k] in items then items[queue[k]].node else NULL
  }

  /** The nodes in memory are the nodes under way, each with its message. */
  ghost predicate Stored(mem: Memory, items: Items, call: map<Addr, int>) {
    && (forall i :: i in items && items[i].node != NULL ==>
          items[i].node in mem && mem[items[i].node].data == items[i].msg && (items[i].place.Out? ==> mem[items[i].node].next == NULL))
    && (forall a :: a in mem ==> a != NULL && a in call && call[a] in items && items[call[a]].node == a)
  }

  /** Head, tail and next pointers spell out the queue. */
  ghost predicate Linked(mem: Memory, head: Addr, tail: Addr, items: Items, queue: seq<int>) {
    && head == NodeAt(items, queue, 0) && tail == NodeAt(items, queue, |queue| - 1)
    && forall k :: 0 <= k < |queue| ==>
         && queue[k] in items && items[queue[k]].place.Queued?
         && NodeAt(items, queue, k) in mem && mem[NodeAt(items, queue, k)].next == NodeAt(items, queue, k + 1)
  }

  // ----- What the pointer operations do to the picture -----

  /** Queued messages have nodes, the queue has no repetition, and no two messages share a node. */
  ghost predicate Neat(items: Items, queue: seq<int>) {
    && (forall k :: 0 <= k < |queue| ==> queue[k] in items && items[queue[k]].place.Queued? && items[queue[k]].node != NULL)
    && (forall j, k :: 0 <= j < k < |queue| ==> queue[j] != queue[k])
    && (forall i, j :: i in items && j in items && i != j && items[i].node != NULL ==> items[i].node != items[j].node)
  }

  lemma QueueDistinct(s: State, j: nat, k: nat)
    requires Ordered(s) && j < k < |s.queue|
    ensures s.queue[j] != s.queue[k]
  {
    DistinctTail(s.taken, s.queue);
    DistinctIndex(s.queue, j, k);
  }

  lemma QueuedHasNode(items: Items, pc: Pcs, queue: seq<int>, k: nat)
    requires PlaceInv(pc, items) && Elems(queue) == QueuedSet(items) && k < |queue|
    ensures queue[k] in items && items[queue[k]].place.Queued? && items[queue[k]].node != NULL
  {
    ElemsHas(queue, k);
    var i := queue[k];
    assert i in QueuedSet(items);
    assert Placed(i, items[i], pc);
  }

  lemma NodesApart(metas: map<Addr, O.Meta>, items: Items, call: map<Addr, int>, i: int, j: int)
    requires OwnInv(metas, items, call) && i in items && j in items && i != j && items[i].node != NULL
    ensures items[i].node != items[j].node
  {
    assert NodeOwned(i, items[i], metas, call);
    if items[j].node != NULL { assert NodeOwned(j, items[j], metas, call); }
  }

  lemma NeatIs(s: State)
    requires Inv(s)
    ensures Neat(s.items, s.queue)
  {
    forall k | 0 <= k < |s.queue|
      ensures s.queue[k] in s.items && s.items[s.queue[k]].place.Queued? && s.items[s.queue[k]].node != NULL
    {
      QueuedHasNode(s.items, s.pc, s.queue, k);
    }
    forall j, k | 0 <= j < k < |s.queue| ensures s.queue[j] != s.queue[k] { QueueDistinct(s, j, k); }
    forall i, j | i in s.items && j in s.items && i != j && s.items[i].node != NULL
      ensures s.items[i].node != s.items[j].node
    {
      NodesApart(s.metas, s.items, s.call, i, j);
    }
  }

  function Appended(mem: Memory, tail: Addr, n: Addr): Memory
    requires tail != NULL ==> tail in mem
  {
    if tail == NULL then mem else mem[tail := mem[tail].(next := n)]
  }

  lemma LinkStores(items: Items, call: map<Addr, int>, queue: seq<int>, mem: Memory, tail: Addr, i: int)
    requires Neat(items, queue) && Stored(mem, items, call) && (tail != NULL ==> tail in mem)
    requires tail == NodeAt(items, queue, |queue| - 1)
    requires i in items && items[i].place.Out? && items[i].node != NULL
    ensures Stored(Appended(mem, tail, items[i].node), items[i := items[i].(place := Queued)], call)
  {
    if queue != [] {
      var last := queue[|queue| - 1];
      assert items[last].place.Queued? && tail == items[last].node;
      assert forall j :: j in items && j != last ==> items[j].node != tail;
    }
  }

  lemma LinkLinks(items: Items, call: map<Addr, int>, queue: seq<int>, mem: Memory, head: Addr, tail: Addr, i: int)
    requires Neat(items, queue) && Stored(mem, items, call) && Linked(mem, head, tail, items, queue)
    requires i in items && items[i].place.Out? && items[i].node != NULL
    ensures tail != NULL ==> tail in mem
    ensures var n := items[i].node;
      Linked(Appended(mem, tail, n), if tail == NULL then n else head, n, items[i := items[i].(place := Queued)], queue + [i])
  {
    var n, last := items[i].node, |queue| - 1;
    var items', queue', mem' := items[i := items[i].(place := Queued)], queue + [i], Appended(mem, tail, n);
    forall k | 0 <= k < |queue'|
      ensures queue'[k] in items' && items'[queue'[k]].place.Queued?
      ensures NodeAt(items', queue', k) in mem' && mem'[NodeAt(items', queue', k)].next == NodeAt(items', queue', k + 1)
    {
      if k < |queue| { LinkAt(items, queue, i, k, tail); }
    }
  }

  lemma LinkAt(items: Items, queue: seq<int>, i: int, k: nat, tail: Addr)
    requires Neat(items, queue) && k < |queue| && tail == NodeAt(items, queue, |queue| - 1)
    requires i in items && items[i].place.Out? && items[i].node != NULL
    ensures var items', queue' := items[i := items[i].(place := Queued)], queue + [i];
      && NodeAt(items', queue', k) == NodeAt(items, queue, k) != NULL
      && NodeAt(items, queue, k) != items[i].node
      && (k < |queue| - 1 ==> NodeAt(items, queue, k) != tail && NodeAt(items', queue', k + 1) == NodeAt(items, queue, k + 1))
      && (k == |queue| - 1 ==> NodeAt(items', queue', k + 1) == items[i].node)
  {
  }

  lemma LinkShows(items: Items, call: map<Addr, int>, queue: seq<int>, mem: Memory, head: Addr, tail: Addr, i: int)
    requires Neat(items, queue) && Stored(mem, items, call) && Linked(mem, head, tail, items, queue)
    requires i in items && items[i].place.Out? && items[i].node != NULL
    ensures tail == NULL <==> queue == []
    ensures tail != NULL ==> tail in mem
    ensures var it := items[i].(place := Queued); var n := items[i].node;
      && Stored(Appended(mem, tail, n), items[i := it], call)
      && Linked(Appended(mem, tail, n), if tail == NULL then n else head, n, items[i := it], queue + [i])
  {
    if queue != [] {
      var last := |queue| - 1;
      assert NodeAt(items, queue, last) in mem && items[queue[last]].node != NULL;
    }
    LinkLinks(items, call, queue, mem, head, tail, i);
    LinkStores(items, call, queue, mem, tail, i);
  }

  lemma TakeShows(items: Items, call: map<Addr, int>, queue: seq<int>, mem: Memory, head: Addr, tail: Addr, t: Tid)
    requires Neat(items, queue) && Stored(mem, items, call) && Linked(mem, head, tail, items, queue)
    ensures head == NULL <==> queue == []
    ensures head != NULL ==> head in mem && queue[0] in items && head == items[queue[0]].node
    ensures head != NULL ==> var h := mem[head].next; var it := items[queue[0]].(place := Back(t));
      && Stored(mem, items[queue[0] := it], call)
      && Linked(mem, h, if h == NULL then NULL else tail, items[queue[0] := it], queue[1..])
  {
    if queue != [] {
      var i, queue' := queue[0], queue[1..];
      var items' := items[i := items[i].(place := Back(t))];
      assert head == NodeAt(items, queue, 0) == items[i].node;
      TakeLinks(items, queue, mem, head, tail, t);
    }
  }

  lemma TakeLinks(items: Items, queue: seq<int>, mem: Memory, head: Addr, tail: Addr, t: Tid)
    requires Neat(items, queue) && Linked(mem, head, tail, items, queue) && queue != []
    ensures var items', queue' := items[queue[0] := items[queue[0]].(place := Back(t))], queue[1..];
      head in mem && Linked(mem, mem[head].next, if mem[head].next == NULL then NULL else tail, items', queue')
  {
    var items', queue' := items[queue[0] := items[queue[0]].(place := Back(t))], queue[1..];
    assert head == NodeAt(items, queue, 0);
    forall k | 0 <= k <= |queue'| ensures NodeAt(items', queue', k) == NodeAt(items, queue, k + 1) {
      if k < |queue'| { assert queue[k + 1] != queue[0]; }
    }
    forall k | 0 <= k < |queue'|
      ensures queue'[k] in items' && items'[queue'[k]].place.Queued?
      ensures NodeAt(items', queue', k) in mem && mem[NodeAt(items', queue', k)].next == NodeAt(items', queue', k + 1)
    {
      assert queue'[k] == queue[k + 1] != queue[0];
      assert NodeAt(items, queue, k + 1) in mem;
    }
  }

  /** Linked looks only at the nodes of the queued messages. */
  lemma LinkedStays(mem: Memory, mem': Memory, head: Addr, tail: Addr, items: Items, items': Items, queue: seq<int>)
    requires Linked(mem, head, tail, items, queue)
    requires forall i :: i in items && items[i].place.Queued? ==> i in items' && items'[i] == items[i]
    requires forall i :: i in items && items[i].place.Queued? && items[i].node in mem ==>
      items[i].node in mem' && mem'[items[i].node] == mem[items[i].node]
    ensures Linked(mem', head, tail, items', queue)
  {
    forall k | -1 <= k <= |queue| ensures NodeAt(items', queue, k) == NodeAt(items, queue, k) {
      if 0 <= k < |queue| {
        var i := queue[k];
        assert i in items && items[i].place.Queued?;
        assert i in items' && items'[i] == items[i];
      }
    }
    forall k | 0 <= k < |queue|
      ensures queue[k] in items' && items'[queue[k]].place.Queued?
      ensures NodeAt(items', queue, k) in mem' && mem'[NodeAt(items', queue, k)].next == NodeAt(items', queue, k + 1)
    {
      var i := queue[k];
      assert NodeAt(items, queue, k) == items[i].node && items[i].place.Queued?;
      assert i in items' && items'[i] == items[i] && NodeAt(items', queue, k + 1) == NodeAt(items, queue, k + 1);
    }
  }

  lemma AllocShows(items: Items, call: map<Addr, int>, queue: seq<int>, mem: Memory, head: Addr, tail: Addr, i: int, n: Addr)
    requires Stored(mem, items, call) && Linked(mem, head, tail, items, queue)
    requires i in items && items[i].place.Out? && items[i].node == NULL && n != NULL && n !in call
    ensures n !in mem
    ensures var mem' := mem[n := Node(items[i].msg, NULL)]; var items' := items[i := items[i].(node := n)];
      Stored(mem', items', call[n := i]) && Linked(mem', head, tail, items', queue)
  {
    LinkedStays(mem, mem[n := Node(items[i].msg, NULL)], head, tail, items, items[i := items[i].(node := n)], queue);
  }

  lemma FreeShows(items: Items, call: map<Addr, int>, queue: seq<int>, mem: Memory, head: Addr, tail: Addr, i: int)
    requires Neat(items, queue) && Stored(mem, items, call) && Linked(mem, head, tail, items, queue)
    requires i in items && items[i].place.Back? && items[i].node != NULL
    ensures items[i].node in mem
    ensures var n := items[i].node; var items' := items[i := items[i].(node := NULL)];
      Stored(mem - {n}, items', call - {n}) && Linked(mem - {n}, head, tail, items', queue)
  {
    var n := items[i].node;
    assert forall j :: j in items && j != i ==> items[j].node != n;
    LinkedStays(mem, mem - {n}, head, tail, items, items[i := items[i].(node := NULL)], queue);
  }

  /** A delivered message has no node, and nothing in memory is about it. */
  lemma DoneShows(items: Items, call: map<Addr, int>, queue: seq<int>, mem: Memory, head: Addr, tail: Addr, i: int, t: Tid)
    requires Stored(mem, items, call) && Linked(mem, head, tail, items, queue)
    requires i in items && items[i].place.Back? && items[i].node == NULL && items[i].msg in call && call[items[i].msg] == i
    ensures var items' := items[i := items[i].(place := Done(t))];
      Stored(mem, items', call - {items[i].msg}) && Linked(mem, head, tail, items', queue)
  {
    LinkedStays(mem, mem, head, tail, items, items[i := items[i].(place := Done(t))], queue);
  }

  /** Nor is there anything about a message that was only shared. */
  lemma BegunShows(items: Items, call: map<Addr, int>, queue: seq<int>, mem: Memory, head: Addr, tail: Addr, i: int, it: Item)
    requires Stored(mem, items, call) && Linked(mem, head, tail, items, queue) && i !in items && it.node == NULL && it.msg !in call
    ensures Stored(mem, items[i := it], call[it.msg := i]) && Linked(mem, head, tail, items[i := it], queue)
  {
    LinkedStays(mem, mem, head, tail, items, items[i := it], queue);
  }

  /** The steps that do not touch the queue or its nodes. */
  predicate Apart(e: Step) {
    !e.AllocNode? && !e.Link? && !e.Check? && !e.FreeNode?
  }

  /** The memory and the pointers picture the state. */
  ghost predicate Shows(mem: Memory, head: Addr, tail: Addr, s: State) {
    Inv(s) && Stored(mem, s.items, s.call) && Linked(mem, head, tail, s.items, s.queue)
  }

  lemma DeliveredIs(s: State, t: Tid) returns (i: int)
    requires Inv(s) && PcOf(s, t).Claiming?
    ensures i in s.items && s.items[i].place.Back? && s.items[i].node == NULL && s.items[i].msg in s.call && s.call[s.items[i].msg] == i
    ensures var s' := Next(s, ClaimMsg(t));
      s'.items == s.items[i := s.items[i].(place := Done(t))] && s'.call == s.call - {s.items[i].msg} && s'.queue == s.queue
  {
    i := Carried(s, t);
    assert MsgOwned(i, s.items[i], s.metas, s.call);
  }

  lemma DeliverShows(s: State, mem: Memory, head: Addr, tail: Addr, t: Tid)
    requires Shows(mem, head, tail, s) && PcOf(s, t).Claiming?
    ensures var s' := Next(s, ClaimMsg(t)); Stored(mem, s'.items, s'.call) && Linked(mem, head, tail, s'.items, s'.queue)
  {
    hide Inv;
    var i := DeliveredIs(s, t);
    DoneShows(s.items, s.call, s.queue, mem, head, tail, i, t);
  }

  lemma ShareShows(s: State, mem: Memory, head: Addr, tail: Addr, t: Tid, msg: Addr)
    requires Shows(mem, head, tail, s) && Legal(s, Share(t, msg))
    ensures var s' := DoShare(s, t, msg); Stored(mem, s'.items, s'.call) && Linked(mem, head, tail, s'.items, s'.queue)
  {
    if O.Share(s.metas[msg], t).Ok? {
      assert s.begun !in s.items;
      BegunShows(s.items, s.call, s.queue, mem, head, tail, s.begun, Item(msg, t, NULL, Out(t)));
    }
  }

  lemma OthersApart(s: State, e: Step)
    requires Apart(e) && !e.Share? && !e.ClaimMsg?
    ensures Next(s, e).items == s.items && Next(s, e).call == s.call && Next(s, e).queue == s.queue
  {
  }

  lemma ApartShows(mem: Memory, head: Addr, tail: Addr, s: State, e: Step)
    requires Shows(mem, head, tail, s) && Apart(e)
    ensures Shows(mem, head, tail, Next(s, e))
  {
    StepKeepsInv(s, e);
    if e.ClaimMsg? {
      if Legal(s, e) { DeliverShows(s, mem, head, tail, e.t); }
    } else if e.Share? {
      if Legal(s, e) { ShareShows(s, mem, head, tail, e.t, e.msg); }
    } else {
      OthersApart(s, e);
    }
  }

  lemma AppendShows(mem: Memory, head: Addr, tail: Addr, s: State, t: Tid, n: Addr)
    requires Shows(mem, head, tail, s) && PcOf(s, t).Linking? && s.pc[t].i in s.items && n == s.items[s.pc[t].i].node
    ensures tail != NULL ==> tail in mem
    ensures Shows(Appended(mem, tail, n), if tail == NULL then n else head, n, Next(s, Link(t)))
  {
    var i := Carried(s, t);
    NeatIs(s);
    hide Inv;
    LinkShows(s.items, s.call, s.queue, mem, head, tail, i);
    StepKeepsInv(s, Link(t));
    assert Next(s, Link(t)) == DoLink(s, t, i);
  }

  lemma FreedIs(s: State, t: Tid) returns (i: int)
    requires Inv(s) && PcOf(s, t).Freeing?
    ensures i in s.items && i == s.pc[t].i && s.items[i].place.Back? && s.items[i].node != NULL
    ensures var n := s.items[i].node; var s' := Next(s, FreeNode(t));
      && s'.items == s.items[i := s.items[i].(node := NULL)] && s'.call == s.call - {n} && s'.queue == s.queue
      && PcOf(s', t) == Claiming(i)
  {
    i := Carried(s, t);
    NodeFrees(s, t);
  }

  lemma FreeTakenShows(mem: Memory, head: Addr, tail: Addr, s: State, t: Tid, n: Addr)
    requires Shows(mem, head, tail, s) && PcOf(s, t).Freeing? && s.pc[t].i in s.items && n == s.items[s.pc[t].i].node
    ensures n in mem && PcOf(Next(s, FreeNode(t)), t) == Claiming(s.pc[t].i)
    ensures Shows(mem - {n}, head, tail, Next(s, FreeNode(t)))
  {
    hide Inv;
    var i := FreedIs(s, t);
    NeatIs(s);
    FreeShows(s.items, s.call, s.queue, mem, head, tail, i);
    StepKeepsInv(s, FreeNode(t));
  }

  lemma NewNodeShows(mem: Memory, head: Addr, tail: Addr, s: State, t: Tid, n: Addr, id: int, size: nat)
    requires Shows(mem, head, tail, s) && Legal(s, AllocNode(t, n, id, size))
    ensures s.pc[t].i in s.items
    ensures Shows(mem[n := Node(s.items[s.pc[t].i].msg, NULL)], head, tail, Next(s, AllocNode(t, n, id, size)))
  {
    var i := Carried(s, t);
    AllocShows(s.items, s.call, s.queue, mem, head, tail, i, n);
    StepKeepsInv(s, AllocNode(t, n, id, size));
  }

  lemma HeadShows(mem: Memory, head: Addr, tail: Addr, s: State)
    requires Shows(mem, head, tail, s)
    ensures head == NULL <==> s.queue == []
    ensures head != NULL ==> head in mem && s.queue[0] in s.items && head == s.items[s.queue[0]].node
  {
    NeatIs(s);
    TakeShows(s.items, s.call, s.queue, mem, head, tail, 0);
  }

  lemma BlockShows(mem: Memory, head: Addr, tail: Addr, s: State, t: Tid)
    requires Shows(mem, head, tail, s) && Legal(s, Check(t)) && s.queue == []
    ensures Shows(mem, head, tail, Next(s, Check(t))) && PcOf(Next(s, Check(t)), t).Waiting?
  {
    StepKeepsInv(s, Check(t));
  }

  lemma TakeHeadShows(mem: Memory, head: Addr, tail: Addr, s: State, t: Tid)
    requires Shows(mem, head, tail, s) && Legal(s, Check(t)) && s.queue != []
    ensures head in mem && s.queue[0] in s.items && head == s.items[s.queue[0]].node
    ensures PcOf(Next(s, Check(t)), t) == Taking(s.queue[0])
    ensures Shows(mem, mem[head].next, if mem[head].next == NULL then NULL else tail, Next(s, Check(t)))
  {
    NeatIs(s);
    TakeShows(s.items, s.call, s.queue, mem, head, tail, t);
    StepKeepsInv(s, Check(t));
    HeadIsQueued(s.items, s.queue);
  }

  /** Every node in memory belongs to a message that has not been received yet. */
  lemma StoredUnderWay(mem: Memory, head: Addr, tail: Addr, s: State)
    requires Shows(mem, head, tail, s)
    ensures forall a :: a in mem ==> a in s.call && s.call[a] in s.items && !s.items[s.call[a]].place.Done?
  {
    forall a | a in mem ensures a in s.call && s.call[a] in s.items && !s.items[s.call[a]].place.Done? {
      assert Placed(s.call[a], s.items[s.call[a]], s.pc);
      assert Uses(s.items[s.call[a]], a);
    }
  }

  // ----- Freeing the queue -----

  /** `a` is the node of a queued message. */
  ghost predicate OnQueue(s: State, a: Addr) {
    a in s.call && s.call[a] in s.items && s.items[s.call[a]].node == a && s.items[s.call[a]].place.Queued?
  }

  ghost function IndexOf(l: seq<int>, x: int): nat {
    if l == [] || l[0] == x then 0 else 1 + IndexOf(l[1..], x)
  }

  lemma {:induction false} IndexOfAt(l: seq<int>, k: nat)
    requires Distinct(l) && k < |l|
    ensures IndexOf(l, l[k]) == k
  {
    if k > 0 {
      DistinctIndex(l, 0, k);
      IndexOfAt(l[1..], k - 1);
    }
  }

  /** Where the message of node `a` stands in the queue. */
  ghost function Position(s: State, a: Addr): nat {
    if a in s.call then IndexOf(s.queue, s.call[a]) else 0
  }

  /** Thread `t` does not own the k-th node. */
  ghost predicate Unowned(s: State, k: int, t: Tid) {
    NodeAt(s.items, s.queue, k) in s.metas && s.metas[NodeAt(s.items, s.queue, k)].owner != t
  }

  /** The node the walk reaches at position `k`. */
  lemma NodeIsThere(mem: Memory, head: Addr, tail: Addr, s: State, k: nat)
    requires Shows(mem, head, tail, s) && k <= |s.queue| && NodeAt(s.items, s.queue, k) != NULL
    ensures k < |s.queue|
    ensures var a := NodeAt(s.items, s.queue, k);
      && a in mem && mem[a].next == NodeAt(s.items, s.queue, k + 1) && OnQueue(s, a) && Position(s, a) == k
      && a in s.metas && (forall t :: O.Free(s.metas[a], t).Fatal? <==> Unowned(s, k, t))
  {
    var i := s.queue[k];
    assert i in s.items && s.items[i].place.Queued?;
    assert NodeOwned(i, s.items[i], s.metas, s.call);
    DistinctTail(s.taken, s.queue);
    IndexOfAt(s.queue, k);
  }

  lemma QueuedIsThere(mem: Memory, head: Addr, tail: Addr, s: State, k: nat)
    requires Shows(mem, head, tail, s) && k < |s.queue|
    ensures NodeAt(s.items, s.queue, k) != NULL
  {
    var i := s.queue[k];
    assert i in s.items && s.items[i].place.Queued?;
    assert Placed(i, s.items[i], s.pc);
  }

  lemma QueuedAt(mem: Memory, head: Addr, tail: Addr, s: State, a: Addr)
    requires Shows(mem, head, tail, s) && OnQueue(s, a)
    ensures Position(s, a) < |s.queue| && NodeAt(s.items, s.queue, Position(s, a)) == a
  {
    var i := s.call[a];
    assert i in QueuedSet(s.items);
    var k := ElemsIndex(s.queue, i);
    DistinctTail(s.taken, s.queue);
    IndexOfAt(s.queue, k);
  }

  /** `gone` holds the nodes of the first `k` messages in the queue. */
  ghost predicate FirstNodes(m: Memory, s: State, k: nat, gone: set<Addr>) {
    forall a :: a in gone <==> a in m && OnQueue(s, a) && Position(s, a) < k
  }

  lemma OneMoreNode(mem: Memory, head: Addr, tail: Addr, s: State, k: nat, gone: set<Addr>)
    requires Shows(mem, head, tail, s) && k < |s.queue| && FirstNodes(mem, s, k, gone)
    ensures NodeAt(s.items, s.queue, k) !in gone && FirstNodes(mem, s, k + 1, gone + {NodeAt(s.items, s.queue, k)})
  {
    var n := NodeAt(s.items, s.queue, k);
    QueuedIsThere(mem, head, tail, s, k);
    NodeIsThere(mem, head, tail, s, k);
    forall a ensures a in gone + {n} <==> a in mem && OnQueue(s, a) && Position(s, a) < k + 1 {
      if OnQueue(s, a) { QueuedAt(mem, head, tail, s, a); }
    }
  }

  class Runtime {
    var mem: Memory
    var head: Addr
    var tail: Addr
    ghost var s: State

    ghost predicate Valid()
      reads this
    {
      Shows(mem, head, tail, s)
    }

    constructor (ghost metas: map<Addr, O.Meta>)
      ensures Valid() && s == Start(metas)
    {
      mem, head, tail, s := map[], NULL, NULL, Start(metas);
      new;
      RunInv(metas, []);
    }

    /** Locking, signalling, sharing, claiming and whatever happens elsewhere. */
    ghost method Happens(e: Step)
      requires Valid() && Apart(e)
      modifies this`s
      ensures Valid() && s == Next(old(s), e)
    {
      hide Inv, Stored, Linked;
      ApartShows(mem, head, tail, s, e);
      s := Next(s, e);
    }

    /** A sender fills in the node the allocator gave it. */
    method NewNode(t: Tid, n: Addr, data: Addr, ghost id: int, ghost size: nat)
      requires Valid() && Legal(s, AllocNode(t, n, id, size)) && s.pc[t].i in s.items && data == s.items[s.pc[t].i].msg
      modifies this
      ensures Valid() && s == Next(old(s), AllocNode(t, n, id, size)) && head == old(head) && tail == old(tail)
    {
      hide Inv, Stored, Linked;
      NewNodeShows(mem, head, tail, s, t, n, id, size);
      mem := mem[n := Node(data, NULL)];
      s := Next(s, AllocNode(t, n, id, size));
    }

    /** The pointers of send. */
    method LinkIn(n: Addr)
      requires tail != NULL ==> tail in mem
      modifies `mem, `head, `tail
      ensures mem == Appended(old(mem), old(tail), n) && head == (if old(tail) == NULL then n else old(head)) && tail == n
    {
      if tail != NULL {
        mem := mem[tail := mem[tail].(next := n)];
        tail := n;
      } else {
        head := n;
        tail := n;
      }
    }

    /** The critical section of send, without the signal. */
    method Append(t: Tid, n: Addr)
      requires Valid() && Legal(s, Link(t)) && s.pc[t].i in s.items && n == s.items[s.pc[t].i].node
      modifies this
      ensures Valid() && s == Next(old(s), Link(t))
    {
      hide Inv, Stored, Linked;
      AppendShows(mem, head, tail, s, t, n);
      LinkIn(n);
      s := Next(s, Link(t));
    }

    /** The test of the wait loop; when it holds the receiver blocks. */
    method Blocks(t: Tid) returns (empty: bool)
      requires Valid() && Legal(s, Check(t))
      modifies this`s
      ensures Valid() && (empty <==> old(s).queue == [])
      ensures s == if empty then Next(old(s), Check(t)) else old(s)
      ensures empty ==> PcOf(s, t).Waiting?
    {
      hide Inv, Stored, Linked;
      HeadShows(mem, head, tail, s);
      empty := head == NULL;
      if empty {
        BlockShows(mem, head, tail, s, t);
        s := Next(s, Check(t));
      }
    }

    /** The pointers of recv. */
    method Advance() returns (node: Addr)
      requires head in mem
      modifies `head, `tail
      ensures node == old(head) && head == mem[node].next && tail == if head == NULL then NULL else old(tail)
    {
      node := head;
      head := mem[node].next;
      if head == NULL {
        tail := NULL;
      }
    }

    /** The rest of the critical section of recv. */
    method TakeHead(t: Tid) returns (node: Addr)
      requires Valid() && Legal(s, Check(t)) && s.queue != []
      modifies this
      ensures Valid() && s == Next(old(s), Check(t)) && PcOf(s, t) == Taking(old(s).queue[0])
      ensures old(s).queue[0] in old(s).items && node == old(s).items[old(s).queue[0]].node
    {
      hide Inv, Stored, Linked;
      TakeHeadShows(mem, head, tail, s, t);
      node := Advance();
      s := Next(s, Check(t));
    }

    /** The pointer in a node that was taken is the pointer its sender passed. */
    method Data(t: Tid, node: Addr) returns (ptr: Addr)
      requires Valid() && PcOf(s, t).Holding? && s.pc[t].i in s.items && node == s.items[s.pc[t].i].node
      ensures ptr == s.items[s.pc[t].i].msg && ptr != NULL
    {
      ghost var i := Carried(s, t);
      assert MsgOwned(i, s.items[i], s.metas, s.call);
      ptr := mem[node].data;
    }

    /** The claimed node goes back to the registry; its checks pass. */
    method FreeTaken(t: Tid, node: Addr)
      requires Valid() && PcOf(s, t).Freeing? && s.pc[t].i in s.items && node == s.items[s.pc[t].i].node
      modifies this
      ensures Valid() && s == Next(old(s), FreeNode(t)) && PcOf(s, t) == Claiming(old(s).pc[t].i)
      ensures mem == old(mem) - {node} && head == old(head) && tail == old(tail)
    {
      hide Inv, Stored, Linked;
      FreeTakenShows(mem, head, tail, s, t, node);
      mem := mem - {node};
      s := Next(s, FreeNode(t));
    }

    /**
     The walk of `ownedc_channel_free` by thread `t`, with nobody else in the channel; `registry` holds
     the headers.  It ends in a report at the first node, the k-th, that `t` does not own, and frees
     the nodes of the queue before it, which is all of them if `t` owns all, and no others.
     */
    method FreeNodes(t: Tid, registry: map<Addr, O.Meta>) returns (stopped: bool, ghost k: nat)
      requires Valid() && registry == s.metas
      modifies this`mem
      ensures k <= |s.queue| && (forall j :: 0 <= j < k ==> !Unowned(s, j, t)) && (k < |s.queue| ==> Unowned(s, k, t))
      ensures stopped <==> k < |s.queue|
      ensures forall a :: a in mem <==> a in old(mem) && !(OnQueue(s, a) && Position(s, a) < k)
    {
      hide Inv, Stored, Linked;
      ghost var m0, gone := mem, {};
      var curr := head;
      k := 0;
      stopped := false;
      HeadShows(m0, head, tail, s);
      while curr != NULL && !stopped
        invariant k <= |s.queue| && curr == NodeAt(s.items, s.queue, k) && mem == m0 - gone
        invariant (forall j :: 0 <= j < k ==> !Unowned(s, j, t)) && FirstNodes(m0, s, k, gone)
        invariant stopped ==> k < |s.queue| && Unowned(s, k, t)
        decreases |s.queue| - k, !stopped
      {
        NodeIsThere(m0, head, tail, s, k);
        OneMoreNode(m0, head, tail, s, k, gone);
        var next := mem[curr].next;
        if O.Free(registry[curr], t).Fatal? {
          stopped := true;
        } else {
          gone := gone + {curr};
          mem := mem - {curr};
          curr, k := next, k + 1;
        }
      }
      if k < |s.queue| { QueuedIsThere(m0, head, tail, s, k); }
    }

    /** Every node in memory, and so in the queue, belongs to a message not received yet. */
    lemma OnlyUnreceivedNodesRemain()
      requires Valid()
      ensures head != NULL ==> head in mem
      ensures forall a :: a in mem ==> a in s.call && s.call[a] in s.items && !s.items[s.call[a]].place.Done?
    {
      HeadShows(mem, head, tail, s);
      StoredUnderWay(mem, head, tail, s);
    }
  }
}
