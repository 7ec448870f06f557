/**
 Histories of the reference-counting runtime: any clients, any order of operations, any time of
 collection.
 */
module RcHistory {
  import opened Addresses
  import opened Seqs
  import M = RcModel

  /**
   What clients may do.  `Forget` loses a handle without dropping it.  `Reclaim` takes up a reference
   that is in nobody's hands, such as that of a child whose parent is gone, in order to drop it.
   */
  datatype Event =
    | New(x: Addr) | Clone(x: Addr) | Drop(x: Addr) | Register(p: Addr, c: Addr)
    | Forget(x: Addr) | Reclaim(x: Addr) | Collect

  /** The runtime's state and the handles that clients hold, with multiplicity. */
  datatype World = World(s: M.State, handles: multiset<Addr>)

  /** The references to `x` that are neither held handles nor child slots. */
  ghost function Excess(w: World, x: Addr): int
    requires x in w.s.obj
  {
    w.s.obj[x].count - w.handles[x] - M.InDegree(w.s.list, w.s.obj, x)
  }

  /**
   The client rules: a new object sits at an address no live object has, objects are touched while
   registered, a drop uses up a held handle, and the reference of a child slot is a held handle.
   */
  ghost predicate Legal(w: World, e: Event) {
    match e
    case New(x) => x !in w.s.obj
    case Clone(x) => x in w.s.obj
    case Drop(x) => x in w.handles
    case Register(p, c) => p in w.s.obj && c in w.handles
    case Forget(x) => x in w.handles
    case Reclaim(x) => x in w.s.obj && Excess(w, x) > 0
    case Collect => true
  }

  ghost function Step(w: World, e: Event): World {
    match e
    case New(x) => World(M.New(w.s, x), w.handles + multiset{x})
    case Clone(x) => World(M.Clone(w.s, x), w.handles + multiset{x})
    case Drop(x) => World(M.Drop(w.s, x), w.handles - multiset{x})
    case Register(p, c) =>
      // the slot takes over the handle; a full parent leaves it with the client
      World(M.RegisterChild(w.s, p, c),
            if p in w.s.obj && |w.s.obj[p].kids| < M.MAX_RC_CHILDREN then w.handles - multiset{c} else w.handles)
    case Forget(x) => World(w.s, w.handles - multiset{x})
    case Reclaim(x) => World(w.s, w.handles + multiset{x})
    case Collect => World(M.Collect(w.s), w.handles)
  }

  ghost predicate HeldListed(w: World) {
    forall x :: x in w.handles ==> x in w.s.obj
  }

  /** Every count is positive and covers the held handles and the child slots. */
  ghost predicate Covered(w: World) {
    forall x :: x in w.s.obj ==>
      w.s.obj[x].count > 0 && w.s.obj[x].count >= w.handles[x] + M.InDegree(w.s.list, w.s.obj, x)
  }

  ghost predicate Inv(w: World) {
    M.WellFormed(w.s) && M.Closed(w.s) && HeldListed(w) && Covered(w)
  }

  lemma NewInDegree(s: M.State, x: Addr, y: Addr)
    requires M.WellFormed(s) && M.Closed(s) && x !in s.obj
    ensures M.InDegree(M.New(s, x).list, M.New(s, x).obj, y) == if y == x then 0 else M.InDegree(s.list, s.obj, y)
  {
    var s' := M.New(s, x);
    assert s'.list[1..] == s.list;
    M.InDegreeSame(s.list, s.obj, s'.obj, y);
    if y == x { M.InDegreeZero(s.list, s.obj, x); }
  }

  lemma NewCovered(w: World, x: Addr)
    requires Inv(w) && x !in w.s.obj
    ensures Covered(World(M.New(w.s, x), w.handles + multiset{x}))
  {
    forall y | y in M.New(w.s, x).obj
      ensures M.InDegree(M.New(w.s, x).list, M.New(w.s, x).obj, y)
           == if y == x then 0 else M.InDegree(w.s.list, w.s.obj, y)
    {
      NewInDegree(w.s, x, y);
    }
  }

  /** The last reference to an object was a handle: no child slot holds it. */
  lemma LastHandle(w: World, x: Addr)
    requires Inv(w) && x in w.handles && w.s.obj[x].count == 1
    ensures forall p :: p in w.s.obj ==> x !in w.s.obj[p].kids
  {
    forall p | p in w.s.obj ensures x !in w.s.obj[p].kids {
      if x in w.s.obj[p].kids { M.InDegreePositive(w.s.list, w.s.obj, p, x); }
    }
  }

  /** Discarding objects that nobody holds and no survivor points at keeps the invariant. */
  lemma DiscardKeepsInv(w: World, dead: set<Addr>, h: multiset<Addr>)
    requires Inv(w) && h <= w.handles && (forall x :: x in h ==> x !in dead)
    requires forall p, c :: p in w.s.obj && p !in dead && c in w.s.obj[p].kids ==> c !in dead
    ensures Inv(World(M.Discard(w.s, dead), h))
  {
    M.DiscardWellFormed(w.s, dead);
    DiscardCovered(w, dead, h);
  }

  lemma DiscardCovered(w: World, dead: set<Addr>, h: multiset<Addr>)
    requires Inv(w) && h <= w.handles
    ensures Covered(World(M.Discard(w.s, dead), h))
  {
    M.DiscardWellFormed(w.s, dead);
    var s' := M.Discard(w.s, dead);
    forall y | y in s'.obj ensures M.InDegree(s'.list, s'.obj, y) <= M.InDegree(w.s.list, w.s.obj, y) {
      M.InDegreeMinus(w.s.list, w.s.obj, dead, y);
    }
  }

  /** Counts do not move edges. */
  lemma SetCountInDegree(s: M.State, x: Addr, n: nat, y: Addr)
    requires M.WellFormed(s)
    ensures M.WellFormed(M.SetCount(s, x, n))
    ensures M.InDegree(s.list, M.SetCount(s, x, n).obj, y) == M.InDegree(s.list, s.obj, y)
  {
    if x in s.obj {
      assert M.SetCount(s, x, n).obj.Keys == s.obj.Keys;
      M.InDegreeSame(s.list, s.obj, M.SetCount(s, x, n).obj, y);
    }
  }

  lemma SetCountCovered(w: World, x: Addr, n: nat, h: multiset<Addr>)
    requires Inv(w) && x in w.s.obj && 0 < n && n >= h[x] + M.InDegree(w.s.list, w.s.obj, x)
    requires forall y :: y != x ==> h[y] <= w.handles[y]
    ensures Covered(World(M.SetCount(w.s, x, n), h))
  {
    forall y | y in w.s.obj
      ensures M.InDegree(w.s.list, M.SetCount(w.s, x, n).obj, y) == M.InDegree(w.s.list, w.s.obj, y)
    {
      SetCountInDegree(w.s, x, n, y);
    }
  }

  lemma SetCountKeepsInv(w: World, x: Addr, n: nat, h: multiset<Addr>)
    requires Inv(w) && x in w.s.obj && 0 < n && n >= h[x] + M.InDegree(w.s.list, w.s.obj, x)
    requires forall y :: y != x ==> h[y] <= w.handles[y]
    ensures Inv(World(M.SetCount(w.s, x, n), h))
  {
    SetCountInDegree(w.s, x, n, x);
    SetCountCovered(w, x, n, h);
  }

  lemma LastDropKeepsInv(w: World, x: Addr)
    requires Inv(w) && x in w.handles && w.s.obj[x].count == 1
    ensures Inv(World(M.Discard(w.s, {x}), w.handles - multiset{x}))
  {
    LastHandle(w, x);
    DiscardKeepsInv(w, {x}, w.handles - multiset{x});
  }

  lemma DropKeepsInv(w: World, x: Addr)
    requires Inv(w) && x in w.handles
    ensures Inv(World(M.Drop(w.s, x), w.handles - multiset{x}))
  {
    assert x in w.s.obj && w.s.obj[x].count > 0 && w.s.obj[x].count >= w.handles[x] + M.InDegree(w.s.list, w.s.obj, x);
    hide Inv, M.Discard, M.SetCount;
    if w.s.obj[x].count == 1 {
      LastDropKeepsInv(w, x);
    } else {
      SetCountKeepsInv(w, x, w.s.obj[x].count - 1, w.handles - multiset{x});
    }
  }

  lemma CloneKeepsInv(w: World, x: Addr)
    requires Inv(w) && x in w.s.obj
    ensures Inv(World(M.Clone(w.s, x), w.handles + multiset{x}))
  {
    SetCountKeepsInv(w, x, w.s.obj[x].count + 1, w.handles + multiset{x});
  }

  lemma ForgetKeepsInv(w: World, x: Addr)
    requires Inv(w)
    ensures Inv(World(w.s, w.handles - multiset{x}))
  {
  }

  lemma ReclaimKeepsInv(w: World, x: Addr)
    requires Inv(w) && x in w.s.obj && Excess(w, x) > 0
    ensures Inv(World(w.s, w.handles + multiset{x}))
  {
  }

  lemma RegisterCovered(w: World, p: Addr, c: Addr)
    requires Inv(w) && p in w.s.obj && c in w.handles && |w.s.obj[p].kids| < M.MAX_RC_CHILDREN
    ensures Covered(World(M.RegisterChild(w.s, p, c), w.handles - multiset{c}))
  {
    var s, s' := w.s, M.RegisterChild(w.s, p, c);
    forall x | x in s'.obj
      ensures M.InDegree(s'.list, s'.obj, x) == M.InDegree(s.list, s.obj, x) + if x == c then 1 else 0
    {
      M.InDegreeAdd(s.list, s.obj, p, c, x);
    }
  }

  lemma RegisterKeepsInv(w: World, p: Addr, c: Addr)
    requires Inv(w) && p in w.s.obj && c in w.handles
    ensures Inv(Step(w, Register(p, c)))
  {
    if |w.s.obj[p].kids| < M.MAX_RC_CHILDREN {
      RegisterCovered(w, p, c);
      RegisterClosed(w.s, p, c);
    }
  }

  lemma RegisterClosed(s: M.State, p: Addr, c: Addr)
    requires M.WellFormed(s) && M.Closed(s) && p in s.obj && c in s.obj
    ensures M.WellFormed(M.RegisterChild(s, p, c)) && M.Closed(M.RegisterChild(s, p, c))
  {
    assert M.RegisterChild(s, p, c).obj.Keys == s.obj.Keys;
  }

  ghost function Held(handles: multiset<Addr>): set<Addr> {
    set x | x in handles
  }

  /** An object reachable from a held handle is reachable from a root. */
  lemma HeldIsAlive(w: World, x: Addr)
    requires Inv(w) && M.Reach(w.s.obj, Held(w.handles), x)
    ensures x in w.s.obj && M.Alive(w.s, x)
  {
    var alive := set y | y in w.s.obj && M.Alive(w.s, y);
    forall h | h in w.handles ensures h in alive {
      M.ReachRoot(w.s.obj, M.Roots(w.s), h);
    }
    forall p, y | p in alive && p in w.s.obj && y in w.s.obj[p].kids ensures y in alive {
      M.ReachStep(w.s.obj, M.Roots(w.s), p, y);
    }
    M.ReachWithin(w.s.obj, Held(w.handles), x, alive);
  }

  lemma CollectKeepsInv(w: World)
    requires Inv(w)
    ensures Inv(Step(w, Collect))
  {
    HeldOutsideGarbage(w);
    forall p, c | p in w.s.obj && p !in M.Garbage(w.s) && c in w.s.obj[p].kids ensures c !in M.Garbage(w.s) {
      M.ReachStep(w.s.obj, M.Roots(w.s), p, c);
    }
    DiscardKeepsInv(w, M.Garbage(w.s), w.handles);
  }

  lemma NewKeepsInv(w: World, x: Addr)
    requires Inv(w) && x !in w.s.obj
    ensures Inv(Step(w, New(x)))
  {
    M.NewWellFormed(w.s, x);
    NewCovered(w, x);
  }

  lemma StepKeepsInv(w: World, e: Event)
    requires Inv(w) && Legal(w, e)
    ensures Inv(Step(w, e))
  {
    match e
    case New(x) => NewKeepsInv(w, x);
    case Clone(x) => CloneKeepsInv(w, x);
    case Drop(x) => DropKeepsInv(w, x);
    case Register(p, c) => RegisterKeepsInv(w, p, c);
    case Forget(x) => ForgetKeepsInv(w, x);
    case Reclaim(x) => ReclaimKeepsInv(w, x);
    case Collect => CollectKeepsInv(w);
  }

  ghost function Start(): World {
    World(M.State([], map[]), multiset{})
  }

  /** `ws` is a history: it starts with nothing registered and takes the legal steps `es`. */
  ghost predicate History(ws: seq<World>, es: seq<Event>) {
    && |ws| == |es| + 1
    && ws[0] == Start()
    && forall i {:trigger es[i]} :: 0 <= i < |es| ==> Legal(ws[i], es[i]) && ws[i + 1] == Step(ws[i], es[i])
  }

  /**
   In every state of every history the counts cover handles and child slots, and no registered
   object has a freed child.
   */
  lemma {:induction false} HistoryInv(ws: seq<World>, es: seq<Event>, i: nat)
    requires History(ws, es) && i < |ws|
    ensures Inv(ws[i])
  {
    if i > 0 {
      HistoryInv(ws, es, i - 1);
      StepKeepsInv(ws[i - 1], es[i - 1]);
    }
  }

  /** No step of any history frees an object reachable from a handle still held after it. */
  lemma {:induction false} NothingHeldIsFreed(ws: seq<World>, es: seq<Event>, i: nat, x: Addr)
    requires History(ws, es) && i < |es|
    requires x in ws[i].s.obj && M.Reach(ws[i].s.obj, Held(ws[i + 1].handles), x)
    ensures x in ws[i + 1].s.obj
  {
    HistoryInv(ws, es, i);
    match es[i]
    case Collect => CollectKeepsHeld(ws[i], x);
    case Drop(y) => DropKeepsHeld(ws[i], y, x);
    case _ =>
  }

  lemma CollectKeepsHeld(w: World, x: Addr)
    requires Inv(w) && M.Reach(w.s.obj, Held(w.handles), x)
    ensures x in M.Collect(w.s).obj
  {
    HeldIsAlive(w, x);
  }

  lemma DropKeepsHeld(w: World, y: Addr, x: Addr)
    requires Inv(w) && y in w.handles && x in w.s.obj
    requires M.Reach(w.s.obj, Held(w.handles - multiset{y}), x)
    ensures x in M.Drop(w.s, y).obj
  {
    if w.s.obj[y].count == 1 {
      // the dropped object had its one reference from this handle: nothing else leads to it
      LastHandle(w, y);
      assert forall h :: h in w.handles - multiset{y} ==> h in w.handles && h != y;
      M.ReachWithin(w.s.obj, Held(w.handles - multiset{y}), x, w.s.obj.Keys - {y});
    }
  }

  /** Every reference is a held handle or a child slot: nothing was forgotten or lost. */
  ghost predicate Exact(w: World) {
    forall x :: x in w.s.obj ==>
      w.s.obj[x].count == w.handles[x] + M.InDegree(w.s.list, w.s.obj, x)
  }

  /** The objects with references in nobody's hands. */
  ghost function Lost(w: World): set<Addr> {
    set x | x in w.s.obj && Excess(w, x) > 0
  }

  /** In every state a collection frees exactly what neither a held handle nor a lost reference reaches. */
  lemma CollectionSpares(w: World, x: Addr)
    requires Inv(w) && x in w.s.obj
    ensures x in M.Collect(w.s).obj <==> M.Reach(w.s.obj, Held(w.handles) + Lost(w), x)
  {
    forall h ensures h in M.Roots(w.s) <==> h in Held(w.handles) + Lost(w) {
      if h in w.handles { assert h in w.s.obj; }
    }
    assert M.Roots(w.s) == Held(w.handles) + Lost(w);
  }

  /** With exact counts it frees exactly what no held handle reaches. */
  lemma ExactCollection(w: World, x: Addr)
    requires Inv(w) && Exact(w) && x in w.s.obj
    ensures x in M.Collect(w.s).obj <==> M.Reach(w.s.obj, Held(w.handles), x)
  {
    forall h ensures h !in Lost(w) {
      if h in w.s.obj { assert Excess(w, h) == 0; }
    }
    assert Held(w.handles) + Lost(w) == Held(w.handles);
    CollectionSpares(w, x);
  }

  /** The objects a step takes away leave no child behind. */
  ghost predicate LeavesNoOrphan(w: World, w': World) {
    forall p, c :: p in w.s.obj && p !in w'.s.obj && c in w.s.obj[p].kids ==> c !in w'.s.obj
  }

  /** Seen before the step: whatever it frees goes together with all its children. */
  ghost predicate FreesWhole(w: World, e: Event)
    requires Legal(w, e) && HeldListed(w)
  {
    match e
    case Drop(x) => w.s.obj[x].count == 1 ==> w.s.obj[x].kids == []
    case Collect => forall p, c :: p in M.Garbage(w.s) && c in w.s.obj[p].kids ==> !M.Alive(w.s, c)
    case _ => true
  }

  lemma DropsWhole(w: World, x: Addr)
    requires Inv(w) && x in w.handles && w.s.obj[x].count == 1
    ensures w.s.obj[x].kids == [] <==> LeavesNoOrphan(w, World(M.Discard(w.s, {x}), w.handles - multiset{x}))
  {
    LastHandle(w, x);
    var w' := World(M.Discard(w.s, {x}), w.handles - multiset{x});
    if w.s.obj[x].kids != [] {
      var c := w.s.obj[x].kids[0];
      assert c in w.s.obj[x].kids && c in w'.s.obj;
      assert !LeavesNoOrphan(w, w');
    }
  }

  lemma WholeLeavesNoOrphan(w: World, e: Event)
    requires Inv(w) && Legal(w, e)
    ensures FreesWhole(w, e) <==> LeavesNoOrphan(w, Step(w, e))
  {
    if e.Drop? {
      if w.s.obj[e.x].count == 1 { DropsWhole(w, e.x); }
    } else if e.Collect? {
      assert forall c :: c in w.s.obj ==> (c in M.Collect(w.s).obj <==> M.Alive(w.s, c));
    }
  }

  /** Counts stay exact unless, and only unless, a handle is forgotten or a freed object leaves a child behind. */
  lemma ExactKept(w: World, e: Event)
    requires Inv(w) && Exact(w) && Legal(w, e)
    ensures Exact(Step(w, e)) <==> !e.Forget? && FreesWhole(w, e)
  {
    WholeLeavesNoOrphan(w, e);
    if e.Forget? {
      ForgetBreaksExact(w, e.x);
    } else if LeavesNoOrphan(w, Step(w, e)) {
      ExactStays(w, e);
    } else {
      OrphanBreaksExact(w, e);
    }
  }

  lemma ExactStays(w: World, e: Event)
    requires Inv(w) && Exact(w) && Legal(w, e) && !e.Forget? && LeavesNoOrphan(w, Step(w, e))
    ensures Exact(Step(w, e))
  {
    match e
    case New(x) => NewKeepsExact(w, x);
    case Clone(x) => SetCountKeepsExact(w, x, w.s.obj[x].count + 1, w.handles + multiset{x});
    case Drop(x) => DropKeepsExact(w, x);
    case Register(p, c) => RegisterKeepsExact(w, p, c);
    case Collect => DiscardKeepsExact(w, M.Garbage(w.s), w.handles);
  }

  lemma ForgetBreaksExact(w: World, x: Addr)
    requires Inv(w) && Exact(w) && x in w.handles
    ensures !Exact(Step(w, Forget(x)))
  {
    var w' := Step(w, Forget(x));
    assert x in w'.s.obj && w'.handles[x] == w.handles[x] - 1;
  }

  /** Only a drop and a collection take objects away. */
  lemma OrphanBreaksExact(w: World, e: Event)
    requires Inv(w) && Exact(w) && Legal(w, e) && !LeavesNoOrphan(w, Step(w, e))
    ensures !Exact(Step(w, e))
  {
    hide Inv, Exact, M.Garbage;
    var p, c :| p in w.s.obj && p !in Step(w, e).s.obj && c in w.s.obj[p].kids && c in Step(w, e).s.obj;
    match e
    case Drop(x) =>
      if w.s.obj[x].count == 1 {
        OrphanLosesSlot(w, {x}, w.handles - multiset{x}, p, c);
      }
    case Collect => OrphanLosesSlot(w, M.Garbage(w.s), w.handles, p, c);
    case _ =>
  }

  lemma OrphanLosesSlot(w: World, dead: set<Addr>, h: multiset<Addr>, p: Addr, c: Addr)
    requires Inv(w) && Exact(w) && h[c] <= w.handles[c]
    requires p in w.s.obj && p in dead && c in w.s.obj[p].kids && c in w.s.obj && c !in dead
    ensures !Exact(World(M.Discard(w.s, dead), h))
  {
    M.DiscardWellFormed(w.s, dead);
    M.InDegreeMinusStrict(w.s.list, w.s.obj, dead, p, c);
    assert c in M.Discard(w.s, dead).obj;
  }

  lemma DropKeepsExact(w: World, x: Addr)
    requires Inv(w) && Exact(w) && x in w.handles && LeavesNoOrphan(w, Step(w, Drop(x)))
    ensures Exact(Step(w, Drop(x)))
  {
    assert x in w.s.obj && w.s.obj[x].count == w.handles[x] + M.InDegree(w.s.list, w.s.obj, x) > 0;
    hide Inv, Exact, M.Discard, M.SetCount, LeavesNoOrphan;
    if w.s.obj[x].count == 1 {
      DiscardKeepsExact(w, {x}, w.handles - multiset{x});
    } else {
      SetCountKeepsExact(w, x, w.s.obj[x].count - 1, w.handles - multiset{x});
    }
  }

  lemma SetCountKeepsExact(w: World, x: Addr, n: nat, h: multiset<Addr>)
    requires Inv(w) && Exact(w) && x in w.s.obj && n == h[x] + M.InDegree(w.s.list, w.s.obj, x)
    requires forall y :: y != x ==> h[y] == w.handles[y]
    ensures Exact(World(M.SetCount(w.s, x, n), h))
  {
    forall y | y in w.s.obj
      ensures M.InDegree(w.s.list, M.SetCount(w.s, x, n).obj, y) == M.InDegree(w.s.list, w.s.obj, y)
    {
      SetCountInDegree(w.s, x, n, y);
    }
  }

  lemma NewKeepsExact(w: World, x: Addr)
    requires Inv(w) && Exact(w) && x !in w.s.obj
    ensures Exact(World(M.New(w.s, x), w.handles + multiset{x}))
  {
    forall y | y in M.New(w.s, x).obj
      ensures M.InDegree(M.New(w.s, x).list, M.New(w.s, x).obj, y)
           == if y == x then 0 else M.InDegree(w.s.list, w.s.obj, y)
    {
      NewInDegree(w.s, x, y);
    }
  }

  lemma RegisterKeepsExact(w: World, p: Addr, c: Addr)
    requires Inv(w) && Exact(w) && p in w.s.obj && c in w.handles
    ensures Exact(Step(w, Register(p, c)))
  {
    if |w.s.obj[p].kids| < M.MAX_RC_CHILDREN {
      var s, s' := w.s, M.RegisterChild(w.s, p, c);
      forall x | x in s'.obj
        ensures M.InDegree(s'.list, s'.obj, x) == M.InDegree(s.list, s.obj, x) + if x == c then 1 else 0
      {
        M.InDegreeAdd(s.list, s.obj, p, c, x);
      }
    }
  }

  lemma HeldOutsideGarbage(w: World)
    requires Inv(w)
    ensures forall h :: h in w.handles ==> h !in M.Garbage(w.s)
  {
    forall h | h in w.handles ensures h !in M.Garbage(w.s) {
      M.ReachRoot(w.s.obj, Held(w.handles), h);
      HeldIsAlive(w, h);
    }
  }

  lemma DiscardKeepsExact(w: World, dead: set<Addr>, h: multiset<Addr>)
    requires Inv(w) && Exact(w) && (forall x :: x in w.s.obj && x !in dead ==> h[x] == w.handles[x])
    requires LeavesNoOrphan(w, World(M.Discard(w.s, dead), h))
    ensures Exact(World(M.Discard(w.s, dead), h))
  {
    M.DiscardWellFormed(w.s, dead);
    var s' := M.Discard(w.s, dead);
    forall y | y in s'.obj ensures M.InDegree(s'.list, s'.obj, y) == M.InDegree(w.s.list, w.s.obj, y) {
      M.InDegreeMinusExact(w.s.list, w.s.obj, dead, y);
    }
  }
}
