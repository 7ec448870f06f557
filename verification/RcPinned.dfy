/**
 References in nobody's hands: handles that were forgotten, and slots that went away with their object
 without being dropped.  The books balance over every history, and what such a reference reaches stays
 until somebody takes it up again.
 */
module RcPinned {
  import opened Addresses
  import opened RcHistory
  import opened Seqs
  import M = RcModel

  /** The objects that a step frees. */
  ghost function Freed(w: World, e: Event): set<Addr>
    requires Legal(w, e) && HeldListed(w)
  {
    match e
    case Drop(y) => if w.s.obj[y].count == 1 then {y} else {}
    case Collect => M.Garbage(w.s)
    case _ => {}
  }

  lemma FreedIs(w: World, e: Event)
    requires Inv(w) && Legal(w, e)
    ensures forall x :: x in w.s.obj ==> (x !in Step(w, e).s.obj <==> x in Freed(w, e))
  {
  }

  /** The references to `x` that a step takes out of everybody's hands, and those it puts into one. */
  ghost function LostBy(w: World, e: Event, x: Addr): nat
    requires Legal(w, e) && HeldListed(w)
  {
    (if e == Forget(x) then 1 else 0) + M.InDegree(w.s.list, M.Part(w.s.obj, Freed(w, e)), x)
  }

  function TakenUpBy(e: Event, x: Addr): nat {
    if e == Reclaim(x) then 1 else 0
  }

  lemma ExcessInRegister(w: World, p: Addr, c: Addr, x: Addr)
    requires Inv(w) && p in w.s.obj && c in w.handles && x in w.s.obj
    ensures x in Step(w, Register(p, c)).s.obj && Excess(Step(w, Register(p, c)), x) == Excess(w, x)
  {
    if |w.s.obj[p].kids| < M.MAX_RC_CHILDREN {
      M.InDegreeAdd(w.s.list, w.s.obj, p, c, x);
    }
  }

  lemma ExcessInDrop(w: World, y: Addr, x: Addr)
    requires Inv(w) && y in w.handles && x in w.s.obj && x in Step(w, Drop(y)).s.obj
    ensures Excess(Step(w, Drop(y)), x) == Excess(w, x) + LostBy(w, Drop(y), x)
  {
    if w.s.obj[y].count == 1 {
      M.InDegreeSplit(w.s.list, w.s.obj, {y}, x);
    } else {
      SetCountInDegree(w.s, y, w.s.obj[y].count - 1, x);
      M.InDegreeZero(w.s.list, M.Part(w.s.obj, {}), x);
    }
  }

  lemma ExcessInCollect(w: World, x: Addr)
    requires Inv(w) && x in w.s.obj && x in Step(w, Collect).s.obj
    ensures Excess(Step(w, Collect), x) == Excess(w, x) + LostBy(w, Collect, x)
  {
    M.InDegreeSplit(w.s.list, w.s.obj, M.Garbage(w.s), x);
  }

  /** A step that frees nothing loses at most a handle. */
  lemma NothingFreed(w: World, e: Event, x: Addr)
    requires Inv(w) && Legal(w, e) && !e.Drop? && !e.Collect?
    ensures LostBy(w, e, x) == if e == Forget(x) then 1 else 0
  {
    M.InDegreeZero(w.s.list, M.Part(w.s.obj, {}), x);
  }

  lemma ExcessInHands(w: World, e: Event, x: Addr)
    requires Inv(w) && Legal(w, e) && x in w.s.obj && !e.Drop? && !e.Collect?
    ensures x in Step(w, e).s.obj
    ensures Excess(Step(w, e), x) == Excess(w, x) + (if e == Forget(x) then 1 else 0) - TakenUpBy(e, x)
  {
    match e
    case New(y) => NewInDegree(w.s, y, x);
    case Clone(y) => SetCountInDegree(w.s, y, w.s.obj[y].count + 1, x);
    case Register(p, c) => ExcessInRegister(w, p, c, x);
    case Forget(_) =>
    case Reclaim(_) =>
  }

  /** The books balance: nothing but losses and reclaims moves the excess of an object that stays. */
  lemma ExcessBalance(w: World, e: Event, x: Addr)
    requires Inv(w) && Legal(w, e) && x in w.s.obj && x in Step(w, e).s.obj
    ensures Excess(Step(w, e), x) == Excess(w, x) + LostBy(w, e, x) - TakenUpBy(e, x) >= 0
  {
    StepKeepsInv(w, e);
    if e.Drop? {
      ExcessInDrop(w, e.x, x);
    } else if e.Collect? {
      ExcessInCollect(w, x);
    } else {
      NothingFreed(w, e, x);
      ExcessInHands(w, e, x);
    }
  }

  /** A child that outlives a freed parent gains an excess: its slot went without a drop. */
  lemma OrphanHasExcess(w: World, e: Event, p: Addr, c: Addr)
    requires Inv(w) && Legal(w, e) && p in w.s.obj && p !in Step(w, e).s.obj
    requires c in w.s.obj[p].kids && c in Step(w, e).s.obj
    ensures c in w.s.obj && Excess(Step(w, e), c) > Excess(w, c) >= 0
  {
    FreedIs(w, e);
    ExcessBalance(w, e, c);
    M.InDegreePositive(w.s.list, M.Part(w.s.obj, Freed(w, e)), p, c);
  }

  /** So does the object of a forgotten handle. */
  lemma ForgottenHasExcess(w: World, x: Addr)
    requires Inv(w) && x in w.handles
    ensures x in w.s.obj && Excess(Step(w, Forget(x)), x) == Excess(w, x) + 1 > 0
  {
    assert (w.handles - multiset{x})[x] == w.handles[x] - 1;
  }

  /** The client may drop a reference in nobody's hands by hand, and that is what the code does then. */
  lemma ReclaimThenDrop(w: World, x: Addr)
    requires Inv(w) && x in w.s.obj && Excess(w, x) > 0
    ensures Legal(w, Reclaim(x)) && Legal(Step(w, Reclaim(x)), Drop(x))
    ensures Step(Step(w, Reclaim(x)), Drop(x)) == World(M.Drop(w.s, x), w.handles)
  {
    assert w.handles + multiset{x} - multiset{x} == w.handles;
  }

  /** A collection leaves everything that a pinned object reaches. */
  lemma PinnedInCollect(w: World, x: Addr, y: Addr)
    requires Inv(w) && x in w.s.obj && Excess(w, x) > 0 && M.Reach(w.s.obj, {x}, y)
    ensures y in M.Collect(w.s).obj
  {
    var stay := set z | z in w.s.obj && M.Alive(w.s, z);
    M.ReachRoot(w.s.obj, M.Roots(w.s), x);
    forall p, z | p in stay && p in w.s.obj && z in w.s.obj[p].kids ensures z in stay {
      M.ReachStep(w.s.obj, M.Roots(w.s), p, z);
    }
    M.ReachWithin(w.s.obj, {x}, y, stay);
  }

  /** So does a drop: what it frees has no slot pointing at it and no reference but the dropped handle. */
  lemma PinnedInDrop(w: World, d: Addr, x: Addr, y: Addr)
    requires Inv(w) && d in w.handles && x in w.s.obj && Excess(w, x) > 0 && M.Reach(w.s.obj, {x}, y)
    ensures y in M.Drop(w.s, d).obj
  {
    var stay := if w.s.obj[d].count == 1 then w.s.obj.Keys - {d} else w.s.obj.Keys;
    if w.s.obj[d].count == 1 { LastHandle(w, d); }
    M.ReachWithin(w.s.obj, {x}, y, stay);
  }

  lemma PinnedStays(w: World, e: Event, x: Addr, y: Addr)
    requires Inv(w) && Legal(w, e) && x in w.s.obj && Excess(w, x) > 0 && M.Reach(w.s.obj, {x}, y)
    ensures y in Step(w, e).s.obj
  {
    match e
    case Drop(d) => PinnedInDrop(w, d, x, y);
    case Collect => PinnedInCollect(w, x, y);
    case _ => M.ReachWithin(w.s.obj, {x}, y, w.s.obj.Keys);
  }

  /** Objects that stay keep their children. */
  lemma KidsStay(w: World, e: Event, p: Addr, c: Addr)
    requires Legal(w, e) && p in w.s.obj && p in Step(w, e).s.obj && c in w.s.obj[p].kids
    ensures c in Step(w, e).s.obj[p].kids
  {
  }

  /** What a pinned object reaches it still reaches after any step. */
  lemma PinnedReach(w: World, e: Event, x: Addr, y: Addr)
    requires Inv(w) && Legal(w, e) && x in w.s.obj && Excess(w, x) > 0 && M.Reach(w.s.obj, {x}, y)
    ensures M.Reach(Step(w, e).s.obj, {x}, y)
  {
    var g, g' := w.s.obj, Step(w, e).s.obj;
    M.ReachRoot(g, {x}, x);
    PinnedStays(w, e, x, x);
    M.ReachRoot(g', {x}, x);
    var both := set z | z in g && M.Reach(g, {x}, z) && M.Reach(g', {x}, z);
    forall p, c | p in both && p in g && c in g[p].kids ensures c in both {
      PinnedStays(w, e, x, p);
      KidsStay(w, e, p, c);
      M.ReachStep(g, {x}, p, c);
      PinnedStays(w, e, x, c);
      M.ReachStep(g', {x}, p, c);
    }
    M.ReachWithin(g, {x}, y, both);
  }

  /** How many references to `x` were taken up in `es`. */
  function TakenUp(es: seq<Event>, x: Addr): nat {
    if es == [] then 0 else TakenUpBy(es[0], x) + TakenUp(es[1..], x)
  }

  /**
   As long as fewer references to `x` were taken up than its excess, no history frees `x` or anything
   it reached, and it goes on reaching that.
   */
  lemma {:induction false} PinnedUntilTakenUp(ws: seq<World>, es: seq<Event>, i: nat, j: nat, x: Addr, y: Addr)
    requires History(ws, es) && i <= j < |ws|
    requires x in ws[i].s.obj && Excess(ws[i], x) > TakenUp(es[i..j], x) && M.Reach(ws[i].s.obj, {x}, y)
    ensures x in ws[j].s.obj && Excess(ws[j], x) >= Excess(ws[i], x) - TakenUp(es[i..j], x)
    ensures y in ws[j].s.obj && M.Reach(ws[j].s.obj, {x}, y)
    decreases j - i
  {
    HistoryInv(ws, es, i);
    if i == j {
      M.ReachWithin(ws[i].s.obj, {x}, y, ws[i].s.obj.Keys);
    } else {
      var e := es[i];
      assert Legal(ws[i], e) && ws[i + 1] == Step(ws[i], e);
      assert es[i..j][0] == e && es[i..j][1..] == es[i + 1..j];
      M.ReachRoot(ws[i].s.obj, {x}, x);
      PinnedStays(ws[i], e, x, x);
      ExcessBalance(ws[i], e, x);
      PinnedReach(ws[i], e, x, y);
      PinnedUntilTakenUp(ws, es, i + 1, j, x, y);
    }
  }
}
