/** What every run of the registry guarantees, whatever the threads and their interleaving. */
module RegistryRuns {
  import opened Addresses
  import opened Seqs
  import O = Ownership
  import opened RegistryModel

  // ----- Freeing -----

  /**
   One FREED transition per allocation, one entry into the quarantine, at most one `global_free`:
   and what has been released is what entered first.
   */
  ghost predicate OnceEach(h: History) {
    && Distinct(h.won) && Distinct(h.entered) && Distinct(h.released)
    && (forall id :: id in Elems(h.entered) ==> id in Elems(h.won))
    && h.released <= h.entered
  }

  lemma OnceEachIn(s: State)
    requires WonInv(s.blocks, s.h) && WindowInv(s.blocks, s.ring, s.h)
    ensures OnceEach(s.h)
  {
    DistinctPrefix(s.h.entered, |s.h.released|);
  }

  lemma {:induction false} FreedOnce(es: seq<Step>)
    ensures OnceEach(Run(es).h)
  {
    RunInv(es);
    OnceEachIn(Run(es));
  }

  /** A freed allocation is still with the thread that won it, or in the quarantine, or released. */
  ghost predicate FreedAndKnown(s: State, id: int) {
    id in Elems(s.h.released)
    || (id in s.h.home && s.h.home[id] in s.blocks
        && match s.blocks[s.h.home[id]].place
           case Doomed(t) => PcOf(s, t) == Freeing(s.h.home[id])
           case Gone(t) => PcOf(s, t) == Unlinked(s.h.home[id])
           case Quarantined => s.h.home[id] in Elems(s.ring) && id in Elems(s.h.entered)
           case _ => false)
  }

  lemma FreedIn(s: State, id: int)
    requires PlaceInv(s.blocks, s.pc) && MetaInv(s.blocks) && RingInv(s.blocks, s.ring)
    requires HomeInv(s.blocks, s.h) && WonInv(s.blocks, s.h) && id in Elems(s.h.won)
    ensures FreedAndKnown(s, id)
  {
    if id !in Elems(s.h.released) {
      var a := s.h.home[id];
      assert a in s.blocks && s.blocks[a].meta.id == id && s.blocks[a].meta.state == O.Freed;
    }
  }

  lemma {:induction false} FreedIsSomewhere(es: seq<Step>, id: int)
    requires id in Elems(Run(es).h.won)
    ensures FreedAndKnown(Run(es), id)
  {
    RunInv(es);
    FreedIn(Run(es), id);
  }

  ghost predicate InShardList(s: State, a: Addr) {
    |s.shards| == NUM_SHARDS && a in Elems(s.shards[Shard(a)])
  }

  predicate Winner(s: State, t: O.Tid) {
    PcOf(s, t).Freeing? || PcOf(s, t).Unlinked?
  }

  /**
   The thread that won a block still has it to itself: the block is allocated and FREED, not yet in
   the ring, and everything in the list it is about to be unlinked from is allocated.
   */
  ghost predicate HasItsBlock(s: State, t: O.Tid)
    requires Winner(s, t)
  {
    var a := PcOf(s, t).a;
    && a in s.blocks && s.blocks[a].meta.state == O.Freed && a !in Elems(s.ring)
    && (PcOf(s, t).Freeing? ==> InShardList(s, a) && forall n :: n in Elems(s.shards[Shard(a)]) ==> n in s.blocks)
    && forall u :: u != t && Winner(s, u) ==> PcOf(s, u).a != a
  }

  lemma HasItsBlockIn(s: State, t: O.Tid)
    requires PcInv(s.blocks, s.pc) && MetaInv(s.blocks) && ShardInv(s.blocks, s.shards) && RingInv(s.blocks, s.ring)
    requires Winner(s, t)
    ensures HasItsBlock(s, t)
  {
  }

  lemma {:induction false} WinnerTouchesAllocated(es: seq<Step>, t: O.Tid)
    requires Winner(Run(es), t)
    ensures HasItsBlock(Run(es), t)
  {
    RunInv(es);
    HasItsBlockIn(Run(es), t);
  }

  // ----- The registry lists -----

  /**
   A block is in the list of its own shard, once, and in no other, unless its thread is inserting or
   moving it, or it was unlinked to be freed.
   */
  ghost predicate Filed(s: State, a: Addr) {
    && |s.shards| == NUM_SHARDS
    && (forall i :: 0 <= i < NUM_SHARDS ==> Distinct(s.shards[i]) && (a in Elems(s.shards[i]) ==> a in s.blocks && Shard(a) == i))
    && (a in s.blocks ==>
          match s.blocks[a].place
          case Loose(t) => !InShardList(s, a) && (PcOf(s, t).Inserting? || PcOf(s, t).Moving?) && PcOf(s, t).a == a
          case Gone(t) => !InShardList(s, a) && PcOf(s, t) == Unlinked(a)
          case Quarantined => !InShardList(s, a) && a in Elems(s.ring)
          case _ => InShardList(s, a))
  }

  lemma FiledIn(s: State, a: Addr)
    requires PlaceInv(s.blocks, s.pc) && ShardInv(s.blocks, s.shards) && RingInv(s.blocks, s.ring)
    ensures Filed(s, a)
  {
  }

  lemma {:induction false} RegistryShape(es: seq<Step>, a: Addr)
    ensures Filed(Run(es), a)
  {
    RunInv(es);
    FiledIn(Run(es), a);
  }

  // ----- The quarantine -----

  /** The ring holds exactly the last min(n, 1024) of the n entries, oldest first. */
  ghost predicate LastEntries(blocks: Blocks, ring: seq<Addr>, entered: seq<int>) {
    && |ring| == (if |entered| < QUARANTINE_SIZE then |entered| else QUARANTINE_SIZE)
    && Distinct(ring)
    && forall i :: 0 <= i < |ring| ==> ring[i] in blocks && blocks[ring[i]].meta.id == entered[|entered| - |ring| + i]
  }

  lemma RingIn(blocks: Blocks, ring: seq<Addr>, h: History)
    requires RingInv(blocks, ring) && WindowInv(blocks, ring, h)
    ensures LastEntries(blocks, ring, h.entered)
  {
  }

  lemma {:induction false} RingIsTheLast(es: seq<Step>)
    ensures LastEntries(Run(es).blocks, Run(es).ring, Run(es).h.entered)
  {
    RunInv(es);
    RingIn(Run(es).blocks, Run(es).ring, Run(es).h);
  }

  /** The oldest block of a full ring, which a further entry releases. */
  ghost function Leaving(s: State): set<Addr> {
    if |s.ring| < QUARANTINE_SIZE then {} else {s.ring[0]}
  }

  /**
   An entry puts the block last in the ring, of a full ring releases exactly the oldest block, and
   changes no other block and no list.
   */
  lemma EntryRotates(s: State, t: O.Tid)
    requires PcInv(s.blocks, s.pc) && RingInv(s.blocks, s.ring) && Legal(s, Quarantine(t))
    ensures var s' := Next(s, Quarantine(t)); var a := s.pc[t].a;
      && s'.ring == (if |s.ring| < QUARANTINE_SIZE then s.ring else s.ring[1..]) + [a] && s'.shards == s.shards
      && a in s.blocks && a in s'.blocks && s'.blocks[a] == s.blocks[a].(place := Quarantined) && a !in Leaving(s)
      && (forall x :: x in s'.blocks && x != a ==> x in s.blocks && x !in Leaving(s) && s'.blocks[x] == s.blocks[x])
      && (forall x :: x in s.blocks ==> (x !in s'.blocks <==> x in Leaving(s)))
    ensures var s' := Next(s, Quarantine(t)); s'.h.entered == s.h.entered + [s.blocks[s.pc[t].a].meta.id]
  {
    QuarantineStep(s, Quarantine(t));
    EvictRing(s);
  }

  /** Entries are never taken back: later states have seen all earlier entries, in the same places. */
  lemma {:induction false} EnteredGrows(es: seq<Step>, k: nat)
    requires k <= |es|
    ensures Run(es[..k]).h.entered <= Run(es).h.entered
    decreases |es| - k
  {
    if k < |es| {
      EnteredGrows(es, k + 1);
      assert es[..k + 1][..k] == es[..k];
      RunInv(es[..k]);
      StepEnters(Run(es[..k]), es[k]);
    } else {
      assert es[..k] == es;
    }
  }

  lemma StepEnters(s: State, e: Step)
    requires Inv(s)
    ensures s.h.entered <= Next(s, e).h.entered
  {
    if Legal(s, e) && InPlace(e) { InPlaceStep(s, e); }
  }

  /** The k-th entry is still quarantined exactly until 1024 further entries followed it. */
  lemma {:induction false} SurvivesTheWindow(es: seq<Step>, k: nat)
    requires k < |Run(es).h.entered|
    ensures var s := Run(es); var id := s.h.entered[k];
      |s.h.entered| - k <= QUARANTINE_SIZE
      <==> id in s.h.home && s.h.home[id] in s.blocks && s.blocks[s.h.home[id]].place.Quarantined?
    ensures var s := Run(es); var id := s.h.entered[k];
      |s.h.entered| - k > QUARANTINE_SIZE <==> id in Elems(s.h.released)
  {
    RunInv(es);
    var s := Run(es);
    var r := |s.h.released|;
    ElemsHas(s.h.entered, k);
    if k < r {
      ElemsHas(s.h.released, k);
    } else {
      var a := s.ring[k - r];
      assert a in s.blocks && s.blocks[a].meta.id == s.h.entered[k];
    }
  }

  /** `t` ends in the report `why` when it takes step `e`. */
  ghost predicate Reports(s: State, e: Step, why: O.Violation) {
    PcOf(Next(s, e), e.t) == Stopped(why)
  }

  lemma ReuseIsReportedIn(s: State, t: O.Tid, a: Addr, size: nat)
    requires MetaInv(s.blocks) && a in s.blocks && s.blocks[a].meta.state == O.Freed && PcOf(s, t).Idle?
    ensures Reports(s, FreeDecide(t, a), O.DoubleFree) && Reports(s, Borrow(t, a), O.UseAfterFree)
    ensures Reports(s, Release(t, a), O.ReleaseWithoutBorrow)
    ensures size > 0 ==> Reports(s, ReallocCheck(t, a, size), O.UseAfterFree)
  {
    O.FreedIsFatal(s.blocks[a].meta, t);
  }

  /** While a block is FREED, freeing, borrowing, releasing or resizing it ends in a report. */
  lemma {:induction false} ReuseIsReported(es: seq<Step>, t: O.Tid, a: Addr, size: nat)
    requires a in Run(es).blocks && Run(es).blocks[a].meta.state == O.Freed && PcOf(Run(es), t).Idle?
    ensures Reports(Run(es), FreeDecide(t, a), O.DoubleFree) && Reports(Run(es), Borrow(t, a), O.UseAfterFree)
    ensures Reports(Run(es), Release(t, a), O.ReleaseWithoutBorrow)
    ensures size > 0 ==> Reports(Run(es), ReallocCheck(t, a, size), O.UseAfterFree)
  {
    RunInv(es);
    ReuseIsReportedIn(Run(es), t, a, size);
  }

  // ----- Borrows -----

  /** The borrow count is the successful borrows minus the releases since the allocation. */
  lemma {:induction false} BorrowsBalance(es: seq<Step>, a: Addr)
    requires a in Run(es).blocks
    ensures var s := Run(es); var m := s.blocks[a].meta;
      m.borrows + s.h.returned[m.id] == s.h.lent[m.id]
      && (m.state == O.Freed ==> m.borrows == 0) && (m.state == O.Borrowed ==> m.borrows > 0)
  {
    RunInv(es);
  }

  /** The client claims a block only when nothing borrows it. */
  predicate TamedClaim(s: State, e: Step) {
    e.Claim? && e.a in s.blocks ==> s.blocks[e.a].meta.borrows == 0
  }

  ghost predicate AllFaithful(s: State) {
    forall a :: a in s.blocks ==> O.Faithful(s.blocks[a].meta)
  }

  lemma StepFaithful(s: State, e: Step)
    requires Inv(s) && AllFaithful(s) && TamedClaim(s, e)
    ensures AllFaithful(Next(s, e))
  {
    if Legal(s, e) {
      if InPlace(e) {
        InPlaceFaithful(s, e);
      } else if Passing(e) {
        PassingStep(s, e);
      } else if e.ReallocMove? {
        MoveStep(s, e);
      } else if e.Quarantine? {
        QuarantineStep(s, e);
      }
    }
  }

  lemma InPlaceFaithful(s: State, e: Step)
    requires MetaInv(s.blocks) && AllFaithful(s) && TamedClaim(s, e) && Legal(s, e) && InPlace(e)
    ensures AllFaithful(Next(s, e))
  {
    if !e.Malloc? && s.blocks[e.a].meta.state != O.Freed { O.KeepsFaithful(s.blocks[e.a].meta, e.t); }
  }

  /** With tamed claims a live block is BORROWED exactly when it is borrowed and not SHARED. */
  lemma {:induction false} RunFaithful(es: seq<Step>)
    requires forall k :: 0 <= k < |es| ==> TamedClaim(Run(es[..k]), es[k])
    ensures AllFaithful(Run(es))
  {
    if es != [] {
      var init := es[..|es| - 1];
      forall k | 0 <= k < |init| ensures TamedClaim(Run(init[..k]), init[k]) {
        assert init[..k] == es[..k];
      }
      RunFaithful(init);
      RunInv(init);
      StepFaithful(Run(init), es[|es| - 1]);
    }
  }

  // ----- Accounting -----

  /** Every thread is between calls. */
  ghost predicate AtRest(s: State) {
    forall t :: t in s.pc ==> s.pc[t].Idle? || s.pc[t].Stopped?
  }

  ghost function Total(shards: seq<seq<Addr>>): nat {
    if shards == [] then 0 else Total(shards[..|shards| - 1]) + |shards[|shards| - 1]|
  }

  ghost function Union(shards: seq<seq<Addr>>): set<Addr> {
    if shards == [] then {} else Union(shards[..|shards| - 1]) + Elems(shards[|shards| - 1])
  }

  lemma {:induction false} UnionHas(shards: seq<seq<Addr>>, a: Addr)
    ensures a in Union(shards) <==> exists i :: 0 <= i < |shards| && a in Elems(shards[i])
  {
    if shards != [] {
      var init := shards[..|shards| - 1];
      UnionHas(init, a);
      assert forall i :: 0 <= i < |init| ==> init[i] == shards[i];
    }
  }

  lemma {:induction false} TotalIsUnion(shards: seq<seq<Addr>>)
    requires forall i :: 0 <= i < |shards| ==> Distinct(shards[i])
    requires forall i, j :: 0 <= i < j < |shards| ==> Elems(shards[i]) !! Elems(shards[j])
    ensures Total(shards) == |Union(shards)|
  {
    if shards != [] {
      var init, last := shards[..|shards| - 1], shards[|shards| - 1];
      assert forall i :: 0 <= i < |init| ==> init[i] == shards[i];
      TotalIsUnion(init);
      DistinctCard(last);
      forall a | a in Union(init) ensures a !in Elems(last) {
        UnionHas(init, a);
      }
    }
  }

  /** How many elements of `l` are in `k`. */
  ghost function CountIn(l: seq<Addr>, k: set<Addr>): nat {
    if l == [] then 0 else CountIn(l[..|l| - 1], k) + if l[|l| - 1] in k then 1 else 0
  }

  ghost function CountAll(shards: seq<seq<Addr>>, k: set<Addr>): nat {
    if shards == [] then 0 else CountAll(shards[..|shards| - 1], k) + CountIn(shards[|shards| - 1], k)
  }

  ghost function InState(s: State, states: set<O.OwnState>): set<Addr> {
    set a | a in s.blocks && s.blocks[a].meta.state in states
  }

  lemma {:induction false} CountInAll(l: seq<Addr>, k: set<Addr>)
    ensures (forall i :: 0 <= i < |l| ==> l[i] in k) ==> CountIn(l, k) == |l|
    ensures (forall i :: 0 <= i < |l| ==> l[i] !in k) ==> CountIn(l, k) == 0
  {
    if l != [] { CountInAll(l[..|l| - 1], k); }
  }

  lemma {:induction false} CountAllAll(shards: seq<seq<Addr>>, k: set<Addr>)
    ensures (forall i, j :: 0 <= i < |shards| && 0 <= j < |shards[i]| ==> shards[i][j] in k) ==> CountAll(shards, k) == Total(shards)
    ensures (forall i, j :: 0 <= i < |shards| && 0 <= j < |shards[i]| ==> shards[i][j] !in k) ==> CountAll(shards, k) == 0
  {
    if shards != [] {
      var init := shards[..|shards| - 1];
      assert forall i :: 0 <= i < |init| ==> init[i] == shards[i];
      CountAllAll(init, k);
      CountInAll(shards[|shards| - 1], k);
    }
  }

  lemma DistinctSnoc(l: seq<Addr>)
    requires Distinct(l) && l != []
    ensures Distinct(l[..|l| - 1]) && l[|l| - 1] !in Elems(l[..|l| - 1])
    ensures Elems(l) == Elems(l[..|l| - 1]) + {l[|l| - 1]}
  {
    var init, x := l[..|l| - 1], l[|l| - 1];
    assert l == init + [x];
    DistinctPrefix(l, |l| - 1);
    ElemsLast(init, x);
    if x in Elems(init) {
      var j := ElemsIndex(init, x);
      DistinctIndex(l, j, |l| - 1);
    }
  }

  lemma {:induction false} CountInCard(l: seq<Addr>, k: set<Addr>)
    requires Distinct(l)
    ensures CountIn(l, k) == |Elems(l) * k|
  {
    if l != [] {
      var init, x := l[..|l| - 1], l[|l| - 1];
      DistinctSnoc(l);
      CountInCard(init, k);
      CardStep(Elems(init), x, k);
    }
  }

  lemma CardStep<T>(a: set<T>, x: T, k: set<T>)
    requires x !in a
    ensures |(a + {x}) * k| == |a * k| + if x in k then 1 else 0
  {
    assert (a + {x}) * k == if x in k then a * k + {x} else a * k;
  }

  /** Counting down duplicate-free disjoint lists counts a set. */
  lemma {:induction false} CountAllCard(shards: seq<seq<Addr>>, k: set<Addr>)
    requires forall i :: 0 <= i < |shards| ==> Distinct(shards[i])
    requires forall i, j :: 0 <= i < j < |shards| ==> Elems(shards[i]) !! Elems(shards[j])
    ensures CountAll(shards, k) == |Union(shards) * k|
  {
    if shards != [] {
      var init, last := shards[..|shards| - 1], shards[|shards| - 1];
      assert forall i :: 0 <= i < |init| ==> init[i] == shards[i];
      CountAllCard(init, k);
      CountInCard(last, k);
      forall a | a in Union(init) ensures a !in Elems(last) {
        UnionHas(init, a);
      }
      CardSplit(Union(init), Elems(last), k);
    }
  }

  lemma CardSplit<T>(a: set<T>, b: set<T>, k: set<T>)
    requires forall x :: x in a ==> x !in b
    ensures |(a + b) * k| == |a * k| + |b * k|
  {
    assert (a + b) * k == a * k + b * k;
    assert a * k * (b * k) == {};
  }

  /**
   What the two walks over the lists count at rest: `ownership_stats` finds the allocations minus the
   frees active and none FREED; `check_leaks` finds exactly the live OWNED or SHARED blocks.
   */
  lemma {:induction false} WalksAtRest(es: seq<Step>)
    requires AtRest(Run(es))
    ensures var s := Run(es);
      && CountAll(s.shards, InState(s, {O.Owned, O.Shared, O.Borrowed})) == s.h.allocs - |s.h.won|
      && CountAll(s.shards, InState(s, {O.Freed})) == 0
      && CountAll(s.shards, InState(s, {O.Owned, O.Shared})) == |InState(s, {O.Owned, O.Shared})|
  {
    RunInv(es);
    var s := Run(es);
    Accounting(es);
    RestNotFreed(s);
    ListedStates(s);
    CountAllAll(s.shards, InState(s, {O.Owned, O.Shared, O.Borrowed}));
    CountAllAll(s.shards, InState(s, {O.Freed}));
    LeaksAtRest(s);
  }

  lemma ListedStates(s: State)
    requires ShardInv(s.blocks, s.shards)
    requires forall a :: InShardList(s, a) ==> a in s.blocks && s.blocks[a].meta.state != O.Freed
    ensures forall i, j :: 0 <= i < |s.shards| && 0 <= j < |s.shards[i]| ==>
      s.shards[i][j] in InState(s, {O.Owned, O.Shared, O.Borrowed}) && s.shards[i][j] !in InState(s, {O.Freed})
  {
    forall i, j | 0 <= i < |s.shards| && 0 <= j < |s.shards[i]|
      ensures s.shards[i][j] in InState(s, {O.Owned, O.Shared, O.Borrowed}) && s.shards[i][j] !in InState(s, {O.Freed})
    {
      ElemsHas(s.shards[i], j);
      var a := s.shards[i][j];
      assert InShardList(s, a);
    }
  }

  lemma LeaksAtRest(s: State)
    requires PlaceInv(s.blocks, s.pc) && MetaInv(s.blocks) && ShardInv(s.blocks, s.shards) && RingInv(s.blocks, s.ring)
    requires AtRest(s)
    ensures CountAll(s.shards, InState(s, {O.Owned, O.Shared})) == |InState(s, {O.Owned, O.Shared})|
  {
    ShardsDisjoint(s.blocks, s.shards);
    CountAllCard(s.shards, InState(s, {O.Owned, O.Shared}));
    RestUnion(s);
    forall a | a in InState(s, {O.Owned, O.Shared}) ensures a in Union(s.shards) {
      assert a !in Elems(s.ring);
    }
    assert Union(s.shards) * InState(s, {O.Owned, O.Shared}) == InState(s, {O.Owned, O.Shared});
  }

  /** At rest, every freed allocation has entered the quarantine. */
  lemma RestWon(s: State)
    requires PlaceInv(s.blocks, s.pc) && MetaInv(s.blocks) && HomeInv(s.blocks, s.h)
    requires WonInv(s.blocks, s.h) && WindowInv(s.blocks, s.ring, s.h) && AtRest(s)
    ensures |s.h.won| == |s.h.entered|
  {
    DistinctPrefix(s.h.entered, |s.h.released|);
    forall id ensures id in Elems(s.h.won) <==> id in Elems(s.h.entered) {
      if id in Elems(s.h.won) && id !in Elems(s.h.released) {
        var a := s.h.home[id];
        assert s.blocks[a].meta.id == id && s.blocks[a].place.Quarantined?;
      }
    }
    assert Elems(s.h.won) == Elems(s.h.entered);
    DistinctCard(s.h.won);
    DistinctCard(s.h.entered);
  }

  lemma ShardsDisjoint(blocks: Blocks, shards: seq<seq<Addr>>)
    requires ShardInv(blocks, shards)
    ensures forall i, j :: 0 <= i < j < |shards| ==> Elems(shards[i]) !! Elems(shards[j])
  {
    forall i, j | 0 <= i < j < |shards| ensures Elems(shards[i]) !! Elems(shards[j]) {
      forall a | a in Elems(shards[i]) ensures a !in Elems(shards[j]) {
        assert Shard(a) == i;
      }
    }
  }

  lemma RestUnion(s: State)
    requires PlaceInv(s.blocks, s.pc) && ShardInv(s.blocks, s.shards) && RingInv(s.blocks, s.ring) && AtRest(s)
    ensures Union(s.shards) == s.blocks.Keys - Elems(s.ring)
  {
    forall a ensures a in Union(s.shards) <==> a in s.blocks.Keys - Elems(s.ring) {
      UnionHas(s.shards, a);
      if a in s.blocks && InList(s.blocks[a].place) {
        assert a in Elems(s.shards[Shard(a)]);
      }
    }
  }

  /** At rest the lists and the ring share out the allocated blocks. */
  lemma RestLists(s: State)
    requires PlaceInv(s.blocks, s.pc) && ShardInv(s.blocks, s.shards) && RingInv(s.blocks, s.ring) && AtRest(s)
    ensures Total(s.shards) == |s.blocks| - |s.ring|
  {
    RestUnion(s);
    ShardsDisjoint(s.blocks, s.shards);
    TotalIsUnion(s.shards);
    forall a | a in Elems(s.ring) ensures a in s.blocks.Keys {
      assert a in s.blocks;
    }
    assert |s.blocks.Keys - Elems(s.ring)| == |s.blocks| - |Elems(s.ring)|;
    DistinctCard(s.ring);
  }

  /**
   At rest the lists hold the successful allocations minus the frees, none of them FREED, and the
   quarantine holds min(frees, 1024) blocks.
   */
  ghost predicate Balanced(s: State) {
    && Total(s.shards) == s.h.allocs - |s.h.won|
    && |s.ring| == (if |s.h.won| < QUARANTINE_SIZE then |s.h.won| else QUARANTINE_SIZE)
    && forall a :: InShardList(s, a) ==> a in s.blocks && s.blocks[a].meta.state != O.Freed
  }

  lemma RestNotFreed(s: State)
    requires PlaceInv(s.blocks, s.pc) && MetaInv(s.blocks) && ShardInv(s.blocks, s.shards) && AtRest(s)
    ensures forall a :: InShardList(s, a) ==> a in s.blocks && s.blocks[a].meta.state != O.Freed
  {
  }

  lemma {:induction false} Accounting(es: seq<Step>)
    requires AtRest(Run(es))
    ensures Balanced(Run(es))
  {
    RunInv(es);
    var s := Run(es);
    RestWon(s);
    RestLists(s);
    RestNotFreed(s);
  }

  // ----- The registry as other components see it -----

  ghost function Live(s: State): set<Addr> {
    set a | a in s.blocks && s.blocks[a].meta.state != O.Freed
  }

  /**
   The set of live addresses grows by a new address, shrinks by the freed one, follows a resized one,
   and no other step of any thread touches it: the contracts of `OwnerHeap.Heap`.
   */
  lemma LiveSet(s: State, e: Step)
    requires Sane(s) && Legal(s, e)
    ensures Live(Next(s, e)) ==
      match e
      case Malloc(_, a, _) => Live(s) + {a}
      case FreeDecide(t, a) => if O.Free(s.blocks[a].meta, t).Ok? then Live(s) - {a} else Live(s)
      case ReallocMove(t, a') => Live(s) - {PcOf(s, t).a} + {a'}
      case _ => Live(s)
    ensures e.Malloc? ==> e.a !in Live(s)
    ensures e.ReallocMove? ==> e.a' !in Live(s) - {PcOf(s, e.t).a}
  {
    if InPlace(e) {
      hide Next;
      LiveInPlace(s, e);
    } else if Passing(e) {
      PassingStep(s, e);
    } else if e.ReallocMove? {
      MoveStep(s, e);
      hide Next;
    } else if e.Quarantine? {
      LiveQuarantine(s, e);
    }
  }

  lemma LiveInPlace(s: State, e: Step)
    requires MetaInv(s.blocks) && Legal(s, e) && InPlace(e)
    ensures var v := if e.FreeDecide? then O.Free(s.blocks[e.a].meta, e.t) else O.Fatal(O.DoubleFree);
      Live(Next(s, e)) == if e.Malloc? then Live(s) + {e.a} else if v.Ok? then Live(s) - {e.a} else Live(s)
  {
    InPlaceStep(s, e);
    assert e.a in s.blocks ==> s.blocks == s.blocks[e.a := s.blocks[e.a]];
  }

  lemma LiveQuarantine(s: State, e: Step)
    requires PcInv(s.blocks, s.pc) && MetaInv(s.blocks) && RingInv(s.blocks, s.ring)
    requires Legal(s, e) && e.Quarantine?
    ensures Live(Next(s, e)) == Live(s)
  {
    QuarantineStep(s, e);
    EvictRing(s);
    if s.ring != [] {
      var o := s.ring[0];
      assert s.blocks[o].meta.state == O.Freed;
    }
    forall x ensures x in Live(Evict(s)) <==> x in Live(s) {}
    assert Live(Evict(s)) == Live(s);
  }
}
