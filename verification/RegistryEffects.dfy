/**
 What each operation of the registry does, field by field: which reports it ends in and when, what
 becomes of the block, and what stays.  Only what the caller has to see to is asked for.
 */
module RegistryEffects {
  import opened Addresses
  import opened Seqs
  import O = Ownership
  import opened RegistryModel

  /** The step ends its thread in the report `why` and changes nothing else. */
  ghost predicate Stops(s: State, s': State, t: O.Tid, why: O.Violation) {
    s' == s.(pc := s.pc[t := Stopped(why)])
  }

  /** The step changes the header of `a` to `m`, and no other block, list, slot or thread. */
  ghost predicate Becomes(s: State, s': State, a: Addr, m: O.Meta) {
    && a in s.blocks && s'.blocks == s.blocks[a := Block(m, s.blocks[a].place)]
    && s'.shards == s.shards && s'.ring == s.ring && s'.pc == s.pc
  }

  /** Lists and quarantine stay. */
  ghost predicate SameLists(s: State, s': State) {
    s'.shards == s.shards && s'.ring == s.ring
  }

  /** The list a block belongs to. */
  lemma ShardIs(a: Addr, b: Addr)
    ensures 0 <= Shard(a) < 64
    ensures Shard(a) == Shard(b) <==> (a / 16 - b / 16) % 64 == 0
    ensures 0 <= a < 1024 ==> Shard(a) == a / 16
  {
  }

  // ----- Operations on a live block, by any thread that has no call under way -----

  lemma ShareEffect(s: State, t: O.Tid, a: Addr)
    requires PcOf(s, t).Idle? && a in s.blocks && s.blocks[a].place.Listed?
    ensures var m := s.blocks[a].meta; var s' := Next(s, Share(t, a));
      if m.owner != t then Stops(s, s', t, O.ForeignThread)
      else Becomes(s, s', a, O.Meta(m.id, m.size, O.Shared, m.borrows, m.owner)) && s'.h == s.h
  {
  }

  lemma ClaimEffect(s: State, t: O.Tid, a: Addr)
    requires PcOf(s, t).Idle? && a in s.blocks && s.blocks[a].place.Listed?
    ensures var m := s.blocks[a].meta; var s' := Next(s, Claim(t, a));
      Becomes(s, s', a, O.Meta(m.id, m.size, O.Owned, m.borrows, t)) && s'.h == s.h
  {
  }

  /** A pointer a client may pass to the other operations: published, and nobody resizes the block. */
  predicate Passable(s: State, t: O.Tid, a: Addr) {
    PcOf(s, t).Idle? && a in s.blocks && !s.blocks[a].place.Loose? && !s.blocks[a].place.Busy?
  }

  lemma BorrowEffect(s: State, t: O.Tid, a: Addr)
    requires Passable(s, t, a)
    ensures var m := s.blocks[a].meta; var s' := Next(s, Borrow(t, a));
      if m.state == O.Freed then Stops(s, s', t, O.UseAfterFree)
      else if m.state != O.Shared && m.owner != t then Stops(s, s', t, O.ForeignThread)
      else
        && Becomes(s, s', a, O.Meta(m.id, m.size, if m.state == O.Shared then O.Shared else O.Borrowed, m.borrows + 1, m.owner))
        && s'.h == s.h.(lent := s.h.lent + multiset{m.id})
  {
  }

  lemma ReleaseEffect(s: State, t: O.Tid, a: Addr)
    requires Passable(s, t, a)
    ensures var m := s.blocks[a].meta; var s' := Next(s, Release(t, a));
      if m.borrows == 0 then Stops(s, s', t, O.ReleaseWithoutBorrow)
      else
        && Becomes(s, s', a, O.Meta(m.id, m.size, if m.state == O.Borrowed && m.borrows == 1 then O.Owned else m.state,
                                    m.borrows - 1, m.owner))
        && s'.h == s.h.(returned := s.h.returned + multiset{m.id})
  {
  }

  // ----- Allocation -----

  lemma MallocEffect(s: State, t: O.Tid, a: Addr, size: nat)
    requires PcOf(s, t).Idle? && a != NULL && a !in s.blocks
    ensures var s' := Next(s, Malloc(t, a, size));
      && s'.blocks == s.blocks[a := Block(O.Meta(s.h.allocs, size, O.Owned, 0, t), Loose(t))]
      && s'.pc == s.pc[t := Inserting(a)] && SameLists(s, s') && s'.h.allocs == s.h.allocs + 1
  {
  }

  /** The block becomes the first of the list of its address. */
  lemma InsertEffect(s: State, t: O.Tid, a: Addr)
    requires Sane(s) && PcOf(s, t) == Inserting(a)
    ensures a in s.blocks && 0 <= a / 16 % 64 < |s.shards|
    ensures var s' := Next(s, Insert(t));
      && s'.blocks == s.blocks[a := Block(s.blocks[a].meta, Listed)] && s'.pc == s.pc[t := Idle]
      && s'.shards == s.shards[a / 16 % 64 := [a] + s.shards[a / 16 % 64]] && s'.ring == s.ring && s'.h == s.h
  {
  }

  // ----- Freeing -----

  lemma FreeEffect(s: State, t: O.Tid, a: Addr)
    requires Passable(s, t, a)
    ensures var m := s.blocks[a].meta; var s' := Next(s, FreeDecide(t, a));
      if m.state == O.Freed then Stops(s, s', t, O.DoubleFree)
      else if m.borrows > 0 then Stops(s, s', t, O.FreeingBorrowed)
      else if m.state != O.Shared && m.owner != t then Stops(s, s', t, O.ForeignThread)
      else
        && s'.blocks == s.blocks[a := Block(O.Meta(m.id, m.size, O.Freed, 0, m.owner), Doomed(t))]
        && s'.pc == s.pc[t := Freeing(a)] && SameLists(s, s') && s'.h == s.h.(won := s.h.won + [m.id])
  {
  }

  /** The list of its address loses the block, and only that. */
  lemma UnlinkEffect(s: State, t: O.Tid, a: Addr)
    requires Sane(s) && PcOf(s, t) == Freeing(a)
    ensures a in s.blocks && 0 <= a / 16 % 64 < |s.shards| && a in Elems(s.shards[a / 16 % 64])
    ensures var s' := Next(s, Unlink(t));
      && s'.blocks == s.blocks[a := Block(s.blocks[a].meta, Gone(t))] && s'.pc == s.pc[t := Unlinked(a)]
      && s'.shards == s.shards[a / 16 % 64 := Minus(s.shards[a / 16 % 64], {a})] && s'.ring == s.ring && s'.h == s.h
  {
    assert s.blocks[a].place == Doomed(t);
    assert Shard(a) == a / 16 % 64;
  }

  /** The block is last in the ring; of 1024 there the oldest goes back to the allocator. */
  lemma QuarantineEffect(s: State, t: O.Tid, a: Addr)
    requires Sane(s) && PcOf(s, t) == Unlinked(a)
    ensures a in s.blocks && |s.ring| <= 1024
    ensures var s' := Next(s, Quarantine(t)); var out := if |s.ring| < 1024 then {} else {s.ring[0]};
      && s'.ring == (if |s.ring| < 1024 then s.ring else s.ring[1..]) + [a] && s'.pc == s.pc[t := Idle] && s'.shards == s.shards
      && s'.blocks == (s.blocks - out)[a := Block(s.blocks[a].meta, Quarantined)]
      && s'.h.entered == s.h.entered + [s.blocks[a].meta.id] && s'.h.won == s.h.won
  {
    QuarantineStep(s, Quarantine(t));
    EvictRing(s);
  }

  // ----- Resizing -----

  lemma ReallocCheckEffect(s: State, t: O.Tid, a: Addr, size: nat)
    requires Passable(s, t, a) && size > 0
    ensures var m := s.blocks[a].meta; var s' := Next(s, ReallocCheck(t, a, size));
      if m.state == O.Freed then Stops(s, s', t, O.UseAfterFree)
      else if m.state != O.Shared && m.owner != t then Stops(s, s', t, O.ForeignThread)
      else
        && s'.blocks == s.blocks[a := Block(m, Busy(t))] && s'.pc == s.pc[t := Resizing(a, size)]
        && SameLists(s, s') && s'.h == s.h
  {
  }

  lemma ReallocUnlinkEffect(s: State, t: O.Tid, a: Addr, size: nat)
    requires Sane(s) && PcOf(s, t) == Resizing(a, size)
    ensures a in s.blocks && 0 <= a / 16 % 64 < |s.shards| && a in Elems(s.shards[a / 16 % 64])
    ensures var s' := Next(s, ReallocUnlink(t));
      && s'.blocks == s.blocks[a := Block(s.blocks[a].meta, Loose(t))] && s'.pc == s.pc[t := Moving(a, size)]
      && s'.shards == s.shards[a / 16 % 64 := Minus(s.shards[a / 16 % 64], {a})] && s'.ring == s.ring && s'.h == s.h
  {
    assert s.blocks[a].place == Busy(t);
    assert Shard(a) == a / 16 % 64;
  }

  /** The header moves along with the block, with the new size. */
  lemma ReallocMoveEffect(s: State, t: O.Tid, a: Addr, size: nat, a': Addr)
    requires Sane(s) && PcOf(s, t) == Moving(a, size) && a' != NULL && (a' == a || a' !in s.blocks)
    ensures a in s.blocks
    ensures var m := s.blocks[a].meta; var s' := Next(s, ReallocMove(t, a'));
      && s'.blocks == (s.blocks - {a})[a' := Block(O.Meta(m.id, size, m.state, m.borrows, m.owner), Loose(t))]
      && s'.pc == s.pc[t := Inserting(a')] && SameLists(s, s')
  {
  }

  lemma ReallocFailsEffect(s: State, t: O.Tid, a: Addr, size: nat)
    requires PcOf(s, t) == Moving(a, size)
    ensures Next(s, ReallocFails(t)) == s.(pc := s.pc[t := Inserting(a)])
  {
  }

  // ----- Progress -----

  /** A call under way always has a step, whatever the other threads are at. */
  lemma {:induction false} Progress(es: seq<Step>, t: O.Tid) returns (e: Step)
    requires !PcOf(Run(es), t).Idle? && !PcOf(Run(es), t).Stopped?
    ensures Legal(Run(es), e) && e.t == t && PcOf(Next(Run(es), e), t) != PcOf(Run(es), t)
    ensures match PcOf(Run(es), t)
            case Inserting(_) => PcOf(Next(Run(es), e), t) == Idle
            case Freeing(a) => PcOf(Next(Run(es), e), t) == Unlinked(a)
            case Unlinked(_) => PcOf(Next(Run(es), e), t) == Idle
            case Resizing(a, size) => PcOf(Next(Run(es), e), t) == Moving(a, size)
            case Moving(a, _) => PcOf(Next(Run(es), e), t) == Inserting(a)
  {
    RunInv(es);
    e := Onward(Run(es), t);
  }

  lemma MovedIsThere(s: State, t: O.Tid)
    requires Sane(s) && PcOf(s, t).Moving?
    ensures PcOf(s, t).a in s.blocks && PcOf(s, t).a != NULL
  {
  }

  lemma Onward(s: State, t: O.Tid) returns (e: Step)
    requires Sane(s) && !PcOf(s, t).Idle? && !PcOf(s, t).Stopped?
    ensures Legal(s, e) && e.t == t && PcOf(Next(s, e), t) != PcOf(s, t)
    ensures !InPlace(e) && (e.ReallocMove? ==> PcOf(s, t).Moving?)
    ensures match PcOf(s, t)
            case Inserting(_) => PcOf(Next(s, e), t) == Idle
            case Freeing(a) => PcOf(Next(s, e), t) == Unlinked(a)
            case Unlinked(_) => PcOf(Next(s, e), t) == Idle
            case Resizing(a, size) => PcOf(Next(s, e), t) == Moving(a, size)
            case Moving(a, _) => PcOf(Next(s, e), t) == Inserting(a)
  {
    hide Sane, Next;
    match PcOf(s, t)
    case Inserting(a) =>
      e := Insert(t);
      InsertEffect(s, t, a);
    case Freeing(a) =>
      e := Unlink(t);
      UnlinkEffect(s, t, a);
    case Unlinked(a) =>
      e := Quarantine(t);
      QuarantineEffect(s, t, a);
    case Resizing(a, size) =>
      e := ReallocUnlink(t);
      ReallocUnlinkEffect(s, t, a, size);
    case Moving(a, size) =>
      e := ReallocMove(t, a);
      MovedIsThere(s, t);
      ReallocMoveEffect(s, t, a, size, a);
  }

  /** How many critical sections a call has ahead of it. */
  function Ahead(p: Pc): nat {
    match p
    case Inserting(_) => 1
    case Unlinked(_) => 1
    case Freeing(_) => 2
    case Moving(_, _) => 2
    case Resizing(_, _) => 3
    case _ => 0
  }

  /** From any reachable state a thread's own steps alone bring its call to its end. */
  lemma {:induction false} CallsEnd(es: seq<Step>, t: O.Tid) returns (more: seq<Step>)
    requires !PcOf(Run(es), t).Stopped?
    ensures |more| == Ahead(PcOf(Run(es), t)) && (forall i :: 0 <= i < |more| ==> more[i].t == t)
    ensures PcOf(Run(es + more), t).Idle?
    decreases Ahead(PcOf(Run(es), t))
  {
    if PcOf(Run(es), t).Idle? {
      assert es + [] == es;
      return [];
    }
    var e := Progress(es, t);
    assert (es + [e])[..|es|] == es;
    more := CallsEnd(es + [e], t);
    assert es + [e] + more == es + ([e] + more);
    more := [e] + more;
  }

  // ----- Sizes -----

  /** The size that thread `t` last asked to resize something to. */
  ghost function Asked(es: seq<Step>, t: O.Tid): nat {
    if es == [] then 0
    else
      var init, e := es[..|es| - 1], es[|es| - 1];
      if Legal(Run(init), e) && e.ReallocCheck? && e.t == t then e.size else Asked(init, t)
  }

  /** The size last asked for with success for allocation `id`: its malloc's, or its last resize's. */
  ghost function Requested(es: seq<Step>, id: int): nat {
    if es == [] then 0
    else
      var init, e := es[..|es| - 1], es[|es| - 1];
      var s := Run(init);
      if Legal(s, e) && e.Malloc? && s.h.allocs == id then e.size
      else if Legal(s, e) && e.ReallocMove? && PcOf(s, e.t).a in s.blocks && s.blocks[PcOf(s, e.t).a].meta.id == id
      then Asked(init, e.t)
      else Requested(init, id)
  }

  /** The size of the resize a thread has under way. */
  function Under(p: Pc): int {
    match p
    case Resizing(_, size) => size
    case Moving(_, size) => size
    case _ => -1
  }

  lemma UnderStep(s: State, e: Step, t: O.Tid)
    requires Legal(s, e) && Under(PcOf(Next(s, e), t)) != -1
    ensures Under(PcOf(Next(s, e), t)) == if e.ReallocCheck? && e.t == t then e.size else Under(PcOf(s, t))
  {
  }

  lemma {:induction false} AskedIs(es: seq<Step>, t: O.Tid)
    ensures Under(PcOf(Run(es), t)) == -1 || Under(PcOf(Run(es), t)) == Asked(es, t)
  {
    if es != [] {
      var init, e := es[..|es| - 1], es[|es| - 1];
      AskedIs(init, t);
      if Legal(Run(init), e) && Under(PcOf(Run(es), t)) != -1 { UnderStep(Run(init), e, t); }
    }
  }

  /** The size in the header of every block is the size last asked for, by malloc or by a resize. */
  lemma {:induction false} SizeIsRequested(es: seq<Step>, a: Addr)
    requires a in Run(es).blocks
    ensures Run(es).blocks[a].meta.size == Requested(es, Run(es).blocks[a].meta.id)
  {
    if es != [] {
      var init, e := es[..|es| - 1], es[|es| - 1];
      var s := Run(init);
      RunInv(init);
      if a in s.blocks { SizeIsRequested(init, a); }
      if Legal(s, e) {
        if e.ReallocMove? {
          AskedIs(init, e.t);
          SizeIsRequested(init, PcOf(s, e.t).a);
          SizeMoves(s, e, a);
        } else {
          SizeStays(s, e, a);
          if a in s.blocks { NumbersBelow(s, a); }
        }
      }
    }
  }

  /** What a step other than a move makes of the size and the number of the block at `a`. */
  ghost predicate Keeps(s: State, e: Step, a: Addr) {
    var s' := Next(s, e);
    a in s'.blocks ==>
      if e.Malloc? && a == e.a then s'.blocks[a].meta == O.Meta(s.h.allocs, e.size, O.Owned, 0, e.t)
      else
        && a in s.blocks && s'.blocks[a].meta.id == s.blocks[a].meta.id
        && s'.blocks[a].meta.size == s.blocks[a].meta.size
  }

  lemma SizeStays(s: State, e: Step, a: Addr)
    requires Sane(s) && Legal(s, e) && !e.ReallocMove?
    ensures Keeps(s, e, a)
  {
    if InPlace(e) {
      SizeInPlace(s, e, a);
    } else if Passing(e) {
      SizePassing(s, e, a);
    } else if e.Quarantine? {
      SizeQuarantine(s, e, a);
    } else {
      hide Sane;
    }
  }

  lemma SizeInPlace(s: State, e: Step, a: Addr)
    requires Sane(s) && Legal(s, e) && InPlace(e)
    ensures Keeps(s, e, a)
  {
    hide Sane, PcInv, PlaceInv, MetaInv, ShardInv, RingInv;
  }

  lemma SizePassing(s: State, e: Step, a: Addr)
    requires Sane(s) && Legal(s, e) && Passing(e)
    ensures Keeps(s, e, a)
  {
    hide Sane, PcInv, PlaceInv, MetaInv, ShardInv, RingInv;
  }

  lemma SizeQuarantine(s: State, e: Step, a: Addr)
    requires Sane(s) && Legal(s, e) && e.Quarantine?
    ensures Keeps(s, e, a)
  {
    QuarantineEffect(s, e.t, PcOf(s, e.t).a);
    hide Sane, PcInv, PlaceInv, MetaInv, ShardInv, RingInv, Next;
  }

  lemma NumbersBelow(s: State, a: Addr)
    requires Inv(s) && a in s.blocks
    ensures s.blocks[a].meta.id != s.h.allocs
  {
  }

  lemma SizeMoves(s: State, e: Step, a: Addr)
    requires Inv(s) && Legal(s, e) && e.ReallocMove? && a in Next(s, e).blocks
    ensures e.t in s.pc && s.pc[e.t].Moving? && s.pc[e.t].a in s.blocks
    ensures a == e.a' ==> Next(s, e).blocks[a].meta.id == s.blocks[s.pc[e.t].a].meta.id
    ensures a == e.a' ==> Next(s, e).blocks[a].meta.size == s.pc[e.t].size
    ensures a != e.a' ==> a in s.blocks && Next(s, e).blocks[a] == s.blocks[a]
    ensures a != e.a' ==> s.blocks[a].meta.id != s.blocks[s.pc[e.t].a].meta.id
  {
    MoveStep(s, e);
  }

  // ----- Whole calls of one thread, when nobody comes between -----

  /** One thread's whole `owner_malloc` in one go. */
  ghost function MallocCall(s: State, t: O.Tid, a: Addr, size: nat): State {
    Next(Next(s, Malloc(t, a, size)), Insert(t))
  }

  /** A new block of `size`, owned by `t` and not lent, first in the list of its address. */
  ghost predicate Allocates(s: State, s': State, t: O.Tid, a: Addr, size: nat) {
    && s'.blocks == s.blocks[a := Block(O.Meta(s.h.allocs, size, O.Owned, 0, t), Listed)] && PcOf(s', t).Idle?
    && 0 <= a / 16 % 64 < |s.shards| && s'.shards == s.shards[a / 16 % 64 := [a] + s.shards[a / 16 % 64]] && s'.ring == s.ring
  }

  lemma MallocCallEffect(s: State, t: O.Tid, a: Addr, size: nat)
    requires Sane(s) && PcOf(s, t).Idle? && a != NULL && a !in s.blocks
    ensures Sane(MallocCall(s, t, a, size)) && Allocates(s, MallocCall(s, t, a, size), t, a, size)
  {
    StepKeepsSane(s, Malloc(t, a, size));
    MallocEffect(s, t, a, size);
    var s1 := Next(s, Malloc(t, a, size));
    hide Next;
    StepKeepsSane(s1, Insert(t));
    InsertEffect(s1, t, a);
  }

  /** One thread's whole `owner_free` in one go. */
  ghost function FreeCall(s: State, t: O.Tid, a: Addr): State {
    var s1 := Next(s, FreeDecide(t, a));
    if PcOf(s1, t).Freeing? then Next(Next(s1, Unlink(t)), Quarantine(t)) else s1
  }

  /** The checks of a free, in the order of the code. */
  predicate MayFree(m: O.Meta, t: O.Tid) {
    m.state != O.Freed && m.borrows == 0 && (m.state == O.Shared || m.owner == t)
  }

  /**
   The thread is idle and the block FREED, in no list and last in the quarantine, which gave its oldest
   block back if it was full.
   */
  ghost predicate Retires(s: State, s': State, t: O.Tid, a: Addr) {
    && |s.ring| <= 1024 && a in s.blocks && a in s'.blocks && PcOf(s', t).Idle?
    && var m := s.blocks[a].meta;
    && s'.blocks == (s.blocks - if |s.ring| < 1024 then {} else {s.ring[0]})
                      [a := Block(O.Meta(m.id, m.size, O.Freed, 0, m.owner), Quarantined)]
    && 0 <= a / 16 % 64 < |s.shards| && s'.shards == s.shards[a / 16 % 64 := Minus(s.shards[a / 16 % 64], {a})]
    && (forall i :: 0 <= i < |s'.shards| ==> a !in Elems(s'.shards[i]))
    && s'.ring == (if |s.ring| < 1024 then s.ring else s.ring[1..]) + [a]
    && s'.h.entered == s.h.entered + [m.id] && s'.h.won == s.h.won + [m.id]
  }

  lemma FreeCallEffect(s: State, t: O.Tid, a: Addr)
    requires Sane(s) && Passable(s, t, a) && MayFree(s.blocks[a].meta, t)
    ensures Sane(FreeCall(s, t, a)) && Retires(s, FreeCall(s, t, a), t, a)
  {
    hide Next, Sane, Minus, Elems;
    WonAndUnlinked(s, t, a);
    var s2 := Next(Next(s, FreeDecide(t, a)), Unlink(t));
    StepKeepsSane(s2, Quarantine(t));
    QuarantineEffect(s2, t, a);
    NotListed(Next(s2, Quarantine(t)), a);
  }

  /** The part of a free before the quarantine. */
  lemma WonAndUnlinked(s: State, t: O.Tid, a: Addr)
    requires Sane(s) && Passable(s, t, a) && MayFree(s.blocks[a].meta, t)
    ensures PcOf(Next(s, FreeDecide(t, a)), t).Freeing? && 0 <= a / 16 % 64 < |s.shards|
    ensures var m := s.blocks[a].meta; var s2 := Next(Next(s, FreeDecide(t, a)), Unlink(t));
      && Sane(s2) && PcOf(s2, t) == Unlinked(a)
      && s2.blocks == s.blocks[a := Block(O.Meta(m.id, m.size, O.Freed, 0, m.owner), Gone(t))]
      && s2.shards == s.shards[a / 16 % 64 := Minus(s.shards[a / 16 % 64], {a})] && s2.ring == s.ring
      && s2.h == s.h.(won := s.h.won + [m.id])
  {
    hide Next, Sane, Minus, Elems;
    FreeEffect(s, t, a);
    var s1 := Next(s, FreeDecide(t, a));
    StepKeepsSane(s, FreeDecide(t, a));
    UnlinkEffect(s1, t, a);
    StepKeepsSane(s1, Unlink(t));
  }

  lemma NotListed(s: State, a: Addr)
    requires Sane(s) && a in s.blocks && s.blocks[a].place.Quarantined?
    ensures forall i :: 0 <= i < |s.shards| ==> a !in Elems(s.shards[i])
  {
  }

  /** One thread's whole resize in one go; the allocator answers `a'`, NULL when it fails. */
  ghost function ReallocCall(s: State, t: O.Tid, a: Addr, size: nat, a': Addr): State {
    var s1 := Next(s, ReallocCheck(t, a, size));
    if !PcOf(s1, t).Resizing? then s1
    else Next(Next(Next(s1, ReallocUnlink(t)), if a' == NULL then ReallocFails(t) else ReallocMove(t, a')), Insert(t))
  }

  predicate MayResize(m: O.Meta, t: O.Tid) {
    m.state != O.Freed && (m.state == O.Shared || m.owner == t)
  }

  /**
   The thread is idle and the block, at its new address with its new size and otherwise with its old
   header, first in the list of that address; if the allocator failed it is where it was, first in its list.
   */
  ghost predicate Resizes(s: State, s': State, t: O.Tid, a: Addr, size: nat, a': Addr) {
    && a in s.blocks && |s.shards| == 64
    && var m := s.blocks[a].meta;
    && var b := if a' == NULL then a else a';
    && var n := if a' == NULL then m.size else size;
    && var cut := s.shards[a / 16 % 64 := Minus(s.shards[a / 16 % 64], {a})];
    && PcOf(s', t).Idle? && s'.ring == s.ring
    && s'.blocks == (s.blocks - {a})[b := Block(O.Meta(m.id, n, m.state, m.borrows, m.owner), Listed)]
    && s'.shards == cut[b / 16 % 64 := [b] + cut[b / 16 % 64]]
  }

  lemma ReallocCallEffect(s: State, t: O.Tid, a: Addr, size: nat, a': Addr)
    requires Sane(s) && Passable(s, t, a) && size > 0 && MayResize(s.blocks[a].meta, t)
    requires a' != NULL ==> a' == a || a' !in s.blocks
    ensures Sane(ReallocCall(s, t, a, size, a')) && Resizes(s, ReallocCall(s, t, a, size, a'), t, a, size, a')
  {
    hide Next, Sane, Minus, Elems;
    CheckedAndUnlinked(s, t, a, size);
    var s2 := Next(Next(s, ReallocCheck(t, a, size)), ReallocUnlink(t));
    var e := if a' == NULL then ReallocFails(t) else ReallocMove(t, a');
    var s3 := Next(s2, e);
    StepKeepsSane(s2, e);
    if a' == NULL {
      ReallocFailsEffect(s2, t, a, size);
      assert (s.blocks - {a})[a := Block(s.blocks[a].meta, Listed)] == s.blocks[a := Block(s.blocks[a].meta, Listed)];
    } else {
      ReallocMoveEffect(s2, t, a, size, a');
      assert s2.blocks - {a} == s.blocks - {a};
    }
    StepKeepsSane(s3, Insert(t));
    InsertEffect(s3, t, if a' == NULL then a else a');
  }

  /** The part of a resize before the allocator is asked. */
  lemma CheckedAndUnlinked(s: State, t: O.Tid, a: Addr, size: nat)
    requires Sane(s) && Passable(s, t, a) && size > 0 && MayResize(s.blocks[a].meta, t)
    ensures PcOf(Next(s, ReallocCheck(t, a, size)), t).Resizing? && |s.shards| == 64
    ensures var s2 := Next(Next(s, ReallocCheck(t, a, size)), ReallocUnlink(t));
      && Sane(s2) && PcOf(s2, t) == Moving(a, size) && s2.blocks == s.blocks[a := Block(s.blocks[a].meta, Loose(t))]
      && s2.shards == s.shards[a / 16 % 64 := Minus(s.shards[a / 16 % 64], {a})] && s2.ring == s.ring && s2.h == s.h
  {
    SixtyFour(s);
    hide Next, Sane, Minus, Elems;
    ReallocCheckEffect(s, t, a, size);
    var s1 := Next(s, ReallocCheck(t, a, size));
    StepKeepsSane(s, ReallocCheck(t, a, size));
    ReallocUnlinkEffect(s1, t, a, size);
    StepKeepsSane(s1, ReallocUnlink(t));
  }

  lemma SixtyFour(s: State)
    requires Sane(s)
    ensures |s.shards| == 64
  {
  }
}
