/**
 The registry under interleaving.  Every step is one critical section (or one allocator call) of one
 thread; a run is any sequence of steps of any threads.  The lists are values here: the linked
 structures that hold them are in `Registry`.
 */
module RegistryModel {
  import opened Addresses
  import opened Seqs
  import O = Ownership

  const NUM_SHARDS := 64
  const QUARANTINE_SIZE := 1024

  function Shard(a: Addr): int {
    (a / 16) % NUM_SHARDS
  }

  /**
   Where a block is on its way: in a shard list (`Listed`, or `Busy` while its thread is about to
   resize it, or `Doomed` after its thread won the FREED transition), in the hands of a thread
   (`Loose` before insertion, `Gone` between the unlinking and the quarantine), or quarantined.
   */
  datatype Place = Listed | Busy(t: O.Tid) | Doomed(t: O.Tid) | Loose(t: O.Tid) | Gone(t: O.Tid) | Quarantined

  datatype Block = Block(meta: O.Meta, place: Place)

  type Blocks = map<Addr, Block>

  /** Where a thread is between its critical sections. */
  datatype Pc =
    | Idle
    | Inserting(a: Addr)
    | Freeing(a: Addr)
    | Unlinked(a: Addr)
    | Resizing(a: Addr, size: nat)
    | Moving(a: Addr, size: nat)
    | Stopped(why: O.Violation)

  /** The history of the run: allocation numbers in the order of the events. */
  datatype History = History(
    allocs: nat,                // successful allocations so far, also the next number
    home: map<int, Addr>,       // the address of every allocation that is not released
    won: seq<int>,              // FREED transitions
    entered: seq<int>,          // entries into the quarantine
    released: seq<int>,         // calls of global_free
    lent: multiset<int>,        // successful borrows
    returned: multiset<int>)    // successful releases

  datatype State = State(
    blocks: Blocks,             // everything the allocator has handed out and not taken back
    shards: seq<seq<Addr>>,     // the registry lists, newest first
    ring: seq<Addr>,            // the quarantine, oldest first
    pc: map<O.Tid, Pc>,           // threads not in the map are idle
    h: History)

  function PcOf(s: State, t: O.Tid): Pc {
    if t in s.pc then s.pc[t] else Idle
  }

  predicate InList(p: Place) {
    p.Listed? || p.Busy? || p.Doomed?
  }

  // ----- Steps -----

  datatype Step =
    | Malloc(t: O.Tid, a: Addr, size: nat)
    | Insert(t: O.Tid)
    | FreeDecide(t: O.Tid, a: Addr)
    | Unlink(t: O.Tid)
    | Quarantine(t: O.Tid)
    | Claim(t: O.Tid, a: Addr)
    | Borrow(t: O.Tid, a: Addr)
    | Release(t: O.Tid, a: Addr)
    | Share(t: O.Tid, a: Addr)
    | ReallocCheck(t: O.Tid, a: Addr, size: nat)
    | ReallocUnlink(t: O.Tid)
    | ReallocMove(t: O.Tid, a': Addr)
    | ReallocFails(t: O.Tid)

  /** A pointer a client may pass: its block is not released, published, and nobody resizes it. */
  predicate Usable(s: State, a: Addr) {
    a in s.blocks && !s.blocks[a].place.Loose? && !s.blocks[a].place.Busy?
  }

  /** A step is enabled when its thread is there and the client keeps the rules the code relies on. */
  predicate Legal(s: State, e: Step) {
    match e
    case Malloc(t, a, _) => PcOf(s, t).Idle? && a != NULL && a !in s.blocks
    case Insert(t) => PcOf(s, t).Inserting?
    case FreeDecide(t, a) => PcOf(s, t).Idle? && Usable(s, a)
    case Unlink(t) => PcOf(s, t).Freeing?
    case Quarantine(t) => PcOf(s, t).Unlinked?
    case Claim(t, a) => PcOf(s, t).Idle? && a in s.blocks && s.blocks[a].place.Listed?
    case Borrow(t, a) => PcOf(s, t).Idle? && Usable(s, a)
    case Release(t, a) => PcOf(s, t).Idle? && Usable(s, a)
    case Share(t, a) => PcOf(s, t).Idle? && a in s.blocks && s.blocks[a].place.Listed?
    case ReallocCheck(t, a, size) => PcOf(s, t).Idle? && Usable(s, a) && size > 0
    case ReallocUnlink(t) => PcOf(s, t).Resizing?
    case ReallocMove(t, a') => PcOf(s, t).Moving? && a' != NULL && (a' == PcOf(s, t).a || a' !in s.blocks)
    case ReallocFails(t) => PcOf(s, t).Moving?
  }

  function At(s: State, t: O.Tid, p: Pc): State {
    s.(pc := s.pc[t := p])
  }

  function Put(s: State, a: Addr, b: Block): State {
    s.(blocks := s.blocks[a := b])
  }

  function Push(shards: seq<seq<Addr>>, a: Addr): seq<seq<Addr>> {
    if 0 <= Shard(a) < |shards| then shards[Shard(a) := [a] + shards[Shard(a)]] else shards
  }

  ghost function Cut(shards: seq<seq<Addr>>, a: Addr): seq<seq<Addr>> {
    if 0 <= Shard(a) < |shards| then shards[Shard(a) := Minus(shards[Shard(a)], {a})] else shards
  }

  /** A verdict applied: the block changes, or the thread stops with a report. */
  function Judge(s: State, t: O.Tid, a: Addr, v: O.Verdict): State
    requires a in s.blocks
  {
    match v
    case Ok(m) => Put(s, a, s.blocks[a].(meta := m))
    case Fatal(why) => At(s, t, Stopped(why))
  }

  function DoMalloc(s: State, t: O.Tid, a: Addr, size: nat): State {
    At(Put(s, a, Block(O.Fresh(s.h.allocs, size, t), Loose(t))), t, Inserting(a))
      .(h := s.h.(allocs := s.h.allocs + 1, home := s.h.home[s.h.allocs := a]))
  }

  function DoInsert(s: State, t: O.Tid, a: Addr): State
    requires a in s.blocks
  {
    At(Put(s, a, s.blocks[a].(place := Listed)), t, Idle).(shards := Push(s.shards, a))
  }

  function DoFreeDecide(s: State, t: O.Tid, a: Addr): State
    requires a in s.blocks
  {
    var v := O.Free(s.blocks[a].meta, t);
    if v.Fatal? then Judge(s, t, a, v)
    else At(Put(s, a, Block(v.meta, Doomed(t))), t, Freeing(a)).(h := s.h.(won := s.h.won + [v.meta.id]))
  }

  ghost function DoUnlink(s: State, t: O.Tid, a: Addr): State
    requires a in s.blocks
  {
    At(Put(s, a, s.blocks[a].(place := Gone(t))), t, Unlinked(a)).(shards := Cut(s.shards, a))
  }

  /** A full ring gives its oldest block back to the allocator first. */
  function Evict(s: State): State {
    if |s.ring| < QUARANTINE_SIZE || s.ring[0] !in s.blocks then s
    else s.(blocks := s.blocks - {s.ring[0]}, ring := s.ring[1..],
            h := s.h.(released := s.h.released + [s.blocks[s.ring[0]].meta.id],
                      home := s.h.home - {s.blocks[s.ring[0]].meta.id}))
  }

  function Admit(s: State, t: O.Tid, a: Addr): State
    requires a in s.blocks
  {
    At(Put(s, a, s.blocks[a].(place := Quarantined)), t, Idle)
      .(ring := s.ring + [a], h := s.h.(entered := s.h.entered + [s.blocks[a].meta.id]))
  }

  function DoBorrow(s: State, t: O.Tid, a: Addr): State
    requires a in s.blocks
  {
    var v := O.Borrow(s.blocks[a].meta, t);
    var s' := Judge(s, t, a, v);
    if v.Fatal? then s' else s'.(h := s.h.(lent := s.h.lent + multiset{v.meta.id}))
  }

  function DoRelease(s: State, t: O.Tid, a: Addr): State
    requires a in s.blocks
  {
    var v := O.Release(s.blocks[a].meta);
    var s' := Judge(s, t, a, v);
    if v.Fatal? then s' else s'.(h := s.h.(returned := s.h.returned + multiset{v.meta.id}))
  }

  function DoReallocCheck(s: State, t: O.Tid, a: Addr, size: nat): State
    requires a in s.blocks
  {
    var v := O.Realloc(s.blocks[a].meta, t);
    if v.Fatal? then Judge(s, t, a, v)
    else At(Put(s, a, s.blocks[a].(place := Busy(t))), t, Resizing(a, size))
  }

  ghost function DoReallocUnlink(s: State, t: O.Tid, a: Addr, size: nat): State
    requires a in s.blocks
  {
    At(Put(s, a, s.blocks[a].(place := Loose(t))), t, Moving(a, size)).(shards := Cut(s.shards, a))
  }

  /** The allocator copies the header along, whether or not the block moves. */
  function DoReallocMove(s: State, t: O.Tid, a: Addr, size: nat, a': Addr): State
    requires a in s.blocks
  {
    var b := s.blocks[a].(meta := s.blocks[a].meta.(size := size));
    At(s.(blocks := (s.blocks - {a})[a' := b], h := s.h.(home := s.h.home[b.meta.id := a'])), t, Inserting(a'))
  }

  /** What a step makes of a state; a step that is not legal changes nothing. */
  ghost function Next(s: State, e: Step): State {
    if !Legal(s, e) then s
    else match e
      case Malloc(t, a, size) => DoMalloc(s, t, a, size)
      case Insert(t) => if PcOf(s, t).a in s.blocks then DoInsert(s, t, PcOf(s, t).a) else s
      case FreeDecide(t, a) => DoFreeDecide(s, t, a)
      case Unlink(t) => if PcOf(s, t).a in s.blocks then DoUnlink(s, t, PcOf(s, t).a) else s
      case Quarantine(t) =>
        if PcOf(s, t).a in Evict(s).blocks then Admit(Evict(s), t, PcOf(s, t).a) else s
      case Claim(t, a) => Put(s, a, s.blocks[a].(meta := O.Claim(s.blocks[a].meta, t)))
      case Borrow(t, a) => DoBorrow(s, t, a)
      case Release(t, a) => DoRelease(s, t, a)
      case Share(t, a) => Judge(s, t, a, O.Share(s.blocks[a].meta, t))
      case ReallocCheck(t, a, size) => DoReallocCheck(s, t, a, size)
      case ReallocUnlink(t) =>
        if PcOf(s, t).a in s.blocks then DoReallocUnlink(s, t, PcOf(s, t).a, PcOf(s, t).size) else s
      case ReallocMove(t, a') =>
        if PcOf(s, t).a in s.blocks then DoReallocMove(s, t, PcOf(s, t).a, PcOf(s, t).size, a') else s
      case ReallocFails(t) => At(s, t, Inserting(PcOf(s, t).a))
  }

  ghost function Start(): State {
    State(map[], seq(NUM_SHARDS, i => []), [], map[], History(0, map[], [], [], [], multiset{}, multiset{}))
  }

  ghost function Run(es: seq<Step>): State {
    if es == [] then Start() else Next(Run(es[..|es| - 1]), es[|es| - 1])
  }

  // ----- Invariants -----

  /** A thread between two critical sections has its block in the place it left it in. */
  ghost predicate PcInv(blocks: Blocks, pc: map<O.Tid, Pc>) {
    forall t :: t in pc ==>
      match pc[t]
      case Idle => true
      case Inserting(a) => a in blocks && blocks[a].place == Loose(t)
      case Freeing(a) => a in blocks && blocks[a].place == Doomed(t)
      case Unlinked(a) => a in blocks && blocks[a].place == Gone(t)
      case Resizing(a, _) => a in blocks && blocks[a].place == Busy(t)
      case Moving(a, _) => a in blocks && blocks[a].place == Loose(t)
      case Stopped(_) => true
  }

  /** A block that is on its way is in the hands of exactly the thread that says so. */
  ghost predicate PlaceInv(blocks: Blocks, pc: map<O.Tid, Pc>) {
    forall a :: a in blocks ==>
      match blocks[a].place
      case Listed => true
      case Busy(t) => t in pc && pc[t].Resizing? && pc[t].a == a
      case Doomed(t) => t in pc && pc[t] == Freeing(a)
      case Loose(t) => t in pc && (pc[t].Inserting? || pc[t].Moving?) && pc[t].a == a
      case Gone(t) => t in pc && pc[t] == Unlinked(a)
      case Quarantined => true
  }

  /** FREED is the state from the won transition on; the state and the borrows agree. */
  ghost predicate MetaInv(blocks: Blocks) {
    forall a :: a in blocks ==>
      && a != NULL
      && O.Coherent(blocks[a].meta)
      && (blocks[a].meta.state == O.Freed <==>
            blocks[a].place.Doomed? || blocks[a].place.Gone? || blocks[a].place.Quarantined?)
  }

  /** The shard lists: duplicate-free, disjoint, every listed block in the shard of its address. */
  ghost predicate ShardInv(blocks: Blocks, shards: seq<seq<Addr>>) {
    && |shards| == NUM_SHARDS
    && (forall i :: 0 <= i < NUM_SHARDS ==> Distinct(shards[i]))
    && forall i, a :: 0 <= i < NUM_SHARDS ==>
         (a in Elems(shards[i]) <==> a in blocks && InList(blocks[a].place) && Shard(a) == i)
  }

  ghost predicate RingInv(blocks: Blocks, ring: seq<Addr>) {
    && |ring| <= QUARANTINE_SIZE
    && Distinct(ring)
    && forall a :: a in Elems(ring) <==> a in blocks && blocks[a].place.Quarantined?
  }

  ghost predicate HomeInv(blocks: Blocks, h: History) {
    && (forall a :: a in blocks ==> blocks[a].meta.id in h.home && h.home[blocks[a].meta.id] == a)
    && (forall i :: i in h.home ==> h.home[i] in blocks && blocks[h.home[i]].meta.id == i)
    && (forall i :: i in h.home <==> 0 <= i < h.allocs && i !in Elems(h.released))
    && (forall i :: i in Elems(h.released) ==> 0 <= i < h.allocs)
  }

  /** FREED once per allocation, into the quarantine once. */
  ghost predicate WonInv(blocks: Blocks, h: History) {
    && Distinct(h.won) && Distinct(h.entered)
    && (forall i :: i in Elems(h.won) ==> 0 <= i < h.allocs)
    && (forall i :: i in Elems(h.entered) ==> i in Elems(h.won))
    && (forall a :: a in blocks ==> (blocks[a].meta.state == O.Freed <==> blocks[a].meta.id in Elems(h.won)))
    && (forall a :: a in blocks ==> (blocks[a].place.Quarantined? <==> blocks[a].meta.id in Elems(h.entered)))
  }

  /** What entered is what was released followed by what is in the ring, in order. */
  ghost predicate WindowInv(blocks: Blocks, ring: seq<Addr>, h: History) {
    && |h.entered| == |h.released| + |ring|
    && h.released == h.entered[..|h.released|]
    && (forall i :: 0 <= i < |ring| ==> ring[i] in blocks && blocks[ring[i]].meta.id == h.entered[|h.released| + i])
    && (|ring| < QUARANTINE_SIZE ==> h.released == [])
  }

  ghost predicate BorrowInv(blocks: Blocks, h: History) {
    && (forall a :: a in blocks ==> blocks[a].meta.borrows + h.returned[blocks[a].meta.id] == h.lent[blocks[a].meta.id])
    && (forall i :: i in h.lent || i in h.returned ==> 0 <= i < h.allocs)
  }

  ghost predicate CountInv(blocks: Blocks, h: History) {
    |blocks| == h.allocs - |h.released|
  }

  /** What holds of the present structures. */
  ghost predicate Sane(s: State) {
    && PcInv(s.blocks, s.pc) && PlaceInv(s.blocks, s.pc) && MetaInv(s.blocks)
    && ShardInv(s.blocks, s.shards) && RingInv(s.blocks, s.ring)
  }

  /** What holds of them and of the history that led to them. */
  ghost predicate Inv(s: State) {
    && Sane(s)
    && HomeInv(s.blocks, s.h) && WonInv(s.blocks, s.h) && WindowInv(s.blocks, s.ring, s.h)
    && BorrowInv(s.blocks, s.h) && CountInv(s.blocks, s.h)
  }

  // ----- Preservation -----

  lemma ShardPush(blocks: Blocks, shards: seq<seq<Addr>>, a: Addr, b: Block)
    requires ShardInv(blocks, shards) && (a in blocks ==> !InList(blocks[a].place)) && InList(b.place)
    ensures ShardInv(blocks[a := b], Push(shards, a))
  {
    assert ([a] + shards[Shard(a)])[1..] == shards[Shard(a)];
  }

  lemma ShardCut(blocks: Blocks, shards: seq<seq<Addr>>, a: Addr, b: Block)
    requires ShardInv(blocks, shards) && !InList(b.place)
    ensures ShardInv(blocks[a := b], Cut(shards, a))
  {
    MinusElems(shards[Shard(a)], {a});
    MinusDistinct(shards[Shard(a)], {a});
  }

  /** What a step may do to the blocks, besides changing one in place. */
  function Moved(blocks: Blocks, a: Addr, a': Addr, b: Block): Blocks {
    (blocks - {a})[a' := b]
  }

  lemma ShardPut(blocks: Blocks, shards: seq<seq<Addr>>, a: Addr, b: Block)
    requires ShardInv(blocks, shards) && InList(b.place) == (a in blocks && InList(blocks[a].place))
    ensures ShardInv(blocks[a := b], shards)
  {
  }

  lemma ShardMoved(blocks: Blocks, shards: seq<seq<Addr>>, a: Addr, a': Addr, b: Block)
    requires ShardInv(blocks, shards) && a in blocks && !InList(blocks[a].place) && !InList(b.place)
    requires a' == a || a' !in blocks
    ensures ShardInv(Moved(blocks, a, a', b), shards)
  {
  }

  lemma ShardLess(blocks: Blocks, shards: seq<seq<Addr>>, a: Addr)
    requires ShardInv(blocks, shards) && (a in blocks ==> !InList(blocks[a].place))
    ensures ShardInv(blocks - {a}, shards)
  {
  }

  /** Steps that change one block where it is, or add one. */
  predicate InPlace(e: Step) {
    e.Malloc? || e.FreeDecide? || e.Claim? || e.Borrow? || e.Release? || e.Share? || e.ReallocCheck?
  }

  /** Steps that only move a block between places. */
  predicate Passing(e: Step) {
    e.Insert? || e.Unlink? || e.ReallocUnlink?
  }

  lemma InPlaceStep(s: State, e: Step)
    requires MetaInv(s.blocks) && Legal(s, e) && InPlace(e)
    ensures e.a in Next(s, e).blocks && Next(s, e).blocks == s.blocks[e.a := Next(s, e).blocks[e.a]]
    ensures Next(s, e).shards == s.shards && Next(s, e).ring == s.ring
    ensures !e.Malloc? ==> e.a in s.blocks && Next(s, e).blocks[e.a].meta.id == s.blocks[e.a].meta.id
    ensures !e.Malloc? ==> InList(Next(s, e).blocks[e.a].place) == InList(s.blocks[e.a].place)
    ensures !e.Malloc? ==> Next(s, e).blocks[e.a].place.Quarantined? == s.blocks[e.a].place.Quarantined?
    ensures !e.Malloc? ==> Next(s, e).h.home == s.h.home && Next(s, e).h.allocs == s.h.allocs
    ensures e.Malloc? ==> e.a !in s.blocks && Next(s, e).blocks[e.a].place.Loose?
    ensures Next(s, e).h.entered == s.h.entered && Next(s, e).h.released == s.h.released
  {
    assert e.a in s.blocks ==> s.blocks == s.blocks[e.a := s.blocks[e.a]];
  }

  lemma PassingStep(s: State, e: Step)
    requires PcInv(s.blocks, s.pc) && Legal(s, e) && Passing(e)
    ensures e.t in s.pc && (s.pc[e.t].Inserting? || s.pc[e.t].Freeing? || s.pc[e.t].Resizing?)
    ensures s.pc[e.t].a in s.blocks && s.pc[e.t].a in Next(s, e).blocks
    ensures Next(s, e).blocks == s.blocks[s.pc[e.t].a := Next(s, e).blocks[s.pc[e.t].a]]
    ensures Next(s, e).blocks[s.pc[e.t].a].meta == s.blocks[s.pc[e.t].a].meta
    ensures !Next(s, e).blocks[s.pc[e.t].a].place.Quarantined? && !s.blocks[s.pc[e.t].a].place.Quarantined?
    ensures Next(s, e).ring == s.ring && Next(s, e).h == s.h
  {
  }

  lemma MoveStep(s: State, e: Step)
    requires PcInv(s.blocks, s.pc) && Legal(s, e) && e.ReallocMove?
    ensures e.t in s.pc && s.pc[e.t].Moving? && s.pc[e.t].a in s.blocks && s.blocks[s.pc[e.t].a].place.Loose?
    ensures e.a' in Next(s, e).blocks && Next(s, e).blocks == Moved(s.blocks, s.pc[e.t].a, e.a', Next(s, e).blocks[e.a'])
    ensures Next(s, e).blocks[e.a'].place == s.blocks[s.pc[e.t].a].place
    ensures Next(s, e).blocks[e.a'].meta == s.blocks[s.pc[e.t].a].meta.(size := Next(s, e).blocks[e.a'].meta.size)
    ensures Next(s, e).shards == s.shards && Next(s, e).ring == s.ring
    ensures Next(s, e).h == s.h.(home := s.h.home[s.blocks[s.pc[e.t].a].meta.id := e.a'])
  {
  }

  /** The entry into the quarantine, after the oldest block had to leave a full one. */
  lemma QuarantineStep(s: State, e: Step)
    requires PcInv(s.blocks, s.pc) && RingInv(s.blocks, s.ring) && Legal(s, e) && e.Quarantine?
    ensures e.t in s.pc && s.pc[e.t].Unlinked? && s.pc[e.t].a in s.blocks && s.pc[e.t].a in Evict(s).blocks
    ensures s.blocks[s.pc[e.t].a].place == Gone(e.t) && Evict(s).blocks[s.pc[e.t].a] == s.blocks[s.pc[e.t].a]
    ensures Next(s, e) == Admit(Evict(s), e.t, s.pc[e.t].a)
  {
    EvictRing(s);
  }

  lemma ShardKept(s: State, e: Step)
    requires PcInv(s.blocks, s.pc) && MetaInv(s.blocks) && ShardInv(s.blocks, s.shards) && RingInv(s.blocks, s.ring)
    requires Legal(s, e)
    ensures ShardInv(Next(s, e).blocks, Next(s, e).shards)
  {
    if InPlace(e) {
      InPlaceStep(s, e);
      ShardPut(s.blocks, s.shards, e.a, Next(s, e).blocks[e.a]);
    } else if Passing(e) {
      PassingStep(s, e);
      if e.Insert? {
        ShardPush(s.blocks, s.shards, s.pc[e.t].a, Next(s, e).blocks[s.pc[e.t].a]);
      } else {
        ShardCut(s.blocks, s.shards, s.pc[e.t].a, Next(s, e).blocks[s.pc[e.t].a]);
      }
    } else if e.ReallocMove? {
      MoveStep(s, e);
      ShardMoved(s.blocks, s.shards, s.pc[e.t].a, e.a', Next(s, e).blocks[e.a']);
    } else if e.Quarantine? {
      QuarantineStep(s, e);
      EvictRing(s);
      if s.ring != [] { ShardLess(s.blocks, s.shards, s.ring[0]); }
      ShardPut(Evict(s).blocks, s.shards, s.pc[e.t].a, Next(s, e).blocks[s.pc[e.t].a]);
    }
  }

  lemma EvictRing(s: State)
    requires RingInv(s.blocks, s.ring)
    ensures s.ring != [] ==> s.ring[0] in s.blocks && s.blocks[s.ring[0]].place.Quarantined?
    ensures RingInv(Evict(s).blocks, Evict(s).ring) && |Evict(s).ring| < QUARANTINE_SIZE
    ensures forall a :: a in s.blocks && !s.blocks[a].place.Quarantined? ==>
      a in Evict(s).blocks && Evict(s).blocks[a] == s.blocks[a]
  {
    if s.ring != [] {
      var o := s.ring[0];
      assert o in Elems(s.ring);
    }
  }

  lemma RingPut(blocks: Blocks, ring: seq<Addr>, a: Addr, b: Block)
    requires RingInv(blocks, ring) && b.place.Quarantined? == (a in blocks && blocks[a].place.Quarantined?)
    ensures RingInv(blocks[a := b], ring)
  {
  }

  lemma RingMoved(blocks: Blocks, ring: seq<Addr>, a: Addr, a': Addr, b: Block)
    requires RingInv(blocks, ring) && a in blocks && !blocks[a].place.Quarantined? && !b.place.Quarantined?
    requires a' == a || a' !in blocks
    ensures RingInv(Moved(blocks, a, a', b), ring)
  {
  }

  lemma RingKept(s: State, e: Step)
    requires PcInv(s.blocks, s.pc) && MetaInv(s.blocks) && RingInv(s.blocks, s.ring)
    requires Legal(s, e)
    ensures RingInv(Next(s, e).blocks, Next(s, e).ring)
  {
    if InPlace(e) {
      InPlaceStep(s, e);
      RingPut(s.blocks, s.ring, e.a, Next(s, e).blocks[e.a]);
    } else if Passing(e) {
      PassingStep(s, e);
      RingPut(s.blocks, s.ring, s.pc[e.t].a, Next(s, e).blocks[s.pc[e.t].a]);
    } else if e.ReallocMove? {
      MoveStep(s, e);
      RingMoved(s.blocks, s.ring, s.pc[e.t].a, e.a', Next(s, e).blocks[e.a']);
    } else if e.Quarantine? {
      QuarantineStep(s, e);
      EvictRing(s);
      ElemsLast(Evict(s).ring, s.pc[e.t].a);
    }
  }

  lemma HomePut(blocks: Blocks, h: History, a: Addr, b: Block)
    requires HomeInv(blocks, h) && a in blocks && b.meta.id == blocks[a].meta.id
    ensures HomeInv(blocks[a := b], h)
  {
  }

  lemma HomeEvict(s: State)
    requires RingInv(s.blocks, s.ring) && HomeInv(s.blocks, s.h)
    ensures HomeInv(Evict(s).blocks, Evict(s).h)
  {
    EvictRing(s);
    if |s.ring| == QUARANTINE_SIZE {
      var o := s.ring[0];
      var id := s.blocks[o].meta.id;
      ElemsLast(s.h.released, id);
      assert forall a :: a in s.blocks && a != o ==> s.blocks[a].meta.id != id;
      assert forall i :: i in s.h.home && i != id ==> s.h.home[i] != o;
    }
  }

  lemma HomeMoved(blocks: Blocks, h: History, a: Addr, a': Addr, b: Block)
    requires HomeInv(blocks, h) && a in blocks && b.meta.id == blocks[a].meta.id && (a' == a || a' !in blocks)
    ensures HomeInv(Moved(blocks, a, a', b), h.(home := h.home[b.meta.id := a']))
  {
  }

  lemma HomeInPlace(s: State, e: Step)
    requires MetaInv(s.blocks) && HomeInv(s.blocks, s.h) && Legal(s, e) && InPlace(e)
    ensures HomeInv(Next(s, e).blocks, Next(s, e).h)
  {
    InPlaceStep(s, e);
    if !e.Malloc? {
      hide Next, Legal, MetaInv;
      HomePut(s.blocks, s.h, e.a, Next(s, e).blocks[e.a]);
    }
  }

  lemma HomeKept(s: State, e: Step)
    requires PcInv(s.blocks, s.pc) && MetaInv(s.blocks) && RingInv(s.blocks, s.ring) && HomeInv(s.blocks, s.h)
    requires Legal(s, e)
    ensures HomeInv(Next(s, e).blocks, Next(s, e).h)
  {
    hide RingInv;
    if InPlace(e) {
      HomeInPlace(s, e);
    } else if Passing(e) {
      PassingStep(s, e);
      HomePut(s.blocks, s.h, s.pc[e.t].a, Next(s, e).blocks[s.pc[e.t].a]);
    } else if e.ReallocMove? {
      MoveStep(s, e);
      HomeMoved(s.blocks, s.h, s.pc[e.t].a, e.a', Next(s, e).blocks[e.a']);
    } else if e.Quarantine? {
      QuarantineStep(s, e);
      HomeEvict(s);
      HomePut(Evict(s).blocks, Evict(s).h, s.pc[e.t].a, Next(s, e).blocks[s.pc[e.t].a]);
    }
  }

  /** What an operation in place does to its thread and its block. */
  lemma InPlaceControl(s: State, e: Step)
    requires MetaInv(s.blocks) && Legal(s, e) && InPlace(e)
    ensures e.a in Next(s, e).blocks && Next(s, e).blocks == s.blocks[e.a := Next(s, e).blocks[e.a]] && PcOf(s, e.t).Idle?
    ensures Next(s, e).pc == s.pc || Next(s, e).pc == s.pc[e.t := PcOf(Next(s, e), e.t)]
    ensures var p, q := Next(s, e).blocks[e.a].place, PcOf(Next(s, e), e.t);
      || (q.Stopped? && Next(s, e).blocks == s.blocks)
      || (e.a in s.blocks && p == s.blocks[e.a].place && Next(s, e).pc == s.pc)
      || (e.Malloc? && p == Loose(e.t) && q == Inserting(e.a) && e.a !in s.blocks)
      || (e.FreeDecide? && p == Doomed(e.t) && q == Freeing(e.a) && e.a in s.blocks && s.blocks[e.a].place.Listed?)
      || (e.ReallocCheck? && p == Busy(e.t) && q == Resizing(e.a, e.size) && e.a in s.blocks && s.blocks[e.a].place.Listed?)
  {
    InPlaceStep(s, e);
  }

  lemma PcInPlace(s: State, e: Step)
    requires PcInv(s.blocks, s.pc) && PlaceInv(s.blocks, s.pc) && MetaInv(s.blocks)
    requires Legal(s, e) && InPlace(e)
    ensures PcInv(Next(s, e).blocks, Next(s, e).pc)
  {
    InPlaceControl(s, e);
    hide Next, Legal, MetaInv;
  }

  lemma PcPassing(s: State, e: Step)
    requires PcInv(s.blocks, s.pc) && PlaceInv(s.blocks, s.pc) && MetaInv(s.blocks)
    requires Legal(s, e) && Passing(e)
    ensures PcInv(Next(s, e).blocks, Next(s, e).pc)
  {
  }

  lemma PcMove(s: State, e: Step)
    requires PcInv(s.blocks, s.pc) && PlaceInv(s.blocks, s.pc) && MetaInv(s.blocks)
    requires Legal(s, e) && (e.ReallocMove? || e.ReallocFails?)
    ensures PcInv(Next(s, e).blocks, Next(s, e).pc)
  {
  }

  lemma PcQuarantine(s: State, e: Step)
    requires PcInv(s.blocks, s.pc) && PlaceInv(s.blocks, s.pc) && MetaInv(s.blocks)
    requires RingInv(s.blocks, s.ring) && Legal(s, e) && e.Quarantine?
    ensures PcInv(Next(s, e).blocks, Next(s, e).pc)
  {
    QuarantineStep(s, e);
    EvictRing(s);
  }

  lemma PlaceInPlace(s: State, e: Step)
    requires PcInv(s.blocks, s.pc) && PlaceInv(s.blocks, s.pc) && MetaInv(s.blocks)
    requires Legal(s, e) && InPlace(e)
    ensures PlaceInv(Next(s, e).blocks, Next(s, e).pc)
  {
    InPlaceControl(s, e);
    hide Next, Legal, MetaInv;
  }

  lemma PlacePassing(s: State, e: Step)
    requires PcInv(s.blocks, s.pc) && PlaceInv(s.blocks, s.pc) && MetaInv(s.blocks)
    requires Legal(s, e) && Passing(e)
    ensures PlaceInv(Next(s, e).blocks, Next(s, e).pc)
  {
  }

  lemma PlaceMove(s: State, e: Step)
    requires PcInv(s.blocks, s.pc) && PlaceInv(s.blocks, s.pc) && MetaInv(s.blocks)
    requires Legal(s, e) && (e.ReallocMove? || e.ReallocFails?)
    ensures PlaceInv(Next(s, e).blocks, Next(s, e).pc)
  {
  }

  lemma PlaceQuarantine(s: State, e: Step)
    requires PcInv(s.blocks, s.pc) && PlaceInv(s.blocks, s.pc) && MetaInv(s.blocks)
    requires RingInv(s.blocks, s.ring) && Legal(s, e) && e.Quarantine?
    ensures PlaceInv(Next(s, e).blocks, Next(s, e).pc)
  {
    QuarantineStep(s, e);
    EvictRing(s);
  }

  lemma ControlKept(s: State, e: Step)
    requires PcInv(s.blocks, s.pc) && PlaceInv(s.blocks, s.pc) && MetaInv(s.blocks) && RingInv(s.blocks, s.ring)
    requires Legal(s, e)
    ensures PcInv(Next(s, e).blocks, Next(s, e).pc) && PlaceInv(Next(s, e).blocks, Next(s, e).pc)
  {
    if InPlace(e) {
      PcInPlace(s, e);
      PlaceInPlace(s, e);
    } else if Passing(e) {
      PcPassing(s, e);
      PlacePassing(s, e);
    } else if e.Quarantine? {
      PcQuarantine(s, e);
      PlaceQuarantine(s, e);
    } else {
      PcMove(s, e);
      PlaceMove(s, e);
    }
  }

  lemma MetaPut(blocks: Blocks, a: Addr, b: Block)
    requires MetaInv(blocks) && a != NULL && O.Coherent(b.meta)
    requires b.meta.state == O.Freed <==> b.place.Doomed? || b.place.Gone? || b.place.Quarantined?
    ensures MetaInv(blocks[a := b])
  {
  }

  lemma MetaInPlace(s: State, e: Step)
    requires MetaInv(s.blocks) && Legal(s, e) && InPlace(e)
    ensures MetaInv(Next(s, e).blocks)
  {
    InPlaceControl(s, e);
    if !e.Malloc? && s.blocks[e.a].meta.state != O.Freed { O.KeepsCoherent(s.blocks[e.a].meta, e.t); }
    MetaPut(s.blocks, e.a, Next(s, e).blocks[e.a]);
    hide Legal, MetaInv;
  }

  lemma MetaKept(s: State, e: Step)
    requires PcInv(s.blocks, s.pc) && PlaceInv(s.blocks, s.pc) && MetaInv(s.blocks)
    requires Legal(s, e)
    ensures MetaInv(Next(s, e).blocks)
  {
    if InPlace(e) { MetaInPlace(s, e); }
  }

  lemma WonFree(s: State, t: O.Tid, a: Addr)
    requires MetaInv(s.blocks) && HomeInv(s.blocks, s.h) && WonInv(s.blocks, s.h) && Legal(s, FreeDecide(t, a))
    ensures WonInv(DoFreeDecide(s, t, a).blocks, DoFreeDecide(s, t, a).h)
  {
    ElemsLast(s.h.won, s.blocks[a].meta.id);
  }

  lemma WonPut(blocks: Blocks, h: History, a: Addr, b: Block)
    requires WonInv(blocks, h) && a in blocks && b.meta.id == blocks[a].meta.id
    requires (b.meta.state == O.Freed <==> blocks[a].meta.state == O.Freed)
    requires b.place.Quarantined? == blocks[a].place.Quarantined?
    ensures WonInv(blocks[a := b], h)
  {
  }

  lemma WonAdmit(s: State, t: O.Tid, a: Addr)
    requires MetaInv(s.blocks) && HomeInv(s.blocks, s.h) && WonInv(s.blocks, s.h) && a in s.blocks && s.blocks[a].place.Gone?
    ensures WonInv(Admit(s, t, a).blocks, Admit(s, t, a).h)
  {
    ElemsLast(s.h.entered, s.blocks[a].meta.id);
  }

  lemma WonMoved(blocks: Blocks, h: History, a: Addr, a': Addr, b: Block)
    requires WonInv(blocks, h) && a in blocks && b.meta.id == blocks[a].meta.id
    requires b.meta.state == blocks[a].meta.state && b.place == blocks[a].place
    ensures WonInv(Moved(blocks, a, a', b), h)
  {
  }

  lemma WonMalloc(s: State, t: O.Tid, a: Addr, size: nat)
    requires WonInv(s.blocks, s.h) && a !in s.blocks
    ensures WonInv(DoMalloc(s, t, a, size).blocks, DoMalloc(s, t, a, size).h)
  {
  }

  lemma WonInPlace(s: State, e: Step)
    requires MetaInv(s.blocks) && WonInv(s.blocks, s.h) && Legal(s, e) && InPlace(e) && !e.Malloc? && !e.FreeDecide?
    ensures WonInv(Next(s, e).blocks, Next(s, e).h)
  {
    InPlaceStep(s, e);
    hide MetaInv;
    assert Next(s, e).h.won == s.h.won && Next(s, e).h.entered == s.h.entered && Next(s, e).h.allocs == s.h.allocs;
    WonPut(s.blocks, s.h, e.a, Next(s, e).blocks[e.a]);
  }

  lemma WonKept(s: State, e: Step)
    requires PcInv(s.blocks, s.pc) && MetaInv(s.blocks) && RingInv(s.blocks, s.ring)
    requires HomeInv(s.blocks, s.h) && WonInv(s.blocks, s.h)
    requires Legal(s, e)
    ensures WonInv(Next(s, e).blocks, Next(s, e).h)
  {
    hide HomeInv, RingInv;
    if e.Malloc? {
      WonMalloc(s, e.t, e.a, e.size);
    } else if e.FreeDecide? {
      WonFree(s, e.t, e.a);
    } else if InPlace(e) {
      WonInPlace(s, e);
    } else if Passing(e) {
      PassingStep(s, e);
      WonPut(s.blocks, s.h, s.pc[e.t].a, Next(s, e).blocks[s.pc[e.t].a]);
    } else if e.ReallocMove? {
      MoveStep(s, e);
      WonMoved(s.blocks, s.h, s.pc[e.t].a, e.a', Next(s, e).blocks[e.a']);
    } else if e.Quarantine? {
      WonQuarantine(s, e);
    }
  }

  lemma WonQuarantine(s: State, e: Step)
    requires PcInv(s.blocks, s.pc) && MetaInv(s.blocks) && RingInv(s.blocks, s.ring)
    requires HomeInv(s.blocks, s.h) && WonInv(s.blocks, s.h)
    requires Legal(s, e) && e.Quarantine?
    ensures WonInv(Next(s, e).blocks, Next(s, e).h)
  {
    QuarantineStep(s, e);
    HomeEvict(s);
    WonAdmit(Evict(s), e.t, s.pc[e.t].a);
  }

  lemma WindowPut(blocks: Blocks, ring: seq<Addr>, h: History, a: Addr, b: Block)
    requires WindowInv(blocks, ring, h) && (a in blocks ==> b.meta.id == blocks[a].meta.id)
    ensures WindowInv(blocks[a := b], ring, h)
  {
  }

  lemma RingMembers(blocks: Blocks, ring: seq<Addr>)
    requires RingInv(blocks, ring)
    ensures forall i :: 0 <= i < |ring| ==> ring[i] in blocks && blocks[ring[i]].place.Quarantined?
  {
    forall i | 0 <= i < |ring| ensures ring[i] in blocks && blocks[ring[i]].place.Quarantined? {
      ElemsHas(ring, i);
      var a := ring[i];
      assert a in Elems(ring);
    }
  }

  lemma WindowMoved(blocks: Blocks, ring: seq<Addr>, h: History, a: Addr, a': Addr, b: Block)
    requires WindowInv(blocks, ring, h) && RingInv(blocks, ring)
    requires a in blocks && !blocks[a].place.Quarantined? && (a' == a || a' !in blocks)
    ensures WindowInv(Moved(blocks, a, a', b), ring, h)
  {
    RingMembers(blocks, ring);
  }

  lemma WindowEvict(s: State)
    requires RingInv(s.blocks, s.ring) && WindowInv(s.blocks, s.ring, s.h)
    ensures |Evict(s).ring| < QUARANTINE_SIZE
    ensures |s.ring| == QUARANTINE_SIZE ==> |Evict(s).ring| == QUARANTINE_SIZE - 1
    ensures |s.h.entered| == |Evict(s).h.released| + |Evict(s).ring| && Evict(s).h.entered == s.h.entered
    ensures Evict(s).h.released == s.h.entered[..|Evict(s).h.released|]
    ensures forall i :: 0 <= i < |Evict(s).ring| ==> Evict(s).ring[i] in Evict(s).blocks
    ensures forall i :: 0 <= i < |Evict(s).ring| ==>
      Evict(s).blocks[Evict(s).ring[i]].meta.id == s.h.entered[|Evict(s).h.released| + i]
  {
    RingMembers(s.blocks, s.ring);
    if |s.ring| == QUARANTINE_SIZE {
      var k := |s.h.released|;
      assert s.h.entered[..k + 1] == s.h.entered[..k] + [s.h.entered[k]];
      forall i | 0 < i < |s.ring| ensures s.ring[i] != s.ring[0] {
        DistinctIndex(s.ring, 0, i);
      }
    }
  }

  lemma WindowQuarantine(s: State, e: Step)
    requires PcInv(s.blocks, s.pc) && RingInv(s.blocks, s.ring) && WindowInv(s.blocks, s.ring, s.h)
    requires Legal(s, e) && e.Quarantine?
    ensures WindowInv(Next(s, e).blocks, Next(s, e).ring, Next(s, e).h)
  {
    QuarantineStep(s, e);
    WindowEvict(s);
  }

  lemma WindowKept(s: State, e: Step)
    requires PcInv(s.blocks, s.pc) && MetaInv(s.blocks) && RingInv(s.blocks, s.ring)
    requires WindowInv(s.blocks, s.ring, s.h) && Legal(s, e)
    ensures WindowInv(Next(s, e).blocks, Next(s, e).ring, Next(s, e).h)
  {
    if InPlace(e) {
      InPlaceStep(s, e);
      WindowPut(s.blocks, s.ring, s.h, e.a, Next(s, e).blocks[e.a]);
    } else if Passing(e) {
      PassingStep(s, e);
      WindowPut(s.blocks, s.ring, s.h, s.pc[e.t].a, Next(s, e).blocks[s.pc[e.t].a]);
    } else if e.ReallocMove? {
      MoveStep(s, e);
      WindowMoved(s.blocks, s.ring, s.h, s.pc[e.t].a, e.a', Next(s, e).blocks[e.a']);
    } else if e.Quarantine? {
      WindowQuarantine(s, e);
    }
  }

  lemma BorrowPut(blocks: Blocks, h: History, a: Addr, b: Block)
    requires BorrowInv(blocks, h) && a in blocks && b.meta.id == blocks[a].meta.id && b.meta.borrows == blocks[a].meta.borrows
    ensures BorrowInv(blocks[a := b], h)
  {
  }

  /** A borrow or a release counts for its own allocation only. */
  lemma BorrowCounted(s: State, e: Step)
    requires HomeInv(s.blocks, s.h) && BorrowInv(s.blocks, s.h)
    requires Legal(s, e) && (e.Borrow? || e.Release?)
    ensures BorrowInv(Next(s, e).blocks, Next(s, e).h)
  {
    var id := s.blocks[e.a].meta.id;
    assert forall x :: x in s.blocks && x != e.a ==> s.blocks[x].meta.id != id;
    assert 0 <= id < s.h.allocs;
    hide HomeInv;
  }

  lemma BorrowMalloc(s: State, e: Step)
    requires HomeInv(s.blocks, s.h) && BorrowInv(s.blocks, s.h) && Legal(s, e) && e.Malloc?
    ensures BorrowInv(Next(s, e).blocks, Next(s, e).h)
  {
    assert s.h.allocs !in s.h.lent && s.h.allocs !in s.h.returned;
  }

  lemma BorrowOther(s: State, e: Step)
    requires MetaInv(s.blocks) && BorrowInv(s.blocks, s.h) && Legal(s, e)
    requires e.FreeDecide? || e.Claim? || e.Share? || e.ReallocCheck?
    ensures BorrowInv(Next(s, e).blocks, Next(s, e).h)
  {
    BorrowPut(s.blocks, s.h, e.a, Next(s, e).blocks[e.a]);
  }

  lemma BorrowKept(s: State, e: Step)
    requires PcInv(s.blocks, s.pc) && MetaInv(s.blocks) && RingInv(s.blocks, s.ring)
    requires HomeInv(s.blocks, s.h) && BorrowInv(s.blocks, s.h) && Legal(s, e)
    ensures BorrowInv(Next(s, e).blocks, Next(s, e).h)
  {
    if e.Borrow? || e.Release? {
      BorrowCounted(s, e);
    } else if e.Malloc? {
      BorrowMalloc(s, e);
    } else if InPlace(e) {
      BorrowOther(s, e);
    } else if Passing(e) {
      PassingStep(s, e);
      BorrowPut(s.blocks, s.h, s.pc[e.t].a, Next(s, e).blocks[s.pc[e.t].a]);
    } else if e.ReallocMove? {
      MoveStep(s, e);
    } else if e.Quarantine? {
      QuarantineStep(s, e);
      BorrowPut(Evict(s).blocks, Evict(s).h, s.pc[e.t].a, Next(s, e).blocks[s.pc[e.t].a]);
    }
  }

  lemma CountInPlace(s: State, e: Step)
    requires MetaInv(s.blocks) && Legal(s, e) && InPlace(e)
    ensures |Next(s, e).blocks| == |s.blocks| + (if e.Malloc? then 1 else 0)
    ensures Next(s, e).h.allocs == s.h.allocs + (if e.Malloc? then 1 else 0) && Next(s, e).h.released == s.h.released
  {
    InPlaceStep(s, e);
    hide Next, MetaInv;
    CountPut(s.blocks, e.a, Next(s, e).blocks[e.a]);
  }

  lemma CountPut(blocks: Blocks, a: Addr, b: Block)
    ensures |blocks[a := b]| == |blocks| + if a in blocks then 0 else 1
  {
  }

  lemma CountMoved(blocks: Blocks, a: Addr, a': Addr, b: Block)
    requires a in blocks && (a' == a || a' !in blocks)
    ensures |(blocks - {a})[a' := b]| == |blocks|
  {
  }

  lemma CountEvict(s: State, e: Step)
    requires PcInv(s.blocks, s.pc) && RingInv(s.blocks, s.ring) && CountInv(s.blocks, s.h) && Legal(s, e) && e.Quarantine?
    ensures CountInv(Next(s, e).blocks, Next(s, e).h)
  {
    QuarantineStep(s, e);
    EvictRing(s);
    hide Next, PcInv, RingInv;
    var a := s.pc[e.t].a;
    CountPut(Evict(s).blocks, a, Evict(s).blocks[a].(place := Quarantined));
  }

  lemma CountKept(s: State, e: Step)
    requires PcInv(s.blocks, s.pc) && MetaInv(s.blocks) && RingInv(s.blocks, s.ring) && CountInv(s.blocks, s.h)
    requires Legal(s, e)
    ensures CountInv(Next(s, e).blocks, Next(s, e).h)
  {
    hide MetaInv, RingInv;
    if InPlace(e) {
      CountInPlace(s, e);
    } else if Passing(e) {
      PassingStep(s, e);
      hide Next;
      CountPut(s.blocks, s.pc[e.t].a, Next(s, e).blocks[s.pc[e.t].a]);
    } else if e.ReallocMove? {
      MoveStep(s, e);
      hide Next;
      CountMoved(s.blocks, s.pc[e.t].a, e.a', Next(s, e).blocks[e.a']);
    } else if e.Quarantine? {
      CountEvict(s, e);
    }
  }

  lemma StepKeepsSane(s: State, e: Step)
    requires Sane(s)
    ensures Sane(Next(s, e))
  {
    if Legal(s, e) {
      ControlKept(s, e);
      MetaKept(s, e);
      ShardKept(s, e);
      RingKept(s, e);
    }
  }

  lemma StepKeepsInv(s: State, e: Step)
    requires Inv(s)
    ensures Inv(Next(s, e))
  {
    StepKeepsSane(s, e);
    if Legal(s, e) {
      HomeKept(s, e);
      WonKept(s, e);
      WindowKept(s, e);
      BorrowKept(s, e);
      CountKept(s, e);
    }
  }

  lemma StartSane()
    ensures Sane(Start())
  {
  }

  lemma StartInv()
    ensures Inv(Start())
  {
    StartSane();
  }

  /** Every run of every number of threads, interleaved in any way, keeps the whole invariant. */
  lemma {:induction false} RunInv(es: seq<Step>)
    ensures Inv(Run(es))
  {
    if es == [] {
      StartInv();
    } else {
      RunInv(es[..|es| - 1]);
      StepKeepsInv(Run(es[..|es| - 1]), es[|es| - 1]);
    }
  }
}
