/**
 The registry as the runtime keeps it: 64 doubly-linked lists through the headers of the blocks and a
 ring of 1024 slots.  Each method is what one thread does under one lock; between two of them any
 other thread may run.
 */
module Registry {
  import opened Addresses
  import opened Seqs
  import O = Ownership
  import opened RegistryModel
  import E = RegistryEffects
  import R = RegistryRuns

  /** The header in front of a block. */
  datatype Cell = Cell(size: nat, state: O.OwnState, borrows: nat, owner: O.Tid, prev: Addr, next: Addr)

  function MetaOf(c: Cell, id: int): O.Meta {
    O.Meta(id, c.size, c.state, c.borrows, c.owner)
  }

  /** How a critical section ends for its caller. */
  datatype Outcome = Done | Report(why: O.Violation)

  /** What a free ends in: freed before, lent out, or another thread's and not shared. */
  function FreeOutcome(m: O.Meta, t: O.Tid): Outcome {
    if m.state == O.Freed then Report(O.DoubleFree)
    else if m.borrows > 0 then Report(O.FreeingBorrowed)
    else if m.state != O.Shared && m.owner != t then Report(O.ForeignThread)
    else Done
  }

  /** What a borrow or a resize ends in: freed before, or another thread's and not shared. */
  function UseOutcome(m: O.Meta, t: O.Tid): Outcome {
    if m.state == O.Freed then Report(O.UseAfterFree)
    else if m.state != O.Shared && m.owner != t then Report(O.ForeignThread)
    else Done
  }

  type Mem = map<Addr, Cell>

  function NodeAt(l: seq<Addr>, i: int): Addr {
    if 0 <= i < |l| then l[i] else NULL
  }

  /** The headers spell out `l` from `head`: `prev` and `next` are each other's inverse. */
  ghost predicate Dll(mem: Mem, head: Addr, l: seq<Addr>) {
    && head == NodeAt(l, 0)
    && (forall i :: 0 <= i < |l| ==> l[i] != NULL && l[i] in mem)
    && forall i {:trigger mem[l[i]]} :: 0 <= i < |l| ==> mem[l[i]].prev == NodeAt(l, i - 1) && mem[l[i]].next == NodeAt(l, i + 1)
  }

  /** Nothing but links differs. */
  ghost predicate SameOwnership(mem: Mem, mem': Mem) {
    forall a :: a in mem && a in mem' ==> MetaOf(mem'[a], 0) == MetaOf(mem[a], 0)
  }

  /** `mem'` has the links of `mem` on the nodes of `l`. */
  ghost predicate SameLinks(mem: Mem, mem': Mem, l: seq<Addr>) {
    forall a :: a in Elems(l) && a in mem ==> a in mem' && mem'[a].prev == mem[a].prev && mem'[a].next == mem[a].next
  }

  lemma DllFrame(mem: Mem, mem': Mem, head: Addr, l: seq<Addr>)
    requires Dll(mem, head, l) && SameLinks(mem, mem', l)
    ensures Dll(mem', head, l)
  {
    forall i | 0 <= i < |l|
      ensures l[i] in mem' && mem'[l[i]].prev == NodeAt(l, i - 1) && mem'[l[i]].next == NodeAt(l, i + 1)
    {
      ElemsHas(l, i);
      var a := l[i];
      assert a in mem && mem[l[i]].prev == NodeAt(l, i - 1);
    }
  }

  /** Linking `a` in front: the list that `insert_meta` leaves. */
  lemma DllPush(mem: Mem, head: Addr, l: seq<Addr>, a: Addr, mem': Mem)
    requires Dll(mem, head, l) && Distinct(l) && a !in Elems(l) && a != NULL
    requires a in mem' && mem'[a].prev == NULL && mem'[a].next == head
    requires forall x :: x in Elems(l) && x in mem ==>
      x in mem' && mem'[x].next == mem[x].next && mem'[x].prev == if x == head then a else mem[x].prev
    ensures Dll(mem', a, [a] + l)
  {
    var l' := [a] + l;
    forall i | 0 < i < |l'|
      ensures l'[i] in mem' && l'[i] != NULL && mem'[l'[i]].prev == NodeAt(l', i - 1) && mem'[l'[i]].next == NodeAt(l', i + 1)
    {
      var x := l[i - 1];
      ElemsHas(l, i - 1);
      assert x in mem && mem[l[i - 1]].next == NodeAt(l, i);
      if i > 1 { DistinctIndex(l, 0, i - 1); }
    }
  }

  /** `mem'` closes the gap around the k-th node of `l`. */
  ghost predicate GapClosed(mem: Mem, l: seq<Addr>, k: nat, mem': Mem)
    requires k < |l|
  {
    forall x :: x in Elems(l) && x in mem && x != l[k] ==>
      && x in mem'
      && mem'[x].next == (if x == NodeAt(l, k - 1) then NodeAt(l, k + 1) else mem[x].next)
      && mem'[x].prev == (if x == NodeAt(l, k + 1) then NodeAt(l, k - 1) else mem[x].prev)
  }

  lemma GapClosedAt(mem: Mem, head: Addr, l: seq<Addr>, k: nat, mem': Mem, j: nat)
    requires Dll(mem, head, l) && Distinct(l) && k < |l| && GapClosed(mem, l, k, mem') && j < |l| && j != k
    requires NULL !in mem
    ensures l[j] in mem' && l[j] != NULL
    ensures mem'[l[j]].next == if j == k - 1 then NodeAt(l, k + 1) else NodeAt(l, j + 1)
    ensures mem'[l[j]].prev == if j == k + 1 then NodeAt(l, k - 1) else NodeAt(l, j - 1)
  {
    var x := l[j];
    ElemsHas(l, j);
    assert x in mem && mem[l[j]].next == NodeAt(l, j + 1) && mem[l[j]].prev == NodeAt(l, j - 1);
    if k > 0 && j != k - 1 { Differ(l, j, k - 1); }
    if k + 1 < |l| && j != k + 1 { Differ(l, j, k + 1); }
    Differ(l, j, k);
  }

  lemma DllCutAt(mem: Mem, head: Addr, l: seq<Addr>, k: nat, mem': Mem, i: nat)
    requires Dll(mem, head, l) && Distinct(l) && k < |l| && GapClosed(mem, l, k, mem') && NULL !in mem && i < |l| - 1
    ensures var l' := l[..k] + l[k + 1..];
      l'[i] in mem' && l'[i] != NULL && mem'[l'[i]].prev == NodeAt(l', i - 1) && mem'[l'[i]].next == NodeAt(l', i + 1)
  {
    CutAt(l, k, i);
    GapClosedAt(mem, head, l, k, mem', if i < k then i else i + 1);
  }

  /** The list that `remove_meta` leaves. */
  lemma DllCut(mem: Mem, head: Addr, l: seq<Addr>, k: nat, mem': Mem)
    requires Dll(mem, head, l) && Distinct(l) && k < |l| && GapClosed(mem, l, k, mem') && NULL !in mem
    ensures Dll(mem', if k == 0 then NodeAt(l, 1) else head, l[..k] + l[k + 1..])
  {
    var l' := l[..k] + l[k + 1..];
    assert NodeAt(l', 0) == if k == 0 then NodeAt(l, 1) else head;
    forall i | 0 <= i < |l'|
      ensures l'[i] in mem' && l'[i] != NULL && mem'[l'[i]].prev == NodeAt(l', i - 1) && mem'[l'[i]].next == NodeAt(l', i + 1)
    {
      DllCutAt(mem, head, l, k, mem', i);
    }
    hide GapClosed, Distinct;
  }

  /** The neighbours in a list without its k-th element. */
  lemma CutAt(l: seq<Addr>, k: nat, i: nat)
    requires k < |l| && i < |l| - 1
    ensures var l' := l[..k] + l[k + 1..]; var j := if i < k then i else i + 1;
      && l'[i] == l[j]
      && NodeAt(l', i - 1) == (if j == k + 1 then NodeAt(l, k - 1) else NodeAt(l, j - 1))
      && NodeAt(l', i + 1) == (if j == k - 1 then NodeAt(l, k + 1) else NodeAt(l, j + 1))
  {
  }

  lemma Differ(l: seq<Addr>, i: nat, j: nat)
    requires Distinct(l) && i < |l| && j < |l| && i != j
    ensures l[i] != l[j]
  {
    if i < j { DistinctIndex(l, i, j); } else { DistinctIndex(l, j, i); }
  }

  /** All shard lists, each of the addresses of its own shard. */
  ghost predicate Lists(mem: Mem, heads: seq<Addr>, shards: seq<seq<Addr>>) {
    && |heads| == |shards| == NUM_SHARDS
    && forall i :: 0 <= i < NUM_SHARDS ==> Dll(mem, heads[i], shards[i])
  }

  ghost predicate Sorted(shards: seq<seq<Addr>>) {
    && (forall i :: 0 <= i < |shards| ==> Distinct(shards[i]))
    && forall i, a :: 0 <= i < |shards| && a in Elems(shards[i]) ==> Shard(a) == i
  }

  /** A change of one shard's links leaves the other lists alone. */
  lemma ListsUpdate(mem: Mem, heads: seq<Addr>, shards: seq<seq<Addr>>, i: nat, mem': Mem, head: Addr, l: seq<Addr>)
    requires Lists(mem, heads, shards) && Sorted(shards) && i < NUM_SHARDS
    requires Dll(mem', head, l)
    requires forall a :: a in mem && Shard(a) != i ==> a in mem' && mem'[a].prev == mem[a].prev && mem'[a].next == mem[a].next
    ensures Lists(mem', heads[i := head], shards[i := l])
  {
    forall j | 0 <= j < NUM_SHARDS && j != i ensures Dll(mem', heads[j], shards[j]) {
      forall a | a in Elems(shards[j]) ensures Shard(a) != i { assert Shard(a) == j; }
      DllFrame(mem, mem', heads[j], shards[j]);
    }
  }

  lemma ListsFrame(mem: Mem, heads: seq<Addr>, shards: seq<seq<Addr>>, mem': Mem)
    requires Lists(mem, heads, shards)
    requires forall a :: a in mem ==> a in mem' && mem'[a].prev == mem[a].prev && mem'[a].next == mem[a].next
    ensures Lists(mem', heads, shards)
  {
    forall j | 0 <= j < NUM_SHARDS ensures Dll(mem', heads[j], shards[j]) {
      DllFrame(mem, mem', heads[j], shards[j]);
    }
  }

  /** The ring array: `tail` is the next slot to fill, and the oldest block once the ring is full. */
  ghost predicate RingShows(q: seq<Addr>, tail: nat, ring: seq<Addr>) {
    && |q| == QUARANTINE_SIZE && tail < QUARANTINE_SIZE && |ring| <= QUARANTINE_SIZE
    && (|ring| < QUARANTINE_SIZE ==>
          tail == |ring| && (forall i :: 0 <= i < tail ==> q[i] == ring[i]) && forall i :: tail <= i < QUARANTINE_SIZE ==> q[i] == NULL)
    && (|ring| == QUARANTINE_SIZE ==>
          (forall i :: tail <= i < QUARANTINE_SIZE ==> q[i] == ring[i - tail])
          && forall i :: 0 <= i < tail ==> q[i] == ring[QUARANTINE_SIZE - tail + i])
  }

  lemma RingPush(q: seq<Addr>, tail: nat, ring: seq<Addr>, a: Addr)
    requires RingShows(q, tail, ring)
    ensures RingShows(q[tail := a], (tail + 1) % QUARANTINE_SIZE,
                      (if |ring| < QUARANTINE_SIZE then ring else ring[1..]) + [a])
    ensures q[tail] == if |ring| < QUARANTINE_SIZE then NULL else ring[0]
  {
  }

  /** The structures in memory are those of the abstract state. */
  ghost predicate Shows(mem: Mem, heads: seq<Addr>, q: seq<Addr>, tail: nat, s: State) {
    && mem.Keys == s.blocks.Keys
    && (forall a :: a in mem && a in s.blocks ==> MetaOf(mem[a], s.blocks[a].meta.id) == s.blocks[a].meta)
    && Lists(mem, heads, s.shards)
    && RingShows(q, tail, s.ring)
  }

  lemma InvSorted(s: State)
    requires Sane(s)
    ensures Sorted(s.shards) && |s.shards| == NUM_SHARDS
    ensures forall a :: a in s.blocks ==> a != NULL
  {
  }

  /** A changed header, or none, with everything else in place. */
  lemma ShowsMeta(mem: Mem, heads: seq<Addr>, q: seq<Addr>, tail: nat, s: State, a: Addr, c: Cell, s': State)
    requires Shows(mem, heads, q, tail, s) && a in s.blocks && a in s'.blocks
    requires s'.blocks == s.blocks[a := s'.blocks[a]] && s'.blocks[a].meta == MetaOf(c, s'.blocks[a].meta.id)
    requires c.prev == mem[a].prev && c.next == mem[a].next
    requires s'.shards == s.shards && s'.ring == s.ring
    ensures Shows(mem[a := c], heads, q, tail, s')
  {
    ListsFrame(mem, heads, s.shards, mem[a := c]);
  }

  /** What unlinking `a` in step `e` finds and what it has to leave. */
  lemma UnlinkReady(s: State, e: Step, a: Addr)
    requires Sane(s) && (e.Unlink? || e.ReallocUnlink?) && Legal(s, e) && PcOf(s, e.t).a == a
    ensures Sorted(s.shards) && a in Elems(s.shards[Shard(a)]) && NULL !in s.blocks
    ensures Next(s, e).shards == Cut(s.shards, a) && Next(s, e).ring == s.ring
    ensures Next(s, e).blocks.Keys == s.blocks.Keys
    ensures forall x :: x in s.blocks ==> Next(s, e).blocks[x].meta == s.blocks[x].meta
  {
    PassingStep(s, e);
  }

  lemma ShowsUnlinked(s: State, mem: Mem, q: seq<Addr>, tail: nat, mem': Mem, heads': seq<Addr>, s': State)
    requires mem.Keys == s.blocks.Keys && RingShows(q, tail, s.ring)
    requires forall a :: a in mem && a in s.blocks ==> MetaOf(mem[a], s.blocks[a].meta.id) == s.blocks[a].meta
    requires SameOwnership(mem, mem') && mem'.Keys == mem.Keys && Lists(mem', heads', s'.shards)
    requires s'.blocks.Keys == s.blocks.Keys && s'.ring == s.ring
    requires forall a :: a in s.blocks && a in s'.blocks ==> s'.blocks[a].meta == s.blocks[a].meta
    ensures Shows(mem', heads', q, tail, s')
  {
  }

  class Runtime {
    const heads: array<Addr>        // registry_heads
    const quarantine: array<Addr>
    var mem: Mem
    var tail: nat
    ghost var s: State

    ghost predicate Valid()
      reads this, heads, quarantine
    {
      heads != quarantine && Shows(mem, heads[..], quarantine[..], tail, s)
    }

    constructor ()
      ensures Valid() && Inv(s) && s == Start() && fresh(heads) && fresh(quarantine)
    {
      var h := new Addr[NUM_SHARDS](i => NULL);
      var q := new Addr[QUARANTINE_SIZE](i => NULL);
      heads, quarantine, mem, tail, s := h, q, map[], 0, Start();
      new;
      StartInv();
      assert forall i :: 0 <= i < NUM_SHARDS ==> heads[..][i] == NULL && s.shards[i] == [];
    }

    /** Links a block in front of the list of its shard. */
    method InsertMeta(a: Addr)
      requires heads.Length == NUM_SHARDS && a in mem && a != NULL
      requires Lists(mem, heads[..], s.shards) && Sorted(s.shards) && a !in Elems(s.shards[Shard(a)])
      modifies this`mem, heads
      ensures Lists(mem, heads[..], Push(s.shards, a))
      ensures mem.Keys == old(mem.Keys) && SameOwnership(old(mem), mem)
    {
      var idx := Shard(a);
      ghost var l := s.shards[idx];
      assert Dll(mem, heads[..][idx], l);
      mem := mem[a := mem[a].(prev := NULL, next := heads[idx])];
      if heads[idx] != NULL {
        mem := mem[heads[idx] := mem[heads[idx]].(prev := a)];
      }
      DllPush(old(mem), heads[idx], l, a, mem);
      HeadShard(s.shards, idx);
      ListsUpdate(old(mem), heads[..], s.shards, idx, mem, a, [a] + l);
      heads[idx] := a;
      assert heads[..] == old(heads[..])[idx := a];
    }

    /** Makes the neighbours of `a` point past it. */
    method PointPast(a: Addr)
      requires heads.Length == NUM_SHARDS && a in mem && NULL !in mem
      requires mem[a].prev != NULL ==> mem[a].prev in mem && mem[a].prev != a && mem[a].prev != mem[a].next
      requires mem[a].next != NULL ==> mem[a].next in mem && mem[a].next != a
      modifies this`mem, heads
      ensures mem.Keys == old(mem.Keys) && SameOwnership(old(mem), mem)
      ensures forall x :: x in mem && x != a ==>
        && mem[x].next == (if x == old(mem[a]).prev then old(mem[a]).next else old(mem[x]).next)
        && mem[x].prev == (if x == old(mem[a]).next then old(mem[a]).prev else old(mem[x]).prev)
      ensures heads[..] == if old(mem[a]).prev == NULL && old(heads[Shard(a)]) == a
                           then old(heads[..])[Shard(a) := old(mem[a]).next] else old(heads[..])
    {
      var idx, prev, next := Shard(a), mem[a].prev, mem[a].next;
      if prev != NULL {
        mem := mem[prev := mem[prev].(next := next)];
      } else if heads[idx] == a {
        heads[idx] := next;
      }
      if next != NULL {
        mem := mem[next := mem[next].(prev := prev)];
      }
      mem := mem[a := mem[a].(prev := NULL, next := NULL)];
    }

    /** Unlinks a block from the list of its shard. */
    method RemoveMeta(a: Addr)
      requires heads.Length == NUM_SHARDS && NULL !in mem
      requires Lists(mem, heads[..], s.shards) && Sorted(s.shards) && a in Elems(s.shards[Shard(a)])
      modifies this`mem, heads
      ensures Lists(mem, heads[..], Cut(s.shards, a))
      ensures mem.Keys == old(mem.Keys) && SameOwnership(old(mem), mem)
    {
      var idx := Shard(a);
      ghost var l, m0, h0 := s.shards[idx], mem, heads[..];
      ghost var k: int := ElemsIndex(l, a);
      MinusAt(l, k);
      assert Dll(m0, h0[idx], l) && m0[l[k]].prev == NodeAt(l, k - 1) && m0[l[k]].next == NodeAt(l, k + 1);
      NeighbourShards(s.shards, idx, k);
      PointPast(a);
      DllCut(m0, h0[idx], l, k, mem);
      ListsUpdate(m0, h0, s.shards, idx, mem, if k == 0 then NodeAt(l, 1) else h0[idx], l[..k] + l[k + 1..]);
      assert heads[..] == h0[idx := if k == 0 then NodeAt(l, 1) else h0[idx]];
    }

    /** `remove_meta` as the step to `s'` that cuts `a` out of its list. */
    method UnlinkInto(a: Addr, ghost s': State)
      requires Valid() && Sorted(s.shards) && a in Elems(s.shards[Shard(a)]) && NULL !in s.blocks
      requires s'.shards == Cut(s.shards, a) && s'.ring == s.ring && s'.blocks.Keys == s.blocks.Keys
      requires forall x :: x in s.blocks && x in s'.blocks ==> s'.blocks[x].meta == s.blocks[x].meta
      modifies this`mem, this`s, heads
      ensures Valid() && s == s'
    {
      RemoveMeta(a);
      ShowsUnlinked(s, old(mem), quarantine[..], tail, mem, heads[..], s');
      s := s';
    }

    // ----- The critical sections -----

    /** The allocator returned `a`; the header is filled in before anybody else can see it. */
    method FillHeader(t: O.Tid, a: Addr, size: nat)
      requires Valid() && Sane(s) && PcOf(s, t).Idle? && a != NULL && a !in s.blocks
      modifies this`mem, this`s
      ensures Valid() && s == Next(old(s), Malloc(t, a, size))
      ensures mem.Keys == old(mem).Keys + {a} && s.blocks[a] == Block(O.Meta(old(s).h.allocs, size, O.Owned, 0, t), Loose(t))
      ensures mem[a].size == size && mem[a].state == O.Owned && mem[a].borrows == 0 && mem[a].owner == t
    {
      E.MallocEffect(s, t, a, size);
      mem := mem[a := Cell(size, O.Owned, 0, t, NULL, NULL)];
      ListsFrame(old(mem), heads[..], s.shards, mem);
      s := Next(s, Malloc(t, a, size));
    }

    method Insert(t: O.Tid, a: Addr)
      requires Valid() && Sane(s) && PcOf(s, t) == Inserting(a)
      modifies this`mem, this`s, heads
      ensures Valid() && s == Next(old(s), Step.Insert(t))
    {
      InvSorted(s);
      InsertMeta(a);
      s := Next(s, Step.Insert(t));
    }

    /** Under the shard lock: the one place where a block turns FREED. */
    method FreeDecide(t: O.Tid, a: Addr) returns (r: Outcome)
      requires Valid() && Sane(s) && E.Passable(s, t, a)
      modifies this`mem, this`s
      ensures Valid() && s == Next(old(s), Step.FreeDecide(t, a))
      ensures r == FreeOutcome(old(s).blocks[a].meta, t)
      ensures mem == if r.Done? then old(mem)[a := old(mem)[a].(state := O.Freed)] else old(mem)
    {
      ghost var e := Step.FreeDecide(t, a);
      InPlaceStep(s, e);
      hide Lists, RingShows, Sane;
      var c := mem[a];
      if c.state == O.Freed {
        r := Report(O.DoubleFree);
      } else if c.borrows > 0 {
        r := Report(O.FreeingBorrowed);
      } else if c.state != O.Shared && c.owner != t {
        r := Report(O.ForeignThread);
      } else {
        r := Done;
        mem := mem[a := c.(state := O.Freed)];
      }
      ShowsMeta(old(mem), heads[..], quarantine[..], tail, s, a, mem[a], Next(s, e));
      assert old(mem)[a := mem[a]] == mem;
      s := Next(s, e);
    }

    method FreeUnlink(t: O.Tid, a: Addr)
      requires Valid() && Sane(s) && PcOf(s, t) == Freeing(a)
      modifies this`mem, this`s, heads
      ensures Valid() && s == Next(old(s), Unlink(t))
    {
      UnlinkReady(s, Unlink(t), a);
      UnlinkInto(a, Next(s, Unlink(t)));
    }

    /** Puts `a` into the next slot and says what it replaces. */
    method Rotate(a: Addr) returns (replaced: Addr)
      requires RingShows(quarantine[..], tail, s.ring)
      modifies this`tail, quarantine
      ensures RingShows(quarantine[..], tail, (if |s.ring| < QUARANTINE_SIZE then s.ring else s.ring[1..]) + [a])
      ensures replaced == if |s.ring| < QUARANTINE_SIZE then NULL else s.ring[0]
    {
      RingPush(quarantine[..], tail, s.ring, a);
      replaced := quarantine[tail];
      quarantine[tail] := a;
      assert quarantine[..] == old(quarantine[..])[tail := a];
      tail := (tail + 1) % QUARANTINE_SIZE;
    }

    /** Under the quarantine lock: the slot's old block goes back to the allocator, `a` takes its place. */
    method FreeQuarantine(t: O.Tid, a: Addr) returns (released: Addr)
      requires Valid() && Sane(s) && PcOf(s, t) == Unlinked(a)
      modifies this`mem, this`tail, this`s, quarantine
      ensures Valid() && s == Next(old(s), Quarantine(t))
      ensures |old(s).ring| <= 1024 && released == if |old(s).ring| < 1024 then NULL else old(s).ring[0]
      ensures s.ring == (if |old(s).ring| < 1024 then old(s).ring else old(s).ring[1..]) + [a] && PcOf(s, t).Idle?
      ensures a in s.blocks && s.blocks[a].place == Quarantined && mem.Keys == old(mem).Keys - {released}
    {
      E.QuarantineEffect(s, t, a);
      ghost var e := Quarantine(t);
      QuarantineStep(s, e);
      EvictRing(s);
      InvSorted(s);
      hide Sane, RingShows, Lists;
      released := Rotate(a);
      if released != NULL {
        ListsLess(mem, heads[..], s.shards, released);
        mem := mem - {released};
      }
      s := Next(s, e);
    }

    method Claim(t: O.Tid, a: Addr)
      requires Valid() && Sane(s) && PcOf(s, t).Idle? && a in s.blocks && s.blocks[a].place.Listed?
      modifies this`mem, this`s
      ensures Valid() && s == Next(old(s), Step.Claim(t, a))
      ensures a in old(mem) && mem == old(mem)[a := old(mem)[a].(owner := t, state := O.Owned)]
    {
      ghost var e := Step.Claim(t, a);
      InPlaceStep(s, e);
      hide Lists, RingShows, Sane;
      mem := mem[a := mem[a].(owner := t, state := O.Owned)];
      ShowsMeta(old(mem), heads[..], quarantine[..], tail, s, a, mem[a], Next(s, e));
      assert old(mem)[a := mem[a]] == mem;
      s := Next(s, e);
    }

    method Borrow(t: O.Tid, a: Addr) returns (r: Outcome)
      requires Valid() && Sane(s) && E.Passable(s, t, a)
      modifies this`mem, this`s
      ensures Valid() && s == Next(old(s), Step.Borrow(t, a))
      ensures r == UseOutcome(old(s).blocks[a].meta, t)
      ensures r.Report? ==> mem == old(mem)
      ensures r.Done? ==> mem.Keys == old(mem).Keys && mem[a].borrows == old(mem)[a].borrows + 1
      ensures r.Done? ==> mem[a].state == if old(mem)[a].state == O.Shared then O.Shared else O.Borrowed
    {
      ghost var e := Step.Borrow(t, a);
      InPlaceStep(s, e);
      hide Lists, RingShows, Sane;
      var c := mem[a];
      if c.state == O.Freed {
        r := Report(O.UseAfterFree);
      } else if c.state != O.Shared && c.owner != t {
        r := Report(O.ForeignThread);
      } else {
        c := c.(borrows := c.borrows + 1);
        if c.state != O.Shared { c := c.(state := O.Borrowed); }
        r := Done;
        mem := mem[a := c];
      }
      ShowsMeta(old(mem), heads[..], quarantine[..], tail, s, a, mem[a], Next(s, e));
      assert old(mem)[a := mem[a]] == mem;
      s := Next(s, e);
    }

    method Release(t: O.Tid, a: Addr) returns (r: Outcome)
      requires Valid() && Sane(s) && E.Passable(s, t, a)
      modifies this`mem, this`s
      ensures Valid() && s == Next(old(s), Step.Release(t, a))
      ensures r == if old(s).blocks[a].meta.borrows == 0 then Report(O.ReleaseWithoutBorrow) else Done
      ensures r.Report? ==> mem == old(mem)
      ensures r.Done? ==> mem.Keys == old(mem).Keys && mem[a].borrows == old(mem)[a].borrows - 1
      ensures r.Done? ==> mem[a].state == if old(mem)[a].state == O.Borrowed && mem[a].borrows == 0 then O.Owned else old(mem)[a].state
    {
      ghost var e := Step.Release(t, a);
      InPlaceStep(s, e);
      hide Lists, RingShows, Sane;
      var c := mem[a];
      if c.borrows > 0 {
        c := c.(borrows := c.borrows - 1);
        if c.borrows == 0 && c.state == O.Borrowed { c := c.(state := O.Owned); }
        r := Done;
        mem := mem[a := c];
      } else {
        r := Report(O.ReleaseWithoutBorrow);
      }
      ShowsMeta(old(mem), heads[..], quarantine[..], tail, s, a, mem[a], Next(s, e));
      assert old(mem)[a := mem[a]] == mem;
      s := Next(s, e);
    }

    method Share(t: O.Tid, a: Addr) returns (r: Outcome)
      requires Valid() && Sane(s) && PcOf(s, t).Idle? && a in s.blocks && s.blocks[a].place.Listed?
      modifies this`mem, this`s
      ensures Valid() && s == Next(old(s), Step.Share(t, a))
      ensures a in old(mem) && r == if old(mem)[a].owner != t then Report(O.ForeignThread) else Done
      ensures mem == if r.Done? then old(mem)[a := old(mem)[a].(state := O.Shared)] else old(mem)
    {
      ghost var e := Step.Share(t, a);
      InPlaceStep(s, e);
      hide Lists, RingShows, Sane;
      var c := mem[a];
      if c.owner != t {
        r := Report(O.ForeignThread);
      } else {
        r := Done;
        mem := mem[a := c.(state := O.Shared)];
      }
      ShowsMeta(old(mem), heads[..], quarantine[..], tail, s, a, mem[a], Next(s, e));
      assert old(mem)[a := mem[a]] == mem;
      s := Next(s, e);
    }

    method ReallocCheck(t: O.Tid, a: Addr, size: nat) returns (r: Outcome)
      requires Valid() && Sane(s) && E.Passable(s, t, a) && size > 0
      modifies this`s
      ensures Valid() && s == Next(old(s), Step.ReallocCheck(t, a, size))
      ensures r == UseOutcome(old(s).blocks[a].meta, t)
    {
      ghost var e := Step.ReallocCheck(t, a, size);
      InPlaceStep(s, e);
      hide Lists, RingShows, Sane;
      var c := mem[a];
      if c.state == O.Freed {
        r := Report(O.UseAfterFree);
      } else if c.state != O.Shared && c.owner != t {
        r := Report(O.ForeignThread);
      } else {
        r := Done;
      }
      s := Next(s, e);
    }

    method ReallocUnlink(t: O.Tid, a: Addr, size: nat)
      requires Valid() && Sane(s) && PcOf(s, t) == Resizing(a, size)
      modifies this`mem, this`s, heads
      ensures Valid() && s == Next(old(s), Step.ReallocUnlink(t))
    {
      UnlinkReady(s, Step.ReallocUnlink(t), a);
      UnlinkInto(a, Next(s, Step.ReallocUnlink(t)));
    }

    /** The allocator returned `a'` for `a`, with the header copied along. */
    method ReallocMove(t: O.Tid, a: Addr, size: nat, a': Addr)
      requires Valid() && Sane(s) && PcOf(s, t) == Moving(a, size) && a' != NULL && (a' == a || a' !in s.blocks)
      modifies this`mem, this`s
      ensures Valid() && s == Next(old(s), Step.ReallocMove(t, a'))
      ensures a in old(mem) && mem == (old(mem) - {a})[a' := old(mem)[a].(size := size)]
    {
      ghost var e := Step.ReallocMove(t, a');
      MoveStep(s, e);
      InvSorted(s);
      ListsMoved(mem, heads[..], s.shards, a, a', mem[a].(size := size));
      mem := (mem - {a})[a' := mem[a].(size := size)];
      s := Next(s, e);
    }

    /** The allocator could not resize: the block goes back where it was. */
    method ReallocFails(t: O.Tid, a: Addr, size: nat)
      requires Valid() && PcOf(s, t) == Moving(a, size)
      modifies this`s
      ensures Valid() && s == Next(old(s), Step.ReallocFails(t))
    {
      s := Next(s, Step.ReallocFails(t));
    }

    // ----- Whole calls of one thread, when nobody comes between -----

    /** `a` is what the allocator answers, NULL when it fails. */
    method OwnerMalloc(t: O.Tid, size: nat, a: Addr) returns (p: Addr)
      requires Valid() && Sane(s) && PcOf(s, t).Idle? && (a != NULL ==> a !in s.blocks)
      modifies this, heads
      ensures Valid() && Sane(s) && p == a
      ensures a == NULL ==> s == old(s)
      ensures a != NULL ==> s == E.MallocCall(old(s), t, a, size) && E.Allocates(old(s), s, t, a, size)
    {
      hide Shows, Sane;
      if a == NULL { return NULL; }
      E.MallocCallEffect(s, t, a, size);
      StepKeepsSane(s, Malloc(t, a, size));
      FillHeader(t, a, size);
      StepKeepsSane(s, Step.Insert(t));
      Insert(t, a);
      return a;
    }

    method OwnerFree(t: O.Tid, p: Addr) returns (r: Outcome)
      requires Valid() && Sane(s) && (p != NULL ==> E.Passable(s, t, p))
      modifies this, heads, quarantine
      ensures Valid() && Sane(s)
      ensures p == NULL ==> r == Done && s == old(s)
      ensures p != NULL ==> r == FreeOutcome(old(s).blocks[p].meta, t) && s == E.FreeCall(old(s), t, p)
      ensures p != NULL && r.Report? ==> E.Stops(old(s), s, t, r.why)
      ensures p != NULL && r.Done? ==> E.Retires(old(s), s, t, p)
    {
      hide Shows, Sane;
      if p == NULL { return Done; }
      E.FreeEffect(s, t, p);
      if E.MayFree(s.blocks[p].meta, t) { E.FreeCallEffect(s, t, p); }
      hide E.Retires;
      StepKeepsSane(s, Step.FreeDecide(t, p));
      r := FreeDecide(t, p);
      if r.Report? { return; }
      FinishFree(t, p);
    }

    method FinishFree(t: O.Tid, p: Addr)
      requires Valid() && Sane(s) && PcOf(s, t) == Freeing(p)
      modifies this, heads, quarantine
      ensures Valid() && Sane(s) && s == Next(Next(old(s), Unlink(t)), Quarantine(t))
    {
      hide Shows;
      StepKeepsSane(s, Unlink(t));
      UnlinkReady(s, Unlink(t), p);
      FreeUnlink(t, p);
      StepKeepsSane(s, Quarantine(t));
      var released := FreeQuarantine(t, p);
    }

    /** NULL is an allocation, size 0 is a free, anything else checks, unlinks, resizes and inserts. */
    method OwnerRealloc(t: O.Tid, p: Addr, size: nat, a': Addr) returns (q: Addr, r: Outcome)
      requires Valid() && Sane(s) && PcOf(s, t).Idle? && (p != NULL ==> E.Passable(s, t, p))
      requires a' != NULL ==> a' !in s.blocks || (p != NULL && size != 0 && a' == p)
      modifies this, heads, quarantine
      ensures Valid() && Sane(s)
      ensures p == NULL ==> q == a' && r == Done
      ensures p == NULL ==> if a' == NULL then s == old(s) else E.Allocates(old(s), s, t, a', size)
      ensures p != NULL && size == 0 ==> q == NULL && r == FreeOutcome(old(s).blocks[p].meta, t)
      ensures p != NULL && size == 0 ==> if r.Report? then E.Stops(old(s), s, t, r.why) else E.Retires(old(s), s, t, p)
      ensures p != NULL && size != 0 ==> r == UseOutcome(old(s).blocks[p].meta, t) && (r.Done? ==> q == a')
      ensures p != NULL && size != 0 ==> if r.Report? then E.Stops(old(s), s, t, r.why) else E.Resizes(old(s), s, t, p, size, a')
    {
      hide Shows, Sane;
      if p == NULL {
        q := OwnerMalloc(t, size, a');
        return q, Done;
      }
      if size == 0 {
        r := OwnerFree(t, p);
        return NULL, r;
      }
      q, r := Resize(t, p, size, a');
    }

    method Resize(t: O.Tid, p: Addr, size: nat, a': Addr) returns (q: Addr, r: Outcome)
      requires Valid() && Sane(s) && E.Passable(s, t, p) && size > 0
      requires a' != NULL ==> a' !in s.blocks || a' == p
      modifies this, heads
      ensures Valid() && Sane(s) && r == UseOutcome(old(s).blocks[p].meta, t)
      ensures s == E.ReallocCall(old(s), t, p, size, a') && (r.Done? ==> q == a')
      ensures if r.Report? then E.Stops(old(s), s, t, r.why) else E.Resizes(old(s), s, t, p, size, a')
    {
      hide Shows, Sane;
      E.ReallocCheckEffect(s, t, p, size);
      if E.MayResize(s.blocks[p].meta, t) { E.ReallocCallEffect(s, t, p, size, a'); }
      hide E.Resizes;
      StepKeepsSane(s, Step.ReallocCheck(t, p, size));
      r := ReallocCheck(t, p, size);
      if r.Report? { return NULL, r; }
      StepKeepsSane(s, Step.ReallocUnlink(t));
      ReallocUnlink(t, p, size);
      q := FinishResize(t, p, size, a');
    }

    method FinishResize(t: O.Tid, p: Addr, size: nat, a': Addr) returns (q: Addr)
      requires Valid() && Sane(s) && PcOf(s, t) == Moving(p, size)
      requires a' != NULL ==> a' !in s.blocks || a' == p
      modifies this, heads
      ensures Valid() && Sane(s) && q == a'
      ensures s == Next(Next(old(s), if a' == NULL then Step.ReallocFails(t) else Step.ReallocMove(t, a')), Step.Insert(t))
    {
      hide Shows;
      if a' == NULL {
        StepKeepsSane(s, Step.ReallocFails(t));
        ReallocFails(t, p, size);
        StepKeepsSane(s, Step.Insert(t));
        Insert(t, p);
        return NULL;
      }
      StepKeepsSane(s, Step.ReallocMove(t, a'));
      ReallocMove(t, p, size, a');
      StepKeepsSane(s, Step.Insert(t));
      Insert(t, a');
      return a';
    }

    // ----- Walks -----

    /** One list of `ownership_stats`. */
    method StatsShard(i: nat) returns (active: nat, freed: nat)
      requires Valid() && i < NUM_SHARDS
      ensures active == R.CountIn(s.shards[i], R.InState(s, {O.Owned, O.Shared, O.Borrowed}))
      ensures freed == R.CountIn(s.shards[i], R.InState(s, {O.Freed}))
    {
      ghost var l, k := s.shards[i], 0;
      assert Dll(mem, heads[..][i], l);
      var curr := heads[i];
      active, freed := 0, 0;
      while curr != NULL
        invariant k <= |l| && curr == NodeAt(l, k)
        invariant active == R.CountIn(l[..k], R.InState(s, {O.Owned, O.Shared, O.Borrowed}))
        invariant freed == R.CountIn(l[..k], R.InState(s, {O.Freed}))
        decreases |l| - k
      {
        assert l[..k + 1][..k] == l[..k] && mem[l[k]].next == NodeAt(l, k + 1);
        if mem[curr].state == O.Owned || mem[curr].state == O.Shared || mem[curr].state == O.Borrowed {
          active := active + 1;
        } else if mem[curr].state == O.Freed {
          freed := freed + 1;
        }
        curr, k := mem[curr].next, k + 1;
      }
      assert l[..k] == l;
    }

    /** One list of `check_leaks`. */
    method LeaksShard(i: nat) returns (leaked: nat)
      requires Valid() && i < NUM_SHARDS
      ensures leaked == R.CountIn(s.shards[i], R.InState(s, {O.Owned, O.Shared}))
    {
      ghost var l, k := s.shards[i], 0;
      assert Dll(mem, heads[..][i], l);
      var curr := heads[i];
      leaked := 0;
      while curr != NULL
        invariant k <= |l| && curr == NodeAt(l, k)
        invariant leaked == R.CountIn(l[..k], R.InState(s, {O.Owned, O.Shared}))
        decreases |l| - k
      {
        assert l[..k + 1][..k] == l[..k] && mem[l[k]].next == NodeAt(l, k + 1);
        if mem[curr].state == O.Owned || mem[curr].state == O.Shared {
          leaked := leaked + 1;
        }
        curr, k := mem[curr].next, k + 1;
      }
      assert l[..k] == l;
    }

    /** What `ownership_stats` prints. */
    method Stats() returns (active: nat, freed: nat)
      requires Valid() && Sane(s)
      ensures active == R.CountAll(s.shards, R.InState(s, {O.Owned, O.Shared, O.Borrowed}))
      ensures freed == R.CountAll(s.shards, R.InState(s, {O.Freed})) + |s.ring|
    {
      active, freed := 0, 0;
      for i := 0 to NUM_SHARDS
        invariant active == R.CountAll(s.shards[..i], R.InState(s, {O.Owned, O.Shared, O.Borrowed}))
        invariant freed == R.CountAll(s.shards[..i], R.InState(s, {O.Freed}))
      {
        assert s.shards[..i + 1][..i] == s.shards[..i];
        var a, f := StatsShard(i);
        active, freed := active + a, freed + f;
      }
      assert s.shards[..NUM_SHARDS] == s.shards;
      RingNonNull(s);
      var held := CountSlots();
      freed := freed + held;
    }

    method CountSlots() returns (held: nat)
      requires quarantine.Length == QUARANTINE_SIZE && RingShows(quarantine[..], tail, s.ring)
      requires forall i :: 0 <= i < |s.ring| ==> s.ring[i] != NULL
      ensures held == |s.ring|
    {
      held := 0;
      for i := 0 to QUARANTINE_SIZE
        invariant held == if i <= |s.ring| then i else |s.ring|
      {
        assert quarantine[i] == quarantine[..][i];
        if quarantine[i] != NULL { held := held + 1; }
      }
    }

    /** What `check_leaks` counts. */
    method CheckLeaks() returns (leaked: nat)
      requires Valid()
      ensures leaked == R.CountAll(s.shards, R.InState(s, {O.Owned, O.Shared}))
    {
      leaked := 0;
      for i := 0 to NUM_SHARDS
        invariant leaked == R.CountAll(s.shards[..i], R.InState(s, {O.Owned, O.Shared}))
      {
        assert s.shards[..i + 1][..i] == s.shards[..i];
        var n := LeaksShard(i);
        leaked := leaked + n;
      }
      assert s.shards[..NUM_SHARDS] == s.shards;
    }
  }

  lemma RingNonNull(s: State)
    requires MetaInv(s.blocks) && RingInv(s.blocks, s.ring)
    ensures forall i :: 0 <= i < |s.ring| ==> s.ring[i] != NULL
  {
    RingMembers(s.blocks, s.ring);
    forall i | 0 <= i < |s.ring| ensures s.ring[i] != NULL {
      var a := s.ring[i];
      assert a in s.blocks;
    }
  }

  /** A block in no list may leave memory. */
  lemma ListsLess(mem: Mem, heads: seq<Addr>, shards: seq<seq<Addr>>, a: Addr)
    requires Lists(mem, heads, shards) && Sorted(shards) && a !in Elems(shards[Shard(a)])
    ensures Lists(mem - {a}, heads, shards)
  {
    forall j | 0 <= j < NUM_SHARDS ensures Dll(mem - {a}, heads[j], shards[j]) {
      DllFrame(mem, mem - {a}, heads[j], shards[j]);
    }
  }

  lemma ListsMoved(mem: Mem, heads: seq<Addr>, shards: seq<seq<Addr>>, a: Addr, a': Addr, c: Cell)
    requires Lists(mem, heads, shards) && Sorted(shards)
    requires a !in Elems(shards[Shard(a)]) && a' !in Elems(shards[Shard(a')])
    ensures Lists((mem - {a})[a' := c], heads, shards)
  {
    forall j | 0 <= j < NUM_SHARDS ensures Dll((mem - {a})[a' := c], heads[j], shards[j]) {
      DllFrame(mem, (mem - {a})[a' := c], heads[j], shards[j]);
    }
  }

  lemma HeadShard(shards: seq<seq<Addr>>, i: nat)
    requires Sorted(shards) && i < |shards|
    ensures NodeAt(shards[i], 0) != NULL ==> Shard(NodeAt(shards[i], 0)) == i && NodeAt(shards[i], 0) in Elems(shards[i])
  {
  }

  lemma NeighbourShards(shards: seq<seq<Addr>>, i: nat, k: nat)
    requires Sorted(shards) && i < |shards| && k < |shards[i]|
    ensures k > 0 ==> Shard(shards[i][k - 1]) == i && shards[i][k - 1] != shards[i][k]
    ensures k + 1 < |shards[i]| ==> Shard(shards[i][k + 1]) == i && shards[i][k + 1] != shards[i][k]
    ensures 0 < k && k + 1 < |shards[i]| ==> shards[i][k - 1] != shards[i][k + 1]
  {
    var l := shards[i];
    if k > 0 {
      ElemsHas(l, k - 1);
      DistinctIndex(l, k - 1, k);
    }
    if k + 1 < |l| {
      ElemsHas(l, k + 1);
      DistinctIndex(l, k, k + 1);
      if k > 0 { DistinctIndex(l, k - 1, k + 1); }
    }
  }
}
