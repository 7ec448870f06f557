/** The collector as the runtime runs it: wrappers linked through `gcNext`, updated in place. */
module RcRuntime {
  import opened Addresses
  import opened Seqs
  import opened OwnerHeap
  import M = RcModel

  datatype Rc = Rc(ptr: Addr, refCount: nat, children: seq<Addr>, gcRef: nat, gcMarked: bool, gcNext: Addr)

  type Mem = map<Addr, Rc>

  /** The blocks released with an object: its payload, if any, then its wrapper. */
  function FreesOf(ptr: Addr, wrapper: Addr): seq<Addr> {
    if ptr != NULL then [ptr, wrapper] else [wrapper]
  }

  /** The null-terminated chain of `gcNext` fields from `head` visits `l` in order. */
  ghost predicate Chain(mem: Mem, head: Addr, l: seq<Addr>)
    decreases l
  {
    if l == [] then head == NULL
    else head == l[0] && head != NULL && head in mem && Chain(mem, mem[head].gcNext, l[1..])
  }

  lemma {:induction false} ChainFrame(mem: Mem, mem': Mem, head: Addr, l: seq<Addr>)
    requires Chain(mem, head, l)
    requires forall a :: a in Elems(l) && a in mem ==> a in mem' && mem'[a].gcNext == mem[a].gcNext
    ensures Chain(mem', head, l)
    decreases l
  {
    if l != [] {
      assert head in Elems(l);
      ChainFrame(mem, mem', mem[head].gcNext, l[1..]);
    }
  }

  /** Pointing the node before the k-th past it takes the k-th out of the chain. */
  lemma {:induction false} ChainUnlink(mem: Mem, head: Addr, l: seq<Addr>, k: nat)
    requires Chain(mem, head, l) && Distinct(l) && 0 < k < |l|
    requires l[k - 1] in mem && l[k] in mem
    ensures Chain(mem[l[k - 1] := mem[l[k - 1]].(gcNext := mem[l[k]].gcNext)], head, Minus(l, {l[k]}))
    decreases l
  {
    var prev, rc, t := l[k - 1], l[k], l[1..];
    var mem' := mem[prev := mem[prev].(gcNext := mem[rc].gcNext)];
    DistinctIndex(l, k - 1, k);
    if k == 1 {
      assert t[0] == rc;
      MinusNone(t[1..], {rc});
      ElemsHas(t, 0);
      ChainFrame(mem, mem', mem[rc].gcNext, t[1..]);
      assert Minus(l, {rc}) == [prev] + t[1..];
    } else {
      ChainUnlink(mem, mem[head].gcNext, t, k - 1);
      DistinctIndex(l, 0, k - 1);
      DistinctIndex(l, 0, k);
      assert Minus(l, {rc})[1..] == Minus(t, {rc});
    }
  }

  function First(l: seq<Addr>): Addr {
    if l == [] then NULL else l[0]
  }

  lemma {:induction false} ChainSuffix(mem: Mem, head: Addr, a: seq<Addr>, b: seq<Addr>)
    requires Chain(mem, head, a + b)
    ensures Chain(mem, First(b), b)
    decreases a
  {
    if a == [] {
      assert a + b == b;
    } else {
      assert (a + b)[1..] == a[1..] + b;
      ChainSuffix(mem, mem[head].gcNext, a[1..], b);
    }
  }

  lemma SplitAt(l: seq<Addr>, k: nat, out: set<Addr>)
    requires k < |l|
    ensures Minus(l[..k + 1], out) == Minus(l[..k], out) + if l[k] in out then [] else [l[k]]
    ensures Elems(l[..k + 1]) == Elems(l[..k]) + {l[k]}
  {
    assert l[..k + 1] == l[..k] + [l[k]];
    MinusAppend(l[..k], [l[k]], out);
    ElemsAppend(l[..k], [l[k]]);
  }

  /** Unlinking the first node of the part not yet visited. */
  lemma CutAt(a: seq<Addr>, l: seq<Addr>, k: nat)
    requires k < |l| && Distinct(a + l[k..])
    ensures Minus(a + l[k..], {l[k]}) == a + l[k + 1..]
    ensures a + l[k..] == a + [l[k]] + l[k + 1..]
  {
    var b := a + l[k..];
    assert b[|a|] == l[k];
    MinusAt(b, |a|);
  }

  lemma {:induction false} FreesSame(l: seq<Addr>, m: Mem, m': Mem)
    requires Scratch(m, m')
    ensures Frees(l, m) == Frees(l, m')
  {
    if l != [] { FreesSame(l[1..], m, m'); }
  }

  /** The blocks released with the objects of `l`, in order. */
  ghost function Frees(l: seq<Addr>, mem: Mem): seq<Addr> {
    if l == [] then [] else (if l[0] in mem then FreesOf(mem[l[0]].ptr, l[0]) else []) + Frees(l[1..], mem)
  }

  lemma {:induction false} FreesAppend(a: seq<Addr>, x: Addr, mem: Mem)
    requires x in mem
    ensures Frees(a + [x], mem) == Frees(a, mem) + FreesOf(mem[x].ptr, x)
  {
    if a == [] {
      assert a + [x] == [x];
    } else {
      assert (a + [x])[1..] == a[1..] + [x];
      FreesAppend(a[1..], x, mem);
    }
  }

  /** Memory holds exactly the registered objects, with the counts and children of the state. */
  ghost predicate Fields(mem: Mem, s: M.State) {
    && NULL !in mem && mem.Keys == s.obj.Keys
    && forall a :: a in mem && a in s.obj ==> s.obj[a] == M.Node(mem[a].refCount, mem[a].children)
  }

  /** Wrappers and payloads are live blocks; `owner` names the one object a payload belongs to. */
  ghost predicate Blocks(mem: Mem, owner: map<Addr, Addr>, live: set<Addr>) {
    && (forall a :: a in mem ==> a in live)
    && forall a :: a in mem && mem[a].ptr != NULL ==>
         mem[a].ptr in live && mem[a].ptr !in mem && mem[a].ptr in owner && owner[mem[a].ptr] == a
  }

  /** Memory, the list head and the registry agree with the abstract state. */
  ghost predicate Good(mem: Mem, head: Addr, s: M.State, owner: map<Addr, Addr>, live: set<Addr>) {
    M.WellFormed(s) && Chain(mem, head, s.list) && Fields(mem, s) && Blocks(mem, owner, live)
  }

  /** A field of one object changed, its link and its payload did not. */
  lemma UpdateGood(mem: Mem, head: Addr, s: M.State, owner: map<Addr, Addr>, live: set<Addr>, a: Addr, rc: Rc)
    requires Good(mem, head, s, owner, live) && a in mem
    requires rc.gcNext == mem[a].gcNext && rc.ptr == mem[a].ptr
    ensures Good(mem[a := rc], head, s.(obj := s.obj[a := M.Node(rc.refCount, rc.children)]), owner, live)
  {
    ChainFrame(mem, mem[a := rc], head, s.list);
    assert s.obj[a := M.Node(rc.refCount, rc.children)].Keys == s.obj.Keys;
  }

  /** A new object `a` was filled in and put before the chain. */
  lemma NewGood(mem: Mem, head: Addr, s: M.State, owner: map<Addr, Addr>, live: set<Addr>, a: Addr, p: Addr, mem': Mem)
    requires Good(mem, head, s, owner, live) && a !in live && a != NULL
    requires p != NULL ==> p in live && p !in mem && forall x :: x in mem ==> mem[x].ptr != p
    requires a in mem' && mem' == mem[a := mem'[a]] && mem'[a] == Rc(p, 1, [], 0, false, mem'[a].gcNext)
    requires Chain(mem', a, [a] + s.list)
    ensures Good(mem', a, M.New(s, a), if p == NULL then owner else owner[p := a], live + {a})
  {
    M.NewWellFormed(s, a);
  }

  /** The object `a` was unlinked (`m`, `head'`), then its record and its blocks went. */
  lemma DropGood(mem: Mem, s: M.State, owner: map<Addr, Addr>, live: set<Addr>, a: Addr, m: Mem, head': Addr)
    requires M.WellFormed(s) && Fields(mem, s) && Blocks(mem, owner, live) && a in mem
    requires Chain(m, head', Minus(s.list, {a})) && m.Keys == mem.Keys
    requires forall x :: x in m ==> m[x] == mem[x].(gcNext := m[x].gcNext)
    ensures Good(m - {a}, head', M.Discard(s, {a}), owner,
                 live - (if mem[a].ptr != NULL then {mem[a].ptr} else {}) - {a})
  {
    M.DiscardWellFormed(s, {a});
    ChainFrame(m, m - {a}, head', Minus(s.list, {a}));
  }

  /** Only the collector's scratch fields differ. */
  ghost predicate Scratch(m: Mem, m': Mem) {
    && m'.Keys == m.Keys
    && forall a :: a in m && a in m' ==> m'[a] == m[a].(gcRef := m'[a].gcRef, gcMarked := m'[a].gcMarked)
  }

  lemma ScratchGood(m: Mem, m': Mem, head: Addr, s: M.State, owner: map<Addr, Addr>, live: set<Addr>)
    requires Good(m, head, s, owner, live) && Scratch(m, m')
    ensures Good(m', head, s, owner, live)
  {
    ChainFrame(m, m', head, s.list);
  }

  /** Marks were added within `alive`, and nothing else changed. */
  ghost predicate Marks(m: Mem, m': Mem, alive: set<Addr>) {
    && m'.Keys == m.Keys
    && forall a :: a in m && a in m' ==>
         && m'[a] == m[a].(gcMarked := m'[a].gcMarked)
         && (m[a].gcMarked ==> m'[a].gcMarked)
         && (a !in alive ==> m'[a] == m[a])
  }

  /** `alive` is closed under children. */
  ghost predicate ClosedIn(m: Mem, alive: set<Addr>) {
    alive <= m.Keys && forall p, c :: p in alive && p in m && c in m[p].children ==> c in alive
  }

  /** The children of a marked object are marked, unless its marking is still going on. */
  ghost predicate Settled(m: Mem, alive: set<Addr>, stack: set<Addr>) {
    forall p, c :: p in alive && p in m && m[p].gcMarked && p !in stack && c in m[p].children ==>
      c in m && m[c].gcMarked
  }

  /** Subtraction that stops at zero. */
  function Monus(a: nat, b: nat): nat {
    if a > b then a - b else 0
  }

  /** The objects of `list` start with their reference count and without a mark. */
  ghost predicate Reset(m: Mem, list: seq<Addr>) {
    forall a :: a in Elems(list) && a in m ==> m[a].gcRef == m[a].refCount && !m[a].gcMarked
  }

  lemma ResetOne(m: Mem, list: seq<Addr>, a: Addr)
    requires Reset(m, list) && a in m
    ensures Reset(m[a := m[a].(gcRef := m[a].refCount, gcMarked := false)], list + [a])
  {
    ElemsAppend(list, [a]);
  }

  /** The roots in `list` are marked. */
  ghost predicate MarkedIn(m: Mem, roots: set<Addr>, list: seq<Addr>) {
    forall a :: a in Elems(list) && a in roots ==> a in m && m[a].gcMarked
  }

  lemma MarkedOne(m: Mem, m': Mem, alive: set<Addr>, roots: set<Addr>, list: seq<Addr>, a: Addr)
    requires MarkedIn(m, roots, list) && Marks(m, m', alive)
    requires a in roots ==> a in m' && m'[a].gcMarked
    ensures MarkedIn(m', roots, list + [a])
  {
    ElemsAppend(list, [a]);
  }

  lemma MarkedNone(m: Mem, roots: set<Addr>)
    ensures MarkedIn(m, roots, [])
  {
  }

  lemma MarkedAll(m: Mem, roots: set<Addr>, list: seq<Addr>)
    requires MarkedIn(m, roots, list)
    ensures forall r :: r in roots && r in Elems(list) ==> r in m && m[r].gcMarked
  {
  }

  lemma SettledStart(m: Mem, alive: set<Addr>)
    requires forall a :: a in m ==> !m[a].gcMarked
    ensures Settled(m, alive, {})
  {
  }

  lemma StaysClosed(m: Mem, m': Mem, alive: set<Addr>)
    requires ClosedIn(m, alive) && Marks(m, m', alive)
    ensures ClosedIn(m', alive)
  {
  }

  lemma MarksNone(m: Mem, alive: set<Addr>)
    ensures Marks(m, m, alive)
  {
  }

  lemma MarksAt(m: Mem, m': Mem, alive: set<Addr>, a: Addr)
    requires Marks(m, m', alive) && a in m
    ensures a in m' && m'[a].gcRef == m[a].gcRef && m'[a].gcNext == m[a].gcNext
  {
  }

  lemma MarksTrans(m: Mem, m': Mem, m'': Mem, alive: set<Addr>)
    requires Marks(m, m', alive) && Marks(m', m'', alive)
    ensures Marks(m, m'', alive)
  {
  }

  /** Every scratch count went down by the slots among `kids` that hold the object, and nothing else changed. */
  ghost predicate Taken(m: Mem, m': Mem, kids: seq<Addr>) {
    && Scratch(m, m')
    && forall a :: a in m && a in m' ==> m'[a].gcRef == Monus(m[a].gcRef, multiset(kids)[a]) && m'[a].gcMarked == m[a].gcMarked
  }

  lemma TakenNone(m: Mem)
    ensures Taken(m, m, [])
  {
  }

  lemma TakenOne(m: Mem, m': Mem, kids: seq<Addr>, c: Addr)
    requires Taken(m, m', kids) && c in m && c in m'
    ensures Taken(m, m'[c := m'[c].(gcRef := Monus(m'[c].gcRef, 1))], kids + [c])
  {
    assert multiset(kids + [c]) == multiset(kids)[c := multiset(kids)[c] + 1];
  }

  /** Every scratch count is what the child slots of `list` leave of the reference count. */
  ghost predicate Left(m: Mem, list: seq<Addr>, g: M.Graph) {
    forall a :: a in m ==> m[a].gcRef == Monus(m[a].refCount, M.InDegree(list, g, a)) && !m[a].gcMarked
  }

  lemma LeftNone(m: Mem, g: M.Graph)
    requires forall a :: a in m ==> m[a].gcRef == m[a].refCount && !m[a].gcMarked
    ensures Left(m, [], g)
  {
  }

  lemma LeftOne(m: Mem, m': Mem, list: seq<Addr>, p: Addr, g: M.Graph)
    requires Left(m, list, g) && p in g && Taken(m, m', g[p].kids)
    ensures Left(m', list + [p], g)
  {
    forall a | a in m' ensures M.InDegree(list + [p], g, a) == M.InDegree(list, g, a) + multiset(g[p].kids)[a] {
      M.InDegreeAppend(list, p, g, a);
    }
  }

  lemma LeftIs(m: Mem, list: seq<Addr>, g: M.Graph)
    requires Left(m, list, g)
    ensures forall a :: a in m ==> m[a].gcRef == Monus(m[a].refCount, M.InDegree(list, g, a)) && !m[a].gcMarked
  {
  }

  lemma ScratchTrans(m: Mem, m': Mem, m'': Mem)
    requires Scratch(m, m') && Scratch(m', m'')
    ensures Scratch(m, m'')
  {
  }

  lemma CountIs(mem: Mem, head: Addr, s: M.State, owner: map<Addr, Addr>, live: set<Addr>, a: Addr)
    requires Good(mem, head, s, owner, live) && a in mem
    ensures a in s.obj && s.obj[a] == M.Node(mem[a].refCount, mem[a].children)
  {
  }

  lemma KidsAreThere(mem: Mem, head: Addr, s: M.State, owner: map<Addr, Addr>, live: set<Addr>)
    requires Good(mem, head, s, owner, live) && M.Closed(s)
    ensures Chain(mem, head, s.list) && mem.Keys == s.obj.Keys
    ensures forall p :: p in mem ==> s.obj[p].kids == mem[p].children && forall c :: c in mem[p].children ==> c in mem
  {
  }

  class Runtime {
    const heap: Heap
    var gcHead: Addr
    var mem: Mem
    ghost var s: M.State
    ghost var owner: map<Addr, Addr>

    constructor (heap: Heap)
      ensures Valid() && s == M.State([], map[]) && this.heap == heap
    {
      this.heap, gcHead, mem, s, owner := heap, NULL, map[], M.State([], map[]), map[];
    }

    ghost predicate Valid()
      reads this, heap
    {
      Good(mem, gcHead, s, owner, heap.live)
    }

    /** Walks to `rc` and unlinks it; an object that is not listed changes nothing. */
    method UnregisterFromGc(rc: Addr)
      requires Distinct(s.list) && Chain(mem, gcHead, s.list)
      modifies this`gcHead, this`mem
      ensures Chain(mem, gcHead, Minus(s.list, {rc})) && mem.Keys == old(mem.Keys)
      ensures forall a :: a in mem ==> mem[a] == old(mem[a]).(gcNext := mem[a].gcNext)
    {
      ghost var l, k := s.list, 0;
      var prev, curr := NULL, gcHead;
      while curr != NULL && curr != rc
        invariant k <= |l| && Chain(mem, curr, l[k..])
        invariant if k == 0 then prev == NULL && curr == gcHead else prev == l[k - 1] && prev != NULL && prev in mem
        invariant rc !in Elems(l[..k]) && mem == old(mem) && gcHead == old(gcHead)
        decreases |l| - k
      {
        ElemsAppend(l[..k], [curr]);
        assert l[..k + 1] == l[..k] + [curr];
        prev, curr, k := curr, mem[curr].gcNext, k + 1;
      }
      if curr == NULL {
        assert l[..k] == l;
        MinusNone(l, {rc});
        return;
      }
      assert k < |l| && l[k..][0] == rc;
      if prev == NULL {
        gcHead := mem[rc].gcNext;
        MinusNone(l[1..], {rc});
      } else {
        ChainUnlink(mem, gcHead, l, k);
        mem := mem[prev := mem[prev].(gcNext := mem[rc].gcNext)];
      }
    }

    /** The object becomes the first of whatever chain there was. */
    method RegisterInGc(rc: Addr, ghost l: seq<Addr>)
      requires rc in mem && rc != NULL && Chain(mem, gcHead, l) && rc !in Elems(l)
      modifies this`gcHead, this`mem
      ensures Chain(mem, gcHead, [rc] + l)
      ensures gcHead == rc && rc in mem && mem == old(mem)[rc := old(mem)[rc].(gcNext := mem[rc].gcNext)]
    {
      ghost var m0, head := mem, gcHead;
      mem := mem[rc := mem[rc].(gcNext := gcHead)];
      gcHead := rc;
      ChainFrame(m0, mem, head, l);
      assert ([rc] + l)[1..] == l;
    }

    /** Wraps `p`; a failing allocator costs the caller the payload. */
    method New(p: Addr, ok: bool) returns (rc: Addr)
      requires Valid()
      requires p != NULL ==> p in heap.live && p !in mem && forall a :: a in mem ==> mem[a].ptr != p
      modifies this, heap
      ensures Valid()
      ensures ok ==> rc !in old(mem) && s == M.New(old(s), rc) && mem == old(mem)[rc := mem[rc]] && mem[rc].ptr == p
      ensures ok ==> mem[rc].refCount == 1 && mem[rc].children == [] && s.list == [rc] + old(s).list
      ensures ok ==> heap.live == old(heap.live) + {rc} && heap.freed == old(heap.freed)
      ensures !ok ==> rc == NULL && s == old(s) && mem == old(mem)
      ensures !ok ==> heap.live == old(heap.live) - if p != NULL then {p} else {}
      ensures !ok ==> heap.freed == old(heap.freed) + if p != NULL then [p] else []
    {
      rc := heap.Malloc(ok);
      if rc == NULL {
        if p != NULL { heap.Free(p); }
        return;
      }
      assert rc !in mem && rc !in Elems(s.list) && Chain(mem, gcHead, s.list);
      hide Good, M.New;
      mem := mem[rc := Rc(p, 1, [], 0, false, NULL)];
      ChainFrame(old(mem), mem, gcHead, s.list);
      RegisterInGc(rc, s.list);
      assert mem == old(mem)[rc := mem[rc]];
      NewGood(old(mem), old(gcHead), s, owner, old(heap.live), rc, p, mem);
      s := M.New(s, rc);
      if p != NULL { owner := owner[p := rc]; }
    }

    method Clone(rc: Addr) returns (r: Addr)
      requires Valid() && (rc != NULL ==> rc in mem)
      modifies this`mem, this`s
      ensures Valid() && r == rc
      ensures s == if rc == NULL then old(s) else M.Clone(old(s), rc)
      ensures rc == NULL ==> mem == old(mem)
      ensures rc != NULL ==> mem == old(mem)[rc := old(mem)[rc].(refCount := old(mem)[rc].refCount + 1)]
    {
      if rc == NULL { return NULL; }
      ghost var rc' := mem[rc].(refCount := mem[rc].refCount + 1);
      UpdateGood(mem, gcHead, s, owner, heap.live, rc, rc');
      mem := mem[rc := mem[rc].(refCount := mem[rc].refCount + 1)];
      s := M.Clone(s, rc);
      return rc;
    }

    /** One reference less. */
    method Decrement(rc: Addr)
      requires Valid() && rc in mem && mem[rc].refCount > 0
      modifies this`mem, this`s
      ensures Valid() && rc in mem && mem == old(mem)[rc := old(mem)[rc].(refCount := mem[rc].refCount)]
      ensures mem[rc].refCount == old(mem)[rc].refCount - 1 && s == M.SetCount(old(s), rc, mem[rc].refCount)
    {
      CountIs(mem, gcHead, s, owner, heap.live, rc);
      hide Good;
      UpdateGood(mem, gcHead, s, owner, heap.live, rc, mem[rc].(refCount := mem[rc].refCount - 1));
      mem := mem[rc := mem[rc].(refCount := mem[rc].refCount - 1)];
      s := M.SetCount(s, rc, mem[rc].refCount);
    }

    method Drop(rc: Addr)
      requires Valid() && (rc != NULL ==> rc in mem)
      modifies this`gcHead, this`mem, this`s, heap
      ensures Valid()
      ensures s == if rc == NULL then old(s) else M.Drop(old(s), rc)
      ensures rc != NULL && old(mem)[rc].refCount == 1 ==> mem.Keys == old(mem).Keys - {rc}
      ensures rc != NULL && old(mem)[rc].refCount == 1 ==>
        heap.freed == old(heap.freed) + if old(mem)[rc].ptr != NULL then [old(mem)[rc].ptr, rc] else [rc]
      ensures rc == NULL || old(mem)[rc].refCount != 1 ==> mem.Keys == old(mem).Keys && heap.freed == old(heap.freed)
      ensures rc != NULL && old(mem)[rc].refCount > 1 ==> mem[rc] == old(mem)[rc].(refCount := old(mem)[rc].refCount - 1)
      ensures rc != NULL && old(mem)[rc].refCount == 0 ==> mem == old(mem)
      ensures forall a :: a in mem ==> a in old(mem) && (a != rc ==> mem[a] == old(mem[a]).(gcNext := mem[a].gcNext))
    {
      if rc == NULL { return; }
      CountIs(mem, gcHead, s, owner, heap.live, rc);
      hide Good, M.Discard, M.SetCount;
      if mem[rc].refCount > 0 {
        Decrement(rc);
        if mem[rc].refCount == 0 {
          M.DiscardCount(old(s), rc, 0);
          Release(rc);
        }
      }
    }

    /** Unregisters `rc` and frees its payload and its wrapper. */
    method Release(rc: Addr)
      requires Valid() && rc in mem
      modifies this`gcHead, this`mem, this`s, heap
      ensures Valid() && s == M.Discard(old(s), {rc})
      ensures heap.freed == old(heap.freed) + FreesOf(old(mem[rc].ptr), rc) && mem.Keys == old(mem).Keys - {rc}
      ensures forall a :: a in mem ==> a in old(mem) && mem[a] == old(mem[a]).(gcNext := mem[a].gcNext)
    {
      assert Distinct(s.list) && mem[rc].ptr != rc;
      ghost var m0 := mem;
      UnregisterFromGc(rc);
      hide Fields, M.WellFormed, M.Discard;
      DropGood(m0, s, owner, heap.live, rc, mem, gcHead);
      FreeBlocks(rc);
      s := M.Discard(s, {rc});
    }

    /** Gives the payload and the wrapper back. */
    method FreeBlocks(rc: Addr)
      requires rc in mem && rc in heap.live
      requires mem[rc].ptr != NULL ==> mem[rc].ptr in heap.live && mem[rc].ptr != rc
      modifies this`mem, heap
      ensures mem == old(mem) - {rc}
      ensures heap.live == old(heap.live) - (if old(mem[rc].ptr) != NULL then {old(mem[rc].ptr)} else {}) - {rc}
      ensures heap.freed == old(heap.freed) + FreesOf(old(mem[rc].ptr), rc)
    {
      if mem[rc].ptr != NULL {
        heap.Free(mem[rc].ptr);
        mem := mem[rc := mem[rc].(ptr := NULL)];
      }
      heap.Free(rc);
      mem := mem - {rc};
    }

    method RegisterChild(parent: Addr, child: Addr)
      requires Valid() && (parent != NULL ==> parent in mem)
      modifies this`mem, this`s
      ensures Valid()
      ensures s == if parent == NULL || child == NULL then old(s) else M.RegisterChild(old(s), parent, child)
      ensures mem == if parent == NULL || child == NULL || |old(mem)[parent].children| >= 4 then old(mem)
                     else old(mem)[parent := old(mem)[parent].(children := old(mem)[parent].children + [child])]
    {
      if parent != NULL && child != NULL && |mem[parent].children| < M.MAX_RC_CHILDREN {
        ghost var rc' := mem[parent].(children := mem[parent].children + [child]);
        UpdateGood(mem, gcHead, s, owner, heap.live, parent, rc');
        mem := mem[parent := mem[parent].(children := mem[parent].children + [child])];
        s := M.RegisterChild(s, parent, child);
      }
    }

    // ----- Collection -----

    /** Phase 1: every `gcRef` starts as the reference count, every mark is off. */
    method CopyCounts()
      requires Valid()
      modifies this`mem
      ensures Scratch(old(mem), mem)
      ensures forall a :: a in mem ==> mem[a].gcRef == mem[a].refCount && !mem[a].gcMarked
    {
      ghost var l, k := s.list, 0;
      var curr := gcHead;
      while curr != NULL
        invariant k <= |l| && Chain(old(mem), curr, l[k..]) && Scratch(old(mem), mem)
        invariant Reset(mem, l[..k])
        decreases |l| - k
      {
        ResetOne(mem, l[..k], curr);
        assert l[..k + 1] == l[..k] + [curr];
        mem := mem[curr := mem[curr].(gcRef := mem[curr].refCount, gcMarked := false)];
        curr, k := mem[curr].gcNext, k + 1;
      }
      assert l[..k] == l;
    }

    /** The inner loop of phase 2: every child slot of `curr` takes one, down to zero. */
    method TakeFromChildren(curr: Addr)
      requires curr in mem && forall c :: c in mem[curr].children ==> c in mem
      modifies this`mem
      ensures Taken(old(mem), mem, old(mem[curr]).children)
    {
      var kids, i := mem[curr].children, 0;
      TakenNone(mem);
      hide Taken;
      assert kids[..0] == [];
      while i < |kids|
        invariant i <= |kids| && mem.Keys == old(mem).Keys && Taken(old(mem), mem, kids[..i])
      {
        var c := kids[i];
        assert kids[..i + 1] == kids[..i] + [c];
        TakenOne(old(mem), mem, kids[..i], c);
        assert mem == mem[c := mem[c]];
        if mem[c].gcRef > 0 {
          mem := mem[c := mem[c].(gcRef := mem[c].gcRef - 1)];
        }
        i := i + 1;
      }
      assert kids[..i] == kids;
    }

    /** Phase 2: `gcRef` becomes the number of references that child slots do not account for. */
    method SubtractChildren()
      requires Valid() && M.Closed(s)
      requires forall a :: a in mem ==> mem[a].gcRef == mem[a].refCount && !mem[a].gcMarked
      modifies this`mem
      ensures Scratch(old(mem), mem)
      ensures forall a :: a in mem ==>
        mem[a].gcRef == Monus(mem[a].refCount, M.InDegree(s.list, s.obj, a)) && !mem[a].gcMarked
    {
      ghost var l, k := s.list, 0;
      var curr := gcHead;
      KidsAreThere(mem, gcHead, s, owner, heap.live);
      LeftNone(mem, s.obj);
      hide Left, Good;
      assert l[..0] == [];
      while curr != NULL
        invariant k <= |l| && Chain(old(mem), curr, l[k..]) && Scratch(old(mem), mem)
        invariant Left(mem, l[..k], s.obj)
        decreases |l| - k
      {
        ghost var m := mem;
        assert l[..k + 1] == l[..k] + [curr];
        TakeFromChildren(curr);
        LeftOne(m, mem, l[..k], curr, s.obj);
        ScratchTrans(old(mem), m, mem);
        curr, k := mem[curr].gcNext, k + 1;
      }
      assert l[..k] == l;
      LeftIs(mem, s.list, s.obj);
    }

    /** Marks everything reachable from `rc`; the nodes in `stack` are being marked by callers. */
    method MarkAlive(rc: Addr, ghost alive: set<Addr>, ghost stack: set<Addr>)
      requires ClosedIn(mem, alive) && rc in alive && stack <= alive
      requires Settled(mem, alive, stack) && forall a :: a in stack ==> a in mem && mem[a].gcMarked
      modifies this`mem
      ensures Marks(old(mem), mem, alive) && mem[rc].gcMarked && Settled(mem, alive, stack)
      decreases alive - stack
    {
      if mem[rc].gcMarked { return; }
      mem := mem[rc := mem[rc].(gcMarked := true)];
      var kids, i := mem[rc].children, 0;
      while i < |kids|
        invariant i <= |kids| && Marks(old(mem), mem, alive) && mem[rc].gcMarked
        invariant Settled(mem, alive, stack + {rc})
        invariant forall j :: 0 <= j < i ==> kids[j] in mem && mem[kids[j]].gcMarked
      {
        var c := kids[i];
        assert c in kids;
        ghost var before := mem;
        MarkAlive(c, alive, stack + {rc});
        forall j | 0 <= j <= i ensures kids[j] in mem && mem[kids[j]].gcMarked {
          var d := kids[j];
          assert j < i ==> d in before && before[d].gcMarked;
        }
        i := i + 1;
      }
    }

    /** The loop of phase 3: marks from every object that has a reference left. */
    method MarkFrom(ghost roots: set<Addr>, ghost alive: set<Addr>)
      requires Distinct(s.list) && Chain(mem, gcHead, s.list) && mem.Keys == Elems(s.list)
      requires ClosedIn(mem, alive) && roots <= alive
      requires forall a :: a in mem ==> (mem[a].gcRef > 0 <==> a in roots) && !mem[a].gcMarked
      modifies this`mem
      ensures Marks(old(mem), mem, alive) && Settled(mem, alive, {})
      ensures forall r :: r in roots ==> r in mem && mem[r].gcMarked
    {
      ghost var l, k := s.list, 0;
      var curr := gcHead;
      MarksNone(mem, alive);
      assert roots <= Elems(l);
      hide Marks, MarkedIn, ClosedIn, Settled;
      SettledStart(mem, alive);
      MarkedNone(mem, roots);
      assert l[..0] == [];
      while curr != NULL
        invariant k <= |l| && Chain(old(mem), curr, l[k..])
        invariant Marks(old(mem), mem, alive) && Settled(mem, alive, {}) && ClosedIn(mem, alive)
        invariant MarkedIn(mem, roots, l[..k])
        decreases |l| - k
      {
        ghost var m := mem;
        assert l[..k + 1] == l[..k] + [curr];
        MarksAt(old(mem), mem, alive, curr);
        MarksNone(mem, alive);
        if mem[curr].gcRef > 0 {
          MarkAlive(curr, alive, {});
          MarksTrans(old(mem), m, mem, alive);
          StaysClosed(m, mem, alive);
        }
        MarksAt(m, mem, alive, curr);
        MarkedOne(m, mem, alive, roots, l[..k], curr);
        curr, k := mem[curr].gcNext, k + 1;
      }
      assert l[..k] == l;
      MarkedAll(mem, roots, l);
    }

    /** Phase 3: the marked objects are the ones reachable from a root. */
    method MarkRoots()
      requires Valid() && M.Closed(s)
      requires forall a :: a in mem ==>
        mem[a].gcRef == Monus(mem[a].refCount, M.InDegree(s.list, s.obj, a)) && !mem[a].gcMarked
      modifies this`mem
      ensures Scratch(old(mem), mem)
      ensures forall a :: a in mem ==> (mem[a].gcMarked <==> M.Alive(s, a))
    {
      AliveClosed(mem, s);
      MarkFrom(M.Roots(s), AliveSet(s));
      AllMarked(mem, s);
    }

    /** One dead object: its count is forced to one and dropped. */
    method SweepOne(curr: Addr)
      requires Valid() && curr in mem
      modifies this`gcHead, this`mem, this`s, heap
      ensures Valid() && s == M.Discard(old(s), {curr})
      ensures heap.freed == old(heap.freed) + FreesOf(old(mem[curr].ptr), curr)
      ensures mem.Keys == old(mem.Keys) - {curr}
      ensures forall a :: a in mem ==> mem[a] == old(mem[a]).(gcNext := mem[a].gcNext)
    {
      UpdateGood(mem, gcHead, s, owner, heap.live, curr, mem[curr].(refCount := 1));
      M.DiscardCount(s, curr, 1);
      mem := mem[curr := mem[curr].(refCount := 1)];
      s := M.SetCount(s, curr, 1);
      Drop(curr);
    }

    /** One round of the sweep: `next` is read before its node may be unlinked and freed. */
    method SweepNode(curr: Addr, n: nat, ghost l: seq<Addr>, ghost k: nat, ghost dead: set<Addr>, ghost m0: Mem,
                     ghost freed0: seq<Addr>)
      returns (nextNode: Addr, n': nat)
      requires Valid() && k < |l| && Chain(mem, curr, l[k..]) && Swept(l, k, dead, m0, s, mem, n)
      requires MarksTell(m0, dead)
      modifies this`gcHead, this`mem, this`s, heap
      ensures Valid() && Chain(mem, nextNode, l[k + 1..]) && Swept(l, k + 1, dead, m0, s, mem, n')
      ensures old(heap.freed) == freed0 + FreedBy(l, k, dead, m0) ==> heap.freed == freed0 + FreedBy(l, k + 1, dead, m0)
    {
      hide FreedBy;
      FreedStep(l, k, dead, m0);
      assert l[k..][0] == l[k] && l[k..][1..] == l[k + 1..];
      nextNode, n' := mem[curr].gcNext, n;
      if !mem[curr].gcMarked {
        SweepOne(curr);
        SweptDrop(l, k, dead, m0, old(s), old(mem), n, s, mem);
        n' := n' + 1;
      } else {
        SweptKeep(l, k, dead, m0, s, mem, n);
      }
      ChainSuffix(mem, gcHead, Minus(l[..k + 1], dead), l[k + 1..]);
    }

    /** Phase 4: drops every unmarked object while walking the list it unlinks from. */
    method Sweep(ghost dead: set<Addr>) returns (freedCount: nat)
      requires Valid() && MarksTell(mem, dead)
      modifies this`gcHead, this`mem, this`s, heap
      ensures Valid() && Swept(old(s).list, |old(s).list|, dead, old(mem), s, mem, freedCount)
      ensures forall a :: a in mem && a in s.obj ==> s.obj[a] == M.Node(mem[a].refCount, mem[a].children)
      ensures heap.freed == old(heap.freed) + FreedBy(old(s).list, |old(s).list|, dead, old(mem))
    {
      ghost var l, m0, k := s.list, mem, 0;
      var curr := gcHead;
      freedCount := 0;
      SweptStart(l, dead, m0, s);
      while curr != NULL
        invariant Valid() && k <= |l| && Chain(mem, curr, l[k..])
        invariant Swept(l, k, dead, m0, s, mem, freedCount)
        invariant heap.freed == old(heap.freed) + FreedBy(l, k, dead, m0)
        decreases |l| - k
      {
        curr, freedCount := SweepNode(curr, freedCount, l, k, dead, m0, old(heap.freed));
        k := k + 1;
      }
      assert k == |l|;
    }

    /** Collects: frees exactly the objects that no root reaches, and counts them. */
    method CollectCycles() returns (freedCount: nat)
      requires Valid() && M.Closed(s)
      modifies this`gcHead, this`mem, this`s, heap
      ensures Valid() && s == M.Collect(old(s))
      ensures freedCount == |old(s).list| - |s.list|
      ensures heap.freed == old(heap.freed) + Frees(Minus(old(s).list, old(mem).Keys - M.Garbage(old(s))), old(mem))
    {
      hide Good, Scratch, Swept, M.Garbage, MarksTell;
      ghost var s0 := s;
      CopyCounts();
      ghost var m1 := mem;
      ScratchGood(old(mem), m1, gcHead, s, owner, heap.live);
      SubtractChildren();
      ghost var m2 := mem;
      ScratchGood(m1, m2, gcHead, s, owner, heap.live);
      MarkRoots();
      ghost var m := mem;
      ScratchGood(m2, m, gcHead, s, owner, heap.live);
      ScratchTrans(old(mem), m1, m2);
      ScratchTrans(old(mem), m2, m);
      DeadUnmarked(m, gcHead, s, owner, heap.live);
      freedCount := Sweep(M.Garbage(s));
      SweptAll(m, s0, s, mem, freedCount);
      FreedAll(old(mem), m, s0);
    }
  }

  /**
   The first k nodes of the list `l` were visited: the dead ones among them are gone, with their
   records in `m0`, and counted in `n`.
   */
  ghost predicate Swept(l: seq<Addr>, k: nat, dead: set<Addr>, m0: Mem, s: M.State, mem: Mem, n: nat)
    requires k <= |l|
  {
    && s.list == Minus(l[..k], dead) + l[k..]
    && s.obj.Keys == m0.Keys - Elems(l[..k]) * dead
    && mem.Keys == s.obj.Keys
    && n == k - |Minus(l[..k], dead)|
    && (forall a :: a in mem && a in m0 ==> mem[a] == m0[a].(gcNext := mem[a].gcNext))
  }

  /** What the dead ones among the first k nodes give back. */
  ghost function FreedBy(l: seq<Addr>, k: nat, dead: set<Addr>, m0: Mem): seq<Addr>
    requires k <= |l|
  {
    Frees(Minus(l[..k], m0.Keys - dead), m0)
  }

  lemma FreedStep(l: seq<Addr>, k: nat, dead: set<Addr>, m0: Mem)
    requires k < |l| && l[k] in m0
    ensures FreedBy(l, k + 1, dead, m0) == FreedBy(l, k, dead, m0) + if l[k] in dead then FreesOf(m0[l[k]].ptr, l[k]) else []
  {
    var x := l[k];
    SplitAt(l, k, m0.Keys - dead);
    FreesAppend(Minus(l[..k], m0.Keys - dead), x, m0);
    assert x !in dead ==> Minus(l[..k + 1], m0.Keys - dead) == Minus(l[..k], m0.Keys - dead);
  }

  /** An unmarked object is a dead one. */
  ghost predicate MarksTell(m: Mem, dead: set<Addr>) {
    forall a :: a in m ==> (m[a].gcMarked <==> a !in dead)
  }

  lemma SweptStart(l: seq<Addr>, dead: set<Addr>, m0: Mem, s: M.State)
    requires l == s.list && m0.Keys == s.obj.Keys
    ensures l[0..] == l && Swept(l, 0, dead, m0, s, m0, 0) && FreedBy(l, 0, dead, m0) == []
  {
  }

  lemma SweptKeep(l: seq<Addr>, k: nat, dead: set<Addr>, m0: Mem, s: M.State, mem: Mem, n: nat)
    requires k < |l| && Swept(l, k, dead, m0, s, mem, n) && l[k] !in dead
    ensures Swept(l, k + 1, dead, m0, s, mem, n)
  {
    SplitAt(l, k, dead);
    assert Elems(l[..k + 1]) * dead == Elems(l[..k]) * dead;
    assert Minus(l[..k], dead) + l[k..] == Minus(l[..k], dead) + [l[k]] + l[k + 1..];
  }

  lemma SweptDrop(l: seq<Addr>, k: nat, dead: set<Addr>, m0: Mem, s: M.State, mem: Mem, n: nat, s': M.State, mem': Mem)
    requires k < |l| && Swept(l, k, dead, m0, s, mem, n) && l[k] in dead && Distinct(s.list)
    requires s' == M.Discard(s, {l[k]}) && mem'.Keys == s'.obj.Keys
    requires forall a :: a in mem' ==> a in mem && mem'[a] == mem[a].(gcNext := mem'[a].gcNext)
    ensures Swept(l, k + 1, dead, m0, s', mem', n + 1)
  {
    SplitAt(l, k, dead);
    CutAt(Minus(l[..k], dead), l, k);
    assert Elems(l[..k + 1]) * dead == Elems(l[..k]) * dead + {l[k]};
  }

  lemma DeadUnmarked(m: Mem, head: Addr, s: M.State, owner: map<Addr, Addr>, live: set<Addr>)
    requires Good(m, head, s, owner, live) && forall a :: a in m ==> (m[a].gcMarked <==> M.Alive(s, a))
    ensures MarksTell(m, M.Garbage(s)) && M.WellFormed(s) && m.Keys == s.obj.Keys
    ensures forall a :: a in m && a in s.obj ==> s.obj[a] == M.Node(m[a].refCount, m[a].children)
  {
  }

  lemma FreedAll(m0: Mem, m: Mem, s0: M.State)
    requires Scratch(m0, m)
    ensures FreedBy(s0.list, |s0.list|, M.Garbage(s0), m) == Frees(Minus(s0.list, m0.Keys - M.Garbage(s0)), m0)
  {
    assert s0.list[..|s0.list|] == s0.list;
    FreesSame(Minus(s0.list, m0.Keys - M.Garbage(s0)), m0, m);
  }

  lemma SweptAll(m0: Mem, s0: M.State, s: M.State, mem: Mem, n: nat)
    requires M.WellFormed(s0) && m0.Keys == s0.obj.Keys
    requires forall a :: a in m0 && a in s0.obj ==> s0.obj[a] == M.Node(m0[a].refCount, m0[a].children)
    requires forall a :: a in mem && a in s.obj ==> s.obj[a] == M.Node(mem[a].refCount, mem[a].children)
    requires Swept(s0.list, |s0.list|, M.Garbage(s0), m0, s, mem, n)
    ensures s == M.Collect(s0) && n == |s0.list| - |s.list|
  {
    var l, dead := s0.list, M.Garbage(s0);
    assert l[..|l|] == l;
    assert Elems(l) * dead == dead;
    assert s.list == Minus(l, dead);
    assert s.obj == s0.obj - dead;
  }

  ghost function AliveSet(s: M.State): set<Addr> {
    set a | a in s.obj && M.Alive(s, a)
  }

  lemma AliveClosed(m: Mem, s: M.State)
    requires Fields(m, s) && M.Closed(s)
    ensures ClosedIn(m, AliveSet(s)) && M.Roots(s) <= AliveSet(s)
  {
    forall p, c | p in AliveSet(s) && c in s.obj[p].kids ensures c in AliveSet(s) {
      M.ReachStep(s.obj, M.Roots(s), p, c);
    }
    forall r | r in M.Roots(s) ensures r in AliveSet(s) {
      M.ReachRoot(s.obj, M.Roots(s), r);
    }
  }

  /** Settled marks that cover the roots cover everything reachable. */
  lemma AllMarked(m: Mem, s: M.State)
    requires Fields(m, s) && M.Closed(s) && Settled(m, AliveSet(s), {})
    requires forall r :: r in M.Roots(s) ==> r in m && m[r].gcMarked
    ensures forall a :: a in m && M.Alive(s, a) ==> m[a].gcMarked
  {
    var marked := set a | a in AliveSet(s) && m[a].gcMarked;
    AliveClosed(m, s);
    forall a | a in m && M.Alive(s, a) ensures m[a].gcMarked {
      M.ReachWithin(s.obj, M.Roots(s), a, marked);
    }
  }
}
