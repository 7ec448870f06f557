/** The arena and the region as linked blocks in memory, bumped and relinked in place. */
module BumpPools {
  import opened Addresses
  import opened Seqs
  import opened OwnerHeap
  import M = BumpModel

  datatype Block = Block(next: Addr, size: nat, used: nat)

  type Mem = map<Addr, Block>

  /** The null-terminated chain of `next` fields from `head` visits `l` in order. */
  ghost predicate Chain(mem: Mem, head: Addr, l: seq<Addr>)
    decreases l
  {
    if l == [] then head == NULL
    else head == l[0] && head != NULL && head in mem && Chain(mem, mem[head].next, l[1..])
  }

  lemma {:induction false} ChainFrame(mem: Mem, mem': Mem, head: Addr, l: seq<Addr>)
    requires Chain(mem, head, l)
    requires forall a :: a in Elems(l) && a in mem ==> a in mem' && mem'[a].next == mem[a].next
    ensures Chain(mem', head, l)
    decreases l
  {
    if l != [] {
      assert head in Elems(l);
      ChainFrame(mem, mem', mem[head].next, l[1..]);
    }
  }

  /** Hanging a fresh last node onto the last node of a chain. */
  lemma {:induction false} ChainAppend(mem: Mem, head: Addr, l: seq<Addr>, b: Addr, mem': Mem)
    requires Chain(mem, head, l) && Distinct(l) && l != []
    requires b != NULL && b in mem' && mem'[b].next == NULL
    requires forall a :: a in Elems(l) && a in mem ==>
      a in mem' && mem'[a].next == if a == l[|l| - 1] then b else mem[a].next
    ensures Chain(mem', head, l + [b])
    decreases l
  {
    assert (l + [b])[1..] == l[1..] + [b];
    assert head in Elems(l);
    if |l| == 1 {
      assert l[1..] + [b] == [b];
    } else {
      DistinctIndex(l, 0, |l| - 1);
      ChainAppend(mem, mem[head].next, l[1..], b, mem');
    }
  }

  /** The blocks of the list, as the model sees them. */
  ghost predicate Shows(mem: Mem, l: seq<Addr>, blocks: seq<M.Block>) {
    && |blocks| == |l|
    && forall i :: 0 <= i < |l| ==> l[i] in mem && blocks[i] == M.Block(mem[l[i]].size, mem[l[i]].used)
  }

  lemma ShowsUpdate(mem: Mem, l: seq<Addr>, blocks: seq<M.Block>, k: nat, b: Block)
    requires Shows(mem, l, blocks) && Distinct(l) && k < |l|
    ensures Shows(mem[l[k] := b], l, blocks[k := M.Block(b.size, b.used)])
  {
    forall i | 0 <= i < |l| ensures i != k ==> l[i] != l[k] {
      if i < k { DistinctIndex(l, i, k); } else if k < i { DistinctIndex(l, k, i); }
    }
  }

  lemma ShowsFrame(mem: Mem, mem': Mem, l: seq<Addr>, blocks: seq<M.Block>)
    requires Shows(mem, l, blocks)
    requires forall a :: a in mem ==> a in mem' && mem'[a].size == mem[a].size && mem'[a].used == mem[a].used
    ensures Shows(mem', l, blocks)
  {
    forall i | 0 <= i < |l| ensures l[i] in mem' && blocks[i] == M.Block(mem'[l[i]].size, mem'[l[i]].used) {
      var a := l[i];
      assert a in mem;
    }
  }

  /** Memory is exactly the listed blocks; they and the header are live. */
  ghost predicate Good(mem: Mem, head: Addr, l: seq<Addr>, blocks: seq<M.Block>, header: Addr, live: set<Addr>) {
    && Chain(mem, head, l) && Distinct(l) && mem.Keys == Elems(l) && Shows(mem, l, blocks)
    && NULL !in mem && header !in mem && header in live && mem.Keys <= live
  }

  /** Bumping one block in place. */
  lemma BumpGood(mem: Mem, head: Addr, l: seq<Addr>, blocks: seq<M.Block>, header: Addr, live: set<Addr>, k: nat, used: nat)
    requires Good(mem, head, l, blocks, header, live) && k < |l|
    ensures l[k] in mem && k < |blocks|
    ensures Good(mem[l[k] := mem[l[k]].(used := used)], head, l, blocks[k := blocks[k].(used := used)], header, live)
  {
    ElemsHas(l, k);
    var a := l[k];
    ShowsUpdate(mem, l, blocks, k, mem[a].(used := used));
    ChainFrame(mem, mem[a := mem[a].(used := used)], head, l);
  }

  /** Appending a fresh block behind the last one. */
  lemma AppendGood(mem: Mem, head: Addr, l: seq<Addr>, blocks: seq<M.Block>, header: Addr, live: set<Addr>, b: Addr, n: Block)
    requires Good(mem, head, l, blocks, header, live) && l != []
    requires b != NULL && b !in live && n.next == NULL
    ensures l[|l| - 1] in mem
    ensures Good(mem[b := n][l[|l| - 1] := mem[l[|l| - 1]].(next := b)], head, l + [b],
                 blocks + [M.Block(n.size, n.used)], header, live + {b})
  {
    var last := l[|l| - 1];
    ElemsHas(l, |l| - 1);
    var mem' := mem[b := n][last := mem[last].(next := b)];
    ElemsLast(l, b);
    ChainAppend(mem, head, l, b, mem');
    ShowsFrame(mem, mem', l, blocks);
  }

  /** Pushing a fresh block before the first one. */
  lemma PushGood(mem: Mem, head: Addr, l: seq<Addr>, blocks: seq<M.Block>, header: Addr, live: set<Addr>, b: Addr, n: Block)
    requires Good(mem, head, l, blocks, header, live)
    requires b != NULL && b !in live && n.next == head
    ensures Good(mem[b := n], b, [b] + l, [M.Block(n.size, n.used)] + blocks, header, live + {b})
  {
    assert ([b] + l)[1..] == l;
    ChainFrame(mem, mem[b := n], head, l);
    ShowsFrame(mem, mem[b := n], l, blocks);
  }

  class Arena {
    const heap: Heap
    const header: Addr  // the block this record lives in
    const unit: nat
    var head: Addr
    var current: Addr
    var mem: Mem
    ghost var list: seq<Addr>
    ghost var blocks: seq<M.Block>

    ghost predicate Valid()
      reads this, heap
    {
      && Good(mem, head, list, blocks, header, heap.live)
      && current == if list == [] then NULL else list[|list| - 1]
    }

    ghost function Pool(): M.Pool
      reads this
    {
      M.Pool(blocks, unit)
    }

    constructor (heap: Heap, header: Addr, unit: nat, initial: Addr)
      requires header in heap.live && (initial != NULL ==> initial in heap.live && initial != header)
      ensures Valid() && this.heap == heap && this.header == header
      ensures Pool() == M.Pool(if initial == NULL then [] else [M.Block(unit, 0)], unit)
      ensures list == if initial == NULL then [] else [initial]
    {
      this.heap, this.header, this.unit, head, current := heap, header, unit, initial, initial;
      mem := if initial == NULL then map[] else map[initial := Block(NULL, unit, 0)];
      list := if initial == NULL then [] else [initial];
      blocks := if initial == NULL then [] else [M.Block(unit, 0)];
    }

    /** A failing first block leaves an arena that serves nobody. */
    static method Create(heap: Heap, blockSize: nat, okHeader: bool, okBlock: bool) returns (a: Arena?)
      modifies heap
      ensures a == null <==> !okHeader
      ensures a != null ==> fresh(a) && a.Valid() && a.heap == heap
                            && a.Pool() == M.ArenaCreate(blockSize, okHeader, okBlock)
      ensures a != null ==> a.unit == (if blockSize < 1024 then 1024 else blockSize) && (a.list != [] <==> okBlock)
      ensures heap.freed == old(heap.freed)
      ensures heap.live == old(heap.live) + if a == null then {} else {a.header} + Elems(a.list)
    {
      var unit := if blockSize < 1024 then 1024 else blockSize;
      var header := heap.Malloc(okHeader);
      if header == NULL { return null; }
      var initial := heap.Malloc(okBlock);
      a := new Arena(heap, header, unit, initial);
    }

    /** Hangs a new block behind the current one and takes `aligned` bytes of it. */
    method AddBlock(size: nat, aligned: nat, ok: bool) returns (b: Addr)
      requires Valid() && current != NULL
      modifies this`current, this`mem, this`list, this`blocks, heap
      ensures Valid() && heap.freed == old(heap.freed) && (b != NULL <==> ok)
      ensures ok ==> list == old(list) + [b] && blocks == old(blocks) + [M.Block(size, aligned)]
      ensures !ok ==> list == old(list) && blocks == old(blocks)
    {
      b := heap.Malloc(ok);
      if b == NULL { return; }
      AppendGood(mem, head, list, blocks, header, old(heap.live), b, Block(NULL, size, aligned));
      mem := mem[b := Block(NULL, size, 0)];
      mem := mem[current := mem[current].(next := b)];
      current := b;
      mem := mem[b := mem[b].(used := mem[b].used + aligned)];
      blocks, list := blocks + [M.Block(size, aligned)], list + [b];
      assert mem == old(mem)[b := Block(NULL, size, aligned)][old(current) := old(mem)[old(current)].(next := b)];
    }

    /** The place is a block address and an offset; blocks already there stay where they are. */
    method Alloc(size: nat, ok: bool) returns (block: Addr, offset: nat)
      requires Valid()
      modifies this`current, this`mem, this`list, this`blocks, heap
      ensures Valid() && old(list) <= list && heap.freed == old(heap.freed)
      ensures Pool() == M.ArenaAlloc(old(Pool()), size, ok).pool
      ensures match M.ArenaAlloc(old(Pool()), size, ok).spot
              case Nowhere => block == NULL
              case At(k, o) => k < |list| && block == list[k] && offset == o
      ensures old(blocks) == [] ==> block == NULL && blocks == old(blocks)
      ensures old(blocks) != [] ==>
        M.ServedLast(old(blocks), unit, size, ok, blocks, M.ArenaAlloc(old(Pool()), size, ok).spot)
      ensures old(blocks) != [] && ok ==> block != NULL
    {
      M.ArenaAllocEffect(Pool(), size, ok);
      if list != [] { ElemsHas(list, |list| - 1); }
      if current == NULL { return NULL, 0; }
      var aligned := M.RoundUp(size);
      ghost var k := |list| - 1;
      var used := M.Wrap(mem[current].used + aligned);
      if used <= mem[current].size {
        block, offset := current, mem[current].used;
        BumpGood(mem, head, list, blocks, header, heap.live, k, used);
        blocks := blocks[k := blocks[k].(used := used)];
        mem := mem[current := mem[current].(used := used)];
        return;
      }
      var newSize := if aligned > unit then aligned else unit;
      block := AddBlock(newSize, aligned, ok);
      offset := 0;
    }

    /** Frees every block once, oldest first, then the header. */
    method Destroy()
      requires Valid()
      modifies this`mem, heap
      ensures mem == map[]
      ensures heap.freed == old(heap.freed) + list + [header]
      ensures heap.live == old(heap.live) - Elems(list) - {header}
    {
      mem := FreeChain(heap, head, mem, list);
      heap.Free(header);
    }
  }

  /** Walks a chain and frees its blocks; `next` is read before its block goes. */
  method FreeChain(heap: Heap, head: Addr, mem0: Mem, ghost l: seq<Addr>) returns (mem: Mem)
    requires Chain(mem0, head, l) && Distinct(l) && mem0.Keys == Elems(l) <= heap.live
    modifies heap
    ensures mem == map[]
    ensures heap.freed == old(heap.freed) + l && heap.live == old(heap.live) - Elems(l)
  {
    mem := mem0;
    var curr := head;
    ghost var k := 0;
    while curr != NULL
      invariant k <= |l| && Chain(mem, curr, l[k..]) && Distinct(l[k..]) && mem.Keys == Elems(l[k..])
      invariant heap.freed == old(heap.freed) + l[..k]
      invariant mem.Keys <= heap.live && heap.live - mem.Keys == old(heap.live) - Elems(l)
      decreases |l| - k
    {
      assert l[k..][1..] == l[k + 1..] && l[..k + 1] == l[..k] + [curr];
      var next := mem[curr].next;
      heap.Free(curr);
      ChainFrame(mem, mem - {curr}, next, l[k + 1..]);
      mem := mem - {curr};
      curr, k := next, k + 1;
    }
    assert l[..k] == l;
  }

  /** The two ways of serving a request, as updates of the list of blocks. */
  lemma RegionAllocIs(p: M.Pool, size: nat, ok: bool)
    requires p.Pool? && p.blocks != [] && size > 0
    ensures var aligned := M.RoundUp(size); var r := M.RegionAlloc(p, size, ok);
      if M.Fits(p.blocks[0], aligned) then
        r == M.Outcome(M.Pool(p.blocks[0 := M.Bump(p.blocks[0], aligned)], p.unit), M.At(|p.blocks| - 1, p.blocks[0].used))
      else if !ok then r == M.Outcome(p, M.Nowhere)
      else
        var pushed := [M.Block(M.NewSize(p.unit, aligned), 0)] + p.blocks;
        r == M.Outcome(M.Pool(pushed[0 := M.Bump(pushed[0], aligned)], p.unit), M.At(|p.blocks|, 0))
  {
    var aligned := M.RoundUp(size);
    var chunk := M.Block(M.NewSize(p.unit, aligned), 0);
    assert M.Bump(chunk, aligned) == chunk.(used := aligned);
    assert ([chunk] + p.blocks)[0 := chunk.(used := aligned)] == [chunk.(used := aligned)] + p.blocks;
  }

  class Region {
    const heap: Heap
    const header: Addr
    const unit: nat
    var currentChunk: Addr
    var mem: Mem
    ghost var list: seq<Addr>          // newest first
    ghost var blocks: seq<M.Block>

    ghost predicate Valid()
      reads this, heap
    {
      Good(mem, currentChunk, list, blocks, header, heap.live) && list != []
    }

    ghost function Pool(): M.Pool
      reads this
    {
      M.Pool(blocks, unit)
    }

    constructor (heap: Heap, header: Addr, unit: nat, first: Addr)
      requires header in heap.live && first in heap.live && first != header && first != NULL
      ensures Valid() && this.heap == heap && this.header == header
      ensures Pool() == M.Pool([M.Block(unit, 0)], unit) && list == [first]
    {
      this.heap, this.header, this.unit, currentChunk := heap, header, unit, first;
      mem, list, blocks := map[first := Block(NULL, unit, 0)], [first], [M.Block(unit, 0)];
    }

    /** A failing first chunk gives the header back. */
    static method Create(heap: Heap, chunkSize: nat, okHeader: bool, okBlock: bool) returns (r: Region?)
      modifies heap
      ensures r == null <==> !okHeader || !okBlock
      ensures r != null ==> fresh(r) && r.Valid() && r.heap == heap
                            && r.Pool() == M.RegionCreate(chunkSize, okHeader, okBlock)
      ensures r != null ==> r.unit == (if chunkSize == 0 then 4096 else chunkSize) && |r.list| == 1
      ensures heap.live == old(heap.live) + if r == null then {} else {r.header} + Elems(r.list)
      ensures |heap.freed| == |old(heap.freed)| + if okHeader && !okBlock then 1 else 0
    {
      var unit := if chunkSize == 0 then 4096 else chunkSize;
      var header := heap.Malloc(okHeader);
      if header == NULL { return null; }
      var first := heap.Malloc(okBlock);
      if first == NULL {
        heap.Free(header);
        return null;
      }
      r := new Region(heap, header, unit, first);
    }

    /** Pushes a new empty chunk before the current one. */
    method AddChunk(newCap: nat, ok: bool) returns (chunk: Addr)
      requires Valid()
      modifies this`currentChunk, this`mem, this`list, this`blocks, heap
      ensures Valid() && heap.freed == old(heap.freed) && (chunk != NULL <==> ok)
      ensures ok ==> list == [chunk] + old(list) && blocks == [M.Block(newCap, 0)] + old(blocks)
      ensures !ok ==> list == old(list) && blocks == old(blocks)
    {
      chunk := heap.Malloc(ok);
      if chunk == NULL { return; }
      PushGood(mem, currentChunk, list, blocks, header, old(heap.live), chunk, Block(currentChunk, newCap, 0));
      mem := mem[chunk := Block(currentChunk, newCap, 0)];
      currentChunk, list, blocks := chunk, [chunk] + list, [M.Block(newCap, 0)] + blocks;
    }

    /** Places the request; the n-th block ever created is the n-th from the end of the list. */
    method Alloc(size: nat, ok: bool) returns (block: Addr, offset: nat)
      requires Valid()
      modifies this`currentChunk, this`mem, this`list, this`blocks, heap
      ensures Valid() && (list == old(list) || list[1..] == old(list))
      ensures heap.freed == old(heap.freed)
      ensures Pool() == M.RegionAlloc(old(Pool()), size, ok).pool
      ensures match M.RegionAlloc(old(Pool()), size, ok).spot
              case Nowhere => block == NULL
              case At(k, o) => k < |list| && block == list[|list| - 1 - k] && offset == o
      ensures old(blocks) != [] && M.ServedFirst(old(blocks), unit, size, ok, blocks, M.RegionAlloc(old(Pool()), size, ok).spot)
      ensures ok && size > 0 ==> block != NULL
    {
      M.RegionAllocEffect(Pool(), size, ok);
      if size == 0 { return NULL, 0; }
      var aligned := M.RoundUp(size);
      RegionAllocIs(Pool(), size, ok);
      if M.Wrap(mem[currentChunk].used + aligned) > mem[currentChunk].size {
        var newCap := if aligned > unit then aligned else unit;
        var chunk := AddChunk(newCap, ok);
        if chunk == NULL { return NULL, 0; }
      }
      block, offset := Take(aligned);
    }

    /** Hands out the next bytes of the current chunk. */
    method Take(aligned: nat) returns (block: Addr, offset: nat)
      requires Valid()
      modifies this`mem, this`blocks
      ensures Valid() && blocks == old(blocks)[0 := M.Bump(old(blocks)[0], aligned)]
      ensures block == list[0] && offset == old(blocks)[0].used
    {
      block, offset := currentChunk, mem[currentChunk].used;
      var used := M.Wrap(mem[currentChunk].used + aligned);
      BumpGood(mem, currentChunk, list, blocks, header, heap.live, 0, used);
      mem := mem[currentChunk := mem[currentChunk].(used := used)];
      blocks := blocks[0 := blocks[0].(used := used)];
    }

    /** Frees every chunk once, newest first, then the header. */
    method Free()
      requires Valid()
      modifies this`mem, heap
      ensures mem == map[]
      ensures heap.freed == old(heap.freed) + list + [header]
      ensures heap.live == old(heap.live) - Elems(list) - {header}
    {
      mem := FreeChain(heap, currentChunk, mem, list);
      heap.Free(header);
    }
  }
}
