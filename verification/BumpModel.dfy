/**
 Bump allocation on values, in `size_t` arithmetic: the arena appends blocks at the end of its list
 and bumps the last one, the region pushes chunks at the front and bumps the first one.  Blocks are
 numbered in the order of their creation.
 */
module BumpModel {
  const SIZE_LIMIT: nat := 0x1_0000_0000_0000_0000

  function Wrap(n: nat): nat {
    n % SIZE_LIMIT
  }

  /** `(size + 7) & ~7` */
  function RoundUp(size: nat): nat {
    Wrap(size + 7) - Wrap(size + 7) % 8
  }

  /** Rounding yields the least multiple of 8 not below the request exactly when it does not wrap. */
  lemma RoundUpLeast(size: nat)
    requires size < SIZE_LIMIT
    ensures RoundUp(size) % 8 == 0
    ensures RoundUp(size) >= size <==> size + 7 < SIZE_LIMIT
    ensures size + 7 < SIZE_LIMIT ==> forall m: nat :: m % 8 == 0 && m >= size ==> RoundUp(size) <= m
    ensures size + 7 < SIZE_LIMIT ==> RoundUp(size) < size + 8
    ensures size + 7 >= SIZE_LIMIT ==> RoundUp(size) == 0
  {
    if size + 7 < SIZE_LIMIT {
      assert Wrap(size + 7) == size + 7;
      forall m: nat | m % 8 == 0 && m >= size ensures RoundUp(size) <= m {
        assert m / 8 * 8 == m && (size + 7) / 8 * 8 == RoundUp(size);
      }
    } else {
      assert Wrap(size + 7) == size + 7 - SIZE_LIMIT < 7;
    }
  }

  datatype Block = Block(size: nat, used: nat)

  /** Where a request went: a block number and an offset in it. */
  datatype Spot = Nowhere | At(block: nat, offset: nat)

  /** The list of blocks, in list order, and the size of a new one; `Missing` is the NULL handle. */
  datatype Pool = Missing | Pool(blocks: seq<Block>, unit: nat)

  datatype Outcome = Outcome(pool: Pool, spot: Spot)

  function Fits(b: Block, aligned: nat): bool {
    Wrap(b.used + aligned) <= b.size
  }

  function Bump(b: Block, aligned: nat): Block {
    b.(used := Wrap(b.used + aligned))
  }

  function NewSize(unit: nat, aligned: nat): nat {
    if aligned > unit then aligned else unit
  }

  // ----- The arena -----

  function ArenaCreate(blockSize: nat, okHeader: bool, okBlock: bool): Pool {
    var unit := if blockSize < 1024 then 1024 else blockSize;
    if !okHeader then Missing
    else Pool(if okBlock then [Block(unit, 0)] else [], unit)
  }

  function ArenaAlloc(p: Pool, size: nat, ok: bool): Outcome {
    if p.Missing? || p.blocks == [] then Outcome(p, Nowhere)
    else
      var last := |p.blocks| - 1;
      var aligned := RoundUp(size);
      if Fits(p.blocks[last], aligned) then
        Outcome(p.(blocks := p.blocks[last := Bump(p.blocks[last], aligned)]), At(last, p.blocks[last].used))
      else if !ok then Outcome(p, Nowhere)
      else Outcome(p.(blocks := p.blocks + [Block(NewSize(p.unit, aligned), aligned)]), At(last + 1, 0))
  }

  // ----- The region -----

  function RegionCreate(chunkSize: nat, okHeader: bool, okBlock: bool): Pool {
    var unit := if chunkSize == 0 then 4096 else chunkSize;
    if !okHeader || !okBlock then Missing else Pool([Block(unit, 0)], unit)
  }

  function RegionAlloc(p: Pool, size: nat, ok: bool): Outcome {
    if p.Missing? || p.blocks == [] || size == 0 then Outcome(p, Nowhere)
    else
      var number := |p.blocks| - 1;
      var aligned := RoundUp(size);
      if Fits(p.blocks[0], aligned) then
        Outcome(p.(blocks := p.blocks[0 := Bump(p.blocks[0], aligned)]), At(number, p.blocks[0].used))
      else if !ok then Outcome(p, Nowhere)
      else Outcome(p.(blocks := [Block(NewSize(p.unit, aligned), aligned)] + p.blocks), At(number + 1, 0))
  }

  // ----- Runs -----

  /** A request and whether the allocator would grant a new block for it. */
  datatype Request = Request(size: nat, ok: bool)

  function ArenaRun(p: Pool, rs: seq<Request>): seq<Spot>
    decreases rs
  {
    if rs == [] then []
    else
      var o := ArenaAlloc(p, rs[0].size, rs[0].ok);
      [o.spot] + ArenaRun(o.pool, rs[1..])
  }

  function RegionRun(p: Pool, rs: seq<Request>): seq<Spot>
    decreases rs
  {
    if rs == [] then []
    else
      var o := RegionAlloc(p, rs[0].size, rs[0].ok);
      [o.spot] + RegionRun(o.pool, rs[1..])
  }

  // ----- What one request does, block by block -----

  /** The rounded request fits behind what the block has in use, as the code computes it. */
  predicate Room(b: Block, size: nat) {
    (b.used + RoundUp(size)) % 0x1_0000_0000_0000_0000 <= b.size
  }

  /** `b'` is `b` with the rounded request taken. */
  predicate Took(b: Block, size: nat, b': Block) {
    b'.size == b.size && b'.used == (b.used + RoundUp(size)) % 0x1_0000_0000_0000_0000
  }

  /** A block opened for a request: of the default size, unless the rounded request is larger. */
  predicate Opened(unit: nat, size: nat, b: Block) {
    && b.used == RoundUp(size)
    && (RoundUp(size) <= unit ==> b.size == unit)
    && (RoundUp(size) > unit ==> b.size == RoundUp(size))
  }

  /** A request against blocks of which the last is the current one. */
  ghost predicate ServedLast(bs: seq<Block>, unit: nat, size: nat, ok: bool, bs': seq<Block>, s: Spot)
    requires bs != []
  {
    var last := |bs| - 1;
    if Room(bs[last], size) then
      && s == At(last, bs[last].used) && |bs'| == |bs| && bs'[..last] == bs[..last] && Took(bs[last], size, bs'[last])
    else if !ok then s == Nowhere && bs' == bs
    else s == At(|bs|, 0) && |bs'| == |bs| + 1 && bs'[..|bs|] == bs && Opened(unit, size, bs'[|bs|])
  }

  /** A request against chunks of which the first is the current one; size zero is refused. */
  ghost predicate ServedFirst(bs: seq<Block>, unit: nat, size: nat, ok: bool, bs': seq<Block>, s: Spot)
    requires bs != []
  {
    if size == 0 then s == Nowhere && bs' == bs
    else if Room(bs[0], size) then
      && s == At(|bs| - 1, bs[0].used) && |bs'| == |bs| && bs'[1..] == bs[1..] && Took(bs[0], size, bs'[0])
    else if !ok then s == Nowhere && bs' == bs
    else s == At(|bs|, 0) && |bs'| == |bs| + 1 && bs'[1..] == bs && Opened(unit, size, bs'[0])
  }

  lemma ArenaAllocEffect(p: Pool, size: nat, ok: bool)
    ensures p.Missing? || p.blocks == [] ==> ArenaAlloc(p, size, ok) == Outcome(p, Nowhere)
    ensures p.Pool? && p.blocks != [] ==>
      var o := ArenaAlloc(p, size, ok);
      o.pool.Pool? && o.pool.unit == p.unit && ServedLast(p.blocks, p.unit, size, ok, o.pool.blocks, o.spot)
  {
  }

  lemma RegionAllocEffect(p: Pool, size: nat, ok: bool)
    ensures p.Missing? || p.blocks == [] ==> RegionAlloc(p, size, ok) == Outcome(p, Nowhere)
    ensures p.Pool? && p.blocks != [] ==>
      var o := RegionAlloc(p, size, ok);
      o.pool.Pool? && o.pool.unit == p.unit && ServedFirst(p.blocks, p.unit, size, ok, o.pool.blocks, o.spot)
  {
  }

  /** An arena has blocks of at least 1024 bytes and serves nobody when its first block failed. */
  lemma ArenaCreateEffect(blockSize: nat, okHeader: bool, okBlock: bool)
    ensures var p := ArenaCreate(blockSize, okHeader, okBlock); var unit := if blockSize < 1024 then 1024 else blockSize;
      if !okHeader then p.Missing?
      else p.Pool? && p.unit == unit && if okBlock then p.blocks == [Block(unit, 0)] else p.blocks == []
  {
  }

  /** A region has chunks of 4096 bytes by default and does not exist without its first one. */
  lemma RegionCreateEffect(chunkSize: nat, okHeader: bool, okBlock: bool)
    ensures var p := RegionCreate(chunkSize, okHeader, okBlock); var unit := if chunkSize == 0 then 4096 else chunkSize;
      if !okHeader || !okBlock then p.Missing? else p.Pool? && p.unit == unit && p.blocks == [Block(unit, 0)]
  {
  }

  function ArenaEnd(p: Pool, rs: seq<Request>): Pool
    decreases rs
  {
    if rs == [] then p else ArenaEnd(ArenaAlloc(p, rs[0].size, rs[0].ok).pool, rs[1..])
  }

  function RegionEnd(r: Pool, rs: seq<Request>): Pool
    decreases rs
  {
    if rs == [] then r else RegionEnd(RegionAlloc(r, rs[0].size, rs[0].ok).pool, rs[1..])
  }

  /** Every request of a run is served as a request against what the requests before it left. */
  lemma {:induction false} ArenaServes(p: Pool, rs: seq<Request>, i: nat)
    requires p.Pool? && p.blocks != [] && i < |rs|
    ensures |ArenaRun(p, rs)| == |rs|
    ensures var q, q' := ArenaEnd(p, rs[..i]), ArenaEnd(p, rs[..i + 1]);
      && q.Pool? && q.blocks != [] && q.unit == p.unit && q'.Pool? && q'.unit == p.unit
      && ServedLast(q.blocks, p.unit, rs[i].size, rs[i].ok, q'.blocks, ArenaRun(p, rs)[i])
    decreases rs
  {
    ArenaAllocEffect(p, rs[0].size, rs[0].ok);
    var o := ArenaAlloc(p, rs[0].size, rs[0].ok);
    hide ArenaAlloc, ServedLast;
    if i == 0 {
      assert rs[..0] == [] && rs[..1][1..] == [];
      ArenaLength(o.pool, rs[1..]);
    } else {
      assert rs[..i][1..] == rs[1..][..i - 1] && rs[..i + 1][1..] == rs[1..][..i];
      SomeBlock(p.blocks, p.unit, rs[0].size, rs[0].ok, o.pool.blocks, o.spot);
      ArenaServes(o.pool, rs[1..], i - 1);
    }
  }

  lemma SomeBlock(bs: seq<Block>, unit: nat, size: nat, ok: bool, bs': seq<Block>, s: Spot)
    requires bs != []
    ensures ServedLast(bs, unit, size, ok, bs', s) || ServedFirst(bs, unit, size, ok, bs', s) ==> bs' != []
  {
  }

  lemma {:induction false} ArenaLength(p: Pool, rs: seq<Request>)
    ensures |ArenaRun(p, rs)| == |rs|
    decreases rs
  {
    if rs != [] { ArenaLength(ArenaAlloc(p, rs[0].size, rs[0].ok).pool, rs[1..]); }
  }

  lemma {:induction false} RegionLength(p: Pool, rs: seq<Request>)
    ensures |RegionRun(p, rs)| == |rs|
    decreases rs
  {
    if rs != [] { RegionLength(RegionAlloc(p, rs[0].size, rs[0].ok).pool, rs[1..]); }
  }

  lemma {:induction false} RegionServes(p: Pool, rs: seq<Request>, i: nat)
    requires p.Pool? && p.blocks != [] && i < |rs|
    ensures |RegionRun(p, rs)| == |rs|
    ensures var q, q' := RegionEnd(p, rs[..i]), RegionEnd(p, rs[..i + 1]);
      && q.Pool? && q.blocks != [] && q.unit == p.unit && q'.Pool? && q'.unit == p.unit
      && ServedFirst(q.blocks, p.unit, rs[i].size, rs[i].ok, q'.blocks, RegionRun(p, rs)[i])
    decreases rs
  {
    RegionAllocEffect(p, rs[0].size, rs[0].ok);
    var o := RegionAlloc(p, rs[0].size, rs[0].ok);
    hide RegionAlloc, ServedFirst;
    if i == 0 {
      assert rs[..0] == [] && rs[..1][1..] == [];
      RegionLength(o.pool, rs[1..]);
    } else {
      assert rs[..i][1..] == rs[1..][..i - 1] && rs[..i + 1][1..] == rs[1..][..i];
      SomeBlock(p.blocks, p.unit, rs[0].size, rs[0].ok, o.pool.blocks, o.spot);
      RegionServes(o.pool, rs[1..], i - 1);
    }
  }

  /** Request `i` of a run opened block `k`: it went to the start of it and gave it its size. */
  ghost predicate OpenedBy(unit: nat, rs: seq<Request>, spots: seq<Spot>, i: nat, k: nat, size: nat) {
    && i < |rs| == |spots| && spots[i] == At(k, 0) && rs[i].ok
    && size >= unit && size >= RoundUp(rs[i].size) && (size == unit || size == RoundUp(rs[i].size))
  }

  /**
   Over any run each block after the first ones is opened by one of the requests, with the default size
   if that request rounds to no more and the rounded request otherwise.
   */
  lemma {:induction false} ArenaBlockSizes(p: Pool, rs: seq<Request>, k: nat) returns (i: nat)
    requires p.Pool? && p.blocks != [] && ArenaEnd(p, rs).Pool? && |p.blocks| <= k < |ArenaEnd(p, rs).blocks|
    ensures OpenedBy(p.unit, rs, ArenaRun(p, rs), i, k, ArenaEnd(p, rs).blocks[k].size)
    decreases rs
  {
    ArenaAllocEffect(p, rs[0].size, rs[0].ok);
    var o := ArenaAlloc(p, rs[0].size, rs[0].ok);
    hide ArenaAlloc;
    ArenaLength(o.pool, rs[1..]);
    if k < |o.pool.blocks| {
      i := 0;
      ArenaSizeStays(o.pool, rs[1..], k);
    } else {
      i := ArenaBlockSizes(o.pool, rs[1..], k);
      i := i + 1;
    }
  }

  lemma {:induction false} ArenaSizeStays(p: Pool, rs: seq<Request>, k: nat)
    requires p.Pool? && k < |p.blocks|
    ensures ArenaEnd(p, rs).Pool? && k < |ArenaEnd(p, rs).blocks| && ArenaEnd(p, rs).blocks[k].size == p.blocks[k].size
    decreases rs
  {
    if rs != [] {
      ArenaAllocEffect(p, rs[0].size, rs[0].ok);
      var o := ArenaAlloc(p, rs[0].size, rs[0].ok);
      ServedSize(p.blocks, p.unit, rs[0].size, rs[0].ok, o.pool.blocks, o.spot, k);
      hide ArenaAlloc, ServedLast;
      ArenaSizeStays(o.pool, rs[1..], k);
    }
  }

  lemma ServedSize(bs: seq<Block>, unit: nat, size: nat, ok: bool, bs': seq<Block>, s: Spot, k: nat)
    requires k < |bs|
    ensures ServedLast(bs, unit, size, ok, bs', s) ==> k < |bs'| && bs'[k].size == bs[k].size
    ensures ServedFirst(bs, unit, size, ok, bs', s) ==> k < |bs'| && bs'[|bs'| - 1 - k].size == bs[|bs| - 1 - k].size
  {
    var last := |bs| - 1;
    if ServedLast(bs, unit, size, ok, bs', s) {
      assert k < last ==> bs'[..last][k] == bs[..last][k];
      assert |bs'| > |bs| ==> bs'[..|bs|][k] == bs[k];
    }
    if ServedFirst(bs, unit, size, ok, bs', s) {
      assert |bs'| == |bs| && k < last && bs' != bs ==> bs'[1..][last - k - 1] == bs[1..][last - k - 1];
      assert |bs'| > |bs| ==> bs'[1..][last - k] == bs[last - k];
    }
  }

  lemma {:induction false} RegionChunkSizes(p: Pool, rs: seq<Request>, k: nat) returns (i: nat)
    requires p.Pool? && p.blocks != [] && RegionEnd(p, rs).Pool? && |p.blocks| <= k < |RegionEnd(p, rs).blocks|
    ensures var bs := RegionEnd(p, rs).blocks; OpenedBy(p.unit, rs, RegionRun(p, rs), i, k, bs[|bs| - 1 - k].size)
    decreases rs
  {
    RegionAllocEffect(p, rs[0].size, rs[0].ok);
    var o := RegionAlloc(p, rs[0].size, rs[0].ok);
    hide RegionAlloc;
    RegionLength(o.pool, rs[1..]);
    if k < |o.pool.blocks| {
      i := 0;
      RegionSizeStays(o.pool, rs[1..], k);
    } else {
      i := RegionChunkSizes(o.pool, rs[1..], k);
      i := i + 1;
    }
  }

  lemma {:induction false} RegionSizeStays(p: Pool, rs: seq<Request>, k: nat)
    requires p.Pool? && k < |p.blocks|
    ensures RegionEnd(p, rs).Pool? && k < |RegionEnd(p, rs).blocks|
    ensures var bs := RegionEnd(p, rs).blocks; bs[|bs| - 1 - k].size == p.blocks[|p.blocks| - 1 - k].size
    decreases rs
  {
    if rs != [] {
      RegionAllocEffect(p, rs[0].size, rs[0].ok);
      var o := RegionAlloc(p, rs[0].size, rs[0].ok);
      ServedSize(p.blocks, p.unit, rs[0].size, rs[0].ok, o.pool.blocks, o.spot, k);
      hide RegionAlloc, ServedFirst;
      RegionSizeStays(o.pool, rs[1..], k);
    }
  }

  /** The second block has the default size: what the first had no room for leaves room for a third request. */
  lemma SecondBlock(unit: nat, a: nat, b: nat, c: nat)
    requires 1024 <= unit < 0x1_0000_0000_0000_0000 - 7
    requires RoundUp(a) <= unit < RoundUp(a) + RoundUp(b) < 0x1_0000_0000_0000_0000 && RoundUp(b) + RoundUp(c) <= unit
    ensures ArenaRun(ArenaCreate(unit, true, true), [Request(a, true), Request(b, true), Request(c, true)])
         == [At(0, 0), At(1, 0), At(1, RoundUp(b))]
  {
    var p := ArenaCreate(unit, true, true);
    ArenaRunThree(p, Request(a, true), Request(b, true), Request(c, true));
    ArenaAllocEffect(p, a, true);
    var q := ArenaAlloc(p, a, true).pool;
    ArenaAllocEffect(q, b, true);
    ArenaAllocEffect(ArenaAlloc(q, b, true).pool, c, true);
    hide ArenaRun, ArenaAlloc, RoundUp;
  }

  lemma ArenaRunThree(p: Pool, a: Request, b: Request, c: Request)
    ensures var o := ArenaAlloc(p, a.size, a.ok); var o' := ArenaAlloc(o.pool, b.size, b.ok);
      ArenaRun(p, [a, b, c]) == [o.spot, o'.spot, ArenaAlloc(o'.pool, c.size, c.ok).spot]
  {
    hide ArenaAlloc;
    assert [a, b, c][1..] == [b, c] && [b, c][1..] == [c] && [c][1..] == [];
    var o := ArenaAlloc(p, a.size, a.ok);
    var o' := ArenaAlloc(o.pool, b.size, b.ok);
    assert ArenaRun(o'.pool, [c]) == [ArenaAlloc(o'.pool, c.size, c.ok).spot] + ArenaRun(ArenaAlloc(o'.pool, c.size, c.ok).pool, []);
    assert ArenaRun(o.pool, [b, c]) == [o'.spot] + ArenaRun(o'.pool, [c]);
    assert ArenaRun(p, [a, b, c]) == [o.spot] + ArenaRun(o.pool, [b, c]);
  }

  // ----- The two orientations are one allocator -----

  /** The bumped block never claims to use more than it has. */
  ghost predicate Sound(p: Pool) {
    p.Pool? ==> forall i :: 0 <= i < |p.blocks| ==> p.blocks[i].used <= p.blocks[i].size < SIZE_LIMIT
  }

  /** The region's list is the arena's list backwards; a pool without blocks serves nobody. */
  ghost predicate Mirror(a: Pool, r: Pool) {
    if a.Missing? || a.blocks == [] then r.Missing?
    else
      && r.Pool? && r.unit == a.unit && |r.blocks| == |a.blocks|
      && forall i :: 0 <= i < |a.blocks| ==> r.blocks[|a.blocks| - 1 - i] == a.blocks[i]
  }

  /** For one creation size both start alike exactly when the size is at least 1024. */
  lemma CreateMirror(size: nat, okHeader: bool, okBlock: bool)
    ensures Mirror(ArenaCreate(size, okHeader, okBlock), RegionCreate(size, okHeader, okBlock))
       <==> size >= 1024 || !okHeader || !okBlock
  {
  }

  /** Every request, of any size, keeps the two mirrored; they answer alike except for size zero. */
  lemma AllocMirror(a: Pool, r: Pool, size: nat, ok: bool)
    requires Mirror(a, r) && Sound(a)
    ensures Mirror(ArenaAlloc(a, size, ok).pool, RegionAlloc(r, size, ok).pool)
    ensures ArenaAlloc(a, size, ok).spot == RegionAlloc(r, size, ok).spot
       <==> size != 0 || a.Missing? || a.blocks == []
  {
    if a.Pool? && a.blocks != [] {
      var last := |a.blocks| - 1;
      assert r.blocks[0] == a.blocks[last];
      assert size == 0 ==> RoundUp(size) == 0;
      assert size == 0 ==> Bump(a.blocks[last], 0) == a.blocks[last];
    }
  }

  lemma AllocSound(a: Pool, size: nat, ok: bool)
    requires Sound(a) && (a.Pool? ==> a.unit < SIZE_LIMIT)
    ensures Sound(ArenaAlloc(a, size, ok).pool)
    ensures a.Pool? ==> ArenaAlloc(a, size, ok).pool.Pool? && ArenaAlloc(a, size, ok).pool.unit == a.unit
  {
  }

  /** From mirrored pools the same non-zero requests get the same places. */
  lemma {:induction false} RunMirror(a: Pool, r: Pool, rs: seq<Request>)
    requires Mirror(a, r) && Sound(a) && (a.Pool? ==> a.unit < SIZE_LIMIT)
    requires forall i :: 0 <= i < |rs| ==> rs[i].size != 0
    ensures ArenaRun(a, rs) == RegionRun(r, rs)
    decreases rs
  {
    if rs != [] {
      AllocMirror(a, r, rs[0].size, rs[0].ok);
      AllocSound(a, rs[0].size, rs[0].ok);
      RunMirror(ArenaAlloc(a, rs[0].size, rs[0].ok).pool, RegionAlloc(r, rs[0].size, rs[0].ok).pool, rs[1..]);
    }
  }

  /** The arena and the region place every request of every run alike, wrap-around included. */
  lemma {:induction false} Equivalent(size: nat, okHeader: bool, okBlock: bool, rs: seq<Request>)
    requires 1024 <= size < SIZE_LIMIT
    requires forall i :: 0 <= i < |rs| ==> rs[i].size != 0
    ensures ArenaRun(ArenaCreate(size, okHeader, okBlock), rs) == RegionRun(RegionCreate(size, okHeader, okBlock), rs)
  {
    CreateMirror(size, okHeader, okBlock);
    RunMirror(ArenaCreate(size, okHeader, okBlock), RegionCreate(size, okHeader, okBlock), rs);
  }

  /** The arena pool that a region pool mirrors. */
  function AsArena(r: Pool): Pool {
    if r.Missing? || r.blocks == [] then Missing
    else r.(blocks := seq(|r.blocks|, i requires 0 <= i < |r.blocks| => r.blocks[|r.blocks| - 1 - i]))
  }

  /** So every region, whatever its chunk size, inherits what is proved of arenas. */
  lemma {:induction false} RegionIsArena(r: Pool, rs: seq<Request>)
    requires Sound(r) && (r.Pool? ==> r.blocks != [] && r.unit < SIZE_LIMIT)
    requires forall i :: 0 <= i < |rs| ==> rs[i].size != 0
    ensures Sound(AsArena(r)) && RegionRun(r, rs) == ArenaRun(AsArena(r), rs)
  {
    RunMirror(AsArena(r), r, rs);
  }

  // ----- Safety -----

  /** `sizeof` of a block's header: three words, in the arena and in the region alike. */
  const BLOCK_HEADER: nat := 24

  /** `sizeof` of the registry's own header, which `owner_malloc` adds in front. */
  const META_HEADER: nat := 80

  /** The bytes of data in the memory obtained for a block; below zero when not even the headers fit. */
  function Extent(size: nat): int {
    Wrap(META_HEADER + Wrap(BLOCK_HEADER + size)) - META_HEADER - BLOCK_HEADER
  }

  predicate Housed(size: nat) {
    META_HEADER + BLOCK_HEADER + size < SIZE_LIMIT
  }

  /** A block has the memory its size field claims exactly when its headers do not make the size wrap. */
  lemma ExtentIffHoused(size: nat)
    requires size < SIZE_LIMIT
    ensures Extent(size) == size <==> Housed(size)
    ensures Housed(size) <==> size + 104 < 0x1_0000_0000_0000_0000
    ensures !Housed(size) ==> Extent(size) == size - SIZE_LIMIT < 0
  {
  }

  /** The size field of the block that serves a request. */
  function Serving(p: Pool, size: nat): nat
    requires p.Pool? && p.blocks != []
  {
    var last := p.blocks[|p.blocks| - 1];
    if Fits(last, RoundUp(size)) then last.size else NewSize(p.unit, RoundUp(size))
  }

  /** Of a granted request neither the rounding, nor the bump of the current block, nor the headers wrap. */
  predicate NoWrap(p: Pool, size: nat, ok: bool) {
    ArenaAlloc(p, size, ok).spot.At? ==>
      && size + 7 < SIZE_LIMIT
      && Housed(Serving(p, size))
      && (Fits(p.blocks[|p.blocks| - 1], RoundUp(size)) ==> p.blocks[|p.blocks| - 1].used + RoundUp(size) < SIZE_LIMIT)
  }

  /** The `size` bytes at `s` lie in the memory obtained for their block. */
  ghost predicate Inside(p: Pool, s: Spot, size: nat) {
    s.At? ==> p.Pool? && s.block < |p.blocks| && s.offset + size <= Extent(p.blocks[s.block].size)
  }

  /** The `size` bytes at `s` are accounted for as used. */
  ghost predicate Handed(p: Pool, s: Spot, size: nat) {
    s.At? ==> p.Pool? && s.block < |p.blocks| && s.offset + size <= p.blocks[s.block].used
  }

  /** In the current block. */
  lemma BumpedInside(b: Block, size: nat)
    requires b.used <= b.size < SIZE_LIMIT && size < SIZE_LIMIT && Fits(b, RoundUp(size))
    ensures b.used + size <= Extent(b.size) <==> size + 7 < SIZE_LIMIT && Housed(b.size) && b.used + RoundUp(size) < SIZE_LIMIT
  {
    RoundUpLeast(size);
    ExtentIffHoused(b.size);
  }

  /** At the start of a new block. */
  lemma OpenedInside(unit: nat, size: nat)
    requires unit < SIZE_LIMIT && size < SIZE_LIMIT && RoundUp(size) != 0
    ensures size <= Extent(NewSize(unit, RoundUp(size))) <==> size + 7 < SIZE_LIMIT && Housed(NewSize(unit, RoundUp(size)))
  {
    RoundUpLeast(size);
    ExtentIffHoused(NewSize(unit, RoundUp(size)));
  }

  /** A range lies inside the memory of its block exactly when its computation does not wrap. */
  lemma InsideIffNoWrap(p: Pool, size: nat, ok: bool)
    requires Sound(p) && (p.Pool? ==> p.unit < SIZE_LIMIT) && size < SIZE_LIMIT
    ensures Inside(ArenaAlloc(p, size, ok).pool, ArenaAlloc(p, size, ok).spot, size) <==> NoWrap(p, size, ok)
  {
    if ArenaAlloc(p, size, ok).spot.At? {
      ServedBy(p, size, ok);
      var last := p.blocks[|p.blocks| - 1];
      if Fits(last, RoundUp(size)) {
        BumpedInside(last, size);
      } else {
        OpenedInside(p.unit, size);
      }
    }
  }

  lemma ServedBy(p: Pool, size: nat, ok: bool)
    requires ArenaAlloc(p, size, ok).spot.At?
    ensures var o := ArenaAlloc(p, size, ok); o.spot.block < |o.pool.blocks| && o.pool.blocks[o.spot.block].size == Serving(p, size)
  {
  }

  /** The wrap of the headers alone: 16 bytes are asked for, and 2^64 - 8 are handed out. */
  lemma HeadersWrap()
    ensures var p := ArenaCreate(1024, true, true); var size := SIZE_LIMIT - 8; var o := ArenaAlloc(p, size, true);
      && o.spot == At(1, 0) && RoundUp(size) == size && Wrap(BLOCK_HEADER + o.pool.blocks[1].size) == 16
      && Extent(o.pool.blocks[1].size) == -8 && !Inside(o.pool, o.spot, size)
  {
    assert RoundUp(SIZE_LIMIT - 8) == SIZE_LIMIT - 8;
  }

  /** `q` has the blocks of `p` where they were, each with its size, then new ones. */
  ghost predicate SameSizes(p: Pool, q: Pool) {
    p.Pool? ==> q.Pool? && |q.blocks| >= |p.blocks| && forall i :: 0 <= i < |p.blocks| ==> q.blocks[i].size == p.blocks[i].size
  }

  /** `q` has the blocks of `p` where they were, none smaller in use, then new ones. */
  ghost predicate Grown(p: Pool, q: Pool) {
    p.Pool? ==>
      && q.Pool? && q.unit == p.unit && SameSizes(p, q)
      && forall i :: 0 <= i < |p.blocks| ==> q.blocks[i].used >= p.blocks[i].used
  }

  /** `s` lies beyond everything in use in `p`. */
  ghost predicate Beyond(p: Pool, s: Spot) {
    s.At? && p.Pool? ==>
      && s.block >= |p.blocks| - 1
      && (s.block == |p.blocks| - 1 ==> s.offset >= p.blocks[s.block].used)
  }

  ghost predicate Disjoint(s: Spot, n: nat, t: Spot, m: nat) {
    s.At? && t.At? && n > 0 && m > 0 && s.block == t.block ==> s.offset + n <= t.offset || t.offset + m <= s.offset
  }

  predicate RunNoWrap(p: Pool, rs: seq<Request>)
    decreases rs
  {
    rs == [] || (NoWrap(p, rs[0].size, rs[0].ok) && RunNoWrap(ArenaAlloc(p, rs[0].size, rs[0].ok).pool, rs[1..]))
  }

  lemma {:induction false} SizesStay(p: Pool, rs: seq<Request>)
    ensures |ArenaRun(p, rs)| == |rs| && SameSizes(p, ArenaEnd(p, rs))
    decreases rs
  {
    if rs != [] { SizesStay(ArenaAlloc(p, rs[0].size, rs[0].ok).pool, rs[1..]); }
  }

  /** Over any run: all ranges lie in memory obtained for their blocks exactly when nothing wraps. */
  lemma {:induction false} RunInsideIffNoWrap(p: Pool, rs: seq<Request>)
    requires Sound(p) && (p.Pool? ==> p.unit < SIZE_LIMIT)
    requires forall i :: 0 <= i < |rs| ==> rs[i].size < SIZE_LIMIT
    ensures |ArenaRun(p, rs)| == |rs|
    ensures (forall i :: 0 <= i < |rs| ==> Inside(ArenaEnd(p, rs), ArenaRun(p, rs)[i], rs[i].size)) <==> RunNoWrap(p, rs)
    decreases rs
  {
    SizesStay(p, rs);
    if rs != [] {
      var o, t := ArenaAlloc(p, rs[0].size, rs[0].ok), rs[1..];
      var spots, end := ArenaRun(p, rs), ArenaEnd(p, rs);
      AllocSound(p, rs[0].size, rs[0].ok);
      InsideIffNoWrap(p, rs[0].size, rs[0].ok);
      SizesStay(o.pool, t);
      assert Inside(end, o.spot, rs[0].size) <==> Inside(o.pool, o.spot, rs[0].size);
      RunInsideIffNoWrap(o.pool, t);
      assert spots[0] == o.spot && forall i :: 0 <= i < |t| ==> spots[i + 1] == ArenaRun(o.pool, t)[i] && rs[i + 1] == t[i];
      FirstAndRest(end, spots, rs);
    }
  }

  lemma FirstAndRest(q: Pool, spots: seq<Spot>, rs: seq<Request>)
    requires |spots| == |rs| > 0
    ensures (forall i :: 0 <= i < |rs| ==> Inside(q, spots[i], rs[i].size)) <==>
            (Inside(q, spots[0], rs[0].size) && forall i :: 0 <= i < |rs[1..]| ==> Inside(q, spots[1..][i], rs[1..][i].size))
  {
    if forall i :: 0 <= i < |rs[1..]| ==> Inside(q, spots[1..][i], rs[1..][i].size) {
      forall i | 0 < i < |rs| ensures Inside(q, spots[i], rs[i].size) {
        assert spots[i] == spots[1..][i - 1] && rs[i] == rs[1..][i - 1];
      }
    }
  }

  lemma AllocSafe(p: Pool, size: nat, ok: bool)
    requires Sound(p) && (p.Pool? ==> p.unit < SIZE_LIMIT) && NoWrap(p, size, ok)
    ensures Handed(ArenaAlloc(p, size, ok).pool, ArenaAlloc(p, size, ok).spot, size)
    ensures Grown(p, ArenaAlloc(p, size, ok).pool) && Beyond(p, ArenaAlloc(p, size, ok).spot)
  {
    if ArenaAlloc(p, size, ok).spot.At? { RoundUpLeast(size); }
  }

  lemma {:induction false} RunGrown(p: Pool, rs: seq<Request>)
    requires Sound(p) && (p.Pool? ==> p.unit < SIZE_LIMIT) && RunNoWrap(p, rs)
    ensures |ArenaRun(p, rs)| == |rs| && Grown(p, ArenaEnd(p, rs))
    ensures forall i :: 0 <= i < |rs| ==> Beyond(p, ArenaRun(p, rs)[i])
    decreases rs
  {
    if rs != [] {
      var o := ArenaAlloc(p, rs[0].size, rs[0].ok);
      AllocSafe(p, rs[0].size, rs[0].ok);
      AllocSound(p, rs[0].size, rs[0].ok);
      RunGrown(o.pool, rs[1..]);
    }
  }

  /** Over any run that does not wrap no two non-empty ranges overlap. */
  lemma {:induction false} RunSafe(p: Pool, rs: seq<Request>)
    requires Sound(p) && (p.Pool? ==> p.unit < SIZE_LIMIT) && RunNoWrap(p, rs)
    ensures |ArenaRun(p, rs)| == |rs|
    ensures forall i, j :: 0 <= i < j < |rs| ==> Disjoint(ArenaRun(p, rs)[i], rs[i].size, ArenaRun(p, rs)[j], rs[j].size)
    decreases rs
  {
    if rs != [] {
      var o, t := ArenaAlloc(p, rs[0].size, rs[0].ok), rs[1..];
      AllocSafe(p, rs[0].size, rs[0].ok);
      AllocSound(p, rs[0].size, rs[0].ok);
      RunSafe(o.pool, t);
      FirstSafe(o.pool, o.spot, rs[0].size, t);
    }
  }

  /** The first range `s` of a run, granted on the way to `p`, against the rest of the run. */
  lemma {:induction false} FirstSafe(p: Pool, s: Spot, n: nat, t: seq<Request>)
    requires Sound(p) && (p.Pool? ==> p.unit < SIZE_LIMIT) && RunNoWrap(p, t)
    requires Handed(p, s, n) && (s.At? ==> s.block == |p.blocks| - 1)
    ensures |ArenaRun(p, t)| == |t| && forall j :: 0 <= j < |t| ==> Disjoint(s, n, ArenaRun(p, t)[j], t[j].size)
  {
    RunGrown(p, t);
  }

  /** After a run the two pools still mirror each other, whatever was requested. */
  lemma {:induction false} EndsMirror(a: Pool, r: Pool, rs: seq<Request>)
    requires Mirror(a, r) && Sound(a) && (a.Pool? ==> a.unit < SIZE_LIMIT)
    ensures Mirror(ArenaEnd(a, rs), RegionEnd(r, rs))
    decreases rs
  {
    if rs != [] {
      AllocMirror(a, r, rs[0].size, rs[0].ok);
      AllocSound(a, rs[0].size, rs[0].ok);
      EndsMirror(ArenaAlloc(a, rs[0].size, rs[0].ok).pool, RegionAlloc(r, rs[0].size, rs[0].ok).pool, rs[1..]);
    }
  }

  /** The `size` bytes at `s` lie in the memory obtained for their chunk; the newest chunk is the first. */
  ghost predicate InsideChunk(r: Pool, s: Spot, size: nat) {
    s.At? ==> r.Pool? && s.block < |r.blocks| && s.offset + size <= Extent(r.blocks[|r.blocks| - 1 - s.block].size)
  }

  lemma InsideMirror(a: Pool, r: Pool, s: Spot, size: nat)
    requires Mirror(a, r)
    ensures Inside(a, s, size) <==> InsideChunk(r, s, size)
  {
  }

  /** Over any run of a region: inside exactly when nothing wraps, and disjoint then. */
  lemma {:induction false} RegionRunSafe(r: Pool, rs: seq<Request>)
    requires Sound(r) && (r.Pool? ==> r.blocks != [] && r.unit < SIZE_LIMIT)
    requires forall i :: 0 <= i < |rs| ==> 0 < rs[i].size < SIZE_LIMIT
    ensures |RegionRun(r, rs)| == |rs|
    ensures (forall i :: 0 <= i < |rs| ==> InsideChunk(RegionEnd(r, rs), RegionRun(r, rs)[i], rs[i].size))
       <==> RunNoWrap(AsArena(r), rs)
    ensures RunNoWrap(AsArena(r), rs) ==>
      forall i, j :: 0 <= i < j < |rs| ==> Disjoint(RegionRun(r, rs)[i], rs[i].size, RegionRun(r, rs)[j], rs[j].size)
  {
    RegionIsArena(r, rs);
    EndsMirror(AsArena(r), r, rs);
    RunInsideIffNoWrap(AsArena(r), rs);
    forall i | 0 <= i < |rs|
      ensures Inside(ArenaEnd(AsArena(r), rs), RegionRun(r, rs)[i], rs[i].size)
         <==> InsideChunk(RegionEnd(r, rs), RegionRun(r, rs)[i], rs[i].size)
    {
      InsideMirror(ArenaEnd(AsArena(r), rs), RegionEnd(r, rs), RegionRun(r, rs)[i], rs[i].size);
    }
    if RunNoWrap(AsArena(r), rs) { RunSafe(AsArena(r), rs); }
  }
}
