/**
  The size-prefixed allocator of 410kern/malloc over the list memory manager: _malloc, _memalign,
  _realloc and _free.  The size of a block, prefix included, is stored in the four bytes before
  the pointer handed out and read back from there.
 */
module KernelMalloc {
  import opened Arithmetic
  import opened FreeList
  import opened Lmm
  import opened Options

  /** A block that is in use: the address of its prefix and its size with the prefix. */
  datatype Block = Block(addr: nat, size: nat)

  function Low(b: Block): nat {
    RoundDown(b.addr)
  }

  /** The bytes taken from the pool for the block. */
  function Length(b: Block): nat {
    Extent(b.addr, b.size)
  }

  function High(b: Block): nat {
    Low(b) + Length(b)
  }

  predicate BlockApart(a: Block, b: Block) {
    High(a) <= Low(b) || High(b) <= Low(a)
  }

  predicate BlocksDisjoint(bs: seq<Block>) {
    forall i, j :: 0 <= i < |bs| && 0 <= j < |bs| && i != j ==> BlockApart(bs[i], bs[j])
  }

  /** The block lies in one region and none of its bytes is free. */
  ghost predicate InUse(rs: seq<Region>, b: Block) {
    && 4 <= b.size && b.addr + b.size < WORD
    && (exists r :: 0 <= r < |rs| && rs[r].min <= Low(b) && High(b) <= rs[r].max)
    && (forall x :: Low(b) <= x < High(b) ==> !PoolFree(rs, x))
  }

  function BlockBytes(bs: seq<Block>): nat {
    if bs == [] then 0 else BlockBytes(bs[..|bs| - 1]) + Length(bs[|bs| - 1])
  }

  function FreeBytes(rs: seq<Region>): nat {
    if rs == [] then 0 else FreeBytes(rs[..|rs| - 1]) + rs[|rs| - 1].free
  }

  // ---------------------------------------------------------------- little-endian words

  type Byte = x: nat | x < 0x100

  function LowByte(x: nat): Byte {
    x % 0x100
  }

  function WordBytes(x: nat): (w: seq<Byte>)
    requires x < WORD
    ensures |w| == 4
  {
    [LowByte(x), LowByte(x / 0x100), LowByte(x / 0x1_0000), LowByte(x / 0x100_0000)]
  }

  function WordOf(w: seq<Byte>): nat
    requires |w| == 4
  {
    (w[0] as int) + 0x100 * (w[1] as int) + 0x1_0000 * (w[2] as int) + 0x100_0000 * (w[3] as int)
  }

  /** Memory after a 32-bit store. */
  function StoreWord(mem: seq<Byte>, addr: nat, x: nat): (r: seq<Byte>)
    requires addr + 4 <= |mem| && x < WORD
    ensures |r| == |mem|
  {
    mem[..addr] + WordBytes(x) + mem[addr + 4..]
  }

  function LoadWord(mem: seq<Byte>, addr: nat): nat
    requires addr + 4 <= |mem|
  {
    WordOf(mem[addr..addr + 4])
  }

  lemma WordRoundTrip(x: nat)
    requires x < WORD
    ensures WordOf(WordBytes(x)) == x
  {
    var a, b, c := x / 0x100, x / 0x1_0000, x / 0x100_0000;
    assert x == 0x100 * a + x % 0x100;
    assert b == a / 0x100 && a == 0x100 * b + a % 0x100;
    assert c == b / 0x100 && b == 0x100 * c + b % 0x100;
    assert c < 0x100;
  }

  // ---------------------------------------------------------------- sums

  lemma {:induction false} BytesConcat(a: seq<Block>, b: seq<Block>)
    ensures BlockBytes(a + b) == BlockBytes(a) + BlockBytes(b)
    decreases |b|
  {
    if b == [] {
      assert a + b == a;
    } else {
      var n := |b| - 1;
      assert (a + b)[..|a + b| - 1] == a + b[..n];
      BytesConcat(a, b[..n]);
    }
  }

  lemma BytesOne(b: Block)
    ensures BlockBytes([b]) == Length(b)
  {
    assert [b][..0] == [];
  }

  lemma BytesWithout(bs: seq<Block>, k: nat)
    requires k < |bs|
    ensures BlockBytes(bs[..k] + bs[k + 1..]) + Length(bs[k]) == BlockBytes(bs)
  {
    var a, b, c := bs[..k], [bs[k]], bs[k + 1..];
    assert bs == a + b + c;
    BytesConcat(a + b, c);
    BytesConcat(a, b);
    BytesConcat(a, c);
    BytesOne(bs[k]);
  }

  lemma {:induction false} FreeUpdate(rs: seq<Region>, r: nat, reg: Region)
    requires r < |rs|
    ensures FreeBytes(rs[r := reg]) + rs[r].free == FreeBytes(rs) + reg.free
    decreases |rs|
  {
    var n := |rs| - 1;
    if r < n {
      FreeUpdate(rs[..n], r, reg);
      assert rs[r := reg][..n] == rs[..n][r := reg];
    } else {
      assert rs[r := reg][..n] == rs[..n];
    }
  }

  // ---------------------------------------------------------------- blocks and the pool

  /** A block stays in use while others are taken. */
  lemma TookKeeps(was: seq<Region>, now: seq<Region>, r: nat, i: nat, lo: nat, len: nat, b: Block)
    requires PoolOk(was) && TookFrom(was, now, r, i, lo, len) && InUse(was, b)
    ensures InUse(now, b) && (High(b) <= lo || lo + len <= Low(b))
  {
    var k :| 0 <= k < |was| && was[k].min <= Low(b) && High(b) <= was[k].max;
    assert now[k].min == was[k].min && now[k].max == was[k].max;
    forall x ensures PoolFree(now, x) ==> PoolFree(was, x) {
      TookFree(was, now, r, i, lo, len, x);
    }
    if lo < High(b) && Low(b) < lo + len {
      var x := if lo <= Low(b) then Low(b) else lo;
      TookFree(was, now, r, i, lo, len, x);
    }
  }

  lemma TookNew(was: seq<Region>, now: seq<Region>, r: nat, i: nat, b: Block)
    requires PoolOk(was) && TookFrom(was, now, r, i, Low(b), Length(b)) && 4 <= b.size && b.addr + b.size < WORD
    ensures InUse(now, b)
  {
    assert RegionOk(was[r]);
    assert NodeOk(was[r].nodes[i], was[r].min, was[r].max);
    assert now[r].min <= Low(b) && High(b) <= now[r].max;
    forall x | Low(b) <= x < High(b) ensures !PoolFree(now, x) {
      TookFree(was, now, r, i, Low(b), Length(b), x);
    }
  }

  lemma PutPool(was: seq<Region>, now: seq<Region>, r: nat, p: nat, lo: nat, len: nat, x: int)
    requires PoolOk(was) && PutInto(was, now, r, p, lo, len)
    requires Freeable(was[r].nodes, lo, len, was[r].min, was[r].max)
    ensures PoolFree(now, x) ==> PoolFree(was, x) || lo <= x < lo + len
  {
    assert RegionOk(was[r]);
    AbsorbFree(was[r].nodes, p, lo, len, was[r].min, was[r].max, x);
    if PoolFree(now, x) {
      var k :| 0 <= k < |now| && InFree(now[k].nodes, x);
      assert k != r ==> now[k] == was[k];
    }
  }

  /** A block stays in use while another is freed. */
  lemma PutKeeps(was: seq<Region>, now: seq<Region>, r: nat, p: nat, lo: nat, len: nat, b: Block)
    requires PoolOk(was) && PutInto(was, now, r, p, lo, len) && InUse(was, b)
    requires Freeable(was[r].nodes, lo, len, was[r].min, was[r].max)
    requires High(b) <= lo || lo + len <= Low(b)
    ensures InUse(now, b)
  {
    var k :| 0 <= k < |was| && was[k].min <= Low(b) && High(b) <= was[k].max;
    assert now[k].min == was[k].min && now[k].max == was[k].max;
    forall x | Low(b) <= x < High(b) ensures !PoolFree(now, x) {
      PutPool(was, now, r, p, lo, len, x);
    }
  }

  lemma UseFreeable(rs: seq<Region>, b: Block) returns (r: nat)
    requires PoolOk(rs) && InUse(rs, b)
    ensures r < |rs| && Freeable(rs[r].nodes, Low(b), Length(b), rs[r].min, rs[r].max)
  {
    r :| 0 <= r < |rs| && rs[r].min <= Low(b) && High(b) <= rs[r].max;
    assert RegionOk(rs[r]);
    forall x | Low(b) <= x < High(b) ensures !InFree(rs[r].nodes, x) {
      assert !PoolFree(rs, x);
    }
    NotFreeFreeable(rs[r].nodes, Low(b), Length(b), rs[r].min, rs[r].max);
  }

  // ---------------------------------------------------------------- the heap

  /** The block of n usable bytes that a pointer stands for. */
  function BlockAt(ptr: nat, n: nat): Block
    requires 4 <= ptr
  {
    Block(ptr - 4, n + 4)
  }

  /** The bytes a caller may use. */
  function Payload(mem: seq<Byte>, b: Block): seq<Byte>
    requires 4 <= b.size && b.addr + b.size <= |mem|
  {
    mem[b.addr + 4..b.addr + b.size]
  }

  /** The prefix of the block holds its size. */
  predicate Prefixed(mem: seq<Byte>, b: Block) {
    4 <= b.size && b.addr + b.size <= |mem| && b.size < WORD && mem[b.addr..b.addr + 4] == WordBytes(b.size)
  }

  predicate Bounded(rs: seq<Region>, limit: nat) {
    forall r :: 0 <= r < |rs| ==> rs[r].max <= limit
  }

  lemma InsideExtent(b: Block)
    requires 0 < b.size
    ensures Low(b) <= b.addr && b.addr + b.size <= High(b)
  {
  }

  ghost predicate LiveOk(rs: seq<Region>, mem: seq<Byte>, live: seq<Block>) {
    && (forall k :: 0 <= k < |live| ==> InUse(rs, live[k]) && Prefixed(mem, live[k]))
    && BlocksDisjoint(live)
  }

  /** No byte that a caller may use has changed. */
  ghost predicate SamePayloads(was: seq<Byte>, now: seq<Byte>, live: seq<Block>) {
    forall k :: 0 <= k < |live| ==>
      Prefixed(was, live[k]) && Prefixed(now, live[k]) && Payload(now, live[k]) == Payload(was, live[k])
  }

  lemma BoundedSame(was: seq<Region>, now: seq<Region>, limit: nat)
    requires SameBounds(was, now) && Bounded(was, limit)
    ensures Bounded(now, limit)
  {
  }

  lemma InUseBound(rs: seq<Region>, b: Block, limit: nat)
    requires InUse(rs, b) && Bounded(rs, limit)
    ensures b.addr + b.size <= High(b) <= limit
  {
    InsideExtent(b);
  }

  /** Storing the prefix of one block leaves the bytes of the others alone. */
  lemma StoreKeeps(was: seq<Byte>, now: seq<Byte>, b: Block, other: Block)
    requires 4 <= b.size < WORD && b.addr + b.size <= |was| && Prefixed(was, other)
    requires now == StoreWord(was, b.addr, b.size)
    requires BlockApart(other, b)
    ensures Prefixed(now, other) && Payload(now, other) == Payload(was, other)
  {
    InsideExtent(b);
    InsideExtent(other);
    assert forall x :: 0 <= x < |was| && !(b.addr <= x < b.addr + 4) ==> now[x] == was[x];
    assert now[other.addr..other.addr + 4] == was[other.addr..other.addr + 4];
  }

  lemma OwnPrefix(was: seq<Byte>, now: seq<Byte>, b: Block)
    requires 4 <= b.size < WORD && b.addr + b.size <= |was|
    requires now == StoreWord(was, b.addr, b.size)
    ensures Prefixed(now, b)
  {
    assert now[b.addr..b.addr + 4] == WordBytes(b.size);
  }

  lemma ApartFromAll(live: seq<Block>, b: Block)
    requires BlocksDisjoint(live) && forall k :: 0 <= k < |live| ==> BlockApart(live[k], b)
    ensures BlocksDisjoint(live + [b])
  {
  }

  /** A new block with its prefix stored joins the others. */
  lemma AddBlock(was: seq<Region>, now: seq<Region>, r: nat, i: nat, mem: seq<Byte>, mem': seq<Byte>,
                 live: seq<Block>, b: Block)
    requires PoolOk(was) && TookFrom(was, now, r, i, Low(b), Length(b)) && LiveOk(was, mem, live)
    requires 4 <= b.size && b.addr + b.size < WORD && b.addr + b.size <= |mem|
    requires mem' == StoreWord(mem, b.addr, b.size)
    ensures LiveOk(now, mem', live + [b]) && SamePayloads(mem, mem', live)
  {
    TookNew(was, now, r, i, b);
    OwnPrefix(mem, mem', b);
    forall k | 0 <= k < |live|
      ensures InUse(now, live[k]) && BlockApart(live[k], b)
      ensures Prefixed(mem', live[k]) && Payload(mem', live[k]) == Payload(mem, live[k])
    {
      TookKeeps(was, now, r, i, Low(b), Length(b), live[k]);
      StoreKeeps(mem, mem', b, live[k]);
    }
    ApartFromAll(live, b);
  }

  lemma TookBytes(was: seq<Region>, now: seq<Region>, r: nat, i: nat, live: seq<Block>, b: Block)
    requires TookFrom(was, now, r, i, Low(b), Length(b))
    ensures FreeBytes(now) + BlockBytes(live + [b]) == FreeBytes(was) + BlockBytes(live)
    ensures SameBounds(was, now)
  {
    FreeUpdate(was, r, now[r]);
    assert (live + [b])[..|live|] == live;
  }

  /** The request of `_memalign`: n bytes and a prefix, aligned to the least power of two that suffices. */
  ghost predicate AsksFor(alignment: nat, n: nat, q: Request) {
    q.p > 0 && exists shift :: IsShift(alignment, shift) && q == AlignedRequest(shift, n)
  }

  class Heap {
    const pool: Pool
    var mem: seq<Byte>           // the bytes of memory by address
    ghost var live: seq<Block>   // the blocks handed out and not freed

    ghost predicate Valid()
      reads this, pool
    {
      pool.Valid() && Bounded(pool.regions, |mem|) && LiveOk(pool.regions, mem, live)
    }

    /** What is free and what is in use: the same total in every state. */
    ghost function Bytes(): nat
      reads this, pool
    {
      FreeBytes(pool.regions) + BlockBytes(live)
    }

    constructor (pool: Pool, mem: seq<Byte>)
      requires pool.Valid() && Bounded(pool.regions, |mem|)
      ensures Valid() && this.pool == pool && this.mem == mem && live == []
    {
      this.pool := pool;
      this.mem := mem;
      live := [];
    }

    /** Store the prefix of a block just taken from the pool and hand it out. */
    method Install(b: Block, ghost was: seq<Region>, ghost r: nat, ghost i: nat)
      requires PoolOk(was) && pool.Valid() && Bounded(pool.regions, |mem|)
      requires TookFrom(was, pool.regions, r, i, Low(b), Length(b)) && LiveOk(was, mem, live)
      requires 4 <= b.size && b.addr + b.size < WORD
      modifies this
      ensures Valid() && live == old(live) + [b] && SamePayloads(old(mem), mem, old(live)) && |mem| == old(|mem|)
      ensures Bytes() == FreeBytes(was) + BlockBytes(old(live)) && SameBounds(was, pool.regions)
    {
      TookBytes(was, pool.regions, r, i, live, b);
      TookNew(was, pool.regions, r, i, b);
      InUseBound(pool.regions, b, |mem|);
      ghost var mem' := StoreWord(mem, b.addr, b.size);
      AddBlock(was, pool.regions, r, i, mem, mem', live, b);
      mem := StoreWord(mem, b.addr, b.size);
      live := live + [b];
    }

    /** `lmm_alloc` on the pool, seen as a block. */
    method Take(size: nat) returns (b: Option<Block>, ghost r: nat, ghost i: nat)
      requires pool.Valid() && Bounded(pool.regions, |mem|) && 4 <= size <= WORD - 8
      modifies pool
      ensures pool.Valid() && Bounded(pool.regions, |mem|)
      ensures b.None? ==> pool.regions == old(pool.regions) && NoneFits(pool.regions, Plain(size, 0), |pool.regions|)
      ensures b.Some? ==> b.value.size == size && b.value.addr + size < WORD
      ensures b.Some? ==> MetAt(old(pool.regions), Plain(size, 0), b.value.addr)
      ensures b.Some? ==> TookFrom(old(pool.regions), pool.regions, r, i, Low(b.value), Length(b.value))
    {
      ghost var was := pool.regions;
      var chunk;
      chunk, r, i := pool.Alloc(size, 0);
      if chunk.None? {
        return None, 0, 0;
      }
      HeadExtent(was, pool.regions, r, i, Block(chunk.value, size));
      assert RegionOk(was[r]);
      PlainFits(was[r], i, size, 0);
      return Some(Block(chunk.value, size)), r, i;
    }

    /** `_malloc`: the payload has the requested size; fails only when no free run is long enough. */
    method Malloc(n: nat) returns (ptr: Option<nat>)
      requires Valid() && n + 4 <= WORD - 8
      modifies this, pool
      ensures Valid() && Bytes() == old(Bytes()) && SameBounds(old(pool.regions), pool.regions)
      ensures ptr.None? ==> Untouched(old(pool.regions), old(mem), old(live))
      ensures ptr.None? ==> NoneFits(pool.regions, Plain(n + 4, 0), |pool.regions|)
      ensures ptr.Some? ==> 4 <= ptr.value && live == old(live) + [BlockAt(ptr.value, n)]
      ensures ptr.Some? ==> MetAt(old(pool.regions), Plain(n + 4, 0), ptr.value - 4)
      ensures ptr.Some? ==> SamePayloads(old(mem), mem, old(live))
    {
      ghost var was := pool.regions;
      var b, r, i := Take(n + 4);
      ptr := None;
      if b.Some? {
        var p := HandOut(b.value, n, was, r, i);
        ptr := Some(p);
      }
    }

    /** The pointer to the payload of a block just taken from the pool. */
    method HandOut(b: Block, n: nat, ghost was: seq<Region>, ghost r: nat, ghost i: nat) returns (ptr: nat)
      requires PoolOk(was) && pool.Valid() && Bounded(pool.regions, |mem|)
      requires TookFrom(was, pool.regions, r, i, Low(b), Length(b)) && LiveOk(was, mem, live)
      requires b.size == n + 4 && b.addr + b.size < WORD
      modifies this
      ensures Valid() && Bytes() == FreeBytes(was) + BlockBytes(old(live)) && SameBounds(was, pool.regions)
      ensures 4 <= ptr == b.addr + 4 && live == old(live) + [BlockAt(ptr, n)] && SamePayloads(old(mem), mem, old(live))
    {
      ptr := b.addr + 4;
      assert b == BlockAt(ptr, n);
      Install(b, was, r, i);
    }

    /** `lmm_free` on the pool, seen as a block. */
    method Give(b: Block) returns (ghost r: nat, ghost p: nat)
      requires pool.Valid() && InUse(pool.regions, b)
      modifies pool
      ensures pool.Valid() && GaveBack(old(pool.regions), pool.regions, r, p, b)
    {
      r := UseFreeable(pool.regions, b);
      p := pool.Free(b.addr, b.size, r);
    }

    /** `_free`: the size is read back from the prefix; all of the block becomes free again. */
    method Free(ptr: nat, ghost k: nat)
      requires Valid() && k < |live| && ptr == live[k].addr + 4
      modifies this, pool
      ensures Valid() && Bytes() == old(Bytes()) && mem == old(mem) && live == Without(old(live), k)
      ensures SameBounds(old(pool.regions), pool.regions)
    {
      var chunk := ptr - 4;
      PrefixRead(mem, live[k]);
      var b := Block(chunk, LoadWord(mem, chunk));
      assert b == live[k];
      Retire(b, mem, live, k);
      live := Without(live, k);
    }

    /**
      `_memalign`: the pointer is a multiple of the least power of two that is not below the
      alignment; fails only when nothing aligned fits.
     */
    method Memalign(alignment: nat, n: nat) returns (ptr: Option<nat>, ghost q: Request)
      requires Valid() && alignment <= 0x8000_0000 && Room(pool.regions, alignment, n)
      modifies this, pool
      ensures Valid() && Bytes() == old(Bytes()) && SameBounds(old(pool.regions), pool.regions)
      ensures AsksFor(alignment, n, q)
      ensures ptr.None? ==> Untouched(old(pool.regions), old(mem), old(live))
      ensures ptr.None? ==> NoneFits(pool.regions, q, |pool.regions|)
      ensures ptr.Some? ==> 4 <= ptr.value && live == old(live) + [BlockAt(ptr.value, n)]
      ensures ptr.Some? ==> MetAt(old(pool.regions), q, ptr.value - 4) && MultipleOf(ptr.value, q.p)
      ensures ptr.Some? ==> SamePayloads(old(mem), mem, old(live))
    {
      ghost var was := pool.regions;
      var b;
      ghost var r, i;
      b, q, r, i := TakeAligned(alignment, n);
      ptr := None;
      if b.Some? {
        var p := HandOut(b.value, n, was, r, i);
        ptr := Some(p);
        AlignedMet(was, alignment, n, q, r, i, p);
      }
    }

    /** `lmm_alloc_aligned` on the pool, seen as a block. */
    method TakeAt(size: nat, bits: nat, ofs: nat) returns (b: Option<Block>, ghost r: nat, ghost i: nat)
      requires pool.Valid() && Bounded(pool.regions, |mem|) && 0 < size
      requires NoWrap(pool.regions, Request(size, 0, Pow2(bits), ofs, 0, WORD - 1))
      modifies pool
      ensures pool.Valid() && Bounded(pool.regions, |mem|)
      ensures b.None? ==> pool.regions == old(pool.regions)
      ensures b.None? ==> NoneFits(pool.regions, Request(size, 0, Pow2(bits), ofs, 0, WORD - 1), |pool.regions|)
      ensures b.Some? ==> b.value.size == size
      ensures b.Some? ==> FirstFit(old(pool.regions), Request(size, 0, Pow2(bits), ofs, 0, WORD - 1), r, i)
      ensures b.Some? ==>
        b.value.addr == BlockIn(old(pool.regions)[r].nodes[i], Request(size, 0, Pow2(bits), ofs, 0, WORD - 1))
      ensures b.Some? ==> TookFrom(old(pool.regions), pool.regions, r, i, Low(b.value), Length(b.value))
    {
      var chunk;
      chunk, r, i := pool.AllocGen(size, 0, bits, ofs, 0, WORD - 1);
      b := if chunk.None? then None else Some(Block(chunk.value, size));
    }

    /** The shift loop and the aligned allocation. */
    method TakeAligned(alignment: nat, n: nat) returns (b: Option<Block>, ghost q: Request, ghost r: nat, ghost i: nat)
      requires pool.Valid() && Bounded(pool.regions, |mem|)
      requires alignment <= 0x8000_0000 && Room(pool.regions, alignment, n)
      modifies pool
      ensures pool.Valid() && Bounded(pool.regions, |mem|) && AsksFor(alignment, n, q)
      ensures b.None? ==> pool.regions == old(pool.regions)
      ensures b.None? ==> NoneFits(pool.regions, q, |pool.regions|)
      ensures b.Some? ==> b.value.size == n + 4 && b.value.addr + n + 4 < WORD
      ensures b.Some? ==>
        FirstFit(old(pool.regions), q, r, i) && b.value.addr == BlockIn(old(pool.regions)[r].nodes[i], q)
      ensures b.Some? ==> TookFrom(old(pool.regions), pool.regions, r, i, Low(b.value), Length(b.value))
    {
      ghost var was := pool.regions;
      var sh := ShiftFor(alignment);
      q := AlignedRequest(sh, n);
      AlignedNoWrap(was, alignment, sh, n);
      b, r, i := TakeAt(n + 4, sh, AlignOffset(Pow2(sh)));
      if b.Some? {
        AlignedFound(was, r, i, sh, n, b.value.addr);
      }
    }

    /**
      `_realloc`: the payload keeps its first bytes, as many as the old and the new one have in
      common; when it fails, nothing has changed.  A null pointer asks for a new block.
     */
    method Realloc(ptr: nat, n: nat, ghost k: nat) returns (ptr': Option<nat>)
      requires Valid() && n + 4 <= WORD - 8
      requires ptr != 0 ==> k < |live| && ptr == live[k].addr + 4
      modifies this, pool
      ensures Valid() && Bytes() == old(Bytes()) && SameBounds(old(pool.regions), pool.regions)
      ensures ptr'.None? ==> Untouched(old(pool.regions), old(mem), old(live))
      ensures ptr'.None? ==> NoneFits(pool.regions, Plain(n + 4, 0), |pool.regions|)
      ensures ptr'.Some? ==> 4 <= ptr'.value && MetAt(old(pool.regions), Plain(n + 4, 0), ptr'.value - 4)
      ensures ptr'.Some? && ptr == 0 ==> 4 <= ptr'.value && live == old(live) + [BlockAt(ptr'.value, n)]
      ensures ptr'.Some? && ptr == 0 ==> SamePayloads(old(mem), mem, old(live))
      ensures ptr'.Some? && ptr != 0 ==> 4 <= ptr'.value && live == Without(old(live), k) + [BlockAt(ptr'.value, n)]
      ensures ptr'.Some? && ptr != 0 ==> SamePayloads(old(mem), mem, Without(old(live), k))
      ensures ptr'.Some? && ptr != 0 ==> KeepsFront(old(mem), mem, old(live)[k], BlockAt(ptr'.value, n))
    {
      if ptr == 0 {
        ptr' := Malloc(n);
      } else {
        ptr' := Resize(ptr, n, k);
      }
    }

    method Resize(ptr: nat, n: nat, ghost k: nat) returns (ptr': Option<nat>)
      requires Valid() && n + 4 <= WORD - 8
      requires k < |live| && ptr == live[k].addr + 4
      modifies this, pool
      ensures Valid() && Bytes() == old(Bytes()) && SameBounds(old(pool.regions), pool.regions)
      ensures ptr'.None? ==> Untouched(old(pool.regions), old(mem), old(live))
      ensures ptr'.None? ==> NoneFits(pool.regions, Plain(n + 4, 0), |pool.regions|)
      ensures ptr'.Some? ==> 4 <= ptr'.value && MetAt(old(pool.regions), Plain(n + 4, 0), ptr'.value - 4)
      ensures ptr'.Some? ==> 4 <= ptr'.value && live == Without(old(live), k) + [BlockAt(ptr'.value, n)]
      ensures ptr'.Some? ==> SamePayloads(old(mem), mem, Without(old(live), k))
      ensures ptr'.Some? ==> KeepsFront(old(mem), mem, old(live)[k], BlockAt(ptr'.value, n))
    {
      ghost var was := pool.regions;
      var op := ptr - 4;
      PrefixRead(mem, live[k]);
      var oldSize := LoadWord(mem, op);
      assert Block(op, oldSize) == live[k];
      var b, r, i := Take(n + 4);
      ptr' := None;
      if b.Some? {
        ptr' := Some(b.value.addr + 4);
        assert b.value == BlockAt(ptr'.value, n);
        MovePlan(was, pool.regions, r, i, mem, live, k, b.value);
        WithoutAppend(live, k, b.value);
        TookBytes(was, pool.regions, r, i, live, b.value);
        Move(b.value, Block(op, oldSize), live + [b.value], k);
      }
    }

    /** Copy, free the old block, store the prefix of the new one. */
    method Move(b: Block, a: Block, ghost live1: seq<Block>, ghost k: nat)
      requires pool.Valid() && Bounded(pool.regions, |mem|) && k < |live1| && a == live1[k]
      requires 4 <= b.size < WORD && a.addr + a.size <= |mem| && b.addr + b.size <= |mem|
      requires LiveOk(pool.regions, Moved(mem, a, b), live1)
      modifies this, pool
      ensures Valid() && mem == Moved(old(mem), a, b) && live == Without(live1, k)
      ensures Bytes() == old(FreeBytes(pool.regions)) + BlockBytes(live1) && SameBounds(old(pool.regions), pool.regions)
    {
      ghost var taken, mem2 := pool.regions, Moved(mem, a, b);
      var mem1 := CopyBytes(mem, a.addr, b.addr, if a.size < b.size then a.size else b.size);
      Retire(a, mem2, live1, k);
      BoundedSame(taken, pool.regions, |mem2|);
      Become(StoreWord(mem1, b.addr, b.size), Without(live1, k));
    }

    method Become(mem': seq<Byte>, ghost live': seq<Block>)
      requires pool.Valid() && Bounded(pool.regions, |mem'|) && LiveOk(pool.regions, mem', live')
      modifies this
      ensures Valid() && mem == mem' && live == live'
    {
      mem := mem';
      live := live';
    }

    /** Give back a block while memory and the live blocks are about to become mem2 and live1 without it. */
    method Retire(a: Block, ghost mem2: seq<Byte>, ghost live1: seq<Block>, ghost k: nat)
      requires pool.Valid() && k < |live1| && a == live1[k] && LiveOk(pool.regions, mem2, live1)
      modifies pool
      ensures pool.Valid() && LiveOk(pool.regions, mem2, Without(live1, k))
      ensures SameBounds(old(pool.regions), pool.regions)
      ensures FreeBytes(pool.regions) + BlockBytes(Without(live1, k))
           == old(FreeBytes(pool.regions)) + BlockBytes(live1)
    {
      ghost var taken := pool.regions;
      var r, p := Give(a);
      DropBlock(taken, pool.regions, r, p, mem2, live1, k);
      DropBytes(taken, pool.regions, r, p, live1, k);
    }

    /** The caller of `_malloc` writes to a byte of its block. */
    method Poke(addr: nat, x: Byte, ghost k: nat)
      requires Valid() && k < |live| && live[k].addr + 4 <= addr < live[k].addr + live[k].size
      modifies this
      ensures Valid() && live == old(live) && addr < |old(mem)| && mem == old(mem)[addr := x]
    {
      InUseBound(pool.regions, live[k], |mem|);
      PokeKeeps(pool.regions, mem, live, k, addr, x);
      mem := mem[addr := x];
    }

    /** Nothing has changed. */
    ghost predicate Untouched(was: seq<Region>, mem0: seq<Byte>, live0: seq<Block>)
      reads this, pool
    {
      pool.regions == was && mem == mem0 && live == live0
    }
  }

  /** The pool after the block was freed. */
  predicate GaveBack(was: seq<Region>, now: seq<Region>, r: nat, p: nat, b: Block) {
    && r < |was| && Freeable(was[r].nodes, Low(b), Length(b), was[r].min, was[r].max)
    && PutInto(was, now, r, p, Low(b), Length(b))
  }

  function Without(bs: seq<Block>, k: nat): seq<Block>
    requires k < |bs|
  {
    bs[..k] + bs[k + 1..]
  }

  lemma WithoutAt(bs: seq<Block>, k: nat)
    requires k < |bs|
    ensures var r := Without(bs, k);
      |r| == |bs| - 1 && forall i :: 0 <= i < |r| ==> r[i] == bs[if i < k then i else i + 1]
  {
  }

  lemma PrefixRead(mem: seq<Byte>, b: Block)
    requires Prefixed(mem, b)
    ensures LoadWord(mem, b.addr) == b.size
  {
    WordRoundTrip(b.size);
  }

  /** A freed block leaves the others as they were. */
  lemma DropBlock(was: seq<Region>, now: seq<Region>, r: nat, p: nat, mem: seq<Byte>, live: seq<Block>, k: nat)
    requires PoolOk(was) && k < |live| && LiveOk(was, mem, live) && GaveBack(was, now, r, p, live[k])
    ensures LiveOk(now, mem, Without(live, k)) && SameBounds(was, now)
  {
    var rest := Without(live, k);
    WithoutAt(live, k);
    forall i | 0 <= i < |rest| ensures InUse(now, rest[i]) && Prefixed(mem, rest[i]) {
      var j := if i < k then i else i + 1;
      assert BlockApart(live[j], live[k]);
      PutKeeps(was, now, r, p, Low(live[k]), Length(live[k]), live[j]);
    }
  }

  lemma DropBytes(was: seq<Region>, now: seq<Region>, r: nat, p: nat, live: seq<Block>, k: nat)
    requires k < |live| && GaveBack(was, now, r, p, live[k])
    ensures FreeBytes(now) + BlockBytes(Without(live, k)) == FreeBytes(was) + BlockBytes(live)
  {
    FreeUpdate(was, r, now[r]);
    BytesWithout(live, k);
  }

  lemma PokeKeeps(rs: seq<Region>, mem: seq<Byte>, live: seq<Block>, k: nat, addr: nat, x: Byte)
    requires LiveOk(rs, mem, live) && k < |live| && live[k].addr + 4 <= addr < live[k].addr + live[k].size
    requires addr < |mem|
    ensures LiveOk(rs, mem[addr := x], live)
  {
    InsideExtent(live[k]);
    forall i | 0 <= i < |live| ensures Prefixed(mem[addr := x], live[i]) {
      var b := live[i];
      InsideExtent(b);
      assert i != k ==> BlockApart(b, live[k]);
      assert mem[addr := x][b.addr..b.addr + 4] == mem[b.addr..b.addr + 4];
    }
  }

  // ---------------------------------------------------------------- aligned blocks

  /** The least shift that reaches the alignment. */
  predicate IsShift(alignment: nat, shift: nat) {
    shift <= 31 && alignment <= Pow2(shift) && (shift > 0 ==> Pow2(shift - 1) < alignment)
  }

  method ShiftFor(alignment: nat) returns (shift: nat)
    requires alignment <= 0x8000_0000
    ensures IsShift(alignment, shift)
  {
    shift := 0;
    var p := 1;
    PowLimit();
    while p < alignment
      invariant p == Pow2(shift) && shift <= 31 && (shift > 0 ==> Pow2(shift - 1) < alignment)
      decreases 31 - shift
    {
      if shift == 31 {
        assert false;
      }
      shift := shift + 1;
      p := 2 * p;
    }
  }

  lemma PowLimit()
    ensures Pow2(31) == 0x8000_0000
  {
    assert Pow2(8) == 0x100 by {
      assert Pow2(4) == 16;
    }
    assert Pow2(12) == 0x1000;
    assert Pow2(16) == 0x1_0000;
    assert Pow2(20) == 0x10_0000;
    assert Pow2(24) == 0x100_0000;
    assert Pow2(28) == 0x1000_0000;
  }

  /** (1 << shift) - sizeof(size_t) as an unsigned word. */
  function AlignOffset(p: nat): nat {
    if p >= 4 then p - 4 else WORD + p - 4
  }

  function AlignedRequest(shift: nat, n: nat): Request {
    Request(n + 4, 0, Pow2(shift), AlignOffset(Pow2(shift)), 0, WORD - 1)
  }

  /** The address arithmetic stays below 2^32. */
  predicate Room(rs: seq<Region>, alignment: nat, n: nat) {
    && n + 4 < WORD
    && forall r :: 0 <= r < |rs| ==> rs[r].max + 2 * alignment + 1 + n + 4 < WORD
  }

  lemma AlignedNoWrap(rs: seq<Region>, alignment: nat, shift: nat, n: nat)
    requires PoolOk(rs) && Room(rs, alignment, n) && IsShift(alignment, shift)
    ensures NoWrap(rs, AlignedRequest(shift, n))
  {
    var q := AlignedRequest(shift, n);
    assert q.p <= 2 * alignment + 1;
    forall k, i | 0 <= k < |rs| && 0 <= i < |rs[k].nodes| ensures NodeNoWrap(rs[k].nodes[i], q) {
      assert RegionOk(rs[k]);
      assert NodeOk(rs[k].nodes[i], rs[k].min, rs[k].max);
    }
  }

  /** Taking p away again and again leaves nothing. */
  predicate MultipleOf(x: nat, p: nat)
    requires p > 0
    decreases x
  {
    x == 0 || (p <= x && MultipleOf(x - p, p))
  }

  lemma {:induction false} MultipleIff(x: nat, p: nat)
    requires p > 0
    ensures MultipleOf(x, p) <==> x % p == 0
    decreases x
  {
    if p <= x {
      MultipleIff(x - p, p);
      var q, r := x / p, x % p;
      assert x == q * p + r;
      Distribute(q, q - 1, 1, p);
      DivideBy(x - p, p, q - 1, r);
    } else {
      DivideBy(x, p, 0, x);
    }
  }

  lemma AlignedPointer(a: nat, p: nat)
    requires p > 0 && (p < 4 ==> p == 1 || p == 2) && a % p == AlignOffset(p) % p
    ensures (a + 4) % p == 0
  {
    if p >= 4 {
      assert AlignOffset(p) % p == p - 4 by {
        DivideBy(p - 4, p, 0, p - 4);
      }
      var q := a / p;
      assert a == q * p + (p - 4);
      assert a + 4 == (q + 1) * p;
      DivideBy(a + 4, p, q + 1, 0);
    }
  }

  lemma SmallPower(shift: nat)
    ensures Pow2(shift) < 4 ==> Pow2(shift) == 1 || Pow2(shift) == 2
  {
    if shift >= 2 {
      assert Pow2(shift) == 2 * (2 * Pow2(shift - 2));
    }
  }

  lemma AlignedFound(was: seq<Region>, r: nat, i: nat, shift: nat, n: nat, a: nat)
    requires PoolOk(was) && FirstFit(was, AlignedRequest(shift, n), r, i)
    requires a == BlockIn(was[r].nodes[i], AlignedRequest(shift, n))
    ensures a + n + 4 < WORD && MultipleOf(a + 4, Pow2(shift))
  {
    SmallPower(shift);
    AlignedPointer(a, Pow2(shift));
    MultipleIff(a + 4, Pow2(shift));
  }

  lemma AlignedMet(was: seq<Region>, alignment: nat, n: nat, q: Request, r: nat, i: nat, ptr: nat)
    requires PoolOk(was) && AsksFor(alignment, n, q) && FirstFit(was, q, r, i)
    requires 4 <= ptr && ptr - 4 == BlockIn(was[r].nodes[i], q)
    ensures MetAt(was, q, ptr - 4) && MultipleOf(ptr, q.p)
  {
    var shift :| IsShift(alignment, shift) && q == AlignedRequest(shift, n);
    AlignedFound(was, r, i, shift, n, ptr - 4);
  }

  // ---------------------------------------------------------------- copying

  /** memcpy of m bytes from `from` to `to`, which do not overlap. */
  function CopyBytes(mem: seq<Byte>, from: nat, to: nat, m: nat): (r: seq<Byte>)
    requires from + m <= |mem| && to + m <= |mem|
    ensures |r| == |mem|
  {
    mem[..to] + mem[from..from + m] + mem[to + m..]
  }

  /** The bytes that the old payload a and the new payload b have in common are the same. */
  predicate KeepsFront(was: seq<Byte>, now: seq<Byte>, a: Block, b: Block) {
    && 4 <= a.size && 4 <= b.size && a.addr + a.size <= |was| && b.addr + b.size <= |now|
    && var m := if a.size < b.size then a.size - 4 else b.size - 4;
      Payload(now, b)[..m] == Payload(was, a)[..m]
  }

  lemma MoveBounds(was: seq<Region>, now: seq<Region>, r: nat, i: nat, mem: seq<Byte>, live: seq<Block>, k: nat,
                   b: Block)
    requires PoolOk(was) && TookFrom(was, now, r, i, Low(b), Length(b)) && LiveOk(was, mem, live)
    requires Bounded(now, |mem|) && 4 <= b.size && b.addr + b.size < WORD && k < |live|
    ensures b.addr + b.size <= |mem| && InUse(now, live[k]) && live[k].addr + live[k].size <= |mem|
  {
    TookNew(was, now, r, i, b);
    InUseBound(now, b, |mem|);
    TookKeeps(was, now, r, i, Low(b), Length(b), live[k]);
    InUseBound(now, live[k], |mem|);
  }

  /** The copy goes into the new block only. */
  lemma CopyKeeps(was: seq<Region>, now: seq<Region>, r: nat, i: nat, mem: seq<Byte>, live: seq<Block>, k: nat,
                  b: Block)
    requires PoolOk(was) && TookFrom(was, now, r, i, Low(b), Length(b)) && LiveOk(was, mem, live)
    requires 4 <= b.size && b.addr + b.size < WORD && k < |live|
    requires b.addr + b.size <= |mem| && live[k].addr + live[k].size <= |mem|
    ensures var mem' := CopyBytes(mem, live[k].addr, b.addr, if live[k].size < b.size then live[k].size else b.size);
      LiveOk(was, mem', live) && SamePayloads(mem, mem', live)
  {
    var m := if live[k].size < b.size then live[k].size else b.size;
    var mem' := CopyBytes(mem, live[k].addr, b.addr, m);
    forall j | 0 <= j < |live|
      ensures Prefixed(mem', live[j]) && Payload(mem', live[j]) == Payload(mem, live[j])
    {
      TookKeeps(was, now, r, i, Low(b), Length(b), live[j]);
      CopyOutside(mem, mem', live[k].addr, b, m, live[j]);
    }
  }

  lemma CopyOutside(mem: seq<Byte>, mem': seq<Byte>, from: nat, b: Block, m: nat, c: Block)
    requires 0 < b.size && m <= b.size && b.addr + b.size <= |mem| && from + m <= |mem| && Prefixed(mem, c)
    requires mem' == CopyBytes(mem, from, b.addr, m) && BlockApart(c, b)
    ensures Prefixed(mem', c) && Payload(mem', c) == Payload(mem, c)
  {
    InsideExtent(b);
    InsideExtent(c);
    assert forall x :: 0 <= x < |mem| && !(b.addr <= x < b.addr + m) ==> mem'[x] == mem[x];
    assert mem'[c.addr..c.addr + 4] == mem[c.addr..c.addr + 4];
  }

  lemma MoveResult(mem: seq<Byte>, mem1: seq<Byte>, mem2: seq<Byte>, live: seq<Block>, k: nat, b: Block)
    requires k < |live| && 4 <= b.size < WORD && b.addr + b.size <= |mem|
    requires 4 <= live[k].size && live[k].addr + live[k].size <= |mem|
    requires mem1 == CopyBytes(mem, live[k].addr, b.addr, if live[k].size < b.size then live[k].size else b.size)
    requires mem2 == StoreWord(mem1, b.addr, b.size)
    requires SamePayloads(mem, mem1, live) && SamePayloads(mem1, mem2, live)
    ensures SamePayloads(mem, mem2, Without(live, k)) && KeepsFront(mem, mem2, live[k], b)
  {
    WithoutAt(live, k);
    var a := live[k];
    var m := if a.size < b.size then a.size - 4 else b.size - 4;
    forall x | 0 <= x < m ensures Payload(mem2, b)[..m][x] == Payload(mem, a)[..m][x] {
      FrontByte(mem, a.addr, b, if a.size < b.size then a.size else b.size, x);
    }
  }

  /** The copy, and the prefix stored over its first four bytes. */
  lemma FrontByte(mem: seq<Byte>, from: nat, b: Block, m: nat, x: nat)
    requires 4 <= m <= b.size < WORD && from + m <= |mem| && b.addr + b.size <= |mem| && x + 4 < m
    ensures StoreWord(CopyBytes(mem, from, b.addr, m), b.addr, b.size)[b.addr + 4 + x] == mem[from + 4 + x]
  {
    var y := b.addr + 4 + x;
    assert StoreWord(CopyBytes(mem, from, b.addr, m), b.addr, b.size)[y] == CopyBytes(mem, from, b.addr, m)[y];
    assert CopyBytes(mem, from, b.addr, m)[y] == mem[from + (y - b.addr)];
  }

  function Moved(mem: seq<Byte>, a: Block, b: Block): seq<Byte>
    requires 4 <= b.size < WORD && a.addr + a.size <= |mem| && b.addr + b.size <= |mem|
  {
    StoreWord(CopyBytes(mem, a.addr, b.addr, if a.size < b.size then a.size else b.size), b.addr, b.size)
  }

  lemma WithoutAppend(live: seq<Block>, k: nat, b: Block)
    requires k < |live|
    ensures (live + [b])[k] == live[k] && Without(live + [b], k) == Without(live, k) + [b]
  {
  }

  /** What the copy and the store of the prefix achieve before the old block is gone. */
  lemma MovePlan(was: seq<Region>, now: seq<Region>, r: nat, i: nat, mem: seq<Byte>, live: seq<Block>, k: nat, b: Block)
    requires PoolOk(was) && TookFrom(was, now, r, i, Low(b), Length(b)) && LiveOk(was, mem, live)
    requires Bounded(now, |mem|) && 4 <= b.size && b.addr + b.size < WORD && k < |live|
    ensures b.addr + b.size <= |mem| && live[k].addr + live[k].size <= |mem| && InUse(now, live[k])
    ensures var mem2 := Moved(mem, live[k], b);
      && LiveOk(now, mem2, live + [b]) && SamePayloads(mem, mem2, Without(live, k)) && KeepsFront(mem, mem2, live[k], b)
  {
    MoveBounds(was, now, r, i, mem, live, k, b);
    var mem1 := CopyBytes(mem, live[k].addr, b.addr, if live[k].size < b.size then live[k].size else b.size);
    var mem2 := StoreWord(mem1, b.addr, b.size);
    assert mem2 == Moved(mem, live[k], b);
    CopyKeeps(was, now, r, i, mem, live, k, b);
    AddBlock(was, now, r, i, mem1, mem2, live, b);
    MoveResult(mem, mem1, mem2, live, k, b);
  }

  /** A block at the head of a node is 8-aligned and ends inside the address space. */
  lemma HeadExtent(was: seq<Region>, now: seq<Region>, r: nat, i: nat, b: Block)
    requires PoolOk(was) && TookFrom(was, now, r, i, b.addr, RoundUp(b.size)) && 0 < b.size
    ensures Low(b) == b.addr && Length(b) == RoundUp(b.size) && b.addr + b.size < WORD
  {
    assert RegionOk(was[r]);
    assert NodeOk(was[r].nodes[i], was[r].min, was[r].max);
  }
}
