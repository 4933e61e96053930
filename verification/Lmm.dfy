/**
  The list memory manager of 410kern/lmm: first fit over the regions of a pool, with and
  without alignment and range constraints, freeing with coalescing, and the search for and the
  removal of free memory.  Addresses are natural numbers; where the source's 32-bit arithmetic
  could wrap, a precondition rules it out.
 */
module Lmm {
  import opened Arithmetic
  import opened FreeList
  import opened Flags
  import opened Options

  const WORD: nat := 0x1_0000_0000

  datatype Region = Region(min: nat, max: nat, flags: bv32, nodes: seq<Node>, free: nat)

  predicate RegionOk(r: Region) {
    && Aligned(r.min) && Aligned(r.max) && 0 < r.min < r.max < WORD
    && ListOk(r.nodes, r.min, r.max) && r.free == Sum(r.nodes)
  }

  predicate Disjoint(rs: seq<Region>) {
    forall i, j :: 0 <= i < |rs| && 0 <= j < |rs| && i != j ==> rs[i].max <= rs[j].min || rs[j].max <= rs[i].min
  }

  predicate PoolOk(rs: seq<Region>) {
    (forall i :: 0 <= i < |rs| ==> RegionOk(rs[i])) && Disjoint(rs)
  }

  /** The regions are where they were. */
  predicate SameBounds(was: seq<Region>, now: seq<Region>) {
    |was| == |now| && forall r :: 0 <= r < |was| ==> now[r].min == was[r].min && now[r].max == was[r].max
  }

  /** Byte x is free somewhere in the pool. */
  predicate PoolFree(rs: seq<Region>, x: int) {
    exists r :: 0 <= r < |rs| && InFree(rs[r].nodes, x)
  }

  /** Every flag asked for is a flag of the region. */
  ghost predicate Eligible(r: Region, flags: bv32) {
    Includes(r.flags, flags)
  }

  /** Who asks for no flags may have memory of every region. */
  lemma NoFlags(r: Region)
    ensures Eligible(r, 0)
  {
    MaskTest(0, r.flags);
  }

  /** The test of `lmm_alloc` and `lmm_alloc_gen`. */
  lemma FlagTest(r: Region, flags: bv32)
    ensures flags & !r.flags == 0 <==> Eligible(r, flags)
  {
    MaskTest(flags, r.flags);
  }

  function RoundDown(x: nat): (r: nat)
    ensures Aligned(r) && r <= x < r + 8
  {
    x - x % 8
  }

  function RoundUp(x: nat): (r: nat)
    ensures Aligned(r) && x <= r < x + 8
  {
    RoundDown(x + 7)
  }

  /** Region r after lo .. lo + len - 1 is taken out of its node i. */
  function Carved(r: Region, i: nat, lo: nat, len: nat): Region
    requires i < |r.nodes| && len <= r.free
  {
    r.(nodes := Carve(r.nodes, i, lo, len), free := r.free - len)
  }

  /** The pool after that. */
  predicate TookFrom(was: seq<Region>, now: seq<Region>, r: nat, i: nat, lo: nat, len: nat) {
    && r < |was| && i < |was[r].nodes| && Within(was[r].nodes[i], lo, len) && len <= was[r].free
    && now == was[r := Carved(was[r], i, lo, len)]
  }

  lemma CarvedOk(r: Region, i: nat, lo: nat, len: nat)
    requires RegionOk(r) && i < |r.nodes| && Within(r.nodes[i], lo, len)
    ensures len <= r.free && RegionOk(Carved(r, i, lo, len))
  {
    CarveSum(r.nodes, i, lo, len);
    CarveOk(r.nodes, i, lo, len, r.min, r.max);
  }

  lemma TookOk(was: seq<Region>, now: seq<Region>, r: nat, i: nat, lo: nat, len: nat)
    requires PoolOk(was) && TookFrom(was, now, r, i, lo, len)
    ensures PoolOk(now)
  {
    CarvedOk(was[r], i, lo, len);
  }

  /** Exactly the bytes taken are no longer free, and they were free before. */
  lemma TookFree(was: seq<Region>, now: seq<Region>, r: nat, i: nat, lo: nat, len: nat, x: int)
    requires PoolOk(was) && TookFrom(was, now, r, i, lo, len)
    ensures PoolFree(now, x) <==> PoolFree(was, x) && !(lo <= x < lo + len)
    ensures lo <= x < lo + len ==> PoolFree(was, x)
  {
    assert RegionOk(was[r]);
    CarveFree(was[r].nodes, i, lo, len, was[r].min, was[r].max, x);
    if lo <= x < lo + len {
      assert Covers(was[r].nodes[i], x);
      assert InFree(was[r].nodes, x);
      forall k | 0 <= k < |was| && k != r ensures !InFree(was[k].nodes, x) {
        assert RegionOk(was[k]);
        OutsideRegion(was[k], x);
        assert NodeOk(was[r].nodes[i], was[r].min, was[r].max);
      }
    }
    forall k | 0 <= k < |was| && k != r ensures now[k] == was[k] {
    }
    if PoolFree(was, x) && !(lo <= x < lo + len) {
      var k :| 0 <= k < |was| && InFree(was[k].nodes, x);
      assert InFree(now[k].nodes, x);
    }
    if PoolFree(now, x) {
      var k :| 0 <= k < |now| && InFree(now[k].nodes, x);
      assert InFree(was[k].nodes, x);
    }
  }

  lemma OutsideRegion(r: Region, x: int)
    requires RegionOk(r)
    ensures InFree(r.nodes, x) ==> r.min <= x < r.max
  {
    if InFree(r.nodes, x) {
      var i :| 0 <= i < |r.nodes| && Covers(r.nodes[i], x);
      assert NodeOk(r.nodes[i], r.min, r.max);
    }
  }

  // ---------------------------------------------------------------- the alignment loop

  function Pow2(n: nat): (r: nat)
    ensures r > 0
  {
    if n == 0 then 1 else 2 * Pow2(n - 1)
  }

  lemma Twice(h: int, h2: int, p: int, p2: int)
    requires h2 == 2 * h && p2 == 2 * p
    ensures h2 * p == h * p2
  {
  }

  /** Quotient and remainder by `bit`, and by twice as much. */
  lemma Halve(x: int, a: int, bit: int, e: int)
    requires x == a * bit + e && 0 <= e < bit
    ensures var rem := e + (if a % 2 == 0 then 0 else bit);
      x == (a / 2) * (2 * bit) + rem && 0 <= rem < 2 * bit
  {
    var h, c := a / 2, a % 2;
    var h2, bit2 := 2 * h, 2 * bit;
    Distribute(a, h2, c, bit);
    Twice(h, h2, bit, bit2);
    assert c == 0 || c == 1;
    assert c * bit == if c == 0 then 0 else bit;
  }

  lemma Congruent(a: int, b: int, p: int)
    requires p > 0 && a % p == b % p && b <= a
    ensures a == b || b + p <= a
  {
    var d := a / p - b / p;
    assert a == (a / p) * p + a % p && b == (b / p) * p + b % p;
    Distribute(a / p, b / p, d, p);
    assert d * p == a - b;
    if d > 0 {
      Monotone(1, d, p);
    } else if d < 0 {
      Monotone(d, -1, p);
    }
  }

  /** The least address from `addr` on that agrees with the offset. */
  function Target(addr: nat, p: nat, ofs: nat): (r: nat)
    requires p > 0
    ensures addr <= r < addr + p && r % p == ofs % p
  {
    Shifted(addr, p, ofs);
    addr + (ofs - addr) % p
  }

  lemma Shifted(addr: nat, p: nat, ofs: nat)
    requires p > 0
    ensures (addr + (ofs - addr) % p) % p == ofs % p
  {
    var d := ofs - addr;
    var q := d / p;
    assert d == q * p + d % p;
    var x := addr + d % p;
    assert x == ofs - q * p;
    var e := ofs / p - q;
    Distribute(ofs / p, q, e, p);
    assert x == e * p + ofs % p;
    DivideBy(x, p, e, ofs % p);
  }

  /** No smaller address agrees with the offset. */
  lemma TargetLeast(addr: nat, p: nat, ofs: nat, r: nat)
    requires p > 0 && addr <= r && r % p == ofs % p
    ensures Target(addr, p, ofs) <= r
    ensures r < addr + p ==> r == Target(addr, p, ofs)
  {
    var t := Target(addr, p, ofs);
    if r < t {
      Congruent(t, r, p);
    } else {
      Congruent(r, t, p);
    }
  }

  lemma TargetMonotone(a: nat, b: nat, p: nat, ofs: nat)
    requires p > 0 && a <= b
    ensures Target(a, p, ofs) <= Target(b, p, ofs)
  {
    TargetLeast(a, p, ofs, Target(b, p, ofs));
  }

  /** r and ofs leave the remainder e by `bit`, with quotients a and b. */
  ghost predicate AgreeBelow(r: int, ofs: int, bit: int, a: int, b: int, e: int) {
    r == a * bit + e && ofs == b * bit + e && 0 <= e < bit
  }

  lemma BitOf(r: int, ofs: int, bit: int, a: int, b: int, e: int)
    requires AgreeBelow(r, ofs, bit, a, b, e)
    ensures r / bit == a && ofs / bit == b && r % bit == ofs % bit == e
  {
    DivideBy(r, bit, a, e);
    DivideBy(ofs, bit, b, e);
  }

  /** Once the bits of r and ofs agree at `bit`, they agree below twice as much. */
  lemma AgreeMore(r: int, ofs: int, bit: int, a: int, b: int, e: int)
    requires AgreeBelow(r, ofs, bit, a, b, e) && a % 2 == b % 2
    ensures AgreeBelow(r, ofs, 2 * bit, a / 2, b / 2, e + (if a % 2 == 0 then 0 else bit))
  {
    Halve(r, a, bit, e);
    Halve(ofs, b, bit, e);
  }

  lemma AddBit(r: int, bit: int, a: int, e: int)
    requires r == a * bit + e
    ensures r + bit == (a + 1) * bit + e
  {
  }

  /** One round of the loop over the alignment bits. */
  method AlignBit(r: nat, ofs: nat, bit: nat, ghost a: int, ghost b: int, ghost e: int)
    returns (r': nat, ghost a': int, ghost b': int, ghost e': int)
    requires bit > 0 && AgreeBelow(r, ofs, bit, a, b, e)
    ensures AgreeBelow(r', ofs, 2 * bit, a', b', e') && r <= r' <= r + bit
  {
    BitOf(r, ofs, bit, a, b, e);
    r', a', b', e' := r, a, b, e;
    if (r / bit) % 2 != (ofs / bit) % 2 {
      AddBit(r, bit, a, e);
      r', a' := r + bit, a + 1;
    }
    AgreeMore(r', ofs, bit, a', b, e);
    a', b', e' := a' / 2, b / 2, e + (if a' % 2 == 0 then 0 else bit);
  }

  /** The loop over the alignment bits. */
  method AlignUp(addr: nat, bits: nat, ofs: nat) returns (r: nat)
    ensures r == Target(addr, Pow2(bits), ofs)
  {
    r := addr;
    var bit: nat := 1;
    ghost var a, b, e := addr, ofs, 0;
    for i := 0 to bits
      invariant bit == Pow2(i)
      invariant addr <= r < addr + bit && AgreeBelow(r, ofs, bit, a, b, e)
    {
      r, a, b, e := AlignBit(r, ofs, bit, a, b, e);
      bit := 2 * bit;
    }
    BitOf(r, ofs, bit, a, b, e);
    TargetLeast(addr, bit, ofs, r);
  }

  // ---------------------------------------------------------------- allocation

  /** What `lmm_alloc_gen` asks of a node: an aligned block of `size` bytes inside it and inside the range. */
  datatype Request = Request(size: nat, flags: bv32, p: nat, ofs: nat, inMin: nat, inMax: nat)

  function BlockIn(n: Node, q: Request): nat
    requires q.p > 0
  {
    Target(if n.addr < q.inMin then q.inMin else n.addr, q.p, q.ofs)
  }

  predicate FitsIn(n: Node, q: Request)
    requires q.p > 0
  {
    BlockIn(n, q) + q.size <= End(n) && BlockIn(n, q) + q.size <= q.inMax
  }

  /** No node of region r before `i` fits. */
  predicate NoneBefore(r: Region, q: Request, i: nat)
    requires q.p > 0
  {
    i <= |r.nodes| && forall k :: 0 <= k < i ==> !FitsIn(r.nodes[k], q)
  }

  /** Once a block would pass the end of the range, so would every later one: the early break. */
  lemma LaterPass(r: Region, q: Request, i: nat, k: nat)
    requires RegionOk(r) && q.p > 0 && i <= k < |r.nodes| && BlockIn(r.nodes[i], q) + q.size > q.inMax
    ensures !FitsIn(r.nodes[k], q)
  {
    var a, b := r.nodes[i], r.nodes[k];
    assert a.addr <= b.addr;
    TargetMonotone(if a.addr < q.inMin then q.inMin else a.addr,
                   if b.addr < q.inMin then q.inMin else b.addr, q.p, q.ofs);
  }

  /** A region out of the range has no node that fits. */
  lemma OutOfRange(r: Region, q: Request, k: nat)
    requires RegionOk(r) && q.p > 0 && q.size > 0 && k < |r.nodes| && (r.min >= q.inMax || r.max <= q.inMin)
    ensures !FitsIn(r.nodes[k], q)
  {
    assert NodeOk(r.nodes[k], r.min, r.max);
  }

  /** The 8-aligned bytes that an allocation of `size` bytes at `addr` takes. */
  function Extent(addr: nat, size: nat): (len: nat)
    ensures Aligned(len)
  {
    RoundUp(addr % 8 + size)
  }

  lemma ExtentWithin(n: Node, addr: nat, size: nat, min: nat, max: nat)
    requires NodeOk(n, min, max) && n.addr <= addr && addr + size <= End(n) && 0 < size
    ensures Within(n, RoundDown(addr), Extent(addr, size))
    ensures RoundDown(addr) <= addr && addr + size <= RoundDown(addr) + Extent(addr, size)
  {
    var lo, len := RoundDown(addr), Extent(addr, size);
    if lo < n.addr {
      AlignedStep(lo, n.addr);
    }
    AlignedSum(lo, len);
    AlignedSum(n.addr, n.size);
    if End(n) < lo + len {
      AlignedStep(End(n), lo + len);
    }
  }

  /** The search of one region. */
  method SearchRegion(r: Region, q: Request, bits: nat) returns (found: Option<nat>)
    requires RegionOk(r) && q.p == Pow2(bits) && q.size > 0
    ensures found.Some? ==> found.value < |r.nodes| && FitsIn(r.nodes[found.value], q) && NoneBefore(r, q, found.value)
    ensures found.None? ==> NoneBefore(r, q, |r.nodes|)
  {
    for i := 0 to |r.nodes|
      invariant NoneBefore(r, q, i)
    {
      var n := r.nodes[i];
      if n.size < q.size {
        continue;
      }
      var addr := AlignUp(if n.addr < q.inMin then q.inMin else n.addr, bits, q.ofs);
      if addr - n.addr + q.size > n.size {
        continue;
      }
      if addr + q.size > q.inMax {
        forall k | i <= k < |r.nodes| ensures !FitsIn(r.nodes[k], q) {
          LaterPass(r, q, i, k);
        }
        return None;
      }
      return Some(i);
    }
    return None;
  }

  /** Split node i before and after the block and take the block out, in two steps as `lmm_alloc_gen` does. */
  method SplitList(ns: seq<Node>, i: nat, lo: nat, len: nat) returns (nodes: seq<Node>)
    requires i < |ns| && ns[i].addr <= lo && lo + len <= End(ns[i])
    ensures nodes == Carve(ns, i, lo, len)
  {
    var n := ns[i];
    var at, anode := i, n;
    nodes := ns;
    if lo > n.addr {
      anode := Node(lo, End(n) - lo);
      nodes := nodes[..i] + [Node(n.addr, lo - n.addr), anode] + nodes[i + 1..];
      at := i + 1;
    }
    if anode.size > len {
      nodes := nodes[at := Node(lo + len, anode.size - len)];
    } else {
      nodes := nodes[..at] + nodes[at + 1..];
    }
  }

  method SplitNode(r: Region, i: nat, addr: nat, size: nat) returns (r': Region)
    requires RegionOk(r) && i < |r.nodes| && 0 < size && r.nodes[i].addr <= addr && addr + size <= End(r.nodes[i])
    ensures Within(r.nodes[i], RoundDown(addr), Extent(addr, size)) && Extent(addr, size) <= r.free
    ensures r' == Carved(r, i, RoundDown(addr), Extent(addr, size))
  {
    var lo, len := RoundDown(addr), Extent(addr, size);
    assert NodeOk(r.nodes[i], r.min, r.max);
    ExtentWithin(r.nodes[i], addr, size, r.min, r.max);
    CarvedOk(r, i, lo, len);
    var nodes := SplitList(r.nodes, i, lo, len);
    r' := r.(nodes := nodes, free := r.free - len);
  }

  predicate NodeNoWrap(n: Node, q: Request)
    requires q.p > 0
  {
    n.addr <= BlockIn(n, q) < WORD && BlockIn(n, q) - n.addr + q.size < WORD
  }

  /** The address arithmetic of `lmm_alloc_gen` stays below 2^32. */
  predicate NoWrap(rs: seq<Region>, q: Request)
    requires q.p > 0
  {
    && q.inMax < WORD
    && forall k, i :: 0 <= k < |rs| && 0 <= i < |rs[k].nodes| ==> NodeNoWrap(rs[k].nodes[i], q)
  }

  /** No node of an eligible region among the first `k` fits. */
  ghost predicate NoneFits(rs: seq<Region>, q: Request, k: nat)
    requires q.p > 0
  {
    k <= |rs| && forall j :: 0 <= j < k && Eligible(rs[j], q.flags) ==> NoneBefore(rs[j], q, |rs[j].nodes|)
  }

  /** The first node, in list order, of the first eligible region that has one that fits. */
  ghost predicate FirstFit(rs: seq<Region>, q: Request, r: nat, i: nat)
    requires q.p > 0
  {
    && NoneFits(rs, q, r) && r < |rs| && Eligible(rs[r], q.flags)
    && i < |rs[r].nodes| && FitsIn(rs[r].nodes[i], q) && NoneBefore(rs[r], q, i)
  }

  /** The request is met at address a: where it first fits. */
  ghost predicate MetAt(rs: seq<Region>, q: Request, a: nat)
    requires q.p > 0
  {
    exists r: nat, i: nat :: FirstFit(rs, q, r, i) && a == BlockIn(rs[r].nodes[i], q)
  }

  class Pool {
    var regions: seq<Region>

    predicate Valid()
      reads this
    {
      PoolOk(regions)
    }

    /** `lmm_alloc_gen` */
    method AllocGen(size: nat, flags: bv32, bits: nat, ofs: nat, inMin: nat, inSize: nat)
      returns (block: Option<nat>, ghost r: nat, ghost i: nat)
      requires Valid() && 0 < size && NoWrap(regions, Request(size, flags, Pow2(bits), ofs, inMin, inMin + inSize))
      modifies this
      ensures Valid()
      ensures var q := Request(size, flags, Pow2(bits), ofs, inMin, inMin + inSize);
        && (block.None? ==> regions == old(regions) && NoneFits(regions, q, |regions|))
        && (block.Some? ==>
              && FirstFit(old(regions), q, r, i)
              && block.value == BlockIn(old(regions)[r].nodes[i], q)
              && TookFrom(old(regions), regions, r, i, RoundDown(block.value), Extent(block.value, size)))
    {
      ghost var was := regions;
      var q := Request(size, flags, Pow2(bits), ofs, inMin, inMin + inSize);
      r, i := 0, 0;
      for k := 0 to |regions|
        invariant regions == was && NoneFits(regions, q, k)
      {
        var reg := regions[k];
        assert RegionOk(reg);
        FlagTest(reg, flags);
        if flags & !reg.flags != 0 {
          continue;
        }
        if reg.min >= q.inMax || reg.max <= inMin {
          forall j | 0 <= j < |reg.nodes| ensures !FitsIn(reg.nodes[j], q) {
            OutOfRange(reg, q, j);
          }
          continue;
        }
        var found := SearchRegion(reg, q, bits);
        if found.Some? {
          var n := reg.nodes[found.value];
          var addr := AlignUp(if n.addr < inMin then inMin else n.addr, bits, ofs);
          r, i := k, found.value;
          var reg' := SplitNode(reg, found.value, addr, size);
          regions := regions[k := reg'];
          TookOk(was, regions, r, i, RoundDown(addr), Extent(addr, size));
          return Some(addr), r, i;
        }
      }
      return None, 0, 0;
    }

    /** `lmm_alloc`: first fit on the rounded size. */
    method Alloc(size: nat, flags: bv32) returns (block: Option<nat>, ghost r: nat, ghost i: nat)
      requires Valid() && 0 < size <= WORD - 8
      modifies this
      ensures Valid()
      ensures var q := Plain(size, flags);
        && (block.None? ==> regions == old(regions) && NoneFits(regions, q, |regions|))
        && (block.Some? ==>
              && FirstFit(old(regions), q, r, i)
              && block.value == old(regions)[r].nodes[i].addr
              && TookFrom(old(regions), regions, r, i, block.value, RoundUp(size)))
    {
      ghost var was := regions;
      ghost var q := Plain(size, flags);
      r, i := 0, 0;
      for k := 0 to |regions|
        invariant regions == was && NoneFits(regions, q, k)
      {
        var reg := regions[k];
        assert RegionOk(reg);
        FlagTest(reg, flags);
        if flags & !reg.flags != 0 {
          continue;
        }
        var found := SearchPlain(reg, size, flags);
        if found.Some? {
          r, i := k, found.value;
          var n := reg.nodes[found.value];
          PlainFits(reg, found.value, size, flags);
          var reg' := TakeHead(reg, found.value, RoundUp(size));
          regions := regions[k := reg'];
          TookOk(was, regions, r, i, n.addr, RoundUp(size));
          return Some(n.addr), r, i;
        }
      }
      return None, 0, 0;
    }

    /**
      `lmm_free`: the bytes taken for the block go back to region r, which the source finds by
      address, and join the neighbours they touch.
     */
    method Free(block: nat, size: nat, ghost r: nat) returns (ghost p: nat)
      requires Valid() && 0 < size && r < |regions|
      requires var reg := regions[r]; Freeable(reg.nodes, RoundDown(block), Extent(block, size), reg.min, reg.max)
      modifies this
      ensures Valid() && PutInto(old(regions), regions, r, p, RoundDown(block), Extent(block, size))
    {
      ghost var was := regions;
      var lo, len := RoundDown(block), Extent(block, size);
      var k := 0;
      while !(regions[k].min <= lo < regions[k].max)
        invariant k <= r && regions == was
        decreases r - k
      {
        k := k + 1;
      }
      OneRegion(regions, k, r, lo);
      assert RegionOk(regions[k]);
      var nodes;
      nodes, p := Insert(regions[k], lo, len);
      regions := regions[k := regions[k].(nodes := nodes, free := regions[k].free + len)];
      PutOk(was, regions, r, p, lo, len);
    }
  }

  function Plain(size: nat, flags: bv32): Request {
    Request(RoundUp(size), flags, 1, 0, 0, WORD)
  }

  lemma PlainFits(r: Region, i: nat, size: nat, flags: bv32)
    requires RegionOk(r) && i < |r.nodes| && 0 < size
    ensures BlockIn(r.nodes[i], Plain(size, flags)) == r.nodes[i].addr
    ensures FitsIn(r.nodes[i], Plain(size, flags)) <==> r.nodes[i].size >= RoundUp(size)
    ensures r.nodes[i].size >= RoundUp(size) ==> Within(r.nodes[i], r.nodes[i].addr, RoundUp(size))
  {
    assert NodeOk(r.nodes[i], r.min, r.max);
  }

  lemma OneRegion(rs: seq<Region>, k: nat, r: nat, x: nat)
    requires Disjoint(rs) && k < |rs| && r < |rs| && rs[k].min <= x < rs[k].max && rs[r].min <= x < rs[r].max
    ensures k == r
  {
  }

  /** Region r with lo .. lo + len - 1 put back at position p of its list. */
  predicate PutInto(was: seq<Region>, now: seq<Region>, r: nat, p: nat, lo: nat, len: nat) {
    && r < |was| && Position(was[r].nodes, p, lo)
    && now == was[r := was[r].(nodes := Absorb(was[r].nodes, p, lo, len), free := was[r].free + len)]
  }

  lemma PutOk(was: seq<Region>, now: seq<Region>, r: nat, p: nat, lo: nat, len: nat)
    requires PoolOk(was) && PutInto(was, now, r, p, lo, len)
    requires Freeable(was[r].nodes, lo, len, was[r].min, was[r].max)
    ensures PoolOk(now)
  {
    assert RegionOk(was[r]);
    AbsorbSum(was[r].nodes, p, lo, len, was[r].min, was[r].max);
    AbsorbOk(was[r].nodes, p, lo, len, was[r].min, was[r].max);
    forall k | 0 <= k < |now| ensures RegionOk(now[k]) {
      assert RegionOk(was[k]);
    }
  }

  method SearchPlain(r: Region, size: nat, flags: bv32) returns (found: Option<nat>)
    requires RegionOk(r) && 0 < size
    ensures var q := Plain(size, flags);
      && (found.Some? ==>
            found.value < |r.nodes| && FitsIn(r.nodes[found.value], q) && NoneBefore(r, q, found.value))
      && (found.None? ==> NoneBefore(r, q, |r.nodes|))
  {
    for j := 0 to |r.nodes|
      invariant NoneBefore(r, Plain(size, flags), j)
    {
      PlainFits(r, j, size, flags);
      if r.nodes[j].size >= RoundUp(size) {
        return Some(j);
      }
    }
    return None;
  }

  /** Split node j and take its head, or remove all of it. */
  method TakeHead(r: Region, j: nat, len: nat) returns (r': Region)
    requires RegionOk(r) && j < |r.nodes| && Within(r.nodes[j], r.nodes[j].addr, len)
    ensures len <= r.free && r' == Carved(r, j, r.nodes[j].addr, len)
  {
    var n := r.nodes[j];
    CarvedOk(r, j, n.addr, len);
    var nodes;
    if n.size > len {
      nodes := r.nodes[j := Node(n.addr + len, n.size - len)];
    } else {
      nodes := r.nodes[..j] + r.nodes[j + 1..];
    }
    assert nodes == Carve(r.nodes, j, n.addr, len);
    r' := r.(nodes := nodes, free := r.free - len);
  }

  /** The walk with prevnode and nextnode. */
  method FindPosition(ns: seq<Node>, lo: nat) returns (next: nat)
    requires Apart(ns)
    ensures Position(ns, next, lo)
  {
    next := 0;
    while next < |ns| && ns[next].addr < lo
      invariant next <= |ns| && forall i :: 0 <= i < next ==> ns[i].addr < lo
    {
      next := next + 1;
    }
  }

  /** The four ways to coalesce. */
  method Insert(r: Region, lo: nat, len: nat) returns (nodes: seq<Node>, ghost p: nat)
    requires RegionOk(r) && Freeable(r.nodes, lo, len, r.min, r.max)
    ensures Position(r.nodes, p, lo) && nodes == Absorb(r.nodes, p, lo, len)
  {
    var ns := r.nodes;
    var next := FindPosition(ns, lo);
    p := next;
    ExactJoin(ns, p, lo, len, r.min, r.max);
    nodes := Coalesce(ns, next, lo, len);
  }

  method Coalesce(ns: seq<Node>, next: nat, lo: nat, len: nat) returns (nodes: seq<Node>)
    requires next <= |ns|
    requires JoinsPrevious(ns, next, lo) ==> End(ns[next - 1]) == lo
    requires JoinsNext(ns, next, lo + len) ==> lo + len == ns[next].addr
    ensures nodes == Absorb(ns, next, lo, len)
  {
    if next > 0 && End(ns[next - 1]) >= lo {
      var prev := ns[next - 1];
      if next < |ns| && lo + len >= ns[next].addr {
        nodes := ns[..next - 1] + [Node(prev.addr, prev.size + len + ns[next].size)] + ns[next + 1..];
      } else {
        nodes := ns[..next - 1] + [Node(prev.addr, prev.size + len)] + ns[next..];
      }
    } else {
      if next < |ns| && lo + len >= ns[next].addr {
        nodes := ns[..next] + [Node(lo, len + ns[next].size)] + ns[next + 1..];
      } else {
        nodes := ns[..next] + [Node(lo, len)] + ns[next..];
      }
    }
  }

  // ---------------------------------------------------------------- soundness and completeness

  /** A block of `size` bytes at `a` that meets the request, all of it free in one eligible region. */
  ghost predicate Satisfies(rs: seq<Region>, q: Request, r: nat, a: nat)
    requires q.p > 0
  {
    && r < |rs| && Eligible(rs[r], q.flags)
    && a % q.p == q.ofs % q.p && q.inMin <= a && a + q.size <= q.inMax
    && forall x :: a <= x < a + q.size ==> InFree(rs[r].nodes, x)
  }

  /** A run of free bytes lies in one node. */
  lemma RunInNode(ns: seq<Node>, min: nat, max: nat, a: nat, size: nat) returns (i: nat)
    requires ListOk(ns, min, max) && 0 < size && forall x :: a <= x < a + size ==> InFree(ns, x)
    ensures i < |ns| && ns[i].addr <= a && a + size <= End(ns[i])
  {
    assert InFree(ns, a);
    i :| 0 <= i < |ns| && Covers(ns[i], a);
    assert End(ns[i]) < a + size ==> InFree(ns, End(ns[i]));
    GapAfter(ns, i);
  }

  lemma GapAfter(ns: seq<Node>, i: nat)
    requires Apart(ns) && i < |ns|
    ensures !InFree(ns, End(ns[i]))
  {
    forall k | 0 <= k < |ns| ensures !Covers(ns[k], End(ns[i])) {
      if k < i {
        assert End(ns[k]) < ns[i].addr;
      } else if i < k {
        assert End(ns[i]) < ns[k].addr;
      }
    }
  }

  /** What is allocated satisfies the request. */
  lemma Sound(rs: seq<Region>, q: Request, r: nat, i: nat)
    requires PoolOk(rs) && q.p > 0 && FirstFit(rs, q, r, i)
    ensures Satisfies(rs, q, r, BlockIn(rs[r].nodes[i], q))
  {
    var n := rs[r].nodes[i];
    var a := BlockIn(n, q);
    forall x | a <= x < a + q.size ensures InFree(rs[r].nodes, x) {
      assert Covers(n, x);
    }
  }

  lemma SatisfiedFits(rs: seq<Region>, q: Request, r: nat, a: nat) returns (i: nat)
    requires PoolOk(rs) && q.p > 0 && 0 < q.size && Satisfies(rs, q, r, a)
    ensures i < |rs[r].nodes| && FitsIn(rs[r].nodes[i], q)
  {
    assert RegionOk(rs[r]);
    i := RunInNode(rs[r].nodes, rs[r].min, rs[r].max, a, q.size);
    var n := rs[r].nodes[i];
    TargetLeast(if n.addr < q.inMin then q.inMin else n.addr, q.p, q.ofs, a);
  }

  /** Allocation fails only if nothing satisfies the request. */
  lemma Complete(rs: seq<Region>, q: Request, r: nat, a: nat)
    requires PoolOk(rs) && q.p > 0 && 0 < q.size && NoneFits(rs, q, |rs|)
    ensures !Satisfies(rs, q, r, a)
  {
    if Satisfies(rs, q, r, a) {
      var i := SatisfiedFits(rs, q, r, a);
    }
  }

  // ---------------------------------------------------------------- allocate, then free

  lemma TookFreeable(was: seq<Region>, now: seq<Region>, r: nat, i: nat, lo: nat, len: nat)
    requires PoolOk(was) && TookFrom(was, now, r, i, lo, len)
    ensures Freeable(now[r].nodes, lo, len, now[r].min, now[r].max)
  {
    var reg := was[r];
    assert RegionOk(reg);
    assert NodeOk(reg.nodes[i], reg.min, reg.max);
    CarveOk(reg.nodes, i, lo, len, reg.min, reg.max);
    forall x | lo <= x < lo + len ensures !InFree(now[r].nodes, x) {
      CarveFree(reg.nodes, i, lo, len, reg.min, reg.max, x);
    }
    NotFreeFreeable(now[r].nodes, lo, len, reg.min, reg.max);
  }

  /**
    Allocating and freeing the same block restores the pool exactly: node list, order and
    counter.
   */
  lemma AllocFreeRestores(was: seq<Region>, mid: seq<Region>, now: seq<Region>, r: nat, i: nat, p: nat, lo: nat,
                          len: nat)
    requires PoolOk(was) && TookFrom(was, mid, r, i, lo, len) && PutInto(mid, now, r, p, lo, len)
    ensures now == was
  {
    var reg := was[r];
    assert RegionOk(reg);
    var taken := Carve(reg.nodes, i, lo, len);
    assert mid[r].nodes == taken && mid[r].free == reg.free - len;
    CarveAbsorb(reg.nodes, i, lo, len, p, reg.min, reg.max);
    assert now[r].nodes == reg.nodes && now[r].free == reg.free;
    assert forall k :: 0 <= k < |was| && k != r ==> now[k] == was[k];
  }

  /** The client's view: any allocation, then lmm_free with the same address and size. */
  method AllocThenFree(pool: Pool, size: nat, flags: bv32, bits: nat, ofs: nat, inMin: nat, inSize: nat)
    requires pool.Valid() && 0 < size
    requires NoWrap(pool.regions, Request(size, flags, Pow2(bits), ofs, inMin, inMin + inSize))
    modifies pool
    ensures pool.regions == old(pool.regions)
  {
    ghost var was := pool.regions;
    var block, r, i := pool.AllocGen(size, flags, bits, ofs, inMin, inSize);
    if block.Some? {
      ghost var mid := pool.regions;
      ghost var lo, len := RoundDown(block.value), Extent(block.value, size);
      TookFreeable(was, mid, r, i, lo, len);
      var p := pool.Free(block.value, size, r);
      AllocFreeRestores(was, mid, pool.regions, r, i, p, lo, len);
    }
  }
}
