/**
  Finding and removing free memory and adding ranges: lmm_find_free, lmm_remove_free and
  lmm_add_free (410kern/lmm).
 */
module LmmRanges {
  import opened FreeList
  import opened Lmm
  import opened Options

  /** No free byte from `lo` up to `hi` in the first k regions. */
  ghost predicate ClearTo(rs: seq<Region>, k: nat, lo: int, hi: int) {
    k <= |rs| && forall r, x :: 0 <= r < k && lo <= x < hi ==> !InFree(rs[r].nodes, x)
  }

  /** The first node of a region that reaches past `start`, if it starts below `bound`. */
  method FirstPast(r: Region, start: nat, bound: nat) returns (found: Option<nat>)
    requires RegionOk(r)
    ensures found.Some? ==>
      && found.value < |r.nodes|
      && r.nodes[found.value].addr < bound && start < End(r.nodes[found.value])
      && (forall x :: start <= x < r.nodes[found.value].addr ==> !InFree(r.nodes, x))
    ensures found.None? ==> forall x :: start <= x < bound ==> !InFree(r.nodes, x)
  {
    for i := 0 to |r.nodes|
      invariant forall k :: 0 <= k < i ==> End(r.nodes[k]) <= start
    {
      var n := r.nodes[i];
      if n.addr >= bound {
        ClearBelow(r, i, start, bound);
        return None;
      }
      if End(n) > start {
        ClearBelow(r, i, start, n.addr);
        return Some(i);
      }
    }
    ClearBelow(r, |r.nodes|, start, bound);
    return None;
  }

  lemma ClearBelow(r: Region, i: nat, start: nat, bound: nat)
    requires RegionOk(r) && i <= |r.nodes| && forall k :: 0 <= k < i ==> End(r.nodes[k]) <= start
    requires i < |r.nodes| ==> bound <= r.nodes[i].addr
    ensures forall x :: start <= x < bound ==> !InFree(r.nodes, x)
  {
    forall x, k | start <= x < bound && 0 <= k < |r.nodes| ensures !Covers(r.nodes[k], x) {
      if i < k {
        assert End(r.nodes[i]) < r.nodes[k].addr;
      }
    }
  }

  /** A run of free bytes from `lowest` to the end of a node, with no free byte between start and it. */
  ghost predicate LowestRun(rs: seq<Region>, k: nat, start: nat, lowest: nat, size: nat, flags: bv32, r: nat, i: nat) {
    && k <= |rs| && r < k && i < |rs[r].nodes| && flags == rs[r].flags
    && start <= lowest && rs[r].nodes[i].addr <= lowest && 0 < size && lowest + size == End(rs[r].nodes[i])
    && Aligned(lowest)
    && ClearTo(rs, k, start, lowest)
  }

  /** `lmm_find_free`: the lowest free address from `addr` rounded up, over all regions. */
  method FindFree(pool: Pool, addr: nat) returns (lowest: nat, size: nat, flags: bv32, ghost r: nat, ghost i: nat)
    requires pool.Valid() && addr + 7 < WORD
    ensures size > 0 ==> LowestRun(pool.regions, |pool.regions|, RoundUp(addr), lowest, size, flags, r, i)
    ensures size == 0 ==> lowest == WORD - 1 && ClearTo(pool.regions, |pool.regions|, RoundUp(addr), WORD)
  {
    var rs := pool.regions;
    var start := RoundUp(addr);
    lowest, size, flags, r, i := WORD - 1, 0, 0, 0, 0;
    for k := 0 to |rs|
      invariant size > 0 ==> LowestRun(rs, k, start, lowest, size, flags, r, i)
      invariant size == 0 ==> lowest == WORD - 1 && ClearTo(rs, k, start, WORD)
    {
      var reg := rs[k];
      assert RegionOk(reg);
      if reg.nodes == [] || reg.max <= start || reg.min > lowest {
        RegionClear(reg, start, lowest, size);
        continue;
      }
      var found := FirstPast(reg, start, lowest);
      if found.None? {
        NothingPast(reg, start, lowest, size);
      } else {
        var n := reg.nodes[found.value];
        assert NodeOk(n, reg.min, reg.max);
        AlignedSum(n.addr, n.size);
        lowest := if n.addr > start then n.addr else start;
        size := End(n) - lowest;
        flags := reg.flags;
        r, i := k, found.value;
      }
    }
  }

  lemma RegionClear(reg: Region, start: nat, lowest: nat, size: nat)
    requires RegionOk(reg) && (reg.nodes == [] || reg.max <= start || reg.min > lowest)
    requires size == 0 ==> lowest == WORD - 1
    ensures forall x :: start <= x < lowest ==> !InFree(reg.nodes, x)
    ensures size == 0 ==> forall x :: start <= x < WORD ==> !InFree(reg.nodes, x)
  {
    forall x | start <= x ensures InFree(reg.nodes, x) ==> lowest < x && size > 0 {
      OutsideRegion(reg, x);
    }
  }

  lemma NothingPast(reg: Region, start: nat, lowest: nat, size: nat)
    requires RegionOk(reg) && forall x :: start <= x < lowest ==> !InFree(reg.nodes, x)
    ensures size == 0 && lowest == WORD - 1 ==> forall x :: start <= x < WORD ==> !InFree(reg.nodes, x)
  {
    forall x | start <= x < WORD && x >= WORD - 1 ensures !InFree(reg.nodes, x) {
      OutsideRegion(reg, x);
    }
  }

  // ---------------------------------------------------------------- lmm_remove_free

  /** The request that lmm_remove_free makes for the run it found. */
  function Exactly(lowest: nat, size: nat, flags: bv32): Request {
    Request(size, flags, Pow2(0), 0, lowest, lowest + size)
  }

  lemma ExactBlock(n: Node, lowest: nat, size: nat, flags: bv32)
    ensures BlockIn(n, Exactly(lowest, size, flags)) == if n.addr < lowest then lowest else n.addr
    ensures FitsIn(n, Exactly(lowest, size, flags)) <==> n.addr <= lowest && lowest + size <= End(n)
  {
    assert Pow2(0) == 1;
  }

  lemma ExactNoWrap(rs: seq<Region>, lowest: nat, size: nat, flags: bv32)
    requires PoolOk(rs) && lowest + size < WORD
    ensures NoWrap(rs, Exactly(lowest, size, flags))
  {
    forall k, i | 0 <= k < |rs| && 0 <= i < |rs[k].nodes|
      ensures NodeNoWrap(rs[k].nodes[i], Exactly(lowest, size, flags))
    {
      assert RegionOk(rs[k]);
      assert NodeOk(rs[k].nodes[i], rs[k].min, rs[k].max);
      ExactBlock(rs[k].nodes[i], lowest, size, flags);
    }
  }

  /** The run that lmm_find_free reports is there to be allocated, so the call cannot fail. */
  lemma RunFits(rs: seq<Region>, start: nat, lowest: nat, size: nat, flags: bv32, r: nat, i: nat, part: nat)
    requires LowestRun(rs, |rs|, start, lowest, size, flags, r, i) && 0 < part <= size
    ensures !NoneFits(rs, Exactly(lowest, part, flags), |rs|)
  {
    ExactBlock(rs[r].nodes[i], lowest, part, flags);
    assert Eligible(rs[r], flags);
    assert FitsIn(rs[r].nodes[i], Exactly(lowest, part, flags));
    assert !NoneBefore(rs[r], Exactly(lowest, part, flags), |rs[r].nodes|);
  }

  /** Exactly the bytes from lo up to hi have stopped being free. */
  ghost predicate Removed(was: seq<Region>, now: seq<Region>, lo: int, hi: int) {
    forall x :: PoolFree(now, x) <==> PoolFree(was, x) && !(lo <= x < hi)
  }

  lemma ClearPool(rs: seq<Region>, lo: int, hi: int, x: int)
    requires ClearTo(rs, |rs|, lo, hi) && lo <= x < hi
    ensures !PoolFree(rs, x)
  {
  }

  /** Taking the run found extends the stretch that is cleared. */
  lemma RemovedMore(was: seq<Region>, rs: seq<Region>, now: seq<Region>, start: int, done: int, from: int,
                    lowest: nat, len: nat, r: nat, i: nat)
    requires PoolOk(rs) && TookFrom(rs, now, r, i, lowest, len)
    requires Removed(was, rs, start, done) && start <= from <= done && ClearTo(rs, |rs|, from, lowest) && from <= lowest
    ensures done <= lowest && Removed(was, now, start, lowest + len)
  {
    TookFree(rs, now, r, i, lowest, len, lowest);
    assert PoolFree(rs, lowest);
    forall x ensures PoolFree(now, x) <==> PoolFree(was, x) && !(start <= x < lowest + len) {
      TookFree(rs, now, r, i, lowest, len, x);
      if from <= x < lowest {
        ClearPool(rs, from, lowest, x);
      }
    }
  }

  lemma RemovedAll(was: seq<Region>, rs: seq<Region>, start: int, done: int, from: int, hi: int, end: int)
    requires Removed(was, rs, start, done) && start <= from <= done <= end && ClearTo(rs, |rs|, from, hi) && end <= hi
    ensures Removed(was, rs, start, end)
  {
    forall x ensures PoolFree(rs, x) <==> PoolFree(was, x) && !(start <= x < end) {
      if done <= x < end {
        ClearPool(rs, from, hi, x);
      }
    }
  }

  lemma AlignedExtent(lowest: nat, part: nat)
    requires Aligned(lowest)
    ensures RoundDown(lowest) == lowest && Extent(lowest, part) == RoundUp(part)
  {
  }

  /** One round: take `part` bytes of the run that lmm_find_free reported. */
  method RemoveRun(pool: Pool, ghost start: nat, lowest: nat, size: nat, part: nat, flags: bv32, ghost r: nat,
                   ghost i: nat)
    returns (ghost r': nat, ghost i': nat)
    requires pool.Valid() && LowestRun(pool.regions, |pool.regions|, start, lowest, size, flags, r, i)
    requires 0 < part <= size && lowest + part < WORD
    modifies pool
    ensures pool.Valid() && TookFrom(old(pool.regions), pool.regions, r', i', lowest, RoundUp(part))
  {
    ghost var rs := pool.regions;
    ExactNoWrap(rs, lowest, part, flags);
    RunFits(rs, start, lowest, size, flags, r, i, part);
    AlignedExtent(lowest, part);
    var block;
    block, r', i' := pool.AllocGen(part, flags, 0, 0, lowest, part);
    ExactBlock(rs[r'].nodes[i'], lowest, part, flags);
    assert block.value == lowest;
  }

  /** One round of `lmm_remove_free`; `done` is how far the range has been cleared. */
  method RemoveRound(pool: Pool, ghost was: seq<Region>, ghost start: nat, ghost done: nat, rstart: nat, rend: nat)
    returns (rstart': nat, more: bool, ghost done': nat)
    requires pool.Valid() && Removed(was, pool.regions, start, done) && rstart < rend && rend + 8 < WORD
    requires start <= RoundUp(rstart) <= done <= RoundUp(rend)
    modifies pool
    ensures pool.Valid() && Removed(was, pool.regions, start, done')
    ensures if more then done < done' <= RoundUp(rend) && rstart <= rstart' < rend && start <= RoundUp(rstart') <= done'
            else done' == RoundUp(rend)
  {
    ghost var from, end := RoundUp(rstart), RoundUp(rend);
    var n, flags;
    ghost var r, i;
    rstart', n, flags, r, i := FindFree(pool, rstart);
    assert rstart' >= rstart;  // so the source's assertion that it is at or past the block holds
    if n == 0 || rstart' >= rend {
      if n > 0 {
        RoundUpLeast(rend, rstart');
      }
      RemovedAll(was, pool.regions, start, done, from, if n == 0 then WORD else rstart', end);
      return rstart', false, end;
    }
    ghost var rs := pool.regions;
    var part := if rstart' + n > rend then rend - rstart' else n;
    var r', i' := RemoveRun(pool, from, rstart', n, part, flags, r, i);
    RemovedMore(was, rs, pool.regions, start, done, from, rstart', RoundUp(part), r', i');
    PartBound(rstart', part, rend);
    return rstart', true, rstart' + RoundUp(part);
  }

  /**
    `lmm_remove_free`, exactly: of the free bytes, those from the start rounded up to 8 to the
    end rounded up to 8 are removed and no others.  Each round clears more, so the loop ends.
   */
  method RemoveFree(pool: Pool, block: nat, size: nat)
    requires pool.Valid() && 0 < size && block + size + 8 < WORD
    modifies pool
    ensures pool.Valid() && Removed(old(pool.regions), pool.regions, RoundUp(block), RoundUp(block + size))
  {
    ghost var was := pool.regions;
    var rstart: nat, rend := block, block + size;
    ghost var start, done := RoundUp(block), RoundUp(block);
    RoundUpMonotone(block, rend);
    while rstart < rend
      invariant pool.Valid() && Removed(was, pool.regions, start, done)
      invariant start <= RoundUp(rstart) <= done <= RoundUp(rend) && rstart < rend
      decreases RoundUp(rend) - done
    {
      var more;
      rstart, more, done := RemoveRound(pool, was, start, done, rstart, rend);
      if !more {
        return;
      }
    }
  }

  lemma RoundUpMonotone(a: nat, b: nat)
    requires a <= b
    ensures RoundUp(a) <= RoundUp(b)
  {
    if RoundUp(b) < RoundUp(a) {
      AlignedStep(RoundUp(b), RoundUp(a));
    }
  }

  lemma RoundUpLeast(a: nat, b: nat)
    requires a <= b && Aligned(b)
    ensures RoundUp(a) <= b
  {
    if b < RoundUp(a) {
      AlignedStep(b, RoundUp(a));
    }
  }

  lemma PartBound(rstart: nat, part: nat, rend: nat)
    requires Aligned(rstart) && rstart + part <= rend
    ensures RoundUp(rstart) == rstart && rstart + RoundUp(part) <= RoundUp(rend)
  {
    RoundUpLeast(rstart, rstart);
    var room := RoundUp(rend) - rstart;
    AlignedSum(RoundUp(rend), rstart);
    RoundUpLeast(part, room);
  }

  /**
    After lmm_remove_free no byte of the range is free, if and only if none of the bytes
    before the first multiple of 8 was: those it leaves alone.
   */
  lemma NoneLeftIff(was: seq<Region>, now: seq<Region>, block: nat, size: nat)
    requires 0 < size && Removed(was, now, RoundUp(block), RoundUp(block + size))
    ensures (forall x :: block <= x < block + size ==> !PoolFree(now, x)) <==>
      (forall x :: block <= x < block + size && x < RoundUp(block) ==> !PoolFree(was, x))
  {
    if forall x :: block <= x < block + size && x < RoundUp(block) ==> !PoolFree(was, x) {
      forall x | block <= x < block + size ensures !PoolFree(now, x) {
      }
    } else {
      var x :| block <= x < block + size && x < RoundUp(block) && PoolFree(was, x);
      assert PoolFree(now, x);
    }
  }

  /** For a block that starts at a multiple of 8 there are no such bytes. */
  lemma AlignedNoneLeft(was: seq<Region>, now: seq<Region>, block: nat, size: nat)
    requires 0 < size && Aligned(block) && Removed(was, now, RoundUp(block), RoundUp(block + size))
    ensures forall x :: block <= x < block + size ==> !PoolFree(now, x)
  {
    RoundUpLeast(block, block);
    NoneLeftIff(was, now, block, size);
  }

  /** An unaligned start can leave free bytes of the range behind. */
  lemma UnalignedLeavesFree()
    ensures exists was: seq<Region>, now: seq<Region> ::
      && PoolOk(was) && Removed(was, now, RoundUp(12), RoundUp(12 + 2)) && PoolFree(now, 12)
  {
    var rs := [Region(8, 16, 0, [Node(8, 8)], 8)];
    assert Sum([Node(8, 8)]) == 8 by {
      SumOne(Node(8, 8));
    }
    assert Covers(rs[0].nodes[0], 12) && InFree(rs[0].nodes, 12);
    assert PoolOk(rs) && PoolFree(rs, 12);
    assert RoundUp(12) == 16 && RoundUp(14) == 16;
    assert Removed(rs, rs, 16, 16);
  }

  // ---------------------------------------------------------------- lmm_add_free

  /** The bytes lo .. hi - 1 that lie in one of the first k regions have become free. */
  ghost predicate Added(was: seq<Region>, now: seq<Region>, k: nat, lo: int, hi: int) {
    && k <= |was| == |now|
    && forall r, x :: 0 <= r < |was| ==>
        (InFree(now[r].nodes, x) <==>
           InFree(was[r].nodes, x) || (r < k && lo <= x < hi && was[r].min <= x < was[r].max))
  }

  lemma PutFree(was: seq<Region>, now: seq<Region>, r: nat, p: nat, lo: nat, len: nat, k: nat, x: int)
    requires PoolOk(was) && PutInto(was, now, r, p, lo, len) && k < |was|
    requires Freeable(was[r].nodes, lo, len, was[r].min, was[r].max)
    ensures InFree(now[k].nodes, x) <==> InFree(was[k].nodes, x) || (k == r && lo <= x < lo + len)
  {
    assert RegionOk(was[r]);
    AbsorbFree(was[r].nodes, p, lo, len, was[r].min, was[r].max, x);
  }

  /** In region k the bytes from lo to hi have become free, and nothing else has changed. */
  ghost predicate PartAdded(was: seq<Region>, now: seq<Region>, k: nat, lo: nat, hi: nat) {
    && |now| == |was|
    && forall r, x :: 0 <= r < |was| ==>
      (InFree(now[r].nodes, x) <==> InFree(was[r].nodes, x) || (r == k && lo <= x < hi))
  }

  /** Aligned bytes of region k that are not free are freed into it. */
  method FreePart(pool: Pool, k: nat, lo: nat, hi: nat)
    requires pool.Valid() && k < |pool.regions| && Aligned(lo) && Aligned(hi) && lo < hi
    requires pool.regions[k].min <= lo && hi <= pool.regions[k].max
    requires forall x :: lo <= x < hi ==> !InFree(pool.regions[k].nodes, x)
    modifies pool
    ensures pool.Valid() && SameBounds(old(pool.regions), pool.regions)
    ensures PartAdded(old(pool.regions), pool.regions, k, lo, hi)
  {
    ghost var was, reg := pool.regions, pool.regions[k];
    assert RegionOk(reg);
    WholeExtent(lo, hi);
    NotFreeFreeable(reg.nodes, lo, hi - lo, reg.min, reg.max);
    var p := pool.Free(lo, hi - lo, k);
    PartFreed(was, pool.regions, k, p, lo, hi);
  }

  lemma PartFreed(was: seq<Region>, now: seq<Region>, k: nat, p: nat, lo: nat, hi: nat)
    requires PoolOk(was) && lo < hi && PutInto(was, now, k, p, lo, hi - lo)
    requires Freeable(was[k].nodes, lo, hi - lo, was[k].min, was[k].max)
    ensures SameBounds(was, now)
    ensures PartAdded(was, now, k, lo, hi)
  {
    forall r, x | 0 <= r < |was|
      ensures InFree(now[r].nodes, x) <==> InFree(was[r].nodes, x) || (r == k && lo <= x < hi)
    {
      PutFree(was, now, k, p, lo, hi - lo, r, x);
    }
  }

  lemma WholeExtent(lo: nat, hi: nat)
    requires Aligned(lo) && Aligned(hi) && lo < hi
    ensures Aligned(hi - lo) && RoundDown(lo) == lo && Extent(lo, hi - lo) == hi - lo
  {
    AlignedSum(hi, lo);
    AlignedExtent(lo, hi - lo);
    RoundUpLeast(hi - lo, hi - lo);
  }

  /** The part of the range that falls into region k is freed into it. */
  method AddPart(pool: Pool, k: nat, lo: nat, hi: nat, ghost was: seq<Region>)
    requires pool.Valid() && k < |pool.regions| && Aligned(lo) && Aligned(hi) && lo < hi
    requires SameBounds(was, pool.regions) && Added(was, pool.regions, k, lo, hi)
    requires forall x :: lo <= x < hi ==> !InFree(was[k].nodes, x)
    modifies pool
    ensures pool.Valid() && SameBounds(was, pool.regions) && Added(was, pool.regions, k + 1, lo, hi)
  {
    var reg := pool.regions[k];
    assert RegionOk(reg);
    if hi > reg.min && lo < reg.max {
      var newLo := if lo < reg.min then reg.min else lo;
      var newHi := if hi > reg.max then reg.max else hi;
      forall x | newLo <= x < newHi ensures !InFree(pool.regions[k].nodes, x) {
        assert !InFree(was[k].nodes, x);
      }
      FreePart(pool, k, newLo, newHi);
    }
  }

  /** `lmm_add_free`: the whole multiples of 8 inside the range become free wherever a region covers them. */
  method AddFree(pool: Pool, block: nat, size: nat)
    requires pool.Valid() && RoundUp(block) <= RoundDown(block + size) && block + size < WORD
    requires forall x :: RoundUp(block) <= x < RoundDown(block + size) ==> !PoolFree(pool.regions, x)
    modifies pool
    ensures pool.Valid() && SameBounds(old(pool.regions), pool.regions)
    ensures Added(old(pool.regions), pool.regions, |pool.regions|, RoundUp(block), RoundDown(block + size))
  {
    ghost var was := pool.regions;
    var lo, hi := RoundUp(block), RoundDown(block + size);
    if lo == hi {
      return;
    }
    var k := 0;
    while k < |pool.regions|
      invariant k <= |pool.regions|
      invariant pool.Valid() && SameBounds(was, pool.regions) && Added(was, pool.regions, k, lo, hi)
      decreases |was| - k
    {
      forall x | lo <= x < hi ensures !InFree(was[k].nodes, x) {
        assert !PoolFree(was, x);
      }
      AddPart(pool, k, lo, hi, was);
      k := k + 1;
    }
  }
}
