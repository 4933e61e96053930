/**
  The user allocator with boundary tags (410user/libmalloc/mm_malloc.c, memlib.c) on an array of
  words.  The code walks and coalesces blocks by the tags it reads from memory; `blocks` says
  what those tags describe.
 */
module BoundaryTags {
  import opened BlockChain
  import opened Options

  const START: nat := 4         // the first payload, after padding, prologue and one header
  const PAGE_WORDS: nat := 1024
  const CHUNK_WORDS: nat := 1024  // CHUNKSIZE / WSIZE

  /** PACK(size, alloc) for a size of n words. */
  function Pack(n: nat, alloc: bool): nat {
    4 * n + (if alloc then 1 else 0)
  }

  /** GET_SIZE, in words. */
  function SizeOf(w: nat): nat {
    (w - w % 8) / 4
  }

  /** GET_ALLOC */
  predicate AllocOf(w: nat) {
    w % 2 == 1
  }

  lemma PackRead(n: nat, alloc: bool)
    requires n % 2 == 0
    ensures SizeOf(Pack(n, alloc)) == n && AllocOf(Pack(n, alloc)) == alloc
  {
    var h, a := n / 2, if alloc then 1 else 0;
    assert n == 2 * h;
    Octets(Pack(n, alloc), h, a);
  }

  lemma Octets(x: int, h: int, a: int)
    requires x == 8 * h + a && 0 <= a <= 1
    ensures x % 8 == a && x % 2 == a && (x - a) / 4 == 2 * h
  {
  }

  function Tag(b: Blk): nat {
    Pack(b.n, b.alloc)
  }

  /** Header and footer of the block hold its tag. */
  predicate Tagged(m: seq<nat>, b: Blk) {
    && 1 <= b.pos && 2 <= b.n && End(b) <= |m| + 1
    && m[b.pos - 1] == Tag(b) && m[End(b) - 2] == Tag(b)
  }

  predicate AllTagged(m: seq<nat>, bs: seq<Blk>) {
    forall i {:trigger Tagged(m, bs[i])} :: 0 <= i < |bs| ==> Tagged(m, bs[i])
  }

  /** Prologue, blocks and epilogue, all tags right. */
  predicate Shape(m: seq<nat>, bs: seq<Blk>, brk: nat) {
    && START <= brk <= |m| && Tiles(bs, START, brk) && AllTagged(m, bs)
    && m[1] == Pack(2, true) && m[2] == Pack(2, true) && m[brk - 1] == Pack(0, true)
  }

  /** Every allocated block of bs is one of bs', and its payload is the same in m' as in m. */
  ghost predicate Kept(m: seq<nat>, m': seq<nat>, bs: seq<Blk>) {
    |m'| == |m| && forall b :: IsLive(bs, b) && End(b) <= |m| + 1 && 2 <= b.n ==> Payload(m', b) == Payload(m, b)
  }

  function Payload(m: seq<nat>, b: Blk): seq<nat>
    requires 2 <= b.n && End(b) <= |m| + 1
  {
    if End(b) - 2 <= |m| && b.pos <= End(b) - 2 then m[b.pos..End(b) - 2] else []
  }

  function WriteTags(m: seq<nat>, b: Blk): (r: seq<nat>)
    requires 1 <= b.pos && 2 <= b.n && End(b) <= |m| + 1
    ensures |r| == |m|
  {
    m[b.pos - 1 := Tag(b)][End(b) - 2 := Tag(b)]
  }

  /** The words of a block are its header, its payload and its footer. */
  lemma WriteApart(m: seq<nat>, b: Blk, c: Blk)
    requires 1 <= b.pos && 2 <= b.n && End(b) <= |m| + 1 && Tagged(m, c) && BlkOk(c)
    requires End(c) <= b.pos || End(b) <= c.pos
    ensures Tagged(WriteTags(m, b), c) && Payload(WriteTags(m, b), c) == Payload(m, c)
  {
  }

  /** Writing the tags of a block that takes the place of blocks i .. j - 1. */
  lemma WriteShape(m: seq<nat>, bs: seq<Blk>, brk: nat, i: nat, j: nat, b: Blk)
    requires Shape(m, bs, brk) && i < j <= |bs| && BlkOk(b) && START <= b.pos && End(b) <= brk
    requires b.pos == Edge(bs, START, i) && End(b) == Edge(bs, START, j)
    ensures Shape(WriteTags(m, b), Splice(bs, i, j, [b]), brk)
  {
    OneTile(b);
    SpliceTiles(bs, START, brk, i, j, [b]);
    var r := Splice(bs, i, j, [b]);
    assert r[i] == b;
    forall k | 0 <= k < |r| ensures Tagged(WriteTags(m, b), r[k]) {
      assert Fits(r, START, k);
      if k < i {
        assert r[k] == bs[k] && Tagged(m, bs[k]);
        TilesOrder(r, START, brk, k, i);
        WriteApart(m, b, r[k]);
      } else if k > i {
        assert r[k] == bs[k - 1 - i + j] && Tagged(m, bs[k - 1 - i + j]);
        TilesOrder(r, START, brk, i, k);
        WriteApart(m, b, r[k]);
      }
    }
  }

  /** No other block's payload changes. */
  lemma WriteKept(m: seq<nat>, bs: seq<Blk>, brk: nat, i: nat, j: nat, b: Blk)
    requires Shape(m, bs, brk) && i < j <= |bs| && BlkOk(b) && START <= b.pos && End(b) <= brk
    requires b.pos == Edge(bs, START, i) && End(b) == Edge(bs, START, j)
    requires forall k :: i <= k < j ==> !bs[k].alloc
    ensures Kept(m, WriteTags(m, b), bs)
  {
    forall c | IsLive(bs, c) && End(c) <= |m| + 1 && 2 <= c.n
      ensures Payload(WriteTags(m, b), c) == Payload(m, c)
    {
      var k :| 0 <= k < |bs| && bs[k] == c;
      assert Fits(bs, START, k) && Tagged(m, bs[k]);
      EdgeApart(bs, START, brk, i, j, k);
      WriteApart(m, b, c);
    }
  }

  lemma EdgeApart(bs: seq<Blk>, lo: nat, hi: nat, i: nat, j: nat, k: nat)
    requires Tiles(bs, lo, hi) && i < j <= |bs| && k < |bs| && (k < i || j <= k)
    ensures End(bs[k]) <= Edge(bs, lo, i) || Edge(bs, lo, j) <= bs[k].pos
  {
    if k < i {
      assert Fits(bs, lo, i - 1);
      if k < i - 1 {
        TilesOrder(bs, lo, hi, k, i - 1);
      }
    } else {
      assert Fits(bs, lo, j);
      if j < k {
        TilesOrder(bs, lo, hi, j, k);
        assert Fits(bs, lo, k);
      }
    }
  }

  lemma EdgeBounds(bs: seq<Blk>, lo: nat, hi: nat, i: nat)
    requires Tiles(bs, lo, hi) && i <= |bs|
    ensures lo <= Edge(bs, lo, i) <= hi
  {
    if i > 0 {
      TilesBounds(bs, lo, hi, i - 1);
    } else if bs != [] {
      TilesBounds(bs, lo, hi, 0);
      assert Fits(bs, lo, 0);
    }
  }

  // ---------------------------------------------------------------- the heap

  class Heap {
    const mem: array<nat>
    var brk: nat               // mem_brkp
    var top: nat               // mem_alloctop
    ghost var blocks: seq<Blk>

    /** Everything but coalescing. */
    ghost predicate Tagging()
      reads this, mem
    {
      Shape(mem[..], blocks, brk) && brk <= top && brk <= mem.Length
    }

    ghost predicate Valid()
      reads this, mem
    {
      Tagging() && Coalesced(blocks)
    }

    /** The first part of `mm_init`: padding, prologue and epilogue in the page that mem_init got. */
    constructor (mem: array<nat>)
      requires PAGE_WORDS <= mem.Length
      modifies mem
      ensures Valid() && this.mem == mem && blocks == [] && brk == START && top == PAGE_WORDS
    {
      this.mem := mem;
      brk, top, blocks := START, PAGE_WORDS, [];
      new;
      mem[0] := 0;
      mem[1] := Pack(2, true);
      mem[2] := Pack(2, true);
      mem[3] := Pack(0, true);
    }

    /** The rest of `mm_init`: the first free block. */
    method Init(granted: bool) returns (ok: bool)
      requires Valid() && blocks == []
      modifies this, mem
      ensures Valid() && forall c :: !IsLive(blocks, c)
      ensures !ok <==> Refused(old(brk), old(top), mem.Length, CHUNK_WORDS, granted)
    {
      var bp, i := Extend(CHUNK_WORDS, granted);
      ok := bp.Some?;
    }

    /** The owner of a block writes to a word of its payload. */
    method Poke(at: nat, w: nat, ghost i: nat)
      requires Valid() && i < |blocks| && blocks[i].alloc && blocks[i].pos <= at < End(blocks[i]) - 2
      modifies mem
      ensures Valid() && at < mem.Length && mem[..] == old(mem[..])[at := w]
    {
      BlockBounds(mem[..], blocks, brk, blocks[i]);
      PayloadWrite(mem[..], mem[..][at := w], blocks, brk, blocks[i]);
      Put(at, w);
    }

    method Put(at: nat, w: nat)
      requires at < mem.Length
      modifies mem
      ensures mem[..] == old(mem[..])[at := w]
    {
      mem[at] := w;
    }

    /** PUT of the header and of the footer. */
    method PutTags(pos: nat, n: nat, alloc: bool)
      requires 1 <= pos && 2 <= n && pos + n <= mem.Length + 1
      modifies mem
      ensures mem[..] == WriteTags(old(mem[..]), Blk(pos, n, alloc))
    {
      Put(pos - 1, Pack(n, alloc));
      Put(pos + n - 2, Pack(n, alloc));
    }

    /** What the tags around block i say. */
    lemma ReadTags(i: nat)
      requires Tagging() && i < |blocks|
      ensures var b := blocks[i];
        && 4 <= b.pos && 4 <= b.n && End(b) <= brk && b.pos == Edge(blocks, START, i)
        && SizeOf(mem[b.pos - 1]) == b.n && AllocOf(mem[b.pos - 1]) == b.alloc
        && AllocOf(mem[b.pos - 2]) == (i == 0 || blocks[i - 1].alloc)
        && (i > 0 ==> SizeOf(mem[b.pos - 2]) == blocks[i - 1].n && b.pos == End(blocks[i - 1]))
        && AllocOf(mem[End(b) - 1]) == (i + 1 == |blocks| || blocks[i + 1].alloc)
        && (i + 1 < |blocks| ==> SizeOf(mem[End(b) - 1]) == blocks[i + 1].n && blocks[i + 1].pos == End(b))
    {
      var m, b := mem[..], blocks[i];
      TilesBounds(blocks, START, brk, i);
      assert Fits(blocks, START, i) && Tagged(m, blocks[i]);
      PackRead(b.n, b.alloc);
      PackRead(2, true);
      PackRead(0, true);
      if i > 0 {
        assert Fits(blocks, START, i - 1) && Tagged(m, blocks[i - 1]);
        PackRead(blocks[i - 1].n, blocks[i - 1].alloc);
      }
      if i + 1 < |blocks| {
        assert Fits(blocks, START, i + 1) && Tagged(m, blocks[i + 1]);
        PackRead(blocks[i + 1].n, blocks[i + 1].alloc);
      }
    }

    /** `coalesce`: the four cases, decided by the tags on either side of the block. */
    method Coalesce(bp: nat, ghost i: nat) returns (r: nat)
      requires Tagging() && i < |blocks| && blocks[i].pos == bp && !blocks[i].alloc && CoalescedBut(blocks, i)
      modifies this`blocks, mem
      ensures Valid() && blocks == Merge(old(blocks), i) && r == Merged(old(blocks), i).pos
      ensures Kept(old(mem[..]), mem[..], old(blocks))
    {
      ghost var m, bs, b := mem[..], blocks, Merged(blocks, i);
      ReadTags(i);
      MergePlan(m, bs, brk, i);
      r := WriteMerged(bp, i);
      blocks := Merge(blocks, i);
    }

    method WriteMerged(bp: nat, ghost i: nat) returns (r: nat)
      requires Tagging() && i < |blocks| && blocks[i].pos == bp && !blocks[i].alloc
      requires var b := Merged(blocks, i); START <= b.pos && 2 <= b.n && End(b) <= mem.Length
      modifies mem
      ensures mem[..] == WriteTags(old(mem[..]), Merged(blocks, i)) && r == Merged(blocks, i).pos
    {
      ghost var m, b := mem[..], Merged(blocks, i);
      ReadTags(i);
      MergedIs(blocks, START, brk, i);
      var size := SizeOf(mem[bp - 1]);
      var prevAlloc := AllocOf(mem[bp - 2]);
      var nextAlloc := AllocOf(mem[bp + size - 1]);
      if prevAlloc && nextAlloc {
        assert b == blocks[i] && Tagged(m, blocks[i]);
        assert WriteTags(m, b) == m;
        r := bp;
      } else if prevAlloc {
        size := size + SizeOf(mem[bp + size - 1]);
        assert b == Blk(bp, size, false);
        PutTags(bp, size, false);
        r := bp;
      } else {
        r := WriteWithPrevious(bp, size, nextAlloc, i);
      }
    }

    /** Cases 3 and 4: the header goes to the previous block. */
    method WriteWithPrevious(bp: nat, size: nat, nextAlloc: bool, ghost i: nat) returns (r: nat)
      requires Tagging() && 0 < i < |blocks| && blocks[i].pos == bp && blocks[i].n == size && !blocks[i].alloc
      requires !blocks[i - 1].alloc && nextAlloc == (i + 1 == |blocks| || blocks[i + 1].alloc)
      requires var b := Merged(blocks, i); START <= b.pos && 2 <= b.n && End(b) <= mem.Length
      modifies mem
      ensures mem[..] == WriteTags(old(mem[..]), Merged(blocks, i)) && r == Merged(blocks, i).pos
    {
      ghost var m, b := mem[..], Merged(blocks, i);
      ReadTags(i);
      MergedIs(blocks, START, brk, i);
      var before := SizeOf(mem[bp - 2]);
      r := bp - before;
      if nextAlloc {
        assert b == Blk(r, size + before, false);
        Commute(m, bp + size - 2, r - 1, Pack(size + before, false));
        Put(bp + size - 2, Pack(size + before, false));
        Put(r - 1, Pack(size + before, false));
      } else {
        var whole := size + before + SizeOf(mem[bp + size - 1]);
        assert b == Blk(r, whole, false);
        PutTags(r, whole, false);
      }
    }

    /** `place`: take the first `an` words of a free block, splitting off the rest if it makes a block. */
    method Place(bp: nat, an: nat, ghost i: nat)
      requires Valid() && i < |blocks| && blocks[i].pos == bp && !blocks[i].alloc
      requires an % 2 == 0 && 4 <= an <= blocks[i].n
      modifies this`blocks, mem
      ensures Valid() && blocks == BlockChain.Place(old(blocks), i, an)
      ensures Kept(old(mem[..]), mem[..], old(blocks))
    {
      ghost var m, bs := mem[..], blocks;
      ReadTags(i);
      PlacePlan(m, bs, brk, i, an);
      WritePlaced(bp, SizeOf(mem[bp - 1]), an);
      blocks := BlockChain.Place(blocks, i, an);
    }

    method WritePlaced(bp: nat, csize: nat, an: nat)
      requires START <= bp && 4 <= an <= csize && bp + csize <= mem.Length
      modifies mem
      ensures mem[..] == PlacedWords(old(mem[..]), Blk(bp, csize, false), an)
    {
      if csize >= an + 4 {
        PutTags(bp, an, true);
        PutTags(bp + an, csize - an, false);
      } else {
        PutTags(bp, csize, true);
      }
    }

    /** `find_fit`: the first free block that is large enough. */
    method FindFit(an: nat) returns (found: Option<nat>, ghost i: nat)
      requires Valid()
      ensures found.Some? ==>
        && i < |blocks| && found.value == blocks[i].pos && !blocks[i].alloc && an <= blocks[i].n
        && (forall k :: 0 <= k < i ==> blocks[k].alloc || blocks[k].n < an)
      ensures found.None? <==> NoFit(blocks, an)
    {
      PackRead(2, true);
      PackRead(0, true);
      i := 0;
      var bp := 2;  // heap_listp, the prologue
      assert AllocOf(mem[bp - 1]);  // so the walk goes on to the next block
      bp := bp + SizeOf(mem[bp - 1]);
      while SizeOf(mem[bp - 1]) > 0
        invariant i <= |blocks| && bp == Edge(blocks, START, i) && 1 <= bp <= brk
        invariant i == |blocks| ==> SizeOf(mem[bp - 1]) == 0
        invariant forall k :: 0 <= k < i ==> blocks[k].alloc || blocks[k].n < an
        decreases |blocks| - i
      {
        ReadTags(i);
        if !AllocOf(mem[bp - 1]) && an <= SizeOf(mem[bp - 1]) {
          return Some(bp), i;
        }
        bp := bp + SizeOf(mem[bp - 1]);
        i := i + 1;
        EdgeBounds(blocks, START, brk, i);
      }
      if i < |blocks| {
        ReadTags(i);
      }
      return None, i;
    }

    /** `mem_sbrk`: grow the heap, asking for whole pages; `granted` is the answer of new_pages. */
    method Sbrk(n: nat, granted: bool) returns (old': Option<nat>)
      requires brk <= top
      modifies this`brk, this`top
      ensures old'.None? ==> brk == old(brk) && top == old(top)
      ensures old'.None? <==> Refused(old(brk), old(top), mem.Length, n, granted)
      ensures old'.Some? ==> old'.value == old(brk) && brk == old(brk) + n <= mem.Length && brk <= top
      ensures old'.Some? ==> Paged(old(top), brk, top)
    {
      if brk + n > mem.Length {
        return None;
      }
      if brk + n > top {
        var more := brk + n - top;
        WholePages(more);
        more := (more + PAGE_WORDS - 1) / PAGE_WORDS * PAGE_WORDS;
        if !granted {
          return None;
        }
        top := top + more;
      }
      var was := brk;
      brk := brk + n;
      return Some(was);
    }

    /** `extend_heap`: a new free block at the end, joined with a free block before it. */
    method Extend(words: nat, granted: bool) returns (bp: Option<nat>, ghost i: nat)
      requires Valid() && 3 <= words
      modifies this, mem
      ensures Valid()
      ensures bp.None? ==> blocks == old(blocks) && mem[..] == old(mem[..]) && brk == old(brk) && top == old(top)
      ensures bp.None? <==> Refused(old(brk), old(top), mem.Length, words + words % 2, granted)
      ensures bp.Some? ==> i < |blocks| && blocks[i].pos == bp.value && !blocks[i].alloc && words <= blocks[i].n
      ensures bp.Some? ==>
        && blocks[i] == Tail(old(blocks), old(brk), words + words % 2) && brk == old(brk) + words + words % 2
        && Paged(old(top), brk, top)
      ensures Kept(old(mem[..]), mem[..], old(blocks))
      ensures forall b :: IsLive(blocks, b) <==> IsLive(old(blocks), b)
    {
      var n := words + words % 2;
      ghost var m, bs, brk0 := mem[..], blocks, brk;
      var p := Sbrk(n, granted);
      i := 0;
      if p.None? {
        bp := None;
      } else {
        GrowPlan(m, bs, brk0, n);
        PutTags(p.value, n, false);
        Put(p.value + n - 1, Pack(0, true));
        blocks := blocks + [Blk(p.value, n, false)];
        i := |bs|;
        assert mem[..] == Grown(m, brk0, n);
        TailIs(m, bs, brk0, n);
        var r;
        r, i := Settle(p.value, i);
        bp := Some(r);
      }
    }

    /** Coalesce a block that was just added or freed. */
    method Settle(bp: nat, ghost i: nat) returns (r: nat, ghost i': nat)
      requires Tagging() && i < |blocks| && blocks[i].pos == bp && !blocks[i].alloc && CoalescedBut(blocks, i)
      modifies this`blocks, mem
      ensures Valid() && i' < |blocks| && blocks[i'].pos == r && !blocks[i'].alloc
      ensures old(blocks)[i].n <= blocks[i'].n && blocks[i'] == Merged(old(blocks), i)
      ensures forall b :: IsLive(blocks, b) <==> IsLive(old(blocks), b)
      ensures Kept(old(mem[..]), mem[..], old(blocks))
    {
      ghost var was := blocks;
      MergedIs(blocks, START, brk, i);
      r := Coalesce(bp, i);
      i' := MergeFrom(was, i);
      assert blocks[i'] == Merged(was, i);
      forall b ensures IsLive(blocks, b) <==> IsLive(was, b) {
        MergeLive(was, i, b);
      }
    }

    /** A free block of at least `an` words: the first that fits, or one at the end of a larger heap. */
    method Obtain(an: nat, granted: bool) returns (bp: Option<nat>, ghost i: nat)
      requires Valid() && 4 <= an && an % 2 == 0
      modifies this, mem
      ensures Valid() && Kept(old(mem[..]), mem[..], old(blocks))
      ensures forall c :: IsLive(blocks, c) <==> IsLive(old(blocks), c)
      ensures bp.None? <==>
        NoFit(old(blocks), an) && Refused(old(brk), old(top), mem.Length, Growth(an), granted)
      ensures bp.None? ==> blocks == old(blocks) && mem[..] == old(mem[..]) && brk == old(brk) && top == old(top)
      ensures bp.Some? ==> i < |blocks| && blocks[i].pos == bp.value && !blocks[i].alloc && an <= blocks[i].n
      ensures bp.Some? ==> Supplied(old(blocks), old(brk), old(top), an, blocks[i], brk, top)
    {
      bp, i := FindFit(an);
      if bp.None? {
        bp, i := Extend(Growth(an), granted);
      }
    }

    /** `mm_malloc`: a block with at least `size` bytes of payload. */
    method Malloc(size: int, granted: bool) returns (bp: Option<nat>, ghost b: Blk)
      requires Valid() && size + 15 < 0x8000_0000
      modifies this, mem
      ensures Valid() && Kept(old(mem[..]), mem[..], old(blocks))
      ensures bp.None? ==> blocks == old(blocks) && mem[..] == old(mem[..]) && brk == old(brk) && top == old(top)
      ensures bp.None? <==> OutOfMemory(old(blocks), old(brk), old(top), mem.Length, size, granted)
      ensures bp.Some? ==> 0 < size && Granted(old(blocks), old(brk), old(top), Adjusted(size), b, brk, top)
      ensures bp.Some? ==> IsNew(old(blocks), blocks, b) && b.pos == bp.value && 0 < size <= 4 * b.n - 8
    {
      b := Blk(0, 0, false);
      bp := None;
      if size > 0 {
        var an := Adjusted(size);
        AdjustedFits(size);
        ghost var m, bs := mem[..], blocks;
        ghost var i;
        bp, i := Obtain(an, granted);
        if bp.Some? {
          ghost var m1, bs1 := mem[..], blocks;
          Place(bp.value, an, i);
          b := Placed(bs1[i], an)[0];
          assert CutFrom(bs1[i], an, b);
          KeptTrans(m, m1, mem[..], bs, bs1);
          NewPlaced(bs, bs1, brk, i, an);
        }
      }
    }

    /** `mm_free`: nothing on a null pointer, otherwise the tags say free and the block is coalesced. */
    method Free(bp: nat, ghost i: nat)
      requires Valid() && (bp != 0 ==> i < |blocks| && blocks[i].pos == bp && blocks[i].alloc)
      modifies this`blocks, mem
      ensures Valid() && Kept(old(mem[..]), mem[..], blocks)
      ensures bp == 0 ==> mem[..] == old(mem[..]) && blocks == old(blocks)
      ensures bp != 0 ==> forall c :: IsLive(blocks, c) <==> IsLive(old(blocks), c) && c != old(blocks)[i]
    {
      if bp != 0 {
        ghost var m, bs, b := mem[..], blocks, blocks[i];
        ReadTags(i);
        FreePlan(m, bs, brk, i);
        var size := SizeOf(mem[bp - 1]);
        PutTags(bp, size, false);
        blocks := blocks[i := b.(alloc := false)];
        ghost var m1, bs1 := mem[..], blocks;
        var r, i' := Settle(bp, i);
        KeptTrans(m, m1, mem[..], bs1, bs1);
        KeptSame(m, mem[..], bs1, blocks);
      }
    }

    /** The whole words of a memcpy. */
    method CopyWords(from: nat, to: nat, n: nat)
      requires from + n <= mem.Length && to + n <= mem.Length && (from + n <= to || to + n <= from)
      modifies mem
      ensures forall x :: 0 <= x < mem.Length ==>
        mem[x] == if to <= x < to + n then old(mem[x - to + from]) else old(mem[x])
    {
      for k := 0 to n
        invariant forall x :: 0 <= x < mem.Length ==>
          mem[x] == if to <= x < to + k then old(mem[x - to + from]) else old(mem[x])
      {
        mem[to + k] := mem[from + k];
      }
    }

    /** memcpy of `bytes` bytes between places that do not overlap. */
    method Copy(from: nat, to: nat, bytes: nat)
      requires from + Words(bytes) <= mem.Length && to + Words(bytes) <= mem.Length
      requires from + Words(bytes) <= to || to + Words(bytes) <= from
      modifies mem
      ensures Copied(old(mem[..]), mem[..], from, to, bytes)
    {
      ghost var m := mem[..];
      var whole, rest := bytes / 4, bytes % 4;
      assert Words(bytes) == if rest == 0 then whole else whole + 1;
      CopyWords(from, to, whole);
      if rest != 0 {
        mem[to + whole] := LowBytes(mem[from + whole], mem[to + whole], rest);
      }
      CopiedBytes(m, mem[..], from, to, bytes);
    }

    /**
      `mm_realloc`: allocate, copy, free.  It copies up to the old block's size, overhead
      included, which still stays inside the new payload.
     */
    method Realloc(ptr: nat, size: int, granted: bool, ghost old': Blk) returns (bp: Option<nat>, ghost b: Blk)
      requires Valid() && size + 15 < 0x8000_0000 && (ptr != 0 ==> IsLive(blocks, old') && old'.pos == ptr)
      modifies this, mem
      ensures Valid()
      ensures bp.None? ==> blocks == old(blocks) && mem[..] == old(mem[..]) && brk == old(brk) && top == old(top)
      ensures bp.Some? ==> 0 < size && Granted(old(blocks), old(brk), old(top), Adjusted(size), b, brk, top)
      ensures bp.None? <==> OutOfMemory(old(blocks), old(brk), old(top), mem.Length, size, granted)
      ensures bp.Some? ==> b.pos == bp.value && 0 < size <= 4 * b.n - 8 && !IsLive(old(blocks), b)
      ensures bp.Some? ==>
        forall c :: IsLive(blocks, c) <==> (IsLive(old(blocks), c) && (ptr != 0 ==> c != old')) || c == b
      ensures bp.Some? ==>
        forall c :: IsLive(old(blocks), c) && (ptr != 0 ==> c != old') ==> SameWords(old(mem[..]), mem[..], c)
      ensures bp.Some? && ptr != 0 ==> SameFront(old(mem[..]), mem[..], old', b, size)
    {
      ghost var m, bs := mem[..], blocks;
      LiveBounds(m, bs, brk);
      bp, b := Malloc(size, granted);
      if bp.Some? && ptr != 0 {
        MoveInto(ptr, bp.value, size, old', b, m, bs);
      }
    }

    /** The copy and the free. */
    method MoveInto(ptr: nat, bp: nat, size: int, ghost a: Blk, ghost b: Blk, ghost m: seq<nat>, ghost bs: seq<Blk>)
      requires Valid() && IsLive(bs, a) && a.pos == ptr && IsNew(bs, blocks, b) && b.pos == bp
      requires 0 < size <= 4 * b.n - 8
      requires ptr != 0 && Kept(m, mem[..], bs) && AllBounded(bs, |m|)
      modifies this`blocks, mem
      ensures Valid() && forall c :: IsLive(blocks, c) <==> (IsLive(bs, c) && c != a) || c == b
      ensures forall c :: IsLive(bs, c) && c != a ==> SameWords(m, mem[..], c)
      ensures SameFront(m, mem[..], a, b, size)
    {
      ghost var m1, bs1 := mem[..], blocks;
      assert IsLive(blocks, a) && IsLive(blocks, b) && a != b;
      BlockBounds(m1, blocks, brk, a);
      BlockBounds(m1, blocks, brk, b);
      ghost var bytes := CopyFront(ptr, bp, size, a, b);
      ghost var m2 := mem[..];
      ghost var i :| 0 <= i < |blocks| && blocks[i] == a;
      Free(ptr, i);
      OthersSame(m, m1, m2, mem[..], bs, bs1, blocks, a, b);
      FrontSame(m, m1, m2, mem[..], bs, blocks, a, b, size, bytes);
    }

    method CopyFront(ptr: nat, bp: nat, size: int, ghost a: Blk, ghost b: Blk) returns (ghost bytes: nat)
      requires Valid() && a in blocks && b in blocks && a != b && a.pos == ptr && b.pos == bp && 0 < size <= 4 * b.n - 8
      modifies mem
      ensures Valid() && bytes == if 4 * a.n < size then 4 * a.n else size
      ensures Copied(old(mem[..]), mem[..], ptr, bp, bytes)
      ensures forall c :: c in blocks && c != b ==> SameWords(old(mem[..]), mem[..], c)
    {
      ghost var m := mem[..];
      BlockBounds(m, blocks, brk, a);
      BlockBounds(m, blocks, brk, b);
      BlocksApart(blocks, START, brk, a, b);
      PackRead(a.n, a.alloc);
      var oldSize := 4 * SizeOf(mem[ptr - 1]);
      var count := if oldSize < size then oldSize else size;
      bytes := count;
      WordsBound(count, a.n, b.n);
      Copy(ptr, bp, count);
      PayloadWrite(m, mem[..], blocks, brk, b);
    }
  }

  ghost predicate AllBounded(bs: seq<Blk>, limit: nat) {
    forall c :: IsLive(bs, c) ==> 4 <= c.n && End(c) <= limit
  }

  lemma LiveBounds(m: seq<nat>, bs: seq<Blk>, brk: nat)
    requires Shape(m, bs, brk)
    ensures AllBounded(bs, |m|)
  {
    forall c | IsLive(bs, c) ensures 4 <= c.n && End(c) <= |m| {
      BlockBounds(m, bs, brk, c);
    }
  }

  lemma WordsBound(bytes: nat, an: nat, bn: nat)
    requires bytes <= 4 * an && bytes <= 4 * bn - 8 && 4 <= bn
    ensures Words(bytes) <= an && Words(bytes) <= bn - 2
  {
  }

  function Words(bytes: nat): nat {
    (bytes + 3) / 4
  }

  function Shift(k: nat): (p: nat)
    requires k <= 3
    ensures p > 0
  {
    if k == 0 then 1 else if k == 1 then 0x100 else if k == 2 then 0x1_0000 else 0x100_0000
  }

  /** Byte x from word `at` on. */
  function ByteAt(m: seq<nat>, at: nat, x: nat): nat
    requires at + x / 4 < |m|
  {
    m[at + x / 4] / Shift(x % 4) % 0x100
  }

  /** The lowest k bytes of w, the others of v. */
  function LowBytes(w: nat, v: nat, k: nat): nat
    requires 0 < k <= 3
  {
    w % Shift(k) + (v - v % Shift(k))
  }

  lemma ModAdd(x: int, t: int, low: int)
    requires x == 0x100 * t + low
    ensures x % 0x100 == low % 0x100
  {
  }

  lemma LowOf(x: nat, q: nat, k: nat, low: nat, j: nat)
    requires 0 < k <= 3 && j < k && x == Shift(k) * q + low && low < Shift(k)
    ensures x / Shift(j) % 0x100 == low / Shift(j) % 0x100
  {
    var t := if k - j == 1 then q else if k - j == 2 then 0x100 * q else 0x1_0000 * q;
    assert x / Shift(j) == 0x100 * t + low / Shift(j);
    ModAdd(x / Shift(j), t, low / Shift(j));
  }

  lemma Reassemble(x: nat, k: nat)
    requires 0 < k <= 3
    ensures x == Shift(k) * (x / Shift(k)) + x % Shift(k) && x % Shift(k) < Shift(k)
  {
  }

  lemma PartialByte(w: nat, v: nat, k: nat, j: nat)
    requires 0 < k <= 3 && j < k
    ensures LowBytes(w, v, k) / Shift(j) % 0x100 == w / Shift(j) % 0x100
  {
    Reassemble(w, k);
    Reassemble(v, k);
    LowOf(w, w / Shift(k), k, w % Shift(k), j);
    LowOf(LowBytes(w, v, k), v / Shift(k), k, w % Shift(k), j);
  }

  lemma CopiedBytes(m: seq<nat>, m': seq<nat>, from: nat, to: nat, bytes: nat)
    requires |m'| == |m| && from + Words(bytes) <= |m| && to + Words(bytes) <= |m|
    requires forall x :: 0 <= x < |m| && !(to <= x < to + Words(bytes)) ==> m'[x] == m[x]
    requires m'[to..to + bytes / 4] == m[from..from + bytes / 4]
    requires bytes % 4 != 0 ==>
      m'[to + bytes / 4] == LowBytes(m[from + bytes / 4], m[to + bytes / 4], bytes % 4)
    ensures Copied(m, m', from, to, bytes)
  {
    forall x: nat | x < bytes ensures ByteAt(m', to, x) == ByteAt(m, from, x) {
      var k := x / 4;
      if k == bytes / 4 {
        PartialByte(m[from + k], m[to + k], bytes % 4, x % 4);
      } else {
        assert m'[to..to + bytes / 4][k] == m[from..from + bytes / 4][k];
      }
    }
  }

  predicate Copied(m: seq<nat>, m': seq<nat>, from: nat, to: nat, bytes: nat) {
    && |m'| == |m| && from + Words(bytes) <= |m| && to + Words(bytes) <= |m|
    && (forall x :: 0 <= x < |m| && !(to <= x < to + Words(bytes)) ==> m'[x] == m[x])
    && (forall x :: 0 <= x < bytes ==> ByteAt(m', to, x) == ByteAt(m, from, x))
  }

  /** The payload of block c is the same. */
  predicate SameWords(m: seq<nat>, m': seq<nat>, c: Blk) {
    4 <= c.n && End(c) <= |m| + 1 && |m| == |m'| && Payload(m', c) == Payload(m, c)
  }

  /** The bytes that the old payload and the request have in common. */
  predicate SameFront(m: seq<nat>, m': seq<nat>, a: Blk, b: Blk, size: int) {
    && 2 <= a.n && End(a) <= |m| && End(b) <= |m'|
    && forall x :: 0 <= x < size && x < 4 * a.n - 8 && x < 4 * b.n - 8 ==> ByteAt(m', b.pos, x) == ByteAt(m, a.pos, x)
  }

  lemma BlockBounds(m: seq<nat>, bs: seq<Blk>, brk: nat, b: Blk)
    requires Shape(m, bs, brk) && b in bs
    ensures START <= b.pos && 4 <= b.n && End(b) <= brk && BlkOk(b) && Tagged(m, b)
  {
    var i :| 0 <= i < |bs| && bs[i] == b;
    TilesBounds(bs, START, brk, i);
    assert Fits(bs, START, i) && Tagged(m, bs[i]);
  }

  /** Words inside the payload of b are changed: no tag and no other payload is. */
  lemma PayloadWrite(m: seq<nat>, m': seq<nat>, bs: seq<Blk>, brk: nat, b: Blk)
    requires Shape(m, bs, brk) && b in bs && |m'| == |m|
    requires forall x :: 0 <= x < |m| && !(b.pos <= x < End(b) - 2) ==> m'[x] == m[x]
    ensures Shape(m', bs, brk)
    ensures forall c :: c in bs && c != b ==> SameWords(m, m', c)
  {
    BlockBounds(m, bs, brk, b);
    forall c | c in bs ensures Tagged(m', c) && (c != b ==> SameWords(m, m', c)) {
      BlockBounds(m, bs, brk, c);
      if c != b {
        BlocksApart(bs, START, brk, b, c);
      }
    }
    forall k | 0 <= k < |bs| ensures Tagged(m', bs[k]) {
      assert bs[k] in bs;
    }
  }

  /** Allocate, copy, free: the payloads of the other blocks through all three. */
  lemma OthersSame(m: seq<nat>, m1: seq<nat>, m2: seq<nat>, m3: seq<nat>, bs: seq<Blk>, bs1: seq<Blk>, bs2: seq<Blk>,
                   a: Blk, b: Blk)
    requires Kept(m, m1, bs) && Kept(m2, m3, bs2) && |m1| == |m2|
    requires IsNew(bs, bs1, b) && forall c :: IsLive(bs2, c) <==> IsLive(bs1, c) && c != a
    requires forall c :: c in bs1 && c != b ==> SameWords(m1, m2, c)
    ensures forall c :: IsLive(bs, c) && c != a ==> SameWords(m, m3, c)
  {
    forall c | IsLive(bs, c) && c != a ensures SameWords(m, m3, c) {
      assert IsLive(bs1, c) && IsLive(bs2, c);
      assert SameWords(m1, m2, c);
    }
  }

  lemma PayloadByte(m: seq<nat>, m': seq<nat>, c: Blk, x: nat)
    requires 4 <= c.n && End(c) <= |m| && |m| == |m'| && Payload(m', c) == Payload(m, c) && x < 4 * c.n - 8
    ensures ByteAt(m', c.pos, x) == ByteAt(m, c.pos, x)
  {
    var k := x / 4;
    assert Payload(m', c)[k] == m'[c.pos + k] && Payload(m, c)[k] == m[c.pos + k];
  }

  lemma FrontSame(m: seq<nat>, m1: seq<nat>, m2: seq<nat>, m3: seq<nat>, bs: seq<Blk>, bs2: seq<Blk>,
                  a: Blk, b: Blk, size: int, bytes: nat)
    requires Kept(m, m1, bs) && Copied(m1, m2, a.pos, b.pos, bytes) && Kept(m2, m3, bs2)
    requires IsLive(bs, a) && IsLive(bs2, b) && 4 <= a.n && 4 <= b.n && End(a) <= |m| && End(b) <= |m|
    requires 0 < size && bytes == if 4 * a.n < size then 4 * a.n else size
    ensures SameFront(m, m3, a, b, size)
  {
    forall x: nat | x < size && x < 4 * a.n - 8 && x < 4 * b.n - 8
      ensures ByteAt(m3, b.pos, x) == ByteAt(m, a.pos, x)
    {
      PayloadByte(m, m1, a, x);
      PayloadByte(m2, m3, b, x);
    }
  }

  /** The block size, in words, that mm_malloc looks for. */
  function Adjusted(size: int): nat
    requires 0 < size
  {
    if size <= 8 then 4 else 2 * ((size + 15) / 8)
  }

  predicate NoFit(bs: seq<Blk>, an: nat) {
    forall k :: 0 <= k < |bs| ==> bs[k].alloc || bs[k].n < an
  }

  /** By how many words the heap grows for a block of `an` words. */
  function Growth(an: nat): nat {
    if an < CHUNK_WORDS then CHUNK_WORDS else an
  }

  /** Block k is the first free one of at least `an` words. */
  predicate FirstFit(bs: seq<Blk>, an: nat, k: nat) {
    k < |bs| && !bs[k].alloc && an <= bs[k].n && forall j :: 0 <= j < k ==> bs[j].alloc || bs[j].n < an
  }

  /** The free block at the end of a heap that has grown by n words. */
  function Tail(bs: seq<Blk>, brk: nat, n: nat): Blk {
    if bs != [] && !bs[|bs| - 1].alloc then Blk(bs[|bs| - 1].pos, bs[|bs| - 1].n + n, false) else Blk(brk, n, false)
  }

  /** The end of the pages: as it was if the break stays below it, and otherwise the least whole number of pages on. */
  predicate Paged(top: nat, brk': nat, top': nat) {
    if brk' <= top then top' == top
    else top <= top' && (top' - top) % PAGE_WORDS == 0 && brk' <= top' < brk' + PAGE_WORDS
  }

  lemma WholePages(more: nat)
    ensures var k := (more + PAGE_WORDS - 1) / PAGE_WORDS * PAGE_WORDS;
      k % PAGE_WORDS == 0 && more <= k < more + PAGE_WORDS
  {
  }

  /**
    Where the words for a block come from: the first free block that fits, or if there is none the end of a
    larger heap.
   */
  ghost predicate Supplied(bs: seq<Blk>, brk: nat, top: nat, an: nat, f: Blk, brk': nat, top': nat) {
    if NoFit(bs, an) then f == Tail(bs, brk, Growth(an)) && brk' == brk + Growth(an) && Paged(top, brk', top')
    else brk' == brk && top' == top && exists k: nat :: FirstFit(bs, an, k) && f == bs[k]
  }

  /** The front of the free block f, or all of it if what is left would be less than 4 words. */
  predicate CutFrom(f: Blk, an: nat, b: Blk) {
    b.pos == f.pos && b.alloc && an <= f.n && b.n == if f.n - an >= 4 then an else f.n
  }

  /** The block b that a request for `an` words gets. */
  ghost predicate Granted(bs: seq<Blk>, brk: nat, top: nat, an: nat, b: Blk, brk': nat, top': nat) {
    exists f :: Supplied(bs, brk, top, an, f, brk', top') && CutFrom(f, an, b)
  }

  lemma TailIs(m: seq<nat>, bs: seq<Blk>, brk: nat, n: nat)
    requires Shape(m, bs, brk) && 0 < n
    ensures Merged(bs + [Blk(brk, n, false)], |bs|) == Tail(bs, brk, n)
  {
    if bs != [] {
      TilesBounds(bs, START, brk, |bs| - 1);
      assert Fits(bs, START, |bs| - 1);
    }
  }

  /** The break cannot be moved by n words: the heap would be too large, or needs pages it does not get. */
  predicate Refused(brk: nat, top: nat, limit: nat, n: nat, granted: bool) {
    brk + n > limit || (brk + n > top && !granted)
  }

  /** The only reasons for a null pointer: no size, or no free block that fits and no way to grow. */
  predicate OutOfMemory(bs: seq<Blk>, brk: nat, top: nat, limit: nat, size: int, granted: bool) {
    size <= 0 || (NoFit(bs, Adjusted(size)) && Refused(brk, top, limit, Growth(Adjusted(size)), granted))
  }

  /** The least even number of words, at least 4, that holds the payload and both tags. */
  lemma AdjustedFits(size: int)
    requires 0 < size
    ensures Adjusted(size) % 2 == 0 && 4 <= Adjusted(size) && size <= 4 * Adjusted(size) - 8
    ensures forall an: nat :: an % 2 == 0 && 4 <= an && size <= 4 * an - 8 ==> Adjusted(size) <= an
  {
  }

  /** b is the one allocated block that was not there before. */
  ghost predicate IsNew(was: seq<Blk>, now: seq<Blk>, b: Blk) {
    !IsLive(was, b) && forall c :: IsLive(now, c) <==> IsLive(was, c) || c == b
  }

  lemma NewPlaced(bs: seq<Blk>, bs1: seq<Blk>, brk: nat, i: nat, an: nat)
    requires Tiles(bs1, START, brk) && i < |bs1| && !bs1[i].alloc && 4 <= an
    requires forall c :: IsLive(bs1, c) <==> IsLive(bs, c)
    ensures IsNew(bs, BlockChain.Place(bs1, i, an), Placed(bs1[i], an)[0])
  {
    var b := Placed(bs1[i], an)[0];
    assert Fits(bs1, START, i);
    if b in bs1 {
      BlocksApart(bs1, START, brk, b, bs1[i]);
    }
    forall c ensures IsLive(BlockChain.Place(bs1, i, an), c) <==> IsLive(bs, c) || c == b {
      PlaceLive(bs1, i, an, c);
    }
  }

  lemma FreePlan(m: seq<nat>, bs: seq<Blk>, brk: nat, i: nat)
    requires Shape(m, bs, brk) && Coalesced(bs) && i < |bs| && bs[i].alloc
    ensures START <= bs[i].pos && 2 <= bs[i].n && End(bs[i]) <= brk
    ensures var b := bs[i].(alloc := false); var r := bs[i := b]; var m' := WriteTags(m, b);
      && Shape(m', r, brk) && CoalescedBut(r, i) && Kept(m, m', r)
      && forall c :: IsLive(r, c) <==> IsLive(bs, c) && c != bs[i]
  {
    var b := bs[i].(alloc := false);
    var r := bs[i := b];
    TilesBounds(bs, START, brk, i);
    assert Fits(bs, START, i);
    FreedTiles(bs, START, brk, i);
    assert r == Splice(bs, i, i + 1, [b]);
    WriteShape(m, bs, brk, i, i + 1, b);
    forall c ensures IsLive(r, c) <==> IsLive(bs, c) && c != bs[i] {
      FreedLive(bs, START, brk, i, c);
    }
    forall c | IsLive(r, c) && End(c) <= |m| + 1 && 2 <= c.n
      ensures Payload(WriteTags(m, b), c) == Payload(m, c)
    {
      var k :| 0 <= k < |bs| && bs[k] == c;
      assert Fits(bs, START, k) && Tagged(m, bs[k]);
      BlocksApart(bs, START, brk, c, bs[i]);
      WriteApart(m, b, c);
    }
  }

  lemma KeptSame(m: seq<nat>, m': seq<nat>, bs: seq<Blk>, bs': seq<Blk>)
    requires Kept(m, m', bs) && forall c :: IsLive(bs', c) ==> IsLive(bs, c)
    ensures Kept(m, m', bs')
  {
  }

  lemma Commute(m: seq<nat>, a: nat, b: nat, w: nat)
    requires a < |m| && b < |m|
    ensures m[a := w][b := w] == m[b := w][a := w]
  {
  }

  /** Coalescing keeps the tags right and the live payloads as they are. */
  lemma MergePlan(m: seq<nat>, bs: seq<Blk>, brk: nat, i: nat)
    requires Shape(m, bs, brk) && i < |bs| && !bs[i].alloc && CoalescedBut(bs, i)
    ensures var b := Merged(bs, i);
      && START <= b.pos && 2 <= b.n && End(b) <= brk
      && Shape(WriteTags(m, b), Merge(bs, i), brk) && Coalesced(Merge(bs, i)) && Kept(m, WriteTags(m, b), bs)
  {
    var f, t := MergeFrom(bs, i), MergeTo(bs, i);
    MergedIs(bs, START, brk, i);
    MergedOk(bs, START, brk, i);
    EdgeBounds(bs, START, brk, f);
    EdgeBounds(bs, START, brk, t);
    WriteShape(m, bs, brk, f, t, Merged(bs, i));
    WriteKept(m, bs, brk, f, t, Merged(bs, i));
    MergeCoalesced(bs, i);
  }

  function Grown(m: seq<nat>, brk: nat, n: nat): seq<nat>
    requires 1 <= brk && 2 <= n && brk + n <= |m|
  {
    WriteTags(m, Blk(brk, n, false))[brk + n - 1 := Pack(0, true)]
  }

  /** Block i is replaced by b and c, which share its words. */
  predicate Halves(bs: seq<Blk>, brk: nat, i: nat, b: Blk, c: Blk) {
    && i < |bs| && BlkOk(b) && BlkOk(c) && START <= b.pos && End(c) <= brk
    && b.pos == bs[i].pos && End(b) == c.pos && End(c) == End(bs[i])
  }

  lemma OtherTagged(m: seq<nat>, bs: seq<Blk>, brk: nat, i: nat, b: Blk, c: Blk, j: nat)
    requires Shape(m, bs, brk) && Halves(bs, brk, i, b, c) && j < |bs| && j != i
    ensures Tagged(WriteTags(WriteTags(m, b), c), bs[j])
    ensures BlkOk(bs[j]) && Payload(WriteTags(WriteTags(m, b), c), bs[j]) == Payload(m, bs[j])
  {
    assert Fits(bs, START, i);
    assert Tagged(m, bs[j]) && Fits(bs, START, j);
    EdgeApart(bs, START, brk, i, i + 1, j);
    WriteApart(m, b, bs[j]);
    WriteApart(WriteTags(m, b), c, bs[j]);
  }

  lemma HalvesTile(bs: seq<Blk>, brk: nat, i: nat, b: Blk, c: Blk)
    requires Tiles(bs, START, brk) && Halves(bs, brk, i, b, c)
    ensures Tiles(Splice(bs, i, i + 1, [b, c]), START, brk)
  {
    assert Fits(bs, START, i);
    forall k | 0 <= k < 2 ensures Fits([b, c], b.pos, k) {
    }
    assert Edge([b, c], b.pos, 2) == End([b, c][1]);
    SpliceTiles(bs, START, brk, i, i + 1, [b, c]);
  }

  lemma WritePair(m: seq<nat>, bs: seq<Blk>, brk: nat, i: nat, b: Blk, c: Blk)
    requires Shape(m, bs, brk) && Halves(bs, brk, i, b, c)
    ensures Shape(WriteTags(WriteTags(m, b), c), Splice(bs, i, i + 1, [b, c]), brk)
  {
    HalvesTile(bs, brk, i, b, c);
    var r, m' := Splice(bs, i, i + 1, [b, c]), WriteTags(WriteTags(m, b), c);
    forall k | 0 <= k < |r| ensures Tagged(m', r[k]) {
      if k == i {
        assert r[k] == b;
        WriteApart(WriteTags(m, b), c, b);
      } else if k == i + 1 {
        assert r[k] == c;
      } else {
        var j := if k < i then k else k - 1;
        assert r[k] == bs[j];
        OtherTagged(m, bs, brk, i, b, c, j);
      }
    }
  }

  lemma PairKept(m: seq<nat>, bs: seq<Blk>, brk: nat, i: nat, b: Blk, c: Blk)
    requires Shape(m, bs, brk) && Halves(bs, brk, i, b, c) && !bs[i].alloc
    ensures Kept(m, WriteTags(WriteTags(m, b), c), bs)
  {
    forall d | IsLive(bs, d) && End(d) <= |m| + 1 && 2 <= d.n
      ensures Payload(WriteTags(WriteTags(m, b), c), d) == Payload(m, d)
    {
      var k :| 0 <= k < |bs| && bs[k] == d;
      OtherTagged(m, bs, brk, i, b, c, k);
    }
  }

  function PlacedWords(m: seq<nat>, b: Blk, an: nat): seq<nat>
    requires START <= b.pos && End(b) <= |m| && 4 <= an <= b.n
  {
    if b.n >= an + 4 then WriteTags(WriteTags(m, Blk(b.pos, an, true)), Blk(b.pos + an, b.n - an, false))
    else WriteTags(m, Blk(b.pos, b.n, true))
  }

  lemma PlacePlan(m: seq<nat>, bs: seq<Blk>, brk: nat, i: nat, an: nat)
    requires Shape(m, bs, brk) && Coalesced(bs) && i < |bs| && !bs[i].alloc && an % 2 == 0 && 4 <= an <= bs[i].n
    ensures START <= bs[i].pos && End(bs[i]) <= brk
    ensures var m' := PlacedWords(m, bs[i], an);
      Shape(m', BlockChain.Place(bs, i, an), brk) && Kept(m, m', bs)
    ensures Coalesced(BlockChain.Place(bs, i, an))
  {
    TilesBounds(bs, START, brk, i);
    assert Fits(bs, START, i);
    PlaceCoalesced(bs, i, an);
    EvenParts(bs[i], an);
    if bs[i].n >= an + 4 {
      PlaceSplit(m, bs, brk, i, an);
    } else {
      PlaceWhole(m, bs, brk, i);
    }
  }

  lemma PlaceSplit(m: seq<nat>, bs: seq<Blk>, brk: nat, i: nat, an: nat)
    requires Shape(m, bs, brk) && i < |bs| && !bs[i].alloc && BlkOk(bs[i]) && START <= bs[i].pos && End(bs[i]) <= brk
    requires an % 2 == 0 && 4 <= an && an + 4 <= bs[i].n && (bs[i].pos + an) % 2 == 0 && (bs[i].n - an) % 2 == 0
    ensures var b, c := Blk(bs[i].pos, an, true), Blk(bs[i].pos + an, bs[i].n - an, false);
      var m' := WriteTags(WriteTags(m, b), c);
      Shape(m', Splice(bs, i, i + 1, [b, c]), brk) && Kept(m, m', bs)
  {
    var b, c := Blk(bs[i].pos, an, true), Blk(bs[i].pos + an, bs[i].n - an, false);
    WritePair(m, bs, brk, i, b, c);
    PairKept(m, bs, brk, i, b, c);
  }

  lemma PlaceWhole(m: seq<nat>, bs: seq<Blk>, brk: nat, i: nat)
    requires Shape(m, bs, brk) && i < |bs| && !bs[i].alloc && BlkOk(bs[i]) && START <= bs[i].pos && End(bs[i]) <= brk
    ensures var b := Blk(bs[i].pos, bs[i].n, true);
      Shape(WriteTags(m, b), Splice(bs, i, i + 1, [b]), brk) && Kept(m, WriteTags(m, b), bs)
  {
    var b := Blk(bs[i].pos, bs[i].n, true);
    assert Fits(bs, START, i);
    WriteShape(m, bs, brk, i, i + 1, b);
    WriteKept(m, bs, brk, i, i + 1, b);
  }

  lemma GrownApart(m: seq<nat>, brk: nat, n: nat, c: Blk)
    requires 1 <= brk && 2 <= n && brk + n <= |m| && Tagged(m, c) && BlkOk(c) && End(c) <= brk
    ensures Tagged(Grown(m, brk, n), c) && Payload(Grown(m, brk, n), c) == Payload(m, c)
  {
    WriteApart(m, Blk(brk, n, false), c);
  }

  /** The new block takes the place of the epilogue, and a new epilogue follows it. */
  lemma GrowPlan(m: seq<nat>, bs: seq<Blk>, brk: nat, n: nat)
    requires Shape(m, bs, brk) && Coalesced(bs) && n % 2 == 0 && 4 <= n && brk + n <= |m|
    ensures var r := bs + [Blk(brk, n, false)];
      && Shape(Grown(m, brk, n), r, brk + n) && CoalescedBut(r, |bs|) && Kept(m, Grown(m, brk, n), bs)
      && forall b :: IsLive(r, b) <==> IsLive(bs, b)
  {
    var r, m' := bs + [Blk(brk, n, false)], Grown(m, brk, n);
    GrownTiles(bs, START, brk, n);
    forall k | 0 <= k < |r| ensures Tagged(m', r[k]) {
      if k < |bs| {
        assert Tagged(m, bs[k]) && Fits(bs, START, k);
        TilesBounds(bs, START, brk, k);
        GrownApart(m, brk, n, bs[k]);
      }
    }
    forall d | IsLive(bs, d) && End(d) <= |m| + 1 && 2 <= d.n ensures Payload(m', d) == Payload(m, d) {
      var k :| 0 <= k < |bs| && bs[k] == d;
      assert Tagged(m, bs[k]) && Fits(bs, START, k);
      TilesBounds(bs, START, brk, k);
      GrownApart(m, brk, n, d);
    }
  }

  lemma KeptTrans(m: seq<nat>, m': seq<nat>, m'': seq<nat>, bs: seq<Blk>, bs': seq<Blk>)
    requires Kept(m, m', bs) && Kept(m', m'', bs') && forall b :: IsLive(bs, b) ==> IsLive(bs', b)
    ensures Kept(m, m'', bs)
  {
  }
}
