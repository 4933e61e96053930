/**
  Programs that use the user heap: any sequence of mm_malloc, mm_realloc and mm_free, with reads and
  writes of the blocks in between (410user/libmalloc/mm_malloc.c). A program names its blocks by their
  position in the list of its pointers.
 */
module HeapRuns {
  import opened BlockChain
  import opened BoundaryTags
  import opened Options
  import opened Traces

  datatype Call =
    | Malloc(size: int, granted: bool)
    | Realloc(h: Option<nat>, size: int, granted: bool)   // None is the null pointer
    | Free(h: Option<nat>)
    | Write(k: nat, w: nat, x: nat)                        // word w of block k
    | Read(k: nat, w: nat)

  datatype Reply = Pointer(p: Option<nat>) | Value(x: nat) | Done

  /** Sizes whose adjustment does not overflow an int. */
  predicate InRange(call: Call) {
    match call
    case Malloc(size, _) => size + 15 < 0x8000_0000
    case Realloc(_, size, _) => size + 15 < 0x8000_0000
    case _ => true
  }

  /**
    The words of memory, what the tags describe, the break, the end of the pages behind it, and the blocks
    the program has.
   */
  datatype Snapshot = Snapshot(mem: seq<nat>, blocks: seq<Blk>, brk: nat, top: nat, mine: seq<Blk>)

  predicate Distinct(bs: seq<Blk>) {
    forall i, j :: 0 <= i < j < |bs| ==> bs[i] != bs[j]
  }

  /** The program has exactly the allocated blocks. */
  ghost predicate Owns(blocks: seq<Blk>, mine: seq<Blk>) {
    Distinct(mine) && forall b :: IsLive(blocks, b) <==> b in mine
  }

  /** Blocks tile the heap, tags are equal on both ends, no two free blocks touch. */
  ghost predicate Sane(s: Snapshot) {
    Shape(s.mem, s.blocks, s.brk) && Coalesced(s.blocks) && Owns(s.blocks, s.mine)
  }

  function PayloadOf(m: seq<nat>, b: Blk): seq<nat> {
    if 2 <= b.n && End(b) <= |m| + 1 then Payload(m, b) else []
  }

  /** What a program sees of the heap: the words of its blocks. */
  function Contents(m: seq<nat>, mine: seq<Blk>): (c: seq<seq<nat>>)
    ensures |c| == |mine| && forall k :: 0 <= k < |c| ==> c[k] == PayloadOf(m, mine[k])
  {
    seq(|mine|, k requires 0 <= k < |mine| => PayloadOf(m, mine[k]))
  }

  function Seen(s: Snapshot): (c: seq<seq<nat>>)
    ensures |c| == |s.mine|
  {
    Contents(s.mem, s.mine)
  }

  function Dropped<T>(c: seq<T>, k: nat): seq<T>
    requires k < |c|
  {
    c[..k] + c[k + 1..]
  }

  /** The contents with word w of block k replaced. */
  function Put(c: seq<seq<nat>>, k: nat, w: nat, x: nat): seq<seq<nat>>
    requires k < |c| && w < |c[k]|
  {
    var words: seq<nat> := c[k][w := x];
    c[k := words]
  }

  /** A program only uses blocks it has, and stays inside them. */
  predicate Legal(c: seq<seq<nat>>, call: Call) {
    match call
    case Malloc(_, _) => true
    case Realloc(h, _, _) => h.Some? ==> h.value < |c|
    case Free(h) => h.Some? ==> h.value < |c|
    case Write(k, w, _) => k < |c| && w < |c[k]|
    case Read(k, w) => k < |c| && w < |c[k]|
  }

  /** The block b is cut from the first free block that fits, or from the end of a heap that has grown. */
  ghost predicate Served(s: Snapshot, size: int, b: Blk, s': Snapshot) {
    0 < size && Granted(s.blocks, s.brk, s.top, Adjusted(size), b, s'.brk, s'.top)
  }

  predicate NoMemory(s: Snapshot, size: int, granted: bool) {
    OutOfMemory(s.blocks, s.brk, s.top, |s.mem|, size, granted)
  }

  /** A new block with at least `size` bytes behind the others, or what the program sees has not changed. */
  ghost predicate Allocated(s: Snapshot, p: Option<nat>, size: int, granted: bool, s': Snapshot) {
    (p.None? <==> NoMemory(s, size, granted)) &&
    if p.None? then s' == s
    else
      && |s'.mine| == |s.mine| + 1 && s'.mine[..|s.mine|] == s.mine && s'.mine[|s.mine|].pos == p.value
      && 0 < size <= 4 * |Seen(s')[|s.mine|]| && Seen(s')[..|s.mine|] == Seen(s)
      && Served(s, size, s'.mine[|s.mine|], s')
  }

  /** Block k has moved behind the others and has kept its first bytes, or what the program sees has not changed. */
  ghost predicate Moved(s: Snapshot, k: nat, p: Option<nat>, size: int, granted: bool, s': Snapshot)
    requires k < |s.mine|
  {
    (p.None? <==> NoMemory(s, size, granted)) &&
    if p.None? then s' == s
    else
      var last := |s.mine| - 1;
      && |s'.mine| == |s.mine| && s'.mine[..last] == Dropped(s.mine, k) && s'.mine[last].pos == p.value
      && 0 < size <= 4 * |Seen(s')[last]| && Seen(s')[..last] == Dropped(Seen(s), k)
      && SameFront(s.mem, s'.mem, s.mine[k], s'.mine[last], size)
      && Served(s, size, s'.mine[last], s')
  }

  predicate SameEnds(s: Snapshot, s': Snapshot) {
    s'.brk == s.brk && s'.top == s.top
  }

  /** How a call is answered, in terms of what the program sees. */
  ghost predicate Answers(s: Snapshot, call: Call, reply: Reply, s': Snapshot)
    requires Legal(Seen(s), call)
  {
    match call
    case Malloc(size, granted) => reply.Pointer? && Allocated(s, reply.p, size, granted, s')
    case Realloc(h, size, granted) =>
      reply.Pointer? &&
        if h.None? then Allocated(s, reply.p, size, granted, s') else Moved(s, h.value, reply.p, size, granted, s')
    case Free(h) =>
      reply == Done &&
        if h.None? then s' == s
        else s'.mine == Dropped(s.mine, h.value) && Seen(s') == Dropped(Seen(s), h.value) && SameEnds(s, s')
    case Write(k, w, x) =>
      && reply == Done && s'.mine == s.mine && s'.blocks == s.blocks && SameEnds(s, s')
      && Seen(s') == Put(Seen(s), k, w, x)
    case Read(k, w) => s' == s && reply == Value(Seen(s)[k][w])
  }

  /** An illegal call is not made. */
  ghost predicate Answered(s: Snapshot, call: Call, reply: Reply, s': Snapshot) {
    && Sane(s) && Sane(s')
    && if Legal(Seen(s), call) then Answers(s, call, reply, s') else s' == s
  }

  // ---------------------------------------------------------------- what the operations do to what is seen

  lemma MineBounds(s: Snapshot, k: nat)
    requires Sane(s) && k < |s.mine|
    ensures var b := s.mine[k];
      IsLive(s.blocks, b) && START <= b.pos && 4 <= b.n && End(b) <= s.brk <= |s.mem| && |Seen(s)[k]| == b.n - 2
  {
    assert s.mine[k] in s.mine;
    BlockBounds(s.mem, s.blocks, s.brk, s.mine[k]);
  }

  /** Blocks whose payload is kept look the same. */
  lemma KeptSeen(s: Snapshot, m': seq<nat>, bs: seq<Blk>)
    requires Sane(s) && Kept(s.mem, m', bs) && forall k :: 0 <= k < |s.mine| ==> IsLive(bs, s.mine[k])
    ensures Contents(m', s.mine) == Seen(s)
  {
    forall k | 0 <= k < |s.mine|
      ensures Contents(m', s.mine)[k] == Seen(s)[k]
    {
      MineBounds(s, k);
    }
  }

  lemma NewOwns(s: Snapshot, bs': seq<Blk>, b: Blk)
    requires Owns(s.blocks, s.mine) && IsNew(s.blocks, bs', b)
    ensures Owns(bs', s.mine + [b])
  {
    assert b !in s.mine;
  }

  lemma DropOwns(bs: seq<Blk>, bs': seq<Blk>, mine: seq<Blk>, k: nat)
    requires Owns(bs, mine) && k < |mine|
    requires forall c :: IsLive(bs', c) <==> IsLive(bs, c) && c != mine[k]
    ensures Owns(bs', Dropped(mine, k))
  {
    var r := Dropped(mine, k);
    forall c
      ensures c in r <==> c in mine && c != mine[k]
    {
      DroppedIn(mine, k, c);
    }
  }

  lemma DroppedIn(mine: seq<Blk>, k: nat, c: Blk)
    requires k < |mine| && Distinct(mine)
    ensures c in Dropped(mine, k) <==> c in mine && c != mine[k]
  {
    var r := Dropped(mine, k);
    assert forall i :: 0 <= i < |r| ==> r[i] == mine[if i < k then i else i + 1];
    if c in mine && c != mine[k] {
      var i :| 0 <= i < |mine| && mine[i] == c;
      assert r[if i < k then i else i - 1] == c;
    }
  }

  lemma WriteSeen(s: Snapshot, k: nat, w: nat, x: nat, s': Snapshot)
    requires Sane(s) && k < |s.mine| && w < |Seen(s)[k]|
    requires s.mine[k].pos + w < |s.mem| && s'.mem == s.mem[s.mine[k].pos + w := x] && s'.mine == s.mine
    ensures Seen(s') == Put(Seen(s), k, w, x)
  {
    MineBounds(s, k);
    forall j | 0 <= j < |s.mine|
      ensures Seen(s')[j] == Put(Seen(s), k, w, x)[j]
    {
      MineBounds(s, j);
      if j != k {
        assert s.mine[j] != s.mine[k];
        BlocksApart(s.blocks, START, s.brk, s.mine[j], s.mine[k]);
      }
    }
  }

  lemma NoneAnswered(s: Snapshot, size: int, granted: bool, s': Snapshot)
    requires Sane(s) && s' == s && NoMemory(s, size, granted)
    ensures Allocated(s, None, size, granted, s')
    ensures forall k :: 0 <= k < |s.mine| ==> Moved(s, k, None, size, granted, s')
  {
  }

  lemma MineLive(s: Snapshot)
    requires Sane(s)
    ensures forall k :: 0 <= k < |s.mine| ==> IsLive(s.blocks, s.mine[k])
  {
    forall k | 0 <= k < |s.mine|
      ensures IsLive(s.blocks, s.mine[k])
    {
      MineBounds(s, k);
    }
  }

  lemma NewAnswered(s: Snapshot, b: Blk, size: int, granted: bool, s': Snapshot)
    requires Sane(s) && s'.mine == s.mine + [b] && Shape(s'.mem, s'.blocks, s'.brk) && Coalesced(s'.blocks)
    requires Contents(s'.mem, s.mine) == Seen(s) && IsNew(s.blocks, s'.blocks, b) && 0 < size <= 4 * b.n - 8
    requires !NoMemory(s, size, granted) && Served(s, size, b, s')
    ensures Sane(s') && Allocated(s, Some(b.pos), size, granted, s')
  {
    NewOwns(s, s'.blocks, b);
    MineBounds(s', |s.mine|);
    assert Seen(s')[..|s.mine|] == Contents(s'.mem, s.mine);
  }

  lemma MovedAnswered(s: Snapshot, k: nat, b: Blk, size: int, granted: bool, s': Snapshot)
    requires Sane(s) && k < |s.mine| && s'.mine == Dropped(s.mine, k) + [b]
    requires Shape(s'.mem, s'.blocks, s'.brk) && Coalesced(s'.blocks) && !IsLive(s.blocks, b)
    requires forall c :: IsLive(s'.blocks, c) <==> (IsLive(s.blocks, c) && c != s.mine[k]) || c == b
    requires forall c :: IsLive(s.blocks, c) && c != s.mine[k] ==> SameWords(s.mem, s'.mem, c)
    requires SameFront(s.mem, s'.mem, s.mine[k], b, size) && 0 < size <= 4 * b.n - 8
    requires !NoMemory(s, size, granted) && Served(s, size, b, s')
    ensures Sane(s') && Moved(s, k, Some(b.pos), size, granted, s')
  {
    MovedOwns(s.blocks, s'.blocks, s.mine, k, b);
    MineBounds(s', |s.mine| - 1);
    RestSeen(s, k, s'.mem);
    assert Seen(s')[..|s.mine| - 1] == Contents(s'.mem, Dropped(s.mine, k));
  }

  /** The blocks other than k look the same. */
  lemma RestSeen(s: Snapshot, k: nat, m': seq<nat>)
    requires Sane(s) && k < |s.mine|
    requires forall c :: IsLive(s.blocks, c) && c != s.mine[k] ==> SameWords(s.mem, m', c)
    ensures Contents(m', Dropped(s.mine, k)) == Dropped(Seen(s), k)
  {
    forall i | 0 <= i < |s.mine| && i != k
      ensures PayloadOf(m', s.mine[i]) == Seen(s)[i]
    {
      RestSeenAt(s, k, m', i);
    }
    DroppedContents(m', s.mine, Seen(s), k);
  }

  lemma DroppedContents(m: seq<nat>, mine: seq<Blk>, seen: seq<seq<nat>>, k: nat)
    requires k < |mine| == |seen|
    requires forall i :: 0 <= i < |mine| && i != k ==> PayloadOf(m, mine[i]) == seen[i]
    ensures Contents(m, Dropped(mine, k)) == Dropped(seen, k)
  {
    forall j | 0 <= j < |mine| - 1
      ensures Contents(m, Dropped(mine, k))[j] == Dropped(seen, k)[j]
    {
      var i := if j < k then j else j + 1;
      assert PayloadOf(m, mine[i]) == seen[i];
    }
  }

  lemma RestSeenAt(s: Snapshot, k: nat, m': seq<nat>, i: nat)
    requires Sane(s) && k < |s.mine| && i < |s.mine| && i != k
    requires IsLive(s.blocks, s.mine[i]) && s.mine[i] != s.mine[k] ==> SameWords(s.mem, m', s.mine[i])
    ensures PayloadOf(m', s.mine[i]) == Seen(s)[i]
  {
    MineBounds(s, i);
    assert s.mine[i] != s.mine[k];
  }

  lemma MovedOwns(bs: seq<Blk>, bs': seq<Blk>, mine: seq<Blk>, k: nat, b: Blk)
    requires Owns(bs, mine) && k < |mine| && !IsLive(bs, b)
    requires forall c :: IsLive(bs', c) <==> (IsLive(bs, c) && c != mine[k]) || c == b
    ensures Owns(bs', Dropped(mine, k) + [b])
  {
    var rest := Dropped(mine, k);
    forall c
      ensures c in rest <==> c in mine && c != mine[k]
    {
      DroppedIn(mine, k, c);
    }
    assert b !in mine;
  }

  lemma FreeSeen(s: Snapshot, k: nat, s': Snapshot)
    requires Sane(s) && k < |s.mine| && s'.mine == Dropped(s.mine, k)
    requires Shape(s'.mem, s'.blocks, s'.brk) && Coalesced(s'.blocks) && Kept(s.mem, s'.mem, s'.blocks)
    requires forall c :: IsLive(s'.blocks, c) <==> IsLive(s.blocks, c) && c != s.mine[k]
    ensures Sane(s') && Seen(s') == Dropped(Seen(s), k)
  {
    DropOwns(s.blocks, s'.blocks, s.mine, k);
    forall i | 0 <= i < |s.mine| && i != k
      ensures PayloadOf(s'.mem, s.mine[i]) == Seen(s)[i]
    {
      FreeSeenAt(s, k, s', i);
    }
    DroppedContents(s'.mem, s.mine, Seen(s), k);
  }

  lemma FreeSeenAt(s: Snapshot, k: nat, s': Snapshot, i: nat)
    requires Sane(s) && k < |s.mine| && i < |s.mine| && i != k && Kept(s.mem, s'.mem, s'.blocks)
    requires IsLive(s'.blocks, s.mine[i]) <==> IsLive(s.blocks, s.mine[i]) && s.mine[i] != s.mine[k]
    ensures PayloadOf(s'.mem, s.mine[i]) == Seen(s)[i]
  {
    MineBounds(s, i);
    assert s.mine[i] != s.mine[k];
  }

  lemma FreeAnswered(s: Snapshot, k: nat, s': Snapshot)
    requires Sane(s) && Sane(s') && k < |s.mine| && s'.mine == Dropped(s.mine, k) && Seen(s') == Dropped(Seen(s), k)
    requires SameEnds(s, s')
    ensures Answered(s, Free(Some(k)), Done, s')
  {
  }

  lemma MallocAnswered(s: Snapshot, p: Option<nat>, size: int, granted: bool, s': Snapshot)
    requires Sane(s) && Sane(s') && Allocated(s, p, size, granted, s')
    ensures Answered(s, Malloc(size, granted), Pointer(p), s')
  {
  }

  lemma RenewAnswered(s: Snapshot, p: Option<nat>, size: int, granted: bool, s': Snapshot)
    requires Sane(s) && Sane(s') && Allocated(s, p, size, granted, s')
    ensures Answered(s, Realloc(None, size, granted), Pointer(p), s')
  {
  }

  lemma ReallocAnswered(s: Snapshot, k: nat, p: Option<nat>, size: int, granted: bool, s': Snapshot)
    requires Sane(s) && Sane(s') && k < |s.mine| && Moved(s, k, p, size, granted, s')
    ensures Answered(s, Realloc(Some(k), size, granted), Pointer(p), s')
  {
  }

  // ---------------------------------------------------------------- programs

  predicate Names(ptrs: seq<nat>, words: seq<nat>, mine: seq<Blk>) {
    && |ptrs| == |words| == |mine|
    && forall k :: 0 <= k < |mine| ==> ptrs[k] == mine[k].pos && words[k] + 2 == mine[k].n
  }

  predicate LegalBy(words: seq<nat>, call: Call) {
    match call
    case Malloc(_, _) => true
    case Realloc(h, _, _) => h.Some? ==> h.value < |words|
    case Free(h) => h.Some? ==> h.value < |words|
    case Write(k, w, _) => k < |words| && w < words[k]
    case Read(k, w) => k < |words| && w < words[k]
  }

  lemma LegalMeans(s: Snapshot, ptrs: seq<nat>, words: seq<nat>, call: Call)
    requires Sane(s) && Names(ptrs, words, s.mine)
    ensures Legal(Seen(s), call) <==> LegalBy(words, call)
  {
    match call
    case Write(k, _, _) =>
      if k < |s.mine| {
        MineBounds(s, k);
      }
    case Read(k, _) =>
      if k < |s.mine| {
        MineBounds(s, k);
      }
    case _ =>
  }

  class Program {
    const heap: Heap
    var ptrs: seq<nat>        // the pointers it has got and not given back
    var words: seq<nat>       // the sizes of those blocks, by their headers
    ghost var mine: seq<Blk>

    ghost predicate Valid()
      reads this, heap, heap.mem
    {
      heap.Valid() && Owns(heap.blocks, mine) && Names(ptrs, words, mine)
    }

    ghost function Now(): Snapshot
      reads this, heap, heap.mem
    {
      Snapshot(heap.mem[..], heap.blocks, heap.brk, heap.top, mine)
    }

    constructor (heap: Heap)
      requires heap.Valid() && forall c :: !IsLive(heap.blocks, c)
      ensures Valid() && this.heap == heap && fresh(this) && mine == []
    {
      this.heap := heap;
      ptrs, words, mine := [], [], [];
    }

    /** The program notes a new pointer, and how many words its header says the block has. */
    method Keep(p: nat, ghost b: Blk)
      requires heap.Valid() && IsLive(heap.blocks, b) && b.pos == p && Names(ptrs, words, mine)
      modifies this
      ensures Names(ptrs, words, mine) && mine == old(mine) + [b]
    {
      BlockBounds(heap.mem[..], heap.blocks, heap.brk, b);
      ghost var i :| 0 <= i < |heap.blocks| && heap.blocks[i] == b;
      heap.ReadTags(i);
      ptrs, words, mine := ptrs + [p], words + [SizeOf(heap.mem[p - 1]) - 2], mine + [b];
    }

    method Forget(k: nat)
      requires Names(ptrs, words, mine) && k < |ptrs|
      modifies this
      ensures Names(ptrs, words, mine) && mine == Dropped(old(mine), k)
    {
      ptrs, words, mine := Dropped(ptrs, k), Dropped(words, k), Dropped(mine, k);
    }

    method DoMalloc(size: int, granted: bool) returns (reply: Reply)
      requires Valid() && InRange(Malloc(size, granted))
      modifies this, heap, heap.mem
      ensures Valid() && Answered(old(Now()), Malloc(size, granted), reply, Now())
    {
      ghost var s := Now();
      var p := Obtain(size, granted);
      MallocAnswered(s, p, size, granted, Now());
      reply := Pointer(p);
    }

    method Obtain(size: int, granted: bool) returns (p: Option<nat>)
      requires Valid() && InRange(Malloc(size, granted))
      modifies this, heap, heap.mem
      ensures Valid() && Allocated(old(Now()), p, size, granted, Now())
    {
      ghost var s := Now();
      ghost var b;
      p, b := heap.Malloc(size, granted);
      if p.None? {
        NoneAnswered(s, size, granted, Now());
      } else {
        MineLive(s);
        KeptSeen(s, heap.mem[..], s.blocks);
        Keep(p.value, b);
        NewAnswered(s, b, size, granted, Now());
      }
    }

    method DoRealloc(h: Option<nat>, size: int, granted: bool) returns (reply: Reply)
      requires Valid() && InRange(Realloc(h, size, granted)) && LegalBy(words, Realloc(h, size, granted))
      modifies this, heap, heap.mem
      ensures Valid() && Answered(old(Now()), Realloc(h, size, granted), reply, Now())
    {
      if h.None? {
        reply := Renew(size, granted);
      } else {
        reply := Resize(h.value, size, granted);
      }
    }

    method Renew(size: int, granted: bool) returns (reply: Reply)
      requires Valid() && InRange(Malloc(size, granted))
      modifies this, heap, heap.mem
      ensures Valid() && Answered(old(Now()), Realloc(None, size, granted), reply, Now())
    {
      ghost var s := Now();
      var p := RenewBlock(size, granted);
      RenewAnswered(s, p, size, granted, Now());
      reply := Pointer(p);
    }

    method RenewBlock(size: int, granted: bool) returns (p: Option<nat>)
      requires Valid() && InRange(Malloc(size, granted))
      modifies this, heap, heap.mem
      ensures Valid() && Allocated(old(Now()), p, size, granted, Now())
    {
      ghost var s := Now();
      ghost var b;
      p, b := heap.Realloc(0, size, granted, Blk(0, 0, false));
      if p.None? {
        NoneAnswered(s, size, granted, Now());
      } else {
        SameWordsSeen(s, heap.mem[..]);
        Keep(p.value, b);
        NewAnswered(s, b, size, granted, Now());
      }
    }

    method Resize(k: nat, size: int, granted: bool) returns (reply: Reply)
      requires Valid() && InRange(Malloc(size, granted)) && k < |ptrs|
      modifies this, heap, heap.mem
      ensures Valid() && Answered(old(Now()), Realloc(Some(k), size, granted), reply, Now())
    {
      ghost var s := Now();
      var p := ResizeBlock(k, size, granted);
      ReallocAnswered(s, k, p, size, granted, Now());
      reply := Pointer(p);
    }

    method ResizeBlock(k: nat, size: int, granted: bool) returns (p: Option<nat>)
      requires Valid() && InRange(Malloc(size, granted)) && k < |ptrs|
      modifies this, heap, heap.mem
      ensures Valid() && Moved(old(Now()), k, p, size, granted, Now())
    {
      ghost var s := Now();
      MineBounds(s, k);
      ghost var b;
      p, b := heap.Realloc(ptrs[k], size, granted, mine[k]);
      if p.None? {
        NoneAnswered(s, size, granted, Now());
      } else {
        Forget(k);
        Keep(p.value, b);
        MovedAnswered(s, k, b, size, granted, Now());
      }
    }

    method DoFree(h: Option<nat>) returns (reply: Reply)
      requires Valid() && LegalBy(words, Free(h))
      modifies this, heap, heap.mem
      ensures Valid() && Answered(old(Now()), Free(h), reply, Now())
    {
      ghost var s := Now();
      if h.None? {
        heap.Free(0, 0);
      } else {
        MineBounds(s, h.value);
        ghost var i :| 0 <= i < |heap.blocks| && heap.blocks[i] == mine[h.value];
        heap.Free(ptrs[h.value], i);
        Forget(h.value);
        FreeSeen(s, h.value, Now());
        FreeAnswered(s, h.value, Now());
      }
      reply := Done;
    }

    method DoWrite(k: nat, w: nat, x: nat) returns (reply: Reply)
      requires Valid() && k < |ptrs| && w < words[k]
      modifies heap.mem
      ensures Valid() && Answered(old(Now()), Write(k, w, x), reply, Now())
    {
      ghost var s := Now();
      MineBounds(s, k);
      ghost var i :| 0 <= i < |heap.blocks| && heap.blocks[i] == mine[k];
      heap.Poke(ptrs[k] + w, x, i);
      WriteSeen(s, k, w, x, Now());
      reply := Done;
    }

    method DoRead(k: nat, w: nat) returns (reply: Reply)
      requires Valid() && k < |ptrs| && w < words[k]
      ensures Answered(Now(), Read(k, w), reply, Now())
    {
      MineBounds(Now(), k);
      reply := Value(heap.mem[ptrs[k] + w]);
    }

    /** One call; a call that is not legal is not made. */
    method Serve(call: Call) returns (reply: Reply)
      requires Valid() && InRange(call)
      modifies this, heap, heap.mem
      ensures Valid() && Answered(old(Now()), call, reply, Now())
    {
      LegalMeans(Now(), ptrs, words, call);
      reply := Done;
      if !LegalBy(words, call) {
        return;
      }
      match call {
        case Malloc(size, granted) => reply := DoMalloc(size, granted);
        case Realloc(h, size, granted) => reply := DoRealloc(h, size, granted);
        case Free(h) => reply := DoFree(h);
        case Write(k, w, x) => reply := DoWrite(k, w, x);
        case Read(k, w) => reply := DoRead(k, w);
      }
    }

    /**
      Every run: each call of any sequence is answered as `Answers` says, so a program reads what it
      wrote last and keeps what it reallocates, and in every state the tags in memory describe a
      coalesced tiling of the heap.
     */
    method ServeAll(calls: seq<Call>) returns (replies: seq<Reply>, ghost trace: seq<Snapshot>)
      requires Valid() && forall i :: 0 <= i < |calls| ==> InRange(calls[i])
      modifies this, heap, heap.mem
      ensures Valid() && Traced(Answered, calls, replies, trace)
      ensures trace[0] == old(Now()) && trace[|calls|] == Now()
    {
      replies, trace := [], [Now()];
      for i := 0 to |calls|
        invariant Valid() && Traced(Answered, calls[..i], replies, trace) && trace[0] == old(Now()) && trace[i] == Now()
      {
        var reply := Serve(calls[i]);
        TraceExtend(Answered, calls[..i], replies, trace, calls[i], reply, Now());
        assert calls[..i + 1] == calls[..i] + [calls[i]];
        replies, trace := replies + [reply], trace + [Now()];
      }
      assert calls[..|calls|] == calls;
    }
  }

  lemma SameWordsSeen(s: Snapshot, m': seq<nat>)
    requires Sane(s) && forall c :: IsLive(s.blocks, c) ==> SameWords(s.mem, m', c)
    ensures Contents(m', s.mine) == Seen(s)
  {
    forall k | 0 <= k < |s.mine|
      ensures Contents(m', s.mine)[k] == Seen(s)[k]
    {
      MineBounds(s, k);
    }
  }
}
