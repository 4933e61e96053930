/**
  Programs that use the kernel heap: any sequence of _malloc, _memalign, _realloc and _free, with
  reads and writes of the blocks in between (410kern/malloc). A program names its blocks by their
  position in the list of its pointers.
 */
module MallocRuns {
  import opened KernelMalloc
  import opened Lmm
  import opened Options
  import opened Traces

  datatype Call =
    | Malloc(n: nat)
    | Memalign(alignment: nat, n: nat)
    | Realloc(h: Option<nat>, n: nat)       // None is the null pointer
    | Free(k: nat)
    | Write(k: nat, offset: nat, x: Byte)
    | Read(k: nat, offset: nat)

  datatype Reply = Pointer(p: Option<nat>) | Value(x: Byte) | Done

  /** Sizes and alignments for which no address wraps around. */
  predicate InRange(rs: seq<Region>, call: Call) {
    match call
    case Malloc(n) => n + 4 <= WORD - 8
    case Memalign(alignment, n) => alignment <= 0x8000_0000 && Room(rs, alignment, n)
    case Realloc(_, n) => n + 4 <= WORD - 8
    case _ => true
  }

  /** A program only uses blocks it has, and stays inside them. */
  predicate Legal(contents: seq<seq<Byte>>, call: Call) {
    match call
    case Malloc(_) => true
    case Memalign(_, _) => true
    case Realloc(h, _) => h.Some? ==> h.value < |contents|
    case Free(k) => k < |contents|
    case Write(k, offset, _) => k < |contents| && offset < |contents[k]|
    case Read(k, offset) => k < |contents| && offset < |contents[k]|
  }

  datatype Snapshot = Snapshot(regions: seq<Region>, mem: seq<Byte>, live: seq<Block>)

  /** Free lists well formed, live blocks apart from each other and from all free nodes, prefixes in place. */
  ghost predicate Sane(s: Snapshot) {
    PoolOk(s.regions) && Bounded(s.regions, |s.mem|) && LiveOk(s.regions, s.mem, s.live)
  }

  function PayloadOf(mem: seq<Byte>, b: Block): seq<Byte> {
    if 4 <= b.size && b.addr + b.size <= |mem| then Payload(mem, b) else []
  }

  /** What a program sees of the heap: the bytes of its blocks. */
  function Contents(mem: seq<Byte>, live: seq<Block>): (c: seq<seq<Byte>>)
    ensures |c| == |live| && forall k :: 0 <= k < |c| ==> c[k] == PayloadOf(mem, live[k])
  {
    seq(|live|, k requires 0 <= k < |live| => PayloadOf(mem, live[k]))
  }

  function Seen(s: Snapshot): (c: seq<seq<Byte>>)
    ensures |c| == |s.live|
  {
    Contents(s.mem, s.live)
  }

  function Total(s: Snapshot): nat {
    FreeBytes(s.regions) + BlockBytes(s.live)
  }

  function Dropped(c: seq<seq<Byte>>, k: nat): seq<seq<Byte>>
    requires k < |c|
  {
    c[..k] + c[k + 1..]
  }

  /** The contents with byte `offset` of block k replaced. */
  function Put(c: seq<seq<Byte>>, k: nat, offset: nat, x: Byte): seq<seq<Byte>>
    requires k < |c| && offset < |c[k]|
  {
    var bytes: seq<Byte> := c[k][offset := x];
    c[k := bytes]
  }

  /**
    A new block of n bytes where the request first fits, behind the others, or nothing has changed and
    nothing fits.
   */
  ghost predicate Allocated(s: Snapshot, p: Option<nat>, n: nat, s': Snapshot, q: Request)
    requires q.p > 0
  {
    if p.None? then s' == s && NoneFits(s.regions, q, |s.regions|)
    else
      && 4 <= p.value && MetAt(s.regions, q, p.value - 4) && s'.live == s.live + [BlockAt(p.value, n)]
      && |Seen(s')[|s.live|]| == n && Seen(s')[..|s.live|] == Seen(s)
  }

  ghost predicate PlainAllocated(s: Snapshot, p: Option<nat>, n: nat, s': Snapshot) {
    Allocated(s, p, n, s', Plain(n + 4, 0))
  }

  ghost predicate AlignedAllocated(s: Snapshot, p: Option<nat>, alignment: nat, n: nat, s': Snapshot, q: Request) {
    && AsksFor(alignment, n, q) && Allocated(s, p, n, s', q)
    && (p.Some? ==> MultipleOf(p.value, q.p))
  }

  /** Block k has moved behind the others and has kept its first bytes, or nothing has changed and nothing fits. */
  ghost predicate Moved(s: Snapshot, k: nat, p: Option<nat>, n: nat, s': Snapshot)
    requires k < |s.live|
  {
    if p.None? then s' == s && NoneFits(s.regions, Plain(n + 4, 0), |s.regions|)
    else
      var last, was := |s.live| - 1, Seen(s)[k];
      && 4 <= p.value && MetAt(s.regions, Plain(n + 4, 0), p.value - 4)
      && s'.live == Without(s.live, k) + [BlockAt(p.value, n)]
      && Seen(s')[..last] == Dropped(Seen(s), k)
      && |Seen(s')[last]| == n
      && var m := if |was| < n then |was| else n; Seen(s')[last][..m] == was[..m]
  }

  /** How a call is answered, in terms of what the program sees. */
  ghost predicate Answers(s: Snapshot, call: Call, reply: Reply, s': Snapshot)
    requires Legal(Seen(s), call)
  {
    match call
    case Malloc(n) => reply.Pointer? && PlainAllocated(s, reply.p, n, s')
    case Memalign(alignment, n) =>
      reply.Pointer? && exists q :: AlignedAllocated(s, reply.p, alignment, n, s', q)
    case Realloc(h, n) =>
      reply.Pointer? &&
        if h.None? then PlainAllocated(s, reply.p, n, s') else Moved(s, h.value, reply.p, n, s')
    case Free(k) => reply == Done && s'.live == Without(s.live, k) && Seen(s') == Dropped(Seen(s), k)
    case Write(k, offset, x) =>
      reply == Done && s'.live == s.live && Seen(s') == Put(Seen(s), k, offset, x)
    case Read(k, offset) => s' == s && reply == Value(Seen(s)[k][offset])
  }

  /** An illegal call is not made. */
  ghost predicate Answered(s: Snapshot, call: Call, reply: Reply, s': Snapshot) {
    && Sane(s) && Sane(s') && Total(s') == Total(s)
    && if Legal(Seen(s), call) then Answers(s, call, reply, s') else s' == s
  }

  // ---------------------------------------------------------------- what the operations do to what is seen

  lemma SamePayloadsSeen(mem: seq<Byte>, mem': seq<Byte>, live: seq<Block>)
    requires SamePayloads(mem, mem', live)
    ensures Contents(mem', live) == Contents(mem, live)
  {
  }

  lemma AddedSeen(mem: seq<Byte>, mem': seq<Byte>, live: seq<Block>, b: Block)
    requires SamePayloads(mem, mem', live)
    ensures Contents(mem', live + [b])[..|live|] == Contents(mem, live)
  {
    SamePayloadsSeen(mem, mem', live);
  }

  lemma WithoutSeen(mem: seq<Byte>, live: seq<Block>, k: nat)
    requires k < |live|
    ensures Contents(mem, Without(live, k)) == Dropped(Contents(mem, live), k)
  {
    WithoutAt(live, k);
  }

  lemma PokeSeen(rs: seq<Region>, mem: seq<Byte>, live: seq<Block>, k: nat, offset: nat, x: Byte)
    requires LiveOk(rs, mem, live) && k < |live| && offset + 4 < live[k].size
    ensures var at := live[k].addr + 4 + offset;
      && at < |mem| && offset < |Contents(mem, live)[k]|
      && Contents(mem[at := x], live) == Put(Contents(mem, live), k, offset, x)
  {
    var at := live[k].addr + 4 + offset;
    assert Prefixed(mem, live[k]);
    var c, c' := Contents(mem, live), Contents(mem[at := x], live);
    forall j | 0 <= j < |live|
      ensures c'[j] == Put(c, k, offset, x)[j]
    {
      assert Prefixed(mem, live[j]);
      if j != k {
        assert BlockApart(live[j], live[k]);
        InsideExtent(live[j]);
        InsideExtent(live[k]);
      }
    }
  }

  lemma NewBlockSeen(s: Snapshot, p: Option<nat>, n: nat, s': Snapshot, q: Request)
    requires Sane(s) && Sane(s') && q.p > 0
    requires p.None? ==> s' == s && NoneFits(s.regions, q, |s.regions|)
    requires p.Some? ==> 4 <= p.value && MetAt(s.regions, q, p.value - 4)
    requires p.Some? ==> s'.live == s.live + [BlockAt(p.value, n)] && SamePayloads(s.mem, s'.mem, s.live)
    ensures Allocated(s, p, n, s', q)
  {
    if p.Some? {
      AddedSeen(s.mem, s'.mem, s.live, BlockAt(p.value, n));
      Sizes(s'.regions, s'.mem, s'.live, |s.live|);
    }
  }

  lemma MovedBlockSeen(s: Snapshot, k: nat, p: Option<nat>, n: nat, s': Snapshot)
    requires Sane(s) && Sane(s') && k < |s.live|
    requires p.None? ==> s' == s && NoneFits(s.regions, Plain(n + 4, 0), |s.regions|)
    requires p.Some? ==> 4 <= p.value && MetAt(s.regions, Plain(n + 4, 0), p.value - 4)
    requires p.Some? ==> s'.live == Without(s.live, k) + [BlockAt(p.value, n)]
    requires p.Some? ==>
      SamePayloads(s.mem, s'.mem, Without(s.live, k)) && KeepsFront(s.mem, s'.mem, s.live[k], BlockAt(p.value, n))
    ensures Moved(s, k, p, n, s')
  {
    if p.Some? {
      var rest := Without(s.live, k);
      WithoutSeen(s.mem, s.live, k);
      WithoutAt(s.live, k);
      AddedSeen(s.mem, s'.mem, rest, BlockAt(p.value, n));
      Sizes(s'.regions, s'.mem, s'.live, |rest|);
      Sizes(s.regions, s.mem, s.live, k);
    }
  }

  lemma MallocAnswered(s: Snapshot, p: Option<nat>, n: nat, s': Snapshot)
    requires Sane(s) && Sane(s') && Total(s') == Total(s) && PlainAllocated(s, p, n, s')
    ensures Answered(s, Malloc(n), Pointer(p), s')
  {
  }

  lemma RenewAnswered(s: Snapshot, p: Option<nat>, n: nat, s': Snapshot)
    requires Sane(s) && Sane(s') && Total(s') == Total(s) && PlainAllocated(s, p, n, s')
    ensures Answered(s, Realloc(None, n), Pointer(p), s')
  {
  }

  lemma MemalignAnswered(s: Snapshot, p: Option<nat>, alignment: nat, n: nat, s': Snapshot, q: Request)
    requires Sane(s) && Sane(s') && Total(s') == Total(s) && AsksFor(alignment, n, q) && Allocated(s, p, n, s', q)
    requires p.Some? ==> MultipleOf(p.value, q.p)
    ensures Answered(s, Memalign(alignment, n), Pointer(p), s')
  {
    assert AlignedAllocated(s, p, alignment, n, s', q);
  }

  lemma ReallocAnswered(s: Snapshot, k: nat, p: Option<nat>, n: nat, s': Snapshot)
    requires Sane(s) && Sane(s') && Total(s') == Total(s) && k < |s.live| && Moved(s, k, p, n, s')
    ensures Answered(s, Realloc(Some(k), n), Pointer(p), s')
  {
  }

  lemma FreeAnswered(s: Snapshot, k: nat, s': Snapshot)
    requires Sane(s) && Sane(s') && Total(s') == Total(s) && k < |s.live| && s'.live == Without(s.live, k)
    requires s'.mem == s.mem
    ensures Answered(s, Free(k), Done, s')
  {
    WithoutSeen(s.mem, s.live, k);
  }

  lemma WriteAnswered(s: Snapshot, k: nat, offset: nat, x: Byte, s': Snapshot)
    requires Sane(s) && Sane(s') && k < |s.live| && offset + 4 < s.live[k].size
    requires s'.live == s.live && s'.regions == s.regions
    requires var at := s.live[k].addr + 4 + offset; at < |s.mem| && s'.mem == s.mem[at := x]
    ensures Answered(s, Write(k, offset, x), Done, s')
  {
    PokeSeen(s.regions, s.mem, s.live, k, offset, x);
  }

  // ---------------------------------------------------------------- programs

  predicate Names(ptrs: seq<nat>, sizes: seq<nat>, live: seq<Block>) {
    && |ptrs| == |sizes| == |live|
    && forall k :: 0 <= k < |live| ==> ptrs[k] == live[k].addr + 4 && sizes[k] + 4 == live[k].size
  }

  lemma Sizes(rs: seq<Region>, mem: seq<Byte>, live: seq<Block>, k: nat)
    requires LiveOk(rs, mem, live) && k < |live|
    ensures 4 <= live[k].size && |Contents(mem, live)[k]| == live[k].size - 4
  {
    assert Prefixed(mem, live[k]);
  }

  lemma LegalMeans(rs: seq<Region>, mem: seq<Byte>, live: seq<Block>, ptrs: seq<nat>, sizes: seq<nat>, call: Call)
    requires LiveOk(rs, mem, live) && Names(ptrs, sizes, live)
    ensures Legal(Contents(mem, live), call) <==> LegalBy(sizes, call)
  {
    match call
    case Write(k, _, _) =>
      if k < |live| {
        Sizes(rs, mem, live, k);
      }
    case Read(k, _) =>
      if k < |live| {
        Sizes(rs, mem, live, k);
      }
    case _ =>
  }

  /** The same by the sizes the program has asked for. */
  predicate LegalBy(sizes: seq<nat>, call: Call) {
    match call
    case Malloc(_) => true
    case Memalign(_, _) => true
    case Realloc(h, _) => h.Some? ==> h.value < |sizes|
    case Free(k) => k < |sizes|
    case Write(k, offset, _) => k < |sizes| && offset < sizes[k]
    case Read(k, offset) => k < |sizes| && offset < sizes[k]
  }

  class Program {
    const heap: Heap
    var ptrs: seq<nat>     // the pointers it has got and not given back
    var sizes: seq<nat>    // the sizes it has asked for

    ghost predicate Valid()
      reads this, heap, heap.pool
    {
      heap.Valid() && Names(ptrs, sizes, heap.live)
    }

    ghost function Now(): Snapshot
      reads heap, heap.pool
    {
      Snapshot(heap.pool.regions, heap.mem, heap.live)
    }

    constructor (heap: Heap)
      requires heap.Valid() && heap.live == []
      ensures Valid() && this.heap == heap && fresh(this)
    {
      this.heap := heap;
      ptrs, sizes := [], [];
    }

    method Keep(p: Option<nat>, n: nat, ghost was: seq<Block>)
      requires heap.Valid() && Names(ptrs, sizes, was)
      requires if p.None? then heap.live == was else 4 <= p.value && heap.live == was + [BlockAt(p.value, n)]
      modifies this
      ensures Valid()
    {
      if p.Some? {
        ptrs, sizes := ptrs + [p.value], sizes + [n];
      }
    }

    method Forget(k: nat, ghost was: seq<Block>)
      requires Names(ptrs, sizes, was) && k < |was|
      modifies this
      ensures Names(ptrs, sizes, Without(was, k))
    {
      ptrs, sizes := ptrs[..k] + ptrs[k + 1..], sizes[..k] + sizes[k + 1..];
    }

    method DoMalloc(n: nat) returns (reply: Reply)
      requires Valid() && InRange(heap.pool.regions, Malloc(n))
      modifies this, heap, heap.pool
      ensures Valid() && SameBounds(old(heap.pool.regions), heap.pool.regions)
      ensures Answered(old(Now()), Malloc(n), reply, Now())
    {
      ghost var s := Now();
      var p := heap.Malloc(n);
      NewBlockSeen(s, p, n, Now(), Plain(n + 4, 0));
      MallocAnswered(s, p, n, Now());
      Keep(p, n, s.live);
      reply := Pointer(p);
    }

    method DoMemalign(alignment: nat, n: nat) returns (reply: Reply)
      requires Valid() && InRange(heap.pool.regions, Memalign(alignment, n))
      modifies this, heap, heap.pool
      ensures Valid() && SameBounds(old(heap.pool.regions), heap.pool.regions)
      ensures Answered(old(Now()), Memalign(alignment, n), reply, Now())
    {
      ghost var s := Now();
      var p;
      ghost var q;
      p, q := heap.Memalign(alignment, n);
      NewBlockSeen(s, p, n, Now(), q);
      MemalignAnswered(s, p, alignment, n, Now(), q);
      Keep(p, n, s.live);
      reply := Pointer(p);
    }

    method DoRealloc(h: Option<nat>, n: nat) returns (reply: Reply)
      requires Valid() && InRange(heap.pool.regions, Realloc(h, n)) && LegalBy(sizes, Realloc(h, n))
      modifies this, heap, heap.pool
      ensures Valid() && SameBounds(old(heap.pool.regions), heap.pool.regions)
      ensures Answered(old(Now()), Realloc(h, n), reply, Now())
    {
      if h.None? {
        reply := Renew(n);
      } else {
        reply := Resize(h.value, n);
      }
    }

    method Renew(n: nat) returns (reply: Reply)
      requires Valid() && InRange(heap.pool.regions, Malloc(n))
      modifies this, heap, heap.pool
      ensures Valid() && SameBounds(old(heap.pool.regions), heap.pool.regions)
      ensures Answered(old(Now()), Realloc(None, n), reply, Now())
    {
      ghost var s := Now();
      var p := heap.Realloc(0, n, 0);
      NewBlockSeen(s, p, n, Now(), Plain(n + 4, 0));
      RenewAnswered(s, p, n, Now());
      Keep(p, n, s.live);
      reply := Pointer(p);
    }

    method Resize(k: nat, n: nat) returns (reply: Reply)
      requires Valid() && InRange(heap.pool.regions, Malloc(n)) && k < |ptrs|
      modifies this, heap, heap.pool
      ensures Valid() && SameBounds(old(heap.pool.regions), heap.pool.regions)
      ensures Answered(old(Now()), Realloc(Some(k), n), reply, Now())
    {
      ghost var s := Now();
      var p := heap.Realloc(ptrs[k], n, k);
      MovedBlockSeen(s, k, p, n, Now());
      ReallocAnswered(s, k, p, n, Now());
      if p.Some? {
        Forget(k, s.live);
        Keep(p, n, Without(s.live, k));
      }
      reply := Pointer(p);
    }

    method DoFree(k: nat) returns (reply: Reply)
      requires Valid() && k < |ptrs|
      modifies this, heap, heap.pool
      ensures Valid() && SameBounds(old(heap.pool.regions), heap.pool.regions)
      ensures Answered(old(Now()), Free(k), reply, Now())
    {
      ghost var s := Now();
      heap.Free(ptrs[k], k);
      FreeAnswered(s, k, Now());
      Forget(k, s.live);
      reply := Done;
    }

    method DoWrite(k: nat, offset: nat, x: Byte) returns (reply: Reply)
      requires Valid() && k < |ptrs| && offset < sizes[k]
      modifies heap
      ensures Valid() && Answered(old(Now()), Write(k, offset, x), reply, Now())
    {
      ghost var s := Now();
      heap.Poke(ptrs[k] + offset, x, k);
      WriteAnswered(s, k, offset, x, Now());
      reply := Done;
    }

    method DoRead(k: nat, offset: nat) returns (reply: Reply)
      requires Valid() && k < |ptrs| && offset < sizes[k]
      ensures Answered(Now(), Read(k, offset), reply, Now())
    {
      Sizes(heap.pool.regions, heap.mem, heap.live, k);
      assert Prefixed(heap.mem, heap.live[k]);
      reply := Value(heap.mem[ptrs[k] + offset]);
    }

    /** One call; a call that is not legal is not made. */
    method Serve(call: Call) returns (reply: Reply)
      requires Valid() && InRange(heap.pool.regions, call)
      modifies this, heap, heap.pool
      ensures Valid() && SameBounds(old(heap.pool.regions), heap.pool.regions)
      ensures Answered(old(Now()), call, reply, Now())
    {
      LegalMeans(heap.pool.regions, heap.mem, heap.live, ptrs, sizes, call);
      reply := Done;
      if !LegalBy(sizes, call) {
        return;
      }
      match call {
        case Malloc(n) => reply := DoMalloc(n);
        case Memalign(alignment, n) => reply := DoMemalign(alignment, n);
        case Realloc(h, n) => reply := DoRealloc(h, n);
        case Free(k) => reply := DoFree(k);
        case Write(k, offset, x) => reply := DoWrite(k, offset, x);
        case Read(k, offset) => reply := DoRead(k, offset);
      }
    }

    /**
      Every run: each call of any sequence is answered as `Answers` says, so a program reads what it
      wrote last and keeps what it reallocates; the free lists, the prefixes and the live blocks are in
      order in every state, and free plus live bytes never changes.
     */
    method ServeAll(calls: seq<Call>) returns (replies: seq<Reply>, ghost trace: seq<Snapshot>)
      requires Valid() && forall i :: 0 <= i < |calls| ==> InRange(heap.pool.regions, calls[i])
      modifies this, heap, heap.pool
      ensures Valid() && Traced(Answered, calls, replies, trace)
      ensures trace[0] == old(Now()) && trace[|calls|] == Now()
    {
      replies, trace := [], [Now()];
      for i := 0 to |calls|
        invariant Valid() && Traced(Answered, calls[..i], replies, trace) && trace[0] == old(Now()) && trace[i] == Now()
        invariant SameBounds(old(heap.pool.regions), heap.pool.regions)
      {
        SameRange(old(heap.pool.regions), heap.pool.regions, calls[i]);
        replies, trace := ServeNext(calls, i, replies, trace);
      }
      assert calls[..|calls|] == calls;
    }

    method ServeNext(calls: seq<Call>, i: nat, replies: seq<Reply>, ghost trace: seq<Snapshot>)
      returns (replies': seq<Reply>, ghost trace': seq<Snapshot>)
      requires Valid() && i < |calls| && InRange(heap.pool.regions, calls[i])
      requires Traced(Answered, calls[..i], replies, trace) && trace[i] == Now()
      modifies this, heap, heap.pool
      ensures Valid() && SameBounds(old(heap.pool.regions), heap.pool.regions)
      ensures Traced(Answered, calls[..i + 1], replies', trace') && trace'[0] == trace[0] && trace'[i + 1] == Now()
    {
      var reply := Serve(calls[i]);
      TraceExtend(Answered, calls[..i], replies, trace, calls[i], reply, Now());
      assert calls[..i + 1] == calls[..i] + [calls[i]];
      replies', trace' := replies + [reply], trace + [Now()];
    }
  }

  lemma SameRange(was: seq<Region>, now: seq<Region>, call: Call)
    requires SameBounds(was, now) && InRange(was, call)
    ensures InRange(now, call)
  {
  }

  /** In every state of a run the books balance. */
  lemma {:induction false} Conserved(calls: seq<Call>, replies: seq<Reply>, trace: seq<Snapshot>, i: nat)
    requires Traced(Answered, calls, replies, trace) && i <= |calls| && Sane(trace[0])
    ensures Sane(trace[i]) && Total(trace[i]) == Total(trace[0])
    decreases i
  {
    if i > 0 {
      var k := i - 1;
      Conserved(calls, replies, trace, k);
      assert Answered(trace[k], calls[k], replies[k], trace[k + 1]);
    }
  }
}
