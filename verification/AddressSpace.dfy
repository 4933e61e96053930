/**
  The operations of kern/vm/vm.c on the page directory of one task.  `rest` is the multiset of
  frame references held by all the other tasks; an operation may change the frames only in
  ways that the others cannot see.
 */
module AddressSpace {
  import opened EagerCopy
  import opened PageTables
  import opened FrameCounts
  import FA = FrameAllocator

  /** The key invariant: a frame with a writable page table entry has no other reference. */
  predicate Alone(d: Directory, total: multiset<nat>)
    requires WellFormed(d)
  {
    forall p :: 0 <= p < PAGES && Lookup(d, p).Present? && Lookup(d, p).writable ==> total[Lookup(d, p).frame] <= 1
  }

  ghost predicate Ready(m: Frames, d: Directory, rest: multiset<nat>)
    reads m.allocator, m.allocator.next, m.refCount, m.memory
  {
    WellFormed(d) && m.Counted(rest + DirFrames(d)) && m.PageSized() && Alone(d, rest + DirFrames(d))
  }

  /** What the tasks that hold the references `rest` rely on. */
  ghost predicate Kept(rest: multiset<nat>, mem: seq<seq<bv8>>, mem': seq<seq<bv8>>, d: Directory, d': Directory) {
    forall f :: f in rest ==> PageAt(mem', f) == PageAt(mem, f) && DirFrames(d')[f] <= DirFrames(d)[f]
  }

  // ---------------------------------------------------------------- mapping a page

  lemma AddedFrames(d: Directory, p: nat, e: Pte, rest: multiset<nat>)
    requires WellFormed(d) && p < PAGES && HasTable(d, p) && Lookup(d, p).Absent? && e.Present?
    ensures rest + DirFrames(Update(d, p, e)) == rest + DirFrames(d) + multiset{e.frame}
  {
    UpdateFrames(d, p, e);
    assert DirFrames(Update(d, p, e)) + multiset{} == DirFrames(Update(d, p, e));
  }

  lemma AddedAlone(d: Directory, p: nat, e: Pte, total: multiset<nat>)
    requires WellFormed(d) && p < PAGES && HasTable(d, p) && Lookup(d, p).Absent? && e.Present?
    requires DirFrames(d) <= total && total[e.frame] == 0 && Alone(d, total)
    ensures Alone(Update(d, p, e), total + multiset{e.frame})
  {
    var d' := Update(d, p, e);
    forall q | 0 <= q < PAGES && Lookup(d', q).Present? && Lookup(d', q).writable
      ensures (total + multiset{e.frame})[Lookup(d', q).frame] <= 1
    {
      if q != p {
        LookupReferred(d, q);
      }
    }
  }

  lemma AddedView(d: Directory, p: nat, e: Pte, mem: seq<seq<bv8>>, page: seq<bv8>)
    requires WellFormed(d) && p < PAGES && HasTable(d, p) && Lookup(d, p).Absent? && e.Present?
    requires DirFrames(d)[e.frame] == 0 && e.frame < |mem|
    ensures View(Update(d, p, e), mem[e.frame := page]) == View(d, mem)[p := Cell(page, e.mark)]
  {
    forall q: nat | q < PAGES && q != p && Lookup(d, q).Present?
      ensures Lookup(d, q).frame != e.frame
    {
      LookupReferred(d, q);
    }
  }

  lemma AddedKept(d: Directory, p: nat, e: Pte, mem: seq<seq<bv8>>, page: seq<bv8>, rest: multiset<nat>)
    requires WellFormed(d) && p < PAGES && HasTable(d, p) && Lookup(d, p).Absent? && e.Present?
    requires rest[e.frame] == 0 && e.frame < |mem|
    ensures Kept(rest, mem, mem[e.frame := page], d, Update(d, p, e))
  {
    UpdateFrames(d, p, e);
    assert DirFrames(Update(d, p, e)) + multiset{} == DirFrames(Update(d, p, e));
  }

  lemma MapZeroOne(s: Space, p: nat, mark: Mark)
    ensures MapZero(s, p, 0, mark) == s
    ensures MapZero(s, p, 1, mark) == if p in s then s else s[p := Cell(ZeroPage(), mark)]
  {
    assert p + 1 - 1 == p;
  }

  /** The n pages from `first` on that were absent are mapped as asked; every other entry is as it was. */
  predicate Entered(d: Directory, d': Directory, first: nat, n: nat, writable: bool) {
    && WellFormed(d) && WellFormed(d')
    && forall p :: 0 <= p < PAGES ==>
      if Lookup(d, p).Absent? && first <= p < first + n
      then Lookup(d', p).Present? && Lookup(d', p).writable == writable && !Lookup(d', p).cow
      else Lookup(d', p) == Lookup(d, p)
  }

  lemma EnteredNext(d: Directory, d': Directory, d'': Directory, first: nat, n: nat, k: nat, writable: bool)
    requires Entered(d, d', first, n, writable) && Entered(d', d'', first + n, k, writable)
    ensures Entered(d, d'', first, n + k, writable)
  {
  }

  /** A fresh zero page at `p`, where a page table already is. */
  method PlaceZeroPage(m: Frames, d: Directory, p: nat, writable: bool, mark: Mark, ghost rest: multiset<nat>)
    returns (d': Directory, ok: bool)
    requires Ready(m, d, rest) && p < PAGES && HasTable(d, p) && Lookup(d, p).Absent?
    modifies m.allocator, m.refCount, m.memory
    ensures Ready(m, d', rest) && Kept(rest, old(m.memory[..]), m.memory[..], d, d')
    ensures Entered(d, d', p, if ok then 1 else 0, writable)
    ensures ok ==> View(d', m.memory[..]) == View(d, old(m.memory[..]))[p := Cell(ZeroPage(), mark)]
    ensures !ok ==> d' == d && m.memory[..] == old(m.memory[..]) && m.allocator.stack == []
    ensures Slots(d') == Slots(d)
  {
    ghost var total := rest + DirFrames(d);
    var frame := m.Take(total);
    if frame.None? {
      return d, false;
    }
    var e := Present(frame.value, writable, false, mark);
    ghost var mem := m.memory[..];
    AddedFrames(d, p, e, rest);
    AddedAlone(d, p, e, total);
    AddedView(d, p, e, mem, ZeroPage());
    AddedKept(d, p, e, mem, ZeroPage(), rest);
    d' := Update(d, p, e);
    m.memory[frame.value] := ZeroPage();
    assert m.memory[..] == mem[frame.value := ZeroPage()];
    return d', true;
  }

  lemma TableKept(d: Directory, i: nat, rest: multiset<nat>, mem: seq<seq<bv8>>)
    requires WellFormed(d) && KERNEL_SLOTS <= i < ENTRIES && d[i].NoTable? && Alone(d, rest + DirFrames(d))
    ensures var d' := WithTable(d, i);
      DirFrames(d') == DirFrames(d) && View(d', mem) == View(d, mem) && Alone(d', rest + DirFrames(d'))
  {
    WithTableFrames(d, i);
  }

  /** One round of the loop of `map_segment`; there is kernel memory for `budget` page tables. */
  method MapPage(m: Frames, d: Directory, p: nat, writable: bool, mark: Mark, budget: nat, ghost rest: multiset<nat>)
    returns (d': Directory, ok: bool, left: nat)
    requires Ready(m, d, rest) && KERNEL_SLOTS * ENTRIES <= p < PAGES
    modifies m.allocator, m.refCount, m.memory
    ensures Ready(m, d', rest) && Kept(rest, old(m.memory[..]), m.memory[..], d, d')
    ensures View(d', m.memory[..]) == MapZero(View(d, old(m.memory[..])), p, if ok then 1 else 0, mark)
    ensures !ok ==> (budget == 0 && !HasTable(d, p)) || m.allocator.stack == []
    ensures ok ==> left + (if HasTable(d, p) then 0 else 1) == budget
    ensures ok ==> Slots(d') == Slots(d) + {p / ENTRIES}
    ensures Entered(d, d', p, if ok then 1 else 0, writable)
  {
    MapZeroOne(View(d, m.memory[..]), p, mark);
    d', left := d, budget;
    if d[p / ENTRIES].NoTable? {
      if budget == 0 {
        return d, false, 0;
      }
      left := budget - 1;
      d' := WithTable(d, p / ENTRIES);
      TableKept(d, p / ENTRIES, rest, m.memory[..]);
    }
    ok := true;
    if Lookup(d', p).Absent? {
      d', ok := PlaceZeroPage(m, d', p, writable, mark, rest);
    }
  }

  /** How many pages the loop of `map_segment` visits. */
  function PagesSpanned(start: nat, length: nat): nat {
    (start + length + PAGE_SIZE - 1) / PAGE_SIZE - start / PAGE_SIZE
  }

  lemma MoreToMap(start: nat, length: nat, done: nat)
    ensures (start / PAGE_SIZE + done) * PAGE_SIZE < start + length <==> done < PagesSpanned(start, length)
  {
  }

  lemma MapZeroNext(s: Space, first: nat, k: nat, mark: Mark)
    ensures MapZero(MapZero(s, first, k, mark), first + k, 1, mark) == MapZero(s, first, k + 1, mark)
  {
    MapZeroOne(MapZero(s, first, k, mark), first + k, mark);
  }

  lemma KeptTrans(rest: multiset<nat>, mem: seq<seq<bv8>>, mem': seq<seq<bv8>>, mem'': seq<seq<bv8>>,
                  d: Directory, d': Directory, d'': Directory)
    requires Kept(rest, mem, mem', d, d') && Kept(rest, mem', mem'', d', d'')
    ensures Kept(rest, mem, mem'', d, d'')
  {
  }

  /** There are page tables for the n pages from `first` on, and otherwise those of d. */
  ghost predicate Covered(d: set<nat>, d': set<nat>, first: nat, n: nat) {
    forall i :: i in d' <==> i in d || (0 < n && first / ENTRIES <= i <= (first + n - 1) / ENTRIES)
  }

  /** Of the page tables that were given, `left` are left after n pages. */
  ghost predicate Spent(d: Directory, d': Directory, first: nat, n: nat, left: nat, given: nat) {
    && WellFormed(d) && WellFormed(d') && first + n <= PAGES
    && left + TablesMissing(d, first, n) == given && Covered(Slots(d), Slots(d'), first, n)
  }

  lemma CoveredNext(d0: set<nat>, d: set<nat>, first: nat, n: nat)
    requires Covered(d0, d, first, n)
    ensures Covered(d0, d + {(first + n) / ENTRIES}, first, n + 1)
    ensures (first + n) / ENTRIES in d <==> !(NewSlot(first, n) && (first + n) / ENTRIES !in d0)
  {
  }

  /** The next page needs a page table exactly if it is the first of the segment in a slot that was empty. */
  lemma NextNeeds(d0: Directory, d: Directory, first: nat, n: nat, left: nat, given: nat)
    requires Spent(d0, d, first, n, left, given) && first + n < PAGES
    ensures TablesMissing(d0, first, n + 1) == TablesMissing(d0, first, n) + if HasTable(d, first + n) then 0 else 1
  {
    CoveredNext(Slots(d0), Slots(d), first, n);
    assert HasTable(d, first + n) <==> (first + n) / ENTRIES in Slots(d);
    assert HasTable(d0, first + n) <==> (first + n) / ENTRIES in Slots(d0);
  }

  lemma SpentNext(d0: Directory, d: Directory, d': Directory, first: nat, n: nat, left: nat, left': nat, given: nat)
    requires Spent(d0, d, first, n, left, given) && first + n < PAGES
    requires WellFormed(d') && Slots(d') == Slots(d) + {(first + n) / ENTRIES}
    requires left' + (if HasTable(d, first + n) then 0 else 1) == left
    ensures Spent(d0, d', first, n + 1, left', given)
  {
    NextNeeds(d0, d, first, n, left, given);
    CoveredNext(Slots(d0), Slots(d), first, n);
  }

  /** The page after the first `done` pages of a segment in the space `s`. */
  method MapNext(m: Frames, d: Directory, first: nat, done: nat, writable: bool, mark: Mark, budget: nat,
                 ghost rest: multiset<nat>, ghost s: Space, ghost d0: Directory, ghost mem0: seq<seq<bv8>>,
                 ghost given: nat)
    returns (d': Directory, done': nat, left: nat)
    requires Ready(m, d, rest) && KERNEL_SLOTS * ENTRIES <= first && first + done < PAGES
    requires View(d, m.memory[..]) == MapZero(s, first, done, mark)
    requires Kept(rest, mem0, m.memory[..], d0, d)
    requires Spent(d0, d, first, done, budget, given) && Entered(d0, d, first, done, writable)
    modifies m.allocator, m.refCount, m.memory
    ensures Ready(m, d', rest) && Kept(rest, mem0, m.memory[..], d0, d')
    ensures done' == done || done' == done + 1
    ensures View(d', m.memory[..]) == MapZero(s, first, done', mark)
    ensures done' == done ==> TablesMissing(d0, first, done + 1) > given || m.allocator.stack == []
    ensures done' > done ==> Spent(d0, d', first, done', left, given)
    ensures Entered(d0, d', first, done', writable)
  {
    ghost var mem, now := m.memory[..], View(d, m.memory[..]);
    MapZeroOne(now, first + done, mark);
    MapZeroNext(s, first, done, mark);
    NextNeeds(d0, d, first, done, budget, given);
    var ok;
    d', ok, left := MapPage(m, d, first + done, writable, mark, budget, rest);
    KeptTrans(rest, mem0, mem, m.memory[..], d0, d, d');
    EnteredNext(d0, d, d', first, done, if ok then 1 else 0, writable);
    if ok {
      SpentNext(d0, d, d', first, done, budget, left, given);
    }
    done' := if ok then done + 1 else done;
  }

  /**
    The loop of `map_segment`: the pages it got through are mapped even when it fails, and it
    fails only when kernel memory or frames run out.
   */
  method MapPages(m: Frames, d: Directory, first: nat, n: nat, writable: bool, mark: Mark, budget: nat,
                  ghost rest: multiset<nat>)
    returns (d': Directory, done: nat)
    requires Ready(m, d, rest) && KERNEL_SLOTS * ENTRIES <= first && first + n <= PAGES
    modifies m.allocator, m.refCount, m.memory
    ensures Ready(m, d', rest) && Kept(rest, old(m.memory[..]), m.memory[..], d, d')
    ensures Afforded(d, first, n, done, budget, m.allocator.stack == []) && Entered(d, d', first, done, writable)
    ensures View(d', m.memory[..]) == MapZero(View(d, old(m.memory[..])), first, done, mark)
  {
    var left: nat := budget;
    d', done := d, 0;
    ghost var mem := m.memory[..];
    ghost var s := View(d, mem);
    while done < n
      invariant done <= n && Spent(d, d', first, done, left, budget) && Entered(d, d', first, done, writable)
      invariant Ready(m, d', rest) && Kept(rest, mem, m.memory[..], d, d')
      invariant View(d', m.memory[..]) == MapZero(s, first, done, mark)
    {
      var before := done;
      d', done, left := MapNext(m, d', first, done, writable, mark, left, rest, s, d, mem, budget);
      if done == before {
        return;
      }
    }
  }

  /** `map_segment`; by MoreToMap its comparison of addresses counts PagesSpanned pages. */
  method MapSegment(m: Frames, d: Directory, start: nat, length: nat, writable: bool, mark: Mark, budget: nat,
                    ghost rest: multiset<nat>)
    returns (d': Directory, done: nat)
    requires Ready(m, d, rest)
    requires KERNEL_SLOTS * ENTRIES * PAGE_SIZE <= start && start + length <= (PAGES - 1) * PAGE_SIZE
    modifies m.allocator, m.refCount, m.memory
    ensures Ready(m, d', rest) && Kept(rest, old(m.memory[..]), m.memory[..], d, d')
    ensures Afforded(d, start / PAGE_SIZE, PagesSpanned(start, length), done, budget, m.allocator.stack == [])
    ensures Entered(d, d', start / PAGE_SIZE, done, writable)
    ensures View(d', m.memory[..]) == MapZero(View(d, old(m.memory[..])), start / PAGE_SIZE, done, mark)
  {
    MoreToMap(start, length, PagesSpanned(start, length));
    d', done := MapPages(m, d, start / PAGE_SIZE, PagesSpanned(start, length), writable, mark, budget, rest);
  }

  // ---------------------------------------------------------------- new_pages

  lemma RemarkFrames(d: Directory, p: nat, e: Pte)
    requires WellFormed(d) && p < PAGES && Lookup(d, p).Present? && e.Present? && e.frame == Lookup(d, p).frame
    ensures HasTable(d, p) && DirFrames(Update(d, p, e)) == DirFrames(d)
  {
    UpdateFrames(d, p, e);
    Replace(DirFrames(Update(d, p, e)), DirFrames(d), PteFrames(e), PteFrames(e), multiset{}, multiset{});
    assert DirFrames(Update(d, p, e)) + multiset{} == DirFrames(Update(d, p, e));
  }

  /** `SET_NEWPAGE_END` and `SET_NEWPAGE_START` on the entry of a mapped page. */
  method Remark(m: Frames, d: Directory, p: nat, mark: Mark, ghost rest: multiset<nat>) returns (d': Directory)
    requires Ready(m, d, rest) && p < PAGES && Lookup(d, p).Present?
    ensures Ready(m, d', rest) && DirFrames(d') == DirFrames(d)
    ensures View(d', m.memory[..]) == SetMark(View(d, m.memory[..]), p, mark)
  {
    RemarkFrames(d, p, Lookup(d, p).(mark := mark));
    d' := Update(d, p, Lookup(d, p).(mark := mark));
  }

  method MarkBlock(m: Frames, d: Directory, base: nat, n: nat, ghost rest: multiset<nat>) returns (d': Directory)
    requires Ready(m, d, rest) && 0 < n && base + n <= PAGES
    requires Lookup(d, base).Present? && Lookup(d, base + n - 1).Present?
    ensures Ready(m, d', rest) && DirFrames(d') == DirFrames(d)
    ensures View(d', m.memory[..]) == SetMark(SetMark(View(d, m.memory[..]), base + n - 1, End), base, Start)
  {
    d' := Remark(m, d, base + n - 1, End, rest);
    assert base in View(d', m.memory[..]);
    d' := Remark(m, d', base, Start, rest);
  }

  lemma Mapped(s: Space, d: Directory, mem: seq<seq<bv8>>, base: nat, n: nat)
    requires WellFormed(d) && 0 < n && base + n <= PAGES && View(d, mem) == MapZero(s, base, n, Page)
    ensures Lookup(d, base).Present? && Lookup(d, base + n - 1).Present?
  {
    MapZeroSpec(s, base, n, Page);
    assert base in View(d, mem) && base + n - 1 in View(d, mem);
  }

  lemma WholePages(base: nat, n: nat)
    ensures PagesSpanned(base * PAGE_SIZE, n * PAGE_SIZE) == n && base * PAGE_SIZE / PAGE_SIZE == base
  {
  }

  const WORD: nat := 0x1_0000_0000

  /** `is_memory_range_mapped` says UNMAPPED; the page at base + length is looked at too. */
  method RangeUnmapped(d: Directory, base: nat, length: int) returns (unmapped: bool)
    requires WellFormed(d) && base < WORD && base + length < (PAGES - 1) * PAGE_SIZE
    ensures unmapped <==>
      && KERNEL_SLOTS * ENTRIES * PAGE_SIZE <= base && 0 < length <= 0xFEFF_FFFF
      && forall p :: base / PAGE_SIZE <= p <= (base + length) / PAGE_SIZE ==> Lookup(d, p).Absent?
  {
    if base == 0 || length <= 0 || length > 0xFFFF_FFFF - 0x100_0000 {
      return false;
    }
    if base < 0x100_0000 {
      return false;
    }
    var p: nat := base / PAGE_SIZE;
    while p * PAGE_SIZE <= base + length
      invariant base / PAGE_SIZE <= p
      invariant p <= (base + length) / PAGE_SIZE + 1
      invariant forall q :: base / PAGE_SIZE <= q < p ==> Lookup(d, q).Absent?
      decreases PAGES - p
    {
      if Lookup(d, p).Present? {
        return false;
      }
      p := p + 1;
    }
    return true;
  }

  /** `map_new_pages` */
  method MapNewPages(m: Frames, d: Directory, base: nat, n: nat, budget: nat, ghost rest: multiset<nat>)
    returns (d': Directory, done: nat)
    requires Ready(m, d, rest)
    requires KERNEL_SLOTS * ENTRIES <= base && 0 < n && base + n < PAGES
    modifies m.allocator, m.refCount, m.memory
    ensures Ready(m, d', rest) && Kept(rest, old(m.memory[..]), m.memory[..], d, d')
    ensures Afforded(d, base, n, done, budget, m.allocator.stack == [])
    ensures View(d', m.memory[..]) == EagerCopy.NewPages(View(d, old(m.memory[..])), base, n, done)
  {
    WholePages(base, n);
    d', done := MapSegment(m, d, base * PAGE_SIZE, n * PAGE_SIZE, true, Page, budget, rest);
    if done < n {
      return;
    }
    Mapped(View(d, old(m.memory[..])), d', m.memory[..], base, n);
    d' := MarkBlock(m, d', base, n, rest);
  }

  // ---------------------------------------------------------------- remove_pages

  lemma RemovedFrames(d: Directory, p: nat, rest: multiset<nat>)
    requires WellFormed(d) && p < PAGES && Lookup(d, p).Present?
    ensures HasTable(d, p)
    ensures var f := Lookup(d, p).frame;
      && f in rest + DirFrames(d)
      && rest + DirFrames(Update(d, p, Absent)) == rest + DirFrames(d) - multiset{f}
      && DirFrames(Update(d, p, Absent)) <= DirFrames(d)
  {
    LookupReferred(d, p);
    UpdateFrames(d, p, Absent);
    assert DirFrames(d) + multiset{} == DirFrames(d);
  }

  lemma RemovedAlone(d: Directory, p: nat, total: multiset<nat>, less: multiset<nat>)
    requires WellFormed(d) && p < PAGES && HasTable(d, p) && Alone(d, total) && less <= total
    ensures Alone(Update(d, p, Absent), less)
  {
    var d' := Update(d, p, Absent);
    forall q | 0 <= q < PAGES && Lookup(d', q).Present? && Lookup(d', q).writable
      ensures less[Lookup(d', q).frame] <= 1
    {
      assert Lookup(d, q).writable;
    }
  }

  lemma RemovedView(d: Directory, p: nat, mem: seq<seq<bv8>>)
    requires WellFormed(d) && p < PAGES && HasTable(d, p)
    ensures View(Update(d, p, Absent), mem) == Without(View(d, mem), p, 1)
  {
  }

  /** One page less: the last reference frees the frame. */
  method UnmapPage(m: Frames, d: Directory, p: nat, ghost rest: multiset<nat>) returns (d': Directory)
    requires Ready(m, d, rest) && p < PAGES && Lookup(d, p).Present?
    modifies m.allocator, m.allocator.next, m.refCount
    ensures Ready(m, d', rest) && DirFrames(d') <= DirFrames(d)
    ensures View(d', m.memory[..]) == Without(View(d, m.memory[..]), p, 1)
  {
    ghost var total := rest + DirFrames(d);
    var f := Lookup(d, p).frame;
    RemovedFrames(d, p, rest);
    RemovedAlone(d, p, total, total - multiset{f});
    RemovedView(d, p, m.memory[..]);
    m.Drop(f, total);
    d' := Update(d, p, Absent);
  }

  lemma WithoutMore(s: Space, now: Space, lo: nat, k: nat)
    requires now == Without(s, lo, k)
    ensures Without(now, lo + k, 1) == Without(s, lo, k + 1)
  {
  }

  predicate EntryContinues(d: Directory, p: nat)
    requires WellFormed(d) && p < PAGES
  {
    var e := Lookup(d, p);
    e.Present? && (e.mark == Page || e.mark == End)
  }

  lemma ContinuesSame(s: Space, d: Directory, mem: seq<seq<bv8>>, base: nat, k: nat)
    requires WellFormed(d) && 0 < k && base + k < PAGES && View(d, mem) == Without(s, base, k)
    ensures EntryContinues(d, base + k) == Continues(s, base + k)
  {
    assert base + k in View(d, mem) <==> base + k in s;
  }

  /** `unmap_new_pages`: the walk from the start of a block over all pages that continue it. */
  method UnmapNewPages(m: Frames, d: Directory, base: nat, ghost rest: multiset<nat>)
    returns (d': Directory, ok: bool)
    requires Ready(m, d, rest) && base < PAGES
    modifies m.allocator, m.allocator.next, m.refCount
    ensures Ready(m, d', rest) && DirFrames(d') <= DirFrames(d)
    ensures ok == CanRemove(View(d, m.memory[..]), base)
    ensures View(d', m.memory[..]) ==
      if ok then RemovePages(View(d, m.memory[..]), base) else View(d, m.memory[..])
  {
    ghost var s := View(d, m.memory[..]);
    assert base in s <==> Lookup(d, base).Present?;
    if !(Lookup(d, base).Present? && Lookup(d, base).mark == Start) {
      return d, false;
    }
    d' := UnmapPage(m, d, base, rest);
    d' := UnmapStretch(m, d', base, s, rest);
    return d', true;
  }

  /** The walk has removed k pages; the next one continues the block. */
  method UnmapNext(m: Frames, d: Directory, base: nat, k: nat, ghost s: Space, ghost rest: multiset<nat>)
    returns (d': Directory)
    requires Ready(m, d, rest) && 0 < k && base + k < PAGES && EntryContinues(d, base + k)
    requires View(d, m.memory[..]) == Without(s, base, k)
    modifies m.allocator, m.allocator.next, m.refCount
    ensures Ready(m, d', rest) && DirFrames(d') <= DirFrames(d)
    ensures View(d', m.memory[..]) == Without(s, base, k + 1)
    ensures Continues(s, base + k)
  {
    ContinuesSame(s, d, m.memory[..], base, k);
    WithoutMore(s, View(d, m.memory[..]), base, k);
    d' := UnmapPage(m, d, base + k, rest);
  }

  lemma StretchOver(s: Space, d: Directory, mem: seq<seq<bv8>>, base: nat, k: nat)
    requires WellFormed(d) && 0 < k && base + k <= PAGES && View(d, mem) == Without(s, base, k)
    requires base + k == PAGES || !EntryContinues(d, base + k)
    requires forall i :: base < i < base + k ==> Continues(s, i)
    ensures k == 1 + Stretch(s, base + 1)
  {
    StretchOfBlock(s, base + 1, base + k);
    if base + k < PAGES {
      ContinuesSame(s, d, mem, base, k);
    }
  }

  method UnmapStretch(m: Frames, d: Directory, base: nat, ghost s: Space, ghost rest: multiset<nat>)
    returns (d': Directory)
    requires Ready(m, d, rest) && base < PAGES && View(d, m.memory[..]) == Without(s, base, 1)
    modifies m.allocator, m.allocator.next, m.refCount
    ensures Ready(m, d', rest) && DirFrames(d') <= DirFrames(d)
    ensures View(d', m.memory[..]) == Without(s, base, 1 + Stretch(s, base + 1))
  {
    d' := d;
    var k: nat := 1;
    while base + k < PAGES && EntryContinues(d', base + k)
      invariant 0 < k && base + k <= PAGES
      invariant Ready(m, d', rest) && DirFrames(d') <= DirFrames(d)
      invariant View(d', m.memory[..]) == Without(s, base, k)
      invariant forall i :: base < i < base + k ==> Continues(s, i)
      decreases PAGES - k
    {
      d' := UnmapNext(m, d', base, k, s, rest);
      k := k + 1;
    }
    StretchOver(s, d', m.memory[..], base, k);
  }

  // ---------------------------------------------------------------- copy-on-write faults

  lemma CopiedFrames(d: Directory, p: nat, e: Pte, total: multiset<nat>, rest: multiset<nat>)
    requires WellFormed(d) && p < PAGES && Lookup(d, p).Present? && e.Present? && total == rest + DirFrames(d)
    ensures HasTable(d, p)
    ensures rest + DirFrames(Update(d, p, e)) == total + multiset{e.frame} - multiset{Lookup(d, p).frame}
  {
    UpdateFrames(d, p, e);
    Shuffle(DirFrames(Update(d, p, e)), DirFrames(d), rest, Lookup(d, p).frame, e.frame);
  }

  lemma Shuffle(a: multiset<nat>, b: multiset<nat>, rest: multiset<nat>, x: nat, y: nat)
    requires a + multiset{x} == b + multiset{y}
    ensures rest + a == rest + b + multiset{y} - multiset{x}
  {
    forall f ensures (rest + a)[f] == (rest + b + multiset{y} - multiset{x})[f] {
      assert (a + multiset{x})[f] == (b + multiset{y})[f];
    }
  }

  lemma CopiedAlone(d: Directory, p: nat, e: Pte, total: multiset<nat>)
    requires WellFormed(d) && p < PAGES && Lookup(d, p).Present? && HasTable(d, p) && e.Present?
    requires DirFrames(d) <= total && total[e.frame] == 0 && Alone(d, total)
    ensures Alone(Update(d, p, e), total + multiset{e.frame} - multiset{Lookup(d, p).frame})
  {
    var d' := Update(d, p, e);
    var total' := total + multiset{e.frame} - multiset{Lookup(d, p).frame};
    forall q | 0 <= q < PAGES && Lookup(d', q).Present? && Lookup(d', q).writable
      ensures total'[Lookup(d', q).frame] <= 1
    {
      if q != p {
        LookupReferred(d, q);
      }
    }
  }

  lemma CopiedView(d: Directory, p: nat, e: Pte, mem: seq<seq<bv8>>)
    requires WellFormed(d) && p < PAGES && Lookup(d, p).Present? && HasTable(d, p) && e.Present?
    requires DirFrames(d)[e.frame] == 0 && e.frame < |mem| && Lookup(d, p).frame < |mem|
    requires e.mark == Lookup(d, p).mark
    ensures View(Update(d, p, e), mem[e.frame := mem[Lookup(d, p).frame]]) == View(d, mem)
  {
    forall q: nat | q < PAGES && Lookup(d, q).Present?
      ensures Lookup(d, q).frame != e.frame
    {
      LookupReferred(d, q);
    }
  }

  lemma CopiedKept(d: Directory, p: nat, e: Pte, mem: seq<seq<bv8>>, page: seq<bv8>, rest: multiset<nat>)
    requires WellFormed(d) && p < PAGES && Lookup(d, p).Present? && HasTable(d, p) && e.Present?
    requires rest[e.frame] == 0 && e.frame < |mem|
    ensures Kept(rest, mem, mem[e.frame := page], d, Update(d, p, e))
  {
    UpdateFrames(d, p, e);
    assert forall f :: f != e.frame ==> DirFrames(Update(d, p, e))[f] <= (DirFrames(d) + multiset{e.frame})[f];
  }

  /** The frame has other references: copy it into a frame of its own. */
  method CopyPage(m: Frames, d: Directory, p: nat, ghost rest: multiset<nat>) returns (d': Directory, ok: bool)
    requires Ready(m, d, rest) && p < PAGES && Lookup(d, p).Present?
    requires (rest + DirFrames(d))[Lookup(d, p).frame] > 1
    modifies m.allocator, m.allocator.next, m.refCount, m.memory
    ensures Ready(m, d', rest) && Kept(rest, old(m.memory[..]), m.memory[..], d, d')
    ensures View(d', m.memory[..]) == View(d, old(m.memory[..]))
    ensures if ok then Lookup(d', p).Present? && Lookup(d', p).writable else d' == d
    ensures !ok <==> old(m.allocator.stack) == []
    ensures !ok ==> m.allocator.stack == []
  {
    ghost var total := rest + DirFrames(d);
    var frame := m.Take(total);
    if frame.None? {
      return d, false;
    }
    var was := Lookup(d, p);
    var e := Present(frame.value, true, false, was.mark);
    ghost var mem := m.memory[..];
    CopiedFrames(d, p, e, total, rest);
    CopiedAlone(d, p, e, total);
    CopiedView(d, p, e, mem);
    CopiedKept(d, p, e, mem, mem[was.frame], rest);
    d' := Update(d, p, e);
    m.memory[frame.value] := m.memory[was.frame];
    assert m.memory[..] == mem[frame.value := mem[was.frame]];
    m.Drop(was.frame, total + multiset{frame.value});
    return d', true;
  }

  lemma OpenedAlone(d: Directory, p: nat, e: Pte, total: multiset<nat>)
    requires WellFormed(d) && p < PAGES && HasTable(d, p) && e.Present?
    requires total[e.frame] <= 1 && Alone(d, total)
    ensures Alone(Update(d, p, e), total)
  {
  }

  /**
    `handle_cow` on a present, read-only page: afterwards the page is writable, and no task can
    tell the difference.
   */
  method HandleCow(m: Frames, d: Directory, p: nat, ghost rest: multiset<nat>) returns (d': Directory, ok: bool)
    requires Ready(m, d, rest) && p < PAGES && Lookup(d, p).Present? && !Lookup(d, p).writable
    modifies m.allocator, m.allocator.next, m.refCount, m.memory
    ensures Ready(m, d', rest) && Kept(rest, old(m.memory[..]), m.memory[..], d, d')
    ensures View(d', m.memory[..]) == View(d, old(m.memory[..]))
    ensures if ok then Lookup(d', p).Present? && Lookup(d', p).writable else d' == d
    ensures !ok <==> old(m.allocator.stack) == [] && (rest + DirFrames(d))[Lookup(d, p).frame] > 1
    ensures !ok ==> m.allocator.stack == []
  {
    var f := Lookup(d, p).frame;
    LookupReferred(d, p);
    assert f in rest + DirFrames(d);
    if m.refCount[f] == 1 {
      var e := Lookup(d, p).(cow := false, writable := true);
      RemarkFrames(d, p, e);
      OpenedAlone(d, p, e, rest + DirFrames(d));
      return Update(d, p, e), true;
    }
    d', ok := CopyPage(m, d, p, rest);
  }

  lemma StoredView(d: Directory, p: nat, mem: seq<seq<bv8>>, page: seq<bv8>, total: multiset<nat>)
    requires WellFormed(d) && p < PAGES && Lookup(d, p).Present? && Lookup(d, p).frame < |mem|
    requires DirFrames(d) <= total && total[Lookup(d, p).frame] <= 1
    ensures View(d, mem[Lookup(d, p).frame := page]) == View(d, mem)[p := View(d, mem)[p].(bytes := page)]
  {
    forall q: nat | q < PAGES && q != p && Lookup(d, q).Present?
      ensures Lookup(d, q).frame != Lookup(d, p).frame
    {
      if Lookup(d, q).frame == Lookup(d, p).frame {
        TwoPages(d, p, q, Lookup(d, p).frame);
      }
    }
  }

  /** The processor stores a byte through a writable entry. */
  method StoreByte(m: Frames, d: Directory, p: nat, offset: nat, b: bv8, ghost rest: multiset<nat>)
    requires Ready(m, d, rest) && p < PAGES && Lookup(d, p).Present? && Lookup(d, p).writable && offset < PAGE_SIZE
    modifies m.memory
    ensures Ready(m, d, rest) && Kept(rest, old(m.memory[..]), m.memory[..], d, d)
    ensures p in View(d, old(m.memory[..])) && offset < |View(d, old(m.memory[..]))[p].bytes|
    ensures View(d, m.memory[..]) == Store(View(d, old(m.memory[..])), p, offset, b)
  {
    var f := Lookup(d, p).frame;
    LookupReferred(d, p);
    ghost var mem := m.memory[..];
    StoredView(d, p, mem, mem[f][offset := b], rest + DirFrames(d));
    m.memory[f] := m.memory[f][offset := b];
    assert m.memory[..] == mem[f := mem[f][offset := b]];
  }
}
