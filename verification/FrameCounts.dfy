/**
  Physical frames with reference counts (frame_ref_count in kern/vm/vm.c).  The specification
  variable of every method is the multiset of frame references held by all page tables: a
  frame's count is its multiplicity there, and a frame is on the free stack exactly when its
  multiplicity is zero.
 */
module FrameCounts {
  import opened EagerCopy
  import opened PageTables
  import opened Options
  import FA = FrameAllocator

  class Frames {
    const allocator: FA.FrameAllocator
    const refCount: array<int>         // frame_ref_count
    const memory: array<seq<bv8>>      // the contents of the frames

    constructor (count: nat)
      requires 0 < count && FA.FrameAddress(count) <= FA.FREE_FRAME_LIST_END
      ensures Counted(multiset{}) && PageSized() && memory.Length == count
      ensures fresh(this) && fresh(allocator) && fresh(allocator.next) && fresh(refCount) && fresh(memory)
    {
      allocator := new FA.FrameAllocator(count);
      refCount := new int[count](_ => 0);
      memory := new seq<bv8>[count](_ => ZeroPage());
      new;
      forall f | 0 <= f < count ensures f in allocator.stack {
        assert allocator.stack[f] == f;
      }
    }

    ghost predicate Shape()
      reads allocator, allocator.next
    {
      && allocator.Valid()
      && refCount.Length == memory.Length == allocator.next.Length
      && (refCount as object) != (allocator.next as object)
      && (memory as object) != (allocator.next as object)
      && (memory as object) != (refCount as object)
    }

    /** Every count is exact, and the free stack holds exactly the unreferenced frames. */
    ghost predicate Counted(total: multiset<nat>)
      reads allocator, allocator.next, refCount
    {
      && Shape()
      && (forall f :: 0 <= f < refCount.Length ==> refCount[f] == total[f])
      && (forall f :: 0 <= f < refCount.Length ==> (f in allocator.stack <==> total[f] == 0))
      && (forall f :: f in total ==> f < refCount.Length)
    }

    ghost predicate PageSized()
      reads memory
    {
      forall f :: 0 <= f < memory.Length ==> |memory[f]| == PAGE_SIZE
    }

    /** `allocate_frame` and the first reference to the frame. */
    method Take(ghost total: multiset<nat>) returns (frame: Option<nat>)
      requires Counted(total)
      modifies allocator, refCount
      ensures frame.None? ==> Counted(total) && allocator.stack == old(allocator.stack) == []
      ensures frame.Some? ==> frame.value < refCount.Length && total[frame.value] == 0
      ensures frame.Some? ==> Counted(total + multiset{frame.value})
    {
      ghost var stack := allocator.stack;
      var address := allocator.Allocate();
      if address.None? {
        return None;
      }
      var f := FA.FrameIndex(address.value);
      assert f == stack[0];
      refCount[f] := refCount[f] + 1;
      assert forall g :: g in stack <==> g == stack[0] || g in stack[1..];
      return Some(f);
    }

    /** One more reference to a frame that has one. */
    method AddReference(f: nat, ghost total: multiset<nat>)
      requires Counted(total) && f in total
      modifies refCount
      ensures Counted(total + multiset{f})
    {
      refCount[f] := refCount[f] + 1;
    }

    /** One reference less; the frame is freed with the last one. */
    method Drop(f: nat, ghost total: multiset<nat>)
      requires Counted(total) && f in total
      modifies allocator, allocator.next, refCount
      ensures Counted(total - multiset{f})
      ensures allocator.stack == if total[f] == 1 then [f] + old(allocator.stack) else old(allocator.stack)
    {
      refCount[f] := refCount[f] - 1;
      assert refCount[f] >= 0;
      if refCount[f] == 0 {
        allocator.Deallocate(FA.FrameAddress(f));
      }
    }

    // -------------------------------------------------------------- page tables

    /** `clone_page_table` after its allocation: copy the table and count its references. */
    method CloneTable(entries: seq<Pte>, ghost total: multiset<nat>) returns (copy: seq<Pte>)
      requires Counted(total) && TableFrames(entries) <= total
      modifies refCount
      ensures copy == entries && Counted(total + TableFrames(entries))
    {
      copy := entries;
      ghost var now := total;
      NoneYet(entries, total);
      for i := 0 to |copy|
        invariant Counted(now) && now == total + TableFrames(entries[..i])
      {
        OneMore(entries, i, total);
        now := now + PteFrames(entries[i]);
        if copy[i].Present? {
          AddReference(copy[i].frame, total + TableFrames(entries[..i]));
        }
      }
      assert entries[..|entries|] == entries;
    }

    /** `free_page_table`: give up every reference of the table. */
    method FreeTable(entries: seq<Pte>, ghost total: multiset<nat>)
      requires Counted(total) && TableFrames(entries) <= total
      modifies allocator, allocator.next, refCount
      ensures Counted(total - TableFrames(entries))
      ensures StillReferred(TableFrames(entries), total) ==> allocator.stack == old(allocator.stack)
    {
      ghost var now := total;
      NoneYet(entries, total);
      for i := 0 to |entries|
        invariant Counted(now) && now == total - TableFrames(entries[..i])
        invariant StillReferred(TableFrames(entries), total) ==> allocator.stack == old(allocator.stack)
      {
        OneLess(entries, i, total);
        now := now - PteFrames(entries[i]);
        if entries[i].Present? {
          Drop(entries[i].frame, total - TableFrames(entries[..i]));
        }
      }
      assert entries[..|entries|] == entries;
    }

    // -------------------------------------------------------------- page directories

    /** `free_paging_info` */
    method FreeDirectory(d: Directory, ghost total: multiset<nat>)
      requires WellFormed(d) && Counted(total) && DirFrames(d) <= total
      modifies allocator, allocator.next, refCount
      ensures Counted(total - DirFrames(d))
      ensures StillReferred(DirFrames(d), total) ==> allocator.stack == old(allocator.stack)
    {
      KernelSlots(d);
      assert total - multiset{} == total;
      for i := KERNEL_SLOTS to ENTRIES
        invariant Counted(total - DirFrames(d[..i]))
        invariant StillReferred(DirFrames(d), total) ==> allocator.stack == old(allocator.stack)
      {
        OneMoreSlot(d, i, total);
        if d[i].Table? {
          FreeTable(d[i].entries, total - DirFrames(d[..i]));
        }
      }
      assert d[..ENTRIES] == d;
    }

    /** Clone the page table of slot `i`. */
    method CloneSlot(fill: Directory, d: Directory, i: nat, ghost total: multiset<nat>) returns (fill': Directory)
      requires WellFormed(d) && i < ENTRIES && d[i].Table? && PartialCopy(fill, d, i)
      requires DirFrames(d) <= total && Counted(total + DirFrames(fill))
      modifies refCount
      ensures PartialCopy(fill', d, i + 1) && Counted(total + DirFrames(fill'))
    {
      CopySlot(fill, d, i);
      SlotCounted(fill, d, i, total);
      var table := CloneTable(d[i].entries, total + DirFrames(fill));
      fill' := fill[i := Table(table)];
    }

    /** Give back what a clone that ran out of kernel memory had counted. */
    method AbandonClone(fill: Directory, d: Directory, i: nat, ghost total: multiset<nat>)
      requires WellFormed(d) && PartialCopy(fill, d, i)
      requires DirFrames(d) <= total && Counted(total + DirFrames(fill))
      modifies allocator, allocator.next, refCount
      ensures Counted(total) && allocator.stack == old(allocator.stack)
    {
      Undo(fill, d, i, total);
      FreeDirectory(fill, total + DirFrames(fill));
    }

    /**
      The loop of `clone_paging_info`, with kernel memory for `budget` page tables.  When that
      runs out, every count is back to what it was.
     */
    method CloneDirectory(d: Directory, budget: nat, ghost total: multiset<nat>) returns (copy: Option<Directory>)
      requires WellFormed(d) && Counted(total) && DirFrames(d) <= total
      modifies allocator, allocator.next, refCount
      ensures copy.Some? ==> copy.value == d && Counted(total + DirFrames(d))
      ensures copy.None? ==> Counted(total)
      ensures copy.None? <==> budget < Tables(d, ENTRIES)
      ensures allocator.stack == old(allocator.stack)
    {
      var fill := EmptyDirectory();
      StartCopy(d, total);
      var left: nat := budget;
      NoKernelTables(d, KERNEL_SLOTS);
      for i := KERNEL_SLOTS to ENTRIES
        invariant PartialCopy(fill, d, i) && left + Tables(d, i) == budget
        invariant Counted(total + DirFrames(fill))
        invariant allocator.stack == old(allocator.stack)
      {
        if d[i].Table? {
          if left == 0 {
            TablesMonotone(d, i + 1, ENTRIES);
            AbandonClone(fill, d, i, total);
            return None;
          }
          left := left - 1;
          fill := CloneSlot(fill, d, i, total);
        } else {
          SkipSlot(fill, d, i);
        }
      }
      CopyDone(fill, d);
      return Some(fill);
    }
  }

  /** Every frame of `part` keeps a reference when the references of `part` are dropped. */
  ghost predicate StillReferred(part: multiset<nat>, total: multiset<nat>) {
    forall f :: f in part ==> total[f] > part[f]
  }

  lemma NoneYet(entries: seq<Pte>, total: multiset<nat>)
    ensures total + TableFrames(entries[..0]) == total == total - TableFrames(entries[..0])
  {
  }

  lemma OneMore(entries: seq<Pte>, i: nat, total: multiset<nat>)
    requires i < |entries| && TableFrames(entries) <= total
    ensures total + TableFrames(entries[..i + 1]) == total + TableFrames(entries[..i]) + PteFrames(entries[i])
    ensures entries[i].Absent? ==> total + TableFrames(entries[..i + 1]) == total + TableFrames(entries[..i])
    ensures entries[i].Present? ==> entries[i].frame in total + TableFrames(entries[..i])
  {
    assert entries[..i + 1][..i] == entries[..i];
    BagOne(entries, PteFrames, i);
  }

  lemma OneLess(entries: seq<Pte>, i: nat, total: multiset<nat>)
    requires i < |entries| && TableFrames(entries) <= total
    ensures total - TableFrames(entries[..i + 1]) == total - TableFrames(entries[..i]) - PteFrames(entries[i])
    ensures entries[i].Absent? ==> total - TableFrames(entries[..i + 1]) == total - TableFrames(entries[..i])
    ensures entries[i].Present? ==> entries[i].frame in total - TableFrames(entries[..i])
    ensures entries[i].Present? && StillReferred(TableFrames(entries), total)
      ==> (total - TableFrames(entries[..i]))[entries[i].frame] > 1
  {
    assert entries[..i + 1][..i] == entries[..i];
    BagSplit(entries, PteFrames, i + 1);
    TakeAway(total, TableFrames(entries), TableFrames(entries[..i]), PteFrames(entries[i]));
  }

  lemma TakeAway(total: multiset<nat>, all: multiset<nat>, a: multiset<nat>, x: multiset<nat>)
    requires a + x <= all <= total
    ensures total - (a + x) == total - a - x && x <= total - a
    ensures StillReferred(all, total) ==> StillReferred(x, total - a)
  {
  }

  lemma OneMoreSlot(d: Directory, i: nat, total: multiset<nat>)
    requires i < |d| && DirFrames(d) <= total
    ensures DirFrames(d[..i + 1]) == DirFrames(d[..i]) + SlotFrames(d[i])
    ensures total - DirFrames(d[..i + 1]) == total - DirFrames(d[..i]) - SlotFrames(d[i])
    ensures SlotFrames(d[i]) <= total - DirFrames(d[..i])
    ensures StillReferred(DirFrames(d), total) ==> StillReferred(SlotFrames(d[i]), total - DirFrames(d[..i]))
  {
    assert d[..i + 1][..i] == d[..i];
    BagSplit(d, SlotFrames, i + 1);
    TakeAway(total, DirFrames(d), DirFrames(d[..i]), SlotFrames(d[i]));
  }

  lemma KernelSlots(d: Directory)
    requires WellFormed(d)
    ensures DirFrames(d[..KERNEL_SLOTS]) == multiset{}
  {
    BagNone(d[..KERNEL_SLOTS], SlotFrames);
  }

  /** The first `i` slots of `fill` are those of `d`, the others are still empty. */
  predicate PartialCopy(fill: Directory, d: Directory, i: nat)
    requires WellFormed(d)
  {
    WellFormed(fill) && forall k :: 0 <= k < ENTRIES ==> fill[k] == if k < i then d[k] else NoTable
  }

  lemma StartCopy(d: Directory, total: multiset<nat>)
    requires WellFormed(d)
    ensures PartialCopy(EmptyDirectory(), d, KERNEL_SLOTS)
    ensures total + DirFrames(EmptyDirectory()) == total
  {
    BagNone(EmptyDirectory(), SlotFrames);
  }

  lemma CopySlot(fill: Directory, d: Directory, i: nat)
    requires WellFormed(d) && i < ENTRIES && PartialCopy(fill, d, i) && d[i].Table?
    ensures PartialCopy(fill[i := d[i]], d, i + 1)
  {
  }

  lemma SlotCounted(fill: Directory, d: Directory, i: nat, total: multiset<nat>)
    requires i < |d| == |fill| && fill[i].NoTable? && d[i].Table? && DirFrames(d) <= total
    ensures total + DirFrames(fill[i := d[i]]) == total + DirFrames(fill) + TableFrames(d[i].entries)
    ensures TableFrames(d[i].entries) <= total + DirFrames(fill)
  {
    BagOne(d, SlotFrames, i);
    BagUpdate(fill, SlotFrames, i, d[i]);
    assert DirFrames(fill[i := d[i]]) + multiset{} == DirFrames(fill[i := d[i]]);
  }

  lemma SkipSlot(fill: Directory, d: Directory, i: nat)
    requires WellFormed(d) && i < ENTRIES && PartialCopy(fill, d, i) && d[i].NoTable?
    ensures PartialCopy(fill, d, i + 1)
  {
  }

  lemma CopyDone(fill: Directory, d: Directory)
    requires WellFormed(d) && PartialCopy(fill, d, ENTRIES)
    ensures fill == d
  {
  }

  /** Giving up the references of a partial copy of `d` leaves every frame referred to by `d`. */
  lemma Undo(fill: Directory, d: Directory, i: nat, total: multiset<nat>)
    requires WellFormed(d) && PartialCopy(fill, d, i) && DirFrames(d) <= total
    ensures StillReferred(DirFrames(fill), total + DirFrames(fill))
    ensures total + DirFrames(fill) - DirFrames(fill) == total
  {
    forall f | f in DirFrames(fill) ensures f in total {
      var k := BagSource(fill, SlotFrames, f);
      BagOne(d, SlotFrames, k);
    }
  }
}
