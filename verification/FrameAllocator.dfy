/**
  The physical frame allocator (kern/allocator/frame_allocator.c): a stack of free frames
  threaded through an array.  Entry i of the array holds the address of the frame below frame i
  on the stack, or FREE_FRAME_LIST_END.
 */
module FrameAllocator {
  import opened Options

  const PAGE_SIZE: nat := 0x1000
  const USER_MEM_START: nat := 0x100_0000
  const FREE_FRAME_LIST_END: nat := 0xFFFF_FFFF

  function FrameAddress(index: nat): nat {
    USER_MEM_START + index * PAGE_SIZE
  }

  /** `FRAME_INDEX` */
  function FrameIndex(address: nat): nat
    requires address >= USER_MEM_START
  {
    (address - USER_MEM_START) / PAGE_SIZE
  }

  predicate Distinct(s: seq<nat>) {
    forall i, j :: 0 <= i < j < |s| ==> s[i] != s[j]
  }

  /** The link that follows position `i` of the stack. */
  function LinkBelow(stack: seq<nat>, i: nat): nat
    requires i < |stack|
  {
    if i + 1 < |stack| then FrameAddress(stack[i + 1]) else FREE_FRAME_LIST_END
  }

  function Top(stack: seq<nat>): nat {
    if stack == [] then FREE_FRAME_LIST_END else FrameAddress(stack[0])
  }

  class FrameAllocator {
    const next: array<nat>  // free_frames_arr
    var head: nat           // free_list_head
    ghost var stack: seq<nat>  // the free frames by index, top first

    ghost predicate Valid()
      reads this, next
    {
      && FrameAddress(next.Length) <= FREE_FRAME_LIST_END
      && head == Top(stack)
      && Distinct(stack)
      && (forall i :: 0 <= i < |stack| ==> stack[i] < next.Length)
      && (forall i :: 0 <= i < |stack| ==> next[stack[i]] == LinkBelow(stack, i))
    }

    /** `init_free_list`: every frame is free, the first one on top. */
    constructor (count: nat)
      requires 0 < count && FrameAddress(count) <= FREE_FRAME_LIST_END
      ensures Valid() && fresh(next) && next.Length == count
      ensures stack == seq(count, i => i)
    {
      var arr := new nat[count];
      for i := 0 to count - 1
        invariant forall k :: 0 <= k < i ==> arr[k] == FrameAddress(k + 1)
      {
        arr[i] := USER_MEM_START + (i + 1) * PAGE_SIZE;
      }
      arr[count - 1] := FREE_FRAME_LIST_END;
      next := arr;
      head := USER_MEM_START;
      stack := seq(count, i => i);
    }

    /** `allocate_frame`: pop the top of the stack; fails exactly when no frame is free. */
    method Allocate() returns (frame: Option<nat>)
      requires Valid()
      modifies this
      ensures Valid()
      ensures old(stack) == [] ==> frame == None && stack == []
      ensures old(stack) != [] ==> frame == Some(FrameAddress(old(stack)[0])) && stack == old(stack)[1..]
    {
      if head == FREE_FRAME_LIST_END {
        return None;
      }
      var address := head;
      assert address == FrameAddress(stack[0]);
      // the three assertions of the source: aligned, and an index in range
      assert address % PAGE_SIZE == 0 && 0 <= FrameIndex(address) < next.Length;
      head := next[FrameIndex(address)];
      stack := stack[1..];
      return Some(address);
    }

    /** `deallocate_frame`: push a frame that is not free. */
    method Deallocate(address: nat)
      requires Valid()
      requires USER_MEM_START <= address && address % PAGE_SIZE == 0 && FrameIndex(address) < next.Length
      requires FrameIndex(address) !in stack
      modifies this, next
      ensures Valid()
      ensures stack == [FrameIndex(address)] + old(stack)
    {
      var index := FrameIndex(address);
      next[index] := head;
      head := address;
      assert address == FrameAddress(index);
      stack := [index] + stack;
    }

    /** `check_physical_memory`: walk the stack and count it; the walk ends, so the links have no cycle. */
    method CountFree() returns (count: nat)
      requires Valid()
      ensures count == |stack|
    {
      count := 0;
      var first := head;
      while first != FREE_FRAME_LIST_END
        invariant count <= |stack|
        invariant first == if count < |stack| then FrameAddress(stack[count]) else FREE_FRAME_LIST_END
        decreases |stack| - count
      {
        assert first == FrameAddress(stack[count]) && stack[count] < next.Length;
        first := next[FrameIndex(first)];
        count := count + 1;
      }
    }
  }
}
