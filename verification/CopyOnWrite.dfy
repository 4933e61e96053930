/**
  User memory of all tasks with copy-on-write fork (kern/vm/vm.c).  Every operation keeps
  the reference counts exact and has on the tasks' memories exactly the effect of a step of
  the eager machine, whose fork copies every byte.
 */
module CopyOnWrite {
  import opened EagerCopy
  import opened PageTables
  import opened FrameCounts
  import opened AddressSpace
  import opened Options
  import opened Traces
  import FA = FrameAllocator

  datatype Task = Dead | Alive(dir: Directory)

  function TaskFrames(t: Task): multiset<nat> {
    if t.Dead? then multiset{} else DirFrames(t.dir)
  }

  /** All frame references of all tasks. */
  function Total(tasks: seq<Task>): multiset<nat> {
    Bag(tasks, TaskFrames)
  }

  predicate Sound(tasks: seq<Task>) {
    forall t :: 0 <= t < |tasks| && tasks[t].Alive? ==> WellFormed(tasks[t].dir)
  }

  predicate AllAlone(tasks: seq<Task>, total: multiset<nat>)
    requires Sound(tasks)
  {
    forall t :: 0 <= t < |tasks| && tasks[t].Alive? ==> Alone(tasks[t].dir, total)
  }

  function MeaningOf(t: Task, mem: seq<seq<bv8>>): Process
    requires t.Alive? ==> WellFormed(t.dir)
  {
    if t.Dead? then Gone else Running(View(t.dir, mem))
  }

  /** The memories that the page tables denote. */
  function Meaning(tasks: seq<Task>, mem: seq<seq<bv8>>): (r: Machine)
    requires Sound(tasks)
    ensures |r| == |tasks| && forall t :: 0 <= t < |r| ==> r[t] == MeaningOf(tasks[t], mem)
  {
    seq(|tasks|, t requires 0 <= t < |tasks| => MeaningOf(tasks[t], mem))
  }

  // ---------------------------------------------------------------- one task changes

  /** The references of all tasks but `t`. */
  function Rest(tasks: seq<Task>, t: nat): multiset<nat>
    requires t < |tasks|
  {
    Total(tasks[..t]) + Total(tasks[t + 1..])
  }

  lemma TotalIs(tasks: seq<Task>, t: nat)
    requires t < |tasks|
    ensures Total(tasks) == Rest(tasks, t) + TaskFrames(tasks[t])
  {
    BagSplit(tasks, TaskFrames, t);
    BagSplit(tasks[t..], TaskFrames, 1);
    assert tasks[t..][..1] == [tasks[t]] && tasks[t..][1..] == tasks[t + 1..];
    assert [tasks[t]][..0] == [];
  }

  lemma RestSame(tasks: seq<Task>, t: nat, x: Task)
    requires t < |tasks|
    ensures Rest(tasks[t := x], t) == Rest(tasks, t)
  {
    assert tasks[t := x][..t] == tasks[..t] && tasks[t := x][t + 1..] == tasks[t + 1..];
  }

  lemma OtherInRest(tasks: seq<Task>, t: nat, u: nat)
    requires t < |tasks| && u < |tasks| && u != t
    ensures TaskFrames(tasks[u]) <= Rest(tasks, t)
  {
    if u < t {
      BagOne(tasks[..t], TaskFrames, u);
    } else {
      BagOne(tasks[t + 1..], TaskFrames, u - t - 1);
    }
  }

  lemma SameView(d: Directory, rest: multiset<nat>, mem: seq<seq<bv8>>, mem': seq<seq<bv8>>)
    requires WellFormed(d) && DirFrames(d) <= rest
    requires forall f :: f in rest ==> PageAt(mem', f) == PageAt(mem, f)
    ensures View(d, mem') == View(d, mem)
  {
    forall p: nat | p < PAGES && Lookup(d, p).Present?
      ensures PageAt(mem', Lookup(d, p).frame) == PageAt(mem, Lookup(d, p).frame)
    {
      LookupReferred(d, p);
    }
  }

  lemma SameAlone(d: Directory, total: multiset<nat>, total': multiset<nat>)
    requires WellFormed(d) && Alone(d, total)
    requires forall f :: f in DirFrames(d) ==> total'[f] <= total[f]
    ensures Alone(d, total')
  {
    forall p | 0 <= p < PAGES && Lookup(d, p).Present? && Lookup(d, p).writable
      ensures total'[Lookup(d, p).frame] <= 1
    {
      LookupReferred(d, p);
    }
  }

  /** What `Kept` promises is enough for every other task. */
  lemma OthersUnaffected(tasks: seq<Task>, t: nat, u: nat, d': Directory, mem: seq<seq<bv8>>, mem': seq<seq<bv8>>)
    requires Sound(tasks) && t < |tasks| && u < |tasks| && u != t && tasks[t].Alive? && tasks[u].Alive?
    requires Kept(Rest(tasks, t), mem, mem', tasks[t].dir, d')
    requires Alone(tasks[u].dir, Rest(tasks, t) + DirFrames(tasks[t].dir))
    ensures View(tasks[u].dir, mem') == View(tasks[u].dir, mem)
    ensures Alone(tasks[u].dir, Rest(tasks, t) + DirFrames(d'))
  {
    OtherInRest(tasks, t, u);
    SameView(tasks[u].dir, Rest(tasks, t), mem, mem');
    SameAlone(tasks[u].dir, Rest(tasks, t) + DirFrames(tasks[t].dir), Rest(tasks, t) + DirFrames(d'));
  }

  lemma CommitMeaning(tasks: seq<Task>, t: nat, d': Directory, mem: seq<seq<bv8>>, mem': seq<seq<bv8>>)
    requires Sound(tasks) && t < |tasks| && WellFormed(d')
    requires forall u :: 0 <= u < |tasks| && u != t ==> MeaningOf(tasks[u], mem') == MeaningOf(tasks[u], mem)
    ensures Sound(tasks[t := Alive(d')])
    ensures Meaning(tasks[t := Alive(d')], mem') == Meaning(tasks, mem)[t := Running(View(d', mem'))]
  {
  }

  lemma CommitTotal(tasks: seq<Task>, t: nat, d': Directory)
    requires t < |tasks| && tasks[t].Alive?
    ensures Total(tasks) == Rest(tasks, t) + DirFrames(tasks[t].dir)
    ensures Total(tasks[t := Alive(d')]) == Rest(tasks, t) + DirFrames(d')
  {
    TotalIs(tasks, t);
    TotalIs(tasks[t := Alive(d')], t);
    RestSame(tasks, t, Alive(d'));
  }

  lemma Commit(tasks: seq<Task>, t: nat, d': Directory, mem: seq<seq<bv8>>, mem': seq<seq<bv8>>)
    requires Sound(tasks) && AllAlone(tasks, Total(tasks)) && t < |tasks| && tasks[t].Alive? && WellFormed(d')
    requires Kept(Rest(tasks, t), mem, mem', tasks[t].dir, d')
    requires Alone(d', Rest(tasks, t) + DirFrames(d'))
    ensures var tasks' := tasks[t := Alive(d')];
      && Sound(tasks') && Total(tasks') == Rest(tasks, t) + DirFrames(d')
      && AllAlone(tasks', Total(tasks'))
      && Meaning(tasks', mem') == Meaning(tasks, mem)[t := Running(View(d', mem'))]
  {
    CommitTotal(tasks, t, d');
    var total' := Rest(tasks, t) + DirFrames(d');
    forall u | 0 <= u < |tasks| && u != t
      ensures MeaningOf(tasks[u], mem') == MeaningOf(tasks[u], mem)
      ensures tasks[u].Alive? ==> Alone(tasks[u].dir, total')
    {
      if tasks[u].Alive? {
        OthersUnaffected(tasks, t, u, d', mem, mem');
      }
    }
    CommitMeaning(tasks, t, d', mem, mem');
  }

  // ---------------------------------------------------------------- fork and exit

  lemma CowView(d: Directory, mem: seq<seq<bv8>>)
    requires WellFormed(d)
    ensures WellFormed(CowDirectory(d)) && View(CowDirectory(d), mem) == View(d, mem)
  {
    CowFrames(d);
  }

  lemma CowAlone(d: Directory, total: multiset<nat>)
    requires WellFormed(d)
    ensures WellFormed(CowDirectory(d)) && Alone(CowDirectory(d), total)
  {
    CowFrames(d);
  }

  /** A frame that another task writes is not among the frames that fork shares. */
  lemma NotShared(tasks: seq<Task>, t: nat, u: nat)
    requires Sound(tasks) && t < |tasks| && u < |tasks| && u != t && tasks[t].Alive? && tasks[u].Alive?
    requires Alone(tasks[u].dir, Total(tasks))
    ensures Alone(tasks[u].dir, Total(tasks) + DirFrames(tasks[t].dir))
  {
    TotalIs(tasks, t);
    OtherInRest(tasks, t, u);
    var d := tasks[u].dir;
    forall p | 0 <= p < PAGES && Lookup(d, p).Present? && Lookup(d, p).writable
      ensures (Total(tasks) + DirFrames(tasks[t].dir))[Lookup(d, p).frame] <= 1
    {
      LookupReferred(d, p);
    }
  }

  function AfterFork(tasks: seq<Task>, t: nat): seq<Task>
    requires t < |tasks| && tasks[t].Alive?
  {
    var d := CowDirectory(tasks[t].dir);
    tasks[t := Alive(d)] + [Alive(d)]
  }

  lemma ForkTotal(tasks: seq<Task>, t: nat)
    requires Sound(tasks) && t < |tasks| && tasks[t].Alive?
    ensures Total(AfterFork(tasks, t)) == Total(tasks) + DirFrames(tasks[t].dir)
  {
    var d := CowDirectory(tasks[t].dir);
    CowFrames(tasks[t].dir);
    var after := AfterFork(tasks, t);
    assert after[..|after| - 1] == tasks[t := Alive(d)];
    TotalIs(tasks, t);
    TotalIs(tasks[t := Alive(d)], t);
    RestSame(tasks, t, Alive(d));
  }

  lemma ForkSound(tasks: seq<Task>, t: nat)
    requires Sound(tasks) && AllAlone(tasks, Total(tasks)) && t < |tasks| && tasks[t].Alive?
    ensures Sound(AfterFork(tasks, t)) && AllAlone(AfterFork(tasks, t), Total(AfterFork(tasks, t)))
  {
    ForkTotal(tasks, t);
    var after := AfterFork(tasks, t);
    CowAlone(tasks[t].dir, Total(after));
    forall u | 0 <= u < |tasks| && u != t && tasks[u].Alive?
      ensures Alone(after[u].dir, Total(after))
    {
      NotShared(tasks, t, u);
    }
  }

  /** Sharing every frame looks exactly like copying every byte. */
  lemma ForkMeaning(tasks: seq<Task>, t: nat, mem: seq<seq<bv8>>)
    requires Sound(tasks) && t < |tasks| && tasks[t].Alive? && Sound(AfterFork(tasks, t))
    ensures Meaning(AfterFork(tasks, t), mem) == Meaning(tasks, mem) + [Meaning(tasks, mem)[t]]
  {
    CowView(tasks[t].dir, mem);
  }

  /** `make_pt_cow` */
  method MakeTableCow(entries: seq<Pte>) returns (r: seq<Pte>)
    ensures r == CowTable(entries)
  {
    r := entries;
    for i := 0 to |entries|
      invariant |r| == |entries|
      invariant forall k :: 0 <= k < |r| ==> r[k] == if k < i then CowEntry(entries[k]) else entries[k]
    {
      if r[i].Present? && r[i].writable {
        r := r[i := r[i].(writable := false, cow := true)];
      }
    }
  }

  /** `make_pages_cow` */
  method MakePagesCow(d: Directory) returns (r: Directory)
    requires WellFormed(d)
    ensures r == CowDirectory(d)
  {
    r := d;
    for i := KERNEL_SLOTS to ENTRIES
      invariant |r| == |d|
      invariant forall k :: 0 <= k < |r| ==> r[k] == if k < i then CowSlot(d[k]) else d[k]
    {
      if r[i].Table? {
        var table := MakeTableCow(r[i].entries);
        r := r[i := Table(table)];
      }
    }
  }

  lemma ExitTotal(tasks: seq<Task>, t: nat)
    requires Sound(tasks) && t < |tasks| && tasks[t].Alive?
    ensures DirFrames(tasks[t].dir) <= Total(tasks)
    ensures Total(tasks[t := Dead]) == Total(tasks) - DirFrames(tasks[t].dir) == Rest(tasks, t)
  {
    TotalIs(tasks, t);
    TotalIs(tasks[t := Dead], t);
    RestSame(tasks, t, Dead);
    assert Rest(tasks, t) + multiset{} == Rest(tasks, t);
  }

  lemma ExitAlone(tasks: seq<Task>, t: nat)
    requires Sound(tasks) && AllAlone(tasks, Total(tasks)) && t < |tasks| && tasks[t].Alive?
    ensures AllAlone(tasks[t := Dead], Total(tasks[t := Dead]))
  {
    ExitTotal(tasks, t);
    forall u | 0 <= u < |tasks| && u != t && tasks[u].Alive?
      ensures Alone(tasks[u].dir, Total(tasks[t := Dead]))
    {
      SameAlone(tasks[u].dir, Total(tasks), Total(tasks[t := Dead]));
    }
  }

  lemma ExitMeaning(tasks: seq<Task>, t: nat, mem: seq<seq<bv8>>)
    requires Sound(tasks) && t < |tasks|
    ensures Sound(tasks[t := Dead]) && Meaning(tasks[t := Dead], mem) == Meaning(tasks, mem)[t := Gone]
  {
  }

  lemma CreateTotal(tasks: seq<Task>)
    ensures Total(tasks + [Alive(EmptyDirectory())]) == Total(tasks)
    ensures forall mem :: View(EmptyDirectory(), mem) == map[]
  {
    BagNone(EmptyDirectory(), SlotFrames);
    var after := tasks + [Alive(EmptyDirectory())];
    assert after[..|after| - 1] == tasks;
    assert Total(tasks) + multiset{} == Total(tasks);
  }

  // ---------------------------------------------------------------- the virtual memory system

  class Vm {
    const frames: Frames
    var tasks: seq<Task>

    ghost predicate Valid()
      reads this, frames.allocator, frames.allocator.next, frames.refCount, frames.memory
    {
      && frames.Counted(Total(tasks))
      && frames.PageSized()
      && Sound(tasks)
      && AllAlone(tasks, Total(tasks))
    }

    ghost function Memories(): Machine
      requires Sound(tasks)
      reads this, frames.memory
    {
      Meaning(tasks, frames.memory[..])
    }

    constructor (count: nat)
      requires 0 < count && FA.FrameAddress(count) <= FA.FREE_FRAME_LIST_END
      ensures Valid() && tasks == [] && Memories() == [] && frames.memory.Length == count
      ensures fresh(frames) && fresh(frames.allocator) && fresh(frames.allocator.next)
      ensures fresh(frames.refCount) && fresh(frames.memory)
    {
      frames := new Frames(count);
      tasks := [];
    }

    predicate IsAlive(t: nat)
      reads this
    {
      t < |tasks| && tasks[t].Alive?
    }

    lemma Open(t: nat)
      requires Valid() && IsAlive(t)
      ensures Ready(frames, tasks[t].dir, Rest(tasks, t))
      ensures Total(tasks) == Rest(tasks, t) + DirFrames(tasks[t].dir)
    {
      TotalIs(tasks, t);
    }

    /** Give task `t` the directory d'. */
    method Install(t: nat, d': Directory, ghost mem: seq<seq<bv8>>)
      requires IsAlive(t) && Sound(tasks) && AllAlone(tasks, Total(tasks))
      requires Ready(frames, d', Rest(tasks, t)) && Kept(Rest(tasks, t), mem, frames.memory[..], tasks[t].dir, d')
      modifies this
      ensures Valid()
      ensures tasks == old(tasks)[t := Alive(d')]
      ensures Memories() == Meaning(old(tasks), mem)[t := Running(View(d', frames.memory[..]))]
      ensures View(d', frames.memory[..]) == View(old(tasks)[t].dir, mem) ==> Memories() == Meaning(old(tasks), mem)
    {
      Commit(tasks, t, d', mem, frames.memory[..]);
      tasks := tasks[t := Alive(d')];
    }

    /** `create_page_directory` for a new task; `budget` says how many pages of kernel memory are left. */
    method Create(budget: nat) returns (event: Event)
      requires Valid()
      modifies this
      ensures Valid() && Enabled(old(Memories()), event) && Memories() == Step(old(Memories()), event)
      ensures event == if budget == 0 then Nothing else Created
    {
      if budget == 0 {
        return Nothing;
      }
      CreateTotal(tasks);
      tasks := tasks + [Alive(EmptyDirectory())];
      event := Created;
    }

    /** `map_segment` for a segment of a program. */
    method MapSegment(t: nat, start: nat, length: nat, writable: bool, budget: nat) returns (event: Event)
      requires Valid() && IsAlive(t)
      requires KERNEL_SLOTS * ENTRIES * PAGE_SIZE <= start && start + length <= (PAGES - 1) * PAGE_SIZE
      modifies this, frames.allocator, frames.refCount, frames.memory
      ensures Valid() && Enabled(old(Memories()), event) && Memories() == Step(old(Memories()), event)
      ensures event.SegmentMapped? && event.task == t && event.first == start / PAGE_SIZE
      ensures Afforded(old(tasks)[t].dir, event.first, PagesSpanned(start, length), event.done, budget,
                       frames.allocator.stack == [])
      ensures Entered(DirOf(old(tasks), t), DirOf(tasks, t), event.first, event.done, writable)
    {
      Open(t);
      ghost var mem := frames.memory[..];
      var d, done :=
        AddressSpace.MapSegment(frames, tasks[t].dir, start, length, writable, Unmarked, budget, Rest(tasks, t));
      Install(t, d, mem);
      event := SegmentMapped(t, start / PAGE_SIZE, done);
    }

    /**
      `new_pages_handler_c`: refused exactly on illegal arguments or when a page from base to base + length
      is there.
     */
    method NewPages(t: nat, base: nat, length: int, budget: nat) returns (event: Event)
      requires Valid() && IsAlive(t)
      requires base < WORD && base + length < (PAGES - 1) * PAGE_SIZE
      modifies this, frames.allocator, frames.refCount, frames.memory
      ensures Valid() && Enabled(old(Memories()), event) && Memories() == Step(old(Memories()), event)
      ensures event == Nothing <==> !MayAdd(old(Memories())[t].space, base, length)
      ensures event != Nothing ==>
        && event.PagesAdded? && event.task == t && event.base == base / PAGE_SIZE && event.n == length / PAGE_SIZE
        && Afforded(old(tasks)[t].dir, event.base, event.n, event.done, budget, frames.allocator.stack == [])
    {
      AbsentPages(tasks[t].dir, frames.memory[..]);
      if length <= 0 || length % PAGE_SIZE != 0 || base % PAGE_SIZE != 0 {
        return Nothing;
      }
      var unmapped := RangeUnmapped(tasks[t].dir, base, length);
      if !unmapped {
        return Nothing;
      }
      event := AddPages(t, base / PAGE_SIZE, length / PAGE_SIZE, budget);
    }

    method AddPages(t: nat, base: nat, n: nat, budget: nat) returns (event: Event)
      requires Valid() && IsAlive(t)
      requires KERNEL_SLOTS * ENTRIES <= base && 0 < n && base + n < PAGES
      requires forall p :: base <= p <= base + n ==> Lookup(tasks[t].dir, p).Absent?
      modifies this, frames.allocator, frames.refCount, frames.memory
      ensures Valid() && Enabled(old(Memories()), event) && Memories() == Step(old(Memories()), event)
      ensures event.PagesAdded? && event.task == t && event.base == base && event.n == n
      ensures Afforded(old(tasks)[t].dir, base, n, event.done, budget, frames.allocator.stack == [])
    {
      Open(t);
      ghost var mem := frames.memory[..];
      var d, done := MapNewPages(frames, tasks[t].dir, base, n, budget, Rest(tasks, t));
      Install(t, d, mem);
      event := PagesAdded(t, base, n, done);
    }

    /** `remove_pages_handler_c` */
    method RemovePages(t: nat, base: nat) returns (event: Event)
      requires Valid() && IsAlive(t) && base < WORD
      modifies this, frames.allocator, frames.allocator.next, frames.refCount
      ensures Valid() && Enabled(old(Memories()), event) && Memories() == Step(old(Memories()), event)
      ensures event ==
        if base % PAGE_SIZE == 0 && CanRemove(old(Memories())[t].space, base / PAGE_SIZE)
        then PagesRemoved(t, base / PAGE_SIZE) else Nothing
    {
      if base % PAGE_SIZE != 0 {
        return Nothing;
      }
      Open(t);
      ghost var mem := frames.memory[..];
      var d, ok := UnmapNewPages(frames, tasks[t].dir, base / PAGE_SIZE, Rest(tasks, t));
      Install(t, d, mem);
      event := if ok then PagesRemoved(t, base / PAGE_SIZE) else Nothing;
    }

    /** A read goes through the page tables; an absent page faults. */
    method Read(t: nat, page: nat, offset: nat) returns (b: Option<bv8>)
      requires Valid() && IsAlive(t) && page < PAGES && offset < PAGE_SIZE
      ensures b.None? <==> page !in Memories()[t].space
      ensures b.Some? ==>
        offset < |Memories()[t].space[page].bytes| && b.value == Memories()[t].space[page].bytes[offset]
    {
      Open(t);
      var e := Lookup(tasks[t].dir, page);
      if e.Absent? {
        return None;
      }
      LookupReferred(tasks[t].dir, page);
      assert e.frame in Total(tasks);
      return Some(frames.memory[e.frame][offset]);
    }

    /**
      A store through the page tables.  A present page that is not writable faults;
      `is_addr_cow` sends every such page to `handle_cow`, and the store is retried.
     */
    method Write(t: nat, page: nat, offset: nat, b: bv8) returns (event: Event)
      requires Valid() && IsAlive(t) && page < PAGES && offset < PAGE_SIZE
      modifies this, frames.allocator, frames.allocator.next, frames.refCount, frames.memory
      ensures Valid() && Enabled(old(Memories()), event) && Memories() == Step(old(Memories()), event)
      ensures event ==
        if page !in old(Memories())[t].space || (NeedsCopy(old(tasks), t, page) && old(frames.allocator.stack) == [])
        then Nothing else Stored(t, page, offset, b)
    {
      if Lookup(tasks[t].dir, page).Absent? {
        return Nothing;
      }
      if !Lookup(tasks[t].dir, page).writable {
        var ok := Fault(t, page);
        if !ok {
          return Nothing;
        }
      }
      Open(t);
      ghost var mem := frames.memory[..];
      StoreByte(frames, tasks[t].dir, page, offset, b, Rest(tasks, t));
      Install(t, tasks[t].dir, mem);
      event := Stored(t, page, offset, b);
    }

    /** `page_fault_handler_c` on a present page that is not writable. */
    method Fault(t: nat, page: nat) returns (ok: bool)
      requires Valid() && IsAlive(t) && page < PAGES
      requires Lookup(tasks[t].dir, page).Present? && !Lookup(tasks[t].dir, page).writable
      modifies this, frames.allocator, frames.allocator.next, frames.refCount, frames.memory
      ensures Valid() && Memories() == old(Memories()) && |tasks| == old(|tasks|) && IsAlive(t)
      ensures ok ==> Lookup(tasks[t].dir, page).Present? && Lookup(tasks[t].dir, page).writable
      ensures !ok <==> NeedsCopy(old(tasks), t, page) && old(frames.allocator.stack) == []
    {
      Open(t);
      ghost var mem := frames.memory[..];
      var d;
      d, ok := HandleCow(frames, tasks[t].dir, page, Rest(tasks, t));
      Install(t, d, mem);
    }

    /**
      `clone_paging_info` for fork, with kernel memory for `budget` pages.  A failed clone
      leaves every count and the parent's tables as they were.
     */
    method Fork(t: nat, budget: nat) returns (event: Event)
      requires Valid() && IsAlive(t)
      modifies this, frames.allocator, frames.allocator.next, frames.refCount
      ensures Valid() && Enabled(old(Memories()), event) && Memories() == Step(old(Memories()), event)
      ensures event == if budget <= TablesOf(old(tasks)[t].dir) then Nothing else Forked(t)
      ensures event == Nothing ==> tasks == old(tasks) && frames.refCount[..] == old(frames.refCount[..])
      ensures frames.allocator.stack == old(frames.allocator.stack)
    {
      if budget == 0 {
        return Nothing;
      }
      ExitTotal(tasks, t);
      ghost var counts := frames.refCount[..];
      var copy := frames.CloneDirectory(tasks[t].dir, budget - 1, Total(tasks));
      if copy.None? {
        assert frames.refCount[..] == counts;
        return Nothing;
      }
      ForkTotal(tasks, t);
      ForkSound(tasks, t);
      ForkMeaning(tasks, t, frames.memory[..]);
      var parent := MakePagesCow(tasks[t].dir);
      var child := MakePagesCow(copy.value);
      tasks := tasks[t := Alive(parent)] + [Alive(child)];
      event := Forked(t);
    }

    /** `free_paging_info` when the last thread of a task vanishes. */
    method Exit(t: nat) returns (event: Event)
      requires Valid() && IsAlive(t)
      modifies this, frames.allocator, frames.allocator.next, frames.refCount
      ensures Valid() && Enabled(old(Memories()), event) && Memories() == Step(old(Memories()), event)
      ensures event == Exited(t)
    {
      ExitTotal(tasks, t);
      ExitAlone(tasks, t);
      ExitMeaning(tasks, t, frames.memory[..]);
      frames.FreeDirectory(tasks[t].dir, Total(tasks));
      tasks := tasks[t := Dead];
      event := Exited(t);
    }

    ghost function Now(): Snapshot
      reads this, frames.memory
    {
      Snapshot(tasks, frames.memory[..])
    }

    /** The free stack is empty exactly when every frame is referred to. */
    lemma Starved()
      requires Valid()
      ensures frames.allocator.stack == [] <==> Full(Now())
    {
      assert frames.allocator.stack != [] ==> frames.allocator.stack[0] in frames.allocator.stack;
    }

    /** One request, answered as `Answers` says. */
    method Serve(r: Request) returns (reply: Reply)
      requires Valid() && InRange(r)
      modifies this, frames.allocator, frames.allocator.next, frames.refCount, frames.memory
      ensures Valid() && Answered(old(Now()), r, reply, Now())
    {
      Starved();
      var event, byte := Perform(r);
      Starved();
      reply := Reply(event, byte);
    }

    /** Requests of tasks that do not live do nothing. */
    method Perform(r: Request) returns (event: Event, byte: Option<bv8>)
      requires Valid() && InRange(r)
      modifies this, frames.allocator, frames.allocator.next, frames.refCount, frames.memory
      ensures Valid() && Enabled(old(Memories()), event) && Memories() == Step(old(Memories()), event)
      ensures Answers(old(tasks), old(Memories()), r, event, byte, old(frames.allocator.stack) == [],
                      frames.allocator.stack == [])
      ensures EntersAs(old(tasks), r, event, tasks)
    {
      event, byte := Nothing, None;
      if !r.CreateTask? && !IsAlive(r.task) {
        return;
      }
      match r {
        case CreateTask(budget) => event := Create(budget);
        case Segment(t, start, length, writable, budget) => event := MapSegment(t, start, length, writable, budget);
        case AllocatePages(t, base, length, budget) => event := NewPages(t, base, length, budget);
        case ReleasePages(t, base) => event := RemovePages(t, base);
        case ForkTask(t, budget) => event := Fork(t, budget);
        case ReadByte(t, page, offset) => byte := Read(t, page, offset);
        case WriteByte(t, page, offset, b) => event := Write(t, page, offset, b);
        case ExitTask(t) => event := Exit(t);
      }
    }

    /**
      Every run: from any valid state, each request of any sequence is answered as the eager machine
      answers it, the memories after it are that machine's, and every count is still exact.
     */
    method ServeAll(requests: seq<Request>) returns (replies: seq<Reply>, ghost trace: seq<Snapshot>)
      requires Valid() && forall i :: 0 <= i < |requests| ==> InRange(requests[i])
      modifies this, frames.allocator, frames.allocator.next, frames.refCount, frames.memory
      ensures Valid() && Traced(Answered, requests, replies, trace)
      ensures trace[0] == old(Now()) && trace[|requests|] == Now()
      ensures Run(old(Memories()), Events(replies), Memories())
    {
      replies, trace := [], [Now()];
      for i := 0 to |requests|
        invariant Valid() && Traced(Answered, requests[..i], replies, trace)
        invariant trace[0] == old(Now()) && trace[i] == Now()
      {
        replies, trace := ServeNext(requests, i, replies, trace);
      }
      assert requests[..|requests|] == requests;
      TraceRun(requests, replies, trace, |requests|);
      assert Events(replies)[..|replies|] == Events(replies);
    }

    method ServeNext(requests: seq<Request>, i: nat, replies: seq<Reply>, ghost trace: seq<Snapshot>)
      returns (replies': seq<Reply>, ghost trace': seq<Snapshot>)
      requires Valid() && i < |requests| && InRange(requests[i])
      requires Traced(Answered, requests[..i], replies, trace) && trace[i] == Now()
      modifies this, frames.allocator, frames.allocator.next, frames.refCount, frames.memory
      ensures Valid() && Traced(Answered, requests[..i + 1], replies', trace')
      ensures trace'[0] == trace[0] && trace'[i + 1] == Now()
    {
      var reply := Serve(requests[i]);
      TraceExtend(Answered, requests[..i], replies, trace, requests[i], reply, Now());
      assert requests[..i + 1] == requests[..i] + [requests[i]];
      replies', trace' := replies + [reply], trace + [Now()];
    }
  }

  datatype Request =
    | CreateTask(budget: nat)
    | Segment(task: nat, start: nat, length: nat, writable: bool, budget: nat)
    | AllocatePages(task: nat, base: nat, size: int, budget: nat)
    | ReleasePages(task: nat, base: nat)
    | ForkTask(task: nat, budget: nat)
    | ReadByte(task: nat, page: nat, offset: nat)
    | WriteByte(task: nat, page: nat, offset: nat, byte: bv8)
    | ExitTask(task: nat)

  /** What happened, and the byte that was read. */
  datatype Reply = Reply(event: Event, byte: Option<bv8>)

  function Events(replies: seq<Reply>): (events: seq<Event>)
    ensures |events| == |replies| && forall i :: 0 <= i < |events| ==> events[i] == replies[i].event
  {
    seq(|replies|, i requires 0 <= i < |replies| => replies[i].event)
  }

  /** Addresses are 32-bit words, and the ranges do not reach the last page of the address space. */
  predicate InRange(r: Request) {
    match r
    case Segment(_, start, length, _, _) =>
      KERNEL_SLOTS * ENTRIES * PAGE_SIZE <= start && start + length <= (PAGES - 1) * PAGE_SIZE
    case AllocatePages(_, base, size, _) => base < WORD && base + size < (PAGES - 1) * PAGE_SIZE
    case ReleasePages(_, base) => base < WORD
    case ReadByte(_, page, offset) => page < PAGES && offset < PAGE_SIZE
    case WriteByte(_, page, offset, _) => page < PAGES && offset < PAGE_SIZE
    case _ => true
  }

  /** When new_pages accepts its arguments; the page at base + length has to be absent, too. */
  predicate MayAdd(s: Space, base: nat, length: int) {
    && 0 < length <= 0xFEFF_FFFF && length % PAGE_SIZE == 0 && base % PAGE_SIZE == 0
    && KERNEL_SLOTS * ENTRIES * PAGE_SIZE <= base
    && forall p :: base / PAGE_SIZE <= p <= (base + length) / PAGE_SIZE ==> p !in s
  }

  lemma AbsentPages(d: Directory, mem: seq<seq<bv8>>)
    requires WellFormed(d)
    ensures forall p: nat :: p < PAGES ==> (Lookup(d, p).Absent? <==> p !in View(d, mem))
  {
  }

  /** What the memory of the task holds there. */
  function ByteAt(s: Space, page: nat, offset: nat): Option<bv8> {
    if page in s && offset < |s[page].bytes| then Some(s[page].bytes[offset]) else None
  }

  /**
    How the eager machine m answers a request: the event, and the byte for a read. Only two shortages
    excuse it from doing what it was asked: the budget of kernel memory is less than the page tables it
    needs, and no frame that is not referred to, before it (`empty`) or after what it could do (`full`).
   */
  predicate Answers(ts: seq<Task>, m: Machine, r: Request, e: Event, byte: Option<bv8>, empty: bool, full: bool) {
    && (!r.ReadByte? ==> byte == None)
    && if !r.CreateTask? && !IsRunning(m, r.task) then e == Nothing && byte == None
       else match r {
         case CreateTask(budget) => e == if budget == 0 then Nothing else Created
         case Segment(t, start, length, _, budget) =>
           && e.SegmentMapped? && e.task == t && e.first == start / PAGE_SIZE
           && Afforded(DirOf(ts, t), e.first, PagesSpanned(start, length), e.done, budget, full)
         case AllocatePages(t, base, size, budget) =>
           if !MayAdd(m[t].space, base, size) then e == Nothing
           else
             && e.PagesAdded? && e.task == t && e.base == base / PAGE_SIZE && e.n == size / PAGE_SIZE
             && Afforded(DirOf(ts, t), e.base, e.n, e.done, budget, full)
         case ReleasePages(t, base) =>
           e == if base % PAGE_SIZE == 0 && CanRemove(m[t].space, base / PAGE_SIZE)
                then PagesRemoved(t, base / PAGE_SIZE) else Nothing
         case ForkTask(t, budget) => e == if budget <= TablesOf(DirOf(ts, t)) then Nothing else Forked(t)
         case ReadByte(t, page, offset) => e == Nothing && byte == ByteAt(m[t].space, page, offset)
         case WriteByte(t, page, offset, b) =>
           e == if page !in m[t].space || (NeedsCopy(ts, t, page) && empty) then Nothing
                else Stored(t, page, offset, b)
         case ExitTask(t) => e == Exited(t)
       }
  }

  function DirOf(ts: seq<Task>, t: nat): Directory {
    if t < |ts| && ts[t].Alive? then ts[t].dir else []
  }

  /** A store to the page has to copy it first: its entry is not writable, and its frame has other references. */
  predicate NeedsCopy(ts: seq<Task>, t: nat, page: nat) {
    && WellFormed(DirOf(ts, t)) && page < PAGES
    && var e := Lookup(DirOf(ts, t), page);
      e.Present? && !e.writable && Total(ts)[e.frame] > 1
  }

  /** The page tables that fork has to clone. */
  function TablesOf(d: Directory): nat {
    Tables(d, |d|)
  }

  /** The page tables and the contents of the frames. */
  datatype Snapshot = Snapshot(tasks: seq<Task>, mem: seq<seq<bv8>>)

  /** Every frame is referred to. */
  predicate Full(s: Snapshot) {
    forall f :: 0 <= f < |s.mem| ==> f in Total(s.tasks)
  }

  function MeaningAt(s: Snapshot): Machine
    requires Sound(s.tasks)
  {
    Meaning(s.tasks, s.mem)
  }

  /** From s to s' the request was answered, and the memories changed as that answer says. */
  ghost predicate Answered(s: Snapshot, r: Request, a: Reply, s': Snapshot) {
    && Sound(s.tasks) && Sound(s'.tasks)
    && var m := MeaningAt(s);
      && Answers(s.tasks, m, r, a.event, a.byte, Full(s), Full(s'))
      && Enabled(m, a.event) && MeaningAt(s') == Step(m, a.event)
      && EntersAs(s.tasks, r, a.event, s'.tasks)
  }

  /** The pages of a segment are entered with the permissions it asks for. */
  predicate EntersAs(ts: seq<Task>, r: Request, e: Event, ts': seq<Task>) {
    r.Segment? && e.SegmentMapped? ==> Entered(DirOf(ts, r.task), DirOf(ts', r.task), e.first, e.done, r.writable)
  }

  lemma TraceStep(rs: seq<Request>, replies: seq<Reply>, trace: seq<Snapshot>, k: nat)
    requires Traced(Answered, rs, replies, trace) && k < |rs|
    ensures Sound(trace[k].tasks) && Sound(trace[k + 1].tasks) && Enabled(MeaningAt(trace[k]), replies[k].event)
    ensures MeaningAt(trace[k + 1]) == Step(MeaningAt(trace[k]), replies[k].event)
  {
    assert Answered(trace[k], rs[k], replies[k], trace[k + 1]);
  }

  lemma TraceOn(m: Machine, events: seq<Event>, now: Machine, k: nat)
    requires k < |events| && Run(m, events[..k], now) && Enabled(now, events[k])
    ensures Run(m, events[..k + 1], Step(now, events[k]))
  {
    RunExtend(m, events[..k], now, events[k]);
    assert events[..k + 1] == events[..k] + [events[k]];
  }

  /** The events of a trace are a run of the eager machine between the memories it denotes. */
  lemma {:induction false} TraceRun(rs: seq<Request>, replies: seq<Reply>, trace: seq<Snapshot>, i: nat)
    requires Traced(Answered, rs, replies, trace) && i <= |rs| && Sound(trace[0].tasks)
    ensures Sound(trace[i].tasks) && Run(MeaningAt(trace[0]), Events(replies)[..i], MeaningAt(trace[i]))
    decreases i
  {
    if i > 0 {
      var k := i - 1;
      TraceRun(rs, replies, trace, k);
      TraceStep(rs, replies, trace, k);
      TraceOn(MeaningAt(trace[0]), Events(replies), MeaningAt(trace[k]), k);
    }
  }

  /** The blocks that new_pages has handed out before request i, in all tasks, from an empty machine on. */
  function LedgersAt(replies: seq<Reply>, i: nat): seq<Ledger>
    requires i <= |replies|
  {
    LedgerRun([], Events(replies)[..i])
  }

  /** As long as new_pages succeeds, the marks in the page tables say exactly what was handed out. */
  lemma TraceRecorded(rs: seq<Request>, replies: seq<Reply>, trace: seq<Snapshot>, i: nat)
    requires Traced(Answered, rs, replies, trace) && i <= |rs| && trace[0].tasks == []
    requires NewPagesSucceed(Events(replies))
    ensures Sound(trace[i].tasks) && AllRecorded(MeaningAt(trace[i]), LedgersAt(replies, i))
  {
    TraceRun(rs, replies, trace, i);
    assert MeaningAt(trace[0]) == [];
    RunRecorded([], [], Events(replies)[..i], MeaningAt(trace[i]));
  }

  /**
    The request is a remove_pages: if the task lives and the base is aligned, it succeeds exactly on the
    base of a block handed out and not yet taken back, and the page tables lose exactly the pages that
    new_pages had added there.
   */
  ghost predicate ReleasedExactly(s: Snapshot, ledgers: seq<Ledger>, r: Request, e: Event, s': Snapshot)
    requires r.ReleasePages? && Sound(s.tasks) && Sound(s'.tasks)
  {
    r.task < |s.tasks| && s.tasks[r.task].Alive? && r.base % PAGE_SIZE == 0 ==>
      && |s'.tasks| == |ledgers| == |s.tasks| && s'.tasks[r.task].Alive?
      && (e.PagesRemoved? <==> r.base / PAGE_SIZE in ledgers[r.task])
      && View(s'.tasks[r.task].dir, s'.mem) ==
        if r.base / PAGE_SIZE in ledgers[r.task]
        then Without(View(s.tasks[r.task].dir, s.mem), r.base / PAGE_SIZE, ledgers[r.task][r.base / PAGE_SIZE])
        else View(s.tasks[r.task].dir, s.mem)
  }

  /** What a remove_pages does to the eager machine, by the ledger. */
  lemma ReleaseStep(m: Machine, ledgers: seq<Ledger>, t: nat, base: nat, e: Event)
    requires AllRecorded(m, ledgers) && IsRunning(m, t)
    requires e == if CanRemove(m[t].space, base) then PagesRemoved(t, base) else Nothing
    ensures Enabled(m, e) && |Step(m, e)| == |m| == |ledgers| && (e.PagesRemoved? <==> base in ledgers[t])
    ensures Step(m, e)[t] ==
      Running(if base in ledgers[t] then Without(m[t].space, base, ledgers[t][base]) else m[t].space)
  {
    RemovePagesRecorded(m[t].space, ledgers[t], base);
  }

  lemma ReleaseExact(s: Snapshot, ledgers: seq<Ledger>, r: Request, a: Reply, s': Snapshot)
    requires r.ReleasePages? && Answered(s, r, a, s') && AllRecorded(MeaningAt(s), ledgers)
    ensures ReleasedExactly(s, ledgers, r, a.event, s')
  {
    var m, t := MeaningAt(s), r.task;
    if t < |s.tasks| && s.tasks[t].Alive? && r.base % PAGE_SIZE == 0 {
      assert m[t] == MeaningOf(s.tasks[t], s.mem);
      ReleaseStep(m, ledgers, t, r.base / PAGE_SIZE, a.event);
      assert MeaningAt(s')[t] == MeaningOf(s'.tasks[t], s'.mem);
    }
  }

  /** The life of a machine: it boots with `count` free frames and serves requests. */
  method Lifetime(count: nat, requests: seq<Request>) returns (vm: Vm, replies: seq<Reply>, ghost trace: seq<Snapshot>)
    requires 0 < count && FA.FrameAddress(count) <= FA.FREE_FRAME_LIST_END
    requires forall i :: 0 <= i < |requests| ==> InRange(requests[i])
    ensures vm.Valid() && Traced(Answered, requests, replies, trace)
    ensures trace[0].tasks == [] && |trace[0].mem| == count && trace[|requests|] == vm.Now()
    ensures NewPagesSucceed(Events(replies)) ==> forall i :: 0 <= i < |requests| && requests[i].ReleasePages? ==>
      && Sound(trace[i].tasks) && Sound(trace[i + 1].tasks)
      && ReleasedExactly(trace[i], LedgersAt(replies, i), requests[i], replies[i].event, trace[i + 1])
  {
    vm := new Vm(count);
    assert vm.Now().tasks == [] && |vm.Now().mem| == count;
    replies, trace := vm.ServeAll(requests);
    if NewPagesSucceed(Events(replies)) {
      forall i | 0 <= i < |requests| && requests[i].ReleasePages?
        ensures Sound(trace[i].tasks) && Sound(trace[i + 1].tasks)
        ensures ReleasedExactly(trace[i], LedgersAt(replies, i), requests[i], replies[i].event, trace[i + 1])
      {
        TraceRecorded(requests, replies, trace, i);
        assert Answered(trace[i], requests[i], replies[i], trace[i + 1]);
        ReleaseExact(trace[i], LedgersAt(replies, i), requests[i], replies[i], trace[i + 1]);
      }
    }
  }
}
