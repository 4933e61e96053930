/**
  What user memory means: a machine with no frames, no sharing and no copy-on-write.  Each
  task owns a map from virtual page numbers to pages; fork copies every page at once and a
  page that is mapped afresh is zero.  Bits 10 and 11 of the page table entries, which delimit
  the blocks handed out by new_pages (kern/vm/vm.c), are the marks of the pages.
 */
module EagerCopy {

  const PAGE_SIZE: nat := 0x1000
  const PAGES: nat := 0x10_0000  // virtual pages of a 32-bit address space

  datatype Mark = Unmarked | Page | Start | End

  datatype Cell = Cell(bytes: seq<bv8>, mark: Mark)

  type Space = map<nat, Cell>

  function ZeroPage(): seq<bv8> {
    seq(PAGE_SIZE, _ => 0)
  }

  // ---------------------------------------------------------------- operations on one space

  /** The pages first .. first + n - 1, zero where they were not mapped before. */
  function MapZero(s: Space, first: nat, n: nat, mark: Mark): Space {
    if n == 0 then s
    else
      var t := MapZero(s, first, n - 1, mark);
      if first + n - 1 in t then t else t[first + n - 1 := Cell(ZeroPage(), mark)]
  }

  function SetMark(s: Space, p: nat, mark: Mark): Space {
    if p in s then s[p := s[p].(mark := mark)] else s
  }

  /** new_pages when `done` of its n pages could be mapped: the marks are completed only on success. */
  function NewPages(s: Space, base: nat, n: nat, done: nat): Space
    requires 0 < n && done <= n
  {
    var t := MapZero(s, base, done, Page);
    if done < n then t else SetMark(SetMark(t, base + n - 1, End), base, Start)
  }

  predicate Continues(s: Space, p: nat) {
    p in s && (s[p].mark == Page || s[p].mark == End)
  }

  /** How many pages from `p` on continue a block. */
  function Stretch(s: Space, p: nat): nat
    decreases PAGES - p
  {
    if p < PAGES && Continues(s, p) then 1 + Stretch(s, p + 1) else 0
  }

  predicate CanRemove(s: Space, base: nat) {
    base in s && s[base].mark == Start
  }

  /** The space without its pages lo .. lo + n - 1. */
  function Without(s: Space, lo: nat, n: nat): Space {
    map p | p in s && !(lo <= p < lo + n) :: s[p]
  }

  /** remove_pages: the start of a block and all that continues it. */
  function RemovePages(s: Space, base: nat): Space
    requires CanRemove(s, base)
  {
    Without(s, base, 1 + Stretch(s, base + 1))
  }

  function Store(s: Space, p: nat, offset: nat, b: bv8): Space
    requires p in s && offset < |s[p].bytes|
  {
    s[p := s[p].(bytes := s[p].bytes[offset := b])]
  }

  // ---------------------------------------------------------------- blocks and their marks

  /** A page that another may continue. */
  predicate Open(s: Space, p: nat) {
    p in s && (s[p].mark == Start || s[p].mark == Page)
  }

  /** A page that continues a block follows an open one, and PAGE is never the last. */
  predicate PageMarked(s: Space, p: nat) {
    && (p in s ==> p < PAGES)
    && (Continues(s, p) ==> p > 0 && Open(s, p - 1))
    && (p in s && s[p].mark == Page ==> Continues(s, p + 1))
  }

  ghost predicate WellMarked(s: Space) {
    forall p: nat {:trigger PageMarked(s, p)} :: PageMarked(s, p)
  }

  /** The marks START PAGE* END, or START alone, over n pages. */
  predicate BlockMarks(s: Space, base: nat, n: nat) {
    && 0 < n && base + n <= PAGES
    && (forall p | base <= p < base + n :: p in s)
    && s[base].mark == Start
    && (forall p | base < p < base + n - 1 :: s[p].mark == Page)
    && (n > 1 ==> s[base + n - 1].mark == End)
  }

  /** A block that nothing extends. */
  predicate IsBlock(s: Space, base: nat, n: nat) {
    BlockMarks(s, base, n) && !Continues(s, base + n)
  }

  lemma {:induction false} MapZeroSpec(s: Space, first: nat, n: nat, mark: Mark)
    ensures var t := MapZero(s, first, n, mark);
      && (forall p :: p in t <==> p in s || first <= p < first + n)
      && (forall p | p in s :: t[p] == s[p])
      && (forall p | first <= p < first + n && p !in s :: t[p] == Cell(ZeroPage(), mark))
  {
    if n != 0 {
      MapZeroSpec(s, first, n - 1, mark);
    }
  }

  predicate Unmapped(s: Space, base: nat, n: nat) {
    forall p | base <= p < base + n :: p !in s
  }

  /** A successful new_pages adds one block and leaves every other page alone. */
  lemma NewPagesSpec(s: Space, base: nat, n: nat)
    requires 0 < n && base + n <= PAGES && Unmapped(s, base, n)
    ensures var t := NewPages(s, base, n, n);
      && (forall p :: p in t <==> p in s || base <= p < base + n)
      && (forall p | p in s :: t[p] == s[p])
      && (forall p | base <= p < base + n :: t[p].bytes == ZeroPage())
      && BlockMarks(t, base, n)
  {
    MapZeroSpec(s, base, n, Page);
  }

  lemma NewPagesKeepsMarks(s: Space, base: nat, n: nat)
    requires 0 < n && base + n <= PAGES && Unmapped(s, base, n) && WellMarked(s)
    ensures WellMarked(NewPages(s, base, n, n)) && IsBlock(NewPages(s, base, n, n), base, n)
  {
    NewPagesSpec(s, base, n);
    var t := NewPages(s, base, n, n);
    forall p: nat ensures PageMarked(t, p) {
      assert PageMarked(s, p);
    }
    assert PageMarked(s, base + n);
  }

  lemma NewPagesKeepsBlock(s: Space, base: nat, n: nat, b: nat, k: nat)
    requires 0 < n && base + n <= PAGES && Unmapped(s, base, n) && IsBlock(s, b, k)
    ensures IsBlock(NewPages(s, base, n, n), b, k)
  {
    NewPagesSpec(s, base, n);
    var t := NewPages(s, base, n, n);
    assert b in s && b + k - 1 in s;
    if base <= b + k < base + n {
      assert b + k == base;
    }
  }

  lemma {:induction false} StretchOfBlock(s: Space, p: nat, end: nat)
    requires p <= end <= PAGES && forall i | p <= i < end :: Continues(s, i)
    ensures Stretch(s, p) == end - p + Stretch(s, end)
    decreases end - p
  {
    if p < end {
      StretchOfBlock(s, p + 1, end);
    }
  }

  /** remove_pages unmaps exactly the block's n pages if and only if no page continues it. */
  lemma RemoveExactIff(s: Space, base: nat, n: nat)
    requires BlockMarks(s, base, n) && forall p | p in s :: p < PAGES
    ensures CanRemove(s, base)
    ensures RemovePages(s, base) == Without(s, base, n) <==> !Continues(s, base + n)
  {
    StretchOfBlock(s, base + 1, base + n);
    var k := 1 + Stretch(s, base + 1);
    if Continues(s, base + n) {
      assert k > n && base + n in s;
      assert base + n in Without(s, base, n) && base + n !in RemovePages(s, base);
    } else {
      assert k == n;
    }
  }

  lemma RemoveSpec(s: Space, base: nat, n: nat)
    requires WellMarked(s) && IsBlock(s, base, n)
    ensures CanRemove(s, base) && RemovePages(s, base) == Without(s, base, n)
    ensures WellMarked(RemovePages(s, base))
  {
    assert forall p | p in s :: p < PAGES by {
      forall p | p in s ensures p < PAGES {
        assert PageMarked(s, p);
      }
    }
    RemoveExactIff(s, base, n);
    var t := Without(s, base, n);
    forall p: nat ensures PageMarked(t, p) {
      assert PageMarked(s, p);
    }
  }

  lemma RemoveKeepsBlock(s: Space, base: nat, n: nat, b: nat, k: nat)
    requires WellMarked(s) && IsBlock(s, base, n) && IsBlock(s, b, k) && b != base
    ensures CanRemove(s, base) && IsBlock(RemovePages(s, base), b, k)
  {
    RemoveSpec(s, base, n);
    BlocksDisjoint(s, base, n, b, k);
  }

  lemma BlocksDisjoint(s: Space, a: nat, n: nat, b: nat, k: nat)
    requires IsBlock(s, a, n) && IsBlock(s, b, k) && a != b
    ensures a + n <= b || b + k <= a
  {
    if a < b < a + n {
      assert false;
    } else if b < a < b + k {
      assert false;
    }
  }

  // ---------------------------------------------------------------- the ledger of new_pages

  /** Every block that new_pages has handed out and remove_pages has not taken back, by base. */
  type Ledger = map<nat, nat>

  /** The marks of the pages say exactly what the ledger says. */
  ghost predicate Recorded(s: Space, ledger: Ledger) {
    && WellMarked(s)
    && (forall b | b in ledger :: IsBlock(s, b, ledger[b]))
    && (forall p | p in s && s[p].mark == Start :: p in ledger)
  }

  lemma NewPagesRecorded(s: Space, ledger: Ledger, base: nat, n: nat)
    requires Recorded(s, ledger) && 0 < n && base + n <= PAGES && Unmapped(s, base, n)
    ensures Recorded(NewPages(s, base, n, n), ledger[base := n])
  {
    NewPagesSpec(s, base, n);
    NewPagesKeepsMarks(s, base, n);
    forall b | b in ledger && b != base ensures IsBlock(NewPages(s, base, n, n), b, ledger[b]) {
      NewPagesKeepsBlock(s, base, n, b, ledger[b]);
    }
  }

  /** remove_pages succeeds exactly on the bases in the ledger and unmaps exactly the recorded pages. */
  lemma RemovePagesRecorded(s: Space, ledger: Ledger, base: nat)
    requires Recorded(s, ledger)
    ensures CanRemove(s, base) <==> base in ledger
    ensures base in ledger ==>
      && RemovePages(s, base) == Without(s, base, ledger[base])
      && Recorded(RemovePages(s, base), ledger - {base})
  {
    if base in ledger {
      var n := ledger[base];
      RemoveSpec(s, base, n);
      forall b | b in ledger - {base} ensures IsBlock(RemovePages(s, base), b, ledger[b]) {
        RemoveKeepsBlock(s, base, n, b, ledger[b]);
      }
    }
  }

  function MarkOf(s: Space, p: nat): Mark {
    if p in s then s[p].mark else Unmarked
  }

  lemma SameMarksKeepBlock(s: Space, t: Space, b: nat, n: nat)
    requires IsBlock(s, b, n) && forall p: nat :: MarkOf(t, p) == MarkOf(s, p)
    ensures IsBlock(t, b, n)
  {
    forall p | b <= p < b + n ensures p in t && t[p].mark == s[p].mark {
      assert MarkOf(t, p) == MarkOf(s, p);
    }
    assert MarkOf(t, b + n) == MarkOf(s, b + n);
  }

  /** Only marks matter to the ledger. */
  lemma SameMarksRecorded(s: Space, t: Space, ledger: Ledger)
    requires Recorded(s, ledger) && forall p: nat :: MarkOf(t, p) == MarkOf(s, p)
    requires forall p | p in t :: p < PAGES
    ensures Recorded(t, ledger)
  {
    forall p: nat ensures PageMarked(t, p) {
      assert PageMarked(s, p) && MarkOf(t, p) == MarkOf(s, p) && MarkOf(t, p + 1) == MarkOf(s, p + 1);
      assert p > 0 ==> MarkOf(t, p - 1) == MarkOf(s, p - 1);
    }
    forall b | b in ledger ensures IsBlock(t, b, ledger[b]) {
      SameMarksKeepBlock(s, t, b, ledger[b]);
    }
    forall p | p in t && t[p].mark == Start ensures p in ledger {
      assert MarkOf(t, p) == MarkOf(s, p);
    }
  }

  lemma RecordedBound(s: Space, ledger: Ledger)
    requires Recorded(s, ledger)
    ensures forall p | p in s :: p < PAGES
  {
    forall p | p in s ensures p < PAGES {
      assert PageMarked(s, p);
    }
  }

  /** Segments of a program are mapped without marks. */
  lemma MapSegmentRecorded(s: Space, ledger: Ledger, first: nat, n: nat)
    requires Recorded(s, ledger) && first + n <= PAGES
    ensures Recorded(MapZero(s, first, n, Unmarked), ledger)
  {
    MapZeroSpec(s, first, n, Unmarked);
    RecordedBound(s, ledger);
    SameMarksRecorded(s, MapZero(s, first, n, Unmarked), ledger);
  }

  lemma StoreRecorded(s: Space, ledger: Ledger, p: nat, offset: nat, b: bv8)
    requires Recorded(s, ledger) && p in s && offset < |s[p].bytes|
    ensures Recorded(Store(s, p, offset, b), ledger)
  {
    RecordedBound(s, ledger);
    SameMarksRecorded(s, Store(s, p, offset, b), ledger);
  }

  // ---------------------------------------------------------------- all tasks, all runs

  datatype Process = Gone | Running(space: Space)

  type Machine = seq<Process>

  /** What an operation did, in the terms of this machine. */
  datatype Event =
    | Nothing                                                // refused, or failed without effect
    | Created                                                // a new task with an empty space
    | SegmentMapped(task: nat, first: nat, done: nat)        // the first `done` pages of a segment
    | PagesAdded(task: nat, base: nat, n: nat, done: nat)    // new_pages got through `done` of n pages
    | PagesRemoved(task: nat, base: nat)
    | Forked(task: nat)
    | Stored(task: nat, page: nat, offset: nat, byte: bv8)
    | Exited(task: nat)

  predicate IsRunning(m: Machine, task: nat) {
    task < |m| && m[task].Running?
  }

  predicate Enabled(m: Machine, e: Event) {
    match e
    case Nothing => true
    case Created => true
    case SegmentMapped(task, first, done) => IsRunning(m, task) && first + done <= PAGES
    case PagesAdded(task, base, n, done) =>
      IsRunning(m, task) && 0 < n && done <= n && base + n <= PAGES && Unmapped(m[task].space, base, n)
    case PagesRemoved(task, base) => IsRunning(m, task) && CanRemove(m[task].space, base)
    case Forked(task) => IsRunning(m, task)
    case Stored(task, page, offset, _) =>
      IsRunning(m, task) && page in m[task].space && offset < |m[task].space[page].bytes|
    case Exited(task) => IsRunning(m, task)
  }

  function Step(m: Machine, e: Event): Machine
    requires Enabled(m, e)
  {
    match e
    case Nothing => m
    case Created => m + [Running(map[])]
    case SegmentMapped(task, first, done) => m[task := Running(MapZero(m[task].space, first, done, Unmarked))]
    case PagesAdded(task, base, n, done) => m[task := Running(NewPages(m[task].space, base, n, done))]
    case PagesRemoved(task, base) => m[task := Running(RemovePages(m[task].space, base))]
    case Forked(task) => m + [m[task]]
    case Stored(task, page, offset, byte) => m[task := Running(Store(m[task].space, page, offset, byte))]
    case Exited(task) => m[task := Gone]
  }

  // ---------------------------------------------------------------- bytes

  /** Every page has PAGE_SIZE bytes. */
  predicate PageSized(s: Space) {
    forall p | p in s :: |s[p].bytes| == PAGE_SIZE
  }

  predicate AllSized(m: Machine) {
    forall t | 0 <= t < |m| && m[t].Running? :: PageSized(m[t].space)
  }

  /** A store sets one byte of one page; every other byte and all marks stay. */
  lemma StoreSpec(s: Space, p: nat, offset: nat, b: bv8)
    requires PageSized(s) && p in s && offset < PAGE_SIZE
    ensures var t := Store(s, p, offset, b);
      && PageSized(t) && t.Keys == s.Keys && (forall q | q in s :: t[q].mark == s[q].mark)
      && forall q, i | q in s && 0 <= i < PAGE_SIZE ::
        t[q].bytes[i] == if q == p && i == offset then b else s[q].bytes[i]
  {
  }

  lemma NewPagesBytes(s: Space, base: nat, n: nat, done: nat)
    requires 0 < n && done <= n && PageSized(s)
    ensures var t := NewPages(s, base, n, done);
      PageSized(t) && forall q | q in t :: t[q].bytes == if q in s then s[q].bytes else ZeroPage()
  {
    MapZeroSpec(s, base, done, Page);
  }

  lemma StepSized(m: Machine, e: Event)
    requires AllSized(m) && Enabled(m, e)
    ensures AllSized(Step(m, e))
  {
    match e
    case SegmentMapped(t, first, done) => MapZeroSpec(m[t].space, first, done, Unmarked);
    case PagesAdded(t, base, n, done) => NewPagesBytes(m[t].space, base, n, done);
    case Stored(t, p, offset, b) => StoreSpec(m[t].space, p, offset, b);
    case _ =>
  }

  predicate HasPage(m: Machine, t: nat, p: nat) {
    IsRunning(m, t) && p in m[t].space
  }

  /** Where a byte comes from: a store, the parent at a fork, the page as it was, or a page mapped afresh. */
  lemma StepByte(m: Machine, e: Event, t: nat, p: nat, offset: nat)
    requires AllSized(m) && Enabled(m, e) && HasPage(Step(m, e), t, p) && offset < PAGE_SIZE
    ensures AllSized(Step(m, e))
    ensures e.Forked? && t == |m| ==> HasPage(m, e.task, p)
    ensures Step(m, e)[t].space[p].bytes[offset] ==
      if e.Stored? && e.task == t && e.page == p && e.offset == offset then e.byte
      else if e.Forked? && t == |m| then m[e.task].space[p].bytes[offset]
      else if HasPage(m, t, p) then m[t].space[p].bytes[offset]
      else 0
  {
    StepSized(m, e);
    match e
    case SegmentMapped(u, first, done) => MapZeroSpec(m[u].space, first, done, Unmarked);
    case PagesAdded(u, base, n, done) => NewPagesBytes(m[u].space, base, n, done);
    case Stored(u, q, o, b) => StoreSpec(m[u].space, q, o, b);
    case _ =>
  }

  /** A run of the machine. */
  ghost predicate Run(m: Machine, events: seq<Event>, final: Machine)
    decreases |events|
  {
    if events == [] then final == m
    else
      && Enabled(m, events[0])
      && Run(Step(m, events[0]), events[1..], final)
  }

  lemma {:induction false} RunExtend(m: Machine, events: seq<Event>, mid: Machine, e: Event)
    requires Run(m, events, mid) && Enabled(mid, e)
    ensures Run(m, events + [e], Step(mid, e))
    decreases |events|
  {
    if events == [] {
      assert [e][1..] == [];
    } else {
      RunExtend(Step(m, events[0]), events[1..], mid, e);
      assert (events + [e])[1..] == events[1..] + [e];
    }
  }

  function Noted(ledger: Ledger, base: nat, n: nat): Ledger {
    ledger[base := n]
  }

  function Struck(ledger: Ledger, base: nat): Ledger {
    ledger - {base}
  }

  /** The ledgers of all tasks; fork copies the parent's. */
  function LedgerStep(ls: seq<Ledger>, e: Event): seq<Ledger> {
    match e
    case Created => ls + [map[]]
    case Forked(task) => if task < |ls| then ls + [ls[task]] else ls
    case PagesAdded(task, base, n, _) => if task < |ls| then ls[task := Noted(ls[task], base, n)] else ls
    case PagesRemoved(task, base) => if task < |ls| then ls[task := Struck(ls[task], base)] else ls
    case _ => ls
  }

  function LedgerRun(ls: seq<Ledger>, events: seq<Event>): seq<Ledger>
    decreases |events|
  {
    if events == [] then ls else LedgerRun(LedgerStep(ls, events[0]), events[1..])
  }

  ghost predicate AllRecorded(m: Machine, ls: seq<Ledger>) {
    && |m| == |ls|
    && forall t :: 0 <= t < |m| && m[t].Running? ==> Recorded(m[t].space, ls[t])
  }

  predicate NewPagesSucceed(events: seq<Event>) {
    forall i :: 0 <= i < |events| && events[i].PagesAdded? ==> events[i].done == events[i].n
  }

  lemma StepRecorded(m: Machine, ls: seq<Ledger>, e: Event)
    requires AllRecorded(m, ls) && Enabled(m, e) && (e.PagesAdded? ==> e.done == e.n)
    ensures AllRecorded(Step(m, e), LedgerStep(ls, e))
  {
    match e
    case Nothing =>
    case Created =>
    case Exited(_) =>
    case Forked(_) =>
    case SegmentMapped(t, first, done) => MapSegmentRecorded(m[t].space, ls[t], first, done);
    case PagesAdded(t, base, n, done) => NewPagesRecorded(m[t].space, ls[t], base, n);
    case PagesRemoved(t, base) => RemovePagesRecorded(m[t].space, ls[t], base);
    case Stored(t, p, offset, b) => StoreRecorded(m[t].space, ls[t], p, offset, b);
  }

  /**
    Over every run in which each new_pages succeeds, the marks describe exactly the blocks
    handed out, so remove_pages(base) unmaps exactly what new_pages(base, len) mapped.
   */
  lemma {:induction false} RunRecorded(m: Machine, ls: seq<Ledger>, events: seq<Event>, final: Machine)
    requires AllRecorded(m, ls) && Run(m, events, final) && NewPagesSucceed(events)
    ensures AllRecorded(final, LedgerRun(ls, events))
    decreases |events|
  {
    if events != [] {
      StepRecorded(m, ls, events[0]);
      RunRecorded(Step(m, events[0]), LedgerStep(ls, events[0]), events[1..], final);
    }
  }

  // ---------------------------------------------------------------- when new_pages fails

  /** One block of one page at the start of user memory, and a new_pages of two pages behind it that gets one frame. */
  function FailingEvents(): seq<Event> {
    [Created, PagesAdded(0, 4096, 1, 1), PagesAdded(0, 4097, 2, 1)]
  }

  /** The spaces of that task after each of the events. */
  function OneBlock(): Space {
    map[4096 := Cell(ZeroPage(), Start)]
  }

  function BlockAndPage(): Space {
    map[4096 := Cell(ZeroPage(), Start), 4097 := Cell(ZeroPage(), Page)]
  }

  lemma FailingSpaces()
    ensures NewPages(map[], 4096, 1, 1) == OneBlock() && NewPages(OneBlock(), 4097, 2, 1) == BlockAndPage()
  {
    var none: Space := map[];
    assert MapZero(none, 4096, 0, Page) == none;
    assert MapZero(none, 4096, 1, Page) == map[4096 := Cell(ZeroPage(), Page)];
    assert MapZero(OneBlock(), 4097, 0, Page) == OneBlock();
    assert MapZero(OneBlock(), 4097, 1, Page) == BlockAndPage();
  }

  /**
    Without that condition on the run the property fails: a new_pages that runs out of frames leaves
    PAGE marks with no START, and when the block right before them is removed, that page goes too.
   */
  lemma FailedNewPagesExtendsBlock()
    ensures Run([], FailingEvents(), [Running(BlockAndPage())]) && BlockMarks(BlockAndPage(), 4096, 1)
    ensures Run([], FailingEvents() + [PagesRemoved(0, 4096)], [Running(map[])])
    ensures 4097 in Without(BlockAndPage(), 4096, 1)
  {
    FailingSpaces();
    var none: Space := map[];
    var e1, e2 := [Created], [Created, PagesAdded(0, 4096, 1, 1)];
    assert [] + e1 == e1 && e1 + [PagesAdded(0, 4096, 1, 1)] == e2;
    assert e2 + [PagesAdded(0, 4097, 2, 1)] == FailingEvents();
    Onward([], [], [], Created, [Running(none)]);
    Onward([], e1, [Running(none)], PagesAdded(0, 4096, 1, 1), [Running(OneBlock())]);
    Onward([], e2, [Running(OneBlock())], PagesAdded(0, 4097, 2, 1), [Running(BlockAndPage())]);
    assert Stretch(BlockAndPage(), 4098) == 0;
    assert RemovePages(BlockAndPage(), 4096) == none;
    Onward([], FailingEvents(), [Running(BlockAndPage())], PagesRemoved(0, 4096), [Running(none)]);
  }

  lemma Onward(m: Machine, events: seq<Event>, mid: Machine, e: Event, final: Machine)
    requires Run(m, events, mid) && Enabled(mid, e) && Step(mid, e) == final
    ensures Run(m, events + [e], final)
  {
    RunExtend(m, events, mid, e);
  }
}
