/**
  Page directories and page tables of kern/vm/vm.c as values, the frames they refer to, and the
  user memory they denote.  A page table entry that is not PAGE_TABLE_ENTRY_DEFAULT names a
  frame by its index; its flags are the fields `writable` (bit 1), `cow` (bit 9) and `mark`
  (bits 10 and 11).
 */
module PageTables {
  import opened EagerCopy

  const ENTRIES: nat := 1024       // NUM_PAGE_TABLE_ENTRIES
  const KERNEL_SLOTS: nat := 4     // KERNEL_MAP_NUM_ENTRIES

  datatype Pte = Absent | Present(frame: nat, writable: bool, cow: bool, mark: Mark)

  /** A page directory entry: PAGE_DIR_ENTRY_DEFAULT or a page table. */
  datatype Slot = NoTable | Table(entries: seq<Pte>)

  type Directory = seq<Slot>

  predicate WellFormed(d: Directory) {
    && |d| == ENTRIES
    && (forall i :: 0 <= i < ENTRIES && d[i].Table? ==> |d[i].entries| == ENTRIES && KERNEL_SLOTS <= i)
  }

  function Lookup(d: Directory, p: nat): Pte
    requires WellFormed(d) && p < PAGES
  {
    var slot := d[p / ENTRIES];
    if slot.NoTable? then Absent else slot.entries[p % ENTRIES]
  }

  predicate HasTable(d: Directory, p: nat)
    requires WellFormed(d) && p < PAGES
  {
    d[p / ENTRIES].Table?
  }

  /** The slots with a page table. */
  function Slots(d: Directory): set<nat> {
    set i | 0 <= i < |d| && d[i].Table?
  }

  function Update(d: Directory, p: nat, e: Pte): (r: Directory)
    requires WellFormed(d) && p < PAGES && HasTable(d, p)
    ensures WellFormed(r)
    ensures forall q :: 0 <= q < PAGES ==> Lookup(r, q) == if q == p then e else Lookup(d, q)
    ensures Slots(r) == Slots(d)
  {
    var slot := d[p / ENTRIES];
    var r := d[p / ENTRIES := Table(slot.entries[p % ENTRIES := e])];
    SameSlot(p);
    r
  }

  lemma SameSlot(p: nat)
    ensures forall q: nat :: q / ENTRIES == p / ENTRIES && q % ENTRIES == p % ENTRIES ==> q == p
  {
  }

  function EmptyTable(): (r: seq<Pte>)
    ensures |r| == ENTRIES && forall i :: 0 <= i < ENTRIES ==> r[i] == Absent
  {
    seq(ENTRIES, _ => Absent)
  }

  function EmptyDirectory(): (r: Directory)
    ensures WellFormed(r) && forall i :: 0 <= i < ENTRIES ==> r[i] == NoTable
  {
    seq(ENTRIES, _ => NoTable)
  }

  // ---------------------------------------------------------------- references to frames

  function Bag<T>(s: seq<T>, w: T -> multiset<nat>): multiset<nat> {
    if s == [] then multiset{} else Bag(s[..|s| - 1], w) + w(s[|s| - 1])
  }

  lemma {:induction false} BagUpdate<T>(s: seq<T>, w: T -> multiset<nat>, i: nat, x: T)
    requires i < |s|
    ensures Bag(s[i := x], w) + w(s[i]) == Bag(s, w) + w(x)
  {
    var n := |s| - 1;
    if i < n {
      BagUpdate(s[..n], w, i, x);
      assert s[i := x][..n] == s[..n][i := x] && s[..n][i] == s[i] && s[i := x][n] == s[n];
      Cancel(Bag(s[i := x], w), Bag(s[..n][i := x], w), Bag(s, w), Bag(s[..n], w), w(s[n]), w(s[i]), w(x));
    } else {
      assert s[i := x][..n] == s[..n];
    }
  }

  lemma Cancel(a: multiset<nat>, a': multiset<nat>, b: multiset<nat>, b': multiset<nat>,
               c: multiset<nat>, x: multiset<nat>, y: multiset<nat>)
    requires a == a' + c && b == b' + c && a' + x == b' + y
    ensures a + x == b + y
  {
    assert a' + x + c == b' + y + c;
    assert a' + c + x == a' + x + c && b' + c + y == b' + y + c;
  }

  lemma Replace(d': multiset<nat>, d: multiset<nat>, s: multiset<nat>, s': multiset<nat>, x: multiset<nat>,
                y: multiset<nat>)
    requires d' + s == d + s' && s' + x == s + y
    ensures d' + x == d + y
  {
    assert d' + s + x == d + (s + y);
    forall f ensures (d' + x)[f] == (d + y)[f] {
      assert (d' + s + x)[f] == (d + (s + y))[f];
    }
  }

  lemma {:induction false} BagSplit<T>(s: seq<T>, w: T -> multiset<nat>, k: nat)
    requires k <= |s|
    ensures Bag(s, w) == Bag(s[..k], w) + Bag(s[k..], w)
  {
    if k == |s| {
      assert s[..k] == s && s[k..] == [];
    } else {
      var n := |s| - 1;
      BagSplit(s[..n], w, k);
      assert s[..n][..k] == s[..k] && s[..n][k..] == s[k..][..n - k];
    }
  }

  lemma BagOne<T>(s: seq<T>, w: T -> multiset<nat>, i: nat)
    requires i < |s|
    ensures w(s[i]) <= Bag(s, w)
  {
    BagSplit(s, w, i + 1);
    assert s[..i + 1][..i] == s[..i];
  }

  lemma BagTwo<T>(s: seq<T>, w: T -> multiset<nat>, i: nat, j: nat)
    requires i < j < |s|
    ensures w(s[i]) + w(s[j]) <= Bag(s, w)
  {
    BagSplit(s, w, j);
    BagOne(s[..j], w, i);
    BagOne(s[j..], w, 0);
  }

  lemma {:induction false} BagSource<T>(s: seq<T>, w: T -> multiset<nat>, f: nat) returns (i: nat)
    requires f in Bag(s, w)
    ensures i < |s| && f in w(s[i])
  {
    var n := |s| - 1;
    if f in w(s[n]) {
      i := n;
    } else {
      i := BagSource(s[..n], w, f);
    }
  }

  lemma {:induction false} BagNone<T>(s: seq<T>, w: T -> multiset<nat>)
    requires forall i :: 0 <= i < |s| ==> w(s[i]) == multiset{}
    ensures Bag(s, w) == multiset{}
  {
    if s != [] {
      BagNone(s[..|s| - 1], w);
    }
  }

  lemma {:induction false} BagSame<T>(s: seq<T>, t: seq<T>, w: T -> multiset<nat>)
    requires |s| == |t| && forall i :: 0 <= i < |s| ==> w(s[i]) == w(t[i])
    ensures Bag(s, w) == Bag(t, w)
  {
    if s != [] {
      BagSame(s[..|s| - 1], t[..|s| - 1], w);
    }
  }

  function PteFrames(e: Pte): multiset<nat> {
    if e.Present? then multiset{e.frame} else multiset{}
  }

  function TableFrames(entries: seq<Pte>): multiset<nat> {
    Bag(entries, PteFrames)
  }

  function SlotFrames(slot: Slot): multiset<nat> {
    if slot.NoTable? then multiset{} else TableFrames(slot.entries)
  }

  /** The frames a page directory refers to, each as often as it is referred to. */
  function DirFrames(d: Directory): multiset<nat> {
    Bag(d, SlotFrames)
  }

  lemma UpdateFrames(d: Directory, p: nat, e: Pte)
    requires WellFormed(d) && p < PAGES && HasTable(d, p)
    ensures DirFrames(Update(d, p, e)) + PteFrames(Lookup(d, p)) == DirFrames(d) + PteFrames(e)
  {
    var i, j := p / ENTRIES, p % ENTRIES;
    var entries := d[i].entries;
    BagUpdate(entries, PteFrames, j, e);
    BagUpdate(d, SlotFrames, i, Table(entries[j := e]));
    Replace(DirFrames(Update(d, p, e)), DirFrames(d), SlotFrames(d[i]), TableFrames(entries[j := e]),
            PteFrames(entries[j]), PteFrames(e));
  }

  /** `create_page_table` for a directory entry that has none. */
  function WithTable(d: Directory, i: nat): (r: Directory)
    requires WellFormed(d) && KERNEL_SLOTS <= i < ENTRIES && d[i].NoTable?
    ensures WellFormed(r) && forall q :: 0 <= q < PAGES ==> Lookup(r, q) == Lookup(d, q)
    ensures Slots(r) == Slots(d) + {i}
  {
    var blank := EmptyTable();
    d[i := Table(blank)]
  }

  // ---------------------------------------------------------------- kernel memory for page tables

  /** How many of the first k slots have a page table. */
  function Tables(d: Directory, k: nat): nat
    requires k <= |d|
  {
    if k == 0 then 0 else Tables(d, k - 1) + if d[k - 1].Table? then 1 else 0
  }

  lemma {:induction false} NoKernelTables(d: Directory, k: nat)
    requires WellFormed(d) && k <= KERNEL_SLOTS
    ensures Tables(d, k) == 0
  {
    if k > 0 {
      NoKernelTables(d, k - 1);
    }
  }

  lemma {:induction false} TablesMonotone(d: Directory, j: nat, k: nat)
    requires j <= k <= |d|
    ensures Tables(d, j) <= Tables(d, k)
  {
    if j < k {
      TablesMonotone(d, j, k - 1);
    }
  }

  /** Page first + k is the first of the range in its slot. */
  predicate NewSlot(first: nat, k: nat) {
    k == 0 || (first + k - 1) / ENTRIES != (first + k) / ENTRIES
  }

  /** How many page tables the n pages from `first` on need that are not there. */
  function TablesMissing(d: Directory, first: nat, n: nat): nat
    requires WellFormed(d) && first + n <= PAGES
  {
    if n == 0 then 0
    else
      TablesMissing(d, first, n - 1) + if NewSlot(first, n - 1) && !HasTable(d, first + n - 1) then 1 else 0
  }

  /**
    With kernel memory for `budget` page tables, `done` of n pages are got through: those need no more,
    and what stops before the end is that the next page does, or that there is no frame.
   */
  predicate Afforded(d: Directory, first: nat, n: nat, done: nat, budget: nat, full: bool) {
    && WellFormed(d) && first + n <= PAGES && done <= n && TablesMissing(d, first, done) <= budget
    && (done < n ==> TablesMissing(d, first, done + 1) > budget || full)
  }

  lemma EmptyTableFrames()
    ensures TableFrames(EmptyTable()) == multiset{}
  {
    BagNone(EmptyTable(), PteFrames);
  }

  lemma WithTableFrames(d: Directory, i: nat)
    requires WellFormed(d) && KERNEL_SLOTS <= i < ENTRIES && d[i].NoTable?
    ensures DirFrames(WithTable(d, i)) == DirFrames(d)
  {
    EmptyTableFrames();
    SameFrames(d, i, Table(EmptyTable()));
  }

  lemma SameFrames(d: Directory, i: nat, slot: Slot)
    requires i < |d| && SlotFrames(slot) == SlotFrames(d[i])
    ensures DirFrames(d[i := slot]) == DirFrames(d)
  {
    BagUpdate(d, SlotFrames, i, slot);
    Replace(DirFrames(d[i := slot]), DirFrames(d), SlotFrames(d[i]), SlotFrames(slot), multiset{}, multiset{});
    assert DirFrames(d[i := slot]) + multiset{} == DirFrames(d[i := slot]);
  }

  lemma LookupReferred(d: Directory, p: nat)
    requires WellFormed(d) && p < PAGES && Lookup(d, p).Present?
    ensures Lookup(d, p).frame in DirFrames(d)
  {
    var i, j := p / ENTRIES, p % ENTRIES;
    BagOne(d, SlotFrames, i);
    BagOne(d[i].entries, PteFrames, j);
  }

  /** Two pages of one space that share a frame count it twice. */
  lemma TwoPages(d: Directory, p: nat, q: nat, f: nat)
    requires WellFormed(d) && p < PAGES && q < PAGES && p != q
    requires Lookup(d, p).Present? && Lookup(d, q).Present? && Lookup(d, p).frame == f == Lookup(d, q).frame
    ensures DirFrames(d)[f] >= 2
  {
    var i, j, i', j' := p / ENTRIES, p % ENTRIES, q / ENTRIES, q % ENTRIES;
    if i == i' {
      SameSlot(p);
      if j < j' {
        BagTwo(d[i].entries, PteFrames, j, j');
      } else {
        BagTwo(d[i].entries, PteFrames, j', j);
      }
      BagOne(d, SlotFrames, i);
    } else {
      BagOne(d[i].entries, PteFrames, j);
      BagOne(d[i'].entries, PteFrames, j');
      if i < i' {
        BagTwo(d, SlotFrames, i, i');
      } else {
        BagTwo(d, SlotFrames, i', i);
      }
    }
  }

  // ---------------------------------------------------------------- copy-on-write marking

  /** `make_pt_cow` on one entry: a writable entry becomes read-only and COW. */
  function CowEntry(e: Pte): Pte {
    if e.Present? && e.writable then e.(writable := false, cow := true) else e
  }

  function CowTable(entries: seq<Pte>): (r: seq<Pte>)
    ensures |r| == |entries| && forall i :: 0 <= i < |r| ==> r[i] == CowEntry(entries[i])
  {
    seq(|entries|, i requires 0 <= i < |entries| => CowEntry(entries[i]))
  }

  function CowSlot(slot: Slot): Slot {
    if slot.NoTable? then NoTable else Table(CowTable(slot.entries))
  }

  function CowDirectory(d: Directory): (r: Directory)
    ensures |r| == |d| && forall i :: 0 <= i < |r| ==> r[i] == CowSlot(d[i])
  {
    seq(|d|, i requires 0 <= i < |d| => CowSlot(d[i]))
  }

  lemma CowFrames(d: Directory)
    requires WellFormed(d)
    ensures WellFormed(CowDirectory(d)) && DirFrames(CowDirectory(d)) == DirFrames(d)
    ensures forall p :: 0 <= p < PAGES ==> Lookup(CowDirectory(d), p) == CowEntry(Lookup(d, p))
  {
    var c := CowDirectory(d);
    forall i | 0 <= i < |d| ensures SlotFrames(c[i]) == SlotFrames(d[i]) {
      if d[i].Table? {
        BagSame(c[i].entries, d[i].entries, PteFrames);
      }
    }
    BagSame(c, d, SlotFrames);
  }

  // ---------------------------------------------------------------- what a space denotes

  function PageAt(mem: seq<seq<bv8>>, f: nat): seq<bv8> {
    if f < |mem| then mem[f] else []
  }

  /** The user memory a directory gives access to, frames holding `mem`. */
  function View(d: Directory, mem: seq<seq<bv8>>): Space
    requires WellFormed(d)
  {
    map p: nat | p < PAGES && Lookup(d, p).Present? :: Cell(PageAt(mem, Lookup(d, p).frame), Lookup(d, p).mark)
  }
}
