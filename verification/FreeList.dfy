/**
  The free list of one region of the list memory manager (410kern/lmm): nodes in strictly
  increasing order, 8-aligned, with a gap between any two.  Such a list is determined by the
  set of its free bytes.
 */
module FreeList {

  /** No bit of ALIGN_MASK is set; ALIGN_SIZE is 8, the size of a node header. */
  predicate Aligned(x: int) {
    x % 8 == 0
  }

  lemma AlignedStep(x: int, y: int)
    requires Aligned(x) && Aligned(y) && x < y
    ensures x + 8 <= y
  {
  }

  lemma AlignedSum(x: int, y: int)
    requires Aligned(x) && Aligned(y)
    ensures Aligned(x + y) && Aligned(x - y)
  {
  }

  datatype Node = Node(addr: nat, size: nat)

  function End(n: Node): nat {
    n.addr + n.size
  }

  predicate NodeOk(n: Node, min: nat, max: nat) {
    Aligned(n.addr) && Aligned(n.size) && 0 < n.size && min <= n.addr && End(n) <= max
  }

  /** Sorted, disjoint and not abutting. */
  predicate Apart(ns: seq<Node>) {
    forall i, j :: 0 <= i < j < |ns| ==> End(ns[i]) < ns[j].addr
  }

  predicate ListOk(ns: seq<Node>, min: nat, max: nat) {
    (forall i :: 0 <= i < |ns| ==> NodeOk(ns[i], min, max)) && Apart(ns)
  }

  predicate Covers(n: Node, x: int) {
    n.addr <= x < End(n)
  }

  /** Byte x is free. */
  predicate InFree(ns: seq<Node>, x: int) {
    exists i :: 0 <= i < |ns| && Covers(ns[i], x)
  }

  function Sum(ns: seq<Node>): nat {
    if ns == [] then 0 else Sum(ns[..|ns| - 1]) + ns[|ns| - 1].size
  }

  lemma {:induction false} SumConcat(a: seq<Node>, b: seq<Node>)
    ensures Sum(a + b) == Sum(a) + Sum(b)
  {
    if b == [] {
      assert a + b == a;
    } else {
      var n := |b| - 1;
      assert (a + b)[..|a + b| - 1] == a + b[..n];
      SumConcat(a, b[..n]);
    }
  }

  lemma SumOne(n: Node)
    ensures Sum([n]) == n.size
  {
    assert [n][..0] == [];
  }

  /** Nodes i .. j - 1 are replaced by `mid`. */
  function Splice(ns: seq<Node>, i: nat, j: nat, mid: seq<Node>): seq<Node>
    requires i <= j <= |ns|
  {
    ns[..i] + mid + ns[j..]
  }

  lemma SumSplice(ns: seq<Node>, i: nat, j: nat, mid: seq<Node>)
    requires i <= j <= |ns|
    ensures Sum(Splice(ns, i, j, mid)) == Sum(ns) - Sum(ns[i..j]) + Sum(mid)
  {
    SumConcat(ns[..i] + mid, ns[j..]);
    SumConcat(ns[..i], mid);
    SumConcat(ns[..i] + ns[i..j], ns[j..]);
    SumConcat(ns[..i], ns[i..j]);
    assert ns == ns[..i] + ns[i..j] + ns[j..];
  }

  /** Splicing keeps the list well formed when the new nodes fit between the old neighbours. */
  lemma SpliceOk(ns: seq<Node>, i: nat, j: nat, mid: seq<Node>, min: nat, max: nat)
    requires i <= j <= |ns| && ListOk(ns, min, max) && ListOk(mid, min, max)
    requires forall k, l :: 0 <= k < i && 0 <= l < |mid| ==> End(ns[k]) < mid[l].addr
    requires forall k, l :: j <= k < |ns| && 0 <= l < |mid| ==> End(mid[l]) < ns[k].addr
    ensures ListOk(Splice(ns, i, j, mid), min, max)
  {
    var r := Splice(ns, i, j, mid);
    var shift := i + |mid|;
    forall k | 0 <= k < |r|
      ensures r[k] == if k < i then ns[k] else if k < shift then mid[k - i] else ns[k - shift + j]
    {
    }
  }

  lemma SpliceFree(ns: seq<Node>, i: nat, j: nat, mid: seq<Node>, x: int)
    requires i <= j <= |ns|
    ensures InFree(Splice(ns, i, j, mid), x) <==> InFree(ns[..i], x) || InFree(mid, x) || InFree(ns[j..], x)
  {
    FreeConcat(ns[..i] + mid, ns[j..], x);
    FreeConcat(ns[..i], mid, x);
  }

  lemma FreeConcat(a: seq<Node>, b: seq<Node>, x: int)
    ensures InFree(a + b, x) <==> InFree(a, x) || InFree(b, x)
  {
    if InFree(a, x) {
      var i :| 0 <= i < |a| && Covers(a[i], x);
      assert (a + b)[i] == a[i];
    }
    if InFree(b, x) {
      var i :| 0 <= i < |b| && Covers(b[i], x);
      assert (a + b)[|a| + i] == b[i];
    }
  }

  lemma FreeSplit(ns: seq<Node>, i: nat, j: nat, x: int)
    requires i <= j <= |ns|
    ensures InFree(ns, x) <==> InFree(ns[..i], x) || InFree(ns[i..j], x) || InFree(ns[j..], x)
  {
    assert ns == Splice(ns, i, j, ns[i..j]);
    SpliceFree(ns, i, j, ns[i..j], x);
  }

  // ---------------------------------------------------------------- canonical form

  lemma FirstByte(a: seq<Node>, b: seq<Node>, min: nat, max: nat)
    requires ListOk(a, min, max) && ListOk(b, min, max) && a != []
    requires InFree(b, a[0].addr)
    ensures b != [] && b[0].addr <= a[0].addr
  {
    var i :| 0 <= i < |b| && Covers(b[i], a[0].addr);
    assert i > 0 ==> End(b[0]) < b[i].addr;
  }

  lemma EndNotFree(a: seq<Node>, min: nat, max: nat)
    requires ListOk(a, min, max) && a != []
    ensures !InFree(a, End(a[0]))
  {
    forall i | 0 <= i < |a| ensures !Covers(a[i], End(a[0])) {
      assert i > 0 ==> End(a[0]) < a[i].addr;
    }
  }

  lemma TailFree(a: seq<Node>, min: nat, max: nat, x: int)
    requires ListOk(a, min, max) && a != []
    ensures InFree(a[1..], x) <==> InFree(a, x) && End(a[0]) <= x
  {
    if InFree(a[1..], x) {
      var i :| 0 <= i < |a[1..]| && Covers(a[1..][i], x);
      assert Covers(a[i + 1], x) && End(a[0]) < a[i + 1].addr;
    }
    if InFree(a, x) && End(a[0]) <= x {
      var i :| 0 <= i < |a| && Covers(a[i], x);
      assert i > 0 && a[1..][i - 1] == a[i];
    }
  }

  /** Two well-formed lists with the same free bytes are the same list. */
  lemma {:induction false} Canonical(a: seq<Node>, b: seq<Node>, min: nat, max: nat)
    requires ListOk(a, min, max) && ListOk(b, min, max)
    requires forall x :: InFree(a, x) <==> InFree(b, x)
    ensures a == b
    decreases |a|
  {
    if a == [] {
      if b != [] {
        assert Covers(b[0], b[0].addr);
        assert InFree(b, b[0].addr);
      }
    } else {
      assert Covers(a[0], a[0].addr) && InFree(a, a[0].addr);
      FirstByte(a, b, min, max);
      assert Covers(b[0], b[0].addr) && InFree(b, b[0].addr);
      FirstByte(b, a, min, max);
      EndNotFree(a, min, max);
      EndNotFree(b, min, max);
      SameEnd(a, b);
      forall x ensures InFree(a[1..], x) <==> InFree(b[1..], x) {
        TailFree(a, min, max, x);
        TailFree(b, min, max, x);
      }
      Canonical(a[1..], b[1..], min, max);
      assert a == [a[0]] + a[1..] && b == [b[0]] + b[1..];
    }
  }

  lemma SameEnd(a: seq<Node>, b: seq<Node>)
    requires a != [] && b != [] && a[0].addr == b[0].addr && 0 < a[0].size && 0 < b[0].size
    requires !InFree(b, End(a[0])) && !InFree(a, End(b[0]))
    ensures a[0] == b[0]
  {
    assert !Covers(b[0], End(a[0])) && !Covers(a[0], End(b[0]));
  }

  // ---------------------------------------------------------------- taking bytes out

  function Before(n: Node, lo: nat): seq<Node> {
    if n.addr < lo then [Node(n.addr, lo - n.addr)] else []
  }

  function After(n: Node, hi: nat): seq<Node> {
    if hi < End(n) then [Node(hi, End(n) - hi)] else []
  }

  /** Take lo .. lo + len - 1 out of node i. */
  function Carve(ns: seq<Node>, i: nat, lo: nat, len: nat): seq<Node>
    requires i < |ns|
  {
    Splice(ns, i, i + 1, Before(ns[i], lo) + After(ns[i], lo + len))
  }

  predicate Within(n: Node, lo: nat, len: nat) {
    Aligned(lo) && Aligned(len) && 0 < len && n.addr <= lo && lo + len <= End(n)
  }

  lemma RemainderOk(n: Node, lo: nat, len: nat, min: nat, max: nat)
    requires NodeOk(n, min, max) && Within(n, lo, len)
    ensures n.addr < lo ==> NodeOk(Node(n.addr, lo - n.addr), min, max)
    ensures lo + len < End(n) ==> NodeOk(Node(lo + len, End(n) - (lo + len)), min, max)
  {
    AlignedSum(lo, n.addr);
    AlignedSum(lo, len);
    AlignedSum(n.addr, n.size);
    AlignedSum(End(n), lo + len);
  }

  lemma RemainderList(n: Node, lo: nat, len: nat, min: nat, max: nat)
    requires NodeOk(n, min, max) && Within(n, lo, len)
    ensures var mid := Before(n, lo) + After(n, lo + len);
      && ListOk(mid, min, max)
      && forall l :: 0 <= l < |mid| ==> n.addr <= mid[l].addr && End(mid[l]) <= End(n)
  {
    RemainderOk(n, lo, len, min, max);
  }

  lemma CarveOk(ns: seq<Node>, i: nat, lo: nat, len: nat, min: nat, max: nat)
    requires ListOk(ns, min, max) && i < |ns| && Within(ns[i], lo, len)
    ensures ListOk(Carve(ns, i, lo, len), min, max)
  {
    var n := ns[i];
    var mid := Before(n, lo) + After(n, lo + len);
    assert NodeOk(n, min, max);
    RemainderList(n, lo, len, min, max);
    forall k, l | 0 <= k < i && 0 <= l < |mid| ensures End(ns[k]) < mid[l].addr {
      assert End(ns[k]) < n.addr;
    }
    forall k, l | i + 1 <= k < |ns| && 0 <= l < |mid| ensures End(mid[l]) < ns[k].addr {
      assert End(n) < ns[k].addr;
    }
    SpliceOk(ns, i, i + 1, mid, min, max);
  }

  lemma CarveSum(ns: seq<Node>, i: nat, lo: nat, len: nat)
    requires i < |ns| && Within(ns[i], lo, len)
    ensures Sum(Carve(ns, i, lo, len)) == Sum(ns) - len && len <= Sum(ns)
  {
    var n := ns[i];
    SumSplice(ns, i, i + 1, Before(n, lo) + After(n, lo + len));
    SumConcat(Before(n, lo), After(n, lo + len));
    assert ns[i..i + 1] == [n];
    SumOne(n);
    SumOne(Node(n.addr, lo - n.addr));
    if lo + len < End(n) {
      SumOne(Node(lo + len, End(n) - (lo + len)));
    }
  }

  /** Exactly the bytes taken are no longer free. */
  lemma CarveFree(ns: seq<Node>, i: nat, lo: nat, len: nat, min: nat, max: nat, x: int)
    requires ListOk(ns, min, max) && i < |ns| && Within(ns[i], lo, len)
    ensures InFree(Carve(ns, i, lo, len), x) <==> InFree(ns, x) && !(lo <= x < lo + len)
  {
    var n := ns[i];
    SpliceFree(ns, i, i + 1, Before(n, lo) + After(n, lo + len), x);
    FreeConcat(Before(n, lo), After(n, lo + len), x);
    FreeSplit(ns, i, i + 1, x);
    assert ns[i..i + 1] == [n];
    OneNode(n, x);
    if n.addr < lo {
      OneNode(Node(n.addr, lo - n.addr), x);
    }
    if lo + len < End(n) {
      OneNode(Node(lo + len, End(n) - (lo + len)), x);
    }
    if Covers(n, x) {
      Outside(ns, i, x);
    }
  }

  lemma OneNode(n: Node, x: int)
    ensures InFree([n], x) <==> Covers(n, x)
  {
    if Covers(n, x) {
      assert Covers([n][0], x);
    }
  }

  lemma Outside(ns: seq<Node>, i: nat, x: int)
    requires Apart(ns) && i < |ns| && Covers(ns[i], x)
    ensures !InFree(ns[..i], x) && !InFree(ns[i + 1..], x)
  {
    forall k | 0 <= k < i ensures !Covers(ns[..i][k], x) {
      assert End(ns[k]) < ns[i].addr;
    }
    var tail := ns[i + 1..];
    forall k | 0 <= k < |tail| ensures !Covers(tail[k], x) {
      assert tail[k] == ns[i + 1 + k];
    }
  }

  // ---------------------------------------------------------------- putting bytes back

  /** `p` is where a node at `addr` belongs. */
  predicate Position(ns: seq<Node>, p: nat, addr: nat) {
    && p <= |ns|
    && (forall i :: 0 <= i < p ==> ns[i].addr < addr)
    && (forall i :: p <= i < |ns| ==> addr <= ns[i].addr)
  }

  predicate JoinsPrevious(ns: seq<Node>, p: nat, addr: nat)
    requires p <= |ns|
  {
    p > 0 && End(ns[p - 1]) >= addr
  }

  predicate JoinsNext(ns: seq<Node>, p: nat, hi: nat)
    requires p <= |ns|
  {
    p < |ns| && hi >= ns[p].addr
  }

  /** The node that takes the place of the freed bytes and of the neighbours they touch. */
  function Merged(ns: seq<Node>, p: nat, addr: nat, size: nat): Node
    requires p <= |ns|
  {
    var lo := if JoinsPrevious(ns, p, addr) then ns[p - 1].addr else addr;
    var hi := if JoinsNext(ns, p, addr + size) then End(ns[p]) else addr + size;
    Node(lo, if lo <= hi then hi - lo else 0)
  }

  function Absorb(ns: seq<Node>, p: nat, addr: nat, size: nat): seq<Node>
    requires p <= |ns|
  {
    var i := if JoinsPrevious(ns, p, addr) then p - 1 else p;
    var j := if JoinsNext(ns, p, addr + size) then p + 1 else p;
    Splice(ns, i, j, [Merged(ns, p, addr, size)])
  }

  /** The bytes to be freed lie in the region and none of them is free. */
  predicate Freeable(ns: seq<Node>, addr: nat, size: nat, min: nat, max: nat) {
    && Aligned(addr) && Aligned(size) && 0 < size && min <= addr && addr + size <= max
    && forall i :: 0 <= i < |ns| ==> End(ns[i]) <= addr || addr + size <= ns[i].addr
  }

  lemma NotFreeFreeable(ns: seq<Node>, addr: nat, size: nat, min: nat, max: nat)
    requires ListOk(ns, min, max)
    requires Aligned(addr) && Aligned(size) && 0 < size && min <= addr && addr + size <= max
    requires forall x :: addr <= x < addr + size ==> !InFree(ns, x)
    ensures Freeable(ns, addr, size, min, max)
  {
    forall i | 0 <= i < |ns| ensures End(ns[i]) <= addr || addr + size <= ns[i].addr {
      assert NodeOk(ns[i], min, max);
      if addr < End(ns[i]) && ns[i].addr < addr + size {
        var x := if addr <= ns[i].addr then ns[i].addr else addr;
        assert Covers(ns[i], x);
        assert InFree(ns, x);
      }
    }
  }

  lemma MergedOk(ns: seq<Node>, p: nat, addr: nat, size: nat, min: nat, max: nat)
    requires ListOk(ns, min, max) && Position(ns, p, addr) && Freeable(ns, addr, size, min, max)
    ensures NodeOk(Merged(ns, p, addr, size), min, max)
    ensures Merged(ns, p, addr, size).addr <= addr && addr + size <= End(Merged(ns, p, addr, size))
  {
    var m := Merged(ns, p, addr, size);
    if p > 0 {
      assert NodeOk(ns[p - 1], min, max);
    }
    AlignedSum(addr, size);
    if p < |ns| {
      assert NodeOk(ns[p], min, max);
      AlignedSum(ns[p].addr, ns[p].size);
    }
    AlignedSum(End(m), m.addr);
  }

  lemma AbsorbOk(ns: seq<Node>, p: nat, addr: nat, size: nat, min: nat, max: nat)
    requires ListOk(ns, min, max) && Position(ns, p, addr) && Freeable(ns, addr, size, min, max)
    ensures ListOk(Absorb(ns, p, addr, size), min, max)
  {
    var i := if JoinsPrevious(ns, p, addr) then p - 1 else p;
    var j := if JoinsNext(ns, p, addr + size) then p + 1 else p;
    var m := Merged(ns, p, addr, size);
    MergedOk(ns, p, addr, size, min, max);
    forall k | 0 <= k < i ensures End(ns[k]) < m.addr {
      if k < p - 1 {
        assert End(ns[k]) < ns[p - 1].addr;
      }
    }
    forall k | j <= k < |ns| ensures End(m) < ns[k].addr {
      if p < k {
        assert End(ns[p]) < ns[k].addr;
      }
    }
    SpliceOk(ns, i, j, [m], min, max);
  }

  /** The two sides meet exactly: the assertions of lmm_free. */
  lemma ExactJoin(ns: seq<Node>, p: nat, addr: nat, size: nat, min: nat, max: nat)
    requires ListOk(ns, min, max) && Position(ns, p, addr) && Freeable(ns, addr, size, min, max)
    ensures JoinsPrevious(ns, p, addr) ==> End(ns[p - 1]) == addr
    ensures JoinsNext(ns, p, addr + size) ==> addr + size == ns[p].addr
  {
    if JoinsPrevious(ns, p, addr) {
      assert NodeOk(ns[p - 1], min, max);
    }
    if JoinsNext(ns, p, addr + size) {
      assert NodeOk(ns[p], min, max);
    }
  }

  lemma AbsorbSum(ns: seq<Node>, p: nat, addr: nat, size: nat, min: nat, max: nat)
    requires ListOk(ns, min, max) && Position(ns, p, addr) && Freeable(ns, addr, size, min, max)
    ensures Sum(Absorb(ns, p, addr, size)) == Sum(ns) + size
  {
    ExactJoin(ns, p, addr, size, min, max);
    var i := if JoinsPrevious(ns, p, addr) then p - 1 else p;
    var j := if JoinsNext(ns, p, addr + size) then p + 1 else p;
    SumSplice(ns, i, j, [Merged(ns, p, addr, size)]);
    SumOne(Merged(ns, p, addr, size));
    MiddleSum(ns, i, j, p);
  }

  lemma MiddleSum(ns: seq<Node>, i: nat, j: nat, p: nat)
    requires i <= p <= j <= |ns| && p - i <= 1 && j - p <= 1
    ensures Sum(ns[i..j]) == (if i < p then ns[i].size else 0) + (if p < j then ns[p].size else 0)
  {
    assert ns[i..j] == ns[i..p] + ns[p..j];
    SumConcat(ns[i..p], ns[p..j]);
    if i < p {
      assert ns[i..p] == [ns[i]];
      SumOne(ns[i]);
    }
    if p < j {
      assert ns[p..j] == [ns[p]];
      SumOne(ns[p]);
    }
  }

  /** Exactly the freed bytes become free. */
  lemma AbsorbFree(ns: seq<Node>, p: nat, addr: nat, size: nat, min: nat, max: nat, x: int)
    requires ListOk(ns, min, max) && Position(ns, p, addr) && Freeable(ns, addr, size, min, max)
    ensures InFree(Absorb(ns, p, addr, size), x) <==> InFree(ns, x) || addr <= x < addr + size
  {
    ExactJoin(ns, p, addr, size, min, max);
    var i := if JoinsPrevious(ns, p, addr) then p - 1 else p;
    var j := if JoinsNext(ns, p, addr + size) then p + 1 else p;
    SpliceFree(ns, i, j, [Merged(ns, p, addr, size)], x);
    OneNode(Merged(ns, p, addr, size), x);
    FreeSplit(ns, i, j, x);
    MiddleFree(ns, i, j, p, x);
  }

  lemma MiddleFree(ns: seq<Node>, i: nat, j: nat, p: nat, x: int)
    requires i <= p <= j <= |ns| && p - i <= 1 && j - p <= 1
    ensures InFree(ns[i..j], x) <==> (i < p && Covers(ns[i], x)) || (p < j && Covers(ns[p], x))
  {
    assert ns[i..j] == ns[i..p] + ns[p..j];
    FreeConcat(ns[i..p], ns[p..j], x);
    if i < p {
      assert ns[i..p] == [ns[i]];
      OneNode(ns[i], x);
    }
    if p < j {
      assert ns[p..j] == [ns[p]];
      OneNode(ns[p], x);
    }
  }

  /** Taking bytes out and putting them back gives the original list. */
  lemma CarveAbsorb(ns: seq<Node>, i: nat, lo: nat, len: nat, p: nat, min: nat, max: nat)
    requires ListOk(ns, min, max) && i < |ns| && Within(ns[i], lo, len)
    requires Position(Carve(ns, i, lo, len), p, lo)
    ensures Freeable(Carve(ns, i, lo, len), lo, len, min, max)
    ensures Absorb(Carve(ns, i, lo, len), p, lo, len) == ns
  {
    var taken := Carve(ns, i, lo, len);
    assert NodeOk(ns[i], min, max);
    CarveOk(ns, i, lo, len, min, max);
    forall x ensures InFree(taken, x) <==> InFree(ns, x) && !(lo <= x < lo + len) {
      CarveFree(ns, i, lo, len, min, max, x);
    }
    NotFreeFreeable(taken, lo, len, min, max);
    AbsorbOk(taken, p, lo, len, min, max);
    forall x ensures InFree(Absorb(taken, p, lo, len), x) <==> InFree(ns, x) {
      AbsorbFree(taken, p, lo, len, min, max, x);
      if lo <= x < lo + len {
        assert Covers(ns[i], x);
      }
    }
    Canonical(Absorb(taken, p, lo, len), ns, min, max);
  }
}
