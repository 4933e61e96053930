/**
  The blocks of the boundary-tag heap of 410user/libmalloc/mm_malloc.c, as they tile the words
  between the prologue and the epilogue.  Positions and sizes are in words of four bytes; a
  block's position is that of its payload, one word after its header.
 */
module BlockChain {

  datatype Blk = Blk(pos: nat, n: nat, alloc: bool)

  function End(b: Blk): nat {
    b.pos + b.n
  }

  /** Sizes are multiples of 8 bytes and at least 16, payloads are 8-aligned. */
  predicate BlkOk(b: Blk) {
    b.pos % 2 == 0 && b.n % 2 == 0 && 4 <= b.n
  }

  /** The position after block i - 1. */
  function Edge(bs: seq<Blk>, lo: nat, i: nat): nat
    requires i <= |bs|
  {
    if i == 0 then lo else End(bs[i - 1])
  }

  /** Block i starts where block i - 1 ends. */
  predicate Fits(bs: seq<Blk>, lo: nat, i: nat)
    requires i < |bs|
  {
    BlkOk(bs[i]) && bs[i].pos == Edge(bs, lo, i)
  }

  /** The blocks tile lo .. hi - 1. */
  predicate Tiles(bs: seq<Blk>, lo: nat, hi: nat) {
    && lo % 2 == 0
    && (forall i {:trigger Fits(bs, lo, i)} :: 0 <= i < |bs| ==> Fits(bs, lo, i))
    && hi == Edge(bs, lo, |bs|)
  }

  /** No two neighbours are both free. */
  predicate Coalesced(bs: seq<Blk>) {
    forall i :: 0 < i < |bs| ==> bs[i - 1].alloc || bs[i].alloc
  }

  /** The same, except that block i may touch free blocks. */
  predicate CoalescedBut(bs: seq<Blk>, k: nat) {
    forall i :: 0 < i < |bs| && i != k && i - 1 != k ==> bs[i - 1].alloc || bs[i].alloc
  }

  lemma {:induction false} TilesOrder(bs: seq<Blk>, lo: nat, hi: nat, i: nat, j: nat)
    requires Tiles(bs, lo, hi) && i < j < |bs|
    ensures End(bs[i]) <= bs[j].pos
    decreases j - i
  {
    assert Fits(bs, lo, j);
    if i < j - 1 {
      TilesOrder(bs, lo, hi, i, j - 1);
      assert Fits(bs, lo, j - 1);
    }
  }

  lemma TilesBounds(bs: seq<Blk>, lo: nat, hi: nat, i: nat)
    requires Tiles(bs, lo, hi) && i < |bs|
    ensures lo <= bs[i].pos && End(bs[i]) <= hi
  {
    if i > 0 {
      TilesOrder(bs, lo, hi, 0, i);
    }
    if i < |bs| - 1 {
      TilesOrder(bs, lo, hi, i, |bs| - 1);
    }
    assert Fits(bs, lo, 0) && Fits(bs, lo, |bs| - 1);
  }

  /** Blocks i .. j - 1 are replaced by `mid`. */
  function Splice(bs: seq<Blk>, i: nat, j: nat, mid: seq<Blk>): seq<Blk>
    requires i <= j <= |bs|
  {
    bs[..i] + mid + bs[j..]
  }

  /** Replacing blocks by others that tile the same words. */
  lemma SpliceTiles(bs: seq<Blk>, lo: nat, hi: nat, i: nat, j: nat, mid: seq<Blk>)
    requires Tiles(bs, lo, hi) && i < j <= |bs| && mid != []
    requires Tiles(mid, Edge(bs, lo, i), Edge(bs, lo, j))
    ensures Tiles(Splice(bs, i, j, mid), lo, hi)
  {
    var r := Splice(bs, i, j, mid);
    var e := i + |mid|;
    forall k | 0 <= k < |r| ensures Fits(r, lo, k) {
      if k < i {
        assert r[k] == bs[k] && Fits(bs, lo, k);
      } else if k < e {
        assert r[k] == mid[k - i] && Fits(mid, Edge(bs, lo, i), k - i);
      } else {
        assert r[k] == bs[k - e + j] && Fits(bs, lo, k - e + j);
      }
    }
    if j == |bs| {
      assert r[|r| - 1] == mid[|mid| - 1];
    } else {
      assert r[|r| - 1] == bs[|bs| - 1];
    }
  }

  /** The allocated blocks. */
  predicate IsLive(bs: seq<Blk>, b: Blk) {
    b.alloc && b in bs
  }

  lemma SpliceLive(bs: seq<Blk>, i: nat, j: nat, mid: seq<Blk>, b: Blk)
    requires i <= j <= |bs|
    ensures b in Splice(bs, i, j, mid) <==> b in bs[..i] || b in mid || b in bs[j..]
    ensures b in bs <==> b in bs[..i] || b in bs[i..j] || b in bs[j..]
  {
    assert bs == bs[..i] + bs[i..j] + bs[j..];
  }

  /** Two blocks never share a word. */
  lemma BlocksApart(bs: seq<Blk>, lo: nat, hi: nat, a: Blk, b: Blk)
    requires Tiles(bs, lo, hi) && a in bs && b in bs && a != b
    ensures End(a) <= b.pos || End(b) <= a.pos
  {
    var i :| 0 <= i < |bs| && bs[i] == a;
    var j :| 0 <= j < |bs| && bs[j] == b;
    if i < j {
      TilesOrder(bs, lo, hi, i, j);
    } else {
      TilesOrder(bs, lo, hi, j, i);
    }
  }

  // ---------------------------------------------------------------- the four cases of coalescing

  /** Block i together with its free neighbours. */
  function MergeFrom(bs: seq<Blk>, i: nat): nat
    requires i < |bs|
  {
    if i > 0 && !bs[i - 1].alloc then i - 1 else i
  }

  function MergeTo(bs: seq<Blk>, i: nat): nat
    requires i < |bs|
  {
    if i + 1 < |bs| && !bs[i + 1].alloc then i + 2 else i + 1
  }

  function Merged(bs: seq<Blk>, i: nat): Blk
    requires i < |bs|
  {
    var a, b := MergeFrom(bs, i), MergeTo(bs, i);
    var lo, hi := bs[a].pos, End(bs[b - 1]);
    Blk(lo, if lo <= hi then hi - lo else 0, false)
  }

  function Merge(bs: seq<Blk>, i: nat): seq<Blk>
    requires i < |bs|
  {
    Splice(bs, MergeFrom(bs, i), MergeTo(bs, i), [Merged(bs, i)])
  }

  lemma OneTile(b: Blk)
    ensures Tiles([b], b.pos, End(b)) <==> BlkOk(b)
  {
    assert BlkOk(b) ==> Fits([b], b.pos, 0);
    assert Tiles([b], b.pos, End(b)) ==> Fits([b], b.pos, 0);
  }

  lemma MergedIs(bs: seq<Blk>, lo: nat, hi: nat, i: nat)
    requires Tiles(bs, lo, hi) && i < |bs|
    ensures Merged(bs, i).pos == Edge(bs, lo, MergeFrom(bs, i)) && End(Merged(bs, i)) == Edge(bs, lo, MergeTo(bs, i))
    ensures Merged(bs, i).n == (if MergeFrom(bs, i) < i then bs[i - 1].n else 0) + bs[i].n
                             + (if i + 1 < MergeTo(bs, i) then bs[i + 1].n else 0)
  {
    assert Fits(bs, lo, i);
    if i > 0 {
      assert Fits(bs, lo, i - 1);
    }
    if i + 1 < |bs| {
      assert Fits(bs, lo, i + 1);
    }
  }

  lemma MergedOk(bs: seq<Blk>, lo: nat, hi: nat, i: nat)
    requires Tiles(bs, lo, hi) && i < |bs|
    ensures BlkOk(Merged(bs, i))
  {
    MergedIs(bs, lo, hi, i);
    var x := if MergeFrom(bs, i) < i then bs[i - 1].n else 0;
    var z := if i + 1 < MergeTo(bs, i) then bs[i + 1].n else 0;
    assert Fits(bs, lo, i) && Fits(bs, lo, MergeFrom(bs, i));
    assert x % 2 == 0;
    assert z % 2 == 0 by {
      if i + 1 < |bs| {
        assert Fits(bs, lo, i + 1);
      }
    }
    EvenSum(x, bs[i].n, z);
  }

  lemma EvenSum(x: nat, y: nat, z: nat)
    requires x % 2 == 0 && y % 2 == 0 && z % 2 == 0
    ensures (x + y + z) % 2 == 0
  {
  }

  /** After coalescing a free block no two neighbours are free. */
  lemma MergeCoalesced(bs: seq<Blk>, i: nat)
    requires i < |bs| && !bs[i].alloc && CoalescedBut(bs, i)
    ensures Coalesced(Merge(bs, i))
  {
    var a, b := MergeFrom(bs, i), MergeTo(bs, i);
    var r := Merge(bs, i);
    forall k | 0 < k < |r| ensures r[k - 1].alloc || r[k].alloc {
      if k < a {
        assert r[k - 1] == bs[k - 1] && r[k] == bs[k];
      } else if k == a {
        assert r[k - 1] == bs[a - 1];
        assert bs[a].alloc || bs[a - 1].alloc;
      } else if k == a + 1 {
        assert r[k] == bs[b];
        assert bs[b - 1].alloc || bs[b].alloc;
      } else {
        assert r[k - 1] == bs[k - 2 - a + b] && r[k] == bs[k - 1 - a + b];
      }
    }
  }

  lemma MergeLive(bs: seq<Blk>, i: nat, b: Blk)
    requires i < |bs| && !bs[i].alloc
    ensures IsLive(Merge(bs, i), b) <==> IsLive(bs, b)
  {
    var f, t := MergeFrom(bs, i), MergeTo(bs, i);
    SpliceLive(bs, f, t, [Merged(bs, i)], b);
    assert forall k :: f <= k < t ==> !bs[k].alloc;
  }

  // ---------------------------------------------------------------- placing a block

  /** Free block i gives its first `an` words, or all of them if the rest would be too small for a block. */
  function Placed(b: Blk, an: nat): seq<Blk> {
    if b.n >= an + 4 then [Blk(b.pos, an, true), Blk(b.pos + an, b.n - an, false)]
    else [Blk(b.pos, b.n, true)]
  }

  function Place(bs: seq<Blk>, i: nat, an: nat): seq<Blk>
    requires i < |bs|
  {
    Splice(bs, i, i + 1, Placed(bs[i], an))
  }

  lemma EvenParts(b: Blk, an: nat)
    requires BlkOk(b) && an % 2 == 0 && an <= b.n
    ensures (b.pos + an) % 2 == 0 && (b.n - an) % 2 == 0
  {
  }

  lemma PlaceCoalesced(bs: seq<Blk>, i: nat, an: nat)
    requires i < |bs| && !bs[i].alloc && Coalesced(bs)
    ensures Coalesced(Place(bs, i, an))
  {
    var m := |Placed(bs[i], an)|;
    var r := Place(bs, i, an);
    forall k | 0 < k < |r| ensures r[k].alloc || r[k - 1].alloc {
      if k < i {
        assert r[k - 1] == bs[k - 1] && r[k] == bs[k];
      } else if k == i + m {
        assert r[k] == bs[i + 1];
        assert bs[i].alloc || bs[i + 1].alloc;
      } else if k > i + m {
        assert r[k - 1] == bs[k - m] && r[k] == bs[k + 1 - m];
      }
    }
  }

  lemma PlaceLive(bs: seq<Blk>, i: nat, an: nat, b: Blk)
    requires i < |bs| && !bs[i].alloc
    ensures IsLive(Place(bs, i, an), b) <==> IsLive(bs, b) || b == Placed(bs[i], an)[0]
  {
    SpliceLive(bs, i, i + 1, Placed(bs[i], an), b);
    assert bs[i..i + 1] == [bs[i]];
  }

  // ---------------------------------------------------------------- freeing and growing

  lemma FreedTiles(bs: seq<Blk>, lo: nat, hi: nat, i: nat)
    requires Tiles(bs, lo, hi) && i < |bs| && Coalesced(bs)
    ensures Tiles(bs[i := bs[i].(alloc := false)], lo, hi) && CoalescedBut(bs[i := bs[i].(alloc := false)], i)
  {
    var r := bs[i := bs[i].(alloc := false)];
    forall k | 0 <= k < |r| ensures Fits(r, lo, k) {
      assert Fits(bs, lo, k);
    }
  }

  lemma FreedLive(bs: seq<Blk>, lo: nat, hi: nat, i: nat, b: Blk)
    requires Tiles(bs, lo, hi) && i < |bs| && bs[i].alloc
    ensures IsLive(bs[i := bs[i].(alloc := false)], b) <==> IsLive(bs, b) && b != bs[i]
  {
    var r := bs[i := bs[i].(alloc := false)];
    if IsLive(bs, b) && b != bs[i] {
      var k :| 0 <= k < |bs| && bs[k] == b;
      assert r[k] == b;
    }
    if IsLive(r, b) {
      var k :| 0 <= k < |r| && r[k] == b;
      assert k != i && bs[k] == b;
      if k < i {
        TilesOrder(bs, lo, hi, k, i);
      } else {
        TilesOrder(bs, lo, hi, i, k);
      }
      assert Fits(bs, lo, k) && Fits(bs, lo, i);
    }
  }

  lemma GrownTiles(bs: seq<Blk>, lo: nat, hi: nat, n: nat)
    requires Tiles(bs, lo, hi) && Coalesced(bs) && n % 2 == 0 && 4 <= n
    ensures Tiles(bs + [Blk(hi, n, false)], lo, hi + n) && CoalescedBut(bs + [Blk(hi, n, false)], |bs|)
    ensures forall b :: IsLive(bs + [Blk(hi, n, false)], b) <==> IsLive(bs, b)
  {
    var r := bs + [Blk(hi, n, false)];
    EdgeEven(bs, lo, hi);
    forall k | 0 <= k < |r| ensures Fits(r, lo, k) {
      if k < |bs| {
        assert Fits(bs, lo, k);
      }
    }
  }

  lemma EdgeEven(bs: seq<Blk>, lo: nat, hi: nat)
    requires Tiles(bs, lo, hi)
    ensures hi % 2 == 0
  {
    if bs != [] {
      assert Fits(bs, lo, |bs| - 1);
    }
  }
}
