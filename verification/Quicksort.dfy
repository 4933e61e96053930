/**
  The Bentley and McIlroy quicksort of 410kern/stdlib/qsort.c on an array, for any element type
  and any comparator that is a total preorder.  Elements are moved whole; the source moves
  them byte by byte or word by word.
 */
module Quicksort {

  type Compare<!T> = (T, T) -> int

  predicate Opposite<T>(cmp: Compare<T>, x: T, y: T) {
    cmp(x, y) < 0 <==> cmp(y, x) > 0
  }

  predicate Chained<T>(cmp: Compare<T>, x: T, y: T, z: T) {
    cmp(x, y) <= 0 && cmp(y, z) <= 0 ==> cmp(x, z) <= 0
  }

  /** The comparator orders any two elements, and the order is transitive. */
  ghost predicate TotalPreorder<T(!new)>(cmp: Compare<T>) {
    && (forall x, y {:trigger Opposite(cmp, x, y)} :: Opposite(cmp, x, y))
    && (forall x, y, z {:trigger Chained(cmp, x, y, z)} :: Chained(cmp, x, y, z))
  }

  lemma Transitive<T(!new)>(cmp: Compare<T>, x: T, y: T, z: T)
    requires TotalPreorder(cmp) && cmp(x, y) <= 0 && cmp(y, z) <= 0
    ensures cmp(x, z) <= 0
  {
    assert Chained(cmp, x, y, z);
  }

  lemma Flip<T(!new)>(cmp: Compare<T>, x: T, y: T)
    requires TotalPreorder(cmp)
    ensures cmp(x, y) < 0 <==> cmp(y, x) > 0
    ensures cmp(x, y) == 0 <==> cmp(y, x) == 0
  {
    assert Opposite(cmp, x, y) && Opposite(cmp, y, x);
  }

  predicate Sorted<T>(s: seq<T>, cmp: Compare<T>) {
    forall i, j :: 0 <= i < j < |s| ==> cmp(s[i], s[j]) <= 0
  }

  /** The elements from lo to hi are rearranged and nothing else changes. */
  ghost predicate Rearranged<T>(s: seq<T>, s': seq<T>, lo: nat, hi: nat) {
    && lo <= hi <= |s| && |s| == |s'|
    && s'[..lo] == s[..lo] && s'[hi..] == s[hi..]
    && multiset(s'[lo..hi]) == multiset(s[lo..hi])
  }

  function Swapped<T>(s: seq<T>, i: nat, j: nat): seq<T>
    requires i < |s| && j < |s|
  {
    s[i := s[j]][j := s[i]]
  }

  lemma SwapMultiset<T>(s: seq<T>, i: nat, j: nat)
    requires i < |s| && j < |s|
    ensures multiset(Swapped(s, i, j)) == multiset(s)
  {
  }

  lemma SwapRearranged<T>(s: seq<T>, i: nat, j: nat, lo: nat, hi: nat)
    requires lo <= i < hi <= |s| && lo <= j < hi
    ensures Rearranged(s, Swapped(s, i, j), lo, hi)
  {
    var r := Swapped(s, i, j);
    assert r[lo..hi] == Swapped(s[lo..hi], i - lo, j - lo);
    SwapMultiset(s[lo..hi], i - lo, j - lo);
  }

  lemma RearrangedTrans<T>(s: seq<T>, s': seq<T>, s'': seq<T>, lo: nat, hi: nat)
    requires Rearranged(s, s', lo, hi) && Rearranged(s', s'', lo, hi)
    ensures Rearranged(s, s'', lo, hi)
  {
  }

  lemma Cut<T>(s: seq<T>, lo: nat, from: nat, to: nat, hi: nat)
    requires lo <= from <= to <= hi <= |s|
    ensures s[lo..hi] == s[..from][lo..] + s[from..to] + s[to..][..hi - to]
  {
  }

  lemma RearrangedWider<T>(s: seq<T>, s': seq<T>, lo: nat, hi: nat, from: nat, to: nat)
    requires Rearranged(s, s', from, to) && lo <= from && to <= hi <= |s|
    ensures Rearranged(s, s', lo, hi)
  {
    Cut(s, lo, from, to, hi);
    Cut(s', lo, from, to, hi);
    assert s'[..lo] == s'[..from][..lo] && s[..lo] == s[..from][..lo];
    assert s'[hi..] == s'[to..][hi - to..] && s[hi..] == s[to..][hi - to..];
  }

  method Swap<T>(a: array<T>, i: nat, j: nat, ghost lo: nat, ghost hi: nat)
    requires lo <= i < hi <= a.Length && lo <= j < hi
    modifies a
    ensures a[..] == Swapped(old(a[..]), i, j) && Rearranged(old(a[..]), a[..], lo, hi)
  {
    SwapRearranged(a[..], i, j, lo, hi);
    a[i], a[j] := a[j], a[i];
  }

  // ---------------------------------------------------------------- insertion sort

  /** s[lo..k] is sorted but for the element at l, which belongs at or before l. */
  predicate SortedBut<T>(s: seq<T>, cmp: Compare<T>, lo: nat, k: nat, l: nat)
    requires lo <= l < k <= |s|
  {
    forall i, j :: lo <= i < j < k && j != l ==> cmp(s[i], s[j]) <= 0
  }

  lemma SiftStart<T(!new)>(s: seq<T>, cmp: Compare<T>, lo: nat, k: nat)
    requires lo < k < |s|
    ensures Sorted(s[lo..k], cmp) ==> SortedBut(s, cmp, lo, k + 1, k)
  {
    if Sorted(s[lo..k], cmp) {
      forall i, j | lo <= i < j < k ensures cmp(s[i], s[j]) <= 0 {
        assert s[lo..k][i - lo] == s[i] && s[lo..k][j - lo] == s[j];
      }
    }
  }

  method SiftOnce<T(!new)>(a: array<T>, cmp: Compare<T>, lo: nat, k: nat, l: nat, ghost hi: nat, ghost s: seq<T>)
    requires TotalPreorder(cmp) && lo < l < k <= hi <= a.Length && cmp(a[l - 1], a[l]) > 0
    requires Rearranged(s, a[..], lo, hi) && SortedBut(a[..], cmp, lo, k, l)
    modifies a
    ensures Rearranged(s, a[..], lo, hi) && SortedBut(a[..], cmp, lo, k, l - 1)
  {
    ghost var was := a[..];
    Swap(a, l, l - 1, lo, hi);
    RearrangedTrans(s, was, a[..], lo, hi);
    SiftStep(was, a[..], cmp, lo, k, l);
  }

  method SiftDown<T(!new)>(a: array<T>, cmp: Compare<T>, lo: nat, k: nat, ghost hi: nat)
    requires TotalPreorder(cmp) && lo < k < hi <= a.Length && Sorted(a[lo..k], cmp)
    modifies a
    ensures Sorted(a[lo..k + 1], cmp) && Rearranged(old(a[..]), a[..], lo, hi)
  {
    ghost var s := a[..];
    SiftStart(s, cmp, lo, k);
    assert a[lo..k] == s[lo..k];
    var l := k;
    while l > lo && cmp(a[l - 1], a[l]) > 0
      invariant lo <= l <= k
      invariant Rearranged(s, a[..], lo, hi)
      invariant SortedBut(a[..], cmp, lo, k + 1, l)
    {
      SiftOnce(a, cmp, lo, k + 1, l, hi, s);
      l := l - 1;
    }
    SiftDone(a[..], cmp, lo, k + 1, l);
    assert a[..][lo..k + 1] == a[lo..k + 1];
  }

  lemma SiftStep<T(!new)>(s: seq<T>, s': seq<T>, cmp: Compare<T>, lo: nat, k: nat, l: nat)
    requires TotalPreorder(cmp) && lo < l < k <= |s| && s' == Swapped(s, l, l - 1)
    requires SortedBut(s, cmp, lo, k, l) && cmp(s[l - 1], s[l]) > 0
    ensures SortedBut(s', cmp, lo, k, l - 1)
  {
    forall i, j | lo <= i < j < k && j != l - 1 ensures cmp(s'[i], s'[j]) <= 0 {
      if j == l {
        if i == l - 1 {
          Flip(cmp, s[l], s[l - 1]);
        }
      }
    }
  }

  lemma SiftDone<T(!new)>(s: seq<T>, cmp: Compare<T>, lo: nat, k: nat, l: nat)
    requires TotalPreorder(cmp) && lo <= l < k <= |s| && SortedBut(s, cmp, lo, k, l)
    requires l == lo || cmp(s[l - 1], s[l]) <= 0
    ensures Sorted(s[lo..k], cmp)
  {
    forall i, j | 0 <= i < j < k - lo ensures cmp(s[lo..k][i], s[lo..k][j]) <= 0 {
      var x, y := i + lo, j + lo;
      if y == l && x < l - 1 {
        Transitive(cmp, s[x], s[l - 1], s[l]);
      }
    }
  }

  method InsertionSort<T(!new)>(a: array<T>, cmp: Compare<T>, lo: nat, hi: nat)
    requires TotalPreorder(cmp) && lo <= hi <= a.Length
    modifies a
    ensures Sorted(a[lo..hi], cmp) && Rearranged(old(a[..]), a[..], lo, hi)
  {
    ghost var s := a[..];
    var k := lo + 1;
    while k < hi
      invariant lo < k && (k <= hi || hi <= lo + 1 == k)
      invariant Rearranged(s, a[..], lo, hi)
      invariant k <= a.Length ==> Sorted(a[lo..k], cmp)
    {
      ghost var was := a[..];
      SiftDown(a, cmp, lo, k, hi);
      RearrangedTrans(s, was, a[..], lo, hi);
      k := k + 1;
    }
  }

  // ---------------------------------------------------------------- the pivot

  /** `med3`: one of the three, with one of the others not above it and one not below it. */
  function Med3<T>(a: seq<T>, cmp: Compare<T>, i: nat, j: nat, k: nat): (m: nat)
    requires i < |a| && j < |a| && k < |a|
    ensures m == i || m == j || m == k
  {
    if cmp(a[i], a[j]) < 0 then
      if cmp(a[j], a[k]) < 0 then j else if cmp(a[i], a[k]) < 0 then k else i
    else
      if cmp(a[j], a[k]) > 0 then j else if cmp(a[i], a[k]) < 0 then i else k
  }

  predicate Splits<T>(s: seq<T>, cmp: Compare<T>, x: nat, m: nat, y: nat)
    requires x < |s| && m < |s| && y < |s|
  {
    cmp(s[x], s[m]) <= 0 && cmp(s[m], s[y]) <= 0
  }

  /** m is one of the three positions, and lies between the other two. */
  predicate Median<T>(s: seq<T>, cmp: Compare<T>, i: nat, j: nat, k: nat, m: nat)
    requires i < |s| && j < |s| && k < |s|
  {
    || (m == i && (Splits(s, cmp, j, m, k) || Splits(s, cmp, k, m, j)))
    || (m == j && (Splits(s, cmp, i, m, k) || Splits(s, cmp, k, m, i)))
    || (m == k && (Splits(s, cmp, i, m, j) || Splits(s, cmp, j, m, i)))
  }

  lemma Med3IsMedian<T(!new)>(a: seq<T>, cmp: Compare<T>, i: nat, j: nat, k: nat)
    requires TotalPreorder(cmp) && i < |a| && j < |a| && k < |a|
    ensures Median(a, cmp, i, j, k, Med3(a, cmp, i, j, k))
  {
    Flip(cmp, a[i], a[j]);
    Flip(cmp, a[j], a[k]);
    Flip(cmp, a[i], a[k]);
  }

  method PickMedian<T(!new)>(a: array<T>, cmp: Compare<T>, i: nat, j: nat, k: nat) returns (m: nat)
    requires TotalPreorder(cmp) && i < a.Length && j < a.Length && k < a.Length
    ensures Median(a[..], cmp, i, j, k, m)
  {
    Med3IsMedian(a[..], cmp, i, j, k);
    m := Med3(a[..], cmp, i, j, k);
  }

  /** Where the nine samples of more than 40 elements are: in groups of three, d apart. */
  predicate Samples(lo: nat, hi: nat, d: nat, mid: nat, last: nat) {
    && lo < lo + d < lo + 2 * d < mid - d < mid < mid + d < last - 2 * d < last - d < last < hi
    && d == (hi - lo) / 8 && mid == lo + (hi - lo) / 2 && last == hi - 1
  }

  lemma SamplesApart(lo: nat, hi: nat)
    requires lo + 40 < hi
    ensures Samples(lo, hi, (hi - lo) / 8, lo + (hi - lo) / 2, hi - 1)
  {
  }

  /** The median of each group is l, c and r, and m is the median of those. */
  predicate Ninther<T>(s: seq<T>, cmp: Compare<T>, lo: nat, d: nat, mid: nat, last: nat, l: nat, c: nat, r: nat, m: nat)
    requires lo + 2 * d < |s| && d <= mid && mid + d < |s| && 2 * d <= last < |s|
    requires l < |s| && c < |s| && r < |s|
  {
    && Median(s, cmp, lo, lo + d, lo + 2 * d, l)
    && Median(s, cmp, mid - d, mid, mid + d, c)
    && Median(s, cmp, last - 2 * d, last - d, last, r)
    && Median(s, cmp, l, c, r, m)
  }

  /** The middle element, the median of three, or the median of three medians. */
  method ChoosePivot<T(!new)>(a: array<T>, cmp: Compare<T>, lo: nat, hi: nat)
    returns (m: nat, ghost l: nat, ghost c: nat, ghost r: nat)
    requires TotalPreorder(cmp) && lo + 7 <= hi <= a.Length
    ensures lo <= m < hi && l < hi && c < hi && r < hi
    ensures hi - lo == 7 ==> m == lo + 3
    ensures 7 < hi - lo <= 40 ==> Median(a[..], cmp, lo, lo + (hi - lo) / 2, hi - 1, m)
    ensures 40 < hi - lo ==>
      var d, mid, last := (hi - lo) / 8, lo + (hi - lo) / 2, hi - 1;
      Samples(lo, hi, d, mid, last) && Ninther(a[..], cmp, lo, d, mid, last, l, c, r, m)
  {
    var n := hi - lo;
    m := lo + n / 2;
    l, c, r := lo, m, hi - 1;
    if n > 40 {
      m, l, c, r := PickFromNine(a, cmp, lo, hi, n / 8, m, hi - 1);
    } else if n > 7 {
      m := PickMedian(a, cmp, lo, m, hi - 1);
    }
  }

  method PickFromNine<T(!new)>(a: array<T>, cmp: Compare<T>, lo: nat, hi: nat, d: nat, mid: nat, last: nat)
    returns (m: nat, ghost l: nat, ghost c: nat, ghost r: nat)
    requires TotalPreorder(cmp) && lo + 40 < hi <= a.Length
    requires d == (hi - lo) / 8 && mid == lo + (hi - lo) / 2 && last == hi - 1
    ensures lo <= m < hi && l < hi && c < hi && r < hi
    ensures Samples(lo, hi, d, mid, last) && Ninther(a[..], cmp, lo, d, mid, last, l, c, r, m)
  {
    SamplesApart(lo, hi);
    m, l, c, r := PickNinther(a, cmp, lo, d, mid, last);
  }

  /** The branch for more than 40 elements. */
  method PickNinther<T(!new)>(a: array<T>, cmp: Compare<T>, lo: nat, d: nat, mid: nat, last: nat)
    returns (m: nat, ghost l: nat, ghost c: nat, ghost r: nat)
    requires TotalPreorder(cmp) && lo + 2 * d < mid && d <= mid && mid + d + 2 * d < last < a.Length
    ensures lo <= m <= last && l <= last && c <= last && r <= last
    ensures Ninther(a[..], cmp, lo, d, mid, last, l, c, r, m)
  {
    var pl := PickMedian(a, cmp, lo, lo + d, lo + 2 * d);
    var pm := PickMedian(a, cmp, mid - d, mid, mid + d);
    var pn := PickMedian(a, cmp, last - 2 * d, last - d, last);
    m := PickMedian(a, cmp, pl, pm, pn);
    l, c, r := pl, pm, pn;
  }

  /** The two other positions, in order. */
  lemma Beside<T>(s: seq<T>, cmp: Compare<T>, i: nat, j: nat, k: nat, m: nat) returns (x: nat, y: nat)
    requires i < |s| && j < |s| && k < |s| && i < j < k && Median(s, cmp, i, j, k, m)
    ensures x < |s| && y < |s| && m < |s| && Splits(s, cmp, x, m, y)
    ensures i <= x <= k && i <= y <= k && i <= m <= k && x != m && y != m && x != y
    ensures (x == i || x == j || x == k) && (y == i || y == j || y == k) && (m == i || m == j || m == k)
  {
    if m == i {
      x, y := if Splits(s, cmp, j, m, k) then j else k, if Splits(s, cmp, j, m, k) then k else j;
    } else if m == j {
      x, y := if Splits(s, cmp, i, m, k) then i else k, if Splits(s, cmp, i, m, k) then k else i;
    } else {
      x, y := if Splits(s, cmp, i, m, j) then i else j, if Splits(s, cmp, i, m, j) then j else i;
    }
  }

  /** Three other elements that are not above the one at m. */
  predicate ThreeBelow<T>(s: seq<T>, cmp: Compare<T>, m: nat, q: seq<nat>)
    requires m < |s|
  {
    && |q| == 3 && q[0] != q[1] && q[0] != q[2] && q[1] != q[2]
    && forall i :: 0 <= i < 3 ==> q[i] < |s| && q[i] != m && cmp(s[q[i]], s[m]) <= 0
  }

  predicate ThreeAbove<T>(s: seq<T>, cmp: Compare<T>, m: nat, q: seq<nat>)
    requires m < |s|
  {
    && |q| == 3 && q[0] != q[1] && q[0] != q[2] && q[1] != q[2]
    && forall i :: 0 <= i < 3 ==> q[i] < |s| && q[i] != m && cmp(s[m], s[q[i]]) <= 0
  }

  /** For more than 40 elements at least three others are not above the pivot and three others not below it. */
  lemma NintherSplits<T(!new)>(s: seq<T>, cmp: Compare<T>, lo: nat, hi: nat, d: nat, mid: nat, last: nat,
                               l: nat, c: nat, r: nat, m: nat)
    returns (below: seq<nat>, above: seq<nat>)
    requires TotalPreorder(cmp) && Samples(lo, hi, d, mid, last) && hi <= |s| && l < |s| && c < |s| && r < |s|
    requires Ninther(s, cmp, lo, d, mid, last, l, c, r, m)
    ensures m < |s| && ThreeBelow(s, cmp, m, below) && ThreeAbove(s, cmp, m, above)
  {
    var xl, yl := Beside(s, cmp, lo, lo + d, lo + 2 * d, l);
    var xc, yc := Beside(s, cmp, mid - d, mid, mid + d, c);
    var xr, yr := Beside(s, cmp, last - 2 * d, last - d, last, r);
    below, above := NineSplit(s, cmp, l, xl, yl, c, xc, yc, r, xr, yr, m, mid - d, last - 2 * d);
  }

  /** Three groups, one after the other. */
  lemma NineSplit<T(!new)>(s: seq<T>, cmp: Compare<T>, l: nat, xl: nat, yl: nat, c: nat, xc: nat, yc: nat,
                           r: nat, xr: nat, yr: nat, m: nat, p: nat, q: nat)
    returns (below: seq<nat>, above: seq<nat>)
    requires TotalPreorder(cmp) && l < p && xl < p && yl < p && p <= c < q && p <= xc < q && p <= yc < q
    requires q <= r < |s| && q <= xr < |s| && q <= yr < |s| && q <= |s|
    requires xl != l && yl != l && xc != c && yc != c && xr != r && yr != r
    requires Splits(s, cmp, xl, l, yl) && Splits(s, cmp, xc, c, yc) && Splits(s, cmp, xr, r, yr)
    requires Median(s, cmp, l, c, r, m)
    ensures m < |s| && ThreeBelow(s, cmp, m, below) && ThreeAbove(s, cmp, m, above)
  {
    var x, y := Beside(s, cmp, l, c, r, m);
    if m == l {
      below, above := Assemble(s, cmp, m, xl, yl, x, if x == c then xc else xr, y, if y == c then yc else yr);
    } else if m == c {
      below, above := Assemble(s, cmp, m, xc, yc, x, if x == l then xl else xr, y, if y == l then yl else yr);
    } else {
      below, above := Assemble(s, cmp, m, xr, yr, x, if x == l then xl else xc, y, if y == l then yl else yc);
    }
  }

  lemma Assemble<T(!new)>(s: seq<T>, cmp: Compare<T>, m: nat, xm: nat, ym: nat, x: nat, x': nat, y: nat, y': nat)
    returns (below: seq<nat>, above: seq<nat>)
    requires TotalPreorder(cmp) && m < |s| && xm < |s| && ym < |s| && x < |s| && x' < |s| && y < |s| && y' < |s|
    requires Splits(s, cmp, xm, m, ym) && Splits(s, cmp, x, m, y)
    requires cmp(s[x'], s[x]) <= 0 && cmp(s[y], s[y']) <= 0
    requires xm != m && xm != x && xm != x' && x != m && x != x' && x' != m
    requires ym != m && ym != y && ym != y' && y != m && y != y' && y' != m
    ensures ThreeBelow(s, cmp, m, below) && ThreeAbove(s, cmp, m, above)
  {
    Transitive(cmp, s[x'], s[x], s[m]);
    Transitive(cmp, s[m], s[y], s[y']);
    below, above := [xm, x, x'], [ym, y, y'];
  }

  // ---------------------------------------------------------------- the partition

  /** The four pointers of the partition, as positions. */
  datatype Zone = Zone(pa: int, pb: int, pc: int, pd: int)

  /** Equal to the pivot, below it, not yet looked at, above it, equal to it. */
  predicate InZone<T>(x: T, v: T, cmp: Compare<T>, k: int, z: Zone) {
    if k < z.pa || z.pd < k then cmp(x, v) == 0
    else if k < z.pb then cmp(x, v) < 0
    else if z.pc < k then cmp(x, v) > 0
    else true
  }

  ghost predicate Zoned<T>(s: seq<T>, cmp: Compare<T>, lo: nat, hi: nat, v: T, z: Zone) {
    && lo < z.pa <= z.pb <= z.pc + 1 && z.pc <= z.pd < hi <= |s| && s[lo] == v
    && forall k :: lo <= k < hi ==> InZone(s[k], v, cmp, k, z)
  }

  lemma ZonedStart<T(!new)>(s: seq<T>, cmp: Compare<T>, lo: nat, hi: nat)
    requires TotalPreorder(cmp) && lo + 1 < hi <= |s|
    ensures Zoned(s, cmp, lo, hi, s[lo], Zone(lo + 1, lo + 1, hi - 1, hi - 1))
  {
    Flip(cmp, s[lo], s[lo]);
  }

  lemma LeftLess<T>(s: seq<T>, cmp: Compare<T>, lo: nat, hi: nat, v: T, z: Zone)
    requires Zoned(s, cmp, lo, hi, v, z) && z.pb <= z.pc && cmp(s[z.pb], v) < 0
    ensures Zoned(s, cmp, lo, hi, v, z.(pb := z.pb + 1))
  {
  }

  lemma LeftEqual<T>(s: seq<T>, cmp: Compare<T>, lo: nat, hi: nat, v: T, z: Zone)
    requires Zoned(s, cmp, lo, hi, v, z) && z.pb <= z.pc && cmp(s[z.pb], v) == 0
    ensures Zoned(Swapped(s, z.pa, z.pb), cmp, lo, hi, v, z.(pa := z.pa + 1, pb := z.pb + 1))
  {
    assert InZone(s[z.pa], v, cmp, z.pa, z);
  }

  lemma RightGreater<T>(s: seq<T>, cmp: Compare<T>, lo: nat, hi: nat, v: T, z: Zone)
    requires Zoned(s, cmp, lo, hi, v, z) && z.pb <= z.pc && cmp(s[z.pc], v) > 0
    ensures Zoned(s, cmp, lo, hi, v, z.(pc := z.pc - 1))
  {
  }

  lemma RightEqual<T>(s: seq<T>, cmp: Compare<T>, lo: nat, hi: nat, v: T, z: Zone)
    requires Zoned(s, cmp, lo, hi, v, z) && z.pb <= z.pc && cmp(s[z.pc], v) == 0
    ensures Zoned(Swapped(s, z.pc, z.pd), cmp, lo, hi, v, z.(pc := z.pc - 1, pd := z.pd - 1))
  {
    assert InZone(s[z.pd], v, cmp, z.pd, z);
  }

  lemma BothSwap<T>(s: seq<T>, cmp: Compare<T>, lo: nat, hi: nat, v: T, z: Zone)
    requires Zoned(s, cmp, lo, hi, v, z) && z.pb < z.pc && cmp(s[z.pb], v) > 0 && cmp(s[z.pc], v) < 0
    ensures Zoned(Swapped(s, z.pb, z.pc), cmp, lo, hi, v, z.(pb := z.pb + 1, pc := z.pc - 1))
  {
  }

  /** The first inner loop: pb runs over elements not above the pivot. */
  method ScanLeft<T(!new)>(a: array<T>, cmp: Compare<T>, lo: nat, hi: nat, z: Zone, ghost v: T, ghost s: seq<T>)
    returns (z': Zone, swapped: bool)
    requires hi <= a.Length && Zoned(a[..], cmp, lo, hi, v, z) && Rearranged(s, a[..], lo, hi)
    modifies a
    ensures Zoned(a[..], cmp, lo, hi, v, z') && Rearranged(s, a[..], lo, hi)
    ensures z'.pc == z.pc && z'.pd == z.pd && z.pb <= z'.pb && (z'.pb <= z'.pc ==> cmp(a[z'.pb], v) > 0)
    ensures !swapped ==> a[..] == old(a[..])
  {
    z', swapped := z, false;
    while z'.pb <= z'.pc && cmp(a[z'.pb], a[lo]) <= 0
      invariant Zoned(a[..], cmp, lo, hi, v, z') && Rearranged(s, a[..], lo, hi)
      invariant z'.pc == z.pc && z'.pd == z.pd && z.pb <= z'.pb
      invariant !swapped ==> a[..] == old(a[..])
      decreases z'.pc - z'.pb
    {
      var moved;
      z', moved := StepLeft(a, cmp, lo, hi, z', v, s);
      swapped := swapped || moved;
    }
  }

  method StepLeft<T(!new)>(a: array<T>, cmp: Compare<T>, lo: nat, hi: nat, z: Zone, ghost v: T, ghost s: seq<T>)
    returns (z': Zone, swapped: bool)
    requires hi <= a.Length && Zoned(a[..], cmp, lo, hi, v, z) && Rearranged(s, a[..], lo, hi)
    requires z.pb <= z.pc && cmp(a[z.pb], v) <= 0
    modifies a
    ensures Zoned(a[..], cmp, lo, hi, v, z') && Rearranged(s, a[..], lo, hi)
    ensures z'.pc == z.pc && z'.pd == z.pd && z'.pb == z.pb + 1
    ensures !swapped ==> a[..] == old(a[..])
  {
    ghost var was := a[..];
    if cmp(a[z.pb], a[lo]) == 0 {
      LeftEqual(was, cmp, lo, hi, v, z);
      Swap(a, z.pa, z.pb, lo, hi);
      RearrangedTrans(s, was, a[..], lo, hi);
      return z.(pa := z.pa + 1, pb := z.pb + 1), true;
    }
    LeftLess(was, cmp, lo, hi, v, z);
    return z.(pb := z.pb + 1), false;
  }

  method StepRight<T(!new)>(a: array<T>, cmp: Compare<T>, lo: nat, hi: nat, z: Zone, ghost v: T, ghost s: seq<T>)
    returns (z': Zone, swapped: bool)
    requires hi <= a.Length && Zoned(a[..], cmp, lo, hi, v, z) && Rearranged(s, a[..], lo, hi)
    requires z.pb <= z.pc && cmp(a[z.pc], v) >= 0
    modifies a
    ensures Zoned(a[..], cmp, lo, hi, v, z') && Rearranged(s, a[..], lo, hi)
    ensures z'.pa == z.pa && z'.pb == z.pb && z'.pc == z.pc - 1
    ensures forall k :: lo <= k < z.pc ==> a[k] == old(a[k])
    ensures !swapped ==> a[..] == old(a[..])
  {
    ghost var was := a[..];
    if cmp(a[z.pc], a[lo]) == 0 {
      RightEqual(was, cmp, lo, hi, v, z);
      Swap(a, z.pc, z.pd, lo, hi);
      RearrangedTrans(s, was, a[..], lo, hi);
      return z.(pc := z.pc - 1, pd := z.pd - 1), true;
    }
    RightGreater(was, cmp, lo, hi, v, z);
    return z.(pc := z.pc - 1), false;
  }

  /** The second inner loop: pc runs down over elements not below the pivot. */
  method ScanRight<T(!new)>(a: array<T>, cmp: Compare<T>, lo: nat, hi: nat, z: Zone, ghost v: T, ghost s: seq<T>)
    returns (z': Zone, swapped: bool)
    requires hi <= a.Length && Zoned(a[..], cmp, lo, hi, v, z) && Rearranged(s, a[..], lo, hi)
    requires z.pb <= z.pc ==> cmp(a[z.pb], v) > 0
    modifies a
    ensures Zoned(a[..], cmp, lo, hi, v, z') && Rearranged(s, a[..], lo, hi)
    ensures z'.pa == z.pa && z'.pb == z.pb && z'.pc <= z.pc
    ensures z'.pb <= z'.pc ==> cmp(a[z'.pb], v) > 0 && cmp(a[z'.pc], v) < 0
    ensures !swapped ==> a[..] == old(a[..])
  {
    z', swapped := z, false;
    while z'.pb <= z'.pc && cmp(a[z'.pc], a[lo]) >= 0
      invariant Zoned(a[..], cmp, lo, hi, v, z') && Rearranged(s, a[..], lo, hi)
      invariant z'.pa == z.pa && z'.pb == z.pb && z'.pc <= z.pc
      invariant z'.pb <= z'.pc ==> cmp(a[z'.pb], v) > 0
      invariant !swapped ==> a[..] == old(a[..])
      decreases z'.pc - z'.pb
    {
      var moved;
      z', moved := StepRight(a, cmp, lo, hi, z', v, s);
      swapped := swapped || moved;
    }
  }

  /** The outer loop. */
  method Partition<T(!new)>(a: array<T>, cmp: Compare<T>, lo: nat, hi: nat) returns (z: Zone, swapped: bool)
    requires TotalPreorder(cmp) && lo + 1 < hi <= a.Length
    modifies a
    ensures Zoned(a[..], cmp, lo, hi, old(a[lo]), z) && z.pb == z.pc + 1 && Rearranged(old(a[..]), a[..], lo, hi)
    ensures !swapped ==> a[..] == old(a[..])
  {
    ghost var s, v := a[..], a[lo];
    z, swapped := Zone(lo + 1, lo + 1, hi - 1, hi - 1), false;
    ZonedStart(s, cmp, lo, hi);
    var more := true;
    while more
      invariant Zoned(a[..], cmp, lo, hi, v, z) && Rearranged(s, a[..], lo, hi)
      invariant !more ==> z.pb == z.pc + 1
      invariant !swapped ==> a[..] == s
      decreases more, z.pc - z.pb + 1
    {
      var z0, left, right := z, false, false;
      z, left := ScanLeft(a, cmp, lo, hi, z, v, s);
      z, right := ScanRight(a, cmp, lo, hi, z, v, s);
      swapped := swapped || left || right;
      if z.pb > z.pc {
        more := false;
      } else {
        z := SwapBoth(a, cmp, lo, hi, z, v, s);
        swapped := true;
      }
    }
  }

  method SwapBoth<T(!new)>(a: array<T>, cmp: Compare<T>, lo: nat, hi: nat, z: Zone, ghost v: T, ghost s: seq<T>)
    returns (z': Zone)
    requires hi <= a.Length && Zoned(a[..], cmp, lo, hi, v, z) && Rearranged(s, a[..], lo, hi)
    requires z.pb <= z.pc && cmp(a[z.pb], v) > 0 && cmp(a[z.pc], v) < 0
    modifies a
    ensures Zoned(a[..], cmp, lo, hi, v, z') && Rearranged(s, a[..], lo, hi)
    ensures z' == z.(pb := z.pb + 1, pc := z.pc - 1)
  {
    ghost var was := a[..];
    assert z.pb != z.pc;
    BothSwap(was, cmp, lo, hi, v, z);
    Swap(a, z.pb, z.pc, lo, hi);
    RearrangedTrans(s, was, a[..], lo, hi);
    z' := z.(pb := z.pb + 1, pc := z.pc - 1);
  }

  // ---------------------------------------------------------------- bringing the equal elements to the middle

  /** Where the element at k comes from when n elements at i and at j change places. */
  function Partner(i: nat, j: nat, n: nat, k: nat): int {
    if i <= k < i + n then k - i + j else if j <= k < j + n then k - j + i else k
  }

  function VecSwapped<T>(s: seq<T>, i: nat, j: nat, n: nat): (r: seq<T>)
    requires i + n <= j && j + n <= |s|
    ensures |r| == |s| && forall k :: 0 <= k < |s| ==> r[k] == s[Partner(i, j, n, k)]
  {
    seq(|s|, k requires 0 <= k < |s| => s[Partner(i, j, n, k)])
  }

  lemma PiecesRearranged<T>(a: seq<T>, b: seq<T>, c: seq<T>, d: seq<T>, e: seq<T>)
    ensures |b| == |d| ==> Rearranged(a + b + c + d + e, a + d + c + b + e, |a|, |a + b + c + d|)
  {
    var s, r := a + b + c + d + e, a + d + c + b + e;
    if |b| == |d| {
      assert s[|a|..|a + b + c + d|] == b + c + d;
      assert r[|a|..|a + b + c + d|] == d + c + b;
      assert s[..|a|] == a == r[..|a|];
      assert s[|a + b + c + d|..] == e == r[|a + b + c + d|..];
    }
  }

  lemma VecSwapRearranged<T>(s: seq<T>, i: nat, j: nat, n: nat, lo: nat, hi: nat)
    requires lo <= i && i + n <= j && j + n <= hi <= |s|
    ensures Rearranged(s, VecSwapped(s, i, j, n), lo, hi)
  {
    PiecesRearranged(s[..i], s[i..i + n], s[i + n..j], s[j..j + n], s[j + n..]);
    assert s == s[..i] + s[i..i + n] + s[i + n..j] + s[j..j + n] + s[j + n..];
    assert VecSwapped(s, i, j, n) == s[..i] + s[j..j + n] + s[i + n..j] + s[i..i + n] + s[j + n..];
    RearrangedWider(s, VecSwapped(s, i, j, n), lo, hi, i, j + n);
  }

  method VecSwapLoop<T>(a: array<T>, i: nat, j: nat, n: nat)
    requires i + n <= j && j + n <= a.Length
    modifies a
    ensures forall k :: 0 <= k < a.Length ==> a[k] == old(a[Partner(i, j, n, k)])
  {
    ghost var s, d := a[..], j - i;
    for t := 0 to n
      invariant forall k :: i <= k < i + t ==> a[k] == s[k + d]
      invariant forall k :: j <= k < j + t ==> a[k] == s[k - d]
      invariant forall k :: 0 <= k < a.Length && !(i <= k < i + t) && !(j <= k < j + t) ==> a[k] == s[k]
    {
      a[i + t], a[j + t] := a[j + t], a[i + t];
    }
  }

  /** `vecswap` */
  method VecSwap<T>(a: array<T>, i: nat, j: nat, n: nat, ghost lo: nat, ghost hi: nat)
    requires lo <= i && i + n <= j && j + n <= hi <= a.Length
    modifies a
    ensures a[..] == VecSwapped(old(a[..]), i, j, n) && Rearranged(old(a[..]), a[..], lo, hi)
  {
    VecSwapRearranged(a[..], i, j, n, lo, hi);
    ghost var fin := VecSwapped(a[..], i, j, n);
    VecSwapLoop(a, i, j, n);
    assert a[..] == fin;
  }

  /** Below the pivot, equal to it, above it. */
  predicate InThird<T>(x: T, v: T, cmp: Compare<T>, k: int, left: int, right: int) {
    if k < left then cmp(x, v) < 0 else if k < right then cmp(x, v) == 0 else cmp(x, v) > 0
  }

  ghost predicate Three<T>(s: seq<T>, cmp: Compare<T>, lo: nat, hi: nat, v: T, left: int, right: int) {
    && lo <= left < right <= hi <= |s|
    && forall k :: lo <= k < hi ==> InThird(s[k], v, cmp, k, left, right)
  }

  function Min(x: int, y: int): int {
    if x < y then x else y
  }

  /** After the first vecswap the elements below the pivot come first. */
  lemma GatherLeft<T>(s: seq<T>, s1: seq<T>, cmp: Compare<T>, lo: nat, hi: nat, v: T, z: Zone, r: nat, k: int)
    requires Zoned(s, cmp, lo, hi, v, z) && z.pb == z.pc + 1 && lo <= k < z.pb
    requires r == Min(z.pa - lo, z.pb - z.pa) && s1 == VecSwapped(s, lo, z.pb - r, r)
    ensures |s1| == |s|
    ensures if k < lo + (z.pb - z.pa) then cmp(s1[k], v) < 0 else cmp(s1[k], v) == 0
  {
    var k' := Partner(lo, z.pb - r, r, k);
    assert InZone(s[k'], v, cmp, k', z);
  }

  /** The second vecswap brings the elements above it to the end. */
  lemma GatherRight<T>(s: seq<T>, s1: seq<T>, s2: seq<T>, cmp: Compare<T>, lo: nat, hi: nat, v: T, z: Zone, r: nat,
                       q: nat, k: int)
    requires Zoned(s, cmp, lo, hi, v, z) && z.pb == z.pc + 1 && z.pb <= k < hi
    requires r == Min(z.pa - lo, z.pb - z.pa) && q == Min(z.pd - z.pc, hi - 1 - z.pd)
    requires s1 == VecSwapped(s, lo, z.pb - r, r) && s2 == VecSwapped(s1, z.pb, hi - q, q)
    ensures |s2| == |s|
    ensures if k < hi - (z.pd - z.pc) then cmp(s2[k], v) == 0 else cmp(s2[k], v) > 0
  {
    var k' := Partner(z.pb, hi - q, q, k);
    assert s1[k'] == s[k'];
    assert InZone(s[k'], v, cmp, k', z);
  }

  lemma Gathered<T>(s: seq<T>, s1: seq<T>, s2: seq<T>, cmp: Compare<T>, lo: nat, hi: nat, v: T, z: Zone, r: nat, q: nat)
    requires Zoned(s, cmp, lo, hi, v, z) && z.pb == z.pc + 1
    requires r == Min(z.pa - lo, z.pb - z.pa) && q == Min(z.pd - z.pc, hi - 1 - z.pd)
    requires s1 == VecSwapped(s, lo, z.pb - r, r) && s2 == VecSwapped(s1, z.pb, hi - q, q)
    ensures Three(s2, cmp, lo, hi, v, lo + (z.pb - z.pa), hi - (z.pd - z.pc))
  {
    forall k | lo <= k < hi ensures InThird(s2[k], v, cmp, k, lo + (z.pb - z.pa), hi - (z.pd - z.pc)) {
      if k < z.pb {
        GatherLeft(s, s1, cmp, lo, hi, v, z, r, k);
        assert s2[k] == s1[k];
      } else {
        GatherRight(s, s1, s2, cmp, lo, hi, v, z, r, q, k);
      }
    }
  }

  /** The two vecswaps. */
  method Gather<T(!new)>(a: array<T>, cmp: Compare<T>, lo: nat, hi: nat, z: Zone, ghost v: T)
    requires hi <= a.Length && Zoned(a[..], cmp, lo, hi, v, z) && z.pb == z.pc + 1
    modifies a
    ensures Three(a[..], cmp, lo, hi, v, lo + (z.pb - z.pa), hi - (z.pd - z.pc))
    ensures Rearranged(old(a[..]), a[..], lo, hi)
  {
    ghost var s := a[..];
    var r := Min(z.pa - lo, z.pb - z.pa);
    VecSwap(a, lo, z.pb - r, r, lo, hi);
    ghost var s1 := a[..];
    var q := Min(z.pd - z.pc, hi - 1 - z.pd);
    VecSwap(a, z.pb, hi - q, q, lo, hi);
    RearrangedTrans(s, s1, a[..], lo, hi);
    Gathered(s, s1, a[..], cmp, lo, hi, v, z, r, q);
  }

  // ---------------------------------------------------------------- the sort

  /** Sorted up to mid, and nothing before mid is above anything after it. */
  ghost predicate Prefix<T>(s: seq<T>, cmp: Compare<T>, lo: nat, mid: nat, hi: nat) {
    && lo <= mid <= hi <= |s| && Sorted(s[lo..mid], cmp)
    && forall i, j :: lo <= i < mid <= j < hi ==> cmp(s[i], s[j]) <= 0
  }

  /** Rearranging one third keeps it one third. */
  lemma ThirdKept<T>(s: seq<T>, s': seq<T>, cmp: Compare<T>, lo: nat, hi: nat, v: T, left: nat, right: nat)
    requires Three(s, cmp, lo, hi, v, left, right) && Rearranged(s, s', lo, left)
    ensures Three(s', cmp, lo, hi, v, left, right)
  {
    forall k | lo <= k < hi ensures InThird(s'[k], v, cmp, k, left, right) {
      if k < left {
        assert s'[lo..left][k - lo] in multiset(s'[lo..left]);
        assert s'[k] in multiset(s[lo..left]);
        var i :| 0 <= i < |s[lo..left]| && s[lo..left][i] == s'[k];
        assert InThird(s[lo + i], v, cmp, lo + i, left, right);
      } else {
        assert s'[left..][k - left] == s[left..][k - left];
        assert InThird(s[k], v, cmp, k, left, right);
      }
    }
  }

  lemma ThreeOrder<T(!new)>(s: seq<T>, cmp: Compare<T>, lo: nat, hi: nat, v: T, left: nat, right: nat, i: nat, j: nat)
    requires TotalPreorder(cmp) && Three(s, cmp, lo, hi, v, left, right) && lo <= i < j < hi && left <= j && i < right
    ensures cmp(s[i], s[j]) <= 0
  {
    assert InThird(s[i], v, cmp, i, left, right) && InThird(s[j], v, cmp, j, left, right);
    Flip(cmp, s[j], v);
    Transitive(cmp, s[i], v, s[j]);
  }

  lemma SortedPrefix<T(!new)>(s: seq<T>, cmp: Compare<T>, lo: nat, hi: nat, v: T, left: nat, right: nat)
    requires TotalPreorder(cmp) && Three(s, cmp, lo, hi, v, left, right) && Sorted(s[lo..left], cmp)
    ensures Prefix(s, cmp, lo, right, hi)
  {
    forall i, j | 0 <= i < j < right - lo ensures cmp(s[lo..right][i], s[lo..right][j]) <= 0 {
      if lo + j < left {
        assert s[lo..left][i] == s[lo + i] && s[lo..left][j] == s[lo + j];
      } else {
        ThreeOrder(s, cmp, lo, hi, v, left, right, lo + i, lo + j);
      }
    }
    forall i, j | lo <= i < right <= j < hi ensures cmp(s[i], s[j]) <= 0 {
      ThreeOrder(s, cmp, lo, hi, v, left, right, i, j);
    }
  }

  /** Partition around the pivot and sort what is below it; false if the partition moved nothing. */
  method Pass<T(!new)>(a: array<T>, cmp: Compare<T>, lo: nat, hi: nat) returns (mid: nat, moved: bool)
    requires TotalPreorder(cmp) && lo + 7 <= hi <= a.Length
    modifies a
    ensures Rearranged(old(a[..]), a[..], lo, hi)
    ensures moved ==> lo < mid <= hi && Prefix(a[..], cmp, lo, mid, hi)
    decreases hi - lo, 0
  {
    ghost var s := a[..];
    ghost var l, c, r;
    var m;
    m, l, c, r := ChoosePivot(a, cmp, lo, hi);
    Swap(a, lo, m, lo, hi);
    ghost var s1, v := a[..], a[lo];
    var z;
    z, moved := Partition(a, cmp, lo, hi);
    ghost var s2 := a[..];
    RearrangedTrans(s, s1, s2, lo, hi);
    mid := hi;
    if moved {
      Gather(a, cmp, lo, hi, z, v);
      RearrangedTrans(s, s2, a[..], lo, hi);
      mid := SortLeft(a, cmp, lo, hi, lo + (z.pb - z.pa), hi - (z.pd - z.pc), v, s);
    }
  }

  method SortLeft<T(!new)>(a: array<T>, cmp: Compare<T>, lo: nat, hi: nat, left: nat, right: nat, ghost v: T,
                           ghost s: seq<T>)
    returns (mid: nat)
    requires TotalPreorder(cmp) && hi <= a.Length && Three(a[..], cmp, lo, hi, v, left, right)
    requires Rearranged(s, a[..], lo, hi)
    modifies a
    ensures mid == right && Prefix(a[..], cmp, lo, mid, hi) && Rearranged(s, a[..], lo, hi)
    decreases left - lo, 2
  {
    ghost var s3 := a[..];
    if left - lo > 1 {
      Qsort(a, cmp, lo, left);
      ThirdKept(s3, a[..], cmp, lo, hi, v, left, right);
      RearrangedWider(s3, a[..], lo, hi, lo, left);
      RearrangedTrans(s, s3, a[..], lo, hi);
    }
    assert a[..][lo..left] == a[lo..left];
    SortedPrefix(a[..], cmp, lo, hi, v, left, right);
    mid := right;
  }

  /** Extending the sorted prefix by a sorted prefix of the rest. */
  lemma PrefixMore<T>(s: seq<T>, s': seq<T>, cmp: Compare<T>, lo: nat, mid: nat, mid': nat, hi: nat)
    requires Prefix(s, cmp, lo, mid, hi) && Rearranged(s, s', mid, hi) && Prefix(s', cmp, mid, mid', hi)
    ensures Prefix(s', cmp, lo, mid', hi)
  {
    forall i, j | lo <= i < mid <= j < hi ensures cmp(s'[i], s'[j]) <= 0 {
      assert s'[..mid][i] == s[..mid][i];
      assert s'[mid..hi][j - mid] == s'[j];
      assert s'[j] in multiset(s'[mid..hi]);
      assert s'[j] in multiset(s[mid..hi]);
      var k :| 0 <= k < |s[mid..hi]| && s[mid..hi][k] == s'[j];
      assert s[mid + k] == s'[j];
    }
    forall i, j | 0 <= i < j < mid' - lo ensures cmp(s'[lo..mid'][i], s'[lo..mid'][j]) <= 0 {
      var x, y := lo + i, lo + j;
      if y < mid {
        assert s'[..mid][x] == s[..mid][x] && s'[..mid][y] == s[..mid][y];
        assert s[lo..mid][i] == s[x] && s[lo..mid][j] == s[y];
      } else if mid <= x {
        assert s'[mid..mid'][x - mid] == s'[x] && s'[mid..mid'][y - mid] == s'[y];
      }
    }
  }

  /** `qsort`: a sorted rearrangement, for every length and every total preorder. */
  method Qsort<T(!new)>(a: array<T>, cmp: Compare<T>, lo: nat, hi: nat)
    requires TotalPreorder(cmp) && lo <= hi <= a.Length
    modifies a
    ensures Sorted(a[lo..hi], cmp) && Rearranged(old(a[..]), a[..], lo, hi)
    decreases hi - lo, 1
  {
    ghost var s := a[..];
    var from := lo;
    while hi - from >= 7
      invariant lo <= from <= hi
      invariant Prefix(a[..], cmp, lo, from, hi) && Rearranged(s, a[..], lo, hi)
      decreases hi - from
    {
      ghost var was := a[..];
      var mid, moved := Pass(a, cmp, from, hi);
      RearrangedWider(was, a[..], lo, hi, from, hi);
      RearrangedTrans(s, was, a[..], lo, hi);
      if !moved {
        Finish(a, cmp, lo, from, hi, was, s);
        return;
      }
      PrefixMore(was, a[..], cmp, lo, from, mid, hi);
      from := mid;
    }
    Finish(a, cmp, lo, from, hi, a[..], s);
  }

  /** Insertion sort of what is left: short, or a partition that moved nothing. */
  method Finish<T(!new)>(a: array<T>, cmp: Compare<T>, lo: nat, from: nat, hi: nat, ghost was: seq<T>, ghost s: seq<T>)
    requires TotalPreorder(cmp) && lo <= from <= hi <= a.Length
    requires Prefix(was, cmp, lo, from, hi) && Rearranged(was, a[..], from, hi) && Rearranged(s, a[..], lo, hi)
    modifies a
    ensures Sorted(a[lo..hi], cmp) && Rearranged(s, a[..], lo, hi)
  {
    ghost var mid := a[..];
    InsertionSort(a, cmp, from, hi);
    RearrangedTrans(was, mid, a[..], from, hi);
    RearrangedWider(mid, a[..], lo, hi, from, hi);
    RearrangedTrans(s, mid, a[..], lo, hi);
    assert a[..][from..hi] == a[from..hi];
    PrefixMore(was, a[..], cmp, lo, from, hi, hi);
    assert a[..][lo..hi] == a[lo..hi];
  }
}
