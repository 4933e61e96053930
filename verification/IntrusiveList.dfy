/** The circular doubly linked lists of kern/list/list.c, whose links are embedded in other structures. */
module IntrusiveList {
  /** list_head: a head without entries points to itself. */
  class Link {
    var next: Link
    var prev: Link

    /** `init_head` */
    constructor ()
      ensures Ring([this])
    {
      next, prev := this, this;
    }

    /** `init_head` on a link that exists already. */
    method Init()
      modifies this
      ensures Ring([this])
    {
      next, prev := this, this;
    }
  }

  function After(n: nat, i: nat): (j: nat)
    requires i < n
    ensures j < n
  {
    if i + 1 < n then i + 1 else 0
  }

  ghost predicate Distinct(c: seq<Link>) {
    forall i, j :: 0 <= i < j < |c| ==> c[i] != c[j]
  }

  lemma Cons(x: Link, b: seq<Link>)
    ensures Distinct([x] + b) <==> x !in b && Distinct(b)
  {
    var c := [x] + b;
    assert forall i :: 0 <= i < |b| ==> c[i + 1] == b[i];
    if Distinct(c) {
      forall i, j | 0 <= i < j < |b| ensures b[i] != b[j] {
        assert c[i + 1] != c[j + 1];
      }
      forall i | 0 <= i < |b| ensures b[i] != x {
        assert c[0] != c[i + 1];
      }
    }
  }

  lemma Append(a: seq<Link>, b: seq<Link>)
    requires Distinct(a) && Distinct(b) && forall x :: x in a ==> x !in b
    ensures Distinct(a + b)
  {
    forall i, j | 0 <= i < j < |a + b|
      ensures (a + b)[i] != (a + b)[j]
    {
      if i < |a| <= j {
        assert a[i] in a && b[j - |a|] in b;
      }
    }
  }

  ghost predicate Joined(a: Link, b: Link)
    reads a, b
  {
    a.next == b && b.prev == a
  }

  ghost predicate Linked(c: seq<Link>, i: nat)
    requires i < |c|
    reads c
  {
    Joined(c[i], c[After(|c|, i)])
  }

  /** The links of c, in this order, form one closed ring. */
  ghost predicate Ring(c: seq<Link>)
    reads c
  {
    && c != []
    && Distinct(c)
    && forall i {:trigger Linked(c, i)} :: 0 <= i < |c| ==> Linked(c, i)
  }

  /** The list behind `head` holds exactly these entries in this order. */
  ghost predicate Holds(head: Link, entries: seq<Link>)
    reads {head} + (set x | x in entries)
  {
    Ring([head] + entries)
  }

  function Inserted(c: seq<Link>, i: nat, x: Link): seq<Link>
    requires i < |c|
  {
    c[..i + 1] + [x] + c[i + 1..]
  }

  function Removed(c: seq<Link>, i: nat): seq<Link>
    requires i < |c|
  {
    c[..i] + c[i + 1..]
  }

  /** `add_to_list` between two neighbours. */
  method AddToList(x: Link, prev: Link, next: Link, ghost c: seq<Link>, ghost i: nat)
    requires Ring(c) && i < |c| && c[i] == prev && c[After(|c|, i)] == next && x !in c
    modifies x, prev`next, next`prev
    ensures Ring(Inserted(c, i, x))
  {
    x.next, x.prev := next, prev;
    prev.next := x;
    next.prev := x;
    ghost var d := Inserted(c, i, x);
    forall k | 0 <= k < |d|
      ensures Linked(d, k)
    {
      ghost var was := if k <= i then k else k - 1;
      assert old(Linked(c, was));
      assert d[k] == if k <= i then c[k] else if k == i + 1 then x else c[k - 1];
      if k != i && k != i + 1 {
        assert d[After(|d|, k)] == c[After(|c|, was)] && c[was] != prev && c[After(|c|, was)] != next;
      }
    }
  }

  /** `add_to_tail`: the new entry is the last one. */
  method AddToTail(x: Link, head: Link, ghost entries: seq<Link>)
    requires Holds(head, entries) && x != head && x !in entries
    modifies {x, head} + (set y | y in entries)
    ensures Holds(head, entries + [x])
  {
    ghost var c := [head] + entries;
    assert Linked(c, |entries|);
    AddToList(x, head.prev, head, c, |entries|);
    assert Inserted(c, |entries|, x) == [head] + (entries + [x]);
  }

  /** `add_to_head`: the new entry is the first one. */
  method AddToHead(x: Link, head: Link, ghost entries: seq<Link>)
    requires Holds(head, entries) && x != head && x !in entries
    modifies {x, head} + (set y | y in entries)
    ensures Holds(head, [x] + entries)
  {
    ghost var c := [head] + entries;
    assert Linked(c, 0);
    AddToList(x, head, head.next, c, 0);
    assert Inserted(c, 0, x) == [head] + ([x] + entries);
  }

  /** `del_entry`: the other entries stay, in their order; the link itself is not changed. */
  method DelEntry(x: Link, ghost head: Link, ghost entries: seq<Link>, ghost i: nat)
    requires Holds(head, entries) && i < |entries| && entries[i] == x
    modifies {head} + (set y | y in entries)
    ensures Holds(head, Removed(entries, i)) && x.next == old(x.next) && x.prev == old(x.prev)
  {
    ghost var c := [head] + entries;
    ghost var d := [head] + Removed(entries, i);
    assert Linked(c, i) && Linked(c, i + 1) && c[After(|c|, i + 1)] in c;
    assert c[i + 1] == x && c[i] != x && c[After(|c|, i + 1)] != x;
    Cons(head, entries);
    Cons(head, Removed(entries, i));
    x.prev.next := x.next;
    x.next.prev := x.prev;
    forall k | 0 <= k < |d|
      ensures Linked(d, k)
    {
      assert old(Linked(c, if k <= i then k else k + 1));
    }
  }

  /** `get_first` */
  method GetFirst(head: Link, ghost entries: seq<Link>) returns (r: Link?)
    requires Holds(head, entries)
    ensures r == if entries == [] then null else entries[0]
  {
    ghost var c := [head] + entries;
    assert Linked(c, 0);
    r := if head.next == head then null else head.next;
  }

  /** `get_last` */
  method GetLast(head: Link, ghost entries: seq<Link>) returns (r: Link?)
    requires Holds(head, entries)
    ensures r == if entries == [] then null else entries[|entries| - 1]
  {
    ghost var c := [head] + entries;
    assert Linked(c, |c| - 1);
    r := if head.prev == head then null else head.prev;
  }

  /** No link belongs to both lists. */
  ghost predicate Apart(first: Link, a: seq<Link>, second: Link, b: seq<Link>) {
    first != second && first !in b && second !in a && forall x :: x in a ==> x !in b
  }

  /**
    `concat_lists`: the first list followed by the second. The second head is left as an empty
    list if and only if one of the two lists was empty; otherwise it still points into the ring.
   */
  method ConcatLists(first: Link, second: Link, ghost a: seq<Link>, ghost b: seq<Link>)
    requires Holds(first, a) && Holds(second, b)
    requires Apart(first, a, second, b)
    modifies {first, second} + (set x | x in a) + (set x | x in b)
    ensures Holds(first, a + b)
    ensures Holds(second, []) <==> a == [] || b == []
  {
    ghost var c, d := [first] + a, [second] + b;
    var headOne := GetFirst(first, a);
    var tailOne := GetLast(first, a);
    var headTwo := GetFirst(second, b);
    var tailTwo := GetLast(second, b);
    if headTwo == null {
      assert a + b == a && d == [second] + [];
      return;
    }
    if headOne == null {
      TakeOver(first, second, headTwo, tailTwo, b);
      assert a + b == b && [second] + [] == [second];
      return;
    }
    Splice(first, second, tailOne, headTwo, tailTwo, a, b);
    Cons(second, b);
    assert second.next != second;
    assert Ring([second] + []) ==> Linked([second] + [], 0);
  }

  /** The first list is empty: its head takes the place of the second one. */
  method TakeOver(first: Link, second: Link, headTwo: Link, tailTwo: Link, ghost b: seq<Link>)
    requires Holds(second, b) && b != [] && first != second && first !in b
    requires headTwo == b[0] && tailTwo == b[|b| - 1]
    modifies {first, second} + (set x | x in b)
    ensures Holds(first, b) && Ring([second])
  {
    ghost var d, e := [second] + b, [first] + b;
    Cons(second, b);
    Cons(first, b);
    first.next, first.prev := headTwo, tailTwo;
    headTwo.prev := first;
    tailTwo.next := first;
    second.Init();
    forall k | 0 <= k < |e|
      ensures Linked(e, k)
    {
      assert old(Linked(d, k));
      if 0 < k < |b| {
        assert e[k] == d[k] == b[k - 1] != tailTwo && e[k + 1] == d[k + 1] == b[k] != headTwo;
      }
    }
  }

  /** Both lists have entries: the second head is bypassed but not reset. */
  method Splice(first: Link, second: Link, tailOne: Link, headTwo: Link, tailTwo: Link,
                ghost a: seq<Link>, ghost b: seq<Link>)
    requires Holds(first, a) && Holds(second, b) && a != [] && b != [] && Apart(first, a, second, b)
    requires tailOne == a[|a| - 1] && headTwo == b[0] && tailTwo == b[|b| - 1]
    modifies {first} + (set x | x in a) + (set x | x in b)
    ensures Holds(first, a + b) && second.next == headTwo
  {
    ghost var c, d, e := [first] + a, [second] + b, [first] + (a + b);
    Cons(first, a);
    Cons(second, b);
    Append(a, b);
    Cons(first, a + b);
    assert Linked(d, 0);
    tailOne.next := headTwo;
    headTwo.prev := tailOne;
    tailTwo.next := first;
    first.prev := tailTwo;
    forall k | 0 <= k < |e|
      ensures Linked(e, k)
    {
      if k < |a| {
        assert old(Linked(c, k));
        assert e[k] == c[k] && e[k + 1] == c[k + 1] == a[k];
        assert k > 0 ==> c[k] == a[k - 1] != tailOne;
      } else if |a| < k < |a| + |b| {
        assert old(Linked(d, k - |a|));
        assert e[k] == d[k - |a|] == b[k - |a| - 1] != tailTwo && e[k + 1] == b[k - |a|] != headTwo;
      }
    }
  }
}
