/** The queue of sleeping threads (kern/core/sleep.c), kept in the order in which they have to wake. */
module SleepQueue {
  import opened Options

  const ERR_INVAL: int := -2
  const MAX_INT: int := 0x7FFF_FFFF

  /** A sleeping thread; `order` counts the threads that went to sleep before it. */
  datatype Sleeper = Sleeper(id: int, wake: int, order: nat)

  /** x is to be woken before y: an earlier wake time, or the same one and asleep for longer. */
  predicate Before(x: Sleeper, y: Sleeper) {
    x.wake < y.wake || (x.wake == y.wake && x.order < y.order)
  }

  predicate Ordered(q: seq<Sleeper>) {
    forall i, j :: 0 <= i < j < |q| ==> Before(q[i], q[j])
  }

  predicate Due(x: Sleeper, now: int) {
    x.wake < now
  }

  /** x is what a scan of everyone who sleeps would choose: due, and before everyone else who is due. */
  predicate Chosen(asleep: multiset<Sleeper>, now: int, x: Sleeper) {
    x in asleep && Due(x, now) && forall y :: y in asleep && Due(y, now) && y != x ==> Before(x, y)
  }

  class Queue {
    var entries: seq<Sleeper>
    var arrivals: nat

    ghost predicate Valid()
      reads this
    {
      Ordered(entries) && forall x :: x in entries ==> x.order < arrivals
    }

    ghost function Asleep(): multiset<Sleeper>
      reads this
    {
      multiset(entries)
    }

    /** `init_sleeping_threads` */
    constructor ()
      ensures Valid() && Asleep() == multiset{} && arrivals == 0
    {
      entries, arrivals := [], 0;
    }

    /** `do_sleep` and `schedule_sleep`: no sleep for 0 ticks, nor when the wake time overflows an int. */
    method Sleep(id: int, now: int, ticks: int) returns (code: int)
      requires Valid() && 0 <= now <= MAX_INT && ticks <= MAX_INT
      modifies this
      ensures Valid() && code == if ticks < 0 then ERR_INVAL else 0
      ensures if 0 < ticks <= MAX_INT - now
        then Asleep() == old(Asleep()) + multiset{Sleeper(id, now + ticks, old(arrivals))}
             && arrivals == old(arrivals) + 1
        else entries == old(entries) && arrivals == old(arrivals)
    {
      if ticks == 0 {
        return 0;
      }
      if ticks < 0 {
        return ERR_INVAL;
      }
      code := 0;
      if WrappedSum(now, ticks) < now {
        return;
      }
      Insert(Sleeper(id, now + ticks, arrivals));
    }

    /** Behind every entry that does not wake later. */
    method Insert(x: Sleeper)
      requires Valid() && x.order == arrivals
      modifies this
      ensures Valid() && arrivals == old(arrivals) + 1
      ensures Asleep() == old(Asleep()) + multiset{x}
    {
      var k := 0;
      while k < |entries| && entries[k].wake <= x.wake
        invariant k <= |entries| && forall i :: 0 <= i < k ==> Before(entries[i], x)
      {
        k := k + 1;
      }
      ghost var was := entries;
      assert was == was[..k] + was[k..];
      entries, arrivals := entries[..k] + [x] + entries[k..], arrivals + 1;
      InsertOrdered(was, k, x);
    }

    /** `get_sleeping_thread`: only the head is looked at. */
    method Wake(now: int) returns (r: Option<Sleeper>)
      requires Valid()
      modifies this
      ensures Valid() && arrivals == old(arrivals)
      ensures r.None? <==> forall x :: x in old(Asleep()) ==> !Due(x, now)
      ensures r.None? ==> entries == old(entries)
      ensures r.Some? ==> Chosen(old(Asleep()), now, r.value) && Asleep() == old(Asleep()) - multiset{r.value}
    {
      HeadIsChosen(entries, now);
      if entries != [] && entries[0].wake < now {
        r := Some(entries[0]);
        Pop(entries);
        entries := entries[1..];
      } else {
        r := None;
      }
    }
  }

  lemma Pop(q: seq<Sleeper>)
    requires q != []
    ensures multiset(q[1..]) == multiset(q) - multiset{q[0]} && (Ordered(q) ==> Ordered(q[1..]))
    ensures forall x :: x in q[1..] ==> x in q
  {
    assert q == [q[0]] + q[1..];
  }

  /** Signed 32-bit addition of two numbers that are not negative. */
  function WrappedSum(a: int, b: int): int
    requires 0 <= a <= MAX_INT && 0 <= b <= MAX_INT
  {
    if a + b > MAX_INT then a + b - 0x1_0000_0000 else a + b
  }

  lemma InsertOrdered(q: seq<Sleeper>, k: nat, x: Sleeper)
    requires Ordered(q) && k <= |q|
    requires forall i :: 0 <= i < k ==> Before(q[i], x)
    requires k < |q| ==> x.wake < q[k].wake
    ensures Ordered(q[..k] + [x] + q[k..])
  {
    var r := q[..k] + [x] + q[k..];
    forall j | k <= j < |q|
      ensures Before(x, q[j])
    {
      assert j == k || Before(q[k], q[j]);
    }
    forall i, j | 0 <= i < j < |r|
      ensures Before(r[i], r[j])
    {
      assert r[i] == if i < k then q[i] else if i == k then x else q[i - 1];
      assert r[j] == if j < k then q[j] else if j == k then x else q[j - 1];
    }
  }

  /** The head of an ordered queue answers for the whole queue. */
  lemma HeadIsChosen(q: seq<Sleeper>, now: int)
    requires Ordered(q)
    ensures (forall x :: x in multiset(q) ==> !Due(x, now)) <==> !(q != [] && Due(q[0], now))
    ensures q != [] && Due(q[0], now) ==> Chosen(multiset(q), now, q[0])
  {
    forall x | x in multiset(q)
      ensures q != [] && (x == q[0] || Before(q[0], x))
    {
      var i :| 0 <= i < |q| && q[i] == x;
    }
    if q != [] {
      assert q[0] in multiset(q);
    }
  }
}
