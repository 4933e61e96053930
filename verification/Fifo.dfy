/** Queues that grow at the tail and are served at the head, seen over a run. */
module Fifo {
  /** One step of the queue: the head leaves if `pop` says so, and more may join behind the others. */
  predicate Moves<T(==)>(q: seq<T>, q': seq<T>, pop: bool) {
    if pop then q != [] && q[1..] <= q' else q <= q'
  }

  ghost predicate Queue<T>(qs: seq<seq<T>>, pops: seq<bool>) {
    |qs| == |pops| + 1 && forall i {:trigger pops[i]} :: 0 <= i < |pops| ==> Moves(qs[i], qs[i + 1], pops[i])
  }

  /** How often the head has left in the first n steps. */
  function Pops(pops: seq<bool>, n: nat): nat
    requires n <= |pops|
  {
    if n == 0 then 0 else Pops(pops, n - 1) + if pops[n - 1] then 1 else 0
  }

  /** Who was at position i is now as many places further on as the head has left. */
  predicate MovedUp<T(==)>(qs: seq<seq<T>>, pops: seq<bool>, i: nat, n: nat)
    requires n <= |pops| < |qs| && i < |qs[0]|
  {
    var p := i - Pops(pops, n);
    0 <= p < |qs[n]| && qs[n][p] == qs[0][i]
  }

  /** Who is at position i moves forward by one with every pop, and never back. */
  lemma {:induction false} Forward<T>(qs: seq<seq<T>>, pops: seq<bool>, i: nat, n: nat)
    requires Queue(qs, pops) && i < |qs[0]| && n <= |pops| && Pops(pops, n) <= i
    ensures MovedUp(qs, pops, i, n)
    decreases n
  {
    if n > 0 {
      Forward(qs, pops, i, n - 1);
      var q, q', k := qs[n - 1], qs[n], i - Pops(pops, n - 1);
      assert Moves(q, q', pops[n - 1]);
      if pops[n - 1] {
        assert q[1..][k - 1] == q[k];
      }
    }
  }

  /** After more than i pops there was one at which the one from position i was at the head. */
  lemma {:induction false} Served<T>(qs: seq<seq<T>>, pops: seq<bool>, i: nat, n: nat) returns (k: nat)
    requires Queue(qs, pops) && i < |qs[0]| && n <= |pops| && Pops(pops, n) > i
    ensures k < n && pops[k] && Pops(pops, k) == i && qs[k] != [] && qs[k][0] == qs[0][i]
    decreases n
  {
    if Pops(pops, n - 1) > i {
      k := Served(qs, pops, i, n - 1);
    } else {
      k := n - 1;
      Forward(qs, pops, i, k);
    }
  }
}
