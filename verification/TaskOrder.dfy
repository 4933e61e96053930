/**
  The order in which children are reaped, whom an exit wakes, and how many threads a task has
  (kern/core/wait_vanish.c:57-67, 96-138, kern/core/fork.c:86-136).
 */
module TaskOrder {
  import opened Fifo
  import opened TaskTree

  // ---------------------------------------------------------------- the dead list is a queue

  /** A thread of p looks at the dead list and takes its first entry. */
  predicate Reaps(s: Tree, e: Event, p: nat) {
    (e == Wait(p) || e == Resume(p)) && p in s.tasks && s.tasks[p].dead != []
  }

  lemma WaitMoves(s: Tree, t: nat, p: nat)
    requires Inv(s) && Lives(s, t) && Lives(s, p)
    ensures p in WaitStep(s, t).tasks
    ensures Moves(s.tasks[p].dead, WaitStep(s, t).tasks[p].dead, t == p && s.tasks[p].dead != [])
    ensures t == p && s.tasks[p].dead != [] ==> Returns(s, WaitStep(s, t), s.tasks[p].dead[0])
  {
    WaitExact(s, t);
  }

  lemma QuietDead(s: Tree, e: Event, p: nat)
    requires Inv(s) && Enabled(s, e) && Lives(s, p)
    requires e.Fork? || e.ForkFailed? || e.ThreadFork? || e.SetStatus? || e.Vanish? || e.Test? || e.Link?
    ensures p in Step(s, e).tasks && Step(s, e).tasks[p].dead == s.tasks[p].dead
  {
    assert Sound(s, p);
  }

  /** Children join the dead list at the tail, and are reaped from its head. */
  lemma DeadMoves(s: Tree, e: Event, p: nat)
    requires Inv(s) && Enabled(s, e) && Lives(s, p) && Lives(Step(s, e), p)
    ensures Moves(s.tasks[p].dead, Step(s, e).tasks[p].dead, Reaps(s, e, p))
    ensures Reaps(s, e, p) ==> Returns(s, Step(s, e), s.tasks[p].dead[0])
  {
    if e.HandOver? {
      HandOverShape(s, e.t, p);
    } else if e.Depart? {
      assert Sound(s, e.t);
    } else if e.Wait? {
      WaitMoves(s, e.t, p);
    } else if e.Resume? {
      ResumeMoves(s, e.t, p);
    } else {
      QuietDead(s, e, p);
    }
  }

  lemma ResumeMoves(s: Tree, t: nat, p: nat)
    requires Inv(s) && Enabled(s, Resume(t)) && Lives(s, p)
    ensures p in Step(s, Resume(t)).tasks
    ensures Moves(s.tasks[p].dead, Step(s, Resume(t)).tasks[p].dead, Reaps(s, Resume(t), p))
    ensures Reaps(s, Resume(t), p) ==> Returns(s, Step(s, Resume(t)), s.tasks[p].dead[0])
  {
    ResumeInv(s, t);
    WaitMoves(Resumed(s, t), t, p);
  }

  // ---------------------------------------------------------------- runs

  ghost predicate Leads(s: Tree, e: Event, s': Tree) {
    Inv(s) && Enabled(s, e) && s' == Step(s, e)
  }

  /** The trees along a stretch of a run: one before every event, and one at the end. */
  ghost predicate Trees(es: seq<Event>, tr: seq<Tree>) {
    && |tr| == |es| + 1 && (forall i :: 0 <= i < |tr| ==> Inv(tr[i]))
    && forall i {:trigger es[i]} :: 0 <= i < |es| ==> Leads(tr[i], es[i], tr[i + 1])
  }

  /** The trees of a run from the start. */
  ghost function TreesOf(junk: int, es: seq<Event>): (tr: seq<Tree>)
    requires Possible(junk, es)
    ensures |tr| == |es| + 1 && tr[|es|] == After(junk, es)
    decreases |es|
  {
    if es == [] then [After(junk, es)] else TreesOf(junk, Front(es)) + [After(junk, es)]
  }

  lemma {:induction false} RunHasTrees(junk: int, es: seq<Event>)
    requires Possible(junk, es)
    ensures Trees(es, TreesOf(junk, es))
    decreases |es|
  {
    if es != [] {
      RunHasTrees(junk, Front(es));
      AfterLeads(junk, es);
      TreesMore(es, TreesOf(junk, Front(es)), After(junk, es));
    }
  }

  lemma AfterLeads(junk: int, es: seq<Event>)
    requires Possible(junk, es) && es != []
    ensures Possible(junk, Front(es)) && Leads(After(junk, Front(es)), es[|es| - 1], After(junk, es))
  {
  }

  lemma TreesMore(es: seq<Event>, tr: seq<Tree>, s: Tree)
    requires es != [] && Trees(Front(es), tr) && Inv(s) && Leads(tr[|es| - 1], es[|es| - 1], s)
    ensures Trees(es, tr + [s])
  {
    var tr' := tr + [s];
    forall i | 0 <= i < |es|
      ensures Leads(tr'[i], es[i], tr'[i + 1])
    {
      if i < |es| - 1 {
        assert Front(es)[i] == es[i];
      }
    }
  }

  ghost predicate LivesAlong(tr: seq<Tree>, p: nat) {
    forall i :: 0 <= i < |tr| ==> Lives(tr[i], p)
  }

  ghost function DeadLists(tr: seq<Tree>, p: nat): (qs: seq<seq<nat>>)
    requires LivesAlong(tr, p)
    ensures |qs| == |tr| && forall i :: 0 <= i < |tr| ==> qs[i] == tr[i].tasks[p].dead
  {
    seq(|tr|, i requires 0 <= i < |tr| => tr[i].tasks[p].dead)
  }

  function Reapings(es: seq<Event>, tr: seq<Tree>, p: nat): (pops: seq<bool>)
    requires |tr| == |es| + 1
    ensures |pops| == |es| && forall i :: 0 <= i < |es| ==> pops[i] == Reaps(tr[i], es[i], p)
  {
    seq(|es|, i requires 0 <= i < |es| => Reaps(tr[i], es[i], p))
  }

  lemma DeadListIsQueue(es: seq<Event>, tr: seq<Tree>, p: nat)
    requires Trees(es, tr) && LivesAlong(tr, p)
    ensures Queue(DeadLists(tr, p), Reapings(es, tr, p))
  {
    forall i | 0 <= i < |es|
      ensures Moves(DeadLists(tr, p)[i], DeadLists(tr, p)[i + 1], Reapings(es, tr, p)[i])
    {
      assert Leads(tr[i], es[i], tr[i + 1]);
      DeadMoves(tr[i], es[i], p);
    }
  }

  /** What the last wait returned is x. */
  predicate Returns(s: Tree, s': Tree, x: nat) {
    |s'.reaped| == |s.reaped| + 1 && s'.reaped[|s.reaped|].0 == x
  }

  /**
    Over every stretch of every run in which p lives: the child at position i of its dead list is the one that the
    (i + 1)-th wait that reaps returns.
   */
  lemma ReapedInOrder(es: seq<Event>, tr: seq<Tree>, p: nat, i: nat) returns (k: nat)
    requires Trees(es, tr) && LivesAlong(tr, p)
    requires i < |tr[0].tasks[p].dead| && Pops(Reapings(es, tr, p), |es|) > i
    ensures k < |es| && Pops(Reapings(es, tr, p), k) == i && (es[k] == Wait(p) || es[k] == Resume(p))
    ensures Returns(tr[k], tr[k + 1], tr[0].tasks[p].dead[i])
  {
    DeadListIsQueue(es, tr, p);
    k := Served(DeadLists(tr, p), Reapings(es, tr, p), i, |es|);
    ReapsHead(es, tr, p, k);
  }

  lemma ReapsHead(es: seq<Event>, tr: seq<Tree>, p: nat, k: nat)
    requires Trees(es, tr) && LivesAlong(tr, p) && k < |es| && Reapings(es, tr, p)[k]
    ensures tr[k].tasks[p].dead != [] && (es[k] == Wait(p) || es[k] == Resume(p))
    ensures Returns(tr[k], tr[k + 1], tr[k].tasks[p].dead[0])
  {
    assert Leads(tr[k], es[k], tr[k + 1]);
    DeadMoves(tr[k], es[k], p);
  }

  // ---------------------------------------------------------------- whom an exit wakes

  /** One sleeper if other children are alive, all of them if none is; nobody is lost, and no other task is touched. */
  lemma DepartWakes(s: Tree, t: nat, x: nat)
    requires Inv(s) && Enabled(s, Depart(t)) && Lives(s, x)
    ensures x in Step(s, Depart(t)).tasks
    ensures var p, q := s.tasks[x], Step(s, Depart(t)).tasks[x];
      && q.asleep + q.woken == p.asleep + p.woken && q.threads == p.threads && q.looker == p.looker
      && q.woken - p.woken ==
        if s.tasks[t].parent != x || p.asleep == 0 then 0
        else if exists y :: y != t && Child(s.tasks, x, y, true) then 1
        else p.asleep
  {
    assert Sound(s, t) && ListsExact(s.tasks, x);
    var p := s.tasks[x];
    if s.tasks[t].parent == x {
      WithoutExact(p.alive, t);
      var rest := Without(p.alive, t);
      if rest != [] {
        assert rest[0] in rest && Child(s.tasks, x, rest[0], true);
      }
    }
  }

  // ---------------------------------------------------------------- threads

  function Forks(es: seq<Event>, t: nat): int {
    if es == [] then 0
    else Forks(Front(es), t) +
         if es[|es| - 1] == ThreadFork(t) then 1 else if es[|es| - 1] == Vanish(t) then -1 else 0
  }

  lemma ThreadsStep(s: Tree, e: Event, t: nat)
    requires Inv(s) && Enabled(s, e) && Lives(Step(s, e), t)
    ensures Lives(s, t) ==>
      Step(s, e).tasks[t].threads ==
        s.tasks[t].threads + if e == ThreadFork(t) then 1 else if e == Vanish(t) then -1 else 0
    ensures !Lives(s, t) ==> t == s.next && Step(s, e).tasks[t].threads == 1
  {
    match e
    case Fork(p, junk) =>
    case ForkFailed(p, junk) =>
    case ThreadFork(p) =>
    case SetStatus(p, status) =>
    case Vanish(p) =>
    case HandOver(p) => HandOverShape(s, p, t);
    case Depart(p) => assert Sound(s, p);
    case Wait(p) => WaitExact(s, p);
    case Test(p) =>
    case Link(p) =>
    case Resume(p) =>
      ResumeInv(s, p);
      WaitExact(Resumed(s, p), p);
  }

  /**
    Over every run a living task has the thread it was made with, one for every thread_fork, less those that
    vanished.
   */
  lemma {:induction false} ThreadsExact(junk: int, es: seq<Event>, t: nat)
    requires Possible(junk, es) && Lives(After(junk, es), t)
    ensures After(junk, es).tasks[t].threads == 1 + Forks(es, t)
    decreases |es|
  {
    if es != [] {
      var s, e := After(junk, Front(es)), es[|es| - 1];
      ThreadsStep(s, e, t);
      if Lives(s, t) {
        ThreadsExact(junk, Front(es), t);
      } else {
        NoneBefore(junk, Front(es), t);
      }
    }
  }

  /** A task that does not exist yet has taken no step. */
  lemma {:induction false} NoneBefore(junk: int, es: seq<Event>, t: nat)
    requires Possible(junk, es) && t >= After(junk, es).next
    ensures Forks(es, t) == 0
    decreases |es|
  {
    if es != [] {
      var s, e := After(junk, Front(es)), es[|es| - 1];
      assert Sound(s, e.t);
      NextGrows(s, e);
      NoneBefore(junk, Front(es), t);
    }
  }

  lemma NextGrows(s: Tree, e: Event)
    requires Inv(s) && Enabled(s, e)
    ensures s.next <= Step(s, e).next
  {
    assert Sound(s, e.t);
  }
}
