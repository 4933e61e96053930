/**
  When a wait that fails is right that the task has no child (kern/core/wait_vanish.c:51-62, 86-87). The
  two lists are read one after the other, and a child that exits in between moves from the list that
  has not been read yet to the one that has.
 */
module TaskFailure {
  import opened TaskTree

  /** The task t loses a child in this step. */
  predicate Bereaves(s: Tree, e: Event, t: nat) {
    e.Depart? && e.t in s.tasks && s.tasks[e.t].parent == t
  }

  /** Some event of the run, from the n-th on, is the exit of a task whose parent is t by then. */
  ghost predicate ChildDeparts(junk: int, es: seq<Event>, n: nat, t: nat)
    requires Possible(junk, es) && n <= |es|
  {
    exists i :: n <= i < |es| && Bereaves(At(junk, es, i), es[i], t)
  }

  /** A thread of t looks at the dead list, in do_wait or when it has been woken, and finds it empty. */
  ghost predicate SeesNoDead(s: Tree, e: Event, t: nat) {
    Enabled(s, e) && (e == Wait(t) || e == Resume(t)) && WaitOutcome(s, t).NoneDead?
  }

  /** A thread of t is between the two looks. */
  predicate Looks(s: Tree, t: nat) {
    Lives(s, t) && s.tasks[t].looker == SawNoDead
  }

  /** What a step that is not the second look may do to the task q that looks. */
  predicate Between(q: Task, r: Task, gone: seq<nat>) {
    && r.phase == Living && r.looker == SawNoDead && r.dead == q.dead + gone
    && (q.threads == 1 ==> r.threads == 1 && if gone == [] then r.alive == q.alive else gone[0] in q.alive)
  }

  /** The child that departs in this step, if any. */
  function Gone(s: Tree, e: Event, t: nat): seq<nat> {
    if Bereaves(s, e, t) then [e.t] else []
  }

  lemma DepartBetween(s: Tree, c: nat, t: nat)
    requires Inv(s) && Enabled(s, Depart(c)) && Looks(s, t)
    ensures t in Step(s, Depart(c)).tasks && Between(s.tasks[t], Step(s, Depart(c)).tasks[t], Gone(s, Depart(c), t))
  {
    assert Sound(s, c) && ListsExact(s.tasks, t);
    assert s.tasks[c].parent == t ==> Child(s.tasks, t, c, true);
  }

  lemma ForkBetween(s: Tree, p: nat, child: Task, t: nat)
    requires Inv(s) && Lives(s, p) && Waiters(s.tasks[p]) < s.tasks[p].threads && Looks(s, t)
    ensures t in ForkStep(s, p, child).tasks && Between(s.tasks[t], ForkStep(s, p, child).tasks[t], [])
  {
    assert Sound(s, t);
  }

  lemma HandOverBetween(s: Tree, p: nat, t: nat)
    requires Inv(s) && Enabled(s, HandOver(p)) && Looks(s, t)
    ensures t in HandOverStep(s, p).tasks && Between(s.tasks[t], HandOverStep(s, p).tasks[t], [])
  {
    HandOverShape(s, p, t);
  }

  lemma WaitBetween(s: Tree, p: nat, t: nat)
    requires Inv(s) && Lives(s, p) && s.tasks[p].looker == Nobody && Looks(s, t)
    ensures t in WaitStep(s, p).tasks && Between(s.tasks[t], WaitStep(s, p).tasks[t], [])
  {
    WaitExact(s, p);
  }

  lemma ResumeBetween(s: Tree, p: nat, t: nat)
    requires Inv(s) && Enabled(s, Resume(p)) && Looks(s, t)
    ensures t in Step(s, Resume(p)).tasks && Between(s.tasks[t], Step(s, Resume(p)).tasks[t], [])
  {
    ResumeInv(s, p);
    WaitBetween(Resumed(s, p), p, t);
  }

  lemma OtherBetween(s: Tree, e: Event, t: nat)
    requires Inv(s) && Enabled(s, e) && Looks(s, t) && e != Test(t)
    requires e.ThreadFork? || e.SetStatus? || e.Vanish? || e.Test? || e.Link?
    ensures t in Step(s, e).tasks && Between(s.tasks[t], Step(s, e).tasks[t], [])
  {
  }

  /**
    While a thread of t is between its looks no other thread of t reaps and init inherits nothing, so that
    the dead list of t changes only when a child departs.
   */
  lemma BetweenStep(s: Tree, e: Event, t: nat)
    requires Inv(s) && Enabled(s, e) && Looks(s, t) && e != Test(t)
    ensures t in Step(s, e).tasks && Between(s.tasks[t], Step(s, e).tasks[t], Gone(s, e, t))
  {
    match e
    case Fork(p, junk) => ForkBetween(s, p, NewTask(p, junk), t);
    case ForkFailed(p, junk) => ForkBetween(s, p, FreedTask(p, junk), t);
    case ThreadFork(p) => OtherBetween(s, e, t);
    case SetStatus(p, status) => OtherBetween(s, e, t);
    case Vanish(p) => OtherBetween(s, e, t);
    case HandOver(p) => HandOverBetween(s, p, t);
    case Depart(p) => DepartBetween(s, p, t);
    case Wait(p) => WaitBetween(s, p, t);
    case Test(p) => OtherBetween(s, e, t);
    case Link(p) => OtherBetween(s, e, t);
    case Resume(p) => ResumeBetween(s, p, t);
  }

  /** The run up to its last event looks the same from both ends. */
  lemma FrontDeparts(junk: int, es: seq<Event>, n: nat, t: nat)
    requires Possible(junk, es) && n < |es|
    ensures ChildDeparts(junk, es, n, t) <==>
      ChildDeparts(junk, Front(es), n, t) || Bereaves(After(junk, Front(es)), es[|es| - 1], t)
  {
    var k := |es| - 1;
    assert forall i :: 0 <= i <= k ==> At(junk, es, i) == At(junk, Front(es), i);
    assert forall i :: 0 <= i < k ==> es[i] == Front(es)[i];
  }

  /** How the task q, when it looked, became r: the dead list is empty exactly as long as no child has departed. */
  predicate Since(q: Task, r: Task, departed: bool) {
    && r.phase == Living && r.looker == SawNoDead && (r.dead == [] <==> !departed)
    && (q.threads == 1 ==> r.threads == 1 && if departed then q.alive != [] else r.alive == q.alive)
  }

  lemma LookStep(s: Tree, e: Event, t: nat)
    requires Inv(s) && SeesNoDead(s, e, t)
    ensures t in Step(s, e).tasks && Since(s.tasks[t], Step(s, e).tasks[t], false)
  {
  }

  lemma SinceStep(q: Task, p: Task, r: Task, departed: bool, gone: seq<nat>)
    requires Since(q, p, departed) && Between(p, r, gone)
    ensures Since(q, r, departed || gone != [])
  {
  }

  /** The run from the look on, which is the n-th event. */
  ghost predicate LookedAt(junk: int, es: seq<Event>, n: nat, t: nat) {
    && Possible(junk, es) && n < |es| && SeesNoDead(At(junk, es, n), es[n], t)
    && forall i :: n < i < |es| ==> es[i] != Test(t)
  }

  lemma FrontLooked(junk: int, es: seq<Event>, n: nat, t: nat)
    requires LookedAt(junk, es, n, t) && n < |es| - 1
    ensures LookedAt(junk, Front(es), n, t) && At(junk, Front(es), n) == At(junk, es, n) && es[|es| - 1] != Test(t)
  {
    assert At(junk, es, n) == At(junk, Front(es), n) && es[n] == Front(es)[n];
  }

  lemma {:induction false} SinceLook(junk: int, es: seq<Event>, n: nat, t: nat)
    requires LookedAt(junk, es, n, t)
    ensures t in After(junk, es).tasks
    ensures Since(At(junk, es, n).tasks[t], After(junk, es).tasks[t], ChildDeparts(junk, es, n + 1, t))
    decreases |es|
  {
    if n == |es| - 1 {
      SinceFirst(junk, es, t);
    } else {
      FrontLooked(junk, es, n, t);
      SinceLook(junk, Front(es), n, t);
      SinceFront(junk, es, n, t);
    }
  }

  lemma SinceFirst(junk: int, es: seq<Event>, t: nat)
    requires es != [] && LookedAt(junk, es, |es| - 1, t)
    ensures t in After(junk, es).tasks
    ensures Since(At(junk, es, |es| - 1).tasks[t], After(junk, es).tasks[t], ChildDeparts(junk, es, |es|, t))
  {
    var s, e := At(junk, es, |es| - 1), es[|es| - 1];
    AtStep(junk, es, |es| - 1);
    LookStep(s, e, t);
  }

  lemma SinceFront(junk: int, es: seq<Event>, n: nat, t: nat)
    requires LookedAt(junk, es, n, t) && n < |es| - 1 && t in After(junk, Front(es)).tasks
    requires Since(At(junk, es, n).tasks[t], After(junk, Front(es)).tasks[t], ChildDeparts(junk, Front(es), n + 1, t))
    ensures t in After(junk, es).tasks
    ensures Since(At(junk, es, n).tasks[t], After(junk, es).tasks[t], ChildDeparts(junk, es, n + 1, t))
  {
    var s, e := After(junk, Front(es)), es[|es| - 1];
    FrontLooked(junk, es, n, t);
    FrontDeparts(junk, es, n + 1, t);
    BetweenStep(s, e, t);
    SinceStep(At(junk, es, n).tasks[t], s.tasks[t], Step(s, e).tasks[t], ChildDeparts(junk, Front(es), n + 1, t),
              Gone(s, e, t));
  }

  /** The task has no child, dead or not. */
  ghost predicate NoChild(s: Tree, t: nat) {
    forall x, living :: !Child(s.tasks, t, x, living)
  }

  /**
    The run es ends where a thread of t, whose first look was the n-th event, is about to look at the alive
    list. If it fails there, it is right if and only if no child has departed since its first look; and for
    the only thread of a task, if and only if the task had no child when it looked.
   */
  lemma FailsRightlyIff(junk: int, es: seq<Event>, n: nat, t: nat)
    requires LookedAt(junk, es, n, t)
    ensures Enabled(After(junk, es), Test(t))
    ensures TestOutcome(After(junk, es).tasks[t]).Failed? ==>
      && (NoChild(After(junk, es), t) <==> !ChildDeparts(junk, es, n + 1, t))
      && (At(junk, es, n).tasks[t].threads == 1 ==>
          (NoChild(After(junk, es), t) <==> NoChild(At(junk, es, n), t)))
  {
    SinceLook(junk, es, n, t);
    Childless(After(junk, es), t);
    Childless(At(junk, es, n), t);
  }

  lemma Childless(s: Tree, t: nat)
    requires Inv(s) && Lives(s, t)
    ensures NoChild(s, t) <==> s.tasks[t].alive == [] && s.tasks[t].dead == []
  {
    assert ListsExact(s.tasks, t);
    var q := s.tasks[t];
    assert q.alive != [] ==> Child(s.tasks, t, q.alive[0], true);
    assert q.dead != [] ==> Child(s.tasks, t, q.dead[0], false);
  }
}
