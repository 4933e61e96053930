/**
  What the waits of a whole run return: every task that was forked is reaped at most once, with its
  own exit status. And what a fork that fails leaves behind.
 */
module TaskHistory {
  import opened TaskTree

  predicate IsTask(s: Tree, x: nat) {
    x in s.tasks && s.tasks[x].phase != Freed
  }

  predicate IsFreed(s: Tree, x: nat) {
    x in s.tasks && s.tasks[x].phase == Freed
  }

  /** What one step does to one task: whether it is there, its exit status, and whether it is memory that was freed. */
  predicate EffectAt(s: Tree, e: Event, r: Tree, gone: set<nat>, x: nat) {
    && (IsTask(r, x) <==> (IsTask(s, x) || x in Born(s, e)) && x !in gone)
    && (IsFreed(r, x) <==> IsFreed(s, x) || (e.ForkFailed? && x == s.next))
    && (IsTask(r, x) ==> r.tasks[x].status == NewStatus(s, e, x))
  }

  /** What it adds to the list of what was reaped. */
  ghost predicate ReapedBy(s: Tree, e: Event, r: Tree, gone: set<nat>) {
    && (if gone == {} then r.reaped == s.reaped
        else exists id :: gone == {id} && IsTask(s, id) && r.reaped == s.reaped + [(id, s.tasks[id].status)])
    && (e.SetStatus? ==> gone == {})
    && s.next <= r.next && (forall x :: x in Born(s, e) ==> x < r.next)
  }

  ghost predicate Effect(s: Tree, e: Event, r: Tree, gone: set<nat>) {
    && (forall x: nat {:trigger EffectAt(s, e, r, gone, x)} :: EffectAt(s, e, r, gone, x))
    && ReapedBy(s, e, r, gone)
  }

  function Born(s: Tree, e: Event): set<nat> {
    if e.Fork? then {s.next} else {}
  }

  function NewStatus(s: Tree, e: Event, x: nat): int {
    if e.SetStatus? && e.t == x then e.status
    else if e.Fork? && s.next == x then e.junk
    else if x in s.tasks then s.tasks[x].status
    else 0
  }

  lemma WaitEffect(s: Tree, t: nat, e: Event) returns (gone: set<nat>)
    requires Inv(s) && Lives(s, t) && (e.Wait? || e.Resume?)
    ensures Effect(s, e, WaitStep(s, t), gone)
  {
    WaitExact(s, t);
    var r := WaitStep(s, t);
    gone := if s.tasks[t].dead != [] then {s.tasks[t].dead[0]} else {};
    forall x: nat
      ensures EffectAt(s, e, r, gone, x)
    {
    }
  }

  /** A change of thread counts alone has no effect. */
  lemma NoEffect(s: Tree, e: Event, r: Tree)
    requires s.tasks.Keys == r.tasks.Keys && s.next <= r.next && s.reaped == r.reaped
    requires !e.Fork? && !e.ForkFailed? && !e.SetStatus?
    requires forall x :: x in s.tasks ==> r.tasks[x].status == s.tasks[x].status
    requires forall x :: x in s.tasks ==> (r.tasks[x].phase == Freed <==> s.tasks[x].phase == Freed)
    ensures Effect(s, e, r, {})
  {
    forall x: nat
      ensures EffectAt(s, e, r, {}, x)
    {
    }
  }

  lemma ResumeEffect(s: Tree, t: nat) returns (gone: set<nat>)
    requires Inv(s) && Enabled(s, Resume(t))
    ensures Effect(s, Resume(t), WaitStep(Resumed(s, t), t), gone)
  {
    ResumeInv(s, t);
    var m := Resumed(s, t);
    gone := WaitEffect(m, t, Resume(t));
    SameEffect(s, m, Resume(t), WaitStep(m, t), gone);
  }

  lemma SameEffect(s: Tree, m: Tree, e: Event, r: Tree, gone: set<nat>)
    requires Effect(m, e, r, gone) && e.Resume? && s.tasks.Keys == m.tasks.Keys && s.next == m.next
    requires s.reaped == m.reaped
    requires forall x :: x in s.tasks ==> m.tasks[x].status == s.tasks[x].status && m.tasks[x].phase == s.tasks[x].phase
    ensures Effect(s, e, r, gone)
  {
    forall x: nat
      ensures EffectAt(s, e, r, gone, x)
    {
      assert EffectAt(m, e, r, gone, x);
    }
  }

  lemma HandOverEffect(s: Tree, t: nat)
    requires Inv(s) && Enabled(s, HandOver(t))
    ensures Effect(s, HandOver(t), HandOverStep(s, t), {})
  {
    forall x | x in s.tasks
      ensures HandOverStep(s, t).tasks[x].status == s.tasks[x].status
      ensures HandOverStep(s, t).tasks[x].phase == if x == t then Leaving else s.tasks[x].phase
    {
      HandOverShape(s, t, x);
    }
    NoEffect(s, HandOver(t), HandOverStep(s, t));
  }

  lemma DepartEffect(s: Tree, t: nat)
    requires Enabled(s, Depart(t)) && Lives(s, s.tasks[t].parent)
    ensures Effect(s, Depart(t), DepartStep(s, t), {})
  {
    NoEffect(s, Depart(t), DepartStep(s, t));
  }

  lemma ForkEffect(s: Tree, t: nat, junk: int)
    requires Inv(s) && Lives(s, t)
    ensures Effect(s, Fork(t, junk), ForkStep(s, t, NewTask(t, junk)), {})
    ensures Effect(s, ForkFailed(t, junk), ForkStep(s, t, FreedTask(t, junk)), {})
  {
    ForkChildren(s, t, NewTask(t, junk), t, true);
    forall x: nat
      ensures EffectAt(s, Fork(t, junk), ForkStep(s, t, NewTask(t, junk)), {}, x)
      ensures EffectAt(s, ForkFailed(t, junk), ForkStep(s, t, FreedTask(t, junk)), {}, x)
    {
    }
  }

  lemma SetStatusEffect(s: Tree, t: nat, status: int)
    requires Lives(s, t)
    ensures Effect(s, SetStatus(t, status), SetStatusStep(s, t, status), {})
  {
    forall x: nat
      ensures EffectAt(s, SetStatus(t, status), SetStatusStep(s, t, status), {}, x)
    {
    }
  }

  lemma StepEffect(s: Tree, e: Event) returns (gone: set<nat>)
    requires Inv(s) && Enabled(s, e)
    ensures Effect(s, e, Step(s, e), gone)
  {
    gone := {};
    match e
    case Fork(t, junk) => ForkEffect(s, t, junk);
    case ForkFailed(t, junk) => ForkEffect(s, t, junk);
    case ThreadFork(t) => NoEffect(s, e, ThreadForkStep(s, t));
    case SetStatus(t, status) => SetStatusEffect(s, t, status);
    case Vanish(t) => NoEffect(s, e, VanishStep(s, t));
    case HandOver(t) => HandOverEffect(s, t);
    case Depart(t) =>
      DepartInv(s, t);
      DepartEffect(s, t);
    case Wait(t) => gone := WaitEffect(s, t, e);
    case Test(t) => NoEffect(s, e, TestStep(s, t));
    case Link(t) => NoEffect(s, e, LinkStep(s, t));
    case Resume(t) => gone := ResumeEffect(s, t);
  }

  // ---------------------------------------------------------------- whole runs

  /** Every id that was ever given to a task. */
  ghost function Created(junk: int, es: seq<Event>): set<nat>
    requires Possible(junk, es)
    decreases |es|
  {
    if es == [] then {INIT}
    else Created(junk, Front(es)) + Born(After(junk, Front(es)), es[|es| - 1])
  }

  /** For every task ever created, the last exit status it set, or what its memory held when it was forked. */
  ghost function Statuses(junk: int, es: seq<Event>): map<nat, int>
    requires Possible(junk, es)
    decreases |es|
  {
    if es == [] then map[INIT := junk]
    else Written(After(junk, Front(es)), es[|es| - 1], Statuses(junk, Front(es)))
  }

  function Written(s: Tree, e: Event, last: map<nat, int>): map<nat, int> {
    if e.SetStatus? then last[e.t := e.status]
    else if e.Fork? then last[s.next := e.junk]
    else last
  }

  function Ids(reaped: seq<(nat, int)>): (ids: seq<nat>)
    ensures |ids| == |reaped| && forall i :: 0 <= i < |ids| ==> ids[i] == reaped[i].0
  {
    seq(|reaped|, i requires 0 <= i < |reaped| => reaped[i].0)
  }

  /** The tasks that were created are those in the tree and those reaped; none is both or reaped twice. */
  ghost predicate Balanced(s: Tree, created: set<nat>) {
    && NoRepeats(Ids(s.reaped))
    && (forall x :: x in Ids(s.reaped) ==> !IsTask(s, x) && x < s.next)
    && (forall x :: x in created <==> IsTask(s, x) || x in Ids(s.reaped))
  }

  /** Every task has, and every wait was told, the status that the task set last. */
  ghost predicate Told(s: Tree, last: map<nat, int>) {
    && (forall x :: IsTask(s, x) ==> x in last && s.tasks[x].status == last[x])
    && (forall i :: 0 <= i < |s.reaped| ==> s.reaped[i].0 in last && s.reaped[i].1 == last[s.reaped[i].0])
  }

  lemma BalancedStep(s: Tree, e: Event, r: Tree, gone: set<nat>, created: set<nat>)
    requires Rooted(s) && Effect(s, e, r, gone) && Balanced(s, created)
    ensures Balanced(r, created + Born(s, e))
  {
    forall x: nat
      ensures EffectAt(s, e, r, gone, x) && (IsTask(s, x) ==> x < s.next)
    {
      assert x in s.tasks ==> Sound(s, x);
    }
    if gone == {} {
      assert Ids(r.reaped) == Ids(s.reaped);
    } else {
      var id :| gone == {id} && IsTask(s, id) && r.reaped == s.reaped + [(id, s.tasks[id].status)];
      assert Ids(r.reaped) == Ids(s.reaped) + [id];
      Append(Ids(s.reaped), id);
    }
  }

  lemma ToldStep(s: Tree, e: Event, r: Tree, gone: set<nat>, created: set<nat>, last: map<nat, int>)
    requires Effect(s, e, r, gone) && (e.SetStatus? ==> IsTask(s, e.t)) && Rooted(s) && Balanced(s, created)
    requires Told(s, last)
    ensures Told(r, Written(s, e, last))
  {
    var last' := Written(s, e, last);
    forall x: nat | IsTask(r, x)
      ensures x in last' && r.tasks[x].status == last'[x]
    {
      assert EffectAt(s, e, r, gone, x);
    }
    forall i | 0 <= i < |r.reaped|
      ensures r.reaped[i].0 in last' && r.reaped[i].1 == last'[r.reaped[i].0]
    {
      ToldReaped(s, e, r, gone, created, last, i);
    }
  }

  lemma ToldReaped(s: Tree, e: Event, r: Tree, gone: set<nat>, created: set<nat>, last: map<nat, int>, i: nat)
    requires ReapedBy(s, e, r, gone) && (e.SetStatus? ==> IsTask(s, e.t)) && Rooted(s) && Balanced(s, created)
    requires Told(s, last)
    requires i < |r.reaped|
    ensures var last' := Written(s, e, last); r.reaped[i].0 in last' && r.reaped[i].1 == last'[r.reaped[i].0]
  {
    if i < |s.reaped| {
      assert Ids(s.reaped)[i] == s.reaped[i].0;
      assert r.reaped[i] == s.reaped[i];
    } else {
      assert Sound(s, r.reaped[i].0);
    }
  }

  /**
    After every run: each task that was ever created is in the tree or was reaped, never both and never
    reaped twice, and each status handed to a wait is the last one that task had set.
   */
  lemma {:induction false} ReapedOnce(junk: int, es: seq<Event>)
    requires Possible(junk, es)
    ensures Balanced(After(junk, es), Created(junk, es))
    ensures Told(After(junk, es), Statuses(junk, es))
    decreases |es|
  {
    if es != [] {
      ReapedOnce(junk, Front(es));
      Onward(After(junk, Front(es)), es[|es| - 1], Created(junk, Front(es)), Statuses(junk, Front(es)));
    }
  }

  lemma Onward(s: Tree, e: Event, created: set<nat>, last: map<nat, int>)
    requires Inv(s) && Enabled(s, e) && Balanced(s, created) && Told(s, last)
    ensures Balanced(Step(s, e), created + Born(s, e)) && Told(Step(s, e), Written(s, e, last))
  {
    var gone := StepEffect(s, e);
    BalancedStep(s, e, Step(s, e), gone, created);
    ToldStep(s, e, Step(s, e), gone, created, last);
  }

  // ---------------------------------------------------------------- forks that fail

  /** Every entry of every list is a task, not memory that was freed. */
  ghost predicate NoDanglingLink(s: Tree) {
    forall q, x :: Lives(s, q) && (x in s.tasks[q].alive || x in s.tasks[q].dead) ==> IsTask(s, x)
  }

  /**
    A task that was freed is linked in the alive list of a living task, so lists are sound exactly if there
    is none.
   */
  lemma DanglingIff(s: Tree)
    requires Inv(s)
    ensures NoDanglingLink(s) <==> forall x :: !IsFreed(s, x)
  {
    forall q, x | Lives(s, q) && (x in s.tasks[q].alive || x in s.tasks[q].dead)
      ensures IsTask(s, x) || IsFreed(s, x)
    {
      assert ListsExact(s.tasks, q);
      assert Child(s.tasks, q, x, true) || Child(s.tasks, q, x, false);
    }
    if exists x :: IsFreed(s, x) {
      var x :| IsFreed(s, x);
      assert Sound(s, x);
      assert x != INIT;
      assert ListsExact(s.tasks, s.tasks[x].parent);
      assert Child(s.tasks, s.tasks[x].parent, x, true);
      assert x in s.tasks[s.tasks[x].parent].alive && !IsTask(s, x);
    }
  }

  ghost predicate SomeFreed(s: Tree) {
    exists x :: IsFreed(s, x)
  }

  ghost predicate SomeFailed(es: seq<Event>) {
    exists i :: 0 <= i < |es| && es[i].ForkFailed?
  }

  lemma SomeFailedLast(es: seq<Event>)
    requires es != []
    ensures SomeFailed(es) <==> SomeFailed(Front(es)) || es[|es| - 1].ForkFailed?
  {
    var f := Front(es);
    assert forall i :: 0 <= i < |f| ==> f[i] == es[i];
  }

  lemma SomeFreedStep(s: Tree, e: Event)
    requires Inv(s) && Enabled(s, e)
    ensures SomeFreed(Step(s, e)) <==> SomeFreed(s) || e.ForkFailed?
  {
    var gone := StepEffect(s, e);
    var r := Step(s, e);
    forall x: nat
      ensures IsFreed(r, x) <==> IsFreed(s, x) || (e.ForkFailed? && x == s.next)
    {
      assert EffectAt(s, e, r, gone, x);
    }
    assert e.ForkFailed? ==> IsFreed(r, s.next);
  }

  lemma {:induction false} FreedStays(junk: int, es: seq<Event>)
    requires Possible(junk, es)
    ensures SomeFreed(After(junk, es)) <==> SomeFailed(es)
    decreases |es|
  {
    if es != [] {
      FreedStays(junk, Front(es));
      SomeFailedLast(es);
      SomeFreedStep(After(junk, Front(es)), es[|es| - 1]);
    }
  }

  /** After a run every link in a list leads to a task if and only if no fork of the run failed. */
  lemma DanglingExactlyAfterFailedFork(junk: int, es: seq<Event>)
    requires Possible(junk, es)
    ensures NoDanglingLink(After(junk, es)) <==> forall i :: 0 <= i < |es| ==> !es[i].ForkFailed?
  {
    DanglingIff(After(junk, es));
    FreedStays(junk, es);
  }
}
