/**
  Whether a thread that sleeps in wait is woken when a child exits, and whether a wait fails only
  when there is no child (kern/core/wait_vanish.c:51-62, 111-138). wait reads its two lists and links
  itself in three steps, and a child departs without the mutex that the waiting thread holds meanwhile.
 */
module TaskWakeup {
  import opened TaskTree

  /**
    Whoever sleeps in wait, or is about to, has a child that is not dead, and for every dead child a
    thread has been woken that has yet to run. A wait that has only seen that no child is dead may still
    find that none is alive.
   */
  predicate Promise(p: Task) {
    && (p.asleep > 0 || p.looker == Linking ==> p.alive != [] && p.woken >= |p.dead|)
    && (p.looker == SawNoDead ==> p.alive == [] || p.woken >= |p.dead|)
  }

  /** Threads sleep, nobody has been woken, and wait would not sleep now: the wake-up is lost. */
  predicate Stranded(p: Task) {
    p.asleep > 0 && p.woken == 0 && (p.dead != [] || p.alive == [])
  }

  /**
    A child departs while a thread of its parent is between its look at the dead list and its link, and
    the signal or broadcast for it leaves that thread behind.
   */
  predicate DepartBreaks(p: Task, t: nat) {
    var last, unseen := Without(p.alive, t) == [], p.asleep == 0 && p.woken <= |p.dead|;
    (p.looker == Linking && (last || unseen)) || (p.looker == SawNoDead && !last && unseen)
  }

  /** A fork hides from a thread that has seen no dead child that all its children have died since. */
  predicate ForkBreaks(p: Task) {
    p.looker == SawNoDead && p.alive == [] && p.woken < |p.dead|
  }

  /** init is handed dead children without a signal while it sleeps. */
  predicate HandOverBreaks(init: Task, t: Task) {
    init.asleep > 0 && init.woken < |init.dead| + |t.dead|
  }

  /** The steps that break the promise to the threads of x, told by the state before them. */
  predicate Breaks(s: Tree, e: Event, x: nat)
    requires x in s.tasks && e.t in s.tasks
  {
    || (e.Depart? && s.tasks[e.t].parent == x && DepartBreaks(s.tasks[x], e.t))
    || (e.HandOver? && x == INIT && HandOverBreaks(s.tasks[x], s.tasks[e.t]))
    || ((e.Fork? || e.ForkFailed?) && e.t == x && ForkBreaks(s.tasks[x]))
  }

  lemma BereavedIff(p: Task, t: nat)
    requires Promise(p)
    ensures Promise(Bereaved(p, t)) <==> !DepartBreaks(p, t)
  {
  }

  lemma DepartIff(s: Tree, t: nat, x: nat)
    requires Enabled(s, Depart(t)) && Lives(s, s.tasks[t].parent) && Lives(s, x) && Promise(s.tasks[x])
    ensures Promise(DepartStep(s, t).tasks[x]) <==> !Breaks(s, Depart(t), x)
  {
    BereavedIff(s.tasks[x], t);
  }

  lemma HandOverIff(s: Tree, t: nat, x: nat)
    requires Inv(s) && Enabled(s, HandOver(t)) && Lives(s, x) && x != t && Promise(s.tasks[x])
    ensures Promise(HandOverStep(s, t).tasks[x]) <==> !Breaks(s, HandOver(t), x)
  {
    HandOverShape(s, t, x);
  }

  lemma WaitKeeps(s: Tree, t: nat, x: nat)
    requires Inv(s) && Lives(s, t) && Lives(s, x) && Promise(s.tasks[x]) && s.tasks[t].looker == Nobody
    ensures x in WaitStep(s, t).tasks ==> Promise(WaitStep(s, t).tasks[x])
  {
    WaitExact(s, t);
  }

  lemma ResumeKeeps(s: Tree, t: nat, x: nat)
    requires Inv(s) && Enabled(s, Resume(t)) && Lives(s, x) && Promise(s.tasks[x])
    ensures x in WaitStep(Resumed(s, t), t).tasks ==> Promise(WaitStep(Resumed(s, t), t).tasks[x])
  {
    ResumeInv(s, t);
    WaitExact(Resumed(s, t), t);
  }

  /** For every task, init included, a step keeps the promise if and only if it is none of the three. */
  lemma StepKeepsIff(s: Tree, e: Event, x: nat)
    requires Inv(s) && Enabled(s, e) && Lives(s, x) && Lives(Step(s, e), x) && Promise(s.tasks[x])
    ensures Promise(Step(s, e).tasks[x]) <==> !Breaks(s, e, x)
  {
    match e
    case Fork(t, junk) => ForkChildren(s, t, NewTask(t, junk), t, true);
    case ForkFailed(t, junk) => ForkChildren(s, t, FreedTask(t, junk), t, true);
    case ThreadFork(t) =>
    case SetStatus(t, status) =>
    case Vanish(t) =>
    case HandOver(t) =>
      HandOverShape(s, t, x);
      HandOverIff(s, t, x);
    case Depart(t) =>
      DepartInv(s, t);
      DepartIff(s, t, x);
    case Wait(t) => WaitKeeps(s, t, x);
    case Test(t) =>
    case Link(t) =>
    case Resume(t) => ResumeKeeps(s, t, x);
  }

  /** No step of the run breaks the promise to x. */
  ghost predicate Unbroken(junk: int, es: seq<Event>, x: nat)
    requires Possible(junk, es)
    decreases |es|
  {
    if es == [] then true
    else
      var s, e := After(junk, Front(es)), es[|es| - 1];
      Unbroken(junk, Front(es), x) && (x in s.tasks ==> !Breaks(s, e, x))
  }

  /** Over every run without such a step nobody who sleeps in wait is stranded. */
  lemma {:induction false} NeverStranded(junk: int, es: seq<Event>, x: nat)
    requires Possible(junk, es) && Unbroken(junk, es, x)
    ensures Lives(After(junk, es), x) ==> Promise(After(junk, es).tasks[x]) && !Stranded(After(junk, es).tasks[x])
    decreases |es|
  {
    if es != [] {
      NeverStranded(junk, Front(es), x);
      var s, e := After(junk, Front(es)), es[|es| - 1];
      if Lives(s, x) && Lives(Step(s, e), x) {
        StepKeepsIff(s, e, x);
      } else {
        FreshPromise(s, e, x);
      }
    }
  }

  /** Nobody waits in a new task, and no task comes back to life. */
  lemma FreshPromise(s: Tree, e: Event, x: nat)
    requires Inv(s) && Enabled(s, e) && !(Lives(s, x) && Lives(Step(s, e), x))
    ensures Lives(Step(s, e), x) ==> Promise(Step(s, e).tasks[x])
  {
    match e
    case Fork(t, junk) => ForkChildren(s, t, NewTask(t, junk), t, true);
    case ForkFailed(t, junk) => ForkChildren(s, t, FreedTask(t, junk), t, true);
    case ThreadFork(t) =>
    case SetStatus(t, status) =>
    case Vanish(t) =>
    case HandOver(t) =>
      if x in s.tasks {
        HandOverShape(s, t, x);
      }
    case Depart(t) => DepartInv(s, t);
    case Wait(t) => WaitExact(s, t);
    case Test(t) =>
    case Link(t) =>
    case Resume(t) =>
      ResumeInv(s, t);
      WaitExact(Resumed(s, t), t);
  }

  // ---------------------------------------------------------------- runs that strand a task

  lemma Extend(junk: int, es: seq<Event>, e: Event)
    requires Possible(junk, es) && Enabled(After(junk, es), e)
    ensures Possible(junk, es + [e]) && After(junk, es + [e]) == Step(After(junk, es), e)
  {
    assert Front(es + [e]) == es;
  }

  lemma Onward(junk: int, es: seq<Event>, s: Tree, e: Event, r: Tree)
    requires Possible(junk, es) && After(junk, es) == s && Enabled(s, e) && Step(s, e) == r
    ensures Possible(junk, es + [e]) && After(junk, es + [e]) == r
  {
    Extend(junk, es, e);
  }

  /** A task that only has children that are alive. */
  function With(parent: nat, children: seq<nat>): Task {
    NewTask(parent, 0).(alive := children)
  }

  // init (1) forks 2, 2 forks 3, 3 forks 4.
  function One(): Tree {
    Tree(map[1 := With(0, [2]), 2 := With(1, [])], 3, [])
  }

  function Two(): Tree {
    Tree(map[1 := With(0, [2]), 2 := With(1, [3]), 3 := With(2, [])], 4, [])
  }

  function Three(): Tree {
    Tree(map[1 := With(0, [2]), 2 := With(1, [3]), 3 := With(2, [4]), 4 := With(3, [])], 5, [])
  }

  lemma Forks()
    ensures ForkStep(Start(0), 1, NewTask(1, 0)) == One()
    ensures ForkStep(One(), 2, NewTask(2, 0)) == Two() && ForkStep(Two(), 3, NewTask(3, 0)) == Three()
  {
    var none: seq<nat> := [];
    assert none + [2] == [2] && none + [3] == [3] && none + [4] == [4];
    assert ForkStep(Start(0), 1, NewTask(1, 0)).tasks == One().tasks;
    assert ForkStep(One(), 2, NewTask(2, 0)).tasks == Two().tasks;
    assert ForkStep(Two(), 3, NewTask(3, 0)).tasks == Three().tasks;
  }

  lemma Family() returns (es: seq<Event>)
    ensures Possible(0, es) && After(0, es) == Two()
    ensures Possible(0, es + [Fork(3, 0)]) && After(0, es + [Fork(3, 0)]) == Three()
  {
    Forks();
    es := [];
    assert Possible(0, es) && After(0, es) == Start(0);
    Onward(0, es, Start(0), Fork(1, 0), One());
    es := es + [Fork(1, 0)];
    Onward(0, es, One(), Fork(2, 0), Two());
    es := es + [Fork(2, 0)];
    Onward(0, es, Two(), Fork(3, 0), Three());
  }

  /** A task t without children, whose parent is not init, leaves and goes to the dead list of its parent. */
  lemma LeaveStep(s: Tree, t: nat)
    requires Inv(s) && Enabled(s, HandOver(t)) && s.tasks[t].parent != INIT
    requires s.tasks[t].alive == [] && s.tasks[t].dead == []
    ensures var m, p := HandOverStep(s, t), s.tasks[t].parent;
      && m.tasks[t].phase == Leaving && m.tasks[t].parent == p && p in s.tasks && p != t
      && DepartStep(m, t).tasks.Keys == s.tasks.Keys
      && DepartStep(m, t).tasks[p] == Bereaved(s.tasks[p], t)
      && forall x :: x in s.tasks && x != t && x != p ==> DepartStep(m, t).tasks[x] == s.tasks[x]
  {
    assert Sound(s, t);
    HandOverShape(s, t, t);
    forall x | x in s.tasks && x != t
      ensures HandOverStep(s, t).tasks[x] == s.tasks[x]
    {
      Childless(s, t, x);
    }
  }

  lemma Childless(s: Tree, t: nat, x: nat)
    requires Inv(s) && Enabled(s, HandOver(t)) && x in s.tasks && x != t
    requires s.tasks[t].alive == [] && s.tasks[t].dead == []
    ensures HandOverStep(s, t).tasks[x] == s.tasks[x]
  {
    HandOverShape(s, t, x);
    HandedOver(s, t, x);
  }

  lemma Leaves(es: seq<Event>, s: Tree, t: nat)
    requires Possible(0, es) && After(0, es) == s && Enabled(s, HandOver(t)) && s.tasks[t].parent != INIT
    requires s.tasks[t].alive == [] && s.tasks[t].dead == []
    ensures var es', m := es + [HandOver(t)] + [Depart(t)], HandOverStep(s, t);
      && t in m.tasks && m.tasks[t].parent in m.tasks && m.tasks[t].parent != t
      && Possible(0, es') && After(0, es') == DepartStep(m, t)
  {
    LeaveStep(s, t);
    Onward(0, es, s, HandOver(t), HandOverStep(s, t));
    Onward(0, es + [HandOver(t)], HandOverStep(s, t), Depart(t), DepartStep(HandOverStep(s, t), t));
  }

  /** A task whose only thread looks at its dead list in vain, then at its alive list, and then sleeps. */
  lemma Looks(es: seq<Event>, s: Tree, t: nat)
    requires Possible(0, es) && After(0, es) == s && Lives(s, t) && s.tasks[t].threads == 1 && Waiters(s.tasks[t]) == 0
    requires s.tasks[t].dead == []
    ensures Possible(0, es + [Wait(t)])
    ensures After(0, es + [Wait(t)]) == s.(tasks := s.tasks[t := s.tasks[t].(looker := SawNoDead)])
  {
    Extend(0, es, Wait(t));
  }

  lemma Tests(es: seq<Event>, s: Tree, t: nat)
    requires Possible(0, es) && After(0, es) == s && Lives(s, t) && s.tasks[t].looker == SawNoDead
    requires s.tasks[t].alive != []
    ensures Possible(0, es + [Test(t)])
    ensures After(0, es + [Test(t)]) == s.(tasks := s.tasks[t := s.tasks[t].(looker := Linking)])
  {
    Extend(0, es, Test(t));
  }

  /** 2, whose only child is 3, has looked once or twice. */
  lemma ParentLooks(twice: bool) returns (es: seq<Event>, s: Tree)
    ensures Possible(0, es) && After(0, es) == s && 1 in s.tasks && 2 in s.tasks && 3 in s.tasks
    ensures s.tasks[1].looker == Nobody && s.tasks[3] == With(2, [])
    ensures s.tasks[2] == With(1, [3]).(looker := if twice then Linking else SawNoDead)
  {
    es := Family();
    Looks(es, Two(), 2);
    es := es + [Wait(2)];
    s := After(0, es);
    if twice {
      Tests(es, s, 2);
      es := es + [Test(2)];
      s := After(0, es);
    }
  }

  lemma BereavedOf3(looker: Looker)
    ensures Bereaved(With(1, [3]).(looker := looker), 3) == With(1, []).(looker := looker, dead := [3])
  {
    var none: seq<nat> := [];
    assert Without([3], 3) == none && none + [3] == [3];
  }

  /** Then 3 exits. */
  lemma ChildLeaves(twice: bool) returns (es: seq<Event>)
    ensures Possible(0, es) && 2 in After(0, es).tasks
    ensures After(0, es).tasks[2] == With(1, []).(looker := if twice then Linking else SawNoDead, dead := [3])
  {
    var s;
    es, s := ParentLooks(twice);
    BereavedOf3(if twice then Linking else SawNoDead);
    es := ChildOf2Leaves(es, s);
  }

  lemma ChildOf2Leaves(es: seq<Event>, s: Tree) returns (es': seq<Event>)
    requires Possible(0, es) && After(0, es) == s && 1 in s.tasks && 2 in s.tasks && 3 in s.tasks
    requires s.tasks[1].looker == Nobody && s.tasks[3] == With(2, [])
    ensures Possible(0, es') && 2 in After(0, es').tasks
    ensures After(0, es').tasks[2] == Bereaved(s.tasks[2], 3)
  {
    Leaves(es, s, 3);
    LeaveStep(s, 3);
    es' := es + [HandOver(3)] + [Depart(3)];
  }

  /**
    An ordinary task can be stranded: 2 looks and finds that it has to sleep; its child exits and signals
    an empty queue; then 2 links itself and sleeps beside its dead child.
   */
  lemma ParentStranded() returns (es: seq<Event>)
    ensures Possible(0, es) && Lives(After(0, es), 2)
    ensures var p := After(0, es).tasks[2]; Stranded(p) && p.dead == [3] && p.alive == []
  {
    es := ChildLeaves(true);
    Extend(0, es, Link(2));
    es := es + [Link(2)];
  }

  /** A wait can fail although there is a dead child: it exits between the two looks. */
  lemma FailsWrongly() returns (es: seq<Event>)
    ensures Possible(0, es) && Enabled(After(0, es), Test(2))
    ensures var p := After(0, es).tasks[2]; TestOutcome(p).Failed? && p.dead == [3]
  {
    es := ChildLeaves(false);
  }

  /**
    init can be stranded without that race: 4 exits and is inherited by init, which sleeps, when 3 exits,
    whose own parent is 2.
   */
  lemma InitStranded() returns (es: seq<Event>)
    ensures Possible(0, es) && Lives(After(0, es), INIT)
    ensures var p := After(0, es).tasks[INIT]; Stranded(p) && p.dead == [4]
  {
    var s;
    es, s := InitSleeps();
    Leaves(es, s, 4);
    LeaveStep(s, 4);
    es := es + [HandOver(4)] + [Depart(4)];
    var r := After(0, es);
    Extend(0, es, HandOver(3));
    HandOverShape(r, 3, INIT);
    es := es + [HandOver(3)];
  }

  lemma InitSleeps() returns (es: seq<Event>, s: Tree)
    ensures Possible(0, es) && After(0, es) == s && 1 in s.tasks && 2 in s.tasks && 3 in s.tasks && 4 in s.tasks
    ensures s.tasks[1] == With(0, [2]).(asleep := 1) && s.tasks[3] == With(2, [4]) && s.tasks[4] == With(3, [])
  {
    es := Family();
    es := es + [Fork(3, 0)];
    Looks(es, Three(), 1);
    es := es + [Wait(1)];
    Tests(es, After(0, es), 1);
    es := es + [Test(1)];
    Extend(0, es, Link(1));
    es := es + [Link(1)];
    s := After(0, es);
  }
}
