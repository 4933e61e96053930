/**
  The steps that break the promise to those who sleep in wait are exactly the ones that matter: after
  each of them the threads of the task can go on, without any step of another task, until one of them
  sleeps beside a dead child, or without any child, and nobody is left to wake it.
 */
module TaskStranding {
  import opened TaskTree
  import opened TaskWakeup

  /** Steps that the threads of x take inside wait. */
  predicate Own(e: Event, x: nat) {
    e == Test(x) || e == Link(x) || e == Resume(x)
  }

  /** Somebody sleeps, and those who were woken are not as many as the dead children, or no child is left alive. */
  predicate Doomed(p: Task) {
    p.looker == Nobody && p.asleep > 0 && (p.woken < |p.dead| || p.alive == [])
  }

  /** From s the threads of x can take these steps, and then one of them is stranded. */
  ghost predicate Strands(s: Tree, more: seq<Event>, x: nat)
    decreases |more|
  {
    if more == [] then Lives(s, x) && Stranded(s.tasks[x])
    else Inv(s) && Own(more[0], x) && Enabled(s, more[0]) && Strands(Step(s, more[0]), more[1..], x)
  }

  lemma StrandsOn(s: Tree, e: Event, more: seq<Event>, x: nat)
    requires Inv(s) && Own(e, x) && Enabled(s, e) && Strands(Step(s, e), more, x)
    ensures Strands(s, [e] + more, x)
  {
    assert ([e] + more)[1..] == more;
  }

  lemma ReapStep(s: Tree, x: nat)
    requires Inv(s) && Lives(s, x) && Enabled(s, Resume(x)) && s.tasks[x].dead != []
    ensures var q := s.tasks[x];
      Lives(Step(s, Resume(x)), x) && Step(s, Resume(x)).tasks[x] == q.(woken := q.woken - 1, dead := q.dead[1..])
  {
    assert ListsExact(s.tasks, x);
    var d := s.tasks[x].dead[0];
    assert Child(s.tasks, x, d, false);
    assert Sound(s, d);
  }

  /** The woken threads run one after the other; each reaps or fails. */
  lemma {:induction false} Drain(s: Tree, x: nat) returns (more: seq<Event>)
    requires Inv(s) && Lives(s, x) && Doomed(s.tasks[x])
    ensures Strands(s, more, x)
    decreases s.tasks[x].woken
  {
    if s.tasks[x].woken == 0 {
      more := [];
    } else if s.tasks[x].dead != [] {
      StepInv(s, Resume(x));
      ReapStep(s, x);
      more := Drain(Step(s, Resume(x)), x);
      StrandsOn(s, Resume(x), more, x);
      more := [Resume(x)] + more;
    } else {
      more := DrainOne(s, x);
    }
  }

  /** A woken thread that finds no child at all fails. */
  lemma {:induction false} DrainOne(s: Tree, x: nat) returns (more: seq<Event>)
    requires Inv(s) && Lives(s, x) && Doomed(s.tasks[x]) && s.tasks[x].woken > 0 && s.tasks[x].dead == []
    ensures Strands(s, more, x)
    decreases s.tasks[x].woken, 0
  {
    var q := s.tasks[x];
    StepInv(s, Resume(x));
    var m := Step(s, Resume(x));
    assert Lives(m, x) && m.tasks[x] == q.(woken := q.woken - 1, looker := SawNoDead);
    StepInv(m, Test(x));
    var r := Step(m, Test(x));
    assert Lives(r, x) && r.tasks[x] == q.(woken := q.woken - 1);
    more := Drain(r, x);
    StrandsOn(m, Test(x), more, x);
    StrandsOn(s, Resume(x), [Test(x)] + more, x);
    more := [Resume(x)] + ([Test(x)] + more);
  }

  lemma LinkDrain(s: Tree, x: nat) returns (more: seq<Event>)
    requires Inv(s) && Lives(s, x)
    requires var q := s.tasks[x]; q.looker == Linking && (q.woken < |q.dead| || q.alive == [])
    ensures Strands(s, more, x)
  {
    StepInv(s, Link(x));
    more := Drain(Step(s, Link(x)), x);
    StrandsOn(s, Link(x), more, x);
    more := [Link(x)] + more;
  }

  lemma TestDrain(s: Tree, x: nat) returns (more: seq<Event>)
    requires Inv(s) && Lives(s, x)
    requires var q := s.tasks[x]; q.looker == SawNoDead && q.woken < |q.dead| && q.alive != []
    ensures Strands(s, more, x)
  {
    StepInv(s, Test(x));
    more := LinkDrain(Step(s, Test(x)), x);
    StrandsOn(s, Test(x), more, x);
    more := [Test(x)] + more;
  }

  /** What a task is like after a step that broke the promise to it. */
  predicate Broken(p: Task) {
    || Doomed(p)
    || (p.looker == Linking && (p.woken < |p.dead| || p.alive == []))
    || (p.looker == SawNoDead && p.woken < |p.dead| && p.alive != [])
  }

  lemma BrokenStep(s: Tree, e: Event, x: nat)
    requires Inv(s) && Enabled(s, e) && x in s.tasks && Breaks(s, e, x)
    ensures Lives(Step(s, e), x) && Broken(Step(s, e).tasks[x])
  {
    assert Sound(s, e.t);
    match e
    case Fork(t, junk) => assert Sound(s, x);
    case ForkFailed(t, junk) => assert Sound(s, x);
    case HandOver(t) => HandOverShape(s, t, x);
    case Depart(t) =>
  }

  /** After every step that breaks the promise the threads of the task can strand one of themselves. */
  lemma BreaksStrands(s: Tree, e: Event, x: nat) returns (more: seq<Event>)
    requires Inv(s) && Enabled(s, e) && x in s.tasks && Breaks(s, e, x)
    ensures Strands(Step(s, e), more, x)
  {
    BrokenStep(s, e, x);
    StepInv(s, e);
    var r := Step(s, e);
    if Doomed(r.tasks[x]) {
      more := Drain(r, x);
    } else if r.tasks[x].looker == Linking {
      more := LinkDrain(r, x);
    } else {
      more := TestDrain(r, x);
    }
  }

  // ---------------------------------------------------------------- the exact condition

  /** The steps of x itself break no promise. */
  lemma {:induction false} PromiseHolds(s: Tree, more: seq<Event>, x: nat)
    requires Lives(s, x) ==> Promise(s.tasks[x])
    ensures !Strands(s, more, x)
    decreases |more|
  {
    if more != [] && Inv(s) && Own(more[0], x) && Enabled(s, more[0]) {
      OwnKeeps(s, more[0], x);
      PromiseHolds(Step(s, more[0]), more[1..], x);
    }
  }

  lemma OwnKeeps(s: Tree, e: Event, x: nat)
    requires Inv(s) && Own(e, x) && Enabled(s, e) && Promise(s.tasks[x])
    ensures Lives(Step(s, e), x) ==> Promise(Step(s, e).tasks[x])
  {
    if Lives(Step(s, e), x) {
      StepKeepsIff(s, e, x);
    }
  }

  /** The n-th event breaks the promise to x. */
  ghost predicate BreaksAt(junk: int, es: seq<Event>, n: nat, x: nat)
    requires Possible(junk, es) && n < |es|
  {
    var s, e := At(junk, es, n), es[n];
    x in s.tasks && e.t in s.tasks && Breaks(s, e, x)
  }

  lemma {:induction false} FirstBroken(junk: int, es: seq<Event>, x: nat) returns (n: nat)
    requires Possible(junk, es) && !Unbroken(junk, es, x)
    ensures n < |es| && BreaksAt(junk, es, n, x)
    decreases |es|
  {
    n := |es| - 1;
    AtLast(junk, es);
    if !BreaksAt(junk, es, n, x) {
      n := FirstBroken(junk, Front(es), x);
      AtFront(junk, es, n);
    }
  }

  lemma {:induction false} PromiseAt(junk: int, es: seq<Event>, n: nat, x: nat)
    requires Possible(junk, es) && Unbroken(junk, es, x) && n <= |es|
    ensures Lives(At(junk, es, n), x) ==> Promise(At(junk, es, n).tasks[x])
    decreases |es|
  {
    if n == |es| {
      NeverStranded(junk, es, x);
    } else {
      PromiseAt(junk, Front(es), n, x);
    }
  }

  /** After n events the threads of x could go on by themselves until one of them is stranded. */
  ghost predicate Strandable(junk: int, es: seq<Event>, n: nat, x: nat)
    requires Possible(junk, es) && n <= |es|
  {
    exists more :: Strands(At(junk, es, n), more, x)
  }

  lemma NeverStrandable(junk: int, es: seq<Event>, n: nat, x: nat)
    requires Possible(junk, es) && Unbroken(junk, es, x) && n <= |es|
    ensures !Strandable(junk, es, n, x)
  {
    PromiseAt(junk, es, n, x);
    forall more
      ensures !Strands(At(junk, es, n), more, x)
    {
      PromiseHolds(At(junk, es, n), more, x);
    }
  }

  lemma SomewhereStrandable(junk: int, es: seq<Event>, x: nat) returns (n: nat)
    requires Possible(junk, es) && !Unbroken(junk, es, x)
    ensures n <= |es| && Strandable(junk, es, n, x)
  {
    n := FirstBroken(junk, es, x);
    AtStep(junk, es, n);
    var more := BreaksStrands(At(junk, es, n), es[n], x);
    n := n + 1;
    assert Strands(At(junk, es, n), more, x);
  }

  /**
    No step of a run breaks the promise to x if and only if at no point of the run the threads of x could go
    on by themselves until one of them is stranded.
   */
  lemma StrandableIff(junk: int, es: seq<Event>, x: nat)
    requires Possible(junk, es)
    ensures Unbroken(junk, es, x) <==> forall n :: 0 <= n <= |es| ==> !Strandable(junk, es, n, x)
  {
    if Unbroken(junk, es, x) {
      forall n | 0 <= n <= |es|
        ensures !Strandable(junk, es, n, x)
      {
        NeverStrandable(junk, es, n, x);
      }
    } else {
      var n := SomewhereStrandable(junk, es, x);
    }
  }
}
