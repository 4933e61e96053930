/** The system calls of the task tree as they update the task structures, one field after the other. */
module TaskKernel {
  import opened TaskTree

  /** A task that is not on the list does not matter to what happens to the list. */
  lemma Elsewhere(ts: map<nat, Task>, t: nat, v: Task, list: seq<nat>)
    requires t in ts && t !in list
    ensures Adopted(ts[t := v], list) == Adopted(ts, list)[t := v]
  {
  }

  lemma OnlyChildren(s: Tree, t: nat)
    requires Last(s, t)
    ensures forall x :: x in s.tasks[t].alive || x in s.tasks[t].dead ==> x in s.tasks && x != t && x != INIT
  {
    forall x | x in s.tasks[t].alive || x in s.tasks[t].dead
      ensures x in s.tasks && x != t && x != INIT
    {
      HandedOver(s, t, x);
    }
  }

  function Concatenated(ts: map<nat, Task>, t: nat): map<nat, Task>
    requires t in ts && INIT in ts
  {
    var q, i := ts[t], ts[INIT];
    ts[INIT := i.(alive := i.alive + q.alive, dead := i.dead + q.dead)]
      [t := q.(alive := Leftover(i.alive, q.alive), dead := Leftover(i.dead, q.dead))]
  }

  /** It makes no difference that the code has taken the thread off its list before it hands the children over. */
  lemma Rearranged(s: Tree, t: nat)
    requires Last(s, t)
    ensures var q := s.tasks[t].(phase := Leaving);
      var a := Adopted(Adopted(s.tasks[t := q], q.alive), q.dead);
      t in a && INIT in a && Concatenated(a, t) == HandOverStep(s, t).tasks
  {
    var q := s.tasks[t].(phase := Leaving);
    OnlyChildren(s, t);
    Elsewhere(s.tasks, t, q, q.alive);
    Elsewhere(Adopted(s.tasks, q.alive), t, q, q.dead);
    SameConcat(Adopted(Adopted(s.tasks, q.alive), q.dead), t, s.tasks[t], s.tasks[INIT]);
  }

  lemma SameConcat(a: map<nat, Task>, t: nat, q: Task, i: Task)
    requires t in a && INIT in a && t != INIT && a[t] == q && a[INIT] == i
    ensures Concatenated(a[t := q.(phase := Leaving)], t)
      == a[INIT := a[INIT].(alive := i.alive + q.alive, dead := i.dead + q.dead)]
          [t := a[t].(alive := Leftover(i.alive, q.alive), dead := Leftover(i.dead, q.dead), phase := Leaving)]
  {
  }

  lemma SameOutcome(s: Tree, t: nat)
    requires t in s.tasks && s.tasks[t].woken > 0
    ensures WaitOutcome(Resumed(s, t), t) == WaitOutcome(s, t)
  {
  }

  class Kernel {
    var tasks: map<nat, Task>
    var next: nat
    ghost var reaped: seq<(nat, int)>

    ghost function State(): Tree
      reads this
    {
      Tree(tasks, next, reaped)
    }

    /** `load_init_task` */
    constructor (junk: int)
      ensures State() == Start(junk)
    {
      tasks, next, reaped := map[INIT := NewTask(0, junk)], 2, [];
    }

    /** `do_fork`; `cloned` says whether there was memory to clone the address space. */
    method Fork(t: nat, junk: int, cloned: bool) returns (id: nat)
      requires Inv(State()) && Enabled(State(), Event.Fork(t, junk))
      modifies this
      ensures Inv(State()) && id !in old(tasks) && id in tasks && tasks[id].parent == t
      ensures State() == Step(old(State()), if cloned then Event.Fork(t, junk) else Event.ForkFailed(t, junk))
    {
      StepInv(State(), Event.Fork(t, junk));
      StepInv(State(), Event.ForkFailed(t, junk));
      ForkChildren(State(), t, NewTask(t, junk), t, true);
      id := LinkChild(t, junk, cloned);
    }

    /** The new task is linked first and freed afterwards if the clone fails; its link stays. */
    method LinkChild(t: nat, junk: int, cloned: bool) returns (id: nat)
      requires t in tasks && next !in tasks
      modifies this
      ensures State() == ForkStep(old(State()), t, if cloned then NewTask(t, junk) else FreedTask(t, junk))
      ensures id == old(next)
    {
      id := next;
      next := next + 1;
      tasks := tasks[id := NewTask(t, junk)];
      tasks := tasks[t := tasks[t].(alive := tasks[t].alive + [id])];
      if !cloned {
        tasks := tasks[id := tasks[id].(phase := Freed, threads := 0)];
      }
      assert tasks == ForkStep(old(State()), t, if cloned then NewTask(t, junk) else FreedTask(t, junk)).tasks;
    }

    /** `reparent_to_init` */
    method ReparentToInit(list: seq<nat>)
      requires forall x :: x in list ==> x in tasks
      modifies this`tasks
      ensures tasks == Adopted(old(tasks), list)
    {
      assert tasks == Adopted(tasks, list[..0]);
      for i := 0 to |list|
        invariant tasks == Adopted(old(tasks), list[..i])
      {
        tasks := tasks[list[i] := tasks[list[i]].(parent := INIT)];
        assert list[..i + 1] == list[..i] + [list[i]];
      }
      assert list[..|list|] == list;
    }

    /** `do_vanish` by a thread that is not the last of its task. */
    method Vanish(t: nat)
      requires Inv(State()) && Enabled(State(), Event.Vanish(t))
      modifies this
      ensures Inv(State()) && State() == Step(old(State()), Event.Vanish(t))
    {
      StepInv(State(), Event.Vanish(t));
      tasks := tasks[t := tasks[t].(threads := tasks[t].threads - 1)];
    }

    /** `do_vanish` by the last thread, up to where it unlocks the list of init: the children go to init. */
    method HandOver(t: nat)
      requires Inv(State()) && Enabled(State(), Event.HandOver(t))
      modifies this
      ensures Inv(State()) && State() == Step(old(State()), Event.HandOver(t))
    {
      StepInv(State(), Event.HandOver(t));
      Bequeath(t, State());
    }

    method Bequeath(t: nat, ghost s: Tree)
      requires Last(s, t) && State() == s
      modifies this`tasks
      ensures State() == HandOverStep(s, t)
    {
      var q := tasks[t].(phase := Leaving);
      tasks := tasks[t := q];
      OnlyChildren(s, t);
      ReparentToInit(q.alive);
      ReparentToInit(q.dead);
      Rearranged(s, t);
      ConcatLists(t);
    }

    /** The two calls of `concat_lists`. */
    method ConcatLists(t: nat)
      requires t in tasks && INIT in tasks && t != INIT
      modifies this`tasks
      ensures tasks == Concatenated(old(tasks), t)
    {
      var q, i := tasks[t], tasks[INIT];
      tasks := tasks[INIT := i.(alive := i.alive + q.alive)];
      tasks := tasks[t := tasks[t].(alive := Leftover(i.alive, q.alive))];
      tasks := tasks[INIT := tasks[INIT].(dead := i.dead + q.dead)];
      tasks := tasks[t := tasks[t].(dead := Leftover(i.dead, q.dead))];
    }

    /** The rest of `do_vanish`: the task moves to the dead list of its parent, and the parent is told. */
    method Depart(t: nat)
      requires Inv(State()) && Enabled(State(), Event.Depart(t))
      modifies this
      ensures Inv(State()) && State() == Step(old(State()), Event.Depart(t))
    {
      StepInv(State(), Event.Depart(t));
      assert Sound(State(), t);
      Exit(t);
    }

    method Exit(t: nat)
      requires t in tasks && tasks[t].parent in tasks && tasks[t].parent != t
      modifies this`tasks
      ensures State() == DepartStep(old(State()), t)
    {
      var p := tasks[t].parent;
      tasks := tasks[t := tasks[t].(phase := Dead, threads := 0)];
      tasks := tasks[p := tasks[p].(alive := Without(tasks[p].alive, t))];
      tasks := tasks[p := tasks[p].(dead := tasks[p].dead + [t])];
      var told := tasks[p];
      if told.alive == [] {
        tasks := tasks[p := told.(woken := told.woken + told.asleep, asleep := 0)];
      } else if told.asleep > 0 {
        tasks := tasks[p := told.(woken := told.woken + 1, asleep := told.asleep - 1)];
      }
    }

    /** `do_wait` looks at the dead list, and reaps if there is an entry. */
    method Wait(t: nat) returns (r: Outcome)
      requires Inv(State()) && Enabled(State(), Event.Wait(t))
      modifies this
      ensures Inv(State()) && State() == Step(old(State()), Event.Wait(t))
      ensures r == WaitOutcome(old(State()), t)
    {
      StepInv(State(), Event.Wait(t));
      WaitExact(State(), t);
      r := Look(t);
    }

    /** `do_wait` looks at the alive list, and fails if it is empty. */
    method Test(t: nat) returns (r: Outcome)
      requires Inv(State()) && Enabled(State(), Event.Test(t))
      modifies this
      ensures Inv(State()) && State() == Step(old(State()), Event.Test(t))
      ensures r == TestOutcome(old(tasks)[t])
    {
      StepInv(State(), Event.Test(t));
      r := LookAlive(t);
    }

    method LookAlive(t: nat) returns (r: Outcome)
      requires t in tasks
      modifies this
      ensures State() == TestStep(old(State()), t) && r == TestOutcome(old(tasks)[t])
    {
      if tasks[t].alive == [] {
        tasks := tasks[t := tasks[t].(looker := Nobody)];
        r := Failed;
      } else {
        tasks := tasks[t := tasks[t].(looker := Linking)];
        r := MustSleep;
      }
    }

    /** `cond_wait` links the thread and puts it to sleep. */
    method Link(t: nat)
      requires Inv(State()) && Enabled(State(), Event.Link(t))
      modifies this
      ensures Inv(State()) && State() == Step(old(State()), Event.Link(t))
    {
      StepInv(State(), Event.Link(t));
      Sleep(t);
    }

    method Sleep(t: nat)
      requires t in tasks
      modifies this
      ensures State() == LinkStep(old(State()), t)
    {
      tasks := tasks[t := tasks[t].(asleep := tasks[t].asleep + 1)];
      tasks := tasks[t := tasks[t].(looker := Nobody)];
    }

    /** A thread that was woken in `do_wait` looks again. */
    method Resume(t: nat) returns (r: Outcome)
      requires Inv(State()) && Enabled(State(), Event.Resume(t))
      modifies this
      ensures Inv(State()) && State() == Step(old(State()), Event.Resume(t))
      ensures r == WaitOutcome(old(State()), t)
    {
      StepInv(State(), Event.Resume(t));
      ResumeInv(State(), t);
      WaitExact(Resumed(State(), t), t);
      SameOutcome(State(), t);
      Run(t);
      r := Look(t);
    }

    method Run(t: nat)
      requires t in tasks && tasks[t].woken > 0
      modifies this
      ensures State() == Resumed(old(State()), t)
    {
      tasks := tasks[t := tasks[t].(woken := tasks[t].woken - 1)];
    }

    method Look(t: nat) returns (r: Outcome)
      requires t in tasks && (tasks[t].dead != [] ==> tasks[t].dead[0] in tasks && tasks[t].dead[0] != t)
      modifies this
      ensures State() == WaitStep(old(State()), t) && r == WaitOutcome(old(State()), t)
    {
      var q := tasks[t];
      if q.dead != [] {
        var id := q.dead[0];
        tasks := tasks[t := q.(dead := q.dead[1..])];
        r := Reaped(id, tasks[id].status);
        tasks := tasks - {id};
        reaped := reaped + [(id, r.status)];
      } else {
        tasks := tasks[t := q.(looker := SawNoDead)];
        r := NoneDead;
      }
    }
  }
}
