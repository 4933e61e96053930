/**
  The tree of tasks: fork, set_status, vanish and wait (kern/core/fork.c, kern/core/wait_vanish.c,
  kern/syscalls/lifecycle_syscalls.c), with the threads that sleep in wait.

  A wait reads the head of the dead list in one step, the head of the alive list in the next, and links
  itself on exit_cond_var in a third; all the while it holds the child_list_mutex of its task. The last
  thread of a task hands the children over to init in one step, under the child_list_mutex of init, and
  moves the task to the dead list of its parent in a later one, which takes no mutex.
 */
module TaskTree {
  /**
    A task that is leaving has handed its children over. A fork that fails frees the new task and
    leaves its link in the list of the parent.
   */
  datatype Phase = Living | Leaving | Dead | Freed

  /**
    Who holds the child_list_mutex of a task: nobody, a wait that has seen no dead child, or one that has
    seen one alive as well, so that it has to sleep, and has not linked itself yet.
   */
  datatype Looker = Nobody | SawNoDead | Linking

  /**
    A task. `alive` and `dead` are the lists behind child_task_head and dead_child_head. Of its
    threads, one may be the looker, `asleep` threads sleep on exit_cond_var, and `woken` ones have been
    signalled but have not yet run.
   */
  datatype Task = Task(parent: nat, alive: seq<nat>, dead: seq<nat>, status: int, phase: Phase,
                       threads: nat, looker: Looker, asleep: nat, woken: nat)

  /** All tasks not yet reaped, the next id, and what the waits returned, as pairs of id and exit status. */
  datatype Tree = Tree(tasks: map<nat, Task>, next: nat, reaped: seq<(nat, int)>)

  const INIT: nat := 1

  datatype Event =
    | Fork(t: nat, junk: int)
    | ForkFailed(t: nat, junk: int)        // there was no memory to clone the address space
    | ThreadFork(t: nat)
    | SetStatus(t: nat, status: int)
    | Vanish(t: nat)                       // a thread that is not the last one
    | HandOver(t: nat)                     // the last thread: the children go to init
    | Depart(t: nat)                       // and then the task goes to the dead list of its parent
    | Wait(t: nat)                         // wait looks at the dead list
    | Test(t: nat)                         // then at the alive list
    | Link(t: nat)                         // and then goes to sleep
    | Resume(t: nat)                       // a thread that was woken looks at the dead list again

  function NewTask(parent: nat, junk: int): Task {
    Task(parent, [], [], junk, Living, 1, Nobody, 0, 0)
  }

  function Start(junk: int): Tree {
    Tree(map[INIT := NewTask(0, junk)], 2, [])
  }

  predicate Exited(s: Tree, t: nat)
    requires t in s.tasks
  {
    s.tasks[t].phase == Dead
  }

  predicate Lives(s: Tree, t: nat) {
    t in s.tasks && s.tasks[t].phase == Living
  }

  /** The threads that are somewhere inside wait. */
  function Waiters(q: Task): nat {
    q.asleep + q.woken + if q.looker == Nobody then 0 else 1
  }

  /** Which step can come next; init keeps its last thread. */
  predicate Enabled(s: Tree, e: Event) {
    && e.t in s.tasks && INIT in s.tasks
    && var q := s.tasks[e.t];
      match e {
        case Depart(_) => q.phase == Leaving
        case Test(_) => q.phase == Living && q.looker == SawNoDead
        case Link(_) => q.phase == Living && q.looker == Linking
        case Resume(_) => q.phase == Living && q.woken > 0 && q.looker == Nobody
        case Wait(_) => q.phase == Living && Waiters(q) < q.threads && q.looker == Nobody
        case Vanish(_) => q.phase == Living && Waiters(q) < q.threads && q.threads > 1
        case HandOver(_) =>
          q.phase == Living && q.threads == 1 && Waiters(q) == 0 && e.t != INIT && s.tasks[INIT].looker == Nobody
        case _ => q.phase == Living && Waiters(q) < q.threads
      }
  }

  // ---------------------------------------------------------------- steps

  /** do_fork: the child is linked before its address space is cloned, and if that fails its memory is freed. */
  function ForkStep(s: Tree, t: nat, child: Task): Tree
    requires t in s.tasks
  {
    var p := s.tasks[t];
    Tree(s.tasks[t := p.(alive := p.alive + [s.next])][s.next := child], s.next + 1, s.reaped)
  }

  function FreedTask(parent: nat, junk: int): Task {
    NewTask(parent, junk).(phase := Freed, threads := 0)
  }

  /** do_thread_fork: threads and tasks draw their ids from one counter. */
  function ThreadForkStep(s: Tree, t: nat): Tree
    requires t in s.tasks
  {
    s.(tasks := s.tasks[t := s.tasks[t].(threads := s.tasks[t].threads + 1)], next := s.next + 1)
  }

  /** set_status_handler_c */
  function SetStatusStep(s: Tree, t: nat, status: int): Tree
    requires t in s.tasks
  {
    s.(tasks := s.tasks[t := s.tasks[t].(status := status)])
  }

  function VanishStep(s: Tree, t: nat): Tree
    requires t in s.tasks && s.tasks[t].threads > 0
  {
    s.(tasks := s.tasks[t := s.tasks[t].(threads := s.tasks[t].threads - 1)])
  }

  /** `reparent_to_init` on a list of tasks. */
  function Adopted(ts: map<nat, Task>, list: seq<nat>): (r: map<nat, Task>)
    ensures r.Keys == ts.Keys
  {
    map i | i in ts :: if i in list then ts[i].(parent := INIT) else ts[i]
  }

  function Without(q: seq<nat>, x: nat): (r: seq<nat>) {
    if q == [] then [] else if q[0] == x then q[1..] else [q[0]] + Without(q[1..], x)
  }

  function Leftover(first: seq<nat>, second: seq<nat>): seq<nat> {
    if first == [] then [] else second
  }

  /** init takes the children over; a list head that was not reset by concat_lists is left as it was. */
  function HandOverStep(s: Tree, t: nat): (r: Tree)
    requires t in s.tasks && INIT in s.tasks && t != INIT
    ensures r.tasks.Keys == s.tasks.Keys && r.next == s.next && r.reaped == s.reaped
  {
    var q, i := s.tasks[t], s.tasks[INIT];
    var ts := Adopted(Adopted(s.tasks, q.alive), q.dead);
    s.(tasks :=
      ts[INIT := ts[INIT].(alive := i.alive + q.alive, dead := i.dead + q.dead)]
        [t := ts[t].(alive := Leftover(i.alive, q.alive), dead := Leftover(i.dead, q.dead), phase := Leaving)])
  }

  /** The parent is told: everyone who sleeps if no child is left alive, otherwise one of them. */
  function Signalled(p: Task): Task {
    if p.alive == [] then p.(woken := p.woken + p.asleep, asleep := 0)
    else if p.asleep > 0 then p.(woken := p.woken + 1, asleep := p.asleep - 1)
    else p
  }

  /** The task t moves from the alive list of its parent p to the end of the dead list. */
  function Bereaved(p: Task, t: nat): Task {
    Signalled(p.(alive := Without(p.alive, t), dead := p.dead + [t]))
  }

  function DepartStep(s: Tree, t: nat): Tree
    requires t in s.tasks && s.tasks[t].parent in s.tasks && s.tasks[t].parent != t
  {
    var p := s.tasks[t].parent;
    s.(tasks := s.tasks[t := s.tasks[t].(phase := Dead, threads := 0)][p := Bereaved(s.tasks[p], t)])
  }

  /** What wait does next: it reaps, looks on, has to sleep or fails. */
  datatype Outcome = Reaped(id: nat, status: int) | NoneDead | MustSleep | Failed

  function WaitOutcome(s: Tree, t: nat): Outcome
    requires t in s.tasks
  {
    var q := s.tasks[t];
    if q.dead != [] then
      Reaped(q.dead[0], if q.dead[0] in s.tasks then s.tasks[q.dead[0]].status else 0)
    else NoneDead
  }

  function WaitStep(s: Tree, t: nat): Tree
    requires t in s.tasks
  {
    var q := s.tasks[t];
    if q.dead == [] then s.(tasks := s.tasks[t := q.(looker := SawNoDead)])
    else
      var r := WaitOutcome(s, t);
      Tree(s.tasks[t := q.(dead := q.dead[1..])] - {r.id}, s.next, s.reaped + [(r.id, r.status)])
  }

  function TestOutcome(q: Task): Outcome {
    if q.alive == [] then Failed else MustSleep
  }

  function TestStep(s: Tree, t: nat): Tree
    requires t in s.tasks
  {
    var q := s.tasks[t];
    s.(tasks := s.tasks[t := q.(looker := if q.alive == [] then Nobody else Linking)])
  }

  /** cond_wait adds the thread to the queue. */
  function LinkStep(s: Tree, t: nat): Tree
    requires t in s.tasks
  {
    s.(tasks := s.tasks[t := s.tasks[t].(looker := Nobody, asleep := s.tasks[t].asleep + 1)])
  }

  function Resumed(s: Tree, t: nat): Tree
    requires t in s.tasks && s.tasks[t].woken > 0
  {
    s.(tasks := s.tasks[t := s.tasks[t].(woken := s.tasks[t].woken - 1)])
  }

  ghost function Step(s: Tree, e: Event): Tree
    requires Inv(s) && Enabled(s, e)
  {
    assert Sound(s, e.t);
    match e
    case Fork(t, junk) => ForkStep(s, t, NewTask(t, junk))
    case ForkFailed(t, junk) => ForkStep(s, t, FreedTask(t, junk))
    case ThreadFork(t) => ThreadForkStep(s, t)
    case SetStatus(t, status) => SetStatusStep(s, t, status)
    case Vanish(t) => VanishStep(s, t)
    case HandOver(t) => HandOverStep(s, t)
    case Depart(t) => DepartStep(s, t)
    case Wait(t) => WaitStep(s, t)
    case Test(t) => TestStep(s, t)
    case Link(t) => LinkStep(s, t)
    case Resume(t) => WaitStep(Resumed(s, t), t)
  }

  // ---------------------------------------------------------------- the invariant

  predicate NoRepeats(q: seq<nat>) {
    forall i, j :: 0 <= i < j < |q| ==> q[i] != q[j]
  }

  /** The task x is a child of p, and is dead or not as `living` says. */
  predicate Child(ts: map<nat, Task>, p: nat, x: nat, living: bool) {
    x in ts && x != INIT && ts[x].parent == p && (ts[x].phase != Dead <==> living)
  }

  /** The list holds exactly these children, each once. */
  ghost predicate Lists(ts: map<nat, Task>, p: nat, list: seq<nat>, living: bool) {
    NoRepeats(list) && forall x :: x in list <==> Child(ts, p, x, living)
  }

  /** Children that are not dead are in the alive list, dead ones in the dead list. */
  ghost predicate ListsExact(ts: map<nat, Task>, p: nat)
    requires p in ts
  {
    Lists(ts, p, ts[p].alive, true) && Lists(ts, p, ts[p].dead, false)
  }

  /** Ids are used once, parents live, and only threads that exist wait. */
  predicate Sound(s: Tree, t: nat)
    requires t in s.tasks
  {
    && t < s.next
    && (t != INIT ==> Lives(s, s.tasks[t].parent) && s.tasks[t].parent != t)
    && Waiters(s.tasks[t]) <= s.tasks[t].threads
    && (s.tasks[t].phase == Leaving ==> Waiters(s.tasks[t]) == 0)
  }

  predicate Rooted(s: Tree) {
    Lives(s, INIT) && forall t :: t in s.tasks ==> Sound(s, t)
  }

  ghost predicate AllExact(s: Tree) {
    forall t :: Lives(s, t) ==> ListsExact(s.tasks, t)
  }

  ghost predicate Inv(s: Tree) {
    Rooted(s) && AllExact(s)
  }

  // ---------------------------------------------------------------- every step keeps it

  lemma {:induction false} WithoutExact(q: seq<nat>, x: nat)
    requires NoRepeats(q)
    ensures NoRepeats(Without(q, x)) && forall y :: y in Without(q, x) <==> y in q && y != x
    decreases |q|
  {
    if q != [] {
      WithoutExact(q[1..], x);
      assert forall y :: y in q <==> y == q[0] || y in q[1..];
      assert q[0] !in q[1..];
    }
  }

  // How a list stays exact when the children change.

  lemma Keep(ts: map<nat, Task>, r: map<nat, Task>, p: nat, list: seq<nat>, living: bool)
    requires Lists(ts, p, list, living)
    requires forall x :: Child(r, p, x, living) <==> Child(ts, p, x, living)
    ensures Lists(r, p, list, living)
  {
  }

  lemma Add(ts: map<nat, Task>, r: map<nat, Task>, p: nat, list: seq<nat>, living: bool, n: nat)
    requires Lists(ts, p, list, living) && !Child(ts, p, n, living)
    requires forall x :: Child(r, p, x, living) <==> Child(ts, p, x, living) || x == n
    ensures Lists(r, p, list + [n], living)
  {
  }

  lemma Drop(ts: map<nat, Task>, r: map<nat, Task>, p: nat, list: seq<nat>, living: bool, n: nat)
    requires Lists(ts, p, list, living)
    requires forall x :: Child(r, p, x, living) <==> Child(ts, p, x, living) && x != n
    ensures Lists(r, p, Without(list, n), living)
  {
    WithoutExact(list, n);
  }

  lemma Join(ts: map<nat, Task>, p: nat, q: nat, list: seq<nat>, more: seq<nat>, living: bool)
    requires p != q && Lists(ts, p, list, living) && Lists(ts, q, more, living)
    ensures NoRepeats(list + more)
    ensures forall x :: x in list + more <==> Child(ts, p, x, living) || Child(ts, q, x, living)
  {
    forall i, j | 0 <= i < j < |list + more|
      ensures (list + more)[i] != (list + more)[j]
    {
      if i < |list| <= j {
        assert Child(ts, p, list[i], living) && Child(ts, q, more[j - |list|], living);
      }
    }
  }

  lemma Append(list: seq<nat>, n: nat)
    requires NoRepeats(list) && n !in list
    ensures NoRepeats(list + [n])
  {
  }

  predicate NewBorn(child: Task, t: nat) {
    child.parent == t && child.alive == [] && child.dead == [] && child.phase != Dead && child.phase != Leaving
    && Waiters(child) == 0
  }

  lemma ForkInv(s: Tree, t: nat, child: Task)
    requires Inv(s) && Lives(s, t) && NewBorn(child, t)
    ensures Inv(ForkStep(s, t, child))
  {
    ForkRooted(s, t, child);
    var r := ForkStep(s, t, child);
    forall q | Lives(r, q)
      ensures ListsExact(r.tasks, q)
    {
      ForkLists(s, t, child, q);
    }
  }

  lemma ForkRooted(s: Tree, t: nat, child: Task)
    requires Rooted(s) && Lives(s, t) && NewBorn(child, t)
    ensures Rooted(ForkStep(s, t, child))
  {
    var r := ForkStep(s, t, child);
    assert Sound(s, t);
    forall x | x in r.tasks
      ensures Sound(r, x)
    {
      assert x != s.next ==> Sound(s, x);
    }
  }

  lemma ForkLists(s: Tree, t: nat, child: Task, q: nat)
    requires Inv(s) && Lives(s, t) && NewBorn(child, t) && (q == s.next || Lives(s, q))
    ensures ListsExact(ForkStep(s, t, child).tasks, q)
  {
    var r := ForkStep(s, t, child);
    ForkChildren(s, t, child, q, true);
    ForkChildren(s, t, child, q, false);
    if q == s.next {
    } else if q == t {
      Add(s.tasks, r.tasks, q, s.tasks[q].alive, true, s.next);
      Keep(s.tasks, r.tasks, q, s.tasks[q].dead, false);
    } else {
      Keep(s.tasks, r.tasks, q, s.tasks[q].alive, true);
      Keep(s.tasks, r.tasks, q, s.tasks[q].dead, false);
    }
  }

  lemma ForkChildren(s: Tree, t: nat, child: Task, q: nat, living: bool)
    requires Rooted(s) && Lives(s, t) && NewBorn(child, t)
    ensures forall x ::
      Child(ForkStep(s, t, child).tasks, q, x, living)
      <==> Child(s.tasks, q, x, living) || (x == s.next && q == t && living)
    ensures !Child(s.tasks, q, s.next, living) && !exists x :: Child(s.tasks, s.next, x, living)
    ensures s.next !in s.tasks
  {
    assert Sound(s, t);
    assert s.next !in s.tasks by {
      assert s.next in s.tasks ==> Sound(s, s.next);
    }
    forall x
      ensures !Child(s.tasks, s.next, x, living)
    {
      assert x in s.tasks ==> Sound(s, x);
    }
  }

  lemma ReapInv(s: Tree, t: nat)
    requires Inv(s) && Lives(s, t) && s.tasks[t].dead != []
    ensures Inv(WaitStep(s, t))
  {
    var r := WaitStep(s, t);
    assert ListsExact(s.tasks, t);
    ReapRooted(s, t);
    forall q | Lives(r, q)
      ensures ListsExact(r.tasks, q)
    {
      ReapLists(s, t, q);
    }
  }

  lemma ReapRooted(s: Tree, t: nat)
    requires Rooted(s) && Lives(s, t)
    requires s.tasks[t].dead != [] && Lists(s.tasks, t, s.tasks[t].dead, false)
    ensures Rooted(WaitStep(s, t))
  {
    var r := WaitStep(s, t);
    assert Child(s.tasks, t, s.tasks[t].dead[0], false);
    forall x | x in r.tasks
      ensures Sound(r, x)
    {
      assert Sound(s, x);
    }
  }

  lemma ReapLists(s: Tree, t: nat, q: nat)
    requires Lives(s, t) && ListsExact(s.tasks, t) && s.tasks[t].dead != []
    requires Lives(s, q) && ListsExact(s.tasks, q)
    ensures q in WaitStep(s, t).tasks && ListsExact(WaitStep(s, t).tasks, q)
  {
    var r, list := WaitStep(s, t), s.tasks[t].dead;
    assert Child(s.tasks, t, list[0], false);
    forall x, living: bool
      ensures Child(r.tasks, q, x, living) <==> Child(s.tasks, q, x, living) && x != list[0]
    {
    }
    Keep(s.tasks, r.tasks, q, s.tasks[q].alive, true);
    if q == t {
      Drop(s.tasks, r.tasks, q, list, false, list[0]);
    } else {
      Keep(s.tasks, r.tasks, q, s.tasks[q].dead, false);
    }
  }

  /** A change that touches neither parents, lists nor phases. */
  lemma SameShape(s: Tree, r: Tree)
    requires Inv(s) && s.tasks.Keys == r.tasks.Keys && s.next <= r.next
    requires forall t :: t in s.tasks ==>
      && r.tasks[t].parent == s.tasks[t].parent && r.tasks[t].phase == s.tasks[t].phase
      && r.tasks[t].alive == s.tasks[t].alive && r.tasks[t].dead == s.tasks[t].dead
      && Waiters(r.tasks[t]) <= r.tasks[t].threads
      && (r.tasks[t].phase == Leaving ==> Waiters(r.tasks[t]) == 0)
    ensures Inv(r)
  {
    forall x | x in r.tasks
      ensures Sound(r, x)
    {
      assert Sound(s, x);
    }
    forall q | Lives(r, q)
      ensures ListsExact(r.tasks, q)
    {
      assert ListsExact(s.tasks, q);
      Keep(s.tasks, r.tasks, q, s.tasks[q].alive, true);
      Keep(s.tasks, r.tasks, q, s.tasks[q].dead, false);
    }
  }

  /** One living task changes in its status or its thread counts. */
  lemma Recount(s: Tree, t: nat, r: Task, next: nat)
    requires Inv(s) && Lives(s, t) && s.next <= next
    requires r.parent == s.tasks[t].parent && r.alive == s.tasks[t].alive && r.dead == s.tasks[t].dead
    requires r.phase == Living && Waiters(r) <= r.threads
    ensures Inv(s.(tasks := s.tasks[t := r], next := next))
  {
    var s' := s.(tasks := s.tasks[t := r], next := next);
    forall x | x in s.tasks
      ensures Waiters(s'.tasks[x]) <= s'.tasks[x].threads
      ensures s'.tasks[x].phase == Leaving ==> Waiters(s'.tasks[x]) == 0
    {
      assert Sound(s, x);
    }
    SameShape(s, s');
  }

  // ---------------------------------------------------------------- handing the children over

  /** The last thread of a task other than init is about to hand its children over. */
  ghost predicate Last(s: Tree, t: nat) {
    Inv(s) && Enabled(s, HandOver(t))
  }

  /** Exactly the children of t are handed over. */
  lemma HandedOver(s: Tree, t: nat, x: nat)
    requires Last(s, t)
    ensures x in s.tasks[t].alive || x in s.tasks[t].dead <==> x in s.tasks && x != INIT && s.tasks[x].parent == t
    ensures t !in s.tasks[t].alive && t !in s.tasks[t].dead && INIT !in s.tasks[t].alive && INIT !in s.tasks[t].dead
  {
    assert ListsExact(s.tasks, t);
    assert Sound(s, t);
    assert x in s.tasks[t].alive <==> Child(s.tasks, t, x, true);
    assert x in s.tasks[t].dead <==> Child(s.tasks, t, x, false);
    assert !Child(s.tasks, t, t, true) && !Child(s.tasks, t, t, false);
    assert !Child(s.tasks, t, INIT, true) && !Child(s.tasks, t, INIT, false);
  }

  function NewParent(s: Tree, t: nat, x: nat): nat
    requires x in s.tasks
  {
    if x != INIT && s.tasks[x].parent == t then INIT else s.tasks[x].parent
  }

  /** The tasks after the children have been handed over. */
  lemma HandOverShape(s: Tree, t: nat, x: nat)
    requires Last(s, t) && x in s.tasks
    ensures var q, i, r := s.tasks[t], s.tasks[INIT], HandOverStep(s, t).tasks[x];
      if x == t then
        r == q.(alive := Leftover(i.alive, q.alive), dead := Leftover(i.dead, q.dead), phase := Leaving)
      else if x == INIT then r == i.(alive := i.alive + q.alive, dead := i.dead + q.dead)
      else r == s.tasks[x].(parent := NewParent(s, t, x))
  {
    HandedOver(s, t, x);
    HandedOver(s, t, t);
  }

  lemma HandOverSound(s: Tree, t: nat, x: nat)
    requires Last(s, t) && x in s.tasks
    ensures Sound(HandOverStep(s, t), x)
  {
    assert Sound(s, x) && Sound(s, t);
    HandOverShape(s, t, x);
    HandOverShape(s, t, INIT);
    if x != INIT {
      HandOverShape(s, t, s.tasks[x].parent);
    }
  }

  lemma HandOverRooted(s: Tree, t: nat)
    requires Last(s, t)
    ensures Rooted(HandOverStep(s, t))
  {
    HandOverShape(s, t, INIT);
    forall x | x in s.tasks
      ensures Sound(HandOverStep(s, t), x)
    {
      HandOverSound(s, t, x);
    }
  }

  /** Who is a child of q afterwards, for a task q that lives on. */
  lemma HandOverChildren(s: Tree, t: nat, q: nat, x: nat, living: bool)
    requires Last(s, t) && q in s.tasks && q != t
    ensures Child(HandOverStep(s, t).tasks, q, x, living)
      <==> Child(s.tasks, q, x, living) || (q == INIT && Child(s.tasks, t, x, living))
  {
    if x in s.tasks {
      HandOverShape(s, t, x);
      assert Sound(s, t);
    }
  }

  lemma HandOverLists(s: Tree, t: nat, q: nat, living: bool)
    requires Last(s, t) && Lives(s, q) && q != t
    ensures var h := HandOverStep(s, t).tasks; Lists(h, q, if living then h[q].alive else h[q].dead, living)
  {
    HandOverShape(s, t, q);
    assert ListsExact(s.tasks, q) && ListsExact(s.tasks, t);
    forall x
      ensures Child(HandOverStep(s, t).tasks, q, x, living)
        <==> Child(s.tasks, q, x, living) || (q == INIT && Child(s.tasks, t, x, living))
    {
      HandOverChildren(s, t, q, x, living);
    }
    if q == INIT {
      Join(s.tasks, INIT, t, s.tasks[INIT].alive, s.tasks[t].alive, true);
      Join(s.tasks, INIT, t, s.tasks[INIT].dead, s.tasks[t].dead, false);
    }
  }

  lemma HandOverInv(s: Tree, t: nat)
    requires Last(s, t)
    ensures Inv(HandOverStep(s, t))
  {
    HandOverRooted(s, t);
    HandOverShape(s, t, t);
    var r := HandOverStep(s, t);
    forall q | Lives(r, q)
      ensures ListsExact(r.tasks, q)
    {
      HandOverShape(s, t, q);
      HandOverLists(s, t, q, true);
      HandOverLists(s, t, q, false);
    }
  }

  // ---------------------------------------------------------------- leaving for the dead list

  lemma DepartInv(s: Tree, t: nat)
    requires Inv(s) && t in s.tasks && t != INIT && s.tasks[t].phase == Leaving
    ensures Lives(s, s.tasks[t].parent) && Inv(DepartStep(s, t))
  {
    assert Sound(s, t);
    DepartRooted(s, t);
    var r := DepartStep(s, t);
    forall q | Lives(r, q)
      ensures ListsExact(r.tasks, q)
    {
      assert ListsExact(s.tasks, q);
      DepartLists(s, t, q);
    }
  }

  lemma DepartRooted(s: Tree, t: nat)
    requires Rooted(s) && t in s.tasks && t != INIT && s.tasks[t].phase == Leaving && Lives(s, s.tasks[t].parent)
    ensures Rooted(DepartStep(s, t))
  {
    var r := DepartStep(s, t);
    assert Sound(s, t);
    forall x | x in r.tasks
      ensures Sound(r, x)
    {
      assert Sound(s, x);
    }
  }

  lemma DepartLists(s: Tree, t: nat, q: nat)
    requires t in s.tasks && t != INIT && s.tasks[t].phase == Leaving && Lives(s, s.tasks[t].parent)
    requires Lives(s, q) && ListsExact(s.tasks, q)
    ensures ListsExact(DepartStep(s, t).tasks, q)
  {
    var r := DepartStep(s, t).tasks;
    forall x, living: bool
      ensures Child(r, q, x, living)
        <==> if x == t then q == s.tasks[t].parent && !living else Child(s.tasks, q, x, living)
    {
    }
    if q == s.tasks[t].parent {
      Drop(s.tasks, r, q, s.tasks[q].alive, true, t);
      Add(s.tasks, r, q, s.tasks[q].dead, false, t);
    } else {
      Keep(s.tasks, r, q, s.tasks[q].alive, true);
      Keep(s.tasks, r, q, s.tasks[q].dead, false);
    }
  }

  // ---------------------------------------------------------------- waiting

  lemma WaitInv(s: Tree, t: nat)
    requires Inv(s) && Lives(s, t) && Waiters(s.tasks[t]) < s.tasks[t].threads && s.tasks[t].looker == Nobody
    ensures Inv(WaitStep(s, t))
  {
    if s.tasks[t].dead != [] {
      ReapInv(s, t);
    } else {
      var q := s.tasks[t].(looker := SawNoDead);
      Recount(s, t, q, s.next);
      assert WaitStep(s, t) == s.(tasks := s.tasks[t := q], next := s.next);
    }
  }

  lemma TestInv(s: Tree, t: nat)
    requires Inv(s) && Lives(s, t) && s.tasks[t].looker == SawNoDead
    ensures Inv(TestStep(s, t))
  {
    assert Sound(s, t);
    var q := s.tasks[t].(looker := if s.tasks[t].alive == [] then Nobody else Linking);
    Recount(s, t, q, s.next);
    assert TestStep(s, t) == s.(tasks := s.tasks[t := q], next := s.next);
  }

  lemma LinkInv(s: Tree, t: nat)
    requires Inv(s) && Lives(s, t) && s.tasks[t].looker == Linking
    ensures Inv(LinkStep(s, t))
  {
    assert Sound(s, t);
    var q := s.tasks[t].(looker := Nobody, asleep := s.tasks[t].asleep + 1);
    Recount(s, t, q, s.next);
    assert LinkStep(s, t) == s.(tasks := s.tasks[t := q], next := s.next);
  }

  lemma ResumeInv(s: Tree, t: nat)
    requires Inv(s) && Enabled(s, Resume(t))
    ensures Inv(Resumed(s, t)) && Inv(WaitStep(Resumed(s, t), t))
  {
    assert Sound(s, t);
    Recount(s, t, s.tasks[t].(woken := s.tasks[t].woken - 1), s.next);
    WaitInv(Resumed(s, t), t);
  }

  lemma ThreadForkInv(s: Tree, t: nat)
    requires Inv(s) && Lives(s, t)
    ensures Inv(ThreadForkStep(s, t))
  {
    assert Sound(s, t);
    var q := s.tasks[t].(threads := s.tasks[t].threads + 1);
    Recount(s, t, q, s.next + 1);
    assert ThreadForkStep(s, t) == s.(tasks := s.tasks[t := q], next := s.next + 1);
  }

  lemma SetStatusInv(s: Tree, t: nat, status: int)
    requires Inv(s) && Lives(s, t)
    ensures Inv(SetStatusStep(s, t, status))
  {
    assert Sound(s, t);
    var q := s.tasks[t].(status := status);
    Recount(s, t, q, s.next);
    assert SetStatusStep(s, t, status) == s.(tasks := s.tasks[t := q], next := s.next);
  }

  lemma VanishInv(s: Tree, t: nat)
    requires Inv(s) && Lives(s, t) && Waiters(s.tasks[t]) < s.tasks[t].threads
    ensures Inv(VanishStep(s, t))
  {
    assert Sound(s, t);
    var q := s.tasks[t].(threads := s.tasks[t].threads - 1);
    assert Waiters(q) == Waiters(s.tasks[t]) <= q.threads;
    Recount(s, t, q, s.next);
    assert VanishStep(s, t) == s.(tasks := s.tasks[t := q], next := s.next);
  }

  /** Every step of a system call keeps the lists exact. */
  lemma StepInv(s: Tree, e: Event)
    requires Inv(s) && Enabled(s, e)
    ensures Inv(Step(s, e))
  {
    match e
    case Fork(t, junk) => ForkInv(s, t, NewTask(t, junk));
    case ForkFailed(t, junk) => ForkInv(s, t, FreedTask(t, junk));
    case ThreadFork(t) => ThreadForkInv(s, t);
    case SetStatus(t, status) => SetStatusInv(s, t, status);
    case Vanish(t) => VanishInv(s, t);
    case HandOver(t) => HandOverInv(s, t);
    case Depart(t) => DepartInv(s, t);
    case Wait(t) => WaitInv(s, t);
    case Test(t) => TestInv(s, t);
    case Link(t) => LinkInv(s, t);
    case Resume(t) => ResumeInv(s, t);
  }

  // ---------------------------------------------------------------- runs

  /** Every event of the run can happen when its turn comes. */
  ghost predicate Possible(junk: int, es: seq<Event>)
    decreases |es|, 0
  {
    es == [] || (Possible(junk, Front(es)) && Enabled(After(junk, Front(es)), es[|es| - 1]))
  }

  /** The tree after the run. */
  ghost function After(junk: int, es: seq<Event>): (s: Tree)
    requires Possible(junk, es)
    ensures Inv(s)
    decreases |es|, 1
  {
    if es == [] then Start(junk)
    else
      StepInv(After(junk, Front(es)), es[|es| - 1]);
      Step(After(junk, Front(es)), es[|es| - 1])
  }

  function Front(es: seq<Event>): seq<Event>
    requires es != []
  {
    es[..|es| - 1]
  }

  /** The tree after the first n events of the run. */
  ghost function At(junk: int, es: seq<Event>, n: nat): (s: Tree)
    requires Possible(junk, es) && n <= |es|
    ensures Inv(s)
    decreases |es|
  {
    if n == |es| then After(junk, es) else At(junk, Front(es), n)
  }

  lemma AtFront(junk: int, es: seq<Event>, n: nat)
    requires Possible(junk, es) && n < |es|
    ensures At(junk, es, n) == At(junk, Front(es), n)
  {
  }

  lemma AtLast(junk: int, es: seq<Event>)
    requires Possible(junk, es) && es != []
    ensures At(junk, es, |es| - 1) == After(junk, Front(es))
  {
    AtFront(junk, es, |es| - 1);
  }

  lemma {:induction false} AtStep(junk: int, es: seq<Event>, n: nat)
    requires Possible(junk, es) && n < |es|
    ensures Enabled(At(junk, es, n), es[n]) && At(junk, es, n + 1) == Step(At(junk, es, n), es[n])
    decreases |es|
  {
    AtFront(junk, es, n);
    if n < |es| - 1 {
      AtFront(junk, es, n + 1);
      AtStep(junk, Front(es), n);
    } else {
      AtLast(junk, es);
    }
  }

  /**
    After every run a task other than init is in exactly one list of the tasks that live: once in
    the alive list of its parent until it departs, once in the dead list afterwards.
   */
  lemma OneList(junk: int, es: seq<Event>, x: nat, q: nat)
    requires Possible(junk, es)
    requires x in After(junk, es).tasks && x != INIT && Lives(After(junk, es), q)
    ensures var s := After(junk, es); var p := s.tasks[x].parent;
      && Lives(s, p)
      && multiset(s.tasks[q].alive)[x] == (if q == p && !Exited(s, x) then 1 else 0)
      && multiset(s.tasks[q].dead)[x] == (if q == p && Exited(s, x) then 1 else 0)
  {
    var s := After(junk, es);
    assert ListsExact(s.tasks, q);
    assert Sound(s, x);
    Once(s.tasks[q].alive, x);
    Once(s.tasks[q].dead, x);
    assert x in s.tasks[q].alive <==> Child(s.tasks, q, x, true);
    assert x in s.tasks[q].dead <==> Child(s.tasks, q, x, false);
  }

  lemma {:induction false} Once(list: seq<nat>, x: nat)
    requires NoRepeats(list)
    ensures multiset(list)[x] == if x in list then 1 else 0
    decreases |list|
  {
    if list != [] {
      Once(list[1..], x);
      assert list == [list[0]] + list[1..];
    }
  }

  /**
    The first look reaps exactly when the task has a dead child, and then one of them with its own status;
    the second one fails exactly when it has no child that is not dead.
   */
  lemma WaitExact(s: Tree, t: nat)
    requires Inv(s) && Lives(s, t)
    ensures WaitOutcome(s, t).Reaped? <==> exists x :: Child(s.tasks, t, x, false)
    ensures WaitOutcome(s, t).Reaped? ==>
      Child(s.tasks, t, WaitOutcome(s, t).id, false) && WaitOutcome(s, t).status == s.tasks[WaitOutcome(s, t).id].status
    ensures TestOutcome(s.tasks[t]).Failed? <==> forall x :: !Child(s.tasks, t, x, true)
  {
    assert ListsExact(s.tasks, t);
    var q := s.tasks[t];
    assert q.alive != [] ==> Child(s.tasks, t, q.alive[0], true);
    assert q.dead != [] ==> Child(s.tasks, t, q.dead[0], false);
    assert q.alive == [] ==> forall x :: !Child(s.tasks, t, x, true);
    assert q.dead == [] ==> forall x :: !Child(s.tasks, t, x, false);
  }
}
