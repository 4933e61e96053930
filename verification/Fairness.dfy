/**
  The order in which threads are served: by the processor (kern/core/context.c:44-68,
  kern/core/scheduler.c:90-104), by a mutex (kern/sync/mutex.c) and by a condition variable
  (kern/sync/cond_var.c). Every queue grows at the tail and is served at the head.
 */
module Fairness {
  import opened Fifo
  import opened Scheduler
  import opened Interference

  // ---------------------------------------------------------------- runs, step by step

  predicate Ok(g: Config, s: State) {
    Inv(g, s) && CurOk(g, s)
  }

  ghost predicate Leads(g: Config, s: State, a: Action, s': State) {
    Ok(g, s) && s' == if Enabled(g, s, a) then Step(g, s, a) else s
  }

  /** The states of a run: one before every action, and one at the end. */
  ghost predicate States(g: Config, actions: seq<Action>, tr: seq<State>) {
    && |tr| == |actions| + 1 && (forall i :: 0 <= i < |tr| ==> Ok(g, tr[i]))
    && forall i {:trigger actions[i]} :: 0 <= i < |actions| ==> Leads(g, tr[i], actions[i], tr[i + 1])
  }

  function Next(g: Config, s: State, a: Action): (s': State)
    requires Inv(g, s) && CurOk(g, s)
    ensures Inv(g, s') && CurOk(g, s')
  {
    if Enabled(g, s, a) then
      StepInv(g, s, a);
      Step(g, s, a)
    else s
  }

  /** Every run has its states. */
  lemma {:induction false} TraceFrom(g: Config, s: State, actions: seq<Action>) returns (tr: seq<State>)
    requires Inv(g, s) && CurOk(g, s)
    ensures States(g, actions, tr) && tr[0] == s && tr[|actions|] == Run(g, s, actions)
    decreases |actions|
  {
    if actions == [] {
      tr := [s];
    } else {
      RunFirst(g, s, actions);
      tr := TraceFrom(g, Next(g, s, actions[0]), actions[1..]);
      StatesMore(g, s, actions, tr);
      tr := [s] + tr;
    }
  }

  lemma RunFirst(g: Config, s: State, actions: seq<Action>)
    requires Inv(g, s) && CurOk(g, s) && actions != []
    ensures Run(g, s, actions) == Run(g, Next(g, s, actions[0]), actions[1..])
  {
  }

  lemma StatesMore(g: Config, s: State, actions: seq<Action>, tr: seq<State>)
    requires actions != [] && States(g, actions[1..], tr) && Leads(g, s, actions[0], tr[0])
    ensures States(g, actions, [s] + tr)
  {
    var tr' := [s] + tr;
    forall i | 0 <= i < |actions|
      ensures Leads(g, tr'[i], actions[i], tr'[i + 1])
    {
      if i > 0 {
        assert actions[1..][i - 1] == actions[i];
      }
    }
  }

  // ---------------------------------------------------------------- the run queue

  /** The action ends in context_switch. */
  predicate Switches(g: Config, s: State, a: Action)
    requires ValidConfig(g) && TypedState(g, s)
  {
    && Enabled(g, s, a)
    && (a.Timer? || a.SwitchAway? || a.Vanish?
        || (a.TryLock? && s.k.at[s.cur].Lock? && s.k.at[s.cur].m < g.mutexes && !s.k.free[s.k.at[s.cur].m]))
  }

  /** A context_switch that finds a thread on the run queue. */
  predicate Turn(g: Config, s: State, a: Action)
    requires ValidConfig(g) && TypedState(g, s)
  {
    Switches(g, s, a) && s.runq != []
  }

  lemma SwitchMoves(g: Config, s: State)
    requires TypedState(g, s) && forall t :: t in s.runq ==> t < g.threads
    ensures var s' := Switch(g, s);
      && Moves(s.runq, s'.runq, s.runq != [])
      && (s.runq != [] ==> s'.cur == s.runq[0])
  {
  }

  lemma SwitchStep(g: Config, s: State, a: Action)
    requires Inv(g, s) && CurOk(g, s) && Switches(g, s, a)
    ensures Moves(s.runq, Step(g, s, a).runq, s.runq != []) && (s.runq != [] ==> Step(g, s, a).cur == s.runq[0])
  {
    CurrentOk(g, s);
    var t, at := s.cur, s.k.at[s.cur];
    match a
    case Timer => SwitchMoves(g, s);
    case TryLock => SwitchMoves(g, s.(status := s.status[t := Waiting], k := Enqueue(g, s.k, t)));
    case SwitchAway =>
      SwitchMoves(g, s.(k := Goto(s.k, t, Sleeping(at.c))));
      SwitchMoves(g, s.(k := Goto(s.k, t, Lock(g.guard[at.c], WaitDone(at.c)))));
    case Vanish => SwitchMoves(g, s.(status := s.status[t := Exited], k := Goto(s.k, t, Gone)));
  }

  lemma OtherStep(g: Config, s: State, a: Action)
    requires Inv(g, s) && CurOk(g, s) && Enabled(g, s, a) && !Switches(g, s, a)
    ensures s.runq <= Step(g, s, a).runq && Step(g, s, a).cur == s.cur
  {
    CurrentOk(g, s);
  }

  /** Every context_switch runs the head of the queue; whoever joins comes behind all others. */
  lemma RunqMoves(g: Config, s: State, a: Action)
    requires Inv(g, s) && CurOk(g, s)
    ensures Moves(s.runq, Next(g, s, a).runq, Turn(g, s, a))
    ensures Turn(g, s, a) ==> Next(g, s, a).cur == s.runq[0]
    ensures !Switches(g, s, a) ==> Next(g, s, a).cur == s.cur
  {
    if Switches(g, s, a) {
      SwitchStep(g, s, a);
    } else if Enabled(g, s, a) {
      OtherStep(g, s, a);
    }
  }

  /** The run queues along a run, and when their head left. */
  function Runqs(tr: seq<State>): (qs: seq<seq<nat>>)
    ensures |qs| == |tr| && forall i :: 0 <= i < |tr| ==> qs[i] == tr[i].runq
  {
    seq(|tr|, i requires 0 <= i < |tr| => tr[i].runq)
  }

  ghost function Turns(g: Config, actions: seq<Action>, tr: seq<State>): (pops: seq<bool>)
    requires States(g, actions, tr)
    ensures |pops| == |actions| && forall i :: 0 <= i < |pops| ==> pops[i] == Turn(g, tr[i], actions[i])
  {
    seq(|actions|, i requires 0 <= i < |actions| => Turn(g, tr[i], actions[i]))
  }

  lemma RunqIsQueue(g: Config, actions: seq<Action>, tr: seq<State>)
    requires States(g, actions, tr)
    ensures Queue(Runqs(tr), Turns(g, actions, tr))
  {
    forall i | 0 <= i < |actions|
      ensures Moves(Runqs(tr)[i], Runqs(tr)[i + 1], Turns(g, actions, tr)[i])
    {
      assert Leads(g, tr[i], actions[i], tr[i + 1]);
      RunqMoves(g, tr[i], actions[i]);
    }
  }

  /**
    Round robin, over every run: a thread on the run queue moves forward by one with every context_switch,
    never back.
   */
  lemma MovesUp(g: Config, actions: seq<Action>, tr: seq<State>, i: nat, n: nat)
    requires States(g, actions, tr) && i < |tr[0].runq| && n <= |actions| && Pops(Turns(g, actions, tr), n) <= i
    ensures MovedUp(Runqs(tr), Turns(g, actions, tr), i, n)
  {
    RunqIsQueue(g, actions, tr);
    Forward(Runqs(tr), Turns(g, actions, tr), i, n);
  }

  /** And the thread at position i gets the processor with the (i + 1)-th. */
  lemma GetsTurn(g: Config, actions: seq<Action>, tr: seq<State>, i: nat, n: nat) returns (k: nat)
    requires States(g, actions, tr) && i < |tr[0].runq| && n <= |actions| && Pops(Turns(g, actions, tr), n) > i
    ensures k < n && Pops(Turns(g, actions, tr), k) == i && tr[k + 1].cur == tr[0].runq[i]
  {
    RunqIsQueue(g, actions, tr);
    k := Served(Runqs(tr), Turns(g, actions, tr), i, n);
    TurnRuns(g, actions, tr, k);
  }

  lemma TurnRuns(g: Config, actions: seq<Action>, tr: seq<State>, k: nat)
    requires States(g, actions, tr) && k < |actions| && Turns(g, actions, tr)[k]
    ensures tr[k].runq != [] && tr[k + 1].cur == tr[k].runq[0]
  {
    assert Leads(g, tr[k], actions[k], tr[k + 1]);
    RunqMoves(g, tr[k], actions[k]);
  }

  // ---------------------------------------------------------------- the queues of mutexes

  /** The mutex that the action unlocks, or -1. */
  function Unlocked(g: Config, s: State, a: Action): int
    requires Inv(g, s) && CurOk(g, s)
  {
    CurrentOk(g, s);
    if !Enabled(g, s, a) then -1
    else
      var at := s.k.at[s.cur];
      match a
      case Unlock(m) => m
      case UnlockQueue => g.lock[at.c]
      case Block => g.guard[at.c]
      case EndSignal => g.lock[at.c]
      case _ => -1
  }

  /** An unlock of m while threads wait for it. */
  predicate Hands(g: Config, s: State, a: Action, m: nat)
    requires Inv(g, s) && CurOk(g, s) && m < g.mutexes
  {
    Unlocked(g, s, a) == m && s.k.queue[m] != []
  }

  lemma UnlockMoves(g: Config, s: State, n: nat, at: At, m: nat)
    requires TypedState(g, s) && n < g.mutexes && m < g.mutexes
    requires s.k.queue[n] != [] ==> s.k.queue[n][0] < g.threads && s.k.at[s.k.queue[n][0]].Queued?
    ensures var s' := UnlockStep(g, s, n, at); var q := s.k.queue[m];
      && TypedState(g, s') && Moves(q, s'.k.queue[m], n == m && q != [])
      && (n == m && q != [] ==> s'.runq == s.runq + [q[0]] && s'.k.at[q[0]].Lock? && s'.k.at[q[0]].m == m)
  {
  }

  lemma UnlockQueueMoves(g: Config, s: State, a: Action, m: nat)
    requires Inv(g, s) && CurOk(g, s) && m < g.mutexes && Unlocked(g, s, a) >= 0
    ensures var s' := Step(g, s, a); var q := s.k.queue[m];
      && TypedState(g, s') && Moves(q, s'.k.queue[m], Hands(g, s, a, m))
      && (Hands(g, s, a, m) ==>
            q[0] < g.threads && s'.runq == s.runq + [q[0]] && s'.k.at[q[0]].Lock? && s'.k.at[q[0]].m == m)
  {
    CurrentOk(g, s);
    var at := s.k.at[s.cur];
    match a
    case Unlock(n) => UnlockMoves(g, s, n, Free, m);
    case UnlockQueue => UnlockMoves(g, s, g.lock[at.c], Blocking(at.c, at.st), m);
    case Block => UnlockMoves(g, s.(status := s.status[s.cur := at.st]), g.guard[at.c], Parked(at.c), m);
    case EndSignal => UnlockMoves(g, s, g.lock[at.c], Free, m);
  }

  lemma OtherQueueMoves(g: Config, s: State, a: Action, m: nat)
    requires Inv(g, s) && CurOk(g, s) && m < g.mutexes && Enabled(g, s, a) && Unlocked(g, s, a) < 0
    ensures TypedState(g, Step(g, s, a)) && s.k.queue[m] <= Step(g, s, a).k.queue[m]
  {
    StepInv(g, s, a);
    CurrentOk(g, s);
    if a.TryLock? && !s.k.free[s.k.at[s.cur].m] {
      SwitchTyped(g, s.(status := s.status[s.cur := Waiting], k := Enqueue(g, s.k, s.cur)));
    }
  }

  /** The head of the queue is sent back to its test, behind everybody on the run queue. */
  lemma MutexQueueMoves(g: Config, s: State, a: Action, m: nat)
    requires Inv(g, s) && CurOk(g, s) && m < g.mutexes
    ensures var s' := Next(g, s, a); var q := s.k.queue[m];
      && Moves(q, s'.k.queue[m], Hands(g, s, a, m))
      && (Hands(g, s, a, m) ==>
            q[0] < g.threads && s'.runq == s.runq + [q[0]] && s'.k.at[q[0]].Lock? && s'.k.at[q[0]].m == m)
  {
    if Unlocked(g, s, a) >= 0 {
      CurrentOk(g, s);
      UnlockQueueMoves(g, s, a, m);
    } else if Enabled(g, s, a) {
      OtherQueueMoves(g, s, a, m);
    }
  }

  ghost function Waits(g: Config, actions: seq<Action>, tr: seq<State>, m: nat): (qs: seq<seq<nat>>)
    requires States(g, actions, tr) && m < g.mutexes
    ensures |qs| == |tr| && forall i :: 0 <= i < |tr| ==> qs[i] == tr[i].k.queue[m]
  {
    seq(|tr|, i requires 0 <= i < |tr| => tr[i].k.queue[m])
  }

  ghost function Handed(g: Config, actions: seq<Action>, tr: seq<State>, m: nat): (pops: seq<bool>)
    requires States(g, actions, tr) && m < g.mutexes
    ensures |pops| == |actions| && forall i :: 0 <= i < |pops| ==> pops[i] == Hands(g, tr[i], actions[i], m)
  {
    seq(|actions|, i requires 0 <= i < |actions| => Hands(g, tr[i], actions[i], m))
  }

  lemma MutexQueueIsQueue(g: Config, actions: seq<Action>, tr: seq<State>, m: nat)
    requires States(g, actions, tr) && m < g.mutexes
    ensures Queue(Waits(g, actions, tr, m), Handed(g, actions, tr, m))
  {
    forall i | 0 <= i < |actions|
      ensures Moves(Waits(g, actions, tr, m)[i], Waits(g, actions, tr, m)[i + 1], Handed(g, actions, tr, m)[i])
    {
      assert Leads(g, tr[i], actions[i], tr[i + 1]);
      MutexQueueMoves(g, tr[i], actions[i], m);
    }
  }

  /**
    First come, first served, over every run: the thread at position i of the queue of m is sent back to its
    test, and to the tail of the run queue, by the (i + 1)-th unlock of m.
   */
  lemma MutexInOrder(g: Config, actions: seq<Action>, tr: seq<State>, m: nat, i: nat, n: nat) returns (k: nat)
    requires States(g, actions, tr) && m < g.mutexes && i < |tr[0].k.queue[m]| && n <= |actions|
    requires Pops(Handed(g, actions, tr, m), n) > i
    ensures var u := tr[0].k.queue[m][i];
      && k < n && Pops(Handed(g, actions, tr, m), k) == i && u < g.threads
      && tr[k + 1].runq == tr[k].runq + [u] && tr[k + 1].k.at[u].Lock? && tr[k + 1].k.at[u].m == m
  {
    MutexQueueIsQueue(g, actions, tr, m);
    k := Served(Waits(g, actions, tr, m), Handed(g, actions, tr, m), i, n);
    HandsOver(g, actions, tr, m, k);
  }

  lemma HandsOver(g: Config, actions: seq<Action>, tr: seq<State>, m: nat, k: nat)
    requires States(g, actions, tr) && m < g.mutexes && k < |actions| && Handed(g, actions, tr, m)[k]
    ensures tr[k].k.queue[m] != []
    ensures var u := tr[k].k.queue[m][0];
      u < g.threads && tr[k + 1].runq == tr[k].runq + [u] && tr[k + 1].k.at[u].Lock? && tr[k + 1].k.at[u].m == m
  {
    assert Leads(g, tr[k], actions[k], tr[k + 1]);
    MutexQueueMoves(g, tr[k], actions[k], m);
  }

  // ---------------------------------------------------------------- the queues of condition variables

  /** A signaller that has woken the head of the queue of c unlinks it. */
  predicate Unlinks(g: Config, s: State, a: Action, c: nat)
    requires Inv(g, s) && CurOk(g, s)
  {
    a.UnlinkWaiter? && s.k.at[s.cur].Unlinking? && s.k.at[s.cur].c == c
  }

  /** Threads join at the tail, and leave from the head, each after it was woken. */
  lemma CondQueueMoves(g: Config, s: State, a: Action, c: nat)
    requires Inv(g, s) && CurOk(g, s) && c < |g.lock|
    ensures var q, q' := s.k.waiting[c], Next(g, s, a).k.waiting[c];
      && Moves(q, q', Unlinks(g, s, a, c))
      && (Unlinks(g, s, a, c) ==> q == [q[0]] + q' && q[0] < g.threads && WokenPhase(s.k.at[q[0]]))
  {
    CurrentOk(g, s);
    if Enabled(g, s, a) {
      StepInv(g, s, a);
      CondQueueStep(g, s, a, c);
    }
  }

  lemma CondQueueStep(g: Config, s: State, a: Action, c: nat)
    requires Inv(g, s) && CurOk(g, s) && c < |g.lock| && Enabled(g, s, a) && TypedState(g, Step(g, s, a))
    ensures var q, q' := s.k.waiting[c], Step(g, s, a).k.waiting[c];
      if Unlinks(g, s, a, c) then q != [] && q[0] == s.k.at[s.cur].h && q' == q[1..]
      else if a.AddWaiter? && s.k.at[s.cur].Linking? && s.k.at[s.cur].c == c then q' == q + [s.cur]
      else q' == q
  {
    CurrentOk(g, s);
    var at := s.k.at[s.cur];
    match a
    case Unlock(m) => UnlockKeepsWaiting(g, s, m, Free);
    case UnlockQueue => UnlockKeepsWaiting(g, s, g.lock[at.c], Blocking(at.c, at.st));
    case Block => UnlockKeepsWaiting(g, s.(status := s.status[s.cur := at.st]), g.guard[at.c], Parked(at.c));
    case EndSignal => UnlockKeepsWaiting(g, s, g.lock[at.c], Free);
    case _ =>
  }

  lemma UnlockKeepsWaiting(g: Config, s: State, m: nat, at: At)
    requires TypedState(g, s) && m < g.mutexes
    requires s.k.queue[m] != [] ==> s.k.queue[m][0] < g.threads && s.k.at[s.k.queue[m][0]].Queued?
    ensures UnlockStep(g, s, m, at).k.waiting == s.k.waiting
  {
  }

  ghost function Sleepers(g: Config, actions: seq<Action>, tr: seq<State>, c: nat): (qs: seq<seq<nat>>)
    requires States(g, actions, tr) && c < |g.lock|
    ensures |qs| == |tr| && forall i :: 0 <= i < |tr| ==> qs[i] == tr[i].k.waiting[c]
  {
    seq(|tr|, i requires 0 <= i < |tr| => tr[i].k.waiting[c])
  }

  ghost function Unlinked(g: Config, actions: seq<Action>, tr: seq<State>, c: nat): (pops: seq<bool>)
    requires States(g, actions, tr)
    ensures |pops| == |actions| && forall i :: 0 <= i < |pops| ==> pops[i] == Unlinks(g, tr[i], actions[i], c)
  {
    seq(|actions|, i requires 0 <= i < |actions| => Unlinks(g, tr[i], actions[i], c))
  }

  lemma CondQueueIsQueue(g: Config, actions: seq<Action>, tr: seq<State>, c: nat)
    requires States(g, actions, tr) && c < |g.lock|
    ensures Queue(Sleepers(g, actions, tr, c), Unlinked(g, actions, tr, c))
  {
    forall i | 0 <= i < |actions|
      ensures Moves(Sleepers(g, actions, tr, c)[i], Sleepers(g, actions, tr, c)[i + 1], Unlinked(g, actions, tr, c)[i])
    {
      assert Leads(g, tr[i], actions[i], tr[i + 1]);
      CondQueueMoves(g, tr[i], actions[i], c);
    }
  }

  /** Over every run, the thread at position i of the queue of c is the (i + 1)-th that is woken and unlinked. */
  lemma CondInOrder(g: Config, actions: seq<Action>, tr: seq<State>, c: nat, i: nat, n: nat) returns (k: nat)
    requires States(g, actions, tr) && c < |g.lock| && i < |tr[0].k.waiting[c]| && n <= |actions|
    requires Pops(Unlinked(g, actions, tr, c), n) > i
    ensures var u := tr[0].k.waiting[c][i];
      && k < n && Pops(Unlinked(g, actions, tr, c), k) == i && u < g.threads
      && tr[k].k.waiting[c] == [u] + tr[k + 1].k.waiting[c] && WokenPhase(tr[k].k.at[u])
  {
    CondQueueIsQueue(g, actions, tr, c);
    k := Served(Sleepers(g, actions, tr, c), Unlinked(g, actions, tr, c), i, n);
    UnlinksHead(g, actions, tr, c, k);
  }

  lemma UnlinksHead(g: Config, actions: seq<Action>, tr: seq<State>, c: nat, k: nat)
    requires States(g, actions, tr) && c < |g.lock| && k < |actions| && Unlinked(g, actions, tr, c)[k]
    ensures tr[k].k.waiting[c] != []
    ensures var u := tr[k].k.waiting[c][0];
      u < g.threads && tr[k].k.waiting[c] == [u] + tr[k + 1].k.waiting[c] && WokenPhase(tr[k].k.at[u])
  {
    assert Leads(g, tr[k], actions[k], tr[k + 1]);
    CondQueueMoves(g, tr[k], actions[k], c);
  }

  /**
    What is left of the queue that was q while thread t is in cond_signal, or in cond_broadcast if `all`:
    a signal takes the head if there is one, a broadcast takes everybody.
   */
  predicate Left(at: At, now: seq<nat>, c: nat, all: bool, q: seq<nat>) {
    match at
    case Taking(d, b) => d == c && b == all && Suffix(now, q) && (!all ==> now == q)
    case Adding(d, _, b) => d == c && b == all && Suffix(now, q) && now != [] && (!all ==> now == q)
    case Unlinking(d, _, b) => d == c && b == all && Suffix(now, q) && now != [] && (!all ==> now == q)
    case Leaving(d) => d == c && now == if all || q == [] then [] else q[1..]
    case _ => false
  }

  predicate Suffix(now: seq<nat>, q: seq<nat>) {
    |now| <= |q| && now == q[|q| - |now|..]
  }

  predicate Remains(g: Config, k: Links, t: nat, c: nat, all: bool, q: seq<nat>)
    requires Typed(g, k) && t < g.threads && c < |g.lock|
  {
    Left(k.at[t], k.waiting[c], c, all, q)
  }

  /** One step of a signaller of c, and of the queue. */
  predicate SignallerMoves(c: nat, was: At, now: At, w: seq<nat>, w': seq<nat>) {
    || (now == was && w' == w)
    || (was.Taking? && w == [] && now == Leaving(c) && w' == w)
    || (was.Taking? && w != [] && now == Adding(c, w[0], was.all) && w' == w)
    || (was.Adding? && now == Unlinking(c, was.h, was.all) && w' == w)
    || (was.Unlinking? && w != [] && w' == w[1..] && now == if was.all then Taking(c, true) else Leaving(c))
  }

  lemma LeftMoves(c: nat, was: At, now: At, w: seq<nat>, w': seq<nat>, all: bool, q: seq<nat>)
    requires Left(was, w, c, all, q) && SignallerMoves(c, was, now, w, w')
    ensures Left(now, w', c, all, q)
  {
    if was.Unlinking? && now != was {
      assert Suffix(w', q) by {
        assert w[1..] == q[|q| - |w| + 1..];
      }
    }
  }

  /** What a signaller does next, and what happens to the queue. */
  lemma SignallerStep(g: Config, s: State, a: Action, c: nat)
    requires Inv(g, s) && CurOk(g, s) && c < |g.lock| && Enabled(g, s, a) && TypedState(g, Step(g, s, a))
    requires var at := s.k.at[s.cur];
      (at.Taking? || at.Adding? || at.Unlinking? || at.Leaving?) && at.c == c
    requires QueuePhase(Step(g, s, a).k.at[s.cur]) >= 0
    ensures SignallerMoves(c, s.k.at[s.cur], Step(g, s, a).k.at[s.cur], s.k.waiting[c], Step(g, s, a).k.waiting[c])
  {
    CurrentOk(g, s);
    CondQueueStep(g, s, a, c);
    if a.TakeWaiter? && s.k.waiting[c] != [] {
      HeadIsBlocked(g, s.k, s.cur);
    }
    SignallerActs(g, s, a);
  }

  lemma SignallerActs(g: Config, s: State, a: Action)
    requires Inv(g, s) && CurOk(g, s) && Enabled(g, s, a)
    requires var at := s.k.at[s.cur]; at.Taking? || at.Adding? || at.Unlinking? || at.Leaving?
    ensures a.Timer? || a.TakeWaiter? || a.AddRunnable? || a.UnlinkWaiter? || a.EndSignal?
    ensures a.EndSignal? ==> |Step(g, s, a).k.at| == g.threads && Step(g, s, a).k.at[s.cur] == Free
  {
    CurrentOk(g, s);
    if a.EndSignal? {
      UnlockOwn(g, s, g.lock[s.k.at[s.cur].c], Free);
    }
  }

  lemma RemainsOwn(g: Config, s: State, a: Action, c: nat, all: bool, q: seq<nat>)
    requires Inv(g, s) && CurOk(g, s) && c < |g.lock| && Enabled(g, s, a) && TypedState(g, Step(g, s, a))
    requires Remains(g, s.k, s.cur, c, all, q) && QueuePhase(Step(g, s, a).k.at[s.cur]) >= 0
    ensures Remains(g, Step(g, s, a).k, s.cur, c, all, q)
  {
    SignallerStep(g, s, a, c);
    var k, k' := s.k, Step(g, s, a).k;
    LeftMoves(c, k.at[s.cur], k'.at[s.cur], k.waiting[c], k'.waiting[c], all, q);
  }

  /** While t holds the queue mutex nobody else touches the queue. */
  lemma RemainsOther(g: Config, s: State, a: Action, t: nat, c: nat, all: bool, q: seq<nat>)
    requires Inv(g, s) && CurOk(g, s) && c < |g.lock| && Enabled(g, s, a) && TypedState(g, Step(g, s, a))
    requires t < g.threads && t != s.cur && Remains(g, s.k, t, c, all, q)
    ensures Remains(g, Step(g, s, a).k, t, c, all, q)
  {
    assert Holding(g, s.k, t) && Holding(g, s.k, s.cur);
    assert MutexOk(g, s.k, g.lock[c]);
    CondQueueStep(g, s, a, c);
    if a != Start(t) {
      OthersDrift(g, s, a, t);
    }
  }

  lemma RemainsNext(g: Config, s: State, a: Action, t: nat, c: nat, all: bool, q: seq<nat>)
    requires Inv(g, s) && CurOk(g, s) && c < |g.lock| && t < g.threads && Remains(g, s.k, t, c, all, q)
    requires QueuePhase(Next(g, s, a).k.at[t]) >= 0
    ensures Remains(g, Next(g, s, a).k, t, c, all, q)
  {
    if Enabled(g, s, a) {
      StepInv(g, s, a);
      if t == s.cur {
        RemainsOwn(g, s, a, c, all, q);
      } else {
        RemainsOther(g, s, a, t, c, all, q);
      }
    }
  }

  lemma {:induction false} RemainsAlong(g: Config, actions: seq<Action>, tr: seq<State>, t: nat, c: nat, all: bool,
                                        n: nat)
    requires States(g, actions, tr) && t < g.threads && c < |g.lock| && n <= |actions|
    requires tr[0].k.at[t] == Taking(c, all) && forall i :: 0 <= i <= n ==> QueuePhase(tr[i].k.at[t]) >= 0
    ensures Remains(g, tr[n].k, t, c, all, tr[0].k.waiting[c])
    decreases n
  {
    if n > 0 {
      RemainsAlong(g, actions, tr, t, c, all, n - 1);
      assert Leads(g, tr[n - 1], actions[n - 1], tr[n]);
      RemainsNext(g, tr[n - 1], actions[n - 1], t, c, all, tr[0].k.waiting[c]);
    }
  }

  /**
    Over every run, from where a thread has locked the queue mutex to where it is about to unlock it: cond_signal takes
    the head of the queue, if there is one, and nobody else; cond_broadcast takes all of it.
   */
  lemma SignalTakes(g: Config, actions: seq<Action>, tr: seq<State>, t: nat, c: nat, all: bool, n: nat)
    requires States(g, actions, tr) && t < g.threads && c < |g.lock| && n <= |actions|
    requires tr[0].k.at[t] == Taking(c, all) && tr[n].k.at[t] == Leaving(c)
    requires forall i :: 0 <= i <= n ==> QueuePhase(tr[i].k.at[t]) >= 0
    ensures var q := tr[0].k.waiting[c]; tr[n].k.waiting[c] == if all || q == [] then [] else q[1..]
  {
    RemainsAlong(g, actions, tr, t, c, all, n);
  }
}
