/** What one step of the scheduler model does to the threads other than the running one. */
module Interference {
  import opened Scheduler

  /** A signaller is about to take thread u. */
  predicate Takes(g: Config, s: State, a: Action, u: nat)
    requires TypedState(g, s)
  {
    var at := s.k.at[s.cur];
    a.TakeWaiter? && at.Taking? && at.c < |s.k.waiting| && s.k.waiting[at.c] != [] && s.k.waiting[at.c][0] == u
  }

  /** The change another thread's step can make to what a thread is doing. */
  predicate Drifted(g: Config, was: At, now: At, taken: bool) {
    || now == was
    || (was.Queued? && now == Lock(was.m, was.next))
    || (taken && (was.Parked? || was.Sleeping?) && now.Chosen? && now.c == was.c)
    || (was.Chosen? && was.c < |g.guard| && (now == Woken(was.c) || now == Lock(g.guard[was.c], WaitDone(was.c))))
  }

  /** What a step of another thread leaves of thread t. */
  predicate Undisturbed(g: Config, k: Links, k': Links, t: nat, taken: bool) {
    && t < |k.at| && |k'.at| == |k.at| && |k'.holders| == |k.holders|
    && Drifted(g, k.at[t], k'.at[t], taken)
    && forall m :: 0 <= m < |k.holders| ==> (t in k'.holders[m] <==> t in k.holders[m])
  }

  lemma UnlockDrift(g: Config, s: State, m: nat, at: At, t: nat)
    requires TypedState(g, s) && m < g.mutexes && t < g.threads && t != s.cur
    requires s.k.queue[m] != [] ==> s.k.queue[m][0] < g.threads && s.k.at[s.k.queue[m][0]].Queued?
    requires s.k.queue[m] != [] ==> s.k.at[s.k.queue[m][0]].m == m
    ensures Undisturbed(g, s.k, UnlockStep(g, s, m, at).k, t, false)
  {
  }

  lemma SignalDrift(g: Config, s: State, a: Action, t: nat)
    requires Inv(g, s) && CurOk(g, s) && Enabled(g, s, a) && t < g.threads && t != s.cur
    requires a.TakeWaiter? || a.AddRunnable?
    ensures Undisturbed(g, s.k, Step(g, s, a).k, t, Takes(g, s, a, t))
  {
    CurrentOk(g, s);
    var at, k := s.k.at[s.cur], s.k;
    if a.AddRunnable? {
      assert at.h in k.waiting[at.c] && CondQueueOk(g, k, at.c);
    } else if k.waiting[at.c] != [] {
      HeadIsBlocked(g, k, s.cur);
    }
  }

  lemma OthersDrift(g: Config, s: State, a: Action, t: nat)
    requires Inv(g, s) && CurOk(g, s) && Enabled(g, s, a) && t < g.threads && t != s.cur && a != Start(t)
    ensures Undisturbed(g, s.k, Step(g, s, a).k, t, Takes(g, s, a, t))
  {
    if a.TakeWaiter? || a.AddRunnable? {
      SignalDrift(g, s, a, t);
      return;
    }
    CurrentOk(g, s);
    var at, k := s.k.at[s.cur], s.k;
    match a
    case Unlock(m) => UnlockDrift(g, s, m, Free, t);
    case UnlockQueue => UnlockDrift(g, s, g.lock[at.c], Blocking(at.c, at.st), t);
    case Block => UnlockDrift(g, s.(status := s.status[s.cur := at.st]), g.guard[at.c], Parked(at.c), t);
    case EndSignal => UnlockDrift(g, s, g.lock[at.c], Free, t);
    case _ =>
  }

  lemma UnlockOwn(g: Config, s: State, m: nat, at: At)
    requires TypedState(g, s) && m < g.mutexes && !s.k.at[s.cur].Queued?
    requires s.k.queue[m] != [] ==> s.k.queue[m][0] < g.threads && s.k.at[s.k.queue[m][0]].Queued?
    ensures var k' := UnlockStep(g, s, m, at).k;
      && Typed(g, k') && k'.at[s.cur] == at
      && forall n :: 0 <= n < g.mutexes ==> (s.cur in k'.holders[n] <==> n != m && s.cur in s.k.holders[n])
  {
  }

  lemma SwitchStatus(g: Config, s: State, u: nat)
    requires TypedState(g, s) && PlacesOk(g, s) && u < g.threads
    ensures |Switch(g, s).status| == g.threads
    ensures Asleep(s.status[u]) && u != IDLE ==> Switch(g, s).status[u] == s.status[u]
    ensures s.status[u] != Descheduled ==> Switch(g, s).status[u] != Descheduled
  {
    SwitchTyped(g, s);
    assert Place(g, s, u);
    if s.runq != [] {
      assert s.runq[0] in s.runq;
    }
  }

  lemma UnlockStatus(g: Config, s: State, m: nat, at: At, u: nat)
    requires TypedState(g, s) && m < g.mutexes && u < g.threads
    requires s.k.queue[m] != [] ==> s.k.queue[m][0] < g.threads && s.k.at[s.k.queue[m][0]].Queued?
    ensures !s.k.at[u].Queued? ==> UnlockStep(g, s, m, at).status[u] == s.status[u]
    ensures s.status[u] != Descheduled ==> UnlockStep(g, s, m, at).status[u] != Descheduled
  {
  }

  /**
    The status DESCHEDULED: a thread gets it only from its own cond_wait, and another thread's
    step takes it away only by signalling.
   */
  lemma StatusSteps(g: Config, s: State, a: Action, u: nat)
    requires Inv(g, s) && CurOk(g, s) && Enabled(g, s, a) && u < g.threads
    ensures |Step(g, s, a).status| == g.threads
    ensures s.status[u] == Descheduled && !Takes(g, s, a, u) && (s.k.at[u].Parked? || s.k.at[u].Sleeping?) ==>
        Step(g, s, a).status[u] == Descheduled
    ensures s.status[u] != Descheduled && Step(g, s, a).status[u] == Descheduled ==>
        u == s.cur && a.Block? && s.k.at[u].Blocking? && s.k.at[u].st == Descheduled
    ensures u == s.cur && a.Block? ==> Step(g, s, a).status[u] == s.k.at[u].st
  {
    StepInv(g, s, a);
    CurrentOk(g, s);
    assert Place(g, s, u);
    var at := s.k.at[s.cur];
    match a
    case Timer => SwitchStatus(g, s, u);
    case TryLock =>
      if !s.k.free[at.m] {
        EnqueueStatus(g, s, u);
      }
    case Unlock(_) => UnlockSteps(g, s, a, u);
    case UnlockQueue => UnlockSteps(g, s, a, u);
    case Block => UnlockSteps(g, s, a, u);
    case EndSignal => UnlockSteps(g, s, a, u);
    case SwitchAway => SwitchAwayStatus(g, s, u);
    case Vanish => VanishStatus(g, s, u);
    case _ =>
  }

  lemma UnlockSteps(g: Config, s: State, a: Action, u: nat)
    requires Inv(g, s) && CurOk(g, s) && Enabled(g, s, a) && u < g.threads
    requires a.Unlock? || a.UnlockQueue? || a.Block? || a.EndSignal?
    ensures |Step(g, s, a).status| == g.threads
    ensures s.status[u] == Descheduled && (s.k.at[u].Parked? || s.k.at[u].Sleeping?) ==>
        Step(g, s, a).status[u] == Descheduled
    ensures s.status[u] != Descheduled && Step(g, s, a).status[u] == Descheduled ==>
        u == s.cur && a.Block? && s.k.at[u].Blocking? && s.k.at[u].st == Descheduled
    ensures u == s.cur && a.Block? ==> Step(g, s, a).status[u] == s.k.at[u].st
  {
    CurrentOk(g, s);
    assert Place(g, s, u);
    var t, at := s.cur, s.k.at[s.cur];
    match a
    case Unlock(m) => UnlockStatus(g, s, m, Free, u);
    case UnlockQueue => UnlockStatus(g, s, g.lock[at.c], Blocking(at.c, at.st), u);
    case Block => UnlockStatus(g, s.(status := s.status[t := at.st]), g.guard[at.c], Parked(at.c), u);
    case EndSignal => UnlockStatus(g, s, g.lock[at.c], Free, u);
  }

  lemma EnqueueStatus(g: Config, s: State, u: nat)
    requires Inv(g, s) && CurOk(g, s) && s.k.at[s.cur].Lock? && s.k.at[s.cur].m < g.mutexes && u < g.threads
    ensures var s' := Switch(g, s.(status := s.status[s.cur := Waiting], k := Enqueue(g, s.k, s.cur)));
      && |s'.status| == g.threads
      && (s.status[u] == Descheduled && u != s.cur && u != IDLE ==> s'.status[u] == Descheduled)
      && (s.status[u] != Descheduled ==> s'.status[u] != Descheduled)
  {
    var t, m := s.cur, s.k.at[s.cur].m;
    assert Place(g, s, t) && Place(g, s, u);
    var at := Queued(m, s.k.at[t].next);
    BlockMove(g, s, Waiting, at);
    var s0 := s.(status := s.status[t := Waiting], k := Goto(s.k, t, at));
    SameAtPlaces(g, s0, Enqueue(g, s.k, t));
    var s1 := s.(status := s.status[t := Waiting], k := Enqueue(g, s.k, t));
    assert s0.(k := Enqueue(g, s.k, t)) == s1;
    SwitchStatus(g, s1, u);
  }

  lemma SwitchAwayStatus(g: Config, s: State, u: nat)
    requires Inv(g, s) && CurOk(g, s) && Enabled(g, s, SwitchAway) && u < g.threads
    ensures |Step(g, s, SwitchAway).status| == g.threads
    ensures s.status[u] == Descheduled && (s.k.at[u].Parked? || s.k.at[u].Sleeping?) ==>
        Step(g, s, SwitchAway).status[u] == Descheduled
    ensures s.status[u] != Descheduled ==> Step(g, s, SwitchAway).status[u] != Descheduled
  {
    CurrentOk(g, s);
    assert Place(g, s, u);
    var t, at := s.cur, s.k.at[s.cur];
    if at.Parked? {
      BlockMove(g, s, s.status[t], Sleeping(at.c));
      assert s.status[t := s.status[t]] == s.status;
      SwitchStatus(g, s.(k := Goto(s.k, t, Sleeping(at.c))), u);
    } else {
      ActiveMove(g, s, Goto(s.k, t, Lock(g.guard[at.c], WaitDone(at.c))));
      SwitchStatus(g, s.(k := Goto(s.k, t, Lock(g.guard[at.c], WaitDone(at.c)))), u);
    }
  }

  lemma VanishStatus(g: Config, s: State, u: nat)
    requires Inv(g, s) && CurOk(g, s) && Enabled(g, s, Vanish) && u < g.threads
    ensures |Step(g, s, Vanish).status| == g.threads
    ensures s.status[u] == Descheduled && (s.k.at[u].Parked? || s.k.at[u].Sleeping?) ==>
        Step(g, s, Vanish).status[u] == Descheduled
    ensures s.status[u] != Descheduled ==> Step(g, s, Vanish).status[u] != Descheduled
  {
    assert Place(g, s, u);
    BlockMove(g, s, Exited, Gone);
    SwitchStatus(g, s.(status := s.status[s.cur := Exited], k := Goto(s.k, s.cur, Gone)), u);
  }

  /** A thread that a signaller takes becomes RUNNABLE and stays in its hand. */
  lemma TakenEffect(g: Config, s: State, a: Action, u: nat)
    requires Inv(g, s) && CurOk(g, s) && Enabled(g, s, a) && u < g.threads && Takes(g, s, a, u)
    ensures |Step(g, s, a).status| == g.threads == |Step(g, s, a).k.at|
    ensures Step(g, s, a).k.at[u].Chosen? && Step(g, s, a).status[u] == Runnable
  {
    CurrentOk(g, s);
    HeadIsBlocked(g, s.k, s.cur);
  }
}
