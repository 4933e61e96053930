/**
  No wake-up of the semaphore is lost (kern/sync/sem.c:42-70): while threads sleep on it, its count is at
  most the number of threads that are on their way to take from it, or to wake one that does.
 */
module SemaphoreWakeup {
  import opened Scheduler
  import opened Interference
  import opened Semaphore

  /** The thread is in cond_wait of the semaphore, up to its sleep. */
  predicate Bound(z: Sem, at: At) {
    match at
    case Lock(_, WaitLink(c, _)) => c == z.c
    case Queued(_, WaitLink(c, _)) => c == z.c
    case Linking(c, _) => c == z.c
    case Linked(c, _) => c == z.c
    case Blocking(c, _) => c == z.c
    case Parked(c) => c == z.c
    case Sleeping(c) => c == z.c
    case _ => false
  }

  /** The thread has been woken and will test the count again. */
  predicate Awakened(z: Sem, at: At) {
    CondOf(at) == z.c && (at.Chosen? || WokenPhase(at))
  }

  /** The thread has the mutex and is about to test the count, or has found it positive and not taken from it yet. */
  predicate Tests(pc: SemPc, at: At) {
    at.Free? && (pc.WaitEnter? || pc.WaitLoad? || pc.WaitStore?)
  }

  /** The thread is in cond_signal of the semaphore and has not taken a waiter yet. */
  predicate Signals(z: Sem, at: At) {
    match at
    case Lock(_, SignalTake(c, _)) => c == z.c
    case Queued(_, SignalTake(c, _)) => c == z.c
    case Taking(c, _) => c == z.c
    case _ => false
  }

  predicate Helps(z: Sem, pc: SemPc, at: At) {
    Awakened(z, at) || Tests(pc, at) || Signals(z, at) || pc.SignalWake?
  }

  function Helpers(g: Config, z: Sem, y: System): set<nat>
    requires |y.pc| == g.threads == |y.s.k.at|
  {
    set t | 0 <= t < g.threads && Helps(z, y.pc[t], y.s.k.at[t])
  }

  /** Which part of sem_wait or sem_signal the calls on the condition variable belong to. */
  predicate PhaseOk(z: Sem, pc: SemPc, at: At) {
    && (Bound(z, at) || Awakened(z, at) ==> pc == WaitEnter)
    && (Signals(z, at) || (at.Unlinking? && at.c == z.c) || (at.Adding? && at.c == z.c) ==> pc == SignalExit)
  }

  /** While somebody sleeps, or is going to, the count is at most the number of those who help. */
  predicate Law(g: Config, z: Sem, y: System)
    requires |y.pc| == g.threads == |y.s.k.at|
  {
    forall t :: 0 <= t < g.threads && Bound(z, y.s.k.at[t]) ==> y.count <= |Helpers(g, z, y)|
  }

  predicate WakeInv(g: Config, z: Sem, y: System) {
    && SemInv(g, z, y) && Law(g, z, y)
    && forall t :: 0 <= t < g.threads ==> PhaseOk(z, y.pc[t], y.s.k.at[t])
  }

  // ---------------------------------------------------------------- single threads

  /** What a thread does inside the primitives. */
  predicate Advanced(g: Config, was: At, now: At) {
    now == was || match was {
      case Lock(m, next) => now == Resume(next) || now == Queued(m, next)
      case Linking(c, st) => now == Linked(c, st)
      case Linked(c, st) => now == Blocking(c, st)
      case Blocking(c, _) => now == Parked(c)
      case Parked(c) => now == Sleeping(c)
      case Woken(c) => c < |g.guard| && now == Lock(g.guard[c], WaitDone(c))
      case Taking(c, _) => now == Leaving(c) || (now.Adding? && now.c == c)
      case Adding(c, _, _) => now.Unlinking? && now.c == c
      case Unlinking(c, _, _) => now == Leaving(c) || now == Taking(c, true)
      case Leaving(_) => now == Free
      case _ => false
    }
  }

  lemma OwnAdvance(g: Config, s: State, a: Action)
    requires Inv(g, s) && CurOk(g, s) && Enabled(g, s, a) && Inside(a)
    ensures |Step(g, s, a).k.at| == g.threads && Advanced(g, s.k.at[s.cur], Step(g, s, a).k.at[s.cur])
  {
    CurrentOk(g, s);
    var t, at := s.cur, s.k.at[s.cur];
    match a
    case TryLock =>
      if !s.k.free[at.m] {
        SwitchTyped(g, s.(status := s.status[t := Waiting], k := Enqueue(g, s.k, t)));
      }
    case UnlockQueue => UnlockOwn(g, s, g.lock[at.c], Blocking(at.c, at.st));
    case Block => UnlockOwn(g, s.(status := s.status[t := at.st]), g.guard[at.c], Parked(at.c));
    case EndSignal => UnlockOwn(g, s, g.lock[at.c], Free);
    case TakeWaiter =>
      if s.k.waiting[at.c] != [] {
        HeadIsBlocked(g, s.k, t);
      }
    case _ =>
  }

  /** The thread goes on, and only a signaller that looks at the queue stops helping. */
  lemma AdvancePhase(g: Config, z: Sem, pc: SemPc, was: At, now: At)
    requires ValidSem(g, z) && PhaseOk(z, pc, was) && Advanced(g, was, now) && pc != Outside
    requires pc.WaitLoad? || pc.WaitStore? || pc.WaitExit? || pc.SignalWake? ==> was.Free?
    ensures PhaseOk(z, pc, now) && (Bound(z, now) ==> Bound(z, was))
    ensures Helps(z, pc, was) && !Helps(z, pc, now) ==> was.Taking? && was.c == z.c
  {
  }

  /** A step of another thread takes nobody away from those who help, and puts nobody to sleep. */
  lemma DriftPhase(g: Config, z: Sem, pc: SemPc, was: At, now: At, taken: bool)
    requires ValidSem(g, z) && PhaseOk(z, pc, was) && Drifted(g, was, now, taken)
    requires was.Queued? ==> NextOk(g, was.m, was.next)
    ensures PhaseOk(z, pc, now) && (Bound(z, now) ==> Bound(z, was)) && (Helps(z, pc, was) ==> Helps(z, pc, now))
  {
  }

  // ---------------------------------------------------------------- counting

  lemma {:induction false} Fewer(a: set<nat>, b: set<nat>)
    requires a <= b
    ensures |a| <= |b|
    decreases |a|
  {
    if a != {} {
      var x :| x in a;
      Fewer(a - {x}, b - {x});
    }
  }

  /** Nobody new sleeps, everybody still helps, and the count does not grow. */
  predicate Steady(g: Config, z: Sem, y: System, y': System, t: nat)
    requires |y.pc| == g.threads == |y.s.k.at| && |y'.pc| == g.threads == |y'.s.k.at| && t < g.threads
  {
    && (Bound(z, y'.s.k.at[t]) ==> Bound(z, y.s.k.at[t]))
    && (Helps(z, y.pc[t], y.s.k.at[t]) ==> Helps(z, y'.pc[t], y'.s.k.at[t]))
  }

  predicate Sized(g: Config, y: System) {
    |y.pc| == g.threads == |y.s.k.at|
  }

  /** All but those in `but` are steady: they still help, and who sleeps now did so before. */
  lemma StillHelp(g: Config, z: Sem, y: System, y': System, but: set<nat>)
    requires Sized(g, y) && Sized(g, y')
    requires forall u :: 0 <= u < g.threads && u !in but ==> Steady(g, z, y, y', u)
    ensures Helpers(g, z, y) - but <= Helpers(g, z, y')
    ensures forall u :: 0 <= u < g.threads && u !in but && Bound(z, y'.s.k.at[u]) ==> Bound(z, y.s.k.at[u])
  {
    forall u | 0 <= u < g.threads && u !in but
      ensures Helps(z, y.pc[u], y.s.k.at[u]) ==> Helps(z, y'.pc[u], y'.s.k.at[u])
      ensures Bound(z, y'.s.k.at[u]) ==> Bound(z, y.s.k.at[u])
    {
      assert Steady(g, z, y, y', u);
    }
  }

  lemma SteadyLaw(g: Config, z: Sem, y: System, y': System)
    requires Sized(g, y) && Sized(g, y') && Law(g, z, y) && y'.count <= y.count
    requires forall t :: 0 <= t < g.threads ==> Steady(g, z, y, y', t)
    ensures Law(g, z, y')
  {
    StillHelp(g, z, y, y', {});
    assert Helpers(g, z, y) - {} == Helpers(g, z, y);
    Fewer(Helpers(g, z, y), Helpers(g, z, y'));
  }

  /** The thread t has given its help: the count is one less, or another thread helps instead. */
  lemma SpentLaw(g: Config, z: Sem, y: System, y': System, t: nat, h: nat)
    requires Sized(g, y) && Sized(g, y') && t < g.threads && h < g.threads && Law(g, z, y)
    requires forall u :: 0 <= u < g.threads && u !in {t} ==> Steady(g, z, y, y', u)
    requires Bound(z, y'.s.k.at[t]) ==> Bound(z, y.s.k.at[t])
    requires
      || y'.count < y.count
      || (y'.count == y.count && h != t && !Helps(z, y.pc[h], y.s.k.at[h]) && Helps(z, y'.pc[h], y'.s.k.at[h]))
    ensures Law(g, z, y')
  {
    var a, b := Helpers(g, z, y), Helpers(g, z, y');
    StillHelp(g, z, y, y', {t});
    if y'.count < y.count {
      Fewer(a - {t}, b);
    } else {
      Fewer(a - {t} + {h}, b);
    }
  }

  /** A signal is on its way for the new unit of the count. */
  lemma GainedLaw(g: Config, z: Sem, y: System, y': System, t: nat)
    requires Sized(g, y) && Sized(g, y') && t < g.threads && Law(g, z, y)
    requires forall u :: 0 <= u < g.threads ==> Steady(g, z, y, y', u)
    requires y'.count == y.count + 1 && !Helps(z, y.pc[t], y.s.k.at[t]) && Helps(z, y'.pc[t], y'.s.k.at[t])
    ensures Law(g, z, y')
  {
    StillHelp(g, z, y, y', {});
    assert Helpers(g, z, y) - {} == Helpers(g, z, y);
    Fewer(Helpers(g, z, y) + {t}, Helpers(g, z, y'));
  }

  // ---------------------------------------------------------------- steps

  /** Another thread's kernel step, for thread u. */
  lemma OtherSteady(g: Config, z: Sem, y: System, y': System, a: Action, u: nat)
    requires WakeInv(g, z, y) && Enabled(g, y.s, a) && u < g.threads && u != y.s.cur
    requires y'.s == Step(g, y.s, a) && Sized(g, y') && y'.pc[u] == y.pc[u]
    ensures Steady(g, z, y, y', u) && PhaseOk(z, y'.pc[u], y'.s.k.at[u])
  {
    assert PhaseOk(z, y.pc[u], y.s.k.at[u]);
    if a == Start(u) {
      assert ThreadOk(g, z, y.s.k, y.pc[u], y.count, u);
    } else {
      OthersDrift(g, y.s, a, u);
      assert Holding(g, y.s.k, u);
      DriftPhase(g, z, y.pc[u], y.s.k.at[u], y'.s.k.at[u], Interference.Takes(g, y.s, a, u));
    }
  }

  /** The thread's own kernel step inside sem_wait or sem_signal. */
  lemma OwnSteady(g: Config, z: Sem, y: System, y': System, a: Action)
    requires WakeInv(g, z, y) && SemEnabled(g, z, y, Kernel(a)) && y' == SemStep(g, z, y, Kernel(a)) && SemInv(g, z, y')
    ensures var t := y.s.cur;
      && PhaseOk(z, y'.pc[t], y'.s.k.at[t]) && (Bound(z, y'.s.k.at[t]) ==> Bound(z, y.s.k.at[t]))
      && (Steady(g, z, y, y', t) || (a.TakeWaiter? && y.s.k.at[t].Taking? && y.s.k.at[t].c == z.c))
  {
    var t := y.s.cur;
    assert PhaseOk(z, y.pc[t], y.s.k.at[t]);
    assert ThreadOk(g, z, y.s.k, y.pc[t], y.count, t);
    assert ThreadOk(g, z, y'.s.k, y'.pc[t], y'.count, t);
    if y.pc[t] == Outside {
      OutsideApart(g, z, y.s.k.at[t]);
      OutsideApart(g, z, y'.s.k.at[t]);
    } else {
      OwnAdvance(g, y.s, a);
      AdvancePhase(g, z, y.pc[t], y.s.k.at[t], y'.s.k.at[t]);
      if y.s.k.at[t].Taking? {
        TakingActs(g, y.s, a);
      }
    }
  }

  lemma OutsideApart(g: Config, z: Sem, at: At)
    requires ValidSem(g, z) && !Engaged(g, z, at)
    ensures !Bound(z, at) && !Helps(z, Outside, at) && PhaseOk(z, Outside, at)
  {
  }

  lemma TakingActs(g: Config, s: State, a: Action)
    requires Inv(g, s) && CurOk(g, s) && Enabled(g, s, a) && Inside(a) && s.k.at[s.cur].Taking?
    ensures a.TakeWaiter? || Step(g, s, a).k.at == s.k.at
  {
  }

  /** A signaller that has the mutex and finds the queue empty: nobody sleeps. */
  lemma NobodySleeps(g: Config, z: Sem, y: System, t: nat)
    requires WakeInv(g, z, y) && t < g.threads && y.s.k.at[y.s.cur].Taking? && y.s.k.at[y.s.cur].c == z.c
    requires y.s.k.waiting[z.c] == []
    ensures !Bound(z, y.s.k.at[t])
  {
    assert Holding(g, y.s.k, y.s.cur) && Holding(g, y.s.k, t);
    assert CondQueueOk(g, y.s.k, z.c) && MutexOk(g, y.s.k, z.m);
  }

  /** The signaller takes the first in the queue, who will help instead. */
  lemma TakeLaw(g: Config, z: Sem, y: System, y': System)
    requires WakeInv(g, z, y) && SemEnabled(g, z, y, Kernel(TakeWaiter)) && y' == SemStep(g, z, y, Kernel(TakeWaiter))
    requires y.s.k.at[y.s.cur].Taking? && y.s.k.at[y.s.cur].c == z.c && Sized(g, y')
    requires forall u :: 0 <= u < g.threads && u !in {y.s.cur} ==> Steady(g, z, y, y', u)
    requires Bound(z, y'.s.k.at[y.s.cur]) ==> Bound(z, y.s.k.at[y.s.cur])
    ensures Law(g, z, y')
  {
    var t := y.s.cur;
    if y.s.k.waiting[z.c] == [] {
      StillHelp(g, z, y, y', {t});
      forall u | 0 <= u < g.threads
        ensures !Bound(z, y.s.k.at[u])
      {
        NobodySleeps(g, z, y, u);
      }
    } else {
      HeadIsBlocked(g, y.s.k, t);
      var h := y.s.k.waiting[z.c][0];
      assert PhaseOk(z, y.pc[h], y.s.k.at[h]);
      TakenEffect(g, y.s, TakeWaiter, h);
      OthersDrift(g, y.s, TakeWaiter, h);
      SpentLaw(g, z, y, y', t, h);
    }
  }

  lemma KernelWakes(g: Config, z: Sem, y: System, a: Action)
    requires WakeInv(g, z, y) && SemEnabled(g, z, y, Kernel(a))
    ensures WakeInv(g, z, SemStep(g, z, y, Kernel(a)))
  {
    var y', t := SemStep(g, z, y, Kernel(a)), y.s.cur;
    SemStepOk(g, z, y, Kernel(a));
    OwnSteady(g, z, y, y', a);
    forall u | 0 <= u < g.threads && u != t
      ensures Steady(g, z, y, y', u) && PhaseOk(z, y'.pc[u], y'.s.k.at[u])
    {
      OtherSteady(g, z, y, y', a, u);
    }
    if Steady(g, z, y, y', t) {
      SteadyLaw(g, z, y, y');
    } else {
      TakeLaw(g, z, y, y');
    }
  }

  /** Where a call of the semaphore leads, and which part of its code it is in. */
  predicate CallFits(g: Config, z: Sem, a: Action, pc: SemPc, pc': SemPc, count: int, at': At)
    requires z.c < |g.lock|
  {
    match a
    case BeginWait(_, _) => count == 0 && pc' == WaitEnter && at' == Lock(g.lock[z.c], WaitLink(z.c, a.st))
    case BeginSignal(_, _) => pc' == SignalExit && at' == Lock(g.lock[z.c], SignalTake(z.c, a.all))
    case Unlock(_) => pc' == Outside && at' == Free && (pc.WaitExit? || pc.SignalExit?)
    case BeginLock(_) => pc == Outside && (pc'.WaitEnter? || pc'.SignalEnter?) && at' == Lock(z.m, Client)
    case _ => false
  }

  lemma CallAt(g: Config, z: Sem, s: State, a: Action)
    requires ValidSem(g, z) && Inv(g, s) && Enabled(g, s, a) && Private(z, a)
    ensures s.k.at[s.cur].Free? && |Step(g, s, a).k.at| == g.threads
    ensures Step(g, s, a).k.at[s.cur] ==
      match a {
        case BeginWait(_, st) => Lock(g.lock[z.c], WaitLink(z.c, st))
        case BeginSignal(_, all) => Lock(g.lock[z.c], SignalTake(z.c, all))
        case BeginLock(_) => Lock(z.m, Client)
        case _ => Free
      }
  {
    CurrentOk(g, s);
    if a.Unlock? {
      UnlockOwn(g, s, z.m, Free);
    }
  }

  lemma CallPhase(g: Config, z: Sem, a: Action, pc: SemPc, pc': SemPc, count: int, at': At)
    requires z.c < |g.lock| && CallFits(g, z, a, pc, pc', count, at')
    ensures PhaseOk(z, pc', at') && (Bound(z, at') ==> count == 0)
    ensures count != 0 && Helps(z, pc, Free) ==> Helps(z, pc', at')
  {
  }

  /** The calls that the semaphore makes: only one that finds the count 0 goes to sleep. */
  lemma CallWakes(g: Config, z: Sem, y: System, y': System, a: Action)
    requires WakeInv(g, z, y) && SemInv(g, z, y') && Enabled(g, y.s, a) && Private(z, a)
    requires y'.s == Step(g, y.s, a) && y'.count == y.count
    requires forall u :: 0 <= u < g.threads && u != y.s.cur ==> y'.pc[u] == y.pc[u]
    requires CallFits(g, z, a, y.pc[y.s.cur], y'.pc[y.s.cur], y.count, y'.s.k.at[y.s.cur])
    ensures WakeInv(g, z, y')
  {
    var t := y.s.cur;
    CallAt(g, z, y.s, a);
    CallPhase(g, z, a, y.pc[t], y'.pc[t], y.count, y'.s.k.at[t]);
    forall u | 0 <= u < g.threads && u != t
      ensures Steady(g, z, y, y', u) && PhaseOk(z, y'.pc[u], y'.s.k.at[u])
    {
      OtherSteady(g, z, y, y', a, u);
    }
    if y.count != 0 {
      SteadyLaw(g, z, y, y');
    }
  }

  /** The steps on the count itself. */
  lemma LocalWakes(g: Config, z: Sem, y: System)
    requires WakeInv(g, z, y) && SemEnabled(g, z, y, Advance) && CallOf(z, y.pc[y.s.cur], y.count).Timer?
    ensures WakeInv(g, z, SemStep(g, z, y, Advance))
  {
    var y', t := SemStep(g, z, y, Advance), y.s.cur;
    SemStepOk(g, z, y, Advance);
    assert ThreadOk(g, z, y.s.k, y.pc[t], y.count, t);
    forall u | 0 <= u < g.threads && u != t
      ensures Steady(g, z, y, y', u) && PhaseOk(z, y'.pc[u], y'.s.k.at[u])
    {
      assert PhaseOk(z, y.pc[u], y.s.k.at[u]);
    }
    if y.pc[t].WaitStore? {
      SpentLaw(g, z, y, y', t, t);
    } else if y.pc[t].SignalStore? {
      GainedLaw(g, z, y, y', t);
    } else {
      SteadyLaw(g, z, y, y');
    }
  }

  lemma EnterWakes(g: Config, z: Sem, y: System, x: SemAction)
    requires WakeInv(g, z, y) && SemEnabled(g, z, y, x) && (x.CallWait? || x.CallSignal?)
    ensures WakeInv(g, z, SemStep(g, z, y, x))
  {
    SemStepOk(g, z, y, x);
    CallAt(g, z, y.s, BeginLock(z.m));
    CallWakes(g, z, y, SemStep(g, z, y, x), BeginLock(z.m));
  }

  lemma AdvanceWakes(g: Config, z: Sem, y: System)
    requires WakeInv(g, z, y) && SemEnabled(g, z, y, Advance) && !CallOf(z, y.pc[y.s.cur], y.count).Timer?
    ensures WakeInv(g, z, SemStep(g, z, y, Advance))
  {
    var call := CallOf(z, y.pc[y.s.cur], y.count);
    SemStepOk(g, z, y, Advance);
    CallAt(g, z, y.s, call);
    CallWakes(g, z, y, SemStep(g, z, y, Advance), call);
  }

  lemma StepWakes(g: Config, z: Sem, y: System, x: SemAction)
    requires WakeInv(g, z, y) && SemEnabled(g, z, y, x)
    ensures WakeInv(g, z, SemStep(g, z, y, x))
  {
    match x
    case Kernel(a) => KernelWakes(g, z, y, a);
    case CallWait => EnterWakes(g, z, y, x);
    case CallSignal => EnterWakes(g, z, y, x);
    case Advance =>
      if CallOf(z, y.pc[y.s.cur], y.count).Timer? {
        LocalWakes(g, z, y);
      } else {
        AdvanceWakes(g, z, y);
      }
  }

  // ---------------------------------------------------------------- every run

  lemma {:induction false} RunWakes(g: Config, z: Sem, y: System, actions: seq<SemAction>)
    requires WakeInv(g, z, y)
    ensures WakeInv(g, z, SemRun(g, z, y, actions))
    decreases |actions|
  {
    if actions != [] {
      if SemEnabled(g, z, y, actions[0]) {
        StepWakes(g, z, y, actions[0]);
        RunWakes(g, z, SemStep(g, z, y, actions[0]), actions[1..]);
      } else {
        RunWakes(g, z, y, actions[1..]);
      }
    }
  }

  /** The threads that were woken on the semaphore and have not tested the count since. */
  function AwakenedThreads(g: Config, z: Sem, y: System): set<nat>
    requires Sized(g, y)
  {
    set t | 0 <= t < g.threads && Awakened(z, y.s.k.at[t])
  }

  /** While nobody has the mutex only those who were woken help. */
  lemma OnlyAwakened(g: Config, z: Sem, y: System)
    requires SemInv(g, z, y) && y.s.k.holders[z.m] == {}
    ensures Helpers(g, z, y) == AwakenedThreads(g, z, y)
  {
    forall t | 0 <= t < g.threads
      ensures Helps(z, y.pc[t], y.s.k.at[t]) ==> Awakened(z, y.s.k.at[t])
    {
      assert ThreadOk(g, z, y.s.k, y.pc[t], y.count, t);
      assert Holding(g, y.s.k, t);
    }
  }

  /**
    Over every run: while a thread sleeps on the semaphore, the count is at most the number of threads
    that were woken, hold the mutex on the way to take from the count, or are about to signal; and while
    nobody has the mutex, at most the number of those who were woken.
   */
  lemma NoLostWakeup(g: Config, z: Sem, actions: seq<SemAction>, t: nat)
    requires ValidSem(g, z) && t < g.threads
    ensures var y := SemRun(g, z, SemInitial(g, z), actions);
      Bound(z, y.s.k.at[t]) ==>
        && y.count <= |Helpers(g, z, y)|
        && (y.s.k.holders[z.m] == {} ==> y.count <= |AwakenedThreads(g, z, y)|)
  {
    var y := SemRun(g, z, SemInitial(g, z), actions);
    RunWakes(g, z, SemInitial(g, z), actions);
    if y.s.k.holders[z.m] == {} {
      OnlyAwakened(g, z, y);
    }
  }
}
