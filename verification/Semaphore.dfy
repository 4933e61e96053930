/**
  The semaphore of kern/sync/sem.c as a client of the mutex and the condition variable, over all
  interleavings.  Reading and writing the count are separate steps, so that the law of the
  count rests on mutual exclusion.
 */
module Semaphore {
  import opened Scheduler
  import opened Interference

  // ---------------------------------------------------------------- the semaphore

  /** Where a thread is in sem_wait or sem_signal. */
  datatype SemPc =
    | Outside
    | WaitEnter          // in mutex_lock or cond_wait, about to test the count
    | WaitLoad           // the count was not 0
    | WaitStore(v: int)  // about to store v - 1
    | WaitExit           // about to unlock
    | SignalEnter        // in mutex_lock, about to load the count
    | SignalStore(v: int)  // about to store v + 1
    | SignalWake         // about to call cond_signal
    | SignalExit         // in cond_signal, about to unlock

  /** The semaphore's mutex m and condition variable c. */
  datatype Sem = Sem(m: nat, c: nat, initial: nat)

  datatype System = System(s: State, pc: seq<SemPc>, count: int, signals: nat, waits: nat)

  predicate ValidSem(g: Config, z: Sem) {
    && ValidConfig(g) && z.c < |g.lock| && z.m == g.guard[z.c] && z.m !in g.lock
    && forall d :: 0 <= d < |g.guard| && d != z.c ==> g.guard[d] != z.m
  }

  function NextCond(next: Next): int {
    match next
    case Client => -1
    case WaitLink(c, _) => c
    case WaitDone(c) => c
    case SignalTake(c, _) => c
  }

  /** The thread is inside a call on the semaphore's mutex or condition variable. */
  predicate Engaged(g: Config, z: Sem, at: At)
    requires ValidSem(g, z)
  {
    match at
    case Lock(m, next) => m == z.m || NextCond(next) == z.c
    case Queued(m, next) => m == z.m || NextCond(next) == z.c
    case Linking(c, _) => c == z.c
    case Linked(c, _) => c == z.c
    case Blocking(c, _) => c == z.c
    case Parked(c) => c == z.c
    case Sleeping(c) => c == z.c
    case Chosen(c, _) => c == z.c
    case Woken(c) => c == z.c
    case Taking(c, _) => c == z.c
    case Adding(c, _, _) => c == z.c
    case Unlinking(c, _, _) => c == z.c
    case Leaving(c) => c == z.c
    case _ => false
  }

  /** The calls that sem_wait and sem_signal make themselves. */
  predicate Private(z: Sem, a: Action) {
    || a == BeginLock(z.m) || a == Unlock(z.m)
    || (a.BeginWait? && a.c == z.c) || (a.BeginSignal? && a.c == z.c)
  }

  /** What goes on inside the primitives, without a new call. */
  predicate Inside(a: Action) {
    !a.BeginLock? && !a.Unlock? && !a.BeginWait? && !a.BeginSignal? && !a.Start? && !a.Vanish?
  }

  datatype SemAction = Kernel(a: Action) | CallWait | CallSignal | Advance

  /** The kernel step that goes with the next step of sem_wait or sem_signal, Timer standing for none. */
  function CallOf(z: Sem, pc: SemPc, count: int): Action {
    match pc
    case WaitEnter => if count == 0 then BeginWait(z.c, Waiting) else Timer
    case WaitExit => Unlock(z.m)
    case SignalWake => BeginSignal(z.c, false)
    case SignalExit => Unlock(z.m)
    case _ => Timer
  }

  predicate SemEnabled(g: Config, z: Sem, y: System, x: SemAction)
    requires ValidSem(g, z) && Inv(g, y.s) && |y.pc| == g.threads
  {
    var t := y.s.cur;
    match x
    case Kernel(a) =>
      Enabled(g, y.s, a) && !Private(z, a) && (y.pc[t] != Outside ==> Inside(a))
    case CallWait => y.pc[t] == Outside && Enabled(g, y.s, BeginLock(z.m))
    case CallSignal => y.pc[t] == Outside && Enabled(g, y.s, BeginLock(z.m))
    case Advance =>
      y.pc[t] != Outside && y.s.k.at[t].Free? && Enabled(g, y.s, CallOf(z, y.pc[t], y.count))
  }

  function SemStep(g: Config, z: Sem, y: System, x: SemAction): System
    requires ValidSem(g, z) && Inv(g, y.s) && |y.pc| == g.threads && SemEnabled(g, z, y, x)
  {
    var t, pc := y.s.cur, y.pc[y.s.cur];
    match x
    case Kernel(a) => y.(s := Step(g, y.s, a))
    case CallWait => y.(s := Step(g, y.s, BeginLock(z.m)), pc := y.pc[t := WaitEnter])
    case CallSignal => y.(s := Step(g, y.s, BeginLock(z.m)), pc := y.pc[t := SignalEnter])
    case Advance =>
      match pc {
        case WaitEnter =>
          if y.count == 0 then y.(s := Step(g, y.s, BeginWait(z.c, Waiting)))
          else y.(pc := y.pc[t := WaitLoad])
        case WaitLoad => y.(pc := y.pc[t := WaitStore(y.count)])
        case WaitStore(v) => y.(count := v - 1, waits := y.waits + 1, pc := y.pc[t := WaitExit])
        case WaitExit => y.(s := Step(g, y.s, Unlock(z.m)), pc := y.pc[t := Outside])
        case SignalEnter => y.(pc := y.pc[t := SignalStore(y.count)])
        case SignalStore(v) => y.(count := v + 1, signals := y.signals + 1, pc := y.pc[t := SignalWake])
        case SignalWake => y.(s := Step(g, y.s, BeginSignal(z.c, false)), pc := y.pc[t := SignalExit])
        case SignalExit => y.(s := Step(g, y.s, Unlock(z.m)), pc := y.pc[t := Outside])
        case Outside => y
      }
  }

  /** A thread between its lock and its unlock has the mutex whenever it runs its own code. */
  predicate ThreadOk(g: Config, z: Sem, k: Links, pc: SemPc, count: int, t: nat)
    requires ValidSem(g, z) && Typed(g, k) && t < g.threads
  {
    && (pc == Outside ==> t !in k.holders[z.m] && !Engaged(g, z, k.at[t]))
    && (pc != Outside ==> t != IDLE && (Engaged(g, z, k.at[t]) || (k.at[t].Free? && t in k.holders[z.m])))
    && (pc.WaitLoad? ==> k.at[t].Free? && count > 0)
    && (pc.WaitStore? ==> k.at[t].Free? && pc.v == count && count > 0)
    && (pc.SignalStore? ==> k.at[t].Free? && pc.v == count)
    && (pc.WaitExit? || pc.SignalWake? ==> k.at[t].Free?)
  }

  predicate SemInv(g: Config, z: Sem, y: System) {
    && ValidSem(g, z) && Inv(g, y.s) && CurOk(g, y.s) && |y.pc| == g.threads
    && y.count == z.initial + y.signals - y.waits && 0 <= y.count
    && forall t :: 0 <= t < g.threads ==> ThreadOk(g, z, y.s.k, y.pc[t], y.count, t)
  }

  lemma DriftOk(g: Config, z: Sem, k: Links, k': Links, pc: SemPc, count: int, t: nat, taken: bool)
    requires ValidSem(g, z) && Typed(g, k) && Typed(g, k') && t < g.threads
    requires ThreadOk(g, z, k, pc, count, t) && Undisturbed(g, k, k', t, taken)
    ensures ThreadOk(g, z, k', pc, count, t)
  {
  }

  /** The unlocks inside the primitives, and those of other mutexes. */
  lemma OwnUnlockOk(g: Config, z: Sem, s: State, a: Action, pc: SemPc, count: int)
    requires ValidSem(g, z) && Inv(g, s) && CurOk(g, s) && Enabled(g, s, a) && !Private(z, a)
    requires a.Unlock? || a.UnlockQueue? || a.Block? || a.EndSignal?
    requires pc != Outside ==> Inside(a)
    requires ThreadOk(g, z, s.k, pc, count, s.cur)
    ensures Typed(g, Step(g, s, a).k) && ThreadOk(g, z, Step(g, s, a).k, pc, count, s.cur)
  {
    CurrentOk(g, s);
    var at := s.k.at[s.cur];
    match a
    case Unlock(m) => UnlockedOk(g, z, s, m, Free, pc, count);
    case UnlockQueue => UnlockedOk(g, z, s, g.lock[at.c], Blocking(at.c, at.st), pc, count);
    case Block =>
      UnlockedOk(g, z, s.(status := s.status[s.cur := at.st]), g.guard[at.c], Parked(at.c), pc, count);
    case EndSignal => UnlockedOk(g, z, s, g.lock[at.c], Free, pc, count);
  }

  lemma UnlockedOk(g: Config, z: Sem, s: State, m: nat, at: At, pc: SemPc, count: int)
    requires ValidSem(g, z) && TypedState(g, s) && m < g.mutexes && !s.k.at[s.cur].Queued?
    requires s.k.queue[m] != [] ==> s.k.queue[m][0] < g.threads && s.k.at[s.k.queue[m][0]].Queued?
    requires ThreadOk(g, z, s.k, pc, count, s.cur)
    requires Engaged(g, z, at) == Engaged(g, z, s.k.at[s.cur])
      || (at.Free? && pc != Outside && m != z.m && s.cur in s.k.holders[z.m])
    requires s.k.at[s.cur].Free? ==> at.Free? && m != z.m
    ensures Typed(g, UnlockStep(g, s, m, at).k) && ThreadOk(g, z, UnlockStep(g, s, m, at).k, pc, count, s.cur)
  {
    UnlockOwn(g, s, m, at);
  }

  /** The calls of mutex_lock. */
  lemma OwnLockOk(g: Config, z: Sem, s: State, pc: SemPc, count: int)
    requires ValidSem(g, z) && Inv(g, s) && CurOk(g, s) && s.k.at[s.cur].Lock?
    requires ThreadOk(g, z, s.k, pc, count, s.cur)
    ensures Typed(g, Step(g, s, TryLock).k) && ThreadOk(g, z, Step(g, s, TryLock).k, pc, count, s.cur)
  {
    CurrentOk(g, s);
    var t := s.cur;
    if !s.k.free[s.k.at[t].m] {
      SwitchTyped(g, s.(status := s.status[t := Waiting], k := Enqueue(g, s.k, t)));
    }
  }

  /** A step that ends in context_switch. */
  lemma OwnSwitchOk(g: Config, z: Sem, s: State, a: Action, pc: SemPc, count: int)
    requires ValidSem(g, z) && Inv(g, s) && CurOk(g, s) && Enabled(g, s, a)
    requires a.Timer? || a.SwitchAway? || a.Vanish?
    requires pc != Outside ==> Inside(a)
    requires ThreadOk(g, z, s.k, pc, count, s.cur)
    ensures Typed(g, Step(g, s, a).k) && ThreadOk(g, z, Step(g, s, a).k, pc, count, s.cur)
  {
    CurrentOk(g, s);
  }

  /** A step of a signaller. */
  lemma OwnSignalOk(g: Config, z: Sem, s: State, a: Action, pc: SemPc, count: int)
    requires ValidSem(g, z) && Inv(g, s) && CurOk(g, s) && Enabled(g, s, a)
    requires a.TakeWaiter? || a.AddRunnable? || a.UnlinkWaiter?
    requires ThreadOk(g, z, s.k, pc, count, s.cur)
    ensures Typed(g, Step(g, s, a).k) && ThreadOk(g, z, Step(g, s, a).k, pc, count, s.cur)
  {
    CurrentOk(g, s);
    if a.TakeWaiter? && s.k.waiting[s.k.at[s.cur].c] != [] {
      HeadIsBlocked(g, s.k, s.cur);
    }
  }

  /** The thread's own progress inside a primitive. */
  lemma OwnOk(g: Config, z: Sem, s: State, a: Action, pc: SemPc, count: int)
    requires ValidSem(g, z) && Inv(g, s) && CurOk(g, s) && Enabled(g, s, a) && !Private(z, a)
    requires pc != Outside ==> Inside(a)
    requires ThreadOk(g, z, s.k, pc, count, s.cur)
    ensures Typed(g, Step(g, s, a).k) && ThreadOk(g, z, Step(g, s, a).k, pc, count, s.cur)
  {
    if a.TryLock? {
      OwnLockOk(g, z, s, pc, count);
    } else if a.Unlock? || a.UnlockQueue? || a.Block? || a.EndSignal? {
      OwnUnlockOk(g, z, s, a, pc, count);
    } else if a.Timer? || a.SwitchAway? || a.Vanish? {
      OwnSwitchOk(g, z, s, a, pc, count);
    } else if a.TakeWaiter? || a.AddRunnable? || a.UnlinkWaiter? {
      OwnSignalOk(g, z, s, a, pc, count);
    } else {
      CurrentOk(g, s);
    }
  }

  /** Only the holder of the mutex has read the count. */
  lemma CountPrivate(g: Config, z: Sem, y: System, t: nat)
    requires SemInv(g, z, y) && t < g.threads && t != y.s.cur && y.s.cur in y.s.k.holders[z.m]
    ensures !y.pc[t].WaitLoad? && !y.pc[t].WaitStore? && !y.pc[t].SignalStore?
  {
    assert ThreadOk(g, z, y.s.k, y.pc[t], y.count, t);
    assert MutexOk(g, y.s.k, z.m);
  }

  lemma KernelOk(g: Config, z: Sem, y: System, a: Action)
    requires SemInv(g, z, y) && SemEnabled(g, z, y, Kernel(a))
    ensures SemInv(g, z, SemStep(g, z, y, Kernel(a)))
  {
    var y' := SemStep(g, z, y, Kernel(a));
    StepInv(g, y.s, a);
    forall t | 0 <= t < g.threads ensures ThreadOk(g, z, y'.s.k, y'.pc[t], y'.count, t) {
      assert ThreadOk(g, z, y.s.k, y.pc[t], y.count, t);
      if t == y.s.cur {
        OwnOk(g, z, y.s, a, y.pc[t], y.count);
      } else if a == Start(t) {
        StartOk(g, z, y, t);
      } else {
        OthersDrift(g, y.s, a, t);
        DriftOk(g, z, y.s.k, y'.s.k, y.pc[t], y.count, t, Takes(g, y.s, a, t));
      }
    }
  }

  lemma StartOk(g: Config, z: Sem, y: System, t: nat)
    requires SemInv(g, z, y) && t < g.threads && t != y.s.cur && Enabled(g, y.s, Start(t))
    ensures Typed(g, Step(g, y.s, Start(t)).k)
    ensures ThreadOk(g, z, Step(g, y.s, Start(t)).k, y.pc[t], y.count, t)
  {
    assert ThreadOk(g, z, y.s.k, y.pc[t], y.count, t);
  }

  lemma CallOwnOk(g: Config, z: Sem, y: System, a: Action, pc: SemPc)
    requires SemInv(g, z, y) && Enabled(g, y.s, a) && Private(z, a)
    requires if a.Unlock? then pc == Outside else pc == WaitEnter || pc == SignalEnter || pc == SignalExit
    ensures Typed(g, Step(g, y.s, a).k) && ThreadOk(g, z, Step(g, y.s, a).k, pc, y.count, y.s.cur)
  {
    assert ThreadOk(g, z, y.s.k, y.pc[y.s.cur], y.count, y.s.cur);
    CurrentOk(g, y.s);
    if a.Unlock? {
      UnlockOwn(g, y.s, z.m, Free);
    }
  }

  /** The calls that the semaphore makes. */
  lemma CallOk(g: Config, z: Sem, y: System, a: Action, pc: SemPc)
    requires SemInv(g, z, y) && Enabled(g, y.s, a) && Private(z, a)
    requires if a.Unlock? then pc == Outside else pc == WaitEnter || pc == SignalEnter || pc == SignalExit
    ensures SemInv(g, z, y.(s := Step(g, y.s, a), pc := y.pc[y.s.cur := pc]))
  {
    var y' := y.(s := Step(g, y.s, a), pc := y.pc[y.s.cur := pc]);
    StepInv(g, y.s, a);
    CallOwnOk(g, z, y, a, pc);
    forall t | 0 <= t < g.threads ensures ThreadOk(g, z, y'.s.k, y'.pc[t], y'.count, t) {
      if t != y.s.cur {
        assert ThreadOk(g, z, y.s.k, y.pc[t], y.count, t);
        OthersDrift(g, y.s, a, t);
        DriftOk(g, z, y.s.k, y'.s.k, y.pc[t], y.count, t, Takes(g, y.s, a, t));
      }
    }
  }

  /** The steps on the count itself. */
  lemma LocalOk(g: Config, z: Sem, y: System)
    requires SemInv(g, z, y) && SemEnabled(g, z, y, Advance) && CallOf(z, y.pc[y.s.cur], y.count).Timer?
    ensures SemInv(g, z, SemStep(g, z, y, Advance))
  {
    var y' := SemStep(g, z, y, Advance);
    assert ThreadOk(g, z, y.s.k, y.pc[y.s.cur], y.count, y.s.cur);
    forall t | 0 <= t < g.threads ensures ThreadOk(g, z, y'.s.k, y'.pc[t], y'.count, t) {
      assert ThreadOk(g, z, y.s.k, y.pc[t], y.count, t);
      if t != y.s.cur {
        CountPrivate(g, z, y, t);
      }
    }
  }

  lemma SemStepOk(g: Config, z: Sem, y: System, x: SemAction)
    requires SemInv(g, z, y) && SemEnabled(g, z, y, x)
    ensures SemInv(g, z, SemStep(g, z, y, x))
  {
    match x
    case Kernel(a) => KernelOk(g, z, y, a);
    case CallWait => CallOk(g, z, y, BeginLock(z.m), WaitEnter);
    case CallSignal => CallOk(g, z, y, BeginLock(z.m), SignalEnter);
    case Advance =>
      var t := y.s.cur;
      var call := CallOf(z, y.pc[t], y.count);
      if call.Timer? {
        LocalOk(g, z, y);
      } else {
        assert y.pc[t := WaitEnter] == y.pc || !y.pc[t].WaitEnter?;
        CallOk(g, z, y, call,
               match y.pc[t] { case WaitEnter => WaitEnter case SignalWake => SignalExit case _ => Outside });
      }
  }

  /** The semaphore never breaks the rule for callers: a thread that runs its own code can always go on. */
  lemma NeverStuck(g: Config, z: Sem, y: System)
    requires SemInv(g, z, y) && y.pc[y.s.cur] != Outside && y.s.k.at[y.s.cur].Free?
    ensures SemEnabled(g, z, y, Advance)
  {
    assert ThreadOk(g, z, y.s.k, y.pc[y.s.cur], y.count, y.s.cur);
  }

  // ---------------------------------------------------------------- every run

  function SemInitial(g: Config, z: Sem): (y: System)
    requires ValidSem(g, z)
    ensures SemInv(g, z, y) && y.count == z.initial
  {
    InitialInv(g);
    System(Initial(g), seq(g.threads, _ => Outside), z.initial, 0, 0)
  }

  /** Any interleaving of the threads, the actions that are not enabled left out. */
  function SemRun(g: Config, z: Sem, y: System, actions: seq<SemAction>): (r: System)
    requires SemInv(g, z, y)
    ensures SemInv(g, z, r)
    decreases |actions|
  {
    if actions == [] then y
    else if SemEnabled(g, z, y, actions[0]) then
      SemStepOk(g, z, y, actions[0]);
      SemRun(g, z, SemStep(g, z, y, actions[0]), actions[1..])
    else SemRun(g, z, y, actions[1..])
  }

  /** Over every run, the count is the initial value plus signals minus completed waits, and never negative. */
  lemma CountLaw(g: Config, z: Sem, actions: seq<SemAction>)
    requires ValidSem(g, z)
    ensures var y := SemRun(g, z, SemInitial(g, z), actions);
      y.count == z.initial + y.signals - y.waits && y.count >= 0 && y.waits <= z.initial + y.signals
  {
    assert SemInv(g, z, SemRun(g, z, SemInitial(g, z), actions));
  }
}
