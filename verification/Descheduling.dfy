/**
  deschedule and make_runnable (kern/syscalls/thread_syscalls.c) as clients of the mutex and the
  condition variable, over all interleavings.  Thread u has a condition variable own[u] of its
  own, on which only u waits, with status DESCHEDULED.
 */
module Descheduling {
  import opened Scheduler
  import opened Interference
  import S = Semaphore

  datatype Pc =
    | Outside
    | Enter                                        // deschedule: in mutex_lock, about to read *reject
    | Leave                                        // deschedule: in cond_wait, or about to unlock
    | WakeEnter(u: nat)                            // make_runnable(u): in mutex_lock, about to test the status
    | WakeLeave(u: nat, found: bool, woke: bool)   // make_runnable(u): in cond_signal, or about to unlock and return

  datatype System = System(s: State, pc: seq<Pc>)

  predicate ValidOwn(g: Config, own: seq<nat>) {
    && ValidConfig(g) && |own| == g.threads
    && (forall t :: 0 <= t < |own| ==> own[t] < |g.lock|)
    && (forall t, u :: 0 <= t < u < |own| ==> own[t] != own[u])
    && (forall t :: 0 <= t < |own| ==> S.ValidSem(g, Of(g, own, t)))
  }

  /** The mutex and condition variable of thread u. */
  function Of(g: Config, own: seq<nat>, u: nat): S.Sem
    requires u < |own| && own[u] < |g.guard|
  {
    S.Sem(g.guard[own[u]], own[u], 0)
  }

  /** Whose mutex thread t is using. */
  function Uses(pc: Pc, t: nat): int {
    match pc
    case Outside => -1
    case Enter => t
    case Leave => t
    case WakeEnter(u) => u
    case WakeLeave(u, _, _) => u
  }

  function Proj(pc: Pc, t: nat, u: nat): S.SemPc {
    if Uses(pc, t) == u then S.WaitEnter else S.Outside
  }

  /** Only a thread itself waits on its condition variable, and then with status DESCHEDULED. */
  predicate WaitOk(own: seq<nat>, at: At, t: nat)
    requires t < |own|
  {
    match at
    case Lock(_, WaitLink(c, st)) => (c == own[t] <==> st == Descheduled) && (c in own ==> c == own[t])
    case Queued(_, WaitLink(c, st)) => (c == own[t] <==> st == Descheduled) && (c in own ==> c == own[t])
    case Linking(c, st) => (c == own[t] <==> st == Descheduled) && (c in own ==> c == own[t])
    case Linked(c, st) => (c == own[t] <==> st == Descheduled) && (c in own ==> c == own[t])
    case Blocking(c, st) => (c == own[t] <==> st == Descheduled) && (c in own ==> c == own[t])
    case Parked(c) => c in own ==> c == own[t]
    case Sleeping(c) => c in own ==> c == own[t]
    case Chosen(c, _) => c in own ==> c == own[t]
    case Woken(c) => c in own ==> c == own[t]
    case Lock(_, WaitDone(c)) => c in own ==> c == own[t]
    case Queued(_, WaitDone(c)) => c in own ==> c == own[t]
    case _ => true
  }

  predicate StatusOk(own: seq<nat>, at: At, st: Status, t: nat)
    requires t < |own|
  {
    st == Descheduled <==> (at.Parked? || at.Sleeping?) && at.c == own[t]
  }

  /** cond_signal on c before it has looked at the queue. */
  predicate BeforeTake(at: At, c: nat) {
    match at
    case Lock(_, SignalTake(d, all)) => d == c && !all
    case Queued(_, SignalTake(d, all)) => d == c && !all
    case Taking(d, all) => d == c && !all
    case _ => false
  }

  predicate AfterTake(at: At, c: nat) {
    match at
    case Adding(d, _, all) => d == c && !all
    case Unlinking(d, _, all) => d == c && !all
    case Leaving(d) => d == c
    case Free => true
    case _ => false
  }

  predicate WakeOk(own: seq<nat>, s: State, pc: Pc, t: nat)
    requires t < |s.k.at| && |own| <= |s.status|
  {
    pc.WakeLeave? ==>
      && pc.u < |own|
      && (!pc.found ==> !pc.woke && s.k.at[t].Free?)
      && (pc.found ==> if pc.woke then AfterTake(s.k.at[t], own[pc.u])
                       else BeforeTake(s.k.at[t], own[pc.u]) && s.status[pc.u] == Descheduled)
  }

  predicate ThreadOk(g: Config, own: seq<nat>, s: State, pc: Pc, t: nat)
    requires ValidOwn(g, own) && TypedState(g, s) && t < g.threads
  {
    && WaitOk(own, s.k.at[t], t) && StatusOk(own, s.k.at[t], s.status[t], t) && WakeOk(own, s, pc, t)
    && (pc.WakeEnter? ==> pc.u < g.threads)
  }

  predicate UseOk(g: Config, own: seq<nat>, k: Links, pc: Pc, t: nat, u: nat)
    requires ValidOwn(g, own) && Typed(g, k) && t < g.threads && u < g.threads
  {
    S.ThreadOk(g, Of(g, own, u), k, Proj(pc, t, u), 0, t)
  }

  predicate DInv(g: Config, own: seq<nat>, y: System) {
    && ValidOwn(g, own) && Inv(g, y.s) && CurOk(g, y.s) && |y.pc| == g.threads
    && (forall t :: 0 <= t < g.threads ==> ThreadOk(g, own, y.s, y.pc[t], t))
    && (forall t, u :: 0 <= t < g.threads && 0 <= u < g.threads ==> UseOk(g, own, y.s.k, y.pc[t], t, u))
  }

  // ---------------------------------------------------------------- the steps

  datatype DAction =
    | Kernel(a: Action)
    | CallDeschedule
    | CallMakeRunnable(u: nat)
    | Advance(reject: bool)

  predicate Private(g: Config, own: seq<nat>, a: Action)
    requires ValidOwn(g, own)
  {
    || (a.BeginWait? && a.st == Descheduled)
    || exists u :: 0 <= u < |own| && S.Private(Of(g, own, u), a)
  }

  /** The kernel step that goes with the next step of the handler, Timer standing for none. */
  function CallOf(g: Config, own: seq<nat>, y: System, reject: bool): Action
    requires ValidOwn(g, own) && y.s.cur < g.threads && |y.pc| == g.threads && |y.s.status| == g.threads
  {
    match y.pc[y.s.cur]
    case Outside => Timer
    case Enter => if reject then Timer else BeginWait(own[y.s.cur], Descheduled)
    case Leave => Unlock(g.guard[own[y.s.cur]])
    case WakeEnter(u) =>
      if u < g.threads && y.s.status[u] == Descheduled then BeginSignal(own[u], false) else Timer
    case WakeLeave(u, _, _) => if u < g.threads then Unlock(g.guard[own[u]]) else Timer
  }

  predicate DEnabled(g: Config, own: seq<nat>, y: System, x: DAction)
    requires ValidOwn(g, own) && Inv(g, y.s) && |y.pc| == g.threads
  {
    var t := y.s.cur;
    match x
    case Kernel(a) =>
      Enabled(g, y.s, a) && !Private(g, own, a) && (y.pc[t] != Outside ==> S.Inside(a))
    case CallDeschedule => y.pc[t] == Outside && Enabled(g, y.s, BeginLock(g.guard[own[t]]))
    case CallMakeRunnable(u) => y.pc[t] == Outside && u < g.threads && Enabled(g, y.s, BeginLock(g.guard[own[u]]))
    case Advance(reject) =>
      y.pc[t] != Outside && y.s.k.at[t].Free? && Enabled(g, y.s, CallOf(g, own, y, reject))
  }

  /** When cond_signal looks at the queue, note whether it takes the descheduled thread. */
  function Note(g: Config, s: State, a: Action, pc: Pc): Pc
    requires TypedState(g, s)
  {
    if a.TakeWaiter? && pc.WakeLeave? && pc.u < g.threads then
      pc.(woke := Takes(g, s, a, pc.u) && s.status[pc.u] == Descheduled)
    else pc
  }

  function DStep(g: Config, own: seq<nat>, y: System, x: DAction): System
    requires ValidOwn(g, own) && Inv(g, y.s) && |y.pc| == g.threads && DEnabled(g, own, y, x)
  {
    var t := y.s.cur;
    match x
    case Kernel(a) => System(Step(g, y.s, a), y.pc[t := Note(g, y.s, a, y.pc[t])])
    case CallDeschedule => System(Step(g, y.s, BeginLock(g.guard[own[t]])), y.pc[t := Enter])
    case CallMakeRunnable(u) => System(Step(g, y.s, BeginLock(g.guard[own[u]])), y.pc[t := WakeEnter(u)])
    case Advance(reject) =>
      var call := CallOf(g, own, y, reject);
      match y.pc[t] {
        case Outside => y
        case Enter =>
          if reject then y.(pc := y.pc[t := Leave])
          else System(Step(g, y.s, call), y.pc[t := Leave])
        case Leave => System(Step(g, y.s, call), y.pc[t := Outside])
        case WakeEnter(u) =>
          if call.Timer? then y.(pc := y.pc[t := WakeLeave(u, false, false)])
          else System(Step(g, y.s, call), y.pc[t := WakeLeave(u, true, false)])
        case WakeLeave(u, _, _) =>
          if call.Timer? then y else System(Step(g, y.s, call), y.pc[t := Outside])
      }
  }

  // ---------------------------------------------------------------- who holds which mutex

  lemma UseSame(g: Config, own: seq<nat>, y: System, a: Action, t: nat, u: nat)
    requires DInv(g, own, y) && DEnabled(g, own, y, Kernel(a)) && t < g.threads && u < g.threads
    ensures Typed(g, Step(g, y.s, a).k) && UseOk(g, own, Step(g, y.s, a).k, y.pc[t], t, u)
  {
    StepInv(g, y.s, a);
    assert UseOk(g, own, y.s.k, y.pc[t], t, u);
    if t == y.s.cur {
      S.OwnOk(g, Of(g, own, u), y.s, a, Proj(y.pc[t], t, u), 0);
    } else if a == Start(t) {
      CurrentOk(g, y.s);
    } else {
      OthersDrift(g, y.s, a, t);
      S.DriftOk(g, Of(g, own, u), y.s.k, Step(g, y.s, a).k, Proj(y.pc[t], t, u), 0, t, Takes(g, y.s, a, t));
    }
  }

  /** The calls of the handlers on the mutex and condition variable of thread v. */
  predicate CallOn(g: Config, own: seq<nat>, a: Action, v: nat)
    requires ValidOwn(g, own) && v < g.threads
  {
    || a == BeginLock(g.guard[own[v]]) || a == BeginWait(own[v], Descheduled)
    || a == BeginSignal(own[v], false) || a == Unlock(g.guard[own[v]])
  }

  lemma OtherGuard(g: Config, own: seq<nat>, u: nat, v: nat)
    requires ValidOwn(g, own) && u < g.threads && v < g.threads && u != v
    ensures own[u] != own[v] && g.guard[own[u]] != g.guard[own[v]]
    ensures g.guard[own[u]] !in g.lock && g.lock[own[u]] in g.lock && g.lock[own[v]] in g.lock
  {
    assert S.ValidSem(g, Of(g, own, u)) && S.ValidSem(g, Of(g, own, v));
  }

  lemma UseOwnUnlock(g: Config, own: seq<nat>, y: System, pc: Pc, u: nat, v: nat)
    requires DInv(g, own, y) && u < g.threads && v < g.threads && Enabled(g, y.s, Unlock(g.guard[own[v]]))
    requires Uses(y.pc[y.s.cur], y.s.cur) == v && pc == Outside
    ensures var k' := Step(g, y.s, Unlock(g.guard[own[v]])).k;
      Typed(g, k') && UseOk(g, own, k', pc, y.s.cur, u)
  {
    CurrentOk(g, y.s);
    assert UseOk(g, own, y.s.k, y.pc[y.s.cur], y.s.cur, u);
    UnlockOwn(g, y.s, g.guard[own[v]], Free);
  }

  /** The call does not concern the mutex and condition variable of u. */
  lemma UseOwnApart(g: Config, own: seq<nat>, y: System, a: Action, pc: Pc, u: nat, v: nat)
    requires DInv(g, own, y) && Enabled(g, y.s, a) && u < g.threads && v < g.threads && CallOn(g, own, a, v)
    requires !a.Unlock?
    requires y.pc[y.s.cur] == Outside || Uses(y.pc[y.s.cur], y.s.cur) == v
    requires y.s.cur != IDLE && Uses(pc, y.s.cur) == v && u != v
    ensures Typed(g, Step(g, y.s, a).k) && UseOk(g, own, Step(g, y.s, a).k, pc, y.s.cur, u)
  {
    assert UseOk(g, own, y.s.k, y.pc[y.s.cur], y.s.cur, u);
    OtherGuard(g, own, u, v);
  }

  lemma UseOwnCall(g: Config, own: seq<nat>, y: System, a: Action, pc: Pc, u: nat, v: nat)
    requires DInv(g, own, y) && Enabled(g, y.s, a) && u < g.threads && v < g.threads && CallOn(g, own, a, v)
    requires !a.Unlock?
    requires y.pc[y.s.cur] == Outside || Uses(y.pc[y.s.cur], y.s.cur) == v
    requires y.s.cur != IDLE && Uses(pc, y.s.cur) == v
    ensures Typed(g, Step(g, y.s, a).k) && UseOk(g, own, Step(g, y.s, a).k, pc, y.s.cur, u)
  {
    if u != v {
      UseOwnApart(g, own, y, a, pc, u, v);
    } else {
      assert UseOk(g, own, y.s.k, y.pc[y.s.cur], y.s.cur, u);
      assert S.ValidSem(g, Of(g, own, v));
    }
  }

  lemma UseOtherCall(g: Config, own: seq<nat>, y: System, a: Action, t: nat, u: nat)
    requires DInv(g, own, y) && Enabled(g, y.s, a) && t < g.threads && u < g.threads && t != y.s.cur && !a.Start?
    ensures Typed(g, Step(g, y.s, a).k) && UseOk(g, own, Step(g, y.s, a).k, y.pc[t], t, u)
  {
    StepInv(g, y.s, a);
    assert UseOk(g, own, y.s.k, y.pc[t], t, u);
    OthersDrift(g, y.s, a, t);
    S.DriftOk(g, Of(g, own, u), y.s.k, Step(g, y.s, a).k, Proj(y.pc[t], t, u), 0, t, Takes(g, y.s, a, t));
  }

  // ---------------------------------------------------------------- the other threads

  /** While a thread holds the mutex of u, no other thread takes u. */
  lemma NotTakenMeanwhile(g: Config, own: seq<nat>, y: System, a: Action, t: nat, u: nat)
    requires DInv(g, own, y) && Enabled(g, y.s, a) && t < g.threads && u < g.threads && t != y.s.cur
    requires t in y.s.k.holders[g.guard[own[u]]] && y.s.status[u] == Descheduled
    ensures !Takes(g, y.s, a, u)
  {
    var k, x := y.s.k, y.s.cur;
    CurrentOk(g, y.s);
    assert ThreadOk(g, own, y.s, y.pc[u], u);
    assert MutexOk(g, k, g.guard[own[u]]);
    if Takes(g, y.s, a, u) {
      HeadIsBlocked(g, k, x);
    }
  }

  lemma HoldsWhileSignalling(g: Config, own: seq<nat>, y: System, t: nat)
    requires DInv(g, own, y) && t < g.threads && y.pc[t].WakeLeave?
    ensures y.pc[t].u < g.threads
    ensures BeforeTake(y.s.k.at[t], own[y.pc[t].u]) ==> t in y.s.k.holders[g.guard[own[y.pc[t].u]]]
  {
    assert ThreadOk(g, own, y.s, y.pc[t], t);
    assert Holding(g, y.s.k, t);
  }

  lemma OtherThread(g: Config, own: seq<nat>, y: System, a: Action, t: nat)
    requires DInv(g, own, y) && Enabled(g, y.s, a) && t < g.threads && t != y.s.cur && a != Start(t)
    ensures TypedState(g, Step(g, y.s, a)) && ThreadOk(g, own, Step(g, y.s, a), y.pc[t], t)
  {
    var s' := Step(g, y.s, a);
    StepInv(g, y.s, a);
    assert ThreadOk(g, own, y.s, y.pc[t], t);
    OthersDrift(g, y.s, a, t);
    OtherStatus(g, own, y, a, t);
    if y.pc[t].WakeLeave? && y.pc[t].found && !y.pc[t].woke {
      OtherWake(g, own, y, a, t);
    }
  }

  lemma OtherStatus(g: Config, own: seq<nat>, y: System, a: Action, t: nat)
    requires DInv(g, own, y) && Enabled(g, y.s, a) && t < g.threads && t != y.s.cur && a != Start(t)
    ensures TypedState(g, Step(g, y.s, a))
    ensures StatusOk(own, Step(g, y.s, a).k.at[t], Step(g, y.s, a).status[t], t)
  {
    StepInv(g, y.s, a);
    assert ThreadOk(g, own, y.s, y.pc[t], t);
    OthersDrift(g, y.s, a, t);
    StatusSteps(g, y.s, a, t);
    if Takes(g, y.s, a, t) {
      TakenEffect(g, y.s, a, t);
    }
  }

  lemma OtherWake(g: Config, own: seq<nat>, y: System, a: Action, t: nat)
    requires DInv(g, own, y) && Enabled(g, y.s, a) && t < g.threads && t != y.s.cur && a != Start(t)
    requires y.pc[t].WakeLeave? && y.pc[t].found && !y.pc[t].woke
    ensures TypedState(g, Step(g, y.s, a)) && y.pc[t].u < g.threads
    ensures Step(g, y.s, a).status[y.pc[t].u] == Descheduled
  {
    StepInv(g, y.s, a);
    assert ThreadOk(g, own, y.s, y.pc[t], t);
    var u := y.pc[t].u;
    assert ThreadOk(g, own, y.s, y.pc[u], u);
    HoldsWhileSignalling(g, own, y, t);
    NotTakenMeanwhile(g, own, y, a, t, u);
    StatusSteps(g, y.s, a, u);
  }

  // ---------------------------------------------------------------- the running thread

  /** Where the running thread's own step leaves it. */
  predicate OwnMoved(g: Config, s: State, a: Action, at: At)
    requires TypedState(g, s)
  {
    var was := s.k.at[s.cur];
    match a
    case Timer => at == was
    case BeginLock(m) => at == Lock(m, Client)
    case TryLock => was.Lock? && (at == Resume(was.next) || at == Queued(was.m, was.next))
    case Unlock(m) => at == Free
    case BeginWait(c, st) => at.Lock? && at.next == WaitLink(c, st)
    case AddWaiter => was.Linking? && at == Linked(was.c, was.st)
    case UnlockQueue => was.Linked? && at == Blocking(was.c, was.st)
    case Block => was.Blocking? && at == Parked(was.c)
    case SwitchAway =>
      || (was.Parked? && at == Sleeping(was.c))
      || (was.Woken? && at.Lock? && at.next == WaitDone(was.c))
    case BeginSignal(c, all) => at.Lock? && at.next == SignalTake(c, all)
    case TakeWaiter => was.Taking? && (at == Leaving(was.c) || (at.Adding? && at.c == was.c && at.all == was.all))
    case AddRunnable => was.Adding? && at == Unlinking(was.c, was.h, was.all)
    case UnlinkWaiter => was.Unlinking? && at == if was.all then Taking(was.c, true) else Leaving(was.c)
    case EndSignal => at == Free
    case Start(_) => at == was
    case Vanish => at == Gone
  }

  lemma OwnUnlockMove(g: Config, s: State, a: Action)
    requires Inv(g, s) && CurOk(g, s) && Enabled(g, s, a)
    requires a.Unlock? || a.UnlockQueue? || a.Block? || a.EndSignal?
    ensures |Step(g, s, a).k.at| == g.threads && OwnMoved(g, s, a, Step(g, s, a).k.at[s.cur])
  {
    CurrentOk(g, s);
    var at := s.k.at[s.cur];
    match a
    case Unlock(m) => UnlockOwn(g, s, m, Free);
    case UnlockQueue => UnlockOwn(g, s, g.lock[at.c], Blocking(at.c, at.st));
    case Block => UnlockOwn(g, s.(status := s.status[s.cur := at.st]), g.guard[at.c], Parked(at.c));
    case EndSignal => UnlockOwn(g, s, g.lock[at.c], Free);
  }

  lemma OwnMove(g: Config, s: State, a: Action)
    requires Inv(g, s) && CurOk(g, s) && Enabled(g, s, a)
    ensures |Step(g, s, a).k.at| == g.threads && OwnMoved(g, s, a, Step(g, s, a).k.at[s.cur])
  {
    if a.Unlock? || a.UnlockQueue? || a.Block? || a.EndSignal? {
      OwnUnlockMove(g, s, a);
    } else {
      CurrentOk(g, s);
    }
  }

  lemma OwnWaitOk(g: Config, own: seq<nat>, s: State, a: Action, at: At)
    requires ValidOwn(g, own) && TypedState(g, s) && OwnMoved(g, s, a, at) && WaitOk(own, s.k.at[s.cur], s.cur)
    requires a.BeginWait? ==> (a.st != Descheduled && a.c !in own) || a == BeginWait(own[s.cur], Descheduled)
    ensures WaitOk(own, at, s.cur)
  {
  }

  lemma OwnStatusOk(g: Config, own: seq<nat>, s: State, a: Action)
    requires ValidOwn(g, own) && Inv(g, s) && CurOk(g, s) && Enabled(g, s, a)
    requires WaitOk(own, s.k.at[s.cur], s.cur) && StatusOk(own, s.k.at[s.cur], s.status[s.cur], s.cur)
    ensures TypedState(g, Step(g, s, a))
    ensures StatusOk(own, Step(g, s, a).k.at[s.cur], Step(g, s, a).status[s.cur], s.cur)
  {
    StepInv(g, s, a);
    OwnMove(g, s, a);
    StatusSteps(g, s, a, s.cur);
    assert Place(g, s, s.cur);
  }

  lemma NotTwice(q: seq<nat>, u: nat)
    requires |q| > 1 && forall i :: 0 <= i < |q| ==> q[i] == u
    ensures !NoDup(q)
  {
    assert q[0] == q[1];
  }

  /** The signal of make_runnable finds exactly the descheduled thread in the queue. */
  lemma QueueIsThread(g: Config, own: seq<nat>, y: System, u: nat)
    requires DInv(g, own, y) && u < g.threads && y.s.status[u] == Descheduled
    ensures y.s.k.waiting[own[u]] == [u]
  {
    var q := y.s.k.waiting[own[u]];
    assert ThreadOk(g, own, y.s, y.pc[u], u);
    assert CondQueueOk(g, y.s.k, own[u]);
    assert u in q;
    forall i | 0 <= i < |q| ensures q[i] == u {
      assert q[i] in q;
      assert ThreadOk(g, own, y.s, y.pc[q[i]], q[i]);
      assert Holding(g, y.s.k, q[i]);
    }
    if |q| > 1 {
      NotTwice(q, u);
    }
  }

  /** Before the signal has looked at the queue. */
  lemma BeforeTakeOk(g: Config, own: seq<nat>, y: System, a: Action)
    requires DInv(g, own, y) && DEnabled(g, own, y, Kernel(a)) && y.pc[y.s.cur].WakeLeave?
    requires y.pc[y.s.cur].found && !y.pc[y.s.cur].woke
    requires y.pc[y.s.cur].u < g.threads && BeforeTake(y.s.k.at[y.s.cur], own[y.pc[y.s.cur].u])
    requires y.s.status[y.pc[y.s.cur].u] == Descheduled
    ensures TypedState(g, Step(g, y.s, a))
    ensures WakeOk(own, Step(g, y.s, a), Note(g, y.s, a, y.pc[y.s.cur]), y.s.cur)
  {
    var u := y.pc[y.s.cur].u;
    StepInv(g, y.s, a);
    OwnMove(g, y.s, a);
    assert ThreadOk(g, own, y.s, y.pc[u], u);
    QueueIsThread(g, own, y, u);
    StatusSteps(g, y.s, a, u);
  }

  lemma OwnWakeOk(g: Config, own: seq<nat>, y: System, a: Action)
    requires DInv(g, own, y) && DEnabled(g, own, y, Kernel(a))
    ensures TypedState(g, Step(g, y.s, a))
    ensures WakeOk(own, Step(g, y.s, a), Note(g, y.s, a, y.pc[y.s.cur]), y.s.cur)
  {
    var t, pc := y.s.cur, y.pc[y.s.cur];
    StepInv(g, y.s, a);
    assert ThreadOk(g, own, y.s, pc, t);
    if pc.WakeLeave? && pc.found && !pc.woke {
      BeforeTakeOk(g, own, y, a);
    } else if pc.WakeLeave? {
      OwnMove(g, y.s, a);
    }
  }

  lemma KernelThread(g: Config, own: seq<nat>, y: System, a: Action, t: nat)
    requires DInv(g, own, y) && DEnabled(g, own, y, Kernel(a)) && t < g.threads
    ensures TypedState(g, Step(g, y.s, a))
    ensures ThreadOk(g, own, Step(g, y.s, a), if t == y.s.cur then Note(g, y.s, a, y.pc[t]) else y.pc[t], t)
  {
    StepInv(g, y.s, a);
    assert ThreadOk(g, own, y.s, y.pc[t], t);
    if t == y.s.cur {
      OwnMove(g, y.s, a);
      NotPrivateWait(g, own, a);
      OwnWaitOk(g, own, y.s, a, Step(g, y.s, a).k.at[t]);
      OwnStatusOk(g, own, y.s, a);
      OwnWakeOk(g, own, y, a);
    } else if a == Start(t) {
      StartThread(g, own, y, t);
    } else {
      OtherThread(g, own, y, a, t);
    }
  }

  lemma KernelOk(g: Config, own: seq<nat>, y: System, a: Action)
    requires DInv(g, own, y) && DEnabled(g, own, y, Kernel(a))
    ensures DInv(g, own, DStep(g, own, y, Kernel(a)))
  {
    var y' := DStep(g, own, y, Kernel(a));
    StepInv(g, y.s, a);
    forall t, u | 0 <= t < g.threads && 0 <= u < g.threads ensures UseOk(g, own, y'.s.k, y'.pc[t], t, u) {
      UseSame(g, own, y, a, t, u);
    }
    forall t | 0 <= t < g.threads ensures ThreadOk(g, own, y'.s, y'.pc[t], t) {
      KernelThread(g, own, y, a, t);
    }
  }

  lemma NotPrivateWait(g: Config, own: seq<nat>, a: Action)
    requires ValidOwn(g, own) && !Private(g, own, a)
    ensures a.BeginWait? ==> a.st != Descheduled && a.c !in own
  {
    if a.BeginWait? && a.c in own {
      var u :| 0 <= u < |own| && own[u] == a.c;
      assert S.Private(Of(g, own, u), a);
    }
  }

  lemma StartThread(g: Config, own: seq<nat>, y: System, t: nat)
    requires DInv(g, own, y) && t < g.threads && t != y.s.cur && Enabled(g, y.s, Start(t))
    ensures TypedState(g, Step(g, y.s, Start(t)))
    ensures ThreadOk(g, own, Step(g, y.s, Start(t)), y.pc[t], t)
  {
    StepInv(g, y.s, Start(t));
    assert ThreadOk(g, own, y.s, y.pc[t], t);
  }

  /** A call of a handler keeps the invariant. */
  lemma CallOk(g: Config, own: seq<nat>, y: System, a: Action, pc: Pc, v: nat)
    requires DInv(g, own, y) && v < g.threads && CallOn(g, own, a, v) && Enabled(g, y.s, a) && y.s.cur != IDLE
    requires y.pc[y.s.cur] == Outside || Uses(y.pc[y.s.cur], y.s.cur) == v
    requires a.Unlock? ==> pc == Outside && Uses(y.pc[y.s.cur], y.s.cur) == v
    requires a.BeginLock? ==> (pc == Enter && v == y.s.cur) || pc == WakeEnter(v)
    requires a.BeginWait? ==> pc == Leave && v == y.s.cur
    requires a.BeginSignal? ==> pc == WakeLeave(v, true, false) && y.s.status[v] == Descheduled
    ensures DInv(g, own, System(Step(g, y.s, a), y.pc[y.s.cur := pc]))
  {
    var y' := System(Step(g, y.s, a), y.pc[y.s.cur := pc]);
    StepInv(g, y.s, a);
    forall t, u | 0 <= t < g.threads && 0 <= u < g.threads ensures UseOk(g, own, y'.s.k, y'.pc[t], t, u) {
      if t != y.s.cur {
        UseOtherCall(g, own, y, a, t, u);
      } else if a.Unlock? {
        UseOwnUnlock(g, own, y, pc, u, v);
      } else {
        UseOwnCall(g, own, y, a, pc, u, v);
      }
    }
    forall t | 0 <= t < g.threads ensures ThreadOk(g, own, y'.s, y'.pc[t], t) {
      if t == y.s.cur {
        CallThread(g, own, y, a, pc, v);
      } else {
        OtherThread(g, own, y, a, t);
      }
    }
  }

  lemma CallThread(g: Config, own: seq<nat>, y: System, a: Action, pc: Pc, v: nat)
    requires DInv(g, own, y) && v < g.threads && CallOn(g, own, a, v) && Enabled(g, y.s, a)
    requires a.Unlock? ==> pc == Outside
    requires a.BeginLock? ==> pc == Enter || pc == WakeEnter(v)
    requires a.BeginWait? ==> pc == Leave && v == y.s.cur
    requires a.BeginSignal? ==> pc == WakeLeave(v, true, false) && y.s.status[v] == Descheduled
    ensures TypedState(g, Step(g, y.s, a)) && ThreadOk(g, own, Step(g, y.s, a), pc, y.s.cur)
  {
    StepInv(g, y.s, a);
    assert ThreadOk(g, own, y.s, y.pc[y.s.cur], y.s.cur);
    OwnMove(g, y.s, a);
    OwnWaitOk(g, own, y.s, a, Step(g, y.s, a).k.at[y.s.cur]);
    OwnStatusOk(g, own, y.s, a);
  }

  lemma LocalOk(g: Config, own: seq<nat>, y: System, pc: Pc)
    requires DInv(g, own, y) && y.s.k.at[y.s.cur].Free? && y.pc[y.s.cur] != Outside
    requires Uses(pc, y.s.cur) == Uses(y.pc[y.s.cur], y.s.cur)
    requires pc == Leave || (pc.WakeLeave? && !pc.found && !pc.woke && pc.u < g.threads)
    ensures DInv(g, own, y.(pc := y.pc[y.s.cur := pc]))
  {
    var y' := y.(pc := y.pc[y.s.cur := pc]);
    forall t, u | 0 <= t < g.threads && 0 <= u < g.threads ensures UseOk(g, own, y'.s.k, y'.pc[t], t, u) {
      assert UseOk(g, own, y.s.k, y.pc[t], t, u);
    }
    forall t | 0 <= t < g.threads ensures ThreadOk(g, own, y'.s, y'.pc[t], t) {
      assert ThreadOk(g, own, y.s, y.pc[t], t);
    }
  }

  lemma DStepOk(g: Config, own: seq<nat>, y: System, x: DAction)
    requires DInv(g, own, y) && DEnabled(g, own, y, x)
    ensures DInv(g, own, DStep(g, own, y, x))
  {
    var t := y.s.cur;
    assert ThreadOk(g, own, y.s, y.pc[t], t);
    match x
    case Kernel(a) => KernelOk(g, own, y, a);
    case CallDeschedule => CallOk(g, own, y, BeginLock(g.guard[own[t]]), Enter, t);
    case CallMakeRunnable(u) => CallOk(g, own, y, BeginLock(g.guard[own[u]]), WakeEnter(u), u);
    case Advance(reject) =>
      UserNotIdle(g, own, y);
      var call := CallOf(g, own, y, reject);
      match y.pc[t] {
        case Enter =>
          if reject {
            LocalOk(g, own, y, Leave);
          } else {
            CallOk(g, own, y, call, Leave, t);
          }
        case Leave => CallOk(g, own, y, call, Outside, t);
        case WakeEnter(u) =>
          if call.Timer? {
            LocalOk(g, own, y, WakeLeave(u, false, false));
          } else {
            CallOk(g, own, y, call, WakeLeave(u, true, false), u);
          }
        case WakeLeave(u, _, _) => CallOk(g, own, y, call, Outside, u);
      }
  }

  lemma UserNotIdle(g: Config, own: seq<nat>, y: System)
    requires DInv(g, own, y) && y.pc[y.s.cur] != Outside
    ensures y.s.cur != IDLE && 0 <= Uses(y.pc[y.s.cur], y.s.cur) < g.threads
    ensures y.s.k.at[y.s.cur].Free? ==> y.s.cur in y.s.k.holders[g.guard[own[Uses(y.pc[y.s.cur], y.s.cur)]]]
  {
    var t := y.s.cur;
    assert ThreadOk(g, own, y.s, y.pc[t], t);
    assert UseOk(g, own, y.s.k, y.pc[t], t, Uses(y.pc[t], t));
  }

  // ---------------------------------------------------------------- every run

  function DInitial(g: Config, own: seq<nat>): (y: System)
    requires ValidOwn(g, own)
    ensures DInv(g, own, y)
  {
    InitialInv(g);
    var y := System(Initial(g), seq(g.threads, _ => Outside));
    assert forall t, u :: 0 <= t < g.threads && 0 <= u < g.threads ==> UseOk(g, own, y.s.k, y.pc[t], t, u);
    y
  }

  /** Any interleaving of the threads, the actions that are not enabled left out. */
  function DRun(g: Config, own: seq<nat>, y: System, actions: seq<DAction>): (r: System)
    requires DInv(g, own, y)
    ensures DInv(g, own, r)
    decreases |actions|
  {
    if actions == [] then y
    else if DEnabled(g, own, y, actions[0]) then
      DStepOk(g, own, y, actions[0]);
      DRun(g, own, DStep(g, own, y, actions[0]), actions[1..])
    else DRun(g, own, y, actions[1..])
  }

  /** The handlers never break the rule for callers. */
  lemma NeverStuck(g: Config, own: seq<nat>, y: System, reject: bool)
    requires DInv(g, own, y) && y.pc[y.s.cur] != Outside && y.s.k.at[y.s.cur].Free?
    ensures DEnabled(g, own, y, Advance(reject))
  {
    UserNotIdle(g, own, y);
    assert ThreadOk(g, own, y.s, y.pc[y.s.cur], y.s.cur);
    assert S.ValidSem(g, Of(g, own, Uses(y.pc[y.s.cur], y.s.cur)));
  }

  /**
    Over every run, make_runnable(u) succeeds exactly when it found u descheduled, and then its
    own signal, and no other, has taken u from the queue.
   */
  lemma SucceedsExactlyOnDescheduled(g: Config, own: seq<nat>, actions: seq<DAction>, t: nat)
    requires ValidOwn(g, own) && t < g.threads
    ensures var y := DRun(g, own, DInitial(g, own), actions);
      y.pc[t].WakeLeave? && y.s.k.at[t].Free? ==> y.pc[t].woke == y.pc[t].found
  {
    var y := DRun(g, own, DInitial(g, own), actions);
    assert ThreadOk(g, own, y.s, y.pc[t], t);
  }

  /** Over every run, a descheduled thread is alone in its own queue, off the run queue and not running. */
  lemma DescheduledIsWaiting(g: Config, own: seq<nat>, actions: seq<DAction>, u: nat)
    requires ValidOwn(g, own) && u < g.threads
    ensures var y := DRun(g, own, DInitial(g, own), actions);
      y.s.status[u] == Descheduled ==> y.s.k.waiting[own[u]] == [u] && u !in y.s.runq && !HasProcessor(y.s, u)
  {
    var y := DRun(g, own, DInitial(g, own), actions);
    if y.s.status[u] == Descheduled {
      QueueIsThread(g, own, y, u);
      assert ThreadOk(g, own, y.s, y.pc[u], u);
      assert Place(g, y.s, u);
    }
  }
}
