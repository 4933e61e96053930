/**
  Whole calls of deschedule and make_runnable (kern/syscalls/thread_syscalls.c:66-104), over all
  interleavings: what a call does follows from the step in which it makes its test.
 */
module DescheduleCalls {
  import opened Scheduler
  import opened Interference
  import opened Descheduling
  import S = Semaphore
  import W = SemaphoreWakeup

  // ---------------------------------------------------------------- runs, step by step

  ghost predicate Leads(g: Config, own: seq<nat>, y: System, x: DAction, y': System) {
    DInv(g, own, y) && y' == if DEnabled(g, own, y, x) then DStep(g, own, y, x) else y
  }

  /** The states of a run: one before every action, and one at the end. */
  ghost predicate States(g: Config, own: seq<nat>, actions: seq<DAction>, tr: seq<System>) {
    && |tr| == |actions| + 1 && (forall i {:trigger DInv(g, own, tr[i])} :: 0 <= i < |tr| ==> DInv(g, own, tr[i]))
    && (forall i :: 0 <= i < |tr| ==> |tr[i].pc| == g.threads && TypedState(g, tr[i].s))
    && forall i {:trigger actions[i]} :: 0 <= i < |actions| ==> Leads(g, own, tr[i], actions[i], tr[i + 1])
  }

  /** The run starts at boot. */
  ghost predicate IsTrace(g: Config, own: seq<nat>, actions: seq<DAction>, tr: seq<System>) {
    ValidOwn(g, own) && States(g, own, actions, tr) && tr[0] == DInitial(g, own)
  }

  /** Every run has its states. */
  lemma TraceOf(g: Config, own: seq<nat>, actions: seq<DAction>) returns (tr: seq<System>)
    requires ValidOwn(g, own)
    ensures IsTrace(g, own, actions, tr) && tr[|actions|] == DRun(g, own, DInitial(g, own), actions)
  {
    tr := TraceFrom(g, own, DInitial(g, own), actions);
  }

  lemma {:induction false} TraceFrom(g: Config, own: seq<nat>, y: System, actions: seq<DAction>)
    returns (tr: seq<System>)
    requires DInv(g, own, y)
    ensures States(g, own, actions, tr) && tr[0] == y && tr[|actions|] == DRun(g, own, y, actions)
    decreases |actions|
  {
    if actions == [] {
      tr := [y];
    } else {
      var y' := Next(g, own, y, actions[0]);
      tr := TraceFrom(g, own, y', actions[1..]);
      StatesMore(g, own, y, actions, tr);
      tr := [y] + tr;
    }
  }

  function Next(g: Config, own: seq<nat>, y: System, x: DAction): (y': System)
    requires DInv(g, own, y)
    ensures DInv(g, own, y')
  {
    if DEnabled(g, own, y, x) then
      DStepOk(g, own, y, x);
      DStep(g, own, y, x)
    else y
  }

  lemma StatesMore(g: Config, own: seq<nat>, y: System, actions: seq<DAction>, tr: seq<System>)
    requires actions != [] && States(g, own, actions[1..], tr) && Leads(g, own, y, actions[0], tr[0])
    ensures States(g, own, actions, [y] + tr)
  {
    var tr' := [y] + tr;
    forall i | 0 <= i < |actions|
      ensures Leads(g, own, tr'[i], actions[i], tr'[i + 1])
    {
      if i > 0 {
        assert actions[1..][i - 1] == actions[i];
      }
    }
  }

  /** Thread t takes a step of its own in action x. */
  predicate Acts(g: Config, own: seq<nat>, y: System, x: DAction, t: nat)
    requires DInv(g, own, y)
  {
    y.s.cur == t && DEnabled(g, own, y, x)
  }

  // ---------------------------------------------------------------- make_runnable

  /** Thread t, in make_runnable(u), looks at the status of u, and it is DESCHEDULED or not. */
  predicate TestsStatus(g: Config, own: seq<nat>, y: System, x: DAction, t: nat, u: nat, descheduled: bool)
    requires DInv(g, own, y) && t < g.threads && u < g.threads
  {
    Acts(g, own, y, x, t) && x.Advance? && y.pc[t] == WakeEnter(u) && (y.s.status[u] == Descheduled <==> descheduled)
  }

  /** The signal of t takes the descheduled thread u from its queue. */
  predicate WakesUp(g: Config, own: seq<nat>, y: System, x: DAction, t: nat, u: nat)
    requires DInv(g, own, y) && t < g.threads && u < g.threads
  {
    && Acts(g, own, y, x, t) && x == Kernel(TakeWaiter) && y.pc[t].WakeLeave? && y.pc[t].u == u
    && Takes(g, y.s, TakeWaiter, u) && y.s.status[u] == Descheduled
  }

  /** It has made its test, with this result, and has woken u or not, in the actions before i. */
  ghost predicate Tested(g: Config, own: seq<nat>, actions: seq<DAction>, tr: seq<System>, k: nat, t: nat, u: nat,
                         descheduled: bool)
    requires IsTrace(g, own, actions, tr) && t < g.threads && u < g.threads && k < |actions|
  {
    TestsStatus(g, own, tr[k], actions[k], t, u, descheduled)
  }

  ghost predicate WokenAt(g: Config, own: seq<nat>, actions: seq<DAction>, tr: seq<System>, l: nat, t: nat, u: nat)
    requires IsTrace(g, own, actions, tr) && t < g.threads && u < g.threads && l < |actions|
  {
    WakesUp(g, own, tr[l], actions[l], t, u)
  }

  /** How a thread comes to be past the test of make_runnable, or to have woken the other one. */
  lemma WakeStep(g: Config, own: seq<nat>, y: System, x: DAction, t: nat)
    requires DInv(g, own, y) && DEnabled(g, own, y, x) && t < g.threads && DStep(g, own, y, x).pc[t].WakeLeave?
    ensures var pc' := DStep(g, own, y, x).pc[t];
      && pc'.u < g.threads
      && (TestsStatus(g, own, y, x, t, pc'.u, pc'.found)
          || (y.pc[t].WakeLeave? && y.pc[t].u == pc'.u && y.pc[t].found == pc'.found))
      && (pc'.woke ==> WakesUp(g, own, y, x, t, pc'.u) || (y.pc[t].WakeLeave? && y.pc[t].woke))
      && (TestsStatus(g, own, y, x, t, pc'.u, pc'.found) ==> !pc'.woke)
  {
    DStepOk(g, own, y, x);
    assert ThreadOk(g, own, DStep(g, own, y, x).s, DStep(g, own, y, x).pc[t], t);
  }

  /**
    Before action i, thread t has made the test for u with this result, and has woken u since then if `woke`
    says so.
   */
  ghost predicate Past(g: Config, own: seq<nat>, actions: seq<DAction>, tr: seq<System>, i: nat, t: nat, u: nat,
                       found: bool, woke: bool)
    requires IsTrace(g, own, actions, tr) && t < g.threads && u < g.threads && i <= |actions|
  {
    exists k :: 0 <= k < i && Tested(g, own, actions, tr, k, t, u, found) &&
      (woke ==> exists l :: k < l < i && WokenAt(g, own, actions, tr, l, t, u))
  }

  lemma PastOn(g: Config, own: seq<nat>, actions: seq<DAction>, tr: seq<System>, i: nat, t: nat, u: nat, found: bool,
               woke: bool)
    requires IsTrace(g, own, actions, tr) && t < g.threads && u < g.threads && i < |actions|
    requires Past(g, own, actions, tr, i, t, u, found, woke)
    ensures Past(g, own, actions, tr, i + 1, t, u, found, woke)
    ensures WokenAt(g, own, actions, tr, i, t, u) ==> Past(g, own, actions, tr, i + 1, t, u, found, true)
  {
    var k :| 0 <= k < i && Tested(g, own, actions, tr, k, t, u, found) &&
      (woke ==> exists l :: k < l < i && WokenAt(g, own, actions, tr, l, t, u));
  }

  /** The test and the wake-up that the state of thread t speaks of have happened. */
  ghost predicate WakePast(g: Config, own: seq<nat>, actions: seq<DAction>, tr: seq<System>, i: nat, t: nat)
    requires IsTrace(g, own, actions, tr) && t < g.threads && i <= |actions|
  {
    var pc := tr[i].pc[t];
    !pc.WakeLeave? || (pc.u < g.threads && Past(g, own, actions, tr, i, t, pc.u, pc.found, pc.woke))
  }

  lemma PastStep(g: Config, own: seq<nat>, actions: seq<DAction>, tr: seq<System>, i: nat, t: nat)
    requires IsTrace(g, own, actions, tr) && t < g.threads && i < |actions|
    requires WakePast(g, own, actions, tr, i, t) && DEnabled(g, own, tr[i], actions[i])
    ensures WakePast(g, own, actions, tr, i + 1, t)
  {
    var y, x := tr[i], actions[i];
    var pc, pc' := y.pc[t], tr[i + 1].pc[t];
    if pc'.WakeLeave? {
      WakeStep(g, own, y, x, t);
      if TestsStatus(g, own, y, x, t, pc'.u, pc'.found) {
        assert Tested(g, own, actions, tr, i, t, pc'.u, pc'.found);
      } else {
        PastOn(g, own, actions, tr, i, t, pc'.u, pc'.found, pc.woke);
        if pc'.woke && !pc.woke {
          assert WokenAt(g, own, actions, tr, i, t, pc'.u);
        } else if !pc'.woke {
          PastLess(g, own, actions, tr, i + 1, t, pc'.u, pc'.found, pc.woke);
        }
      }
    }
  }

  lemma PastNext(g: Config, own: seq<nat>, actions: seq<DAction>, tr: seq<System>, i: nat, t: nat)
    requires IsTrace(g, own, actions, tr) && t < g.threads && i < |actions| && WakePast(g, own, actions, tr, i, t)
    ensures WakePast(g, own, actions, tr, i + 1, t)
  {
    if DEnabled(g, own, tr[i], actions[i]) {
      PastStep(g, own, actions, tr, i, t);
    } else {
      var pc := tr[i].pc[t];
      assert tr[i + 1] == tr[i];
      if pc.WakeLeave? {
        PastOn(g, own, actions, tr, i, t, pc.u, pc.found, pc.woke);
      }
    }
  }

  lemma PastStart(g: Config, own: seq<nat>, actions: seq<DAction>, tr: seq<System>, t: nat)
    requires IsTrace(g, own, actions, tr) && t < g.threads
    ensures WakePast(g, own, actions, tr, 0, t)
  {
    assert tr[0] == DInitial(g, own);
  }

  lemma PastLess(g: Config, own: seq<nat>, actions: seq<DAction>, tr: seq<System>, i: nat, t: nat, u: nat,
                 found: bool, woke: bool)
    requires IsTrace(g, own, actions, tr) && t < g.threads && u < g.threads && i <= |actions|
    requires Past(g, own, actions, tr, i, t, u, found, woke)
    ensures Past(g, own, actions, tr, i, t, u, found, false)
  {
  }

  lemma {:induction false} WakeHistory(g: Config, own: seq<nat>, actions: seq<DAction>, tr: seq<System>, i: nat, t: nat)
    requires IsTrace(g, own, actions, tr) && t < g.threads && i <= |actions|
    ensures WakePast(g, own, actions, tr, i, t)
    decreases i
  {
    if i == 0 {
      PastStart(g, own, actions, tr, t);
    } else {
      WakeHistory(g, own, actions, tr, i - 1, t);
      PastNext(g, own, actions, tr, i - 1, t);
    }
  }

  /**
    Over every run: a make_runnable(u) that is about to return has looked at the status of u, reports success if and
    only if u was descheduled then, and if so its own signal has taken u from its queue since.
   */
  lemma MakeRunnableExact(g: Config, own: seq<nat>, actions: seq<DAction>, tr: seq<System>, i: nat, t: nat)
    requires IsTrace(g, own, actions, tr) && t < g.threads && i <= |actions|
    requires tr[i].pc[t].WakeLeave? && tr[i].s.k.at[t].Free?
    ensures var pc := tr[i].pc[t];
      pc.u < g.threads && Past(g, own, actions, tr, i, t, pc.u, pc.found, pc.found)
  {
    WakeHistory(g, own, actions, tr, i, t);
    var y := tr[i];
    assert DInv(g, own, tr[i]);
    assert ThreadOk(g, own, y.s, y.pc[t], t);
  }

  /** Who is woken so is RUNNABLE afterwards, and on no queue but in the hand of the signaller. */
  lemma WokenIsRunnable(g: Config, own: seq<nat>, actions: seq<DAction>, tr: seq<System>, l: nat, t: nat, u: nat)
    requires IsTrace(g, own, actions, tr) && t < g.threads && u < g.threads && l < |actions|
    requires WokenAt(g, own, actions, tr, l, t, u)
    ensures tr[l].s.status[u] == Descheduled
    ensures tr[l + 1].s.status[u] == Runnable && tr[l + 1].s.k.at[u].Chosen?
  {
    var y := tr[l];
    TakenEffect(g, y.s, TakeWaiter, u);
    assert tr[l + 1] == DStep(g, own, y, actions[l]);
  }

  // ---------------------------------------------------------------- deschedule

  /** Before its test a call is in mutex_lock. */
  predicate EnterOk(pc: Pc, at: At) {
    pc.Enter? || pc.WakeEnter? ==> at.Free? || (at.Lock? && at.next.Client?) || (at.Queued? && at.next.Client?)
  }

  lemma EnterStep(g: Config, own: seq<nat>, y: System, x: DAction, t: nat)
    requires DInv(g, own, y) && DEnabled(g, own, y, x) && t < g.threads && EnterOk(y.pc[t], y.s.k.at[t])
    ensures |DStep(g, own, y, x).s.k.at| == g.threads
    ensures EnterOk(DStep(g, own, y, x).pc[t], DStep(g, own, y, x).s.k.at[t])
  {
    DStepOk(g, own, y, x);
    var call := ActionOf(g, own, y, x);
    StepIs(g, own, y, x);
    if t != y.s.cur {
      EnterOther(g, own, y, call, t);
    } else {
      EnterOwn(g, own, y, x);
    }
  }

  lemma StepIs(g: Config, own: seq<nat>, y: System, x: DAction)
    requires DInv(g, own, y) && DEnabled(g, own, y, x)
    ensures Enabled(g, y.s, ActionOf(g, own, y, x))
    ensures DStep(g, own, y, x).s == y.s || DStep(g, own, y, x).s == Step(g, y.s, ActionOf(g, own, y, x))
    ensures |DStep(g, own, y, x).pc| == g.threads
    ensures forall t :: 0 <= t < g.threads && t != y.s.cur ==> DStep(g, own, y, x).pc[t] == y.pc[t]
  {
  }

  lemma EnterOther(g: Config, own: seq<nat>, y: System, a: Action, t: nat)
    requires DInv(g, own, y) && Enabled(g, y.s, a) && t < g.threads && t != y.s.cur && EnterOk(y.pc[t], y.s.k.at[t])
    ensures |Step(g, y.s, a).k.at| == g.threads && EnterOk(y.pc[t], Step(g, y.s, a).k.at[t])
  {
    StepInv(g, y.s, a);
    if a == Start(t) {
      CurrentOk(g, y.s);
    } else {
      OthersDrift(g, y.s, a, t);
    }
  }

  lemma EnterOwn(g: Config, own: seq<nat>, y: System, x: DAction)
    requires DInv(g, own, y) && DEnabled(g, own, y, x) && EnterOk(y.pc[y.s.cur], y.s.k.at[y.s.cur])
    ensures |DStep(g, own, y, x).s.k.at| == g.threads
    ensures EnterOk(DStep(g, own, y, x).pc[y.s.cur], DStep(g, own, y, x).s.k.at[y.s.cur])
  {
    StepIs(g, own, y, x);
    OwnMove(g, y.s, ActionOf(g, own, y, x));
  }

  /** The kernel step in an action, if there is one. */
  function ActionOf(g: Config, own: seq<nat>, y: System, x: DAction): Action
    requires DInv(g, own, y) && DEnabled(g, own, y, x)
  {
    match x
    case Kernel(a) => a
    case CallDeschedule => BeginLock(g.guard[own[y.s.cur]])
    case CallMakeRunnable(u) => BeginLock(g.guard[own[u]])
    case Advance(reject) => CallOf(g, own, y, reject)
  }

  /** Thread t, in deschedule, reads *reject, and it is nonzero or not. */
  predicate TestsReject(g: Config, own: seq<nat>, y: System, x: DAction, t: nat, reject: bool)
    requires DInv(g, own, y) && t < g.threads
  {
    Acts(g, own, y, x, t) && x == Advance(reject) && y.pc[t] == Enter
  }

  /** A make_runnable takes thread t from its queue. */
  predicate Frees(g: Config, own: seq<nat>, y: System, x: DAction, t: nat)
    requires DInv(g, own, y) && t < g.threads
  {
    WakesUp(g, own, y, x, y.s.cur, t)
  }

  ghost predicate AllEnterOk(g: Config, y: System) {
    |y.pc| == |y.s.k.at| == g.threads && forall t :: 0 <= t < g.threads ==> EnterOk(y.pc[t], y.s.k.at[t])
  }

  /** Only a make_runnable of t takes t from its queue. */
  lemma TakerIsWaker(g: Config, own: seq<nat>, y: System, t: nat)
    requires DInv(g, own, y) && AllEnterOk(g, y) && t < g.threads && y.s.k.at[y.s.cur].Taking?
    requires Takes(g, y.s, TakeWaiter, t) && W.Bound(Of(g, own, t), y.s.k.at[t])
    ensures y.pc[y.s.cur].WakeLeave? && y.pc[y.s.cur].u == t && y.s.status[t] == Descheduled
  {
    var v := y.s.cur;
    CurrentOk(g, y.s);
    HeadIsBlocked(g, y.s.k, v);
    assert ThreadOk(g, own, y.s, y.pc[t], t);
    assert UseOk(g, own, y.s.k, y.pc[v], v, t);
    assert EnterOk(y.pc[v], y.s.k.at[v]);
  }

  lemma BoundDrift(g: Config, z: S.Sem, was: At, now: At, taken: bool)
    requires Drifted(g, was, now, taken)
    ensures W.Bound(z, was) && !taken ==> W.Bound(z, now)
    ensures was.Free? ==> now == was
  {
  }

  lemma BoundAdvance(g: Config, z: S.Sem, was: At, now: At)
    requires W.Advanced(g, was, now)
    ensures W.Bound(z, was) ==> W.Bound(z, now)
    ensures was.Free? ==> now == was
  {
  }

  /** Another thread's step: a sleeper stays one unless a make_runnable takes it. */
  lemma SleepOther(g: Config, own: seq<nat>, y: System, x: DAction, t: nat)
    requires DInv(g, own, y) && AllEnterOk(g, y) && DEnabled(g, own, y, x) && t < g.threads && t != y.s.cur
    requires y.pc[t] == Leave
    ensures var z, now := Of(g, own, t), DStep(g, own, y, x).s.k;
      && |now.at| == g.threads && (y.s.k.at[t].Free? ==> now.at[t].Free?)
      && (W.Bound(z, y.s.k.at[t]) ==> W.Bound(z, now.at[t]) || Frees(g, own, y, x, t))
  {
    var z, a := Of(g, own, t), ActionOf(g, own, y, x);
    DStepOk(g, own, y, x);
    StepIs(g, own, y, x);
    CurrentOk(g, y.s);
    if a == Start(t) {
      assert UseOk(g, own, y.s.k, y.pc[t], t, t);
    } else if DStep(g, own, y, x).s != y.s {
      OthersDrift(g, y.s, a, t);
      BoundDrift(g, z, y.s.k.at[t], DStep(g, own, y, x).s.k.at[t], Takes(g, y.s, a, t));
      if Takes(g, y.s, a, t) && W.Bound(z, y.s.k.at[t]) {
        TakerIsWaker(g, own, y, t);
      }
    }
  }

  lemma SleepOwn(g: Config, own: seq<nat>, y: System, x: DAction)
    requires DInv(g, own, y) && DEnabled(g, own, y, x) && y.pc[y.s.cur] == Leave && x.Kernel?
    ensures var t, now := y.s.cur, DStep(g, own, y, x).s.k;
      && |now.at| == g.threads && (y.s.k.at[t].Free? ==> now.at[t].Free?)
      && (W.Bound(Of(g, own, t), y.s.k.at[t]) ==> W.Bound(Of(g, own, t), now.at[t]))
  {
    W.OwnAdvance(g, y.s, x.a);
    BoundAdvance(g, Of(g, own, y.s.cur), y.s.k.at[y.s.cur], Step(g, y.s, x.a).k.at[y.s.cur]);
  }

  /** The test decides: the call is left at once if *reject is nonzero, and otherwise goes to sleep. */
  lemma RejectDecides(g: Config, own: seq<nat>, y: System, x: DAction, t: nat, reject: bool)
    requires DInv(g, own, y) && t < g.threads && TestsReject(g, own, y, x, t, reject)
    ensures var y' := DStep(g, own, y, x);
      && |y'.pc| == g.threads == |y'.s.k.at| && y'.pc[t] == Leave
      && if reject then y'.s == y.s && y'.s.k.at[t].Free?
         else y'.s.k.at[t] == Lock(g.lock[own[t]], WaitLink(own[t], Descheduled))
  {
  }

  lemma {:induction false} EnterHistory(g: Config, own: seq<nat>, actions: seq<DAction>, tr: seq<System>, i: nat)
    requires IsTrace(g, own, actions, tr) && i <= |actions|
    ensures AllEnterOk(g, tr[i])
    decreases i
  {
    if i > 0 {
      EnterHistory(g, own, actions, tr, i - 1);
      EnterNext(g, own, tr[i - 1], actions[i - 1]);
    }
  }

  lemma EnterNext(g: Config, own: seq<nat>, y: System, x: DAction)
    requires DInv(g, own, y) && AllEnterOk(g, y)
    ensures DEnabled(g, own, y, x) ==> AllEnterOk(g, DStep(g, own, y, x))
  {
    if DEnabled(g, own, y, x) {
      DStepOk(g, own, y, x);
      forall t | 0 <= t < g.threads
        ensures EnterOk(DStep(g, own, y, x).pc[t], DStep(g, own, y, x).s.k.at[t])
      {
        EnterStep(g, own, y, x, t);
      }
    }
  }

  ghost predicate RejectAt(g: Config, own: seq<nat>, actions: seq<DAction>, tr: seq<System>, k: nat, t: nat,
                           reject: bool)
    requires IsTrace(g, own, actions, tr) && t < g.threads && k < |actions|
  {
    TestsReject(g, own, tr[k], actions[k], t, reject)
  }

  ghost predicate FreedAt(g: Config, own: seq<nat>, actions: seq<DAction>, tr: seq<System>, l: nat, t: nat)
    requires IsTrace(g, own, actions, tr) && t < g.threads && l < |actions|
  {
    Frees(g, own, tr[l], actions[l], t)
  }

  /** Before action i, thread t has read *reject, and a make_runnable has taken it since if `freed` says so. */
  ghost predicate PastTest(g: Config, own: seq<nat>, actions: seq<DAction>, tr: seq<System>, i: nat, t: nat,
                           reject: bool, freed: bool)
    requires IsTrace(g, own, actions, tr) && t < g.threads && i <= |actions|
  {
    exists k :: 0 <= k < i && RejectAt(g, own, actions, tr, k, t, reject) &&
      (freed ==> exists l :: k < l < i && FreedAt(g, own, actions, tr, l, t))
  }

  lemma PastTestOn(g: Config, own: seq<nat>, actions: seq<DAction>, tr: seq<System>, i: nat, t: nat, reject: bool,
                   freed: bool)
    requires IsTrace(g, own, actions, tr) && t < g.threads && i < |actions|
    requires PastTest(g, own, actions, tr, i, t, reject, freed)
    ensures PastTest(g, own, actions, tr, i + 1, t, reject, freed)
    ensures FreedAt(g, own, actions, tr, i, t) ==> PastTest(g, own, actions, tr, i + 1, t, reject, true)
  {
    var k :| 0 <= k < i && RejectAt(g, own, actions, tr, k, t, reject) &&
      (freed ==> exists l :: k < l < i && FreedAt(g, own, actions, tr, l, t));
  }

  /** A call past its test: it was told to reject and does not sleep, is on its way to sleep, or has been freed. */
  ghost predicate SleepPast(g: Config, own: seq<nat>, actions: seq<DAction>, tr: seq<System>, i: nat, t: nat)
    requires IsTrace(g, own, actions, tr) && t < g.threads && i <= |actions|
  {
    var y := tr[i];
    || y.pc[t] != Leave
    || (y.s.k.at[t].Free? && PastTest(g, own, actions, tr, i, t, true, false))
    || (W.Bound(Of(g, own, t), y.s.k.at[t]) && PastTest(g, own, actions, tr, i, t, false, false))
    || PastTest(g, own, actions, tr, i, t, false, true)
  }

  lemma SleepTest(g: Config, own: seq<nat>, actions: seq<DAction>, tr: seq<System>, i: nat, t: nat, reject: bool)
    requires IsTrace(g, own, actions, tr) && t < g.threads && i < |actions|
    requires RejectAt(g, own, actions, tr, i, t, reject)
    ensures SleepPast(g, own, actions, tr, i + 1, t)
  {
    RejectDecides(g, own, tr[i], actions[i], t, reject);
    assert PastTest(g, own, actions, tr, i + 1, t, reject, false);
  }

  /** What a step that is not its test does to a call past its test. */
  lemma SleepStays(g: Config, own: seq<nat>, y: System, x: DAction, t: nat)
    requires DInv(g, own, y) && AllEnterOk(g, y) && DEnabled(g, own, y, x) && t < g.threads
    requires DStep(g, own, y, x).pc[t] == Leave && !(y.pc[t] == Enter && y.s.cur == t && x.Advance?)
    ensures y.pc[t] == Leave
    ensures var z, now := Of(g, own, t), DStep(g, own, y, x).s.k;
      && |now.at| == g.threads && (y.s.k.at[t].Free? ==> now.at[t].Free?)
      && (W.Bound(z, y.s.k.at[t]) ==> W.Bound(z, now.at[t]) || Frees(g, own, y, x, t))
  {
    StepIs(g, own, y, x);
    if t == y.s.cur {
      SleepOwn(g, own, y, x);
    } else {
      SleepOther(g, own, y, x, t);
    }
  }

  lemma SleepNext(g: Config, own: seq<nat>, actions: seq<DAction>, tr: seq<System>, i: nat, t: nat)
    requires IsTrace(g, own, actions, tr) && t < g.threads && i < |actions| && SleepPast(g, own, actions, tr, i, t)
    requires AllEnterOk(g, tr[i]) && DEnabled(g, own, tr[i], actions[i])
    ensures SleepPast(g, own, actions, tr, i + 1, t)
  {
    var y, x := tr[i], actions[i];
    assert tr[i + 1] == DStep(g, own, y, x);
    if DStep(g, own, y, x).pc[t] == Leave {
      if y.pc[t] == Enter && y.s.cur == t && x.Advance? {
        SleepTest(g, own, actions, tr, i, t, x.reject);
      } else {
        SleepStays(g, own, y, x, t);
        SleepOn(g, own, actions, tr, i, t);
      }
    }
  }

  lemma SleepOn(g: Config, own: seq<nat>, actions: seq<DAction>, tr: seq<System>, i: nat, t: nat)
    requires IsTrace(g, own, actions, tr) && t < g.threads && i < |actions| && SleepPast(g, own, actions, tr, i, t)
    requires var y, y', z := tr[i], tr[i + 1], Of(g, own, t);
      && y.pc[t] == Leave && (y.s.k.at[t].Free? ==> y'.s.k.at[t].Free?)
      && (W.Bound(z, y.s.k.at[t]) ==> W.Bound(z, y'.s.k.at[t]) || FreedAt(g, own, actions, tr, i, t))
    ensures SleepPast(g, own, actions, tr, i + 1, t)
  {
    if PastTest(g, own, actions, tr, i, t, false, true) {
      PastTestOn(g, own, actions, tr, i, t, false, true);
    } else if tr[i].s.k.at[t].Free? {
      PastTestOn(g, own, actions, tr, i, t, true, false);
    } else {
      PastTestOn(g, own, actions, tr, i, t, false, false);
    }
  }

  lemma {:induction false} SleepHistory(g: Config, own: seq<nat>, actions: seq<DAction>, tr: seq<System>, i: nat,
                                        t: nat)
    requires IsTrace(g, own, actions, tr) && t < g.threads && i <= |actions|
    ensures SleepPast(g, own, actions, tr, i, t)
    decreases i
  {
    if i == 0 {
      SleepStart(g, own, actions, tr, t);
    } else {
      SleepHistory(g, own, actions, tr, i - 1, t);
      SleepEither(g, own, actions, tr, i - 1, t);
    }
  }

  lemma SleepStart(g: Config, own: seq<nat>, actions: seq<DAction>, tr: seq<System>, t: nat)
    requires IsTrace(g, own, actions, tr) && t < g.threads
    ensures SleepPast(g, own, actions, tr, 0, t)
  {
    assert tr[0].pc[t] == Outside;
  }

  lemma SleepEither(g: Config, own: seq<nat>, actions: seq<DAction>, tr: seq<System>, i: nat, t: nat)
    requires IsTrace(g, own, actions, tr) && t < g.threads && i < |actions| && SleepPast(g, own, actions, tr, i, t)
    ensures SleepPast(g, own, actions, tr, i + 1, t)
  {
    EnterHistory(g, own, actions, tr, i);
    if DEnabled(g, own, tr[i], actions[i]) {
      SleepNext(g, own, actions, tr, i, t);
    } else {
      assert tr[i + 1] == tr[i];
      if tr[i].pc[t] == Leave {
        SleepOn(g, own, actions, tr, i, t);
      }
    }
  }

  /**
    Over every run: a deschedule that is about to return has read *reject, and either it was nonzero, or a
    make_runnable of this thread has taken it from its queue since.
   */
  lemma DescheduleExact(g: Config, own: seq<nat>, actions: seq<DAction>, tr: seq<System>, i: nat, t: nat)
    requires IsTrace(g, own, actions, tr) && t < g.threads && i <= |actions|
    requires tr[i].pc[t] == Leave && tr[i].s.k.at[t].Free?
    ensures PastTest(g, own, actions, tr, i, t, true, false) || PastTest(g, own, actions, tr, i, t, false, true)
  {
    SleepHistory(g, own, actions, tr, i, t);
  }
}
