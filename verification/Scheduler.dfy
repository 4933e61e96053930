/**
  The uniprocessor scheduler, the blocking mutex and the condition variable as one step
  relation (kern/core/context.c, kern/core/scheduler.c, kern/sync/mutex.c, kern/sync/cond_var.c).

  Every step is one stretch of code that runs with interrupts disabled, or one access to data
  that a mutex protects; a timer interrupt may come between any two steps.  `at[t]` is where
  thread t is inside mutex_lock, cond_wait, cond_signal or cond_broadcast.  `holders[m]` are the
  threads to which mutex_lock(m) has returned and that have not unlocked it since.
 */
module Scheduler {

  datatype Status = Running | Runnable | Waiting | Descheduled | Exited

  /** What follows the mutex_lock that a thread is in. */
  datatype Next =
    | Client                                // mutex_lock called from outside this module
    | WaitLink(c: nat, st: Status)          // cond_wait locks the queue mutex
    | WaitDone(c: nat)                      // cond_wait locks the caller's mutex again
    | SignalTake(c: nat, all: bool)         // cond_signal or cond_broadcast locks the queue mutex

  datatype At =
    | Unborn
    | Gone
    | Free                                  // outside the primitives
    | Lock(m: nat, next: Next)              // at the test of mutex_lock
    | Queued(m: nat, next: Next)            // blocked in mutex_lock
    | Linking(c: nat, st: Status)           // cond_wait: about to add itself to the queue
    | Linked(c: nat, st: Status)            // cond_wait: about to unlock the queue mutex
    | Blocking(c: nat, st: Status)          // cond_wait: about to set its status and unlock
    | Parked(c: nat)                        // cond_wait: about to call context_switch
    | Sleeping(c: nat)                      // cond_wait: inside context_switch
    | Chosen(c: nat, early: bool)           // picked by a signal, not yet on the run queue
    | Woken(c: nat)                         // woken before it could call context_switch
    | Taking(c: nat, all: bool)             // cond_signal: about to look at the queue
    | Adding(c: nat, h: nat, all: bool)     // cond_signal: about to put h on the run queue
    | Unlinking(c: nat, h: nat, all: bool)  // cond_signal: about to unlink h
    | Leaving(c: nat)                       // cond_signal: about to unlock the queue mutex

  const IDLE: nat := 0

  /** guard[c] is the mutex passed to cond_wait for c, lock[c] the queue mutex inside c. */
  datatype Config = Config(threads: nat, mutexes: nat, guard: seq<nat>, lock: seq<nat>)

  /** Mutexes, condition variables and what every thread is doing with them. */
  datatype Links = Links(
    at: seq<At>,
    free: seq<bool>,              // mutex value == 1
    queue: seq<seq<nat>>,         // waiting threads of each mutex
    waiting: seq<seq<nat>>,       // waiting threads of each condition variable
    holders: seq<set<nat>>,
    retrying: seq<set<nat>>)      // woken from the queue of each mutex and not yet back at the test

  datatype State = State(
    cur: nat,                     // curr_thread
    status: seq<Status>,
    runq: seq<nat>,               // runnable_threads
    k: Links)

  predicate ValidConfig(g: Config) {
    && 1 < g.threads && |g.guard| == |g.lock|
    && (forall c :: 0 <= c < |g.guard| ==> g.guard[c] < g.mutexes && g.lock[c] < g.mutexes)
    && (forall c, d :: 0 <= c < d < |g.lock| ==> g.lock[c] != g.lock[d])
    && (forall c :: 0 <= c < |g.guard| ==> g.guard[c] !in g.lock)
  }

  predicate Typed(g: Config, k: Links) {
    && |k.at| == g.threads
    && |k.free| == |k.queue| == |k.holders| == |k.retrying| == g.mutexes
    && |k.waiting| == |g.guard| == |g.lock|
  }

  predicate TypedState(g: Config, s: State) {
    Typed(g, s.k) && 1 < g.threads && |s.status| == g.threads && s.cur < g.threads
  }

  // ---------------------------------------------------------------- the invariant

  predicate NoDup(q: seq<nat>) {
    forall i, j :: 0 <= i < j < |q| ==> q[i] != q[j]
  }

  /** The thread wants the processor. */
  predicate Active(at: At) {
    || at.Free? || at.Lock? || at.Linking? || at.Linked? || at.Blocking? || at.Woken?
    || at.Taking? || at.Adding? || at.Unlinking? || at.Leaving?
  }

  predicate Asleep(st: Status) {
    st == Waiting || st == Descheduled
  }

  /** Where thread `t` is linked, by what it is doing. */
  predicate Place(g: Config, s: State, t: nat)
    requires TypedState(g, s) && t < g.threads
  {
    if t == IDLE then s.k.at[t] == Free && t !in s.runq
    else if Active(s.k.at[t]) then
      if t == s.cur then s.status[t] == Running && t !in s.runq else s.status[t] == Runnable && t in s.runq
    else
      && t !in s.runq
      && match s.k.at[t] {
        case Queued(_, _) => s.status[t] == Waiting
        case Parked(_) => Asleep(s.status[t])
        case Sleeping(_) => Asleep(s.status[t])
        case Chosen(_, _) => s.status[t] == Runnable && t != s.cur
        case Gone => s.status[t] == Exited
        case _ => t != s.cur
      }
  }

  predicate PlacesOk(g: Config, s: State)
    requires TypedState(g, s)
  {
    && NoDup(s.runq) && (forall t :: t in s.runq ==> t < g.threads)
    && (forall t :: 0 <= t < g.threads ==> Place(g, s, t))
  }

  predicate NextOk(g: Config, m: nat, next: Next)
    requires |g.guard| == |g.lock|
  {
    match next
    case Client => m !in g.lock
    case WaitLink(c, st) => c < |g.lock| && m == g.lock[c] && Asleep(st)
    case WaitDone(c) => c < |g.lock| && m == g.guard[c]
    case SignalTake(c, _) => c < |g.lock| && m == g.lock[c]
  }

  predicate AtOk(g: Config, at: At)
    requires |g.guard| == |g.lock|
  {
    match at
    case Lock(m, next) => m < g.mutexes && NextOk(g, m, next)
    case Queued(m, next) => m < g.mutexes && NextOk(g, m, next)
    case Linking(c, st) => c < |g.lock| && Asleep(st)
    case Linked(c, st) => c < |g.lock| && Asleep(st)
    case Blocking(c, st) => c < |g.lock| && Asleep(st)
    case Parked(c) => c < |g.lock|
    case Sleeping(c) => c < |g.lock|
    case Chosen(c, _) => c < |g.lock|
    case Woken(c) => c < |g.lock|
    case Taking(c, _) => c < |g.lock|
    case Adding(c, h, _) => c < |g.lock| && h < g.threads
    case Unlinking(c, h, _) => c < |g.lock| && h < g.threads
    case Leaving(c) => c < |g.lock|
    case _ => true
  }

  /** The condition variable whose queue mutex the thread holds, or -1. */
  function QueuePhase(at: At): int {
    match at
    case Linking(c, _) => c
    case Linked(c, _) => c
    case Taking(c, _) => c
    case Adding(c, _, _) => c
    case Unlinking(c, _, _) => c
    case Leaving(c) => c
    case _ => -1
  }

  /** The condition variable whose associated mutex the thread holds inside a primitive, or -1. */
  function GuardPhase(at: At): int {
    match at
    case Lock(_, WaitLink(c, _)) => c
    case Lock(_, SignalTake(c, _)) => c
    case Queued(_, WaitLink(c, _)) => c
    case Queued(_, SignalTake(c, _)) => c
    case Blocking(c, _) => c
    case _ => QueuePhase(at)
  }

  /** The thread is on its way from the run queue to the end of cond_wait. */
  predicate WokenPhase(at: At) {
    match at
    case Woken(_) => true
    case Lock(_, WaitDone(_)) => true
    case Queued(_, WaitDone(_)) => true
    case _ => false
  }

  /** The condition variable in whose queue the thread may be linked, or -1. */
  function CondOf(at: At): int {
    match at
    case Linked(c, _) => c
    case Blocking(c, _) => c
    case Parked(c) => c
    case Sleeping(c) => c
    case Chosen(c, _) => c
    case Woken(c) => c
    case Lock(_, WaitDone(c)) => c
    case Queued(_, WaitDone(c)) => c
    case _ => -1
  }

  /** Which mutexes a thread has at each point; a queue mutex is held nowhere else. */
  predicate Holding(g: Config, k: Links, t: nat)
    requires Typed(g, k) && ValidConfig(g) && t < g.threads
  {
    && AtOk(g, k.at[t])
    && (QueuePhase(k.at[t]) >= 0 ==> t in k.holders[g.lock[QueuePhase(k.at[t])]])
    && (GuardPhase(k.at[t]) >= 0 ==> t in k.holders[g.guard[GuardPhase(k.at[t])]])
    && (forall c :: 0 <= c < |g.lock| && t in k.holders[g.lock[c]] ==> QueuePhase(k.at[t]) == c)
  }

  predicate MutexOk(g: Config, k: Links, m: nat)
    requires Typed(g, k) && m < g.mutexes
  {
    && (k.free[m] <==> k.holders[m] == {})
    && (forall t, u :: t in k.holders[m] && u in k.holders[m] ==> t == u)
    && (forall t :: t in k.holders[m] ==> t < g.threads && t != IDLE)
  }

  predicate QueueOk(g: Config, k: Links, m: nat)
    requires Typed(g, k) && m < g.mutexes
  {
    && NoDup(k.queue[m])
    && (forall t :: t in k.queue[m] ==> t < g.threads && k.at[t].Queued? && k.at[t].m == m)
    && (forall t :: 0 <= t < g.threads && k.at[t].Queued? && k.at[t].m == m ==> t in k.queue[m])
  }

  /** No wake-up is lost: if threads wait for a free mutex, one that was woken will try again. */
  predicate WakeOk(g: Config, k: Links, m: nat)
    requires Typed(g, k) && m < g.mutexes
  {
    && (forall t :: t in k.retrying[m] ==> t < g.threads && k.at[t].Lock? && k.at[t].m == m)
    && (k.queue[m] != [] && k.free[m] ==> k.retrying[m] != {})
  }

  /** A thread in the queue of `c` that a signaller has already taken. */
  predicate TakenBy(g: Config, k: Links, c: nat, t: nat)
    requires Typed(g, k) && ValidConfig(g) && c < |g.lock| && t < g.threads
  {
    && k.holders[g.lock[c]] != {}
    && forall u :: u in k.holders[g.lock[c]] && u < g.threads ==>
        if k.at[t].Chosen? then k.at[u].Adding? && k.at[u].c == c && k.at[u].h == t
        else k.at[u].Unlinking? && k.at[u].c == c && k.at[u].h == t
  }

  predicate CondQueueOk(g: Config, k: Links, c: nat)
    requires Typed(g, k) && ValidConfig(g) && c < |g.lock|
  {
    && NoDup(k.waiting[c])
    && (forall t :: t in k.waiting[c] ==> t < g.threads && t != IDLE && CondOf(k.at[t]) == c)
    && (forall t :: t in k.waiting[c] && (k.at[t].Chosen? || WokenPhase(k.at[t])) ==> TakenBy(g, k, c, t))
    && (forall t :: 0 <= t < g.threads && CondOf(k.at[t]) == c && !WokenPhase(k.at[t]) ==> t in k.waiting[c])
  }

  /** The thread that a signaller works on is the first in the queue. */
  predicate SignalOk(g: Config, k: Links, t: nat)
    requires Typed(g, k) && ValidConfig(g) && t < g.threads && AtOk(g, k.at[t])
  {
    match k.at[t]
    case Adding(c, h, _) => k.waiting[c] != [] && k.waiting[c][0] == h && k.at[h].Chosen?
    case Unlinking(c, h, _) => k.waiting[c] != [] && k.waiting[c][0] == h && WokenPhase(k.at[h])
    case _ => true
  }

  predicate LinksOk(g: Config, k: Links)
    requires ValidConfig(g) && Typed(g, k)
  {
    && (forall t :: 0 <= t < g.threads ==> Holding(g, k, t))
    && (forall t :: 0 <= t < g.threads ==> AtOk(g, k.at[t]) && SignalOk(g, k, t))
    && (forall m :: 0 <= m < g.mutexes ==> MutexOk(g, k, m))
    && (forall m :: 0 <= m < g.mutexes ==> QueueOk(g, k, m))
    && (forall m :: 0 <= m < g.mutexes ==> WakeOk(g, k, m))
    && (forall c :: 0 <= c < |g.lock| ==> CondQueueOk(g, k, c))
  }

  predicate Inv(g: Config, s: State) {
    ValidConfig(g) && TypedState(g, s) && PlacesOk(g, s) && LinksOk(g, s.k)
  }

  /** The current thread is not blocked, except that it may be about to give up the processor. */
  predicate CurOk(g: Config, s: State)
    requires TypedState(g, s)
  {
    Active(s.k.at[s.cur]) || s.k.at[s.cur].Parked?
  }

  // ---------------------------------------------------------------- the steps

  /** `context_switch`: next_thread, requeue the current thread if it still runs, switch_to_thread. */
  function Switch(g: Config, s: State): State
    requires TypedState(g, s) && forall t :: t in s.runq ==> t < g.threads
  {
    if s.runq == [] then
      if s.cur == IDLE || s.status[s.cur] == Running then s
      else s.(cur := IDLE, status := s.status[IDLE := Running])
    else
      var next, rest := s.runq[0], s.runq[1..];
      assert next in s.runq;
      if s.status[s.cur] == Running && s.cur != IDLE then
        s.(cur := next, status := s.status[s.cur := Runnable][next := Running], runq := rest + [s.cur])
      else
        s.(cur := next, status := s.status[next := Running], runq := rest)
  }

  lemma SwitchTyped(g: Config, s: State)
    requires TypedState(g, s) && forall t :: t in s.runq ==> t < g.threads
    ensures TypedState(g, Switch(g, s)) && Switch(g, s).k == s.k
  {
    if s.runq != [] {
      assert s.runq[0] in s.runq;
    }
  }

  lemma SwitchQueue(g: Config, s: State)
    requires TypedState(g, s) && PlacesOk(g, s)
    ensures var s' := Switch(g, s);
      && NoDup(s'.runq)
      && (forall t :: t in s'.runq <==>
            || (t in s.runq && t != s'.cur)
            || (t == s.cur && t != s'.cur && s.status[t] == Running && t != IDLE))
      && (s.runq == [] ==> s'.runq == [])
      && (s.runq != [] ==> s'.cur == s.runq[0] && s'.cur != s.cur)
  {
    assert Place(g, s, s.cur);
    if s.runq != [] {
      assert s.runq[0] in s.runq;
      assert Place(g, s, s.runq[0]);
      assert forall t :: t in s.runq <==> t == s.runq[0] || t in s.runq[1..];
    }
  }

  lemma SwitchPlaces(g: Config, s: State)
    requires TypedState(g, s) && PlacesOk(g, s)
    ensures TypedState(g, Switch(g, s)) && PlacesOk(g, Switch(g, s)) && CurOk(g, Switch(g, s))
  {
    var s' := Switch(g, s);
    SwitchTyped(g, s);
    SwitchQueue(g, s);
    forall t | 0 <= t < g.threads ensures Place(g, s', t) {
      assert Place(g, s, t);
    }
    assert Place(g, s, s'.cur);
  }

  lemma SwitchInv(g: Config, s: State)
    requires Inv(g, s)
    ensures Inv(g, Switch(g, s)) && CurOk(g, Switch(g, s))
  {
    SwitchTyped(g, s);
    SwitchPlaces(g, s);
  }

  // ---------------------------------------------------------------- steps on the links

  function Goto(k: Links, t: nat, at: At): Links
    requires t < |k.at|
  {
    k.(at := k.at[t := at])
  }

  /** A move that neither takes nor gives up anything. */
  predicate QuietMove(g: Config, k: Links, t: nat, at: At)
    requires ValidConfig(g) && Typed(g, k) && t < g.threads
  {
    var was := k.at[t];
    && AtOk(g, at)
    && !was.Lock? && !was.Queued? && !at.Queued? && !was.Adding? && !was.Unlinking? && !at.Adding? && !at.Unlinking?
    && CondOf(at) == CondOf(was) && WokenPhase(at) == WokenPhase(was) && at.Chosen? == was.Chosen?
    && QueuePhase(at) == QueuePhase(was)
    && (GuardPhase(at) >= 0 ==> t in k.holders[g.guard[GuardPhase(at)]])
  }

  lemma GotoThreads(g: Config, k: Links, t: nat, at: At)
    requires ValidConfig(g) && Typed(g, k) && LinksOk(g, k) && t < g.threads && QuietMove(g, k, t, at)
    ensures var k' := Goto(k, t, at);
      forall u :: 0 <= u < g.threads ==> Holding(g, k', u) && SignalOk(g, k', u)
  {
    var k' := Goto(k, t, at);
    forall u | 0 <= u < g.threads ensures Holding(g, k', u) && SignalOk(g, k', u) {
      assert Holding(g, k, u) && SignalOk(g, k, u);
    }
  }

  lemma GotoInv(g: Config, k: Links, t: nat, at: At)
    requires ValidConfig(g) && Typed(g, k) && LinksOk(g, k) && t < g.threads && QuietMove(g, k, t, at)
    ensures Typed(g, Goto(k, t, at)) && LinksOk(g, Goto(k, t, at))
  {
    var k' := Goto(k, t, at);
    GotoThreads(g, k, t, at);
    forall m | 0 <= m < g.mutexes ensures MutexOk(g, k', m) && QueueOk(g, k', m) && WakeOk(g, k', m) {
      assert MutexOk(g, k, m) && QueueOk(g, k, m) && WakeOk(g, k, m);
    }
    forall c | 0 <= c < |g.lock| ensures CondQueueOk(g, k', c) {
      assert CondQueueOk(g, k, c);
      forall u | u in k'.waiting[c] && (k'.at[u].Chosen? || WokenPhase(k'.at[u])) ensures TakenBy(g, k', c, u) {
        assert TakenBy(g, k, c, u);
      }
    }
  }

  /** Where mutex_lock returns to. */
  function Resume(next: Next): At {
    match next
    case Client => Free
    case WaitLink(c, st) => Linking(c, st)
    case WaitDone(_) => Free
    case SignalTake(c, all) => Taking(c, all)
  }

  /** The loop of mutex_lock finds the mutex free. */
  function Acquire(g: Config, k: Links, t: nat): Links
    requires Typed(g, k) && t < g.threads && k.at[t].Lock? && k.at[t].m < g.mutexes
  {
    var m := k.at[t].m;
    k.(at := k.at[t := Resume(k.at[t].next)], free := k.free[m := false],
       holders := k.holders[m := k.holders[m] + {t}], retrying := k.retrying[m := k.retrying[m] - {t}])
  }

  /** A woken waiter that is still linked cannot get the mutex: its signaller has it. */
  lemma LinkedWaits(g: Config, k: Links, t: nat, c: nat)
    requires ValidConfig(g) && Typed(g, k) && LinksOk(g, k) && t < g.threads && c < |g.lock|
    requires t in k.waiting[c] && WokenPhase(k.at[t])
    ensures !k.free[g.guard[c]]
  {
    assert CondQueueOk(g, k, c);
    assert TakenBy(g, k, c, t);
    var u :| u in k.holders[g.lock[c]];
    assert MutexOk(g, k, g.lock[c]);
    assert Holding(g, k, u);
    assert MutexOk(g, k, g.guard[c]);
  }

  lemma AcquireHolding(g: Config, k: Links, t: nat, u: nat)
    requires ValidConfig(g) && Typed(g, k) && t < g.threads && k.at[t].Lock? && k.at[t].m < g.mutexes
    requires u < g.threads && Holding(g, k, t) && Holding(g, k, u)
    ensures Holding(g, Acquire(g, k, t), u)
  {
  }

  lemma AcquireSignal(g: Config, k: Links, t: nat)
    requires ValidConfig(g) && Typed(g, k) && LinksOk(g, k) && t < g.threads && k.at[t].Lock?
    requires k.at[t].m < g.mutexes && k.free[k.at[t].m]
    ensures var k' := Acquire(g, k, t);
      forall u :: 0 <= u < g.threads ==> AtOk(g, k'.at[u]) && SignalOk(g, k', u)
  {
    var k' := Acquire(g, k, t);
    assert Holding(g, k, t);
    forall u | 0 <= u < g.threads ensures AtOk(g, k'.at[u]) && SignalOk(g, k', u) {
      assert Holding(g, k, u) && SignalOk(g, k, u);
      if k.at[u].Unlinking? && k.at[u].h == t {
        assert t in k.waiting[k.at[u].c] && CondQueueOk(g, k, k.at[u].c);
        LinkedWaits(g, k, t, k.at[u].c);
      }
    }
  }

  lemma AcquireMutex(g: Config, k: Links, t: nat)
    requires ValidConfig(g) && Typed(g, k) && LinksOk(g, k) && t < g.threads && t != IDLE && k.at[t].Lock?
    requires k.at[t].m < g.mutexes && k.free[k.at[t].m]
    ensures var k' := Acquire(g, k, t);
      forall m :: 0 <= m < g.mutexes ==> MutexOk(g, k', m) && QueueOk(g, k', m) && WakeOk(g, k', m)
  {
    var k' := Acquire(g, k, t);
    forall m | 0 <= m < g.mutexes ensures MutexOk(g, k', m) && QueueOk(g, k', m) && WakeOk(g, k', m) {
      assert MutexOk(g, k, m) && QueueOk(g, k, m) && WakeOk(g, k, m);
    }
  }

  lemma AcquireCond(g: Config, k: Links, t: nat)
    requires ValidConfig(g) && Typed(g, k) && LinksOk(g, k) && t < g.threads && k.at[t].Lock?
    requires k.at[t].m < g.mutexes && k.free[k.at[t].m]
    ensures var k' := Acquire(g, k, t);
      forall c :: 0 <= c < |g.lock| ==> CondQueueOk(g, k', c)
  {
    var k' := Acquire(g, k, t);
    assert Holding(g, k, t);
    forall c | 0 <= c < |g.lock| ensures CondQueueOk(g, k', c) {
      assert CondQueueOk(g, k, c);
      assert MutexOk(g, k, g.lock[c]);
      if t in k.waiting[c] {
        LinkedWaits(g, k, t, c);
      }
      forall u | u in k'.waiting[c] && (k'.at[u].Chosen? || WokenPhase(k'.at[u])) ensures TakenBy(g, k', c, u) {
        assert TakenBy(g, k, c, u);
      }
    }
  }

  lemma AcquireInv(g: Config, k: Links, t: nat)
    requires ValidConfig(g) && Typed(g, k) && LinksOk(g, k) && t < g.threads && t != IDLE && k.at[t].Lock?
    requires k.at[t].m < g.mutexes && k.free[k.at[t].m]
    ensures Typed(g, Acquire(g, k, t)) && LinksOk(g, Acquire(g, k, t))
  {
    forall u | 0 <= u < g.threads ensures Holding(g, Acquire(g, k, t), u) {
      AcquireHolding(g, k, t, u);
    }
    AcquireSignal(g, k, t);
    AcquireMutex(g, k, t);
    AcquireCond(g, k, t);
  }

  /** The loop of mutex_lock finds the mutex taken. */
  function Enqueue(g: Config, k: Links, t: nat): Links
    requires Typed(g, k) && t < g.threads && k.at[t].Lock? && k.at[t].m < g.mutexes
  {
    var m := k.at[t].m;
    k.(at := k.at[t := Queued(m, k.at[t].next)], queue := k.queue[m := k.queue[m] + [t]],
       retrying := k.retrying[m := k.retrying[m] - {t}])
  }

  lemma EnqueueThreads(g: Config, k: Links, t: nat)
    requires ValidConfig(g) && Typed(g, k) && LinksOk(g, k) && t < g.threads && k.at[t].Lock?
    requires k.at[t].m < g.mutexes
    ensures var k' := Enqueue(g, k, t);
      forall u :: 0 <= u < g.threads ==> Holding(g, k', u) && SignalOk(g, k', u)
  {
    var k' := Enqueue(g, k, t);
    assert Holding(g, k, t);
    forall u | 0 <= u < g.threads ensures Holding(g, k', u) && SignalOk(g, k', u) {
      assert Holding(g, k, u) && SignalOk(g, k, u);
    }
  }

  lemma EnqueueCond(g: Config, k: Links, t: nat)
    requires ValidConfig(g) && Typed(g, k) && LinksOk(g, k) && t < g.threads && k.at[t].Lock?
    requires k.at[t].m < g.mutexes
    ensures var k' := Enqueue(g, k, t);
      forall c :: 0 <= c < |g.lock| ==> CondQueueOk(g, k', c)
  {
    var k' := Enqueue(g, k, t);
    forall c | 0 <= c < |g.lock| ensures CondQueueOk(g, k', c) {
      assert CondQueueOk(g, k, c);
      forall u | u in k'.waiting[c] && (k'.at[u].Chosen? || WokenPhase(k'.at[u])) ensures TakenBy(g, k', c, u) {
        assert TakenBy(g, k, c, u);
      }
    }
  }

  lemma EnqueueInv(g: Config, k: Links, t: nat)
    requires ValidConfig(g) && Typed(g, k) && LinksOk(g, k) && t < g.threads && k.at[t].Lock?
    requires k.at[t].m < g.mutexes && !k.free[k.at[t].m]
    ensures Typed(g, Enqueue(g, k, t)) && LinksOk(g, Enqueue(g, k, t))
  {
    var k' := Enqueue(g, k, t);
    EnqueueThreads(g, k, t);
    EnqueueCond(g, k, t);
    forall m | 0 <= m < g.mutexes ensures MutexOk(g, k', m) && QueueOk(g, k', m) && WakeOk(g, k', m) {
      assert MutexOk(g, k, m) && QueueOk(g, k, m) && WakeOk(g, k, m);
    }
  }

  /** `mutex_unlock(m)` by t, which goes on at `at`: the first waiter is sent back to its test. */
  function Release(g: Config, k: Links, t: nat, m: nat, at: At): Links
    requires Typed(g, k) && t < g.threads && m < g.mutexes
    requires k.queue[m] != [] ==> k.queue[m][0] < g.threads && k.at[k.queue[m][0]].Queued?
  {
    var k0 := k.(at := k.at[t := at], free := k.free[m := true], holders := k.holders[m := k.holders[m] - {t}]);
    if k.queue[m] == [] then k0
    else
      var h := k.queue[m][0];
      k0.(at := k0.at[h := Lock(m, k.at[h].next)], queue := k.queue[m := k.queue[m][1..]],
          retrying := k.retrying[m := k.retrying[m] + {h}])
  }

  /** What t may do next when it unlocks m. */
  predicate ReleaseMove(g: Config, k: Links, t: nat, m: nat, at: At)
    requires ValidConfig(g) && Typed(g, k) && t < g.threads && m < g.mutexes
  {
    var was := k.at[t];
    && AtOk(g, was) && AtOk(g, at) && t in k.holders[m]
    && !was.Lock? && !was.Queued? && !at.Lock? && !at.Queued?
    && !was.Adding? && !was.Unlinking? && !at.Adding? && !at.Unlinking?
    && CondOf(at) == CondOf(was) && WokenPhase(at) == WokenPhase(was) && at.Chosen? == was.Chosen?
    && (QueuePhase(at) >= 0 ==> QueuePhase(at) == QueuePhase(was) && g.lock[QueuePhase(at)] != m)
    && (GuardPhase(at) >= 0 ==> GuardPhase(at) == GuardPhase(was) && g.guard[GuardPhase(at)] != m)
    && (QueuePhase(was) >= 0 && QueuePhase(at) < 0 ==> m == g.lock[QueuePhase(was)])
  }

  lemma FirstQueued(g: Config, k: Links, m: nat)
    requires ValidConfig(g) && Typed(g, k) && LinksOk(g, k) && m < g.mutexes && k.queue[m] != []
    ensures var h := k.queue[m][0]; h < g.threads && k.at[h].Queued? && k.at[h].m == m
  {
    assert QueueOk(g, k, m);
    assert k.queue[m][0] in k.queue[m];
  }

  lemma ReleaseHolding(g: Config, k: Links, t: nat, m: nat, at: At, u: nat)
    requires ValidConfig(g) && Typed(g, k) && t < g.threads && m < g.mutexes && u < g.threads
    requires ReleaseMove(g, k, t, m, at) && Holding(g, k, t) && Holding(g, k, u)
    requires k.queue[m] != [] ==>
      k.queue[m][0] < g.threads && k.at[k.queue[m][0]].Queued? && k.at[k.queue[m][0]].m == m
    ensures Holding(g, Release(g, k, t, m, at), u)
  {
  }

  lemma ReleaseSignal(g: Config, k: Links, t: nat, m: nat, at: At)
    requires ValidConfig(g) && Typed(g, k) && LinksOk(g, k) && t < g.threads && m < g.mutexes
    requires ReleaseMove(g, k, t, m, at)
    requires k.queue[m] != [] ==> k.queue[m][0] < g.threads && k.at[k.queue[m][0]].Queued?
    ensures var k' := Release(g, k, t, m, at);
      forall u :: 0 <= u < g.threads ==> AtOk(g, k'.at[u]) && SignalOk(g, k', u)
  {
    var k' := Release(g, k, t, m, at);
    if k.queue[m] != [] {
      FirstQueued(g, k, m);
    }
    forall u | 0 <= u < g.threads ensures AtOk(g, k'.at[u]) && SignalOk(g, k', u) {
      assert Holding(g, k, u) && SignalOk(g, k, u);
    }
  }

  lemma ReleaseMutex(g: Config, k: Links, t: nat, m: nat, at: At)
    requires ValidConfig(g) && Typed(g, k) && LinksOk(g, k) && t < g.threads && m < g.mutexes
    requires ReleaseMove(g, k, t, m, at)
    requires k.queue[m] != [] ==> k.queue[m][0] < g.threads && k.at[k.queue[m][0]].Queued?
    ensures var k' := Release(g, k, t, m, at);
      forall n :: 0 <= n < g.mutexes ==> MutexOk(g, k', n) && QueueOk(g, k', n) && WakeOk(g, k', n)
  {
    var k' := Release(g, k, t, m, at);
    if k.queue[m] != [] {
      FirstQueued(g, k, m);
      assert forall u :: u in k.queue[m] <==> u == k.queue[m][0] || u in k.queue[m][1..];
    }
    forall n | 0 <= n < g.mutexes ensures MutexOk(g, k', n) && QueueOk(g, k', n) && WakeOk(g, k', n) {
      assert MutexOk(g, k, n) && QueueOk(g, k, n) && WakeOk(g, k, n);
    }
  }

  lemma ReleaseCond(g: Config, k: Links, t: nat, m: nat, at: At, c: nat)
    requires ValidConfig(g) && Typed(g, k) && t < g.threads && m < g.mutexes && c < |g.lock|
    requires ReleaseMove(g, k, t, m, at) && CondQueueOk(g, k, c) && MutexOk(g, k, g.lock[c])
    requires k.queue[m] != [] ==>
      k.queue[m][0] < g.threads && k.at[k.queue[m][0]].Queued? && k.at[k.queue[m][0]].m == m
    ensures CondQueueOk(g, Release(g, k, t, m, at), c)
  {
    var k' := Release(g, k, t, m, at);
    forall u | u in k'.waiting[c] && (k'.at[u].Chosen? || WokenPhase(k'.at[u])) ensures TakenBy(g, k', c, u) {
      assert TakenBy(g, k, c, u);
    }
  }

  lemma ReleaseInv(g: Config, k: Links, t: nat, m: nat, at: At)
    requires ValidConfig(g) && Typed(g, k) && LinksOk(g, k) && t < g.threads && m < g.mutexes
    requires ReleaseMove(g, k, t, m, at)
    ensures k.queue[m] != [] ==> k.queue[m][0] < g.threads && k.at[k.queue[m][0]].Queued?
    ensures Typed(g, Release(g, k, t, m, at)) && LinksOk(g, Release(g, k, t, m, at))
  {
    if k.queue[m] != [] {
      FirstQueued(g, k, m);
    }
    forall u | 0 <= u < g.threads ensures Holding(g, Release(g, k, t, m, at), u) {
      ReleaseHolding(g, k, t, m, at, u);
    }
    ReleaseSignal(g, k, t, m, at);
    ReleaseMutex(g, k, t, m, at);
    forall c | 0 <= c < |g.lock| ensures CondQueueOk(g, Release(g, k, t, m, at), c) {
      ReleaseCond(g, k, t, m, at, c);
    }
  }

  /** cond_wait adds the thread to the queue. */
  function Enlist(g: Config, k: Links, t: nat): Links
    requires Typed(g, k) && t < g.threads && k.at[t].Linking? && k.at[t].c < |g.lock|
  {
    var c := k.at[t].c;
    k.(at := k.at[t := Linked(c, k.at[t].st)], waiting := k.waiting[c := k.waiting[c] + [t]])
  }

  lemma EnlistThreads(g: Config, k: Links, t: nat, u: nat)
    requires ValidConfig(g) && Typed(g, k) && LinksOk(g, k) && t < g.threads && u < g.threads
    requires k.at[t].Linking? && k.at[t].c < |g.lock|
    ensures Holding(g, Enlist(g, k, t), u) && SignalOk(g, Enlist(g, k, t), u)
  {
    assert Holding(g, k, t);
    assert Holding(g, k, u) && SignalOk(g, k, u);
  }

  lemma EnlistCond(g: Config, k: Links, t: nat, c: nat)
    requires ValidConfig(g) && Typed(g, k) && LinksOk(g, k) && t < g.threads && t != IDLE && c < |g.lock|
    requires k.at[t].Linking? && k.at[t].c < |g.lock|
    ensures CondQueueOk(g, Enlist(g, k, t), c)
  {
    var k' := Enlist(g, k, t);
    assert CondQueueOk(g, k, c);
    forall u | u in k'.waiting[c] && (k'.at[u].Chosen? || WokenPhase(k'.at[u])) ensures TakenBy(g, k', c, u) {
      assert TakenBy(g, k, c, u);
    }
  }

  lemma EnlistInv(g: Config, k: Links, t: nat)
    requires ValidConfig(g) && Typed(g, k) && LinksOk(g, k) && t < g.threads && t != IDLE
    requires k.at[t].Linking? && k.at[t].c < |g.lock|
    ensures Typed(g, Enlist(g, k, t)) && LinksOk(g, Enlist(g, k, t))
  {
    var k' := Enlist(g, k, t);
    forall u | 0 <= u < g.threads ensures Holding(g, k', u) && SignalOk(g, k', u) {
      EnlistThreads(g, k, t, u);
    }
    forall m | 0 <= m < g.mutexes ensures MutexOk(g, k', m) && QueueOk(g, k', m) && WakeOk(g, k', m) {
      assert MutexOk(g, k, m) && QueueOk(g, k, m) && WakeOk(g, k, m);
    }
    forall c | 0 <= c < |g.lock| ensures CondQueueOk(g, k', c) {
      EnlistCond(g, k, t, c);
    }
  }

  /** cond_signal finds `h` first in the queue and sets its status. */
  function Pick(g: Config, k: Links, t: nat): Links
    requires Typed(g, k) && t < g.threads && k.at[t].Taking? && k.at[t].c < |g.lock|
    requires k.waiting[k.at[t].c] != [] && k.waiting[k.at[t].c][0] < g.threads
  {
    var c := k.at[t].c;
    var h := k.waiting[c][0];
    k.(at := k.at[h := Chosen(c, k.at[h].Parked?)][t := Adding(c, h, k.at[t].all)])
  }

  lemma NotTaken(g: Config, k: Links, t: nat, h: nat)
    requires ValidConfig(g) && Typed(g, k) && t < g.threads && h < g.threads
    requires k.at[t].Taking? && k.at[t].c < |g.lock| && Holding(g, k, t)
    ensures !TakenBy(g, k, k.at[t].c, h)
  {
  }

  /**
    A signaller that holds the associated mutex finds at the head of the queue only a thread
    that is neither running nor on the run queue.
   */
  lemma HeadIsBlocked(g: Config, k: Links, t: nat)
    requires ValidConfig(g) && Typed(g, k) && LinksOk(g, k) && t < g.threads
    requires k.at[t].Taking? && k.at[t].c < |g.lock| && k.waiting[k.at[t].c] != []
    ensures var h := k.waiting[k.at[t].c][0];
      h < g.threads && h != IDLE && h != t && (k.at[h].Parked? || k.at[h].Sleeping?) && k.at[h].c == k.at[t].c
  {
    var c := k.at[t].c;
    var h := k.waiting[c][0];
    assert h in k.waiting[c];
    assert CondQueueOk(g, k, c);
    assert Holding(g, k, t) && Holding(g, k, h);
    assert MutexOk(g, k, g.lock[c]) && MutexOk(g, k, g.guard[c]);
    NotTaken(g, k, t, h);
  }

  lemma PickThreads(g: Config, k: Links, t: nat, h: nat, u: nat)
    requires ValidConfig(g) && Typed(g, k) && t < g.threads && u < g.threads
    requires k.at[t].Taking? && k.at[t].c < |g.lock| && k.waiting[k.at[t].c] != [] && h == k.waiting[k.at[t].c][0]
    requires h < g.threads && h != t && (k.at[h].Parked? || k.at[h].Sleeping?)
    requires Holding(g, k, t) && Holding(g, k, u) && SignalOk(g, k, u)
    ensures Holding(g, Pick(g, k, t), u) && SignalOk(g, Pick(g, k, t), u)
  {
  }

  lemma PickCond(g: Config, k: Links, t: nat, h: nat, c: nat)
    requires ValidConfig(g) && Typed(g, k) && t < g.threads && c < |g.lock|
    requires k.at[t].Taking? && k.at[t].c < |g.lock| && k.waiting[k.at[t].c] != [] && h == k.waiting[k.at[t].c][0]
    requires h < g.threads && h != t && (k.at[h].Parked? || k.at[h].Sleeping?) && k.at[h].c == k.at[t].c
    requires Holding(g, k, t) && MutexOk(g, k, g.lock[k.at[t].c]) && CondQueueOk(g, k, c)
    ensures CondQueueOk(g, Pick(g, k, t), c)
  {
    var k' := Pick(g, k, t);
    forall u | u in k'.waiting[c] && (k'.at[u].Chosen? || WokenPhase(k'.at[u])) ensures TakenBy(g, k', c, u) {
      if u != h {
        assert TakenBy(g, k, c, u);
      }
    }
  }

  lemma PickInv(g: Config, k: Links, t: nat)
    requires ValidConfig(g) && Typed(g, k) && LinksOk(g, k) && t < g.threads
    requires k.at[t].Taking? && k.at[t].c < |g.lock| && k.waiting[k.at[t].c] != []
    ensures k.waiting[k.at[t].c][0] < g.threads
    ensures Typed(g, Pick(g, k, t)) && LinksOk(g, Pick(g, k, t))
  {
    HeadIsBlocked(g, k, t);
    var h := k.waiting[k.at[t].c][0];
    var k' := Pick(g, k, t);
    forall u | 0 <= u < g.threads ensures Holding(g, k', u) && SignalOk(g, k', u) {
      PickThreads(g, k, t, h, u);
    }
    forall c | 0 <= c < |g.lock| ensures CondQueueOk(g, k', c) {
      PickCond(g, k, t, h, c);
    }
    forall m | 0 <= m < g.mutexes ensures MutexOk(g, k', m) && QueueOk(g, k', m) && WakeOk(g, k', m) {
      assert MutexOk(g, k, m) && QueueOk(g, k, m) && WakeOk(g, k, m);
    }
  }

  /** cond_signal puts `h` on the run queue. */
  function PutOn(g: Config, k: Links, t: nat): Links
    requires Typed(g, k) && t < g.threads && k.at[t].Adding? && k.at[t].c < |g.lock|
    requires k.at[t].h < g.threads && k.at[k.at[t].h].Chosen?
  {
    var c, h := k.at[t].c, k.at[t].h;
    var resumed := if k.at[h].early then Woken(c) else Lock(g.guard[c], WaitDone(c));
    k.(at := k.at[h := resumed][t := Unlinking(c, h, k.at[t].all)])
  }

  lemma PutOnThreads(g: Config, k: Links, t: nat, h: nat, u: nat)
    requires ValidConfig(g) && Typed(g, k) && t < g.threads && u < g.threads
    requires k.at[t].Adding? && k.at[t].c < |g.lock| && h == k.at[t].h && h < g.threads && k.at[h].Chosen?
    requires Holding(g, k, t) && SignalOk(g, k, t) && Holding(g, k, u) && SignalOk(g, k, u)
    requires k.at[u].Adding? && k.at[u].h == h ==> u == t
    ensures Holding(g, PutOn(g, k, t), u) && SignalOk(g, PutOn(g, k, t), u)
  {
  }

  /** Two signallers never work on the same thread. */
  lemma OneAdder(g: Config, k: Links, t: nat, u: nat, h: nat)
    requires ValidConfig(g) && Typed(g, k) && LinksOk(g, k) && t < g.threads && u < g.threads && h < g.threads
    requires k.at[t].Adding? && k.at[u].Adding? && k.at[t].h == h == k.at[u].h
    ensures t == u
  {
    assert Holding(g, k, t) && SignalOk(g, k, t) && Holding(g, k, u) && SignalOk(g, k, u);
    assert h in k.waiting[k.at[t].c] && h in k.waiting[k.at[u].c];
    assert CondQueueOk(g, k, k.at[t].c) && CondQueueOk(g, k, k.at[u].c);
    assert MutexOk(g, k, g.lock[k.at[t].c]);
  }

  lemma PutOnCond(g: Config, k: Links, t: nat, h: nat, c: nat)
    requires ValidConfig(g) && Typed(g, k) && t < g.threads && c < |g.lock|
    requires k.at[t].Adding? && k.at[t].c < |g.lock| && h == k.at[t].h && h < g.threads && k.at[h].Chosen?
    requires Holding(g, k, t) && MutexOk(g, k, g.lock[k.at[t].c]) && CondQueueOk(g, k, c)
    requires CondOf(k.at[h]) == k.at[t].c
    ensures CondQueueOk(g, PutOn(g, k, t), c)
  {
    var k' := PutOn(g, k, t);
    forall u | u in k'.waiting[c] && (k'.at[u].Chosen? || WokenPhase(k'.at[u])) ensures TakenBy(g, k', c, u) {
      assert TakenBy(g, k, c, u);
    }
  }

  lemma PutOnInv(g: Config, k: Links, t: nat)
    requires ValidConfig(g) && Typed(g, k) && LinksOk(g, k) && t < g.threads
    requires k.at[t].Adding? && k.at[t].c < |g.lock|
    ensures k.at[t].h < g.threads && k.at[k.at[t].h].Chosen?
    ensures Typed(g, PutOn(g, k, t)) && LinksOk(g, PutOn(g, k, t))
  {
    assert Holding(g, k, t) && SignalOk(g, k, t);
    var h := k.at[t].h;
    var k' := PutOn(g, k, t);
    assert h in k.waiting[k.at[t].c] && CondQueueOk(g, k, k.at[t].c);
    forall u | 0 <= u < g.threads ensures Holding(g, k', u) && SignalOk(g, k', u) {
      if k.at[u].Adding? && k.at[u].h == h {
        OneAdder(g, k, t, u, h);
      }
      PutOnThreads(g, k, t, h, u);
    }
    forall c | 0 <= c < |g.lock| ensures CondQueueOk(g, k', c) {
      PutOnCond(g, k, t, h, c);
    }
    forall m | 0 <= m < g.mutexes ensures MutexOk(g, k', m) && QueueOk(g, k', m) && WakeOk(g, k', m) {
      assert MutexOk(g, k, m) && QueueOk(g, k, m) && WakeOk(g, k, m);
    }
  }

  function Delete(q: seq<nat>, h: nat): (r: seq<nat>)
    ensures q != [] && q[0] == h ==> r == q[1..]
  {
    if q == [] then []
    else if q[0] == h then q[1..]
    else [q[0]] + Delete(q[1..], h)
  }

  /** cond_signal unlinks `h`; cond_broadcast goes on with the next thread. */
  function Unlink(g: Config, k: Links, t: nat): Links
    requires Typed(g, k) && t < g.threads && k.at[t].Unlinking? && k.at[t].c < |g.lock|
  {
    var c := k.at[t].c;
    k.(at := k.at[t := if k.at[t].all then Taking(c, true) else Leaving(c)],
       waiting := k.waiting[c := Delete(k.waiting[c], k.at[t].h)])
  }

  lemma UnlinkThreads(g: Config, k: Links, t: nat, u: nat)
    requires ValidConfig(g) && Typed(g, k) && t < g.threads && u < g.threads
    requires k.at[t].Unlinking? && k.at[t].c < |g.lock|
    requires Holding(g, k, t) && MutexOk(g, k, g.lock[k.at[t].c]) && Holding(g, k, u) && SignalOk(g, k, u)
    ensures Holding(g, Unlink(g, k, t), u) && SignalOk(g, Unlink(g, k, t), u)
  {
  }

  lemma UnlinkCond(g: Config, k: Links, t: nat, c: nat)
    requires ValidConfig(g) && Typed(g, k) && t < g.threads && c < |g.lock|
    requires k.at[t].Unlinking? && k.at[t].c < |g.lock|
    requires Holding(g, k, t) && SignalOk(g, k, t) && MutexOk(g, k, g.lock[k.at[t].c]) && CondQueueOk(g, k, c)
    ensures CondQueueOk(g, Unlink(g, k, t), c)
  {
    var k' := Unlink(g, k, t);
    var c0, h := k.at[t].c, k.at[t].h;
    assert forall u :: u in k.waiting[c0] <==> u == h || u in k.waiting[c0][1..];
    forall u | u in k'.waiting[c] && (k'.at[u].Chosen? || WokenPhase(k'.at[u])) ensures TakenBy(g, k', c, u) {
      assert TakenBy(g, k, c, u);
    }
  }

  lemma UnlinkInv(g: Config, k: Links, t: nat)
    requires ValidConfig(g) && Typed(g, k) && LinksOk(g, k) && t < g.threads
    requires k.at[t].Unlinking? && k.at[t].c < |g.lock|
    ensures Typed(g, Unlink(g, k, t)) && LinksOk(g, Unlink(g, k, t))
  {
    var k' := Unlink(g, k, t);
    assert Holding(g, k, t) && SignalOk(g, k, t) && MutexOk(g, k, g.lock[k.at[t].c]);
    forall u | 0 <= u < g.threads ensures Holding(g, k', u) && SignalOk(g, k', u) {
      UnlinkThreads(g, k, t, u);
    }
    forall c | 0 <= c < |g.lock| ensures CondQueueOk(g, k', c) {
      UnlinkCond(g, k, t, c);
    }
    forall m | 0 <= m < g.mutexes ensures MutexOk(g, k', m) && QueueOk(g, k', m) && WakeOk(g, k', m) {
      assert MutexOk(g, k, m) && QueueOk(g, k, m) && WakeOk(g, k, m);
    }
  }

  // ---------------------------------------------------------------- whole steps

  datatype Action =
    | Timer                                 // a timer interrupt, or yield
    | BeginLock(m: nat)
    | TryLock
    | Unlock(m: nat)
    | BeginWait(c: nat, st: Status)
    | AddWaiter
    | UnlockQueue
    | Block
    | SwitchAway
    | BeginSignal(c: nat, all: bool)
    | TakeWaiter
    | AddRunnable
    | UnlinkWaiter
    | EndSignal
    | Start(u: nat)
    | Vanish

  /** The rule for callers: unlock, wait and signal only with the mutex held. */
  predicate Enabled(g: Config, s: State, a: Action)
    requires ValidConfig(g) && TypedState(g, s)
  {
    var t, at := s.cur, s.k.at[s.cur];
    match a
    case Timer => true
    case BeginLock(m) => t != IDLE && at.Free? && m < g.mutexes && m !in g.lock
    case TryLock => at.Lock?
    case Unlock(m) => at.Free? && m < g.mutexes && m !in g.lock && t in s.k.holders[m]
    case BeginWait(c, st) => at.Free? && c < |g.lock| && Asleep(st) && t in s.k.holders[g.guard[c]]
    case AddWaiter => at.Linking?
    case UnlockQueue => at.Linked?
    case Block => at.Blocking?
    case SwitchAway => at.Parked? || at.Woken?
    case BeginSignal(c, _) => at.Free? && c < |g.lock| && t in s.k.holders[g.guard[c]]
    case TakeWaiter => at.Taking?
    case AddRunnable => at.Adding?
    case UnlinkWaiter => at.Unlinking?
    case EndSignal => at.Leaving?
    case Start(u) => at.Free? && u < g.threads && s.k.at[u].Unborn?
    case Vanish => t != IDLE && at.Free?
  }

  /** `mutex_unlock(m)`, after which the thread is at `at`. */
  function UnlockStep(g: Config, s: State, m: nat, at: At): State
    requires TypedState(g, s) && m < g.mutexes
    requires s.k.queue[m] != [] ==> s.k.queue[m][0] < g.threads && s.k.at[s.k.queue[m][0]].Queued?
  {
    var k' := Release(g, s.k, s.cur, m, at);
    if s.k.queue[m] == [] then s.(k := k')
    else
      var h := s.k.queue[m][0];
      s.(status := s.status[h := Runnable], runq := s.runq + [h], k := k')
  }

  lemma CurrentOk(g: Config, s: State)
    requires Inv(g, s)
    ensures Place(g, s, s.cur) && Holding(g, s.k, s.cur) && SignalOk(g, s.k, s.cur)
    ensures forall m :: 0 <= m < g.mutexes && s.k.queue[m] != [] ==>
        s.k.queue[m][0] < g.threads && s.k.at[s.k.queue[m][0]].Queued? && s.k.at[s.k.queue[m][0]].m == m
    ensures s.k.at[s.cur].Taking? && s.k.waiting[s.k.at[s.cur].c] != [] ==> s.k.waiting[s.k.at[s.cur].c][0] < g.threads
  {
    forall m | 0 <= m < g.mutexes && s.k.queue[m] != []
      ensures var h := s.k.queue[m][0]; h < g.threads && s.k.at[h].Queued? && s.k.at[h].m == m
    {
      FirstQueued(g, s.k, m);
    }
    if s.k.at[s.cur].Taking? && s.k.waiting[s.k.at[s.cur].c] != [] {
      HeadIsBlocked(g, s.k, s.cur);
    }
  }

  function Step(g: Config, s: State, a: Action): State
    requires Inv(g, s) && Enabled(g, s, a)
  {
    CurrentOk(g, s);
    var t, at, k := s.cur, s.k.at[s.cur], s.k;
    match a
    case Timer => Switch(g, s)
    case BeginLock(m) => s.(k := Goto(k, t, Lock(m, Client)))
    case TryLock =>
      if k.free[at.m] then s.(k := Acquire(g, k, t))
      else Switch(g, s.(status := s.status[t := Waiting], k := Enqueue(g, k, t)))
    case Unlock(m) => UnlockStep(g, s, m, Free)
    case BeginWait(c, st) => s.(k := Goto(k, t, Lock(g.lock[c], WaitLink(c, st))))
    case AddWaiter => s.(k := Enlist(g, k, t))
    case UnlockQueue => UnlockStep(g, s, g.lock[at.c], Blocking(at.c, at.st))
    case Block => UnlockStep(g, s.(status := s.status[t := at.st]), g.guard[at.c], Parked(at.c))
    case SwitchAway =>
      if at.Parked? then Switch(g, s.(k := Goto(k, t, Sleeping(at.c))))
      else Switch(g, s.(k := Goto(k, t, Lock(g.guard[at.c], WaitDone(at.c)))))
    case BeginSignal(c, all) => s.(k := Goto(k, t, Lock(g.lock[c], SignalTake(c, all))))
    case TakeWaiter =>
      if k.waiting[at.c] == [] then s.(k := Goto(k, t, Leaving(at.c)))
      else s.(status := s.status[k.waiting[at.c][0] := Runnable], k := Pick(g, k, t))
    case AddRunnable => s.(runq := s.runq + [at.h], k := PutOn(g, k, t))
    case UnlinkWaiter => s.(k := Unlink(g, k, t))
    case EndSignal => UnlockStep(g, s, g.lock[at.c], Free)
    case Start(u) => s.(status := s.status[u := Runnable], runq := s.runq + [u], k := Goto(k, u, Free))
    case Vanish => Switch(g, s.(status := s.status[t := Exited], k := Goto(k, t, Gone)))
  }

  // ---------------------------------------------------------------- places

  /** The current thread goes from one active point to another. */
  lemma ActiveMove(g: Config, s: State, k': Links)
    requires TypedState(g, s) && PlacesOk(g, s) && Typed(g, k') && s.cur != IDLE
    requires Active(s.k.at[s.cur]) && Active(k'.at[s.cur])
    requires forall u :: 0 <= u < g.threads && u != s.cur ==>
        k'.at[u] == s.k.at[u] || (Active(s.k.at[u]) && Active(k'.at[u]) && u != IDLE)
    ensures PlacesOk(g, s.(k := k'))
  {
    forall t | 0 <= t < g.threads ensures Place(g, s.(k := k'), t) {
      assert Place(g, s, t);
    }
  }

  /** The current thread gets a status other than RUNNING and is linked somewhere. */
  lemma BlockMove(g: Config, s: State, st: Status, at: At)
    requires TypedState(g, s) && PlacesOk(g, s) && s.cur != IDLE
    requires Active(s.k.at[s.cur]) || s.k.at[s.cur].Parked?
    requires
      || (at.Queued? && st == Waiting)
      || ((at.Parked? || at.Sleeping?) && Asleep(st))
      || (at.Gone? && st == Exited)
    ensures PlacesOk(g, s.(status := s.status[s.cur := st], k := Goto(s.k, s.cur, at)))
  {
    var s' := s.(status := s.status[s.cur := st], k := Goto(s.k, s.cur, at));
    forall t | 0 <= t < g.threads ensures Place(g, s', t) {
      assert Place(g, s, t);
    }
  }

  /** A thread that is nowhere on the way to the processor is put on the run queue. */
  lemma WakeMove(g: Config, s: State, h: nat, at: At)
    requires TypedState(g, s) && PlacesOk(g, s) && h < g.threads && h != IDLE && h != s.cur
    requires !Active(s.k.at[h]) && Active(at)
    ensures PlacesOk(g, s.(status := s.status[h := Runnable], runq := s.runq + [h], k := Goto(s.k, h, at)))
  {
    var s' := s.(status := s.status[h := Runnable], runq := s.runq + [h], k := Goto(s.k, h, at));
    assert Place(g, s, h);
    forall t | 0 <= t < g.threads ensures Place(g, s', t) {
      assert Place(g, s, t);
    }
  }

  lemma PickMove(g: Config, s: State, h: nat, c: nat, early: bool)
    requires TypedState(g, s) && PlacesOk(g, s) && h < g.threads && h != IDLE && h != s.cur
    requires s.k.at[h].Parked? || s.k.at[h].Sleeping?
    ensures PlacesOk(g, s.(status := s.status[h := Runnable], k := Goto(s.k, h, Chosen(c, early))))
  {
    var s' := s.(status := s.status[h := Runnable], k := Goto(s.k, h, Chosen(c, early)));
    forall t | 0 <= t < g.threads ensures Place(g, s', t) {
      assert Place(g, s, t);
    }
  }

  lemma SameAtPlaces(g: Config, s: State, k': Links)
    requires TypedState(g, s) && PlacesOk(g, s) && Typed(g, k') && k'.at == s.k.at
    ensures PlacesOk(g, s.(k := k'))
  {
    forall t | 0 <= t < g.threads ensures Place(g, s.(k := k'), t) {
      assert Place(g, s, t);
    }
  }

  lemma UnlockPlaces(g: Config, s: State, m: nat, at: At)
    requires TypedState(g, s) && m < g.mutexes && !s.k.at[s.cur].Queued?
    requires PlacesOk(g, s.(k := Goto(s.k, s.cur, at)))
    requires s.k.queue[m] != [] ==> s.k.queue[m][0] < g.threads && s.k.at[s.k.queue[m][0]].Queued?
    ensures PlacesOk(g, UnlockStep(g, s, m, at))
  {
    var s0 := s.(k := Goto(s.k, s.cur, at));
    var s' := UnlockStep(g, s, m, at);
    if s.k.queue[m] == [] {
      SameAtPlaces(g, s0, s'.k);
    } else {
      var h := s.k.queue[m][0];
      assert Place(g, s0, IDLE);
      WakeMove(g, s0, h, Lock(m, s.k.at[h].next));
      var s1 := s0.(status := s0.status[h := Runnable], runq := s0.runq + [h],
                    k := Goto(s0.k, h, Lock(m, s.k.at[h].next)));
      SameAtPlaces(g, s1, s'.k);
      assert s1.(k := s'.k) == s';
    }
  }

  /** Moves that involve no other thread. */
  lemma OwnMoveInv(g: Config, s: State, at: At)
    requires Inv(g, s) && CurOk(g, s) && s.cur != IDLE && QuietMove(g, s.k, s.cur, at)
    requires Active(s.k.at[s.cur]) && Active(at)
    ensures Inv(g, s.(k := Goto(s.k, s.cur, at))) && CurOk(g, s.(k := Goto(s.k, s.cur, at)))
  {
    GotoInv(g, s.k, s.cur, at);
    ActiveMove(g, s, Goto(s.k, s.cur, at));
  }

  lemma UnlockInv(g: Config, s: State, m: nat, at: At)
    requires ValidConfig(g) && TypedState(g, s) && LinksOk(g, s.k) && m < g.mutexes
    requires ReleaseMove(g, s.k, s.cur, m, at) && (Active(at) || at.Parked?)
    requires PlacesOk(g, s.(k := Goto(s.k, s.cur, at)))
    ensures s.k.queue[m] != [] ==> s.k.queue[m][0] < g.threads && s.k.at[s.k.queue[m][0]].Queued?
    ensures Inv(g, UnlockStep(g, s, m, at)) && CurOk(g, UnlockStep(g, s, m, at))
  {
    ReleaseInv(g, s.k, s.cur, m, at);
    UnlockPlaces(g, s, m, at);
    if s.k.queue[m] != [] {
      FirstQueued(g, s.k, m);
    }
  }

  lemma TryLockInv(g: Config, s: State)
    requires Inv(g, s) && CurOk(g, s) && s.k.at[s.cur].Lock?
    ensures Inv(g, Step(g, s, TryLock)) && CurOk(g, Step(g, s, TryLock))
  {
    CurrentOk(g, s);
    var t, m := s.cur, s.k.at[s.cur].m;
    if s.k.free[m] {
      AcquireInv(g, s.k, t);
      ActiveMove(g, s, Acquire(g, s.k, t));
    } else {
      EnqueueInv(g, s.k, t);
      var at := Queued(m, s.k.at[t].next);
      BlockMove(g, s, Waiting, at);
      var s0 := s.(status := s.status[t := Waiting], k := Goto(s.k, t, at));
      SameAtPlaces(g, s0, Enqueue(g, s.k, t));
      assert s0.(k := Enqueue(g, s.k, t)) == s.(status := s.status[t := Waiting], k := Enqueue(g, s.k, t));
      SwitchInv(g, s.(status := s.status[t := Waiting], k := Enqueue(g, s.k, t)));
    }
  }

  lemma UnlockStepsInv(g: Config, s: State, a: Action)
    requires Inv(g, s) && CurOk(g, s) && Enabled(g, s, a) && (a.Unlock? || a.Block?)
    ensures Inv(g, Step(g, s, a)) && CurOk(g, Step(g, s, a))
  {
    CurrentOk(g, s);
    var t, at := s.cur, s.k.at[s.cur];
    match a
    case Unlock(m) =>
      assert MutexOk(g, s.k, m);
      ActiveMove(g, s, Goto(s.k, t, Free));
      UnlockInv(g, s, m, Free);
    case Block =>
      BlockMove(g, s, at.st, Parked(at.c));
      UnlockInv(g, s.(status := s.status[t := at.st]), g.guard[at.c], Parked(at.c));
  }

  /** The unlocks of a queue mutex. */
  lemma UnlockQueueInv(g: Config, s: State, a: Action)
    requires Inv(g, s) && CurOk(g, s) && Enabled(g, s, a) && (a.UnlockQueue? || a.EndSignal?)
    ensures Inv(g, Step(g, s, a)) && CurOk(g, Step(g, s, a))
  {
    CurrentOk(g, s);
    var t, at := s.cur, s.k.at[s.cur];
    match a
    case UnlockQueue =>
      ActiveMove(g, s, Goto(s.k, t, Blocking(at.c, at.st)));
      UnlockInv(g, s, g.lock[at.c], Blocking(at.c, at.st));
    case EndSignal =>
      ActiveMove(g, s, Goto(s.k, t, Free));
      UnlockInv(g, s, g.lock[at.c], Free);
  }

  lemma SwitchAwayInv(g: Config, s: State)
    requires Inv(g, s) && CurOk(g, s) && (s.k.at[s.cur].Parked? || s.k.at[s.cur].Woken?)
    ensures Inv(g, Step(g, s, SwitchAway)) && CurOk(g, Step(g, s, SwitchAway))
  {
    CurrentOk(g, s);
    var t, at := s.cur, s.k.at[s.cur];
    if at.Parked? {
      GotoInv(g, s.k, t, Sleeping(at.c));
      BlockMove(g, s, s.status[t], Sleeping(at.c));
      assert s.status[t := s.status[t]] == s.status;
      SwitchInv(g, s.(k := Goto(s.k, t, Sleeping(at.c))));
    } else {
      OwnMoveInv(g, s, Lock(g.guard[at.c], WaitDone(at.c)));
      SwitchInv(g, s.(k := Goto(s.k, t, Lock(g.guard[at.c], WaitDone(at.c)))));
    }
  }

  lemma TakeInv(g: Config, s: State)
    requires Inv(g, s) && CurOk(g, s) && s.k.at[s.cur].Taking?
    ensures Inv(g, Step(g, s, TakeWaiter)) && CurOk(g, Step(g, s, TakeWaiter))
  {
    CurrentOk(g, s);
    var t, c := s.cur, s.k.at[s.cur].c;
    if s.k.waiting[c] == [] {
      OwnMoveInv(g, s, Leaving(c));
    } else {
      HeadIsBlocked(g, s.k, t);
      PickInv(g, s.k, t);
      var h := s.k.waiting[c][0];
      PickMove(g, s, h, c, s.k.at[h].Parked?);
      var s0 := s.(status := s.status[h := Runnable], k := Goto(s.k, h, Chosen(c, s.k.at[h].Parked?)));
      ActiveMove(g, s0, Pick(g, s.k, t));
      assert s0.(k := Pick(g, s.k, t)) == Step(g, s, TakeWaiter);
    }
  }

  lemma AddInv(g: Config, s: State)
    requires Inv(g, s) && CurOk(g, s) && s.k.at[s.cur].Adding?
    ensures Inv(g, Step(g, s, AddRunnable)) && CurOk(g, Step(g, s, AddRunnable))
  {
    CurrentOk(g, s);
    var t, h := s.cur, s.k.at[s.cur].h;
    PutOnInv(g, s.k, t);
    var k' := PutOn(g, s.k, t);
    assert Place(g, s, h);
    WakeMove(g, s, h, k'.at[h]);
    assert s.status[h := Runnable] == s.status;
    var s0 := s.(runq := s.runq + [h], k := Goto(s.k, h, k'.at[h]));
    ActiveMove(g, s0, k');
    assert s0.(k := k') == Step(g, s, AddRunnable);
  }

  lemma BeginInv(g: Config, s: State, a: Action)
    requires Inv(g, s) && CurOk(g, s) && Enabled(g, s, a) && (a.BeginLock? || a.BeginWait? || a.BeginSignal?)
    ensures Inv(g, Step(g, s, a)) && CurOk(g, Step(g, s, a))
  {
    CurrentOk(g, s);
    match a
    case BeginLock(m) => OwnMoveInv(g, s, Lock(m, Client));
    case BeginWait(c, st) =>
      assert MutexOk(g, s.k, g.guard[c]);
      OwnMoveInv(g, s, Lock(g.lock[c], WaitLink(c, st)));
    case BeginSignal(c, all) =>
      assert MutexOk(g, s.k, g.guard[c]);
      OwnMoveInv(g, s, Lock(g.lock[c], SignalTake(c, all)));
  }

  lemma QueueStepInv(g: Config, s: State, a: Action)
    requires Inv(g, s) && CurOk(g, s) && Enabled(g, s, a) && (a.AddWaiter? || a.UnlinkWaiter?)
    ensures Inv(g, Step(g, s, a)) && CurOk(g, Step(g, s, a))
  {
    CurrentOk(g, s);
    match a
    case AddWaiter =>
      EnlistInv(g, s.k, s.cur);
      ActiveMove(g, s, Enlist(g, s.k, s.cur));
    case UnlinkWaiter =>
      UnlinkInv(g, s.k, s.cur);
      ActiveMove(g, s, Unlink(g, s.k, s.cur));
  }

  lemma LifeInv(g: Config, s: State, a: Action)
    requires Inv(g, s) && CurOk(g, s) && Enabled(g, s, a) && (a.Start? || a.Vanish?)
    ensures Inv(g, Step(g, s, a)) && CurOk(g, Step(g, s, a))
  {
    CurrentOk(g, s);
    match a
    case Start(u) =>
      assert Place(g, s, IDLE);
      GotoInv(g, s.k, u, Free);
      WakeMove(g, s, u, Free);
    case Vanish =>
      GotoInv(g, s.k, s.cur, Gone);
      BlockMove(g, s, Exited, Gone);
      SwitchInv(g, s.(status := s.status[s.cur := Exited], k := Goto(s.k, s.cur, Gone)));
  }

  /** Every step keeps the invariant. */
  lemma StepInv(g: Config, s: State, a: Action)
    requires Inv(g, s) && CurOk(g, s) && Enabled(g, s, a)
    ensures Inv(g, Step(g, s, a)) && CurOk(g, Step(g, s, a))
  {
    match a
    case Timer => SwitchInv(g, s);
    case TryLock => TryLockInv(g, s);
    case SwitchAway => SwitchAwayInv(g, s);
    case TakeWaiter => TakeInv(g, s);
    case AddRunnable => AddInv(g, s);
    case Unlock(_) => UnlockStepsInv(g, s, a);
    case UnlockQueue => UnlockQueueInv(g, s, a);
    case Block => UnlockStepsInv(g, s, a);
    case EndSignal => UnlockQueueInv(g, s, a);
    case Start(_) => LifeInv(g, s, a);
    case Vanish => LifeInv(g, s, a);
    case BeginLock(_) => BeginInv(g, s, a);
    case BeginWait(_, _) => BeginInv(g, s, a);
    case BeginSignal(_, _) => BeginInv(g, s, a);
    case AddWaiter => QueueStepInv(g, s, a);
    case UnlinkWaiter => QueueStepInv(g, s, a);
  }

  // ---------------------------------------------------------------- every run

  /** At boot the idle thread runs, no other thread has been started and every mutex is free. */
  function Initial(g: Config): State
    requires ValidConfig(g)
  {
    State(IDLE, seq(g.threads, _ => Runnable), [],
      Links(seq(g.threads, t => if t == IDLE then Free else Unborn), seq(g.mutexes, _ => true),
        seq(g.mutexes, _ => []), seq(|g.lock|, _ => []), seq(g.mutexes, _ => {}), seq(g.mutexes, _ => {})))
  }

  lemma InitialInv(g: Config)
    requires ValidConfig(g)
    ensures Inv(g, Initial(g)) && CurOk(g, Initial(g))
  {
    var s := Initial(g);
    forall t | 0 <= t < g.threads ensures Place(g, s, t) && Holding(g, s.k, t) {
    }
  }

  /** Any interleaving: the actions in order, those that are not enabled left out. */
  function Run(g: Config, s: State, actions: seq<Action>): (r: State)
    requires Inv(g, s) && CurOk(g, s)
    ensures Inv(g, r) && CurOk(g, r)
    decreases |actions|
  {
    if actions == [] then s
    else if Enabled(g, s, actions[0]) then
      StepInv(g, s, actions[0]);
      Run(g, Step(g, s, actions[0]), actions[1..])
    else Run(g, s, actions[1..])
  }

  function Reached(g: Config, actions: seq<Action>): (r: State)
    requires ValidConfig(g)
    ensures Inv(g, r) && CurOk(g, r)
  {
    InitialInv(g);
    Run(g, Initial(g), actions)
  }

  /** Over every run, a mutex has at most one holder, and it is free exactly when it has none. */
  lemma MutualExclusion(g: Config, actions: seq<Action>, m: nat, t: nat, u: nat)
    requires ValidConfig(g) && m < g.mutexes
    ensures var k := Reached(g, actions).k;
      && (k.free[m] <==> k.holders[m] == {})
      && (t in k.holders[m] && u in k.holders[m] ==> t == u)
  {
    assert MutexOk(g, Reached(g, actions).k, m);
  }

  predicate HasProcessor(s: State, t: nat) {
    t == s.cur && t < |s.status| && s.status[t] == Running
  }

  predicate InMutexQueue(s: State, t: nat) {
    exists m :: 0 <= m < |s.k.queue| && t in s.k.queue[m]
  }

  /** Linked on a condition variable, asleep, and no signaller has taken it yet. */
  predicate AsleepOnCond(s: State, t: nat) {
    && t < |s.status| && Asleep(s.status[t])
    && (exists c :: 0 <= c < |s.k.waiting| && t in s.k.waiting[c])
    && (forall u :: 0 <= u < |s.k.at| && s.k.at[u].Unlinking? ==> s.k.at[u].h != t)
  }

  /** A signaller has set the thread's status and is about to put it on the run queue. */
  predicate InHand(s: State, t: nat) {
    exists u :: 0 <= u < |s.k.at| && s.k.at[u].Adding? && s.k.at[u].h == t
  }

  function Count(b: bool): nat {
    if b then 1 else 0
  }

  lemma QueueMeansQueued(g: Config, s: State, t: nat)
    requires Inv(g, s) && t < g.threads
    ensures InMutexQueue(s, t) <==> s.k.at[t].Queued?
  {
    if s.k.at[t].Queued? {
      assert Holding(g, s.k, t);
      assert QueueOk(g, s.k, s.k.at[t].m);
      assert t in s.k.queue[s.k.at[t].m];
    }
    forall m | 0 <= m < |s.k.queue| && t in s.k.queue[m] ensures s.k.at[t].Queued? {
      assert QueueOk(g, s.k, m);
    }
  }

  lemma AsleepMeansWaiting(g: Config, s: State, t: nat)
    requires Inv(g, s) && t < g.threads && t != IDLE
    ensures AsleepOnCond(s, t) <==> s.k.at[t].Parked? || s.k.at[t].Sleeping?
  {
    assert Place(g, s, t) && Holding(g, s.k, t);
    if s.k.at[t].Parked? || s.k.at[t].Sleeping? {
      assert CondQueueOk(g, s.k, s.k.at[t].c);
      assert t in s.k.waiting[s.k.at[t].c];
      forall u | 0 <= u < g.threads && s.k.at[u].Unlinking? ensures s.k.at[u].h != t {
        assert SignalOk(g, s.k, u);
      }
    } else if AsleepOnCond(s, t) {
      var c :| 0 <= c < |s.k.waiting| && t in s.k.waiting[c];
      assert CondQueueOk(g, s.k, c);
      var u := Signaller(g, s.k, c, t);
    }
  }

  lemma Signaller(g: Config, k: Links, c: nat, t: nat) returns (u: nat)
    requires ValidConfig(g) && Typed(g, k) && LinksOk(g, k) && c < |g.lock| && t < g.threads
    requires t in k.waiting[c] && (k.at[t].Chosen? || WokenPhase(k.at[t]))
    ensures u in k.holders[g.lock[c]] && u in k.holders[g.guard[c]] && u < g.threads && u != t
    ensures if k.at[t].Chosen? then k.at[u].Adding? && k.at[u].h == t else k.at[u].Unlinking? && k.at[u].h == t
  {
    assert CondQueueOk(g, k, c);
    assert TakenBy(g, k, c, t);
    u :| u in k.holders[g.lock[c]];
    assert MutexOk(g, k, g.lock[c]);
    assert Holding(g, k, u);
  }

  lemma InHandMeansChosen(g: Config, s: State, t: nat)
    requires Inv(g, s) && t < g.threads
    ensures InHand(s, t) <==> s.k.at[t].Chosen?
  {
    forall u | 0 <= u < |s.k.at| && s.k.at[u].Adding? && s.k.at[u].h == t ensures s.k.at[t].Chosen? {
      assert Holding(g, s.k, u) && SignalOk(g, s.k, u);
    }
    if s.k.at[t].Chosen? {
      assert Holding(g, s.k, t);
      var c := s.k.at[t].c;
      assert CondQueueOk(g, s.k, c);
      var u := Signaller(g, s.k, c, t);
    }
  }

  /**
    Over every run, each started thread other than idle is in exactly one place: running, on
    the run queue, in a mutex queue, asleep on a condition variable, or in the hand of a
    signaller.  No queue links a thread twice.
   */
  lemma OnePlace(g: Config, actions: seq<Action>, t: nat)
    requires ValidConfig(g) && 0 < t < g.threads
    ensures var s := Reached(g, actions);
      !s.k.at[t].Unborn? && !s.k.at[t].Gone? ==>
        Count(HasProcessor(s, t)) + Count(t in s.runq) + Count(InMutexQueue(s, t)) + Count(AsleepOnCond(s, t))
          + Count(InHand(s, t)) == 1
  {
    var s := Reached(g, actions);
    assert Place(g, s, t);
    QueueMeansQueued(g, s, t);
    AsleepMeansWaiting(g, s, t);
    InHandMeansChosen(g, s, t);
  }

  lemma NoDoubleLink(g: Config, actions: seq<Action>, m: nat, n: nat, t: nat)
    requires ValidConfig(g) && m < g.mutexes && n < g.mutexes
    ensures var s := Reached(g, actions);
      && NoDup(s.runq) && NoDup(s.k.queue[m])
      && (t in s.k.queue[m] && t in s.k.queue[n] ==> m == n)
  {
    var s := Reached(g, actions);
    assert QueueOk(g, s.k, m) && QueueOk(g, s.k, n);
  }

  /** The same for condition variables. */
  lemma NoDoubleWait(g: Config, actions: seq<Action>, c: nat, d: nat, t: nat)
    requires ValidConfig(g) && c < |g.lock| && d < |g.lock|
    ensures var s := Reached(g, actions);
      NoDup(s.k.waiting[c]) && (t in s.k.waiting[c] && t in s.k.waiting[d] ==> c == d)
  {
    var s := Reached(g, actions);
    assert CondQueueOk(g, s.k, c) && CondQueueOk(g, s.k, d);
  }

  /**
    Over every run, no wake-up of a mutex is lost: while threads wait for it, it is held, or a
    thread woken from its queue is running or runnable and about to test it again.
   */
  lemma NoLostWakeup(g: Config, actions: seq<Action>, m: nat)
    requires ValidConfig(g) && m < g.mutexes && Reached(g, actions).k.queue[m] != []
    ensures var s := Reached(g, actions);
      || s.k.holders[m] != {}
      || exists t :: t in s.k.retrying[m] && t < g.threads && s.k.at[t].Lock? && s.k.at[t].m == m
            && (HasProcessor(s, t) || t in s.runq)
  {
    var s := Reached(g, actions);
    assert MutexOk(g, s.k, m) && WakeOk(g, s.k, m);
    if s.k.free[m] {
      var t :| t in s.k.retrying[m];
      assert Place(g, s, t);
    }
  }

  /**
    Over every run, a thread that is linked on a condition variable while it runs or is on the
    run queue has the associated mutex held, by itself or by its signaller.
   */
  lemma LinkedAndActiveHeld(g: Config, actions: seq<Action>, c: nat, t: nat)
    requires ValidConfig(g) && c < |g.lock|
    requires var s := Reached(g, actions); t in s.k.waiting[c] && (HasProcessor(s, t) || t in s.runq)
    ensures Reached(g, actions).k.holders[g.guard[c]] != {}
  {
    var s := Reached(g, actions);
    assert CondQueueOk(g, s.k, c);
    assert Place(g, s, t) && Holding(g, s.k, t);
    if WokenPhase(s.k.at[t]) {
      var u := Signaller(g, s.k, c, t);
    } else if s.k.at[t].Linked? {
      assert GuardPhase(s.k.at[t]) == c;
    }
  }

  /**
    Over every run, cond_signal and mutex_unlock only ever add a thread to the run queue that is not on it
    and not running.
   */
  lemma NeverAddedTwice(g: Config, actions: seq<Action>, m: nat)
    requires ValidConfig(g) && m < g.mutexes
    ensures var s := Reached(g, actions);
      && (s.k.at[s.cur].Adding? ==> s.k.at[s.cur].h !in s.runq && s.k.at[s.cur].h != s.cur)
      && (s.k.queue[m] != [] ==> s.k.queue[m][0] !in s.runq && s.k.queue[m][0] != s.cur)
  {
    var s := Reached(g, actions);
    CurrentOk(g, s);
    if s.k.at[s.cur].Adding? {
      assert Place(g, s, s.k.at[s.cur].h);
    }
    if s.k.queue[m] != [] {
      assert Place(g, s, s.k.queue[m][0]);
    }
  }

  /** A thread asleep in cond_wait stays linked until a signaller takes it, so no later signal misses it. */
  lemma SleeperIsLinked(g: Config, actions: seq<Action>, t: nat)
    requires ValidConfig(g) && t < g.threads
    requires var at := Reached(g, actions).k.at[t]; at.Blocking? || at.Parked? || at.Sleeping?
    ensures var k := Reached(g, actions).k; k.at[t].c < |g.lock| && t in k.waiting[k.at[t].c]
  {
    var k := Reached(g, actions).k;
    assert Holding(g, k, t);
    assert CondQueueOk(g, k, k.at[t].c);
  }
}
