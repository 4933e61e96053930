/**
  The steps of the scheduler model as the kernel carries them out: assignments to the status of
  threads, to the run queue and to the queues of mutexes and condition variables. What the kernel
  does not store, such as who holds a mutex, is ghost.
 */
module Processor {
  import opened Scheduler

  /** The thread at the head of a condition variable's queue is not on the run queue. */
  lemma HeadOffQueue(g: Config, s: State)
    requires Inv(g, s) && s.k.at[s.cur].Taking? && s.k.at[s.cur].c < |g.lock| && s.k.waiting[s.k.at[s.cur].c] != []
    ensures var h := s.k.waiting[s.k.at[s.cur].c][0]; h < g.threads && h != s.cur && h !in s.runq
  {
    HeadIsBlocked(g, s.k, s.cur);
    assert Place(g, s, s.k.waiting[s.k.at[s.cur].c][0]);
  }

  class Machine {
    const g: Config
    var cur: nat
    var status: seq<Status>
    var runq: seq<nat>
    var free: seq<bool>
    var queue: seq<seq<nat>>
    var waiting: seq<seq<nat>>
    ghost var at: seq<At>
    ghost var holders: seq<set<nat>>
    ghost var retrying: seq<set<nat>>

    ghost function Now(): State
      reads this
    {
      State(cur, status, runq, Links(at, free, queue, waiting, holders, retrying))
    }

    ghost predicate Valid()
      reads this
    {
      Inv(g, Now()) && CurOk(g, Now())
    }

    constructor (g: Config)
      requires ValidConfig(g)
      ensures this.g == g && Valid() && Now() == Initial(g)
    {
      this.g := g;
      cur, status, runq := IDLE, seq(g.threads, _ => Runnable), [];
      free, queue, waiting := seq(g.mutexes, _ => true), seq(g.mutexes, _ => []), seq(|g.lock|, _ => []);
      at := seq(g.threads, t => if t == IDLE then Free else Unborn);
      holders, retrying := seq(g.mutexes, _ => {}), seq(g.mutexes, _ => {});
      InitialInv(g);
    }

    /** `context_switch` with `next_thread` and `runq_get_head`. */
    method ContextSwitch()
      requires TypedState(g, Now()) && forall t :: t in runq ==> t < g.threads
      modifies this
      ensures Now() == Switch(g, old(Now()))
    {
      var next;
      if runq == [] {
        if cur == IDLE || status[cur] == Running {
          return;
        }
        next := IDLE;
      } else {
        next := runq[0];
        assert next in runq;
        runq := runq[1..];
      }
      if status[cur] == Running && cur != IDLE {
        status := status[cur := Runnable];
        runq := runq + [cur];
      }
      status := status[next := Running];
      cur := next;
    }

    /** A timer interrupt. */
    method Timer()
      requires Valid()
      modifies this
      ensures Valid() && Now() == Step(g, old(Now()), Action.Timer)
    {
      StepInv(g, Now(), Action.Timer);
      ContextSwitch();
    }

    /** One turn of the loop of `mutex_lock`. */
    method TryLock(m: nat) returns (locked: bool)
      requires Valid() && at[cur].Lock? && at[cur].m == m
      modifies this
      ensures Valid() && Now() == Step(g, old(Now()), Action.TryLock) && locked == old(free[m])
      ensures locked ==> holders[m] == {cur} && cur == old(cur)
    {
      StepInv(g, Now(), Action.TryLock);
      CurrentOk(g, Now());
      assert MutexOk(g, Now().k, m);
      locked := free[m];
      if locked {
        Take(m);
      } else {
        Queue(m);
        ContextSwitch();
      }
    }

    /** The mutex is free: mutex_lock returns. */
    method Take(m: nat)
      requires TypedState(g, Now()) && at[cur].Lock? && at[cur].m == m < g.mutexes
      modifies this
      ensures Now() == old(Now()).(k := Acquire(g, old(Now()).k, old(cur)))
    {
      free := free[m := false];
      holders, retrying := holders[m := holders[m] + {cur}], retrying[m := retrying[m] - {cur}];
      at := at[cur := Scheduler.Resume(at[cur].next)];
    }

    /** The mutex is taken: the thread is linked in its queue. */
    method Queue(m: nat)
      requires TypedState(g, Now()) && at[cur].Lock? && at[cur].m == m < g.mutexes
      modifies this
      ensures Now() == old(Now()).(status := old(status)[old(cur) := Waiting], k := Enqueue(g, old(Now()).k, old(cur)))
    {
      status := status[cur := Waiting];
      queue := queue[m := queue[m] + [cur]];
      retrying := retrying[m := retrying[m] - {cur}];
      at := at[cur := Queued(m, at[cur].next)];
    }

    /** `mutex_unlock` and `mutex_unlock_int_save`. */
    method MutexUnlock(m: nat, ghost onward: At)
      requires TypedState(g, Now()) && m < g.mutexes
      requires queue[m] != [] ==> queue[m][0] < g.threads && at[queue[m][0]].Queued?
      modifies this
      ensures Now() == UnlockStep(g, old(Now()), m, onward)
    {
      ghost var was := at;
      at := at[cur := onward];
      holders := holders[m := holders[m] - {cur}];
      if queue[m] != [] {
        var h := queue[m][0];
        status := status[h := Runnable];
        runq := runq + [h];
        queue := queue[m := queue[m][1..]];
        retrying := retrying[m := retrying[m] + {h}];
        at := at[h := Lock(m, was[h].next)];
      }
      free := free[m := true];
    }

    /** A client unlocks a mutex it holds. */
    method Unlock(m: nat)
      requires Valid() && Enabled(g, Now(), Action.Unlock(m))
      modifies this
      ensures Valid() && Now() == Step(g, old(Now()), Action.Unlock(m))
    {
      StepInv(g, Now(), Action.Unlock(m));
      CurrentOk(g, Now());
      MutexUnlock(m, Free);
    }

    /** `cond_wait` links the thread, with the queue mutex held. */
    method AddWaiter(c: nat)
      requires Valid() && at[cur].Linking? && at[cur].c == c
      modifies this
      ensures Valid() && Now() == Step(g, old(Now()), Action.AddWaiter)
    {
      StepInv(g, Now(), Action.AddWaiter);
      CurrentOk(g, Now());
      waiting := waiting[c := waiting[c] + [cur]];
      at := at[cur := Linked(c, at[cur].st)];
    }

    /** `cond_wait` sets the status of the thread and unlocks the caller's mutex, with interrupts disabled. */
    method Block(c: nat, st: Status)
      requires Valid() && at[cur] == Blocking(c, st)
      modifies this
      ensures Valid() && Now() == Step(g, old(Now()), Action.Block)
    {
      StepInv(g, Now(), Action.Block);
      CurrentOk(g, Now());
      status := status[cur := st];
      MutexUnlock(g.guard[c], Parked(c));
    }

    /** The head of the queue of c gets its status in `cond_signal` or `cond_broadcast`. */
    method TakeWaiter(c: nat) returns (found: bool, h: nat)
      requires Valid() && at[cur].Taking? && at[cur].c == c
      modifies this
      ensures Valid() && Now() == Step(g, old(Now()), Action.TakeWaiter)
      ensures found <==> old(waiting[c]) != []
      ensures found ==> h == old(waiting[c][0]) && h < g.threads && h !in runq && status[h] == Runnable
      ensures found ==> at[cur].Adding? && at[cur].h == h
    {
      ghost var s := Now();
      StepInv(g, s, Action.TakeWaiter);
      CurrentOk(g, s);
      found, h := waiting[c] != [], 0;
      if found {
        h := waiting[c][0];
        HeadOffQueue(g, Now());
        PickHead(c, h);
      } else {
        at := at[cur := Leaving(c)];
      }
    }

    method PickHead(c: nat, h: nat)
      requires TypedState(g, Now()) && at[cur].Taking? && at[cur].c == c < |g.lock|
      requires waiting[c] != [] && waiting[c][0] == h < g.threads && h != cur
      modifies this
      ensures Now() == old(Now()).(status := old(status)[h := Runnable], k := Pick(g, old(Now()).k, old(cur)))
      ensures |at| == |status| == g.threads && cur < g.threads && at[cur].Adding? && at[cur].h == h
    {
      status := status[h := Runnable];
      at := at[h := Chosen(c, at[h].Parked?)][cur := Adding(c, h, at[cur].all)];
    }

    /** `runq_add_thread` on the thread that was taken. */
    method AddRunnable(h: nat)
      requires Valid() && at[cur].Adding? && at[cur].h == h
      modifies this
      ensures Valid() && Now() == Step(g, old(Now()), Action.AddRunnable)
    {
      StepInv(g, Now(), Action.AddRunnable);
      CurrentOk(g, Now());
      PutOnQueue(h);
    }

    method PutOnQueue(h: nat)
      requires TypedState(g, Now()) && at[cur].Adding? && at[cur].h == h < g.threads && at[cur].c < |g.lock|
      requires at[h].Chosen?
      modifies this
      ensures Now() == old(Now()).(runq := old(runq) + [h], k := PutOn(g, old(Now()).k, old(cur)))
    {
      runq := runq + [h];
      ghost var c := at[cur].c;
      at := at[h := if at[h].early then Woken(c) else Lock(g.guard[c], WaitDone(c))]
              [cur := Unlinking(c, h, at[cur].all)];
    }

    /** `del_entry` on the thread that was taken. */
    method UnlinkWaiter(c: nat, h: nat)
      requires Valid() && at[cur].Unlinking? && at[cur].c == c && at[cur].h == h
      modifies this
      ensures Valid() && Now() == Step(g, old(Now()), Action.UnlinkWaiter)
    {
      StepInv(g, Now(), Action.UnlinkWaiter);
      CurrentOk(g, Now());
      DelEntry(c, h);
    }

    method DelEntry(c: nat, h: nat)
      requires TypedState(g, Now()) && at[cur].Unlinking? && at[cur].c == c < |g.lock| && at[cur].h == h
      modifies this
      ensures Now() == old(Now()).(k := Unlink(g, old(Now()).k, old(cur)))
    {
      waiting := waiting[c := Delete(waiting[c], h)];
      at := at[cur := if at[cur].all then Taking(c, true) else Leaving(c)];
    }
  }
}
