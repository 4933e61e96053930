/**
  Memory as a program knows it: what a read returns, told by the stores that were answered before it and by
  which pages the page tables map, without any account of what a store does (kern/vm/vm.c:267-444,
  kern/interrupts/fault_handlers.c:70-77).
 */
module MemoryHistory {
  import opened CopyOnWrite
  import opened EagerCopy
  import opened Options
  import opened PageTables
  import opened Traces

  /** The page tables of task t map the page. */
  predicate Mapped(s: Snapshot, t: nat, page: nat) {
    var d := DirOf(s.tasks, t);
    WellFormed(d) && page < PAGES && Lookup(d, page).Present?
  }

  /**
    The byte last stored there before request i, since the page was mapped; a task has the stores of its
    parent up to the fork, and a page starts out with zeros.
   */
  function LastStored(replies: seq<Reply>, trace: seq<Snapshot>, i: nat, t: nat, page: nat, offset: nat): bv8
    requires i <= |replies| < |trace|
    decreases i
  {
    if i == 0 then 0
    else
      var e, s := replies[i - 1].event, trace[i - 1];
      if e.Stored? && e.task == t && e.page == page && e.offset == offset then e.byte
      else if e.Forked? && t == |s.tasks| then LastStored(replies, trace, i - 1, e.task, page, offset)
      else if Mapped(s, t, page) then LastStored(replies, trace, i - 1, t, page, offset)
      else 0
  }

  lemma MappedMeans(s: Snapshot, t: nat, page: nat)
    requires Sound(s.tasks)
    ensures Mapped(s, t, page) <==> HasPage(MeaningAt(s), t, page)
  {
    if t < |s.tasks| {
      assert MeaningAt(s)[t] == MeaningOf(s.tasks[t], s.mem);
    }
  }

  lemma {:induction false} TraceSized(rs: seq<Request>, replies: seq<Reply>, trace: seq<Snapshot>, i: nat)
    requires Traced(Answered, rs, replies, trace) && i <= |rs| && trace[0].tasks == []
    ensures Sound(trace[i].tasks) && AllSized(MeaningAt(trace[i]))
    decreases i
  {
    if i > 0 {
      TraceSized(rs, replies, trace, i - 1);
      TraceStep(rs, replies, trace, i - 1);
      StepSized(MeaningAt(trace[i - 1]), replies[i - 1].event);
    }
  }

  /** The memory that the page tables denote before request i holds what was stored last. */
  lemma {:induction false} HoldsLastStored(rs: seq<Request>, replies: seq<Reply>, trace: seq<Snapshot>, i: nat,
                                           t: nat, page: nat, offset: nat)
    requires Traced(Answered, rs, replies, trace) && i <= |rs| && trace[0].tasks == []
    requires Sound(trace[i].tasks) && HasPage(MeaningAt(trace[i]), t, page) && offset < PAGE_SIZE
    ensures AllSized(MeaningAt(trace[i]))
    ensures MeaningAt(trace[i])[t].space[page].bytes[offset] == LastStored(replies, trace, i, t, page, offset)
    decreases i
  {
    TraceSized(rs, replies, trace, i);
    if i > 0 {
      var k := i - 1;
      var m, e := MeaningAt(trace[k]), replies[k].event;
      TraceSized(rs, replies, trace, k);
      TraceStep(rs, replies, trace, k);
      StepByte(m, e, t, page, offset);
      MappedMeans(trace[k], t, page);
      if e.Forked? && t == |m| {
        HoldsLastStored(rs, replies, trace, k, e.task, page, offset);
      } else if HasPage(m, t, page) {
        HoldsLastStored(rs, replies, trace, k, t, page, offset);
      }
    }
  }

  /**
    Over every run from boot, a read by a task that lives returns the byte last stored there, and faults
    exactly if the page is not mapped.
   */
  lemma ReadsLastStored(rs: seq<Request>, replies: seq<Reply>, trace: seq<Snapshot>, i: nat)
    requires Traced(Answered, rs, replies, trace) && i < |rs| && trace[0].tasks == []
    requires rs[i].ReadByte? && InRange(rs[i]) && rs[i].task < |trace[i].tasks| && trace[i].tasks[rs[i].task].Alive?
    ensures var t, page, offset := rs[i].task, rs[i].page, rs[i].offset;
      replies[i].byte ==
        if Mapped(trace[i], t, page) then Some(LastStored(replies, trace, i, t, page, offset)) else None
  {
    var t, page, offset := rs[i].task, rs[i].page, rs[i].offset;
    TraceSized(rs, replies, trace, i);
    MappedMeans(trace[i], t, page);
    assert Answered(trace[i], rs[i], replies[i], trace[i + 1]);
    assert MeaningAt(trace[i])[t] == MeaningOf(trace[i].tasks[t], trace[i].mem);
    if Mapped(trace[i], t, page) {
      HoldsLastStored(rs, replies, trace, i, t, page, offset);
    }
  }

  // ---------------------------------------------------------------- which tasks there are

  /** How many tasks were made before request i. */
  function Made(replies: seq<Reply>, i: nat): nat
    requires i <= |replies|
  {
    if i == 0 then 0
    else Made(replies, i - 1) + if replies[i - 1].event.Created? || replies[i - 1].event.Forked? then 1 else 0
  }

  /** Task t has exited before request i. */
  predicate HasExited(replies: seq<Reply>, i: nat, t: nat)
    requires i <= |replies|
  {
    exists j :: 0 <= j < i && replies[j].event == Exited(t)
  }

  lemma StepTasks(m: Machine, e: Event, t: nat)
    requires Enabled(m, e)
    ensures |Step(m, e)| == |m| + if e.Created? || e.Forked? then 1 else 0
    ensures IsRunning(Step(m, e), t) <==>
      e != Exited(t) && (IsRunning(m, t) || (t == |m| && (e.Created? || e.Forked?)))
  {
  }

  /**
    Over every run from boot: the tasks that live are those that create and fork have made and that have not
    exited.
   */
  lemma {:induction false} TasksExact(rs: seq<Request>, replies: seq<Reply>, trace: seq<Snapshot>, i: nat, t: nat)
    requires Traced(Answered, rs, replies, trace) && i <= |rs| && trace[0].tasks == []
    ensures |trace[i].tasks| == Made(replies, i)
    ensures IsAlive(trace[i], t) <==> t < Made(replies, i) && !HasExited(replies, i, t)
    decreases i
  {
    if i > 0 {
      var k := i - 1;
      TasksExact(rs, replies, trace, k, t);
      TasksNext(rs, replies, trace, k, t);
      ExitedMore(replies, k, t);
      if t >= Made(replies, k) {
        NotExitedYet(rs, replies, trace, k, t);
      }
    }
  }

  predicate IsAlive(s: Snapshot, t: nat) {
    t < |s.tasks| && s.tasks[t].Alive?
  }

  lemma TasksNext(rs: seq<Request>, replies: seq<Reply>, trace: seq<Snapshot>, k: nat, t: nat)
    requires Traced(Answered, rs, replies, trace) && k < |rs|
    ensures var e, s, s' := replies[k].event, trace[k], trace[k + 1]; var made := e.Created? || e.Forked?;
      && |s'.tasks| == |s.tasks| + (if made then 1 else 0)
      && (IsAlive(s', t) <==> e != Exited(t) && (IsAlive(s, t) || (t == |s.tasks| && made)))
      && (e == Exited(t) ==> IsAlive(s, t))
  {
    TraceStep(rs, replies, trace, k);
    StepTasks(MeaningAt(trace[k]), replies[k].event, t);
    RunningMeans(trace[k], t);
    RunningMeans(trace[k + 1], t);
  }

  lemma RunningMeans(s: Snapshot, t: nat)
    requires Sound(s.tasks)
    ensures IsRunning(MeaningAt(s), t) <==> IsAlive(s, t)
  {
    if t < |s.tasks| {
      assert MeaningAt(s)[t] == MeaningOf(s.tasks[t], s.mem);
    }
  }

  lemma ExitedMore(replies: seq<Reply>, k: nat, t: nat)
    requires k < |replies|
    ensures HasExited(replies, k + 1, t) <==> HasExited(replies, k, t) || replies[k].event == Exited(t)
  {
  }

  /** Only a task that was made can have exited. */
  lemma {:induction false} NotExitedYet(rs: seq<Request>, replies: seq<Reply>, trace: seq<Snapshot>, i: nat, t: nat)
    requires Traced(Answered, rs, replies, trace) && i <= |rs| && trace[0].tasks == [] && t >= Made(replies, i)
    ensures !HasExited(replies, i, t)
    decreases i
  {
    if i > 0 {
      var k := i - 1;
      NotExitedYet(rs, replies, trace, k, t);
      ExitedMore(replies, k, t);
      TasksExact(rs, replies, trace, k, t);
      TasksNext(rs, replies, trace, k, t);
    }
  }
}
