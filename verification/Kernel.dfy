/**
  The steps of the scheduler, of signals and of mutexes: each runs to completion, as the original's does with
  interrupts disabled, and a run is any interleaving of them. A panic of the original is an `assert false`.
 */
module Kernel {
  import opened IntrusiveList
  import opened KernelState
  import opened QueueMoves
  import opened PlainKernel

  /** The table, the queues and the counters agree with each other. */
  ghost predicate Tables(tasks: seq<Task>, queues: seq<seq<nat>>, count: int, pcount: int, nm: nat) {
    |tasks| == 64 && |queues| >= 64 + nm && Queues(tasks, queues) && Counted(tasks, count, pcount)
  }

  /** A task that task_resume may be given: in order, or asleep and possibly already taken off its queue. */
  predicate Resumable(t: Task, current: bool, nm: nat) {
    if t.paused == Running then TaskOk(t, current, nm)
    else !current && TaskOk(t.(paused := Running, queue := 0), false, nm) && (t.queue == -1 || t.queue >= 64)
  }

  lemma TablesUpdate(tasks: seq<Task>, queues: seq<seq<nat>>, count: int, pcount: int, nm: nat, t: nat, x: Task)
    requires Tables(tasks, queues, count, pcount, nm) && t < 64 && x.queue == tasks[t].queue
    ensures Tables(tasks[t := x], queues,
                   count + (if x.Live() then 1 else 0) - (if tasks[t].Live() then 1 else 0),
                   pcount + (if x.paused != Running then 1 else 0) - (if tasks[t].paused != Running then 1 else 0), nm)
  {
    hide Queues, Counted;
    QueuesSame(tasks, queues, t, x);
    CountedUpdate(tasks, count, pcount, t, x);
  }

  lemma TablesInsert(tasks: seq<Task>, queues: seq<seq<nat>>, count: int, pcount: int, nm: nat, t: nat, q: nat)
    requires Tables(tasks, queues, count, pcount, nm) && t < 64 && q < |queues| && tasks[t].queue == -1
    ensures Tables(tasks[t := tasks[t].(queue := q)], queues[q := queues[q] + [t]], count, pcount, nm)
  {
    hide Queues, Counted;
    InsertKeeps(tasks, queues, t, q);
    CountedUpdate(tasks, count, pcount, t, tasks[t].(queue := q));
  }

  lemma TablesRemove(tasks: seq<Task>, queues: seq<seq<nat>>, count: int, pcount: int, nm: nat, t: nat)
    requires Tables(tasks, queues, count, pcount, nm) && t < 64 && tasks[t].queue != -1
    ensures 0 <= tasks[t].queue < |queues|
    ensures Tables(tasks[t := tasks[t].(queue := -1)], queues[tasks[t].queue := Without(queues[tasks[t].queue], t)],
      count, pcount, nm)
  {
    QueueRange(tasks, queues, t);
    hide Queues, Counted;
    RemoveKeeps(tasks, queues, t, tasks[t].queue);
    CountedUpdate(tasks, count, pcount, t, tasks[t].(queue := -1));
  }

  /** A task is in the queue that it names, and in no other. */
  lemma InNone(tasks: seq<Task>, queues: seq<seq<nat>>, t: nat)
    requires Queues(tasks, queues) && t < |tasks| && tasks[t].queue == -1
    ensures forall q :: 0 <= q < |queues| ==> t !in queues[q]
  {
    forall q | 0 <= q < |queues| ensures t !in queues[q] {
      assert QueueOk(tasks, queues[q], q);
    }
  }

  lemma InOwn(tasks: seq<Task>, queues: seq<seq<nat>>, t: nat)
    requires Queues(tasks, queues) && t < |tasks| && tasks[t].queue != -1
    ensures 0 <= tasks[t].queue < |queues| && t in queues[tasks[t].queue]
  {
    assert QueueOk(tasks, queues[tasks[t].queue], tasks[t].queue);
  }

  lemma OnlyOwn(tasks: seq<Task>, queues: seq<seq<nat>>, t: nat)
    requires Queues(tasks, queues) && t < |tasks| && tasks[t].queue != -1
    ensures 0 <= tasks[t].queue < |queues|
    ensures Absent(queues, t) == queues[tasks[t].queue := Without(queues[tasks[t].queue], t)]
  {
    forall q | 0 <= q < |queues| && q != tasks[t].queue ensures Without(queues[q], t) == queues[q] {
      assert QueueOk(tasks, queues[q], q);
      WithoutAbsent(queues[q], t);
    }
  }

  lemma TablesInNone(tasks: seq<Task>, queues: seq<seq<nat>>, count: int, pcount: int, nm: nat, t: nat)
    requires Tables(tasks, queues, count, pcount, nm) && t < 64 && tasks[t].queue == -1
    ensures Absent(queues, t) == queues && forall q :: 0 <= q < |queues| ==> t !in queues[q]
    ensures forall q :: 0 <= q < |queues| ==> Joined(queues, q, t) == queues[q := queues[q] + [t]]
  {
    InNone(tasks, queues, t);
    AbsentSame(queues, t);
  }

  lemma SnapSizedBut(s: State, count: int, pcount: int, t: nat)
    requires Tables(s.tasks, s.queues, count, pcount, |s.mutexes|) && AllOkBut(s.tasks, s.curr, |s.mutexes|, t)
    requires t < 64 && s.tasks[t].priority < 64 && -1 <= s.curr < 64
    ensures s.Sized()
  {
    forall i | 0 <= i < 64 ensures s.tasks[i].priority < 64 {
      assert i != t ==> TaskOk(s.tasks[i], i == s.curr, |s.mutexes|);
    }
  }

  lemma SnapSized(s: State, count: int, pcount: int, curr: int)
    requires Tables(s.tasks, s.queues, count, pcount, |s.mutexes|) && AllOk(s.tasks, curr, |s.mutexes|)
    requires -1 <= s.curr < 64
    ensures s.Sized()
  {
    forall i | 0 <= i < 64 ensures s.tasks[i].priority < 64 {
      assert TaskOk(s.tasks[i], i == curr, |s.mutexes|);
    }
  }

  /** One round of sched, with the first task of the best queue and its new slice. */
  ghost predicate OneRound(s: State, t: nat, slice: int, rest: seq<seq<nat>>) {
    && s.Sized() && t < 64 && |rest| == |s.queues|
    && var x := s.tasks[t];
       Dispatched(s) ==
         if slice >= 0 then
           s.(tasks := s.tasks[t := x.(timeSlice := slice, queue := -1)], queues := rest, curr := t)
         else
           Dispatched(s.(tasks := s.tasks[t := x.(timeSlice := slice, queue := x.priority)],
                         queues := rest[x.priority := rest[x.priority] + [t]]))
  }

  lemma OneRoundIs(s: State, t: nat, slice: int, rest: seq<seq<nat>>)
    requires OneRound(s, t, slice, rest)
    ensures s.Sized() && t < 64 && |rest| == |s.queues|
    ensures var x := s.tasks[t];
      Dispatched(s) ==
        if slice >= 0 then
          s.(tasks := s.tasks[t := x.(timeSlice := slice, queue := -1)], queues := rest, curr := t)
        else
          Dispatched(s.(tasks := s.tasks[t := x.(timeSlice := slice, queue := x.priority)],
                        queues := rest[x.priority := rest[x.priority] + [t]]))
  {}

  lemma OneTurn(s: State, t: nat, q: int, rest: seq<seq<nat>>)
    requires s.Sized() && t < 64 && 0 <= q < 64 && |rest| == |s.queues| && s.queues[q] == [t] + rest[q]
    requires rest == s.queues[q := rest[q]] && NoneBefore(rest, q)
    ensures var slice := s.tasks[t].timeSlice + TIME_SLICE;
      OneRound(s, t, if slice > TIME_SLICE_MAX then TIME_SLICE_MAX else slice, rest)
  {
    assert s.queues[q] != [] && forall p :: 0 <= p < q ==> s.queues[p] == rest[p];
    assert s.queues[q][0] == t && s.queues[q][1..] == rest[q] && s.queues[q := rest[q]] == rest;
    hide BestQueue, Dispatched;
    assert BestQueue(s.queues, 0) == q;
    FirstIsServed(s, t);
  }

  lemma FirstIsServed(s: State, t: nat)
    requires s.Sized() && BestQueue(s.queues, 0) < 64 && s.queues[BestQueue(s.queues, 0)][0] == t < 64
    ensures var q, slice := BestQueue(s.queues, 0), s.tasks[t].timeSlice + TIME_SLICE;
      OneRound(s, t, if slice > TIME_SLICE_MAX then TIME_SLICE_MAX else slice, s.queues[q := s.queues[q][1..]])
  {
    hide BestQueue, Debt;
  }

  lemma QueueRange(tasks: seq<Task>, queues: seq<seq<nat>>, t: nat)
    requires Queues(tasks, queues) && t < |tasks|
    ensures -1 <= tasks[t].queue < |queues|
  {}

  lemma TablesDequeue(tasks: seq<Task>, queues: seq<seq<nat>>, count: int, pcount: int, nm: nat, q: nat)
    requires Tables(tasks, queues, count, pcount, nm) && q < |queues| && queues[q] != []
    ensures queues[q][0] < 64 && tasks[queues[q][0]].queue == q
    ensures Tables(tasks[queues[q][0] := tasks[queues[q][0]].(queue := -1)], queues[q := queues[q][1..]], count,
      pcount, nm)
  {
    hide Queues, Counted;
    DequeueKeeps(tasks, queues, q);
    var t := queues[q][0];
    CountedUpdate(tasks, count, pcount, t, tasks[t].(queue := -1));
  }

  /** Nobody else is runnable. */
  ghost predicate OnlyOne(tasks: seq<Task>, curr: int) {
    |tasks| == 64 && forall t :: 0 <= t < 64 && t != curr ==> !tasks[t].Runnable()
  }

  /** A task as it was, but for its time slice and its place in a queue. */
  predicate Kept(t: Task, t': Task) {
    t' == t.(timeSlice := t'.timeSlice, queue := t'.queue)
  }

  ghost predicate AllKept(tasks: seq<Task>, tasks': seq<Task>) {
    |tasks| == |tasks'| && forall i :: 0 <= i < |tasks| ==> Kept(tasks[i], tasks'[i])
  }

  lemma AllKeptTrans(tasks: seq<Task>, tasks': seq<Task>, tasks'': seq<Task>, i: nat)
    requires AllKept(tasks, tasks') && AllKept(tasks', tasks'')
    ensures AllKept(tasks, tasks'')
    ensures i < |tasks| ==> i < |tasks'| && tasks'[i].priority == tasks[i].priority
  {}

  ghost predicate AllKeptBut(tasks: seq<Task>, tasks': seq<Task>, me: int) {
    |tasks| == |tasks'| && forall i :: 0 <= i < |tasks| && i != me ==> Kept(tasks[i], tasks'[i])
  }

  /** The queues in which tasks sleep are as they were, but for `q`. */
  ghost predicate OthersWait(queues: seq<seq<nat>>, queues': seq<seq<nat>>, q: int) {
    |queues| == |queues'| && forall p :: 64 <= p < |queues| && p != q ==> queues'[p] == queues[p]
  }

  /** Tasks as they were, but for time slices; each is in its queue or in that of its priority. */
  ghost predicate Requeued(tasks: seq<Task>, tasks': seq<Task>) {
    AllKept(tasks, tasks') &&
    forall i :: 0 <= i < |tasks| ==> tasks'[i].queue == tasks[i].queue || tasks'[i].queue == tasks[i].priority
  }

  lemma ShrinksNot(queues: seq<seq<nat>>)
    ensures WaitsShrink(queues, queues)
  {}

  /** A task in a ready queue may become the current one. */
  lemma WaitingIsRunnable(tasks: seq<Task>, nm: nat, t: nat, x: Task)
    requires AllOk(tasks, -1, nm) && t < 64 && |tasks| == 64 && 0 <= tasks[t].queue < 64
    requires x == tasks[t].(timeSlice := x.timeSlice, queue := -1)
    ensures x.Runnable() && TaskOk(x, true, nm)
  {
    OkAt(tasks, -1, nm, t);
  }

  /** The counters differ exactly if somebody is runnable. */
  lemma CountersTell(tasks: seq<Task>, queues: seq<seq<nat>>, curr: int, count: int, pcount: int, nm: nat)
    requires Tables(tasks, queues, count, pcount, nm) && AllOk(tasks, curr, nm)
    ensures count != pcount <==> AnyRunnable(tasks)
  {
    PausedAreLive(tasks, curr, nm);
    hide LiveCount, PausedCount, Queues, AllOk;
    RunnableBound(tasks, 0);
    if t :| 0 <= t < |tasks| && tasks[t].Runnable() {
      RunnableBound(tasks, t);
    }
    if count != pcount {
      var t := SomeRunnable(tasks);
    }
  }

  lemma ScheduledIs(s: State)
    requires s.Sized() && s.curr >= 0
    ensures var me := s.tasks[s.curr];
      Scheduled(s) ==
        if me.Runnable() && OnlyOne(s.tasks, s.curr) then
          s.(tasks := s.tasks[s.curr := me.(timeSlice := TIME_SLICE)], resched := false)
        else if AnyRunnable(s.tasks) then Dispatched(GivenUp(s).(resched := false))
        else GivenUp(s).(resched := false)
  {
    hide Dispatched, GivenUp;
  }

  lemma GivenUpFrame(s: State)
    requires s.Sized() && s.curr >= 0
    ensures s.(resched := false).Sized() && GivenUp(s.(resched := false)) == GivenUp(s).(resched := false)
  {}

  lemma KeptAt(tasks: seq<Task>, tasks': seq<Task>, t: nat)
    requires AllKept(tasks, tasks') && t < |tasks|
    ensures |tasks'| == |tasks| && Kept(tasks[t], tasks'[t])
  {}

  /** signal_send_k in its parts: continue and kill first wake the task, and only then is the signal pending. */
  lemma SignalParts(s: State, t: nat, sig: Sig)
    requires s.Sized() && t < 64 && !sig.OutOfRange? && !sig.Zero? && !s.tasks[t].exited
    ensures var x := s.tasks[t];
      var mid := if sig == Continue || sig == Kill then Marked(s, t, x.(stopped := false))
                 else if sig == Stop then s.With(t, x.(stopped := true)) else s;
      && mid.Sized() && mid.tasks[t].priority < 64
      && Signalled(s, t, sig, false) == Marked(mid, t, mid.tasks[t].(signalPending := true))
  {
    assert |s.tasks| == 64 && s.tasks[t].priority < 64;
    hide Joined, State.Sized;
    var x := s.tasks[t];
    if sig == Continue || sig == Kill {
      hide Marked, Signalled;
      SignalWakes(s, t, x.(stopped := false));
      SignalledIs(s, t, sig);
    } else {
      SignalledIs(s, t, sig);
      hide Woken, Signalled;
    }
  }

  lemma SignalledIs(s: State, t: nat, sig: Sig)
    requires s.Sized() && t < 64 && !sig.OutOfRange? && !sig.Zero? && !s.tasks[t].exited
    ensures var x := s.tasks[t];
      && x.priority < 64
      && (sig == Stop ==> s.With(t, x.(stopped := true)).Sized())
      && Signalled(s, t, sig, false) == Marked(s, t, x.(signalPending := true, stopped :=
           if sig == Stop then true else if sig == Continue || sig == Kill then false else x.stopped))
  {
    hide Marked;
  }

  lemma SignalWakes(s: State, t: nat, x: Task)
    requires s.Sized() && t < 64 && x.priority < 64
    ensures var mid := Marked(s, t, x);
      && |mid.tasks| == 64 && mid.tasks[t].priority < 64
      && Marked(mid, t, mid.tasks[t].(signalPending := true)) == Marked(s, t, x.(signalPending := true))
  {
    hide Joined;
  }

  /** A signal to a task that is not asleep. */
  lemma SignalAwake(s: State, t: nat)
    requires s.Sized() && t < 64 && s.tasks[t].Runnable()
    ensures Signalled(s, t, Other, false) == s.With(t, s.tasks[t].(signalPending := true))
  {}

  lemma AwaitedIs(s: State, m: nat, wait: Pause)
    requires s.Sized() && s.curr >= 0 && s.Has(m)
    ensures var me, out := s.tasks[s.curr], Awaited(s, m, wait);
      && (s.mutexes[m].lockcnt == 0 ==> out == Entered(s, m))
      && (s.mutexes[m].lockcnt > 0 && wait == Running ==> out == s.With(s.curr, me.(goal := Anywhere)))
      && (s.mutexes[m].lockcnt > 0 && wait != Running && NoWait(me, wait) ==>
            out == s.With(s.curr, me.(goal := Anywhere, unseenEvents := false)))
      && (s.mutexes[m].lockcnt > 0 && wait != Running && !NoWait(me, wait) ==>
            out == Suspended(s, 64 + m, wait, Acquiring(m, wait)))
  {
    hide Suspended, Entered;
  }

  lemma SpawnedNot(s: State, named: bool, memory: bool, pages: bool)
    requires s.Sized() && s.curr >= 0
    ensures !named || !memory || !pages || FreeSlot(s.tasks, 0) == 64 ==> Spawned(s, named, memory, pages) == s
  {}

  lemma SpawnedTasks(s: State, t: nat)
    requires s.Sized() && s.curr >= 0 && t < 64 && !s.tasks[t].used && forall i :: 0 <= i < t ==> s.tasks[i].used
    ensures t == FreeSlot(s.tasks, 0)
    ensures Spawned(s, true, true, true).tasks
         == s.tasks[t := s.tasks[s.curr].(timeSlice := -1, unseenEvents := false, signalPending := false,
                                          queue := s.tasks[s.curr].priority)]
  {
    hide FreeSlot, Joined;
  }

  lemma AllNumbers(tasks: seq<Task>, queues: seq<seq<nat>>, count: int, pcount: int, nm: nat, q: nat)
    requires Tables(tasks, queues, count, pcount, nm) && q < |queues|
    ensures Numbers(queues[q])
  {
    forall i | 0 <= i < |queues[q]| ensures queues[q][i] < 64 {
      assert QueueOk(tasks, queues[q], q) && queues[q][i] in queues[q];
    }
  }

  lemma NobodyWoken(s: State)
    requires s.Sized()
    ensures AllWoken(s, []) == s
  {}

  lemma FirstWoken(s: State, ts: seq<nat>)
    requires s.Sized() && Numbers(ts) && ts != []
    ensures ts[0] < 64 && Numbers(ts[1..]) && AllWoken(s, ts) == AllWoken(Woken(s, ts[0]), ts[1..])
  {}

  /** Waking a task that has already been taken off its queue. */
  lemma OutFirst(s: State, q: nat, t: nat, count: int, pcount: int)
    requires s.Sized() && Tables(s.tasks, s.queues, count, pcount, |s.mutexes|) && 64 <= q < |s.queues|
    requires s.queues[q] != [] && s.queues[q][0] == t < 64 && s.tasks[t].queue == q && s.tasks[t].paused != Running
    ensures var out := s.(tasks := s.tasks[t := s.tasks[t].(queue := -1)], queues := s.queues[q := s.queues[q][1..]]);
      out.Sized() && Woken(out, t) == Woken(s, t) && Woken(s, t).queues[q] == s.queues[q][1..]
  {
    OnlyOwn(s.tasks, s.queues, t);
    var out := s.(tasks := s.tasks[t := s.tasks[t].(queue := -1)], queues := s.queues[q := s.queues[q][1..]]);
    assert Absent(s.queues, t) == out.queues;
    TablesDequeue(s.tasks, s.queues, count, pcount, |s.mutexes|, q);
    TablesInNone(out.tasks, out.queues, count, pcount, |s.mutexes|, t);
  }

  lemma LockedIs(s: State, m: nat, wait: Pause)
    requires s.Sized() && s.curr >= 0 && s.Has(m)
    ensures Locked(s, m, wait) ==
      if s.mutexes[m].owner == s.curr || s.mutexes[m].lockcnt == 0 then Entered(s, m) else Awaited(s, m, wait)
  {
    hide Entered, Suspended;
  }

  lemma SuspendedNot(s: State, q: nat, wait: Pause, goal: Goal)
    requires s.Sized() && s.curr >= 0 && 64 <= q < |s.queues| && NoWait(s.tasks[s.curr], wait)
    ensures Suspended(s, q, wait, goal) == s.With(s.curr, s.tasks[s.curr].(unseenEvents := false))
  {}

  lemma HasMutex(s: State, m: nat)
    requires MutexesOk(s.mutexes, s.queues, s.depth)
    ensures m < |s.mutexes| ==> s.Has(m) && |s.queues| >= 64 + |s.mutexes|
    ensures m < |s.mutexes| ==> (s.mutexes[m].owner == -1 <==> s.mutexes[m].lockcnt == 0) && |s.depth[m]| == 64
    ensures m < |s.mutexes| && 0 <= s.curr == s.mutexes[m].owner ==> s.mutexes[m].lockcnt > 0 && s.depth[m][s.curr] > 0
  {
    if m < |s.mutexes| {
      MutexAt(s.mutexes, s.queues, s.depth, m);
    }
  }

  /** The parts of an event. */
  lemma HappensIs(s: State, e: Event)
    requires s.Sized() && PlainKernel.Possible(s, e)
    ensures |s.tasks| == 64 && s.curr < 64
    ensures s.curr >= 0 || e.Dispatch? || e.WakeUp? || e.SendSignal? || e.ClockTick? || e.ReapTask?
    ensures e.WakeUp? || e.SendSignal? || e.ReapTask? ==> e.t < 64
    ensures e.Yield? ==> Happens(s, e) == Scheduled(s)
    ensures e.Dispatch? ==> Happens(s, e) == Dispatched(s)
    ensures e.WakeUp? ==> Happens(s, e) == Woken(s, e.t)
    ensures e.SendSignal? ==> Happens(s, e) == Signalled(s, e.t, e.sig, e.ignored)
    ensures e.ClockTick? ==> Happens(s, e) == Ticked(s)
    ensures e.Priority? ==> Happens(s, e) == s.With(s.curr, s.tasks[s.curr].(priority := e.p))
    ensures e.Spawn? ==> Happens(s, e) == Spawned(s, e.named, e.memory, e.pages)
    ensures e.ForkTask? ==> Happens(s, e) == Forked(s, e.memory, e.pages)
    ensures e.ExitTask? ==> Happens(s, e) == Exited(s)
    ensures e.ReapTask? ==> Happens(s, e) == s.With(e.t, Unused())
    ensures e.Sleep? ==> (e.q == -1 || 64 <= e.q < |s.queues|) && Happens(s, e) == Suspended(s, e.q, e.wait, Anywhere)
    ensures e.Lock? ==> s.Has(e.m) && Happens(s, e) == Locked(s, e.m, e.wait)
    ensures e.Retry? ==>
      var goal := s.tasks[s.curr].goal;
      goal.Acquiring? && s.Has(goal.m) && Happens(s, e) == Awaited(s, goal.m, goal.wait)
    ensures e.Unlock? ==>
      && s.Has(e.m) && s.mutexes[e.m].lockcnt > 0 && s.depth[e.m][s.curr] > 0
      && |s.queues| > 64 + e.m && Numbers(s.queues[64 + e.m]) && Happens(s, e) == Unlocked(s, e.m)
  {
    hide Scheduled, Dispatched, Woken, Signalled, Ticked, Spawned, Forked, Exited, Suspended, Locked, Awaited, Unlocked;
  }

  lemma OthersKept(tasks: seq<Task>, t: nat, x: Task)
    requires t < |tasks| && Kept(tasks[t], x)
    ensures AllKept(tasks, tasks[t := x])
  {}

  lemma RequeuedSelf(tasks: seq<Task>)
    ensures Requeued(tasks, tasks)
  {}

  lemma RequeuedUpdate(tasks: seq<Task>, was: seq<Task>, t: nat, x: Task)
    requires Requeued(tasks, was) && t < |was| && Kept(was[t], x) && x.queue == was[t].priority
    ensures Requeued(tasks, was[t := x])
  {}

  lemma RequeuedOn(tasks: seq<Task>, was: seq<Task>, tasks': seq<Task>)
    requires Requeued(tasks, was) && Requeued(was, tasks')
    ensures Requeued(tasks, tasks')
  {}

  lemma RequeuedKept(tasks: seq<Task>, was: seq<Task>, t: nat, x: Task)
    requires Requeued(tasks, was) && t < |was| && Kept(was[t], x)
    ensures AllKept(tasks, was[t := x])
    ensures was[t].queue == tasks[t].queue || was[t].queue == tasks[t].priority
  {}

  /** No task waits in a ready queue of a priority above `q`. */
  ghost predicate NoneBefore(queues: seq<seq<nat>>, q: int) {
    q <= |queues| && forall p :: 0 <= p < q ==> queues[p] == []
  }

  /** A task after task_resume. */
  function Resumed(t: Task): Task {
    if t.paused == Running then t else t.(paused := Running, timeSlice := TIME_SLICE, queue := t.priority)
  }

  class Machine {
    var tasks: seq<Task>
    /** The current task, or -1 while sched waits for a runnable one. */
    var curr: int
    var taskCount: int
    var taskPcount: int
    var resched: bool
    var queues: seq<seq<nat>>
    var mutexes: seq<Mutex>
    /** For each mutex and task, entries not yet left. */
    ghost var depth: seq<seq<nat>>
    /** What task_insert, task_dequeue and task_remove have done so far. */
    var moves: seq<Move>

    ghost predicate Valid()
      reads this
    {
      && Tables(tasks, queues, taskCount, taskPcount, |mutexes|) && AllOk(tasks, curr, |mutexes|)
      && MutexesOk(mutexes, queues, depth) && -1 <= curr < 64 && Logged(queues, 64, moves)
    }

    /** The machine without its counters. */
    ghost function Snap(): State
      reads this
    {
      State(tasks, queues, curr, resched, mutexes, depth)
    }

    /** task_insert. */
    method Insert(q: nat, t: nat)
      requires Tables(tasks, queues, taskCount, taskPcount, |mutexes|) && t < 64 && q < |queues| && tasks[t].queue == -1
      requires Logged(queues, 64, moves)
      modifies this`tasks, this`queues, this`moves
      ensures Logged(queues, 64, moves)
      ensures Tables(tasks, queues, taskCount, taskPcount, |mutexes|)
      ensures tasks == old(tasks)[t := old(tasks)[t].(queue := q)] && queues == old(queues)[q := old(queues)[q] + [t]]
    {
      hide Queues, Counted, Logged;
      if tasks[t].queue != -1 {
        assert false;  // panic: task->queue
      }
      TablesInsert(tasks, queues, taskCount, taskPcount, |mutexes|, t, q);
      InNone(tasks, queues, t);
      LoggedMore(queues, 64, moves, In(q, t));
      moves := moves + [In(q, t)];
      tasks := tasks[t := tasks[t].(queue := q)];
      queues := queues[q := queues[q] + [t]];
    }

    /** task_dequeue: -1 for an empty queue. */
    method Dequeue(q: nat) returns (t: int)
      requires Tables(tasks, queues, taskCount, taskPcount, |mutexes|) && q < |queues|
      requires Logged(queues, 64, moves)
      modifies this`tasks, this`queues, this`moves
      ensures Logged(queues, 64, moves)
      ensures Tables(tasks, queues, taskCount, taskPcount, |mutexes|)
      ensures old(queues)[q] == [] ==> t == -1 && tasks == old(tasks) && queues == old(queues)
      ensures old(queues)[q] != [] ==> 0 <= t < 64 && t == old(queues)[q][0] && old(tasks)[t].queue == q
      ensures old(queues)[q] != [] ==>
        tasks == old(tasks)[t := old(tasks)[t].(queue := -1)] && queues == old(queues)[q := old(queues)[q][1..]]
    {
      hide Queues, Counted, Logged;
      LoggedMore(queues, 64, moves, First(q));
      moves := moves + [First(q)];
      if queues[q] == [] {
        assert queues[q := []] == queues;
        return -1;
      }
      TablesDequeue(tasks, queues, taskCount, taskPcount, |mutexes|, q);
      t := queues[q][0];
      tasks := tasks[t := tasks[t].(queue := -1)];
      queues := queues[q := queues[q][1..]];
    }

    /** task_remove. */
    method Remove(t: nat)
      requires Tables(tasks, queues, taskCount, taskPcount, |mutexes|) && t < 64 && tasks[t].queue != -1
      requires Logged(queues, 64, moves)
      modifies this`tasks, this`queues, this`moves
      ensures Logged(queues, 64, moves)
      ensures Tables(tasks, queues, taskCount, taskPcount, |mutexes|)
      ensures tasks == old(tasks)[t := old(tasks)[t].(queue := -1)] && |queues| == |old(queues)|
      ensures 0 <= old(tasks)[t].queue < |queues|
      ensures queues == Absent(old(queues), t)
      ensures WaitsShrink(old(queues), queues)
    {
      hide Queues, Counted, Logged;
      TablesRemove(tasks, queues, taskCount, taskPcount, |mutexes|, t);
      var q := tasks[t].queue;
      WithoutNothing(queues[q], t);
      InOwn(tasks, queues, t);
      OnlyOwn(tasks, queues, t);
      LoggedMore(queues, 64, moves, Out(q, t));
      moves := moves + [Out(q, t)];
      queues := queues[q := Without(queues[q], t)];
      tasks := tasks[t := tasks[t].(queue := -1)];
    }

    /** task_resume. */
    method Resume(t: nat)
      requires Tables(tasks, queues, taskCount, taskPcount, |mutexes|) && AllOkBut(tasks, curr, |mutexes|, t)
      requires t < 64 && tasks[t].Live() && Resumable(tasks[t], t == curr, |mutexes|) && -1 <= curr < 64
      requires Logged(queues, 64, moves)
      modifies this`tasks, this`queues, this`moves, this`taskPcount, this`resched
      ensures Logged(queues, 64, moves)
      ensures Tables(tasks, queues, taskCount, taskPcount, |mutexes|) && AllOk(tasks, curr, |mutexes|)
      ensures tasks == old(tasks)[t := Resumed(old(tasks)[t])]
      ensures resched == (old(resched)
        || (old(tasks)[t].paused != Running && curr != -1 && tasks[t].priority < tasks[curr].priority))
      ensures WaitsShrink(old(queues), queues)
      ensures old(tasks)[t].queue == -1 ==> forall q :: 64 <= q < |queues| ==> queues[q] == old(queues)[q]
      ensures old(Snap()).Sized() && Snap() == Woken(old(Snap()), t)
    {
      SnapSizedBut(Snap(), taskCount, taskPcount, t);
      hide Tables, AllOkBut, AllOk, Logged, Absent, State.Sized, WaitsShrink, TaskOk;
      TablesSize(tasks, queues, taskCount, taskPcount, |mutexes|);
      if tasks[t].paused == Running {
        OkUpdate(tasks, curr, |mutexes|, t, tasks[t], curr);
        assert tasks[t := tasks[t]] == tasks && WaitsShrink(queues, queues) by { ShrinksNot(queues); }
        return;
      }
      Ready(t);
      if curr != -1 && tasks[t].priority < tasks[curr].priority {
        resched := true;
      }
    }

    /** A sleeping task leaves its queue for that of its priority. */
    method Ready(t: nat)
      requires Tables(tasks, queues, taskCount, taskPcount, |mutexes|) && AllOkBut(tasks, curr, |mutexes|, t)
      requires t < 64 && tasks[t].paused != Running && tasks[t].Live() && -1 <= curr < 64
      requires Resumable(tasks[t], t == curr, |mutexes|) && Logged(queues, 64, moves)
      modifies this`tasks, this`queues, this`moves, this`taskPcount
      ensures Logged(queues, 64, moves)
      ensures Tables(tasks, queues, taskCount, taskPcount, |mutexes|) && AllOk(tasks, curr, |mutexes|)
      ensures tasks == old(tasks)[t := Resumed(old(tasks)[t])] && WaitsShrink(old(queues), queues)
      ensures old(tasks)[t].priority < |old(queues)| && queues == Joined(old(queues), old(tasks)[t].priority, t)
      ensures old(tasks)[t].queue == -1 ==> forall q :: 64 <= q < |queues| ==> queues[q] == old(queues)[q]
    {
      hide Tables, AllOkBut, AllOk, Logged, Absent;
      TablesSize(tasks, queues, taskCount, taskPcount, |mutexes|);
      if tasks[t].queue == -1 {
        TablesInNone(tasks, queues, taskCount, taskPcount, |mutexes|, t);
      }
      var x := tasks[t].(timeSlice := TIME_SLICE, paused := Running);
      TablesUpdate(tasks, queues, taskCount, taskPcount, |mutexes|, t, x);
      tasks := tasks[t := x];
      taskPcount := taskPcount - 1;
      PcountNatural(tasks, queues, taskCount, taskPcount, |mutexes|);
      if taskPcount < 0 {
        assert false;  // panic: task_pcount < 0
      }
      if tasks[t].queue != -1 {
        Remove(t);
      }
      TablesSize(tasks, queues, taskCount, taskPcount, |mutexes|);
      if t != curr {
        Insert(tasks[t].priority, t);
      }
      OkUpdate(old(tasks), curr, |mutexes|, t, x.(queue := x.priority), curr);
      assert old(tasks)[t := x.(queue := x.priority)] == tasks;
    }

    // ----- sched -----

    /** The search through the ready queues: the first task of the first one that is not empty. */
    method DequeueReady() returns (t: nat)
      requires Tables(tasks, queues, taskCount, taskPcount, |mutexes|) && AllOk(tasks, -1, |mutexes|)
      requires taskCount != taskPcount
      requires Logged(queues, 64, moves)
      modifies this`tasks, this`queues, this`moves
      ensures Logged(queues, 64, moves)
      ensures Tables(tasks, queues, taskCount, taskPcount, |mutexes|) && t < 64
      ensures tasks == old(tasks)[t := old(tasks)[t].(queue := -1)]
      ensures 0 <= old(tasks)[t].queue < 64 <= |old(queues)|
      ensures old(queues)[old(tasks)[t].queue] == [t] + queues[old(tasks)[t].queue]
      ensures queues == old(queues)[old(tasks)[t].queue := queues[old(tasks)[t].queue]]
      ensures NoneBefore(queues, old(tasks)[t].queue)
    {
      hide AllOk, Logged;
      TablesSize(tasks, queues, taskCount, taskPcount, |mutexes|);
      ghost var ready := ReadyExists(tasks, queues, taskCount, taskPcount, |mutexes|);
      hide Tables, Logged;
      for i := 0 to TASK_PRIO_LOW + 1
        invariant tasks == old(tasks) && queues == old(queues) && Logged(queues, 64, moves)
        invariant forall q :: 0 <= q < i ==> queues[q] == []
      {
        var next := Dequeue(i);
        if next != -1 {
          assert NoneBefore(queues, i);
          return next;
        }
      }
      assert false;  // panic: next == NULL
    }

    /** The second half of sched: the next task becomes current, after slices below zero have been refilled. */
    method Pick() returns (ghost from: int)
      requires Tables(tasks, queues, taskCount, taskPcount, |mutexes|) && AllOk(tasks, -1, |mutexes|)
      requires curr == -1 && taskCount != taskPcount
      requires Logged(queues, 64, moves)
      modifies this`tasks, this`queues, this`moves, this`curr
      ensures Logged(queues, 64, moves)
      ensures Tables(tasks, queues, taskCount, taskPcount, |mutexes|) && AllOk(tasks, curr, |mutexes|)
      ensures 0 <= curr < 64 && 0 <= tasks[curr].timeSlice <= TIME_SLICE_MAX && AllKept(old(tasks), tasks)
      ensures (from == old(tasks)[curr].queue || from == old(tasks)[curr].priority) && NoneBefore(queues, from)
      ensures |queues| == |old(queues)| && forall q :: 64 <= q < |queues| ==> queues[q] == old(queues)[q]
      ensures old(Snap()).Sized() && Snap() == Dispatched(old(Snap()))
    {
      SnapSized(Snap(), taskCount, taskPcount, -1);
      hide Tables, AllOk, Requeued, Debt, Logged, State.Sized, Dispatched, AllKept, NoneBefore, Kept;
      assert Requeued(tasks, tasks) by { RequeuedSelf(tasks); }
      var done := false;
      from := -1;
      while !done
        invariant Tables(tasks, queues, taskCount, taskPcount, |mutexes|) && Logged(queues, 64, moves)
        invariant |queues| == |old(queues)| && forall q :: 64 <= q < |queues| ==> queues[q] == old(queues)[q]
        invariant old(Snap()).Sized() && Snap().Sized()
        invariant !done ==>
          && curr == -1 && AllOk(tasks, -1, |mutexes|) && Requeued(old(tasks), tasks)
          && Dispatched(Snap()) == Dispatched(old(Snap()))
        invariant done ==>
          && 0 <= curr < 64 && AllOk(tasks, curr, |mutexes|) && Snap() == Dispatched(old(Snap()))
          && |tasks| == |old(tasks)| == 64 && 0 <= tasks[curr].timeSlice <= TIME_SLICE_MAX
          && AllKept(old(tasks), tasks) && NoneBefore(queues, from)
          && (from == old(tasks)[curr].queue || from == old(tasks)[curr].priority)
        decreases !done, Debt(tasks)
      {
        ghost var was := tasks;
        done, from := Turn();
        if done {
          RequeuedKept(old(tasks), was, curr, tasks[curr]);
        } else {
          RequeuedOn(old(tasks), was, tasks);
        }
      }
    }

    /** One round: the first task of the best queue becomes current, or waits again with a slice still below zero. */
    method Turn() returns (done: bool, ghost from: int)
      requires Tables(tasks, queues, taskCount, taskPcount, |mutexes|) && AllOk(tasks, -1, |mutexes|)
      requires curr == -1 && taskCount != taskPcount && Logged(queues, 64, moves)
      modifies this`tasks, this`queues, this`moves, this`curr
      ensures Logged(queues, 64, moves) && Tables(tasks, queues, taskCount, taskPcount, |mutexes|)
      ensures |queues| == |old(queues)| && forall q :: 64 <= q < |queues| ==> queues[q] == old(queues)[q]
      ensures |tasks| == |old(tasks)| == 64 && old(Snap()).Sized() && Snap().Sized()
      ensures done ==>
        && 0 <= curr < 64 && AllOk(tasks, curr, |mutexes|) && Snap() == Dispatched(old(Snap()))
        && 0 <= tasks[curr].timeSlice <= TIME_SLICE_MAX && from == old(tasks)[curr].queue && NoneBefore(queues, from)
        && tasks == old(tasks)[curr := tasks[curr]] && Kept(old(tasks)[curr], tasks[curr])
      ensures !done ==>
        && curr == -1 && AllOk(tasks, -1, |mutexes|) && Debt(tasks) < Debt(old(tasks))
        && Requeued(old(tasks), tasks) && Dispatched(Snap()) == Dispatched(old(Snap()))
    {
      SnapSized(Snap(), taskCount, taskPcount, -1);
      hide Tables, AllOk, Debt, Logged, State.Sized, Dispatched, NoneBefore, OneRound, Requeued;
      ghost var was, before := tasks, Snap();
      OkSize(tasks, -1, |mutexes|);
      var next := Refill();
      from := was[next].queue;
      done := tasks[next].timeSlice >= 0;
      if done {
        Choose(next, before);
      } else {
        Requeue(next, before);
      }
    }

    /** The first task of the best queue leaves it, with more ticks. */
    method Refill() returns (t: nat)
      requires Tables(tasks, queues, taskCount, taskPcount, |mutexes|) && AllOk(tasks, -1, |mutexes|)
      requires curr == -1 && taskCount != taskPcount && Logged(queues, 64, moves) && Snap().Sized()
      modifies this`tasks, this`queues, this`moves
      ensures Logged(queues, 64, moves) && Tables(tasks, queues, taskCount, taskPcount, |mutexes|)
      ensures |queues| == |old(queues)| && forall q :: 64 <= q < |queues| ==> queues[q] == old(queues)[q]
      ensures |tasks| == |old(tasks)| == 64 > t && 0 <= old(tasks)[t].queue < 64
      ensures tasks == old(tasks)[t := old(tasks)[t].(timeSlice := tasks[t].timeSlice, queue := -1)]
      ensures old(tasks)[t].timeSlice < tasks[t].timeSlice || 0 <= tasks[t].timeSlice
      ensures tasks[t].timeSlice <= TIME_SLICE_MAX
      ensures NoneBefore(queues, old(tasks)[t].queue) && OneRound(old(Snap()), t, tasks[t].timeSlice, queues)
    {
      hide Tables, AllOk, Logged, State.Sized, Dispatched, OneRound;
      ghost var was, before := tasks, Snap();
      OkSize(tasks, -1, |mutexes|);
      t := DequeueReady();
      OneTurn(before, t, was[t].queue, queues);
      var slice := tasks[t].timeSlice + TIME_SLICE;
      if slice > TIME_SLICE_MAX {
        slice := TIME_SLICE_MAX;
      }
      var x := tasks[t].(timeSlice := slice);
      TablesUpdate(tasks, queues, taskCount, taskPcount, |mutexes|, t, x);
      tasks := tasks[t := x];
    }

    /** The task becomes current. */
    method Choose(t: nat, ghost before: State)
      requires Tables(tasks, queues, taskCount, taskPcount, |mutexes|) && AllOk(before.tasks, -1, |mutexes|) && t < 64
      requires |before.tasks| == 64 && 0 <= before.tasks[t].queue < 64 && curr == -1 && tasks[t].timeSlice >= 0
      requires tasks == before.tasks[t := before.tasks[t].(timeSlice := tasks[t].timeSlice, queue := -1)]
      requires before == Snap().(tasks := before.tasks, queues := before.queues)
      requires OneRound(before, t, tasks[t].timeSlice, queues)
      modifies this`curr
      ensures curr == t && AllOk(tasks, curr, |mutexes|) && Snap().Sized() && Snap() == Dispatched(before)
    {
      hide Tables, AllOk, Dispatched, State.Sized, TaskOk, OneRound;
      OneRoundIs(before, t, tasks[t].timeSlice, queues);
      WaitingIsRunnable(before.tasks, |mutexes|, t, tasks[t]);
      if tasks[t].exited || tasks[t].paused != Running {
        assert false;  // panic: next->exited || next->paused
      }
      OkUpdate(before.tasks, -1, |mutexes|, t, tasks[t], t) by { OkWeaken(before.tasks, -1, |mutexes|, t); }
      curr := t;
      SnapSized(Snap(), taskCount, taskPcount, curr);
    }

    /** A task whose slice is still below zero goes back to a ready queue; the debt has become less. */
    method Requeue(t: nat, ghost before: State)
      requires Tables(tasks, queues, taskCount, taskPcount, |mutexes|) && AllOk(before.tasks, -1, |mutexes|) && t < 64
      requires |before.tasks| == 64 && 0 <= before.tasks[t].queue < 64 && curr == -1
      requires before.tasks[t].timeSlice < tasks[t].timeSlice < 0
      requires tasks == before.tasks[t := before.tasks[t].(timeSlice := tasks[t].timeSlice, queue := -1)]
      requires before == Snap().(tasks := before.tasks, queues := before.queues)
      requires OneRound(before, t, tasks[t].timeSlice, queues) && Logged(queues, 64, moves)
      modifies this`tasks, this`queues, this`moves
      ensures Logged(queues, 64, moves)
      ensures Tables(tasks, queues, taskCount, taskPcount, |mutexes|) && AllOk(tasks, -1, |mutexes|)
      ensures |tasks| == 64 && Requeued(before.tasks, tasks) && Debt(tasks) < Debt(before.tasks)
      ensures |queues| == |old(queues)| && forall q :: 64 <= q < |queues| ==> queues[q] == old(queues)[q]
      ensures Snap().Sized() && Dispatched(Snap()) == Dispatched(before)
    {
      hide Tables, AllOk, Debt, Logged, Dispatched, State.Sized, Requeued, OneRound;
      ghost var was := before.tasks;
      TablesSize(tasks, queues, taskCount, taskPcount, |mutexes|);
      OkAt(was, -1, |mutexes|, t);
      OneRoundIs(before, t, tasks[t].timeSlice, queues);
      Insert(tasks[t].priority, t);
      assert tasks == was[t := tasks[t]];
      OkUpdate(was, -1, |mutexes|, t, tasks[t], -1) by { OkWeaken(was, -1, |mutexes|, t); }
      DebtUpdate(was, t, tasks[t]);
      RequeuedSelf(was);
      RequeuedUpdate(was, was, t, tasks[t]);
      SnapSized(Snap(), taskCount, taskPcount, -1);
    }

    /**
      sched, called by a task that runs on, has just paused, or has exited. It returns at once if and only if the
      caller is the only runnable task; otherwise another choice is made, or nobody is current until an interrupt wakes
      a task.
     */
    method Sched() returns (early: bool, ghost from: int)
      requires Tables(tasks, queues, taskCount, taskPcount, |mutexes|) && MutexesOk(mutexes, queues, depth)
      requires 0 <= curr < 64 && tasks[curr].used
      requires AllOk(tasks, if tasks[curr].Runnable() then curr else -1, |mutexes|)
      requires Logged(queues, 64, moves)
      modifies this`tasks, this`queues, this`moves, this`curr, this`resched
      ensures Valid()
      ensures early <==> old(tasks)[old(curr)].Runnable() && OnlyOne(old(tasks), old(curr))
      ensures early ==> curr == old(curr) && tasks == old(tasks)[curr := old(tasks)[curr].(timeSlice := TIME_SLICE)]
      ensures !early && curr != -1 ==>
        (from == old(tasks)[curr].queue || from == old(tasks)[curr].priority) && NoneBefore(queues, from)
      ensures !resched
      ensures (curr == -1 <==> taskCount == taskPcount) && AllKept(old(tasks), tasks)
      ensures old(Snap()).Sized() && Snap() == Scheduled(old(Snap()))
    {
      SnapSized(Snap(), taskCount, taskPcount, if tasks[curr].Runnable() then curr else -1);
      hide Tables, AllOk, MutexesOk, Logged, State.Sized, OnlyOne, NobodyElse, Scheduled, AllKept;
      ghost var s := Snap();
      resched := false;
      TablesSize(tasks, queues, taskCount, taskPcount, |mutexes|);
      EarlyIff(tasks, queues, curr, |mutexes|, taskCount, taskPcount);
      ScheduledIs(s);
      if taskPcount + 1 == taskCount && tasks[curr].paused == Running && !tasks[curr].exited {
        OkAt(tasks, curr, |mutexes|, curr);
        OthersKept(tasks, curr, tasks[curr].(timeSlice := TIME_SLICE));
        Change(curr, tasks[curr].(timeSlice := TIME_SLICE));
        return true, -1;
      }
      early := false;
      from := Switch(s);
    }

    /** Another task is chosen, if anybody is runnable. */
    method Switch(ghost s: State) returns (ghost from: int)
      requires Tables(tasks, queues, taskCount, taskPcount, |mutexes|) && MutexesOk(mutexes, queues, depth)
      requires 0 <= curr < 64 && tasks[curr].used && Logged(queues, 64, moves)
      requires AllOk(tasks, if tasks[curr].Runnable() then curr else -1, |mutexes|)
      requires s.Sized() && Snap() == s.(resched := false)
      modifies this`tasks, this`queues, this`moves, this`curr
      ensures Valid() && AllKept(old(tasks), tasks) && (curr == -1 <==> taskCount == taskPcount)
      ensures curr != -1 ==>
        (from == old(tasks)[curr].queue || from == old(tasks)[curr].priority) && NoneBefore(queues, from)
      ensures var idle := GivenUp(s).(resched := false);
        idle.Sized() && Snap() == if AnyRunnable(s.tasks) then Dispatched(idle) else idle
    {
      CountersTell(tasks, queues, if tasks[curr].Runnable() then curr else -1, taskCount, taskPcount, |mutexes|);
      hide Tables, AllOk, MutexesOk, Logged, State.Sized, Dispatched, AnyRunnable, GivenUp, NoneBefore, AllKept;
      GivenUpFrame(s);
      from := -1;
      GiveUp();
      if taskCount != taskPcount {
        ghost var was := tasks;
        from := Pick();
        AllKeptTrans(old(tasks), was, tasks, curr);
      } else {
        SnapSized(Snap(), taskCount, taskPcount, -1);
      }
      MutexesSame(mutexes, old(queues), queues, depth);
    }

    /** The current task waits in the queue of its priority, if it is still runnable, and nobody is current. */
    method GiveUp()
      requires Tables(tasks, queues, taskCount, taskPcount, |mutexes|) && 0 <= curr < 64
      requires AllOk(tasks, if tasks[curr].Runnable() then curr else -1, |mutexes|)
      requires tasks[curr].used && Logged(queues, 64, moves)
      modifies this`tasks, this`queues, this`moves, this`curr
      ensures Tables(tasks, queues, taskCount, taskPcount, |mutexes|) && AllOk(tasks, -1, |mutexes|)
      ensures curr == -1 && Logged(queues, 64, moves) && AllKept(old(tasks), tasks)
      ensures forall i :: 0 <= i < 64 ==>
        tasks[i].queue == old(tasks)[i].queue || tasks[i].queue == tasks[i].priority == old(tasks)[i].priority
      ensures OthersWait(old(queues), queues, -1)
      ensures old(Snap()).Sized() && Snap() == GivenUp(old(Snap()))
    {
      SnapSized(Snap(), taskCount, taskPcount, if tasks[curr].Runnable() then curr else -1);
      hide Tables, AllOk, Logged, State.Sized, Absent;
      TablesSize(tasks, queues, taskCount, taskPcount, |mutexes|);
      var prev := curr;
      curr := -1;
      if !tasks[prev].exited && tasks[prev].paused == Running {
        ghost var was := tasks;
        OkAt(tasks, prev, |mutexes|, prev);
        TablesInNone(tasks, queues, taskCount, taskPcount, |mutexes|, prev);
        Insert(tasks[prev].priority, prev);
        OkUpdate(was, prev, |mutexes|, prev, tasks[prev], -1) by { OkWeaken(was, prev, |mutexes|, prev); }
      }
    }

    /** A change of a task that leaves its place and state alone. */
    method Change(t: nat, x: Task)
      requires Tables(tasks, queues, taskCount, taskPcount, |mutexes|) && t < 64 && AllOk(tasks, curr, |mutexes|)
      requires x.Live() == tasks[t].Live() && x.paused == tasks[t].paused && x.queue == tasks[t].queue
      requires TaskOk(x, t == curr, |mutexes|)
      modifies this`tasks
      ensures Tables(tasks, queues, taskCount, taskPcount, |mutexes|) && AllOk(tasks, curr, |mutexes|)
      ensures tasks == old(tasks)[t := x]
    {
      hide Tables, AllOk, TaskOk, Logged;
      TablesSize(tasks, queues, taskCount, taskPcount, |mutexes|);
      TablesUpdate(tasks, queues, taskCount, taskPcount, |mutexes|, t, x);
      OkUpdate(tasks, curr, |mutexes|, t, x, curr) by { OkWeaken(tasks, curr, |mutexes|, t); }
      tasks := tasks[t := x];
    }

    // ----- tasks -----

    /** task_init: one task, current, at user priority. */
    constructor (mutexCount: nat, otherQueues: nat)
      ensures Valid() && curr == 0 && taskCount == 1 && taskPcount == 0 && |mutexes| == mutexCount
      ensures Snap() == Initial(mutexCount, otherQueues)
    {
      var init := Unused().(used := true, priority := 32);
      var none := seq(64, _ => Unused());
      var noTasks: seq<seq<nat>> := seq(64 + mutexCount + otherQueues, _ => []);
      tasks, queues := none[0 := init], noTasks;
      mutexes, depth := seq(mutexCount, _ => Mutex(-1, 0)), seq(mutexCount, _ => seq(64, _ => 0));
      curr, taskCount, taskPcount, resched := 0, 1, 0, false;
      moves := [];
      NothingLogged(64 + mutexCount + otherQueues, 64);
      EmptyCounts(none);
      CountUpdate(none, 0, init);
    }

    /** task_suspend of the current task, on queue `q` or on none (-1); `goal` is where it goes on afterwards. */
    method Suspend(q: int, wait: Pause, goal: Goal) returns (interrupted: bool)
      requires Valid() && curr >= 0 && wait != Running && (q == -1 || 64 <= q < |queues|)
      requires goal == if 64 <= q < 64 + |mutexes| then Acquiring(q - 64, wait) else Anywhere
      requires goal.Acquiring? ==> mutexes[goal.m].lockcnt > 0
      modifies this`tasks, this`queues, this`moves, this`curr, this`resched, this`taskPcount
      ensures Valid()
      ensures var me := old(tasks[curr]);
        interrupted == (wait == Interruptible && !me.stopped && (me.signalPending || me.unseenEvents))
      ensures interrupted ==> curr == old(curr) && tasks == old(tasks)[curr := old(tasks)[curr].(unseenEvents := false)]
      ensures !interrupted ==> curr != old(curr) && tasks[old(curr)].goal == goal && tasks[old(curr)].paused == wait
      ensures !interrupted ==> taskPcount == old(taskPcount) + 1 && (curr == -1 <==> taskCount == taskPcount)
      ensures !interrupted ==> tasks[old(curr)].queue == q && |queues| == |old(queues)|
      ensures !interrupted && q != -1 ==> queues[q] == old(queues)[q] + [old(curr)]
      ensures !interrupted ==> OthersWait(old(queues), queues, q) && AllKeptBut(old(tasks), tasks, old(curr))
      ensures old(Snap()).Sized() && Snap() == Suspended(old(Snap()), q, wait, goal)
    {
      SnapSized(Snap(), taskCount, taskPcount, curr);
      hide Tables, AllOk, MutexesOk, Logged, State.Sized, Scheduled, Absent;
      TablesSize(tasks, queues, taskCount, taskPcount, |mutexes|);
      OkAt(tasks, curr, |mutexes|, curr);
      if tasks[curr].paused != Running {
        assert false;  // panic: curr->paused
      }
      if (tasks[curr].signalPending || tasks[curr].unseenEvents) && !tasks[curr].stopped && wait == Interruptible {
        Change(curr, tasks[curr].(unseenEvents := false));
        return true;
      }
      TablesInNone(tasks, queues, taskCount, taskPcount, |mutexes|, curr);
      SleepsOn(Snap(), q, wait, goal);
      SleepOn(q, wait, goal);
      interrupted := false;
    }

    /** The current task falls asleep and another one is chosen. */
    method SleepOn(q: int, wait: Pause, goal: Goal)
      requires Valid() && curr >= 0 && wait != Running && (q == -1 || 64 <= q < |queues|)
      requires goal == if 64 <= q < 64 + |mutexes| then Acquiring(q - 64, wait) else Anywhere
      requires goal.Acquiring? ==> mutexes[goal.m].lockcnt > 0
      modifies this`tasks, this`queues, this`moves, this`curr, this`resched, this`taskPcount
      ensures Valid() && curr != old(curr) && |old(tasks)| == |tasks| == 64
      ensures tasks[old(curr)].goal == goal && tasks[old(curr)].paused == wait
      ensures taskPcount == old(taskPcount) + 1 && (curr == -1 <==> taskCount == taskPcount)
      ensures var s := old(Snap()).(
          tasks := old(tasks)[old(curr) := old(tasks)[old(curr)].(paused := wait, goal := goal, queue := q)],
          queues := if q == -1 then old(queues) else Joined(old(queues), q, old(curr)));
        s.Sized() && Snap() == Scheduled(s)
    {
      hide Tables, AllOk, MutexesOk, Logged, State.Sized, Scheduled, Joined, AllKept, OnlyOne, NoneBefore;
      FallAsleep(q, wait, goal);
      ghost var asleep := tasks;
      var _, _ := Sched();
      KeptAt(asleep, tasks, old(curr));
      if curr != -1 {
        OkAt(tasks, curr, |mutexes|, curr);
      }
    }

    /** The current task is asleep at the end of its queue; sched has still to be called. */
    method FallAsleep(q: int, wait: Pause, goal: Goal)
      requires Valid() && curr >= 0 && wait != Running && (q == -1 || 64 <= q < |queues|)
      requires goal == if 64 <= q < 64 + |mutexes| then Acquiring(q - 64, wait) else Anywhere
      requires goal.Acquiring? ==> mutexes[goal.m].lockcnt > 0
      modifies this`tasks, this`queues, this`moves, this`taskPcount
      ensures Tables(tasks, queues, taskCount, taskPcount, |mutexes|) && MutexesOk(mutexes, queues, depth)
      ensures Logged(queues, 64, moves) && |tasks| == |old(tasks)| == 64 && AllOk(tasks, -1, |mutexes|)
      ensures tasks == old(tasks)[curr := old(tasks)[curr].(paused := wait, goal := goal, queue := q)]
      ensures queues == if q == -1 then old(queues) else Joined(old(queues), q, curr)
      ensures tasks[curr].used && !tasks[curr].Runnable() && taskPcount == old(taskPcount) + 1
    {
      hide Tables, AllOk, MutexesOk, Logged, Absent;
      TablesSize(tasks, queues, taskCount, taskPcount, |mutexes|);
      OkAt(tasks, curr, |mutexes|, curr);
      TablesInNone(tasks, queues, taskCount, taskPcount, |mutexes|, curr);
      ghost var was, waits, me := tasks, queues, curr;
      var x := tasks[curr].(paused := wait, goal := goal);
      TablesUpdate(tasks, queues, taskCount, taskPcount, |mutexes|, curr, x);
      tasks := tasks[curr := x];
      taskPcount := taskPcount + 1;
      if q != -1 {
        Insert(q, curr);
      }
      assert tasks == was[me := x.(queue := q)];
      OkUpdate(was, me, |mutexes|, me, x.(queue := q), -1) by { OkWeaken(was, me, |mutexes|, me); }
      MutexesEnqueue(mutexes, waits, queues, depth, q);
    }

    /** Events outside the current task that wake a task: a driver, a timer, a queue that is woken up. */
    method Wake(t: nat)
      requires Valid() && t < 64 && tasks[t].Live()
      modifies this`tasks, this`queues, this`moves, this`taskPcount, this`resched
      ensures Valid() && tasks == old(tasks)[t := Resumed(old(tasks)[t])]
      ensures old(Snap()).Sized() && Snap() == Woken(old(Snap()), t)
    {
      hide Tables, AllOk, MutexesOk, Logged, Woken, State.Sized;
      OkAt(tasks, curr, |mutexes|, t);
      OkWeaken(tasks, curr, |mutexes|, t);
      Resume(t);
      MutexesShrunk(mutexes, old(queues), queues, depth);
    }

    /** A change of a task that wakes it if it sleeps interruptibly. */
    method Mark(t: nat, x: Task)
      requires Valid() && t < 64 && tasks[t].Live() && x.Live() && TaskOk(x, t == curr, |mutexes|)
      requires x.paused == tasks[t].paused && x.queue == tasks[t].queue
      modifies this`tasks, this`queues, this`moves, this`taskPcount, this`resched
      ensures Valid() && tasks == old(tasks)[t := if x.paused == Interruptible then Resumed(x) else x]
      ensures old(Snap()).Sized() && x.priority < 64 && Snap() == Marked(old(Snap()), t, x)
    {
      assert x.priority < 64;
      SnapSized(Snap(), taskCount, taskPcount, curr);
      hide Tables, AllOk, MutexesOk, TaskOk, Logged, Woken, State.Sized;
      TablesSize(tasks, queues, taskCount, taskPcount, |mutexes|);
      Change(t, x);
      SnapSized(Snap(), taskCount, taskPcount, curr);
      if tasks[t].paused == Interruptible {
        Wake(t);
      }
    }

    /** signal_send_k; `ignored` tells whether the target ignores the signal. EINVAL for a number out of range. */
    method Signal(t: nat, sig: Sig, ignored: bool) returns (invalid: bool)
      requires Valid() && t < 64 && tasks[t].used
      modifies this`tasks, this`queues, this`moves, this`taskPcount, this`resched
      ensures Valid() && invalid == sig.OutOfRange?
      ensures old(Snap()).Sized() && Snap() == Signalled(old(Snap()), t, sig, ignored)
    {
      SnapSized(Snap(), taskCount, taskPcount, curr);
      hide Tables, AllOk, MutexesOk, Logged, State.Sized, Marked;
      TablesSize(tasks, queues, taskCount, taskPcount, |mutexes|);
      ghost var s := Snap();
      if sig.OutOfRange? {
        return true;
      }
      invalid := false;
      if sig.Zero? || tasks[t].exited || ignored {
        return;
      }
      SignalParts(s, t, sig);
      if sig == Continue || sig == Kill {
        GoAhead(t);
      }
      if sig == Stop {
        OkAt(tasks, curr, |mutexes|, t);
        Change(t, tasks[t].(stopped := true));
      }
      Pend(t);
    }

    /** A task is not stopped any more, and wakes if it sleeps interruptibly. */
    method GoAhead(t: nat)
      requires Valid() && t < 64 && |tasks| == 64 && tasks[t].Live()
      modifies this`tasks, this`queues, this`moves, this`taskPcount, this`resched
      ensures Valid() && |tasks| == 64 && tasks[t].Live() && old(Snap()).Sized() && old(tasks)[t].priority < 64
      ensures Snap() == Marked(old(Snap()), t, old(tasks)[t].(stopped := false))
    {
      hide Tables, AllOk, MutexesOk, Logged, State.Sized, Marked;
      OkAt(tasks, curr, |mutexes|, t);
      Mark(t, tasks[t].(stopped := false));
    }

    /** A signal is pending, and wakes a task that sleeps interruptibly. */
    method Pend(t: nat)
      requires Valid() && t < 64 && |tasks| == 64 && tasks[t].Live()
      modifies this`tasks, this`queues, this`moves, this`taskPcount, this`resched
      ensures Valid() && old(Snap()).Sized() && old(tasks)[t].priority < 64
      ensures Snap() == Marked(old(Snap()), t, old(tasks)[t].(signalPending := true))
    {
      hide Tables, AllOk, MutexesOk, Logged, State.Sized, Marked;
      OkAt(tasks, curr, |mutexes|, t);
      Mark(t, tasks[t].(signalPending := true));
    }

    /** task_getslot: the first free slot of the table, or -1 if there is none or no memory for it. */
    method GetSlot(memory: bool) returns (t: int)
      requires |tasks| == 64
      ensures t == -1 <==> !memory || forall i :: 0 <= i < 64 ==> tasks[i].used
      ensures t != -1 ==> 0 <= t < 64 && !tasks[t].used && forall i :: 0 <= i < t ==> tasks[i].used
    {
      for i := 0 to TASK_MAX
        invariant forall j :: 0 <= j < i ==> tasks[j].used
      {
        if !tasks[i].used {
          return if memory then i else -1;
        }
      }
      return -1;
    }

    /** The new task of task_creat or do_fork enters the table and a ready queue. */
    method Add(t: nat, x: Task, q: nat, priority: nat)
      requires Valid() && t < 64 && !tasks[t].used && q < 64 && priority < 64
      requires x.used && !x.exited && x.paused == Running && x.queue == -1 && x.goal == Anywhere
      modifies this`tasks, this`queues, this`moves, this`taskCount
      ensures Valid() && tasks == old(tasks)[t := x.(queue := q, priority := priority)]
      ensures taskCount == old(taskCount) + 1 && q < |old(queues)| && queues == Joined(old(queues), q, t)
    {
      hide Tables, AllOk, MutexesOk, Logged, Absent;
      TablesSize(tasks, queues, taskCount, taskPcount, |mutexes|);
      ghost var was := tasks;
      OkAt(tasks, curr, |mutexes|, t);
      TablesInNone(tasks, queues, taskCount, taskPcount, |mutexes|, t);
      TablesUpdate(tasks, queues, taskCount, taskPcount, |mutexes|, t, x);
      tasks := tasks[t := x];
      taskCount := taskCount + 1;
      Insert(q, t);
      var y := x.(queue := q, priority := priority);
      TablesUpdate(tasks, queues, taskCount, taskPcount, |mutexes|, t, y);
      tasks := tasks[t := y];
      assert tasks == was[t := y];
      OkUpdate(was, curr, |mutexes|, t, y, curr) by { OkWeaken(was, curr, |mutexes|, t); }
      MutexesSame(mutexes, old(queues), queues, depth);
    }

    /**
      task_creat: a copy of the current task, on its ready queue; -1 if its name, a slot or its pages are not to be
      had.
     */
    method Create(named: bool, memory: bool, pages: bool) returns (t: int)
      requires Valid() && curr >= 0 && tasks[curr].goal == Anywhere
      modifies this`tasks, this`queues, this`moves, this`taskCount
      ensures Valid()
      ensures t == -1 <==> !named || !memory || !pages || forall i :: 0 <= i < 64 ==> old(tasks)[i].used
      ensures t == -1 ==> tasks == old(tasks)
      ensures t != -1 ==> 0 <= t < 64 && !old(tasks)[t].used && taskCount == old(taskCount) + 1
      ensures t != -1 ==>
        var me := old(tasks)[curr];
        tasks == old(tasks)[t := me.(timeSlice := -1, unseenEvents := false, signalPending := false,
          queue := me.priority)]
      ensures old(Snap()).Sized() && Snap() == Spawned(old(Snap()), named, memory, pages)
    {
      SnapSized(Snap(), taskCount, taskPcount, curr);
      hide Tables, AllOk, MutexesOk, Logged, State.Sized, Spawned, FreeSlot;
      TablesSize(tasks, queues, taskCount, taskPcount, |mutexes|);
      SpawnedNot(Snap(), named, memory, pages);
      if !named {
        return -1;
      }
      t := GetSlot(memory);
      if t != -1 && !pages {
        return -1;  // the slot is given back
      }
      if t != -1 {
        SpawnedTasks(Snap(), t);
        Copy(t, Snap());
      }
    }

    /** The new task is a copy of the current one. */
    method Copy(t: nat, ghost s: State)
      requires Valid() && curr >= 0 && tasks[curr].goal == Anywhere && t < 64 && !tasks[t].used
      requires s == Snap() && s.Sized() && t == FreeSlot(s.tasks, 0)
      modifies this`tasks, this`queues, this`moves, this`taskCount
      ensures Valid() && taskCount == old(taskCount) + 1 && Snap() == Spawned(s, true, true, true)
    {
      hide Tables, AllOk, MutexesOk, Logged, State.Sized, Joined, FreeSlot;
      TablesSize(tasks, queues, taskCount, taskPcount, |mutexes|);
      OkAt(tasks, curr, |mutexes|, curr);
      var x := tasks[curr].(timeSlice := -1, unseenEvents := false, signalPending := false);
      Add(t, x, x.priority, x.priority);
    }

    /**
      do_fork: the child goes to the queue of priority 0, that of its zeroed slot, before it gets its parent's priority.
      If its pages cannot be copied it stays, with a signal that will end it.
     */
    method Fork(memory: bool, pages: bool) returns (t: int)
      requires Valid() && curr >= 0
      modifies this`tasks, this`queues, this`moves, this`taskCount, this`taskPcount, this`resched
      ensures Valid() && (t == -1 <==> !memory || forall i :: 0 <= i < 64 ==> old(tasks)[i].used)
      ensures t == -1 ==> tasks == old(tasks)
      ensures t != -1 ==> 0 <= t < 64 && !old(tasks)[t].used && taskCount == old(taskCount) + 1
      ensures t != -1 ==>
        var me := old(tasks)[curr];
        tasks == old(tasks)[t := Unused().(used := true, signalPending := me.signalPending || !pages,
                                           priority := me.priority, queue := 0)]
      ensures old(Snap()).Sized() && Snap() == Forked(old(Snap()), memory, pages)
    {
      SnapSized(Snap(), taskCount, taskPcount, curr);
      hide Tables, AllOk, MutexesOk, Logged, State.Sized, Joined, FreeSlot, Signalled;
      TablesSize(tasks, queues, taskCount, taskPcount, |mutexes|);
      OkAt(tasks, curr, |mutexes|, curr);
      t := GetSlot(memory);
      if t != -1 {
        var x := Unused().(used := true, signalPending := tasks[curr].signalPending);
        Add(t, x, x.priority, tasks[curr].priority);
        if !pages {
          Doom(t);
        }
      }
    }

    /** A child that has not got its pages is to end when it runs. */
    method Doom(t: nat)
      requires Valid() && curr >= 0 && t < 64 && tasks[t].Live() && tasks[t].paused == Running && !tasks[t].stopped
      modifies this`tasks, this`queues, this`moves, this`taskPcount, this`resched
      ensures Valid() && tasks == old(tasks)[t := old(tasks)[t].(signalPending := true)]
      ensures queues == old(queues) && resched == old(resched)
    {
      SnapSized(Snap(), taskCount, taskPcount, curr);
      SignalAwake(Snap(), t);
      hide Tables, AllOk, MutexesOk, Logged, State.Sized, Signalled;
      var _ := Signal(t, Other, false);
    }

    /** The end of task_exit: the current task is no longer counted, and is never current again. */
    method Exit()
      requires Valid() && curr >= 0 && tasks[curr].goal == Anywhere
      modifies this`tasks, this`queues, this`moves, this`curr, this`resched, this`taskCount
      ensures Valid() && taskCount == old(taskCount) - 1 && curr != old(curr) && tasks[old(curr)].exited
      ensures old(Snap()).Sized() && Snap() == Exited(old(Snap()))
    {
      SnapSized(Snap(), taskCount, taskPcount, curr);
      hide Tables, AllOk, MutexesOk, Logged, State.Sized, Scheduled, NoneBefore, OnlyOne;
      TablesSize(tasks, queues, taskCount, taskPcount, |mutexes|);
      OkAt(tasks, curr, |mutexes|, curr);
      var x := tasks[curr].(exited := true);
      TablesUpdate(tasks, queues, taskCount, taskPcount, |mutexes|, curr, x);
      OkUpdate(tasks, curr, |mutexes|, curr, x, -1) by { OkWeaken(tasks, curr, |mutexes|, curr); }
      taskCount := taskCount - 1;
      tasks := tasks[curr := x];
      PcountNatural(tasks, queues, taskCount, taskPcount, |mutexes|);
      if taskCount < 0 {
        assert false;  // panic: task_count < 0
      }
      var _, _ := Sched();
      if curr != -1 {
        OkAt(tasks, curr, |mutexes|, curr);
      }
    }

    /** The slot of an exited task is freed. */
    method Reap(t: nat)
      requires Valid() && t < 64 && tasks[t].exited
      modifies this`tasks
      ensures Valid() && tasks == old(tasks)[t := Unused()]
    {
      hide Tables, AllOk, MutexesOk, Logged;
      OkAt(tasks, curr, |mutexes|, t);
      Change(t, Unused());
    }

    /** task_set_prio of the current task. */
    method SetPrio(prio: nat)
      requires Valid() && curr >= 0 && prio <= TASK_PRIO_LOW
      modifies this`tasks
      ensures Valid() && tasks == old(tasks)[curr := old(tasks)[curr].(priority := prio)]
    {
      hide Tables, AllOk, MutexesOk, Logged;
      OkAt(tasks, curr, |mutexes|, curr);
      Change(curr, tasks[curr].(priority := prio));
    }

    /** The part of clock_intr that charges the current task. */
    method Tick()
      requires Valid()
      modifies this`tasks, this`resched
      ensures Valid()
      ensures curr == -1 ==> tasks == old(tasks) && resched == old(resched)
      ensures curr >= 0 ==> tasks == old(tasks)[curr := old(tasks)[curr].(timeSlice := old(tasks)[curr].timeSlice - 1)]
      ensures curr >= 0 ==> resched == (old(resched) || tasks[curr].timeSlice < 0)
      ensures old(Snap()).Sized() && Snap() == Ticked(old(Snap()))
    {
      SnapSized(Snap(), taskCount, taskPcount, curr);
      hide Tables, AllOk, MutexesOk, Logged, State.Sized;
      if curr != -1 {
        OkAt(tasks, curr, |mutexes|, curr);
        Change(curr, tasks[curr].(timeSlice := tasks[curr].timeSlice - 1));
        if tasks[curr].timeSlice < 0 {
          resched := true;
        }
      }
    }

    // ----- mutexes -----

    /** The current task is no longer in mtx_enter. */
    method ForgetGoal()
      requires Valid() && curr >= 0
      modifies this`tasks
      ensures Valid() && |old(tasks)| == |tasks| == 64
      ensures tasks == old(tasks)[curr := old(tasks)[curr].(goal := Anywhere)]
    {
      hide Tables, AllOk, MutexesOk, Logged;
      OkAt(tasks, curr, |mutexes|, curr);
      Change(curr, tasks[curr].(goal := Anywhere));
    }

    /** A free mutex is taken by the current task. */
    method Take(m: nat)
      requires Valid() && curr >= 0 && m < |mutexes| && mutexes[m].lockcnt == 0
      modifies this`mutexes, this`depth, this`tasks
      ensures Valid() && mutexes == old(mutexes)[m := Mutex(curr, 1)]
      ensures |depth| == |old(depth)| > m && |old(depth)[m]| == 64
      ensures depth == old(depth)[m := old(depth)[m][curr := old(depth)[m][curr] + 1]]
      ensures tasks == old(tasks)[curr := old(tasks)[curr].(goal := Anywhere)]
      ensures old(Snap()).Sized() && old(Snap()).Has(m) && Snap() == Entered(old(Snap()), m)
    {
      SnapSized(Snap(), taskCount, taskPcount, curr);
      hide Tables, AllOk, MutexesOk, Logged, State.Sized;
      MutexAt(mutexes, queues, depth, m);
      OkAt(tasks, curr, |mutexes|, curr);
      Change(curr, tasks[curr].(goal := Anywhere));
      ghost var d := depth[m][curr := depth[m][curr] + 1];
      MutexSet(mutexes, queues, depth, m, Mutex(curr, 1), d);
      depth := depth[m := d];
      mutexes := mutexes[m := Mutex(curr, 1)];
    }

    /** The loop of mtx_enter: the mutex is taken once it is free; until then the task sleeps on its queue. */
    method Acquire(m: nat, wait: Pause) returns (r: Entry)
      requires Valid() && curr >= 0 && m < |mutexes|
      modifies this`tasks, this`queues, this`moves, this`curr, this`resched, this`taskPcount, this`mutexes, this`depth
      ensures Valid() && |mutexes| == |old(mutexes)|
      ensures r == Acquired <==> old(mutexes)[m].lockcnt == 0
      ensures r == Acquired ==> curr == old(curr) && m < |depth| && |old(depth)| == |depth| && |old(depth)[m]| == 64
      ensures r == Acquired ==> depth == old(depth)[m := old(depth)[m][curr := old(depth)[m][curr] + 1]]
      ensures r != Acquired ==> depth == old(depth) && mutexes == old(mutexes)
      ensures r != Blocked ==> curr == old(curr) && tasks[curr].goal == Anywhere
      ensures r == Blocked ==> curr != old(curr) && tasks[old(curr)].goal == Acquiring(m, wait)
      ensures r == Again ==> wait == Running
      ensures old(Snap()).Sized() && old(Snap()).Has(m) && Snap() == Awaited(old(Snap()), m, wait)
    {
      SnapSized(Snap(), taskCount, taskPcount, curr);
      hide Tables, AllOk, MutexesOk, Logged, State.Sized, Entered, Suspended, Awaited;
      ghost var s := Snap();
      MutexAt(mutexes, queues, depth, m);
      OkAt(tasks, curr, |mutexes|, curr);
      AwaitedIs(s, m, wait);
      if mutexes[m].lockcnt == 0 {
        Take(m);
        return Acquired;
      }
      if wait == Running {
        ForgetGoal();
        return Again;
      }
      r := Await(m, wait, Snap());
    }

    /** The task sleeps on the queue of the mutex, unless a signal or an event has come. */
    method Await(m: nat, wait: Pause, ghost s: State) returns (r: Entry)
      requires Valid() && curr >= 0 && m < |mutexes| && mutexes[m].lockcnt > 0 && wait != Running
      requires s == Snap() && s.Sized() && s.Has(m)
      modifies this`tasks, this`queues, this`moves, this`curr, this`resched, this`taskPcount
      ensures Valid() && (r == Interrupted || r == Blocked)
      ensures r == Interrupted ==> curr == old(curr) && tasks[curr].goal == Anywhere
      ensures r == Blocked ==> curr != old(curr) && tasks[old(curr)].goal == Acquiring(m, wait)
      ensures Snap() == Awaited(s, m, wait)
    {
      hide Tables, AllOk, MutexesOk, Logged, State.Sized, Suspended, Awaited, OthersWait, AllKeptBut;
      AwaitedIs(s, m, wait);
      TablesSize(tasks, queues, taskCount, taskPcount, |mutexes|);
      var interrupted := Suspend(64 + m, wait, Acquiring(m, wait));
      if interrupted {
        SuspendedNot(s, 64 + m, wait, Acquiring(m, wait));
        ForgetGoal();
        return Interrupted;
      }
      return Blocked;
    }

    /** mtx_enter. */
    method Enter(m: nat, wait: Pause) returns (r: Entry)
      requires Valid() && curr >= 0 && tasks[curr].goal == Anywhere && m < |mutexes|
      modifies this`tasks, this`queues, this`moves, this`curr, this`resched, this`taskPcount, this`mutexes, this`depth
      ensures Valid() && |mutexes| == |old(mutexes)|
      ensures r == Acquired <==> old(mutexes)[m].owner == -1 || old(mutexes)[m].owner == old(curr)
      ensures r == Acquired ==> curr == old(curr) && m < |depth| && |old(depth)| == |depth| && |old(depth)[m]| == 64
      ensures r == Acquired ==> depth == old(depth)[m := old(depth)[m][curr := old(depth)[m][curr] + 1]]
      ensures r != Acquired ==> depth == old(depth) && mutexes == old(mutexes)
      ensures r == Blocked ==> curr != old(curr) && tasks[old(curr)].goal == Acquiring(m, wait)
      ensures old(Snap()).Sized() && old(Snap()).Has(m) && Snap() == Locked(old(Snap()), m, wait)
    {
      SnapSized(Snap(), taskCount, taskPcount, curr);
      HasMutex(Snap(), m);
      hide Tables, AllOk, MutexesOk, Logged, State.Sized, Awaited, Suspended, Entered, Locked, State.Has;
      LockedIs(Snap(), m, wait);
      TablesSize(tasks, queues, taskCount, taskPcount, |mutexes|);
      if mutexes[m].owner == -1 {
        Take(m);
        return Acquired;
      }
      if mutexes[m].owner == curr {
        EnterAgain(m);
        return Acquired;
      }
      r := Acquire(m, wait);
    }

    /** The owner goes in once more. */
    method EnterAgain(m: nat)
      requires Valid() && curr >= 0 && m < |mutexes| && mutexes[m].owner == curr
      requires |tasks| == 64 && tasks[curr].goal == Anywhere
      modifies this`mutexes, this`depth
      ensures Valid() && |mutexes| == |old(mutexes)| && |depth| == |old(depth)| > m && |old(depth)[m]| == 64
      ensures depth == old(depth)[m := old(depth)[m][curr := old(depth)[m][curr] + 1]]
      ensures old(Snap()).Sized() && old(Snap()).Has(m) && Snap() == Entered(old(Snap()), m)
    {
      SnapSized(Snap(), taskCount, taskPcount, curr);
      hide Tables, AllOk, MutexesOk, Logged, State.Sized;
      MutexAt(mutexes, queues, depth, m);
      var x := Mutex(curr, mutexes[m].lockcnt + 1);
      ghost var d := depth[m][curr := depth[m][curr] + 1];
      MutexSet(mutexes, queues, depth, m, x, d);
      mutexes := mutexes[m := x];
      depth := depth[m := d];
      assert tasks[curr := tasks[curr].(goal := Anywhere)] == tasks;
    }

    /** A task that slept in mtx_enter runs again. */
    method GoOn() returns (r: Entry)
      requires Valid() && curr >= 0 && tasks[curr].goal.Acquiring?
      modifies this`tasks, this`queues, this`moves, this`curr, this`resched, this`taskPcount, this`mutexes, this`depth
      ensures Valid() && |mutexes| == |old(mutexes)| && r != Again
      ensures var m := old(tasks[curr].goal.m); m < |mutexes| && (r == Acquired <==> old(mutexes)[m].lockcnt == 0)
      ensures var m := old(tasks[curr].goal.m);
        r == Acquired ==> curr == old(curr) && |depth| == |old(depth)| > m && |old(depth)[m]| == 64
      ensures var m := old(tasks[curr].goal.m);
        r == Acquired ==> depth == old(depth)[m := old(depth)[m][curr := old(depth)[m][curr] + 1]]
      ensures r != Acquired ==> depth == old(depth) && mutexes == old(mutexes)
      ensures r != Blocked ==> curr == old(curr) && tasks[curr].goal == Anywhere
      ensures r == Blocked ==> curr != old(curr) && tasks[old(curr)].goal == old(tasks[curr].goal)
      ensures var goal := old(tasks[curr].goal);
        old(Snap()).Sized() && old(Snap()).Has(goal.m) && Snap() == Awaited(old(Snap()), goal.m, goal.wait)
    {
      hide Tables, AllOk, MutexesOk, Logged, State.Sized, Awaited, State.Has;
      OkAt(tasks, curr, |mutexes|, curr);
      r := Acquire(tasks[curr].goal.m, tasks[curr].goal.wait);
    }

    /** mtx_leave by the owner; the last one out wakes every waiter. */
    method Leave(m: nat)
      requires Valid() && curr >= 0 && m < |mutexes| && mutexes[m].owner == curr
      modifies this`tasks, this`queues, this`moves, this`resched, this`taskPcount, this`mutexes, this`depth
      ensures Valid() && |mutexes| == |old(mutexes)| && |depth| == |mutexes| == |old(depth)|
      ensures |old(depth)[m]| == 64 && old(depth)[m][curr] > 0
      ensures depth == old(depth)[m := old(depth)[m][curr := old(depth)[m][curr] - 1]]
      ensures mutexes[m].owner == -1 ==>
        forall t :: 0 <= t < 64 && tasks[t].goal.Acquiring? && tasks[t].goal.m == m ==> tasks[t].paused == Running
      ensures old(Snap()).Sized() && old(Snap()).Has(m) && old(mutexes)[m].lockcnt > 0 && Numbers(old(queues)[64 + m])
      ensures Snap() == Unlocked(old(Snap()), m)
    {
      SnapSized(Snap(), taskCount, taskPcount, curr);
      AllNumbers(tasks, queues, taskCount, taskPcount, |mutexes|, 64 + m);
      hide Tables, AllOk, MutexesOk, Logged, State.Sized, Numbers, AllWoken;
      MutexAt(mutexes, queues, depth, m);
      var x := mutexes[m].(lockcnt := mutexes[m].lockcnt - 1);
      if x.lockcnt > 0 {
        ghost var d := depth[m][curr := depth[m][curr] - 1];
        MutexSet(mutexes, queues, depth, m, x, d);
        mutexes := mutexes[m := x];
        depth := depth[m := d];
        return;
      }
      Free(m);
    }

    /** The last one out: the mutex is free, and every waiter wakes. */
    method Free(m: nat)
      requires Valid() && curr >= 0 && m < |mutexes| && mutexes[m] == Mutex(curr, 1)
      modifies this`tasks, this`queues, this`moves, this`resched, this`taskPcount, this`mutexes, this`depth
      ensures Valid() && |mutexes| == |old(mutexes)| && |depth| == |mutexes| == |old(depth)|
      ensures |old(depth)[m]| == 64 && old(depth)[m][curr] > 0 && mutexes[m].owner == -1
      ensures depth == old(depth)[m := old(depth)[m][curr := old(depth)[m][curr] - 1]]
      ensures forall t :: 0 <= t < 64 && tasks[t].goal.Acquiring? && tasks[t].goal.m == m ==> tasks[t].paused == Running
      ensures |old(queues)| >= 64 + |mutexes| && Numbers(old(queues)[64 + m])
      ensures var s := old(Snap()).(mutexes := old(mutexes)[m := Mutex(-1, 0)], depth := depth);
        s.Sized() && Snap() == AllWoken(s, old(queues)[64 + m])
    {
      hide Tables, AllOk, MutexesOk, Logged, State.Sized, Numbers, AllWoken;
      MutexAt(mutexes, queues, depth, m);
      TablesSize(tasks, queues, taskCount, taskPcount, |mutexes|);
      ghost var d := depth[m][curr := depth[m][curr] - 1];
      MutexSetBut(mutexes, queues, depth, m, Mutex(-1, 0), d);
      mutexes := mutexes[m := Mutex(-1, 0)];
      depth := depth[m := d];
      WakeAll(m);
      MutexUpdate(mutexes, queues, depth, m, mutexes[m], d, queues);
      assert mutexes[m := mutexes[m]] == mutexes && depth[m := d] == depth;
      AllAwake(tasks, curr, queues, mutexes, depth, m, taskCount, taskPcount);
    }

    /** The loop of mtx_leave. */
    method WakeAll(m: nat)
      requires Tables(tasks, queues, taskCount, taskPcount, |mutexes|) && AllOk(tasks, curr, |mutexes|)
      requires -1 <= curr < 64
      requires m < |mutexes| && MutexesOkBut(mutexes, queues, depth, m)
      requires Logged(queues, 64, moves)
      modifies this`tasks, this`queues, this`moves, this`resched, this`taskPcount
      ensures Logged(queues, 64, moves)
      ensures Tables(tasks, queues, taskCount, taskPcount, |mutexes|) && AllOk(tasks, curr, |mutexes|)
      ensures MutexesOkBut(mutexes, queues, depth, m) && |queues| >= 64 + |mutexes| && queues[64 + m] == []
      ensures old(Snap()).Sized() && |old(queues)| >= 64 + |mutexes| && Numbers(old(queues)[64 + m])
      ensures Snap() == AllWoken(old(Snap()), old(queues)[64 + m])
    {
      SnapSized(Snap(), taskCount, taskPcount, curr);
      AllNumbers(tasks, queues, taskCount, taskPcount, |mutexes|, 64 + m);
      hide Tables, AllOk, MutexesOkBut, Logged, State.Sized, Numbers, AllWoken, Woken;
      TablesSize(tasks, queues, taskCount, taskPcount, |mutexes|);
      while queues[64 + m] != []
        invariant Tables(tasks, queues, taskCount, taskPcount, |mutexes|) && AllOk(tasks, curr, |mutexes|)
        invariant MutexesOkBut(mutexes, queues, depth, m) && |queues| == |old(queues)| && Logged(queues, 64, moves)
        invariant old(Snap()).Sized() && Snap().Sized() && Numbers(queues[64 + m]) && Numbers(old(queues)[64 + m])
        invariant AllWoken(Snap(), queues[64 + m]) == AllWoken(old(Snap()), old(queues)[64 + m])
        decreases |queues[64 + m]|
      {
        WakeFirst(m);
      }
      NobodyWoken(Snap());
    }

    /** The first waiter wakes. */
    method WakeFirst(m: nat)
      requires Tables(tasks, queues, taskCount, taskPcount, |mutexes|) && AllOk(tasks, curr, |mutexes|)
      requires -1 <= curr < 64 && Logged(queues, 64, moves)
      requires m < |mutexes| && MutexesOkBut(mutexes, queues, depth, m) && |queues| >= 64 + |mutexes|
      requires queues[64 + m] != [] && Snap().Sized() && Numbers(queues[64 + m])
      modifies this`tasks, this`queues, this`moves, this`resched, this`taskPcount
      ensures Logged(queues, 64, moves) && MutexesOkBut(mutexes, queues, depth, m)
      ensures Tables(tasks, queues, taskCount, taskPcount, |mutexes|) && AllOk(tasks, curr, |mutexes|)
      ensures |queues| == |old(queues)| && queues[64 + m] == old(queues)[64 + m][1..]
      ensures Snap().Sized() && Numbers(queues[64 + m])
      ensures AllWoken(Snap(), queues[64 + m]) == AllWoken(old(Snap()), old(queues)[64 + m])
    {
      hide Tables, AllOk, MutexesOkBut, Logged, State.Sized, Numbers, AllWoken, Woken, Absent;
      ghost var was, waits, s := tasks, queues, Snap();
      FirstWoken(s, queues[64 + m]);
      var t := Dequeue(64 + m);
      OkAt(was, curr, |mutexes|, t);
      OkBut(was, curr, |mutexes|, t, tasks[t]) by { OkWeaken(was, curr, |mutexes|, t); }
      OutFirst(s, 64 + m, t, taskCount, taskPcount);
      Resume(t);
      MutexesKept(mutexes, waits, queues, depth, m);
      AllNumbers(tasks, queues, taskCount, taskPcount, |mutexes|, 64 + m);
    }

    // ----- whole runs -----

    /** May this event happen now? What callers of the kernel owe is here; everything else is always possible. */
    predicate Possible(e: Event)
      reads this
      requires |tasks| == 64 && -1 <= curr < 64
    {
      var free := curr != -1 && tasks[curr].goal == Anywhere;
      match e
      case Dispatch => curr == -1 && taskCount != taskPcount
      case WakeUp(t) => t < 64 && tasks[t].Live()
      case SendSignal(t, _, _) => t < 64 && tasks[t].used
      case ClockTick => true
      case Retry => curr != -1 && tasks[curr].goal.Acquiring?
      case ReapTask(t) => t < 64 && tasks[t].exited
      case Yield => free
      case Spawn(_, _, _) => free
      case ForkTask(_, _) => free
      case ExitTask => free && curr != 0  // panic: init exited
      case Priority(p) => free && p <= TASK_PRIO_LOW
      case Sleep(q, wait) => free && wait != Running && (q == -1 || 64 + |mutexes| <= q < |queues|)
      case Lock(m, _) => free && m < |mutexes|
      case Unlock(m) => free && m < |mutexes| && mutexes[m].owner == curr
    }

    /** One event. */
    method Step(e: Event)
      requires Valid() && |tasks| == 64 && Possible(e)
      modifies this
      ensures Valid() && |mutexes| == |old(mutexes)|
      ensures !e.Lock? && !e.Retry? && !e.Unlock? ==> depth == old(depth)
      ensures old(Snap()).Sized() && PlainKernel.Possible(old(Snap()), e) && Snap() == Happens(old(Snap()), e)
    {
      PossibleIs(e);
      hide Tables, AllOk, MutexesOk, Logged, State.Sized, PlainKernel.Possible, Happens, Scheduled, Dispatched, Woken;
      hide Signalled, Ticked, Spawned, Forked, Exited, Suspended, Locked, Awaited, Unlocked, Numbers, State.Has;
      hide OthersWait, AllKeptBut;
      OkCurr(tasks, curr, |mutexes|);
      if e.Dispatch? || e.WakeUp? || e.SendSignal? || e.ClockTick? || e.ReapTask? {
        Interrupt(e);
      } else if e.Sleep? || e.Lock? || e.Retry? || e.Unlock? {
        Wait(e);
      } else {
        Act(e);
      }
    }

    /** What comes from outside the current task. */
    method Interrupt(e: Event)
      requires Valid() && |tasks| == 64 && Possible(e) && Snap().Sized() && PlainKernel.Possible(Snap(), e)
      requires e.Dispatch? || e.WakeUp? || e.SendSignal? || e.ClockTick? || e.ReapTask?
      modifies this`tasks, this`queues, this`moves, this`curr, this`resched, this`taskPcount
      ensures Valid() && Snap() == Happens(old(Snap()), e)
    {
      HappensIs(Snap(), e);
      hide Tables, AllOk, MutexesOk, Logged, State.Sized, PlainKernel.Possible, Happens, Scheduled, Dispatched, Woken;
      hide Signalled, Ticked, Spawned, Forked, Exited, Suspended, Locked, Awaited, Unlocked, Numbers, State.Has;
      match e
      case Dispatch => RunIdle();
      case WakeUp(t) => Wake(t);
      case SendSignal(t, sig, ignored) => var _ := Signal(t, sig, ignored);
      case ClockTick => Tick();
      case ReapTask(t) => Reap(t);
    }

    /** What the current task does. */
    method Act(e: Event)
      requires Valid() && |tasks| == 64 && Possible(e) && Snap().Sized() && PlainKernel.Possible(Snap(), e)
      requires e.Yield? || e.Priority? || e.Spawn? || e.ForkTask? || e.ExitTask?
      modifies this
      ensures Valid() && |mutexes| == |old(mutexes)| && Snap() == Happens(old(Snap()), e)
      ensures !e.Lock? && !e.Retry? && !e.Unlock? ==> depth == old(depth)
    {
      HappensIs(Snap(), e);
      hide Tables, AllOk, MutexesOk, Logged, State.Sized, PlainKernel.Possible, Happens, Scheduled, Dispatched, Woken;
      hide Signalled, Ticked, Spawned, Forked, Exited, Suspended, Locked, Awaited, Unlocked, Numbers, State.Has;
      OkCurr(tasks, curr, |mutexes|);
      match e
      case Yield => var _, _ := Sched();
      case Priority(p) => SetPrio(p);
      case Spawn(named, memory, pages) => var _ := Create(named, memory, pages);
      case ForkTask(memory, pages) => var _ := Fork(memory, pages);
      case ExitTask => Exit();
    }

    /** The current task sleeps, or calls a function of kern/mutex.c. */
    method Wait(e: Event)
      requires Valid() && |tasks| == 64 && Possible(e) && Snap().Sized() && PlainKernel.Possible(Snap(), e)
      requires e.Sleep? || e.Lock? || e.Retry? || e.Unlock?
      modifies this
      ensures Valid() && |mutexes| == |old(mutexes)| && Snap() == Happens(old(Snap()), e)
      ensures e.Sleep? ==> depth == old(depth)
    {
      HappensIs(Snap(), e);
      hide Tables, AllOk, MutexesOk, Logged, State.Sized, PlainKernel.Possible, Happens, Scheduled, Dispatched, Woken;
      hide Signalled, Ticked, Spawned, Forked, Exited, Suspended, Locked, Awaited, Unlocked, Numbers, State.Has;
      hide OthersWait, AllKeptBut;
      OkCurr(tasks, curr, |mutexes|);
      match e
      case Sleep(q, wait) => var _ := Suspend(q, wait, Anywhere);
      case Lock(m, wait) => var _ := Enter(m, wait);
      case Retry => var _ := GoOn();
      case Unlock(m) => Leave(m);
    }

    lemma PossibleIs(e: Event)
      requires Valid() && |tasks| == 64
      ensures Snap().Sized() && (Possible(e) <==> PlainKernel.Possible(Snap(), e))
    {
      SnapSized(Snap(), taskCount, taskPcount, curr);
      CountersTell(tasks, queues, curr, taskCount, taskPcount, |mutexes|);
      match e {
        case Lock(m, _) => HasMutex(Snap(), m);
        case Retry =>
          OkCurr(tasks, curr, |mutexes|);
          if Possible(e) {
            OkAt(tasks, curr, |mutexes|, curr);
            HasMutex(Snap(), tasks[curr].goal.m);
          }
        case Unlock(m) =>
          HasMutex(Snap(), m);
          if Possible(e) {
            AllNumbers(tasks, queues, taskCount, taskPcount, |mutexes|, 64 + m);
          }
        case _ =>
      }
    }

    /** sched goes on after its idle loop. */
    method RunIdle()
      requires Valid() && curr == -1 && taskCount != taskPcount
      modifies this`tasks, this`queues, this`moves, this`curr
      ensures Valid() && curr >= 0
      ensures old(Snap()).Sized() && Snap() == Dispatched(old(Snap()))
    {
      hide Tables, AllOk, MutexesOk, Logged, State.Sized, Dispatched;
      var _ := Pick();
      MutexesSame(mutexes, old(queues), queues, depth);
    }
  }

  lemma OkCurr(tasks: seq<Task>, curr: int, nm: nat)
    requires AllOk(tasks, curr, nm) && -1 <= curr < 64
    ensures |tasks| == 64 && (curr != -1 ==> tasks[curr].Runnable())
  {
    if curr != -1 {
      OkAt(tasks, curr, nm, curr);
    }
  }

  /** Any run: from the start, every event that is possible when its turn comes keeps the kernel in order. */
  method Run(mutexCount: nat, otherQueues: nat, events: seq<Event>) returns (k: Machine)
    ensures fresh(k) && k.Valid() && k.Snap() == Outcome(Initial(mutexCount, otherQueues), events)
  {
    hide Tables, AllOk, MutexesOk, Logged, State.Sized, PlainKernel.Possible, Happens, Initial;
    k := new Machine(mutexCount, otherQueues);
    assert events[..0] == [];
    for i := 0 to |events|
      invariant fresh(k) && k.Valid() && k.Snap() == Outcome(Initial(mutexCount, otherQueues), events[..i])
    {
      assert events[..i + 1][..i] == events[..i];
      OkCurr(k.tasks, k.curr, |k.mutexes|);
      k.PossibleIs(events[i]);
      if k.Possible(events[i]) {
        k.Step(events[i]);
      }
    }
    assert events[..|events|] == events;
  }

  lemma {:induction false} EmptyCounts(tasks: seq<Task>)
    requires forall i :: 0 <= i < |tasks| ==> tasks[i] == Unused()
    ensures LiveCount(tasks) == 0 == PausedCount(tasks)
    decreases |tasks|
  {
    if tasks != [] {
      EmptyCounts(tasks[..|tasks| - 1]);
    }
  }

  lemma MutexesEnqueue(mutexes: seq<Mutex>, queues: seq<seq<nat>>, queues': seq<seq<nat>>, depth: seq<seq<nat>>, q: int)
    requires MutexesOk(mutexes, queues, depth) && |queues'| == |queues|
    requires forall p :: 64 <= p < |queues| && p != q ==> queues'[p] == queues[p]
    requires 64 <= q < 64 + |mutexes| ==> mutexes[q - 64].lockcnt > 0
    ensures MutexesOk(mutexes, queues', depth)
  {
    forall m: nat | m < |mutexes| ensures MutexOk(mutexes[m], queues'[64 + m], depth[m]) {
      assert MutexOk(mutexes[m], queues[64 + m], depth[m]);
      assert 64 + m != q ==> queues'[64 + m] == queues[64 + m];
    }
  }

  lemma MutexSet(mutexes: seq<Mutex>, queues: seq<seq<nat>>, depth: seq<seq<nat>>, m: nat, x: Mutex, d: seq<nat>)
    requires MutexesOk(mutexes, queues, depth) && m < |mutexes| && |queues| >= 64 + |mutexes|
    requires MutexOk(x, queues[64 + m], d)
    ensures MutexesOk(mutexes[m := x], queues, depth[m := d])
  {
    hide MutexOk;
    MutexUpdate(mutexes, queues, depth, m, x, d, queues);
  }

  lemma MutexSetBut(mutexes: seq<Mutex>, queues: seq<seq<nat>>, depth: seq<seq<nat>>, m: nat, x: Mutex, d: seq<nat>)
    requires MutexesOk(mutexes, queues, depth) && m < |mutexes|
    ensures |depth| == |mutexes| && MutexesOkBut(mutexes[m := x], queues, depth[m := d], m)
  {
    hide MutexOk;
  }

  /** Once the last holder has left, nobody sleeps for the mutex. */
  lemma AllAwake(tasks: seq<Task>, curr: int, queues: seq<seq<nat>>, mutexes: seq<Mutex>, depth: seq<seq<nat>>, m: nat,
      count: int, pcount: int)
    requires AllOk(tasks, curr, |mutexes|) && Tables(tasks, queues, count, pcount, |mutexes|)
    requires MutexesOk(mutexes, queues, depth)
    requires m < |mutexes| && mutexes[m].lockcnt == 0
    ensures forall t :: 0 <= t < 64 && tasks[t].goal.Acquiring? && tasks[t].goal.m == m ==> tasks[t].paused == Running
  {
    hide AllOk, Queues, Counted, MutexesOk;
    forall t | 0 <= t < 64 && tasks[t].goal.Acquiring? && tasks[t].goal.m == m ensures tasks[t].paused == Running {
      if tasks[t].paused != Running {
        NoLostWakeup(tasks, curr, queues, mutexes, depth, t);
      }
    }
  }

  lemma MutexesShrunk(mutexes: seq<Mutex>, queues: seq<seq<nat>>, queues': seq<seq<nat>>, depth: seq<seq<nat>>)
    requires MutexesOk(mutexes, queues, depth) && WaitsShrink(queues, queues')
    ensures MutexesOk(mutexes, queues', depth)
  {
    hide MutexesOkBut, WaitsShrink;
    MutexesKept(mutexes, queues, queues', depth, -1);
  }

  lemma WithoutNothing<T>(s: seq<T>, e: T)
    ensures s == [] ==> Without(s, e) == []
  {}

  lemma OkSize(tasks: seq<Task>, curr: int, nm: nat)
    requires AllOk(tasks, curr, nm)
    ensures |tasks| == 64
  {}

  lemma OkWeaken(tasks: seq<Task>, curr: int, nm: nat, t: nat)
    requires AllOk(tasks, curr, nm)
    ensures AllOkBut(tasks, curr, nm, t)
  {
    hide TaskOk;
  }

  lemma ReadyExists(tasks: seq<Task>, queues: seq<seq<nat>>, count: int, pcount: int, nm: nat) returns (q: nat)
    requires AllOk(tasks, -1, nm) && Tables(tasks, queues, count, pcount, nm) && count != pcount
    ensures q < 64 && q < |queues| && queues[q] != []
  {
    hide AllOk, Queues, Counted;
    q := SomeReady(tasks, queues, nm, count, pcount);
  }

  lemma EarlyIff(tasks: seq<Task>, queues: seq<seq<nat>>, curr: nat, nm: nat, count: int, pcount: int)
    requires curr < 64 && Tables(tasks, queues, count, pcount, nm)
    requires AllOk(tasks, if tasks[curr].Runnable() then curr else -1, nm)
    ensures tasks[curr].Runnable() ==>
      (pcount + 1 == count <==> forall t :: 0 <= t < 64 && t != curr ==> !tasks[t].Runnable())
  {
    hide AllOk, Queues, Counted;
    if tasks[curr].Runnable() {
      EarlyReturn(tasks, curr, nm, count, pcount);
    }
  }

  lemma MutexesSame(mutexes: seq<Mutex>, queues: seq<seq<nat>>, queues': seq<seq<nat>>, depth: seq<seq<nat>>)
    requires MutexesOk(mutexes, queues, depth)
    requires |queues'| == |queues| && forall q :: 64 <= q < |queues| ==> queues'[q] == queues[q]
    ensures MutexesOk(mutexes, queues', depth)
  {
    hide MutexesOkBut;
    MutexesKept(mutexes, queues, queues', depth, -1);
  }

  lemma TablesSize(tasks: seq<Task>, queues: seq<seq<nat>>, count: int, pcount: int, nm: nat)
    requires Tables(tasks, queues, count, pcount, nm)
    ensures |tasks| == 64 && |queues| >= 64 + nm && forall i :: 0 <= i < 64 ==> -1 <= tasks[i].queue < |queues|
  {}

  lemma PcountNatural(tasks: seq<Task>, queues: seq<seq<nat>>, count: int, pcount: int, nm: nat)
    requires Tables(tasks, queues, count, pcount, nm)
    ensures count >= 0 && pcount >= 0
  {}
}
