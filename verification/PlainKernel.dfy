/**
  What the kernel does, said plainly: the tasks, the queues as sequences and the mutexes, without the counters that
  kern/task.c keeps, and with a look at the whole table wherever the original looks at a counter.
 */
module PlainKernel {
  import opened IntrusiveList
  import opened KernelState

  /** `depth` has, for each mutex and task, the entries not yet left. */
  datatype State = State(tasks: seq<Task>, queues: seq<seq<nat>>, curr: int, resched: bool, mutexes: seq<Mutex>,
                         depth: seq<seq<nat>>)
  {
    ghost predicate Sized() {
      && |tasks| == 64 && |queues| >= 64 + |mutexes| && -1 <= curr < 64
      && forall i :: 0 <= i < 64 ==> tasks[i].priority < 64
    }

    /** A mutex that there is, and how often each task is in it. */
    ghost predicate Has(m: nat) {
      m < |mutexes| == |depth| && |depth[m]| == 64
    }

    /** The state with another task `t`. */
    ghost function With(t: nat, x: Task): State
      requires t < |tasks|
    {
      this.(tasks := tasks[t := x])
    }
  }

  datatype Sig = Continue | Kill | Stop | Other | Zero | OutOfRange

  /** What mtx_enter comes to: it returns, or the caller sleeps and goes on later. */
  datatype Entry = Acquired | Again | Interrupted | Blocked

  /** Everything that can happen to the machine: interrupts, and what the current task does. */
  datatype Event =
    | Yield | Dispatch | WakeUp(t: nat) | SendSignal(t: nat, sig: Sig, ignored: bool) | ClockTick | Priority(p: nat)
    | Spawn(named: bool, memory: bool, pages: bool) | ForkTask(memory: bool, pages: bool) | ExitTask | ReapTask(t: nat)
    | Sleep(q: int, wait: Pause)
    | Lock(m: nat, wait: Pause) | Retry | Unlock(m: nat)

  // ----- queues -----

  /** The queues without a task. */
  ghost function Absent(queues: seq<seq<nat>>, t: nat): (r: seq<seq<nat>>)
    ensures |r| == |queues| && forall q :: 0 <= q < |queues| ==> r[q] == Without(queues[q], t)
  {
    seq(|queues|, q requires 0 <= q < |queues| => Without(queues[q], t))
  }

  /** A task goes to the end of a queue, from wherever it was. */
  ghost function Joined(queues: seq<seq<nat>>, q: nat, t: nat): (r: seq<seq<nat>>)
    requires q < |queues|
    ensures |r| == |queues|
  {
    Absent(queues, t)[q := Absent(queues, t)[q] + [t]]
  }

  lemma AbsentSame(queues: seq<seq<nat>>, t: nat)
    requires forall q :: 0 <= q < |queues| ==> t !in queues[q]
    ensures Absent(queues, t) == queues
    ensures forall q :: 0 <= q < |queues| ==> Joined(queues, q, t) == queues[q := queues[q] + [t]]
  {
    forall q | 0 <= q < |queues| ensures Without(queues[q], t) == queues[q] {
      WithoutAbsent(queues[q], t);
    }
  }

  // ----- task_resume -----

  /** A sleeping task becomes ready with a new slice and waits last among those of its priority. */
  ghost function Woken(s: State, t: nat): (r: State)
    requires s.Sized() && t < 64
    ensures r.Sized()
  {
    var x := s.tasks[t];
    if x.paused == Running then s
    else
      s.(tasks := s.tasks[t := x.(paused := Running, timeSlice := TIME_SLICE, queue := x.priority)],
         queues := Joined(s.queues, x.priority, t),
         resched := s.resched || (s.curr >= 0 && x.priority < s.tasks[s.curr].priority))
  }

  // ----- sched -----

  /** The best ready queue that has a task, or 64. */
  ghost function BestQueue(queues: seq<seq<nat>>, q: nat): (r: nat)
    requires |queues| >= 64 && q <= 64
    ensures q <= r <= 64 && (r < 64 ==> queues[r] != []) && forall p :: q <= p < r ==> queues[p] == []
    decreases 64 - q
  {
    if q == 64 || queues[q] != [] then q else BestQueue(queues, q + 1)
  }

  /** The first task of the best queue has its slice refilled; with less than nothing it waits again, at the end. */
  ghost function Dispatched(s: State): State
    requires s.Sized()
    decreases Debt(s.tasks)
  {
    var q := BestQueue(s.queues, 0);
    if q == 64 || s.queues[q][0] >= 64 then s
    else
      var t := s.queues[q][0];
      var slice := if s.tasks[t].timeSlice + TIME_SLICE > TIME_SLICE_MAX then TIME_SLICE_MAX
                   else s.tasks[t].timeSlice + TIME_SLICE;
      var rest := s.queues[q := s.queues[q][1..]];
      if slice >= 0 then
        s.(tasks := s.tasks[t := s.tasks[t].(timeSlice := slice, queue := -1)], queues := rest, curr := t)
      else
        var p := s.tasks[t].priority;
        DebtUpdate(s.tasks, t, s.tasks[t].(timeSlice := slice, queue := p));
        Dispatched(s.(tasks := s.tasks[t := s.tasks[t].(timeSlice := slice, queue := p)],
                      queues := rest[p := rest[p] + [t]]))
  }

  ghost predicate AnyRunnable(tasks: seq<Task>) {
    exists t :: 0 <= t < |tasks| && tasks[t].Runnable()
  }

  ghost predicate NobodyElse(tasks: seq<Task>, curr: int) {
    forall t :: 0 <= t < |tasks| && t != curr ==> !tasks[t].Runnable()
  }

  /** The current task waits last among those of its priority, if it is still runnable, and nobody is current. */
  ghost function GivenUp(s: State): (r: State)
    requires s.Sized() && s.curr >= 0
    ensures r.Sized()
  {
    var me := s.tasks[s.curr];
    if me.Runnable() then
      s.(tasks := s.tasks[s.curr := me.(queue := me.priority)], queues := Joined(s.queues, me.priority, s.curr),
         curr := -1)
    else s.(curr := -1)
  }

  /** sched, called by the current task, which may have paused or exited. */
  ghost function Scheduled(s: State): State
    requires s.Sized() && s.curr >= 0
  {
    var me := s.tasks[s.curr];
    if me.Runnable() && NobodyElse(s.tasks, s.curr) then
      s.(tasks := s.tasks[s.curr := me.(timeSlice := TIME_SLICE)], resched := false)
    else
      var idle := GivenUp(s).(resched := false);
      if AnyRunnable(s.tasks) then Dispatched(idle) else idle
  }

  // ----- task_suspend -----

  /** The wait is not begun: a signal or an event has come before. */
  predicate NoWait(me: Task, wait: Pause) {
    wait == Interruptible && !me.stopped && (me.signalPending || me.unseenEvents)
  }

  /** The current task sleeps at the end of queue `q`, or in no queue (-1), and another one is chosen. */
  ghost function Suspended(s: State, q: int, wait: Pause, goal: Goal): State
    requires s.Sized() && s.curr >= 0 && (q == -1 || 64 <= q < |s.queues|)
  {
    var me := s.tasks[s.curr];
    if NoWait(me, wait) then s.With(s.curr, me.(unseenEvents := false))
    else
      Scheduled(s.(tasks := s.tasks[s.curr := me.(paused := wait, goal := goal, queue := q)],
                   queues := if q == -1 then s.queues else Joined(s.queues, q, s.curr)))
  }

  // ----- signals -----

  /** Something about a task has changed, and it wakes if it sleeps interruptibly. */
  ghost function Marked(s: State, t: nat, x: Task): (r: State)
    requires s.Sized() && t < 64 && x.priority < 64
    ensures r.Sized()
  {
    if x.paused == Interruptible then Woken(s.With(t, x), t) else s.With(t, x)
  }

  /** A signal is pending; stop, continue and kill take effect; a task that sleeps interruptibly wakes. */
  ghost function Signalled(s: State, t: nat, sig: Sig, ignored: bool): State
    requires s.Sized() && t < 64
  {
    var x := s.tasks[t];
    if sig.OutOfRange? || sig.Zero? || x.exited || ignored then s
    else
      var y := x.(signalPending := true,
                  stopped := if sig == Stop then true else if sig == Continue || sig == Kill then false else x.stopped);
      Marked(s, t, y)
  }

  // ----- new tasks -----

  /** The first free slot, or 64. */
  ghost function FreeSlot(tasks: seq<Task>, t: nat): (r: nat)
    requires |tasks| == 64 && t <= 64
    ensures t <= r <= 64 && (r < 64 ==> !tasks[r].used) && forall i :: t <= i < r ==> tasks[i].used
    decreases 64 - t
  {
    if t == 64 || !tasks[t].used then t else FreeSlot(tasks, t + 1)
  }

  /** task_creat: a copy of the current task without its signals, last in the queue of its priority. */
  ghost function Spawned(s: State, named: bool, memory: bool, pages: bool): State
    requires s.Sized() && s.curr >= 0
  {
    var t, me := FreeSlot(s.tasks, 0), s.tasks[s.curr];
    if t == 64 || !named || !memory || !pages then s
    else
      s.(tasks := s.tasks[t := me.(timeSlice := -1, unseenEvents := false, signalPending := false,
                                   queue := me.priority)],
         queues := Joined(s.queues, me.priority, t))
  }

  /** do_fork: the child has a signal pending if its parent has, and one that ends it if its pages could not be had. */
  ghost function Forked(s: State, memory: bool, pages: bool): State
    requires s.Sized() && s.curr >= 0
  {
    var t, me := FreeSlot(s.tasks, 0), s.tasks[s.curr];
    if t == 64 || !memory then s
    else
      s.(tasks := s.tasks[t := Task(true, false, Running, false, me.signalPending || !pages, false, me.priority, 0, 0,
                                    Anywhere)],
         queues := Joined(s.queues, 0, t))
  }

  /** task_exit: the current task is gone, and another one is chosen. */
  ghost function Exited(s: State): State
    requires s.Sized() && s.curr >= 0
  {
    Scheduled(s.With(s.curr, s.tasks[s.curr].(exited := true)))
  }

  /** One tick of the clock for the current task. */
  ghost function Ticked(s: State): State
    requires s.Sized()
  {
    if s.curr == -1 then s
    else
      var me := s.tasks[s.curr];
      s.With(s.curr, me.(timeSlice := me.timeSlice - 1)).(resched := s.resched || me.timeSlice <= 0)
  }

  // ----- mutexes -----

  /** The current task goes into a mutex once more. */
  ghost function Entered(s: State, m: nat): State
    requires s.Sized() && s.curr >= 0 && s.Has(m)
  {
    s.(mutexes := s.mutexes[m := Mutex(s.curr, s.mutexes[m].lockcnt + 1)],
       depth := s.depth[m := s.depth[m][s.curr := s.depth[m][s.curr] + 1]],
       tasks := s.tasks[s.curr := s.tasks[s.curr].(goal := Anywhere)])
  }

  /** The loop of mtx_enter: a free mutex is entered; otherwise the caller gives up, or sleeps on its queue. */
  ghost function Awaited(s: State, m: nat, wait: Pause): State
    requires s.Sized() && s.curr >= 0 && s.Has(m)
  {
    var me := s.tasks[s.curr];
    if s.mutexes[m].lockcnt == 0 then Entered(s, m)
    else if wait == Running then s.With(s.curr, me.(goal := Anywhere))
    else if NoWait(me, wait) then s.With(s.curr, me.(goal := Anywhere, unseenEvents := false))
    else Suspended(s, 64 + m, wait, Acquiring(m, wait))
  }

  /** mtx_enter: a mutex that the caller is in already is entered once more. */
  ghost function Locked(s: State, m: nat, wait: Pause): State
    requires s.Sized() && s.curr >= 0 && s.Has(m)
  {
    if s.mutexes[m].owner == s.curr then Entered(s, m) else Awaited(s, m, wait)
  }

  ghost predicate Numbers(ts: seq<nat>) {
    forall i :: 0 <= i < |ts| ==> ts[i] < 64
  }

  /** All these tasks wake, one after the other. */
  ghost function AllWoken(s: State, ts: seq<nat>): (r: State)
    requires s.Sized() && Numbers(ts)
    ensures r.Sized()
    decreases |ts|
  {
    if ts == [] then s else AllWoken(Woken(s, ts[0]), ts[1..])
  }

  /** mtx_leave by the owner: the last one out wakes everybody who waits. */
  ghost function Unlocked(s: State, m: nat): State
    requires s.Sized() && s.curr >= 0 && s.Has(m) && s.mutexes[m].lockcnt > 0 && s.depth[m][s.curr] > 0
    requires Numbers(s.queues[64 + m])
  {
    var x, d := s.mutexes[m], s.depth[m := s.depth[m][s.curr := s.depth[m][s.curr] - 1]];
    if x.lockcnt > 1 then s.(mutexes := s.mutexes[m := Mutex(x.owner, x.lockcnt - 1)], depth := d)
    else AllWoken(s.(mutexes := s.mutexes[m := Mutex(-1, 0)], depth := d), s.queues[64 + m])
  }

  // ----- events -----

  /** May this event happen now? What callers of the kernel owe is here; everything else is always possible. */
  ghost predicate Possible(s: State, e: Event)
    requires s.Sized()
  {
    var free := s.curr != -1 && s.tasks[s.curr].goal == Anywhere;
    match e
    case Dispatch => s.curr == -1 && AnyRunnable(s.tasks)
    case WakeUp(t) => t < 64 && s.tasks[t].Live()
    case SendSignal(t, _, _) => t < 64 && s.tasks[t].used
    case ClockTick => true
    case Retry => s.curr != -1 && s.tasks[s.curr].goal.Acquiring? && s.Has(s.tasks[s.curr].goal.m)
    case ReapTask(t) => t < 64 && s.tasks[t].exited
    case Yield => free
    case Spawn(_, _, _) => free
    case ForkTask(_, _) => free
    case ExitTask => free && s.curr != 0  // panic: init exited
    case Priority(p) => free && p <= TASK_PRIO_LOW
    case Sleep(q, wait) => free && wait != Running && (q == -1 || 64 + |s.mutexes| <= q < |s.queues|)
    case Lock(m, _) => free && s.Has(m)
    case Unlock(m) =>
      && free && s.Has(m) && s.mutexes[m].owner == s.curr && s.mutexes[m].lockcnt > 0
      && s.depth[m][s.curr] > 0 && Numbers(s.queues[64 + m])
  }

  /** What an event does. */
  ghost function Happens(s: State, e: Event): State
    requires s.Sized() && Possible(s, e)
  {
    match e
    case Yield => Scheduled(s)
    case Dispatch => Dispatched(s)
    case WakeUp(t) => Woken(s, t)
    case SendSignal(t, sig, ignored) => Signalled(s, t, sig, ignored)
    case ClockTick => Ticked(s)
    case Priority(p) => s.With(s.curr, s.tasks[s.curr].(priority := p))
    case Spawn(named, memory, pages) => Spawned(s, named, memory, pages)
    case ForkTask(memory, pages) => Forked(s, memory, pages)
    case ExitTask => Exited(s)
    case ReapTask(t) => s.With(t, Unused())
    case Sleep(q, wait) => Suspended(s, q, wait, Anywhere)
    case Lock(m, wait) => Locked(s, m, wait)
    case Retry => Awaited(s, s.tasks[s.curr].goal.m, s.tasks[s.curr].goal.wait)
    case Unlock(m) => Unlocked(s, m)
  }

  /** task_init: one task, current, at user priority, and no mutex held. */
  ghost function Initial(mutexCount: nat, otherQueues: nat): State {
    State(seq(64, _ => Unused())[0 := Unused().(used := true, priority := 32)],
          seq(64 + mutexCount + otherQueues, _ => []), 0, false, seq(mutexCount, _ => Mutex(-1, 0)),
          seq(mutexCount, _ => seq(64, _ => 0)))
  }

  /** What comes of these events; those that cannot happen when their turn comes do not. */
  ghost function Outcome(s: State, events: seq<Event>): State
    decreases |events|
  {
    if events == [] then s
    else
      var before := Outcome(s, events[..|events| - 1]);
      var e := events[|events| - 1];
      if before.Sized() && Possible(before, e) then Happens(before, e) else before
  }

  // ----- what this means -----

  /** A task that is in this queue, at its end, and in no other. */
  ghost predicate LastIn(queues: seq<seq<nat>>, q: nat, t: nat) {
    && q < |queues| && queues[q] != [] && queues[q][|queues[q]| - 1] == t
    && t !in queues[q][..|queues[q]| - 1] && forall p :: 0 <= p < |queues| && p != q ==> t !in queues[p]
  }

  lemma JoinedLast(queues: seq<seq<nat>>, q: nat, t: nat)
    requires q < |queues| && forall p :: 0 <= p < |queues| ==> NoRepeats(queues[p])
    ensures LastIn(Joined(queues, q, t), q, t)
    ensures forall p, u :: 0 <= p < |queues| && u != t ==> (u in Joined(queues, q, t)[p] <==> u in queues[p])
  {
    forall p | 0 <= p < |queues|
      ensures t !in Without(queues[p], t) && forall u :: u != t ==> (u in Without(queues[p], t) <==> u in queues[p])
    {
      WithoutContents(queues[p], t);
    }
    var r := Joined(queues, q, t);
    assert r[q][..|r[q]| - 1] == Without(queues[q], t);
  }

  /** A woken task is ready with ten ticks, and waits behind everybody of its priority. */
  lemma WokenWaitsLast(s: State, t: nat)
    requires s.Sized() && t < 64 && s.tasks[t].paused != Running
    requires forall p :: 0 <= p < |s.queues| ==> NoRepeats(s.queues[p])
    ensures var r := Woken(s, t);
      && r.tasks[t].paused == Running && r.tasks[t].timeSlice == 10 && LastIn(r.queues, s.tasks[t].priority, t)
      && (forall i :: 0 <= i < 64 && i != t ==> r.tasks[i] == s.tasks[i])
  {
    JoinedLast(s.queues, s.tasks[t].priority, t);
  }

  /** Stop stops, continue and kill go ahead, and every signal that is not ignored is pending. */
  lemma SignalMeans(s: State, t: nat, sig: Sig)
    requires s.Sized() && t < 64 && s.tasks[t].Live() && sig in {Continue, Kill, Stop, Other}
    ensures var x := Signalled(s, t, sig, false).tasks[t];
      && x.signalPending && (sig == Stop ==> x.stopped) && (sig in {Continue, Kill} ==> !x.stopped)
      && (sig == Other ==> x.stopped == s.tasks[t].stopped) && x.paused != Interruptible
      && (s.tasks[t].paused == NoInterrupt ==> x.paused == NoInterrupt)
  {}

  /** How often the slice of a task is refilled before somebody is chosen. */
  ghost function Refills(s: State, i: nat): nat
    requires s.Sized() && i < 64
    decreases Debt(s.tasks)
  {
    var q := BestQueue(s.queues, 0);
    if q == 64 || s.queues[q][0] >= 64 then 0
    else
      var t := s.queues[q][0];
      var slice := s.tasks[t].timeSlice + TIME_SLICE;
      if slice >= 0 then if i == t then 1 else 0
      else
        DebtUpdate(s.tasks, t, s.tasks[t].(timeSlice := slice, queue := s.tasks[t].priority));
        Refills(NextRound(s, t, q), i) + if i == t then 1 else 0
  }

  /** The first task of queue `q`, with more ticks and still less than nothing, waits again. */
  ghost function NextRound(s: State, t: nat, q: nat): (r: State)
    requires s.Sized() && t < 64 && q < 64 && s.queues[q] != []
    ensures r.Sized()
  {
    var p, rest := s.tasks[t].priority, s.queues[q := s.queues[q][1..]];
    s.(tasks := s.tasks[t := s.tasks[t].(timeSlice := s.tasks[t].timeSlice + TIME_SLICE, queue := p)],
       queues := rest[p := rest[p] + [t]])
  }

  /** A task that has paid its debt with ten ticks each time, and has no more than fifty. */
  function Paid(slice: int, k: nat): int {
    if k == 0 then slice else if slice + 10 * k > 50 then 50 else slice + 10 * k
  }

  /** Ten ticks each time: the chosen one is refilled until it is out of debt, and all others that were are in debt. */
  lemma {:induction false} SlicesPaid(s: State, i: nat)
    requires s.Sized() && i < 64 && s.curr == -1
    ensures var r, k := Dispatched(s), Refills(s, i);
      && |r.tasks| == 64 && r.tasks[i].timeSlice == Paid(s.tasks[i].timeSlice, k)
      && (k > 0 && i != r.curr ==> r.tasks[i].timeSlice < 0)
      && (i == r.curr ==> r.tasks[i].timeSlice >= 0 && k > 0 && (k == 1 || s.tasks[i].timeSlice + 10 * (k - 1) < 0))
    decreases Debt(s.tasks)
  {
    FirstOrNone(s);
    var q := BestQueue(s.queues, 0);
    hide BestQueue, Debt, State.Sized;
    if q < 64 && s.queues[q][0] < 64 && s.tasks[s.queues[q][0]].timeSlice + TIME_SLICE < 0 {
      var t := s.queues[q][0];
      DebtUpdate(s.tasks, t, NextRound(s, t, q).tasks[t]);
      SlicesPaid(NextRound(s, t, q), i);
    }
  }

  lemma FirstOrNone(s: State)
    requires s.Sized()
    ensures |s.tasks| == 64 && |s.queues| >= 64
    ensures BestQueue(s.queues, 0) < 64 ==> s.queues[BestQueue(s.queues, 0)] != []
  {}

  /** The first task of the best queue is chosen, unless it is too deep in debt; then nothing else has changed. */
  lemma FirstIsChosen(s: State, q: nat)
    requires s.Sized() && q < 64 && s.queues[q] != [] && s.queues[q][0] < 64
    requires forall p :: 0 <= p < q ==> s.queues[p] == []
    requires s.tasks[s.queues[q][0]].timeSlice >= -10
    ensures var r, t := Dispatched(s), s.queues[q][0];
      && r.curr == t && r.queues == s.queues[q := s.queues[q][1..]]
      && forall i :: 0 <= i < 64 && i != t ==> r.tasks[i] == s.tasks[i]
  {
    assert BestQueue(s.queues, 0) == q;
  }

  /** Choosing a task touches no wait queue. */
  lemma {:induction false} DispatchedWaits(s: State)
    requires s.Sized()
    ensures var r := Dispatched(s);
      && r.Sized() && |r.queues| == |s.queues| && r.mutexes == s.mutexes && r.depth == s.depth && r.resched == s.resched
      && forall q :: 64 <= q < |s.queues| ==> r.queues[q] == s.queues[q]
    decreases Debt(s.tasks)
  {
    hide BestQueue, Debt;
    var q := BestQueue(s.queues, 0);
    if q < 64 && s.queues[q][0] < 64 && s.tasks[s.queues[q][0]].timeSlice + TIME_SLICE < 0 {
      var t := s.queues[q][0];
      DebtUpdate(s.tasks, t, NextRound(s, t, q).tasks[t]);
      DispatchedWaits(NextRound(s, t, q));
    }
  }

  ghost predicate NotReady(queues: seq<seq<nat>>, i: nat) {
    |queues| >= 64 && forall q :: 0 <= q < 64 ==> i !in queues[q]
  }

  /** One round of the choice. */
  lemma DispatchedOne(s: State, q: nat)
    requires s.Sized() && q == BestQueue(s.queues, 0)
    ensures q < 64 ==> s.queues[q] != []
    ensures q == 64 || s.queues[q][0] >= 64 ==> Dispatched(s) == s
    ensures q < 64 && s.queues[q][0] < 64 ==>
      var t := s.queues[q][0];
      var slice := s.tasks[t].timeSlice + TIME_SLICE;
      if slice < 0 then Dispatched(s) == Dispatched(NextRound(s, t, q))
      else
        var refilled := if slice > TIME_SLICE_MAX then TIME_SLICE_MAX else slice;
        Dispatched(s) == s.(tasks := s.tasks[t := s.tasks[t].(timeSlice := refilled, queue := -1)],
                            queues := s.queues[q := s.queues[q][1..]], curr := t)
  {
    hide BestQueue, Debt;
  }

  /** It changes nothing of a task but its slice and its ready queue, and nothing at all if it is in none. */
  lemma {:induction false} DispatchedKeeps(s: State, i: nat)
    requires s.Sized() && i < 64
    ensures var r := Dispatched(s);
      && |r.tasks| == 64 && r.tasks[i] == s.tasks[i].(timeSlice := r.tasks[i].timeSlice, queue := r.tasks[i].queue)
      && (NotReady(s.queues, i) ==> r.tasks[i] == s.tasks[i] && (r.curr == i ==> s.curr == i))
    decreases Debt(s.tasks)
  {
    FirstOrNone(s);
    var q := BestQueue(s.queues, 0);
    DispatchedOne(s, q);
    hide BestQueue, Debt, State.Sized, NotReady, Dispatched, NextRound;
    if q < 64 && s.queues[q][0] < 64 {
      var t := s.queues[q][0];
      InsideReady(s.queues, q);
      if s.tasks[t].timeSlice + TIME_SLICE < 0 {
        RoundKeeps(s, t, q, i);
        DispatchedKeeps(NextRound(s, t, q), i);
      }
    }
  }

  lemma RoundKeeps(s: State, t: nat, q: nat, i: nat)
    requires s.Sized() && t < 64 && q < 64 && i < 64 && s.queues[q] != [] && s.queues[q][0] == t
    requires s.tasks[t].timeSlice + TIME_SLICE < 0
    ensures var r := NextRound(s, t, q);
      && r.curr == s.curr && Debt(r.tasks) < Debt(s.tasks) && |r.tasks| == 64
      && r.tasks[i] == s.tasks[i].(timeSlice := r.tasks[i].timeSlice, queue := r.tasks[i].queue)
      && (NotReady(s.queues, i) ==> r.tasks[i] == s.tasks[i] && NotReady(r.queues, i))
  {
    DebtUpdate(s.tasks, t, NextRound(s, t, q).tasks[t]);
    StillNotReady(s, t, q, i);
    InsideReady(s.queues, q);
    hide NotReady, Debt;
  }

  lemma InsideReady(queues: seq<seq<nat>>, q: nat)
    requires q < 64 <= |queues| && queues[q] != []
    ensures !NotReady(queues, queues[q][0])
  {}

  lemma StillNotReady(s: State, t: nat, q: nat, i: nat)
    requires s.Sized() && t < 64 && q < 64 && s.queues[q] != [] && s.queues[q][0] == t
    ensures NotReady(s.queues, i) ==> NotReady(NextRound(s, t, q).queues, i)
  {
    assert t in s.queues[q];
  }

  /**
    Who sleeps is at the end of his queue until he is woken; no other wait queue changes, and nobody else falls asleep.
   */
  lemma SleepsOn(s: State, q: int, wait: Pause, goal: Goal)
    requires s.Sized() && s.curr >= 0 && (q == -1 || 64 <= q < |s.queues|) && wait != Running
    requires !NoWait(s.tasks[s.curr], wait) && forall p :: 0 <= p < |s.queues| ==> s.curr !in s.queues[p]
    ensures var r := Suspended(s, q, wait, goal);
      && |r.queues| == |s.queues| && |r.tasks| == 64 && r.curr != s.curr
      && r.tasks[s.curr] == s.tasks[s.curr].(paused := wait, goal := goal, queue := q)
      && (q >= 64 ==> r.queues[q] == s.queues[q] + [s.curr])
      && (forall p :: 64 <= p < |s.queues| && p != q ==> r.queues[p] == s.queues[p])
      && (forall i :: 0 <= i < 64 && i != s.curr ==>
            r.tasks[i] == s.tasks[i].(timeSlice := r.tasks[i].timeSlice, queue := r.tasks[i].queue))
  {
    var idle := Asleep(s, q, wait, goal);
    SuspendedIs(s, q, wait, goal);
    hide Dispatched, Suspended, NoWait, AnyRunnable;
    DispatchedWaits(idle);
    forall i | 0 <= i < 64
      ensures var r := Dispatched(idle);
        |r.tasks| == 64 && r.tasks[i] == idle.tasks[i].(timeSlice := r.tasks[i].timeSlice, queue := r.tasks[i].queue)
    {
      DispatchedKeeps(idle, i);
    }
    DispatchedKeeps(idle, s.curr);
  }

  /** The current task sleeps, and nobody is current. */
  ghost function Asleep(s: State, q: int, wait: Pause, goal: Goal): (r: State)
    requires s.Sized() && s.curr >= 0 && (q == -1 || 64 <= q < |s.queues|)
    ensures r.Sized()
  {
    s.(tasks := s.tasks[s.curr := s.tasks[s.curr].(paused := wait, goal := goal, queue := q)],
       queues := if q == -1 then s.queues else s.queues[q := s.queues[q] + [s.curr]], curr := -1, resched := false)
  }

  lemma SuspendedIs(s: State, q: int, wait: Pause, goal: Goal)
    requires s.Sized() && s.curr >= 0 && (q == -1 || 64 <= q < |s.queues|) && wait != Running
    requires !NoWait(s.tasks[s.curr], wait) && forall p :: 0 <= p < |s.queues| ==> s.curr !in s.queues[p]
    ensures var idle := Asleep(s, q, wait, goal);
      Suspended(s, q, wait, goal) == if AnyRunnable(idle.tasks) then Dispatched(idle) else idle
  {
    AbsentSame(s.queues, s.curr);
    hide Dispatched, AnyRunnable, Absent, Joined;
  }
}
