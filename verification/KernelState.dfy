/**
  Tasks, run queues and mutexes of the kernel (kern/task.c, kern/sched.c, kern/mutex.c), and what every step keeps of
  them. The queues appear as the sequences that TaskQueue proves kern/task.c to maintain.
 */
module KernelState {
  import opened IntrusiveList

  const TASK_MAX: nat := 64
  const TASK_PRIO_LOW: nat := 63
  const TIME_SLICE: int := 10
  const TIME_SLICE_MAX: int := 50

  /** The `paused` field: 0, WAIT_NOINTR or WAIT_INTR. */
  datatype Pause = Running | NoInterrupt | Interruptible

  /** Where a task goes on when it runs again: anywhere, or inside the loop of mtx_enter. */
  datatype Goal = Anywhere | Acquiring(m: nat, wait: Pause)

  /** A slot of the task table. Queues 0..63 are the ready queues, queue 64 + m is that of mutex m, and -1 is none. */
  datatype Task = Task(used: bool, exited: bool, paused: Pause, stopped: bool, signalPending: bool, unseenEvents: bool,
                       priority: nat, timeSlice: int, queue: int, goal: Goal)
  {
    predicate Live() {
      used && !exited
    }

    predicate Runnable() {
      Live() && paused == Running
    }
  }

  function Unused(): Task {
    Task(false, false, Running, false, false, false, 0, 0, -1, Anywhere)
  }

  datatype Mutex = Mutex(owner: int, lockcnt: nat)

  // ----- the invariant, by component -----

  /** A runnable task is in a ready queue unless it is the current one; a paused task is in no ready queue. */
  predicate TaskOk(t: Task, current: bool, nm: nat) {
    && t.priority < 64
    && (current ==> t.Runnable())
    && (!t.Live() ==> t.paused == Running && t.queue == -1)
    && (t.Runnable() ==> if current then t.queue == -1 else 0 <= t.queue < 64)
    && (t.Live() && t.paused != Running ==> t.queue == -1 || t.queue >= 64)
    && (64 <= t.queue < 64 + nm ==> t.goal.Acquiring? && t.goal.m == t.queue - 64)
    && (t.goal.Acquiring? ==>
      t.goal.m < nm && t.goal.wait != Running && (t.paused != Running ==> t.queue == 64 + t.goal.m))
  }

  ghost predicate AllOkBut(tasks: seq<Task>, curr: int, nm: nat, b: int) {
    |tasks| == 64 && forall i :: 0 <= i < 64 && i != b ==> TaskOk(tasks[i], i == curr, nm)
  }

  ghost predicate AllOk(tasks: seq<Task>, curr: int, nm: nat) {
    AllOkBut(tasks, curr, nm, -1)
  }

  /** Queue `q` holds exactly the tasks that say so, once each. */
  ghost predicate QueueOk(tasks: seq<Task>, s: seq<nat>, q: nat) {
    NoRepeats(s) && forall t: nat :: t in s <==> t < |tasks| && tasks[t].queue == q
  }

  ghost predicate Queues(tasks: seq<Task>, queues: seq<seq<nat>>) {
    && (forall q: nat :: q < |queues| ==> QueueOk(tasks, queues[q], q))
    && (forall i :: 0 <= i < |tasks| ==> -1 <= tasks[i].queue < |queues|)
  }

  function LiveCount(tasks: seq<Task>): nat {
    if tasks == [] then 0
    else LiveCount(tasks[..|tasks| - 1]) + if tasks[|tasks| - 1].Live() then 1 else 0
  }

  function PausedCount(tasks: seq<Task>): nat {
    if tasks == [] then 0
    else PausedCount(tasks[..|tasks| - 1]) + if tasks[|tasks| - 1].paused != Running then 1 else 0
  }

  /** The counters stand for scans of the task table. */
  ghost predicate Counted(tasks: seq<Task>, count: int, pcount: int) {
    count == LiveCount(tasks) && pcount == PausedCount(tasks)
  }

  /** Free and unlocked are the same, nobody waits for a free mutex, and the count is the depth of the owner alone. */
  ghost predicate MutexOk(x: Mutex, waiters: seq<nat>, depth: seq<nat>) {
    && -1 <= x.owner < 64 && (x.owner == -1 <==> x.lockcnt == 0)
    && (waiters != [] ==> x.lockcnt > 0)
    && |depth| == 64 && forall t :: 0 <= t < 64 ==> depth[t] == if t == x.owner then x.lockcnt else 0
  }

  ghost predicate MutexesOkBut(mutexes: seq<Mutex>, queues: seq<seq<nat>>, depth: seq<seq<nat>>, b: int) {
    && |depth| == |mutexes| && |queues| >= 64 + |mutexes|
    && forall m: nat :: m < |mutexes| && m != b ==> MutexOk(mutexes[m], queues[64 + m], depth[m])
  }

  ghost predicate MutexesOk(mutexes: seq<Mutex>, queues: seq<seq<nat>>, depth: seq<seq<nat>>) {
    MutexesOkBut(mutexes, queues, depth, -1)
  }

  // ----- queues -----

  lemma QueueFacts(tasks: seq<Task>, queues: seq<seq<nat>>, q: nat)
    requires Queues(tasks, queues) && q < |queues|
    ensures queues[q] != [] ==> queues[q][0] < |tasks| && tasks[queues[q][0]].queue == q
  {
    assert QueueOk(tasks, queues[q], q);
    assert queues[q] != [] ==> queues[q][0] in queues[q];
  }

  lemma InsertKeeps(tasks: seq<Task>, queues: seq<seq<nat>>, t: nat, q: nat)
    requires Queues(tasks, queues) && t < |tasks| && q < |queues| && tasks[t].queue == -1
    ensures Queues(tasks[t := tasks[t].(queue := q)], queues[q := queues[q] + [t]])
  {
    var tasks', queues' := tasks[t := tasks[t].(queue := q)], queues[q := queues[q] + [t]];
    forall p: nat | p < |queues'| ensures QueueOk(tasks', queues'[p], p) {
      assert QueueOk(tasks, queues[p], p);
    }
  }

  lemma RemoveKeeps(tasks: seq<Task>, queues: seq<seq<nat>>, t: nat, q: nat)
    requires Queues(tasks, queues) && t < |tasks| && q < |queues| && tasks[t].queue == q
    ensures Queues(tasks[t := tasks[t].(queue := -1)], queues[q := Without(queues[q], t)])
  {
    var tasks', queues' := tasks[t := tasks[t].(queue := -1)], queues[q := Without(queues[q], t)];
    forall p: nat | p < |queues'| ensures QueueOk(tasks', queues'[p], p) {
      assert QueueOk(tasks, queues[p], p);
      WithoutContents(queues[p], t);
    }
  }

  lemma DequeueKeeps(tasks: seq<Task>, queues: seq<seq<nat>>, q: nat)
    requires Queues(tasks, queues) && q < |queues| && queues[q] != []
    ensures queues[q][0] < |tasks| && tasks[queues[q][0]].queue == q
    ensures Queues(tasks[queues[q][0] := tasks[queues[q][0]].(queue := -1)], queues[q := queues[q][1..]])
  {
    hide Queues;
    QueueFacts(tasks, queues, q);
    RemoveKeeps(tasks, queues, queues[q][0], q);
    assert Without(queues[q], queues[q][0]) == queues[q][1..];
  }

  /** A change that leaves the task in its queue. */
  lemma QueuesSame(tasks: seq<Task>, queues: seq<seq<nat>>, t: nat, x: Task)
    requires Queues(tasks, queues) && t < |tasks| && x.queue == tasks[t].queue
    ensures Queues(tasks[t := x], queues)
  {
    hide NoRepeats;
    forall p: nat | p < |queues| ensures QueueOk(tasks[t := x], queues[p], p) {
      assert QueueOk(tasks, queues[p], p);
    }
  }

  // ----- counters -----

  lemma {:induction false} CountUpdate(tasks: seq<Task>, t: nat, x: Task)
    requires t < |tasks|
    ensures LiveCount(tasks[t := x]) + (if tasks[t].Live() then 1 else 0)
         == LiveCount(tasks) + if x.Live() then 1 else 0
    ensures PausedCount(tasks[t := x]) + (if tasks[t].paused != Running then 1 else 0)
         == PausedCount(tasks) + if x.paused != Running then 1 else 0
    decreases |tasks|
  {
    var n := |tasks| - 1;
    if t < n {
      assert tasks[t := x][..n] == tasks[..n][t := x];
      CountUpdate(tasks[..n], t, x);
    } else {
      assert tasks[t := x][..n] == tasks[..n];
    }
  }

  lemma CountedUpdate(tasks: seq<Task>, count: int, pcount: int, t: nat, x: Task)
    requires t < |tasks| && Counted(tasks, count, pcount)
    ensures Counted(tasks[t := x],
                    count + (if x.Live() then 1 else 0) - (if tasks[t].Live() then 1 else 0),
                    pcount + (if x.paused != Running then 1 else 0) - if tasks[t].paused != Running then 1 else 0)
  {
    hide LiveCount, PausedCount;
    CountUpdate(tasks, t, x);
  }

  /** No more runnable tasks than the counters say. */
  lemma {:induction false} RunnableBound(tasks: seq<Task>, t: nat)
    requires t < |tasks| && forall i :: 0 <= i < |tasks| && tasks[i].paused != Running ==> tasks[i].Live()
    ensures PausedCount(tasks) <= LiveCount(tasks)
    ensures tasks[t].Runnable() ==> PausedCount(tasks) < LiveCount(tasks)
    decreases |tasks|
  {
    var n := |tasks| - 1;
    if n > 0 {
      RunnableBound(tasks[..n], if t < n then t else 0);
    } else {
      assert tasks[..n] == [];
    }
  }

  /** If the counters differ by one, a runnable task is the only one. */
  lemma OnlyRunnable(tasks: seq<Task>, t: nat, u: nat, count: int, pcount: int)
    requires t < |tasks| && u < |tasks| && t != u && tasks[t].Runnable() && tasks[u].Runnable()
    requires Counted(tasks, count, pcount)
    requires forall i :: 0 <= i < |tasks| && tasks[i].paused != Running ==> tasks[i].Live()
    ensures pcount + 1 < count
  {
    hide LiveCount, PausedCount;
    CountUpdate(tasks, t, Unused());
    RunnableBound(tasks[t := Unused()], u);
  }

  /** If the counters differ, somebody is runnable. */
  lemma {:induction false} SomeRunnable(tasks: seq<Task>) returns (t: nat)
    requires LiveCount(tasks) > PausedCount(tasks)
    ensures t < |tasks| && tasks[t].Runnable()
    decreases |tasks|
  {
    var n := |tasks| - 1;
    if tasks[n].Runnable() {
      t := n;
    } else {
      t := SomeRunnable(tasks[..n]);
    }
  }

  lemma PausedAreLive(tasks: seq<Task>, curr: int, nm: nat)
    requires AllOk(tasks, curr, nm)
    ensures forall i :: 0 <= i < |tasks| && tasks[i].paused != Running ==> tasks[i].Live()
  {
    forall i | 0 <= i < |tasks| && tasks[i].paused != Running ensures tasks[i].Live() {
      assert TaskOk(tasks[i], i == curr, nm);
    }
  }

  /** The idle loop of sched ends only when a ready queue has a task: "next == NULL" cannot happen. */
  lemma SomeReady(tasks: seq<Task>, queues: seq<seq<nat>>, nm: nat, count: int, pcount: int) returns (q: nat)
    requires AllOk(tasks, -1, nm) && Queues(tasks, queues) && Counted(tasks, count, pcount) && count != pcount
    ensures q < 64 && q < |queues| && queues[q] != []
  {
    hide LiveCount, PausedCount;
    PausedAreLive(tasks, -1, nm);
    RunnableBound(tasks, 0);
    var t := SomeRunnable(tasks);
    assert TaskOk(tasks[t], false, nm);
    q := tasks[t].queue;
    assert QueueOk(tasks, queues[q], q);
    assert t in queues[q];
  }

  /** sched returns early exactly when the current task is the only runnable one. */
  lemma EarlyReturn(tasks: seq<Task>, curr: nat, nm: nat, count: int, pcount: int)
    requires curr < 64 && tasks != [] && Counted(tasks, count, pcount) && |tasks| == 64
    requires AllOk(tasks, if tasks[curr].Runnable() then curr else -1, nm) && tasks[curr].Runnable()
    ensures pcount + 1 == count <==> forall t :: 0 <= t < 64 && t != curr ==> !tasks[t].Runnable()
  {
    hide LiveCount, PausedCount;
    PausedAreLive(tasks, curr, nm);
    if t: nat :| t < 64 && t != curr && tasks[t].Runnable() {
      OnlyRunnable(tasks, curr, t, count, pcount);
    } else {
      RunnableBound(tasks, curr);
      var rest := tasks[curr := Unused()];
      CountUpdate(tasks, curr, Unused());
      if LiveCount(rest) > PausedCount(rest) {
        var _ := SomeRunnable(rest);
      }
    }
  }

  // ----- single tasks -----

  lemma OkUpdate(tasks: seq<Task>, curr: int, nm: nat, t: nat, x: Task, curr': int)
    requires AllOkBut(tasks, curr, nm, t) && t < 64
    requires TaskOk(x, t == curr', nm) && (curr' == curr || (curr' == t && curr == -1) || (curr == t && curr' == -1))
    ensures AllOk(tasks[t := x], curr', nm)
  {
    hide TaskOk;
  }

  lemma OkBut(tasks: seq<Task>, curr: int, nm: nat, t: nat, x: Task)
    requires AllOkBut(tasks, curr, nm, -1) || AllOkBut(tasks, curr, nm, t)
    requires t < 64
    ensures AllOkBut(tasks[t := x], curr, nm, t)
  {
    hide TaskOk;
  }

  lemma OkAt(tasks: seq<Task>, curr: int, nm: nat, t: nat)
    requires AllOk(tasks, curr, nm) && t < 64
    ensures |tasks| == 64 && TaskOk(tasks[t], t == curr, nm)
  {
    hide TaskOk;
  }

  // ----- mutexes -----

  /** Wait queues only lose tasks. */
  ghost predicate WaitsShrink(queues: seq<seq<nat>>, queues': seq<seq<nat>>) {
    |queues| == |queues'| && forall q: nat :: 64 <= q < |queues| && queues'[q] != [] ==> queues[q] != []
  }

  lemma MutexesKept(mutexes: seq<Mutex>, queues: seq<seq<nat>>, queues': seq<seq<nat>>, depth: seq<seq<nat>>, b: int)
    requires MutexesOkBut(mutexes, queues, depth, b) && WaitsShrink(queues, queues')
    ensures MutexesOkBut(mutexes, queues', depth, b)
  {
    forall m: nat | m < |mutexes| && m != b ensures MutexOk(mutexes[m], queues'[64 + m], depth[m]) {
      assert MutexOk(mutexes[m], queues[64 + m], depth[m]);
      assert queues'[64 + m] != [] ==> queues[64 + m] != [];
    }
  }

  lemma MutexAt(mutexes: seq<Mutex>, queues: seq<seq<nat>>, depth: seq<seq<nat>>, m: nat)
    requires MutexesOk(mutexes, queues, depth) && m < |mutexes|
    ensures |queues| >= 64 + |mutexes| && |depth| == |mutexes| && MutexOk(mutexes[m], queues[64 + m], depth[m])
  {
    hide MutexOk;
  }

  lemma MutexUpdate(mutexes: seq<Mutex>, queues: seq<seq<nat>>, depth: seq<seq<nat>>, m: nat, x: Mutex, d: seq<nat>,
      queues': seq<seq<nat>>)
    requires MutexesOkBut(mutexes, queues, depth, m) && m < |mutexes| && |queues'| == |queues|
    requires forall q :: 64 <= q < |queues| && q != 64 + m ==> queues'[q] == queues[q]
    requires MutexOk(x, queues'[64 + m], d)
    ensures MutexesOk(mutexes[m := x], queues', depth[m := d])
  {
    var ms, ds := mutexes[m := x], depth[m := d];
    forall k: nat | k < |ms| ensures MutexOk(ms[k], queues'[64 + k], ds[k]) {
      assert k != m ==> MutexOk(mutexes[k], queues[64 + k], depth[k]);
    }
  }

  /** At most one task is inside a mutex. */
  lemma Exclusion(mutexes: seq<Mutex>, queues: seq<seq<nat>>, depth: seq<seq<nat>>, m: nat, t: nat, u: nat)
    requires MutexesOk(mutexes, queues, depth) && m < |mutexes| && t < 64 && u < 64
    requires |depth| == |mutexes| && |depth[m]| == 64 && depth[m][t] > 0 && depth[m][u] > 0
    ensures t == u == mutexes[m].owner && depth[m][t] == mutexes[m].lockcnt
  {
    MutexAt(mutexes, queues, depth, m);
  }

  /** No lost wakeup: a task that waits for a free mutex is not asleep. */
  lemma NoLostWakeup(tasks: seq<Task>, curr: int, queues: seq<seq<nat>>, mutexes: seq<Mutex>, depth: seq<seq<nat>>,
      t: nat)
    requires AllOk(tasks, curr, |mutexes|) && Queues(tasks, queues) && MutexesOk(mutexes, queues, depth)
    requires t < 64 && |tasks| == 64 && tasks[t].goal.Acquiring? && tasks[t].paused != Running
    ensures tasks[t].goal.m < |mutexes| && mutexes[tasks[t].goal.m].lockcnt > 0 && mutexes[tasks[t].goal.m].owner != -1
  {
    OkAt(tasks, curr, |mutexes|, t);
    var m := tasks[t].goal.m;
    MutexAt(mutexes, queues, depth, m);
    assert QueueOk(tasks, queues[64 + m], 64 + m);
    assert t in queues[64 + m];
  }

  // ----- time slices -----

  /** How far the time slices are below zero, all together. */
  function Debt(tasks: seq<Task>): nat {
    if tasks == [] then 0
    else Debt(tasks[..|tasks| - 1]) + if tasks[|tasks| - 1].timeSlice < 0 then -tasks[|tasks| - 1].timeSlice else 0
  }

  lemma {:induction false} DebtUpdate(tasks: seq<Task>, t: nat, x: Task)
    requires t < |tasks| && tasks[t].timeSlice < x.timeSlice < 0
    ensures Debt(tasks[t := x]) < Debt(tasks)
    decreases |tasks|
  {
    var n := |tasks| - 1;
    if t < n {
      assert tasks[t := x][..n] == tasks[..n][t := x];
      DebtUpdate(tasks[..n], t, x);
    } else {
      assert tasks[t := x][..n] == tasks[..n];
    }
  }
}
