/** The per-task alarms of kern/clock.c and kern/syscall.c behind one cached earliest deadline. */
module Alarm {

  const HZ: nat := 250
  const TASK_MAX: nat := 64

  /** The alarm fields of a task slot; `alarm` is 0 for no alarm. */
  datatype Slot = Empty | Slot(alarm: int, ticks: nat, repeat: nat)

  /** The cached deadline, in seconds and ticks; its time is 0 for none. */
  datatype Deadline = Deadline(time: int, ticks: nat)

  predicate Armed(s: Slot) {
    s.Slot? && s.alarm != 0
  }

  /** Order of instants, each in seconds and ticks. */
  predicate NotAfter(t1: int, k1: nat, t2: int, k2: nat) {
    t1 < t2 || (t1 == t2 && k1 <= k2)
  }

  predicate Due(s: Slot, time: int, ticks: nat) {
    Armed(s) && NotAfter(s.alarm, s.ticks, time, ticks)
  }

  /** The cached deadline is at or before the alarm, if there is one. */
  predicate Covers(d: Deadline, s: Slot) {
    Armed(s) ==> d.time != 0 && NotAfter(d.time, d.ticks, s.alarm, s.ticks)
  }

  predicate CoversAll(d: Deadline, tasks: seq<Slot>) {
    forall i :: 0 <= i < |tasks| ==> Covers(d, tasks[i])
  }

  /** A time_t stored in a long, which has 64 bits on one machine and 32 on the other. */
  function Narrow(wide: bool, t: int): int {
    if wide then t else (t + 0x8000_0000) % 0x1_0000_0000 - 0x8000_0000
  }

  // ----- the meaning: look at every task on every tick -----

  /** A slot after the check at this instant: a due alarm is spent, or rearmed one period from now. */
  function Checked(wide: bool, s: Slot, time: int, ticks: nat): Slot {
    if !Due(s, time, ticks) then s
    else if s.repeat == 0 then s.(alarm := 0)
    else s.(alarm := Narrow(wide, time + (ticks + s.repeat) / HZ), ticks := (ticks + s.repeat) % HZ)
  }

  /** The tasks among the first `n` that the check signals. */
  function Signalled(tasks: seq<Slot>, time: int, ticks: nat, n: nat): seq<nat>
    requires n <= |tasks|
  {
    if n == 0 then []
    else Signalled(tasks, time, ticks, n - 1) + if Due(tasks[n - 1], time, ticks) then [n - 1] else []
  }

  lemma {:induction false} NobodySignalled(tasks: seq<Slot>, time: int, ticks: nat, n: nat)
    requires n <= |tasks| && forall i :: 0 <= i < |tasks| ==> !Due(tasks[i], time, ticks)
    ensures Signalled(tasks, time, ticks, n) == []
  {
    if n > 0 {
      NobodySignalled(tasks, time, ticks, n - 1);
    }
  }

  lemma {:induction false} SignalledExactly(tasks: seq<Slot>, time: int, ticks: nat, n: nat, i: nat)
    requires n <= |tasks|
    ensures i in Signalled(tasks, time, ticks, n) <==> i < n && Due(tasks[i], time, ticks)
  {
    if n > 0 {
      SignalledExactly(tasks, time, ticks, n - 1, i);
    }
  }

  predicate Modest(s: Slot) {
    s.Slot? ==> s.repeat <= HZ
  }

  /** A periodic alarm is rearmed for a second that a 32-bit long stores as one in the past. */
  predicate Overdue(wide: bool, s: Slot, time: int, ticks: nat) {
    && Due(s, time, ticks) && s.repeat != 0 && !wide
    && var next := time + (ticks + s.repeat) / HZ;
       next >= 0x8000_0000 && next % 0x1_0000_0000 != 0
  }

  /** After the check every alarm is strictly in the future, but for those that a long cannot hold. */
  lemma CheckedIsFuture(wide: bool, s: Slot, time: int, ticks: nat)
    requires ticks < HZ && Modest(s)
    ensures Modest(Checked(wide, s, time, ticks))
    ensures Due(Checked(wide, s, time, ticks), time, ticks) <==> Overdue(wide, s, time, ticks)
  {
    if Due(s, time, ticks) && s.repeat != 0 {
      NarrowIs(wide, time + (ticks + s.repeat) / HZ);
    }
  }

  /** When a long holds a time, and what it holds else. */
  lemma NarrowIs(wide: bool, t: int)
    ensures Narrow(wide, t) == t <==> wide || -0x8000_0000 <= t < 0x8000_0000
    ensures !wide && t >= 0x8000_0000 ==> Narrow(wide, t) <= t - 0x1_0000_0000
    ensures !wide && t < -0x8000_0000 ==> Narrow(wide, t) >= t + 0x1_0000_0000
    ensures Narrow(wide, t) == 0 <==> if wide then t == 0 else t % 0x1_0000_0000 == 0
  {}

  // ----- the cached deadline -----

  /** The cached deadline has come. */
  predicate Come(d: Deadline, time: int, ticks: nat) {
    d.time != 0 && NotAfter(d.time, d.ticks, time, ticks)
  }

  /** What set_alarm(d') leaves in the cache. */
  function Sooner(d: Deadline, d': Deadline): Deadline {
    if d.time == 0 || d'.time < d.time || (d'.time == d.time && d'.ticks < d.ticks) then d' else d
  }

  /** The calls of set_alarm in the check of the first `n` tasks: for every alarm that is not spent. */
  function Calls(wide: bool, tasks: seq<Slot>, time: int, ticks: nat, n: nat): seq<Deadline>
    requires n <= |tasks|
  {
    if n == 0 then [] else Calls(wide, tasks, time, ticks, n - 1) + CallsFor(wide, tasks[n - 1], time, ticks)
  }

  function CallsFor(wide: bool, s: Slot, time: int, ticks: nat): (calls: seq<Deadline>)
    ensures |calls| <= 1
  {
    if !Armed(s) || (Due(s, time, ticks) && s.repeat == 0) then []
    else [Deadline(Checked(wide, s, time, ticks).alarm, Checked(wide, s, time, ticks).ticks)]
  }

  function Cached(d: Deadline, calls: seq<Deadline>): Deadline {
    if calls == [] then d else Sooner(Cached(d, calls[..|calls| - 1]), calls[|calls| - 1])
  }

  /** The deadline `d` is at or before `d'`, unless that is for second 0, which means none. */
  predicate Before(d: Deadline, d': Deadline) {
    d'.time != 0 ==> d.time != 0 && NotAfter(d.time, d.ticks, d'.time, d'.ticks)
  }

  /** A call for a negative time, or after which there is none for second 0, which would drive it from the cache. */
  predicate Stays(calls: seq<Deadline>, j: int) {
    && 0 <= j < |calls| && calls[j].time != 0
    && (calls[j].time < 0 || forall k :: j < k < |calls| ==> calls[k].time != 0)
  }

  /** Every deadline has one at or before it that stays. */
  ghost predicate Sound(calls: seq<Deadline>) {
    forall i :: 0 <= i < |calls| && calls[i].time != 0 ==> exists j :: Stays(calls, j) && Before(calls[j], calls[i])
  }

  lemma {:induction false} StayingIsCached(d: Deadline, calls: seq<Deadline>, j: nat)
    requires Stays(calls, j)
    ensures Before(Cached(d, calls), calls[j]) && (calls[j].time < 0 ==> Cached(d, calls).time < 0)
  {
    if j < |calls| - 1 {
      StayingIsCached(d, calls[..|calls| - 1], j);
    }
  }

  lemma {:induction false} CachedStays(d: Deadline, calls: seq<Deadline>) returns (j: nat)
    requires d.time == 0 && Cached(d, calls).time != 0
    ensures Stays(calls, j) && calls[j] == Cached(d, calls)
  {
    var n := |calls| - 1;
    if Cached(d, calls) == calls[n] {
      j := n;
    } else {
      j := CachedStays(d, calls[..n]);
    }
  }

  /** After a scan the cache is at or before every deadline if and only if the calls of set_alarm are sound. */
  lemma CachedIsFirst(d: Deadline, calls: seq<Deadline>)
    requires d.time == 0
    ensures (forall i :: 0 <= i < |calls| ==> Before(Cached(d, calls), calls[i])) <==> Sound(calls)
  {
    var c := Cached(d, calls);
    forall i, j | 0 <= i < |calls| && Stays(calls, j) && Before(calls[j], calls[i]) ensures Before(c, calls[i]) {
      StayingIsCached(d, calls, j);
    }
    if forall i :: 0 <= i < |calls| ==> Before(c, calls[i]) {
      forall i | 0 <= i < |calls| && calls[i].time != 0
        ensures exists j :: Stays(calls, j) && Before(calls[j], calls[i])
      {
        var j := CachedStays(d, calls);
      }
    }
  }

  /** Being before all the calls is covering all tasks after the check. */
  lemma {:induction false} CallsCover(wide: bool, tasks: seq<Slot>, time: int, ticks: nat, n: nat, d: Deadline)
    requires n <= |tasks|
    ensures (forall e <- Calls(wide, tasks, time, ticks, n) :: Before(d, e))
       <==> forall i :: 0 <= i < n ==> Covers(d, Checked(wide, tasks[i], time, ticks))
  {
    if n > 0 {
      CallsCover(wide, tasks, time, ticks, n - 1, d);
      var before, last := Calls(wide, tasks, time, ticks, n - 1), CallsFor(wide, tasks[n - 1], time, ticks);
      assert Calls(wide, tasks, time, ticks, n) == before + last;
      CallsForCover(wide, tasks[n - 1], time, ticks, d);
      hide Calls, CallsFor, Covers, Before, Checked;
    }
  }

  lemma CallsForCover(wide: bool, s: Slot, time: int, ticks: nat, d: Deadline)
    ensures (forall e <- CallsFor(wide, s, time, ticks) :: Before(d, e)) <==> Covers(d, Checked(wide, s, time, ticks))
  {
    var calls := CallsFor(wide, s, time, ticks);
    assert calls != [] ==> forall e <- calls :: e == calls[0];
    assert calls != [] ==> calls[0] in calls;
  }

  /** A check calls for second 0 only in it or in the second before it, as a long sees the time. */
  lemma {:induction false} ZeroNearZero(wide: bool, tasks: seq<Slot>, time: int, ticks: nat, n: nat)
    requires n <= |tasks| && ticks < HZ && (forall i :: 0 <= i < |tasks| ==> Modest(tasks[i]))
    requires Narrow(wide, time) != 0 && Narrow(wide, time) != -1
    ensures forall e <- Calls(wide, tasks, time, ticks, n) :: e.time != 0
  {
    if n > 0 {
      ZeroNearZero(wide, tasks, time, ticks, n - 1);
      SlotNearZero(wide, tasks[n - 1], time, ticks);
      hide CallsFor, Modest;
    }
  }

  lemma SlotNearZero(wide: bool, s: Slot, time: int, ticks: nat)
    requires ticks < HZ && Modest(s) && Narrow(wide, time) != 0 && Narrow(wide, time) != -1
    ensures forall e <- CallsFor(wide, s, time, ticks) :: e.time != 0
  {
    if Due(s, time, ticks) {
      NarrowIs(wide, time);
      NarrowIs(wide, time + 1);
    }
  }

  lemma NoZeroIsSound(calls: seq<Deadline>)
    requires forall e <- calls :: e.time != 0
    ensures Sound(calls)
  {
    forall i | 0 <= i < |calls| ensures exists j :: Stays(calls, j) && Before(calls[j], calls[i]) {
      assert Stays(calls, i) && Before(calls[i], calls[i]);
    }
  }

  /** An alarm is set behind the back of the cache only if it is for second 0. */
  lemma SetCovers(d: Deadline, tasks: seq<Slot>, curr: nat, s: Slot)
    requires CoversAll(d, tasks) && curr < |tasks| && s.Slot?
    ensures CoversAll(Sooner(d, Deadline(s.alarm, s.ticks)), tasks[curr := s])
       <==> s.alarm != 0 || d.time < 0 || NoOther(tasks, curr)
  {
    var d', tasks' := Sooner(d, Deadline(s.alarm, s.ticks)), tasks[curr := s];
    if s.alarm == 0 && d.time >= 0 && !NoOther(tasks, curr) {
      var i :| 0 <= i < |tasks| && i != curr && Armed(tasks[i]);
      assert !Covers(d', tasks'[i]);
    } else {
      forall i | 0 <= i < |tasks'| ensures Covers(d', tasks'[i]) {
        assert Covers(d, tasks[i]);
      }
    }
  }

  /** No task but `curr` has an alarm. */
  predicate NoOther(tasks: seq<Slot>, curr: nat) {
    forall i :: 0 <= i < |tasks| && i != curr ==> !Armed(tasks[i])
  }

  // ----- sys_ualarm -----

  /** The period in ticks that sys_ualarm sets. */
  function Period(delay: nat, repeat: bool): nat {
    if repeat then (delay * HZ + HZ - 1) / 1000000 else 0
  }

  /** What sys_ualarm returns of an old alarm, in 32 bits. */
  function Returned(p: Slot, time: int, ticks: nat): nat
    requires p.Slot?
  {
    (p.ticks - ticks + (p.alarm - time) * 1000000) % 0x1_0000_0000
  }

  /** The time up to an alarm; a tick is 4000 microseconds. */
  function Microseconds(p: Slot, time: int, ticks: nat): int
    requires p.Slot?
  {
    (p.alarm - time) * 1000000 + (p.ticks - ticks) * 4000
  }

  lemma RestIsMicroseconds(p: Slot, time: int, ticks: nat)
    requires p.Slot? && p.ticks < HZ && ticks < HZ
    ensures Returned(p, time, ticks) == Microseconds(p, time, ticks) % 0x1_0000_0000 <==> p.ticks == ticks
    ensures Returned(p, time, ticks) == (Microseconds(p, time, ticks) - 3999 * (p.ticks - ticks)) % 0x1_0000_0000
  {
    var x, y := p.ticks - ticks + (p.alarm - time) * 1000000, Microseconds(p, time, ticks);
    assert y - x == 3999 * (p.ticks - ticks);
    RemaindersDiffer(x, y);
  }

  lemma RemaindersDiffer(x: int, y: int)
    requires -0x1_0000_0000 < y - x < 0x1_0000_0000
    ensures x % 0x1_0000_0000 == y % 0x1_0000_0000 <==> x == y
  {}

  /** One second and one tick ahead, 1000001 is returned for 1004000 microseconds. */
  lemma RestIsWrong()
    ensures Returned(Slot(11, 1, 0), 10, 0) == 1000001 && Microseconds(Slot(11, 1, 0), 10, 0) == 1004000
  {}

  /** The slot that sys_ualarm sets. */
  function After(wide: bool, time: int, ticks: nat, delay: nat, repeat: bool): Slot {
    var k := ticks + delay * HZ / 1000000;
    Slot(Narrow(wide, time + k / HZ), k % HZ, Period(delay, repeat))
  }

  class Clock {
    const wide: bool
    var time: int
    var ticks: nat
    var alarmTime: int
    var alarmTicks: nat
    var tasks: seq<Slot>

    /** The bounds keep sums of ticks within 32 bits. */
    predicate Valid()
      reads this
    {
      ticks < 4295 && |tasks| == TASK_MAX && forall i :: 0 <= i < |tasks| ==> Modest(tasks[i])
    }

    function Cache(): Deadline
      reads this`alarmTime, this`alarmTicks
    {
      Deadline(alarmTime, alarmTicks)
    }

    /** The cached deadline is at or before every alarm. */
    predicate Covered()
      reads this`alarmTime, this`alarmTicks, this`tasks
    {
      CoversAll(Cache(), tasks)
    }

    constructor (wide: bool)
      ensures Valid() && Covered() && this.wide == wide && time == 1 && ticks == 0 && Cache() == Deadline(0, 0)
      ensures forall i :: 0 <= i < TASK_MAX ==> tasks[i] == Empty
    {
      this.wide := wide;
      time, ticks, alarmTime, alarmTicks := 1, 0, 0, 0;
      tasks := seq(TASK_MAX, _ => Empty);
    }

    /** set_alarm: the cache moves to an earlier instant, never to a later one, unless it is set to second 0. */
    method SetAlarm(t: int, k: nat)
      modifies this`alarmTime, this`alarmTicks
      ensures Cache() == Sooner(old(Cache()), Deadline(t, k))
      ensures t != 0 ==> Before(Cache(), Deadline(t, k)) && Before(Cache(), old(Cache()))
      ensures t == 0 ==> alarmTime == if old(alarmTime) < 0 then old(alarmTime) else 0
    {
      if alarmTime == 0 || t < alarmTime || (t == alarmTime && k < alarmTicks) {
        alarmTicks := k;
        alarmTime := t;
      }
    }

    /** chk_alarm. */
    method ChkAlarm(i: nat) returns (signal: bool)
      requires i < |tasks| && tasks[i].Slot?
      modifies this`tasks, this`alarmTime, this`alarmTicks
      ensures signal == Due(old(tasks)[i], time, ticks)
      ensures tasks == old(tasks)[i := Checked(wide, old(tasks)[i], time, ticks)]
      ensures Cache() == Cached(old(Cache()), CallsFor(wide, old(tasks)[i], time, ticks))
    {
      signal := false;
      var p := tasks[i];
      if p.alarm != 0 {
        if (p.alarm == time && p.ticks <= ticks) || p.alarm < time {
          signal := true;
          p := p.(alarm := 0);
          if p.repeat != 0 {
            p := p.(ticks := ticks + p.repeat, alarm := Narrow(wide, time));
            if p.ticks >= HZ {
              NarrowSum(wide, time, p.ticks / HZ);
              p := p.(alarm := Narrow(wide, p.alarm + p.ticks / HZ), ticks := p.ticks % HZ);
            }
            SetAlarm(p.alarm, p.ticks);
          }
        } else {
          SetAlarm(p.alarm, p.ticks);
        }
      }
      tasks := tasks[i := p];
    }

    /** The loop of clock_intr over the task table, which also finds the next deadline. */
    method Scan() returns (signals: seq<nat>)
      requires |tasks| == TASK_MAX
      modifies this`tasks, this`alarmTime, this`alarmTicks
      ensures |tasks| == TASK_MAX && signals == Signalled(old(tasks), time, ticks, TASK_MAX)
      ensures forall j :: 0 <= j < TASK_MAX ==> tasks[j] == Checked(wide, old(tasks)[j], time, ticks)
      ensures Cache() == Cached(old(Cache()), Calls(wide, old(tasks), time, ticks, TASK_MAX))
    {
      hide Checked, Due, CallsFor, Cached;
      ghost var was, d := tasks, Cache();
      signals := [];
      CachedNone(d);
      for i := 0 to TASK_MAX
        modifies this`tasks, this`alarmTime, this`alarmTicks
        invariant |tasks| == TASK_MAX && signals == Signalled(was, time, ticks, i)
        invariant forall j :: 0 <= j < i ==> tasks[j] == Checked(wide, was[j], time, ticks)
        invariant forall j :: i <= j < TASK_MAX ==> tasks[j] == was[j]
        invariant Cache() == Cached(d, Calls(wide, was, time, ticks, i))
      {
        CachedAppend(d, Calls(wide, was, time, ticks, i), CallsFor(wide, was[i], time, ticks));
        if tasks[i] != Empty {
          var signal := ChkAlarm(i);
          if signal {
            signals := signals + [i];
          }
        } else {
          EmptySlot(wide, time, ticks);
          CachedNone(Cache());
        }
      }
    }

    /**
      clock_intr: the tasks signalled, and their alarms afterwards, are those of a scan of the whole table, although
      the table is looked at only when the cached deadline has come. The cache is at or before every alarm again if and
      only if no alarm for second 0 has driven the first one out.
     */
    method ClockIntr() returns (signals: seq<nat>)
      requires Valid()
      modifies this`time, this`ticks, this`tasks, this`alarmTime, this`alarmTicks
      ensures Valid() && ticks < HZ
      ensures (time, ticks) == if old(ticks) + 1 >= HZ then (old(time) + 1, 0) else (old(time), old(ticks) + 1)
      ensures !Come(old(Cache()), time, ticks) ==> signals == [] && tasks == old(tasks) && Cache() == old(Cache())
      ensures Come(old(Cache()), time, ticks) ==>
        && signals == Signalled(old(tasks), time, ticks, TASK_MAX)
        && (forall i :: 0 <= i < TASK_MAX ==> tasks[i] == Checked(wide, old(tasks)[i], time, ticks))
        && Cache() == Cached(Deadline(0, old(alarmTicks)), Calls(wide, old(tasks), time, ticks, TASK_MAX))
      ensures old(Covered()) ==> signals == Signalled(old(tasks), time, ticks, TASK_MAX)
      ensures old(Covered()) ==> forall i :: 0 <= i < TASK_MAX ==>
        && tasks[i] == Checked(wide, old(tasks)[i], time, ticks)
        && (Due(tasks[i], time, ticks) <==> Overdue(wide, old(tasks)[i], time, ticks))
      ensures old(Covered()) ==> (Covered() <==> Sound(Calls(wide, old(tasks), time, ticks, TASK_MAX)))
    {
      hide Covers, CoversAll, Checked, Due, Signalled, Sound, Calls, Overdue, Cached;
      ghost var was, d := tasks, Cache();
      ticks := ticks + 1;
      if ticks >= HZ {
        ticks := 0;
        time := time + 1;
      }
      signals := [];
      if alarmTime != 0 && ((alarmTime == time && alarmTicks <= ticks) || alarmTime < time) {
        alarmTime := 0;
        ghost var d' := Cache();
        signals := Scan();
        ScanCovers(wide, d', was, tasks, time, ticks);
      } else if CoversAll(d, was) {
        NobodyYet(wide, d, was, time, ticks);
      }
      StillModest(wide, was, tasks, time, ticks);
    }

    /** An alarm is stored and handed to set_alarm. */
    method Arm(curr: nat, p: Slot)
      requires Valid() && curr < TASK_MAX && p.Slot? && Modest(p)
      modifies this`tasks, this`alarmTime, this`alarmTicks
      ensures Valid() && tasks == old(tasks)[curr := p]
      ensures old(Covered()) ==> (Covered() <==> p.alarm != 0 || old(alarmTime) < 0 || NoOther(old(tasks), curr))
    {
      if CoversAll(Cache(), tasks) {
        SetCovers(Cache(), tasks, curr, p);
      }
      tasks := tasks[curr := p];
      SetAlarm(p.alarm, p.ticks);
    }

    /**
      sys_alarm of the current task: the rest of the old delay, in 32 bits. The period of an earlier ualarm stays. The
      cache still covers every alarm unless this one falls on second 0, as a long sees it.
     */
    method SysAlarm(curr: nat, delay: nat) returns (rest: nat)
      requires Valid() && curr < TASK_MAX && tasks[curr].Slot? && delay < 0x1_0000_0000
      modifies this`tasks, this`alarmTime, this`alarmTicks
      ensures Valid()
      ensures tasks == old(tasks)[curr := if delay == 0 then Slot(0, 0, old(tasks)[curr].repeat)
                                          else Slot(Narrow(wide, time + delay), ticks, old(tasks)[curr].repeat)]
      ensures rest == if Armed(old(tasks)[curr]) then (old(tasks)[curr].alarm - time) % 0x1_0000_0000 else 0
      ensures old(Covered()) ==>
        (Covered() <==> delay == 0 || tasks[curr].alarm != 0 || old(alarmTime) < 0 || NoOther(old(tasks), curr))
    {
      var p := tasks[curr];
      var tm := Narrow(wide, time);
      rest := 0;
      if p.alarm != 0 {
        NarrowRest(wide, p.alarm, time);
        rest := (p.alarm - tm) % 0x1_0000_0000;
      }
      if delay == 0 {
        Clear(curr, p.(ticks := 0, alarm := 0));
        return;
      }
      NarrowSum(wide, time, delay);
      p := p.(alarm := Narrow(wide, tm + delay), ticks := ticks);
      Arm(curr, p);
    }

    /** What sys_ualarm returns of an old alarm. */
    method Rest(p: Slot) returns (rest: nat)
      requires p.Slot?
      ensures rest == if Armed(p) then Returned(p, time, ticks) else 0
      ensures Armed(p) && p.ticks < HZ && ticks < HZ ==>
        (rest == Microseconds(p, time, ticks) % 0x1_0000_0000 <==> p.ticks == ticks)
    {
      rest := 0;
      if p.alarm != 0 {
        rest := (p.ticks - ticks + (p.alarm - time) * 1000000) % 0x1_0000_0000;
      }
      if p.ticks < HZ && ticks < HZ {
        RestIsMicroseconds(p, time, ticks);
      }
    }

    /**
      sys_ualarm of the current task. What it returns of the old delay adds ticks to millionths of a second, so it is
      the rest in microseconds if and only if the ticks agree.
     */
    method SysUalarm(curr: nat, delay: nat, repeat: bool) returns (ok: bool, rest: nat)
      requires Valid() && curr < TASK_MAX && tasks[curr].Slot?
      modifies this`tasks, this`alarmTime, this`alarmTicks
      ensures Valid()
      ensures ok == (delay <= 1000000)
      ensures ok && delay > 0 ==> tasks == old(tasks)[curr := After(wide, time, ticks, delay, repeat)]
      ensures ok && delay == 0 ==> tasks == old(tasks)[curr := Slot(0, 0, old(tasks)[curr].repeat)]
      ensures !ok ==> tasks == old(tasks)
      ensures ok ==> rest == if Armed(old(tasks)[curr]) then Returned(old(tasks)[curr], time, ticks) else 0
      ensures var p := old(tasks)[curr];
        ok && Armed(p) && p.ticks < HZ && ticks < HZ ==>
          (rest == Microseconds(p, time, ticks) % 0x1_0000_0000 <==> p.ticks == ticks)
      ensures old(Covered()) ==>
        (Covered() <==> !ok || delay == 0 || tasks[curr].alarm != 0 || old(alarmTime) < 0 || NoOther(old(tasks), curr))
    {
      if delay > 1000000 {
        return false, 0xffff_ffff;
      }
      var p := tasks[curr];
      rest := Rest(p);
      hide CoversAll, NoOther, Narrow, Microseconds, Returned;
      if delay == 0 {
        Clear(curr, p.(ticks := 0, alarm := 0));
        return true, rest;
      }
      p := p.(repeat := Period(delay, repeat));
      var k, t := ticks + (delay * HZ) / 1000000, time;
      if k >= HZ {
        t := t + k / HZ;
        k := k % HZ;
      }
      p := p.(ticks := k, alarm := Narrow(wide, t));
      Arm(curr, p);
      return true, rest;
    }

    /** sys_settimeofday, to any instant, also backwards; the microseconds are multiplied in 32 bits. */
    method SetTime(sec: int, usec: nat)
      requires Valid() && usec < 0x1_0000_0000
      modifies this`time, this`ticks
      ensures Valid() && (old(Covered()) ==> Covered())
      ensures time == sec && ticks == usec * HZ % 0x1_0000_0000 / 1000000
      ensures ticks == usec * HZ / 1000000 <==> usec * HZ < 0x1_0000_0000
    {
      time, ticks := sec, (usec * HZ) % 0x1_0000_0000 / 1000000;
    }

    /** A slot is given to a new task, emptied, or passed through exec: its alarm is cleared. */
    method Clear(i: nat, slot: Slot)
      requires Valid() && i < TASK_MAX && (slot.Slot? ==> slot.alarm == 0 && slot.repeat <= HZ)
      modifies this`tasks
      ensures Valid() && tasks == old(tasks)[i := slot] && (old(Covered()) ==> Covered())
    {
      tasks := tasks[i := slot];
    }
  }

  lemma NarrowSum(wide: bool, t: int, n: nat)
    ensures Narrow(wide, Narrow(wide, t) + n) == Narrow(wide, t + n)
  {}

  lemma NarrowRest(wide: bool, a: int, t: int)
    ensures (a - Narrow(wide, t)) % 0x1_0000_0000 == (a - t) % 0x1_0000_0000
  {}

  lemma CachedNone(d: Deadline)
    ensures Cached(d, []) == d
  {}

  lemma CachedAppend(d: Deadline, calls: seq<Deadline>, more: seq<Deadline>)
    requires |more| <= 1
    ensures Cached(d, calls + more) == Cached(Cached(d, calls), more)
  {
    if more == [] {
      assert calls + more == calls;
    } else {
      assert (calls + more)[..|calls|] == calls && more[..0] == [];
    }
  }

  /** After a scan with an empty cache. */
  lemma ScanCovers(wide: bool, d: Deadline, tasks: seq<Slot>, tasks': seq<Slot>, time: int, ticks: nat)
    requires d.time == 0 && |tasks| == |tasks'|
    requires forall i :: 0 <= i < |tasks| ==> tasks'[i] == Checked(wide, tasks[i], time, ticks)
    ensures var calls := Calls(wide, tasks, time, ticks, |tasks|);
      CoversAll(Cached(d, calls), tasks') <==> Sound(calls)
  {
    hide Checked, Calls, Cached, Sound, Covers, Before;
    var calls := Calls(wide, tasks, time, ticks, |tasks|);
    CachedIsFirst(d, calls);
    CallsCover(wide, tasks, time, ticks, |tasks|, Cached(d, calls));
  }

  /** Before the cached deadline the check changes nothing. */
  lemma NobodyYet(wide: bool, d: Deadline, tasks: seq<Slot>, time: int, ticks: nat)
    requires CoversAll(d, tasks) && (d.time == 0 || !NotAfter(d.time, d.ticks, time, ticks))
    ensures Signalled(tasks, time, ticks, |tasks|) == []
    ensures forall i :: 0 <= i < |tasks| ==> Checked(wide, tasks[i], time, ticks) == tasks[i]
    ensures Sound(Calls(wide, tasks, time, ticks, |tasks|))
  {
    forall i | 0 <= i < |tasks|
      ensures !Due(tasks[i], time, ticks) && Checked(wide, tasks[i], time, ticks) == tasks[i]
    {
      NotYet(wide, d, tasks[i], time, ticks);
    }
    NobodySignalled(tasks, time, ticks, |tasks|);
    NoZero(wide, tasks, time, ticks, |tasks|);
    NoZeroIsSound(Calls(wide, tasks, time, ticks, |tasks|));
  }

  lemma {:induction false} NoZero(wide: bool, tasks: seq<Slot>, time: int, ticks: nat, n: nat)
    requires n <= |tasks| && forall i :: 0 <= i < |tasks| ==> !Due(tasks[i], time, ticks)
    ensures forall e <- Calls(wide, tasks, time, ticks, n) :: e.time != 0
  {
    if n > 0 {
      NoZero(wide, tasks, time, ticks, n - 1);
    }
  }

  lemma StillModest(wide: bool, tasks: seq<Slot>, tasks': seq<Slot>, time: int, ticks: nat)
    requires |tasks| == |tasks'| && ticks < HZ && forall i :: 0 <= i < |tasks| ==> Modest(tasks[i])
    requires tasks' == tasks || forall i :: 0 <= i < |tasks| ==> tasks'[i] == Checked(wide, tasks[i], time, ticks)
    ensures forall i :: 0 <= i < |tasks| ==> Modest(tasks'[i])
    ensures (forall i :: 0 <= i < |tasks| ==> tasks'[i] == Checked(wide, tasks[i], time, ticks)) ==>
      forall i :: 0 <= i < |tasks| ==> (Due(tasks'[i], time, ticks) <==> Overdue(wide, tasks[i], time, ticks))
  {
    hide Due, Overdue, Checked;
    forall i | 0 <= i < |tasks| && tasks'[i] == Checked(wide, tasks[i], time, ticks)
      ensures Modest(tasks'[i]) && (Due(tasks'[i], time, ticks) <==> Overdue(wide, tasks[i], time, ticks))
    {
      CheckedIsFuture(wide, tasks[i], time, ticks);
    }
  }

  lemma EmptySlot(wide: bool, time: int, ticks: nat)
    ensures !Due(Empty, time, ticks) && Checked(wide, Empty, time, ticks) == Empty
    ensures CallsFor(wide, Empty, time, ticks) == []
  {}

  /** While the cached deadline lies ahead, nobody is due. */
  lemma NotYet(wide: bool, d: Deadline, s: Slot, time: int, ticks: nat)
    requires Covers(d, s) && (d.time == 0 || !NotAfter(d.time, d.ticks, time, ticks))
    ensures !Due(s, time, ticks) && Checked(wide, s, time, ticks) == s
  {}

  // ----- when an alarm rings -----

  /** An instant as a number of ticks. */
  function Instant(time: int, ticks: nat): int {
    time * HZ + ticks
  }

  lemma DueByInstant(s: Slot, time: int, ticks: nat)
    requires Armed(s) && s.ticks < HZ && ticks < HZ
    ensures Due(s, time, ticks) <==> Instant(s.alarm, s.ticks) <= Instant(time, ticks)
  {}

  /** The next ring after `n` ticks, if the first one is at tick `first` and the period is `r`; 0 if there is none. */
  function NextRing(first: nat, r: nat, n: nat): nat {
    if n == 0 then first
    else
      var next := NextRing(first, r, n - 1);
      if next != n then next else if r == 0 then 0 else n + r
  }

  /** A slot that rings next at `next` ticks after `start`. */
  predicate RingsAt(s: Slot, r: nat, start: int, next: nat) {
    && s.Slot? && s.repeat == r && s.ticks < HZ
    && if next == 0 then s.alarm == 0 else s.alarm != 0 && Instant(s.alarm, s.ticks) == start + next
  }

  /** A second between the Epoch and the last that a long can hold, with the next one. */
  predicate InRange(wide: bool, time: int) {
    time > 0 && (wide || time + 1 < 0x8000_0000)
  }

  /** One tick of a slot. */
  lemma RingStep(wide: bool, s: Slot, r: nat, start: int, n: nat, next: nat, time: int, ticks: nat)
    requires ticks < HZ && InRange(wide, time) && Instant(time, ticks) == start + n && n > 0 && r <= HZ
    requires RingsAt(s, r, start, next) && (next != 0 ==> next >= n)
    ensures Due(s, time, ticks) <==> next == n
    ensures RingsAt(Checked(wide, s, time, ticks), r, start, if next != n then next else if r == 0 then 0 else n + r)
  {
    if next != 0 {
      DueByInstant(s, time, ticks);
      NarrowIs(wide, time + (ticks + r) / HZ);
    }
  }

  lemma {:induction false} NextRingIsAhead(first: nat, r: nat, n: nat)
    ensures NextRing(first, r, n) == 0 || NextRing(first, r, n) > n
  {
    if n > 0 {
      NextRingIsAhead(first, r, n - 1);
    }
  }

  lemma NextRingStep(first: nat, r: nat, n: nat)
    ensures NextRing(first, r, 0) == first
    ensures var next := NextRing(first, r, n);
      NextRing(first, r, n + 1) == if next != n + 1 then next else if r == 0 then 0 else n + 1 + r
  {}

  lemma InstantNext(time: int, ticks: nat)
    requires ticks < HZ
    ensures Instant(if ticks + 1 >= HZ then time + 1 else time, if ticks + 1 >= HZ then 0 else ticks + 1)
         == Instant(time, ticks) + 1
  {}

  /** Time enough for `n` ticks. */
  predicate Lasts(wide: bool, time: int, ticks: nat, n: nat) {
    time > 0 && (wide || Instant(time, ticks) + n < 0x7fff_ffff * HZ)
  }

  lemma LastsNext(wide: bool, time: int, ticks: nat, n: nat, tasks: seq<Slot>)
    requires Lasts(wide, time, ticks, n) && ticks < HZ && forall i :: 0 <= i < |tasks| ==> Modest(tasks[i])
    ensures InRange(wide, time) && Sound(Calls(wide, tasks, time, ticks, |tasks|))
  {
    ZeroNearZero(wide, tasks, time, ticks, |tasks|);
    NoZeroIsSound(Calls(wide, tasks, time, ticks, |tasks|));
  }

  /**
    `n` clock interrupts: task `i`, armed `first` ticks ahead, is signalled at tick `first` and then every `r` ticks. If
    `first` is 0 the task has no alarm, and is never signalled.
   */
  method Elapse(c: Clock, i: nat, first: nat, n: nat) returns (rings: seq<bool>)
    requires c.Valid() && c.Covered() && c.ticks < HZ && Lasts(c.wide, c.time, c.ticks, n) && i < TASK_MAX
    requires c.tasks[i].Slot? && RingsAt(c.tasks[i], c.tasks[i].repeat, Instant(c.time, c.ticks), first)
    modifies c
    ensures c.Valid() && c.Covered() && |rings| == n
    ensures Instant(c.time, c.ticks) == old(Instant(c.time, c.ticks)) + n
    ensures forall j :: 0 <= j < n ==> (rings[j] <==> NextRing(first, old(c.tasks[i].repeat), j) == j + 1)
  {
    hide RingsAt, Due, Checked, CoversAll, Signalled, NextRing, Instant, Sound, Calls, Overdue, Lasts, InRange;
    ghost var start, r := Instant(c.time, c.ticks), c.tasks[i].repeat;
    rings := [];
    NextRingStep(first, r, 0);
    for m := 0 to n
      invariant c.Valid() && c.Covered() && c.ticks < HZ && |rings| == m && Instant(c.time, c.ticks) == start + m
      invariant Lasts(c.wide, c.time, c.ticks, n - m)
      invariant RingsAt(c.tasks[i], r, start, NextRing(first, r, m))
      invariant forall j :: 0 <= j < m ==> (rings[j] <==> NextRing(first, r, j) == j + 1)
    {
      ghost var tasks := c.tasks;
      InstantNext(c.time, c.ticks);
      LastsTick(c.wide, c.time, c.ticks, n - m);
      NextRingStep(first, r, m);
      var signals := c.ClockIntr();
      LastsNext(c.wide, c.time, c.ticks, n - m - 1, tasks);
      NextRingIsAhead(first, r, m);
      RingStep(c.wide, tasks[i], r, start, m + 1, NextRing(first, r, m), c.time, c.ticks);
      SignalledExactly(tasks, c.time, c.ticks, TASK_MAX, i);
      rings := rings + [i in signals];
    }
  }

  lemma LastsTick(wide: bool, time: int, ticks: nat, n: nat)
    requires Lasts(wide, time, ticks, n) && ticks < HZ && n > 0
    ensures Lasts(wide, if ticks + 1 >= HZ then time + 1 else time, if ticks + 1 >= HZ then 0 else ticks + 1, n - 1)
  {}

  /** The rings of a periodic alarm: `first`, and then one every `r` ticks, and no others. */
  lemma {:induction false} RingsEvery(first: nat, r: nat, k: nat, n: nat)
    requires first > 0 && r > 0 && n < r
    ensures NextRing(first, r, first + k * r + n) == first + (k + 1) * r
    decreases k, n
  {
    if n > 0 {
      RingsEvery(first, r, k, n - 1);
      assert first + (k + 1) * r == first + k * r + r;
    } else if k > 0 {
      RingsEvery(first, r, k - 1, r - 1);
      assert first + k * r + 0 == first + (k - 1) * r + (r - 1) + 1;
      assert first + (k + 1) * r == first + k * r + r;
    } else {
      NoRingBefore(first, r, first - 1);
      assert first + 0 * r + 0 == first && first + (0 + 1) * r == first + r;
    }
  }

  lemma {:induction false} NoRingBefore(first: nat, r: nat, n: nat)
    requires n < first
    ensures NextRing(first, r, n) == first
  {
    if n > 0 {
      NoRingBefore(first, r, n - 1);
    }
  }

  /** A one-shot alarm rings once. */
  lemma {:induction false} RingsOnce(first: nat, n: nat)
    requires first > 0 && n >= first
    ensures NextRing(first, 0, n) == 0
  {
    if n > first {
      RingsOnce(first, n - 1);
    } else {
      NoRingBefore(first, 0, first - 1);
    }
  }

  /**
    sys_alarm does not clear the period of an earlier sys_ualarm: over the ticks that follow, its alarm rings again
    after the first time if and only if that period is not zero.
   */
  method AlarmAfterUalarm(c: Clock, curr: nat, udelay: nat, repeat: bool, delay: nat, n: nat) returns (rings: seq<bool>)
    requires c.Valid() && c.Covered() && c.ticks < HZ && curr < TASK_MAX && c.tasks[curr].Slot?
    requires 0 < udelay <= 1000000 && 0 < delay < 0x1_0000_0000 && n >= delay * HZ + Period(udelay, repeat)
    requires Lasts(c.wide, c.time, c.ticks, n)
    modifies c
    ensures c.Valid() && c.Covered() && |rings| == n && rings[delay * HZ - 1]
    ensures forall j :: 0 <= j < delay * HZ - 1 ==> !rings[j]
    ensures (exists j :: delay * HZ <= j < n && rings[j]) <==> Period(udelay, repeat) != 0
  {
    hide RingsAt, CoversAll;
    var first, r := delay * HZ, Period(udelay, repeat);
    AfterArmed(c.wide, c.time, c.ticks, udelay, repeat, n);
    var _, _ := c.SysUalarm(curr, udelay, repeat);
    SetAhead(c.wide, c.time, c.ticks, delay, r, n);
    var _ := c.SysAlarm(curr, delay);
    rings := Elapse(c, curr, first, n);
    forall j: nat | j < first ensures NextRing(first, r, j) == first {
      NoRingBefore(first, r, j);
    }
    if r == 0 {
      forall j: nat | first <= j < n ensures NextRing(first, r, j) == 0 {
        RingsOnce(first, j);
      }
    } else {
      RingsEvery(first, r, 0, r - 1);
      assert first + 0 * r + (r - 1) == first + r - 1 && first + (0 + 1) * r == first + r;
      assert rings[first + r - 1];
    }
  }

  /**
    When a task is signalled after sys_ualarm, tick by tick: a tick is 4000 microseconds, and of the delay only whole
    ticks count, but at least one. A periodic alarm rings again after every such number of ticks, unless the delay is
    below a tick, for then it rings once.
   */
  method UalarmRings(c: Clock, curr: nat, delay: nat, repeat: bool, n: nat) returns (rings: seq<bool>)
    requires c.Valid() && c.Covered() && c.ticks < HZ && curr < TASK_MAX && c.tasks[curr].Slot?
    requires 0 < delay <= 1000000 && 1 <= n && delay / 4000 <= n && Lasts(c.wide, c.time, c.ticks, n)
    modifies c
    ensures c.Valid() && c.Covered() && |rings| == n
    ensures forall j :: 0 <= j < n ==>
      (rings[j] <==> if delay < 4000 then j == 0
                     else if repeat then (j + 1) % (delay / 4000) == 0
                     else j + 1 == delay / 4000)
  {
    hide RingsAt, CoversAll, Due, Checked, Signalled, Sound, Calls, Overdue, Lasts, InRange, NextRing, Instant, After,
      Period, NoOther, Cached, Come;
    AfterAhead(c.wide, c.time, c.ticks, delay, repeat, n);
    var _, _ := c.SysUalarm(curr, delay, repeat);
    var first := delay / 4000;
    if first == 0 {
      rings := RingsNext(c, curr, n);
    } else {
      rings := Elapse(c, curr, first, n);
      RingsAtMultiples(first, n);
    }
  }

  /** Where the rings of an alarm are, whose period is the time to its first ring, or which has none. */
  lemma RingsAtMultiples(first: nat, n: nat)
    requires first > 0
    ensures forall j: nat :: j < n ==> (NextRing(first, first, j) == j + 1 <==> (j + 1) % first == 0)
    ensures forall j: nat :: j < n ==> (NextRing(first, 0, j) == j + 1 <==> j + 1 == first)
  {
    forall j: nat | j < n ensures NextRing(first, first, j) == j + 1 <==> (j + 1) % first == 0 {
      NextMultiple(first, j);
      MultipleNext(first, j);
    }
    forall j: nat | j < n ensures NextRing(first, 0, j) == j + 1 <==> j + 1 == first {
      if j < first {
        NoRingBefore(first, 0, j);
      } else {
        RingsOnce(first, j);
      }
    }
  }

  lemma {:induction false} NextMultiple(r: nat, n: nat)
    requires r > 0
    ensures NextRing(r, r, n) == (n / r + 1) * r
  {
    if n > 0 {
      NextMultiple(r, n - 1);
      MultipleNext(r, n - 1);
    }
  }

  /** The next multiple of `r` after `n`, as `n` grows by one. */
  lemma MultipleNext(r: nat, n: nat)
    requires r > 0
    ensures (n + 1) % r == 0 <==> (n / r + 1) * r == n + 1
    ensures ((n + 1) / r + 1) * r == if (n + 1) % r == 0 then n + 1 + r else (n / r + 1) * r
  {
    var q, m := n / r, n % r;
    assert n == q * r + m;
    if m + 1 == r {
      assert n + 1 == (q + 1) * r;
      Quotient(q + 1, 0, r);
    } else {
      Quotient(q, m + 1, r);
    }
  }

  lemma Quotient(q: nat, m: nat, r: nat)
    requires m < r
    ensures (q * r + m) / r == q && (q * r + m) % r == m
  {
    var x := q * r + m;
    var p := x / r;
    assert x == p * r + x % r;
    assert (q - p) * r == x % r - m;
    Between(q - p, r);
  }

  lemma Between(d: int, r: nat)
    ensures d * r >= r || d * r + r <= 0 || d == 0
  {}

  /** An alarm for the present instant rings on the next tick, and if it is not periodic never again. */
  method RingsNext(c: Clock, i: nat, n: nat) returns (rings: seq<bool>)
    requires c.Valid() && c.Covered() && c.ticks < HZ && i < TASK_MAX && 1 <= n && Lasts(c.wide, c.time, c.ticks, n)
    requires c.tasks[i].Slot? && c.tasks[i].repeat == 0 && c.tasks[i].ticks < HZ && c.tasks[i].alarm != 0
    requires Instant(c.tasks[i].alarm, c.tasks[i].ticks) == Instant(c.time, c.ticks)
    modifies c
    ensures c.Valid() && c.Covered() && |rings| == n && forall j :: 0 <= j < n ==> (rings[j] <==> j == 0)
  {
    hide CoversAll, Due, Checked, Signalled, Sound, Calls, Overdue, Lasts, InRange, NextRing, Instant, Cached, Come;
    ghost var s, tasks := c.tasks[i], c.tasks;
    InstantNext(c.time, c.ticks);
    LastsTick(c.wide, c.time, c.ticks, n);
    var signals := c.ClockIntr();
    LastsNext(c.wide, c.time, c.ticks, n - 1, tasks);
    DueByInstant(s, c.time, c.ticks);
    SignalledExactly(tasks, c.time, c.ticks, TASK_MAX, i);
    Spent(c.wide, s, c.time, c.ticks);
    var later := Elapse(c, i, 0, n - 1);
    rings := [i in signals] + later;
    forall j: nat | j < n - 1 ensures !later[j] {
      NextRingIsAhead(0, 0, j);
      NoRing(0, j);
    }
  }

  lemma Spent(wide: bool, s: Slot, time: int, ticks: nat)
    requires Due(s, time, ticks) && s.repeat == 0
    ensures Checked(wide, s, time, ticks) == s.(alarm := 0)
  {}

  lemma {:induction false} NoRing(r: nat, n: nat)
    ensures NextRing(0, r, n) == 0
  {
    if n > 0 {
      NoRing(r, n - 1);
    }
  }

  /** The slot that sys_ualarm sets: whole ticks ahead, and as long a period. */
  lemma AfterAhead(wide: bool, time: int, ticks: nat, delay: nat, repeat: bool, n: nat)
    requires Lasts(wide, time, ticks, n) && ticks < HZ && delay <= 1000000 && n >= delay / 4000
    ensures var s := After(wide, time, ticks, delay, repeat);
      && s.Slot? && s.repeat == (if repeat then delay / 4000 else 0) && s.ticks < HZ && s.alarm != 0
      && Instant(s.alarm, s.ticks) == Instant(time, ticks) + delay / 4000
      && (delay >= 4000 ==> RingsAt(s, s.repeat, Instant(time, ticks), delay / 4000))
  {
    AfterArmed(wide, time, ticks, delay, repeat, n);
    NarrowIs(wide, time + (ticks + delay / 4000) / HZ);
  }

  lemma AfterArmed(wide: bool, time: int, ticks: nat, delay: nat, repeat: bool, n: nat)
    requires Lasts(wide, time, ticks, n) && ticks < HZ && delay <= 1000000
    ensures After(wide, time, ticks, delay, repeat).alarm != 0
  {
    NarrowIs(wide, time + 1);
    NarrowIs(wide, time);
  }

  /** The slot that sys_alarm sets. */
  lemma SetAhead(wide: bool, time: int, ticks: nat, delay: nat, r: nat, n: nat)
    requires Lasts(wide, time, ticks, n) && ticks < HZ && delay > 0 && n >= delay * HZ
    ensures Narrow(wide, time + delay) != 0
    ensures RingsAt(Slot(Narrow(wide, time + delay), ticks, r), r, Instant(time, ticks), delay * HZ)
  {
    NarrowIs(wide, time + delay);
  }

  /** ualarm(4000, 1) and then alarm(1): one second later, and on the very next tick again. */
  method AlarmAfterUalarmExample(c: Clock, curr: nat) returns (rings: seq<bool>)
    requires c.Valid() && c.Covered() && c.ticks < HZ && curr < TASK_MAX && c.tasks[curr].Slot?
    requires Lasts(c.wide, c.time, c.ticks, 251)
    modifies c
    ensures |rings| == 251 && rings[249] && rings[250]
  {
    rings := AlarmAfterUalarm(c, curr, 4000, true, 1, 251);
  }

  /**
    An alarm for a second that a 32-bit long cannot hold, in January 2038 or later, rings on the very next tick; no
    other one does.
   */
  method RingsAtOnce(c: Clock, curr: nat, delay: nat) returns (rings: bool)
    requires c.Valid() && c.Covered() && curr < TASK_MAX && c.tasks[curr].Slot? && 0 < delay < 0x1_0000_0000
    modifies c
    ensures c.Valid()
    ensures rings <==>
      !c.wide && old(c.time) + delay >= 0x8000_0000 && (old(c.time) + delay) % 0x1_0000_0000 != 0
  {
    hide CoversAll, Signalled, Sound, Calls, Checked, Overdue, NoOther, Narrow;
    NarrowIs(c.wide, c.time + delay);
    var _ := c.SysAlarm(curr, delay);
    ghost var tasks := c.tasks;
    var signals := c.ClockIntr();
    SignalledExactly(tasks, c.time, c.ticks, TASK_MAX, curr);
    rings := curr in signals;
  }

  /** The calls of set_alarm for a table in which only the first two slots are in use. */
  lemma {:induction false} TwoCalls(wide: bool, tasks: seq<Slot>, time: int, ticks: nat, n: nat)
    requires 2 <= n <= |tasks| && forall i :: 2 <= i < |tasks| ==> tasks[i] == Empty
    ensures Calls(wide, tasks, time, ticks, n)
         == CallsFor(wide, tasks[0], time, ticks) + CallsFor(wide, tasks[1], time, ticks)
  {
    if n > 2 {
      TwoCalls(wide, tasks, time, ticks, n - 1);
    } else {
      assert Calls(wide, tasks, time, ticks, n - 1) == CallsFor(wide, tasks[0], time, ticks);
    }
  }

  lemma LostCalls(tasks: seq<Slot>, d: Deadline)
    requires |tasks| >= 2 && tasks[0] == Slot(5, 0, 0) && tasks[1] == Slot(-1, 0, 250) && d.time == 0
    requires forall i :: 2 <= i < |tasks| ==> tasks[i] == Empty
    ensures Checked(true, tasks[0], -1, 0) == tasks[0] && !Due(tasks[0], -1, 0)
    ensures Cached(d, Calls(true, tasks, -1, 0, |tasks|)).time == 0
  {
    hide Calls, CallsFor, Checked, Cached;
    TwoCalls(true, tasks, -1, 0, |tasks|);
    LostSlots();
    CachedTwice(d, Deadline(5, 0), Deadline(0, 0));
  }

  lemma LostSlots()
    ensures Checked(true, Slot(5, 0, 0), -1, 0) == Slot(5, 0, 0)
    ensures CallsFor(true, Slot(5, 0, 0), -1, 0) == [Deadline(5, 0)]
    ensures CallsFor(true, Slot(-1, 0, 250), -1, 0) == [Deadline(0, 0)]
  {}

  lemma CachedTwice(d: Deadline, d1: Deadline, d2: Deadline)
    ensures Cached(d, [d1] + [d2]) == Sooner(Sooner(d, d1), d2)
  {
    hide Sooner;
    CachedNone(d);
    assert [d1][..0] == [] && Cached(d, [d1]) == Sooner(Cached(d, []), d1);
    CachedAppend(d, [d1], [d2]);
    assert [d2][..0] == [];
    CachedNone(Cached(d, [d1]));
  }

  lemma ItsTurn(d: Deadline, tasks: seq<Slot>)
    requires CoversAll(d, tasks) && |tasks| >= 2 && tasks[1] == Slot(-1, 0, 250)
    ensures Come(d, -1, 0)
  {
    assert Covers(d, tasks[1]);
  }

  lemma Uncovered(d: Deadline, tasks: seq<Slot>)
    requires d.time == 0 && |tasks| >= 2 && Armed(tasks[0])
    ensures !CoversAll(d, tasks)
  {
    assert !Covers(d, tasks[0]);
  }

  /**
    An alarm that is lost. Two seconds before the Epoch task 1 asks for one every second and task 0 for one at second
    5; the first one of task 1 is rearmed for second 0, which clears the cache, and task 0 is never signalled.
   */
  method AlarmLost(n: nat) returns (c: Clock, rang: bool)
    ensures c.Valid() && !c.Covered() && !rang && c.tasks[0] == Slot(5, 0, 0)
    ensures n >= 1500 ==> Due(c.tasks[0], c.time, c.ticks)
  {
    hide Calls, Signalled, Sound, Overdue, Checked, CallsFor, CoversAll, NoOther;
    c := new Clock(true);
    c.SetTime(-2, 0);
    c.Clear(0, Slot(0, 0, 0));
    c.Clear(1, Slot(0, 0, 0));
    var _ := c.SysAlarm(0, 7);
    var _, _ := c.SysUalarm(1, 1000000, true);
    c.SetTime(-2, 996000);
    ghost var tasks, d := c.tasks, Deadline(0, c.alarmTicks);
    ItsTurn(c.Cache(), tasks);
    var signals := c.ClockIntr();
    rang := 0 in signals;
    SignalledExactly(tasks, -1, 0, TASK_MAX, 0);
    LostCalls(tasks, d);
    for k := 0 to n
      invariant c.Valid() && c.ticks < HZ && c.alarmTime == 0 && !rang
      invariant c.tasks[0] == Slot(5, 0, 0) && Instant(c.time, c.ticks) == k - 250
    {
      InstantNext(c.time, c.ticks);
      signals := c.ClockIntr();
      rang := rang || 0 in signals;
    }
    Uncovered(c.Cache(), c.tasks);
  }

  /** The period rounds down: ualarm repeats only from 4000 microseconds on, although a shorter delay is accepted. */
  lemma ShortPeriodsVanish(delay: nat)
    requires 0 < delay <= 1000000
    ensures Period(delay, true) == 0 <==> delay < 4000
  {}

  // ----- runs -----

  datatype Event =
    | Tick
    | CallAlarm(curr: nat, delay: nat)
    | CallUalarm(curr: nat, delay: nat, repeat: bool)
    | Replace(i: nat, slot: Slot)
    | CallSetTime(sec: int, usec: nat)

  /** A clock without a cached deadline, which looks at every task on every tick. */
  datatype Plain = Plain(wide: bool, time: int, ticks: nat, tasks: seq<Slot>) {
    /** The event can happen, and it can put no alarm on second 0, as a long sees it. */
    predicate Allows(e: Event) {
      match e
      case Tick => var t := Next().time; Narrow(wide, t) != 0 && Narrow(wide, t) != -1
      case CallAlarm(curr, delay) =>
        && curr < |tasks| && tasks[curr].Slot? && delay < 0x1_0000_0000
        && (delay > 0 ==> Narrow(wide, time + delay) != 0)
      case CallUalarm(curr, delay, repeat) =>
        && curr < |tasks| && tasks[curr].Slot?
        && (0 < delay <= 1000000 ==> After(wide, time, ticks, delay, repeat).alarm != 0)
      case Replace(i, slot) => i < |tasks| && (slot.Slot? ==> slot.alarm == 0 && slot.repeat <= HZ)
      case CallSetTime(_, usec) => usec < 0x1_0000_0000
    }

    function Next(): Plain {
      if ticks + 1 >= HZ then this.(time := time + 1, ticks := 0) else this.(ticks := ticks + 1)
    }

    /** The state after an event. */
    function Step(e: Event): Plain
      requires Allows(e)
    {
      match e
      case Tick =>
        var n := Next();
        n.(tasks := seq(|tasks|, i requires 0 <= i < |tasks| => Checked(wide, tasks[i], n.time, n.ticks)))
      case CallAlarm(curr, delay) =>
        var r := tasks[curr].repeat;
        this.(tasks := tasks[curr := if delay == 0 then Slot(0, 0, r) else Slot(Narrow(wide, time + delay), ticks, r)])
      case CallUalarm(curr, delay, repeat) =>
        if delay > 1000000 then this
        else if delay == 0 then this.(tasks := tasks[curr := Slot(0, 0, tasks[curr].repeat)])
        else this.(tasks := tasks[curr := After(wide, time, ticks, delay, repeat)])
      case Replace(i, slot) => this.(tasks := tasks[i := slot])
      case CallSetTime(sec, usec) => this.(time := sec, ticks := usec * HZ % 0x1_0000_0000 / 1000000)
    }

    /** The tasks that an event signals. */
    function Rings(e: Event): seq<nat> {
      if e.Tick? then Signalled(tasks, Next().time, Next().ticks, |tasks|) else []
    }
  }

  /** All the events can happen, one after the other. */
  predicate AllowsAll(p: Plain, events: seq<Event>)
    decreases |events|
  {
    events == [] || (p.Allows(events[0]) && AllowsAll(p.Step(events[0]), events[1..]))
  }

  function RunPlain(p: Plain, events: seq<Event>): (Plain, seq<seq<nat>>)
    requires AllowsAll(p, events)
    decreases |events|
  {
    if events == [] then (p, [])
    else
      var (last, rings) := RunPlain(p.Step(events[0]), events[1..]);
      (last, [p.Rings(events[0])] + rings)
  }

  ghost function View(c: Clock): Plain
    reads c
  {
    Plain(c.wide, c.time, c.ticks, c.tasks)
  }

  /** One event, on the clock with its cache as on the one without. */
  method Happen(c: Clock, e: Event) returns (rings: seq<nat>)
    requires c.Valid() && c.Covered() && View(c).Allows(e)
    modifies c
    ensures c.Valid() && c.Covered() && View(c) == old(View(c)).Step(e) && rings == old(View(c)).Rings(e)
  {
    hide CoversAll, Sound, Calls, Checked, Signalled, Narrow, After, Due, NoOther;
    rings := [];
    ghost var p := View(c);
    match e
    case Tick =>
      ghost var n, tasks := p.Next(), c.tasks;
      ZeroNearZero(c.wide, tasks, n.time, n.ticks, |tasks|);
      NoZeroIsSound(Calls(c.wide, tasks, n.time, n.ticks, |tasks|));
      rings := c.ClockIntr();
      assert c.tasks == p.Step(e).tasks;
    case CallAlarm(curr, delay) => var _ := c.SysAlarm(curr, delay);
    case CallUalarm(curr, delay, repeat) => var _, _ := c.SysUalarm(curr, delay, repeat);
    case Replace(i, slot) => c.Clear(i, slot);
    case CallSetTime(sec, usec) => c.SetTime(sec, usec);
  }

  /**
    Over every sequence of ticks, alarm calls, new and cleared tasks and settings of the clock that puts no alarm on
    second 0, the cached deadline makes no difference: the same tasks are signalled at the same ticks.
   */
  method Run(c: Clock, events: seq<Event>) returns (rings: seq<seq<nat>>)
    requires c.Valid() && c.Covered() && AllowsAll(View(c), events)
    modifies c
    ensures c.Valid() && c.Covered() && (View(c), rings) == RunPlain(old(View(c)), events)
  {
    rings := [];
    ghost var p := View(c);
    assert events[0..] == events;
    for i := 0 to |events|
      invariant c.Valid() && c.Covered() && AllowsAll(View(c), events[i..])
      invariant RunPlain(p, events).0 == RunPlain(View(c), events[i..]).0
      invariant RunPlain(p, events).1 == rings + RunPlain(View(c), events[i..]).1
    {
      ghost var rest := events[i..];
      assert rest[0] == events[i] && rest[1..] == events[i + 1..];
      var r := Happen(c, events[i]);
      assert forall s: seq<seq<nat>> :: rings + ([r] + s) == (rings + [r]) + s;
      rings := rings + [r];
    }
    assert events[|events|..] == [] && rings + [] == rings;
  }
}
