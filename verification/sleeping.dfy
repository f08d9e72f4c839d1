/** What one step does to a sleeping thread (syscall_sleep in lib/user/syscallFun.c and the sleep heap in
    kernel/thread.c): it is left alone until the tick counter has reached its deadline. */
module Sleeping {
  import opened Basics
  import opened MinHeap
  import opened Sched
  import opened Machine
  import opened Semaphore
  import opened Process

  /** Between `k` and `k'` the sleeper `t` was left alone, or its time had come. */
  ghost predicate SleptOn(k: K, k': K, t: Tid)
  {
    t in k.threads && t in k'.threads &&
    (k'.threads[t].status == DELAYED ==> k'.threads[t].deadline == k.threads[t].deadline) &&
    (k'.threads[t].status != DELAYED ==> k'.now >= k.threads[t].deadline)
  }

  lemma CalmLetsSleep(m: M, k1: K, t: Tid)
    requires Schedulable(k1) && Rescheduled(m, k1).Some?
    requires t in k1.threads && k1.threads[t].status == DELAYED
    ensures SleptOn(k1, Rescheduled(m, k1).value.k, t) && Rescheduled(m, k1).value.k.now == k1.now
  {
    hide Schedule, Schedulable;
    ScheduleIsCalm(k1);
    var k' := Schedule(k1).value;
    assert CalmThread(k1, t, k1.threads[t], k'.threads[t]);
  }

  lemma SleeperIsNotRunning(m: M, t: Tid)
    requires Inv(m) && t in m.k.threads && m.k.threads[t].status == DELAYED
    ensures t != m.k.cur && m.k.cur in m.k.threads
  {}

  lemma SleptOnFrom(k: K, k1: K, k': K, t: Tid)
    requires SleptOn(k1, k', t) && t in k.threads && t in k1.threads && k1.threads[t].deadline == k.threads[t].deadline
    ensures SleptOn(k, k', t)
  {}

  lemma StillSleeping(k: K, k': K, t: Tid)
    requires t in k.threads && t in k'.threads && k'.threads[t] == k.threads[t] && k.threads[t].status == DELAYED
    ensures SleptOn(k, k', t)
  {}

  lemma TimeLetsSleep(m: M, k1: K, t: Tid)
    requires Schedulable(k1) && Rescheduled(m, k1).Some?
    requires t in m.k.threads && m.k.threads[t].status == DELAYED && k1.threads == m.k.threads
    ensures SleptOn(m.k, Rescheduled(m, k1).value.k, t) && Rescheduled(m, k1).value.k.now == k1.now
  {
    hide LInv, Rescheduled, Schedulable, SleptOn;
    CalmLetsSleep(m, k1, t);
    SleptOnFrom(m.k, k1, Rescheduled(m, k1).value.k, t);
  }

  lemma TickSwitchLetsSleep(m: M, now: nat, t: Tid)
    requires Inv(m) && TickTo(m, now).Some? && m.k.threads[m.k.cur].ticks == 0
    requires t in m.k.threads && m.k.threads[t].status == DELAYED
    ensures SleptOn(m.k, TickTo(m, now).value.k, t) && TickTo(m, now).value.k.now == now
  {
    hide Inv, LInv, Rescheduled, Schedulable, RestOk, SleptOn;
    CurRuns(m);
    TimePasses(m, now);
    TimeLetsSleep(m, m.k.(now := now), t);
  }

  lemma TickRunLetsSleep(m: M, now: nat, t: Tid)
    requires Inv(m) && TickTo(m, now).Some? && m.k.threads[m.k.cur].ticks != 0
    requires t in m.k.threads && m.k.threads[t].status == DELAYED
    ensures SleptOn(m.k, TickTo(m, now).value.k, t) && TickTo(m, now).value.k.now == now
  {
    hide Inv, LInv, Rescheduled, Schedulable, RestOk, SleptOn, OneTickLess;
    CurRuns(m);
    SleeperIsNotRunning(m, t);
    StillSleeping(m.k, TickTo(m, now).value.k, t);
  }

  lemma TickLetsSleep(m: M, now: nat, t: Tid)
    requires Inv(m) && TickTo(m, now).Some?
    requires t in m.k.threads && m.k.threads[t].status == DELAYED
    ensures SleptOn(m.k, TickTo(m, now).value.k, t) && TickTo(m, now).value.k.now == now
  {
    hide Inv, TickTo, SleptOn;
    CurRuns(m);
    if m.k.threads[m.k.cur].ticks == 0 { TickSwitchLetsSleep(m, now, t); } else { TickRunLetsSleep(m, now, t); }
  }

  lemma YieldLetsSleep(m: M, t: Tid)
    requires Inv(m) && m.k.cur != m.k.idle && YieldStep(m).Some?
    requires t in m.k.threads && m.k.threads[t].status == DELAYED
    ensures SleptOn(m.k, YieldStep(m).value.k, t) && YieldStep(m).value.k.now == m.k.now
  {
    hide Inv, LInv, Rescheduled, Schedulable, RestOk, Unnoticed, SleptOn, Wrap;
    CurRuns(m);
    SleeperIsNotRunning(m, t);
    YieldingKeeps(m);
    CalmLetsSleep(m, Yielding(m.k), t);
    SleptOnFrom(m.k, Yielding(m.k), YieldStep(m).value.k, t);
  }

  lemma MovedLetsSleep(m: M, th: Thread, t: Tid)
    requires Inv(m) && Unnoticed(m.k, th) && (th.status == DELAYED || th.status == BLOCKED)
    requires t in m.k.threads && m.k.threads[t].status == DELAYED
    requires Schedulable(Moved(m.k, th, m.k.now))
    ensures var r := Rescheduled(m, Moved(m.k, th, m.k.now));
            r.Some? ==> SleptOn(m.k, r.value.k, t) && r.value.k.now == m.k.now
  {
    hide Inv, LInv, Rescheduled, Schedulable, RestOk, Unnoticed, SleptOn, Wrap;
    SleeperIsNotRunning(m, t);
    if Rescheduled(m, Moved(m.k, th, m.k.now)).Some? {
      CalmLetsSleep(m, Moved(m.k, th, m.k.now), t);
      SleptOnFrom(m.k, Moved(m.k, th, m.k.now), Rescheduled(m, Moved(m.k, th, m.k.now)).value.k, t);
    }
  }

  lemma IdleBlockLetsSleep(m: M, t: Tid)
    requires Inv(m) && m.k.cur == m.k.idle && IdleBlockStep(m).Some?
    requires t in m.k.threads && m.k.threads[t].status == DELAYED
    ensures SleptOn(m.k, IdleBlockStep(m).value.k, t) && IdleBlockStep(m).value.k.now == m.k.now
  {
    hide Inv, LInv, Rescheduled, Schedulable, RestOk, Unnoticed, SleptOn, Wrap;
    CurRuns(m);
    var th := m.k.threads[m.k.cur].(status := BLOCKED);
    Gentle(m, th);
    MoveAndSchedule(m, th, m.k.now);
    MovedLetsSleep(m, th, t);
  }

  lemma SleepLetsSleep(m: M, d: nat, t: Tid)
    requires Inv(m) && m.k.cur != m.k.idle && SleepUntil(m, d).Some?
    requires t in m.k.threads && m.k.threads[t].status == DELAYED
    ensures SleptOn(m.k, SleepUntil(m, d).value.k, t) && SleepUntil(m, d).value.k.now == m.k.now
  {
    hide Inv, LInv, Rescheduled, Schedulable, RestOk, Unnoticed, SleptOn;
    CurRuns(m);
    var th := m.k.threads[m.k.cur].(status := DELAYED, deadline := d);
    Gentle(m, th);
    MoveAndSchedule(m, th, m.k.now);
    MovedLetsSleep(m, th, t);
  }

  lemma DownLetsSleep(m: M, s: SemId, t: Tid)
    requires Inv(m) && MayTry(m.k, s) && DownStep(m, s).Some?
    requires t in m.k.threads && m.k.threads[t].status == DELAYED
    ensures SleptOn(m.k, DownStep(m, s).value.k, t) && DownStep(m, s).value.k.now == m.k.now
  {
    hide Inv, LInv, Rescheduled, Schedulable, RestOk, Unnoticed, SleptOn, Wrap;
    CurRuns(m);
    SleeperIsNotRunning(m, t);
    if m.k.sems[s].value == 0 {
      EnqueuingKeeps(m, s);
      CalmLetsSleep(m, Enqueued(m.k, s), t);
      SleptOnFrom(m.k, Enqueued(m.k, s), DownStep(m, s).value.k, t);
    } else {
      StillSleeping(m.k, DownStep(m, s).value.k, t);
    }
  }

  lemma UpLetsSleep(m: M, s: SemId, t: Tid)
    requires Inv(m) && MayRaise(m.k, s) && UpStep(m, s).Some?
    requires t in m.k.threads && m.k.threads[t].status == DELAYED
    ensures SleptOn(m.k, UpStep(m, s).value.k, t) && UpStep(m, s).value.k.now == m.k.now
  {
    hide Inv;
    CurRuns(m);
    SleeperIsNotRunning(m, t);
    if m.k.sems[s].wait != [] { WaiterIsBlocked(m, s); }
  }

  lemma BlockingWaitLetsSleep(m: M, t: Tid)
    requires Inv(m) && MayWait(m.k) && WaitStep(m).Some? && HasChild(m.k.threads, m.k.threads[m.k.cur].pid)
    requires FindHanging(m.k.all, m.k.threads, m.k.threads[m.k.cur].pid).None?
    requires t in m.k.threads && m.k.threads[t].status == DELAYED && t != m.k.cur
    ensures SleptOn(m.k, WaitStep(m).value.k, t) && WaitStep(m).value.k.now == m.k.now
  {
    hide Inv, LInv, Rescheduled, Schedulable, RestOk, SleptOn, FindHanging, HasChild;
    WaitingKeeps(m);
    var k1 := SetCur(m.k, m.k.threads[m.k.cur].(status := WAITING, pc := InWait));
    CalmLetsSleep(m, k1, t);
    SleptOnFrom(m.k, k1, WaitStep(m).value.k, t);
  }

  lemma QuickWaitLetsSleep(m: M, t: Tid)
    requires Inv(m) && MayWait(m.k) && WaitStep(m).Some?
    requires FindHanging(m.k.all, m.k.threads, m.k.threads[m.k.cur].pid).Some? ||
             !HasChild(m.k.threads, m.k.threads[m.k.cur].pid)
    requires t in m.k.threads && m.k.threads[t].status == DELAYED && t != m.k.cur
    ensures SleptOn(m.k, WaitStep(m).value.k, t) && WaitStep(m).value.k.now == m.k.now
  {
    hide Inv, LInv, Rescheduled, Schedulable, SleptOn, FindHanging, HasChild;
    StillSleeping(m.k, WaitStep(m).value.k, t);
  }

  lemma WaitLetsSleep(m: M, t: Tid)
    requires Inv(m) && MayWait(m.k) && WaitStep(m).Some?
    requires t in m.k.threads && m.k.threads[t].status == DELAYED
    ensures SleptOn(m.k, WaitStep(m).value.k, t) && WaitStep(m).value.k.now == m.k.now
  {
    hide Inv, LInv, SleptOn, WaitStep, FindHanging, HasChild;
    SleeperIsNotRunning(m, t);
    var p := m.k.threads[m.k.cur].pid;
    if FindHanging(m.k.all, m.k.threads, p).None? && HasChild(m.k.threads, p) {
      BlockingWaitLetsSleep(m, t);
    } else {
      QuickWaitLetsSleep(m, t);
    }
  }

  lemma ExitEndLetsSleep(m: M, t: Tid)
    requires Inv(m) && MayHang(m.k) && ExitEndStep(m).Some?
    requires t in m.k.threads && m.k.threads[t].status == DELAYED
    ensures SleptOn(m.k, ExitEndStep(m).value.k, t) && ExitEndStep(m).value.k.now == m.k.now
  {
    hide Inv, LInv, Rescheduled, Schedulable, RestOk, Unnoticed, SleptOn, Wrap;
    CurRuns(m);
    SleeperIsNotRunning(m, t);
    ParentIsFound(m);
    ExitEndIsOrderly(m);
    var f := FindPid(m.k.all, m.k.threads, m.k.threads[m.k.cur].parent).value;
    CalmLetsSleep(m, Hung(ParentWoken(m.k, f)), t);
    SleptOnFrom(m.k, Hung(ParentWoken(m.k, f)), ExitEndStep(m).value.k, t);
  }

  lemma HangingTick(m: M, now: nat)
    requires Inv(m) && m.k.cur in m.k.threads && m.k.threads[m.k.cur].ticks == 0
    requires var k := m.k.(now := now); Schedulable(k) && Schedule(k) == None
    ensures TickTo(m, now) == None
  {
    hide Inv, Schedule, Schedulable;
  }

  lemma LeavingLetsSleep(m: M, code: int, t: Tid)
    requires Inv(m) && MayExit(m.k)
    requires t in m.k.threads && m.k.threads[t].status == DELAYED
    ensures SleptOn(m.k, ExitBeginStep(m, code).k, t) && ExitBeginStep(m, code).k.now == m.k.now
  {
    hide Inv, Leaving;
    SleeperIsNotRunning(m, t);
    LeavingThread(m.k, code, t);
    LeavingKeys(m.k, code);
  }

  lemma SleepingUntil(m: M, d: nat)
    requires Inv(m) && m.k.cur != m.k.idle && SleepUntil(m, d).Some?
    ensures var k' := SleepUntil(m, d).value.k; m.k.cur in k'.threads && k'.threads[m.k.cur].deadline == d
  {
    CurRuns(m);
    hide Inv, LInv, Rescheduled, Schedulable, RestOk, Unnoticed;
    var th := m.k.threads[m.k.cur].(status := DELAYED, deadline := d);
    Gentle(m, th);
    MoveAndSchedule(m, th, m.k.now);
    DeadlineStands(m, Moved(m.k, th, m.k.now));
  }

  /** syscall_sleep asks for no less than it was told to, exactly when the sum does not wrap. */
  lemma SleepDeadline(m: M, ms: nat)
    requires Inv(m) && m.k.cur != m.k.idle && SleepStep(m, ms).Some? && m.k.now < TICKS_MOD && ms < TICKS_MOD
    ensures var k' := SleepStep(m, ms).value.k;
            m.k.cur in k'.threads && (k'.threads[m.k.cur].deadline >= m.k.now + ms <==> m.k.now + ms < TICKS_MOD)
  {
    hide Inv, SleepUntil;
    SleepingUntil(m, Wrap(ms + m.k.now));
  }

  lemma DeadlineStands(m: M, k1: K)
    requires Schedulable(k1) && Rescheduled(m, k1).Some? && k1.cur in k1.threads
    ensures var k' := Rescheduled(m, k1).value.k;
            k1.cur in k'.threads && k'.threads[k1.cur].deadline == k1.threads[k1.cur].deadline
  {
    ScheduleIsCalm(k1);
    var k' := Schedule(k1).value;
    hide Schedule, Schedulable;
    assert CalmThread(k1, k1.cur, k1.threads[k1.cur], k'.threads[k1.cur]);
  }

  lemma EqualKeysHang(k: K, d: nat)
    requires Schedulable(k) && k.threads[k.cur].status == RUNNING && k.now >= d
    requires |k.heap| == 4 && forall i :: 1 <= i < 4 ==> k.heap[i].key == d
    ensures Schedule(k) == None
  {
    hide LInv, PopReturns, Schedule;
    PopCanSpin(k.heap[0], k.heap[1].ptr, k.heap[2].ptr, k.heap[3].ptr, d);
    assert k.heap == [k.heap[0], Node(k.heap[1].ptr, d), Node(k.heap[2].ptr, d), Node(k.heap[3].ptr, d)];
    RunningIsPlaced(k);
  }

  /** The timer interrupt never returns when it finds three sleepers with one and the same due deadline. */
  lemma EqualDeadlinesHang(m: M, now: nat, d: nat)
    requires Inv(m) && m.k.threads[m.k.cur].ticks == 0 && now >= d
    requires |m.k.heap| == 4 && forall i :: 1 <= i < 4 ==> m.k.heap[i].key == d
    ensures TickTo(m, now) == None
  {
    CurRuns(m);
    hide Inv, Schedule, Schedulable, TickTo;
    TimePasses(m, now);
    EqualKeysHang(m.k.(now := now), d);
    HangingTick(m, now);
  }

  lemma RunningIsPlaced(k: K)
    requires Schedulable(k) && k.threads[k.cur].status == RUNNING
    requires |k.heap| > 1 && k.now >= k.heap[1].key && !PopReturns(k.heap)
    ensures Schedule(k) == None
  {
    PlaceKeeps(k);
    hide LInv, PopReturns;
  }
}
