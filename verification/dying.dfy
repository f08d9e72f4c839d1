/** ThreadExit for the running thread (kernel/thread.c), by which the kernel's main thread ends.

    It also unlinks the thread from the scheduler's list it was in last. The step here is that of a call
    where this does no harm to the ready list; LinkedList.RemoveUnlisted says when that is. */
module Dying {
  import opened Basics
  import opened Lists
  import opened MinHeap
  import opened Sched
  import opened Machine
  import opened Process
  import opened Sleeping

  /** A kernel thread without parent or children. */
  ghost predicate MayDie(k: K)
  {
    k.cur in k.threads && k.cur != k.idle &&
    var me := k.threads[k.cur];
    me.pc == Free && !me.exiting && me.parent == NO_PARENT && me.pid != INIT_PID &&
    forall t :: t in k.threads ==> k.threads[t].parent != me.pid
  }

  /** The thread is gone and no thread runs; `cur` means nothing until the switch. */
  ghost function Gone(k: K): K
    requires k.cur in k.all
  {
    k.(threads := k.threads - {k.cur}, all := Unlink(k.all, k.cur), cur := k.idle)
  }

  lemma GoneLists(k: K)
    requires SchedInv(k) && k.cur != k.idle
    ensures k.cur in k.all && LInv(Gone(k), {})
  {
    hide HeapOk, NoDup, Unlink;
    UnlinkTakesOne(k.all, k.cur);
    GoneHeap(k);
  }

  lemma GoneHeap(k: K)
    requires SchedInv(k) && k.cur in k.all
    ensures HeapOk(Gone(k))
  {
    assert k.cur !in k.delay;
    hide Ordered, Nodes, Unlink, NoDup;
  }

  lemma GoneSems(th: Threads, sems: Sems, idle: Tid, c: Tid)
    requires SemInv(th, sems, idle) && c in th && th[c].pc == Free
    ensures SemInv(th - {c}, sems, idle)
  {
    var th1 := th - {c};
    forall s | s in sems ensures QueueOk(th1, s, sems[s]) && NoLostWakeup(th1, sems, s) {
      assert QueueOk(th, s, sems[s]) && NoLostWakeup(th, sems, s);
      assert Retrying(th1, sems, s) == Retrying(th, sems, s);
    }
    forall t | t in th1 ensures PcOk(sems, t, th1[t], idle) { assert PcOk(sems, t, th[t], idle); }
  }

  lemma GoneProcs(th: Threads, nextPid: nat, c: Tid)
    requires ProcInv(th, nextPid) && c in th && th[c].parent == NO_PARENT && th[c].pid != INIT_PID
    requires forall t :: t in th ==> th[t].parent != th[c].pid
    ensures ProcInv(th - {c}, nextPid)
  {
    hide HasPid, HasChild;
    HasPidLess(th, c, INIT_PID);
    forall t | t in th - {c} && th[t].parent != NO_PARENT ensures HasPid(th - {c}, th[t].parent) {
      HasPidLess(th, c, th[t].parent);
    }
    forall t | t in th - {c} && th[t].status == WAITING ensures HasChild(th - {c}, th[t].pid) {
      HasChildLess(th, c, th[t].pid);
    }
  }

  lemma GoneHistory(th: Threads, nextPid: nat, exits: map<nat, int>, reaps: seq<Reaped>, c: Tid)
    requires HistInv(th, nextPid, exits, reaps)
    ensures HistInv(th - {c}, nextPid, exits, reaps)
  {}

  lemma GoneKeeps(m: M)
    requires Inv(m) && MayDie(m.k)
    ensures m.k.cur in m.k.all && LInv(Gone(m.k), {}) && RestOk(Gone(m.k), m.exits, m.reaps)
  {
    GoneLists(m.k);
    hide LInv, SemInv, ProcInv, HistInv, Unlink;
    GoneSems(m.k.threads, m.k.sems, m.k.idle, m.k.cur);
    GoneProcs(m.k.threads, m.k.nextPid, m.k.cur);
    GoneHistory(m.k.threads, m.k.nextPid, m.exits, m.reaps, m.k.cur);
  }

  /** The second half of schedule(); the first does nothing for a DIED thread. */
  ghost function Switched(k: K): (r: Option<K>)
    requires LInv(k, {})
    ensures r.Some? ==> SchedInv(r.value)
  {
    match ProcessDelayThread(WakeIdle(k))
    case None => None
    case Some(w) =>
      NextExists(WakeIdle(k));
      DispatchKeeps(w);
      Some(Dispatch(w))
  }

  lemma SwitchIsCalm(k: K)
    requires LInv(k, {}) && Switched(k).Some?
    ensures Calm(k, Switched(k).value)
  {
    hide LInv, Calm;
    var w := ProcessDelayThread(WakeIdle(k)).value;
    NextExists(WakeIdle(k));
    WakeIdleIsCalm(k);
    WakingIsCalm(WakeIdle(k));
    DispatchIsCalm(w);
    CalmTransitive(k, WakeIdle(k), w);
    CalmTransitive(k, w, Dispatch(w));
  }

  lemma SwitchingKeeps(k: K, exits: map<nat, int>, reaps: seq<Reaped>)
    requires LInv(k, {}) && RestOk(k, exits, reaps) && Switched(k).Some?
    ensures Inv(M(Switched(k).value, exits, reaps))
  {
    var k' := Switched(k).value;
    SwitchIsCalm(k);
    IdlePc(k, exits, reaps);
    hide Switched, SemInv, ProcInv, HistInv;
    CalmIsUnnoticed(k, k');
    SemFrame(k.threads, k'.threads, k.sems, k.idle);
    ProcFrame(k.threads, k'.threads, k.nextPid);
    HistFrame(k.threads, k'.threads, k.nextPid, exits, reaps);
  }

  /** ThreadExit with a switch; None is a switch that does not return. */
  ghost function DieStep(m: M): (r: Option<M>)
    requires Inv(m) && MayDie(m.k)
    ensures r.Some? ==> Inv(r.value)
  {
    GoneKeeps(m);
    hide Inv, LInv, RestOk, Switched;
    match Switched(Gone(m.k))
    case None => None
    case Some(k') => SwitchingKeeps(Gone(m.k), m.exits, m.reaps); Some(m.(k := k'))
  }

  lemma DyingLeavesSems(m: M)
    requires Inv(m) && MayDie(m.k) && DieStep(m).Some?
    ensures DieStep(m).value.k.sems == m.k.sems
  {
    GoneKeeps(m);
    hide Inv, LInv, Switched, Unlink;
    SwitchIsCalm(Gone(m.k));
  }

  lemma DyingLetsSleep(m: M, t: Tid)
    requires Inv(m) && MayDie(m.k) && DieStep(m).Some?
    requires t in m.k.threads && m.k.threads[t].status == DELAYED
    ensures SleptOn(m.k, DieStep(m).value.k, t) && DieStep(m).value.k.now == m.k.now
  {
    hide Inv, LInv, RestOk, Switched, Unlink, SleptOn;
    SleeperIsNotRunning(m, t);
    GoneKeeps(m);
    SwitchLetsSleep(Gone(m.k), t);
    SleptOnFrom(m.k, Gone(m.k), DieStep(m).value.k, t);
  }

  lemma SwitchLetsSleep(k: K, t: Tid)
    requires LInv(k, {}) && Switched(k).Some? && t in k.threads && k.threads[t].status == DELAYED
    ensures SleptOn(k, Switched(k).value, t) && Switched(k).value.now == k.now
  {
    hide LInv, Switched;
    SwitchIsCalm(k);
    assert CalmThread(k, t, k.threads[t], Switched(k).value.threads[t]);
  }
}
