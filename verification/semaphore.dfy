/** Semaphores and mutexes (kernel/thread.c) as steps of the machine.

    A thread that finds the value 0 queues itself and blocks; when it runs again it looks at the value
    again, so that another thread may have taken the unit in between. A mutex operation is two steps,
    because the holder field is written outside the semaphore operation. */
module Semaphore {
  import opened Basics
  import opened Lists
  import opened MinHeap
  import opened Sched
  import opened Machine

  ghost function Enqueued(k: K, s: SemId): K
    requires k.cur in k.threads && s in k.sems
  {
    SetCur(k, k.threads[k.cur].(status := BLOCKED, pc := InDec(s))).(
      sems := k.sems[s := k.sems[s].(wait := k.sems[s].wait + [k.cur])])
  }

  ghost function Taken(k: K, s: SemId): K
    requires k.cur in k.threads && s in k.sems && k.sems[s].value > 0
  {
    var sem := k.sems[s];
    SetCur(k, k.threads[k.cur].(pc := if sem.isMutex then Acquired(s) else Free)).(
      sems := k.sems[s := sem.(value := sem.value - 1,
                               owners := if sem.isMutex then sem.owners + {k.cur} else sem.owners)])
  }

  ghost predicate MayTry(k: K, s: SemId)
  {
    s in k.sems && k.cur != k.idle && k.cur in k.threads && k.threads[k.cur].pc in {Free, InDec(s)}
  }

  lemma RunnerIsInNoQueue(k: K)
    requires SemInv(k.threads, k.sems, k.idle) && k.cur in k.threads && k.threads[k.cur].status == RUNNING
    ensures forall s :: s in k.sems ==> k.cur !in k.sems[s].wait
  {
    forall s | s in k.sems ensures k.cur !in k.sems[s].wait { assert QueueOk(k.threads, s, k.sems[s]); }
  }

  ghost predicate SemOk(th: Threads, sems: Sems, s: SemId)
    requires s in sems
  {
    QueueOk(th, s, sems[s]) && CountOk(sems[s]) && NoLostWakeup(th, sems, s)
  }

  /** Changing thread `t` and semaphore `s` leaves the other semaphores in order. */
  lemma OtherSemsKeep(th: Threads, sems: Sems, th1: Threads, sems1: Sems, idle: Tid, t: Tid, s: SemId)
    requires SemInv(th, sems, idle) && t in th && s in sems
    requires t in th1 && th1 == th[t := th1[t]] && s in sems1 && sems1 == sems[s := sems1[s]]
    requires forall z :: z in sems && z != s ==> t !in sems[z].wait && (th[t].pc == InDec(z) <==> th1[t].pc == InDec(z))
    ensures forall z :: z in sems1 && z != s ==> SemOk(th1, sems1, z)
  {
    hide PcOk;
    forall z | z in sems1 && z != s ensures SemOk(th1, sems1, z) {
      assert QueueOk(th, z, sems[z]) && CountOk(sems[z]) && NoLostWakeup(th, sems, z);
      assert Retrying(th1, sems1, z) == Retrying(th, sems, z);
    }
  }

  lemma EnqueuingKeepsSems(k: K, s: SemId)
    requires SemInv(k.threads, k.sems, k.idle) && MayTry(k, s)
    requires k.threads[k.cur].status == RUNNING && k.sems[s].value == 0
    ensures SemInv(Enqueued(k, s).threads, Enqueued(k, s).sems, k.idle)
  {
    var k1 := Enqueued(k, s);
    RunnerIsInNoQueue(k);
    OtherSemsKeep(k.threads, k.sems, k1.threads, k1.sems, k.idle, k.cur, s);
    assert SemOk(k1.threads, k1.sems, s) by {
      assert QueueOk(k.threads, s, k.sems[s]) && CountOk(k.sems[s]);
      AppendNoDup(k.sems[s].wait, k.cur);
    }
    forall u | u in k1.threads ensures PcOk(k1.sems, u, k1.threads[u], k.idle) {
      assert PcOk(k.sems, u, k.threads[u], k.idle);
    }
  }

  lemma TakenCount(k: K, s: SemId)
    requires k.cur in k.threads && s in k.sems && k.sems[s].value > 0 && CountOk(k.sems[s])
    ensures CountOk(Taken(k, s).sems[s])
  {}

  lemma TakenRetrying(k: K, s: SemId)
    requires k.cur in k.threads && s in k.sems && k.sems[s].value > 0 && k.cur !in k.sems[s].wait
    requires NoLostWakeup(k.threads, k.sems, s)
    ensures NoLostWakeup(Taken(k, s).threads, Taken(k, s).sems, s)
  {
    var k1 := Taken(k, s);
    assert Retrying(k1.threads, k1.sems, s) == Retrying(k.threads, k.sems, s) - {k.cur};
  }

  lemma TakingKeepsSems(k: K, s: SemId)
    requires SemInv(k.threads, k.sems, k.idle) && MayTry(k, s)
    requires k.threads[k.cur].status == RUNNING && k.sems[s].value > 0
    ensures SemInv(Taken(k, s).threads, Taken(k, s).sems, k.idle)
  {
    var k1 := Taken(k, s);
    RunnerIsInNoQueue(k);
    OtherSemsKeep(k.threads, k.sems, k1.threads, k1.sems, k.idle, k.cur, s);
    assert QueueOk(k.threads, s, k.sems[s]) && CountOk(k.sems[s]) && NoLostWakeup(k.threads, k.sems, s);
    TakenCount(k, s);
    TakenRetrying(k, s);
    hide CountOk, NoLostWakeup;
    assert QueueOk(k1.threads, s, k1.sems[s]);
    forall u | u in k1.threads ensures PcOk(k1.sems, u, k1.threads[u], k.idle) {
      assert PcOk(k.sems, u, k.threads[u], k.idle);
    }
  }

  lemma SemChangeKeeps(m: M, th: Thread, sems1: Sems)
    requires Inv(m) && m.k.cur != m.k.idle && SameProc(m.k.threads[m.k.cur], th)
    requires SemInv(m.k.threads[m.k.cur := th], sems1, m.k.idle)
    ensures var k1 := SetCur(m.k, th).(sems := sems1);
            LInv(k1, {m.k.cur}) && RestOk(k1, m.exits, m.reaps)
  {
    SetCurKeepsLists(m.k, th);
    var k1 := SetCur(m.k, th).(sems := sems1);
    LInvIgnoresSems(SetCur(m.k, th), k1, {m.k.cur});
    CurRuns(m);
    OneSameProc(m.k.threads, m.k.cur, th);
    hide SemInv, ProcInv, HistInv, LInv, AllSameProc, SameProc;
    ProcFrame(m.k.threads, k1.threads, k1.nextPid);
    HistFrame(m.k.threads, k1.threads, k1.nextPid, m.exits, m.reaps);
  }

  lemma EnqueuingKeeps(m: M, s: SemId)
    requires Inv(m) && MayTry(m.k, s) && m.k.sems[s].value == 0
    ensures Schedulable(Enqueued(m.k, s)) && RestOk(Enqueued(m.k, s), m.exits, m.reaps)
  {
    hide LInv, SemInv, ProcInv, HistInv;
    CurRuns(m);
    EnqueuingKeepsSems(m.k, s);
    SemChangeKeeps(m, Enqueued(m.k, s).threads[m.k.cur], Enqueued(m.k, s).sems);
  }

  lemma TakingKeeps(m: M, s: SemId)
    requires Inv(m) && MayTry(m.k, s) && m.k.sems[s].value > 0
    ensures Inv(m.(k := Taken(m.k, s)))
  {
    hide LInv, SemInv, ProcInv, HistInv;
    CurRuns(m);
    TakingKeepsSems(m.k, s);
    SemChangeKeeps(m, Taken(m.k, s).threads[m.k.cur], Taken(m.k, s).sems);
  }

  /** One pass of the loop of SemaphoreDec. */
  ghost function DownStep(m: M, s: SemId): (r: Option<M>)
    requires Inv(m) && MayTry(m.k, s)
    ensures r.Some? ==> Inv(r.value)
  {
    hide Inv, RestOk, Schedulable, Rescheduled;
    if m.k.sems[s].value == 0 then
      EnqueuingKeeps(m, s);
      if Rescheduled(m, Enqueued(m.k, s)).Some? then
        ReschedulingKeeps(m, Enqueued(m.k, s));
        Rescheduled(m, Enqueued(m.k, s))
      else None
    else
      TakingKeeps(m, s);
      Some(m.(k := Taken(m.k, s)))
  }

  lemma OnlyMember(s: set<Tid>, a: Tid, b: Tid)
    requires |s| <= 1 && a in s && b in s
    ensures a == b
  {
    if a != b {
      assert {a, b} <= s && |{a, b}| == 2;
      SubsetSize({a, b}, s);
    }
  }

  lemma SubsetSize(a: set<Tid>, b: set<Tid>)
    requires a <= b
    ensures |a| <= |b|
  {
    assert b == a + (b - a);
  }

  lemma OneOwner(k: K, s: SemId, t: Tid)
    requires s in k.sems && CountOk(k.sems[s]) && k.sems[s].isMutex && k.cur in k.sems[s].owners
    requires t in k.sems[s].owners
    ensures t == k.cur && k.sems[s].value == 0
  {
    OnlyMember(k.sems[s].owners, k.cur, t);
    assert k.sems[s].owners != {};
  }

  ghost function Held(k: K): K
    requires k.cur in k.threads && k.threads[k.cur].pc.Acquired? && k.threads[k.cur].pc.s in k.sems
  {
    var s := k.threads[k.cur].pc.s;
    SetCur(k, k.threads[k.cur].(pc := Free)).(sems := k.sems[s := k.sems[s].(holder := Some(k.cur))])
  }

  ghost function Unheld(k: K, s: SemId): K
    requires k.cur in k.threads && s in k.sems
  {
    SetCur(k, k.threads[k.cur].(pc := Releasing(s))).(sems := k.sems[s := k.sems[s].(holder := None)])
  }

  /** A step that only sets the holder of a mutex the running thread owns, and its program counter. */
  lemma HolderKeepsSems(k: K, s: SemId, pc: Pc, holder: Option<Tid>)
    requires SemInv(k.threads, k.sems, k.idle) && k.cur in k.threads && k.cur != k.idle
    requires s in k.sems && k.sems[s].isMutex && k.cur in k.sems[s].owners
    requires k.threads[k.cur].status == RUNNING && !k.threads[k.cur].pc.InDec?
    requires (pc == Free && holder == Some(k.cur)) || (pc == Releasing(s) && holder == None)
    ensures SemInv(k.threads[k.cur := k.threads[k.cur].(pc := pc)], k.sems[s := k.sems[s].(holder := holder)], k.idle)
  {
    var th1 := k.threads[k.cur := k.threads[k.cur].(pc := pc)];
    var sems1 := k.sems[s := k.sems[s].(holder := holder)];
    RunnerIsInNoQueue(k);
    OtherSemsKeep(k.threads, k.sems, th1, sems1, k.idle, k.cur, s);
    assert SemOk(th1, sems1, s) by {
      assert QueueOk(k.threads, s, k.sems[s]) && CountOk(k.sems[s]) && NoLostWakeup(k.threads, k.sems, s);
      assert Retrying(th1, sems1, s) == Retrying(k.threads, k.sems, s);
    }
    forall u | u in th1 ensures PcOk(sems1, u, th1[u], k.idle) {
      assert PcOk(k.sems, u, k.threads[u], k.idle);
      if u in k.sems[s].owners { OneOwner(k, s, u); }
    }
  }

  /** MutexAcquire, second half. */
  ghost function SetHolderStep(m: M): (r: M)
    requires Inv(m) && m.k.threads[m.k.cur].pc.Acquired?
    ensures Inv(r)
  {
    CurRuns(m);
    CurPc(m);
    hide LInv, SemInv, ProcInv, HistInv;
    var me := m.k.threads[m.k.cur];
    var s := me.pc.s;
    HolderKeepsSems(m.k, s, Free, Some(m.k.cur));
    SemChangeKeeps(m, me.(pc := Free), m.k.sems[s := m.k.sems[s].(holder := Some(m.k.cur))]);
    m.(k := Held(m.k))
  }

  /** MutexRelease, first half. */
  ghost function ClearHolderStep(m: M, s: SemId): (r: M)
    requires Inv(m) && m.k.cur != m.k.idle && m.k.threads[m.k.cur].pc == Free
    requires s in m.k.sems && m.k.sems[s].isMutex && m.k.cur in m.k.sems[s].owners
    ensures Inv(r)
  {
    CurRuns(m);
    hide LInv, SemInv, ProcInv, HistInv;
    HolderKeepsSems(m.k, s, Releasing(s), None);
    SemChangeKeeps(m, m.k.threads[m.k.cur].(pc := Releasing(s)), m.k.sems[s := m.k.sems[s].(holder := None)]);
    m.(k := Unheld(m.k, s))
  }

  // ---------- SemaphoreInc ----------

  /** The first waiter leaves the queue. */
  ghost function FirstWoken(k: K, s: SemId): K
    requires s in k.sems && k.sems[s].wait != [] && k.sems[s].wait[0] in k.threads && k.sems[s].wait[0] in k.block
  {
    ThreadUnBlock(k, k.sems[s].wait[0]).(sems := k.sems[s := k.sems[s].(wait := k.sems[s].wait[1..])])
  }

  ghost function Raised(k: K, s: SemId): K
    requires s in k.sems && k.cur in k.threads
  {
    var sem, me := k.sems[s], k.threads[k.cur];
    SetCur(k, me.(pc := if sem.isMutex then Free else me.pc)).(
      sems := k.sems[s := sem.(value := sem.value + 1,
                               owners := if sem.isMutex then sem.owners - {k.cur} else sem.owners)])
  }

  lemma WaiterIsBlocked(m: M, s: SemId)
    requires Inv(m) && s in m.k.sems && m.k.sems[s].wait != []
    ensures var w := m.k.sems[s].wait[0];
            w in m.k.threads && w in m.k.block && w != m.k.cur && w != m.k.idle &&
            m.k.threads[w].status == BLOCKED && m.k.threads[w].pc == InDec(s)
  {
    var w := m.k.sems[s].wait[0];
    assert w in m.k.sems[s].wait;
    assert QueueOk(m.k.threads, s, m.k.sems[s]);
    IdlePc(m.k, m.exits, m.reaps);
  }

  /** Room for one more unit: what popping a waiter makes for the increment that follows. */
  ghost predicate Slack(k: K, s: SemId)
    requires s in k.sems
  {
    k.sems[s].wait != [] ==> k.sems[s].value + 1 <= |Retrying(k.threads, k.sems, s)|
  }

  lemma WokenSlack(k: K, s: SemId)
    requires s in k.sems && QueueOk(k.threads, s, k.sems[s]) && NoLostWakeup(k.threads, k.sems, s)
    requires k.sems[s].wait != [] && k.sems[s].wait[0] in k.threads && k.sems[s].wait[0] in k.block
    ensures s in FirstWoken(k, s).sems && Slack(FirstWoken(k, s), s)
  {
    var w, k1 := k.sems[s].wait[0], FirstWoken(k, s);
    assert w in k.sems[s].wait;
    assert k.sems[s].wait == [w] + k.sems[s].wait[1..];
    assert Retrying(k1.threads, k1.sems, s) == Retrying(k.threads, k.sems, s) + {w};
  }

  lemma WokenPcs(k: K, s: SemId)
    requires s in k.sems && k.sems[s].wait != [] && k.sems[s].wait[0] in k.threads && k.sems[s].wait[0] in k.block
    requires forall t :: t in k.threads ==> PcOk(k.sems, t, k.threads[t], k.idle)
    requires QueueOk(k.threads, s, k.sems[s])
    ensures var k1 := FirstWoken(k, s); forall t :: t in k1.threads ==> PcOk(k1.sems, t, k1.threads[t], k1.idle)
  {
    hide Unlink;
    var k1 := FirstWoken(k, s);
    WokenQueue(k, s);
    forall u | u in k1.threads ensures PcOk(k1.sems, u, k1.threads[u], k.idle) {
      assert PcOk(k.sems, u, k.threads[u], k.idle);
    }
  }

  lemma WakingKeepsSems(k: K, s: SemId)
    requires SemInv(k.threads, k.sems, k.idle) && s in k.sems && k.sems[s].wait != []
    requires k.sems[s].wait[0] in k.threads && k.sems[s].wait[0] in k.block
    ensures var k1 := FirstWoken(k, s); SemInv(k1.threads, k1.sems, k1.idle) && s in k1.sems && Slack(k1, s)
  {
    var k1 := FirstWoken(k, s);
    var w := k.sems[s].wait[0];
    hide Unlink, PcOk, CountOk, NoLostWakeup, Slack;
    assert QueueOk(k.threads, s, k.sems[s]) && CountOk(k.sems[s]) && NoLostWakeup(k.threads, k.sems, s);
    assert w in k.sems[s].wait;
    forall z | z in k.sems && z != s ensures w !in k.sems[z].wait { assert QueueOk(k.threads, z, k.sems[z]); }
    WokenPcs(k, s);
    WokenSlack(k, s);
    WokenQueue(k, s);
    SlackIsMore(k1, s);
    SameCount(k.sems[s], k1.sems[s]);
    hide QueueOk;
    OtherSemsKeep(k.threads, k.sems, k1.threads, k1.sems, k.idle, w, s);
  }

  lemma SlackIsMore(k: K, s: SemId)
    requires s in k.sems && Slack(k, s)
    ensures NoLostWakeup(k.threads, k.sems, s)
  {}

  lemma SameCount(a: Sem, b: Sem)
    requires CountOk(a) && b == a.(wait := b.wait)
    ensures CountOk(b)
  {}

  lemma WokenQueue(k: K, s: SemId)
    requires s in k.sems && QueueOk(k.threads, s, k.sems[s])
    requires k.sems[s].wait != [] && k.sems[s].wait[0] in k.threads && k.sems[s].wait[0] in k.block
    ensures var k1 := FirstWoken(k, s); QueueOk(k1.threads, s, k1.sems[s])
    ensures forall t :: t in k.sems[s].wait <==> t == k.sems[s].wait[0] || t in FirstWoken(k, s).sems[s].wait
  {
    assert k.sems[s].wait == [k.sems[s].wait[0]] + k.sems[s].wait[1..];
  }

  ghost predicate MayRaise(k: K, s: SemId)
  {
    s in k.sems && k.cur in k.threads && (k.sems[s].isMutex ==> k.threads[k.cur].pc == Releasing(s))
  }

  lemma RaisedCount(k: K, s: SemId)
    requires MayRaise(k, s) && CountOk(k.sems[s]) && k.sems[s].value < 255
    requires PcOk(k.sems, k.cur, k.threads[k.cur], k.idle)
    ensures CountOk(Raised(k, s).sems[s])
  {}

  /** The unit that is added goes to a woken thread, if any thread was waiting. */
  lemma RaisedSlack(k: K, s: SemId)
    requires MayRaise(k, s) && Slack(k, s)
    ensures NoLostWakeup(Raised(k, s).threads, Raised(k, s).sems, s)
  {
    var k1 := Raised(k, s);
    assert Retrying(k1.threads, k1.sems, s) == Retrying(k.threads, k.sems, s);
  }

  lemma RaisedPcs(k: K, s: SemId)
    requires MayRaise(k, s) && CountOk(k.sems[s]) && k.threads[k.cur].status == RUNNING && k.cur !in k.sems[s].wait
    requires forall t :: t in k.threads ==> PcOk(k.sems, t, k.threads[t], k.idle)
    ensures forall t :: t in Raised(k, s).threads ==> PcOk(Raised(k, s).sems, t, Raised(k, s).threads[t], k.idle)
  {
    var k1 := Raised(k, s);
    forall u | u in k1.threads ensures PcOk(k1.sems, u, k1.threads[u], k.idle) {
      assert PcOk(k.sems, u, k.threads[u], k.idle) && PcOk(k.sems, k.cur, k.threads[k.cur], k.idle);
      if k.sems[s].isMutex && u in k.sems[s].owners { OneOwner(k, s, u); }
    }
  }

  lemma RaisedQueue(k: K, s: SemId)
    requires MayRaise(k, s) && QueueOk(k.threads, s, k.sems[s]) && k.cur !in k.sems[s].wait
    ensures QueueOk(Raised(k, s).threads, s, Raised(k, s).sems[s])
  {}

  lemma RaisingKeepsSems(k: K, s: SemId)
    requires SemInv(k.threads, k.sems, k.idle) && MayRaise(k, s) && Slack(k, s) && k.sems[s].value < 255
    requires k.threads[k.cur].status == RUNNING
    ensures SemInv(Raised(k, s).threads, Raised(k, s).sems, k.idle)
  {
    var k1 := Raised(k, s);
    RunnerIsInNoQueue(k);
    assert PcOk(k.sems, k.cur, k.threads[k.cur], k.idle) && CountOk(k.sems[s]) && QueueOk(k.threads, s, k.sems[s]);
    RaisedCount(k, s);
    RaisedSlack(k, s);
    RaisedPcs(k, s);
    RaisedQueue(k, s);
    hide PcOk, CountOk, NoLostWakeup, QueueOk, Slack;
    OtherSemsKeep(k.threads, k.sems, k1.threads, k1.sems, k.idle, k.cur, s);
  }

  /** The state of the waiters' side after SemaphoreInc has looked at the queue. */
  lemma WakingKeeps(m: M, s: SemId)
    requires Inv(m) && s in m.k.sems && m.k.sems[s].wait != []
    requires m.k.sems[s].wait[0] in m.k.threads && m.k.sems[s].wait[0] in m.k.block
    ensures Inv(m.(k := FirstWoken(m.k, s))) && s in FirstWoken(m.k, s).sems && Slack(FirstWoken(m.k, s), s)
  {
    var k, k1 := m.k, FirstWoken(m.k, s);
    var w := k.sems[s].wait[0];
    WaiterIsBlocked(m, s);
    WakingKeepsSems(k, s);
    UnBlockKeeps(k, w, {k.cur});
    LInvIgnoresSems(ThreadUnBlock(k, w), k1, {k.cur});
    OneSameProc(k.threads, w, k1.threads[w]);
    hide SemInv, ProcInv, HistInv, LInv, AllSameProc, SameProc, Slack;
    ProcFrame(k.threads, k1.threads, k1.nextPid);
    HistFrame(k.threads, k1.threads, k1.nextPid, m.exits, m.reaps);
  }

  lemma RaisingKeeps(m: M, s: SemId)
    requires Inv(m) && MayRaise(m.k, s) && Slack(m.k, s) && m.k.sems[s].value < 255
    ensures Inv(m.(k := Raised(m.k, s)))
  {
    var k, k1 := m.k, Raised(m.k, s);
    CurRuns(m);
    RaisingKeepsSems(k, s);
    SetCurKeepsLists(k, k1.threads[k.cur]);
    LInvIgnoresSems(SetCur(k, k1.threads[k.cur]), k1, {k.cur});
    OneSameProc(k.threads, k.cur, k1.threads[k.cur]);
    hide SemInv, ProcInv, HistInv, LInv, AllSameProc, SameProc, Slack, MayRaise;
    ProcFrame(k.threads, k1.threads, k1.nextPid);
    HistFrame(k.threads, k1.threads, k1.nextPid, m.exits, m.reaps);
  }

  lemma EmptyQueueHasSlack(k: K, s: SemId)
    requires s in k.sems && k.sems[s].wait == []
    ensures Slack(k, s)
  {}

  /** SemaphoreInc, also as the second half of MutexRelease; None is its ASSERT. */
  ghost function UpStep(m: M, s: SemId): (r: Option<M>)
    requires Inv(m) && MayRaise(m.k, s)
    ensures r.Some? ==> Inv(r.value)
    ensures r.Some? <==> m.k.sems[s].value < 255
  {
    hide Inv, Slack, SemInv;
    if m.k.sems[s].value >= 255 then None
    else if m.k.sems[s].wait == [] then
      EmptyQueueHasSlack(m.k, s);
      RaisingKeeps(m, s);
      Some(m.(k := Raised(m.k, s)))
    else
      WaiterIsBlocked(m, s);
      WakingKeeps(m, s);
      RaisingKeeps(m.(k := FirstWoken(m.k, s)), s);
      Some(m.(k := Raised(FirstWoken(m.k, s), s)))
  }

  /** Releasing a mutex never trips the overflow check. */
  lemma ReleaseNeverOverflows(m: M, s: SemId)
    requires Inv(m) && MayRaise(m.k, s) && m.k.sems[s].isMutex
    ensures UpStep(m, s).Some?
  {
    CurPc(m);
    assert CountOk(m.k.sems[s]);
    OneOwner(m.k, s, m.k.cur);
  }

  /** At most one thread is between acquiring a mutex and releasing it. */
  lemma MutualExclusion(m: M, s: SemId, t: Tid, u: Tid)
    requires Inv(m) && s in m.k.sems && m.k.sems[s].isMutex
    requires t in m.k.sems[s].owners && u in m.k.sems[s].owners
    ensures t == u && m.k.sems[s].value == 0
  {
    assert CountOk(m.k.sems[s]);
    OnlyMember(m.k.sems[s].owners, t, u);
    assert m.k.sems[s].owners != {};
  }

  /** No lost wakeup, and no thread in two queues. */
  lemma WaitersAreServed(m: M, s: SemId, t: Tid)
    requires Inv(m) && s in m.k.sems && t in m.k.sems[s].wait
    ensures m.k.sems[s].value <= |Retrying(m.k.threads, m.k.sems, s)|
    ensures forall z :: z in m.k.sems && z != s ==> t !in m.k.sems[z].wait
  {
    assert NoLostWakeup(m.k.threads, m.k.sems, s);
    assert QueueOk(m.k.threads, s, m.k.sems[s]);
    forall z | z in m.k.sems && z != s ensures t !in m.k.sems[z].wait {
      assert QueueOk(m.k.threads, z, m.k.sems[z]);
    }
  }
}
