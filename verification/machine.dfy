/** Every kernel operation on threads as a step of one machine: the timer, yield, sleep, semaphores and
    mutexes (kernel/thread.c), creation and fork, wait and exit (userprog/wait_exit.c).

    A step runs from one point where the processor may change hands to the next, so a sequence of steps
    is an interleaving of all threads. A step that never ends is `None`: a failed ASSERT, or the endless
    loop of MinHeapPop. */
module Machine {
  import opened Basics
  import opened Lists
  import opened MinHeap
  import opened Sched

  type Threads = map<Tid, Thread>
  type Sems = map<SemId, Sem>

  const NO_PARENT: nat := 65535
  const INIT_PID: nat := 1
  const TICKS_MOD: nat := 0x1_0000_0000

  datatype Reaped = Reaped(pid: nat, code: int)

  /** `exits` and `reaps` record what syscall_exit was called with and what syscall_wait gave back. */
  datatype M = M(k: K, exits: map<nat, int>, reaps: seq<Reaped>)

  datatype Op =
    | Tick | Yield | IdleBlock | Sleep(ms: nat)
    | Create(t: Tid, priority: nat) | Fork(t: Tid)
    | Down(s: SemId) | SetHolder | ClearHolder(s: SemId) | Up(s: SemId)
    | Wait | ExitBegin(code: int) | ExitEnd | Die

  /** The conversion to int8_t that storing into exit_status makes. */
  function Int8(c: int): (r: int)
    ensures -128 <= r <= 127
    ensures r == c <==> -128 <= c <= 127
  {
    if c % 256 < 128 then c % 256 else c % 256 - 256
  }

  /** Addition on uint32_t. */
  function Wrap(n: nat): (r: nat)
    ensures r == n <==> n < TICKS_MOD
    ensures r < TICKS_MOD
  {
    n % TICKS_MOD
  }

  // ---------- Semaphores ----------

  /** The threads woken from the queue of `s` that have not tried again yet. */
  ghost function Retrying(th: Threads, sems: Sems, s: SemId): set<Tid>
    requires s in sems
  {
    set t | t in th && th[t].pc == InDec(s) && t !in sems[s].wait
  }

  ghost predicate QueueOk(th: Threads, s: SemId, sem: Sem)
  {
    NoDup(sem.wait) &&
    forall t :: t in sem.wait ==> t in th && th[t].status == BLOCKED && th[t].pc == InDec(s)
  }

  ghost predicate CountOk(sem: Sem)
  {
    sem.value <= 255 &&
    if sem.isMutex
    then sem.value + |sem.owners| == 1 && (sem.holder.Some? ==> sem.holder.value in sem.owners)
    else sem.owners == {} && sem.holder == None
  }

  ghost predicate NoLostWakeup(th: Threads, sems: Sems, s: SemId)
    requires s in sems
  {
    sems[s].wait != [] ==> sems[s].value <= |Retrying(th, sems, s)|
  }

  /** What the program counter of a thread says about the semaphores. */
  ghost predicate PcOk(sems: Sems, t: Tid, th: Thread, idle: Tid)
  {
    (t == idle ==> th.pc == Free) &&
    (th.pc.InDec? ==> th.pc.s in sems) &&
    (th.pc.Acquired? || th.pc.Releasing? ==> th.pc.s in sems && sems[th.pc.s].isMutex && t in sems[th.pc.s].owners) &&
    (th.pc.Releasing? ==> sems[th.pc.s].holder == None) &&
    (th.status == HANGING ==> th.pc == Free) &&
    (th.status == WAITING ==> th.pc == InWait) &&
    (th.status == BLOCKED && t != idle ==> th.pc.InDec? && t in sems[th.pc.s].wait)
  }

  ghost predicate SemInv(th: Threads, sems: Sems, idle: Tid)
  {
    (forall s :: s in sems ==> QueueOk(th, s, sems[s])) &&
    (forall s :: s in sems ==> CountOk(sems[s])) &&
    (forall s :: s in sems ==> NoLostWakeup(th, sems, s)) &&
    (forall t :: t in th ==> PcOk(sems, t, th[t], idle))
  }

  // ---------- Processes ----------

  ghost predicate HasPid(th: Threads, p: nat)
  {
    exists t :: t in th && th[t].pid == p
  }

  ghost predicate HasChild(th: Threads, p: nat)
  {
    exists t :: t in th && th[t].parent == p
  }

  ghost predicate PidsOk(th: Threads, nextPid: nat)
  {
    nextPid < NO_PARENT && HasPid(th, INIT_PID) &&
    (forall t :: t in th ==> 1 <= th[t].pid <= nextPid) &&
    (forall t, u :: t in th && u in th && th[t].pid == th[u].pid ==> t == u)
  }

  ghost predicate FamilyOk(th: Threads)
  {
    (forall t :: t in th && th[t].parent != NO_PARENT ==> HasPid(th, th[t].parent)) &&
    (forall t :: t in th && th[t].status == HANGING ==> th[t].exiting && th[t].parent != NO_PARENT) &&
    (forall t :: t in th && (th[t].exiting || th[t].status == WAITING) ==> th[t].pid != INIT_PID) &&
    (forall t, u :: t in th && u in th && th[t].exiting ==> th[u].parent != th[t].pid)
  }

  ghost predicate WaitersOk(th: Threads)
  {
    (forall t :: t in th && th[t].status == WAITING ==> HasChild(th, th[t].pid)) &&
    (forall t, u :: t in th && u in th && th[t].status == WAITING && th[u].parent == th[t].pid ==>
       th[u].status != HANGING)
  }

  ghost predicate ProcInv(th: Threads, nextPid: nat)
  {
    PidsOk(th, nextPid) && FamilyOk(th) && WaitersOk(th)
  }

  ghost predicate HistInv(th: Threads, nextPid: nat, exits: map<nat, int>, reaps: seq<Reaped>)
  {
    (forall p :: p in exits ==> p <= nextPid) &&
    (forall t :: t in th ==> (th[t].pid in exits <==> th[t].exiting)) &&
    (forall t :: t in th && th[t].exiting ==> th[t].code == Int8(exits[th[t].pid])) &&
    (forall i :: 0 <= i < |reaps| ==> reaps[i].pid in exits && reaps[i].code == Int8(exits[reaps[i].pid])) &&
    (forall i, t :: 0 <= i < |reaps| && t in th ==> reaps[i].pid != th[t].pid) &&
    (forall i, j :: 0 <= i < j < |reaps| ==> reaps[i].pid != reaps[j].pid)
  }

  ghost predicate Inv(m: M)
  {
    SchedInv(m.k) && SemInv(m.k.threads, m.k.sems, m.k.idle) &&
    ProcInv(m.k.threads, m.k.nextPid) && HistInv(m.k.threads, m.k.nextPid, m.exits, m.reaps)
  }

  // ---------- What depends on what ----------

  /** A change the semaphores do not notice. */
  ghost predicate SameSem(t: Tid, idle: Tid, a: Thread, b: Thread)
  {
    (a.pc == b.pc || (!a.pc.InDec? && (b.pc == Free || b.pc == InWait))) &&
    (t == idle ==> b.pc == Free) &&
    (b.status == HANGING ==> b.pc == Free || (a.status == HANGING && b.pc == a.pc)) &&
    (b.status == WAITING ==> b.pc == InWait || (a.status == WAITING && b.pc == a.pc)) &&
    (t != idle ==> (a.status == BLOCKED <==> b.status == BLOCKED))
  }

  /** A change that parents, children and the record of exits do not notice. */
  ghost predicate SameProc(a: Thread, b: Thread)
  {
    a.pid == b.pid && a.parent == b.parent && a.exiting == b.exiting && a.code == b.code &&
    (a.status == WAITING <==> b.status == WAITING) && (a.status == HANGING <==> b.status == HANGING)
  }

  ghost predicate AllSameSem(th: Threads, th': Threads, idle: Tid)
  {
    th'.Keys == th.Keys && forall t :: t in th ==> SameSem(t, idle, th[t], th'[t])
  }

  ghost predicate AllSameProc(th: Threads, th': Threads)
  {
    th'.Keys == th.Keys && forall t :: t in th ==> SameProc(th[t], th'[t])
  }

  lemma SemFrame(th: Threads, th': Threads, sems: Sems, idle: Tid)
    requires SemInv(th, sems, idle) && AllSameSem(th, th', idle)
    ensures SemInv(th', sems, idle)
  {
    forall s | s in sems ensures QueueOk(th', s, sems[s]) && NoLostWakeup(th', sems, s) {
      assert QueueOk(th, s, sems[s]);
      forall t | t in sems[s].wait ensures t in th' && th'[t].status == BLOCKED && th'[t].pc == InDec(s) {
        assert PcOk(sems, t, th[t], idle) && SameSem(t, idle, th[t], th'[t]);
      }
      forall t | t in th' ensures th'[t].pc == InDec(s) <==> th[t].pc == InDec(s) {
        assert SameSem(t, idle, th[t], th'[t]);
      }
      assert Retrying(th', sems, s) == Retrying(th, sems, s);
      assert NoLostWakeup(th, sems, s);
    }
    forall t | t in th' ensures PcOk(sems, t, th'[t], idle) {
      assert PcOk(sems, t, th[t], idle) && SameSem(t, idle, th[t], th'[t]);
    }
  }

  lemma HasPidFrame(th: Threads, th': Threads, p: nat)
    requires HasPid(th, p) && th.Keys <= th'.Keys
    requires forall t :: t in th ==> th'[t].pid == th[t].pid
    ensures HasPid(th', p)
  {
    var t :| t in th && th[t].pid == p;
    assert t in th' && th'[t].pid == p;
  }

  lemma HasChildFrame(th: Threads, th': Threads, p: nat)
    requires HasChild(th, p) && th.Keys <= th'.Keys
    requires forall t :: t in th && th[t].parent == p ==> th'[t].parent == p
    ensures HasChild(th', p)
  {
    var t :| t in th && th[t].parent == p;
    assert t in th' && th'[t].parent == p;
  }

  lemma ProcFrame(th: Threads, th': Threads, nextPid: nat)
    requires ProcInv(th, nextPid) && AllSameProc(th, th')
    ensures ProcInv(th', nextPid)
  {
    hide HasPid, HasChild;
    forall t | t in th ensures SameProc(th[t], th'[t]) {}
    HasPidFrame(th, th', INIT_PID);
    forall t | t in th && th[t].parent != NO_PARENT ensures HasPid(th', th[t].parent) {
      HasPidFrame(th, th', th[t].parent);
    }
    forall t | t in th && th[t].status == WAITING ensures HasChild(th', th[t].pid) {
      HasChildFrame(th, th', th[t].pid);
    }
  }

  /** The record of exits sees pids and exit statuses only. */
  ghost predicate SameIds(th: Threads, th': Threads)
  {
    th'.Keys == th.Keys &&
    forall t :: t in th ==> th[t].pid == th'[t].pid && th[t].exiting == th'[t].exiting && th[t].code == th'[t].code
  }

  lemma HistFrameIds(th: Threads, th': Threads, nextPid: nat, exits: map<nat, int>, reaps: seq<Reaped>)
    requires HistInv(th, nextPid, exits, reaps) && SameIds(th, th')
    ensures HistInv(th', nextPid, exits, reaps)
  {}

  lemma HistFrame(th: Threads, th': Threads, nextPid: nat, exits: map<nat, int>, reaps: seq<Reaped>)
    requires HistInv(th, nextPid, exits, reaps) && AllSameProc(th, th')
    ensures HistInv(th', nextPid, exits, reaps)
  {
    forall t | t in th ensures SameProc(th[t], th'[t]) {}
  }

  lemma CalmIsUnnoticed(k: K, k': K)
    requires Calm(k, k') && OthersOk(k) && OthersOk(k')
    requires k.threads[k.idle].pc == Free
    ensures AllSameSem(k.threads, k'.threads, k.idle) && AllSameProc(k.threads, k'.threads)
  {
    forall t | t in k.threads
      ensures SameSem(t, k.idle, k.threads[t], k'.threads[t]) && SameProc(k.threads[t], k'.threads[t])
    {
      assert CalmThread(k, t, k.threads[t], k'.threads[t]);
    }
  }

  ghost predicate RestOk(k: K, exits: map<nat, int>, reaps: seq<Reaped>)
  {
    SemInv(k.threads, k.sems, k.idle) && ProcInv(k.threads, k.nextPid) && HistInv(k.threads, k.nextPid, exits, reaps)
  }

  lemma IdlePc(k: K, exits: map<nat, int>, reaps: seq<Reaped>)
    requires RestOk(k, exits, reaps) && k.idle in k.threads
    ensures k.threads[k.idle].pc == Free
  {
    assert PcOk(k.sems, k.idle, k.threads[k.idle], k.idle);
  }

  lemma OneSameProc(th: Threads, t: Tid, new1: Thread)
    requires t in th && SameProc(th[t], new1)
    ensures AllSameProc(th, th[t := new1])
  {}

  lemma CurPc(m: M)
    requires Inv(m)
    ensures m.k.cur in m.k.threads && PcOk(m.k.sems, m.k.cur, m.k.threads[m.k.cur], m.k.idle)
  {}

  lemma LInvIgnoresSems(k: K, k1: K, off: set<Tid>)
    requires LInv(k, off) && k1 == k.(sems := k1.sems)
    ensures LInv(k1, off)
  {}

  /** Scheduling keeps everything else. */
  lemma SchedulingKeeps(k: K, exits: map<nat, int>, reaps: seq<Reaped>)
    requires Schedulable(k) && RestOk(k, exits, reaps) && Schedule(k).Some?
    ensures Inv(M(Schedule(k).value, exits, reaps))
  {
    var k' := Schedule(k).value;
    ScheduleIsCalm(k);
    IdlePc(k, exits, reaps);
    hide Schedule, SemInv, ProcInv, HistInv;
    CalmIsUnnoticed(k, k');
    SemFrame(k.threads, k'.threads, k.sems, k.idle);
    ProcFrame(k.threads, k'.threads, k.nextPid);
    HistFrame(k.threads, k'.threads, k.nextPid, exits, reaps);
  }

  // ---------- Steps that only move the running thread ----------

  ghost function SetCur(k: K, th: Thread): K
  {
    k.(threads := k.threads[k.cur := th])
  }

  lemma SetCurKeepsLists(k: K, th: Thread)
    requires SchedInv(k)
    requires k.cur == k.idle ==> th.status == RUNNING || th.status == BLOCKED
    ensures LInv(SetCur(k, th), {k.cur})
  {
    hide Nodes, Ordered, NoDup;
  }

  lemma SemFrameOne(th: Threads, sems: Sems, t: Tid, new1: Thread, idle: Tid)
    requires SemInv(th, sems, idle) && t in th && SameSem(t, idle, th[t], new1)
    ensures SemInv(th[t := new1], sems, idle)
  {
    forall u | u in th ensures SameSem(u, idle, th[u], th[t := new1][u]) {
      assert PcOk(sems, u, th[u], idle);
    }
    hide SemInv, SameSem;
    SemFrame(th, th[t := new1], sems, idle);
  }

  lemma OneUnnoticed(th: Threads, sems: Sems, t: Tid, new1: Thread, idle: Tid)
    requires SemInv(th, sems, idle) && t in th && SameSem(t, idle, th[t], new1) && SameProc(th[t], new1)
    ensures AllSameSem(th, th[t := new1], idle) && AllSameProc(th, th[t := new1])
  {
    forall u | u in th ensures SameSem(u, idle, th[u], th[t := new1][u]) {
      assert PcOk(sems, u, th[u], idle);
    }
  }

  lemma LInvIgnoresTime(k: K, k1: K, off: set<Tid>)
    requires LInv(k, off) && k1 == k.(now := k1.now)
    ensures LInv(k1, off)
  {}

  ghost function Moved(k: K, th: Thread, now: nat): K
  {
    k.(threads := k.threads[k.cur := th], now := now)
  }

  /** A change of the running thread that neither the semaphores nor the processes notice. */
  ghost predicate Unnoticed(k: K, th: Thread)
    requires k.cur in k.threads
  {
    SameSem(k.cur, k.idle, k.threads[k.cur], th) && SameProc(k.threads[k.cur], th) &&
    (k.cur == k.idle ==> th.status == RUNNING || th.status == BLOCKED)
  }

  lemma MovingKeepsRest(m: M, th: Thread, now: nat)
    requires Inv(m) && SameSem(m.k.cur, m.k.idle, m.k.threads[m.k.cur], th) && SameProc(m.k.threads[m.k.cur], th)
    ensures RestOk(Moved(m.k, th, now), m.exits, m.reaps)
  {
    var k1 := Moved(m.k, th, now);
    CurRuns(m);
    hide SemInv, ProcInv, HistInv, SameSem, SameProc, AllSameSem, AllSameProc, LInv;
    OneUnnoticed(m.k.threads, m.k.sems, m.k.cur, th, m.k.idle);
    SemFrame(m.k.threads, k1.threads, k1.sems, k1.idle);
    ProcFrame(m.k.threads, k1.threads, k1.nextPid);
    HistFrame(m.k.threads, k1.threads, k1.nextPid, m.exits, m.reaps);
  }

  lemma MovingKeeps(m: M, th: Thread, now: nat)
    requires Inv(m) && Unnoticed(m.k, th)
    ensures LInv(Moved(m.k, th, now), {m.k.cur}) && RestOk(Moved(m.k, th, now), m.exits, m.reaps)
  {
    SetCurKeepsLists(m.k, th);
    LInvIgnoresTime(SetCur(m.k, th), Moved(m.k, th, now), {m.k.cur});
    hide SemInv, ProcInv, HistInv, SameSem, SameProc, RestOk, LInv;
    MovingKeepsRest(m, th, now);
  }

  ghost function Rescheduled(m: M, k1: K): (r: Option<M>)
    requires Schedulable(k1)
  {
    match Schedule(k1)
    case None => None
    case Some(k') => Some(m.(k := k'))
  }

  lemma ReschedulingKeeps(m: M, k1: K)
    requires Schedulable(k1) && RestOk(k1, m.exits, m.reaps) && Rescheduled(m, k1).Some?
    ensures Inv(Rescheduled(m, k1).value)
  {
    hide Schedule, Schedulable, RestOk, Inv;
    SchedulingKeeps(k1, m.exits, m.reaps);
  }

  lemma MoveAndRun(m: M, th: Thread, now: nat)
    requires Inv(m) && Unnoticed(m.k, th) && th.status == RUNNING
    ensures Inv(m.(k := Moved(m.k, th, now)))
  {
    hide LInv, SemInv, ProcInv, HistInv, Unnoticed;
    MovingKeeps(m, th, now);
  }

  lemma MoveAndSchedule(m: M, th: Thread, now: nat)
    requires Inv(m) && Unnoticed(m.k, th)
    requires th.status == RUNNING || Parked(th.status) || th.status == DELAYED
    ensures var k1 := Moved(m.k, th, now);
            Schedulable(k1) && (Rescheduled(m, k1).Some? ==> Inv(Rescheduled(m, k1).value))
  {
    hide LInv, SemInv, ProcInv, HistInv, Unnoticed, Schedule;
    MovingKeeps(m, th, now);
    if Rescheduled(m, Moved(m.k, th, now)).Some? { ReschedulingKeeps(m, Moved(m.k, th, now)); }
  }

  /** Status RUNNING or DELAYED, the time slice and the deadline matter to the scheduler alone. */
  lemma Gentle(m: M, th: Thread)
    requires Inv(m)
    requires th == m.k.threads[m.k.cur].(status := th.status, ticks := th.ticks, deadline := th.deadline)
    requires if m.k.cur == m.k.idle then th.status == RUNNING || th.status == BLOCKED
             else th.status == RUNNING || th.status == DELAYED
    ensures Unnoticed(m.k, th)
  {
    IdlePc(m.k, m.exits, m.reaps);
    hide LInv, SemInv, ProcInv, HistInv;
  }

  lemma TimePasses(m: M, now: nat)
    requires Inv(m)
    ensures var k := m.k.(now := now); Schedulable(k) && RestOk(k, m.exits, m.reaps)
  {
    LInvIgnoresTime(m.k, m.k.(now := now), {m.k.cur});
    hide LInv, SemInv, ProcInv, HistInv;
  }

  /** The timer interrupt, with the new value of the tick counter. */
  ghost function TickTo(m: M, now: nat): (r: Option<M>)
    requires Inv(m)
  {
    CurRuns(m);
    var k := m.k.(now := now);
    if k.threads[k.cur].ticks == 0 then
      TimePasses(m, now);
      Rescheduled(m, k)
    else Some(m.(k := Moved(m.k, OneTickLess(m.k.threads[m.k.cur]), now)))
  }

  ghost function OneTickLess(th: Thread): (r: Thread)
    requires th.ticks > 0
    ensures r == th.(ticks := r.ticks)
  {
    th.(ticks := th.ticks - 1)
  }

  ghost function TickStep(m: M): (r: Option<M>)
    requires Inv(m)
  {
    TickTo(m, Wrap(m.k.now + 1))
  }

  /** Both branches of the timer interrupt, on the state with the new tick count. */
  lemma TickIs(m: M, k: K)
    requires Inv(m) && k == m.k.(now := Wrap(m.k.now + 1))
    ensures k.cur in k.threads && Schedulable(k)
    ensures k.threads[k.cur].ticks == 0 ==>
              TickStep(m) == match Schedule(k) { case None => None case Some(k') => Some(m.(k := k')) }
    ensures k.threads[k.cur].ticks > 0 ==>
              TickStep(m) == Some(m.(k := SetCur(k, k.threads[k.cur].(ticks := k.threads[k.cur].ticks - 1))))
  {
    hide Inv, LInv, RestOk, Schedule, Schedulable, Wrap;
    CurRuns(m);
    TimePasses(m, k.now);
    if k.threads[k.cur].ticks > 0 { TickedIs(m, k); }
  }

  lemma TickedIs(m: M, k: K)
    requires Inv(m) && k == m.k.(now := k.now) && k.cur in k.threads && k.threads[k.cur].ticks > 0
    ensures TickTo(m, k.now) == Some(m.(k := SetCur(k, k.threads[k.cur].(ticks := k.threads[k.cur].ticks - 1))))
  {
    hide Inv, LInv, RestOk, Schedule, Schedulable, Wrap;
  }

  lemma TickSwitchKeeps(m: M, now: nat)
    requires Inv(m) && m.k.threads[m.k.cur].ticks == 0 && TickTo(m, now).Some?
    ensures Inv(TickTo(m, now).value)
  {
    CurRuns(m);
    hide Inv, LInv, Rescheduled, Schedulable, RestOk;
    TimePasses(m, now);
    ReschedulingKeeps(m, m.k.(now := now));
  }

  lemma TickRunKeeps(m: M, now: nat)
    requires Inv(m) && m.k.threads[m.k.cur].ticks != 0 && TickTo(m, now).Some?
    ensures Inv(TickTo(m, now).value)
  {
    CurRuns(m);
    hide Inv, LInv, Rescheduled, Schedulable, Unnoticed, OneTickLess;
    var th := OneTickLess(m.k.threads[m.k.cur]);
    Gentle(m, th);
    MoveAndRun(m, th, now);
  }

  lemma TickKeeps(m: M, now: nat)
    requires Inv(m) && TickTo(m, now).Some?
    ensures Inv(TickTo(m, now).value)
  {
    CurRuns(m);
    hide Inv, TickTo;
    if m.k.threads[m.k.cur].ticks == 0 { TickSwitchKeeps(m, now); } else { TickRunKeeps(m, now); }
  }

  lemma CurRuns(m: M)
    requires Inv(m)
    ensures m.k.cur in m.k.threads && m.k.threads[m.k.cur].status == RUNNING && m.k.idle in m.k.threads
  {}

  /** idle_task_func: the idle task parks itself. */
  ghost function IdleBlockStep(m: M): (r: Option<M>)
    requires Inv(m) && m.k.cur == m.k.idle
    ensures r.Some? ==> Inv(r.value)
  {
    hide Inv, LInv, Rescheduled, Schedulable, Unnoticed;
    CurRuns(m);
    var th := m.k.threads[m.k.cur].(status := BLOCKED);
    Gentle(m, th);
    MoveAndSchedule(m, th, m.k.now);
    Rescheduled(m, Moved(m.k, th, m.k.now))
  }

  ghost function SleepUntil(m: M, deadline: nat): (r: Option<M>)
    requires Inv(m) && m.k.cur != m.k.idle
    ensures r.Some? ==> Inv(r.value)
  {
    hide Inv, LInv, Rescheduled, Schedulable, Unnoticed;
    CurRuns(m);
    var th := m.k.threads[m.k.cur].(status := DELAYED, deadline := deadline);
    Gentle(m, th);
    MoveAndSchedule(m, th, m.k.now);
    Rescheduled(m, Moved(m.k, th, m.k.now))
  }

  /** syscall_sleep; the sum wraps. */
  ghost function SleepStep(m: M, ms: nat): (r: Option<M>)
    requires Inv(m) && m.k.cur != m.k.idle
  {
    SleepUntil(m, Wrap(ms + m.k.now))
  }

  ghost function Yielding(k: K): K
    requires k.cur in k.threads
  {
    Moved(k, k.threads[k.cur].(status := READY), k.now).(ready := k.ready + [k.cur])
  }

  lemma YieldingLists(k: K)
    requires SchedInv(k) && k.cur != k.idle
    ensures LInv(Yielding(k), {})
  {
    hide Nodes, Ordered, NoDup;
    AppendNoDup(k.ready, k.cur);
  }

  lemma YieldingKeeps(m: M)
    requires Inv(m) && m.k.cur != m.k.idle
    ensures Schedulable(Yielding(m.k)) && RestOk(Yielding(m.k), m.exits, m.reaps)
  {
    hide LInv, SemInv, ProcInv, HistInv;
    CurRuns(m);
    IdlePc(m.k, m.exits, m.reaps);
    YieldingLists(m.k);
    MovingKeepsRest(m, m.k.threads[m.k.cur].(status := READY), m.k.now);
  }

  /** Thread_Yield: the thread queues itself without a new time slice. */
  ghost function YieldStep(m: M): (r: Option<M>)
    requires Inv(m) && m.k.cur != m.k.idle
    ensures r.Some? ==> Inv(r.value)
  {
    hide Inv, LInv, Rescheduled, Schedulable, Unnoticed, RestOk;
    CurRuns(m);
    YieldingKeeps(m);
    var k1 := Yielding(m.k);
    if Rescheduled(m, k1).Some? then ReschedulingKeeps(m, k1); Rescheduled(m, k1) else None
  }

  // ---------- New threads ----------

  ghost function Added(k: K, t: Tid, th: Thread): K
  {
    k.(threads := k.threads[t := th], ready := k.ready + [t], all := k.all + [t], nextPid := k.nextPid + 1)
  }

  ghost predicate Newborn(k: K, t: Tid, th: Thread)
  {
    t !in k.threads && k.nextPid + 1 < NO_PARENT &&
    th.pid == k.nextPid + 1 && th.status == READY && th.pc == Free && !th.exiting
  }

  lemma AddingKeepsLists(k: K, t: Tid, th: Thread)
    requires SchedInv(k) && Newborn(k, t, th)
    ensures SchedInv(Added(k, t, th))
  {
    hide NoDup, HeapOk;
    AppendNoDup(k.all, t);
    AddingKeepsHeap(k, t, th);
    AddingKeepsQueues(k, t, th, {k.cur});
    hide ListsOk;
  }

  lemma AddingKeepsQueues(k: K, t: Tid, th: Thread, off: set<Tid>)
    requires ListsOk(k, off) && Newborn(k, t, th) && t !in off
    ensures ListsOk(Added(k, t, th), off)
  {
    hide NoDup;
    AppendNoDup(k.ready, t);
  }

  lemma AddingKeepsHeap(k: K, t: Tid, th: Thread)
    requires HeapOk(k) && t !in k.threads && t !in k.delay
    ensures HeapOk(Added(k, t, th))
  {}

  lemma AddingKeepsSems(k: K, t: Tid, th: Thread)
    requires SemInv(k.threads, k.sems, k.idle) && Newborn(k, t, th) && k.idle in k.threads
    ensures SemInv(Added(k, t, th).threads, k.sems, k.idle)
  {
    var ths, ths' := k.threads, k.threads[t := th];
    forall s | s in k.sems ensures QueueOk(ths', s, k.sems[s]) && NoLostWakeup(ths', k.sems, s) {
      assert QueueOk(ths, s, k.sems[s]) && NoLostWakeup(ths, k.sems, s);
      assert Retrying(ths', k.sems, s) == Retrying(ths, k.sems, s);
    }
    forall u | u in ths' ensures PcOk(k.sems, u, ths'[u], k.idle) {
      if u != t { assert PcOk(k.sems, u, ths[u], k.idle); }
    }
  }

  /** The parent of a new thread is nobody, or a process that is not on its way out. */
  ghost predicate MayBeParent(ths: Threads, p: nat)
  {
    p == NO_PARENT ||
    exists u :: u in ths && ths[u].pid == p && !ths[u].exiting && ths[u].status != HANGING
  }

  ghost predicate Joining(ths: Threads, nextPid: nat, t: Tid, th: Thread)
  {
    t !in ths && nextPid + 1 < NO_PARENT && th.pid == nextPid + 1 && th.status == READY && !th.exiting &&
    MayBeParent(ths, th.parent)
  }

  lemma JoiningKeepsPids(ths: Threads, nextPid: nat, t: Tid, th: Thread)
    requires PidsOk(ths, nextPid) && Joining(ths, nextPid, t, th)
    ensures PidsOk(ths[t := th], nextPid + 1)
  {
    HasPidFrame(ths, ths[t := th], INIT_PID);
  }

  lemma JoiningKeepsFamily(ths: Threads, nextPid: nat, t: Tid, th: Thread)
    requires PidsOk(ths, nextPid) && FamilyOk(ths) && Joining(ths, nextPid, t, th)
    ensures FamilyOk(ths[t := th])
  {
    var ths' := ths[t := th];
    assert th.parent != NO_PARENT ==> HasPid(ths, th.parent);
    forall u | u in ths' && ths'[u].parent != NO_PARENT ensures HasPid(ths', ths'[u].parent) {
      hide HasPid;
      HasPidFrame(ths, ths', ths'[u].parent);
    }
  }

  lemma JoiningKeepsWaiters(ths: Threads, nextPid: nat, t: Tid, th: Thread)
    requires WaitersOk(ths) && Joining(ths, nextPid, t, th)
    ensures WaitersOk(ths[t := th])
  {
    hide HasChild, MayBeParent;
    var ths' := ths[t := th];
    forall u | u in ths' && ths'[u].status == WAITING ensures HasChild(ths', ths'[u].pid) {
      HasChildFrame(ths, ths', ths[u].pid);
    }
  }

  lemma AddingKeepsHistory(ths: Threads, nextPid: nat, t: Tid, th: Thread, exits: map<nat, int>, reaps: seq<Reaped>)
    requires HistInv(ths, nextPid, exits, reaps) && t !in ths && th.pid == nextPid + 1 && !th.exiting
    ensures HistInv(ths[t := th], nextPid + 1, exits, reaps)
  {}

  lemma AddingKeepsRest(k: K, t: Tid, th: Thread, exits: map<nat, int>, reaps: seq<Reaped>)
    requires RestOk(k, exits, reaps) && k.idle in k.threads && Newborn(k, t, th) && MayBeParent(k.threads, th.parent)
    ensures RestOk(Added(k, t, th), exits, reaps)
  {
    hide SemInv, HistInv, PidsOk, FamilyOk, WaitersOk, MayBeParent;
    AddingKeepsSems(k, t, th);
    JoiningKeepsPids(k.threads, k.nextPid, t, th);
    JoiningKeepsFamily(k.threads, k.nextPid, t, th);
    JoiningKeepsWaiters(k.threads, k.nextPid, t, th);
    AddingKeepsHistory(k.threads, k.nextPid, t, th, exits, reaps);
  }

  lemma AddingKeeps(m: M, t: Tid, th: Thread)
    requires Inv(m) && Newborn(m.k, t, th) && MayBeParent(m.k.threads, th.parent)
    ensures Inv(m.(k := Added(m.k, t, th)))
  {
    CurRuns(m);
    hide LInv, SemInv, ProcInv, HistInv, MayBeParent, Newborn;
    AddingKeepsLists(m.k, t, th);
    AddingKeepsRest(m.k, t, th, m.exits, m.reaps);
  }

  /** ThreadCreate. */
  ghost function CreateStep(m: M, t: Tid, priority: nat): (r: M)
    requires Inv(m) && t !in m.k.threads && m.k.nextPid + 1 < NO_PARENT
    ensures Inv(r)
  {
    hide Inv;
    var th := Thread(m.k.nextPid + 1, NO_PARENT, READY, priority, priority, 0, 0, false, Free);
    AddingKeeps(m, t, th);
    m.(k := Added(m.k, t, th))
  }

  /** syscall_fork, for a copy that succeeds. */
  ghost function ForkStep(m: M, t: Tid): (r: M)
    requires Inv(m) && t !in m.k.threads && m.k.nextPid + 1 < NO_PARENT
    requires !m.k.threads[m.k.cur].exiting
    ensures Inv(r)
  {
    CurRuns(m);
    hide Inv;
    var me := m.k.threads[m.k.cur];
    var th := me.(pid := m.k.nextPid + 1, parent := me.pid, status := READY, ticks := me.priority, pc := Free);
    AddingKeeps(m, t, th);
    m.(k := Added(m.k, t, th))
  }
}
