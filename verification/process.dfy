/** Wait and exit (userprog/wait_exit.c) as steps of the machine.

    syscall_exit is two steps, because between handing its children to init and looking for its parent
    a process gives back its memory, for which it may have to wait. Pid 1 neither waits nor exits
    (kernel/kernel.c). */
module Process {
  import opened Basics
  import opened Lists
  import opened MinHeap
  import opened Sched
  import opened Machine

  // ---------- Reaping a child ----------

  /** The scan of syscall_wait: the first child that hangs. */
  ghost function FindHanging(all: seq<Tid>, th: Threads, p: nat): (r: Option<Tid>)
    ensures r.Some? ==> r.value in all && r.value in th && th[r.value].parent == p && th[r.value].status == HANGING
    ensures r.None? ==> forall t :: t in all && t in th && th[t].parent == p ==> th[t].status != HANGING
  {
    if all == [] then None
    else if all[0] in th && th[all[0]].parent == p && th[all[0]].status == HANGING then Some(all[0])
    else FindHanging(all[1..], th, p)
  }

  /** The scan of FindTargetPCB. */
  ghost function FindPid(all: seq<Tid>, th: Threads, p: nat): (r: Option<Tid>)
    ensures r.Some? ==> r.value in all && r.value in th && th[r.value].pid == p
    ensures r.None? ==> forall t :: t in all && t in th ==> th[t].pid != p
  {
    if all == [] then None
    else if all[0] in th && th[all[0]].pid == p then Some(all[0])
    else FindPid(all[1..], th, p)
  }

  /** ThreadExit for a hanging child. */
  ghost function Buried(k: K, c: Tid): K
    requires c in k.all && c in k.block
  {
    k.(threads := k.threads - {c}, all := Unlink(k.all, c), block := Unlink(k.block, c))
  }

  ghost predicate Zombie(k: K, c: Tid)
  {
    c in k.threads && k.threads[c].status == HANGING
  }

  lemma ZombieIsListed(k: K, c: Tid)
    requires SchedInv(k) && Zombie(k, c)
    ensures c in k.all && c in k.block && c != k.cur && c != k.idle && c !in k.delay
  {}

  lemma BuryingKeepsLists(k: K, c: Tid)
    requires SchedInv(k) && Zombie(k, c) && c in k.all && c in k.block
    ensures SchedInv(Buried(k, c))
  {
    hide HeapOk, NoDup, Unlink;
    ZombieIsListed(k, c);
    UnlinkTakesOne(k.all, c);
    UnlinkTakesOne(k.block, c);
    BuryingKeepsHeap(k, c);
  }

  lemma BuryingKeepsHeap(k: K, c: Tid)
    requires HeapOk(k) && c in k.all && c in k.block && c !in k.delay
    ensures HeapOk(Buried(k, c))
  {}

  lemma BuryingKeepsSems(th: Threads, sems: Sems, idle: Tid, c: Tid)
    requires SemInv(th, sems, idle) && c in th && th[c].status == HANGING
    ensures SemInv(th - {c}, sems, idle)
  {
    var th1 := th - {c};
    assert PcOk(sems, c, th[c], idle);
    forall s | s in sems ensures QueueOk(th1, s, sems[s]) && NoLostWakeup(th1, sems, s) {
      assert QueueOk(th, s, sems[s]) && NoLostWakeup(th, sems, s);
      assert Retrying(th1, sems, s) == Retrying(th, sems, s);
    }
    forall t | t in th1 ensures PcOk(sems, t, th1[t], idle) { assert PcOk(sems, t, th[t], idle); }
  }

  lemma HasPidLess(th: Threads, c: Tid, p: nat)
    requires HasPid(th, p) && c in th && th[c].pid != p
    ensures HasPid(th - {c}, p)
  {
    var t :| t in th && th[t].pid == p;
    assert t in th - {c};
  }

  lemma HasChildLess(th: Threads, c: Tid, p: nat)
    requires HasChild(th, p) && c in th && th[c].parent != p
    ensures HasChild(th - {c}, p)
  {
    var t :| t in th && th[t].parent == p;
    assert t in th - {c};
  }

  /** A process may be buried once nobody who waits is its parent. */
  lemma BuryingKeepsProcs(th: Threads, nextPid: nat, c: Tid)
    requires ProcInv(th, nextPid) && c in th && th[c].status == HANGING
    requires forall t :: t in th && th[t].pid == th[c].parent ==> th[t].status != WAITING
    ensures ProcInv(th - {c}, nextPid)
  {
    hide HasPid, HasChild;
    HasPidLess(th, c, INIT_PID);
    forall t | t in th - {c} && th[t].parent != NO_PARENT ensures HasPid(th - {c}, th[t].parent) {
      HasPidLess(th, c, th[t].parent);
    }
    forall t | t in th - {c} && th[t].status == WAITING ensures HasChild(th - {c}, th[t].pid) {
      HasChildLess(th, c, th[t].pid);
    }
  }

  lemma BuryingKeepsHistory(th: Threads, nextPid: nat, exits: map<nat, int>, reaps: seq<Reaped>, c: Tid)
    requires HistInv(th, nextPid, exits, reaps) && PidsOk(th, nextPid) && c in th && th[c].exiting
    ensures HistInv(th - {c}, nextPid, exits, reaps + [Reaped(th[c].pid, th[c].code)])
  {
    hide HasPid;
  }

  lemma BuryingKeeps(m: M, c: Tid)
    requires Inv(m) && Zombie(m.k, c) && m.k.threads[c].parent == m.k.threads[m.k.cur].pid
    requires c in m.k.all && c in m.k.block
    ensures var th := m.k.threads[c];
            Inv(m.(k := Buried(m.k, c), reaps := m.reaps + [Reaped(th.pid, th.code)]))
  {
    CurRuns(m);
    BuryingKeepsLists(m.k, c);
    assert m.k.threads[c].exiting;
    hide LInv, SemInv, HistInv, FamilyOk, WaitersOk;
    BuryingKeepsSems(m.k.threads, m.k.sems, m.k.idle, c);
    BuryingKeepsProcs(m.k.threads, m.k.nextPid, c);
    BuryingKeepsHistory(m.k.threads, m.k.nextPid, m.exits, m.reaps, c);
  }

  // ---------- Changes of status ----------

  ghost predicate OnlyStatus(th: Threads, c: Tid, n: Thread)
  {
    c in th && n == th[c].(status := n.status, pc := n.pc)
  }

  lemma StatusKeepsPids(th: Threads, nextPid: nat, c: Tid, n: Thread)
    requires PidsOk(th, nextPid) && OnlyStatus(th, c, n)
    ensures PidsOk(th[c := n], nextPid)
  {
    hide HasPid;
    HasPidFrame(th, th[c := n], INIT_PID);
  }

  lemma StatusKeepsFamily(th: Threads, c: Tid, n: Thread)
    requires FamilyOk(th) && OnlyStatus(th, c, n)
    requires n.status == HANGING ==> n.exiting && n.parent != NO_PARENT
    requires n.status == WAITING ==> n.pid != INIT_PID
    ensures FamilyOk(th[c := n])
  {
    hide HasPid;
    forall u | u in th && th[u].parent != NO_PARENT ensures HasPid(th[c := n], th[u].parent) {
      HasPidFrame(th, th[c := n], th[u].parent);
    }
  }

  ghost predicate NoneWaits(th: Threads, p: nat)
  {
    forall t :: t in th && th[t].pid == p ==> th[t].status != WAITING
  }

  ghost predicate NoneHangs(th: Threads, p: nat)
  {
    forall t :: t in th && th[t].parent == p ==> th[t].status != HANGING
  }

  lemma StatusKeepsWaiters(th: Threads, c: Tid, n: Thread)
    requires WaitersOk(th) && OnlyStatus(th, c, n)
    requires n.status == HANGING ==> NoneWaits(th, n.parent)
    requires n.status == WAITING ==> HasChild(th, n.pid) && NoneHangs(th, n.pid)
    ensures WaitersOk(th[c := n])
  {
    hide HasChild;
    forall u | u in th && th[c := n][u].status == WAITING ensures HasChild(th[c := n], th[u].pid) {
      HasChildFrame(th, th[c := n], th[u].pid);
    }
  }

  lemma StatusKeepsProcs(th: Threads, nextPid: nat, c: Tid, n: Thread)
    requires ProcInv(th, nextPid) && OnlyStatus(th, c, n)
    requires n.status == HANGING ==> n.exiting && n.parent != NO_PARENT && NoneWaits(th, n.parent)
    requires n.status == WAITING ==> n.pid != INIT_PID && HasChild(th, n.pid) && NoneHangs(th, n.pid)
    ensures ProcInv(th[c := n], nextPid) && SameIds(th, th[c := n])
  {
    hide PidsOk, FamilyOk, WaitersOk, HasChild, NoneWaits, NoneHangs;
    StatusKeepsPids(th, nextPid, c, n);
    StatusKeepsFamily(th, c, n);
    StatusKeepsWaiters(th, c, n);
  }

  // ---------- syscall_wait ----------

  ghost predicate MayWait(k: K)
  {
    k.cur in k.threads && k.cur != k.idle &&
    var me := k.threads[k.cur];
    me.pc in {Free, InWait} && !me.exiting && me.pid != INIT_PID
  }

  lemma WaitingKeepsSems(m: M, th: Thread)
    requires Inv(m) && MayWait(m.k) && (th.status == WAITING || th.status == RUNNING)
    requires th.pc == if th.status == WAITING then InWait else Free
    ensures SemInv(m.k.threads[m.k.cur := th], m.k.sems, m.k.idle)
  {
    CurRuns(m);
    hide SemInv, ProcInv, HistInv, LInv;
    SemFrameOne(m.k.threads, m.k.sems, m.k.cur, th, m.k.idle);
  }

  lemma NoHangingChild(k: K, p: nat)
    requires OthersOk(k) && FindHanging(k.all, k.threads, p).None?
    ensures NoneHangs(k.threads, p)
  {}

  lemma WaitingKeeps(m: M)
    requires Inv(m) && MayWait(m.k) && HasChild(m.k.threads, m.k.threads[m.k.cur].pid)
    requires FindHanging(m.k.all, m.k.threads, m.k.threads[m.k.cur].pid).None?
    ensures var k1 := SetCur(m.k, m.k.threads[m.k.cur].(status := WAITING, pc := InWait));
            Schedulable(k1) && RestOk(k1, m.exits, m.reaps)
  {
    hide SemInv, ProcInv, HistInv, ListsOk, HeapOk, SameIds, FindHanging, HasChild, NoneHangs;
    NoHangingChild(m.k, m.k.threads[m.k.cur].pid);
    hide LInv, OthersOk;
    CurRuns(m);
    var th := m.k.threads[m.k.cur].(status := WAITING, pc := InWait);
    SetCurKeepsLists(m.k, th);
    WaitingKeepsSems(m, th);
    StatusKeepsProcs(m.k.threads, m.k.nextPid, m.k.cur, th);
    HistFrameIds(m.k.threads, m.k.threads[m.k.cur := th], m.k.nextPid, m.exits, m.reaps);
  }

  /** One pass of the loop of syscall_wait. */
  ghost function WaitStep(m: M): (r: Option<M>)
    requires Inv(m) && MayWait(m.k)
  {
    var me := m.k.threads[m.k.cur];
    var k := Moved(m.k, me.(pc := Free), m.k.now);
    match FindHanging(m.k.all, m.k.threads, me.pid)
    case Some(c) =>
      ZombieIsListed(m.k, c);
      var th := m.k.threads[c];
      Some(m.(k := Buried(k, c), reaps := m.reaps + [Reaped(th.pid, th.code)]))
    case None =>
      if HasChild(m.k.threads, me.pid) then
        WaitingKeeps(m);
        Rescheduled(m, SetCur(m.k, me.(status := WAITING, pc := InWait)))
      else Some(m.(k := k))
  }

  lemma ReturningKeeps(m: M)
    requires Inv(m) && MayWait(m.k)
    ensures Inv(m.(k := Moved(m.k, m.k.threads[m.k.cur].(pc := Free), m.k.now)))
  {
    CurRuns(m);
    hide SemInv, ProcInv, HistInv, LInv;
    MoveAndRun(m, m.k.threads[m.k.cur].(pc := Free), m.k.now);
  }

  lemma WaitKeeps(m: M)
    requires Inv(m) && MayWait(m.k) && WaitStep(m).Some?
    ensures Inv(WaitStep(m).value)
  {
    CurRuns(m);
    ReturningKeeps(m);
    var me := m.k.threads[m.k.cur];
    var m0 := m.(k := Moved(m.k, me.(pc := Free), m.k.now));
    var found := FindHanging(m.k.all, m.k.threads, me.pid);
    if found.Some? {
      ZombieIsListed(m.k, found.value);
      hide Inv;
      BuryingKeeps(m0, found.value);
    } else if HasChild(m.k.threads, me.pid) {
      WaitingKeeps(m);
      hide Inv, Schedule, Schedulable, RestOk;
      ReschedulingKeeps(m, SetCur(m.k, me.(status := WAITING, pc := InWait)));
    }
  }

  // ---------- syscall_exit ----------

  /** InitAdopt. */
  ghost function Adopted(th: Threads, p: nat): (r: Threads)
    ensures r.Keys == th.Keys
  {
    map t | t in th :: if th[t].parent == p then th[t].(parent := INIT_PID) else th[t]
  }

  ghost predicate MayExit(k: K)
  {
    k.cur in k.threads && k.cur != k.idle &&
    var me := k.threads[k.cur];
    me.pc == Free && !me.exiting && me.pid != INIT_PID
  }

  ghost function Leaving(k: K, code: int): (r: Threads)
    requires k.cur in k.threads
  {
    var th := Adopted(k.threads, k.threads[k.cur].pid);
    th[k.cur := th[k.cur].(exiting := true, code := Int8(code))]
  }

  lemma LeavingThread(k: K, code: int, t: Tid)
    requires k.cur in k.threads && t in k.threads
    ensures var a, b := k.threads[t], Leaving(k, code)[t];
            a.status == b.status && a.deadline == b.deadline && a.pc == b.pc && a.pid == b.pid
  {}

  lemma LeavingKeepsHeap(k: K, code: int)
    requires k.cur in k.threads && HeapOk(k)
    ensures HeapOk(k.(threads := Leaving(k, code)))
  {
    forall t | t in k.threads ensures Leaving(k, code)[t].deadline == k.threads[t].deadline {
      LeavingThread(k, code, t);
    }
    hide Ordered, Nodes, Leaving;
    assert Leaving(k, code).Keys == k.threads.Keys by { LeavingKeys(k, code); }
  }

  lemma LeavingKeys(k: K, code: int)
    requires k.cur in k.threads
    ensures Leaving(k, code).Keys == k.threads.Keys
  {}

  lemma LeavingKeepsLists(k: K, code: int)
    requires SchedInv(k)
    ensures SchedInv(k.(threads := Leaving(k, code)))
  {
    LeavingKeepsHeap(k, code);
    LeavingKeys(k, code);
    hide HeapOk, NoDup, Leaving;
    forall t | t in k.threads ensures Leaving(k, code)[t].status == k.threads[t].status { LeavingThread(k, code, t); }
  }

  lemma LeavingKeepsSems(m: M, code: int)
    requires Inv(m)
    ensures SemInv(Leaving(m.k, code), m.k.sems, m.k.idle)
  {
    hide LInv, ProcInv, HistInv, Leaving;
    CurRuns(m);
    LeavingKeys(m.k, code);
    forall t | t in m.k.threads ensures SameSem(t, m.k.idle, m.k.threads[t], Leaving(m.k, code)[t]) {
      assert PcOk(m.k.sems, t, m.k.threads[t], m.k.idle);
      LeavingThread(m.k, code, t);
    }
    hide SemInv, SameSem;
    SemFrame(m.k.threads, Leaving(m.k, code), m.k.sems, m.k.idle);
  }

  lemma LeavingKeepsPids(k: K, code: int)
    requires k.cur in k.threads && PidsOk(k.threads, k.nextPid)
    ensures PidsOk(Leaving(k, code), k.nextPid)
  {
    hide HasPid;
    HasPidFrame(k.threads, Leaving(k, code), INIT_PID);
  }

  lemma LeavingParents(k: K, code: int)
    requires k.cur in k.threads && HasPid(k.threads, INIT_PID)
    requires forall t :: t in k.threads && k.threads[t].parent != NO_PARENT ==> HasPid(k.threads, k.threads[t].parent)
    ensures forall t :: t in k.threads && Leaving(k, code)[t].parent != NO_PARENT ==>
              HasPid(Leaving(k, code), Leaving(k, code)[t].parent)
  {
    hide HasPid;
    var th, th1 := k.threads, Leaving(k, code);
    HasPidFrame(th, th1, INIT_PID);
    forall u | u in th1 && th1[u].parent != NO_PARENT ensures HasPid(th1, th1[u].parent) {
      if th1[u].parent != INIT_PID { HasPidFrame(th, th1, th[u].parent); }
    }
  }

  /** Nobody has a process on its way out for a parent. */
  lemma LeavingHasNoChild(k: K, code: int, t: Tid, u: Tid)
    requires MayExit(k) && FamilyOk(k.threads) && t in k.threads && u in k.threads
    requires Leaving(k, code)[t].exiting
    ensures Leaving(k, code)[u].parent != Leaving(k, code)[t].pid
    ensures Leaving(k, code)[t].pid != INIT_PID
  {
    hide HasPid;
  }

  lemma LeavingRecord(k: K, code: int, t: Tid)
    requires k.cur in k.threads && t in k.threads
    ensures var a, b := k.threads[t], Leaving(k, code)[t];
            a.status == b.status && a.pid == b.pid && b.exiting == (a.exiting || t == k.cur) &&
            (b.parent == a.parent || b.parent == INIT_PID)
  {}

  lemma LeavingKeepsFamily(k: K, code: int)
    requires MayExit(k) && PidsOk(k.threads, k.nextPid) && FamilyOk(k.threads)
    requires k.threads[k.cur].status == RUNNING
    ensures FamilyOk(Leaving(k, code))
  {
    hide HasPid, PidsOk, Leaving;
    LeavingKeys(k, code);
    LeavingParents(k, code) by {
      hide FamilyOk;
      assert HasPid(k.threads, INIT_PID) by { InitLives(k.threads, k.nextPid); }
      ParentsLive(k.threads);
    }
    forall t | t in k.threads
      ensures var b := Leaving(k, code)[t];
              (b.status == HANGING ==> b.exiting && b.parent != NO_PARENT) &&
              (b.exiting || b.status == WAITING ==> b.pid != INIT_PID)
    {
      LeavingRecord(k, code, t);
    }
    forall t, u | t in k.threads && u in k.threads && Leaving(k, code)[t].exiting
      ensures Leaving(k, code)[u].parent != Leaving(k, code)[t].pid
    {
      LeavingHasNoChild(k, code, t, u);
    }
  }

  lemma InitLives(th: Threads, nextPid: nat)
    requires PidsOk(th, nextPid)
    ensures HasPid(th, INIT_PID)
  {}

  lemma ParentsLive(th: Threads)
    requires FamilyOk(th)
    ensures forall t :: t in th && th[t].parent != NO_PARENT ==> HasPid(th, th[t].parent)
  {
    hide HasPid;
  }

  lemma LeavingKeepsWaiters(k: K, code: int)
    requires MayExit(k) && PidsOk(k.threads, k.nextPid) && FamilyOk(k.threads) && WaitersOk(k.threads)
    requires k.threads[k.cur].status == RUNNING
    ensures WaitersOk(Leaving(k, code))
  {
    hide HasPid, HasChild;
    var th, th1 := k.threads, Leaving(k, code);
    forall u | u in th1 && th1[u].status == WAITING ensures HasChild(th1, th1[u].pid) {
      assert u != k.cur;
      HasChildFrame(th, th1, th[u].pid);
    }
  }

  lemma LeavingKeepsHistory(m: M, code: int)
    requires MayExit(m.k) && PidsOk(m.k.threads, m.k.nextPid) && HistInv(m.k.threads, m.k.nextPid, m.exits, m.reaps)
    ensures HistInv(Leaving(m.k, code), m.k.nextPid, m.exits[m.k.threads[m.k.cur].pid := code], m.reaps)
  {
    hide HasPid;
  }

  /** syscall_exit up to the end of InitAdopt. Its first ASSERT compares a 16-bit pid with -1 and so lets
      a thread without a parent, which has 65535 there, pass. */
  ghost function ExitBeginStep(m: M, code: int): (r: M)
    requires Inv(m) && MayExit(m.k)
    ensures Inv(r)
  {
    LeavingKeeps(m, code);
    m.(k := m.k.(threads := Leaving(m.k, code)), exits := m.exits[m.k.threads[m.k.cur].pid := code])
  }

  lemma LeavingKeeps(m: M, code: int)
    requires Inv(m) && MayExit(m.k)
    ensures Inv(m.(k := m.k.(threads := Leaving(m.k, code)), exits := m.exits[m.k.threads[m.k.cur].pid := code]))
  {
    CurRuns(m);
    hide SchedInv, SemInv, PidsOk, FamilyOk, WaitersOk, HistInv, MayExit, Leaving;
    LeavingKeepsLists(m.k, code);
    LeavingKeepsSems(m, code);
    LeavingKeepsPids(m.k, code);
    LeavingKeepsFamily(m.k, code);
    LeavingKeepsWaiters(m.k, code);
    LeavingKeepsHistory(m, code);
  }

  ghost predicate MayHang(k: K)
  {
    k.cur in k.threads && k.cur != k.idle && k.threads[k.cur].exiting && k.threads[k.cur].pc == Free
  }

  /** FindTargetPCB finds a parent exactly for a thread that has one; so that is when the second ASSERT of
      syscall_exit holds. The parent found is not on its way out itself. */
  lemma ParentIsFound(m: M)
    requires Inv(m) && MayHang(m.k)
    ensures var f := FindPid(m.k.all, m.k.threads, m.k.threads[m.k.cur].parent);
            (f.Some? <==> m.k.threads[m.k.cur].parent != NO_PARENT) &&
            (f.Some? ==> !m.k.threads[f.value].exiting && m.k.threads[f.value].status != HANGING && f.value != m.k.cur)
  {
    var me := m.k.threads[m.k.cur];
    if me.parent != NO_PARENT {
      assert HasPid(m.k.threads, me.parent);
      var t :| t in m.k.threads && m.k.threads[t].pid == me.parent;
      assert t in m.k.all;
    }
  }

  ghost function ParentWoken(k: K, f: Tid): K
    requires f in k.threads && (k.threads[f].status == WAITING ==> f in k.block)
  {
    if k.threads[f].status == WAITING then ThreadUnBlock(k, f) else k
  }

  ghost function Hung(k: K): K
    requires k.cur in k.threads
  {
    SetCur(k, k.threads[k.cur].(status := HANGING))
  }

  lemma WaiterIsListed(k: K, f: Tid)
    requires SchedInv(k) && f in k.threads && k.threads[f].status == WAITING
    ensures f in k.block && f != k.cur && f != k.idle
  {}

  lemma ParentWokenKeeps(m: M, f: Tid)
    requires Inv(m) && f in m.k.threads && (m.k.threads[f].status == WAITING ==> f in m.k.block)
    ensures Inv(m.(k := ParentWoken(m.k, f)))
  {
    if m.k.threads[f].status == WAITING { UnblockingKeeps(m, f); }
  }

  lemma UnblockingKeeps(m: M, f: Tid)
    requires Inv(m) && f in m.k.threads && m.k.threads[f].status == WAITING && f in m.k.block
    ensures Inv(m.(k := ThreadUnBlock(m.k, f)))
  {
    hide SemInv, ProcInv, HistInv, LInv, SameIds;
    CurRuns(m);
    var k := m.k;
    var n := k.threads[f].(status := READY);
    WaiterIsListed(k, f);
    UnBlockKeeps(k, f, {k.cur});
    SemFrameOne(k.threads, k.sems, f, n, k.idle);
    StatusKeepsProcs(k.threads, k.nextPid, f, n);
    HistFrameIds(k.threads, k.threads[f := n], k.nextPid, m.exits, m.reaps);
  }

  lemma HangingKeeps(m: M)
    requires Inv(m) && MayHang(m.k) && NoneWaits(m.k.threads, m.k.threads[m.k.cur].parent)
    requires m.k.threads[m.k.cur].parent != NO_PARENT
    ensures Schedulable(Hung(m.k)) && RestOk(Hung(m.k), m.exits, m.reaps)
  {
    hide SemInv, ProcInv, HistInv, LInv, NoneWaits, SameIds;
    CurRuns(m);
    var th := m.k.threads[m.k.cur].(status := HANGING);
    SetCurKeepsLists(m.k, th);
    SemFrameOne(m.k.threads, m.k.sems, m.k.cur, th, m.k.idle);
    StatusKeepsProcs(m.k.threads, m.k.nextPid, m.k.cur, th);
    HistFrameIds(m.k.threads, m.k.threads[m.k.cur := th], m.k.nextPid, m.exits, m.reaps);
  }

  lemma WokenParentDoesNotWait(m: M, f: Tid)
    requires Inv(m) && MayHang(m.k)
    requires f in m.k.threads && m.k.threads[f].pid == m.k.threads[m.k.cur].parent && f != m.k.cur
    requires m.k.threads[f].status == WAITING ==> f in m.k.block
    ensures var k := ParentWoken(m.k, f);
            MayHang(k) && NoneWaits(k.threads, k.threads[k.cur].parent) &&
            k.threads[k.cur].parent == m.k.threads[m.k.cur].parent
  {
    hide LInv, SemInv, HistInv, FamilyOk, WaitersOk;
  }

  /** The rest of syscall_exit; None is its second ASSERT, or a switch that does not return. */
  ghost function ExitEndStep(m: M): (r: Option<M>)
    requires Inv(m) && MayHang(m.k)
  {
    var f := FindPid(m.k.all, m.k.threads, m.k.threads[m.k.cur].parent);
    if f.None? then None
    else
      ParentIsFound(m);
      ExitEndIsOrderly(m);
      Rescheduled(m, Hung(ParentWoken(m.k, f.value)))
  }

  lemma ExitEndIsOrderly(m: M)
    requires Inv(m) && MayHang(m.k) && m.k.threads[m.k.cur].parent != NO_PARENT
    ensures var f := FindPid(m.k.all, m.k.threads, m.k.threads[m.k.cur].parent);
            f.Some? && (m.k.threads[f.value].status == WAITING ==> f.value in m.k.block) &&
            var k := ParentWoken(m.k, f.value);
            k.cur in k.threads && Schedulable(Hung(k)) && RestOk(Hung(k), m.exits, m.reaps)
  {
    ParentIsFound(m);
    var f := FindPid(m.k.all, m.k.threads, m.k.threads[m.k.cur].parent).value;
    if m.k.threads[f].status == WAITING { WaiterIsListed(m.k, f); }
    hide Inv, Schedulable, RestOk, Hung, ParentWoken;
    ParentWokenKeeps(m, f);
    WokenParentDoesNotWait(m, f);
    HangingKeeps(m.(k := ParentWoken(m.k, f)));
  }

  lemma ExitEndKeeps(m: M)
    requires Inv(m) && MayHang(m.k) && ExitEndStep(m).Some?
    ensures Inv(ExitEndStep(m).value)
  {
    ParentIsFound(m);
    ExitEndIsOrderly(m);
    var f := FindPid(m.k.all, m.k.threads, m.k.threads[m.k.cur].parent).value;
    hide Inv, Schedulable, RestOk, Hung, ParentWoken;
    ReschedulingKeeps(m, Hung(ParentWoken(m.k, f)));
  }
}
