/** What each operation of the thread machine does to every thread and list (kernel/thread.c,
    userprog/wait_exit.c, userprog/fork.c, lib/user/syscallFun.c), and that an exit reaches a waiting
    parent. */
module Effects {
  import opened Basics
  import opened Lists
  import opened MinHeap
  import opened Sched
  import opened Switching
  import opened Machine
  import opened Semaphore
  import opened Process
  import opened Dying

  /** The operation has made `k1` of the state and then calls schedule(), which passes the processor on or
      does not return. */
  ghost predicate PassesOn(m: M, k1: K, r: Option<M>)
  {
    Schedulable(k1) && (r.Some? <==> Schedule(k1).Some?) &&
    (r.Some? ==> r.value == m.(k := r.value.k) && SwitchedTo(k1, r.value.k))
  }

  lemma ReschedulingPassesOn(m: M, k1: K)
    requires Schedulable(k1)
    ensures PassesOn(m, k1, Rescheduled(m, k1))
  {
    hide Schedulable, Schedule, SwitchedTo;
    if Schedule(k1).Some? { ScheduleIs(k1); }
  }

  /** What becomes of a thread that parks itself or goes to sleep, and of one that does nothing. */
  lemma AfterSwitch(k: K, k': K, t: Tid)
    requires Schedulable(k) && SwitchedTo(k, k') && t in k.threads && k.idle != t
    ensures t in k'.threads
    ensures k'.threads[t] == k.threads[t].(status := k'.threads[t].status, ticks := k'.threads[t].ticks)
    ensures Parked(k.threads[t].status) ==> k'.threads[t] == k.threads[t]
    ensures Parked(k.threads[t].status) && (t == k.cur || t in k.block) ==> t in k'.block
    ensures k.threads[t].status == DELAYED && k.threads[t].deadline > k.now ==> k'.threads[t] == k.threads[t]
  {
    var k1: K, w: seq<Tid> :| PutAside(k, k1) && HandedOn(k1, k', w);
    FirstOfLine(k, k1);
    AsideIs(k, k1, t);
    hide Schedulable, PutAside, Line;
    if Parked(k.threads[t].status) || (k.threads[t].status == DELAYED && k.threads[t].deadline > k.now) {
      NotWoken(k1, w, t);
    }
    hide WakesAll;
  }

  lemma AsideIs(k: K, k1: K, t: Tid)
    requires PutAside(k, k1) && t in k.threads
    ensures t in k1.threads && k1.idle == k.idle && k1.now == k.now
    ensures k1.threads[t] == k.threads[t].(status := k1.threads[t].status, ticks := k1.threads[t].ticks)
    ensures Parked(k.threads[t].status) || k.threads[t].status == DELAYED ==> k1.threads[t] == k.threads[t]
    ensures Parked(k.threads[t].status) && (t == k.cur || t in k.block) ==> t in k1.block
  {
    hide Nodes;
  }

  lemma FirstOfLine(k: K, k1: K)
    requires Schedulable(k) && PutAside(k, k1)
    ensures Line(k1)[0] == k1.idle || (Line(k1)[0] in k1.threads && k1.threads[Line(k1)[0]].status == READY)
  {
    hide HeapOk, NoDup, Nodes;
    if k.ready != [] { assert k.ready[0] in k.ready; }
  }

  /** If the running thread leaves and somebody is ready, the first of them runs next. */
  lemma FirstRunsNext(k: K, k': K)
    requires Schedulable(k) && SwitchedTo(k, k') && k.ready != [] && k.threads[k.cur].status != READY
    ensures k'.cur == k.ready[0] && k.ready[1..] <= k'.ready
    ensures k'.cur in k.threads && k'.cur in k'.threads
    ensures k'.threads[k'.cur] == k.threads[k'.cur].(status := RUNNING)
  {
    var k1: K, w: seq<Tid> :| PutAside(k, k1) && HandedOn(k1, k', w);
    ReadyIsNotCur(k);
    hide Schedulable, WakesAll, NoDup, Nodes;
    AsideReady(k, k1);
    hide PutAside;
  }

  lemma ReadyIsNotCur(k: K)
    requires Schedulable(k) && k.ready != [] && k.threads[k.cur].status != READY
    ensures k.ready[0] in k.threads && k.ready[0] != k.cur
  {
    hide HeapOk, NoDup;
    assert k.ready[0] in k.ready;
  }

  lemma AsideReady(k: K, k1: K)
    requires PutAside(k, k1) && k.ready != [] && k.ready[0] in k.threads && k.ready[0] != k.cur
    ensures k1.ready != [] && k1.ready[0] == k.ready[0] && k.ready[1..] <= k1.ready[1..]
    ensures k.ready[0] in k1.threads && k1.threads[k.ready[0]] == k.threads[k.ready[0]]
  {
    hide Nodes;
  }

  // ---------- The timer, yield, sleep ----------

  lemma TickEffect(m: M)
    requires Inv(m)
    ensures m.k.cur in m.k.threads
    ensures var k, me := m.k.(now := (m.k.now + 1) % 0x1_0000_0000), m.k.threads[m.k.cur];
            if me.ticks == 0 then PassesOn(m, k, TickStep(m))
            else TickStep(m) == Some(m.(k := k.(threads := k.threads[k.cur := me.(ticks := me.ticks - 1)])))
  {
    var k := m.k.(now := Wrap(m.k.now + 1));
    CurRuns(m);
    TickIs(m, k);
    hide Inv, Schedulable, Schedule, SwitchedTo, TickStep;
    if k.threads[k.cur].ticks == 0 { ReschedulingPassesOn(m, k); }
  }

  lemma YieldEffect(m: M)
    requires Inv(m) && m.k.cur != m.k.idle
    ensures m.k.cur in m.k.threads
    ensures var th := m.k.threads;
            PassesOn(m, m.k.(threads := th[m.k.cur := th[m.k.cur].(status := READY)], ready := m.k.ready + [m.k.cur]),
                     YieldStep(m))
  {
    hide Inv, Schedulable, RestOk, Schedule, SwitchedTo;
    CurRuns(m);
    YieldingKeeps(m);
    ReschedulingPassesOn(m, Yielding(m.k));
  }

  lemma IdleBlockEffect(m: M)
    requires Inv(m) && m.k.cur == m.k.idle
    ensures m.k.cur in m.k.threads
    ensures var th := m.k.threads;
            PassesOn(m, m.k.(threads := th[m.k.cur := th[m.k.cur].(status := BLOCKED)]), IdleBlockStep(m))
  {
    hide Inv, Schedulable, LInv, Unnoticed, Schedule, SwitchedTo;
    CurRuns(m);
    var th := m.k.threads[m.k.cur].(status := BLOCKED);
    Gentle(m, th);
    MoveAndSchedule(m, th, m.k.now);
    ReschedulingPassesOn(m, Moved(m.k, th, m.k.now));
  }

  /** The deadline is exactly the sum, modulo 2^32; unless it has come already the thread then sleeps. */
  lemma SleepEffect(m: M, ms: nat)
    requires Inv(m) && m.k.cur != m.k.idle
    ensures m.k.cur in m.k.threads
    ensures var th, d := m.k.threads, (m.k.now + ms) % 0x1_0000_0000;
            PassesOn(m, m.k.(threads := th[m.k.cur := th[m.k.cur].(status := DELAYED, deadline := d)]),
                     SleepStep(m, ms)) &&
            (SleepStep(m, ms).Some? ==>
               var k' := SleepStep(m, ms).value.k;
               m.k.cur in k'.threads && k'.threads[m.k.cur].deadline == d &&
               (d > m.k.now ==> k'.threads[m.k.cur].status == DELAYED))
  {
    hide Inv, Schedulable, LInv, Unnoticed, Schedule, SwitchedTo;
    CurRuns(m);
    var d := (m.k.now + ms) % 0x1_0000_0000;
    assert Wrap(ms + m.k.now) == d;
    var th := m.k.threads[m.k.cur].(status := DELAYED, deadline := d);
    Gentle(m, th);
    MoveAndSchedule(m, th, m.k.now);
    ReschedulingPassesOn(m, Moved(m.k, th, m.k.now));
    if SleepStep(m, ms).Some? { AfterSwitch(Moved(m.k, th, m.k.now), SleepStep(m, ms).value.k, m.k.cur); }
  }

  // ---------- New threads ----------

  /** A pid that nobody has had: not among the living, nor among those that have exited or been reaped. */
  lemma PidsAreNew(m: M)
    requires Inv(m)
    ensures m.k.nextPid + 1 !in m.exits && forall u :: u in m.k.threads ==> m.k.threads[u].pid != m.k.nextPid + 1
  {}

  /** A kernel thread has no parent and a full time slice; it is last on both lists. */
  lemma CreateEffect(m: M, t: Tid, priority: nat)
    requires Inv(m) && t !in m.k.threads && m.k.nextPid + 1 < NO_PARENT
    ensures var p, k' := m.k.nextPid + 1, CreateStep(m, t, priority).k;
            CreateStep(m, t, priority) == m.(k := k') && t in k'.threads &&
            k'.threads[t] == Thread(p, 65535, READY, priority, priority, 0, 0, false, Free) &&
            p !in m.exits && (forall u :: u in m.k.threads ==> m.k.threads[u].pid != p) &&
            k' == m.k.(threads := m.k.threads[t := k'.threads[t]], ready := m.k.ready + [t], all := m.k.all + [t],
                       nextPid := p)
  {
    PidsAreNew(m);
    hide Inv;
    CreateIs(m, t, priority);
    hide CreateStep;
  }

  lemma CreateIs(m: M, t: Tid, priority: nat)
    requires Inv(m) && t !in m.k.threads && m.k.nextPid + 1 < NO_PARENT
    ensures CreateStep(m, t, priority) ==
              m.(k := Added(m.k, t, Thread(m.k.nextPid + 1, NO_PARENT, READY, priority, priority, 0, 0, false, Free)))
  {
    hide Inv, Added;
  }

  /** The child is the forker's, with a new pid, its priority and a full time slice; it is last on both
      lists, and nothing else has changed. */
  lemma ForkEffect(m: M, t: Tid)
    requires Inv(m) && t !in m.k.threads && m.k.nextPid + 1 < NO_PARENT && !m.k.threads[m.k.cur].exiting
    ensures m.k.cur in m.k.threads
    ensures var me, k' := m.k.threads[m.k.cur], ForkStep(m, t).k;
            ForkStep(m, t) == m.(k := k') && t in k'.threads &&
            var child := k'.threads[t];
            child.parent == me.pid && child.pid == m.k.nextPid + 1 && child.status == READY &&
            child.priority == me.priority && child.ticks == me.priority && !child.exiting && child.pc == Free &&
            child.pid !in m.exits && (forall u :: u in m.k.threads ==> m.k.threads[u].pid != child.pid) &&
            k' == m.k.(threads := m.k.threads[t := child], ready := m.k.ready + [t], all := m.k.all + [t],
                       nextPid := m.k.nextPid + 1)
  {
    CurRuns(m);
    PidsAreNew(m);
    hide Inv;
  }

  // ---------- Semaphores ----------

  lemma DownEffect(m: M, s: SemId)
    requires Inv(m) && MayTry(m.k, s)
    ensures var th, me, sem := m.k.threads, m.k.threads[m.k.cur], m.k.sems[s];
            if sem.value == 0 then
              PassesOn(m, m.k.(threads := th[m.k.cur := me.(status := BLOCKED, pc := InDec(s))],
                               sems := m.k.sems[s := sem.(wait := sem.wait + [m.k.cur])]), DownStep(m, s))
            else if sem.isMutex then
              DownStep(m, s) ==
                Some(m.(k := m.k.(threads := th[m.k.cur := me.(pc := Acquired(s))],
                                  sems := m.k.sems[s := sem.(value := sem.value - 1,
                                                             owners := sem.owners + {m.k.cur})])))
            else
              DownStep(m, s) == Some(m.(k := m.k.(threads := th[m.k.cur := me.(pc := Free)],
                                                  sems := m.k.sems[s := sem.(value := sem.value - 1)])))
  {
    hide Inv, RestOk, Schedulable, Schedule, SwitchedTo;
    if m.k.sems[s].value == 0 {
      EnqueuingKeeps(m, s);
      ReschedulingPassesOn(m, Enqueued(m.k, s));
    }
  }

  lemma SetHolderEffect(m: M)
    requires Inv(m) && m.k.threads[m.k.cur].pc.Acquired?
    ensures m.k.cur in m.k.threads && m.k.threads[m.k.cur].pc.s in m.k.sems
    ensures var me := m.k.threads[m.k.cur];
            SetHolderStep(m) ==
              m.(k := m.k.(threads := m.k.threads[m.k.cur := me.(pc := Free)],
                           sems := m.k.sems[me.pc.s := m.k.sems[me.pc.s].(holder := Some(m.k.cur))]))
  {
    CurPc(m);
    hide Inv;
  }

  lemma ClearHolderEffect(m: M, s: SemId)
    requires Inv(m) && m.k.cur != m.k.idle && m.k.threads[m.k.cur].pc == Free
    requires s in m.k.sems && m.k.sems[s].isMutex && m.k.cur in m.k.sems[s].owners
    ensures m.k.cur in m.k.threads
    ensures ClearHolderStep(m, s) ==
              m.(k := m.k.(threads := m.k.threads[m.k.cur := m.k.threads[m.k.cur].(pc := Releasing(s))],
                           sems := m.k.sems[s := m.k.sems[s].(holder := None)]))
  {
    CurPc(m);
    hide Inv;
  }

  /** A thread that waits is taken from the queue and stands in front of all that are ready; in any case
      the value goes up by one, and who releases a mutex no longer owns it. */
  lemma UpEffect(m: M, s: SemId)
    requires Inv(m) && MayRaise(m.k, s)
    ensures UpStep(m, s).Some? <==> m.k.sems[s].value < 255
    ensures UpStep(m, s).Some? ==>
              var th, sem, k' := m.k.threads, m.k.sems[s], UpStep(m, s).value.k;
              var me := if sem.isMutex then th[m.k.cur].(pc := Free) else th[m.k.cur];
              var owners := if sem.isMutex then sem.owners - {m.k.cur} else sem.owners;
              UpStep(m, s).value == m.(k := k') &&
              if sem.wait == [] then
                k' == m.k.(threads := th[m.k.cur := me],
                           sems := m.k.sems[s := sem.(value := sem.value + 1, owners := owners)])
              else
                var t := sem.wait[0];
                t in th && t != m.k.cur &&
                k' == m.k.(threads := th[t := th[t].(status := READY)][m.k.cur := me], ready := [t] + m.k.ready,
                           block := k'.block,
                           sems := m.k.sems[s := sem.(value := sem.value + 1, wait := sem.wait[1..],
                                                      owners := owners)]) &&
                forall u :: u in k'.block <==> u in m.k.block && u != t
  {
    hide Inv;
    if m.k.sems[s].wait != [] {
      WaiterIsBlocked(m, s);
      BlockedOnce(m);
      UnlinkTakesOne(m.k.block, m.k.sems[s].wait[0]);
    }
    hide Unlink, NoDup;
  }

  lemma BlockedOnce(m: M)
    requires Inv(m)
    ensures NoDup(m.k.block) && NoDup(m.k.all)
  {}

  // ---------- Wait ----------

  ghost predicate HangsFor(th: Threads, t: Tid, p: nat)
  {
    t in th && th[t].parent == p && th[t].status == HANGING
  }

  /** The first hanging child of pid `p` stands at `i`. */
  ghost predicate FirstAt(all: seq<Tid>, th: Threads, p: nat, i: nat)
  {
    i < |all| && HangsFor(th, all[i], p) && forall j :: 0 <= j < i ==> !HangsFor(th, all[j], p)
  }

  lemma {:induction false} FoundIsFirst(all: seq<Tid>, th: Threads, p: nat, i: nat)
    requires FirstAt(all, th, p, i)
    ensures FindHanging(all, th, p) == Some(all[i])
  {
    if i > 0 {
      assert !HangsFor(th, all[0], p);
      assert forall j :: 0 <= j < i - 1 ==> all[1..][j] == all[j + 1];
      FoundIsFirst(all[1..], th, p, i - 1);
    }
  }

  lemma {:induction false} FirstExists(all: seq<Tid>, th: Threads, p: nat)
    ensures (exists t :: t in all && HangsFor(th, t, p)) ==> exists i: nat :: FirstAt(all, th, p, i)
    ensures (exists t :: t in all && HangsFor(th, t, p)) <==> FindHanging(all, th, p).Some?
  {
    if all != [] {
      FirstExists(all[1..], th, p);
      if HangsFor(th, all[0], p) {
        assert FirstAt(all, th, p, 0);
      } else if i: nat :| FirstAt(all[1..], th, p, i) {
        assert all[1..][i] == all[i + 1];
        assert FirstAt(all, th, p, i + 1);
      }
    }
  }

  lemma ListedAll(m: M)
    requires Inv(m)
    ensures NoDup(m.k.all) && NoDup(m.k.block) && forall t :: t in m.k.all <==> t in m.k.threads
  {}

  /** The thread at `i` of the list of all threads has been reaped: it alone is gone, its pid and status are
      handed over, and the running thread goes on. */
  ghost predicate ReapedAt(k: K, k': K, i: nat, got: Reaped)
  {
    k.cur in k.threads && i < |k.all| && k.all[i] in k.threads && k.all[i] != k.cur &&
    var c := k.all[i];
    got == Reaped(k.threads[c].pid, k.threads[c].code) &&
    k' == k.(threads := k.threads[k.cur := k.threads[k.cur].(pc := Free)] - {c},
             all := k.all[..i] + k.all[i + 1..], block := k'.block) &&
    forall t :: t in k'.block <==> t in k.block && t != c
  }

  /** If a child hangs, the first one in the list of all threads is reaped. */
  lemma WaitReaps(m: M, i: nat)
    requires Inv(m) && MayWait(m.k) && FirstAt(m.k.all, m.k.threads, m.k.threads[m.k.cur].pid, i)
    ensures WaitStep(m).Some?
    ensures var c, r := m.k.threads[m.k.all[i]], WaitStep(m).value;
            r == m.(k := r.k, reaps := m.reaps + [Reaped(c.pid, c.code)]) &&
            ReapedAt(m.k, r.k, i, Reaped(c.pid, c.code))
  {
    var c := m.k.all[i];
    FoundIsFirst(m.k.all, m.k.threads, m.k.threads[m.k.cur].pid, i);
    CurRuns(m);
    ListedAll(m);
    ZombieIsListed(m.k, c);
    UnlinkAt(m.k.all, i);
    UnlinkTakesOne(m.k.block, c);
    hide Inv, FindHanging, Unlink, NoDup;
  }

  /** With children of which none hangs the thread is left waiting. */
  lemma WaitBlocks(m: M)
    requires Inv(m) && MayWait(m.k)
    requires var p := m.k.threads[m.k.cur].pid;
             HasChild(m.k.threads, p) && forall t :: t in m.k.threads ==> !HangsFor(m.k.threads, t, p)
    ensures var th := m.k.threads;
            PassesOn(m, m.k.(threads := th[m.k.cur := th[m.k.cur].(status := WAITING, pc := InWait)]), WaitStep(m))
    ensures WaitStep(m).Some? ==>
              var k' := WaitStep(m).value.k;
              m.k.cur in k'.block && m.k.cur in k'.threads && k'.threads[m.k.cur].status == WAITING
  {
    ListedAll(m);
    FirstExists(m.k.all, m.k.threads, m.k.threads[m.k.cur].pid);
    hide Inv, RestOk, Schedulable, Schedule, SwitchedTo, FindHanging, HasChild, Parked;
    WaitingKeeps(m);
    var k1 := SetCur(m.k, m.k.threads[m.k.cur].(status := WAITING, pc := InWait));
    ReschedulingPassesOn(m, k1);
    if WaitStep(m).Some? { ParksItself(k1, WaitStep(m).value.k); }
  }

  lemma ParksItself(k: K, k': K)
    requires Schedulable(k) && SwitchedTo(k, k') && k.cur != k.idle && Parked(k.threads[k.cur].status)
    ensures k.cur in k'.block && k.cur in k'.threads && k'.threads[k.cur] == k.threads[k.cur]
  {
    AfterSwitch(k, k', k.cur);
  }

  /** With no child at all it goes on as it was. */
  lemma WaitIsOver(m: M)
    requires Inv(m) && MayWait(m.k) && !HasChild(m.k.threads, m.k.threads[m.k.cur].pid)
    ensures WaitStep(m) == Some(m.(k := m.k.(threads := m.k.threads[m.k.cur := m.k.threads[m.k.cur].(pc := Free)])))
  {
    FirstExists(m.k.all, m.k.threads, m.k.threads[m.k.cur].pid);
    NoChildHangs(m.k.threads, m.k.threads[m.k.cur].pid);
    hide Inv, FindHanging, HasChild;
  }

  /** So a child comes back if one hangs. */
  lemma HangingIsReaped(m: M, t: Tid)
    requires Inv(m) && MayWait(m.k) && HangsFor(m.k.threads, t, m.k.threads[m.k.cur].pid)
    ensures WaitStep(m).Some? && |WaitStep(m).value.reaps| == |m.reaps| + 1
    ensures var th, p, r := m.k.threads, m.k.threads[m.k.cur].pid, WaitStep(m).value;
            exists i: nat :: FirstAt(m.k.all, th, p, i) && ReapedAt(m.k, r.k, i, r.reaps[|m.reaps|])
  {
    var th, p := m.k.threads, m.k.threads[m.k.cur].pid;
    CurRuns(m);
    ListedAll(m);
    FirstExists(m.k.all, th, p);
    hide Inv, WaitStep, FindHanging, ReapedAt, FirstAt, NoDup;
    var i: nat :| FirstAt(m.k.all, th, p, i);
    FirstIsThread(m.k.all, th, p, i);
    WaitReaps(m, i);
    assert ReapedAt(m.k, WaitStep(m).value.k, i, WaitStep(m).value.reaps[|m.reaps|]);
  }

  lemma FirstIsThread(all: seq<Tid>, th: Threads, p: nat, i: nat)
    requires FirstAt(all, th, p, i)
    ensures i < |all| && all[i] in th
  {}

  lemma WaitReapsNobody(m: M)
    requires Inv(m) && MayWait(m.k) && WaitStep(m).Some?
    requires forall t :: !HangsFor(m.k.threads, t, m.k.threads[m.k.cur].pid)
    ensures WaitStep(m).value.reaps == m.reaps
  {
    FirstExists(m.k.all, m.k.threads, m.k.threads[m.k.cur].pid);
    hide Inv, HasChild, Schedule, Schedulable, FindHanging;
  }

  lemma NoChildHangs(th: Threads, p: nat)
    requires !HasChild(th, p)
    ensures forall t :: !HangsFor(th, t, p)
  {}

  // ---------- Exit ----------

  /** The children become init's, the status is stored in 8 bits, and nothing else changes. */
  lemma ExitBeginEffect(m: M, code: int)
    requires Inv(m) && MayExit(m.k)
    ensures var me, r := m.k.threads[m.k.cur], ExitBeginStep(m, code);
            r == m.(k := m.k.(threads := r.k.threads), exits := m.exits[me.pid := code]) &&
            r.k.threads.Keys == m.k.threads.Keys &&
            (forall t :: t in m.k.threads ==>
               var th := m.k.threads[t];
               r.k.threads[t] ==
                 th.(parent := if th.parent == me.pid then 1 else th.parent,
                     exiting := th.exiting || t == m.k.cur, code := r.k.threads[t].code)) &&
            (forall t :: t in m.k.threads && t != m.k.cur ==> r.k.threads[t].code == m.k.threads[t].code) &&
            -128 <= r.k.threads[m.k.cur].code <= 127 && (r.k.threads[m.k.cur].code - code) % 256 == 0
  {
    hide Inv;
  }

  lemma ParentIs(m: M, f: Tid)
    requires Inv(m) && MayHang(m.k) && f in m.k.threads && m.k.threads[f].pid == m.k.threads[m.k.cur].parent
    ensures FindPid(m.k.all, m.k.threads, m.k.threads[m.k.cur].parent) == Some(f) && f != m.k.cur
    ensures m.k.threads[f].status == WAITING ==> f in m.k.block
    ensures m.k.threads[m.k.cur].parent != NO_PARENT
  {
    ListedAll(m);
    ParentIsFound(m);
    PidsDiffer(m);
    if m.k.threads[f].status == WAITING { WaiterIsListed(m.k, f); }
    hide Inv;
  }

  lemma PidsDiffer(m: M)
    requires Inv(m)
    ensures forall t, u :: t in m.k.threads && u in m.k.threads && m.k.threads[t].pid == m.k.threads[u].pid ==> t == u
    ensures forall t :: t in m.k.threads ==> m.k.threads[t].pid < NO_PARENT
  {}

  /** The state in which syscall_exit calls schedule(): the thread hangs, and if its parent `f` was waiting
      it stands in front of all that are ready. */
  ghost function LeftHanging(k: K, f: Tid): K
    requires k.cur in k.threads && f in k.threads && (k.threads[f].status == WAITING ==> f in k.block)
  {
    var th := k.threads[k.cur := k.threads[k.cur].(status := HANGING)];
    if k.threads[f].status == WAITING
    then k.(threads := th[f := th[f].(status := READY)], ready := [f] + k.ready, block := Unlink(k.block, f))
    else k.(threads := th)
  }

  /** It is left hanging, for its parent `f` to find; if that was waiting it now runs. */
  ghost predicate LeftFor(k: K, k': K, f: Tid)
    requires k.cur in k.threads && f in k.threads
  {
    k.cur in k'.threads && k'.threads[k.cur] == k.threads[k.cur].(status := HANGING) && k.cur in k'.block &&
    (k.threads[f].status == WAITING ==>
       k'.cur == f && f in k'.threads && k'.threads[f] == k.threads[f].(status := RUNNING))
  }

  /** The rest of syscall_exit: who exits is left hanging, and a parent that waits runs next. */
  lemma ExitEndEffect(m: M, f: Tid)
    requires Inv(m) && MayHang(m.k) && f in m.k.threads && m.k.threads[f].pid == m.k.threads[m.k.cur].parent
    ensures m.k.threads[f].status == WAITING ==> f in m.k.block
    ensures PassesOn(m, LeftHanging(m.k, f), ExitEndStep(m))
    ensures ExitEndStep(m).Some? ==> LeftFor(m.k, ExitEndStep(m).value.k, f)
  {
    ParentIs(m, f);
    ExitEndIsOrderly(m);
    CurRuns(m);
    var k1 := LeftHanging(m.k, f);
    HungIs(m.k, f);
    LeftHangingIs(m.k, f);
    hide Inv, RestOk, Schedulable, Schedule, SwitchedTo, FindPid, Hung, ParentWoken, LeftHanging, Parked;
    ReschedulingPassesOn(m, k1);
    if ExitEndStep(m).Some? {
      ParksItself(k1, ExitEndStep(m).value.k);
      if m.k.threads[f].status == WAITING { FirstRunsNext(k1, ExitEndStep(m).value.k); }
    }
  }

  lemma LeftHangingIs(k: K, f: Tid)
    requires k.cur in k.threads && f in k.threads && f != k.cur && (k.threads[f].status == WAITING ==> f in k.block)
    ensures var k1 := LeftHanging(k, f);
            k1.cur == k.cur && k1.idle == k.idle && k1.cur in k1.threads && Parked(k1.threads[k1.cur].status) &&
            k1.threads[k.cur] == k.threads[k.cur].(status := HANGING) &&
            (k.threads[f].status == WAITING ==>
               k1.ready != [] && k1.ready[0] == f && f in k1.threads && k1.threads[f] == k.threads[f].(status := READY))
  {
    hide Unlink;
  }

  lemma HungIs(k: K, f: Tid)
    requires k.cur in k.threads && f in k.threads && f != k.cur && (k.threads[f].status == WAITING ==> f in k.block)
    ensures k.cur in ParentWoken(k, f).threads && Hung(ParentWoken(k, f)) == LeftHanging(k, f)
  {
    hide Unlink;
    var hung := k.threads[k.cur].(status := HANGING);
    if k.threads[f].status == WAITING {
      var ready := k.threads[f].(status := READY);
      assert k.threads[f := ready][k.cur := hung] == k.threads[k.cur := hung][f := ready];
    }
  }

  lemma ExitNeedsParent(m: M)
    requires Inv(m) && MayHang(m.k) && ExitEndStep(m).Some?
    ensures exists f :: f in m.k.threads && m.k.threads[f].pid == m.k.threads[m.k.cur].parent
  {
    hide Inv, Schedulable, Schedule;
    assert FindPid(m.k.all, m.k.threads, m.k.threads[m.k.cur].parent).Some?;
  }

  /** The second ASSERT fails for a thread whose parent is not there. */
  lemma ExitWithoutParent(m: M)
    requires Inv(m) && MayHang(m.k)
    requires forall f :: f in m.k.threads ==> m.k.threads[f].pid != m.k.threads[m.k.cur].parent
    ensures ExitEndStep(m) == None
  {
    hide Inv;
  }

  // ---------- An exit reaches the parent that waits ----------

  /** A switch keeps who hangs, whose child each thread is, and the list of all threads. */
  lemma SwitchKeepsHanging(k: K, p: nat)
    requires Schedulable(k) && Schedule(k).Some?
    ensures var k' := Schedule(k).value;
            k'.all == k.all && k'.threads.Keys == k.threads.Keys &&
            (forall t :: HangsFor(k'.threads, t, p) <==> HangsFor(k.threads, t, p)) &&
            forall t :: t in k.threads ==>
              k'.threads[t] == k.threads[t].(status := k'.threads[t].status, ticks := k'.threads[t].ticks)
  {
    ScheduleIsCalm(k);
    IdleNeverHangs(k, {});
    IdleNeverHangs(k, {k.cur});
    IdleNeverHangs(Schedule(k).value, {Schedule(k).value.cur});
    hide Schedule, LInv, CalmThread, HangsFor;
    forall t | t in k.threads
      ensures var a, b := k.threads[t], Schedule(k).value.threads[t];
              b == a.(status := b.status, ticks := b.ticks) && (b.status == HANGING <==> a.status == HANGING)
    {
      CalmKeepsHanging(k, t, k.threads[t], Schedule(k).value.threads[t]);
    }
    forall t ensures HangsFor(Schedule(k).value.threads, t, p) <==> HangsFor(k.threads, t, p) {
      HangsIf(k.threads, Schedule(k).value.threads, t, p);
    }
  }

  lemma CalmKeepsHanging(k: K, t: Tid, th: Thread, th': Thread)
    requires CalmThread(k, t, th, th') && (t == k.idle ==> th.status != HANGING && th'.status != HANGING)
    ensures th' == th.(status := th'.status, ticks := th'.ticks) && (th'.status == HANGING <==> th.status == HANGING)
  {}

  lemma HangsIf(th: Threads, th': Threads, t: Tid, p: nat)
    requires th'.Keys == th.Keys
    requires t in th ==> th'[t].parent == th[t].parent && (th'[t].status == HANGING <==> th[t].status == HANGING)
    ensures HangsFor(th', t, p) <==> HangsFor(th, t, p)
  {}

  lemma IdleNeverHangs(k: K, off: set<Tid>)
    ensures LInv(k, off) ==> k.idle in k.threads && k.threads[k.idle].status != HANGING
  {}

  lemma WaitedForDoNotHang(m: M, f: Tid)
    requires Inv(m) && f in m.k.threads && m.k.threads[f].status == WAITING
    ensures forall t :: !HangsFor(m.k.threads, t, m.k.threads[f].pid)
    ensures m.k.threads[f].pc == InWait && m.k.threads[f].pid != INIT_PID && f != m.k.idle
  {
    assert PcOk(m.k.sems, f, m.k.threads[f], m.k.idle);
  }

  lemma HungHangs(k: K, f: Tid, p: nat)
    requires k.cur in k.threads && f in k.threads && f != k.cur && k.threads[f].status == WAITING && f in k.block
    requires k.threads[k.cur].parent == p && forall t :: !HangsFor(k.threads, t, p)
    ensures k.cur in ParentWoken(k, f).threads
    ensures var k1 := Hung(ParentWoken(k, f));
            (forall t :: HangsFor(k1.threads, t, p) <==> t == k.cur) && k1.idle == k.idle && f in k1.threads &&
            k1.threads[f] == k.threads[f].(status := READY)
  {
    hide Unlink;
    HungIs(k, f);
    LeftHangingIs(k, f);
    hide Hung, ParentWoken;
    var k1 := Hung(ParentWoken(k, f));
    forall t ensures HangsFor(k1.threads, t, p) <==> t == k.cur { assert !HangsFor(k.threads, t, p); }
  }

  lemma OnlyOneHangs(m: M, f: Tid)
    requires Inv(m) && MayHang(m.k) && f in m.k.threads && m.k.threads[f].pid == m.k.threads[m.k.cur].parent
    requires m.k.threads[f].status == WAITING && ExitEndStep(m).Some?
    ensures var k' := ExitEndStep(m).value.k;
            (forall t :: HangsFor(k'.threads, t, m.k.threads[f].pid) <==> t == m.k.cur) && k'.idle == m.k.idle &&
            f in k'.threads &&
            k'.threads[f] == m.k.threads[f].(status := k'.threads[f].status, ticks := k'.threads[f].ticks)
  {
    ParentIs(m, f);
    ExitEndIsOrderly(m);
    CurRuns(m);
    WaitedForDoNotHang(m, f);
    var p := m.k.threads[f].pid;
    HungHangs(m.k, f, p);
    hide Inv, RestOk, Schedulable, Schedule, FindPid, Hung, ParentWoken, HangsFor;
    SwitchKeepsHanging(Hung(ParentWoken(m.k, f)), p);
    SameIdle(Hung(ParentWoken(m.k, f)));
  }

  lemma SameIdle(k: K)
    requires Schedulable(k) && Schedule(k).Some?
    ensures Schedule(k).value.idle == k.idle
  {
    hide Schedule, Schedulable;
    ScheduleIsCalm(k);
  }

  lemma RecordedExit(m: M, t: Tid)
    requires Inv(m) && t in m.k.threads && m.k.threads[t].exiting
    ensures m.k.threads[t].pid in m.exits && m.k.threads[t].code == Int8(m.exits[m.k.threads[t].pid])
  {}

  /** When a process has exited whose parent waits, the parent runs next, and what it then finds is that
      process: it gets its pid and the status given to syscall_exit, cut to 8 bits. */
  lemma ExitReachesWaiter(m: M, f: Tid)
    requires Inv(m) && MayHang(m.k) && f in m.k.threads && m.k.threads[f].pid == m.k.threads[m.k.cur].parent
    requires m.k.threads[f].status == WAITING && ExitEndStep(m).Some?
    ensures var r, me := ExitEndStep(m).value, m.k.threads[m.k.cur];
            Inv(r) && r.k.cur == f && MayWait(r.k) && WaitStep(r).Some? && me.pid in m.exits &&
            WaitStep(r).value.reaps == m.reaps + [Reaped(me.pid, Int8(m.exits[me.pid]))] &&
            m.k.cur !in WaitStep(r).value.k.threads && WaitStep(r).value.k.cur == f
  {
    ParentIs(m, f);
    ParentIsFound(m);
    WaitedForDoNotHang(m, f);
    RecordedExit(m, m.k.cur);
    ExitEndEffect(m, f);
    OnlyOneHangs(m, f);
    ExitEndKeeps(m);
    var r := ExitEndStep(m).value;
    ListedAll(r);
    hide Inv, ExitEndStep, WaitStep, PassesOn, FindPid, Unlink, NoDup;
    assert HangsFor(r.k.threads, m.k.cur, m.k.threads[f].pid);
    var i: nat :| i < |r.k.all| && r.k.all[i] == m.k.cur;
    assert r.k.threads[r.k.cur].pid == m.k.threads[f].pid;
    OnlyIsFirst(r.k.all, r.k.threads, m.k.threads[f].pid, i, m.k.cur);
    WaitReaps(r, i);
  }

  lemma OnlyIsFirst(all: seq<Tid>, th: Threads, p: nat, i: nat, c: Tid)
    requires NoDup(all) && i < |all| && all[i] == c && forall t :: HangsFor(th, t, p) <==> t == c
    ensures FirstAt(all, th, p, i)
  {}

  // ---------- ThreadExit of the running thread ----------

  /** The state in which ThreadExit calls schedule(): the thread is in no list. */
  ghost function LeftForGood(k: K): K
    requires k.cur in k.all
  {
    k.(threads := k.threads - {k.cur}, all := Unlink(k.all, k.cur), cur := k.idle)
  }

  /** The thread is gone, and the processor passes on if every MinHeapPop returns. */
  lemma DieEffect(m: M)
    requires Inv(m) && MayDie(m.k)
    ensures m.k.cur in m.k.all && |m.k.heap| >= 1 && (DieStep(m).Some? <==> PopsReturn(m.k.heap, m.k.now))
    ensures DieStep(m).Some? ==>
              DieStep(m).value == m.(k := DieStep(m).value.k) &&
              exists w :: HandedOn(LeftForGood(m.k), DieStep(m).value.k, w)
  {
    GoneKeeps(m);
    DieIs(m);
    hide Inv, LInv, RestOk, Dying.Switched, HandedOn, PopsReturn, Unlink, DieStep, MayDie;
    SwitchIs(Gone(m.k));
    assert Gone(m.k) == LeftForGood(m.k);
  }

  lemma DieIs(m: M)
    requires Inv(m) && MayDie(m.k)
    ensures m.k.cur in m.k.all && LInv(Gone(m.k), {})
    ensures DieStep(m).Some? <==> Dying.Switched(Gone(m.k)).Some?
    ensures DieStep(m).Some? ==> DieStep(m).value == m.(k := Dying.Switched(Gone(m.k)).value)
  {
    GoneKeeps(m);
    hide Inv, LInv, RestOk, Dying.Switched, Gone;
  }

  lemma SwitchIs(k: K)
    requires LInv(k, {})
    ensures |k.heap| >= 1 && (Dying.Switched(k).Some? <==> PopsReturn(k.heap, k.now))
    ensures Dying.Switched(k).Some? ==> exists w :: HandedOn(k, Dying.Switched(k).value, w)
  {
    PassReturns(WakeIdle(k));
    WakeIdleHeap(k);
    if Dying.Switched(k).Some? {
      HandingOn(k);
      hide LInv, WakeIdle, ProcessDelayThread, HandedOn, PopsReturn, Woken;
      assert HandedOn(k, Dying.Switched(k).value, Woken(WakeIdle(k)));
    }
  }
}
