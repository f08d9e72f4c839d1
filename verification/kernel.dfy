/** The kernel's thread operations as the source writes them (kernel/thread.c, userprog/wait_exit.c):
    one object whose fields are the global lists, the sleep heap and the thread control blocks. Each
    method leaves exactly the state that the functions of Sched, Machine, Semaphore and Process give. */
module Kernel {
  import opened Basics
  import opened Lists
  import opened MinHeap
  import opened Sched
  import M = Machine
  import S = Semaphore
  import P = Process
  import E = Effects
  import Runs

  class Cpu {
    var threads: map<Tid, Thread>
    var all: seq<Tid>
    var ready: seq<Tid>
    var block: seq<Tid>
    var delay: seq<Tid>
    const heap: MinHeap.Heap
    var cur: Tid
    var idle: Tid
    var now: nat
    var nextPid: nat
    var sems: map<SemId, Sem>

    ghost predicate Valid()
      reads this, heap
    {
      heap.Valid() && heap.maxCnt == HEAP_MAX
    }

    ghost function State(): K
      requires Valid()
      reads this, heap, heap.buf
    {
      K(threads, all, ready, block, delay, heap.Items(), cur, idle, now, nextPid, sems)
    }

    /** init_thread. */
    constructor (init: Tid, main: Tid, idleTask: Tid, sems: map<SemId, Sem>)
      requires init != main && init != idleTask && main != idleTask && Runs.FreshSems(sems)
      ensures Valid() && fresh(heap) && fresh(heap.buf)
      ensures State() == Runs.Booted(init, main, idleTask, sems).k
      ensures M.Inv(M.M(State(), map[], []))
      ensures all == [init, main, idleTask] && ready == [init, idleTask] && block == delay == []
      ensures heap.Items()[1..] == []
      ensures cur == main && idle == idleTask && now == 0 && nextPid == 3 && threads.Keys == {init, main, idleTask}
      ensures threads[init].pid == 1 && threads[main].pid == 2 && threads[idleTask].pid == 3
    {
      threads := map[
        init := Thread(1, M.NO_PARENT, READY, 1, 1, 0, 0, false, Free),
        main := Thread(2, M.NO_PARENT, RUNNING, 1, 1, 0, 0, false, Free),
        idleTask := Thread(3, M.NO_PARENT, READY, 1, 1, 0, 0, false, Free)];
      all, ready, block, delay := [init, main, idleTask], [init, idleTask], [], [];
      heap := new MinHeap.Heap(HEAP_MAX);
      cur, idle, now, nextPid := main, idleTask, 0, 3;
      this.sems := sems;
      new;
      Runs.BootKeeps(init, main, idleTask, sems);
    }

    method ExchangeThreadToReady(t: Tid)
      requires Valid() && t in threads
      modifies this`ready, this`threads
      ensures State() == Sched.ExchangeThreadToReady(old(State()), t)
    {
      ready := ready + [t];
      threads := threads[t := threads[t].(ticks := threads[t].priority)];
      threads := threads[t := threads[t].(status := READY)];
    }

    method ThreadUnBlock(t: Tid)
      requires Valid() && t in threads && t in block
      modifies this`ready, this`block, this`threads
      ensures State() == Sched.ThreadUnBlock(old(State()), t)
    {
      threads := threads[t := threads[t].(status := READY)];
      block := Unlink(block, t);
      ready := [t] + ready;
    }

    /** One round of the loop of ProcessDelayThread. */
    method WakeFirst() returns (exits: bool)
      requires Valid() && LInv(State(), {}) && heap.curCnt > 0
      modifies this`ready, this`delay, this`threads, heap`curCnt, heap.buf
      ensures Valid()
      ensures exits <==> PopReturns(old(State()).heap)
      ensures State() == WakeOne(old(State()))
    {
      RootIsDelayed(State());
      var node;
      node, exits := heap.Pop();
      delay := Unlink(delay, node.ptr);
      ExchangeThreadToReady(node.ptr);
    }

    /** `returns` is false if the loop of MinHeapPop does not end. */
    method ProcessDelayThread() returns (back: bool)
      requires Valid() && LInv(State(), {})
      modifies this`ready, this`delay, this`threads, heap`curCnt, heap.buf
      ensures Valid()
      ensures back ==> Sched.ProcessDelayThread(old(State())) == Some(State())
      ensures !back ==> Sched.ProcessDelayThread(old(State())) == None
    {
      hide LInv, WakeOne, PopReturns;
      back := true;
      while heap.curCnt > 0 && now >= heap.buf[1].key
        invariant Valid() && back && LInv(State(), {}) && unchanged(this`now)
        invariant Sched.ProcessDelayThread(State()) == Sched.ProcessDelayThread(old(State()))
        decreases heap.curCnt
      {
        assert RootIsDue(State());
        WakeOneFacts(State());
        back := WakeFirst();
        if !back { return; }
      }
    }

    /** The first half of schedule(); false is the ASSERT of MinHeapInsert. */
    method Place() returns (placed: bool)
      requires Valid() && Schedulable(State())
      modifies this`ready, this`block, this`delay, this`threads, heap`curCnt, heap.buf
      ensures Valid()
      ensures placed ==> Sched.Place(old(State())) == Some(State())
      ensures !placed ==> Sched.Place(old(State())) == None
    {
      hide LInv, Inserted;
      var status := threads[cur].status;
      if status == RUNNING {
        ExchangeThreadToReady(cur);
      } else if status == BLOCKED || status == HANGING || status == WAITING {
        block := block + [cur];
      } else if status == DELAYED {
        if heap.curCnt >= heap.maxCnt { return false; }
        delay := delay + [cur];
        heap.Insert(Node(cur, threads[cur].deadline));
      }
      placed := true;
    }

    method WakeIdle()
      requires Valid() && LInv(State(), {})
      modifies this`ready, this`block, this`threads
      ensures State() == Sched.WakeIdle(old(State()))
    {
      if ready == [] {
        IdleIsParked(State());
        ThreadUnBlock(idle);
      }
    }

    method Dispatch()
      requires Valid() && LInv(State(), {}) && ready != []
      modifies this`ready, this`threads, this`cur
      ensures State() == Sched.Dispatch(old(State()))
    {
      var nxt := ready[0];
      assert nxt in ready;
      ready := ready[1..];
      threads := threads[nxt := threads[nxt].(status := RUNNING)];
      cur := nxt;
    }

    /** schedule(); false if it never returns. */
    method Schedule() returns (back: bool)
      requires Valid() && Schedulable(State())
      modifies this`ready, this`block, this`delay, this`threads, this`cur, heap`curCnt, heap.buf
      ensures Valid()
      ensures back ==> Sched.Schedule(old(State())) == Some(State())
      ensures !back ==> Sched.Schedule(old(State())) == None
    {
      hide Schedulable, LInv, Sched.Place, Sched.WakeIdle, Sched.ProcessDelayThread, Sched.Dispatch;
      back := Place();
      if back {
        PlaceKeeps(old(State()));
        WakeIdle();
        ghost var q := State();
        back := ProcessDelayThread();
        if back {
          NextExists(q);
          Dispatch();
        }
      }
    }

    method SetRunning(th: Thread)
      requires Valid() && cur in threads
      modifies this`threads
      ensures State() == M.SetCur(old(State()), th)
    {
      threads := threads[cur := th];
    }

    /** The timer interrupt. */
    method Tick(ghost m: M.M) returns (back: bool)
      requires Valid() && M.Inv(m) && m.k == State()
      modifies this, heap`curCnt, heap.buf
      ensures Valid()
      ensures back ==> M.TickStep(m) == Some(m.(k := State()))
      ensures !back ==> M.TickStep(m) == None
    {
      hide M.Inv, Sched.Schedule, Schedulable, M.Wrap, M.TickStep;
      now := M.Wrap(now + 1);
      M.TickIs(m, State());
      if threads[cur].ticks == 0 {
        back := Schedule();
      } else {
        SetRunning(threads[cur].(ticks := threads[cur].ticks - 1));
        back := true;
      }
    }

    /** Thread_Yield. */
    method Yield(ghost m: M.M) returns (back: bool)
      requires Valid() && M.Inv(m) && m.k == State() && cur != idle
      modifies this, heap`curCnt, heap.buf
      ensures Valid()
      ensures back ==> M.YieldStep(m) == Some(m.(k := State()))
      ensures !back ==> M.YieldStep(m) == None
    {
      hide M.Inv, Sched.Schedule, Schedulable, M.RestOk;
      M.CurRuns(m);
      M.YieldingKeeps(m);
      threads := threads[cur := threads[cur].(status := READY)];
      ready := ready + [cur];
      assert State() == M.Yielding(m.k);
      back := Schedule();
    }

    /** syscall_sleep, with the sum already taken. */
    method SleepUntil(ghost m: M.M, deadline: nat) returns (back: bool)
      requires Valid() && M.Inv(m) && m.k == State() && cur != idle
      modifies this, heap`curCnt, heap.buf
      ensures Valid()
      ensures back ==> M.SleepUntil(m, deadline) == Some(m.(k := State()))
      ensures !back ==> M.SleepUntil(m, deadline) == None
    {
      hide M.Inv, LInv, Sched.Schedule, Schedulable, M.RestOk, M.Unnoticed;
      M.CurRuns(m);
      ghost var th := threads[cur].(status := DELAYED, deadline := deadline);
      M.Gentle(m, th);
      M.MoveAndSchedule(m, th, now);
      threads := threads[cur := threads[cur].(deadline := deadline)];
      threads := threads[cur := threads[cur].(status := DELAYED)];
      assert State() == M.Moved(m.k, th, m.k.now);
      back := Schedule();
    }

    method Sleep(ghost m: M.M, ms: nat) returns (back: bool)
      requires Valid() && M.Inv(m) && m.k == State() && cur != idle
      modifies this, heap`curCnt, heap.buf
      ensures Valid()
      ensures back ==> M.SleepStep(m, ms) == Some(m.(k := State()))
      ensures !back ==> M.SleepStep(m, ms) == None
    {
      hide M.Inv, M.SleepUntil, M.Wrap;
      back := SleepUntil(m, M.Wrap(ms + now));
    }

    /** The body of the loop of SemaphoreDec, or the code after it. */
    method SemaphoreDec(ghost m: M.M, s: SemId) returns (back: bool)
      requires Valid() && M.Inv(m) && m.k == State() && S.MayTry(m.k, s)
      modifies this, heap`curCnt, heap.buf
      ensures Valid()
      ensures back ==> S.DownStep(m, s) == Some(m.(k := State()))
      ensures !back ==> S.DownStep(m, s) == None
    {
      hide M.Inv, LInv, Sched.Schedule, Schedulable, M.RestOk;
      var sem := sems[s];
      if sem.value == 0 {
        S.EnqueuingKeeps(m, s);
        sems := sems[s := sem.(wait := sem.wait + [cur])];
        threads := threads[cur := threads[cur].(status := BLOCKED, pc := InDec(s))];
        assert State() == S.Enqueued(m.k, s);
        back := Schedule();
      } else {
        sems := sems[s := sem.(value := sem.value - 1,
                               owners := if sem.isMutex then sem.owners + {cur} else sem.owners)];
        threads := threads[cur := threads[cur].(pc := if sem.isMutex then Acquired(s) else Free)];
        assert State() == S.Taken(m.k, s);
        back := true;
      }
    }

    /** SemaphoreInc; false is its ASSERT. */
    method SemaphoreInc(ghost m: M.M, s: SemId) returns (back: bool)
      requires Valid() && M.Inv(m) && m.k == State() && S.MayRaise(m.k, s)
      modifies this`threads, this`ready, this`block, this`sems
      ensures Valid()
      ensures back ==> S.UpStep(m, s) == Some(m.(k := State()))
      ensures !back ==> S.UpStep(m, s) == None
    {
      hide M.Inv, M.SemInv, LInv;
      if sems[s].value >= 255 { return false; }
      if sems[s].wait != [] {
        S.WaiterIsBlocked(m, s);
        var first := sems[s].wait[0];
        sems := sems[s := sems[s].(wait := sems[s].wait[1..])];
        ThreadUnBlock(first);
        assert State() == S.FirstWoken(m.k, s);
      }
      var sem := sems[s];
      sems := sems[s := sem.(value := sem.value + 1, owners := if sem.isMutex then sem.owners - {cur} else sem.owners)];
      threads := threads[cur := threads[cur].(pc := if sem.isMutex then Free else threads[cur].pc)];
      back := true;
    }

    /** FindTargetPCB. */
    method FindTargetPCB(pid: nat) returns (r: Option<Tid>)
      requires forall t :: t in all ==> t in threads
      ensures r == P.FindPid(all, threads, pid)
    {
      var i := 0;
      while i < |all|
        invariant 0 <= i <= |all|
        invariant P.FindPid(all[i..], threads, pid) == P.FindPid(all, threads, pid)
      {
        if threads[all[i]].pid == pid { return Some(all[i]); }
        assert all[i..][1..] == all[i + 1..];
        i := i + 1;
      }
      r := None;
    }

    /** The scan of syscall_wait: the first hanging child, and whether a child was seen. */
    method FindHangingChild(pid: nat) returns (r: Option<Tid>, flag: bool)
      requires forall t :: t in all <==> t in threads
      ensures r == P.FindHanging(all, threads, pid)
      ensures r == None ==> (flag <==> M.HasChild(threads, pid))
    {
      var i := 0;
      flag := false;
      while i < |all|
        invariant 0 <= i <= |all|
        invariant P.FindHanging(all[i..], threads, pid) == P.FindHanging(all, threads, pid)
        invariant flag <==> exists j :: 0 <= j < i && threads[all[j]].parent == pid
      {
        var child := threads[all[i]];
        if child.parent == pid {
          flag := true;
          if child.status == HANGING { return Some(all[i]), true; }
        }
        assert all[i..][1..] == all[i + 1..];
        i := i + 1;
      }
      r := None;
      if M.HasChild(threads, pid) {
        ghost var t :| t in threads && threads[t].parent == pid;
        assert t in all;
      }
    }

    /** InitAdopt. */
    method InitAdopt(pid: nat)
      requires Valid() && (forall t :: t in all <==> t in threads) && NoDup(all)
      modifies this`threads
      ensures threads == P.Adopted(old(threads), pid)
    {
      var i := 0;
      while i < |all|
        invariant 0 <= i <= |all| && threads.Keys == old(threads).Keys
        invariant forall j :: 0 <= j < i ==> threads[all[j]] == P.Adopted(old(threads), pid)[all[j]]
        invariant forall j :: i <= j < |all| ==> threads[all[j]] == old(threads)[all[j]]
      {
        if threads[all[i]].parent == pid {
          threads := threads[all[i] := threads[all[i]].(parent := M.INIT_PID)];
        }
        i := i + 1;
      }
      forall t | t in threads ensures threads[t] == P.Adopted(old(threads), pid)[t] { assert t in all; }
    }

    /** ThreadCreate and the end of syscall_fork: the new thread enters the lists. */
    method Enter(t: Tid, th: Thread)
      requires Valid()
      modifies this`threads, this`ready, this`all, this`nextPid
      ensures State() == M.Added(old(State()), t, th)
    {
      nextPid := nextPid + 1;
      threads := threads[t := th];
      ready := ready + [t];
      all := all + [t];
    }

    /** ThreadCreate. */
    method Create(ghost m: M.M, t: Tid, priority: nat)
      requires Valid() && M.Inv(m) && m.k == State() && t !in threads && nextPid + 1 < M.NO_PARENT
      modifies this`threads, this`ready, this`all, this`nextPid
      ensures M.CreateStep(m, t, priority) == m.(k := State())
      ensures threads == old(threads)[
                t := Thread(old(nextPid) + 1, 65535, READY, priority, priority, 0, 0, false, Free)]
      ensures ready == old(ready) + [t] && all == old(all) + [t] && nextPid == old(nextPid) + 1
    {
      hide M.Inv;
      Enter(t, Thread(nextPid + 1, M.NO_PARENT, READY, priority, priority, 0, 0, false, Free));
    }

    /** The end of syscall_fork: the child's control block is its parent's but for what is set here. */
    method Fork(ghost m: M.M, t: Tid)
      requires Valid() && M.Inv(m) && m.k == State() && t !in threads && nextPid + 1 < M.NO_PARENT
      requires cur in threads && !threads[cur].exiting
      modifies this`threads, this`ready, this`all, this`nextPid
      ensures M.ForkStep(m, t) == m.(k := State())
      ensures threads == old(threads)[t := threads[t]] && threads[t].parent == threads[cur].pid
      ensures threads[t].pid == old(nextPid) + 1 && threads[t].status == READY && threads[t].pc == Free
      ensures threads[t].priority == threads[t].ticks == threads[cur].priority
      ensures ready == old(ready) + [t] && all == old(all) + [t] && nextPid == old(nextPid) + 1
    {
      hide M.Inv;
      var parent := threads[cur];
      Enter(t, parent.(pid := nextPid + 1, parent := parent.pid, status := READY, ticks := parent.priority,
                       pc := Free));
    }

    /** ThreadExit for a hanging child. */
    method Bury(c: Tid)
      requires Valid() && c in all && c in block
      modifies this`threads, this`all, this`block
      ensures State() == P.Buried(old(State()), c)
    {
      all := Unlink(all, c);
      block := Unlink(block, c);
      threads := threads - {c};
    }

    /** The outcome of one pass of the loop of syscall_wait: a child reaped, no child at all, or
        blocked until a child exits. */
    method Wait(ghost m: M.M) returns (back: bool, done: bool, child: Option<M.Reaped>, ghost m': M.M)
      requires Valid() && M.Inv(m) && m.k == State() && P.MayWait(m.k)
      modifies this, heap`curCnt, heap.buf
      ensures Valid()
      ensures back ==> P.WaitStep(m) == Some(m') && m'.k == State()
      ensures !back ==> P.WaitStep(m) == None
      ensures back && child.Some? ==> done && m'.reaps == m.reaps + [child.value]
      ensures back && child.None? ==>
                m'.reaps == m.reaps && (done <==> !M.HasChild(m.k.threads, m.k.threads[m.k.cur].pid))
      ensures back ==> (child.Some? <==> exists t :: E.HangsFor(old(threads), t, old(threads)[old(cur)].pid))
      ensures child.Some? ==>
                exists i: nat :: E.FirstAt(old(all), old(threads), old(threads)[old(cur)].pid, i) &&
                  E.ReapedAt(old(State()), State(), i, child.value)
      ensures back && !done ==>
                old(cur) in threads && threads[old(cur)].status == WAITING && old(cur) in block
    {
      ghost var p := threads[cur].pid;
      back, done, child, m' := WaitPass(m);
      hide M.Inv, P.WaitStep, M.HasChild, E.ReapedAt, E.FirstAt, E.PassesOn;
      if t :| E.HangsFor(m.k.threads, t, p) {
        E.HangingIsReaped(m, t);
        assert child.Some? && m'.reaps[|m.reaps|] == child.value;
      } else if back {
        E.WaitReapsNobody(m);
        if !done { E.WaitBlocks(m); }
      }
    }

    /** The pass itself. */
    method WaitPass(ghost m: M.M) returns (back: bool, done: bool, child: Option<M.Reaped>, ghost m': M.M)
      requires Valid() && M.Inv(m) && m.k == State() && P.MayWait(m.k)
      modifies this, heap`curCnt, heap.buf
      ensures Valid()
      ensures back ==> P.WaitStep(m) == Some(m') && m'.k == State()
      ensures !back ==> P.WaitStep(m) == None && child.None?
      ensures back && child.Some? ==> done && m'.reaps == m.reaps + [child.value]
      ensures back && child.None? ==>
                m'.reaps == m.reaps && (done <==> !M.HasChild(m.k.threads, m.k.threads[m.k.cur].pid))
    {
      hide LInv, M.SemInv, M.ProcInv, M.HistInv, Sched.Schedule, Schedulable, M.RestOk, P.FindHanging, M.HasChild;
      M.CurRuns(m);
      ListedAreThreads(m);
      var found, flag := FindHangingChild(threads[cur].pid);
      m' := m;
      if found.Some? {
        P.ZombieIsListed(State(), found.value);
        child := Some(M.Reaped(threads[found.value].pid, threads[found.value].code));
        SetRunning(threads[cur].(pc := Free));
        Bury(found.value);
        m' := m.(k := State(), reaps := m.reaps + [child.value]);
        return true, true, child, m';
      }
      child := None;
      if !flag {
        SetRunning(threads[cur].(pc := Free));
        return true, true, None, m.(k := State());
      }
      P.WaitingKeeps(m);
      SetRunning(threads[cur].(status := WAITING, pc := InWait));
      back := Schedule();
      done, m' := false, m.(k := State());
    }

    /** syscall_exit up to the end of InitAdopt. */
    method ExitBegin(ghost m: M.M, code: int) returns (ghost m': M.M)
      requires Valid() && M.Inv(m) && m.k == State() && P.MayExit(m.k)
      modifies this`threads
      ensures m' == P.ExitBeginStep(m, code) && m'.k == State()
    {
      hide LInv, M.SemInv, M.ProcInv, M.HistInv, P.Adopted;
      M.CurRuns(m);
      ListedAreThreads(m);
      var pid := threads[cur].pid;
      InitAdopt(pid);
      threads := threads[cur := threads[cur].(exiting := true, code := M.Int8(code))];
      m' := m.(k := State(), exits := m.exits[pid := code]);
    }

    /** The rest of syscall_exit; its second ASSERT fails for a thread without a parent. */
    method ExitEnd(ghost m: M.M) returns (back: bool)
      requires Valid() && M.Inv(m) && m.k == State() && P.MayHang(m.k)
      modifies this, heap`curCnt, heap.buf
      ensures Valid()
      ensures back ==> P.ExitEndStep(m) == Some(m.(k := State()))
      ensures !back ==> P.ExitEndStep(m) == None
      ensures back ==>
                old(cur) in threads && threads[old(cur)] == old(threads[cur]).(status := HANGING) && old(cur) in block
      ensures back ==> forall f :: f in m.k.threads && m.k.threads[f].pid == old(threads[cur]).parent &&
                                   m.k.threads[f].status == WAITING ==>
                cur == f && f in threads && threads[f].status == RUNNING
    {
      back := ExitPass(m);
      hide M.Inv, P.ExitEndStep, E.PassesOn, E.LeftHanging;
      if back {
        E.ExitNeedsParent(m);
        forall f | f in m.k.threads && m.k.threads[f].pid == m.k.threads[m.k.cur].parent
          ensures E.LeftFor(m.k, State(), f)
        {
          E.ExitEndEffect(m, f);
        }
      }
    }

    /** The rest itself. */
    method ExitPass(ghost m: M.M) returns (back: bool)
      requires Valid() && M.Inv(m) && m.k == State() && P.MayHang(m.k)
      modifies this, heap`curCnt, heap.buf
      ensures Valid()
      ensures back ==> P.ExitEndStep(m) == Some(m.(k := State()))
      ensures !back ==> P.ExitEndStep(m) == None
    {
      hide LInv, M.SemInv, M.ProcInv, M.HistInv, Sched.Schedule, Schedulable, M.RestOk, P.FindPid;
      ListedAreThreads(m);
      P.ParentIsFound(m);
      var fa := FindTargetPCB(threads[cur].parent);
      if fa == None { return false; }
      P.ExitEndIsOrderly(m);
      if threads[fa.value].status == WAITING { ThreadUnBlock(fa.value); }
      assert State() == P.ParentWoken(m.k, fa.value);
      SetRunning(threads[cur].(status := HANGING));
      back := Schedule();
    }
  }

  lemma ListedAreThreads(m: M.M)
    requires M.Inv(m)
    ensures NoDup(m.k.all) && forall t :: t in m.k.all <==> t in m.k.threads
  {}
}
