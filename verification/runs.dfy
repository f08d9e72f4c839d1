/** All interleavings of the kernel's operations on threads, and what holds over every run of them. */
module Runs {
  import opened Basics
  import opened MinHeap
  import opened Sched
  import opened Machine
  import opened Semaphore
  import opened Process
  import opened Sleeping
  import opened Dying

  /** What the running code may do next. Time may pass at any moment, and an interrupt may raise a
      semaphore that is not a mutex; the idle task only parks itself; pid numbers have not run out;
      a mutex is released by a thread that acquired it. */
  ghost predicate Enabled(m: M, op: Op)
  {
    var k := m.k;
    k.cur in k.threads &&
    var me := k.threads[k.cur];
    var calm := k.cur != k.idle && me.pc == Free;
    match op
    case Tick => true
    case Yield => calm
    case IdleBlock => k.cur == k.idle
    case Sleep(_) => calm
    case Create(t, _) => calm && t !in k.threads && k.nextPid + 1 < NO_PARENT
    case Fork(t) => calm && t !in k.threads && k.nextPid + 1 < NO_PARENT && !me.exiting
    case Down(s) => MayTry(k, s)
    case SetHolder => me.pc.Acquired?
    case ClearHolder(s) => calm && s in k.sems && k.sems[s].isMutex && k.cur in k.sems[s].owners
    case Up(s) => MayRaise(k, s)
    case Wait => MayWait(k)
    case ExitBegin(_) => MayExit(k)
    case ExitEnd => MayHang(k)
    case Die => MayDie(k)
  }

  ghost function Step(m: M, op: Op): Option<M>
    requires Inv(m) && Enabled(m, op)
  {
    hide Inv;
    match op
    case Tick => TickStep(m)
    case Yield => YieldStep(m)
    case IdleBlock => IdleBlockStep(m)
    case Sleep(ms) => SleepStep(m, ms)
    case Create(t, p) => Some(CreateStep(m, t, p))
    case Fork(t) => Some(ForkStep(m, t))
    case Down(s) => DownStep(m, s)
    case SetHolder => Some(SetHolderStep(m))
    case ClearHolder(s) => Some(ClearHolderStep(m, s))
    case Up(s) => UpStep(m, s)
    case Wait => WaitStep(m)
    case ExitBegin(code) => Some(ExitBeginStep(m, code))
    case ExitEnd => ExitEndStep(m)
    case Die => DieStep(m)
  }

  lemma StepKeeps(m: M, op: Op)
    requires Inv(m) && Enabled(m, op) && Step(m, op).Some?
    ensures Inv(Step(m, op).value)
  {
    hide Inv, TickTo, Wrap, YieldStep, IdleBlockStep, SleepUntil, DownStep, UpStep, WaitStep, ExitBeginStep,
         ExitEndStep, CreateStep, ForkStep, SetHolderStep, ClearHolderStep, DieStep;
    match op
    case Tick => TickKeeps(m, Wrap(m.k.now + 1));
    case Wait => WaitKeeps(m);
    case ExitEnd => ExitEndKeeps(m);
    case _ =>
  }

  /** A run from a state: None if it asks for a step the kernel would not take, or one that never ends. */
  ghost function Run(m: M, ops: seq<Op>): (r: Option<M>)
    requires Inv(m)
    ensures r.Some? ==> Inv(r.value)
    decreases |ops|
  {
    if ops == [] then Some(m)
    else if !Enabled(m, ops[0]) then None
    else
      match Step(m, ops[0])
      case None => None
      case Some(m') => StepKeeps(m, ops[0]); Run(m', ops[1..])
  }

  /** What init_thread leaves: init (pid 1) and the idle task ready, the kernel's main thread running. */
  ghost function Booted(init: Tid, main: Tid, idle: Tid, sems: Sems): M
  {
    var th := map[
      init := Thread(1, NO_PARENT, READY, 1, 1, 0, 0, false, Free),
      main := Thread(2, NO_PARENT, RUNNING, 1, 1, 0, 0, false, Free),
      idle := Thread(3, NO_PARENT, READY, 1, 1, 0, 0, false, Free)];
    M(K(th, [init, main, idle], [init, idle], [], [], [Node(0, 0)], main, idle, 0, 3, sems), map[], [])
  }

  ghost predicate FreshSems(sems: Sems)
  {
    forall s :: s in sems ==>
      var x := sems[s];
      x.value <= 255 && x.wait == [] && x.owners == {} && x.holder == None && (x.isMutex ==> x.value == 1)
  }

  lemma BootedSems(init: Tid, main: Tid, idle: Tid, sems: Sems)
    requires init != main && init != idle && main != idle && FreshSems(sems)
    ensures var k := Booted(init, main, idle, sems).k; SemInv(k.threads, k.sems, k.idle)
  {
    var k := Booted(init, main, idle, sems).k;
    assert k.threads.Keys == {init, main, idle};
  }

  lemma BootedPids(init: Tid, main: Tid, idle: Tid, sems: Sems)
    requires init != main && init != idle && main != idle
    ensures var k := Booted(init, main, idle, sems).k; PidsOk(k.threads, k.nextPid)
  {
    var k := Booted(init, main, idle, sems).k;
    assert k.threads.Keys == {init, main, idle};
    assert k.threads[init].pid == INIT_PID;
  }

  /** Nobody has a parent, waits or exits yet. */
  lemma BootedFamilies(init: Tid, main: Tid, idle: Tid, sems: Sems)
    requires init != main && init != idle && main != idle
    ensures var k := Booted(init, main, idle, sems).k;
            FamilyOk(k.threads) && WaitersOk(k.threads) && HistInv(k.threads, k.nextPid, map[], [])
  {
    var th := Booted(init, main, idle, sems).k.threads;
    assert forall t :: t in th ==> !th[t].exiting && th[t].parent == NO_PARENT && th[t].status in {READY, RUNNING};
    hide Booted, HasPid, HasChild;
  }

  lemma BootedLists(init: Tid, main: Tid, idle: Tid, sems: Sems)
    requires init != main && init != idle && main != idle
    ensures SchedInv(Booted(init, main, idle, sems).k)
  {
    var k := Booted(init, main, idle, sems).k;
    assert k.threads.Keys == {init, main, idle};
    assert k.heap[1..] == [];
  }

  lemma BootKeeps(init: Tid, main: Tid, idle: Tid, sems: Sems)
    requires init != main && init != idle && main != idle && FreshSems(sems)
    ensures Inv(Booted(init, main, idle, sems))
  {
    BootedSems(init, main, idle, sems);
    BootedPids(init, main, idle, sems);
    BootedFamilies(init, main, idle, sems);
    BootedLists(init, main, idle, sems);
    hide SemInv, PidsOk, FamilyOk, WaitersOk, HistInv, LInv;
  }

  ghost predicate Reachable(m: M)
  {
    exists init: Tid, main: Tid, idle: Tid, sems: Sems, ops: seq<Op> ::
      init != main && init != idle && main != idle && FreshSems(sems) &&
      (BootKeeps(init, main, idle, sems); Run(Booted(init, main, idle, sems), ops) == Some(m))
  }

  /** A booted kernel is reachable, by no step at all. */
  lemma BootIsReachable(init: Tid, main: Tid, idle: Tid, sems: Sems)
    requires init != main && init != idle && main != idle && FreshSems(sems)
    ensures Reachable(Booted(init, main, idle, sems))
  {
    hide Inv, Booted;
    BootKeeps(init, main, idle, sems);
    var ops: seq<Op> := [];
    assert Run(Booted(init, main, idle, sems), ops) == Some(Booted(init, main, idle, sems));
  }

  lemma ReachableInv(m: M)
    requires Reachable(m)
    ensures Inv(m)
  {
    hide Inv, Booted;
    var init: Tid, main: Tid, idle: Tid, sems: Sems, ops: seq<Op> :|
      init != main && init != idle && main != idle && FreshSems(sems) &&
      (BootKeeps(init, main, idle, sems); Run(Booted(init, main, idle, sems), ops) == Some(m));
    BootKeeps(init, main, idle, sems);
  }

  // ---------- Over every run ----------

  /** One thread runs; every other live thread is in exactly the list of its status; the heap holds the
      delayed threads with their deadlines. */
  lemma SchedulerSafety(m: M, t: Tid)
    requires Reachable(m) && t in m.k.threads
    ensures t == m.k.cur <==> m.k.threads[t].status == RUNNING
    ensures t in m.k.ready <==> m.k.threads[t].status == READY
    ensures t in m.k.block <==> Parked(m.k.threads[t].status)
    ensures t in m.k.delay <==> m.k.threads[t].status == DELAYED
    ensures m.k.threads[t].status != DIED
    ensures |m.k.heap| >= 1 && (t in m.k.delay <==> Node(t, m.k.threads[t].deadline) in Nodes(m.k.heap))
  {
    ReachableInv(m);
    ExactlyOneList(m.k, t);
    HeapHoldsSleepers(m.k, t);
  }

  lemma HeapHoldsSleepers(k: K, t: Tid)
    requires HeapOk(k) && t in k.threads
    ensures t in k.delay <==> Node(t, k.threads[t].deadline) in Nodes(k.heap)
  {}

  /** Mutual exclusion; no lost wakeup; at most one queue for each thread. */
  lemma SemaphoreSafety(m: M, s: SemId)
    requires Reachable(m) && s in m.k.sems
    ensures m.k.sems[s].isMutex ==> m.k.sems[s].value + |m.k.sems[s].owners| == 1
    ensures m.k.sems[s].holder.Some? ==> m.k.sems[s].owners == {m.k.sems[s].holder.value}
    ensures m.k.sems[s].wait != [] ==> m.k.sems[s].value <= |Retrying(m.k.threads, m.k.sems, s)|
    ensures forall t, z :: t in m.k.sems[s].wait && z in m.k.sems && z != s ==> t !in m.k.sems[z].wait
    ensures forall t :: t in m.k.sems[s].wait ==> t in m.k.block
  {
    ReachableInv(m);
    assert CountOk(m.k.sems[s]) && NoLostWakeup(m.k.threads, m.k.sems, s) && QueueOk(m.k.threads, s, m.k.sems[s]);
    forall t, z | t in m.k.sems[s].wait && z in m.k.sems && z != s ensures t !in m.k.sems[z].wait {
      WaitersAreServed(m, s, t);
    }
    if m.k.sems[s].holder.Some? { HolderIsOnlyOwner(m.k.sems[s]); }
  }

  lemma HolderIsOnlyOwner(sem: Sem)
    requires CountOk(sem) && sem.holder.Some?
    ensures sem.owners == {sem.holder.value}
  {
    forall t | t in sem.owners ensures t == sem.holder.value { OnlyMember(sem.owners, t, sem.holder.value); }
  }

  /** A parent is a live process that is not on its way out; who waits has a child, and no child of
      his has exited unnoticed. */
  lemma ProcessSafety(m: M, t: Tid)
    requires Reachable(m) && t in m.k.threads
    ensures m.k.threads[t].parent != NO_PARENT ==>
              exists f :: f in m.k.threads && m.k.threads[f].pid == m.k.threads[t].parent &&
                          m.k.threads[f].status != HANGING && !m.k.threads[f].exiting
    ensures m.k.threads[t].status == WAITING ==>
              HasChild(m.k.threads, m.k.threads[t].pid) && NoneHangs(m.k.threads, m.k.threads[t].pid)
  {
    ReachableInv(m);
    if m.k.threads[t].parent != NO_PARENT {
      var f :| f in m.k.threads && m.k.threads[f].pid == m.k.threads[t].parent;
      assert !m.k.threads[f].exiting && m.k.threads[f].status != HANGING;
    }
  }

  /** Each exit is reaped at most once, with the status given to syscall_exit cut down to 8 bits: the
      very status exactly when that fits. */
  lemma ReapedOnceWithItsStatus(m: M, i: nat)
    requires Reachable(m) && i < |m.reaps|
    ensures m.reaps[i].pid in m.exits && m.reaps[i].code == Int8(m.exits[m.reaps[i].pid])
    ensures m.reaps[i].code == m.exits[m.reaps[i].pid] <==> -128 <= m.exits[m.reaps[i].pid] <= 127
    ensures forall j :: 0 <= j < |m.reaps| && j != i ==> m.reaps[j].pid != m.reaps[i].pid
    ensures forall t :: t in m.k.threads ==> m.k.threads[t].pid != m.reaps[i].pid
  {
    ReachableInv(m);
  }

  // ---------- Sleeping long enough ----------

  ghost function Ticks(ops: seq<Op>): nat
  {
    if ops == [] then 0 else (if ops[0] == Tick then 1 else 0) + Ticks(ops[1..])
  }

  lemma HolderLetsSleep(m: M, op: Op, t: Tid)
    requires Inv(m) && Enabled(m, op) && (op.SetHolder? || op.ClearHolder?)
    requires t in m.k.threads && m.k.threads[t].status == DELAYED
    ensures Step(m, op).Some? && SleptOn(m.k, Step(m, op).value.k, t) && Step(m, op).value.k.now == m.k.now
  {
    SleeperIsNotRunning(m, t);
    hide Inv, SleptOn;
    if op.SetHolder? {
      StillSleeping(m.k, SetHolderStep(m).k, t);
    } else {
      StillSleeping(m.k, ClearHolderStep(m, op.s).k, t);
    }
  }

  lemma BirthLetsSleep(m: M, op: Op, t: Tid)
    requires Inv(m) && Enabled(m, op) && (op.Create? || op.Fork?)
    requires t in m.k.threads && m.k.threads[t].status == DELAYED
    ensures Step(m, op).Some? && SleptOn(m.k, Step(m, op).value.k, t) && Step(m, op).value.k.now == m.k.now
  {
    hide Inv, SleptOn;
    if op.Create? {
      StillSleeping(m.k, CreateStep(m, op.t, op.priority).k, t);
    } else {
      StillSleeping(m.k, ForkStep(m, op.t).k, t);
    }
  }

  lemma StepLetsSleep(m: M, op: Op, t: Tid)
    requires Inv(m) && Enabled(m, op) && Step(m, op).Some?
    requires t in m.k.threads && m.k.threads[t].status == DELAYED
    requires m.k.now + 1 < TICKS_MOD
    ensures SleptOn(m.k, Step(m, op).value.k, t)
    ensures Step(m, op).value.k.now == m.k.now + if op == Tick then 1 else 0
  {
    hide Inv, SleptOn, TickTo, Wrap, YieldStep, IdleBlockStep, SleepUntil;
    hide DownStep, UpStep, WaitStep, ExitBeginStep, ExitEndStep, DieStep;
    match op
    case Tick => TickLetsSleep(m, Wrap(m.k.now + 1), t);
    case Yield => YieldLetsSleep(m, t);
    case IdleBlock => IdleBlockLetsSleep(m, t);
    case Sleep(ms) => SleepLetsSleep(m, Wrap(ms + m.k.now), t);
    case Down(s) => DownLetsSleep(m, s, t);
    case Up(s) => UpLetsSleep(m, s, t);
    case Wait => WaitLetsSleep(m, t);
    case ExitBegin(code) => LeavingLetsSleep(m, code, t);
    case ExitEnd => ExitEndLetsSleep(m, t);
    case Die => DyingLetsSleep(m, t);
    case Create(_, _) => BirthLetsSleep(m, op, t);
    case Fork(_) => BirthLetsSleep(m, op, t);
    case _ => HolderLetsSleep(m, op, t);
  }

  /** Over any run in which the tick counter does not wrap: a thread asleep at the beginning and not
      at the end was given at least the ticks up to its deadline. */
  lemma {:induction false} NobodyWakesEarly(m: M, ops: seq<Op>, t: Tid)
    requires Inv(m) && Run(m, ops).Some?
    requires t in m.k.threads && m.k.threads[t].status == DELAYED
    requires m.k.now + Ticks(ops) + 1 < TICKS_MOD
    requires var k' := Run(m, ops).value.k; t !in k'.threads || k'.threads[t].status != DELAYED
    ensures m.k.now + Ticks(ops) >= m.k.threads[t].deadline
    decreases |ops|
  {
    hide Inv, Step, Enabled;
    if ops != [] {
      StepLetsSleep(m, ops[0], t);
      StepKeeps(m, ops[0]);
      var m1 := Step(m, ops[0]).value;
      if m1.k.threads[t].status == DELAYED { NobodyWakesEarly(m1, ops[1..], t); }
    }
  }
}
