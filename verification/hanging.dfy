/** A run of the machine after which the timer interrupt never returns (kernel/thread.c and
    lib/kernel/minHeap.c): three threads sleep for one tick at the same time. */
module Hanging {
  import opened Basics
  import opened Lists
  import opened MinHeap
  import opened Sched
  import opened Machine
  import opened Sleeping
  import opened Runs

  // ---------- Longer runs ----------

  lemma {:induction false} RunLonger(m: M, ops: seq<Op>, op: Op)
    requires Inv(m) && Run(m, ops).Some? && Enabled(Run(m, ops).value, op)
    ensures Run(m, ops + [op]) == Step(Run(m, ops).value, op)
    decreases |ops|
  {
    hide Inv, Enabled, Step;
    if ops == [] {
      var end := Run(m, ops).value;
      assert ops + [op] == [op] && [op][1..] == [];
      if Step(end, op).Some? { StepKeeps(end, op); }
    } else {
      StepKeeps(m, ops[0]);
      assert (ops + [op])[1..] == ops[1..] + [op];
      RunLonger(Step(m, ops[0]).value, ops[1..], op);
    }
  }

  lemma ReachableStep(m: M, op: Op)
    requires Reachable(m) && Inv(m) && Enabled(m, op) && Step(m, op).Some?
    ensures Inv(Step(m, op).value) && Reachable(Step(m, op).value)
  {
    hide Inv, Enabled, Step, Booted, Run;
    StepKeeps(m, op);
    var init: Tid, main: Tid, idle: Tid, sems: Sems, ops: seq<Op> :|
      init != main && init != idle && main != idle && FreshSems(sems) &&
      (BootKeeps(init, main, idle, sems); Run(Booted(init, main, idle, sems), ops) == Some(m));
    BootKeeps(init, main, idle, sems);
    RunLonger(Booted(init, main, idle, sems), ops, op);
    assert Run(Booted(init, main, idle, sems), ops + [op]) == Step(m, op);
  }

  // ---------- Going to sleep when nobody is due ----------

  ghost function Bed(k: K, d: nat): K
    requires k.cur in k.threads
  {
    Moved(k, k.threads[k.cur].(status := DELAYED, deadline := d), k.now)
  }

  /** The next thread runs: the first that is ready, or the idle task. */
  ghost function Next(k: K): K
    requires if k.ready == [] then k.idle in k.block && k.idle in k.threads else k.ready[0] in k.threads
  {
    var nxt := if k.ready == [] then k.idle else k.ready[0];
    k.(threads := k.threads[nxt := k.threads[nxt].(status := RUNNING)], cur := nxt,
       ready := if k.ready == [] then [] else k.ready[1..],
       block := if k.ready == [] then Unlink(k.block, k.idle) else k.block)
  }

  lemma NextIs(k: K)
    requires LInv(k, {})
    ensures if k.ready == [] then k.idle in k.block && k.idle in k.threads else k.ready[0] in k.threads
    ensures Dispatch(WakeIdle(k)) == Next(k)
  {
    FirstIsThread(k);
    hide LInv;
    if k.ready == [] { assert ([k.idle] + k.ready)[1..] == []; }
  }

  lemma FirstIsThread(k: K)
    requires LInv(k, {})
    ensures if k.ready == [] then k.idle in k.block && k.idle in k.threads else k.ready[0] in k.threads
  {
    if k.ready == [] { IdleIsParked(k); } else { assert k.ready[0] in k.ready; }
  }

  /** The lists and the heap with the running thread asleep. */
  function Abed(k: K, d: nat): K
    requires k.cur in k.threads && |k.heap| >= 1
  {
    k.(threads := k.threads[k.cur := k.threads[k.cur].(status := DELAYED, deadline := d)],
       delay := k.delay + [k.cur], heap := Inserted(k.heap, Node(k.cur, d)))
  }

  lemma BedIsMade(k: K, d: nat)
    requires k.cur in k.threads && 1 <= |k.heap| <= HEAP_MAX && Schedulable(Bed(k, d))
    ensures Place(Bed(k, d)) == Some(Abed(k, d))
  {
    hide LInv, Inserted;
  }

  lemma Sleeps(m: M, d: nat, k': K)
    requires Inv(m) && m.k.cur != m.k.idle && 1 <= |m.k.heap| <= HEAP_MAX && m.k.cur in m.k.threads
    requires m.k.now < Inserted(m.k.heap, Node(m.k.cur, d))[1].key
    requires var k := Abed(m.k, d);
             if k.ready == [] then k.idle in k.block && k.idle in k.threads else k.ready[0] in k.threads
    requires k' == Next(Abed(m.k, d))
    ensures SleepUntil(m, d) == Some(m.(k := k'))
  {
    CurRuns(m);
    hide Inv, LInv, Inserted, RestOk, Next, Unnoticed, Schedulable, Place;
    var th := m.k.threads[m.k.cur].(status := DELAYED, deadline := d);
    Gentle(m, th);
    MoveAndSchedule(m, th, m.k.now);
    BedIsMade(m.k, d);
    IsDispatched(Bed(m.k, d));
    NextIs(Abed(m.k, d));
  }

  /** A switch with no sleeper due. */
  lemma IsDispatched(k: K)
    requires Schedulable(k) && Place(k).Some? && !RootIsDue(Place(k).value)
    ensures LInv(Place(k).value, {}) && Schedule(k) == Some(Dispatch(WakeIdle(Place(k).value)))
  {
    PlaceKeeps(k);
    hide LInv, Inserted;
  }

  function Parking(k: K): K
    requires k.cur in k.threads
  {
    k.(threads := k.threads[k.cur := k.threads[k.cur].(status := BLOCKED)], block := k.block + [k.cur])
  }

  lemma IdleParks(m: M, k': K)
    requires Inv(m) && m.k.cur == m.k.idle && |m.k.heap| >= 1 && (|m.k.heap| > 1 ==> m.k.now < m.k.heap[1].key)
    requires m.k.cur in m.k.threads && m.k.ready != [] && m.k.ready[0] in m.k.threads && k' == Next(Parking(m.k))
    ensures IdleBlockStep(m) == Some(m.(k := k'))
  {
    CurRuns(m);
    hide Inv, LInv, Inserted, RestOk, Next;
    var th := m.k.threads[m.k.cur].(status := BLOCKED);
    Gentle(m, th);
    MoveAndSchedule(m, th, m.k.now);
    var k1 := Moved(m.k, th, m.k.now);
    PlaceKeeps(k1);
    assert Place(k1).value == Parking(m.k);
    IsDispatched(k1);
    NextIs(Parking(m.k));
  }

  // ---------- The run ----------

  const INIT: Tid := 0
  const MAIN: Tid := 1
  const IDLE: Tid := 2
  const WORKER: Tid := 3

  function Th(pid: nat, status: Status, ticks: nat, deadline: nat): Thread
  {
    Thread(pid, NO_PARENT, status, 1, ticks, deadline, 0, false, Free)
  }

  const ROOT: Node := Node(0, 0)
  const ALL: seq<Tid> := [INIT, MAIN, IDLE, WORKER]

  function Four(a: Thread, b: Thread, c: Thread, d: Thread): map<Tid, Thread>
  {
    map[INIT := a, MAIN := b, IDLE := c, WORKER := d]
  }

  function Created(sems: Sems): K
  {
    K(Four(Th(1, READY, 1, 0), Th(2, RUNNING, 1, 0), Th(3, READY, 1, 0), Th(4, READY, 1, 0)),
      ALL, [INIT, IDLE, WORKER], [], [], [ROOT], MAIN, IDLE, 0, 4, sems)
  }

  function MainSleeps(sems: Sems): K
  {
    K(Four(Th(1, RUNNING, 1, 0), Th(2, DELAYED, 1, 1), Th(3, READY, 1, 0), Th(4, READY, 1, 0)),
      ALL, [IDLE, WORKER], [], [MAIN], [ROOT, Node(MAIN, 1)], INIT, IDLE, 0, 4, sems)
  }

  function InitSleeps(sems: Sems): K
  {
    K(Four(Th(1, DELAYED, 1, 1), Th(2, DELAYED, 1, 1), Th(3, RUNNING, 1, 0), Th(4, READY, 1, 0)),
      ALL, [WORKER], [], [MAIN, INIT], [ROOT, Node(MAIN, 1), Node(INIT, 1)], IDLE, IDLE, 0, 4, sems)
  }

  function IdleParked(sems: Sems): K
  {
    K(Four(Th(1, DELAYED, 1, 1), Th(2, DELAYED, 1, 1), Th(3, BLOCKED, 1, 0), Th(4, RUNNING, 1, 0)),
      ALL, [], [IDLE], [MAIN, INIT], [ROOT, Node(MAIN, 1), Node(INIT, 1)], WORKER, IDLE, 0, 4, sems)
  }

  function AllSleep(sems: Sems, ticks: nat, now: nat): K
  {
    K(Four(Th(1, DELAYED, 1, 1), Th(2, DELAYED, 1, 1), Th(3, RUNNING, ticks, 0), Th(4, DELAYED, 1, 1)),
      ALL, [], [], [MAIN, INIT, WORKER], [ROOT, Node(MAIN, 1), Node(INIT, 1), Node(WORKER, 1)],
      IDLE, IDLE, now, 4, sems)
  }

  function At(k: K): M { M(k, map[], []) }

  lemma WorkerAdded(sems: Sems)
    ensures Added(Booted(INIT, MAIN, IDLE, sems).k, WORKER, Th(4, READY, 1, 0)) == Created(sems)
  {
    assert Added(Booted(INIT, MAIN, IDLE, sems).k, WORKER, Th(4, READY, 1, 0)).threads == Created(sems).threads;
  }

  lemma WorkerIsCreated(sems: Sems)
    requires FreshSems(sems)
    ensures Inv(At(Created(sems))) && Reachable(At(Created(sems)))
  {
    hide Inv, Reachable, Added;
    var m := Booted(INIT, MAIN, IDLE, sems);
    BootKeeps(INIT, MAIN, IDLE, sems);
    BootIsReachable(INIT, MAIN, IDLE, sems);
    WorkerAdded(sems);
    assert CreateStep(m, WORKER, 1) == At(Created(sems));
    ReachableStep(m, Create(WORKER, 1));
  }

  lemma OneSleeper(ptr: Tid)
    ensures Inserted([ROOT], Node(ptr, 1)) == [ROOT, Node(ptr, 1)]
  {}

  lemma AnotherSleeper(a: seq<Node>, ptr: Tid)
    requires 2 <= |a| <= 3 && a[0] == ROOT && forall i :: 1 <= i < |a| ==> a[i].key == 1
    ensures Inserted(a, Node(ptr, 1)) == a + [Node(ptr, 1)]
  {}

  lemma FirstSleeps(sems: Sems)
    requires Inv(At(Created(sems))) && Reachable(At(Created(sems)))
    ensures Inv(At(MainSleeps(sems))) && Reachable(At(MainSleeps(sems)))
  {
    var m := At(Created(sems));
    OneSleeper(MAIN);
    hide Inv, Inserted, Reachable, LInv, SleepUntil, IdleBlockStep;
    var k := Abed(m.k, 1);
    assert Next(k).threads == MainSleeps(sems).threads;
    Sleeps(m, 1, MainSleeps(sems));
    ReachableStep(m, Sleep(1));
  }

  lemma SecondAbed(sems: Sems)
    ensures Inserted(MainSleeps(sems).heap, Node(INIT, 1)) == InitSleeps(sems).heap
    ensures Next(Abed(MainSleeps(sems), 1)) == InitSleeps(sems)
  {
    var k := MainSleeps(sems);
    AnotherSleeper(k.heap, INIT);
    hide Inserted;
    assert Next(Abed(k, 1)).threads == InitSleeps(sems).threads;
  }

  lemma SecondSleeps(sems: Sems)
    requires Inv(At(MainSleeps(sems))) && Reachable(At(MainSleeps(sems)))
    ensures Inv(At(InitSleeps(sems))) && Reachable(At(InitSleeps(sems)))
  {
    var m := At(MainSleeps(sems));
    SecondAbed(sems);
    hide Inv, Inserted, Reachable, LInv, SleepUntil, Next;
    Sleeps(m, 1, InitSleeps(sems));
    ReachableStep(m, Sleep(1));
  }

  lemma IdleIsNext(sems: Sems)
    requires Inv(At(InitSleeps(sems))) && Reachable(At(InitSleeps(sems)))
    ensures Inv(At(IdleParked(sems))) && Reachable(At(IdleParked(sems)))
  {
    var m := At(InitSleeps(sems));
    hide Inv, Inserted, Reachable, LInv, SleepUntil, IdleBlockStep;
    assert Next(Parking(m.k)).threads == IdleParked(sems).threads;
    IdleParks(m, IdleParked(sems));
    ReachableStep(m, IdleBlock);
  }

  lemma ThirdAbed(sems: Sems)
    ensures Inserted(IdleParked(sems).heap, Node(WORKER, 1)) == AllSleep(sems, 1, 0).heap
    ensures Next(Abed(IdleParked(sems), 1)) == AllSleep(sems, 1, 0)
  {
    var k := IdleParked(sems);
    AnotherSleeper(k.heap, WORKER);
    hide Inserted;
    assert Next(Abed(k, 1)).threads == AllSleep(sems, 1, 0).threads;
  }

  lemma ThirdSleeps(sems: Sems)
    requires Inv(At(IdleParked(sems))) && Reachable(At(IdleParked(sems)))
    ensures Inv(At(AllSleep(sems, 1, 0))) && Reachable(At(AllSleep(sems, 1, 0)))
  {
    var m := At(IdleParked(sems));
    ThirdAbed(sems);
    hide Inv, Inserted, Reachable, LInv, SleepUntil, Next;
    Sleeps(m, 1, AllSleep(sems, 1, 0));
    ReachableStep(m, Sleep(1));
  }

  lemma OneTick(sems: Sems)
    requires Inv(At(AllSleep(sems, 1, 0))) && Reachable(At(AllSleep(sems, 1, 0)))
    ensures Inv(At(AllSleep(sems, 0, 1))) && Reachable(At(AllSleep(sems, 0, 1)))
  {
    var m := At(AllSleep(sems, 1, 0));
    TickedDown(sems);
    hide Inv, Reachable, LInv, Schedule, Schedulable, TickStep, SetCur, Four;
    TickIs(m, m.k.(now := Wrap(1)));
    assert TickStep(m) == Some(At(AllSleep(sems, 0, 1)));
    ReachableStep(m, Tick);
  }

  lemma TickedDown(sems: Sems)
    ensures var k := AllSleep(sems, 1, 0).(now := Wrap(1));
            IDLE in k.threads && k.cur == IDLE && k.threads[IDLE].ticks == 1 &&
            SetCur(k, k.threads[IDLE].(ticks := 0)) == AllSleep(sems, 0, 1)
  {
    var k := AllSleep(sems, 1, 0).(now := Wrap(1));
    assert SetCur(k, k.threads[IDLE].(ticks := 0)).threads == AllSleep(sems, 0, 1).threads;
  }

  /** From every boot: after six steps the next timer interrupt never returns. */
  lemma HangIsReachable(sems: Sems)
    requires FreshSems(sems)
    ensures var m := At(AllSleep(sems, 0, 1)); Reachable(m) && Inv(m) && Enabled(m, Tick) && Step(m, Tick) == None
  {
    hide Inv, Reachable;
    WorkerIsCreated(sems);
    FirstSleeps(sems);
    SecondSleeps(sems);
    IdleIsNext(sems);
    ThirdSleeps(sems);
    OneTick(sems);
    EqualDeadlinesHang(At(AllSleep(sems, 0, 1)), Wrap(2), 1);
  }
}
