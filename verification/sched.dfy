/** The scheduler (kernel/thread.c): run, block and delay lists, the sleep heap, and the switch.

    The functions here say what each primitive does to the whole state; class Kernel.Cpu carries
    them out on its fields. A primitive that never comes back (a PANIC, or the sleep heap's endless
    loop) is `None`: there is then no later state. */
module Sched {
  import opened Basics
  import opened Lists
  import opened MinHeap

  type Tid = nat
  type SemId = nat

  datatype Status = RUNNING | BLOCKED | HANGING | WAITING | DELAYED | READY | DIED

  /** Where a thread goes on when it gets the processor: in the loop of SemaphoreDec, between the two
      halves of a mutex operation, in the loop of syscall_wait, or anywhere else. */
  datatype Pc = Free | InDec(s: SemId) | Acquired(s: SemId) | Releasing(s: SemId) | InWait

  datatype Thread = Thread(
    pid: nat, parent: nat, status: Status, priority: nat, ticks: nat, deadline: nat,
    code: int, exiting: bool, pc: Pc)

  datatype Sem = Sem(value: nat, wait: seq<Tid>, isMutex: bool, owners: set<Tid>, holder: Option<Tid>)

  datatype K = K(
    threads: map<Tid, Thread>, all: seq<Tid>, ready: seq<Tid>, block: seq<Tid>, delay: seq<Tid>,
    heap: seq<Node>, cur: Tid, idle: Tid, now: nat, nextPid: nat, sems: map<SemId, Sem>)

  const HEAP_MAX: nat := 1024

  predicate Parked(s: Status) { s == BLOCKED || s == HANGING || s == WAITING }

  // ---------- The invariant of the lists ----------

  /** `off` are the threads that are in none of the three lists. */
  ghost predicate ListsOk(k: K, off: set<Tid>)
  {
    NoDup(k.ready) && NoDup(k.block) && NoDup(k.delay) &&
    (forall t :: t in k.ready ==> t in k.threads && k.threads[t].status == READY && t !in off) &&
    (forall t :: t in k.block ==> t in k.threads && Parked(k.threads[t].status) && t !in off) &&
    (forall t :: t in k.delay ==> t in k.threads && k.threads[t].status == DELAYED && t !in off) &&
    (forall t :: t in k.threads && t !in off ==> t in k.ready || t in k.block || t in k.delay)
  }

  /** The heap holds each delayed thread once, with its deadline, and nothing else. */
  ghost predicate HeapOk(k: K)
  {
    |k.heap| >= 1 && Ordered(k.heap) &&
    forall n: Node :: Nodes(k.heap)[n] ==
      if n.ptr in k.delay && n.ptr in k.threads && n.key == k.threads[n.ptr].deadline then 1 else 0
  }

  ghost predicate OthersOk(k: K)
  {
    k.cur in k.threads && k.idle in k.threads &&
    k.threads[k.idle].status in {RUNNING, READY, BLOCKED} &&
    NoDup(k.all) && forall t :: t in k.all <==> t in k.threads
  }

  ghost predicate LInv(k: K, off: set<Tid>)
  {
    ListsOk(k, off) && HeapOk(k) && OthersOk(k)
  }

  /** Between two steps: one thread runs, it is in no list, and every other thread is in the one list
      its status names. */
  ghost predicate SchedInv(k: K)
  {
    LInv(k, {k.cur}) && k.threads[k.cur].status == RUNNING
  }

  lemma ExactlyOneList(k: K, t: Tid)
    requires SchedInv(k) && t in k.threads
    ensures t == k.cur <==> k.threads[t].status == RUNNING
    ensures t in k.ready <==> k.threads[t].status == READY
    ensures t in k.block <==> Parked(k.threads[t].status)
    ensures t in k.delay <==> k.threads[t].status == DELAYED
    ensures k.threads[t].status != DIED
  {}

  // ---------- Primitives ----------

  ghost function SetStatus(k: K, t: Tid, s: Status): K
    requires t in k.threads
  {
    k.(threads := k.threads[t := k.threads[t].(status := s)])
  }

  ghost function ExchangeThreadToReady(k: K, t: Tid): K
    requires t in k.threads
  {
    var th := k.threads[t];
    k.(ready := k.ready + [t], threads := k.threads[t := th.(ticks := th.priority, status := READY)])
  }

  ghost function ThreadUnBlock(k: K, t: Tid): K
    requires t in k.threads && t in k.block
  {
    SetStatus(k, t, READY).(block := Unlink(k.block, t), ready := [t] + k.ready)
  }

  lemma UnBlockKeeps(k: K, t: Tid, off: set<Tid>)
    requires LInv(k, off) && t in k.block
    ensures LInv(ThreadUnBlock(k, t), off)
  {
    UnlinkTakesOne(k.block, t);
    AppendNoDup(k.ready, t);
  }

  lemma ReadyKeeps(k: K, t: Tid, off: set<Tid>)
    requires LInv(k, off) && t in off && t in k.threads
    requires t != k.idle || k.threads[t].status == RUNNING
    ensures LInv(ExchangeThreadToReady(k, t), off - {t})
  {
    AppendNoDup(k.ready, t);
  }

  // ---------- Waking the sleepers ----------

  ghost predicate RootIsDue(k: K)
  {
    |k.heap| > 1 && k.now >= k.heap[1].key
  }

  lemma RootIsDelayed(k: K)
    requires LInv(k, {}) && |k.heap| > 1
    ensures var t := k.heap[1].ptr;
            t in k.delay && t in k.threads && k.heap[1].key == k.threads[t].deadline && t !in k.ready
  {
    var n := k.heap[1];
    assert k.heap[1..][0] == n;
    assert n in Nodes(k.heap);
  }

  /** One round of ProcessDelayThread, provided MinHeapPop returns. */
  ghost function WakeOne(k: K): K
    requires LInv(k, {}) && |k.heap| > 1
  {
    RootIsDelayed(k);
    var t := k.heap[1].ptr;
    ExchangeThreadToReady(k.(heap := Popped(k.heap), delay := Unlink(k.delay, t)), t)
  }

  lemma WakeOneHeap(k: K)
    requires LInv(k, {}) && |k.heap| > 1
    ensures HeapOk(WakeOne(k))
  {
    hide Ordered, Popped, Nodes, NoDup, Unlink;
    RootIsDelayed(k);
    PopCorrect(k.heap);
    UnlinkTakesOne(k.delay, k.heap[1].ptr);
  }

  lemma WakeOneLists(k: K)
    requires LInv(k, {}) && |k.heap| > 1
    ensures ListsOk(WakeOne(k), {})
  {
    hide HeapOk, Popped, Unlink, NoDup;
    RootIsDelayed(k);
    UnlinkTakesOne(k.delay, k.heap[1].ptr);
    AppendNoDup(k.ready, k.heap[1].ptr);
  }

  lemma WakeOneKeeps(k: K)
    requires LInv(k, {}) && |k.heap| > 1
    ensures LInv(WakeOne(k), {})
  {
    hide HeapOk, ListsOk, Popped, Unlink, NoDup;
    RootIsDelayed(k);
    WakeOneHeap(k);
    WakeOneLists(k);
  }

  /** ProcessDelayThread: None if MinHeapPop spins on the way. */
  ghost function ProcessDelayThread(k: K): (r: Option<K>)
    requires LInv(k, {})
    ensures r.Some? ==> LInv(r.value, {})
    decreases |k.heap|
  {
    if !RootIsDue(k) then Some(k)
    else if !PopReturns(k.heap) then None
    else
      WakeOneKeeps(k);
      ProcessDelayThread(WakeOne(k))
  }

  /** The threads one pass wakes, in that order. */
  ghost function Woken(k: K): seq<Tid>
    requires LInv(k, {})
    decreases |k.heap|
  {
    if !RootIsDue(k) || !PopReturns(k.heap) then []
    else
      WakeOneKeeps(k);
      [k.heap[1].ptr] + Woken(WakeOne(k))
  }

  lemma RootIsEarliest(k: K)
    requires LInv(k, {})
    ensures forall t :: t in k.delay ==> |k.heap| > 1 && k.heap[1].key <= k.threads[t].deadline
  {
    if |k.heap| > 1 { PopCorrect(k.heap); }
    forall t | t in k.delay ensures |k.heap| > 1 && k.heap[1].key <= k.threads[t].deadline {
      var n := Node(t, k.threads[t].deadline);
      assert n in Nodes(k.heap);
      var j :| 0 <= j < |k.heap[1..]| && k.heap[1..][j] == n;
      assert k.heap[j + 1] == n;
    }
  }

  lemma WakeOneFacts(k: K)
    requires LInv(k, {}) && |k.heap| > 1
    ensures var t, k' := k.heap[1].ptr, WakeOne(k);
            t in k.delay && t in k.threads && |k'.heap| < |k.heap| && LInv(k', {}) && k'.ready == k.ready + [t] &&
            k'.now == k.now &&
            (forall u :: u in k'.delay <==> u in k.delay && u != t) &&
            k'.threads.Keys == k.threads.Keys &&
            (forall u :: u in k.threads ==> k'.threads[u].deadline == k.threads[u].deadline) &&
            k.threads[t].deadline == k.heap[1].key
  {
    RootIsDelayed(k);
    WakeOneKeeps(k);
    UnlinkTakesOne(k.delay, k.heap[1].ptr);
  }

  lemma DelayedAreThreads(k: K)
    requires LInv(k, {})
    ensures forall t :: t in k.delay ==> t in k.threads
  {}

  lemma Regroup<T>(a: seq<T>, t: T, w: seq<T>)
    ensures a + [t] + w == a + ([t] + w)
  {}

  lemma {:induction false} WokenAppended(k: K)
    requires LInv(k, {}) && ProcessDelayThread(k).Some?
    ensures ProcessDelayThread(k).value.ready == k.ready + Woken(k)
    decreases |k.heap|
  {
    hide LInv, WakeOne;
    if RootIsDue(k) {
      WakeOneFacts(k);
      WokenAppended(WakeOne(k));
      Regroup(k.ready, k.heap[1].ptr, Woken(WakeOne(k)));
    } else {
      assert k.ready + [] == k.ready;
    }
  }

  ghost predicate Due(k: K, t: Tid)
  {
    t in k.delay && t in k.threads && k.threads[t].deadline <= k.now
  }

  lemma DueAfterOne(k: K)
    requires LInv(k, {}) && RootIsDue(k)
    ensures LInv(WakeOne(k), {}) && |WakeOne(k).heap| < |k.heap|
    ensures forall t :: Due(k, t) <==> t == k.heap[1].ptr || Due(WakeOne(k), t)
    ensures forall t :: t in WakeOne(k).delay <==> t in k.delay && t != k.heap[1].ptr
  {
    hide LInv, WakeOne;
    WakeOneFacts(k);
  }

  lemma {:induction false} WokenAreDue(k: K)
    requires LInv(k, {}) && ProcessDelayThread(k).Some?
    ensures forall t :: t in Woken(k) <==> Due(k, t)
    decreases |k.heap|
  {
    if RootIsDue(k) {
      hide LInv, WakeOne, Due;
      DueAfterOne(k);
      WokenAreDue(WakeOne(k));
    } else {
      NobodyIsDue(k);
    }
  }

  lemma NobodyIsDue(k: K)
    requires LInv(k, {}) && !RootIsDue(k)
    ensures forall t :: !Due(k, t)
  {
    RootIsEarliest(k);
    hide LInv;
  }

  lemma {:induction false} SleepersAreNotDue(k: K)
    requires LInv(k, {}) && ProcessDelayThread(k).Some?
    ensures forall t :: t in ProcessDelayThread(k).value.delay <==> t in k.delay && !Due(k, t)
    decreases |k.heap|
  {
    if !RootIsDue(k) {
      NobodyIsDue(k);
    } else {
      assert Due(k, k.heap[1].ptr) by { RootIsDelayed(k); }
      hide LInv, WakeOne, Due;
      DueAfterOne(k);
      SleepersAreNotDue(WakeOne(k));
      RootIsGone(k);
    }
  }

  lemma RootIsGone(k: K)
    requires LInv(k, {}) && RootIsDue(k)
    ensures !Due(WakeOne(k), k.heap[1].ptr)
  {
    hide LInv, WakeOne;
    WakeOneFacts(k);
  }

  ghost predicate InOrder(k: K, w: seq<Tid>)
  {
    (forall i :: 0 <= i < |w| ==> w[i] in k.threads) &&
    forall i, j :: 0 <= i < j < |w| ==> k.threads[w[i]].deadline <= k.threads[w[j]].deadline
  }

  lemma InOrderCons(k: K, k1: K, t: Tid, w: seq<Tid>)
    requires InOrder(k1, w) && t in k.threads
    requires forall u :: u in w ==> u in k.threads && k.threads[t].deadline <= k.threads[u].deadline
    requires forall u :: u in k.threads ==> u in k1.threads && k1.threads[u].deadline == k.threads[u].deadline
    ensures InOrder(k, [t] + w)
  {
    assert forall j :: 0 <= j < |w| ==> w[j] in w;
  }

  lemma {:induction false} WokenInOrder(k: K)
    requires LInv(k, {}) && ProcessDelayThread(k).Some?
    ensures InOrder(k, Woken(k))
    decreases |k.heap|
  {
    RootIsEarliest(k);
    DelayedAreThreads(k);
    hide LInv, WakeOne, InOrder;
    if RootIsDue(k) {
      WakeOneFacts(k);
      var k1 := WakeOne(k);
      WokenInOrder(k1);
      WokenAreDue(k1);
      forall u | u in Woken(k1) ensures u in k.threads && k.threads[k.heap[1].ptr].deadline <= k.threads[u].deadline {
        assert Due(k1, u);
      }
      InOrderCons(k, k1, k.heap[1].ptr, Woken(k1));
    }
  }

  /** One pass of ProcessDelayThread wakes exactly the sleepers whose deadline has come, appends them
      to the ready list in the order of their deadlines, and leaves exactly the others asleep. */
  lemma WakesDueInOrder(k: K)
    requires LInv(k, {}) && ProcessDelayThread(k).Some?
    ensures var k', w := ProcessDelayThread(k).value, Woken(k);
            k'.ready == k.ready + w && InOrder(k, w) &&
            (forall t :: t in w <==> t in k.delay && k.threads[t].deadline <= k.now) &&
            (forall t :: t in k'.delay <==> t in k.delay && k.threads[t].deadline > k.now)
  {
    WokenAppended(k);
    WokenAreDue(k);
    SleepersAreNotDue(k);
    DelayedAreThreads(k);
    WokenInOrder(k);
  }

  // ---------- The switch ----------

  /** What schedule() may be called with: the running thread still counts as running, or is about to
      be parked or delayed, or (Thread_Yield) has put itself on the ready list. */
  ghost predicate Schedulable(k: K)
  {
    k.cur in k.threads &&
    var s := k.threads[k.cur].status;
    if s == READY then LInv(k, {}) else LInv(k, {k.cur}) && (s == RUNNING || Parked(s) || s == DELAYED)
  }

  /** The first half of schedule(): the running thread goes where its status says. None is the assert
      in MinHeapInsert that the heap is not full. */
  ghost function Place(k: K): Option<K>
    requires Schedulable(k)
  {
    var t := k.cur;
    match k.threads[t].status
    case RUNNING => Some(ExchangeThreadToReady(k, t))
    case READY => Some(k)
    case DELAYED =>
      if |k.heap| - 1 < HEAP_MAX
      then Some(k.(delay := k.delay + [t], heap := Inserted(k.heap, Node(t, k.threads[t].deadline))))
      else None
    case _ => Some(k.(block := k.block + [t]))
  }

  lemma DelayingKeeps(k: K)
    requires Schedulable(k) && k.threads[k.cur].status == DELAYED && Place(k).Some?
    ensures LInv(Place(k).value, {})
  {
    hide Ordered, Nodes, Inserted, NoDup;
    AppendNoDup(k.delay, k.cur);
    InsertCorrect(k.heap, Node(k.cur, k.threads[k.cur].deadline));
  }

  lemma ParkingKeeps(k: K)
    requires Schedulable(k) && Parked(k.threads[k.cur].status)
    ensures LInv(Place(k).value, {})
  {
    hide Ordered, Nodes, NoDup;
    AppendNoDup(k.block, k.cur);
  }

  lemma PlaceKeeps(k: K)
    requires Schedulable(k) && Place(k).Some?
    ensures LInv(Place(k).value, {})
  {
    hide LInv;
    if k.threads[k.cur].status == RUNNING {
      ReadyKeeps(k, k.cur, {k.cur});
      assert {k.cur} - {k.cur} == {};
    } else if k.threads[k.cur].status == DELAYED {
      DelayingKeeps(k);
    } else if k.threads[k.cur].status != READY {
      ParkingKeeps(k);
    }
  }

  /** If nothing is ready the idle task is parked, so that it can be woken. */
  lemma IdleIsParked(k: K)
    requires LInv(k, {}) && k.ready == []
    ensures k.idle in k.threads && k.idle in k.block
  {}

  ghost function WakeIdle(k: K): (r: K)
    requires LInv(k, {})
    ensures LInv(r, {}) && r.ready != []
  {
    if k.ready == [] then
      IdleIsParked(k);
      UnBlockKeeps(k, k.idle, {});
      ThreadUnBlock(k, k.idle)
    else k
  }

  /** The ready list is not empty when the next thread is popped off it. */
  lemma NextExists(k: K)
    requires LInv(k, {}) && k.ready != [] && ProcessDelayThread(k).Some?
    ensures ProcessDelayThread(k).value.ready != []
  {
    WokenAppended(k);
  }

  ghost function Dispatch(k: K): K
    requires LInv(k, {}) && k.ready != []
  {
    var nxt := k.ready[0];
    SetStatus(k, nxt, RUNNING).(ready := k.ready[1..], cur := nxt)
  }

  lemma DispatchKeeps(k: K)
    requires LInv(k, {}) && k.ready != []
    ensures SchedInv(Dispatch(k))
  {
    assert k.ready == [k.ready[0]] + k.ready[1..];
  }

  ghost function Schedule(k: K): (r: Option<K>)
    requires Schedulable(k)
    ensures r.Some? ==> SchedInv(r.value)
  {
    match Place(k)
    case None => None
    case Some(p) =>
      PlaceKeeps(k);
      match ProcessDelayThread(WakeIdle(p))
      case None => None
      case Some(w) =>
        NextExists(WakeIdle(p));
        DispatchKeeps(w);
        Some(Dispatch(w))
  }

  // ---------- What scheduling leaves alone ----------

  /** Only statuses and time slices change. Nobody is parked or put to sleep, no thread but the idle
      task is unparked, and no sleeper is woken before its deadline. */
  ghost predicate Calm(k: K, k': K)
  {
    k' == k.(threads := k'.threads, ready := k'.ready, block := k'.block, delay := k'.delay, heap := k'.heap,
             cur := k'.cur) &&
    k'.threads.Keys == k.threads.Keys &&
    forall t :: t in k.threads ==> CalmThread(k, t, k.threads[t], k'.threads[t])
  }

  ghost predicate CalmThread(k: K, t: Tid, th: Thread, th': Thread)
  {
    th' == th.(status := th'.status, ticks := th'.ticks) &&
    (th'.status == DELAYED ==> th.status == DELAYED) &&
    (th.status == DELAYED && th'.status != DELAYED ==> k.now >= th.deadline) &&
    (t != k.idle && (Parked(th.status) || Parked(th'.status)) ==> th.status == th'.status)
  }

  lemma CalmTransitive(a: K, b: K, c: K)
    requires Calm(a, b) && Calm(b, c)
    ensures Calm(a, c)
  {
    forall t | t in a.threads ensures CalmThread(a, t, a.threads[t], c.threads[t]) {
      assert CalmThread(a, t, a.threads[t], b.threads[t]) && CalmThread(b, t, b.threads[t], c.threads[t]);
    }
  }

  lemma WakeOneIsCalm(k: K)
    requires LInv(k, {}) && RootIsDue(k)
    ensures Calm(k, WakeOne(k))
  {
    hide HeapOk, Popped, Unlink, Nodes, Ordered, NoDup;
    RootIsDelayed(k);
  }

  lemma {:induction false} WakingIsCalm(k: K)
    requires LInv(k, {}) && ProcessDelayThread(k).Some?
    ensures Calm(k, ProcessDelayThread(k).value)
    decreases |k.heap|
  {
    hide LInv, WakeOne, CalmThread;
    if RootIsDue(k) {
      WakeOneIsCalm(k);
      WakeOneFacts(k);
      WakingIsCalm(WakeOne(k));
      CalmTransitive(k, WakeOne(k), ProcessDelayThread(k).value);
    } else {
      CalmReflexive(k);
    }
  }

  lemma CalmReflexive(k: K)
    ensures Calm(k, k)
  {}

  lemma PlaceIsCalm(k: K)
    requires Schedulable(k) && Place(k).Some?
    ensures Calm(k, Place(k).value)
  {
    hide LInv, Inserted;
  }

  lemma WakeIdleIsCalm(k: K)
    requires LInv(k, {})
    ensures Calm(k, WakeIdle(k))
  {
    hide HeapOk, Unlink, NoDup;
    if k.ready == [] { IdleIsParked(k); }
  }

  lemma DispatchIsCalm(k: K)
    requires LInv(k, {}) && k.ready != []
    ensures Calm(k, Dispatch(k))
  {
    hide HeapOk, OthersOk, NoDup;
    assert k.ready[0] in k.ready;
  }

  lemma ScheduleIsCalm(k: K)
    requires Schedulable(k) && Schedule(k).Some?
    ensures Calm(k, Schedule(k).value)
  {
    PlaceKeeps(k);
    PlaceIsCalm(k);
    var p := Place(k).value;
    hide Place, WakeIdle, Dispatch, LInv, Calm, ProcessDelayThread;
    var q := WakeIdle(p);
    var w := ProcessDelayThread(q).value;
    WakeIdleIsCalm(p);
    WakingIsCalm(q);
    NextExists(q);
    DispatchIsCalm(w);
    CalmTransitive(k, p, q);
    CalmTransitive(k, q, w);
    CalmTransitive(k, w, Dispatch(w));
  }

  lemma NobodyDueLeft(q: K)
    requires LInv(q, {}) && ProcessDelayThread(q).Some?
    ensures var w := ProcessDelayThread(q).value;
            w.now == q.now && forall t :: t in w.delay ==> t in w.threads && w.threads[t].deadline > w.now
  {
    WakesDueInOrder(q);
    WakingIsCalm(q);
    var w := ProcessDelayThread(q).value;
    DelayedAreThreads(q);
    hide LInv, ProcessDelayThread;
    forall t | t in w.delay ensures t in w.threads && w.threads[t].deadline > w.now {
      assert t in q.delay;
      assert CalmThread(q, t, q.threads[t], w.threads[t]);
    }
  }

  lemma DispatchLeavesSleepers(w: K)
    requires LInv(w, {}) && w.ready != []
    requires forall t :: t in w.delay ==> t in w.threads && w.threads[t].deadline > w.now
    ensures var d := Dispatch(w);
            forall t :: t in d.threads && d.threads[t].status == DELAYED ==> d.threads[t].deadline > d.now
  {
    hide HeapOk, OthersOk, NoDup;
    forall t | t in w.threads && w.threads[t].status == DELAYED ensures t in w.delay {}
  }

  /** Once scheduled, nobody who is still asleep is due. */
  lemma ScheduleWakesAllDue(k: K)
    requires Schedulable(k) && Schedule(k).Some?
    ensures var k' := Schedule(k).value;
            forall t :: t in k'.threads && k'.threads[t].status == DELAYED ==> k'.threads[t].deadline > k'.now
  {
    PlaceKeeps(k);
    var q := WakeIdle(Place(k).value);
    hide Place, WakeIdle, Dispatch, LInv, ProcessDelayThread;
    NobodyDueLeft(q);
    NextExists(q);
    DispatchLeavesSleepers(ProcessDelayThread(q).value);
  }

  // ---------- In which order threads run ----------

  /** The first thread on the ready list runs next, the others move up by one, and those that are woken
      come behind them. */
  lemma PassOrder(k: K)
    requires Schedulable(k) && Schedule(k).Some? && Place(k).value.ready != []
    ensures LInv(Place(k).value, {})
    ensures var p, k' := Place(k).value, Schedule(k).value;
            k'.cur == p.ready[0] && k'.ready == p.ready[1..] + Woken(p)
  {
    PlaceKeeps(k);
    var p := Place(k).value;
    assert WakeIdle(p) == p;
    hide Place, LInv, WakeIdle, Woken, ProcessDelayThread;
    WokenAppended(p);
    NextExists(p);
    TailOfConcat(p.ready, Woken(p));
  }

  lemma TailOfConcat(a: seq<Tid>, b: seq<Tid>)
    requires a != []
    ensures (a + b)[0] == a[0] && (a + b)[1..] == a[1..] + b
  {}

  /** Whoever is not asleep is left alone by the pass over the sleepers. */
  lemma {:induction false} WakingLeavesOthers(k: K, t: Tid)
    requires LInv(k, {}) && ProcessDelayThread(k).Some? && t in k.threads && t !in k.delay
    ensures t in ProcessDelayThread(k).value.threads && ProcessDelayThread(k).value.threads[t] == k.threads[t]
    decreases |k.heap|
  {
    if RootIsDue(k) {
      WakeOneFacts(k);
      WakeOneLeavesOthers(k, t);
      hide LInv, WakeOne;
      WakingLeavesOthers(WakeOne(k), t);
    }
  }

  lemma WakeOneLeavesOthers(k: K, t: Tid)
    requires LInv(k, {}) && |k.heap| > 1 && t in k.threads && t !in k.delay
    ensures t in WakeOne(k).threads && WakeOne(k).threads[t] == k.threads[t]
  {
    RootIsDelayed(k);
    hide LInv, Popped, Unlink;
  }

  /** Preemption is round robin: the thread whose time is up goes to the end of the ready list with a new
      time slice, and the thread that has been there longest runs next. */
  lemma RoundRobin(k: K)
    requires Schedulable(k) && k.threads[k.cur].status == RUNNING && Schedule(k).Some?
    ensures var k' := Schedule(k).value;
            k'.cur == (k.ready + [k.cur])[0] && (k.ready + [k.cur])[1..] <= k'.ready &&
            k.cur in k'.threads && k'.threads[k.cur].ticks == k.threads[k.cur].priority
  {
    PassOrder(k);
    var p := Place(k).value;
    assert p == ExchangeThreadToReady(k, k.cur) && p.ready == k.ready + [k.cur];
    ReadyIsNotDelayed(p, k.cur);
    WakingLeavesOthers(p, k.cur);
    hide LInv, WakeIdle, Woken, ProcessDelayThread, ExchangeThreadToReady;
    SlicesStand(k, p);
  }

  lemma ReadyIsNotDelayed(k: K, t: Tid)
    requires LInv(k, {}) && t in k.threads && k.threads[t].status == READY
    ensures t !in k.delay
  {}

  lemma SlicesStand(k: K, p: K)
    requires Schedulable(k) && Schedule(k).Some? && Place(k) == Some(p) && p.ready != [] && LInv(p, {})
    requires k.cur in p.threads && ProcessDelayThread(p).Some? ==>
               k.cur in ProcessDelayThread(p).value.threads &&
               ProcessDelayThread(p).value.threads[k.cur] == p.threads[k.cur]
    requires k.cur in p.threads
    ensures k.cur in Schedule(k).value.threads && Schedule(k).value.threads[k.cur].ticks == p.threads[k.cur].ticks
  {
    assert WakeIdle(p) == p;
    hide LInv, WakeIdle, Place, ProcessDelayThread;
  }
}
