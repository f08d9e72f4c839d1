/** What a switch of the processor leaves behind (schedule in kernel/thread.c), thread by thread. */
module Switching {
  import opened Basics
  import opened Lists
  import opened MinHeap
  import opened Sched

  /** Asleep, and the time has come. */
  ghost predicate Overdue(k: K, t: Tid)
  {
    t in k.threads && k.threads[t].status == DELAYED && k.threads[t].deadline <= k.now
  }

  /** The threads `w` are those that were overdue, in the order of their deadlines. */
  ghost predicate WakesAll(k: K, w: seq<Tid>)
  {
    NoDup(w) && (forall t :: t in w <==> Overdue(k, t)) &&
    forall i, j :: 0 <= i < j < |w| && w[i] in k.threads && w[j] in k.threads ==>
      k.threads[w[i]].deadline <= k.threads[w[j]].deadline
  }

  /** The ready threads, or the idle task if there is none. */
  ghost function Line(k: K): (r: seq<Tid>)
    ensures r != []
  {
    if k.ready == [] then [k.idle] else k.ready
  }

  /** Nobody runs in `k`; in `k'` the first of the line does, the others move up, those who were overdue
      stand behind them with a new time slice, and nothing else has changed. */
  ghost predicate HandedOn(k: K, k': K, w: seq<Tid>)
  {
    WakesAll(k, w) && k'.cur == Line(k)[0] && k'.ready == Line(k)[1..] + w &&
    k' == k.(threads := k'.threads, ready := k'.ready, block := k'.block, delay := k'.delay, heap := k'.heap,
             cur := k'.cur) &&
    k'.threads.Keys == k.threads.Keys &&
    (forall t :: t in k.threads ==>
       k'.threads[t] ==
         if t == k'.cur then k.threads[t].(status := RUNNING)
         else if t in w then k.threads[t].(status := READY, ticks := k.threads[t].priority)
         else k.threads[t]) &&
    (forall t :: t in k'.block <==> t in k.block && !(k.ready == [] && t == k.idle)) &&
    forall t :: t in k'.delay <==> t in k.delay && t !in w
  }

  /** Where the running thread goes: to the end of the ready list with a new time slice, to sleep, or to
      the blocked threads. If it is ready it is in its list already. */
  ghost predicate PutAside(k: K, k1: K)
  {
    k.cur in k.threads &&
    var me := k.threads[k.cur];
    match me.status
    case RUNNING =>
      k1 == k.(threads := k.threads[k.cur := me.(status := READY, ticks := me.priority)], ready := k.ready + [k.cur])
    case READY => k1 == k
    case DELAYED =>
      k1 == k.(delay := k.delay + [k.cur], heap := k1.heap) && |k.heap| >= 1 && |k1.heap| >= 1 &&
      Nodes(k1.heap) == Nodes(k.heap) + multiset{Node(k.cur, me.deadline)}
    case _ => k1 == k.(block := k.block + [k.cur])
  }

  ghost predicate SwitchedTo(k: K, k': K)
  {
    exists k1: K, w: seq<Tid> :: PutAside(k, k1) && HandedOn(k1, k', w)
  }

  // ---------- schedule() is such a switch ----------

  lemma {:induction false} PassIs(k: K)
    requires LInv(k, {}) && ProcessDelayThread(k).Some?
    ensures var k' := ProcessDelayThread(k).value;
            k' == k.(threads := k'.threads, ready := k'.ready, delay := k'.delay, heap := k'.heap) &&
            k'.threads.Keys == k.threads.Keys &&
            forall t :: t in k.threads ==>
              k'.threads[t] ==
                if t in Woken(k) then k.threads[t].(status := READY, ticks := k.threads[t].priority) else k.threads[t]
    decreases |k.heap|
  {
    hide LInv, WakeOne;
    if RootIsDue(k) {
      WakeOneFacts(k);
      OneWokenIs(k);
      var k1, t0 := WakeOne(k), k.heap[1].ptr;
      PassIs(k1);
      WokenAreDue(k1);
      forall t | t in k.threads
        ensures t in Woken(k) <==> t == t0 || t in Woken(k1)
        ensures t == t0 ==> t !in Woken(k1)
      {
        assert t in Woken(k1) <==> Due(k1, t);
      }
    }
  }

  lemma OneWokenIs(k: K)
    requires LInv(k, {}) && |k.heap| > 1
    ensures var k', t := WakeOne(k), k.heap[1].ptr;
            t in k.threads && t !in k'.delay &&
            k' == k.(threads := k.threads[t := k.threads[t].(status := READY, ticks := k.threads[t].priority)],
                     ready := k'.ready, delay := k'.delay, heap := k'.heap)
  {
    WakeOneFacts(k);
  }

  lemma {:induction false} WokenOnce(k: K)
    requires LInv(k, {}) && ProcessDelayThread(k).Some?
    ensures NoDup(Woken(k))
    decreases |k.heap|
  {
    hide LInv, WakeOne;
    if RootIsDue(k) {
      WakeOneFacts(k);
      var k1 := WakeOne(k);
      WokenOnce(k1);
      WokenAreDue(k1);
      assert k.heap[1].ptr !in Woken(k1) by { assert !Due(k1, k.heap[1].ptr); }
      AppendNoDup(Woken(k1), k.heap[1].ptr);
    }
  }

  lemma DueIsOverdue(k: K)
    requires LInv(k, {})
    ensures forall t :: Overdue(k, t) <==> t in k.delay && k.threads[t].deadline <= k.now
  {}

  lemma PassWakesAll(k: K)
    requires LInv(k, {}) && ProcessDelayThread(k).Some?
    ensures WakesAll(k, Woken(k))
    ensures var k' := ProcessDelayThread(k).value;
            k'.ready == k.ready + Woken(k) && forall t :: t in k'.delay <==> t in k.delay && t !in Woken(k)
  {
    WakesDueInOrder(k);
    WokenOnce(k);
    DueIsOverdue(k);
    hide LInv, Woken, ProcessDelayThread, NoDup, InOrder, Overdue, WakesAll;
    InOrderWakesAll(k, Woken(k));
  }

  lemma InOrderWakesAll(k: K, w: seq<Tid>)
    requires NoDup(w) && InOrder(k, w) && forall t :: t in w <==> Overdue(k, t)
    ensures WakesAll(k, w)
  {}

  /** `q` is `k` with the idle task woken if nobody was ready. */
  ghost predicate IdleWoken(k: K, q: K)
  {
    k.idle in k.threads && (k.ready == [] ==> k.threads[k.idle].status == BLOCKED && k.idle in k.block) &&
    q == (if k.ready == []
          then k.(threads := k.threads[k.idle := k.threads[k.idle].(status := READY)], ready := [k.idle],
                  block := q.block)
          else k) &&
    forall t :: t in q.block <==> t in k.block && !(k.ready == [] && t == k.idle)
  }

  lemma WakeIdleIs(k: K)
    requires LInv(k, {})
    ensures IdleWoken(k, WakeIdle(k))
  {
    if k.ready == [] {
      IdleIsParked(k);
      UnlinkTakesOne(k.block, k.idle);
      assert [k.idle] + k.ready == [k.idle];
    }
  }

  lemma SameOverdue(k: K, q: K, w: seq<Tid>)
    requires IdleWoken(k, q) && WakesAll(q, w)
    ensures WakesAll(k, w)
  {
    forall t ensures Overdue(k, t) <==> Overdue(q, t) {}
  }

  lemma LineIsAwake(k: K)
    requires LInv(k, {})
    ensures var t := Line(k)[0]; t in k.threads && !Overdue(k, t)
  {
    if k.ready == [] { IdleIsParked(k); } else { assert k.ready[0] in k.ready; }
  }

  lemma HandedOnFrom(k: K, q: K, w: K, woken: seq<Tid>, d: K)
    requires IdleWoken(k, q) && WakesAll(k, woken) && Line(k)[0] in k.threads && Line(k)[0] !in woken
    requires w == q.(threads := w.threads, ready := q.ready + woken, delay := w.delay, heap := w.heap)
    requires w.threads.Keys == q.threads.Keys
    requires forall t :: t in q.threads ==>
               w.threads[t] ==
                 if t in woken then q.threads[t].(status := READY, ticks := q.threads[t].priority) else q.threads[t]
    requires forall t :: t in w.delay <==> t in q.delay && t !in woken
    requires d == w.(threads := w.threads[Line(k)[0] := w.threads[Line(k)[0]].(status := RUNNING)],
                     ready := Line(k)[1..] + woken, cur := Line(k)[0])
    ensures HandedOn(k, d, woken)
  {
    hide WakesAll;
  }

  /** From a state in which nobody runs and everybody is in a list. */
  lemma HandingOn(k: K)
    requires LInv(k, {}) && ProcessDelayThread(WakeIdle(k)).Some?
    ensures var w := ProcessDelayThread(WakeIdle(k)).value;
            LInv(w, {}) && w.ready != [] && HandedOn(k, Dispatch(w), Woken(WakeIdle(k)))
  {
    var q := WakeIdle(k);
    var w, woken := ProcessDelayThread(q).value, Woken(q);
    WakeIdleIs(k);
    PassIs(q);
    PassWakesAll(q);
    NextExists(q);
    LineIsAwake(k);
    hide LInv, WakeIdle, ProcessDelayThread, Woken, WakesAll;
    TailOfConcat(q.ready, woken);
    assert q.ready == Line(k);
    SameOverdue(k, q, woken);
    assert Line(k)[0] !in woken by { NotWoken(k, woken, Line(k)[0]); }
    HandedOnFrom(k, q, w, woken, Dispatch(w));
  }

  lemma NotWoken(k: K, w: seq<Tid>, t: Tid)
    requires WakesAll(k, w) && !Overdue(k, t)
    ensures t !in w
  {}

  lemma PlaceIs(k: K)
    requires Schedulable(k) && Place(k).Some?
    ensures PutAside(k, Place(k).value)
  {
    hide Inserted, Ordered, Nodes;
    if k.threads[k.cur].status == DELAYED { InsertCorrect(k.heap, Node(k.cur, k.threads[k.cur].deadline)); }
  }

  /** schedule() passes the processor on just so. */
  lemma ScheduleIs(k: K)
    requires Schedulable(k) && Schedule(k).Some?
    ensures SwitchedTo(k, Schedule(k).value)
  {
    PlaceKeeps(k);
    PlaceIs(k);
    var p := Place(k).value;
    HandingOn(p);
    hide Schedulable, Place, LInv, WakeIdle, ProcessDelayThread, Woken, PutAside, HandedOn;
    assert HandedOn(p, Schedule(k).value, Woken(WakeIdle(p)));
  }

  // ---------- When it returns ----------

  /** MinHeapPop returns each time it is called for a sleeper that is due. */
  ghost predicate PopsReturn(h: seq<Node>, now: nat)
    requires |h| >= 1
    decreases |h|
  {
    |h| == 1 || now < h[1].key || (PopReturns(h) && PopsReturn(Popped(h), now))
  }

  lemma {:induction false} PassReturns(k: K)
    requires LInv(k, {})
    ensures |k.heap| >= 1 && (ProcessDelayThread(k).Some? <==> PopsReturn(k.heap, k.now))
    decreases |k.heap|
  {
    HeapIsThere(k);
    if RootIsDue(k) {
      WakeOneKeeps(k);
      WakeOneHeapIs(k);
      hide LInv, WakeOne;
      if PopReturns(k.heap) { PassReturns(WakeOne(k)); }
    }
  }

  lemma HeapIsThere(k: K)
    requires LInv(k, {})
    ensures |k.heap| >= 1
  {}

  lemma WakeOneHeapIs(k: K)
    requires LInv(k, {}) && |k.heap| > 1
    ensures WakeOne(k).heap == Popped(k.heap) && WakeOne(k).now == k.now && |Popped(k.heap)| == |k.heap| - 1
  {
    RootIsDelayed(k);
  }

  /** schedule() returns exactly if there is room on the heap for the running thread, should it go to sleep,
      and every MinHeapPop returns. */
  lemma ScheduleReturns(k: K)
    requires Schedulable(k)
    ensures |k.heap| >= 1
    ensures var me := k.threads[k.cur];
            Schedule(k).Some? <==>
              if me.status == DELAYED
              then |k.heap| <= HEAP_MAX && PopsReturn(Inserted(k.heap, Node(k.cur, me.deadline)), k.now)
              else PopsReturn(k.heap, k.now)
  {
    PlaceReturns(k);
    if Place(k).Some? {
      PlaceKeeps(k);
      var p := Place(k).value;
      PlacedHeap(k, p);
      WakeIdleHeap(p);
      ReturnsIfThePassDoes(k, p);
      hide LInv, Schedulable, Schedule, Place, WakeIdle, ProcessDelayThread, Inserted, PopsReturn;
      PassReturns(WakeIdle(p));
    }
  }

  lemma PlaceReturns(k: K)
    requires Schedulable(k)
    ensures |k.heap| >= 1
    ensures Place(k).Some? <==> (k.threads[k.cur].status == DELAYED ==> |k.heap| <= HEAP_MAX)
    ensures Place(k).None? ==> Schedule(k).None?
  {
    hide Inserted;
  }

  lemma ReturnsIfThePassDoes(k: K, p: K)
    requires Schedulable(k) && Place(k) == Some(p) && LInv(p, {})
    ensures Schedule(k).Some? <==> ProcessDelayThread(WakeIdle(p)).Some?
  {
    hide LInv, Place, WakeIdle, ProcessDelayThread, Dispatch;
  }

  lemma PlacedHeap(k: K, p: K)
    requires Schedulable(k) && Place(k) == Some(p)
    ensures |k.heap| >= 1 && p.now == k.now
    ensures p.heap ==
              if k.threads[k.cur].status == DELAYED then Inserted(k.heap, Node(k.cur, k.threads[k.cur].deadline))
              else k.heap
  {
    hide Inserted;
  }

  lemma WakeIdleHeap(k: K)
    requires LInv(k, {})
    ensures WakeIdle(k).heap == k.heap && WakeIdle(k).now == k.now
  {}
}
