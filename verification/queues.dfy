/** What the waiting queue and the value of a semaphore do over whole runs (kernel/thread.c). */
module Queues {
  import opened Basics
  import opened Lists
  import opened Sched
  import opened Machine
  import opened Semaphore
  import opened Process
  import opened Dying
  import opened Runs

  /** The value and the queue of `s` after the step `op` of thread `cur`. */
  ghost predicate SemStep(a: Sem, b: Sem, s: SemId, op: Op, cur: Tid)
  {
    b.value == a.value + (if op == Up(s) then 1 else 0) - (if op == Down(s) && a.value > 0 then 1 else 0) &&
    b.wait == (if op == Down(s) && a.value == 0 then a.wait + [cur]
               else if op == Up(s) && a.wait != [] then a.wait[1..] else a.wait)
  }

  lemma SchedulingKeepsSems(m: M, k1: K)
    requires Schedulable(k1) && Rescheduled(m, k1).Some?
    ensures Rescheduled(m, k1).value.k.sems == k1.sems
  {
    ScheduleIsCalm(k1);
    hide Schedule, Schedulable;
  }

  lemma TickSems(m: M, now: nat)
    requires Inv(m) && TickTo(m, now).Some?
    ensures TickTo(m, now).value.k.sems == m.k.sems
  {
    CurRuns(m);
    hide Inv, Rescheduled, Schedulable, OneTickLess;
    if m.k.threads[m.k.cur].ticks == 0 {
      TimePasses(m, now);
      SchedulingKeepsSems(m, m.k.(now := now));
    }
  }

  lemma MovedSems(m: M, th: Thread)
    requires Inv(m) && Schedulable(Moved(m.k, th, m.k.now)) && Rescheduled(m, Moved(m.k, th, m.k.now)).Some?
    ensures Rescheduled(m, Moved(m.k, th, m.k.now)).value.k.sems == m.k.sems
  {
    hide Inv, Rescheduled, Schedulable;
    SchedulingKeepsSems(m, Moved(m.k, th, m.k.now));
  }

  lemma IdleSems(m: M)
    requires Inv(m) && m.k.cur == m.k.idle && IdleBlockStep(m).Some?
    ensures IdleBlockStep(m).value.k.sems == m.k.sems
  {
    hide Inv, Rescheduled, Schedulable, Unnoticed;
    CurRuns(m);
    var th := m.k.threads[m.k.cur].(status := BLOCKED);
    Gentle(m, th);
    MoveAndSchedule(m, th, m.k.now);
    MovedSems(m, th);
  }

  lemma SleepSems(m: M, d: nat)
    requires Inv(m) && m.k.cur != m.k.idle && SleepUntil(m, d).Some?
    ensures SleepUntil(m, d).value.k.sems == m.k.sems
  {
    hide Inv, Rescheduled, Schedulable, Unnoticed;
    CurRuns(m);
    var th := m.k.threads[m.k.cur].(status := DELAYED, deadline := d);
    Gentle(m, th);
    MoveAndSchedule(m, th, m.k.now);
    MovedSems(m, th);
  }

  lemma YieldSems(m: M)
    requires Inv(m) && m.k.cur != m.k.idle && YieldStep(m).Some?
    ensures YieldStep(m).value.k.sems == m.k.sems
  {
    hide Inv, Rescheduled, Schedulable, RestOk;
    CurRuns(m);
    YieldingKeeps(m);
    SchedulingKeepsSems(m, Yielding(m.k));
  }

  lemma DownSems(m: M, s: SemId, z: SemId)
    requires Inv(m) && MayTry(m.k, s) && DownStep(m, s).Some? && z in m.k.sems
    ensures z in DownStep(m, s).value.k.sems
    ensures SemStep(m.k.sems[z], DownStep(m, s).value.k.sems[z], z, Down(s), m.k.cur)
  {
    hide Inv, Rescheduled, Schedulable, RestOk;
    if m.k.sems[s].value == 0 {
      EnqueuingKeeps(m, s);
      SchedulingKeepsSems(m, Enqueued(m.k, s));
    }
  }

  lemma RaisedSems(k: K, s: SemId, z: SemId)
    requires s in k.sems && k.cur in k.threads && z in k.sems
    ensures z in Raised(k, s).sems && Raised(k, s).sems[z].wait == k.sems[z].wait
    ensures Raised(k, s).sems[z].value == k.sems[z].value + if z == s then 1 else 0
  {}

  lemma FirstWokenSems(k: K, s: SemId, z: SemId)
    requires s in k.sems && k.sems[s].wait != [] && k.sems[s].wait[0] in k.threads && k.sems[s].wait[0] in k.block
    requires z in k.sems
    ensures s in FirstWoken(k, s).sems && z in FirstWoken(k, s).sems && FirstWoken(k, s).cur == k.cur
    ensures FirstWoken(k, s).threads.Keys == k.threads.Keys
    ensures FirstWoken(k, s).sems[z].value == k.sems[z].value
    ensures FirstWoken(k, s).sems[z].wait == if z == s then k.sems[z].wait[1..] else k.sems[z].wait
  {
    hide Unlink;
  }

  lemma UpSems(m: M, s: SemId, z: SemId)
    requires Inv(m) && MayRaise(m.k, s) && UpStep(m, s).Some? && z in m.k.sems
    ensures z in UpStep(m, s).value.k.sems && SemStep(m.k.sems[z], UpStep(m, s).value.k.sems[z], z, Up(s), m.k.cur)
  {
    hide Inv, Slack, Raised, FirstWoken;
    if m.k.sems[s].wait == [] {
      RaisedSems(m.k, s, z);
    } else {
      WaiterIsBlocked(m, s);
      FirstWokenSems(m.k, s, z);
      RaisedSems(FirstWoken(m.k, s), s, z);
    }
  }

  lemma WaitSems(m: M)
    requires Inv(m) && MayWait(m.k) && WaitStep(m).Some?
    ensures WaitStep(m).value.k.sems == m.k.sems
  {
    hide Inv, Rescheduled, Schedulable, RestOk, FindHanging, HasChild;
    var me := m.k.threads[m.k.cur];
    if FindHanging(m.k.all, m.k.threads, me.pid).None? && HasChild(m.k.threads, me.pid) {
      WaitingKeeps(m);
      SchedulingKeepsSems(m, SetCur(m.k, me.(status := WAITING, pc := InWait)));
    }
  }

  lemma ExitEndSems(m: M)
    requires Inv(m) && MayHang(m.k) && ExitEndStep(m).Some?
    ensures ExitEndStep(m).value.k.sems == m.k.sems
  {
    hide Inv, Rescheduled, Schedulable, RestOk, FindPid;
    ParentIsFound(m);
    ExitEndIsOrderly(m);
    var f := FindPid(m.k.all, m.k.threads, m.k.threads[m.k.cur].parent).value;
    SchedulingKeepsSems(m, Hung(ParentWoken(m.k, f)));
  }

  lemma HolderOnly(k: K, s: SemId, holder: Option<Tid>, z: SemId, op: Op)
    requires s in k.sems && z in k.sems && (op.SetHolder? || op.ClearHolder?)
    ensures var sems1 := k.sems[s := k.sems[s].(holder := holder)];
            z in sems1 && SemStep(k.sems[z], sems1[z], z, op, k.cur)
  {}

  lemma SetHolderSems(m: M, z: SemId)
    requires Inv(m) && m.k.threads[m.k.cur].pc.Acquired? && z in m.k.sems
    ensures z in SetHolderStep(m).k.sems && SemStep(m.k.sems[z], SetHolderStep(m).k.sems[z], z, SetHolder, m.k.cur)
  {
    CurPc(m);
    hide Inv, SemStep;
    HolderOnly(m.k, m.k.threads[m.k.cur].pc.s, Some(m.k.cur), z, SetHolder);
  }

  lemma ClearHolderSems(m: M, s: SemId, z: SemId)
    requires Inv(m) && m.k.cur != m.k.idle && m.k.threads[m.k.cur].pc == Free && z in m.k.sems
    requires s in m.k.sems && m.k.sems[s].isMutex && m.k.cur in m.k.sems[s].owners
    ensures z in ClearHolderStep(m, s).k.sems
    ensures SemStep(m.k.sems[z], ClearHolderStep(m, s).k.sems[z], z, ClearHolder(s), m.k.cur)
  {
    CurPc(m);
    hide Inv, SemStep;
    HolderOnly(m.k, s, None, z, ClearHolder(s));
  }

  lemma StepSems(m: M, op: Op, z: SemId)
    requires Inv(m) && Enabled(m, op) && Step(m, op).Some? && z in m.k.sems
    ensures z in Step(m, op).value.k.sems && SemStep(m.k.sems[z], Step(m, op).value.k.sems[z], z, op, m.k.cur)
  {
    hide Inv, TickTo, Wrap, YieldStep, IdleBlockStep, SleepUntil, DownStep, UpStep, WaitStep, ExitEndStep, Leaving,
         SetHolderStep, ClearHolderStep, DieStep;
    match op
    case Tick => TickSems(m, Wrap(m.k.now + 1));
    case Yield => YieldSems(m);
    case IdleBlock => IdleSems(m);
    case Sleep(ms) => SleepSems(m, Wrap(ms + m.k.now));
    case Down(s) => DownSems(m, s, z);
    case Up(s) => UpSems(m, s, z);
    case Wait => WaitSems(m);
    case ExitEnd => ExitEndSems(m);
    case Die => DyingLeavesSems(m);
    case Create(_, _) =>
    case Fork(_) =>
    case ExitBegin(_) =>
    case SetHolder => SetHolderSems(m, z);
    case ClearHolder(s) => ClearHolderSems(m, s, z);
  }

  // ---------- Over a run ----------

  /** Units given to and taken from `s`, and threads that joined and left its queue, in a run. */
  datatype Tally = Tally(given: nat, taken: nat, joined: seq<Tid>, left: seq<Tid>)

  ghost function Counted(m: M, ops: seq<Op>, s: SemId): Tally
    requires Inv(m) && Run(m, ops).Some? && s in m.k.sems
    decreases |ops|
  {
    if ops == [] then Tally(0, 0, [], [])
    else
      StepKeeps(m, ops[0]);
      StepSems(m, ops[0], s);
      var r, a := Counted(Step(m, ops[0]).value, ops[1..], s), m.k.sems[s];
      if ops[0] == Up(s) then r.(given := r.given + 1, left := (if a.wait != [] then [a.wait[0]] else []) + r.left)
      else if ops[0] == Down(s) && a.value > 0 then r.(taken := r.taken + 1)
      else if ops[0] == Down(s) then r.(joined := [m.k.cur] + r.joined)
      else r
  }

  /** No unit is lost or made, and the queue is first in, first out. */
  lemma {:induction false} UnitsAndQueue(m: M, ops: seq<Op>, s: SemId)
    requires Inv(m) && Run(m, ops).Some? && s in m.k.sems
    ensures s in Run(m, ops).value.k.sems
    ensures var a, b, c := m.k.sems[s], Run(m, ops).value.k.sems[s], Counted(m, ops, s);
            b.value + c.taken == a.value + c.given && a.wait + c.joined == c.left + b.wait
    decreases |ops|
  {
    hide Inv, Enabled, Step;
    if ops == [] {
      assert m.k.sems[s].wait + [] == [] + m.k.sems[s].wait;
    } else {
      StepKeeps(m, ops[0]);
      StepSems(m, ops[0], s);
      var m1 := Step(m, ops[0]).value;
      UnitsAndQueue(m1, ops[1..], s);
      var a, a1, b, c := m.k.sems[s], m1.k.sems[s], Run(m, ops).value.k.sems[s], Counted(m1, ops[1..], s);
      if ops[0] == Up(s) && a.wait != [] {
        FrontLeft(a.wait, c.joined, c.left, b.wait);
      } else if ops[0] == Down(s) && a.value == 0 {
        BackJoined(a.wait, m.k.cur, c.joined);
      } else {
        assert [] + c.left == c.left;
      }
    }
  }

  lemma FrontLeft(w: seq<Tid>, joined: seq<Tid>, left: seq<Tid>, b: seq<Tid>)
    requires w != [] && w[1..] + joined == left + b
    ensures w + joined == [w[0]] + left + b
  {
    assert w + joined == [w[0]] + (w[1..] + joined);
    assert [w[0]] + left + b == [w[0]] + (left + b);
  }

  lemma BackJoined(w: seq<Tid>, t: Tid, joined: seq<Tid>)
    ensures w + [t] + joined == w + ([t] + joined)
  {}
}
