/** The ring buffer of pipes and the keyboard (lib/kernel/ioqueue.c), and the pipe calls on it
    (lib/user/syscallFun.c). */
module IoQueue {
  import opened Basics

  /** `head` is the next place to put, `tail` the next to get; one place always stays free. */
  datatype Ring = Ring(buff: seq<byte>, head: nat, tail: nat)

  ghost predicate Valid(q: Ring)
  {
    q.head < |q.buff| && q.tail < |q.buff|
  }

  lemma Wraps(x: nat, n: nat)
    requires 0 < x <= n
    ensures x % n == if x == n then 0 else x
  {}

  function NextPos(q: Ring, pos: nat): (r: nat)
    requires Valid(q) && pos < |q.buff|
    ensures r < |q.buff| && r == if pos + 1 == |q.buff| then 0 else pos + 1
  {
    Wraps(pos + 1, |q.buff|);
    (pos + 1) % |q.buff|
  }

  predicate Full(q: Ring) requires Valid(q) { NextPos(q, q.head) == q.tail }

  predicate Empty(q: Ring) { q.head == q.tail }

  /** ioQueueLen. */
  function Len(q: Ring): (r: nat)
    requires Valid(q)
  {
    if q.tail <= q.head then q.head - q.tail else |q.buff| + q.head - q.tail
  }

  function Pushed(q: Ring, b: byte): Ring
    requires Valid(q)
  {
    q.(buff := q.buff[q.head := b], head := NextPos(q, q.head))
  }

  function Popped(q: Ring): Ring
    requires Valid(q)
  {
    q.(tail := NextPos(q, q.tail))
  }

  /** The bytes in the ring, oldest first. */
  ghost function Items(q: Ring): (r: seq<byte>)
    requires Valid(q)
    ensures |r| == Len(q)
  {
    if q.tail <= q.head then q.buff[q.tail..q.head] else q.buff[q.tail..] + q.buff[..q.head]
  }

  /** The length is that of the contents across the wrap; the ring is full with one place to spare. */
  lemma LenAndFull(q: Ring)
    requires Valid(q)
    ensures Len(q) == |Items(q)| <= |q.buff| - 1
    ensures Full(q) <==> |Items(q)| == |q.buff| - 1
    ensures Empty(q) <==> Items(q) == []
  {}

  lemma PutAppends(q: Ring, b: byte)
    requires Valid(q) && !Full(q)
    ensures Valid(Pushed(q, b)) && Items(Pushed(q, b)) == Items(q) + [b]
  {}

  lemma GotRemoves(q: Ring)
    requires Valid(q) && !Empty(q)
    ensures Valid(Popped(q)) && Items(q) == [q.buff[q.tail]] + Items(Popped(q))
  {}

  // ---------- Interleavings ----------

  /** An attempt to put or get; one that finds the ring full or empty blocks and leaves it alone. */
  datatype Op = Putting(b: byte) | Getting

  datatype Run = Run(q: Ring, put: seq<byte>, got: seq<byte>)

  ghost function Step(r: Run, op: Op): (r': Run)
    requires Valid(r.q)
    ensures Valid(r'.q)
  {
    match op
    case Putting(b) => if Full(r.q) then r else Run(Pushed(r.q, b), r.put + [b], r.got)
    case Getting => if Empty(r.q) then r else Run(Popped(r.q), r.put, r.got + [r.q.buff[r.q.tail]])
  }

  ghost function Steps(r: Run, ops: seq<Op>): (r': Run)
    requires Valid(r.q)
    ensures Valid(r'.q)
    decreases |ops|
  {
    if ops == [] then r else Steps(Step(r, ops[0]), ops[1..])
  }

  ghost predicate InOrder(r: Run)
    requires Valid(r.q)
  {
    r.put == r.got + Items(r.q)
  }

  lemma StepKeepsOrder(r: Run, op: Op)
    requires Valid(r.q) && InOrder(r)
    ensures InOrder(Step(r, op))
  {
    match op
    case Putting(b) => if !Full(r.q) { PutAppends(r.q, b); }
    case Getting => if !Empty(r.q) { GotRemoves(r.q); }
  }

  lemma {:induction false} StepsKeepOrder(r: Run, ops: seq<Op>)
    requires Valid(r.q) && InOrder(r)
    ensures InOrder(Steps(r, ops))
    decreases |ops|
  {
    if ops != [] {
      StepKeepsOrder(r, ops[0]);
      StepsKeepOrder(Step(r, ops[0]), ops[1..]);
    }
  }

  /** Over every interleaving: what was got is a prefix of what was put, and ioQueueLen is the number of
      bytes between the two. */
  lemma FirstInFirstOut(buff: seq<byte>, ops: seq<Op>)
    requires |buff| > 0
    ensures var r := Steps(Run(Ring(buff, 0, 0), [], []), ops);
            r.got <= r.put && Len(r.q) == |r.put| - |r.got| && Len(r.q) <= |buff| - 1
  {
    var r0 := Run(Ring(buff, 0, 0), [], []);
    StepsKeepOrder(r0, ops);
    StepsKeepSize(r0, ops);
    LenAndFull(Steps(r0, ops).q);
  }

  lemma {:induction false} StepsKeepSize(r: Run, ops: seq<Op>)
    requires Valid(r.q)
    ensures |Steps(r, ops).q.buff| == |r.q.buff|
    decreases |ops|
  {
    if ops != [] { StepsKeepSize(Step(r, ops[0]), ops[1..]); }
  }

  // ---------- The queue object and the pipe calls ----------

  class Queue {
    const buff: array<byte>
    var head: nat
    var tail: nat

    ghost predicate Sound()
      reads this
    {
      head < buff.Length && tail < buff.Length
    }

    ghost function State(): (q: Ring)
      reads this, buff
    {
      Ring(buff[..], head, tail)
    }

    constructor (len: nat)
      requires len > 0
      ensures Sound() && fresh(buff) && buff.Length == len && Items(State()) == []
    {
      buff := new byte[len](i => 0);
      head, tail := 0, 0;
    }

    /** ioQueueFull. */
    method IsFull() returns (r: bool)
      requires Sound()
      ensures r == Full(State())
    {
      r := (head + 1) % buff.Length == tail;
    }

    /** ioQueueLen. */
    method Length() returns (r: nat)
      requires Sound()
      ensures r == |Items(State())|
    {
      r := if tail <= head then head - tail else buff.Length + head - tail;
    }

    /** ioQueuePut, once there is room. */
    method Put(data: byte)
      requires Sound() && !Full(State())
      modifies this`head, buff
      ensures Sound() && Items(State()) == old(Items(State())) + [data]
    {
      PutAppends(State(), data);
      ghost var q := State();
      buff[head] := data;
      head := (head + 1) % buff.Length;
      assert State() == Pushed(q, data);
    }

    /** ioQueueGet, once there is data. */
    method Get() returns (dat: byte)
      requires Sound() && !Empty(State())
      modifies this`tail
      ensures Sound() && old(Items(State())) == [dat] + Items(State())
    {
      GotRemoves(State());
      ghost var q := State();
      dat := buff[tail];
      tail := (tail + 1) % buff.Length;
      assert State() == Popped(q);
    }

    /** pipe_read takes what is there and never waits for more. */
    method PipeRead(cnt: nat) returns (buf: seq<byte>)
      requires Sound()
      modifies this`tail
      ensures Sound() && |buf| == Min(cnt, |old(Items(State()))|) && old(Items(State())) == buf + Items(State())
    {
      hide Items, Len, Full, Empty;
      var bufLen := Length();
      var left := Min(cnt, bufLen);
      buf := [];
      while left > 0
        invariant Sound() && old(Items(State())) == buf + Items(State())
        invariant 0 <= left <= |Items(State())| && |buf| + left == Min(cnt, |old(Items(State()))|)
      {
        LenAndFull(State());
        var dat := Get();
        buf := buf + [dat];
        left := left - 1;
      }
    }

    /** pipe_write counts the place that stays free as free: it blocks, in the middle, exactly when it is
        asked for more than the ring has room for. */
    method PipeWrite(buf: seq<byte>) returns (write: nat, blocks: bool)
      requires Sound()
      modifies this`head, buff
      ensures Sound() && write == Min(|buf|, buff.Length - 1 - |old(Items(State()))|)
      ensures Items(State()) == old(Items(State())) + buf[..write]
      ensures blocks <==> |buf| > buff.Length - 1 - |old(Items(State()))|
    {
      hide Items, Full, Len;
      var used := Length();
      LenAndFull(State());
      var left := Min(|buf|, buff.Length - used);
      write, blocks := 0, false;
      while left > 0
        invariant Sound() && write + left == Min(|buf|, buff.Length - used) && 0 <= left
        invariant Items(State()) == old(Items(State())) + buf[..write]
        invariant write <= buff.Length - 1 - used
      {
        LenAndFull(State());
        var full := IsFull();
        if full { return write, true; }
        Put(buf[write]);
        assert buf[..write] + [buf[write]] == buf[..write + 1];
        write := write + 1;
        left := left - 1;
      }
    }
  }
}
