/** The binary heap of sleeping threads (lib/kernel/minHeap.c).

    A heap of `n` nodes is a sequence of length `n + 1`; as in the C buffer, index 0 is unused and
    the children of `i` are `2 * i` and `2 * i + 1`.

    The loop of MinHeapPop has no exit for the case that neither child is smaller: it then swaps a
    node with itself for ever. `SiftDown` is the loop with that exit added, `Literally` is the loop
    as it is written, and `LiteralLoopExits` says for exactly which buffers the written loop ends. */
module MinHeap {

  /** A thread together with the key the comparison function reads, its wake-up time. */
  datatype Node = Node(ptr: nat, key: nat)

  ghost predicate Ordered(a: seq<Node>)
  {
    forall j :: 2 <= j < |a| ==> a[j / 2].key <= a[j].key
  }

  function Swap(a: seq<Node>, i: nat, j: nat): (r: seq<Node>)
    requires i < |a| && j < |a|
    ensures |r| == |a|
  {
    a[i := a[j]][j := a[i]]
  }

  function SiftUp(a: seq<Node>, i: nat): (r: seq<Node>)
    requires 1 <= i < |a|
    ensures |r| == |a| && r[0] == a[0]
    decreases i
  {
    if i / 2 != 0 && a[i].key < a[i / 2].key then SiftUp(Swap(a, i, i / 2), i / 2) else a
  }

  /** The index the loop body of MinHeapPop swaps with: `i` itself if no child is smaller. */
  function Target(a: seq<Node>, i: nat): (t: nat)
    requires 1 <= i < |a|
    ensures t < |a| && (t == i || t / 2 == i)
    ensures a[t].key <= a[i].key && (t != i ==> a[t].key < a[i].key)
    ensures forall j :: 2 <= j < |a| && j / 2 == i ==> a[t].key <= a[j].key
  {
    var left := if 2 * i < |a| && a[2 * i].key < a[i].key then 2 * i else i;
    if 2 * i + 1 < |a| && a[2 * i + 1].key < a[left].key then 2 * i + 1 else left
  }

  /** The sift-down loop with the missing exit. */
  function SiftDown(a: seq<Node>, i: nat): (r: seq<Node>)
    requires 1 <= i < |a|
    ensures |r| == |a| && r[0] == a[0]
    decreases |a| - i
  {
    var t := Target(a, i);
    if t == i then a else SiftDown(Swap(a, i, t), t)
  }

  /** What MinHeapInsert leaves in the buffer. */
  function Inserted(a: seq<Node>, x: Node): (r: seq<Node>)
    requires |a| >= 1
    ensures |r| == |a| + 1
  {
    SiftUp(a + [x], |a|)
  }

  /** The last node moved to the root: the buffer as the loop of MinHeapPop finds it. */
  function Uprooted(a: seq<Node>): (r: seq<Node>)
    requires |a| >= 2
    ensures |r| == |a| - 1
  {
    if |a| == 2 then a[..1] else a[..|a| - 1][1 := a[|a| - 1]]
  }

  /** What MinHeapPop leaves in the buffer. */
  function Popped(a: seq<Node>): (r: seq<Node>)
    requires |a| >= 2
    ensures |r| == |a| - 1
  {
    if |a| == 2 then a[..1] else SiftDown(Uprooted(a), 1)
  }

  // ---------- Order and contents ----------

  /** The nodes of a heap. */
  ghost function Nodes(a: seq<Node>): multiset<Node>
    requires |a| >= 1
  {
    multiset(a[1..])
  }

  lemma SwapKeepsNodes(a: seq<Node>, i: nat, j: nat)
    requires 1 <= i < |a| && 1 <= j < |a|
    ensures Nodes(Swap(a, i, j)) == Nodes(a)
  {
    assert Swap(a, i, j)[1..] == a[1..][i - 1 := a[j]][j - 1 := a[i]];
  }

  lemma {:induction false} SiftUpKeepsNodes(a: seq<Node>, i: nat)
    requires 1 <= i < |a|
    ensures Nodes(SiftUp(a, i)) == Nodes(a)
    decreases i
  {
    if i / 2 != 0 && a[i].key < a[i / 2].key {
      SwapKeepsNodes(a, i, i / 2);
      SiftUpKeepsNodes(Swap(a, i, i / 2), i / 2);
    }
  }

  lemma {:induction false} SiftDownKeepsNodes(a: seq<Node>, i: nat)
    requires 1 <= i < |a|
    ensures Nodes(SiftDown(a, i)) == Nodes(a)
    decreases |a| - i
  {
    var t := Target(a, i);
    if t != i {
      SwapKeepsNodes(a, i, t);
      SiftDownKeepsNodes(Swap(a, i, t), t);
    }
  }

  ghost predicate OrderedAbove(a: seq<Node>, i: nat)
  {
    (forall j :: 2 <= j < |a| && j != i ==> a[j / 2].key <= a[j].key) &&
    (forall j :: 2 <= j < |a| && j / 2 == i && i >= 2 ==> a[i / 2].key <= a[j].key)
  }

  lemma {:induction false} SiftUpOrders(a: seq<Node>, i: nat)
    requires 1 <= i < |a| && OrderedAbove(a, i)
    ensures Ordered(SiftUp(a, i))
    decreases i
  {
    if i / 2 != 0 && a[i].key < a[i / 2].key {
      var b := Swap(a, i, i / 2);
      forall j | 2 <= j < |b| && j != i / 2
        ensures b[j / 2].key <= b[j].key
      {
        if j != i && j / 2 != i && j / 2 == i / 2 { assert a[j / 2].key <= a[j].key; }
      }
      forall j | 2 <= j < |b| && j / 2 == i / 2 && i / 2 >= 2
        ensures b[i / 2 / 2].key <= b[j].key
      {
        assert a[i / 2 / 2].key <= a[i / 2].key;
        if j != i { assert a[j / 2].key <= a[j].key; }
      }
      SiftUpOrders(b, i / 2);
    }
  }

  ghost predicate OrderedBelow(a: seq<Node>, i: nat)
  {
    (forall j :: 2 <= j < |a| && j / 2 != i ==> a[j / 2].key <= a[j].key) &&
    (forall j :: 2 <= j < |a| && j / 2 == i && i >= 2 ==> a[i / 2].key <= a[j].key)
  }

  lemma {:induction false} SiftDownOrders(a: seq<Node>, i: nat)
    requires 1 <= i < |a| && OrderedBelow(a, i)
    ensures Ordered(SiftDown(a, i))
    decreases |a| - i
  {
    var t := Target(a, i);
    if t != i {
      var b := Swap(a, i, t);
      forall j | 2 <= j < |b| && j / 2 != t
        ensures b[j / 2].key <= b[j].key
      {
        if j == i { assert a[i / 2].key <= a[t].key; }
      }
      forall j | 2 <= j < |b| && j / 2 == t && t >= 2
        ensures b[t / 2].key <= b[j].key
      {
        assert a[j / 2].key <= a[j].key;
      }
      SiftDownOrders(b, t);
    }
  }

  lemma InsertCorrect(a: seq<Node>, x: Node)
    requires |a| >= 1 && Ordered(a)
    ensures Ordered(Inserted(a, x))
    ensures Nodes(Inserted(a, x)) == Nodes(a) + multiset{x}
  {
    SiftUpOrders(a + [x], |a|);
    SiftUpKeepsNodes(a + [x], |a|);
    assert (a + [x])[1..] == a[1..] + [x];
  }

  lemma {:induction false} RootIsMinimum(a: seq<Node>, j: nat)
    requires Ordered(a) && 1 <= j < |a|
    ensures a[1].key <= a[j].key
  {
    if j > 1 { RootIsMinimum(a, j / 2); }
  }

  lemma UprootedNodes(a: seq<Node>)
    requires |a| >= 2
    ensures Nodes(a) == Nodes(Uprooted(a)) + multiset{a[1]}
  {
    var n := |a| - 1;
    if n == 1 {
      assert a[1..] == [a[1]];
    } else {
      assert a[1..] == [a[1]] + a[2..n] + [a[n]];
      assert Uprooted(a)[1..] == [a[n]] + a[2..n];
    }
  }

  lemma PopCorrect(a: seq<Node>)
    requires |a| >= 2 && Ordered(a)
    ensures forall j :: 1 <= j < |a| ==> a[1].key <= a[j].key
    ensures Ordered(Popped(a))
    ensures Nodes(a) == Nodes(Popped(a)) + multiset{a[1]}
  {
    forall j | 1 <= j < |a| ensures a[1].key <= a[j].key { RootIsMinimum(a, j); }
    UprootedNodes(a);
    if |a| > 2 {
      var u := Uprooted(a);
      forall j | 2 <= j < |u| && j / 2 != 1 ensures u[j / 2].key <= u[j].key {
        assert a[j / 2].key <= a[j].key;
      }
      SiftDownOrders(u, 1);
      SiftDownKeepsNodes(u, 1);
    }
  }

  // ---------- The loop as it is written ----------

  /** The loop condition `left <= size || right <= size`. */
  predicate Guard(a: seq<Node>, i: nat) { 2 * i < |a| || 2 * i + 1 < |a| }

  /** Buffer and index after at most `k` rounds of the loop as it is written. */
  ghost function Literally(a: seq<Node>, i: nat, k: nat): (s: (seq<Node>, nat))
    requires 1 <= i < |a|
    ensures |s.0| == |a| && 1 <= s.1 < |a|
    decreases k
  {
    if k == 0 || !Guard(a, i) then (a, i)
    else var t := Target(a, i); Literally(Swap(a, i, t), t, k - 1)
  }

  ghost predicate Exits(a: seq<Node>, i: nat)
    requires 1 <= i < |a|
  {
    exists k: nat :: !Guard(Literally(a, i, k).0, Literally(a, i, k).1)
  }

  /** `x` is larger than every node met when one keeps stepping to the smaller child from `i`
      (the left one when they are equal). This can be read off the buffer before the call. */
  predicate AboveMinPath(a: seq<Node>, i: nat, x: Node)
    requires 1 <= i < |a|
    decreases |a| - i
  {
    2 * i >= |a| ||
    var c := if 2 * i + 1 < |a| && a[2 * i + 1].key < a[2 * i].key then 2 * i + 1 else 2 * i;
    a[c].key < x.key && AboveMinPath(a, c, x)
  }

  lemma {:induction false} MinPathLooksDown(a: seq<Node>, b: seq<Node>, i: nat, x: Node)
    requires 1 <= i < |a| == |b|
    requires forall j :: i < j < |a| ==> a[j] == b[j]
    ensures AboveMinPath(a, i, x) == AboveMinPath(b, i, x)
    decreases |a| - i
  {
    if 2 * i < |a| {
      var c := if 2 * i + 1 < |a| && a[2 * i + 1].key < a[2 * i].key then 2 * i + 1 else 2 * i;
      MinPathLooksDown(a, b, c, x);
    }
  }

  lemma {:induction false} StuckForever(a: seq<Node>, i: nat, k: nat)
    requires 1 <= i && Guard(a, i) && Target(a, i) == i
    ensures Literally(a, i, k) == (a, i)
  {
    if k > 0 {
      assert Swap(a, i, i) == a;
      StuckForever(a, i, k - 1);
    }
  }

  /** The written loop ends exactly when the node it carries down is larger than the whole path of
      smaller children below it, and then it leaves what the loop with the exit leaves. */
  lemma {:induction false} LiteralLoopExits(a: seq<Node>, i: nat)
    requires 1 <= i < |a|
    ensures Exits(a, i) <==> AboveMinPath(a, i, a[i])
    ensures forall k: nat :: !Guard(Literally(a, i, k).0, Literally(a, i, k).1)
                             ==> Literally(a, i, k).0 == SiftDown(a, i)
    decreases |a| - i
  {
    var t := Target(a, i);
    if !Guard(a, i) {
      assert !Guard(Literally(a, i, 0).0, Literally(a, i, 0).1);
    } else if t == i {
      forall k: nat ensures Literally(a, i, k) == (a, i) { StuckForever(a, i, k); }
    } else {
      var b := Swap(a, i, t);
      LiteralLoopExits(b, t);
      MinPathLooksDown(a, b, t, a[i]);
      assert forall k: nat :: k > 0 ==> Literally(a, i, k) == Literally(b, t, k - 1);
      if Exits(b, t) {
        var k: nat :| !Guard(Literally(b, t, k).0, Literally(b, t, k).1);
        assert Literally(a, i, k + 1) == Literally(b, t, k);
      }
    }
  }

  /** MinHeapPop returns from a heap `a`. */
  predicate PopReturns(a: seq<Node>)
    requires |a| >= 2
  {
    |a| == 2 || AboveMinPath(Uprooted(a), 1, a[|a| - 1])
  }

  /** Three sleepers with equal deadlines are enough to make MinHeapPop spin. */
  lemma PopCanSpin(unused: Node, p: nat, q: nat, r: nat, key: nat)
    ensures var a := [unused, Node(p, key), Node(q, key), Node(r, key)];
            Ordered(a) && !PopReturns(a) && !Exits(Uprooted(a), 1)
  {
    var a := [unused, Node(p, key), Node(q, key), Node(r, key)];
    LiteralLoopExits(Uprooted(a), 1);
  }

  /** One round of the loop, seen from both sides. */
  lemma SiftRound(a: seq<Node>, i: nat)
    requires 1 <= i < |a|
    ensures !Guard(a, i) ==> SiftDown(a, i) == a && AboveMinPath(a, i, a[i])
    ensures var t := Target(a, i);
            if t == i then SiftDown(a, i) == a && (Guard(a, i) ==> !AboveMinPath(a, i, a[i]))
            else var b := Swap(a, i, t);
                 SiftDown(a, i) == SiftDown(b, t) && AboveMinPath(a, i, a[i]) == AboveMinPath(b, t, b[t])
  {
    var t := Target(a, i);
    if t != i { MinPathLooksDown(a, Swap(a, i, t), t, a[i]); }
  }

  // ---------- The heap itself ----------

  class Heap {
    const buf: array<Node>
    const maxCnt: nat
    var curCnt: nat

    ghost predicate Valid()
      reads this
    {
      buf.Length == maxCnt + 1 && curCnt <= maxCnt
    }

    ghost function Items(): (a: seq<Node>)
      requires Valid()
      reads this, buf
      ensures |a| == curCnt + 1
    {
      buf[..curCnt + 1]
    }

    constructor (maxCnt: nat)
      ensures Valid() && fresh(buf) && this.maxCnt == maxCnt && Items() == [Node(0, 0)]
    {
      this.maxCnt := maxCnt;
      buf := new Node[maxCnt + 1](i => Node(0, 0));
      curCnt := 0;
    }

    method Insert(value: Node)
      requires Valid() && curCnt < maxCnt
      modifies this`curCnt, buf
      ensures Valid() && curCnt == old(curCnt) + 1
      ensures Items() == Inserted(old(Items()), value)
    {
      curCnt := curCnt + 1;
      var idx := curCnt;
      buf[idx] := value;
      assert Items() == old(Items()) + [value];
      while idx / 2 != 0 && buf[idx].key < buf[idx / 2].key
        invariant Valid() && curCnt == old(curCnt) + 1 && 1 <= idx <= curCnt
        invariant SiftUp(Items(), idx) == Inserted(old(Items()), value)
      {
        ghost var before := Items();
        var fa := idx / 2;
        buf[idx], buf[fa] := buf[fa], buf[idx];
        assert Items() == Swap(before, idx, fa);
        idx := fa;
      }
    }

    /** The loop of MinHeapPop. When no child is smaller it would swap `idx` with itself for ever;
        here it stops and reports that. */
    method Sift() returns (exits: bool)
      requires Valid() && curCnt > 0
      modifies buf
      ensures Items() == SiftDown(old(Items()), 1)
      ensures exits <==> AboveMinPath(old(Items()), 1, old(Items())[1])
    {
      hide SiftDown, AboveMinPath;
      var idx, size := 1, curCnt;
      while 2 * idx <= size || 2 * idx + 1 <= size
        invariant 1 <= idx <= size
        invariant SiftDown(Items(), idx) == SiftDown(old(Items()), 1)
        invariant AboveMinPath(Items(), idx, Items()[idx]) == AboveMinPath(old(Items()), 1, old(Items())[1])
        decreases size - idx
      {
        ghost var before := Items();
        var targetIdx := idx;
        if 2 * idx <= size && buf[2 * idx].key < buf[targetIdx].key { targetIdx := 2 * idx; }
        if 2 * idx + 1 <= size && buf[2 * idx + 1].key < buf[targetIdx].key { targetIdx := 2 * idx + 1; }
        assert targetIdx == Target(before, idx);
        SiftRound(before, idx);
        if targetIdx == idx { return false; }
        buf[idx], buf[targetIdx] := buf[targetIdx], buf[idx];
        assert Items() == Swap(before, idx, targetIdx);
        idx := targetIdx;
      }
      SiftRound(Items(), idx);
      return true;
    }

    /** `exits` tells whether the written loop ends. If it does not, the buffer already holds its
        final contents when the loop starts to repeat itself. */
    method Pop() returns (ret: Node, exits: bool)
      requires Valid() && curCnt > 0
      modifies this`curCnt, buf
      ensures Valid() && curCnt == old(curCnt) - 1
      ensures ret == old(Items())[1]
      ensures Items() == Popped(old(Items()))
      ensures exits <==> PopReturns(old(Items()))
      ensures curCnt > 0 ==> (exits <==> Exits(Uprooted(old(Items())), 1))
    {
      ret := buf[1];
      buf[1] := buf[curCnt];
      curCnt := curCnt - 1;
      assert Items() == Uprooted(old(Items()));
      exits := true;
      if curCnt > 0 {
        LiteralLoopExits(Items(), 1);
        exits := Sift();
      }
    }
  }
}
