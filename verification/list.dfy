/** The intrusive doubly linked list (lib/kernel/list.c): two sentinels and, between them, nodes that
    live inside other structures. The other modules speak of such a list as the sequence `Elements()`. */
module LinkedList {
  import opened Lists

  class Node {
    var pre: Node?
    var nxt: Node?

    constructor ()
      ensures pre == null && nxt == null
    {
      pre, nxt := null, null;
    }
  }

  /** Neighbours in `s` point at each other. */
  ghost predicate Linked(s: seq<Node>)
    reads s
  {
    forall i :: 0 <= i < |s| - 1 ==> s[i].nxt == s[i + 1] && s[i + 1].pre == s[i]
  }

  class List {
    const head: Node
    const tail: Node
    /** The sentinels and what is between them. */
    ghost var spine: seq<Node>

    ghost predicate Valid()
      reads this, spine
    {
      |spine| >= 2 && spine[0] == head && spine[|spine| - 1] == tail && NoDup(spine) && Linked(spine)
    }

    ghost function Elements(): seq<Node>
      reads this
    {
      Inner(spine)
    }

    /** ListInit. */
    constructor ()
      ensures Valid() && Elements() == [] && fresh(head) && fresh(tail)
    {
      head := new Node();
      tail := new Node();
      new;
      head.nxt := tail;
      tail.pre := head;
      spine := [head, tail];
    }

    /** ListEmpty. */
    method IsEmpty() returns (r: bool)
      requires Valid()
      ensures r <==> Elements() == []
    {
      r := head.nxt == tail;
      assert spine[0].nxt == spine[1];
    }

    /** ListFront; null if there is none. */
    method Front() returns (r: Node?)
      requires Valid()
      ensures if Elements() == [] then r == null else r == Elements()[0]
    {
      assert spine[0].nxt == spine[1];
      r := if head.nxt != tail then head.nxt else null;
    }

    /** ListPushFront. */
    method PushFront(node: Node)
      requires Valid() && node !in spine
      modifies this, spine, node
      ensures Valid() && Elements() == [node] + old(Elements()) && spine == With(old(spine), 0, node)
    {
      ghost var s, t := spine, With(spine, 0, node);
      Between(s, 0, node);
      LinkedAt(s, 0);
      OldLinks(s, 0, node);
      Members(s, 0, node);
      hide Inner, NoDup, With, Linked, LinkedAround;
      StoreFront(head, node, t);
      spine := t;
    }

    /** ListPushBack. */
    method PushBack(node: Node)
      requires Valid() && node !in spine
      modifies this, spine, node
      ensures Valid() && Elements() == old(Elements()) + [node] && spine == With(old(spine), |old(spine)| - 2, node)
    {
      hide Inner, NoDup, With, Linked, LinkedAround;
      ghost var s, k := spine, |spine| - 2;
      ghost var t := With(s, k, node);
      Between(s, k, node);
      LinkedAt(s, k);
      OldLinks(s, k, node);
      Members(s, k, node);
      StoreBack(tail, node, t);
      spine := t;
    }

    /** ListRemove for a node of the list; the node keeps its own pointers. */
    method Remove(node: Node)
      requires Valid() && node in Elements()
      modifies this, spine
      ensures Valid() && Elements() == Lists.Unlink(old(Elements()), node) && node !in spine
      ensures node.pre == old(node.pre) && node.nxt == old(node.nxt)
    {
      ghost var e := Elements();
      ghost var i :| 0 <= i < |e| && e[i] == node;
      ghost var s, j := spine, i + 1;
      ghost var t := Cut(s, j);
      Without(s, j);
      AlmostLinked(s, t, j);
      hide NoDup, Unlink, Linked, LinkedBut, Cut, Inner;
      Bypass(node, t, j);
      spine := t;
    }

    /** ListPopFront; it requires what its ASSERT does. */
    method PopFront()
      requires Valid() && Elements() != []
      modifies this, spine
      ensures Valid() && Elements() == old(Elements())[1..]
    {
      assert spine[0].nxt == spine[1];
      assert Elements()[0] == spine[1];
      Remove(head.nxt);
    }
  }

  /** Neighbours in `t` point at each other, except perhaps those at `j - 1` and `j`. */
  ghost predicate LinkedBut(t: seq<Node>, j: nat)
    reads t
  {
    forall k :: 0 <= k < |t| - 1 && k != j - 1 ==> t[k].nxt == t[k + 1] && t[k + 1].pre == t[k]
  }

  lemma LinkedAt(s: seq<Node>, i: nat)
    requires Linked(s) && i < |s| - 1
    ensures s[i].nxt == s[i + 1] && s[i + 1].pre == s[i]
  {}

  lemma AlmostLinked(s: seq<Node>, t: seq<Node>, j: nat)
    requires Linked(s) && 1 <= j < |s| - 1 && |t| == |s| - 1
    requires forall k {:trigger t[k]} :: 0 <= k < |t| ==> t[k] == if k < j then s[k] else s[k + 1]
    ensures LinkedBut(t, j) && s[j].pre == t[j - 1] && s[j].nxt == t[j] && t[j - 1] in s && t[j] in s
  {
    forall k | 0 <= k < |t| - 1 && k != j - 1 ensures t[k].nxt == t[k + 1] && t[k + 1].pre == t[k] {
      var l := if k < j then k else k + 1;
      assert t[k] == s[l] && t[k + 1] == s[l + 1];
      LinkedAt(s, l);
    }
    assert t[j - 1] == s[j - 1] && t[j] == s[j + 1];
    LinkedAt(s, j - 1);
    LinkedAt(s, j);
  }

  /** Neighbours in `t` point at each other, except perhaps on both sides of `i + 1`. */
  ghost predicate LinkedAround(t: seq<Node>, i: nat)
    reads t
  {
    forall k :: 0 <= k < |t| - 1 && k != i && k != i + 1 ==> t[k].nxt == t[k + 1] && t[k + 1].pre == t[k]
  }

  lemma OldLinks(s: seq<Node>, i: nat, x: Node)
    requires Linked(s) && i + 1 < |s|
    ensures LinkedAround(With(s, i, x), i) && With(s, i, x)[i] == s[i] && With(s, i, x)[i + 2] == s[i + 1]
  {
    var t := With(s, i, x);
    forall k | 0 <= k < |t| - 1 && k != i && k != i + 1 ensures t[k].nxt == t[k + 1] && t[k + 1].pre == t[k] {
      var l := if k < i then k else k - 1;
      assert t[k] == s[l] && t[k + 1] == s[l + 1];
      LinkedAt(s, l);
    }
  }

  /** The four stores of ListPushFront. */
  method StoreFront(head: Node, node: Node, ghost t: seq<Node>)
    requires |t| >= 3 && NoDup(t) && LinkedAround(t, 0) && t[0] == head && t[1] == node && head.nxt == t[2]
    modifies head, node, t
    ensures Linked(t)
  {
    node.nxt := head.nxt;
    node.pre := head;
    node.nxt.pre := node;
    head.nxt := node;
  }

  /** The four stores of ListPushBack. */
  method StoreBack(tail: Node, node: Node, ghost t: seq<Node>)
    requires |t| >= 3 && NoDup(t) && LinkedAround(t, |t| - 3)
    requires t[|t| - 1] == tail && t[|t| - 2] == node && tail.pre == t[|t| - 3]
    modifies tail, node, t
    ensures Linked(t)
  {
    node.nxt := tail;
    node.pre := tail.pre;
    tail.pre := node;
    node.pre.nxt := node;
  }

  /** The two stores of ListRemove. */
  method Bypass(node: Node, ghost t: seq<Node>, ghost j: nat)
    requires 1 <= j < |t| && NoDup(t) && node !in t && LinkedBut(t, j)
    requires node.pre == t[j - 1] && node.nxt == t[j]
    modifies node.pre, node.nxt
    ensures Linked(t) && node.pre == old(node.pre) && node.nxt == old(node.nxt)
  {
    node.nxt.pre := node.pre;
    node.pre.nxt := node.nxt;
  }

  /** What lies between the ends. */
  ghost function Inner<T>(s: seq<T>): seq<T>
  {
    if |s| >= 2 then s[1..|s| - 1] else []
  }

  ghost function With<T>(s: seq<T>, i: nat, x: T): (t: seq<T>)
    requires i + 1 < |s|
    ensures |t| == |s| + 1 && t[0] == s[0] && t[|t| - 1] == s[|s| - 1] && t[i + 1] == x
    ensures forall k {:trigger t[k]} :: 0 <= k < |t| && k != i + 1 ==> t[k] == if k <= i then s[k] else s[k - 1]
  {
    s[..i + 1] + [x] + s[i + 1..]
  }

  ghost function Cut<T>(s: seq<T>, j: nat): (t: seq<T>)
    requires 1 <= j < |s| - 1
    ensures |t| == |s| - 1 && t[0] == s[0] && t[|t| - 1] == s[|s| - 1]
    ensures forall k {:trigger t[k]} :: 0 <= k < |t| ==> t[k] == if k < j then s[k] else s[k + 1]
  {
    s[..j] + s[j + 1..]
  }

  lemma Members<T>(s: seq<T>, i: nat, x: T)
    requires i + 1 < |s|
    ensures forall y :: y in With(s, i, x) ==> y in s || y == x
  {}

  lemma Between<T>(s: seq<T>, i: nat, x: T)
    requires i + 1 < |s| && NoDup(s) && x !in s
    ensures NoDup(With(s, i, x))
    ensures i == 0 ==> Inner(With(s, i, x)) == [x] + Inner(s)
    ensures i == |s| - 2 ==> Inner(With(s, i, x)) == Inner(s) + [x]
  {
    var t, e := Inner(With(s, i, x)), Inner(s);
    if i == 0 {
      forall k | 0 <= k < |t| ensures t[k] == ([x] + e)[k] { assert t[k] == With(s, i, x)[k + 1]; }
    }
    if i == |s| - 2 {
      forall k | 0 <= k < |t| ensures t[k] == (e + [x])[k] { assert t[k] == With(s, i, x)[k + 1]; }
    }
  }

  /** A spine, and what is between its ends, without the node at `j`. */
  lemma Without<T>(s: seq<T>, j: nat)
    requires 1 <= j < |s| - 1 && NoDup(s)
    ensures NoDup(Cut(s, j)) && s[j] !in Cut(s, j)
    ensures s[j] in Inner(s) && Inner(Cut(s, j)) == Unlink(Inner(s), s[j])
  {
    var e := Inner(s);
    assert e[j - 1] == s[j] && NoDup(e);
    UnlinkAt(e, j - 1);
    var a, b := Inner(Cut(s, j)), e[..j - 1] + e[j..];
    forall k | 0 <= k < |a| ensures a[k] == b[k] {
      assert a[k] == Cut(s, j)[k + 1];
    }
  }

  /** The neighbours that a node remembers are next to each other in `s`, as far as they are in it. */
  ghost predicate StillNeighbours(s: seq<Node>, p: Node?, n: Node?)
  {
    forall i :: 0 <= i < |s| - 1 ==> (s[i] == p <==> s[i + 1] == n)
  }

  /** ListRemove for a node that is in no list, as ThreadExit does for the thread that is running: a list
      stays in order exactly if the neighbours the node had when it left its last list still are
      neighbours, or are both elsewhere. The pointers of a node that never was in a list are zero; the
      two stores then go to the start of memory, where there is no node. */
  method RemoveUnlisted(l: List, node: Node)
    requires l.Valid() && node !in l.spine && node.pre != node && node.nxt != node
    requires (node.pre == null <==> node.nxt == null)
    modifies node.pre, node.nxt
    ensures l.spine == old(l.spine)
    ensures Linked(l.spine) <==> old(node.pre) == null || StillNeighbours(l.spine, old(node.pre), old(node.nxt))
  {
    if node.pre == null { return; }
    var p, n := node.pre, node.nxt;
    node.nxt.pre := node.pre;
    node.pre.nxt := node.nxt;
    ghost var s := l.spine;
    forall i | 0 <= i < |s| - 1
      ensures (s[i].nxt == s[i + 1] && s[i + 1].pre == s[i]) <==> (s[i] == p <==> s[i + 1] == n)
    {
      assert old(s[i].nxt) == s[i + 1] && old(s[i + 1].pre) == s[i];
    }
  }
}
