/** syscall_malloc and syscall_free (kernel/memory.c): pages cut into equal blocks ("arenas"), one
    free list per block size, and larger requests in whole pages. Here are the free lists and the
    headers; module Allocator puts them on the pages malloc_page hands out.

    Addresses are bytes. The 12-byte header of an arena stands at the start of its page; `hdr` maps
    the page number of every arena to its header. */
module Arena {
  import opened Lists

  const PAGE: nat := 4096
  const HEADER: nat := 12
  const CLASSES: nat := 7
  const TWO32: nat := 0x1_0000_0000

  /** A small arena points to a descriptor: that of class `cls` in the table of `home`, the kernel or a
      process. */
  datatype Header = Small(cls: nat, cnt: nat, home: nat) | Large(cnt: nat)

  // ---------- Sizes and addresses ----------

  function BlockSize(c: nat): (s: nat)
    requires c < CLASSES
    ensures 16 <= s <= 1024
  {
    [16, 32, 64, 128, 256, 512, 1024][c]
  }

  /** 16 for the first class, and twice as much for each further one. */
  lemma SizesDouble(c: nat)
    requires c < CLASSES
    ensures BlockSize(0) == 16 && (c > 0 ==> BlockSize(c) == 2 * BlockSize(c - 1))
  {}

  /** As many blocks as there is room for behind the header. */
  function CntPerPage(c: nat): (n: nat)
    requires c < CLASSES
    ensures 3 <= n
    ensures HEADER + n * BlockSize(c) <= PAGE < HEADER + (n + 1) * BlockSize(c)
  {
    (PAGE - HEADER) / BlockSize(c)
  }

  function ArenaIdxBlock(a: nat, c: nat, i: nat): nat
    requires c < CLASSES
  {
    a * PAGE + HEADER + i * BlockSize(c)
  }

  /** The page a block lies in. */
  function ArenaContainBlock(x: nat): nat { x / PAGE }

  /** Pages for a request of more than 1024 bytes, in 32-bit arithmetic. */
  function PageCount(size: nat): nat { (HEADER + size + (PAGE - 1)) % TWO32 / PAGE }

  /** The pages hold the request unless the sum wrapped around, and there are no more than it takes. */
  lemma PageCountSuffices(size: nat)
    requires 1024 < size < TWO32
    ensures PageCount(size) * PAGE >= HEADER + size <==> size + HEADER + (PAGE - 1) < TWO32
    ensures PageCount(size) * PAGE < HEADER + size + PAGE
    ensures PageCount(size) == 0 <==> TWO32 <= size + HEADER + (PAGE - 1) < TWO32 + PAGE
  {}

  /** Blocks stay inside their page, behind the header, and do not overlap. */
  lemma BlockInPage(a: nat, c: nat, i: nat)
    requires c < CLASSES && i < CntPerPage(c)
    ensures a * PAGE + HEADER <= ArenaIdxBlock(a, c, i)
    ensures ArenaIdxBlock(a, c, i) + BlockSize(c) <= (a + 1) * PAGE
    ensures ArenaContainBlock(ArenaIdxBlock(a, c, i)) == a
  {
    var n, s := CntPerPage(c), BlockSize(c);
    assert n * s <= PAGE - HEADER;
    assert (i + 1) * s <= n * s;
    assert (i + 1) * s == i * s + s;
  }

  lemma BlocksApart(a: nat, c: nat, i: nat, j: nat)
    requires c < CLASSES && i < j
    ensures ArenaIdxBlock(a, c, i) + BlockSize(c) <= ArenaIdxBlock(a, c, j)
  {
    var s := BlockSize(c);
    assert (i + 1) * s <= j * s;
    assert (i + 1) * s == i * s + s;
  }

  /** The first `n` blocks of an arena. */
  ghost function FirstBlocks(a: nat, c: nat, n: nat): set<nat>
    requires c < CLASSES
  {
    set i | 0 <= i < n :: ArenaIdxBlock(a, c, i)
  }

  ghost function Blocks(a: nat, c: nat): set<nat>
    requires c < CLASSES
  {
    FirstBlocks(a, c, CntPerPage(c))
  }

  lemma {:induction false} FirstBlocksGrow(a: nat, c: nat, n: nat)
    requires c < CLASSES
    ensures FirstBlocks(a, c, n + 1) == FirstBlocks(a, c, n) + {ArenaIdxBlock(a, c, n)}
    ensures ArenaIdxBlock(a, c, n) !in FirstBlocks(a, c, n)
  {
    forall i | 0 <= i < n ensures ArenaIdxBlock(a, c, i) != ArenaIdxBlock(a, c, n) { BlocksApart(a, c, i, n); }
  }

  lemma {:induction false} CountBlocks(a: nat, c: nat, n: nat)
    requires c < CLASSES
    ensures |FirstBlocks(a, c, n)| == n
  {
    if n > 0 {
      FirstBlocksGrow(a, c, n - 1);
      CountBlocks(a, c, n - 1);
    } else {
      assert FirstBlocks(a, c, 0) == {};
    }
  }

  lemma BlocksInPage(a: nat, c: nat)
    requires c < CLASSES
    ensures forall x :: x in Blocks(a, c) ==> ArenaContainBlock(x) == a
  {
    forall i | 0 <= i < CntPerPage(c) ensures ArenaContainBlock(ArenaIdxBlock(a, c, i)) == a { BlockInPage(a, c, i); }
  }

  // ---------- Free lists ----------

  /** The blocks of arena `a` on a list. */
  ghost function OnList(s: seq<nat>, a: nat): set<nat>
  {
    set x | x in s && ArenaContainBlock(x) == a
  }

  // ---------- The invariant ----------

  function Span(h: Header): nat { if h.Small? then 1 else h.cnt }

  ghost predicate OneOfBlocks(hdr: map<nat, Header>, c: nat, x: nat)
    requires c < CLASSES
  {
    var a := ArenaContainBlock(x);
    a in hdr && hdr[a].Small? && hdr[a].cls == c && x in Blocks(a, c)
  }

  /** `free` are the free lists and `live` the blocks handed out, with their capacity. */
  ghost predicate ListsOk(free: seq<seq<nat>>, hdr: map<nat, Header>, live: map<nat, nat>)
  {
    |free| == CLASSES &&
    forall c :: 0 <= c < CLASSES ==>
      NoDup(free[c]) && forall x :: x in free[c] ==> OneOfBlocks(hdr, c, x) && x !in live
  }

  /** The count in a header is the number of the arena's blocks on the free list, some block of it
      is outstanding (unless `a` is in `ripe`), and every block is on the list or outstanding. */
  ghost predicate SmallOk(free: seq<seq<nat>>, h: Header, live: map<nat, nat>, a: nat, ripe: set<nat>)
    requires |free| == CLASSES && h.Small?
  {
    h.cls < CLASSES && h.cnt == |OnList(free[h.cls], a)| &&
    (a in ripe || h.cnt < CntPerPage(h.cls)) &&
    forall x :: x in Blocks(a, h.cls) ==> x in free[h.cls] || x in live
  }

  ghost predicate LargeOk(h: Header, live: map<nat, nat>, a: nat)
    requires h.Large?
  {
    h.cnt >= 1 && a * PAGE + HEADER in live
  }

  ghost predicate LiveOk(hdr: map<nat, Header>, x: nat, capacity: nat)
  {
    var a := ArenaContainBlock(x);
    a in hdr &&
    match hdr[a]
    case Small(c, _, _) => c < CLASSES && x in Blocks(a, c) && capacity == BlockSize(c)
    case Large(n) => x == a * PAGE + HEADER && n >= 1 && capacity == n * PAGE - HEADER
  }

  ghost predicate Apart(hdr: map<nat, Header>)
  {
    forall a, b :: a in hdr && b in hdr && a < b ==> a + Span(hdr[a]) <= b
  }

  ghost predicate Smalls(free: seq<seq<nat>>, hdr: map<nat, Header>, live: map<nat, nat>, ripe: set<nat>)
    requires |free| == CLASSES
  {
    forall a :: a in hdr && hdr[a].Small? ==> SmallOk(free, hdr[a], live, a, ripe)
  }

  ghost predicate Larges(hdr: map<nat, Header>, live: map<nat, nat>)
  {
    forall a :: a in hdr && hdr[a].Large? ==> LargeOk(hdr[a], live, a)
  }

  ghost predicate Lives(hdr: map<nat, Header>, live: map<nat, nat>)
  {
    forall x :: x in live ==> LiveOk(hdr, x, live[x])
  }

  /** The representation invariant. Between the steps of a call the arenas in `ripe` may be entirely
      free; between calls there are none. */
  ghost predicate Ok(free: seq<seq<nat>>, hdr: map<nat, Header>, live: map<nat, nat>, ripe: set<nat> := {})
  {
    ListsOk(free, hdr, live) && Apart(hdr) && Smalls(free, hdr, live, ripe) && Larges(hdr, live) && Lives(hdr, live)
  }

  // ---------- What the invariant means ----------

  lemma LiveInArena(hdr: map<nat, Header>, x: nat, capacity: nat)
    requires LiveOk(hdr, x, capacity)
    ensures var a := ArenaContainBlock(x);
            a * PAGE + HEADER <= x && x + capacity <= (a + Span(hdr[a])) * PAGE
  {
    var a := ArenaContainBlock(x);
    if hdr[a].Small? {
      var c := hdr[a].cls;
      var i :| 0 <= i < CntPerPage(c) && x == ArenaIdxBlock(a, c, i);
      BlockInPage(a, c, i);
    }
  }

  lemma BlocksOfOneArena(a: nat, c: nat, x: nat, y: nat)
    requires c < CLASSES && x in Blocks(a, c) && y in Blocks(a, c) && x < y
    ensures x + BlockSize(c) <= y
  {
    var i :| 0 <= i < CntPerPage(c) && x == ArenaIdxBlock(a, c, i);
    var j :| 0 <= j < CntPerPage(c) && y == ArenaIdxBlock(a, c, j);
    hide BlockSize, CntPerPage, ArenaIdxBlock;
    if i < j { BlocksApart(a, c, i, j); } else if j < i { BlocksApart(a, c, j, i); }
  }

  lemma ArenasInOrder(hdr: map<nat, Header>, x: nat, y: nat)
    requires Apart(hdr) && x < y && ArenaContainBlock(x) != ArenaContainBlock(y)
    requires ArenaContainBlock(x) in hdr && ArenaContainBlock(y) in hdr
    ensures ArenaContainBlock(x) + Span(hdr[ArenaContainBlock(x)]) <= ArenaContainBlock(y)
  {}

  /** Outstanding blocks are pairwise disjoint. */
  lemma LiveDisjoint(free: seq<seq<nat>>, hdr: map<nat, Header>, live: map<nat, nat>, x: nat, y: nat)
    requires Ok(free, hdr, live) && x in live && y in live && x < y
    ensures x + live[x] <= y
  {
    var a, b := ArenaContainBlock(x), ArenaContainBlock(y);
    assert LiveOk(hdr, x, live[x]) && LiveOk(hdr, y, live[y]);
    hide ListsOk, Smalls, Larges, Lives, Blocks, BlockSize;
    if a != b {
      ArenasInOrder(hdr, x, y);
      LiveInArena(hdr, x, live[x]);
      LiveInArena(hdr, y, live[y]);
    } else if hdr[a].Small? {
      BlocksOfOneArena(a, hdr[a].cls, x, y);
    }
  }

  /** No outstanding block overlaps the header of an arena. */
  lemma LiveMissesHeaders(free: seq<seq<nat>>, hdr: map<nat, Header>, live: map<nat, nat>, x: nat, a: nat)
    requires Ok(free, hdr, live) && x in live && a in hdr
    ensures x + live[x] <= a * PAGE || a * PAGE + HEADER <= x
  {
    LiveInArena(hdr, x, live[x]);
  }

  // ---------- The steps of the two calls ----------

  ghost predicate Unused(hdr: map<nat, Header>, a: nat, n: nat)
  {
    a !in hdr && forall b :: b in hdr ==> a + n <= b || b + Span(hdr[b]) <= a
  }

  lemma HeaderPage(a: nat)
    ensures ArenaContainBlock(a * PAGE + HEADER) == a
  {}

  /** Frame: an arena none of whose blocks moved. */
  lemma Untouched(free: seq<seq<nat>>, free': seq<seq<nat>>, h: Header, live: map<nat, nat>, live': map<nat, nat>,
                  b: nat, ripe: set<nat>, ripe': set<nat>)
    requires |free| == |free'| == CLASSES && h.Small? && SmallOk(free, h, live, b, ripe)
    requires b in ripe ==> b in ripe'
    requires forall x :: ArenaContainBlock(x) == b ==>
               (x in free[h.cls] <==> x in free'[h.cls]) && (x in live <==> x in live')
    ensures SmallOk(free', h, live', b, ripe')
  {
    BlocksInPage(b, h.cls);
    assert OnList(free[h.cls], b) == OnList(free'[h.cls], b);
  }

  ghost predicate SameKind(h: Header, k: Header)
  {
    h == k || (h.Small? && k.Small? && h.cls == k.cls)
  }

  /** The arenas of `hdr` are still there and serve the same size; only their counts may differ. */
  ghost predicate KindsKept(hdr: map<nat, Header>, hdr': map<nat, Header>)
  {
    forall a :: a in hdr ==> a in hdr' && SameKind(hdr[a], hdr'[a])
  }

  /** Frame: the free lists when class `c` gets a new list. */
  lemma ListsKept(free: seq<seq<nat>>, hdr: map<nat, Header>, live: map<nat, nat>,
                  hdr': map<nat, Header>, live': map<nat, nat>, c: nat, list: seq<nat>)
    requires ListsOk(free, hdr, live) && c < CLASSES && KindsKept(hdr, hdr') && NoDup(list)
    requires forall x :: x in list ==> (x in free[c] || OneOfBlocks(hdr', c, x)) && x !in live'
    requires forall x :: x in live' && x !in live ==> x in free[c] && x !in list
    ensures ListsOk(free[c := list], hdr', live')
  {
    hide FirstBlocks, BlockSize, CntPerPage, ArenaContainBlock, NoDup;
    forall d, x | 0 <= d < CLASSES && x in free[c := list][d]
      ensures OneOfBlocks(hdr', d, x) && x !in live'
    {
      if x in free[d] { assert OneOfBlocks(hdr, d, x); }
      if x in free[c] { assert OneOfBlocks(hdr, c, x); }
    }
  }

  lemma LivesKept(hdr: map<nat, Header>, live: map<nat, nat>, hdr': map<nat, Header>, live': map<nat, nat>)
    requires Lives(hdr, live) && KindsKept(hdr, hdr')
    requires forall y :: y in live' ==> (y in live && live[y] == live'[y]) || LiveOk(hdr', y, live'[y])
    ensures Lives(hdr', live')
  {
    hide FirstBlocks, BlockSize, CntPerPage, ArenaContainBlock;
    forall y | y in live' ensures LiveOk(hdr', y, live'[y]) {
      if y in live { assert LiveOk(hdr, y, live[y]); }
    }
  }

  /** Frame: the arenas other than `a` when only blocks of `a` moved. */
  lemma SmallsKept(free: seq<seq<nat>>, free': seq<seq<nat>>, hdr: map<nat, Header>, hdr': map<nat, Header>,
                   live: map<nat, nat>, live': map<nat, nat>, ripe: set<nat>, ripe': set<nat>, a: nat)
    requires |free| == |free'| == CLASSES && Smalls(free, hdr, live, ripe) && ripe <= {a}
    requires forall b :: b in hdr' && b != a ==> b in hdr && hdr'[b] == hdr[b]
    requires forall c, x :: 0 <= c < CLASSES && ArenaContainBlock(x) != a ==> (x in free[c] <==> x in free'[c])
    requires forall x :: ArenaContainBlock(x) != a ==> (x in live <==> x in live')
    requires a in hdr' && hdr'[a].Small? ==> SmallOk(free', hdr'[a], live', a, ripe')
    ensures Smalls(free', hdr', live', ripe')
  {
    hide FirstBlocks, BlockSize, CntPerPage, ArenaContainBlock, OnList;
    forall b | b in hdr' && hdr'[b].Small? && b != a ensures SmallOk(free', hdr'[b], live', b, ripe') {
      assert SmallOk(free, hdr[b], live, b, ripe);
      Untouched(free, free', hdr[b], live, live', b, ripe, ripe');
    }
  }

  lemma LargesKept(hdr: map<nat, Header>, hdr': map<nat, Header>, live: map<nat, nat>, live': map<nat, nat>, a: nat)
    requires Larges(hdr, live)
    requires forall b :: b in hdr' && b != a ==> b in hdr && hdr'[b] == hdr[b]
    requires forall x :: ArenaContainBlock(x) != a && x in live ==> x in live'
    requires a in hdr' && hdr'[a].Large? ==> LargeOk(hdr'[a], live', a)
    ensures Larges(hdr', live')
  {
    forall b | b in hdr' && hdr'[b].Large? && b != a ensures LargeOk(hdr'[b], live', b) {
      assert LargeOk(hdr[b], live, b);
      HeaderPage(b);
    }
  }

  lemma SubsetCard(s: set<nat>, t: set<nat>)
    requires s <= t
    ensures |s| <= |t| && (|s| == |t| ==> s == t)
  {
    assert |t| == |s| + |t - s| by { assert t == s + (t - s); }
  }

  lemma FreshArena(free: seq<seq<nat>>, hdr: map<nat, Header>, live: map<nat, nat>, a: nat, n: nat, x: nat)
    requires Ok(free, hdr, live) && Unused(hdr, a, n) && ArenaContainBlock(x) == a
    ensures x !in live && forall c :: 0 <= c < CLASSES ==> x !in free[c]
  {
    assert x in live ==> LiveOk(hdr, x, live[x]);
    assert forall c :: 0 <= c < CLASSES && x in free[c] ==> OneOfBlocks(hdr, c, x);
  }

  lemma AllOnList(c: nat, a: nat, list: seq<nat>)
    requires c < CLASSES && forall x :: x in list <==> x in Blocks(a, c)
    ensures |OnList(list, a)| == CntPerPage(c)
  {
    BlocksInPage(a, c);
    CountBlocks(a, c, CntPerPage(c));
    hide BlockSize, CntPerPage, FirstBlocks, ArenaContainBlock;
    assert OnList(list, a) == Blocks(a, c);
  }

  lemma Refilled(free: seq<seq<nat>>, hdr: map<nat, Header>, live: map<nat, nat>, c: nat, a: nat, list: seq<nat>,
                 home: nat)
    requires Ok(free, hdr, live) && c < CLASSES && free[c] == [] && Unused(hdr, a, 1)
    requires NoDup(list) && forall x :: x in list <==> x in Blocks(a, c)
    ensures Ok(free[c := list], hdr[a := Small(c, CntPerPage(c), home)], live, {a})
  {
    hide BlockSize, CntPerPage, FirstBlocks, ArenaIdxBlock, ArenaContainBlock, OnList, Blocks, Smalls, Larges, Lives;
    var free', hdr' := free[c := list], hdr[a := Small(c, CntPerPage(c), home)];
    BlocksInPage(a, c);
    AllOnList(c, a, list);
    forall x | ArenaContainBlock(x) == a ensures x !in live { FreshArena(free, hdr, live, a, 1, x); }
    ListsKept(free, hdr, live, hdr', live, c, list);
    LivesKept(hdr, live, hdr', live);
    LargesKept(hdr, hdr', live, live, a);
    SmallsKept(free, free', hdr, hdr', live, live, {}, {a}, a);
  }

  lemma Taken(free: seq<seq<nat>>, hdr: map<nat, Header>, live: map<nat, nat>, ripe: set<nat>, c: nat)
    requires Ok(free, hdr, live, ripe) && c < CLASSES && free[c] != []
    requires ripe <= {ArenaContainBlock(free[c][0])}
    ensures var x := free[c][0];
            var a := ArenaContainBlock(x);
            a in hdr && hdr[a].Small? && hdr[a].cnt > 0 && x !in live &&
            Ok(free[c := free[c][1..]], hdr[a := hdr[a].(cnt := hdr[a].cnt - 1)], live[x := BlockSize(c)])
  {
    hide BlockSize, CntPerPage, FirstBlocks, ArenaIdxBlock, ArenaContainBlock, SmallOk, Smalls, Larges, Lives;
    var s, x := free[c], free[c][0];
    var t := s[1..];
    assert s == [x] + t;
    assert OneOfBlocks(hdr, c, x);
    var a := ArenaContainBlock(x);
    TakenCount(free, hdr, live, ripe, c);
    var free', hdr', live' := free[c := t], hdr[a := hdr[a].(cnt := hdr[a].cnt - 1)], live[x := BlockSize(c)];
    ListsKept(free, hdr, live, hdr', live', c, t);
    LivesKept(hdr, live, hdr', live');
    LargesKept(hdr, hdr', live, live', a);
    SmallsKept(free, free', hdr, hdr', live, live', ripe, {}, a);
  }

  /** The arena the block is taken from. */
  lemma TakenCount(free: seq<seq<nat>>, hdr: map<nat, Header>, live: map<nat, nat>, ripe: set<nat>, c: nat)
    requires Ok(free, hdr, live, ripe) && c < CLASSES && free[c] != []
    ensures var x := free[c][0];
            var a := ArenaContainBlock(x);
            a in hdr && hdr[a].Small? && hdr[a].cls == c && hdr[a].cnt > 0 && x !in live && x !in free[c][1..] &&
            SmallOk(free[c := free[c][1..]], hdr[a].(cnt := hdr[a].cnt - 1), live[x := BlockSize(c)], a, {})
  {
    hide BlockSize, CntPerPage, FirstBlocks, ArenaIdxBlock, ArenaContainBlock;
    var s, x := free[c], free[c][0];
    assert OneOfBlocks(hdr, c, x);
    var a := ArenaContainBlock(x);
    assert SmallOk(free, hdr[a], live, a, ripe);
    FirstOnList(s, a);
    OnListAreBlocks(hdr, s, c, a);
    BlocksInPage(a, c);
    CountBlocks(a, c, CntPerPage(c));
    hide OnList;
    SubsetCard(OnList(s, a), Blocks(a, c));
  }

  lemma FirstOnList(s: seq<nat>, a: nat)
    requires NoDup(s) && s != [] && ArenaContainBlock(s[0]) == a
    ensures s[0] !in s[1..] && OnList(s, a) == OnList(s[1..], a) + {s[0]} && |OnList(s, a)| == |OnList(s[1..], a)| + 1
    ensures forall y :: y in s ==> y == s[0] || y in s[1..]
  {
    hide ArenaContainBlock;
    assert s == [s[0]] + s[1..];
    assert OnList(s, a) == OnList(s[1..], a) + {s[0]} && s[0] !in OnList(s[1..], a);
  }

  lemma OnListAreBlocks(hdr: map<nat, Header>, s: seq<nat>, c: nat, a: nat)
    requires c < CLASSES && forall x :: x in s ==> OneOfBlocks(hdr, c, x)
    ensures OnList(s, a) <= Blocks(a, c)
  {
    hide ArenaContainBlock, Blocks;
  }

  lemma GivenBack(free: seq<seq<nat>>, hdr: map<nat, Header>, live: map<nat, nat>, x: nat)
    requires Ok(free, hdr, live) && x in live
    requires hdr[ArenaContainBlock(x)].Small?
    ensures var a := ArenaContainBlock(x);
            var h := hdr[a];
            h.cls < CLASSES &&
            Ok(free[h.cls := free[h.cls] + [x]], hdr[a := h.(cnt := h.cnt + 1)], live - {x}, {a})
  {
    hide BlockSize, CntPerPage, FirstBlocks, ArenaIdxBlock, ArenaContainBlock, Larges, Smalls;
    var a := ArenaContainBlock(x);
    assert LiveOk(hdr, x, live[x]);
    GivenBackCount(free, hdr, live, x);
    hide Lives, SmallOk;
    var c := hdr[a].cls;
    var s, t := free[c], free[c] + [x];
    var free', hdr', live' := free[c := t], hdr[a := hdr[a].(cnt := hdr[a].cnt + 1)], live - {x};
    assert x !in s;
    ListsKept(free, hdr, live, hdr', live', c, t);
    LivesKept(hdr, live, hdr', live');
    LargesKept(hdr, hdr', live, live', a);
    SmallsKept(free, free', hdr, hdr', live, live', {}, {a}, a);
  }

  /** The arena the block is given back to. */
  lemma GivenBackCount(free: seq<seq<nat>>, hdr: map<nat, Header>, live: map<nat, nat>, x: nat)
    requires Ok(free, hdr, live) && x in live
    requires hdr[ArenaContainBlock(x)].Small?
    ensures var a := ArenaContainBlock(x);
            var h := hdr[a];
            h.cls < CLASSES && x !in free[h.cls] && x in Blocks(a, h.cls) &&
            SmallOk(free[h.cls := free[h.cls] + [x]], h.(cnt := h.cnt + 1), live - {x}, a, {a})
  {
    hide BlockSize, CntPerPage, FirstBlocks, ArenaIdxBlock, ArenaContainBlock, Blocks;
    var a := ArenaContainBlock(x);
    assert LiveOk(hdr, x, live[x]);
    assert SmallOk(free, hdr[a], live, a, {});
    var s := free[hdr[a].cls];
    assert x !in s;
    OneMoreOnList(s, x, a);
    hide Ok, OnList;
  }

  lemma OneMoreOnList(s: seq<nat>, x: nat, a: nat)
    requires x !in s && ArenaContainBlock(x) == a
    ensures |OnList(s + [x], a)| == |OnList(s, a)| + 1
  {
    assert OnList(s + [x], a) == OnList(s, a) + {x} && x !in OnList(s, a);
  }

  /** The count reaches the number of blocks exactly when all blocks are on the list, that is when
      none is outstanding. */
  lemma RipeIsFree(free: seq<seq<nat>>, hdr: map<nat, Header>, live: map<nat, nat>, a: nat)
    requires Ok(free, hdr, live, {a}) && a in hdr && hdr[a].Small? && hdr[a].cls < CLASSES
    ensures NoDup(free[hdr[a].cls]) && hdr[a].cnt <= CntPerPage(hdr[a].cls)
    ensures hdr[a].cnt == CntPerPage(hdr[a].cls) <==> forall x :: x in Blocks(a, hdr[a].cls) ==> x in free[hdr[a].cls]
    ensures hdr[a].cnt == CntPerPage(hdr[a].cls) <==> forall x :: x in live ==> ArenaContainBlock(x) != a
  {
    var c := hdr[a].cls;
    assert SmallOk(free, hdr[a], live, a, {a});
    BlocksInPage(a, c);
    CountBlocks(a, c, CntPerPage(c));
    assert OnList(free[c], a) <= Blocks(a, c);
    SubsetCard(OnList(free[c], a), Blocks(a, c));
    forall x | x in live && ArenaContainBlock(x) == a ensures x in Blocks(a, c) && x !in free[c] {
      assert LiveOk(hdr, x, live[x]);
    }
    if forall x :: x in Blocks(a, c) ==> x in free[c] { assert OnList(free[c], a) == Blocks(a, c); }
  }

  lemma RemovedLists(free: seq<seq<nat>>, hdr: map<nat, Header>, live: map<nat, nat>, a: nat, t: seq<nat>)
    requires ListsOk(free, hdr, live) && a in hdr && hdr[a].Small? && hdr[a].cls < CLASSES
    requires NoDup(t) && forall y :: y in t <==> y in free[hdr[a].cls] && y !in Blocks(a, hdr[a].cls)
    ensures ListsOk(free[hdr[a].cls := t], hdr - {a}, live)
  {
    var c := hdr[a].cls;
    hide BlockSize, CntPerPage, FirstBlocks, ArenaIdxBlock, ArenaContainBlock;
    forall d, y | 0 <= d < CLASSES && y in free[c := t][d] ensures OneOfBlocks(hdr - {a}, d, y) && y !in live {
      assert OneOfBlocks(hdr, d, y);
    }
  }

  lemma Removed(free: seq<seq<nat>>, hdr: map<nat, Header>, live: map<nat, nat>, a: nat, t: seq<nat>)
    requires Ok(free, hdr, live, {a}) && a in hdr && hdr[a].Small? && hdr[a].cls < CLASSES
    requires hdr[a].cnt == CntPerPage(hdr[a].cls)
    requires NoDup(t) && forall y :: y in t <==> y in free[hdr[a].cls] && y !in Blocks(a, hdr[a].cls)
    ensures Ok(free[hdr[a].cls := t], hdr - {a}, live)
  {
    var c := hdr[a].cls;
    RipeIsFree(free, hdr, live, a);
    BlocksInPage(a, c);
    hide BlockSize, CntPerPage, FirstBlocks, ArenaIdxBlock, ArenaContainBlock, OnList, SmallOk, Smalls, Larges;
    var free', hdr' := free[c := t], hdr - {a};
    RemovedLists(free, hdr, live, a, t);
    hide ListsOk;
    assert Lives(hdr', live) by {
      forall y | y in live ensures LiveOk(hdr', y, live[y]) { assert LiveOk(hdr, y, live[y]); }
    }
    hide Lives, LiveOk;
    LargesKept(hdr, hdr', live, live, a);
    SmallsKept(free, free', hdr, hdr', live, live, {a}, {}, a);
  }

  lemma LargeAdded(free: seq<seq<nat>>, hdr: map<nat, Header>, live: map<nat, nat>, a: nat, n: nat)
    requires Ok(free, hdr, live) && n >= 1 && Unused(hdr, a, n)
    ensures a * PAGE + HEADER !in live
    ensures Ok(free, hdr[a := Large(n)], live[a * PAGE + HEADER := n * PAGE - HEADER])
  {
    hide BlockSize, CntPerPage, FirstBlocks, ArenaIdxBlock, ArenaContainBlock, Smalls, Larges, Lives;
    var x := a * PAGE + HEADER;
    HeaderPage(a);
    FreshArena(free, hdr, live, a, n, x);
    var hdr', live' := hdr[a := Large(n)], live[x := n * PAGE - HEADER];
    assert ListsOk(free, hdr', live') by {
      forall c, y | 0 <= c < CLASSES && y in free[c] ensures OneOfBlocks(hdr', c, y) && y !in live' {
        assert OneOfBlocks(hdr, c, y);
      }
    }
    LivesKept(hdr, live, hdr', live');
    LargesKept(hdr, hdr', live, live', a);
    SmallsKept(free, free, hdr, hdr', live, live', {}, {}, a);
  }

  lemma LargeRemoved(free: seq<seq<nat>>, hdr: map<nat, Header>, live: map<nat, nat>, x: nat)
    requires Ok(free, hdr, live) && x in live && hdr[ArenaContainBlock(x)].Large?
    ensures Ok(free, hdr - {ArenaContainBlock(x)}, live - {x})
  {
    hide BlockSize, CntPerPage, FirstBlocks, ArenaIdxBlock, ArenaContainBlock, SmallOk, Smalls, Larges;
    var a := ArenaContainBlock(x);
    assert LiveOk(hdr, x, live[x]);
    var hdr', live' := hdr - {a}, live - {x};
    assert ListsOk(free, hdr', live') by {
      forall c, y | 0 <= c < CLASSES && y in free[c] ensures OneOfBlocks(hdr', c, y) && y !in live' {
        assert OneOfBlocks(hdr, c, y);
      }
    }
    assert Lives(hdr', live') by {
      forall y | y in live' ensures LiveOk(hdr', y, live'[y]) { assert LiveOk(hdr, y, live[y]); }
    }
    hide ListsOk, Lives, LiveOk;
    LargesKept(hdr, hdr', live, live', a);
    SmallsKept(free, free, hdr, hdr', live, live', {}, {}, a);
  }

  // ---------- The two calls ----------

  /** The first size class that fits. */
  function ClassFor(size: nat): (c: nat)
    requires size <= 1024
    ensures c < CLASSES && size <= BlockSize(c)
    ensures forall d :: 0 <= d < c ==> BlockSize(d) < size
  {
    if size <= 16 then 0 else if size <= 32 then 1 else if size <= 64 then 2 else if size <= 128 then 3
    else if size <= 256 then 4 else if size <= 512 then 5 else 6
  }

  lemma OwnArena(free: seq<seq<nat>>, hdr: map<nat, Header>, live: map<nat, nat>, x: nat)
    requires Ok(free, hdr, live) && x in live
    ensures var a := ArenaContainBlock(x);
            a in hdr && Span(hdr[a]) >= 1 && |free| == CLASSES &&
            if hdr[a].Small? then hdr[a].cls < CLASSES
            else forall y :: y in live && ArenaContainBlock(y) == a ==> y == x
  {
    var a := ArenaContainBlock(x);
    assert LiveOk(hdr, x, live[x]);
    forall y | y in live && ArenaContainBlock(y) == a && hdr[a].Large? ensures y == x {
      assert LiveOk(hdr, y, live[y]);
    }
  }

  lemma NotRipe(free: seq<seq<nat>>, hdr: map<nat, Header>, live: map<nat, nat>, a: nat)
    requires Ok(free, hdr, live, {a}) && a in hdr && hdr[a].Small? && hdr[a].cls < CLASSES
    requires hdr[a].cnt < CntPerPage(hdr[a].cls)
    ensures Ok(free, hdr, live)
  {}

  const EMPTY: seq<seq<nat>> := [[], [], [], [], [], [], []]

  // ---------- After a fork ----------

  /** Every small arena points to the descriptors of `me`. */
  ghost predicate Homed(me: nat, hdr: map<nat, Header>)
  {
    forall a :: a in hdr && hdr[a].Small? ==> hdr[a].home == me
  }

  /** The free lists of all descriptor tables; they lie in kernel memory, which all processes share. */
  type Tables = map<nat, seq<seq<nat>>>

  /** A process's allocator: its table, and what its own memory holds. */
  datatype Owner = Owner(me: nat, hdr: map<nat, Header>, live: map<nat, nat>)

  ghost predicate InOrder(o: Owner, tables: Tables)
  {
    o.me in tables && Ok(tables[o.me], o.hdr, o.live) && Homed(o.me, o.hdr)
  }

  /** fork: the child's memory is a copy, headers included, and its own descriptors start empty. */
  function Forked(o: Owner, child: nat): Owner { o.(me := child) }

  lemma NoneIsOk(hdr: map<nat, Header>, free: seq<seq<nat>>, live: map<nat, nat>)
    requires Ok(free, hdr, live) && forall a :: a in hdr ==> hdr[a].Large?
    ensures Ok(EMPTY, hdr, live)
  {}

  /** The child's allocator is in order exactly if its parent has no small arena: the headers go on pointing
      to the parent's descriptors. */
  lemma ForkedInOrder(o: Owner, child: nat, tables: Tables)
    requires InOrder(o, tables) && child !in tables
    ensures InOrder(Forked(o, child), tables[child := EMPTY]) <==> forall a :: a in o.hdr ==> o.hdr[a].Large?
    ensures InOrder(o, tables[child := EMPTY])
  {
    if forall a :: a in o.hdr ==> o.hdr[a].Large? {
      NoneIsOk(o.hdr, tables[o.me], o.live);
    } else {
      var a :| a in o.hdr && o.hdr[a].Small?;
      assert o.hdr[a].home == o.me != child;
    }
  }

  /** syscall_free of a block in a small arena that stays: the block goes to the list its header names. */
  ghost function Pushed(tables: Tables, h: Header, x: nat): Tables
    requires h.Small? && h.home in tables && h.cls < |tables[h.home]|
  {
    var free := tables[h.home];
    tables[h.home := free[h.cls := free[h.cls] + [x]]]
  }

  /** When the child frees a block of a small arena it goes to the parent's list, and the parent, which still
      has it outstanding, is no longer in order. */
  lemma ChildFreesIntoParent(o: Owner, child: nat, tables: Tables, x: nat)
    requires InOrder(o, tables) && child !in tables
    requires x in o.live && o.hdr[ArenaContainBlock(x)].Small?
    ensures var h := o.hdr[ArenaContainBlock(x)];
            h.home == o.me && h.cls < |tables[o.me]| &&
            var t := Pushed(tables[child := EMPTY], h, x);
            t[child] == EMPTY && x in t[o.me][h.cls] && !InOrder(o, t)
  {
    var a := ArenaContainBlock(x);
    assert LiveOk(o.hdr, x, o.live[x]);
    hide FirstBlocks, CntPerPage, ArenaContainBlock, Smalls, Larges, Apart, Lives;
    var h := o.hdr[a];
    var free: seq<seq<nat>> := tables[o.me];
    var list := free[h.cls] + [x];
    assert list[|list| - 1] == x;
    assert free[h.cls := list][h.cls] == list;
  }

  /** One arena of three blocks of 1024 bytes, all outstanding, and every list empty: both would do on
      counts and lists, but the child's header names the parent's descriptor. */
  lemma FullArenaIsForkedWrongly(parent: nat, child: nat)
    requires parent != child
    ensures var blocks := map[5 * PAGE + 12 := 1024, 5 * PAGE + 1036 := 1024, 5 * PAGE + 2060 := 1024];
            var o := Owner(parent, map[5 := Small(6, 0, parent)], blocks);
            InOrder(o, map[parent := EMPTY]) && Ok(EMPTY, o.hdr, o.live) &&
            !InOrder(Forked(o, child), map[parent := EMPTY][child := EMPTY])
  {
    var blocks := map[5 * PAGE + 12 := 1024, 5 * PAGE + 1036 := 1024, 5 * PAGE + 2060 := 1024];
    var o := Owner(parent, map[5 := Small(6, 0, parent)], blocks);
    ThreeBlocks(o.hdr, blocks, parent);
    ForkedInOrder(o, child, map[parent := EMPTY]);
    assert 5 in o.hdr && o.hdr[5].Small?;
  }

  lemma ThreeBlocks(hdr: map<nat, Header>, live: map<nat, nat>, home: nat)
    requires hdr == map[5 := Small(6, 0, home)]
    requires live == map[5 * PAGE + 12 := 1024, 5 * PAGE + 1036 := 1024, 5 * PAGE + 2060 := 1024]
    ensures Ok(EMPTY, hdr, live)
  {
    assert CntPerPage(6) == 3 && BlockSize(6) == 1024;
    assert ArenaIdxBlock(5, 6, 0) == 5 * PAGE + 12;
    assert ArenaIdxBlock(5, 6, 1) == 5 * PAGE + 1036;
    assert ArenaIdxBlock(5, 6, 2) == 5 * PAGE + 2060;
    assert Blocks(5, 6) == {5 * PAGE + 12, 5 * PAGE + 1036, 5 * PAGE + 2060};
    assert OnList(EMPTY[6], 5) == {};
    hide BlockSize, CntPerPage, ArenaIdxBlock, FirstBlocks;
    forall x | x in live ensures LiveOk(hdr, x, live[x]) { assert x in Blocks(5, 6) && ArenaContainBlock(x) == 5; }
  }
}
