/** syscall_malloc and syscall_free (kernel/memory.c) on the pages of malloc_page and free_page: the slab
    allocator of one owner, either the kernel or the running process. */
module Allocator {
  import opened Basics
  import opened Lists
  import opened Arena
  import B = Bitmap
  import P = Pages

  /** `Crash` is the page fault inside malloc_page for want of a page table. `Wild`: the page count of
      the request came out as zero, and a header is written to a page that was never allocated. */
  datatype Answer = Null | Block(addr: nat) | Wild | Crash

  /** The owner's name, free lists, headers, the blocks handed out with their capacity, and the pages. */
  datatype State = State(me: nat, free: seq<seq<nat>>, hdr: map<nat, Header>, live: map<nat, nat>, s: P.State)

  // ---------- The invariant ----------

  /** The pages of every arena are mapped and in the owner's pool, as free_page demands. */
  ghost predicate Backed(l: P.Layout, flag: P.Owner, hdr: map<nat, Header>, s: P.State)
  {
    forall a :: a in hdr ==> P.CanFree(l, s, flag, a, Span(hdr[a]))
  }

  ghost predicate Inv(l: P.Layout, flag: P.Owner, h: State)
  {
    P.Inv(l, h.s) && Ok(h.free, h.hdr, h.live) && Homed(h.me, h.hdr) && Backed(l, flag, h.hdr, h.s)
  }

  ghost predicate Spanned(hdr: map<nat, Header>, u: nat)
  {
    exists a :: a in hdr && P.InRange(u, a, Span(hdr[a]))
  }

  /** The pages that are none of the allocator's. */
  ghost function Outside(h: State): map<nat, int>
  {
    map u | u in h.s.pages && !Spanned(h.hdr, u) :: h.s.pages[u]
  }

  /** No byte of an outstanding block is on an unmapped page. */
  lemma LiveIsMapped(l: P.Layout, flag: P.Owner, h: State, x: nat, i: nat)
    requires Inv(l, flag, h) && x in h.live && i < h.live[x]
    ensures (x + i) / PAGE in h.s.pages
  {
    assert LiveOk(h.hdr, x, h.live[x]);
    LiveInArena(h.hdr, x, h.live[x]);
    var a := ArenaContainBlock(x);
    assert P.CanFree(l, h.s, flag, a, Span(h.hdr[a]));
    hide Ok, LiveOk, P.Inv;
    PageOf(x + i, a, Span(h.hdr[a]));
  }

  lemma PageOf(y: nat, a: nat, n: nat)
    requires a * PAGE <= y < (a + n) * PAGE
    ensures a <= y / PAGE < a + n
  {}

  // ---------- What the calls do ----------

  function FirstList(a: nat, c: nat, n: nat): (r: seq<nat>)
    requires c < CLASSES
    ensures |r| == n
  {
    seq(n, i requires 0 <= i < n => ArenaIdxBlock(a, c, i))
  }

  /** A new page `a` cut into the blocks of class `c`. */
  function Refill(h: State, c: nat, a: nat): State
    requires |h.free| == CLASSES && c < CLASSES
  {
    h.(free := h.free[c := FirstList(a, c, CntPerPage(c))], hdr := h.hdr[a := Small(c, CntPerPage(c), h.me)])
  }

  ghost predicate HasFirst(h: State, c: nat)
  {
    |h.free| == CLASSES && c < CLASSES && h.free[c] != [] &&
    var a := ArenaContainBlock(h.free[c][0]);
    a in h.hdr && h.hdr[a].Small? && h.hdr[a].cnt > 0
  }

  /** The first block of a list is handed out. */
  ghost function TakeFirst(h: State, c: nat): State
    requires HasFirst(h, c)
  {
    var x := h.free[c][0];
    var a := ArenaContainBlock(x);
    h.(free := h.free[c := h.free[c][1..]], hdr := h.hdr[a := h.hdr[a].(cnt := h.hdr[a].cnt - 1)],
       live := h.live[x := BlockSize(c)])
  }

  datatype Reply = Reply(h: State, ans: Answer)

  /** The request cannot be served from a free list. */
  predicate NeedsPages(h: State, size: nat)
    requires |h.free| == CLASSES
  {
    size > 1024 || h.free[ClassFor(size)] == []
  }

  function PagesFor(size: nat): nat { if size > 1024 then PageCount(size) else 1 }

  ghost function WithArena(h: State, size: nat, a: nat): State
    requires |h.free| == CLASSES && PagesFor(size) > 0
  {
    PageCountPositive(size);
    if size > 1024 then
      h.(hdr := h.hdr[a := Large(PageCount(size))],
         live := h.live[a * PAGE + HEADER := PageCount(size) * PAGE - HEADER])
    else Refill(h, ClassFor(size), a)
  }

  /** syscall_malloc. */
  ghost function AfterMalloc(l: P.Layout, flag: P.Owner, h: State, size: nat): (r: Reply)
    requires Inv(l, flag, h) && size < TWO32
  {
    if !NeedsPages(h, size) then
      FirstIsThere(l, flag, h, ClassFor(size));
      Reply(TakeFirst(h, ClassFor(size)), Block(h.free[ClassFor(size)][0]))
    else
      var p := P.Malloc(l, h.s, flag, PagesFor(size));
      var b := h.(s := p.s);
      match p.out
      case NoMemory => Reply(b, Null)
      case Fault => Reply(b, Crash)
      case Mapped(a) =>
        if PagesFor(size) == 0 then Reply(b, Wild)
        else if size > 1024 then Reply(WithArena(b, size, a), Block(a * PAGE + HEADER))
        else
          SmallGranted(l, flag, h, size);
          Reply(TakeFirst(WithArena(b, size, a), ClassFor(size)), Block(WithArena(b, size, a).free[ClassFor(size)][0]))
  }

  /** A list after the first `n` blocks of arena `a` have been taken off. */
  function Unlinked(list: seq<nat>, a: nat, c: nat, n: nat): seq<nat>
    requires c < CLASSES
  {
    if n == 0 then list
    else
      var rest := Unlinked(list, a, c, n - 1);
      var x := ArenaIdxBlock(a, c, n - 1);
      if x in rest then Unlink(rest, x) else rest
  }

  lemma {:induction false} UnlinkedFacts(list: seq<nat>, a: nat, c: nat, n: nat)
    requires c < CLASSES && NoDup(list)
    ensures NoDup(Unlinked(list, a, c, n))
    ensures forall y :: y in Unlinked(list, a, c, n) <==> y in list && y !in FirstBlocks(a, c, n)
  {
    hide ArenaIdxBlock, FirstBlocks;
    if n == 0 {
      NoBlocks(a, c);
    } else {
      UnlinkedFacts(list, a, c, n - 1);
      FirstBlocksGrow(a, c, n - 1);
      var rest, x := Unlinked(list, a, c, n - 1), ArenaIdxBlock(a, c, n - 1);
      if x in rest { UnlinkTakesOne(rest, x); }
    }
  }

  lemma NoBlocks(a: nat, c: nat)
    requires c < CLASSES
    ensures FirstBlocks(a, c, 0) == {}
  {}

  /** What syscall_free needs to find at the block's page. */
  ghost predicate Releasable(l: P.Layout, flag: P.Owner, h: State, x: nat)
  {
    var a := ArenaContainBlock(x);
    |h.free| == CLASSES && a in h.hdr && (h.hdr[a].Small? ==> h.hdr[a].cls < CLASSES && h.hdr[a].home == h.me) &&
    P.CanFree(l, h.s, flag, a, Span(h.hdr[a]))
  }

  /** syscall_free; the number is what it reports as released. */
  ghost function AfterFree(l: P.Layout, flag: P.Owner, h: State, x: nat): (r: (State, nat))
    requires Releasable(l, flag, h, x)
  {
    var a := ArenaContainBlock(x);
    var k := h.hdr[a];
    if k.Large? then
      (h.(hdr := h.hdr - {a}, live := h.live - {x}, s := P.Free(l, h.s, flag, a, k.cnt)), k.cnt * PAGE)
    else
      var list := h.free[k.cls] + [x];
      if k.cnt + 1 == CntPerPage(k.cls) then
        (State(h.me, h.free[k.cls := Unlinked(list, a, k.cls, CntPerPage(k.cls))], h.hdr - {a}, h.live - {x},
               P.Free(l, h.s, flag, a, 1)), PAGE)
      else
        (h.(free := h.free[k.cls := list], hdr := h.hdr[a := k.(cnt := k.cnt + 1)], live := h.live - {x}), 0)
  }

  lemma LiveIsReleasable(l: P.Layout, flag: P.Owner, h: State, x: nat)
    requires Inv(l, flag, h) && x in h.live
    ensures Releasable(l, flag, h, x)
  {
    OwnArena(h.free, h.hdr, h.live, x);
    hide Ok, P.Inv, P.CanFree, ArenaContainBlock;
  }

  // ---------- New pages ----------

  lemma SpansArePositive(free: seq<seq<nat>>, hdr: map<nat, Header>, live: map<nat, nat>, ripe: set<nat>)
    requires Ok(free, hdr, live, ripe)
    ensures |free| == CLASSES && forall a :: a in hdr ==> Span(hdr[a]) >= 1
  {
    assert forall a :: a in hdr && hdr[a].Large? ==> LargeOk(hdr[a], live, a);
  }

  /** What malloc_page hands out lies in no arena. */
  lemma PagesAreUnused(l: P.Layout, flag: P.Owner, h: State, t: P.State, a: nat, n: nat)
    requires Inv(l, flag, h) && n > 0 && P.Allocates(h.s, t, a, n)
    ensures Unused(h.hdr, a, n)
  {
    hide Ok, P.Inv, P.TablesGrow;
    SpansArePositive(h.free, h.hdr, h.live, {});
    forall b | b in h.hdr ensures (a + n <= b || b + Span(h.hdr[b]) <= a) && a != b {
      assert P.CanFree(l, h.s, flag, b, Span(h.hdr[b]));
      var u := if a < b then b else a;
      assert u < a + n ==> P.InRange(u, a, n) && u in P.Range(a, n);
    }
  }

  lemma ArenasStayBacked(l: P.Layout, flag: P.Owner, h: State, t: P.State, a: nat, n: nat)
    requires Backed(l, flag, h.hdr, h.s) && P.Allocates(h.s, t, a, n)
    ensures Backed(l, flag, h.hdr, t)
  {
    hide P.TablesGrow;
    forall b | b in h.hdr ensures P.CanFree(l, t, flag, b, Span(h.hdr[b])) {
      assert P.CanFree(l, h.s, flag, b, Span(h.hdr[b]));
    }
  }

  lemma GotPages(l: P.Layout, flag: P.Owner, h: State, n: nat)
    requires Inv(l, flag, h) && P.Malloc(l, h.s, flag, n).out.Mapped? && n > 0
    ensures var p := P.Malloc(l, h.s, flag, n);
            Unused(h.hdr, p.out.vpn, n) && P.Inv(l, p.s) && P.Allocates(h.s, p.s, p.out.vpn, n) &&
            Backed(l, flag, h.hdr, p.s) && P.CanFree(l, p.s, flag, p.out.vpn, n)
  {
    hide Ok, P.Inv, P.Malloc, P.Allocates, P.CanFree, Backed;
    P.MallocFacts(l, h.s, flag, n);
    var p := P.Malloc(l, h.s, flag, n);
    PagesAreUnused(l, flag, h, p.s, p.out.vpn, n);
    ArenasStayBacked(l, flag, h, p.s, p.out.vpn, n);
  }

  lemma PageCountPositive(size: nat)
    requires PagesFor(size) > 0
    ensures size > 1024 ==> PageCount(size) >= 1
  {}

  lemma LargeGranted(l: P.Layout, flag: P.Owner, h: State, size: nat)
    requires Inv(l, flag, h) && 1024 < size < TWO32 && PageCount(size) > 0
    requires P.Malloc(l, h.s, flag, PageCount(size)).out.Mapped?
    ensures var p := P.Malloc(l, h.s, flag, PageCount(size));
            var t := WithArena(h.(s := p.s), size, p.out.vpn);
            Inv(l, flag, t) && p.out.vpn * PAGE + HEADER !in h.live && Outside(t) == Outside(h) &&
            P.Allocates(h.s, p.s, p.out.vpn, PageCount(size))
  {
    var n := PageCount(size);
    hide Ok, P.Inv, P.Malloc, P.Allocates, P.CanFree, PageCount;
    GotPages(l, flag, h, n);
    SpansArePositive(h.free, h.hdr, h.live, {});
    var p := P.Malloc(l, h.s, flag, n);
    LargeAdded(h.free, h.hdr, h.live, p.out.vpn, n);
    OutsideGrows(h, WithArena(h.(s := p.s), size, p.out.vpn), p.out.vpn, n);
  }

  lemma OutsideGrows(h: State, t: State, a: nat, n: nat)
    requires Unused(h.hdr, a, n) && P.Allocates(h.s, t.s, a, n)
    requires a in t.hdr && Span(t.hdr[a]) == n && t.hdr == h.hdr[a := t.hdr[a]]
    ensures Outside(t) == Outside(h)
  {
    hide P.TablesGrow;
    forall u ensures Spanned(t.hdr, u) <==> Spanned(h.hdr, u) || P.InRange(u, a, n) {
      if P.InRange(u, a, n) { assert a in t.hdr && P.InRange(u, a, Span(t.hdr[a])); }
      if b :| b in h.hdr && P.InRange(u, b, Span(h.hdr[b])) { assert b in t.hdr && t.hdr[b] == h.hdr[b]; }
    }
    assert forall u: nat :: u in P.Range(a, n) <==> P.InRange(u, a, n);
  }

  lemma FirstListFacts(a: nat, c: nat, n: nat)
    requires c < CLASSES
    ensures NoDup(FirstList(a, c, n)) && forall x :: x in FirstList(a, c, n) <==> x in FirstBlocks(a, c, n)
  {
    var s := FirstList(a, c, n);
    forall i, j | 0 <= i < j < n ensures s[i] != s[j] { BlocksApart(a, c, i, j); }
    hide ArenaIdxBlock;
    forall x | x in FirstBlocks(a, c, n) ensures x in s {
      var i :| 0 <= i < n && x == ArenaIdxBlock(a, c, i);
      assert s[i] == x;
    }
  }

  /** A new page cut into blocks has a first block to hand out; its arena is the only one that may be
      entirely free. */
  lemma PageCut(l: P.Layout, flag: P.Owner, h: State, size: nat)
    requires Inv(l, flag, h) && size <= 1024 && NeedsPages(h, size) && P.Malloc(l, h.s, flag, 1).out.Mapped?
    ensures var p, c := P.Malloc(l, h.s, flag, 1), ClassFor(size);
            var b := WithArena(h.(s := p.s), size, p.out.vpn);
            Ok(b.free, b.hdr, b.live, {p.out.vpn}) && b.free[c] != [] && ArenaContainBlock(b.free[c][0]) == p.out.vpn &&
            Homed(b.me, b.hdr) && Backed(l, flag, b.hdr, b.s) && P.Inv(l, b.s) && Outside(b) == Outside(h) &&
            P.Allocates(h.s, p.s, p.out.vpn, 1)
  {
    hide P.Inv, P.Malloc, P.Allocates, P.CanFree, Ok, BlockSize, CntPerPage, Unused, ArenaIdxBlock, ArenaContainBlock;
    var p, c := P.Malloc(l, h.s, flag, 1), ClassFor(size);
    GotPages(l, flag, h, 1);
    SpansArePositive(h.free, h.hdr, h.live, {});
    FirstListFacts(p.out.vpn, c, CntPerPage(c));
    Refilled(h.free, h.hdr, h.live, c, p.out.vpn, FirstList(p.out.vpn, c, CntPerPage(c)), h.me);
    BlockInPage(p.out.vpn, c, 0);
    OutsideGrows(h, WithArena(h.(s := p.s), size, p.out.vpn), p.out.vpn, 1);
  }

  lemma FirstIsThere(l: P.Layout, flag: P.Owner, h: State, c: nat)
    requires Inv(l, flag, h) && c < CLASSES && h.free[c] != []
    ensures HasFirst(h, c)
  {
    Taken(h.free, h.hdr, h.live, {}, c);
  }

  /** Handing out the first block of a list. */
  lemma FirstGranted(l: P.Layout, flag: P.Owner, h: State, c: nat, ripe: set<nat>)
    requires Ok(h.free, h.hdr, h.live, ripe) && c < CLASSES && h.free[c] != []
    requires ripe <= {ArenaContainBlock(h.free[c][0])}
    requires P.Inv(l, h.s) && Homed(h.me, h.hdr) && Backed(l, flag, h.hdr, h.s)
    ensures HasFirst(h, c) && Inv(l, flag, TakeFirst(h, c)) && h.free[c][0] !in h.live
    ensures Outside(TakeFirst(h, c)) == Outside(h)
  {
    hide Ok, P.Inv, P.CanFree, ArenaContainBlock, BlockSize, Backed, Outside;
    SpansArePositive(h.free, h.hdr, h.live, ripe);
    Taken(h.free, h.hdr, h.live, ripe, c);
    OutsideSame(h, TakeFirst(h, c));
    BackedSame(l, flag, h, TakeFirst(h, c));
  }

  ghost predicate SameSpans(h: map<nat, Header>, t: map<nat, Header>)
  {
    h.Keys == t.Keys && forall a :: a in h ==> Span(h[a]) == Span(t[a])
  }

  lemma OutsideSame(h: State, t: State)
    requires SameSpans(h.hdr, t.hdr) && h.s.pages == t.s.pages
    ensures Outside(t) == Outside(h)
  {
    forall u ensures Spanned(h.hdr, u) <==> Spanned(t.hdr, u) {
      if a :| a in h.hdr && P.InRange(u, a, Span(h.hdr[a])) { assert a in t.hdr && P.InRange(u, a, Span(t.hdr[a])); }
      if a :| a in t.hdr && P.InRange(u, a, Span(t.hdr[a])) { assert a in h.hdr && P.InRange(u, a, Span(h.hdr[a])); }
    }
  }

  lemma BackedSame(l: P.Layout, flag: P.Owner, h: State, t: State)
    requires SameSpans(h.hdr, t.hdr) && h.s == t.s && Backed(l, flag, h.hdr, h.s)
    ensures Backed(l, flag, t.hdr, t.s)
  {
    hide P.CanFree;
  }

  lemma SmallGranted(l: P.Layout, flag: P.Owner, h: State, size: nat)
    requires Inv(l, flag, h) && size <= 1024 && NeedsPages(h, size) && P.Malloc(l, h.s, flag, 1).out.Mapped?
    ensures var p, c := P.Malloc(l, h.s, flag, 1), ClassFor(size);
            var b := WithArena(h.(s := p.s), size, p.out.vpn);
            HasFirst(b, c) && Inv(l, flag, TakeFirst(b, c)) && b.free[c][0] !in h.live &&
            Outside(TakeFirst(b, c)) == Outside(h) &&
            P.Allocates(h.s, p.s, p.out.vpn, 1)
  {
    hide P.Inv, P.Malloc, P.Allocates, P.CanFree, Ok, BlockSize, ArenaContainBlock, FirstList, Backed, Outside;
    SpansArePositive(h.free, h.hdr, h.live, {});
    PageCut(l, flag, h, size);
    var p := P.Malloc(l, h.s, flag, 1);
    FirstGranted(l, flag, WithArena(h.(s := p.s), size, p.out.vpn), ClassFor(size), {p.out.vpn});
  }

  // ---------- What the calls keep ----------

  /** What never changes in a call: the pages of others, and that tables and lost pages only grow. */
  ghost predicate OthersKept(h: State, t: State)
  {
    t.me == h.me && Outside(t) == Outside(h) && P.SameSizes(h.s, t.s) && P.TablesGrow(h.s, t.s) && h.s.lost <= t.s.lost
  }

  /** The call found addresses but not the frames for them. */
  ghost predicate Short(l: P.Layout, flag: P.Owner, h: State, size: nat)
    requires P.Inv(l, h.s) && |h.free| == CLASSES
  {
    NeedsPages(h, size) && P.Short(l, h.s, P.Get(flag, PagesFor(size)))
  }

  ghost predicate Grants(h: State, t: State, x: nat, size: nat)
  {
    x !in h.live && x in t.live && t.live == h.live[x := t.live[x]] &&
    (t.live[x] >= size <==> size + HEADER + (PAGE - 1) < TWO32)
  }

  lemma OthersKeptBy(h: State, t: State)
    requires t.me == h.me && Outside(t) == Outside(h)
    requires P.SameSizes(h.s, t.s) && P.TablesGrow(h.s, t.s) && h.s.lost <= t.s.lost
    ensures OthersKept(h, t)
  {}

  lemma NothingTaken(l: P.Layout, flag: P.Owner, h: State, n: nat)
    requires Inv(l, flag, h) && P.Malloc(l, h.s, flag, n).out == P.NoMemory
    ensures var t := h.(s := P.Malloc(l, h.s, flag, n).s);
            Inv(l, flag, t) && OthersKept(h, t) && t.s.pages == h.s.pages &&
            (t.s.lost == h.s.lost <==> !P.Short(l, h.s, P.Get(flag, n)))
  {
    P.MallocFacts(l, h.s, flag, n);
    P.AfterKeeps(l, h.s, P.Get(flag, n));
    hide Ok, P.Inv, P.Malloc, P.Enough, P.Allocates, P.Short;
    var t := h.(s := P.Malloc(l, h.s, flag, n).s);
    forall a | a in h.hdr ensures P.CanFree(l, t.s, flag, a, Span(h.hdr[a])) {
      assert P.CanFree(l, h.s, flag, a, Span(h.hdr[a]));
    }
  }

  lemma GrantsLarge(h: State, t: State, size: nat, a: nat)
    requires 1024 < size < TWO32 && PageCount(size) > 0 && |h.free| == CLASSES && t.live == WithArena(h, size, a).live
    requires a * PAGE + HEADER !in h.live
    ensures Grants(h, t, a * PAGE + HEADER, size)
  {
    PageCountSuffices(size);
    hide PageCount;
  }

  /** A block handed out is new, and large enough exactly if the page count did not wrap. Without a block
      nothing has changed but the virtual bits a shortage has lost. */
  lemma MallocKeeps(l: P.Layout, flag: P.Owner, h: State, size: nat)
    requires Inv(l, flag, h) && size < TWO32
    ensures |h.free| == CLASSES
    ensures var r := AfterMalloc(l, flag, h, size);
            (r.ans.Block? ==>
               Inv(l, flag, r.h) && OthersKept(h, r.h) && r.h.s.lost == h.s.lost && Grants(h, r.h, r.ans.addr, size)) &&
            (r.ans == Null ==>
               Inv(l, flag, r.h) && OthersKept(h, r.h) && NeedsPages(h, size) &&
               r.h == h.(s := r.h.s) && r.h.s.pages == h.s.pages &&
               (r.h.s.lost == h.s.lost <==> !Short(l, flag, h, size))) &&
            (r.ans == Wild ==> size > 1024 && PageCount(size) == 0) &&
            (!NeedsPages(h, size) ==> r.ans.Block? && r.h.s == h.s)
  {
    hide Ok, P.Inv, P.Malloc, P.Allocates, P.CanFree, Backed, Outside;
    hide PageCount, BlockSize, ArenaContainBlock, P.Short, OthersKept, P.TablesGrow;
    SpansArePositive(h.free, h.hdr, h.live, {});
    if !NeedsPages(h, size) {
      FirstGranted(l, flag, h, ClassFor(size), {});
      P.NothingHappened(h.s);
      OthersKeptBy(h, TakeFirst(h, ClassFor(size)));
    } else {
      var p := P.Malloc(l, h.s, flag, PagesFor(size));
      match p.out
      case NoMemory => NothingTaken(l, flag, h, PagesFor(size));
      case Fault =>
      case Mapped(a) =>
        if PagesFor(size) == 0 {
        } else if size > 1024 {
          LargeGranted(l, flag, h, size);
          AllocatedKept(h, WithArena(h.(s := p.s), size, a), a, PageCount(size));
          GrantsLarge(h, WithArena(h.(s := p.s), size, a), size, a);
        } else {
          SmallGranted(l, flag, h, size);
          AllocatedKept(h, TakeFirst(WithArena(h.(s := p.s), size, a), ClassFor(size)), a, 1);
        }
    }
  }

  // ---------- What a request gets ----------

  /** The block at the front of its class's list, if there is one. Otherwise pages: 12 bytes into the first
      page of the first run of virtual pages that is long enough, if the frames for all of them and for
      their tables are there; and if not, nothing, or a page fault where malloc_page has one. */
  ghost predicate Answered(l: P.Layout, flag: P.Owner, h: State, size: nat, ans: Answer)
    requires |h.free| == CLASSES
  {
    if size <= 1024 && h.free[ClassFor(size)] != [] then ans == Block(h.free[ClassFor(size)][0])
    else
      var n := if size <= 1024 then 1 else (HEADER + size + (PAGE - 1)) % TWO32 / PAGE;
      var i := B.Found(if flag == P.KERNEL then h.s.kvbits else h.s.uvbits, n);
      var a := (if flag == P.KERNEL then l.kbase else l.ubase) + i;
      if i == -1 then ans == Null
      else if P.Enough(h.s, flag, a, n) then ans == if n == 0 then Wild else Block(a * PAGE + HEADER)
      else ans == if P.Faults(h.s, flag, a, n) then Crash else Null
  }

  lemma MallocAnswers(l: P.Layout, flag: P.Owner, h: State, size: nat)
    requires Inv(l, flag, h) && size < TWO32
    ensures |h.free| == CLASSES && Answered(l, flag, h, size, AfterMalloc(l, flag, h, size).ans)
  {
    FreeListsThere(l, flag, h);
    if NeedsPages(h, size) {
      PagesAnswer(l, flag, h, size);
      P.MallocOutcome(l, h.s, flag, PagesFor(size));
      var out, ans := P.Malloc(l, h.s, flag, PagesFor(size)).out, AfterMalloc(l, flag, h, size).ans;
      hide Inv, P.Inv, P.Malloc, P.Enough, P.Faults, B.Found, AfterMalloc, PagesFor, ClassFor, Answered;
      AnsweredBy(l, flag, h, size, out, ans);
    }
  }

  lemma AnsweredBy(l: P.Layout, flag: P.Owner, h: State, size: nat, out: P.Outcome, ans: Answer)
    requires |h.free| == CLASSES && NeedsPages(h, size)
    requires var n := PagesFor(size);
             var i := B.Found(P.VBits(h.s, flag), n);
             out == if i == -1 then P.NoMemory
                    else if P.Enough(h.s, flag, P.Base(l, flag) + i, n) then P.Mapped(P.Base(l, flag) + i)
                    else if P.Faults(h.s, flag, P.Base(l, flag) + i, n) then P.Fault
                    else P.NoMemory
    requires ans == match out
                    case NoMemory => Null
                    case Fault => Crash
                    case Mapped(a) => if PagesFor(size) == 0 then Wild else Block(a * PAGE + HEADER)
    ensures Answered(l, flag, h, size, ans)
  {
    hide P.Enough, P.Faults, B.Found, ClassFor;
    assert PagesFor(size) == if size <= 1024 then 1 else (HEADER + size + (PAGE - 1)) % TWO32 / PAGE;
    hide PagesFor;
  }

  lemma PagesAnswer(l: P.Layout, flag: P.Owner, h: State, size: nat)
    requires Inv(l, flag, h) && size < TWO32 && |h.free| == CLASSES && NeedsPages(h, size)
    ensures AfterMalloc(l, flag, h, size).ans ==
              match P.Malloc(l, h.s, flag, PagesFor(size)).out
              case NoMemory => Null
              case Fault => Crash
              case Mapped(a) => if PagesFor(size) == 0 then Wild else Block(a * PAGE + HEADER)
  {
    FreeListsThere(l, flag, h);
    hide Inv, P.Inv, P.Malloc, PageCount, Refill;
    if size <= 1024 && P.Malloc(l, h.s, flag, 1).out.Mapped? {
      SmallGranted(l, flag, h, size);
      RestOfPage(h.(s := P.Malloc(l, h.s, flag, 1).s), ClassFor(size), P.Malloc(l, h.s, flag, 1).out.vpn);
    }
    hide ClassFor, TakeFirst;
  }

  /** How the answer leaves lists, headers and pages. */
  ghost predicate Served(h: State, t: State, size: nat, x: nat)
    requires |h.free| == CLASSES
  {
    var a := ArenaContainBlock(x);
    t.me == h.me &&
    if size > 1024 then
      var n := PageCount(size);
      n >= 1 && t.free == h.free && t.hdr == h.hdr[a := Large(n)] && t.live == h.live[x := n * PAGE - HEADER] &&
      P.Allocates(h.s, t.s, a, n)
    else
      var c := ClassFor(size);
      t.live == h.live[x := BlockSize(c)] && |t.free| == CLASSES && t.free == h.free[c := t.free[c]] &&
      if h.free[c] != [] then
        a in h.hdr && h.hdr[a].Small? && h.hdr[a].cnt > 0 && t.s == h.s && t.free[c] == h.free[c][1..] &&
        t.hdr == h.hdr[a := h.hdr[a].(cnt := h.hdr[a].cnt - 1)]
      else
        P.Allocates(h.s, t.s, a, 1) && t.hdr == h.hdr[a := Small(c, CntPerPage(c) - 1, h.me)] &&
        |t.free[c]| == CntPerPage(c) - 1 &&
        forall i :: 0 <= i < |t.free[c]| ==> t.free[c][i] == a * PAGE + HEADER + (i + 1) * BlockSize(c)
  }

  lemma MallocServes(l: P.Layout, flag: P.Owner, h: State, size: nat)
    requires Inv(l, flag, h) && size < TWO32 && AfterMalloc(l, flag, h, size).ans.Block?
    ensures |h.free| == CLASSES
    ensures Served(h, AfterMalloc(l, flag, h, size).h, size, AfterMalloc(l, flag, h, size).ans.addr)
  {
    FreeListsThere(l, flag, h);
    if NeedsPages(h, size) {
      PagesServe(l, flag, h, size);
    } else {
      FirstIsThere(l, flag, h, ClassFor(size));
      hide Ok, P.Inv, P.CanFree, ArenaContainBlock, BlockSize;
    }
  }

  lemma LargeServed(h: State, s: P.State, size: nat, a: nat)
    requires |h.free| == CLASSES && 1024 < size && PageCount(size) > 0 && P.Allocates(h.s, s, a, PageCount(size))
    ensures Served(h, WithArena(h.(s := s), size, a), size, a * PAGE + HEADER)
  {
    HeaderPage(a);
    hide ArenaContainBlock, PageCount, P.Allocates;
  }

  lemma PagesServe(l: P.Layout, flag: P.Owner, h: State, size: nat)
    requires Inv(l, flag, h) && size < TWO32 && |h.free| == CLASSES && NeedsPages(h, size)
    requires AfterMalloc(l, flag, h, size).ans.Block?
    ensures Served(h, AfterMalloc(l, flag, h, size).h, size, AfterMalloc(l, flag, h, size).ans.addr)
  {
    hide *;
    FreeListsThere(l, flag, h);
    ServingPages(l, flag, h, size);
    var p, r := P.Malloc(l, h.s, flag, PagesFor(size)), AfterMalloc(l, flag, h, size);
    ServedBy(h, r.h, size, p.s, p.out.vpn);
  }

  lemma ServedBy(h: State, t: State, size: nat, s: P.State, a: nat)
    requires |h.free| == CLASSES && NeedsPages(h, size) && PagesFor(size) > 0 && P.Allocates(h.s, s, a, PagesFor(size))
    requires if size > 1024 then t == WithArena(h.(s := s), size, a)
             else HasFirst(Refill(h.(s := s), ClassFor(size), a), ClassFor(size)) &&
                  t == TakeFirst(Refill(h.(s := s), ClassFor(size), a), ClassFor(size))
    ensures Served(h, t, size, a * PAGE + HEADER)
  {
    hide P.Allocates, Served, TakeFirst, HasFirst, Refill, WithArena, ClassFor, PageCount;
    if size <= 1024 { SmallServed(h, s, size, a); } else { LargeServed(h, s, size, a); }
  }

  /** The state after a request that took pages. */
  lemma ServingPages(l: P.Layout, flag: P.Owner, h: State, size: nat)
    requires Inv(l, flag, h) && size < TWO32 && |h.free| == CLASSES && NeedsPages(h, size)
    requires AfterMalloc(l, flag, h, size).ans.Block?
    ensures PagesFor(size) > 0
    ensures var p := P.Malloc(l, h.s, flag, PagesFor(size));
            p.out.Mapped? && P.Allocates(h.s, p.s, p.out.vpn, PagesFor(size)) &&
            AfterMalloc(l, flag, h, size).ans == Block(p.out.vpn * PAGE + HEADER) &&
            var t := AfterMalloc(l, flag, h, size).h;
            if size > 1024 then t == WithArena(h.(s := p.s), size, p.out.vpn)
            else HasFirst(Refill(h.(s := p.s), ClassFor(size), p.out.vpn), ClassFor(size)) &&
                 t == TakeFirst(Refill(h.(s := p.s), ClassFor(size), p.out.vpn), ClassFor(size))
  {
    FreeListsThere(l, flag, h);
    PagesAnswer(l, flag, h, size);
    GotPages(l, flag, h, PagesFor(size));
    hide Inv, P.Inv, P.Malloc, P.Allocates, P.CanFree, Backed, Unused, Refill, PageCount, ClassFor, TakeFirst;
    if size <= 1024 { SmallGranted(l, flag, h, size); }
  }

  lemma SmallServed(h: State, s: P.State, size: nat, a: nat)
    requires |h.free| == CLASSES && size <= 1024 && h.free[ClassFor(size)] == [] && P.Allocates(h.s, s, a, 1)
    ensures var b, c := Refill(h.(s := s), ClassFor(size), a), ClassFor(size);
            HasFirst(b, c) && b.free[c][0] == a * PAGE + HEADER && Served(h, TakeFirst(b, c), size, a * PAGE + HEADER)
  {
    var c := ClassFor(size);
    HeaderPage(a);
    RestOfPage(h.(s := s), c, a);
    hide ArenaContainBlock, CntPerPage, BlockSize, P.Allocates, FirstList, ClassFor;
    var b := Refill(h.(s := s), c, a);
    assert b.free[c := b.free[c][1..]] == h.free[c := b.free[c][1..]];
    assert b.hdr[a := Small(c, CntPerPage(c) - 1, h.me)] == h.hdr[a := Small(c, CntPerPage(c) - 1, h.me)];
  }

  lemma RestOfPage(h: State, c: nat, a: nat)
    requires |h.free| == CLASSES && c < CLASSES
    ensures var t := Refill(h, c, a);
            t.free[c] != [] && t.free[c][0] == a * PAGE + HEADER && |t.free[c][1..]| == CntPerPage(c) - 1 &&
            forall i :: 0 <= i < |t.free[c][1..]| ==> t.free[c][1..][i] == a * PAGE + HEADER + (i + 1) * BlockSize(c)
  {
    hide BlockSize;
  }

  lemma AllocatedKept(h: State, t: State, a: nat, n: nat)
    requires P.Allocates(h.s, t.s, a, n) && Outside(t) == Outside(h) && t.me == h.me
    ensures OthersKept(h, t) && t.s.lost == h.s.lost
  {}

  // ---------- Taking a block back ----------

  lemma ArenasApart(free: seq<seq<nat>>, hdr: map<nat, Header>, live: map<nat, nat>, ripe: set<nat>, a: nat, b: nat)
    requires Ok(free, hdr, live, ripe) && a in hdr && b in hdr && a != b
    ensures a + Span(hdr[a]) <= b || b + Span(hdr[b]) <= a
  {}

  /** An arena leaves together with its pages. */
  lemma ArenaReleased(l: P.Layout, flag: P.Owner, h: State, a: nat, t: State)
    requires Inv(l, flag, h) && a in h.hdr && P.CanFree(l, h.s, flag, a, Span(h.hdr[a]))
    requires t.me == h.me && t.hdr == h.hdr - {a} && t.s == P.Free(l, h.s, flag, a, Span(h.hdr[a]))
    ensures P.Inv(l, t.s) && Homed(h.me, t.hdr) && Backed(l, flag, t.hdr, t.s) && OthersKept(h, t)
    ensures t.s.lost == h.s.lost
  {
    hide Ok, P.Inv, P.Free, P.CanFree, P.TablesGrow, Backed, Outside;
    var n := Span(h.hdr[a]);
    P.FreeKeeps(l, h.s, flag, a, n);
    forall b | b in t.hdr ensures b + Span(h.hdr[b]) <= a || a + n <= b {
      ArenasApart(h.free, h.hdr, h.live, {}, a, b);
    }
    BackedWithout(l, flag, h, a, t);
    OutsideShrinks(l, flag, h, a, t);
  }

  lemma BackedWithout(l: P.Layout, flag: P.Owner, h: State, a: nat, t: State)
    requires Backed(l, flag, h.hdr, h.s) && a in h.hdr && t.hdr == h.hdr - {a} && P.Frees(h.s, t.s, a, Span(h.hdr[a]))
    requires forall b :: b in t.hdr ==> b + Span(h.hdr[b]) <= a || a + Span(h.hdr[a]) <= b
    ensures Backed(l, flag, t.hdr, t.s)
  {
    forall b | b in t.hdr ensures P.CanFree(l, t.s, flag, b, Span(t.hdr[b])) {
      assert P.CanFree(l, h.s, flag, b, Span(h.hdr[b]));
    }
  }

  lemma OutsideShrinks(l: P.Layout, flag: P.Owner, h: State, a: nat, t: State)
    requires a in h.hdr && t.hdr == h.hdr - {a} && P.Frees(h.s, t.s, a, Span(h.hdr[a]))
    requires forall b :: b in t.hdr ==> b + Span(h.hdr[b]) <= a || a + Span(h.hdr[a]) <= b
    ensures Outside(t) == Outside(h)
  {
    var n := Span(h.hdr[a]);
    forall u ensures Spanned(h.hdr, u) <==> Spanned(t.hdr, u) || P.InRange(u, a, n) {
      if P.InRange(u, a, n) { assert a in h.hdr && P.InRange(u, a, Span(h.hdr[a])); }
      if b :| b in t.hdr && P.InRange(u, b, Span(t.hdr[b])) { assert b in h.hdr && h.hdr[b] == t.hdr[b]; }
      if b :| b in h.hdr && P.InRange(u, b, Span(h.hdr[b])) { assert b == a || (b in t.hdr && h.hdr[b] == t.hdr[b]); }
    }
    assert forall u: nat :: u in P.Range(a, n) <==> P.InRange(u, a, n);
    forall u | u in Outside(h) ensures u in Outside(t) {}
    forall u | u in Outside(t) ensures u in Outside(h) {}
  }

  /** Taking a block back removes it and nothing else from the blocks outstanding. Its pages are released
      exactly when it was the last block on them, and then all of them. */
  lemma FreeKeeps(l: P.Layout, flag: P.Owner, h: State, x: nat)
    requires Inv(l, flag, h) && x in h.live
    ensures Releasable(l, flag, h, x)
    ensures var r, a := AfterFree(l, flag, h, x), ArenaContainBlock(x);
            Inv(l, flag, r.0) && OthersKept(h, r.0) && r.0.s.lost == h.s.lost && r.0.live == h.live - {x} &&
            r.0.hdr.Keys == h.hdr.Keys - (if r.1 > 0 then {a} else {}) &&
            r.1 == if forall y :: y in r.0.live ==> ArenaContainBlock(y) != a then Span(h.hdr[a]) * PAGE else 0
  {
    LiveIsReleasable(l, flag, h, x);
    OwnArena(h.free, h.hdr, h.live, x);
    if h.hdr[ArenaContainBlock(x)].Large? { LargeFreed(l, flag, h, x); } else { SmallFreed(l, flag, h, x); }
  }

  lemma LargeFreed(l: P.Layout, flag: P.Owner, h: State, x: nat)
    requires Inv(l, flag, h) && x in h.live && Releasable(l, flag, h, x) && h.hdr[ArenaContainBlock(x)].Large?
    ensures var r, a := AfterFree(l, flag, h, x), ArenaContainBlock(x);
            Inv(l, flag, r.0) && OthersKept(h, r.0) && r.0.s.lost == h.s.lost && r.0.live == h.live - {x} &&
            r.0.hdr.Keys == h.hdr.Keys - {a} && r.1 == Span(h.hdr[a]) * PAGE && r.1 > 0 &&
            forall y :: y in r.0.live ==> ArenaContainBlock(y) != a
  {
    hide Ok, P.Inv, P.Free, P.CanFree, ArenaContainBlock, Backed, OthersKept;
    var a := ArenaContainBlock(x);
    OwnArena(h.free, h.hdr, h.live, x);
    LargeRemoved(h.free, h.hdr, h.live, x);
    ArenaReleased(l, flag, h, a, AfterFree(l, flag, h, x).0);
  }

  /** A small block on its list again, before the page is given up if it is entirely free. */
  ghost function PutBack(h: State, x: nat): State
    requires |h.free| == CLASSES && ArenaContainBlock(x) in h.hdr
    requires h.hdr[ArenaContainBlock(x)].Small? && h.hdr[ArenaContainBlock(x)].cls < CLASSES
  {
    var a := ArenaContainBlock(x);
    var k := h.hdr[a];
    h.(free := h.free[k.cls := h.free[k.cls] + [x]], hdr := h.hdr[a := k.(cnt := k.cnt + 1)], live := h.live - {x})
  }

  lemma SmallFreed(l: P.Layout, flag: P.Owner, h: State, x: nat)
    requires Inv(l, flag, h) && x in h.live && Releasable(l, flag, h, x) && h.hdr[ArenaContainBlock(x)].Small?
    ensures var r, a := AfterFree(l, flag, h, x), ArenaContainBlock(x);
            Inv(l, flag, r.0) && OthersKept(h, r.0) && r.0.s.lost == h.s.lost && r.0.live == h.live - {x} &&
            r.0.hdr.Keys == h.hdr.Keys - (if r.1 > 0 then {a} else {}) &&
            r.1 == if forall y :: y in r.0.live ==> ArenaContainBlock(y) != a then Span(h.hdr[a]) * PAGE else 0
  {
    hide Ok, P.Inv, P.Free, P.CanFree, ArenaContainBlock, Backed, OthersKept, OnList, CntPerPage, Outside, Unlinked;
    var a := ArenaContainBlock(x);
    var b, k := PutBack(h, x), h.hdr[a];
    GivenBack(h.free, h.hdr, h.live, x);
    RipeIsFree(b.free, b.hdr, b.live, a);
    if b.hdr[a].cnt == CntPerPage(k.cls) {
      UnlinkedFacts(b.free[k.cls], a, k.cls, CntPerPage(k.cls));
      Removed(b.free, b.hdr, b.live, a, Unlinked(b.free[k.cls], a, k.cls, CntPerPage(k.cls)));
      var t := AfterFree(l, flag, h, x).0;
      assert t.free == b.free[k.cls := t.free[k.cls]] && t.hdr == b.hdr - {a};
      ArenaReleased(l, flag, h, a, AfterFree(l, flag, h, x).0);
    } else {
      NotRipe(b.free, b.hdr, b.live, a);
      OutsideSame(h, b);
      BackedSame(l, flag, h, b);
      P.NothingHappened(h.s);
      OthersKeptBy(h, b);
    }
  }

  /** The blocks of a list that are not in arena `a`, in their order. */
  function Elsewhere(list: seq<nat>, a: nat): seq<nat>
  {
    if list == [] then []
    else (if ArenaContainBlock(list[0]) == a then [] else [list[0]]) + Elsewhere(list[1..], a)
  }

  lemma {:induction false} ElsewhereAppended(list: seq<nat>, a: nat, x: nat)
    requires ArenaContainBlock(x) == a
    ensures Elsewhere(list + [x], a) == Elsewhere(list, a)
  {
    if list != [] {
      assert (list + [x])[1..] == list[1..] + [x];
      ElsewhereAppended(list[1..], a, x);
    } else {
      assert Elsewhere([x], a) == Elsewhere([], a);
    }
  }

  lemma {:induction false} ElsewhereUnlinked(list: seq<nat>, a: nat, x: nat)
    requires x in list && ArenaContainBlock(x) == a
    ensures Elsewhere(Unlink(list, x), a) == Elsewhere(list, a)
  {
    if list[0] != x {
      assert Unlink(list, x)[1..] == Unlink(list[1..], x);
      ElsewhereUnlinked(list[1..], a, x);
    }
  }

  lemma {:induction false} ElsewhereIsAll(list: seq<nat>, a: nat)
    requires forall x :: x in list ==> ArenaContainBlock(x) != a
    ensures Elsewhere(list, a) == list
  {
    if list != [] {
      assert list[0] in list;
      ElsewhereIsAll(list[1..], a);
    }
  }

  lemma {:induction false} UnlinkedElsewhere(list: seq<nat>, a: nat, c: nat, n: nat)
    requires c < CLASSES && n <= CntPerPage(c)
    ensures Elsewhere(Unlinked(list, a, c, n), a) == Elsewhere(list, a)
  {
    hide ArenaIdxBlock, CntPerPage, ArenaContainBlock;
    if n > 0 {
      UnlinkedElsewhere(list, a, c, n - 1);
      var rest, x := Unlinked(list, a, c, n - 1), ArenaIdxBlock(a, c, n - 1);
      BlockInPage(a, c, n - 1);
      if x in rest { ElsewhereUnlinked(rest, a, x); }
    }
  }

  /** How the return of block `x` leaves lists, headers and pages; `last` says that no other block of its
      arena is outstanding. */
  ghost predicate Returned(h: State, t: State, x: nat, release: nat)
    requires |h.free| == CLASSES
  {
    var a := ArenaContainBlock(x);
    a in h.hdr && t.me == h.me && t.live == h.live - {x} &&
    var last := forall y :: y in h.live && y != x ==> ArenaContainBlock(y) != a;
    match h.hdr[a]
    case Large(n) =>
      release == n * PAGE && t.free == h.free && t.hdr == h.hdr - {a} && P.Frees(h.s, t.s, a, n)
    case Small(c, cnt, home) =>
      c < CLASSES &&
      if last then
        release == PAGE && t.free == h.free[c := Elsewhere(h.free[c], a)] && t.hdr == h.hdr - {a} &&
        P.Frees(h.s, t.s, a, 1)
      else
        release == 0 && t.free == h.free[c := h.free[c] + [x]] && t.hdr == h.hdr[a := Small(c, cnt + 1, home)] &&
        t.s == h.s
  }

  lemma FreeReturns(l: P.Layout, flag: P.Owner, h: State, x: nat)
    requires Inv(l, flag, h) && x in h.live
    ensures |h.free| == CLASSES && Releasable(l, flag, h, x)
    ensures Returned(h, AfterFree(l, flag, h, x).0, x, AfterFree(l, flag, h, x).1)
  {
    FreeListsThere(l, flag, h);
    LiveIsReleasable(l, flag, h, x);
    OwnArena(h.free, h.hdr, h.live, x);
    var a := ArenaContainBlock(x);
    P.FreeKeeps(l, h.s, flag, a, Span(h.hdr[a]));
    if h.hdr[a].Small? {
      SmallReturned(l, flag, h, x);
    } else {
      hide Ok, P.Inv, P.Free, P.CanFree, ArenaContainBlock, P.Frees, P.TablesGrow, Homed, Backed;
    }
  }

  lemma SmallReturned(l: P.Layout, flag: P.Owner, h: State, x: nat)
    requires Inv(l, flag, h) && x in h.live && Releasable(l, flag, h, x) && h.hdr[ArenaContainBlock(x)].Small?
    requires P.Frees(h.s, P.Free(l, h.s, flag, ArenaContainBlock(x), 1), ArenaContainBlock(x), 1)
    ensures Returned(h, AfterFree(l, flag, h, x).0, x, AfterFree(l, flag, h, x).1)
  {
    SmallFreed(l, flag, h, x);
    ListLeft(h, x);
    var t, release := AfterFree(l, flag, h, x).0, AfterFree(l, flag, h, x).1;
    SmallAfterFree(l, flag, h, x);
    hide Inv, P.Inv, P.Free, P.CanFree, P.Frees, OthersKept, CntPerPage, Unlinked, Elsewhere, AfterFree, Releasable;
    hide ArenaContainBlock, Returned;
    var k := h.hdr[ArenaContainBlock(x)];
    SmallReturnedBy(h, t, x, release, k.cnt + 1 == CntPerPage(k.cls));
  }

  lemma SmallAfterFree(l: P.Layout, flag: P.Owner, h: State, x: nat)
    requires Releasable(l, flag, h, x) && h.hdr[ArenaContainBlock(x)].Small?
    ensures var t, release := AfterFree(l, flag, h, x).0, AfterFree(l, flag, h, x).1;
            var a := ArenaContainBlock(x);
            var k := h.hdr[a];
            t.me == h.me && t.live == h.live - {x} &&
            if k.cnt + 1 == CntPerPage(k.cls) then
              release == PAGE && t.hdr == h.hdr - {a} && t.s == P.Free(l, h.s, flag, a, 1) &&
              t.free == h.free[k.cls := Unlinked(h.free[k.cls] + [x], a, k.cls, CntPerPage(k.cls))]
            else
              release == 0 && t.hdr == h.hdr[a := k.(cnt := k.cnt + 1)] && t.s == h.s &&
              t.free == h.free[k.cls := h.free[k.cls] + [x]]
  {
    hide P.Free, P.CanFree, ArenaContainBlock, CntPerPage, Unlinked;
  }

  lemma SmallReturnedBy(h: State, t: State, x: nat, release: nat, ripe: bool)
    requires |h.free| == CLASSES && ArenaContainBlock(x) in h.hdr
    requires h.hdr[ArenaContainBlock(x)].Small? && h.hdr[ArenaContainBlock(x)].cls < CLASSES
    requires t.me == h.me && t.live == h.live - {x}
    requires release == if forall y :: y in t.live ==> ArenaContainBlock(y) != ArenaContainBlock(x) then PAGE else 0
    requires var a := ArenaContainBlock(x);
             var k := h.hdr[a];
             if ripe then
               release == PAGE && t.hdr == h.hdr - {a} && P.Frees(h.s, t.s, a, 1) &&
               t.free == h.free[k.cls := Elsewhere(h.free[k.cls], a)]
             else
               release == 0 && t.hdr == h.hdr[a := k.(cnt := k.cnt + 1)] && t.s == h.s &&
               t.free == h.free[k.cls := h.free[k.cls] + [x]]
    ensures Returned(h, t, x, release)
  {
    hide P.Frees, ArenaContainBlock, Elsewhere;
  }

  /** The list without the blocks of an arena that is entirely free. */
  lemma ListLeft(h: State, x: nat)
    requires Ok(h.free, h.hdr, h.live) && x in h.live
    ensures |h.free| == CLASSES && ArenaContainBlock(x) in h.hdr
    ensures var a := ArenaContainBlock(x);
            h.hdr[a].Small? ==>
              var c := h.hdr[a].cls;
              c < CLASSES && Unlinked(h.free[c] + [x], a, c, CntPerPage(c)) == Elsewhere(h.free[c], a)
  {
    OwnArena(h.free, h.hdr, h.live, x);
    var a := ArenaContainBlock(x);
    if h.hdr[a].Small? {
      var c := h.hdr[a].cls;
      var list := h.free[c] + [x];
      ListIsSound(h, x);
      hide Ok, ArenaContainBlock, CntPerPage;
      UnlinkedFacts(list, a, c, CntPerPage(c));
      UnlinkedElsewhere(list, a, c, CntPerPage(c));
      ElsewhereAppended(h.free[c], a, x);
      ElsewhereIsAll(Unlinked(list, a, c, CntPerPage(c)), a);
    }
  }

  lemma ListIsSound(h: State, x: nat)
    requires Ok(h.free, h.hdr, h.live) && x in h.live && |h.free| == CLASSES && ArenaContainBlock(x) in h.hdr
    requires h.hdr[ArenaContainBlock(x)].Small? && h.hdr[ArenaContainBlock(x)].cls < CLASSES
    ensures var a := ArenaContainBlock(x);
            var c := h.hdr[a].cls;
            NoDup(h.free[c] + [x]) &&
            forall y :: y in h.free[c] + [x] && ArenaContainBlock(y) == a ==> y in FirstBlocks(a, c, CntPerPage(c))
  {
    var a := ArenaContainBlock(x);
    var c := h.hdr[a].cls;
    assert LiveOk(h.hdr, x, h.live[x]);
    assert x !in h.free[c];
    AppendNoDup(h.free[c], x);
    hide FirstBlocks, CntPerPage, ArenaContainBlock;
    forall y | y in h.free[c] && ArenaContainBlock(y) == a ensures y in FirstBlocks(a, c, CntPerPage(c)) {
      assert OneOfBlocks(h.hdr, c, y);
    }
  }

  // ---------- Runs ----------

  datatype Call = Get(size: nat) | Give(addr: nat)

  /** None after a call that does not return, and for a call its caller may not make. */
  ghost function After(l: P.Layout, flag: P.Owner, h: State, c: Call): Option<State>
    requires Inv(l, flag, h)
  {
    match c
    case Get(size) =>
      if size >= TWO32 then None
      else
        var r := AfterMalloc(l, flag, h, size);
        if r.ans.Block? || r.ans == Null then Some(r.h) else None
    case Give(x) =>
      if x in h.live then LiveIsReleasable(l, flag, h, x); Some(AfterFree(l, flag, h, x).0) else None
  }

  lemma AfterKeeps(l: P.Layout, flag: P.Owner, h: State, c: Call)
    requires Inv(l, flag, h) && After(l, flag, h, c).Some?
    ensures |h.free| == CLASSES
    ensures var t := After(l, flag, h, c).value;
            Inv(l, flag, t) && OthersKept(h, t) && (t.s.lost == h.s.lost <==> !(c.Get? && Short(l, flag, h, c.size)))
  {
    hide Inv, Releasable, AfterMalloc, AfterFree, OthersKept, P.Inv, Short, NeedsPages;
    FreeListsThere(l, flag, h);
    match c
    case Get(size) =>
      MallocKeeps(l, flag, h, size);
      if AfterMalloc(l, flag, h, size).ans.Block? { BlockIsNotShort(l, flag, h, size); }
    case Give(x) => FreeKeeps(l, flag, h, x);
  }

  lemma FreeListsThere(l: P.Layout, flag: P.Owner, h: State)
    requires Inv(l, flag, h)
    ensures |h.free| == CLASSES && P.Inv(l, h.s)
  {}

  lemma BlockIsNotShort(l: P.Layout, flag: P.Owner, h: State, size: nat)
    requires Inv(l, flag, h) && |h.free| == CLASSES && size < TWO32 && AfterMalloc(l, flag, h, size).ans.Block?
    ensures !Short(l, flag, h, size)
  {
    hide Ok, P.Inv, P.Malloc, P.CanFree;
  }

  ghost function Run(l: P.Layout, flag: P.Owner, h: State, calls: seq<Call>): Option<State>
    requires Inv(l, flag, h)
    decreases |calls|
  {
    if calls == [] then Some(h)
    else
      match After(l, flag, h, calls[0])
      case None => None
      case Some(t) => AfterKeeps(l, flag, h, calls[0]); Run(l, flag, t, calls[1..])
  }

  ghost predicate RunsShort(l: P.Layout, flag: P.Owner, h: State, calls: seq<Call>)
    requires Inv(l, flag, h)
    decreases |calls|
  {
    calls != [] &&
    (FreeListsThere(l, flag, h);
     (calls[0].Get? && Short(l, flag, h, calls[0].size)) ||
     match After(l, flag, h, calls[0])
     case None => false
     case Some(t) => AfterKeeps(l, flag, h, calls[0]); RunsShort(l, flag, t, calls[1..]))
  }

  /** Every sequence of mallocs and frees keeps the invariant and leaves everybody else's pages alone. */
  lemma {:induction false} RunKeeps(l: P.Layout, flag: P.Owner, h: State, calls: seq<Call>)
    requires Inv(l, flag, h) && Run(l, flag, h, calls).Some?
    ensures var t := Run(l, flag, h, calls).value;
            Inv(l, flag, t) && OthersKept(h, t) && (t.s.lost == h.s.lost <==> !RunsShort(l, flag, h, calls))
    decreases |calls|
  {
    hide Inv, After, Short, Outside, P.TablesGrow;
    if calls == [] {
      P.NothingHappened(h.s);
    } else {
      var b := After(l, flag, h, calls[0]).value;
      AfterKeeps(l, flag, h, calls[0]);
      RunKeeps(l, flag, b, calls[1..]);
      P.TablesKeepGrowing(h.s, b.s, Run(l, flag, b, calls[1..]).value.s);
    }
  }

  /** Every arena has an outstanding block, and every block on a list an arena. */
  lemma ArenaIsInUse(free: seq<seq<nat>>, hdr: map<nat, Header>, live: map<nat, nat>, a: nat)
    requires Ok(free, hdr, live) && a in hdr
    ensures exists x :: x in live && ArenaContainBlock(x) == a
  {
    hide CntPerPage, Blocks, ArenaContainBlock, OnList;
    if hdr[a].Large? {
      assert LargeOk(hdr[a], live, a);
      HeaderPage(a);
    } else {
      assert SmallOk(free, hdr[a], live, a, {});
      StillRipe(free, hdr, live, a);
      RipeIsFree(free, hdr, live, a);
    }
  }

  lemma FreeHasArena(free: seq<seq<nat>>, hdr: map<nat, Header>, live: map<nat, nat>, c: nat, x: nat)
    requires Ok(free, hdr, live) && c < CLASSES && x in free[c]
    ensures ArenaContainBlock(x) in hdr
  {
    assert OneOfBlocks(hdr, c, x);
  }

  /** So with no block outstanding there is no arena, and every free list is empty. */
  lemma NothingLeft(free: seq<seq<nat>>, hdr: map<nat, Header>, live: map<nat, nat>)
    requires Ok(free, hdr, live) && live == map[]
    ensures hdr == map[] && |free| == CLASSES && forall c :: 0 <= c < CLASSES ==> free[c] == []
  {
    SpansArePositive(free, hdr, live, {});
    hide Ok, ArenaContainBlock;
    forall a ensures a !in hdr { if a in hdr { ArenaIsInUse(free, hdr, live, a); } }
    forall c | 0 <= c < CLASSES ensures free[c] == [] {
      if free[c] != [] { FreeHasArena(free, hdr, live, c, free[c][0]); }
    }
  }

  lemma StillRipe(free: seq<seq<nat>>, hdr: map<nat, Header>, live: map<nat, nat>, a: nat)
    requires Ok(free, hdr, live)
    ensures Ok(free, hdr, live, {a})
  {
    hide CntPerPage, Blocks, ArenaContainBlock, OnList, ListsOk, Larges, Lives;
  }

  lemma AllOutside(h: State)
    requires h.hdr == map[]
    ensures Outside(h) == h.s.pages
  {}

  /** Conservation: when a run begins and ends with no block outstanding, the page map is as it was; both
      virtual bitmaps are, exactly if the run was never short of frames; and then so are the user pool and
      the kernel pool, but for page tables the run has made. */
  lemma AllFreedRestores(l: P.Layout, flag: P.Owner, h: State, calls: seq<Call>)
    requires Inv(l, flag, h) && Run(l, flag, h, calls).Some?
    requires h.live == map[] && Run(l, flag, h, calls).value.live == map[]
    ensures var t := Run(l, flag, h, calls).value;
            t.hdr == map[] && t.free == h.free && t.s.pages == h.s.pages &&
            (t.s.kvbits == h.s.kvbits && t.s.uvbits == h.s.uvbits <==> !RunsShort(l, flag, h, calls)) &&
            (!RunsShort(l, flag, h, calls) ==> t.s.ubits == h.s.ubits && (t.s.tables == h.s.tables ==> t == h))
  {
    RunKeeps(l, flag, h, calls);
    var t := Run(l, flag, h, calls).value;
    hide Ok, P.Inv, P.TablesGrow, Run, RunsShort, Outside;
    NothingLeft(h.free, h.hdr, h.live);
    NothingLeft(t.free, t.hdr, t.live);
    AllOutside(h);
    AllOutside(t);
    assert t.free == h.free;
    if t.s.lost == h.s.lost { P.SamePagesSameBitmaps(l, h.s, t.s); } else { P.LostShows(l, h.s, t.s); }
  }

  /** For the kernel, whose tables all exist, that is a complete restoration. */
  lemma KernelRestores(l: P.Layout, h: State, calls: seq<Call>)
    requires Inv(l, P.KERNEL, h) && P.KernelTables(h.s) && Run(l, P.KERNEL, h, calls).Some?
    requires h.live == map[] && Run(l, P.KERNEL, h, calls).value.live == map[] && !RunsShort(l, P.KERNEL, h, calls)
    ensures Run(l, P.KERNEL, h, calls).value == h
  {
    AllFreedRestores(l, P.KERNEL, h, calls);
    KernelRunMakesNoTable(l, h, calls);
  }

  lemma {:induction false} KernelRunMakesNoTable(l: P.Layout, h: State, calls: seq<Call>)
    requires Inv(l, P.KERNEL, h) && P.KernelTables(h.s) && Run(l, P.KERNEL, h, calls).Some?
    ensures Run(l, P.KERNEL, h, calls).value.s.tables == h.s.tables
    decreases |calls|
  {
    hide Inv, Short;
    if calls != [] {
      AfterKeeps(l, P.KERNEL, h, calls[0]);
      KernelCallMakesNoTable(l, h, calls[0]);
      hide After;
      KernelRunMakesNoTable(l, After(l, P.KERNEL, h, calls[0]).value, calls[1..]);
    }
  }

  lemma KernelCallMakesNoTable(l: P.Layout, h: State, c: Call)
    requires Inv(l, P.KERNEL, h) && P.KernelTables(h.s) && After(l, P.KERNEL, h, c).Some?
    ensures After(l, P.KERNEL, h, c).value.s.tables == h.s.tables
  {
    hide Ok, P.Inv, P.Malloc, P.Free, P.CanFree, ArenaContainBlock, P.KernelTables;
    match c
    case Get(size) => P.KernelMallocTables(l, h.s, PagesFor(size));
    case Give(x) =>
      LiveIsReleasable(l, P.KERNEL, h, x);
      P.FreeTables(l, h.s, P.KERNEL, ArenaContainBlock(x), Span(h.hdr[ArenaContainBlock(x)]));
  }

  // ---------- Other users of the pages ----------

  /** A call of malloc_page or free_page by somebody else, the other owner's allocator among them, keeps
      this allocator in order unless it frees a page of an arena. */
  lemma PageCallKeeps(l: P.Layout, flag: P.Owner, h: State, c: P.Call)
    requires Inv(l, flag, h) && P.After(l, h.s, c).Some?
    requires c.Give? ==> forall u: nat :: c.vpn <= u < c.vpn + c.cnt ==> !Spanned(h.hdr, u)
    ensures Inv(l, flag, h.(s := P.After(l, h.s, c).value))
  {
    hide Ok, P.Inv, P.Malloc, P.Free, P.Enough, P.Short, P.TablesGrow, P.Loses;
    P.AfterKeeps(l, h.s, c);
    var t := P.After(l, h.s, c).value;
    PagesStay(l, h.s, c);
    forall a | a in h.hdr ensures P.CanFree(l, t, flag, a, Span(h.hdr[a])) {
      assert P.CanFree(l, h.s, flag, a, Span(h.hdr[a]));
      forall u | a <= u < a + Span(h.hdr[a]) ensures u in t.pages {
        assert P.InRange(u, a, Span(h.hdr[a])) && Spanned(h.hdr, u);
      }
    }
  }

  lemma PagesStay(l: P.Layout, s: P.State, c: P.Call)
    requires P.Inv(l, s) && P.After(l, s, c).Some?
    ensures var t := P.After(l, s, c).value;
            P.SameSizes(s, t) &&
            forall u :: u in s.pages && (c.Give? ==> !(c.vpn <= u < c.vpn + c.cnt)) ==> u in t.pages
  {
    hide P.Inv, P.Malloc, P.Free, P.Enough, P.CanFree, P.TablesGrow;
    match c
    case Get(flag, cnt) => P.MallocFacts(l, s, flag, cnt);
    case Give(flag, vpn, cnt) => P.FreeKeeps(l, s, flag, vpn, cnt);
  }

  // ---------- The allocator ----------

  class Heap {
    var free: seq<seq<nat>>
    var hdr: map<nat, Header>
    ghost var live: map<nat, nat>
    const pager: P.PageAllocator
    const flag: P.Owner
    const me: nat

    ghost function Now(): State
      reads this, pager
    {
      State(me, free, hdr, live, pager.Now())
    }

    ghost predicate Valid()
      reads this, pager
    {
      pager.Here() && Inv(pager.layout, flag, Now())
    }

    /** MemoryBlockDescInit. */
    constructor (pager: P.PageAllocator, flag: P.Owner, me: nat)
      requires pager.Valid()
      ensures Valid() && this.pager == pager && this.flag == flag && this.me == me
      ensures Now() == State(me, EMPTY, map[], map[], pager.Now())
    {
      this.pager, this.flag, this.me := pager, flag, me;
      free := EMPTY;
      hdr := map[];
      live := map[];
    }

    method Malloc(size: nat) returns (ret: Answer)
      requires Valid() && size < TWO32
      modifies this, pager
      ensures Reply(Now(), ret) == AfterMalloc(pager.layout, flag, old(Now()), size)
      ensures |old(free)| == CLASSES && Answered(pager.layout, flag, old(Now()), size, ret)
      ensures ret.Block? ==> Served(old(Now()), Now(), size, ret.addr)
      ensures ret == Null ==>
                free == old(free) && hdr == old(hdr) && live == old(live) && pager.pages == old(pager.pages)
      ensures ret.Block? || ret == Null ==> Valid()
    {
      hide Inv, AfterMalloc, Answered, Served;
      MallocAnswers(pager.layout, flag, Now(), size);
      if AfterMalloc(pager.layout, flag, Now(), size).ans.Block? { MallocServes(pager.layout, flag, Now(), size); }
      MallocKeeps(pager.layout, flag, Now(), size);
      if size > 1024 { ret := LargeBlock(size); } else { ret := SmallBlock(size); }
    }

    method LargeBlock(size: nat) returns (ret: Answer)
      requires Valid() && 1024 < size < TWO32
      modifies this, pager
      ensures Reply(Now(), ret) == AfterMalloc(pager.layout, flag, old(Now()), size) && pager.Here()
    {
      hide P.Inv, Ok, Backed, P.Malloc, ArenaContainBlock, P.CanFree, PageCount, FirstList;
      FreeListsThere(pager.layout, flag, Now());
      var pageCnt := PageCount(size);
      var page := pager.MallocPage(flag, pageCnt);
      match page
      case NoMemory => return Null;
      case Fault => return Crash;
      case Mapped(a) =>
        if pageCnt == 0 { return Wild; }
        PageCountPositive(size);
        hdr := hdr[a := Large(pageCnt)];
        live := live[a * PAGE + HEADER := pageCnt * PAGE - HEADER];
        return Block(a * PAGE + HEADER);
    }

    method SmallBlock(size: nat) returns (ret: Answer)
      requires Valid() && size <= 1024
      modifies this, pager
      ensures Reply(Now(), ret) == AfterMalloc(pager.layout, flag, old(Now()), size) && pager.Here()
    {
      hide P.Inv, Inv, P.Malloc, ArenaContainBlock, P.CanFree, PageCount;
      hide FirstList, BlockSize, CntPerPage, ClassFor, TakeFirst;
      ghost var h, l := Now(), pager.layout;
      FreeListsThere(l, flag, h);
      var i := SizeClass(size);
      if free[i] == [] {
        var page := pager.MallocPage(flag, 1);
        match page
        case NoMemory => return Null;
        case Fault => return Crash;
        case Mapped(a) =>
          Cut(a, i);
          SmallGranted(l, flag, h, size);
      } else {
        FirstIsThere(l, flag, h, i);
      }
      var block := HandOut(i);
      return Block(block);
    }

    method HandOut(c: nat) returns (block: nat)
      requires HasFirst(Now(), c)
      modifies this`free, this`hdr, this`live
      ensures Now() == TakeFirst(old(Now()), c) && block == old(free)[c][0]
    {
      block := free[c][0];
      free := free[c := free[c][1..]];
      var arena := ArenaContainBlock(block);
      hdr := hdr[arena := hdr[arena].(cnt := hdr[arena].cnt - 1)];
      live := live[block := BlockSize(c)];
    }

    /** Cuts the new page `a` into the blocks of class `c`. */
    method Cut(a: nat, c: nat)
      requires |free| == CLASSES && c < CLASSES && free[c] == []
      modifies this`free, this`hdr
      ensures Now() == Refill(old(Now()), c, a)
    {
      var i := 0;
      while i < CntPerPage(c)
        invariant 0 <= i <= CntPerPage(c) && hdr == old(hdr) && |free| == CLASSES
        invariant free == old(free)[c := FirstList(a, c, i)]
      {
        assert FirstList(a, c, i) + [ArenaIdxBlock(a, c, i)] == FirstList(a, c, i + 1);
        free := free[c := free[c] + [ArenaIdxBlock(a, c, i)]];
        i := i + 1;
      }
      hdr := hdr[a := Small(c, CntPerPage(c), me)];
    }

    /** Takes back a block that is outstanding. */
    method Free(vaddr: nat) returns (release: nat)
      requires Valid() && vaddr in live
      modifies this, pager
      ensures Releasable(pager.layout, flag, old(Now()), vaddr)
      ensures (Now(), release) == AfterFree(pager.layout, flag, old(Now()), vaddr)
      ensures |old(free)| == CLASSES && Returned(old(Now()), Now(), vaddr, release)
      ensures Valid()
    {
      hide Inv, Returned, Releasable, AfterFree;
      FreeReturns(pager.layout, flag, Now(), vaddr);
      release := TakeBack(vaddr);
    }

    method TakeBack(vaddr: nat) returns (release: nat)
      requires Valid() && vaddr in live
      modifies this, pager
      ensures Releasable(pager.layout, flag, old(Now()), vaddr)
      ensures (Now(), release) == AfterFree(pager.layout, flag, old(Now()), vaddr)
      ensures Valid()
    {
      hide P.Inv, Ok, Backed, P.Free, P.CanFree, CntPerPage, ArenaIdxBlock;
      ghost var h, l := Now(), pager.layout;
      FreeKeeps(l, flag, h, vaddr);
      var arena := ArenaContainBlock(vaddr);
      PagerIsFit(l, flag, h);
      if hdr[arena].Large? {
        release := hdr[arena].cnt * PAGE;
        pager.FreePage(flag, vaddr, hdr[arena].cnt);
        hdr := hdr - {arena};
        live := live - {vaddr};
      } else {
        var c := hdr[arena].cls;
        hdr := hdr[arena := hdr[arena].(cnt := hdr[arena].cnt + 1)];
        free := free[c := free[c] + [vaddr]];
        live := live - {vaddr};
        release := 0;
        if hdr[arena].cnt == CntPerPage(c) {
          var list := UnlinkAll(free[c], arena, c);
          free := free[c := list];
          assert arena * PAGE / PAGE == arena;
          pager.FreePage(flag, arena * PAGE, 1);
          hdr := hdr - {arena};
          assert hdr == h.hdr - {arena};
          assert free == h.free[c := list];
          release := PAGE;
        }
      }
    }
  }

  /** Takes all blocks of arena `a` off the list. */
  method UnlinkAll(list: seq<nat>, a: nat, c: nat) returns (rest: seq<nat>)
    requires c < CLASSES
    ensures rest == Unlinked(list, a, c, CntPerPage(c))
  {
    rest := list;
    var i := 0;
    while i < CntPerPage(c)
      invariant 0 <= i <= CntPerPage(c) && rest == Unlinked(list, a, c, i)
    {
      var block := ArenaIdxBlock(a, c, i);
      if block in rest { rest := Unlink(rest, block); }
      i := i + 1;
    }
  }

  lemma PagerIsFit(l: P.Layout, flag: P.Owner, h: State)
    requires Inv(l, flag, h)
    ensures P.FramesOk(l, h.s)
  {}

  /** The first size class that fits. */
  method SizeClass(size: nat) returns (i: nat)
    requires size <= 1024
    ensures i == ClassFor(size)
  {
    i := 0;
    while i < CLASSES
      invariant 0 <= i <= ClassFor(size)
    {
      if BlockSize(i) >= size { return; }
      i := i + 1;
    }
  }
}
