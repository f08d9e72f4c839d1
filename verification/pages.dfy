/** malloc_page and free_page (kernel/memory.c): the virtual bitmaps, the physical bitmaps and the
    page map of one address space, and when they agree.

    Addresses are divided by the page size: a virtual page number `vpn`, and a frame number counted
    from the start of the kernel pool. Frames below that, the loader's, have negative numbers.

    `tables` holds the present entries of the page directory but two: the last, through which the
    directory maps itself, and entry 0 of the kernel threads' directory, which holds the table of
    entry 0x300 a second time (Paging.KernelPagesAppearTwice). `pages` holds the present entries of
    the page tables in `tables`. With these two left out each edit of the tables in memory changes
    one page of `pages`, as module PageTables proves. */
module Pages {
  import opened Bitmap
  import opened Basics

  datatype Owner = KERNEL | USER

  /** `NoMemory` is a null result. `Fault` is the access to an unmapped page that follows when there
      was no frame for a page table. */
  datatype Outcome = Mapped(vpn: nat) | NoMemory | Fault

  /** `lost` are the virtual pages whose bits a failed malloc_page has left set. */
  datatype State = State(
    kbits: seq<bool>, ubits: seq<bool>,    // physical pools
    kvbits: seq<bool>, uvbits: seq<bool>,  // virtual pools
    pages: map<nat, int>, tables: map<nat, int>, lost: set<nat>)

  /** Where the pools start, and the frames other address spaces own. */
  datatype Layout = Layout(ustart: nat, kbase: nat, ubase: nat, foreign: set<int>)

  const PAGE: nat := 4096

  /** The first page of the kernel's quarter of the address space, and that of the self-map. */
  const KERNEL_HALF: nat := 0xc0000
  const SELF_MAP: nat := 0xffc00

  function Dir(vpn: nat): nat { vpn / 1024 }

  // ---------- The invariant ----------

  ghost predicate Layered(l: Layout, s: State)
  {
    |s.kbits| <= l.ustart && l.ubase + |s.uvbits| <= KERNEL_HALF <= l.kbase && l.kbase + |s.kvbits| <= SELF_MAP
  }

  /** A virtual bit is set exactly when its page is in `held`. */
  ghost predicate BitsAgree(bits: seq<bool>, base: nat, held: set<nat>)
  {
    forall i :: 0 <= i < |bits| ==> (bits[i] <==> base + i in held)
  }

  ghost function Owned(l: Layout, s: State): set<int>
  {
    s.pages.Values + s.tables.Values + l.foreign
  }

  /** A physical bit is set exactly when its frame is in `own`. */
  ghost predicate Marks(l: Layout, kbits: seq<bool>, ubits: seq<bool>, own: set<int>)
  {
    (forall i :: 0 <= i < |kbits| ==> (kbits[i] <==> i in own)) &&
    (forall i :: 0 <= i < |ubits| ==> (ubits[i] <==> l.ustart + i in own))
  }

  ghost predicate RightPool(l: Layout, s: State, vpn: nat, f: int)
  {
    (l.kbase <= vpn < l.kbase + |s.kvbits| ==> 0 <= f < |s.kbits|) &&
    (l.ubase <= vpn < l.ubase + |s.uvbits| ==> l.ustart <= f < l.ustart + |s.ubits|)
  }

  ghost predicate Injective(m: map<nat, int>)
  {
    forall u, v :: u in m && v in m && m[u] == m[v] ==> u == v
  }

  /** No frame is mapped and no table installed twice, no data frame is a page table or another space's
      frame, each frame comes from the right pool, and every mapped page has its page table. */
  ghost predicate MapOk(l: Layout, s: State)
  {
    Injective(s.pages) && Injective(s.tables) &&
    s.pages.Values !! s.tables.Values && s.pages.Values !! l.foreign && s.tables.Values !! l.foreign &&
    (forall v :: v in s.pages ==> RightPool(l, s, v, s.pages[v]) && Dir(v) in s.tables)
  }

  /** Everything of the invariant but the agreement of the virtual bitmaps. */
  ghost predicate FramesOk(l: Layout, s: State)
  {
    Layered(l, s) && MapOk(l, s) && Marks(l, s.kbits, s.ubits, Owned(l, s))
  }

  /** A page of one of the two virtual pools. */
  ghost predicate InAPool(l: Layout, s: State, vpn: nat)
  {
    l.kbase <= vpn < l.kbase + |s.kvbits| || l.ubase <= vpn < l.ubase + |s.uvbits|
  }

  /** The pages whose virtual bits are set: those mapped and those lost. */
  ghost function HeldPages(s: State): set<nat> { s.pages.Keys + s.lost }

  ghost predicate Inv(l: Layout, s: State)
  {
    FramesOk(l, s) && s.lost !! s.pages.Keys && (forall v :: v in s.lost ==> InAPool(l, s, v)) &&
    BitsAgree(s.kvbits, l.kbase, HeldPages(s)) && BitsAgree(s.uvbits, l.ubase, HeldPages(s))
  }

  // ---------- Counting free frames ----------

  ghost function CountClear(b: seq<bool>): nat
  {
    if b == [] then 0 else (if b[0] then 0 else 1) + CountClear(b[1..])
  }

  lemma {:induction false} CountClearSet(b: seq<bool>, i: nat)
    requires i < |b| && !b[i]
    ensures CountClear(b[i := true]) == CountClear(b) - 1
  {
    if i > 0 {
      CountClearSet(b[1..], i - 1);
      assert b[i := true][1..] == b[1..][i - 1 := true];
    } else {
      assert b[i := true][1..] == b[1..];
    }
  }

  lemma {:induction false} SomeClear(b: seq<bool>)
    ensures CountClear(b) > 0 <==> exists i :: 0 <= i < |b| && !b[i]
  {
    if b != [] {
      SomeClear(b[1..]);
      if i :| 0 <= i < |b| && !b[i] {
        assert i == 0 || b[i] == b[1..][i - 1];
      }
    }
  }

  lemma PallocFinds(b: seq<bool>)
    ensures FirstFit(b, 1) == -1 <==> CountClear(b) == 0
    ensures FirstFit(b, 1) != -1 ==> !b[FirstFit(b, 1)]
  {
    SomeClear(b);
    var r := FirstFit(b, 1);
    if r != -1 {
      assert !b[r];
    } else {
      forall i | 0 <= i < |b| ensures b[i] { assert !ClearRun(b, i, 1); }
    }
  }

  /** How many page tables have to be made to map `cnt` pages from `vpn` on. */
  ghost function TablesNeeded(dirs: set<nat>, vpn: nat, cnt: nat): nat
    decreases cnt
  {
    if cnt == 0 then 0
    else (if Dir(vpn) in dirs then 0 else 1) + TablesNeeded(dirs + {Dir(vpn)}, vpn + 1, cnt - 1)
  }

  // ---------- What the operations do ----------

  predicate InRange(u: nat, v: nat, cnt: nat) { v <= u < v + cnt }

  ghost function Range(v: nat, cnt: nat): set<nat> { set u: nat | v <= u < v + cnt && InRange(u, v, cnt) }

  function VBits(s: State, flag: Owner): seq<bool> { if flag == KERNEL then s.kvbits else s.uvbits }

  function PBits(s: State, flag: Owner): seq<bool> { if flag == KERNEL then s.kbits else s.ubits }

  function Base(l: Layout, flag: Owner): nat { if flag == KERNEL then l.kbase else l.ubase }

  function Other(flag: Owner): Owner { if flag == KERNEL then USER else KERNEL }

  /** The virtual bits of `cnt` pages from index `idx` on set to `v`. */
  function WithVBits(s: State, flag: Owner, idx: nat, cnt: nat, v: bool): (t: State)
    requires idx + cnt <= |VBits(s, flag)|
  {
    if flag == KERNEL then s.(kvbits := SetRange(s.kvbits, idx, cnt, v))
    else s.(uvbits := SetRange(s.uvbits, idx, cnt, v))
  }

  /** palloc took the frame of bit `i`. */
  function Take(s: State, flag: Owner, i: nat): State
    requires i < |PBits(s, flag)|
  {
    if flag == KERNEL then s.(kbits := s.kbits[i := true]) else s.(ubits := s.ubits[i := true])
  }

  function Frame(l: Layout, flag: Owner, i: nat): int { if flag == KERNEL then i else l.ustart + i }

  /** AddToPageTable: without a table for the page and a frame to make one, nothing happens. */
  function Entered(s: State, frame: int, vpn: nat): State
  {
    if Dir(vpn) in s.tables then s.(pages := s.pages[vpn := frame])
    else
      var g := FirstFit(s.kbits, 1);
      if g == -1 then s
      else s.(kbits := s.kbits[g := true], tables := s.tables[Dir(vpn) := g], pages := s.pages[vpn := frame])
  }

  /** The state after some rounds of the loop of malloc_page, how it ended, and the pages it mapped. */
  datatype Loop = Loop(s: State, out: Outcome, k: nat)

  /** One round: a data frame, its table entry, and the clearing of the page, which faults when the
      page stayed unmapped. */
  function NextPage(l: Layout, s: State, flag: Owner, vpn: nat): Loop
  {
    var i := FirstFit(PBits(s, flag), 1);
    if i == -1 then Loop(s, NoMemory, 0)
    else
      var t := Entered(Take(s, flag, i), Frame(l, flag, i), vpn);
      if vpn in t.pages then Loop(t, Mapped(vpn), 1) else Loop(t, Fault, 0)
  }

  function PagesFrom(l: Layout, s: State, flag: Owner, vpn: nat, cnt: nat): (r: Loop)
    ensures r.k <= cnt && (r.out.Mapped? <==> r.k == cnt) && (r.out.Mapped? ==> r.out.vpn == vpn)
    decreases cnt
  {
    if cnt == 0 then Loop(s, Mapped(vpn), 0)
    else
      var n := NextPage(l, s, flag, vpn);
      if !n.out.Mapped? then n
      else
        var r := PagesFrom(l, n.s, flag, vpn + 1, cnt - 1);
        Loop(r.s, if r.out.Mapped? then Mapped(vpn) else r.out, r.k + 1)
  }

  function Cleared(bits: seq<bool>, i: int): seq<bool> { if 0 <= i < |bits| then bits[i := false] else bits }

  function FreeOne(l: Layout, s: State, vpn: nat): State
    requires vpn in s.pages
  {
    var f := s.pages[vpn];
    var t := s.(pages := s.pages - {vpn});
    if f < l.ustart then t.(kbits := Cleared(s.kbits, f)) else t.(ubits := Cleared(s.ubits, f - l.ustart))
  }

  function FreeRun(l: Layout, s: State, vpn: nat, cnt: nat): State
    requires forall u :: vpn <= u < vpn + cnt ==> u in s.pages
    decreases cnt
  {
    if cnt == 0 then s else FreeRun(l, FreeOne(l, s, vpn), vpn + 1, cnt - 1)
  }

  /** What free_page demands: the pages are mapped and belong to the owner's virtual pool. */
  ghost predicate CanFree(l: Layout, s: State, flag: Owner, vpn: nat, cnt: nat)
  {
    Base(l, flag) <= vpn && vpn + cnt <= Base(l, flag) + |VBits(s, flag)| &&
    forall u :: vpn <= u < vpn + cnt ==> u in s.pages
  }

  /** free_page. */
  ghost function Free(l: Layout, s: State, flag: Owner, vpn: nat, cnt: nat): State
    requires CanFree(l, s, flag, vpn, cnt)
  {
    FreeRunSizes(l, s, vpn, cnt);
    WithVBits(FreeRun(l, s, vpn, cnt), flag, vpn - Base(l, flag), cnt, false)
  }

  lemma {:induction false} FreeRunSizes(l: Layout, s: State, vpn: nat, cnt: nat)
    requires forall u :: vpn <= u < vpn + cnt ==> u in s.pages
    ensures var t := FreeRun(l, s, vpn, cnt);
            SameSizes(s, t) && t.kvbits == s.kvbits && t.uvbits == s.uvbits && t.tables == s.tables &&
            t.lost == s.lost &&
            t.pages == s.pages - Range(vpn, cnt)
    decreases cnt
  {
    if cnt == 0 {
      assert Range(vpn, 0) == {};
    } else {
      FreeRunSizes(l, FreeOne(l, s, vpn), vpn + 1, cnt - 1);
      assert Range(vpn, cnt) == {vpn} + Range(vpn + 1, cnt - 1);
    }
  }

  ghost predicate SameSizes(s: State, t: State)
  {
    |s.kbits| == |t.kbits| && |s.ubits| == |t.ubits| && |s.kvbits| == |t.kvbits| && |s.uvbits| == |t.uvbits|
  }

  /** New tables may have appeared, in frames of the kernel pool; old ones stay. */
  ghost predicate TablesGrow(s: State, t: State)
  {
    (forall d :: d in s.tables ==> d in t.tables && t.tables[d] == s.tables[d]) &&
    forall d :: d in t.tables && d !in s.tables ==> 0 <= t.tables[d] < |s.kbits|
  }

  /** Exactly the pages `vpn..vpn + cnt` are new. */
  ghost predicate Allocates(s: State, t: State, vpn: nat, cnt: nat)
  {
    SameSizes(s, t) && TablesGrow(s, t) && t.lost == s.lost &&
    s.pages.Keys !! Range(vpn, cnt) && t.pages.Keys == s.pages.Keys + Range(vpn, cnt) &&
    forall v :: v in s.pages ==> t.pages[v] == s.pages[v]
  }

  /** malloc_page. */
  ghost function Malloc(l: Layout, s: State, flag: Owner, cnt: nat): Loop
    requires Inv(l, s)
  {
    var idx := Found(VBits(s, flag), cnt);
    if idx == -1 then Loop(s, NoMemory, 0)
    else
      var vpn := Base(l, flag) + idx;
      ReservedFacts(l, s, flag, cnt);
      var r := PagesFrom(l, WithVBits(s, flag, idx, cnt, true), flag, vpn, cnt);
      if r.out != NoMemory then r
      else if r.k == 0 && Dir(vpn) !in r.s.tables then r.(out := Fault)
      else
        PagesFromFacts(l, WithVBits(s, flag, idx, cnt, true), flag, vpn, cnt);
        PagesAreMapped(WithVBits(s, flag, idx, cnt, true), r.s, vpn, r.k);
        r.(s := Free(l, r.s, flag, vpn, r.k).(lost := s.lost + Range(vpn + r.k, cnt - r.k)))
  }

  /** Enough frames for `cnt` pages from `vpn` on, page tables included. */
  ghost predicate Enough(s: State, flag: Owner, vpn: nat, cnt: nat)
  {
    var tablesNeeded := TablesNeeded(s.tables.Keys, vpn, cnt);
    if flag == KERNEL then cnt + tablesNeeded <= CountClear(s.kbits)
    else cnt <= CountClear(s.ubits) && tablesNeeded <= CountClear(s.kbits)
  }

  // ---------- One page ----------

  lemma NothingHappened(s: State)
    ensures SameSizes(s, s) && TablesGrow(s, s)
  {}

  lemma ValuesWith(m: map<nat, int>, v: nat, f: int)
    requires v !in m
    ensures m[v := f].Values == m.Values + {f}
  {
    var n := m[v := f];
    assert v in n && forall u :: u in m ==> u in n && n[u] == m[u];
  }

  lemma ValuesWithout(m: map<nat, int>, v: nat)
    requires v in m && Injective(m)
    ensures (m - {v}).Values == m.Values - {m[v]}
  {
    var n := m - {v};
    forall f | f in m.Values - {m[v]} ensures f in n.Values {
      var u :| u in m && m[u] == f;
      assert u in n;
    }
  }

  lemma PageFreed(l: Layout, s: State, t: State, vpn: nat)
    requires FramesOk(l, s) && Layered(l, t) && SameSizes(s, t)
    requires vpn in s.pages && t.pages == s.pages - {vpn} && t.tables == s.tables
    requires Marks(l, t.kbits, t.ubits, Owned(l, s) - {s.pages[vpn]})
    ensures FramesOk(l, t)
  {
    ValuesWithout(s.pages, vpn);
    assert Owned(l, t) == Owned(l, s) - {s.pages[vpn]};
  }

  lemma SameFrames(l: Layout, s: State, t: State)
    requires FramesOk(l, s) && SameSizes(s, t)
    requires t == s.(kvbits := t.kvbits, uvbits := t.uvbits, lost := t.lost)
    ensures FramesOk(l, t)
  {}

  /** What AddToPageTable finds: frame `f` is taken but not yet mapped. */
  ghost predicate Pending(l: Layout, s: State, vpn: nat, f: int)
  {
    Layered(l, s) && MapOk(l, s) && f !in Owned(l, s) && Marks(l, s.kbits, s.ubits, Owned(l, s) + {f}) &&
    vpn !in s.pages && RightPool(l, s, vpn, f)
  }

  lemma PageMapped(l: Layout, s: State, vpn: nat, f: int)
    requires Pending(l, s, vpn, f) && Dir(vpn) in s.tables
    ensures FramesOk(l, s.(pages := s.pages[vpn := f]))
  {
    ValuesWith(s.pages, vpn, f);
    var t := s.(pages := s.pages[vpn := f]);
    assert Owned(l, t) == Owned(l, s) + {f};
    assert forall u :: u in t.pages && u != vpn ==> u in s.pages && t.pages[u] == s.pages[u];
  }

  lemma TableInstalled(l: Layout, s: State, vpn: nat, f: int, g: int)
    requires Pending(l, s, vpn, f) && Dir(vpn) !in s.tables
    requires 0 <= g < |s.kbits| && g !in Owned(l, s) + {f}
    ensures var t := s.(kbits := s.kbits[g := true], tables := s.tables[Dir(vpn) := g]);
            Pending(l, t, vpn, f) && Dir(vpn) in t.tables
  {
    var t := s.(kbits := s.kbits[g := true], tables := s.tables[Dir(vpn) := g]);
    ValuesWith(s.tables, Dir(vpn), g);
    assert Owned(l, t) == Owned(l, s) + {g};
    assert g in s.pages.Values + l.foreign ==> g in Owned(l, s);
  }

  /** A frame just taken from the owner's pool is pending for page `vpn`. */
  lemma FrameTaken(l: Layout, s: State, flag: Owner, vpn: nat, i: nat)
    requires FramesOk(l, s) && i < |PBits(s, flag)| && !PBits(s, flag)[i]
    requires vpn !in s.pages && Base(l, flag) <= vpn < Base(l, flag) + |VBits(s, flag)|
    ensures Pending(l, Take(s, flag, i), vpn, Frame(l, flag, i))
  {
    var t := Take(s, flag, i);
    assert Owned(l, t) == Owned(l, s);
    assert Frame(l, flag, i) !in Owned(l, s);
  }

  lemma PageEntered(l: Layout, s: State, vpn: nat, f: int)
    requires Pending(l, s, vpn, f)
    ensures var t := Entered(s, f, vpn);
            (vpn in t.pages ==> FramesOk(l, t) && t.pages == s.pages[vpn := f] && Dir(vpn) in t.tables) &&
            (vpn !in t.pages <==> Dir(vpn) !in s.tables && CountClear(s.kbits) == 0) && (vpn !in t.pages ==> t == s) &&
            (Dir(vpn) !in s.tables && vpn in t.pages ==>
               CountClear(t.kbits) == CountClear(s.kbits) - 1 && t.tables.Keys == s.tables.Keys + {Dir(vpn)}) &&
            SameSizes(s, t) && TablesGrow(s, t) && t.ubits == s.ubits &&
            (Dir(vpn) in s.tables ==> t.kbits == s.kbits && t.tables == s.tables) &&
            t.kvbits == s.kvbits && t.uvbits == s.uvbits && t.lost == s.lost
  {
    hide Pending, FramesOk;
    PendingPage(l, s, vpn, f);
    PallocFinds(s.kbits);
    var g := FirstFit(s.kbits, 1);
    if Dir(vpn) in s.tables {
      PageMapped(l, s, vpn, f);
    } else if g != -1 {
      CountClearSet(s.kbits, g);
      FreeIsNobodys(l, s, vpn, f, g);
      TableInstalled(l, s, vpn, f, g);
      PageMapped(l, s.(kbits := s.kbits[g := true], tables := s.tables[Dir(vpn) := g]), vpn, f);
    }
  }

  lemma SameTables(s: State, b: State, t: State)
    requires b.tables == s.tables && |b.kbits| == |s.kbits|
    ensures TablesGrow(s, t) <==> TablesGrow(b, t)
  {}

  lemma PendingPage(l: Layout, s: State, vpn: nat, f: int)
    requires Pending(l, s, vpn, f)
    ensures vpn !in s.pages
  {}

  lemma FreeIsNobodys(l: Layout, s: State, vpn: nat, f: int, g: nat)
    requires Pending(l, s, vpn, f) && g < |s.kbits| && !s.kbits[g]
    ensures g !in Owned(l, s) + {f}
  {}

  /** One round draws a data frame, and a frame for the table if the page has none. */
  ghost predicate Drawn(b: State, t: State, flag: Owner, vpn: nat)
  {
    var left := CountClear(b.kbits) - (if flag == KERNEL then 1 else 0);
    CountClear(t.ubits) == CountClear(b.ubits) - (if flag == KERNEL then 0 else 1) &&
    if Dir(vpn) in b.tables then t.tables == b.tables && CountClear(t.kbits) == left
    else if left == 0 then t.tables == b.tables && CountClear(t.kbits) == 0
    else t.tables.Keys == b.tables.Keys + {Dir(vpn)} && CountClear(t.kbits) == left - 1
  }

  /** A new page: it fails exactly for want of a frame, and otherwise just that page is mapped. */
  lemma NextPageFacts(l: Layout, s: State, flag: Owner, vpn: nat)
    requires FramesOk(l, s) && vpn !in s.pages && Base(l, flag) <= vpn < Base(l, flag) + |VBits(s, flag)|
    ensures var r := NextPage(l, s, flag, vpn);
            (r.out == NoMemory <==> CountClear(PBits(s, flag)) == 0) && (r.out == NoMemory ==> r.s == s) &&
            (r.out != NoMemory ==> Drawn(s, r.s, flag, vpn)) && (r.out == Fault ==> Dir(vpn) !in r.s.tables) &&
            (r.out.Mapped? <==> vpn in r.s.pages) && (r.out.Mapped? ==> r.s.pages == s.pages[vpn := r.s.pages[vpn]]) &&
            (r.out.Mapped? ==> FramesOk(l, r.s) && Dir(vpn) in r.s.tables) &&
            SameSizes(s, r.s) && TablesGrow(s, r.s) && r.k == (if r.out.Mapped? then 1 else 0) &&
            r.s.kvbits == s.kvbits && r.s.uvbits == s.uvbits && r.s.lost == s.lost
  {
    hide FramesOk, Pending, CountClear, Entered, TablesGrow, FirstFit;
    NothingHappened(s);
    PallocFinds(PBits(s, flag));
    var i := FirstFit(PBits(s, flag), 1);
    if i != -1 {
      FrameTaken(l, s, flag, vpn, i);
      SameTables(s, Take(s, flag, i), Entered(Take(s, flag, i), Frame(l, flag, i), vpn));
      CountClearSet(PBits(s, flag), i);
      PageEntered(l, Take(s, flag, i), vpn, Frame(l, flag, i));
    }
  }

  // ---------- Many pages ----------

  lemma AllocatesMore(s: State, b: State, t: State, vpn: nat, k: nat)
    requires vpn !in s.pages && vpn in b.pages && b.pages == s.pages[vpn := b.pages[vpn]] && b.lost == s.lost
    requires SameSizes(s, b) && TablesGrow(s, b) && Allocates(b, t, vpn + 1, k)
    ensures Allocates(s, t, vpn, k + 1)
  {
    assert Range(vpn, k + 1) == {vpn} + Range(vpn + 1, k);
    forall d | d in s.tables ensures d in t.tables && t.tables[d] == s.tables[d] {
      assert d in b.tables && b.tables[d] == s.tables[d];
    }
  }

  lemma EnoughStep(l: Layout, s: State, flag: Owner, vpn: nat, cnt: nat)
    requires FramesOk(l, s) && vpn !in s.pages && Base(l, flag) <= vpn < Base(l, flag) + |VBits(s, flag)| && cnt > 0
    ensures var r := NextPage(l, s, flag, vpn);
            Enough(s, flag, vpn, cnt) <==> r.out.Mapped? && Enough(r.s, flag, vpn + 1, cnt - 1)
  {
    NextPageFacts(l, s, flag, vpn);
    var t := NextPage(l, s, flag, vpn).s;
    assert Dir(vpn) in s.tables ==> s.tables.Keys + {Dir(vpn)} == s.tables.Keys;
  }

  /** The loop maps all pages exactly if there are frames enough; and what it has mapped when it ends
      without a fault is just the first `k`. */
  lemma {:induction false} PagesFromFacts(l: Layout, s: State, flag: Owner, vpn: nat, cnt: nat)
    requires FramesOk(l, s) && Base(l, flag) <= vpn && vpn + cnt <= Base(l, flag) + |VBits(s, flag)|
    requires s.pages.Keys !! Range(vpn, cnt)
    ensures var r := PagesFrom(l, s, flag, vpn, cnt);
            (r.out.Mapped? <==> Enough(s, flag, vpn, cnt)) &&
            (r.out != Fault ==> FramesOk(l, r.s) && Allocates(s, r.s, vpn, r.k)) &&
            r.s.kvbits == s.kvbits && r.s.uvbits == s.uvbits
    decreases cnt
  {
    hide FramesOk, Enough, Drawn, NextPage, Allocates, TablesGrow;
    NoPages(s, flag, vpn);
    if cnt > 0 {
      assert InRange(vpn, vpn, cnt) && vpn in Range(vpn, cnt);
      NextPageFacts(l, s, flag, vpn);
      EnoughStep(l, s, flag, vpn, cnt);
      var n := NextPage(l, s, flag, vpn);
      if n.out.Mapped? {
        RestUnmapped(s, n.s, vpn, cnt);
        PagesFromFacts(l, n.s, flag, vpn + 1, cnt - 1);
        var r := PagesFrom(l, n.s, flag, vpn + 1, cnt - 1);
        if r.out != Fault { AllocatesMore(s, n.s, r.s, vpn, r.k); }
      }
    }
  }

  lemma NoPages(s: State, flag: Owner, vpn: nat)
    ensures Allocates(s, s, vpn, 0) && Enough(s, flag, vpn, 0)
  {
    assert Range(vpn, 0) == {};
  }

  lemma RestUnmapped(s: State, t: State, vpn: nat, cnt: nat)
    requires cnt > 0 && s.pages.Keys !! Range(vpn, cnt) && vpn in t.pages && t.pages == s.pages[vpn := t.pages[vpn]]
    ensures t.pages.Keys !! Range(vpn + 1, cnt - 1)
  {
    forall u | u in Range(vpn + 1, cnt - 1) ensures u !in t.pages {
      assert InRange(u, vpn, cnt) && u in Range(vpn, cnt);
    }
  }

  lemma PagesAreMapped(s: State, t: State, vpn: nat, k: nat)
    requires Allocates(s, t, vpn, k)
    ensures forall u :: vpn <= u < vpn + k ==> u in t.pages
    ensures |VBits(t, KERNEL)| == |VBits(s, KERNEL)| && |VBits(t, USER)| == |VBits(s, USER)|
  {
    assert forall u: nat :: vpn <= u < vpn + k ==> InRange(u, vpn, k);
  }

  /** free_page: exactly the pages `vpn..vpn + cnt` are gone, and no table is. */
  ghost predicate Frees(s: State, t: State, vpn: nat, cnt: nat)
  {
    SameSizes(s, t) && t.tables == s.tables && t.lost == s.lost && t.pages == s.pages - Range(vpn, cnt)
  }

  lemma PageStep(vaddr: nat, k: nat)
    ensures (vaddr + k * PAGE) / PAGE == vaddr / PAGE + k
  {}

  lemma FrameInPool(l: Layout, s: State, vpn: nat)
    requires FramesOk(l, s) && vpn in s.pages
    requires InAPool(l, s, vpn)
    ensures 0 <= s.pages[vpn] < |s.kbits| || l.ustart <= s.pages[vpn] < l.ustart + |s.ubits|
  {
    assert RightPool(l, s, vpn, s.pages[vpn]);
  }

  lemma FreeOneKeeps(l: Layout, s: State, vpn: nat)
    requires FramesOk(l, s) && vpn in s.pages
    requires InAPool(l, s, vpn)
    ensures var t := FreeOne(l, s, vpn);
            FramesOk(l, t) && t.pages == s.pages - {vpn} && t.kvbits == s.kvbits && t.uvbits == s.uvbits
  {
    FrameInPool(l, s, vpn);
    var t := FreeOne(l, s, vpn);
    assert Marks(l, t.kbits, t.ubits, Owned(l, s) - {s.pages[vpn]});
    PageFreed(l, s, t, vpn);
  }

  lemma {:induction false} FreeRunKeeps(l: Layout, s: State, flag: Owner, vpn: nat, cnt: nat)
    requires FramesOk(l, s) && CanFree(l, s, flag, vpn, cnt)
    ensures FramesOk(l, FreeRun(l, s, vpn, cnt))
    decreases cnt
  {
    hide FramesOk, FreeOne;
    if cnt > 0 {
      FreeOneKeeps(l, s, vpn);
      FreeRunKeeps(l, FreeOne(l, s, vpn), flag, vpn + 1, cnt - 1);
    }
  }

  lemma FreeFacts(l: Layout, s: State, flag: Owner, vpn: nat, cnt: nat)
    requires FramesOk(l, s) && CanFree(l, s, flag, vpn, cnt)
    ensures var t := Free(l, s, flag, vpn, cnt);
            FramesOk(l, t) && Frees(s, t, vpn, cnt) &&
            VBits(t, flag) == SetRange(VBits(s, flag), vpn - Base(l, flag), cnt, false) &&
            VBits(t, Other(flag)) == VBits(s, Other(flag))
  {
    hide FramesOk;
    FreeRunSizes(l, s, vpn, cnt);
    FreeRunKeeps(l, s, flag, vpn, cnt);
    SameFrames(l, FreeRun(l, s, vpn, cnt), Free(l, s, flag, vpn, cnt));
  }

  lemma BitsFreed(bits: seq<bool>, base: nat, held: set<nat>, vpn: nat, cnt: nat)
    requires BitsAgree(bits, base, held)
    ensures base <= vpn && vpn - base + cnt <= |bits| ==>
              BitsAgree(SetRange(bits, vpn - base, cnt, false), base, held - Range(vpn, cnt))
    ensures vpn + cnt <= base || base + |bits| <= vpn ==> BitsAgree(bits, base, held - Range(vpn, cnt))
  {}

  lemma BitsTaken(bits: seq<bool>, base: nat, held: set<nat>, vpn: nat, cnt: nat)
    requires BitsAgree(bits, base, held)
    ensures base <= vpn && vpn - base + cnt <= |bits| ==>
              BitsAgree(SetRange(bits, vpn - base, cnt, true), base, held + Range(vpn, cnt))
    ensures vpn + cnt <= base || base + |bits| <= vpn ==> BitsAgree(bits, base, held + Range(vpn, cnt))
  {}

  // ---------- malloc_page and free_page keep the invariant ----------

  /** The pages are as before, but `cnt` more have been lost. */
  ghost predicate Loses(s: State, t: State, vpn: nat, cnt: nat)
  {
    t.pages == s.pages && cnt > 0 && s.lost !! Range(vpn, cnt) && t.lost == s.lost + Range(vpn, cnt)
  }

  /** The run found is neither mapped nor lost. */
  lemma ReservedFacts(l: Layout, s: State, flag: Owner, cnt: nat)
    requires Inv(l, s) && Found(VBits(s, flag), cnt) != -1
    ensures var idx := Found(VBits(s, flag), cnt);
            var vpn := Base(l, flag) + idx;
            var t := WithVBits(s, flag, idx, cnt, true);
            HeldPages(s) !! Range(vpn, cnt) && t.pages.Keys !! Range(vpn, cnt) && FramesOk(l, t) && SameSizes(s, t) &&
            vpn + cnt <= Base(l, flag) + |VBits(s, flag)| &&
            BitsAgree(t.kvbits, l.kbase, HeldPages(s) + Range(vpn, cnt)) &&
            BitsAgree(t.uvbits, l.ubase, HeldPages(s) + Range(vpn, cnt))
  {
    var bits, idx := VBits(s, flag), Found(VBits(s, flag), cnt);
    var vpn := Base(l, flag) + idx;
    forall u | u in Range(vpn, cnt) ensures u !in HeldPages(s) {
      assert !bits[u - Base(l, flag)];
    }
    BitsTaken(s.kvbits, l.kbase, HeldPages(s), vpn, cnt);
    BitsTaken(s.uvbits, l.ubase, HeldPages(s), vpn, cnt);
    SameFrames(l, s, WithVBits(s, flag, idx, cnt, true));
  }

  /** malloc_page succeeds exactly if there are addresses and frames enough, and then maps just the run
      found. If frames ran out the pages are as before, and the bits of the pages not reached are lost. */
  lemma MallocFacts(l: Layout, s: State, flag: Owner, cnt: nat)
    requires Inv(l, s)
    ensures var r, idx := Malloc(l, s, flag, cnt), Found(VBits(s, flag), cnt);
            (r.out.Mapped? <==> idx != -1 && Enough(s, flag, Base(l, flag) + idx, cnt)) &&
            (r.out.Mapped? ==> r.out.vpn == Base(l, flag) + idx && Allocates(s, r.s, r.out.vpn, cnt)) &&
            (r.out.Mapped? ==> CanFree(l, r.s, flag, r.out.vpn, cnt)) &&
            (r.out == NoMemory && idx == -1 ==> r.s == s) &&
            (r.out == NoMemory && idx != -1 ==> Loses(s, r.s, Base(l, flag) + idx + r.k, cnt - r.k)) &&
            (r.out != Fault ==> Inv(l, r.s) && SameSizes(s, r.s) && TablesGrow(s, r.s))
  {
    hide Inv, FramesOk, Enough, Allocates, Found, PagesFrom, Loses;
    hide BitsAgree, TablesGrow, CanFree, Free, SetRange, HeldPages;
    var idx := Found(VBits(s, flag), cnt);
    if idx == -1 {
      NothingHappened(s);
    } else {
      var vpn := Base(l, flag) + idx;
      var t := WithVBits(s, flag, idx, cnt, true);
      ReservedFacts(l, s, flag, cnt);
      PagesFromFacts(l, t, flag, vpn, cnt);
      SameEnough(s, t, flag, vpn, cnt);
      var r := PagesFrom(l, t, flag, vpn, cnt);
      if r.out.Mapped? {
        MallocSucceeds(l, s, flag, cnt, t, r.s);
      } else if r.out == NoMemory && !(r.k == 0 && Dir(vpn) !in r.s.tables) {
        MallocFails(l, s, flag, cnt, t, r);
      }
    }
  }

  // ---------- Null or a fault ----------

  /** A data frame is left when the first `j` pages have been mapped. */
  ghost predicate DataLeft(s: State, flag: Owner, vpn: nat, j: nat)
  {
    if flag == KERNEL then j + TablesNeeded(s.tables.Keys, vpn, j) < CountClear(s.kbits) else j < CountClear(s.ubits)
  }

  /** Page `j` gets its data frame, but there is none for its page table. */
  ghost predicate StopsAt(s: State, flag: Owner, vpn: nat, j: nat)
  {
    Enough(s, flag, vpn, j) && DataLeft(s, flag, vpn, j) && !Enough(s, flag, vpn, j + 1)
  }

  ghost predicate TableMissing(s: State, flag: Owner, vpn: nat, cnt: nat)
  {
    exists j: nat :: j < cnt && StopsAt(s, flag, vpn, j)
  }

  /** The call touches a page without a page table: one that it could not map, or, with no data frame at
      all, the first one, which free_page looks up in order to give back nothing. */
  ghost predicate Faults(s: State, flag: Owner, vpn: nat, cnt: nat)
  {
    TableMissing(s, flag, vpn, cnt) || (cnt > 0 && CountClear(PBits(s, flag)) == 0 && Dir(vpn) !in s.tables)
  }

  lemma DataLeftStep(l: Layout, s: State, flag: Owner, vpn: nat, j: nat)
    requires FramesOk(l, s) && vpn !in s.pages && Base(l, flag) <= vpn < Base(l, flag) + |VBits(s, flag)| && j > 0
    requires NextPage(l, s, flag, vpn).out.Mapped?
    ensures DataLeft(s, flag, vpn, j) <==> DataLeft(NextPage(l, s, flag, vpn).s, flag, vpn + 1, j - 1)
  {
    NextPageFacts(l, s, flag, vpn);
    assert Dir(vpn) in s.tables ==> s.tables.Keys + {Dir(vpn)} == s.tables.Keys;
    hide NextPage, FramesOk;
  }

  lemma StopsAtStep(l: Layout, s: State, flag: Owner, vpn: nat, j: nat)
    requires FramesOk(l, s) && vpn !in s.pages && Base(l, flag) <= vpn < Base(l, flag) + |VBits(s, flag)|
    ensures var n := NextPage(l, s, flag, vpn);
            StopsAt(s, flag, vpn, j) <==>
              if j == 0 then n.out == Fault else n.out.Mapped? && StopsAt(n.s, flag, vpn + 1, j - 1)
  {
    NextPageFacts(l, s, flag, vpn);
    NoPages(s, flag, vpn);
    NoPages(NextPage(l, s, flag, vpn).s, flag, vpn + 1);
    assert DataLeft(s, flag, vpn, 0) <==> CountClear(PBits(s, flag)) > 0;
    hide NextPage, Enough, DataLeft, FramesOk;
    EnoughStep(l, s, flag, vpn, j + 1);
    if j > 0 {
      EnoughStep(l, s, flag, vpn, j);
      if NextPage(l, s, flag, vpn).out.Mapped? { DataLeftStep(l, s, flag, vpn, j); }
    }
  }

  lemma TableMissingStep(l: Layout, s: State, flag: Owner, vpn: nat, cnt: nat)
    requires FramesOk(l, s) && vpn !in s.pages && Base(l, flag) <= vpn < Base(l, flag) + |VBits(s, flag)| && cnt > 0
    ensures var n := NextPage(l, s, flag, vpn);
            TableMissing(s, flag, vpn, cnt) <==>
              n.out == Fault || (n.out.Mapped? && TableMissing(n.s, flag, vpn + 1, cnt - 1))
  {
    var n, next := NextPage(l, s, flag, vpn), vpn + 1;
    hide FramesOk, NextPage, StopsAt;
    StopsAtStep(l, s, flag, vpn, 0);
    if j: nat :| j < cnt && StopsAt(s, flag, vpn, j) {
      StopsAtStep(l, s, flag, vpn, j);
      if j > 0 { assert StopsAt(n.s, flag, next, j - 1); }
    }
    if j: nat :| j < cnt - 1 && StopsAt(n.s, flag, next, j) { StopsAtStep(l, s, flag, vpn, j + 1); }
  }

  lemma {:induction false} FaultsIs(l: Layout, s: State, flag: Owner, vpn: nat, cnt: nat)
    requires FramesOk(l, s) && Base(l, flag) <= vpn && vpn + cnt <= Base(l, flag) + |VBits(s, flag)|
    requires s.pages.Keys !! Range(vpn, cnt)
    ensures var r := PagesFrom(l, s, flag, vpn, cnt);
            (r.out == Fault <==> TableMissing(s, flag, vpn, cnt)) &&
            (r.out == NoMemory && r.k == 0 ==> CountClear(PBits(s, flag)) == 0 && r.s == s) &&
            (cnt > 0 && CountClear(PBits(s, flag)) == 0 ==> r.out == NoMemory && r.k == 0)
    decreases cnt
  {
    hide FramesOk, TableMissing, Drawn, NextPage, TablesGrow;
    if cnt > 0 {
      assert InRange(vpn, vpn, cnt) && vpn in Range(vpn, cnt);
      NextPageFacts(l, s, flag, vpn);
      TableMissingStep(l, s, flag, vpn, cnt);
      var n := NextPage(l, s, flag, vpn);
      if n.out.Mapped? {
        RestUnmapped(s, n.s, vpn, cnt);
        FaultsIs(l, n.s, flag, vpn + 1, cnt - 1);
      }
    } else {
      NothingMissing(s, flag, vpn);
    }
  }

  lemma NothingMissing(s: State, flag: Owner, vpn: nat)
    ensures !TableMissing(s, flag, vpn, 0)
  {}

  /** malloc_page ends in a page fault exactly if it finds addresses and then touches a page without a table. */
  lemma MallocFaults(l: Layout, s: State, flag: Owner, cnt: nat)
    requires Inv(l, s)
    ensures var idx := Found(VBits(s, flag), cnt);
            Malloc(l, s, flag, cnt).out == Fault <==> idx != -1 && Faults(s, flag, Base(l, flag) + idx, cnt)
  {
    hide Inv, FramesOk, BitsAgree, Found, PagesFrom, SetRange, Free, CountClear, HeldPages, TableMissing;
    var idx := Found(VBits(s, flag), cnt);
    if idx != -1 {
      ReservedFacts(l, s, flag, cnt);
      var t := WithVBits(s, flag, idx, cnt, true);
      FaultsIs(l, t, flag, Base(l, flag) + idx, cnt);
      SameFaults(s, t, flag, Base(l, flag) + idx, cnt);
    }
  }

  /** The three answers of malloc_page. */
  lemma MallocOutcome(l: Layout, s: State, flag: Owner, cnt: nat)
    requires Inv(l, s)
    ensures var idx := Found(VBits(s, flag), cnt);
            Malloc(l, s, flag, cnt).out ==
              if idx == -1 then NoMemory
              else if Enough(s, flag, Base(l, flag) + idx, cnt) then Mapped(Base(l, flag) + idx)
              else if Faults(s, flag, Base(l, flag) + idx, cnt) then Fault
              else NoMemory
  {
    hide Inv, Found, Malloc, Enough, Faults, Allocates, CanFree, Loses, TablesGrow;
    MallocFacts(l, s, flag, cnt);
    MallocFaults(l, s, flag, cnt);
  }

  lemma SameFaults(s: State, t: State, flag: Owner, vpn: nat, cnt: nat)
    requires t.kbits == s.kbits && t.ubits == s.ubits && t.tables == s.tables
    ensures TableMissing(s, flag, vpn, cnt) == TableMissing(t, flag, vpn, cnt) && PBits(s, flag) == PBits(t, flag)
  {
    hide CountClear, TablesNeeded;
    forall j: nat ensures StopsAt(s, flag, vpn, j) == StopsAt(t, flag, vpn, j) {}
    hide StopsAt;
  }

  /** After a shortage just the virtual bits of the pages not reached stay set without a page. */
  lemma ShortageLeaks(l: Layout, s: State, flag: Owner, cnt: nat)
    requires Inv(l, s) && Malloc(l, s, flag, cnt).out == NoMemory && Found(VBits(s, flag), cnt) != -1
    ensures var r, idx := Malloc(l, s, flag, cnt), Found(VBits(s, flag), cnt);
            r.s.pages == s.pages && r.k < cnt && VBits(r.s, Other(flag)) == VBits(s, Other(flag)) &&
            VBits(r.s, flag) == SetRange(VBits(s, flag), idx + r.k, cnt - r.k, true) && !Inv(l, r.s.(lost := s.lost))
  {
    hide FramesOk, BitsAgree, Found, Malloc, Enough, CanFree, Allocates, SetRange, TablesGrow;
    MallocFacts(l, s, flag, cnt);
    var r, idx := Malloc(l, s, flag, cnt), Found(VBits(s, flag), cnt);
    BitsTaken(s.kvbits, l.kbase, HeldPages(s), Base(l, flag) + idx + r.k, cnt - r.k);
    BitsTaken(s.uvbits, l.ubase, HeldPages(s), Base(l, flag) + idx + r.k, cnt - r.k);
    FramesLayered(l, s);
    LeakedBits(l, s, r.s, flag, idx + r.k, cnt - r.k);
  }

  lemma LeakedBits(l: Layout, s: State, t: State, flag: Owner, i: nat, n: nat)
    requires Inv(l, s) && Inv(l, t) && SameSizes(s, t) && Loses(s, t, Base(l, flag) + i, n) && i + n <= |VBits(s, flag)|
    requires Layered(l, s)
    ensures VBits(t, Other(flag)) == VBits(s, Other(flag)) && VBits(t, flag) == SetRange(VBits(s, flag), i, n, true)
    ensures !Inv(l, t.(lost := s.lost))
  {
    hide FramesOk;
    var v := Base(l, flag) + i;
    assert InRange(v, v, n) && v in Range(v, n) && v in t.lost && v !in s.lost;
    assert v !in HeldPages(t.(lost := s.lost));
    assert VBits(t, flag)[i];
    assert HeldPages(t) == HeldPages(s) + Range(v, n);
    forall j | 0 <= j < |VBits(s, flag)|
      ensures VBits(t, flag)[j] == SetRange(VBits(s, flag), i, n, true)[j]
    {
      assert i <= j < i + n <==> InRange(Base(l, flag) + j, v, n);
    }
  }

  lemma SameEnough(s: State, t: State, flag: Owner, vpn: nat, cnt: nat)
    requires t.kbits == s.kbits && t.ubits == s.ubits && t.tables == s.tables
    ensures Enough(s, flag, vpn, cnt) == Enough(t, flag, vpn, cnt)
  {}

  lemma CanFreeBack(l: Layout, s: State, t: State, flag: Owner, vpn: nat, cnt: nat, k: nat)
    requires Allocates(s, t, vpn, k) && k <= cnt && Base(l, flag) <= vpn
    requires vpn + cnt <= Base(l, flag) + |VBits(s, flag)|
    ensures CanFree(l, t, flag, vpn, k)
  {
    PagesAreMapped(s, t, vpn, k);
  }

  lemma MallocSucceeds(l: Layout, s: State, flag: Owner, cnt: nat, b: State, t: State)
    requires Inv(l, s) && FramesOk(l, t) && Found(VBits(s, flag), cnt) != -1
    requires var idx := Found(VBits(s, flag), cnt);
             var vpn := Base(l, flag) + idx;
             b == WithVBits(s, flag, idx, cnt, true) && Allocates(b, t, vpn, cnt) && HeldPages(s) !! Range(vpn, cnt) &&
             BitsAgree(b.kvbits, l.kbase, HeldPages(s) + Range(vpn, cnt)) &&
             BitsAgree(b.uvbits, l.ubase, HeldPages(s) + Range(vpn, cnt))
    requires t.kvbits == b.kvbits && t.uvbits == b.uvbits
    ensures var vpn := Base(l, flag) + Found(VBits(s, flag), cnt);
            Inv(l, t) && Allocates(s, t, vpn, cnt) && CanFree(l, t, flag, vpn, cnt) && SameSizes(s, t) &&
            TablesGrow(s, t)
  {
    hide FramesOk, BitsAgree, Found;
    var vpn := Base(l, flag) + Found(VBits(s, flag), cnt);
    assert HeldPages(t) == HeldPages(s) + Range(vpn, cnt);
    PagesAreMapped(b, t, vpn, cnt);
  }

  lemma MallocFails(l: Layout, s: State, flag: Owner, cnt: nat, b: State, r: Loop)
    requires Inv(l, s) && FramesOk(l, r.s) && Found(VBits(s, flag), cnt) != -1 && r.k < cnt
    requires var idx := Found(VBits(s, flag), cnt);
             var vpn := Base(l, flag) + idx;
             b == WithVBits(s, flag, idx, cnt, true) && Allocates(b, r.s, vpn, r.k) &&
             HeldPages(s) !! Range(vpn, cnt) &&
             BitsAgree(b.kvbits, l.kbase, HeldPages(s) + Range(vpn, cnt)) &&
             BitsAgree(b.uvbits, l.ubase, HeldPages(s) + Range(vpn, cnt))
    requires r.s.kvbits == b.kvbits && r.s.uvbits == b.uvbits
    ensures var vpn := Base(l, flag) + Found(VBits(s, flag), cnt);
            CanFree(l, r.s, flag, vpn, r.k) &&
            var t := Free(l, r.s, flag, vpn, r.k).(lost := s.lost + Range(vpn + r.k, cnt - r.k));
            Inv(l, t) && Loses(s, t, vpn + r.k, cnt - r.k) && SameSizes(s, t) && TablesGrow(s, t)
  {
    hide FramesOk, BitsAgree, Found, SetRange, Free, TablesGrow;
    var vpn := Base(l, flag) + Found(VBits(s, flag), cnt);
    CanFreeBack(l, b, r.s, flag, vpn, cnt, r.k);
    FreeFacts(l, r.s, flag, vpn, r.k);
    var u := Free(l, r.s, flag, vpn, r.k);
    var t := u.(lost := s.lost + Range(vpn + r.k, cnt - r.k));
    SameFrames(l, u, t);
    SameTables(s, b, r.s);
    SameTablesAfter(s, r.s, t);
    RangeSplits(vpn, cnt, r.k);
    LossIs(l, s, b, r.s, u, t, flag, vpn, cnt, r.k);
    BitsFreed(r.s.kvbits, l.kbase, HeldPages(s) + Range(vpn, cnt), vpn, r.k);
    BitsFreed(r.s.uvbits, l.ubase, HeldPages(s) + Range(vpn, cnt), vpn, r.k);
    FramesLayered(l, r.s);
  }

  lemma SameTablesAfter(s: State, b: State, t: State)
    requires TablesGrow(s, b) && b.tables == t.tables
    ensures TablesGrow(s, t)
  {}

  lemma LossIs(l: Layout, s: State, b: State, r: State, u: State, t: State, flag: Owner, vpn: nat, cnt: nat, k: nat)
    requires k < cnt && Base(l, flag) <= vpn && vpn + cnt <= Base(l, flag) + |VBits(s, flag)|
    requires HeldPages(s) !! Range(vpn, cnt) && s.lost !! s.pages.Keys && forall v :: v in s.lost ==> InAPool(l, s, v)
    requires b.pages == s.pages && Allocates(b, r, vpn, k) && Frees(r, u, vpn, k) && SameSizes(s, b)
    requires t == u.(lost := s.lost + Range(vpn + k, cnt - k))
    requires Range(vpn, cnt) == Range(vpn, k) + Range(vpn + k, cnt - k) && Range(vpn, k) !! Range(vpn + k, cnt - k)
    ensures Loses(s, t, vpn + k, cnt - k) && t.lost !! t.pages.Keys && (forall v :: v in t.lost ==> InAPool(l, t, v))
    ensures HeldPages(t) == HeldPages(s) + Range(vpn, cnt) - Range(vpn, k)
  {
    hide TablesGrow;
    assert t.pages == s.pages;
  }

  lemma RangeSplits(vpn: nat, cnt: nat, k: nat)
    requires k <= cnt
    ensures Range(vpn, cnt) == Range(vpn, k) + Range(vpn + k, cnt - k) && Range(vpn, k) !! Range(vpn + k, cnt - k)
  {
    forall u | u in Range(vpn, cnt) ensures u in Range(vpn, k) + Range(vpn + k, cnt - k) {
      assert if u < vpn + k then InRange(u, vpn, k) else InRange(u, vpn + k, cnt - k);
    }
    forall u | u in Range(vpn, k) + Range(vpn + k, cnt - k) ensures u in Range(vpn, cnt) {
      assert InRange(u, vpn, cnt);
    }
  }

  /** free_page unmaps just its range and gives the frames and the virtual bits back. */
  lemma FreeKeeps(l: Layout, s: State, flag: Owner, vpn: nat, cnt: nat)
    requires Inv(l, s) && CanFree(l, s, flag, vpn, cnt)
    ensures var t := Free(l, s, flag, vpn, cnt); Inv(l, t) && Frees(s, t, vpn, cnt) && TablesGrow(s, t)
  {
    hide FramesOk, BitsAgree;
    FreeFacts(l, s, flag, vpn, cnt);
    var t := Free(l, s, flag, vpn, cnt);
    assert HeldPages(t) == HeldPages(s) - Range(vpn, cnt) by {
      forall u | u in Range(vpn, cnt) ensures u in s.pages {}
    }
    BitsFreed(s.kvbits, l.kbase, HeldPages(s), vpn, cnt);
    BitsFreed(s.uvbits, l.ubase, HeldPages(s), vpn, cnt);
    FramesLayered(l, s);
  }

  lemma FramesLayered(l: Layout, s: State)
    requires FramesOk(l, s)
    ensures Layered(l, s)
  {}

  /** Whatever was allocated and freed in between, two states with the same page map have the same
      virtual bitmaps and the same user pool; in the kernel pool they differ exactly in the frames of
      the page tables that were made. */
  lemma SamePagesSameBitmaps(l: Layout, s: State, t: State)
    requires Inv(l, s) && Inv(l, t) && SameSizes(s, t) && TablesGrow(s, t) && s.pages == t.pages && s.lost == t.lost
    ensures t.kvbits == s.kvbits && t.uvbits == s.uvbits && t.ubits == s.ubits
    ensures forall i :: 0 <= i < |s.kbits| ==>
              (t.kbits[i] <==> s.kbits[i] || exists d :: d in t.tables && d !in s.tables && t.tables[d] == i)
    ensures t.tables == s.tables ==> t == s
  {
    assert t.kvbits == s.kvbits;
    assert t.uvbits == s.uvbits;
    forall f | f in t.tables.Values ensures f in s.tables.Values || 0 <= f < |s.kbits| {
      var d :| d in t.tables && t.tables[d] == f;
      if d in s.tables { assert s.tables[d] == f; }
    }
    forall f | f in s.tables.Values ensures f in t.tables.Values {
      var d :| d in s.tables && s.tables[d] == f;
      assert d in t.tables;
    }
    assert t.ubits == s.ubits;
    if t.tables == s.tables { assert t.kbits == s.kbits; }
  }

  /** In particular freeing what was just allocated undoes the allocation. */
  lemma AllocateThenFree(l: Layout, s: State, flag: Owner, cnt: nat)
    requires Inv(l, s) && Malloc(l, s, flag, cnt).out.Mapped?
    ensures var r := Malloc(l, s, flag, cnt);
            CanFree(l, r.s, flag, r.out.vpn, cnt) &&
            var u := Free(l, r.s, flag, r.out.vpn, cnt);
            SameSizes(s, u) && u.pages == s.pages && u.kvbits == s.kvbits && u.uvbits == s.uvbits &&
            u.ubits == s.ubits && u.lost == s.lost &&
            (forall i :: 0 <= i < |s.kbits| ==>
               (u.kbits[i] <==> s.kbits[i] || exists d :: d in u.tables && d !in s.tables && u.tables[d] == i)) &&
            (r.s.tables == s.tables ==> u == s)
  {
    hide Inv, Malloc, Free, CanFree, Enough, Found, Loses;
    MallocFacts(l, s, flag, cnt);
    var r := Malloc(l, s, flag, cnt);
    FreeKeeps(l, r.s, flag, r.out.vpn, cnt);
    var u := Free(l, r.s, flag, r.out.vpn, cnt);
    assert u.pages == s.pages;
    SamePagesSameBitmaps(l, s, u);
  }

  // ---------- Runs ----------

  datatype Call = Get(flag: Owner, cnt: nat) | Give(flag: Owner, vpn: nat, cnt: nat)

  /** None after a fault, and for a call of free_page that its caller may not make. */
  ghost function After(l: Layout, s: State, c: Call): Option<State>
    requires Inv(l, s)
  {
    match c
    case Get(flag, cnt) => if Malloc(l, s, flag, cnt).out == Fault then None else Some(Malloc(l, s, flag, cnt).s)
    case Give(flag, vpn, cnt) => if CanFree(l, s, flag, vpn, cnt) then Some(Free(l, s, flag, vpn, cnt)) else None
  }

  /** malloc_page found addresses, but not the frames for them. */
  ghost predicate Short(l: Layout, s: State, c: Call)
    requires Inv(l, s)
  {
    c.Get? && Malloc(l, s, c.flag, c.cnt).out == NoMemory && Found(VBits(s, c.flag), c.cnt) != -1
  }

  lemma AfterKeeps(l: Layout, s: State, c: Call)
    requires Inv(l, s) && After(l, s, c).Some?
    ensures var t := After(l, s, c).value;
            Inv(l, t) && SameSizes(s, t) && TablesGrow(s, t) && s.lost <= t.lost &&
            (t.lost == s.lost <==> !Short(l, s, c))
  {
    hide Inv, Malloc, Free, CanFree, Enough, Found;
    match c
    case Get(flag, cnt) =>
      MallocFacts(l, s, flag, cnt);
      var r, idx := Malloc(l, s, flag, cnt), Found(VBits(s, flag), cnt);
      if r.out == NoMemory && idx != -1 { LostMore(s, r.s, Base(l, flag) + idx + r.k, cnt - r.k); }
    case Give(flag, vpn, cnt) => FreeKeeps(l, s, flag, vpn, cnt);
  }

  lemma LostMore(s: State, t: State, vpn: nat, cnt: nat)
    requires Loses(s, t, vpn, cnt)
    ensures s.lost <= t.lost && s.lost != t.lost
  {
    assert InRange(vpn, vpn, cnt) && vpn in Range(vpn, cnt);
  }

  ghost function Run(l: Layout, s: State, calls: seq<Call>): Option<State>
    requires Inv(l, s)
    decreases |calls|
  {
    if calls == [] then Some(s)
    else
      match After(l, s, calls[0])
      case None => None
      case Some(t) => AfterKeeps(l, s, calls[0]); Run(l, t, calls[1..])
  }

  /** Some call of the run found itself short of frames. */
  ghost predicate RunsShort(l: Layout, s: State, calls: seq<Call>)
    requires Inv(l, s)
    decreases |calls|
  {
    calls != [] &&
    (Short(l, s, calls[0]) ||
     match After(l, s, calls[0])
     case None => false
     case Some(t) => AfterKeeps(l, s, calls[0]); RunsShort(l, t, calls[1..]))
  }

  /** Every run keeps the invariant; the virtual bits it loses are none exactly if it is never short. */
  lemma {:induction false} RunKeeps(l: Layout, s: State, calls: seq<Call>)
    requires Inv(l, s) && Run(l, s, calls).Some?
    ensures var t := Run(l, s, calls).value;
            Inv(l, t) && SameSizes(s, t) && TablesGrow(s, t) && s.lost <= t.lost &&
            (t.lost == s.lost <==> !RunsShort(l, s, calls))
    decreases |calls|
  {
    if calls != [] {
      hide Inv, After, Short;
      var b := After(l, s, calls[0]).value;
      AfterKeeps(l, s, calls[0]);
      RunKeeps(l, b, calls[1..]);
      TablesKeepGrowing(s, b, Run(l, b, calls[1..]).value);
    }
  }

  lemma TablesKeepGrowing(s: State, b: State, t: State)
    requires TablesGrow(s, b) && TablesGrow(b, t) && SameSizes(s, b)
    ensures TablesGrow(s, t)
  {
    forall d | d in s.tables ensures d in t.tables && t.tables[d] == s.tables[d] {
      assert d in b.tables && b.tables[d] == s.tables[d];
    }
  }

  /** Conservation: once the pages are those it began with, a run that was never short has restored
      both virtual bitmaps and the user pool, and the kernel pool but for the tables it made. */
  lemma RunRestores(l: Layout, s: State, calls: seq<Call>)
    requires Inv(l, s) && Run(l, s, calls).Some? && Run(l, s, calls).value.pages == s.pages
    ensures var t := Run(l, s, calls).value;
            (t.kvbits == s.kvbits && t.uvbits == s.uvbits <==> !RunsShort(l, s, calls)) &&
            (!RunsShort(l, s, calls) ==> t.ubits == s.ubits && (t.tables == s.tables ==> t == s))
  {
    RunKeeps(l, s, calls);
    var t := Run(l, s, calls).value;
    if t.lost == s.lost {
      SamePagesSameBitmaps(l, s, t);
    } else {
      LostShows(l, s, t);
    }
  }

  lemma LostShows(l: Layout, s: State, t: State)
    requires Inv(l, s) && Inv(l, t) && SameSizes(s, t) && s.pages == t.pages && s.lost < t.lost
    ensures t.kvbits != s.kvbits || t.uvbits != s.uvbits
  {
    var v :| v in t.lost && v !in s.lost;
    assert InAPool(l, t, v);
    if l.kbase <= v < l.kbase + |s.kvbits| {
      assert t.kvbits[v - l.kbase] && !s.kvbits[v - l.kbase];
    } else {
      assert t.uvbits[v - l.ubase] && !s.uvbits[v - l.ubase];
    }
  }

  // ---------- Where the runs begin ----------

  const USED: nat := 0x200000           // the low megabyte and the loader's tables
  const FIRST_FRAME: int := 512         // the frame the kernel pool starts with
  const FIRST_TABLE: int := 0x101

  function FreePages(total: nat): nat
    requires total >= USED
  {
    (total - USED) / PAGE
  }

  function KernelPages(total: nat): nat
    requires total >= USED
  {
    FreePages(total) / 2
  }

  /** The page map of setup_page: the low megabyte, at the start of the kernel's quarter. */
  function LoaderPages(): map<nat, int>
  {
    map v: nat | KERNEL_HALF <= v < KERNEL_HALF + 256 && InRange(v, KERNEL_HALF, 256) :: v - KERNEL_HALF - FIRST_FRAME
  }

  function LoaderTables(): map<nat, int>
  {
    map d: nat | 0x300 <= d < 0x3ff && InRange(d, 0x300, 255) :: FIRST_TABLE + d - 0x300 - FIRST_FRAME
  }

  /** mem_init on a machine with `total` bytes; kernel threads have no virtual pool of their own. */
  function Booted(total: nat): State
    requires total >= USED
  {
    var kernel := 8 * (KernelPages(total) / 8);
    State(seq(kernel, i => false), seq(8 * ((FreePages(total) - KernelPages(total)) / 8), i => false),
          seq(kernel, i => false), [], LoaderPages(), LoaderTables(), {})
  }

  function BootLayout(total: nat): Layout
    requires total >= USED
  {
    Layout(KernelPages(total), KERNEL_HALF + 0x100, 0, {})
  }

  /** The kernel's virtual pool ends below the self-map exactly up to about two gigabytes. */
  lemma KernelPoolFits(total: nat)
    requires total >= USED
    ensures Layered(BootLayout(total), Booted(total)) <==> KernelPages(total) < 260872
  {
    assert 8 * (KernelPages(total) / 8) <= 260864 <==> KernelPages(total) < 260872;
  }

  /** The two physical pools share the free memory, each to within 16 pages of a half, and end within it;
      the kernel's virtual pool is as large as its physical one. */
  lemma BootShares(total: nat)
    requires total >= USED
    ensures var l, s, free := BootLayout(total), Booted(total), (total - USED) / PAGE;
            free - 16 < 2 * |s.kbits| <= free + 1 && free - 16 < 2 * |s.ubits| <= free + 1 &&
            |s.kbits| <= l.ustart && l.ustart + |s.ubits| <= free && |s.kvbits| == |s.kbits| &&
            CountClear(s.kbits) == |s.kbits| && CountClear(s.ubits) == |s.ubits|
  {
    AllClear(Booted(total).kbits);
    AllClear(Booted(total).ubits);
    hide CountClear;
  }

  lemma {:induction false} AllClear(b: seq<bool>)
    requires forall i :: 0 <= i < |b| ==> !b[i]
    ensures CountClear(b) == |b|
  {
    if b != [] { AllClear(b[1..]); }
  }

  lemma BootInv(total: nat)
    requires total >= USED && KernelPages(total) < 260872
    ensures Inv(BootLayout(total), Booted(total))
  {
    KernelPoolFits(total);
    var l, s := BootLayout(total), Booted(total);
    forall f | f in Owned(l, s) ensures f < 0 {}
    assert forall v :: v in s.pages ==> s.pages[v] < FIRST_TABLE - FIRST_FRAME;
    assert forall d :: d in s.tables ==> s.tables[d] >= FIRST_TABLE - FIRST_FRAME;
    assert forall v :: v in s.pages ==> Dir(v) == 0x300;
  }

  /** All kernel tables exist from the start, so kernel allocations never make one. */
  ghost predicate KernelTables(s: State)
  {
    forall d :: 0x300 <= d < 0x3ff ==> d in s.tables
  }

  lemma {:induction false} NoKernelTables(dirs: set<nat>, vpn: nat, cnt: nat)
    requires (forall d :: 0x300 <= d < 0x3ff ==> d in dirs) && KERNEL_HALF <= vpn && vpn + cnt <= SELF_MAP
    ensures TablesNeeded(dirs, vpn, cnt) == 0
    decreases cnt
  {
    if cnt > 0 {
      assert dirs + {Dir(vpn)} == dirs;
      NoKernelTables(dirs, vpn + 1, cnt - 1);
    }
  }

  /** In the kernel an allocation succeeds exactly if there are addresses and as many free frames as pages. */
  lemma KernelMalloc(l: Layout, s: State, cnt: nat)
    requires Inv(l, s) && KernelTables(s)
    ensures Malloc(l, s, KERNEL, cnt).out.Mapped? <==> Found(s.kvbits, cnt) != -1 && cnt <= CountClear(s.kbits)
    ensures Malloc(l, s, KERNEL, cnt).out != Fault
  {
    hide FramesOk, BitsAgree, Found, PagesFrom, SetRange, Free, CountClear, TablesNeeded, Loses, TablesGrow;
    var idx := Found(s.kvbits, cnt);
    MallocFacts(l, s, KERNEL, cnt);
    if idx != -1 {
      FramesLayered(l, s);
      var vpn := l.kbase + idx;
      NoKernelTables(s.tables.Keys, vpn, cnt);
      ReservedFacts(l, s, KERNEL, cnt);
      NoKernelFault(l, WithVBits(s, KERNEL, idx, cnt, true), vpn, cnt);
    }
  }

  lemma KernelMallocTables(l: Layout, s: State, cnt: nat)
    requires Inv(l, s) && KernelTables(s)
    ensures Malloc(l, s, KERNEL, cnt).s.tables == s.tables
  {
    hide FramesOk, BitsAgree, Found, PagesFrom, SetRange, Free, CountClear, TablesNeeded, Loses, TablesGrow;
    var idx := Found(s.kvbits, cnt);
    if idx != -1 {
      FramesLayered(l, s);
      ReservedFacts(l, s, KERNEL, cnt);
      var t := WithVBits(s, KERNEL, idx, cnt, true);
      NoKernelFault(l, t, l.kbase + idx, cnt);
      PagesFromFacts(l, t, KERNEL, l.kbase + idx, cnt);
      var r := PagesFrom(l, t, KERNEL, l.kbase + idx, cnt);
      CanFreeBack(l, t, r.s, KERNEL, l.kbase + idx, cnt, r.k);
      FreeTables(l, r.s, KERNEL, l.kbase + idx, r.k);
    }
  }

  lemma FreeTables(l: Layout, s: State, flag: Owner, vpn: nat, cnt: nat)
    requires CanFree(l, s, flag, vpn, cnt)
    ensures Free(l, s, flag, vpn, cnt).tables == s.tables
  {
    FreeRunSizes(l, s, vpn, cnt);
  }

  lemma {:induction false} NoKernelFault(l: Layout, s: State, vpn: nat, cnt: nat)
    requires KernelTables(s) && KERNEL_HALF <= vpn && vpn + cnt <= SELF_MAP
    ensures var r := PagesFrom(l, s, KERNEL, vpn, cnt); r.out != Fault && r.s.tables == s.tables
    decreases cnt
  {
    if cnt > 0 && NextPage(l, s, KERNEL, vpn).out.Mapped? {
      NoKernelFault(l, NextPage(l, s, KERNEL, vpn).s, vpn + 1, cnt - 1);
    }
  }

  /** The address space ProcessCreateVaddrBitmap and ProcessCreatePage make from that of state `s`: an
      empty user pool and the kernel's quarter; the user frames and tables of `s` become foreign. */
  const USER_START: nat := 0x8048

  ghost function UserPart(m: map<nat, int>, bound: nat): set<int> { (map v | v in m && v < bound :: m[v]).Values }

  function KernelPart(m: map<nat, int>, bound: nat): map<nat, int> { map v | v in m && v >= bound :: m[v] }

  ghost function ProcessLayout(l: Layout, s: State): Layout
  {
    l.(ubase := USER_START, foreign := l.foreign + UserPart(s.pages, KERNEL_HALF) + UserPart(s.tables, 0x300))
  }

  ghost function ProcessSpace(s: State): State
  {
    s.(uvbits := seq(8 * ((KERNEL_HALF - USER_START) / 8), i => false),
       pages := KernelPart(s.pages, KERNEL_HALF), tables := KernelPart(s.tables, 0x300),
       lost := set v | v in s.lost && v >= KERNEL_HALF)
  }

  lemma PartsCover(m: map<nat, int>, bound: nat)
    ensures m.Values == UserPart(m, bound) + KernelPart(m, bound).Values
    ensures Injective(m) ==> UserPart(m, bound) !! KernelPart(m, bound).Values && Injective(KernelPart(m, bound))
  {
    var low, high := map v | v in m && v < bound :: m[v], KernelPart(m, bound);
    forall f | f in m.Values ensures f in low.Values + high.Values {
      var v :| v in m && m[v] == f;
      if v < bound { assert low[v] == f; } else { assert high[v] == f; }
    }
  }

  /** It meets the invariant, as its maker does. */
  lemma ProcessSpaceKeeps(l: Layout, s: State)
    requires Inv(l, s)
    ensures Inv(ProcessLayout(l, s), ProcessSpace(s))
  {
    ProcessFrames(l, s);
    var l', t := ProcessLayout(l, s), ProcessSpace(s);
    hide FramesOk, UserPart;
    FramesLayered(l, s);
    assert forall v :: v >= KERNEL_HALF ==> (v in HeldPages(t) <==> v in HeldPages(s));
    assert forall v :: v in HeldPages(t) ==> v >= KERNEL_HALF;
  }

  lemma ProcessFrames(l: Layout, s: State)
    requires FramesOk(l, s)
    ensures FramesOk(ProcessLayout(l, s), ProcessSpace(s))
  {
    ProcessOwns(l, s);
    ProcessMapOk(l, s);
    hide MapOk, UserPart, Owned;
  }

  lemma ProcessOwns(l: Layout, s: State)
    ensures Owned(ProcessLayout(l, s), ProcessSpace(s)) == Owned(l, s)
  {
    PartsCover(s.pages, KERNEL_HALF);
    PartsCover(s.tables, 0x300);
    hide UserPart, KernelPart;
  }

  lemma ProcessMapOk(l: Layout, s: State)
    requires Layered(l, s) && MapOk(l, s)
    ensures MapOk(ProcessLayout(l, s), ProcessSpace(s))
  {
    PartsCover(s.pages, KERNEL_HALF);
    PartsCover(s.tables, 0x300);
    ProcessPools(l, s);
    hide UserPart, KernelPart, RightPool, Injective;
  }

  lemma ProcessPools(l: Layout, s: State)
    requires Layered(l, s) && MapOk(l, s)
    ensures var l', t := ProcessLayout(l, s), ProcessSpace(s);
            forall v :: v in t.pages ==> RightPool(l', t, v, t.pages[v]) && Dir(v) in t.tables
  {
    var l', t := ProcessLayout(l, s), ProcessSpace(s);
    forall v | v in t.pages ensures RightPool(l', t, v, t.pages[v]) && Dir(v) in t.tables {
      assert v in s.pages && RightPool(l, s, v, s.pages[v]);
    }
  }

  // ---------- The allocator ----------

  class PageAllocator {
    ghost const layout: Layout
    const ustart: nat
    const kbase: nat
    const ubase: nat
    var kbits: seq<bool>
    var ubits: seq<bool>
    var kvbits: seq<bool>
    var uvbits: seq<bool>
    var pages: map<nat, int>
    var tables: map<nat, int>
    ghost var lost: set<nat>

    ghost function Now(): State
      reads this
    {
      State(kbits, ubits, kvbits, uvbits, pages, tables, lost)
    }

    ghost predicate Here()
      reads this
    {
      layout.ustart == ustart && layout.kbase == kbase && layout.ubase == ubase
    }

    ghost predicate Valid()
      reads this
    {
      Here() && Inv(layout, Now())
    }

    /** mem_init, with what the loader left in the page directory. */
    constructor (total: nat)
      requires total >= USED && KernelPages(total) < 260872
      ensures Valid() && layout == BootLayout(total) && Now() == Booted(total) && KernelTables(Now())
    {
      var freePage := (total - USED) / PAGE;
      var kernelFree := freePage / 2;
      ustart, kbase, ubase := kernelFree, KERNEL_HALF + 0x100, 0;
      kbits := seq(8 * (kernelFree / 8), i => false);
      ubits := seq(8 * ((freePage - kernelFree) / 8), i => false);
      kvbits := seq(8 * (kernelFree / 8), i => false);
      uvbits := [];
      pages, tables, lost := LoaderPages(), LoaderTables(), {};
      layout := BootLayout(total);
      new;
      BootInv(total);
    }

    function Start(flag: Owner): nat { if flag == KERNEL then kbase else ubase }

    /** Takes `pageCnt` consecutive virtual pages; the number of the first, or -1. */
    method VaddrGet(flag: Owner, pageCnt: nat) returns (idx: int)
      modifies this`kvbits, this`uvbits
      ensures idx == Found(VBits(old(Now()), flag), pageCnt)
      ensures idx == -1 ==> Now() == old(Now())
      ensures idx != -1 ==> Now() == WithVBits(old(Now()), flag, idx, pageCnt, true)
    {
      idx := Found(if flag == KERNEL then kvbits else uvbits, pageCnt);
      if idx == -1 { return; }
      var k := 0;
      while k < pageCnt
        invariant 0 <= k <= pageCnt
        invariant kvbits == if flag == USER then old(kvbits) else SetRange(old(kvbits), idx, k, true)
        invariant uvbits == if flag == KERNEL then old(uvbits) else SetRange(old(uvbits), idx, k, true)
      {
        if flag == KERNEL { kvbits := kvbits[idx + k := true]; } else { uvbits := uvbits[idx + k := true]; }
        k := k + 1;
      }
    }

    /** Takes a frame of the owner's pool. */
    method Palloc(flag: Owner) returns (frame: int)
      requires Here()
      modifies this`kbits, this`ubits
      ensures var i := FirstFit(PBits(old(Now()), flag), 1);
              if i == -1 then frame == -1 && Now() == old(Now())
              else frame == Frame(layout, flag, i) && Now() == Take(old(Now()), flag, i)
    {
      var idx := FirstFit(if flag == KERNEL then kbits else ubits, 1);
      if idx == -1 { return -1; }
      if flag == KERNEL {
        kbits := kbits[idx := true];
        frame := idx;
      } else {
        ubits := ubits[idx := true];
        frame := ustart + idx;
      }
    }

    /** Gives the frame of physical address `phy` back to the pool it belongs to. */
    method Pfree(phy: nat)
      requires Here() && Layered(layout, Now())
      requires phy / PAGE < |kbits| || ustart <= phy / PAGE < ustart + |ubits|
      modifies this`kbits, this`ubits
      ensures kbits == if phy / PAGE < ustart then Cleared(old(kbits), phy / PAGE) else old(kbits)
      ensures ubits == if phy / PAGE < ustart then old(ubits) else Cleared(old(ubits), phy / PAGE - ustart)
    {
      if phy < ustart * PAGE {
        kbits := kbits[phy / PAGE := false];
      } else {
        ubits := ubits[(phy - ustart * PAGE) / PAGE := false];
      }
    }

    /** Clears the virtual bits of the `cnt` pages from the one `vaddr` points into. */
    method VaddrRemove(flag: Owner, vaddr: nat, cnt: nat)
      requires Start(flag) <= vaddr / PAGE
      requires vaddr / PAGE - Start(flag) + cnt <= |VBits(Now(), flag)|
      modifies this`kvbits, this`uvbits
      ensures Now() == WithVBits(old(Now()), flag, vaddr / PAGE - Start(flag), cnt, false)
    {
      var idx := (vaddr - Start(flag) * PAGE) / PAGE;
      var k := 0;
      while k < cnt
        invariant 0 <= k <= cnt
        invariant kvbits == if flag == USER then old(kvbits) else SetRange(old(kvbits), idx, k, false)
        invariant uvbits == if flag == KERNEL then old(uvbits) else SetRange(old(uvbits), idx, k, false)
      {
        if flag == KERNEL { kvbits := kvbits[idx + k := false]; } else { uvbits := uvbits[idx + k := false]; }
        k := k + 1;
      }
    }

    function MapVaddrToPhyaddr(vaddr: nat): (phy: int)
      requires vaddr / PAGE in pages
      reads this
      ensures phy / PAGE == pages[vaddr / PAGE] && phy % PAGE == vaddr % PAGE
    {
      pages[vaddr / PAGE] * PAGE + vaddr % PAGE
    }

    /** Frees `cnt` pages from `vaddr`, which may point into its page, as the pointer of a large
        block does (12 bytes past the start). */
    method FreePage(flag: Owner, vaddr: nat, cnt: nat)
      requires Here() && FramesOk(layout, Now()) && CanFree(layout, Now(), flag, vaddr / PAGE, cnt)
      modifies this`kbits, this`ubits, this`kvbits, this`uvbits, this`pages
      ensures Now() == Free(layout, old(Now()), flag, vaddr / PAGE, cnt)
      ensures old(Valid()) ==> Valid()
    {
      hide FramesOk, Inv, Layered, FreeRun, FreeOne, CanFree, SetRange;
      var v, k := vaddr, 0;
      ghost var first, start := vaddr / PAGE, Now();
      CanFreeMeans(layout, start, flag, first, cnt);
      while k < cnt
        invariant 0 <= k <= cnt && v == vaddr + k * PAGE
        invariant FramesOk(layout, Now()) && CanFree(layout, Now(), flag, first + k, cnt - k)
        invariant FreeRunIs(layout, Now(), first + k, cnt - k, FreeRun(layout, start, first, cnt))
        invariant kvbits == old(kvbits) && uvbits == old(uvbits)
      {
        PageStep(vaddr, k);
        ghost var before := Now();
        FreeStep(layout, before, flag, first + k, cnt - k, FreeRun(layout, start, first, cnt));
        var phy := MapVaddrToPhyaddr(v);
        Pfree(phy);
        pages := pages - {v / PAGE};
        OneFreed(layout, before, Now(), first + k);
        v := v + PAGE;
        k := k + 1;
      }
      FreeRunDone(layout, Now(), first + cnt, FreeRun(layout, start, first, cnt));
      VaddrRemove(flag, vaddr, cnt);
      if old(Valid()) { FreeKeeps(layout, start, flag, first, cnt); }
    }

    /** Maps page `vpn` to `frame`, making a page table first if there is none. If there is no frame
        for the table the page silently stays unmapped. */
    method AddToPageTable(frame: int, vpn: nat)
      modifies this`kbits, this`pages, this`tables
      ensures Now() == Entered(old(Now()), frame, vpn)
    {
      if Dir(vpn) in tables {
        pages := pages[vpn := frame];
      } else {
        var idx := FirstFit(kbits, 1);
        if idx != -1 {
          kbits := kbits[idx := true];
          tables := tables[Dir(vpn) := idx];
          pages := pages[vpn := frame];
        }
      }
    }

    /** One round of malloc_page: a data frame for page `vpn`, its table entry, and the clearing of
        the page, which faults when the page stayed unmapped. */
    method MapNext(flag: Owner, vpn: nat) returns (out: Outcome)
      requires Here() && vpn !in pages
      modifies this`kbits, this`ubits, this`pages, this`tables
      ensures var r := NextPage(layout, old(Now()), flag, vpn); Now() == r.s && out == r.out
    {
      var phyAddr := Palloc(flag);
      if phyAddr == -1 { return NoMemory; }
      AddToPageTable(phyAddr, vpn);
      if vpn !in pages { return Fault; }
      return Mapped(vpn);
    }

    /** The loop of malloc_page: maps the `pageCnt` pages from `ret` on; `k` is the number it mapped. */
    method MapAll(flag: Owner, ret: nat, pageCnt: nat) returns (k: nat, out: Outcome)
      requires Here() && FramesOk(layout, Now())
      requires Start(flag) <= ret && ret + pageCnt <= Start(flag) + |VBits(Now(), flag)|
      requires pages.Keys !! Range(ret, pageCnt)
      modifies this`kbits, this`ubits, this`pages, this`tables
      ensures var r := PagesFrom(layout, old(Now()), flag, ret, pageCnt); Now() == r.s && out == r.out && k == r.k
    {
      hide FramesOk, Drawn, NextPage, TablesGrow, CountClear;
      k := 0;
      ghost var all := PagesFrom(layout, Now(), flag, ret, pageCnt);
      while k < pageCnt
        invariant k <= pageCnt && FramesOk(layout, Now()) && |VBits(Now(), flag)| == |VBits(old(Now()), flag)|
        invariant pages.Keys !! Range(ret + k, pageCnt - k)
        invariant Remaining(all, PagesFrom(layout, Now(), flag, ret + k, pageCnt - k), ret, k)
      {
        ghost var before := Now();
        assert InRange(ret + k, ret + k, pageCnt - k) && ret + k in Range(ret + k, pageCnt - k);
        NextPageFacts(layout, before, flag, ret + k);
        out := MapNext(flag, ret + k);
        if !out.Mapped? { return; }
        RestUnmapped(before, Now(), ret + k, pageCnt - k);
        k := k + 1;
      }
      out := Mapped(ret);
    }

    method MallocPage(flag: Owner, pageCnt: nat) returns (out: Outcome)
      requires Valid()
      modifies this`kbits, this`ubits, this`kvbits, this`uvbits, this`pages, this`tables, this`lost
      ensures Now() == Malloc(layout, old(Now()), flag, pageCnt).s
      ensures out == Malloc(layout, old(Now()), flag, pageCnt).out
      ensures out != Fault ==> Valid()
    {
      hide FramesOk, Inv, Allocates, Enough, Frees, TablesGrow, Found;
      hide SetRange, BitsAgree, PagesFrom, Free, CanFree, HeldPages, Loses;
      ghost var start := Now();
      MallocFacts(layout, start, flag, pageCnt);
      var idx := VaddrGet(flag, pageCnt);
      if idx == -1 { return NoMemory; }
      var ret := Start(flag) + idx;
      ReservedFacts(layout, start, flag, pageCnt);
      ghost var reserved := Now();
      PagesFromFacts(layout, reserved, flag, ret, pageCnt);
      var k;
      k, out := MapAll(flag, ret, pageCnt);
      if out == NoMemory {
        if k == 0 && Dir(ret) !in tables { return Fault; }
        CanFreeBack(layout, reserved, Now(), flag, ret, pageCnt, k);
        assert ret * PAGE / PAGE == ret;
        FreePage(flag, ret * PAGE, k);
        lost := start.lost + Range(ret + k, pageCnt - k);
      }
    }
  }

  /** What is left of a loop that has done `k` rounds. */
  ghost predicate Remaining(all: Loop, rest: Loop, ret: nat, k: nat)
  {
    all.s == rest.s && all.k == rest.k + k && all.out == (if rest.out.Mapped? then Mapped(ret) else rest.out)
  }

  lemma CanFreeMeans(l: Layout, s: State, flag: Owner, vpn: nat, cnt: nat)
    requires CanFree(l, s, flag, vpn, cnt)
    ensures Base(l, flag) <= vpn && vpn + cnt <= Base(l, flag) + |VBits(s, flag)|
    ensures forall u :: vpn <= u < vpn + cnt ==> u in s.pages
    ensures FreeRunIs(l, s, vpn, cnt, FreeRun(l, s, vpn, cnt))
  {}

  /** Freeing the rest of the range ends in state `t`. */
  ghost predicate FreeRunIs(l: Layout, s: State, vpn: nat, cnt: nat, t: State)
  {
    (forall u :: vpn <= u < vpn + cnt ==> u in s.pages) && FreeRun(l, s, vpn, cnt) == t
  }

  lemma FreeRunDone(l: Layout, s: State, vpn: nat, t: State)
    requires FreeRunIs(l, s, vpn, 0, t)
    ensures s == t
  {}

  lemma FreeStep(l: Layout, s: State, flag: Owner, vpn: nat, cnt: nat, t: State)
    requires FramesOk(l, s) && CanFree(l, s, flag, vpn, cnt) && cnt > 0 && FreeRunIs(l, s, vpn, cnt, t)
    ensures vpn in s.pages && Layered(l, s)
    ensures 0 <= s.pages[vpn] < |s.kbits| || l.ustart <= s.pages[vpn] < l.ustart + |s.ubits|
    ensures var b := FreeOne(l, s, vpn);
            FramesOk(l, b) && CanFree(l, b, flag, vpn + 1, cnt - 1) && FreeRunIs(l, b, vpn + 1, cnt - 1, t)
  {
    hide MapOk, Marks;
    FrameInPool(l, s, vpn);
    FreeOneKeeps(l, s, vpn);
  }

  lemma OneFreed(l: Layout, s: State, t: State, vpn: nat)
    requires vpn in s.pages && t.pages == s.pages - {vpn}
    requires t == s.(kbits := t.kbits, ubits := t.ubits, pages := t.pages)
    requires t.kbits == if s.pages[vpn] < l.ustart then Cleared(s.kbits, s.pages[vpn]) else s.kbits
    requires t.ubits == if s.pages[vpn] < l.ustart then s.ubits else Cleared(s.ubits, s.pages[vpn] - l.ustart)
    ensures t == FreeOne(l, s, vpn)
  {}
}
