/** Page tables edited through the self-mapped directory (kernel/memory.c, userprog/process.c).

    Physical memory is a store of 32-bit words, a frame holding 1024 of them. The only way the code
    below reaches a page table is `Load` and `Store` at a virtual address, and both go through
    `Walk`, the two-level translation of section 4.3 of the Intel SDM, Volume 3A, for 4 KB pages. */
module Paging {
  import opened Basics

  type Word = bv32
  type Frame = bv20
  type Index = bv10
  type Memory = (Frame, Index) -> Word

  // ---------- What the hardware does ----------

  const LAST: Index := 0x3ff

  function Dir(v: Word): Index { (v >> 22) as Index }

  function Tab(v: Word): Index { ((v >> 12) & 0x3ff) as Index }

  function Slot(v: Word): Index { ((v >> 2) & 0x3ff) as Index }

  predicate Present(entry: Word) { entry & 1 == 1 }

  function FrameOf(entry: Word): Frame { (entry >> 12) as Frame }

  /** The frame a page translates to; a page is named by its directory and its table index. */
  function WalkAt(mem: Memory, cr3: Frame, d: Index, t: Index): Option<Frame>
  {
    var pde := mem(cr3, d);
    if !Present(pde) then None
    else
      var pte := mem(FrameOf(pde), t);
      if !Present(pte) then None else Some(FrameOf(pte))
  }

  function Walk(mem: Memory, cr3: Frame, v: Word): Option<Frame>
  {
    WalkAt(mem, cr3, Dir(v), Tab(v))
  }

  function Put(mem: Memory, f: Frame, i: Index, w: Word): Memory
  {
    (g: Frame, j: Index) => if g == f && j == i then w else mem(g, j)
  }

  function ZeroFrame(mem: Memory, f: Frame): Memory
  {
    (g: Frame, j: Index) => if g == f then 0 else mem(g, j)
  }

  // ---------- The address expressions of the kernel ----------

  function PDE(addr: Word): Word { (0xffc00000 & addr) >> 22 }

  function PTE(addr: Word): Word { (0x003ff000 & addr) >> 12 }

  function PTE_Addr(addr: Word): Word { 0xffc00000 | ((addr & 0xffc00000) >> 10) | (PTE(addr) << 2) }

  function PDE_Addr(addr: Word): Word { 0xfffff000 | (PDE(addr) << 2) }

  /** The directory maps itself in its last entry. */
  ghost predicate SelfMapped(mem: Memory, cr3: Frame)
  {
    Present(mem(cr3, LAST)) && FrameOf(mem(cr3, LAST)) == cr3
  }

  /** The directory maps itself in its last entry, and no other entry takes it for a page table. */
  ghost predicate Rooted(mem: Memory, cr3: Frame)
  {
    SelfMapped(mem, cr3) && forall e: Index :: e != LAST && Present(mem(cr3, e)) ==> FrameOf(mem(cr3, e)) != cr3
  }

  /** Directory entry `e` holds the page table `f`. */
  predicate Holds(mem: Memory, cr3: Frame, e: Index, f: Frame)
  {
    Present(mem(cr3, e)) && FrameOf(mem(cr3, e)) == f
  }

  /** The page table of entry `d` is in no other entry. */
  ghost predicate InstalledOnce(mem: Memory, cr3: Frame, d: Index)
  {
    forall e: Index :: e != d ==> !Holds(mem, cr3, e, FrameOf(mem(cr3, d)))
  }

  ghost predicate IsTable(mem: Memory, cr3: Frame, f: Frame)
  {
    exists e: Index :: Holds(mem, cr3, e, f)
  }

  // ---------- The recursive entry ----------

  lemma PteAddrFields(v: Word)
    ensures Dir(PTE_Addr(v)) == LAST && Tab(PTE_Addr(v)) == Dir(v) && Slot(PTE_Addr(v)) == Tab(v)
  {}

  lemma PdeAddrFields(v: Word)
    ensures Dir(PDE_Addr(v)) == LAST && Tab(PDE_Addr(v)) == LAST && Slot(PDE_Addr(v)) == Dir(v)
  {}

  lemma TablePageFields(v: Word)
    ensures Dir(PTE_Addr(v) & 0xfffff000) == LAST && Tab(PTE_Addr(v) & 0xfffff000) == Dir(v)
  {}

  /** The walk of PTE_Addr(v) ends in the frame and word of v's page-table entry, and the walk of
      PDE_Addr(v) in v's directory entry, for every v. */
  lemma PteAddrReachesEntry(mem: Memory, cr3: Frame, v: Word)
    requires SelfMapped(mem, cr3)
    ensures Walk(mem, cr3, PDE_Addr(v)) == Some(cr3) && Slot(PDE_Addr(v)) == Dir(v)
    ensures Present(mem(cr3, Dir(v))) ==>
              Walk(mem, cr3, PTE_Addr(v)) == Some(FrameOf(mem(cr3, Dir(v)))) && Slot(PTE_Addr(v)) == Tab(v)
    ensures !Present(mem(cr3, Dir(v))) ==> Walk(mem, cr3, PTE_Addr(v)) == None
  {
    PteAddrFields(v);
    PdeAddrFields(v);
  }

  // ---------- The edits, written on the tables directly ----------

  function TableEntry(f: Frame): Word { ((f as Word) << 12) | 7 }

  function Mapped(mem: Memory, cr3: Frame, d: Index, t: Index, entry: Word, spare: Option<Frame>): Memory
  {
    var pde := mem(cr3, d);
    if Present(pde) then Put(mem, FrameOf(pde), t, entry)
    else match spare
         case None => mem
         case Some(f) => Put(ZeroFrame(Put(mem, cr3, d, TableEntry(f)), f), f, t, entry)
  }

  function Cleared(entry: Word): Word { entry & !1 }

  function Unmapped(mem: Memory, cr3: Frame, d: Index, t: Index): Memory
  {
    var table := FrameOf(mem(cr3, d));
    Put(mem, table, t, Cleared(mem(table, t)))
  }

  lemma TableEntryFields(f: Frame)
    ensures Present(TableEntry(f)) && FrameOf(TableEntry(f)) == f
  {}

  class Mmu {
    var mem: Memory
    var cr3: Frame

    function Load(v: Word): Word
      requires Walk(mem, cr3, v).Some?
      reads this
    {
      mem(Walk(mem, cr3, v).value, Slot(v))
    }

    method Store(v: Word, w: Word)
      requires Walk(mem, cr3, v).Some?
      modifies this`mem
      ensures mem == Put(old(mem), Walk(old(mem), cr3, v).value, Slot(v), w)
    {
      mem := Put(mem, Walk(mem, cr3, v).value, Slot(v), w);
    }

    /** memset(v, 0, PAGE_SIZE) for a page-aligned v. */
    method ClearPage(v: Word)
      requires Walk(mem, cr3, v).Some?
      modifies this`mem
      ensures mem == ZeroFrame(old(mem), Walk(old(mem), cr3, v).value)
    {
      mem := ZeroFrame(mem, Walk(mem, cr3, v).value);
    }

    /** `spare` is what palloc(&kernel_pool) hands out, None when the pool is exhausted (then the
        code leaves v unmapped without telling its caller). Only virtual addresses are written. */
    method AddToPageTable(phyAddr: Word, vAddr: Word, spare: Option<Frame>)
      requires SelfMapped(mem, cr3) && Dir(vAddr) != LAST
      requires Present(mem(cr3, Dir(vAddr))) ==> FrameOf(mem(cr3, Dir(vAddr))) != cr3
      requires Walk(mem, cr3, vAddr) == None
      requires spare.Some? ==> spare.value != cr3
      modifies this`mem
      ensures mem == Mapped(old(mem), cr3, Dir(vAddr), Tab(vAddr), phyAddr | 7, spare)
    {
      hide Dir, Tab, Slot, PTE_Addr, PDE_Addr, FrameOf, Present;
      var pde, pte := PDE_Addr(vAddr), PTE_Addr(vAddr);
      PteAddrReachesEntry(mem, cr3, vAddr);
      if Present(Load(pde)) {
        Store(pte, phyAddr | 7);
      } else if spare.Some? {
        var pageAddr := (spare.value as Word) << 12;
        TableEntryFields(spare.value);
        Store(pde, pageAddr | 7);
        assert mem(cr3, LAST) == old(mem)(cr3, LAST);
        assert mem(cr3, Dir(vAddr)) == TableEntry(spare.value);
        TablePageFields(vAddr);
        ClearPage(pte & 0xfffff000);
        assert mem(cr3, LAST) == old(mem)(cr3, LAST);
        assert mem(cr3, Dir(vAddr)) == TableEntry(spare.value);
        PteAddrReachesEntry(mem, cr3, vAddr);
        Store(pte, phyAddr | 7);
      }
    }

    method RemovePte(vaddr: Word)
      requires SelfMapped(mem, cr3) && Present(mem(cr3, Dir(vaddr)))
      modifies this`mem
      ensures mem == Unmapped(old(mem), cr3, Dir(vaddr), Tab(vaddr))
    {
      PteAddrReachesEntry(mem, cr3, vaddr);
      var pte := PTE_Addr(vaddr);
      Store(pte, Cleared(Load(pte)));
    }

    function MapVaddrToPhyaddr(vaddr: Word): (phy: Word)
      requires SelfMapped(mem, cr3) && Present(mem(cr3, Dir(vaddr)))
      reads this
      ensures Walk(mem, cr3, vaddr).Some? ==>
                FrameOf(phy) == Walk(mem, cr3, vaddr).value && phy & 0xfff == vaddr & 0xfff
    {
      PteAddrReachesEntry(mem, cr3, vaddr);
      PhyFields(Load(PTE_Addr(vaddr)), vaddr);
      (Load(PTE_Addr(vaddr)) & 0xfffff000) + (vaddr & 0xfff)
    }
  }

  lemma PhyFields(entry: Word, v: Word)
    ensures FrameOf((entry & 0xfffff000) + (v & 0xfff)) == FrameOf(entry)
    ensures ((entry & 0xfffff000) + (v & 0xfff)) & 0xfff == v & 0xfff
  {}

  // ---------- What the edits mean for the translation ----------

  /** The pages whose translation depends on the table entry that serves page (d, t). */
  predicate Shares(mem: Memory, cr3: Frame, d: Index, t: Index, e: Index, u: Index)
  {
    u == t && Present(mem(cr3, d)) && Holds(mem, cr3, e, FrameOf(mem(cr3, d)))
  }

  /** Writing entry t of the page table that serves directory index d. */
  lemma TableWrite(mem: Memory, cr3: Frame, d: Index, t: Index, entry: Word)
    requires Rooted(mem, cr3) && d != LAST && Present(mem(cr3, d))
    ensures var m := Put(mem, FrameOf(mem(cr3, d)), t, entry);
            Rooted(m, cr3) &&
            (forall e: Index :: m(cr3, e) == mem(cr3, e)) &&
            forall e: Index, u: Index ::
              WalkAt(m, cr3, e, u) ==
                if Shares(mem, cr3, d, t, e, u) then (if Present(entry) then Some(FrameOf(entry)) else None)
                else WalkAt(mem, cr3, e, u)
  {}

  /** Installing the zeroed frame f as the page table of directory index d. */
  lemma NewTable(mem: Memory, cr3: Frame, d: Index, f: Frame)
    requires Rooted(mem, cr3) && d != LAST && !Present(mem(cr3, d)) && !IsTable(mem, cr3, f)
    ensures var m := ZeroFrame(Put(mem, cr3, d, TableEntry(f)), f);
            Rooted(m, cr3) && f != cr3 && Holds(m, cr3, d, f) && InstalledOnce(m, cr3, d) &&
            forall e: Index, u: Index ::
              WalkAt(m, cr3, e, u) == if (e, u) == (LAST, d) then Some(f) else WalkAt(mem, cr3, e, u)
  {
    hide FrameOf, Present;
    TableEntryFields(f);
    assert Holds(mem, cr3, LAST, cr3);
    assert f != cr3;
    var m := ZeroFrame(Put(mem, cr3, d, TableEntry(f)), f);
    assert forall e: Index :: m(cr3, e) == if e == d then TableEntry(f) else mem(cr3, e);
    forall e: Index | e != d ensures !Holds(m, cr3, e, f) {
      assert !Holds(mem, cr3, e, f);
    }
    forall e: Index, u: Index
      ensures WalkAt(m, cr3, e, u) == if (e, u) == (LAST, d) then Some(f) else WalkAt(mem, cr3, e, u)
    {
      assert e != d ==> !Holds(mem, cr3, e, f);
      if e == d { ZeroIsAbsent(); }
    }
  }

  lemma ZeroIsAbsent()
    ensures !Present(0)
  {}

  /** What AddToPageTable changes, exactly: its page, and every page that shares its table entry,
      translates to the frame of `entry`; if a table had to be installed it appears in the self-map;
      every other translation is as before. Memory outside the tables keeps its contents. */
  lemma MappingChanges(mem: Memory, cr3: Frame, d: Index, t: Index, entry: Word, spare: Option<Frame>)
    requires Rooted(mem, cr3) && d != LAST && Present(entry)
    requires spare.Some? ==> !IsTable(mem, cr3, spare.value)
    ensures var m := Mapped(mem, cr3, d, t, entry, spare);
            Rooted(m, cr3) &&
            (forall e: Index, u: Index ::
               WalkAt(m, cr3, e, u) ==
                 if Shares(m, cr3, d, t, e, u) then Some(FrameOf(entry))
                 else if !Present(mem(cr3, d)) && (e, u) == (LAST, d) then spare
                 else WalkAt(mem, cr3, e, u)) &&
            (Present(m(cr3, d)) <==> Present(mem(cr3, d)) || spare.Some?) &&
            (forall e: Index, f: Frame :: Holds(m, cr3, e, f) <==>
               Holds(mem, cr3, e, f) || (e == d && !Present(mem(cr3, d)) && spare == Some(f))) &&
            (forall f: Frame, i: Index :: !IsTable(mem, cr3, f) && spare != Some(f) ==> m(f, i) == mem(f, i))
  {
    hide FrameOf, Present, Rooted;
    RootIsTable(mem, cr3);
    if Present(mem(cr3, d)) {
      TableWrite(mem, cr3, d, t, entry);
      assert Holds(mem, cr3, d, FrameOf(mem(cr3, d)));
    } else if spare.Some? {
      NewTable(mem, cr3, d, spare.value);
      TableWrite(ZeroFrame(Put(mem, cr3, d, TableEntry(spare.value)), spare.value), cr3, d, t, entry);
    } else {
      NoTableInSelfMap(mem, cr3, d);
    }
  }

  lemma NoTableInSelfMap(mem: Memory, cr3: Frame, d: Index)
    requires Rooted(mem, cr3) && !Present(mem(cr3, d))
    ensures WalkAt(mem, cr3, LAST, d) == None
  {}

  lemma RootIsTable(mem: Memory, cr3: Frame)
    requires Rooted(mem, cr3)
    ensures IsTable(mem, cr3, cr3)
  {
    assert Holds(mem, cr3, LAST, cr3);
  }

  /** So no translation that was present changes: nothing is unmapped or redirected. */
  lemma MappingKeepsPresent(mem: Memory, cr3: Frame, d: Index, t: Index, entry: Word, spare: Option<Frame>)
    requires Rooted(mem, cr3) && d != LAST && Present(entry) && WalkAt(mem, cr3, d, t) == None
    requires spare.Some? ==> !IsTable(mem, cr3, spare.value)
    ensures var m := Mapped(mem, cr3, d, t, entry, spare);
            forall e: Index, u: Index :: WalkAt(mem, cr3, e, u).Some? ==> WalkAt(m, cr3, e, u) == WalkAt(mem, cr3, e, u)
  {
    hide FrameOf, Present;
    MappingChanges(mem, cr3, d, t, entry, spare);
  }

  /** And no page but its own, outside the self-map, is affected at all exactly if the table of its
      directory entry is installed only there. */
  lemma MappingIsLocal(mem: Memory, cr3: Frame, d: Index, t: Index, entry: Word, spare: Option<Frame>)
    requires Rooted(mem, cr3) && d != LAST && Present(entry) && WalkAt(mem, cr3, d, t) == None
    requires spare.Some? ==> !IsTable(mem, cr3, spare.value)
    ensures var m := Mapped(mem, cr3, d, t, entry, spare);
            (Present(mem(cr3, d)) || spare.Some? ==> WalkAt(m, cr3, d, t) == Some(FrameOf(entry))) &&
            ((forall e: Index, u: Index :: e != LAST && (e, u) != (d, t) ==>
                WalkAt(m, cr3, e, u) == WalkAt(mem, cr3, e, u))
             <==> !Present(mem(cr3, d)) || InstalledOnce(mem, cr3, d))
  {
    hide FrameOf, Present;
    var m := Mapped(mem, cr3, d, t, entry, spare);
    MappingChanges(mem, cr3, d, t, entry, spare);
    if e: Index :| Present(mem(cr3, d)) && e != d && Holds(mem, cr3, e, FrameOf(mem(cr3, d))) {
      assert Shares(m, cr3, d, t, e, t);
      assert WalkAt(mem, cr3, e, t) == None;
    }
  }

  /** Clearing a present bit takes away the translations of the pages that share the entry, and no others. */
  lemma UnmappingChanges(mem: Memory, cr3: Frame, d: Index, t: Index)
    requires Rooted(mem, cr3) && d != LAST && Present(mem(cr3, d))
    ensures var m := Unmapped(mem, cr3, d, t);
            Rooted(m, cr3) && WalkAt(m, cr3, d, t) == None &&
            forall e: Index, u: Index ::
              WalkAt(m, cr3, e, u) == if Shares(mem, cr3, d, t, e, u) then None else WalkAt(mem, cr3, e, u)
  {
    OwnPageShares(mem, cr3, d, t);
    hide FrameOf, Present, Put, WalkAt, Rooted, Shares, Holds, Cleared;
    var entry := mem(FrameOf(mem(cr3, d)), t);
    ClearedEntry(entry);
    TableWrite(mem, cr3, d, t, Cleared(entry));
  }

  /** That is just the one page exactly if the table is installed once. */
  lemma UnmappingIsLocal(mem: Memory, cr3: Frame, d: Index, t: Index)
    requires Rooted(mem, cr3) && d != LAST && WalkAt(mem, cr3, d, t).Some?
    ensures var m := Unmapped(mem, cr3, d, t);
            WalkAt(m, cr3, d, t) == None &&
            ((forall e: Index, u: Index :: (e, u) != (d, t) ==> WalkAt(m, cr3, e, u) == WalkAt(mem, cr3, e, u))
             <==> InstalledOnce(mem, cr3, d))
  {
    hide FrameOf, Present, Unmapped, Rooted;
    var m := Unmapped(mem, cr3, d, t);
    UnmappingChanges(mem, cr3, d, t);
    if e: Index :| e != d && Holds(mem, cr3, e, FrameOf(mem(cr3, d))) {
      assert Shares(mem, cr3, d, t, e, t);
      assert WalkAt(mem, cr3, e, t).Some?;
    }
  }

  lemma OwnPageShares(mem: Memory, cr3: Frame, d: Index, t: Index)
    requires Present(mem(cr3, d))
    ensures Shares(mem, cr3, d, t, d, t)
  {}

  lemma ClearedEntry(entry: Word)
    ensures !Present(Cleared(entry))
  {}

  /** Mapping a page and removing it again leaves every translation outside the self-map as it was,
      shared tables or not. */
  lemma MapThenUnmap(mem: Memory, cr3: Frame, d: Index, t: Index, entry: Word, spare: Option<Frame>)
    requires Rooted(mem, cr3) && d != LAST && Present(entry) && WalkAt(mem, cr3, d, t) == None
    requires spare.Some? ==> !IsTable(mem, cr3, spare.value)
    requires Present(mem(cr3, d)) || spare.Some?
    ensures var m := Unmapped(Mapped(mem, cr3, d, t, entry, spare), cr3, d, t);
            forall e: Index, u: Index :: e != LAST ==> WalkAt(m, cr3, e, u) == WalkAt(mem, cr3, e, u)
  {
    hide FrameOf, Present, Mapped, Unmapped, Rooted;
    var m := Mapped(mem, cr3, d, t, entry, spare);
    MappingChanges(mem, cr3, d, t, entry, spare);
    UnmappingChanges(m, cr3, d, t);
    forall e: Index, u: Index | e != LAST && Shares(m, cr3, d, t, e, u) ensures WalkAt(mem, cr3, e, u) == None {
      assert Holds(m, cr3, e, FrameOf(m(cr3, d)));
    }
  }

  // ---------- The directories that exist ----------

  const KERNEL_CR3: Frame := 0x100

  /** What setup_page leaves in the directory: one table in entries 0 and 0x300, tables of their own in
      0x301..0x3fe, the directory itself in the last. */
  function LoaderEntry(e: Index): Word
  {
    if e == 0 || e == 0x300 then 0x101007
    else if e == LAST then 0x100007
    else if e > 0x300 then 0x101007 + (((e - 0x300) as Word) << 12)
    else 0
  }

  ghost predicate LoaderDirectory(mem: Memory)
  {
    forall e: Index :: mem(KERNEL_CR3, e) == LoaderEntry(e)
  }

  /** The directory ProcessCreatePage makes: the kernel's upper quarter, and itself in the last entry. */
  ghost predicate ProcessDirectory(mem: Memory, cr3: Frame)
  {
    forall e: Index :: mem(cr3, e) == if e < 0x300 then 0 else if e == LAST then TableEntry(cr3) else LoaderEntry(e)
  }

  lemma LoaderFrames(e: Index)
    ensures Present(LoaderEntry(e)) <==> e == 0 || e >= 0x300
    ensures e == 0 ==> FrameOf(LoaderEntry(e)) == 0x101
    ensures e == LAST ==> FrameOf(LoaderEntry(e)) == KERNEL_CR3
    ensures 0x300 <= e < LAST ==> FrameOf(LoaderEntry(e)) == 0x101 + ((e - 0x300) as Frame)
  {}

  lemma TablesDiffer(e: Index, f: Index)
    requires 0x300 <= e < f < LAST
    ensures 0x101 + ((e - 0x300) as Frame) != 0x101 + ((f - 0x300) as Frame)
    ensures 0x101 + ((e - 0x300) as Frame) != 0x100 && 0x101 + ((f - 0x300) as Frame) > 0x101
  {}

  lemma LoaderTables(mem: Memory)
    requires LoaderDirectory(mem)
    ensures Rooted(mem, KERNEL_CR3)
    ensures forall d: Index :: 0x300 <= d < LAST ==>
              Present(mem(KERNEL_CR3, d)) && (InstalledOnce(mem, KERNEL_CR3, d) <==> d != 0x300)
    ensures Holds(mem, KERNEL_CR3, 0, FrameOf(mem(KERNEL_CR3, 0x300)))
  {
    forall e: Index ensures mem(KERNEL_CR3, e) == LoaderEntry(e) { LoaderFrames(e); }
    hide FrameOf, Present, LoaderEntry;
    forall e: Index ensures e != LAST && Present(mem(KERNEL_CR3, e)) ==> FrameOf(mem(KERNEL_CR3, e)) != KERNEL_CR3 {
      LoaderFrames(e);
      if 0x300 < e < LAST { TablesDiffer(0x300, e); }
    }
    LoaderFrames(LAST);
    LoaderFrames(0);
    LoaderFrames(0x300);
    forall d: Index | 0x300 <= d < LAST
      ensures Present(mem(KERNEL_CR3, d)) && (InstalledOnce(mem, KERNEL_CR3, d) <==> d != 0x300)
    {
      LoaderFrames(d);
      if d != 0x300 {
        forall e: Index | e != d ensures !Holds(mem, KERNEL_CR3, e, FrameOf(mem(KERNEL_CR3, d))) {
          LoaderFrames(e);
          TablesDiffer(0x300, d);
          if 0x300 <= e < LAST { if e < d { TablesDiffer(e, d); } else { TablesDiffer(d, e); } }
        }
      }
    }
  }

  /** In the kernel threads' directory the first pages malloc_page hands out, those under entry 0x300,
      appear a second time below 4 MB, and go there too when they are freed. */
  lemma KernelPagesAppearTwice(mem: Memory, t: Index, entry: Word)
    requires LoaderDirectory(mem) && Present(entry) && WalkAt(mem, KERNEL_CR3, 0x300, t) == None
    ensures var m := Mapped(mem, KERNEL_CR3, 0x300, t, entry, None);
            WalkAt(mem, KERNEL_CR3, 0, t) == None && WalkAt(m, KERNEL_CR3, 0, t) == Some(FrameOf(entry)) &&
            WalkAt(Unmapped(m, KERNEL_CR3, 0x300, t), KERNEL_CR3, 0, t) == None
  {
    hide FrameOf, Present, LoaderEntry;
    LoaderTables(mem);
    var m := Mapped(mem, KERNEL_CR3, 0x300, t, entry, None);
    MappingChanges(mem, KERNEL_CR3, 0x300, t, entry, None);
    assert Shares(m, KERNEL_CR3, 0x300, t, 0, t);
    assert Shares(m, KERNEL_CR3, 0x300, t, 0x300, t);
    UnmappingChanges(m, KERNEL_CR3, 0x300, t);
  }

  /** In a process's directory every kernel table is installed once. */
  lemma ProcessTables(mem: Memory, cr3: Frame)
    requires ProcessDirectory(mem, cr3) && !(0x100 <= cr3 < 0x200)
    ensures Rooted(mem, cr3)
    ensures forall d: Index :: 0x300 <= d < LAST ==> Present(mem(cr3, d)) && InstalledOnce(mem, cr3, d)
  {
    TableEntryFields(cr3);
    ZeroIsAbsent();
    hide FrameOf, Present, LoaderEntry;
    forall e: Index ensures e != LAST && Present(mem(cr3, e)) ==> FrameOf(mem(cr3, e)) != cr3 {
      if 0x300 <= e < LAST { TableRange(e); LoaderFrames(e); }
    }
    forall d: Index | 0x300 <= d < LAST ensures Present(mem(cr3, d)) && InstalledOnce(mem, cr3, d) {
      LoaderFrames(d);
      TableRange(d);
      forall e: Index | e != d ensures !Holds(mem, cr3, e, FrameOf(mem(cr3, d))) {
        LoaderFrames(e);
        if 0x300 <= e < LAST { if e < d { TablesDiffer(e, d); } else { TablesDiffer(d, e); } }
      }
    }
  }

  lemma TableRange(e: Index)
    requires 0x300 <= e < LAST
    ensures 0x101 <= 0x101 + ((e - 0x300) as Frame) < 0x200
  {}
}
