/** The page tables in memory (module Paging) and the page map of the allocator (module Pages): each
    edit that kernel/memory.c makes through the self-map is one change of the map. */
module PageTables {
  import opened Basics
  import opened Paging
  import B = Bitmap
  import P = Pages

  // ---------- Numbers ----------

  function Number(e: Index): nat { e as nat }

  function FrameNumber(f: Frame): nat { f as nat }

  /** The virtual page number of entry `t` of the table in directory entry `d`. */
  function Vpn(d: Index, t: Index): nat { 1024 * Number(d) + Number(t) }

  lemma NumberFits(e: Index)
    ensures Number(e) < 1024
  {}

  lemma SameNumber(e: Index, f: Index)
    requires Number(e) == Number(f)
    ensures e == f
  {}

  lemma FrameOfNumber(f: Frame)
    ensures FrameNumber(f) as Frame == f
  {}

  lemma SameFrameNumber(f: Frame, g: Frame)
    requires FrameNumber(f) == FrameNumber(g)
    ensures f == g
  {
    hide FrameNumber;
    FrameOfNumber(f);
    FrameOfNumber(g);
  }

  lemma VpnParts(d: Index, t: Index)
    ensures P.Dir(Vpn(d, t)) == Number(d)
    ensures forall e: Index, u: Index :: Vpn(e, u) == Vpn(d, t) ==> e == d && u == t
  {
    hide Number;
    NumberFits(t);
    forall e: Index, u: Index | Vpn(e, u) == Vpn(d, t) ensures e == d && u == t {
      NumberFits(u);
      if Number(e) == Number(d) && Number(u) == Number(t) {
        SameNumber(e, d);
        SameNumber(u, t);
      }
    }
  }

  // ---------- What the map shows ----------

  /** The directory entries that the map lists: all but the last and, with `twice`, the first, which
      then holds the table of entry 0x300 a second time. */
  predicate Listed(twice: bool, e: Index)
  {
    e != LAST && !(twice && e == 0)
  }

  ghost predicate TableShown(mem: Memory, cr3: Frame, first: nat, s: P.State, e: Index)
  {
    (Number(e) in s.tables <==> Present(mem(cr3, e))) &&
    (Number(e) in s.tables ==> s.tables[Number(e)] + first == FrameNumber(FrameOf(mem(cr3, e))))
  }

  ghost predicate PageShown(mem: Memory, cr3: Frame, first: nat, s: P.State, e: Index, u: Index)
  {
    match WalkAt(mem, cr3, e, u)
    case None => Vpn(e, u) !in s.pages
    case Some(f) => Vpn(e, u) in s.pages && s.pages[Vpn(e, u)] + first == FrameNumber(f)
  }

  /** The map is what the hardware finds in memory, with frames counted from `first`. */
  ghost predicate Shows(mem: Memory, cr3: Frame, first: nat, twice: bool, s: P.State)
  {
    Rooted(mem, cr3) &&
    (twice ==> Present(mem(cr3, 0x300)) && Holds(mem, cr3, 0, FrameOf(mem(cr3, 0x300)))) &&
    (forall e: Index :: Listed(twice, e) ==> TableShown(mem, cr3, first, s, e)) &&
    forall e: Index, u: Index :: Listed(twice, e) ==> PageShown(mem, cr3, first, s, e, u)
  }

  /** A frame that holds neither the directory nor a table. */
  lemma NotATable(mem: Memory, cr3: Frame, first: nat, twice: bool, s: P.State, f: Frame)
    requires Shows(mem, cr3, first, twice, s) && f != cr3 && FrameNumber(f) - first !in s.tables.Values
    ensures !IsTable(mem, cr3, f)
  {
    hide FrameOf, Present, FrameNumber, Number, WalkAt;
    assert twice ==> TableShown(mem, cr3, first, s, 0x300);
    forall e: Index ensures !Holds(mem, cr3, e, f) {
      assert Listed(twice, e) ==> TableShown(mem, cr3, first, s, e);
    }
  }

  /** Two directory entries that the map lists hold different tables. */
  lemma TablesApart(mem: Memory, cr3: Frame, first: nat, twice: bool, s: P.State, d: Index, e: Index)
    requires Shows(mem, cr3, first, twice, s) && P.Injective(s.tables) && Listed(twice, d) && Listed(twice, e)
    requires Present(mem(cr3, d)) && Holds(mem, cr3, e, FrameOf(mem(cr3, d)))
    ensures e == d
  {
    hide FrameOf, Present, FrameNumber, Number, WalkAt;
    assert TableShown(mem, cr3, first, s, d) && TableShown(mem, cr3, first, s, e);
    SameNumber(e, d);
  }

  // ---------- AddToPageTable ----------

  /** What palloc(&kernel_pool) hands out: the frame of the first clear bit. */
  ghost predicate IsSpare(first: nat, s: P.State, spare: Option<Frame>)
  {
    var g := B.FirstFit(s.kbits, 1);
    match spare
    case None => g == -1
    case Some(f) => g != -1 && FrameNumber(f) == g + first
  }

  /** The frame of the directory is taken. */
  ghost predicate RootTaken(l: P.Layout, s: P.State, first: nat, cr3: Frame)
  {
    FrameNumber(cr3) < first || FrameNumber(cr3) - first in P.Owned(l, s)
  }

  /** One translation changed, and the page of the map with it. */
  lemma PagesAfter(mem: Memory, m: Memory, cr3: Frame, first: nat, twice: bool, s: P.State, s1: P.State,
                   d: Index, t: Index, f: Option<Frame>)
    requires Shows(mem, cr3, first, twice, s)
    requires forall e: Index, u: Index :: Listed(twice, e) ==>
               WalkAt(m, cr3, e, u) == if e == d && u == t then f else WalkAt(mem, cr3, e, u)
    requires match f
             case None => s1.pages == s.pages - {Vpn(d, t)}
             case Some(x) => s1.pages == s.pages[Vpn(d, t) := FrameNumber(x) - first]
    ensures forall e: Index, u: Index :: Listed(twice, e) ==> PageShown(m, cr3, first, s1, e, u)
  {
    hide FrameNumber, Number, WalkAt, Rooted, TableShown, Holds, Vpn;
    VpnParts(d, t);
    forall e: Index, u: Index | Listed(twice, e) ensures PageShown(m, cr3, first, s1, e, u) {
      assert PageShown(mem, cr3, first, s, e, u);
    }
  }

  lemma WalksAfterMapping(mem: Memory, cr3: Frame, first: nat, twice: bool, s: P.State, d: Index, t: Index,
                          entry: Word, spare: Option<Frame>)
    requires Shows(mem, cr3, first, twice, s) && P.Injective(s.tables) && Listed(twice, d) && Present(entry)
    requires WalkAt(mem, cr3, d, t) == None
    requires spare.Some? ==> !IsTable(mem, cr3, spare.value)
    ensures var m := Mapped(mem, cr3, d, t, entry, spare);
            Rooted(m, cr3) &&
            (forall e: Index, f: Frame :: Holds(m, cr3, e, f) <==>
               Holds(mem, cr3, e, f) || (e == d && !Present(mem(cr3, d)) && spare == Some(f))) &&
            forall e: Index, u: Index :: Listed(twice, e) ==>
              WalkAt(m, cr3, e, u) ==
                if e == d && u == t then (if Present(mem(cr3, d)) || spare.Some? then Some(FrameOf(entry)) else None)
                else WalkAt(mem, cr3, e, u)
  {
    hide FrameOf, Present, Mapped, Rooted, WalkAt, TableShown, PageShown;
    MappingChanges(mem, cr3, d, t, entry, spare);
    var m := Mapped(mem, cr3, d, t, entry, spare);
    forall e: Index | Listed(twice, e) && Present(m(cr3, d)) && Holds(m, cr3, e, FrameOf(m(cr3, d))) ensures e == d {
      if Present(mem(cr3, d)) {
        assert Holds(m, cr3, d, FrameOf(mem(cr3, d)));
        TablesApart(mem, cr3, first, twice, s, d, e);
      }
    }
  }

  lemma PendingTables(l: P.Layout, s: P.State, vpn: nat, frame: int)
    requires P.Pending(l, s, vpn, frame)
    ensures P.Injective(s.tables)
  {}

  lemma SpareIsNoTable(l: P.Layout, s: P.State, mem: Memory, cr3: Frame, first: nat, twice: bool,
                       vpn: nat, frame: int, f: Frame)
    requires Shows(mem, cr3, first, twice, s) && RootTaken(l, s, first, cr3) && P.Pending(l, s, vpn, frame)
    requires IsSpare(first, s, Some(f))
    ensures f != cr3 && !IsTable(mem, cr3, f)
  {
    hide Shows, FrameNumber, P.Pending, B.FirstFit, IsTable;
    P.PallocFinds(s.kbits);
    P.FreeIsNobodys(l, s, vpn, frame, B.FirstFit(s.kbits, 1));
    NotATable(mem, cr3, first, twice, s, f);
  }

  /** The tables of the map after a new one, if any, was installed. */
  lemma TablesAfter(mem: Memory, m: Memory, cr3: Frame, first: nat, twice: bool, s: P.State, s1: P.State,
                    d: Index, spare: Option<Frame>)
    requires Shows(mem, cr3, first, twice, s) && Listed(twice, d)
    requires forall e: Index, f: Frame :: Holds(m, cr3, e, f) <==>
               Holds(mem, cr3, e, f) || (e == d && !Present(mem(cr3, d)) && spare == Some(f))
    requires s1.tables == if Present(mem(cr3, d)) || spare.None? then s.tables
                          else s.tables[Number(d) := FrameNumber(spare.value) - first]
    ensures forall e: Index :: Listed(twice, e) ==> TableShown(m, cr3, first, s1, e)
    ensures twice ==> Present(m(cr3, 0x300)) && Holds(m, cr3, 0, FrameOf(m(cr3, 0x300)))
  {
    hide FrameOf, Present, FrameNumber, Number, WalkAt, Rooted, PageShown;
    forall e: Index | Listed(twice, e) ensures TableShown(m, cr3, first, s1, e) {
      assert TableShown(mem, cr3, first, s, e);
      if Number(e) == Number(d) { SameNumber(e, d); }
      assert Present(m(cr3, e)) ==> Holds(m, cr3, e, FrameOf(m(cr3, e)));
      assert Present(mem(cr3, e)) ==> Holds(m, cr3, e, FrameOf(mem(cr3, e)));
      if e == d && !Present(mem(cr3, d)) && spare.Some? { assert Holds(m, cr3, d, spare.value); }
    }
    if twice {
      assert Holds(m, cr3, 0x300, FrameOf(mem(cr3, 0x300)));
    }
  }

  /** AddToPageTable on the tables in memory is `Entered` on the map, and finds what it demands of its caller. */
  lemma EnteredIsShown(l: P.Layout, s: P.State, mem: Memory, cr3: Frame, first: nat, twice: bool,
                       d: Index, t: Index, frame: int, entry: Word, spare: Option<Frame>)
    requires Shows(mem, cr3, first, twice, s) && Listed(twice, d) && RootTaken(l, s, first, cr3)
    requires P.Pending(l, s, Vpn(d, t), frame)
    requires Present(entry) && FrameNumber(FrameOf(entry)) == frame + first && IsSpare(first, s, spare)
    ensures Shows(Mapped(mem, cr3, d, t, entry, spare), cr3, first, twice, P.Entered(s, frame, Vpn(d, t)))
    ensures d != LAST && WalkAt(mem, cr3, d, t) == None && (spare.Some? ==> spare.value != cr3)
    ensures Present(mem(cr3, d)) ==> FrameOf(mem(cr3, d)) != cr3
  {
    hide FrameOf, Present, FrameNumber, Number, WalkAt, Mapped, Vpn;
    hide P.Dir, B.FirstFit, P.Pending, P.Injective, P.MapOk, P.Owned;
    assert PageShown(mem, cr3, first, s, d, t) && TableShown(mem, cr3, first, s, d);
    P.PendingPage(l, s, Vpn(d, t), frame);
    PendingTables(l, s, Vpn(d, t), frame);
    VpnParts(d, t);
    if spare.Some? { SpareIsNoTable(l, s, mem, cr3, first, twice, Vpn(d, t), frame, spare.value); }
    WalksAfterMapping(mem, cr3, first, twice, s, d, t, entry, spare);
    var m, s1 := Mapped(mem, cr3, d, t, entry, spare), P.Entered(s, frame, Vpn(d, t));
    if Present(mem(cr3, d)) || spare.Some? {
      PagesAfter(mem, m, cr3, first, twice, s, s1, d, t, Some(FrameOf(entry)));
    } else {
      PagesAfter(mem, m, cr3, first, twice, s, s1, d, t, None);
    }
    TablesAfter(mem, m, cr3, first, twice, s, s1, d, spare);
  }

  // ---------- malloc_page and free_page ----------

  /** What is written to other frames than those of the directory and the tables does not show. */
  lemma DataDoNotShow(mem: Memory, m: Memory, cr3: Frame, first: nat, twice: bool, s: P.State, f: Frame)
    requires Shows(mem, cr3, first, twice, s) && !IsTable(mem, cr3, f)
    requires forall g: Frame, i: Index :: g != f ==> m(g, i) == mem(g, i)
    ensures Shows(m, cr3, first, twice, s)
  {
    hide FrameOf, Present, FrameNumber, Number, Vpn;
    RootIsTable(mem, cr3);
    assert forall e: Index :: m(cr3, e) == mem(cr3, e);
    forall e: Index, u: Index ensures WalkAt(m, cr3, e, u) == WalkAt(mem, cr3, e, u) {
      assert Present(mem(cr3, e)) ==> Holds(mem, cr3, e, FrameOf(mem(cr3, e)));
    }
    hide WalkAt;
    forall e: Index | Listed(twice, e) ensures TableShown(m, cr3, first, s, e) {
      assert TableShown(mem, cr3, first, s, e);
    }
    forall e: Index, u: Index | Listed(twice, e) ensures PageShown(m, cr3, first, s, e, u) {
      assert PageShown(mem, cr3, first, s, e, u);
    }
  }

  lemma NewPageIsNoTable(l: P.Layout, s: P.State, s1: P.State, m: Memory, cr3: Frame, first: nat, twice: bool,
                         vpn: nat, f: Frame)
    requires Shows(m, cr3, first, twice, s1) && P.FramesOk(l, s1) && RootTaken(l, s, first, cr3)
    requires vpn in s1.pages && s1.pages[vpn] == FrameNumber(f) - first >= 0 && s1.pages[vpn] !in P.Owned(l, s)
    ensures !IsTable(m, cr3, f)
  {
    hide Shows, FrameNumber, IsTable;
    NotATable(m, cr3, first, twice, s1, f);
  }

  lemma ClearedPageIsShown(l: P.Layout, s: P.State, mem: Memory, cr3: Frame, first: nat, twice: bool,
                           d: Index, t: Index, frame: nat, entry: Word, spare: Option<Frame>)
    requires Shows(mem, cr3, first, twice, s) && Listed(twice, d) && RootTaken(l, s, first, cr3)
    requires P.Pending(l, s, Vpn(d, t), frame)
    requires Present(entry) && FrameNumber(FrameOf(entry)) == frame + first && IsSpare(first, s, spare)
    ensures var m, s1 := Mapped(mem, cr3, d, t, entry, spare), P.Entered(s, frame, Vpn(d, t));
            if Vpn(d, t) !in s1.pages then WalkAt(m, cr3, d, t) == None && Shows(m, cr3, first, twice, s1)
            else WalkAt(m, cr3, d, t) == Some(FrameOf(entry)) &&
                 Shows(ZeroFrame(m, FrameOf(entry)), cr3, first, twice, s1)
  {
    hide Shows, Mapped, Vpn, FrameNumber, FrameOf, Present, WalkAt, P.FramesOk, P.Pending, P.Owned, P.Entered, IsTable;
    hide IsSpare, RootTaken;
    EnteredIsShown(l, s, mem, cr3, first, twice, d, t, frame, entry, spare);
    var m, s1 := Mapped(mem, cr3, d, t, entry, spare), P.Entered(s, frame, Vpn(d, t));
    ShownPage(m, cr3, first, twice, s1, d, t);
    if Vpn(d, t) in s1.pages {
      P.PageEntered(l, s, Vpn(d, t), frame);
      PendingIsFree(l, s, Vpn(d, t), frame);
      NewPageIsNoTable(l, s, s1, m, cr3, first, twice, Vpn(d, t), FrameOf(entry));
      DataDoNotShow(m, ZeroFrame(m, FrameOf(entry)), cr3, first, twice, s1, FrameOf(entry));
      SameFrameNumber(WalkAt(m, cr3, d, t).value, FrameOf(entry));
    }
  }

  lemma PendingIsFree(l: P.Layout, s: P.State, vpn: nat, frame: int)
    requires P.Pending(l, s, vpn, frame)
    ensures frame !in P.Owned(l, s)
  {}

  /** A round of malloc_page: the new page is mapped in memory exactly if it is in the map, and clearing
      it changes no table; if it could not be mapped, the same access faults. */
  lemma NextPageIsShown(l: P.Layout, s: P.State, mem: Memory, cr3: Frame, first: nat, twice: bool, flag: P.Owner,
                        d: Index, t: Index, entry: Word, spare: Option<Frame>)
    requires Shows(mem, cr3, first, twice, s) && Listed(twice, d) && RootTaken(l, s, first, cr3)
    requires P.FramesOk(l, s) && Vpn(d, t) !in s.pages
    requires P.Base(l, flag) <= Vpn(d, t) < P.Base(l, flag) + |P.VBits(s, flag)|
    requires Present(entry) && B.FirstFit(P.PBits(s, flag), 1) != -1
    requires FrameNumber(FrameOf(entry)) == P.Frame(l, flag, B.FirstFit(P.PBits(s, flag), 1)) + first
    requires IsSpare(first, P.Take(s, flag, B.FirstFit(P.PBits(s, flag), 1)), spare)
    ensures var m, r := Mapped(mem, cr3, d, t, entry, spare), P.NextPage(l, s, flag, Vpn(d, t));
            if r.out == P.Fault then WalkAt(m, cr3, d, t) == None && Shows(m, cr3, first, twice, r.s)
            else WalkAt(m, cr3, d, t) == Some(FrameOf(entry)) &&
                 Shows(ZeroFrame(m, FrameOf(entry)), cr3, first, twice, r.s)
  {
    hide Mapped, Vpn, FrameNumber, FrameOf, Present, WalkAt, B.FirstFit, IsSpare, Rooted, TableShown, PageShown;
    hide P.FramesOk, P.Pending, P.Owned, P.Entered;
    var i := B.FirstFit(P.PBits(s, flag), 1);
    P.PallocFinds(P.PBits(s, flag));
    P.FrameTaken(l, s, flag, Vpn(d, t), i);
    FreshFrame(l, s, flag, i);
    assert Shows(mem, cr3, first, twice, P.Take(s, flag, i)) by {
      SameMap(mem, cr3, first, twice, s, P.Take(s, flag, i));
    }
    hide Shows;
    ClearedPageIsShown(l, P.Take(s, flag, i), mem, cr3, first, twice, d, t, P.Frame(l, flag, i), entry, spare);
  }

  lemma SameMap(mem: Memory, cr3: Frame, first: nat, twice: bool, s: P.State, s1: P.State)
    requires Shows(mem, cr3, first, twice, s) && s1.pages == s.pages && s1.tables == s.tables
    ensures Shows(mem, cr3, first, twice, s1)
  {
    hide FrameOf, Present, FrameNumber, Number, WalkAt, Vpn;
    forall e: Index | Listed(twice, e) ensures TableShown(mem, cr3, first, s1, e) {
      assert TableShown(mem, cr3, first, s, e);
    }
    forall e: Index, u: Index | Listed(twice, e) ensures PageShown(mem, cr3, first, s1, e, u) {
      assert PageShown(mem, cr3, first, s, e, u);
    }
  }

  lemma FreshFrame(l: P.Layout, s: P.State, flag: P.Owner, i: nat)
    requires P.FramesOk(l, s) && i < |P.PBits(s, flag)| && !P.PBits(s, flag)[i]
    ensures P.Frame(l, flag, i) !in P.Owned(l, s) && P.Owned(l, P.Take(s, flag, i)) == P.Owned(l, s)
  {}

  /** The walk of a page and its entry in the map. */
  lemma ShownPage(mem: Memory, cr3: Frame, first: nat, twice: bool, s: P.State, d: Index, t: Index)
    requires Shows(mem, cr3, first, twice, s) && Listed(twice, d)
    ensures WalkAt(mem, cr3, d, t).Some? <==> Vpn(d, t) in s.pages
    ensures Vpn(d, t) in s.pages && WalkAt(mem, cr3, d, t).Some? ==>
              s.pages[Vpn(d, t)] + first == FrameNumber(WalkAt(mem, cr3, d, t).value)
  {
    hide WalkAt, Vpn, FrameNumber;
    assert PageShown(mem, cr3, first, s, d, t);
  }

  /** A round of free_page: the frame given back is the one the page translates to, and page_table_remove_pte
      takes just this page out of the map. */
  lemma FreeOneIsShown(l: P.Layout, s: P.State, mem: Memory, cr3: Frame, first: nat, twice: bool, d: Index, t: Index)
    requires Shows(mem, cr3, first, twice, s) && Listed(twice, d) && P.Injective(s.tables) && Vpn(d, t) in s.pages
    ensures Present(mem(cr3, d)) && WalkAt(mem, cr3, d, t).Some?
    ensures FrameNumber(WalkAt(mem, cr3, d, t).value) == s.pages[Vpn(d, t)] + first
    ensures Shows(Unmapped(mem, cr3, d, t), cr3, first, twice, P.FreeOne(l, s, Vpn(d, t)))
  {
    ShownPage(mem, cr3, first, twice, s, d, t);
    hide FrameOf, Present, FrameNumber, Number, Unmapped, Vpn, P.Injective, P.Cleared;
    var m, s1 := Unmapped(mem, cr3, d, t), P.FreeOne(l, s, Vpn(d, t));
    UnmappingChanges(mem, cr3, d, t);
    SameDirectory(mem, cr3, d, t);
    hide WalkAt, TableShown, PageShown, Rooted;
    forall e: Index, u: Index | Listed(twice, e) && Shares(mem, cr3, d, t, e, u) ensures e == d && u == t {
      TablesApart(mem, cr3, first, twice, s, d, e);
    }
    PagesAfter(mem, m, cr3, first, twice, s, s1, d, t, None);
    DirectoryShown(mem, m, cr3, first, twice, s, s1);
  }

  lemma SameDirectory(mem: Memory, cr3: Frame, d: Index, t: Index)
    requires Rooted(mem, cr3) && d != LAST && Present(mem(cr3, d))
    ensures forall e: Index :: Unmapped(mem, cr3, d, t)(cr3, e) == mem(cr3, e)
  {
    hide FrameOf, Present, Cleared;
  }

  lemma DirectoryShown(mem: Memory, m: Memory, cr3: Frame, first: nat, twice: bool, s: P.State, s1: P.State)
    requires Shows(mem, cr3, first, twice, s) && s1.tables == s.tables
    requires forall e: Index :: m(cr3, e) == mem(cr3, e)
    ensures forall e: Index :: Listed(twice, e) ==> TableShown(m, cr3, first, s1, e)
    ensures twice ==> Present(m(cr3, 0x300)) && Holds(m, cr3, 0, FrameOf(m(cr3, 0x300)))
  {
    hide FrameOf, Present, FrameNumber, Number, WalkAt;
    forall e: Index | Listed(twice, e) ensures TableShown(m, cr3, first, s1, e) {
      assert TableShown(mem, cr3, first, s, e);
    }
  }

  // ---------- The loader's tables ----------

  const FIRST: nat := 512

  /** The 256 entries that setup_page makes in the first table; the other tables are empty. */
  ghost predicate LoaderMemory(mem: Memory)
  {
    LoaderDirectory(mem) &&
    (forall u: Index :: mem(0x101, u) == FirstTableEntry(u)) &&
    forall e: Index, u: Index :: 0x300 < e < LAST ==> mem(FrameOf(LoaderEntry(e)), u) == 0
  }

  function FirstTableEntry(u: Index): Word { if u < 0x100 then TableEntry(u as Frame) else 0 }

  lemma FirstTableEntries(u: Index)
    ensures Present(FirstTableEntry(u)) <==> Number(u) < 256
    ensures Present(FirstTableEntry(u)) ==> FrameNumber(FrameOf(FirstTableEntry(u))) == Number(u)
  {}

  lemma DirectoryNumbers(e: Index)
    ensures e == LAST <==> Number(e) == 1023
    ensures e == 0 <==> Number(e) == 0
    ensures e >= 0x300 <==> Number(e) >= 0x300
    ensures e == 0x300 <==> Number(e) == 0x300
    ensures e >= 0x300 ==> FrameNumber(0x101 + ((e - 0x300) as Frame)) == 0x101 + Number(e) - 0x300
  {}

  lemma RootNumber()
    ensures FrameNumber(KERNEL_CR3) == 0x100
  {}

  lemma LoaderTable(mem: Memory, total: nat, e: Index)
    requires LoaderMemory(mem) && total >= P.USED && Listed(true, e)
    ensures TableShown(mem, KERNEL_CR3, FIRST, P.Booted(total), e)
  {
    LoaderFrames(e);
    DirectoryNumbers(e);
    NumberFits(e);
    hide FrameOf, Present, FrameNumber, Number, LoaderEntry, FirstTableEntry;
    assert mem(KERNEL_CR3, e) == LoaderEntry(e);
    assert P.InRange(Number(e), 0x300, 255) <==> 0x300 <= Number(e) < 0x3ff;
  }

  lemma LoaderPage(mem: Memory, total: nat, e: Index, u: Index)
    requires LoaderMemory(mem) && total >= P.USED && Listed(true, e)
    ensures PageShown(mem, KERNEL_CR3, FIRST, P.Booted(total), e, u)
  {
    LoaderFrames(e);
    ZeroIsAbsent();
    FirstTableEntries(u);
    DirectoryNumbers(e);
    NumberFits(u);
    hide FrameOf, Present, FrameNumber, Number, LoaderEntry, FirstTableEntry;
    var s := P.Booted(total);
    assert mem(KERNEL_CR3, e) == LoaderEntry(e);
    if e == 0x300 {
      assert mem(0x101, u) == FirstTableEntry(u);
    } else if e > 0x300 {
      assert mem(FrameOf(LoaderEntry(e)), u) == 0;
    }
  }

  /** The map that mem_init starts with is what the loader has left. */
  lemma LoaderIsShown(mem: Memory, total: nat)
    requires LoaderMemory(mem) && total >= P.USED
    ensures Shows(mem, KERNEL_CR3, FIRST, true, P.Booted(total))
    ensures RootTaken(P.BootLayout(total), P.Booted(total), FIRST, KERNEL_CR3)
  {
    hide FrameOf, Present, FrameNumber, Number, WalkAt;
    var s := P.Booted(total);
    LoaderTables(mem);
    RootNumber();
    forall e: Index | Listed(true, e) ensures TableShown(mem, KERNEL_CR3, FIRST, s, e) {
      LoaderTable(mem, total, e);
    }
    forall e: Index, u: Index | Listed(true, e) ensures PageShown(mem, KERNEL_CR3, FIRST, s, e, u) {
      LoaderPage(mem, total, e, u);
    }
  }

  // ---------- The tables of a process ----------

  /** What ProcessCreatePage leaves in the kernel page `root`. */
  function NewDirectory(mem: Memory, cr3: Frame, root: Frame): Memory
  {
    (g: Frame, i: Index) =>
      if g != root then mem(g, i) else if i == LAST then TableEntry(root) else if i >= 0x300 then mem(cr3, i) else 0
  }

  lemma NewRoot(mem: Memory, cr3: Frame, root: Frame)
    requires Rooted(mem, cr3) && !IsTable(mem, cr3, root)
    ensures Rooted(NewDirectory(mem, cr3, root), root)
  {
    TableEntryFields(root);
    ZeroIsAbsent();
    hide FrameOf, Present;
    var m := NewDirectory(mem, cr3, root);
    forall e: Index | e != LAST && Present(m(root, e)) ensures FrameOf(m(root, e)) != root {
      assert !Holds(mem, cr3, e, root);
    }
  }

  lemma NewWalk(mem: Memory, cr3: Frame, root: Frame, e: Index, u: Index)
    requires Rooted(mem, cr3) && !IsTable(mem, cr3, root) && e != LAST
    ensures WalkAt(NewDirectory(mem, cr3, root), root, e, u) == if e >= 0x300 then WalkAt(mem, cr3, e, u) else None
  {
    ZeroIsAbsent();
    hide FrameOf, Present;
    assert !Holds(mem, cr3, e, root);
  }

  /** The address space of a new process shows the kernel's part of its maker's map, and its maker's is
      what it was. */
  lemma NewSpaceIsShown(mem: Memory, cr3: Frame, first: nat, twice: bool, s: P.State, root: Frame)
    requires Shows(mem, cr3, first, twice, s) && !IsTable(mem, cr3, root)
    ensures Shows(NewDirectory(mem, cr3, root), root, first, false, P.ProcessSpace(s))
    ensures Shows(NewDirectory(mem, cr3, root), cr3, first, twice, s)
  {
    var m, s1 := NewDirectory(mem, cr3, root), P.ProcessSpace(s);
    DataDoNotShow(mem, m, cr3, first, twice, s, root);
    NewRoot(mem, cr3, root);
    hide FrameOf, Present, FrameNumber, Number, WalkAt, Rooted, IsTable;
    forall e: Index | e != LAST ensures TableShown(m, root, first, s1, e) {
      NewTableShown(mem, cr3, first, twice, s, root, e);
    }
    forall e: Index, u: Index | e != LAST ensures PageShown(m, root, first, s1, e, u) {
      NewPageShown(mem, cr3, first, twice, s, root, e, u);
    }
  }

  lemma NewTableShown(mem: Memory, cr3: Frame, first: nat, twice: bool, s: P.State, root: Frame, e: Index)
    requires Shows(mem, cr3, first, twice, s) && !IsTable(mem, cr3, root) && e != LAST
    ensures TableShown(NewDirectory(mem, cr3, root), root, first, P.ProcessSpace(s), e)
  {
    ZeroIsAbsent();
    DirectoryNumbers(e);
    hide FrameOf, Present, FrameNumber, Number, WalkAt;
    assert e != 0 ==> TableShown(mem, cr3, first, s, e);
  }

  lemma NewPageShown(mem: Memory, cr3: Frame, first: nat, twice: bool, s: P.State, root: Frame, e: Index, u: Index)
    requires Shows(mem, cr3, first, twice, s) && !IsTable(mem, cr3, root) && e != LAST
    ensures PageShown(NewDirectory(mem, cr3, root), root, first, P.ProcessSpace(s), e, u)
  {
    DirectoryNumbers(e);
    NumberFits(u);
    NewWalk(mem, cr3, root, e, u);
    hide FrameOf, Present, FrameNumber, Number, WalkAt, NewDirectory, Rooted, TableShown;
    assert e != 0 ==> PageShown(mem, cr3, first, s, e, u);
  }
}
