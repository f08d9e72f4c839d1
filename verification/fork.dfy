/** Copying a process image (userprog/fork.c): CopyStack3, with the bitmap CopyPCB_VaddrBM_Stack0
    copied before it. */
module Fork {
  import opened Bitmap
  import opened Pages

  type Contents = seq<Byte>

  /** The bytes of every frame of physical memory. */
  type Memory = map<int, Contents>

  // ---------- What the copy needs ----------

  ghost function SetFrom(bits: seq<bool>, i: nat): nat
    requires i <= |bits|
    decreases |bits| - i
  {
    if i == |bits| then 0 else (if bits[i] then 1 else 0) + SetFrom(bits, i + 1)
  }

  /** Page tables to be made for the set bits from `i` on. */
  ghost function TablesFrom(dirs: set<nat>, base: nat, bits: seq<bool>, i: nat): nat
    requires i <= |bits|
    decreases |bits| - i
  {
    if i == |bits| then 0
    else if !bits[i] then TablesFrom(dirs, base, bits, i + 1)
    else (if Dir(base + i) in dirs then 0 else 1) + TablesFrom(dirs + {Dir(base + i)}, base, bits, i + 1)
  }

  ghost predicate EnoughForCopy(s: State, base: nat, bits: seq<bool>)
  {
    SetFrom(bits, 0) <= CountClear(s.ubits) && TablesFrom(s.tables.Keys, base, bits, 0) <= CountClear(s.kbits)
  }

  ghost predicate CopyTally(s: State, t: State, base: nat, bits: seq<bool>, i: nat)
  {
    i <= |bits| &&
    SetFrom(bits, 0) - CountClear(s.ubits) == SetFrom(bits, i) - CountClear(t.ubits) &&
    TablesFrom(s.tables.Keys, base, bits, 0) - CountClear(s.kbits)
      == TablesFrom(t.tables.Keys, base, bits, i) - CountClear(t.kbits)
  }

  lemma CopyTallyStep(s: State, b: State, t: State, base: nat, bits: seq<bool>, i: nat, out: Outcome)
    requires CopyTally(s, b, base, bits, i) && i < |bits| && bits[i]
    requires out == NoMemory ==> CountClear(b.ubits) == 0
    requires out != NoMemory ==> Drawn(b, t, USER, base + i)
    requires out == Fault ==> Dir(base + i) !in t.tables
    requires out.Mapped? ==> Dir(base + i) in t.tables
    ensures out.Mapped? ==> CopyTally(s, t, base, bits, i + 1)
    ensures !out.Mapped? ==> !EnoughForCopy(s, base, bits)
  {
    assert Dir(base + i) in b.tables ==> b.tables.Keys + {Dir(base + i)} == b.tables.Keys;
  }

  // ---------- What the copy achieves ----------

  /** Every set bit of the parent's bitmap is a page of the parent, in a frame foreign to the child. */
  ghost predicate ParentMaps(parent: map<nat, int>, mem: Memory, foreign: set<int>, base: nat, bits: seq<bool>)
  {
    forall v :: base <= v < base + |bits| && bits[v - base] ==> v in parent && parent[v] in mem && parent[v] in foreign
  }

  ghost predicate NoUserPage(s: State, base: nat, n: nat)
  {
    forall v :: v in s.pages ==> v < base || base + n <= v
  }

  /** The pages of the first `n` set bits are mapped in the child and hold what the parent's hold;
      memory the child does not own is untouched. Of its page tables, which are written too, nothing is
      said. */
  ghost predicate Copied(parent: map<nat, int>, before: Memory, s: State, t: State, mem: Memory,
                         base: nat, bits: seq<bool>, n: nat)
  {
    n <= |bits| && PagesCopied(s, t, base, bits, n) && ContentsCopied(parent, before, t, mem, base, bits, n) &&
    ForeignSame(before, t, mem)
  }

  ghost predicate PagesCopied(s: State, t: State, base: nat, bits: seq<bool>, n: nat)
  {
    (forall v :: v in t.pages <==> v in s.pages || (base <= v < base + n && v - base < |bits| && bits[v - base])) &&
    forall v :: v in s.pages ==> t.pages[v] == s.pages[v]
  }

  ghost predicate ContentsCopied(parent: map<nat, int>, before: Memory, t: State, mem: Memory,
                                 base: nat, bits: seq<bool>, n: nat)
  {
    forall v :: base <= v < base + n && v - base < |bits| && bits[v - base] ==>
      v in parent && parent[v] in before && v in t.pages && t.pages[v] in mem && mem[t.pages[v]] == before[parent[v]]
  }

  ghost predicate ForeignSame(before: Memory, t: State, mem: Memory)
  {
    forall f :: f in before && f !in t.pages.Values && f !in t.tables.Values ==> f in mem && mem[f] == before[f]
  }

  lemma CopiedStep(l: Layout, parent: map<nat, int>, before: Memory, s: State, b: State, t: State,
                   mem: Memory, base: nat, bits: seq<bool>, n: nat)
    requires Copied(parent, before, s, b, mem, base, bits, n) && n < |bits| && bits[n]
    requires FramesOk(l, t) && base + n !in b.pages && base + n in t.pages && TablesGrow(b, t)
    requires t.pages == b.pages[base + n := t.pages[base + n]]
    requires base + n in parent && parent[base + n] in before
    ensures Copied(parent, before, s, t, mem[t.pages[base + n] := before[parent[base + n]]], base, bits, n + 1)
  {
    NewPageIsNew(l, b, t, base + n);
    CopiedContents(parent, before, s, b, t, mem, base, bits, n);
    CopiedForeign(parent, before, s, b, t, mem, base, bits, n);
    CopiedPages(parent, before, s, b, t, mem, base, bits, n);
    hide FramesOk, TablesGrow, PagesCopied, ContentsCopied, ForeignSame;
  }

  lemma CopiedPages(parent: map<nat, int>, before: Memory, s: State, b: State, t: State,
                    mem: Memory, base: nat, bits: seq<bool>, n: nat)
    requires Copied(parent, before, s, b, mem, base, bits, n) && n < |bits| && bits[n] && base + n in t.pages
    requires base + n !in b.pages && t.pages == b.pages[base + n := t.pages[base + n]]
    ensures PagesCopied(s, t, base, bits, n + 1)
  {}

  /** The new page's frame is not that of an older page. */
  lemma NewPageIsNew(l: Layout, b: State, t: State, v: nat)
    requires FramesOk(l, t) && v !in b.pages && v in t.pages && t.pages == b.pages[v := t.pages[v]]
    ensures forall u :: u in b.pages ==> u in t.pages && t.pages[u] == b.pages[u] && t.pages[u] != t.pages[v]
  {}

  lemma CopiedContents(parent: map<nat, int>, before: Memory, s: State, b: State, t: State,
                       mem: Memory, base: nat, bits: seq<bool>, n: nat)
    requires Copied(parent, before, s, b, mem, base, bits, n) && n < |bits| && bits[n] && base + n in t.pages
    requires base + n in parent && parent[base + n] in before
    requires forall u :: u in b.pages ==> u in t.pages && t.pages[u] == b.pages[u] && t.pages[u] != t.pages[base + n]
    ensures ContentsCopied(parent, before, t, mem[t.pages[base + n] := before[parent[base + n]]], base, bits, n + 1)
  {
    hide ForeignSame;
    forall v | base <= v < base + n && bits[v - base] ensures v in b.pages {}
  }

  lemma CopiedForeign(parent: map<nat, int>, before: Memory, s: State, b: State, t: State,
                      mem: Memory, base: nat, bits: seq<bool>, n: nat)
    requires Copied(parent, before, s, b, mem, base, bits, n) && n < |bits| && base + n in t.pages
    requires base + n in parent && parent[base + n] in before && base + n !in b.pages
    requires t.pages == b.pages[base + n := t.pages[base + n]]
    requires TablesGrow(b, t)
    ensures ForeignSame(before, t, mem[t.pages[base + n] := before[parent[base + n]]])
  {
    forall f | f in b.tables.Values ensures f in t.tables.Values {
      var d :| d in b.tables && b.tables[d] == f;
      assert d in t.tables && t.tables[d] == f;
    }
    ValuesWith(b.pages, base + n, t.pages[base + n]);
  }

  /** `parent` is the parent's page map and `bits` its virtual bitmap; `child` already holds a copy of
      that bitmap but has no page mapped in the user range. The frames of the parent count as foreign to the
      child. The copy completes exactly when there are enough frames; then the child has a page at
      exactly the parent's set bits, with the parent's contents, and every frame the child does not
      own keeps its bytes. */
  method CopyStack3(parent: map<nat, int>, bits: seq<bool>, child: PageAllocator, mem: Memory)
    returns (ok: bool, after: Memory)
    requires child.Here() && FramesOk(child.layout, child.Now())
    requires |bits| % 8 == 0 && |bits| == |child.uvbits|
    requires ParentMaps(parent, mem, child.layout.foreign, child.ubase, bits)
    requires NoUserPage(child.Now(), child.ubase, |bits|)
    modifies child`kbits, child`ubits, child`pages, child`tables
    ensures ok <==> EnoughForCopy(old(child.Now()), child.ubase, bits)
    ensures ok ==> FramesOk(child.layout, child.Now())
    ensures ok ==> Copied(parent, mem, old(child.Now()), child.Now(), after, child.ubase, bits, |bits|)
  {
    hide FramesOk, Copied, CopyTally, EnoughForCopy, Drawn;
    ghost var start := child.Now();
    var base := child.ubase;
    after := mem;
    CopyBegins(parent, mem, start, base, bits);
    var idx0 := 0;
    while idx0 < |bits| / 8
      invariant 0 <= idx0 <= |bits| / 8 && |child.uvbits| == |bits|
      invariant FramesOk(child.layout, child.Now())
      invariant CopyTally(start, child.Now(), base, bits, 8 * idx0)
      invariant Copied(parent, mem, start, child.Now(), after, base, bits, 8 * idx0)
    {
      var v := bits[8 * idx0..8 * idx0 + 8];
      if v == [false, false, false, false, false, false, false, false] {
        SkipByte(parent, mem, start, child.Now(), after, base, bits, idx0);
        idx0 := idx0 + 1;
        continue;
      }
      var idx1 := 0;
      while idx1 < 8
        invariant 0 <= idx1 <= 8 && |child.uvbits| == |bits|
        invariant FramesOk(child.layout, child.Now())
        invariant CopyTally(start, child.Now(), base, bits, 8 * idx0 + idx1)
        invariant Copied(parent, mem, start, child.Now(), after, base, bits, 8 * idx0 + idx1)
      {
        ghost var n := 8 * idx0 + idx1;
        if v[idx1] {
          var vpn := base + (8 * idx0 + idx1);
          ghost var before := child.Now();
          NextIsFree(parent, mem, start, before, after, base, bits, n);
          ParentUntouched(child.layout, parent, mem, start, before, after, base, bits, n);
          var buf := after[parent[vpn]];
          NextPageFacts(child.layout, before, USER, vpn);
          var out := child.MapNext(USER, vpn);
          CopyTallyStep(start, before, child.Now(), base, bits, n, out);
          if !out.Mapped? { return false, after; }
          CopiedStep(child.layout, parent, mem, start, before, child.Now(), after, base, bits, n);
          after := after[child.pages[vpn] := buf];
        } else {
          SkipBit(parent, mem, start, child.Now(), after, base, bits, n);
        }
        idx1 := idx1 + 1;
      }
      idx0 := idx0 + 1;
    }
    CopyEnds(start, child.Now(), base, bits);
    ok := true;
  }

  lemma CopyBegins(parent: map<nat, int>, mem: Memory, s: State, base: nat, bits: seq<bool>)
    ensures Copied(parent, mem, s, s, mem, base, bits, 0) && CopyTally(s, s, base, bits, 0)
  {}

  lemma CopyEnds(s: State, t: State, base: nat, bits: seq<bool>)
    requires CopyTally(s, t, base, bits, |bits|)
    ensures EnoughForCopy(s, base, bits)
  {}

  lemma SkipBit(parent: map<nat, int>, mem: Memory, s: State, t: State, after: Memory, base: nat, bits: seq<bool>,
                n: nat)
    requires Copied(parent, mem, s, t, after, base, bits, n) && CopyTally(s, t, base, bits, n)
    requires n < |bits| && !bits[n]
    ensures Copied(parent, mem, s, t, after, base, bits, n + 1) && CopyTally(s, t, base, bits, n + 1)
  {}

  lemma SkipByte(parent: map<nat, int>, mem: Memory, s: State, t: State, after: Memory, base: nat, bits: seq<bool>,
                 idx0: nat)
    requires 8 * idx0 + 8 <= |bits|
    requires Copied(parent, mem, s, t, after, base, bits, 8 * idx0) && CopyTally(s, t, base, bits, 8 * idx0)
    requires bits[8 * idx0..8 * idx0 + 8] == [false, false, false, false, false, false, false, false]
    ensures Copied(parent, mem, s, t, after, base, bits, 8 * idx0 + 8) && CopyTally(s, t, base, bits, 8 * idx0 + 8)
  {
    var k := 0;
    while k < 8
      invariant 0 <= k <= 8
      invariant Copied(parent, mem, s, t, after, base, bits, 8 * idx0 + k) && CopyTally(s, t, base, bits, 8 * idx0 + k)
    {
      assert !bits[8 * idx0..8 * idx0 + 8][k];
      SkipBit(parent, mem, s, t, after, base, bits, 8 * idx0 + k);
      k := k + 1;
    }
  }

  lemma NextIsFree(parent: map<nat, int>, mem: Memory, s: State, t: State, after: Memory, base: nat, bits: seq<bool>,
                   n: nat)
    requires Copied(parent, mem, s, t, after, base, bits, n) && n < |bits|
    requires NoUserPage(s, base, |bits|)
    ensures base + n !in t.pages
  {}

  /** While the child is filled the parent's pages keep their bytes. */
  lemma ParentUntouched(l: Layout, parent: map<nat, int>, mem: Memory, s: State, t: State, after: Memory,
                        base: nat, bits: seq<bool>, n: nat)
    requires Copied(parent, mem, s, t, after, base, bits, n) && n < |bits| && FramesOk(l, t)
    requires base + n in parent && parent[base + n] in mem && parent[base + n] in l.foreign
    ensures parent[base + n] in after && after[parent[base + n]] == mem[parent[base + n]]
  {
    var f := parent[base + n];
    assert f in mem && f !in t.pages.Values && f !in t.tables.Values;
  }

  /** The child's bitmap, copied beforehand, describes the child's pages once the copy is complete. */
  lemma ChildIsConsistent(l: Layout, parent: map<nat, int>, mem: Memory, s: State, t: State, after: Memory,
                          bits: seq<bool>)
    requires FramesOk(l, t) && Copied(parent, mem, s, t, after, l.ubase, bits, |bits|)
    requires t.uvbits == bits && t.kvbits == s.kvbits && BitsAgree(s.kvbits, l.kbase, HeldPages(s))
    requires NoUserPage(s, l.ubase, |bits|) && t.lost == s.lost && s.lost !! s.pages.Keys
    requires forall v :: v in s.lost ==> l.kbase <= v < l.kbase + |s.kvbits|
    ensures Inv(l, t)
    // and no frame of the child is one of the parent's
    ensures forall v :: v in t.pages ==> t.pages[v] !in l.foreign
  {
    forall v | v in t.pages ensures t.pages[v] !in l.foreign {
      assert t.pages[v] in t.pages.Values;
    }
    FramesLayered(l, t);
    hide FramesOk;
    ChildHolds(parent, mem, s, t, after, l.ubase, bits);
    hide Copied, BitsAgree, HeldPages;
    ChildBitsAgree(bits, l.ubase, HeldPages(s), HeldPages(t), s.kvbits, l.kbase);
  }

  lemma ChildBitsAgree(bits: seq<bool>, base: nat, held: set<nat>, held1: set<nat>, kbits: seq<bool>, kbase: nat)
    requires BitsAgree(kbits, kbase, held) && base + |bits| <= kbase
    requires forall v :: v in held ==> v < base || base + |bits| <= v
    requires forall v :: v in held1 <==> v in held || (base <= v < base + |bits| && bits[v - base])
    ensures BitsAgree(bits, base, held1) && BitsAgree(kbits, kbase, held1)
  {}

  lemma ChildHolds(parent: map<nat, int>, mem: Memory, s: State, t: State, after: Memory, base: nat, bits: seq<bool>)
    requires Copied(parent, mem, s, t, after, base, bits, |bits|) && t.lost == s.lost
    ensures forall v :: v in t.pages <==> v in s.pages || (base <= v < base + |bits| && bits[v - base])
    ensures forall v :: v in HeldPages(t) <==> v in HeldPages(s) || (base <= v < base + |bits| && bits[v - base])
  {}

  /** The space ProcessCreatePage makes, with the parent's bitmap copied into it, is fit for the copy;
      every set bit of that bitmap is a page of the parent exactly if the parent has lost no user page. */
  lemma ChildBegins(l: Layout, s: State)
    requires Inv(l, s) && l.ubase == USER_START
    ensures var l', t := ProcessLayout(l, s), ProcessSpace(s).(uvbits := s.uvbits);
            FramesOk(l', t) && NoUserPage(t, USER_START, |s.uvbits|) &&
            (forall v :: v in s.pages && v < KERNEL_HALF ==> s.pages[v] in l'.foreign) &&
            ((forall v :: USER_START <= v < USER_START + |s.uvbits| && s.uvbits[v - USER_START] ==>
                v in s.pages.Keys) <==>
             (forall v :: v in s.lost ==> v >= KERNEL_HALF))
  {
    hide FramesOk, BitsAgree, ProcessLayout, ProcessSpace, UserPart;
    FramesLayered(l, s);
    ProcessFrames(l, s);
    ChildFrames(l, s);
    NoLowPage(s);
    forall v | v in s.pages && v < KERNEL_HALF ensures s.pages[v] in ProcessLayout(l, s).foreign {
      LowPageIsForeign(l, s, v);
    }
    SetOrLost(s.uvbits, USER_START, s.pages.Keys, s.lost);
    LostUserPages(l, s);
  }

  lemma LostUserPages(l: Layout, s: State)
    requires Inv(l, s) && Layered(l, s)
    ensures (forall v :: v in s.lost ==> v >= KERNEL_HALF) <==>
            (forall v :: v in s.lost ==> v < l.ubase || l.ubase + |s.uvbits| <= v)
  {
    hide FramesOk, BitsAgree;
    assert forall v :: v in s.lost ==> InAPool(l, s, v);
  }

  lemma NoLowPage(s: State)
    requires USER_START + |s.uvbits| <= KERNEL_HALF
    ensures NoUserPage(ProcessSpace(s).(uvbits := s.uvbits), USER_START, |s.uvbits|)
  {}

  lemma SetOrLost(bits: seq<bool>, base: nat, pages: set<nat>, lost: set<nat>)
    requires BitsAgree(bits, base, pages + lost) && lost !! pages
    ensures (forall v :: base <= v < base + |bits| && bits[v - base] ==> v in pages) <==>
            (forall v: nat :: v in lost ==> v < base || base + |bits| <= v)
  {
    forall v | v in lost && base <= v < base + |bits| ensures bits[v - base] && v !in pages {
      assert base + (v - base) in pages + lost;
    }
    forall v | base <= v < base + |bits| && bits[v - base] && v !in pages ensures v in lost {
      assert base + (v - base) in pages + lost;
    }
  }

  lemma LowPageIsForeign(l: Layout, s: State, v: nat)
    requires v in s.pages && v < KERNEL_HALF
    ensures s.pages[v] in ProcessLayout(l, s).foreign
  {
    var low := map u | u in s.pages && u < KERNEL_HALF :: s.pages[u];
    assert low[v] in low.Values;
  }

  lemma ChildFrames(l: Layout, s: State)
    requires Layered(l, s) && FramesOk(ProcessLayout(l, s), ProcessSpace(s)) && l.ubase == USER_START
    ensures FramesOk(ProcessLayout(l, s), ProcessSpace(s).(uvbits := s.uvbits))
  {
    var l', t := ProcessLayout(l, s), ProcessSpace(s).(uvbits := s.uvbits);
    assert Owned(l', t) == Owned(l', ProcessSpace(s));
    assert forall v :: v in t.pages ==> v >= KERNEL_HALF && RightPool(l', ProcessSpace(s), v, t.pages[v]);
  }
}
