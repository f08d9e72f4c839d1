/** How files own blocks (fs/file.c, fs/inode.c).

    A file has 12 addresses in its inode and, beyond them, a table of 1024 addresses in a block of its
    own. Block `q` of the data area is the eight sectors from `base + 8 * q` on, and bits 8q..8q+7 of the
    sector bitmap belong to it. `own` gives for each slot in use of each file the block that fills it. */
module Blocks {
  import opened Basics
  import opened Bitmap
  import opened Disk
  import opened InodeTable

  const DIRECT: nat := 12
  const PER_TABLE: nat := 1024
  const MAX_BLOCKS: nat := 1036
  /** The slot of the table itself. */
  const TABLE: nat := 1036

  type Slots = map<(nat, nat), nat>

  /** `inodes` holds the 22 words of every inode in use, by index. */
  datatype Fs = Fs(disk: seq<byte>, bits: seq<bool>, inodes: map<nat, seq<nat>>, base: nat, table: nat)

  function BlockCount(size: nat): (n: nat)
    ensures size <= BLOCK * n && BLOCK * n < size + BLOCK
  {
    (size + BLOCK - 1) / BLOCK
  }

  /** i_sectors. */
  function Pointer(w: seq<nat>, i: nat): nat
    requires |w| == WORDS && i < 15
  {
    w[SECTORS + i]
  }

  function SetPointer(w: seq<nat>, i: nat, v: nat): (r: seq<nat>)
    requires |w| == WORDS && i < 15
    ensures |r| == WORDS
  {
    w[SECTORS + i := v]
  }

  /** The address in slot `s`, as the kernel finds it: in the inode, or in the table on the disk. */
  function Slot(d: seq<byte>, w: seq<nat>, s: nat): nat
    requires |w| == WORDS && s <= TABLE
  {
    if s < DIRECT then Pointer(w, s)
    else if s == TABLE then Pointer(w, DIRECT)
    else if Pointer(w, DIRECT) == 0 || !OnDisk(d, Pointer(w, DIRECT), 8) then 0
    else Word(Read(d, Pointer(w, DIRECT), 8), s - DIRECT)
  }

  // ---------- Blocks and bits ----------

  ghost predicate Owned(own: Slots, q: nat)
  {
    exists k :: k in own && own[k] == q
  }

  ghost predicate Taken(bits: seq<bool>, q: nat)
  {
    8 * q + 8 <= |bits| && bits[8 * q + 7]
  }

  /** Each owned block has its bits set and one owner; each block with its bits set is owned or
      reserved. */
  ghost predicate OwnOk(bits: seq<bool>, own: Slots, reserved: set<nat>)
  {
    TopBitRules(bits) &&
    (forall k :: k in own ==> Taken(bits, own[k]) && own[k] !in reserved) &&
    (forall k, l :: k in own && l in own && own[k] == own[l] ==> k == l) &&
    (forall q :: q in reserved && 8 * q + 8 <= |bits| ==> Taken(bits, q)) &&
    forall q: nat :: Taken(bits, q) ==> q in reserved || Owned(own, q)
  }

  /** Setting or clearing the bits of a block. */
  lemma TakenAfter(bits: seq<bool>, q: nat, v: bool)
    requires TopBitRules(bits) && 8 * q + 8 <= |bits|
    ensures TopBitRules(SetRange(bits, 8 * q, 8, v))
    ensures forall r: nat :: Taken(SetRange(bits, 8 * q, 8, v), r) <==> if r == q then v else Taken(bits, r)
  {
    BlockUpdateKeepsShape(bits, 8 * q, v);
  }

  /** A block that BlockBitmapAllocate finds belongs to nobody. */
  lemma FoundIsFree(bits: seq<bool>, own: Slots, reserved: set<nat>)
    requires OwnOk(bits, own, reserved) && FirstFit(bits, 8) != -1
    ensures var q := FirstFit(bits, 8) / 8;
            FirstFit(bits, 8) == 8 * q && 8 * q + 8 <= |bits| && q !in reserved && !Owned(own, q) && !Taken(bits, q)
  {
    BlocksAreAligned(bits);
    var q := FirstFit(bits, 8) / 8;
    assert !Taken(bits, q);
  }

  lemma AllocatedIsOwned(bits: seq<bool>, own: Slots, reserved: set<nat>, k: (nat, nat), q: nat)
    requires OwnOk(bits, own, reserved) && k !in own
    requires 8 * q + 8 <= |bits| && q !in reserved && !Owned(own, q)
    ensures OwnOk(SetRange(bits, 8 * q, 8, true), own[k := q], reserved)
  {
    var own1 := own[k := q];
    TakenAfter(bits, q, true);
    hide TopBitRules, Taken, SetRange;
    assert Owned(own1, q) by { assert own1[k] == q; }
    forall r: nat | Owned(own, r) ensures Owned(own1, r) {
      var l :| l in own && own[l] == r;
      assert own1[l] == r;
    }
  }

  lemma FreedIsNobodys(bits: seq<bool>, own: Slots, reserved: set<nat>, k: (nat, nat))
    requires OwnOk(bits, own, reserved) && k in own && 8 * own[k] + 8 <= |bits|
    ensures OwnOk(SetRange(bits, 8 * own[k], 8, false), own - {k}, reserved)
  {
    var own1 := own - {k};
    TakenAfter(bits, own[k], false);
    hide TopBitRules, Taken, SetRange;
    forall r: nat | Owned(own, r) && r != own[k] ensures Owned(own1, r) {
      var l :| l in own && own[l] == r;
      assert l in own1 && own1[l] == r;
    }
  }

  // ---------- The invariant ----------

  /** Every block that is not reserved lies on the disk, at an address that fits a word; the inode table
      lies below the data area. */
  ghost predicate Geometry(fs: Fs, reserved: set<nat>)
  {
    HasTable(fs.disk, fs.table) && fs.table + TABLE_SECTORS <= fs.base &&
    forall q :: 0 <= q && 8 * q + 8 <= |fs.bits| && q !in reserved ==>
      OnDisk(fs.disk, fs.base + 8 * q, 8) && fs.base + 8 * q < WORD_MOD
  }

  /** File `f` of `n` blocks uses slots 0..n-1, and the table slot once n exceeds 12. */
  predicate InUse(n: nat, s: nat)
  {
    (s < n && s < MAX_BLOCKS) || (s == TABLE && n > DIRECT)
  }

  /** `len` is the number of blocks of each file. */
  ghost predicate ShapeOk(inodes: map<nat, seq<nat>>, own: Slots, len: map<nat, nat>)
  {
    len.Keys == inodes.Keys &&
    (forall k :: k in own ==> k.0 in inodes) &&
    (forall f :: f in inodes ==> f < MAX_INODES && IsRecord(inodes[f]) && len[f] <= MAX_BLOCKS) &&
    forall f, s: nat :: f in inodes ==> ((f, s) in own <==> InUse(len[f], s))
  }

  /** What the kernel reads in the slots is what is owned. */
  ghost predicate SlotsOk(fs: Fs, own: Slots)
  {
    forall f, s: nat :: f in fs.inodes && |fs.inodes[f]| == WORDS && s <= TABLE ==>
      Slot(fs.disk, fs.inodes[f], s) == if (f, s) in own then fs.base + 8 * own[(f, s)] else 0
  }

  ghost predicate Inv(fs: Fs, own: Slots, len: map<nat, nat>, reserved: set<nat>)
  {
    Geometry(fs, reserved) && OwnOk(fs.bits, own, reserved) && ShapeOk(fs.inodes, own, len) && SlotsOk(fs, own)
  }

  /** Between two calls a file has just the blocks its size asks for. */
  ghost predicate AtRest(inodes: map<nat, seq<nat>>, len: map<nat, nat>)
    requires len.Keys == inodes.Keys
  {
    forall f :: f in inodes ==> |inodes[f]| == WORDS && len[f] == BlockCount(inodes[f][SIZE])
  }

  // ---------- Data ----------

  /** The bytes of the block in slot `s` of file `f`. */
  ghost function Data(fs: Fs, own: Slots, f: nat, s: nat): (r: seq<byte>)
    requires (f, s) in own && OnDisk(fs.disk, fs.base + 8 * own[(f, s)], 8)
    ensures |r| == BLOCK
  {
    Read(fs.disk, fs.base + 8 * own[(f, s)], 8)
  }

  lemma OwnedIsOnDisk(fs: Fs, own: Slots, reserved: set<nat>, k: (nat, nat))
    requires Geometry(fs, reserved) && OwnOk(fs.bits, own, reserved) && k in own
    ensures OnDisk(fs.disk, fs.base + 8 * own[k], 8) && fs.base + 8 * own[k] < WORD_MOD && 8 * own[k] + 8 <= |fs.bits|
  {}

  /** Writing block `q`. */
  function Put(fs: Fs, q: nat, b: seq<byte>): (r: Fs)
    requires OnDisk(fs.disk, fs.base + 8 * q, 8) && |b| == BLOCK
    ensures |r.disk| == |fs.disk|
  {
    fs.(disk := Write(fs.disk, fs.base + 8 * q, 8, b))
  }

  /** Writing one block leaves the bytes of every other block. */
  lemma PutElsewhere(fs: Fs, q: nat, b: seq<byte>, r: nat)
    requires OnDisk(fs.disk, fs.base + 8 * q, 8) && |b| == BLOCK && OnDisk(fs.disk, fs.base + 8 * r, 8) && r != q
    ensures Read(Put(fs, q, b).disk, fs.base + 8 * r, 8) == Read(fs.disk, fs.base + 8 * r, 8)
  {
    ReadElsewhere(fs.disk, fs.base + 8 * q, 8, b, fs.base + 8 * r, 8);
  }

  /** As long as it is not a table, writing a block changes no slot of any file. */
  lemma PutKeepsSlots(fs: Fs, own: Slots, len: map<nat, nat>, reserved: set<nat>, q: nat, b: seq<byte>)
    requires Inv(fs, own, len, reserved) && OnDisk(fs.disk, fs.base + 8 * q, 8) && |b| == BLOCK
    requires forall f :: (f, TABLE) in own ==> own[(f, TABLE)] != q
    ensures Inv(Put(fs, q, b), own, len, reserved)
  {
    var fs1 := Put(fs, q, b);
    forall f, s: nat | f in fs1.inodes && |fs1.inodes[f]| == WORDS && s <= TABLE
      ensures Slot(fs1.disk, fs1.inodes[f], s) == if (f, s) in own then fs1.base + 8 * own[(f, s)] else 0
    {
      assert Slot(fs.disk, fs.inodes[f], TABLE) == if (f, TABLE) in own then fs.base + 8 * own[(f, TABLE)] else 0;
      if (f, TABLE) in own {
        OwnedIsOnDisk(fs, own, reserved, (f, TABLE));
        PutElsewhere(fs, q, b, own[(f, TABLE)]);
      }
    }
  }

  // ---------- Taking blocks ----------

  /** The answer of an allocation: -1, or the new state and an index or address. */
  datatype Grown = Full | Grown(fs: Fs, at: nat)

  /** BlockBitmapAllocate. */
  function BlockBitmapAllocate(fs: Fs): Grown
  {
    var r := FirstFit(fs.bits, 8);
    if r == -1 then Full else Grown(fs.(bits := SetRange(fs.bits, r, 8, true)), r)
  }

  /** The first entry of a table that is zero, or 1024. */
  function FirstZero(b: seq<byte>, i: nat := 0): (r: nat)
    requires |b| == BLOCK && i <= PER_TABLE
    ensures i <= r <= PER_TABLE && (r < PER_TABLE ==> Word(b, r) == 0)
    ensures forall j :: i <= j < r ==> Word(b, j) != 0
    decreases PER_TABLE - i
  {
    if i == PER_TABLE || Word(b, i) == 0 then i else FirstZero(b, i + 1)
  }

  function NewTable(fs: Fs, f: nat, r0: nat, r1: nat): (r: Grown)
    requires f in fs.inodes && |fs.inodes[f]| == WORDS
    requires OnDisk(fs.disk, fs.base + r0, 8) && fs.base + r0 < WORD_MOD && fs.base + r1 < WORD_MOD
  {
    var table := FirstEntry(fs.base + r1);
    Grown(fs.(disk := Write(fs.disk, fs.base + r0, 8, table),
              inodes := fs.inodes[f := SetPointer(fs.inodes[f], DIRECT, fs.base + r0)]), fs.base + r1)
  }

  ghost predicate Fits(fs: Fs, r: nat)
  {
    OnDisk(fs.disk, fs.base + r, 8) && fs.base + r < WORD_MOD
  }

  lemma FoundFits(fs: Fs, own: Slots, reserved: set<nat>)
    requires Geometry(fs, reserved) && OwnOk(fs.bits, own, reserved) && BlockBitmapAllocate(fs).Grown?
    ensures Fits(fs, BlockBitmapAllocate(fs).at)
  {
    FoundIsFree(fs.bits, own, reserved);
  }

  // ---------- Growing a file by one block ----------

  /** Nothing but the inode and the blocks of file `f` has changed, and its old data have not. */
  ghost predicate OnlyGrows(fs: Fs, own: Slots, f: nat, fs1: Fs, own1: Slots)
  {
    fs1.base == fs.base && fs1.table == fs.table && |fs1.disk| == |fs.disk| && |fs1.bits| == |fs.bits| &&
    fs1.inodes.Keys == fs.inodes.Keys &&
    (forall g :: g in fs.inodes && g != f ==> fs1.inodes[g] == fs.inodes[g]) &&
    (f in fs.inodes && |fs.inodes[f]| == |fs1.inodes[f]| == WORDS &&
     forall i :: 0 <= i < SECTORS ==> fs1.inodes[f][i] == fs.inodes[f][i]) &&
    (forall k :: k in own ==> k in own1 && own1[k] == own[k]) &&
    (forall k :: k in own && k.1 != TABLE ==> SameBlock(fs, fs1, own[k])) &&
    SameFront(fs, fs1)
  }

  /** No sector in front of the data blocks has changed; the inode table lies there. */
  ghost predicate SameFront(fs: Fs, fs1: Fs)
  {
    |fs1.disk| == |fs.disk| &&
    var n := Min(SECTOR * fs.base, |fs.disk|);
    fs1.disk[..n] == fs.disk[..n]
  }

  lemma FrontAfterPut(fs: Fs, q: nat, b: seq<byte>)
    requires OnDisk(fs.disk, fs.base + 8 * q, 8) && |b| == BLOCK
    ensures SameFront(fs, Put(fs, q, b))
  {
    var d, n := Put(fs, q, b).disk, Min(SECTOR * fs.base, |fs.disk|);
    forall i | 0 <= i < n ensures d[..n][i] == fs.disk[..n][i] {}
  }

  ghost predicate SameBlock(fs: Fs, fs1: Fs, q: nat)
  {
    OnDisk(fs.disk, fs.base + 8 * q, 8) && OnDisk(fs1.disk, fs.base + 8 * q, 8) ==>
      Read(fs1.disk, fs.base + 8 * q, 8) == Read(fs.disk, fs.base + 8 * q, 8)
  }

  /** What a successful AllocateOneBlock has done to file `f`: block `q` fills its next slot. */
  ghost predicate GrownBy(fs: Fs, own: Slots, len: map<nat, nat>, f: nat, q: nat,
                          fs1: Fs, own1: Slots, len1: map<nat, nat>, reserved: set<nat>)
  {
    Inv(fs1, own1, len1, reserved) && OnlyGrows(fs, own, f, fs1, own1) &&
    f in len && len1 == len[f := len[f] + 1] && (f, len[f]) in own1 && own1[(f, len[f])] == q
  }

  /** The slots of file `g` depend on its words and, if it has one, on its table. */
  lemma SlotsDepend(fs: Fs, fs1: Fs, own: Slots, g: nat, s: nat, reserved: set<nat>)
    requires Geometry(fs, reserved) && OwnOk(fs.bits, own, reserved) && SlotsOk(fs, own)
    requires g in fs.inodes && g in fs1.inodes && fs1.inodes[g] == fs.inodes[g] && |fs.inodes[g]| == WORDS && s <= TABLE
    requires fs1.base == fs.base && |fs1.disk| == |fs.disk|
    requires (g, TABLE) in own && OnDisk(fs.disk, fs.base + 8 * own[(g, TABLE)], 8) ==>
               Read(fs1.disk, fs.base + 8 * own[(g, TABLE)], 8) == Read(fs.disk, fs.base + 8 * own[(g, TABLE)], 8)
    ensures Slot(fs1.disk, fs1.inodes[g], s) == Slot(fs.disk, fs.inodes[g], s)
  {
    assert Slot(fs.disk, fs.inodes[g], TABLE) == if (g, TABLE) in own then fs.base + 8 * own[(g, TABLE)] else 0;
  }

  function GrowDirect(fs: Fs, f: nat, idx: nat): Grown
    requires f in fs.inodes && |fs.inodes[f]| == WORDS && idx < DIRECT
  {
    match BlockBitmapAllocate(fs)
    case Full => Full
    case Grown(fs1, r) =>
      Grown(fs1.(inodes := fs1.inodes[f := SetPointer(fs1.inodes[f], idx, fs1.base + r)]), fs1.base + r)
  }

  lemma ShapeGrows(inodes: map<nat, seq<nat>>, own: Slots, len: map<nat, nat>, f: nat, w: seq<nat>, q: nat)
    requires ShapeOk(inodes, own, len) && f in inodes && IsRecord(w)
    requires len[f] < MAX_BLOCKS && len[f] != DIRECT
    ensures ShapeOk(inodes[f := w], own[(f, len[f]) := q], len[f := len[f] + 1])
  {}

  lemma DirectSlots(fs: Fs, own: Slots, len: map<nat, nat>, reserved: set<nat>, f: nat, q: nat, fs1: Fs)
    requires Inv(fs, own, len, reserved) && f in fs.inodes && len[f] < DIRECT && |fs.inodes[f]| == WORDS
    requires fs1.disk == fs.disk && fs1.base == fs.base
    requires fs1.inodes == fs.inodes[f := SetPointer(fs.inodes[f], len[f], fs.base + 8 * q)]
    ensures SlotsOk(fs1, own[(f, len[f]) := q])
  {
    var own1 := own[(f, len[f]) := q];
    forall g, s: nat | g in fs1.inodes && |fs1.inodes[g]| == WORDS && s <= TABLE
      ensures Slot(fs1.disk, fs1.inodes[g], s) == if (g, s) in own1 then fs1.base + 8 * own1[(g, s)] else 0
    {
      assert |fs.inodes[g]| == WORDS;
      assert Slot(fs.disk, fs.inodes[g], s) == if (g, s) in own then fs.base + 8 * own[(g, s)] else 0;
      if g == f {
        assert (f, TABLE) !in own && !InUse(len[f], TABLE);
        assert Slot(fs.disk, fs.inodes[f], TABLE) == 0;
      }
    }
  }

  lemma DirectGrows(fs: Fs, own: Slots, len: map<nat, nat>, reserved: set<nat>, f: nat)
    requires Inv(fs, own, len, reserved) && f in fs.inodes && len[f] < DIRECT
    requires GrowDirect(fs, f, len[f]).Grown?
    ensures var g := GrowDirect(fs, f, len[f]);
            var q := FirstFit(fs.bits, 8) / 8;
            g.at == fs.base + 8 * q &&
            GrownBy(fs, own, len, f, q, g.fs, own[(f, len[f]) := q], len[f := len[f] + 1], reserved)
  {
    var n := len[f];
    var g := GrowDirect(fs, f, n);
    var q := FirstFit(fs.bits, 8) / 8;
    FoundIsFree(fs.bits, own, reserved);
    assert !InUse(n, n);
    AllocatedIsOwned(fs.bits, own, reserved, (f, n), q);
    DirectSlots(fs, own, len, reserved, f, q, g.fs);
    ShapeGrows(fs.inodes, own, len, f, g.fs.inodes[f], q);
    DirectFrame(fs, own, f, n, q, g.fs);
    hide OwnOk, SlotsOk, ShapeOk, SetRange, FirstFit, OnlyGrows;
  }

  lemma DirectFrame(fs: Fs, own: Slots, f: nat, n: nat, q: nat, fs1: Fs)
    requires f in fs.inodes && |fs.inodes[f]| == WORDS && n < DIRECT && (f, n) !in own
    requires fs1 == fs.(bits := fs1.bits, inodes := fs.inodes[f := SetPointer(fs.inodes[f], n, fs.base + 8 * q)])
    requires |fs1.bits| == |fs.bits|
    ensures OnlyGrows(fs, own, f, fs1, own[(f, n) := q])
  {}

  /** A new table: one entry, then zeros. */
  function FirstEntry(v: nat): (r: seq<byte>)
    requires v < WORD_MOD
    ensures |r| == BLOCK
  {
    SetWord(Zeros(BLOCK), 0, v)
  }

  lemma FirstEntryWords(v: nat, i: nat)
    requires v < WORD_MOD && i < PER_TABLE
    ensures Word(FirstEntry(v), i) == if i == 0 then v else 0
  {
    WordAfterSet(Zeros(BLOCK), 0, v, i);
  }

  lemma NewTableOwnSlots(fs: Fs, f: nat, q0: nat, q1: nat, s: nat)
    requires f in fs.inodes && |fs.inodes[f]| == WORDS && s <= TABLE && fs.base > 0
    requires Fits(fs, 8 * q0) && fs.base + 8 * q1 < WORD_MOD
    ensures var fs1 := NewTable(fs, f, 8 * q0, 8 * q1).fs;
            Slot(fs1.disk, fs1.inodes[f], s) ==
              if s == DIRECT then fs.base + 8 * q1 else if s == TABLE then fs.base + 8 * q0
              else if s < DIRECT then Slot(fs.disk, fs.inodes[f], s) else 0
  {
    hide Word, FirstEntry, Write, Read;
    ReadBack(fs.disk, fs.base + 8 * q0, 8, FirstEntry(fs.base + 8 * q1));
    if DIRECT <= s < TABLE { FirstEntryWords(fs.base + 8 * q1, s - DIRECT); }
  }

  lemma NewTableOtherSlots(fs: Fs, own: Slots, len: map<nat, nat>, reserved: set<nat>, f: nat, q0: nat, q1: nat, g: nat,
                           s: nat)
    requires Inv(fs, own, len, reserved) && f in fs.inodes && |fs.inodes[f]| == WORDS
    requires Fits(fs, 8 * q0) && fs.base + 8 * q1 < WORD_MOD && !Owned(own, q0)
    requires g in fs.inodes && g != f && |fs.inodes[g]| == WORDS && s <= TABLE
    ensures var fs1 := NewTable(fs, f, 8 * q0, 8 * q1).fs;
            Slot(fs1.disk, fs1.inodes[g], s) == Slot(fs.disk, fs.inodes[g], s)
  {
    hide FirstEntry, Slot;
    if (g, TABLE) in own {
      OwnedIsOnDisk(fs, own, reserved, (g, TABLE));
      ReadElsewhere(fs.disk, fs.base + 8 * q0, 8, FirstEntry(fs.base + 8 * q1), fs.base + 8 * own[(g, TABLE)], 8);
    }
    SlotsDepend(fs, NewTable(fs, f, 8 * q0, 8 * q1).fs, own, g, s, reserved);
  }

  lemma NewTableSlots(fs: Fs, own: Slots, len: map<nat, nat>, reserved: set<nat>, f: nat, q0: nat, q1: nat)
    requires Inv(fs, own, len, reserved) && f in fs.inodes && len[f] == DIRECT && |fs.inodes[f]| == WORDS
    requires Fits(fs, 8 * q0) && fs.base + 8 * q1 < WORD_MOD && !Owned(own, q0)
    ensures SlotsOk(NewTable(fs, f, 8 * q0, 8 * q1).fs, own[(f, TABLE) := q0][(f, DIRECT) := q1])
  {
    var fs1 := NewTable(fs, f, 8 * q0, 8 * q1).fs;
    var own1 := own[(f, TABLE) := q0][(f, DIRECT) := q1];
    assert fs1.inodes == fs.inodes[f := SetPointer(fs.inodes[f], DIRECT, fs.base + 8 * q0)] && fs1.base == fs.base;
    hide Slot, NewTable, OwnOk, Geometry, Fits;
    forall g, s: nat | g in fs1.inodes && |fs1.inodes[g]| == WORDS && s <= TABLE
      ensures Slot(fs1.disk, fs1.inodes[g], s) == if (g, s) in own1 then fs1.base + 8 * own1[(g, s)] else 0
    {
      assert g in fs.inodes && |fs.inodes[g]| == WORDS;
      assert Slot(fs.disk, fs.inodes[g], s) == if (g, s) in own then fs.base + 8 * own[(g, s)] else 0;
      if g == f {
        assert (f, s) in own <==> InUse(DIRECT, s);
        NewTableOwnSlots(fs, f, q0, q1, s);
      } else {
        NewTableOtherSlots(fs, own, len, reserved, f, q0, q1, g, s);
      }
    }
  }

  lemma NewTableShape(inodes: map<nat, seq<nat>>, own: Slots, len: map<nat, nat>, f: nat, w: seq<nat>, q0: nat, q1: nat)
    requires ShapeOk(inodes, own, len) && f in inodes && IsRecord(w) && len[f] == DIRECT
    ensures ShapeOk(inodes[f := w], own[(f, TABLE) := q0][(f, DIRECT) := q1], len[f := DIRECT + 1])
  {}

  /** Two blocks taken one after the other are two different free blocks. */
  lemma FoundTwice(fs: Fs, own: Slots, reserved: set<nat>, f: nat)
    requires Geometry(fs, reserved) && OwnOk(fs.bits, own, reserved) && (f, TABLE) !in own && (f, DIRECT) !in own
    requires BlockBitmapAllocate(fs).Grown? && BlockBitmapAllocate(BlockBitmapAllocate(fs).fs).Grown?
    ensures var g0 := BlockBitmapAllocate(fs);
            var g1 := BlockBitmapAllocate(g0.fs);
            var q0, q1 := g0.at / 8, g1.at / 8;
            g0.at == 8 * q0 && g1.at == 8 * q1 && q0 != q1 && Fits(fs, g0.at) && Fits(fs, g1.at) &&
            !Owned(own, q0) && !Owned(own, q1) &&
            OwnOk(g1.fs.bits, own[(f, TABLE) := q0][(f, DIRECT) := q1], reserved)
  {
    var g0 := BlockBitmapAllocate(fs);
    var g1 := BlockBitmapAllocate(g0.fs);
    var q0, q1 := g0.at / 8, g1.at / 8;
    hide OwnOk, SetRange, FirstFit, Fits, Owned;
    FoundIsFree(fs.bits, own, reserved);
    FoundFits(fs, own, reserved);
    AllocatedIsOwned(fs.bits, own, reserved, (f, TABLE), q0);
    var own0 := own[(f, TABLE) := q0];
    FoundIsFree(g0.fs.bits, own0, reserved);
    FoundFits(g0.fs, own0, reserved);
    AllocatedIsOwned(g0.fs.bits, own0, reserved, (f, DIRECT), q1);
    OwnedStays(own, (f, TABLE), q0);
    OwnsIt(own0, (f, TABLE));
    assert Fits(g0.fs, g1.at) ==> Fits(fs, g1.at) by { SameFit(fs, g0.fs, g1.at); }
  }

  lemma OwnsIt(own: Slots, k: (nat, nat))
    requires k in own
    ensures Owned(own, own[k])
  {}

  lemma SameFit(fs: Fs, fs1: Fs, r: nat)
    requires fs1 == fs.(bits := fs1.bits)
    ensures Fits(fs1, r) == Fits(fs, r)
  {}

  lemma OwnedStays(own: Slots, k: (nat, nat), q: nat)
    requires k !in own
    ensures forall r: nat :: Owned(own, r) ==> Owned(own[k := q], r)
  {
    forall r: nat | Owned(own, r) ensures Owned(own[k := q], r) {
      var l :| l in own && own[l] == r;
      assert own[k := q][l] == r;
    }
  }

  /** The first indirect block: a table and a data block. */
  ghost function GrowNewTable(fs: Fs, own: Slots, len: map<nat, nat>, reserved: set<nat>, f: nat): Grown
    requires Inv(fs, own, len, reserved) && f in fs.inodes && len[f] == DIRECT
  {
    match BlockBitmapAllocate(fs)
    case Full => Full
    case Grown(fs0, r0) =>
      match BlockBitmapAllocate(fs0)
      case Full => Full
      case Grown(fs1, r1) =>
        assert !InUse(DIRECT, TABLE) && !InUse(DIRECT, DIRECT);
        FoundTwice(fs, own, reserved, f);
        NewTable(fs1, f, r0, r1)
  }

  lemma SlotsIgnoreBits(fs: Fs, own: Slots, bits1: seq<bool>)
    requires SlotsOk(fs, own)
    ensures SlotsOk(fs.(bits := bits1), own)
  {
    hide Slot;
  }

  lemma RecordsStay(inodes: map<nat, seq<nat>>, own: Slots, len: map<nat, nat>, f: nat, v: nat)
    requires ShapeOk(inodes, own, len) && f in inodes && v < WORD_MOD
    ensures IsRecord(inodes[f]) && forall i :: 0 <= i < 15 ==> IsRecord(SetPointer(inodes[f], i, v))
  {}

  lemma NewTableInv(fs: Fs, own: Slots, len: map<nat, nat>, reserved: set<nat>, f: nat, q0: nat, q1: nat,
                    bits1: seq<bool>)
    requires Inv(fs, own, len, reserved) && f in fs.inodes && len[f] == DIRECT && |fs.inodes[f]| == WORDS
    requires Fits(fs, 8 * q0) && fs.base + 8 * q1 < WORD_MOD && !Owned(own, q0)
    requires |bits1| == |fs.bits| && OwnOk(bits1, own[(f, TABLE) := q0][(f, DIRECT) := q1], reserved)
    ensures Inv(NewTable(fs, f, 8 * q0, 8 * q1).fs.(bits := bits1),
                own[(f, TABLE) := q0][(f, DIRECT) := q1], len[f := DIRECT + 1], reserved)
  {
    hide OwnOk, SlotsOk, ShapeOk, FirstEntry, Owned, Write;
    var fs1 := NewTable(fs, f, 8 * q0, 8 * q1).fs;
    NewTableSlots(fs, own, len, reserved, f, q0, q1);
    SlotsIgnoreBits(fs1, own[(f, TABLE) := q0][(f, DIRECT) := q1], bits1);
    RecordsStay(fs.inodes, own, len, f, fs.base + 8 * q0);
    NewTableShape(fs.inodes, own, len, f, fs1.inodes[f], q0, q1);
  }

  lemma NewTableFrame(fs: Fs, own: Slots, f: nat, q0: nat, q1: nat, bits1: seq<bool>)
    requires f in fs.inodes && |fs.inodes[f]| == WORDS
    requires Fits(fs, 8 * q0) && fs.base + 8 * q1 < WORD_MOD && !Owned(own, q0)
    requires (f, TABLE) !in own && (f, DIRECT) !in own && |bits1| == |fs.bits|
    ensures OnlyGrows(fs, own, f, NewTable(fs, f, 8 * q0, 8 * q1).fs.(bits := bits1),
                      own[(f, TABLE) := q0][(f, DIRECT) := q1])
  {
    NewTableData(fs, own, f, q0, q1);
    FrontAfterPut(fs, q0, FirstEntry(fs.base + 8 * q1));
    assert NewTable(fs, f, 8 * q0, 8 * q1).fs.disk == Put(fs, q0, FirstEntry(fs.base + 8 * q1)).disk;
    hide FirstEntry, Owned, Write, Read;
  }

  lemma NewTableGrows(fs: Fs, own: Slots, len: map<nat, nat>, reserved: set<nat>, f: nat)
    requires Inv(fs, own, len, reserved) && f in fs.inodes && len[f] == DIRECT
    requires GrowNewTable(fs, own, len, reserved, f).Grown?
    ensures var g := GrowNewTable(fs, own, len, reserved, f);
            var g0 := BlockBitmapAllocate(fs);
            g0.Grown? && BlockBitmapAllocate(g0.fs).Grown? &&
            var q0, q1 := g0.at / 8, BlockBitmapAllocate(g0.fs).at / 8;
            g.at == fs.base + 8 * q1 &&
            GrownBy(fs, own, len, f, q1, g.fs, own[(f, TABLE) := q0][(f, DIRECT) := q1], len[f := DIRECT + 1], reserved)
  {
    var g1 := BlockBitmapAllocate(BlockBitmapAllocate(fs).fs);
    var q0, q1 := BlockBitmapAllocate(fs).at / 8, g1.at / 8;
    assert !InUse(DIRECT, TABLE) && !InUse(DIRECT, DIRECT);
    FoundTwice(fs, own, reserved, f);
    NewTableIgnoresBits(fs, f, 8 * q0, 8 * q1, g1.fs.bits);
    hide OwnOk, SlotsOk, ShapeOk, Geometry, NewTable, OnlyGrows, BlockBitmapAllocate, Owned, Fits;
    NewTableInv(fs, own, len, reserved, f, q0, q1, g1.fs.bits);
    NewTableFrame(fs, own, f, q0, q1, g1.fs.bits);
  }

  lemma NewTableIgnoresBits(fs: Fs, f: nat, r0: nat, r1: nat, bits1: seq<bool>)
    requires f in fs.inodes && |fs.inodes[f]| == WORDS && Fits(fs, r0) && fs.base + r1 < WORD_MOD
    ensures NewTable(fs.(bits := bits1), f, r0, r1) == Grown(NewTable(fs, f, r0, r1).fs.(bits := bits1), fs.base + r1)
  {
    hide FirstEntry, Write, SetPointer;
  }

  lemma NewTableData(fs: Fs, own: Slots, f: nat, q0: nat, q1: nat)
    requires f in fs.inodes && |fs.inodes[f]| == WORDS
    requires Fits(fs, 8 * q0) && fs.base + 8 * q1 < WORD_MOD && !Owned(own, q0)
    ensures var fs1 := NewTable(fs, f, 8 * q0, 8 * q1).fs;
            forall k :: k in own && OnDisk(fs.disk, fs.base + 8 * own[k], 8) ==>
              Read(fs1.disk, fs.base + 8 * own[k], 8) == Read(fs.disk, fs.base + 8 * own[k], 8)
  {
    forall k | k in own && OnDisk(fs.disk, fs.base + 8 * own[k], 8)
      ensures Read(NewTable(fs, f, 8 * q0, 8 * q1).fs.disk, fs.base + 8 * own[k], 8) ==
                Read(fs.disk, fs.base + 8 * own[k], 8)
    {
      assert Owned(own, own[k]);
      ReadElsewhere(fs.disk, fs.base + 8 * q0, 8, FirstEntry(fs.base + 8 * q1), fs.base + 8 * own[k], 8);
    }
  }

  // ---------- Further entries of the table ----------

  lemma TableIsOwned(fs: Fs, own: Slots, len: map<nat, nat>, reserved: set<nat>, f: nat)
    requires Inv(fs, own, len, reserved) && f in fs.inodes && len[f] > DIRECT
    ensures (f, TABLE) in own && OnDisk(fs.disk, fs.base + 8 * own[(f, TABLE)], 8) && |fs.inodes[f]| == WORDS
    ensures Slot(fs.disk, fs.inodes[f], TABLE) == fs.base + 8 * own[(f, TABLE)] && fs.base > 0
  {
    hide Slot;
    assert InUse(len[f], TABLE);
    OwnedIsOnDisk(fs, own, reserved, (f, TABLE));
  }

  lemma TableWord(fs: Fs, own: Slots, len: map<nat, nat>, reserved: set<nat>, f: nat, j: nat)
    requires Inv(fs, own, len, reserved) && f in fs.inodes && len[f] > DIRECT && j < PER_TABLE
    requires (f, TABLE) in own && OnDisk(fs.disk, fs.base + 8 * own[(f, TABLE)], 8)
    ensures Word(Read(fs.disk, fs.base + 8 * own[(f, TABLE)], 8), j) == 0 <==> j >= len[f] - DIRECT
  {
    hide Word, Read, OwnOk;
    var s := DIRECT + j;
    TableIsOwned(fs, own, len, reserved, f);
    assert Slot(fs.disk, fs.inodes[f], s) == Word(Read(fs.disk, fs.base + 8 * own[(f, TABLE)], 8), j);
    assert Slot(fs.disk, fs.inodes[f], s) == if (f, s) in own then fs.base + 8 * own[(f, s)] else 0;
    assert (f, s) in own <==> InUse(len[f], s);
  }

  /** The allocated blocks are a prefix without holes, so the first zero entry is the next one. */
  lemma FirstZeroIsNext(fs: Fs, own: Slots, len: map<nat, nat>, reserved: set<nat>, f: nat)
    requires Inv(fs, own, len, reserved) && f in fs.inodes && len[f] > DIRECT
    ensures (f, TABLE) in own && OnDisk(fs.disk, fs.base + 8 * own[(f, TABLE)], 8)
    ensures Slot(fs.disk, fs.inodes[f], TABLE) == fs.base + 8 * own[(f, TABLE)]
    ensures FirstZero(Read(fs.disk, fs.base + 8 * own[(f, TABLE)], 8)) == len[f] - DIRECT
  {
    TableIsOwned(fs, own, len, reserved, f);
    assert len[f] <= MAX_BLOCKS;
    hide Word, Read, Slot, Inv;
    var buf := Read(fs.disk, fs.base + 8 * own[(f, TABLE)], 8);
    var i := FirstZero(buf);
    if i < PER_TABLE { TableWord(fs, own, len, reserved, f, i); }
    if len[f] - DIRECT < PER_TABLE { TableWord(fs, own, len, reserved, f, len[f] - DIRECT); }
  }

  /** Entry `i` of the table in block `t` set to `v`. */
  function Entered(fs: Fs, t: nat, i: nat, v: nat): (r: Fs)
    requires OnDisk(fs.disk, fs.base + 8 * t, 8) && i < PER_TABLE && v < WORD_MOD
    ensures |r.disk| == |fs.disk|
  {
    Put(fs, t, SetWord(Read(fs.disk, fs.base + 8 * t, 8), i, v))
  }

  lemma EnteredOwnSlots(fs: Fs, f: nat, t: nat, i: nat, v: nat, s: nat)
    requires f in fs.inodes && |fs.inodes[f]| == WORDS && s <= TABLE && fs.base > 0
    requires OnDisk(fs.disk, fs.base + 8 * t, 8) && i < PER_TABLE && v < WORD_MOD
    requires Slot(fs.disk, fs.inodes[f], TABLE) == fs.base + 8 * t
    ensures Slot(Entered(fs, t, i, v).disk, fs.inodes[f], s) ==
              if s == DIRECT + i then v else Slot(fs.disk, fs.inodes[f], s)
  {
    hide Word, SetWord, Write, Read;
    var buf := Read(fs.disk, fs.base + 8 * t, 8);
    ReadBack(fs.disk, fs.base + 8 * t, 8, SetWord(buf, i, v));
    if DIRECT <= s < TABLE { WordAfterSet(buf, i, v, s - DIRECT); }
  }

  lemma EnteredOtherSlots(fs: Fs, own: Slots, len: map<nat, nat>, reserved: set<nat>, f: nat, i: nat, v: nat, g: nat,
                          s: nat)
    requires Inv(fs, own, len, reserved) && (f, TABLE) in own
    requires OnDisk(fs.disk, fs.base + 8 * own[(f, TABLE)], 8) && i < PER_TABLE && v < WORD_MOD
    requires g in fs.inodes && g != f && |fs.inodes[g]| == WORDS && s <= TABLE
    ensures Slot(Entered(fs, own[(f, TABLE)], i, v).disk, fs.inodes[g], s) == Slot(fs.disk, fs.inodes[g], s)
  {
    hide SetWord, Slot;
    var t := own[(f, TABLE)];
    if (g, TABLE) in own {
      OwnedIsOnDisk(fs, own, reserved, (g, TABLE));
      PutElsewhere(fs, t, SetWord(Read(fs.disk, fs.base + 8 * t, 8), i, v), own[(g, TABLE)]);
    }
    SlotsDepend(fs, Entered(fs, t, i, v), own, g, s, reserved);
  }

  lemma EnteredSlot(fs: Fs, own: Slots, len: map<nat, nat>, reserved: set<nat>, f: nat, i: nat, q: nat, g: nat, s: nat)
    requires Inv(fs, own, len, reserved) && f in fs.inodes && len[f] > DIRECT && (f, TABLE) in own
    requires OnDisk(fs.disk, fs.base + 8 * own[(f, TABLE)], 8) && i < PER_TABLE && fs.base + 8 * q < WORD_MOD
    requires g in fs.inodes && |fs.inodes[g]| == WORDS && s <= TABLE
    ensures Slot(Entered(fs, own[(f, TABLE)], i, fs.base + 8 * q).disk, fs.inodes[g], s) ==
              if (g, s) == (f, DIRECT + i) then fs.base + 8 * q else Slot(fs.disk, fs.inodes[g], s)
  {
    hide Slot, Inv, Entered;
    TableIsOwned(fs, own, len, reserved, f);
    if g == f {
      EnteredOwnSlots(fs, f, own[(f, TABLE)], i, fs.base + 8 * q, s);
    } else {
      EnteredOtherSlots(fs, own, len, reserved, f, i, fs.base + 8 * q, g, s);
    }
  }

  lemma EnteredSlots(fs: Fs, own: Slots, len: map<nat, nat>, reserved: set<nat>, f: nat, i: nat, q: nat)
    requires Inv(fs, own, len, reserved) && f in fs.inodes && len[f] > DIRECT && (f, TABLE) in own
    requires OnDisk(fs.disk, fs.base + 8 * own[(f, TABLE)], 8) && i < PER_TABLE && fs.base + 8 * q < WORD_MOD
    ensures SlotsOk(Entered(fs, own[(f, TABLE)], i, fs.base + 8 * q), own[(f, DIRECT + i) := q])
  {
    var fs1 := Entered(fs, own[(f, TABLE)], i, fs.base + 8 * q);
    var own1 := own[(f, DIRECT + i) := q];
    assert SlotsOk(fs, own) && fs1.inodes == fs.inodes && fs1.base == fs.base;
    hide Slot, Inv, Entered;
    forall g, s: nat | g in fs1.inodes && |fs1.inodes[g]| == WORDS && s <= TABLE
      ensures Slot(fs1.disk, fs1.inodes[g], s) == if (g, s) in own1 then fs1.base + 8 * own1[(g, s)] else 0
    {
      EnteredSlot(fs, own, len, reserved, f, i, q, g, s);
    }
  }

  ghost function GrowTable(fs: Fs, own: Slots, len: map<nat, nat>, reserved: set<nat>, f: nat): Grown
    requires Inv(fs, own, len, reserved) && f in fs.inodes && len[f] > DIRECT
  {
    FirstZeroIsNext(fs, own, len, reserved, f);
    var i := FirstZero(Read(fs.disk, fs.base + 8 * own[(f, TABLE)], 8));
    if i == PER_TABLE then Full
    else
      match BlockBitmapAllocate(fs)
      case Full => Full
      case Grown(fs1, r) =>
        FoundFits(fs, own, reserved);
        Grown(Entered(fs1, own[(f, TABLE)], i, fs.base + r), fs.base + r)
  }

  lemma EnteredFrame(fs: Fs, own: Slots, reserved: set<nat>, f: nat, i: nat, v: nat, k: (nat, nat), q: nat,
                     bits1: seq<bool>)
    requires Geometry(fs, reserved) && OwnOk(fs.bits, own, reserved)
    requires (f, TABLE) in own && f in fs.inodes && |fs.inodes[f]| == WORDS && k !in own && |bits1| == |fs.bits|
    requires OnDisk(fs.disk, fs.base + 8 * own[(f, TABLE)], 8) && i < PER_TABLE && v < WORD_MOD
    ensures OnlyGrows(fs, own, f, Entered(fs, own[(f, TABLE)], i, v).(bits := bits1), own[k := q])
  {
    hide SetWord;
    var t := own[(f, TABLE)];
    forall l | l in own && l.1 != TABLE ensures SameBlock(fs, Entered(fs, t, i, v).(bits := bits1), own[l]) {
      OwnedIsOnDisk(fs, own, reserved, l);
      PutElsewhere(fs, t, SetWord(Read(fs.disk, fs.base + 8 * t, 8), i, v), own[l]);
    }
    FrontAfterPut(fs, t, SetWord(Read(fs.disk, fs.base + 8 * t, 8), i, v));
    hide OwnOk, Geometry, SameBlock;
  }

  lemma EnteredInv(fs: Fs, own: Slots, len: map<nat, nat>, reserved: set<nat>, f: nat, q: nat, bits1: seq<bool>)
    requires Inv(fs, own, len, reserved) && f in fs.inodes && f in len && DIRECT < len[f] < MAX_BLOCKS
    requires (f, TABLE) in own
    requires OnDisk(fs.disk, fs.base + 8 * own[(f, TABLE)], 8) && fs.base + 8 * q < WORD_MOD
    requires |bits1| == |fs.bits| && OwnOk(bits1, own[(f, len[f]) := q], reserved)
    ensures Inv(Entered(fs, own[(f, TABLE)], len[f] - DIRECT, fs.base + 8 * q).(bits := bits1),
                own[(f, len[f]) := q], len[f := len[f] + 1], reserved)
  {
    hide OwnOk, SlotsOk, ShapeOk, SetWord, Write;
    EnteredSlots(fs, own, len, reserved, f, len[f] - DIRECT, q);
    SlotsIgnoreBits(Entered(fs, own[(f, TABLE)], len[f] - DIRECT, fs.base + 8 * q), own[(f, len[f]) := q], bits1);
    RecordsStay(fs.inodes, own, len, f, 0);
    assert fs.inodes == fs.inodes[f := fs.inodes[f]];
    ShapeGrows(fs.inodes, own, len, f, fs.inodes[f], q);
  }

  lemma EnteredIgnoresBits(fs: Fs, t: nat, i: nat, v: nat, bits1: seq<bool>)
    requires OnDisk(fs.disk, fs.base + 8 * t, 8) && i < PER_TABLE && v < WORD_MOD
    ensures Entered(fs.(bits := bits1), t, i, v) == Entered(fs, t, i, v).(bits := bits1)
  {}

  lemma NextSlotIsFree(fs: Fs, own: Slots, len: map<nat, nat>, reserved: set<nat>, f: nat)
    requires Inv(fs, own, len, reserved) && f in fs.inodes
    ensures f in len && len[f] <= MAX_BLOCKS && (len[f] < MAX_BLOCKS ==> (f, len[f]) !in own) && |fs.inodes[f]| == WORDS
  {
    assert !InUse(len[f], len[f]) || len[f] == MAX_BLOCKS;
  }

  lemma TableGrows(fs: Fs, own: Slots, len: map<nat, nat>, reserved: set<nat>, f: nat)
    requires Inv(fs, own, len, reserved) && f in fs.inodes && len[f] > DIRECT
    requires GrowTable(fs, own, len, reserved, f).Grown?
    ensures len[f] < MAX_BLOCKS && FirstFit(fs.bits, 8) != -1
    ensures var g := GrowTable(fs, own, len, reserved, f);
            var q := FirstFit(fs.bits, 8) / 8;
            g.at == fs.base + 8 * q &&
            GrownBy(fs, own, len, f, q, g.fs, own[(f, len[f]) := q], len[f := len[f] + 1], reserved)
  {
    hide OwnOk, SlotsOk, ShapeOk, Geometry, OnlyGrows, SetWord, SetRange, FirstFit, FirstZero, Owned, Entered, Slot;
    NextSlotIsFree(fs, own, len, reserved, f);
    var n := len[f];
    var q := FirstFit(fs.bits, 8) / 8;
    FirstZeroIsNext(fs, own, len, reserved, f);
    FoundIsFree(fs.bits, own, reserved);
    FoundFits(fs, own, reserved);
    var bits1 := SetRange(fs.bits, 8 * q, 8, true);
    AllocatedIsOwned(fs.bits, own, reserved, (f, n), q);
    EnteredIgnoresBits(fs, own[(f, TABLE)], n - DIRECT, fs.base + 8 * q, bits1);
    EnteredInv(fs, own, len, reserved, f, q, bits1);
    EnteredFrame(fs, own, reserved, f, n - DIRECT, fs.base + 8 * q, (f, n), q, bits1);
  }

  // ---------- AllocateOneBlock ----------

  /** AllocateOneBlock for the slot after the last one in use. */
  ghost function Grow(fs: Fs, own: Slots, len: map<nat, nat>, reserved: set<nat>, f: nat): Grown
    requires Inv(fs, own, len, reserved) && f in fs.inodes
  {
    NextSlotIsFree(fs, own, len, reserved, f);
    if len[f] < DIRECT then GrowDirect(fs, f, len[f])
    else if len[f] == DIRECT then GrowNewTable(fs, own, len, reserved, f)
    else GrowTable(fs, own, len, reserved, f)
  }

  /** Who owns what after it. */
  ghost function OwnAfter(fs: Fs, own: Slots, f: nat, n: nat): Slots
    requires BlockBitmapAllocate(fs).Grown? && (n == DIRECT ==> BlockBitmapAllocate(BlockBitmapAllocate(fs).fs).Grown?)
  {
    var g := BlockBitmapAllocate(fs);
    if n == DIRECT then own[(f, TABLE) := g.at / 8][(f, DIRECT) := BlockBitmapAllocate(g.fs).at / 8]
    else own[(f, n) := g.at / 8]
  }

  lemma GrowsByOne(fs: Fs, own: Slots, len: map<nat, nat>, reserved: set<nat>, f: nat)
    requires Inv(fs, own, len, reserved) && f in fs.inodes && Grow(fs, own, len, reserved, f).Grown?
    ensures f in len && len[f] < MAX_BLOCKS
    ensures BlockBitmapAllocate(fs).Grown?
    ensures len[f] == DIRECT ==> BlockBitmapAllocate(BlockBitmapAllocate(fs).fs).Grown?
    ensures var g, own1 := Grow(fs, own, len, reserved, f), OwnAfter(fs, own, f, len[f]);
            (f, len[f]) in own1 && g.at == fs.base + 8 * own1[(f, len[f])] &&
            GrownBy(fs, own, len, f, own1[(f, len[f])], g.fs, own1, len[f := len[f] + 1], reserved)
  {
    NextSlotIsFree(fs, own, len, reserved, f);
    hide Inv, GrownBy, GrowDirect, GrowNewTable, GrowTable, FirstFit;
    if len[f] < DIRECT {
      DirectGrows(fs, own, len, reserved, f);
      GrowDirectFinds(fs, f, len[f]);
    } else if len[f] == DIRECT {
      NewTableGrows(fs, own, len, reserved, f);
    } else {
      TableGrows(fs, own, len, reserved, f);
    }
  }

  lemma GrowDirectFinds(fs: Fs, f: nat, idx: nat)
    requires f in fs.inodes && |fs.inodes[f]| == WORDS && idx < DIRECT && GrowDirect(fs, f, idx).Grown?
    ensures FirstFit(fs.bits, 8) != -1
  {}

  // ---------- Running out of blocks ----------

  /** Fewer than `k` blocks are free, for k = 1 or 2. */
  ghost predicate FewFree(bits: seq<bool>, k: nat)
  {
    if k <= 1 then forall q: nat :: 8 * q + 8 <= |bits| ==> Taken(bits, q)
    else forall q: nat, r: nat ::
           8 * q + 8 <= |bits| && 8 * r + 8 <= |bits| && !Taken(bits, q) && !Taken(bits, r) ==> q == r
  }

  lemma FreeIsClear(bits: seq<bool>, q: nat)
    requires TopBitRules(bits) && 8 * q + 8 <= |bits| && !Taken(bits, q)
    ensures ClearRun(bits, 8 * q, 8)
  {
    assert forall k :: 8 * q <= k < 8 * q + 8 ==> k / 8 * 8 + 7 == 8 * q + 7;
  }

  lemma NoneFound(bits: seq<bool>)
    requires TopBitRules(bits)
    ensures FirstFit(bits, 8) == -1 <==> FewFree(bits, 1)
  {
    if FirstFit(bits, 8) == -1 {
      forall q: nat | 8 * q + 8 <= |bits| ensures Taken(bits, q) {
        if !Taken(bits, q) { FreeIsClear(bits, q); }
      }
    } else {
      BlocksAreAligned(bits);
      assert !Taken(bits, FirstFit(bits, 8) / 8);
    }
  }

  lemma NoTwoFound(fs: Fs)
    requires TopBitRules(fs.bits)
    ensures FewFree(fs.bits, 2) <==>
              BlockBitmapAllocate(fs).Full? || BlockBitmapAllocate(BlockBitmapAllocate(fs).fs).Full?
  {
    NoneFound(fs.bits);
    if BlockBitmapAllocate(fs).Grown? {
      BlocksAreAligned(fs.bits);
      var q := FirstFit(fs.bits, 8) / 8;
      TakenAfter(fs.bits, q, true);
      assert !Taken(fs.bits, q);
      NoneFound(BlockBitmapAllocate(fs).fs.bits);
      hide Taken, SetRange, FirstFit, TopBitRules;
    }
  }

  /** A file cannot grow exactly when it has 1036 blocks, or too few blocks are free: one is needed, and
      one more for the table. */
  lemma CannotGrow(fs: Fs, own: Slots, len: map<nat, nat>, reserved: set<nat>, f: nat)
    requires Inv(fs, own, len, reserved) && f in fs.inodes && f in len
    ensures Grow(fs, own, len, reserved, f).Full? <==>
              len[f] == MAX_BLOCKS || FewFree(fs.bits, if len[f] == DIRECT then 2 else 1)
  {
    NextSlotIsFree(fs, own, len, reserved, f);
    NoneFound(fs.bits);
    NoTwoFound(fs);
    if len[f] > DIRECT { FirstZeroIsNext(fs, own, len, reserved, f); }
    hide FewFree, FirstFit, FirstZero, SetRange, OwnOk, SlotsOk, ShapeOk, Geometry, NewTable, Entered, Slot;
  }

  // ---------- Contents ----------

  /** Byte `p` of a file, wherever its block lies. */
  ghost function ByteAt(fs: Fs, own: Slots, f: nat, p: nat): byte
    requires (f, p / BLOCK) in own && OnDisk(fs.disk, fs.base + 8 * own[(f, p / BLOCK)], 8)
  {
    Data(fs, own, f, p / BLOCK)[p % BLOCK]
  }

  lemma BytesAreThere(fs: Fs, own: Slots, len: map<nat, nat>, reserved: set<nat>, f: nat)
    requires Inv(fs, own, len, reserved) && f in fs.inodes
    ensures f in len
    ensures forall p: nat :: p < BLOCK * len[f] ==>
              (f, p / BLOCK) in own && OnDisk(fs.disk, fs.base + 8 * own[(f, p / BLOCK)], 8)
  {
    forall p: nat | p < BLOCK * len[f]
      ensures (f, p / BLOCK) in own && OnDisk(fs.disk, fs.base + 8 * own[(f, p / BLOCK)], 8)
    {
      assert InUse(len[f], p / BLOCK);
      OwnedIsOnDisk(fs, own, reserved, (f, p / BLOCK));
    }
  }

  /** The first `size` bytes of a file. */
  ghost function Contents(fs: Fs, own: Slots, len: map<nat, nat>, reserved: set<nat>, f: nat, size: nat): (r: seq<byte>)
    requires Inv(fs, own, len, reserved) && f in fs.inodes && f in len && size <= BLOCK * len[f]
    ensures |r| == size
  {
    BytesAreThere(fs, own, len, reserved, f);
    seq(size, p requires 0 <= p < size && f in len && size <= BLOCK * len[f] &&
                (forall p: nat :: p < BLOCK * len[f] ==>
                   (f, p / BLOCK) in own && OnDisk(fs.disk, fs.base + 8 * own[(f, p / BLOCK)], 8))
              => ByteAt(fs, own, f, p))
  }

  // ---------- Blocks for others ----------

  lemma ReservedIsTaken(bits: seq<bool>, own: Slots, reserved: set<nat>, q: nat)
    requires OwnOk(bits, own, reserved) && 8 * q + 8 <= |bits| && q !in reserved && !Owned(own, q)
    ensures OwnOk(SetRange(bits, 8 * q, 8, true), own, reserved + {q})
  {
    TakenAfter(bits, q, true);
    hide TopBitRules, Taken, SetRange;
    NobodyOwns(own, q);
  }

  lemma NobodyOwns(own: Slots, q: nat)
    requires !Owned(own, q)
    ensures forall k :: k in own ==> own[k] != q
  {}

  /** A block taken for a directory belongs to no file and was reserved for nobody; and with it reserved the
      invariant holds on. */
  lemma TakingForOthers(fs: Fs, own: Slots, len: map<nat, nat>, reserved: set<nat>)
    requires Inv(fs, own, len, reserved) && BlockBitmapAllocate(fs).Grown?
    ensures var g := BlockBitmapAllocate(fs);
            var q := g.at / 8;
            g.at == 8 * q && q !in reserved && !Owned(own, q) && OnDisk(g.fs.disk, g.fs.base + 8 * q, 8) &&
            Inv(g.fs, own, len, reserved + {q})
  {
    FoundIsFree(fs.bits, own, reserved);
    FoundFits(fs, own, reserved);
    ReservedIsTaken(fs.bits, own, reserved, BlockBitmapAllocate(fs).at / 8);
    SlotsIgnoreBits(fs, own, BlockBitmapAllocate(fs).fs.bits);
    hide OwnOk, SlotsOk, ShapeOk, FirstFit, SetRange;
  }
}
