/** Reading and writing files (fs/file.c) and giving a file's blocks back (fs/inode.c). */
module File {
  import opened Basics
  import opened Bitmap
  import opened Disk
  import opened InodeTable
  import opened Blocks

  /** `c` with the bytes from `pos` on replaced by `b`, and extended if `b` reaches past its end. */
  ghost function Splice(c: seq<byte>, pos: nat, b: seq<byte>): (r: seq<byte>)
    requires pos <= |c|
    ensures |r| == Max(|c|, pos + |b|)
    ensures forall p :: 0 <= p < |r| ==> r[p] == if pos <= p < pos + |b| then b[p - pos] else c[p]
  {
    c[..pos] + b + (if pos + |b| <= |c| then c[pos + |b|..] else [])
  }

  // ---------- The state in the middle of a write ----------

  /** Every file but `f` is what it was. */
  ghost predicate OthersSame(fs0: Fs, own0: Slots, len0: map<nat, nat>, fs: Fs, own: Slots, len: map<nat, nat>, f: nat)
  {
    fs.base == fs0.base && fs.table == fs0.table && |fs.disk| == |fs0.disk| && |fs.bits| == |fs0.bits| &&
    fs.inodes.Keys == fs0.inodes.Keys && len.Keys == len0.Keys &&
    (forall g :: g in fs0.inodes && g != f ==> fs.inodes[g] == fs0.inodes[g]) &&
    (forall g :: g in len0 && g != f ==> len[g] == len0[g]) &&
    (forall k :: k in own0 ==> k in own && own[k] == own0[k]) &&
    (forall k :: k in own0 && k.0 != f && k.1 != TABLE ==> SameBlock(fs0, fs, own0[k])) &&
    SameFront(fs0, fs)
  }

  /** Byte `p` of file `f`, if it is there. */
  ghost predicate Holds(fs: Fs, own: Slots, f: nat, p: nat, v: byte)
  {
    (f, p / BLOCK) in own && OnDisk(fs.disk, fs.base + 8 * own[(f, p / BLOCK)], 8) && ByteAt(fs, own, f, p) == v
  }

  /** The bytes of `old` from `pos` to `cur` have been replaced by those of `data`. */
  ghost predicate Written(fs: Fs, own: Slots, f: nat, old1: seq<byte>, pos: nat, cur: nat, data: seq<byte>)
    requires pos <= |old1| && pos <= cur <= pos + |data|
  {
    var want := Splice(old1, pos, data[..cur - pos]);
    forall p: nat :: p < |want| ==> Holds(fs, own, f, p, want[p])
  }

  lemma GrowingKeepsBytes(fs: Fs, own: Slots, f: nat, fs1: Fs, own1: Slots, g: nat, p: nat, v: byte)
    requires OnlyGrows(fs, own, f, fs1, own1) && Holds(fs, own, g, p, v) && p < BLOCK * MAX_BLOCKS
    ensures Holds(fs1, own1, g, p, v)
  {
    assert SameBlock(fs, fs1, own[(g, p / BLOCK)]);
  }

  /** Taking a block loses nothing that was written. */
  lemma GrowingKeepsWritten(fs: Fs, own: Slots, f: nat, fs1: Fs, own1: Slots, old1: seq<byte>, pos: nat, cur: nat,
                            data: seq<byte>)
    requires pos <= |old1| && pos <= cur <= pos + |data| && Max(|old1|, cur) <= BLOCK * MAX_BLOCKS
    requires OnlyGrows(fs, own, f, fs1, own1) && Written(fs, own, f, old1, pos, cur, data)
    ensures Written(fs1, own1, f, old1, pos, cur, data)
  {
    var want := Splice(old1, pos, data[..cur - pos]);
    forall p: nat | p < |want| ensures Holds(fs1, own1, f, p, want[p]) {
      GrowingKeepsBytes(fs, own, f, fs1, own1, f, p, want[p]);
    }
  }

  /** Writing the block in slot `s` of `f`: other bytes stay, bytes of the block become those of `b`. */
  lemma PutByte(fs: Fs, own: Slots, len: map<nat, nat>, reserved: set<nat>, f: nat, s: nat, b: seq<byte>, g: nat,
                p: nat, v: byte)
    requires Inv(fs, own, len, reserved) && (f, s) in own && |b| == BLOCK
    requires OnDisk(fs.disk, fs.base + 8 * own[(f, s)], 8)
    requires if (g, p / BLOCK) == (f, s) then b[p % BLOCK] == v else Holds(fs, own, g, p, v)
    ensures Holds(Put(fs, own[(f, s)], b), own, g, p, v)
  {
    if (g, p / BLOCK) == (f, s) {
      ReadBack(fs.disk, fs.base + 8 * own[(f, s)], 8, b);
    } else {
      PutElsewhere(fs, own[(f, s)], b, own[(g, p / BLOCK)]);
    }
  }

  /** One round of the loop of file_write: the chunk goes to offset `off` of the block of `cur`. The rest
      of the buffer is the block itself, unless the block lies behind the old end of the file. */
  lemma ChunkIsWritten(fs: Fs, own: Slots, len: map<nat, nat>, reserved: set<nat>, f: nat, b: seq<byte>,
                       old1: seq<byte>, pos: nat, cur: nat, m: nat, data: seq<byte>)
    requires Inv(fs, own, len, reserved) && (f, cur / BLOCK) in own && |b| == BLOCK
    requires OnDisk(fs.disk, fs.base + 8 * own[(f, cur / BLOCK)], 8)
    requires pos <= |old1| && pos <= cur && cur + m <= pos + |data| && cur % BLOCK + m <= BLOCK
    requires Written(fs, own, f, old1, pos, cur, data)
    requires b[cur % BLOCK..cur % BLOCK + m] == data[cur - pos..cur - pos + m]
    requires forall p: nat :: p / BLOCK == cur / BLOCK && p < Max(|old1|, cur) && !(cur <= p < cur + m) ==>
               b[p % BLOCK] == ByteAt(fs, own, f, p)
    ensures Written(Put(fs, own[(f, cur / BLOCK)], b), own, f, old1, pos, cur + m, data)
  {
    var want0 := Splice(old1, pos, data[..cur - pos]);
    var want := Splice(old1, pos, data[..cur + m - pos]);
    var s := cur / BLOCK;
    forall p: nat | p < |want| ensures Holds(Put(fs, own[(f, s)], b), own, f, p, want[p]) {
      if !(cur <= p < cur + m) {
        assert p < |want0| && want[p] == want0[p];
        assert Holds(fs, own, f, p, want0[p]);
      } else {
        ChunkIndex(cur, m, p);
        assert b[p % BLOCK] == b[cur % BLOCK..cur % BLOCK + m][p - cur] == data[p - pos];
      }
      PutByte(fs, own, len, reserved, f, s, b, f, p, want[p]);
    }
  }

  /** How far a write that began in state `fs0` has come. */
  ghost predicate Progress(fs0: Fs, own0: Slots, len0: map<nat, nat>, fs: Fs, own: Slots, len: map<nat, nat>,
                           f: nat, old1: seq<byte>, pos: nat, cur: nat, data: seq<byte>)
  {
    pos <= |old1| && pos <= cur <= pos + |data| && cur <= BLOCK * MAX_BLOCKS && |old1| <= BLOCK * MAX_BLOCKS &&
    OthersSame(fs0, own0, len0, fs, own, len, f) && Written(fs, own, f, old1, pos, cur, data) &&
    (f in fs.inodes && f in fs0.inodes && |fs.inodes[f]| == |fs0.inodes[f]| == WORDS &&
     forall i :: 0 <= i < SECTORS ==> fs.inodes[f][i] == fs0.inodes[f][i])
  }

  lemma GrowingKeepsOthers(fs0: Fs, own0: Slots, len0: map<nat, nat>, fs: Fs, own: Slots, len: map<nat, nat>,
                           f: nat, fs1: Fs, own1: Slots)
    requires OthersSame(fs0, own0, len0, fs, own, len, f) && OnlyGrows(fs, own, f, fs1, own1) && f in len
    ensures OthersSame(fs0, own0, len0, fs1, own1, len[f := len[f] + 1], f)
  {
    forall k | k in own0 && k.0 != f && k.1 != TABLE ensures SameBlock(fs0, fs1, own0[k]) {
      assert SameBlock(fs0, fs, own0[k]) && SameBlock(fs, fs1, own[k]);
    }
  }

  lemma GrowingKeepsProgress(fs0: Fs, own0: Slots, len0: map<nat, nat>, fs: Fs, own: Slots, len: map<nat, nat>,
                             f: nat, old1: seq<byte>, pos: nat, cur: nat, data: seq<byte>,
                             fs1: Fs, own1: Slots, len1: map<nat, nat>)
    requires Progress(fs0, own0, len0, fs, own, len, f, old1, pos, cur, data)
    requires OnlyGrows(fs, own, f, fs1, own1) && f in len && len1 == len[f := len[f] + 1]
    ensures Progress(fs0, own0, len0, fs1, own1, len1, f, old1, pos, cur, data)
  {
    GrowingKeepsOthers(fs0, own0, len0, fs, own, len, f, fs1, own1);
    GrowingKeepsWritten(fs, own, f, fs1, own1, old1, pos, cur, data);
    hide OthersSame, Written;
  }

  lemma PuttingKeepsOthers(fs0: Fs, own0: Slots, len0: map<nat, nat>, fs: Fs, own: Slots, len: map<nat, nat>,
                           reserved: set<nat>, f: nat, s: nat, b: seq<byte>)
    requires OthersSame(fs0, own0, len0, fs, own, len, f) && OwnOk(fs.bits, own, reserved) && (f, s) in own
    requires |b| == BLOCK
    requires OnDisk(fs.disk, fs.base + 8 * own[(f, s)], 8)
    ensures OthersSame(fs0, own0, len0, Put(fs, own[(f, s)], b), own, len, f)
  {
    forall k | k in own0 && k.0 != f && k.1 != TABLE ensures SameBlock(fs0, Put(fs, own[(f, s)], b), own0[k]) {
      assert SameBlock(fs0, fs, own0[k]);
      if OnDisk(fs.disk, fs.base + 8 * own[k], 8) { PutElsewhere(fs, own[(f, s)], b, own[k]); }
    }
    FrontAfterPut(fs, own[(f, s)], b);
  }

  lemma PuttingKeepsProgress(fs0: Fs, own0: Slots, len0: map<nat, nat>, fs: Fs, own: Slots, len: map<nat, nat>,
                             reserved: set<nat>, f: nat, old1: seq<byte>, pos: nat, cur: nat, data: seq<byte>,
                             b: seq<byte>, m: nat)
    requires Inv(fs, own, len, reserved) && Progress(fs0, own0, len0, fs, own, len, f, old1, pos, cur, data)
    requires (f, cur / BLOCK) in own && cur / BLOCK < MAX_BLOCKS && |b| == BLOCK
    requires OnDisk(fs.disk, fs.base + 8 * own[(f, cur / BLOCK)], 8)
    requires cur + m <= pos + |data| && cur % BLOCK + m <= BLOCK
    requires b[cur % BLOCK..cur % BLOCK + m] == data[cur - pos..cur - pos + m]
    requires forall p: nat :: p / BLOCK == cur / BLOCK && p < Max(|old1|, cur) && !(cur <= p < cur + m) ==>
               b[p % BLOCK] == ByteAt(fs, own, f, p)
    ensures Inv(Put(fs, own[(f, cur / BLOCK)], b), own, len, reserved)
    ensures Progress(fs0, own0, len0, Put(fs, own[(f, cur / BLOCK)], b), own, len, f, old1, pos, cur + m, data)
  {
    PuttingKeepsOthers(fs0, own0, len0, fs, own, len, reserved, f, cur / BLOCK, b);
    ChunkIsWritten(fs, own, len, reserved, f, b, old1, pos, cur, m, data);
    assert forall g :: (g, TABLE) in own ==> own[(g, TABLE)] != own[(f, cur / BLOCK)];
    PutKeepsSlots(fs, own, len, reserved, own[(f, cur / BLOCK)], b);
    hide OthersSame, Written, Inv, ByteAt, Write;
  }

  lemma ChunkIndex(cur: nat, m: nat, p: nat)
    requires cur % BLOCK + m <= BLOCK && cur <= p < cur + m
    ensures p / BLOCK == cur / BLOCK && p % BLOCK == cur % BLOCK + (p - cur)
  {}

  /** The buffer of one round: the chunk over the block, or over old bytes if the block lies behind the old
      end of the file. */
  lemma RoundKeepsProgress(fs0: Fs, own0: Slots, len0: map<nat, nat>, fs: Fs, own: Slots, len: map<nat, nat>,
                           reserved: set<nat>, f: nat, old1: seq<byte>, pos: nat, cur: nat, data: seq<byte>, m: nat,
                           under: seq<byte>, b: seq<byte>)
    requires Inv(fs, own, len, reserved) && Progress(fs0, own0, len0, fs, own, len, f, old1, pos, cur, data)
    requires (f, cur / BLOCK) in own && cur / BLOCK < MAX_BLOCKS
    requires OnDisk(fs.disk, fs.base + 8 * own[(f, cur / BLOCK)], 8)
    requires cur + m <= pos + |data| && cur % BLOCK + m <= BLOCK && |under| == BLOCK
    requires if cur / BLOCK <= |old1| / BLOCK then under == Data(fs, own, f, cur / BLOCK) else cur % BLOCK == 0
    requires b == Overlay(under, cur % BLOCK, data[cur - pos..cur - pos + m])
    ensures Inv(Put(fs, own[(f, cur / BLOCK)], b), own, len, reserved)
    ensures Progress(fs0, own0, len0, Put(fs, own[(f, cur / BLOCK)], b), own, len, f, old1, pos, cur + m, data)
  {
    assert b[cur % BLOCK..cur % BLOCK + m] == data[cur - pos..cur - pos + m];
    forall p: nat | p / BLOCK == cur / BLOCK && p < Max(|old1|, cur) && !(cur <= p < cur + m)
      ensures b[p % BLOCK] == ByteAt(fs, own, f, p)
    {
      if cur / BLOCK <= |old1| / BLOCK { OutsideChunk(cur, m, p); }
    }
    hide Inv, Progress, Overlay, ByteAt, Data;
    PuttingKeepsProgress(fs0, own0, len0, fs, own, len, reserved, f, old1, pos, cur, data, b, m);
  }

  lemma OutsideChunk(cur: nat, m: nat, p: nat)
    requires p / BLOCK == cur / BLOCK && !(cur <= p < cur + m)
    ensures !(cur % BLOCK <= p % BLOCK < cur % BLOCK + m)
  {}

  /** Between two rounds. */
  ghost predicate Mid(fs0: Fs, own0: Slots, len0: map<nat, nat>, fs: Fs, own: Slots, len: map<nat, nat>,
                      reserved: set<nat>, f: nat, old1: seq<byte>, pos: nat, cur: nat, data: seq<byte>)
  {
    Inv(fs, own, len, reserved) && Progress(fs0, own0, len0, fs, own, len, f, old1, pos, cur, data) &&
    f in len && len[f] == BlockCount(Max(|old1|, cur))
  }

  /** The block at `index` is the one that holds position `cur`, and may have just been added to the file. */
  ghost predicate Ready(fs0: Fs, own0: Slots, len0: map<nat, nat>, fs: Fs, own: Slots, len: map<nat, nat>,
                        reserved: set<nat>, f: nat, old1: seq<byte>, pos: nat, cur: nat, data: seq<byte>, index: nat)
  {
    Inv(fs, own, len, reserved) && Progress(fs0, own0, len0, fs, own, len, f, old1, pos, cur, data) &&
    cur / BLOCK < MAX_BLOCKS && (f, cur / BLOCK) in own && index == fs.base + 8 * own[(f, cur / BLOCK)] &&
    OnDisk(fs.disk, index, 8) &&
    f in len && cur / BLOCK < len[f] &&
    (len[f] == BlockCount(Max(|old1|, cur)) ||
     (len[f] == cur / BLOCK + 1 && BlockCount(Max(|old1|, cur)) == cur / BLOCK))
  }

  /** Where a write began: the addresses were collected in this state. */
  ghost predicate Start(fs0: Fs, own0: Slots, len0: map<nat, nat>, reserved: set<nat>, f: nat, old1: seq<byte>)
  {
    Inv(fs0, own0, len0, reserved) && f in fs0.inodes && |fs0.inodes[f]| == WORDS && f in len0 &&
    len0[f] == BlockCount(|old1|)
  }

  lemma SlotOf(fs: Fs, own: Slots, len: map<nat, nat>, reserved: set<nat>, f: nat, s: nat)
    requires Inv(fs, own, len, reserved) && f in fs.inodes && |fs.inodes[f]| == WORDS && s < MAX_BLOCKS
    ensures f in len && ((f, s) in own <==> s < len[f])
    ensures Slot(fs.disk, fs.inodes[f], s) == if (f, s) in own then fs.base + 8 * own[(f, s)] else 0
    ensures (f, s) in own ==> OnDisk(fs.disk, fs.base + 8 * own[(f, s)], 8) && fs.base + 8 * own[(f, s)] > 0
  {
    hide Slot;
    assert (f, s) in own <==> InUse(len[f], s);
    if (f, s) in own { OwnedIsOnDisk(fs, own, reserved, (f, s)); }
  }

  lemma Counting(n: nat, pos: nat, cur: nat, idx0: nat)
    requires pos <= n && pos <= cur && idx0 == cur / BLOCK && (cur % BLOCK == 0 || cur == pos)
    ensures idx0 >= BlockCount(n) ==> BlockCount(Max(n, cur)) == idx0 && cur == BLOCK * idx0
  {}

  lemma CountingOn(n: nat, cur: nat, m: nat, len: nat)
    requires 0 < m && cur % BLOCK + m <= BLOCK
    requires len == BlockCount(Max(n, cur)) || (len == cur / BLOCK + 1 && BlockCount(Max(n, cur)) == cur / BLOCK)
    requires cur / BLOCK < len
    ensures len == BlockCount(Max(n, cur + m))
  {}

  /** The address collected at the start tells whether the slot is in use now. */
  lemma RoundSlot(fs0: Fs, own0: Slots, len0: map<nat, nat>, fs: Fs, own: Slots, len: map<nat, nat>, reserved: set<nat>,
                  f: nat, old1: seq<byte>, pos: nat, cur: nat, data: seq<byte>, idx0: nat)
    requires Start(fs0, own0, len0, reserved, f, old1)
    requires Mid(fs0, own0, len0, fs, own, len, reserved, f, old1, pos, cur, data)
    requires idx0 == cur / BLOCK && idx0 < MAX_BLOCKS && (cur % BLOCK == 0 || cur == pos)
    ensures var a := Slot(fs0.disk, fs0.inodes[f], idx0);
            if a != 0 then
              (f, idx0) in own && idx0 < len[f] && a == fs.base + 8 * own[(f, idx0)] && OnDisk(fs.disk, a, 8)
            else f in fs.inodes && len[f] == idx0 && cur == BLOCK * idx0
  {
    SlotOf(fs0, own0, len0, reserved, f, idx0);
    SlotOf(fs, own, len, reserved, f, idx0);
    Counting(|old1|, pos, cur, idx0);
    hide Inv, Slot, Written;
  }

  // ---------- The end of a write ----------

  /** Every file with its contents. */
  ghost function Files(fs: Fs, own: Slots, len: map<nat, nat>, reserved: set<nat>): (r: map<nat, seq<byte>>)
    requires Inv(fs, own, len, reserved) && AtRest(fs.inodes, len)
    ensures r.Keys == fs.inodes.Keys
  {
    map f | f in fs.inodes :: ContentsAtRest(fs, own, len, reserved, f)
  }

  ghost function ContentsAtRest(fs: Fs, own: Slots, len: map<nat, nat>, reserved: set<nat>, f: nat): (r: seq<byte>)
    requires Inv(fs, own, len, reserved) && AtRest(fs.inodes, len) && f in fs.inodes
    ensures |fs.inodes[f]| == WORDS && |r| == fs.inodes[f][SIZE]
    ensures forall p: nat :: p < |r| ==> Holds(fs, own, f, p, r[p])
  {
    BytesAreThere(fs, own, len, reserved, f);
    Contents(fs, own, len, reserved, f, fs.inodes[f][SIZE])
  }

  /** The inode with its new size, written to the inode table. */
  function Closed(fs: Fs, f: nat, size: nat): (r: Fs)
    requires f in fs.inodes && IsRecord(fs.inodes[f]) && size < WORD_MOD && HasTable(fs.disk, fs.table)
    requires f < MAX_INODES
    ensures |r.disk| == |fs.disk|
  {
    var w: seq<nat> := fs.inodes[f][SIZE := size];
    fs.(inodes := fs.inodes[f := w], disk := InodeTable.Written(fs.disk, fs.table, f, w))
  }

  lemma ClosedBlocks(fs: Fs, f: nat, size: nat, q: nat)
    requires f in fs.inodes && IsRecord(fs.inodes[f]) && size < WORD_MOD && HasTable(fs.disk, fs.table)
    requires f < MAX_INODES
    requires fs.table + TABLE_SECTORS <= fs.base && OnDisk(fs.disk, fs.base + 8 * q, 8)
    ensures Read(Closed(fs, f, size).disk, fs.base + 8 * q, 8) == Read(fs.disk, fs.base + 8 * q, 8)
  {
    WritesItsRecordOnly(fs.disk, fs.table, f, fs.inodes[f][SIZE := size]);
    hide InodeTable.Written, Image;
  }

  lemma ClosedSlot(fs: Fs, own: Slots, len: map<nat, nat>, reserved: set<nat>, f: nat, size: nat, g: nat, s: nat)
    requires Inv(fs, own, len, reserved) && f in fs.inodes && size < WORD_MOD
    requires IsRecord(fs.inodes[f]) && f < MAX_INODES
    requires g in fs.inodes && |fs.inodes[g]| == WORDS && s <= TABLE
    ensures g in Closed(fs, f, size).inodes && |Closed(fs, f, size).inodes[g]| == WORDS
    ensures Slot(Closed(fs, f, size).disk, Closed(fs, f, size).inodes[g], s) == Slot(fs.disk, fs.inodes[g], s)
  {
    hide InodeTable.Written, Read, Word;
    var fs1 := Closed(fs, f, size);
    assert Slot(fs.disk, fs.inodes[g], TABLE) == if (g, TABLE) in own then fs.base + 8 * own[(g, TABLE)] else 0;
    assert forall i :: 0 <= i < 15 ==> Pointer(fs1.inodes[g], i) == Pointer(fs.inodes[g], i);
    if (g, TABLE) in own {
      OwnedIsOnDisk(fs, own, reserved, (g, TABLE));
      ClosedBlocks(fs, f, size, own[(g, TABLE)]);
    }
  }

  lemma ClosedSlots(fs: Fs, own: Slots, len: map<nat, nat>, reserved: set<nat>, f: nat, size: nat)
    requires Inv(fs, own, len, reserved) && f in fs.inodes && size < WORD_MOD
    requires IsRecord(fs.inodes[f]) && f < MAX_INODES
    ensures SlotsOk(Closed(fs, f, size), own)
  {
    var fs1 := Closed(fs, f, size);
    assert SlotsOk(fs, own) && fs1.inodes.Keys == fs.inodes.Keys && fs1.base == fs.base;
    hide Inv, Slot;
    forall g, s: nat | g in fs1.inodes && |fs1.inodes[g]| == WORDS && s <= TABLE
      ensures Slot(fs1.disk, fs1.inodes[g], s) == if (g, s) in own then fs1.base + 8 * own[(g, s)] else 0
    {
      assert |fs.inodes[g]| == WORDS;
      ClosedSlot(fs, own, len, reserved, f, size, g, s);
    }
  }

  lemma ClosingKeeps(fs: Fs, own: Slots, len: map<nat, nat>, reserved: set<nat>, f: nat, size: nat)
    requires Inv(fs, own, len, reserved) && f in fs.inodes && size < WORD_MOD
    ensures IsRecord(fs.inodes[f]) && f < MAX_INODES
    ensures Inv(Closed(fs, f, size), own, len, reserved)
    ensures Stored(Closed(fs, f, size).disk, fs.table, f) == Closed(fs, f, size).inodes[f]
  {
    ClosedSlots(fs, own, len, reserved, f, size);
    RoundTrip(fs.disk, fs.table, f, fs.inodes[f][SIZE := size], f);
    hide InodeTable.Written, SlotsOk, OwnOk, Stored;
  }

  lemma ClosingKeepsByte(fs: Fs, own: Slots, f: nat, size: nat, g: nat, p: nat, v: byte)
    requires f in fs.inodes && IsRecord(fs.inodes[f]) && size < WORD_MOD && HasTable(fs.disk, fs.table)
    requires f < MAX_INODES
    requires fs.table + TABLE_SECTORS <= fs.base && Holds(fs, own, g, p, v)
    ensures Holds(Closed(fs, f, size), own, g, p, v)
  {
    ClosedBlocks(fs, f, size, own[(g, p / BLOCK)]);
    hide InodeTable.Written;
  }

  lemma OthersHold(fs0: Fs, own0: Slots, len0: map<nat, nat>, fs: Fs, own: Slots, len: map<nat, nat>, f: nat, g: nat,
                   p: nat, v: byte)
    requires OthersSame(fs0, own0, len0, fs, own, len, f) && g != f && p < BLOCK * MAX_BLOCKS
    requires Holds(fs0, own0, g, p, v)
    ensures Holds(fs, own, g, p, v)
  {
    assert SameBlock(fs0, fs, own0[(g, p / BLOCK)]);
  }

  /** `r` is what a file holds if each of its bytes is there. */
  lemma SameContents(fs: Fs, own: Slots, len: map<nat, nat>, reserved: set<nat>, f: nat, r: seq<byte>)
    requires Inv(fs, own, len, reserved) && AtRest(fs.inodes, len) && f in fs.inodes && |fs.inodes[f]| == WORDS
    requires |r| == fs.inodes[f][SIZE] && forall p: nat :: p < |r| ==> Holds(fs, own, f, p, r[p])
    ensures ContentsAtRest(fs, own, len, reserved, f) == r
  {
    var c := ContentsAtRest(fs, own, len, reserved, f);
    forall p: nat | p < |r| ensures c[p] == r[p] {
      assert Holds(fs, own, f, p, c[p]) && Holds(fs, own, f, p, r[p]);
    }
  }

  lemma SizeFits(inodes: map<nat, seq<nat>>, own: Slots, len: map<nat, nat>, g: nat)
    requires ShapeOk(inodes, own, len) && AtRest(inodes, len) && g in inodes
    ensures |inodes[g]| == WORDS && inodes[g][SIZE] <= BLOCK * MAX_BLOCKS
  {}

  lemma ClosedAtRest(fs0: Fs, own0: Slots, len0: map<nat, nat>, fs: Fs, own: Slots, len: map<nat, nat>, f: nat,
                     size: nat)
    requires fs0.inodes.Keys == len0.Keys && AtRest(fs0.inodes, len0) && OthersSame(fs0, own0, len0, fs, own, len, f)
    requires f in fs.inodes && IsRecord(fs.inodes[f]) && size < WORD_MOD && HasTable(fs.disk, fs.table)
    requires f < MAX_INODES
    requires f in len && len[f] == BlockCount(size)
    ensures var fs1 := Closed(fs, f, size); fs1.inodes.Keys == len.Keys && AtRest(fs1.inodes, len)
  {
    hide InodeTable.Written;
  }

  /** File `f` after the write. */
  lemma ClosedContents(fs: Fs, own: Slots, len: map<nat, nat>, reserved: set<nat>, f: nat, size: nat,
                       old1: seq<byte>, pos: nat, cur: nat, data: seq<byte>)
    requires Inv(fs, own, len, reserved) && f in fs.inodes && size < WORD_MOD && IsRecord(fs.inodes[f])
    requires f < MAX_INODES
    requires pos <= |old1| && pos <= cur <= pos + |data| && size == Max(|old1|, cur)
    requires Written(fs, own, f, old1, pos, cur, data)
    requires Inv(Closed(fs, f, size), own, len, reserved) && AtRest(Closed(fs, f, size).inodes, len)
    ensures ContentsAtRest(Closed(fs, f, size), own, len, reserved, f) == Splice(old1, pos, data[..cur - pos])
  {
    var fs1 := Closed(fs, f, size);
    var want := Splice(old1, pos, data[..cur - pos]);
    assert |fs1.inodes[f]| == WORDS && fs1.inodes[f][SIZE] == size;
    forall p: nat | p < |want| ensures Holds(fs1, own, f, p, want[p]) {
      hide Closed, Holds;
      ClosingKeepsByte(fs, own, f, size, f, p, want[p]);
    }
    hide Closed, Holds, Inv, Splice;
    SameContents(fs1, own, len, reserved, f, want);
  }

  lemma MapsAgree(a: map<nat, seq<byte>>, b: map<nat, seq<byte>>, f: nat, v: seq<byte>)
    requires a.Keys == b.Keys && f in b && a[f] == v && forall g :: g in b && g != f ==> a[g] == b[g]
    ensures a == b[f := v]
  {}

  lemma WriteSplices(fs0: Fs, own0: Slots, len0: map<nat, nat>, reserved: set<nat>, fs: Fs, own: Slots,
                     len: map<nat, nat>, f: nat, pos: nat, cur: nat, data: seq<byte>, size: nat)
    requires Inv(fs0, own0, len0, reserved) && AtRest(fs0.inodes, len0) && f in fs0.inodes
    requires Inv(fs, own, len, reserved) && pos <= cur <= pos + |data|
    requires Progress(fs0, own0, len0, fs, own, len, f, ContentsAtRest(fs0, own0, len0, reserved, f), pos, cur, data)
    requires f in len && size == Max(fs0.inodes[f][SIZE], cur) && len[f] == BlockCount(size)
    ensures size < WORD_MOD && f in fs.inodes && IsRecord(fs.inodes[f]) && f < MAX_INODES && HasTable(fs.disk, fs.table)
    ensures var fs1 := Closed(fs, f, size);
            Inv(fs1, own, len, reserved) && AtRest(fs1.inodes, len) &&
            Files(fs1, own, len, reserved) ==
              Files(fs0, own0, len0, reserved)[
                f := Splice(ContentsAtRest(fs0, own0, len0, reserved, f), pos, data[..cur - pos])]
  {
    var old1 := ContentsAtRest(fs0, own0, len0, reserved, f);
    SizeFits(fs0.inodes, own0, len0, f);
    ClosingKeeps(fs, own, len, reserved, f, size);
    ClosedAtRest(fs0, own0, len0, fs, own, len, f, size);
    ClosedContents(fs, own, len, reserved, f, size, old1, pos, cur, data);
    var fs1 := Closed(fs, f, size);
    forall g | g in fs0.inodes && g != f
      ensures ContentsAtRest(fs1, own, len, reserved, g) == ContentsAtRest(fs0, own0, len0, reserved, g)
    {
      OtherUnchanged(fs0, own0, len0, reserved, fs, own, len, f, size, g);
    }
    assert fs1.inodes.Keys == fs0.inodes.Keys;
    hide ContentsAtRest, Inv, Closed, Splice, Progress, AtRest;
    MapsAgree(Files(fs1, own, len, reserved), Files(fs0, own0, len0, reserved), f,
              Splice(old1, pos, data[..cur - pos]));
  }

  lemma OtherUnchanged(fs0: Fs, own0: Slots, len0: map<nat, nat>, reserved: set<nat>, fs: Fs, own: Slots,
                       len: map<nat, nat>, f: nat, size: nat, g: nat)
    requires Inv(fs0, own0, len0, reserved) && AtRest(fs0.inodes, len0) && Inv(fs, own, len, reserved)
    requires OthersSame(fs0, own0, len0, fs, own, len, f) && f in fs.inodes && size < WORD_MOD
    requires IsRecord(fs.inodes[f]) && f < MAX_INODES
    requires Inv(Closed(fs, f, size), own, len, reserved) && AtRest(Closed(fs, f, size).inodes, len)
    requires g in fs0.inodes && g != f
    ensures ContentsAtRest(Closed(fs, f, size), own, len, reserved, g) == ContentsAtRest(fs0, own0, len0, reserved, g)
  {
    var c := ContentsAtRest(fs0, own0, len0, reserved, g);
    var fs1 := Closed(fs, f, size);
    SizeFits(fs0.inodes, own0, len0, g);
    assert fs1.inodes[g] == fs0.inodes[g];
    forall p: nat | p < |c| ensures Holds(fs1, own, g, p, c[p]) {
      OthersHold(fs0, own0, len0, fs, own, len, f, g, p, c[p]);
      ClosingKeepsByte(fs, own, f, size, g, p, c[p]);
    }
    SameContents(fs1, own, len, reserved, g, c);
  }

  // ---------- Reading ----------

  /** file_read stops in front of block 140, though files may have 1036. */
  const READ_BLOCKS: nat := 140

  function ReadEnd(n: nat, pos: nat, cnt: nat): (e: nat)
    ensures pos <= e && (e == pos || e <= n)
  {
    Max(pos, Min(Min(pos + cnt, n), BLOCK * READ_BLOCKS))
  }

  /** Reading back what was written gives the same bytes exactly if they end in front of block 140. */
  lemma WriteThenRead(c: seq<byte>, pos: nat, data: seq<byte>)
    requires pos <= |c|
    ensures var r := Splice(c, pos, data);
            r[pos..ReadEnd(|r|, pos, |data|)] == data <==> data == [] || pos + |data| <= BLOCK * READ_BLOCKS
  {
    var r := Splice(c, pos, data);
    assert r[pos..pos + |data|] == data;
    var e := ReadEnd(|r|, pos, |data|);
    if e != pos + |data| { assert |r[pos..e]| < |data|; }
  }

  lemma ReadMore(c: seq<byte>, pos: nat, cur: nat, m: nat, got: seq<byte>, chunk: seq<byte>)
    requires pos <= cur && cur + m <= |c| && got == c[pos..cur] && chunk == c[cur..cur + m]
    ensures got + chunk == c[pos..cur + m]
  {}

  lemma ChunkOfContents(fs: Fs, own: Slots, len: map<nat, nat>, reserved: set<nat>, f: nat, cur: nat, m: nat)
    requires Inv(fs, own, len, reserved) && AtRest(fs.inodes, len) && f in fs.inodes
    requires cur % BLOCK + m <= BLOCK && cur + m <= |ContentsAtRest(fs, own, len, reserved, f)|
    requires (f, cur / BLOCK) in own && OnDisk(fs.disk, fs.base + 8 * own[(f, cur / BLOCK)], 8)
    ensures Data(fs, own, f, cur / BLOCK)[cur % BLOCK..cur % BLOCK + m] ==
              ContentsAtRest(fs, own, len, reserved, f)[cur..cur + m]
  {
    hide Inv, ContentsAtRest, Holds, Data;
    var c := ContentsAtRest(fs, own, len, reserved, f);
    var x, y := Data(fs, own, f, cur / BLOCK)[cur % BLOCK..cur % BLOCK + m], c[cur..cur + m];
    forall i | 0 <= i < m ensures x[i] == y[i] {
      ChunkByte(fs, own, f, cur, m, cur + i, c[cur + i]);
    }
  }

  lemma ChunkByte(fs: Fs, own: Slots, f: nat, cur: nat, m: nat, p: nat, v: byte)
    requires cur % BLOCK + m <= BLOCK && cur <= p < cur + m && Holds(fs, own, f, p, v)
    requires (f, cur / BLOCK) in own && OnDisk(fs.disk, fs.base + 8 * own[(f, cur / BLOCK)], 8)
    ensures Data(fs, own, f, cur / BLOCK)[cur % BLOCK + (p - cur)] == v
  {
    ChunkIndex(cur, m, p);
  }

  // ---------- Giving blocks back ----------

  /** The addresses that InodeRecycle collects in the caller's buffer: it clears only the first word of the
      buffer, and without a table the words from 12 on are what the caller left there. */
  function Collected(d: seq<byte>, w: seq<nat>, buf: seq<nat>): (r: seq<nat>)
    requires |w| == WORDS && |buf| == MAX_BLOCKS && (Pointer(w, DIRECT) != 0 ==> OnDisk(d, Pointer(w, DIRECT), 8))
    ensures |r| == MAX_BLOCKS
    ensures forall s :: 0 <= s < DIRECT ==> r[s] == Slot(d, w, s)
    ensures forall s :: DIRECT <= s < MAX_BLOCKS ==> r[s] == if Pointer(w, DIRECT) != 0 then Slot(d, w, s) else buf[s]
  {
    w[SECTORS..SECTORS + DIRECT] +
    if Pointer(w, DIRECT) != 0 then Words(Read(d, Pointer(w, DIRECT), 8), PER_TABLE) else buf[DIRECT..]
  }

  /** How many of them it frees: all in front of the first zero. */
  function FreedCount(addr: seq<nat>, i: nat := 0): (r: nat)
    requires i <= |addr|
    ensures i <= r <= |addr| && (r < |addr| ==> addr[r] == 0) && forall j :: i <= j < r ==> addr[j] != 0
    decreases |addr| - i
  {
    if i == |addr| || addr[i] == 0 then i else FreedCount(addr, i + 1)
  }

  /** InodeRecycle frees just the blocks of the file exactly if the file has a table, or a direct entry
      of it is zero, or word 12 of the caller's buffer is. */
  lemma RecycleIsExact(fs: Fs, own: Slots, len: map<nat, nat>, reserved: set<nat>, f: nat, buf: seq<nat>)
    requires Inv(fs, own, len, reserved) && f in fs.inodes && |buf| == MAX_BLOCKS
    ensures |fs.inodes[f]| == WORDS && f in len
    ensures (Pointer(fs.inodes[f], DIRECT) != 0 ==> OnDisk(fs.disk, Pointer(fs.inodes[f], DIRECT), 8))
    ensures FreedCount(Collected(fs.disk, fs.inodes[f], buf)) == len[f] <==>
              Pointer(fs.inodes[f], DIRECT) != 0 ||
              (exists i :: 0 <= i < DIRECT && Pointer(fs.inodes[f], i) == 0) || buf[DIRECT] == 0
  {
    TableIsReadable(fs, own, len, reserved, f);
    if len[f] < DIRECT {
      NoTablePointer(fs, own, len, reserved, f);
    } else {
      TablePointer(fs, own, len, reserved, f);
    }
    var addr := Collected(fs.disk, fs.inodes[f], buf);
    var r := FreedCount(addr);
    assert len[f] <= MAX_BLOCKS;
    hide Inv, Collected, Slot, FreedCount;
    forall s: nat | s < MAX_BLOCKS ensures Slot(fs.disk, fs.inodes[f], s) != 0 <==> s < len[f] {
      SlotOf(fs, own, len, reserved, f, s);
    }
    DirectEntries(fs, f);
    if len[f] < MAX_BLOCKS && r > len[f] { assert addr[len[f]] != 0; }
  }

  lemma DirectEntries(fs: Fs, f: nat)
    requires f in fs.inodes && |fs.inodes[f]| == WORDS
    ensures forall i: nat :: i < DIRECT ==> Slot(fs.disk, fs.inodes[f], i) == Pointer(fs.inodes[f], i)
  {}

  /** What is owned after the slots of `f` below `i`, and its table, have been given back. */
  ghost predicate Remaining(own0: Slots, own: Slots, f: nat, i: nat)
  {
    forall k ::
      (k in own <==> k in own0 && !(k.0 == f && (k.1 < i || k.1 == TABLE))) && (k in own ==> own[k] == own0[k])
  }

  lemma RemainingNext(own0: Slots, own: Slots, f: nat, i: nat)
    requires Remaining(own0, own, f, i) && (f, i) in own
    ensures Remaining(own0, own - {(f, i)}, f, i + 1)
  {}

  /** With all its slots given back, a file can be forgotten. */
  lemma ForgettingKeeps(fs: Fs, own: Slots, len: map<nat, nat>, reserved: set<nat>, f: nat, bits1: seq<bool>,
                        own1: Slots, n: nat)
    requires Inv(fs, own, len, reserved) && f in fs.inodes && |bits1| == |fs.bits| && OwnOk(bits1, own1, reserved)
    requires f in len && n == len[f] && Remaining(own, own1, f, n)
    ensures Inv(fs.(bits := bits1, inodes := fs.inodes - {f}), own1, len - {f}, reserved)
  {
    hide OwnOk, Slot;
    forall s: nat ensures (f, s) !in own1 { assert (f, s) in own <==> InUse(len[f], s); }
    var fs1 := fs.(bits := bits1, inodes := fs.inodes - {f});
    forall g, s: nat | g in fs1.inodes && |fs1.inodes[g]| == WORDS && s <= TABLE
      ensures Slot(fs1.disk, fs1.inodes[g], s) == if (g, s) in own1 then fs1.base + 8 * own1[(g, s)] else 0
    {
      assert Slot(fs.disk, fs.inodes[g], s) == if (g, s) in own then fs.base + 8 * own[(g, s)] else 0;
    }
    forall g, s: nat | g in fs1.inodes ensures (g, s) in own1 <==> InUse((len - {f})[g], s) {
      assert (g, s) in own <==> InUse(len[g], s);
    }
  }

  lemma AtRestWithout(inodes: map<nat, seq<nat>>, len: map<nat, nat>, f: nat)
    requires len.Keys == inodes.Keys && AtRest(inodes, len)
    ensures (len - {f}).Keys == (inodes - {f}).Keys && AtRest(inodes - {f}, len - {f})
  {}

  lemma SameLens(fs: Fs, own: Slots, len: map<nat, nat>, reserved: set<nat>)
    requires Inv(fs, own, len, reserved)
    ensures len.Keys == fs.inodes.Keys
  {}

  lemma ForgettingKeepsFile(fs: Fs, own: Slots, len: map<nat, nat>, reserved: set<nat>, f: nat, fs1: Fs, own1: Slots,
                            n: nat, g: nat)
    requires Inv(fs, own, len, reserved) && AtRest(fs.inodes, len) && g in fs.inodes && g != f
    requires fs1 == fs.(bits := fs1.bits, inodes := fs.inodes - {f}) && Remaining(own, own1, f, n)
    requires Inv(fs1, own1, len - {f}, reserved) && AtRest(fs1.inodes, len - {f})
    ensures ContentsAtRest(fs1, own1, len - {f}, reserved, g) == ContentsAtRest(fs, own, len, reserved, g)
  {
    hide Inv, Holds, AtRest, Remaining, ContentsAtRest;
    var c := ContentsAtRest(fs, own, len, reserved, g);
    forall p: nat | p < |c| ensures Holds(fs1, own1, g, p, c[p]) {
      ForgottenByte(fs, own, f, fs1, own1, n, g, p, c[p]);
    }
    SameContents(fs1, own1, len - {f}, reserved, g, c);
  }

  lemma ForgettingKeepsFiles(fs: Fs, own: Slots, len: map<nat, nat>, reserved: set<nat>, f: nat, fs1: Fs, own1: Slots,
                             n: nat)
    requires Inv(fs, own, len, reserved) && AtRest(fs.inodes, len) && f in fs.inodes
    requires fs1 == fs.(bits := fs1.bits, inodes := fs.inodes - {f}) && Remaining(own, own1, f, n)
    requires Inv(fs1, own1, len - {f}, reserved)
    ensures AtRest(fs1.inodes, len - {f})
    ensures Files(fs1, own1, len - {f}, reserved) == Files(fs, own, len, reserved) - {f}
  {
    hide Inv, Remaining, ContentsAtRest;
    SameLens(fs, own, len, reserved);
    AtRestWithout(fs.inodes, len, f);
    hide AtRest;
    forall g | g in fs1.inodes
      ensures ContentsAtRest(fs1, own1, len - {f}, reserved, g) == ContentsAtRest(fs, own, len, reserved, g)
    {
      ForgettingKeepsFile(fs, own, len, reserved, f, fs1, own1, n, g);
    }
  }

  lemma ForgottenByte(fs: Fs, own: Slots, f: nat, fs1: Fs, own1: Slots, n: nat, g: nat, p: nat, v: byte)
    requires Remaining(own, own1, f, n) && g != f && Holds(fs, own, g, p, v) && fs1.disk == fs.disk
    requires fs1.base == fs.base
    ensures Holds(fs1, own1, g, p, v)
  {}

  // ---------- The copy of the sector bitmap on the disk ----------

  /** How BitMapUpdate ends: normally; in the PANIC for a block that straddles two bitmap sectors; or
      after writing a sector beyond the bitmap, with bytes from beyond the bitmap in memory. */
  datatype Fate = Fine | Panic | Astray

  const SECTOR_BITS: nat := 4096

  function UpdateFate(bits: seq<bool>, idx: nat): Fate
  {
    if SECTOR_BITS * (idx / SECTOR_BITS) + SECTOR_BITS > |bits| then Astray
    else if (idx + 7) / SECTOR != idx / SECTOR then Panic
    else Fine
  }

  /** The bitmap on the disk after the sector of bit `idx` has been written. */
  function Saved(bits: seq<bool>, saved: seq<bool>, idx: nat): (r: seq<bool>)
    requires |saved| == |bits| && SECTOR_BITS * (idx / SECTOR_BITS) + SECTOR_BITS <= |bits|
    ensures |r| == |bits|
  {
    var at := SECTOR_BITS * (idx / SECTOR_BITS);
    saved[..at] + bits[at..at + SECTOR_BITS] + saved[at + SECTOR_BITS..]
  }

  /** Called with the index of a block, as AllocateIndirectBlock and InodeRecycle do, BitMapUpdate ends
      normally and brings the copy on the disk up to date. */
  lemma IndexUpdates(bits: seq<bool>, saved: seq<bool>, q: nat, v: bool)
    requires |bits| % SECTOR_BITS == 0 && 8 * q + 8 <= |bits| && saved == bits
    ensures UpdateFate(bits, 8 * q) == Fine
    ensures var bits1 := SetRange(bits, 8 * q, 8, v); Saved(bits1, saved, 8 * q) == bits1
  {
    IndexIsFine(bits, q);
    InSector(bits, q);
    hide UpdateFate, SetRange;
    SplitAt(SetRange(bits, 8 * q, 8, v), saved, SECTOR_BITS * (8 * q / SECTOR_BITS));
  }

  lemma InSector(bits: seq<bool>, q: nat)
    requires |bits| % SECTOR_BITS == 0 && 8 * q + 8 <= |bits|
    ensures var at := SECTOR_BITS * (8 * q / SECTOR_BITS); at <= 8 * q && 8 * q + 8 <= at + SECTOR_BITS <= |bits|
  {
    var k, s := |bits| / SECTOR_BITS, 8 * q / SECTOR_BITS;
    InSectorOf(|bits|, q, k, s, q - 512 * s);
  }

  lemma InSectorOf(n: nat, q: nat, k: nat, s: nat, u: int)
    requires n == 4096 * k && q == 512 * s + u && 0 <= 8 * u < 4096 && 8 * q + 8 <= n
    ensures 4096 * s <= 8 * q && 8 * q + 8 <= 4096 * s + 4096 <= n
  {}

  lemma SplitAt(bits1: seq<bool>, saved: seq<bool>, at: nat)
    requires |saved| == |bits1| && at + SECTOR_BITS <= |bits1|
    requires forall i :: 0 <= i < |bits1| && !(at <= i < at + SECTOR_BITS) ==> bits1[i] == saved[i]
    ensures saved[..at] + bits1[at..at + SECTOR_BITS] + saved[at + SECTOR_BITS..] == bits1
  {}

  lemma IndexIsFine(bits: seq<bool>, q: nat)
    requires |bits| % SECTOR_BITS == 0 && 8 * q + 8 <= |bits|
    ensures UpdateFate(bits, 8 * q) == Fine
  {
    var k := |bits| / SECTOR_BITS;
    assert |bits| == SECTOR_BITS * k;
    assert 8 * q / SECTOR_BITS < k;
  }

  /** Called with an address, as AllocateOneBlock does for a direct block, it ends normally exactly when
      the address, taken for an index, does not straddle and lies within the bitmap; and it brings the
      copy on the disk up to date exactly when the address and the index fall into one sector of bits. */
  lemma AddressUpdates(bits: seq<bool>, saved: seq<bool>, base: nat, q: nat)
    requires |bits| % SECTOR_BITS == 0 && 8 * q + 8 <= |bits| && saved == bits && !bits[8 * q]
    ensures UpdateFate(bits, base + 8 * q) == Fine <==> base + 8 * q < |bits| && (base + 8 * q) % SECTOR <= SECTOR - 8
    ensures base + 8 * q < |bits| ==>
              SECTOR_BITS * ((base + 8 * q) / SECTOR_BITS) + SECTOR_BITS <= |bits| &&
              var bits1 := SetRange(bits, 8 * q, 8, true);
              (Saved(bits1, saved, base + 8 * q) == bits1 <==> (base + 8 * q) / SECTOR_BITS == 8 * q / SECTOR_BITS)
  {
    var k := |bits| / SECTOR_BITS;
    assert |bits| == SECTOR_BITS * k;
    assert base + 8 * q < |bits| <==> (base + 8 * q) / SECTOR_BITS < k;
    if base + 8 * q < |bits| {
      var bits1 := SetRange(bits, 8 * q, 8, true);
      var r := Saved(bits1, saved, base + 8 * q);
      if (base + 8 * q) / SECTOR_BITS == 8 * q / SECTOR_BITS {
        IndexUpdates(bits, saved, q, true);
      } else {
        assert r[8 * q] == saved[8 * q];
        assert bits1[8 * q];
      }
    }
  }

  /** If the data area starts at a multiple of eight sectors and every address is below the number of
      bits, no direct allocation panics or goes astray. */
  lemma AlignedBaseIsFine(bits: seq<bool>, base: nat, q: nat)
    requires |bits| % SECTOR_BITS == 0 && base % 8 == 0 && base + 8 * q < |bits|
    ensures UpdateFate(bits, base + 8 * q) == Fine
  {
    var k := |bits| / SECTOR_BITS;
    assert |bits| == SECTOR_BITS * k;
    assert (base + 8 * q) % 8 == 0;
  }

  /** No block outside `reserved` makes BitMapUpdate panic or go astray. */
  ghost predicate AlwaysFine(n: nat, base: nat, reserved: set<nat>)
  {
    n % SECTOR_BITS == 0 && base % 8 == 0 && forall q: nat :: 8 * q + 8 <= n && q !in reserved ==> base + 8 * q < n
  }

  lemma OwnedIsFine(fs: Fs, own: Slots, len: map<nat, nat>, reserved: set<nat>, k: (nat, nat))
    requires Inv(fs, own, len, reserved) && k in own && AlwaysFine(|fs.bits|, fs.base, reserved)
    ensures UpdateFate(fs.bits, fs.base + 8 * own[k]) == Fine
  {
    AlignedBaseIsFine(fs.bits, fs.base, own[k]);
  }

  /** The direct blocks that `own` has beyond `own0` have all been announced to BitMapUpdate by an address
      with which it ends normally, exactly if it has done so each time. */
  ghost predicate FateIs(bits: seq<bool>, base: nat, own0: Slots, own: Slots, fate: Fate)
  {
    (forall k :: k in own0 && k.1 < DIRECT ==> k in own && own[k] == own0[k]) &&
    (fate == Fine <==>
     forall k :: k in own && k !in own0 && k.1 < DIRECT ==> UpdateFate(bits, base + 8 * own[k]) == Fine)
  }

  lemma NothingOwned(bits: seq<bool>, base: nat, own: Slots)
    ensures FateIs(bits, base, own, own, Fine)
  {}

  lemma OneOwned(bits: seq<bool>, base: nat, own0: Slots, own: Slots, f: nat, idx: nat, fate: Fate)
    requires idx <= MAX_BLOCKS && (f, idx) !in own0 && (f, idx) in own
    requires if idx == DIRECT
             then (f, TABLE) in own && own == own0[(f, TABLE) := own[(f, TABLE)]][(f, idx) := own[(f, idx)]]
             else own == own0[(f, idx) := own[(f, idx)]]
    requires fate == if idx < DIRECT then UpdateFate(bits, base + 8 * own[(f, idx)]) else Fine
    ensures FateIs(bits, base, own0, own, fate)
  {
    hide UpdateFate;
  }

  lemma FatesJoin(bits0: seq<bool>, bits: seq<bool>, base: nat, own0: Slots, own1: Slots, own: Slots, fate: Fate)
    requires |bits0| == |bits| && FateIs(bits0, base, own0, own1, Fine) && FateIs(bits, base, own1, own, fate)
    ensures FateIs(bits, base, own0, own, fate)
  {}

  lemma RollBack(bits: seq<bool>, r: nat)
    requires ClearRun(bits, r, 8)
    ensures SetRange(SetRange(bits, r, 8, true), r, 8, false) == bits
  {}

  /** If it does not, one in 64 consecutive blocks runs into the PANIC or goes astray. */
  lemma MisalignedBasePanics(bits: seq<bool>, base: nat, q: nat)
    requires base % 8 != 0
    ensures exists r: nat :: q <= r < q + 64 && UpdateFate(bits, base + 8 * r) != Fine
  {
    var a, m := base / 8, base % 8;
    var y, z := (a + q) / 64, (a + q) % 64;
    var r := q + (63 - z);
    assert base + 8 * r == 512 * y + 504 + m;
    Straddles(bits, y, m);
  }

  lemma Straddles(bits: seq<bool>, y: nat, m: nat)
    requires 1 <= m < 8
    ensures UpdateFate(bits, 512 * y + 504 + m) != Fine
  {
    assert (512 * y + 504 + m) / SECTOR == y && (512 * y + 504 + m + 7) / SECTOR == y + 1;
  }

  /** The scan of a table at address `at`, and what follows it. */
  ghost predicate EntryTaken(fs: Fs, at: nat, fs1: Fs, lba: int)
    requires OnDisk(fs.disk, at, 8)
    requires Blocks.BlockBitmapAllocate(fs).Grown? ==> fs.base + Blocks.BlockBitmapAllocate(fs).at < WORD_MOD
  {
    var buf := Read(fs.disk, at, 8);
    var i, g := FirstZero(buf), Blocks.BlockBitmapAllocate(fs);
    if i == PER_TABLE || g == Full then lba == -1 && fs1 == fs
    else lba == fs.base + g.at && fs1 == g.fs.(disk := Write(fs.disk, at, 8, SetWord(buf, i, fs.base + g.at)))
  }

  lemma TakenEntryGrows(fs: Fs, own: Slots, len: map<nat, nat>, reserved: set<nat>, f: nat, fs1: Fs, lba: int)
    requires Inv(fs, own, len, reserved) && f in fs.inodes && len[f] > DIRECT && (f, TABLE) in own
    requires OnDisk(fs.disk, fs.base + 8 * own[(f, TABLE)], 8)
    requires Blocks.BlockBitmapAllocate(fs).Grown? ==> fs.base + Blocks.BlockBitmapAllocate(fs).at < WORD_MOD
    requires EntryTaken(fs, fs.base + 8 * own[(f, TABLE)], fs1, lba)
    ensures GrowTable(fs, own, len, reserved, f) ==
              if lba == -1 then Full else if lba >= 0 then Grown(fs1, lba) else Full
    ensures lba == -1 ==> fs1 == fs
    ensures lba >= -1
  {
    hide Inv, FirstZero, SetWord, SetRange, FirstFit, Read, Write, Word, Slot;
    FirstZeroIsNext(fs, own, len, reserved, f);
  }

  // ---------- The inodes on the disk ----------

  /** Equal but for the words that only an open inode uses. */
  ghost predicate SameRecord(v: seq<nat>, w: seq<nat>)
  {
    |v| == |w| && forall i :: 0 <= i < |v| && i != OPEN_CNT && i != DENY ==> v[i] == w[i]
  }

  /** The disk has every inode as it is in memory. */
  ghost predicate Recorded(fs: Fs)
  {
    HasTable(fs.disk, fs.table) &&
    forall g :: g in fs.inodes ==> g < MAX_INODES && SameRecord(Stored(fs.disk, fs.table, g), fs.inodes[g])
  }

  /** The same of every inode but that of `f`. */
  ghost predicate RecordedBut(fs: Fs, f: nat)
  {
    HasTable(fs.disk, fs.table) &&
    forall g :: g in fs.inodes && g != f ==> g < MAX_INODES && SameRecord(Stored(fs.disk, fs.table, g), fs.inodes[g])
  }

  lemma RecordedButOne(fs: Fs, fs1: Fs, f: nat)
    requires Recorded(fs) && fs1.disk == fs.disk && fs1.table == fs.table
    requires forall g :: g in fs1.inodes && g != f ==> g in fs.inodes && fs1.inodes[g] == fs.inodes[g]
    ensures RecordedBut(fs1, f)
    ensures f !in fs1.inodes ==> Recorded(fs1)
  {
    hide Stored;
  }

  /** The table depends on the disk in front of the data blocks only. */
  lemma StoredInFront(fs: Fs, fs1: Fs, g: nat)
    requires HasTable(fs.disk, fs.table) && fs.table + TABLE_SECTORS <= fs.base && g < MAX_INODES
    requires SameFront(fs, fs1)
    ensures HasTable(fs1.disk, fs.table) && Stored(fs1.disk, fs.table, g) == Stored(fs.disk, fs.table, g)
  {
    var at, n := SECTOR * fs.table + RECORD * g, Min(SECTOR * fs.base, |fs.disk|);
    StoredBytes(fs.disk, fs.table, g);
    StoredBytes(fs1.disk, fs.table, g);
    hide Stored;
    assert at + RECORD <= n;
    assert fs1.disk[at..at + RECORD] == fs1.disk[..n][at..at + RECORD];
    assert fs.disk[at..at + RECORD] == fs.disk[..n][at..at + RECORD];
  }

  /** A write to file `f` stores its inode again and leaves the others as they were stored. */
  lemma WriteRecords(fs0: Fs, own0: Slots, len0: map<nat, nat>, fs: Fs, own: Slots, len: map<nat, nat>, f: nat,
                     size: nat)
    requires OthersSame(fs0, own0, len0, fs, own, len, f) && fs0.table + TABLE_SECTORS <= fs0.base
    requires RecordedBut(fs0, f)
    requires f in fs.inodes && IsRecord(fs.inodes[f]) && size < WORD_MOD && HasTable(fs.disk, fs.table)
    requires f < MAX_INODES
    ensures Recorded(Closed(fs, f, size))
  {
    hide Stored, InodeTable.Written, SameBlock, SameFront;
    var t := Closed(fs, f, size);
    forall g | g in t.inodes ensures g < MAX_INODES && SameRecord(Stored(t.disk, t.table, g), t.inodes[g]) {
      assert g in fs0.inodes;
      RoundTrip(fs.disk, fs.table, f, fs.inodes[f][SIZE := size], if g < MAX_INODES then g else f);
      if g != f { StoredInFront(fs0, fs, g); }
    }
  }

  /** The same files with the inodes that InodeOpen makes after a restart from the table on the disk. */
  function Remounted(fs: Fs): (r: Fs)
    requires HasTable(fs.disk, fs.table) && forall g :: g in fs.inodes ==> g < MAX_INODES
  {
    fs.(inodes := map g | g in fs.inodes :: Opened(Stored(fs.disk, fs.table, g), g))
  }

  lemma RemountedInode(fs: Fs, g: nat)
    requires Recorded(fs) && g in fs.inodes && IsRecord(fs.inodes[g])
    ensures g in Remounted(fs).inodes && IsRecord(Remounted(fs).inodes[g])
    ensures Remounted(fs).inodes[g][SIZE] == fs.inodes[g][SIZE]
    ensures forall i :: 0 <= i < 15 ==> Pointer(Remounted(fs).inodes[g], i) == Pointer(fs.inodes[g], i)
  {
    hide Stored;
    assert SameRecord(Stored(fs.disk, fs.table, g), fs.inodes[g]);
  }

  lemma RemountedSlot(fs: Fs, g: nat, s: nat)
    requires Recorded(fs) && g in fs.inodes && IsRecord(fs.inodes[g]) && s <= TABLE
    ensures g in Remounted(fs).inodes && |Remounted(fs).inodes[g]| == WORDS
    ensures Slot(fs.disk, Remounted(fs).inodes[g], s) == Slot(fs.disk, fs.inodes[g], s)
  {
    RemountedInode(fs, g);
    hide Stored, Remounted, Read, Word;
  }

  lemma RemountedSlots(fs: Fs, own: Slots, len: map<nat, nat>)
    requires SlotsOk(fs, own) && ShapeOk(fs.inodes, own, len) && Recorded(fs)
    ensures SlotsOk(Remounted(fs), own)
  {
    hide Stored, Remounted, Slot;
    RemountedKeys(fs);
    var t := Remounted(fs);
    forall g, s: nat | g in t.inodes && |t.inodes[g]| == WORDS && s <= TABLE
      ensures Slot(t.disk, t.inodes[g], s) == if (g, s) in own then t.base + 8 * own[(g, s)] else 0
    {
      RemountedSlot(fs, g, s);
    }
  }

  lemma RemountedShape(fs: Fs, own: Slots, len: map<nat, nat>)
    requires ShapeOk(fs.inodes, own, len) && AtRest(fs.inodes, len) && Recorded(fs)
    ensures ShapeOk(Remounted(fs).inodes, own, len) && AtRest(Remounted(fs).inodes, len)
    ensures forall g :: g in fs.inodes ==>
              |fs.inodes[g]| == |Remounted(fs).inodes[g]| == WORDS &&
              Remounted(fs).inodes[g][SIZE] == fs.inodes[g][SIZE]
  {
    hide Stored, Remounted, InUse, SameRecord;
    RemountedKeys(fs);
    forall g | g in fs.inodes
      ensures IsRecord(Remounted(fs).inodes[g]) && Remounted(fs).inodes[g][SIZE] == fs.inodes[g][SIZE]
    {
      RemountedInode(fs, g);
    }
  }

  /** If the disk has every inode, the files are the same after a restart. */
  lemma RemountKeeps(fs: Fs, own: Slots, len: map<nat, nat>, reserved: set<nat>)
    requires Inv(fs, own, len, reserved) && AtRest(fs.inodes, len) && Recorded(fs)
    ensures Inv(Remounted(fs), own, len, reserved) && AtRest(Remounted(fs).inodes, len)
    ensures Files(Remounted(fs), own, len, reserved) == Files(fs, own, len, reserved)
  {
    hide Remounted, OwnOk, SlotsOk, ShapeOk, AtRest, Files, Recorded;
    assert forall g :: g in fs.inodes ==> g < MAX_INODES by { InodesInRange(fs, own, len); }
    RemountedKeys(fs);
    RemountedSlots(fs, own, len);
    RemountedShape(fs, own, len);
    hide Inv;
    RemountedFiles(fs, own, len, reserved, Remounted(fs));
  }

  lemma InodesInRange(fs: Fs, own: Slots, len: map<nat, nat>)
    requires ShapeOk(fs.inodes, own, len)
    ensures forall g :: g in fs.inodes ==> g < MAX_INODES
  {}

  lemma RemountedKeys(fs: Fs)
    requires HasTable(fs.disk, fs.table) && forall g :: g in fs.inodes ==> g < MAX_INODES
    ensures Remounted(fs) == fs.(inodes := Remounted(fs).inodes) && Remounted(fs).inodes.Keys == fs.inodes.Keys
  {}

  lemma RemountedFiles(fs: Fs, own: Slots, len: map<nat, nat>, reserved: set<nat>, t: Fs)
    requires Inv(fs, own, len, reserved) && AtRest(fs.inodes, len) && Inv(t, own, len, reserved)
    requires AtRest(t.inodes, len)
    requires t == fs.(inodes := t.inodes) && t.inodes.Keys == fs.inodes.Keys
    requires forall g :: g in fs.inodes ==>
               |fs.inodes[g]| == |t.inodes[g]| == WORDS && t.inodes[g][SIZE] == fs.inodes[g][SIZE]
    ensures Files(t, own, len, reserved) == Files(fs, own, len, reserved)
  {
    hide Inv, AtRest, ContentsAtRest, Holds;
    forall g | g in fs.inodes
      ensures ContentsAtRest(t, own, len, reserved, g) == ContentsAtRest(fs, own, len, reserved, g)
    {
      var c := ContentsAtRest(fs, own, len, reserved, g);
      forall p: nat | p < |c| ensures Holds(t, own, g, p, c[p]) { SameDisk(fs, t, own, g, p, c[p]); }
      SameContents(t, own, len, reserved, g, c);
    }
  }

  // ---------- The file system object ----------

  class FileSystem {
    var disk: seq<byte>
    const bitmap: BitMap
    var saved: seq<bool>
    var inodes: map<nat, seq<nat>>
    const base: nat
    const table: nat
    ghost var own: Slots
    ghost var len: map<nat, nat>
    ghost const reserved: set<nat>

    ghost function State(): Fs
      reads this, bitmap.bits
    {
      Fs(disk, bitmap.Bits(), inodes, base, table)
    }

    /** In the middle of a call. */
    ghost predicate Sound()
      reads this, bitmap.bits
    {
      Inv(State(), own, len, reserved) && |saved| == |bitmap.Bits()| && |saved| % SECTOR_BITS == 0
    }

    /** Between two calls. */
    ghost predicate Valid()
      reads this, bitmap.bits
    {
      Sound() && AtRest(inodes, len)
    }

    /** The files as byte sequences. */
    ghost function Contents(): (r: map<nat, seq<byte>>)
      requires Valid()
      reads this, bitmap.bits
      ensures r.Keys == inodes.Keys
    {
      Files(State(), own, len, reserved)
    }

    /** A mounted partition: the bitmap in memory has just been read from the disk. */
    constructor (disk: seq<byte>, bitmap: BitMap, saved: seq<bool>, inodes: map<nat, seq<nat>>, base: nat, table: nat,
                 ghost own: Slots, ghost len: map<nat, nat>, ghost reserved: set<nat>)
      requires saved == bitmap.Bits() && |saved| % SECTOR_BITS == 0
      requires Inv(Fs(disk, bitmap.Bits(), inodes, base, table), own, len, reserved) && AtRest(inodes, len)
      ensures Valid() && State() == Fs(disk, bitmap.Bits(), inodes, base, table) && this.saved == saved
      ensures this.own == own && this.len == len && this.reserved == reserved
    {
      this.disk, this.bitmap, this.saved, this.inodes := disk, bitmap, saved, inodes;
      this.base, this.table, this.own, this.len, this.reserved := base, table, own, len, reserved;
    }

    method BlockBitmapAllocate() returns (idx: int)
      modifies bitmap.bits
      ensures idx == -1 ==> Blocks.BlockBitmapAllocate(old(State())) == Full && State() == old(State())
      ensures idx != -1 ==> idx >= 0 && Blocks.BlockBitmapAllocate(old(State())) == Grown(State(), idx)
    {
      idx := bitmap.Allocate(8);
      if idx == -1 { return; }
      ghost var bits0 := bitmap.Bits();
      var i := 0;
      while i < 8
        invariant 0 <= i <= 8
        invariant bitmap.Bits() == SetRange(bits0, idx, i, true)
      {
        bitmap.Set(idx + i);
        i := i + 1;
      }
    }

    method BlockBitMapReset(idx: nat)
      requires idx + 8 <= |bitmap.Bits()|
      modifies bitmap.bits
      ensures State() == old(State()).(bits := SetRange(old(bitmap.Bits()), idx, 8, false))
    {
      ghost var bits0 := bitmap.Bits();
      var i := 0;
      while i < 8
        invariant 0 <= i <= 8
        invariant bitmap.Bits() == SetRange(bits0, idx, i, false)
      {
        bitmap.Reset(idx + i);
        i := i + 1;
      }
    }

    /** BitMapUpdate for the sector bitmap. */
    method BitMapUpdate(idx: nat) returns (fate: Fate)
      requires |saved| == |bitmap.Bits()|
      modifies this`saved
      ensures |saved| == |old(saved)| && fate == UpdateFate(bitmap.Bits(), idx)
      ensures fate == Fine ==> saved == Saved(bitmap.Bits(), old(saved), idx)
    {
      var sector := idx / SECTOR_BITS;
      var at := SECTOR_BITS * sector;
      if at + SECTOR_BITS > 8 * bitmap.bits.Length { return Astray; }
      var stored := [];
      var i := 0;
      while i < SECTOR_BITS
        invariant 0 <= i <= SECTOR_BITS && stored == bitmap.Bits()[at..at + i]
        modifies {}
      {
        var isSet := bitmap.Test(at + i);
        stored := stored + [isSet];
        i := i + 1;
      }
      saved := saved[..at] + stored + saved[at + SECTOR_BITS..];
      fate := if (idx + 7) / SECTOR != idx / SECTOR then Panic else Fine;
    }

    method FindZero(buf: seq<byte>) returns (i: nat)
      requires |buf| == BLOCK
      ensures i == FirstZero(buf)
    {
      i := 0;
      while i < PER_TABLE
        invariant 0 <= i <= PER_TABLE && FirstZero(buf, i) == FirstZero(buf)
      {
        if Word(buf, i) == 0 { return; }
        i := i + 1;
      }
    }

    /** The part of AllocateIndirectBlock for a file without a table; `none` if not even one block is free. */
    method FirstIndirectBlock(f: nat) returns (lba: int, none: bool)
      requires Sound() && f in inodes && f in len && len[f] == DIRECT && |inodes[f]| == WORDS
      modifies this`disk, this`saved, this`inodes, bitmap.bits
      ensures |saved| == |old(saved)|
      ensures none <==> Blocks.BlockBitmapAllocate(old(State())) == Full
      ensures none ==> lba == -1
      ensures lba == -1 ==> State() == old(State()) && GrowNewTable(old(State()), own, len, reserved, f) == Full
      ensures lba != -1 ==> lba >= 0 && GrowNewTable(old(State()), own, len, reserved, f) == Grown(State(), lba)
    {
      hide Inv, SetRange, FirstEntry, Write, OnDisk, GrowNewTable, Blocks.BlockBitmapAllocate, UpdateFate, Saved;
      ghost var fs0 := State();
      TwoBlocks(fs0, own, len, reserved, f);
      var idx0 := BlockBitmapAllocate();
      if idx0 == -1 { return -1, true; }
      none := false;
      var idx1 := BlockBitmapAllocate();
      if idx1 == -1 {
        BlockBitMapReset(idx0);
        return -1, false;
      }
      var buf := FirstEntry(base + idx1);
      disk := Write(disk, base + idx0, 8, buf);
      var fate := BitMapUpdate(idx0);
      fate := BitMapUpdate(idx1);
      inodes := inodes[f := SetPointer(inodes[f], DIRECT, base + idx0)];
      lba := base + idx1;
    }

    /** The part of AllocateIndirectBlock that looks for a free entry in a table at address `at`. With no
        table `at` is 0, and what is read is whatever lies at the start of the disk. */
    method NextIndirectBlock(at: nat) returns (lba: int)
      requires OnDisk(disk, at, 8) && |saved| == |bitmap.Bits()|
      requires Blocks.BlockBitmapAllocate(State()).Grown? ==> base + Blocks.BlockBitmapAllocate(State()).at < WORD_MOD
      modifies this`disk, this`saved, bitmap.bits
      ensures |saved| == |old(saved)|
      ensures EntryTaken(old(State()), at, State(), lba)
    {
      hide SetRange, SetWord, Write, Read, FirstZero, Word, FirstFit;
      var buf := Read(disk, at, 8);
      var i := FindZero(buf);
      if i == PER_TABLE { return -1; }
      var idx0 := BlockBitmapAllocate();
      if idx0 == -1 { return -1; }
      buf := SetWord(buf, i, base + idx0);
      disk := Write(disk, at, 8, buf);
      var fate := BitMapUpdate(idx0);
      lba := base + idx0;
    }

    /** AllocateIndirectBlock for a file that has at least 12 blocks. */
    method AllocateIndirectBlock(f: nat) returns (lba: int)
      requires Sound() && f in inodes && f in len && len[f] >= DIRECT
      modifies this`disk, this`saved, this`inodes, bitmap.bits
      ensures |saved| == |old(saved)|
      ensures lba == -1 ==> State() == old(State()) && Grow(old(State()), own, len, reserved, f) == Full
      ensures lba != -1 ==> lba >= 0 && Grow(old(State()), own, len, reserved, f) == Grown(State(), lba)
    {
      hide OwnOk, SlotsOk, ShapeOk, Geometry, SetRange, FirstZero, Write, Read, SetWord, FirstFit, Slot, FirstEntry;
      hide GrowTable, GrowNewTable, EntryTaken, Word;
      ghost var fs0 := State();
      NextSlotIsFree(fs0, own, len, reserved, f);
      TablePointer(fs0, own, len, reserved, f);
      if Pointer(inodes[f], DIRECT) == 0 {
        var none;
        lba, none := FirstIndirectBlock(f);
        if !none { return; }
        StartOfDisk(fs0, reserved);
        lba := NextIndirectBlock(Pointer(inodes[f], DIRECT));
        NoEntryTaken(fs0, 0, State(), lba);
      } else {
        FirstZeroIsNext(fs0, own, len, reserved, f);
        if Blocks.BlockBitmapAllocate(fs0).Grown? { FoundFits(fs0, own, reserved); }
        lba := NextIndirectBlock(Pointer(inodes[f], DIRECT));
        TakenEntryGrows(fs0, own, len, reserved, f, State(), lba);
      }
    }

    /** AllocateOneBlock for the slot after the last one in use. For a direct block it is the address, not
        the index, that BitMapUpdate is given. */
    method AllocateOneBlock(f: nat, idx: nat) returns (lba: int, fate: Fate)
      requires Sound() && f in inodes && f in len && idx == len[f]
      modifies this, bitmap.bits
      ensures |saved| == |old(saved)|
      ensures lba == -1 ==> fate == Fine && State() == old(State()) && own == old(own) && len == old(len)
      ensures lba == -1 <==> Grow(old(State()), old(own), old(len), reserved, f) == Full
      ensures lba != -1 ==> lba >= 0 && idx < MAX_BLOCKS && (f, idx) in own && lba == base + 8 * own[(f, idx)]
      ensures lba != -1 ==> GrownBy(old(State()), old(own), old(len), f, own[(f, idx)], State(), own, len, reserved)
      ensures fate == if lba != -1 && idx < DIRECT then UpdateFate(bitmap.Bits(), lba) else Fine
      ensures FateIs(bitmap.Bits(), base, old(own), own, fate)
      ensures AlwaysFine(|saved|, base, reserved) ==> fate == Fine
    {
      hide Inv, OnlyGrows, SetRange, FirstFit, GrowNewTable, GrowTable, UpdateFate, AlwaysFine, FateIs;
      NothingOwned(bitmap.Bits(), base, own);
      ghost var fs0 := State();
      NextSlotIsFree(fs0, own, len, reserved, f);
      if Grow(fs0, own, len, reserved, f).Grown? { GrowsByOne(fs0, own, len, reserved, f); }
      fate := Fine;
      if idx < DIRECT {
        lba := BlockBitmapAllocate();
        if lba == -1 { return; }
        lba := lba + base;
        inodes := inodes[f := SetPointer(inodes[f], idx, lba)];
        fate := BitMapUpdate(lba);
      } else {
        lba := AllocateIndirectBlock(f);
        if lba == -1 { return; }
      }
      ghost var own0 := own;
      own, len := OwnAfter(fs0, own, f, idx), len[f := idx + 1];
      OneOwned(bitmap.Bits(), base, own0, own, f, idx, fate);
      if AlwaysFine(|saved|, base, reserved) { OwnedIsFine(State(), own, len, reserved, (f, idx)); }
    }

    /** The addresses that file_read and file_write begin by collecting. */
    method Addresses(f: nat) returns (addr: seq<nat>)
      requires f in inodes && |inodes[f]| == WORDS
      requires (Pointer(inodes[f], DIRECT) != 0 ==> OnDisk(disk, Pointer(inodes[f], DIRECT), 8))
      ensures |addr| == MAX_BLOCKS && forall s :: 0 <= s < MAX_BLOCKS ==> addr[s] == Slot(disk, inodes[f], s)
    {
      var w := inodes[f];
      var table :=
        if Pointer(w, DIRECT) != 0 then Words(Read(disk, Pointer(w, DIRECT), 8), PER_TABLE) else seq(PER_TABLE, i => 0);
      addr := w[SECTORS..SECTORS + DIRECT] + table;
    }

    /** The read, the copy and the write of one round of file_write. */
    method PutChunk(lba: nat, buff0: seq<byte>, load: bool, off: nat, chunk: seq<byte>) returns (buff: seq<byte>)
      requires OnDisk(disk, lba, 8) && |buff0| == BLOCK && off + |chunk| <= BLOCK
      modifies this`disk
      ensures buff == Overlay(if load then Read(old(disk), lba, 8) else buff0, off, chunk)
      ensures disk == Write(old(disk), lba, 8, buff)
    {
      buff := buff0;
      if load { buff := Read(disk, lba, 8); }
      buff := Overlay(buff, off, chunk);
      disk := Write(disk, lba, 8, buff);
    }

    /** The block a round of file_write writes to, a new one if need be; `stuck` if none can be had. */
    method RoundBlock(f: nat, ghost fs0: Fs, ghost own0: Slots, ghost len0: map<nat, nat>, ghost old1: seq<byte>,
                      ghost pos: nat, ghost data: seq<byte>, addr: nat, idx0: nat, ghost curPos: nat)
      returns (index: nat, stuck: bool, fate: Fate)
      requires Start(fs0, own0, len0, reserved, f, old1) && f in inodes && |saved| == |bitmap.Bits()|
      requires |saved| % SECTOR_BITS == 0
      requires Mid(fs0, own0, len0, State(), own, len, reserved, f, old1, pos, curPos, data)
      requires idx0 == curPos / BLOCK && idx0 < MAX_BLOCKS && (curPos % BLOCK == 0 || curPos == pos)
      requires addr == Slot(fs0.disk, fs0.inodes[f], idx0)
      modifies this, bitmap.bits
      ensures |saved| == |old(saved)| && FateIs(bitmap.Bits(), base, old(own), own, fate)
      ensures stuck ==> fate == Fine && State() == old(State()) && own == old(own) && len == old(len) &&
                        curPos == BLOCK * idx0 && FewFree(bitmap.Bits(), if idx0 == DIRECT then 2 else 1)
      ensures fate == Fine && !stuck ==>
                Ready(fs0, own0, len0, State(), own, len, reserved, f, old1, pos, curPos, data, index)
      ensures AlwaysFine(|saved|, base, reserved) ==> fate == Fine
    {
      hide FateIs, UpdateFate, AlwaysFine, Inv, Progress, Slot, FewFree, Grow, OnlyGrows, Start;
      NothingOwned(bitmap.Bits(), base, own);
      stuck, fate, index := false, Fine, addr;
      RoundSlot(fs0, own0, len0, State(), own, len, reserved, f, old1, pos, curPos, data, idx0);
      if addr == 0 {
        CannotGrow(State(), own, len, reserved, f);
        var lba;
        lba, fate := AllocateOneBlock(f, idx0);
        if lba == -1 { stuck := true; return; }
        if fate != Fine { return; }
        index := lba;
        GrowingKeepsProgress(fs0, own0, len0, old(State()), old(own), old(len), f, old1, pos, curPos, data,
                             State(), own, len);
        SlotOf(State(), own, len, reserved, f, idx0) by {
          ProgressRecord(fs0, own0, len0, State(), own, len, f, old1, pos, curPos, data);
        }
      }
    }

    /** One round of the loop of file_write. */
    method WriteRound(f: nat, ghost fs0: Fs, ghost own0: Slots, ghost len0: map<nat, nat>, ghost old1: seq<byte>,
                      pos: nat, data: seq<byte>, addr: nat, idx0: nat, curPos: nat, buff0: seq<byte>, endblock: nat)
      returns (nxtWrite: nat, buff: seq<byte>, stuck: bool, fate: Fate)
      requires Start(fs0, own0, len0, reserved, f, old1) && f in inodes
      requires Mid(fs0, own0, len0, State(), own, len, reserved, f, old1, pos, curPos, data)
      requires |saved| == |bitmap.Bits()| && |saved| % SECTOR_BITS == 0 && |buff0| == BLOCK
      requires idx0 == curPos / BLOCK && idx0 < MAX_BLOCKS && (curPos % BLOCK == 0 || curPos == pos)
      requires addr == Slot(fs0.disk, fs0.inodes[f], idx0) && endblock == |old1| / BLOCK
      requires pos <= curPos < pos + |data| && pos <= |old1|
      modifies this, bitmap.bits
      ensures |saved| == |old(saved)| && |buff| == BLOCK
      ensures nxtWrite == Min(pos + |data| - curPos, BLOCK - curPos % BLOCK) > 0
      ensures stuck ==> fate == Fine && State() == old(State()) && own == old(own) && len == old(len) &&
                        curPos == BLOCK * idx0 && FewFree(bitmap.Bits(), if idx0 == DIRECT then 2 else 1)
      ensures fate == Fine && !stuck ==>
                f in inodes && Mid(fs0, own0, len0, State(), own, len, reserved, f, old1, pos, curPos + nxtWrite, data)
      ensures FateIs(bitmap.Bits(), base, old(own), own, fate)
      ensures AlwaysFine(|saved|, base, reserved) ==> fate == Fine
    {
      hide FateIs, AlwaysFine, Inv, Mid, Ready, Slot, Overlay, Read, Write, FewFree, Start;
      var off := curPos % BLOCK;
      var left := BLOCK - off;
      nxtWrite := Min(Min(pos + |data| - curPos, BLOCK), left);
      buff := buff0;
      var index;
      index, stuck, fate := RoundBlock(f, fs0, own0, len0, old1, pos, data, addr, idx0, curPos);
      if stuck || fate != Fine { return; }
      ghost var fs1 := State();
      ReadyBlock(fs0, own0, len0, fs1, own, len, reserved, f, old1, pos, curPos, data, index);
      buff := PutChunk(index, buff, curPos / BLOCK <= endblock, off, data[curPos - pos..curPos - pos + nxtWrite]);
      ghost var under := if curPos / BLOCK <= endblock then Read(fs1.disk, index, 8) else buff0;
      assert State() == Put(fs1, own[(f, idx0)], buff);
      ChunkWritten(fs0, own0, len0, fs1, own, len, reserved, f, old1, pos, curPos, data, index, nxtWrite, under, buff);
    }

    /** The new size, and InodeWrite. */
    method InodeWrite(f: nat, size: nat)
      requires f in inodes && IsRecord(inodes[f]) && size < WORD_MOD && HasTable(disk, table) && f < MAX_INODES
      modifies this`disk, this`inodes
      ensures State() == Closed(old(State()), f, size)
    {
      hide InodeTable.Written;
      var w: seq<nat> := inodes[f][SIZE := size];
      inodes := inodes[f := w];
      disk := InodeTable.Written(disk, table, f, w);
    }

    /** The loop of file_write, from the addresses `addr` collected before it. */
    method WriteLoop(f: nat, ghost fs0: Fs, ghost own0: Slots, ghost len0: map<nat, nat>, ghost old1: seq<byte>,
                     pos: nat, data: seq<byte>, addr: seq<nat>, endblock: nat)
      returns (write: nat, curPos: nat, fate: Fate)
      requires Start(fs0, own0, len0, reserved, f, old1) && f in inodes && own == own0
      requires Mid(fs0, own0, len0, State(), own, len, reserved, f, old1, pos, pos, data)
      requires |saved| == |bitmap.Bits()| && |saved| % SECTOR_BITS == 0 && endblock == |old1| / BLOCK && pos <= |old1|
      requires |addr| == MAX_BLOCKS && forall s :: 0 <= s < MAX_BLOCKS ==> addr[s] == Slot(fs0.disk, fs0.inodes[f], s)
      modifies this, bitmap.bits
      ensures write <= |data| && curPos == pos + write
      ensures |saved| == |old(saved)| && FateIs(bitmap.Bits(), base, own0, own, fate)
      ensures fate == Fine ==>
                f in inodes && Mid(fs0, own0, len0, State(), own, len, reserved, f, old1, pos, curPos, data)
      ensures fate == Fine && write < |data| ==>
                curPos % BLOCK == 0 &&
                (curPos == BLOCK * MAX_BLOCKS || FewFree(bitmap.Bits(), if curPos == BLOCK * DIRECT then 2 else 1))
      ensures AlwaysFine(|saved|, base, reserved) ==> fate == Fine
    {
      hide FateIs, AlwaysFine, Inv, Mid, Start, FewFree, Slot, Progress;
      NothingOwned(bitmap.Bits(), base, own);
      var buff := Zeros(BLOCK);
      write, curPos, fate := 0, pos, Fine;
      var idx0 := pos / BLOCK;
      var size := |data|;
      var stuck := false;
      while size > 0 && idx0 < MAX_BLOCKS && !stuck
        invariant write + size == |data| && curPos == pos + write && |buff| == BLOCK
        invariant |saved| == |bitmap.Bits()| == |old(saved)| && |saved| % SECTOR_BITS == 0 && f in inodes
        invariant fate == Fine
        invariant Mid(fs0, own0, len0, State(), own, len, reserved, f, old1, pos, curPos, data)
        invariant size > 0 ==> idx0 == curPos / BLOCK && (curPos % BLOCK == 0 || curPos == pos)
        invariant stuck ==> curPos % BLOCK == 0 && FewFree(bitmap.Bits(), if curPos == BLOCK * DIRECT then 2 else 1)
        invariant FateIs(bitmap.Bits(), base, own0, own, Fine)
        decreases size, !stuck
      {
        var nxtWrite;
        ghost var bits1, own1 := bitmap.Bits(), own;
        nxtWrite, buff, stuck, fate :=
          WriteRound(f, fs0, own0, len0, old1, pos, data, addr[idx0], idx0, curPos, buff, endblock);
        FatesJoin(bits1, bitmap.Bits(), base, own0, own1, own, fate);
        if fate != Fine { return; }
        if !stuck {
          write, curPos, size := write + nxtWrite, curPos + nxtWrite, size - nxtWrite;
          idx0 := idx0 + 1;
          NextRound(curPos - nxtWrite, pos, |data|, nxtWrite);
        }
      }
      WriteEnds(fs0, own0, len0, State(), own, len, reserved, f, old1, pos, curPos, data);
    }

    /** file_write: `write` bytes go into the file at `pos`; `curPos` is the new fd_pos. A file position is
        never beyond the end of the file (syscall_seek), and counts from 2^31 on are negative to `min`.
        It ends normally exactly if the address of every direct block it added suits BitMapUpdate. */
    method FileWrite(f: nat, pos: nat, data: seq<byte>) returns (write: nat, curPos: nat, fate: Fate)
      requires Valid() && f in inodes && pos <= |Contents()[f]| && |data| < 0x8000_0000
      modifies this, bitmap.bits
      ensures write <= |data| && curPos == pos + write && |saved| == |old(saved)|
      ensures fate == Fine ==> Valid()
      ensures fate == Fine ==> Contents() == old(Contents())[f := Splice(old(Contents())[f], pos, data[..write])]
      ensures fate == Fine && write < |data| ==>
                curPos % BLOCK == 0 &&
                (curPos == BLOCK * MAX_BLOCKS || FewFree(bitmap.Bits(), if curPos == BLOCK * DIRECT then 2 else 1))
      ensures fate == Fine ==>
                f in inodes && f < MAX_INODES && HasTable(disk, table) && Stored(disk, table, f) == inodes[f]
      ensures fate == Fine && old(Recorded(State())) ==> Recorded(State())
      ensures FateIs(bitmap.Bits(), base, old(own), own, fate)
      ensures AlwaysFine(|saved|, base, reserved) ==> fate == Fine
    {
      hide FateIs, AlwaysFine, Inv, Mid, Start, AtRest, Files, Splice;
      hide FewFree, Slot, Stored, Closed, InodeTable.Written, ContentsAtRest, Words, Progress;
      hide Recorded, RecordedBut;
      ghost var fs0, own0, len0 := State(), own, len;
      if Recorded(fs0) { RecordedButOne(fs0, fs0, f); }
      ghost var old1 := ContentsAtRest(fs0, own0, len0, reserved, f);
      FilesAt(fs0, own0, len0, reserved, f);
      WriteBegins(fs0, own0, len0, reserved, f, pos, data);
      var addr := Addresses(f);
      write, curPos, fate := WriteLoop(f, fs0, own0, len0, old1, pos, data, addr, inodes[f][SIZE] / BLOCK);
      if fate != Fine { return; }
      WriteDone(fs0, own0, len0, State(), own, len, reserved, f, pos, curPos, data);
      InodeWrite(f, Max(curPos, inodes[f][SIZE]));
    }

    /** What file_create does for the inode of a new file: InodeInit, the first opening, InodeWrite. */
    method NewFile(f: nat)
      requires Valid() && f !in inodes && f < MAX_INODES
      modifies this`disk, this`inodes, this`len
      ensures Valid() && Contents() == old(Contents())[f := []]
      ensures HasTable(disk, table) && inodes == old(inodes)[f := NewRecord(f)] && Stored(disk, table, f) == inodes[f]
      ensures old(Recorded(State())) ==> Recorded(State())
    {
      hide Recorded, RecordedBut, Inv, AtRest, Files, Slot;
      hide Stored, InodeTable.Written, ContentsAtRest, Mid, Splice, NewRecord;
      ghost var fs0, len0 := State(), len;
      NewFileKeeps(fs0, own, len0, reserved, f, NewRecord(f));
      inodes := inodes[f := NewRecord(f)];
      len := len[f := 0];
      ghost var fs1 := State();
      if Recorded(fs0) { RecordedButOne(fs0, fs1, f); }
      FilesAt(fs1, own, len, reserved, f);
      WriteBegins(fs1, own, len, reserved, f, 0, []);
      WriteDone(fs1, own, len, fs1, own, len, reserved, f, 0, 0, []);
      NothingSpliced();
      assert NewRecord(f)[SIZE := 0] == NewRecord(f);
      InodeWrite(f, 0);
    }

    /** file_read: the bytes from `pos` on, and the new fd_pos. */
    method FileRead(f: nat, pos: nat, cnt: nat) returns (buf: seq<byte>, curP: nat)
      requires Valid() && f in inodes && pos <= |Contents()[f]| && cnt < 0x8000_0000
      ensures curP == ReadEnd(|Contents()[f]|, pos, cnt) && buf == Contents()[f][pos..curP]
    {
      hide Inv, AtRest, Files, Slot, ContentsAtRest, Words, Read;
      FilesAt(State(), own, len, reserved, f);
      TableIsReadable(State(), own, len, reserved, f);
      ghost var c := ContentsAtRest(State(), own, len, reserved, f);
      var addr := Addresses(f);
      var fileSize := inodes[f][SIZE];
      buf, curP := [], pos;
      var idx0, left := pos / BLOCK, cnt;
      while left > 0 && curP < fileSize && idx0 < READ_BLOCKS
        invariant pos <= curP <= |c| && curP - pos + left == cnt && 0 <= left && 0 <= idx0 && buf == c[pos..curP]
        invariant left > 0 && curP < fileSize ==> idx0 == curP / BLOCK && (curP % BLOCK == 0 || curP == pos)
        invariant curP == pos || curP <= BLOCK * READ_BLOCKS
        modifies {}
      {
        var off := curP % BLOCK;
        SlotInUse(State(), own, len, reserved, f, curP);
        if addr[idx0] == 0 { assert false; }
        var needRead := Min(Min(Min(BLOCK, left), BLOCK - off), fileSize - curP);
        var buff := Read(disk, addr[idx0], 8);
        ChunkOfContents(State(), own, len, reserved, f, curP, needRead);
        ReadMore(c, pos, curP, needRead, buf, buff[off..off + needRead]);
        buf := buf + buff[off..off + needRead];
        NextRead(curP, needRead, left, fileSize);
        left, curP := left - needRead, curP + needRead;
        idx0 := idx0 + 1;
      }
      ReadStops(|c|, pos, cnt, curP, left, idx0);
    }

    /** One block given back. */
    method FreeBlock(lba: nat, ghost k: (nat, nat), ghost o: Slots)
      requires OwnOk(bitmap.Bits(), o, reserved) && k in o && lba == base + 8 * o[k]
      requires |saved| == |bitmap.Bits()| && |saved| % SECTOR_BITS == 0
      modifies this`saved, bitmap.bits
      ensures OwnOk(bitmap.Bits(), o - {k}, reserved) && |saved| == |bitmap.Bits()| == |old(saved)|
      ensures bitmap.Bits() == SetRange(old(bitmap.Bits()), 8 * o[k], 8, false)
      ensures old(saved) == old(bitmap.Bits()) ==> saved == bitmap.Bits()
    {
      hide OwnOk, SetRange, Saved, UpdateFate;
      ghost var bits0, saved0 := bitmap.Bits(), saved;
      OwnedInRange(bits0, o, reserved, k);
      FreedIsNobodys(bits0, o, reserved, k);
      var idx := lba - base;
      BlockBitMapReset(idx);
      ghost var bits1 := bitmap.Bits();
      var fate := BitMapUpdate(idx);
      IndexIsFine(bits1, o[k]);
      if saved0 == bits0 { IndexUpdates(bits0, saved0, o[k], false); }
    }

    /** The blocks of the file, and its table, are given back. */
    method FreeBlocks(f: nat, addrBuf: seq<nat>) returns (ghost o: Slots)
      requires Sound() && f in inodes && |inodes[f]| == WORDS && |addrBuf| == MAX_BLOCKS && f in len
      requires Pointer(inodes[f], DIRECT) != 0 ==> OnDisk(disk, Pointer(inodes[f], DIRECT), 8)
      requires FreedCount(Collected(disk, inodes[f], addrBuf)) == len[f]
      modifies this`saved, bitmap.bits
      ensures OwnOk(bitmap.Bits(), o, reserved) && |saved| == |bitmap.Bits()| == |old(bitmap.Bits())|
      ensures Remaining(own, o, f, len[f])
      ensures old(saved) == old(bitmap.Bits()) ==> saved == bitmap.Bits()
    {
      hide Inv, OwnOk, Slot, Words, Read, FreedCount, Remaining, SetRange;
      ghost var fs0 := State();
      RecycleBegins(fs0, own, len, reserved, f);
      var w := inodes[f];
      var addr := Collected(disk, w, addrBuf);
      o := own;
      if Pointer(w, DIRECT) != 0 {
        FreeBlock(Pointer(w, DIRECT), (f, TABLE), o);
        o := o - {(f, TABLE)};
      }
      RemainingStart(own, o, f);
      var i := 0;
      while i < MAX_BLOCKS
        invariant 0 <= i <= FreedCount(addr) && FreedCount(addr, i) == FreedCount(addr)
        invariant OwnOk(bitmap.Bits(), o, reserved) && |saved| == |bitmap.Bits()| == |fs0.bits|
        invariant |saved| % SECTOR_BITS == 0 && Remaining(own, o, f, i)
        invariant old(saved) == old(bitmap.Bits()) ==> saved == bitmap.Bits()
      {
        FreedCountStep(addr, i);
        if addr[i] == 0 { break; }
        RecycledSlot(fs0, own, len, reserved, f, i, o, addrBuf);
        FreeBlock(addr[i], (f, i), o);
        RemainingNext(own, o, f, i);
        o := o - {(f, i)};
        i := i + 1;
      }
      FreedCountEnd(addr, i);
    }

    /** InodeRecycle, with the condition of RecycleIsExact on the caller's buffer, which syscall_unlink
        meets by passing zeros. */
    method InodeRecycle(f: nat, addrBuf: seq<nat>)
      requires Valid() && f in inodes && |inodes[f]| == WORDS && |addrBuf| == MAX_BLOCKS
      requires Pointer(inodes[f], DIRECT) != 0 || (exists i :: 0 <= i < DIRECT && Pointer(inodes[f], i) == 0) ||
               addrBuf[DIRECT] == 0
      modifies this, bitmap.bits
      ensures Valid() && Contents() == old(Contents()) - {f}
      ensures inodes == old(inodes) - {f} && disk == old(disk)
      ensures old(Recorded(State())) ==> Recorded(State())
      ensures old(saved) == old(bitmap.Bits()) ==> saved == bitmap.Bits()
    {
      hide Inv, OwnOk, AtRest, Files, Collected, FreedCount, Remaining, Recorded, RecordedBut;
      ghost var fs0, own0, len0 := State(), own, len;
      RecycleIsExact(fs0, own0, len0, reserved, f, addrBuf);
      ghost var o := FreeBlocks(f, addrBuf);
      ForgettingKeeps(fs0, own0, len0, reserved, f, bitmap.Bits(), o, len0[f]);
      inodes := inodes - {f};
      own, len := o, len - {f};
      if Recorded(fs0) { RecordedButOne(fs0, State(), f); }
      ForgettingKeepsFiles(fs0, own0, len0, reserved, f, State(), own, len0[f]);
    }
  }

  /** What the two calls of BlockBitmapAllocate for a first indirect block may find. */
  lemma TwoBlocks(fs: Fs, own: Slots, len: map<nat, nat>, reserved: set<nat>, f: nat)
    requires Inv(fs, own, len, reserved) && f in fs.inodes && len[f] == DIRECT && |fs.inodes[f]| == WORDS
    ensures match Blocks.BlockBitmapAllocate(fs)
      case Full => GrowNewTable(fs, own, len, reserved, f) == Full
      case Grown(fs0, r0) =>
        fs0 == fs.(bits := fs0.bits) && |fs0.bits| == |fs.bits| && r0 + 8 <= |fs.bits| &&
        SetRange(fs0.bits, r0, 8, false) == fs.bits &&
        match Blocks.BlockBitmapAllocate(fs0)
        case Full => GrowNewTable(fs, own, len, reserved, f) == Full
        case Grown(fs1, r1) =>
          fs1 == fs.(bits := fs1.bits) && |fs1.bits| == |fs.bits| &&
          OnDisk(fs.disk, fs.base + r0, 8) && fs.base + r0 < WORD_MOD && fs.base + r1 < WORD_MOD &&
          GrowNewTable(fs, own, len, reserved, f) == NewTable(fs1, f, r0, r1)
  {
    hide NewTable, SlotsOk, ShapeOk, OwnOk, Geometry;
    match Blocks.BlockBitmapAllocate(fs)
    case Full =>
    case Grown(fs0, r0) =>
      RollBack(fs.bits, r0);
      if Blocks.BlockBitmapAllocate(fs0).Grown? {
        NoTableYet(fs, own, len, reserved, f);
        FoundTwice(fs, own, reserved, f);
      }
  }

  lemma NoTableYet(fs: Fs, own: Slots, len: map<nat, nat>, reserved: set<nat>, f: nat)
    requires Inv(fs, own, len, reserved) && f in fs.inodes && len[f] == DIRECT
    ensures (f, TABLE) !in own && (f, DIRECT) !in own
  {
    assert !InUse(DIRECT, TABLE) && !InUse(DIRECT, DIRECT);
  }

  lemma TablePointer(fs: Fs, own: Slots, len: map<nat, nat>, reserved: set<nat>, f: nat)
    requires Inv(fs, own, len, reserved) && f in fs.inodes && len[f] >= DIRECT
    ensures |fs.inodes[f]| == WORDS && (Pointer(fs.inodes[f], DIRECT) == 0 <==> len[f] == DIRECT)
    ensures len[f] > DIRECT ==> (f, TABLE) in own && Pointer(fs.inodes[f], DIRECT) == fs.base + 8 * own[(f, TABLE)]
  {
    assert Slot(fs.disk, fs.inodes[f], TABLE) == if (f, TABLE) in own then fs.base + 8 * own[(f, TABLE)] else 0;
    assert (f, TABLE) in own <==> InUse(len[f], TABLE);
  }

  lemma StartOfDisk(fs: Fs, reserved: set<nat>)
    requires Geometry(fs, reserved)
    ensures OnDisk(fs.disk, 0, 8)
  {}

  lemma NoEntryTaken(fs: Fs, at: nat, fs1: Fs, lba: int)
    requires OnDisk(fs.disk, at, 8) && Blocks.BlockBitmapAllocate(fs) == Full && EntryTaken(fs, at, fs1, lba)
    ensures lba == -1 && fs1 == fs
  {}

  lemma ProgressRecord(fs0: Fs, own0: Slots, len0: map<nat, nat>, fs: Fs, own: Slots, len: map<nat, nat>,
                       f: nat, old1: seq<byte>, pos: nat, cur: nat, data: seq<byte>)
    requires Progress(fs0, own0, len0, fs, own, len, f, old1, pos, cur, data)
    ensures f in fs.inodes && |fs.inodes[f]| == WORDS
  {}

  lemma ReadyBlock(fs0: Fs, own0: Slots, len0: map<nat, nat>, fs: Fs, own: Slots, len: map<nat, nat>,
                   reserved: set<nat>, f: nat, old1: seq<byte>, pos: nat, cur: nat, data: seq<byte>, index: nat)
    requires Ready(fs0, own0, len0, fs, own, len, reserved, f, old1, pos, cur, data, index)
    ensures (f, cur / BLOCK) in own && index == fs.base + 8 * own[(f, cur / BLOCK)] && OnDisk(fs.disk, index, 8)
  {}

  lemma ChunkWritten(fs0: Fs, own0: Slots, len0: map<nat, nat>, fs: Fs, own: Slots, len: map<nat, nat>,
                     reserved: set<nat>, f: nat, old1: seq<byte>, pos: nat, cur: nat, data: seq<byte>, index: nat,
                     m: nat, under: seq<byte>, b: seq<byte>)
    requires Ready(fs0, own0, len0, fs, own, len, reserved, f, old1, pos, cur, data, index)
    requires pos <= cur && m == Min(pos + |data| - cur, BLOCK - cur % BLOCK) > 0 && pos <= |old1|
    requires |under| == BLOCK && (cur / BLOCK <= |old1| / BLOCK ==> under == Read(fs.disk, index, 8))
    requires (cur % BLOCK == 0 || cur == pos)
    requires b == Overlay(under, cur % BLOCK, data[cur - pos..cur - pos + m])
    ensures var fs1 := Put(fs, own[(f, cur / BLOCK)], b);
            f in fs1.inodes && Mid(fs0, own0, len0, fs1, own, len, reserved, f, old1, pos, cur + m, data)
  {
    hide Inv, Progress, Overlay, Read;
    Behind(|old1|, pos, cur);
    RoundKeepsProgress(fs0, own0, len0, fs, own, len, reserved, f, old1, pos, cur, data, m, under, b);
    CountingOn(|old1|, cur, m, len[f]);
    ProgressRecord(fs0, own0, len0, Put(fs, own[(f, cur / BLOCK)], b), own, len, f, old1, pos, cur + m, data);
  }

  lemma Behind(n: nat, pos: nat, cur: nat)
    requires pos <= n && (cur % BLOCK == 0 || cur == pos)
    ensures cur / BLOCK > n / BLOCK ==> cur % BLOCK == 0
  {}

  lemma NextRound(cur: nat, pos: nat, n: nat, m: nat)
    requires pos <= cur < pos + n && m == Min(pos + n - cur, BLOCK - cur % BLOCK)
    ensures cur + m < pos + n ==> (cur + m) % BLOCK == 0 && (cur + m) / BLOCK == cur / BLOCK + 1
  {}

  lemma FilesAt(fs: Fs, own: Slots, len: map<nat, nat>, reserved: set<nat>, f: nat)
    requires Inv(fs, own, len, reserved) && AtRest(fs.inodes, len) && f in fs.inodes
    ensures |fs.inodes[f]| == WORDS && Files(fs, own, len, reserved)[f] == ContentsAtRest(fs, own, len, reserved, f)
  {
    hide Inv;
  }

  lemma TableIsReadable(fs: Fs, own: Slots, len: map<nat, nat>, reserved: set<nat>, f: nat)
    requires Inv(fs, own, len, reserved) && f in fs.inodes
    ensures |fs.inodes[f]| == WORDS
    ensures (Pointer(fs.inodes[f], DIRECT) != 0 ==> OnDisk(fs.disk, Pointer(fs.inodes[f], DIRECT), 8))
  {
    if len[f] < DIRECT {
      NoTablePointer(fs, own, len, reserved, f);
    } else {
      TablePointer(fs, own, len, reserved, f);
      if len[f] > DIRECT { OwnedIsOnDisk(fs, own, reserved, (f, TABLE)); }
    }
  }

  lemma NothingWrittenYet(fs: Fs, own: Slots, len: map<nat, nat>, reserved: set<nat>, f: nat, pos: nat, data: seq<byte>)
    requires Inv(fs, own, len, reserved) && AtRest(fs.inodes, len) && f in fs.inodes
    requires pos <= |ContentsAtRest(fs, own, len, reserved, f)|
    ensures Written(fs, own, f, ContentsAtRest(fs, own, len, reserved, f), pos, pos, data)
  {
    var old1 := ContentsAtRest(fs, own, len, reserved, f);
    assert Splice(old1, pos, data[..0]) == old1;
    hide ContentsAtRest, Splice, Inv, Holds;
  }

  lemma StartOthersSame(fs: Fs, own: Slots, len: map<nat, nat>, f: nat)
    ensures OthersSame(fs, own, len, fs, own, len, f)
  {}

  lemma WriteBegins(fs0: Fs, own0: Slots, len0: map<nat, nat>, reserved: set<nat>, f: nat, pos: nat, data: seq<byte>)
    requires Inv(fs0, own0, len0, reserved) && AtRest(fs0.inodes, len0) && f in fs0.inodes
    requires pos <= |ContentsAtRest(fs0, own0, len0, reserved, f)|
    ensures |fs0.inodes[f]| == WORDS
    ensures var old1 := ContentsAtRest(fs0, own0, len0, reserved, f);
            Start(fs0, own0, len0, reserved, f, old1) && |old1| == fs0.inodes[f][SIZE] &&
            Mid(fs0, own0, len0, fs0, own0, len0, reserved, f, old1, pos, pos, data)
    ensures Pointer(fs0.inodes[f], DIRECT) != 0 ==> OnDisk(fs0.disk, Pointer(fs0.inodes[f], DIRECT), 8)
  {
    SizeFits(fs0.inodes, own0, len0, f);
    TableIsReadable(fs0, own0, len0, reserved, f);
    hide ContentsAtRest, Inv, Holds, Written, OthersSame;
    NothingWrittenYet(fs0, own0, len0, reserved, f, pos, data);
    StartOthersSame(fs0, own0, len0, f);
  }

  lemma NoTablePointer(fs: Fs, own: Slots, len: map<nat, nat>, reserved: set<nat>, f: nat)
    requires Inv(fs, own, len, reserved) && f in fs.inodes && len[f] < DIRECT
    ensures |fs.inodes[f]| == WORDS && Pointer(fs.inodes[f], DIRECT) == 0
  {
    assert Slot(fs.disk, fs.inodes[f], TABLE) == if (f, TABLE) in own then fs.base + 8 * own[(f, TABLE)] else 0;
    assert (f, TABLE) in own <==> InUse(len[f], TABLE);
  }

  lemma WriteEnds(fs0: Fs, own0: Slots, len0: map<nat, nat>, fs: Fs, own: Slots, len: map<nat, nat>, reserved: set<nat>,
                  f: nat, old1: seq<byte>, pos: nat, cur: nat, data: seq<byte>)
    requires Mid(fs0, own0, len0, fs, own, len, reserved, f, old1, pos, cur, data)
    ensures Inv(fs, own, len, reserved) && pos <= cur <= pos + |data| && f in len
    ensures len[f] == BlockCount(Max(|old1|, cur))
    ensures Progress(fs0, own0, len0, fs, own, len, f, old1, pos, cur, data) && cur <= BLOCK * MAX_BLOCKS
    ensures f in fs.inodes && f in fs0.inodes && |fs.inodes[f]| == |fs0.inodes[f]| == WORDS
    ensures fs.inodes[f][SIZE] == fs0.inodes[f][SIZE]
  {}

  /** The state once the size has been updated and the inode stored. */
  lemma WriteDone(fs0: Fs, own0: Slots, len0: map<nat, nat>, fs: Fs, own: Slots, len: map<nat, nat>, reserved: set<nat>,
                  f: nat, pos: nat, cur: nat, data: seq<byte>)
    requires Inv(fs0, own0, len0, reserved) && AtRest(fs0.inodes, len0) && f in fs0.inodes && pos <= cur <= pos + |data|
    requires Mid(fs0, own0, len0, fs, own, len, reserved, f, ContentsAtRest(fs0, own0, len0, reserved, f),
                 pos, cur, data)
    ensures f in fs.inodes && IsRecord(fs.inodes[f]) && HasTable(fs.disk, fs.table) && f < MAX_INODES
    ensures Max(cur, fs.inodes[f][SIZE]) < WORD_MOD
    ensures var t := Closed(fs, f, Max(cur, fs.inodes[f][SIZE]));
            Inv(t, own, len, reserved) && AtRest(t.inodes, len) && f in t.inodes &&
            Files(t, own, len, reserved) ==
              Files(fs0, own0, len0, reserved)[
                f := Splice(Files(fs0, own0, len0, reserved)[f], pos, data[..cur - pos])] &&
            HasTable(t.disk, t.table) && Stored(t.disk, t.table, f) == t.inodes[f] &&
            (RecordedBut(fs0, f) ==> Recorded(t))
  {
    hide Inv, Mid, AtRest, Files, Splice, Stored, Closed, ContentsAtRest, Progress, RecordedBut, Recorded;
    var old1 := ContentsAtRest(fs0, own0, len0, reserved, f);
    FilesAt(fs0, own0, len0, reserved, f);
    SizeIsLength(fs0, own0, len0, reserved, f);
    WriteEnds(fs0, own0, len0, fs, own, len, reserved, f, old1, pos, cur, data);
    WriteSplices(fs0, own0, len0, reserved, fs, own, len, f, pos, cur, data, Max(|old1|, cur));
    ClosingKeeps(fs, own, len, reserved, f, Max(|old1|, cur));
    ClosedTable(fs, f, Max(|old1|, cur));
    if RecordedBut(fs0, f) {
      OthersStay(fs0, own0, len0, reserved, fs, own, len, f, old1, pos, cur, data);
      WriteRecords(fs0, own0, len0, fs, own, len, f, Max(|old1|, cur));
    }
  }

  lemma OthersStay(fs0: Fs, own0: Slots, len0: map<nat, nat>, reserved: set<nat>, fs: Fs, own: Slots,
                   len: map<nat, nat>, f: nat, old1: seq<byte>, pos: nat, cur: nat, data: seq<byte>)
    requires Inv(fs0, own0, len0, reserved) && Progress(fs0, own0, len0, fs, own, len, f, old1, pos, cur, data)
    ensures OthersSame(fs0, own0, len0, fs, own, len, f) && fs0.table + TABLE_SECTORS <= fs0.base
  {}

  lemma SizeIsLength(fs0: Fs, own0: Slots, len0: map<nat, nat>, reserved: set<nat>, f: nat)
    requires Inv(fs0, own0, len0, reserved) && AtRest(fs0.inodes, len0) && f in fs0.inodes
    ensures |fs0.inodes[f]| == WORDS && |ContentsAtRest(fs0, own0, len0, reserved, f)| == fs0.inodes[f][SIZE]
  {
    hide Inv;
  }

  /** A new inode, opened once. */
  function NewRecord(f: nat): (w: seq<nat>)
    requires f < MAX_INODES
    ensures IsRecord(w) && w[SIZE] == 0 && forall i :: 0 <= i < 15 ==> Pointer(w, i) == 0
    ensures w[INDEX] == f && w[OPEN_CNT] == 1 && w[DENY] == 0
  {
    seq(WORDS, i => 0)[INDEX := f][OPEN_CNT := 1]
  }

  lemma NothingSpliced()
    ensures Splice([], 0, []) == []
  {}

  lemma ClosedTable(fs: Fs, f: nat, size: nat)
    requires f in fs.inodes && IsRecord(fs.inodes[f]) && size < WORD_MOD && HasTable(fs.disk, fs.table)
    requires f < MAX_INODES
    ensures var t := Closed(fs, f, size); HasTable(t.disk, t.table) && f in t.inodes && t.table == fs.table
  {
    hide InodeTable.Written;
  }

  lemma NextRead(cur: nat, m: nat, left: nat, size: nat)
    requires cur < size && left > 0 && m == Min(Min(Min(BLOCK, left), BLOCK - cur % BLOCK), size - cur)
    ensures m > 0 && cur % BLOCK + m <= BLOCK && (cur / BLOCK < READ_BLOCKS ==> cur + m <= BLOCK * READ_BLOCKS)
    ensures m < left && cur + m < size ==> (cur + m) % BLOCK == 0 && (cur + m) / BLOCK == cur / BLOCK + 1
  {}

  lemma SlotInUse(fs: Fs, own: Slots, len: map<nat, nat>, reserved: set<nat>, f: nat, p: nat)
    requires Inv(fs, own, len, reserved) && AtRest(fs.inodes, len) && f in fs.inodes
    requires p < |ContentsAtRest(fs, own, len, reserved, f)| && p / BLOCK < MAX_BLOCKS
    ensures |fs.inodes[f]| == WORDS && (f, p / BLOCK) in own
    ensures var a := Slot(fs.disk, fs.inodes[f], p / BLOCK);
            a == fs.base + 8 * own[(f, p / BLOCK)] && a != 0 && OnDisk(fs.disk, a, 8)
  {
    var c := ContentsAtRest(fs, own, len, reserved, f);
    assert Holds(fs, own, f, p, c[p]);
    hide ContentsAtRest, Slot;
    SizeFits(fs.inodes, own, len, f);
    SlotOf(fs, own, len, reserved, f, p / BLOCK);
  }

  lemma ReadStops(n: nat, pos: nat, cnt: nat, cur: nat, left: nat, idx0: nat)
    requires pos <= cur <= n && cur - pos + left == cnt && (left == 0 || cur >= n || idx0 >= READ_BLOCKS)
    requires left > 0 && cur < n ==> idx0 == cur / BLOCK
    requires cur == pos || cur <= BLOCK * READ_BLOCKS
    ensures cur == ReadEnd(n, pos, cnt)
  {}

  lemma OwnedInRange(bits: seq<bool>, o: Slots, reserved: set<nat>, k: (nat, nat))
    requires OwnOk(bits, o, reserved) && k in o
    ensures 8 * o[k] + 8 <= |bits|
  {}

  lemma FreedCountStep(addr: seq<nat>, i: nat)
    requires i < |addr|
    ensures addr[i] == 0 ==> FreedCount(addr, i) == i
    ensures addr[i] != 0 ==> FreedCount(addr, i) == FreedCount(addr, i + 1) >= i + 1
  {}

  lemma FreedCountEnd(addr: seq<nat>, i: nat)
    requires i <= FreedCount(addr) && FreedCount(addr, i) == FreedCount(addr) && (i == |addr| || addr[i] == 0)
    ensures i == FreedCount(addr)
  {}

  lemma RemainingStart(own0: Slots, o: Slots, f: nat)
    requires if (f, TABLE) in own0 then o == own0 - {(f, TABLE)} else o == own0
    ensures Remaining(own0, o, f, 0)
  {}

  lemma RecycleBegins(fs: Fs, own: Slots, len: map<nat, nat>, reserved: set<nat>, f: nat)
    requires Inv(fs, own, len, reserved) && f in fs.inodes && |fs.inodes[f]| == WORDS
    ensures OwnOk(fs.bits, own, reserved) && ((f, TABLE) in own <==> Pointer(fs.inodes[f], DIRECT) != 0)
    ensures (f, TABLE) in own ==> Pointer(fs.inodes[f], DIRECT) == fs.base + 8 * own[(f, TABLE)]
  {
    assert Slot(fs.disk, fs.inodes[f], TABLE) == if (f, TABLE) in own then fs.base + 8 * own[(f, TABLE)] else 0;
    assert fs.base > 0;
  }

  lemma RecycledSlot(fs: Fs, own: Slots, len: map<nat, nat>, reserved: set<nat>, f: nat, i: nat, o: Slots,
                     buf: seq<nat>)
    requires Inv(fs, own, len, reserved) && f in fs.inodes && |fs.inodes[f]| == WORDS && Remaining(own, o, f, i)
    requires |buf| == MAX_BLOCKS
    requires (Pointer(fs.inodes[f], DIRECT) != 0 ==> OnDisk(fs.disk, Pointer(fs.inodes[f], DIRECT), 8))
    requires f in len && FreedCount(Collected(fs.disk, fs.inodes[f], buf)) == len[f] && i < MAX_BLOCKS && i < len[f]
    ensures (f, i) in o && Collected(fs.disk, fs.inodes[f], buf)[i] == fs.base + 8 * o[(f, i)]
  {
    SlotOf(fs, own, len, reserved, f, i);
    if i >= DIRECT {
      assert len[f] > DIRECT;
      TablePointer(fs, own, len, reserved, f);
    }
    hide Inv, Slot, FreedCount, Collected;
  }

  lemma NewFileInv(fs: Fs, own: Slots, len: map<nat, nat>, reserved: set<nat>, f: nat, w: seq<nat>)
    requires Inv(fs, own, len, reserved) && f !in fs.inodes && f < MAX_INODES
    requires IsRecord(w) && forall i :: 0 <= i < 15 ==> Pointer(w, i) == 0
    ensures Inv(fs.(inodes := fs.inodes[f := w]), own, len[f := 0], reserved)
  {
    hide OwnOk;
    var fs1 := fs.(inodes := fs.inodes[f := w]);
    forall s: nat ensures (f, s) !in own {}
    forall g, s: nat | g in fs1.inodes && |fs1.inodes[g]| == WORDS && s <= TABLE
      ensures Slot(fs1.disk, fs1.inodes[g], s) == if (g, s) in own then fs1.base + 8 * own[(g, s)] else 0
    {
      if g != f {
        assert Slot(fs.disk, fs.inodes[g], s) == if (g, s) in own then fs.base + 8 * own[(g, s)] else 0;
      }
    }
  }

  lemma NewFileAtRest(inodes: map<nat, seq<nat>>, len: map<nat, nat>, f: nat, w: seq<nat>)
    requires len.Keys == inodes.Keys && AtRest(inodes, len) && IsRecord(w) && w[SIZE] == 0
    ensures len[f := 0].Keys == inodes[f := w].Keys && AtRest(inodes[f := w], len[f := 0])
  {}

  lemma NewFileOther(fs: Fs, own: Slots, len: map<nat, nat>, reserved: set<nat>, f: nat, w: seq<nat>, g: nat)
    requires Inv(fs, own, len, reserved) && AtRest(fs.inodes, len) && f !in fs.inodes && g in fs.inodes
    requires Inv(fs.(inodes := fs.inodes[f := w]), own, len[f := 0], reserved) && AtRest(fs.inodes[f := w], len[f := 0])
    ensures ContentsAtRest(fs.(inodes := fs.inodes[f := w]), own, len[f := 0], reserved, g) ==
              ContentsAtRest(fs, own, len, reserved, g)
  {
    hide Inv, AtRest, ContentsAtRest;
    var c, fs1 := ContentsAtRest(fs, own, len, reserved, g), fs.(inodes := fs.inodes[f := w]);
    forall p: nat | p < |c| ensures Holds(fs1, own, g, p, c[p]) {}
    SameContents(fs1, own, len[f := 0], reserved, g, c);
  }

  lemma MapInserted(a: map<nat, seq<byte>>, b: map<nat, seq<byte>>, f: nat)
    requires a.Keys == b.Keys + {f} && f !in b && a[f] == [] && forall g :: g in b ==> a[g] == b[g]
    ensures a == b[f := []]
  {}

  lemma NewFileEmpty(fs: Fs, own: Slots, len: map<nat, nat>, reserved: set<nat>, f: nat)
    requires Inv(fs, own, len, reserved) && AtRest(fs.inodes, len) && f in fs.inodes
    requires |fs.inodes[f]| == WORDS && fs.inodes[f][SIZE] == 0
    ensures Files(fs, own, len, reserved)[f] == []
  {
    hide Inv, AtRest, ContentsAtRest;
  }

  lemma NewFileContents(fs: Fs, own: Slots, len: map<nat, nat>, reserved: set<nat>, f: nat, w: seq<nat>)
    requires Inv(fs, own, len, reserved) && AtRest(fs.inodes, len) && f !in fs.inodes
    requires Inv(fs.(inodes := fs.inodes[f := w]), own, len[f := 0], reserved) && AtRest(fs.inodes[f := w], len[f := 0])
    ensures forall g :: g in fs.inodes ==>
              Files(fs.(inodes := fs.inodes[f := w]), own, len[f := 0], reserved)[g] == Files(fs, own, len, reserved)[g]
  {
    hide Inv, AtRest, ContentsAtRest;
    forall g | g in fs.inodes
      ensures ContentsAtRest(fs.(inodes := fs.inodes[f := w]), own, len[f := 0], reserved, g) ==
                ContentsAtRest(fs, own, len, reserved, g)
    {
      NewFileOther(fs, own, len, reserved, f, w, g);
    }
  }

  lemma NewFileKeeps(fs: Fs, own: Slots, len: map<nat, nat>, reserved: set<nat>, f: nat, w: seq<nat>)
    requires Inv(fs, own, len, reserved) && AtRest(fs.inodes, len) && f !in fs.inodes && f < MAX_INODES
    requires IsRecord(w) && w[SIZE] == 0 && forall i :: 0 <= i < 15 ==> Pointer(w, i) == 0
    ensures var fs1 := fs.(inodes := fs.inodes[f := w]);
            Inv(fs1, own, len[f := 0], reserved) && AtRest(fs1.inodes, len[f := 0]) &&
            Files(fs1, own, len[f := 0], reserved) == Files(fs, own, len, reserved)[f := []]
  {
    hide Inv, AtRest, Files, Pointer;
    NewFileInv(fs, own, len, reserved, f, w);
    SameLens(fs, own, len, reserved);
    NewFileAtRest(fs.inodes, len, f, w);
    var fs1 := fs.(inodes := fs.inodes[f := w]);
    NewFileEmpty(fs1, own, len[f := 0], reserved, f);
    NewFileContents(fs, own, len, reserved, f, w);
    MapInserted(Files(fs1, own, len[f := 0], reserved), Files(fs, own, len, reserved), f);
  }

  // ---------- Blocks for directories ----------

  lemma ByteElsewhere(fs: Fs, own: Slots, q: nat, b: seq<byte>, f: nat, p: nat, v: byte)
    requires Holds(fs, own, f, p, v) && OnDisk(fs.disk, fs.base + 8 * q, 8) && |b| == BLOCK && !Owned(own, q)
    ensures Holds(Put(fs, q, b), own, f, p, v)
  {
    var r := own[(f, p / BLOCK)];
    NobodyOwns(own, q);
    PutElsewhere(fs, q, b, r);
  }

  /** What CreateDirEntry does for a block of its directory: it takes one that belongs to no file, and
      filling it changes no file. */
  lemma DirectoryTakes(fs: Fs, own: Slots, len: map<nat, nat>, reserved: set<nat>, b: seq<byte>)
    requires Inv(fs, own, len, reserved) && AtRest(fs.inodes, len) && Blocks.BlockBitmapAllocate(fs).Grown?
    requires |b| == BLOCK
    ensures var g := Blocks.BlockBitmapAllocate(fs);
            var q := g.at / 8;
            g.at == 8 * q && q !in reserved && !Owned(own, q) && OnDisk(g.fs.disk, g.fs.base + 8 * q, 8) &&
            var t := Put(g.fs, q, b);
            Inv(t, own, len, reserved + {q}) && AtRest(t.inodes, len) &&
            Files(t, own, len, reserved + {q}) == Files(fs, own, len, reserved)
  {
    TakingForOthers(fs, own, len, reserved);
    var g := Blocks.BlockBitmapAllocate(fs);
    var q := g.at / 8;
    assert g.fs == fs.(bits := g.fs.bits);
    hide Inv, AtRest, Blocks.BlockBitmapAllocate, Put, Holds;
    NobodyOwns(own, q);
    PutKeepsSlots(g.fs, own, len, reserved + {q}, q, b);
    FillingKeepsFiles(fs, own, len, reserved, g.fs, q, b);
  }

  lemma FillingKeepsFiles(fs: Fs, own: Slots, len: map<nat, nat>, reserved: set<nat>, fs1: Fs, q: nat, b: seq<byte>)
    requires Inv(fs, own, len, reserved) && AtRest(fs.inodes, len) && |b| == BLOCK && !Owned(own, q)
    requires fs1 == fs.(bits := fs1.bits) && OnDisk(fs1.disk, fs1.base + 8 * q, 8)
    requires Inv(Put(fs1, q, b), own, len, reserved + {q})
    ensures AtRest(Put(fs1, q, b).inodes, len)
    ensures Files(Put(fs1, q, b), own, len, reserved + {q}) == Files(fs, own, len, reserved)
  {
    hide Inv, AtRest, ContentsAtRest, Holds, Owned, Write;
    var t := Put(fs1, q, b);
    forall f | f in fs.inodes
      ensures ContentsAtRest(t, own, len, reserved + {q}, f) == ContentsAtRest(fs, own, len, reserved, f)
    {
      var c := ContentsAtRest(fs, own, len, reserved, f);
      forall p: nat | p < |c| ensures Holds(t, own, f, p, c[p]) {
        SameDisk(fs, fs1, own, f, p, c[p]);
        ByteElsewhere(fs1, own, q, b, f, p, c[p]);
      }
      SameContents(t, own, len, reserved + {q}, f, c);
    }
  }

  lemma SameDisk(fs: Fs, fs1: Fs, own: Slots, f: nat, p: nat, v: byte)
    requires Holds(fs, own, f, p, v) && fs1.disk == fs.disk && fs1.base == fs.base
    ensures Holds(fs1, own, f, p, v)
  {}
}
