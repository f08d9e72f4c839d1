/** The inode table (fs/inode.c): 4096 records of 88 bytes that sit on the disk without padding, so that
    some of them straddle two sectors, and the list of open inodes.

    An inode is the 22 words of its C structure: index, size, open_cnt, write_deny (a byte and
    padding), i_sectors (15 words), tag (3 words). */
module InodeTable {
  import opened Basics
  import opened Disk

  const RECORD: nat := 88
  const WORDS: nat := 22
  const MAX_INODES: nat := 4096
  const TABLE_SECTORS: nat := 704

  const INDEX: nat := 0
  const SIZE: nat := 1
  const OPEN_CNT: nat := 2
  const DENY: nat := 3
  const SECTORS: nat := 4

  predicate IsRecord(w: seq<nat>)
  {
    |w| == WORDS && forall i :: 0 <= i < WORDS ==> w[i] < WORD_MOD
  }

  predicate HasTable(d: seq<byte>, table: nat)
  {
    OnDisk(d, table, TABLE_SECTORS)
  }

  // ---------- Where a record lies ----------

  function SectorBegin(index: nat): nat { RECORD * index / SECTOR }

  function SectorEnd(index: nat): nat { (RECORD * index + RECORD - 1) / SECTOR }

  function SectorCnt(index: nat): (r: nat)
    ensures r == 1 || r == 2
  {
    if SectorBegin(index) == SectorEnd(index) then 1 else 2
  }

  /** The sectors that InodeOpen and InodeWrite move hold the whole record and belong to the table. */
  lemma RecordFits(index: nat)
    requires index < MAX_INODES
    ensures SectorBegin(index) + SectorCnt(index) <= TABLE_SECTORS
    ensures RECORD * index % SECTOR + RECORD <= SECTOR * SectorCnt(index)
    ensures SECTOR * SectorBegin(index) + RECORD * index % SECTOR == RECORD * index
    ensures SectorCnt(index) == 2 <==> RECORD * index % SECTOR > SECTOR - RECORD
  {}

  /** What InodeWrite leaves on the disk. */
  function Written(d: seq<byte>, table: nat, index: nat, w: seq<nat>): (r: seq<byte>)
    requires HasTable(d, table) && index < MAX_INODES && IsRecord(w)
    ensures |r| == |d|
  {
    RecordFits(index);
    var cnt := SectorCnt(index);
    var buf := Read(d, table + SectorBegin(index), cnt);
    Write(d, table + SectorBegin(index), cnt, Overlay(buf, RECORD * index % SECTOR, Image(w)))
  }

  /** The record that a fresh InodeOpen reads. */
  function Stored(d: seq<byte>, table: nat, index: nat): (r: seq<nat>)
    requires HasTable(d, table) && index < MAX_INODES
    ensures IsRecord(r)
  {
    RecordFits(index);
    var buf := Read(d, table + SectorBegin(index), SectorCnt(index));
    Words(buf[RECORD * index % SECTOR..RECORD * index % SECTOR + RECORD], WORDS)
  }

  /** Writing a record replaces its 88 bytes on the disk and no other byte. */
  lemma WritesItsRecordOnly(d: seq<byte>, table: nat, index: nat, w: seq<nat>)
    requires HasTable(d, table) && index < MAX_INODES && IsRecord(w)
    ensures Written(d, table, index, w) == Overlay(d, SECTOR * table + RECORD * index, Image(w))
    ensures SECTOR * table + RECORD * index + RECORD <= SECTOR * (table + TABLE_SECTORS)
  {
    RecordFits(index);
  }

  lemma SliceOfSlice(d: seq<byte>, a: nat, n: nat, off: nat, len: nat)
    requires a + n <= |d| && off + len <= n
    ensures d[a..a + n][off..off + len] == d[a + off..a + off + len]
  {
    var x, y := d[a..a + n][off..off + len], d[a + off..a + off + len];
    forall k | 0 <= k < len ensures x[k] == y[k] {
      assert x[k] == d[a..a + n][off + k] == d[a + (off + k)];
    }
  }

  lemma StoredBytes(d: seq<byte>, table: nat, index: nat)
    requires HasTable(d, table) && index < MAX_INODES
    ensures var at := SECTOR * table + RECORD * index;
            at + RECORD <= |d| && Stored(d, table, index) == Words(d[at..at + RECORD], WORDS)
  {
    RecordFits(index);
    var at := SECTOR * table + RECORD * index;
    SliceOfSlice(d, SECTOR * (table + SectorBegin(index)), SECTOR * SectorCnt(index), RECORD * index % SECTOR, RECORD);
  }

  /** InodeWrite and a fresh InodeOpen round-trip every word, and every other record reads as before. */
  lemma RoundTrip(d: seq<byte>, table: nat, index: nat, w: seq<nat>, other: nat)
    requires HasTable(d, table) && index < MAX_INODES && IsRecord(w) && other < MAX_INODES
    ensures Stored(Written(d, table, index, w), table, other) == if other == index then w else Stored(d, table, other)
  {
    var d1 := Written(d, table, index, w);
    WritesItsRecordOnly(d, table, index, w);
    StoredBytes(d1, table, other);
    StoredBytes(d, table, other);
    WordsOfImage(w);
    var a, b := SECTOR * table + RECORD * index, SECTOR * table + RECORD * other;
    if other == index {
      assert d1[a..a + RECORD] == Image(w);
    } else {
      assert d1[b..b + RECORD] == d[b..b + RECORD];
    }
  }

  // ---------- Open inodes ----------

  class Inode {
    var w: seq<nat>

    constructor (w: seq<nat>)
      ensures this.w == w
    {
      this.w := w;
    }
  }

  /** The inode InodeOpen makes of the stored words: opened once, nobody writes to it, and the rest as
      stored. `write_deny` is the first byte of its word; the other three are padding. */
  function Opened(w: seq<nat>, index: nat): (r: seq<nat>)
    requires IsRecord(w) && index < MAX_INODES
    ensures IsRecord(r) && r[OPEN_CNT] == 1 && r[INDEX] == index
    ensures r[DENY] % 256 == 0 && 0 <= w[DENY] - r[DENY] < 256
    ensures forall i :: 0 <= i < WORDS && i != OPEN_CNT && i != DENY && i != INDEX ==> r[i] == w[i]
  {
    w[OPEN_CNT := 1][DENY := w[DENY] / 256 * 256][INDEX := index]
  }

  type Record = w: seq<nat> | IsRecord(w) witness seq(WORDS, i => 0)

  function WithCount(w: Record, cnt: nat): (r: Record)
    requires cnt < WORD_MOD
  {
    w[OPEN_CNT := cnt]
  }

  /** Where the record with this index stands in the list, or the length of the list. */
  function Position(o: seq<Record>, index: nat): (r: nat)
    ensures r <= |o| && (r < |o| ==> o[r][INDEX] == index)
    ensures forall i :: 0 <= i < r ==> o[i][INDEX] != index
  {
    if o == [] || o[0][INDEX] == index then 0 else 1 + Position(o[1..], index)
  }

  /** The records of the open inodes after InodeOpen, which reads `stored` if the inode is not open. */
  function AfterOpen(o: seq<Record>, index: nat, stored: Record): seq<Record>
    requires index < MAX_INODES
  {
    var i := Position(o, index);
    if i < |o| then o[i := WithCount(o[i], (o[i][OPEN_CNT] + 1) % WORD_MOD)] else [Opened(stored, index)] + o
  }

  /** And after InodeClose. */
  function AfterClose(o: seq<Record>, index: nat): seq<Record>
    requires Position(o, index) < |o|
  {
    var i := Position(o, index);
    var cnt := (o[i][OPEN_CNT] + WORD_MOD - 1) % WORD_MOD;
    if cnt == 0 then o[..i] + o[i + 1..] else o[i := WithCount(o[i], cnt)]
  }

  // ---------- Over every sequence of calls ----------

  ghost predicate Distinct(o: seq<Record>)
  {
    forall i, j :: 0 <= i < j < |o| ==> o[i][INDEX] != o[j][INDEX]
  }

  /** The count of an inode that is open, or 0. */
  function CountOf(o: seq<Record>, index: nat): nat
  {
    if o == [] then 0 else if o[0][INDEX] == index then o[0][OPEN_CNT] else CountOf(o[1..], index)
  }

  lemma {:induction false} CountAt(o: seq<Record>, index: nat)
    ensures CountOf(o, index) == if Position(o, index) < |o| then o[Position(o, index)][OPEN_CNT] else 0
  {
    if o != [] && o[0][INDEX] != index { CountAt(o[1..], index); }
  }

  lemma {:induction false} CountChanged(o: seq<Record>, i: nat, cnt: nat, other: nat)
    requires Distinct(o) && i < |o| && cnt < WORD_MOD
    ensures CountOf(o[i := WithCount(o[i], cnt)], other) == if other == o[i][INDEX] then cnt else CountOf(o, other)
  {
    var o1 := o[i := WithCount(o[i], cnt)];
    if i > 0 {
      assert o1[1..] == o[1..][i - 1 := WithCount(o[i], cnt)];
      CountChanged(o[1..], i - 1, cnt, other);
    } else {
      assert o1[1..] == o[1..];
    }
  }

  lemma {:induction false} CountRemoved(o: seq<Record>, i: nat, other: nat)
    requires Distinct(o) && i < |o|
    ensures CountOf(o[..i] + o[i + 1..], other) == if other == o[i][INDEX] then 0 else CountOf(o, other)
  {
    if i > 0 {
      assert (o[..i] + o[i + 1..])[1..] == o[1..][..i - 1] + o[1..][i..];
      CountRemoved(o[1..], i - 1, other);
    } else {
      assert o[..0] + o[1..] == o[1..];
      if other == o[0][INDEX] { CountAt(o[1..], other); }
    }
  }

  datatype Use = Open(index: nat, stored: Record) | Close(index: nat)

  /** The list after the calls `uses`; None if an inode is closed that is not open. */
  function Used(uses: seq<Use>): Option<seq<Record>>
    decreases |uses|
  {
    if uses == [] then Some([])
    else
      match Used(uses[..|uses| - 1])
      case None => None
      case Some(o) =>
        match uses[|uses| - 1]
        case Open(index, stored) => if index < MAX_INODES then Some(AfterOpen(o, index, stored)) else None
        case Close(index) => if Position(o, index) < |o| then Some(AfterClose(o, index)) else None
  }

  /** How often `index` has been opened and not closed. */
  function Users(uses: seq<Use>, index: nat): int
    decreases |uses|
  {
    if uses == [] then 0
    else
      var last := uses[|uses| - 1];
      Users(uses[..|uses| - 1], index) + if last.index != index then 0 else if last.Open? then 1 else -1
  }

  ghost predicate AllUsed(o: seq<Record>)
  {
    Distinct(o) && forall w :: w in o ==> w[OPEN_CNT] > 0
  }

  lemma OpenCounts(o: seq<Record>, index: nat, stored: Record, other: nat)
    requires index < MAX_INODES && AllUsed(o) && CountOf(o, index) + 1 < WORD_MOD
    ensures AllUsed(AfterOpen(o, index, stored))
    ensures CountOf(AfterOpen(o, index, stored), other) == CountOf(o, other) + if other == index then 1 else 0
  {
    var i, o1 := Position(o, index), AfterOpen(o, index, stored);
    CountAt(o, index);
    if i < |o| {
      CountChanged(o, i, o[i][OPEN_CNT] + 1, other);
    } else {
      assert o1[1..] == o;
    }
  }

  lemma RemovedInUse(o: seq<Record>, i: nat)
    requires AllUsed(o) && i < |o|
    ensures AllUsed(o[..i] + o[i + 1..])
  {
    var r := o[..i] + o[i + 1..];
    forall j | 0 <= j < |r| ensures r[j] == o[if j < i then j else j + 1] {}
  }

  lemma ChangedInUse(o: seq<Record>, i: nat, cnt: nat)
    requires AllUsed(o) && i < |o| && 0 < cnt < WORD_MOD
    ensures AllUsed(o[i := WithCount(o[i], cnt)])
  {
    var r := o[i := WithCount(o[i], cnt)];
    forall j | 0 <= j < |r| ensures r[j][INDEX] == o[j][INDEX] && r[j][OPEN_CNT] > 0 { assert o[j] in o; }
  }

  lemma CloseIs(o: seq<Record>, index: nat)
    requires Position(o, index) < |o| && o[Position(o, index)][OPEN_CNT] > 0
    ensures var i := Position(o, index);
            AfterClose(o, index) ==
              if o[i][OPEN_CNT] == 1 then o[..i] + o[i + 1..] else o[i := WithCount(o[i], o[i][OPEN_CNT] - 1)]
  {
    hide Position, WithCount;
  }

  /** An inode is in the list exactly if its count is not zero. */
  lemma PresentIs(o: seq<Record>, index: nat)
    requires AllUsed(o)
    ensures Position(o, index) < |o| <==> CountOf(o, index) > 0
  {
    CountAt(o, index);
    if Position(o, index) < |o| { assert o[Position(o, index)] in o; }
  }

  lemma CloseCounts(o: seq<Record>, index: nat, other: nat)
    requires AllUsed(o) && Position(o, index) < |o|
    ensures AllUsed(AfterClose(o, index))
    ensures CountOf(AfterClose(o, index), other) == CountOf(o, other) - if other == index then 1 else 0
  {
    var i := Position(o, index);
    CountAt(o, index);
    assert o[i] in o;
    CloseIs(o, index);
    hide CountOf, WithCount, AfterClose, Distinct;
    if o[i][OPEN_CNT] == 1 {
      RemovedInUse(o, i);
      CountRemoved(o, i, other);
    } else {
      ChangedInUse(o, i, o[i][OPEN_CNT] - 1);
      CountChanged(o, i, o[i][OPEN_CNT] - 1, other);
    }
  }

  /** Over every sequence of calls the count of an inode is the number of its users, and it is in the list
      exactly while it has one. */
  lemma {:induction false} CountsAreUsers(uses: seq<Use>, index: nat)
    requires Used(uses).Some? && |uses| < WORD_MOD
    ensures AllUsed(Used(uses).value) && 0 <= Users(uses, index) <= |uses|
    ensures CountOf(Used(uses).value, index) == Users(uses, index)
    ensures Position(Used(uses).value, index) < |Used(uses).value| <==> Users(uses, index) > 0
    decreases |uses|
  {
    if uses == [] {
      PresentIs([], index);
    } else {
      hide AfterOpen, AfterClose, CountOf, Position, AllUsed;
      var before := uses[..|uses| - 1];
      var o := Used(before).value;
      CountsAreUsers(before, index);
      match uses[|uses| - 1] {
        case Open(i, stored) =>
          CountsAreUsers(before, i);
          OpenCounts(o, i, stored, index);
        case Close(i) => CloseCounts(o, i, index);
      }
      PresentIs(Used(uses).value, index);
    }
  }

  function Opens(o: seq<Record>, index: nat, stored: Record, n: nat): seq<Record>
    requires index < MAX_INODES
  {
    if n == 0 then o else AfterOpen(Opens(o, index, stored, n - 1), index, stored)
  }

  function Closes(o: seq<Record>, index: nat, k: nat): Option<seq<Record>>
  {
    if k == 0 then Some(o)
    else
      match Closes(o, index, k - 1)
      case None => None
      case Some(r) => if Position(r, index) < |r| then Some(AfterClose(r, index)) else None
  }

  lemma FirstOpens(o: seq<Record>, w: Record, stored: Record, cnt: nat)
    requires w[INDEX] < MAX_INODES && cnt + 1 < WORD_MOD
    ensures AfterOpen([WithCount(w, cnt)] + o, w[INDEX], stored) == [WithCount(w, cnt + 1)] + o
  {
    var r := [WithCount(w, cnt)] + o;
    assert WithCount(r[0], cnt + 1) == WithCount(w, cnt + 1);
    assert r[0 := WithCount(w, cnt + 1)] == [WithCount(w, cnt + 1)] + o;
  }

  lemma FirstCloses(o: seq<Record>, w: Record, cnt: nat)
    requires 0 < cnt < WORD_MOD
    ensures var r := [WithCount(w, cnt)] + o;
            Position(r, w[INDEX]) == 0 &&
            AfterClose(r, w[INDEX]) == if cnt > 1 then [WithCount(w, cnt - 1)] + o else o
  {
    var r := [WithCount(w, cnt)] + o;
    assert WithCount(r[0], cnt - 1) == WithCount(w, cnt - 1);
    assert r[0 := WithCount(w, cnt - 1)] == [WithCount(w, cnt - 1)] + o;
    assert r[..0] + r[1..] == o;
  }

  /** Opened `n` times and closed as often, an inode leaves the list with the last close and no earlier,
      and the list is what it was. */
  lemma {:induction false} LastCloseRemoves(o: seq<Record>, index: nat, stored: Record, n: nat, k: nat)
    requires index < MAX_INODES && Position(o, index) == |o| && 1 <= n < WORD_MOD && k <= n
    ensures Closes(Opens(o, index, stored, n), index, k) ==
              Some(if k < n then [WithCount(Opened(stored, index), n - k)] + o else o)
  {
    hide Position, AfterOpen, AfterClose, Opened, WithCount, Opens;
    if k > 0 {
      LastCloseRemoves(o, index, stored, n, k - 1);
      FirstCloses(o, Opened(stored, index), n - k + 1);
    } else {
      OpenedTimes(o, index, stored, n);
    }
  }

  lemma {:induction false} OpenedTimes(o: seq<Record>, index: nat, stored: Record, n: nat)
    requires index < MAX_INODES && Position(o, index) == |o| && 1 <= n < WORD_MOD
    ensures Opens(o, index, stored, n) == [WithCount(Opened(stored, index), n)] + o
  {
    assert WithCount(Opened(stored, index), 1) == Opened(stored, index);
    if n > 1 {
      OpenedTimes(o, index, stored, n - 1);
      FirstOpens(o, Opened(stored, index), stored, n - 1);
    } else {
      assert Opens(o, index, stored, 0) == o;
    }
  }

  lemma {:induction false} PositionFound(o: seq<Record>, index: nat, i: nat)
    requires Distinct(o) && i <= |o| && (i < |o| ==> o[i][INDEX] == index)
    requires i == |o| ==> forall j :: 0 <= j < |o| ==> o[j][INDEX] != index
    ensures Position(o, index) == i
  {}

  /** `r` is `o` without the element at `i`, or with another one there. */
  ghost predicate IsCut<T>(o: seq<T>, r: seq<T>, i: nat)
  {
    i < |o| && |r| == |o| - 1 && (forall j :: 0 <= j < i ==> r[j] == o[j]) &&
    forall j :: i < j < |o| ==> r[j - 1] == o[j]
  }

  ghost predicate IsSet<T>(o: seq<T>, r: seq<T>, i: nat)
  {
    i < |o| && |r| == |o| && forall j :: 0 <= j < |r| && j != i ==> r[j] == o[j]
  }

  lemma CutIs<T>(o: seq<T>, r: seq<T>, i: nat)
    requires IsCut(o, r, i)
    ensures r == o[..i] + o[i + 1..]
  {
    var s := o[..i] + o[i + 1..];
    forall j | 0 <= j < |r| ensures r[j] == s[j] {
      if j >= i { assert s[j] == o[j + 1] == r[j + 1 - 1]; }
    }
  }

  lemma SetThenCut<T>(o: seq<T>, r: seq<T>, i: nat)
    requires IsSet(o, r, i)
    ensures forall c: seq<T> :: IsCut(r, c, i) ==> IsCut(o, c, i)
  {}

  lemma SetIs<T>(o: seq<T>, r: seq<T>, i: nat)
    requires IsSet(o, r, i)
    ensures r == o[i := r[i]]
  {}

  lemma WithoutOne<T>(s: seq<T>, i: nat)
    requires i < |s| && forall j :: 0 <= j < |s| && j != i ==> s[j] != s[i]
    ensures forall x :: x in s[..i] + s[i + 1..] <==> x in s && x != s[i]
  {
    forall x | x in s && x != s[i] ensures x in s[..i] + s[i + 1..] {
      var j :| 0 <= j < |s| && s[j] == x;
      assert if j < i then x == s[..i][j] else x == s[i + 1..][j - i - 1];
    }
  }

  /** The three cases of AfterOpen and AfterClose, by the place in the list. */
  lemma SharedIs(o: seq<Record>, index: nat, stored: Record, i: nat)
    requires Distinct(o) && index < MAX_INODES && i < |o| && o[i][INDEX] == index
    ensures AfterOpen(o, index, stored) == o[i := o[i][OPEN_CNT := (o[i][OPEN_CNT] + 1) % WORD_MOD]]
  {
    PositionFound(o, index, i);
  }

  lemma AddedIs(o: seq<Record>, index: nat, stored: Record)
    requires Distinct(o) && index < MAX_INODES && forall j :: 0 <= j < |o| ==> o[j][INDEX] != index
    ensures AfterOpen(o, index, stored) == [Opened(stored, index)] + o
  {
    PositionFound(o, index, |o|);
  }

  lemma ClosedIs(o: seq<Record>, index: nat, i: nat)
    requires Distinct(o) && i < |o| && o[i][INDEX] == index
    ensures Position(o, index) == i
    ensures AfterClose(o, index) ==
              if o[i][OPEN_CNT] == 1 then o[..i] + o[i + 1..]
              else o[i := o[i][OPEN_CNT := (o[i][OPEN_CNT] + WORD_MOD - 1) % WORD_MOD]]
  {
    PositionFound(o, index, i);
  }

  class Partition {
    var disk: seq<byte>
    const table: nat
    /** The list of open inodes, front first. */
    var open: seq<Inode>

    ghost predicate Valid()
      reads this, open
    {
      HasTable(disk, table) &&
      (forall n :: n in open ==> IsRecord(n.w) && n.w[INDEX] < MAX_INODES) &&
      forall i, j :: 0 <= i < j < |open| ==> open[i].w[INDEX] != open[j].w[INDEX]
    }

    ghost function Records(): (r: seq<Record>)
      requires Valid()
      reads this, open
      ensures |r| == |open| && forall i :: 0 <= i < |r| ==> r[i] == open[i].w
    {
      seq(|open|, i requires 0 <= i < |open| && IsRecord(open[i].w) reads this, open => open[i].w)
    }

    constructor (disk: seq<byte>, table: nat)
      requires HasTable(disk, table)
      ensures Valid() && this.disk == disk && this.table == table && open == []
    {
      this.disk, this.table, open := disk, table, [];
    }

    /** The position of the open inode with this index, or the length of the list. */
    method FindOpenInode(index: nat) returns (i: nat)
      requires Valid()
      ensures i <= |open|
      ensures i < |open| ==> open[i].w[INDEX] == index
      ensures i == |open| ==> forall n :: n in open ==> n.w[INDEX] != index
    {
      i := 0;
      while i < |open|
        invariant 0 <= i <= |open|
        invariant forall j :: 0 <= j < i ==> open[j].w[INDEX] != index
      {
        if open[i].w[INDEX] == index { return; }
        i := i + 1;
      }
    }

    /** InodeOpen: the inode that is open already, or a new one with the stored words. */
    method InodeOpen(index: nat) returns (inode: Inode)
      requires Valid() && index < MAX_INODES
      modifies this`open, open
      ensures Valid()
      ensures inode in open && inode.w[INDEX] == index
      ensures inode in old(open) ==>
                open == old(open) && inode.w == old(inode.w)[OPEN_CNT := (old(inode.w)[OPEN_CNT] + 1) % WORD_MOD]
      ensures inode !in old(open) ==>
                fresh(inode) && open == [inode] + old(open) &&
                inode.w == Opened(Stored(disk, table, index), index) &&
                forall n :: n in old(open) ==> old(n.w[INDEX]) != index
      ensures inode !in old(open) ==>
                inode.w[OPEN_CNT] == 1 && inode.w[DENY] % 256 == 0 &&
                forall k :: 0 <= k < WORDS && k != OPEN_CNT && k != DENY && k != INDEX ==>
                  inode.w[k] == Stored(disk, table, index)[k]
      ensures forall n :: n in old(open) && n != inode ==> n.w == old(n.w)
      ensures Records() == AfterOpen(old(Records()), index, Stored(disk, table, index))
    {
      hide AfterOpen, Position, Opened, Stored, Records, HasTable, WithCount;
      ghost var o := Records();
      inode := FindOrRead(index);
      if inode in old(open) {
        ghost var i :| 0 <= i < |open| && open[i] == inode;
        assert inode.w == o[i][OPEN_CNT := (o[i][OPEN_CNT] + 1) % WORD_MOD];
        assert o[i][INDEX] == index;
        assert forall j :: 0 <= j < |open| && j != i ==> open[j] != inode && open[j].w == o[j];
        SharedIs(o, index, Stored(disk, table, index), i);
        assert Records() == o[i := inode.w];
      } else {
        assert forall j :: 0 <= j < |o| ==> old(open)[j] in old(open) && old(open)[j].w == o[j];
        AddedIs(o, index, Stored(disk, table, index));
        assert Records() == [inode.w] + o;
      }
    }

    method FindOrRead(index: nat) returns (inode: Inode)
      requires Valid() && index < MAX_INODES
      modifies this`open, open
      ensures Valid()
      ensures inode in open && inode.w[INDEX] == index
      ensures inode in old(open) ==>
                open == old(open) && inode.w == old(inode.w)[OPEN_CNT := (old(inode.w)[OPEN_CNT] + 1) % WORD_MOD]
      ensures inode !in old(open) ==>
                fresh(inode) && open == [inode] + old(open) &&
                inode.w == Opened(Stored(disk, table, index), index) &&
                forall n :: n in old(open) ==> old(n.w[INDEX]) != index
      ensures forall n :: n in old(open) && n != inode ==> n.w == old(n.w)
    {
      var i := FindOpenInode(index);
      if i < |open| {
        inode := open[i];
        inode.w := inode.w[OPEN_CNT := (inode.w[OPEN_CNT] + 1) % WORD_MOD];
        return;
      }
      RecordFits(index);
      var buf := Read(disk, table + SectorBegin(index), SectorCnt(index));
      var offset := RECORD * index;
      var stored := Words(buf[offset % SECTOR..offset % SECTOR + RECORD], WORDS);
      inode := new Inode(Opened(stored, index));
      open := [inode] + open;
    }

    /** InodeClose: the inode leaves the list exactly when its last user closes it. */
    method InodeClose(inode: Inode) returns (closed: bool)
      requires Valid() && inode in open
      modifies this`open, inode
      ensures Valid()
      ensures inode.w == old(inode.w)[OPEN_CNT := (old(inode.w)[OPEN_CNT] + WORD_MOD - 1) % WORD_MOD]
      ensures closed <==> old(inode.w)[OPEN_CNT] == 1
      ensures forall n :: n in open <==> n in old(open) && !(closed && n == inode)
      ensures Position(old(Records()), old(inode.w[INDEX])) < |old(open)|
      ensures Records() == AfterClose(old(Records()), old(inode.w[INDEX]))
    {
      hide AfterClose, Position, Records, HasTable, IsCut, IsSet;
      ghost var o := Records();
      ghost var i :| 0 <= i < |open| && open[i] == inode;
      ClosedIs(o, inode.w[INDEX], i);
      closed := DropUser(inode, i);
      SetIs(o, Records(), i);
      if closed {
        SetThenCut(o, Records(), i);
        Leave(inode, i);
        CutIs(o, Records(), i);
      }
    }

    /** One user less. */
    method DropUser(inode: Inode, ghost at: nat) returns (last: bool)
      requires Valid() && at < |open| && open[at] == inode
      modifies inode
      ensures Valid()
      ensures inode.w == old(inode.w)[OPEN_CNT := (old(inode.w)[OPEN_CNT] + WORD_MOD - 1) % WORD_MOD]
      ensures last <==> old(inode.w)[OPEN_CNT] == 1
      ensures IsSet(old(Records()), Records(), at) && Records()[at] == inode.w
    {
      hide HasTable;
      assert forall j :: 0 <= j < |open| && j != at ==> open[j] != inode;
      inode.w := inode.w[OPEN_CNT := (inode.w[OPEN_CNT] + WORD_MOD - 1) % WORD_MOD];
      last := inode.w[OPEN_CNT] == 0;
    }

    /** ListRemove. */
    method Leave(inode: Inode, ghost at: nat)
      requires Valid() && at < |open| && open[at] == inode
      modifies this`open
      ensures Valid()
      ensures IsCut(old(Records()), Records(), at)
      ensures forall n :: n in open <==> n in old(open) && n != inode
    {
      hide HasTable, Records;
      WithoutOne(open, at);
      var i := FindOpenInode(inode.w[INDEX]);
      assert i == at;
      open := open[..i] + open[i + 1..];
      assert forall j :: 0 <= j < |open| ==> open[j] == old(open)[if j < i then j else j + 1];
    }

    /** InodeWrite, read-modify-write of one or two sectors. */
    method InodeWrite(inode: Inode)
      requires Valid() && IsRecord(inode.w) && inode.w[INDEX] < MAX_INODES
      modifies this`disk
      ensures Valid()
      ensures disk == Written(old(disk), table, inode.w[INDEX], inode.w)
    {
      var index := inode.w[INDEX];
      RecordFits(index);
      var begin, cnt, offset := SectorBegin(index), SectorCnt(index), RECORD * index;
      var buf := Read(disk, table + begin, cnt);
      buf := Overlay(buf, offset % SECTOR, Image(inode.w));
      disk := Write(disk, table + begin, cnt, buf);
    }
  }
}
