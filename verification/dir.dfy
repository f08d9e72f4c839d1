/** Directories (fs/dir.c, DeleteDirectoryDirEntry in fs/fs.c, syscall_readdir in lib/user/syscallFun.c).

    A block of 4096 bytes holds 170 entries of 24 bytes and 16 bytes more. CreateDirEntry also looks at a
    171st entry, whose type lies behind the buffer: `beyond` says whether that memory is non-zero. An
    entry put there is lost, since only the buffer goes to the disk. */
module Dir {

  const SLOTS: nat := 170
  const DIRECT: nat := 12
  const MAX_BLOCKS: nat := 1036

  datatype Kind = File | Directory

  /** As long as the name field of an entry; whoever fills it copies 16 bytes, with a zero among them only
      if the name is shorter. */
  const NAME_MAX: nat := 16

  type Name = s: string | |s| <= NAME_MAX && '\0' !in s

  datatype Entry = Entry(name: Name, index: nat, kind: Kind)

  /** FT_UNKOWN marks a free slot. */
  datatype Slot = Free | Live(e: Entry)

  type Block = seq<Slot>

  /** The blocks on the disk in the order of the addresses; the inode's size; the buffer of the open
      directory and what follows it in memory. */
  datatype Dir = Dir(blocks: seq<Block>, size: nat, buf: Block, beyond: bool)

  ghost predicate WellFormed(d: Dir)
  {
    |d.blocks| <= MAX_BLOCKS && |d.buf| == SLOTS && forall b: Block :: b in d.blocks ==> |b| == SLOTS
  }

  function Zeros(): (b: Block)
    ensures |b| == SLOTS && forall j :: 0 <= j < SLOTS ==> b[j] == Free
  {
    seq(SLOTS, j => Free)
  }

  // ---------- What strcmp sees of an entry ----------

  function UpToZero(s: string): string
  {
    if s == "" || s[0] == '\0' then "" else [s[0]] + UpToZero(s[1..])
  }

  function IndexBytes(i: nat): string
  {
    [(i % 256) as char, (i / 0x100 % 256) as char, (i / 0x1_0000 % 256) as char, (i / 0x100_0000 % 256) as char]
  }

  function KindBytes(k: Kind): string { [(if k.File? then 1 else 2) as char, '\0', '\0', '\0'] }

  /** The bytes of an entry from its name on, up to where a zero is certain: behind a name of 16 characters
      there is none, but the index and the type. */
  function Record(e: Entry): string
  {
    if |e.name| < NAME_MAX then e.name + ['\0'] else e.name + IndexBytes(e.index) + KindBytes(e.kind)
  }

  /** The string that begins at the name field. */
  function CString(e: Entry): string { UpToZero(Record(e)) }

  /** An entry that a search for its name can find. */
  predicate Findable(e: Entry) { CString(e) == e.name }

  lemma {:induction false} UpToZeroOf(a: string, b: string)
    requires '\0' !in a
    ensures UpToZero(a + b) == a + UpToZero(b)
  {
    if a == "" {
      assert a + b == b;
    } else {
      assert (a + b)[1..] == a[1..] + b;
      UpToZeroOf(a[1..], b);
    }
  }

  /** That is one whose name leaves room for the zero, or whose index begins with one. */
  lemma FindableIs(e: Entry)
    ensures Findable(e) <==> |e.name| < NAME_MAX || e.index % 256 == 0
  {
    if |e.name| < NAME_MAX {
      UpToZeroOf(e.name, ['\0']);
    } else {
      var rest := IndexBytes(e.index) + KindBytes(e.kind);
      assert Record(e) == e.name + rest;
      UpToZeroOf(e.name, rest);
      assert rest[0] == (e.index % 256) as char;
      assert |CString(e)| == NAME_MAX + |UpToZero(rest)|;
    }
  }

  // ---------- The entries of a directory ----------

  function LiveIn(b: Block): seq<Entry>
  {
    if b == [] then [] else (if b[0].Live? then [b[0].e] else []) + LiveIn(b[1..])
  }

  /** All live entries, in the order in which the blocks and slots are scanned. */
  function LiveAll(bs: seq<Block>): seq<Entry>
  {
    if bs == [] then [] else LiveIn(bs[0]) + LiveAll(bs[1..])
  }

  lemma Regroup(x: seq<Entry>, y: seq<Entry>, z: seq<Entry>)
    ensures (x + y) + z == x + (y + z)
  {}

  lemma {:induction false} LiveInConcat(a: Block, b: Block)
    ensures LiveIn(a + b) == LiveIn(a) + LiveIn(b)
  {
    if a == [] {
      assert a + b == b;
    } else {
      var c := a + b;
      assert c[0] == a[0] && c[1..] == a[1..] + b;
      LiveInConcat(a[1..], b);
      Regroup(if a[0].Live? then [a[0].e] else [], LiveIn(a[1..]), LiveIn(b));
    }
  }

  lemma {:induction false} LiveAllConcat(a: seq<Block>, b: seq<Block>)
    ensures LiveAll(a + b) == LiveAll(a) + LiveAll(b)
  {
    if a == [] {
      assert a + b == b;
    } else {
      var c := a + b;
      assert c[0] == a[0] && c[1..] == a[1..] + b;
      LiveAllConcat(a[1..], b);
      Regroup(LiveIn(a[0]), LiveAll(a[1..]), LiveAll(b));
    }
  }

  /** What replacing one slot does to the entries of a block, and of the directory. */
  lemma LiveInUpdate(b: Block, j: nat, s: Slot)
    requires j < |b|
    ensures LiveIn(b) == LiveIn(b[..j]) + LiveIn([b[j]]) + LiveIn(b[j + 1..])
    ensures LiveIn(b[j := s]) == LiveIn(b[..j]) + LiveIn([s]) + LiveIn(b[j + 1..])
  {
    var x := b[j := s];
    assert b == b[..j] + [b[j]] + b[j + 1..];
    assert x == b[..j] + [s] + b[j + 1..];
    LiveInConcat(b[..j] + [b[j]], b[j + 1..]);
    LiveInConcat(b[..j], [b[j]]);
    LiveInConcat(b[..j] + [s], b[j + 1..]);
    LiveInConcat(b[..j], [s]);
  }

  lemma LiveAllUpdate(bs: seq<Block>, i: nat, b: Block)
    requires i < |bs|
    ensures LiveAll(bs) == LiveAll(bs[..i]) + LiveIn(bs[i]) + LiveAll(bs[i + 1..])
    ensures LiveAll(bs[i := b]) == LiveAll(bs[..i]) + LiveIn(b) + LiveAll(bs[i + 1..])
  {
    assert bs == bs[..i] + [bs[i]] + bs[i + 1..];
    assert bs[i := b] == bs[..i] + [b] + bs[i + 1..];
    LiveAllConcat(bs[..i] + [bs[i]], bs[i + 1..]);
    LiveAllConcat(bs[..i], [bs[i]]);
    LiveAllConcat(bs[..i] + [b], bs[i + 1..]);
    LiveAllConcat(bs[..i], [b]);
    LiveAllOne(bs[i]);
    LiveAllOne(b);
  }

  lemma LiveAllOne(b: Block)
    ensures LiveAll([b]) == LiveIn(b)
  {
    assert [b][1..] == [];
    assert LiveIn(b) + [] == LiveIn(b);
  }

  // ---------- CreateDirEntry ----------

  /** The first free slot of a block, or its length. */
  function FreeSlot(b: Block, j: nat := 0): (r: nat)
    requires j <= |b|
    ensures j <= r <= |b| && (r < |b| ==> b[r] == Free) && forall i :: j <= i < r ==> b[i].Live?
    decreases |b| - j
  {
    if j == |b| || b[j] == Free then j else FreeSlot(b, j + 1)
  }

  /** Whether the scan of a block stops in it. */
  predicate HasRoom(b: Block, beyond: bool)
  {
    FreeSlot(b) < |b| || !beyond
  }

  /** The first block in which the scan stops, or their number. */
  function RoomAt(bs: seq<Block>, beyond: bool, i: nat := 0): (r: nat)
    requires i <= |bs|
    ensures i <= r <= |bs| && (r < |bs| ==> HasRoom(bs[r], beyond))
    ensures forall j :: i <= j < r ==> !HasRoom(bs[j], beyond)
    decreases |bs| - i
  {
    if i == |bs| || HasRoom(bs[i], beyond) then i else RoomAt(bs, beyond, i + 1)
  }

  /** The entry written into a block that has room: into its first free slot, or behind the buffer. */
  function Filled(b: Block, e: Entry): Block
  {
    var j := FreeSlot(b);
    if j < |b| then b[j := Live(e)] else b
  }

  /** The buffer when the scan has passed all blocks: the last block it read. */
  function LastRead(d: Dir): Block
  {
    if d.blocks == [] then d.buf else d.blocks[|d.blocks| - 1]
  }

  /** CreateDirEntry, when `avail` blocks of the disk are free. */
  function Create(d: Dir, e: Entry, avail: nat): (Dir, bool)
    requires |d.buf| == SLOTS && forall b: Block :: b in d.blocks ==> |b| == SLOTS
  {
    var i := RoomAt(d.blocks, d.beyond);
    if i < |d.blocks| then
      var b := d.blocks[i];
      (d.(blocks := d.blocks[i := Filled(b, e)], size := d.size + 1, buf := Filled(b, e),
          beyond := d.beyond || FreeSlot(b) == |b|), true)
    else if i == MAX_BLOCKS || avail == 0 || (i == DIRECT && avail == 1) then (d.(buf := LastRead(d)), false)
    else
      var b := (if i < DIRECT then LastRead(d) else Zeros())[0 := Live(e)];
      (d.(blocks := d.blocks + [b], size := d.size + 1, buf := b), true)
  }

  /** What creating is for: one more entry, with the others as they were. */
  ghost predicate Inserts(d: Dir, e: Entry, d': Dir)
  {
    multiset(LiveAll(d'.blocks)) == multiset(LiveAll(d.blocks)) + multiset{e}
  }

  lemma {:induction false} AllFreeIsEmpty(b: Block)
    requires forall j :: 0 <= j < |b| ==> b[j] == Free
    ensures LiveIn(b) == []
  {
    if b != [] { AllFreeIsEmpty(b[1..]); }
  }

  lemma {:induction false} SomeLiveIsNotEmpty(b: Block, j: nat)
    requires j < |b| && b[j].Live?
    ensures LiveIn(b) != []
  {
    if j > 0 { SomeLiveIsNotEmpty(b[1..], j - 1); }
  }

  lemma InsertMiddle(a: seq<Entry>, x: seq<Entry>, e: Entry, y: seq<Entry>, c: seq<Entry>)
    ensures multiset(a + (x + [e] + y) + c) == multiset(a + (x + [] + y) + c) + multiset{e}
  {}

  lemma FillingInserts(d: Dir, e: Entry, i: nat)
    requires WellFormed(d) && i < |d.blocks| && FreeSlot(d.blocks[i]) < SLOTS
    ensures multiset(LiveAll(d.blocks[i := Filled(d.blocks[i], e)])) == multiset(LiveAll(d.blocks)) + multiset{e}
  {
    var b := d.blocks[i];
    var j := FreeSlot(b);
    LiveAllUpdate(d.blocks, i, Filled(b, e));
    LiveInUpdate(b, j, Live(e));
    OneSlot(Live(e));
    OneSlot(b[j]);
    hide LiveIn, LiveAll;
    InsertMiddle(LiveAll(d.blocks[..i]), LiveIn(b[..j]), e, LiveIn(b[j + 1..]), LiveAll(d.blocks[i + 1..]));
  }

  lemma OneSlot(s: Slot)
    ensures LiveIn([s]) == if s.Live? then [s.e] else []
  {
    assert [s][1..] == [];
  }

  lemma MoreThanOne(a: seq<Entry>, e: Entry, r: seq<Entry>)
    ensures multiset(a + ([e] + r)) == multiset(a) + multiset{e} <==> r == []
  {
    assert multiset(a + ([e] + r)) == multiset(a) + multiset{e} + multiset(r);
    if r != [] {
      assert r[0] in multiset(r);
      assert (multiset(a) + multiset{e} + multiset(r))[r[0]] > (multiset(a) + multiset{e})[r[0]];
    }
  }

  /** All slots but the first are free. */
  ghost predicate RestFree(b: Block)
  {
    forall j :: 1 <= j < |b| ==> b[j] == Free
  }

  lemma RestIsEmpty(b: Block)
    requires |b| > 0
    ensures LiveIn(b[1..]) == [] <==> RestFree(b)
  {
    if RestFree(b) {
      AllFreeIsEmpty(b[1..]);
    } else {
      var j :| 1 <= j < |b| && b[j] != Free;
      SomeLiveIsNotEmpty(b[1..], j - 1);
    }
  }

  lemma AppendingInserts(bs: seq<Block>, b: Block, e: Entry)
    requires |b| > 0 && b[0] == Live(e)
    ensures multiset(LiveAll(bs + [b])) == multiset(LiveAll(bs)) + multiset{e} <==> RestFree(b)
  {
    LiveAllConcat(bs, [b]);
    LiveAllOne(b);
    assert LiveIn(b) == [e] + LiveIn(b[1..]);
    RestIsEmpty(b);
    hide LiveIn, LiveAll, RestFree;
    MoreThanOne(LiveAll(bs), e, LiveIn(b[1..]));
  }

  /** When CreateDirEntry works: the block it stops in has a free slot of its own; or it adds a block, and
      that is the table's (from the 13th on), or the rest of the buffer is free. */
  ghost predicate Proper(d: Dir)
    requires |d.buf| == SLOTS && forall b: Block :: b in d.blocks ==> |b| == SLOTS
  {
    var i := RoomAt(d.blocks, d.beyond);
    if i < |d.blocks| then FreeSlot(d.blocks[i]) < SLOTS
    else i >= DIRECT || RestFree(LastRead(d))
  }

  lemma SlotZeroSet(b: Block, e: Entry)
    requires |b| > 0
    ensures RestFree(b[0 := Live(e)]) <==> RestFree(b)
  {
    var c := b[0 := Live(e)];
    assert forall j :: 1 <= j < |b| ==> c[j] == b[j];
  }

  /** A creation that reports success has added the entry and nothing else exactly in those cases; what
      it does to the size it does in all of them. */
  lemma CreateIsInsertion(d: Dir, e: Entry, avail: nat)
    requires WellFormed(d) && Create(d, e, avail).1
    ensures Inserts(d, e, Create(d, e, avail).0) <==> Proper(d)
    ensures Create(d, e, avail).0.size == d.size + 1
  {
    var i := RoomAt(d.blocks, d.beyond);
    hide LiveIn, LiveAll, RestFree;
    if i < |d.blocks| {
      assert d.blocks[i] in d.blocks;
      if FreeSlot(d.blocks[i]) < SLOTS {
        FillingInserts(d, e, i);
      } else {
        assert d.blocks[i := d.blocks[i]] == d.blocks;
        NotMore(LiveAll(d.blocks), e);
      }
    } else {
      var b := if i < DIRECT then LastRead(d) else Zeros();
      assert RestFree(Zeros()) by { ZerosRest(); }
      SlotZeroSet(b, e);
      AppendingInserts(d.blocks, b[0 := Live(e)], e);
    }
  }

  lemma ZerosRest()
    ensures RestFree(Zeros())
  {}

  lemma NotMore(a: seq<Entry>, e: Entry)
    ensures multiset(a) != multiset(a) + multiset{e}
  {
    assert multiset(a)[e] != (multiset(a) + multiset{e})[e];
  }

  /** A creation that fails changes no entry, and it fails exactly for want of space. */
  lemma CreateFails(d: Dir, e: Entry, avail: nat)
    requires WellFormed(d)
    ensures !Create(d, e, avail).1 ==> Create(d, e, avail).0.blocks == d.blocks && Create(d, e, avail).0.size == d.size
    ensures Create(d, e, avail).1 <==>
              RoomAt(d.blocks, d.beyond) < |d.blocks| ||
              (|d.blocks| < MAX_BLOCKS && avail >= if |d.blocks| == DIRECT then 2 else 1)
  {}

  lemma CreateKeepsShape(d: Dir, e: Entry, avail: nat)
    requires WellFormed(d)
    ensures WellFormed(Create(d, e, avail).0)
  {
    var d1 := Create(d, e, avail).0;
    assert |LastRead(d)| == SLOTS;
    forall b | b in d1.blocks ensures |b| == SLOTS {
      var k :| 0 <= k < |d1.blocks| && d1.blocks[k] == b;
      if k < |d.blocks| { assert d.blocks[k] in d.blocks; }
    }
  }

  /** file_create opens its directory anew, so that the memory behind the buffer is zero: such a
      directory, once it has a block, never gets another, and an entry for a full block is lost. */
  lemma FreshDirectoryNeverGrows(d: Dir, e: Entry, avail: nat)
    requires WellFormed(d) && !d.beyond && d.blocks != []
    ensures Create(d, e, avail).1 && |Create(d, e, avail).0.blocks| == |d.blocks|
    ensures FreeSlot(d.blocks[0]) == SLOTS ==>
              Create(d, e, avail).0.blocks == d.blocks && !Inserts(d, e, Create(d, e, avail).0)
  {
    assert d.blocks[0] in d.blocks;
    assert RoomAt(d.blocks, false) == 0 by { assert HasRoom(d.blocks[0], false); }
    if FreeSlot(d.blocks[0]) == SLOTS {
      assert d.blocks[0 := d.blocks[0]] == d.blocks;
      NotMore(LiveAll(d.blocks), e);
    }
  }

  /** With memory behind the buffer that is not zero, a directory of 1 to 11 full blocks gets a block with
      169 old entries in it a second time. */
  lemma FullDirectoryIsDuplicated(d: Dir, e: Entry, avail: nat)
    requires WellFormed(d) && d.beyond && 1 <= |d.blocks| < DIRECT && avail > 0
    requires forall b: Block :: b in d.blocks ==> forall j :: 0 <= j < SLOTS ==> b[j].Live?
    ensures Create(d, e, avail).1 && !Inserts(d, e, Create(d, e, avail).0)
  {
    assert forall j :: 0 <= j < |d.blocks| ==> d.blocks[j] in d.blocks && !HasRoom(d.blocks[j], true);
    var last := LastRead(d);
    assert last in d.blocks && last[1].Live? && !RestFree(last);
    CreateIsInsertion(d, e, avail);
  }

  // ---------- SearchDirEntry and DeleteDirectoryDirEntry ----------

  datatype Found = Missing | Found(e: Entry)

  /** The first slot of a block with this name, or its length. */
  function Named(b: Block, name: string, j: nat := 0): (r: nat)
    requires j <= |b|
    ensures j <= r <= |b| && (r < |b| ==> b[r].Live? && CString(b[r].e) == name)
    ensures forall i :: j <= i < r ==> b[i].Live? ==> CString(b[i].e) != name
    decreases |b| - j
  {
    if j == |b| || (b[j].Live? && CString(b[j].e) == name) then j else Named(b, name, j + 1)
  }

  /** The first block with this name, or their number. */
  function NamedAt(bs: seq<Block>, name: string, i: nat := 0): (r: nat)
    requires i <= |bs|
    ensures i <= r <= |bs| && (r < |bs| ==> Named(bs[r], name) < |bs[r]|)
    ensures forall k :: i <= k < r ==> Named(bs[k], name) == |bs[k]|
    decreases |bs| - i
  {
    if i == |bs| || Named(bs[i], name) < |bs[i]| then i else NamedAt(bs, name, i + 1)
  }

  function Search(bs: seq<Block>, name: string): Found
  {
    var i := NamedAt(bs, name);
    if i == |bs| then Missing else Found(bs[i][Named(bs[i], name)].e)
  }

  function Delete(d: Dir, name: string): (Dir, bool)
  {
    var i := NamedAt(d.blocks, name);
    if i == |d.blocks| then (d.(buf := LastRead(d)), false)
    else
      var b := d.blocks[i][Named(d.blocks[i], name) := Free];
      (d.(blocks := d.blocks[i := b], size := if d.size > 0 then d.size - 1 else 0xffff_ffff, buf := b), true)
  }

  /** The directory after a search: the buffer holds the block it stopped in. */
  function Searched(d: Dir, name: string): Dir
  {
    var i := NamedAt(d.blocks, name);
    d.(buf := if i < |d.blocks| then d.blocks[i] else LastRead(d))
  }

  lemma {:induction false} InLiveIn(b: Block, e: Entry)
    ensures e in LiveIn(b) <==> exists j :: 0 <= j < |b| && b[j] == Live(e)
  {
    if b != [] {
      InLiveIn(b[1..], e);
      if exists j :: 0 <= j < |b| && b[j] == Live(e) {
        var j :| 0 <= j < |b| && b[j] == Live(e);
        if j > 0 { assert b[1..][j - 1] == Live(e); }
      }
      if k: nat :| k < |b[1..]| && b[1..][k] == Live(e) { assert b[k + 1] == Live(e); }
    }
  }

  lemma {:induction false} InLiveAll(bs: seq<Block>, e: Entry)
    ensures e in LiveAll(bs) <==> exists i :: 0 <= i < |bs| && e in LiveIn(bs[i])
  {
    if bs != [] {
      InLiveAll(bs[1..], e);
      if exists i :: 0 <= i < |bs| && e in LiveIn(bs[i]) {
        var i :| 0 <= i < |bs| && e in LiveIn(bs[i]);
        if i > 0 { assert e in LiveIn(bs[1..][i - 1]); }
      }
      if k: nat :| k < |bs[1..]| && e in LiveIn(bs[1..][k]) { assert e in LiveIn(bs[k + 1]); }
    }
  }

  /** The search finds an entry that reads as that name, exactly if there is one. */
  lemma SearchFinds(bs: seq<Block>, name: string)
    ensures Search(bs, name).Found? ==> Search(bs, name).e in LiveAll(bs) && CString(Search(bs, name).e) == name
    ensures Search(bs, name).Missing? ==> forall e :: e in LiveAll(bs) ==> CString(e) != name
  {
    var i := NamedAt(bs, name);
    if i < |bs| {
      var e := bs[i][Named(bs[i], name)].e;
      InLiveIn(bs[i], e);
      InLiveAll(bs, e);
    } else {
      forall e | e in LiveAll(bs) ensures CString(e) != name {
        InLiveAll(bs, e);
        var k :| 0 <= k < |bs| && e in LiveIn(bs[k]);
        InLiveIn(bs[k], e);
      }
    }
  }

  /** Deletion takes the entry that the search finds, and no other. */
  lemma DeleteRemoves(d: Dir, name: string)
    ensures Delete(d, name).1 <==> Search(d.blocks, name).Found?
    ensures !Delete(d, name).1 ==> Delete(d, name).0 == d.(buf := LastRead(d))
    ensures Delete(d, name).1 ==>
              multiset(LiveAll(d.blocks)) ==
                multiset(LiveAll(Delete(d, name).0.blocks)) + multiset{Search(d.blocks, name).e}
    ensures Delete(d, name).1 ==> |LiveAll(d.blocks)| > 0
  {
    var i := NamedAt(d.blocks, name);
    if i < |d.blocks| {
      var b := d.blocks[i];
      var j := Named(b, name);
      LiveAllUpdate(d.blocks, i, b[j := Free]);
      LiveInUpdate(b, j, Free);
      OneSlot(Free);
      OneSlot(b[j]);
      hide LiveIn, LiveAll, Named, NamedAt;
      InsertMiddle(LiveAll(d.blocks[..i]), LiveIn(b[..j]), b[j].e, LiveIn(b[j + 1..]), LiveAll(d.blocks[i + 1..]));
    }
  }

  // ---------- A directory is a finite map ----------

  /** No two entries have one name. */
  ghost predicate Unique(ms: multiset<Entry>)
  {
    (forall e :: e in ms ==> ms[e] == 1) && forall e, f :: e in ms && f in ms && e.name == f.name ==> e == f
  }

  ghost function AsMap(ms: multiset<Entry>): map<string, Entry>
    requires Unique(ms)
  {
    map e | e in ms :: e.name := e
  }

  /** A directory that is a map: the size is right, no name occurs twice, and each can be found. */
  ghost predicate Valid(d: Dir)
  {
    WellFormed(d) && d.size == |LiveAll(d.blocks)| && Unique(multiset(LiveAll(d.blocks))) &&
    forall e :: e in LiveAll(d.blocks) ==> Findable(e)
  }

  ghost function Entries(d: Dir): map<string, Entry>
    requires Valid(d)
  {
    AsMap(multiset(LiveAll(d.blocks)))
  }

  lemma SearchIsLookup(d: Dir, name: string)
    requires Valid(d)
    ensures Search(d.blocks, name) == if name in Entries(d) then Found(Entries(d)[name]) else Missing
  {
    SearchFinds(d.blocks, name);
    var ms := multiset(LiveAll(d.blocks));
    assert forall e :: e in LiveAll(d.blocks) <==> e in ms;
    if name in Entries(d) { assert Entries(d)[name] in ms && Entries(d)[name].name == name; }
  }

  /** The map is determined by its entries. */
  ghost predicate Represents(m: map<string, Entry>, ms: multiset<Entry>)
  {
    (forall e :: e in ms ==> e.name in m && m[e.name] == e) && forall n :: n in m ==> m[n] in ms && m[n].name == n
  }

  lemma AsMapRepresents(ms: multiset<Entry>)
    requires Unique(ms)
    ensures Represents(AsMap(ms), ms)
  {}

  lemma AsMapIs(ms: multiset<Entry>, m: map<string, Entry>)
    requires Unique(ms) && Represents(m, ms)
    ensures AsMap(ms) == m
  {
    AsMapRepresents(ms);
  }

  lemma Plus(ms: multiset<Entry>, e: Entry)
    ensures forall f :: (ms + multiset{e})[f] == ms[f] + if f == e then 1 else 0
    ensures forall f :: f in ms + multiset{e} <==> f in ms || f == e
  {}

  lemma UniquePlus(ms: multiset<Entry>, e: Entry)
    ensures Unique(ms + multiset{e}) <==> Unique(ms) && forall f :: f in ms ==> f.name != e.name
  {
    Plus(ms, e);
    var all := ms + multiset{e};
    assert forall f :: f in ms ==> f in all;
    assert forall f :: f in ms && f != e ==> all[f] == ms[f];
  }

  lemma UniqueInsert(ms: multiset<Entry>, e: Entry)
    requires Unique(ms) && e.name !in AsMap(ms)
    ensures Unique(ms + multiset{e}) && AsMap(ms + multiset{e}) == AsMap(ms)[e.name := e]
  {
    AsMapRepresents(ms);
    UniquePlus(ms, e);
    Plus(ms, e);
    hide Unique, AsMap;
    AsMapIs(ms + multiset{e}, AsMap(ms)[e.name := e]);
  }

  lemma RepresentsLess(m: map<string, Entry>, ms: multiset<Entry>, e: Entry)
    requires Represents(m, ms + multiset{e}) && forall f :: f in ms ==> f.name != e.name
    ensures Represents(m - {e.name}, ms)
  {
    Plus(ms, e);
  }

  lemma UniqueRemove(ms: multiset<Entry>, e: Entry)
    requires Unique(ms + multiset{e})
    ensures Unique(ms) && e.name !in AsMap(ms) && AsMap(ms) == AsMap(ms + multiset{e}) - {e.name}
  {
    UniquePlus(ms, e);
    AsMapRepresents(ms + multiset{e});
    hide Unique, AsMap, Represents;
    RepresentsLess(AsMap(ms + multiset{e}), ms, e);
    AsMapIs(ms, AsMap(ms + multiset{e}) - {e.name});
  }

  /** A creation leaves a map exactly if it is proper and its name is new and can be found; and then it is
      insertion into that map. */
  lemma CreateRefines(d: Dir, e: Entry, avail: nat)
    requires Valid(d) && Create(d, e, avail).1
    ensures Valid(Create(d, e, avail).0) <==> Proper(d) && Findable(e) && e.name !in Entries(d)
    ensures Valid(Create(d, e, avail).0) ==> Entries(Create(d, e, avail).0) == Entries(d)[e.name := e]
  {
    CreateIsInsertion(d, e, avail);
    CreateKeepsShape(d, e, avail);
    var all, all1 := LiveAll(d.blocks), LiveAll(Create(d, e, avail).0.blocks);
    if Proper(d) {
      SameSize(all1, all, e);
      SameMembers(all1, all, e);
      UniquePlus(multiset(all), e);
      AsMapRepresents(multiset(all));
      if e.name !in Entries(d) { UniqueInsert(multiset(all), e); }
    } else {
      ImproperCounts(d, e, avail);
    }
  }

  lemma LastReadFits(d: Dir)
    requires WellFormed(d)
    ensures |LastRead(d)| == SLOTS
  {
    if d.blocks != [] { assert d.blocks[|d.blocks| - 1] in d.blocks; }
  }

  lemma SameMembers(a: seq<Entry>, b: seq<Entry>, e: Entry)
    requires multiset(a) == multiset(b) + multiset{e}
    ensures forall f :: f in a <==> f in b || f == e
  {
    forall f ensures f in a <==> f in b || f == e {
      assert f in a <==> f in multiset(a);
      assert f in b <==> f in multiset(b);
    }
  }

  /** An improper creation adds no entry or more than one. */
  lemma ImproperCounts(d: Dir, e: Entry, avail: nat)
    requires WellFormed(d) && Create(d, e, avail).1 && !Proper(d)
    ensures |LiveAll(Create(d, e, avail).0.blocks)| != |LiveAll(d.blocks)| + 1
  {
    var i := RoomAt(d.blocks, d.beyond);
    if i < |d.blocks| {
      assert d.blocks[i] in d.blocks;
      assert d.blocks[i := d.blocks[i]] == d.blocks;
    } else {
      LastReadFits(d);
      var b := LastRead(d)[0 := Live(e)];
      LiveAllConcat(d.blocks, [b]);
      LiveAllOne(b);
      assert LiveIn(b) == [e] + LiveIn(b[1..]);
      SlotZeroSet(LastRead(d), e);
      RestIsEmpty(b);
    }
  }

  /** Whoever creates an entry that its directory did not have finds it again exactly if its name leaves
      room for a zero, or its index begins with one. */
  lemma CreatedIsFound(d: Dir, e: Entry, avail: nat)
    requires WellFormed(d) && Proper(d) && Create(d, e, avail).1 && Search(d.blocks, e.name) == Missing
    ensures var bs := Create(d, e, avail).0.blocks;
            Search(bs, e.name) == (if |e.name| < NAME_MAX || e.index % 256 == 0 then Found(e) else Missing)
  {
    FindableIs(e);
    CreateIsInsertion(d, e, avail);
    var bs := Create(d, e, avail).0.blocks;
    SameMembers(LiveAll(bs), LiveAll(d.blocks), e);
    SearchFinds(d.blocks, e.name);
    SearchFinds(bs, e.name);
  }

  /** So a name of 16 characters is missed by search and deletion, whoever looked before creating it. */
  lemma LongNameIsMissed(d: Dir, e: Entry, avail: nat)
    requires WellFormed(d) && Proper(d) && Create(d, e, avail).1 && Search(d.blocks, e.name) == Missing
    requires |e.name| == NAME_MAX && e.index % 256 != 0
    ensures var d1 := Create(d, e, avail).0;
            Inserts(d, e, d1) && Search(d1.blocks, e.name) == Missing && !Delete(d1, e.name).1
  {
    CreatedIsFound(d, e, avail);
    CreateIsInsertion(d, e, avail);
    DeleteRemoves(Create(d, e, avail).0, e.name);
  }

  /** For instance the first file of a new directory; and it is created a second time. */
  lemma LongNameTwice(e: Entry, f: Entry)
    requires e == Entry("abcdefghijklmnop", 1, File) && f == Entry("abcdefghijklmnop", 2, File)
    ensures var d0 := Dir.Dir([], 0, Zeros(), false);
            var d1 := Create(d0, e, 1).0;
            var d2 := Create(d1, f, 0).0;
            Search(d1.blocks, e.name) == Search(d2.blocks, e.name) == Missing &&
            Inserts(d0, e, d1) && Inserts(d1, f, d2)
  {
    var d0 := Dir.Dir([], 0, Zeros(), false);
    var d1 := Create(d0, e, 1).0;
    OneEntryBlock(d1, e);
    hide LiveAll, LiveIn, Inserts, Delete, CString;
    LongNameIsMissed(d0, e, 1);
    CreateKeepsShape(d0, e, 1);
    hide Search, WellFormed, Proper;
    LongNameIsMissed(d1, f, 0);
  }

  lemma OneEntryBlock(d: Dir, e: Entry)
    requires WellFormed(d) && d.blocks == [Zeros()[0 := Live(e)]]
    ensures Proper(d) && RoomAt(d.blocks, d.beyond) == 0
  {
    var b := d.blocks[0];
    assert b[0].Live? && b[1] == Free;
    assert FreeSlot(b) <= 1;
    assert HasRoom(b, d.beyond);
  }

  lemma SameSize(a: seq<Entry>, b: seq<Entry>, e: Entry)
    requires multiset(a) == multiset(b) + multiset{e}
    ensures |a| == |b| + 1
  {
    assert |multiset(a)| == |a| && |multiset(b)| == |b|;
  }

  lemma SearchKeepsShape(d: Dir, name: string)
    requires WellFormed(d)
    ensures WellFormed(Searched(d, name))
  {
    LastReadFits(d);
    var i := NamedAt(d.blocks, name);
    if i < |d.blocks| { assert d.blocks[i] in d.blocks; }
  }

  lemma DeleteKeepsShape(d: Dir, name: string)
    requires WellFormed(d)
    ensures WellFormed(Delete(d, name).0)
  {
    var d1 := Delete(d, name).0;
    var i := NamedAt(d.blocks, name);
    LastReadFits(d);
    if i < |d.blocks| { assert d.blocks[i] in d.blocks; }
    forall b: Block | b in d1.blocks ensures |b| == SLOTS {
      var k :| 0 <= k < |d1.blocks| && d1.blocks[k] == b;
      assert d.blocks[k] in d.blocks;
    }
  }

  lemma DeletingRefines(d: Dir, name: string)
    requires Valid(d) && Delete(d, name).1 && Search(d.blocks, name).Found?
    ensures Valid(Delete(d, name).0) && Entries(Delete(d, name).0) == Entries(d) - {name}
  {
    DeleteRemoves(d, name);
    DeleteKeepsShape(d, name);
    SearchFinds(d.blocks, name);
    var e, d1 := Search(d.blocks, name).e, Delete(d, name).0;
    assert d1.size == d.size - 1;
    hide LiveAll, Search, Unique, AsMap, WellFormed, CString, Delete;
    UniqueRemove(multiset(LiveAll(d1.blocks)), e);
    SameSize(LiveAll(d.blocks), LiveAll(d1.blocks), e);
    SameMembers(LiveAll(d.blocks), LiveAll(d1.blocks), e);
  }

  /** Deleting a name is removal from the map. */
  lemma DeleteRefines(d: Dir, name: string)
    requires Valid(d)
    ensures Delete(d, name).1 <==> name in Entries(d)
    ensures Valid(Delete(d, name).0) && Entries(Delete(d, name).0) == Entries(d) - {name}
  {
    hide Valid, Entries, Search, Delete;
    SearchIsLookup(d, name);
    DeleteRemoves(d, name);
    if Delete(d, name).1 {
      DeletingRefines(d, name);
    } else {
      ValidIsWellFormed(d);
      DeleteKeepsShape(d, name);
      SameBlocks(d, Delete(d, name).0);
      assert Entries(d) - {name} == Entries(d);
    }
  }

  lemma SameBlocks(d: Dir, d1: Dir)
    requires Valid(d) && WellFormed(d1) && d1.blocks == d.blocks && d1.size == d.size
    ensures Valid(d1) && Entries(d1) == Entries(d)
  {}

  // ---------- Sequences of calls ----------

  datatype Call = Add(e: Entry, avail: nat) | Remove(name: string) | Lookup(name: string)

  datatype Reply = Flag(ok: bool) | Answer(found: Found)

  ghost function After(d: Dir, c: Call): (Dir, Reply)
    requires WellFormed(d)
  {
    match c
    case Add(e, avail) => var r := Create(d, e, avail); (r.0, Flag(r.1))
    case Remove(name) => var r := Delete(d, name); (r.0, Flag(r.1))
    case Lookup(name) => (Searched(d, name), Answer(Search(d.blocks, name)))
  }

  /** A creation, if there is space for it, is proper, of a new name, and of one that can be found. */
  ghost predicate Sound(d: Dir, c: Call)
    requires Valid(d)
  {
    c.Add? && Create(d, c.e, c.avail).1 ==>
      Proper(d) && c.e.name !in Entries(d) && (|c.e.name| < NAME_MAX || c.e.index % 256 == 0)
  }

  /** One call on a map of entries, and its reply. A creation may fail for want of space. */
  ghost predicate MapStep(m: map<string, Entry>, c: Call, r: Reply, m': map<string, Entry>)
  {
    match c
    case Add(e, _) => r.Flag? && m' == if r.ok then m[e.name := e] else m
    case Remove(name) => r == Flag(name in m) && m' == m - {name}
    case Lookup(name) => r == Answer(if name in m then Found(m[name]) else Missing) && m' == m
  }

  lemma AfterRefines(d: Dir, c: Call)
    requires Valid(d) && Sound(d, c)
    ensures Valid(After(d, c).0) && MapStep(Entries(d), c, After(d, c).1, Entries(After(d, c).0))
  {
    hide Valid, Entries, Create, Delete, Search, Searched, WellFormed, Proper;
    ValidIsWellFormed(d);
    match c
    case Add(e, avail) =>
      FindableIs(e);
      if Create(d, e, avail).1 { CreateRefines(d, e, avail); } else { FailedCreation(d, e, avail); }
    case Remove(name) => DeleteRefines(d, name);
    case Lookup(name) => SearchIsLookup(d, name); SearchedSame(d, name);
  }

  lemma ValidIsWellFormed(d: Dir)
    requires Valid(d)
    ensures WellFormed(d)
  {}

  lemma FailedCreation(d: Dir, e: Entry, avail: nat)
    requires Valid(d) && !Create(d, e, avail).1
    ensures Valid(Create(d, e, avail).0) && Entries(Create(d, e, avail).0) == Entries(d)
  {
    CreateFails(d, e, avail);
    CreateKeepsShape(d, e, avail);
    SameBlocks(d, Create(d, e, avail).0);
  }

  lemma SearchedSame(d: Dir, name: string)
    requires Valid(d)
    ensures Valid(Searched(d, name)) && Entries(Searched(d, name)) == Entries(d)
  {
    SearchKeepsShape(d, name);
    SameBlocks(d, Searched(d, name));
  }

  lemma AfterKeepsShape(d: Dir, c: Call)
    requires WellFormed(d)
    ensures WellFormed(After(d, c).0)
  {
    match c
    case Add(e, avail) => CreateKeepsShape(d, e, avail);
    case Remove(name) => DeleteKeepsShape(d, name);
    case Lookup(name) => SearchKeepsShape(d, name);
  }

  /** The directory that a sequence of calls leaves, and their replies. */
  ghost function Run(d: Dir, calls: seq<Call>): (Dir, seq<Reply>)
    requires WellFormed(d)
    decreases |calls|
  {
    if calls == [] then (d, [])
    else
      AfterKeepsShape(d, calls[0]);
      var a := After(d, calls[0]);
      var r := Run(a.0, calls[1..]);
      (r.0, [a.1] + r.1)
  }

  ghost predicate AllSound(d: Dir, calls: seq<Call>)
    requires WellFormed(d)
    decreases |calls|
  {
    calls == [] ||
    (Valid(d) && Sound(d, calls[0]) && (AfterKeepsShape(d, calls[0]); AllSound(After(d, calls[0]).0, calls[1..])))
  }

  ghost predicate MapRun(m: map<string, Entry>, calls: seq<Call>, replies: seq<Reply>, m': map<string, Entry>)
    decreases |calls|
  {
    |calls| == |replies| &&
    if calls == [] then m == m'
    else exists b :: MapStep(m, calls[0], replies[0], b) && MapRun(b, calls[1..], replies[1..], m')
  }

  /** Over every sequence of calls a directory behaves as the map of its entries, and its size stays the
      number of them. */
  lemma {:induction false} RunRefines(d: Dir, calls: seq<Call>)
    requires Valid(d) && WellFormed(d) && AllSound(d, calls)
    ensures var r := Run(d, calls); Valid(r.0) && MapRun(Entries(d), calls, r.1, Entries(r.0))
    decreases |calls|
  {
    hide Valid, Entries, After, MapStep, WellFormed, Sound;
    if calls != [] {
      AfterRefines(d, calls[0]);
      AfterKeepsShape(d, calls[0]);
      var a := After(d, calls[0]);
      RunRefines(a.0, calls[1..]);
      var r := Run(a.0, calls[1..]);
      assert ([a.1] + r.1)[1..] == r.1;
      assert MapStep(Entries(d), calls[0], a.1, Entries(a.0));
    }
  }

  // ---------- The open directory ----------

  class OpenDirectory {
    var blocks: seq<Block>
    var size: nat
    var buf: Block
    var beyond: bool
    var dirPos: nat

    ghost function State(): Dir
      reads this
    {
      Dir.Dir(blocks, size, buf, beyond)
    }

    /** DirOpen: the buffer, and what follows it, come zeroed from syscall_malloc. */
    constructor (blocks: seq<Block>, size: nat)
      ensures State() == Dir.Dir(blocks, size, Zeros(), false) && dirPos == 0
    {
      this.blocks, this.size, buf, beyond, dirPos := blocks, size, Zeros(), false, 0;
    }

    /** The inner loop of CreateDirEntry, over 171 slots. */
    method FindFree(b: Block) returns (j: nat)
      requires |b| == SLOTS
      ensures j == if HasRoom(b, beyond) then FreeSlot(b) else SLOTS + 1
    {
      j := 0;
      while j <= SLOTS
        invariant 0 <= j <= SLOTS + 1
        invariant j <= SLOTS ==> FreeSlot(b, j) == FreeSlot(b)
        invariant j == SLOTS + 1 ==> !HasRoom(b, beyond)
      {
        if j < SLOTS {
          if b[j] == Free { return; }
        } else if !beyond {
          return;
        }
        j := j + 1;
      }
    }

    /** CreateDirEntry, when `avail` blocks of the disk are free. */
    method CreateDirEntry(e: Entry, avail: nat) returns (flag: bool)
      requires WellFormed(State())
      modifies this`blocks, this`size, this`buf, this`beyond
      ensures (State(), flag) == Create(old(State()), e, avail)
    {
      var i := 0;
      flag := false;
      while i < MAX_BLOCKS
        invariant 0 <= i <= |blocks| && !flag
        invariant blocks == old(blocks) && size == old(size) && beyond == old(beyond)
        invariant RoomAt(blocks, beyond, i) == RoomAt(blocks, beyond)
        invariant buf == if i == 0 then old(buf) else blocks[i - 1]
        decreases MAX_BLOCKS - i
      {
        if i == |blocks| {
          if avail == 0 { return; }
          if i < DIRECT {
            buf := buf[0 := Live(e)];
          } else if i == DIRECT {
            if avail == 1 { return; }
            buf := Zeros()[0 := Live(e)];
          } else {
            buf := Zeros()[0 := Live(e)];
          }
          blocks := blocks + [buf];
          flag := true;
        } else {
          assert blocks[i] in blocks;
          buf := blocks[i];
          var j := FindFree(buf);
          if j < SLOTS {
            buf := buf[j := Live(e)];
            flag := true;
          } else if j == SLOTS {
            beyond := true;
            flag := true;
          }
          if flag { blocks := blocks[i := buf]; }
        }
        if flag { break; }
        i := i + 1;
      }
      if flag { size := size + 1; }
    }

    method FindName(b: Block, name: string) returns (j: nat)
      ensures j == Named(b, name)
    {
      j := 0;
      while j < |b|
        invariant 0 <= j <= |b| && Named(b, name, j) == Named(b, name)
      {
        if b[j].Live? && CString(b[j].e) == name { return; }
        j := j + 1;
      }
    }

    /** SearchDirEntry. */
    method SearchDirEntry(name: string) returns (r: Found)
      requires WellFormed(State())
      modifies this`buf
      ensures r == Search(blocks, name) && State() == Searched(old(State()), name)
      ensures WellFormed(State())
    {
      hide CString;
      SearchKeepsShape(State(), name);
      var i := 0;
      while i < |blocks|
        invariant 0 <= i <= |blocks| && NamedAt(blocks, name, i) == NamedAt(blocks, name)
        invariant buf == if i == 0 then old(buf) else blocks[i - 1]
      {
        buf := blocks[i];
        var j := FindName(buf, name);
        if j < |buf| { return Found(buf[j].e); }
        i := i + 1;
      }
      r := Missing;
    }

    /** DeleteDirectoryDirEntry. */
    method DeleteDirEntry(name: string) returns (flag: bool)
      requires WellFormed(State())
      modifies this`blocks, this`size, this`buf
      ensures (State(), flag) == Delete(old(State()), name)
      ensures WellFormed(State())
    {
      hide CString;
      DeleteKeepsShape(State(), name);
      var i := 0;
      while i < |blocks|
        invariant 0 <= i <= |blocks| && NamedAt(blocks, name, i) == NamedAt(blocks, name)
        invariant blocks == old(blocks) && size == old(size)
        invariant buf == if i == 0 then old(buf) else blocks[i - 1]
      {
        buf := blocks[i];
        var j := FindName(buf, name);
        if j < |buf| {
          buf := buf[j := Free];
          blocks := blocks[i := buf];
          size := if size > 0 then size - 1 else 0xffff_ffff;
          return true;
        }
        i := i + 1;
      }
      flag := false;
    }

    /** The inner loop of syscall_readdir: the slot of the entry number `tarpos`, if it is in this block. */
    method CountIn(b: Block, cur: nat, tarpos: nat) returns (i: nat, curpos: nat)
      requires cur <= tarpos
      ensures i <= |b| && curpos == cur + |LiveIn(b[..i])| <= tarpos
      ensures i < |b| ==> b[i].Live? && curpos == tarpos
      ensures i == |b| ==> curpos == cur + |LiveIn(b)|
    {
      i, curpos := 0, cur;
      while i < |b|
        invariant 0 <= i <= |b| && curpos == cur + |LiveIn(b[..i])| && curpos <= tarpos
      {
        SlotCounted(b, i);
        if b[i].Live? {
          if curpos == tarpos { return; }
          curpos := curpos + 1;
        }
        i := i + 1;
      }
      assert b[..i] == b;
    }

    /** syscall_readdir: the entry at the position of the directory, found by counting from the start. If
        the size exceeds the number of entries the scan runs off the addresses. */
    method ReadDir() returns (r: Found)
      requires WellFormed(State()) && (dirPos < size ==> dirPos < |LiveAll(blocks)|)
      modifies this`buf, this`dirPos
      ensures r == if old(dirPos) >= size then Missing else Found(LiveAll(blocks)[old(dirPos)])
      ensures dirPos == if old(dirPos) >= size then old(dirPos) else old(dirPos) + 1
      ensures WellFormed(State()) && (if r.Found? then buf in blocks && Live(r.e) in buf else buf == old(buf))
    {
      if dirPos >= size { return Missing; }
      hide LiveAll, LiveIn, WellFormed;
      var tarpos, idx0, curpos := dirPos, 0, 0;
      NoBlocks(blocks);
      while curpos <= tarpos
        invariant 0 <= idx0 <= |blocks| && 0 <= curpos <= tarpos == dirPos == old(dirPos) < |LiveAll(blocks)|
        invariant curpos == |LiveAll(blocks[..idx0])| && WellFormed(State())
        decreases |blocks| - idx0
      {
        AllBlocks(blocks);
        if idx0 == |blocks| { assert false; }
        BlockInBuffer(State(), idx0);
        buf := blocks[idx0];
        NextBlock(blocks, idx0);
        var i;
        i, curpos := CountIn(buf, curpos, tarpos);
        if i < |buf| {
          SlotPosition(blocks, idx0, i);
          dirPos := dirPos + 1;
          return Found(buf[i].e);
        }
        idx0 := idx0 + 1;
      }
      r := Missing;
    }
  }

  lemma BlockInBuffer(d: Dir, i: nat)
    requires WellFormed(d) && i < |d.blocks|
    ensures WellFormed(d.(buf := d.blocks[i]))
  {
    assert d.blocks[i] in d.blocks;
  }

  lemma NoBlocks(bs: seq<Block>)
    ensures LiveAll(bs[..0]) == []
  {}

  lemma AllBlocks(bs: seq<Block>)
    ensures bs[..|bs|] == bs
  {}

  lemma NextBlock(bs: seq<Block>, i: nat)
    requires i < |bs|
    ensures LiveAll(bs[..i + 1]) == LiveAll(bs[..i]) + LiveIn(bs[i])
  {
    assert bs[..i + 1] == bs[..i] + [bs[i]];
    LiveAllConcat(bs[..i], [bs[i]]);
    LiveAllOne(bs[i]);
  }

  lemma SlotCounted(b: Block, j: nat)
    requires j < |b|
    ensures LiveIn(b[..j + 1]) == LiveIn(b[..j]) + if b[j].Live? then [b[j].e] else []
  {
    assert b[..j + 1] == b[..j] + [b[j]];
    LiveInConcat(b[..j], [b[j]]);
    OneSlot(b[j]);
  }

  lemma SlotPosition(bs: seq<Block>, i: nat, j: nat)
    requires i < |bs| && j < |bs[i]| && bs[i][j].Live?
    ensures var at := |LiveAll(bs[..i])| + |LiveIn(bs[i][..j])|;
            at < |LiveAll(bs)| && LiveAll(bs)[at] == bs[i][j].e
  {
    var b := bs[i];
    OneSlot(b[j]);
    LiveAllUpdate(bs, i, b);
    LiveInUpdate(b, j, b[j]);
  }

  lemma EntriesListed(d: Dir)
    requires Valid(d)
    ensures forall e :: e in LiveAll(d.blocks) <==> e.name in Entries(d) && Entries(d)[e.name] == e
    ensures forall i, j :: 0 <= i < j < |LiveAll(d.blocks)| ==> LiveAll(d.blocks)[i].name != LiveAll(d.blocks)[j].name
    ensures WellFormed(d) && d.size == |LiveAll(d.blocks)|
  {
    var es, ms := LiveAll(d.blocks), multiset(LiveAll(d.blocks));
    AsMapRepresents(ms);
    DistinctNames(es);
    hide LiveAll, Unique, AsMap;
    assert forall e :: e in es <==> e in ms;
  }

  /** syscall_readdir until it returns nothing, from position 0 on. */
  method ReadAll(d: OpenDirectory) returns (es: seq<Entry>)
    requires WellFormed(d.State()) && d.size == |LiveAll(d.blocks)|
    modifies d`buf, d`dirPos
    ensures es == LiveAll(old(d.blocks))
  {
    hide LiveAll, WellFormed;
    ghost var all := LiveAll(d.blocks);
    d.dirPos := 0;
    es := [];
    var r := d.ReadDir();
    while r.Found?
      invariant d.blocks == old(d.blocks) && d.size == |all| && WellFormed(d.State())
      invariant |es| <= |all| && es == all[..|es|]
      invariant if r.Found? then |es| < |all| && r.e == all[|es|] && d.dirPos == |es| + 1 else |es| == |all|
      decreases |all| - |es|, r.Found?
    {
      es := es + [r.e];
      r := d.ReadDir();
    }
  }

  /** The calls return each entry of the map once, and then no more. */
  method ListDirectory(d: OpenDirectory) returns (es: seq<Entry>)
    requires Valid(d.State())
    modifies d`buf, d`dirPos
    ensures |es| == old(d.size)
    ensures forall e :: e in es <==> e.name in old(Entries(d.State())) && old(Entries(d.State()))[e.name] == e
    ensures forall i, j :: 0 <= i < j < |es| ==> es[i].name != es[j].name
  {
    EntriesListed(d.State());
    hide LiveAll, Valid, Entries, WellFormed;
    es := ReadAll(d);
  }

  lemma Twice(es: seq<Entry>, i: nat, j: nat)
    requires i < j < |es| && es[i] == es[j]
    ensures multiset(es)[es[i]] >= 2
  {
    assert es == es[..i] + [es[i]] + es[i + 1..j] + [es[j]] + es[j + 1..];
  }

  lemma DistinctNames(es: seq<Entry>)
    requires Unique(multiset(es))
    ensures forall i, j :: 0 <= i < j < |es| ==> es[i].name != es[j].name
  {
    forall i, j | 0 <= i < j < |es| ensures es[i].name != es[j].name {
      assert es[i] in multiset(es) && es[j] in multiset(es);
      if es[i] == es[j] { Twice(es, i, j); }
    }
  }
}
