/** The sector bitmap that partition_format writes (fs/fs.c), and the file system on a new partition. */
module Format {
  import opened Basics
  import opened Bitmap
  import opened Disk
  import opened Blocks
  import opened File
  import InodeTable

  /** `len` sectors of data; the bitmap has `n` bits, a multiple of 4096. The last byte is cleared up to
      and including bit `len % 8`. */
  function Formatted(len: nat, n: nat): (r: seq<bool>)
    ensures |r| == n
  {
    seq(n, k requires 0 <= k < n => k < 8 || k / 8 > len / 8 || (k / 8 == len / 8 && k % 8 > len % 8))
  }

  /** Sizes as partition_format computes them, for a data area of at least one block. */
  predicate Sizes(len: nat, n: nat)
  {
    8 <= len <= n && n % SECTOR_BITS == 0 && n < len + SECTOR_BITS
  }

  /** Its bytes are clear when their top bits are, so that blocks are found on byte boundaries. */
  lemma FormattedShape(len: nat, n: nat)
    requires Sizes(len, n)
    ensures TopBitRules(Formatted(len, n))
  {
    var b := Formatted(len, n);
    forall k | 0 <= k < |b| && !b[k / 8 * 8 + 7] ensures !b[k] {
      assert (k / 8 * 8 + 7) / 8 == k / 8 && (k / 8 * 8 + 7) % 8 == 7;
    }
  }

  /** Every block that can be had lies within the data area exactly if `len % 8` is not 7: the loop that
      clears the last byte goes one bit too far. */
  lemma FormattedRange(len: nat, n: nat)
    requires Sizes(len, n)
    ensures (forall q: nat :: 8 * q + 8 <= n && !Taken(Formatted(len, n), q) ==> 8 * q + 8 <= len) <==> len % 8 != 7
  {
    var b := Formatted(len, n);
    forall q: nat | 8 * q + 8 <= n ensures !Taken(b, q) <==> q > 0 && (q < len / 8 || (q == len / 8 && len % 8 == 7)) {
      assert (8 * q + 7) / 8 == q && (8 * q + 7) % 8 == 7;
    }
    if len % 8 == 7 {
      var q := len / 8;
      assert 8 * q + 8 == len + 1 <= n;
      assert !Taken(b, q);
    }
  }

  /** The blocks no file may have: the root directory's, and those behind the end. */
  ghost function Reserved(bits: seq<bool>): (r: set<nat>)
    ensures forall q: nat :: 8 * q + 8 <= |bits| ==> (q in r <==> Taken(bits, q))
  {
    set q: nat | 0 <= q < |bits| && Taken(bits, q)
  }

  /** A new partition without files is in order, if every block in the data area is on the disk. */
  lemma NewPartition(d: seq<byte>, base: nat, table: nat, len: nat, n: nat)
    requires Sizes(len, n) && len % 8 != 7
    requires InodeTable.HasTable(d, table) && table + InodeTable.TABLE_SECTORS <= base
    requires OnDisk(d, base, len) && base + len < WORD_MOD
    ensures var fs := Fs(d, Formatted(len, n), map[], base, table);
            Inv(fs, map[], map[], Reserved(fs.bits)) && AtRest(fs.inodes, map[])
  {
    FormattedShape(len, n);
    FormattedRange(len, n);
    var bits := Formatted(len, n);
    hide Formatted, TopBitRules;
    assert OwnOk(bits, map[], Reserved(bits));
  }

  /** The last block that can be had; 0 if there is none. */
  function LastBlock(len: nat): nat
    requires len >= 8
  {
    (len + 1) / 8 - 1
  }

  /** The blocks that can be had are 1 to LastBlock(len). */
  lemma FreeBlocks(len: nat, n: nat, q: nat)
    requires Sizes(len, n) && 8 * q + 8 <= n
    ensures !Taken(Formatted(len, n), q) <==> 1 <= q <= LastBlock(len)
  {
    assert (8 * q + 7) / 8 == q && (8 * q + 7) % 8 == 7;
  }

  /** The first block whose address straddles, if the data area does not start on a multiple of eight. */
  function FirstStraddle(base: nat): nat { 1 + (62 - base / 8) % 64 }

  lemma StraddlesAt(base: nat, q: nat)
    requires base % 8 != 0
    ensures (base + 8 * q) % SECTOR > SECTOR - 8 <==> (base / 8 + q) % 64 == 63
  {
    var a, m := base / 8, base % 8;
    var y, z := (a + q) / 64, (a + q) % 64;
    assert base + 8 * q == 512 * y + 8 * z + m;
    SplitAddress(y, z, m);
  }

  lemma SplitAddress(y: nat, z: nat, m: nat)
    requires z < 64 && 1 <= m < 8
    ensures (512 * y + 8 * z + m) % SECTOR == 8 * z + m
  {}

  lemma FirstIsFirst(a: nat, q: nat)
    requires q >= 1
    ensures q < 1 + (62 - a) % 64 ==> (a + q) % 64 != 63
    ensures q == 1 + (62 - a) % 64 ==> (a + q) % 64 == 63
  {}

  /** On a new partition every direct block suits BitMapUpdate exactly if there is no block at all, or the
      last one's address is below the number of bits and either the data area starts on a multiple of eight
      or it has no more blocks than come before the first that straddles. */
  lemma NewPartitionIsFine(base: nat, len: nat, n: nat)
    requires Sizes(len, n)
    ensures (forall q: nat :: 8 * q + 8 <= n && !Taken(Formatted(len, n), q) ==>
               UpdateFate(Formatted(len, n), base + 8 * q) == Fine) <==>
            LastBlock(len) == 0 ||
            (base + 8 * LastBlock(len) < n && (base % 8 == 0 || LastBlock(len) < FirstStraddle(base)))
  {
    var b, last := Formatted(len, n), LastBlock(len);
    assert 8 * last + 8 <= n by { LastFits(len, n); }
    hide Formatted, Taken, UpdateFate;
    forall q: nat | 8 * q + 8 <= n
      ensures !Taken(b, q) <==> 1 <= q <= last
      ensures UpdateFate(b, base + 8 * q) == Fine <==> base + 8 * q < n && (base + 8 * q) % SECTOR <= SECTOR - 8
      ensures base % 8 == 0 ==> (base + 8 * q) % SECTOR <= SECTOR - 8
    {
      FreeBlocks(len, n, q);
      FateAt(b, base + 8 * q);
      if base % 8 == 0 { AlignedNeverStraddles(base / 8 + q); }
    }
    forall q: nat | 1 <= q && base % 8 != 0
      ensures q < FirstStraddle(base) ==> (base + 8 * q) % SECTOR <= SECTOR - 8
      ensures q == FirstStraddle(base) ==> (base + 8 * q) % SECTOR > SECTOR - 8
    {
      StraddlesAt(base, q);
      FirstIsFirst(base / 8, q);
    }
    hide LastBlock;
    if last > 0 {
      assert UpdateFate(b, base + 8 * last) == Fine ==> base + 8 * last < n;
      if base % 8 != 0 && FirstStraddle(base) <= last { assert UpdateFate(b, base + 8 * FirstStraddle(base)) != Fine; }
    }
  }

  lemma LastFits(len: nat, n: nat)
    requires Sizes(len, n)
    ensures 8 * LastBlock(len) + 8 <= n
  {
    var p, k := (len + 1) / 8, n / SECTOR_BITS;
    assert 8 * p <= len + 1 && n == SECTOR_BITS * k;
    MultiplesOfEight(p, 512 * k);
  }

  lemma MultiplesOfEight(p: nat, m: nat)
    requires 8 * p <= 8 * m + 1
    ensures 8 * p <= 8 * m
  {}

  lemma AlignedNeverStraddles(a: nat)
    ensures 8 * a % SECTOR <= SECTOR - 8
  {
    assert 8 * a % SECTOR % 8 == 0;
  }

  lemma FateAt(bits: seq<bool>, idx: nat)
    requires |bits| % SECTOR_BITS == 0
    ensures UpdateFate(bits, idx) == Fine <==> idx < |bits| && idx % SECTOR <= SECTOR - 8
  {
    var k := |bits| / SECTOR_BITS;
    assert |bits| == SECTOR_BITS * k;
    assert idx < |bits| <==> idx / SECTOR_BITS < k;
    assert (idx + 7) / SECTOR == idx / SECTOR <==> idx % SECTOR <= SECTOR - 8;
  }
}
