/** A disk as the flat sequence of its bytes. ide_read and ide_write (device/ide.c) move whole sectors;
    tables of addresses are little-endian 32-bit words. */
module Disk {
  import opened Basics

  const SECTOR: nat := 512
  const BLOCK: nat := 4096
  const WORD_MOD: nat := 0x1_0000_0000

  /** `s` with the bytes from `at` on replaced. */
  function Overlay(s: seq<byte>, at: nat, b: seq<byte>): (r: seq<byte>)
    requires at + |b| <= |s|
    ensures |r| == |s|
    ensures forall i :: 0 <= i < |s| ==> r[i] == if at <= i < at + |b| then b[i - at] else s[i]
  {
    s[..at] + b + s[at + |b|..]
  }

  predicate OnDisk(d: seq<byte>, lba: nat, cnt: nat)
  {
    SECTOR * (lba + cnt) <= |d|
  }

  /** ide_read. */
  function Read(d: seq<byte>, lba: nat, cnt: nat): (r: seq<byte>)
    requires OnDisk(d, lba, cnt)
    ensures |r| == SECTOR * cnt
  {
    d[SECTOR * lba..SECTOR * lba + SECTOR * cnt]
  }

  /** ide_write. */
  function Write(d: seq<byte>, lba: nat, cnt: nat, b: seq<byte>): (r: seq<byte>)
    requires OnDisk(d, lba, cnt) && |b| == SECTOR * cnt
    ensures |r| == |d|
  {
    Overlay(d, SECTOR * lba, b)
  }

  lemma ReadBack(d: seq<byte>, lba: nat, cnt: nat, b: seq<byte>)
    requires OnDisk(d, lba, cnt) && |b| == SECTOR * cnt
    ensures Read(Write(d, lba, cnt, b), lba, cnt) == b
  {}

  lemma ReadElsewhere(d: seq<byte>, lba: nat, cnt: nat, b: seq<byte>, lba1: nat, cnt1: nat)
    requires OnDisk(d, lba, cnt) && |b| == SECTOR * cnt && OnDisk(d, lba1, cnt1)
    requires lba1 + cnt1 <= lba || lba + cnt <= lba1
    ensures Read(Write(d, lba, cnt, b), lba1, cnt1) == Read(d, lba1, cnt1)
  {}

  // ---------- Words ----------

  function Value(b0: int, b1: int, b2: int, b3: int): int
  {
    b0 + 0x100 * b1 + 0x1_0000 * b2 + 0x100_0000 * b3
  }

  /** The `i`-th uint32_t of a buffer. */
  function Word(b: seq<byte>, i: nat): (r: nat)
    requires 4 * i + 4 <= |b|
    ensures r < WORD_MOD
  {
    Value(b[4 * i], b[4 * i + 1], b[4 * i + 2], b[4 * i + 3])
  }

  /** The lowest byte first. */
  function Bytes(v: nat): (r: seq<byte>)
    requires v < WORD_MOD
    ensures |r| == 4 && r[0] == v % 0x100
  {
    [v % 0x100, v / 0x100 % 0x100, v / 0x1_0000 % 0x100, v / 0x100_0000]
  }

  /** Storing the `i`-th uint32_t of a buffer. */
  function SetWord(b: seq<byte>, i: nat, v: nat): (r: seq<byte>)
    requires 4 * i + 4 <= |b| && v < WORD_MOD
    ensures |r| == |b|
  {
    Overlay(b, 4 * i, Bytes(v))
  }

  lemma BytesValue(v: nat)
    requires v < WORD_MOD
    ensures Value(Bytes(v)[0], Bytes(v)[1], Bytes(v)[2], Bytes(v)[3]) == v
  {
    assert v / 0x1_0000 == v / 0x100 / 0x100;
    assert v / 0x100_0000 == v / 0x1_0000 / 0x100;
  }

  lemma WordAfterSet(b: seq<byte>, i: nat, v: nat, j: nat)
    requires 4 * i + 4 <= |b| && 4 * j + 4 <= |b| && v < WORD_MOD
    ensures Word(SetWord(b, i, v), j) == if j == i then v else Word(b, j)
  {
    BytesValue(v);
  }

  /** A memory image of `words`. */
  function Image(words: seq<nat>): (r: seq<byte>)
    requires forall i :: 0 <= i < |words| ==> words[i] < WORD_MOD
    ensures |r| == 4 * |words|
  {
    if words == [] then [] else Image(words[..|words| - 1]) + Bytes(words[|words| - 1])
  }

  lemma {:induction false} ImageWord(words: seq<nat>, j: nat)
    requires (forall i :: 0 <= i < |words| ==> words[i] < WORD_MOD) && j < |words|
    ensures Word(Image(words), j) == words[j]
  {
    var n := |words| - 1;
    if j == n {
      BytesValue(words[n]);
    } else {
      ImageWord(words[..n], j);
    }
  }

  /** The words of a buffer. */
  function Words(b: seq<byte>, n: nat): (r: seq<nat>)
    requires 4 * n <= |b|
    ensures |r| == n && forall i :: 0 <= i < n ==> r[i] == Word(b, i)
  {
    seq(n, i requires 0 <= i < n => Word(b, i))
  }

  /** Reading a structure back from its memory image. */
  lemma WordsOfImage(words: seq<nat>)
    requires forall i :: 0 <= i < |words| ==> words[i] < WORD_MOD
    ensures Words(Image(words), |words|) == words
  {
    forall j | 0 <= j < |words| ensures Word(Image(words), j) == words[j] { ImageWord(words, j); }
  }

  /** A buffer of zeros. */
  function Zeros(n: nat): (r: seq<byte>)
    ensures |r| == n && forall i :: 0 <= i < n ==> r[i] == 0
  {
    seq(n, i => 0)
  }
}
