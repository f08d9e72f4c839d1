/** The bitmap under every allocator of the kernel (lib/kernel/bitmap.c).

    `BitMap` keeps the bytes the way the C struct does; its abstract value is the
    sequence of bits `Bits()`. The functions on `seq<bool>` are the specification
    the page allocator, the slab allocator and the file system are built on. */
module Bitmap {

  type Byte = bv8

  predicate Bit(b: Byte, j: nat)
    requires j < 8
  {
    (b >> j) & 1 == 1
  }

  // ---------- Specification on sequences of bits ----------

  ghost predicate ClearRun(b: seq<bool>, l: nat, cnt: nat)
  {
    l + cnt <= |b| && forall k :: l <= k < l + cnt ==> !b[k]
  }

  /** The least start of a run of `cnt` clear bits at or after `from`; -1 if there is none. */
  function FirstFit(b: seq<bool>, cnt: nat, from: nat := 0): (r: int)
    ensures r == -1 || from <= r
    ensures r != -1 ==> ClearRun(b, r, cnt)
    ensures forall l: nat :: from <= l && (r == -1 || l < r) ==> !ClearRun(b, l, cnt)
    decreases |b| - from
  {
    if |b| < from + cnt then -1
    else if forall k :: from <= k < from + cnt ==> !b[k] then from
    else if from == |b| then -1
    else FirstFit(b, cnt, from + 1)
  }

  /** What BitMapAllocate answers. For a count of zero it looks at the first bit all the same. */
  function Found(b: seq<bool>, cnt: nat): (r: int)
    ensures r == -1 || 0 <= r <= |b| - cnt
  {
    if cnt > 0 then FirstFit(b, cnt) else if |b| == 0 then -1 else if b[0] then 1 else 0
  }

  /** It is the least start of a clear run except for a count of zero on a bitmap that is empty or
      starts with a set bit. */
  lemma FoundIsFirstFit(b: seq<bool>, cnt: nat)
    ensures Found(b, cnt) == FirstFit(b, cnt) <==> cnt > 0 || (|b| > 0 && !b[0])
  {
    assert ClearRun(b, 0, 0);
  }

  function SetRange(b: seq<bool>, l: nat, cnt: nat, v: bool): (r: seq<bool>)
    requires l + cnt <= |b|
    ensures |r| == |b|
    ensures forall k :: 0 <= k < |b| ==> r[k] == if l <= k < l + cnt then v else b[k]
  {
    seq(|b|, k requires 0 <= k < |b| => if l <= k < l + cnt then v else b[k])
  }

  /** `FirstFit` is determined by what it promises. */
  lemma FirstFitUnique(b: seq<bool>, cnt: nat, r: int)
    requires r == -1 || (0 <= r && ClearRun(b, r, cnt))
    requires forall l: nat :: (r == -1 || l < r) ==> !ClearRun(b, l, cnt)
    ensures r == FirstFit(b, cnt)
  {
    var f := FirstFit(b, cnt);
    if f != -1 { assert ClearRun(b, f, cnt); }
  }

  // ---------- Blocks of eight bits ----------

  /** A byte whose top bit is clear is clear altogether. The bitmap partition_format builds has
      this shape, and allocating and freeing whole blocks keeps it. */
  ghost predicate TopBitRules(b: seq<bool>)
  {
    |b| % 8 == 0 &&
    forall k :: 0 <= k < |b| && !b[k / 8 * 8 + 7] ==> !b[k]
  }

  /** Eight sectors are always found on a byte boundary. */
  lemma BlocksAreAligned(b: seq<bool>)
    requires TopBitRules(b)
    ensures FirstFit(b, 8) == -1 || FirstFit(b, 8) % 8 == 0
  {
    var r := FirstFit(b, 8);
    if r != -1 {
      var q := r / 8;
      assert !b[8 * q + 7];
      assert forall k :: 8 * q <= k < 8 * q + 8 ==> k / 8 * 8 + 7 == 8 * q + 7;
      assert ClearRun(b, 8 * q, 8);
    }
  }

  lemma BlockUpdateKeepsShape(b: seq<bool>, idx: nat, v: bool)
    requires TopBitRules(b) && idx % 8 == 0 && idx + 8 <= |b|
    ensures TopBitRules(SetRange(b, idx, 8, v))
  {
    var r := SetRange(b, idx, 8, v);
    forall k | 0 <= k < |r| && !r[k / 8 * 8 + 7]
      ensures !r[k]
    {
      if k / 8 * 8 != idx { assert !b[k / 8 * 8 + 7]; }
    }
  }

  // ---------- The bitmap itself ----------

  lemma SetBit(b: Byte, j: nat, k: nat)
    requires j < 8 && k < 8
    ensures Bit(b | (1 << j), k) == (k == j || Bit(b, k))
  {}

  lemma ResetBit(b: Byte, j: nat, k: nat)
    requires j < 8 && k < 8
    ensures Bit(b & !(1 << j), k) == (k != j && Bit(b, k))
  {}

  class BitMap {
    const bits: array<Byte>

    ghost function Bits(): (s: seq<bool>)
      reads bits
      ensures |s| == 8 * bits.Length
    {
      seq(8 * bits.Length, i requires 0 <= i < 8 * bits.Length reads bits => Bit(bits[i / 8], i % 8))
    }

    constructor (len: nat)
      ensures fresh(bits) && bits.Length == len
      ensures Bits() == seq(8 * len, i => false)
    {
      bits := new Byte[len](i => 0);
    }

    method Set(idx: nat)
      requires idx / 8 < bits.Length
      modifies bits
      ensures Bits() == old(Bits())[idx := true]
    {
      hide Bit;
      var i, j := idx / 8, idx % 8;
      bits[i] := bits[i] | (1 << j);
      forall k | 0 <= k < 8 * bits.Length
        ensures Bits()[k] == old(Bits())[idx := true][k]
      {
        if k / 8 == i { SetBit(old(bits[i]), j, k % 8); }
      }
    }

    method Reset(idx: nat)
      requires idx / 8 < bits.Length
      modifies bits
      ensures Bits() == old(Bits())[idx := false]
    {
      hide Bit;
      var i, j := idx / 8, idx % 8;
      bits[i] := bits[i] & !(1 << j);
      forall k | 0 <= k < 8 * bits.Length
        ensures Bits()[k] == old(Bits())[idx := false][k]
      {
        if k / 8 == i { ResetBit(old(bits[i]), j, k % 8); }
      }
    }

    method Test(idx: nat) returns (isSet: bool)
      requires idx / 8 < bits.Length
      ensures isSet == Bits()[idx]
    {
      isSet := (bits[idx / 8] >> (idx % 8)) & 1 == 1;
    }

    /** The sliding window: `l` is just past the last set bit seen, `r` the bit under inspection. */
    method Allocate(cnt: nat) returns (target: int)
      ensures target == Found(Bits(), cnt)
    {
      hide Bit;
      target := -1;
      var i, l, r := 0, 0, 0;
      while i < bits.Length
        invariant 0 <= i <= bits.Length && r == 8 * i && 0 <= l <= r
        invariant target == -1 && Window(l, r, cnt)
        invariant cnt == 0 ==> i == 0
      {
        var cur := bits[i];
        var j := 0;
        while j < 8
          invariant 0 <= j <= 8 && r == 8 * i + j && 0 <= l <= r
          invariant target == -1 && Window(l, r, cnt)
          invariant cnt == 0 ==> i == j == 0
          invariant cur == bits[i]
        {
          if Bit(cur, j) { l := r + 1; }
          assert Bits()[r] == Bit(cur, j);
          if r - l + 1 >= cnt {
            target := l;
            break;
          }
          j := j + 1;
          r := r + 1;
        }
        if target != -1 {
          if cnt > 0 { FirstFitUnique(Bits(), cnt, target); }
          return;
        }
        i := i + 1;
      }
      if cnt > 0 { FirstFitUnique(Bits(), cnt, -1); }
    }

    /** Bits l..r are clear, no run of `cnt` clear bits ends before `r`, and none starts before
        `l` and reaches `r`. */
    ghost predicate Window(l: nat, r: nat, cnt: nat)
      reads bits
    {
      l <= r <= |Bits()| &&
      (forall k :: l <= k < r ==> !Bits()[k]) &&
      (0 < l ==> Bits()[l - 1]) &&
      (cnt > 0 ==> r - l < cnt) &&
      forall s: nat :: s + cnt <= r && cnt > 0 ==> !ClearRun(Bits(), s, cnt)
    }
  }
}
