/** IDISA_ARM_Builder and IDISA_ARM_SVE2_Builder: mvmd_expand by gathering at ranks, which are partial sums of the mask,
    and mvmd_compress by COMPACT.  The forms by permutation tables are in ArmTables.

    Data lanes are bytes, `Word`s of width `bw`; index lanes are numbers below the byte modulus m.  The code has
    16 lanes, bw = 8 and m = 256. */
module ArmCompressExpand {
  import opened IntArith
  import opened BitWords
  import opened BitNumbers
  import opened Selection
  import opened LaneAddition
  import opened LaneOps
  import opened LaneSelect

  /** TBL: out-of-range indexes give zero lanes. */
  function Tbl1(table: seq<Word>, index: seq<nat>, bw: nat): (r: seq<Word>)
    requires Lanes(table, bw)
    ensures |r| == |index| && Lanes(r, bw)
  {
    seq(|index|, i requires 0 <= i < |index| => if index[i] < |table| then table[index[i]] else Zeros(bw))
  }

  // ------------------------------------------------------------------ running totals

  function SumTo(a: seq<nat>, n: nat): (r: nat)
    requires n <= |a|
  {
    if n == 0 then 0 else SumTo(a, n - 1) + a[n - 1]
  }

  /** The sum of the `move` lanes that end at lane i. */
  function WindowSum(a: seq<nat>, i: nat, move: nat): (r: int)
    requires i < |a|
  {
    SumTo(a, i + 1) - if i + 1 >= move then SumTo(a, i + 1 - move) else 0
  }

  function DoubleWindows(ps: seq<nat>, move: nat, m: nat): (r: seq<nat>)
    requires m > 0
    ensures |r| == |ps|
  {
    seq(|ps|, i requires 0 <= i < |ps| => (ps[i] + if i >= move then ps[i - move] else 0) % m)
  }

  ghost predicate Windows(a: seq<nat>, ps: seq<nat>, move: nat, m: nat)
    requires m > 0
  {
    |ps| == |a| && forall i :: 0 <= i < |a| ==> ps[i] == WindowSum(a, i, move) % m
  }

  lemma WindowDoubles(a: seq<nat>, i: nat, move: nat)
    requires i < |a| && move > 0
    ensures WindowSum(a, i, 2 * move) == WindowSum(a, i, move) + if i >= move then WindowSum(a, i - move, move) else 0
  {
  }

  lemma {:induction false} DoubleWindowsStep(a: seq<nat>, ps: seq<nat>, move: nat, m: nat)
    requires m > 0 && move > 0 && Windows(a, ps, move, m)
    ensures Windows(a, DoubleWindows(ps, move, m), 2 * move, m)
  {
    forall i | 0 <= i < |a|
      ensures DoubleWindows(ps, move, m)[i] == WindowSum(a, i, 2 * move) % m
    {
      WindowDoubles(a, i, move);
      if i >= move {
        ModAdd(WindowSum(a, i, move), WindowSum(a, i - move, move), m);
      } else {
        SmallMod(0, m);
        ModAdd(WindowSum(a, i, move), 0, m);
      }
    }
  }

  /** hsimd_partial_sum: log-many shifted additions give every lane the total of the lanes up to it. */
  method PartialSum(a: seq<nat>, m: nat) returns (ps: seq<nat>)
    requires m > 0 && forall i :: 0 <= i < |a| ==> a[i] < m
    ensures |ps| == |a| && forall i :: 0 <= i < |a| ==> ps[i] == SumTo(a, i + 1) % m
  {
    ps := a;
    forall i | 0 <= i < |a|
      ensures ps[i] == WindowSum(a, i, 1) % m
    {
      SmallMod(a[i], m);
    }
    var move := 1;
    while move < |a|
      invariant move > 0 && Windows(a, ps, move, m)
    {
      DoubleWindowsStep(a, ps, move, m);
      ps := DoubleWindows(ps, move, m);
      move := move * 2;
    }
  }

  lemma {:induction false} SumOfBits(mask: Word, ones: seq<nat>, n: nat)
    requires |ones| == |mask| && n <= |mask| && forall i :: 0 <= i < |mask| ==> ones[i] == Bit(mask[i])
    ensures SumTo(ones, n) == Rank(mask, n)
  {
    if n > 0 { SumOfBits(mask, ones, n - 1); }
  }

  // ------------------------------------------------------------------ masks spread over bytes

  /** byteMaskToLaneMask: lane i tests bit i mod 8 of mask byte i / 8. */
  function ByteMaskToLaneMask(mask: Word): (r: Word)
    requires |mask| % 8 == 0
    ensures |r| == |mask|
  {
    seq(|mask|, i requires 0 <= i < |mask| =>
      And(mask[i / 8 * 8..i / 8 * 8 + 8], OneBit(8, i % 8, true)) != Zeros(8))
  }

  lemma {:induction false} LaneMaskIsMask(mask: Word)
    requires |mask| % 8 == 0
    ensures ByteMaskToLaneMask(mask) == mask
  {
    forall i | 0 <= i < |mask|
      ensures ByteMaskToLaneMask(mask)[i] == mask[i]
    {
      BitTest(mask[i / 8 * 8..i / 8 * 8 + 8], i % 8);
    }
  }

  lemma {:induction false} BitTest(x: Word, k: nat)
    requires k < |x|
    ensures (And(x, OneBit(|x|, k, true)) != Zeros(|x|)) == x[k]
  {
    var t := And(x, OneBit(|x|, k, true));
    assert t[k] == x[k];
    if !x[k] { assert t == Zeros(|x|); }
  }

  /** expandFieldMaskToBytes: byte i tests bit i / c of the field mask. */
  function ExpandFieldMaskToBytes(mask: Word, c: nat): (r: Word)
    ensures |r| == |mask| * c
  {
    seq(|mask| * c, i requires 0 <= i < |mask| * c =>
      SplitIsAt(i, c, |mask|); And(mask, OneBit(|mask|, i / c, true)) != Zeros(|mask|))
  }

  lemma {:induction false} FieldMaskIsDup(mask: Word, c: nat)
    ensures ExpandFieldMaskToBytes(mask, c) == Dup(mask, c)
  {
    forall i | 0 <= i < |mask| * c
      ensures ExpandFieldMaskToBytes(mask, c)[i] == Dup(mask, c)[i]
    {
      SplitIsAt(i, c, |mask|);
      BitTest(mask, i / c);
    }
  }

  // ------------------------------------------------------------------ expanding at ranks

  /** The rank of every lane: running total of the selected lanes, minus the lane itself. */
  method Ranks(mask: Word, m: nat) returns (rank: seq<nat>)
    requires |mask| < m
    ensures |rank| == |mask| && forall i :: 0 <= i < |mask| ==> rank[i] == Rank(mask, i)
  {
    var ones := seq(|mask|, i requires 0 <= i < |mask| => Bit(mask[i]));
    SmallOnes(mask, ones, m);
    var inclusive := PartialSum(ones, m);
    rank := seq(|mask|, i requires 0 <= i < |mask| => (inclusive[i] - ones[i]) % m);
    forall i | 0 <= i < |mask|
      ensures rank[i] == Rank(mask, i)
    {
      SumOfBits(mask, ones, i + 1);
      SmallMod(Rank(mask, i + 1), m);
      SmallMod(Rank(mask, i), m);
    }
  }

  lemma SmallOnes(mask: Word, ones: seq<nat>, m: nat)
    requires |mask| < m && |ones| == |mask| && forall i :: 0 <= i < |mask| ==> ones[i] == Bit(mask[i])
    ensures forall i :: 0 <= i < |ones| ==> ones[i] < m
  {
  }

  /** NEON expandBytes: unselected lanes gather from an index out of range. */
  method ExpandBytes(a: seq<Word>, byteMask: Word, bw: nat, m: nat) returns (r: seq<Word>)
    requires |a| == |byteMask| < m && |a| % 8 == 0 && Lanes(a, bw)
    ensures r == Expand(a, byteMask, bw)
  {
    var isSelected := ByteMaskToLaneMask(byteMask);
    LaneMaskIsMask(byteMask);
    var rank := Ranks(isSelected, m);
    var outOfRange := |a|;
    var gatherIdx := seq(|a|, i requires 0 <= i < |a| => if isSelected[i] then rank[i] else outOfRange);
    r := Tbl1(a, gatherIdx, bw);
    forall i | 0 <= i < |a|
      ensures r[i] == Expand(a, byteMask, bw)[i]
    {
      if byteMask[i] { RankBelowPop(byteMask, i); }
    }
  }

  /** SVE2 mvmd_expand: unselected lanes gather lane 0 and are then masked out.  A field is c bytes. */
  method ExpandSve2(a: seq<Word>, fieldMask: Word, c: nat, bw: nat, m: nat) returns (r: seq<Word>)
    requires |a| == |fieldMask| * c < m && |a| % 8 == 0 && Lanes(a, bw)
    ensures r == Expand(a, Dup(fieldMask, c), bw)
  {
    var maskBits := ExpandFieldMaskToBytes(fieldMask, c);
    FieldMaskIsDup(fieldMask, c);
    var isSelected := ByteMaskToLaneMask(maskBits);
    LaneMaskIsMask(maskBits);
    var rank := Ranks(isSelected, m);
    var gatherIdx := seq(|a|, i requires 0 <= i < |a| => if isSelected[i] then rank[i] else 0);
    var gathered := Tbl1(a, gatherIdx, bw);
    r := SimdAnd(gathered, LaneMask(isSelected, bw), bw);
    forall i | 0 <= i < |a|
      ensures r[i] == Expand(a, maskBits, bw)[i]
    {
      if maskBits[i] { RankBelowPop(maskBits, i); }
      KeepLane(gathered[i], LaneMask(isSelected, bw)[i], maskBits[i], bw);
    }
  }

  /** SVE2 mvmd_compress: the scalable register is longer than the data; its further lanes hold arbitrary
      values, but their predicate is false, so they do not disturb the first lanes of COMPACT. */
  lemma {:induction false} CompactIgnoresInactive(a: seq<Word>, mask: Word, rest: seq<Word>, bw: nat)
    requires |a| == |mask|
    ensures Compress(a + rest, mask + Zeros(|rest|), bw)[..|a|] == Compress(a, mask, bw)
  {
    FilterConcat(a, mask, rest, Zeros(|rest|));
    FilterNone(rest, Zeros(|rest|));
  }
}
