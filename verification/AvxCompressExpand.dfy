/** IDISA_AVX2_Builder and IDISA_AVX512F_Builder: mvmd_compress and mvmd_expand through index bit-planes.  PEXT or PDEP
    of each plane of the lane numbers gives one plane of the wanted lane numbers, and a shuffle gathers the lanes.  The
    forms by digits and by doubling are in NibbleCompress and DoublingExpand. */
module AvxCompressExpand {
  import opened IntArith
  import opened BitWords
  import opened BitNumbers
  import opened BitSelection
  import opened Selection
  import opened LaneAddition
  import opened LaneOps
  import opened LaneSelect

  // ------------------------------------------------------------------ index bit-planes

  /** Plane i of the lane numbers: bit k is digit i of k. */
  function IndexPlane(i: nat, n: nat): (r: Word)
    ensures |r| == n
  {
    seq(n, k requires 0 <= k => NumBit(k, i))
  }

  /** The hexadecimal digits, lowest first, of the six 64-bit plane constants. */
  function PlaneConstant(i: nat): (r: seq<nat>)
    requires i < 6
    ensures |r| == 16 && forall d :: 0 <= d < 16 ==> r[d] < 16
  {
    if i == 0 then seq(16, _ => 0xA)
    else if i == 1 then seq(16, _ => 0xC)
    else if i == 2 then [0x0, 0xF, 0x0, 0xF, 0x0, 0xF, 0x0, 0xF, 0x0, 0xF, 0x0, 0xF, 0x0, 0xF, 0x0, 0xF]
    else if i == 3 then [0x0, 0x0, 0xF, 0xF, 0x0, 0x0, 0xF, 0xF, 0x0, 0x0, 0xF, 0xF, 0x0, 0x0, 0xF, 0xF]
    else if i == 4 then [0x0, 0x0, 0x0, 0x0, 0xF, 0xF, 0xF, 0xF, 0x0, 0x0, 0x0, 0x0, 0xF, 0xF, 0xF, 0xF]
    else [0x0, 0x0, 0x0, 0x0, 0x0, 0x0, 0x0, 0x0, 0xF, 0xF, 0xF, 0xF, 0xF, 0xF, 0xF, 0xF]
  }

  lemma {:induction false} DigitIsPlane(i: nat, d: nat)
    requires 2 <= i < 6 && d < 16
    ensures PlaneConstant(i)[d] == if NumBit(d, i - 2) then 0xF else 0x0
  {
    assert Pow2(0) == 1 && Pow2(1) == 2 && Pow2(2) == 4 && Pow2(3) == 8;
    if i == 2 {
    } else if i == 3 {
    } else if i == 4 {
    } else {
    }
  }

  lemma {:induction false} HighDigits(k: nat, i: nat)
    requires i >= 2
    ensures NumBit(k, i) == NumBit(k / 4, i - 2)
    decreases i
  {
    var p := Pow2(i - 2);
    assert Pow2(i) == 4 * p;
    DivTwice(k, 4, p);
  }

  lemma {:induction false} DivTwice(k: nat, a: nat, b: nat)
    requires a > 0 && b > 0
    ensures a * b > 0 && k / (a * b) == k / a / b
  {
    var q := k / a;
    var h, r := q / b, q % b;
    assert k == q * a + k % a && q == h * b + r;
    assert q * a == h * (a * b) + r * a;
    MulMonotone(r + 1, b, a);
    assert (r + 1) * a == r * a + a;
    DivIs(k, a * b, h, r * a + k % a);
  }

  lemma {:induction false} LowDigitIsPlane(i: nat, k: nat)
    requires i < 2 && k < 64
    ensures NumBit(PlaneConstant(i)[k / 4], k % 4) == NumBit(k, i)
  {
    var b := k % 4;
    assert Pow2(0) == 1 && Pow2(1) == 2 && Pow2(2) == 4 && Pow2(3) == 8;
    if b == 0 {
    } else if b == 1 {
    } else if b == 2 {
    } else {
    }
  }

  lemma {:induction false} HexDigitBits(b: nat)
    requires b < 4
    ensures NumBit(0xF, b) && !NumBit(0, b)
  {
    assert Pow2(0) == 1 && Pow2(1) == 2 && Pow2(2) == 4 && Pow2(3) == 8;
    assert b == 0 || b == 1 || b == 2 || b == 3;
  }

  /** The constants are the planes of the numbers below 64. */
  lemma {:induction false} PlaneConstantIsPlane(i: nat, k: nat)
    requires i < 6 && k < 64
    ensures NumBit(PlaneConstant(i)[k / 4], k % 4) == IndexPlane(i, 64)[k]
  {
    if i < 2 {
      LowDigitIsPlane(i, k);
    } else {
      DigitIsPlane(i, k / 4);
      HighDigits(k, i);
      HexDigitBits(k % 4);
    }
  }

  /** The lane number that the gathered planes spell out for lane p. */
  function PlaneIndex(mask: Word, expand: bool, p: nat): (r: nat)
    requires p < |mask|
    ensures r < |mask|
  {
    if expand then
      if mask[p] then RankBelowPop(mask, p); Rank(mask, p) else 0
    else if p < Pop(mask) then Select(mask, p) else 0
  }

  lemma {:induction false} ExtractedPlane(mask: Word, i: nat, p: nat)
    requires p < |mask|
    ensures Pext(IndexPlane(i, |mask|), mask)[p] == NumBit(if p < Pop(mask) then Select(mask, p) else 0, i)
  {
    if p < Pop(mask) {
      FilterAt(IndexPlane(i, |mask|), mask, p);
    } else {
      ZeroDigits(i + 1, i + 1);
      assert LowDigits(0, i + 1, i + 1)[i] == Zeros(i + 1)[i];
    }
  }

  /** PEXT or PDEP of a plane by the mask is that plane of the lane numbers. */
  lemma {:induction false} GatheredPlane(mask: Word, expand: bool, i: nat, p: nat)
    requires p < |mask|
    ensures var plane := IndexPlane(i, |mask|);
            (if expand then Pdep(plane, mask) else Pext(plane, mask))[p] == NumBit(PlaneIndex(mask, expand, p), i)
  {
    if expand {
      if mask[p] { RankBelowPop(mask, p); }
    } else {
      ExtractedPlane(mask, i, p);
    }
  }

  /** The index register with planes below i in place. */
  ghost predicate HasPlanes(permute: seq<Word>, mask: Word, expand: bool, i: nat, fw: nat) {
    && |permute| == |mask|
    && forall p :: 0 <= p < |mask| ==> permute[p] == LowDigits(PlaneIndex(mask, expand, p), i, fw)
  }

  lemma {:induction false} AddPlane(permute: seq<Word>, spread: seq<Word>, mask: Word, expand: bool, i: nat, fw: nat)
    requires i < fw && HasPlanes(permute, mask, expand, i, fw) && |spread| == |mask|
    requires forall p :: 0 <= p < |mask| ==> spread[p] == OneBit(fw, 0, NumBit(PlaneIndex(mask, expand, p), i))
    ensures Lanes(permute, fw) && Lanes(spread, fw)
    ensures HasPlanes(SimdOr(permute, SimdShl(spread, i, fw), fw), mask, expand, i + 1, fw)
  {
    var r := SimdOr(permute, SimdShl(spread, i, fw), fw);
    forall p | 0 <= p < |mask|
      ensures r[p] == LowDigits(PlaneIndex(mask, expand, p), i + 1, fw)
    {
      var k := PlaneIndex(mask, expand, p);
      forall j | 0 <= j < fw
        ensures r[p][j] == LowDigits(k, i + 1, fw)[j]
      {
        assert Shl(spread[p], i)[j] == (j == i && NumBit(k, i));
      }
    }
  }

  /** The loop over the planes.  Each gathered plane is spread to bit 0 of its lanes, shifted by its number
      (which stays inside the lane) and merged into the index register. */
  method GatherPlanes(mask: Word, expand: bool, m: nat, fw: nat) returns (permute: seq<Word>)
    requires |mask| == Pow2(m) && 0 < m <= fw
    ensures |permute| == |mask| && Lanes(permute, fw)
    ensures forall p :: 0 <= p < |mask| ==> Val(permute[p]) == PlaneIndex(mask, expand, p)
  {
    var n := |mask|;
    permute := [];
    for i := 0 to m
      invariant i > 0 ==> HasPlanes(permute, mask, expand, i, fw)
    {
      var plane := IndexPlane(i, n);
      var expanded := if expand then Pdep(plane, mask) else Pext(plane, mask);
      var byteExpanded := BitSpread(expanded, n, fw);
      forall p | 0 <= p < n
        ensures byteExpanded[p] == OneBit(fw, 0, NumBit(PlaneIndex(mask, expand, p), i))
      {
        GatheredPlane(mask, expand, i, p);
      }
      if i == 0 {
        permute := byteExpanded;
        FirstPlane(permute, mask, expand, fw);
      } else {
        AddPlane(permute, byteExpanded, mask, expand, i, fw);
        permute := SimdOr(permute, SimdShl(byteExpanded, i, fw), fw);
      }
    }
    forall p | 0 <= p < n
      ensures Val(permute[p]) == PlaneIndex(mask, expand, p)
    {
      LowDigitsValue(PlaneIndex(mask, expand, p), m, fw);
    }
  }

  lemma FirstPlane(permute: seq<Word>, mask: Word, expand: bool, fw: nat)
    requires fw > 0 && |permute| == |mask|
    requires forall p :: 0 <= p < |mask| ==> permute[p] == OneBit(fw, 0, NumBit(PlaneIndex(mask, expand, p), 0))
    ensures HasPlanes(permute, mask, expand, 1, fw)
  {
  }

  /** AVX2 mvmd_compress by index planes.  Shifting all lanes out of a register has no defined result, so
      that result is an arbitrary value, `poison`; the code replaces it when every lane is selected. */
  method CompressByPlanes(a: seq<Word>, mask: Word, m: nat, fw: nat, poison: seq<Word>) returns (r: seq<Word>)
    requires |a| == |mask| == |poison| == Pow2(m) && 0 < m <= fw && Lanes(a, fw) && Lanes(poison, fw)
    ensures r == Compress(a, mask, fw)
  {
    var n := |a|;
    var permute := GatherPlanes(mask, false, m, fw);
    var shuffled := Shuffle(a, permute, fw);
    var count := Pop(mask);
    var sll := if count < n then LanesUp(OnesLanes(n, fw), count, fw) else poison;
    var keep := SimdNot(sll, fw);
    keep := if count != n then keep else OnesLanes(n, fw);
    r := SimdAnd(shuffled, keep, fw);
    KeepBelow(count, n, fw, keep);
    forall k | 0 <= k < n
      ensures r[k] == Compress(a, mask, fw)[k]
    {
      CompressLane(a, mask, permute, keep, fw, k);
    }
  }

  lemma KeepBelow(count: nat, n: nat, fw: nat, keep: seq<Word>)
    requires count <= n == |keep| && Lanes(keep, fw)
    requires keep == if count != n then SimdNot(LanesUp(OnesLanes(n, fw), count, fw), fw) else OnesLanes(n, fw)
    ensures forall k, j :: 0 <= k < n && 0 <= j < fw ==> keep[k][j] == (k < count)
  {
  }

  lemma {:induction false} CompressLane(a: seq<Word>, mask: Word, permute: seq<Word>, keep: seq<Word>, fw: nat, k: nat)
    requires k < |a| == |mask| == |permute| == |keep| && Lanes(a, fw) && Lanes(keep, fw)
    requires Val(permute[k]) == PlaneIndex(mask, false, k)
    requires forall j :: 0 <= j < fw ==> keep[k][j] == (k < Pop(mask))
    ensures SimdAnd(Shuffle(a, permute, fw), keep, fw)[k] == Compress(a, mask, fw)[k]
  {
    CompressAt(a, mask, fw, k);
    ShuffleAt(a, permute, fw, k, PlaneIndex(mask, false, k));
    KeepLane(Shuffle(a, permute, fw)[k], keep[k], k < Pop(mask), fw);
  }

  /** AVX2 mvmd_expand by index planes. */
  method ExpandByPlanes(a: seq<Word>, mask: Word, m: nat, fw: nat) returns (r: seq<Word>)
    requires |a| == |mask| == Pow2(m) && 0 < m <= fw && Lanes(a, fw)
    ensures r == Expand(a, mask, fw)
  {
    var n := |a|;
    var permute := GatherPlanes(mask, true, m, fw);
    var shuffled := Shuffle(a, permute, fw);
    var keep := SimdAny(BitSpread(mask, n, fw), fw);
    r := SimdAnd(shuffled, keep, fw);
    SelectedLanes(mask, fw);
    forall p | 0 <= p < n
      ensures r[p] == Expand(a, mask, fw)[p]
    {
      ExpandLane(a, mask, permute, fw, p);
    }
  }

  lemma {:induction false} ExpandLane(a: seq<Word>, mask: Word, permute: seq<Word>, fw: nat, p: nat)
    requires p < |a| == |mask| == |permute| && Lanes(a, fw)
    requires Val(permute[p]) == PlaneIndex(mask, true, p)
    ensures SimdAnd(Shuffle(a, permute, fw), LaneMask(mask, fw), fw)[p] == Expand(a, mask, fw)[p]
  {
    ShuffleAt(a, permute, fw, p, PlaneIndex(mask, true, p));
    KeepLane(Shuffle(a, permute, fw)[p], LaneMask(mask, fw)[p], mask[p], fw);
  }
}
