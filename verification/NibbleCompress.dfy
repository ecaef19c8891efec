/** IDISA_AVX2_Builder::mvmd_compress for 32-bit and 64-bit lanes: all lane numbers are packed into one word
    (eight 4-bit digits, 0x76543210), the wanted ones are extracted with one PEXT, and the resulting digits
    index the shuffle.  64-bit lanes are compressed as pairs of 32-bit lanes.

    The number of lanes n and the digit width w are parameters; the code has n = 8 and w = 4. */
module NibbleCompress {
  import opened IntArith
  import opened BitWords
  import opened BitNumbers
  import opened BitSelection
  import opened Selection
  import opened LaneAddition
  import opened LaneOps
  import opened LaneSelect

  // ------------------------------------------------------------------ repeating each mask bit

  /** Every w-th bit set: the constants 0x11111111 and 0x55. */
  function Comb(n: nat, w: nat): (r: Word)
    requires w > 0
    ensures |r| == n * w
  {
    seq(n * w, i requires 0 <= i => i % w == 0)
  }

  lemma {:induction false} CombAt(n: nat, w: nat, k: nat, b: nat)
    requires k < n && b < w
    ensures At(k, b, w) < n * w && Comb(n, w)[At(k, b, w)] == (b == 0)
  {
    AtSplits(k, b, w, n);
  }

  lemma {:induction false} RankComb(n: nat, w: nat, k: nat, b: nat)
    requires w > 0 && b <= w && (k < n || (k == n && b == 0))
    ensures At(k, b, w) <= n * w
    ensures Rank(Comb(n, w), At(k, b, w)) == if b > 0 then k + 1 else k
    decreases k, b
  {
    if b > 0 {
      RankComb(n, w, k, b - 1);
      CombAt(n, w, k, b - 1);
    } else if k > 0 {
      AtStep(k, w);
      RankComb(n, w, k - 1, w);
    }
  }

  /** PDEP of the mask by the comb. */
  function SpreadBits(mask: Word, w: nat): (r: Word)
    requires w > 0
    ensures |r| == |mask| * w
  {
    Pdep(ZExt(mask, |mask| * w), Comb(|mask|, w))
  }

  lemma {:induction false} SpreadBitsAt(mask: Word, w: nat, k: nat, b: nat)
    requires k < |mask| && b < w
    ensures At(k, b, w) < |mask| * w && SpreadBits(mask, w)[At(k, b, w)] == (b == 0 && mask[k])
  {
    CombAt(|mask|, w, k, b);
    if b == 0 {
      RankComb(|mask|, w, k, 0);
      RankBelowPop(Comb(|mask|, w), At(k, 0, w));
    }
  }

  /** Multiplication by a constant, in the width of the word. */
  function MulWord(v: Word, c: nat): (r: Word)
    ensures |r| == |v|
  {
    Digits((Val(v) * c) % Pow2(|v|), |v|)
  }

  lemma PowerStep(base: nat, q: nat)
    requires q > 0
    ensures base * (2 * q - 1) == base * (q - 1) + base * q
  {
  }

  lemma {:induction false} DupBlockValue(mask: Word, w: nat, k: nat, b: nat, base: nat)
    requires k < |mask| && b <= w && base == Pow2(At(k, 0, w))
    ensures At(k, b, w) <= |mask| * w && At(k, 0, w) <= |mask| * w
    ensures ValTo(Dup(mask, w), At(k, b, w))
         == ValTo(Dup(mask, w), At(k, 0, w)) + if mask[k] then base * (Pow2(b) - 1) else 0
    decreases b
  {
    AtFits(k, b, w, |mask|);
    if b > 0 {
      DupBlockValue(mask, w, k, b - 1, base);
      DupAt(mask, w, k, b - 1);
      Pow2Add(At(k, 0, w), b - 1);
      PowerStep(base, Pow2(b - 1));
    }
  }

  lemma {:induction false} SpreadBlockValue(mask: Word, w: nat, k: nat, b: nat)
    requires k < |mask| && 0 < b <= w
    ensures At(k, b, w) <= |mask| * w && At(k, 0, w) <= |mask| * w
    ensures ValTo(SpreadBits(mask, w), At(k, b, w))
         == ValTo(SpreadBits(mask, w), At(k, 0, w)) + if mask[k] then Pow2(At(k, 0, w)) else 0
    decreases b
  {
    AtFits(k, b, w, |mask|);
    SpreadBitsAt(mask, w, k, b - 1);
    if b > 1 {
      SpreadBlockValue(mask, w, k, b - 1);
    }
  }

  lemma {:induction false} SpreadTimesTo(mask: Word, w: nat, k: nat)
    requires w > 0 && k <= |mask|
    ensures At(k, 0, w) <= |mask| * w
    ensures ValTo(Dup(mask, w), At(k, 0, w)) == ValTo(SpreadBits(mask, w), At(k, 0, w)) * (Pow2(w) - 1)
  {
    AtMonotone(k, |mask|, w);
    if k > 0 {
      SpreadTimesTo(mask, w, k - 1);
      var base := Pow2(At(k - 1, 0, w));
      DupBlockValue(mask, w, k - 1, w, base);
      SpreadBlockValue(mask, w, k - 1, w);
      AtStep(k, w);
      Distribute(ValTo(SpreadBits(mask, w), At(k - 1, 0, w)), base, Pow2(w) - 1);
    }
  }

  lemma Distribute(a: nat, b: nat, c: nat)
    ensures (a + b) * c == a * c + b * c
  {
  }

  /** PDEP by the comb, then multiplication by 2^w - 1, repeats every mask bit w times. */
  lemma {:induction false} SpreadTimesIsDup(mask: Word, w: nat)
    requires w > 0
    ensures MulWord(SpreadBits(mask, w), Pow2(w) - 1) == Dup(mask, w)
  {
    SpreadTimesTo(mask, w, |mask|);
    var d := Dup(mask, w);
    ValToBound(d, |d|);
    SmallMod(Val(d), Pow2(|d|));
    DigitsOfValue(d);
  }

  // ------------------------------------------------------------------ compressing by packed lane numbers

  function LaneNumbers(n: nat, w: nat): (r: seq<Word>)
    ensures |r| == n && Pieces(r, w)
  {
    seq(n, k requires 0 <= k => Digits(k, w))
  }

  /** The numbers of the selected lanes, w bits each, zeros above. */
  function PackedIndexes(mask: Word, w: nat): (r: Word)
    requires w > 0
    ensures |r| == |mask| * w
  {
    Pext(Flat(LaneNumbers(|mask|, w), w), MulWord(SpreadBits(mask, w), Pow2(w) - 1))
  }

  lemma {:induction false} PackedIndexesAre(mask: Word, w: nat)
    requires w > 0
    ensures |Filter(Flat(LaneNumbers(|mask|, w), w), Dup(mask, w))| == Pop(mask) * w <= |mask| * w
    ensures PackedIndexes(mask, w)
         == Filter(Flat(LaneNumbers(|mask|, w), w), Dup(mask, w)) + Zeros(|mask| * w - Pop(mask) * w)
  {
    SpreadTimesIsDup(mask, w);
    PopDup(mask, w);
    MulMonotone(Pop(mask), |mask|, w);
  }

  lemma {:induction false} PackedIndexesAt(mask: Word, w: nat, k: nat, b: nat)
    requires k < |mask| && b < w
    ensures At(k, b, w) < |mask| * w
    ensures PackedIndexes(mask, w)[At(k, b, w)] == (k < Pop(mask) && NumBit(Select(mask, k), b))
  {
    AtSplits(k, b, w, |mask|);
    PackedIndexesAre(mask, w);
    if k < Pop(mask) {
      ExtractedDigit(mask, w, k, b);
      PopDup(mask, w);
    } else {
      MulMonotone(Pop(mask), k, w);
    }
  }

  lemma {:induction false} ExtractedDigit(mask: Word, w: nat, k: nat, b: nat)
    requires k < Pop(mask) && b < w
    ensures At(k, b, w) < Pop(Dup(mask, w))
    ensures Filter(Flat(LaneNumbers(|mask|, w), w), Dup(mask, w))[At(k, b, w)] == NumBit(Select(mask, k), b)
  {
    var nums := LaneNumbers(|mask|, w);
    FilterFlatAt(nums, mask, w, k, b);
    FilterAt(nums, mask, k);
  }

  /** Lane k of the shuffle control: digit k of the packed numbers. */
  function DigitLane(packed: Word, k: nat, w: nat): (r: Word)
    ensures |r| == |packed|
  {
    And(Shr(packed, k * w), seq(|packed|, j => j < w))
  }

  lemma {:induction false} DigitLaneValue(mask: Word, w: nat, k: nat)
    requires w > 0 && k < |mask| <= Pow2(w)
    ensures Val(DigitLane(PackedIndexes(mask, w), k, w)) == if k < Pop(mask) then Select(mask, k) else 0
  {
    var packed := PackedIndexes(mask, w);
    var lane := DigitLane(packed, k, w);
    var num := if k < Pop(mask) then Select(mask, k) else 0;
    MulMonotone(1, |mask|, w);
    forall j | 0 <= j < |packed|
      ensures lane[j] == LowDigits(num, w, |packed|)[j]
    {
      if j < w { DigitLaneBit(mask, w, k, j); }
    }
    assert lane == LowDigits(num, w, |packed|);
    LowDigitsValue(num, w, |packed|);
  }

  lemma {:induction false} DigitLaneBit(mask: Word, w: nat, k: nat, j: nat)
    requires j < w && k < |mask|
    ensures j < |mask| * w
    ensures DigitLane(PackedIndexes(mask, w), k, w)[j] == NumBit(if k < Pop(mask) then Select(mask, k) else 0, j)
  {
    MulMonotone(1, |mask|, w);
    PackedIndexesAt(mask, w, k, j);
    assert j + k * w == At(k, j, w);
    ZeroBit(j);
  }

  lemma {:induction false} ZeroBit(j: nat)
    ensures !NumBit(0, j)
  {
    ZeroDigits(j + 1, j + 1);
    assert LowDigits(0, j + 1, j + 1)[j] == Zeros(j + 1)[j];
  }

  /** (1 << count) - 1 has exactly the low count bits set. */
  lemma {:induction false} OnesBelow(width: nat, count: nat)
    requires count < width
    ensures var one := OneBit(width, 0, true);
            Sub(Shl(one, count), one) == seq(width, j => j < count)
  {
    var one := OneBit(width, 0, true);
    forall j | 0 <= j < width
      ensures Sub(Shl(one, count), one)[j] == (j < count)
    {
      BorrowBelow(width, count, j);
    }
  }

  lemma {:induction false} BorrowBelow(width: nat, count: nat, i: nat)
    requires i <= width
    ensures Borrow(Shl(OneBit(width, 0, true), count), OneBit(width, 0, true), i) == (0 < i <= count)
  {
    if i > 0 { BorrowBelow(width, count, i - 1); }
  }

  /** mvmd_compress for 32-bit lanes; a lane is as wide as the word of packed lane numbers. */
  method CompressByDigits(a: seq<Word>, mask: Word, w: nat) returns (r: seq<Word>)
    requires 1 < w && 0 < |a| == |mask| <= Pow2(w) && Lanes(a, |a| * w)
    ensures r == Compress(a, mask, |a| * w)
  {
    var n := |a|;
    var fw := n * w;
    var fieldCount := Pop(mask);
    var indexes := PackedIndexes(mask, w);
    var shuf := seq(n, k requires 0 <= k => DigitLane(indexes, k, w));
    var compress := Shuffle(a, shuf, fw);
    var one := OneBit(fw, 0, true);
    var fieldMask := Sub(Shl(one, fieldCount), one);
    MulMonotone(2, w, n);
    OnesBelow(fw, fieldCount);
    r := SimdAnd(compress, LaneMask(fieldMask[..n], fw), fw);
    forall k | 0 <= k < n
      ensures r[k] == Compress(a, mask, fw)[k]
    {
      DigitLaneValue(mask, w, k);
      CompressAt(a, mask, fw, k);
      ShuffleAt(a, shuf, fw, k, if k < fieldCount then Select(mask, k) else 0);
      KeepLane(compress[k], LaneMask(fieldMask[..n], fw)[k], k < fieldCount, fw);
    }
  }

  /** mvmd_compress for 64-bit lanes: PDEP by 0x55 and multiplication by 3 double the mask bits. */
  method CompressPairs(x: seq<seq<Word>>, mask: Word, w: nat) returns (r: seq<Word>)
    requires 1 < w && 0 < |x| == |mask| && |x| * 2 <= Pow2(w) && Pieces(x, 2)
    requires Lanes(Flat(x, 2), |x| * 2 * w)
    ensures r == Flat(CompressPieces(x, mask, 2, |x| * 2 * w), 2)
  {
    assert Pow2(2) == 4;
    SpreadTimesIsDup(mask, 2);
    var mask32 := MulWord(SpreadBits(mask, 2), 3);
    r := CompressByDigits(Flat(x, 2), mask32, w);
    CompressFlat(x, mask, 2, |x| * 2 * w);
  }
}
