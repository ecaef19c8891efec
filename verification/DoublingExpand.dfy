/** IDISA_AVX512F_Builder::mvmd_expand for lanes narrower than the expand instruction handles: split the mask,
    widen both halves of the data, expand the halves at twice the width, and pack the results. */
module DoublingExpand {
  import opened IntArith
  import opened BitWords
  import opened Selection
  import opened LaneAddition
  import opened LaneOps
  import opened LaneSelect

  // ------------------------------------------------------------------ moving lanes by a two-table shuffle

  /** Lookup in two tables side by side; indexes are reduced modulo twice the lane count. */
  function Shuffle2(t0: seq<Word>, t1: seq<Word>, index: seq<int>, fw: nat): (r: seq<Word>)
    requires Lanes(t0, fw) && Lanes(t1, fw) && |t0| == |t1| == |index|
    ensures |r| == |t0| && Lanes(r, fw)
  {
    seq(|t0|, i requires 0 <= i < |t0| => (t0 + t1)[index[i] % (2 * |t0|)])
  }

  /** AVX-512 mvmd_sll: lane i comes from place n + i - shift of zeros followed by a. */
  function SllByShuffle(a: seq<Word>, shift: nat, fw: nat): (r: seq<Word>)
    requires Lanes(a, fw)
    ensures |r| == |a| && Lanes(r, fw)
  {
    Shuffle2(ZeroLanes(|a|, fw), a, seq(|a|, i => |a| + i - shift), fw)
  }

  /** Up to a shift by the lane count, this moves the lanes up and brings in zeros. */
  lemma {:induction false} SllMovesUp(a: seq<Word>, shift: nat, fw: nat)
    requires Lanes(a, fw) && shift <= |a|
    ensures SllByShuffle(a, shift, fw) == LanesUp(a, shift, fw)
  {
    forall i | 0 <= i < |a|
      ensures SllByShuffle(a, shift, fw)[i] == LanesUp(a, shift, fw)[i]
    {
      SmallMod(|a| + i - shift, 2 * |a|);
    }
  }

  // ------------------------------------------------------------------ widening and packing

  /** esimd_mergel: the fields of the low halves in turn, read as lanes of twice the width. */
  function MergeLow(a: seq<Word>, b: seq<Word>): (r: seq<Word>)
    requires |a| == |b|
    ensures |r| == |a| / 2
  {
    seq(|a| / 2, i requires 0 <= i < |a| / 2 => a[i] + b[i])
  }

  function MergeHigh(a: seq<Word>, b: seq<Word>): (r: seq<Word>)
    requires |a| == |b|
    ensures |r| == |a| / 2
  {
    seq(|a| / 2, i requires 0 <= i < |a| / 2 => a[|a| / 2 + i] + b[|a| / 2 + i])
  }

  /** hsimd_packl: the low halves of all lanes of a, then of b. */
  function PackLow(a: seq<Word>, b: seq<Word>, fw: nat): (r: seq<Word>)
    requires Lanes(a, 2 * fw) && Lanes(b, 2 * fw)
    ensures |r| == |a| + |b| && Lanes(r, fw)
  {
    seq(|a|, i requires 0 <= i < |a| => Trunc(a[i], fw)) + seq(|b|, i requires 0 <= i < |b| => Trunc(b[i], fw))
  }

  /** The lane count can be halved until the lanes are wide enough for the instruction. */
  predicate Halvable(fw: nat, n: nat, native: nat)
    decreases native - fw
  {
    0 < fw && (fw >= native || (n % 2 == 0 && Halvable(2 * fw, n / 2, native)))
  }

  function ExpandByDoubling(a: seq<Word>, mask: Word, fw: nat, native: nat): (r: seq<Word>)
    requires |a| == |mask| && Lanes(a, fw) && Halvable(fw, |a|, native)
    ensures |r| == |a| && Lanes(r, fw)
    decreases native - fw
  {
    if fw >= native then
      ExpandLanes(a, mask, fw);
      Expand(a, mask, fw)
    else
      var half := |a| / 2;
      var hiMask, loMask := mask[half..], mask[..half];
      var loToHi := Pop(Not(loMask));
      var loVec := MergeLow(a, ZeroLanes(|a|, fw));
      var hiVec := MergeHigh(SllByShuffle(a, loToHi, fw), ZeroLanes(|a|, fw));
      var expandLo := ExpandByDoubling(loVec, loMask, 2 * fw, native);
      var expandHi := ExpandByDoubling(hiVec, hiMask, 2 * fw, native);
      PackLow(expandLo, expandHi, fw)
  }

  lemma {:induction false} ExpandLanes(a: seq<Word>, mask: Word, fw: nat)
    requires |a| == |mask| && Lanes(a, fw)
    ensures Lanes(Expand(a, mask, fw), fw)
  {
    forall p | 0 <= p < |a|
      ensures |Expand(a, mask, fw)[p]| == fw
    {
      if mask[p] { RankBelowPop(mask, p); }
    }
  }

  /** The low half: lane p of the widened, expanded and packed data. */
  lemma {:induction false} LowHalf(a: seq<Word>, mask: Word, fw: nat, p: nat)
    requires |a| == |mask| && |a| % 2 == 0 && Lanes(a, fw) && p < |a| / 2
    ensures var lo := mask[..|a| / 2];
            var wide := Expand(MergeLow(a, ZeroLanes(|a|, fw)), lo, 2 * fw);
            |wide[p]| == 2 * fw && Trunc(wide[p], fw) == Expand(a, mask, fw)[p]
  {
    var lo := mask[..|a| / 2];
    RankPrefix(mask, |lo|, p);
    if mask[p] {
      RankBelowPop(lo, p);
      RankBelowPop(mask, p);
    }
  }

  lemma {:induction false} HighSource(a: seq<Word>, lo: Word, fw: nat, j: nat)
    requires |a| == 2 * |lo| && Lanes(a, fw) && j < |lo|
    ensures Pop(lo) + j < |a|
    ensures MergeHigh(SllByShuffle(a, Pop(Not(lo)), fw), ZeroLanes(|a|, fw))[j] == a[Pop(lo) + j] + Zeros(fw)
  {
    RankNot(lo, |lo|);
    SllMovesUp(a, Pop(Not(lo)), fw);
  }

  /** The high half, whose first lane is taken from place Pop(lo) of the data. */
  lemma {:induction false} HighHalf(a: seq<Word>, mask: Word, fw: nat, j: nat)
    requires |a| == |mask| && |a| % 2 == 0 && Lanes(a, fw) && j < |a| / 2
    ensures var half := |a| / 2;
            var hiVec := MergeHigh(SllByShuffle(a, Pop(Not(mask[..half])), fw), ZeroLanes(|a|, fw));
            var wide := Expand(hiVec, mask[half..], 2 * fw);
            |wide[j]| == 2 * fw && Trunc(wide[j], fw) == Expand(a, mask, fw)[half + j]
  {
    var half := |a| / 2;
    var lo, hi := mask[..half], mask[half..];
    assert lo + hi == mask;
    RankConcat(lo, hi, j);
    if hi[j] {
      RankBelowPop(hi, j);
      HighSource(a, lo, fw, Rank(hi, j));
      RankBelowPop(mask, half + j);
    }
  }

  lemma WideLanes(a: seq<Word>, b: seq<Word>, fw: nat)
    requires |a| == |b| && Lanes(a, fw) && Lanes(b, fw)
    ensures Lanes(MergeLow(a, b), 2 * fw) && Lanes(MergeHigh(a, b), 2 * fw)
  {
  }

  /** Inductive doubling computes the expansion, whatever width the instruction starts at. */
  lemma {:induction false} DoublingIsExpand(a: seq<Word>, mask: Word, fw: nat, native: nat)
    requires |a| == |mask| && Lanes(a, fw) && Halvable(fw, |a|, native)
    ensures ExpandByDoubling(a, mask, fw, native) == Expand(a, mask, fw)
    decreases native - fw
  {
    if fw < native {
      var half := |a| / 2;
      var hiMask, loMask := mask[half..], mask[..half];
      var loVec := MergeLow(a, ZeroLanes(|a|, fw));
      var sll := SllByShuffle(a, Pop(Not(loMask)), fw);
      var hiVec := MergeHigh(sll, ZeroLanes(|a|, fw));
      WideLanes(a, ZeroLanes(|a|, fw), fw);
      WideLanes(sll, ZeroLanes(|a|, fw), fw);
      DoublingIsExpand(loVec, loMask, 2 * fw, native);
      DoublingIsExpand(hiVec, hiMask, 2 * fw, native);
      var r := ExpandByDoubling(a, mask, fw, native);
      forall p | 0 <= p < |a|
        ensures r[p] == Expand(a, mask, fw)[p]
      {
        if p < half {
          LowHalf(a, mask, fw, p);
        } else {
          HighHalf(a, mask, fw, p - half);
        }
      }
    }
  }
}
