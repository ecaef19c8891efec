/** MergeKernel and Split2Kernel: interleaving two sample streams field by field, and taking them apart again.

    A stream is a sequence of blocks, a block a sequence of packs, a pack a word of n fields of fw bits; n is even.
    Splitting packs fields of twice the width, so it relies on hsimd_packl and hsimd_packh. */
module MergeSplit {
  import opened IntArith
  import opened BitWords
  import opened PackHalves

  // ------------------------------------------------------------------ merging

  /** esimd_mergel and esimd_mergeh: bit j of the result is in field j / fw, which comes from a when its number is
      even and from b when it is odd; `from` is the first field taken. */
  function Merge(a: Word, b: Word, fw: nat, n: nat, from: nat): (r: Word)
    requires fw > 0 && |a| == |b| == 2 * (fw * n) && from <= n
    ensures |r| == |a|
  {
    seq(|a|, j requires 0 <= j < |a| =>
      MergeSource(j, fw, n, from);
      if (j / fw) % 2 == 0 then a[(from + j / fw / 2) * fw + j % fw] else b[(from + j / fw / 2) * fw + j % fw])
  }

  lemma {:induction false} MergeSource(j: nat, fw: nat, n: nat, from: nat)
    requires fw > 0 && j < 2 * (fw * n) && from <= n
    ensures (from + j / fw / 2) * fw + j % fw < 2 * (fw * n)
  {
    var f, e := j / fw, j % fw;
    assert j == f * fw + e;
    assert (2 * n) * fw == 2 * (fw * n);
    if f >= 2 * n { MulMonotone(2 * n, f, fw); }
    var g := from + f / 2;
    MulMonotone(g + 1, 2 * n, fw);
    assert (g + 1) * fw == g * fw + fw;
  }

  /** Bit e of field f of a merged word. */
  lemma {:induction false} MergeAt(a: Word, b: Word, fw: nat, n: nat, from: nat, f: nat, e: nat, j: nat)
    requires fw > 0 && |a| == |b| == 2 * (fw * n) && from <= n && e < fw && j == f * fw + e < |a|
    ensures (from + f / 2) * fw + e < |a|
    ensures Merge(a, b, fw, n, from)[j] == (if f % 2 == 0 then a else b)[(from + f / 2) * fw + e]
  {
    ModUnique(j, fw, f, e);
    MergeSource(j, fw, n, from);
  }

  lemma {:induction false} SourceFields(j: nat, h: nat, c: nat)
    requires h > 0 && j < h * c
    ensures j == (j / h) * h + j % h && Source(j, h) == (2 * (j / h)) * h + j % h
    ensures h + Source(j, h) == (2 * (j / h) + 1) * h + j % h
    ensures (c + j / h) * h + j % h == h * c + j
  {
    var q := j / h;
    assert j == q * h + j % h;
    assert q * (2 * h) == (2 * q) * h && (2 * q + 1) * h == (2 * q) * h + h && (c + q) * h == h * c + q * h;
  }

  /** Bit j of the packed halves of the merged words is bit j of the merged operand. */
  lemma {:induction false} SplitMergeLow(a: Word, b: Word, fw: nat, n: nat)
    requires fw > 0 && |a| == |b| == 2 * (fw * n)
    ensures PackedLow(Merge(a, b, fw, n, 0), Merge(a, b, fw, n, n), fw, n) == a
  {
    var lo, hi := Merge(a, b, fw, n, 0), Merge(a, b, fw, n, n);
    forall j | 0 <= j < |a|
      ensures PackedLow(lo, hi, fw, n)[j] == a[j]
    {
      var i := if j < fw * n then j else j - fw * n;
      SourceFields(i, fw, n);
      SourceInField(i, fw, n);
      MergeAt(a, b, fw, n, if j < fw * n then 0 else n, 2 * (i / fw), i % fw, Source(i, fw));
    }
  }

  lemma {:induction false} SplitMergeHigh(a: Word, b: Word, fw: nat, n: nat)
    requires fw > 0 && |a| == |b| == 2 * (fw * n)
    ensures PackedHigh(Merge(a, b, fw, n, 0), Merge(a, b, fw, n, n), fw, n) == b
  {
    var lo, hi := Merge(a, b, fw, n, 0), Merge(a, b, fw, n, n);
    forall j | 0 <= j < |a|
      ensures PackedHigh(lo, hi, fw, n)[j] == b[j]
    {
      var i := if j < fw * n then j else j - fw * n;
      SourceFields(i, fw, n);
      SourceInField(i, fw, n);
      MergeAt(a, b, fw, n, if j < fw * n then 0 else n, 2 * (i / fw) + 1, i % fw, fw + Source(i, fw));
    }
  }

  // ------------------------------------------------------------------ the kernels

  ghost predicate Packs(block: seq<Word>, fw: nat, k: nat) {
    forall i :: 0 <= i < |block| ==> |block[i]| == 2 * (fw * Pow2(k))
  }

  /** The packs of a merged block: two for every pair of input packs. */
  function MergedBlock(first: seq<Word>, second: seq<Word>, fw: nat, k: nat): (r: seq<Word>)
    requires fw > 0 && |first| == |second| && Packs(first, fw, k) && Packs(second, fw, k)
    ensures |r| == 2 * |first| && Packs(r, fw, k)
  {
    seq(2 * |first|, i requires 0 <= i < 2 * |first| =>
      Merge(first[i / 2], second[i / 2], fw, Pow2(k), if i % 2 == 0 then 0 else Pow2(k)))
  }

  /** The two output packs made from a pair of input packs. */
  function LowPack(block: seq<Word>, fw: nat, k: nat, i: nat): (r: Word)
    requires fw > 0 && i < |block| / 2 && Packs(block, fw, k)
  {
    PacklResult(block[2 * i], block[2 * i + 1], fw, k)
  }

  function HighPack(block: seq<Word>, fw: nat, k: nat, i: nat): (r: Word)
    requires fw > 0 && i < |block| / 2 && Packs(block, fw, k)
  {
    PackhResult(block[2 * i], block[2 * i + 1], fw, k)
  }

  function SplitFirst(block: seq<Word>, fw: nat, k: nat): (r: seq<Word>)
    requires fw > 0 && |block| % 2 == 0 && Packs(block, fw, k)
    ensures |r| == |block| / 2
  {
    seq(|block| / 2, i requires 0 <= i < |block| / 2 => LowPack(block, fw, k, i))
  }

  function SplitSecond(block: seq<Word>, fw: nat, k: nat): (r: seq<Word>)
    requires fw > 0 && |block| % 2 == 0 && Packs(block, fw, k)
    ensures |r| == |block| / 2
  {
    seq(|block| / 2, i requires 0 <= i < |block| / 2 => HighPack(block, fw, k, i))
  }

  /** The pack loop of MergeKernel. */
  method MergeBlock(bytepack1: seq<Word>, bytepack2: seq<Word>, fw: nat, k: nat) returns (block: seq<Word>)
    requires fw > 0 && |bytepack1| == |bytepack2| && Packs(bytepack1, fw, k) && Packs(bytepack2, fw, k)
    ensures block == MergedBlock(bytepack1, bytepack2, fw, k)
  {
    var n := |bytepack1|;
    var output := new Word[2 * n];
    for i := 0 to n
      invariant forall j :: 0 <= j < 2 * i ==> output[j] == MergedBlock(bytepack1, bytepack2, fw, k)[j]
    {
      output[2 * i] := Merge(bytepack1[i], bytepack2[i], fw, Pow2(k), 0);
      output[2 * i + 1] := Merge(bytepack1[i], bytepack2[i], fw, Pow2(k), Pow2(k));
    }
    block := output[..];
  }

  /** The body of the pack loop of Split2Kernel. */
  method Split2Pack(bytepack: seq<Word>, fw: nat, k: nat, i: nat) returns (lo: Word, hi: Word)
    requires fw > 0 && |bytepack| % 2 == 0 && Packs(bytepack, fw, k) && i < |bytepack| / 2
    ensures lo == SplitFirst(bytepack, fw, k)[i] && hi == SplitSecond(bytepack, fw, k)[i]
  {
    lo := HsimdPackl(bytepack[2 * i], bytepack[2 * i + 1], fw, k);
    hi := HsimdPackh(bytepack[2 * i], bytepack[2 * i + 1], fw, k);
  }

  /** The pack loop of Split2Kernel. */
  method Split2Block(bytepack: seq<Word>, fw: nat, k: nat) returns (first: seq<Word>, second: seq<Word>)
    requires fw > 0 && |bytepack| % 2 == 0 && Packs(bytepack, fw, k)
    ensures first == SplitFirst(bytepack, fw, k) && second == SplitSecond(bytepack, fw, k)
  {
    ghost var f, s := SplitFirst(bytepack, fw, k), SplitSecond(bytepack, fw, k);
    var n := |bytepack| / 2;
    var output1, output2 := new Word[n], new Word[n];
    for i := 0 to n
      invariant forall j :: 0 <= j < i ==> output1[j] == f[j] && output2[j] == s[j]
    {
      var lo, hi := Split2Pack(bytepack, fw, k, i);
      output1[i], output2[i] := lo, hi;
    }
    first, second := output1[..], output2[..];
  }

  lemma {:induction false} SplitMergedPack(first: seq<Word>, second: seq<Word>, fw: nat, k: nat, i: nat)
    requires fw > 0 && k > 0 && |first| == |second| && Packs(first, fw, k) && Packs(second, fw, k) && i < |first|
    ensures var block := MergedBlock(first, second, fw, k);
            LowPack(block, fw, k, i) == first[i] && HighPack(block, fw, k, i) == second[i]
  {
    SplitMergeLow(first[i], second[i], fw, Pow2(k));
    SplitMergeHigh(first[i], second[i], fw, Pow2(k));
  }

  /** Splitting a merged block gives back both blocks, if a word has at least two of the wide fields. */
  lemma {:induction false} SplitUndoesMergeBlock(first: seq<Word>, second: seq<Word>, fw: nat, k: nat)
    requires fw > 0 && k > 0 && |first| == |second| && Packs(first, fw, k) && Packs(second, fw, k)
    ensures var block := MergedBlock(first, second, fw, k);
            SplitFirst(block, fw, k) == first && SplitSecond(block, fw, k) == second
  {
    var block := MergedBlock(first, second, fw, k);
    var f, s := SplitFirst(block, fw, k), SplitSecond(block, fw, k);
    forall i | 0 <= i < |first|
      ensures f[i] == first[i] && s[i] == second[i]
    {
      SplitMergedPack(first, second, fw, k, i);
    }
  }

  // ------------------------------------------------------------------ sample by sample

  /** Sample g of a block is field f of pack i, with n samples to a pack. */
  ghost predicate Sample(block: seq<Word>, n: nat, g: nat, i: nat, f: nat) {
    i < |block| && f < n && g == i * n + f
  }

  lemma {:induction false} BitInPack(fw: nat, h: nat, f: nat, e: nat)
    requires f < 2 * h && e < fw
    ensures f * fw + e < 2 * (fw * h)
  {
    MulMonotone(f + 1, 2 * h, fw);
    assert (f + 1) * fw == f * fw + fw && (2 * h) * fw == 2 * (fw * h);
  }

  /** Half of sample f of pack i is a sample of pack i / 2, in its lower half when i is even. */
  lemma {:induction false} HalfSample(h: nat, g: nat, i: nat, f: nat, i': nat, f': nat)
    requires f < 2 * h && g == i * (2 * h) + f && f' < 2 * h && g / 2 == i' * (2 * h) + f'
    ensures i' == i / 2 && f' == (if i % 2 == 0 then 0 else h) + f / 2 && g % 2 == f % 2
  {
    var from := if i % 2 == 0 then 0 else h;
    HalfOfMultiple(i, h, from);
    HalfOfSum((i / 2) * (2 * h) + from, f, g);
    ModUnique(g / 2, 2 * h, i / 2, from + f / 2);
    ModUnique(g / 2, 2 * h, i', f');
  }

  lemma HalfOfMultiple(i: nat, h: nat, from: nat)
    requires from == if i % 2 == 0 then 0 else h
    ensures i * (2 * h) == 2 * ((i / 2) * (2 * h) + from)
  {
    assert i == 2 * (i / 2) + i % 2;
    assert (2 * (i / 2)) * (2 * h) == 2 * ((i / 2) * (2 * h));
    assert i * (2 * h) == (2 * (i / 2)) * (2 * h) + (i % 2) * (2 * h);
  }

  lemma HalfOfSum(a: nat, f: nat, g: nat)
    requires g == 2 * a + f
    ensures g / 2 == a + f / 2 && g % 2 == f % 2
  {
  }

  /** Sample g of a merged block is sample g / 2 of the first stream when g is even, of the second when it is odd. */
  lemma {:induction false} MergedSample(first: seq<Word>, second: seq<Word>, fw: nat, k: nat, g: nat, e: nat,
                                        i: nat, f: nat, i': nat, f': nat, j: nat, j': nat)
    requires fw > 0 && |first| == |second| && Packs(first, fw, k) && Packs(second, fw, k) && e < fw
    requires Sample(MergedBlock(first, second, fw, k), 2 * Pow2(k), g, i, f)
    requires Sample(first, 2 * Pow2(k), g / 2, i', f') && j == f * fw + e && j' == f' * fw + e
    ensures j < |MergedBlock(first, second, fw, k)[i]| && j' < |first[i']| == |second[i']|
    ensures MergedBlock(first, second, fw, k)[i][j] == (if g % 2 == 0 then first else second)[i'][j']
  {
    var h := Pow2(k);
    BitInPack(fw, h, f, e);
    BitInPack(fw, h, f', e);
    HalfSample(h, g, i, f, i', f');
    MergeAt(first[i'], second[i'], fw, h, if i % 2 == 0 then 0 else h, f, e, j);
  }

  /** Twice sample f of pack i is a sample of pack 2 * i, or of the pack after it. */
  lemma {:induction false} DoubleSample(h: nat, g: nat, i: nat, f: nat, i': nat, f': nat)
    requires f < 2 * h && g == i * (2 * h) + f && f' < 2 * h && 2 * g == i' * (2 * h) + f'
    ensures i' == (if f < h then 2 * i else 2 * i + 1) && f' == 2 * (if f < h then f else f - h)
  {
    assert 2 * g == (2 * i) * (2 * h) + 2 * f by { assert (2 * i) * (2 * h) == 2 * (i * (2 * h)); }
    assert (2 * i + 1) * (2 * h) == (2 * i) * (2 * h) + 2 * h;
    ModUnique(2 * g, 2 * h, i', f');
    if f < h {
      ModUnique(2 * g, 2 * h, 2 * i, 2 * f);
    } else {
      ModUnique(2 * g, 2 * h, 2 * i + 1, 2 * (f - h));
    }
  }

  /** Where bit e of field f of the packed halves comes from. */
  lemma {:induction false} HalfSource(fw: nat, h: nat, f: nat, e: nat, j: nat, s: nat)
    requires f < h && e < fw && j == f * fw + e && s == (2 * f) * fw + e
    ensures j < fw * h && Source(j, fw) == s
  {
    ModUnique(j, fw, f, e);
    MulMonotone(f + 1, h, fw);
    assert (f + 1) * fw == f * fw + fw;
    assert f * (2 * fw) == (2 * f) * fw;
  }

  lemma SecondHalf(fw: nat, h: nat, f: nat, e: nat, j: nat)
    requires h <= f && j == f * fw + e
    ensures j == fw * h + ((f - h) * fw + e)
  {
    assert f * fw == (f - h) * fw + h * fw;
  }

  lemma {:induction false} PackedBit(a: Word, b: Word, fw: nat, h: nat, f: nat, f0: nat, e: nat, j: nat, s: nat)
    requires fw > 0 && |a| == |b| == 2 * (fw * h) && f < 2 * h && e < fw && j == f * fw + e < |a|
    requires f0 == (if f < h then f else f - h) && s == (2 * f0) * fw + e && s + fw < |a|
    ensures PackedLow(a, b, fw, h)[j] == (if f < h then a else b)[s]
    ensures PackedHigh(a, b, fw, h)[j] == (if f < h then a else b)[s + fw]
  {
    HalfSource(fw, h, f0, e, f0 * fw + e, s);
    if f >= h { SecondHalf(fw, h, f, e, j); }
  }

  lemma {:induction false} NextField(fw: nat, h: nat, f: nat, e: nat, s: nat)
    requires f < h && e < fw && s == (2 * f) * fw + e
    ensures s + fw < 2 * (fw * h)
  {
    BitInPack(fw, h, 2 * f + 1, e);
    assert (2 * f + 1) * fw == (2 * f) * fw + fw;
  }

  /** Sample g of the first stream of a split block is sample 2 * g of the block; of the second it is the one after. */
  lemma {:induction false} SplitSample(block: seq<Word>, fw: nat, k: nat, g: nat, e: nat,
                                       i: nat, f: nat, i': nat, f': nat, j: nat, j': nat)
    requires fw > 0 && k > 0 && |block| % 2 == 0 && Packs(block, fw, k) && e < fw
    requires Sample(SplitFirst(block, fw, k), 2 * Pow2(k), g, i, f) && Sample(block, 2 * Pow2(k), 2 * g, i', f')
    requires j == f * fw + e && j' == f' * fw + e
    ensures j < |SplitFirst(block, fw, k)[i]| == |SplitSecond(block, fw, k)[i]| && j' + fw < |block[i']|
    ensures SplitFirst(block, fw, k)[i][j] == block[i'][j'] && SplitSecond(block, fw, k)[i][j] == block[i'][j' + fw]
  {
    var h := Pow2(k);
    var f0 := if f < h then f else f - h;
    BitInPack(fw, h, f, e);
    DoubleSample(h, g, i, f, i', f');
    NextField(fw, h, f0, e, j');
    PackedBit(block[2 * i], block[2 * i + 1], fw, h, f, f0, e, j, j');
  }

  // ------------------------------------------------------------------ whole streams

  ghost predicate Stream(blocks: seq<seq<Word>>, fw: nat, k: nat) {
    forall i :: 0 <= i < |blocks| ==> Packs(blocks[i], fw, k)
  }

  /** MergeKernel::generateMultiBlockLogic: one block or more, the test coming after the block. */
  method MergeStreams(first: seq<seq<Word>>, second: seq<seq<Word>>, fw: nat, k: nat) returns (merged: seq<seq<Word>>)
    requires fw > 0 && |first| == |second| > 0 && Stream(first, fw, k) && Stream(second, fw, k)
    requires forall i :: 0 <= i < |first| ==> |first[i]| == |second[i]|
    ensures |merged| == |first|
    ensures forall i :: 0 <= i < |first| ==> merged[i] == MergedBlock(first[i], second[i], fw, k)
  {
    merged := [];
    var blockOffset := 0;
    while true
      invariant blockOffset == |merged| < |first|
      invariant forall i :: 0 <= i < |merged| ==> merged[i] == MergedBlock(first[i], second[i], fw, k)
      decreases |first| - blockOffset
    {
      var block := MergeBlock(first[blockOffset], second[blockOffset], fw, k);
      merged := merged + [block];
      blockOffset := blockOffset + 1;
      if blockOffset == |first| {
        break;
      }
    }
  }

  /** Split2Kernel::generateMultiBlockLogic, with the same kind of loop. */
  method SplitStream(merged: seq<seq<Word>>, fw: nat, k: nat) returns (first: seq<seq<Word>>, second: seq<seq<Word>>)
    requires fw > 0 && merged != [] && Stream(merged, fw, k) && forall i :: 0 <= i < |merged| ==> |merged[i]| % 2 == 0
    ensures |first| == |second| == |merged|
    ensures forall i :: 0 <= i < |merged| ==>
              first[i] == SplitFirst(merged[i], fw, k) && second[i] == SplitSecond(merged[i], fw, k)
  {
    first, second := [], [];
    var blockOffset := 0;
    while true
      invariant blockOffset == |first| == |second| < |merged|
      invariant forall i :: 0 <= i < |first| ==>
                  first[i] == SplitFirst(merged[i], fw, k) && second[i] == SplitSecond(merged[i], fw, k)
      decreases |merged| - blockOffset
    {
      var lo, hi := Split2Block(merged[blockOffset], fw, k);
      first, second := first + [lo], second + [hi];
      blockOffset := blockOffset + 1;
      if blockOffset == |merged| {
        break;
      }
    }
  }

  /** Merging two streams and splitting the result gives them back, for one block or any more. */
  method MergeThenSplit(first: seq<seq<Word>>, second: seq<seq<Word>>, fw: nat, k: nat)
      returns (first': seq<seq<Word>>, second': seq<seq<Word>>)
    requires fw > 0 && k > 0 && |first| == |second| > 0 && Stream(first, fw, k) && Stream(second, fw, k)
    requires forall i :: 0 <= i < |first| ==> |first[i]| == |second[i]|
    ensures first' == first && second' == second
  {
    var merged := MergeStreams(first, second, fw, k);
    first', second' := SplitStream(merged, fw, k);
    forall i | 0 <= i < |first|
      ensures first'[i] == first[i] && second'[i] == second[i]
    {
      SplitUndoesMergeBlock(first[i], second[i], fw, k);
    }
  }

  lemma {:induction false} TwoSampleMerge(a: Word, b: Word, fw: nat, j: nat)
    requires |a| == |b| == 2 * (fw * 1) && j < fw
    ensures Merge(a, b, fw, 1, 0)[fw + j] == b[j] && Merge(a, b, fw, 1, 1)[j] == a[fw + j]
  {
    MergeAt(a, b, fw, 1, 0, 1, j, fw + j);
    MergeAt(a, b, fw, 1, 1, 0, j, j);
  }

  lemma {:induction false} BothWays(x: Word, y: Word, fw: nat)
    requires |x| == |y| == 2 * fw
    ensures (forall j :: 0 <= j < fw && x[fw + j] ==> y[j]) && (forall j :: 0 <= j < fw && y[j] ==> x[fw + j])
       <==> x[fw..] == y[..fw]
  {
    if x[fw..] == y[..fw] {
      forall j | 0 <= j < fw
        ensures x[fw + j] == y[j]
      {
        assert x[fw..][j] == y[..fw][j];
      }
    }
  }

  /** When a pack is just two samples wide, the pack operations do not mask, and merging and splitting gives the
      packs back exactly when the high sample of the first equals the low sample of the second. */
  lemma {:induction false} TwoSamplePacks(a: Word, b: Word, fw: nat)
    requires fw > 0 && |a| == |b| == 2 * (fw * 1)
    ensures var lo, hi := Merge(a, b, fw, 1, 0), Merge(a, b, fw, 1, 1);
            PacklResult(lo, hi, fw, 0) == a && PackhResult(lo, hi, fw, 0) == b <==> a[fw..] == b[..fw]
  {
    var lo, hi := Merge(a, b, fw, 1, 0), Merge(a, b, fw, 1, 1);
    SplitMergeLow(a, b, fw, 1);
    SplitMergeHigh(a, b, fw, 1);
    SingleFieldLow(lo, hi, fw);
    SingleFieldHigh(lo, hi, fw);
    BothWays(lo, hi, fw);
    forall j | 0 <= j < fw
      ensures lo[fw..][j] == b[..fw][j] && hi[..fw][j] == a[fw..][j]
    {
      TwoSampleMerge(a, b, fw, j);
    }
    assert lo[fw..] == b[..fw] && hi[..fw] == a[fw..];
  }
}
