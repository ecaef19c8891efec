/** IDISA_ARM_Builder: the permutation tables behind the NEON mvmd_compress and mvmd_expand, how they are built,
    and the two operations that look them up. */
module ArmTables {
  import opened IntArith
  import opened BitWords
  import opened BitNumbers
  import opened Selection
  import opened LaneAddition
  import opened LaneOps
  import opened LaneSelect
  import opened ArmCompressExpand

  // ------------------------------------------------------------------ the byte table: eight mask bits

  /** The positions of the set bits of the mask, then n, which is out of range. */
  ghost predicate IsCompressEntry(mask: Word, n: nat, e: seq<nat>) {
    && |e| == n
    && forall i :: 0 <= i < n ==> e[i] == if i < Pop(mask) then Select(mask, i) else n
  }

  /** The entry while the positions below `bit` have been looked at. */
  ghost predicate PositionsBelow(mask: Word, bit: nat, lanes: seq<nat>)
    requires bit <= |mask|
  {
    && Rank(mask, bit) <= Pop(mask)
    && Rank(mask, bit) <= |lanes|
    && forall i :: 0 <= i < Rank(mask, bit) ==> lanes[i] == Select(mask, i)
  }

  lemma {:induction false} PositionStep(mask: Word, bit: nat, lanes: seq<nat>)
    requires bit < |mask| && |mask| <= |lanes| && PositionsBelow(mask, bit, lanes)
    ensures Rank(mask, bit) < |lanes|
    ensures PositionsBelow(mask, bit + 1, if mask[bit] then lanes[Rank(mask, bit) := bit] else lanes)
  {
    if mask[bit] {
      RankBelowPop(mask, bit);
      RankInjective(mask, bit, Select(mask, Rank(mask, bit)));
    }
  }

  method ByteCompressEntry(m: nat, h: nat) returns (entry: seq<nat>)
    ensures IsCompressEntry(Digits(m, h), 2 * h, entry)
  {
    ghost var mask := Digits(m, h);
    var lanes := new nat[2 * h];
    var pos := 0;
    for bit := 0 to h
      invariant pos == Rank(mask, bit)
      invariant PositionsBelow(mask, bit, lanes[..])
    {
      PositionStep(mask, bit, lanes[..]);
      if NumBit(m, bit) {
        lanes[pos] := bit;
        pos := pos + 1;
      }
    }
    ghost var selected := lanes[..];
    for i := pos to 2 * h
      invariant forall k :: 0 <= k < i ==> lanes[k] == if k < pos then selected[k] else 2 * h
    {
      lanes[i] := 2 * h;
    }
    entry := lanes[..];
  }

  method ByteCompressTable(h: nat) returns (table: seq<seq<nat>>)
    ensures |table| == Pow2(h)
    ensures forall m :: 0 <= m < Pow2(h) ==> IsCompressEntry(Digits(m, h), 2 * h, table[m])
  {
    var entries := new seq<nat>[Pow2(h)];
    for m := 0 to Pow2(h)
      invariant forall k :: 0 <= k < m ==> IsCompressEntry(Digits(k, h), 2 * h, entries[k])
    {
      entries[m] := ByteCompressEntry(m, h);
    }
    table := entries[..];
  }

  lemma {:induction false} LoadedEntry(table: seq<seq<nat>>, mask: Word)
    requires |table| == Pow2(|mask|)
    requires forall m :: 0 <= m < Pow2(|mask|) ==> IsCompressEntry(Digits(m, |mask|), 2 * |mask|, table[m])
    ensures Val(mask) < |table| && IsCompressEntry(mask, 2 * |mask|, table[Val(mask)])
  {
    ValToBound(mask, |mask|);
    DigitsOfValue(mask);
  }

  lemma {:induction false} SelectConcat(lo: Word, hi: Word, k: nat)
    requires k < Pop(lo) + Pop(hi)
    ensures Pop(lo + hi) == Pop(lo) + Pop(hi)
    ensures Select(lo + hi, k) == if k < Pop(lo) then Select(lo, k) else |lo| + Select(hi, k - Pop(lo))
  {
    var mask := lo + hi;
    RankConcat(lo, hi, |hi|);
    if k < Pop(lo) {
      var p := Select(lo, k);
      assert mask[..|lo|] == lo;
      RankPrefix(mask, |lo|, p);
      RankInjective(mask, p, Select(mask, k));
    } else {
      var p := Select(hi, k - Pop(lo));
      RankConcat(lo, hi, p);
      RankInjective(mask, |lo| + p, Select(mask, k));
    }
  }

  /** simd_add and simd_sub on index bytes. */
  function AddBytes(x: seq<nat>, k: nat, m: nat): (r: seq<nat>)
    requires m > 0
    ensures |r| == |x|
  {
    seq(|x|, i requires 0 <= i < |x| => (x[i] + k) % m)
  }

  function IdentityMinus(n: nat, k: nat, m: nat): (r: seq<nat>)
    requires m > 0
    ensures |r| == n
  {
    seq(n, i => (i - k) % m)
  }

  lemma {:induction false} IdentityMinusAt(n: nat, k: nat, m: nat, i: nat)
    requires i < n < m && k <= m
    ensures IdentityMinus(n, k, m)[i] == if i >= k then i - k else m + i - k
  {
    if i >= k {
      SmallMod(i - k, m);
    } else {
      ModShift(i - k, m, 1);
      SmallMod(i - k + m, m);
    }
  }

  /** Lane i of the high half's lookup. */
  lemma {:induction false} HighLane(a: seq<Word>, hi: Word, base: seq<nat>, i: nat, bw: nat, m: nat)
    requires |a| == 2 * |hi| && Lanes(a, bw) && 3 * |hi| < m && IsCompressEntry(hi, |a|, base) && i < |a|
    ensures Tbl1(a, AddBytes(base, |hi|, m), bw)[i] == if i < Pop(hi) then a[|hi| + Select(hi, i)] else Zeros(bw)
  {
    SmallMod(base[i] + |hi|, m);
  }

  /** The second table's result, moved up behind the first's: lane i of the shifted high part. */
  lemma {:induction false} ShiftedHighLane(a: seq<Word>, hi: Word, base: seq<nat>, countLow: nat, i: nat, bw: nat,
                                           m: nat)
    requires |a| == 2 * |hi| && Lanes(a, bw) && 3 * |hi| < m && IsCompressEntry(hi, |a|, base)
    requires countLow <= |hi| && i < |a|
    ensures Tbl1(Tbl1(a, AddBytes(base, |hi|, m), bw), IdentityMinus(|a|, countLow, m), bw)[i]
         == if countLow <= i < countLow + Pop(hi) then a[|hi| + Select(hi, i - countLow)] else Zeros(bw)
  {
    IdentityMinusAt(|a|, countLow, m, i);
    if i >= countLow { HighLane(a, hi, base, i - countLow, bw, m); }
  }

  lemma {:induction false} CompressedLane(a: seq<Word>, lo: Word, hi: Word, low: Word, high: Word, i: nat, bw: nat)
    requires i < |a| == |lo| + |hi| && Lanes(a, bw)
    requires low == if i < Pop(lo) then a[Select(lo, i)] else Zeros(bw)
    requires high == if Pop(lo) <= i < Pop(lo) + Pop(hi) then a[|lo| + Select(hi, i - Pop(lo))] else Zeros(bw)
    ensures |low| == |high| == bw
    ensures (if i < Pop(lo + hi) then Or(low, high) else Zeros(bw)) == Compress(a, lo + hi, bw)[i]
  {
    RankConcat(lo, hi, |hi|);
    CompressAt(a, lo + hi, bw, i);
    if i < Pop(lo) + Pop(hi) {
      SelectConcat(lo, hi, i);
      OrZero(low, bw);
      OrZero(high, bw);
    }
  }

  /** The straight-line part of compressBytes, after both table entries have been loaded. */
  function CompressFromEntries(a: seq<Word>, byteMask: Word, lowIdx: seq<nat>, highIdxBase: seq<nat>, bw: nat, m: nat)
      : (r: seq<Word>)
    requires |a| == |byteMask| == |lowIdx| == |highIdxBase| && |a| % 2 == 0 && m > 0 && Lanes(a, bw)
    ensures |r| == |a|
  {
    var n := |a|;
    var lowCompressed := Tbl1(a, lowIdx, bw);
    var highCompressed := Tbl1(a, AddBytes(highIdxBase, n / 2, m), bw);
    var countLow := Pop(byteMask[..n / 2]);
    var shiftedHigh := Tbl1(highCompressed, IdentityMinus(n, countLow, m), bw);
    var result := SimdOr(lowCompressed, shiftedHigh, bw);
    var totalCount := Pop(byteMask);
    SimdAnd(result, LaneMask(seq(n, i => i < totalCount), bw), bw)
  }

  lemma {:induction false} EntriesLaneIs(a: seq<Word>, lo: Word, hi: Word, lowIdx: seq<nat>, highIdxBase: seq<nat>,
                                         bw: nat, m: nat, i: nat)
    requires |a| == |lo| + |hi| && |lo| == |hi| && m > 0 && Lanes(a, bw) && i < |a| == |lowIdx| == |highIdxBase|
    ensures var low := Tbl1(a, lowIdx, bw)[i];
            var high := Tbl1(Tbl1(a, AddBytes(highIdxBase, |hi|, m), bw), IdentityMinus(|a|, Pop(lo), m), bw)[i];
            && |low| == |high| == bw
            && CompressFromEntries(a, lo + hi, lowIdx, highIdxBase, bw, m)[i]
            == if i < Pop(lo + hi) then Or(low, high) else Zeros(bw)
  {
    assert (lo + hi)[..|a| / 2] == lo;
    var low := Tbl1(a, lowIdx, bw)[i];
    var high := Tbl1(Tbl1(a, AddBytes(highIdxBase, |hi|, m), bw), IdentityMinus(|a|, Pop(lo), m), bw)[i];
    var valid := seq(|a|, j => j < Pop(lo + hi));
    KeepLane(Or(low, high), LaneMask(valid, bw)[i], i < Pop(lo + hi), bw);
  }

  lemma {:induction false} CompressFromEntriesLane(a: seq<Word>, lo: Word, hi: Word, lowIdx: seq<nat>,
                                                   highIdxBase: seq<nat>, bw: nat, m: nat, i: nat)
    requires |a| == |lo| + |hi| && |lo| == |hi| && 3 * |lo| < m && Lanes(a, bw) && i < |a|
    requires IsCompressEntry(lo, |a|, lowIdx) && IsCompressEntry(hi, |a|, highIdxBase)
    ensures CompressFromEntries(a, lo + hi, lowIdx, highIdxBase, bw, m)[i] == Compress(a, lo + hi, bw)[i]
  {
    EntriesLaneIs(a, lo, hi, lowIdx, highIdxBase, bw, m, i);
    ShiftedHighLane(a, hi, highIdxBase, Pop(lo), i, bw, m);
    var low := Tbl1(a, lowIdx, bw)[i];
    var high := Tbl1(Tbl1(a, AddBytes(highIdxBase, |hi|, m), bw), IdentityMinus(|a|, Pop(lo), m), bw)[i];
    CompressedLane(a, lo, hi, low, high, i, bw);
  }

  /** NEON compressBytes: both mask bytes index the table; the high half's bytes are moved up behind the low
      half's with a second lookup. */
  method CompressBytes(a: seq<Word>, byteMask: Word, h: nat, bw: nat, m: nat) returns (r: seq<Word>)
    requires |a| == |byteMask| == 2 * h && 3 * h < m && Lanes(a, bw)
    ensures r == Compress(a, byteMask, bw)
  {
    var table := ByteCompressTable(h);
    var lowMask, highMask := byteMask[..h], Shr(byteMask, h)[..h];
    LoadedEntry(table, lowMask);
    LoadedEntry(table, highMask);
    var lowIdx, highIdxBase := table[Val(lowMask)], table[Val(highMask)];
    r := CompressFromEntries(a, byteMask, lowIdx, highIdxBase, bw, m);
    assert byteMask == lowMask + highMask;
    forall i | 0 <= i < |a|
      ensures r[i] == Compress(a, byteMask, bw)[i]
    {
      CompressFromEntriesLane(a, lowMask, highMask, lowIdx, highIdxBase, bw, m, i);
    }
  }

  // ------------------------------------------------------------------ the field tables

  /** What a table entry for byte p must be; |mask| is out of range. */
  function EntryAt(mask: Word, expand: bool, p: nat): (r: nat)
    requires p < |mask|
  {
    if expand then if mask[p] then Rank(mask, p) else |mask|
    else if p < Pop(mask) then Select(mask, p) else |mask|
  }

  ghost predicate IsPermuteEntry(mask: Word, expand: bool, e: seq<nat>) {
    |e| == |mask| && forall p :: 0 <= p < |mask| ==> e[p] == EntryAt(mask, expand, p)
  }

  /** The source field of field k after the first f fields have been handled; -1 for none yet. */
  function FieldSource(mask: Word, expand: bool, k: nat, f: nat): (r: int)
    requires k < |mask| && f <= |mask|
    ensures r < |mask|
  {
    if expand then if k < f && mask[k] then Rank(mask, k) else -1
    else if k < Rank(mask, f) then RankMonotone(mask, f, |mask|); Select(mask, k) else -1
  }

  lemma {:induction false} FieldSourceStep(mask: Word, expand: bool, k: nat, f: nat)
    requires k < |mask| && f < |mask|
    ensures FieldSource(mask, expand, k, f + 1)
         == if mask[f] && k == (if expand then f else Rank(mask, f)) then (if expand then Rank(mask, f) else f)
            else FieldSource(mask, expand, k, f)
  {
    if mask[f] {
      RankBelowPop(mask, f);
      RankInjective(mask, f, Select(mask, Rank(mask, f)));
    }
  }

  ghost predicate FieldsDone(lanes: seq<nat>, mask: Word, expand: bool, f: nat, c: nat)
    requires f <= |mask| && |lanes| == |mask| * c
  {
    forall k, b :: 0 <= k < |mask| && 0 <= b < c ==>
      && At(k, b, c) < |lanes|
      && lanes[At(k, b, c)] == FieldByte(FieldSource(mask, expand, k, f), b, c, |lanes|)
  }

  /** Write the bytes of one field. */
  method WriteField(lanes: array<nat>, dst: nat, src: nat, c: nat)
    requires At(dst, c, c) <= lanes.Length
    modifies lanes
    ensures forall p :: 0 <= p < lanes.Length ==>
              lanes[p] ==
                 if At(dst, 0, c) <= p < At(dst, c, c) then p - At(dst, 0, c) + At(src, 0, c) else old(lanes[p])
  {
    for b := 0 to c
      invariant forall p :: 0 <= p < lanes.Length ==>
                  lanes[p] ==
                     if At(dst, 0, c) <= p < At(dst, b, c) then p - At(dst, 0, c) + At(src, 0, c) else old(lanes[p])
    {
      lanes[dst * c + b] := src * c + b;
    }
  }

  function FieldByte(src: int, b: nat, c: nat, n: nat): (r: nat) {
    if src >= 0 then At(src, b, c) else n
  }

  lemma {:induction false} FieldWritten(before: seq<nat>, after: seq<nat>, mask: Word, expand: bool, f: nat, c: nat,
                                        dst: nat, src: nat)
    requires f < |mask| && mask[f] && |before| == |after| == |mask| * c && FieldsDone(before, mask, expand, f, c)
    requires dst == (if expand then f else Rank(mask, f)) && src == (if expand then Rank(mask, f) else f)
    requires forall p :: 0 <= p < |after| ==>
               after[p] == if At(dst, 0, c) <= p < At(dst, c, c) then p - At(dst, 0, c) + At(src, 0, c) else before[p]
    ensures FieldsDone(after, mask, expand, f + 1, c)
  {
    forall k, b | 0 <= k < |mask| && 0 <= b < c
      ensures At(k, b, c) < |after|
      ensures after[At(k, b, c)] == FieldByte(FieldSource(mask, expand, k, f + 1), b, c, |after|)
    {
      AtSplits(k, b, c, |mask|);
      ByteWritten(before, after, dst, src, k, b, c);
      FieldSourceStep(mask, expand, k, f);
    }
  }

  lemma {:induction false} ByteWritten(before: seq<nat>, after: seq<nat>, dst: nat, src: nat, k: nat, b: nat, c: nat)
    requires b < c && At(k, b, c) < |before| == |after|
    requires forall p :: 0 <= p < |after| ==>
               after[p] == if At(dst, 0, c) <= p < At(dst, c, c) then p - At(dst, 0, c) + At(src, 0, c) else before[p]
    ensures after[At(k, b, c)] == if k == dst then At(src, b, c) else before[At(k, b, c)]
  {
    InField(k, b, dst, c);
  }

  lemma {:induction false} InField(k: nat, b: nat, dst: nat, c: nat)
    requires b < c
    ensures At(dst, 0, c) <= At(k, b, c) < At(dst, c, c) <==> k == dst
  {
    if k < dst {
      MulMonotone(k + 1, dst, c);
      assert (k + 1) * c == k * c + c;
    } else if k > dst {
      MulMonotone(dst + 1, k, c);
      assert (dst + 1) * c == dst * c + c;
    }
  }

  lemma {:induction false} FieldsDoneIsEntry(lanes: seq<nat>, mask: Word, expand: bool, c: nat)
    requires |lanes| == |mask| * c && FieldsDone(lanes, mask, expand, |mask|, c)
    ensures IsPermuteEntry(Dup(mask, c), expand, lanes)
  {
    forall p | 0 <= p < |lanes|
      ensures lanes[p] == EntryAt(Dup(mask, c), expand, p)
    {
      SplitIsAt(p, c, |mask|);
      var k, b := p / c, p % c;
      DupAt(mask, c, k, b);
      RankDup(mask, c, k, b);
      PopDup(mask, c);
      if k < Pop(mask) { SelectDup(mask, c, k, b); } else { MulMonotone(Pop(mask), k, c); }
    }
  }

  lemma {:induction false} NoFieldDone(mask: Word, expand: bool, c: nat)
    ensures FieldsDone(seq(|mask| * c, _ => |mask| * c), mask, expand, 0, c)
  {
    forall k, b | 0 <= k < |mask| && 0 <= b < c
      ensures At(k, b, c) < |mask| * c
    {
      AtSplits(k, b, c, |mask|);
    }
  }

  /** Handle field f, whose mask bit is set. */
  method PermuteField(lanes: array<nat>, ghost mask: Word, f: nat, rank: nat, c: nat, isExpand: bool)
    requires f < |mask| && mask[f] && rank == Rank(mask, f) && lanes.Length == |mask| * c
    requires FieldsDone(lanes[..], mask, isExpand, f, c)
    modifies lanes
    ensures FieldsDone(lanes[..], mask, isExpand, f + 1, c)
  {
    var src := if isExpand then rank else f;
    var dst := if isExpand then f else rank;
    ghost var before := lanes[..];
    AtFits(dst, c, c, |mask|);
    WriteField(lanes, dst, src, c);
    FieldWritten(before, lanes[..], mask, isExpand, f, c, dst, src);
  }

  /** One entry of a field table: field f of the mask moves to its rank, or back from it. */
  method FieldPermuteEntry(m: nat, fieldCount: nat, c: nat, isExpand: bool) returns (entry: seq<nat>)
    ensures IsPermuteEntry(Dup(Digits(m, fieldCount), c), isExpand, entry)
  {
    ghost var mask := Digits(m, fieldCount);
    var n := fieldCount * c;
    var lanes := new nat[n](_ => n);
    var rank := 0;
    NoFieldDone(mask, isExpand, c);
    assert lanes[..] == seq(|mask| * c, _ => |mask| * c);
    for f := 0 to fieldCount
      invariant rank == Rank(mask, f)
      invariant FieldsDone(lanes[..], mask, isExpand, f, c)
    {
      if NumBit(m, f) {
        PermuteField(lanes, mask, f, rank, c, isExpand);
        rank := rank + 1;
      } else {
        NothingWritten(lanes[..], mask, isExpand, f, c);
      }
    }
    FieldsDoneIsEntry(lanes[..], mask, isExpand, c);
    entry := lanes[..];
  }

  lemma {:induction false} NothingWritten(lanes: seq<nat>, mask: Word, expand: bool, f: nat, c: nat)
    requires f < |mask| && !mask[f] && |lanes| == |mask| * c && FieldsDone(lanes, mask, expand, f, c)
    ensures FieldsDone(lanes, mask, expand, f + 1, c)
  {
    forall k | 0 <= k < |mask|
      ensures FieldSource(mask, expand, k, f + 1) == FieldSource(mask, expand, k, f)
    {
      FieldSourceStep(mask, expand, k, f);
    }
  }

  method FieldPermuteTable(fieldCount: nat, c: nat, isExpand: bool) returns (table: seq<seq<nat>>)
    ensures |table| == Pow2(fieldCount)
    ensures forall m :: 0 <= m < Pow2(fieldCount) ==> IsPermuteEntry(Dup(Digits(m, fieldCount), c), isExpand, table[m])
  {
    var entries := new seq<nat>[Pow2(fieldCount)];
    for m := 0 to Pow2(fieldCount)
      invariant forall k :: 0 <= k < m ==> IsPermuteEntry(Dup(Digits(k, fieldCount), c), isExpand, entries[k])
    {
      entries[m] := FieldPermuteEntry(m, fieldCount, c, isExpand);
    }
    table := entries[..];
  }

  lemma {:induction false} LowBitsValue(x: Word, k: nat, n: nat)
    requires k <= n <= |x|
    ensures ValTo(And(x, seq(|x|, j => j < k)), n) == ValTo(x, k)
  {
    if n > 0 {
      if k < n {
        LowBitsValue(x, k, n - 1);
      } else {
        LowBitsValue(x, k - 1, n - 1);
        ValToExt(And(x, seq(|x|, j => j < k)), And(x, seq(|x|, j => j < k - 1)), n - 1);
      }
    }
  }

  lemma {:induction false} PermuteLane(a: seq<Word>, mask: Word, expand: bool, entry: seq<nat>, bw: nat, i: nat)
    requires i < |a| == |mask| && Lanes(a, bw) && IsPermuteEntry(mask, expand, entry)
    ensures Tbl1(a, entry, bw)[i] == (if expand then Expand(a, mask, bw) else Compress(a, mask, bw))[i]
  {
    if expand {
      if mask[i] { RankBelowPop(mask, i); }
    } else {
      CompressAt(a, mask, bw, i);
    }
  }

  /** NEON fieldPermute: the mask, cut to the number of fields, indexes the table. */
  method FieldPermute(a: seq<Word>, selectMask: Word, fieldCount: nat, c: nat, isExpand: bool, bw: nat)
      returns (r: seq<Word>)
    requires |a| == fieldCount * c && fieldCount <= 32 && Lanes(a, bw)
    ensures var mask := Dup(ZExt(selectMask, fieldCount), c);
            r == if isExpand then Expand(a, mask, bw) else Compress(a, mask, bw)
  {
    var table := FieldPermuteTable(fieldCount, c, isExpand);
    var wide := ZExt(selectMask, 32);
    var idx := Val(And(wide, seq(32, j => j < fieldCount)));
    ghost var fields := ZExt(selectMask, fieldCount);
    LowBitsValue(wide, fieldCount, 32);
    ValToExt(wide, fields, fieldCount);
    ValToBound(fields, fieldCount);
    DigitsOfValue(fields);
    r := Tbl1(a, table[idx], bw);
    forall i | 0 <= i < |a|
      ensures r[i] == (if isExpand then Expand(a, Dup(fields, c), bw) else Compress(a, Dup(fields, c), bw))[i]
    {
      PermuteLane(a, Dup(fields, c), isExpand, table[idx], bw, i);
    }
  }
}
