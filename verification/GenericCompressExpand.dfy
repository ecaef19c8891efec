/** IDISA_Builder::mvmd_compress and mvmd_expand, the versions for registers without special instructions.

    Every lane has a running total of the unselected lanes up to it, and the data moves by powers of two
    according to the binary digits of the totals.  The totals themselves do not move with the data; the
    heart of the proof is that the total found at a lane on the way agrees, in the digits still to be
    handled, with the total of the lane the data belongs to (`TotalsAgree`). */
module GenericCompressExpand {
  import opened IntArith
  import opened BitWords
  import opened BitNumbers
  import opened Selection
  import opened LaneAddition
  import opened LaneOps
  import opened LaneSelect
  import opened ArmCompressExpand

  /** The number of unselected lanes up to and including lane i. */
  function Total(mask: Word, i: nat): (r: nat)
    requires i < |mask|
    ensures r <= i + 1
  {
    Rank(Not(mask), i + 1)
  }

  /** A selected lane has as many lanes to move past as there are unselected lanes before it. */
  lemma {:induction false} SelectedTotal(mask: Word, p: nat)
    requires p < |mask| && mask[p]
    ensures Total(mask, p) == p - Rank(mask, p)
  {
    RankNot(mask, p + 1);
  }

  /** How far the lowest j digits of lane p's total move it. */
  function Moved(mask: Word, p: nat, j: nat): (r: nat)
    requires p < |mask|
    ensures r <= Total(mask, p)
  {
    ModLe(Total(mask, p), Pow2(j));
    Total(mask, p) % Pow2(j)
  }

  /** The lane reached after the low j digits of the moves has the same remaining digits in its total. */
  lemma {:induction false} TotalsAgree(mask: Word, p: nat, j: nat)
    requires p < |mask| && mask[p]
    ensures Moved(mask, p, j) <= p
    ensures Total(mask, p - Moved(mask, p, j)) / Pow2(j) == Total(mask, p) / Pow2(j)
  {
    var s, rest := Moved(mask, p, j), Not(mask);
    SelectedTotal(mask, p);
    if s > 0 {
      RankMonotone(rest, p - s + 1, p);
    }
    SameQuotient(Total(mask, p), Total(mask, p - s), Pow2(j));
  }

  lemma SameDigit(x: nat, y: nat, j: nat)
    requires x / Pow2(j) == y / Pow2(j)
    ensures NumBit(x, j) == NumBit(y, j)
  {
  }

  /** One more digit. */
  lemma {:induction false} MovedStep(mask: Word, p: nat, j: nat)
    requires p < |mask|
    ensures Moved(mask, p, j + 1) == Moved(mask, p, j) + if NumBit(Total(mask, p), j) then Pow2(j) else 0
  {
    ModDouble(Total(mask, p), Pow2(j));
  }

  lemma {:induction false} MovedAll(mask: Word, p: nat, j: nat)
    requires p < |mask| <= Pow2(j) && mask[p]
    ensures Moved(mask, p, j) == p - Rank(mask, p)
  {
    SelectedTotal(mask, p);
    SmallMod(Total(mask, p), Pow2(j));
  }

  /** Lanes never catch up with one another. */
  lemma {:induction false} MovedInOrder(mask: Word, p: nat, p': nat, j: nat)
    requires p < p' < |mask| && mask[p] && mask[p']
    ensures p - Moved(mask, p, j) < p' - Moved(mask, p', j)
  {
    SelectedTotal(mask, p);
    SelectedTotal(mask, p');
    RankStrict(mask, p, p');
    RankMonotone(mask, p, p');
    RemainderGap(Total(mask, p), Total(mask, p'), p' - p - 1, Pow2(j));
  }

  // ------------------------------------------------------------------ compress

  /** Lane p's data is at lane q after j digits. */
  ghost predicate DataAt(mask: Word, j: nat, p: nat, q: nat) {
    p < |mask| && mask[p] && p - Moved(mask, p, j) == q
  }

  ghost predicate Occupied(mask: Word, j: nat, q: nat) {
    exists p :: 0 <= p < |mask| && DataAt(mask, j, p, q)
  }

  /** The selected data is where the low j digits of the totals put it, and nothing else is left. */
  ghost predicate Placed(sel: seq<Word>, a: seq<Word>, mask: Word, j: nat, fw: nat)
    requires |a| == |mask|
  {
    && |sel| == |a|
    && (forall p, q :: 0 <= p < |a| && 0 <= q < |a| && DataAt(mask, j, p, q) ==> sel[q] == a[p])
    && (forall q :: 0 <= q < |a| && !Occupied(mask, j, q) ==> sel[q] == Zeros(fw))
  }

  /** x without its low j digits. */
  function Rounded(x: nat, j: nat): (r: nat)
    ensures r <= x
  {
    ModLe(x, Pow2(j));
    x - x % Pow2(j)
  }

  /** The totals with the low j digits already used up. */
  ghost predicate Remaining(totals: seq<nat>, mask: Word, j: nat) {
    && |totals| == |mask|
    && forall q :: 0 <= q < |mask| ==> totals[q] == Rounded(Total(mask, q), j)
  }

  function DropDigit(totals: seq<nat>, j: nat): (r: seq<nat>)
    ensures |r| == |totals|
  {
    seq(|totals|, i requires 0 <= i < |totals| =>
      if NumBit(totals[i], j) && totals[i] >= Pow2(j) then totals[i] - Pow2(j) else totals[i])
  }

  lemma {:induction false} DigitOfRemaining(x: nat, j: nat)
    ensures NumBit(Rounded(x, j), j) == NumBit(x, j)
    ensures NumBit(x, j) ==> Rounded(x, j) >= Pow2(j)
    ensures Rounded(x, j + 1) == Rounded(x, j) - if NumBit(x, j) then Pow2(j) else 0
  {
    ModLe(x, Pow2(j));
    ModDouble(x, Pow2(j));
    SameQuotient(x, Rounded(x, j), Pow2(j));
    if NumBit(x, j) { HasDigit(x, Pow2(j)); }
  }

  lemma {:induction false} HasDigit(x: nat, d: nat)
    requires d > 0 && x / d > 0
    ensures x - x % d >= d
  {
    MulMonotone(1, x / d, d);
    assert x == (x / d) * d + x % d;
  }

  lemma {:induction false} DropDigitRemaining(totals: seq<nat>, mask: Word, j: nat)
    requires Remaining(totals, mask, j)
    ensures Remaining(DropDigit(totals, j), mask, j + 1)
  {
    forall q | 0 <= q < |mask|
      ensures DropDigit(totals, j)[q] == Rounded(Total(mask, q), j + 1)
    {
      DigitOfRemaining(Total(mask, q), j);
    }
  }

  /** One round: the lanes whose total has digit j move down by 2^j. */
  function CompressRound(sel: seq<Word>, totals: seq<nat>, j: nat, fw: nat): (r: seq<Word>)
    requires |sel| == |totals| && Lanes(sel, fw)
    ensures |r| == |sel| && Lanes(r, fw)
  {
    var shiftMask := seq(|sel|, i requires 0 <= i < |sel| => NumBit(totals[i], j));
    var toShift := SimdAnd(LaneMask(shiftMask, fw), sel, fw);
    var shifted := LanesDown(toShift, Pow2(j), fw);
    SimdOr(shifted, SimdXor(sel, toShift, fw), fw)
  }

  /** What a round brings to lane q, and what it leaves there. */
  function Incoming(sel: seq<Word>, totals: seq<nat>, j: nat, fw: nat, q: nat): (r: Word)
    requires |sel| == |totals| && Lanes(sel, fw)
    ensures |r| == fw
  {
    if q + Pow2(j) < |sel| && NumBit(totals[q + Pow2(j)], j) then sel[q + Pow2(j)] else Zeros(fw)
  }

  function KeptBack(sel: seq<Word>, totals: seq<nat>, j: nat, fw: nat, q: nat): (r: Word)
    requires |sel| == |totals| && Lanes(sel, fw) && q < |sel|
    ensures |r| == fw
  {
    if NumBit(totals[q], j) then Zeros(fw) else sel[q]
  }

  lemma {:induction false} RoundLane(sel: seq<Word>, totals: seq<nat>, j: nat, fw: nat, q: nat)
    requires |sel| == |totals| && Lanes(sel, fw) && q < |sel|
    ensures CompressRound(sel, totals, j, fw)[q] == Or(Incoming(sel, totals, j, fw, q), KeptBack(sel, totals, j, fw, q))
  {
    var shiftMask := seq(|sel|, i requires 0 <= i < |sel| => NumBit(totals[i], j));
    MaskedLane(sel[q], LaneMask(shiftMask, fw)[q], shiftMask[q], fw);
    if q + Pow2(j) < |sel| {
      MaskedLane(sel[q + Pow2(j)], LaneMask(shiftMask, fw)[q + Pow2(j)], shiftMask[q + Pow2(j)], fw);
    }
  }

  lemma MaskedLane(x: Word, keep: Word, on: bool, fw: nat)
    requires |x| == |keep| == fw && forall j :: 0 <= j < fw ==> keep[j] == on
    ensures And(keep, x) == if on then x else Zeros(fw)
    ensures Xor(x, And(keep, x)) == if on then Zeros(fw) else x
  {
  }

  /** The digit found where lane p's data is now is the digit of lane p's own total. */
  lemma {:induction false} DigitOnTheWay(mask: Word, totals: seq<nat>, j: nat, p: nat, q: nat)
    requires Remaining(totals, mask, j) && q < |mask| && DataAt(mask, j, p, q)
    ensures NumBit(totals[q], j) == NumBit(Total(mask, p), j)
    ensures DataAt(mask, j + 1, p, if NumBit(totals[q], j) then q - Pow2(j) else q)
  {
    TotalsAgree(mask, p, j);
    DigitOfRemaining(Total(mask, q), j);
    SameDigit(Total(mask, p), Total(mask, q), j);
    MovedStep(mask, p, j);
  }

  lemma {:induction false} SameHolder(mask: Word, j: nat, p: nat, p': nat, q: nat)
    requires DataAt(mask, j, p, q) && DataAt(mask, j, p', q)
    ensures p == p'
  {
    if p < p' { MovedInOrder(mask, p, p', j); }
    if p' < p { MovedInOrder(mask, p', p, j); }
  }

  /** The state between two rounds. */
  ghost predicate RoundState(sel: seq<Word>, a: seq<Word>, mask: Word, totals: seq<nat>, j: nat, fw: nat) {
    |a| == |mask| && Lanes(sel, fw) && Placed(sel, a, mask, j, fw) && Remaining(totals, mask, j)
  }

  /** A lane that only data moving to q could come from. */
  lemma {:induction false} NobodyElse(sel: seq<Word>, a: seq<Word>, mask: Word, totals: seq<nat>, j: nat, fw: nat,
                                      q: nat, u: nat, p: nat)
    requires RoundState(sel, a, mask, totals, j, fw) && u < |a|
    requires q == if NumBit(totals[u], j) then u - Pow2(j) else u
    requires DataAt(mask, j + 1, p, q) && !DataAt(mask, j, p, u)
    ensures sel[u] == Zeros(fw)
  {
    if Occupied(mask, j, u) {
      var v :| 0 <= v < |mask| && DataAt(mask, j, v, u);
      DigitOnTheWay(mask, totals, j, v, u);
      SameHolder(mask, j + 1, p, v, q);
    }
  }

  lemma {:induction false} Stayed(sel: seq<Word>, a: seq<Word>, mask: Word, totals: seq<nat>, j: nat, fw: nat, p: nat,
                                  q: nat)
    requires RoundState(sel, a, mask, totals, j, fw) && q < |a|
    requires DataAt(mask, j, p, q) && DataAt(mask, j + 1, p, q)
    ensures KeptBack(sel, totals, j, fw, q) == a[p] && Incoming(sel, totals, j, fw, q) == Zeros(fw)
  {
    DigitOnTheWay(mask, totals, j, p, q);
    var q' := q + Pow2(j);
    if q' < |a| && NumBit(totals[q'], j) { NobodyElse(sel, a, mask, totals, j, fw, q, q', p); }
  }

  lemma {:induction false} Arrived(sel: seq<Word>, a: seq<Word>, mask: Word, totals: seq<nat>, j: nat, fw: nat, p: nat,
                                   q: nat)
    requires RoundState(sel, a, mask, totals, j, fw) && q < |a|
    requires q + Pow2(j) < |a| && DataAt(mask, j, p, q + Pow2(j)) && DataAt(mask, j + 1, p, q)
    ensures Incoming(sel, totals, j, fw, q) == a[p] && KeptBack(sel, totals, j, fw, q) == Zeros(fw)
  {
    DigitOnTheWay(mask, totals, j, p, q + Pow2(j));
    if !NumBit(totals[q], j) { NobodyElse(sel, a, mask, totals, j, fw, q, q, p); }
  }

  lemma {:induction false} ArrivedOrStayed(sel: seq<Word>, a: seq<Word>, mask: Word, totals: seq<nat>, j: nat, fw: nat,
                                           p: nat, q: nat)
    requires RoundState(sel, a, mask, totals, j, fw) && q < |a| && DataAt(mask, j + 1, p, q)
    ensures CompressRound(sel, totals, j, fw)[q] == a[p]
  {
    RoundLane(sel, totals, j, fw, q);
    MovedStep(mask, p, j);
    if NumBit(Total(mask, p), j) {
      Arrived(sel, a, mask, totals, j, fw, p, q);
      OrZero(Incoming(sel, totals, j, fw, q), fw);
    } else {
      Stayed(sel, a, mask, totals, j, fw, p, q);
      OrZero(KeptBack(sel, totals, j, fw, q), fw);
    }
  }

  lemma {:induction false} NobodyLeft(sel: seq<Word>, a: seq<Word>, mask: Word, totals: seq<nat>, j: nat, fw: nat,
                                      q: nat, u: nat)
    requires RoundState(sel, a, mask, totals, j, fw) && u < |a|
    requires q == if NumBit(totals[u], j) then u - Pow2(j) else u
    requires !Occupied(mask, j + 1, q)
    ensures sel[u] == Zeros(fw)
  {
    if Occupied(mask, j, u) {
      var v :| 0 <= v < |mask| && DataAt(mask, j, v, u);
      DigitOnTheWay(mask, totals, j, v, u);
    }
  }

  lemma {:induction false} LeftEmpty(sel: seq<Word>, a: seq<Word>, mask: Word, totals: seq<nat>, j: nat, fw: nat,
                                     q: nat)
    requires RoundState(sel, a, mask, totals, j, fw) && q < |a| && !Occupied(mask, j + 1, q)
    ensures Incoming(sel, totals, j, fw, q) == Zeros(fw) && KeptBack(sel, totals, j, fw, q) == Zeros(fw)
  {
    var q' := q + Pow2(j);
    if q' < |a| && NumBit(totals[q'], j) { NobodyLeft(sel, a, mask, totals, j, fw, q, q'); }
    if !NumBit(totals[q], j) { NobodyLeft(sel, a, mask, totals, j, fw, q, q); }
  }

  lemma {:induction false} RoundPlaces(sel: seq<Word>, a: seq<Word>, mask: Word, totals: seq<nat>, j: nat, fw: nat)
    requires RoundState(sel, a, mask, totals, j, fw)
    ensures Placed(CompressRound(sel, totals, j, fw), a, mask, j + 1, fw)
  {
    var r := CompressRound(sel, totals, j, fw);
    forall p, q | 0 <= p < |a| && 0 <= q < |a| && DataAt(mask, j + 1, p, q)
      ensures r[q] == a[p]
    {
      ArrivedOrStayed(sel, a, mask, totals, j, fw, p, q);
    }
    forall q | 0 <= q < |a| && !Occupied(mask, j + 1, q)
      ensures r[q] == Zeros(fw)
    {
      LeftEmpty(sel, a, mask, totals, j, fw, q);
      RoundLane(sel, totals, j, fw, q);
      OrZero(Zeros(fw), fw);
    }
  }

  lemma {:induction false} PlacedIsCompress(sel: seq<Word>, a: seq<Word>, mask: Word, j: nat, fw: nat)
    requires |a| == |mask| <= Pow2(j) && Placed(sel, a, mask, j, fw)
    ensures sel == Compress(a, mask, fw)
  {
    forall q | 0 <= q < |a|
      ensures sel[q] == Compress(a, mask, fw)[q]
    {
      CompressAt(a, mask, fw, q);
      if q < Pop(mask) {
        var p := Select(mask, q);
        MovedAll(mask, p, j);
        assert DataAt(mask, j, p, q);
      } else if Occupied(mask, j, q) {
        var p :| 0 <= p < |mask| && DataAt(mask, j, p, q);
        MovedAll(mask, p, j);
        RankBelowPop(mask, p);
      }
    }
  }

  /** The totals as the code computes them: a running sum of one per unselected lane. */
  method RunningTotals(mask: Word, m: nat) returns (totals: seq<nat>)
    requires |mask| < m
    ensures |totals| == |mask| && forall q :: 0 <= q < |mask| ==> totals[q] == Total(mask, q)
  {
    var counts := seq(|mask|, i requires 0 <= i < |mask| => Bit(Not(mask)[i]));
    SmallOnes(Not(mask), counts, m);
    totals := PartialSum(counts, m);
    forall q | 0 <= q < |mask|
      ensures totals[q] == Total(mask, q)
    {
      SumOfBits(Not(mask), counts, q + 1);
      SmallMod(Total(mask, q), m);
    }
  }

  lemma {:induction false} StartLane(a: seq<Word>, mask: Word, fw: nat, q: nat)
    requires |a| == |mask| && Lanes(a, fw) && q < |a|
    ensures SimdAnd(a, LaneMask(mask, fw), fw)[q] == if mask[q] then a[q] else Zeros(fw)
    ensures Moved(mask, q, 0) == 0
  {
    KeepLane(a[q], LaneMask(mask, fw)[q], mask[q], fw);
  }

  lemma {:induction false} StartPlaced(a: seq<Word>, mask: Word, totals: seq<nat>, fw: nat)
    requires |a| == |mask| == |totals| && Lanes(a, fw)
    requires forall q :: 0 <= q < |mask| ==> totals[q] == Total(mask, q)
    ensures RoundState(SimdAnd(a, LaneMask(mask, fw), fw), a, mask, totals, 0, fw)
  {
    var sel := SimdAnd(a, LaneMask(mask, fw), fw);
    forall p, q | 0 <= p < |a| && 0 <= q < |a| && DataAt(mask, 0, p, q)
      ensures sel[q] == a[p]
    {
      StartLane(a, mask, fw, p);
    }
    forall q | 0 <= q < |a| && !Occupied(mask, 0, q)
      ensures sel[q] == Zeros(fw)
    {
      StartLane(a, mask, fw, q);
      if mask[q] { assert DataAt(mask, 0, q, q); }
    }
  }

  /** The generic mvmd_compress. */
  method GenericCompress(a: seq<Word>, mask: Word, fw: nat, m: nat) returns (selected: seq<Word>)
    requires |a| == |mask| < m && Lanes(a, fw)
    ensures selected == Compress(a, mask, fw)
  {
    selected := SimdAnd(a, LaneMask(mask, fw), fw);
    var deletionTotals := RunningTotals(mask, m);
    StartPlaced(a, mask, deletionTotals, fw);
    var shiftAmount, j := 1, 0;
    while shiftAmount < |a|
      invariant shiftAmount == Pow2(j) && RoundState(selected, a, mask, deletionTotals, j, fw)
      decreases |a| - shiftAmount
    {
      RoundPlaces(selected, a, mask, deletionTotals, j, fw);
      DropDigitRemaining(deletionTotals, mask, j);
      selected := CompressRound(selected, deletionTotals, j, fw);
      deletionTotals := DropDigit(deletionTotals, j);
      shiftAmount, j := shiftAmount * 2, j + 1;
    }
    PlacedIsCompress(selected, a, mask, j, fw);
  }

  // ------------------------------------------------------------------ expand

  /** The data wanted at selected lane p is at the lane its low j digits still have to bring it from. */
  ghost predicate Pending(pending: seq<Word>, a: seq<Word>, mask: Word, j: nat)
    requires |a| == |mask|
  {
    && |pending| == |a|
    && forall p :: 0 <= p < |a| && mask[p] ==>
         Moved(mask, p, j) <= p && pending[p - Moved(mask, p, j)] == a[Rank(mask, p)]
  }

  /** The moves lane q still expects: the digits below j of its total, and the total itself if it is 2^m. */
  function Expected(mask: Word, q: nat, j: nat, m: nat): (r: nat)
    requires q < |mask|
  {
    if Total(mask, q) == Pow2(m) then Pow2(m) else Moved(mask, q, j)
  }

  ghost predicate Expectations(movements: seq<nat>, mask: Word, j: nat, m: nat) {
    |movements| == |mask| && forall q :: 0 <= q < |mask| ==> movements[q] == Expected(mask, q, j, m)
  }

  /** The results so far: a selected lane is empty or finished, and finished once nothing is expected. */
  ghost predicate Collected(result: seq<Word>, a: seq<Word>, mask: Word, fw: nat)
    requires |a| == |mask|
  {
    && |result| == |a|
    && forall p :: 0 <= p < |a| && mask[p] ==> result[p] == Zeros(fw) || result[p] == a[Rank(mask, p)]
  }

  /** The digits of the moves that have value `shift`: bit j, or nothing when shift is zero. */
  function ShiftSelect(movements: seq<nat>, j: nat, shift: nat): (r: seq<nat>)
    ensures |r| == |movements|
  {
    seq(|movements|, i requires 0 <= i < |movements| => if shift != 0 && NumBit(movements[i], j) then shift else 0)
  }

  function PendingRound(pending: seq<Word>, select: seq<nat>, shift: nat, fw: nat): (r: seq<Word>)
    requires |pending| == |select| && Lanes(pending, fw)
    ensures |r| == |pending| && Lanes(r, fw)
  {
    var shiftMask := LaneMask(seq(|select|, i requires 0 <= i < |select| => select[i] == shift), fw);
    var shifted := SimdAnd(LanesUp(pending, shift, fw), shiftMask, fw);
    SimdOr(SimdAnd(pending, SimdNot(shiftMask, fw), fw), shifted, fw)
  }

  function ClearDigit(movements: seq<nat>, select: seq<nat>): (r: seq<nat>)
    requires |movements| == |select|
    ensures |r| == |movements|
  {
    seq(|movements|, i requires 0 <= i < |movements| =>
      if select[i] <= movements[i] then movements[i] - select[i] else 0)
  }

  function KeepRound(result: seq<Word>, pending: seq<Word>, movements: seq<nat>, select: seq<nat>,
                     fw: nat): (r: seq<Word>)
    requires |result| == |pending| == |movements| == |select| && Lanes(pending, fw) && Lanes(result, fw)
    ensures |r| == |result| && Lanes(r, fw)
  {
    var keepMask := LaneMask(seq(|select|, i requires 0 <= i < |select| => movements[i] == select[i]), fw);
    SimdOr(result, SimdAnd(pending, keepMask, fw), fw)
  }

  lemma {:induction false} PendingLane(pending: seq<Word>, select: seq<nat>, shift: nat, fw: nat, q: nat)
    requires |pending| == |select| && Lanes(pending, fw) && q < |pending|
    ensures PendingRound(pending, select, shift, fw)[q]
         == if select[q] == shift then LaneFrom(pending, q, shift, fw) else pending[q]
  {
    var on := seq(|select|, i requires 0 <= i < |select| => select[i] == shift);
    var mask := LaneMask(on, fw);
    var up := LanesUp(pending, shift, fw)[q];
    KeepLane(up, mask[q], on[q], fw);
    KeepLane(pending[q], Not(mask[q]), !on[q], fw);
    OrZero(up, fw);
    OrZero(pending[q], fw);
  }

  lemma {:induction false} KeptLane(result: seq<Word>, pending: seq<Word>, movements: seq<nat>, select: seq<nat>,
                                    fw: nat, q: nat)
    requires |result| == |pending| == |movements| == |select| && Lanes(pending, fw) && Lanes(result, fw) && q < |result|
    ensures KeepRound(result, pending, movements, select, fw)[q]
         == if movements[q] == select[q] then Or(result[q], pending[q]) else result[q]
  {
    var on := seq(|select|, i requires 0 <= i < |select| => movements[i] == select[i]);
    KeepLane(pending[q], LaneMask(on, fw)[q], on[q], fw);
    OrZero(result[q], fw);
  }

  lemma {:induction false} EvenMultiple(h: nat, d: nat)
    requires d > 0 && h > 0
    ensures (h * (2 * d)) / d % 2 == 0 && (h * (2 * d)) % d == 0 && 2 * d <= h * (2 * d)
  {
    assert h * (2 * d) == (2 * h) * d + 0;
    ModUnique(h * (2 * d), d, 2 * h, 0);
    MulMonotone(1, h, 2 * d);
  }

  lemma {:induction false} PowerLess(j: nat, m: nat)
    requires j < m
    ensures 2 * Pow2(j) <= Pow2(m) && Pow2(m) % Pow2(j) == 0 && !NumBit(Pow2(m), j)
  {
    Pow2Add(m - j - 1, j + 1);
    EvenMultiple(Pow2(m - j - 1), Pow2(j));
  }

  /** Digit j of what lane q expects is digit j of its total. */
  lemma {:induction false} ExpectedDigit(mask: Word, q: nat, j: nat, m: nat)
    requires q < |mask| <= Pow2(m) && j < m
    ensures NumBit(Expected(mask, q, j + 1, m), j) == NumBit(Total(mask, q), j)
    ensures Expected(mask, q, j, m)
         == Expected(mask, q, j + 1, m) - if NumBit(Expected(mask, q, j + 1, m), j) then Pow2(j) else 0
  {
    var t := Total(mask, q);
    if t == Pow2(m) {
      PowerLess(j, m);
    } else {
      MovedStep(mask, q, j);
      LowDigit(t, j);
    }
  }

  lemma {:induction false} LowDigit(t: nat, j: nat)
    ensures NumBit(t % Pow2(j + 1), j) == NumBit(t, j)
  {
    ModDouble(t, Pow2(j));
    var d, low := Pow2(j), t % Pow2(j);
    assert low < d;
    if NumBit(t, j) { DivIs(d + low, d, 1, low); } else { DivIs(low, d, 0, low); }
  }

  /** One round of moves with digit j: what was pending for j + 1 digits is pending for j digits. */
  lemma {:induction false} PendingStep(pending: seq<Word>, a: seq<Word>, mask: Word, select: seq<nat>, j: nat, fw: nat,
                                       p: nat)
    requires |a| == |mask| == |select| && Lanes(pending, fw) && Pending(pending, a, mask, j + 1)
    requires forall q :: 0 <= q < |mask| ==> (select[q] == Pow2(j) <==> NumBit(Total(mask, q), j))
    requires p < |a| && mask[p]
    ensures Moved(mask, p, j) <= p
    ensures PendingRound(pending, select, Pow2(j), fw)[p - Moved(mask, p, j)] == a[Rank(mask, p)]
  {
    TotalsAgree(mask, p, j);
    MovedStep(mask, p, j);
    var q := p - Moved(mask, p, j);
    SameDigit(Total(mask, p), Total(mask, q), j);
    PendingLane(pending, select, Pow2(j), fw, q);
  }

  lemma {:induction false} PendingStart(a: seq<Word>, mask: Word, m: nat)
    requires |a| == |mask| <= Pow2(m)
    ensures Pending(a, a, mask, m)
  {
    forall p | 0 <= p < |a| && mask[p]
      ensures Moved(mask, p, m) <= p && a[p - Moved(mask, p, m)] == a[Rank(mask, p)]
    {
      MovedAll(mask, p, m);
    }
  }

  lemma {:induction false} ExpectedStart(mask: Word, q: nat, m: nat)
    requires q < |mask| <= Pow2(m)
    ensures Expected(mask, q, m, m) == Total(mask, q)
  {
    if Total(mask, q) < Pow2(m) { SmallMod(Total(mask, q), Pow2(m)); }
  }

  /** The state between two rounds of the expansion: digits from m - 1 down to j are done. */
  ghost predicate ExpandState(result: seq<Word>, pending: seq<Word>, movements: seq<nat>, a: seq<Word>, mask: Word,
                              j: nat, m: nat, fw: nat) {
    && |a| == |mask| == Pow2(m) && Lanes(pending, fw) && Lanes(result, fw) && Lanes(a, fw)
    && Pending(pending, a, mask, j) && Expectations(movements, mask, j, m) && Collected(result, a, mask, fw)
  }

  /** A lane that expects nothing more has its data. */
  lemma {:induction false} FinishedLane(result: seq<Word>, pending: seq<Word>, movements: seq<nat>, a: seq<Word>,
                                        mask: Word, j: nat, m: nat, fw: nat, p: nat)
    requires ExpandState(result, pending, movements, a, mask, j, m, fw) && p < |a| && mask[p]
    ensures movements[p] == Moved(mask, p, j)
    ensures movements[p] == 0 ==> pending[p] == a[Rank(mask, p)]
  {
    SelectedTotal(mask, p);
  }

  /** Keeping such a lane keeps the right data. */
  lemma {:induction false} CollectStep(result: seq<Word>, pending: seq<Word>, after: seq<nat>, select: seq<nat>,
                                       fw: nat, p: nat, x: Word)
    requires |result| == |pending| == |after| == |select| && Lanes(pending, fw) && Lanes(result, fw) && p < |result|
    requires after[p] == select[p] ==> pending[p] == x
    requires |x| == fw && (result[p] == Zeros(fw) || result[p] == x)
    ensures var r := KeepRound(result, pending, after, select, fw)[p];
            (r == Zeros(fw) || r == x) && (after[p] == select[p] ==> r == x)
  {
    KeptLane(result, pending, after, select, fw, p);
    OrZero(x, fw);
  }

  /** What the last round leaves: every selected lane holds its data. */
  ghost predicate AllCollected(result: seq<Word>, a: seq<Word>, mask: Word)
    requires |a| == |mask|
  {
    |result| == |a| && forall p :: 0 <= p < |a| && mask[p] ==> result[p] == a[Rank(mask, p)]
  }

  lemma {:induction false} DigitSelected(movements: seq<nat>, mask: Word, j: nat, m: nat, q: nat)
    requires j < m && |mask| <= Pow2(m) && Expectations(movements, mask, j + 1, m) && q < |mask|
    ensures var select := ShiftSelect(movements, j, Pow2(j));
            && (select[q] == Pow2(j) <==> NumBit(Total(mask, q), j))
            && (select[q] == 0 || select[q] == Pow2(j))
            && ClearDigit(movements, select)[q] == Expected(mask, q, j, m)
  {
    ExpectedDigit(mask, q, j, m);
  }

  lemma {:induction false} DigitRoundLane(result: seq<Word>, pending: seq<Word>, movements: seq<nat>, a: seq<Word>,
                                          mask: Word, j: nat, m: nat, fw: nat, p: nat)
    requires j < m && ExpandState(result, pending, movements, a, mask, j + 1, m, fw) && p < |a| && mask[p]
    ensures |result| == |pending| == |movements|
    ensures var select := ShiftSelect(movements, j, Pow2(j));
            var r := KeepRound(result, pending, ClearDigit(movements, select), select, fw)[p];
            r == Zeros(fw) || r == a[Rank(mask, p)]
  {
    var select := ShiftSelect(movements, j, Pow2(j));
    var after := ClearDigit(movements, select);
    DigitSelected(movements, mask, j, m, p);
    FinishedLane(result, pending, movements, a, mask, j + 1, m, fw, p);
    SelectedTotal(mask, p);
    MovedBound(mask, p, j);
    CollectStep(result, pending, after, select, fw, p, a[Rank(mask, p)]);
  }

  /** A round with digit j. */
  lemma {:induction false} DigitRound(result: seq<Word>, pending: seq<Word>, movements: seq<nat>, a: seq<Word>,
                                      mask: Word, j: nat, m: nat, fw: nat)
    requires j < m && ExpandState(result, pending, movements, a, mask, j + 1, m, fw)
    ensures |result| == |pending| == |movements|
    ensures var select := ShiftSelect(movements, j, Pow2(j));
            var after := ClearDigit(movements, select);
            ExpandState(KeepRound(result, pending, after, select, fw),
                        PendingRound(pending, select, Pow2(j), fw), after,
                        a, mask, j, m, fw)
  {
    var select := ShiftSelect(movements, j, Pow2(j));
    forall q | 0 <= q < |mask|
      ensures select[q] == Pow2(j) <==> NumBit(Total(mask, q), j)
      ensures ClearDigit(movements, select)[q] == Expected(mask, q, j, m)
    {
      DigitSelected(movements, mask, j, m, q);
    }
    forall p | 0 <= p < |a| && mask[p]
      ensures Moved(mask, p, j) <= p
      ensures PendingRound(pending, select, Pow2(j), fw)[p - Moved(mask, p, j)] == a[Rank(mask, p)]
    {
      PendingStep(pending, a, mask, select, j, fw, p);
    }
    var kept := KeepRound(result, pending, ClearDigit(movements, select), select, fw);
    forall p | 0 <= p < |a| && mask[p]
      ensures kept[p] == Zeros(fw) || kept[p] == a[Rank(mask, p)]
    {
      DigitRoundLane(result, pending, movements, a, mask, j, m, fw, p);
    }
  }

  lemma MovedBound(mask: Word, p: nat, j: nat)
    requires p < |mask|
    ensures Moved(mask, p, j) < Pow2(j)
  {
  }

  /** The round with shift zero, which keeps every lane that expects nothing more. */
  lemma {:induction false} LastRound(result: seq<Word>, pending: seq<Word>, movements: seq<nat>, a: seq<Word>,
                                     mask: Word, m: nat, fw: nat)
    requires ExpandState(result, pending, movements, a, mask, 0, m, fw)
    ensures |result| == |pending| == |movements|
    ensures var select := ShiftSelect(movements, 0, 0);
            AllCollected(KeepRound(result, pending, ClearDigit(movements, select), select, fw), a, mask)
  {
    var select := ShiftSelect(movements, 0, 0);
    var after := ClearDigit(movements, select);
    forall p | 0 <= p < |a| && mask[p]
      ensures KeepRound(result, pending, after, select, fw)[p] == a[Rank(mask, p)]
    {
      FinishedLane(result, pending, movements, a, mask, 0, m, fw, p);
      MovedBound(mask, p, 0);
      CollectStep(result, pending, after, select, fw, p, a[Rank(mask, p)]);
    }
  }

  lemma {:induction false} StartExpand(a: seq<Word>, mask: Word, movements: seq<nat>, m: nat, fw: nat)
    requires |a| == |mask| == Pow2(m) && |movements| == |mask| && Lanes(a, fw)
    requires forall q :: 0 <= q < |mask| ==> movements[q] == Total(mask, q)
    ensures ExpandState(ZeroLanes(|a|, fw), a, movements, a, mask, m, m, fw)
  {
    PendingStart(a, mask, m);
    forall q | 0 <= q < |mask|
      ensures movements[q] == Expected(mask, q, m, m)
    {
      ExpectedStart(mask, q, m);
    }
  }

  /** The three registers that a round of the expansion updates. */
  datatype Regs = Regs(result: seq<Word>, pending: seq<Word>, movements: seq<nat>)
  {
    ghost predicate Shape(n: nat, fw: nat) {
      |result| == |pending| == |movements| == n && Lanes(result, fw) && Lanes(pending, fw)
    }
  }

  function ExpandRound(regs: Regs, j: nat, shift: nat, n: nat, fw: nat): (r: Regs)
    requires regs.Shape(n, fw)
    ensures r.Shape(n, fw)
  {
    var select := ShiftSelect(regs.movements, j, shift);
    var movements := ClearDigit(regs.movements, select);
    Regs(KeepRound(regs.result, regs.pending, movements, select, fw), PendingRound(regs.pending, select, shift, fw),
         movements)
  }

  /** Before the round that halves `shift`, and after the last one. */
  ghost predicate RoundGoal(regs: Regs, a: seq<Word>, mask: Word, j: nat, shift: nat, m: nat, fw: nat) {
    && |a| == |mask| && regs.Shape(|a|, fw) && j <= m
    && (shift > 0 ==> shift == Pow2(j) && ExpandState(regs.result, regs.pending, regs.movements, a, mask, j, m, fw))
    && (shift == 0 ==> AllCollected(regs.result, a, mask))
  }

  lemma {:induction false} DigitGoal(regs: Regs, a: seq<Word>, mask: Word, j: nat, m: nat, fw: nat)
    requires j < m && regs.Shape(|a|, fw)
    requires ExpandState(regs.result, regs.pending, regs.movements, a, mask, j + 1, m, fw)
    ensures RoundGoal(ExpandRound(regs, j, Pow2(j), |a|, fw), a, mask, j, Pow2(j), m, fw)
  {
    DigitRound(regs.result, regs.pending, regs.movements, a, mask, j, m, fw);
  }

  lemma {:induction false} LastGoal(regs: Regs, a: seq<Word>, mask: Word, m: nat, fw: nat)
    requires regs.Shape(|a|, fw) && ExpandState(regs.result, regs.pending, regs.movements, a, mask, 0, m, fw)
    ensures RoundGoal(ExpandRound(regs, 0, 0, |a|, fw), a, mask, 0, 0, m, fw)
  {
    LastRound(regs.result, regs.pending, regs.movements, a, mask, m, fw);
  }

  /** The generic mvmd_expand, for a power-of-two number of lanes. */
  method GenericExpand(a: seq<Word>, mask: Word, m: nat, fw: nat, modulus: nat) returns (r: seq<Word>)
    requires |a| == |mask| == Pow2(m) < modulus && Lanes(a, fw)
    ensures r == Expand(a, mask, fw)
  {
    var movements := RunningTotals(mask, modulus);
    var regs := Regs(ZeroLanes(|a|, fw), a, movements);
    StartExpand(a, mask, movements, m, fw);
    var shiftAmount: nat, j: nat := |a|, m;
    while shiftAmount > 0
      invariant RoundGoal(regs, a, mask, j, shiftAmount, m, fw)
    {
      shiftAmount := shiftAmount / 2;
      if j > 0 {
        j := j - 1;
        DigitGoal(regs, a, mask, j, m, fw);
      } else {
        LastGoal(regs, a, mask, m, fw);
      }
      regs := ExpandRound(regs, j, shiftAmount, |a|, fw);
    }
    r := SimdAnd(regs.result, LaneMask(mask, fw), fw);
    CollectedIsExpand(regs.result, a, mask, fw);
  }

  lemma {:induction false} CollectedIsExpand(result: seq<Word>, a: seq<Word>, mask: Word, fw: nat)
    requires |a| == |mask| && Lanes(result, fw) && AllCollected(result, a, mask)
    ensures SimdAnd(result, LaneMask(mask, fw), fw) == Expand(a, mask, fw)
  {
    forall p | 0 <= p < |a|
      ensures SimdAnd(result, LaneMask(mask, fw), fw)[p] == Expand(a, mask, fw)[p]
    {
      KeepLane(result[p], LaneMask(mask, fw)[p], mask[p], fw);
      if mask[p] {
        RankBelowPop(mask, p);
        assert result[p] == a[Rank(mask, p)];
      }
    }
  }
}
