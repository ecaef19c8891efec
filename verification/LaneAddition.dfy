/** Addition of a whole block from independent lane sums.

    Every lane is added on its own; a mask of lane overflows and a mask of all-ones lane sums
    ("bubbles") are then combined by one short integer addition that finds every lane to increment.
    `LaneCarry` is the reference definition of the carry into a lane. */
module LaneAddition {
  import opened BitWords

  /** The integer a block stands for: lane i has weight 2^(w*i). */
  function BlockVal(e: seq<Word>, w: nat): nat {
    if |e| == 0 then 0 else Val(e[0]) + Pow2(w) * BlockVal(e[1..], w)
  }

  function Power(b: nat, n: nat): nat {
    if n == 0 then 1 else b * Power(b, n - 1)
  }

  // ----- lane operations

  /** simd_add: lane sums modulo 2^w. */
  function SimdAdd(a: seq<Word>, b: seq<Word>): (r: seq<Word>)
    requires |a| == |b| && forall i :: 0 <= i < |a| ==> |a[i]| == |b[i]|
    ensures |r| == |a| && forall i :: 0 <= i < |a| ==> |r[i]| == |a[i]|
  {
    seq(|a|, i requires 0 <= i < |a| => Add(a[i], b[i]))
  }

  /** The lane overflow word: its top bit is the carry out of the lane sum s = a + b. */
  function DigitCarry(a: Word, b: Word, s: Word): (r: Word)
    requires |a| == |b| == |s|
    ensures |r| == |a|
  {
    Or(And(a, b), And(Or(a, b), Not(s)))
  }

  function SignBit(a: Word): bool {
    |a| > 0 && a[|a| - 1]
  }

  function OverflowMask(a: seq<Word>, b: seq<Word>, s: seq<Word>): (r: Word)
    requires |a| == |b| == |s|
    requires forall i :: 0 <= i < |a| ==> |a[i]| == |b[i]| == |s[i]|
    ensures |r| == |a|
  {
    seq(|a|, i requires 0 <= i < |a| => SignBit(DigitCarry(a[i], b[i], s[i])))
  }

  function BubbleMask(s: seq<Word>): (r: Word)
    ensures |r| == |s|
  {
    seq(|s|, i requires 0 <= i < |s| => s[i] == Ones(|s[i]|))
  }

  /** esimd_bitspread: lane i holds bit i of the mask. */
  function BitSpread(mask: Word, n: nat, w: nat): (r: seq<Word>)
    requires n <= |mask|
    ensures |r| == n && Lanes(r, w)
  {
    seq(n, i requires 0 <= i < n => OneBit(w, 0, mask[i]))
  }

  /** The carry into lane i: lane i-1 overflowed, or it was all ones and itself received a carry. */
  function LaneCarry(gen: Word, bubble: Word, cin: bool, i: nat): bool
    requires i <= |gen| == |bubble|
  {
    if i == 0 then cin
    else gen[i - 1] || (bubble[i - 1] && LaneCarry(gen, bubble, cin, i - 1))
  }

  predicate Exclusive(gen: Word, bubble: Word)
    requires |gen| == |bubble|
  {
    forall i :: 0 <= i < |gen| ==> !(gen[i] && bubble[i])
  }

  // ----- one lane

  /** The top bit of the digit carry word is exactly the overflow of the lane sum. */
  lemma {:induction false} OverflowBit(a: Word, b: Word)
    requires |a| == |b| > 0
    ensures SignBit(DigitCarry(a, b, Add(a, b))) == Carry(a, b, false, |a|)
  {
    var k := |a| - 1;
    var s := Add(a, b);
    assert s[k] == ((a[k] != b[k]) != Carry(a, b, false, k));
    assert DigitCarry(a, b, s)[k] == ((a[k] && b[k]) || ((a[k] || b[k]) && !s[k]));
  }

  lemma {:induction false} LaneSumValue(a: Word, b: Word)
    requires |a| == |b| > 0
    ensures Val(Add(a, b)) + Weigh(SignBit(DigitCarry(a, b, Add(a, b))), Pow2(|a|)) == Val(a) + Val(b)
  {
    OverflowBit(a, b);
    AddValue(a, b, false);
  }

  lemma {:induction false} OnesValue(s: Word)
    ensures s == Ones(|s|) <==> Val(s) == Pow2(|s|) - 1
  {
    AllOnesValueTo(s, |s|);
    if forall i :: 0 <= i < |s| ==> s[i] {
      assert s == Ones(|s|);
    }
  }

  /** A lane cannot both overflow and have an all-ones sum. */
  lemma {:induction false} OverflowExcludesBubble(a: Word, b: Word)
    requires |a| == |b| > 0
    ensures !(SignBit(DigitCarry(a, b, Add(a, b))) && Add(a, b) == Ones(|a|))
  {
    LaneSumValue(a, b);
    OnesValue(Add(a, b));
    ValToBound(a, |a|);
    ValToBound(b, |b|);
  }

  lemma {:induction false} MasksExclusive(a: seq<Word>, b: seq<Word>, w: nat)
    requires |a| == |b| && Lanes(a, w) && Lanes(b, w) && w > 0
    ensures Exclusive(OverflowMask(a, b, SimdAdd(a, b)), BubbleMask(SimdAdd(a, b)))
  {
    forall i | 0 <= i < |a|
      ensures !(OverflowMask(a, b, SimdAdd(a, b))[i] && BubbleMask(SimdAdd(a, b))[i])
    {
      OverflowExcludesBubble(a[i], b[i]);
    }
  }

  // ----- the mask arithmetic

  /** Adding the carry markers to the bubbles and removing the bubbles by xor leaves exactly the
      lanes that receive a carry; bit n is the carry out of the block and nothing lies above it. */
  lemma {:induction false} IncrementMaskAt(gen: Word, bubble: Word, cin: bool, m: nat, i: nat)
    requires |gen| == |bubble| < m && i < m
    requires Exclusive(gen, bubble)
    ensures var marker := Or(Shl(ZExt(gen, m), 1), OneBit(m, 0, cin));
            var inc := Xor(Add(ZExt(bubble, m), marker), ZExt(bubble, m));
            inc[i] == (i <= |gen| && LaneCarry(gen, bubble, cin, i))
    ensures var marker := Or(Shl(ZExt(gen, m), 1), OneBit(m, 0, cin));
            var carry := Carry(ZExt(bubble, m), marker, false, i);
            !(marker[i] && carry) && (marker[i] || carry) == (i <= |gen| && LaneCarry(gen, bubble, cin, i))
  {
    if i > 0 {
      IncrementMaskAt(gen, bubble, cin, m, i - 1);
    }
  }

  /** The AND-NOT/subtract form of the same step, for a mask exactly as wide as the lane count:
      s = (marker + bubble) & ~bubble, inc = s | (s - marker). */
  lemma {:induction false} MarkerSpanAt(gen: Word, bubble: Word, cin: bool, i: nat)
    requires |gen| == |bubble| && i < |gen|
    requires Exclusive(gen, bubble)
    ensures var n := |gen|;
            var marker := Or(Shl(gen, 1), OneBit(n, 0, cin));
            var s := And(Add(marker, bubble), Not(bubble));
            var carry := Carry(marker, bubble, false, i);
            && Or(s, Sub(s, marker))[i] == LaneCarry(gen, bubble, cin, i)
            && Borrow(s, marker, i) == carry
            && !(marker[i] && carry) && (marker[i] || carry) == LaneCarry(gen, bubble, cin, i)
  {
    if i > 0 {
      MarkerSpanAt(gen, bubble, cin, i - 1);
    }
  }

  // ----- the block sum

  /** Lane i incremented by its carry: value and overflow. */
  lemma {:induction false} LaneIncrement(a: Word, b: Word, c: bool)
    requires |a| == |b| > 0
    ensures var s := Add(a, b);
            Val(Add(s, OneBit(|a|, 0, c)))
              + Weigh(SignBit(DigitCarry(a, b, s)) || (s == Ones(|a|) && c), Pow2(|a|))
            == Val(a) + Val(b) + Bit(c)
  {
    var s, o := Add(a, b), OneBit(|a|, 0, c);
    LaneSumValue(a, b);
    OverflowExcludesBubble(a, b);
    OnesValue(s);
    OneBitValueTo(|a|, c, |a|);
    ValToBound(s, |a|);
    AddValue(s, o, false);
  }

  /** Lane sums incremented by the lane carries are the block sum. */
  lemma {:induction false} LanesSum(a: seq<Word>, b: seq<Word>, r: seq<Word>, gen: Word, bubble: Word, cin: bool,
                                    w: nat)
    requires |a| == |b| == |r| == |gen| == |bubble| && w > 0
    requires Lanes(a, w) && Lanes(b, w)
    requires forall i :: 0 <= i < |a| ==>
      && gen[i] == SignBit(DigitCarry(a[i], b[i], Add(a[i], b[i])))
      && bubble[i] == (Add(a[i], b[i]) == Ones(w))
      && r[i] == Add(Add(a[i], b[i]), OneBit(w, 0, LaneCarry(gen, bubble, cin, i)))
    ensures BlockVal(r, w) + Weigh(LaneCarry(gen, bubble, cin, |a|), Power(Pow2(w), |a|))
         == BlockVal(a, w) + BlockVal(b, w) + Bit(cin)
  {
    if |a| > 0 {
      var c1 := LaneCarry(gen, bubble, cin, 1);
      assert LaneCarry(gen, bubble, cin, 0) == cin;
      forall i | 0 <= i <= |gen[1..]|
        ensures LaneCarry(gen[1..], bubble[1..], c1, i) == LaneCarry(gen, bubble, cin, i + 1)
      {
        LaneCarryShift(gen, bubble, cin, i);
      }
      LanesSum(a[1..], b[1..], r[1..], gen[1..], bubble[1..], c1, w);
      LaneIncrement(a[0], b[0], cin);
      HornerStep(Pow2(w), BlockVal(r[1..], w), Power(Pow2(w), |a| - 1), BlockVal(a[1..], w), BlockVal(b[1..], w),
                 LaneCarry(gen, bubble, cin, |a|), c1);
    }
  }

  /** One step of evaluating a sum in base p: the equation of the upper digits, scaled by p. */
  lemma {:induction false} HornerStep(p: nat, r: nat, q: nat, a: nat, b: nat, cout: bool, c1: bool)
    requires r + Weigh(cout, q) == a + b + Bit(c1)
    ensures p * r + Weigh(cout, p * q) == p * a + p * b + Weigh(c1, p)
  {
    assert p * (r + Weigh(cout, q)) == p * r + p * Weigh(cout, q);
    assert p * (a + b + Bit(c1)) == p * a + p * b + p * Bit(c1);
  }

  lemma {:induction false} LaneCarryShift(gen: Word, bubble: Word, cin: bool, i: nat)
    requires |gen| == |bubble| && i < |gen|
    ensures LaneCarry(gen[1..], bubble[1..], LaneCarry(gen, bubble, cin, 1), i) == LaneCarry(gen, bubble, cin, i + 1)
  {
    if i > 0 {
      LaneCarryShift(gen, bubble, cin, i - 1);
    }
  }

  // ----- blocks in sequence

  lemma {:induction false} BlockValConcat(a: seq<Word>, b: seq<Word>, w: nat)
    ensures BlockVal(a + b, w) == BlockVal(a, w) + Power(Pow2(w), |a|) * BlockVal(b, w)
  {
    if |a| == 0 {
      assert a + b == b;
    } else {
      assert (a + b)[1..] == a[1..] + b;
      BlockValConcat(a[1..], b, w);
      MulShift(Pow2(w), BlockVal(a[1..], w), Power(Pow2(w), |a| - 1), BlockVal(b, w));
    }
  }

  lemma MulShift(p: nat, x: nat, q: nat, y: nat)
    ensures p * (x + q * y) == p * x + (p * q) * y
  {
  }

  lemma {:induction false} PowerAdd(b: nat, m: nat, n: nat)
    ensures Power(b, m + n) == Power(b, m) * Power(b, n)
  {
    if m > 0 {
      PowerAdd(b, m - 1, n);
      MulShift(b, 0, Power(b, m - 1), Power(b, n));
    }
  }
}
