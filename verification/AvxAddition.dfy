/** IDISA_AVX2_Builder::bitblock_add_with_carry: the straight-line block adder and its use on streams. */
module AvxAddition {
  import opened BitWords
  import opened LaneAddition

  /** The lanes to increment, with the carry out of the block in bit n, n being the lane count.  Masks
      are `m`-bit integers (32 in the builder), so that bit n still fits. */
  function IncrementMask(gen: Word, bubble: Word, m: nat, carryin: Word): (r: Word)
    requires |carryin| == m
    ensures |r| == m
  {
    var carryMask := ZExt(gen, m);
    var carryMask2 := Or(Add(carryMask, carryMask), carryin);
    var bubbleMask := ZExt(bubble, m);
    Xor(Add(bubbleMask, carryMask2), bubbleMask)
  }

  /** One block: e1 + e2 + carryin. */
  function AddWithCarry(w: nat, m: nat, e1: seq<Word>, e2: seq<Word>, carryin: Word): (r: (Word, seq<Word>))
    requires |e1| == |e2| < m && |carryin| == m && Lanes(e1, w) && Lanes(e2, w)
    ensures |r.0| == m && |r.1| == |e1| && Lanes(r.1, w)
  {
    var digitsum := SimdAdd(e1, e2);
    var incrementMask := IncrementMask(OverflowMask(e1, e2, digitsum), BubbleMask(digitsum), m, carryin);
    var increments := BitSpread(incrementMask, |e1|, w);
    (Shr(incrementMask, |e1|), SimdAdd(digitsum, increments))
  }

  /** (bubble + carries) xor bubble marks exactly the lanes that receive a carry. */
  lemma {:induction false} IncrementMaskIsLaneCarry(gen: Word, bubble: Word, m: nat, cin: bool)
    requires |gen| == |bubble| < m && Exclusive(gen, bubble)
    ensures forall i :: 0 <= i < m ==>
      IncrementMask(gen, bubble, m, OneBit(m, 0, cin))[i] == (i <= |gen| && LaneCarry(gen, bubble, cin, i))
  {
    DoubleIsShift(ZExt(gen, m));
    forall i | 0 <= i < m
      ensures IncrementMask(gen, bubble, m, OneBit(m, 0, cin))[i] == (i <= |gen| && LaneCarry(gen, bubble, cin, i))
    {
      IncrementMaskAt(gen, bubble, cin, m, i);
    }
  }

  /** The block sum lane by lane: every lane sum is incremented by the carry into its lane. */
  lemma {:induction false} AddWithCarryLanes(w: nat, m: nat, e1: seq<Word>, e2: seq<Word>, cin: bool)
    requires |e1| == |e2| < m && w > 0 && Lanes(e1, w) && Lanes(e2, w)
    ensures var r := AddWithCarry(w, m, e1, e2, OneBit(m, 0, cin));
            var gen, bubble := OverflowMask(e1, e2, SimdAdd(e1, e2)), BubbleMask(SimdAdd(e1, e2));
            && r.0 == OneBit(m, 0, LaneCarry(gen, bubble, cin, |e1|))
            && forall i :: 0 <= i < |e1| ==>
                 r.1[i] == Add(Add(e1[i], e2[i]), OneBit(w, 0, LaneCarry(gen, bubble, cin, i)))
  {
    var gen, bubble := OverflowMask(e1, e2, SimdAdd(e1, e2)), BubbleMask(SimdAdd(e1, e2));
    var inc := IncrementMask(gen, bubble, m, OneBit(m, 0, cin));
    MasksExclusive(e1, e2, w);
    IncrementMaskIsLaneCarry(gen, bubble, m, cin);
    ShiftToCarryOut(inc, |e1|);
    var r := AddWithCarry(w, m, e1, e2, OneBit(m, 0, cin));
    forall i | 0 <= i < |e1|
      ensures r.1[i] == Add(Add(e1[i], e2[i]), OneBit(w, 0, inc[i]))
    {
      assert BitSpread(inc, |e1|, w)[i] == OneBit(w, 0, inc[i]);
    }
  }

  lemma ShiftToCarryOut(inc: Word, n: nat)
    requires n < |inc| && forall i :: n < i < |inc| ==> !inc[i]
    ensures Shr(inc, n) == OneBit(|inc|, 0, inc[n])
  {
  }

  /** The block adder computes e1 + e2 + carryin exactly, for a carry-in of 0 or 1, and its carry out
      is again 0 or 1. */
  lemma {:induction false} AddWithCarryIsAddition(w: nat, m: nat, e1: seq<Word>, e2: seq<Word>, cin: bool)
      returns (cout: bool)
    requires |e1| == |e2| < m && w > 0 && Lanes(e1, w) && Lanes(e2, w)
    ensures AddWithCarry(w, m, e1, e2, OneBit(m, 0, cin)).0 == OneBit(m, 0, cout)
    ensures BlockVal(AddWithCarry(w, m, e1, e2, OneBit(m, 0, cin)).1, w) + Weigh(cout, Power(Pow2(w), |e1|))
         == BlockVal(e1, w) + BlockVal(e2, w) + Bit(cin)
  {
    var r := AddWithCarry(w, m, e1, e2, OneBit(m, 0, cin));
    var gen, bubble := OverflowMask(e1, e2, SimdAdd(e1, e2)), BubbleMask(SimdAdd(e1, e2));
    AddWithCarryLanes(w, m, e1, e2, cin);
    cout := LaneCarry(gen, bubble, cin, |e1|);
    LanesSum(e1, e2, r.1, gen, bubble, cin, w);
  }

  // ----- a stream of blocks, the carry passed from block to block

  function AddStream(w: nat, m: nat, a: seq<seq<Word>>, b: seq<seq<Word>>, carryin: Word): (r: (Word, seq<Word>))
    requires |a| == |b| && |carryin| == m
    requires forall k :: 0 <= k < |a| ==> |a[k]| == |b[k]| < m && Lanes(a[k], w) && Lanes(b[k], w)
    ensures |r.0| == m
  {
    if |a| == 0 then (carryin, [])
    else
      var first := AddWithCarry(w, m, a[0], b[0], carryin);
      var rest := AddStream(w, m, a[1..], b[1..], first.0);
      (rest.0, first.1 + rest.1)
  }

  function Flatten(a: seq<seq<Word>>): seq<Word> {
    if |a| == 0 then [] else a[0] + Flatten(a[1..])
  }

  /** Folding the block adder over two equally long streams adds the integers they stand for. */
  lemma {:induction false} AddStreamIsAddition(w: nat, m: nat, a: seq<seq<Word>>, b: seq<seq<Word>>, cin: bool)
    returns (cout: bool)
    requires |a| == |b| && w > 0
    requires forall k :: 0 <= k < |a| ==> |a[k]| == |b[k]| < m && Lanes(a[k], w) && Lanes(b[k], w)
    ensures var r := AddStream(w, m, a, b, OneBit(m, 0, cin));
            && r.0 == OneBit(m, 0, cout)
            && |r.1| == |Flatten(a)| == |Flatten(b)|
            && BlockVal(r.1, w) + Weigh(cout, Power(Pow2(w), |r.1|))
               == BlockVal(Flatten(a), w) + BlockVal(Flatten(b), w) + Bit(cin)
  {
    if |a| == 0 {
      cout := cin;
    } else {
      var c1 := AddWithCarryIsAddition(w, m, a[0], b[0], cin);
      cout := AddStreamIsAddition(w, m, a[1..], b[1..], c1);
      var first := AddWithCarry(w, m, a[0], b[0], OneBit(m, 0, cin)).1;
      var rest := AddStream(w, m, a[1..], b[1..], OneBit(m, 0, c1)).1;
      SumConcat(w, first, a[0], b[0], rest, Flatten(a[1..]), Flatten(b[1..]), cin, c1, cout);
    }
  }

  /** Two adjacent exact sums, the carry of the low one entering the high one, are one exact sum. */
  lemma {:induction false} SumConcat(w: nat, r: seq<Word>, a: seq<Word>, b: seq<Word>, r': seq<Word>, a': seq<Word>,
                                     b': seq<Word>, cin: bool, c1: bool, cout: bool)
    requires |r| == |a| == |b| && |r'| == |a'| == |b'|
    requires BlockVal(r, w) + Weigh(c1, Power(Pow2(w), |r|)) == BlockVal(a, w) + BlockVal(b, w) + Bit(cin)
    requires BlockVal(r', w) + Weigh(cout, Power(Pow2(w), |r'|)) == BlockVal(a', w) + BlockVal(b', w) + Bit(c1)
    ensures BlockVal(r + r', w) + Weigh(cout, Power(Pow2(w), |r + r'|))
         == BlockVal(a + a', w) + BlockVal(b + b', w) + Bit(cin)
  {
    var p, q := Power(Pow2(w), |r|), Power(Pow2(w), |r'|);
    assert BlockVal(r + r', w) == BlockVal(r, w) + p * BlockVal(r', w) by { BlockValConcat(r, r', w); }
    assert BlockVal(a + a', w) == BlockVal(a, w) + p * BlockVal(a', w) by { BlockValConcat(a, a', w); }
    assert BlockVal(b + b', w) == BlockVal(b, w) + p * BlockVal(b', w) by { BlockValConcat(b, b', w); }
    assert Power(Pow2(w), |r + r'|) == p * q by { PowerAdd(Pow2(w), |r|, |r'|); }
    HornerStep(p, BlockVal(r', w), q, BlockVal(a', w), BlockVal(b', w), cout, c1);
  }
}
