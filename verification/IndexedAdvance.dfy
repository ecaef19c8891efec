/** IDISA_AVX2_Builder::bitblock_indexed_advance: moving the marked bits of a stream forward by `shift`
    positions of an index stream, block by block, lane by lane.

    The reference is a queue: the bits of the stream at index positions are appended to a queue of
    `shift` pending bits, and the first ones of the queue are put back at the index positions.  A shift by
    the full width of a word is taken to give zero; it only ever shifts the bits of an empty lane. */
module IndexedAdvance {
  import opened BitWords
  import opened Selection
  import opened BitSelection

  // ----- reference

  function AdvanceOut(strm: Word, index: Word, queue: Word): (r: Word)
    requires |strm| == |index|
    ensures |r| == |strm|
  {
    Deposit(queue + Filter(strm, index), index, false)
  }

  function AdvanceQueue(strm: Word, index: Word, queue: Word): (r: Word)
    requires |strm| == |index|
    ensures |r| == |queue|
  {
    (queue + Filter(strm, index))[Pop(index)..]
  }

  /** What the operation means: starting with `shift` zero bits pending, position p is marked exactly when
      it is an index position and the index position `shift` before it was marked. */
  lemma {:induction false} AdvanceMeaning(strm: Word, index: Word, shift: nat, p: nat)
    requires |strm| == |index| && p < |strm|
    ensures AdvanceOut(strm, index, Zeros(shift))[p] <==>
      index[p] && Rank(index, p) >= shift && Rank(index, p) - shift < Pop(index)
      && strm[Select(index, Rank(index, p) - shift)]
  {
    if index[p] {
      RankBelowPop(index, p);
      var k := Rank(index, p);
      if k >= shift {
        FilterAt(strm, index, k - shift);
      }
    }
  }

  /** Two adjacent pieces of a stream, the queue passed on from the first to the second. */
  lemma {:induction false} AdvanceConcat(s: Word, ix: Word, s': Word, ix': Word, queue: Word)
    requires |s| == |ix| && |s'| == |ix'|
    ensures AdvanceOut(s + s', ix + ix', queue)
         == AdvanceOut(s, ix, queue) + AdvanceOut(s', ix', AdvanceQueue(s, ix, queue))
    ensures AdvanceQueue(s + s', ix + ix', queue) == AdvanceQueue(s', ix', AdvanceQueue(s, ix, queue))
  {
    var f, f' := Filter(s, ix), Filter(s', ix');
    FilterConcat(s, ix, s', ix');
    var all := queue + f + f';
    assert queue + (f + f') == all;
    DepositConcat(all, ix, ix', false);
    DepositPrefix(all, queue + f, ix, false);
    assert all[Pop(ix)..] == AdvanceQueue(s, ix, queue) + f';
    assert all[Pop(ix) + Pop(ix')..] == all[Pop(ix)..][Pop(ix')..];
  }

  // ----- the instructions

  /** A word holding a queue of pending bits. */
  function Packed(queue: Word, n: nat): (r: Word)
    requires |queue| <= n
    ensures |r| == n
  {
    queue + Zeros(n - |queue|)
  }

  // ----- one lane

  /** Shift amount below the lane width: the queue sits in one lane-wide word. */
  function SmallStep(s: Word, ix: Word, carry: Word, shift: nat): (r: (Word, Word))
    requires |s| == |ix| == |carry|
  {
    var ixPopcnt := Pop(ix);
    var bits := Pext(s, ix);
    var adv := Or(Shl(bits, shift), carry);
    var carry' :=
      if ixPopcnt < shift
      then Or(Shl(bits, shift - ixPopcnt), Shr(carry, ixPopcnt))
      else Shr(bits, ixPopcnt - shift);
    (Pdep(adv, ix), carry')
  }

  /** Larger shift amounts: the queue sits in a block-wide word and has at least a lane of bits. */
  function LargeStep(s: Word, ix: Word, carry: Word, shift: nat): (r: (Word, Word))
    requires |s| == |ix| <= |carry| && |s| <= shift
  {
    var ixPopcnt := Pop(ix);
    var bits := Pext(s, ix);
    var rest := Shr(carry, ixPopcnt);
    (Pdep(carry[..|s|], ix), Or(rest, Shl(ZExt(bits, |carry|), shift - ixPopcnt)))
  }

  lemma SmallCarry(s: Word, ix: Word, queue: Word)
    requires |s| == |ix| && |queue| < |s|
    ensures var w, k, pc := |s|, |queue|, Pop(ix);
            var bits, carry, next := Pext(s, ix), Packed(queue, w), Packed(AdvanceQueue(s, ix, queue), w);
            && (pc < k ==> Or(Shl(bits, k - pc), Shr(carry, pc)) == next)
            && (pc >= k ==> Shr(bits, pc - k) == next)
  {
  }

  lemma {:induction false} SmallLane(s: Word, ix: Word, queue: Word)
    requires |s| == |ix| && |queue| < |s|
    ensures SmallStep(s, ix, Packed(queue, |s|), |queue|)
         == (AdvanceOut(s, ix, queue), Packed(AdvanceQueue(s, ix, queue), |s|))
  {
    var adv := Or(Shl(Pext(s, ix), |queue|), Packed(queue, |s|));
    SmallCarry(s, ix, queue);
    var f := queue + Filter(s, ix);
    forall k | 0 <= k < Pop(ix)
      ensures adv[k] == f[k]
    {
    }
    DepositPrefix(adv, f, ix, false);
  }

  lemma {:induction false} LargeLane(s: Word, ix: Word, queue: Word, bw: nat)
    requires |s| == |ix| <= |queue| <= bw
    ensures LargeStep(s, ix, Packed(queue, bw), |queue|)
         == (AdvanceOut(s, ix, queue), Packed(AdvanceQueue(s, ix, queue), bw))
  {
    var k, pc := |queue|, Pop(ix);
    var bits, carry := Pext(s, ix), Packed(queue, bw);
    DepositPrefix(carry[..|s|], queue + Filter(s, ix), ix, false);
    assert Or(Shr(carry, pc), Shl(ZExt(bits, bw), k - pc)) == Packed(AdvanceQueue(s, ix, queue), bw);
  }

  /** Shift amounts above the block width: bits are only taken from the carry in ... */
  lemma {:induction false} HugeLaneOut(ix: Word, queue: Word, taken: nat)
    requires |ix| <= |queue| && taken + Pop(ix) <= |queue|
    ensures Pdep(Shr(queue, taken)[..|ix|], ix) == Deposit(queue[taken..], ix, false)
    ensures Shr(Shr(queue, taken), Pop(ix)) == Shr(queue, taken + Pop(ix))
  {
    var low := Shr(queue, taken)[..|ix|];
    forall k | 0 <= k < Pop(ix)
      ensures low[k] == queue[taken..][k]
    {
    }
    DepositPrefix(low, queue[taken..], ix, false);
  }

  /** ... and the selected bits are collected for the carry out. */
  lemma {:induction false} HugeLaneCarry(s: Word, ix: Word, selected: Word, bw: nat)
    requires |s| == |ix| <= bw && |selected| + Pop(ix) <= bw
    ensures Or(Packed(selected, bw), Shl(ZExt(Pext(s, ix), bw), |selected|)) == Packed(selected + Filter(s, ix), bw)
  {
    var n, pc := |selected|, Pop(ix);
    var bits, f := Pext(s, ix), Filter(s, ix);
    var shifted := Shl(ZExt(bits, bw), n);
    forall i | 0 <= i < bw
      ensures (Packed(selected, bw)[i] || shifted[i]) == Packed(selected + f, bw)[i]
    {
      if i >= n {
        assert shifted[i] == (i - n < |s| && bits[i - n]);
        if i - n < pc {
          assert bits[i - n] == f[i - n] == (selected + f)[i];
        }
      }
    }
  }

  // ----- the block operation

  lemma {:induction false} FlatLength(a: seq<Word>, b: seq<Word>, w: nat, n: nat)
    requires Lanes(a, w) && Lanes(b, w) && n <= |a| && n <= |b|
    ensures |Joined(a[..n])| == |Joined(b[..n])|
    ensures |Joined(a[..n])| <= |Joined(a)| && (n > 0 ==> w <= |Joined(a)|)
    decreases |a|, n
  {
    if n < |a| {
      FlatLength(a[..|a| - 1], b, w, n);
      assert a[..|a| - 1][..n] == a[..n];
    } else if n > 0 {
      assert a[..n] == a && b[..n][..n - 1] == b[..n - 1] && a[..n - 1][..n - 1] == a[..n - 1];
      FlatLength(a[..n - 1], b, w, n - 1);
    }
  }

  lemma {:induction false} FlatSnoc(b: seq<Word>, x: Word)
    ensures Joined(b + [x]) == Joined(b) + x
  {
    assert (b + [x])[..|b|] == b;
  }

  /** The first i lanes advanced. */
  function OutTo(strm: seq<Word>, index: seq<Word>, w: nat, i: nat, queue: Word): Word
    requires Lanes(strm, w) && Lanes(index, w) && i <= |strm| == |index|
  {
    FlatLength(strm, index, w, i);
    AdvanceOut(Joined(strm[..i]), Joined(index[..i]), queue)
  }

  /** The queue after the first i lanes. */
  function QueueTo(strm: seq<Word>, index: seq<Word>, w: nat, i: nat, queue: Word): (q: Word)
    requires Lanes(strm, w) && Lanes(index, w) && i <= |strm| == |index|
    ensures |q| == |queue|
  {
    FlatLength(strm, index, w, i);
    AdvanceQueue(Joined(strm[..i]), Joined(index[..i]), queue)
  }

  /** Lane i continues where the first i lanes stopped. */
  lemma {:induction false} LaneStep(strm: seq<Word>, index: seq<Word>, w: nat, i: nat, queue: Word)
    requires Lanes(strm, w) && Lanes(index, w) && i < |strm| == |index|
    ensures OutTo(strm, index, w, i + 1, queue)
         == OutTo(strm, index, w, i, queue) + AdvanceOut(strm[i], index[i], QueueTo(strm, index, w, i, queue))
    ensures QueueTo(strm, index, w, i + 1, queue) == AdvanceQueue(strm[i], index[i], QueueTo(strm, index, w, i, queue))
  {
    FlatLength(strm, index, w, i);
    assert strm[..i + 1][..i] == strm[..i] && index[..i + 1][..i] == index[..i];
    AdvanceConcat(Joined(strm[..i]), Joined(index[..i]), strm[i], index[i], queue);
  }

  method AdvanceSmall(strm: seq<Word>, index: seq<Word>, w: nat, shiftIn: Word, shift: nat)
    returns (carry: Word, result: seq<Word>)
    requires |strm| == |index| && Lanes(strm, w) && Lanes(index, w)
    requires shift < w && w == |shiftIn| && shiftIn == Packed(shiftIn[..shift], w)
    ensures |Joined(strm)| == |Joined(index)|
    ensures Joined(result) == AdvanceOut(Joined(strm), Joined(index), shiftIn[..shift])
    ensures carry == Packed(AdvanceQueue(Joined(strm), Joined(index), shiftIn[..shift]), w)
  {
    ghost var queue := shiftIn[..shift];
    carry, result := shiftIn, [];
    for i := 0 to |strm|
      invariant Joined(result) == OutTo(strm, index, w, i, queue)
      invariant carry == Packed(QueueTo(strm, index, w, i, queue), w)
    {
      var s, ix := strm[i], index[i];
      LaneStep(strm, index, w, i, queue);
      SmallLane(s, ix, QueueTo(strm, index, w, i, queue));
      var step := SmallStep(s, ix, carry, shift);
      carry := step.1;
      FlatSnoc(result, step.0);
      result := result + [step.0];
    }
    FlatLength(strm, index, w, |strm|);
    assert strm[..|strm|] == strm && index[..|index|] == index;
  }

  method AdvanceLarge(strm: seq<Word>, index: seq<Word>, w: nat, shiftIn: Word, shift: nat)
    returns (carry: Word, result: seq<Word>)
    requires |strm| == |index| && Lanes(strm, w) && Lanes(index, w)
    requires w <= shift <= |shiftIn| && shiftIn == Packed(shiftIn[..shift], |shiftIn|)
    ensures |Joined(strm)| == |Joined(index)|
    ensures Joined(result) == AdvanceOut(Joined(strm), Joined(index), shiftIn[..shift])
    ensures carry == Packed(AdvanceQueue(Joined(strm), Joined(index), shiftIn[..shift]), |shiftIn|)
  {
    ghost var queue := shiftIn[..shift];
    carry, result := shiftIn, [];
    for i := 0 to |strm|
      invariant Joined(result) == OutTo(strm, index, w, i, queue)
      invariant carry == Packed(QueueTo(strm, index, w, i, queue), |shiftIn|)
    {
      var s, ix := strm[i], index[i];
      LaneStep(strm, index, w, i, queue);
      LargeLane(s, ix, QueueTo(strm, index, w, i, queue), |shiftIn|);
      var step := LargeStep(s, ix, carry, shift);
      carry := step.1;
      FlatSnoc(result, step.0);
      result := result + [step.0];
    }
    FlatLength(strm, index, w, |strm|);
    assert strm[..|strm|] == strm && index[..|index|] == index;
  }

  /** What the third regime has put back, and collected, after the first i lanes. */
  ghost predicate HugeSoFar(strm: seq<Word>, index: seq<Word>, w: nat, i: nat, shiftIn: Word, carry: Word,
                            generated: nat, out: Word, carryOut: Word)
    requires Lanes(strm, w) && Lanes(index, w) && i <= |strm| == |index|
  {
    var s, ix := Joined(strm[..i]), Joined(index[..i]);
    && |s| == |ix| <= |shiftIn|
    && generated == Pop(ix)
    && carry == Shr(shiftIn, generated)
    && out == Deposit(shiftIn, ix, false)
    && carryOut == Packed(Filter(s, ix), |shiftIn|)
  }

  lemma {:induction false} HugeStep(strm: seq<Word>, index: seq<Word>, w: nat, i: nat, shiftIn: Word, carry: Word,
                                    generated: nat, out: Word, carryOut: Word)
    requires Lanes(strm, w) && Lanes(index, w) && i < |strm| == |index| && |shiftIn| == |Joined(strm)|
    requires HugeSoFar(strm, index, w, i, shiftIn, carry, generated, out, carryOut)
    ensures var s, ix, bw := strm[i], index[i], |shiftIn|;
            && w <= bw && |carryOut| == bw
            && HugeSoFar(strm, index, w, i + 1, shiftIn, Shr(carry, Pop(ix)), generated + Pop(ix),
                         out + Pdep(carry[..w], ix), Or(carryOut, Shl(ZExt(Pext(s, ix), bw), generated)))
  {
    var s, ix := strm[i], index[i];
    var s0, ix0 := Joined(strm[..i]), Joined(index[..i]);
    FlatLength(strm, index, w, i + 1);
    assert strm[..i + 1][..i] == strm[..i] && index[..i + 1][..i] == index[..i];
    FilterConcat(s0, ix0, s, ix);
    DepositConcat(shiftIn, ix0, ix, false);
    HugeLaneOut(ix, shiftIn, generated);
    HugeLaneCarry(s, ix, Filter(s0, ix0), |shiftIn|);
  }

  method AdvanceHuge(strm: seq<Word>, index: seq<Word>, w: nat, shiftIn: Word)
    returns (carryOut: Word, result: seq<Word>)
    requires |strm| == |index| && Lanes(strm, w) && Lanes(index, w)
    requires |shiftIn| == |Joined(strm)|
    ensures |Joined(strm)| == |Joined(index)|
    ensures Joined(result) == Deposit(shiftIn, Joined(index), false)
    ensures carryOut == Packed(Filter(Joined(strm), Joined(index)), |shiftIn|)
  {
    var bw := |shiftIn|;
    var carry, generated := shiftIn, 0;
    result, carryOut := [], Zeros(bw);
    assert Shr(shiftIn, 0) == shiftIn;
    for i := 0 to |strm|
      invariant HugeSoFar(strm, index, w, i, shiftIn, carry, generated, Joined(result), carryOut)
    {
      var s, ix := strm[i], index[i];
      HugeStep(strm, index, w, i, shiftIn, carry, generated, Joined(result), carryOut);
      var ixPopcnt := Pop(ix);
      var bits := Pext(s, ix);
      var out := Pdep(carry[..w], ix);
      FlatSnoc(result, out);
      result := result + [out];
      carry := Shr(carry, ixPopcnt);
      carryOut := Or(carryOut, Shl(ZExt(bits, bw), generated));
      generated := generated + ixPopcnt;
    }
    assert strm[..|strm|] == strm && index[..|index|] == index;
  }

  /** bitblock_indexed_advance.  Up to the block width the block is advanced through the queue in the carry
      in, and the carry out is the new queue.  Above the block width the carry in supplies the bits put back
      and the carry out collects the bits of this block. */
  method BitblockIndexedAdvance(strm: seq<Word>, index: seq<Word>, w: nat, shiftIn: Word, shift: nat)
    returns (carryOut: Word, result: seq<Word>)
    requires |strm| == |index| > 0 && w > 0 && Lanes(strm, w) && Lanes(index, w)
    requires |shiftIn| == |Joined(strm)|
    requires shift <= |shiftIn| ==> shiftIn == Packed(shiftIn[..shift], |shiftIn|)
    ensures |Joined(strm)| == |Joined(index)|
    ensures shift <= |shiftIn| ==>
      && Joined(result) == AdvanceOut(Joined(strm), Joined(index), shiftIn[..shift])
      && carryOut == Packed(AdvanceQueue(Joined(strm), Joined(index), shiftIn[..shift]), |shiftIn|)
    ensures shift > |shiftIn| ==>
      && Joined(result) == Deposit(shiftIn, Joined(index), false)
      && carryOut == Packed(Filter(Joined(strm), Joined(index)), |shiftIn|)
  {
    FlatLength(strm, index, w, |strm|);
    assert strm[..|strm|] == strm && index[..|index|] == index;
    if shift < w {
      var carry;
      assert shiftIn[..w] == Packed(shiftIn[..shift], w) && shiftIn[..w][..shift] == shiftIn[..shift];
      carry, result := AdvanceSmall(strm, index, w, shiftIn[..w], shift);
      carryOut := ZExt(carry, |shiftIn|);
    } else if shift <= |shiftIn| {
      carryOut, result := AdvanceLarge(strm, index, w, shiftIn, shift);
    } else {
      carryOut, result := AdvanceHuge(strm, index, w, shiftIn);
    }
  }

  /** The block-wide carry of the third regime is a window on a longer queue: with a queue of `shift` bits
      whose front is the carry in, the block puts back the same bits, and the queue it leaves is the old one
      without its front followed by the bits in the carry out. */
  lemma {:induction false} HugeIsQueue(strm: Word, index: Word, queue: Word, bw: nat)
    requires |strm| == |index| <= bw < |queue|
    ensures Deposit(queue[..bw], index, false) == AdvanceOut(strm, index, queue)
    ensures AdvanceQueue(strm, index, queue)
         == queue[Pop(index)..] + Packed(Filter(strm, index), bw)[..Pop(index)]
  {
    DepositPrefix(queue[..bw], queue + Filter(strm, index), index, false);
  }

  /** A whole stream, block by block: the carry out of every block is the carry in of the next. */
  method IndexedAdvanceStream(strm: seq<seq<Word>>, index: seq<seq<Word>>, w: nat, bw: nat, shift: nat)
    returns (result: seq<Word>)
    requires |strm| == |index| && w > 0 && shift <= bw
    requires forall b :: 0 <= b < |strm| ==>
      && |strm[b]| == |index[b]| > 0 && Lanes(strm[b], w) && Lanes(index[b], w)
      && |Joined(strm[b])| == |Joined(index[b])| == bw
    ensures var s, ix := FlatBlocks(strm), FlatBlocks(index);
            |s| == |ix| && Joined(result) == AdvanceOut(s, ix, Zeros(shift))
  {
    var carry := Zeros(bw);
    ghost var queue := Zeros(shift);
    result := [];
    for b := 0 to |strm|
      invariant |FlatBlocks(strm[..b])| == |FlatBlocks(index[..b])|
      invariant Joined(result) == AdvanceOut(FlatBlocks(strm[..b]), FlatBlocks(index[..b]), queue)
      invariant carry == Packed(AdvanceQueue(FlatBlocks(strm[..b]), FlatBlocks(index[..b]), queue), bw)
    {
      assert strm[..b + 1][..b] == strm[..b] && index[..b + 1][..b] == index[..b];
      AdvanceConcat(FlatBlocks(strm[..b]), FlatBlocks(index[..b]), Joined(strm[b]), Joined(index[b]), queue);
      var out;
      carry, out := BitblockIndexedAdvance(strm[b], index[b], w, carry, shift);
      FlatConcat(result, out);
      result := result + out;
    }
    assert strm[..|strm|] == strm && index[..|index|] == index;
  }

  function FlatBlocks(b: seq<seq<Word>>): Word {
    if |b| == 0 then [] else FlatBlocks(b[..|b| - 1]) + Joined(b[|b| - 1])
  }

  lemma {:induction false} FlatConcat(a: seq<Word>, b: seq<Word>)
    ensures Joined(a + b) == Joined(a) + Joined(b)
    decreases |b|
  {
    if |b| == 0 {
      assert a + b == a;
    } else {
      assert (a + b)[..|a + b| - 1] == a + b[..|b| - 1];
      FlatConcat(a, b[..|b| - 1]);
    }
  }
}
