/** The lane-wise and lane-moving operations on registers, a register being a sequence of lanes of one width. */
module LaneOps {
  import opened IntArith
  import opened BitWords
  import opened LaneAddition

  function SimdAnd(a: seq<Word>, b: seq<Word>, fw: nat): (r: seq<Word>)
    requires |a| == |b| && Lanes(a, fw) && Lanes(b, fw)
    ensures |r| == |a| && Lanes(r, fw)
  {
    seq(|a|, i requires 0 <= i < |a| => And(a[i], b[i]))
  }

  function SimdOr(a: seq<Word>, b: seq<Word>, fw: nat): (r: seq<Word>)
    requires |a| == |b| && Lanes(a, fw) && Lanes(b, fw)
    ensures |r| == |a| && Lanes(r, fw)
  {
    seq(|a|, i requires 0 <= i < |a| => Or(a[i], b[i]))
  }

  function SimdXor(a: seq<Word>, b: seq<Word>, fw: nat): (r: seq<Word>)
    requires |a| == |b| && Lanes(a, fw) && Lanes(b, fw)
    ensures |r| == |a| && Lanes(r, fw)
  {
    seq(|a|, i requires 0 <= i < |a| => Xor(a[i], b[i]))
  }

  function SimdNot(a: seq<Word>, fw: nat): (r: seq<Word>)
    requires Lanes(a, fw)
    ensures |r| == |a| && Lanes(r, fw)
  {
    seq(|a|, i requires 0 <= i < |a| => Not(a[i]))
  }

  function SimdShl(a: seq<Word>, k: nat, fw: nat): (r: seq<Word>)
    requires Lanes(a, fw)
    ensures |r| == |a| && Lanes(r, fw)
  {
    seq(|a|, i requires 0 <= i < |a| => Shl(a[i], k))
  }

  function ZeroLanes(n: nat, fw: nat): (r: seq<Word>)
    ensures |r| == n && Lanes(r, fw)
  {
    seq(n, _ => Zeros(fw))
  }

  function OnesLanes(n: nat, fw: nat): (r: seq<Word>)
    ensures |r| == n && Lanes(r, fw)
  {
    seq(n, _ => Ones(fw))
  }

  /** A lane mask as a register: all ones in the lanes whose bit is set, zero elsewhere. */
  function LaneMask(mask: Word, fw: nat): (r: seq<Word>)
    ensures |r| == |mask| && Lanes(r, fw)
  {
    seq(|mask|, i requires 0 <= i < |mask| => if mask[i] then Ones(fw) else Zeros(fw))
  }

  /** simd_any: all ones in the lanes with any bit set. */
  function SimdAny(a: seq<Word>, fw: nat): (r: seq<Word>)
    ensures |r| == |a| && Lanes(r, fw)
  {
    seq(|a|, i requires 0 <= i < |a| => if a[i] == Zeros(|a[i]|) then Zeros(fw) else Ones(fw))
  }

  /** The lane that `move` places up brings to place i. */
  function LaneFrom(a: seq<Word>, i: nat, move: int, fw: nat): (r: Word)
    requires Lanes(a, fw)
    ensures |r| == fw
  {
    if 0 <= i - move < |a| then a[i - move] else Zeros(fw)
  }

  /** Lanes moved k places up, zero lanes below; k may reach the lane count. */
  function LanesUp(a: seq<Word>, k: nat, fw: nat): (r: seq<Word>)
    requires Lanes(a, fw)
    ensures |r| == |a| && Lanes(r, fw)
  {
    seq(|a|, i requires 0 <= i < |a| => LaneFrom(a, i, k, fw))
  }

  function LanesDown(a: seq<Word>, k: nat, fw: nat): (r: seq<Word>)
    requires Lanes(a, fw)
    ensures |r| == |a| && Lanes(r, fw)
  {
    seq(|a|, i requires 0 <= i < |a| => LaneFrom(a, i, 0 - k, fw))
  }

  /** A table lookup whose indexes are reduced modulo the number of lanes. */
  function Shuffle(a: seq<Word>, index: seq<Word>, fw: nat): (r: seq<Word>)
    requires Lanes(a, fw) && |index| == |a|
    ensures |r| == |a| && Lanes(r, fw)
  {
    seq(|a|, i requires 0 <= i < |a| => a[Val(index[i]) % |a|])
  }

  lemma {:induction false} ShuffleAt(a: seq<Word>, index: seq<Word>, fw: nat, i: nat, j: nat)
    requires Lanes(a, fw) && |index| == |a| && i < |a| && Val(index[i]) == j < |a|
    ensures Shuffle(a, index, fw)[i] == a[j]
  {
    SmallMod(j, |a|);
  }

  lemma KeepLane(x: Word, keep: Word, on: bool, fw: nat)
    requires |x| == |keep| == fw && forall j :: 0 <= j < fw ==> keep[j] == on
    ensures And(x, keep) == if on then x else Zeros(fw)
  {
  }

  lemma {:induction false} SelectedLanes(mask: Word, fw: nat)
    requires fw > 0
    ensures SimdAny(BitSpread(mask, |mask|, fw), fw) == LaneMask(mask, fw)
  {
    forall p | 0 <= p < |mask|
      ensures SimdAny(BitSpread(mask, |mask|, fw), fw)[p] == LaneMask(mask, fw)[p]
    {
      assert OneBit(fw, 0, mask[p])[0] == mask[p];
      assert !mask[p] ==> OneBit(fw, 0, mask[p]) == Zeros(fw);
    }
  }

  lemma OrZero(x: Word, fw: nat)
    requires |x| == fw
    ensures Or(x, Zeros(fw)) == x && Or(Zeros(fw), x) == x && Or(x, x) == x
  {
  }
}
