/** IDISA_AVX512F_Builder::mvmd_slli and mvmd_dslli: shifting a register, or a pair of registers, by whole fields;
    and the advance-by-one fast paths of bitblock_advance for AVX2 and AVX-512.

    A register is a word; a field width is 32 divided by a power of two, or a multiple of 32.  The flag bw16 says that
    16-bit fields can be shuffled: with it, Dslli is also the double-register shift that AVX2 inherits. */
module RegisterShift {
  import opened IntArith
  import opened BitWords

  // ------------------------------------------------------------------ reference

  /** The bit that a shift of the pair by s brings to position j of the upper register a. */
  function PairBit(a: Word, b: Word, j: nat, s: nat): bool
    requires |a| == |b| && j < |a| && s <= |a|
  {
    if j >= s then a[j - s] else b[|b| + j - s]
  }

  /** The upper register of the pair after shifting both by s bits towards higher positions. */
  function PairShift(a: Word, b: Word, s: nat): (r: Word)
    requires |a| == |b| && s <= |a|
    ensures |r| == |a|
  {
    seq(|a|, j requires 0 <= j < |a| => PairBit(a, b, j, s))
  }

  lemma {:induction false} ZeroPairShift(a: Word, s: nat)
    requires s <= |a|
    ensures PairShift(a, Zeros(|a|), s) == Shl(a, s)
  {
    forall j | 0 <= j < |a|
      ensures PairShift(a, Zeros(|a|), s)[j] == Shl(a, s)[j]
    {
      assert PairShift(a, Zeros(|a|), s)[j] == PairBit(a, Zeros(|a|), j, s);
    }
  }

  // ------------------------------------------------------------------ the operations

  /** shift * fw, the shift in bits, as repeated addition. */
  function Bits(shift: nat, fw: nat): (r: nat) {
    if shift == 0 then 0 else Bits(shift - 1, fw) + fw
  }

  lemma {:induction false} BitsIsProduct(shift: nat, fw: nat)
    ensures Bits(shift, fw) == shift * fw
  {
    if shift > 0 {
      BitsIsProduct(shift - 1, fw);
      assert (shift - 1) * fw + fw == shift * fw;
    }
  }

  predicate FieldWidth(fw: nat, n: nat) {
    && fw > 0 && n % 32 == 0 && n % fw == 0
    && (if fw <= 32 then fw == 1 || fw == 2 || fw == 4 || fw == 8 || fw == 16 || fw == 32 else fw % 32 == 0)
  }

  /** simd_slli and simd_srli for 32-bit fields. */
  function Slli32(x: Word, k: nat): (r: Word)
    ensures |r| == |x|
  {
    seq(|x|, j requires 0 <= j < |x| => j % 32 >= k && j >= k && x[j - k])
  }

  function Srli32(x: Word, k: nat): (r: Word)
    ensures |r| == |x|
  {
    seq(|x|, j requires 0 <= j < |x| => j % 32 + k < 32 && j + k < |x| && x[j + k])
  }

  /** Field i comes from place i + n - shift of the fields of b followed by those of a. */
  function ShuffleFields(fw: nat, a: Word, b: Word, shift: nat): (r: Word)
    requires fw > 0 && |a| == |b| && |a| % fw == 0 && shift <= |a| / fw
    ensures |r| == |a|
  {
    var n := |a| / fw;
    seq(|a|, j requires 0 <= j < |a| =>
      ShuffleSource(fw, |a|, j, shift); (b + a)[(j / fw + n - shift) * fw + j % fw])
  }

  lemma {:induction false} ShuffleSource(fw: nat, size: nat, j: nat, shift: nat)
    requires fw > 0 && size % fw == 0 && j < size && shift <= size / fw
    ensures 0 <= (j / fw + size / fw - shift) * fw + j % fw == size + j - Bits(shift, fw) < 2 * size
    ensures Bits(shift, fw) <= size
  {
    FieldCount(fw, size, shift);
    BitsIsProduct(shift, fw);
    SourceProduct(fw, j / fw, size / fw, shift);
    assert j == (j / fw) * fw + j % fw && size == (size / fw) * fw;
  }

  lemma SourceProduct(fw: nat, q: nat, n: nat, shift: nat)
    ensures (q + n - shift) * fw == q * fw + n * fw - shift * fw
  {
  }

  /** Two registers a field apart, moved within their 32-bit fields and joined. */
  function JoinFields(low: Word, high: Word, bitShift: nat): (r: Word)
    requires |low| == |high| && bitShift <= 32
    ensures |r| == |low|
  {
    var fromLow := Slli32(low, bitShift);
    var fromHigh := Srli32(high, 32 - bitShift);
    Or(fromLow, fromHigh)
  }

  /** The number of 32-bit fields that a shift by wide fields is. */
  function Fields32(shift: nat, fw: nat): (r: nat) {
    Bits(shift, fw / 32)
  }

  lemma {:induction false} Narrow(fw: nat, shift: nat)
    requires fw % 32 == 0
    ensures Bits(Fields32(shift, fw), 32) == Bits(shift, fw)
  {
    BitsIsProduct(Fields32(shift, fw), 32);
    NarrowTimes(shift, fw);
  }

  lemma {:induction false} NarrowTimes(shift: nat, fw: nat)
    requires fw % 32 == 0
    ensures 32 * Bits(shift, fw / 32) == Bits(shift, fw)
  {
    if shift > 0 { NarrowTimes(shift - 1, fw); }
  }

  lemma {:induction false} HalfBits(k: nat, fw: nat)
    ensures Bits(k, 2 * fw) == Bits(2 * k, fw)
  {
    if k > 0 {
      HalfBits(k - 1, fw);
      assert Bits(2 * k, fw) == Bits(2 * k - 1, fw) + fw;
    }
  }

  lemma {:induction false} Widen(fw: nat, n: nat, shift: nat)
    requires shift % 2 == 0 && FieldWidth(fw, n) && fw < 32
    ensures Bits(shift / 2, 2 * fw) == Bits(shift, fw) && FieldWidth(2 * fw, n)
  {
    HalfBits(shift / 2, fw);
    DoubleWidth(fw, n);
  }

  lemma {:induction false} DoubleWidth(fw: nat, n: nat)
    requires FieldWidth(fw, n) && fw < 32
    ensures FieldWidth(2 * fw, n)
  {
    Divides(n, 2 * fw, if fw == 1 then 16 else if fw == 2 then 8 else if fw == 4 then 4 else if fw == 8 then 2 else 1);
  }

  lemma {:induction false} Divides(n: nat, d: nat, c: nat)
    requires n % 32 == 0 && d > 0 && d * c == 32
    ensures n % d == 0
  {
    var q := n / 32;
    assert n == q * (d * c);
    assert q * (d * c) == (q * c) * d;
    ModUnique(n, d, q * c, 0);
  }

  lemma {:induction false} FieldCount(fw: nat, n: nat, shift: nat)
    requires fw > 0 && n % fw == 0
    ensures Bits(shift, fw) <= n <==> shift <= n / fw
  {
    var m := n / fw;
    BitsIsProduct(shift, fw);
    assert n == m * fw;
    assert (m + 1) * fw == m * fw + fw;
    if shift > m { MulMonotone(m + 1, shift, fw); } else { MulMonotone(shift, m, fw); }
  }

  /** An odd number of narrow fields is not a whole number of 32-bit fields, so there is room for one more. */
  lemma {:induction false} OddShift(fw: nat, n: nat, shift: nat)
    requires FieldWidth(fw, n) && fw < 32 && Bits(shift, fw) <= n && shift % 2 == 1
    ensures Bits(shift, fw) % 32 != 0 && Bits(Bits(shift, fw) / 32 + 1, 32) <= n
  {
    BitsOdd(fw, shift / 2);
    BitsIsProduct(Bits(shift, fw) / 32, 32);
    assert n == 32 * (n / 32);
    if fw == 1 {
    } else if fw == 2 {
    } else if fw == 4 {
    } else if fw == 8 {
    } else {
    }
  }

  lemma {:induction false} BitsOdd(fw: nat, k: nat)
    ensures Bits(2 * k + 1, fw) == 2 * Bits(k, fw) + fw
    ensures fw > 0 ==> Bits(k, fw) % fw == 0
  {
    if k > 0 {
      BitsOdd(fw, k - 1);
      assert Bits(2 * k, fw) == Bits(2 * k - 1, fw) + fw;
      if fw > 0 { DivUp(Bits(k - 1, fw), fw); }
    }
  }

  lemma {:induction false} ShuffleIsShift(fw: nat, a: Word, b: Word, shift: nat)
    requires fw > 0 && |a| == |b| && |a| % fw == 0 && shift <= |a| / fw
    ensures Bits(shift, fw) <= |a|
    ensures ShuffleFields(fw, a, b, shift) == PairShift(a, b, Bits(shift, fw))
  {
    FieldCount(fw, |a|, shift);
    forall j | 0 <= j < |a|
      ensures ShuffleFields(fw, a, b, shift)[j] == PairShift(a, b, Bits(shift, fw))[j]
    {
      ShuffleSource(fw, |a|, j, shift);
      assert PairShift(a, b, Bits(shift, fw))[j] == PairBit(a, b, j, Bits(shift, fw));
    }
  }

  /** Two shifts by 32-bit fields, joined, are one shift by any number of bits. */
  lemma {:induction false} JoinShifts(a: Word, b: Word, f: nat, e: nat, s: nat)
    requires |a| == |b| && 0 < e < 32 && Bits(f + 1, 32) <= |a| && |a| % 32 == 0 && s == f * 32 + e
    ensures Bits(f, 32) == f * 32 && s <= |a|
    ensures JoinFields(PairShift(a, b, Bits(f, 32)), PairShift(a, b, Bits(f + 1, 32)), e) == PairShift(a, b, s)
  {
    BitsIsProduct(f, 32);
    var x, y := PairShift(a, b, f * 32), PairShift(a, b, f * 32 + 32);
    forall j | 0 <= j < |a|
      ensures JoinFields(x, y, e)[j] == PairShift(a, b, s)[j]
    {
      if j % 32 < e { assert j + (32 - e) < |a|; }
    }
  }

  lemma {:induction false} ShuffledIsShift(fw: nat, a: Word, b: Word, shift: nat)
    requires |a| == |b| && FieldWidth(fw, |a|) && Bits(shift, fw) <= |a|
    ensures shift <= |a| / fw && ShuffleFields(fw, a, b, shift) == PairShift(a, b, Bits(shift, fw))
  {
    FieldCount(fw, |a|, shift);
    ShuffleIsShift(fw, a, b, shift);
  }

  lemma {:induction false} NoShift(a: Word, b: Word)
    requires |a| == |b|
    ensures PairShift(a, b, 0) == a && Shl(a, 0) == a
  {
    forall j | 0 <= j < |a|
      ensures PairShift(a, b, 0)[j] == a[j]
    {
      assert PairShift(a, b, 0)[j] == PairBit(a, b, j, 0);
    }
  }

  lemma {:induction false} JoinZeroShifts(a: Word, f: nat, e: nat, s: nat)
    requires 0 < e < 32 && Bits(f + 1, 32) <= |a| && |a| % 32 == 0 && s == f * 32 + e
    ensures Bits(f, 32) <= |a| && s <= |a|
    ensures JoinFields(Shl(a, Bits(f, 32)), Shl(a, Bits(f + 1, 32)), e) == Shl(a, s)
  {
    BitsIsProduct(f, 32);
    ZeroPairShift(a, f * 32);
    ZeroPairShift(a, f * 32 + 32);
    ZeroPairShift(a, s);
    JoinShifts(a, Zeros(|a|), f, e, s);
  }

  /** For every field width and every shift up to the whole register, the shift of the pair by shift * fw bits. */
  function Dslli(fw: nat, a: Word, b: Word, shift: nat, bw16: bool): (r: Word)
    requires |a| == |b| && FieldWidth(fw, |a|) && Bits(shift, fw) <= |a|
    ensures r == PairShift(a, b, Bits(shift, fw))
    decreases if fw > 32 then 33 else 32 - fw
  {
    if shift == 0 then
      NoShift(a, b);
      a
    else if fw > 32 then
      Narrow(fw, shift);
      Dslli(32, a, b, Fields32(shift, fw), bw16)
    else if shift % 2 == 0 && fw < 32 then
      Widen(fw, |a|, shift);
      Dslli(2 * fw, a, b, shift / 2, bw16)
    else if fw == 32 || (bw16 && fw == 16) then
      ShuffledIsShift(fw, a, b, shift);
      ShuffleFields(fw, a, b, shift)
    else
      OddShift(fw, |a|, shift);
      var field32Shift := Bits(shift, fw) / 32;
      var bitShift := Bits(shift, fw) % 32;
      JoinShifts(a, b, field32Shift, bitShift, Bits(shift, fw));
      JoinFields(Dslli(32, a, b, field32Shift, bw16), Dslli(32, a, b, field32Shift + 1, bw16), bitShift)
  }

  /** The shift of the register by shift * fw bits, zeros coming in. */
  function Slli(fw: nat, a: Word, shift: nat, bw16: bool): (r: Word)
    requires FieldWidth(fw, |a|) && Bits(shift, fw) <= |a|
    ensures r == Shl(a, Bits(shift, fw))
    decreases if fw > 32 then 33 else 32 - fw
  {
    if shift == 0 then
      NoShift(a, a);
      a
    else if fw > 32 then
      Narrow(fw, shift);
      Slli(32, a, Fields32(shift, fw), bw16)
    else if shift % 2 == 0 && fw < 32 then
      Widen(fw, |a|, shift);
      Slli(2 * fw, a, shift / 2, bw16)
    else if fw == 32 || (bw16 && fw == 16) then
      ZeroPairShift(a, Bits(shift, fw));
      Dslli(fw, a, Zeros(|a|), shift, bw16)
    else
      OddShift(fw, |a|, shift);
      var field32Shift := Bits(shift, fw) / 32;
      var bitShift := Bits(shift, fw) % 32;
      JoinZeroShifts(a, field32Shift, bitShift, Bits(shift, fw));
      JoinFields(Slli(32, a, field32Shift, bw16), Slli(32, a, field32Shift + 1, bw16), bitShift)
  }

  // ------------------------------------------------------------------ advance by one

  /** 64-bit lane shifts by one and by k, on the whole register. */
  function LaneShl1(x: Word, lane: nat): (r: Word)
    requires lane > 0
    ensures |r| == |x|
  {
    seq(|x|, j requires 0 <= j < |x| => j % lane != 0 && j > 0 && x[j - 1])
  }

  function LaneShr(x: Word, lane: nat, k: nat): (r: Word)
    requires lane > 0
    ensures |r| == |x|
  {
    seq(|x|, j requires 0 <= j < |x| => j % lane + k < lane && j + k < |x| && x[j + k])
  }

  /** The block one bit further, with a bit coming in. */
  function AdvanceOne(a: Word, cin: bool): (r: Word)
    ensures |r| == |a|
  {
    seq(|a|, j requires 0 <= j < |a| => if j == 0 then cin else a[j - 1])
  }

  /** A byte repeated over the whole register. */
  function Broadcast(byte: Word, n: nat): (r: Word)
    requires |byte| == 8
    ensures |r| == n
  {
    seq(n, j requires 0 <= j => byte[j % 8])
  }

  /** AVX2: fields of an eighth of the block (32 bits) are moved by one, then shifted right by 31 and the block
      left by 1, both in 64-bit lanes. */
  function AdvanceAvx2(a: Word, shiftin: Word): (r: (Word, Word))
    requires |a| == 256 && |shiftin| == 8
    ensures r == (OneBit(8, 7, a[255]), AdvanceOne(a, shiftin[7]))
  {
    var fieldShift := Dslli(32, a, Broadcast(shiftin, |a|), 1, true);
    var shifted := Or(LaneShr(fieldShift, 64, 32 - 1), LaneShl1(a, 64));
    var signmask := seq(8, i requires 0 <= i < 8 => a[32 * i + 31]);
    FieldTrick(a, Broadcast(shiftin, |a|), shiftin[7]);
    assert And(signmask, OneBit(8, 7, true)) == OneBit(8, 7, a[255]);
    (And(signmask, OneBit(8, 7, true)), shifted)
  }

  /** The 32-bit fields overlap the 64-bit lanes, but both terms agree wherever they overlap. */
  lemma {:induction false} FieldTrick(a: Word, b: Word, cin: bool)
    requires |a| == |b| == 256 && b[255] == cin
    ensures Or(LaneShr(PairShift(a, b, 32), 64, 31), LaneShl1(a, 64)) == AdvanceOne(a, cin)
  {
    forall j | 0 <= j < |a|
      ensures Or(LaneShr(PairShift(a, b, 32), 64, 31), LaneShl1(a, 64))[j] == AdvanceOne(a, cin)[j]
    {
      if j % 64 < 33 { assert PairShift(a, b, 32)[j + 31] == PairBit(a, b, j + 31, 32); }
    }
  }

  /** AVX-512: fields of 64 bits are moved by one, the carry bits being spread to the tops of a vector of fields. */
  function AdvanceAvx512(a: Word, shiftin: Word, bw16: bool): (r: (Word, Word))
    requires |a| == 512 && |shiftin| == 8
    ensures r == (OneBit(8, 7, a[511]), AdvanceOne(a, shiftin[7]))
  {
    var ecarryIn := seq(512, j requires 0 <= j < 512 => j % 64 == 63 && shiftin[j / 64]);
    var a1 := Dslli(64, a, ecarryIn, 1, bw16);
    var result := Or(LaneShr(a1, 64, 64 - 1), LaneShl1(a, 64));
    var shiftout := seq(8, i requires 0 <= i < 8 => ExceedsMask(a[64 * i..64 * i + 64], i));
    WideTrick(a, ecarryIn, shiftin[7]);
    TopBitExceeds(a, shiftout);
    (shiftout, result)
  }

  lemma {:induction false} WideTrick(a: Word, b: Word, cin: bool)
    requires |a| == |b| == 512 && b[511] == cin
    ensures Or(LaneShr(PairShift(a, b, 64), 64, 63), LaneShl1(a, 64)) == AdvanceOne(a, cin)
  {
    forall j | 0 <= j < |a|
      ensures Or(LaneShr(PairShift(a, b, 64), 64, 63), LaneShl1(a, 64))[j] == AdvanceOne(a, cin)[j]
    {
      if j % 64 == 0 { assert PairShift(a, b, 64)[j + 63] == PairBit(a, b, j + 63, 64); }
    }
  }

  /** The unsigned comparison of a lane with all ones, or in lane 7 with all ones but the top bit. */
  predicate ExceedsMask(lane: Word, i: nat) {
    Val(lane) > (if i == 7 then Pow2(63) else Pow2(64)) - 1
  }

  lemma {:induction false} TopBitExceeds(a: Word, shiftout: Word)
    requires |a| == 512 && |shiftout| == 8
    requires forall i :: 0 <= i < 8 ==> shiftout[i] == ExceedsMask(a[64 * i..64 * i + 64], i)
    ensures shiftout == OneBit(8, 7, a[511])
  {
    forall i | 0 <= i < 8
      ensures shiftout[i] == (i == 7 && a[511])
    {
      LaneExceeds(a[64 * i..64 * i + 64], i, 64);
    }
  }

  lemma {:induction false} LaneExceeds(lane: Word, i: nat, n: nat)
    requires |lane| == n == 64
    ensures ExceedsMask(lane, i) == (i == 7 && lane[63])
  {
    ValToBound(lane, n);
    ValToBound(lane, n - 1);
  }

  // ------------------------------------------------------------------ the whole stream

  /** The blocks advanced one after the other, each taking the carry byte that the one before gave back. */
  function Chained(blocks: seq<Word>, shiftin: Word, wide: bool, bw16: bool): (r: (Word, Word))
    requires |shiftin| == 8 && forall i :: 0 <= i < |blocks| ==> |blocks[i]| == if wide then 512 else 256
    ensures |r.0| == 8
  {
    if |blocks| == 0 then (shiftin, [])
    else
      var (carry, done) := Chained(blocks[..|blocks| - 1], shiftin, wide, bw16);
      var a := blocks[|blocks| - 1];
      var (shiftout, block) := if wide then AdvanceAvx512(a, carry, bw16) else AdvanceAvx2(a, carry);
      (shiftout, done + block)
  }

  /** Chaining the blocks through the carry byte is a one-bit advance of the whole stream. */
  lemma {:induction false} ChainIsAdvance(blocks: seq<Word>, shiftin: Word, wide: bool, bw16: bool)
    requires |shiftin| == 8 && forall i :: 0 <= i < |blocks| ==> |blocks[i]| == if wide then 512 else 256
    ensures var (carry, out) := Chained(blocks, shiftin, wide, bw16);
      && out == AdvanceOne(Joined(blocks), shiftin[7])
      && carry[7] == LastBit(Joined(blocks), shiftin[7])
  {
    if |blocks| > 0 {
      ChainIsAdvance(blocks[..|blocks| - 1], shiftin, wide, bw16);
      AdvanceParts(Joined(blocks[..|blocks| - 1]), blocks[|blocks| - 1], shiftin[7]);
    }
  }

  function LastBit(a: Word, cin: bool): bool {
    if |a| == 0 then cin else a[|a| - 1]
  }

  lemma {:induction false} AdvanceParts(a: Word, b: Word, cin: bool)
    ensures AdvanceOne(a + b, cin) == AdvanceOne(a, cin) + AdvanceOne(b, LastBit(a, cin))
  {
    var whole, parts := AdvanceOne(a + b, cin), AdvanceOne(a, cin) + AdvanceOne(b, LastBit(a, cin));
    forall j | 0 <= j < |whole|
      ensures whole[j] == parts[j]
    {
      if j > |a| { assert (a + b)[j - 1] == b[j - 1 - |a|]; }
    }
  }
}
