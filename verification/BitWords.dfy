/** Machine words as bit sequences, least significant bit first.

    Registers, lane masks and carry masks are all modelled as `Word`s.  Addition and subtraction are
    the ripple circuits; `AddValue` and `SubValue` tie them to integer arithmetic modulo 2^n.
    A shift by the full width or more yields zeros. */
module BitWords {

  type Word = seq<bool>

  function Pow2(n: nat): (r: nat)
    ensures r > 0
  {
    if n == 0 then 1 else 2 * Pow2(n - 1)
  }

  /** The integer value of the low n bits. */
  function ValTo(s: Word, n: nat): nat
    requires n <= |s|
  {
    if n == 0 then 0 else ValTo(s, n - 1) + Weigh(s[n - 1], Pow2(n - 1))
  }

  function Val(s: Word): nat {
    ValTo(s, |s|)
  }

  function Bit(b: bool): nat {
    if b then 1 else 0
  }

  /** The contribution of a bit of weight p. */
  function Weigh(b: bool, p: nat): nat {
    if b then p else 0
  }

  function Maj(a: bool, b: bool, c: bool): bool {
    (a && b) || (a && c) || (b && c)
  }

  /** Carry into position i of a + b + c. */
  function Carry(a: Word, b: Word, c: bool, i: nat): bool
    requires i <= |a| == |b|
  {
    if i == 0 then c else Maj(a[i - 1], b[i - 1], Carry(a, b, c, i - 1))
  }

  function AddC(a: Word, b: Word, c: bool): (r: Word)
    requires |a| == |b|
    ensures |r| == |a|
  {
    seq(|a|, i requires 0 <= i < |a| => (a[i] != b[i]) != Carry(a, b, c, i))
  }

  function Add(a: Word, b: Word): (r: Word)
    requires |a| == |b|
    ensures |r| == |a|
  {
    AddC(a, b, false)
  }

  /** Borrow into position i of a - b. */
  function Borrow(a: Word, b: Word, i: nat): bool
    requires i <= |a| == |b|
  {
    if i == 0 then false else Maj(!a[i - 1], b[i - 1], Borrow(a, b, i - 1))
  }

  function Sub(a: Word, b: Word): (r: Word)
    requires |a| == |b|
    ensures |r| == |a|
  {
    seq(|a|, i requires 0 <= i < |a| => (a[i] != b[i]) != Borrow(a, b, i))
  }

  function And(a: Word, b: Word): (r: Word)
    requires |a| == |b|
    ensures |r| == |a|
  {
    seq(|a|, i requires 0 <= i < |a| => a[i] && b[i])
  }

  function Or(a: Word, b: Word): (r: Word)
    requires |a| == |b|
    ensures |r| == |a|
  {
    seq(|a|, i requires 0 <= i < |a| => a[i] || b[i])
  }

  function Xor(a: Word, b: Word): (r: Word)
    requires |a| == |b|
    ensures |r| == |a|
  {
    seq(|a|, i requires 0 <= i < |a| => a[i] != b[i])
  }

  function Not(a: Word): (r: Word)
    ensures |r| == |a|
  {
    seq(|a|, i requires 0 <= i < |a| => !a[i])
  }

  function Zeros(n: nat): (r: Word)
    ensures |r| == n
  {
    seq(n, _ => false)
  }

  function Ones(n: nat): (r: Word)
    ensures |r| == n
  {
    seq(n, _ => true)
  }

  /** The word of width n holding the single bit b in position k. */
  function OneBit(n: nat, k: nat, b: bool): (r: Word)
    ensures |r| == n
  {
    seq(n, i => i == k && b)
  }

  function Shl(a: Word, k: nat): (r: Word)
    ensures |r| == |a|
  {
    seq(|a|, i requires 0 <= i < |a| => i >= k && a[i - k])
  }

  function Shr(a: Word, k: nat): (r: Word)
    ensures |r| == |a|
  {
    seq(|a|, i requires 0 <= i < |a| => i + k < |a| && a[i + k])
  }

  function ZExt(a: Word, n: nat): (r: Word)
    ensures |r| == n
  {
    seq(n, i requires 0 <= i => i < |a| && a[i])
  }

  function Trunc(a: Word, n: nat): Word
    requires n <= |a|
  {
    a[..n]
  }

  // ----- blocks

  /** A block of lanes, each a word of one common width w. */
  predicate Lanes(e: seq<Word>, w: nat) {
    forall i :: 0 <= i < |e| ==> |e[i]| == w
  }

  /** Words side by side, as one. */
  function Joined(words: seq<Word>): Word {
    if |words| == 0 then [] else Joined(words[..|words| - 1]) + words[|words| - 1]
  }

  // ----- arithmetic meaning of the circuits

  lemma ValToBound(s: Word, n: nat)
    requires n <= |s|
    ensures ValTo(s, n) < Pow2(n)
  {
  }

  /** ValTo depends on the low n bits only. */
  lemma ValToExt(s: Word, t: Word, n: nat)
    requires n <= |s| && n <= |t|
    requires forall i :: 0 <= i < n ==> s[i] == t[i]
    ensures ValTo(s, n) == ValTo(t, n)
  {
  }

  lemma {:induction false} AddValueTo(a: Word, b: Word, c: bool, n: nat)
    requires n <= |a| == |b|
    ensures ValTo(AddC(a, b, c), n) + Weigh(Carry(a, b, c, n), Pow2(n))
         == ValTo(a, n) + ValTo(b, n) + Bit(c)
  {
    if n > 0 {
      AddValueTo(a, b, c, n - 1);
    }
  }

  /** The ripple adder computes a + b + c, its carry out being the bit of weight 2^|a|. */
  lemma {:induction false} AddValue(a: Word, b: Word, c: bool)
    requires |a| == |b|
    ensures Val(AddC(a, b, c)) + Weigh(Carry(a, b, c, |a|), Pow2(|a|)) == Val(a) + Val(b) + Bit(c)
    ensures Val(AddC(a, b, c)) < Pow2(|a|)
  {
    AddValueTo(a, b, c, |a|);
    ValToBound(AddC(a, b, c), |a|);
  }

  lemma {:induction false} SubValueTo(a: Word, b: Word, n: nat)
    requires n <= |a| == |b|
    ensures ValTo(Sub(a, b), n) == ValTo(a, n) - ValTo(b, n) + Weigh(Borrow(a, b, n), Pow2(n))
  {
    if n > 0 {
      SubValueTo(a, b, n - 1);
    }
  }

  /** The ripple subtracter computes a - b modulo 2^|a|. */
  lemma {:induction false} SubValue(a: Word, b: Word)
    requires |a| == |b|
    ensures Val(Sub(a, b)) == Val(a) - Val(b) + Weigh(Borrow(a, b, |a|), Pow2(|a|))
  {
    SubValueTo(a, b, |a|);
  }

  lemma {:induction false} ValInjectiveTo(a: Word, b: Word, n: nat)
    requires n <= |a| && n <= |b|
    requires ValTo(a, n) == ValTo(b, n)
    ensures forall i :: 0 <= i < n ==> a[i] == b[i]
  {
    if n > 0 {
      ValToBound(a, n - 1);
      ValToBound(b, n - 1);
      ValInjectiveTo(a, b, n - 1);
    }
  }

  /** Words of one width are determined by their value. */
  lemma {:induction false} ValInjective(a: Word, b: Word)
    requires |a| == |b| && Val(a) == Val(b)
    ensures a == b
  {
    ValInjectiveTo(a, b, |a|);
  }

  lemma {:induction false} AllOnesValueTo(a: Word, n: nat)
    requires n <= |a|
    ensures ValTo(a, n) == Pow2(n) - 1 <==> forall i :: 0 <= i < n ==> a[i]
  {
    if n > 0 {
      AllOnesValueTo(a, n - 1);
      ValToBound(a, n - 1);
    }
  }

  lemma {:induction false} OneBitValueTo(n: nat, b: bool, m: nat)
    requires m <= n
    ensures ValTo(OneBit(n, 0, b), m) == if m == 0 then 0 else Bit(b)
  {
    if m > 0 {
      OneBitValueTo(n, b, m - 1);
    }
  }

  /** a + a is a shifted up by one. */
  lemma {:induction false} DoubleIsShift(a: Word)
    ensures Add(a, a) == Shl(a, 1)
  {
    forall i | 0 <= i < |a|
      ensures Add(a, a)[i] == Shl(a, 1)[i]
    {
      assert Carry(a, a, false, i) == (i > 0 && a[i - 1]);
    }
  }

  lemma {:induction false} Pow2Add(m: nat, n: nat)
    ensures Pow2(m + n) == Pow2(m) * Pow2(n)
  {
    if m > 0 {
      Pow2Add(m - 1, n);
    }
  }
}
