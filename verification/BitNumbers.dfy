/** The binary digits of a number as a word. */
module BitNumbers {
  import opened BitWords
  import opened IntArith

  function NumBit(k: nat, i: nat): bool {
    (k / Pow2(i)) % 2 == 1
  }

  /** The low i digits of k in a word of width n. */
  function LowDigits(k: nat, i: nat, n: nat): (r: Word)
    ensures |r| == n
  {
    seq(n, j requires 0 <= j => j < i && NumBit(k, j))
  }

  function Digits(k: nat, n: nat): (r: Word)
    ensures |r| == n
  {
    LowDigits(k, n, n)
  }

  lemma {:induction false} LowDigitsValueTo(k: nat, i: nat, n: nat, j: nat)
    requires j <= n
    ensures ValTo(LowDigits(k, i, n), j) == k % Pow2(if j <= i then j else i)
  {
    if j > 0 {
      LowDigitsValueTo(k, i, n, j - 1);
      if j <= i { ModDouble(k, Pow2(j - 1)); }
    }
  }

  /** Enough digits give the number back. */
  lemma {:induction false} LowDigitsValue(k: nat, i: nat, n: nat)
    requires i <= n && k < Pow2(i)
    ensures Val(LowDigits(k, i, n)) == k
  {
    LowDigitsValueTo(k, i, n, n);
    SmallMod(k, Pow2(i));
  }

  lemma {:induction false} DigitsValue(k: nat, n: nat)
    requires k < Pow2(n)
    ensures Val(Digits(k, n)) == k
  {
    LowDigitsValue(k, n, n);
  }

  lemma ZeroDigits(i: nat, n: nat)
    ensures LowDigits(0, i, n) == Zeros(n)
  {
  }

  /** A word is the digits of its value. */
  lemma {:induction false} DigitsOfValue(a: Word)
    ensures Digits(Val(a), |a|) == a
  {
    ValToBound(a, |a|);
    DigitsValue(Val(a), |a|);
    ValInjective(Digits(Val(a), |a|), a);
  }
}
