/** Selecting elements of a sequence by a mask, and putting elements back at the positions of a mask.
    These are the reference definitions behind PEXT, PDEP, compress and expand. */
module Selection {

  /** Number of set positions below n: the rank of position n. */
  function Rank(mask: seq<bool>, n: nat): (r: nat)
    requires n <= |mask|
    ensures r <= n
  {
    if n == 0 then 0 else Rank(mask, n - 1) + (if mask[n - 1] then 1 else 0)
  }

  function Pop(mask: seq<bool>): (r: nat)
    ensures r <= |mask|
  {
    Rank(mask, |mask|)
  }

  /** The elements at set positions, in order. */
  function Filter<T>(s: seq<T>, mask: seq<bool>): (r: seq<T>)
    requires |s| == |mask|
    ensures |r| == Pop(mask)
    decreases |s|
  {
    if |s| == 0 then []
    else
      var n := |s| - 1;
      RankPrefix(mask, n, n);
      Filter(s[..n], mask[..n]) + (if mask[n] then [s[n]] else [])
  }

  /** The first Pop(mask) elements of q at the set positions, `zero` elsewhere. */
  function Deposit<T>(q: seq<T>, mask: seq<bool>, zero: T): (r: seq<T>)
    requires Pop(mask) <= |q|
    ensures |r| == |mask|
  {
    seq(|mask|, i requires 0 <= i < |mask| =>
      if mask[i] then RankBelowPop(mask, i); q[Rank(mask, i)] else zero)
  }

  /** The position of the k-th set bit. */
  function Select(mask: seq<bool>, k: nat): (p: nat)
    requires k < Pop(mask)
    ensures p < |mask| && mask[p] && Rank(mask, p) == k
    decreases |mask|
  {
    var n := |mask| - 1;
    RankPrefix(mask, n, n);
    if k == Rank(mask, n) then n
    else
      var p := Select(mask[..n], k);
      RankPrefix(mask, n, p);
      p
  }

  lemma {:induction false} RankPrefix(mask: seq<bool>, m: nat, n: nat)
    requires n <= m <= |mask|
    ensures Rank(mask[..m], n) == Rank(mask, n)
  {
    if n > 0 {
      RankPrefix(mask, m, n - 1);
    }
  }

  lemma {:induction false} RankMonotone(mask: seq<bool>, a: nat, b: nat)
    requires a <= b <= |mask|
    ensures Rank(mask, a) <= Rank(mask, b) <= Rank(mask, a) + (b - a)
    decreases b
  {
    if a < b {
      RankMonotone(mask, a, b - 1);
    }
  }

  lemma {:induction false} RankBelowPop(mask: seq<bool>, i: nat)
    requires i < |mask| && mask[i]
    ensures Rank(mask, i) < Pop(mask)
  {
    RankMonotone(mask, i + 1, |mask|);
  }

  lemma {:induction false} RankStrict(mask: seq<bool>, a: nat, b: nat)
    requires a < b <= |mask| && mask[a]
    ensures Rank(mask, a) < Rank(mask, b)
  {
    RankMonotone(mask, a + 1, b);
  }

  /** Two set positions of the same rank are the same position. */
  lemma {:induction false} RankInjective(mask: seq<bool>, a: nat, b: nat)
    requires a < |mask| && b < |mask| && mask[a] && mask[b] && Rank(mask, a) == Rank(mask, b)
    ensures a == b
  {
    if a < b {
      RankStrict(mask, a, b);
    } else if b < a {
      RankStrict(mask, b, a);
    }
  }

  lemma {:induction false} RankConcat(a: seq<bool>, b: seq<bool>, n: nat)
    requires n <= |b|
    ensures Rank(a + b, |a| + n) == Pop(a) + Rank(b, n)
  {
    if n == 0 {
      assert (a + b)[..|a|] == a;
      RankPrefix(a + b, |a|, |a|);
    } else {
      RankConcat(a, b, n - 1);
      assert (a + b)[|a| + n - 1] == b[n - 1];
    }
  }

  lemma {:induction false} FilterConcat<T>(s: seq<T>, m: seq<bool>, s': seq<T>, m': seq<bool>)
    requires |s| == |m| && |s'| == |m'|
    ensures Filter(s + s', m + m') == Filter(s, m) + Filter(s', m')
    ensures Pop(m + m') == Pop(m) + Pop(m')
    decreases |s'|
  {
    RankConcat(m, m', |m'|);
    if |s'| == 0 {
      assert s + s' == s && m + m' == m;
    } else {
      var n := |s'| - 1;
      FilterConcat(s, m, s'[..n], m'[..n]);
      assert (s + s')[..|s| + n] == s + s'[..n];
      assert (m + m')[..|s| + n] == m + m'[..n];
      assert (s + s')[|s| + n] == s'[n] && (m + m')[|s| + n] == m'[n];
    }
  }

  lemma {:induction false} DepositConcat<T>(q: seq<T>, m: seq<bool>, m': seq<bool>, zero: T)
    requires Pop(m) + Pop(m') <= |q|
    ensures Pop(m + m') == Pop(m) + Pop(m')
    ensures Deposit(q, m + m', zero) == Deposit(q, m, zero) + Deposit(q[Pop(m)..], m', zero)
  {
    RankConcat(m, m', |m'|);
    var all := Deposit(q, m + m', zero);
    forall i | 0 <= i < |m|
      ensures all[i] == Deposit(q, m, zero)[i]
    {
      assert (m + m')[..|m|] == m;
      RankPrefix(m + m', |m|, i);
      if m[i] {
        RankBelowPop(m, i);
      }
    }
    forall i | 0 <= i < |m'|
      ensures all[|m| + i] == Deposit(q[Pop(m)..], m', zero)[i]
    {
      RankConcat(m, m', i);
      if m'[i] {
        RankBelowPop(m', i);
        assert (m + m')[|m| + i];
        assert q[Pop(m)..][Rank(m', i)] == q[Pop(m) + Rank(m', i)];
      }
    }
  }

  /** Only the first Pop(mask) elements of the queue matter. */
  lemma {:induction false} DepositPrefix<T>(q: seq<T>, q': seq<T>, mask: seq<bool>, zero: T)
    requires Pop(mask) <= |q| && Pop(mask) <= |q'|
    requires forall k :: 0 <= k < Pop(mask) ==> q[k] == q'[k]
    ensures Deposit(q, mask, zero) == Deposit(q', mask, zero)
  {
    forall i | 0 <= i < |mask|
      ensures Deposit(q, mask, zero)[i] == Deposit(q', mask, zero)[i]
    {
      if mask[i] {
        RankBelowPop(mask, i);
      }
    }
  }

  /** The k-th element of the filtered sequence is the one at the k-th set position. */
  lemma {:induction false} FilterAt<T>(s: seq<T>, mask: seq<bool>, k: nat)
    requires |s| == |mask| && k < Pop(mask)
    ensures Filter(s, mask)[k] == s[Select(mask, k)]
    decreases |s|
  {
    var n := |s| - 1;
    RankPrefix(mask, n, n);
    if k < Rank(mask, n) {
      FilterAt(s[..n], mask[..n], k);
    }
  }

  /** Filtering and depositing with one mask gives back the sequence with the other positions cleared. */
  lemma {:induction false} DepositFilter<T>(s: seq<T>, mask: seq<bool>, zero: T)
    requires |s| == |mask|
    ensures Deposit(Filter(s, mask), mask, zero) == seq(|s|, i requires 0 <= i < |s| => if mask[i] then s[i] else zero)
  {
    var d := Deposit(Filter(s, mask), mask, zero);
    forall i | 0 <= i < |s|
      ensures d[i] == if mask[i] then s[i] else zero
    {
      if mask[i] {
        RankBelowPop(mask, i);
        FilterAt(s, mask, Rank(mask, i));
        RankInjective(mask, i, Select(mask, Rank(mask, i)));
      }
    }
  }

  /** Filtering undoes depositing. */
  lemma {:induction false} FilterDeposit<T>(q: seq<T>, mask: seq<bool>, zero: T)
    requires Pop(mask) <= |q|
    ensures Filter(Deposit(q, mask, zero), mask) == q[..Pop(mask)]
  {
    var d := Deposit(q, mask, zero);
    forall k | 0 <= k < Pop(mask)
      ensures Filter(d, mask)[k] == q[k]
    {
      FilterAt(d, mask, k);
    }
  }
}
