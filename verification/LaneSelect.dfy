/** Compressing and expanding the lanes of a register by a lane mask: the two reference functions that every
    instruction set's mvmd_compress and mvmd_expand compute, and what they do to each other. */
module LaneSelect {
  import opened BitWords
  import opened Selection
  import opened IntArith
  import opened LaneAddition
  import opened LaneOps

  /** The selected lanes moved down to the low end in order, zero lanes above. */
  function Compress(a: seq<Word>, mask: Word, fw: nat): (r: seq<Word>)
    requires |a| == |mask|
    ensures |r| == |a|
  {
    Filter(a, mask) + ZeroLanes(|a| - Pop(mask), fw)
  }

  /** The low lanes moved up to the selected positions in order, zero lanes elsewhere. */
  function Expand(a: seq<Word>, mask: Word, fw: nat): (r: seq<Word>)
    requires |a| == |mask|
    ensures |r| == |a|
  {
    Deposit(a, mask, Zeros(fw))
  }

  lemma {:induction false} CompressAt(a: seq<Word>, mask: Word, fw: nat, k: nat)
    requires |a| == |mask| && k < |a|
    ensures Compress(a, mask, fw)[k] == if k < Pop(mask) then a[Select(mask, k)] else Zeros(fw)
  {
    if k < Pop(mask) {
      FilterAt(a, mask, k);
    }
  }

  /** Expanding what was compressed gives back the register with its unselected lanes cleared. */
  lemma {:induction false} ExpandCompress(a: seq<Word>, mask: Word, fw: nat)
    requires |a| == |mask|
    ensures Expand(Compress(a, mask, fw), mask, fw)
         == seq(|a|, i requires 0 <= i < |a| => if mask[i] then a[i] else Zeros(fw))
  {
    DepositPrefix(Compress(a, mask, fw), Filter(a, mask), mask, Zeros(fw));
    DepositFilter(a, mask, Zeros(fw));
  }

  /** Compressing what was expanded gives back the lanes that were placed. */
  lemma {:induction false} CompressExpand(a: seq<Word>, mask: Word, fw: nat)
    requires |a| == |mask|
    ensures Compress(Expand(a, mask, fw), mask, fw) == a[..Pop(mask)] + ZeroLanes(|a| - Pop(mask), fw)
  {
    FilterDeposit(a, mask, Zeros(fw));
  }

  // ------------------------------------------------------------------ wide lanes as several narrow ones

  /** Position of piece b of wide lane k. */
  function At(k: nat, b: nat, c: nat): (r: nat) {
    k * c + b
  }

  lemma {:induction false} AtSplits(k: nat, b: nat, c: nat, n: nat)
    requires k < n && b < c
    ensures At(k, b, c) < n * c && At(k, b, c) / c == k && At(k, b, c) % c == b
  {
    ModUnique(At(k, b, c), c, k, b);
    MulMonotone(k + 1, n, c);
    assert (k + 1) * c == k * c + c;
  }

  lemma {:induction false} SplitIsAt(i: nat, c: nat, n: nat)
    requires i < n * c
    ensures c > 0 && i / c < n && i % c < c && i == At(i / c, i % c, c)
  {
    MulMonotone(0, n, c);
    if c > 0 {
      assert i == (i / c) * c + i % c;
      if i / c >= n { MulMonotone(n, i / c, c); }
    }
  }

  lemma AtStep(k: nat, c: nat)
    requires k > 0
    ensures At(k, 0, c) == At(k - 1, c, c)
  {
  }

  lemma {:induction false} AtMonotone(j: nat, k: nat, c: nat)
    requires j <= k
    ensures At(j, 0, c) <= At(k, 0, c)
  {
    MulMonotone(j, k, c);
  }

  lemma {:induction false} AtFits(k: nat, b: nat, c: nat, n: nat)
    requires k < n && b <= c
    ensures At(k, b, c) <= n * c && At(k, 0, c) <= n * c
  {
    MulMonotone(k + 1, n, c);
    assert (k + 1) * c == k * c + c;
  }

  /** Each mask bit repeated c times. */
  function Dup(mask: Word, c: nat): (r: Word)
    ensures |r| == |mask| * c
  {
    seq(|mask| * c, i requires 0 <= i < |mask| * c => SplitIsAt(i, c, |mask|); mask[i / c])
  }

  predicate Pieces<T>(x: seq<seq<T>>, c: nat) {
    forall i :: 0 <= i < |x| ==> |x[i]| == c
  }

  /** Wide lanes, given as the sequences of their pieces, side by side. */
  function Flat<T>(x: seq<seq<T>>, c: nat): (r: seq<T>)
    requires Pieces(x, c)
    ensures |r| == |x| * c
  {
    seq(|x| * c, i requires 0 <= i < |x| * c => SplitIsAt(i, c, |x|); x[i / c][i % c])
  }

  lemma {:induction false} DupAt(mask: Word, c: nat, k: nat, b: nat)
    requires k < |mask| && b < c
    ensures At(k, b, c) < |Dup(mask, c)| && Dup(mask, c)[At(k, b, c)] == mask[k]
  {
    AtSplits(k, b, c, |mask|);
  }

  lemma {:induction false} FlatAt<T>(x: seq<seq<T>>, c: nat, k: nat, b: nat)
    requires Pieces(x, c) && k < |x| && b < c
    ensures At(k, b, c) < |Flat(x, c)| && Flat(x, c)[At(k, b, c)] == x[k][b]
  {
    AtSplits(k, b, c, |x|);
  }

  /** A sequence is the flattening of x when it has the pieces of x at their places. */
  lemma {:induction false} FlatIs<T>(s: seq<T>, x: seq<seq<T>>, c: nat)
    requires Pieces(x, c) && |s| == |x| * c
    requires forall k, b :: 0 <= k < |x| && 0 <= b < c ==> At(k, b, c) < |s| && s[At(k, b, c)] == x[k][b]
    ensures s == Flat(x, c)
  {
    forall i | 0 <= i < |s|
      ensures s[i] == Flat(x, c)[i]
    {
      SplitIsAt(i, c, |x|);
    }
  }

  lemma {:induction false} RankDup(mask: Word, c: nat, k: nat, b: nat)
    requires b <= c && (k < |mask| || (k == |mask| && b == 0))
    ensures At(k, b, c) <= |mask| * c
    ensures Rank(Dup(mask, c), At(k, b, c)) == At(Rank(mask, k), if k < |mask| && mask[k] then b else 0, c)
    decreases k, b
  {
    if b > 0 {
      RankDup(mask, c, k, b - 1);
      DupAt(mask, c, k, b - 1);
    } else if k > 0 {
      AtStep(k, c);
      RankDup(mask, c, k - 1, c);
      if mask[k - 1] { AtStep(Rank(mask, k), c); }
    }
  }

  lemma {:induction false} PopDup(mask: Word, c: nat)
    ensures Pop(Dup(mask, c)) == Pop(mask) * c
  {
    RankDup(mask, c, |mask|, 0);
  }

  lemma {:induction false} RankAll(mask: Word, n: nat, b: bool)
    requires n <= |mask| && forall i :: 0 <= i < n ==> mask[i] == b
    ensures Rank(mask, n) == if b then n else 0
  {
    if n > 0 { RankAll(mask, n - 1, b); }
  }

  lemma {:induction false} FilterNone<T>(s: seq<T>, mask: Word)
    requires |s| == |mask| && forall i :: 0 <= i < |s| ==> !mask[i]
    ensures Filter(s, mask) == []
  {
    RankAll(mask, |mask|, false);
  }

  lemma {:induction false} PiecesFilter<T>(x: seq<seq<T>>, mask: Word, c: nat)
    requires |x| == |mask| && Pieces(x, c)
    ensures Pieces(Filter(x, mask), c)
  {
    forall k | 0 <= k < Pop(mask)
      ensures |Filter(x, mask)[k]| == c
    {
      FilterAt(x, mask, k);
    }
  }

  lemma {:induction false} SelectDup(mask: Word, c: nat, k: nat, b: nat)
    requires k < Pop(mask) && b < c
    ensures At(k, b, c) < Pop(Dup(mask, c)) && Select(Dup(mask, c), At(k, b, c)) == At(Select(mask, k), b, c)
  {
    var p, dup := Select(mask, k), Dup(mask, c);
    PopDup(mask, c);
    AtSplits(k, b, c, Pop(mask));
    DupAt(mask, c, p, b);
    RankDup(mask, c, p, b);
    RankInjective(dup, At(p, b, c), Select(dup, At(k, b, c)));
  }

  lemma {:induction false} FilterFlatAt<T>(x: seq<seq<T>>, mask: Word, c: nat, k: nat, b: nat)
    requires |x| == |mask| && Pieces(x, c) && k < Pop(mask) && b < c
    ensures At(k, b, c) < Pop(Dup(mask, c))
    ensures |Filter(x, mask)[k]| == c && Filter(Flat(x, c), Dup(mask, c))[At(k, b, c)] == Filter(x, mask)[k][b]
  {
    SelectDup(mask, c, k, b);
    FilterAt(Flat(x, c), Dup(mask, c), At(k, b, c));
    FlatAt(x, c, Select(mask, k), b);
    FilterAt(x, mask, k);
  }

  lemma {:induction false} DepositFlatAt<T>(q: seq<seq<T>>, mask: Word, c: nat, zero: T, k: nat, b: nat)
    requires Pop(mask) <= |q| && Pieces(q, c) && k < |mask| && b < c && Pop(Dup(mask, c)) <= |Flat(q, c)|
    ensures |Deposit(q, mask, seq(c, _ => zero))[k]| == c && At(k, b, c) < |Dup(mask, c)|
    ensures Deposit(Flat(q, c), Dup(mask, c), zero)[At(k, b, c)] == Deposit(q, mask, seq(c, _ => zero))[k][b]
  {
    DupAt(mask, c, k, b);
    if mask[k] {
      RankBelowPop(mask, k);
      RankDup(mask, c, k, b);
      FlatAt(q, c, Rank(mask, k), b);
    }
  }

  /** Depositing narrow pieces by the repeated mask deposits the wide lanes. */
  lemma {:induction false} DepositFlat<T>(q: seq<seq<T>>, mask: Word, c: nat, zero: T)
    requires Pop(mask) <= |q| && Pieces(q, c)
    ensures Pop(Dup(mask, c)) <= |Flat(q, c)|
    ensures Pieces(Deposit(q, mask, seq(c, _ => zero)), c)
    ensures Deposit(Flat(q, c), Dup(mask, c), zero) == Flat(Deposit(q, mask, seq(c, _ => zero)), c)
  {
    PopDup(mask, c);
    MulMonotone(Pop(mask), |q|, c);
    var d, wide := Deposit(Flat(q, c), Dup(mask, c), zero), Deposit(q, mask, seq(c, _ => zero));
    forall k | 0 <= k < |mask|
      ensures |wide[k]| == c
    {
      if mask[k] { RankBelowPop(mask, k); }
    }
    forall k, b | 0 <= k < |mask| && 0 <= b < c
      ensures At(k, b, c) < |d| && d[At(k, b, c)] == wide[k][b]
    {
      DepositFlatAt(q, mask, c, zero, k, b);
    }
    FlatIs(d, wide, c);
  }

  /** Wide lanes, as c narrow ones each, compressed. */
  function CompressPieces(x: seq<seq<Word>>, mask: Word, c: nat, fw: nat): (r: seq<seq<Word>>)
    requires |x| == |mask| && Pieces(x, c)
    ensures |r| == |x| && Pieces(r, c)
  {
    PiecesFilter(x, mask, c);
    Filter(x, mask) + seq(|x| - Pop(mask), _ => ZeroLanes(c, fw))
  }

  /** Compressing the narrow lanes by the repeated mask compresses the wide lanes. */
  lemma {:induction false} CompressFlat(x: seq<seq<Word>>, mask: Word, c: nat, fw: nat)
    requires |x| == |mask| && Pieces(x, c)
    ensures Compress(Flat(x, c), Dup(mask, c), fw) == Flat(CompressPieces(x, mask, c, fw), c)
  {
    var narrow, wide := Compress(Flat(x, c), Dup(mask, c), fw), CompressPieces(x, mask, c, fw);
    PopDup(mask, c);
    forall k, b | 0 <= k < |x| && 0 <= b < c
      ensures At(k, b, c) < |narrow| && narrow[At(k, b, c)] == wide[k][b]
    {
      AtSplits(k, b, c, |x|);
      if k < Pop(mask) {
        FilterFlatAt(x, mask, c, k, b);
      } else {
        MulMonotone(Pop(mask), k, c);
      }
    }
    FlatIs(narrow, wide, c);
  }

  /** Expanding the narrow lanes by the repeated mask expands the wide lanes. */
  lemma {:induction false} ExpandFlat(x: seq<seq<Word>>, mask: Word, c: nat, fw: nat)
    requires |x| == |mask| && Pieces(x, c)
    ensures Pieces(Deposit(x, mask, ZeroLanes(c, fw)), c)
    ensures Expand(Flat(x, c), Dup(mask, c), fw) == Flat(Deposit(x, mask, ZeroLanes(c, fw)), c)
  {
    DepositFlat(x, mask, c, Zeros(fw));
    assert ZeroLanes(c, fw) == seq(c, _ => Zeros(fw));
  }

  lemma {:induction false} RankNot(mask: Word, n: nat)
    requires n <= |mask|
    ensures Rank(Not(mask), n) == n - Rank(mask, n)
  {
    if n > 0 { RankNot(mask, n - 1); }
  }
}
