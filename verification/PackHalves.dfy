/** IDISA_I64_Builder::hsimd_packl and hsimd_packh: gathering the low or the high halves of all fields of two
    words by mask-and-shift steps of doubling width.

    h is half the field width, and a word has 2 * h * c bits, c a power of two. */
module PackHalves {
  import opened IntArith
  import opened BitWords

  // ------------------------------------------------------------------ the masks and one doubling step

  /** The low half of every field of width w. */
  function LoMask(w: nat, n: nat): (r: Word)
    requires w > 0
    ensures |r| == n
  {
    seq(n, j requires 0 <= j => j % w < w / 2)
  }

  function HiMask(w: nat, n: nat): (r: Word)
    requires w > 0
    ensures |r| == n
  {
    seq(n, j requires 0 <= j => j % w >= w / 2)
  }

  function LomaskOdd(w: nat, n: nat): (r: Word)
    requires w > 0
    ensures |r| == n
  {
    And(LoMask(w, n), HiMask(2 * w, n))
  }

  function LomaskEven(w: nat, n: nat): (r: Word)
    requires w > 0
    ensures |r| == n
  {
    And(LoMask(w, n), LoMask(2 * w, n))
  }

  function HimaskOdd(w: nat, n: nat): (r: Word)
    requires w > 0
    ensures |r| == n
  {
    And(HiMask(w, n), HiMask(2 * w, n))
  }

  function HimaskEven(w: nat, n: nat): (r: Word)
    requires w > 0
    ensures |r| == n
  {
    And(HiMask(w, n), LoMask(2 * w, n))
  }

  function MaskedDown(x: Word, keep: Word, move: Word, k: nat): (r: Word)
    requires |keep| == |move| == |x|
    ensures |r| == |x|
  {
    Or(And(x, keep), Shr(And(x, move), k))
  }

  function MaskedUp(x: Word, keep: Word, move: Word, k: nat): (r: Word)
    requires |keep| == |move| == |x|
    ensures |r| == |x|
  {
    Or(And(x, keep), Shl(And(x, move), k))
  }

  function StepLow(x: Word, w: nat): (r: Word)
    requires w > 0
    ensures |r| == |x|
  {
    MaskedDown(x, LomaskEven(w, |x|), LomaskOdd(w, |x|), w / 2)
  }

  function StepHigh(x: Word, w: nat): (r: Word)
    requires w > 0
    ensures |r| == |x|
  {
    MaskedUp(x, HimaskOdd(w, |x|), HimaskEven(w, |x|), w / 2)
  }

  /** Position j within its double field: which field of width 2 * v it is in, and where. */
  lemma {:induction false} Split(j: nat, v: nat, q: nat, r: nat)
    requires v > 0 && j == q * (4 * v) + r && r < 4 * v
    ensures j % (4 * v) == r && j % (2 * v) == if r < 2 * v then r else r - 2 * v
  {
    ModUnique(j, 4 * v, q, r);
    assert q * (4 * v) == (2 * q) * (2 * v);
    assert (2 * q + 1) * (2 * v) == (2 * q) * (2 * v) + 2 * v;
    if r < 2 * v {
      ModUnique(j, 2 * v, 2 * q, r);
    } else {
      ModUnique(j, 2 * v, 2 * q + 1, r - 2 * v);
    }
  }

  lemma {:induction false} DoubleFieldFits(q: nat, r: nat, v: nat, m: nat)
    requires v > 0 && r < 4 * v && q * (4 * v) + r < m * (4 * v)
    ensures q * (4 * v) + 4 * v <= m * (4 * v)
  {
    DivIs(q * (4 * v) + r, 4 * v, q, r);
    if q >= m { MulMonotone(m, q, 4 * v); }
    MulMonotone(q + 1, m, 4 * v);
    assert (q + 1) * (4 * v) == q * (4 * v) + 4 * v;
  }

  /** The masks at bit r of double field q. */
  lemma {:induction false} Masks(n: nat, v: nat, q: nat, r: nat, j: nat)
    requires v > 0 && r < 4 * v && j == q * (4 * v) + r < n
    ensures LomaskEven(2 * v, n)[j] == (r < v) && LomaskOdd(2 * v, n)[j] == (2 * v <= r < 3 * v)
    ensures HimaskEven(2 * v, n)[j] == (v <= r < 2 * v) && HimaskOdd(2 * v, n)[j] == (r >= 3 * v)
  {
    Split(j, v, q, r);
  }

  lemma {:induction false} MasksAhead(n: nat, v: nat, q: nat, r: nat, j: nat)
    requires v > 0 && r < 4 * v && j == q * (4 * v) + r && j + v < n
    ensures LomaskOdd(2 * v, n)[j + v] == (v <= r < 2 * v)
  {
    if r + v < 4 * v {
      Masks(n, v, q, r + v, j + v);
    } else {
      assert (q + 1) * (4 * v) == q * (4 * v) + 4 * v;
      Masks(n, v, q + 1, r + v - 4 * v, j + v);
    }
  }

  lemma {:induction false} MasksBehind(n: nat, v: nat, q: nat, r: nat, j: nat)
    requires v > 0 && r < 4 * v && v <= j == q * (4 * v) + r < n
    ensures HimaskEven(2 * v, n)[j - v] == (2 * v <= r < 3 * v)
  {
    if r >= v {
      Masks(n, v, q, r - v, j - v);
    } else {
      assert q != 0;
      assert (q - 1) * (4 * v) == q * (4 * v) - 4 * v;
      Masks(n, v, q - 1, r + 3 * v, j - v);
    }
  }

  lemma MaskedDownBit(x: Word, keep: Word, move: Word, k: nat, j: nat)
    requires |keep| == |move| == |x| && j < |x|
    ensures MaskedDown(x, keep, move, k)[j] == ((x[j] && keep[j]) || (j + k < |x| && x[j + k] && move[j + k]))
  {
  }

  lemma MaskedUpBit(x: Word, keep: Word, move: Word, k: nat, j: nat)
    requires |keep| == |move| == |x| && j < |x|
    ensures MaskedUp(x, keep, move, k)[j] == ((x[j] && keep[j]) || (j >= k && x[j - k] && move[j - k]))
  {
  }

  /** One low step at bit r of double field q. */
  lemma {:induction false} StepLowAt(x: Word, v: nat, m: nat, q: nat, r: nat, j: nat)
    requires v > 0 && |x| == m * (4 * v) && r < 4 * v && j == q * (4 * v) + r < |x|
    ensures r >= v && r < 2 * v ==> j + v < |x|
    ensures StepLow(x, 2 * v)[j] == if r < v then x[j] else if r < 2 * v then x[j + v] else false
  {
    DoubleFieldFits(q, r, v, m);
    Masks(|x|, v, q, r, j);
    var keep, move := LomaskEven(2 * v, |x|), LomaskOdd(2 * v, |x|);
    MaskedDownBit(x, keep, move, v, j);
    if j + v < |x| { MasksAhead(|x|, v, q, r, j); }
  }

  lemma {:induction false} StepHighAt(x: Word, v: nat, m: nat, q: nat, r: nat, j: nat)
    requires v > 0 && |x| == m * (4 * v) && r < 4 * v && j == q * (4 * v) + r < |x|
    ensures j >= r
    ensures StepHigh(x, 2 * v)[j] == if r >= 3 * v then x[j] else if r >= 2 * v then x[j - v] else false
  {
    MulMonotone(0, q, 4 * v);
    Masks(|x|, v, q, r, j);
    var keep, move := HimaskOdd(2 * v, |x|), HimaskEven(2 * v, |x|);
    MaskedUpBit(x, keep, move, v, j);
    if j >= v { MasksBehind(|x|, v, q, r, j); }
  }

  // ------------------------------------------------------------------ what the loop maintains

  /** Where bit r of the gathered halves comes from, counted from the start of the fields. */
  function Source(r: nat, h: nat): (s: nat)
    requires h > 0
  {
    (r / h) * (2 * h) + r % h
  }

  lemma {:induction false} SourceShift(r: nat, h: nat, c: nat)
    requires h > 0 && r >= h * c
    ensures Source(r, h) == Source(r - h * c, h) + 2 * (h * c)
  {
    var q, e := (r - h * c) / h, (r - h * c) % h;
    assert r - h * c == q * h + e;
    assert (q + c) * h == q * h + h * c;
    ModUnique(r, h, q + c, e);
    assert (q + c) * (2 * h) == q * (2 * h) + 2 * (h * c);
  }

  lemma {:induction false} SourceInField(r: nat, h: nat, c: nat)
    requires h > 0 && r < h * c
    ensures Source(r, h) + h < 2 * (h * c)
  {
    var q, e := r / h, r % h;
    assert r == q * h + e;
    if q >= c { MulMonotone(c, q, h); }
    MulMonotone(q + 1, c, h);
    assert (q + 1) * h == q * h + h;
    assert q * (2 * h) == 2 * (q * h);
  }

  lemma {:induction false} FieldFits(q: nat, r: nat, v: nat, m: nat)
    requires q < m && r < 2 * v
    ensures q * (2 * v) + r < m * (2 * v)
  {
    MulMonotone(q + 1, m, 2 * v);
    assert (q + 1) * (2 * v) == q * (2 * v) + 2 * v;
  }

  /** In every field of width 2 * v, the low half holds the low halves of the original fields in it, and the
      high half is clear once a step has been done.  v == h * c. */
  ghost predicate LowAt(x: Word, a: Word, h: nat, v: nat, q: nat, r: nat)
    requires h > 0
  {
    var j, s := q * (2 * v) + r, q * (2 * v) + Source(r, h);
    && j < |x| && (r < v ==> s < |a| && x[j] == a[s]) && (r >= v && v > h ==> !x[j])
  }

  ghost predicate LowDone(x: Word, a: Word, h: nat, v: nat, m: nat) {
    && h > 0 && |x| == |a| == m * (2 * v)
    && forall q, r :: 0 <= q < m && 0 <= r < 2 * v ==> LowAt(x, a, h, v, q, r)
  }

  ghost predicate HighAt(x: Word, a: Word, h: nat, v: nat, q: nat, r: nat)
    requires h > 0
  {
    var j := q * (2 * v) + r;
    && j < |x|
    && (r >= v ==> var s := q * (2 * v) + h + Source(r - v, h); s < |a| && x[j] == a[s])
    && (r < v && v > h ==> !x[j])
  }

  ghost predicate HighDone(x: Word, a: Word, h: nat, v: nat, m: nat) {
    && h > 0 && |x| == |a| == m * (2 * v)
    && forall q, r :: 0 <= q < m && 0 <= r < 2 * v ==> HighAt(x, a, h, v, q, r)
  }

  lemma Halve(q: nat, v: nat)
    ensures q * (4 * v) == (2 * q) * (2 * v) && (2 * q + 1) * (2 * v) == q * (4 * v) + 2 * v
  {
  }

  lemma {:induction false} LowStep(x: Word, a: Word, h: nat, v: nat, c: nat, m: nat, q: nat, r: nat)
    requires LowDone(x, a, h, v, 2 * m) && v == h * c && c > 0 && q < m && r < 4 * v
    ensures LowAt(StepLow(x, 2 * v), a, h, 2 * v, q, r)
  {
    MulMonotone(1, c, h);
    Halve(m, v);
    Halve(q, v);
    FieldFits(q, r, 2 * v, m);
    StepLowAt(x, v, m, q, r, q * (4 * v) + r);
    if r < v {
      assert LowAt(x, a, h, v, 2 * q, r);
    } else if r < 2 * v {
      assert LowAt(x, a, h, v, 2 * q + 1, r - v);
      SourceShift(r, h, c);
    }
  }

  lemma {:induction false} HighStep(x: Word, a: Word, h: nat, v: nat, c: nat, m: nat, q: nat, r: nat)
    requires HighDone(x, a, h, v, 2 * m) && v == h * c && c > 0 && q < m && r < 4 * v
    ensures HighAt(StepHigh(x, 2 * v), a, h, 2 * v, q, r)
  {
    MulMonotone(1, c, h);
    Halve(m, v);
    Halve(q, v);
    FieldFits(q, r, 2 * v, m);
    StepHighAt(x, v, m, q, r, q * (4 * v) + r);
    if r >= 3 * v {
      assert HighAt(x, a, h, v, 2 * q + 1, r - 2 * v);
      SourceShift(r - 2 * v, h, c);
    } else if r >= 2 * v {
      assert HighAt(x, a, h, v, 2 * q, r - v);
    }
  }

  lemma {:induction false} LowStart(a: Word, h: nat, m: nat)
    requires h > 0 && |a| == m * (2 * h)
    ensures LowDone(a, a, h, h, m)
  {
    forall q, r | 0 <= q < m && 0 <= r < 2 * h
      ensures LowAt(a, a, h, h, q, r)
    {
      FieldFits(q, r, h, m);
      if r < h { SmallMod(r, h); }
    }
  }

  lemma {:induction false} HighStart(a: Word, h: nat, m: nat)
    requires h > 0 && |a| == m * (2 * h)
    ensures HighDone(a, a, h, h, m)
  {
    forall q, r | 0 <= q < m && 0 <= r < 2 * h
      ensures HighAt(a, a, h, h, q, r)
    {
      FieldFits(q, r, h, m);
      if r >= h { SmallMod(r - h, h); }
    }
  }

  lemma {:induction false} LowSteps(x: Word, a: Word, h: nat, v: nat, c: nat, m: nat)
    requires LowDone(x, a, h, v, 2 * m) && v == h * c && c > 0
    ensures LowDone(StepLow(x, 2 * v), a, h, 2 * v, m)
  {
    Halve(m, v);
    forall q, r | 0 <= q < m && 0 <= r < 4 * v
      ensures LowAt(StepLow(x, 2 * v), a, h, 2 * v, q, r)
    {
      LowStep(x, a, h, v, c, m, q, r);
    }
  }

  lemma {:induction false} HighSteps(x: Word, a: Word, h: nat, v: nat, c: nat, m: nat)
    requires HighDone(x, a, h, v, 2 * m) && v == h * c && c > 0
    ensures HighDone(StepHigh(x, 2 * v), a, h, 2 * v, m)
  {
    Halve(m, v);
    forall q, r | 0 <= q < m && 0 <= r < 4 * v
      ensures HighAt(StepHigh(x, 2 * v), a, h, 2 * v, q, r)
    {
      HighStep(x, a, h, v, c, m, q, r);
    }
  }

  // ------------------------------------------------------------------ packing

  /** The low halves of all fields of a, then of b. */
  function PackedLow(a: Word, b: Word, h: nat, c: nat): (r: Word)
    requires h > 0 && |a| == |b| == 2 * (h * c)
    ensures |r| == |a|
  {
    seq(|a|, j requires 0 <= j < |a| =>
      if j < h * c then SourceInField(j, h, c); a[Source(j, h)]
      else SourceInField(j - h * c, h, c); b[Source(j - h * c, h)])
  }

  /** The high halves of all fields of a, then of b. */
  function PackedHigh(a: Word, b: Word, h: nat, c: nat): (r: Word)
    requires h > 0 && |a| == |b| == 2 * (h * c)
    ensures |r| == |a|
  {
    seq(|a|, j requires 0 <= j < |a| =>
      if j < h * c then SourceInField(j, h, c); a[h + Source(j, h)]
      else SourceInField(j - h * c, h, c); b[h + Source(j - h * c, h)])
  }

  lemma {:induction false} LowResult(x: Word, y: Word, a: Word, b: Word, h: nat, c: nat)
    requires LowDone(x, a, h, h * c, 1) && LowDone(y, b, h, h * c, 1) && c > 1
    ensures Or(Shl(y, h * c), x) == PackedLow(a, b, h, c)
  {
    MulMonotone(2, c, h);
    forall j | 0 <= j < |a|
      ensures Or(Shl(y, h * c), x)[j] == PackedLow(a, b, h, c)[j]
    {
      assert LowAt(x, a, h, h * c, 0, j);
      if j >= h * c { assert LowAt(y, b, h, h * c, 0, j - h * c); }
    }
  }

  lemma {:induction false} HighResult(x: Word, y: Word, a: Word, b: Word, h: nat, c: nat)
    requires HighDone(x, a, h, h * c, 1) && HighDone(y, b, h, h * c, 1) && c > 1
    ensures Or(y, Shr(x, h * c)) == PackedHigh(a, b, h, c)
  {
    MulMonotone(2, c, h);
    forall j | 0 <= j < |a|
      ensures Or(y, Shr(x, h * c))[j] == PackedHigh(a, b, h, c)[j]
    {
      assert HighAt(y, b, h, h * c, 0, j);
      if j < h * c { assert HighAt(x, a, h, h * c, 0, j + h * c); }
    }
  }

  lemma {:induction false} Regroup(p: nat, h: nat, q: nat)
    ensures p * (2 * (h * q)) == 2 * (h * (p * q))
  {
    assert h * (p * q) == p * (h * q);
  }

  lemma {:induction false} DoublePower(h: nat, i: nat)
    ensures h * Pow2(i + 1) == 2 * (h * Pow2(i))
  {
    var p := Pow2(i);
    assert h * (2 * p) == 2 * (h * p);
  }

  lemma {:induction false} LessPower(h: nat, p: nat, p': nat)
    requires h > 0 && p < p'
    ensures h * p < h * p'
  {
    MulMonotone(p + 1, p', h);
    assert (p + 1) * h == h * p + h;
  }

  lemma {:induction false} Powers(h: nat, i: nat, k: nat)
    requires h > 0 && i <= k
    ensures Pow2(k - i) * (2 * (h * Pow2(i))) == 2 * (h * Pow2(k))
    ensures i < k ==> Pow2(k - i) == 2 * Pow2(k - i - 1) && 2 * (h * Pow2(i)) < 2 * (h * Pow2(k))
    ensures h * Pow2(i + 1) == 2 * (h * Pow2(i))
  {
    Pow2Add(k - i, i);
    Regroup(Pow2(k - i), h, Pow2(i));
    DoublePower(h, i);
    if i < k {
      Pow2Grows(i, k);
      LessPower(h, Pow2(i), Pow2(k));
    }
  }

  lemma {:induction false} Pow2Grows(i: nat, k: nat)
    requires i < k
    ensures Pow2(i) < Pow2(k)
  {
    if i + 1 < k { Pow2Grows(i, k - 1); }
  }

  /** The results of the two operations, for a word of 2^k fields. */
  function PacklResult(a: Word, b: Word, h: nat, k: nat): (r: Word)
    requires h > 0 && |a| == |b| == 2 * (h * Pow2(k))
    ensures |r| == |a|
  {
    if k > 0 then PackedLow(a, b, h, Pow2(k)) else Or(Shl(b, h), a)
  }

  function PackhResult(a: Word, b: Word, h: nat, k: nat): (r: Word)
    requires h > 0 && |a| == |b| == 2 * (h * Pow2(k))
    ensures |r| == |a|
  {
    if k > 0 then PackedHigh(a, b, h, Pow2(k)) else Or(b, Shr(a, h))
  }

  /** hsimd_packl for fields of 2 * h bits in words of 2 * h * 2^k bits.  With a single field there is no step,
      and the high half of a is not masked out. */
  method HsimdPackl(a: Word, b: Word, h: nat, k: nat) returns (r: Word)
    requires h > 0 && |a| == |b| == 2 * (h * Pow2(k))
    ensures r == PacklResult(a, b, h, k)
  {
    var a', b', w := a, b, 2 * h;
    ghost var i := 0;
    Powers(h, 0, k);
    LowStart(a, h, Pow2(k));
    LowStart(b, h, Pow2(k));
    while w < |a|
      invariant i <= k && w == 2 * (h * Pow2(i))
      invariant LowDone(a', a, h, h * Pow2(i), Pow2(k - i)) && LowDone(b', b, h, h * Pow2(i), Pow2(k - i))
      invariant i == 0 ==> a' == a && b' == b
      decreases |a| - w
    {
      Powers(h, i, k);
      LowSteps(b', b, h, h * Pow2(i), Pow2(i), Pow2(k - i - 1));
      LowSteps(a', a, h, h * Pow2(i), Pow2(i), Pow2(k - i - 1));
      b' := StepLow(b', w);
      a' := StepLow(a', w);
      w := w * 2;
      i := i + 1;
    }
    if i < k { Powers(h, i, k); }
    if k > 0 { LowResult(a', b', a, b, h, Pow2(k)); }
    r := Or(Shl(b', |a| / 2), a');
  }

  /** hsimd_packh. */
  method HsimdPackh(a: Word, b: Word, h: nat, k: nat) returns (r: Word)
    requires h > 0 && |a| == |b| == 2 * (h * Pow2(k))
    ensures r == PackhResult(a, b, h, k)
  {
    var a', b', w := a, b, 2 * h;
    ghost var i := 0;
    Powers(h, 0, k);
    HighStart(a, h, Pow2(k));
    HighStart(b, h, Pow2(k));
    while w < |a|
      invariant i <= k && w == 2 * (h * Pow2(i))
      invariant HighDone(a', a, h, h * Pow2(i), Pow2(k - i)) && HighDone(b', b, h, h * Pow2(i), Pow2(k - i))
      invariant i == 0 ==> a' == a && b' == b
      decreases |a| - w
    {
      Powers(h, i, k);
      HighSteps(b', b, h, h * Pow2(i), Pow2(i), Pow2(k - i - 1));
      HighSteps(a', a, h, h * Pow2(i), Pow2(i), Pow2(k - i - 1));
      b' := StepHigh(b', w);
      a' := StepHigh(a', w);
      w := w * 2;
      i := i + 1;
    }
    if i < k { Powers(h, i, k); }
    if k > 0 { HighResult(a', b', a, b, h, Pow2(k)); }
    r := Or(b', Shr(a', |a| / 2));
  }

  /** With a single field the result is the packed low halves exactly when no bit of the high half of a is set
      that is not also set in the low half of b. */
  lemma {:induction false} SingleFieldLow(a: Word, b: Word, h: nat)
    requires h > 0 && |a| == |b| == 2 * (h * 1)
    ensures Or(Shl(b, h), a) == PackedLow(a, b, h, 1) <==> forall j :: 0 <= j < h && a[h + j] ==> b[j]
  {
    var r, p := Or(Shl(b, h), a), PackedLow(a, b, h, 1);
    forall j | 0 <= j < |a|
      ensures j < h ==> r[j] == p[j]
      ensures j >= h ==> p[j] == b[j - h] && r[j] == (b[j - h] || a[j])
    {
      if j < h { SmallMod(j, h); } else { SmallMod(j - h, h); }
    }
    if forall j :: 0 <= j < h && a[h + j] ==> b[j] {
      forall j | 0 <= j < |a|
        ensures r[j] == p[j]
      {
        if j >= h { assert a[h + (j - h)] ==> b[j - h]; }
      }
    } else {
      var j :| 0 <= j < h && a[h + j] && !b[j];
      assert r[h + j] != p[h + j];
    }
  }

  lemma {:induction false} SingleFieldHigh(a: Word, b: Word, h: nat)
    requires h > 0 && |a| == |b| == 2 * (h * 1)
    ensures Or(b, Shr(a, h)) == PackedHigh(a, b, h, 1) <==> forall j :: 0 <= j < h && b[j] ==> a[h + j]
  {
    var r, p := Or(b, Shr(a, h)), PackedHigh(a, b, h, 1);
    forall j | 0 <= j < |a|
      ensures j >= h ==> r[j] == p[j]
      ensures j < h ==> p[j] == a[h + j] && r[j] == (b[j] || a[h + j])
    {
      if j < h { SmallMod(j, h); } else { SmallMod(j - h, h); }
    }
    if forall j :: 0 <= j < h && b[j] ==> a[h + j] {
      assert r == p;
    } else {
      var j :| 0 <= j < h && b[j] && !a[h + j];
      assert r[j] != p[j];
    }
  }
}
