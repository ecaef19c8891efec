/** mvmd_srl and mvmd_sll of AVX2 and AVX-512: moving all lanes of a register down or up by a run-time amount, done by
    permuting lanes with computed indexes.  Indexes are numbers below the modulus m of a lane (2^32 for AVX2, 2^fw for
    AVX-512); the shift amount has been truncated to a lane. */
module LaneShifts {
  import opened IntArith
  import opened BitWords
  import opened DoublingExpand
  import opened LaneAddition
  import opened LaneOps

  // ------------------------------------------------------------------ AVX2: one table, one lane of it cleared

  /** vpermd: indexes are reduced modulo the lane count. */
  function Permute(a: seq<Word>, index: seq<nat>, fw: nat): (r: seq<Word>)
    requires Lanes(a, fw) && |index| == |a|
    ensures |r| == |a| && Lanes(r, fw)
  {
    seq(|a|, i requires 0 <= i < |a| => a[index[i] % |a|])
  }

  /** An index past the top is replaced by zero, where the table has a zero lane. */
  function SrlIndex(i: nat, shift: nat, n: nat, m: nat): nat
    requires m > 0
  {
    if (i + shift) % m < n then (i + shift) % m else 0
  }

  function Avx2Srl(a: seq<Word>, shift: nat, fw: nat, m: nat): (r: seq<Word>)
    requires Lanes(a, fw) && |a| > 0 && m > 0
    ensures |r| == |a| && Lanes(r, fw)
  {
    var permuteVec := seq(|a|, i requires 0 <= i => SrlIndex(i, shift, |a|, m));
    var shifted := Permute(a[0 := Zeros(fw)], permuteVec, fw);
    if shift == 0 then a else shifted
  }

  /** A negative index is replaced by all ones, the last lane, where the table has a zero lane. */
  function SllIndex(i: nat, shift: nat, m: nat): nat
    requires m > 0
  {
    var index := (i - shift) % m;
    if index >= m / 2 then m - 1 else index
  }

  function Avx2Sll(a: seq<Word>, shift: nat, fw: nat, m: nat): (r: seq<Word>)
    requires Lanes(a, fw) && |a| > 0 && m > 0
    ensures |r| == |a| && Lanes(r, fw)
  {
    var permuteVec := seq(|a|, i requires 0 <= i => SllIndex(i, shift, m));
    var shifted := Permute(a[|a| - 1 := Zeros(fw)], permuteVec, fw);
    if shift == 0 then a else shifted
  }

  lemma {:induction false} WrapOnce(x: int, m: nat)
    requires 0 < m && 0 <= x + m && x < 2 * m
    ensures x % m == if x < 0 then x + m else if x < m then x else x - m
  {
    if x < 0 {
      ModShift(x, m, 1);
      SmallMod(x + m, m);
    } else if x < m {
      SmallMod(x, m);
    } else {
      ModShift(x - m, m, 1);
      SmallMod(x - m, m);
    }
  }

  /** The lane that Avx2Srl brings to place i. */
  lemma {:induction false} SrlLane(a: seq<Word>, shift: nat, fw: nat, m: nat, i: nat)
    requires Lanes(a, fw) && i < |a| && |a| <= m / 2 && 0 < shift < m
    ensures Avx2Srl(a, shift, fw, m)[i] ==
      if i + shift < |a| then a[i + shift] else if i + shift > m then a[i + shift - m] else Zeros(fw)
  {
    WrapOnce(i + shift, m);
    SmallMod(SrlIndex(i, shift, |a|, m), |a|);
  }

  lemma {:induction false} LastLane(n: nat, h: nat, m: nat)
    requires n > 0 && h > 0 && m == 2 * (n * h)
    ensures (m - 1) % n == n - 1
  {
    assert m == (2 * h) * n;
    assert (2 * h - 1) * n + (n - 1) == m - 1;
    ModUnique(m - 1, n, 2 * h - 1, n - 1);
  }

  ghost predicate SrlCorrect(n: nat, shift: nat, fw: nat, m: nat)
    requires n > 0 && m > 0
  {
    forall a: seq<Word> | Lanes(a, fw) && |a| == n :: Avx2Srl(a, shift, fw, m) == LanesDown(a, shift, fw)
  }

  ghost predicate SllCorrect(n: nat, shift: nat, fw: nat, m: nat)
    requires n > 0 && m > 0
  {
    forall a: seq<Word> | Lanes(a, fw) && |a| == n :: Avx2Sll(a, shift, fw, m) == LanesUp(a, shift, fw)
  }

  lemma {:induction false} SllIndexIs(i: nat, shift: nat, m: nat)
    requires i < m / 2 && m % 2 == 0 && 0 < shift < m
    ensures SllIndex(i, shift, m) ==
              if shift <= i then i - shift else if shift - i > m / 2 then m + i - shift else m - 1
  {
    WrapOnce(i - shift, m);
  }

  lemma {:induction false} SllTakes(a: seq<Word>, shift: nat, fw: nat, m: nat, i: nat, k: nat)
    requires Lanes(a, fw) && i < |a| && m > 0 && shift > 0 && k == SllIndex(i, shift, m) % |a|
    ensures Avx2Sll(a, shift, fw, m)[i] == if k < |a| - 1 then a[k] else Zeros(fw)
  {
  }

  /** The lane that Avx2Sll brings to place i. */
  lemma {:induction false} SllLane(a: seq<Word>, shift: nat, fw: nat, m: nat, h: nat, i: nat)
    requires Lanes(a, fw) && i < |a| && h > 0 && m == 2 * (|a| * h) && 0 < shift < m
    ensures var k := (m + i - shift) % |a|;
      Avx2Sll(a, shift, fw, m)[i] ==
        if shift <= i then a[i - shift]
        else if shift - i > m / 2 && k < |a| - 1 then a[k]
        else Zeros(fw)
  {
    var n := |a|;
    MulMonotone(1, h, n);
    SllIndexIs(i, shift, m);
    SllTakes(a, shift, fw, m, i, SllIndex(i, shift, m) % n);
    if shift <= i {
      SmallMod(i - shift, n);
    } else if shift - i <= m / 2 {
      LastLane(n, h, m);
    }
  }

  lemma {:induction false} OnesAreNotZeros(fw: nat)
    requires fw > 0
    ensures Ones(fw) != Zeros(fw)
  {
    assert Ones(fw)[0] != Zeros(fw)[0];
  }

  /** AVX2 mvmd_srl moves the lanes of every register down, unless the sum of the shift and a lane number wraps beyond
      zero. */
  lemma {:induction false} Avx2SrlExactly(n: nat, shift: nat, fw: nat, m: nat)
    requires 1 < n <= m / 2 && shift < m && fw > 0
    ensures SrlCorrect(n, shift, fw, m) <==> shift + n <= m + 1
  {
    if shift + n <= m + 1 {
      forall a: seq<Word> | Lanes(a, fw) && |a| == n
        ensures Avx2Srl(a, shift, fw, m) == LanesDown(a, shift, fw)
      {
        if shift == 0 {
          NoMove(a, fw);
        } else {
          forall i | 0 <= i < n
            ensures Avx2Srl(a, shift, fw, m)[i] == LanesDown(a, shift, fw)[i]
          {
            SrlLane(a, shift, fw, m, i);
          }
        }
      }
    } else {
      var a := OnesLanes(n, fw);
      SrlLane(a, shift, fw, m, n - 1);
      OnesAreNotZeros(fw);
      assert Avx2Srl(a, shift, fw, m)[n - 1] != LanesDown(a, shift, fw)[n - 1];
    }
  }

  lemma NoMove(a: seq<Word>, fw: nat)
    requires Lanes(a, fw)
    ensures LanesDown(a, 0, fw) == a && LanesUp(a, 0, fw) == a
  {
  }

  /** AVX2 mvmd_sll moves the lanes of every register up, unless the shift, taken as a signed number, is negative and
      not just the least one or the one after it. */
  lemma {:induction false} Avx2SllExactly(n: nat, shift: nat, fw: nat, m: nat, h: nat)
    requires n > 1 && h > 0 && m == 2 * (n * h) && shift < m && fw > 0
    ensures SllCorrect(n, shift, fw, m) <==> shift <= m / 2 + 1
  {
    MulMonotone(1, h, n);
    if shift <= m / 2 + 1 {
      forall a: seq<Word> | Lanes(a, fw) && |a| == n
        ensures Avx2Sll(a, shift, fw, m) == LanesUp(a, shift, fw)
      {
        if shift == 0 {
          NoMove(a, fw);
        } else {
          forall i | 0 <= i < n
            ensures Avx2Sll(a, shift, fw, m)[i] == LanesUp(a, shift, fw)[i]
          {
            SllLane(a, shift, fw, m, h, i);
            if shift - i > m / 2 { HalfLane(n, h, m); }
          }
        }
      }
    } else {
      var a := OnesLanes(n, fw);
      var i := SomeLane(n, h, m, shift);
      SllLane(a, shift, fw, m, h, i);
      OnesAreNotZeros(fw);
      assert Avx2Sll(a, shift, fw, m)[i] != LanesUp(a, shift, fw)[i];
    }
  }

  lemma {:induction false} HalfLane(n: nat, h: nat, m: nat)
    requires n > 0 && h > 0 && m == 2 * (n * h)
    ensures (m / 2 - 1) % n == n - 1
  {
    assert (h - 1) * n + (n - 1) == n * h - 1;
    ModUnique(m / 2 - 1, n, h - 1, n - 1);
  }

  /** Of two neighbouring lanes one does not hit the cleared lane of the table. */
  lemma {:induction false} SomeLane(n: nat, h: nat, m: nat, shift: nat) returns (i: nat)
    requires n > 1 && h > 0 && m == 2 * (n * h) && m / 2 + 1 < shift < m
    ensures i < n && shift - i > m / 2 && (m + i - shift) % n < n - 1
  {
    i := 0;
    var q, r := (m - shift) / n, (m - shift) % n;
    if r == n - 1 {
      i := 1;
      assert m - shift == q * n + r;
      assert (q + 1) * n == q * n + n;
      ModUnique(m - shift + 1, n, q + 1, 0);
    }
  }

  // ------------------------------------------------------------------ AVX-512: two tables, one of them zero

  function SrlPlaces(n: nat, shift: nat): seq<int> {
    seq(n, i => i + shift)
  }

  /** Lane i comes from place i + shift of a followed by zeros; reducing an index modulo a lane first changes nothing,
      as the size of the two tables divides the modulus. */
  function Avx512Srl(a: seq<Word>, shift: nat, fw: nat): (r: seq<Word>)
    requires Lanes(a, fw)
    ensures |r| == |a| && Lanes(r, fw)
  {
    Shuffle2(a, ZeroLanes(|a|, fw), SrlPlaces(|a|, shift), fw)
  }

  ghost predicate Avx512Correct(n: nat, shift: nat, fw: nat) {
    forall a: seq<Word> | Lanes(a, fw) && |a| == n ::
      Avx512Srl(a, shift, fw) == LanesDown(a, shift, fw) && SllByShuffle(a, shift, fw) == LanesUp(a, shift, fw)
  }

  /** Only the remainder of a shift matters. */
  lemma {:induction false} RingShift(x: int, shift: nat, size: nat)
    requires size > 0
    ensures (x + shift) % size == (x + shift % size) % size && (x - shift) % size == (x - shift % size) % size
  {
    var q, r := shift / size, shift % size;
    var whole := q * size;
    assert shift == whole + r && -q * size == -whole;
    ModShift(x + r, size, q);
    ModShift(x - r, size, -q);
    assert (x + r) + whole == x + shift && (x - r) + -whole == x - shift;
  }

  lemma {:induction false} SrlPlace(n: nat, shift: nat, i: nat, size: nat)
    requires i < n && size == 2 * n
    ensures shift <= n ==> (i + shift) % size == i + shift && (n + i - shift) % size == n + i - shift
    ensures shift % size == n ==> (i + shift) % size == n + i && (n + i - shift) % size == i
  {
    if shift <= n {
      WrapOnce(i + shift, size);
      WrapOnce(n + i - shift, size);
    }
    if shift % size == n {
      RingShift(i, shift, size);
      RingShift(n + i, shift, size);
      WrapOnce(n + i, size);
      WrapOnce(i, size);
    }
  }

  /** AVX-512 mvmd_srl and mvmd_sll are right for every register exactly up to a shift by all lanes, and at the further
      shifts that are congruent to it. */
  lemma {:induction false} Avx512Exactly(n: nat, shift: nat, fw: nat)
    requires n > 0 && fw > 0
    ensures Avx512Correct(n, shift, fw) <==> shift <= n || shift % (2 * n) == n
  {
    if shift <= n || shift % (2 * n) == n {
      forall a: seq<Word> | Lanes(a, fw) && |a| == n
        ensures Avx512Srl(a, shift, fw) == LanesDown(a, shift, fw)
        ensures SllByShuffle(a, shift, fw) == LanesUp(a, shift, fw)
      {
        ShiftsRight(a, shift, fw);
      }
    } else {
      var a := OnesLanes(n, fw);
      var i := WrongLane(n, shift, 2 * n);
      OnesAreNotZeros(fw);
      assert Avx512Srl(a, shift, fw)[i] != LanesDown(a, shift, fw)[i];
    }
  }

  lemma {:induction false} ShiftsRight(a: seq<Word>, shift: nat, fw: nat)
    requires Lanes(a, fw) && |a| > 0 && (shift <= |a| || shift % (2 * |a|) == |a|)
    ensures Avx512Srl(a, shift, fw) == LanesDown(a, shift, fw) && SllByShuffle(a, shift, fw) == LanesUp(a, shift, fw)
  {
    if shift % (2 * |a|) == |a| { ModLe(shift, 2 * |a|); }
    forall i | 0 <= i < |a|
      ensures Avx512Srl(a, shift, fw)[i] == LanesDown(a, shift, fw)[i]
      ensures SllByShuffle(a, shift, fw)[i] == LanesUp(a, shift, fw)[i]
    {
      SrlPlace(|a|, shift, i, 2 * |a|);
    }
  }

  lemma {:induction false} WrongLane(n: nat, shift: nat, size: nat) returns (i: nat)
    requires n > 0 && size == 2 * n && shift > n && shift % size != n
    ensures i < n && (i + shift) % size < n
  {
    var r := shift % size;
    i := if r < n then 0 else size - r;
    RingShift(i, shift, size);
    WrapOnce(i + r, size);
  }
}
