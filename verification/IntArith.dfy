/** Facts about division and remainder used by the block and lane layouts. */
module IntArith {

  lemma {:induction false} MulMonotone(a: nat, b: nat, m: nat)
    requires a <= b
    ensures a * m <= b * m
  {
    assert (b - a) * m >= 0;
  }

  lemma {:induction false} DivIs(x: nat, m: nat, h: nat, r: nat)
    requires m > 0 && x == h * m + r && r < m
    ensures x / m == h
  {
    var q := x / m;
    assert q * m <= x < (q + 1) * m;
    assert (h + 1) * m == h * m + m;
    if q > h {
      MulMonotone(h + 1, q, m);
    } else if q < h {
      MulMonotone(q + 1, h, m);
    }
  }

  lemma {:induction false} ModUnique(x: nat, m: nat, h: nat, r: nat)
    requires m > 0 && x == h * m + r && r < m
    ensures x / m == h && x % m == r
  {
    DivIs(x, m, h, r);
    assert x == m * (x / m) + x % m;
  }

  /** The remainder modulo 2d splits into the parity of the quotient by d and the remainder modulo d. */
  lemma {:induction false} ModDouble(i: nat, d: nat)
    requires d > 0
    ensures i % (2 * d) == (if (i / d) % 2 == 0 then 0 else d) + i % d
    ensures i / (2 * d) == i / d / 2
  {
    var q, e := i / d, i % d;
    var h, o := q / 2, q % 2;
    assert i == q * d + e;
    assert q == 2 * h + o;
    assert q * d == h * (2 * d) + o * d;
    ModUnique(i, 2 * d, h, o * d + e);
  }

  lemma SmallMod(i: nat, d: nat)
    requires i < d
    ensures i % d == i && i / d == 0
  {
  }

  lemma {:induction false} DivUp(i: nat, d: nat)
    requires d > 0
    ensures (i + d) % d == i % d && (i + d) / d == i / d + 1
  {
    var q, e := i / d, i % d;
    assert i == q * d + e;
    assert (q + 1) * d == q * d + d;
    ModUnique(i + d, d, q + 1, e);
  }

  lemma {:induction false} DivDown(i: nat, d: nat)
    requires 0 < d <= i
    ensures (i - d) % d == i % d && (i - d) / d == i / d - 1
  {
    DivUp(i - d, d);
  }

  lemma {:induction false} QuotientPositive(i: nat, d: nat)
    requires d > 0 && i / d > 0
    ensures i >= d
  {
    MulMonotone(1, i / d, d);
    assert i == (i / d) * d + i % d;
  }

  /** A whole block of size d around t fits below a multiple of d that is above t. */
  lemma {:induction false} BlockFits(t: nat, d: nat, m: nat)
    requires d > 0 && t < m * d
    ensures t / d < m && t - t % d + d <= m * d
  {
    var h := t / d;
    assert t == h * d + t % d;
    if h >= m {
      MulMonotone(m, h, d);
    }
    MulMonotone(h + 1, m, d);
    assert (h + 1) * d == h * d + d;
  }

  lemma {:induction false} ModShift(x: int, m: nat, h: int)
    requires m > 0
    ensures (x + h * m) % m == x % m
  {
    var q, r := x / m, x % m;
    assert x + h * m == (q + h) * m + r;
    var q', r' := (x + h * m) / m, (x + h * m) % m;
    assert q' * m + r' == (q + h) * m + r;
    assert (q' - (q + h)) * m == r - r';
    if q' > q + h {
      MulMonotone(1, q' - (q + h), m);
    } else if q' < q + h {
      MulMonotone(1, q + h - q', m);
    }
  }

  lemma {:induction false} ModAdd(x: int, y: int, m: nat)
    requires m > 0
    ensures (x % m + y % m) % m == (x + y) % m
  {
    assert x + y == x % m + y % m + (x / m + y / m) * m by {
      assert (x / m + y / m) * m == (x / m) * m + (y / m) * m;
    }
    ModShift(x % m + y % m, m, x / m + y / m);
  }

  lemma {:induction false} ModLe(x: nat, d: nat)
    requires d > 0
    ensures x % d <= x
  {
    assert x == (x / d) * d + x % d;
    MulMonotone(0, x / d, d);
  }

  lemma {:induction false} QuotientMonotone(x: nat, y: nat, d: nat)
    requires d > 0 && x <= y
    ensures x / d <= y / d
  {
    assert x == (x / d) * d + x % d && y == (y / d) * d + y % d;
    if x / d > y / d {
      MulMonotone(y / d + 1, x / d, d);
    }
  }

  /** Remainders cannot grow faster than the numbers. */
  lemma {:induction false} RemainderGap(x: nat, y: nat, gap: nat, d: nat)
    requires d > 0 && x <= y <= x + gap
    ensures y % d <= x % d + gap
  {
    assert x == (x / d) * d + x % d && y == (y / d) * d + y % d;
    QuotientMonotone(x, y, d);
    MulMonotone(x / d, y / d, d);
  }

  lemma {:induction false} SameQuotient(x: nat, y: nat, d: nat)
    requires d > 0 && x - x % d <= y <= x
    ensures y / d == x / d
  {
    var q := x / d;
    assert x == q * d + x % d;
    ModUnique(y, d, q, y - (x - x % d));
  }
}
