/**
 Rounding division, `ROUNDED_DIV` and `RSHIFT`, and time-base rescaling by the same rule:
 to the nearest integer, ties away from zero (`AV_ROUND_NEAR_INF`).
 */
module Rounding {
  import opened Bits

  /** C's division: truncation toward zero. */
  function TruncDiv(a: int, m: int): int
    requires m > 0
  {
    if a >= 0 then a / m else -(-a / m)
  }

  /** `ROUNDED_DIV(a, m)` */
  function RoundedDiv(a: int, m: int): int
    requires m > 0
  {
    TruncDiv(if a >= 0 then a + m / 2 else a - m / 2, m)
  }

  function Abs(a: int): nat {
    if a < 0 then -a else a
  }

  /** `q` is nearest to `a / m`, and away from zero when two integers are equally near. */
  predicate IsNearest(a: int, m: int, q: int) {
    && 2 * Abs(a - m * q) <= m
    && (2 * Abs(a - m * q) == m ==> Abs(m * q) > Abs(a))
  }

  lemma DivMod(a: int, m: int)
    requires m > 0
    ensures a == m * (a / m) + a % m && 0 <= a % m < m
  {
  }

  lemma RoundedDivIsNearest(a: int, m: int)
    requires m > 0
    ensures IsNearest(a, m, RoundedDiv(a, m))
  {
    var h := m / 2;
    var x := Abs(a) + h;
    var q := x / m;
    DivMod(x, m);
    assert Abs(a) - m * q == x % m - h;
    if a < 0 {
      assert m * (-q) == -(m * q);
    }
  }

  /** There is only one nearest integer, so the macro computes it. */
  lemma NearestIsUnique(a: int, m: int, p: int, q: int)
    requires m > 0 && IsNearest(a, m, p) && IsNearest(a, m, q)
    ensures p == q
  {
    if p < q {
      TwoNearest(a, m, p, q);
    } else if q < p {
      TwoNearest(a, m, q, p);
    }
  }

  lemma TwoNearest(a: int, m: int, p: int, q: int)
    requires m > 0 && p < q
    requires 2 * Abs(a - m * p) <= m && 2 * Abs(a - m * q) <= m
    ensures q == p + 1 && 2 * (a - m * p) == m && 2 * (m * q - a) == m
    ensures !(Abs(m * p) > Abs(a) && Abs(m * q) > Abs(a))
  {
    var x, y := m * p, m * q;
    ProductsApart(p, q, m);
    assert y == x + m;
    if p >= 0 {
      assert x >= 0;
    } else {
      assert y <= 0 by { NotPositive(m, q); }
    }
  }

  /** Two products that are at most one factor apart. */
  lemma ProductsApart(p: int, q: int, m: int)
    requires m > 0 && p < q
    ensures m * q >= m * p + m
    ensures m * q <= m * p + m ==> q == p + 1
  {
    var d := q - p;
    assert m * q == m * p + m * d;
    assert m * d == m + m * (d - 1);
    if d >= 2 {
      assert m * (d - 1) >= m;
    }
  }

  lemma NotPositive(m: int, q: int)
    requires m > 0 && q <= 0
    ensures m * q <= 0
  {
  }

  /** One floor division for both signs. */
  lemma FloorForm(a: int, m: int)
    requires m > 0
    ensures RoundedDiv(a, m) == (a + m / 2 - if a < 0 && m % 2 == 0 then 1 else 0) / m
  {
    if a < 0 {
      var x := -a + m / 2;
      var q, r := x / m, x % m;
      DivMod(x, m);
      var e := if m % 2 == 0 then 1 else 0;
      assert a + m / 2 - e == m * (-q) + (m - 1 - r) by {
        assert m * (-q) == -(m * q);
      }
      DivModIs(a + m / 2 - e, m, -q, m - 1 - r);
    }
  }

  lemma FloorMonotone(x: int, y: int, m: int)
    requires m > 0 && x <= y
    ensures x / m <= y / m
    ensures x + m <= y ==> x / m < y / m
  {
    DivMod(x, m);
    DivMod(y, m);
    var d := y / m - x / m;
    assert m * (y / m) - m * (x / m) == m * d;
    MultiplesApart(m, d);
    assert d == 0 ==> m * d == 0;
  }

  /** Rounding keeps the order, and a step of a whole divisor is kept apart. */
  lemma RoundedDivMonotone(a: int, b: int, m: int)
    requires m > 0 && a <= b
    ensures RoundedDiv(a, m) <= RoundedDiv(b, m)
    ensures a + m <= b ==> RoundedDiv(a, m) < RoundedDiv(b, m)
  {
    FloorForm(a, m);
    FloorForm(b, m);
    var ea := if a < 0 && m % 2 == 0 then 1 else 0;
    var eb := if b < 0 && m % 2 == 0 then 1 else 0;
    FloorMonotone(a + m / 2 - ea, b + m / 2 - eb, m);
  }

  /** `RSHIFT(a, b)`; an arithmetic right shift is a floor division. */
  function RShift(a: int, b: nat): int
    requires Shl(1, b) > 0
  {
    if a > 0 then (a + Shl(1, b) / 2) / Shl(1, b) else (a + Shl(1, b) / 2 - 1) / Shl(1, b)
  }

  /** The same with the divisor `m == 2 * h` in place of the shift. */
  lemma HalvedForm(a: int, m: int, h: int)
    requires h > 0 && m == 2 * h
    ensures RoundedDiv(a, m) == if a > 0 then (a + h) / m else (a + h - 1) / m
  {
    FloorForm(a, m);
    if a == 0 {
      DivModIs(h, m, 0, h);
      DivModIs(h - 1, m, 0, h - 1);
    }
  }

  lemma UnitForm(a: int, m: int)
    requires m == 1
    ensures RoundedDiv(a, m) == a
  {
    FloorForm(a, m);
  }

  /** The shift form is the division form, except for no shift at all of a value not above 0. */
  lemma RShiftIsRoundedDiv(a: int, b: nat)
    ensures Shl(1, b) > 0
    ensures RShift(a, b) == RoundedDiv(a, Shl(1, b)) <==> b >= 1 || a > 0
  {
    ShlPositive(1, b);
    if b >= 1 {
      ShlPositive(1, b - 1);
      HalvedForm(a, Shl(1, b), Shl(1, b - 1));
    } else {
      UnitForm(a, Shl(1, b));
    }
  }

  // ---------------------------------------------------------------------------
  // Rescaling
  // ---------------------------------------------------------------------------

  /** A time base: a positive rational number of seconds. */
  datatype TimeBase = TimeBase(num: int, den: int) {
    predicate Valid() {
      num > 0 && den > 0
    }
  }

  /** The factor from one time base to another is `Scale(from, to) / Unit(from, to)`. */
  function Scale(from: TimeBase, to: TimeBase): int {
    from.num * to.den
  }

  function Unit(from: TimeBase, to: TimeBase): int {
    from.den * to.num
  }

  lemma FactorPositive(from: TimeBase, to: TimeBase)
    requires from.Valid() && to.Valid()
    ensures Scale(from, to) > 0 && Unit(from, to) > 0
  {
  }

  /** The rescaled time, at the rate `n / m`. */
  function Rescale(t: int, n: int, m: int): int
    requires m > 0
  {
    RoundedDiv(t * n, m)
  }

  lemma ProductsSpread(t: int, u: int, n: int)
    requires n > 0 && t <= u
    ensures t * n <= u * n
    ensures t < u ==> t * n + n <= u * n
  {
    var d := u - t;
    assert u * n == t * n + d * n;
    if d > 0 {
      assert d * n == n + (d - 1) * n;
      assert (d - 1) * n >= 0;
    }
  }

  lemma RescaleMonotone(t: int, u: int, n: int, m: int)
    requires n > 0 && m > 0 && t <= u
    ensures Rescale(t, n, m) <= Rescale(u, n, m)
    ensures t < u && n >= m ==> Rescale(t, n, m) < Rescale(u, n, m)
  {
    ProductsSpread(t, u, n);
    RoundedDivMonotone(t * n, u * n, m);
  }

  lemma RescaleWhole(n: int, m: int)
    requires n > 0 && m > 0
    ensures Rescale(0, n, m) == 0 && Rescale(m, n, m) == n
  {
    var h := m / 2;
    DivModIs(h, m, 0, h);
    assert m * n + h == m * n + h;
    DivModIs(m * n + h, m, n, h);
  }

  lemma {:induction false} StrictGrowth(n: int, m: int, k: nat)
    requires n > 0 && m > 0
    requires forall t, u | t < u :: Rescale(t, n, m) < Rescale(u, n, m)
    ensures Rescale(k, n, m) >= k
  {
    if k == 0 {
      RescaleWhole(n, m);
    } else {
      StrictGrowth(n, m, k - 1);
      assert Rescale(k - 1, n, m) < Rescale(k, n, m);
    }
  }

  /** Distinct times stay distinct, whatever they are, exactly when the new base is as fine. */
  lemma StrictIffFiner(n: int, m: int)
    requires n > 0 && m > 0
    ensures (forall t, u | t < u :: Rescale(t, n, m) < Rescale(u, n, m)) <==> n >= m
  {
    if n >= m {
      forall t, u | t < u ensures Rescale(t, n, m) < Rescale(u, n, m) {
        RescaleMonotone(t, u, n, m);
      }
    } else if forall t, u | t < u :: Rescale(t, n, m) < Rescale(u, n, m) {
      StrictGrowth(n, m, m);
      RescaleWhole(n, m);
    }
  }

  /** Two or more new ticks for one old tick: rescaling them again gives more. */
  lemma RescaledTwice(n: int, m: int, k: int)
    requires n > 0 && m > 0 && k == Rescale(1, n, m) >= 2
    ensures Rescale(k, n, m) > k
  {
    RoundedDivIsNearest(n, m);
    NearEnough(n, m, k);
    var more := m * (k + 1);
    DivModIs(more + m / 2, m, k + 1, m / 2);
    RoundedDivMonotone(more, k * n, m);
  }

  lemma NearEnough(n: int, m: int, k: int)
    requires n > 0 && m > 0 && k >= 2 && 2 * Abs(n - m * k) <= m
    ensures k * n >= m * (k + 1) > 0
  {
    ProductsSpread(2, k, m);
    assert 2 * m <= m * k <= n + n - m;
    assert m * (k + 1) == m * k + m;
    ProductsSpread(2, k, n);
  }
}
