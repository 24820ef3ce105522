/**
 Bitwise operators on naturals, bit by bit, and what they come to when an operand is a
 run of one bits, a single bit, or shifted clear of the other.  A 32-bit word is a natural
 below 2^32; C's wrap-around is written out where it happens.
 */
module Bits {

  /** `a & b`. */
  function And(a: nat, b: nat): nat {
    if a == 0 || b == 0 then 0 else 2 * And(a / 2, b / 2) + (if a % 2 == 1 && b % 2 == 1 then 1 else 0)
  }

  /** `a | b`. */
  function Or(a: nat, b: nat): nat {
    if a == 0 then b
    else if b == 0 then a
    else 2 * Or(a / 2, b / 2) + (if a % 2 == 1 || b % 2 == 1 then 1 else 0)
  }

  /** `a ^ b`. */
  function Xor(a: nat, b: nat): nat {
    if a == 0 then b
    else if b == 0 then a
    else 2 * Xor(a / 2, b / 2) + (if a % 2 != b % 2 then 1 else 0)
  }

  /** `a >> k` for an unsigned `a`. */
  function Shr(a: nat, k: nat): nat {
    if k == 0 then a else Shr(a / 2, k - 1)
  }

  /** `a << k`, before any overflow is dropped. */
  function Shl(a: nat, k: nat): nat {
    if k == 0 then a else 2 * Shl(a, k - 1)
  }

  /** The low `k` bits of `a`. */
  function Low(a: nat, k: nat): nat {
    if k == 0 then 0 else 2 * Low(a / 2, k - 1) + a % 2
  }

  /** Masking with `k` one bits keeps the low `k` bits. */
  lemma {:induction false} AndMask(a: nat, k: nat)
    ensures Shl(1, k) > 0 && And(a, Shl(1, k) - 1) == Low(a, k)
  {
    if k > 0 {
      AndMask(a / 2, k - 1);
      if a == 0 {
        AndMask(0, k - 1);
      }
    }
  }

  /** Zero low bits in the mask are zero low bits in the result. */
  lemma {:induction false} AndShifted(a: nat, m: nat, k: nat)
    ensures And(a, Shl(m, k)) == Shl(And(Shr(a, k), m), k)
  {
    if k > 0 {
      AndShifted(a / 2, m, k - 1);
      ShlZero(k);
      ShlZero(k - 1);
      if a == 0 {
        ShrZero(k);
      }
    }
  }

  lemma {:induction false} ShlZero(k: nat)
    ensures Shl(0, k) == 0
  {
    if k > 0 {
      ShlZero(k - 1);
    }
  }

  lemma {:induction false} ShrZero(k: nat)
    ensures Shr(0, k) == 0
  {
    if k > 0 {
      ShrZero(k - 1);
    }
  }

  lemma {:induction false} ShlPositive(a: nat, k: nat)
    requires a > 0
    ensures Shl(a, k) > 0
  {
    if k > 0 {
      ShlPositive(a, k - 1);
    }
  }

  /** A test with a single bit is a test of that bit. */
  lemma AndBit(a: nat, k: nat)
    ensures And(a, Shl(1, k)) != 0 <==> Shr(a, k) % 2 == 1
  {
    AndShifted(a, 1, k);
    var b := Shr(a, k);
    assert And(b, 1) == b % 2;
    if b % 2 == 1 {
      ShlPositive(1, k);
    } else {
      ShlZero(k);
    }
  }

  /** Disjoint bits are put together by addition. */
  lemma {:induction false} OrDisjoint(a: nat, b: nat, k: nat)
    requires b < Shl(1, k)
    ensures Or(Shl(a, k), b) == Shl(a, k) + b
  {
    if k > 0 {
      OrDisjoint(a, b / 2, k - 1);
    }
  }

  lemma {:induction false} ShrShr(a: nat, j: nat, k: nat)
    ensures Shr(Shr(a, j), k) == Shr(a, j + k)
  {
    if j > 0 {
      ShrShr(a / 2, j - 1, k);
    }
  }

  lemma HalfMod(a: nat, m: nat)
    requires m > 0
    ensures a % (2 * m) == 2 * (a / 2 % m) + a % 2
    ensures a / (2 * m) == a / 2 / m
  {
    var q, r := a / 2 / m, a / 2 % m;
    assert a == (2 * m) * q + (2 * r + a % 2) by {
      assert a / 2 == m * q + r;
      assert (2 * m) * q == 2 * (m * q);
    }
    DivModIs(a, 2 * m, q, 2 * r + a % 2);
  }

  /** A multiple of `m` other than 0 is at least `m` away from it. */
  lemma MultiplesApart(m: int, d: int)
    requires m > 0
    ensures d >= 1 ==> m * d >= m
    ensures d <= -1 ==> m * d <= -m
  {
  }

  /** Quotient and remainder are determined. */
  lemma DivModIs(a: int, m: int, q: int, r: int)
    requires m > 0 && 0 <= r < m && a == m * q + r
    ensures a / m == q && a % m == r
  {
    var d := a / m - q;
    assert m * d == r - a % m by {
      assert a == m * (a / m) + a % m;
      assert m * (a / m) - m * q == m * d;
    }
    MultiplesApart(m, d);
  }

  lemma {:induction false} LowIsMod(a: nat, k: nat)
    ensures Shl(1, k) > 0 && Low(a, k) == a % Shl(1, k)
  {
    if k > 0 {
      LowIsMod(a / 2, k - 1);
      HalfMod(a, Shl(1, k - 1));
    }
  }

  /** What is left of a result in a 32-bit word: C's unsigned wrap-around. */
  function U32(a: nat): nat {
    a % 0x1_0000_0000
  }

  lemma {:induction false} LowLow(a: nat, n: nat, m: nat)
    requires n <= m
    ensures Low(Low(a, m), n) == Low(a, n)
  {
    if n > 0 {
      LowLow(a / 2, n - 1, m - 1);
    }
  }

  lemma {:induction false} ShrLow(a: nat, j: nat, n: nat)
    requires j < n
    ensures Shr(Low(a, n), j) % 2 == Shr(a, j) % 2
  {
    LowHalf(a, n);
    if j > 0 {
      ShrLow(a / 2, j - 1, n - 1);
      assert Shr(Low(a, n), j) == Shr(Low(a, n) / 2, j - 1);
    }
  }

  lemma LowHalf(a: nat, n: nat)
    requires n > 0
    ensures Low(a, n) / 2 == Low(a / 2, n - 1) && Low(a, n) % 2 == a % 2
  {
  }

  lemma {:induction false} ShlGrows(j: nat, n: nat)
    requires j < n
    ensures Shl(1, j) < Shl(1, n)
  {
    if j > 0 {
      ShlGrows(j - 1, n - 1);
    } else {
      ShlPositive(1, n - 1);
    }
  }

  lemma {:induction false} ShlShl(a: nat, j: nat, k: nat)
    ensures Shl(Shl(a, j), k) == Shl(a, j + k)
  {
    if k > 0 {
      ShlShl(a, j, k - 1);
    }
  }

  /** A single bit below the top of the word is shifted without loss. */
  lemma BitStaysInWord(j: nat)
    requires j < 32
    ensures U32(Shl(1, j)) == Shl(1, j)
  {
    ShlGrows(j, 32);
    WordLimit();
  }

  lemma ShlSix(a: nat)
    ensures Shl(a, 6) == 64 * a
  {
    assert Shl(a, 1) == 2 * a;
    assert Shl(a, 2) == 4 * a;
    assert Shl(a, 3) == 8 * a;
    assert Shl(a, 4) == 16 * a;
    assert Shl(a, 5) == 32 * a;
  }

  lemma U32IsLow(a: nat)
    ensures U32(a) == Low(a, 32)
  {
    LowIsMod(a, 32);
    WordLimit();
  }

  lemma WordLimit()
    ensures Shl(1, 32) == 0x1_0000_0000
  {
    ShlSix(1);
    ShlShl(1, 6, 6);
    ShlSix(64);
    ShlShl(1, 12, 6);
    ShlSix(0x1000);
    ShlShl(1, 18, 6);
    ShlSix(0x4_0000);
    ShlShl(1, 24, 6);
    ShlSix(0x100_0000);
    assert Shl(1, 31) == 2 * Shl(1, 30);
    assert Shl(1, 32) == 2 * Shl(1, 31);
  }

  /** Operands made of a high part and a low lane of `j` bits are masked part by part. */
  lemma {:induction false} AndLanes(p: nat, s: nat, m: nat, t: nat, j: nat)
    requires s < Shl(1, j) && t < Shl(1, j)
    ensures And(Shl(p, j) + s, Shl(m, j) + t) == Shl(And(p, m), j) + And(s, t)
  {
    if j > 0 {
      var a, b := Shl(p, j) + s, Shl(m, j) + t;
      AndLanes(p, s / 2, m, t / 2, j - 1);
      LaneHalf(Shl(p, j - 1), s);
      LaneHalf(Shl(m, j - 1), t);
      AndStep(a, b);
      AndStep(s, t);
    }
  }

  lemma LaneHalf(h: nat, s: nat)
    ensures (2 * h + s) / 2 == h + s / 2 && (2 * h + s) % 2 == s % 2
  {
  }

  lemma AndStep(a: nat, b: nat)
    ensures And(a, b) == 2 * And(a / 2, b / 2) + (if a % 2 == 1 && b % 2 == 1 then 1 else 0)
  {
  }

  lemma {:induction false} XorBit(a: nat, b: nat, k: nat)
    ensures Shr(Xor(a, b), k) % 2 == 1 <==> Shr(a, k) % 2 != Shr(b, k) % 2
  {
    XorStep(a, b);
    if k > 0 {
      XorBit(a / 2, b / 2, k - 1);
    }
  }

  lemma XorStep(a: nat, b: nat)
    ensures Xor(a, b) / 2 == Xor(a / 2, b / 2)
    ensures Xor(a, b) % 2 == 1 <==> a % 2 != b % 2
  {
  }

  lemma {:induction false} OrBit(a: nat, b: nat, k: nat)
    ensures Shr(Or(a, b), k) % 2 == 1 <==> Shr(a, k) % 2 == 1 || Shr(b, k) % 2 == 1
  {
    OrStep(a, b);
    if k > 0 {
      OrBit(a / 2, b / 2, k - 1);
    }
  }

  lemma OrStep(a: nat, b: nat)
    ensures Or(a, b) / 2 == Or(a / 2, b / 2)
    ensures Or(a, b) % 2 == 1 <==> a % 2 == 1 || b % 2 == 1
  {
  }

  lemma OnesStep(n: nat)
    requires n > 0
    ensures Shl(1, n - 1) > 0 && Shl(1, n) - 1 == 2 * (Shl(1, n - 1) - 1) + 1
  {
    ShlPositive(1, n - 1);
  }

  /** A number is twice its half and its last bit. */
  lemma Recompose(x: nat, half: nat, bit: nat)
    requires x / 2 == half && x % 2 == bit
    ensures x == 2 * half + bit
  {
  }

  /** Flipping against `n` one bits is the complement. */
  lemma {:induction false} XorOnes(b: nat, n: nat)
    requires b < Shl(1, n)
    ensures Xor(Shl(1, n) - 1, b) == Shl(1, n) - 1 - b
  {
    if n > 0 {
      OnesStep(n);
      var ones, half := Shl(1, n) - 1, Shl(1, n - 1) - 1;
      DivModIs(ones, 2, half, 1);
      XorOnes(b / 2, n - 1);
      XorStep(ones, b);
      Recompose(Xor(ones, b), half - b / 2, 1 - b % 2);
    }
  }

  lemma {:induction false} XorBound(a: nat, b: nat, n: nat)
    requires a < Shl(1, n) && b < Shl(1, n)
    ensures Xor(a, b) < Shl(1, n) && Or(a, b) < Shl(1, n)
  {
    if n > 0 {
      XorBound(a / 2, b / 2, n - 1);
    }
  }

  lemma {:induction false} ShrIsDiv(a: nat, k: nat)
    ensures Shl(1, k) > 0 && Shr(a, k) == a / Shl(1, k)
  {
    if k > 0 {
      ShrIsDiv(a / 2, k - 1);
      HalfMod(a, Shl(1, k - 1));
    }
  }
}
