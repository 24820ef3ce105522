/**
 `av_popcount_c`, `av_popcount64_c` and `av_parity_c`.

 The counts of neighbouring lanes are added in parallel inside one word: first bits into
 pairs, then pairs into nibbles, nibbles into bytes, bytes into the low byte.  Each stage
 is described by a function over lanes, for any number of lanes, and the stage's masked
 arithmetic is proved equal to it.
 */
module PopCount {
  import opened Bits

  /** The number of one bits. */
  function Count(x: nat): nat {
    if x == 0 then 0 else x % 2 + Count(x / 2)
  }

  /** The exclusive or of all bits. */
  function XorOfBits(x: nat): bool {
    if x == 0 then false else (x % 2 == 1) != XorOfBits(x / 2)
  }

  // The masks of the code, lane by lane: 0x55555555, 0x33333333 and 0x0F0F0F0F.

  function Mask4(k: nat): nat {
    if k == 0 then 0 else 4 * Mask4(k - 1) + 1
  }

  function Mask16(k: nat): nat {
    if k == 0 then 0 else 16 * Mask16(k - 1) + 3
  }

  function Mask256(k: nat): nat {
    if k == 0 then 0 else 256 * Mask256(k - 1) + 15
  }

  // The word after each stage: `k` lanes, each holding the count of its own bits.

  function Pairs(x: nat, k: nat): nat {
    if k == 0 then 0 else 4 * Pairs(x / 4, k - 1) + Count(x % 4)
  }

  function Nibbles(x: nat, k: nat): nat {
    if k == 0 then 0 else 16 * Nibbles(x / 16, k - 1) + Count(x % 16)
  }

  function Octets(x: nat, k: nat): nat {
    if k == 0 then 0 else 256 * Octets(x / 256, k - 1) + Count(x % 256)
  }

  /** Each one bit counts one. */
  lemma {:induction false} EachBitCounts(a: nat, k: nat)
    requires a < Shl(1, k)
    ensures Count(a + Shl(1, k)) == Count(a) + 1
  {
    if k == 0 {
      assert Count(1) == 1 + Count(0);
    } else {
      EachBitCounts(a / 2, k - 1);
      HalfOfSum(a, Shl(1, k - 1));
      CountStep(a);
      CountStep(a + Shl(1, k));
    }
  }

  lemma HalfOfSum(a: nat, m: nat)
    ensures (a + 2 * m) / 2 == a / 2 + m && (a + 2 * m) % 2 == a % 2
  {
  }

  lemma CountTwo(r: nat)
    requires r < 4
    ensures Count(r) == r - r / 2 <= 2
  {
    assert Count(1) == 1 && Count(2) == 1 && Count(3) == 2;
  }

  /** Counting a word is counting its low `n` bits and the rest. */
  lemma {:induction false} CountSplit(x: nat, n: nat)
    ensures Count(x) == Count(Low(x, n)) + Count(Shr(x, n))
  {
    if n > 0 {
      CountSplit(x / 2, n - 1);
      CountStep(x);
      LowHalf(x, n);
      CountStep(Low(x, n));
      assert Shr(x, n) == Shr(x / 2, n - 1);
    }
  }

  lemma CountStep(x: nat)
    ensures Count(x) == x % 2 + Count(x / 2)
  {
  }

  lemma CountMod4(x: nat)
    ensures Count(x) == Count(x % 4) + Count(x / 4)
  {
    ShlTwo(1);
    CountSplit(x, 2);
    LowIsMod(x, 2);
    ShrIsDiv(x, 2);
  }

  lemma CountMod16(x: nat)
    ensures Count(x) == Count(x % 16) + Count(x / 16)
  {
    ShlFour(1);
    CountSplit(x, 4);
    LowIsMod(x, 4);
    ShrIsDiv(x, 4);
  }

  lemma CountMod256(x: nat)
    ensures Count(x) == Count(x % 256) + Count(x / 256)
  {
    ShlEight(1);
    CountSplit(x, 8);
    LowIsMod(x, 8);
    ShrIsDiv(x, 8);
  }

  lemma {:induction false} CountBound(x: nat, n: nat)
    requires x < Shl(1, n)
    ensures Count(x) <= n
  {
    if n > 0 {
      CountStep(x);
      CountBound(x / 2, n - 1);
    }
  }

  /** Stage one: `x - ((x >> 1) & 0x55555555)`. */
  lemma {:induction false} PairStage(x: nat, k: nat)
    requires x < Shl(1, 2 * k)
    ensures And(x / 2, Mask4(k)) <= x && x - And(x / 2, Mask4(k)) == Pairs(x, k)
  {
    if k > 0 {
      var q, r := x / 4, x % 4;
      assert Shl(1, 2 * k) == 4 * Shl(1, 2 * (k - 1));
      PairStage(q, k - 1);
      CountTwo(r);
      PairLane(q, r, Mask4(k - 1));
    }
  }

  lemma PairLane(q: nat, r: nat, m: nat)
    requires r < 4
    ensures And((4 * q + r) / 2, 4 * m + 1) == 4 * And(q / 2, m) + r / 2
  {
    var low := 2 * (q % 2) + r / 2;
    assert (4 * q + r) / 2 == 4 * (q / 2) + low;
    And4(q / 2, low, m, 1);
    AndOne(low);
  }

  lemma And4(p: nat, s: nat, m: nat, t: nat)
    requires s < 4 && t < 4
    ensures And(4 * p + s, 4 * m + t) == 4 * And(p, m) + And(s, t)
  {
    ShlTwo(1);
    ShlTwo(p);
    ShlTwo(m);
    ShlTwo(And(p, m));
    AndLanes(p, s, m, t, 2);
  }

  lemma And16(p: nat, s: nat, m: nat, t: nat)
    requires s < 16 && t < 16
    ensures And(16 * p + s, 16 * m + t) == 16 * And(p, m) + And(s, t)
  {
    ShlFour(1);
    ShlFour(p);
    ShlFour(m);
    ShlFour(And(p, m));
    AndLanes(p, s, m, t, 4);
  }

  lemma And256(p: nat, s: nat, m: nat, t: nat)
    requires s < 256 && t < 256
    ensures And(256 * p + s, 256 * m + t) == 256 * And(p, m) + And(s, t)
  {
    ShlEight(1);
    ShlEight(p);
    ShlEight(m);
    ShlEight(And(p, m));
    AndLanes(p, s, m, t, 8);
  }

  lemma ShlTwo(a: nat)
    ensures Shl(a, 2) == 4 * a
  {
    assert Shl(a, 1) == 2 * a;
  }

  lemma ShlFour(a: nat)
    ensures Shl(a, 4) == 16 * a
  {
    ShlTwo(a);
    assert Shl(a, 3) == 8 * a;
  }

  lemma ShlEight(a: nat)
    ensures Shl(a, 8) == 256 * a
  {
    ShlSix(a);
    assert Shl(a, 7) == 128 * a;
  }

  lemma AndOne(a: nat)
    ensures And(a, 1) == a % 2
  {
    AndStep(a, 1);
    assert And(a / 2, 0) == 0;
  }

  lemma AndThree(a: nat)
    ensures And(a, 3) == a % 4
  {
    ShlTwo(1);
    AndMask(a, 2);
    LowIsMod(a, 2);
  }

  lemma AndFifteen(a: nat)
    ensures And(a, 15) == a % 16
  {
    ShlFour(1);
    AndMask(a, 4);
    LowIsMod(a, 4);
  }

  /** Stage two: `(x & 0x33333333) + ((x >> 2) & 0x33333333)`. */
  lemma {:induction false} NibbleStage(x: nat, k: nat)
    ensures var p := Pairs(x, 2 * k); And(p, Mask16(k)) + And(p / 4, Mask16(k)) == Nibbles(x, k)
  {
    if k > 0 {
      var q, m, c0, c1 := Pairs(x / 16, 2 * (k - 1)), Mask16(k - 1), Count(x % 4), Count(x / 4 % 4);
      NibbleStage(x / 16, k - 1);
      PairsTwo(x, k);
      NibbleLane(q, c0, c1, m);
      assert Mask16(k) == 16 * m + 3;
    }
  }

  /** Two pairs make up a nibble. */
  lemma PairsTwo(x: nat, k: nat)
    requires k > 0
    ensures Pairs(x, 2 * k) == 16 * Pairs(x / 16, 2 * (k - 1)) + 4 * Count(x / 4 % 4) + Count(x % 4)
    ensures Count(x % 4) <= 2 && Count(x / 4 % 4) <= 2
    ensures Count(x % 16) == Count(x % 4) + Count(x / 4 % 4)
  {
    PairsUnfold(x, 2 * k);
    CountTwo(x % 4);
    CountTwo(x / 4 % 4);
    CountNibble(x);
  }

  lemma PairsUnfold(x: nat, k: nat)
    requires k >= 2
    ensures Pairs(x, k) == 16 * Pairs(x / 16, k - 2) + 4 * Count(x / 4 % 4) + Count(x % 4)
  {
    assert x / 4 / 4 == x / 16;
    assert Pairs(x / 4, k - 1) == 4 * Pairs(x / 16, k - 2) + Count(x / 4 % 4);
  }

  lemma CountNibble(x: nat)
    ensures Count(x % 16) == Count(x % 4) + Count(x / 4 % 4)
  {
    DigitsOf16(x);
    CountMod4(x % 16);
  }

  lemma DigitsOf16(x: nat)
    ensures x % 16 % 4 == x % 4 && x % 16 / 4 == x / 4 % 4
  {
  }

  lemma DigitsOf256(x: nat)
    ensures x % 256 % 16 == x % 16 && x % 256 / 16 == x / 16 % 16
  {
  }

  lemma NibbleLane(q: nat, c0: nat, c1: nat, m: nat)
    requires c0 <= 2 && c1 <= 2
    ensures var p := 16 * q + 4 * c1 + c0;
            And(p, 16 * m + 3) + And(p / 4, 16 * m + 3) == 16 * (And(q, m) + And(q / 4, m)) + c0 + c1
  {
    var p := 16 * q + 4 * c1 + c0;
    NibbleMask(q, c1, c0, m);
    assert p / 4 == 16 * (q / 4) + 4 * (q % 4) + c1;
    NibbleMask(q / 4, q % 4, c1, m);
  }

  lemma NibbleMask(q: nat, hi: nat, lo: nat, m: nat)
    requires hi < 4 && lo < 4
    ensures And(16 * q + 4 * hi + lo, 16 * m + 3) == 16 * And(q, m) + lo
  {
    var low := 4 * hi + lo;
    assert low % 4 == lo;
    And16(q, low, m, 3);
    AndThree(low);
  }

  /** Stage three: `(x + (x >> 4)) & 0x0F0F0F0F`. */
  lemma {:induction false} OctetStage(x: nat, k: nat)
    ensures var z := Nibbles(x, 2 * k); And(z + z / 16, Mask256(k)) == Octets(x, k)
  {
    if k > 0 {
      OctetStage(x / 256, k - 1);
      NibblesTwo(x, k);
      LowNibble(x / 256, 2 * (k - 1));
      OctetLane(Nibbles(x / 256, 2 * (k - 1)), Count(x % 16), Count(x / 16 % 16), Mask256(k - 1));
    }
  }

  /** Two nibbles make up a byte. */
  lemma NibblesTwo(x: nat, k: nat)
    requires k > 0
    ensures Nibbles(x, 2 * k) == 256 * Nibbles(x / 256, 2 * (k - 1)) + 16 * Count(x / 16 % 16) + Count(x % 16)
    ensures Count(x % 16) <= 4 && Count(x / 16 % 16) <= 4
    ensures Count(x % 256) == Count(x % 16) + Count(x / 16 % 16)
  {
    assert x / 16 / 16 == x / 256;
    assert Nibbles(x, 2 * k) == 16 * Nibbles(x / 16, 2 * k - 1) + Count(x % 16);
    assert Nibbles(x / 16, 2 * k - 1) == 16 * Nibbles(x / 256, 2 * (k - 1)) + Count(x / 16 % 16);
    ShlFour(1);
    CountBound(x % 16, 4);
    CountBound(x / 16 % 16, 4);
    DigitsOf256(x);
    CountMod16(x % 256);
  }

  lemma LowNibble(x: nat, k: nat)
    ensures Nibbles(x, k) % 16 <= 4
  {
    if k > 0 {
      ShlFour(1);
      CountBound(x % 16, 4);
      var n, c := Nibbles(x / 16, k - 1), Count(x % 16);
      assert (16 * n + c) % 16 == c;
    }
  }

  lemma OctetLane(q: nat, c0: nat, c1: nat, m: nat)
    requires c0 <= 4 && c1 <= 4 && q % 16 <= 4
    ensures var z := 256 * q + 16 * c1 + c0;
            And(z + z / 16, 256 * m + 15) == 256 * And(q + q / 16, m) + c0 + c1
  {
    var p, low := q + q / 16, 16 * (c1 + q % 16) + (c0 + c1);
    OctetSum(q, c0, c1);
    OctetMask(p, low, m);
  }

  lemma OctetMask(p: nat, low: nat, m: nat)
    requires low < 256
    ensures And(256 * p + low, 256 * m + 15) == 256 * And(p, m) + low % 16
  {
    And256(p, low, m, 15);
    AndFifteen(low);
  }

  lemma OctetSum(q: nat, c0: nat, c1: nat)
    requires c0 <= 4 && c1 <= 4 && q % 16 <= 4
    ensures var z, low := 256 * q + 16 * c1 + c0, 16 * (c1 + q % 16) + (c0 + c1);
            z + z / 16 == 256 * (q + q / 16) + low && low < 256 && low % 16 == c0 + c1
  {
    var z := 256 * q + 16 * c1 + c0;
    assert z / 16 == 16 * q + c1;
    assert q == 16 * (q / 16) + q % 16;
  }

  // ---------------------------------------------------------------------------
  // The code
  // ---------------------------------------------------------------------------

  type Word32 = v: nat | v < 0x1_0000_0000
  type Word64 = v: nat | v < 0x1_0000_0000_0000_0000

  lemma {:induction false} NibblesBound(x: nat, k: nat)
    ensures 15 * Nibbles(x, k) <= 4 * (Shl(1, 4 * k) - 1)
  {
    if k > 0 {
      NibblesBound(x / 16, k - 1);
      ShlFour(1);
      CountBound(x % 16, 4);
      ShlShl(1, 4 * (k - 1), 4);
      ShlFour(Shl(1, 4 * (k - 1)));
    }
  }

  lemma FirstStage(v: Word32)
    ensures And(v / 2, 0x5555_5555) <= v
    ensures v - And(v / 2, 0x5555_5555) == Pairs(v, 16)
  {
    WordLimit();
    PairStage(v, 16);
    assert Mask4(4) == 0x55;
    assert Mask4(8) == 0x5555;
    assert Mask4(12) == 0x55_5555;
    assert Mask4(16) == 0x5555_5555;
  }

  lemma SecondStageAt(v: Word32, x: nat, m: nat)
    requires x == Pairs(v, 16) && m == Mask16(8)
    ensures U32(And(x, m) + And(x / 4, m)) == Nibbles(v, 8)
  {
    NibbleStage(v, 8);
    NibblesLimit(v);
    NoCarry(Nibbles(v, 8));
  }

  lemma NoCarry(x: nat)
    requires x <= 0x4444_4444
    ensures U32(x) == x && U32(x + x / 16) == x + x / 16
  {
  }

  lemma MaskValues()
    ensures Mask16(8) == 0x3333_3333 && Mask256(4) == 0x0F0F_0F0F
  {
    assert Mask16(4) == 0x3333;
  }

  lemma NibblesLimit(v: Word32)
    ensures Nibbles(v, 8) <= 0x4444_4444
  {
    NibblesBound(v, 8);
    WordLimit();
  }

  lemma ShrTwo(a: nat)
    ensures Shr(a, 2) == a / 4
  {
    assert Shr(a, 2) == Shr(a / 2, 1) == a / 2 / 2;
  }

  lemma ShrFour(a: nat)
    ensures Shr(a, 4) == a / 16
  {
    ShrShr(a, 2, 2);
    ShrTwo(a);
    ShrTwo(a / 4);
  }

  lemma ShrEight(a: nat)
    ensures Shr(a, 8) == a / 256
  {
    ShrShr(a, 4, 4);
    ShrFour(a);
    ShrFour(a / 16);
  }

  lemma ShrSixteen(a: nat)
    ensures Shr(a, 16) == a / 0x1_0000
  {
    ShrShr(a, 8, 8);
    ShrEight(a);
    ShrEight(a / 256);
  }

  lemma ThirdStageAt(v: Word32, x: nat, m: nat)
    requires x == Nibbles(v, 8) && m == Mask256(4)
    ensures And(U32(x + x / 16), m) == Octets(v, 4)
  {
    OctetStage(v, 4);
    NibblesLimit(v);
    NoCarry(x);
  }

  lemma SecondStage(v: Word32, x: nat)
    requires x == Pairs(v, 16)
    ensures U32(And(x, 0x3333_3333) + And(x / 4, 0x3333_3333)) == Nibbles(v, 8)
  {
    MaskValues();
    SecondStageAt(v, x, 0x3333_3333);
  }

  lemma ThirdStage(v: Word32, x: nat)
    requires x == Nibbles(v, 8)
    ensures And(U32(x + x / 16), 0x0F0F_0F0F) == Octets(v, 4)
  {
    MaskValues();
    ThirdStageAt(v, x, 0x0F0F_0F0F);
  }

  lemma OctetParts(v: Word32) returns (c0: nat, c1: nat, c2: nat, c3: nat)
    ensures Octets(v, 4) == c0 + 0x100 * c1 + 0x1_0000 * c2 + 0x100_0000 * c3
    ensures Count(v) == c0 + c1 + c2 + c3
    ensures c0 <= 8 && c1 <= 8 && c2 <= 8 && c3 <= 8
  {
    var a, b, c := v / 256, v / 256 / 256, v / 256 / 256 / 256;
    c0, c1, c2, c3 := Count(v % 256), Count(a % 256), Count(b % 256), Count(c);
    assert c % 256 == c;
    assert Octets(c, 1) == c3;
    assert Octets(b, 2) == 256 * Octets(c, 1) + c2;
    assert Octets(a, 3) == 256 * Octets(b, 2) + c1;
    assert Octets(v, 4) == 256 * Octets(a, 3) + c0;
    CountOctets(v);
    ShlEight(1);
    CountBound(v % 256, 8);
    CountBound(a % 256, 8);
    CountBound(b % 256, 8);
    CountBound(c, 8);
  }

  lemma CountOctets(v: Word32)
    ensures Count(v) == Count(v % 256) + Count(v / 256 % 256) + Count(v / 256 / 256 % 256)
                        + Count(v / 256 / 256 / 256)
  {
    CountMod256(v);
    CountMod256(v / 256);
    CountMod256(v / 256 / 256);
  }

  lemma FitsWord(a: nat)
    requires a < 0x1_0000_0000
    ensures U32(a) == a
  {
    DivModIs(a, 0x1_0000_0000, 0, a);
  }

  lemma UpperThree(w: nat, c0: nat, c1: nat, c2: nat, c3: nat)
    requires c0 <= 8 && c1 <= 8 && c2 <= 8 && c3 <= 8
    requires w == c0 + 0x100 * c1 + 0x1_0000 * c2 + 0x100_0000 * c3
    ensures w / 0x100 == c1 + 0x100 * c2 + 0x1_0000 * c3
  {
    DivModIs(w, 0x100, c1 + 0x100 * c2 + 0x1_0000 * c3, c0);
  }

  lemma UpperTwo(y: nat, c0: nat, c1: nat, c2: nat, c3: nat)
    requires c0 <= 8 && c1 <= 8 && c2 <= 8 && c3 <= 8
    requires y == (c0 + c1) + 0x100 * (c1 + c2) + 0x1_0000 * (c2 + c3) + 0x100_0000 * c3
    ensures y / 0x1_0000 == (c2 + c3) + 0x100 * c3
  {
    DivModIs(y, 0x1_0000, (c2 + c3) + 0x100 * c3, (c0 + c1) + 0x100 * (c1 + c2));
  }

  lemma LowSix(z: nat, c: nat, rest: nat)
    requires c < 64 && z == c + 0x100 * rest
    ensures z % 64 == c
  {
    DivModIs(z, 64, 4 * rest, c);
  }

  /** The counts of the four bytes, added into the low six bits. */
  lemma AddOctets(w: nat, y: nat, c0: nat, c1: nat, c2: nat, c3: nat)
    requires c0 <= 8 && c1 <= 8 && c2 <= 8 && c3 <= 8
    requires w == c0 + 0x100 * c1 + 0x1_0000 * c2 + 0x100_0000 * c3
    requires y == U32(w + w / 0x100)
    ensures U32(y + y / 0x1_0000) % 64 == c0 + c1 + c2 + c3
  {
    UpperThree(w, c0, c1, c2, c3);
    FitsWord(w + w / 0x100);
    UpperTwo(y, c0, c1, c2, c3);
    FitsWord(y + y / 0x1_0000);
    LowSix(y + y / 0x1_0000, c0 + c1 + c2 + c3, (c1 + c2 + c3) + 0x100 * (c2 + c3) + 0x1_0000 * c3);
  }

  lemma AddUp(v: Word32, w: nat, y: nat)
    requires w == Octets(v, 4) && y == U32(w + w / 0x100)
    ensures U32(y + y / 0x1_0000) % 64 == Count(v)
  {
    var c0, c1, c2, c3 := OctetParts(v);
    AddOctets(w, y, c0, c1, c2, c3);
  }

  lemma LastStage(v: Word32, w: nat, y: nat)
    requires w == Octets(v, 4) && y == U32(w + w / 0x100)
    ensures And(U32(y + y / 0x1_0000), 0x3F) == Count(v)
  {
    AddUp(v, w, y);
    AndSixBits(U32(y + y / 0x1_0000));
  }

  lemma AndSixBits(a: nat)
    ensures And(a, 0x3F) == a % 64
  {
    ShlSix(1);
    AndMask(a, 6);
    LowIsMod(a, 6);
  }

  // The right shifts of the code, by one to sixteen bits.

  method Right1(x: nat) returns (r: nat)
    ensures r == x / 2
  {
    assert Shr(x, 1) == Shr(x / 2, 0);
    r := Shr(x, 1);
  }

  method Right2(x: nat) returns (r: nat)
    ensures r == x / 4
  {
    ShrTwo(x);
    r := Shr(x, 2);
  }

  method Right4(x: nat) returns (r: nat)
    ensures r == x / 16
  {
    ShrFour(x);
    r := Shr(x, 4);
  }

  method Right8(x: nat) returns (r: nat)
    ensures r == x / 0x100
  {
    ShrEight(x);
    r := Shr(x, 8);
  }

  method Right16(x: nat) returns (r: nat)
    ensures r == x / 0x1_0000
  {
    ShrSixteen(x);
    r := Shr(x, 16);
  }

  // `av_popcount_c`, line by line.

  method CountPairs(v: Word32) returns (x: nat)
    ensures x == Pairs(v, 16)
  {
    FirstStage(v);
    var half := Right1(v);
    x := v - And(half, 0x5555_5555);
  }

  method CountNibbles(ghost v: Word32, pairs: nat) returns (x: nat)
    requires pairs == Pairs(v, 16)
    ensures x == Nibbles(v, 8)
  {
    SecondStage(v, pairs);
    var upper := Right2(pairs);
    x := U32(And(pairs, 0x3333_3333) + And(upper, 0x3333_3333));
  }

  method CountOctetsOf(ghost v: Word32, nibbles: nat) returns (x: nat)
    requires nibbles == Nibbles(v, 8)
    ensures x == Octets(v, 4)
  {
    ThirdStage(v, nibbles);
    var upper := Right4(nibbles);
    x := And(U32(nibbles + upper), 0x0F0F_0F0F);
  }

  method AddOctetsOf(ghost v: Word32, octets: nat) returns (n: nat)
    requires octets == Octets(v, 4)
    ensures n == Count(v)
  {
    var upper := Right8(octets);
    var x := U32(octets + upper);
    LastStage(v, octets, x);
    upper := Right16(x);
    n := And(U32(x + upper), 0x3F);
  }

  method PopCount(v: Word32) returns (n: nat)
    ensures n == Count(v)
  {
    var x := CountPairs(v);
    x := CountNibbles(v, x);
    x := CountOctetsOf(v, x);
    n := AddOctetsOf(v, x);
  }

  lemma Halves(v: Word64)
    ensures Count(v) == Count(U32(v)) + Count(U32(Shr(v, 32)))
  {
    CountSplit(v, 32);
    U32IsLow(v);
    HighHalf(v);
  }

  lemma HighHalf(v: Word64)
    ensures U32(Shr(v, 32)) == Shr(v, 32)
  {
    ShrIsDiv(v, 32);
    WordLimit();
  }

  /** `av_popcount64_c`: the low half and the high half. */
  method PopCount64(v: Word64) returns (n: nat)
    ensures n == Count(v)
  {
    var low := PopCount(U32(v));
    var high := PopCount(U32(Shr(v, 32)));
    Halves(v);
    n := low + high;
  }

  /** `av_parity_c`: the lowest bit of the count, which is the exclusive or of all bits. */
  method Parity(v: Word32) returns (p: nat)
    ensures p == if XorOfBits(v) then 1 else 0
  {
    var n := PopCount(v);
    AndOne(n);
    ParityOfCount(v);
    p := And(n, 1);
  }

  lemma {:induction false} ParityOfCount(x: nat)
    ensures Count(x) % 2 == 1 <==> XorOfBits(x)
  {
    if x != 0 {
      ParityOfCount(x / 2);
    }
  }
}
