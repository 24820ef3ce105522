/**
 `PUT_UTF8` and `GET_UTF8`: the byte forms of section 2 of RFC 2279, for values below 2^31.

 The two methods follow the macros, operator by operator, on 32-bit words.  `Encode` and
 `Decode` are the table of RFC 2279 in plain arithmetic; the methods are proved equal to
 them, and the laws are proved about them.
 */
module Utf8 {
  import opened Bits
  import opened Bytes

  // ---------------------------------------------------------------------------
  // The table of RFC 2279
  // ---------------------------------------------------------------------------

  /** A value of at most 31 bits, the range of RFC 2279. */
  type Ucs4 = v: nat | v < 0x8000_0000

  /** The number of bytes of the shortest form. */
  function Length(v: nat): nat {
    if v < 0x80 then 1
    else if v < 0x800 then 2
    else if v < 0x1_0000 then 3
    else if v < 0x20_0000 then 4
    else if v < 0x400_0000 then 5
    else 6
  }

  /** `v` without its `k` lowest groups of six bits. */
  function Top(v: nat, k: nat): nat {
    if k == 0 then v else Top(v / 64, k - 1)
  }

  /** The `k` lowest groups of six bits as continuation bytes, highest first. */
  function Tails(v: nat, k: nat): (s: seq<byte>)
    ensures |s| == k
  {
    if k == 0 then [] else Tails(v / 64, k - 1) + [0x80 + v % 64]
  }

  /** The mark of the lead byte of an `n`-byte form: `n` one bits and a zero. */
  function Mark(n: nat): byte {
    match n
    case 1 => 0
    case 2 => 0xC0
    case 3 => 0xE0
    case 4 => 0xF0
    case 5 => 0xF8
    case _ => 0xFC
  }

  /** The shortest form of `v`. */
  function Encode(v: Ucs4): (s: seq<byte>)
    ensures |s| == Length(v)
  {
    TopBound(v);
    [Mark(Length(v)) + Top(v, Length(v) - 1)] + Tails(v, Length(v) - 1)
  }

  /** The values that fit under the mark of an `n`-byte form. */
  function Room(n: nat): nat {
    match n
    case 1 => 0x80
    case 2 => 0x20
    case 3 => 0x10
    case 4 => 0x08
    case 5 => 0x04
    case _ => 0x02
  }

  lemma TopBound(v: Ucs4)
    ensures Top(v, Length(v) - 1) < Room(Length(v))
  {
    var a, b, c := v / 64, v / 64 / 64, v / 64 / 64 / 64;
    assert Top(v, 1) == Top(a, 0) == a;
    assert Top(v, 2) == Top(a, 1) == Top(b, 0) == b;
    assert Top(v, 3) == Top(a, 2) == Top(b, 1) == c;
    assert Top(v, 4) == Top(a, 3) == Top(b, 2) == Top(c, 1) == c / 64;
    assert Top(v, 5) == Top(a, 4) == Top(b, 3) == Top(c, 2) == Top(c / 64, 1) == c / 64 / 64;
  }

  /** The length announced by a lead byte; 0 for a byte that cannot lead. */
  function LeadLength(b: byte): nat {
    if b < 0x80 then 1
    else if b < 0xC0 then 0
    else if b < 0xE0 then 2
    else if b < 0xF0 then 3
    else if b < 0xF8 then 4
    else if b < 0xFC then 5
    else if b < 0xFE then 6
    else 0
  }

  predicate IsTail(b: byte) {
    0x80 <= b < 0xC0
  }

  /** The number spelled by `lead` and the low six bits of each of the next `k` bytes. */
  function Spell(lead: nat, s: seq<byte>, k: nat): nat
    requires k < |s|
  {
    if k == 0 then lead else 64 * Spell(lead, s, k - 1) + s[k] % 64
  }

  datatype Read =
    | Char(val: nat, used: nat)
    | Malformed
    | Short

  /** The number of continuation bytes after the first byte, counted up to `n`. */
  function TailRun(s: seq<byte>, n: nat): (k: nat)
    requires s != []
    ensures k <= n && k < |s|
  {
    if n == 0 then 0
    else
      var k := TailRun(s, n - 1);
      if k == n - 1 && n < |s| && IsTail(s[n]) then n else k
  }

  /** One character off the front of `s`. */
  function Decode(s: seq<byte>): Read {
    if s == [] then Short
    else
      var n := LeadLength(s[0]);
      if n == 0 then Malformed
      else
        var k := TailRun(s, n - 1);
        if k == n - 1 then Char(Spell(s[0] - Mark(n), s, k), n)
        else if k + 1 < |s| then Malformed
        else Short
  }

  // ---------------------------------------------------------------------------
  // PUT_UTF8
  // ---------------------------------------------------------------------------

  /** `av_log2`: the position of the highest one bit (0 for 0).  Its body is not in the header. */
  function Log2(x: nat): nat {
    if x < 2 then 0 else 1 + Log2(x / 2)
  }

  lemma Log2Five(x: nat)
    requires x >= 32
    ensures Log2(x) == 5 + Log2(x / 32)
  {
    assert Log2(x) == 1 + Log2(x / 2);
    assert Log2(x / 2) == 1 + Log2(x / 2 / 2);
    assert Log2(x / 2 / 2) == 1 + Log2(x / 2 / 2 / 2);
    assert Log2(x / 2 / 2 / 2) == 1 + Log2(x / 2 / 2 / 2 / 2);
    assert x / 2 / 2 / 2 / 2 / 2 == x / 32;
  }

  lemma Log2Small(x: nat)
    requires 2 <= x < 64
    ensures 1 <= Log2(x) <= 5
  {
    assert x / 2 / 2 / 2 / 2 / 2 < 2;
    assert Log2(x / 2 / 2 / 2 / 2) <= 1;
    assert Log2(x / 2 / 2 / 2) <= 2;
    assert Log2(x / 2 / 2) <= 3;
    assert Log2(x / 2) <= 4;
  }

  /** The values whose highest bit is in the five positions that need `n` bytes. */
  predicate InBand(x: nat, n: nat) {
    match n
    case 2 => 64 <= x < 0x800
    case 3 => 0x800 <= x < 0x1_0000
    case 4 => 0x1_0000 <= x < 0x20_0000
    case 5 => 0x20_0000 <= x < 0x400_0000
    case 6 => 0x400_0000 <= x < 0x8000_0000
    case _ => false
  }

  /** The byte count `PUT_UTF8` computes from the logarithm is the one of the table. */
  lemma {:induction false} ByteCount(v: nat, n: nat)
    requires InBand(v, n)
    ensures (Log2(v) + 4) / 5 == n
  {
    Log2Five(v);
    if n == 2 {
      Log2Small(v / 32);
    } else {
      ByteCount(v / 32, n - 1);
    }
  }

  /** `in >> 6 * j`. */
  lemma {:induction false} ShrIsTop(v: nat, j: nat)
    ensures Shr(v, 6 * j) == Top(v, j)
  {
    if j > 0 {
      ShrShr(v, 6, 6 * j - 6);
      ShrSix(v);
      ShrIsTop(v / 64, j - 1);
    }
  }

  lemma ShrSix(v: nat)
    ensures Shr(v, 6) == v / 64
  {
    assert Shr(v, 6) == Shr(v / 2, 5);
    assert Shr(v / 2, 5) == Shr(v / 2 / 2, 4);
    assert Shr(v / 2 / 2, 4) == Shr(v / 2 / 2 / 2, 3);
    assert Shr(v / 2 / 2 / 2, 3) == Shr(v / 2 / 2 / 2 / 2, 2);
    assert v / 2 / 2 / 2 / 2 / 2 / 2 == v / 64;
  }

  lemma {:induction false} TopStep(v: nat, j: nat)
    ensures Top(v, j + 1) == Top(v, j) / 64
  {
    if j > 0 {
      TopStep(v / 64, j - 1);
    }
  }

  /** The mark from a shift of 256: `n` one bits at the top of a byte. */
  lemma MarkFormula(n: nat)
    requires 2 <= n <= 6
    ensures Shr(256, n) <= 256
    ensures 256 - Shr(256, n) == Mark(n) == Shl(Shl(1, n) - 1, 8 - n)
    ensures Room(n) <= Shl(1, 8 - n)
  {
    match n
    case 2 => assert Shr(256, 2) == 64 && Shl(3, 6) == 192;
    case 3 => assert Shr(256, 3) == 32 && Shl(7, 5) == 224;
    case 4 => assert Shr(256, 4) == 16 && Shl(15, 4) == 240;
    case 5 => assert Shr(256, 5) == 8 && Shl(31, 3) == 248;
    case 6 => assert Shr(256, 6) == 4 && Shl(63, 2) == 252;
  }

  /** The lead byte as the macro computes it. */
  lemma LeadFormula(v: nat)
    requires 0x80 <= v < 0x8000_0000
    ensures var n := Length(v);
            n >= 2 && Shr(256, n) <= 256
            && Or(256 - Shr(256, n), Shr(v, (n - 1) * 6)) == Encode(v)[0]
  {
    var n := Length(v);
    assert (n - 1) * 6 == 6 * (n - 1);
    var b := Top(v, n - 1);
    ShrIsTop(v, n - 1);
    TopBound(v);
    MarkFormula(n);
    ShlPositive(1, n);
    OrDisjoint(Shl(1, n) - 1, b, 8 - n);
  }

  /** A continuation byte as the macro computes it. */
  lemma TailFormula(v: nat)
    ensures Or(0x80, And(v, 0x3F)) == 0x80 + v % 64
  {
    AndMask(v, 6);
    LowIsMod(v, 6);
    OrDisjoint(2, v % 64, 6);
    assert Shl(2, 6) == 0x80 && Shl(1, 6) == 0x40;
  }

  lemma EncodeParts(v: Ucs4, start: seq<byte>)
    ensures start + [Encode(v)[0]] + Tails(v, Length(v) - 1) == start + Encode(v)
  {
  }

  /** `PUT_UTF8`, with the bytes put before in `start`. */
  method PutUtf8(val: Ucs4, start: seq<byte>) returns (out: seq<byte>)
    ensures out == start + Encode(val)
  {
    out := start;
    if val < 0x80 {
      var tmp: byte := val % 256;
      out := out + [tmp];
    } else {
      var bytes := (Log2(val) + 4) / 5;
      assert bytes == Length(val) by { ByteCount(val, Length(val)); }
      assert Shr(256, bytes) <= 256 by { LeadFormula(val); }
      var shift := (bytes - 1) * 6;
      var tmp: byte := Or(256 - Shr(256, bytes), Shr(val, shift)) % 256;
      assert tmp == Encode(val)[0] by { LeadFormula(val); }
      out := out + [tmp];
      out := PutTails(val, bytes, shift, out);
      EncodeParts(val, start);
    }
  }

  /** The loop of `PUT_UTF8`, from the shift of the lead byte down to 0. */
  method PutTails(val: nat, ghost bytes: nat, first: nat, before: seq<byte>) returns (out: seq<byte>)
    requires bytes >= 1 && first == (bytes - 1) * 6
    ensures out == before + Tails(val, bytes - 1)
  {
    out := before;
    var shift := first;
    ghost var j := bytes - 1;
    while shift >= 6
      invariant shift == 6 * j && 0 <= j < bytes
      invariant out == before + Tails(Top(val, j), bytes - 1 - j)
    {
      shift := shift - 6;
      j := j - 1;
      TailsGrow(val, j, bytes - 2 - j);
      var low := And(Shr(val, shift), 0x3F);
      var tmp: byte := Or(0x80, low) % 256;
      out := out + [tmp];
    }
  }

  lemma TailsGrow(v: nat, j: nat, k: nat)
    ensures Or(0x80, And(Shr(v, 6 * j), 0x3F)) < 256
    ensures Tails(Top(v, j), k + 1) == Tails(Top(v, j + 1), k) + [Or(0x80, And(Shr(v, 6 * j), 0x3F))]
  {
    ShrIsTop(v, j);
    TopStep(v, j);
    TailFormula(Top(v, j));
  }

  // ---------------------------------------------------------------------------
  // GET_UTF8
  // ---------------------------------------------------------------------------

  /** `(GET_BYTE) - 128`, in unsigned arithmetic. */
  function Unmarked(b: byte): nat {
    U32((b as int) + 0x1_0000_0000 - 128)
  }

  lemma UnmarkedTail(b: byte)
    ensures IsTail(b) ==> Unmarked(b) == b % 64
    ensures IsTail(b) <==> Shr(Unmarked(b), 6) == 0
  {
    ShrSix(Unmarked(b));
  }

  /** `(val << 6) + tmp`, with `tmp` the byte less its mark. */
  function Turn(val: nat, b: byte): nat {
    U32(U32(Shl(val, 6)) + Unmarked(b))
  }

  /** What `val` holds after `k` turns of the read loop. */
  function Word(s: seq<byte>, k: nat): nat
    requires k < |s|
  {
    if k == 0 then s[0] else Turn(Word(s, k - 1), s[k])
  }

  /** What `top` holds after `k` turns of the read loop. */
  function TopBit(lead: byte, k: nat): nat {
    if k == 0 then And(lead, 128) / 2 else U32(Shl(TopBit(lead, k - 1), 5))
  }

  /** The test and the mask of the loop, on the state after `k` turns. */
  predicate GoesOn(s: seq<byte>, k: nat)
    requires k < |s|
  {
    And(Word(s, k), TopBit(s[0], k)) != 0
  }

  function Masked(s: seq<byte>, k: nat): nat
    requires k < |s|
  {
    And(Word(s, k), U32(U32(Shl(TopBit(s[0], k), 1)) + 0x1_0000_0000 - 1))
  }

  lemma WrapStep(f: nat, t: nat)
    requires t < 64
    ensures U32(U32(Shl(U32(f), 6)) + t) == U32(64 * f + t)
  {
    var r := f % 0x1_0000_0000;
    ShlSix(r);
    WrapMod(f, t);
  }

  lemma WrapMod(f: nat, t: nat)
    ensures (64 * (f % 0x1_0000_0000) % 0x1_0000_0000 + t) % 0x1_0000_0000 == (64 * f + t) % 0x1_0000_0000
  {
    var q, r := f / 0x1_0000_0000, f % 0x1_0000_0000;
    AddMod(64 * r, t);
    MultipleMod(64 * q, 64 * r + t);
    assert 64 * f + t == 0x1_0000_0000 * (64 * q) + (64 * r + t);
  }

  lemma AddMod(a: nat, t: nat)
    ensures (a % 0x1_0000_0000 + t) % 0x1_0000_0000 == (a + t) % 0x1_0000_0000
  {
    var d, e := a / 0x1_0000_0000, a % 0x1_0000_0000;
    var q, r := (e + t) / 0x1_0000_0000, (e + t) % 0x1_0000_0000;
    DivModIs(a + t, 0x1_0000_0000, d + q, r);
  }

  lemma MultipleMod(k: nat, x: nat)
    ensures (0x1_0000_0000 * k + x) % 0x1_0000_0000 == x % 0x1_0000_0000
  {
    var q, r := x / 0x1_0000_0000, x % 0x1_0000_0000;
    DivModIs(0x1_0000_0000 * k + x, 0x1_0000_0000, k + q, r);
  }

  lemma WordTurn(f: nat, b: byte)
    requires IsTail(b)
    ensures Turn(U32(f), b) == U32(64 * f + b % 64)
  {
    UnmarkedTail(b);
    WrapStep(f, b % 64);
  }

  /** The word after `k` turns is the spelled number, with what left the word dropped. */
  lemma {:induction false} WordIsSpell(s: seq<byte>, k: nat)
    requires k < |s| && forall i | 1 <= i <= k :: IsTail(s[i])
    ensures Word(s, k) == U32(Spell(s[0], s, k))
  {
    if k > 0 {
      var f := Spell(s[0], s, k - 1);
      calc {
        Word(s, k);
        Turn(Word(s, k - 1), s[k]);
        { WordIsSpell(s, k - 1); }
        Turn(U32(f), s[k]);
        { WordTurn(f, s[k]); }
        U32(64 * f + s[k] % 64);
      }
    }
  }

  lemma {:induction false} TopBitIs(lead: byte, k: nat)
    requires lead >= 0x80 && k <= 5
    ensures TopBit(lead, k) == Shl(1, 6 + 5 * k)
  {
    if k == 0 {
      AndShifted(lead, 1, 7);
      LeadTopBit(lead);
      assert Shl(1, 7) == 128 && Shl(1, 6) == 64;
    } else {
      TopBitIs(lead, k - 1);
      ShlShl(1, 6 + 5 * (k - 1), 5);
      BitStaysInWord(6 + 5 * k);
    }
  }

  lemma LeadTopBit(lead: byte)
    requires lead >= 0x80
    ensures And(Shr(lead, 7), 1) == 1
  {
    ShrShr(lead, 6, 1);
    ShrSix(lead);
    assert Shr(lead, 7) == Shr(lead / 64, 1) == lead / 64 / 2;
  }

  lemma {:induction false} ShrSpell(lead: nat, s: seq<byte>, k: nat)
    requires k < |s|
    ensures Shr(Spell(lead, s, k), 6 * k) == lead
  {
    if k > 0 {
      var f := Spell(lead, s, k - 1);
      ShrSpell(lead, s, k - 1);
      ShrShr(64 * f + s[k] % 64, 6, 6 * (k - 1));
      ShrSix(64 * f + s[k] % 64);
    }
  }

  lemma ShrFew(b: nat)
    ensures Shr(b, 1) == b / 2 && Shr(b, 2) == b / 4 && Shr(b, 3) == b / 8
    ensures Shr(b, 4) == b / 16 && Shr(b, 5) == b / 32
  {
    var c, d, e := b / 2, b / 4, b / 8;
    assert Shr(b, 1) == Shr(c, 0) && Shr(b, 2) == Shr(c, 1) == Shr(d, 0);
    assert Shr(b, 3) == Shr(c, 2) == Shr(d, 1) == Shr(e, 0);
    assert Shr(b, 4) == Shr(c, 3) == Shr(d, 2) == Shr(e, 1) == Shr(b / 16, 0);
    assert Shr(b, 5) == Shr(c, 4) == Shr(d, 3) == Shr(e, 2) == Shr(b / 16, 1) == Shr(b / 32, 0);
  }

  lemma BitTests(b: byte)
    requires b >= 0x80 && LeadLength(b) > 0
    ensures b / 64 % 2 == 1 && (b / 32 % 2 == 1 <==> LeadLength(b) > 2)
    ensures LeadLength(b) > 2 ==> (b / 16 % 2 == 1 <==> LeadLength(b) > 3)
    ensures LeadLength(b) > 3 ==> (b / 8 % 2 == 1 <==> LeadLength(b) > 4)
    ensures LeadLength(b) > 4 ==> (b / 4 % 2 == 1 <==> LeadLength(b) > 5)
    ensures LeadLength(b) > 5 ==> b / 2 % 2 == 0
  {
  }

  /** The bits of a lead byte, from the second on, count the bytes of the form. */
  lemma LeadBit(b: byte, k: nat)
    requires b >= 0x80 && k < LeadLength(b)
    ensures Shr(b, 6 - k) % 2 == 1 <==> k + 1 < LeadLength(b)
  {
    ShrFew(b);
    ShrSix(b);
    BitTests(b);
  }

  /** The loop test looks at the lead byte's bits, however far they were shifted. */
  lemma GoesOnIs(s: seq<byte>, k: nat)
    requires k < |s| && k < LeadLength(s[0]) && forall i | 1 <= i <= k :: IsTail(s[i])
    ensures GoesOn(s, k) <==> k + 1 < LeadLength(s[0])
  {
    var f, at := Spell(s[0], s, k), 6 + 5 * k;
    if s[0] < 0x80 {
      AsciiTop(s[0]);
    } else {
      WordIsSpell(s, k);
      TopBitIs(s[0], k);
      AndBit(U32(f), at);
      U32IsLow(f);
      ShrLow(f, at, 32);
      ShrShr(f, 6 * k, 6 - k);
      ShrSpell(s[0], s, k);
      LeadBit(s[0], k);
    }
  }

  lemma AsciiTop(b: byte)
    requires b < 0x80
    ensures TopBit(b, 0) == 0
  {
    AndShifted(b, 1, 7);
    ShrShr(b, 6, 1);
    ShrSix(b);
    assert Shr(b, 7) == Shr(b / 64, 1) == 0;
    ShlZero(7);
    assert Shl(1, 7) == 128;
  }

  /** The low bits of a spelled number are spelled by the low bits of the lead. */
  lemma {:induction false} LowSpell(lead: nat, s: seq<byte>, k: nat, j: nat)
    requires k < |s|
    ensures Low(Spell(lead, s, k), 6 * k + j) == Spell(Low(lead, j), s, k)
  {
    if k > 0 {
      var f := Spell(lead, s, k - 1);
      LowSpell(lead, s, k - 1, j);
      LowSixMore(f, s[k] % 64, 6 * (k - 1) + j);
    }
  }

  lemma LowSixMore(f: nat, t: nat, n: nat)
    requires t < 64
    ensures Low(64 * f + t, n + 6) == 64 * Low(f, n) + t
  {
    var a := 64 * f + t;
    assert a / 2 == 32 * f + t / 2;
    assert Low(a, n + 6) == 2 * Low(a / 2, n + 5) + t % 2;
    LowFiveMore(f, t / 2, n);
  }

  lemma LowFiveMore(f: nat, t: nat, n: nat)
    requires t < 32
    ensures Low(32 * f + t, n + 5) == 32 * Low(f, n) + t
  {
    var a := 32 * f + t;
    var b := 16 * f + t / 2;
    assert a / 2 == b && b / 2 == 8 * f + t / 2 / 2;
    assert Low(a, n + 5) == 2 * Low(b, n + 4) + t % 2;
    assert Low(b, n + 4) == 2 * Low(b / 2, n + 3) + t / 2 % 2;
    LowThreeMore(f, t / 2 / 2, n);
  }

  lemma LowThreeMore(f: nat, t: nat, n: nat)
    requires t < 8
    ensures Low(8 * f + t, n + 3) == 8 * Low(f, n) + t
  {
    var a := 8 * f + t;
    var b := 4 * f + t / 2;
    var c := 2 * f + t / 2 / 2;
    assert a / 2 == b && b / 2 == c && c / 2 == f;
    assert Low(a, n + 3) == 2 * Low(b, n + 2) + t % 2;
    assert Low(b, n + 2) == 2 * Low(c, n + 1) + t / 2 % 2;
    assert Low(c, n + 1) == 2 * Low(f, n) + t / 2 / 2 % 2;
  }

  /** The value of the bits below the mark of a lead byte of `n` bytes. */
  lemma LeadPower(n: nat, m: nat)
    requires 2 <= n <= 6 && m == Shl(1, 8 - n)
    ensures m == if n == 2 then 64 else if n == 3 then 32 else if n == 4 then 16 else if n == 5 then 8 else 4
  {
    assert Shl(1, 2) == 4 && Shl(1, 3) == 8 && Shl(1, 4) == 16 && Shl(1, 5) == 32 && Shl(1, 6) == 64;
  }

  lemma LeadMod(b: byte, n: nat, m: nat)
    requires b >= 0x80 && n == LeadLength(b)
    requires m == if n == 2 then 64 else if n == 3 then 32 else if n == 4 then 16 else if n == 5 then 8 else 4
    requires n > 0
    ensures b % m == b - Mark(n)
  {
  }

  /** What the final mask leaves of a lead byte that announced `k + 1` bytes. */
  lemma LeadLow(b: byte, k: nat)
    requires b >= 0x80 && k + 1 == LeadLength(b)
    ensures Low(b, 7 - k) == b - Mark(k + 1)
  {
    LowIsMod(b, 7 - k);
    LeadPower(k + 1, Shl(1, 7 - k));
    LeadMod(b, k + 1, Shl(1, 7 - k));
  }

  /** The mask after `k` turns: `7 + 5 * k` one bits; at six bytes it wraps to all ones. */
  lemma MaskBits(lead: byte, k: nat)
    requires lead >= 0x80 && k <= 5
    ensures U32(U32(Shl(TopBit(lead, k), 1)) + 0x1_0000_0000 - 1) == Shl(1, 7 + 5 * k) - 1
  {
    var n := 7 + 5 * k;
    TopBitIs(lead, k);
    ShlShl(1, 6 + 5 * k, 1);
    ShlPositive(1, n);
    WordLimit();
    if k < 5 {
      ShlGrows(n, 32);
    }
    WrapMinusOne(Shl(1, n));
  }

  lemma WrapMinusOne(m: nat)
    requires m <= 0x1_0000_0000
    ensures U32(U32(m) + 0x1_0000_0000 - 1) == if m == 0 then 0xFFFF_FFFF else m - 1
  {
  }

  /** The final mask keeps the low `7 + 5 * k` bits of the spelled number, wrapped or not. */
  lemma MaskedWord(s: seq<byte>, k: nat)
    requires k < |s| && k + 1 == LeadLength(s[0]) && s[0] >= 0x80 && forall i | 1 <= i <= k :: IsTail(s[i])
    ensures Masked(s, k) == Low(Spell(s[0], s, k), 7 + 5 * k)
  {
    var f, n := Spell(s[0], s, k), 7 + 5 * k;
    ShlPositive(1, n);
    assert Masked(s, k) == And(U32(f), Shl(1, n) - 1) by {
      WordIsSpell(s, k);
      MaskBits(s[0], k);
    }
    MaskLow(f, n);
  }

  lemma MaskLow(f: nat, n: nat)
    requires n <= 32
    ensures Shl(1, n) > 0 && And(U32(f), Shl(1, n) - 1) == Low(f, n)
  {
    AndMask(U32(f), n);
    U32IsLow(f);
    LowLow(f, n, 32);
  }

  /** The final mask leaves the payload bits of the lead byte above the continuation bits. */
  lemma MaskedIs(s: seq<byte>, k: nat)
    requires k < |s| && k + 1 == LeadLength(s[0]) && forall i | 1 <= i <= k :: IsTail(s[i])
    ensures Masked(s, k) == Spell(s[0] - Mark(k + 1), s, k)
  {
    if s[0] < 0x80 {
      AsciiMask(s);
    } else {
      MaskedWord(s, k);
      assert 7 + 5 * k == 6 * k + (7 - k);
      LowSpell(s[0], s, k, 7 - k);
      LeadLow(s[0], k);
    }
  }

  lemma AsciiMask(s: seq<byte>)
    requires s != [] && s[0] < 0x80
    ensures Masked(s, 0) == s[0]
  {
    var t := Shl(TopBit(s[0], 0), 1);
    AsciiTop(s[0]);
    ShlZero(1);
    WrapMinusOne(t);
    AndAllOnes(s[0]);
  }

  lemma AndAllOnes(a: nat)
    ensures And(a, 0xFFFF_FFFF) == U32(a)
  {
    WordLimit();
    AndMask(a, 32);
    U32IsLow(a);
  }

  lemma {:induction false} TailRunIs(s: seq<byte>, n: nat, k: nat)
    requires k <= n && k < |s|
    requires forall i | 1 <= i <= k :: IsTail(s[i])
    requires k < n && k + 1 < |s| ==> !IsTail(s[k + 1])
    ensures TailRun(s, n) == k
  {
    if n > k {
      TailRunIs(s, n - 1, k);
    } else if k > 0 {
      TailRunIs(s, n - 1, k - 1);
    }
  }

  /** The loop has made `k` turns: `k` tests succeeded and `k` continuation bytes came. */
  ghost predicate Turned(s: seq<byte>, k: nat)
    requires k < |s|
  {
    if k == 0 then LeadLength(s[0]) > 0 else Turned(s, k - 1) && GoesOn(s, k - 1) && IsTail(s[k])
  }

  lemma {:induction false} TurnedMeans(s: seq<byte>, k: nat)
    requires k < |s| && Turned(s, k)
    ensures k < LeadLength(s[0])
    ensures forall i | 1 <= i <= k :: IsTail(s[i])
  {
    if k > 0 {
      TurnedMeans(s, k - 1);
      GoesOnIs(s, k - 1);
    }
  }

  /** The loop wants another byte: the form is longer than what was read. */
  lemma LoopGoesOn(s: seq<byte>, k: nat)
    requires k < |s| && Turned(s, k) && GoesOn(s, k)
    ensures k + 1 == |s| ==> Decode(s) == Short
    ensures k + 1 < |s| && !IsTail(s[k + 1]) ==> Decode(s) == Malformed
  {
    TurnedMeans(s, k);
    GoesOnIs(s, k);
    if k + 1 == |s| || !IsTail(s[k + 1]) {
      TailRunIs(s, LeadLength(s[0]) - 1, k);
    }
  }

  /** The loop is left: the form is complete, after at most five turns. */
  lemma LoopIsLeft(s: seq<byte>, k: nat)
    requires k < |s| && Turned(s, k) && !GoesOn(s, k)
    ensures Decode(s) == Char(Masked(s, k), k + 1)
  {
    TurnedMeans(s, k);
    GoesOnIs(s, k);
    MaskedIs(s, k);
    TailRunIs(s, LeadLength(s[0]) - 1, k);
  }

  /** The rejection test of the macro refuses the bytes that cannot lead. */
  lemma LeadTest(b: byte)
    ensures And(b, 0xC0) == 0x80 || b >= 0xFE <==> LeadLength(b) == 0
  {
    AndShifted(b, 3, 6);
    ShrSix(b);
    AndMask(b / 64, 2);
    LowIsMod(b / 64, 2);
    assert Shl(1, 2) == 4 && Shl(3, 6) == 0xC0;
    ShlSix(b / 64 % 4);
  }

  /** `GET_UTF8` on the bytes of `s`; `Short` when a byte is wanted and there is none. */
  method GetUtf8(s: seq<byte>) returns (r: Read)
    ensures r == Decode(s)
  {
    if s == [] {
      return Short;
    }
    var val: nat := s[0];
    var used := 1;
    var top := And(val, 128) / 2;
    LeadTest(s[0]);
    if And(val, 0xC0) == 0x80 || val >= 0xFE {
      return Malformed;
    }
    while And(val, top) != 0
      invariant 1 <= used <= |s| && Turned(s, used - 1)
      invariant val == Word(s, used - 1) && top == TopBit(s[0], used - 1)
      decreases |s| - used
    {
      LoopGoesOn(s, used - 1);
      if used == |s| {
        return Short;
      }
      var b := s[used];
      UnmarkedTail(b);
      used := used + 1;
      if Shr(Unmarked(b), 6) != 0 {
        return Malformed;
      }
      val := Turn(val, b);
      top := U32(Shl(top, 5));
    }
    LoopIsLeft(s, used - 1);
    val := And(val, U32(U32(Shl(top, 1)) + 0x1_0000_0000 - 1));
    return Char(val, used);
  }

  // ---------------------------------------------------------------------------
  // The laws
  // ---------------------------------------------------------------------------

  lemma {:induction false} TailsAreTails(v: nat, k: nat, i: nat)
    requires i < k
    ensures IsTail(Tails(v, k)[i])
  {
    if i < k - 1 {
      TailsAreTails(v / 64, k - 1, i);
    }
  }

  /** Spelling the continuation bytes of `v` over its top bits gives `v` back. */
  lemma {:induction false} SpellTails(v: nat, s: seq<byte>, n: nat, k: nat)
    requires n <= k < |s| && forall i | 1 <= i <= n :: s[i] == Tails(v, n)[i - 1]
    ensures Spell(Top(v, n), s, n) == v
  {
    if n > 0 {
      SpellTails(v / 64, s, n - 1, k);
      assert s[n] % 64 == v % 64;
    }
  }

  lemma LeadIs(v: Ucs4)
    ensures LeadLength(Encode(v)[0]) == Length(v)
    ensures Encode(v)[0] - Mark(Length(v)) == Top(v, Length(v) - 1)
  {
    TopBound(v);
  }

  /** A written value is read back, and exactly its bytes are used, whatever follows. */
  lemma RoundTrip(v: Ucs4, rest: seq<byte>)
    ensures Decode(Encode(v) + rest) == Char(v, |Encode(v)|)
  {
    var s, n := Encode(v) + rest, Length(v);
    LeadIs(v);
    forall i | 1 <= i <= n - 1 ensures s[i] == Tails(v, n - 1)[i - 1] && IsTail(s[i]) {
      TailsAreTails(v, n - 1, i - 1);
    }
    TailRunIs(s, n - 1, n - 1);
    SpellTails(v, s, n - 1, n - 1);
  }

  /** Spelling is undone by taking the top and the tails. */
  lemma {:induction false} SpellParts(lead: nat, s: seq<byte>, k: nat)
    requires k < |s| && forall i | 1 <= i <= k :: IsTail(s[i])
    ensures Top(Spell(lead, s, k), k) == lead
    ensures Tails(Spell(lead, s, k), k) == s[1..k + 1]
  {
    if k > 0 {
      SpellParts(lead, s, k - 1);
      assert s[k] == 0x80 + s[k] % 64;
    }
  }

  lemma {:induction false} TailRunTails(s: seq<byte>, n: nat)
    requires s != [] && TailRun(s, n) == n
    ensures forall i | 1 <= i <= n :: IsTail(s[i])
  {
    if n > 0 {
      TailRunTails(s, n - 1);
    }
  }

  /** What a reading says about the bytes read. */
  lemma DecodeParts(s: seq<byte>)
    requires Decode(s).Char?
    ensures var (v, n) := (Decode(s).val, Decode(s).used);
            && 1 <= n <= |s| && n == LeadLength(s[0])
            && Top(v, n - 1) == s[0] - Mark(n) < Room(n)
            && Tails(v, n - 1) == s[1..n]
  {
    var n := LeadLength(s[0]);
    TailRunTails(s, n - 1);
    SpellParts(s[0] - Mark(n), s, n - 1);
  }

  /** The values of at most `n` bytes. */
  lemma FitsLength(v: nat, n: nat)
    requires 1 <= n <= 6 && Top(v, n - 1) < Room(n)
    ensures v < 0x8000_0000 && Length(v) <= n
  {
    var a, b, c := v / 64, v / 64 / 64, v / 64 / 64 / 64;
    match n
    case 1 =>
    case 2 => assert Top(v, 1) == Top(a, 0) == a;
    case 3 => assert Top(v, 2) == Top(a, 1) == Top(b, 0) == b;
    case 4 => assert Top(v, 3) == Top(a, 2) == Top(b, 1) == c;
    case 5 => assert Top(v, 4) == Top(a, 3) == Top(b, 2) == Top(c, 1) == c / 64;
    case _ => assert Top(v, 5) == Top(a, 4) == Top(b, 3) == Top(c, 2) == Top(c / 64, 1) == c / 64 / 64;
  }

  /**
   The written form is the shortest: whatever bytes are read as `v`, they are at least as
   many, and they are the written ones if and only if they are as few.
   */
  lemma ShortestForm(s: seq<byte>)
    requires Decode(s).Char?
    ensures var (v, n) := (Decode(s).val, Decode(s).used);
            && v < 0x8000_0000 && n <= |s|
            && |Encode(v)| <= n
            && (s[..n] == Encode(v) <==> n == |Encode(v)|)
  {
    var (v, n) := (Decode(s).val, Decode(s).used);
    DecodeParts(s);
    FitsLength(v, n);
    if n == Length(v) {
      assert s[..n] == [s[0]] + s[1..n];
    }
  }

  lemma {:induction false} TailsAt(v: nat, k: nat, i: nat)
    requires i < k
    ensures Tails(v, k)[i] as int == 0x80 + Top(v, k - 1 - i) % 64
  {
    if i < k - 1 {
      TailsAt(v / 64, k - 1, i);
    }
  }

  /** The table of RFC 2279: how many bytes a value takes, and each of them. */
  lemma FormTable(v: Ucs4, i: nat)
    requires i < |Encode(v)|
    ensures var n := |Encode(v)|;
            && 1 <= n <= 6
            && v < [0x80, 0x800, 0x1_0000, 0x20_0000, 0x400_0000, 0x8000_0000][n - 1]
            && (n > 1 ==> v >= [0x80, 0x800, 0x1_0000, 0x20_0000, 0x400_0000][n - 2])
            && Encode(v)[i] as int
            == if i == 0 then [0, 0xC0, 0xE0, 0xF0, 0xF8, 0xFC][n - 1] + Shr(v, 6 * (n - 1))
               else 0x80 + Shr(v, 6 * (n - 1 - i)) % 64
  {
    var n := Length(v);
    TopBound(v);
    ShrIsTop(v, n - 1 - i);
    if i > 0 {
      TailsAt(v, n - 1, i - 1);
    }
  }

  /** The `n`-byte form of a value that fits under its mark, shortest or not. */
  function Spelled(v: nat, n: nat): (s: seq<byte>)
    requires 1 <= n <= 6 && Top(v, n - 1) < Room(n)
    ensures |s| == n
  {
    [Mark(n) + Top(v, n - 1)] + Tails(v, n - 1)
  }

  /** A value and a number of bytes are read exactly from the bytes that are its form of that length. */
  lemma DecodeIff(s: seq<byte>, v: nat, n: nat)
    ensures Decode(s) == Char(v, n) <==>
            1 <= n <= 6 && Top(v, n - 1) < Room(n) && n <= |s| && s[..n] == Spelled(v, n)
  {
    if Decode(s) == Char(v, n) {
      DecodeParts(s);
      assert s[..n] == [s[0]] + s[1..n];
    }
    if 1 <= n <= 6 && Top(v, n - 1) < Room(n) && n <= |s| && s[..n] == Spelled(v, n) {
      assert s[0] == s[..n][0] && LeadLength(s[0]) == n;
      forall i | 1 <= i <= n - 1 ensures s[i] == Tails(v, n - 1)[i - 1] && IsTail(s[i]) {
        assert s[i] == s[..n][i];
        TailsAreTails(v, n - 1, i - 1);
      }
      TailRunIs(s, n - 1, n - 1);
      SpellTails(v, s, n - 1, n - 1);
    }
  }

  lemma {:induction false} TailRunMeans(s: seq<byte>, n: nat)
    requires s != []
    ensures forall i | 1 <= i <= TailRun(s, n) :: IsTail(s[i])
    ensures TailRun(s, n) < n && TailRun(s, n) + 1 < |s| ==> !IsTail(s[TailRun(s, n) + 1])
  {
    if n > 0 {
      TailRunMeans(s, n - 1);
    }
  }

  lemma CharStays(s: seq<byte>, rest: seq<byte>)
    requires Decode(s).Char?
    ensures Decode(s + rest) == Decode(s)
  {
    var (v, n) := (Decode(s).val, Decode(s).used);
    DecodeIff(s, v, n);
    assert (s + rest)[..n] == s[..n];
    DecodeIff(s + rest, v, n);
  }

  lemma MalformedStays(s: seq<byte>, rest: seq<byte>)
    requires Decode(s) == Malformed
    ensures Decode(s + rest) == Malformed
  {
    var n := LeadLength(s[0]);
    if n > 0 {
      var k := TailRun(s, n - 1);
      TailRunMeans(s, n - 1);
      forall i | 1 <= i <= k ensures IsTail((s + rest)[i]) {
        assert (s + rest)[i] == s[i];
      }
      assert (s + rest)[k + 1] == s[k + 1];
      TailRunIs(s + rest, n - 1, k);
    }
  }

  /** The bytes that are missing. */
  lemma ShortGoesOn(s: seq<byte>) returns (rest: seq<byte>)
    requires Decode(s) == Short
    ensures Decode(s + rest).Char?
  {
    if s == [] {
      rest := [0];
      assert s + rest == [0];
      TailRunIs(rest, 0, 0);
    } else {
      var n, k := LeadLength(s[0]), |s| - 1;
      TailRunMeans(s, n - 1);
      rest := Tails(0, n - 1 - k);
      forall i | 1 <= i <= n - 1 ensures IsTail((s + rest)[i]) {
        if i > k {
          TailsAreTails(0, n - 1 - k, i - |s|);
          assert (s + rest)[i] == rest[i - |s|];
        } else {
          assert (s + rest)[i] == s[i];
        }
      }
      TailRunIs(s + rest, n - 1, n - 1);
    }
  }

  /** Bytes are reported as cut short exactly when some bytes behind them would complete a character. */
  lemma ShortIff(s: seq<byte>)
    requires !Decode(s).Char?
    ensures Decode(s) == Short <==> exists rest :: Decode(s + rest).Char?
  {
    if Decode(s) == Short {
      var rest := ShortGoesOn(s);
    } else if exists rest :: Decode(s + rest).Char? {
      var rest :| Decode(s + rest).Char?;
      MalformedStays(s, rest);
    }
  }

  /** No written form is a prefix of another. */
  lemma PrefixFree(a: Ucs4, b: Ucs4)
    requires Encode(a) <= Encode(b)
    ensures a == b
  {
    var rest := Encode(b)[|Encode(a)|..];
    assert Encode(a) + rest == Encode(b) + [];
    RoundTrip(a, rest);
    RoundTrip(b, []);
  }

  /** A list of values, each written after the other. */
  function EncodeAll(vs: seq<Ucs4>): seq<byte> {
    if vs == [] then [] else Encode(vs[0]) + EncodeAll(vs[1..])
  }

  datatype Text = Text(vals: seq<nat>) | NotText

  /** Reading until the bytes are used up. */
  function DecodeAll(s: seq<byte>): Text
    decreases |s|
  {
    if s == [] then Text([])
    else match Decode(s)
      case Char(v, n) =>
        DecodeParts(s);
        (match DecodeAll(s[n..])
         case Text(vs) => Text([v] + vs)
         case NotText => NotText)
      case _ => NotText
  }

  /** Any list of values below 2^31 is read back from its bytes. */
  lemma {:induction false} RoundTripAll(vs: seq<Ucs4>)
    ensures DecodeAll(EncodeAll(vs)) == Text(vs)
  {
    if vs != [] {
      var first, rest := Encode(vs[0]), EncodeAll(vs[1..]);
      RoundTrip(vs[0], rest);
      assert (first + rest)[|first|..] == rest;
      RoundTripAll(vs[1..]);
    }
  }
}
