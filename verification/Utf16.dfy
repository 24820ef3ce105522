/**
 `PUT_UTF16` and `GET_UTF16`: the forms of sections 2.1 and 2.2 of RFC 2781.

 The methods follow the macros on 32-bit words.  `Form` and `Decode` are the RFC's
 surrogate pairs in plain arithmetic.
 */
module Utf16 {
  import opened Bits

  type Unit = u: nat | u < 0x1_0000
  type Word32 = v: nat | v < 0x1_0000_0000

  /** A Unicode scalar value: not a surrogate, not above the last plane. */
  predicate IsScalar(v: nat) {
    v < 0xD800 || 0xE000 <= v < 0x11_0000
  }

  type Scalar = v: nat | v < 0xD800 || 0xE000 <= v < 0x11_0000

  /** The RFC's form of a scalar value. */
  function Form(v: Scalar): (s: seq<Unit>) {
    if v < 0x1_0000 then [v] else [High(Offset(v)), Low10(Offset(v))]
  }

  function Offset(v: int): int {
    v - 0x1_0000
  }

  /** The surrogates of a 20-bit offset. */
  function High(w: nat): Unit
    requires w < 0x10_0000
  {
    0xD800 + w / 0x400
  }

  function Low10(w: nat): Unit {
    0xDC00 + w % 0x400
  }

  predicate IsHigh(u: nat) {
    0xD800 <= u < 0xDC00
  }

  predicate IsLow(u: nat) {
    0xDC00 <= u < 0xE000
  }

  /** The value of a surrogate pair. */
  function Pair(hi: int, lo: int): int {
    0x1_0000 + (hi - 0xD800) * 0x400 + (lo - 0xDC00)
  }

  datatype Read =
    | Char(val: nat, used: nat)
    | Malformed
    | Short

  /** One character off the front of `s`. */
  function Decode(s: seq<Unit>): Read {
    if s == [] then Short
    else if !IsHigh(s[0]) && !IsLow(s[0]) then Char(s[0], 1)
    else if |s| == 1 then Short
    else if IsHigh(s[0]) && IsLow(s[1]) then
      Char(Pair(s[0], s[1]), 2)
    else Malformed
  }

  /** The 16-bit `tmp` of the macro. */
  function U16(a: nat): Unit {
    a % 0x1_0000
  }

  /** The units `PUT_UTF16` computes for any 32-bit word. */
  function Put(v: Word32): seq<Unit> {
    if v < 0x1_0000 then [v]
    else [U16(Or(0xD800, Shr(Offset(v), 10))), U16(Or(0xDC00, And(Offset(v), 0x3FF)))]
  }

  lemma ShrTen(a: nat)
    ensures Shr(a, 10) == a / 0x400
  {
    var b := a / 2 / 2 / 2 / 2 / 2;
    ShrFive(a);
    ShrFive(a / 32);
    ShrShr(a, 5, 5);
  }

  lemma ShrFive(a: nat)
    ensures Shr(a, 5) == a / 32
  {
    assert Shr(a, 5) == Shr(a / 2, 4);
    assert Shr(a / 2, 4) == Shr(a / 2 / 2, 3);
    assert Shr(a / 2 / 2, 3) == Shr(a / 2 / 2 / 2, 2);
    assert a / 2 / 2 / 2 / 2 / 2 == a / 32;
  }

  lemma ShlTen(a: nat)
    ensures Shl(a, 10) == 0x400 * a
  {
    ShlSix(a);
    assert Shl(a, 7) == 128 * a;
    assert Shl(a, 8) == 256 * a;
    assert Shl(a, 9) == 512 * a;
  }

  lemma LowTen(a: nat)
    ensures And(a, 0x3FF) == a % 0x400
  {
    ShlTen(1);
    AndMask(a, 10);
    LowIsMod(a, 10);
  }

  /** For scalar values the macro's bit operations give the RFC's form. */
  lemma PutIsForm(v: Scalar)
    ensures Put(v) == Form(v)
  {
    if v >= 0x1_0000 {
      PutHigh(Offset(v));
      PutLow(Offset(v));
    }
  }

  lemma PutHigh(w: nat)
    requires w < 0x10_0000
    ensures U16(Or(0xD800, Shr(w, 10))) == High(w)
  {
    ShrTen(w);
    ShlTen(54);
    ShlTen(1);
    OrDisjoint(54, w / 0x400, 10);
  }

  lemma PutLow(w: nat)
    ensures U16(Or(0xDC00, And(w, 0x3FF))) == Low10(w)
  {
    LowTen(w);
    ShlTen(55);
    ShlTen(1);
    OrDisjoint(55, w % 0x400, 10);
  }

  /** `PUT_UTF16`, with the units put before in `start`. */
  method PutUtf16(val: Word32, start: seq<Unit>) returns (out: seq<Unit>)
    ensures out == start + Put(val)
    ensures IsScalar(val) ==> out == start + Form(val)
  {
    out := start;
    if val < 0x1_0000 {
      var tmp: Unit := val;
      out := out + [tmp];
    } else {
      var tmp: Unit := U16(Or(0xD800, Shr(Offset(val), 10)));
      out := out + [tmp];
      tmp := U16(Or(0xDC00, And(Offset(val), 0x3FF)));
      out := out + [tmp];
    }
    if IsScalar(val) {
      PutIsForm(val);
    }
  }

  /** `a - b` in unsigned 32-bit arithmetic. */
  function Minus(a: nat, b: nat): nat
    requires b < 0x1_0000_0000
  {
    U32(a + 0x1_0000_0000 - b)
  }

  lemma MinusIs(u: Unit, b: Unit)
    ensures Minus(u, b) == if u >= b then u - b else u + 0x1_0000_0000 - b
  {
  }

  lemma Assemble(hi: nat, lo: nat)
    requires hi < 0x400 && lo < 0x400
    ensures U32(lo + U32(U32(Shl(hi, 10)) + 0x1_0000)) == Pair(hi + 0xD800, lo + 0xDC00)
  {
    ShlTen(hi);
  }

  /** `GET_UTF16` on the units of `s`; `Short` when a unit is wanted and there is none. */
  method GetUtf16(s: seq<Unit>) returns (r: Read)
    ensures r == Decode(s)
  {
    if s == [] {
      return Short;
    }
    var val: nat := s[0];
    var used := 1;
    var hi := Minus(val, 0xD800);
    MinusIs(s[0], 0xD800);
    if hi < 0x800 {
      if used == |s| {
        return Short;
      }
      val := Minus(s[used], 0xDC00);
      MinusIs(s[used], 0xDC00);
      used := used + 1;
      if val > 0x3FF || hi > 0x3FF {
        return Malformed;
      }
      Assemble(hi, val);
      val := U32(val + U32(U32(Shl(hi, 10)) + 0x1_0000));
    }
    return Char(val, used);
  }

  /** A written value is read back, with nothing over, exactly when it is a scalar value. */
  lemma RoundTripIffScalar(v: Word32, rest: seq<Unit>)
    ensures Decode(Put(v) + rest) == Char(v, |Put(v)|) <==> IsScalar(v)
  {
    var s := Put(v) + rest;
    if IsScalar(v) {
      PutIsForm(v);
      if v >= 0x1_0000 {
        var w := Offset(v);
        assert s[0] == High(w) && s[1] == Low10(w);
      }
    } else if v < 0x1_0000 {
      assert s[0] == v;
    } else {
      assert Decode(s).Char? ==> Decode(s).val < 0x11_0000;
    }
  }

  function PutAll(vs: seq<Scalar>): seq<Unit> {
    if vs == [] then [] else Put(vs[0]) + PutAll(vs[1..])
  }

  datatype Text = Text(vals: seq<nat>) | NotText

  /** Reading until the units are used up. */
  function DecodeAll(s: seq<Unit>): Text
    decreases |s|
  {
    if s == [] then Text([])
    else match Decode(s)
      case Char(v, n) =>
        (match DecodeAll(s[n..])
         case Text(vs) => Text([v] + vs)
         case NotText => NotText)
      case _ => NotText
  }

  /** Any list of scalar values is read back from its units, with no error. */
  lemma {:induction false} RoundTripAll(vs: seq<Scalar>)
    ensures DecodeAll(PutAll(vs)) == Text(vs)
  {
    if vs != [] {
      var first, rest := Put(vs[0]), PutAll(vs[1..]);
      RoundTripIffScalar(vs[0], rest);
      assert (first + rest)[|first|..] == rest;
      RoundTripAll(vs[1..]);
    }
  }

  /** The form in numbers: a unit below the surrogates or above them, or a high and a low surrogate. */
  lemma FormTable(v: Scalar)
    ensures if v < 0x1_0000 then Form(v) == [v]
            else
              && |Form(v)| == 2
              && 0xD800 <= Form(v)[0] <= 0xDBFF && 0xDC00 <= Form(v)[1] <= 0xDFFF
              && v == 0x1_0000 + (Form(v)[0] as int - 0xD800) * 0x400 + (Form(v)[1] as int - 0xDC00)
  {
  }

  /** A value is read exactly from its form, whatever follows. */
  lemma DecodeIff(s: seq<Unit>, v: nat, n: nat)
    ensures Decode(s) == Char(v, n) <==> IsScalar(v) && Form(v) <= s && n == |Form(v)|
  {
    if Decode(s) == Char(v, n) {
      ReadIsForm(s);
    } else if IsScalar(v) && Form(v) <= s {
      assert s[..|Form(v)|] == Form(v);
      assert forall i | 0 <= i < |Form(v)| :: s[i] == Form(v)[i];
    }
  }

  /**
   Units that are not read can be completed exactly when they are reported as cut short,
   but for a low surrogate alone, after which the macro still wants another unit.
   */
  lemma ShortIff(s: seq<Unit>)
    requires !Decode(s).Char?
    ensures (exists rest :: Decode(s + rest).Char?) <==>
            Decode(s) == Short && !(|s| == 1 && 0xDC00 <= s[0] <= 0xDFFF)
  {
    if s == [] {
      assert Decode(s + [0]) == Char(0, 1);
    } else if |s| == 1 && IsHigh(s[0]) {
      assert Decode(s + [0xDC00]).Char?;
    } else {
      forall rest ensures !Decode(s + rest).Char? {
        assert (s + rest)[0] == s[0];
        assert |s| > 1 ==> (s + rest)[1] == s[1];
      }
    }
  }

  /** Whatever is read without error is a scalar value, and its form is what was read. */
  lemma ReadIsForm(s: seq<Unit>)
    requires Decode(s).Char?
    ensures IsScalar(Decode(s).val) && Form(Decode(s).val) == s[..Decode(s).used]
  {
  }
}
