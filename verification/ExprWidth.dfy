/** Constants given as C expressions: the compiler only knows a range for the
    value, picks a byte width from it, and emits a T0_INTn macro whose bytes the
    C compiler computes. */
module ExprWidth {
  import opened Base128

  function Pow2(n: nat): (p: int)
    ensures p >= 1
  {
    if n == 0 then 1 else 2 * Pow2(n - 1)
  }

  function Max(a: int, b: int): int { if a < b then b else a }

  function Min(a: int, b: int): int { if a < b then a else b }

  /** Bits of the shortest signed representation, sign bit included. */
  function BitLen(v: int): (n: nat)
    ensures n >= 1
    decreases if v < 0 then -v else v
  {
    if v == 0 || v == -1 then 1 else 1 + BitLen(v / 2)
  }

  method BitLength(val: int) returns (num: nat)
    ensures num == BitLen(val)
  {
    num := 1;
    var v := val;
    if v < 0 {
      while v != -1
        invariant v < 0 && num - 1 + BitLen(v) == BitLen(val)
        decreases -v
      {
        num := num + 1;
        v := v / 2;
      }
    } else {
      while v != 0
        invariant v >= 0 && num - 1 + BitLen(v) == BitLen(val)
        decreases v
      {
        num := num + 1;
        v := v / 2;
      }
    }
  }

  lemma {:induction false} BitLenFits(v: int, n: nat)
    requires n >= 1
    ensures BitLen(v) <= n <==> -Pow2(n - 1) <= v < Pow2(n - 1)
    decreases n
  {
    if v != 0 && v != -1 && n > 1 {
      BitLenFits(v / 2, n - 1);
    }
  }

  /** TPointerExpr: a C expression known to lie in lo..hi. */
  datatype Expr = Expr(lo: int, hi: int)
  {
    function MaxBitLength(off: int): (n: nat)
      ensures 1 <= n <= 32
    {
      var rmin := lo + off;
      var rmax := hi + off;
      var n1 := if rmin < 0 then Max(1, BitLen(rmin)) else 1;
      var n2 := if rmax > 0 then Max(n1, BitLen(rmax)) else n1;
      Min(n2, 32)
    }

    /** The n of the T0_INTn macro that the code element emits. */
    function Width(off: int): (n: nat)
      ensures 1 <= n <= 5
    {
      (MaxBitLength(off) + 6) / 7
    }
  }

  lemma {:induction false} BitLenMonotone(a: int, b: int)
    requires 0 <= a <= b || b <= a < 0
    ensures BitLen(a) <= BitLen(b)
    decreases if b < 0 then -b else b
  {
    if a != 0 && a != -1 {
      BitLenMonotone(a / 2, b / 2);
    }
  }

  lemma Pow2Of31()
    ensures Pow2(31) == 0x8000_0000
  {
    assert Pow2(10) == 0x400 && Pow2(20) == 0x10_0000 && Pow2(30) == 0x4000_0000;
    assert Pow2(31) == 2 * Pow2(30);
  }

  lemma BitLenOfInt32(v: int32)
    ensures BitLen(v) <= 32 && BitLen(0) == 1
  {
    Pow2Of31();
    BitLenFits(v, 32);
  }

  /** Every value of the range fits the computed bit length. */
  lemma BitLengthCoversRange(e: Expr, off: int, v: int32)
    requires e.lo + off <= v <= e.hi + off
    ensures BitLen(v) <= e.MaxBitLength(off)
  {
    hide BitLen, Pow2;
    BitLenOfInt32(v);
    if v < 0 {
      BitLenMonotone(v, e.lo + off);
    } else if v > 0 {
      BitLenMonotone(v, e.hi + off);
    }
  }

  predicate Fits(e: Expr, off: int, n: nat)
    requires n >= 1
  {
    -Pow2(n - 1) <= e.lo + off <= e.hi + off < Pow2(n - 1)
  }

  /** The length is exactly the least number of bits that hold both bounds,
      cut at 32. */
  lemma LeastLength(e: Expr, off: int, n: nat)
    requires n >= 1 && e.lo <= e.hi
    ensures e.MaxBitLength(off) <= n <==> n >= 32 || Fits(e, off, n)
  {
    hide BitLen, Pow2;
    BitLenFits(e.lo + off, n);
    BitLenFits(e.hi + off, n);
    assert Pow2(n - 1) >= 1;
  }

  /** The macro is the shortest: fewer than five bytes exactly for ranges of
      28 bits, and n bytes only if n - 1 would not do. */
  lemma LeastWidth(e: Expr, off: int, n: nat)
    requires n >= 1 && e.lo <= e.hi
    ensures e.Width(off) <= n <==> n >= 5 || Fits(e, off, 7 * n)
  {
    hide BitLen, Pow2, Expr.MaxBitLength;
    LeastLength(e, off, 7 * n);
  }

  // ----- the macros -----

  function VByte(x: uint32, i: nat): byte { Shr7(x, i) % 128 + 128 }

  function FByte(x: uint32, i: nat): byte { Shr7(x, i) % 128 }

  /** (unsigned char)(((x >> 28) + 0xF8) ^ 0xF8), on 32-bit unsigned values. */
  function SByte(x: uint32): byte
  {
    var t := x / 0x1000_0000;
    var sum: bv9 := t as bv9 + 0xF8;
    (sum ^ 0xF8) as int % 256
  }

  function T0Int(x: uint32, n: nat): (s: seq<byte>)
    requires 1 <= n <= 5
    ensures |s| == n
  {
    match n
    case 1 => [FByte(x, 0)]
    case 2 => [VByte(x, 1), FByte(x, 0)]
    case 3 => [VByte(x, 2), VByte(x, 1), FByte(x, 0)]
    case 4 => [VByte(x, 3), VByte(x, 2), VByte(x, 1), FByte(x, 0)]
    case 5 => [SByte(x), VByte(x, 3), VByte(x, 2), VByte(x, 1), FByte(x, 0)]
  }

  lemma Shr7Unrolled(v: int)
    ensures Shr7(v, 0) == v && Shr7(v, 1) == v / 128
    ensures Shr7(v, 2) == v / 128 / 128 && Shr7(v, 3) == v / 128 / 128 / 128
    ensures Shr7(v, 4) == v / 128 / 128 / 128 / 128
  {
    assert Shr7(v, 1) == Shr7(v, 0) / 128;
    assert Shr7(v, 2) == Shr7(v, 1) / 128;
    assert Shr7(v, 3) == Shr7(v, 2) / 128;
    assert Shr7(v, 4) == Shr7(v, 3) / 128;
  }

  /** The low four digits do not see the conversion to uint32_t. */
  lemma DigitsOfU32(v: int32, i: nat)
    requires i <= 3
    ensures Shr7(U32(v), i) % 128 == Shr7(v, i) % 128
  {
    Shr7Unrolled(v);
    Shr7Unrolled(U32(v));
    if v < 0 {
      var x: int := v + 0x1_0000_0000;
      assert U32(v) == x;
      assert x / 128 == v / 128 + 0x200_0000;
      assert x / 128 / 128 == v / 128 / 128 + 0x4_0000;
      assert x / 128 / 128 / 128 == v / 128 / 128 / 128 + 0x800;
    } else {
      assert U32(v) == v;
    }
  }

  lemma MacroIsEncoding(v: int32, n: nat)
    requires 1 <= n <= 4
    ensures T0Int(U32(v), n) == Enc(v, n)
  {
    hide Shr7, U32, Pow2, BitLen;
    forall i | 0 <= i < n
      ensures T0Int(U32(v), n)[i] == Enc(v, n)[i]
    {
      DigitsOfU32(v, n - 1 - i);
    }
  }

  lemma TopDigit(v: int, n: nat)
    requires 1 <= n <= 4 && BitLen(v) <= 7 * n
    ensures -0x40 <= Shr7(v, n - 1) < 0x40
  {
    BitLenFits(v, 7 * n);
    Shr7Unrolled(v);
    assert Pow2(6) == 0x40;
    assert Pow2(13) == 0x2000;
    assert Pow2(20) == 0x10_0000;
    assert Pow2(27) == 0x800_0000;
  }

  /** Wherever the macro T0_INT1..T0_INT4 is emitted, the machine reads back
      the value that the expression turned out to have. */
  lemma MacroRoundTrip(b: seq<byte>, p: nat, e: Expr, off: int, v: int32)
    requires e.lo + off <= v <= e.hi + off
    requires e.Width(off) <= 4
    requires At(b, p, T0Int(U32(v), e.Width(off)))
    ensures ParseS(b, p) == Parsed(v, p + e.Width(off))
  {
    var n := e.Width(off);
    BitLengthCoversRange(e, off, v);
    TopDigit(v, n);
    MacroIsEncoding(v, n);
    SignedDigits(b, p, v, n);
  }

  /** So whatever lies in a range of 28 bits comes back. */
  lemma NarrowRoundTrip(b: seq<byte>, p: nat, e: Expr, off: int, v: int32)
    requires e.lo + off <= v <= e.hi + off && Fits(e, off, 28)
    requires At(b, p, T0Int(U32(v), e.Width(off)))
    ensures ParseS(b, p) == Parsed(v, p + e.Width(off))
  {
    hide BitLen, Expr.MaxBitLength, T0Int, ParseS;
    LeastWidth(e, off, 4);
    MacroRoundTrip(b, p, e, off, v);
  }

  // ----- the five-byte macro -----

  lemma SByteValue(x: uint32)
    ensures var t := x / 0x1000_0000;
            SByte(x) == if t < 8 then t else 240 + t
  {
    var t := x / 0x1000_0000;
    assert 0 <= t < 16;
    if
    case t == 0 => assert ((0 as bv9 + 0xF8) ^ 0xF8) as int == 0;
    case t == 1 => assert ((1 as bv9 + 0xF8) ^ 0xF8) as int == 1;
    case t == 2 => assert ((2 as bv9 + 0xF8) ^ 0xF8) as int == 2;
    case t == 3 => assert ((3 as bv9 + 0xF8) ^ 0xF8) as int == 3;
    case t == 4 => assert ((4 as bv9 + 0xF8) ^ 0xF8) as int == 4;
    case t == 5 => assert ((5 as bv9 + 0xF8) ^ 0xF8) as int == 5;
    case t == 6 => assert ((6 as bv9 + 0xF8) ^ 0xF8) as int == 6;
    case t == 7 => assert ((7 as bv9 + 0xF8) ^ 0xF8) as int == 7;
    case t == 8 => assert ((8 as bv9 + 0xF8) ^ 0xF8) as int == 504;
    case t == 9 => assert ((9 as bv9 + 0xF8) ^ 0xF8) as int == 505;
    case t == 10 => assert ((10 as bv9 + 0xF8) ^ 0xF8) as int == 506;
    case t == 11 => assert ((11 as bv9 + 0xF8) ^ 0xF8) as int == 507;
    case t == 12 => assert ((12 as bv9 + 0xF8) ^ 0xF8) as int == 508;
    case t == 13 => assert ((13 as bv9 + 0xF8) ^ 0xF8) as int == 509;
    case t == 14 => assert ((14 as bv9 + 0xF8) ^ 0xF8) as int == 510;
    case t == 15 => assert ((15 as bv9 + 0xF8) ^ 0xF8) as int == 511;
  }

  /** The byte that carries the top four bits. */
  lemma TopBits(v: int32)
    requires v < 0
    ensures -0x40 <= Shr7(v, 4) < 0x40
    ensures SByte(U32(v)) == Shr7(v, 4) % 128 + 128
  {
    hide SByte;
    var x: int := U32(v);
    assert x == v + 0x1_0000_0000;
    SByteValue(x);
    Shr7Unrolled(v);
    assert Shr7(v, 4) == v / 0x1000_0000;
    assert Shr7(v, 4) == x / 0x1000_0000 - 16;
  }

  lemma FiveBytesOfNegative(v: int32)
    requires v < 0
    ensures T0Int(U32(v), 5) == Enc(v, 5)
    ensures -0x40 <= Shr7(v, 4) < 0x40
  {
    hide SByte, Shr7;
    var x: int := U32(v);
    TopBits(v);
    assert T0Int(x, 5)[0] == Enc(v, 5)[0];
    forall i | 0 <= i < 5
      ensures T0Int(x, 5)[i] == Enc(v, 5)[i]
    {
      if i > 0 {
        DigitsOfU32(v, 4 - i);
      }
    }
  }

  /** The top digit of T0_INT5 lacks its continuation bit unless the value is
      negative: the macro round-trips exactly for negative values. */
  lemma FiveByteMacro(b: seq<byte>, p: nat, v: int32)
    requires At(b, p, T0Int(U32(v), 5))
    ensures ParseS(b, p) == Parsed(v, p + 5) <==> v < 0
  {
    if v < 0 {
      FiveBytesOfNegative(v);
      SignedDigits(b, p, v, 5);
    } else {
      SByteValue(U32(v));
      assert b[p] == b[p..p + 5][0] < 8;
    }
  }
}
