/** The 7-bit big-endian variable-length integers of the T0 code block: the
    Python encoders that write them, the C parsers of the emitted virtual
    machine that read them, and the fixed-width C macros for expressions. */
module Base128 {

  type byte = x: int | 0 <= x < 256
  type uint32 = x: int | 0 <= x < 0x1_0000_0000
  type int32 = x: int | -0x8000_0000 <= x < 0x8000_0000

  /** The byte sink that the encoders append to. */
  class ByteWriter {
    var bytes: seq<byte>

    constructor ()
      ensures bytes == []
    {
      bytes := [];
    }

    method Append(x: byte)
      modifies this
      ensures bytes == old(bytes) + [x]
    {
      bytes := bytes + [x];
    }
  }

  // ----- 32-bit views of an integer -----

  /** An integer reduced modulo 2^32, as a C conversion to uint32_t does. */
  function U32(v: int): (r: uint32)
  {
    v % 0x1_0000_0000
  }

  /** Reinterpretation as a signed 32-bit integer. */
  function I32(v: int): (r: int32)
    ensures U32(r) == U32(v)
    ensures -0x8000_0000 <= v < 0x8000_0000 ==> r == v
  {
    var u := v % 0x1_0000_0000;
    if u >= 0x8000_0000 then u - 0x1_0000_0000 else u
  }

  // ----- specification of the encoding -----

  /** Arithmetic right shift by 7*n bits. */
  function Shr7(v: int, n: nat): int
  {
    if n == 0 then v else Shr7(v, n - 1) / 128
  }

  /** The n base-128 digits of v, most significant first, every digit but the
      last one carrying the continuation bit. */
  function Enc(v: int, n: nat): (s: seq<byte>)
    ensures |s| == n
  {
    seq(n, i requires 0 <= i < n => Shr7(v, n - 1 - i) % 128 + if i < n - 1 then 128 else 0)
  }

  /** Number of digits used for an unsigned value. */
  function ULen(v: int): (n: nat)
    ensures n >= 1
  {
    if v < 0x80 then 1 else 1 + ULen(v / 128)
  }

  /** Number of digits used for a signed value. */
  function SLen(v: int): (n: nat)
    ensures n >= 1
    decreases if v < 0 then -v else v
  {
    if -0x40 <= v < 0x40 then 1 else 1 + SLen(v / 128)
  }

  function EncU(v: int): (s: seq<byte>)
    ensures |s| == ULen(v)
  {
    Enc(v, ULen(v))
  }

  function EncS(v: int): (s: seq<byte>)
    ensures |s| == SLen(v)
  {
    Enc(v, SLen(v))
  }

  lemma {:induction false} Shr7Step(v: int, n: nat)
    ensures Shr7(v / 128, n) == Shr7(v, n + 1)
  {
    if n > 0 {
      Shr7Step(v, n - 1);
    }
  }

  /** One digit fewer drops the most significant digit. */
  lemma EncTail(v: int, n: nat)
    requires n >= 2
    ensures Enc(v, n)[1..] == Enc(v, n - 1)
    ensures Enc(v, n)[0] == 128 + Shr7(v, n - 1) % 128
  {
  }

  // ----- the encoders of codes.py -----

  method Encode7EUnsigned(val: int, bw: ByteWriter?) returns (length: nat)
    modifies bw
    ensures length == ULen(val)
    ensures bw != null ==> bw.bytes == old(bw.bytes) + EncU(val)
  {
    length := 1;
    var w := val;
    while w >= 0x80
      invariant length >= 1
      invariant length - 1 + ULen(w) == ULen(val)
    {
      length := length + 1;
      w := w / 128;
    }
    if bw != null {
      WriteDigits(val, length, bw);
    }
  }

  method Encode7ESigned(val: int, bw: ByteWriter?) returns (length: nat)
    modifies bw
    ensures length == SLen(val)
    ensures bw != null ==> bw.bytes == old(bw.bytes) + EncS(val)
  {
    length := 1;
    var w := val;
    if val < 0 {
      while w < -0x40
        invariant length >= 1 && w < 0
        invariant length - 1 + SLen(w) == SLen(val)
        decreases -w
      {
        length := length + 1;
        w := w / 128;
      }
    } else {
      while w >= 0x40
        invariant length >= 1 && w >= 0
        invariant length - 1 + SLen(w) == SLen(val)
        decreases w
      {
        length := length + 1;
        w := w / 128;
      }
    }
    if bw != null {
      WriteDigits(val, length, bw);
    }
  }

  /** The loop both encoders share: the digit at shift 7*j, with the
      continuation bit on every digit but the last. */
  method WriteDigits(val: int, length: nat, bw: ByteWriter)
    requires length >= 1
    modifies bw
    ensures bw.bytes == old(bw.bytes) + Enc(val, length)
  {
    var j := length - 1;
    while j >= 0
      invariant -1 <= j < length
      invariant bw.bytes == old(bw.bytes) + Enc(val, length)[..length - 1 - j]
    {
      var x := Shr7(val, j) % 128;
      if j > 0 {
        x := x + 0x80;
      }
      assert x == Enc(val, length)[length - 1 - j];
      bw.Append(x);
      j := j - 1;
    }
    assert Enc(val, length)[..length] == Enc(val, length);
  }

  method EncodeOneByte(val: int, bw: ByteWriter) returns (ok: bool, length: nat)
    modifies bw
    ensures ok <==> val <= 255
    ensures ok ==> length == 1 && bw.bytes == old(bw.bytes) + [val % 256]
    ensures !ok ==> bw.bytes == old(bw.bytes)
  {
    if val > 255 {
      return false, 0;
    }
    bw.Append(val % 256);
    return true, 1;
  }

  // ----- the parsers of the emitted virtual machine -----

  /** Outcome of reading a number: its value and the next position, or a read
      past the end of the code block. */
  datatype Parsed = Parsed(value: int, next: nat) | Overrun

  /** Specification of the parsing loop, started with accumulator x. */
  function ParseFrom(b: seq<byte>, p: nat, x: uint32): (r: Parsed)
    ensures r.Parsed? ==> p < r.next <= |b| && 0 <= r.value < 0x1_0000_0000
    decreases |b| - p
  {
    if p >= |b| then Overrun
    else
      var x' := U32(x * 128 + b[p] % 128);
      if b[p] < 0x80 then Parsed(x', p + 1) else ParseFrom(b, p + 1, x')
  }

  function ParseU(b: seq<byte>, p: nat): (r: Parsed)
    ensures r.Parsed? ==> p < r.next <= |b| && 0 <= r.value < 0x1_0000_0000
  {
    ParseFrom(b, p, 0)
  }

  /** Bit 6 of the first byte, the sign. */
  predicate SignBit(y: byte)
  {
    (y / 64) % 2 == 1
  }

  /** The final conversion: for a negative number the complement of the
      accumulator is converted and then complemented back. */
  function Signed(neg: bool, x: uint32): (v: int)
    ensures v == I32(x)
  {
    if neg then
      var c: int := I32(0xFFFF_FFFF - x);
      -c - 1
    else
      I32(x)
  }

  function ParseS(b: seq<byte>, p: nat): (r: Parsed)
    ensures r.Parsed? ==> p < r.next <= |b|
  {
    if p >= |b| then Overrun
    else
      var neg := SignBit(b[p]);
      match ParseFrom(b, p, if neg then 0xFFFF_FFFF else 0)
      case Overrun => Overrun
      case Parsed(x, q) => Parsed(Signed(neg, x), q)
  }

  method Parse7EUnsigned(b: seq<byte>, p: nat) returns (r: Parsed)
    ensures r == ParseU(b, p)
  {
    var x: uint32 := 0;
    var q := p;
    while q < |b|
      invariant ParseFrom(b, p, 0) == ParseFrom(b, q, x)
    {
      var y := b[q];
      q := q + 1;
      x := U32(x * 128 + y % 128);
      if y < 0x80 {
        return Parsed(x, q);
      }
    }
    return Overrun;
  }

  method Parse7ESigned(b: seq<byte>, p: nat) returns (r: Parsed)
    ensures r == ParseS(b, p)
  {
    if p >= |b| {
      return Overrun;
    }
    var neg := SignBit(b[p]);
    var x: uint32 := if neg then 0xFFFF_FFFF else 0;
    var q := p;
    ghost var x0 := x;
    while q < |b|
      invariant ParseFrom(b, p, x0) == ParseFrom(b, q, x)
    {
      var y := b[q];
      q := q + 1;
      x := U32(x * 128 + y % 128);
      if y < 0x80 {
        return Parsed(Signed(neg, x), q);
      }
    }
    return Overrun;
  }

  // ----- reading back what was written -----

  /** The digits enc stand in b at position p. */
  predicate At(b: seq<byte>, p: nat, enc: seq<byte>)
  {
    p + |enc| <= |b| && b[p..p + |enc|] == enc
  }

  lemma AccumulatorStep(y: int)
    ensures U32(U32(y / 128) * 128 + y % 128) == U32(y)
  {
    var h := y / 128;
    var k := h / 0x1_0000_0000;
    assert U32(h) == h - 0x1_0000_0000 * k;
    assert U32(h) * 128 + y % 128 == y - 0x1_0000_0000 * (128 * k);
    ModShift(y, -128 * k);
  }

  lemma ModShift(y: int, k: int)
    ensures U32(y + 0x1_0000_0000 * k) == U32(y)
  {
  }

  /** n digits of v, read after an accumulator holding the bits of v above
      them, give v. */
  lemma {:induction false} ParseDigits(b: seq<byte>, p: nat, v: int, n: nat, x: uint32)
    requires n >= 1 && At(b, p, Enc(v, n))
    requires x == U32(Shr7(v, n))
    ensures ParseFrom(b, p, x) == Parsed(U32(v), p + n)
    decreases n
  {
    hide U32;
    assert b[p] == b[p..p + n][0] == Enc(v, n)[0];
    var y := Shr7(v, n - 1);
    assert y / 128 == Shr7(v, n);
    AccumulatorStep(y);
    if n > 1 {
      EncTail(v, n);
      assert b[p + 1..p + n] == b[p..p + n][1..];
      ParseDigits(b, p + 1, v, n - 1, U32(y));
    }
  }

  lemma {:induction false} UnsignedTop(v: int)
    requires v >= 0
    ensures Shr7(v, ULen(v)) == 0
    decreases v
  {
    if v >= 0x80 {
      UnsignedTop(v / 128);
      Shr7Step(v, ULen(v / 128));
    } else {
      assert Shr7(v, 1) == Shr7(v, 0) / 128;
    }
  }

  lemma {:induction false} SignedTop(v: int)
    ensures -0x40 <= Shr7(v, SLen(v) - 1) < 0x40
    ensures Shr7(v, SLen(v) - 1) < 0 <==> v < 0
    ensures Shr7(v, SLen(v)) == if v < 0 then -1 else 0
    decreases if v < 0 then -v else v
  {
    if !(-0x40 <= v < 0x40) {
      SignedTop(v / 128);
      Shr7Step(v, SLen(v / 128));
      Shr7Step(v, SLen(v / 128) - 1);
    } else {
      assert Shr7(v, 1) == Shr7(v, 0) / 128;
    }
  }

  /** Round trip, unsigned: whatever follows, the parser returns the value and
      stops right after its digits. */
  lemma UnsignedRoundTrip(b: seq<byte>, p: nat, v: uint32)
    requires At(b, p, EncU(v))
    ensures ParseU(b, p) == Parsed(v, p + ULen(v))
  {
    UnsignedTop(v);
    ParseDigits(b, p, v, ULen(v), 0);
  }

  /** Reading a signed number of n digits, minimal or not. */
  lemma SignedDigits(b: seq<byte>, p: nat, v: int32, n: nat)
    requires n >= 1 && At(b, p, Enc(v, n))
    requires -0x40 <= Shr7(v, n - 1) < 0x40
    ensures ParseS(b, p) == Parsed(v, p + n)
  {
    hide ParseFrom, SignBit, Signed;
    var y := Shr7(v, n - 1);
    assert b[p] == b[p..p + n][0] == Enc(v, n)[0] == y % 128 + if n > 1 then 128 else 0;
    Shr7Sign(v, n - 1);
    SignOfDigit(y, n > 1);
    assert Shr7(v, n) == y / 128;
    ParseDigits(b, p, v, n, if v < 0 then 0xFFFF_FFFF else 0);
    SignedOfU32(v);
  }

  /** The sign bit of a top digit that is in range. */
  lemma SignOfDigit(y: int, more: bool)
    requires -0x40 <= y < 0x40
    ensures SignBit(y % 128 + if more then 128 else 0) <==> y < 0
    ensures y / 128 == if y < 0 then -1 else 0
  {
  }

  lemma SignedOfU32(v: int32)
    ensures Signed(v < 0, U32(v)) == v
  {
  }

  lemma {:induction false} Shr7Sign(v: int, n: nat)
    ensures Shr7(v, n) < 0 <==> v < 0
  {
    if n > 0 {
      Shr7Sign(v, n - 1);
    }
  }

  /** Round trip, signed. */
  lemma SignedRoundTrip(b: seq<byte>, p: nat, v: int32)
    requires At(b, p, EncS(v))
    ensures ParseS(b, p) == Parsed(v, p + SLen(v))
  {
    SignedTop(v);
    SignedDigits(b, p, v, SLen(v));
  }

  // ----- the encodings are the shortest ones -----

  lemma {:induction false} ULenMonotone(a: int, b: int)
    requires a <= b
    ensures ULen(a) <= ULen(b)
    decreases b
  {
    if a >= 0x80 {
      ULenMonotone(a / 128, b / 128);
    }
  }

  lemma {:induction false} ParseFromMinimal(b: seq<byte>, p: nat, x: uint32)
    requires ParseFrom(b, p, x).Parsed?
    ensures var r := ParseFrom(b, p, x);
            ULen(r.value) <= (if x == 0 then 0 else ULen(x)) + (r.next - p)
    decreases |b| - p
  {
    var y := x * 128 + b[p] % 128;
    assert ULen(y) <= (if x == 0 then 0 else ULen(x)) + 1 by {
      if y >= 0x80 { assert y / 128 == x; }
    }
    ULenMonotone(U32(y), y);
    if b[p] >= 0x80 {
      ParseFromMinimal(b, p + 1, U32(y));
    }
  }

  /** No byte string that parses to v is shorter than the encoder's. */
  lemma UnsignedMinimal(b: seq<byte>, p: nat)
    requires ParseU(b, p).Parsed?
    ensures ULen(ParseU(b, p).value) <= ParseU(b, p).next - p
  {
    ParseFromMinimal(b, p, 0);
  }

  lemma {:induction false} SLenMonotone(a: int, b: int)
    requires 0 <= a <= b || b <= a < 0
    ensures SLen(a) <= SLen(b)
    decreases if b < 0 then -b else b
  {
    if !(-0x40 <= a < 0x40) {
      SLenMonotone(a / 128, b / 128);
    }
  }

  lemma SLenOfInt32(a: int32, y: int)
    requires y != a && a == I32(y)
    ensures SLen(a) <= 5 <= SLen(y)
  {
    if y >= 0 {
      assert SLen(0x8000_0000) == 5;
      SLenMonotone(0x8000_0000, y);
    } else {
      assert SLen(-0x8000_0001) == 5;
      SLenMonotone(-0x8000_0001, y);
    }
    if a >= 0 {
      assert SLen(0x7FFF_FFFF) == 5;
      SLenMonotone(a, 0x7FFF_FFFF);
    } else {
      assert SLen(-0x8000_0000) == 5;
      SLenMonotone(a, -0x8000_0000);
    }
  }

  /** Appending one digit to a signed value lengthens it by at most one, and
      the first digit of a number costs nothing beyond itself. */
  function StartLen(a: int, d: int): nat
  {
    if (a == 0 && d < 64) || (a == -1 && d >= 64) then 0 else SLen(a)
  }

  lemma AppendDigit(x: uint32, d: int)
    requires 0 <= d < 128
    ensures SLen(I32(U32(x * 128 + d))) <= StartLen(I32(x), d) + 1
  {
    var a: int := I32(x);
    var y := a * 128 + d;
    assert x == a || x == a + 0x1_0000_0000;
    assert U32(x * 128 + d) == U32(y) by {
      ModShift(y, 128);
    }
    assert SLen(y) <= StartLen(a, d) + 1 by { assert y / 128 == a; }
    assert I32(U32(x * 128 + d)) == I32(y);
    if I32(y) != y {
      SLenOfInt32(I32(y), y);
    }
  }

  lemma {:induction false} ParseSignedMinimal(b: seq<byte>, p: nat, x: uint32)
    requires p < |b| && ParseFrom(b, p, x).Parsed?
    ensures var r := ParseFrom(b, p, x);
            SLen(I32(r.value)) <= StartLen(I32(x), b[p] % 128) + (r.next - p)
    decreases |b| - p
  {
    AppendDigit(x, b[p] % 128);
    if b[p] >= 0x80 {
      ParseSignedMinimal(b, p + 1, U32(x * 128 + b[p] % 128));
    }
  }

  lemma SignedMinimal(b: seq<byte>, p: nat)
    requires ParseS(b, p).Parsed?
    ensures SLen(ParseS(b, p).value) <= ParseS(b, p).next - p
  {
    hide ParseFrom, SignBit, SLen, Signed, I32;
    StartIsFree(b[p]);
    ParseSignedMinimal(b, p, if SignBit(b[p]) then 0xFFFF_FFFF else 0);
  }

  lemma StartIsFree(y: byte)
    ensures StartLen(I32(if SignBit(y) then 0xFFFF_FFFF else 0), y % 128) == 0
  {
    assert I32(0xFFFF_FFFF) == -1 && I32(0) == 0;
    assert y / 64 == 2 * (y / 128) + (y % 128) / 64;
  }
}
