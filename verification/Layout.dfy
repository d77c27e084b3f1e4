/** Code elements, their lengths and addresses, and the fixed point that the
    address stabilisation of T0Comp.generate computes: pure specification. */
module Layout {
  import opened Base128
  import opened Wrappers

  /** A code element; the jump target is the index of another element. */
  datatype Element =
    | UInt(val: int)
    | UIntInt(val1: int, val2: int)
    | UIntUInt(val1: int, uval2: int)
    | JumpTo(jumpType: int, target: nat)

  type Code = seq<Element>

  predicate TargetsInRange(code: Code)
  {
    forall i | 0 <= i < |code| && code[i].JumpTo? :: code[i].target < |code|
  }

  /** Length of an opcode number. */
  function HeadLen(oneByte: bool, val: int): (n: nat)
    ensures n >= 1
  {
    if oneByte then 1 else ULen(val)
  }

  /** get_length, given the jump offset when it is known. */
  function Len(oneByte: bool, e: Element, joff: Option<int>): (n: nat)
    ensures n >= 1
  {
    match e
    case UInt(v) => HeadLen(oneByte, v)
    case UIntInt(v1, v2) => HeadLen(oneByte, v1) + SLen(v2)
    case UIntUInt(v1, v2) => HeadLen(oneByte, v1) + ULen(v2)
    case JumpTo(t, _) => HeadLen(oneByte, t) + if joff.None? then 1 else SLen(joff.value)
  }

  /** Sum of the first i lengths: the address of element i. */
  function Addr(lens: seq<nat>, i: nat): nat
    requires i <= |lens|
  {
    if i == 0 then 0 else Addr(lens, i - 1) + lens[i - 1]
  }

  function Total(lens: seq<nat>): nat { Addr(lens, |lens|) }

  /** Distance from the end of element i to the start of element t. */
  function Offset(lens: seq<nat>, i: nat, t: nat): int
    requires i < |lens| && t < |lens|
  {
    Addr(lens, t) - (Addr(lens, i) + lens[i])
  }

  function OffsetOf(code: Code, lens: seq<nat>, i: nat): Option<int>
    requires |lens| == |code| && TargetsInRange(code) && i < |code|
  {
    if code[i].JumpTo? then Some(Offset(lens, i, code[i].target)) else None
  }

  /** The first pass, with no address known. */
  function FirstLens(oneByte: bool, code: Code): (r: seq<nat>)
    ensures |r| == |code|
  {
    seq(|code|, i requires 0 <= i < |code| => Len(oneByte, code[i], None))
  }

  /** A later pass: the lengths that the offsets of a layout call for. */
  function NextLens(oneByte: bool, code: Code, lens: seq<nat>): (r: seq<nat>)
    requires |lens| == |code| && TargetsInRange(code)
    ensures |r| == |code|
  {
    seq(|code|, i requires 0 <= i < |code| => Len(oneByte, code[i], OffsetOf(code, lens, i)))
  }

  /** Every element has exactly the length that its own offset needs. */
  predicate Consistent(oneByte: bool, code: Code, lens: seq<nat>)
    requires TargetsInRange(code)
  {
    |lens| == |code| && NextLens(oneByte, code, lens) == lens
  }

  predicate Below(a: seq<nat>, b: seq<nat>)
  {
    |a| == |b| && forall i | 0 <= i < |a| :: a[i] <= b[i]
  }

  // ----- sums -----

  lemma {:induction false} AddrDiff(a: seq<nat>, b: seq<nat>, i: nat, j: nat)
    requires Below(a, b) && i <= j <= |a|
    ensures 0 <= Addr(a, j) - Addr(a, i) <= Addr(b, j) - Addr(b, i)
    decreases j
  {
    if i < j {
      AddrDiff(a, b, i, j - 1);
    }
  }

  /** The heart of the argument: longer elements never shorten a jump. A
      forward jump spans whole elements; a backward one spans its own bytes
      too, and its offset only becomes more negative. */
  lemma OffsetGrows(a: seq<nat>, b: seq<nat>, i: nat, t: nat)
    requires Below(a, b) && i < |a| && t < |a|
    ensures SLen(Offset(a, i, t)) <= SLen(Offset(b, i, t))
  {
    assert Addr(a, i + 1) == Addr(a, i) + a[i];
    assert Addr(b, i + 1) == Addr(b, i) + b[i];
    if i < t {
      AddrDiff(a, b, i + 1, t);
      SLenMonotone(Offset(a, i, t), Offset(b, i, t));
    } else {
      AddrDiff(a, b, t, i + 1);
      if Offset(a, i, t) < 0 {
        SLenMonotone(Offset(a, i, t), Offset(b, i, t));
      }
    }
  }

  lemma NextMonotone(oneByte: bool, code: Code, a: seq<nat>, b: seq<nat>)
    requires TargetsInRange(code) && |a| == |code| && Below(a, b)
    ensures Below(NextLens(oneByte, code, a), NextLens(oneByte, code, b))
  {
    forall i | 0 <= i < |code|
      ensures NextLens(oneByte, code, a)[i] <= NextLens(oneByte, code, b)[i]
    {
      if code[i].JumpTo? {
        OffsetGrows(a, b, i, code[i].target);
      }
    }
  }

  lemma FirstIsLeast(oneByte: bool, code: Code, lens: seq<nat>)
    requires TargetsInRange(code) && |lens| == |code|
    ensures Below(FirstLens(oneByte, code), NextLens(oneByte, code, lens))
  {
  }

  /** Comparing totals is enough: a pass that grows pointwise and keeps the
      total has changed nothing. */
  lemma {:induction false} SameTotal(a: seq<nat>, b: seq<nat>)
    requires Below(a, b) && Total(a) == Total(b)
    ensures a == b
  {
    forall i | 0 <= i < |a|
      ensures a[i] == b[i]
    {
      AddrDiff(a, b, 0, i);
      AddrDiff(a, b, i + 1, |a|);
    }
  }

  // ----- the lengths are bounded, so the passes come to an end -----

  /** Bytes of an element apart from a jump offset. */
  function BaseLen(oneByte: bool, e: Element): nat
  {
    if e.JumpTo? then HeadLen(oneByte, e.jumpType) else Len(oneByte, e, None)
  }

  function BaseTotal(oneByte: bool, code: Code): nat
  {
    if code == [] then 0 else BaseTotal(oneByte, code[..|code| - 1]) + BaseLen(oneByte, code[|code| - 1])
  }

  /** No layout reached from the first pass uses a jump offset of more than
      Cap bytes. */
  function Cap(oneByte: bool, code: Code): nat
  {
    BaseTotal(oneByte, code) + |code| + 2
  }

  predicate Capped(oneByte: bool, code: Code, lens: seq<nat>)
  {
    |lens| == |code| && forall i | 0 <= i < |code| :: lens[i] <= BaseLen(oneByte, code[i]) + Cap(oneByte, code)
  }

  function TotalCap(oneByte: bool, code: Code): nat
  {
    BaseTotal(oneByte, code) + |code| * Cap(oneByte, code)
  }

  lemma {:induction false} SumBound(oneByte: bool, code: Code, lens: seq<nat>, cap: nat)
    requires |lens| == |code|
    requires forall i | 0 <= i < |code| :: lens[i] <= BaseLen(oneByte, code[i]) + cap
    ensures Total(lens) <= BaseTotal(oneByte, code) + |code| * cap
  {
    if code != [] {
      var n := |code| - 1;
      SumBound(oneByte, code[..n], lens[..n], cap);
      AddrPrefix(lens, lens[..n], n);
      assert |code| * cap == n * cap + cap;
    }
  }

  lemma {:induction false} AddrPrefix(a: seq<nat>, b: seq<nat>, i: nat)
    requires i <= |a| && i <= |b| && forall k | 0 <= k < i :: a[k] == b[k]
    ensures Addr(a, i) == Addr(b, i)
    decreases i
  {
    if i > 0 {
      AddrPrefix(a, b, i - 1);
    }
  }

  lemma {:induction false} SLenSmall(v: int, n: nat)
    requires n >= 2
    requires v <= n * n && -v <= n * n
    ensures SLen(v) <= n
    decreases n
  {
    if n == 2 {
    } else if !(-0x40 <= v < 0x40) {
      var m := n - 1;
      assert n * n == m * m + 2 * m + 1 <= 4 * (m * m);
      assert v / 128 <= m * m && -(v / 128) <= m * m;
      SLenSmall(v / 128, m);
    }
  }

  lemma OffsetInTotal(lens: seq<nat>, i: nat, t: nat)
    requires i < |lens| && t < |lens|
    ensures Offset(lens, i, t) <= Total(lens) && -Offset(lens, i, t) <= Total(lens)
  {
    assert Addr(lens, i + 1) == Addr(lens, i) + lens[i];
    AddrDiff(lens, lens, i + 1, |lens|);
    AddrDiff(lens, lens, t, |lens|);
  }

  lemma CapSquare(b: nat, n: nat)
    ensures b + n * (b + n + 2) <= (b + n + 2) * (b + n + 2)
  {
    var c := b + n + 2;
    assert c * c == b * c + n * c + 2 * c;
    assert b * c >= 0;
  }

  lemma NextCapped(oneByte: bool, code: Code, lens: seq<nat>)
    requires TargetsInRange(code) && Capped(oneByte, code, lens)
    ensures Capped(oneByte, code, NextLens(oneByte, code, lens))
  {
    var c := Cap(oneByte, code);
    SumBound(oneByte, code, lens, c);
    CapSquare(BaseTotal(oneByte, code), |code|);
    forall i | 0 <= i < |code|
      ensures NextLens(oneByte, code, lens)[i] <= BaseLen(oneByte, code[i]) + c
    {
      if code[i].JumpTo? {
        OffsetInTotal(lens, i, code[i].target);
        SLenSmall(Offset(lens, i, code[i].target), c);
      }
    }
  }

  // ----- the least consistent layout -----

  /** The lengths after n passes. */
  function Pass(oneByte: bool, code: Code, n: nat): (r: seq<nat>)
    requires TargetsInRange(code)
    ensures |r| == |code|
  {
    if n == 0 then FirstLens(oneByte, code) else NextLens(oneByte, code, Pass(oneByte, code, n - 1))
  }

  lemma {:induction false} PassGrows(oneByte: bool, code: Code, n: nat)
    requires TargetsInRange(code)
    ensures Below(Pass(oneByte, code, n), Pass(oneByte, code, n + 1))
    ensures Capped(oneByte, code, Pass(oneByte, code, n))
    ensures Total(Pass(oneByte, code, n)) <= TotalCap(oneByte, code)
  {
    if n == 0 {
      FirstIsLeast(oneByte, code, Pass(oneByte, code, 0));
    } else {
      PassGrows(oneByte, code, n - 1);
      NextMonotone(oneByte, code, Pass(oneByte, code, n - 1), Pass(oneByte, code, n));
      NextCapped(oneByte, code, Pass(oneByte, code, n - 1));
    }
    SumBound(oneByte, code, Pass(oneByte, code, n), Cap(oneByte, code));
  }

  /** Every pass stays below every consistent layout. */
  lemma {:induction false} PassBelowConsistent(oneByte: bool, code: Code, n: nat, lens: seq<nat>)
    requires TargetsInRange(code) && Consistent(oneByte, code, lens)
    ensures Below(Pass(oneByte, code, n), lens)
  {
    if n == 0 {
      FirstIsLeast(oneByte, code, lens);
    } else {
      PassBelowConsistent(oneByte, code, n - 1, lens);
      NextMonotone(oneByte, code, Pass(oneByte, code, n - 1), lens);
    }
  }

  /** lens is the smallest consistent layout, element by element. */
  ghost predicate Least(oneByte: bool, code: Code, lens: seq<nat>)
    requires TargetsInRange(code)
  {
    && Consistent(oneByte, code, lens)
    && forall other | Consistent(oneByte, code, other) :: Below(lens, other)
  }

  /** When two successive passes have the same total the layout is consistent
      and is the smallest consistent one. */
  lemma StableIsLeast(oneByte: bool, code: Code, n: nat)
    requires TargetsInRange(code)
    requires Total(Pass(oneByte, code, n)) == Total(Pass(oneByte, code, n + 1))
    ensures Pass(oneByte, code, n) == Pass(oneByte, code, n + 1)
    ensures Least(oneByte, code, Pass(oneByte, code, n))
  {
    PassGrows(oneByte, code, n);
    SameTotal(Pass(oneByte, code, n), Pass(oneByte, code, n + 1));
    forall lens | Consistent(oneByte, code, lens)
      ensures Below(Pass(oneByte, code, n), lens)
    {
      PassBelowConsistent(oneByte, code, n, lens);
    }
  }

  /** total_len after n passes. */
  function TotalAfter(oneByte: bool, code: Code, n: nat): int
    requires TargetsInRange(code)
  {
    if n == 0 then -1 else Total(Pass(oneByte, code, n - 1))
  }

  lemma TotalGrows(a: seq<nat>, b: seq<nat>)
    requires Below(a, b)
    ensures Total(a) <= Total(b)
  {
    AddrDiff(a, b, 0, |a|);
  }

  /** The total only grows, is bounded, and stands still only at the least
      consistent layout. */
  lemma PassProgress(oneByte: bool, code: Code, n: nat)
    requires TargetsInRange(code)
    ensures TotalAfter(oneByte, code, n) <= TotalAfter(oneByte, code, n + 1) <= TotalCap(oneByte, code)
    ensures TotalAfter(oneByte, code, n) == TotalAfter(oneByte, code, n + 1) ==>
              Least(oneByte, code, Pass(oneByte, code, n))
  {
    hide Least, Pass, Below, Addr;
    PassGrows(oneByte, code, n);
    if n > 0 {
      PassGrows(oneByte, code, n - 1);
      TotalGrows(Pass(oneByte, code, n - 1), Pass(oneByte, code, n));
      if TotalAfter(oneByte, code, n) == TotalAfter(oneByte, code, n + 1) {
        StableIsLeast(oneByte, code, n - 1);
        assert Pass(oneByte, code, n - 1) == Pass(oneByte, code, n);
      }
    }
  }

  // ----- the bytes -----

  function HeadBytes(oneByte: bool, val: int): (s: seq<byte>)
    ensures |s| == HeadLen(oneByte, val)
  {
    if oneByte then [val % 256] else EncU(val)
  }

  /** What encode appends; a jump needs a known offset. */
  function EncBytes(oneByte: bool, e: Element, joff: int): (s: seq<byte>)
    ensures |s| == Len(oneByte, e, Some(joff))
  {
    match e
    case UInt(v) => HeadBytes(oneByte, v)
    case UIntInt(v1, v2) => HeadBytes(oneByte, v1) + EncS(v2)
    case UIntUInt(v1, v2) => HeadBytes(oneByte, v1) + EncU(v2)
    case JumpTo(t, _) => HeadBytes(oneByte, t) + EncS(joff)
  }

  function ElementBytes(oneByte: bool, code: Code, lens: seq<nat>, i: nat): seq<byte>
    requires |lens| == |code| && TargetsInRange(code) && i < |code|
  {
    EncBytes(oneByte, code[i], OffsetOf(code, lens, i).GetOr(0))
  }

  /** The code block: the bytes of the first n elements. */
  function CodeBytes(oneByte: bool, code: Code, lens: seq<nat>, n: nat): seq<byte>
    requires |lens| == |code| && TargetsInRange(code) && n <= |code|
  {
    if n == 0 then [] else CodeBytes(oneByte, code, lens, n - 1) + ElementBytes(oneByte, code, lens, n - 1)
  }

  /** Which opcode numbers encode_one_byte accepts. */
  predicate HeadFits(oneByte: bool, e: Element)
  {
    oneByte ==> (match e
                 case UInt(v) => v <= 255
                 case UIntInt(v, _) => v <= 255
                 case UIntUInt(v, _) => v <= 255
                 case JumpTo(t, _) => t <= 255)
  }

  ghost predicate AllHeadsFit(oneByte: bool, code: Code)
  {
    forall i | 0 <= i < |code| :: HeadFits(oneByte, code[i])
  }

  lemma ElementLength(oneByte: bool, code: Code, lens: seq<nat>, i: nat)
    requires TargetsInRange(code) && Consistent(oneByte, code, lens) && i < |code|
    ensures |ElementBytes(oneByte, code, lens, i)| == lens[i]
  {
    hide Len, EncBytes;
    assert lens[i] == NextLens(oneByte, code, lens)[i];
    if code[i].JumpTo? {
      assert OffsetOf(code, lens, i).Some?;
    } else {
      UnjumpedLength(oneByte, code[i]);
    }
  }

  lemma UnjumpedLength(oneByte: bool, e: Element)
    requires !e.JumpTo?
    ensures Len(oneByte, e, None) == Len(oneByte, e, Some(0))
  {}

  lemma {:induction false} CodeBytesLength(oneByte: bool, code: Code, lens: seq<nat>, n: nat)
    requires TargetsInRange(code) && Consistent(oneByte, code, lens) && n <= |code|
    ensures |CodeBytes(oneByte, code, lens, n)| == Addr(lens, n)
    decreases n
  {
    if n > 0 {
      hide ElementBytes, NextLens;
      CodeBytesLength(oneByte, code, lens, n - 1);
      ElementLength(oneByte, code, lens, n - 1);
    }
  }

  lemma AtPrefix(b: seq<byte>, more: seq<byte>, p: nat, enc: seq<byte>)
    requires At(b, p, enc)
    ensures At(b + more, p, enc)
  {
    assert (b + more)[p..p + |enc|] == b[p..p + |enc|];
  }

  /** In a consistent layout the bytes of element i stand at its address in
      the code block, with exactly its recorded length. */
  lemma {:induction false} ElementAt(oneByte: bool, code: Code, lens: seq<nat>, i: nat, n: nat)
    requires TargetsInRange(code) && Consistent(oneByte, code, lens) && i < n <= |code|
    ensures At(CodeBytes(oneByte, code, lens, n), Addr(lens, i), ElementBytes(oneByte, code, lens, i))
    ensures |ElementBytes(oneByte, code, lens, i)| == lens[i]
    decreases n
  {
    hide ElementBytes, NextLens;
    CodeBytesLength(oneByte, code, lens, n - 1);
    ElementLength(oneByte, code, lens, i);
    var b := CodeBytes(oneByte, code, lens, n - 1);
    var last := ElementBytes(oneByte, code, lens, n - 1);
    if i < n - 1 {
      ElementAt(oneByte, code, lens, i, n - 1);
      AtPrefix(b, last, Addr(lens, i), ElementBytes(oneByte, code, lens, i));
    } else {
      assert (b + last)[|b|..|b| + |last|] == last;
    }
  }

  /** Every encoded jump lands on its target: the offset, added to the address
      just after the jump, is the target's address. */
  lemma JumpLands(lens: seq<nat>, i: nat, t: nat)
    requires i < |lens| && t < |lens|
    ensures Addr(lens, i + 1) + Offset(lens, i, t) == Addr(lens, t)
    ensures Addr(lens, i + 1) == Addr(lens, i) + lens[i]
  {
  }
}
