/** The code elements as the objects they are in codes.py, with the address
    and length they remember, and the loops of T0Comp.generate over them. */
module CodeElements {
  import opened Base128
  import opened Wrappers
  import opened Layout

  datatype Kind =
    | KUInt(val: int)
    | KUIntInt(val1: int, val2: int)
    | KUIntUInt(val1: int, uval2: int)
    | KJump(jumpType: int)

  class CodeElement {
    const kind: Kind
    var address: int
    var lastLength: nat
    var target: CodeElement?

    constructor (kind: Kind)
      ensures this.kind == kind && address == -1 && lastLength == 0 && target == null
    {
      this.kind := kind;
      address := -1;
      lastLength := 0;
      target := null;
    }

    /** Raises unless the element is a jump. */
    method SetJumpTarget(t: CodeElement) returns (ok: bool)
      modifies this`target
      ensures ok <==> kind.KJump?
      ensures target == if ok then t else old(target)
    {
      ok := kind.KJump?;
      if ok {
        target := t;
      }
    }

    /** The jump offset, once both addresses are known. */
    function JumpOff(): Option<int>
      reads this, target
    {
      if target == null || address < 0 || target.address < 0 then None
      else Some(target.address - (address + lastLength))
    }

    /** The element as a value, its target being element number t. */
    function Value(t: nat): Element
    {
      match kind
      case KUInt(v) => UInt(v)
      case KUIntInt(v1, v2) => UIntInt(v1, v2)
      case KUIntUInt(v1, v2) => UIntUInt(v1, v2)
      case KJump(j) => JumpTo(j, t)
    }

    method GetLength(oneByte: bool, ghost t: nat) returns (length: nat)
      ensures length == Len(oneByte, Value(t), JumpOff())
    {
      var extra: nat;
      match kind {
        case KUInt(v) =>
          length := Head(oneByte, v);
        case KUIntInt(v1, v2) =>
          length := Head(oneByte, v1);
          extra := Encode7ESigned(v2, null);
          length := length + extra;
        case KUIntUInt(v1, v2) =>
          length := Head(oneByte, v1);
          extra := Encode7EUnsigned(v2, null);
          length := length + extra;
        case KJump(j) =>
          length := Head(oneByte, j);
          var joff := JumpOff();
          if joff.None? {
            length := length + 1;
          } else {
            extra := Encode7ESigned(joff.value, null);
            length := length + extra;
          }
      }
    }

    static method Head(oneByte: bool, v: int) returns (length: nat)
      ensures length == HeadLen(oneByte, v)
    {
      if oneByte {
        length := 1;
      } else {
        length := Encode7EUnsigned(v, null);
      }
    }

    static method PutHead(oneByte: bool, v: int, bw: ByteWriter) returns (ok: bool)
      modifies bw
      ensures ok <==> (oneByte ==> v <= 255)
      ensures ok ==> bw.bytes == old(bw.bytes) + HeadBytes(oneByte, v)
    {
      ok := true;
      var n: nat;
      if oneByte {
        ok, n := EncodeOneByte(v, bw);
      } else {
        n := Encode7EUnsigned(v, bw);
      }
    }

    /** Raises on an opcode number that needs more than the one byte it has,
        and on a jump whose addresses are not known. */
    method Encode(bw: ByteWriter, oneByte: bool, ghost t: nat) returns (ok: bool)
      modifies bw
      ensures ok <==> HeadFits(oneByte, Value(t)) && (kind.KJump? ==> JumpOff().Some?)
      ensures ok ==> bw.bytes == old(bw.bytes) + EncBytes(oneByte, Value(t), JumpOff().GetOr(0))
    {
      hide EncU, EncS, HeadBytes;
      var n: nat;
      var joff := JumpOff();
      match kind {
        case KUInt(v) =>
          ok := PutHead(oneByte, v, bw);
        case KUIntInt(v1, v2) =>
          ok := PutHead(oneByte, v1, bw);
          if ok {
            n := Encode7ESigned(v2, bw);
          }
        case KUIntUInt(v1, v2) =>
          ok := PutHead(oneByte, v1, bw);
          if ok {
            n := Encode7EUnsigned(v2, bw);
          }
        case KJump(j) =>
          ok := PutHead(oneByte, j, bw);
          if ok {
            if joff.None? {
              return false;
            }
            n := Encode7ESigned(joff.value, bw);
          }
      }
    }
  }

  // ----- lists of elements -----

  ghost predicate Distinct(gcode: seq<CodeElement>)
  {
    forall i, j | 0 <= i < j < |gcode| :: gcode[i] != gcode[j]
  }

  function TargetOf(e: Element): nat { if e.JumpTo? then e.target else 0 }

  /** The objects stand for the elements of code. */
  ghost predicate Stands(gcode: seq<CodeElement>, code: Code)
    reads gcode`target
  {
    && |gcode| == |code|
    && Distinct(gcode)
    && TargetsInRange(code)
    && forall i | 0 <= i < |code| :: StandsAt(gcode, code, i)
  }

  ghost predicate StandsAt(gcode: seq<CodeElement>, code: Code, i: nat)
    requires |gcode| == |code| && TargetsInRange(code) && i < |code|
    reads gcode`target
  {
    && code[i] == gcode[i].Value(TargetOf(code[i]))
    && gcode[i].target == if code[i].JumpTo? then gcode[code[i].target] else null
  }

  ghost predicate Fresh(gcode: seq<CodeElement>)
    reads gcode
  {
    forall i | 0 <= i < |gcode| :: gcode[i].address == -1 && gcode[i].lastLength == 0
  }

  /** Every object remembers its place in the layout lens. */
  ghost predicate Placed(gcode: seq<CodeElement>, lens: seq<nat>)
    reads gcode
  {
    |lens| == |gcode| &&
    forall i | 0 <= i < |gcode| :: gcode[i].address == Addr(lens, i) && gcode[i].lastLength == lens[i]
  }

  /** What a pass is to compute, nothing or a layout being remembered. */
  function Expected(oneByte: bool, code: Code, lens: Option<seq<nat>>): (r: seq<nat>)
    requires TargetsInRange(code) && (lens.Some? ==> |lens.value| == |code|)
    ensures |r| == |code|
  {
    if lens.None? then FirstLens(oneByte, code) else NextLens(oneByte, code, lens.value)
  }

  ghost predicate Remembers(gcode: seq<CodeElement>, lens: Option<seq<nat>>)
    reads gcode
  {
    if lens.None? then Fresh(gcode) else Placed(gcode, lens.value)
  }

  lemma Remembered(gcode: seq<CodeElement>, oneByte: bool, code: Code, lens: Option<seq<nat>>, i: nat)
    requires Stands(gcode, code) && Remembers(gcode, lens) && i < |code|
    ensures Len(oneByte, gcode[i].Value(TargetOf(code[i])), gcode[i].JumpOff()) == Expected(oneByte, code, lens)[i]
  {
    hide Addr, Distinct, Len;
    assert StandsAt(gcode, code, i);
    if lens.Some? {
      Known(gcode, code, lens.value, i);
    }
  }

  /** The lengths that a pass computes from what the objects remember. */
  method Measure(gcode: seq<CodeElement>, oneByte: bool, ghost code: Code, ghost lens: Option<seq<nat>>)
    returns (r: seq<nat>)
    requires Stands(gcode, code) && Remembers(gcode, lens)
    ensures r == Expected(oneByte, code, lens)
  {
    r := [];
    ghost var goal := Expected(oneByte, code, lens);
    for i := 0 to |gcode|
      invariant r == goal[..i]
    {
      Remembered(gcode, oneByte, code, lens, i);
      var n := gcode[i].GetLength(oneByte, TargetOf(code[i]));
      assert n == goal[i];
      r := r + [n];
    }
  }

  ghost predicate PlacedUpTo(gcode: seq<CodeElement>, lens: seq<nat>, n: nat)
    requires n <= |gcode| == |lens|
    reads gcode
  {
    forall i | 0 <= i < n :: gcode[i].address == Addr(lens, i) && gcode[i].lastLength == lens[i]
  }

  /** Hands out one address; the elements before it keep theirs. */
  method PlaceOne(gcode: seq<CodeElement>, lens: seq<nat>, i: nat, ce: CodeElement, off: nat)
    requires i < |gcode| == |lens| && ce == gcode[i] && Distinct(gcode)
    requires PlacedUpTo(gcode, lens, i) && off == Addr(lens, i)
    modifies ce`address, ce`lastLength
    ensures PlacedUpTo(gcode, lens, i + 1)
  {
    hide Addr;
    ce.address := off;
    ce.lastLength := lens[i];
  }

  lemma NonePlaced(gcode: seq<CodeElement>, lens: seq<nat>)
    requires |gcode| == |lens|
    ensures PlacedUpTo(gcode, lens, 0) && Addr(lens, 0) == 0
  {}

  lemma NextAddr(lens: seq<nat>, i: nat)
    requires i < |lens|
    ensures Addr(lens, i + 1) == Addr(lens, i) + lens[i]
  {}

  lemma AllPlaced(gcode: seq<CodeElement>, lens: seq<nat>)
    requires |gcode| == |lens| && PlacedUpTo(gcode, lens, |gcode|)
    ensures Placed(gcode, lens)
  {}

  /** Hands out the addresses of one pass. */
  method Place(gcode: seq<CodeElement>, gcodeLen: seq<nat>) returns (off: nat)
    requires Distinct(gcode) && |gcodeLen| == |gcode|
    modifies gcode`address, gcode`lastLength
    ensures Placed(gcode, gcodeLen)
    ensures off == Total(gcodeLen)
  {
    hide Addr, Placed, PlacedUpTo;
    off := 0;
    NonePlaced(gcode, gcodeLen);
    for i := 0 to |gcode|
      invariant off == Addr(gcodeLen, i)
      invariant PlacedUpTo(gcode, gcodeLen, i)
    {
      PlaceOne(gcode, gcodeLen, i, gcode[i], off);
      NextAddr(gcodeLen, i);
      off := off + gcodeLen[i];
    }
    AllPlaced(gcode, gcodeLen);
  }

  /** The objects after n passes. */
  ghost predicate After(gcode: seq<CodeElement>, oneByte: bool, code: Code, n: nat)
    requires TargetsInRange(code)
    reads gcode
  {
    if n == 0 then Fresh(gcode) else Placed(gcode, Pass(oneByte, code, n - 1))
  }

  /** One pass over all the elements. */
  method OnePass(gcode: seq<CodeElement>, oneByte: bool, ghost code: Code, ghost n: nat) returns (off: nat)
    requires Stands(gcode, code) && After(gcode, oneByte, code, n)
    modifies gcode
    ensures Stands(gcode, code) && After(gcode, oneByte, code, n + 1)
    ensures off == TotalAfter(oneByte, code, n + 1)
  {
    var gcodeLen := Measure(gcode, oneByte, code, if n == 0 then None else Some(Pass(oneByte, code, n - 1)));
    assert gcodeLen == Pass(oneByte, code, n);
    off := Place(gcode, gcodeLen);
  }

  /** Address stabilisation: it ends, and although it compares only the total
      length, it ends with the smallest layout in which every element has the
      length that its own offset needs. */
  method Stabilize(gcode: seq<CodeElement>, oneByte: bool, ghost code: Code) returns (ghost lens: seq<nat>)
    requires Stands(gcode, code) && Fresh(gcode)
    modifies gcode
    ensures Stands(gcode, code) && Placed(gcode, lens)
    ensures Least(oneByte, code, lens)
  {
    ghost var n := StabilizeLoop(gcode, oneByte, code);
    lens := Pass(oneByte, code, n);
  }

  lemma NothingPlaced(gcode: seq<CodeElement>, oneByte: bool, code: Code)
    requires Stands(gcode, code)
    ensures TargetsInRange(code) && TotalAfter(oneByte, code, 0) == -1
  {
  }

  /** The loop, with n the number of the pass that changed nothing. */
  method StabilizeLoop(gcode: seq<CodeElement>, oneByte: bool, ghost code: Code) returns (ghost n: nat)
    requires Stands(gcode, code) && After(gcode, oneByte, code, 0)
    modifies gcode
    ensures Stands(gcode, code) && After(gcode, oneByte, code, n + 1)
    ensures Least(oneByte, code, Pass(oneByte, code, n))
  {
    hide *;
    NothingPlaced(gcode, oneByte, code);
    var totalLen: int := -1;
    n := 0;
    while true
      invariant Stands(gcode, code)
      invariant After(gcode, oneByte, code, n)
      invariant n >= 0 && totalLen == TotalAfter(oneByte, code, n)
      decreases TotalCap(oneByte, code) - totalLen
    {
      var off := OnePass(gcode, oneByte, code, n);
      PassProgress(oneByte, code, n);
      if off == totalLen {
        break;
      }
      totalLen := off;
      n := n + 1;
    }
  }

  /** What a placed object knows of its jump. */
  lemma Known(gcode: seq<CodeElement>, code: Code, lens: seq<nat>, i: nat)
    requires Stands(gcode, code) && |lens| == |code| && Placed(gcode, lens) && i < |code|
    ensures code[i] == gcode[i].Value(TargetOf(code[i]))
    ensures gcode[i].JumpOff() == OffsetOf(code, lens, i)
    ensures gcode[i].kind.KJump? <==> code[i].JumpTo?
  {
    hide Addr, Distinct;
    assert StandsAt(gcode, code, i);
  }

  method EncodeOne(gcode: seq<CodeElement>, oneByte: bool, bw: ByteWriter,
                   ghost code: Code, ghost lens: seq<nat>, i: nat)
    returns (ok: bool)
    requires Stands(gcode, code) && |lens| == |code| && Placed(gcode, lens) && i < |code|
    modifies bw
    ensures ok <==> HeadFits(oneByte, code[i])
    ensures ok ==> bw.bytes == old(bw.bytes) + ElementBytes(oneByte, code, lens, i)
  {
    Known(gcode, code, lens, i);
    ok := gcode[i].Encode(bw, oneByte, TargetOf(code[i]));
  }

  /** Writing the code block from a stable layout. */
  method EncodeAll(gcode: seq<CodeElement>, oneByte: bool, bw: ByteWriter, ghost code: Code, ghost lens: seq<nat>)
    returns (ok: bool)
    requires Stands(gcode, code) && |lens| == |code| && Placed(gcode, lens)
    requires bw.bytes == []
    modifies bw
    ensures ok <==> AllHeadsFit(oneByte, code)
    ensures ok ==> bw.bytes == CodeBytes(oneByte, code, lens, |code|)
  {
    for i := 0 to |gcode|
      invariant forall k | 0 <= k < i :: HeadFits(oneByte, code[k])
      invariant bw.bytes == CodeBytes(oneByte, code, lens, i)
    {
      ok := EncodeOne(gcode, oneByte, bw, code, lens, i);
      if !ok {
        return;
      }
    }
    ok := true;
  }
}
