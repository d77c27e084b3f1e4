/** Compiler correctness: the emitted machine, run on the generated bytes,
    follows Opcode.run on the CPU step by step. */
module Simulation {
  import opened Base128
  import opened Wrappers
  import opened Program
  import opened Layout
  import opened VmSpec
  import opened Generate

  // ----- reading one element of the code block -----

  lemma AtSplit(b: seq<byte>, p: nat, x: seq<byte>, y: seq<byte>)
    requires At(b, p, x + y)
    ensures At(b, p, x) && At(b, p + |x|, y)
  {
    assert b[p..p + |x|] == (x + y)[..|x|];
    assert b[p + |x|..p + |x| + |y|] == (x + y)[|x|..];
  }

  lemma HeadRead(im: Image, p: nat, v: nat)
    requires At(im.code, p, HeadBytes(im.oneByte, v))
    requires if im.oneByte then v <= 255 else v < 0x1_0000_0000
    ensures NextOp(im, p) == Parsed(v, p + HeadLen(im.oneByte, v))
  {
    if im.oneByte {
      assert im.code[p] == im.code[p..p + 1][0];
    } else {
      UnsignedRoundTrip(im.code, p, v);
    }
  }

  /** A one-byte header is read back by the multi-byte parser of T0_ENTER
      exactly when the count is below 128; a longer header always is. */
  lemma HeaderRead(b: seq<byte>, p: nat, oneByte: bool, n: nat)
    requires n < 0x1_0000 && At(b, p, HeadBytes(oneByte, n))
    ensures ParseU(b, p) == Parsed(n, p + HeadLen(oneByte, n)) <==> !oneByte || n < 128
  {
    if oneByte {
      assert b[p] == b[p..p + 1][0] == n % 256;
      if n % 256 >= 128 {
        assert ParseU(b, p).Parsed? ==> ParseU(b, p).next > p + 1;
      }
    } else {
      UnsignedRoundTrip(b, p, n);
    }
  }

  lemma Sizes(g: Build)
    requires g.Good()
    ensures |g.lens| == BaseOf(g.words, |g.words|) == |g.Code()| && TargetsInRange(g.Code())
    ensures Consistent(g.oneByte, g.Code(), g.lens)
    ensures g.Output().code == CodeBytes(g.oneByte, g.Code(), g.lens, |g.Code()|) && g.Output().cases == g.cases
    ensures g.Output().oneByte == g.oneByte && g.Output().interpreted == g.slots.interpreted >= 7
    ensures g.slots.interpreted + |g.words| <= if g.oneByte then 256 else 0x1_0000_0000
  {
  }

  lemma OpcodeElement(g: Build, k: nat, o: nat)
    requires g.Good() && k < |g.words| && o < |g.words[k].code|
    ensures var i := BaseOf(g.words, k) + 1 + o;
            && i < |g.Code()|
            && g.Code()[i] == ElementOf(g.slots, g.words[k].code[o], i)
  {
    hide Build.Good, Elements, ElementOf;
    ElementIndex(g.slots, g.words, k, |g.words|, 1 + o);
  }

  /** The bytes of opcode o of word k are where the layout says. */
  lemma OpcodeBytes(g: Build, k: nat, o: nat)
    requires g.Good() && k < |g.words| && o < |g.words[k].code|
    ensures var i := BaseOf(g.words, k) + 1 + o;
            && i < |g.Code()| == |g.lens|
            && TargetsInRange(g.Code())
            && g.Code()[i] == ElementOf(g.slots, g.words[k].code[o], i)
            && At(g.Output().code, g.AddrOf(k, o), ElementBytes(g.oneByte, g.Code(), g.lens, i))
            && |ElementBytes(g.oneByte, g.Code(), g.lens, i)| == g.lens[i]
  {
    hide Build.Good, At, Consistent, TargetsInRange, Build.Output, CodeBytes, ElementBytes, ElementOf, Build.Code,
      Elements;
    Sizes(g);
    OpcodeElement(g, k, o);
    ElementAt(g.oneByte, g.Code(), g.lens, BaseOf(g.words, k) + 1 + o, |g.Code()|);
  }

  /** The address right after opcode o of word k. */
  function AddrEnd(g: Build, k: nat, o: nat): nat
    requires g.Good() && k < |g.words| && o < |g.words[k].code|
  {
    BaseMonotone(g.words, k + 1, |g.words|);
    Addr(g.lens, BaseOf(g.words, k) + 2 + o)
  }

  function OpNumber(g: Build, op: Op): nat
  {
    match op
    case Ret => 0
    case Const(_) => 1
    case GetLocal(_) => 2
    case PutLocal(_) => 3
    case Jump(_) => 4
    case JumpIf(_) => 5
    case JumpIfNot(_) => 6
    case Call(t) => SlotOf(g.slots, t)
  }

  function HeadOf(e: Element): int
  {
    match e
    case UInt(v) => v
    case UIntInt(v, _) => v
    case UIntUInt(v, _) => v
    case JumpTo(v, _) => v
  }

  /** The bytes after the opcode number. */
  function TailOf(e: Element, joff: int): seq<byte>
  {
    match e
    case UInt(_) => []
    case UIntInt(_, v) => EncS(v)
    case UIntUInt(_, v) => EncU(v)
    case JumpTo(_, _) => EncS(joff)
  }

  lemma HeadAndTail(oneByte: bool, e: Element, joff: int)
    ensures EncBytes(oneByte, e, joff) == HeadBytes(oneByte, HeadOf(e)) + TailOf(e, joff)
  {
  }

  lemma GoodOpcode(g: Build, k: nat, o: nat)
    requires g.Good() && k < |g.words| && o < |g.words[k].code|
    ensures GoodOp(g.words, g.words[k], o)
    ensures g.words[k].numLocals < 0x1_0000 && (g.oneByte ==> g.words[k].numLocals < 128)
    ensures o + 1 == |g.words[k].code| ==> !g.words[k].code[o].MayFallThrough()
    ensures Total(g.lens) < 0x1_0000
  {
    hide Build.SlotsGood, TargetsInRange, Consistent, Build.Code;
    assert GoodWord(g.words, g.words[k]);
  }

  lemma NativeSlot(g: Build, k: nat, o: nat)
    requires g.Good() && k < |g.words| && o < |g.words[k].code|
    requires g.words[k].code[o].Call? && g.words[k].code[o].target.Native?
    ensures var slot := SlotOf(g.slots, g.words[k].code[o].target);
            7 <= slot < g.slots.interpreted && slot in g.cases && g.cases[slot] == g.words[k].code[o].target.cc
  {
    hide GoodProgram, TargetsInRange, Consistent, Build.Code, Build.Fits;
  }

  lemma OpNumberSmall(g: Build, k: nat, o: nat)
    requires g.Good() && k < |g.words| && o < |g.words[k].code|
    ensures OpNumber(g, g.words[k].code[o]) < g.slots.interpreted + |g.words|
    ensures HeadOf(ElementOf(g.slots, g.words[k].code[o], BaseOf(g.words, k) + 1 + o))
            == OpNumber(g, g.words[k].code[o])
  {
    hide Build.Good, BaseOf;
    Sizes(g);
    GoodOpcode(g, k, o);
    if g.words[k].code[o].Call? && g.words[k].code[o].target.Native? {
      NativeSlot(g, k, o);
    }
  }

  /** What the machine's parsers find at an opcode. */
  lemma Fetch(g: Build, k: nat, o: nat)
    requires g.Good() && k < |g.words| && o < |g.words[k].code|
    ensures var im := g.Output();
            var op := g.words[k].code[o];
            var i := BaseOf(g.words, k) + 1 + o;
            var p := g.AddrOf(k, o) + HeadLen(g.oneByte, OpNumber(g, op));
            && i < |g.Code()| == |g.lens|
            && TargetsInRange(g.Code())
            && g.Code()[i] == ElementOf(g.slots, op, i)
            && NextOp(im, g.AddrOf(k, o)) == Parsed(OpNumber(g, op), p)
            && At(im.code, p, TailOf(g.Code()[i], OffsetOf(g.Code(), g.lens, i).GetOr(0)))
            && p + |TailOf(g.Code()[i], OffsetOf(g.Code(), g.lens, i).GetOr(0))| == AddrEnd(g, k, o)
  {
    hide Build.Good, At, Consistent, Build.Output, TailOf, HeadBytes, OpNumber, ElementOf, NextOp, HeadOf, EncBytes;
    OpcodeBytes(g, k, o);
    OpNumberSmall(g, k, o);
    Sizes(g);
    var op := g.words[k].code[o];
    var i := BaseOf(g.words, k) + 1 + o;
    var joff := OffsetOf(g.Code(), g.lens, i).GetOr(0);
    HeadAndTail(g.oneByte, g.Code()[i], joff);
    AtSplit(g.Output().code, g.AddrOf(k, o), HeadBytes(g.oneByte, OpNumber(g, op)), TailOf(g.Code()[i], joff));
    HeadRead(g.Output(), g.AddrOf(k, o), OpNumber(g, op));
    assert Addr(g.lens, i + 1) == Addr(g.lens, i) + g.lens[i];
  }

  /** The operand of a constant or of a local access. */
  lemma FetchOperand(g: Build, k: nat, o: nat)
    requires g.Good() && k < |g.words| && o < |g.words[k].code|
    ensures var op := g.words[k].code[o];
            var p := g.AddrOf(k, o) + HeadLen(g.oneByte, OpNumber(g, op));
            && (op.Const? ==> ParseS(g.Output().code, p) == Parsed(op.v, AddrEnd(g, k, o)))
            && (op.GetLocal? || op.PutLocal? ==> ParseU(g.Output().code, p) == Parsed(op.num, AddrEnd(g, k, o)))
            && (op.Call? || op.Ret? ==> p == AddrEnd(g, k, o))
  {
    hide Build.Good, At, Consistent, Build.Output, ParseS, ParseU, EncU, EncS, Build.AddrOf, AddrEnd, NextOp, HeadLen;
    GoodOpcode(g, k, o);
    Fetch(g, k, o);
    var op := g.words[k].code[o];
    var p := g.AddrOf(k, o) + HeadLen(g.oneByte, OpNumber(g, op));
    match op
    case Const(v) => SignedRoundTrip(g.Output().code, p, v);
    case GetLocal(n) => UnsignedRoundTrip(g.Output().code, p, n);
    case PutLocal(n) => UnsignedRoundTrip(g.Output().code, p, n);
    case _ =>
  }

  /** The operand of a jump leads from the end of the jump to the target. */
  lemma FetchJump(g: Build, k: nat, o: nat)
    requires g.Good() && k < |g.words| && o < |g.words[k].code|
    requires g.words[k].code[o].IsJump()
    ensures var op := g.words[k].code[o];
            var p := g.AddrOf(k, o) + HeadLen(g.oneByte, OpNumber(g, op));
            && op.disp.Some? && 0 <= o + 1 + op.disp.value < |g.words[k].code|
            && ParseS(g.Output().code, p) ==
                 Parsed(g.AddrOf(k, o + 1 + op.disp.value) - AddrEnd(g, k, o), AddrEnd(g, k, o))
  {
    hide Build.Good, At, Consistent, Build.Output, ParseS, EncS, NextOp, HeadLen;
    var op := g.words[k].code[o];
    var i := BaseOf(g.words, k) + 1 + o;
    GoodOpcode(g, k, o);
    var t := i + 1 + op.disp.value;
    Fetch(g, k, o);
    assert g.Code()[i] == JumpTo(OpNumber(g, op), t);
    var joff := Offset(g.lens, i, t);
    OffsetInTotal(g.lens, i, t);
    SignedRoundTrip(g.Output().code, g.AddrOf(k, o) + HeadLen(g.oneByte, OpNumber(g, op)), joff);
    JumpLands(g.lens, i, t);
  }

  lemma NotEmpty(g: Build, k: nat)
    requires g.Good() && k < |g.words|
    ensures g.words[k].code != []
  {
    assert GoodWord(g.words, g.words[k]);
  }

  /** T0_ENTER finds the header of word k and stops at its first opcode. */
  lemma HeaderBytes(g: Build, k: nat)
    requires g.Good() && k < |g.words|
    ensures var im := g.Output();
            && k < |im.caddr|
            && g.words[k].code != []
            && ParseU(im.code, im.caddr[k]) == Parsed(g.words[k].numLocals, g.AddrOf(k, 0))
  {
    hide Build.Good, Consistent, At, ParseU, HeadBytes;
    var i := BaseOf(g.words, k);
    NotEmpty(g, k);
    GoodOpcode(g, k, 0);
    Sizes(g);
    ElementIndex(g.slots, g.words, k, |g.words|, 0);
    assert g.Output().caddr[k] == g.Entry(k) % 0x1_0000;
    ElementAt(g.oneByte, g.Code(), g.lens, i, |g.Code()|);
    AddrDiff(g.lens, g.lens, i, |g.lens|);
    HeaderRead(g.Output().code, g.Entry(k), g.oneByte, g.words[k].numLocals);
    assert Addr(g.lens, i + 1) == Addr(g.lens, i) + g.lens[i];
  }

  /** Addresses of opcodes are positive and fit 16 bits. */
  lemma AddrRange(g: Build, k: nat, o: nat)
    requires g.Good() && k < |g.words| && o < |g.words[k].code|
    ensures 0 < g.AddrOf(k, o) < 0x1_0000
  {
    var i := BaseOf(g.words, k) + 1 + o;
    BaseMonotone(g.words, k + 1, |g.words|);
    assert g.lens[0] == NextLens(g.oneByte, g.Code(), g.lens)[0] >= 1;
    assert Total(g.lens) < 0x1_0000;
    hide Build.Good;
    AddrDiff(g.lens, g.lens, 1, i);
    AddrDiff(g.lens, g.lens, i, |g.lens|);
    assert Addr(g.lens, 1) == Addr(g.lens, 0) + g.lens[0];
  }

  // ----- the simulation relation -----

  predicate OpAddress(g: Build, ip: Ip)
  {
    ip.Pos? && ip.word < |g.words| && 0 <= ip.off < |g.words[ip.word].code|
  }

  /** The return address that stands for a saved instruction pointer: zero for
      the way out, which no opcode has as its address. */
  ghost predicate SavedAs(g: Build, ip: Ip, addr: int)
    requires g.Good()
  {
    match ip
    case Nowhere => addr == 0
    case Pos(k, o) => OpAddress(g, ip) && addr == g.AddrOf(k, o)
  }

  ghost predicate LocalsAs(locals: seq<Option<int32>>, rs: seq<uint32>, top: int)
  {
    forall x | 0 <= x < |locals| && locals[x].Some? ::
      0 <= top - x < |rs| && rs[top - x] == U32(locals[x].value)
  }

  /** The frames as they lie on the return stack below rp: the locals of each,
      local x at two cells below the top minus x, then the return address with
      the number of locals in its upper half. */
  ghost predicate FramesAs(g: Build, frames: seq<Frame>, rs: seq<uint32>, rp: int, base: nat)
    requires g.Good()
    decreases |frames|
  {
    if frames == [] then rp == base <= |rs|
    else
      var f := frames[0];
      && base < rp <= |rs|
      && |f.locals| < 0x1_0000
      && SavedAs(g, f.saved, rs[rp - 1] - 0x1_0000 * |f.locals|)
      && LocalsAs(f.locals, rs, rp - 2)
      && FramesAs(g, frames[1..], rs, rp - 1 - |f.locals|, base)
  }

  /** Frames depend only on the cells below rp. */
  lemma {:induction false} FramesKept(g: Build, frames: seq<Frame>, rs: seq<uint32>, rs': seq<uint32>,
                                      rp: nat, base: nat)
    requires g.Good() && FramesAs(g, frames, rs, rp, base)
    requires |rs'| == |rs| && rs'[..rp] == rs[..rp]
    ensures FramesAs(g, frames, rs', rp, base)
    decreases |frames|
  {
    if frames != [] {
      var f := frames[0];
      FramesAbove(g, frames[1..], rs, rp - 1 - |f.locals|, base);
      forall i | 0 <= i < rp
        ensures rs'[i] == rs[i]
      {
        assert rs'[..rp][i] == rs[..rp][i];
      }
      var q := rp - 1 - |f.locals|;
      assert rs'[..q] == rs[..q];
      FramesKept(g, frames[1..], rs, rs', q, base);
    }
  }

  lemma {:induction false} FramesAbove(g: Build, frames: seq<Frame>, rs: seq<uint32>, rp: int, base: nat)
    requires g.Good() && FramesAs(g, frames, rs, rp, base)
    ensures rp == base + Cells(frames)
    decreases |frames|
  {
    if frames != [] {
      FramesAbove(g, frames[1..], rs, rp - 1 - |frames[0].locals|, base);
    }
  }

  /** CPU state c is represented by machine state vm, whose return stack holds
      foreign cells below base. */
  ghost predicate Related(g: Build, c: Cpu, vm: Vm, base: nat)
    requires g.Good()
  {
    && OpAddress(g, c.ip)
    && vm.ip == g.AddrOf(c.ip.word, c.ip.off)
    && vm.ds == ToU32s(c.stack)
    && FramesAs(g, c.frames, vm.rs, vm.rp, base)
  }

  /** What a machine step must be, given the CPU step. */
  ghost predicate StepAs(g: Build, s: Step, r: VmStep, base: nat)
    requires g.Good()
  {
    match s
    case Next(c) =>
      if c.ip.Nowhere? then
        r.Exited? && r.vm.ds == ToU32s(c.stack) && FramesAs(g, c.frames, r.vm.rs, r.vm.rp, base)
      else r.Go? && Related(g, c, r.vm, base)
    case Stopped => r.NativeExit?
    case Stuck => true
  }

  // ----- one step, opcode by opcode -----

  lemma PushAs(s: seq<int32>, v: int32)
    ensures ToU32s(s + [v]) == ToU32s(s) + [U32(v)]
  {
  }

  lemma PopAs(s: seq<int32>)
    requires s != []
    ensures ToU32s(s)[..|s| - 1] == ToU32s(Pop(s))
    ensures ToU32s(s)[|s| - 1] == U32(Top(s))
    ensures U32(Top(s)) == 0 <==> Top(s) == 0
  {
  }

  lemma NativeAs(s: seq<int32>)
    ensures ToI32s(ToU32s(s)) == s
  {
    forall i | 0 <= i < |s|
      ensures ToI32s(ToU32s(s))[i] == s[i]
    {
      assert I32(U32(s[i])) == s[i];
    }
  }

  /** The state with ip past the opcode at c.ip. */
  function Past(c: Cpu): Cpu
    requires c.ip.Pos?
  {
    c.(ip := Pos(c.ip.word, c.ip.off + 1))
  }

  /** An opcode that may fall through is followed by another one, at the
      address right after its bytes. */
  lemma FallsInside(g: Build, c: Cpu)
    requires g.Good() && OpAddress(g, c.ip)
    requires OpAt(g.words, c).MayFallThrough()
    ensures OpAddress(g, Past(c).ip)
    ensures g.AddrOf(c.ip.word, c.ip.off + 1) == AddrEnd(g, c.ip.word, c.ip.off)
  {
    hide Build.Good;
    GoodOpcode(g, c.ip.word, c.ip.off);
  }

  lemma StepConst(g: Build, native: Natives, c: Cpu, vm: Vm, base: nat)
    requires g.Good() && Related(g, c, vm, base) && OpAt(g.words, c).Const?
    ensures StepAs(g, StepCpu(g.words, native, c), StepVm(g.Output(), native, vm), base)
  {
    hide Build.Good, Build.Output, FramesAs, Build.AddrOf, AddrEnd, NextOp, ParseS, ToU32s, At, TailOf, OffsetOf,
      TargetsInRange, Build.Code, BaseOf, HeadLen;
    Sizes(g);
    Fetch(g, c.ip.word, c.ip.off);
    FetchOperand(g, c.ip.word, c.ip.off);
    FallsInside(g, c);
    PushAs(c.stack, OpAt(g.words, c).v);
  }

  /** Reading local n of the innermost frame. */
  lemma ReadLocal(g: Build, frames: seq<Frame>, rs: seq<uint32>, rp: nat, base: nat, n: nat)
    requires g.Good() && FramesAs(g, frames, rs, rp, base)
    requires frames != [] && n < |frames[0].locals| && frames[0].locals[n].Some?
    ensures 0 <= rp - 2 - n < |rs| && rs[rp - 2 - n] == U32(frames[0].locals[n].value)
  {
  }

  lemma StepGetLocal(g: Build, native: Natives, c: Cpu, vm: Vm, base: nat)
    requires g.Good() && Related(g, c, vm, base) && OpAt(g.words, c).GetLocal?
    ensures StepAs(g, StepCpu(g.words, native, c), StepVm(g.Output(), native, vm), base)
  {
    hide Build.Good, Build.Output, FramesAs, Build.AddrOf, AddrEnd, NextOp, ParseU, ToU32s, At, TailOf, OffsetOf,
      TargetsInRange, Build.Code, BaseOf, HeadLen;
    if StepCpu(g.words, native, c).Next? {
      var n := OpAt(g.words, c).num;
      Sizes(g);
      Fetch(g, c.ip.word, c.ip.off);
      FetchOperand(g, c.ip.word, c.ip.off);
      FallsInside(g, c);
      ReadLocal(g, c.frames, vm.rs, vm.rp, base, n);
      PushAs(c.stack, c.frames[0].locals[n].value);
    }
  }

  /** Writing local n of the innermost frame writes one cell of the frame. */
  lemma WriteLocal(g: Build, frames: seq<Frame>, rs: seq<uint32>, rp: nat, base: nat, n: nat, v: int32)
    requires g.Good() && FramesAs(g, frames, rs, rp, base)
    requires frames != [] && n < |frames[0].locals|
    ensures 0 <= rp - 2 - n < |rs|
    ensures FramesAs(g, [frames[0].(locals := frames[0].locals[n := Some(v)])] + frames[1..],
                     rs[rp - 2 - n := U32(v)], rp, base)
  {
    hide Build.Good;
    var f := frames[0];
    var q := rp - 1 - |f.locals|;
    FramesAbove(g, frames[1..], rs, q, base);
    var rs' := rs[rp - 2 - n := U32(v)];
    assert rs'[..q] == rs[..q];
    FramesKept(g, frames[1..], rs, rs', q, base);
    var frames' := [f.(locals := f.locals[n := Some(v)])] + frames[1..];
    assert frames'[1..] == frames[1..];
  }

  lemma StepPutLocal(g: Build, native: Natives, c: Cpu, vm: Vm, base: nat)
    requires g.Good() && Related(g, c, vm, base) && OpAt(g.words, c).PutLocal?
    ensures StepAs(g, StepCpu(g.words, native, c), StepVm(g.Output(), native, vm), base)
  {
    hide Build.Good, Build.Output, FramesAs, Build.AddrOf, AddrEnd, NextOp, ParseU, ToU32s, At, TailOf, OffsetOf,
      TargetsInRange, Build.Code, BaseOf, HeadLen;
    if StepCpu(g.words, native, c).Next? {
      Sizes(g);
      Fetch(g, c.ip.word, c.ip.off);
      FetchOperand(g, c.ip.word, c.ip.off);
      FallsInside(g, c);
      PopAs(c.stack);
      WriteLocal(g, c.frames, vm.rs, vm.rp, base, OpAt(g.words, c).num, Top(c.stack));
    }
  }

  lemma StepJump(g: Build, native: Natives, c: Cpu, vm: Vm, base: nat)
    requires g.Good() && Related(g, c, vm, base) && OpAt(g.words, c).IsJump()
    ensures StepAs(g, StepCpu(g.words, native, c), StepVm(g.Output(), native, vm), base)
  {
    hide Build.Good, Build.Output, FramesAs, Build.AddrOf, AddrEnd, NextOp, ParseS, ToU32s, At, TailOf, OffsetOf,
      TargetsInRange, Build.Code, BaseOf, HeadLen;
    if StepCpu(g.words, native, c).Next? {
      Sizes(g);
      Fetch(g, c.ip.word, c.ip.off);
      FetchJump(g, c.ip.word, c.ip.off);
      if !OpAt(g.words, c).Jump? {
        PopAs(c.stack);
        FallsInside(g, c);
      }
    }
  }

  lemma StepNative(g: Build, native: Natives, c: Cpu, vm: Vm, base: nat)
    requires g.Good() && Related(g, c, vm, base)
    requires OpAt(g.words, c).Call? && OpAt(g.words, c).target.Native?
    ensures StepAs(g, StepCpu(g.words, native, c), StepVm(g.Output(), native, vm), base)
  {
    hide Build.Good, Build.Output, FramesAs, Build.AddrOf, AddrEnd, NextOp, ToU32s, ToI32s, At, TailOf, OffsetOf,
      TargetsInRange, Build.Code, BaseOf, HeadLen;
    Sizes(g);
    Fetch(g, c.ip.word, c.ip.off);
    FetchOperand(g, c.ip.word, c.ip.off);
    NativeSlot(g, c.ip.word, c.ip.off);
    FallsInside(g, c);
    NativeAs(c.stack);
  }

  /** The cell that T0_ENTER pushes. */
  lemma PushedCell(ip: nat, n: nat)
    requires ip < 0x1_0000 && n < 0x1_0000
    ensures U32(ip + U32(n * 0x1_0000)) == ip + 0x1_0000 * n
  {
  }

  /** A new frame on the return stack. */
  lemma PushFrame(g: Build, saved: Ip, n: nat, frames: seq<Frame>, rs: seq<uint32>, rp: nat, base: nat, addr: nat)
    requires g.Good() && FramesAs(g, frames, rs, rp, base)
    requires n < 0x1_0000 && addr < 0x1_0000 && SavedAs(g, saved, addr)
    requires rp + n < |rs|
    ensures FramesAs(g, [Frame(saved, seq(n, _ => None))] + frames, rs[rp + n := addr + 0x1_0000 * n], rp + n + 1, base)
  {
    hide Build.Good;
    var frames' := [Frame(saved, seq(n, _ => None))] + frames;
    assert frames'[1..] == frames;
    var rs' := rs[rp + n := addr + 0x1_0000 * n];
    assert rs'[..rp] == rs[..rp];
    FramesAbove(g, frames, rs, rp, base);
    FramesKept(g, frames, rs, rs', rp, base);
  }

  /** Entering word k pushes its frame: the return address that stands for the
      caller's pointer, above room for the locals. */
  lemma EnterAs(g: Build, c: Cpu, vm: Vm, base: nat, k: nat)
    requires g.Good() && k < |g.words|
    requires SavedAs(g, c.ip, vm.ip) && vm.ds == ToU32s(c.stack) && FramesAs(g, c.frames, vm.rs, vm.rp, base)
    requires base + Cells(Enter(g.words, c, k).frames) <= |vm.rs|
    ensures var r := EnterVm(g.Output(), vm, g.slots.interpreted + k);
            r.Go? && Related(g, Enter(g.words, c, k), r.vm, base)
  {
    hide Build.Good, Build.Output, Build.AddrOf, ParseU, ToU32s, FramesAs, Consistent, TargetsInRange, Build.Code,
      BaseOf, Total, GoodOp;
    Sizes(g);
    HeaderBytes(g, k);
    GoodOpcode(g, k, 0);
    if c.ip.Pos? {
      AddrRange(g, c.ip.word, c.ip.off);
    }
    var n := g.words[k].numLocals;
    var c' := Enter(g.words, c, k);
    assert c'.frames[1..] == c.frames;
    FramesAbove(g, c.frames, vm.rs, vm.rp, base);
    PushedCell(vm.ip, n);
    PushFrame(g, c.ip, n, c.frames, vm.rs, vm.rp, base, vm.ip);
  }

  lemma CallTarget(g: Build, k: nat, o: nat)
    requires g.Good() && k < |g.words| && o < |g.words[k].code|
    requires g.words[k].code[o].Call? && g.words[k].code[o].target.Interpreted?
    ensures g.words[k].code[o].target.k < |g.words|
  {
    hide Build.Good;
    GoodOpcode(g, k, o);
  }

  lemma StepCall(g: Build, native: Natives, c: Cpu, vm: Vm, base: nat)
    requires g.Good() && Related(g, c, vm, base)
    requires OpAt(g.words, c).Call? && OpAt(g.words, c).target.Interpreted?
    requires var s := StepCpu(g.words, native, c);
             s.Next? ==> base + Cells(s.cpu.frames) <= |vm.rs|
    ensures StepAs(g, StepCpu(g.words, native, c), StepVm(g.Output(), native, vm), base)
  {
    hide Build.Good, Build.Output, FramesAs, Build.AddrOf, AddrEnd, NextOp, ToU32s, EnterVm, At, TailOf, OffsetOf,
      TargetsInRange, Build.Code, BaseOf, HeadLen;
    var k := OpAt(g.words, c).target.k;
    CallTarget(g, c.ip.word, c.ip.off);
    Sizes(g);
    Fetch(g, c.ip.word, c.ip.off);
    FetchOperand(g, c.ip.word, c.ip.off);
    FallsInside(g, c);
    EnterAs(g, Past(c), vm.(ip := AddrEnd(g, c.ip.word, c.ip.off)), base, k);
  }

  /** What ret finds on top of the return stack. */
  lemma TopFrame(g: Build, frames: seq<Frame>, rs: seq<uint32>, rp: int, base: nat)
    requires g.Good() && FramesAs(g, frames, rs, rp, base) && frames != []
    ensures 1 <= rp <= |rs|
    ensures var n := |frames[0].locals|;
            var x := rs[rp - 1];
            && x / 0x1_0000 == n
            && SavedAs(g, frames[0].saved, x % 0x1_0000)
            && (x % 0x1_0000 == 0 <==> frames[0].saved.Nowhere?)
            && rp - 1 - n >= base
            && FramesAs(g, frames[1..], rs, rp - 1 - n, base)
  {
    hide Build.Good;
    var f := frames[0];
    if f.saved.Pos? {
      AddrRange(g, f.saved.word, f.saved.off);
    }
    FramesAbove(g, frames[1..], rs, rp - 1 - |f.locals|, base);
  }

  lemma StepRet(g: Build, native: Natives, c: Cpu, vm: Vm, base: nat)
    requires g.Good() && Related(g, c, vm, base) && OpAt(g.words, c).Ret?
    ensures StepAs(g, StepCpu(g.words, native, c), StepVm(g.Output(), native, vm), base)
  {
    hide Build.Good, Build.Output, FramesAs, Build.AddrOf, AddrEnd, NextOp, ToU32s, At, TailOf, OffsetOf,
      TargetsInRange, Build.Code, BaseOf, HeadLen;
    if c.frames != [] {
      Sizes(g);
      Fetch(g, c.ip.word, c.ip.off);
      FetchOperand(g, c.ip.word, c.ip.off);
      TopFrame(g, c.frames, vm.rs, vm.rp, base);
    }
  }

  /** One opcode on the CPU is one pass of the machine's loop, provided the
      return stack has room for the frames that result. */
  lemma StepSimulates(g: Build, native: Natives, c: Cpu, vm: Vm, base: nat)
    requires g.Good() && Related(g, c, vm, base)
    requires var s := StepCpu(g.words, native, c);
             s.Next? ==> base + Cells(s.cpu.frames) <= |vm.rs|
    ensures StepAs(g, StepCpu(g.words, native, c), StepVm(g.Output(), native, vm), base)
  {
    match OpAt(g.words, c)
    case Const(_) => StepConst(g, native, c, vm, base);
    case GetLocal(_) => StepGetLocal(g, native, c, vm, base);
    case PutLocal(_) => StepPutLocal(g, native, c, vm, base);
    case Jump(_) => StepJump(g, native, c, vm, base);
    case JumpIf(_) => StepJump(g, native, c, vm, base);
    case JumpIfNot(_) => StepJump(g, native, c, vm, base);
    case Call(Native(_)) => StepNative(g, native, c, vm, base);
    case Call(Interpreted(_)) => StepCall(g, native, c, vm, base);
    case Call(Unresolved) =>
    case Ret => StepRet(g, native, c, vm, base);
  }

  // ----- whole runs -----

  /** Every state within n steps keeps its frames in the room above base. */
  ghost predicate RoomFor(words: seq<Word>, native: Natives, c: Cpu, n: nat, room: int)
  {
    forall m: nat | m <= n ::
      var s := RunCpu(words, native, c, m);
      s.Next? ==> Cells(s.cpu.frames) <= room
  }

  lemma RoomAfterStep(words: seq<Word>, native: Natives, c: Cpu, n: nat, room: int)
    requires n > 0 && c.ip.Pos? && RoomFor(words, native, c, n, room)
    requires StepCpu(words, native, c).Next?
    ensures Cells(StepCpu(words, native, c).cpu.frames) <= room
    ensures RoomFor(words, native, StepCpu(words, native, c).cpu, n - 1, room)
  {
    var c' := StepCpu(words, native, c).cpu;
    forall m: nat | m <= n - 1
      ensures RunCpu(words, native, c', m) == RunCpu(words, native, c, m + 1)
    {
    }
    assert RunCpu(words, native, c, 1) == RunCpu(words, native, c', 0) == Next(c');
  }

  /** n steps of the CPU are n passes of the machine's loop. The machine leaves
      its loop through the final ret exactly when the CPU has left the last
      word, and through a native case exactly when the run ends there. */
  lemma {:induction false} RunSimulates(g: Build, native: Natives, c: Cpu, vm: Vm, base: nat, n: nat)
    requires g.Good() && Related(g, c, vm, base)
    requires RoomFor(g.words, native, c, n, |vm.rs| - base)
    ensures StepAs(g, RunCpu(g.words, native, c, n), RunVm(g.Output(), native, vm, n), base)
    decreases n
  {
    hide Build.Good, Build.Output, StepVm, FramesAs, Build.AddrOf, RoomFor;
    Sizes(g);
    if n > 0 {
      var s := StepCpu(g.words, native, c);
      if s.Next? {
        RoomAfterStep(g.words, native, c, n, |vm.rs| - base);
      }
      StepSimulates(g, native, c, vm, base);
      StackKept(g, native, vm);
      if s.Next? && s.cpu.ip.Pos? {
        RunSimulates(g, native, s.cpu, StepVm(g.Output(), native, vm).vm, base, n - 1);
      }
    }
  }

  /** The machine never resizes its return stack. */
  lemma StackKept(g: Build, native: Natives, vm: Vm)
    requires g.Good()
    ensures var r := StepVm(g.Output(), native, vm);
            r.Go? || r.Exited? ==> |r.vm.rs| == |vm.rs|
  {
    hide Build.Good, Build.Output, ParseU, ParseS;
    Sizes(g);
  }

  /** The generated initialisation of word k, on a data stack and a return
      stack holding base foreign cells, represents a CPU that starts word k. */
  lemma StartSimulates(g: Build, stack: seq<int32>, rs: seq<uint32>, base: nat, k: nat)
    requires g.Good() && k < |g.words|
    requires base + 1 + g.words[k].numLocals <= |rs|
    ensures var r := EnterVm(g.Output(), Vm(0, ToU32s(stack), rs, base), g.slots.interpreted + k);
            r.Go? && Related(g, Start(g.words, k, stack), r.vm, base) && |r.vm.rs| == |rs|
  {
    hide Build.Good, Build.Output, Build.AddrOf, ParseU;
    Sizes(g);
    var c := Cpu(Nowhere, stack, []);
    assert Enter(g.words, c, k).frames[1..] == [];
    EnterAs(g, c, Vm(0, ToU32s(stack), rs, base), base, k);
  }
}
