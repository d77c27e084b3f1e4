/** T0Comp.generate as it runs: slots handed out, code elements created and
    linked, addresses stabilised, and the code block written. */
module GenerateMachine {
  import opened Base128
  import opened Program
  import opened Layout
  import opened CodeElements
  import opened VmSpec
  import opened Generate

  // ----- slots -----

  /** A reachable word, in name order: native with its C code, or interpreted. */
  datatype Decl = NativeDecl(cc: nat) | InterpretedDecl

  /** Interpreted words among the first n. */
  function InterpretedBefore(decls: seq<Decl>, n: nat): nat
    requires n <= |decls|
  {
    if n == 0 then 0 else InterpretedBefore(decls, n - 1) + if decls[n - 1].InterpretedDecl? then 1 else 0
  }

  /** Slots and switch cases agree on the C code, and lie in 7..limit. */
  ghost predicate SlotsMatch(native: map<nat, nat>, cases: map<nat, nat>, limit: nat)
  {
    && (forall cc | cc in native :: 7 <= native[cc] < limit && native[cc] in cases && cases[native[cc]] == cc)
    && (forall s | s in cases :: 7 <= s < limit)
  }

  lemma SlotsMatchNone()
    ensures SlotsMatch(map[], map[], 7)
  {}

  lemma SlotsMatchMore(native: map<nat, nat>, cases: map<nat, nat>, limit: nat, cc: nat)
    requires SlotsMatch(native, cases, limit) && limit >= 7 && cc !in native
    ensures SlotsMatch(native[cc := limit], cases[limit := cc], limit + 1)
  {}

  /** The slot of word i, native words having their C code's. */
  predicate HasSlot(decls: seq<Decl>, slots: Slots, i: nat, slot: nat)
    requires i < |decls|
  {
    match decls[i]
    case NativeDecl(cc) => cc in slots.native && slot == slots.native[cc]
    case InterpretedDecl => slot == slots.interpreted + InterpretedBefore(decls, i)
  }

  /** The C codes of the first n words, in the order in which they first
      appear. */
  function Codes(decls: seq<Decl>, n: nat): seq<nat>
    requires n <= |decls|
  {
    if n == 0 then [] else
    var codes := Codes(decls, n - 1);
    if decls[n - 1].NativeDecl? && decls[n - 1].cc !in codes then codes + [decls[n - 1].cc] else codes
  }

  /** Exactly these C codes have a slot, from 7 on in this order. */
  ghost predicate Numbered(native: map<nat, nat>, codes: seq<nat>)
  {
    && (forall j | 0 <= j < |codes| :: codes[j] in native && native[codes[j]] == 7 + j)
    && (forall cc | cc in native :: cc in codes)
  }

  lemma NumberedMore(native: map<nat, nat>, codes: seq<nat>, cc: nat)
    requires Numbered(native, codes) && cc !in codes
    ensures Numbered(native[cc := 7 + |codes|], codes + [cc])
  {
    forall j | 0 <= j < |codes| ensures codes[j] != cc {}
    assert (codes + [cc])[|codes|] == cc;
  }

  /** Slot numbers: one per C code from 7 on, in the order of the words, words
      with the same C code sharing it, and then one per interpreted word in the
      same order. */
  method AssignSlots(decls: seq<Decl>) returns (slots: Slots, cases: map<nat, nat>, slotOf: seq<nat>)
    ensures slots.interpreted == 7 + |Codes(decls, |decls|)| && SlotsMatch(slots.native, cases, slots.interpreted)
    ensures Numbered(slots.native, Codes(decls, |decls|))
    ensures |slotOf| == |decls| && forall i | 0 <= i < |decls| :: HasSlot(decls, slots, i, slotOf[i])
  {
    hide SlotsMatch;
    var curSlot := 7;
    var native: map<nat, nat> := map[];
    cases := map[];
    SlotsMatchNone();
    for i := 0 to |decls|
      invariant curSlot == 7 + |Codes(decls, i)| && SlotsMatch(native, cases, curSlot)
      invariant Numbered(native, Codes(decls, i))
      invariant forall j | 0 <= j < i && decls[j].NativeDecl? :: decls[j].cc in native
    {
      if decls[i].NativeDecl? && decls[i].cc !in native {
        SlotsMatchMore(native, cases, curSlot, decls[i].cc);
        NumberedMore(native, Codes(decls, i), decls[i].cc);
        native := native[decls[i].cc := curSlot];
        cases := cases[curSlot := decls[i].cc];
        curSlot := curSlot + 1;
      }
    }
    slots := Slots(native, curSlot);
    slotOf := [];
    for i := 0 to |decls|
      invariant |slotOf| == i && curSlot == slots.interpreted + InterpretedBefore(decls, i)
      invariant forall j | 0 <= j < i :: HasSlot(decls, slots, j, slotOf[j])
    {
      if decls[i].NativeDecl? {
        slotOf := slotOf + [native[decls[i].cc]];
      } else {
        slotOf := slotOf + [curSlot];
        curSlot := curSlot + 1;
      }
    }
  }

  // ----- elements -----

  function KindOf(e: Element): Kind
  {
    match e
    case UInt(v) => KUInt(v)
    case UIntInt(v1, v2) => KUIntInt(v1, v2)
    case UIntUInt(v1, v2) => KUIntUInt(v1, v2)
    case JumpTo(j, _) => KJump(j)
  }

  /** to_code_element: the element of an opcode, not yet linked. */
  method ToCodeElement(slots: Slots, op: Op, ghost at: nat) returns (ce: CodeElement)
    ensures fresh(ce) && ce.target == null && ce.address == -1 && ce.lastLength == 0
    ensures ce.kind == KindOf(ElementOf(slots, op, at))
  {
    var kind := match op {
      case Call(t) => KUInt(SlotOf(slots, t))
      case Const(v) => KUIntInt(1, v)
      case GetLocal(n) => KUIntUInt(2, n)
      case PutLocal(n) => KUIntUInt(3, n)
      case Jump(_) => KJump(4)
      case JumpIf(_) => KJump(5)
      case JumpIfNot(_) => KJump(6)
      case Ret => KUInt(0)
    };
    ce := new CodeElement(kind);
  }

  /** Newly made elements, nothing linked yet. */
  ghost predicate Made(g: seq<CodeElement>, kinds: seq<Kind>)
    reads g
  {
    && |g| == |kinds| && Distinct(g) && Fresh(g)
    && forall i | 0 <= i < |g| :: g[i].kind == kinds[i] && g[i].target == null
  }

  function Kinds(code: Code): (r: seq<Kind>)
    ensures |r| == |code|
  {
    seq(|code|, i requires 0 <= i < |code| => KindOf(code[i]))
  }

  /** The header and one element per opcode. */
  method MakeElements(slots: Slots, w: Word, base: nat) returns (g: seq<CodeElement>)
    ensures Made(g, Kinds(WordElements(slots, w, base)))
    ensures forall i | 0 <= i < |g| :: fresh(g[i])
  {
    ghost var kinds := Kinds(WordElements(slots, w, base));
    var head := new CodeElement(KUInt(w.numLocals));
    g := [head];
    for i := 0 to |w.code|
      invariant Made(g, kinds[..i + 1])
      invariant forall j | 0 <= j < |g| :: fresh(g[j])
    {
      var ce := ToCodeElement(slots, w.code[i], base + 1 + i);
      g := Extend(g, ce, kinds[..i + 1], kinds[i + 1]);
      assert kinds[..i + 1] + [kinds[i + 1]] == kinds[..i + 2];
    }
    assert kinds[..|w.code| + 1] == kinds;
  }

  method Extend(g: seq<CodeElement>, ce: CodeElement, ghost kinds: seq<Kind>, ghost kind: Kind)
    returns (g': seq<CodeElement>)
    requires Made(g, kinds) && ce !in g
    requires ce.kind == kind && ce.target == null && ce.address == -1 && ce.lastLength == 0
    ensures g' == g + [ce] && Made(g', kinds + [kind])
  {
    g' := g + [ce];
  }

  /** Opcode number o of w jumps to opcode number JumpGoal. */
  predicate JumpsWithin(w: Word)
  {
    forall o | 0 <= o < |w.code| && w.code[o].IsJump() ::
      w.code[o].disp.Some? && 0 <= o + 1 + w.code[o].disp.value < |w.code|
  }

  function JumpGoal(w: Word, o: nat): nat
    requires o < |w.code| && JumpsWithin(w) && w.code[o].IsJump()
  {
    o + 1 + w.code[o].disp.value
  }

  ghost predicate LinkedAt(g: seq<CodeElement>, w: Word, o: nat)
    requires |g| == 1 + |w.code| && o < |w.code| && JumpsWithin(w)
    reads g`target
  {
    g[1 + o].target == if w.code[o].IsJump() then g[1 + JumpGoal(w, o)] else null
  }

  ghost predicate Unlinked(g: seq<CodeElement>, o: nat)
    reads g`target
  {
    1 + o < |g| && g[1 + o].target == null
  }

  method FixUp(g: seq<CodeElement>, w: Word, o: nat, ce: CodeElement)
    requires |g| == 1 + |w.code| && o < |w.code| && JumpsWithin(w) && Distinct(g) && ce == g[1 + o]
    requires w.code[o].IsJump() <==> ce.kind.KJump?
    requires ce.target == null
    requires forall j | 0 <= j < o :: LinkedAt(g, w, j)
    modifies ce`target
    ensures forall j | 0 <= j <= o :: LinkedAt(g, w, j)
    ensures forall j | o < j < |w.code| && old(Unlinked(g, j)) :: Unlinked(g, j)
    ensures g[0].target == old(g[0].target)
  {
    if w.code[o].IsJump() {
      var _ := ce.SetJumpTarget(g[1 + JumpGoal(w, o)]);
    }
    forall j | 0 <= j <= o
      ensures LinkedAt(g, w, j)
    {
      if j < o {
        assert old(LinkedAt(g, w, j));
        assert g[1 + j] != ce;
      }
    }
  }

  /** fix_up of all the opcodes of a word. */
  method LinkElements(g: seq<CodeElement>, slots: Slots, w: Word, ghost base: nat)
    requires JumpsWithin(w) && Made(g, Kinds(WordElements(slots, w, base)))
    modifies g`target
    ensures forall o | 0 <= o < |w.code| :: LinkedAt(g, w, o)
    ensures g[0].target == null
  {
    for o := 0 to |w.code|
      invariant forall j | 0 <= j < o :: LinkedAt(g, w, j)
      invariant forall j | o <= j < |w.code| :: Unlinked(g, j)
      invariant g[0].target == null
    {
      assert Unlinked(g, o);
      assert g[1 + o].kind == KindOf(WordElements(slots, w, base)[1 + o]);
      FixUp(g, w, o, g[1 + o]);
    }
  }

  lemma JumpsStayWithin(words: seq<Word>, k: nat)
    requires k < |words| && GoodProgram(words)
    ensures JumpsWithin(words[k])
  {
    var w := words[k];
    assert GoodWord(words, w);
    forall o | 0 <= o < |w.code|
      ensures w.code[o].IsJump() ==> w.code[o].disp.Some? && 0 <= o + 1 + w.code[o].disp.value < |w.code|
    {
      assert GoodOp(words, w, o);
    }
  }

  /** generate_code_elements for word k, the earlier words being in dst. */
  method GenerateWord(dst: seq<CodeElement>, slots: Slots, words: seq<Word>, k: nat) returns (dst': seq<CodeElement>)
    requires k < |words| && GoodProgram(words)
    requires Stands(dst, Elements(slots, words, k)) && Fresh(dst)
    ensures Stands(dst', Elements(slots, words, k + 1)) && Fresh(dst')
    ensures dst <= dst' && forall i | |dst| <= i < |dst'| :: fresh(dst'[i])
  {
    hide JumpsWithin, WordElements, Elements, KindOf;
    var w := words[k];
    JumpsStayWithin(words, k);
    var g := MakeElements(slots, w, BaseOf(words, k));
    LinkElements(g, slots, w, BaseOf(words, k));
    dst' := dst + g;
    ElementsInRange(slots, words, words, k + 1);
    WordStands(dst, g, slots, words, k);
  }

  lemma WordStands(dst: seq<CodeElement>, g: seq<CodeElement>, slots: Slots, words: seq<Word>, k: nat)
    requires k < |words| && JumpsWithin(words[k]) && TargetsInRange(Elements(slots, words, k + 1))
    requires Stands(dst, Elements(slots, words, k)) && Distinct(dst + g)
    requires |g| == 1 + |words[k].code|
    requires forall i | 0 <= i < |g| :: g[i].kind == KindOf(WordElements(slots, words[k], BaseOf(words, k))[i])
    requires (forall o | 0 <= o < |words[k].code| :: LinkedAt(g, words[k], o)) && g[0].target == null
    ensures Stands(dst + g, Elements(slots, words, k + 1))
  {
    hide Elements, WordElements, JumpsWithin, StandsAt;
    var code, code' := Elements(slots, words, k), Elements(slots, words, k + 1);
    var own := WordElements(slots, words[k], BaseOf(words, k));
    ElementsMore(slots, words, k);
    forall i | 0 <= i < |code'|
      ensures StandsAt(dst + g, code', i)
    {
      if i < |code| {
        EarlierStands(dst, g, code, own, i);
      } else {
        OwnStands(dst, g, slots, words, k, i - |code|);
      }
    }
  }

  lemma ElementsMore(slots: Slots, words: seq<Word>, k: nat)
    requires k < |words|
    ensures Elements(slots, words, k + 1)
            == Elements(slots, words, k) + WordElements(slots, words[k], BaseOf(words, k))
  {}

  lemma EarlierStands(dst: seq<CodeElement>, g: seq<CodeElement>, code: Code, own: Code, i: nat)
    requires |dst| == |code| && |g| == |own| && TargetsInRange(code) && TargetsInRange(code + own)
    requires i < |code| && StandsAt(dst, code, i)
    ensures StandsAt(dst + g, code + own, i)
  {
    assert (code + own)[i] == code[i] && (dst + g)[i] == dst[i];
  }

  lemma OwnStands(dst: seq<CodeElement>, g: seq<CodeElement>, slots: Slots, words: seq<Word>, k: nat, i: nat)
    requires k < |words| && JumpsWithin(words[k]) && TargetsInRange(Elements(slots, words, k + 1))
    requires |dst| == |Elements(slots, words, k)| && |g| == 1 + |words[k].code| && i < |g|
    requires g[i].kind == KindOf(WordElements(slots, words[k], BaseOf(words, k))[i])
    requires if i == 0 then g[0].target == null else LinkedAt(g, words[k], i - 1)
    ensures StandsAt(dst + g, Elements(slots, words, k + 1), |dst| + i)
  {
    var code' := Elements(slots, words, k + 1);
    assert |dst| == BaseOf(words, k);
    assert code'[|dst| + i] == WordElements(slots, words[k], |dst|)[i];
  }

  /** The whole of the code block. */
  method GenerateCode(slots: Slots, words: seq<Word>) returns (gcode: seq<CodeElement>)
    requires GoodProgram(words)
    ensures Stands(gcode, Elements(slots, words, |words|)) && Fresh(gcode)
    ensures forall i | 0 <= i < |gcode| :: fresh(gcode[i])
  {
    gcode := [];
    for k := 0 to |words|
      invariant Stands(gcode, Elements(slots, words, k)) && Fresh(gcode)
      invariant forall i | 0 <= i < |gcode| :: fresh(gcode[i])
    {
      gcode := GenerateWord(gcode, slots, words, k);
    }
  }

  lemma PlacedAddress(gcode: seq<CodeElement>, lens: seq<nat>, i: nat)
    requires |gcode| == |lens| && Placed(gcode, lens) && i < |gcode|
    ensures gcode[i].address == Addr(lens, i)
  {
  }

  /** Word k starts at the place of its header, in 16 bits. */
  ghost predicate EntryAt(words: seq<Word>, lens: seq<nat>, caddr: seq<nat>, k: nat)
    requires k < |words| && k < |caddr|
  {
    BaseOf(words, k) < |lens| && caddr[k] == Addr(lens, BaseOf(words, k)) % 0x1_0000
  }

  lemma EntriesKept(words: seq<Word>, lens: seq<nat>, caddr: seq<nat>, a: nat)
    requires |caddr| < |words| && forall j | 0 <= j < |caddr| :: EntryAt(words, lens, caddr, j)
    requires BaseOf(words, |caddr|) < |lens| && a == Addr(lens, BaseOf(words, |caddr|)) % 0x1_0000
    ensures forall j | 0 <= j <= |caddr| :: EntryAt(words, lens, caddr + [a], j)
  {
    hide Addr, BaseOf;
    forall j | 0 <= j <= |caddr| ensures EntryAt(words, lens, caddr + [a], j) {
      if j < |caddr| {
        assert EntryAt(words, lens, caddr, j);
      }
    }
  }

  /** The address table: the place of each word's header. */
  method EntryTable(gcode: seq<CodeElement>, words: seq<Word>, ghost lens: seq<nat>) returns (caddr: seq<nat>)
    requires |gcode| == |lens| == BaseOf(words, |words|) && Placed(gcode, lens)
    ensures |caddr| == |words|
    ensures forall k | 0 <= k < |words| :: EntryAt(words, lens, caddr, k)
  {
    hide Placed, Addr, EntryAt;
    caddr := [];
    var i := 0;
    for k := 0 to |words|
      invariant i == BaseOf(words, k) && |caddr| == k
      invariant forall j | 0 <= j < k :: EntryAt(words, lens, caddr, j)
    {
      BaseMonotone(words, k + 1, |words|);
      PlacedAddress(gcode, lens, i);
      var a := gcode[i].address % 0x1_0000;
      EntriesKept(words, lens, caddr, a);
      caddr := caddr + [a];
      i := i + 1 + |words[k].code|;
    }
  }

  ghost predicate LocalsFitByte(words: seq<Word>)
  {
    forall k | 0 <= k < |words| :: words[k].numLocals <= 255
  }

  /** Everything after the slots are known. It raises exactly when some word
      has more locals than the single byte of its header can hold. */
  method GenerateImage(words: seq<Word>, slots: Slots, cases: map<nat, nat>)
    returns (ok: bool, im: Image, ghost g: Build)
    requires GoodProgram(words)
    requires slots.interpreted >= 7 && SlotsMatch(slots.native, cases, slots.interpreted)
    requires forall k, i | 0 <= k < |words| && 0 <= i < |words[k].code| ::
               words[k].code[i].Call? && words[k].code[i].target.Native? ==> words[k].code[i].target.cc in slots.native
    ensures ok <==> (slots.interpreted + |words| < 256 ==> LocalsFitByte(words))
    ensures ok ==> g.words == words && g.slots == slots && g.cases == cases
    ensures ok ==> g.SlotsGood() && TargetsInRange(g.Code()) && |g.lens| == BaseOf(words, |words|)
    ensures ok ==> Least(g.oneByte, g.Code(), g.lens) && im == g.Output()
  {
    hide Stands, Placed, Fresh, Least, Consistent, GoodProgram, SlotsMatch, CodeBytes, AllHeadsFit, LocalsFitByte,
      Build.SlotsGood, Build.Output, TargetsInRange;
    var oneByte := slots.interpreted + |words| < 256;
    var gcode := GenerateCode(slots, words);
    ghost var code := Elements(slots, words, |words|);
    ghost var lens := Stabilize(gcode, oneByte, code);
    var bw := new ByteWriter();
    ok := EncodeAll(gcode, oneByte, bw, code, lens);
    BelowFirstInterpreted(slots, cases);
    HeadsFit(slots, words, oneByte);
    im := Image([], [], 0, map[], oneByte);
    g := Build(words, slots, cases, oneByte, lens);
    if ok {
      Sized(gcode, code, lens, oneByte);
      var caddr := EntryTable(gcode, words, lens);
      im := Image(bw.bytes, caddr, slots.interpreted, cases, oneByte);
      Assembled(g, im);
    }
  }

  lemma BelowFirstInterpreted(slots: Slots, cases: map<nat, nat>)
    requires SlotsMatch(slots.native, cases, slots.interpreted)
    ensures forall cc | cc in slots.native :: slots.native[cc] < slots.interpreted
  {
  }

  lemma Sized(gcode: seq<CodeElement>, code: Code, lens: seq<nat>, oneByte: bool)
    requires Stands(gcode, code) && Least(oneByte, code, lens)
    ensures TargetsInRange(code) && |lens| == |gcode| == |code|
  {
  }

  lemma Assembled(g: Build, im: Image)
    requires g.slots.interpreted >= 7 && SlotsMatch(g.slots.native, g.cases, g.slots.interpreted)
    requires forall k, i | 0 <= k < |g.words| && 0 <= i < |g.words[k].code| ::
               g.words[k].code[i].Call? && g.words[k].code[i].target.Native? ==>
                 g.words[k].code[i].target.cc in g.slots.native
    requires g.oneByte == (g.slots.interpreted + |g.words| < 256)
    requires |g.lens| == BaseOf(g.words, |g.words|) && TargetsInRange(Elements(g.slots, g.words, |g.words|))
    requires im.code == CodeBytes(g.oneByte, Elements(g.slots, g.words, |g.words|), g.lens, |g.lens|)
    requires |im.caddr| == |g.words| && forall k | 0 <= k < |g.words| :: EntryAt(g.words, g.lens, im.caddr, k)
    requires im.interpreted == g.slots.interpreted && im.cases == g.cases && im.oneByte == g.oneByte
    ensures g.SlotsGood() && TargetsInRange(g.Code()) && im == g.Output()
  {
    hide CodeBytes, Elements, Addr, BaseOf;
    forall k | 0 <= k < |g.words| ensures im.caddr[k] == g.Output().caddr[k] {
      assert EntryAt(g.words, g.lens, im.caddr, k);
    }
    assert im.caddr == g.Output().caddr;
  }

  /** Only the headers can fail to fit one byte. */
  lemma HeadsFit(slots: Slots, words: seq<Word>, oneByte: bool)
    requires GoodProgram(words) && slots.interpreted >= 7
    requires oneByte == (slots.interpreted + |words| < 256)
    requires forall cc | cc in slots.native :: slots.native[cc] < slots.interpreted
    ensures var code := Elements(slots, words, |words|);
            AllHeadsFit(oneByte, code) <==> (oneByte ==> LocalsFitByte(words))
  {
    var code := Elements(slots, words, |words|);
    if oneByte {
      if AllHeadsFit(oneByte, code) {
        forall k | 0 <= k < |words|
          ensures words[k].numLocals <= 255
        {
          ElementIndex(slots, words, k, |words|, 0);
          assert HeadFits(oneByte, code[BaseOf(words, k)]);
        }
      } else {
        var i :| 0 <= i < |code| && !HeadFits(oneByte, code[i]);
        UnfitIsHeader(slots, words, |words|, i);
      }
    }
  }

  lemma {:induction false} UnfitIsHeader(slots: Slots, words: seq<Word>, n: nat, i: nat)
    requires GoodProgram(words) && n <= |words| && slots.interpreted >= 7 && slots.interpreted + |words| < 256
    requires forall cc | cc in slots.native :: slots.native[cc] < slots.interpreted
    requires i < |Elements(slots, words, n)| && !HeadFits(true, Elements(slots, words, n)[i])
    ensures exists k :: 0 <= k < n && words[k].numLocals > 255
    decreases n
  {
    if i < BaseOf(words, n - 1) {
      UnfitIsHeader(slots, words, n - 1, i);
    } else {
      if i > BaseOf(words, n - 1) {
        OpElementFits(slots, words, n, i);
      }
    }
  }

  lemma OpElementFits(slots: Slots, words: seq<Word>, n: nat, i: nat)
    requires GoodProgram(words) && 0 < n <= |words| && slots.interpreted >= 7 && slots.interpreted + |words| < 256
    requires forall cc | cc in slots.native :: slots.native[cc] < slots.interpreted
    requires BaseOf(words, n - 1) < i < |Elements(slots, words, n)|
    ensures HeadFits(true, Elements(slots, words, n)[i])
  {
    var o := i - BaseOf(words, n - 1) - 1;
    assert GoodWord(words, words[n - 1]);
    assert GoodOp(words, words[n - 1], o);
  }
}
