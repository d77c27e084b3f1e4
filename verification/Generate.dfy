/** From resolved words to the code block: the code elements of every word, in
    slot order, and the image that T0Comp.generate writes out. */
module Generate {
  import opened Wrappers
  import opened Program
  import opened Layout
  import opened VmSpec

  /** Slot numbers: those of native C code, and the first interpreted one. */
  datatype Slots = Slots(native: map<nat, nat>, interpreted: nat)

  function SlotOf(slots: Slots, t: Target): nat
  {
    match t
    case Native(cc) => if cc in slots.native then slots.native[cc] else 0
    case Interpreted(k) => slots.interpreted + k
    case Unresolved => 0
  }

  function JumpTarget(at: nat, disp: Option<int>): nat
  {
    var t := at + 1 + disp.GetOr(0);
    if t < 0 then 0 else t
  }

  /** to_code_element and fix_up, for the opcode whose element is number at. */
  function ElementOf(slots: Slots, op: Op, at: nat): Element
  {
    match op
    case Call(t) => UInt(SlotOf(slots, t))
    case Const(v) => UIntInt(1, v)
    case GetLocal(n) => UIntUInt(2, n)
    case PutLocal(n) => UIntUInt(3, n)
    case Jump(d) => JumpTo(4, JumpTarget(at, d))
    case JumpIf(d) => JumpTo(5, JumpTarget(at, d))
    case JumpIfNot(d) => JumpTo(6, JumpTarget(at, d))
    case Ret => UInt(0)
  }

  /** The header, then one element per opcode; the header is number base. */
  function WordElements(slots: Slots, w: Word, base: nat): (r: Code)
    ensures |r| == 1 + |w.code|
  {
    [UInt(w.numLocals)] + seq(|w.code|, i requires 0 <= i < |w.code| => ElementOf(slots, w.code[i], base + 1 + i))
  }

  /** Number of elements of the first k words: the number of word k's header. */
  function BaseOf(words: seq<Word>, k: nat): nat
    requires k <= |words|
  {
    if k == 0 then 0 else BaseOf(words, k - 1) + 1 + |words[k - 1].code|
  }

  function Elements(slots: Slots, words: seq<Word>, k: nat): (r: Code)
    requires k <= |words|
    ensures |r| == BaseOf(words, k)
  {
    if k == 0 then [] else Elements(slots, words, k - 1) + WordElements(slots, words[k - 1], BaseOf(words, k - 1))
  }

  /** Everything that determines the generated file. */
  datatype Build = Build(words: seq<Word>, slots: Slots, cases: map<nat, nat>, oneByte: bool, lens: seq<nat>)
  {
    function Code(): Code
    {
      Elements(slots, words, |words|)
    }

    /** The address of opcode o of word k, or of the end of word k. */
    function AddrOf(k: nat, o: nat): nat
      requires k < |words| && o < |words[k].code| && |lens| == BaseOf(words, |words|)
    {
      BaseMonotone(words, k + 1, |words|);
      Addr(lens, BaseOf(words, k) + 1 + o)
    }

    function Entry(k: nat): nat
      requires k < |words| && |lens| == BaseOf(words, |words|)
    {
      BaseMonotone(words, k, |words|);
      Addr(lens, BaseOf(words, k))
    }

    function Output(): Image
      requires |lens| == BaseOf(words, |words|) && TargetsInRange(Code())
    {
      Image.Image(CodeBytes(oneByte, Code(), lens, |Code()|),
                  seq(|words|, k requires 0 <= k < |words| => Entry(k) % 0x1_0000),
                  slots.interpreted, cases, oneByte)
    }

    /** Every native call has a slot of its own C code, between the seven
        fixed opcodes and the interpreted words. */
    ghost predicate SlotsGood()
    {
      && slots.interpreted >= 7
      && (forall cc | cc in slots.native ::
            7 <= slots.native[cc] < slots.interpreted
            && slots.native[cc] in cases && cases[slots.native[cc]] == cc)
      && (forall k, i | 0 <= k < |words| && 0 <= i < |words[k].code| ::
            words[k].code[i].Call? && words[k].code[i].target.Native? ==> words[k].code[i].target.cc in slots.native)
      && oneByte == (slots.interpreted + |words| < 256)
    }

    /** What the generated file can represent: 16-bit code addresses, 16-bit
        local counts, and a count that its one-byte header can carry. */
    predicate Fits()
      requires |lens| == BaseOf(words, |words|)
    {
      && Total(lens) < 0x1_0000
      && slots.interpreted + |words| <= 0x1_0000_0000
      && forall k | 0 <= k < |words| :: words[k].numLocals < if oneByte then 128 else 0x1_0000
    }

    ghost predicate Good()
    {
      && GoodProgram(words)
      && SlotsGood()
      && TargetsInRange(Code())
      && Consistent(oneByte, Code(), lens)
      && |lens| == BaseOf(words, |words|)
      && Fits()
    }
  }

  lemma {:induction false} BaseMonotone(words: seq<Word>, j: nat, k: nat)
    requires j <= k <= |words|
    ensures BaseOf(words, j) <= BaseOf(words, k)
    decreases k
  {
    if j < k {
      BaseMonotone(words, j, k - 1);
    }
  }

  /** Where element i of word j is in the list of the first k words. */
  lemma {:induction false} ElementIndex(slots: Slots, words: seq<Word>, j: nat, k: nat, i: nat)
    requires j < k <= |words| && i <= |words[j].code|
    ensures BaseOf(words, j) + 1 + |words[j].code| <= BaseOf(words, k)
    ensures Elements(slots, words, k)[BaseOf(words, j) + i] == WordElements(slots, words[j], BaseOf(words, j))[i]
    decreases k
  {
    hide WordElements;
    if j < k - 1 {
      ElementIndex(slots, words, j, k - 1, i);
    }
  }

  /** In code the word builder can produce, all jump targets are elements. */
  lemma {:induction false} ElementsInRange(slots: Slots, words: seq<Word>, all: seq<Word>, k: nat)
    requires k <= |words|
    requires forall j | 0 <= j < k :: GoodWord(all, words[j])
    ensures TargetsInRange(Elements(slots, words, k))
    decreases k
  {
    if k > 0 {
      ElementsInRange(slots, words, all, k - 1);
      var w := words[k - 1];
      var b := BaseOf(words, k - 1);
      var e := Elements(slots, words, k);
      forall i | 0 <= i < |e| && e[i].JumpTo?
        ensures e[i].target < |e|
      {
        if i < b {
          assert e[i] == Elements(slots, words, k - 1)[i];
        } else {
          var o := i - b - 1;
          assert e[i] == WordElements(slots, w, b)[i - b];
          assert GoodOp(all, w, o);
        }
      }
    }
  }
}
