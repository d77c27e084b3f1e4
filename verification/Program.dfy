/** Opcodes, words, and the reference semantics: what Opcode.run does on the
    compile-time CPU. */
module Program {
  import opened Base128
  import opened Wrappers

  /** What a call opcode refers to. A native word is named by its C code: two
      native words with the same C code are one. A call by name has no target
      until it is resolved. */
  datatype Target = Native(cc: nat) | Interpreted(k: nat) | Unresolved

  datatype Op =
    | Call(target: Target)
    | Const(v: int32)
    | GetLocal(num: nat)
    | PutLocal(num: nat)
    | Jump(disp: Option<int>)
    | JumpIf(disp: Option<int>)
    | JumpIfNot(disp: Option<int>)
    | Ret
  {
    predicate IsJump() { Jump? || JumpIf? || JumpIfNot? }

    predicate MayFallThrough()
    {
      match this
      case Ret => false
      case Jump(d) => d == Some(0)
      case _ => true
    }

    /** Net number of stack elements; 0 for a call, which is looked up. */
    function StackAction(): int
    {
      match this
      case Const(_) => 1
      case GetLocal(_) => 1
      case PutLocal(_) => -1
      case JumpIf(_) => -1
      case JumpIfNot(_) => -1
      case _ => 0
    }
  }

  datatype Word = Word(numLocals: nat, code: seq<Op>)

  /** What the native words do to a data stack (top last): a new stack, or the
      end of the run. */
  type Natives = (nat, seq<int32>) -> Option<seq<int32>>

  /** Where the next opcode is: an offset in a word, or nowhere. */
  datatype Ip = Pos(word: nat, off: int) | Nowhere

  /** An activation: the caller's instruction pointer and the local variables,
      None while a variable has not been written. */
  datatype Frame = Frame(saved: Ip, locals: seq<Option<int32>>)

  /** The innermost frame comes first. */
  datatype Cpu = Cpu(ip: Ip, stack: seq<int32>, frames: seq<Frame>)

  /** One step: a new state, the end of the run inside a native word, or an
      operation that has no meaning (stack underflow, no such local, ...). */
  datatype Step = Next(cpu: Cpu) | Stopped | Stuck

  function Top(s: seq<int32>): int32
    requires s != []
  {
    s[|s| - 1]
  }

  function Pop(s: seq<int32>): seq<int32>
    requires s != []
  {
    s[..|s| - 1]
  }

  function Enter(words: seq<Word>, c: Cpu, k: nat): Cpu
    requires k < |words|
  {
    Cpu(Pos(k, 0), c.stack, [Frame(c.ip, seq(words[k].numLocals, _ => None))] + c.frames)
  }

  function Exit(c: Cpu): Cpu
    requires c.frames != []
  {
    Cpu(c.frames[0].saved, c.stack, c.frames[1..])
  }

  function Branch(c: Cpu, taken: bool, disp: Option<int>): Step
    requires c.ip.Pos?
  {
    if !taken then Next(c)
    else if disp.None? then Stuck
    else Next(c.(ip := Pos(c.ip.word, c.ip.off + disp.value)))
  }

  /** The opcode at the instruction pointer, if there is one. */
  predicate InCode(words: seq<Word>, c: Cpu)
  {
    c.ip.Pos? && c.ip.word < |words| && 0 <= c.ip.off < |words[c.ip.word].code|
  }

  function OpAt(words: seq<Word>, c: Cpu): Op
    requires InCode(words, c)
  {
    words[c.ip.word].code[c.ip.off]
  }

  function StepCpu(words: seq<Word>, native: Natives, c: Cpu): Step
  {
    if !InCode(words, c) then Stuck
    else Run(words, native, OpAt(words, c), c.(ip := Pos(c.ip.word, c.ip.off + 1)))
  }

  /** Opcode.run, the instruction pointer being already past the opcode. */
  function Run(words: seq<Word>, native: Natives, op: Op, c: Cpu): Step
    requires c.ip.Pos?
  {
    match op
    case Const(v) => Next(c.(stack := c.stack + [v]))
    case GetLocal(n) =>
      if c.frames == [] || n >= |c.frames[0].locals| || c.frames[0].locals[n].None? then Stuck
      else Next(c.(stack := c.stack + [c.frames[0].locals[n].value]))
    case PutLocal(n) =>
      if c.stack == [] || c.frames == [] || n >= |c.frames[0].locals| then Stuck
      else
        var f := c.frames[0];
        Next(Cpu(c.ip, Pop(c.stack),
                 [f.(locals := f.locals[n := Some(Top(c.stack))])] + c.frames[1..]))
    case Jump(d) => Branch(c, true, d)
    case JumpIf(d) =>
      if c.stack == [] then Stuck
      else Branch(c.(stack := Pop(c.stack)), Top(c.stack) != 0, d)
    case JumpIfNot(d) =>
      if c.stack == [] then Stuck
      else Branch(c.(stack := Pop(c.stack)), Top(c.stack) == 0, d)
    case Call(Native(cc)) =>
      (match native(cc, c.stack)
       case None => Stopped
       case Some(s) => Next(c.(stack := s)))
    case Call(Interpreted(k)) =>
      if k >= |words| then Stuck else Next(Enter(words, c, k))
    case Call(Unresolved) => Stuck
    case Ret =>
      if c.frames == [] then Stuck else Next(Exit(c))
  }

  /** The state after n steps; a run is over once the pointer is nowhere. */
  function RunCpu(words: seq<Word>, native: Natives, c: Cpu, n: nat): Step
    decreases n
  {
    if n == 0 || c.ip.Nowhere? then Next(c)
    else
      match StepCpu(words, native, c)
      case Next(c') => RunCpu(words, native, c', n - 1)
      case s => s
  }

  /** A run of word k on a given stack, from outside any word. */
  function Start(words: seq<Word>, k: nat, stack: seq<int32>): Cpu
    requires k < |words|
  {
    Enter(words, Cpu(Nowhere, stack, []), k)
  }

  lemma {:induction false} RunCpuSplit(words: seq<Word>, native: Natives, c: Cpu, m: nat, n: nat)
    ensures RunCpu(words, native, c, m + n) ==
            (match RunCpu(words, native, c, m)
             case Next(c') => RunCpu(words, native, c', n)
             case s => s)
    decreases m
  {
    if m > 0 && c.ip.Pos? && StepCpu(words, native, c).Next? {
      RunCpuSplit(words, native, StepCpu(words, native, c).cpu, m - 1, n);
    }
  }

  /** Cells that the frames take on the return stack. */
  function Cells(frames: seq<Frame>): nat
  {
    if frames == [] then 0 else 1 + |frames[0].locals| + Cells(frames[1..])
  }

  // ----- code that the word builder can produce -----

  predicate GoodOp(words: seq<Word>, w: Word, i: nat)
    requires i < |w.code|
  {
    var op := w.code[i];
    && (op.IsJump() ==> op.disp.Some? && 0 <= i + 1 + op.disp.value < |w.code|)
    && (op.GetLocal? || op.PutLocal? ==> op.num < w.numLocals)
    && (op.Call? ==> !op.target.Unresolved? && (op.target.Interpreted? ==> op.target.k < |words|))
  }

  predicate GoodWord(words: seq<Word>, w: Word)
  {
    && w.code != []
    && !w.code[|w.code| - 1].MayFallThrough()
    && forall i | 0 <= i < |w.code| :: GoodOp(words, w, i)
  }

  predicate GoodProgram(words: seq<Word>)
  {
    forall k | 0 <= k < |words| :: GoodWord(words, words[k])
  }
}
