/** Structured control flow preserves meaning: the opcodes of a body, run on
    the CPU, do what the body means. */
module StructuredRun {
  import opened Wrappers
  import opened Program
  import opened BuilderSpec
  import opened Structured

  /** seg stands in code at offset o. */
  predicate Holds(code: seq<Op>, o: nat, seg: seq<Op>)
  {
    o + |seg| <= |code| && code[o..o + |seg|] == seg
  }

  /** The words are what the builder makes of the sources; a ret is added when
      control can reach the end. */
  predicate Compiled(p: seq<Source>, words: seq<Word>)
  {
    && |words| == |p|
    && forall k | 0 <= k < |p| ::
         && words[k].numLocals == p[k].numLocals
         && words[k].code == WordCode(p[k].body)
  }

  function WordCode(body: Stmt): seq<Op>
  {
    Code(body) + if Reaches(body, true) then [Ret] else []
  }

  /** Everything that stays the same while one activation runs. */
  datatype Act = Act(words: seq<Word>, p: seq<Source>, native: Natives, k: nat, saved: Ip, rest: seq<Frame>)
  {
    predicate Valid()
    {
      Compiled(p, words) && k < |words|
    }

    function At(o: int, m: Mem): Cpu
    {
      Cpu(Pos(k, o), m.stack, [Frame(saved, m.locals)] + rest)
    }

    predicate Has(o: nat, seg: seq<Op>)
      requires Valid()
    {
      Holds(words[k].code, o, seg)
    }

    /** n steps from offset o with memory m do what out says, the code at o
        being len opcodes long; running out of fuel means still running after
        more steps than there was fuel. */
    ghost predicate Does(o: nat, m: Mem, n: nat, out: Out, len: nat, fuel: nat)
      requires Valid()
    {
      var r := RunCpu(words, native, At(o, m), n);
      match out
      case Fell(m') => r == Next(At(o + len, m'))
      case Returned(m') => r == Next(Cpu(saved, m'.stack, rest))
      case Ended => r == Stopped
      case GotStuck => r == Stuck
      case OutOfFuel => r.Next? && r.cpu.ip.Pos? && n > fuel
    }
  }

  // ----- putting runs together -----

  /** After n1 steps to offset o1, what the rest does is what the whole does. */
  lemma Continue(a: Act, o: nat, m: Mem, n1: nat, o1: nat, m1: Mem, n2: nat, out: Out, len1: nat, len: nat, fuel: nat)
    requires a.Valid()
    requires RunCpu(a.words, a.native, a.At(o, m), n1) == Next(a.At(o1, m1))
    requires a.Does(o1, m1, n2, out, len1, fuel)
    requires out.Fell? ==> o1 + len1 == o + len
    ensures a.Does(o, m, n1 + n2, out, len, fuel)
  {
    hide Compiled, RunCpu;
    RunCpuSplit(a.words, a.native, a.At(o, m), n1, n2);
  }

  /** The same when at least one step has been made and fuel has been spent. */
  lemma ContinueSpent(a: Act, o: nat, m: Mem, n1: nat, o1: nat, m1: Mem, n2: nat, out: Out,
                      len1: nat, len: nat, fuel: nat)
    requires a.Valid() && n1 > 0 && fuel > 0
    requires RunCpu(a.words, a.native, a.At(o, m), n1) == Next(a.At(o1, m1))
    requires a.Does(o1, m1, n2, out, len1, fuel - 1)
    requires out.Fell? ==> o1 + len1 == o + len
    ensures a.Does(o, m, n1 + n2, out, len, fuel)
  {
    hide Compiled, RunCpu;
    RunCpuSplit(a.words, a.native, a.At(o, m), n1, n2);
  }

  lemma TwoRuns(a: Act, o: nat, m: Mem, n1: nat, o1: nat, m1: Mem, n2: nat, o2: nat, m2: Mem)
    requires RunCpu(a.words, a.native, a.At(o, m), n1) == Next(a.At(o1, m1))
    requires RunCpu(a.words, a.native, a.At(o1, m1), n2) == Next(a.At(o2, m2))
    ensures RunCpu(a.words, a.native, a.At(o, m), n1 + n2) == Next(a.At(o2, m2))
  {
    RunCpuSplit(a.words, a.native, a.At(o, m), n1, n2);
  }

  /** The first n1 opcodes already decide the outcome. */
  lemma Decided(a: Act, o: nat, m: Mem, n: nat, out: Out, len1: nat, len: nat, fuel: nat)
    requires a.Valid() && a.Does(o, m, n, out, len1, fuel) && !out.Fell?
    ensures a.Does(o, m, n, out, len, fuel)
  {
  }

  lemma Landed(a: Act, o: nat, m: Mem, n: nat, m': Mem, len: nat, fuel: nat)
    requires a.Valid() && a.Does(o, m, n, Fell(m'), len, fuel)
    ensures RunCpu(a.words, a.native, a.At(o, m), n) == Next(a.At(o + len, m'))
  {
  }

  lemma SubCode(a: Act, o: nat, x: seq<Op>, y: seq<Op>)
    requires a.Valid() && a.Has(o, x + y)
    ensures a.Has(o, x) && a.Has(o + |x|, y)
  {
    var c := a.words[a.k].code;
    assert c[o..o + |x|] == (x + y)[..|x|];
    assert c[o + |x|..o + |x| + |y|] == (x + y)[|x|..];
  }

  /** A single opcode at offset o. */
  lemma OneOp(a: Act, o: nat, op: Op)
    requires a.Valid() && a.Has(o, [op])
    ensures o < |a.words[a.k].code| && a.words[a.k].code[o] == op
  {
    assert a.words[a.k].code[o..o + 1][0] == op;
  }

  lemma OneStep(a: Act, o: nat, op: Op, m: Mem)
    requires a.Valid() && a.Has(o, [op])
    ensures var s := Run(a.words, a.native, op, a.At(o + 1, m));
            RunCpu(a.words, a.native, a.At(o, m), 1) == s
  {
    OneOp(a, o, op);
    var c := a.At(o, m);
    assert StepCpu(a.words, a.native, c) == Run(a.words, a.native, op, a.At(o + 1, m));
    if StepCpu(a.words, a.native, c).Next? {
      assert RunCpu(a.words, a.native, StepCpu(a.words, a.native, c).cpu, 0) == StepCpu(a.words, a.native, c);
    }
  }

  /** A jump opcode: on to the target or to the next opcode. */
  lemma JumpStep(a: Act, o: nat, kind: JumpKind, d: int, m: Mem)
    requires a.Valid() && a.Has(o, [JumpOp(kind, Some(d))])
    requires kind != Always ==> m.stack != []
    ensures var m' := if kind == Always then m else m.(stack := Pop(m.stack));
            var o' := if kind == Always || Taken(kind, Top(m.stack)) then o + 1 + d else o + 1;
            RunCpu(a.words, a.native, a.At(o, m), 1) == Next(a.At(o', m'))
  {
    OneStep(a, o, JumpOp(kind, Some(d)), m);
  }

  lemma JumpStuck(a: Act, o: nat, kind: JumpKind, d: int, m: Mem)
    requires a.Valid() && a.Has(o, [JumpOp(kind, Some(d))])
    requires kind != Always && m.stack == []
    ensures RunCpu(a.words, a.native, a.At(o, m), 1) == Stuck
  {
    OneStep(a, o, JumpOp(kind, Some(d)), m);
  }

  /** A step with no successor ends the run. */
  lemma StopAfter(a: Act, o: nat, m: Mem, n1: nat, o1: nat, m1: Mem, s: Step)
    requires RunCpu(a.words, a.native, a.At(o, m), n1) == Next(a.At(o1, m1))
    requires RunCpu(a.words, a.native, a.At(o1, m1), 1) == s
    ensures RunCpu(a.words, a.native, a.At(o, m), n1 + 1) == s
  {
    RunCpuSplit(a.words, a.native, a.At(o, m), n1, 1);
  }

  // ----- one statement -----

  /** The code of s at offset o does what s means, with any fuel. */
  lemma {:induction false} ExecRuns(a: Act, o: nat, s: Stmt, m: Mem, fuel: nat) returns (n: nat)
    requires a.Valid() && a.Has(o, Code(s))
    ensures a.Does(o, m, n, Exec(a.p, a.native, s, m, fuel), |Code(s)|, fuel)
    decreases fuel, s, 1
  {
    hide Act.Does, Compiled, Holds, RunCpu;
    match s
    case Skip => n := SkipRuns(a, o, m, fuel);
    case Seq(s1, s2) => n := SeqRuns(a, o, s, m, fuel);
    case If(not, body) => n := IfRuns(a, o, s, m, fuel);
    case IfElse(not, s1, s2) => n := IfElseRuns(a, o, s, m, fuel);
    case Loop(kind, body) => n := LoopRuns(a, o, s, m, fuel);
    case While(cond, body) => n := WhileRuns(a, o, s, m, fuel);
    case Invoke(Interpreted(j)) => n := CallRuns(a, o, j, m, fuel);
    case _ => n := PlainRuns(a, o, s, m, fuel);
  }

  lemma SkipRuns(a: Act, o: nat, m: Mem, fuel: nat) returns (n: nat)
    requires a.Valid()
    ensures a.Does(o, m, n, Fell(m), 0, fuel)
  {
    n := 0;
  }

  /** The opcodes that are one step. */
  lemma PlainRuns(a: Act, o: nat, s: Stmt, m: Mem, fuel: nat) returns (n: nat)
    requires a.Valid() && a.Has(o, Code(s))
    requires s.Lit? || s.Get? || s.Put? || s.Return? || s.Named? || (s.Invoke? && !s.target.Interpreted?)
    ensures a.Does(o, m, n, Exec(a.p, a.native, s, m, fuel), |Code(s)|, fuel)
  {
    hide Compiled, Holds, RunCpu;
    n := 1;
    OneStep(a, o, Code(s)[0], m);
    assert a.At(o + 1, m).frames[1..] == a.rest;
  }

  lemma SeqIs(s: Stmt)
    requires s.Seq?
    ensures Code(s) == Code(s.s1) + Code(s.s2)
  {
  }

  lemma SeqRuns(a: Act, o: nat, s: Stmt, m: Mem, fuel: nat) returns (n: nat)
    requires a.Valid() && s.Seq? && a.Has(o, Code(s))
    ensures a.Does(o, m, n, Exec(a.p, a.native, s, m, fuel), |Code(s)|, fuel)
    decreases fuel, s, 0
  {
    hide Compiled, Holds, RunCpu, Act.Does, Act.At, Code;
    SeqIs(s);
    SubCode(a, o, Code(s.s1), Code(s.s2));
    n := ExecRuns(a, o, s.s1, m, fuel);
    var r1 := Exec(a.p, a.native, s.s1, m, fuel);
    if r1.Fell? {
      Landed(a, o, m, n, r1.mem, |Code(s.s1)|, fuel);
      var n2 := ExecRuns(a, o + |Code(s.s1)|, s.s2, r1.mem, fuel);
      Continue(a, o, m, n, o + |Code(s.s1)|, r1.mem, n2, Exec(a.p, a.native, s.s2, r1.mem, fuel),
               |Code(s.s2)|, |Code(s)|, fuel);
      n := n + n2;
    } else {
      Decided(a, o, m, n, r1, |Code(s.s1)|, |Code(s)|, fuel);
    }
  }

  lemma IfRuns(a: Act, o: nat, s: Stmt, m: Mem, fuel: nat) returns (n: nat)
    requires a.Valid() && s.If? && a.Has(o, Code(s))
    ensures a.Does(o, m, n, Exec(a.p, a.native, s, m, fuel), |Code(s)|, fuel)
    decreases fuel, s, 0
  {
    hide Compiled, Holds, RunCpu;
    var kind := if s.not then IfTrue else IfFalse;
    var len := |Code(s.body)|;
    SubCode(a, o, [JumpOp(kind, Some(len))], Code(s.body));
    n := 1;
    if m.stack == [] {
      JumpStuck(a, o, kind, len, m);
    } else {
      JumpStep(a, o, kind, len, m);
      var m1 := m.(stack := Pop(m.stack));
      if !Taken(kind, Top(m.stack)) {
        var n2 := ExecRuns(a, o + 1, s.body, m1, fuel);
        Continue(a, o, m, 1, o + 1, m1, n2, Exec(a.p, a.native, s.body, m1, fuel), len, len + 1, fuel);
        n := 1 + n2;
      }
    }
  }

  lemma IfElseIs(s: Stmt)
    requires s.IfElse?
    ensures Code(s) == [JumpOp(if s.not then IfTrue else IfFalse, Some(|Code(s.s1)| + 1))] + Code(s.s1)
                       + [Jump(Some(|Code(s.s2)|))] + Code(s.s2)
  {
  }

  lemma IfElseRuns(a: Act, o: nat, s: Stmt, m: Mem, fuel: nat) returns (n: nat)
    requires a.Valid() && s.IfElse? && a.Has(o, Code(s))
    ensures a.Does(o, m, n, Exec(a.p, a.native, s, m, fuel), |Code(s)|, fuel)
    decreases fuel, s, 0
  {
    hide Compiled, Holds, RunCpu, Act.Does, Code, Act.At;
    IfElseIs(s);
    var kind := if s.not then IfTrue else IfFalse;
    var len1, len2 := |Code(s.s1)|, |Code(s.s2)|;
    var j1, j2 := JumpOp(kind, Some(len1 + 1)), Jump(Some(len2));
    SubCode(a, o, [j1] + Code(s.s1) + [j2], Code(s.s2));
    SubCode(a, o, [j1] + Code(s.s1), [j2]);
    SubCode(a, o, [j1], Code(s.s1));
    if m.stack == [] {
      JumpStuck(a, o, kind, len1 + 1, m);
      n := StuckNow(a, o, m, |Code(s)|, fuel);
    } else {
      JumpStep(a, o, kind, len1 + 1, m);
      var m1 := m.(stack := Pop(m.stack));
      if !Taken(kind, Top(m.stack)) {
        var n1 := ExecRuns(a, o + 1, s.s1, m1, fuel);
        var r1 := Exec(a.p, a.native, s.s1, m1, fuel);
        n := ThenJump(a, o + 1, s.s1, m1, n1, j2, len2, fuel);
        Continue(a, o, m, 1, o + 1, m1, n, r1, len1 + 1 + len2, |Code(s)|, fuel);
        n := 1 + n;
      } else {
        var o2 := o + 1 + len1 + 1;
        var n2 := ExecRuns(a, o2, s.s2, m1, fuel);
        Continue(a, o, m, 1, o2, m1, n2, Exec(a.p, a.native, s.s2, m1, fuel), len2, |Code(s)|, fuel);
        n := 1 + n2;
      }
    }
  }

  lemma StuckNow(a: Act, o: nat, m: Mem, len: nat, fuel: nat) returns (n: nat)
    requires a.Valid() && RunCpu(a.words, a.native, a.At(o, m), 1) == Stuck
    ensures a.Does(o, m, n, GotStuck, len, fuel)
  {
    n := 1;
  }

  /** The branch before else, with the jump over the other branch. */
  lemma ThenJump(a: Act, o: nat, s: Stmt, m: Mem, n1: nat, j: Op, d: nat, fuel: nat) returns (n: nat)
    requires a.Valid() && j == Jump(Some(d)) && a.Has(o + |Code(s)|, [j])
    requires a.Does(o, m, n1, Exec(a.p, a.native, s, m, fuel), |Code(s)|, fuel)
    ensures a.Does(o, m, n, Exec(a.p, a.native, s, m, fuel), |Code(s)| + 1 + d, fuel)
  {
    hide Compiled, Holds, RunCpu;
    var r := Exec(a.p, a.native, s, m, fuel);
    n := n1;
    if r.Fell? {
      JumpStep(a, o + |Code(s)|, Always, d, r.mem);
      TwoRuns(a, o, m, n1, o + |Code(s)|, r.mem, 1, o + |Code(s)| + 1 + d, r.mem);
      n := n1 + 1;
    }
  }

  lemma LoopRuns(a: Act, o: nat, s: Stmt, m: Mem, fuel: nat) returns (n: nat)
    requires a.Valid() && s.Loop? && a.Has(o, Code(s))
    ensures a.Does(o, m, n, Exec(a.p, a.native, s, m, fuel), |Code(s)|, fuel)
    decreases fuel, s, 0
  {
    hide Compiled, Holds, RunCpu, Act.Does, Act.At, Code;
    LoopIs(s);
    var len := |Code(s.body)|;
    SubCode(a, o, Code(s.body), [JumpOp(s.kind, Some(-len - 1))]);
    n := ExecRuns(a, o, s.body, m, fuel);
    var r1 := Exec(a.p, a.native, s.body, m, fuel);
    if r1.Fell? {
      n := LoopBack(a, o, s, m, n, r1.mem, fuel);
    } else {
      Decided(a, o, m, n, r1, len, |Code(s)|, fuel);
    }
  }

  /** What a loop means once its body has fallen through with memory m1. */
  function AfterBody(a: Act, s: Stmt, m1: Mem, fuel: nat): Out
    requires s.Loop?
  {
    if s.kind != Always && m1.stack == [] then GotStuck
    else
      var m2 := if s.kind == Always then m1 else m1.(stack := Pop(m1.stack));
      if s.kind != Always && !Taken(s.kind, Top(m1.stack)) then Fell(m2)
      else if fuel == 0 then OutOfFuel
      else Exec(a.p, a.native, s, m2, fuel - 1)
  }

  lemma LoopIs(s: Stmt)
    requires s.Loop?
    ensures Code(s) == Code(s.body) + [JumpOp(s.kind, Some(-|Code(s.body)| - 1))]
  {
  }

  lemma LoopBack(a: Act, o: nat, s: Stmt, m: Mem, n1: nat, m1: Mem, fuel: nat) returns (n: nat)
    requires a.Valid() && s.Loop? && a.Has(o, Code(s))
    requires a.Has(o + |Code(s.body)|, [JumpOp(s.kind, Some(-|Code(s.body)| - 1))])
    requires a.Does(o, m, n1, Fell(m1), |Code(s.body)|, fuel)
    ensures a.Does(o, m, n, AfterBody(a, s, m1, fuel), |Code(s)|, fuel)
    decreases fuel, s, 0, 0
  {
    hide Compiled, Holds, RunCpu, Exec, Code;
    LoopIs(s);
    var len := |Code(s.body)|;
    n := n1 + 1;
    if s.kind != Always && m1.stack == [] {
      JumpStuck(a, o + len, s.kind, -len - 1, m1);
      StopAfter(a, o, m, n1, o + len, m1, Stuck);
    } else {
      JumpStep(a, o + len, s.kind, -len - 1, m1);
      var m2 := if s.kind == Always then m1 else m1.(stack := Pop(m1.stack));
      if s.kind != Always && !Taken(s.kind, Top(m1.stack)) {
        TwoRuns(a, o, m, n1, o + len, m1, 1, o + len + 1, m2);
      } else {
        TwoRuns(a, o, m, n1, o + len, m1, 1, o, m2);
        if fuel > 0 {
          var n2 := ExecRuns(a, o, s, m2, fuel - 1);
          ContinueSpent(a, o, m, n, o, m2, n2, Exec(a.p, a.native, s, m2, fuel - 1), |Code(s)|, |Code(s)|, fuel);
          n := n + n2;
        }
      }
    }
  }

  lemma FourParts(a: Act, o: nat, x: seq<Op>, j: Op, y: seq<Op>, k: Op)
    requires a.Valid() && a.Has(o, x + [j] + y + [k])
    ensures a.Has(o, x) && a.Has(o + |x|, [j]) && a.Has(o + |x| + 1, y) && a.Has(o + |x| + 1 + |y|, [k])
  {
    hide Compiled, Holds;
    SubCode(a, o, x + [j] + y, [k]);
    SubCode(a, o, x + [j], y);
    SubCode(a, o, x, [j]);
  }

  lemma WhileCode(a: Act, o: nat, s: Stmt)
    requires a.Valid() && s.While? && a.Has(o, Code(s))
    ensures |Code(s)| == |Code(s.cond)| + 1 + |Code(s.body)| + 1
    ensures a.Has(o, Code(s.cond))
    ensures a.Has(o + |Code(s.cond)|, [JumpIfNot(Some(|Code(s.body)| + 1))])
    ensures a.Has(o + |Code(s.cond)| + 1, Code(s.body))
    ensures a.Has(o + |Code(s.cond)| + 1 + |Code(s.body)|, [Jump(Some(-|Code(s.cond)| - |Code(s.body)| - 2))])
  {
    hide Compiled, Holds, Code;
    WhileOps(s);
    FourParts(a, o, Code(s.cond), JumpIfNot(Some(|Code(s.body)| + 1)), Code(s.body),
              Jump(Some(-|Code(s.cond)| - |Code(s.body)| - 2)));
  }

  lemma WhileRuns(a: Act, o: nat, s: Stmt, m: Mem, fuel: nat) returns (n: nat)
    requires a.Valid() && s.While? && a.Has(o, Code(s))
    ensures a.Does(o, m, n, Exec(a.p, a.native, s, m, fuel), |Code(s)|, fuel)
    decreases fuel, s, 0
  {
    hide Compiled, Holds, RunCpu, Act.Does, Act.At, Code;
    WhileCode(a, o, s);
    n := ExecRuns(a, o, s.cond, m, fuel);
    var r1 := Exec(a.p, a.native, s.cond, m, fuel);
    if r1.Fell? {
      n := WhileTest(a, o, s, m, n, r1.mem, fuel);
    } else {
      Decided(a, o, m, n, r1, |Code(s.cond)|, |Code(s)|, fuel);
    }
  }

  /** What a while loop means once its condition has left memory m1. */
  function AfterCond(a: Act, s: Stmt, m1: Mem, fuel: nat): Out
    requires s.While?
  {
    if m1.stack == [] then GotStuck
    else if Top(m1.stack) == 0 then Fell(m1.(stack := Pop(m1.stack)))
    else
      var r2 := Exec(a.p, a.native, s.body, m1.(stack := Pop(m1.stack)), fuel);
      if !r2.Fell? then r2 else if fuel == 0 then OutOfFuel else Exec(a.p, a.native, s, r2.mem, fuel - 1)
  }

  lemma WhileTest(a: Act, o: nat, s: Stmt, m: Mem, n1: nat, m1: Mem, fuel: nat) returns (n: nat)
    requires a.Valid() && s.While? && a.Has(o, Code(s))
    requires a.Has(o + |Code(s.cond)|, [JumpIfNot(Some(|Code(s.body)| + 1))])
    requires a.Has(o + |Code(s.cond)| + 1, Code(s.body))
    requires a.Has(o + |Code(s.cond)| + 1 + |Code(s.body)|, [Jump(Some(-|Code(s.cond)| - |Code(s.body)| - 2))])
    requires a.Does(o, m, n1, Fell(m1), |Code(s.cond)|, fuel)
    ensures a.Does(o, m, n, AfterCond(a, s, m1, fuel), |Code(s)|, fuel)
    decreases fuel, s, 0, 1
  {
    hide Compiled, Holds, RunCpu, Exec, Code;
    WhileCode(a, o, s);
    var len1, len2 := |Code(s.cond)|, |Code(s.body)|;
    n := n1 + 1;
    if m1.stack == [] {
      JumpStuck(a, o + len1, IfFalse, len2 + 1, m1);
      StopAfter(a, o, m, n1, o + len1, m1, Stuck);
    } else {
      JumpStep(a, o + len1, IfFalse, len2 + 1, m1);
      var m2 := m1.(stack := Pop(m1.stack));
      if Top(m1.stack) == 0 {
        TwoRuns(a, o, m, n1, o + len1, m1, 1, o + len1 + 1 + len2 + 1, m2);
      } else {
        TwoRuns(a, o, m, n1, o + len1, m1, 1, o + len1 + 1, m2);
        n := BodyAndRepeat(a, o, s, m, n, m2, fuel);
      }
    }
  }

  /** The rest of a while loop, its condition having been true. */
  lemma BodyAndRepeat(a: Act, o: nat, s: Stmt, m: Mem, n1: nat, m2: Mem, fuel: nat) returns (n: nat)
    requires a.Valid() && s.While? && a.Has(o, Code(s)) && n1 > 0
    requires a.Has(o + |Code(s.cond)| + 1, Code(s.body))
    requires a.Has(o + |Code(s.cond)| + 1 + |Code(s.body)|, [Jump(Some(-|Code(s.cond)| - |Code(s.body)| - 2))])
    requires RunCpu(a.words, a.native, a.At(o, m), n1) == Next(a.At(o + |Code(s.cond)| + 1, m2))
    ensures var r2 := Exec(a.p, a.native, s.body, m2, fuel);
            var out := if !r2.Fell? then r2
                       else if fuel == 0 then OutOfFuel
                       else Exec(a.p, a.native, s, r2.mem, fuel - 1);
            a.Does(o, m, n, out, |Code(s)|, fuel)
    decreases fuel, s, 0, 0
  {
    hide Compiled, Holds, RunCpu, Exec, Code;
    WhileCode(a, o, s);
    var len1, len2 := |Code(s.cond)|, |Code(s.body)|;
    var n2 := ExecRuns(a, o + len1 + 1, s.body, m2, fuel);
    var r2 := Exec(a.p, a.native, s.body, m2, fuel);
    if !r2.Fell? {
      Continue(a, o, m, n1, o + len1 + 1, m2, n2, r2, len2, |Code(s)|, fuel);
      n := n1 + n2;
    } else {
      TwoRuns(a, o, m, n1, o + len1 + 1, m2, n2, o + len1 + 1 + len2, r2.mem);
      JumpStep(a, o + len1 + 1 + len2, Always, -len1 - len2 - 2, r2.mem);
      TwoRuns(a, o, m, n1 + n2, o + len1 + 1 + len2, r2.mem, 1, o, r2.mem);
      n := n1 + n2 + 1;
      if fuel > 0 {
        var n3 := ExecRuns(a, o, s, r2.mem, fuel - 1);
        ContinueSpent(a, o, m, n, o, r2.mem, n3, Exec(a.p, a.native, s, r2.mem, fuel - 1), |Code(s)|, |Code(s)|, fuel);
        n := n + n3;
      }
    }
  }

  // ----- words -----

  /** When control cannot reach the end of a body, it does not. */
  lemma {:induction false} FallsOnlyIfOpen(p: seq<Source>, native: Natives, s: Stmt, m: Mem, fuel: nat)
    requires Exec(p, native, s, m, fuel).Fell?
    ensures Reaches(s, true)
    decreases fuel, s
  {
    match s
    case Seq(s1, s2) =>
      FallsOnlyIfOpen(p, native, s1, m, fuel);
      FallsOnlyIfOpen(p, native, s2, Exec(p, native, s1, m, fuel).mem, fuel);
    case Loop(kind, body) =>
      if kind == Always {
        FallsOnlyIfOpen(p, native, s, Exec(p, native, body, m, fuel).mem, fuel - 1);
      }
    case _ =>
  }

  /** What a whole activation of word k does: it gets back to its caller with
      the stack its body leaves, or ends the run as its body does. */
  ghost predicate WordDoes(a: Act, m: Mem, n: nat, out: Out, fuel: nat)
    requires a.Valid()
  {
    match out
    case Fell(m') => RunCpu(a.words, a.native, a.At(0, m), n) == Next(Cpu(a.saved, m'.stack, a.rest))
    case _ => a.Does(0, m, n, out, 0, fuel)
  }

  lemma WordRuns(a: Act, m: Mem, fuel: nat) returns (n: nat)
    requires a.Valid()
    ensures WordDoes(a, m, n, Exec(a.p, a.native, a.p[a.k].body, m, fuel), fuel)
    decreases fuel, a.p[a.k].body, 2
  {
    hide Holds, RunCpu;
    var body := a.p[a.k].body;
    assert a.words[a.k].code == WordCode(body);
    BodyInWord(a, body);
    n := ExecRuns(a, 0, body, m, fuel);
    var r := Exec(a.p, a.native, body, m, fuel);
    if r.Fell? {
      FallsOnlyIfOpen(a.p, a.native, body, m, fuel);
      BodyEndsInRet(a, body);
      OneStep(a, |Code(body)|, Ret, r.mem);
      assert a.At(|Code(body)| + 1, r.mem).frames[1..] == a.rest;
      RunCpuSplit(a.words, a.native, a.At(0, m), n, 1);
      n := n + 1;
    }
  }

  lemma BodyInWord(a: Act, body: Stmt)
    requires a.Valid() && a.words[a.k].code == WordCode(body)
    ensures a.Has(0, Code(body))
  {
  }

  lemma BodyEndsInRet(a: Act, body: Stmt)
    requires a.Valid() && a.words[a.k].code == WordCode(body) && Reaches(body, true)
    ensures a.Has(|Code(body)|, [Ret])
  {
  }

  /** A call runs the called word in an activation of its own. */
  lemma CallRuns(a: Act, o: nat, j: nat, m: Mem, fuel: nat) returns (n: nat)
    requires a.Valid() && a.Has(o, [Call(Interpreted(j))])
    ensures a.Does(o, m, n, Exec(a.p, a.native, Invoke(Interpreted(j)), m, fuel), 1, fuel)
    decreases fuel, Invoke(Interpreted(j)), 0
  {
    hide Holds, RunCpu;
    OneStep(a, o, Call(Interpreted(j)), m);
    n := 1;
    if j < |a.p| {
      var b := a.(k := j, saved := Pos(a.k, o + 1), rest := a.At(o, m).frames);
      var m1 := Mem(m.stack, seq(a.p[j].numLocals, _ => None));
      assert RunCpu(a.words, a.native, a.At(o, m), 1) == Next(b.At(0, m1));
      if fuel > 0 {
        var n2 := WordRuns(b, m1, fuel - 1);
        RunCpuSplit(a.words, a.native, a.At(o, m), 1, n2);
        n := 1 + n2;
      }
    }
  }
}
