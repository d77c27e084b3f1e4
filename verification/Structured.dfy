/** Structured source programs: the control-flow words of T0 (if, else, then,
    begin, until, again, while, repeat), their meaning, and the builder calls
    they make. */
module Structured {
  import opened Base128
  import opened Wrappers
  import opened Program
  import opened BuilderSpec

  /** Source text of a word body. A local variable is given by its number. */
  datatype Stmt =
    | Skip
    | Lit(v: int32)
    | Get(num: nat)
    | Put(num: nat)
    | Invoke(target: Target)                    // a word defined before
    | Named(name: string)                       // a word to be looked up later
    | Return
    | Seq(s1: Stmt, s2: Stmt)
    | If(not: bool, body: Stmt)                 // if/ifnot body then
    | IfElse(not: bool, s1: Stmt, s2: Stmt)     // if/ifnot s1 else s2 then
    | Loop(kind: JumpKind, body: Stmt)          // begin body again/untilnot/until
    | While(cond: Stmt, body: Stmt)             // begin cond while body repeat

  /** A word: its number of local variables and its body. */
  datatype Source = Source(numLocals: nat, body: Stmt)

  // ----- meaning -----

  datatype Mem = Mem(stack: seq<int32>, locals: seq<Option<int32>>)

  /** A statement falls through to what follows it, returns from its word,
      ends the run, gets stuck, or does not finish within its fuel. */
  datatype Out = Fell(mem: Mem) | Returned(mem: Mem) | Ended | GotStuck | OutOfFuel

  function PushMem(m: Mem, v: int32): Mem
  {
    m.(stack := m.stack + [v])
  }

  /** Whether a jump of this kind is taken on top-of-stack v. */
  predicate Taken(kind: JumpKind, v: int32)
  {
    match kind
    case Always => true
    case IfTrue => v != 0
    case IfFalse => v == 0
  }

  /** Big-step meaning. Fuel is spent on loop iterations and on calls. */
  function Exec(p: seq<Source>, native: Natives, s: Stmt, m: Mem, fuel: nat): (r: Out)
    decreases fuel, s
  {
    match s
    case Skip => Fell(m)
    case Lit(v) => Fell(PushMem(m, v))
    case Get(n) =>
      if n >= |m.locals| || m.locals[n].None? then GotStuck else Fell(PushMem(m, m.locals[n].value))
    case Put(n) =>
      if m.stack == [] || n >= |m.locals| then GotStuck
      else Fell(Mem(Pop(m.stack), m.locals[n := Some(Top(m.stack))]))
    case Invoke(Native(cc)) =>
      (match native(cc, m.stack)
       case None => Ended
       case Some(t) => Fell(m.(stack := t)))
    case Invoke(Interpreted(k)) =>
      if k >= |p| then GotStuck
      else if fuel == 0 then OutOfFuel
      else
        (match Exec(p, native, p[k].body, Mem(m.stack, seq(p[k].numLocals, _ => None)), fuel - 1)
         case Fell(m') => Fell(m.(stack := m'.stack))
         case Returned(m') => Fell(m.(stack := m'.stack))
         case r => r)
    case Invoke(Unresolved) => GotStuck
    case Named(_) => GotStuck
    case Return => Returned(m)
    case Seq(s1, s2) =>
      (match Exec(p, native, s1, m, fuel)
       case Fell(m') => Exec(p, native, s2, m', fuel)
       case r => r)
    case If(not, body) =>
      if m.stack == [] then GotStuck
      else if (Top(m.stack) != 0) != not then Exec(p, native, body, m.(stack := Pop(m.stack)), fuel)
      else Fell(m.(stack := Pop(m.stack)))
    case IfElse(not, s1, s2) =>
      if m.stack == [] then GotStuck
      else if (Top(m.stack) != 0) != not then Exec(p, native, s1, m.(stack := Pop(m.stack)), fuel)
      else Exec(p, native, s2, m.(stack := Pop(m.stack)), fuel)
    case Loop(kind, body) =>
      (match Exec(p, native, body, m, fuel)
       case Fell(m') =>
         if kind != Always && m'.stack == [] then GotStuck
         else
           var m'' := if kind == Always then m' else m'.(stack := Pop(m'.stack));
           if kind != Always && !Taken(kind, Top(m'.stack)) then Fell(m'')
           else if fuel == 0 then OutOfFuel
           else Exec(p, native, s, m'', fuel - 1)
       case r => r)
    case While(cond, body) =>
      (match Exec(p, native, cond, m, fuel)
       case Fell(m1) =>
         if m1.stack == [] then GotStuck
         else if Top(m1.stack) == 0 then Fell(m1.(stack := Pop(m1.stack)))
         else
           (match Exec(p, native, body, m1.(stack := Pop(m1.stack)), fuel)
            case Fell(m2) =>
              if fuel == 0 then OutOfFuel else Exec(p, native, s, m2, fuel - 1)
            case r => r)
       case r => r)
  }

  // ----- compilation -----

  /** The builder calls behind the words of the body; names are the names of
      the local variables, by number. A name that is no word defined before is
      called by name, with > in front to write a local variable. else is ahead,
      1 cs-roll, then; while is if, 1 cs-roll; repeat is again, then. */
  function Calls(s: Stmt, names: seq<string>): seq<Action>
  {
    match s
    case Skip => []
    case Lit(v) => [Literal(v)]
    case Get(n) => [CallName(if n < |names| then names[n] else "")]
    case Put(n) => [CallName(">" + if n < |names| then names[n] else "")]
    case Invoke(t) => [CallExt(t)]
    case Named(x) => [CallName(x)]
    case Return => [AddRet]
    case Seq(s1, s2) => Calls(s1, names) + Calls(s2, names)
    case If(not, body) => [IfCall(not)] + Calls(body, names) + [Then]
    case IfElse(not, s1, s2) =>
      [IfCall(not)] + Calls(s1, names) + [Ahead, CsRoll(1), Then] + Calls(s2, names) + [Then]
    case Loop(kind, body) => [Begin] + Calls(body, names) + [LoopCall(kind)]
    case While(cond, body) =>
      [Begin] + Calls(cond, names) + [AheadIfNot, CsRoll(1)] + Calls(body, names) + [BuilderSpec.Again, Then]
  }

  /** if jumps ahead when the value is false, ifnot when it is true. */
  function IfCall(not: bool): Action
  {
    if not then AheadIf else AheadIfNot
  }

  function LoopCall(kind: JumpKind): Action
  {
    match kind
    case Always => BuilderSpec.Again
    case IfTrue => AgainIf
    case IfFalse => AgainIfNot
  }

  /** The opcodes that a body is meant to become. */
  function Code(s: Stmt): seq<Op>
  {
    match s
    case Skip => []
    case Lit(v) => [Const(v)]
    case Get(n) => [GetLocal(n)]
    case Put(n) => [PutLocal(n)]
    case Invoke(t) => [Call(t)]
    case Named(_) => [Call(Unresolved)]
    case Return => [Ret]
    case Seq(s1, s2) => Code(s1) + Code(s2)
    case If(not, body) => [JumpOp(if not then IfTrue else IfFalse, Some(|Code(body)|))] + Code(body)
    case IfElse(not, s1, s2) =>
      [JumpOp(if not then IfTrue else IfFalse, Some(|Code(s1)| + 1))] + Code(s1) + [Jump(Some(|Code(s2)|))] + Code(s2)
    case Loop(kind, body) => Code(body) + [JumpOp(kind, Some(-|Code(body)| - 1))]
    case While(cond, body) =>
      Code(cond) + [JumpIfNot(Some(|Code(body)| + 1))] + Code(body) + [Jump(Some(-|Code(cond)| - |Code(body)| - 2))]
  }

  /** The variable that a call by name is about. */
  function LocalName(name: string): string
  {
    if name != [] && name[0] == '>' then name[1..] else name
  }

  /** Locals are numbered within names, and their names can be read; a name to
      be looked up is not one of them. */
  predicate WellFormed(s: Stmt, names: seq<string>)
  {
    match s
    case Get(i) => i < |names| && LocalName(names[i]) == names[i]
    case Put(i) => i < |names|
    case Invoke(t) => !t.Unresolved?
    case Named(x) => LocalName(x) !in names
    case Seq(s1, s2) => WellFormed(s1, names) && WellFormed(s2, names)
    case If(_, b) => WellFormed(b, names)
    case IfElse(_, s1, s2) => WellFormed(s1, names) && WellFormed(s2, names)
    case Loop(_, b) => WellFormed(b, names)
    case While(c, b) => WellFormed(c, names) && WellFormed(b, names)
    case _ => true
  }

  /** Whether control can reach the end of s, when its start can be reached
      (before) or not. */
  predicate Reaches(s: Stmt, before: bool)
  {
    match s
    case Skip => before
    case Return => false
    case Seq(s1, s2) => Reaches(s2, Reaches(s1, before))
    case Loop(kind, _) => kind != Always
    case _ => true
  }

  // ----- the builder produces that code -----

  /** A builder, as far as the code to come can tell. */
  datatype View = View(code: seq<Op>, stack: seq<int>, locals: map<string, nat>, open: bool)

  function ViewOf(b: Builder): View
  {
    View(b.code, Live(b), b.locals, Open(b))
  }

  /** The calls succeed and leave a sound builder with view v. */
  ghost predicate Yields(b: Builder, actions: seq<Action>, v: View)
  {
    ApplyAll(b, actions).Ok? && Inv(ApplyAll(b, actions).value) && ViewOf(ApplyAll(b, actions).value) == v
  }

  ghost predicate NamesNumbered(locals: map<string, nat>, names: seq<string>)
  {
    && (forall i | 0 <= i < |names| :: names[i] in locals && locals[names[i]] == i)
    && (forall l | l in locals :: l in names)
  }

  lemma One(b: Builder, a: Action, v: View)
    requires Apply(b, a).Ok? && Inv(Apply(b, a).value) && ViewOf(Apply(b, a).value) == v
    ensures Yields(b, [a], v)
  {
    assert [a][1..] == [];
  }

  /** One batch of calls, then another. */
  lemma Both(b: Builder, x: seq<Action>, y: seq<Action>, v: View)
    requires ApplyAll(b, x).Ok? && Yields(ApplyAll(b, x).value, y, v)
    ensures Yields(b, x + y, v)
  {
    ApplyAllSplit(b, x, y);
  }

  lemma AddOne(b: Builder, a: Action, op: Op, name: Option<string>)
    requires Inv(b) && Proper(b, a) && Apply(b, a) == Ok(Add(b, op, name)) && !op.IsJump()
    ensures Yields(b, [a], View(b.code + [op], Live(b), b.locals, op.MayFallThrough()))
  {
    ApplyKeeps(b, a);
    One(b, a, View(b.code + [op], Live(b), b.locals, op.MayFallThrough()));
  }

  /** A forward jump: one more unresolved jump, its origin on the stack. */
  lemma ForwardOne(b: Builder, a: Action, op: Op)
    requires Inv(b) && op.IsJump() && op.disp.None? && Apply(b, a) == Forward(b, op)
    requires a.Ahead? || a.AheadIf? || a.AheadIfNot?
    ensures Yields(b, [a], View(b.code + [op], Live(b) + [|b.code|], b.locals, !op.Jump?))
  {
    PushedOrigin(b);
    ApplyKeeps(b, a);
    var b' := Apply(b, a).value;
    assert Live(b') == Live(b) + [|b.code|];
    One(b, a, View(b.code + [op], Live(b) + [|b.code|], b.locals, !op.Jump?));
  }

  lemma PushedOrigin(b: Builder)
    requires Inv(b)
    ensures CsPush(b, |b.code|).Ok?
    ensures var b' := CsPush(b, |b.code|).value;
            b'.code == b.code && b'.locals == b.locals && Live(b') == Live(b) + [|b.code|]
  {
  }

  /** then: the origin on top of the stack is resolved to the end of the code. */
  lemma ThenOne(b: Builder, st: seq<int>, x: nat)
    requires Inv(b) && Live(b) == st + [x] && x < |b.code|
    requires b.code[x].IsJump() && b.code[x].disp.None?
    ensures Yields(b, [Then], View(b.code[x := b.code[x].(disp := Some(|b.code| - x - 1))], st, b.locals, true))
  {
    assert b.cf[b.ptr] == Live(b)[|st|] == x;
    ApplyKeeps(b, Then);
    assert Live(Apply(b, Then).value) == Live(b)[..|st|] == st;
    One(b, Then, View(b.code[x := b.code[x].(disp := Some(|b.code| - x - 1))], st, b.locals, true));
  }

  /** 1 cs-roll exchanges the two topmost elements. */
  lemma RollOne(b: Builder, st: seq<int>, x: int, y: int)
    requires Inv(b) && Live(b) == st + [x, y]
    ensures Yields(b, [CsRoll(1)], View(b.code, st + [y, x], b.locals, Open(b)))
  {
    RollWithin(b, 1);
    RollKeeps(b, 1);
    One(b, CsRoll(1), View(b.code, st + [y, x], b.locals, Open(b)));
  }

  lemma BeginOne(b: Builder)
    requires Inv(b)
    ensures Yields(b, [Begin], View(b.code, Live(b) + [-|b.code| - 1], b.locals, Open(b)))
  {
    PushKeeps(b, -|b.code| - 1);
    PushOpen(b, -|b.code| - 1);
    One(b, Begin, View(b.code, Live(b) + [-|b.code| - 1], b.locals, Open(b)));
  }

  lemma PushOpen(b: Builder, x: int)
    requires CsPush(b, x).Ok?
    ensures Open(CsPush(b, x).value) == Open(b) && CsPush(b, x).value.locals == b.locals
  {
  }

  lemma AgainOne(b: Builder, kind: JumpKind, st: seq<int>, x: int)
    requires Inv(b) && Live(b) == st + [x] && x < 0
    ensures Yields(b, [LoopCall(kind)],
                   View(b.code + [JumpOp(kind, Some(-x - 1 - |b.code| - 1))], st, b.locals, kind != Always))
  {
    assert b.cf[b.ptr] == Live(b)[|st|] == x;
    PopGood(b);
    BackwardKeeps(b, kind);
    assert Live(Apply(b, LoopCall(kind)).value) == Live(b)[..|st|] == st;
    One(b, LoopCall(kind), View(b.code + [JumpOp(kind, Some(-x - 1 - |b.code| - 1))], st, b.locals, kind != Always));
  }

  /** else: a new forward jump takes the place of the one of if, which is
      resolved to just after it. */
  lemma ElseCalls(b: Builder, st: seq<int>, x: nat)
    requires Inv(b) && Live(b) == st + [x] && x < |b.code| && b.code[x].IsJump() && b.code[x].disp.None?
    ensures Yields(b, [Ahead, CsRoll(1), Then],
                   View(b.code[x := b.code[x].(disp := Some(|b.code| - x))] + [Jump(None)],
                        st + [|b.code|], b.locals, true))
  {
    hide Inv, Open, ApplyAll, Live;
    ForwardOne(b, Ahead, Jump(None));
    var b1 := ApplyAll(b, [Ahead]).value;
    assert st + [x] + [|b.code|] == st + [x, |b.code|];
    RollOne(b1, st, x, |b.code|);
    var b2 := ApplyAll(b1, [CsRoll(1)]).value;
    assert st + [|b.code|, x] == (st + [|b.code|]) + [x];
    ThenOne(b2, st + [|b.code|], x);
    var v := View(b.code[x := b.code[x].(disp := Some(|b.code| - x))] + [Jump(None)], st + [|b.code|], b.locals, true);
    assert ViewOf(ApplyAll(b2, [Then]).value) == v;
    Both(b1, [CsRoll(1)], [Then], v);
    Both(b, [Ahead], [CsRoll(1)] + [Then], v);
    assert [Ahead] + ([CsRoll(1)] + [Then]) == [Ahead, CsRoll(1), Then];
  }

  /** while: a forward jump goes under the destination of begin. */
  lemma WhileCalls(b: Builder, st: seq<int>, d: int)
    requires Inv(b) && Live(b) == st + [d]
    ensures Yields(b, [AheadIfNot, CsRoll(1)], View(b.code + [JumpIfNot(None)], st + [|b.code|, d], b.locals, true))
  {
    hide Inv, Open, ApplyAll, Live;
    ForwardOne(b, AheadIfNot, JumpIfNot(None));
    var b1 := ApplyAll(b, [AheadIfNot]).value;
    assert st + [d] + [|b.code|] == st + [d, |b.code|];
    RollOne(b1, st, d, |b.code|);
    Both(b, [AheadIfNot], [CsRoll(1)], View(b.code + [JumpIfNot(None)], st + [|b.code|, d], b.locals, true));
    assert [AheadIfNot] + [CsRoll(1)] == [AheadIfNot, CsRoll(1)];
  }

  /** repeat: back to begin, and the jump of while comes out here. */
  lemma RepeatCalls(b: Builder, st: seq<int>, y: nat, x: int)
    requires Inv(b) && Live(b) == st + [y, x] && x < 0 && y < |b.code| && b.code[y].IsJump() && b.code[y].disp.None?
    ensures Yields(b, [BuilderSpec.Again, Then],
                   View(b.code[y := b.code[y].(disp := Some(|b.code| - y))] + [Jump(Some(-x - 1 - |b.code| - 1))],
                        st, b.locals, true))
  {
    hide Inv, Open, ApplyAll, Live;
    assert st + [y, x] == (st + [y]) + [x];
    AgainOne(b, Always, st + [y], x);
    var b1 := ApplyAll(b, [BuilderSpec.Again]).value;
    ThenOne(b1, st, y);
    var v := View(b.code[y := b.code[y].(disp := Some(|b.code| - y))] + [Jump(Some(-x - 1 - |b.code| - 1))],
                  st, b.locals, true);
    assert ViewOf(ApplyAll(b1, [Then]).value) == v;
    Both(b, [BuilderSpec.Again], [Then], v);
    assert [BuilderSpec.Again] + [Then] == [BuilderSpec.Again, Then];
  }

  // The code and the calls of the compound statements, as the steps below
  // build them up.

  lemma SeqShape(c: seq<Op>, s: Stmt, names: seq<string>)
    requires s.Seq?
    ensures (c + Code(s.s1)) + Code(s.s2) == c + Code(s)
    ensures Calls(s, names) == Calls(s.s1, names) + Calls(s.s2, names)
  {
    Associate(c, Code(s.s1), Code(s.s2));
  }

  lemma Associate(x: seq<Op>, y: seq<Op>, z: seq<Op>)
    ensures (x + y) + z == x + (y + z)
  {
  }

  lemma IfMakes(s: Stmt, names: seq<string>)
    requires s.If?
    ensures Code(s) == [JumpOp(if s.not then IfTrue else IfFalse, Some(|Code(s.body)|))] + Code(s.body)
    ensures Calls(s, names) == [IfCall(s.not)] + Calls(s.body, names) + [Then]
    ensures Awaited(s) == [None] + Awaited(s.body) + []
  {}

  lemma LoopMakes(s: Stmt, names: seq<string>)
    requires s.Loop?
    ensures Calls(s, names) == [Begin] + Calls(s.body, names) + [LoopCall(s.kind)]
    ensures Awaited(s) == [] + Awaited(s.body) + [None]
  {}

  lemma ElseMakes(s: Stmt, names: seq<string>)
    requires s.IfElse?
    ensures Code(s) == [JumpOp(if s.not then IfTrue else IfFalse, Some(|Code(s.s1)| + 1))] + Code(s.s1)
                       + [Jump(Some(|Code(s.s2)|))] + Code(s.s2)
    ensures Calls(s, names)
            == [IfCall(s.not)] + Calls(s.s1, names) + [Ahead, CsRoll(1), Then] + Calls(s.s2, names) + [Then]
    ensures Awaited(s) == ([None] + Awaited(s.s1) + [None]) + Awaited(s.s2) + []
  {}

  lemma IfShape(c: seq<Op>, s: Stmt, names: seq<string>)
    requires s.If?
    ensures var j := JumpOp(if s.not then IfTrue else IfFalse, None);
            var d := (c + [j]) + Code(s.body);
            d[|c|] == j && d[|c| := j.(disp := Some(|d| - |c| - 1))] == c + Code(s)
    ensures Calls(s, names) == [IfCall(s.not)] + (Calls(s.body, names) + [Then])
  {
    hide Code, Calls, Awaited;
    IfMakes(s, names);
    var j := JumpOp(if s.not then IfTrue else IfFalse, None);
    PatchFirst(c, j, j.(disp := Some(|Code(s.body)|)), Code(s.body));
    assert [IfCall(s.not)] + Calls(s.body, names) + [Then] == [IfCall(s.not)] + (Calls(s.body, names) + [Then]);
  }

  lemma PatchFirst(c: seq<Op>, j: Op, j': Op, x: seq<Op>)
    ensures ((c + [j]) + x)[|c|] == j
    ensures ((c + [j]) + x)[|c| := j'] == c + ([j'] + x)
  {
  }

  lemma LoopShape(c: seq<Op>, s: Stmt, names: seq<string>)
    requires s.Loop?
    ensures var d := c + Code(s.body);
            d + [JumpOp(s.kind, Some(|c| - |d| - 1))] == c + Code(s)
    ensures Calls(s, names) == [Begin] + (Calls(s.body, names) + [LoopCall(s.kind)])
  {
  }

  /** After else: the jump of if is resolved, a new one waits at the end. */
  function ElseCode(c: seq<Op>, s: Stmt): seq<Op>
    requires s.IfElse?
  {
    c + [JumpOp(if s.not then IfTrue else IfFalse, Some(|Code(s.s1)| + 1))] + Code(s.s1) + [Jump(None)]
  }

  lemma ElseShape(c: seq<Op>, s: Stmt)
    requires s.IfElse?
    ensures var j := JumpOp(if s.not then IfTrue else IfFalse, None);
            var d := (c + [j]) + Code(s.s1);
            d[|c|] == j && d[|c| := j.(disp := Some(|d| - |c|))] + [Jump(None)] == ElseCode(c, s)
            && |ElseCode(c, s)| == |d| + 1
  {
  }

  lemma IfElseShape(c: seq<Op>, s: Stmt, names: seq<string>)
    requires s.IfElse?
    ensures var d := ElseCode(c, s);
            var e := d + Code(s.s2);
            var y := |d| - 1;
            e[y] == Jump(None) && e[y := Jump(Some(|e| - y - 1))] == c + Code(s)
    ensures Calls(s, names) ==
              [IfCall(s.not)] + (Calls(s.s1, names) + ([Ahead, CsRoll(1), Then] + (Calls(s.s2, names) + [Then])))
  {
    hide Code, Calls, Awaited;
    ElseMakes(s, names);
    var j1 := JumpOp(if s.not then IfTrue else IfFalse, Some(|Code(s.s1)| + 1));
    PatchLast(c, [j1] + Code(s.s1), Jump(None), Jump(Some(|Code(s.s2)|)), Code(s.s2));
    assert c + [j1] + Code(s.s1) == c + ([j1] + Code(s.s1));
    FiveCalls([IfCall(s.not)], Calls(s.s1, names), [Ahead, CsRoll(1), Then], Calls(s.s2, names), [Then]);
  }

  lemma PatchLast(c: seq<Op>, x: seq<Op>, j: Op, j': Op, y: seq<Op>)
    ensures (((c + x) + [j]) + y)[|c| + |x|] == j
    ensures (((c + x) + [j]) + y)[|c| + |x| := j'] == c + (x + [j'] + y)
  {
  }

  lemma FiveCalls(u: seq<Action>, v: seq<Action>, w: seq<Action>, x: seq<Action>, y: seq<Action>)
    ensures u + v + w + x + y == u + (v + (w + (x + y)))
  {
  }

  lemma WhileOps(s: Stmt)
    requires s.While?
    ensures Code(s) == Code(s.cond) + [JumpIfNot(Some(|Code(s.body)| + 1))] + Code(s.body)
                       + [Jump(Some(-|Code(s.cond)| - |Code(s.body)| - 2))]
  {
  }

  lemma WhileMakes(s: Stmt, names: seq<string>)
    requires s.While?
    ensures Calls(s, names) == [Begin] + Calls(s.cond, names) + [AheadIfNot, CsRoll(1)]
                               + Calls(s.body, names) + [BuilderSpec.Again, Then]
  {
  }

  lemma WhileShape(c: seq<Op>, s: Stmt, names: seq<string>)
    requires s.While?
    ensures var d := c + Code(s.cond);
            var e := (d + [JumpIfNot(None)]) + Code(s.body);
            e[|d|] == JumpIfNot(None) &&
            e[|d| := JumpIfNot(Some(|e| - |d|))] + [Jump(Some(|c| - |e| - 1))] == c + Code(s)
    ensures Calls(s, names) ==
              [Begin] + (Calls(s.cond, names)
                         + ([AheadIfNot, CsRoll(1)] + (Calls(s.body, names) + [BuilderSpec.Again, Then])))
  {
    hide Code, Calls;
    WhileOps(s);
    WhileMakes(s, names);
    FiveCalls([Begin], Calls(s.cond, names), [AheadIfNot, CsRoll(1)], Calls(s.body, names), [BuilderSpec.Again, Then]);
    Patch(c, Code(s.cond), JumpIfNot(None), JumpIfNot(Some(|Code(s.body)| + 1)), Code(s.body),
          Jump(Some(-|Code(s.cond)| - |Code(s.body)| - 2)));
  }

  lemma Patch(c: seq<Op>, x: seq<Op>, j: Op, j': Op, y: seq<Op>, k: Op)
    ensures var d := c + x;
            var e := (d + [j]) + y;
            e[|d|] == j && e[|d| := j'] + [k] == c + (x + [j'] + y + [k])
  {
  }

  /** What building s is meant to do to a view. */
  function After(v: View, s: Stmt): View
  {
    View(v.code + Code(s), v.stack, v.locals, Reaches(s, v.open))
  }

  /** The calls of a body append exactly its code, leave the control-flow stack
      as it was, and the builder knows whether control can get there. */
  lemma {:induction false} CallsAppend(b: Builder, s: Stmt, names: seq<string>)
    requires Inv(b) && NamesNumbered(b.locals, names) && WellFormed(s, names)
    ensures Yields(b, Calls(s, names), After(ViewOf(b), s))
    decreases s, 1
  {
    hide Inv, Open, Apply, ApplyAll, Live, Calls, Yields, Code;
    match s
    case Skip => SkipAppends(b, names);
    case Seq(s1, s2) => SeqAppends(b, s, names);
    case If(not, body) => IfAppends(b, s, names);
    case IfElse(not, s1, s2) => IfElseAppends(b, s, names);
    case Loop(kind, body) => LoopAppends(b, s, names);
    case While(cond, body) => WhileAppends(b, s, names);
    case _ => LitAppends(b, s, names);
  }

  lemma SkipAppends(b: Builder, names: seq<string>)
    requires Inv(b)
    ensures Yields(b, Calls(Skip, names), After(ViewOf(b), Skip))
  {
    assert b.code + [] == b.code;
  }

  lemma LitAppends(b: Builder, s: Stmt, names: seq<string>)
    requires Inv(b) && NamesNumbered(b.locals, names) && WellFormed(s, names)
    requires s.Lit? || s.Get? || s.Put? || s.Invoke? || s.Named? || s.Return?
    ensures Yields(b, Calls(s, names), After(ViewOf(b), s))
  {
    hide Inv, ApplyAll;
    if s.Put? {
      assert (">" + names[s.num])[1..] == names[s.num];
    }
    AddOne(b, Calls(s, names)[0], Code(s)[0], if s.Named? then Some(s.name) else None);
  }

  lemma SeqAppends(b: Builder, s: Stmt, names: seq<string>)
    requires Inv(b) && NamesNumbered(b.locals, names) && WellFormed(s, names) && s.Seq?
    ensures Yields(b, Calls(s, names), After(ViewOf(b), s))
    decreases s, 0
  {
    hide Inv, ApplyAll, Live, Open, Code, Calls, NamesNumbered;
    SeqShape(b.code, s, names);
    CallsAppend(b, s.s1, names);
    CallsAppend(ApplyAll(b, Calls(s.s1, names)).value, s.s2, names);
    Both(b, Calls(s.s1, names), Calls(s.s2, names), After(ViewOf(b), s));
  }

  lemma IfCallForward(b: Builder, not: bool)
    ensures Apply(b, IfCall(not)) == Forward(b, JumpOp(if not then IfTrue else IfFalse, None))
  {
  }

  lemma IfAppends(b: Builder, s: Stmt, names: seq<string>)
    requires Inv(b) && NamesNumbered(b.locals, names) && WellFormed(s, names) && s.If?
    ensures Yields(b, Calls(s, names), After(ViewOf(b), s))
    decreases s, 0
  {
    hide Inv, ApplyAll, Live, Open, Apply, Code, Calls, NamesNumbered;
    IfShape(b.code, s, names);
    var op := JumpOp(if s.not then IfTrue else IfFalse, None);
    var c := Calls(s.body, names);
    IfCallForward(b, s.not);
    ForwardOne(b, IfCall(s.not), op);
    var b1 := ApplyAll(b, [IfCall(s.not)]).value;
    CallsAppend(b1, s.body, names);
    var b2 := ApplyAll(b1, c).value;
    ThenOne(b2, Live(b), |b.code|);
    var v := After(ViewOf(b), s);
    assert ViewOf(ApplyAll(b2, [Then]).value).code == v.code;
    Both(b1, c, [Then], v);
    Both(b, [IfCall(s.not)], c + [Then], v);
  }

  lemma LoopAppends(b: Builder, s: Stmt, names: seq<string>)
    requires Inv(b) && NamesNumbered(b.locals, names) && WellFormed(s, names) && s.Loop?
    ensures Yields(b, Calls(s, names), After(ViewOf(b), s))
    decreases s, 0
  {
    hide Inv, ApplyAll, Live, Open, Apply, Code, Calls, NamesNumbered;
    LoopShape(b.code, s, names);
    var c := Calls(s.body, names);
    BeginOne(b);
    var b1 := ApplyAll(b, [Begin]).value;
    CallsAppend(b1, s.body, names);
    var b2 := ApplyAll(b1, c).value;
    AgainOne(b2, s.kind, Live(b), -|b.code| - 1);
    var v := After(ViewOf(b), s);
    assert ViewOf(ApplyAll(b2, [LoopCall(s.kind)]).value).code == v.code;
    Both(b1, c, [LoopCall(s.kind)], v);
    Both(b, [Begin], c + [LoopCall(s.kind)], v);
  }

  lemma IfElseAppends(b: Builder, s: Stmt, names: seq<string>)
    requires Inv(b) && NamesNumbered(b.locals, names) && WellFormed(s, names) && s.IfElse?
    ensures Yields(b, Calls(s, names), After(ViewOf(b), s))
    decreases s, 0
  {
    hide Inv, ApplyAll, Live, Open, Apply, Code, Calls, NamesNumbered;
    ElseShape(b.code, s);
    IfElseShape(b.code, s, names);
    var c1, c2 := Calls(s.s1, names), Calls(s.s2, names);
    var els := [Ahead, CsRoll(1), Then];
    IfCallForward(b, s.not);
    ForwardOne(b, IfCall(s.not), JumpOp(if s.not then IfTrue else IfFalse, None));
    var b1 := ApplyAll(b, [IfCall(s.not)]).value;
    CallsAppend(b1, s.s1, names);
    var b2 := ApplyAll(b1, c1).value;
    ElseCalls(b2, Live(b), |b.code|);
    var b3 := ApplyAll(b2, els).value;
    CallsAppend(b3, s.s2, names);
    var b4 := ApplyAll(b3, c2).value;
    assert ViewOf(b3).code == ElseCode(b.code, s);
    ThenOne(b4, Live(b), |b2.code|);
    var v := After(ViewOf(b), s);
    assert ViewOf(ApplyAll(b4, [Then]).value).code == v.code;
    Both(b3, c2, [Then], v);
    Both(b2, els, c2 + [Then], v);
    Both(b1, c1, els + (c2 + [Then]), v);
    Both(b, [IfCall(s.not)], c1 + (els + (c2 + [Then])), v);
  }

  lemma WhileAppends(b: Builder, s: Stmt, names: seq<string>)
    requires Inv(b) && NamesNumbered(b.locals, names) && WellFormed(s, names) && s.While?
    ensures Yields(b, Calls(s, names), After(ViewOf(b), s))
    decreases s, 0
  {
    hide Inv, ApplyAll, Live, Open, Apply, Code, Calls, NamesNumbered;
    WhileShape(b.code, s, names);
    var c1, c2 := Calls(s.cond, names), Calls(s.body, names);
    var whl, rep := [AheadIfNot, CsRoll(1)], [BuilderSpec.Again, Then];
    BeginOne(b);
    var b1 := ApplyAll(b, [Begin]).value;
    CallsAppend(b1, s.cond, names);
    var b2 := ApplyAll(b1, c1).value;
    WhileCalls(b2, Live(b), -|b.code| - 1);
    var b3 := ApplyAll(b2, whl).value;
    CallsAppend(b3, s.body, names);
    var b4 := ApplyAll(b3, c2).value;
    RepeatCalls(b4, Live(b), |b2.code|, -|b.code| - 1);
    var v := After(ViewOf(b), s);
    assert ViewOf(ApplyAll(b4, rep).value).code == v.code;
    Both(b3, c2, rep, v);
    Both(b2, whl, c2 + rep, v);
    Both(b1, c1, whl + (c2 + rep), v);
    Both(b, [Begin], c1 + (whl + (c2 + rep)), v);
  }

  // ----- names looked up later -----

  /** s with the names that it calls looked up. */
  function Bind(s: Stmt, dictionary: map<string, Target>): Stmt
  {
    match s
    case Named(x) => if x in dictionary then Invoke(dictionary[x]) else s
    case Seq(s1, s2) => Seq(Bind(s1, dictionary), Bind(s2, dictionary))
    case If(not, body) => If(not, Bind(body, dictionary))
    case IfElse(not, s1, s2) => IfElse(not, Bind(s1, dictionary), Bind(s2, dictionary))
    case Loop(kind, body) => Loop(kind, Bind(body, dictionary))
    case While(cond, body) => While(Bind(cond, dictionary), Bind(body, dictionary))
    case _ => s
  }

  /** The opcode for one whose name, if it has one, is looked up. */
  function Looked(op: Op, name: Option<string>, dictionary: map<string, Target>): Op
  {
    if name.Some? && name.value in dictionary then Call(dictionary[name.value]) else op
  }

  function AllLooked(code: seq<Op>, names: seq<Option<string>>, dictionary: map<string, Target>): (r: seq<Op>)
    requires |code| == |names|
    ensures |r| == |code|
  {
    seq(|code|, i requires 0 <= i < |code| => Looked(code[i], names[i], dictionary))
  }

  lemma LookedConcat(c1: seq<Op>, n1: seq<Option<string>>, c2: seq<Op>, n2: seq<Option<string>>, d: map<string, Target>)
    requires |c1| == |n1| && |c2| == |n2|
    ensures AllLooked(c1 + c2, n1 + n2, d) == AllLooked(c1, n1, d) + AllLooked(c2, n2, d)
  {}

  /** The names that the opcodes of s wait for. */
  function Awaited(s: Stmt): (names: seq<Option<string>>)
    ensures |names| == |Code(s)|
  {
    match s
    case Skip => []
    case Named(x) => [Some(x)]
    case Seq(s1, s2) => Awaited(s1) + Awaited(s2)
    case If(_, body) => [None] + Awaited(body)
    case IfElse(_, s1, s2) => [None] + Awaited(s1) + [None] + Awaited(s2)
    case Loop(_, body) => Awaited(body) + [None]
    case While(cond, body) => Awaited(cond) + [None] + Awaited(body) + [None]
    case _ => [None]
  }

  lemma LookedJump(op: Op, d: map<string, Target>)
    ensures AllLooked([op], [None], d) == [op]
  {}

  ghost predicate Resolves(s: Stmt, d: map<string, Target>)
  {
    Code(Bind(s, d)) == AllLooked(Code(s), Awaited(s), d)
  }

  lemma SeqResolves(s: Stmt, d: map<string, Target>)
    requires s.Seq? && Resolves(s.s1, d) && Resolves(s.s2, d)
    ensures Resolves(s, d)
  {
    hide AllLooked;
    LookedConcat(Code(s.s1), Awaited(s.s1), Code(s.s2), Awaited(s.s2), d);
  }

  lemma IfResolves(s: Stmt, d: map<string, Target>)
    requires s.If? && Resolves(s.body, d)
    ensures Resolves(s, d)
  {
    hide AllLooked;
    var j := JumpOp(if s.not then IfTrue else IfFalse, Some(|Code(s.body)|));
    LookedJump(j, d);
    LookedConcat([j], [None], Code(s.body), Awaited(s.body), d);
  }

  lemma IfElseResolves(s: Stmt, d: map<string, Target>)
    requires s.IfElse? && Resolves(s.s1, d) && Resolves(s.s2, d)
    ensures Resolves(s, d)
  {
    hide AllLooked;
    var c1, c2, n1, n2 := Code(s.s1), Code(s.s2), Awaited(s.s1), Awaited(s.s2);
    var j, k := JumpOp(if s.not then IfTrue else IfFalse, Some(|c1| + 1)), Jump(Some(|c2|));
    LookedJump(j, d);
    LookedJump(k, d);
    LookedConcat([j], [None], c1, n1, d);
    LookedConcat([j] + c1, [None] + n1, [k], [None], d);
    LookedConcat([j] + c1 + [k], [None] + n1 + [None], c2, n2, d);
  }

  lemma BindWhile(s: Stmt, d: map<string, Target>)
    requires s.While?
    ensures Bind(s, d) == While(Bind(s.cond, d), Bind(s.body, d))
    ensures Awaited(s) == Awaited(s.cond) + [None] + Awaited(s.body) + [None]
  {}

  lemma WhileResolves(s: Stmt, d: map<string, Target>)
    requires s.While? && Resolves(s.cond, d) && Resolves(s.body, d)
    ensures Resolves(s, d)
  {
    hide AllLooked, Code, Awaited;
    WhileOps(s);
    WhileOps(Bind(s, d));
    BindWhile(s, d);
    var c1, c2, n1, n2 := Code(s.cond), Code(s.body), Awaited(s.cond), Awaited(s.body);
    var j, k := JumpIfNot(Some(|c2| + 1)), Jump(Some(-|c1| - |c2| - 2));
    LookedJump(j, d);
    LookedJump(k, d);
    LookedConcat(c1, n1, [j], [None], d);
    LookedConcat(c1 + [j], n1 + [None], c2, n2, d);
    LookedConcat(c1 + [j] + c2, n1 + [None] + n2, [k], [None], d);
  }

  lemma LoopResolves(s: Stmt, d: map<string, Target>)
    requires s.Loop? && Resolves(s.body, d)
    ensures Resolves(s, d)
  {
    hide AllLooked;
    var j := JumpOp(s.kind, Some(-|Code(s.body)| - 1));
    LookedJump(j, d);
    LookedConcat(Code(s.body), Awaited(s.body), [j], [None], d);
  }

  /** Looking names up in the code is the same as in the source. */
  lemma {:induction false} BindResolves(s: Stmt, d: map<string, Target>)
    ensures Resolves(s, d)
  {
    hide Resolves;
    match s
    case Seq(s1, s2) =>
      BindResolves(s1, d);
      BindResolves(s2, d);
      SeqResolves(s, d);
    case If(not, body) =>
      BindResolves(body, d);
      IfResolves(s, d);
    case IfElse(not, s1, s2) =>
      BindResolves(s1, d);
      BindResolves(s2, d);
      IfElseResolves(s, d);
    case Loop(kind, body) =>
      BindResolves(body, d);
      LoopResolves(s, d);
    case While(cond, body) =>
      BindResolves(cond, d);
      BindResolves(body, d);
      WhileResolves(s, d);
    case _ => OpResolves(s, d);
  }

  lemma OpResolves(s: Stmt, d: map<string, Target>)
    requires s.Skip? || s.Lit? || s.Get? || s.Put? || s.Invoke? || s.Named? || s.Return?
    ensures Resolves(s, d)
  {}

  lemma {:induction false} BindKeepsReach(s: Stmt, d: map<string, Target>, before: bool)
    ensures Reaches(Bind(s, d), before) == Reaches(s, before)
  {
    match s
    case Seq(s1, s2) =>
      BindKeepsReach(s1, d, before);
      BindKeepsReach(s2, d, Reaches(s1, before));
    case _ =>
  }

  /** The names that the opcodes added by a call wait for. */
  function Waits(locals: map<string, nat>, a: Action): seq<Option<string>>
  {
    match a
    case CallName(x) => [if LocalName(x) in locals then None else Some(x)]
    case Then => []
    case Begin => []
    case CsRoll(_) => []
    case CsPick(_) => []
    case DefLocal(_) => []
    case _ => [None]
  }

  function AllWaits(locals: map<string, nat>, actions: seq<Action>): seq<Option<string>>
  {
    if actions == [] then [] else Waits(locals, actions[0]) + AllWaits(locals, actions[1..])
  }

  lemma {:induction false} WaitsConcat(locals: map<string, nat>, x: seq<Action>, y: seq<Action>)
    ensures AllWaits(locals, x + y) == AllWaits(locals, x) + AllWaits(locals, y)
    decreases |x|
  {
    if x == [] {
      assert x + y == y;
    } else {
      assert (x + y)[1..] == x[1..] + y;
      WaitsConcat(locals, x[1..], y);
    }
  }

  lemma OneWaits(locals: map<string, nat>, a: Action)
    ensures AllWaits(locals, [a]) == Waits(locals, a)
  {
    assert [a][1..] == [];
  }

  lemma ApplyWaits(b: Builder, a: Action)
    requires Apply(b, a).Ok? && !a.DefLocal?
    ensures var b' := Apply(b, a).value;
            b'.names == b.names + Waits(b.locals, a) && b'.locals == b.locals
  {
    hide Shifted, Index;
  }

  lemma {:induction false} ApplyAllWaits(b: Builder, actions: seq<Action>)
    requires ApplyAll(b, actions).Ok? && forall a <- actions :: !a.DefLocal?
    ensures ApplyAll(b, actions).value.names == b.names + AllWaits(b.locals, actions)
    decreases |actions|
  {
    hide Apply, Waits;
    if actions != [] {
      ApplyWaits(b, actions[0]);
      ApplyAllWaits(Apply(b, actions[0]).value, actions[1..]);
    }
  }

  /** The calls of a body define no local variables. */
  lemma {:induction false} CallsDefineNothing(s: Stmt, names: seq<string>)
    ensures forall a <- Calls(s, names) :: !a.DefLocal?
  {
    match s
    case Seq(s1, s2) => CallsDefineNothing(s1, names); CallsDefineNothing(s2, names);
    case If(_, body) => CallsDefineNothing(body, names);
    case IfElse(_, s1, s2) => CallsDefineNothing(s1, names); CallsDefineNothing(s2, names);
    case Loop(_, body) => CallsDefineNothing(body, names);
    case While(cond, body) => CallsDefineNothing(cond, names); CallsDefineNothing(body, names);
    case _ =>
  }

  lemma ThreeWait(locals: map<string, nat>, x: seq<Action>, y: seq<Action>, z: seq<Action>)
    ensures AllWaits(locals, x + y + z) == AllWaits(locals, x) + AllWaits(locals, y) + AllWaits(locals, z)
  {
    WaitsConcat(locals, x + y, z);
    WaitsConcat(locals, x, y);
  }

  lemma ElseWaits(locals: map<string, nat>)
    ensures AllWaits(locals, [Ahead, CsRoll(1), Then]) == [None]
  {
    ThreeWait(locals, [Ahead], [CsRoll(1)], [Then]);
    assert [Ahead] + [CsRoll(1)] + [Then] == [Ahead, CsRoll(1), Then];
    OneWaits(locals, Ahead);
    OneWaits(locals, CsRoll(1));
    OneWaits(locals, Then);
  }

  lemma WhileWaits(locals: map<string, nat>)
    ensures AllWaits(locals, [AheadIfNot, CsRoll(1)]) == [None]
    ensures AllWaits(locals, [BuilderSpec.Again, Then]) == [None]
  {
    WaitsConcat(locals, [AheadIfNot], [CsRoll(1)]);
    WaitsConcat(locals, [BuilderSpec.Again], [Then]);
    assert [AheadIfNot] + [CsRoll(1)] == [AheadIfNot, CsRoll(1)];
    assert [BuilderSpec.Again] + [Then] == [BuilderSpec.Again, Then];
    OneWaits(locals, AheadIfNot);
    OneWaits(locals, CsRoll(1));
    OneWaits(locals, BuilderSpec.Again);
    OneWaits(locals, Then);
  }

  ghost predicate Awaits(locals: map<string, nat>, s: Stmt, names: seq<string>)
  {
    AllWaits(locals, Calls(s, names)) == Awaited(s)
  }

  lemma EndsWait(locals: map<string, nat>, not: bool, kind: JumpKind)
    ensures AllWaits(locals, [IfCall(not)]) == [None] && AllWaits(locals, [Then]) == []
    ensures AllWaits(locals, [LoopCall(kind)]) == [None] && AllWaits(locals, [Begin]) == []
  {
    hide AllWaits;
    OneWaits(locals, IfCall(not));
    OneWaits(locals, Then);
    OneWaits(locals, LoopCall(kind));
    OneWaits(locals, Begin);
  }

  lemma IfAwaits(locals: map<string, nat>, s: Stmt, names: seq<string>)
    requires s.If? && Awaits(locals, s.body, names)
    ensures Awaits(locals, s, names)
  {
    hide AllWaits, Calls, Awaited;
    IfMakes(s, names);
    EndsWait(locals, s.not, Always);
    ThreeWait(locals, [IfCall(s.not)], Calls(s.body, names), [Then]);
  }

  lemma LoopAwaits(locals: map<string, nat>, s: Stmt, names: seq<string>)
    requires s.Loop? && Awaits(locals, s.body, names)
    ensures Awaits(locals, s, names)
  {
    hide AllWaits, Calls, Awaited;
    LoopMakes(s, names);
    EndsWait(locals, false, s.kind);
    ThreeWait(locals, [Begin], Calls(s.body, names), [LoopCall(s.kind)]);
  }

  lemma IfElseAwaits(locals: map<string, nat>, s: Stmt, names: seq<string>)
    requires s.IfElse? && Awaits(locals, s.s1, names) && Awaits(locals, s.s2, names)
    ensures Awaits(locals, s, names)
  {
    hide AllWaits, Calls, Awaited;
    ElseMakes(s, names);
    EndsWait(locals, s.not, Always);
    ElseWaits(locals);
    var front := [IfCall(s.not)] + Calls(s.s1, names) + [Ahead, CsRoll(1), Then];
    ThreeWait(locals, [IfCall(s.not)], Calls(s.s1, names), [Ahead, CsRoll(1), Then]);
    ThreeWait(locals, front, Calls(s.s2, names), [Then]);
  }

  lemma WhileAwaits(locals: map<string, nat>, s: Stmt, names: seq<string>)
    requires s.While? && Awaits(locals, s.cond, names) && Awaits(locals, s.body, names)
    ensures Awaits(locals, s, names)
  {
    hide AllWaits, Calls, Awaited;
    WhileMakes(s, names);
    BindWhile(s, map[]);
    EndsWait(locals, false, Always);
    WhileWaits(locals);
    var front := [Begin] + Calls(s.cond, names) + [AheadIfNot, CsRoll(1)];
    ThreeWait(locals, [Begin], Calls(s.cond, names), [AheadIfNot, CsRoll(1)]);
    ThreeWait(locals, front, Calls(s.body, names), [BuilderSpec.Again, Then]);
    assert [] + Awaited(s.cond) + [None] + Awaited(s.body) + [None] == Awaited(s);
  }

  lemma SeqAwaits(locals: map<string, nat>, s: Stmt, names: seq<string>)
    requires s.Seq? && Awaits(locals, s.s1, names) && Awaits(locals, s.s2, names)
    ensures Awaits(locals, s, names)
  {
    hide AllWaits;
    WaitsConcat(locals, Calls(s.s1, names), Calls(s.s2, names));
  }

  lemma OpAwaits(locals: map<string, nat>, s: Stmt, names: seq<string>)
    requires NamesNumbered(locals, names) && WellFormed(s, names)
    requires s.Skip? || s.Lit? || s.Get? || s.Put? || s.Invoke? || s.Named? || s.Return?
    ensures Awaits(locals, s, names)
  {
    if !s.Skip? {
      OneWaits(locals, Calls(s, names)[0]);
    }
    if s.Put? {
      assert (">" + names[s.num])[1..] == names[s.num];
    }
  }

  /** The builder remembers exactly the names that the source has left open. */
  lemma {:induction false} CallsAwait(locals: map<string, nat>, s: Stmt, names: seq<string>)
    requires NamesNumbered(locals, names) && WellFormed(s, names)
    ensures Awaits(locals, s, names)
  {
    hide Awaits, NamesNumbered;
    match s
    case Seq(s1, s2) =>
      CallsAwait(locals, s1, names);
      CallsAwait(locals, s2, names);
      SeqAwaits(locals, s, names);
    case If(_, body) =>
      CallsAwait(locals, body, names);
      IfAwaits(locals, s, names);
    case IfElse(_, s1, s2) =>
      CallsAwait(locals, s1, names);
      CallsAwait(locals, s2, names);
      IfElseAwaits(locals, s, names);
    case Loop(_, body) =>
      CallsAwait(locals, body, names);
      LoopAwaits(locals, s, names);
    case While(cond, body) =>
      CallsAwait(locals, cond, names);
      CallsAwait(locals, body, names);
      WhileAwaits(locals, s, names);
    case _ => OpAwaits(locals, s, names);
  }
}
