/** What the calls on a WordBuilder do: opcodes, the control-flow stack, and
    local variables, as functions on values. */
module BuilderSpec {
  import opened Base128
  import opened Wrappers
  import opened Program

  /** The fields of a builder. cf is the control-flow list, of which the part
      up to index ptr is the stack; names holds, for every opcode, the word
      name still to be looked up. */
  datatype Builder = Builder(code: seq<Op>, names: seq<Option<string>>, cf: seq<int>, ptr: int,
                             locals: map<string, nat>, jumpToLast: bool)

  /** The calls that the compiler makes. */
  datatype Action =
    | Literal(v: int32)
    | CallName(name: string)
    | CallExt(target: Target)
    | GetNamed(name: string)
    | PutNamed(name: string)
    | DefLocal(name: string)
    | AddRet
    | Ahead | AheadIf | AheadIfNot | Then
    | Begin | Again | AgainIf | AgainIfNot
    | CsRoll(depth: int) | CsPick(depth: int)

  const FRESH := Builder([], [], seq(16, _ => 0), -1, map[], true)

  /** The element a Python list index denotes: negative ones count from the
      end; None for an IndexError. */
  function Index(len: nat, i: int): (r: Option<nat>)
    ensures r.Some? ==> r.value < len
  {
    if 0 <= i < len then Some(i) else if 0 <= len + i && i < 0 then Some(len + i) else None
  }

  function Add(b: Builder, op: Op, name: Option<string>): Builder
  {
    b.(code := b.code + [op], names := b.names + [name], jumpToLast := false)
  }

  // ----- the control-flow stack -----

  function CsPush(b: Builder, x: int): Result<Builder>
  {
    var ptr := b.ptr + 1;
    var cf := if ptr == |b.cf| then b.cf + seq(|b.cf|, _ => 0) else b.cf;
    var i := Index(|cf|, ptr);
    if i.None? then Raise else Ok(b.(ptr := ptr, cf := cf[i.value := x]))
  }

  /** The top value, and the builder without it. */
  function CsPop(b: Builder): Result<(int, Builder)>
  {
    var i := Index(|b.cf|, b.ptr);
    if i.None? then Raise else Ok((b.cf[i.value], b.(ptr := b.ptr - 1)))
  }

  /** for i in range(n): cf[p + i] = cf[p + i + 1] */
  function Shifted(cf: seq<int>, p: int, n: int): (r: Result<seq<int>>)
    ensures r.Ok? ==> |r.value| == |cf|
    decreases if n < 0 then 0 else n
  {
    if n <= 0 then Ok(cf)
    else
      var dst := Index(|cf|, p);
      var src := Index(|cf|, p + 1);
      if dst.None? || src.None? then Raise
      else Shifted(cf[dst.value := cf[src.value]], p + 1, n - 1)
  }

  function Roll(b: Builder, depth: int): Result<Builder>
  {
    var from := Index(|b.cf|, b.ptr - depth);
    if from.None? then Raise
    else
      var cf := Shifted(b.cf, b.ptr - depth, depth);
      var top := Index(|b.cf|, b.ptr);
      if cf.Raise? || top.None? then Raise
      else Ok(b.(cf := cf.value[top.value := b.cf[from.value]]))
  }

  function Pick(b: Builder, depth: int): Result<Builder>
  {
    var from := Index(|b.cf|, b.ptr - depth);
    if from.None? then Raise else CsPush(b, b.cf[from.value])
  }

  // ----- jumps -----

  function Forward(b: Builder, op: Op): Result<Builder>
  {
    match CsPush(b, |b.code|)
    case Raise => Raise
    case Ok(b') => Ok(Add(b', op, None))
  }

  /** resolve_jump of the opcode at x, to the current end of the code. */
  function ResolveJump(b: Builder, x: nat): Result<Builder>
  {
    if x >= |b.code| || !b.code[x].IsJump() || b.code[x].disp.Some? then Raise
    else Ok(b.(code := b.code[x := b.code[x].(disp := Some(|b.code| - x - 1))], jumpToLast := true))
  }

  function ThenStep(b: Builder): Result<Builder>
  {
    match CsPop(b)
    case Raise => Raise
    case Ok((x, b')) => if x < 0 then Raise else ResolveJump(b', x)
  }

  datatype JumpKind = Always | IfTrue | IfFalse

  function JumpOp(kind: JumpKind, disp: Option<int>): (op: Op)
    ensures op.IsJump() && op.disp == disp
  {
    match kind
    case Always => Jump(disp)
    case IfTrue => JumpIf(disp)
    case IfFalse => JumpIfNot(disp)
  }

  function Backward(b: Builder, kind: JumpKind): Result<Builder>
  {
    match CsPop(b)
    case Raise => Raise
    case Ok((x, b')) =>
      if x >= 0 then Raise
      else Ok(Add(b', JumpOp(kind, Some(-x - 1 - |b.code| - 1)), None))
  }

  // ----- all calls -----

  function CallStep(b: Builder, name: string): Builder
  {
    var write := name != [] && name[0] == '>';
    var lname := if write then name[1..] else name;
    if lname in b.locals then
      Add(b, if write then PutLocal(b.locals[lname]) else GetLocal(b.locals[lname]), None)
    else Add(b, Call(Unresolved), Some(name))
  }

  function Apply(b: Builder, a: Action): Result<Builder>
  {
    match a
    case Literal(v) => Ok(Add(b, Const(v), None))
    case CallName(name) => Ok(CallStep(b, name))
    case CallExt(t) => Ok(Add(b, Call(t), None))
    case GetNamed(name) => if name in b.locals then Ok(Add(b, GetLocal(b.locals[name]), None)) else Raise
    case PutNamed(name) => if name in b.locals then Ok(Add(b, PutLocal(b.locals[name]), None)) else Raise
    case DefLocal(name) => if name in b.locals then Raise else Ok(b.(locals := b.locals[name := |b.locals|]))
    case AddRet => Ok(Add(b, Ret, None))
    case Ahead => Forward(b, Jump(None))
    case AheadIf => Forward(b, JumpIf(None))
    case AheadIfNot => Forward(b, JumpIfNot(None))
    case Then => ThenStep(b)
    case Begin => CsPush(b, -|b.code| - 1)
    case Again => Backward(b, Always)
    case AgainIf => Backward(b, IfTrue)
    case AgainIfNot => Backward(b, IfFalse)
    case CsRoll(d) => Roll(b, d)
    case CsPick(d) => Pick(b, d)
  }

  function ApplyAll(b: Builder, actions: seq<Action>): Result<Builder>
    decreases |actions|
  {
    if actions == [] then Ok(b)
    else
      match Apply(b, actions[0])
      case Raise => Raise
      case Ok(b') => ApplyAll(b', actions[1..])
  }

  /** Control may reach the point after the last opcode. */
  predicate Open(b: Builder)
  {
    b.jumpToLast || (b.code != [] && b.code[|b.code| - 1].MayFallThrough())
  }

  /** build: the finished code and the names to look up in it. The last opcode
      exists whenever no jump leads past it. */
  function BuildWord(b: Builder): Result<Builder>
  {
    if b.ptr != -1 then Raise
    else if !b.jumpToLast && b.code == [] then Raise
    else if Open(b) then Ok(Add(b, Ret, None))
    else Ok(b)
  }

  // ----- the invariant -----

  /** An origin points to a jump, a destination into the code so far. */
  predicate EntryGood(code: seq<Op>, x: int)
  {
    if x >= 0 then x < |code| && code[x].IsJump() else -x - 1 <= |code|
  }

  /** The live part of the control-flow stack. */
  function Live(b: Builder): seq<int>
  {
    if -1 <= b.ptr < |b.cf| then b.cf[..b.ptr + 1] else []
  }

  /** A resolved jump leads to an opcode, or past the last one while the
      builder remembers that a jump leads there. */
  predicate JumpGood(b: Builder, i: nat)
    requires i < |b.code| && b.code[i].IsJump() && b.code[i].disp.Some?
  {
    var t := i + 1 + b.code[i].disp.value;
    0 <= t <= |b.code| && (t == |b.code| ==> b.jumpToLast)
  }

  ghost predicate Inv(b: Builder)
  {
    && -1 <= b.ptr < |b.cf| && b.cf != []
    && |b.names| == |b.code|
    && (b.code == [] ==> b.jumpToLast)
    && (forall x | x in Live(b) :: EntryGood(b.code, x))
    && (forall i | 0 <= i < |b.code| && b.code[i].IsJump() ::
          if b.code[i].disp.Some? then JumpGood(b, i) else i in Live(b))
    && (forall i | 0 <= i < |b.code| :: LocalGood(b, i) && NameGood(b, i))
    && (forall l | l in b.locals :: b.locals[l] < |b.locals|)
  }

  predicate LocalGood(b: Builder, i: nat)
    requires i < |b.code|
  {
    b.code[i].GetLocal? || b.code[i].PutLocal? ==> b.code[i].num < |b.locals|
  }

  predicate NameGood(b: Builder, i: nat)
    requires i < |b.code| && i < |b.names|
  {
    b.names[i].Some? <==> b.code[i] == Call(Unresolved)
  }

  /** What the compiler must see to before it makes a call: there is something
      to pop, and a depth lies within the stack. CallExt is given a word. */
  predicate Proper(b: Builder, a: Action)
  {
    match a
    case Then => b.ptr >= 0
    case Again => b.ptr >= 0
    case AgainIf => b.ptr >= 0
    case AgainIfNot => b.ptr >= 0
    case CsRoll(d) => 0 <= d <= b.ptr
    case CsPick(d) => 0 <= d <= b.ptr
    case CallExt(t) => !t.Unresolved?
    case _ => true
  }

  // ----- every proper call keeps the invariant -----

  lemma AddKeeps(b: Builder, op: Op, name: Option<string>)
    requires Inv(b)
    requires op.IsJump() ==>
               if op.disp.Some? then 0 <= |b.code| + 1 + op.disp.value <= |b.code| else |b.code| in Live(b)
    requires op.GetLocal? || op.PutLocal? ==> op.num < |b.locals|
    requires name.Some? <==> op == Call(Unresolved)
    ensures Inv(Add(b, op, name))
  {
    var b' := Add(b, op, name);
    forall i | 0 <= i < |b'.code|
      ensures LocalGood(b', i) && NameGood(b', i)
      ensures b'.code[i].IsJump() ==> if b'.code[i].disp.Some? then JumpGood(b', i) else i in Live(b')
    {
      if i < |b.code| {
        assert b'.code[i] == b.code[i] && LocalGood(b, i) && NameGood(b, i);
      }
    }
  }

  /** The same, for a jump whose origin is pushed just before. */
  lemma ForwardKeeps(b: Builder, op: Op)
    requires Inv(b) && op.IsJump() && op.disp.None? && Forward(b, op).Ok?
    ensures Inv(Forward(b, op).value)
  {
    hide LocalGood, NameGood, JumpGood, EntryGood;
    var b1 := CsPush(b, |b.code|).value;
    var b' := Add(b1, op, None);
    var live := Live(b) + [|b.code|];
    assert Live(b') == live && live[|live| - 1] == |b.code|;
    OriginKeeps(b, b', op);
  }

  lemma OriginKeeps(b: Builder, b': Builder, op: Op)
    requires Inv(b) && op.IsJump() && op.disp.None?
    requires -1 <= b'.ptr < |b'.cf| && b'.cf != [] && b' == b.(code := b.code + [op], names := b.names + [None],
                                                              cf := b'.cf, ptr := b'.ptr, jumpToLast := false)
    requires forall x :: x in Live(b') <==> x in Live(b) || x == |b.code|
    ensures Inv(b')
  {
    hide Live;
    forall i | 0 <= i < |b'.code|
      ensures LocalGood(b', i) && NameGood(b', i)
      ensures b'.code[i].IsJump() ==> if b'.code[i].disp.Some? then JumpGood(b', i) else i in Live(b')
    {
      if i < |b.code| {
        assert b'.code[i] == b.code[i] && LocalGood(b, i) && NameGood(b, i);
      }
    }
  }

  lemma PushKeeps(b: Builder, x: int)
    requires Inv(b) && EntryGood(b.code, x)
    ensures CsPush(b, x).Ok? && Inv(CsPush(b, x).value)
    ensures Live(CsPush(b, x).value) == Live(b) + [x]
    ensures CsPush(b, x).value.code == b.code
  {
    var b' := CsPush(b, x).value;
    assert Live(b') == Live(b) + [x];
    forall i | 0 <= i < |b'.code|
      ensures LocalGood(b', i) && NameGood(b', i)
      ensures b'.code[i].IsJump() && b'.code[i].disp.Some? ==> JumpGood(b', i)
    {
      assert LocalGood(b, i) && NameGood(b, i);
    }
  }

  lemma PopGood(b: Builder)
    requires Inv(b) && b.ptr >= 0
    ensures CsPop(b).Ok? && CsPop(b).value.0 == b.cf[b.ptr]
    ensures Live(b) == Live(CsPop(b).value.1) + [CsPop(b).value.0]
    ensures EntryGood(b.code, CsPop(b).value.0)
    ensures CsPop(b).value.1 == b.(ptr := b.ptr - 1)
  {
    assert Live(b)[b.ptr] == b.cf[b.ptr];
  }

  lemma ThenKeeps(b: Builder)
    requires Inv(b) && b.ptr >= 0 && ThenStep(b).Ok?
    ensures Inv(ThenStep(b).value)
  {
    PopGood(b);
    var (x, b1) := CsPop(b).value;
    var b' := ThenStep(b).value;
    forall y | y in Live(b')
      ensures EntryGood(b'.code, y)
    {
      assert y in Live(b);
    }
    forall i | 0 <= i < |b'.code|
      ensures LocalGood(b', i) && NameGood(b', i)
      ensures b'.code[i].IsJump() ==> if b'.code[i].disp.Some? then JumpGood(b', i) else i in Live(b')
    {
      assert LocalGood(b, i) && NameGood(b, i);
      if i != x {
        assert b'.code[i] == b.code[i];
        if b.code[i].IsJump() && b.code[i].disp.None? {
          assert i in Live(b);
        }
      }
    }
  }

  lemma BackwardKeeps(b: Builder, kind: JumpKind)
    requires Inv(b) && b.ptr >= 0 && Backward(b, kind).Ok?
    ensures Inv(Backward(b, kind).value)
  {
    PopGood(b);
    var (x, b1) := CsPop(b).value;
    var op := JumpOp(kind, Some(-x - 1 - |b.code| - 1));
    assert Inv(b1) by {
      forall i | 0 <= i < |b1.code|
        ensures LocalGood(b1, i) && NameGood(b1, i)
        ensures b1.code[i].IsJump() ==> if b1.code[i].disp.Some? then JumpGood(b1, i) else i in Live(b1)
      {
        assert LocalGood(b, i) && NameGood(b, i);
        if b.code[i].IsJump() && b.code[i].disp.None? {
          assert i in Live(b);
        }
      }
    }
    AddKeeps(b1, op, None);
  }

  /** Within the stack, cs-roll is a rotation. */
  lemma {:induction false} ShiftedWithin(cf: seq<int>, p: nat, n: nat)
    requires p + n < |cf|
    ensures Shifted(cf, p, n) == Ok(cf[..p] + cf[p + 1..p + n + 1] + cf[p + n..])
    decreases n
  {
    if n > 0 {
      var cf' := cf[p := cf[p + 1]];
      ShiftedWithin(cf', p + 1, n - 1);
      assert cf'[..p + 1] + cf'[p + 2..p + n + 1] + cf'[p + n..] ==
             cf[..p] + cf[p + 1..p + n + 1] + cf[p + n..];
    } else {
      assert cf == cf[..p] + cf[p + 1..p + 1] + cf[p..];
    }
  }

  lemma RollWithin(b: Builder, depth: nat)
    requires -1 <= b.ptr < |b.cf| && depth <= b.ptr
    ensures Roll(b, depth).Ok?
    ensures var b' := Roll(b, depth).value;
            var live := Live(b);
            var p := b.ptr - depth;
            && b' == b.(cf := b'.cf) && |b'.cf| == |b.cf|
            && Live(b') == live[..p] + live[p + 1..] + [live[p]]
  {
    hide Shifted;
    ShiftedWithin(b.cf, b.ptr - depth, depth);
  }

  lemma RollKeeps(b: Builder, depth: nat)
    requires Inv(b) && depth <= b.ptr
    ensures Roll(b, depth).Ok? && Inv(Roll(b, depth).value)
  {
    RollWithin(b, depth);
    var b' := Roll(b, depth).value;
    var p := b.ptr - depth;
    assert Live(b) == Live(b)[..p] + [Live(b)[p]] + Live(b)[p + 1..];
    assert forall x :: x in Live(b') <==> x in Live(b);
    forall i | 0 <= i < |b'.code|
      ensures LocalGood(b', i) && NameGood(b', i)
      ensures b'.code[i].IsJump() ==> if b'.code[i].disp.Some? then JumpGood(b', i) else i in Live(b')
    {
      assert LocalGood(b, i) && NameGood(b, i);
    }
  }

  lemma DefKeeps(b: Builder, name: string)
    requires Inv(b) && name !in b.locals
    ensures Inv(b.(locals := b.locals[name := |b.locals|]))
  {
    var b' := b.(locals := b.locals[name := |b.locals|]);
    assert |b'.locals| == |b.locals| + 1;
    forall i | 0 <= i < |b'.code|
      ensures LocalGood(b', i) && NameGood(b', i)
      ensures b'.code[i].IsJump() ==> if b'.code[i].disp.Some? then JumpGood(b', i) else i in Live(b')
    {
      assert LocalGood(b, i) && NameGood(b, i);
    }
  }

  /** Every proper call that succeeds keeps the invariant. */
  lemma ApplyKeeps(b: Builder, a: Action)
    requires Inv(b) && Proper(b, a) && Apply(b, a).Ok?
    ensures Inv(Apply(b, a).value)
  {
    hide Inv, LocalGood, NameGood, JumpGood, EntryGood, Roll, Forward, Backward, ThenStep, CsPush, Add;
    match a
    case Literal(v) => AddKeeps(b, Const(v), None);
    case CallName(name) => CallKeeps(b, name);
    case CallExt(t) => AddKeeps(b, Call(t), None);
    case GetNamed(name) => LocalKeeps(b, name);
    case PutNamed(name) => LocalKeeps(b, name);
    case DefLocal(name) => DefKeeps(b, name);
    case AddRet => AddKeeps(b, Ret, None);
    case Ahead => ForwardKeeps(b, Jump(None));
    case AheadIf => ForwardKeeps(b, JumpIf(None));
    case AheadIfNot => ForwardKeeps(b, JumpIfNot(None));
    case Then => ThenKeeps(b);
    case Begin => BeginKeeps(b);
    case Again => BackwardKeeps(b, Always);
    case AgainIf => BackwardKeeps(b, IfTrue);
    case AgainIfNot => BackwardKeeps(b, IfFalse);
    case CsRoll(d) => RollKeeps(b, d);
    case CsPick(d) => PickKeeps(b, d);
  }

  lemma LocalKeeps(b: Builder, name: string)
    requires Inv(b) && name in b.locals
    ensures Inv(Add(b, GetLocal(b.locals[name]), None)) && Inv(Add(b, PutLocal(b.locals[name]), None))
  {
    AddKeeps(b, GetLocal(b.locals[name]), None);
    AddKeeps(b, PutLocal(b.locals[name]), None);
  }

  lemma CallKeeps(b: Builder, name: string)
    requires Inv(b)
    ensures Inv(CallStep(b, name))
  {
    hide Inv;
    var lname := if name != [] && name[0] == '>' then name[1..] else name;
    if lname in b.locals {
      LocalKeeps(b, lname);
    } else {
      AddKeeps(b, Call(Unresolved), Some(name));
    }
  }

  lemma BeginKeeps(b: Builder)
    requires Inv(b)
    ensures CsPush(b, -|b.code| - 1).Ok? && Inv(CsPush(b, -|b.code| - 1).value)
  {
    hide Inv;
    PushKeeps(b, -|b.code| - 1);
  }

  lemma PickKeeps(b: Builder, depth: nat)
    requires Inv(b) && depth <= b.ptr
    ensures Pick(b, depth).Ok? && Inv(Pick(b, depth).value)
  {
    hide LocalGood, NameGood, JumpGood;
    assert Live(b)[b.ptr - depth] in Live(b);
    PushKeeps(b, b.cf[b.ptr - depth]);
  }

  lemma FreshInv()
    ensures Inv(FRESH)
  {
  }

  /** The calls of a sequence are proper, each where it is made. */
  predicate ProperAll(b: Builder, actions: seq<Action>)
    decreases |actions|
  {
    actions == [] ||
    (Proper(b, actions[0]) && (Apply(b, actions[0]).Ok? ==> ProperAll(Apply(b, actions[0]).value, actions[1..])))
  }

  lemma {:induction false} ApplyAllKeeps(b: Builder, actions: seq<Action>)
    requires Inv(b) && ProperAll(b, actions) && ApplyAll(b, actions).Ok?
    ensures Inv(ApplyAll(b, actions).value)
    decreases |actions|
  {
    hide Inv, Apply, Proper;
    if actions != [] {
      ApplyKeeps(b, actions[0]);
      ApplyAllKeeps(Apply(b, actions[0]).value, actions[1..]);
    }
  }

  // ----- what is built -----

  /** All jumps lead to opcodes, no control runs past the end, locals are
      numbered below their count, and exactly the unresolved calls have names. */
  predicate BuiltGood(b: Builder)
  {
    && b.code != [] && |b.names| == |b.code|
    && !b.code[|b.code| - 1].MayFallThrough()
    && forall i | 0 <= i < |b.code| ::
         && LocalGood(b, i) && NameGood(b, i)
         && (b.code[i].IsJump() ==> b.code[i].disp.Some? && 0 <= i + 1 + b.code[i].disp.value < |b.code|)
  }

  lemma BuildGood(b: Builder)
    requires Inv(b) && BuildWord(b).Ok?
    ensures BuiltGood(BuildWord(b).value)
  {
    var b' := BuildWord(b).value;
    assert Live(b) == [];
    forall i | 0 <= i < |b'.code|
      ensures LocalGood(b', i) && NameGood(b', i)
      ensures b'.code[i].IsJump() ==> b'.code[i].disp.Some? && 0 <= i + 1 + b'.code[i].disp.value < |b'.code|
    {
      if i < |b.code| {
        assert b'.code[i] == b.code[i] && LocalGood(b, i) && NameGood(b, i);
        assert b.code[i].IsJump() ==> b.code[i].disp.Some? && JumpGood(b, i);
      }
    }
  }

  // ----- the guards that are missing -----

  /** A jump still to be resolved. */
  predicate IsOpen(op: Op)
  {
    op.IsJump() && op.disp.None?
  }

  predicate Dangling(b: Builder, x: int)
  {
    0 <= x < |b.code| && IsOpen(b.code[x])
  }

  /** Popping an empty stack reads the last element of the list. That goes
      unnoticed exactly for a backward jump to a destination left there: then
      never succeeds, since an empty stack leaves no jump to resolve. */
  lemma PopOnEmpty(b: Builder, a: Action)
    requires Inv(b) && b.ptr == -1 && (a.Then? || a.Again? || a.AgainIf? || a.AgainIfNot?)
    ensures Apply(b, a).Ok? <==> !a.Then? && b.cf[|b.cf| - 1] < 0
  {
    assert Live(b) == [];
  }

  /** A pick at any depth that succeeds keeps the invariant exactly if what it
      copies is an origin or a destination. */
  lemma PickExactly(b: Builder, depth: int)
    requires Inv(b) && Pick(b, depth).Ok?
    ensures Index(|b.cf|, b.ptr - depth).Some?
    ensures Inv(Pick(b, depth).value) <==> EntryGood(b.code, b.cf[Index(|b.cf|, b.ptr - depth).value])
  {
    var x := b.cf[Index(|b.cf|, b.ptr - depth).value];
    if EntryGood(b.code, x) {
      PushKeeps(b, x);
    } else {
      var b' := CsPush(b, x).value;
      assert Live(b')[b'.ptr] == x;
    }
  }

  /** What a successful roll leaves on a stack that is not empty: within the
      stack a rotation; for a negative depth, the top replaced by an element
      above the stack; and otherwise, with q the place that the index wraps
      round to, the stack shifted down, once below q and, if q is within it,
      once more from there on. */
  function Rolled(b: Builder, depth: int): (live: seq<int>)
    requires 0 <= b.ptr < |b.cf| && Roll(b, depth).Ok?
  {
    var live, q := Live(b), Index(|b.cf|, b.ptr - depth).value;
    if depth < 0 then live[..b.ptr] + [b.cf[q]]
    else if depth <= b.ptr then live[..q] + live[q + 1..] + [live[q]]
    else if q > b.ptr then live[1..] + [b.cf[q]]
    else if q > 0 then live[1..q] + live[q + 1..] + [Above(b, 0), live[q]]
    else if b.ptr > 0 then live[2..] + [Above(b, 1), live[0]]
    else live
  }

  /** The element above the stack, or number i of a list that is full. */
  function Above(b: Builder, i: nat): int
    requires 0 <= b.ptr < |b.cf| && i <= b.ptr
  {
    if b.ptr + 1 < |b.cf| then b.cf[b.ptr + 1] else b.cf[i]
  }

  lemma {:induction false} ShiftedSplit(cf: seq<int>, p: int, m: nat, n: nat)
    ensures Shifted(cf, p, m + n) == (match Shifted(cf, p, m) case Raise => Raise case Ok(c) => Shifted(c, p + m, n))
    decreases m
  {
    if m > 0 {
      var dst, src := Index(|cf|, p), Index(|cf|, p + 1);
      if dst.Some? && src.Some? {
        ShiftedSplit(cf[dst.value := cf[src.value]], p + 1, m - 1, n);
      }
    }
  }

  /** Counted from the end, below the end. */
  lemma {:induction false} ShiftedFromEnd(cf: seq<int>, p: int, n: nat)
    requires p < 0 <= |cf| + p && p + n < 0
    ensures Shifted(cf, p, n) == Shifted(cf, |cf| + p, n)
    decreases n
  {
    if n > 0 {
      ShiftedFromEnd(cf[|cf| + p := cf[|cf| + p + 1]], p + 1, n - 1);
    }
  }

  /** The list once the part from place q on has been shifted, the first
      element coming in behind the last. */
  function Wrapped(cf: seq<int>, q: nat): (c: seq<int>)
    requires q < |cf|
    ensures |c| == |cf|
  {
    cf[..q] + cf[q + 1..] + [if q == 0 && |cf| > 1 then cf[1] else cf[0]]
  }

  lemma ShiftedOnce(c: seq<int>)
    requires c != []
    ensures Shifted(c, -1, 1) == Ok(c[|c| - 1 := c[0]])
  {}

  lemma ShiftedToEnd(cf: seq<int>, q: nat)
    requires q < |cf|
    ensures Shifted(cf, q - |cf|, |cf| - q) == Ok(Wrapped(cf, q))
  {
    hide Shifted, Index;
    var n := |cf|;
    var c := cf[..q] + cf[q + 1..] + [cf[n - 1]];
    ShiftedFromEnd(cf, q - n, n - q - 1);
    ShiftedWithin(cf, q, n - q - 1);
    assert cf[..q] + cf[q + 1..q + (n - q - 1) + 1] + cf[q + (n - q - 1)..] == c;
    ShiftedSplit(cf, q - n, n - q - 1, 1);
    ShiftedOnce(c);
    assert c[n - 1 := c[0]] == Wrapped(cf, q);
  }

  /** Shifting across the end of the list and on to the place ptr. */
  lemma ShiftedAround(cf: seq<int>, q: nat, ptr: nat)
    requires q < |cf| && ptr < |cf|
    ensures Shifted(cf, q - |cf|, |cf| - q + ptr) == Ok(Wrapped(cf, q)[1..ptr + 1] + Wrapped(cf, q)[ptr..])
  {
    hide Shifted, Wrapped;
    ShiftedToEnd(cf, q);
    ShiftedSplit(cf, q - |cf|, |cf| - q, ptr);
    var c := Wrapped(cf, q);
    ShiftedWithin(c, 0, ptr);
    assert c[..0] + c[1..0 + ptr + 1] + c[0 + ptr..] == c[1..ptr + 1] + c[ptr..];
  }

  lemma WrappedElement(cf: seq<int>, q: nat, k: nat)
    requires q < |cf| && k < |cf|
    ensures Wrapped(cf, q)[k] ==
            if k < q then cf[k] else if k + 1 < |cf| then cf[k + 1] else if q == 0 && |cf| > 1 then cf[1] else cf[0]
  {}

  lemma WrappedAt(cf: seq<int>, q: nat, ptr: nat)
    requires q < |cf| && ptr < |cf|
    ensures var c := Wrapped(cf, q)[1..ptr + 1];
            var above := if ptr + 1 < |cf| then cf[ptr + 1] else if q == 0 && |cf| > 1 then cf[1] else cf[0];
            && (q > ptr ==> c == cf[1..ptr + 1])
            && (0 < q <= ptr ==> c == cf[1..q] + cf[q + 1..ptr + 1] + [above])
            && (0 == q < ptr ==> c == cf[2..ptr + 1] + [above])
  {
    hide Wrapped;
    var w, c := Wrapped(cf, q), Wrapped(cf, q)[1..ptr + 1];
    var above := if ptr + 1 < |cf| then cf[ptr + 1] else if q == 0 && |cf| > 1 then cf[1] else cf[0];
    forall k | 0 <= k < ptr
      ensures c[k] == if k + 1 < q then cf[k + 1] else if k + 1 < ptr then cf[k + 2] else above
    {
      assert c[k] == w[k + 1];
      WrappedElement(cf, q, k + 1);
    }
  }

  lemma WrappedLive(b: Builder, depth: int)
    requires 0 <= b.ptr < |b.cf| && Roll(b, depth).Ok? && depth > b.ptr
    ensures var q := |b.cf| + b.ptr - depth;
            0 <= q < |b.cf| && Wrapped(b.cf, q)[1..b.ptr + 1] + [b.cf[q]] == Rolled(b, depth)
  {
    hide Shifted, Wrapped;
    var q := |b.cf| + b.ptr - depth;
    var cf, ptr, live := b.cf, b.ptr, Live(b);
    WrappedAt(cf, q, ptr);
    assert live[1..] == cf[1..ptr + 1];
    if 0 < q <= ptr {
      assert live[1..q] == cf[1..q] && live[q + 1..] == cf[q + 1..ptr + 1];
    } else if q == 0 && ptr > 0 {
      assert live[2..] == cf[2..ptr + 1];
    }
  }

  lemma RollLeaves(b: Builder, depth: int)
    requires 0 <= b.ptr < |b.cf| && Roll(b, depth).Ok?
    ensures var b' := Roll(b, depth).value;
            b' == b.(cf := b'.cf) && |b'.cf| == |b.cf| && Live(b') == Rolled(b, depth)
  {
    if 0 <= depth <= b.ptr {
      RollWithin(b, depth);
    } else if depth > b.ptr {
      WrappedLive(b, depth);
      RollAround(b, depth);
    }
  }

  lemma RollAround(b: Builder, depth: int)
    requires 0 <= b.ptr < |b.cf| && Roll(b, depth).Ok? && depth > b.ptr
    ensures var b' := Roll(b, depth).value;
            var q := |b.cf| + b.ptr - depth;
            && 0 <= q < |b.cf| && b' == b.(cf := b'.cf) && |b'.cf| == |b.cf|
            && Live(b') == Wrapped(b.cf, q)[1..b.ptr + 1] + [b.cf[q]]
  {
    hide Shifted, Wrapped;
    ShiftedAround(b.cf, |b.cf| + b.ptr - depth, b.ptr);
  }

  /** A roll at any depth that succeeds on a stack that is not empty keeps the
      invariant exactly if it brings in only origins and destinations, and
      drops no jump that is still to be resolved. */
  lemma RollExactly(b: Builder, depth: int)
    requires Inv(b) && b.ptr >= 0 && Roll(b, depth).Ok?
    ensures Inv(Roll(b, depth).value) <==>
            && (forall x <- Rolled(b, depth) :: x in Live(b) || EntryGood(b.code, x))
            && (forall x <- Live(b) | Dangling(b, x) :: x in Rolled(b, depth))
  {
    hide Roll, Rolled;
    RollLeaves(b, depth);
    var b' := Roll(b, depth).value;
    forall i | 0 <= i < |b.code| ensures LocalGood(b', i) && NameGood(b', i) {
      assert LocalGood(b, i) && NameGood(b, i);
    }
    forall i: nat | i < |b.code| && b.code[i].IsJump() && b.code[i].disp.Some? ensures JumpGood(b', i) {
      assert JumpGood(b, i);
    }
  }

  lemma {:induction false} ShiftedLength(cf: seq<int>, p: int, n: int)
    requires Shifted(cf, p, n).Ok?
    ensures |Shifted(cf, p, n).value| == |cf| && forall x <- Shifted(cf, p, n).value :: x in cf
    decreases n
  {
    if n > 0 {
      var cf' := cf[Index(|cf|, p).value := cf[Index(|cf|, p + 1).value]];
      ShiftedLength(cf', p + 1, n - 1);
    }
  }

  /** On an empty stack a roll moves nothing that counts. */
  lemma RollOnEmpty(b: Builder, depth: int)
    requires Inv(b) && b.ptr == -1 && Roll(b, depth).Ok?
    ensures Inv(Roll(b, depth).value)
  {
    ShiftedLength(b.cf, b.ptr - depth, depth);
    var b' := Roll(b, depth).value;
    assert Live(b) == Live(b') == [];
    forall i | 0 <= i < |b.code| ensures LocalGood(b', i) && NameGood(b', i) {
      assert LocalGood(b, i) && NameGood(b, i);
    }
    forall i: nat | i < |b.code| && b.code[i].IsJump() && b.code[i].disp.Some? ensures JumpGood(b', i) {
      assert JumpGood(b, i);
    }
  }

  // ----- what every sequence of calls keeps -----

  /** Whatever the control-flow list holds: destinations in it lie in the code,
      and resolved jumps stay in range. */
  ghost predicate Loose(b: Builder)
  {
    && |b.names| == |b.code| && b.cf != []
    && (b.code == [] ==> b.jumpToLast)
    && (forall x | x in b.cf :: -x - 1 <= |b.code|)
    && (forall i: nat | i < |b.code| :: OpLoose(b, i))
    && (forall l | l in b.locals :: b.locals[l] < |b.locals|)
  }

  predicate OpLoose(b: Builder, i: nat)
    requires i < |b.code| == |b.names|
  {
    && LocalGood(b, i) && NameGood(b, i)
    && (b.code[i].IsJump() && b.code[i].disp.Some? ==> JumpGood(b, i))
  }

  lemma LooseAdd(b: Builder, op: Op, name: Option<string>)
    requires Loose(b)
    requires op.IsJump() && op.disp.Some? ==> 0 <= |b.code| + 1 + op.disp.value <= |b.code|
    requires op.GetLocal? || op.PutLocal? ==> op.num < |b.locals|
    requires name.Some? <==> op == Call(Unresolved)
    ensures Loose(Add(b, op, name))
  {
    var b' := Add(b, op, name);
    forall i: nat | i < |b'.code| ensures OpLoose(b', i) {
      if i < |b.code| {
        assert b'.code[i] == b.code[i] && OpLoose(b, i);
      }
    }
  }

  /** The list may change in any way that keeps its destinations in the code. */
  lemma LooseList(b: Builder, b': Builder)
    requires Loose(b) && b' == b.(cf := b'.cf, ptr := b'.ptr) && b'.cf != []
    requires forall x | x in b'.cf :: x in b.cf || -x - 1 <= |b.code|
    ensures Loose(b')
  {
    forall i: nat | i < |b'.code| ensures OpLoose(b', i) {
      assert OpLoose(b, i);
    }
  }

  lemma LoosePush(b: Builder, x: int)
    requires Loose(b) && CsPush(b, x).Ok? && -x - 1 <= |b.code|
    ensures Loose(CsPush(b, x).value) && CsPush(b, x).value.code == b.code
  {
    LooseList(b, CsPush(b, x).value);
  }

  lemma LooseForward(b: Builder, op: Op)
    requires Loose(b) && op.IsJump() && op.disp.None? && Forward(b, op).Ok?
    ensures Loose(Forward(b, op).value)
  {
    hide Loose;
    LoosePush(b, |b.code|);
    LooseAdd(CsPush(b, |b.code|).value, op, None);
  }

  lemma LooseThen(b: Builder)
    requires Loose(b) && ThenStep(b).Ok?
    ensures Loose(ThenStep(b).value)
  {
    var b' := ThenStep(b).value;
    forall i: nat | i < |b'.code| ensures OpLoose(b', i) {
      assert OpLoose(b, i);
    }
  }

  lemma LooseBackward(b: Builder, kind: JumpKind)
    requires Loose(b) && Backward(b, kind).Ok?
    ensures Loose(Backward(b, kind).value)
  {
    var (x, b1) := CsPop(b).value;
    assert x in b.cf;
    LooseList(b, b1);
    LooseAdd(b1, JumpOp(kind, Some(-x - 1 - |b.code| - 1)), None);
  }

  lemma LooseRoll(b: Builder, depth: int)
    requires Loose(b) && Roll(b, depth).Ok?
    ensures Loose(Roll(b, depth).value)
  {
    ShiftedLength(b.cf, b.ptr - depth, depth);
    LooseList(b, Roll(b, depth).value);
  }

  lemma LoosePick(b: Builder, depth: int)
    requires Loose(b) && Pick(b, depth).Ok?
    ensures Loose(Pick(b, depth).value)
  {
    var x := b.cf[Index(|b.cf|, b.ptr - depth).value];
    assert x in b.cf;
    LoosePush(b, x);
  }

  lemma LooseDef(b: Builder, name: string)
    requires Loose(b) && name !in b.locals
    ensures Loose(b.(locals := b.locals[name := |b.locals|]))
  {
    var b' := b.(locals := b.locals[name := |b.locals|]);
    assert |b'.locals| == |b.locals| + 1;
    forall i: nat | i < |b'.code| ensures OpLoose(b', i) {
      assert OpLoose(b, i);
    }
  }

  lemma LooseCall(b: Builder, name: string)
    requires Loose(b)
    ensures Loose(CallStep(b, name))
  {
    var lname := if name != [] && name[0] == '>' then name[1..] else name;
    if lname in b.locals {
      LooseAdd(b, GetLocal(b.locals[lname]), None);
      LooseAdd(b, PutLocal(b.locals[lname]), None);
    } else {
      LooseAdd(b, Call(Unresolved), Some(name));
    }
  }

  /** Any call that succeeds, whatever the stack. */
  lemma LooseApply(b: Builder, a: Action)
    requires Loose(b) && Apply(b, a).Ok? && (a.CallExt? ==> !a.target.Unresolved?)
    ensures Loose(Apply(b, a).value)
  {
    hide LocalGood, NameGood, JumpGood, Roll, Forward, Backward, ThenStep, CsPush, Add, OpLoose;
    match a
    case Literal(v) => LooseAdd(b, Const(v), None);
    case CallName(name) => LooseCall(b, name);
    case CallExt(t) => LooseAdd(b, Call(t), None);
    case GetNamed(name) => LooseAdd(b, GetLocal(b.locals[name]), None);
    case PutNamed(name) => LooseAdd(b, PutLocal(b.locals[name]), None);
    case DefLocal(name) => LooseDef(b, name);
    case AddRet => LooseAdd(b, Ret, None);
    case Ahead => LooseForward(b, Jump(None));
    case AheadIf => LooseForward(b, JumpIf(None));
    case AheadIfNot => LooseForward(b, JumpIfNot(None));
    case Then => LooseThen(b);
    case Begin => LoosePush(b, -|b.code| - 1);
    case Again => LooseBackward(b, Always);
    case AgainIf => LooseBackward(b, IfTrue);
    case AgainIfNot => LooseBackward(b, IfFalse);
    case CsRoll(d) => LooseRoll(b, d);
    case CsPick(d) => LoosePick(b, d);
  }

  predicate WordsGiven(actions: seq<Action>)
  {
    forall a <- actions :: a.CallExt? ==> !a.target.Unresolved?
  }

  lemma {:induction false} LooseApplyAll(b: Builder, actions: seq<Action>)
    requires Loose(b) && WordsGiven(actions) && ApplyAll(b, actions).Ok?
    ensures Loose(ApplyAll(b, actions).value)
    decreases |actions|
  {
    hide Loose, Apply;
    if actions != [] {
      LooseApply(b, actions[0]);
      LooseApplyAll(Apply(b, actions[0]).value, actions[1..]);
    }
  }

  /** Then the word that build accepts is good but for jumps left unresolved. */
  lemma BuiltFromLoose(b: Builder)
    requires Loose(b) && BuildWord(b).Ok?
    ensures BuiltGood(BuildWord(b).value) <==> forall x: nat | x < |b.code| :: !Dangling(b, x)
  {
    var b' := BuildWord(b).value;
    forall i: nat | i < |b.code|
      ensures b'.code[i] == b.code[i] && LocalGood(b', i) && NameGood(b', i)
      ensures b.code[i].IsJump() && b.code[i].disp.Some? ==> 0 <= i + 1 + b.code[i].disp.value < |b'.code|
    {
      assert OpLoose(b, i);
    }
    if BuiltGood(b') {
      forall x: nat | x < |b.code| ensures !Dangling(b, x) {
        assert LocalGood(b', x);
      }
    } else if forall x: nat | x < |b.code| :: !Dangling(b, x) {
      forall i | 0 <= i < |b'.code|
        ensures LocalGood(b', i) && NameGood(b', i)
        ensures b'.code[i].IsJump() ==> b'.code[i].disp.Some? && 0 <= i + 1 + b'.code[i].disp.value < |b'.code|
      {
        assert i < |b.code| ==> !Dangling(b, i);
      }
    }
  }

  // ----- counting the jumps still to be resolved -----

  function OpenJumps(code: seq<Op>): nat
  {
    if code == [] then 0 else
    OpenJumps(code[..|code| - 1]) + if IsOpen(code[|code| - 1]) then 1 else 0
  }

  lemma OneMoreOp(code: seq<Op>, op: Op)
    ensures OpenJumps(code + [op]) == OpenJumps(code) + if IsOpen(op) then 1 else 0
  {
    assert (code + [op])[..|code|] == code;
  }

  lemma {:induction false} OneJumpResolved(code: seq<Op>, x: nat, op: Op)
    requires x < |code| && IsOpen(code[x]) && !IsOpen(op)
    ensures OpenJumps(code[x := op]) == OpenJumps(code) - 1
    decreases |code|
  {
    var n := |code| - 1;
    if x < n {
      assert code[x := op][..n] == code[..n][x := op];
      OneJumpResolved(code[..n], x, op);
    } else {
      assert code[x := op][..n] == code[..n];
    }
  }

  lemma {:induction false} NoneOpen(code: seq<Op>)
    ensures OpenJumps(code) == 0 <==> forall x | 0 <= x < |code| :: !IsOpen(code[x])
    decreases |code|
  {
    if code != [] {
      var n := |code| - 1;
      NoneOpen(code[..n]);
      assert forall x | 0 <= x < n :: code[..n][x] == code[x];
    }
  }

  /** What a call that succeeds does to the number of open jumps. */
  function Opens(a: Action): int
  {
    match a
    case Ahead => 1
    case AheadIf => 1
    case AheadIfNot => 1
    case Then => -1
    case _ => 0
  }

  function Balance(actions: seq<Action>): int
  {
    if actions == [] then 0 else Opens(actions[0]) + Balance(actions[1..])
  }

  lemma ApplyOpens(b: Builder, a: Action)
    requires Apply(b, a).Ok?
    ensures OpenJumps(Apply(b, a).value.code) == OpenJumps(b.code) + Opens(a)
  {
    hide OpenJumps, Shifted, Index;
    var b' := Apply(b, a).value;
    if a.Then? {
      var x := CsPop(b).value.0;
      OneJumpResolved(b.code, x, b'.code[x]);
    } else if b'.code != b.code {
      OneMoreOp(b.code, b'.code[|b.code|]);
    }
  }

  lemma {:induction false} ApplyAllOpens(b: Builder, actions: seq<Action>)
    requires ApplyAll(b, actions).Ok?
    ensures OpenJumps(ApplyAll(b, actions).value.code) == OpenJumps(b.code) + Balance(actions)
    decreases |actions|
  {
    hide Apply, OpenJumps;
    if actions != [] {
      ApplyOpens(b, actions[0]);
      ApplyAllOpens(Apply(b, actions[0]).value, actions[1..]);
    }
  }

  /** Whatever calls are made, at any depth and on an empty stack too: the word
      that build accepts is a good one exactly if there are as many calls of
      then as forward jumps. */
  lemma BuiltExactly(actions: seq<Action>)
    requires WordsGiven(actions) && ApplyAll(FRESH, actions).Ok?
    requires BuildWord(ApplyAll(FRESH, actions).value).Ok?
    ensures BuiltGood(BuildWord(ApplyAll(FRESH, actions).value).value) <==> Balance(actions) == 0
  {
    hide ApplyAll, BuiltGood, Loose;
    var b := ApplyAll(FRESH, actions).value;
    LooseFresh();
    LooseApplyAll(FRESH, actions);
    BuiltFromLoose(b);
    ApplyAllOpens(FRESH, actions);
    assert OpenJumps(FRESH.code) == 0;
    NoneDangling(b);
  }

  lemma NoneDangling(b: Builder)
    ensures OpenJumps(b.code) == 0 <==> forall x: nat | x < |b.code| :: !Dangling(b, x)
  {
    NoneOpen(b.code);
    forall x: nat | x < |b.code| ensures Dangling(b, x) <==> IsOpen(b.code[x]) {}
  }

  lemma LooseFresh()
    ensures Loose(FRESH)
  {}

  function Repeat(a: Action, n: nat): (r: seq<Action>)
    ensures |r| == n
  {
    if n == 0 then [] else [a] + Repeat(a, n - 1)
  }

  lemma {:induction false} ApplyAllSplit(b: Builder, x: seq<Action>, y: seq<Action>)
    ensures ApplyAll(b, x + y) == (match ApplyAll(b, x) case Raise => Raise case Ok(b') => ApplyAll(b', y))
    decreases |x|
  {
    if x == [] {
      assert x + y == y;
    } else {
      assert (x + y)[1..] == x[1..] + y;
      if Apply(b, x[0]).Ok? {
        ApplyAllSplit(Apply(b, x[0]).value, x[1..], y);
      }
    }
  }

  lemma {:induction false} ManyBegins(b: Builder, n: nat)
    requires b.code == [] && |b.cf| == 16 && -1 <= b.ptr && b.ptr + n < 16
    ensures var r := ApplyAll(b, Repeat(Begin, n));
            && r.Ok? && r.value == b.(cf := r.value.cf, ptr := b.ptr + n) && |r.value.cf| == 16
            && (forall i | 0 <= i < 16 :: r.value.cf[i] == if b.ptr < i <= b.ptr + n then -1 else b.cf[i])
    decreases n
  {
    if n > 0 {
      ManyBegins(Apply(b, Begin).value, n - 1);
    }
  }

  lemma {:induction false} ManyAgains(b: Builder, n: nat)
    requires |b.cf| == 16 && -1 <= b.ptr - n <= b.ptr < 16
    requires forall i | 0 <= i < 16 :: b.cf[i] == -1
    ensures var r := ApplyAll(b, Repeat(Again, n));
            && r.Ok? && r.value.cf == b.cf && r.value.ptr == b.ptr - n && |r.value.code| == |b.code| + n
            && (n > 0 ==> !r.value.jumpToLast && !r.value.code[|r.value.code| - 1].MayFallThrough())
    decreases n
  {
    if n > 0 {
      var b' := Apply(b, Again).value;
      ManyAgains(b', n - 1);
    }
  }

  /** The calls that get round build: sixteen loops opened and closed, a
      seventeenth closed that was never opened, and a forward jump. */
  const UNDERFLOW: seq<Action> := Repeat(Begin, 16) + Repeat(Again, 16) + [Again, Ahead]

  /** The last two calls, on a stack emptied of destinations. */
  lemma PastTheEnd(b: Builder)
    requires |b.cf| == 16 && b.ptr == -1 && forall i | 0 <= i < 16 :: b.cf[i] == -1
    ensures var r := ApplyAll(b, [Again, Ahead]);
            && r.Ok? && r.value.ptr == -1 && !r.value.jumpToLast
            && |r.value.code| == |b.code| + 2 && r.value.code[|b.code| + 1] == Jump(None)
  {
    var b3 := Apply(b, Again).value;
    assert b3.ptr == -2 && b3.cf == b.cf;
    var b4 := Apply(b3, Ahead).value;
    assert [Again, Ahead][1..] == [Ahead] && [Ahead][1..] == [];
    assert ApplyAll(b, [Again, Ahead]) == ApplyAll(b3, [Ahead]) == ApplyAll(b4, []) == Ok(b4);
  }

  /** build then accepts a word that ends in a jump to nowhere. */
  lemma UnderflowBuilds()
    ensures ApplyAll(FRESH, UNDERFLOW).Ok?
    ensures var r := BuildWord(ApplyAll(FRESH, UNDERFLOW).value);
            r.Ok? && r.value.code[|r.value.code| - 1] == Jump(None) && !BuiltGood(r.value)
  {
    hide ApplyAll, Repeat;
    ManyBegins(FRESH, 16);
    var b1 := ApplyAll(FRESH, Repeat(Begin, 16)).value;
    ManyAgains(b1, 16);
    ApplyAllSplit(FRESH, Repeat(Begin, 16), Repeat(Again, 16));
    ApplyAllSplit(FRESH, Repeat(Begin, 16) + Repeat(Again, 16), [Again, Ahead]);
    PastTheEnd(ApplyAll(b1, Repeat(Again, 16)).value);
  }
}
