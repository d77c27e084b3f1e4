/** The word builder as the object it is: opcodes, control-flow list and locals
    updated call by call. */
module WordBuilder {
  import opened Wrappers
  import opened Program
  import opened BuilderSpec

  class BuilderObject {
    var code: seq<Op>
    var toResolve: seq<Option<string>>
    var cfStack: seq<int>
    var cfPtr: int
    var locals: map<string, nat>
    var jumpToLast: bool

    function State(): Builder
      reads this
    {
      Builder(code, toResolve, cfStack, cfPtr, locals, jumpToLast)
    }

    /** A call has done what the specification says, or has raised. */
    predicate Did(ok: bool, r: Result<Builder>)
      reads this
    {
      ok == r.Ok? && (ok ==> State() == r.value)
    }

    constructor ()
      ensures State() == FRESH
    {
      code, toResolve := [], [];
      cfStack, cfPtr := seq(16, _ => 0), -1;
      locals := map[];
      jumpToLast := true;
    }

    method AddOp(op: Op, name: Option<string>)
      modifies this
      ensures State() == Add(old(State()), op, name)
    {
      code := code + [op];
      toResolve := toResolve + [name];
      jumpToLast := false;
    }

    // ----- control-flow stack -----

    method PushEntry(x: int) returns (ok: bool)
      modifies this
      ensures Did(ok, CsPush(old(State()), x))
    {
      cfPtr := cfPtr + 1;
      if cfPtr == |cfStack| {
        cfStack := cfStack + seq(|cfStack|, _ => 0);
      }
      var i := Index(|cfStack|, cfPtr);
      if i.None? {
        return false;
      }
      cfStack := cfStack[i.value := x];
      return true;
    }

    method PopEntry() returns (ok: bool, x: int)
      modifies this
      ensures ok == CsPop(old(State())).Ok?
      ensures ok ==> (x, State()) == CsPop(old(State())).value
    {
      var i := Index(|cfStack|, cfPtr);
      if i.None? {
        return false, 0;
      }
      x := cfStack[i.value];
      cfPtr := cfPtr - 1;
      return true, x;
    }

    /** The loop of cs_roll. */
    method ShiftDown(depth: int) returns (ok: bool)
      modifies this`cfStack
      ensures var r := Shifted(old(cfStack), cfPtr - depth, depth);
              ok == r.Ok? && (ok ==> cfStack == r.value)
    {
      var cf := cfStack;
      var i := 0;
      while i < depth
        invariant 0 <= i && (depth >= 0 ==> i <= depth)
        invariant Shifted(cfStack, cfPtr - depth, depth) == Shifted(cf, cfPtr - depth + i, depth - i)
      {
        var dst := Index(|cf|, cfPtr - depth + i);
        var src := Index(|cf|, cfPtr - depth + i + 1);
        if dst.None? || src.None? {
          return false;
        }
        cf := cf[dst.value := cf[src.value]];
        i := i + 1;
      }
      cfStack := cf;
      return true;
    }

    method CsRollBy(depth: int) returns (ok: bool)
      modifies this
      ensures Did(ok, Roll(old(State()), depth))
    {
      hide Shifted;
      var from := Index(|cfStack|, cfPtr - depth);
      if from.None? {
        return false;
      }
      var x := cfStack[from.value];
      ok := ShiftDown(depth);
      if !ok {
        return false;
      }
      var top := Index(|cfStack|, cfPtr);
      if top.None? {
        return false;
      }
      cfStack := cfStack[top.value := x];
      return true;
    }

    method CsPickFrom(depth: int) returns (ok: bool)
      modifies this
      ensures Did(ok, Pick(old(State()), depth))
    {
      var from := Index(|cfStack|, cfPtr - depth);
      if from.None? {
        return false;
      }
      ok := PushEntry(cfStack[from.value]);
    }

    // ----- jumps -----

    /** ahead, ahead_if, ahead_if_not */
    method AheadWith(op: Op) returns (ok: bool)
      modifies this
      ensures Did(ok, Forward(old(State()), op))
    {
      ok := PushEntry(|code|);
      if ok {
        AddOp(op, None);
      }
    }

    /** then */
    method ThenHere() returns (ok: bool)
      modifies this
      ensures Did(ok, ThenStep(old(State())))
    {
      var x;
      ok, x := PopEntry();
      if !ok || x < 0 || x >= |code| || !code[x].IsJump() || code[x].disp.Some? {
        return false;
      }
      code := code[x := code[x].(disp := Some(|code| - x - 1))];
      jumpToLast := true;
    }

    /** again, again_if, again_if_not */
    method AgainWith(kind: JumpKind) returns (ok: bool)
      modifies this
      ensures Did(ok, Backward(old(State()), kind))
    {
      var x;
      ok, x := PopEntry();
      if !ok || x >= 0 {
        return false;
      }
      AddOp(JumpOp(kind, Some(-x - 1 - |code| - 1)), None);
    }

    // ----- calls and locals -----

    method CallByName(target: string)
      modifies this
      ensures State() == CallStep(old(State()), target)
    {
      var write := target != [] && target[0] == '>';
      var lname := if write then target[1..] else target;
      if lname in locals {
        if write {
          AddOp(PutLocal(locals[lname]), None);
        } else {
          AddOp(GetLocal(locals[lname]), None);
        }
      } else {
        AddOp(Call(Unresolved), Some(target));
      }
    }

    /** One call of the compiler. */
    method Do(a: Action) returns (ok: bool)
      modifies this
      ensures Did(ok, Apply(old(State()), a))
    {
      ok := true;
      match a {
        case Literal(v) => AddOp(Const(v), None);
        case CallName(name) => CallByName(name);
        case CallExt(t) => AddOp(Call(t), None);
        case GetNamed(name) =>
          if name !in locals {
            return false;
          }
          AddOp(GetLocal(locals[name]), None);
        case PutNamed(name) =>
          if name !in locals {
            return false;
          }
          AddOp(PutLocal(locals[name]), None);
        case DefLocal(name) =>
          if name in locals {
            return false;
          }
          locals := locals[name := |locals|];
        case AddRet => AddOp(Ret, None);
        case Ahead => ok := AheadWith(Jump(None));
        case AheadIf => ok := AheadWith(JumpIf(None));
        case AheadIfNot => ok := AheadWith(JumpIfNot(None));
        case Then => ok := ThenHere();
        case Begin => ok := PushEntry(-|code| - 1);
        case Again => ok := AgainWith(Always);
        case AgainIf => ok := AgainWith(IfTrue);
        case AgainIfNot => ok := AgainWith(IfFalse);
        case CsRoll(d) => ok := CsRollBy(d);
        case CsPick(d) => ok := CsPickFrom(d);
      }
    }

    method BuildWord() returns (ok: bool)
      modifies this
      ensures Did(ok, BuilderSpec.BuildWord(old(State())))
    {
      if cfPtr != -1 || (!jumpToLast && code == []) {
        return false;
      }
      if jumpToLast || code[|code| - 1].MayFallThrough() {
        AddOp(Ret, None);
      }
      return true;
    }
  }

  // ----- resolution -----

  /** WordInterpreted.resolve: every name left in toResolve is looked up and
      becomes the target of the call at its place; an unknown name raises. */
  method Resolve(code: seq<Op>, toResolve: seq<Option<string>>, dictionary: map<string, Target>)
    returns (r: Result<seq<Op>>)
    requires |toResolve| == |code|
    requires forall i | 0 <= i < |code| :: toResolve[i].Some? <==> code[i] == Call(Unresolved)
    ensures r.Ok? <==> forall i | 0 <= i < |code| && toResolve[i].Some? :: toResolve[i].value in dictionary
    ensures r.Ok? ==> |r.value| == |code| && forall i | 0 <= i < |code| ::
              r.value[i] == if toResolve[i].Some? then Call(dictionary[toResolve[i].value]) else code[i]
  {
    var res := code;
    for i := 0 to |code|
      invariant |res| == |code|
      invariant forall j | 0 <= j < i && toResolve[j].Some? :: toResolve[j].value in dictionary
      invariant forall j | 0 <= j < i ::
        res[j] == if toResolve[j].Some? then Call(dictionary[toResolve[j].value]) else code[j]
      invariant forall j | i <= j < |code| :: res[j] == code[j]
    {
      if toResolve[i].Some? {
        if toResolve[i].value !in dictionary {
          return Raise;
        }
        res := res[i := Call(dictionary[toResolve[i].value])];
      }
    }
    return Ok(res);
  }

  /** A word that was built by proper calls and resolved against a dictionary
      whose words all exist is what the rest of the compiler relies on. */
  lemma ResolvedIsGood(b: Builder, dictionary: map<string, Target>, code: seq<Op>, words: seq<Word>)
    requires BuiltGood(b)
    requires forall name | name in dictionary :: GoodTarget(words, dictionary[name])
    requires forall i | 0 <= i < |b.code| && b.code[i].Call? && !b.code[i].target.Unresolved? ::
               GoodTarget(words, b.code[i].target)
    requires |code| == |b.code|
    requires forall i | 0 <= i < |b.code| ::
               && (b.names[i].Some? ==> b.names[i].value in dictionary)
               && code[i] == if b.names[i].Some? then Call(dictionary[b.names[i].value]) else b.code[i]
    ensures GoodWord(words, Word(|b.locals|, code))
  {
    var w := Word(|b.locals|, code);
    forall i | 0 <= i < |w.code|
      ensures GoodOp(words, w, i)
    {
      assert LocalGood(b, i) && NameGood(b, i);
    }
    assert NameGood(b, |b.code| - 1);
  }

  predicate GoodTarget(words: seq<Word>, t: Target)
  {
    !t.Unresolved? && (t.Interpreted? ==> t.k < |words|)
  }
}
