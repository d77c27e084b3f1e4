/** The compile-time CPU as an object: a data stack in a buffer that doubles,
    and a system stack of linked frames. */
module CpuMachine {
  import opened Base128
  import opened Wrappers
  import opened Program

  class FrameObject {
    const upper: FrameObject?
    const savedIp: Ip
    var locals: seq<Option<int32>>

    constructor (upper: FrameObject?, savedIp: Ip, numLocals: nat)
      ensures this.upper == upper && this.savedIp == savedIp
      ensures locals == seq(numLocals, _ => None)
    {
      this.upper := upper;
      this.savedIp := savedIp;
      locals := seq(numLocals, _ => None);
    }
  }

  function Head(chain: seq<FrameObject>): FrameObject?
  {
    if chain == [] then null else chain[0]
  }

  class CpuObject {
    var ip: Ip
    var buf: seq<int32>
    var ptr: int
    var rsp: FrameObject?
    ghost var chain: seq<FrameObject>

    /** The buffer holds the stack up to ptr, and chain lists the frames that
        rsp leads to, innermost first. */
    ghost predicate Valid()
      reads this
    {
      && -1 <= ptr < |buf| && |buf| >= 1
      && rsp == Head(chain)
      && (forall i | 0 <= i < |chain| :: chain[i].upper == Head(chain[i + 1..]))
      && (forall i, j | 0 <= i < j < |chain| :: chain[i] != chain[j])
    }

    function Stack(): seq<int32>
      requires -1 <= ptr < |buf|
      reads this
    {
      buf[..ptr + 1]
    }

    ghost function Frames(): (r: seq<Frame>)
      reads this, chain
      ensures |r| == |chain|
    {
      seq(|chain|, i requires 0 <= i < |chain| reads this, chain => Frame.Frame(chain[i].savedIp, chain[i].locals))
    }

    /** The state as a value. */
    ghost function State(): Cpu
      requires Valid()
      reads this, chain
    {
      Cpu(ip, Stack(), Frames())
    }

    constructor ()
      ensures Valid() && State() == Cpu(Nowhere, [], [])
    {
      ip := Nowhere;
      buf := seq(16, _ => 0);
      ptr := -1;
      rsp := null;
      chain := [];
    }

    // ----- data stack -----

    method Push(v: int32)
      requires Valid()
      modifies this`buf, this`ptr
      ensures Valid() && State() == old(State()).(stack := old(State()).stack + [v])
    {
      ptr := ptr + 1;
      if ptr == |buf| {
        buf := buf + seq(|buf|, _ => 0);
      }
      buf := buf[ptr := v];
      assert Stack() == old(Stack()) + [v];
    }

    method Pop() returns (v: int32)
      requires Valid() && State().stack != []
      modifies this`ptr
      ensures Valid() && v == Top(old(State()).stack)
      ensures State() == old(State()).(stack := Program.Pop(old(State()).stack))
    {
      v := buf[ptr];
      ptr := ptr - 1;
      assert Stack() == Program.Pop(old(Stack()));
    }

    method Peek(depth: nat) returns (v: int32)
      requires Valid() && depth < |Stack()|
      ensures v == Stack()[|Stack()| - 1 - depth]
    {
      v := buf[ptr - depth];
    }

    /** roll: the value at the given depth moves to the top. */
    method Rot(depth: nat)
      requires Valid() && depth < |Stack()|
      modifies this`buf
      ensures Valid() && Stack() == Rolled(old(Stack()), depth)
    {
      var idx := ptr - depth;
      var v := buf[idx];
      buf := buf[..idx] + buf[idx + 1..ptr + 1] + buf[ptr..];
      buf := buf[ptr := v];
      assert Stack() == Rolled(old(Stack()), depth);
    }

    /** The top value moves down to the given depth. */
    method NRot(depth: nat)
      requires Valid() && depth < |Stack()|
      modifies this`buf
      ensures Valid() && Stack() == Unrolled(old(Stack()), depth)
    {
      var idx := ptr - depth;
      var v := buf[ptr];
      buf := buf[..idx + 1] + buf[idx..ptr] + buf[ptr + 1..];
      buf := buf[idx := v];
      assert Stack() == Unrolled(old(Stack()), depth);
    }

    // ----- system stack -----

    method Enter(words: seq<Word>, k: nat)
      requires Valid() && k < |words|
      modifies this
      ensures Valid() && State() == Program.Enter(words, old(State()), k)
      ensures fresh(set f | f in chain && f !in old(chain))
      ensures buf == old(buf) && ptr == old(ptr)
    {
      var f := new FrameObject(rsp, ip, words[k].numLocals);
      rsp := f;
      chain := [f] + chain;
      ip := Pos(k, 0);
      assert Frames()[0] == Frame.Frame(old(ip), seq(words[k].numLocals, _ => None));
      assert Frames()[1..] == old(Frames());
      assert Frames() == [Frames()[0]] + Frames()[1..];
    }

    method Exit()
      requires Valid() && State().frames != []
      modifies this
      ensures Valid() && State() == Program.Exit(old(State()))
      ensures chain == old(chain)[1..]
    {
      ip := rsp.savedIp;
      rsp := rsp.upper;
      chain := chain[1..];
      assert Frames() == old(Frames())[1..];
    }

    method GetLocal(num: nat) returns (v: Option<int32>)
      requires Valid() && State().frames != [] && num < |State().frames[0].locals|
      ensures v == State().frames[0].locals[num]
    {
      v := rsp.locals[num];
    }

    method PutLocal(num: nat, v: int32)
      requires Valid() && State().frames != [] && num < |State().frames[0].locals|
      modifies chain
      ensures Valid()
      ensures var fs := old(State()).frames;
              State() == old(State()).(frames := [fs[0].(locals := fs[0].locals[num := Some(v)])] + fs[1..])
    {
      rsp.locals := rsp.locals[num := Some(v)];
    }

    // ----- running -----

    /** The body of the run loop: fetch, advance, Opcode.run. Like the list
        accesses behind it, it relies on the step having a meaning; the flow
        analysis is there to guarantee that. Returns whether the run goes on. */
    method Step(words: seq<Word>, native: Natives) returns (more: bool)
      requires Valid() && !StepCpu(words, native, State()).Stuck?
      modifies this, chain
      ensures Valid()
      ensures Ended(more, StepCpu(words, native, old(State())))
    {
      hide Run;
      var op := words[ip.word].code[ip.off];
      ip := Pos(ip.word, ip.off + 1);
      assert Frames() == old(Frames());
      assert StepCpu(words, native, old(State())) == Run(words, native, op, State());
      more := RunOp(words, native, op);
    }

    ghost predicate Ended(more: bool, s: Step)
      requires Valid()
      reads this, chain
    {
      match s
      case Next(c) => more && State() == c
      case _ => !more
    }

    method RunOp(words: seq<Word>, native: Natives, op: Op) returns (more: bool)
      requires Valid() && ip.Pos? && !Run(words, native, op, State()).Stuck?
      modifies this, chain
      ensures Valid()
      ensures Ended(more, Run(words, native, op, old(State())))
    {
      more := true;
      match op {
        case Const(v) =>
          Push(v);
        case GetLocal(n) =>
          var v := GetLocal(n);
          Push(v.value);
        case PutLocal(n) =>
          var v := Pop();
          PutLocal(n, v);
        case Jump(d) =>
          BranchTo(true, d);
        case JumpIf(d) =>
          var v := Pop();
          BranchTo(v != 0, d);
        case JumpIfNot(d) =>
          var v := Pop();
          BranchTo(v == 0, d);
        case Call(Native(cc)) =>
          more := RunNative(native, cc);
        case Call(Interpreted(k)) =>
          Enter(words, k);
        case Call(Unresolved) =>
        case Ret =>
          Exit();
      }
    }

    /** OpcodeJump.run */
    method BranchTo(taken: bool, disp: Option<int>)
      requires Valid() && ip.Pos? && !Branch(State(), taken, disp).Stuck?
      modifies this`ip
      ensures Valid() && Next(State()) == Branch(old(State()), taken, disp)
    {
      if taken {
        ip := Pos(ip.word, ip.off + disp.value);
      }
    }

    /** WordNative.run: the word works on the stack itself. */
    method RunNative(native: Natives, cc: nat) returns (more: bool)
      requires Valid()
      modifies this`buf, this`ptr
      ensures Valid()
      ensures var res := native(cc, old(State()).stack);
              more == res.Some? && (more ==> State() == old(State()).(stack := res.value))
    {
      var res := native(cc, Stack());
      more := res.Some?;
      if more {
        buf, ptr := res.value + [0], |res.value| - 1;
        assert Stack() == res.value;
      }
    }
  }

  // ----- rot and nrot -----

  function Rolled(s: seq<int32>, depth: nat): (r: seq<int32>)
    requires depth < |s|
    ensures |r| == |s|
  {
    var i := |s| - 1 - depth;
    s[..i] + s[i + 1..] + [s[i]]
  }

  function Unrolled(s: seq<int32>, depth: nat): (r: seq<int32>)
    requires depth < |s|
    ensures |r| == |s|
  {
    var i := |s| - 1 - depth;
    s[..i] + [s[|s| - 1]] + s[i..|s| - 1]
  }

  /** rot and nrot undo each other and move nothing else. */
  lemma RollInverse(s: seq<int32>, depth: nat)
    requires depth < |s|
    ensures Unrolled(Rolled(s, depth), depth) == s
    ensures Rolled(Unrolled(s, depth), depth) == s
    ensures multiset(Rolled(s, depth)) == multiset(s)
  {
    var i := |s| - 1 - depth;
    assert s == s[..i] + [s[i]] + s[i + 1..];
  }
}
