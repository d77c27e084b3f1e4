/** The emitted run function as it executes: registers and return stack
    updated in place, instruction by instruction. */
module VmMachine {
  import opened Base128
  import opened Program
  import opened VmSpec

  /** How a pass through the loop ends. */
  datatype Exit = Continue | ExitVm | ExitNative | Trap

  class Machine {
    var ip: nat
    var ds: seq<uint32>
    var rs: array<uint32>
    var rp: nat

    constructor (ds: seq<uint32>, rs: array<uint32>, rp: nat)
      ensures this.ip == 0 && this.ds == ds && this.rs == rs && this.rp == rp
    {
      this.ip, this.ds, this.rs, this.rp := 0, ds, rs, rp;
    }

    /** The state as a value. */
    function State(): Vm
      reads this, rs
    {
      Vm(ip, ds, rs[..], rp)
    }

    /** The outcome of a pass, as the specification names it. */
    ghost predicate Ends(e: Exit, r: VmStep)
      reads this, rs
    {
      match r
      case Go(vm) => e.Continue? && State() == vm
      case Exited(vm) => e.ExitVm? && ip == 0 && ds == vm.ds && rs[..] == vm.rs && rp == vm.rp
      case NativeExit => e.ExitNative?
      case Fault => e.Trap?
    }

    /** T0_ENTER, which is also the body of the generated entry points. */
    method Enter(im: Image, slot: nat) returns (e: Exit)
      requires slot >= im.interpreted
      modifies this, rs
      ensures rs == old(rs) && Ends(e, EnterVm(im, old(State()), slot))
    {
      if slot - im.interpreted >= |im.caddr| {
        return Trap;
      }
      var parsed := Parse7EUnsigned(im.code, im.caddr[slot - im.interpreted]);
      if parsed.Overrun? || rp + parsed.value >= rs.Length {
        return Trap;
      }
      var lnum := parsed.value;
      rp := rp + lnum;
      rs[rp] := U32(ip + U32(lnum * 0x1_0000));
      rp := rp + 1;
      ip := parsed.next;
      return Continue;
    }

    /** case 0 */
    method Ret() returns (e: Exit)
      modifies this
      ensures rs == old(rs) && Ends(e, RetVm(old(State())))
    {
      if !(1 <= rp <= rs.Length) {
        return Trap;
      }
      var x := rs[rp - 1];
      if rp - 1 < x / 0x1_0000 {
        return Trap;
      }
      rp := rp - 1 - x / 0x1_0000;
      ip := x % 0x1_0000;
      return if ip == 0 then ExitVm else Continue;
    }

    /** cases 2 and 3 */
    method Local(write: bool, x: nat) returns (e: Exit)
      modifies this, rs
      ensures rs == old(rs) && Ends(e, LocalVm(write, x, old(State())))
    {
      var i: int := rp - 2 - x;
      if !(0 <= i < rs.Length) {
        return Trap;
      }
      if !write {
        ds := ds + [rs[i]];
      } else {
        if ds == [] {
          return Trap;
        }
        rs[i] := ds[|ds| - 1];
        ds := ds[..|ds| - 1];
      }
      return Continue;
    }

    /** cases 1, 4, 5 and 6 */
    method WithSigned(op: nat, v: int) returns (e: Exit)
      requires op == 1 || op == 4 || op == 5 || op == 6
      modifies this
      ensures rs == old(rs) && Ends(e, SignedVm(op, v, old(State())))
    {
      var taken := true;
      if op == 1 {
        ds := ds + [U32(v)];
        return Continue;
      }
      if op != 4 {
        if ds == [] {
          return Trap;
        }
        var top := ds[|ds| - 1];
        ds := ds[..|ds| - 1];
        taken := if op == 5 then top != 0 else top == 0;
      }
      if taken {
        if ip + v < 0 {
          return Trap;
        }
        ip := ip + v;
      }
      return Continue;
    }

    /** One pass through the loop. */
    method Step(im: Image, native: Natives) returns (e: Exit)
      modifies this, rs
      ensures rs == old(rs) && Ends(e, StepVm(im, native, old(State())))
    {
      var op: nat;
      if im.oneByte {
        if ip >= |im.code| {
          return Trap;
        }
        op, ip := im.code[ip], ip + 1;
      } else {
        var parsed := Parse7EUnsigned(im.code, ip);
        if parsed.Overrun? {
          return Trap;
        }
        op, ip := parsed.value, parsed.next;
      }
      ghost var after := State();
      assert StepVm(im, native, old(State())) == Dispatch(im, native, op, after);
      if op >= im.interpreted {
        e := Enter(im, op);
      } else if op == 0 {
        e := Ret();
      } else if op == 2 || op == 3 {
        var parsed := Parse7EUnsigned(im.code, ip);
        if parsed.Overrun? {
          return Trap;
        }
        ip := parsed.next;
        e := Local(op == 3, parsed.value);
      } else if op == 1 || op == 4 || op == 5 || op == 6 {
        var parsed := Parse7ESigned(im.code, ip);
        if parsed.Overrun? {
          return Trap;
        }
        ip := parsed.next;
        e := WithSigned(op, parsed.value);
      } else if op in im.cases {
        var res := native(im.cases[op], ToI32s(ds));
        if res.None? {
          return ExitNative;
        }
        ds := ToU32s(res.value);
        return Continue;
      } else {
        return Continue;
      }
    }

    /** The run function, for at most n instructions. */
    method Run(im: Image, native: Natives, n: nat) returns (e: Exit)
      modifies this, rs
      ensures rs == old(rs) && Ends(e, RunVm(im, native, old(State()), n))
    {
      var i := 0;
      e := Continue;
      while i < n
        invariant i <= n && rs == old(rs)
        invariant RunVm(im, native, old(State()), n) == RunVm(im, native, State(), n - i)
      {
        e := Step(im, native);
        if !e.Continue? {
          return;
        }
        i := i + 1;
      }
      return Continue;
    }
  }
}
