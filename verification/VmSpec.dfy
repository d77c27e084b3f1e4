/** The virtual machine that T0Comp.generate emits as C: the instruction
    dispatch loop, T0_ENTER, and the return-stack discipline. */
module VmSpec {
  import opened Base128
  import opened Program

  /** What the generated C file contains: the code block, the addresses of the
      interpreted words (uint16_t), the first interpreted slot, the C code in
      each native case of the switch, and whether opcodes are single bytes. */
  datatype Image = Image(code: seq<byte>, caddr: seq<nat>, interpreted: nat,
                         cases: map<nat, nat>, oneByte: bool)

  /** The registers and the memory they point to. The data stack is its part
      below dp; the return stack is the whole memory block, filled up to rp. */
  datatype Vm = Vm(ip: nat, ds: seq<uint32>, rs: seq<uint32>, rp: nat)

  /** One pass through the loop: a new state, the exit taken by the last ret,
      the exit taken by a native case, or an access outside the code block,
      outside the stacks or outside the tables. */
  datatype VmStep = Go(vm: Vm) | Exited(vm: Vm) | NativeExit | Fault

  /** T0_NEXT */
  function NextOp(im: Image, p: nat): (r: Parsed)
    ensures r.Parsed? ==> p < r.next && 0 <= r.value
  {
    if im.oneByte then
      if p < |im.code| then Parsed(im.code[p], p + 1) else Overrun
    else ParseU(im.code, p)
  }

  /** T0_ENTER */
  function EnterVm(im: Image, vm: Vm, slot: nat): VmStep
    requires slot >= im.interpreted
  {
    if slot - im.interpreted >= |im.caddr| then Fault
    else
      match ParseU(im.code, im.caddr[slot - im.interpreted])
      case Overrun => Fault
      case Parsed(lnum, newip) =>
        var rp := vm.rp + lnum;
        if rp >= |vm.rs| then Fault
        else Go(Vm(newip, vm.ds, vm.rs[rp := U32(vm.ip + U32(lnum * 0x1_0000))], rp + 1))
  }

  /** ret: pop the return address and the locals below it. */
  function RetVm(vm: Vm): VmStep
  {
    if !(1 <= vm.rp <= |vm.rs|) then Fault
    else
      var x := vm.rs[vm.rp - 1];
      var rp := vm.rp - 1 - x / 0x1_0000;
      if rp < 0 then Fault
      else if x % 0x1_0000 == 0 then Exited(vm.(rp := rp))
      else Go(vm.(rp := rp, ip := x % 0x1_0000))
  }

  /** The index of T0_LOCAL(x) in the return stack. */
  function LocalIndex(vm: Vm, x: int): int
  {
    vm.rp - 2 - x
  }

  function JumpVm(vm: Vm, taken: bool, off: int): VmStep
  {
    if !taken then Go(vm)
    else if vm.ip + off < 0 then Fault
    else Go(vm.(ip := vm.ip + off))
  }

  function PopVm(vm: Vm): Vm
    requires vm.ds != []
  {
    vm.(ds := vm.ds[..|vm.ds| - 1])
  }

  function TopVm(vm: Vm): uint32
    requires vm.ds != []
  {
    vm.ds[|vm.ds| - 1]
  }

  function ToU32s(s: seq<int32>): (r: seq<uint32>)
    ensures |r| == |s|
  {
    seq(|s|, i requires 0 <= i < |s| => U32(s[i]))
  }

  function ToI32s(s: seq<uint32>): (r: seq<int32>)
    ensures |r| == |s|
  {
    seq(|s|, i requires 0 <= i < |s| => I32(s[i]))
  }

  /** The C code of a native word does to the cells what the word does to the
      integers they stand for. */
  function NativeVm(native: Natives, cc: nat, vm: Vm): VmStep
  {
    match native(cc, ToI32s(vm.ds))
    case None => NativeExit
    case Some(s) => Go(vm.(ds := ToU32s(s)))
  }

  /** The switch, ip being past the opcode. */
  function Dispatch(im: Image, native: Natives, op: nat, vm: Vm): VmStep
  {
    if op >= im.interpreted then EnterVm(im, vm, op)
    else if op == 0 then RetVm(vm)
    else if op == 2 || op == 3 then
      match ParseU(im.code, vm.ip)
      case Overrun => Fault
      case Parsed(x, q) => LocalVm(op == 3, x, vm.(ip := q))
    else if op == 1 || op == 4 || op == 5 || op == 6 then
      match ParseS(im.code, vm.ip)
      case Overrun => Fault
      case Parsed(v, q) => SignedVm(op, v, vm.(ip := q))
    else if op in im.cases then NativeVm(native, im.cases[op], vm)
    else Go(vm)
  }

  function LocalVm(write: bool, x: int, vm: Vm): VmStep
  {
    var i := LocalIndex(vm, x);
    if !(0 <= i < |vm.rs|) then Fault
    else if !write then Go(vm.(ds := vm.ds + [vm.rs[i]]))
    else if vm.ds == [] then Fault
    else Go(PopVm(vm).(rs := vm.rs[i := TopVm(vm)]))
  }

  function SignedVm(op: nat, v: int, vm: Vm): VmStep
  {
    if op == 1 then Go(vm.(ds := vm.ds + [U32(v)]))
    else if op == 4 then JumpVm(vm, true, v)
    else if vm.ds == [] then Fault
    else if op == 5 then JumpVm(PopVm(vm), TopVm(vm) != 0, v)
    else JumpVm(PopVm(vm), TopVm(vm) == 0, v)
  }

  function StepVm(im: Image, native: Natives, vm: Vm): VmStep
  {
    match NextOp(im, vm.ip)
    case Overrun => Fault
    case Parsed(op, q) => Dispatch(im, native, op, vm.(ip := q))
  }

  function RunVm(im: Image, native: Natives, vm: Vm, n: nat): VmStep
    decreases n
  {
    if n == 0 then Go(vm)
    else
      match StepVm(im, native, vm)
      case Go(vm') => RunVm(im, native, vm', n - 1)
      case s => s
  }
}
