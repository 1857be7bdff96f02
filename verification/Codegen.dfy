/**
 Emission: each eBPF instruction becomes one Morello-level operation, chosen by the kinds the
 analysis leaves at it.
 */
module Codegen {
  import opened Ebpf
  import opened Words
  import opened Kinds

  /** X-operations write an integer; C-operations keep a capability's bounds and tag. */
  datatype Code =
    | XAlu(op: AluOp, dst: Reg, src: Operand)
    | XConst(dst: Reg, value: u64)
    | CMov(dst: Reg, from: Reg)
    | CMove(dst: Reg, src: Operand, down: bool)
    | CLoad(width: Width, signed: bool, dst: Reg, base: Reg, off: i16)
    | CStore(width: Width, base: Reg, off: i16, src: Operand)
    | Branch(target: int)
    | BranchIf(cond: Cond, lhs: Reg, rhs: Operand, target: int)
    | CallMap
    | Ret
    | Udf

  function LowerAlu(op: AluOp, d: Reg, src: Operand, ks: KindMap): Code {
    match op
    case Mov => if src.FromReg? && ks[src.reg].Capability? then CMov(d, src.reg) else XAlu(Mov, d, src)
    case Add => if ks[d].Capability? then CMove(d, src, false) else XAlu(Add, d, src)
    case Sub => if ks[d].Capability? then CMove(d, src, true) else XAlu(Sub, d, src)
    case _ => XAlu(op, d, src)
  }

  function Lower(insn: Insn, pc: nat, ks: KindMap): Code {
    match insn
    case Alu(op, d, src) => LowerAlu(op, d, src, ks)
    case Const64(d, v) => XConst(d, v)
    case Load(w, sx, d, b, off) => CLoad(w, sx, d, b, off)
    case Store(w, b, off, src) => CStore(w, b, off, src)
    case Jump(off) => Branch(pc + 1 + off)
    case JumpIf(c, l, rhs, off) => BranchIf(c, l, rhs, pc + 1 + off)
    case Call(_) => CallMap
    case Exit => Ret
    case Unsupported(_) => Udf
  }

  /** Code for a table of analysed kinds; an instruction no path reaches is never executed. */
  function EmitAt(vm: Vm, table: seq<Option<KindMap>>, pc: nat): Code
    requires |table| == |vm.code| && pc < |vm.code|
  {
    match table[pc]
    case None => Udf
    case Some(ks) => Lower(vm.code[pc], pc, ks)
  }

  ghost function MopTable(vm: Vm): seq<Option<KindMap>> {
    seq(|vm.code|, pc requires 0 <= pc < |vm.code| => if Reaches(vm, pc) then Some(Mop(vm, pc)) else None)
  }

  ghost function Compiled(vm: Vm): seq<Code> {
    seq(|vm.code|, pc requires 0 <= pc < |vm.code| => EmitAt(vm, MopTable(vm), pc))
  }
}
