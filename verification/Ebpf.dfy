/**
 The eBPF subset of the repository's programs, run on flat 64-bit addresses (RFC 9669).
 */
module Ebpf {
  import opened Words

  const REGS: nat := 11
  const CONTEXT_REG: nat := 1
  const STACK_REG: nat := 10

  type Reg = r: nat | r < 11

  datatype Option<+T> = None | Some(value: T)

  datatype Width = Byte | Half | Word | Double

  function Bytes(w: Width): nat {
    match w case Byte => 1 case Half => 2 case Word => 4 case Double => 8
  }

  /** Number of values a `w`-wide unsigned access can produce. */
  function Limit(w: Width): nat {
    match w case Byte => 0x100 case Half => 0x1_0000 case Word => 0x1_0000_0000 case Double => TWO_64
  }

  datatype Operand = Imm(imm: i32) | FromReg(reg: Reg)

  datatype AluOp = Mov | Add | Sub | AndOp | OrOp | XorOp | Lsh | Rsh | Arsh

  datatype Cond = Eq | Ne | Gt | Ge | Lt | Le | Set | Sgt | Sge | Slt | Sle

  datatype Insn =
    | Alu(op: AluOp, dst: Reg, src: Operand)
    | Const64(dst: Reg, value: u64)
    | Load(width: Width, signed: bool, dst: Reg, base: Reg, off: i16)
    | Store(width: Width, base: Reg, off: i16, src: Operand)
    | Jump(off: i16)
    | JumpIf(cond: Cond, lhs: Reg, rhs: Operand, off: i16)
    | Call(helper: i32)
    | Exit
    | Unsupported(opcode: u8)

  /** A loaded program and the one helper index configured to return a map value, if any. */
  datatype Vm = Vm(code: seq<Insn>, mapHelper: Option<i32>)

  // ----- 64-bit operations -----

  function Bits64(op: BitOp, a: u64, b: u64): u64 {
    Pow2Of64();
    Bitwise(op, a, b, 64)
  }

  /** Arithmetic shift right. */
  function Sar(a: u64, k: nat): u64 {
    if a < TWO_64 / 2 then Shr(a, k) else TWO_64 - 1 - Shr(TWO_64 - 1 - a, k)
  }

  function AluEval(op: AluOp, a: u64, b: u64): u64 {
    match op
    case Mov => b
    case Add => Wrap64(a + b)
    case Sub => Wrap64(a - b)
    case AndOp => Bits64(And, a, b)
    case OrOp => Bits64(Or, a, b)
    case XorOp => Bits64(Xor, a, b)
    case Lsh => Wrap64(Shl(a, b % 64))
    case Rsh => Shr(a, b % 64)
    case Arsh => Sar(a, b % 64)
  }

  function AsSigned(a: u64): int {
    if a < TWO_64 / 2 then a else a - TWO_64
  }

  predicate CondEval(c: Cond, a: u64, b: u64) {
    match c
    case Eq => a == b
    case Ne => a != b
    case Gt => a > b
    case Ge => a >= b
    case Lt => a < b
    case Le => a <= b
    case Set => Bits64(And, a, b) != 0
    case Sgt => AsSigned(a) > AsSigned(b)
    case Sge => AsSigned(a) >= AsSigned(b)
    case Slt => AsSigned(a) < AsSigned(b)
    case Sle => AsSigned(a) <= AsSigned(b)
  }

  // ----- memory -----

  /** Untagged bytes; an address that was never written reads as zero. */
  type Memory = map<u64, u8>

  function ReadByte(m: Memory, a: u64): u8 {
    if a in m then m[a] else 0
  }

  function LoadLE(m: Memory, a: u64, n: nat): (v: nat)
    ensures v < Pow256(n)
    decreases n
  {
    if n == 0 then 0 else ReadByte(m, a) + 0x100 * LoadLE(m, Wrap64(a + 1), n - 1)
  }

  function StoreLE(m: Memory, a: u64, n: nat, v: nat): Memory
    decreases n
  {
    if n == 0 then m else StoreLE(m[a := v % 0x100], Wrap64(a + 1), n - 1, v / 0x100)
  }

  lemma LimitIsPow256(w: Width)
    ensures Pow256(Bytes(w)) == Limit(w)
  {
    assert Pow256(4) == 0x1_0000_0000;
    assert Pow256(8) == 0x1_0000_0000 * Pow256(4);
  }

  /** The register value of a zero- or sign-extending load. */
  function LoadValue(m: Memory, a: u64, w: Width, signed: bool): u64 {
    LimitIsPow256(w);
    var raw := LoadLE(m, a, Bytes(w));
    if signed && raw >= Limit(w) / 2 then raw + TWO_64 - Limit(w) else raw
  }

  // ----- control flow -----

  /** Successors of the instruction at `pc`; a jump goes to pc + 1 + offset. */
  function Succs(insn: Insn, pc: nat): set<int> {
    match insn
    case Alu(_, _, _) => {pc + 1}
    case Const64(_, _) => {pc + 2}
    case Load(_, _, _, _, _) => {pc + 1}
    case Store(_, _, _, _) => {pc + 1}
    case Jump(off) => {pc + 1 + off}
    case JumpIf(_, _, _, off) => {pc + 1, pc + 1 + off}
    case Call(_) => {pc + 1}
    case Exit => {}
    case Unsupported(_) => {}
  }

  // ----- the objects a program runs beside -----

  datatype Region = Region(base: nat, length: nat)

  predicate Inside(region: Region, a: int, n: nat) {
    region.base <= a && a + n <= region.base + region.length
  }

  /**
   The three objects, the integers left in the other registers at entry, and the integers a
   helper call leaves in R1..R5 (indexed by the number of earlier calls).
   */
  datatype Env = Env(ctx: Region, stack: Region, mapValue: Region,
                     entry: Reg -> u64, scratch: (nat, Reg) -> u64)

  /** Regions lie in the address space and the stack is fresh memory. */
  predicate WellFormed(env: Env) {
    && env.ctx.base + env.ctx.length <= TWO_64
    && env.stack.base + env.stack.length <= TWO_64
    && env.mapValue.base + env.mapValue.length <= TWO_64
    && env.ctx.base < TWO_64 && env.stack.base < TWO_64 && env.mapValue.base < TWO_64
    && Disjoint(env.ctx, env.stack)
    && Disjoint(env.mapValue, env.stack)
  }

  predicate Disjoint(r: Region, s: Region) {
    r.base + r.length <= s.base || s.base + s.length <= r.base
  }

  function StackTop(env: Env): u64 {
    Wrap64(env.stack.base + env.stack.length)
  }

  /** The prologue clears the eBPF stack. */
  function ClearStack(env: Env, m: Memory): Memory {
    map a: u64 | a in m && !Inside(env.stack, a, 1) :: m[a]
  }

  // ----- flat-address execution -----

  datatype Outcome<+S> = Running(state: S) | Returned(result: u64) | Trapped(at: nat) | Stuck

  datatype FlatState = FlatState(pc: nat, regs: seq<u64>, mem: Memory, calls: nat)

  function FlatOperand(regs: seq<u64>, src: Operand): u64
    requires |regs| == REGS
  {
    match src case Imm(i) => Wrap64(i) case FromReg(r) => regs[r]
  }

  function FlatStart(env: Env, m: Memory): FlatState
    requires WellFormed(env)
  {
    var regs := seq(REGS, i requires 0 <= i < REGS => env.entry(i));
    FlatState(0, regs[CONTEXT_REG := env.ctx.base][STACK_REG := StackTop(env)], ClearStack(env, m), 0)
  }

  function FlatJump(s: FlatState, target: int): Outcome<FlatState> {
    if target < 0 then Stuck else Running(s.(pc := target))
  }

  function AfterCall(env: Env, calls: nat, r: Reg): u64
    requires WellFormed(env)
  {
    if r == 0 then env.mapValue.base else env.scratch(calls, r)
  }

  function FlatStep(env: Env, vm: Vm, s: FlatState): Outcome<FlatState>
    requires WellFormed(env) && |s.regs| == REGS
  {
    if s.pc >= |vm.code| then Stuck
    else match vm.code[s.pc]
      case Alu(op, d, src) =>
        Running(s.(pc := s.pc + 1, regs := s.regs[d := AluEval(op, s.regs[d], FlatOperand(s.regs, src))]))
      case Const64(d, v) =>
        Running(s.(pc := s.pc + 2, regs := s.regs[d := v]))
      case Load(w, sx, d, b, off) =>
        Running(s.(pc := s.pc + 1, regs := s.regs[d := LoadValue(s.mem, Wrap64(s.regs[b] + off), w, sx)]))
      case Store(w, b, off, src) =>
        Running(s.(pc := s.pc + 1,
                   mem := StoreLE(s.mem, Wrap64(s.regs[b] + off), Bytes(w), FlatOperand(s.regs, src))))
      case Jump(off) => FlatJump(s, s.pc + 1 + off)
      case JumpIf(c, l, src, off) =>
        FlatJump(s, if CondEval(c, s.regs[l], FlatOperand(s.regs, src)) then s.pc + 1 + off else s.pc + 1)
      case Call(h) =>
        if vm.mapHelper == Some(h) then
          var regs := seq(REGS, i requires 0 <= i < REGS =>
                            if i <= 5 then AfterCall(env, s.calls, i) else s.regs[i]);
          Running(s.(pc := s.pc + 1, regs := regs, calls := s.calls + 1))
        else Stuck
      case Exit => Returned(s.regs[0])
      case Unsupported(_) => Stuck
  }

  function FlatRun(env: Env, vm: Vm, m: Memory, n: nat): (o: Outcome<FlatState>)
    requires WellFormed(env)
    ensures o.Running? ==> |o.state.regs| == REGS
  {
    if n == 0 then Running(FlatStart(env, m))
    else match FlatRun(env, vm, m, n - 1)
      case Running(s) => FlatStep(env, vm, s)
      case done => done
  }
}
