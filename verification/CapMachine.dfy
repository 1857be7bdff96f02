/**
 The capability machine: registers hold integers or tagged capabilities, memory holds bytes
 without tags, and an access outside the authorising capability traps.
 */
module CapMachine {
  import opened Words
  import opened Ebpf
  import opened Codegen

  datatype Value = Int(n: u64) | Cap(region: Region, addr: u64)

  /** The integer view of a register: a capability shows its address. */
  function Bits(v: Value): u64 {
    match v case Int(n) => n case Cap(_, a) => a
  }

  datatype CapState = CapState(pc: nat, regs: seq<Value>, mem: Memory, calls: nat)

  function OperandBits(regs: seq<Value>, src: Operand): u64
    requires |regs| == REGS
  {
    match src case Imm(i) => Wrap64(i) case FromReg(r) => Bits(regs[r])
  }

  /** The address field moves; bounds and tag stay. */
  function Moved(v: Value, delta: u64, down: bool): Value {
    var a := Wrap64(if down then Bits(v) - delta else Bits(v) + delta);
    match v case Int(_) => Int(a) case Cap(region, _) => Cap(region, a)
  }

  /** Whether `v` authorises an `n`-byte access at address `a`. */
  predicate Authorises(v: Value, a: u64, n: nat) {
    v.Cap? && Inside(v.region, a, n)
  }

  /** R1 and R10 are bounded by the prologue, the stack is cleared, the rest are integers. */
  function EntryValue(env: Env, r: Reg): Value
    requires WellFormed(env)
  {
    if r == CONTEXT_REG then Cap(env.ctx, env.ctx.base)
    else if r == STACK_REG then Cap(env.stack, StackTop(env))
    else Int(env.entry(r))
  }

  function CapStart(env: Env, m: Memory): CapState
    requires WellFormed(env)
  {
    CapState(0, seq(REGS, r requires 0 <= r < REGS => EntryValue(env, r)), ClearStack(env, m), 0)
  }

  function CapJump(s: CapState, target: int): Outcome<CapState> {
    if target < 0 then Stuck else Running(s.(pc := target))
  }

  function Write(s: CapState, next: nat, d: Reg, v: Value): Outcome<CapState>
    requires |s.regs| == REGS
  {
    Running(s.(pc := next, regs := s.regs[d := v]))
  }

  /** A load at `a` authorised by `base`, or a trap. */
  function LoadThrough(s: CapState, w: Width, signed: bool, d: Reg, base: Value, a: u64): Outcome<CapState>
    requires |s.regs| == REGS
  {
    if Authorises(base, a, Bytes(w)) then Write(s, s.pc + 1, d, Int(LoadValue(s.mem, a, w, signed)))
    else Trapped(s.pc)
  }

  /** A store at `a` authorised by `base`, or a trap. */
  function StoreThrough(s: CapState, w: Width, base: Value, a: u64, v: u64): Outcome<CapState> {
    if Authorises(base, a, Bytes(w)) then Running(s.(pc := s.pc + 1, mem := StoreLE(s.mem, a, Bytes(w), v)))
    else Trapped(s.pc)
  }

  /** R0 is the bounded map value; a call leaves integers in R1..R5. */
  function CallValue(env: Env, calls: nat, regs: seq<Value>, r: Reg): Value
    requires WellFormed(env) && |regs| == REGS
  {
    if r == 0 then Cap(env.mapValue, env.mapValue.base)
    else if r <= 5 then Int(env.scratch(calls, r))
    else regs[r]
  }

  /** One operation. Constants occupy two instruction slots. */
  function CapStep(env: Env, code: seq<Code>, s: CapState): Outcome<CapState>
    requires WellFormed(env) && |s.regs| == REGS
  {
    if s.pc >= |code| then Stuck
    else match code[s.pc]
      case XAlu(op, d, src) =>
        Write(s, s.pc + 1, d, Int(AluEval(op, Bits(s.regs[d]), OperandBits(s.regs, src))))
      case XConst(d, v) => Write(s, s.pc + 2, d, Int(v))
      case CMov(d, from) => Write(s, s.pc + 1, d, s.regs[from])
      case CMove(d, src, down) => Write(s, s.pc + 1, d, Moved(s.regs[d], OperandBits(s.regs, src), down))
      case CLoad(w, sx, d, b, off) =>
        LoadThrough(s, w, sx, d, s.regs[b], Wrap64(Bits(s.regs[b]) + off))
      case CStore(w, b, off, src) =>
        StoreThrough(s, w, s.regs[b], Wrap64(Bits(s.regs[b]) + off), OperandBits(s.regs, src))
      case Branch(t) => CapJump(s, t)
      case BranchIf(c, l, src, t) =>
        CapJump(s, if CondEval(c, Bits(s.regs[l]), OperandBits(s.regs, src)) then t else s.pc + 1)
      case CallMap =>
        var regs := seq(REGS, r requires 0 <= r < REGS => CallValue(env, s.calls, s.regs, r));
        Running(s.(pc := s.pc + 1, regs := regs, calls := s.calls + 1))
      case Ret => Returned(Bits(s.regs[0]))
      case Udf => Stuck
  }

  function CapRun(env: Env, code: seq<Code>, m: Memory, n: nat): (o: Outcome<CapState>)
    requires WellFormed(env)
    ensures o.Running? ==> |o.state.regs| == REGS
  {
    if n == 0 then Running(CapStart(env, m))
    else match CapRun(env, code, m, n - 1)
      case Running(s) => CapStep(env, code, s)
      case done => done
  }
}
