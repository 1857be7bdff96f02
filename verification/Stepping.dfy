/**
 Following a run of compiled code one operation at a time from a known state.
 */
module Stepping {
  import opened Words
  import opened Ebpf
  import opened Straight
  import opened Codegen
  import opened CapMachine
  import opened Isolation

  /** After `n` steps the machine is in state `s`. */
  ghost predicate At(env: Env, code: seq<Code>, m: Memory, n: nat, s: CapState)
    requires WellFormed(env)
  {
    CapRun(env, code, m, n) == Running(s) && |s.regs| == REGS && s.pc < |code|
  }

  function Wrote(s: CapState, next: nat, d: Reg, v: Value): CapState
    requires |s.regs| == REGS
  {
    s.(pc := next, regs := s.regs[d := v])
  }

  lemma StartAt(env: Env, code: seq<Code>, m: Memory)
    requires WellFormed(env) && |code| > 0
    ensures At(env, code, m, 0, CapStart(env, m))
  {
  }

  lemma AluAt(env: Env, code: seq<Code>, m: Memory, n: nat, s: CapState, op: AluOp, d: Reg,
                                 src: Operand, v: u64)
    requires WellFormed(env) && At(env, code, m, n, s) && code[s.pc] == XAlu(op, d, src) && s.pc + 1 < |code|
    requires AluEval(op, Bits(s.regs[d]), OperandBits(s.regs, src)) == v
    ensures At(env, code, m, n + 1, Wrote(s, s.pc + 1, d, Int(v)))
  {
  }

  lemma ConstAt(env: Env, code: seq<Code>, m: Memory, n: nat, s: CapState, d: Reg, v: u64)
    requires WellFormed(env) && At(env, code, m, n, s) && code[s.pc] == XConst(d, v) && s.pc + 2 < |code|
    ensures At(env, code, m, n + 1, Wrote(s, s.pc + 2, d, Int(v)))
  {
  }

  lemma CopyAt(env: Env, code: seq<Code>, m: Memory, n: nat, s: CapState, d: Reg, from: Reg)
    requires WellFormed(env) && At(env, code, m, n, s) && code[s.pc] == CMov(d, from) && s.pc + 1 < |code|
    ensures At(env, code, m, n + 1, Wrote(s, s.pc + 1, d, s.regs[from]))
  {
  }

  lemma MoveAt(env: Env, code: seq<Code>, m: Memory, n: nat, s: CapState, d: Reg, src: Operand,
                                  region: Region, a: u64)
    requires WellFormed(env) && At(env, code, m, n, s) && code[s.pc] == CMove(d, src, false) && s.pc + 1 < |code|
    requires s.regs[d].Cap? && s.regs[d].region == region
    requires Wrap64(s.regs[d].addr + OperandBits(s.regs, src)) == a
    ensures At(env, code, m, n + 1, Wrote(s, s.pc + 1, d, Cap(region, a)))
  {
  }

  lemma LoadAt(env: Env, code: seq<Code>, m: Memory, n: nat, s: CapState, w: Width, signed: bool, d: Reg,
                                  b: Reg, off: i16, a: u64, v: u64)
    requires WellFormed(env) && At(env, code, m, n, s) && s.pc + 1 < |code|
    requires code[s.pc] == CLoad(w, signed, d, b, off) && Wrap64(Bits(s.regs[b]) + off) == a
    requires Authorises(s.regs[b], a, Bytes(w)) && LoadValue(s.mem, a, w, signed) == v
    ensures At(env, code, m, n + 1, Wrote(s, s.pc + 1, d, Int(v)))
  {
    assert CapStep(env, code, s) == LoadThrough(s, w, signed, d, s.regs[b], a);
  }

  lemma LoadTraps(env: Env, code: seq<Code>, m: Memory, n: nat, s: CapState, w: Width, signed: bool, d: Reg,
                                     b: Reg, off: i16, a: u64)
    requires WellFormed(env) && At(env, code, m, n, s)
    requires code[s.pc] == CLoad(w, signed, d, b, off) && Wrap64(Bits(s.regs[b]) + off) == a
    requires !Authorises(s.regs[b], a, Bytes(w))
    ensures CapRun(env, code, m, n + 1) == Trapped(s.pc)
  {
    assert CapStep(env, code, s) == LoadThrough(s, w, signed, d, s.regs[b], a);
  }

  lemma StoreAt(env: Env, code: seq<Code>, m: Memory, n: nat, s: CapState, w: Width, b: Reg, off: i16,
                                   src: Operand, a: u64)
    requires WellFormed(env) && At(env, code, m, n, s) && s.pc + 1 < |code|
    requires code[s.pc] == CStore(w, b, off, src) && Wrap64(Bits(s.regs[b]) + off) == a
    requires Authorises(s.regs[b], a, Bytes(w))
    ensures At(env, code, m, n + 1, s.(pc := s.pc + 1, mem := StoreLE(s.mem, a, Bytes(w), OperandBits(s.regs, src))))
  {
    hide StoreLE;
    assert CapStep(env, code, s) == StoreThrough(s, w, s.regs[b], a, OperandBits(s.regs, src));
  }

  lemma StoreTraps(env: Env, code: seq<Code>, m: Memory, n: nat, s: CapState, w: Width, b: Reg, off: i16,
                                      src: Operand, a: u64)
    requires WellFormed(env) && At(env, code, m, n, s)
    requires code[s.pc] == CStore(w, b, off, src) && Wrap64(Bits(s.regs[b]) + off) == a
    requires !Authorises(s.regs[b], a, Bytes(w))
    ensures CapRun(env, code, m, n + 1) == Trapped(s.pc)
  {
    hide StoreLE;
    assert CapStep(env, code, s) == StoreThrough(s, w, s.regs[b], a, OperandBits(s.regs, src));
  }

  lemma BranchAt(env: Env, code: seq<Code>, m: Memory, n: nat, s: CapState, c: Cond, l: Reg,
                                    src: Operand, target: nat, next: nat)
    requires WellFormed(env) && At(env, code, m, n, s) && code[s.pc] == BranchIf(c, l, src, target) && next < |code|
    requires next == if CondEval(c, Bits(s.regs[l]), OperandBits(s.regs, src)) then target else s.pc + 1
    ensures At(env, code, m, n + 1, s.(pc := next))
  {
  }

  lemma CallAt(env: Env, code: seq<Code>, m: Memory, n: nat, s: CapState)
    requires WellFormed(env) && At(env, code, m, n, s) && code[s.pc] == CallMap && s.pc + 1 < |code|
    ensures var regs := seq(REGS, r requires 0 <= r < REGS => CallValue(env, s.calls, s.regs, r));
            At(env, code, m, n + 1, s.(pc := s.pc + 1, regs := regs, calls := s.calls + 1))
  {
  }

  lemma ReturnAt(env: Env, code: seq<Code>, m: Memory, n: nat, s: CapState)
    requires WellFormed(env) && At(env, code, m, n, s) && code[s.pc] == Ret
    ensures CapRun(env, code, m, n + 1) == Returned(Bits(s.regs[0]))
  {
  }

  /** On straight-line code each live slot is lowered with the kinds read back from it. */
  lemma StraightCompiled(vm: Vm, pc: nat)
    requires StraightLine(vm.code) && pc < |vm.code| && Live(vm.code, pc)
    ensures |Compiled(vm)| == |vm.code|
    ensures Compiled(vm)[pc] == Lower(vm.code[pc], pc, KindsAt(vm.code, pc))
  {
    StraightMop(vm, pc);
  }

  lemma StraightCompiles(vm: Vm)
    requires StraightLine(vm.code)
    ensures |Compiled(vm)| == |vm.code|
    ensures forall pc | 0 <= pc < |vm.code| && Live(vm.code, pc) ::
              Compiled(vm)[pc] == Lower(vm.code[pc], pc, KindsAt(vm.code, pc))
  {
    hide Compiled, Lower, KindsAt, Live;
    CompiledLength(vm);
    forall pc | 0 <= pc < |vm.code| && Live(vm.code, pc)
      ensures Compiled(vm)[pc] == Lower(vm.code[pc], pc, KindsAt(vm.code, pc))
    {
      StraightCompiled(vm, pc);
    }
  }

  lemma CompiledLength(vm: Vm)
    ensures |Compiled(vm)| == |vm.code|
  {
  }

  lemma BelowTop(env: Env, down: i32)
    requires WellFormed(env) && 0 <= env.stack.length as int + down && down < 0
    ensures Wrap64(StackTop(env) + Wrap64(down)) == env.stack.base + env.stack.length + down
  {
    var top := env.stack.base + env.stack.length;
    var sum := StackTop(env) + down + TWO_64;
    assert Wrap64(down) == down + TWO_64;
    assert StackTop(env) == if top == TWO_64 then 0 else top;
    assert Wrap64(sum) == if sum < TWO_64 then sum else sum - TWO_64;
  }

  /** The first word of the context. */
  function FirstWord(env: Env, m: Memory): u64
    requires WellFormed(env)
  {
    LoadValue(m, env.ctx.base, Double, false)
  }

  /** Loading `*(u64 *)(r1 + 0)` first, into R2. */
  lemma FirstLoad(env: Env, code: seq<Code>, m: Memory)
    requires WellFormed(env) && env.ctx.length >= 8
    requires |code| > 1 && code[0] == CLoad(Double, false, 2, 1, 0)
    ensures At(env, code, m, 1, Wrote(CapStart(env, m), 1, 2, Int(FirstWord(env, m))))
  {
    hide CapRun, CapStep, LoadValue, AluEval;
    Uncleared(env, env.ctx, m, env.ctx.base, Double, false);
    StartAt(env, code, m);
    LoadAt(env, code, m, 0, CapStart(env, m), Double, false, 2, 1, 0, env.ctx.base, FirstWord(env, m));
  }
}
