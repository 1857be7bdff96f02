/**
 The three lowerings of a context load agree with each other and with the eBPF bytes.
 */
module Agreement {
  import opened Words
  import opened Ebpf
  import opened Contract
  import opened Kinds
  import opened Straight
  import opened Codegen
  import opened CapMachine
  import opened Bytecode
  import opened Isolation
  import M = Morello
  import O = ObjEmit
  import D = DirectJit
  import T = TailJit
  import A = AsmText

  // ----- running the eBPF bytes -----

  function ProgramOf(program: seq<u8>): Vm {
    Vm(LoadCode(program), None)
  }

  function ToExit(o: Outcome<CapState>): M.Exit {
    match o
    case Returned(v) => M.Return(v)
    case Trapped(_) => M.Trap
    case _ => M.Undefined
  }

  function ContextCap(env: Env): Value
    requires WellFormed(env)
  {
    Cap(env.ctx, env.ctx.base)
  }

  lemma {:induction false} DoneStays(env: Env, code: seq<Code>, m: Memory, k: nat, n: nat)
    requires WellFormed(env) && k <= n && !CapRun(env, code, m, k).Running?
    ensures CapRun(env, code, m, n) == CapRun(env, code, m, k)
  {
    if k < n {
      DoneStays(env, code, m, k, n - 1);
    }
  }

  /** Clearing the stack does not disturb what a context load reads. */
  lemma ContextUncleared(env: Env, m: Memory, off: int)
    requires WellFormed(env)
    ensures M.LoadOutcome(ContextCap(env), off, ClearStack(env, m)) == M.LoadOutcome(ContextCap(env), off, m)
  {
    hide LoadValue;
    var a := Wrap64(env.ctx.base + off);
    if Inside(env.ctx, a, 8) {
      Uncleared(env, env.ctx, m, a, Double, false);
    }
  }

  // ----- the shape without an alias -----

  function ContextLoad(base: Reg, off: i16): Insn {
    Load(Double, false, 0, base, off)
  }

  lemma LineInsns(n: Reg, off: i16, next: Option<Raw>)
    ensures InsnOf(O.LoadLine(n, off), next) == ContextLoad(n, off)
    ensures InsnOf(O.AliasLine(n), next) == Alu(Mov, n, FromReg(1))
    ensures InsnOf(O.ExitLine(), next) == Exit
  {
  }

  lemma DirectCode(off: i16)
    ensures LoadCode(Assemble(O.DirectShape(off))) == [ContextLoad(1, off), Exit]
  {
    hide InsnOf, LoadCode, Assemble;
    var raws := O.DirectShape(off);
    LoadAssembled(raws);
    LineInsns(1, off, Some(raws[1]));
    LineInsns(1, off, None);
    assert Listing(raws) == [ContextLoad(1, off), Exit];
  }

  lemma DirectAccepted(vm: Vm, off: i16)
    requires vm.code == [ContextLoad(1, off), Exit]
    ensures Accepted(vm) && Compiled(vm) == [CLoad(Double, false, 0, 1, off), Ret]
  {
    StraightAccepted(vm);
    StraightMop(vm, 0);
    StraightMop(vm, 1);
    assert KindAt(vm.code, 0, 1) == Capability(Context);
    assert StraightCheck(vm, 0) == None && StraightCheck(vm, 1) == None;
  }

  /** A doubleword load through a context capability that has not moved. */
  lemma ContextLoadStep(env: Env, code: seq<Code>, s: CapState, m: Memory, b: Reg, off: i16)
    requires WellFormed(env) && |s.regs| == REGS && s.pc < |code| && code[s.pc] == CLoad(Double, false, 0, b, off)
    requires s.regs[b] == ContextCap(env) && s.mem == ClearStack(env, m)
    ensures match M.LoadOutcome(ContextCap(env), off, m)
            case Return(v) => CapStep(env, code, s) == Running(s.(pc := s.pc + 1, regs := s.regs[0 := Int(v)]))
            case _ => CapStep(env, code, s) == Trapped(s.pc)
  {
    hide LoadValue;
    ContextUncleared(env, m, off);
  }

  /** Code that loads through a register holding the context capability and returns. */
  lemma LoadThenRet(env: Env, code: seq<Code>, m: Memory, k: nat, b: Reg, off: i16)
    requires WellFormed(env) && CapRun(env, code, m, k).Running?
    requires var s := CapRun(env, code, m, k).state;
             && s.pc + 1 < |code| && code[s.pc] == CLoad(Double, false, 0, b, off) && code[s.pc + 1] == Ret
             && s.regs[b] == ContextCap(env) && s.mem == ClearStack(env, m)
    ensures !CapRun(env, code, m, k + 2).Running?
    ensures ToExit(CapRun(env, code, m, k + 2)) == M.LoadOutcome(ContextCap(env), off, m)
  {
    hide LoadValue;
    ContextLoadStep(env, code, CapRun(env, code, m, k).state, m, b, off);
    var o := CapRun(env, code, m, k + 1);
    if o.Running? {
      assert CapRun(env, code, m, k + 2) == CapStep(env, code, o.state);
    }
  }

  lemma DirectRuns(env: Env, m: Memory, off: i16, n: nat)
    requires WellFormed(env) && off >= 0 && n >= 3
    ensures var vm := ProgramOf(Assemble(O.DirectShape(off)));
            Accepted(vm) && ToExit(CapRun(env, Compiled(vm), m, n)) == M.LoadOutcome(ContextCap(env), off, m)
  {
    hide LoadCode, Assemble, Accepted;
    var vm := ProgramOf(Assemble(O.DirectShape(off)));
    DirectCode(off);
    DirectAccepted(vm, off);
    LoadThenRet(env, Compiled(vm), m, 0, 1, off);
    DoneStays(env, Compiled(vm), m, 2, n);
  }

  // ----- the shape with a leading alias -----

  lemma AliasCode(r: Reg, off: i16)
    ensures LoadCode(Assemble(O.AliasShape(r, off))) == [Alu(Mov, r, FromReg(1)), ContextLoad(r, off), Exit]
  {
    hide InsnOf, LoadCode, Assemble;
    var raws := O.AliasShape(r, off);
    LoadAssembled(raws);
    LineInsns(r, off, Some(raws[1]));
    LineInsns(r, off, Some(raws[2]));
    LineInsns(r, off, None);
    assert Listing(raws) == [Alu(Mov, r, FromReg(1)), ContextLoad(r, off), Exit];
  }

  lemma AliasKinds(c: seq<Insn>, r: Reg, off: i16)
    requires 2 <= r <= 9 && c == [Alu(Mov, r, FromReg(1)), ContextLoad(r, off), Exit]
    ensures KindAt(c, 0, 1) == KindAt(c, 1, r) == Capability(Context) && KindAt(c, 2, 0) == Scalar
  {
  }

  lemma AliasAccepted(vm: Vm, r: Reg, off: i16)
    requires 2 <= r <= 9 && vm.code == [Alu(Mov, r, FromReg(1)), ContextLoad(r, off), Exit]
    ensures Accepted(vm)
  {
    hide KindAt, Accepted;
    AliasKinds(vm.code, r, off);
    StraightAccepted(vm);
    assert StraightCheck(vm, 0) == None && StraightCheck(vm, 1) == None && StraightCheck(vm, 2) == None;
  }

  lemma AliasCompiles(vm: Vm, r: Reg, off: i16)
    requires 2 <= r <= 9 && vm.code == [Alu(Mov, r, FromReg(1)), ContextLoad(r, off), Exit]
    ensures Compiled(vm) == [CMov(r, 1), CLoad(Double, false, 0, r, off), Ret]
  {
    hide KindAt, Mop;
    AliasKinds(vm.code, r, off);
    StraightMop(vm, 0);
    StraightMop(vm, 1);
    StraightMop(vm, 2);
  }

  lemma AliasVmRuns(env: Env, vm: Vm, m: Memory, r: Reg, off: i16, n: nat)
    requires WellFormed(env) && 2 <= r <= 9 && off >= 0 && n >= 3
    requires vm.code == [Alu(Mov, r, FromReg(1)), ContextLoad(r, off), Exit]
    ensures Accepted(vm) && ToExit(CapRun(env, Compiled(vm), m, n)) == M.LoadOutcome(ContextCap(env), off, m)
  {
    AliasAccepted(vm, r, off);
    AliasCompiles(vm, r, off);
    assert CapRun(env, Compiled(vm), m, 1) == CapStep(env, Compiled(vm), CapStart(env, m));
    LoadThenRet(env, Compiled(vm), m, 1, r, off);
    DoneStays(env, Compiled(vm), m, 3, n);
  }

  lemma AliasRuns(env: Env, m: Memory, r: Reg, off: i16, n: nat)
    requires WellFormed(env) && 2 <= r <= 9 && off >= 0 && n >= 3
    ensures var vm := ProgramOf(Assemble(O.AliasShape(r, off)));
            Accepted(vm) && ToExit(CapRun(env, Compiled(vm), m, n)) == M.LoadOutcome(ContextCap(env), off, m)
  {
    AliasCode(r, off);
    AliasVmRuns(env, ProgramOf(Assemble(O.AliasShape(r, off))), m, r, off, n);
  }

  // ----- main results -----

  /**
   Compiler correctness of the object emitter: for every symbol, every accepted byte string, every
   context capability and every memory, the assembled text returns or traps exactly as the bytes
   do under the register-kind backend, which accepts them. Dropping the alias changes nothing.
   */
  lemma ObjectCodeCorrect(symbol: string, program: seq<u8>, text: string, env: Env, cpu: M.Cpu, n: nat)
    requires A.EmitObject(symbol, program) == A.Assembly(text)
    requires WellFormed(env) && cpu.c[0] == ContextCap(env) && n >= 3
    ensures Accepted(ProgramOf(program))
    ensures A.Linked(text, symbol).Some?
    ensures M.RunOps(A.Linked(text, symbol).value, cpu)
         == ToExit(CapRun(env, Compiled(ProgramOf(program)), cpu.mem, n))
  {
    hide CapRun, Assemble, LoadCode, Accepted, A.EmitText, A.Linked, A.Items, O.Emit;
    A.TextReadsBack(symbol, program, text, symbol);
    var offset: nat := O.Emit(program).value;
    O.EmitsExactly(program, offset);
    M.LoadReturns(offset, cpu);
    if program == Assemble(O.DirectShape(offset)) {
      DirectRuns(env, cpu.mem, offset, n);
    } else {
      var r: nat :| 2 <= r <= 9 && program == Assemble(O.AliasShape(r, offset));
      AliasRuns(env, cpu.mem, r, offset, n);
    }
  }

  /** Every 16-byte program the emitter accepts, the tail-call generator accepts with the same offset. */
  lemma TailAcceptsToo(program: seq<u8>, offset: int)
    requires O.Emit(program) == O.Ok(offset) && |program| == 16
    ensures T.TailOffset(program) == Some(offset)
  {
    O.EmitsExactly(program, offset);
    assert program == Assemble(O.DirectShape(offset)) by {
      forall r: nat ensures program != Assemble(O.AliasShape(r, offset)) {
        assert |Assemble(O.AliasShape(r, offset))| == 24;
      }
    }
    O.AssembleTwo(O.LoadLine(1, offset), O.ExitLine());
    HeadFields(program, EncodeUnmasked(O.LoadLine(1, offset)), EncodeUnmasked(O.ExitLine()));
    DecodeEncode(O.LoadLine(1, offset));
    DecodersAgree(EncodeUnmasked(O.LoadLine(1, offset)));
  }

  lemma HeadFields(program: seq<u8>, load: seq<u8>, exit: seq<u8>)
    requires |load| == 8 && |exit| == 8 && program == load + exit
    ensures program[0] == load[0] && program[8] == exit[0]
    ensures InsnDst(program) == InsnDst(load) && InsnSrc(program) == InsnSrc(load)
    ensures ReadI16(program[2..]) == ReadI16(load[2..])
  {
    assert program[2..][0] == load[2..][0] && program[2..][1] == load[2..][1];
  }

  /**
   The three generators agree: assembly, hand-encoded words and tail call give the same value
   or trap for every context capability and memory.
   */
  lemma GeneratorsAgree(
    symbol: string, program: seq<u8>, text: string, offset: int, helper: Value, length: u64, direct: M.Cpu, tail: M.Cpu)
    requires A.EmitObject(symbol, program) == A.Assembly(text) && O.Emit(program) == O.Ok(offset) && |program| == 16
    requires helper.Cap? && tail.c[0] == helper
    requires tail.c[1] == direct.c[0] && tail.c[2] == Int(length) && tail.mem == direct.mem
    ensures D.ProgramWords(D.LoadC0, offset).Some? && T.TailOffset(program) == Some(offset)
    ensures A.Linked(text, symbol).Some?
    ensures var assembly := M.RunOps(A.Linked(text, symbol).value, direct);
            && M.Run(M.Fetch(M.WordBytes(D.ProgramWords(D.LoadC0, offset).value)), direct) == assembly
            && T.TailRun(T.TailWords(offset), helper, tail) == assembly
            && assembly == M.LoadOutcome(direct.c[0], offset, direct.mem)
  {
    hide A.EmitObject, A.Linked, A.Items;
    A.TextReadsBack(symbol, program, text, symbol);
    O.EmitsExactly(program, offset);
    TailAcceptsToo(program, offset);
    M.LoadReturns(offset, direct);
    D.LdrDecodes(offset);
    D.ProgramRuns(D.LoadC0, offset, direct);
    T.TailRunsHelper(offset, helper, tail);
  }

  // ----- the tail-call generator on its own -----

  /** The second slot of a 16-byte program. */
  function ExitRaw(program: seq<u8>): Raw
    requires |program| == 16
  {
    Decode(program[8..])
  }

  /**
   The tail-call generator looks at less: it also accepts unaligned offsets, any immediate and
   any EXIT operands. The emitter accepts exactly the rest.
   */
  lemma EmitterIsStricter(program: seq<u8>, offset: int)
    requires |program| == 16
    ensures O.Emit(program) == O.Ok(offset) <==>
            && T.TailOffset(program) == Some(offset)
            && offset % 8 == 0 && Decode(program[..8]).imm == 0 && ExitRaw(program) == O.ExitLine()
  {
    var load, exit := program[..8], program[8..];
    HeadFields(program, load, exit);
    DecodersAgree(load);
    O.PlainExit(exit);
    DecodeIsInverse(O.ExitLine(), exit);
    hide AndByte, ReadI16, ParseSignedLE, EncodeUnmasked;
    assert InsnSrc(load) == DecodeRegs(load).1;
    OffsetInRange(load);
  }

  lemma OffsetInRange(load: seq<u8>)
    requires |load| == 8
    ensures -0x8000 <= ParseSignedLE(load[2..4]) < 0x8000
  {
    DecodedInRange(load);
  }

  /** What the bytes it accepts load as. */
  lemma TailProgram(program: seq<u8>, offset: nat)
    requires T.TailOffset(program) == Some(offset)
    requires ExitRaw(program).dst < REGS && ExitRaw(program).src < REGS
    ensures offset < 0x8000 && LoadCode(program) == [ContextLoad(1, offset), Exit]
  {
    var load, exit := program[..8], program[8..];
    assert program == load + exit;
    HeadFields(program, load, exit);
    DecodersAgree(load);
    DecodedInRange(load);
    DecodedInRange(exit);
    assert Slot(program, 0) == load && Slot(program, 1) == exit;
    TailInsns(Decode(load), Decode(exit), offset);
  }

  lemma TailInsns(load: Raw, exit: Raw, offset: nat)
    requires InRange(load) && InRange(exit)
    requires load.op == 0x79 && load.dst == 0 && load.src == 1 && load.off == offset
    requires exit.op == 0x95 && exit.dst < REGS && exit.src < REGS
    ensures InsnOf(load, Some(exit)) == ContextLoad(1, offset) && InsnOf(exit, None) == Exit
  {
  }

  /**
   Correctness of the tail-call generator: for every byte string it accepts whose EXIT slot
   names registers that exist, the generated code returns or traps exactly as the bytes do.
   */
  lemma TailCodeCorrect(program: seq<u8>, offset: nat, helper: Value, env: Env, cpu: M.Cpu, n: nat)
    requires T.TailOffset(program) == Some(offset)
    requires ExitRaw(program).dst < REGS && ExitRaw(program).src < REGS
    requires helper.Cap? && cpu.c[0] == helper
    requires WellFormed(env) && cpu.c[1] == ContextCap(env) && n >= 2
    ensures Accepted(ProgramOf(program))
    ensures T.TailRun(T.TailWords(offset), helper, cpu) == ToExit(CapRun(env, Compiled(ProgramOf(program)), cpu.mem, n))
  {
    hide LoadValue, CapStep;
    var vm := ProgramOf(program);
    TailProgram(program, offset);
    DirectAccepted(vm, offset);
    LoadThenRet(env, Compiled(vm), cpu.mem, 0, 1, offset);
    DoneStays(env, Compiled(vm), cpu.mem, 2, n);
    T.TailRunsHelper(offset, helper, cpu);
  }

  /** The bytes that generator accepts with any other EXIT slot, the loader does not run. */
  lemma TailExitUnchecked(program: seq<u8>, offset: nat)
    requires T.TailOffset(program) == Some(offset)
    requires ExitRaw(program).dst >= REGS || ExitRaw(program).src >= REGS
    ensures !Accepted(ProgramOf(program))
  {
    var vm := ProgramOf(program);
    var load := program[..8];
    HeadFields(program, load, program[8..]);
    DecodersAgree(load);
    DecodedInRange(load);
    assert Slot(program, 0) == load && Slot(program, 1) == program[8..];
    LoadThenUnknown(vm);
  }

  lemma LoadThenUnknown(vm: Vm)
    requires |vm.code| == 2 && vm.code[0].Load? && vm.code[1].Unsupported?
    ensures !Accepted(vm)
  {
    assert IsPath(vm, Begin) && 1 in Succs(vm.code[0], 0);
    assert PathTo(vm, Then(Begin, 1), 1);
    assert CheckAt(vm, 1) != None;
  }
}
