/**
 Programs on scalars alone: any such program is accepted and its capability run is its flat
 run. A conditional jump and a counting loop show the jump-target rule at work.
 */
module Jumps {
  import opened Words
  import opened Ebpf
  import opened Contract
  import opened Kinds
  import opened Codegen
  import opened CapMachine
  import opened Soundness
  import opened Refinement
  import opened Bytecode
  import opened Operators
  import Straight
  import Stepping
  import Suite

  predicate Rooted(r: Reg) {
    r == CONTEXT_REG || r == STACK_REG
  }

  /** Touches no memory, calls nothing, and computes from no register that enters as a root. */
  predicate ScalarInsn(insn: Insn) {
    match insn
    case Alu(op, d, src) =>
      && (src.FromReg? ==> !Rooted(src.reg))
      && (op in {Mov, Add, Sub} || !Rooted(d))
    case Const64(_, _) => true
    case Jump(_) => true
    case JumpIf(_, _, _, _) => true
    case Exit => true
    case _ => false
  }

  ghost predicate ScalarOnly(vm: Vm) {
    && |vm.code| > 0
    && forall pc: nat | Reaches(vm, pc) :: ScalarInsn(vm.code[pc]) && StaysInside(vm, pc, vm.code[pc])
  }

  lemma {:induction false} PathScalar(vm: Vm, p: Path, r: Reg)
    requires ScalarOnly(vm) && IsPath(vm, p) && !Rooted(r)
    ensures PathKinds(vm, p)[r] == Scalar
  {
    match p
    case Begin =>
    case Then(q, _) =>
      assert PathTo(vm, q, End(q));
      match OriginOf(vm.code[End(q)], r)
      case Fixed(_) =>
      case CopyOf(s) => PathScalar(vm, q, s);
  }

  lemma MopScalar(vm: Vm, pc: nat, r: Reg)
    requires ScalarOnly(vm) && Reaches(vm, pc) && !Rooted(r)
    ensures Mop(vm, pc)[r] == Scalar
  {
    forall p | PathTo(vm, p, pc)
      ensures PathKinds(vm, p)[r] == Scalar
    {
      PathScalar(vm, p, r);
    }
    Straight.MopIsCommon(vm, pc, r, Scalar);
  }

  lemma ScalarAccepted(vm: Vm)
    requires ScalarOnly(vm)
    ensures Accepted(vm)
  {
    forall pc | Reaches(vm, pc)
      ensures CheckAt(vm, pc) == None
    {
      forall r: Reg | !Rooted(r)
        ensures Mop(vm, pc)[r] == Scalar
      {
        MopScalar(vm, pc, r);
      }
    }
  }

  /**
   A scalar program is accepted, and translated code and flat machine agree at every step; so
   it never traps.
   */
  lemma {:induction false} ScalarProgramsAgree(env: Env, vm: Vm, m: Memory, n: nat)
    requires WellFormed(env) && ScalarOnly(vm)
    ensures Accepted(vm) && Matches(CapRun(env, Compiled(vm), m, n), FlatRun(env, vm, m, n))
    decreases n
  {
    ScalarAccepted(vm);
    forall j: nat | j < n
      ensures PermittedAt(env, vm, m, j)
    {
      ScalarProgramsAgree(env, vm, m, j);
      if FlatRun(env, vm, m, j).Running? {
        KindsSound(env, vm, m, j, 0);
      }
    }
    RunRefines(env, vm, m, n);
  }

  /** Enough for `ScalarOnly`: every slot is a scalar instruction that stays inside. */
  lemma EverySlotScalar(vm: Vm)
    requires |vm.code| > 0
    requires forall pc | 0 <= pc < |vm.code| :: ScalarInsn(vm.code[pc]) && StaysInside(vm, pc, vm.code[pc])
    ensures ScalarOnly(vm)
  {
  }

  // ----- a conditional jump -----

  /** r0 = a; if r0 `c` b goto +2; r0 = x; exit; r0 = y; exit. */
  function SelectCode(c: Cond, a: i32, b: i32, x: i32, y: i32): seq<Insn> {
    [Alu(Mov, 0, Imm(a)), JumpIf(c, 0, Imm(b), 2), Alu(Mov, 0, Imm(x)), Exit, Alu(Mov, 0, Imm(y)), Exit]
  }

  lemma SelectRuns(env: Env, vm: Vm, m: Memory, c: Cond, a: i32, b: i32, x: i32, y: i32)
    requires WellFormed(env) && vm.code == SelectCode(c, a, b, x, y)
    ensures Accepted(vm)
    ensures CapRun(env, Compiled(vm), m, 4)
         == Returned(Wrap64(if CondEval(c, Wrap64(a), Wrap64(b)) then y else x))
  {
    hide CondEval, Wrap64, CapRun, Accepted;
    EverySlotScalar(vm);
    ScalarProgramsAgree(env, vm, m, 4);
    assert FlatRun(env, vm, m, 1) == FlatStep(env, vm, FlatStart(env, m));
    var f1 := FlatRun(env, vm, m, 1).state;
    assert FlatRun(env, vm, m, 2) == FlatStep(env, vm, f1);
    var f2 := FlatRun(env, vm, m, 2).state;
    assert FlatRun(env, vm, m, 3) == FlatStep(env, vm, f2);
    assert FlatRun(env, vm, m, 4) == FlatStep(env, vm, FlatRun(env, vm, m, 3).state);
  }

  /**
   The jump skips exactly the two instructions after it, exactly when its condition holds of the
   two signed immediates, or of the 64-bit words they are held in.
   */
  lemma BranchSelects(env: Env, vm: Vm, m: Memory, c: Cond, a: i32, b: i32, x: i32, y: i32)
    requires WellFormed(env) && vm.code == SelectCode(c, a, b, x, y)
    ensures Accepted(vm)
    ensures CapRun(env, Compiled(vm), m, 4) == Returned(Held(if Decides(c, a, b) then y else x))
  {
    hide *;
    SelectRuns(env, vm, m, c, a, b, x, y);
    ImmediateHeld(a);
    ImmediateHeld(b);
    ImmediateHeld(x);
    ImmediateHeld(y);
    ConditionMeaning(c, a, b);
  }

  /** On any operands a compiled conditional jump goes where its condition sends it, and changes nothing else. */
  lemma BranchGoes(env: Env, code: seq<Code>, s: CapState, a: i64, b: i64)
    requires WellFormed(env) && |s.regs| == REGS && s.pc < |code| && code[s.pc].BranchIf? && code[s.pc].target >= 0
    requires Bits(s.regs[code[s.pc].lhs]) == Held(a) && OperandBits(s.regs, code[s.pc].rhs) == Held(b)
    ensures CapStep(env, code, s)
         == Running(s.(pc := if Decides(code[s.pc].cond, a, b) then code[s.pc].target else s.pc + 1))
  {
    hide CondEval, Decides;
    ConditionMeaning(code[s.pc].cond, a, b);
  }

  // ----- an operation on two immediates -----

  /** r0 = a; r0 `op` b; exit. */
  function ComputeCode(op: AluOp, a: i32, b: i32): seq<Insn> {
    [Alu(Mov, 0, Imm(a)), Alu(op, 0, Imm(b)), Exit]
  }

  /** The program is accepted and returns the one word that the operation means. */
  lemma OperationReturns(env: Env, vm: Vm, m: Memory, op: AluOp, a: i32, b: i32, r: u64)
    requires WellFormed(env) && vm.code == ComputeCode(op, a, b)
    ensures Accepted(vm)
    ensures CapRun(env, Compiled(vm), m, 3) == Returned(r) <==> Computes(op, a, b, r)
  {
    ImmediateHeld(a);
    ImmediateHeld(b);
    AluMeaning(op, a, b, r);
    ComputeRuns(env, vm, m, op, a, b);
    hide *;
  }

  lemma ComputeRuns(env: Env, vm: Vm, m: Memory, op: AluOp, a: i32, b: i32)
    requires WellFormed(env) && vm.code == ComputeCode(op, a, b)
    ensures Accepted(vm)
    ensures CapRun(env, Compiled(vm), m, 3) == Returned(AluEval(op, Wrap64(a), Wrap64(b)))
  {
    hide Wrap64, CapRun, Accepted, Bits64, Sar, Shl, Shr;
    EverySlotScalar(vm);
    ScalarProgramsAgree(env, vm, m, 3);
    hide FlatRun;
    StartsFlat(env, vm, m);
    FlatNext(env, vm, m, 0);
    FlatNext(env, vm, m, 1);
    FlatNext(env, vm, m, 2);
  }

  /** r1 = a; r2 = b; r0 = r1; r0 `op` r2; exit. */
  function RegisterComputeCode(op: AluOp, a: i32, b: i32): seq<Insn> {
    [Alu(Mov, 1, Imm(a)), Alu(Mov, 2, Imm(b)), Alu(Mov, 0, FromReg(1)), Alu(op, 0, FromReg(2)), Exit]
  }

  function RegisterComputeOps(op: AluOp, a: i32, b: i32): seq<Code> {
    [XAlu(Mov, 1, Imm(a)), XAlu(Mov, 2, Imm(b)), XAlu(Mov, 0, FromReg(1)), XAlu(op, 0, FromReg(2)), Ret]
  }

  /** The same between registers, although R1 enters as the context. */
  lemma RegisterOperationReturns(env: Env, vm: Vm, m: Memory, op: AluOp, a: i32, b: i32, r: u64)
    requires WellFormed(env) && vm.code == RegisterComputeCode(op, a, b)
    ensures Accepted(vm)
    ensures CapRun(env, Compiled(vm), m, 5) == Returned(r) <==> Computes(op, a, b, r)
  {
    hide *;
    ImmediateHeld(a);
    ImmediateHeld(b);
    AluMeaning(op, a, b, r);
    RegisterAccepted(vm, op, a, b);
    RegisterCompiles(vm, op, a, b);
    RegisterRuns(env, Compiled(vm), m, op, a, b, Held(a), Held(b), AluEval(op, Held(a), Held(b)));
  }

  lemma RegisterAccepted(vm: Vm, op: AluOp, a: i32, b: i32)
    requires vm.code == RegisterComputeCode(op, a, b)
    ensures Accepted(vm)
  {
    hide Straight.KindAt, Accepted;
    RegisterKinds(vm.code, op, a, b);
    Straight.StraightAccepted(vm);
  }

  lemma RegisterKinds(c: seq<Insn>, op: AluOp, a: i32, b: i32)
    requires c == RegisterComputeCode(op, a, b)
    ensures Straight.KindAt(c, 2, 1) == Straight.KindAt(c, 3, 0) == Straight.KindAt(c, 3, 2) == Scalar
    ensures Straight.KindAt(c, 4, 0) == Scalar
  {
    assert Straight.KindAt(c, 1, 1) == Scalar && Straight.KindAt(c, 2, 1) == Straight.KindAt(c, 1, 1);
    assert Straight.KindAt(c, 3, 0) == Straight.KindAt(c, 2, 1);
  }

  lemma RegisterCompiles(vm: Vm, op: AluOp, a: i32, b: i32)
    requires vm.code == RegisterComputeCode(op, a, b)
    ensures Compiled(vm) == RegisterComputeOps(op, a, b)
  {
    hide Straight.KindAt, Compiled;
    RegisterKinds(vm.code, op, a, b);
    Stepping.StraightCompiles(vm);
  }

  lemma RegisterRuns(env: Env, code: seq<Code>, m: Memory, op: AluOp, a: i32, b: i32, x: u64, y: u64, v: u64)
    requires WellFormed(env) && code == RegisterComputeOps(op, a, b)
    requires x == Wrap64(a) && y == Wrap64(b) && v == AluEval(op, x, y)
    ensures CapRun(env, code, m, 5) == Returned(v)
  {
    hide CapRun, CapStep, Wrap64, AluEval;
    var s0 := CapStart(env, m);
    Moves(x);
    Moves(y);
    Stepping.StartAt(env, code, m);
    Stepping.AluAt(env, code, m, 0, s0, Mov, 1, Imm(a), x);
    var s1 := Stepping.Wrote(s0, 1, 1, Int(x));
    Stepping.AluAt(env, code, m, 1, s1, Mov, 2, Imm(b), y);
    var s2 := Stepping.Wrote(s1, 2, 2, Int(y));
    Stepping.AluAt(env, code, m, 2, s2, Mov, 0, FromReg(1), x);
    var s3 := Stepping.Wrote(s2, 3, 0, Int(x));
    Stepping.AluAt(env, code, m, 3, s3, op, 0, FromReg(2), v);
    Stepping.ReturnAt(env, code, m, 4, Stepping.Wrote(s3, 4, 0, Int(v)));
  }

  lemma Moves(v: u64)
    ensures forall x: u64 :: AluEval(Mov, x, v) == v
  {
  }

  // ----- the jump tests -----

  /** The first five tests of the file; the sixth is the loop below. */
  function JumpTest(i: nat): seq<Suite.Row>
    requires i < 5
  {
    var exit := Suite.R(0x95, 0, 0, 0, 0, Exit);
    var bad, good := Suite.R(0xb7, 0, 0, 0, 99, Alu(Mov, 0, Imm(99))), Suite.R(0xb7, 0, 0, 0, 42, Alu(Mov, 0, Imm(42)));
    match i
    case 0 => [Suite.R(0xb7, 0, 0, 0, 0, Alu(Mov, 0, Imm(0))), Suite.R(0x15, 0, 0, 2, 0, JumpIf(Eq, 0, Imm(0), 2)),
               bad, exit, good, exit]
    case 1 => [Suite.R(0xb7, 0, 0, 0, 1, Alu(Mov, 0, Imm(1))), Suite.R(0x15, 0, 0, 1, 0, JumpIf(Eq, 0, Imm(0), 1)),
               good, exit]
    case 2 => [Suite.R(0xb7, 0, 0, 0, 5, Alu(Mov, 0, Imm(5))), Suite.R(0x25, 0, 0, 2, 3, JumpIf(Gt, 0, Imm(3), 2)),
               bad, exit, good, exit]
    case 3 => [Suite.R(0xb7, 0, 0, 0, 7, Alu(Mov, 0, Imm(7))), Suite.R(0x55, 0, 0, 1, 0, JumpIf(Ne, 0, Imm(0), 1)),
               bad, good, exit]
    case _ => [Suite.R(0xb7, 1, 0, 0, 5, Alu(Mov, 1, Imm(5))), Suite.R(0xb7, 2, 0, 0, 5, Alu(Mov, 2, Imm(5))),
               Suite.R(0x1d, 1, 2, 1, 0, JumpIf(Eq, 1, FromReg(2), 1)), bad, good, exit]
  }

  lemma JumpTestListed(i: nat)
    requires i < 5
    ensures Suite.Lists(JumpTest(i))
  {
    ConstantLines();
    JumpLines();
    hide Suite.Line;
  }

  lemma ConstantLine(d: Reg, imm: i32)
    ensures Suite.Line(Suite.R(0xb7, d, 0, 0, imm, Alu(Mov, d, Imm(imm))))
  {
    hide LoadInsn, StoreInsn, JumpInsn;
  }

  lemma ConstantLines()
    ensures forall d: Reg, imm: i32 :: Suite.Line(Suite.R(0xb7, d, 0, 0, imm, Alu(Mov, d, Imm(imm))))
  {
    forall d: Reg, imm: i32
      ensures Suite.Line(Suite.R(0xb7, d, 0, 0, imm, Alu(Mov, d, Imm(imm))))
    {
      ConstantLine(d, imm);
    }
  }

  lemma JumpLines()
    ensures Suite.Line(Suite.R(0x95, 0, 0, 0, 0, Exit))
    ensures forall off: i16 :: Suite.Line(Suite.R(0x15, 0, 0, off, 0, JumpIf(Eq, 0, Imm(0), off)))
    ensures Suite.Line(Suite.R(0x25, 0, 0, 2, 3, JumpIf(Gt, 0, Imm(3), 2)))
    ensures Suite.Line(Suite.R(0x55, 0, 0, 1, 0, JumpIf(Ne, 0, Imm(0), 1)))
    ensures Suite.Line(Suite.R(0x1d, 1, 2, 1, 0, JumpIf(Eq, 1, FromReg(2), 1)))
  {
    hide LoadInsn, StoreInsn, AluInsn;
  }

  function TestSteps(i: nat): nat {
    if i == 4 then 5 else 4
  }

  lemma TestLengths()
    ensures TestSteps(4) == 5 && forall i | 0 <= i < 4 :: TestSteps(i) == 4
  {
  }

  lemma SmallWords()
    ensures forall n | 0 <= n < 100 :: Wrap64(n) == n
  {
  }

  /** Four steps, when the jump of the second one goes where the test wants it. */
  lemma ImmediateTestRuns(env: Env, vm: Vm, m: Memory, i: nat)
    requires WellFormed(env) && i < 4 && vm.code == Suite.Insns(JumpTest(i))
    ensures FlatRun(env, vm, m, 4) == Returned(42)
  {
    SmallWords();
    hide Wrap64, FlatRun;
    var target := if i == 1 then 2 else if i == 3 then 3 else 4;
    StartsFlat(env, vm, m);
    FlatNext(env, vm, m, 0);
    FlatNext(env, vm, m, 1);
    assert FlatRun(env, vm, m, 2).Running? && FlatRun(env, vm, m, 2).state.pc == target;
    assert vm.code[target] == Alu(Mov, 0, Imm(42)) && vm.code[target + 1] == Exit;
    hide JumpTest;
    FlatNext(env, vm, m, 2);
    FlatNext(env, vm, m, 3);
  }

  lemma RegisterTestRuns(env: Env, vm: Vm, m: Memory)
    requires WellFormed(env) && vm.code == Suite.Insns(JumpTest(4))
    ensures FlatRun(env, vm, m, 5) == Returned(42)
  {
    SmallWords();
    hide Wrap64, FlatRun;
    StartsFlat(env, vm, m);
    FlatNext(env, vm, m, 0);
    FlatNext(env, vm, m, 1);
    FlatNext(env, vm, m, 2);
    FlatNext(env, vm, m, 3);
    FlatNext(env, vm, m, 4);
  }

  lemma StartsFlat(env: Env, vm: Vm, m: Memory)
    requires WellFormed(env)
    ensures FlatRun(env, vm, m, 0) == Running(FlatStart(env, m))
  {
  }

  /** From their bytes, each of the five tests is accepted and returns 42. */
  lemma JumpTestsPass(env: Env, m: Memory, i: nat)
    requires WellFormed(env) && i < 5
    ensures var vm := Vm(LoadCode(Assemble(Suite.Raws(JumpTest(i)))), None);
            Accepted(vm) && CapRun(env, Compiled(vm), m, TestSteps(i)) == Returned(42)
  {
    var vm := Vm(Suite.Insns(JumpTest(i)), None);
    JumpTestScalar(vm, i);
    JumpTestListed(i);
    hide *;
    Suite.ListsLoad(JumpTest(i));
    TestLengths();
    ScalarProgramsAgree(env, vm, m, TestSteps(i));
    if i == 4 {
      RegisterTestRuns(env, vm, m);
    } else {
      ImmediateTestRuns(env, vm, m, i);
    }
    MatchesReturned(CapRun(env, Compiled(vm), m, TestSteps(i)), 42);
  }

  lemma JumpTestScalar(vm: Vm, i: nat)
    requires i < 5 && vm.code == Suite.Insns(JumpTest(i))
    ensures ScalarOnly(vm)
  {
    EverySlotScalar(vm);
  }

  lemma MatchesReturned(o: Outcome<CapState>, r: u64)
    requires Matches(o, Returned(r))
    ensures o == Returned(r)
  {
  }

  // ----- a counting loop -----

  /** r0 = 0; r1 = count; r0 += 1; r1 -= 1; if r1 != 0 goto -3; exit. */
  function LoopRows(count: i32): seq<Suite.Row> {
    [Suite.R(0xb7, 0, 0, 0, 0, Alu(Mov, 0, Imm(0))),
     Suite.R(0xb7, 1, 0, 0, count, Alu(Mov, 1, Imm(count))),
     Suite.R(0x07, 0, 0, 0, 1, Alu(Add, 0, Imm(1))),
     Suite.R(0x17, 1, 0, 0, 1, Alu(Sub, 1, Imm(1))),
     Suite.R(0x55, 1, 0, -3, 0, JumpIf(Ne, 1, Imm(0), -3)),
     Suite.R(0x95, 0, 0, 0, 0, Exit)]
  }

  lemma LoopListed(count: i32)
    ensures Suite.Lists(LoopRows(count))
  {
    hide Suite.Line, Suite.R;
    SetupListed(count);
    BodyListed();
  }

  lemma SetupListed(count: i32)
    ensures Suite.Line(Suite.R(0xb7, 0, 0, 0, 0, Alu(Mov, 0, Imm(0))))
    ensures Suite.Line(Suite.R(0xb7, 1, 0, 0, count, Alu(Mov, 1, Imm(count))))
    ensures Suite.Line(Suite.R(0x95, 0, 0, 0, 0, Exit))
  {
    hide LoadInsn, StoreInsn;
  }

  lemma BodyListed()
    ensures Suite.Line(Suite.R(0x07, 0, 0, 0, 1, Alu(Add, 0, Imm(1))))
    ensures Suite.Line(Suite.R(0x17, 1, 0, 0, 1, Alu(Sub, 1, Imm(1))))
    ensures Suite.Line(Suite.R(0x55, 1, 0, -3, 0, JumpIf(Ne, 1, Imm(0), -3)))
  {
    hide LoadInsn, StoreInsn;
  }

  /** The body runs until the counter first reaches zero, wrapping if it does not start above it. */
  function Rounds(count: i32): (n: nat)
    ensures n > 0 && Wrap64(n) == Wrap64(count)
  {
    if count > 0 then count else TWO_64 + count
  }

  lemma NextUp(x: int)
    ensures Wrap64(Wrap64(x) as int + Wrap64(1)) == Wrap64(x + 1)
  {
  }

  lemma NextDown(x: int)
    ensures Wrap64(Wrap64(x) as int - Wrap64(1)) == Wrap64(x - 1)
  {
  }

  lemma ZeroAfter(count: i32, i: nat)
    requires i < Rounds(count)
    ensures Wrap64(count - (i + 1)) == 0 <==> i + 1 == Rounds(count)
  {
    var left := count - (i + 1);
    assert Wrap64(left) == if left >= 0 then left else left + TWO_64;
  }

  lemma CountDown(count: i32, i: nat)
    requires i < Rounds(count)
    ensures Wrap64(Wrap64(i) as int + Wrap64(1)) == Wrap64(i + 1)
    ensures Wrap64(Wrap64(count - i) as int - Wrap64(1)) == Wrap64(count - (i + 1))
    ensures Wrap64(count - (i + 1)) == 0 <==> i + 1 == Rounds(count)
  {
    NextUp(i);
    NextDown(count - i);
    ZeroAfter(count, i);
    hide Wrap64, Rounds;
    assert count - i - 1 == count - (i + 1);
  }

  /** At the loop head: what the counters are before round `i`. */
  ghost predicate AtHead(o: Outcome<FlatState>, count: i32, i: nat) {
    && o.Running? && |o.state.regs| == REGS
    && o.state.regs[0] == Wrap64(i) && o.state.regs[1] == Wrap64(count - i)
  }

  lemma FlatNext(env: Env, vm: Vm, m: Memory, n: nat)
    requires WellFormed(env) && FlatRun(env, vm, m, n).Running?
    ensures FlatRun(env, vm, m, n + 1) == FlatStep(env, vm, FlatRun(env, vm, m, n).state)
  {
    hide FlatStep;
  }

  lemma LoopBody(env: Env, vm: Vm, m: Memory, count: i32, i: nat, n: nat)
    requires WellFormed(env) && vm.code == Suite.Insns(LoopRows(count)) && i < Rounds(count)
    requires AtHead(FlatRun(env, vm, m, n), count, i) && FlatRun(env, vm, m, n).state.pc == 2
    ensures AtHead(FlatRun(env, vm, m, n + 2), count, i + 1) && FlatRun(env, vm, m, n + 2).state.pc == 4
  {
    hide Wrap64, Rounds, FlatRun;
    CountDown(count, i);
    FlatNext(env, vm, m, n);
    FlatNext(env, vm, m, n + 1);
  }

  lemma LoopRound(env: Env, vm: Vm, m: Memory, count: i32, i: nat, n: nat)
    requires WellFormed(env) && vm.code == Suite.Insns(LoopRows(count)) && i < Rounds(count)
    requires AtHead(FlatRun(env, vm, m, n), count, i) && FlatRun(env, vm, m, n).state.pc == 2
    ensures AtHead(FlatRun(env, vm, m, n + 3), count, i + 1)
    ensures FlatRun(env, vm, m, n + 3).state.pc == if i + 1 == Rounds(count) then 5 else 2
  {
    assert Wrap64(0) == 0;
    hide Wrap64, Rounds, FlatRun;
    LoopBody(env, vm, m, count, i, n);
    CountDown(count, i);
    FlatNext(env, vm, m, n + 2);
  }

  lemma LoopEntry(env: Env, vm: Vm, m: Memory, count: i32)
    requires WellFormed(env) && vm.code == Suite.Insns(LoopRows(count))
    ensures AtHead(FlatRun(env, vm, m, 2), count, 0) && FlatRun(env, vm, m, 2).state.pc == 2
  {
    assert FlatRun(env, vm, m, 1) == FlatStep(env, vm, FlatStart(env, m));
    assert FlatRun(env, vm, m, 2) == FlatStep(env, vm, FlatRun(env, vm, m, 1).state);
  }

  lemma {:induction false} LoopRounds(env: Env, vm: Vm, m: Memory, count: i32, i: nat)
    requires WellFormed(env) && vm.code == Suite.Insns(LoopRows(count)) && i <= Rounds(count)
    ensures AtHead(FlatRun(env, vm, m, 2 + 3 * i), count, i)
    ensures FlatRun(env, vm, m, 2 + 3 * i).state.pc == if i == Rounds(count) then 5 else 2
  {
    hide FlatRun, LoopRows, Suite.Insns;
    if i == 0 {
      LoopEntry(env, vm, m, count);
    } else {
      LoopRounds(env, vm, m, count, i - 1);
      LoopRound(env, vm, m, count, i - 1, 2 + 3 * (i - 1));
    }
  }

  lemma LoopExit(env: Env, vm: Vm, m: Memory, n: nat)
    requires WellFormed(env) && FlatRun(env, vm, m, n).Running?
    requires var f := FlatRun(env, vm, m, n).state; f.pc < |vm.code| && vm.code[f.pc] == Exit
    ensures FlatRun(env, vm, m, n + 1) == Returned(FlatRun(env, vm, m, n).state.regs[0])
  {
  }

  lemma LoopReturns(env: Env, vm: Vm, m: Memory, count: i32)
    requires WellFormed(env) && vm.code == Suite.Insns(LoopRows(count))
    ensures Accepted(vm) && CapRun(env, Compiled(vm), m, 3 * Rounds(count) + 3) == Returned(Wrap64(count))
  {
    hide CapRun, Accepted, FlatRun, Wrap64, Compiled;
    EverySlotScalar(vm);
    var n := 3 * Rounds(count) + 2;
    ScalarProgramsAgree(env, vm, m, n + 1);
    LoopRounds(env, vm, m, count, Rounds(count));
    LoopExit(env, vm, m, n);
  }

  /** From its bytes, for every count, the loop ends and returns that count as a 64-bit word. */
  lemma LoopCounts(env: Env, m: Memory, count: i32)
    requires WellFormed(env)
    ensures var vm := Vm(LoadCode(Assemble(Suite.Raws(LoopRows(count)))), None);
            Accepted(vm) && CapRun(env, Compiled(vm), m, 3 * Rounds(count) + 3) == Returned(Wrap64(count))
  {
    LoopListed(count);
    hide *;
    Suite.ListsLoad(LoopRows(count));
    LoopReturns(env, Vm(Suite.Insns(LoopRows(count)), None), m, count);
  }
}
