/**
 The verifier-bypass programs and the compiler-generated index fixtures over the context, on
 every context and stack.
 */
module Fixtures {
  import opened Words
  import opened Ebpf
  import opened Contract
  import opened Kinds
  import opened Straight
  import opened Codegen
  import opened CapMachine
  import opened Stepping
  import Agreement
  import M = Morello
  import opened Isolation
  import AccessFixtures
  import Suite
  import B = Bytecode

  // ----- verifier-bypass programs -----

  lemma PastTheEnd(env: Env, off: nat, m: Memory)
    requires WellFormed(env) && off < TWO_64 && env.ctx.length < off + 8
    ensures M.LoadOutcome(Agreement.ContextCap(env), off, m) == M.Trap
  {
    hide LoadValue;
    var sum := env.ctx.base + off;
    assert Wrap64(sum) == if sum < TWO_64 then sum else sum - TWO_64;
  }

  /** `r6 = r1; r0 = *(u64 *)(r6 + 4096); exit` traps on every context without that word. */
  lemma OobReadTraps(env: Env, vm: Vm, m: Memory, n: nat)
    requires WellFormed(env) && env.ctx.length < 4096 + 8 && n >= 3
    requires vm.code == [Alu(Mov, 6, FromReg(1)), Load(Double, false, 0, 6, 4096), Exit]
    ensures Accepted(vm) && CapRun(env, Compiled(vm), m, n).Trapped?
  {
    Agreement.AliasVmRuns(env, vm, m, 6, 4096, n);
    PastTheEnd(env, 4096, m);
  }

  /** The uninitialised stack read returns zero whatever the stack memory held before. */
  lemma UninitReadIsZero(env: Env, m: Memory)
    requires WellFormed(env) && env.stack.length >= 8
    ensures var vm := Vm(Suite.Insns(Suite.UninitStackPtrAddLoad()), None);
            Accepted(vm) && CapRun(env, Compiled(vm), m, 4) == Returned(0)
  {
    var vm := Vm(Suite.Insns(Suite.UninitStackPtrAddLoad()), None);
    assert vm.code == AccessFixtures.LoadCode(2, STACK_REG, -8, Double, false, 0);
    BelowTop(env, -8);
    hide CapRun, Compiled, Accepted, StackTop;
    AccessFixtures.StackLoads(env, vm, m, 2, -8, Double, false, 0);
  }

  // ----- index arithmetic -----

  lemma ShiftValues(x: nat)
    ensures Shl(x, 3) == 8 * x && Shr(x, 3) == x / 8 && Shr(x, 9) == x / 512
  {
    assert Shl(x, 3) == 2 * Shl(x, 2) == 4 * Shl(x, 1);
    assert Shr(x, 3) == Shr(x / 2, 2) == Shr(x / 2 / 2, 1);
    ShrBy4(x, 5);
    ShrBy4(x / 16, 1);
  }

  lemma {:induction false} LowAll(x: nat, m: nat)
    requires x < Pow2(m)
    ensures Low(x, m) == x
  {
    if m > 0 {
      LowAll(x / 2, m - 1);
    }
  }

  lemma FieldOf(a: u64, m: nat)
    requires 3 + m <= 64
    ensures Shl(Pow2(m) - 1, 3) == 8 * (Pow2(m) - 1)
    ensures Bitwise(And, a / 512, Shl(Pow2(m) - 1, 3), 64) == 8 * Low(a / 0x1000, m)
  {
    var x := a / 512;
    ShiftValues(x);
    ShiftValues(Pow2(m) - 1);
    ShiftValues(Low(x / 8, m));
    AndField(x, 3, m, 64);
    assert x / 8 == a / 0x1000;
  }

  /** `(a >> 9) & 8` is the byte offset of word `(a >> 12) & 1`. */
  lemma MaskedIndex(a: u64)
    ensures AluEval(AndOp, AluEval(Rsh, a, 9), 8) == 8 * (a / 0x1000 % 2)
  {
    ShiftValues(a);
    FieldOf(a, 1);
    assert Pow2(1) == 2;
    var y := a / 0x1000;
    assert Low(y, 1) == y % 2 + 2 * Low(y / 2, 0);
  }

  /** `(a >> 9) & 0x7ffffffffffff8` is the byte offset of word `a >> 12`. */
  lemma UnmaskedIndex(a: u64)
    ensures AluEval(AndOp, AluEval(Rsh, a, 9), 0x7ffffffffffff8) == 8 * (a / 0x1000)
  {
    ShiftValues(a);
    FieldOf(a, 52);
    Pow2Of64();
    LowAll(a / 0x1000, 52);
  }

  // ----- the arithmetic context fixtures -----

  /** r2 = *(u64 *)(r1 + 0); r2 >>= 9; r2 &= 8; r1 += r2; r0 = *(u64 *)(r1 + 0); exit. */
  function InBoundsRows(): seq<Suite.Row> {
    [Suite.R(0x79, 2, 1, 0, 0, Load(Double, false, 2, 1, 0)),
     Suite.R(0x77, 2, 0, 0, 9, Alu(Rsh, 2, Imm(9))),
     Suite.R(0x57, 2, 0, 0, 8, Alu(AndOp, 2, Imm(8))),
     Suite.R(0x0f, 1, 2, 0, 0, Alu(Add, 1, FromReg(2))),
     Suite.R(0x79, 0, 1, 0, 0, Load(Double, false, 0, 1, 0)),
     Suite.R(0x95, 0, 0, 0, 0, Exit)]
  }

  function InBoundsCode(): seq<Insn> {
    Suite.Insns(InBoundsRows())
  }

  lemma InBoundsListed()
    ensures Suite.LinesFrom(InBoundsRows(), 0)
  {
  }

  lemma InBoundsLoads()
    ensures B.LoadCode(B.Assemble(Suite.Raws(InBoundsRows()))) == InBoundsCode()
  {
    InBoundsListed();
    hide Suite.LinesFrom, Suite.Line, B.LoadCode, B.Assemble, InBoundsRows;
    Suite.LinesFromList(InBoundsRows(), 0);
    Suite.ListsLoad(InBoundsRows());
  }

  function InBoundsOps(): seq<Code> {
    [CLoad(Double, false, 2, 1, 0), XAlu(Rsh, 2, Imm(9)), XAlu(AndOp, 2, Imm(8)), CMove(1, FromReg(2), false),
     CLoad(Double, false, 0, 1, 0), Ret]
  }

  lemma InBoundsKinds(c: seq<Insn>)
    requires c == InBoundsCode()
    ensures forall pc | 0 <= pc < 5 :: KindAt(c, pc, 1) == Capability(Context)
    ensures KindAt(c, 1, 2) == KindAt(c, 2, 2) == KindAt(c, 3, 2) == KindAt(c, 5, 0) == Scalar
  {
    assert KindAt(c, 0, 1) == Capability(Context);
    assert KindAt(c, 1, 1) == KindAt(c, 0, 1);
    assert KindAt(c, 2, 1) == KindAt(c, 1, 1);
    assert KindAt(c, 3, 1) == KindAt(c, 2, 1);
    assert KindAt(c, 4, 1) == KindAt(c, 3, 1);
  }

  lemma InBoundsTranslates(vm: Vm)
    requires vm.code == InBoundsCode()
    ensures Accepted(vm)
  {
    InBoundsKinds(vm.code);
    StraightAccepted(vm);
  }

  lemma InBoundsCompiles(vm: Vm)
    requires vm.code == InBoundsCode()
    ensures Compiled(vm) == InBoundsOps()
  {
    hide KindAt, Compiled;
    InBoundsKinds(vm.code);
    StraightCompiles(vm);
  }

  /** For any value `a` the first load brings and the offset computed from it. */
  lemma InBoundsRuns(env: Env, code: seq<Code>, m: Memory, a: u64, shifted: u64, offset: nat)
    requires WellFormed(env) && env.ctx.length >= 16 && code == InBoundsOps() && a == FirstWord(env, m)
    requires AluEval(Rsh, a, 9) == shifted && AluEval(AndOp, shifted, 8) == offset <= 8
    ensures CapRun(env, code, m, 6) == Returned(LoadValue(m, env.ctx.base + offset, Double, false))
  {
    hide CapRun, CapStep, LoadValue, AluEval;
    FirstLoad(env, code, m);
    var s1 := Wrote(CapStart(env, m), 1, 2, Int(a));
    AluAt(env, code, m, 1, s1, Rsh, 2, Imm(9), shifted);
    var s2 := Wrote(s1, 2, 2, Int(shifted));
    AluAt(env, code, m, 2, s2, AndOp, 2, Imm(8), offset);
    var s3 := Wrote(s2, 3, 2, Int(offset));
    var p := env.ctx.base + offset;
    MoveAt(env, code, m, 3, s3, 1, FromReg(2), env.ctx, p);
    var s4 := Wrote(s3, 4, 1, Cap(env.ctx, p));
    Uncleared(env, env.ctx, m, p, Double, false);
    var v := LoadValue(m, p, Double, false);
    LoadAt(env, code, m, 4, s4, Double, false, 0, 1, 0, p, v);
    ReturnAt(env, code, m, 5, Wrote(s4, 5, 0, Int(v)));
  }

  /** For every context of two words: word `(a >> 12) & 1` is returned, and nothing traps. */
  lemma InBoundsReturns(env: Env, vm: Vm, m: Memory)
    requires WellFormed(env) && env.ctx.length >= 16 && vm.code == InBoundsCode()
    ensures Accepted(vm)
    ensures CapRun(env, Compiled(vm), m, 6)
         == Returned(LoadValue(m, env.ctx.base + 8 * (FirstWord(env, m) / 0x1000 % 2), Double, false))
  {
    hide CapRun, LoadValue, AluEval;
    var a := FirstWord(env, m);
    InBoundsTranslates(vm);
    InBoundsCompiles(vm);
    MaskedIndex(a);
    InBoundsRuns(env, Compiled(vm), m, a, AluEval(Rsh, a, 9), 8 * (a / 0x1000 % 2));
  }

  const WIDE_MASK: u64 := 0x7ffffffffffff8

  /** The constant takes two slots: its immediates are the halves of the mask. */
  function OobRaws(): seq<B.Raw> {
    [B.Raw(0x79, 2, 1, 0, 0), B.Raw(0x77, 2, 0, 0, 9), B.Raw(0x18, 3, 0, 0, -8), B.Raw(0, 0, 0, 0, 0x7fffff),
     B.Raw(0x5f, 2, 3, 0, 0), B.Raw(0x0f, 1, 2, 0, 0), B.Raw(0x79, 0, 1, 0xff8, 0), B.Raw(0x95, 0, 0, 0, 0)]
  }

  /**
   r2 = *(u64 *)(r1 + 0); r2 >>= 9; r3 = 0x7ffffffffffff8 ll (two slots); r2 &= r3; r1 += r2;
   r0 = *(u64 *)(r1 + 0xff8); exit.
   */
  function OobCode(): seq<Insn> {
    [Load(Double, false, 2, 1, 0), Alu(Rsh, 2, Imm(9)), Const64(3, WIDE_MASK), Unsupported(0),
     Alu(AndOp, 2, FromReg(3)), Alu(Add, 1, FromReg(2)), Load(Double, false, 0, 1, 0xff8), Exit]
  }

  lemma OobLines(i: nat, next: Option<B.Raw>)
    requires i < 8
    ensures B.InRange(OobRaws()[i]) && (i != 2 ==> B.InsnOf(OobRaws()[i], next) == OobCode()[i])
  {
  }

  lemma WideLine()
    ensures B.InsnOf(B.Raw(0x18, 3, 0, 0, -8), Some(B.Raw(0, 0, 0, 0, 0x7fffff))) == Const64(3, WIDE_MASK)
  {
  }

  lemma OobLoads()
    ensures B.LoadCode(B.Assemble(OobRaws())) == OobCode()
  {
    hide B.InsnOf, B.InRange, B.LoadCode, B.Assemble;
    var raws := OobRaws();
    WideLine();
    forall i | 0 <= i < 8
      ensures B.InRange(raws[i])
    {
      OobLines(i, None);
    }
    B.LoadAssembled(raws);
    forall i | 0 <= i < 8
      ensures B.Listing(raws)[i] == OobCode()[i]
    {
      if i != 2 {
        OobLines(i, if i + 1 < 8 then Some(raws[i + 1]) else None);
      }
    }
  }

  predicate OobOps(code: seq<Code>) {
    && |code| == 8
    && code[0] == CLoad(Double, false, 2, 1, 0) && code[1] == XAlu(Rsh, 2, Imm(9))
    && code[2] == XConst(3, WIDE_MASK) && code[4] == XAlu(AndOp, 2, FromReg(3))
    && code[5] == CMove(1, FromReg(2), false) && code[6] == CLoad(Double, false, 0, 1, 0xff8)
  }

  lemma OobKinds(c: seq<Insn>)
    requires c == OobCode()
    ensures forall pc | pc in {0, 1, 2, 4, 5, 6} :: KindAt(c, pc, 1) == Capability(Context)
    ensures KindAt(c, 1, 2) == KindAt(c, 4, 2) == KindAt(c, 4, 3) == KindAt(c, 5, 2) == KindAt(c, 7, 0) == Scalar
  {
    assert KindAt(c, 0, 1) == Capability(Context);
    assert KindAt(c, 1, 1) == KindAt(c, 0, 1);
    assert KindAt(c, 2, 1) == KindAt(c, 1, 1) && KindAt(c, 2, 2) == KindAt(c, 1, 2);
    assert Previous(c, 4) == 2 && Previous(c, 5) == 4 && Previous(c, 6) == 5;
    assert KindAt(c, 4, 1) == KindAt(c, 2, 1) && KindAt(c, 4, 2) == KindAt(c, 2, 2);
    assert KindAt(c, 5, 1) == KindAt(c, 4, 1);
    assert KindAt(c, 6, 1) == KindAt(c, 5, 1);
  }

  lemma OobTranslates(vm: Vm)
    requires vm.code == OobCode()
    ensures Accepted(vm)
  {
    OobKinds(vm.code);
    StraightAccepted(vm);
  }

  lemma OobCompiles(vm: Vm)
    requires vm.code == OobCode()
    ensures OobOps(Compiled(vm))
  {
    hide KindAt, Compiled;
    OobKinds(vm.code);
    StraightCompiles(vm);
  }

  /** From 511 words past the start of a two-word object up, even wrapping, nothing is inside. */
  lemma FarOutside(env: Env, offset: nat, p: u64)
    requires WellFormed(env) && env.ctx.length <= 16 && offset < 0x80_0000_0000_0000
    requires p == Wrap64(env.ctx.base + offset)
    ensures !Inside(env.ctx, Wrap64(p as int + 0xff8), 8)
  {
    var sum := env.ctx.base + offset;
    assert Wrap64(sum) == if sum < TWO_64 then sum else sum - TWO_64;
  }

  lemma OobRuns(env: Env, code: seq<Code>, m: Memory, a: u64, shifted: u64, offset: nat)
    requires WellFormed(env) && env.ctx.length == 16 && OobOps(code) && a == FirstWord(env, m)
    requires offset < 0x80_0000_0000_0000
    requires AluEval(Rsh, a, 9) == shifted && AluEval(AndOp, shifted, WIDE_MASK) == offset
    ensures CapRun(env, code, m, 6) == Trapped(6)
  {
    hide CapRun, CapStep, LoadValue, AluEval;
    FirstLoad(env, code, m);
    var s1 := Wrote(CapStart(env, m), 1, 2, Int(a));
    AluAt(env, code, m, 1, s1, Rsh, 2, Imm(9), shifted);
    var s2 := Wrote(s1, 2, 2, Int(shifted));
    ConstAt(env, code, m, 2, s2, 3, WIDE_MASK);
    var s3 := Wrote(s2, 4, 3, Int(WIDE_MASK));
    AluAt(env, code, m, 3, s3, AndOp, 2, FromReg(3), offset);
    var s4 := Wrote(s3, 5, 2, Int(offset));
    var p := Wrap64(env.ctx.base + offset);
    MoveAt(env, code, m, 4, s4, 1, FromReg(2), env.ctx, p);
    FarOutside(env, offset, p);
    var q := Wrap64(p as int + 0xff8);
    LoadTraps(env, code, m, 5, Wrote(s4, 6, 1, Cap(env.ctx, p)), Double, false, 0, 1, 0xff8, q);
  }

  /** The program is accepted, and on every two-word context whatever it holds the read traps. */
  lemma OobTraps(env: Env, vm: Vm, m: Memory)
    requires WellFormed(env) && env.ctx.length == 16 && vm.code == OobCode()
    ensures Accepted(vm) && CapRun(env, Compiled(vm), m, 6) == Trapped(6)
  {
    var a := FirstWord(env, m);
    OobTranslates(vm);
    OobCompiles(vm);
    UnmaskedIndex(a);
    OobRuns(env, Compiled(vm), m, a, AluEval(Rsh, a, 9), 8 * (a / 0x1000));
  }
}
