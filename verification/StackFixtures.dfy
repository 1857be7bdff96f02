/**
 The compiler-generated index fixtures over the stack: a byte array of 40 slots just below the
 stack top, indexed by the context's first word.
 */
module StackFixtures {
  import opened Words
  import opened Ebpf
  import opened Contract
  import opened Kinds
  import opened Straight
  import opened Codegen
  import opened CapMachine
  import opened Isolation
  import opened Stepping

  /** r4 = 0x5a; r5 = r10; r5 += -40; r5 += r2; *(u8 *)(r5 + 0) = r4; r0 = *(u8 *)(r5 + 0); exit. */
  function SlotCode(): seq<Insn> {
    [Alu(Mov, 4, Imm(0x5a)), Alu(Mov, 5, FromReg(10)), Alu(Add, 5, Imm(-40)), Alu(Add, 5, FromReg(2)),
     Store(Byte, 5, 0, FromReg(4)), Load(Byte, false, 0, 5, 0), Exit]
  }

  function SlotOps(): seq<Code> {
    [XAlu(Mov, 4, Imm(0x5a)), CMov(5, 10), CMove(5, Imm(-40), false), CMove(5, FromReg(2), false),
     CStore(Byte, 5, 0, FromReg(4)), CLoad(Byte, false, 0, 5, 0), Ret]
  }

  /** Adding `index` to the slot array's base reaches the stack exactly when it is below 40. */
  lemma SlotInside(env: Env, index: nat)
    requires WellFormed(env) && env.stack.length >= 40
    requires index < 0x1_0000_0000 && env.stack.length + 0x1_0000_0000 <= TWO_64
    ensures var start := env.stack.base + env.stack.length - 40;
            Inside(env.stack, Wrap64(start + index), 1) <==> index < 40
  {
    var sum := env.stack.base + env.stack.length - 40 + index;
    assert Wrap64(sum) == if sum < TWO_64 then sum else sum - TWO_64;
  }

  /** From the index in R2 to the store: R5 addresses slot `index`. */
  lemma SlotPointer(env: Env, code: seq<Code>, m: Memory, n: nat, s: CapState, index: u64, p: u64)
    returns (t: CapState)
    requires WellFormed(env) && env.stack.length >= 40 && At(env, code, m, n, s) && s.pc + 7 == |code|
    requires code[s.pc..] == SlotOps() && s.regs[10] == Cap(env.stack, StackTop(env))
    requires s.regs[2] == Int(index) && p == Wrap64(env.stack.base + env.stack.length - 40 + index)
    ensures At(env, code, m, n + 4, t) && t.pc == s.pc + 4 && t.mem == s.mem
    ensures t.regs[4] == Int(0x5a) && t.regs[5] == Cap(env.stack, p)
  {
    hide CapRun, CapStep, StackTop;
    var k := s.pc;
    assert forall i | 0 <= i < 7 :: code[k + i] == code[k..][i];
    AluAt(env, code, m, n, s, Mov, 4, Imm(0x5a), 0x5a);
    var s1 := Wrote(s, k + 1, 4, Int(0x5a));
    CopyAt(env, code, m, n + 1, s1, 5, 10);
    var s2 := Wrote(s1, k + 2, 5, Cap(env.stack, StackTop(env)));
    BelowTop(env, -40);
    var start := env.stack.base + env.stack.length - 40;
    MoveAt(env, code, m, n + 2, s2, 5, Imm(-40), env.stack, start);
    var s3 := Wrote(s2, k + 3, 5, Cap(env.stack, start));
    MoveAt(env, code, m, n + 3, s3, 5, FromReg(2), env.stack, p);
    t := Wrote(s3, k + 4, 5, Cap(env.stack, p));
  }

  /** The store traps exactly when the index is 40 or more; otherwise the byte is read back. */
  lemma SlotAccess(env: Env, code: seq<Code>, m: Memory, n: nat, s: CapState, index: u64)
    requires WellFormed(env) && env.stack.length >= 40 && At(env, code, m, n, s) && s.pc + 7 == |code|
    requires code[s.pc..] == SlotOps() && s.regs[10] == Cap(env.stack, StackTop(env)) && s.regs[2] == Int(index)
    requires index < 0x1_0000_0000 && env.stack.length + 0x1_0000_0000 <= TWO_64
    ensures index < 40 ==> CapRun(env, code, m, n + 7) == Returned(0x5a)
    ensures index >= 40 ==> CapRun(env, code, m, n + 5) == Trapped(s.pc + 4)
  {
    hide CapRun, CapStep, StackTop, StoreLE, LoadValue;
    var p := Wrap64(env.stack.base + env.stack.length - 40 + index);
    SlotInside(env, index);
    var t := SlotPointer(env, code, m, n, s, index, p);
    assert forall i | 0 <= i < 7 :: code[s.pc + i] == code[s.pc..][i];
    if index < 40 {
      StoreAt(env, code, m, n + 4, t, Byte, 5, 0, FromReg(4), p);
      var u := t.(pc := t.pc + 1, mem := StoreLE(t.mem, p, 1, 0x5a));
      StoreLoadRoundTrip(t.mem, p, Byte, 0x5a, false);
      LoadAt(env, code, m, n + 5, u, Byte, false, 0, 5, 0, p, 0x5a);
      ReturnAt(env, code, m, n + 6, Wrote(u, u.pc + 1, 0, Int(0x5a)));
    } else {
      StoreTraps(env, code, m, n + 4, t, Byte, 5, 0, FromReg(4), p);
    }
  }

  lemma SlotKinds(c: seq<Insn>, k: nat)
    requires k + 7 == |c| && c[k..] == SlotCode() && StraightLine(c)
    requires KindAt(c, k, 10) == Capability(Stack) && KindAt(c, k, 2) == Scalar
    requires k > 0 ==> c[k - 1].Alu? || c[k - 1].Load?
    ensures KindAt(c, k + 1, 10) == KindAt(c, k + 2, 5) == KindAt(c, k + 3, 5) == Capability(Stack)
    ensures KindAt(c, k + 4, 5) == KindAt(c, k + 5, 5) == Capability(Stack)
    ensures KindAt(c, k + 3, 2) == KindAt(c, k + 4, 4) == KindAt(c, k + 6, 0) == Scalar
  {
    assert forall i | 0 <= i < 7 :: c[k + i] == c[k..][i];
    assert Previous(c, k + 1) == k && Previous(c, k + 2) == k + 1 && Previous(c, k + 3) == k + 2;
    assert Previous(c, k + 4) == k + 3 && Previous(c, k + 5) == k + 4 && Previous(c, k + 6) == k + 5;
    assert KindAt(c, k + 1, 2) == KindAt(c, k, 2) && KindAt(c, k + 2, 2) == KindAt(c, k + 1, 2);
    assert KindAt(c, k + 1, 4) == Scalar && KindAt(c, k + 2, 4) == KindAt(c, k + 1, 4);
    assert KindAt(c, k + 3, 4) == KindAt(c, k + 2, 4);
  }

  /** r2 = *(u32 *)(r1 + 0), then the slot access: the index is the low half of the first word. */
  function StackOobCode(): seq<Insn> {
    [Load(Word, false, 2, 1, 0)] + SlotCode()
  }

  /** r2 = *(u64 *)(r1 + 0); r2 &= 7, then the slot access. */
  function StackArrayCode(): seq<Insn> {
    [Load(Double, false, 2, 1, 0), Alu(AndOp, 2, Imm(7))] + SlotCode()
  }

  lemma SlotLowers(c: seq<Insn>, k: nat, i: nat)
    requires k + 7 == |c| && c[k..] == SlotCode() && StraightLine(c) && i < 7
    requires KindAt(c, k, 10) == Capability(Stack) && KindAt(c, k, 2) == Scalar
    requires k > 0 ==> c[k - 1].Alu? || c[k - 1].Load?
    ensures Live(c, k + i) && Lower(c[k + i], k + i, KindsAt(c, k + i)) == SlotOps()[i]
  {
    hide KindAt;
    SlotKinds(c, k);
    assert c[k + i] == c[k..][i];
  }

  /** The slot access is compiled alike wherever it ends a straight-line program. */
  lemma SlotCompiles(vm: Vm, k: nat)
    requires k + 7 == |vm.code| && vm.code[k..] == SlotCode() && StraightLine(vm.code)
    requires KindAt(vm.code, k, 10) == Capability(Stack) && KindAt(vm.code, k, 2) == Scalar
    requires k > 0 ==> vm.code[k - 1].Alu? || vm.code[k - 1].Load?
    ensures |Compiled(vm)| == |vm.code| && Compiled(vm)[k..] == SlotOps()
  {
    hide KindAt, Compiled, Lower, KindsAt;
    SlotLowers(vm.code, k, 0);
    StraightCompiled(vm, k);
    forall i | 0 <= i < 7
      ensures Compiled(vm)[k..][i] == SlotOps()[i]
    {
      SlotLowers(vm.code, k, i);
      StraightCompiled(vm, k + i);
    }
  }

  lemma SlotChecks(vm: Vm, k: nat)
    requires k + 7 == |vm.code| && vm.code[k..] == SlotCode() && StraightLine(vm.code)
    requires KindAt(vm.code, k, 10) == Capability(Stack) && KindAt(vm.code, k, 2) == Scalar
    requires k > 0 ==> vm.code[k - 1].Alu? || vm.code[k - 1].Load?
    ensures forall pc | k <= pc < |vm.code| :: StraightCheck(vm, pc) == None
  {
    hide KindAt;
    SlotKinds(vm.code, k);
    forall pc | k <= pc < |vm.code|
      ensures StraightCheck(vm, pc) == None
    {
      assert vm.code[pc] == vm.code[k..][pc - k];
    }
  }

  lemma StackOobTranslates(vm: Vm)
    requires vm.code == StackOobCode()
    ensures Accepted(vm) && Compiled(vm) == [CLoad(Word, false, 2, 1, 0)] + SlotOps()
  {
    var c := vm.code;
    assert c[1..] == SlotCode();
    assert KindAt(c, 0, 1) == Capability(Context) && KindAt(c, 0, 10) == Capability(Stack);
    assert KindAt(c, 1, 10) == Capability(Stack) && KindAt(c, 1, 2) == Scalar;
    hide KindAt, Accepted, Compiled, Mop;
    SlotCompiles(vm, 1);
    SlotChecks(vm, 1);
    StraightAccepted(vm);
    StraightCompiled(vm, 0);
    assert Compiled(vm) == Compiled(vm)[..1] + Compiled(vm)[1..];
  }

  lemma StackArrayAccepted(vm: Vm)
    requires vm.code == StackArrayCode()
    ensures Accepted(vm)
  {
    var c := vm.code;
    assert c[2..] == SlotCode();
    StackArrayKinds(c);
    hide KindAt, Accepted, SlotCode;
    SlotChecks(vm, 2);
    assert StraightCheck(vm, 0) == None && StraightCheck(vm, 1) == None;
    StraightAccepted(vm);
  }

  lemma StackArrayTranslates(vm: Vm)
    requires vm.code == StackArrayCode()
    ensures Accepted(vm)
    ensures Compiled(vm) == [CLoad(Double, false, 2, 1, 0), XAlu(AndOp, 2, Imm(7))] + SlotOps()
  {
    var c := vm.code;
    assert c[2..] == SlotCode();
    StackArrayKinds(c);
    StackArrayAccepted(vm);
    hide KindAt, Accepted, Compiled, Mop, SlotOps;
    SlotCompiles(vm, 2);
    StraightCompiled(vm, 0);
    StraightCompiled(vm, 1);
    assert Compiled(vm) == Compiled(vm)[..2] + Compiled(vm)[2..];
  }

  lemma StackArrayKinds(c: seq<Insn>)
    requires c == StackArrayCode()
    ensures KindAt(c, 0, 1) == Capability(Context)
    ensures KindAt(c, 1, 2) == Scalar && KindAt(c, 2, 2) == Scalar && KindAt(c, 2, 10) == Capability(Stack)
  {
    assert KindAt(c, 0, 10) == Capability(Stack);
    assert KindAt(c, 1, 10) == Capability(Stack) && KindAt(c, 1, 2) == Scalar;
  }

  /** The low half of a doubleword is the word at its address. */
  lemma WordIsLow(m: Memory, a: u64)
    ensures LoadValue(m, a, Word, false) == LoadValue(m, a, Double, false) % 0x1_0000_0000
  {
    hide LoadLE;
    var b := UpperPart(m, a, 4);
    LimitIsPow256(Word);
    RemainderIs(LoadLE(m, a, 4), LoadLE(m, b, 4));
  }

  lemma RemainderIs(low: nat, high: nat)
    requires low < 0x1_0000_0000
    ensures (low + 0x1_0000_0000 * high) % 0x1_0000_0000 == low
  {
  }

  lemma UpperPart(m: Memory, a: u64, n: nat) returns (b: u64)
    ensures LoadLE(m, a, n + 4) == LoadLE(m, a, 4) + 0x1_0000_0000 * LoadLE(m, b, n)
  {
    var a1 := Wrap64(a + 1);
    var a2 := Wrap64(a1 as int + 1);
    var a3 := Wrap64(a2 as int + 1);
    b := Wrap64(a3 as int + 1);
    hide Wrap64, ReadByte;
    assert LoadLE(m, a, n + 4) == ReadByte(m, a) + 0x100 * LoadLE(m, a1, n + 3);
    assert LoadLE(m, a1, n + 3) == ReadByte(m, a1) + 0x100 * LoadLE(m, a2, n + 2);
    assert LoadLE(m, a2, n + 2) == ReadByte(m, a2) + 0x100 * LoadLE(m, a3, n + 1);
  }

  /** The stack fixture traps at its store exactly when the low 32 bits of `a` are 40 or more. */
  lemma StackOobTrapsExactly(env: Env, vm: Vm, m: Memory)
    requires WellFormed(env) && env.ctx.length >= 8 && vm.code == StackOobCode()
    requires env.stack.length >= 40 && env.stack.length + 0x1_0000_0000 <= TWO_64
    ensures Accepted(vm)
    ensures var index := FirstWord(env, m) % 0x1_0000_0000;
            && (index < 40 ==> CapRun(env, Compiled(vm), m, 8) == Returned(0x5a))
            && (index >= 40 ==> CapRun(env, Compiled(vm), m, 6) == Trapped(5))
  {
    hide CapRun, LoadValue, StackTop;
    StackOobTranslates(vm);
    var code := Compiled(vm);
    var index := FirstWord(env, m) % 0x1_0000_0000;
    Uncleared(env, env.ctx, m, env.ctx.base, Double, false);
    WordIsLow(ClearStack(env, m), env.ctx.base);
    var s := CapStart(env, m);
    StartAt(env, code, m);
    LoadAt(env, code, m, 0, s, Word, false, 2, 1, 0, env.ctx.base, index);
    assert code[1..] == SlotOps();
    SlotAccess(env, code, m, 1, Wrote(s, 1, 2, Int(index)), index);
  }

  /** A masked index never traps: the stored byte comes back on every context and stack. */
  lemma StackArrayReturns(env: Env, vm: Vm, m: Memory)
    requires WellFormed(env) && env.ctx.length >= 8 && vm.code == StackArrayCode()
    requires env.stack.length >= 40 && env.stack.length + 0x1_0000_0000 <= TWO_64
    ensures Accepted(vm) && CapRun(env, Compiled(vm), m, 9) == Returned(0x5a)
  {
    hide CapRun, LoadValue, StackTop, AluEval;
    StackArrayTranslates(vm);
    var code := Compiled(vm);
    var a := FirstWord(env, m);
    FirstLoad(env, code, m);
    var s := Wrote(CapStart(env, m), 1, 2, Int(a));
    LowThree(a);
    AluAt(env, code, m, 1, s, AndOp, 2, Imm(7), a % 8);
    assert code[2..] == SlotOps();
    SlotAccess(env, code, m, 2, Wrote(s, 2, 2, Int(a % 8)), a % 8);
  }

  lemma LowThree(a: u64)
    ensures AluEval(AndOp, a, 7) == a % 8
  {
    hide Bitwise;
    assert Pow2(3) == 8;
    AndLow(a, 3, 64);
    LowThreeBits(a);
  }

  lemma LowThreeBits(a: nat)
    ensures Low(a, 3) == a % 8
  {
    LowBy2(a, 1);
    assert Low(a / 4, 1) == a / 4 % 2 + 2 * Low(a / 4 / 2, 0);
  }
}
