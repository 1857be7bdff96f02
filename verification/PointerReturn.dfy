/**
 Returning a pointer. The project notes say a program that tries to return a capability-kind
 value is rejected (docs/project_state.md:36); the analysis behind it refuses EXIT only when
 every path leaves the capability. Two accepted programs show that a stack address gets out,
 and a decidable guard on the join over all paths says which programs keep addresses in.
 */
module PointerReturn {
  import opened Ebpf
  import opened Contract
  import opened Kinds
  import opened Straight
  import opened Codegen
  import opened CapMachine
  import opened Stepping
  import opened Analysis
  import opened MayKinds
  import opened Layout

  /** r0 = 0; if r2 == 0 goto +1; r0 = r10; exit. */
  function JoinCode(): seq<Insn> {
    [Alu(Mov, 0, Imm(0)), JumpIf(Eq, 2, Imm(0), 1), Alu(Mov, 0, FromReg(10)), Exit]
  }

  lemma JoinEdges(vm: Vm)
    requires vm.code == JoinCode()
    ensures forall s: nat, t: nat :: Edge(vm, s, t) <==> (s < 3 && t == s + 1) || (s == 1 && t == 3)
  {
    var c := vm.code;
    assert Succs(c[0], 0) == {1} && Succs(c[1], 1) == {2, 3} && Succs(c[2], 2) == {3} && Succs(c[3], 3) == {};
  }

  lemma JoinKinds(vm: Vm)
    requires vm.code == JoinCode()
    requires forall s: nat, t: nat :: Edge(vm, s, t) <==> (s < 3 && t == s + 1) || (s == 1 && t == 3)
    ensures Reaches(vm, 0) && Reaches(vm, 1) && Reaches(vm, 2) && Reaches(vm, 3)
    ensures Mop(vm, 2)[10] == Capability(Stack) && Mop(vm, 3)[0] == Scalar
  {
    var c := vm.code;
    assert OriginOf(c[0], 10) == OriginOf(c[1], 10) == CopyOf(10);
    assert OriginOf(c[0], 0) == Fixed(Scalar) && OriginOf(c[1], 0) == CopyOf(0) && OriginOf(c[2], 0) == CopyOf(10);
    MopAtEntry(vm, 10);
    MopFromEdges(vm, 0, 0, 1, 10);
    MopFromEdges(vm, 1, 1, 2, 10);
    MopFromEdges(vm, 0, 0, 1, 0);
    MopFromEdges(vm, 1, 2, 3, 0);
  }

  lemma JoinAccepted(vm: Vm)
    requires vm.code == JoinCode()
    requires Mop(vm, 2)[10] == Capability(Stack) && Mop(vm, 3)[0] == Scalar
    ensures Accepted(vm)
  {
    var c := vm.code;
    assert Succs(c[0], 0) == {1} && Succs(c[1], 1) == {2, 3} && Succs(c[2], 2) == {3} && Succs(c[3], 3) == {};
    assert forall ks: KindMap :: Check(vm, 0, c[0], ks) == None && Check(vm, 1, c[1], ks) == None;
    assert forall ks: KindMap :: Check(vm, 2, c[2], ks) == None;
    assert Check(vm, 3, c[3], Mop(vm, 3)) == None;
  }

  lemma JoinCompiled(vm: Vm)
    requires vm.code == JoinCode()
    requires Reaches(vm, 0) && Reaches(vm, 1) && Reaches(vm, 2) && Reaches(vm, 3)
    requires Mop(vm, 2)[10] == Capability(Stack)
    ensures Compiled(vm) == [XAlu(Mov, 0, Imm(0)), BranchIf(Eq, 2, Imm(0), 3), CMov(0, 10), Ret]
  {
    hide Mop, Reaches;
  }

  /** Up to the branch. */
  lemma JoinStart(env: Env, code: seq<Code>, m: Memory)
    requires WellFormed(env)
    requires code == [XAlu(Mov, 0, Imm(0)), BranchIf(Eq, 2, Imm(0), 3), CMov(0, 10), Ret]
    ensures CapRun(env, code, m, 2).Running?
    ensures var s := CapRun(env, code, m, 2).state;
            && s.pc == (if env.entry(2) == 0 then 3 else 2)
            && s.regs[0] == Int(0) && s.regs[10] == Cap(env.stack, StackTop(env))
  {
    var s0 := CapStart(env, m);
    assert CapRun(env, code, m, 1) == CapStep(env, code, s0);
    var s1 := CapRun(env, code, m, 1).state;
    assert s1.regs[2] == Int(env.entry(2));
    assert CapRun(env, code, m, 2) == CapStep(env, code, s1);
  }

  /** This accepted program returns the address of its stack whenever R2 is not zero. */
  lemma JoinReturnsPointer(env: Env, vm: Vm, m: Memory)
    requires WellFormed(env) && vm.code == JoinCode()
    ensures Accepted(vm)
    ensures env.entry(2) != 0 ==> CapRun(env, Compiled(vm), m, 4) == Returned(StackTop(env))
    ensures env.entry(2) == 0 ==> CapRun(env, Compiled(vm), m, 3) == Returned(0)
  {
    JoinEdges(vm);
    JoinKinds(vm);
    JoinAccepted(vm);
    JoinCompiled(vm);
    JoinRuns(env, Compiled(vm), m);
  }

  lemma JoinRuns(env: Env, code: seq<Code>, m: Memory)
    requires WellFormed(env)
    requires code == [XAlu(Mov, 0, Imm(0)), BranchIf(Eq, 2, Imm(0), 3), CMov(0, 10), Ret]
    ensures env.entry(2) != 0 ==> CapRun(env, code, m, 4) == Returned(StackTop(env))
    ensures env.entry(2) == 0 ==> CapRun(env, code, m, 3) == Returned(0)
  {
    JoinStart(env, code, m);
    var s2 := CapRun(env, code, m, 2).state;
    assert CapRun(env, code, m, 3) == CapStep(env, code, s2);
    if env.entry(2) != 0 {
      assert CapRun(env, code, m, 4) == CapStep(env, code, CapRun(env, code, m, 3).state);
    }
  }

  // ----- an address that leaves through arithmetic -----

  /** r6 = 0; if r2 == 0 goto +1; r6 = r10; r0 = 0; r0 += r6; exit. */
  function SumCode(): seq<Insn> {
    [Alu(Mov, 6, Imm(0)), JumpIf(Eq, 2, Imm(0), 1), Alu(Mov, 6, FromReg(10)), Alu(Mov, 0, Imm(0)),
     Alu(Add, 0, FromReg(6)), Exit]
  }

  function SumOps(): seq<Code> {
    [XAlu(Mov, 6, Imm(0)), BranchIf(Eq, 2, Imm(0), 3), CMov(6, 10), XAlu(Mov, 0, Imm(0)),
     XAlu(Add, 0, FromReg(6)), Ret]
  }

  ghost predicate SumFlow(vm: Vm) {
    forall s: nat, t: nat :: Edge(vm, s, t) <==> (s < 5 && t == s + 1) || (s == 1 && t == 3)
  }

  lemma SumEdges(vm: Vm)
    requires vm.code == SumCode()
    ensures SumFlow(vm)
  {
    var c := vm.code;
    assert Succs(c[0], 0) == {1} && Succs(c[1], 1) == {2, 3} && Succs(c[2], 2) == {3};
    assert Succs(c[3], 3) == {4} && Succs(c[4], 4) == {5} && Succs(c[5], 5) == {};
  }

  lemma SumStackKept(vm: Vm)
    requires vm.code == SumCode() && SumFlow(vm)
    ensures Reaches(vm, 0) && Reaches(vm, 1) && Reaches(vm, 2) && Mop(vm, 2)[10] == Capability(Stack)
  {
    hide Mop, Reaches;
    assert OriginOf(vm.code[0], 10) == OriginOf(vm.code[1], 10) == CopyOf(10);
    MopAtEntry(vm, 10);
    MopFromEdges(vm, 0, 0, 1, 10);
    MopFromEdges(vm, 1, 1, 2, 10);
  }

  lemma SumKinds(vm: Vm)
    requires vm.code == SumCode() && SumFlow(vm)
    ensures forall pc: nat | pc < 6 :: Reaches(vm, pc)
    ensures Mop(vm, 2)[10] == Capability(Stack) && Mop(vm, 4)[6] == Mop(vm, 4)[0] == Mop(vm, 5)[0] == Scalar
  {
    hide Mop, Reaches;
    var c := vm.code;
    SumStackKept(vm);
    assert OriginOf(c[0], 6) == Fixed(Scalar) && OriginOf(c[1], 6) == OriginOf(c[3], 6) == CopyOf(6);
    assert OriginOf(c[2], 6) == CopyOf(10) && OriginOf(c[3], 0) == Fixed(Scalar) && OriginOf(c[4], 0) == CopyOf(0);
    MopFromEdges(vm, 0, 0, 1, 6);
    MopFromEdges(vm, 1, 2, 3, 6);
    MopFromEdges(vm, 3, 3, 4, 6);
    MopFromEdges(vm, 3, 3, 4, 0);
    MopFromEdges(vm, 4, 4, 5, 0);
  }

  lemma SumAccepted(vm: Vm)
    requires vm.code == SumCode()
    requires Mop(vm, 4)[6] == Mop(vm, 4)[0] == Mop(vm, 5)[0] == Scalar
    ensures Accepted(vm)
  {
    var c := vm.code;
    hide Mop;
    assert forall ks: KindMap :: Check(vm, 0, c[0], ks) == None && Check(vm, 1, c[1], ks) == None;
    assert forall ks: KindMap :: Check(vm, 2, c[2], ks) == None && Check(vm, 3, c[3], ks) == None;
    assert Check(vm, 4, c[4], Mop(vm, 4)) == None && Check(vm, 5, c[5], Mop(vm, 5)) == None;
  }

  lemma SumCompiled(vm: Vm)
    requires vm.code == SumCode()
    requires forall pc: nat | pc < 6 :: Reaches(vm, pc)
    requires Mop(vm, 2)[10] == Capability(Stack) && Mop(vm, 4)[0] == Scalar
    ensures Compiled(vm) == SumOps()
  {
    hide Mop, Reaches;
  }

  lemma SumRuns(env: Env, code: seq<Code>, m: Memory)
    requires WellFormed(env) && code == SumOps() && env.entry(2) != 0
    ensures CapRun(env, code, m, 6) == Returned(StackTop(env))
  {
    hide CapRun, CapStep, StackTop;
    var top := StackTop(env);
    var s0 := CapStart(env, m);
    StartAt(env, code, m);
    AluAt(env, code, m, 0, s0, Mov, 6, Imm(0), 0);
    var s1 := Wrote(s0, 1, 6, Int(0));
    BranchAt(env, code, m, 1, s1, Eq, 2, Imm(0), 3, 2);
    var s2 := s1.(pc := 2);
    CopyAt(env, code, m, 2, s2, 6, 10);
    var s3 := Wrote(s2, 3, 6, Cap(env.stack, top));
    AluAt(env, code, m, 3, s3, Mov, 0, Imm(0), 0);
    var s4 := Wrote(s3, 4, 0, Int(0));
    AluAt(env, code, m, 4, s4, Add, 0, FromReg(6), top);
    ReturnAt(env, code, m, 5, Wrote(s4, 5, 0, Int(top)));
  }

  /** R0 is a scalar on every path, and still the stack's address is returned. */
  lemma SumReturnsPointer(env: Env, vm: Vm, m: Memory)
    requires WellFormed(env) && vm.code == SumCode()
    ensures Accepted(vm) && NeverReturnsCapability(vm)
    ensures env.entry(2) != 0 ==> CapRun(env, Compiled(vm), m, 6) == Returned(StackTop(env))
  {
    SumEdges(vm);
    SumKinds(vm);
    SumAccepted(vm);
    SumCompiled(vm);
    SumExits(vm);
    hide *;
    if env.entry(2) != 0 {
      SumRuns(env, SumOps(), m);
    }
  }

  lemma SumExits(vm: Vm)
    requires vm.code == SumCode() && SumFlow(vm)
    ensures NeverReturnsCapability(vm)
  {
    forall p | IsPath(vm, p) && vm.code[End(p)] == Exit
      ensures UsesScalars(vm, p)
    {
      LastEdge(vm, p);
      LastEdge(vm, p.prefix);
      assert PathKinds(vm, p.prefix)[0] == Scalar;
    }
  }

  // ----- the guard -----

  /** Every kind the row allows in a register used as an integer is scalar. */
  predicate RowUsesScalars(insn: Insn, ms: MayMap) {
    forall r | r in IntegerUses(insn) :: ms[r] <= {Scalar}
  }

  lemma RowIsAllPaths(vm: Vm, pc: nat)
    requires Reaches(vm, pc)
    ensures RowUsesScalars(vm.code[pc], Join(vm, pc)) <==> forall p | PathTo(vm, p, pc) :: UsesScalars(vm, p)
  {
    var uses := IntegerUses(vm.code[pc]);
    if RowUsesScalars(vm.code[pc], Join(vm, pc)) {
      forall p, r | PathTo(vm, p, pc) && r in uses
        ensures PathKinds(vm, p)[r] == Scalar
      {
        assert Attains(vm, pc, r, PathKinds(vm, p)[r]);
        InJoin(vm, pc, r, PathKinds(vm, p)[r]);
      }
    }
    if forall p | PathTo(vm, p, pc) :: UsesScalars(vm, p) {
      forall r, k | r in uses && k in Join(vm, pc)[r]
        ensures k == Scalar
      {
        InJoin(vm, pc, r, k);
        var p :| PathTo(vm, p, pc) && PathKinds(vm, p)[r] == k;
        assert UsesScalars(vm, p);
      }
    }
  }

  ghost predicate RowsClean(vm: Vm, exits: bool, n: nat) {
    forall p | IsPath(vm, p) && End(p) < n && (vm.code[End(p)] == Exit) == exits :: UsesScalars(vm, p)
  }

  /**
   Decides, from the rows of the may-analysis, both halves of the guard: whether any path uses a
   capability kind as an integer before returning, and whether any returns one.
   */
  method KeepsAddresses(vm: Vm) returns (inside: bool, returned: bool)
    ensures inside <==> NoAddressInside(vm)
    ensures returned <==> NeverReturnsCapability(vm)
  {
    inside, returned := true, true;
    if vm.code == [] {
      return;
    }
    var st, _ := MayAnalyze(vm);
    for pc := 0 to |vm.code|
      invariant inside <==> RowsClean(vm, false, pc)
      invariant returned <==> RowsClean(vm, true, pc)
    {
      if st[pc].Some? && !RowUsesScalars(vm.code[pc], st[pc].value) {
        if vm.code[pc] == Exit {
          returned := false;
        } else {
          inside := false;
        }
      }
      NextRow(vm, pc);
    }
    AllRows(vm);
  }

  lemma NextRow(vm: Vm, pc: nat)
    requires pc < |vm.code|
    ensures var clean := Reaches(vm, pc) ==> RowUsesScalars(vm.code[pc], Join(vm, pc));
            forall exits :: RowsClean(vm, exits, pc + 1) <==>
              RowsClean(vm, exits, pc) && ((vm.code[pc] == Exit) == exits ==> clean)
  {
    if Reaches(vm, pc) {
      RowIsAllPaths(vm, pc);
    }
    forall p | IsPath(vm, p) && End(p) == pc
      ensures PathTo(vm, p, pc) && Reaches(vm, pc)
    {
      assert PathTo(vm, p, pc);
    }
  }

  lemma AllRows(vm: Vm)
    ensures RowsClean(vm, false, |vm.code|) <==> NoAddressInside(vm)
    ensures RowsClean(vm, true, |vm.code|) <==> NeverReturnsCapability(vm)
  {
  }

  /** The guard refuses both programs, each in one half. */
  lemma GuardRefusesBoth(vm: Vm)
    ensures vm.code == JoinCode() ==> NoAddressInside(vm) && !NeverReturnsCapability(vm)
    ensures vm.code == SumCode() ==> !NoAddressInside(vm) && NeverReturnsCapability(vm)
  {
    if vm.code == JoinCode() {
      JoinGuard(vm);
    }
    if vm.code == SumCode() {
      SumEdges(vm);
      SumExits(vm);
      SumGuard(vm);
    }
  }

  lemma JoinGuard(vm: Vm)
    requires vm.code == JoinCode()
    ensures NoAddressInside(vm) && !NeverReturnsCapability(vm)
  {
    JoinEdges(vm);
    forall p | IsPath(vm, p) && vm.code[End(p)] != Exit
      ensures UsesScalars(vm, p)
    {
      if End(p) == 1 {
        R2Scalar(vm, p);
      }
    }
    var q := Then(Then(Begin, 1), 2);
    var p := Then(q, 3);
    assert Edge(vm, 0, 1) && Edge(vm, 1, 2) && Edge(vm, 2, 3);
    Extended(vm, Begin, 1);
    Extended(vm, Then(Begin, 1), 2);
    Extended(vm, q, 3);
    assert PathKinds(vm, p)[0] == PathKinds(vm, q)[10] == Capability(Stack);
    assert !UsesScalars(vm, p);
  }

  lemma {:induction false} R2Scalar(vm: Vm, p: Path)
    requires IsPath(vm, p) && forall i | 0 <= i < |vm.code| :: OriginOf(vm.code[i], 2) == CopyOf(2)
    ensures PathKinds(vm, p)[2] == Scalar
  {
    if p.Then? {
      R2Scalar(vm, p.prefix);
    }
  }

  lemma SumGuard(vm: Vm)
    requires vm.code == SumCode() && SumFlow(vm)
    ensures !NoAddressInside(vm)
  {
    var q := Then(Then(Begin, 1), 2);
    var p := Then(Then(q, 3), 4);
    assert Edge(vm, 0, 1) && Edge(vm, 1, 2) && Edge(vm, 2, 3) && Edge(vm, 3, 4);
    Extended(vm, Begin, 1);
    Extended(vm, Then(Begin, 1), 2);
    Extended(vm, q, 3);
    Extended(vm, Then(q, 3), 4);
    assert PathKinds(vm, p)[6] == PathKinds(vm, Then(q, 3))[6] == PathKinds(vm, q)[10] == Capability(Stack);
    assert !UsesScalars(vm, p);
  }

  /** All paths to each instruction leave the same kinds, and jumps compare scalars. */
  ghost predicate KindsAgree(vm: Vm) {
    && (forall p | IsPath(vm, p) :: forall r: Reg :: Mop(vm, End(p))[r] == PathKinds(vm, p)[r])
    && forall p | IsPath(vm, p) && vm.code[End(p)].JumpIf? ::
         var JumpIf(_, l, rhs, _) := vm.code[End(p)];
         PathKinds(vm, p)[l] == Scalar && ScalarOperand(rhs, PathKinds(vm, p))
  }

  /** Where joins lose no kind the policy alone is the guard, branches and loops included. */
  lemma AgreeingKeepsAddresses(vm: Vm)
    requires Accepted(vm) && KindsAgree(vm)
    ensures NoAddressInside(vm) && NeverReturnsCapability(vm)
  {
    forall p | IsPath(vm, p)
      ensures UsesScalars(vm, p)
    {
      assert PathTo(vm, p, End(p)) && CheckAt(vm, End(p)) == None;
    }
  }

  /** On code without branches the policy alone is the guard. */
  lemma StraightKeepsAddresses(vm: Vm)
    requires StraightLine(vm.code) && Accepted(vm)
    ensures NoAddressInside(vm) && NeverReturnsCapability(vm)
  {
    forall p | IsPath(vm, p)
      ensures UsesScalars(vm, p)
    {
      var pc := End(p);
      PathLive(vm, p);
      assert PathTo(vm, p, pc) && CheckAt(vm, pc) == None;
      StraightMop(vm, pc);
      forall r | r in IntegerUses(vm.code[pc])
        ensures PathKinds(vm, p)[r] == Scalar
      {
        StraightPath(vm, p, r);
        assert pc + 1 < |vm.code| ==> Falls(vm.code, pc);
      }
    }
  }
}
