/**
 Compiled code against flat eBPF: the capability run of an accepted program is the flat run,
 step for step, up to the first access outside its base register's root, and traps there.
 */
module Refinement {
  import opened Words
  import opened Ebpf
  import opened Kinds
  import opened Codegen
  import opened CapMachine
  import opened Soundness

  datatype Access = Access(base: Reg, addr: u64, bytes: nat)

  /** The memory access the flat machine is about to make. */
  function AccessOf(vm: Vm, f: FlatState): Option<Access>
    requires |f.regs| == REGS
  {
    if f.pc >= |vm.code| then None
    else match vm.code[f.pc]
      case Load(w, _, _, b, off) => Some(Access(b, Wrap64(f.regs[b] + off), Bytes(w)))
      case Store(w, b, off, _) => Some(Access(b, Wrap64(f.regs[b] + off), Bytes(w)))
      case _ => None
  }

  /** The next access, if any, lies inside the root of its base register. */
  ghost predicate Permitted(env: Env, vm: Vm, f: FlatState)
    requires |f.regs| == REGS
  {
    match AccessOf(vm, f)
    case None => true
    case Some(a) =>
      var k := Mop(vm, f.pc)[a.base];
      k.Capability? && Inside(RootRegion(env, k.source), a.addr, a.bytes)
  }

  ghost predicate PermittedAt(env: Env, vm: Vm, m: Memory, j: nat)
    requires WellFormed(env)
  {
    FlatRun(env, vm, m, j).Running? ==> Permitted(env, vm, FlatRun(env, vm, m, j).state)
  }

  /** Same control point, memory and register bits; tags are the only difference. */
  ghost predicate Related(f: FlatState, s: CapState) {
    && |f.regs| == |s.regs| == REGS
    && f.pc == s.pc && f.mem == s.mem && f.calls == s.calls
    && forall r: Reg :: Bits(s.regs[r]) == f.regs[r]
  }

  ghost predicate Matches(c: Outcome<CapState>, o: Outcome<FlatState>) {
    match (c, o)
    case (Running(s), Running(f)) => Related(f, s)
    case (Returned(v), Returned(w)) => v == w
    case _ => false
  }

  lemma AluMatches(env: Env, code: seq<Code>, op: AluOp, d: Reg, src: Operand, ks: KindMap, f: FlatState, s: CapState)
    requires WellFormed(env) && Related(f, s) && s.pc < |code|
    requires code[s.pc] == LowerAlu(op, d, src, ks)
    ensures CapStep(env, code, s).Running?
    ensures Related(f.(pc := f.pc + 1, regs := f.regs[d := AluEval(op, f.regs[d], FlatOperand(f.regs, src))]),
                    CapStep(env, code, s).state)
  {
    assert OperandBits(s.regs, src) == FlatOperand(f.regs, src);
    match op { case Mov => case Add => case Sub => case _ => }
  }

  lemma StepMatches(env: Env, vm: Vm, f: FlatState, s: CapState)
    requires WellFormed(env) && Related(f, s) && s.pc < |vm.code|
    requires s.pc < |Compiled(vm)| && Compiled(vm)[s.pc] == Lower(vm.code[s.pc], s.pc, Mop(vm, s.pc))
    requires Check(vm, s.pc, vm.code[s.pc], Mop(vm, s.pc)) == None
    requires AccessOf(vm, f) == None
    ensures Matches(CapStep(env, Compiled(vm), s), FlatStep(env, vm, f))
  {
    NextInside(vm, s.pc, vm.code[s.pc], Mop(vm, s.pc));
    match vm.code[s.pc]
    case Alu(op, d, src) => AluMatches(env, Compiled(vm), op, d, src, Mop(vm, s.pc), f, s);
    case _ =>
  }

  lemma AccessMatches(env: Env, vm: Vm, f: FlatState, s: CapState)
    requires WellFormed(env) && Related(f, s) && s.pc < |vm.code|
    requires s.pc < |Compiled(vm)| && Compiled(vm)[s.pc] == Lower(vm.code[s.pc], s.pc, Mop(vm, s.pc))
    requires AccessOf(vm, f).Some?
    requires var k := Mop(vm, s.pc)[AccessOf(vm, f).value.base];
             k.Capability? && Holds(env, k, s.regs[AccessOf(vm, f).value.base])
    ensures Permitted(env, vm, f) ==> Matches(CapStep(env, Compiled(vm), s), FlatStep(env, vm, f))
    ensures !Permitted(env, vm, f) ==> CapStep(env, Compiled(vm), s) == Trapped(s.pc)
  {
  }

  /** One step of compiled code beside one flat step. */
  lemma StepRefines(env: Env, vm: Vm, m: Memory, n: nat, f: FlatState)
    requires WellFormed(env) && Accepted(vm)
    requires CapRun(env, Compiled(vm), m, n).Running?
    requires Related(f, CapRun(env, Compiled(vm), m, n).state)
    ensures Permitted(env, vm, f) ==>
              Matches(CapRun(env, Compiled(vm), m, n + 1), FlatStep(env, vm, f))
    ensures !Permitted(env, vm, f) ==> CapRun(env, Compiled(vm), m, n + 1) == Trapped(f.pc)
  {
    var s := CapRun(env, Compiled(vm), m, n).state;
    KindsSound(env, vm, m, n, 0);
    StepGoes(env, vm, s);
    match AccessOf(vm, f)
    case None => StepMatches(env, vm, f, s);
    case Some(a) =>
      KindsSound(env, vm, m, n, a.base);
      AccessMatches(env, vm, f, s);
  }

  /** While every access is inside its root, the capability run is the flat run. */
  lemma {:induction false} RunRefines(env: Env, vm: Vm, m: Memory, n: nat)
    requires WellFormed(env) && Accepted(vm)
    requires forall j: nat | j < n :: PermittedAt(env, vm, m, j)
    ensures Matches(CapRun(env, Compiled(vm), m, n), FlatRun(env, vm, m, n))
  {
    if n > 0 {
      RunRefines(env, vm, m, n - 1);
      assert PermittedAt(env, vm, m, n - 1);
      if FlatRun(env, vm, m, n - 1).Running? {
        StepRefines(env, vm, m, n - 1, FlatRun(env, vm, m, n - 1).state);
      }
    }
  }

  /** The flat run's first access outside its root is its `j`-th step. */
  ghost predicate FirstFault(env: Env, vm: Vm, m: Memory, j: nat)
    requires WellFormed(env)
  {
    !PermittedAt(env, vm, m, j) && forall i: nat | i < j :: PermittedAt(env, vm, m, i)
  }

  lemma FaultTrapsNow(env: Env, vm: Vm, m: Memory, j: nat)
    requires WellFormed(env) && Accepted(vm) && FirstFault(env, vm, m, j)
    ensures CapRun(env, Compiled(vm), m, j + 1) == Trapped(FlatRun(env, vm, m, j).state.pc)
  {
    RunRefines(env, vm, m, j);
    StepRefines(env, vm, m, j, FlatRun(env, vm, m, j).state);
  }

  /** The capability run traps there, and stays trapped. */
  lemma {:induction false} FaultTraps(env: Env, vm: Vm, m: Memory, j: nat, n: nat)
    requires WellFormed(env) && Accepted(vm) && FirstFault(env, vm, m, j) && j < n
    ensures CapRun(env, Compiled(vm), m, n) == Trapped(FlatRun(env, vm, m, j).state.pc)
  {
    if j + 1 == n {
      FaultTrapsNow(env, vm, m, j);
    } else {
      FaultTraps(env, vm, m, j, n - 1);
    }
  }

  lemma {:induction false} FaultExists(env: Env, vm: Vm, m: Memory, n: nat) returns (j: nat)
    requires WellFormed(env) && exists i: nat | i < n :: !PermittedAt(env, vm, m, i)
    ensures j < n && FirstFault(env, vm, m, j)
  {
    if exists i: nat | i < n - 1 :: !PermittedAt(env, vm, m, i) {
      j := FaultExists(env, vm, m, n - 1);
    } else {
      j := n - 1;
    }
  }

  /** Refinement, exactly: a trap is a flat access outside its root, and nothing else differs. */
  lemma TrapsExactlyAtFault(env: Env, vm: Vm, m: Memory, n: nat, at: nat)
    requires WellFormed(env) && Accepted(vm)
    ensures CapRun(env, Compiled(vm), m, n) == Trapped(at) <==>
            exists j: nat :: j < n && FirstFault(env, vm, m, j) && FlatRun(env, vm, m, j).state.pc == at
    ensures !CapRun(env, Compiled(vm), m, n).Trapped? ==>
              Matches(CapRun(env, Compiled(vm), m, n), FlatRun(env, vm, m, n))
  {
    if exists i: nat | i < n :: !PermittedAt(env, vm, m, i) {
      var j := FaultExists(env, vm, m, n);
      FaultTraps(env, vm, m, j, n);
      forall i: nat | i < n && FirstFault(env, vm, m, i)
        ensures i == j
      {
        assert PermittedAt(env, vm, m, i) || !(i < j);
        assert PermittedAt(env, vm, m, j) || !(j < i);
      }
    } else {
      RunRefines(env, vm, m, n);
    }
  }
}
