/**
 Soundness of the kind analysis over whole runs, and refinement of the flat machine.
 */
module Soundness {
  import opened Ebpf
  import opened Contract
  import opened Kinds
  import opened Codegen
  import opened CapMachine

  function RootRegion(env: Env, c: CapSource): Region {
    match c
    case Context => env.ctx
    case Stack => env.stack
    case MapValue => env.mapValue
    case _ => Region(0, 0)
  }

  // ----- the authority one executed path leaves, as the emitted code moves it -----

  function CodeTag(op: Code, tags: KindMap, r: Reg): Kind {
    match op
    case XAlu(_, d, _) => if r == d then Scalar else tags[r]
    case XConst(d, _) => if r == d then Scalar else tags[r]
    case CMov(d, from) => if r == d then tags[from] else tags[r]
    case CLoad(_, _, d, _, _) => if r == d then Scalar else tags[r]
    case CallMap => if r == 0 then Capability(MapValue) else if r <= 5 then Scalar else tags[r]
    case _ => tags[r]
  }

  function CodeTags(op: Code, tags: KindMap): KindMap {
    seq(REGS, r requires 0 <= r < REGS => CodeTag(op, tags, r))
  }

  ghost function PathTags(vm: Vm, p: Path): KindMap
    requires IsPath(vm, p)
  {
    match p
    case Begin => EntryKinds()
    case Then(q, _) => CodeTags(Lower(vm.code[End(q)], End(q), Mop(vm, End(q))), PathTags(vm, q))
  }

  /** The emitted code never holds more authority than its path's kinds... */
  lemma {:induction false} TagsBelowPath(vm: Vm, p: Path, r: Reg)
    requires IsPath(vm, p)
    ensures Below(PathTags(vm, p)[r], PathKinds(vm, p)[r])
  {
    match p
    case Begin =>
    case Then(q, _) =>
      TagsBelowPath(vm, q, r);
      match OriginOf(vm.code[End(q)], r)
      case Fixed(_) =>
      case CopyOf(s) => TagsBelowPath(vm, q, s);
  }

  /** One instruction: emission keeps every authority its input kinds promise. */
  lemma LowerKeeps(insn: Insn, pc: nat, ks: KindMap, tags: KindMap, r: Reg)
    requires forall q: Reg :: Below(ks[q], tags[q])
    ensures Below(KindFrom(OriginOf(insn, r), ks), CodeTag(Lower(insn, pc, ks), tags, r))
  {
    assert Below(ks[r], tags[r]);
    match insn
    case Alu(op, d, src) =>
      assert Below(ks[d], tags[d]);
      assert src.FromReg? ==> Below(ks[src.reg], tags[src.reg]);
      match op { case Mov => case Add => case Sub => case _ => }
    case _ =>
  }

  /** ...and never less than the analysis promises. */
  lemma {:induction false} MopBelowTags(vm: Vm, p: Path, r: Reg)
    requires IsPath(vm, p)
    ensures Below(Mop(vm, End(p))[r], PathTags(vm, p)[r])
  {
    assert PathTo(vm, p, End(p));
    match p
    case Begin =>
      if Mop(vm, 0)[r].Capability? {
        MopAgrees(vm, 0, r, Mop(vm, 0)[r].source);
        assert PathKinds(vm, Begin)[r] == Mop(vm, 0)[r];
      }
    case Then(q, t) =>
      assert PathTo(vm, q, End(q));
      var at := End(q);
      MopEdge(vm, at, t, r);
      forall s: Reg
        ensures Below(Mop(vm, at)[s], PathTags(vm, q)[s])
      {
        MopBelowTags(vm, q, s);
      }
      LowerKeeps(vm.code[at], at, Mop(vm, at), PathTags(vm, q), r);
  }

  // ----- runs of compiled code follow paths -----

  /** The instructions a run has gone through. */
  ghost function Trace(env: Env, code: seq<Code>, m: Memory, n: nat): Path
    requires WellFormed(env)
  {
    if n == 0 then Begin
    else match CapRun(env, code, m, n)
      case Running(s) => Then(Trace(env, code, m, n - 1), s.pc)
      case _ => Trace(env, code, m, n - 1)
  }

  /** `v` is tagged exactly if `k` says so, and then with exactly that root's bounds. */
  ghost predicate Holds(env: Env, k: Kind, v: Value) {
    match k
    case Scalar => v.Int?
    case Capability(c) => v.Cap? && v.region == RootRegion(env, c)
  }

  ghost predicate AllHold(env: Env, ks: KindMap, regs: seq<Value>)
    requires |regs| == REGS
  {
    forall r: Reg :: Holds(env, ks[r], regs[r])
  }

  /** An admitted instruction stays in the program wherever it goes. */
  lemma NextInside(vm: Vm, pc: nat, insn: Insn, ks: KindMap)
    requires Check(vm, pc, insn, ks) == None
    ensures insn.Const64? ==> pc + 2 < |vm.code|
    ensures insn.Jump? || insn.JumpIf? ==> 0 <= pc + 1 + insn.off < |vm.code|
    ensures !insn.Const64? && !insn.Jump? && !insn.Exit? ==> pc + 1 < |vm.code|
  {
    assert insn.Const64? ==> pc + 2 in Succs(insn, pc);
    assert insn.Jump? || insn.JumpIf? ==> pc + 1 + insn.off in Succs(insn, pc);
    assert !insn.Unsupported?;
    assert !insn.Const64? && !insn.Jump? && !insn.Exit? ==> pc + 1 in Succs(insn, pc);
  }

  /** Whatever code runs, an operation moves tags and bounds exactly as `CodeTags` says. */
  lemma StepTags(env: Env, code: seq<Code>, s: CapState, tags: KindMap, r: Reg)
    requires WellFormed(env) && |s.regs| == REGS && s.pc < |code|
    requires AllHold(env, tags, s.regs)
    requires CapStep(env, code, s).Running?
    ensures Holds(env, CodeTag(code[s.pc], tags, r), CapStep(env, code, s).state.regs[r])
  {
    assert Holds(env, tags[r], s.regs[r]);
    match code[s.pc]
    case CMov(d, from) => assert Holds(env, tags[from], s.regs[from]);
    case CMove(d, src, down) => assert Holds(env, tags[d], s.regs[d]);
    case _ =>
  }

  /** Compiled code goes where the program's control flow goes. */
  lemma StepGoes(env: Env, vm: Vm, s: CapState)
    requires WellFormed(env) && Accepted(vm) && |s.regs| == REGS && Reaches(vm, s.pc)
    ensures s.pc < |vm.code| && Compiled(vm)[s.pc] == Lower(vm.code[s.pc], s.pc, Mop(vm, s.pc))
    ensures var o := CapStep(env, Compiled(vm), s);
            !o.Stuck? && (o.Running? ==> o.state.pc < |vm.code| && o.state.pc in Succs(vm.code[s.pc], s.pc))
  {
    assert CheckAt(vm, s.pc) == None;
    NextInside(vm, s.pc, vm.code[s.pc], Mop(vm, s.pc));
  }

  lemma EntryHolds(env: Env, m: Memory)
    requires WellFormed(env)
    ensures AllHold(env, EntryKinds(), CapStart(env, m).regs)
  {
    forall r: Reg
      ensures Holds(env, EntryKinds()[r], CapStart(env, m).regs[r])
    {
    }
  }

  /**
   Soundness. A run of an accepted program is never stuck, follows a control-flow path, and
   every register is a tagged capability exactly when that path's tags say so, with exactly
   that root's bounds; in particular wherever the analysis calls it a capability.
   */
  lemma {:induction false} RunSound(env: Env, vm: Vm, m: Memory, n: nat)
    requires WellFormed(env) && Accepted(vm)
    ensures !CapRun(env, Compiled(vm), m, n).Stuck?
    ensures CapRun(env, Compiled(vm), m, n).Running? ==>
              var s := CapRun(env, Compiled(vm), m, n).state;
              var p := Trace(env, Compiled(vm), m, n);
              && PathTo(vm, p, s.pc)
              && AllHold(env, PathTags(vm, p), s.regs)
  {
    var code := Compiled(vm);
    if n == 0 {
      EntryHolds(env, m);
    } else {
      RunSound(env, vm, m, n - 1);
      if CapRun(env, code, m, n - 1).Running? && CapRun(env, code, m, n).Running? {
        var s, s' := CapRun(env, code, m, n - 1).state, CapRun(env, code, m, n).state;
        var p := Trace(env, code, m, n - 1);
        StepGoes(env, vm, s);
        assert PathTo(vm, Then(p, s'.pc), s'.pc);
        forall r: Reg
          ensures Holds(env, PathTags(vm, Then(p, s'.pc))[r], s'.regs[r])
        {
          StepTags(env, code, s, PathTags(vm, p), r);
        }
      } else if CapRun(env, code, m, n - 1).Running? {
        StepGoes(env, vm, CapRun(env, code, m, n - 1).state);
      }
    }
  }

  /** What the analysis calls a root's capability is tagged and has exactly that root's bounds. */
  lemma KindsSound(env: Env, vm: Vm, m: Memory, n: nat, r: Reg)
    requires WellFormed(env) && Accepted(vm)
    requires CapRun(env, Compiled(vm), m, n).Running?
    ensures var s := CapRun(env, Compiled(vm), m, n).state;
            && Reaches(vm, s.pc) && CheckAt(vm, s.pc) == None
            && match Mop(vm, s.pc)[r] {
                 case Scalar => true
                 case Capability(c) => s.regs[r].Cap? && s.regs[r].region == RootRegion(env, c)
               }
  {
    RunSound(env, vm, m, n);
    var p := Trace(env, Compiled(vm), m, n);
    MopBelowTags(vm, p, r);
    var s := CapRun(env, Compiled(vm), m, n).state;
    assert Holds(env, PathTags(vm, p)[r], s.regs[r]);
    assert Reaches(vm, s.pc);
  }
}
