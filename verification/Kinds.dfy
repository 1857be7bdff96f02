/**
 The register-kind policy: how each instruction changes what is known of the registers,
 which accesses that knowledge admits, and its reference meaning as the meet over all
 control-flow paths.
 */
module Kinds {
  import opened Ebpf
  import opened Contract

  type KindMap = s: seq<Kind> | |s| == REGS witness seq(REGS, _ => Scalar)

  /** R1 is the context, R10 the stack, everything else is scalar. */
  function EntryKind(r: Reg): Kind {
    if r == CONTEXT_REG then Capability(Context)
    else if r == STACK_REG then Capability(Stack)
    else Scalar
  }

  function EntryKinds(): KindMap {
    seq(REGS, r requires 0 <= r < REGS => EntryKind(r))
  }

  /** Where the kind of a register after an instruction comes from. */
  datatype Origin = Fixed(kind: Kind) | CopyOf(reg: Reg)

  function WriteOrigin(d: Reg, r: Reg, o: Origin): Origin {
    if r == d then o else CopyOf(r)
  }

  function OriginOf(insn: Insn, r: Reg): Origin {
    match insn
    case Alu(Mov, d, FromReg(s)) => WriteOrigin(d, r, CopyOf(s))
    case Alu(Add, d, _) => CopyOf(r)
    case Alu(Sub, d, _) => CopyOf(r)
    case Alu(_, d, _) => WriteOrigin(d, r, Fixed(Scalar))
    case Const64(d, _) => WriteOrigin(d, r, Fixed(Scalar))
    case Load(_, _, d, _, _) => WriteOrigin(d, r, Fixed(Scalar))
    case Call(_) => if r == 0 then Fixed(Capability(MapValue)) else if r <= 5 then Fixed(Scalar) else CopyOf(r)
    case _ => CopyOf(r)
  }

  function KindFrom(o: Origin, ks: KindMap): Kind {
    match o case Fixed(k) => k case CopyOf(q) => ks[q]
  }

  function Transfer(insn: Insn, ks: KindMap): KindMap {
    seq(REGS, r requires 0 <= r < REGS => KindFrom(OriginOf(insn, r), ks))
  }

  /** At a join a register stays a capability only if both sides agree on it. */
  function MeetKind(a: Kind, b: Kind): Kind {
    if a == b then a else Scalar
  }

  function Meet(a: KindMap, b: KindMap): KindMap {
    seq(REGS, r requires 0 <= r < REGS => MeetKind(a[r], b[r]))
  }

  /** `a` claims no more authority than `b`. */
  predicate Below(a: Kind, b: Kind) {
    a == Scalar || a == b
  }

  // ----- what is rejected -----

  datatype Reason =
    | UnsupportedOpcode
    | UnknownHelper
    | UntrackedLoadBase
    | UntrackedStoreBase
    | StoresCapability
    | ReturnsCapability
    | CapabilityOperand
    | JumpsOutside

  predicate Writable(k: Kind) {
    k == Capability(Stack) || k == Capability(MapValue)
  }

  predicate ScalarOperand(src: Operand, ks: KindMap) {
    src.FromReg? ==> ks[src.reg] == Scalar
  }

  /** A capability can be copied, or moved by a scalar amount; nothing else computes on it. */
  predicate AluAdmitted(op: AluOp, dst: Kind, scalarSrc: bool) {
    match op
    case Mov => true
    case Add => scalarSrc
    case Sub => scalarSrc
    case _ => scalarSrc && dst == Scalar
  }

  predicate StaysInside(vm: Vm, pc: nat, insn: Insn) {
    forall t | t in Succs(insn, pc) :: 0 <= t < |vm.code|
  }

  /** Why `insn`, met with kinds `ks`, is not translated; None if it is. */
  function Check(vm: Vm, pc: nat, insn: Insn, ks: KindMap): Option<Reason> {
    if !StaysInside(vm, pc, insn) then Some(JumpsOutside)
    else match insn
      case Unsupported(_) => Some(UnsupportedOpcode)
      case Call(h) => if vm.mapHelper == Some(h) then None else Some(UnknownHelper)
      case Load(_, _, _, b, _) => if ks[b].Capability? then None else Some(UntrackedLoadBase)
      case Store(_, b, _, src) =>
        if !Writable(ks[b]) then Some(UntrackedStoreBase)
        else if !ScalarOperand(src, ks) then Some(StoresCapability)
        else None
      case Exit => if ks[0] == Scalar then None else Some(ReturnsCapability)
      case Alu(op, d, src) => if AluAdmitted(op, ks[d], ScalarOperand(src, ks)) then None else Some(CapabilityOperand)
      case _ => None
  }

  // ----- control-flow paths -----

  /** A walk through the code from instruction 0. */
  datatype Path = Begin | Then(prefix: Path, pc: nat)

  function End(p: Path): nat {
    match p case Begin => 0 case Then(_, pc) => pc
  }

  predicate IsPath(vm: Vm, p: Path)
    ensures IsPath(vm, p) ==> End(p) < |vm.code|
  {
    match p
    case Begin => |vm.code| > 0
    case Then(q, pc) => IsPath(vm, q) && pc < |vm.code| && pc in Succs(vm.code[End(q)], End(q))
  }

  /** The kinds one path leaves on reaching its end. */
  function PathKinds(vm: Vm, p: Path): KindMap
    requires IsPath(vm, p)
  {
    match p
    case Begin => EntryKinds()
    case Then(q, _) => Transfer(vm.code[End(q)], PathKinds(vm, q))
  }

  ghost predicate PathTo(vm: Vm, p: Path, pc: nat) {
    IsPath(vm, p) && End(p) == pc
  }

  ghost predicate Reaches(vm: Vm, pc: nat) {
    exists p :: PathTo(vm, p, pc)
  }

  ghost predicate OnAllPaths(vm: Vm, pc: nat, r: Reg, k: Kind) {
    forall p | PathTo(vm, p, pc) :: PathKinds(vm, p)[r] == k
  }

  /** Meet over all paths: a capability kind exactly when every path leaves that kind. */
  ghost function MopReg(vm: Vm, pc: nat, r: Reg): Kind {
    if exists c :: OnAllPaths(vm, pc, r, Capability(c)) then
      var c :| OnAllPaths(vm, pc, r, Capability(c)); Capability(c)
    else Scalar
  }

  ghost function Mop(vm: Vm, pc: nat): KindMap {
    seq(REGS, r requires 0 <= r < REGS => MopReg(vm, pc, r))
  }

  lemma MopAgrees(vm: Vm, pc: nat, r: Reg, c: CapSource)
    requires Reaches(vm, pc)
    ensures Mop(vm, pc)[r] == Capability(c) <==> OnAllPaths(vm, pc, r, Capability(c))
  {
    var p :| PathTo(vm, p, pc);
    if OnAllPaths(vm, pc, r, Capability(c)) {
      var d := MopReg(vm, pc, r).source;
      assert OnAllPaths(vm, pc, r, Capability(d));
      assert PathKinds(vm, p)[r] == Capability(c);
    }
  }

  /** The whole-program policy. */
  ghost predicate Accepted(vm: Vm) {
    && |vm.code| > 0
    && forall pc | Reaches(vm, pc) :: CheckAt(vm, pc) == None
  }

  ghost function CheckAt(vm: Vm, pc: nat): Option<Reason>
    requires Reaches(vm, pc)
  {
    Check(vm, pc, vm.code[pc], Mop(vm, pc))
  }

  /** Translation stops at `pc` for the reason `why`; what is reached before it passes. */
  ghost predicate Refused(vm: Vm, pc: nat, why: Reason) {
    && Reaches(vm, pc) && CheckAt(vm, pc) == Some(why)
    && forall q: nat | q < pc && Reaches(vm, q) :: CheckAt(vm, q) == None
  }

  /** What flows along an edge is above the meet at its target. */
  lemma MopEdge(vm: Vm, pc: nat, t: nat, r: Reg)
    requires Reaches(vm, pc) && t < |vm.code| && t in Succs(vm.code[pc], pc)
    ensures Reaches(vm, t)
    ensures Below(Mop(vm, t)[r], Transfer(vm.code[pc], Mop(vm, pc))[r])
  {
    var p :| PathTo(vm, p, pc);
    assert PathTo(vm, Then(p, t), t);
    if Mop(vm, t)[r].Capability? {
      var c := Mop(vm, t)[r].source;
      MopAgrees(vm, t, r, c);
      forall p | PathTo(vm, p, pc)
        ensures KindFrom(OriginOf(vm.code[pc], r), PathKinds(vm, p)) == Capability(c)
      {
        assert PathTo(vm, Then(p, t), t);
        assert PathKinds(vm, Then(p, t))[r] == Capability(c);
      }
      match OriginOf(vm.code[pc], r)
      case Fixed(_) => assert PathTo(vm, p, pc);
      case CopyOf(q) =>
        assert OnAllPaths(vm, pc, q, Capability(c));
        MopAgrees(vm, pc, q, c);
    }
  }

  /** All paths to `pc` leave the same capability kind in `r`. */
  ghost predicate Unanimous(vm: Vm, pc: nat, r: Reg) {
    exists c :: OnAllPaths(vm, pc, r, Capability(c))
  }

  lemma MopUnanimous(vm: Vm, pc: nat, r: Reg)
    requires Reaches(vm, pc)
    ensures Mop(vm, pc)[r].Capability? <==> Unanimous(vm, pc, r)
  {
    if Mop(vm, pc)[r].Capability? {
      MopAgrees(vm, pc, r, Mop(vm, pc)[r].source);
    }
  }

  /** EXIT is refused exactly when every path reaching it leaves one capability kind in R0. */
  lemma ExitRefused(vm: Vm, pc: nat)
    requires Reaches(vm, pc) && vm.code[pc] == Exit
    ensures CheckAt(vm, pc) == if Unanimous(vm, pc, 0) then Some(ReturnsCapability) else None
  {
    MopUnanimous(vm, pc, 0);
  }

  /** A load is admitted exactly when all paths leave one capability kind in its base. */
  lemma LoadAdmitted(vm: Vm, pc: nat)
    requires Reaches(vm, pc) && vm.code[pc].Load? && StaysInside(vm, pc, vm.code[pc])
    ensures CheckAt(vm, pc) == if Unanimous(vm, pc, vm.code[pc].base) then None else Some(UntrackedLoadBase)
  {
    MopUnanimous(vm, pc, vm.code[pc].base);
  }

  /**
   A store of any width is admitted exactly when all paths leave the stack in its base, or all
   leave a map value there, and its source is not one capability kind on all of them. The base
   is named before the source.
   */
  lemma StoreAdmitted(vm: Vm, pc: nat)
    requires Reaches(vm, pc) && vm.code[pc].Store? && StaysInside(vm, pc, vm.code[pc])
    ensures var Store(_, b, _, src) := vm.code[pc];
            var writable := OnAllPaths(vm, pc, b, Capability(Stack)) || OnAllPaths(vm, pc, b, Capability(MapValue));
            var leaks := src.FromReg? && Unanimous(vm, pc, src.reg);
            && (CheckAt(vm, pc) == None <==> writable && !leaks)
            && (CheckAt(vm, pc) == Some(UntrackedStoreBase) <==> !writable)
            && (CheckAt(vm, pc) == Some(StoresCapability) <==> writable && leaks)
  {
    var Store(_, b, _, src) := vm.code[pc];
    MopAgrees(vm, pc, b, Stack);
    MopAgrees(vm, pc, b, MapValue);
    if src.FromReg? {
      MopUnanimous(vm, pc, src.reg);
    }
    hide Mop, OnAllPaths, Unanimous;
  }

  /**
   A copy is always admitted, moving an address takes an amount that is not one capability kind
   on all paths, and any other operation takes no such register at all.
   */
  lemma AluAdmittedExactly(vm: Vm, pc: nat)
    requires Reaches(vm, pc) && vm.code[pc].Alu? && StaysInside(vm, pc, vm.code[pc])
    ensures var Alu(op, d, src) := vm.code[pc];
            var capSource := src.FromReg? && Unanimous(vm, pc, src.reg);
            CheckAt(vm, pc) ==
              if op == Mov || (!capSource && (op == Add || op == Sub || !Unanimous(vm, pc, d))) then None
              else Some(CapabilityOperand)
  {
    var Alu(op, d, src) := vm.code[pc];
    MopUnanimous(vm, pc, d);
    if src.FromReg? {
      MopUnanimous(vm, pc, src.reg);
    }
    hide Mop, Unanimous;
  }

  /** Calls, constants, jumps and unknown opcodes: no path matters. */
  lemma OthersAdmitted(vm: Vm, pc: nat)
    requires Reaches(vm, pc) && StaysInside(vm, pc, vm.code[pc])
    ensures match vm.code[pc]
            case Call(h) => CheckAt(vm, pc) == if vm.mapHelper == Some(h) then None else Some(UnknownHelper)
            case Unsupported(_) => CheckAt(vm, pc) == Some(UnsupportedOpcode)
            case Const64(_, _) => CheckAt(vm, pc) == None
            case Jump(_) => CheckAt(vm, pc) == None
            case JumpIf(_, _, _, _) => CheckAt(vm, pc) == None
            case _ => true
  {
  }

  /** Control may not leave the program: not by falling off its end, not by a jump. */
  lemma OutsideRefused(vm: Vm, pc: nat)
    requires Reaches(vm, pc)
    ensures CheckAt(vm, pc) == Some(JumpsOutside) <==>
            match vm.code[pc]
            case Exit => false
            case Unsupported(_) => false
            case Const64(_, _) => pc + 2 >= |vm.code|
            case Jump(off) => !(0 <= pc + 1 + off < |vm.code|)
            case JumpIf(_, _, _, off) => pc + 1 >= |vm.code| || !(0 <= pc + 1 + off < |vm.code|)
            case _ => pc + 1 >= |vm.code|
  {
    hide Mop;
    var insn := vm.code[pc];
    assert insn.Const64? ==> pc + 2 in Succs(insn, pc);
    assert insn.Jump? || insn.JumpIf? ==> pc + 1 + insn.off in Succs(insn, pc);
    assert !insn.Exit? && !insn.Unsupported? && !insn.Const64? && !insn.Jump? ==> pc + 1 in Succs(insn, pc);
  }

  /** Without a map helper no path ever produces a map-value kind. */
  lemma {:induction false} NoMapValue(vm: Vm, p: Path, r: Reg)
    requires Accepted(vm) && vm.mapHelper == None && IsPath(vm, p)
    ensures PathKinds(vm, p)[r] != Capability(MapValue)
  {
    match p
    case Begin =>
    case Then(q, _) =>
      var at := End(q);
      assert PathTo(vm, q, at);
      assert CheckAt(vm, at) == None;
      match OriginOf(vm.code[at], r)
      case Fixed(_) =>
      case CopyOf(s) => NoMapValue(vm, q, s);
  }
}
