/**
 Working out the meet over all paths: on code without branches each register's kind is found
 by reading back to its last write; elsewhere from the edges into an instruction.
 */
module Straight {
  import opened Ebpf
  import opened Contract
  import opened Kinds

  /** Slot `i` falls through, or holds the first or second half of a two-slot constant. */
  predicate Falls(code: seq<Insn>, i: nat)
    requires i + 1 < |code|
  {
    if code[i].Const64? then code[i + 1].Unsupported?
    else if code[i].Unsupported? then i > 0 && code[i - 1].Const64?
    else code[i].Alu? || code[i].Load? || code[i].Store? || code[i].Call?
  }

  predicate StraightLine(code: seq<Insn>) {
    && |code| > 0 && code[|code| - 1] == Exit
    && forall i | 0 <= i < |code| - 1 :: Falls(code, i)
  }

  /** Not the second slot of a constant. */
  predicate Live(code: seq<Insn>, pc: nat)
    requires pc < |code|
  {
    !code[pc].Unsupported?
  }

  /** The instruction that runs before `pc`. */
  function Previous(code: seq<Insn>, pc: nat): (q: nat)
    requires 0 < pc <= |code|
    ensures q < pc
  {
    if pc >= 2 && code[pc - 2].Const64? then pc - 2 else pc - 1
  }

  function KindAt(code: seq<Insn>, pc: nat, r: Reg): Kind
    requires pc <= |code|
  {
    if pc == 0 then EntryKind(r)
    else match OriginOf(code[Previous(code, pc)], r)
      case Fixed(k) => k
      case CopyOf(q) => KindAt(code, Previous(code, pc), q)
  }

  function KindsAt(code: seq<Insn>, pc: nat): KindMap
    requires pc <= |code|
  {
    seq(REGS, r requires 0 <= r < REGS => KindAt(code, pc, r))
  }

  /** The only way into a live slot is from the slot before it. */
  lemma StraightStep(code: seq<Insn>, s: nat, t: nat)
    requires StraightLine(code) && s < |code| && Live(code, s) && t < |code|
    ensures t in Succs(code[s], s) <==> t > 0 && Live(code, t) && s == Previous(code, t)
  {
    assert s + 1 < |code| ==> Falls(code, s);
    assert s + 2 < |code| ==> Falls(code, s + 1);
    assert t >= 1 ==> Falls(code, t - 1);
    assert t + 1 < |code| ==> Falls(code, t);
    assert t >= 2 ==> Falls(code, t - 2);
  }

  lemma {:induction false} PathLive(vm: Vm, p: Path)
    requires StraightLine(vm.code) && IsPath(vm, p)
    ensures Live(vm.code, End(p))
    ensures p.Then? ==> p.pc > 0
  {
    match p
    case Begin => assert |vm.code| > 1 ==> Falls(vm.code, 0);
    case Then(q, t) =>
      PathLive(vm, q);
      StraightStep(vm.code, End(q), t);
  }

  lemma {:induction false} StraightPath(vm: Vm, p: Path, r: Reg)
    requires StraightLine(vm.code) && IsPath(vm, p)
    ensures PathKinds(vm, p)[r] == KindAt(vm.code, End(p), r)
  {
    match p
    case Begin =>
    case Then(q, t) =>
      var insn := vm.code[End(q)];
      PathLive(vm, p);
      PathLive(vm, q);
      StraightStep(vm.code, End(q), t);
      match OriginOf(insn, r)
      case Fixed(_) =>
      case CopyOf(s) => StraightPath(vm, q, s);
  }

  lemma PreviousLive(code: seq<Insn>, pc: nat)
    requires StraightLine(code) && 0 < pc < |code| && Live(code, pc)
    ensures Live(code, Previous(code, pc))
  {
    assert Falls(code, pc - 1);
    assert pc >= 2 ==> Falls(code, pc - 2);
  }

  lemma {:induction false} StraightReaches(vm: Vm, pc: nat) returns (p: Path)
    requires StraightLine(vm.code) && pc < |vm.code| && Live(vm.code, pc)
    ensures PathTo(vm, p, pc)
  {
    if pc == 0 {
      p := Begin;
    } else {
      PreviousLive(vm.code, pc);
      StraightStep(vm.code, Previous(vm.code, pc), pc);
      var q := StraightReaches(vm, Previous(vm.code, pc));
      p := Then(q, pc);
    }
  }

  lemma StraightMop(vm: Vm, pc: nat)
    requires StraightLine(vm.code) && pc < |vm.code| && Live(vm.code, pc)
    ensures Reaches(vm, pc) && Mop(vm, pc) == KindsAt(vm.code, pc)
  {
    var p := StraightReaches(vm, pc);
    forall r: Reg
      ensures Mop(vm, pc)[r] == KindAt(vm.code, pc, r)
    {
      forall q | PathTo(vm, q, pc)
        ensures PathKinds(vm, q)[r] == KindAt(vm.code, pc, r)
      {
        StraightPath(vm, q, r);
      }
      if KindAt(vm.code, pc, r).Capability? {
        MopAgrees(vm, pc, r, KindAt(vm.code, pc, r).source);
      } else if Mop(vm, pc)[r].Capability? {
        MopAgrees(vm, pc, r, Mop(vm, pc)[r].source);
      }
    }
  }

  function StraightCheck(vm: Vm, pc: nat): Option<Reason>
    requires pc < |vm.code|
  {
    Check(vm, pc, vm.code[pc], KindsAt(vm.code, pc))
  }

  lemma StraightAccepted(vm: Vm)
    requires StraightLine(vm.code)
    ensures Accepted(vm) <==> forall pc | 0 <= pc < |vm.code| && Live(vm.code, pc) :: StraightCheck(vm, pc) == None
  {
    forall pc | 0 <= pc < |vm.code| && Live(vm.code, pc)
      ensures Reaches(vm, pc) && CheckAt(vm, pc) == StraightCheck(vm, pc)
    {
      StraightMop(vm, pc);
    }
    forall pc | Reaches(vm, pc)
      ensures Live(vm.code, pc)
    {
      var p :| PathTo(vm, p, pc);
      PathLive(vm, p);
    }
  }

  // ----- a computed sweep -----

  /** The first live slot from `pc` on that fails its check, and why. */
  function FirstRefusal(vm: Vm, pc: nat): Option<(nat, Reason)>
    requires pc <= |vm.code|
    decreases |vm.code| - pc
  {
    if pc == |vm.code| then None
    else if Live(vm.code, pc) && StraightCheck(vm, pc).Some? then Some((pc, StraightCheck(vm, pc).value))
    else FirstRefusal(vm, pc + 1)
  }

  predicate FallsFrom(code: seq<Insn>, i: nat)
    requires i <= |code|
    decreases |code| - i
  {
    if i + 1 >= |code| then |code| > 0 && code[|code| - 1] == Exit else Falls(code, i) && FallsFrom(code, i + 1)
  }

  lemma {:induction false} FallsFromStraight(code: seq<Insn>, i: nat)
    requires i <= |code|
    ensures FallsFrom(code, i) <==>
              |code| > 0 && code[|code| - 1] == Exit && forall k | i <= k < |code| - 1 :: Falls(code, k)
    decreases |code| - i
  {
    hide Falls;
    if i + 1 < |code| {
      FallsFromStraight(code, i + 1);
    }
  }

  lemma {:induction false} FirstRefusalIs(vm: Vm, pc: nat)
    requires pc <= |vm.code|
    ensures match FirstRefusal(vm, pc)
            case None => forall q | pc <= q < |vm.code| && Live(vm.code, q) :: StraightCheck(vm, q) == None
            case Some((q, why)) =>
              && pc <= q < |vm.code| && Live(vm.code, q) && StraightCheck(vm, q) == Some(why)
              && forall k | pc <= k < q && Live(vm.code, k) :: StraightCheck(vm, k) == None
    decreases |vm.code| - pc
  {
    hide StraightCheck, Live;
    if pc < |vm.code| && !(Live(vm.code, pc) && StraightCheck(vm, pc).Some?) {
      FirstRefusalIs(vm, pc + 1);
    }
  }

  /** On code without branches one sweep gives the verdict, and the place and reason of a refusal. */
  lemma SweepDecides(vm: Vm)
    requires StraightLine(vm.code)
    ensures FirstRefusal(vm, 0) == None <==> Accepted(vm)
    ensures match FirstRefusal(vm, 0) case None => true case Some((pc, why)) => Refused(vm, pc, why)
  {
    hide StraightCheck, Accepted, Mop;
    FirstRefusalIs(vm, 0);
    StraightAccepted(vm);
    forall q: nat
      ensures q < |vm.code| && Live(vm.code, q) ==> Reaches(vm, q) && CheckAt(vm, q) == StraightCheck(vm, q)
      ensures Reaches(vm, q) ==> q < |vm.code| && Live(vm.code, q)
    {
      SlotChecked(vm, q);
    }
  }

  lemma SlotChecked(vm: Vm, q: nat)
    requires StraightLine(vm.code)
    ensures q < |vm.code| && Live(vm.code, q) ==> Reaches(vm, q) && CheckAt(vm, q) == StraightCheck(vm, q)
    ensures Reaches(vm, q) ==> q < |vm.code| && Live(vm.code, q)
  {
    if q < |vm.code| && Live(vm.code, q) {
      StraightMop(vm, q);
    }
    if Reaches(vm, q) {
      var p :| PathTo(vm, p, q);
      PathLive(vm, p);
    }
  }

  /** A register no instruction names as destination keeps its entry kind. */
  lemma {:induction false} NeverWritten(code: seq<Insn>, pc: nat, r: Reg)
    requires pc <= |code| && forall i | 0 <= i < pc :: OriginOf(code[i], r) == CopyOf(r)
    ensures KindAt(code, pc, r) == EntryKind(r)
  {
    if pc > 0 {
      NeverWritten(code, Previous(code, pc), r);
    }
  }

  /** A register only ever given scalars is a scalar. */
  lemma {:induction false} AlwaysScalar(code: seq<Insn>, pc: nat, r: Reg)
    requires pc <= |code| && EntryKind(r) == Scalar
    requires forall i | 0 <= i < pc :: OriginOf(code[i], r) in {CopyOf(r), Fixed(Scalar)}
    ensures KindAt(code, pc, r) == Scalar
  {
    if pc > 0 {
      AlwaysScalar(code, Previous(code, pc), r);
    }
  }

  // ----- edges into an instruction -----

  ghost predicate Edge(vm: Vm, s: nat, t: nat) {
    s < |vm.code| && t in Succs(vm.code[s], s)
  }

  lemma LastEdge(vm: Vm, p: Path)
    requires IsPath(vm, p) && p.Then?
    ensures IsPath(vm, p.prefix) && Edge(vm, End(p.prefix), End(p)) && End(p) < |vm.code|
  {
  }

  lemma Extended(vm: Vm, q: Path, t: nat)
    requires IsPath(vm, q) && t < |vm.code| && Edge(vm, End(q), t)
    ensures IsPath(vm, Then(q, t)) && PathKinds(vm, Then(q, t)) == Transfer(vm.code[End(q)], PathKinds(vm, q))
  {
  }

  /** With no edge into the entry, the entry kinds hold there. */
  lemma MopAtEntry(vm: Vm, r: Reg)
    requires |vm.code| > 0 && forall s: nat :: !Edge(vm, s, 0)
    ensures Reaches(vm, 0) && Mop(vm, 0)[r] == EntryKind(r)
  {
    assert PathTo(vm, Begin, 0);
    forall p | PathTo(vm, p, 0)
      ensures PathKinds(vm, p)[r] == EntryKind(r)
    {
      if p.Then? {
        assert !Edge(vm, End(p.prefix), 0);
      }
    }
    MopIsCommon(vm, 0, r, EntryKind(r));
  }

  /** If every path leaves the same kind, that is the meet. */
  lemma MopIsCommon(vm: Vm, pc: nat, r: Reg, k: Kind)
    requires Reaches(vm, pc) && OnAllPaths(vm, pc, r, k)
    ensures Mop(vm, pc)[r] == k
  {
    if k.Capability? {
      MopAgrees(vm, pc, r, k.source);
    } else if Mop(vm, pc)[r].Capability? {
      MopAgrees(vm, pc, r, Mop(vm, pc)[r].source);
    }
  }

  /** The meet at an instruction is the meet of what its incoming edges bring. */
  lemma MopFromEdges(vm: Vm, a: nat, b: nat, t: nat, r: Reg)
    requires Reaches(vm, a) && Reaches(vm, b) && 0 < t < |vm.code| && Edge(vm, a, t) && Edge(vm, b, t)
    requires forall s: nat | Edge(vm, s, t) :: s == a || s == b
    ensures Reaches(vm, t)
    ensures Mop(vm, t)[r] == MeetKind(KindFrom(OriginOf(vm.code[a], r), Mop(vm, a)),
                                      KindFrom(OriginOf(vm.code[b], r), Mop(vm, b)))
  {
    MopEdge(vm, a, t, r);
    MopEdge(vm, b, t, r);
    var ka, kb := KindFrom(OriginOf(vm.code[a], r), Mop(vm, a)), KindFrom(OriginOf(vm.code[b], r), Mop(vm, b));
    if ka == kb && ka.Capability? {
      forall p | PathTo(vm, p, t)
        ensures PathKinds(vm, p)[r] == ka
      {
        assert p.Then? && Edge(vm, End(p.prefix), t);
        EdgeBrings(vm, p.prefix, r, ka);
      }
      MopIsCommon(vm, t, r, ka);
    }
  }

  lemma EdgeBrings(vm: Vm, q: Path, r: Reg, k: Kind)
    requires IsPath(vm, q) && k.Capability?
    requires KindFrom(OriginOf(vm.code[End(q)], r), Mop(vm, End(q))) == k
    ensures KindFrom(OriginOf(vm.code[End(q)], r), PathKinds(vm, q)) == k
  {
    assert PathTo(vm, q, End(q));
    match OriginOf(vm.code[End(q)], r)
    case Fixed(_) =>
    case CopyOf(s) => MopAgrees(vm, End(q), s, k.source);
  }
}
