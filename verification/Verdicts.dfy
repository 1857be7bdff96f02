/**
 The verdict on each program of the accept/reject suite: computed by one sweep for programs
 without branches, from the edges into the join for the two others.
 */
module Verdicts {
  import opened Ebpf
  import opened Contract
  import opened Kinds
  import opened Straight
  import opened Bytecode
  import opened Suite
  import Analysis

  // ----- programs with joins -----

  lemma BranchPreservesContextVerdict(vm: Vm)
    requires vm.code == Insns(BranchPreservesContext())
    ensures Accepted(vm)
  {
    PreservedEdges(vm);
    PreservedKinds(vm);
    PreservedChecks(vm);
  }

  lemma PreservedKinds(vm: Vm)
    requires vm.code == Insns(BranchPreservesContext())
    requires forall s: nat, t: nat :: Edge(vm, s, t) <==> (s < 5 && t == s + 1) || (s == 2 && t == 4)
    ensures Mop(vm, 4)[6] == Capability(Context) && Mop(vm, 5)[0] == Scalar
  {
    var c := vm.code;
    assert OriginOf(c[0], 6) == CopyOf(1) && OriginOf(c[1], 6) == OriginOf(c[2], 6) == OriginOf(c[3], 6) == CopyOf(6);
    assert OriginOf(c[4], 0) == Fixed(Scalar);
    MopAtEntry(vm, 1);
    MopFromEdges(vm, 0, 0, 1, 6);
    MopFromEdges(vm, 1, 1, 2, 6);
    MopFromEdges(vm, 2, 2, 3, 6);
    MopFromEdges(vm, 2, 3, 4, 6);
    MopFromEdges(vm, 4, 4, 5, 0);
  }

  lemma PreservedEdges(vm: Vm)
    requires vm.code == Insns(BranchPreservesContext())
    ensures forall s: nat, t: nat :: Edge(vm, s, t) <==> (s < 5 && t == s + 1) || (s == 2 && t == 4)
  {
    var c := vm.code;
    assert Succs(c[0], 0) == {1} && Succs(c[1], 1) == {2} && Succs(c[2], 2) == {3, 4};
    assert Succs(c[3], 3) == {4} && Succs(c[4], 4) == {5} && Succs(c[5], 5) == {};
  }

  lemma PreservedChecks(vm: Vm)
    requires vm.code == Insns(BranchPreservesContext())
    requires Mop(vm, 4)[6] == Capability(Context) && Mop(vm, 5)[0] == Scalar
    ensures Accepted(vm)
  {
    var c := vm.code;
    hide Mop;
    assert forall ks: KindMap :: Check(vm, 0, c[0], ks) == None && Check(vm, 1, c[1], ks) == None;
    assert forall ks: KindMap :: Check(vm, 2, c[2], ks) == None && Check(vm, 3, c[3], ks) == None;
    assert Check(vm, 4, c[4], Mop(vm, 4)) == None && Check(vm, 5, c[5], Mop(vm, 5)) == None;
  }

  lemma BranchJoinClobberedContextVerdict(vm: Vm)
    requires vm.code == Insns(BranchJoinClobberedContext())
    ensures Refused(vm, 5, UntrackedLoadBase)
  {
    hide Mop;
    ClobberedEdges(vm);
    ClobberedKinds(vm);
  }

  lemma ClobberedKinds(vm: Vm)
    requires vm.code == Insns(BranchJoinClobberedContext())
    requires forall s: nat, t: nat :: Edge(vm, s, t) <==> (s < 6 && t == s + 1) || (s == 2 && t == 5)
    ensures Reaches(vm, 5) && Mop(vm, 5)[6] == Scalar
  {
    var c := vm.code;
    assert OriginOf(c[0], 6) == CopyOf(1) && OriginOf(c[1], 6) == OriginOf(c[2], 6) == OriginOf(c[4], 6) == CopyOf(6);
    assert OriginOf(c[3], 6) == Fixed(Scalar);
    MopAtEntry(vm, 1);
    MopFromEdges(vm, 0, 0, 1, 6);
    MopFromEdges(vm, 1, 1, 2, 6);
    MopFromEdges(vm, 2, 2, 3, 6);
    MopFromEdges(vm, 3, 3, 4, 6);
    MopFromEdges(vm, 2, 4, 5, 6);
  }

  lemma ClobberedEdges(vm: Vm)
    requires vm.code == Insns(BranchJoinClobberedContext())
    ensures forall s: nat, t: nat :: Edge(vm, s, t) <==> (s < 6 && t == s + 1) || (s == 2 && t == 5)
  {
    var c := vm.code;
    assert Succs(c[0], 0) == {1} && Succs(c[1], 1) == {2} && Succs(c[2], 2) == {3, 5} && Succs(c[3], 3) == {4};
    assert Succs(c[4], 4) == {5} && Succs(c[5], 5) == {6} && Succs(c[6], 6) == {};
  }

  // ----- computed verdicts -----

  lemma ScalarCase()
    ensures Computes(Case(ScalarMovExit(), Accept))
  {
  }

  lemma ContextLoadCase()
    ensures Computes(Case(ContextLoad(), Accept))
  {
  }

  lemma ContextCases()
    ensures Computes(Case(ContextOobLoad(), Accept))
    ensures Computes(Case(ImmediateStackStore(), Accept))
  {
  }

  lemma AliasCase()
    ensures Computes(Case(ContextPtrAddLoad(), Accept))
  {
  }

  lemma AliasOobCase()
    ensures Computes(Case(ContextPtrAddOobLoad(), Accept))
  {
  }

  lemma UninitCase()
    ensures Computes(Case(UninitStackPtrAddLoad(), Accept))
  {
  }

  lemma StackCase()
    ensures Computes(Case(StackStoreLoad(), Accept))
  {
    assert LinesFrom(StackStoreLoad(), 0);
    assert FirstRefusal(Vm(Insns(StackStoreLoad()), None), 2) == None;
  }

  lemma ContextStoreCase()
    ensures Computes(Case(ContextStore(), Refuse(1, UntrackedStoreBase)))
  {
  }

  lemma CapabilityStoreCase()
    ensures Computes(Case(CapabilityStackStore(), Refuse(1, StoresCapability)))
  {
  }

  lemma ClobberedCase()
    ensures Computes(Case(ClobberedR1Load(), Refuse(1, UntrackedLoadBase)))
  {
  }

  lemma LeakCase()
    ensures Computes(Case(PointerLeak(), Refuse(2, ReturnsCapability)))
  {
  }

  /** A verdict put together from its parts. */
  lemma Parts(c: Case)
    requires LinesFrom(c.rows, 0) && StraightLine(Insns(c.rows)) && c.verdict == Accept
    requires FirstRefusal(Vm(Insns(c.rows), None), 0) == None
    ensures Computes(c)
  {
    hide LinesFrom, FirstRefusal, FallsFrom;
    FallsFromStraight(Insns(c.rows), 0);
  }

  // Longer programs: their lines are computed, their kinds read off instruction by instruction.

  lemma StackPtrAddStoreLoadKinds(c: seq<Insn>)
    requires c == Insns(StackPtrAddStoreLoad())
    ensures KindAt(c, 0, 10) == KindAt(c, 1, 2) == Capability(Stack)
    ensures KindAt(c, 2, 2) == KindAt(c, 3, 2) == KindAt(c, 4, 2) == Capability(Stack)
    ensures KindAt(c, 3, 0) == KindAt(c, 5, 0) == Scalar
  {
  }

  lemma StackPtrAddStoreLoadLines()
    ensures LinesFrom(StackPtrAddStoreLoad(), 0)
  {
  }

  lemma StackPtrAddStoreLoadSweep(vm: Vm)
    requires vm.code == Insns(StackPtrAddStoreLoad())
    ensures StraightLine(vm.code) && FirstRefusal(vm, 0) == None
  {
    hide KindAt, FirstRefusal;
    StackPtrAddStoreLoadKinds(vm.code);
    FirstRefusalIs(vm, 0);
  }

  lemma StackPtrAddStoreLoadCase()
    ensures Computes(Case(StackPtrAddStoreLoad(), Accept))
  {
    hide LinesFrom, FirstRefusal, StraightLine, Insns, Computes;
    StackPtrAddStoreLoadLines();
    StackPtrAddStoreLoadSweep(Vm(Insns(StackPtrAddStoreLoad()), None));
    Parts(Case(StackPtrAddStoreLoad(), Accept));
  }

  lemma StackRegIndexStoreLoadKinds(c: seq<Insn>)
    requires c == Insns(StackRegIndexStoreLoad())
    ensures KindAt(c, 0, 10) == Capability(Stack)
    ensures KindAt(c, 1, 2) == Scalar && KindAt(c, 1, 10) == Capability(Stack)
    ensures KindAt(c, 2, 2) == Scalar && KindAt(c, 2, 4) == Scalar && KindAt(c, 2, 10) == Capability(Stack)
    ensures KindAt(c, 3, 2) == Scalar && KindAt(c, 3, 4) == Scalar && KindAt(c, 3, 5) == Capability(Stack)
    ensures KindAt(c, 4, 2) == Scalar && KindAt(c, 4, 4) == Scalar && KindAt(c, 4, 5) == Capability(Stack)
    ensures KindAt(c, 5, 4) == Scalar && KindAt(c, 5, 5) == Capability(Stack)
    ensures KindAt(c, 6, 5) == Capability(Stack)
    ensures KindAt(c, 7, 0) == Scalar
  {
  }

  lemma StackRegIndexStoreLoadLines()
    ensures LinesFrom(StackRegIndexStoreLoad(), 0)
  {
  }

  lemma StackRegIndexStoreLoadSweep(vm: Vm)
    requires vm.code == Insns(StackRegIndexStoreLoad())
    ensures StraightLine(vm.code) && FirstRefusal(vm, 0) == None
  {
    hide KindAt, FirstRefusal;
    StackRegIndexStoreLoadKinds(vm.code);
    FirstRefusalIs(vm, 0);
  }

  lemma StackRegIndexStoreLoadCase()
    ensures Computes(Case(StackRegIndexStoreLoad(), Accept))
  {
    hide LinesFrom, FirstRefusal, StraightLine, Insns, Computes;
    StackRegIndexStoreLoadLines();
    StackRegIndexStoreLoadSweep(Vm(Insns(StackRegIndexStoreLoad()), None));
    Parts(Case(StackRegIndexStoreLoad(), Accept));
  }

  lemma StackRegSubStoreLoadKinds(c: seq<Insn>)
    requires c == Insns(StackRegSubStoreLoad())
    ensures KindAt(c, 0, 10) == Capability(Stack)
    ensures KindAt(c, 1, 0) == Scalar && KindAt(c, 1, 10) == Capability(Stack)
    ensures KindAt(c, 2, 0) == Scalar && KindAt(c, 2, 2) == Scalar && KindAt(c, 2, 10) == Capability(Stack)
    ensures KindAt(c, 3, 0) == Scalar && KindAt(c, 3, 2) == Scalar && KindAt(c, 3, 5) == Capability(Stack)
    ensures KindAt(c, 4, 0) == Scalar && KindAt(c, 4, 5) == Capability(Stack)
    ensures KindAt(c, 5, 5) == Capability(Stack)
    ensures KindAt(c, 6, 0) == Scalar
  {
  }

  lemma StackRegSubStoreLoadLines()
    ensures LinesFrom(StackRegSubStoreLoad(), 0)
  {
  }

  lemma StackRegSubStoreLoadSweep(vm: Vm)
    requires vm.code == Insns(StackRegSubStoreLoad())
    ensures StraightLine(vm.code) && FirstRefusal(vm, 0) == None
  {
    hide KindAt, FirstRefusal;
    StackRegSubStoreLoadKinds(vm.code);
    FirstRefusalIs(vm, 0);
  }

  lemma StackRegSubStoreLoadCase()
    ensures Computes(Case(StackRegSubStoreLoad(), Accept))
  {
    hide LinesFrom, FirstRefusal, StraightLine, Insns, Computes;
    StackRegSubStoreLoadLines();
    StackRegSubStoreLoadSweep(Vm(Insns(StackRegSubStoreLoad()), None));
    Parts(Case(StackRegSubStoreLoad(), Accept));
  }

  lemma ContextPlainLoadsLines()
    ensures LinesFrom(ContextPlainLoads(), 0)
  {
  }

  lemma ContextSignedLoadsLines()
    ensures LinesFrom(ContextSignedLoads(), 0)
  {
  }

  lemma ContextWidthLoadsLines()
    ensures LinesFrom(ContextWidthLoads(), 0)
  {
    hide LinesFrom;
    ContextPlainLoadsLines();
    ContextSignedLoadsLines();
    LinesOfHalves(ContextPlainLoads(), ContextSignedLoads());
  }

  lemma ContextWidthLoadsSweep(vm: Vm)
    requires vm.code == Insns(ContextWidthLoads())
    ensures StraightLine(vm.code) && FirstRefusal(vm, 0) == None
  {
    hide KindAt, FirstRefusal;
    forall pc: nat | pc < |vm.code|
      ensures KindAt(vm.code, pc, 1) == EntryKind(1) && KindAt(vm.code, pc, 0) == Scalar
    {
      NeverWritten(vm.code, pc, 1);
      AlwaysScalar(vm.code, pc, 0);
    }
    FirstRefusalIs(vm, 0);
  }

  lemma ContextWidthLoadsCase()
    ensures Computes(Case(ContextWidthLoads(), Accept))
  {
    hide LinesFrom, FirstRefusal, StraightLine, Insns, Computes;
    ContextWidthLoadsLines();
    ContextWidthLoadsSweep(Vm(Insns(ContextWidthLoads()), None));
    Parts(Case(ContextWidthLoads(), Accept));
  }

  lemma StackPlainAccessesLines()
    ensures LinesFrom(StackPlainAccesses(), 0)
  {
  }

  lemma StackSignedAccessesLines()
    ensures LinesFrom(StackSignedAccesses(), 0)
  {
  }

  lemma StackWidthStoreLoadsLines()
    ensures LinesFrom(StackWidthStoreLoads(), 0)
  {
    hide LinesFrom;
    StackPlainAccessesLines();
    StackSignedAccessesLines();
    LinesOfHalves(StackPlainAccesses(), StackSignedAccesses());
  }

  lemma StackWidthStoreLoadsSweep(vm: Vm)
    requires vm.code == Insns(StackWidthStoreLoads())
    ensures StraightLine(vm.code) && FirstRefusal(vm, 0) == None
  {
    hide KindAt, FirstRefusal;
    forall pc: nat | pc < |vm.code|
      ensures KindAt(vm.code, pc, 10) == EntryKind(10) && KindAt(vm.code, pc, 0) == Scalar
    {
      NeverWritten(vm.code, pc, 10);
      AlwaysScalar(vm.code, pc, 0);
    }
    FirstRefusalIs(vm, 0);
  }

  lemma StackWidthStoreLoadsCase()
    ensures Computes(Case(StackWidthStoreLoads(), Accept))
  {
    hide LinesFrom, FirstRefusal, StraightLine, Insns, Computes;
    StackWidthStoreLoadsLines();
    StackWidthStoreLoadsSweep(Vm(Insns(StackWidthStoreLoads()), None));
    Parts(Case(StackWidthStoreLoads(), Accept));
  }

  lemma JoinLines()
    ensures LinesFrom(BranchPreservesContext(), 0) && LinesFrom(BranchJoinClobberedContext(), 0)
  {
  }

  lemma JoinCases()
    ensures Holds(Cases()[6]) && Holds(Cases()[17])
  {
    hide LinesFrom, Line, Refused, Accepted;
    JoinLines();
    LinesFromList(BranchPreservesContext(), 0);
    LinesFromList(BranchJoinClobberedContext(), 0);
    BranchPreservesContextVerdict(Vm(Insns(BranchPreservesContext()), None));
    BranchJoinClobberedContextVerdict(Vm(Insns(BranchJoinClobberedContext()), None));
  }

  /** Every program of the suite decodes as listed and meets its verdict. */
  lemma CaseHolds(i: nat)
    requires i < |Cases()|
    ensures Lists(Cases()[i].rows) && Meets(Vm(Insns(Cases()[i].rows), None), Cases()[i].verdict)
  {
    hide Computes, Meets, Lists, StackWidthStoreLoads;
    match i
    case 6 => JoinCases();
    case 17 => JoinCases();
    case _ => ComputedCase(i); ComputedHolds(Cases()[i]);
  }

  lemma ComputedCase(i: nat)
    requires i < |Cases()| && i != 6 && i != 17
    ensures Computes(Cases()[i])
  {
    hide Computes;
    ScalarCase();
    ContextLoadCase();
    ContextCases();
    AliasCase();
    AliasOobCase();
    UninitCase();
    StackCase();
    StackPtrAddStoreLoadCase();
    StackRegIndexStoreLoadCase();
    StackRegSubStoreLoadCase();
    ContextWidthLoadsCase();
    StackWidthStoreLoadsCase();
    ContextStoreCase();
    CapabilityStoreCase();
    ClobberedCase();
    LeakCase();
  }

  predicate Expected(r: Analysis.Translation, v: Verdict) {
    match v
    case Accept => r.Emitted?
    case Refuse(pc, why) => r == Analysis.Rejected(pc, why)
  }

  /** Load every program from its bytes, translate it, count unexpected verdicts and reasons: none. */
  method TranslateSuite() returns (failures: nat)
    ensures failures == 0
  {
    hide Cases, LoadCode, Assemble, Raws, Insns, Lists;
    failures := 0;
    var cases := Cases();
    for i := 0 to |cases|
      invariant failures == 0
    {
      CaseHolds(i);
      ListsLoad(cases[i].rows);
      var r := Analysis.Translate(Vm(LoadCode(Assemble(Raws(cases[i].rows))), None));
      var missed := if Expected(r, cases[i].verdict) then 0 else 1;
      failures := failures + missed;
    }
  }
}
