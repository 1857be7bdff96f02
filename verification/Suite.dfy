/**
 The accept/reject suite of the CHERI translator and the helper-map programs: their bytes,
 what they load as, and the verdict expected of each.
 */
module Suite {
  import opened Words
  import opened Ebpf
  import opened Contract
  import opened Kinds
  import opened Straight
  import opened Bytecode

  /** One INSN line of a test program, and the instruction it loads as. */
  datatype Row = Row(raw: Raw, insn: Insn)

  function R(op: u8, dst: nat, src: nat, off: int, imm: int, insn: Insn): Row {
    Row(Raw(op, dst, src, off, imm), insn)
  }

  function Raws(t: seq<Row>): seq<Raw> {
    seq(|t|, i requires 0 <= i < |t| => t[i].raw)
  }

  function Insns(t: seq<Row>): seq<Insn> {
    seq(|t|, i requires 0 <= i < |t| => t[i].insn)
  }

  predicate Line(r: Row) {
    InRange(r.raw) && r.raw.op != LDDW && InsnOf(r.raw, None) == r.insn
  }

  ghost predicate Lists(t: seq<Row>) {
    forall i | 0 <= i < |t| :: Line(t[i])
  }

  lemma NextIrrelevant(r: Row, next: Option<Raw>)
    requires Line(r)
    ensures InRange(r.raw) && InsnOf(r.raw, next) == r.insn
  {
  }

  lemma LinesList(t: seq<Row>, raws: seq<Raw>)
    requires Lists(t) && raws == Raws(t)
    ensures forall i | 0 <= i < |raws| :: InRange(raws[i])
    ensures Listing(raws) == Insns(t)
  {
    hide InsnOf, InRange;
    forall i | 0 <= i < |raws|
      ensures InRange(raws[i]) && forall next :: InsnOf(raws[i], next) == t[i].insn
    {
      forall next ensures InRange(raws[i]) && InsnOf(raws[i], next) == t[i].insn {
        NextIrrelevant(t[i], next);
      }
    }
  }

  /** The bytes of a table load as its instructions. */
  lemma ListsLoad(t: seq<Row>)
    requires Lists(t)
    ensures LoadCode(Assemble(Raws(t))) == Insns(t)
  {
    LinesList(t, Raws(t));
    LoadAssembled(Raws(t));
  }

  predicate LinesFrom(t: seq<Row>, i: nat)
    requires i <= |t|
    decreases |t| - i
  {
    i == |t| || (Line(t[i]) && LinesFrom(t, i + 1))
  }

  lemma {:induction false} LinesFromList(t: seq<Row>, i: nat)
    requires i <= |t|
    ensures LinesFrom(t, i) <==> forall k | i <= k < |t| :: Line(t[k])
    decreases |t| - i
  {
    hide Line;
    if i < |t| {
      LinesFromList(t, i + 1);
    }
  }

  /** The lines of a table are lines when those of its halves are. */
  lemma LinesOfHalves(a: seq<Row>, b: seq<Row>)
    requires LinesFrom(a, 0) && LinesFrom(b, 0)
    ensures LinesFrom(a + b, 0)
  {
    hide Line, LinesFrom;
    LinesFromList(a, 0);
    LinesFromList(b, 0);
    LinesFromList(a + b, 0);
  }

  function ScalarMovExit(): seq<Row> {
    [R(0xb7, 0, 0, 0, 42, Alu(Mov, 0, Imm(42))),
     R(0x95, 0, 0, 0, 0, Exit)]
  }

  function ContextLoad(): seq<Row> {
    [R(0x79, 0, 1, 0, 0, Load(Double, false, 0, 1, 0)),
     R(0x95, 0, 0, 0, 0, Exit)]
  }

  function ContextPlainLoads(): seq<Row> {
    [R(0x71, 0, 1, 8, 0, Load(Byte, false, 0, 1, 8)),
     R(0x69, 0, 1, 8, 0, Load(Half, false, 0, 1, 8)),
     R(0x61, 0, 1, 8, 0, Load(Word, false, 0, 1, 8)),
     R(0x79, 0, 1, 8, 0, Load(Double, false, 0, 1, 8))]
  }

  function ContextSignedLoads(): seq<Row> {
    [R(0x91, 0, 1, 8, 0, Load(Byte, true, 0, 1, 8)),
     R(0x89, 0, 1, 8, 0, Load(Half, true, 0, 1, 8)),
     R(0x81, 0, 1, 8, 0, Load(Word, true, 0, 1, 8)),
     R(0x95, 0, 0, 0, 0, Exit)]
  }

  function ContextWidthLoads(): seq<Row> {
    ContextPlainLoads() + ContextSignedLoads()
  }

  function ContextOobLoad(): seq<Row> {
    [R(0x79, 0, 1, 4096, 0, Load(Double, false, 0, 1, 4096)),
     R(0x95, 0, 0, 0, 0, Exit)]
  }

  function ContextPtrAddLoad(): seq<Row> {
    [R(0xbf, 6, 1, 0, 0, Alu(Mov, 6, FromReg(1))),
     R(0x7, 6, 0, 0, 8, Alu(Add, 6, Imm(8))),
     R(0x79, 0, 6, 0, 0, Load(Double, false, 0, 6, 0)),
     R(0x95, 0, 0, 0, 0, Exit)]
  }

  function ContextPtrAddOobLoad(): seq<Row> {
    [R(0xbf, 6, 1, 0, 0, Alu(Mov, 6, FromReg(1))),
     R(0x7, 6, 0, 0, 0x1000, Alu(Add, 6, Imm(4096))),
     R(0x79, 0, 6, 0, 0, Load(Double, false, 0, 6, 0)),
     R(0x95, 0, 0, 0, 0, Exit)]
  }

  function BranchPreservesContext(): seq<Row> {
    [R(0xbf, 6, 1, 0, 0, Alu(Mov, 6, FromReg(1))),
     R(0xb7, 0, 0, 0, 0, Alu(Mov, 0, Imm(0))),
     R(0x15, 0, 0, 1, 0, JumpIf(Eq, 0, Imm(0), 1)),
     R(0xb7, 0, 0, 0, 1, Alu(Mov, 0, Imm(1))),
     R(0x79, 0, 6, 8, 0, Load(Double, false, 0, 6, 8)),
     R(0x95, 0, 0, 0, 0, Exit)]
  }

  function StackStoreLoad(): seq<Row> {
    [R(0xb7, 0, 0, 0, 42, Alu(Mov, 0, Imm(42))),
     R(0x7b, 10, 0, -8, 0, Store(Double, 10, -8, FromReg(0))),
     R(0xb7, 0, 0, 0, 0, Alu(Mov, 0, Imm(0))),
     R(0x79, 0, 10, -8, 0, Load(Double, false, 0, 10, -8)),
     R(0x95, 0, 0, 0, 0, Exit)]
  }

  function StackPtrAddStoreLoad(): seq<Row> {
    [R(0xbf, 2, 10, 0, 0, Alu(Mov, 2, FromReg(10))),
     R(0x7, 2, 0, 0, -16, Alu(Add, 2, Imm(-16))),
     R(0xb7, 0, 0, 0, 42, Alu(Mov, 0, Imm(42))),
     R(0x7b, 2, 0, 8, 0, Store(Double, 2, 8, FromReg(0))),
     R(0x79, 0, 2, 8, 0, Load(Double, false, 0, 2, 8)),
     R(0x95, 0, 0, 0, 0, Exit)]
  }

  function StackPlainAccesses(): seq<Row> {
    [R(0xb7, 0, 0, 0, 0x12345678, Alu(Mov, 0, Imm(305419896))),
     R(0x73, 10, 0, -1, 0, Store(Byte, 10, -1, FromReg(0))),
     R(0x71, 0, 10, -1, 0, Load(Byte, false, 0, 10, -1)),
     R(0x6b, 10, 0, -2, 0, Store(Half, 10, -2, FromReg(0))),
     R(0x69, 0, 10, -2, 0, Load(Half, false, 0, 10, -2)),
     R(0x63, 10, 0, -4, 0, Store(Word, 10, -4, FromReg(0))),
     R(0x61, 0, 10, -4, 0, Load(Word, false, 0, 10, -4)),
     R(0x7b, 10, 0, -16, 0, Store(Double, 10, -16, FromReg(0))),
     R(0x79, 0, 10, -16, 0, Load(Double, false, 0, 10, -16))]
  }

  function StackSignedAccesses(): seq<Row> {
    [R(0x72, 10, 0, -17, -1, Store(Byte, 10, -17, Imm(-1))),
     R(0x91, 0, 10, -17, 0, Load(Byte, true, 0, 10, -17)),
     R(0x6a, 10, 0, -20, -1, Store(Half, 10, -20, Imm(-1))),
     R(0x89, 0, 10, -20, 0, Load(Half, true, 0, 10, -20)),
     R(0x62, 10, 0, -24, -1, Store(Word, 10, -24, Imm(-1))),
     R(0x81, 0, 10, -24, 0, Load(Word, true, 0, 10, -24)),
     R(0x95, 0, 0, 0, 0, Exit)]
  }

  function StackWidthStoreLoads(): seq<Row> {
    StackPlainAccesses() + StackSignedAccesses()
  }

  function StackRegIndexStoreLoad(): seq<Row> {
    [R(0xb7, 2, 0, 0, 3, Alu(Mov, 2, Imm(3))),
     R(0xb7, 4, 0, 0, 90, Alu(Mov, 4, Imm(90))),
     R(0xbf, 5, 10, 0, 0, Alu(Mov, 5, FromReg(10))),
     R(0x7, 5, 0, 0, -40, Alu(Add, 5, Imm(-40))),
     R(0xf, 5, 2, 0, 0, Alu(Add, 5, FromReg(2))),
     R(0x73, 5, 4, 0, 0, Store(Byte, 5, 0, FromReg(4))),
     R(0x71, 0, 5, 0, 0, Load(Byte, false, 0, 5, 0)),
     R(0x95, 0, 0, 0, 0, Exit)]
  }

  function StackRegSubStoreLoad(): seq<Row> {
    [R(0xb7, 0, 0, 0, 42, Alu(Mov, 0, Imm(42))),
     R(0xb7, 2, 0, 0, 8, Alu(Mov, 2, Imm(8))),
     R(0xbf, 5, 10, 0, 0, Alu(Mov, 5, FromReg(10))),
     R(0x1f, 5, 2, 0, 0, Alu(Sub, 5, FromReg(2))),
     R(0x7b, 5, 0, 0, 0, Store(Double, 5, 0, FromReg(0))),
     R(0x79, 0, 5, 0, 0, Load(Double, false, 0, 5, 0)),
     R(0x95, 0, 0, 0, 0, Exit)]
  }

  function UninitStackPtrAddLoad(): seq<Row> {
    [R(0xbf, 2, 10, 0, 0, Alu(Mov, 2, FromReg(10))),
     R(0x7, 2, 0, 0, -8, Alu(Add, 2, Imm(-8))),
     R(0x79, 0, 2, 0, 0, Load(Double, false, 0, 2, 0)),
     R(0x95, 0, 0, 0, 0, Exit)]
  }

  function ImmediateStackStore(): seq<Row> {
    [R(0x7a, 10, 0, -8, 42, Store(Double, 10, -8, Imm(42))),
     R(0x95, 0, 0, 0, 0, Exit)]
  }

  function ContextStore(): seq<Row> {
    [R(0xb7, 0, 0, 0, 42, Alu(Mov, 0, Imm(42))),
     R(0x7b, 1, 0, 0, 0, Store(Double, 1, 0, FromReg(0))),
     R(0x95, 0, 0, 0, 0, Exit)]
  }

  function CapabilityStackStore(): seq<Row> {
    [R(0xbf, 2, 1, 0, 0, Alu(Mov, 2, FromReg(1))),
     R(0x7b, 10, 2, -8, 0, Store(Double, 10, -8, FromReg(2))),
     R(0x95, 0, 0, 0, 0, Exit)]
  }

  function ClobberedR1Load(): seq<Row> {
    [R(0xb7, 1, 0, 0, 0, Alu(Mov, 1, Imm(0))),
     R(0x79, 0, 1, 0, 0, Load(Double, false, 0, 1, 0)),
     R(0x95, 0, 0, 0, 0, Exit)]
  }

  function BranchJoinClobberedContext(): seq<Row> {
    [R(0xbf, 6, 1, 0, 0, Alu(Mov, 6, FromReg(1))),
     R(0xb7, 0, 0, 0, 0, Alu(Mov, 0, Imm(0))),
     R(0x15, 0, 0, 2, 0, JumpIf(Eq, 0, Imm(0), 2)),
     R(0xb7, 6, 0, 0, 0, Alu(Mov, 6, Imm(0))),
     R(0x5, 0, 0, 0, 0, Jump(0)),
     R(0x79, 0, 6, 8, 0, Load(Double, false, 0, 6, 8)),
     R(0x95, 0, 0, 0, 0, Exit)]
  }

  function PointerLeak(): seq<Row> {
    [R(0xbf, 2, 10, 0, 0, Alu(Mov, 2, FromReg(10))),
     R(0xbf, 0, 2, 0, 0, Alu(Mov, 0, FromReg(2))),
     R(0x95, 0, 0, 0, 0, Exit)]
  }

  // ----- the suite -----

  datatype Verdict = Accept | Refuse(pc: nat, why: Reason)

  datatype Case = Case(rows: seq<Row>, verdict: Verdict)

  ghost predicate Meets(vm: Vm, v: Verdict) {
    match v
    case Accept => Accepted(vm)
    case Refuse(pc, why) => Refused(vm, pc, why)
  }

  /** In the order the harness runs them. */
  function Cases(): seq<Case> {
    [Case(ScalarMovExit(), Accept),
     Case(ContextLoad(), Accept),
     Case(ContextWidthLoads(), Accept),
     Case(ContextOobLoad(), Accept),
     Case(ContextPtrAddLoad(), Accept),
     Case(ContextPtrAddOobLoad(), Accept),
     Case(BranchPreservesContext(), Accept),
     Case(StackStoreLoad(), Accept),
     Case(StackPtrAddStoreLoad(), Accept),
     Case(StackWidthStoreLoads(), Accept),
     Case(StackRegIndexStoreLoad(), Accept),
     Case(StackRegSubStoreLoad(), Accept),
     Case(UninitStackPtrAddLoad(), Accept),
     Case(ImmediateStackStore(), Accept),
     Case(ContextStore(), Refuse(1, UntrackedStoreBase)),
     Case(CapabilityStackStore(), Refuse(1, StoresCapability)),
     Case(ClobberedR1Load(), Refuse(1, UntrackedLoadBase)),
     Case(BranchJoinClobberedContext(), Refuse(5, UntrackedLoadBase)),
     Case(PointerLeak(), Refuse(2, ReturnsCapability))]
  }

  /** What a sweep of the rows computes: each decodes, none branches, and the verdict is this. */
  predicate Computes(c: Case) {
    var vm := Vm(Insns(c.rows), None);
    && LinesFrom(c.rows, 0) && FallsFrom(vm.code, 0)
    && FirstRefusal(vm, 0) == match c.verdict { case Accept => None case Refuse(pc, why) => Some((pc, why)) }
  }

  ghost predicate Holds(c: Case) {
    Lists(c.rows) && Meets(Vm(Insns(c.rows), None), c.verdict)
  }

  /** One proof for every program without branches. */
  lemma ComputedHolds(c: Case)
    requires Computes(c)
    ensures Holds(c)
  {
    var vm := Vm(Insns(c.rows), None);
    LinesFromList(c.rows, 0);
    FallsFromStraight(vm.code, 0);
    SweepDecides(vm);
  }

  // ----- helper-returned map values -----

  const HELPER_MAP_LOOKUP: i32 := 7

  /** Look the value up, then read it, write and read it back, or only write it. */
  datatype MapUse = Reads | WritesAndReads | Writes

  function MapRows(use: MapUse, off: i16): seq<Row> {
    var lookup := R(0x85, 0, 0, 0, 7, Call(7));
    var keep := R(0xbf, 6, 0, 0, 0, Alu(Mov, 6, FromReg(0)));
    var read := R(0x79, 0, 6, off, 0, Load(Double, false, 0, 6, off));
    var value := R(0xb7, 2, 0, 0, 0x5a, Alu(Mov, 2, Imm(0x5a)));
    var write := R(0x7b, 6, 2, off, 0, Store(Double, 6, off, FromReg(2)));
    var exit := R(0x95, 0, 0, 0, 0, Exit);
    match use
    case Reads => [lookup, keep, read, exit]
    case WritesAndReads => [lookup, keep, value, write, read, exit]
    case Writes => [lookup, keep, value, write, R(0xb7, 0, 0, 0, 0, Alu(Mov, 0, Imm(0))), exit]
  }

  lemma MapRowsListed(use: MapUse, off: i16)
    ensures Lists(MapRows(use, off))
  {
    hide CondOf;
    var t := MapRows(use, off);
    assert Line(t[0]) && Line(t[1]) && Line(t[2]) && Line(t[3]);
    assert use != Reads ==> Line(t[4]) && Line(t[5]);
  }

  lemma MapKinds(use: MapUse, off: i16, c: seq<Insn>)
    requires c == Insns(MapRows(use, off))
    ensures KindAt(c, 1, 0) == KindAt(c, 2, 6) == Capability(MapValue)
    ensures use == Reads ==> KindAt(c, 3, 0) == Scalar
    ensures use != Reads ==> KindAt(c, 3, 2) == Scalar && KindAt(c, 3, 6) == Capability(MapValue)
    ensures use != Reads ==> KindAt(c, 4, 6) == Capability(MapValue) && KindAt(c, 5, 0) == Scalar
  {
    assert KindAt(c, 1, 0) == Capability(MapValue);
    assert KindAt(c, 2, 6) == Capability(MapValue);
    assert use != Reads ==> KindAt(c, 3, 2) == Scalar && KindAt(c, 3, 6) == Capability(MapValue);
  }

  lemma MapVerdict(use: MapUse, off: i16, vm: Vm)
    requires vm.code == Insns(MapRows(use, off)) && vm.mapHelper == Some(HELPER_MAP_LOOKUP)
    ensures Accepted(vm)
  {
    hide KindAt, Accepted;
    MapKinds(use, off, vm.code);
    StraightAccepted(vm);
  }

  /** The map root is opt-in: the programs are translated exactly when helper 7 is configured. */
  lemma MapNeedsHelper(use: MapUse, off: i16, helper: Option<i32>)
    ensures LoadCode(Assemble(Raws(MapRows(use, off)))) == Insns(MapRows(use, off))
    ensures Accepted(Vm(Insns(MapRows(use, off)), helper)) <==> helper == Some(HELPER_MAP_LOOKUP)
  {
    var vm := Vm(Insns(MapRows(use, off)), helper);
    if helper == Some(HELPER_MAP_LOOKUP) {
      MapVerdict(use, off, vm);
    } else {
      UnknownFirstCall(vm);
    }
    MapRowsListed(use, off);
    hide *;
    ListsLoad(MapRows(use, off));
  }

  lemma UnknownFirstCall(vm: Vm)
    requires |vm.code| > 1 && vm.code[0] == Call(HELPER_MAP_LOOKUP) && vm.mapHelper != Some(HELPER_MAP_LOOKUP)
    ensures !Accepted(vm)
  {
    assert PathTo(vm, Begin, 0);
    assert CheckAt(vm, 0) == Some(UnknownHelper);
  }
}
