/**
 Two runs of one program whose roots lie at different addresses. As long as no path uses a
 capability kind as an integer the runs cannot tell where the roots lie; what they return can
 differ only by how far the root moved whose capability their path leaves in R0.
 */
module Layout {
  import opened Words
  import opened Ebpf
  import opened Contract
  import opened Kinds
  import opened Codegen
  import opened CapMachine
  import opened Soundness
  import opened Isolation

  // ----- integer uses -----

  function OperandReg(src: Operand): set<Reg> {
    match src case Imm(_) => {} case FromReg(r) => {r}
  }

  /** The registers whose integer value decides what `insn` computes, stores, compares or returns. */
  function IntegerUses(insn: Insn): set<Reg> {
    match insn
    case Alu(Mov, _, _) => {}
    case Alu(Add, _, src) => OperandReg(src)
    case Alu(Sub, _, src) => OperandReg(src)
    case Alu(_, d, src) => {d} + OperandReg(src)
    case Store(_, _, _, src) => OperandReg(src)
    case JumpIf(_, l, rhs, _) => {l} + OperandReg(rhs)
    case Exit => {0}
    case _ => {}
  }

  ghost predicate UsesScalars(vm: Vm, p: Path)
    requires IsPath(vm, p)
  {
    forall r | r in IntegerUses(vm.code[End(p)]) :: PathKinds(vm, p)[r] == Scalar
  }

  /** Short of returning, no path uses a capability kind as an integer. */
  ghost predicate NoAddressInside(vm: Vm) {
    forall p | IsPath(vm, p) && vm.code[End(p)] != Exit :: UsesScalars(vm, p)
  }

  /** No path brings a capability kind in R0 to an EXIT. */
  ghost predicate NeverReturnsCapability(vm: Vm) {
    forall p | IsPath(vm, p) && vm.code[End(p)] == Exit :: UsesScalars(vm, p)
  }

  // ----- relocation -----

  /** Where byte `i` of an object lies. */
  function Cell(region: Region, i: nat): u64 {
    Wrap64(region.base + i)
  }

  /** In both layouts two objects are apart, or they lie the same way to each other. */
  predicate Coupled(a1: Region, b1: Region, a2: Region, b2: Region) {
    || (Disjoint(a1, b1) && Disjoint(a2, b2))
    || b1.base - a1.base == b2.base - a2.base
  }

  /** The same objects and integers, lying elsewhere. */
  ghost predicate SameObjects(env1: Env, env2: Env) {
    && WellFormed(env1) && WellFormed(env2)
    && env1.ctx.length == env2.ctx.length
    && env1.stack.length == env2.stack.length
    && env1.mapValue.length == env2.mapValue.length
    && Coupled(env1.ctx, env1.mapValue, env2.ctx, env2.mapValue)
    && (forall r :: env1.entry(r) == env2.entry(r))
    && forall n, r :: env1.scratch(n, r) == env2.scratch(n, r)
  }

  /** How far the object behind a kind moved. */
  function Shift(env1: Env, env2: Env, k: Kind): int {
    match k case Scalar => 0 case Capability(c) => RootRegion(env2, c).base - RootRegion(env1, c).base
  }

  /** Equal integers, or values that moved with their root, with the same tag. */
  ghost predicate Relocated(env1: Env, env2: Env, k: Kind, v1: Value, v2: Value) {
    match k
    case Scalar => v1 == v2 && v1.Int?
    case Capability(c) =>
      && Bits(v2) == Wrap64(Bits(v1) + Shift(env1, env2, k))
      && (v1.Int? <==> v2.Int?)
      && (v1.Cap? ==> v1.region == RootRegion(env1, c) && v2.region == RootRegion(env2, c))
  }

  ghost predicate BytesMoved(a1: Region, a2: Region, m1: Memory, m2: Memory) {
    forall i: nat | i < a1.length :: ReadByte(m1, Cell(a1, i)) == ReadByte(m2, Cell(a2, i))
  }

  /** The contents moved along. */
  ghost predicate MemMoved(env1: Env, env2: Env, m1: Memory, m2: Memory) {
    forall c :: BytesMoved(RootRegion(env1, c), RootRegion(env2, c), m1, m2)
  }

  /** Indistinguishable but for the layout, given what the path leaves in the registers. */
  ghost predicate SameState(env1: Env, env2: Env, ks: KindMap, s: CapState, t: CapState) {
    && s.pc == t.pc && s.calls == t.calls && |s.regs| == |t.regs| == REGS
    && (forall r: Reg :: Relocated(env1, env2, ks[r], s.regs[r], t.regs[r]))
    && MemMoved(env1, env2, s.mem, t.mem)
  }

  ghost predicate Alike(env1: Env, env2: Env, ks: KindMap, o1: Outcome<CapState>, o2: Outcome<CapState>) {
    match (o1, o2)
    case (Running(s), Running(t)) => SameState(env1, env2, ks, s, t)
    case (Returned(a), Returned(b)) => b == Wrap64(a + Shift(env1, env2, ks[0]))
    case (Trapped(i), Trapped(j)) => i == j
    case _ => false
  }

  // ----- memory -----

  function ByteAt(v: nat, i: nat): u8 {
    if i == 0 then v % 0x100 else ByteAt(v / 0x100, i - 1)
  }

  lemma {:induction false} StoreRead(m: Memory, a: u64, n: nat, v: nat, x: u64)
    requires a + n <= TWO_64
    ensures ReadByte(StoreLE(m, a, n, v), x) == if a <= x < a + n then ByteAt(v, x - a) else ReadByte(m, x)
    decreases n
  {
    if n > 1 {
      StoreRead(m[a := v % 0x100], a + 1, n - 1, v / 0x100, x);
    }
  }

  lemma CellNext(a: Region, i: nat)
    requires i < a.length && a.base + a.length <= TWO_64
    ensures Cell(a, i) == a.base + i && Wrap64(Cell(a, i) + 1) == Cell(a, i + 1)
  {
  }

  lemma {:induction false} LoadMoved(a1: Region, a2: Region, m1: Memory, m2: Memory, i: nat, n: nat)
    requires BytesMoved(a1, a2, m1, m2) && a1.length == a2.length && i + n <= a1.length
    requires a1.base + a1.length <= TWO_64 && a2.base + a2.length <= TWO_64
    ensures LoadLE(m1, Cell(a1, i), n) == LoadLE(m2, Cell(a2, i), n)
    decreases n
  {
    if n > 0 {
      CellNext(a1, i);
      CellNext(a2, i);
      LoadMoved(a1, a2, m1, m2, i + 1, n - 1);
      hide Cell, Wrap64, ReadByte;
    }
  }

  lemma RootsMoved(env1: Env, env2: Env, c: CapSource)
    requires SameObjects(env1, env2)
    ensures var a1, a2 := RootRegion(env1, c), RootRegion(env2, c);
            a1.length == a2.length && a1.base + a1.length <= TWO_64 && a2.base + a2.length <= TWO_64
  {
  }

  lemma RootsCoupled(env1: Env, env2: Env, c: CapSource, d: CapSource)
    requires SameObjects(env1, env2)
    ensures RootRegion(env1, c).length > 0 && RootRegion(env1, d).length > 0 ==>
              Coupled(RootRegion(env1, c), RootRegion(env1, d), RootRegion(env2, c), RootRegion(env2, d))
  {
  }

  /** An address that moved with its root is inside it in both layouts or in neither. */
  lemma AccessMoved(env1: Env, env2: Env, c: CapSource, a1: u64, a2: u64, n: nat)
    requires SameObjects(env1, env2) && n > 0 && a2 == Wrap64(a1 + Shift(env1, env2, Capability(c)))
    ensures var r1, r2 := RootRegion(env1, c), RootRegion(env2, c);
            && (Inside(r1, a1, n) <==> Inside(r2, a2, n))
            && (Inside(r1, a1, n) ==> a1 == Cell(r1, a1 - r1.base) && a2 == Cell(r2, a1 - r1.base))
  {
    RootsMoved(env1, env2, c);
    var sum := a1 + Shift(env1, env2, Capability(c));
    assert Wrap64(sum) == if sum < 0 then sum + TWO_64 else if sum < TWO_64 then sum else sum - TWO_64;
  }

  lemma StoreByteMoved(c1: Region, c2: Region, d1: Region, d2: Region, m1: Memory, m2: Memory,
                                          i: nat, n: nat, v: nat, j: nat)
    requires Coupled(c1, d1, c2, d2) && BytesMoved(d1, d2, m1, m2)
    requires c1.length == c2.length && d1.length == d2.length && i + n <= c1.length && j < d1.length
    requires c1.base + c1.length <= TWO_64 && c2.base + c2.length <= TWO_64
    requires d1.base + d1.length <= TWO_64 && d2.base + d2.length <= TWO_64
    ensures n > 0 ==>
              var s1, s2 := StoreLE(m1, Cell(c1, i), n, v), StoreLE(m2, Cell(c2, i), n, v);
              ReadByte(s1, Cell(d1, j)) == ReadByte(s2, Cell(d2, j))
  {
    if n > 0 {
      CellNext(c1, i);
      CellNext(c2, i);
      CellNext(d1, j);
      CellNext(d2, j);
      StoreRead(m1, Cell(c1, i), n, v, Cell(d1, j));
      StoreRead(m2, Cell(c2, i), n, v, Cell(d2, j));
    }
  }

  lemma StoreMoved(env1: Env, env2: Env, c: CapSource, m1: Memory, m2: Memory, i: nat, n: nat, v: nat)
    requires SameObjects(env1, env2) && MemMoved(env1, env2, m1, m2) && n > 0 && i + n <= RootRegion(env1, c).length
    ensures MemMoved(env1, env2, StoreLE(m1, Cell(RootRegion(env1, c), i), n, v),
                                 StoreLE(m2, Cell(RootRegion(env2, c), i), n, v))
  {
    hide StoreLE, Cell, ReadByte;
    var c1, c2 := RootRegion(env1, c), RootRegion(env2, c);
    forall d, j: nat | j < RootRegion(env1, d).length
      ensures ReadByte(StoreLE(m1, Cell(c1, i), n, v), Cell(RootRegion(env1, d), j))
           == ReadByte(StoreLE(m2, Cell(c2, i), n, v), Cell(RootRegion(env2, d), j))
    {
      RootsMoved(env1, env2, c);
      RootsMoved(env1, env2, d);
      RootsCoupled(env1, env2, c, d);
      StoreByteMoved(c1, c2, RootRegion(env1, d), RootRegion(env2, d), m1, m2, i, n, v, j);
    }
  }

  // ----- one step -----

  /** Everything a step needs of the analysis and the path. */
  ghost predicate Ready(vm: Vm, ks: KindMap, s: CapState) {
    && s.pc < |vm.code| && Check(vm, s.pc, vm.code[s.pc], Mop(vm, s.pc)) == None
    && s.pc < |Compiled(vm)| && Compiled(vm)[s.pc] == Lower(vm.code[s.pc], s.pc, Mop(vm, s.pc))
    && (forall r: Reg :: Below(Mop(vm, s.pc)[r], ks[r]))
    && (vm.code[s.pc] != Exit ==> forall r | r in IntegerUses(vm.code[s.pc]) :: ks[r] == Scalar)
  }

  lemma WrapAdd(a: int, b: int)
    ensures Wrap64(Wrap64(a) + b) == Wrap64(a + b)
  {
  }

  lemma ShiftCommutes(a: int, shift: int, delta: int)
    ensures Wrap64(Wrap64(a + shift) as int + delta) == Wrap64(Wrap64(a + delta) as int + shift)
  {
    WrapAdd(a + shift, delta);
    WrapAdd(a + delta, shift);
    assert a + shift + delta == a + delta + shift;
  }

  lemma OperandMoved(env1: Env, env2: Env, ks: KindMap, s: CapState, t: CapState, src: Operand)
    requires SameState(env1, env2, ks, s, t) && forall r | r in OperandReg(src) :: ks[r] == Scalar
    ensures OperandBits(s.regs, src) == OperandBits(t.regs, src)
  {
    if src.FromReg? {
      assert Relocated(env1, env2, ks[src.reg], s.regs[src.reg], t.regs[src.reg]);
    }
  }

  /** Adding one integer to two relocated values, by either operation. */
  lemma AddMoved(env1: Env, env2: Env, k: Kind, v1: Value, v2: Value, b: u64, down: bool)
    requires Relocated(env1, env2, k, v1, v2)
    ensures Relocated(env1, env2, k, Moved(v1, b, down), Moved(v2, b, down))
    ensures Relocated(env1, env2, k, Int(Bits(Moved(v1, b, down))), Int(Bits(Moved(v2, b, down))))
  {
    var delta := if down then -(b as int) else b as int;
    ShiftCommutes(Bits(v1), Shift(env1, env2, k), delta);
    assert Bits(Moved(v1, b, down)) == Wrap64(Bits(v1) + delta);
    assert Bits(Moved(v2, b, down)) == Wrap64(Bits(v2) + delta);
    hide Wrap64;
  }

  /** A step that writes one register. */
  lemma WriteMoved(env1: Env, env2: Env, insn: Insn, ks: KindMap, s: CapState, t: CapState,
                                      next: nat, d: Reg, v1: Value, v2: Value)
    requires SameState(env1, env2, ks, s, t)
    requires forall r: Reg | r != d :: OriginOf(insn, r) == CopyOf(r)
    requires Relocated(env1, env2, KindFrom(OriginOf(insn, d), ks), v1, v2)
    ensures Alike(env1, env2, Transfer(insn, ks), Write(s, next, d, v1), Write(t, next, d, v2))
  {
    hide Relocated, MemMoved, OriginOf;
    forall r: Reg
      ensures Relocated(env1, env2, Transfer(insn, ks)[r], s.regs[d := v1][r], t.regs[d := v2][r])
    {
      if r != d {
        assert Relocated(env1, env2, ks[r], s.regs[r], t.regs[r]);
      }
    }
  }

  /** What lowered arithmetic writes to its destination. */
  function AluValue(op: AluOp, d: Reg, src: Operand, mop: KindMap, regs: seq<Value>): Value
    requires |regs| == REGS
  {
    match LowerAlu(op, d, src, mop)
    case CMov(_, from) => regs[from]
    case CMove(_, _, down) => Moved(regs[d], OperandBits(regs, src), down)
    case _ => Int(AluEval(op, Bits(regs[d]), OperandBits(regs, src)))
  }

  lemma AluValueMoved(env1: Env, env2: Env, op: AluOp, d: Reg, src: Operand, mop: KindMap, ks: KindMap,
                                         s: CapState, t: CapState)
    requires SameState(env1, env2, ks, s, t)
    requires forall r: Reg :: Below(mop[r], ks[r])
    requires forall r | r in IntegerUses(Alu(op, d, src)) :: ks[r] == Scalar
    ensures Relocated(env1, env2, KindFrom(OriginOf(Alu(op, d, src), d), ks),
                      AluValue(op, d, src, mop, s.regs), AluValue(op, d, src, mop, t.regs))
  {
    hide MemMoved;
    assert Relocated(env1, env2, ks[d], s.regs[d], t.regs[d]);
    match op
    case Mov =>
      match src {
        case FromReg(q) =>
          assert Relocated(env1, env2, ks[q], s.regs[q], t.regs[q]);
          assert Below(mop[q], ks[q]);
        case Imm(_) =>
      }
    case Add =>
      OperandMoved(env1, env2, ks, s, t, src);
      AddMoved(env1, env2, ks[d], s.regs[d], t.regs[d], OperandBits(s.regs, src), false);
    case Sub =>
      OperandMoved(env1, env2, ks, s, t, src);
      AddMoved(env1, env2, ks[d], s.regs[d], t.regs[d], OperandBits(s.regs, src), true);
    case _ =>
      OperandMoved(env1, env2, ks, s, t, src);
  }

  lemma AluMoved(env1: Env, env2: Env, op: AluOp, d: Reg, src: Operand, mop: KindMap, ks: KindMap,
                                    code: seq<Code>, s: CapState, t: CapState)
    requires WellFormed(env1) && WellFormed(env2) && SameState(env1, env2, ks, s, t)
    requires s.pc < |code| && code[s.pc] == LowerAlu(op, d, src, mop)
    requires forall r: Reg :: Below(mop[r], ks[r])
    requires forall r | r in IntegerUses(Alu(op, d, src)) :: ks[r] == Scalar
    ensures Alike(env1, env2, Transfer(Alu(op, d, src), ks), CapStep(env1, code, s), CapStep(env2, code, t))
  {
    hide Relocated, Alike, MemMoved, AluEval;
    AluValueMoved(env1, env2, op, d, src, mop, ks, s, t);
    WriteMoved(env1, env2, Alu(op, d, src), ks, s, t, s.pc + 1, d,
               AluValue(op, d, src, mop, s.regs), AluValue(op, d, src, mop, t.regs));
  }

  /** The effective addresses of one access through a root, in the two layouts. */
  lemma AddressMoved(env1: Env, env2: Env, c: CapSource, v1: Value, v2: Value, off: int, n: nat)
    requires SameObjects(env1, env2) && Relocated(env1, env2, Capability(c), v1, v2) && v1.Cap? && n > 0
    ensures var a1, a2 := Wrap64(Bits(v1) + off), Wrap64(Bits(v2) + off);
            var r1, r2 := RootRegion(env1, c), RootRegion(env2, c);
            && (Authorises(v1, a1, n) <==> Authorises(v2, a2, n)) && (Authorises(v1, a1, n) <==> Inside(r1, a1, n))
            && (Inside(r1, a1, n) ==> a1 == Cell(r1, a1 - r1.base) && a2 == Cell(r2, a1 - r1.base))
  {
    hide Cell, Inside, Wrap64;
    ShiftCommutes(Bits(v1), Shift(env1, env2, Capability(c)), off);
    AccessMoved(env1, env2, c, Wrap64(Bits(v1) + off), Wrap64(Bits(v2) + off), n);
  }

  lemma ReadMoved(env1: Env, env2: Env, c: CapSource, m1: Memory, m2: Memory, i: nat, w: Width, signed: bool)
    requires SameObjects(env1, env2) && MemMoved(env1, env2, m1, m2) && i + Bytes(w) <= RootRegion(env1, c).length
    ensures LoadValue(m1, Cell(RootRegion(env1, c), i), w, signed)
         == LoadValue(m2, Cell(RootRegion(env2, c), i), w, signed)
  {
    RootsMoved(env1, env2, c);
    assert BytesMoved(RootRegion(env1, c), RootRegion(env2, c), m1, m2);
    LoadMoved(RootRegion(env1, c), RootRegion(env2, c), m1, m2, i, Bytes(w));
  }

  lemma LoadStepMoved(env1: Env, env2: Env, w: Width, signed: bool, d: Reg, b: Reg, off: i16, c: CapSource,
                                         ks: KindMap, code: seq<Code>, s: CapState, t: CapState)
    requires SameObjects(env1, env2) && SameState(env1, env2, ks, s, t)
    requires s.pc < |code| && code[s.pc] == CLoad(w, signed, d, b, off)
    requires ks[b] == Capability(c) && s.regs[b].Cap?
    ensures Alike(env1, env2, Transfer(Load(w, signed, d, b, off), ks), CapStep(env1, code, s), CapStep(env2, code, t))
  {
    hide MemMoved, LoadValue, Cell, SameObjects;
    assert Relocated(env1, env2, ks[b], s.regs[b], t.regs[b]);
    AddressMoved(env1, env2, c, s.regs[b], t.regs[b], off, Bytes(w));
    var a1, a2 := Wrap64(Bits(s.regs[b]) + off), Wrap64(Bits(t.regs[b]) + off);
    if Authorises(s.regs[b], a1, Bytes(w)) {
      ReadMoved(env1, env2, c, s.mem, t.mem, a1 - RootRegion(env1, c).base, w, signed);
      var v := Int(LoadValue(s.mem, a1, w, signed));
      WriteMoved(env1, env2, Load(w, signed, d, b, off), ks, s, t, s.pc + 1, d, v, v);
    }
  }

  lemma StoreStepMoved(env1: Env, env2: Env, w: Width, b: Reg, off: i16, src: Operand, c: CapSource,
                                          ks: KindMap, code: seq<Code>, s: CapState, t: CapState)
    requires SameObjects(env1, env2) && SameState(env1, env2, ks, s, t)
    requires s.pc < |code| && code[s.pc] == CStore(w, b, off, src)
    requires ks[b] == Capability(c) && s.regs[b].Cap? && forall r | r in OperandReg(src) :: ks[r] == Scalar
    ensures Alike(env1, env2, Transfer(Store(w, b, off, src), ks), CapStep(env1, code, s), CapStep(env2, code, t))
  {
    hide MemMoved, StoreLE, Cell, SameObjects;
    assert Relocated(env1, env2, ks[b], s.regs[b], t.regs[b]);
    AddressMoved(env1, env2, c, s.regs[b], t.regs[b], off, Bytes(w));
    OperandMoved(env1, env2, ks, s, t, src);
    var a1 := Wrap64(Bits(s.regs[b]) + off);
    if Authorises(s.regs[b], a1, Bytes(w)) {
      StoreMoved(env1, env2, c, s.mem, t.mem, a1 - RootRegion(env1, c).base, Bytes(w), OperandBits(s.regs, src));
    }
    KindsStay(Store(w, b, off, src), ks);
  }

  /** Instructions that write no register leave the kinds alone. */
  lemma KindsStay(insn: Insn, ks: KindMap)
    requires insn.Store? || insn.Jump? || insn.JumpIf? || insn.Exit?
    ensures Transfer(insn, ks) == ks
  {
  }

  lemma CallStepMoved(env1: Env, env2: Env, h: i32, ks: KindMap, code: seq<Code>, s: CapState, t: CapState)
    requires SameObjects(env1, env2) && SameState(env1, env2, ks, s, t)
    requires s.pc < |code| && code[s.pc] == CallMap
    ensures Alike(env1, env2, Transfer(Call(h), ks), CapStep(env1, code, s), CapStep(env2, code, t))
  {
    hide MemMoved;
    forall r: Reg
      ensures Relocated(env1, env2, Transfer(Call(h), ks)[r],
                        CallValue(env1, s.calls, s.regs, r), CallValue(env2, t.calls, t.regs, r))
    {
      assert Relocated(env1, env2, ks[r], s.regs[r], t.regs[r]);
    }
  }

  lemma JumpStepMoved(env1: Env, env2: Env, c: Cond, l: Reg, rhs: Operand, off: i16, ks: KindMap,
                                         code: seq<Code>, s: CapState, t: CapState)
    requires WellFormed(env1) && WellFormed(env2) && SameState(env1, env2, ks, s, t)
    requires s.pc < |code| && code[s.pc] == BranchIf(c, l, rhs, s.pc + 1 + off) && 0 <= s.pc + 1 + off
    requires forall r | r in IntegerUses(JumpIf(c, l, rhs, off)) :: ks[r] == Scalar
    ensures Alike(env1, env2, Transfer(JumpIf(c, l, rhs, off), ks), CapStep(env1, code, s), CapStep(env2, code, t))
  {
    hide MemMoved, CondEval;
    assert Relocated(env1, env2, ks[l], s.regs[l], t.regs[l]);
    OperandMoved(env1, env2, ks, s, t, rhs);
    KindsStay(JumpIf(c, l, rhs, off), ks);
  }

  /** One step of compiled code in the two layouts. */
  lemma StepMoved(env1: Env, env2: Env, vm: Vm, ks: KindMap, s: CapState, t: CapState)
    requires SameObjects(env1, env2) && SameState(env1, env2, ks, s, t) && Ready(vm, ks, s)
    requires forall r: Reg | Mop(vm, s.pc)[r].Capability? :: s.regs[r].Cap?
    ensures Alike(
              env1, env2, Transfer(vm.code[s.pc], ks), CapStep(env1, Compiled(vm), s), CapStep(env2, Compiled(vm), t))
  {
    assert WellFormed(env1) && WellFormed(env2);
    hide SameObjects, WellFormed, MemMoved, Relocated, Compiled, Mop, Transfer;
    var code, mop := Compiled(vm), Mop(vm, s.pc);
    NextInside(vm, s.pc, vm.code[s.pc], mop);
    match vm.code[s.pc]
    case Alu(op, d, src) => AluMoved(env1, env2, op, d, src, mop, ks, code, s, t);
    case Const64(d, v) => ConstMoved(env1, env2, d, v, ks, s, t);
    case Load(w, sx, d, b, off) =>
      assert Below(mop[b], ks[b]);
      LoadStepMoved(env1, env2, w, sx, d, b, off, ks[b].source, ks, code, s, t);
    case Store(w, b, off, src) =>
      assert Below(mop[b], ks[b]);
      StoreStepMoved(env1, env2, w, b, off, src, ks[b].source, ks, code, s, t);
    case JumpIf(c, l, rhs, off) => JumpStepMoved(env1, env2, c, l, rhs, off, ks, code, s, t);
    case Call(h) => CallStepMoved(env1, env2, h, ks, code, s, t);
    case Jump(off) => KindsStay(Jump(off), ks);
    case Exit => ExitMoved(env1, env2, ks, s, t);
  }

  lemma ConstMoved(env1: Env, env2: Env, d: Reg, v: u64, ks: KindMap, s: CapState, t: CapState)
    requires SameState(env1, env2, ks, s, t)
    ensures Alike(env1, env2, Transfer(Const64(d, v), ks), Write(s, s.pc + 2, d, Int(v)), Write(t, t.pc + 2, d, Int(v)))
  {
    WriteMoved(env1, env2, Const64(d, v), ks, s, t, s.pc + 2, d, Int(v), Int(v));
  }

  lemma ExitMoved(env1: Env, env2: Env, ks: KindMap, s: CapState, t: CapState)
    requires SameState(env1, env2, ks, s, t)
    ensures Alike(env1, env2, Transfer(Exit, ks), Returned(Bits(s.regs[0])), Returned(Bits(t.regs[0])))
  {
    assert Relocated(env1, env2, ks[0], s.regs[0], t.regs[0]);
    KindsStay(Exit, ks);
  }

  // ----- whole runs -----

  /** Context and map value hold the same bytes, moved along; nothing else need agree. */
  ghost predicate ContentsMoved(env1: Env, env2: Env, m1: Memory, m2: Memory) {
    BytesMoved(env1.ctx, env2.ctx, m1, m2) && BytesMoved(env1.mapValue, env2.mapValue, m1, m2)
  }

  lemma ClearedMoved(env1: Env, env2: Env, a1: Region, a2: Region, m1: Memory, m2: Memory)
    requires WellFormed(env1) && WellFormed(env2) && a1.length == a2.length && BytesMoved(a1, a2, m1, m2)
    requires a1.base + a1.length <= TWO_64 && a2.base + a2.length <= TWO_64
    requires Disjoint(a1, env1.stack) && Disjoint(a2, env2.stack)
    ensures BytesMoved(a1, a2, ClearStack(env1, m1), ClearStack(env2, m2))
  {
    hide ReadByte;
    forall i: nat | i < a1.length
      ensures ReadByte(ClearStack(env1, m1), Cell(a1, i)) == ReadByte(ClearStack(env2, m2), Cell(a2, i))
    {
      StartFrame(env1, m1, Cell(a1, i));
      StartFrame(env2, m2, Cell(a2, i));
    }
  }

  lemma StartMoved(env1: Env, env2: Env, m1: Memory, m2: Memory)
    requires SameObjects(env1, env2) && ContentsMoved(env1, env2, m1, m2)
    ensures SameState(env1, env2, EntryKinds(), CapStart(env1, m1), CapStart(env2, m2))
  {
    ClearedMoved(env1, env2, env1.ctx, env2.ctx, m1, m2);
    ClearedMoved(env1, env2, env1.mapValue, env2.mapValue, m1, m2);
    StackStartMoved(env1, env2, m1, m2);
    forall c
      ensures BytesMoved(RootRegion(env1, c), RootRegion(env2, c), ClearStack(env1, m1), ClearStack(env2, m2))
    {
      match c { case Context => case Stack => case MapValue => case _ => }
    }
    forall r: Reg
      ensures Relocated(env1, env2, EntryKinds()[r], EntryValue(env1, r), EntryValue(env2, r))
    {
      EntryMoved(env1, env2, r);
    }
    hide ReadByte, ClearStack, Relocated, BytesMoved;
  }

  lemma EntryMoved(env1: Env, env2: Env, r: Reg)
    requires SameObjects(env1, env2)
    ensures Relocated(env1, env2, EntryKind(r), EntryValue(env1, r), EntryValue(env2, r))
  {
    if r == STACK_REG {
      WrapAdd(env1.stack.base + env1.stack.length, env2.stack.base - env1.stack.base);
    }
  }

  lemma StackStartMoved(env1: Env, env2: Env, m1: Memory, m2: Memory)
    requires SameObjects(env1, env2)
    ensures BytesMoved(env1.stack, env2.stack, ClearStack(env1, m1), ClearStack(env2, m2))
  {
    forall i: nat | i < env1.stack.length
      ensures ReadByte(ClearStack(env1, m1), Cell(env1.stack, i)) == ReadByte(ClearStack(env2, m2), Cell(env2.stack, i))
    {
      CellNext(env1.stack, i);
      CellNext(env2.stack, i);
    }
  }

  lemma RunReady(env: Env, vm: Vm, m: Memory, n: nat)
    requires WellFormed(env) && Accepted(vm) && NoAddressInside(vm) && CapRun(env, Compiled(vm), m, n).Running?
    ensures var s, p := CapRun(env, Compiled(vm), m, n).state, Trace(env, Compiled(vm), m, n);
            && PathTo(vm, p, s.pc) && Ready(vm, PathKinds(vm, p), s)
            && forall r: Reg | Mop(vm, s.pc)[r].Capability? :: s.regs[r].Cap?
  {
    var s, p := CapRun(env, Compiled(vm), m, n).state, Trace(env, Compiled(vm), m, n);
    RunSound(env, vm, m, n);
    KindsSound(env, vm, m, n, 0);
    StepGoes(env, vm, s);
    forall r: Reg
      ensures Below(Mop(vm, s.pc)[r], PathKinds(vm, p)[r])
      ensures Mop(vm, s.pc)[r].Capability? ==> s.regs[r].Cap?
    {
      KindsSound(env, vm, m, n, r);
      if Mop(vm, s.pc)[r].Capability? {
        MopAgrees(vm, s.pc, r, Mop(vm, s.pc)[r].source);
      }
    }
    assert vm.code[s.pc] != Exit ==> UsesScalars(vm, p);
  }

  /** After `n` steps both runs have gone along one path and are alike by its kinds. */
  ghost predicate InStep(env1: Env, env2: Env, vm: Vm, m1: Memory, m2: Memory, n: nat)
    requires WellFormed(env1) && WellFormed(env2)
  {
    var p := Trace(env1, Compiled(vm), m1, n);
    && IsPath(vm, p) && Trace(env2, Compiled(vm), m2, n) == p
    && Alike(env1, env2, PathKinds(vm, p), CapRun(env1, Compiled(vm), m1, n), CapRun(env2, Compiled(vm), m2, n))
  }

  /**
   The two runs take the same steps and trap at the same instruction; registers their path calls
   scalar are equal; what they return differs by exactly how far the root moved whose
   capability the path leaves in R0, and not at all if it leaves a scalar.
   */
  lemma {:induction false} RunsAlike(env1: Env, env2: Env, vm: Vm, m1: Memory, m2: Memory, n: nat)
    requires SameObjects(env1, env2) && ContentsMoved(env1, env2, m1, m2)
    requires Accepted(vm) && NoAddressInside(vm)
    ensures InStep(env1, env2, vm, m1, m2, n)
  {
    hide *;
    BothFormed(env1, env2);
    if n == 0 {
      StartInStep(env1, env2, vm, m1, m2);
    } else {
      RunsAlike(env1, env2, vm, m1, m2, n - 1);
      StaysInStep(env1, env2, vm, m1, m2, n - 1);
    }
  }

  lemma BothFormed(env1: Env, env2: Env)
    requires SameObjects(env1, env2)
    ensures WellFormed(env1) && WellFormed(env2)
  {
  }

  lemma StaysInStep(env1: Env, env2: Env, vm: Vm, m1: Memory, m2: Memory, n: nat)
    requires SameObjects(env1, env2) && Accepted(vm) && NoAddressInside(vm) && InStep(env1, env2, vm, m1, m2, n)
    ensures InStep(env1, env2, vm, m1, m2, n + 1)
  {
    hide *;
    BothFormed(env1, env2);
    if CapRun(env1, Compiled(vm), m1, n).Running? {
      NextInStep(env1, env2, vm, m1, m2, n);
    } else {
      DoneInStep(env1, env2, vm, m1, m2, n);
    }
  }

  lemma StartInStep(env1: Env, env2: Env, vm: Vm, m1: Memory, m2: Memory)
    requires SameObjects(env1, env2) && ContentsMoved(env1, env2, m1, m2) && Accepted(vm)
    ensures InStep(env1, env2, vm, m1, m2, 0)
  {
    hide SameState, Compiled, ContentsMoved;
    StartMoved(env1, env2, m1, m2);
  }

  lemma DoneInStep(env1: Env, env2: Env, vm: Vm, m1: Memory, m2: Memory, n: nat)
    requires WellFormed(env1) && WellFormed(env2) && InStep(env1, env2, vm, m1, m2, n)
    requires !CapRun(env1, Compiled(vm), m1, n).Running?
    ensures InStep(env1, env2, vm, m1, m2, n + 1)
  {
    hide SameState, Compiled, PathKinds;
    DoneStays(env1, Compiled(vm), m1, n);
    DoneStays(env2, Compiled(vm), m2, n);
  }

  lemma DoneStays(env: Env, code: seq<Code>, m: Memory, n: nat)
    requires WellFormed(env) && !CapRun(env, code, m, n).Running?
    ensures CapRun(env, code, m, n + 1) == CapRun(env, code, m, n)
    ensures Trace(env, code, m, n + 1) == Trace(env, code, m, n)
  {
  }

  lemma OnlyExitReturns(env: Env, insn: Insn, pc: nat, ks: KindMap, code: seq<Code>, s: CapState)
    requires WellFormed(env) && |s.regs| == REGS && s.pc < |code| && code[s.pc] == Lower(insn, pc, ks)
    ensures CapStep(env, code, s).Returned? ==> insn == Exit
  {
  }

  lemma NextInStep(env1: Env, env2: Env, vm: Vm, m1: Memory, m2: Memory, n: nat)
    requires SameObjects(env1, env2) && Accepted(vm) && NoAddressInside(vm) && InStep(env1, env2, vm, m1, m2, n)
    requires CapRun(env1, Compiled(vm), m1, n).Running?
    ensures InStep(env1, env2, vm, m1, m2, n + 1)
  {
    var code, p := Compiled(vm), Trace(env1, Compiled(vm), m1, n);
    var s, t := CapRun(env1, code, m1, n).state, CapRun(env2, code, m2, n).state;
    RunReady(env1, vm, m1, n);
    RunSound(env1, vm, m1, n + 1);
    StepMoved(env1, env2, vm, PathKinds(vm, p), s, t);
    RunStep(env1, code, m1, n);
    RunStep(env2, code, m2, n);
    hide Accepted, NoAddressInside, SameObjects, Compiled, Mop, SameState;
    hide CapStep, Transfer, AllHold, CapRun, Trace, WellFormed;
    if CapStep(env1, code, s).Returned? {
      OnlyExitReturns(env1, vm.code[s.pc], s.pc, Mop(vm, s.pc), code, s);
      KindsStay(Exit, PathKinds(vm, p));
    }
  }

  lemma RunStep(env: Env, code: seq<Code>, m: Memory, n: nat)
    requires WellFormed(env) && CapRun(env, code, m, n).Running?
    ensures var o := CapStep(env, code, CapRun(env, code, m, n).state);
            && CapRun(env, code, m, n + 1) == o
            && Trace(env, code, m, n + 1) ==
                 match o { case Running(s) => Then(Trace(env, code, m, n), s.pc) case _ => Trace(env, code, m, n) }
  {
    hide CapStep;
  }

  // ----- what a caller can learn -----

  /**
   If no path uses a capability kind as an integer or returns one, two layouts give the same
   result, the same trap, and at every step the same program counter and scalar registers.
   */
  lemma LayoutIndependent(env1: Env, env2: Env, vm: Vm, m1: Memory, m2: Memory, n: nat)
    requires SameObjects(env1, env2) && ContentsMoved(env1, env2, m1, m2)
    requires Accepted(vm) && NoAddressInside(vm) && NeverReturnsCapability(vm)
    ensures IsPath(vm, Trace(env1, Compiled(vm), m1, n))
    ensures var ks := PathKinds(vm, Trace(env1, Compiled(vm), m1, n));
            match (CapRun(env1, Compiled(vm), m1, n), CapRun(env2, Compiled(vm), m2, n))
            case (Running(s), Running(t)) =>
              s.pc == t.pc && |s.regs| == |t.regs| == REGS
              && forall r: Reg | ks[r] == Scalar :: s.regs[r] == t.regs[r]
            case (o1, o2) => o1 == o2
  {
    RunsAlike(env1, env2, vm, m1, m2, n);
    var o := CapRun(env1, Compiled(vm), m1, n);
    if o.Returned? {
      ReturnedAtExit(env1, vm, m1, n);
      NoShift(o.result);
    }
    hide Compiled, SameObjects, ContentsMoved, Accepted, NoAddressInside, CapStep, MemMoved;
  }

  lemma NoShift(v: u64)
    ensures Wrap64(v as int + 0) == v
  {
  }

  /** A run that has returned went along a path to an EXIT. */
  lemma {:induction false} ReturnedAtExit(env: Env, vm: Vm, m: Memory, n: nat)
    requires WellFormed(env) && Accepted(vm) && CapRun(env, Compiled(vm), m, n).Returned?
    ensures var p := Trace(env, Compiled(vm), m, n); IsPath(vm, p) && vm.code[End(p)] == Exit
  {
    if CapRun(env, Compiled(vm), m, n - 1).Running? {
      var s := CapRun(env, Compiled(vm), m, n - 1).state;
      RunSound(env, vm, m, n - 1);
      StepGoes(env, vm, s);
      OnlyExitReturns(env, vm.code[s.pc], s.pc, Mop(vm, s.pc), Compiled(vm), s);
    } else {
      ReturnedAtExit(env, vm, m, n - 1);
    }
  }

  /**
   The converse, run by run: between layouts in which every root has moved, a result is the
   same exactly when its path leaves a scalar in R0.
   */
  lemma {:induction false} ReturnRevealsExactly(env1: Env, env2: Env, vm: Vm, m1: Memory, m2: Memory, n: nat)
    requires SameObjects(env1, env2) && ContentsMoved(env1, env2, m1, m2)
    requires env1.ctx.base != env2.ctx.base && env1.stack.base != env2.stack.base
    requires env1.mapValue.base != env2.mapValue.base
    requires Accepted(vm) && NoAddressInside(vm) && CapRun(env1, Compiled(vm), m1, n).Returned?
    ensures IsPath(vm, Trace(env1, Compiled(vm), m1, n))
    ensures CapRun(env1, Compiled(vm), m1, n) == CapRun(env2, Compiled(vm), m2, n) <==>
            PathKinds(vm, Trace(env1, Compiled(vm), m1, n))[0] == Scalar
  {
    assert WellFormed(env1) && WellFormed(env2);
    hide Compiled, SameObjects, ContentsMoved, Accepted, NoAddressInside, CapRun, PathKinds, WellFormed;
    RunsAlike(env1, env2, vm, m1, m2, n);
    var k := PathKinds(vm, Trace(env1, Compiled(vm), m1, n))[0];
    KindsHaveRoots(vm, Trace(env1, Compiled(vm), m1, n), 0);
    hide IsPath, Shift, SameState, Wrap64;
    ShiftShows(env1, env2, k, CapRun(env1, Compiled(vm), m1, n).result);
  }

  /** The only capability kinds on any path are those of the three objects. */
  lemma {:induction false} KindsHaveRoots(vm: Vm, p: Path, r: Reg)
    requires IsPath(vm, p)
    ensures PathKinds(vm, p)[r] in {Scalar, Capability(Context), Capability(Stack), Capability(MapValue)}
  {
    match p
    case Begin =>
    case Then(q, _) =>
      match OriginOf(vm.code[End(q)], r)
      case Fixed(_) =>
      case CopyOf(s) => KindsHaveRoots(vm, q, s);
  }

  lemma ShiftShows(env1: Env, env2: Env, k: Kind, v: u64)
    requires SameObjects(env1, env2) && k in {Scalar, Capability(Context), Capability(Stack), Capability(MapValue)}
    requires env1.ctx.base != env2.ctx.base && env1.stack.base != env2.stack.base
    requires env1.mapValue.base != env2.mapValue.base
    ensures Wrap64(v + Shift(env1, env2, k)) == v <==> k == Scalar
  {
    WrapShows(v, Shift(env1, env2, k));
    hide Wrap64;
  }

  lemma WrapShows(v: u64, d: int)
    requires -TWO_64 < d < TWO_64
    ensures Wrap64(v + d) == v <==> d == 0
  {
    var sum := v + d;
    assert Wrap64(sum) == if sum < 0 then sum + TWO_64 else if sum < TWO_64 then sum else sum - TWO_64;
  }
}
