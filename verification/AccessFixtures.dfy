/**
 Loads and stores of every width through each kind of root: what the table of compiled
 programs and the helper-map programs return, and exactly when they trap.
 */
module AccessFixtures {
  import opened Words
  import opened Ebpf
  import opened Contract
  import opened Kinds
  import opened Straight
  import opened Codegen
  import opened CapMachine
  import opened Isolation
  import opened Stepping
  import Suite

  lemma {:induction false} Cleared(env: Env, m: Memory, a: u64, n: nat)
    requires WellFormed(env) && Inside(env.stack, a, n)
    ensures LoadLE(ClearStack(env, m), a, n) == 0
    decreases n
  {
    if n > 1 {
      Cleared(env, m, a + 1, n - 1);
    }
  }

  /** A load into R0 and a return: the value, or a trap exactly when the access is outside. */
  lemma LoadReturns(env: Env, code: seq<Code>, m: Memory, n: nat, s: CapState,
                                       w: Width, signed: bool, b: Reg, off: i16, region: Region, a: u64)
    requires WellFormed(env) && At(env, code, m, n, s) && s.pc + 1 < |code|
    requires code[s.pc] == CLoad(w, signed, 0, b, off) && code[s.pc + 1] == Ret
    requires s.regs[b].Cap? && s.regs[b].region == region && Wrap64(s.regs[b].addr + off) == a
    ensures if Inside(region, a, Bytes(w))
            then CapRun(env, code, m, n + 2) == Returned(LoadValue(s.mem, a, w, signed))
            else CapRun(env, code, m, n + 1) == Trapped(s.pc)
  {
    hide CapRun, CapStep, LoadValue, Wrap64, Inside;
    if Inside(region, a, Bytes(w)) {
      var v := LoadValue(s.mem, a, w, signed);
      LoadAt(env, code, m, n, s, w, signed, 0, b, off, a, v);
      ReturnAt(env, code, m, n + 1, Wrote(s, s.pc + 1, 0, Int(v)));
    } else {
      LoadTraps(env, code, m, n, s, w, signed, 0, b, off, a);
    }
  }

  // ----- loads through a moved copy of a root -----

  /** alias = root; alias += delta; r0 = *(w *)(alias + off); exit. */
  function LoadCode(alias: Reg, root: Reg, delta: i32, w: Width, signed: bool, off: i16): seq<Insn> {
    [Alu(Mov, alias, FromReg(root)), Alu(Add, alias, Imm(delta)), Load(w, signed, 0, alias, off), Exit]
  }

  function LoadOps(alias: Reg, root: Reg, delta: i32, w: Width, signed: bool, off: i16): seq<Code> {
    [CMov(alias, root), CMove(alias, Imm(delta), false), CLoad(w, signed, 0, alias, off), Ret]
  }

  predicate IsRoot(env: Env, r: Reg, region: Region, start: u64)
    requires WellFormed(env)
  {
    || (r == CONTEXT_REG && region == env.ctx && start == env.ctx.base)
    || (r == STACK_REG && region == env.stack && start == StackTop(env))
  }

  lemma LoadKinds(c: seq<Insn>, alias: Reg, root: Reg, delta: i32, w: Width, signed: bool, off: i16)
    requires c == LoadCode(alias, root, delta, w, signed, off) && root in {CONTEXT_REG, STACK_REG}
    ensures KindAt(c, 0, root).Capability? && KindAt(c, 1, alias).Capability? && KindAt(c, 2, alias).Capability?
    ensures KindAt(c, 3, 0) == Scalar
  {
    assert KindAt(c, 0, root).Capability?;
    assert KindAt(c, 1, alias).Capability?;
  }

  lemma LoadTranslates(vm: Vm, alias: Reg, root: Reg, delta: i32, w: Width, signed: bool, off: i16)
    requires vm.code == LoadCode(alias, root, delta, w, signed, off) && root in {CONTEXT_REG, STACK_REG}
    ensures Accepted(vm) && Compiled(vm) == LoadOps(alias, root, delta, w, signed, off)
  {
    hide KindAt, Compiled, Accepted;
    LoadKinds(vm.code, alias, root, delta, w, signed, off);
    StraightAccepted(vm);
    StraightCompiled(vm, 0);
    StraightCompiled(vm, 1);
    StraightCompiled(vm, 2);
    StraightCompiled(vm, 3);
  }

  /** The load returns what memory holds at the moved address, or traps if that is outside the root. */
  lemma MovedLoad(env: Env, vm: Vm, m: Memory, alias: Reg, root: Reg, region: Region, start: u64,
                                     delta: i32, w: Width, signed: bool, off: i16)
    requires WellFormed(env) && IsRoot(env, root, region, start)
    requires vm.code == LoadCode(alias, root, delta, w, signed, off)
    ensures Accepted(vm)
    ensures var a := Wrap64(Wrap64(start + Wrap64(delta)) as int + off);
            if Inside(region, a, Bytes(w))
            then CapRun(env, Compiled(vm), m, 4) == Returned(LoadValue(ClearStack(env, m), a, w, signed))
            else CapRun(env, Compiled(vm), m, 3) == Trapped(2)
  {
    hide Accepted, Compiled, CapRun, CapStep, LoadValue, StackTop, Wrap64, Inside;
    LoadTranslates(vm, alias, root, delta, w, signed, off);
    var code := Compiled(vm);
    var s0 := CapStart(env, m);
    StartAt(env, code, m);
    CopyAt(env, code, m, 0, s0, alias, root);
    var s1 := Wrote(s0, 1, alias, Cap(region, start));
    var p := Wrap64(start + Wrap64(delta));
    MoveAt(env, code, m, 1, s1, alias, Imm(delta), region, p);
    var s2 := Wrote(s1, 2, alias, Cap(region, p));
    LoadReturns(env, code, m, 2, s2, w, signed, alias, off, region, Wrap64(p as int + off));
  }

  /** Through the context: the bytes the caller passed, extended; a trap exactly when out of bounds. */
  lemma ContextLoads(env: Env, vm: Vm, m: Memory, alias: Reg, delta: i32, w: Width, signed: bool, off: i16)
    requires WellFormed(env) && vm.code == LoadCode(alias, CONTEXT_REG, delta, w, signed, off)
    ensures Accepted(vm)
    ensures var a := Wrap64(Wrap64(env.ctx.base + Wrap64(delta)) as int + off);
            if Inside(env.ctx, a, Bytes(w))
            then CapRun(env, Compiled(vm), m, 4) == Returned(LoadValue(m, a, w, signed))
            else CapRun(env, Compiled(vm), m, 3) == Trapped(2)
  {
    hide CapRun, LoadValue, Wrap64;
    MovedLoad(env, vm, m, alias, CONTEXT_REG, env.ctx, env.ctx.base, delta, w, signed, off);
    var a := Wrap64(Wrap64(env.ctx.base + Wrap64(delta)) as int + off);
    if Inside(env.ctx, a, Bytes(w)) {
      Uncleared(env, env.ctx, m, a, w, signed);
    }
  }

  /** Through the stack, never written: zero whatever was there; a trap exactly when out of bounds. */
  lemma StackLoads(env: Env, vm: Vm, m: Memory, alias: Reg, delta: i32, w: Width, signed: bool, off: i16)
    requires WellFormed(env) && vm.code == LoadCode(alias, STACK_REG, delta, w, signed, off)
    ensures Accepted(vm)
    ensures var a := Wrap64(Wrap64(StackTop(env) + Wrap64(delta)) as int + off);
            if Inside(env.stack, a, Bytes(w))
            then CapRun(env, Compiled(vm), m, 4) == Returned(0)
            else CapRun(env, Compiled(vm), m, 3) == Trapped(2)
  {
    hide CapRun, StackTop, Wrap64;
    MovedLoad(env, vm, m, alias, STACK_REG, env.stack, StackTop(env), delta, w, signed, off);
    var a := Wrap64(Wrap64(StackTop(env) + Wrap64(delta)) as int + off);
    if Inside(env.stack, a, Bytes(w)) {
      Cleared(env, m, a, Bytes(w));
    }
  }

  // ----- a stack store read back -----

  /** r0 = v; *(w *)(r10 + off) = r0; r0 = 0; r0 = *(w *)(r10 + off); exit. */
  function SpillCode(v: i32, w: Width, signed: bool, off: i16): seq<Insn> {
    [Alu(Mov, 0, Imm(v)), Store(w, 10, off, FromReg(0)), Alu(Mov, 0, Imm(0)), Load(w, signed, 0, 10, off), Exit]
  }

  function SpillOps(v: i32, w: Width, signed: bool, off: i16): seq<Code> {
    [XAlu(Mov, 0, Imm(v)), CStore(w, 10, off, FromReg(0)), XAlu(Mov, 0, Imm(0)), CLoad(w, signed, 0, 10, off), Ret]
  }

  lemma SpillTranslates(vm: Vm, v: i32, w: Width, signed: bool, off: i16)
    requires vm.code == SpillCode(v, w, signed, off)
    ensures Accepted(vm) && Compiled(vm) == SpillOps(v, w, signed, off)
  {
    hide KindAt, Compiled, Accepted;
    forall pc: nat | pc < 5
      ensures KindAt(vm.code, pc, 10) == Capability(Stack) && KindAt(vm.code, pc, 0) == Scalar
      ensures |Compiled(vm)| == |vm.code| && Compiled(vm)[pc] == Lower(vm.code[pc], pc, KindsAt(vm.code, pc))
    {
      NeverWritten(vm.code, pc, 10);
      AlwaysScalar(vm.code, pc, 0);
      StraightCompiled(vm, pc);
    }
    StraightAccepted(vm);
  }

  /** `v` cut to a width and extended back to 64 bits. */
  function Extended(v: u64, w: Width, signed: bool): u64 {
    var low := v % Limit(w);
    if signed && low >= Limit(w) / 2 then low + TWO_64 - Limit(w) else low
  }

  /** Up to the store. */
  lemma SpillStores(env: Env, code: seq<Code>, m: Memory, v: i32, w: Width, signed: bool, off: i16, a: u64)
    requires WellFormed(env) && code == SpillOps(v, w, signed, off) && a == Wrap64(StackTop(env) + off)
    ensures if Inside(env.stack, a, Bytes(w))
            then At(env, code, m, 2, Wrote(CapStart(env, m), 2, 0, Int(Wrap64(v))).(
                      mem := StoreLE(ClearStack(env, m), a, Bytes(w), Wrap64(v))))
            else CapRun(env, code, m, 2) == Trapped(1)
  {
    hide CapRun, CapStep, StoreLE, StackTop, Inside, Wrap64;
    var s0 := CapStart(env, m);
    StartAt(env, code, m);
    AluAt(env, code, m, 0, s0, Mov, 0, Imm(v), Wrap64(v));
    var s1 := Wrote(s0, 1, 0, Int(Wrap64(v)));
    if Inside(env.stack, a, Bytes(w)) {
      StoreAt(env, code, m, 1, s1, w, 10, off, FromReg(0), a);
    } else {
      StoreTraps(env, code, m, 1, s1, w, 10, off, FromReg(0), a);
    }
  }

  /** The stored value comes back cut to the width and extended; a trap exactly when out of bounds. */
  lemma StackSpills(env: Env, vm: Vm, m: Memory, v: i32, w: Width, signed: bool, off: i16)
    requires WellFormed(env) && vm.code == SpillCode(v, w, signed, off)
    ensures Accepted(vm)
    ensures if Inside(env.stack, Wrap64(StackTop(env) + off), Bytes(w))
            then CapRun(env, Compiled(vm), m, 5) == Returned(Extended(Wrap64(v), w, signed))
            else CapRun(env, Compiled(vm), m, 2) == Trapped(1)
  {
    SpillTranslates(vm, v, w, signed, off);
    var a := Wrap64(StackTop(env) + off);
    SpillStores(env, Compiled(vm), m, v, w, signed, off, a);
    if Inside(env.stack, a, Bytes(w)) {
      SpillReturns(env, Compiled(vm), m, v, w, signed, off, a);
    }
  }

  lemma SpillReturns(env: Env, code: seq<Code>, m: Memory, v: i32, w: Width, signed: bool, off: i16, a: u64)
    requires WellFormed(env) && code == SpillOps(v, w, signed, off) && a == Wrap64(StackTop(env) + off)
    requires Inside(env.stack, a, Bytes(w))
    ensures CapRun(env, code, m, 5) == Returned(Extended(Wrap64(v), w, signed))
  {
    assert Wrap64(0) == 0;
    hide CapRun, CapStep, LoadValue, StoreLE, StackTop, Wrap64, Extended;
    SpillStores(env, code, m, v, w, signed, off, a);
    StoreLoadRoundTrip(ClearStack(env, m), a, w, Wrap64(v), signed);
    var back := Extended(Wrap64(v), w, signed);
    var m2 := StoreLE(ClearStack(env, m), a, Bytes(w), Wrap64(v));
    var s2 := Wrote(CapStart(env, m), 2, 0, Int(Wrap64(v))).(mem := m2);
    AluAt(env, code, m, 2, s2, Mov, 0, Imm(0), 0);
    var s3 := Wrote(s2, 3, 0, Int(0));
    LoadAt(env, code, m, 3, s3, w, signed, 0, 10, off, a, back);
    ReturnAt(env, code, m, 4, Wrote(s3, 4, 0, Int(back)));
  }

  // ----- helper-returned map values -----

  function MapOps(use: Suite.MapUse, off: i16): seq<Code> {
    var keep, read := CMov(6, 0), CLoad(Double, false, 0, 6, off);
    var value, write := XAlu(Mov, 2, Imm(0x5a)), CStore(Double, 6, off, FromReg(2));
    match use
    case Reads => [CallMap, keep, read, Ret]
    case WritesAndReads => [CallMap, keep, value, write, read, Ret]
    case Writes => [CallMap, keep, value, write, XAlu(Mov, 0, Imm(0)), Ret]
  }

  lemma MapTranslates(vm: Vm, use: Suite.MapUse, off: i16)
    requires vm == Vm(Suite.Insns(Suite.MapRows(use, off)), Some(Suite.HELPER_MAP_LOOKUP))
    ensures Accepted(vm) && Compiled(vm) == MapOps(use, off)
  {
    hide KindAt, Compiled, Accepted;
    Suite.MapKinds(use, off, vm.code);
    Suite.MapVerdict(use, off, vm);
    StraightCompiled(vm, 0);
    forall pc: nat | pc < |vm.code|
      ensures Compiled(vm)[pc] == MapOps(use, off)[pc]
    {
      StraightCompiled(vm, pc);
    }
  }

  /** After the lookup R6 holds the map value, with its bounds. */
  lemma MapLookedUp(env: Env, code: seq<Code>, m: Memory) returns (s: CapState)
    requires WellFormed(env) && |code| > 2 && code[0] == CallMap && code[1] == CMov(6, 0)
    ensures At(env, code, m, 2, s) && s.pc == 2 && s.mem == ClearStack(env, m)
    ensures s.regs[6] == Cap(env.mapValue, env.mapValue.base)
  {
    hide CapRun, CapStep;
    var s0 := CapStart(env, m);
    StartAt(env, code, m);
    CallAt(env, code, m, 0, s0);
    var regs := seq(REGS, r requires 0 <= r < REGS => CallValue(env, s0.calls, s0.regs, r));
    var s1 := s0.(pc := 1, regs := regs, calls := 1);
    CopyAt(env, code, m, 1, s1, 6, 0);
    s := Wrote(s1, 2, 6, s1.regs[0]);
  }

  /** Reading through the looked-up value: the bytes of the map, or a trap outside it. */
  lemma MapReads(env: Env, vm: Vm, m: Memory, off: i16)
    requires WellFormed(env)
    requires vm == Vm(Suite.Insns(Suite.MapRows(Suite.Reads, off)), Some(Suite.HELPER_MAP_LOOKUP))
    ensures Accepted(vm)
    ensures var a := Wrap64(env.mapValue.base + off);
            if Inside(env.mapValue, a, 8)
            then CapRun(env, Compiled(vm), m, 4) == Returned(LoadValue(m, a, Double, false))
            else CapRun(env, Compiled(vm), m, 3) == Trapped(2)
  {
    hide Accepted, Compiled, CapRun, CapStep, LoadValue, Inside;
    MapTranslates(vm, Suite.Reads, off);
    var code := Compiled(vm);
    var a := Wrap64(env.mapValue.base + off);
    var s := MapLookedUp(env, code, m);
    LoadReturns(env, code, m, 2, s, Double, false, 6, off, env.mapValue, a);
    if Inside(env.mapValue, a, 8) {
      assert Disjoint(env.mapValue, env.stack);
      Uncleared(env, env.mapValue, m, a, Double, false);
    }
  }

  /** The store both writing programs make: the map changes there and nowhere else, or a trap. */
  lemma MapStored(env: Env, code: seq<Code>, m: Memory, use: Suite.MapUse, off: i16)
    returns (s: CapState)
    requires WellFormed(env) && use != Suite.Reads && code == MapOps(use, off)
    ensures var a := Wrap64(env.mapValue.base + off);
            if Inside(env.mapValue, a, 8)
            then At(env, code, m, 4, s) && s.pc == 4 && s.mem == StoreLE(ClearStack(env, m), a, 8, 0x5a)
                 && s.regs[6] == Cap(env.mapValue, env.mapValue.base)
            else CapRun(env, code, m, 4) == Trapped(3)
  {
    hide CapRun, CapStep, StoreLE;
    var a := Wrap64(env.mapValue.base + off);
    var s2 := MapLookedUp(env, code, m);
    AluAt(env, code, m, 2, s2, Mov, 2, Imm(0x5a), 0x5a);
    var s3 := Wrote(s2, 3, 2, Int(0x5a));
    s := s3;
    if Inside(env.mapValue, a, 8) {
      StoreAt(env, code, m, 3, s3, Double, 6, off, FromReg(2), a);
      s := s3.(pc := 4, mem := StoreLE(s3.mem, a, 8, 0x5a));
    } else {
      StoreTraps(env, code, m, 3, s3, Double, 6, off, FromReg(2), a);
    }
  }

  /** What the two writing programs return in bounds. */
  function MapResult(use: Suite.MapUse): u64 {
    if use == Suite.WritesAndReads then 0x5a else 0
  }

  /** Writing through the looked-up value returns, or traps at the store, exactly by its bounds. */
  lemma MapWrites(env: Env, vm: Vm, m: Memory, use: Suite.MapUse, off: i16)
    requires WellFormed(env) && use != Suite.Reads
    requires vm == Vm(Suite.Insns(Suite.MapRows(use, off)), Some(Suite.HELPER_MAP_LOOKUP))
    ensures Accepted(vm)
    ensures if Inside(env.mapValue, Wrap64(env.mapValue.base + off), 8)
            then CapRun(env, Compiled(vm), m, 6) == Returned(MapResult(use))
            else CapRun(env, Compiled(vm), m, 4) == Trapped(3)
  {
    hide Accepted, Compiled, CapRun, CapStep, StoreLE, LoadValue;
    MapTranslates(vm, use, off);
    var code := Compiled(vm);
    var a := Wrap64(env.mapValue.base + off);
    var s := MapStored(env, code, m, use, off);
    if Inside(env.mapValue, a, 8) {
      if use == Suite.WritesAndReads {
        StoreLoadRoundTrip(ClearStack(env, m), a, Double, 0x5a, false);
        LoadAt(env, code, m, 4, s, Double, false, 0, 6, off, a, 0x5a);
        ReturnAt(env, code, m, 5, Wrote(s, 5, 0, Int(0x5a)));
      } else {
        AluAt(env, code, m, 4, s, Mov, 0, Imm(0), 0);
        ReturnAt(env, code, m, 5, Wrote(s, 5, 0, Int(0)));
      }
    }
  }

  /**
   The exception in the frame of a run is real: when the map value is the context object, as in
   the harness, a map store changes context bytes.
   */
  lemma MapStoreReachesContext(env: Env, m: Memory, off: i16)
    requires WellFormed(env) && env.mapValue == env.ctx && 0 <= off && off + 8 <= env.ctx.length
    ensures var vm := Vm(Suite.Insns(Suite.MapRows(Suite.Writes, off)), Some(Suite.HELPER_MAP_LOOKUP));
            var o := CapRun(env, Compiled(vm), m, 4);
            && Accepted(vm) && o.Running?
            && LoadValue(o.state.mem, env.ctx.base + off, Double, false) == 0x5a
  {
    hide CapRun, CapStep, StoreLE, LoadValue;
    var vm := Vm(Suite.Insns(Suite.MapRows(Suite.Writes, off)), Some(Suite.HELPER_MAP_LOOKUP));
    MapTranslates(vm, Suite.Writes, off);
    var s := MapStored(env, Compiled(vm), m, Suite.Writes, off);
    StoreLoadRoundTrip(ClearStack(env, m), env.ctx.base + off, Double, 0x5a, false);
  }
}
