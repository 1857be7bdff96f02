/**
 What compiled code can touch: provenance of every tagged capability, non-interference from
 memory outside the three objects, and the frame of its stores.
 */
module Isolation {
  import opened Words
  import opened Ebpf
  import opened Contract
  import opened Kinds
  import opened Codegen
  import opened CapMachine
  import opened Soundness

  // ----- memory lemmas -----

  lemma {:induction false} StoreFrame(m: Memory, a: u64, n: nat, v: nat, x: u64)
    requires a + n <= TWO_64 && !(a <= x < a + n)
    ensures ReadByte(StoreLE(m, a, n, v), x) == ReadByte(m, x)
    decreases n
  {
    if n > 1 {
      StoreFrame(m[a := v % 0x100], a + 1, n - 1, v / 0x100, x);
    }
  }

  lemma {:induction false} StoreSame(m1: Memory, m2: Memory, a: u64, n: nat, v: nat, x: u64)
    requires ReadByte(m1, x) == ReadByte(m2, x)
    ensures ReadByte(StoreLE(m1, a, n, v), x) == ReadByte(StoreLE(m2, a, n, v), x)
    decreases n
  {
    if n > 0 {
      StoreSame(m1[a := v % 0x100], m2[a := v % 0x100], Wrap64(a + 1), n - 1, v / 0x100, x);
    }
  }

  lemma NoWrap(a: nat)
    requires a < TWO_64
    ensures Wrap64(a) == a
  {
  }

  lemma {:induction false} LoadSame(m1: Memory, m2: Memory, a: u64, n: nat)
    requires a + n <= TWO_64
    requires forall x: u64 | a <= x < a + n :: ReadByte(m1, x) == ReadByte(m2, x)
    ensures LoadLE(m1, a, n) == LoadLE(m2, a, n)
    decreases n
  {
    if n > 0 {
      assert ReadByte(m1, a) == ReadByte(m2, a);
      hide ReadByte, Wrap64;
      if n > 1 {
        NoWrap(a + 1);
        LoadSame(m1, m2, a + 1, n - 1);
      }
    }
  }

  /** A stored value is read back truncated to the access width. */
  lemma {:induction false} LoadAfterStore(m: Memory, a: u64, n: nat, v: nat)
    requires a + n <= TWO_64
    ensures LoadLE(StoreLE(m, a, n, v), a, n) == FromLE(ToLE(v, n))
    decreases n
  {
    if n > 0 {
      LowByte(v, n - 1);
      LoadFirst(m, a, n, v);
      if n > 1 {
        LoadAfterStore(m[a := v % 0x100], a + 1, n - 1, v / 0x100);
      }
    }
  }

  lemma LoadFirst(m: Memory, a: u64, n: nat, v: nat)
    requires 0 < n && a + n <= TWO_64
    ensures LoadLE(StoreLE(m, a, n, v), a, n) == v % 0x100 +
              0x100 * (if n == 1 then 0 else
                       LoadLE(StoreLE(m[a := v % 0x100], a + 1, n - 1, v / 0x100), a + 1, n - 1))
  {
    hide Wrap64;
    var b, m' := v % 0x100, m[a := v % 0x100];
    var after := StoreLE(m', Wrap64(a + 1), n - 1, v / 0x100);
    assert StoreLE(m, a, n, v) == after;
    assert ReadByte(m', a) == b;
    if n > 1 {
      NoWrap(a + 1);
      StoreFrame(m', a + 1, n - 1, v / 0x100, a);
    } else {
      assert after == m';
    }
    hide StoreLE, ReadByte;
    assert LoadLE(after, a, n) == ReadByte(after, a) + 0x100 * LoadLE(after, Wrap64(a + 1), n - 1);
  }

  lemma TruncatesToWidth(v: u64, w: Width)
    ensures FromLE(ToLE(v, Bytes(w))) == v % Limit(w)
  {
    hide FromLE, ToLE;
    match w
    case Byte => LowByte(v, 0); NoBytes(v / 0x100);
    case Half => LowHalf(v, 0);
    case Word => LowWord(v);
    case Double => LimitIsPow256(Double); FromToLE(v, 8);
  }

  lemma NoBytes(v: nat)
    ensures FromLE(ToLE(v, 0)) == 0
  {
  }

  lemma LowWord(v: nat)
    ensures FromLE(ToLE(v, 4)) == v % 0x1_0000_0000
  {
    hide FromLE, ToLE;
    LowHalf(v, 2);
    LowHalf(v / 0x1_0000, 0);
    TwoHalves(v);
  }

  lemma TwoHalves(v: nat)
    ensures v % 0x1_0000_0000 == v % 0x1_0000 + 0x1_0000 * ((v / 0x1_0000) % 0x1_0000)
  {
  }

  lemma LowByte(v: nat, n: nat)
    ensures FromLE(ToLE(v, n + 1)) == v % 0x100 + 0x100 * FromLE(ToLE(v / 0x100, n))
  {
    assert ToLE(v, n + 1)[1..] == ToLE(v / 0x100, n);
  }

  lemma LowHalf(v: nat, n: nat)
    ensures FromLE(ToLE(v, n + 2)) == v % 0x1_0000 + 0x1_0000 * FromLE(ToLE(v / 0x1_0000, n))
    ensures n == 0 ==> FromLE(ToLE(v, 2)) == v % 0x1_0000
  {
    hide FromLE, ToLE;
    NoBytes(v / 0x1_0000);
    LowByte(v, n + 1);
    LowByte(v / 0x100, n);
    TwoBytes(v, FromLE(ToLE(v / 0x1_0000, n)));
  }

  lemma TwoBytes(v: nat, rest: nat)
    ensures v / 0x100 / 0x100 == v / 0x1_0000
    ensures v % 0x100 + 0x100 * (v / 0x100 % 0x100 + 0x100 * rest) == v % 0x1_0000 + 0x1_0000 * rest
  {
  }

  /** Stores then loads of one width and address, zero- or sign-extended. */
  lemma StoreLoadRoundTrip(m: Memory, a: u64, w: Width, v: u64, signed: bool)
    requires a + Bytes(w) <= TWO_64
    ensures var low := v % Limit(w);
            LoadValue(StoreLE(m, a, Bytes(w), v), a, w, signed) ==
              if signed && low >= Limit(w) / 2 then low + TWO_64 - Limit(w) else low
  {
    LoadAfterStore(m, a, Bytes(w), v);
    TruncatesToWidth(v, w);
  }

  lemma LoadTwo(m: Memory, a: u64, n: nat)
    requires a + 2 + n <= TWO_64
    ensures LoadLE(m, a, n + 2)
         == ReadByte(m, a) + 0x100 * ReadByte(m, a + 1) as int + 0x1_0000 * if n == 0 then 0 else LoadLE(m, a + 2, n)
  {
    NoWrap(a + 1);
    if n > 0 {
      NoWrap(a + 2);
    }
  }

  /** Which bytes an access of each width reads, low byte first. */
  lemma LoadsBytes(m: Memory, a: u64, w: Width)
    requires a + Bytes(w) <= TWO_64
    ensures LoadValue(m, a, w, false) ==
              match w
              case Byte => ReadByte(m, a)
              case Half => ReadByte(m, a) + 0x100 * ReadByte(m, a + 1) as int
              case Word => LoadValue(m, a, Half, false) + 0x1_0000 * LoadValue(m, a + 2, Half, false)
              case Double => LoadValue(m, a, Word, false) + 0x1_0000_0000 * LoadValue(m, a + 4, Word, false)
  {
    match w
    case Byte => assert LoadLE(m, a, 1) == ReadByte(m, a) + 0x100 * LoadLE(m, Wrap64(a + 1), 0);
    case Half => LoadTwo(m, a, 0);
    case Word => LoadsWord(m, a);
    case Double => LoadsDouble(m, a);
  }

  lemma LoadsWord(m: Memory, a: u64)
    requires a + 4 <= TWO_64
    ensures LoadValue(m, a, Word, false) == LoadValue(m, a, Half, false) + 0x1_0000 * LoadValue(m, a + 2, Half, false)
  {
    hide LoadLE, ReadByte;
    LoadTwo(m, a, 2);
    LoadTwo(m, a, 0);
  }

  lemma LoadsDouble(m: Memory, a: u64)
    requires a + 8 <= TWO_64
    ensures LoadValue(m, a, Double, false)
         == LoadValue(m, a, Word, false) + 0x1_0000_0000 * LoadValue(m, a + 4, Word, false)
  {
    hide LoadLE, ReadByte;
    LoadTwo(m, a, 6);
    LoadTwo(m, a + 2, 4);
    LoadTwo(m, a, 2);
    LoadTwo(m, a + 2, 0);
  }

  // ----- provenance -----

  /** A tagged value has a root's bounds. */
  ghost predicate FromRoot(env: Env, v: Value) {
    v.Cap? ==> v.region == env.ctx || v.region == env.stack || v.region == env.mapValue
  }

  lemma RunPrefix(env: Env, code: seq<Code>, m: Memory, n: nat)
    requires WellFormed(env) && CapRun(env, code, m, n + 1).Running?
    ensures CapRun(env, code, m, n).Running?
  {
  }

  lemma StepFromRoot(env: Env, code: seq<Code>, s: CapState, r: Reg)
    requires WellFormed(env) && |s.regs| == REGS && CapStep(env, code, s).Running?
    requires forall q: Reg :: FromRoot(env, s.regs[q])
    ensures FromRoot(env, CapStep(env, code, s).state.regs[r])
  {
    assert FromRoot(env, s.regs[r]);
    match code[s.pc]
    case CMov(d, from) => assert FromRoot(env, s.regs[from]);
    case CMove(d, _, _) => assert FromRoot(env, s.regs[d]);
    case _ =>
  }

  /** No code whatsoever forges a capability or changes the bounds of one. */
  lemma {:induction false} Provenance(env: Env, code: seq<Code>, m: Memory, n: nat)
    requires WellFormed(env) && CapRun(env, code, m, n).Running?
    ensures var s := CapRun(env, code, m, n).state;
            forall r: Reg :: FromRoot(env, s.regs[r])
  {
    if n > 0 {
      RunPrefix(env, code, m, n - 1);
      Provenance(env, code, m, n - 1);
      var s, s' := CapRun(env, code, m, n - 1).state, CapRun(env, code, m, n).state;
      forall r: Reg
        ensures FromRoot(env, s'.regs[r])
      {
        StepFromRoot(env, code, s, r);
      }
    }
  }

  // ----- non-interference -----

  predicate Visible(env: Env, a: u64) {
    Inside(env.ctx, a, 1) || Inside(env.stack, a, 1) || Inside(env.mapValue, a, 1)
  }

  ghost predicate Agree(env: Env, m1: Memory, m2: Memory) {
    forall a: u64 | Visible(env, a) :: ReadByte(m1, a) == ReadByte(m2, a)
  }

  /** Equal in everything the program can see. */
  ghost predicate SameView(env: Env, o1: Outcome<CapState>, o2: Outcome<CapState>) {
    match (o1, o2)
    case (Running(s), Running(t)) => s.pc == t.pc && s.regs == t.regs && s.calls == t.calls && Agree(env, s.mem, t.mem)
    case _ => o1 == o2
  }

  lemma LoadSameView(env: Env, s: CapState, t: CapState, v: Value, a: u64, w: Width, signed: bool)
    requires WellFormed(env) && Agree(env, s.mem, t.mem)
    requires FromRoot(env, v) && Authorises(v, a, Bytes(w))
    ensures LoadValue(s.mem, a, w, signed) == LoadValue(t.mem, a, w, signed)
  {
    VisibleRange(env, v, a, Bytes(w));
    LoadSame(s.mem, t.mem, a, Bytes(w));
  }

  lemma StoreSameView(env: Env, s: CapState, t: CapState, a: u64, n: nat, v: nat)
    requires Agree(env, s.mem, t.mem)
    ensures Agree(env, StoreLE(s.mem, a, n, v), StoreLE(t.mem, a, n, v))
  {
    forall x: u64 | Visible(env, x)
      ensures ReadByte(StoreLE(s.mem, a, n, v), x) == ReadByte(StoreLE(t.mem, a, n, v), x)
    {
      StoreSame(s.mem, t.mem, a, n, v, x);
    }
  }

  lemma StepSameView(env: Env, code: seq<Code>, s: CapState, t: CapState)
    requires WellFormed(env) && |s.regs| == REGS
    requires SameView(env, Running(s), Running(t))
    requires forall r: Reg :: FromRoot(env, s.regs[r])
    ensures SameView(env, CapStep(env, code, s), CapStep(env, code, t))
  {
    hide LoadValue, StoreLE, AluEval;
    if s.pc < |code| {
      match code[s.pc]
      case CLoad(w, sx, d, b, off) =>
        var a := Wrap64(Bits(s.regs[b]) + off);
        if Authorises(s.regs[b], a, Bytes(w)) {
          assert FromRoot(env, s.regs[b]);
          LoadSameView(env, s, t, s.regs[b], a, w, sx);
        }
      case CStore(w, b, off, src) =>
        StoreSameView(env, s, t, Wrap64(Bits(s.regs[b]) + off), Bytes(w), OperandBits(s.regs, src));
      case _ =>
    }
  }

  lemma VisibleRange(env: Env, v: Value, a: u64, n: nat)
    requires WellFormed(env) && FromRoot(env, v) && Authorises(v, a, n)
    ensures a + n <= TWO_64 && forall x: u64 | a <= x < a + n :: Visible(env, x)
  {
  }

  /**
   Two runs of the same code from memories that agree on the context and the map value, but
   differ anywhere else including the old stack bytes, are indistinguishable.
   */
  lemma {:induction false} NonInterference(env: Env, code: seq<Code>, m1: Memory, m2: Memory, n: nat)
    requires WellFormed(env)
    requires forall a: u64 | Inside(env.ctx, a, 1) || Inside(env.mapValue, a, 1) :: ReadByte(m1, a) == ReadByte(m2, a)
    ensures SameView(env, CapRun(env, code, m1, n), CapRun(env, code, m2, n))
  {
    if n > 0 {
      NonInterference(env, code, m1, m2, n - 1);
      if CapRun(env, code, m1, n - 1).Running? {
        Provenance(env, code, m1, n - 1);
        StepSameView(env, code, CapRun(env, code, m1, n - 1).state, CapRun(env, code, m2, n - 1).state);
      }
    }
  }

  // ----- frame -----

  /** Bytes a program may write: its stack, and the map value if a helper returns one. */
  predicate MayWrite(env: Env, vm: Vm, a: u64) {
    Inside(env.stack, a, 1) || (vm.mapHelper.Some? && Inside(env.mapValue, a, 1))
  }

  /** Stores are the only operations that change memory, and only where authorised. */
  lemma OnlyStoresWrite(env: Env, code: seq<Code>, s: CapState)
    requires WellFormed(env) && |s.regs| == REGS && s.pc < |code|
    requires CapStep(env, code, s).Running?
    ensures !code[s.pc].CStore? ==> CapStep(env, code, s).state.mem == s.mem
    ensures code[s.pc].CStore? ==>
              var CStore(w, b, off, src) := code[s.pc];
              var ea := Wrap64(Bits(s.regs[b]) + off);
              && Authorises(s.regs[b], ea, Bytes(w))
              && CapStep(env, code, s).state.mem == StoreLE(s.mem, ea, Bytes(w), OperandBits(s.regs, src))
  {
  }

  lemma LowersToStore(insn: Insn, pc: nat, ks: KindMap)
    ensures Lower(insn, pc, ks).CStore? <==> insn.Store?
    ensures insn.Store? ==> Lower(insn, pc, ks) == CStore(insn.width, insn.base, insn.off, insn.src)
  {
  }

  /** Without a map helper no admitted base is a map value. */
  lemma NoMapBase(vm: Vm, pc: nat, b: Reg)
    requires Accepted(vm) && vm.mapHelper == None && Reaches(vm, pc)
    ensures Mop(vm, pc)[b] != Capability(MapValue)
  {
    MopAgrees(vm, pc, b, MapValue);
    var p :| PathTo(vm, p, pc);
    NoMapValue(vm, p, b);
  }

  /**
   One step of compiled code: a byte that changes was written by a store whose base the
   analysis calls stack or map value, inside that root.
   */
  lemma WritesThroughRoot(env: Env, vm: Vm, m: Memory, n: nat, a: u64)
    requires WellFormed(env) && Accepted(vm)
    requires CapRun(env, Compiled(vm), m, n).Running? && CapRun(env, Compiled(vm), m, n + 1).Running?
    requires ReadByte(CapRun(env, Compiled(vm), m, n).state.mem, a)
          != ReadByte(CapRun(env, Compiled(vm), m, n + 1).state.mem, a)
    ensures var s := CapRun(env, Compiled(vm), m, n).state;
            && s.pc < |vm.code| && vm.code[s.pc].Store?
            && var k := Mop(vm, s.pc)[vm.code[s.pc].base];
            || (k == Capability(Stack) && Inside(env.stack, a, 1))
            || (k == Capability(MapValue) && vm.mapHelper.Some? && Inside(env.mapValue, a, 1))
  {
    var s := CapRun(env, Compiled(vm), m, n).state;
    KindsSound(env, vm, m, n, 0);
    StepGoes(env, vm, s);
    StepWritesStore(env, vm, s, a);
    var b := vm.code[s.pc].base;
    KindsSound(env, vm, m, n, b);
    if vm.mapHelper == None {
      NoMapBase(vm, s.pc, b);
    }
  }

  lemma StepWritesStore(env: Env, vm: Vm, s: CapState, a: u64)
    requires WellFormed(env) && |s.regs| == REGS && s.pc < |vm.code|
    requires Compiled(vm)[s.pc] == Lower(vm.code[s.pc], s.pc, Mop(vm, s.pc))
    requires CapStep(env, Compiled(vm), s).Running?
    requires ReadByte(CapStep(env, Compiled(vm), s).state.mem, a) != ReadByte(s.mem, a)
    ensures vm.code[s.pc].Store?
    ensures var base := s.regs[vm.code[s.pc].base];
            base.Cap? && (base.region.base + base.region.length <= TWO_64 ==> Inside(base.region, a, 1))
  {
    OnlyStoresWrite(env, Compiled(vm), s);
    LowersToStore(vm.code[s.pc], s.pc, Mop(vm, s.pc));
    var Store(w, b, off, src) := vm.code[s.pc];
    if s.regs[b].region.base + s.regs[b].region.length <= TWO_64 {
      StoreInside(s.mem, s.regs[b], Wrap64(Bits(s.regs[b]) + off), Bytes(w), OperandBits(s.regs, src), a);
    }
  }

  lemma StoreInside(m: Memory, base: Value, ea: u64, n: nat, v: nat, a: u64)
    requires Authorises(base, ea, n) && base.region.base + base.region.length <= TWO_64
    requires ReadByte(StoreLE(m, ea, n, v), a) != ReadByte(m, a)
    ensures Inside(base.region, a, 1)
  {
    if a < ea || ea + n <= a {
      StoreFrame(m, ea, n, v, a);
    }
  }

  lemma StartFrame(env: Env, m: Memory, a: u64)
    requires !Inside(env.stack, a, 1)
    ensures ReadByte(ClearStack(env, m), a) == ReadByte(m, a)
  {
  }

  /** Clearing the stack does not disturb an object beside it. */
  lemma Uncleared(env: Env, region: Region, m: Memory, a: u64, w: Width, signed: bool)
    requires WellFormed(env) && Disjoint(region, env.stack) && region.base + region.length <= TWO_64
    requires Inside(region, a, Bytes(w))
    ensures LoadValue(ClearStack(env, m), a, w, signed) == LoadValue(m, a, w, signed)
  {
    forall x: u64 | a <= x < a + Bytes(w)
      ensures ReadByte(ClearStack(env, m), x) == ReadByte(m, x)
    {
      StartFrame(env, m, x);
    }
    LoadSame(ClearStack(env, m), m, a, Bytes(w));
  }

  ghost predicate Untouched(m: Memory, o: Outcome<CapState>, a: u64) {
    o.Running? ==> ReadByte(o.state.mem, a) == ReadByte(m, a)
  }

  lemma FrameStep(env: Env, vm: Vm, m: Memory, n: nat, a: u64)
    requires WellFormed(env) && Accepted(vm) && !MayWrite(env, vm, a)
    requires CapRun(env, Compiled(vm), m, n).Running?
    requires Untouched(m, CapRun(env, Compiled(vm), m, n), a)
    ensures Untouched(m, CapRun(env, Compiled(vm), m, n + 1), a)
  {
    var o, o' := CapRun(env, Compiled(vm), m, n), CapRun(env, Compiled(vm), m, n + 1);
    if o'.Running? && ReadByte(o.state.mem, a) != ReadByte(o'.state.mem, a) {
      WritesThroughRoot(env, vm, m, n, a);
    }
  }

  /** Over a whole run nothing else changes. */
  lemma {:induction false} Frame(env: Env, vm: Vm, m: Memory, n: nat, a: u64)
    requires WellFormed(env) && Accepted(vm) && !MayWrite(env, vm, a)
    ensures Untouched(m, CapRun(env, Compiled(vm), m, n), a)
  {
    if n == 0 {
      StartFrame(env, m, a);
    } else {
      Frame(env, vm, m, n - 1, a);
      if CapRun(env, Compiled(vm), m, n - 1).Running? {
        FrameStep(env, vm, m, n - 1, a);
      }
    }
  }

  /** With no map helper a program cannot change its context. */
  lemma ContextImmutable(env: Env, vm: Vm, m: Memory, n: nat, a: u64)
    requires WellFormed(env) && Accepted(vm) && Inside(env.ctx, a, 1)
    requires vm.mapHelper == None || !Inside(env.mapValue, a, 1)
    ensures Untouched(m, CapRun(env, Compiled(vm), m, n), a)
  {
    Frame(env, vm, m, n, a);
  }
}
