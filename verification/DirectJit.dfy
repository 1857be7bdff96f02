/**
 The direct generator: Morello words written into an executable page, and the
 construction of a 64-bit address in X19.
 */
module DirectJit {
  import opened Words
  import opened Ebpf
  import opened CapMachine
  import opened Morello

  datatype Program = Const42 | TagC0 | LenC0 | LoadC0

  const LDR_X0_C0: u32 := 0xf9400000
  const RET_C30: u32 := 0xc2c253c0

  /** None where the generator gives up. */
  function EncodeLdr(byteOffset: u32): Option<u32> {
    if byteOffset % 8 != 0 || byteOffset / 8 >= 0x1000 then None
    else Some(Or32(LDR_X0_C0, Shl(byteOffset / 8, 10)))
  }

  lemma LdrField(x: nat)
    requires x < 0x1000
    ensures Or32(LDR_X0_C0, Shl(x, 10)) == LDR_X0_C0 + 0x400 * x
  {
    ShlAmounts(x);
    OrAbove22(0x3e5, Shl(x, 10));
  }

  /** The word loads X0 through C0 at exactly the offset it was built from. */
  lemma LdrDecodes(byteOffset: u32)
    ensures EncodeLdr(byteOffset).Some? <==> byteOffset % 8 == 0 && byteOffset < 0x8000
    ensures EncodeLdr(byteOffset).Some? ==>
              DecodeWord(EncodeLdr(byteOffset).value) == Some(Ldr(0, 0, byteOffset))
  {
    if EncodeLdr(byteOffset).Some? {
      LdrField(byteOffset / 8);
      LoadFields(EncodeLdr(byteOffset).value, 0x3e5, byteOffset / 8, 0, 0);
    }
  }

  lemma LdrInjective(a: u32, b: u32)
    requires EncodeLdr(a).Some? && EncodeLdr(a) == EncodeLdr(b)
    ensures a == b
  {
    LdrDecodes(a);
    LdrDecodes(b);
  }

  function ProgramWords(p: Program, byteOffset: u32): Option<seq<u32>> {
    match p
    case Const42 => Some([0x52800540, RET_C30])
    case TagC0 => Some([0xc2c09008, 0xf100011f, 0x1a9f07e0, RET_C30])
    case LenC0 => Some([0xc2c03000, RET_C30])
    case LoadC0 =>
      match EncodeLdr(byteOffset)
      case Some(w) => Some([w, RET_C30])
      case None => None
  }

  /** Write a program at `pc`; None when the offset is refused, before anything is written. */
  method EmitProgram(code: array<u8>, pc: nat, p: Program, byteOffset: u32) returns (end: Option<nat>)
    requires pc + 16 <= code.Length
    modifies code
    ensures end.Some? <==> ProgramWords(p, byteOffset).Some?
    ensures end == None ==> code[..] == old(code[..])
    ensures end.Some? ==>
              var words := ProgramWords(p, byteOffset).value;
              end.value == pc + 4 * |words| && Written(code[..], old(code[..]), pc, words)
  {
    ghost var before := code[..];
    var at := pc;
    ghost var body: seq<u32>;
    match p {
      case Const42 =>
        at := EmitU32(code, at, 0x52800540, before, pc, []);
        body := [0x52800540];
      case TagC0 =>
        at := EmitU32(code, at, 0xc2c09008, before, pc, []);
        at := EmitU32(code, at, 0xf100011f, before, pc, [0xc2c09008]);
        at := EmitU32(code, at, 0x1a9f07e0, before, pc, [0xc2c09008] + [0xf100011f]);
        body := [0xc2c09008] + [0xf100011f] + [0x1a9f07e0];
      case LenC0 =>
        at := EmitU32(code, at, 0xc2c03000, before, pc, []);
        body := [0xc2c03000];
      case LoadC0 =>
        var w := EncodeLdr(byteOffset);
        if w == None {
          return None;
        }
        at := EmitU32(code, at, w.value, before, pc, []);
        body := [w.value];
    }
    at := EmitU32(code, at, RET_C30, before, pc, body);
    BodyThenRet(p, byteOffset, body);
    return Some(at);
  }

  lemma BodyThenRet(p: Program, byteOffset: u32, body: seq<u32>)
    requires match p {
               case Const42 => body == [0x52800540]
               case TagC0 => body == [0xc2c09008] + [0xf100011f] + [0x1a9f07e0]
               case LenC0 => body == [0xc2c03000]
               case LoadC0 => EncodeLdr(byteOffset).Some? && body == [EncodeLdr(byteOffset).value]
             }
    ensures ProgramWords(p, byteOffset) == Some(body + [RET_C30])
  {
    assert ProgramWords(p, byteOffset).value == body + [RET_C30];
  }

  function ProgramOps(p: Program, byteOffset: u32): seq<Option<A64>> {
    match p
    case Const42 => [Some(Movz(0, 42)), Some(Ret(30))]
    case TagC0 => [Some(GcTag(8, 0)), Some(CmpImm(8, 0)), Some(CsetNe(0)), Some(Ret(30))]
    case LenC0 => [Some(GcLen(0, 0)), Some(Ret(30))]
    case LoadC0 => [Some(Ldr(0, 0, byteOffset)), Some(Ret(30))]
  }

  lemma ConstantsDecode()
    ensures DecodeWord(RET_C30) == Some(Ret(30))
    ensures DecodeWord(0x52800540) == Some(Movz(0, 42))
    ensures DecodeWord(0xc2c09008) == Some(GcTag(8, 0))
    ensures DecodeWord(0xf100011f) == Some(CmpImm(8, 0))
    ensures DecodeWord(0x1a9f07e0) == Some(CsetNe(0))
    ensures DecodeWord(0xc2c03000) == Some(GcLen(0, 0))
  {
  }

  lemma ProgramDecodes(p: Program, byteOffset: u32)
    requires ProgramWords(p, byteOffset).Some?
    ensures Decoded(ProgramWords(p, byteOffset).value) == ProgramOps(p, byteOffset)
  {
    ConstantsDecode();
    if p == LoadC0 {
      LdrDecodes(byteOffset);
    }
  }

  /** An integer carries no bounds; the machine leaves its length undefined. */
  function LengthOf(v: Value): Exit {
    if v.Cap? && v.region.length < TWO_64 then Return(v.region.length) else Undefined
  }

  /** What each program returns. */
  function Meaning(p: Program, byteOffset: u32, cpu: Cpu): Exit {
    match p
    case Const42 => Return(42)
    case TagC0 => Return(if cpu.c[0].Cap? then 1 else 0)
    case LenC0 => LengthOf(cpu.c[0])
    case LoadC0 => LoadOutcome(cpu.c[0], byteOffset, cpu.mem)
  }

  /** Running the fetched bytes of any emitted program has its meaning. */
  lemma ProgramRuns(p: Program, byteOffset: u32, cpu: Cpu)
    requires ProgramWords(p, byteOffset).Some?
    ensures Run(Fetch(WordBytes(ProgramWords(p, byteOffset).value)), cpu) == Meaning(p, byteOffset, cpu)
  {
    FetchEmitted(ProgramWords(p, byteOffset).value);
    ProgramDecodes(p, byteOffset);
    match p
    case Const42 => ConstRuns(cpu);
    case TagC0 => TagRuns(cpu);
    case LenC0 => LenRuns(cpu);
    case LoadC0 => LoadReturns(byteOffset, cpu);
  }

  lemma ConstRuns(cpu: Cpu)
    ensures RunOps([Some(Movz(0, 42)), Some(Ret(30))], cpu) == Return(42)
  {
    assert [Some(Movz(0, 42)), Some(Ret(30))] == [Some(Movz(0, 42))] + [Some(Ret(30))];
    OpsOn(Movz(0, 42), [Some(Ret(30))], cpu);
    OpsReturn(Exec(Movz(0, 42), cpu).cpu);
  }

  lemma LenRuns(cpu: Cpu)
    ensures RunOps([Some(GcLen(0, 0)), Some(Ret(30))], cpu) == LengthOf(cpu.c[0])
  {
    assert [Some(GcLen(0, 0)), Some(Ret(30))] == [Some(GcLen(0, 0))] + [Some(Ret(30))];
    if Exec(GcLen(0, 0), cpu).Leave? {
      OpsLeave(GcLen(0, 0), [Some(Ret(30))], cpu);
    } else {
      OpsOn(GcLen(0, 0), [Some(Ret(30))], cpu);
      OpsReturn(Exec(GcLen(0, 0), cpu).cpu);
    }
  }

  lemma TagRuns(cpu: Cpu)
    ensures RunOps([Some(GcTag(8, 0)), Some(CmpImm(8, 0)), Some(CsetNe(0)), Some(Ret(30))], cpu)
         == Return(if cpu.c[0].Cap? then 1 else 0)
  {
    var ret := [Some(Ret(30))];
    var cpu1 := Exec(GcTag(8, 0), cpu).cpu;
    var cpu2 := Exec(CmpImm(8, 0), cpu1).cpu;
    assert [Some(GcTag(8, 0)), Some(CmpImm(8, 0)), Some(CsetNe(0)), Some(Ret(30))]
        == [Some(GcTag(8, 0))] + ([Some(CmpImm(8, 0))] + ([Some(CsetNe(0))] + ret));
    OpsOn(GcTag(8, 0), [Some(CmpImm(8, 0))] + ([Some(CsetNe(0))] + ret), cpu);
    OpsOn(CmpImm(8, 0), [Some(CsetNe(0))] + ret, cpu1);
    OpsOn(CsetNe(0), ret, cpu2);
    OpsReturn(Exec(CsetNe(0), cpu2).cpu);
  }

  // ----- movz/movk -----

  /** `movz x19, #lo; movk x19, #mid, lsl #16; movk x19, #hi, lsl #32`. */
  function AddressWords(address: u64): seq<u32> {
    [Or32(Or32(0xd2800000, Shl(address % 0x1_0000, 5)), 19),
     Or32(Or32(0xf2a00000, Shl((address / 0x1_0000) % 0x1_0000, 5)), 19),
     Or32(Or32(0xf2c00000, Shl((address / 0x1_0000_0000) % 0x1_0000, 5)), 19)]
  }

  /** Opcode, 16-bit immediate and register occupy separate bits of the word. */
  lemma MovWord(top: nat, imm: nat, rd: nat)
    requires top < 0x800 && imm < 0x1_0000 && rd < 32
    ensures var w := Or32(Or32(0x20_0000 * top, Shl(imm, 5)), rd);
            w / 0x20_0000 == top && w / 0x40_0000 == top / 2 && Imm16(w) == imm && Rd(w) == rd
  {
    ShlAmounts(imm);
    OrAbove21(top, Shl(imm, 5));
    OrAbove5(0x1_0000 * top + imm, rd);
    MoveFields(Or32(Or32(0x20_0000 * top, Shl(imm, 5)), rd), top, imm, rd);
  }

  lemma MovzDecodes(imm: nat)
    requires imm < 0x1_0000
    ensures DecodeWord(Or32(Or32(0xd2800000, Shl(imm, 5)), 19)) == Some(Movz(19, imm))
  {
    MovWord(0x694, imm, 19);
  }

  lemma MovkDecodes(imm: nat)
    requires imm < 0x1_0000
    ensures DecodeWord(Or32(Or32(0xf2a00000, Shl(imm, 5)), 19)) == Some(Movk(19, imm, 1))
    ensures DecodeWord(Or32(Or32(0xf2c00000, Shl(imm, 5)), 19)) == Some(Movk(19, imm, 2))
  {
    hide Or32, Shl, Imm16, Rd;
    MovWord(0x795, imm, 19);
    MovWord(0x796, imm, 19);
  }

  function WithX19(cpu: Cpu, v: u64): Cpu {
    cpu.(c := cpu.c[19 := Int(v)])
  }

  function AddressOps(lo: nat, mid: nat, hi: nat): seq<Option<A64>> {
    [Some(Movz(19, lo)), Some(Movk(19, mid, 1)), Some(Movk(19, hi, 2))]
  }

  lemma MovkStep(imm: nat, slot: nat, x: u64, cpu: Cpu, rest: seq<Option<A64>>)
    ensures RunOps([Some(Movk(19, imm, slot))] + rest, WithX19(cpu, x))
         == RunOps(rest, WithX19(cpu, SetSlot(x, imm, slot)))
  {
    OpsOn(Movk(19, imm, slot), rest, WithX19(cpu, x));
    assert cpu.c[19 := Int(x)][19 := Int(SetSlot(x, imm, slot))] == cpu.c[19 := Int(SetSlot(x, imm, slot))];
  }

  lemma ThreeMoves(lo: nat, mid: nat, hi: nat, cpu: Cpu, rest: seq<Option<A64>>)
    requires lo < 0x1_0000
    ensures RunOps(AddressOps(lo, mid, hi) + rest, cpu)
         == RunOps(rest, WithX19(cpu, SetSlot(SetSlot(lo, mid, 1), hi, 2)))
  {
    hide RunOps;
    var tail := [Some(Movk(19, hi, 2))] + rest;
    assert AddressOps(lo, mid, hi) + rest == [Some(Movz(19, lo))] + ([Some(Movk(19, mid, 1))] + tail);
    OpsOn(Movz(19, lo), [Some(Movk(19, mid, 1))] + tail, cpu);
    MovkStep(mid, 1, lo, cpu, tail);
    MovkStep(hi, 2, SetSlot(lo, mid, 1), cpu, rest);
  }

  lemma AddressDecodes(address: u64)
    ensures Decoded(AddressWords(address)) ==
              AddressOps(address % 0x1_0000, (address / 0x1_0000) % 0x1_0000, (address / 0x1_0000_0000) % 0x1_0000)
  {
    MovzDecodes(address % 0x1_0000);
    MovkDecodes((address / 0x1_0000) % 0x1_0000);
    MovkDecodes((address / 0x1_0000_0000) % 0x1_0000);
  }

  /** What the three immediates assemble to. */
  function Assembled(address: u64): u64 {
    SetSlot(SetSlot(address % 0x1_0000, (address / 0x1_0000) % 0x1_0000, 1), (address / 0x1_0000_0000) % 0x1_0000, 2)
  }

  lemma DecodedConcat(a: seq<u32>, b: seq<u32>)
    ensures Decoded(a + b) == Decoded(a) + Decoded(b)
  {
  }

  lemma AssembledIsAddress(address: u64)
    ensures Assembled(address) == address % 0x1_0000_0000_0000
  {
    SlotsAssemble(address % 0x1_0000, (address / 0x1_0000) % 0x1_0000, (address / 0x1_0000_0000) % 0x1_0000);
    ThreeSlots(address);
  }

  /** Executing the three words leaves the low 48 bits of the address in X19, untagged. */
  lemma AddressBuilt(address: u64, cpu: Cpu, rest: seq<u32>)
    ensures Run(AddressWords(address) + rest, cpu) == Run(rest, WithX19(cpu, address % 0x1_0000_0000_0000))
  {
    DecodedConcat(AddressWords(address), rest);
    AddressDecodes(address);
    var mid, hi := (address / 0x1_0000) % 0x1_0000, (address / 0x1_0000_0000) % 0x1_0000;
    ThreeMoves(address % 0x1_0000, mid, hi, cpu, Decoded(rest));
    AssembledIsAddress(address);
  }

  lemma SlotsAssemble(lo: nat, mid: nat, hi: nat)
    requires lo < 0x1_0000 && mid < 0x1_0000 && hi < 0x1_0000
    ensures SetSlot(lo, mid, 1) == lo + 0x1_0000 * mid
    ensures SetSlot(SetSlot(lo, mid, 1), hi, 2) == lo + 0x1_0000 * mid + 0x1_0000_0000 * hi
  {
    var low := lo + 0x1_0000 * mid;
    assert SetSlot(lo, mid, 1) == low;
    assert low / 0x1_0000_0000 == 0;
  }

  lemma ThreeSlots(a: nat)
    ensures a % 0x1_0000_0000_0000
         == a % 0x1_0000 + 0x1_0000 * ((a / 0x1_0000) % 0x1_0000) + 0x1_0000_0000 * ((a / 0x1_0000_0000) % 0x1_0000)
  {
    assert a / 0x1_0000 / 0x1_0000 == a / 0x1_0000_0000;
  }
}
