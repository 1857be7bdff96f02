/**
 The instruction set as a table of opcode bytes (RFC 9669, sections 3 to 5), and that the
 loader, which takes an opcode apart into class, operation, size and mode, reads bytes exactly so.
 */
module Opcodes {
  import opened Words
  import opened Ebpf
  import opened Bytecode

  // ----- the table -----

  /** Operation, and whether the second operand is a register. */
  function AluEntry(op: u8): Option<(AluOp, bool)> {
    match op
    case 0x07 => Some((Add, false)) case 0x0f => Some((Add, true))
    case 0x17 => Some((Sub, false)) case 0x1f => Some((Sub, true))
    case 0x47 => Some((OrOp, false)) case 0x4f => Some((OrOp, true))
    case 0x57 => Some((AndOp, false)) case 0x5f => Some((AndOp, true))
    case 0x67 => Some((Lsh, false)) case 0x6f => Some((Lsh, true))
    case 0x77 => Some((Rsh, false)) case 0x7f => Some((Rsh, true))
    case 0xa7 => Some((XorOp, false)) case 0xaf => Some((XorOp, true))
    case 0xb7 => Some((Mov, false)) case 0xbf => Some((Mov, true))
    case 0xc7 => Some((Arsh, false)) case 0xcf => Some((Arsh, true))
    case _ => None
  }

  /** Condition, and whether the second operand is a register. */
  function JumpEntry(op: u8): Option<(Cond, bool)> {
    match op
    case 0x15 => Some((Eq, false)) case 0x1d => Some((Eq, true))
    case 0x25 => Some((Gt, false)) case 0x2d => Some((Gt, true))
    case 0x35 => Some((Ge, false)) case 0x3d => Some((Ge, true))
    case 0x45 => Some((Set, false)) case 0x4d => Some((Set, true))
    case 0x55 => Some((Ne, false)) case 0x5d => Some((Ne, true))
    case 0x65 => Some((Sgt, false)) case 0x6d => Some((Sgt, true))
    case 0x75 => Some((Sge, false)) case 0x7d => Some((Sge, true))
    case 0xa5 => Some((Lt, false)) case 0xad => Some((Lt, true))
    case 0xb5 => Some((Le, false)) case 0xbd => Some((Le, true))
    case 0xc5 => Some((Slt, false)) case 0xcd => Some((Slt, true))
    case 0xd5 => Some((Sle, false)) case 0xdd => Some((Sle, true))
    case _ => None
  }

  /** Width, and whether the value is sign-extended. */
  function LoadEntry(op: u8): Option<(Width, bool)> {
    match op
    case 0x61 => Some((Word, false)) case 0x81 => Some((Word, true))
    case 0x69 => Some((Half, false)) case 0x89 => Some((Half, true))
    case 0x71 => Some((Byte, false)) case 0x91 => Some((Byte, true))
    case 0x79 => Some((Double, false))
    case _ => None
  }

  /** Width, and whether the stored value is a register. */
  function StoreEntry(op: u8): Option<(Width, bool)> {
    match op
    case 0x62 => Some((Word, false)) case 0x63 => Some((Word, true))
    case 0x6a => Some((Half, false)) case 0x6b => Some((Half, true))
    case 0x72 => Some((Byte, false)) case 0x73 => Some((Byte, true))
    case 0x7a => Some((Double, false)) case 0x7b => Some((Double, true))
    case _ => None
  }

  function Second(reg: bool, s: Reg, imm: i32): Operand {
    if reg then FromReg(s) else Imm(imm)
  }

  function Entry(op: u8, d: Reg, s: Reg, off: i16, imm: i32): Insn {
    if AluEntry(op).Some? then
      var (o, reg) := AluEntry(op).value;
      if off == 0 then Alu(o, d, Second(reg, s, imm)) else Unsupported(op)
    else if JumpEntry(op).Some? then
      var (c, reg) := JumpEntry(op).value;
      JumpIf(c, d, Second(reg, s, imm), off)
    else if LoadEntry(op).Some? then
      var (w, signed) := LoadEntry(op).value;
      Load(w, signed, d, s, off)
    else if StoreEntry(op).Some? then
      var (w, reg) := StoreEntry(op).value;
      Store(w, d, off, Second(reg, s, imm))
    else if op == 0x05 then Jump(off)
    else if op == 0x85 && s == 0 then Call(imm)
    else if op == 0x95 then Exit
    else Unsupported(op)
  }

  // ----- the fields of a slot -----

  function Signed16(lo: u8, hi: u8): i16 {
    lo + 0x100 * hi - if hi >= 0x80 then 0x1_0000 else 0
  }

  function Unsigned32(b0: u8, b1: u8, b2: u8, b3: u8): u32 {
    b0 as int + 0x100 * (b1 as int) + 0x1_0000 * (b2 as int) + 0x100_0000 * (b3 as int)
  }

  function Signed32(b0: u8, b1: u8, b2: u8, b3: u8): i32 {
    Unsigned32(b0, b1, b2, b3) - if b3 >= 0x80 then 0x1_0000_0000 else 0
  }

  /** Slot `i` by the table; a two-slot constant takes its high half from the next slot's immediate. */
  function TableInsn(bytes: seq<u8>, i: nat): Insn
    requires 8 * i + 8 <= |bytes|
  {
    var b := bytes[8 * i..8 * i + 8];
    var d, s, off := b[1] % 16, b[1] / 16, Signed16(b[2], b[3]);
    if d >= 11 || s >= 11 then Unsupported(b[0])
    else if b[0] != 0x18 then Entry(b[0], d, s, off, Signed32(b[4], b[5], b[6], b[7]))
    else if s == 0 && off == 0 && 8 * i + 16 <= |bytes| && bytes[8 * i + 8] == 0 then
      var value := b[4..8] + bytes[8 * i + 12..8 * i + 16];
      EightBytes(value);
      Const64(d, FromLE(value))
    else Unsupported(0x18)
  }

  lemma EightBytes(b: seq<u8>)
    requires |b| == 8
    ensures FromLE(b) < TWO_64
  {
    LimitIsPow256(Double);
  }

  // ----- the loader follows it -----

  lemma AluClass(op: u8)
    requires op % 8 == 7
    ensures AluEntry(op) == match AluOf(op / 16) case None => None case Some(o) => Some((o, (op / 8) % 2 == 1))
  {
  }

  lemma JumpClass(op: u8)
    requires op % 8 == 5
    ensures JumpEntry(op) == match CondOf(op / 16) case None => None case Some(c) => Some((c, (op / 8) % 2 == 1))
  {
  }

  lemma LoadClass(op: u8)
    requires op % 8 == 1
    ensures LoadEntry(op) ==
              if op / 32 == MODE_MEM then Some((WidthOf(op), false))
              else if op / 32 == MODE_MEMSX && WidthOf(op) != Double then Some((WidthOf(op), true))
              else None
  {
  }

  lemma StoreClass(op: u8)
    requires op % 8 == 2 || op % 8 == 3
    ensures StoreEntry(op) == if op / 32 == MODE_MEM then Some((WidthOf(op), op % 8 == 3)) else None
  {
  }

  lemma OnlyItsClass(op: u8)
    ensures AluEntry(op).Some? ==> op % 8 == 7
    ensures JumpEntry(op).Some? ==> op % 8 == 5
    ensures LoadEntry(op).Some? ==> op % 8 == 1
    ensures StoreEntry(op).Some? ==> op % 8 in {2, 3}
  {
  }

  /** Every opcode byte but that of the two-slot constant, whatever the other fields and the next slot. */
  lemma EntryDecides(r: Raw, next: Option<Raw>)
    requires InRange(r) && r.dst < REGS && r.src < REGS && r.op != LDDW
    ensures InsnOf(r, next) == Entry(r.op, r.dst, r.src, r.off, r.imm)
  {
    OnlyItsClass(r.op);
    if r.op % 8 == 7 { AluClass(r.op); }
    if r.op % 8 == 5 { JumpClass(r.op); }
    if r.op % 8 == 1 { LoadClass(r.op); }
    if r.op % 8 in {2, 3} { StoreClass(r.op); }
    hide AluOf, CondOf, AluEntry, JumpEntry, LoadEntry, StoreEntry, WidthOf;
  }

  lemma SlotFields(b: seq<u8>)
    requires |b| == 8
    ensures Decode(b) == Raw(b[0], b[1] % 16, b[1] / 16, Signed16(b[2], b[3]), Signed32(b[4], b[5], b[6], b[7]))
  {
    NibbleOf(b[1]);
    FromTwo(b[2..4]);
    FromFour(b[4..8]);
    FromTwo([b[4], b[5]]);
    FromTwo([b[6], b[7]]);
    hide FromLE;
  }

  lemma HighHalf(lo: seq<u8>, hi: seq<u8>)
    requires |lo| == 4 && |hi| == 4
    ensures FromLE(lo + hi) == Signed32(lo[0], lo[1], lo[2], lo[3]) % 0x1_0000_0000
                             + 0x1_0000_0000 * (Signed32(hi[0], hi[1], hi[2], hi[3]) % 0x1_0000_0000)
  {
    FourThen(lo, hi);
    FourBytes(lo);
    FourBytes(hi);
    hide FromLE, Signed32, Unsigned32;
  }

  lemma FourBytes(b: seq<u8>)
    requires |b| == 4
    ensures FromLE(b) == Unsigned32(b[0], b[1], b[2], b[3])
    ensures FromLE(b) == Signed32(b[0], b[1], b[2], b[3]) % 0x1_0000_0000
  {
    FromFour(b);
    FromTwo([b[0], b[1]]);
    FromTwo([b[2], b[3]]);
  }

  lemma FourThen(lo: seq<u8>, hi: seq<u8>)
    requires |lo| == 4
    ensures FromLE(lo + hi) == FromLE(lo) + 0x1_0000_0000 * FromLE(hi)
  {
    ByteThen(lo, hi);
    ByteThen(lo[1..], hi);
    ByteThen(lo[1..][1..], hi);
    ByteThen(lo[1..][1..][1..], hi);
    assert lo[1..][1..][1..][1..] == [] && [] + hi == hi;
  }

  lemma ByteThen(b: seq<u8>, rest: seq<u8>)
    requires b != []
    ensures FromLE(b + rest) == b[0] + 0x100 * FromLE(b[1..] + rest)
    ensures FromLE(b) == b[0] + 0x100 * FromLE(b[1..])
  {
    assert (b + rest)[1..] == b[1..] + rest;
  }

  /** Every slot of every byte string loads as the table says. */
  lemma LoadsByTable(bytes: seq<u8>, i: nat)
    requires 8 * i + 8 <= |bytes|
    ensures i < |LoadCode(bytes)| && LoadCode(bytes)[i] == TableInsn(bytes, i)
  {
    SlotFields(Slot(bytes, i));
    var next := if 8 * i + 16 <= |bytes| then Some(SlotRaw(bytes, i + 1)) else None;
    if next.Some? {
      SlotFields(Slot(bytes, i + 1));
    }
    SlotDecides(bytes, i, SlotRaw(bytes, i), next);
  }

  lemma SlotDecides(bytes: seq<u8>, i: nat, r: Raw, next: Option<Raw>)
    requires 8 * i + 8 <= |bytes| && InRange(r)
    requires var b := bytes[8 * i..8 * i + 8];
             r == Raw(b[0], b[1] % 16, b[1] / 16, Signed16(b[2], b[3]), Signed32(b[4], b[5], b[6], b[7]))
    requires next.Some? <==> 8 * i + 16 <= |bytes|
    requires next.Some? ==> var c := bytes[8 * i + 8..8 * i + 16];
                            next.value.op == c[0] && next.value.imm == Signed32(c[4], c[5], c[6], c[7])
    ensures InsnOf(r, next) == TableInsn(bytes, i)
  {
    if r.dst < REGS && r.src < REGS {
      if r.op != LDDW {
        EntryDecides(r, next);
      } else if next.Some? {
        var b, c := bytes[8 * i..8 * i + 8], bytes[8 * i + 8..8 * i + 16];
        assert c[4..8] == bytes[8 * i + 12..8 * i + 16] && c[0] == bytes[8 * i + 8];
        HighHalf(b[4..8], c[4..8]);
      }
    }
    hide Entry, Signed16, Signed32, Unsigned32, FromLE;
  }

  /** A plain two-slot constant: its value is the two immediates, low half first. */
  lemma WideLoads(bytes: seq<u8>, i: nat, d: Reg)
    requires 8 * i + 16 <= |bytes|
    requires bytes[8 * i] == 0x18 && bytes[8 * i + 1] == d && bytes[8 * i + 2] == bytes[8 * i + 3] == 0
    requires bytes[8 * i + 8] == 0
    ensures var value := FromLE(bytes[8 * i + 4..8 * i + 8] + bytes[8 * i + 12..8 * i + 16]);
            value < TWO_64 && i < |LoadCode(bytes)| && LoadCode(bytes)[i] == Const64(d, value)
  {
    LoadsByTable(bytes, i);
    var b := bytes[8 * i..8 * i + 8];
    assert b[4..8] == bytes[8 * i + 4..8 * i + 8];
  }
}
