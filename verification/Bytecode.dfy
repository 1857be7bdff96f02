/**
 Eight-byte eBPF instructions: the masked and unmasked encoders, both field decoders, and
 the loader that reads a byte string into a program (RFC 9669, section 3.1).
 */
module Bytecode {
  import opened Words
  import opened Ebpf

  /** The five arguments of the INSN and BPF_RAW macros. */
  datatype Raw = Raw(op: u8, dst: nat, src: nat, off: int, imm: int)

  /** Fields that fit their places in the eight bytes. */
  predicate InRange(r: Raw) {
    r.dst < 16 && r.src < 16 && -0x8000 <= r.off < 0x8000 && -0x8000_0000 <= r.imm < 0x8000_0000
  }

  function ByteOf(x: int, shift: nat): u8
    requires shift in {0, 8, 16, 24}
  {
    (match shift case 0 => x case 8 => x / 0x100 case 16 => x / 0x1_0000 case _ => x / 0x100_0000) % 0x100
  }

  function Encoded(r: Raw, regs: u8): (b: seq<u8>)
    ensures |b| == 8
  {
    [r.op, regs, ByteOf(r.off, 0), ByteOf(r.off, 8),
     ByteOf(r.imm, 0), ByteOf(r.imm, 8), ByteOf(r.imm, 16), ByteOf(r.imm, 24)]
  }

  function OrByte(a: nat, b: nat): u8 {
    Pow2Of16();
    Bitwise(Or, a, b, 8)
  }

  function AndByte(a: nat, b: nat): u8 {
    Pow2Of16();
    Bitwise(And, a, b, 8)
  }

  /** `dst | src << 4`, as in the test programs' INSN. */
  function EncodeUnmasked(r: Raw): seq<u8> {
    Encoded(r, OrByte(r.dst, Shl(r.src, 4)))
  }

  /** `(dst & 0xf) | (src & 0xf) << 4`, as in BPF_RAW. */
  function EncodeMasked(r: Raw): seq<u8> {
    Encoded(r, OrByte(AndByte(r.dst, 0xf), Shl(AndByte(r.src, 0xf), 4)))
  }

  // ----- the Python field decoder -----

  function DecodeRegs(insn: seq<u8>): (int, int)
    requires |insn| >= 2
  {
    (AndByte(insn[1], 0xf), Shr(insn[1], 4))
  }

  /** `int.from_bytes(data, "little", signed=True)`. */
  function ParseSignedLE(data: seq<u8>): int {
    var v := FromLE(data);
    if 2 * v >= Pow256(|data|) && data != [] then v - Pow256(|data|) else v
  }

  // ----- the C field decoder -----

  function InsnDst(insn: seq<u8>): u8
    requires |insn| >= 2
  {
    AndByte(insn[1], 0x0f)
  }

  function InsnSrc(insn: seq<u8>): u8
    requires |insn| >= 2
  {
    Shr(insn[1], 4)
  }

  /** `(int16_t)(p[0] | p[1] << 8)`. */
  function ReadI16(p: seq<u8>): i16
    requires |p| >= 2
  {
    Pow2Of16();
    var v := Bitwise(Or, p[0], Shl(p[1], 8), 16);
    if v >= 0x8000 then v - 0x1_0000 else v
  }

  function Decode(b: seq<u8>): Raw
    requires |b| == 8
  {
    var (dst, src) := DecodeRegs(b);
    Raw(b[0], dst, src, ParseSignedLE(b[2..4]), ParseSignedLE(b[4..8]))
  }

  // ----- laws -----

  lemma OrNibbles(lo: nat, hi: nat)
    requires lo < 16 && hi < 16
    ensures OrByte(lo, Shl(hi, 4)) == 16 * hi + lo
  {
    Pow2Of16();
    ShlBy4(hi, 0);
    OrCommutes(lo, Shl(hi, 4), 8);
    OrDisjoint(hi, lo, 4, 8);
  }

  lemma {:induction false} OrCommutes(a: nat, b: nat, n: nat)
    ensures Bitwise(Or, a, b, n) == Bitwise(Or, b, a, n)
    decreases n
  {
    if n > 0 {
      OrCommutes(a / 2, b / 2, n - 1);
    }
  }

  lemma NibbleOf(x: u8)
    ensures AndByte(x, 0xf) == x % 16 && Shr(x, 4) == x / 16
  {
    assert Pow2(4) - 1 == 0xf by { Pow2Of16(); }
    AndLow(x, 4, 8);
    LowNibble(x);
    ShrBy4(x, 0);
  }

  lemma OrHalves(lo: u8, hi: u8)
    ensures Bitwise(Or, lo, Shl(hi, 8), 16) == lo + 0x100 * hi
  {
    Pow2Of16();
    ShlBy4(hi, 0);
    ShlBy4(hi, 4);
    OrCommutes(lo, Shl(hi, 8), 16);
    OrDisjoint(hi, lo, 8, 16);
  }

  lemma FromTwo(b: seq<u8>)
    requires |b| == 2
    ensures FromLE(b) == b[0] as int + 0x100 * (b[1] as int) && Pow256(2) == 0x1_0000
  {
    assert FromLE(b[1..]) == b[1] + 0x100 * FromLE(b[1..][1..]);
  }

  lemma FromFour(b: seq<u8>)
    requires |b| == 4
    ensures FromLE(b) == FromLE([b[0], b[1]]) + 0x1_0000 * FromLE([b[2], b[3]]) && Pow256(4) == 0x1_0000_0000
  {
    FromTwo([b[0], b[1]]);
    assert FromLE(b) == b[0] + 0x100 * FromLE(b[1..]);
    assert FromLE(b[1..]) == b[1] + 0x100 * FromLE(b[1..][1..]);
    assert b[1..][1..] == [b[2], b[3]];
  }

  lemma SignedFields(b: seq<u8>)
    requires |b| == 2
    ensures ParseSignedLE(b) == ReadI16(b)
  {
    FromTwo(b);
    OrHalves(b[0], b[1]);
  }

  /** Both encoders write the same bytes for fields in range. */
  lemma EncodersAgree(r: Raw)
    requires r.dst < 16 && r.src < 16
    ensures EncodeMasked(r) == EncodeUnmasked(r)
  {
    hide AndByte, OrByte, Encoded, Shl;
    NibbleOf(r.dst);
    NibbleOf(r.src);
  }

  /** Both decoders read the same fields from any instruction. */
  lemma DecodersAgree(b: seq<u8>)
    requires |b| == 8
    ensures Decode(b).dst == InsnDst(b) && Decode(b).src == InsnSrc(b) && Decode(b).off == ReadI16(b[2..])
  {
    SignedFields(b[2..4]);
  }

  lemma RegsRoundTrip(dst: nat, src: nat, x: u8)
    requires dst < 16 && src < 16
    ensures x == OrByte(dst, Shl(src, 4)) <==> AndByte(x, 0xf) == dst && Shr(x, 4) == src
  {
    OrNibbles(dst, src);
    NibbleOf(x);
  }

  lemma OffRoundTrip(off: int, b: seq<u8>)
    requires -0x8000 <= off < 0x8000 && |b| == 2
    ensures b == [ByteOf(off, 0), ByteOf(off, 8)] <==> ParseSignedLE(b) == off
    ensures -0x8000 <= ParseSignedLE(b) < 0x8000
  {
    FromTwo(b);
    TwoByteDigits(off, b[0], b[1]);
    hide FromLE, Pow256;
  }

  lemma TwoByteDigits(off: int, lo: u8, hi: u8)
    requires -0x8000 <= off < 0x8000
    ensures lo == off % 0x100 && hi == (off / 0x100) % 0x100 <==>
            off == lo + 0x100 * hi - if hi >= 0x80 then 0x1_0000 else 0
  {
    ByteDigits(off);
  }

  lemma HalfBytes(x: int, b: seq<u8>)
    requires |b| == 2
    ensures FromLE(b) < 0x1_0000
    ensures x % 0x1_0000 == FromLE(b) <==> x % 0x100 == b[0] && (x / 0x100) % 0x100 == b[1]
  {
    FromTwo(b);
    hide FromLE;
    ByteDigits(x);
  }

  lemma ByteDigits(x: int)
    ensures x % 0x1_0000 == x % 0x100 + 0x100 * ((x / 0x100) % 0x100)
  {
  }

  lemma WordHalves(imm: int, lo: nat, hi: nat)
    requires -0x8000_0000 <= imm < 0x8000_0000 && lo < 0x1_0000 && hi < 0x1_0000
    ensures imm % 0x1_0000 == lo && (imm / 0x1_0000) % 0x1_0000 == hi <==>
            imm == lo + 0x1_0000 * hi - if hi >= 0x8000 then 0x1_0000_0000 else 0
  {
  }

  lemma ImmRoundTrip(imm: int, b: seq<u8>)
    requires -0x8000_0000 <= imm < 0x8000_0000 && |b| == 4
    ensures b == [ByteOf(imm, 0), ByteOf(imm, 8), ByteOf(imm, 16), ByteOf(imm, 24)] <==> ParseSignedLE(b) == imm
    ensures -0x8000_0000 <= ParseSignedLE(b) < 0x8000_0000
  {
    FromFour(b);
    var lo, hi := [b[0], b[1]], [b[2], b[3]];
    HalfBytes(imm, lo);
    HalfBytes(imm / 0x1_0000, hi);
    assert imm / 0x1_0000 / 0x100 == imm / 0x100_0000;
    WordHalves(imm, FromLE(lo), FromLE(hi));
  }

  /** Decoding and encoding are inverse, on fields in range and on all eight-byte strings. */
  lemma DecodeIsInverse(r: Raw, b: seq<u8>)
    requires |b| == 8 && InRange(r)
    ensures EncodeUnmasked(r) == b <==> Decode(b) == r
  {
    RegsRoundTrip(r.dst, r.src, b[1]);
    OffRoundTrip(r.off, b[2..4]);
    ImmRoundTrip(r.imm, b[4..8]);
    assert b == [b[0], b[1]] + b[2..4] + b[4..8];
    assert EncodeUnmasked(r)[2..4] == [ByteOf(r.off, 0), ByteOf(r.off, 8)];
    assert EncodeUnmasked(r)[4..8] == [ByteOf(r.imm, 0), ByteOf(r.imm, 8), ByteOf(r.imm, 16), ByteOf(r.imm, 24)];
  }

  lemma DecodedInRange(b: seq<u8>)
    requires |b| == 8
    ensures InRange(Decode(b))
  {
    NibbleOf(b[1]);
    OffRoundTrip(0, b[2..4]);
    ImmRoundTrip(0, b[4..8]);
  }

  lemma DecodeEncode(r: Raw)
    requires InRange(r)
    ensures Decode(EncodeUnmasked(r)) == r
  {
    DecodeIsInverse(r, EncodeUnmasked(r));
  }

  lemma EncodeDecode(b: seq<u8>)
    requires |b| == 8
    ensures InRange(Decode(b)) && EncodeUnmasked(Decode(b)) == b
  {
    DecodedInRange(b);
    DecodeIsInverse(Decode(b), b);
  }

  // ----- the loader -----

  function AluOf(nibble: nat): Option<AluOp> {
    match nibble
    case 0x0 => Some(Add)
    case 0x1 => Some(Sub)
    case 0x4 => Some(OrOp)
    case 0x5 => Some(AndOp)
    case 0x6 => Some(Lsh)
    case 0x7 => Some(Rsh)
    case 0xa => Some(XorOp)
    case 0xb => Some(Mov)
    case 0xc => Some(Arsh)
    case _ => None
  }

  function CondOf(nibble: nat): Option<Cond> {
    match nibble
    case 0x1 => Some(Eq)
    case 0x2 => Some(Gt)
    case 0x3 => Some(Ge)
    case 0x4 => Some(Set)
    case 0x5 => Some(Ne)
    case 0x6 => Some(Sgt)
    case 0x7 => Some(Sge)
    case 0xa => Some(Lt)
    case 0xb => Some(Le)
    case 0xc => Some(Slt)
    case 0xd => Some(Sle)
    case _ => None
  }

  function WidthOf(op: u8): Width {
    match (op / 8) % 4 case 0 => Word case 1 => Half case 2 => Byte case _ => Double
  }

  const LDDW: u8 := 0x18
  const MODE_MEM: nat := 3
  const MODE_MEMSX: nat := 4

  function WideInsn(r: Raw, next: Option<Raw>): Insn
    requires r.dst < REGS
  {
    if next.Some? && next.value.op == 0 && r.src == 0 && r.off == 0
    then Const64(r.dst, r.imm % 0x1_0000_0000 + 0x1_0000_0000 * (next.value.imm % 0x1_0000_0000))
    else Unsupported(r.op)
  }

  function OperandOf(r: Raw): Operand
    requires InRange(r) && r.src < REGS
  {
    if (r.op / 8) % 2 == 0 then Imm(r.imm) else FromReg(r.src)
  }

  /** Plain and sign-extending loads; there is no sign-extending doubleword. */
  function LoadInsn(r: Raw): Insn
    requires InRange(r) && r.dst < REGS && r.src < REGS
  {
    if r.op / 32 == MODE_MEM then Load(WidthOf(r.op), false, r.dst, r.src, r.off)
    else if r.op / 32 == MODE_MEMSX && WidthOf(r.op) != Double then Load(WidthOf(r.op), true, r.dst, r.src, r.off)
    else Unsupported(r.op)
  }

  /** Atomics share the STX class but not its mode. */
  function StoreInsn(r: Raw, src: Operand): Insn
    requires InRange(r) && r.dst < REGS
  {
    if r.op / 32 == MODE_MEM then Store(WidthOf(r.op), r.dst, r.off, src) else Unsupported(r.op)
  }

  /** Jumps, helper calls and EXIT; a local call has a nonzero source field. */
  function JumpInsn(r: Raw): Insn
    requires InRange(r) && r.dst < REGS && r.src < REGS
  {
    if r.op == 0x05 then Jump(r.off)
    else if r.op == 0x85 && r.src == 0 then Call(r.imm)
    else if r.op == 0x95 then Exit
    else match CondOf(r.op / 16)
      case Some(c) => JumpIf(c, r.dst, OperandOf(r), r.off)
      case None => Unsupported(r.op)
  }

  function AluInsn(r: Raw): Insn
    requires InRange(r) && r.dst < REGS && r.src < REGS
  {
    match AluOf(r.op / 16)
    case Some(op) => if r.off == 0 then Alu(op, r.dst, OperandOf(r)) else Unsupported(r.op)
    case None => Unsupported(r.op)
  }

  /** The instruction in a slot; `next` is the following slot, read only by LDDW. */
  function InsnOf(r: Raw, next: Option<Raw>): Insn
    requires InRange(r)
  {
    if r.dst >= REGS || r.src >= REGS then Unsupported(r.op)
    else if r.op == LDDW then WideInsn(r, next)
    else match r.op % 8
      case 1 => LoadInsn(r)
      case 2 => StoreInsn(r, Imm(r.imm))
      case 3 => StoreInsn(r, FromReg(r.src))
      case 5 => JumpInsn(r)
      case 7 => AluInsn(r)
      case _ => Unsupported(r.op)
  }

  function Slot(bytes: seq<u8>, i: nat): seq<u8>
    requires 8 * i + 8 <= |bytes|
  {
    bytes[8 * i..8 * i + 8]
  }

  function SlotRaw(bytes: seq<u8>, i: nat): (r: Raw)
    requires 8 * i + 8 <= |bytes|
    ensures InRange(r)
  {
    EncodeDecode(Slot(bytes, i));
    Decode(Slot(bytes, i))
  }

  /** A byte string of whole slots, one instruction per slot. */
  function LoadCode(bytes: seq<u8>): seq<Insn> {
    seq(|bytes| / 8, i requires 0 <= i < |bytes| / 8 =>
      InsnOf(SlotRaw(bytes, i), if 8 * i + 16 <= |bytes| then Some(SlotRaw(bytes, i + 1)) else None))
  }

  lemma LoadLength(bytes: seq<u8>)
    ensures |LoadCode(bytes)| == |bytes| / 8
  {
  }

  /** The bytes of a table of INSN lines. */
  function Assemble(raws: seq<Raw>): (b: seq<u8>)
    ensures |b| == 8 * |raws|
  {
    if raws == [] then [] else Assemble(raws[..|raws| - 1]) + EncodeUnmasked(raws[|raws| - 1])
  }

  lemma {:induction false} SlotOfAssembled(raws: seq<Raw>, i: nat)
    requires i < |raws|
    ensures Slot(Assemble(raws), i) == EncodeUnmasked(raws[i])
  {
    var n := |raws| - 1;
    if i < n {
      SlotOfAssembled(raws[..n], i);
      assert Slot(Assemble(raws), i) == Slot(Assemble(raws[..n]), i);
    }
  }

  lemma SlotRawOfAssembled(raws: seq<Raw>, i: nat)
    requires i < |raws| && InRange(raws[i])
    ensures SlotRaw(Assemble(raws), i) == raws[i]
  {
    SlotOfAssembled(raws, i);
    DecodeEncode(raws[i]);
  }

  /** The instructions of a table of INSN lines. */
  function Listing(raws: seq<Raw>): seq<Insn>
    requires forall i | 0 <= i < |raws| :: InRange(raws[i])
  {
    seq(|raws|, i requires 0 <= i < |raws| =>
      InsnOf(raws[i], if i + 1 < |raws| then Some(raws[i + 1]) else None))
  }

  lemma LoadsListing(bytes: seq<u8>, raws: seq<Raw>)
    requires |bytes| == 8 * |raws|
    requires forall i | 0 <= i < |raws| :: InRange(raws[i]) && SlotRaw(bytes, i) == raws[i]
    ensures LoadCode(bytes) == Listing(raws)
  {
    forall i | 0 <= i < |raws|
      ensures LoadCode(bytes)[i] == Listing(raws)[i]
    {
      if i + 1 < |raws| {
        assert SlotRaw(bytes, i + 1) == raws[i + 1];
      }
    }
  }

  /** Loading assembled lines gives back their instructions. */
  lemma LoadAssembled(raws: seq<Raw>)
    requires forall i | 0 <= i < |raws| :: InRange(raws[i])
    ensures LoadCode(Assemble(raws)) == Listing(raws)
  {
    forall i | 0 <= i < |raws|
      ensures SlotRaw(Assemble(raws), i) == raws[i]
    {
      SlotRawOfAssembled(raws, i);
    }
    LoadsListing(Assemble(raws), raws);
  }
}
