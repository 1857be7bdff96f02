/**
 The Morello instruction words the repository emits: their fields, their effect in C64 state,
 and the code buffer they are written to. A trap is an outcome of the machine.
 */
module Morello {
  import opened Words
  import opened Ebpf
  import opened CapMachine

  const CREGS: nat := 31

  type CReg = r: nat | r < 31

  datatype A64 =
    | Ldr(rt: CReg, rn: CReg, off: nat)
    | MovC(rd: CReg, rn: CReg)
    | MovX(rd: CReg, rm: CReg)
    | Movz(rd: CReg, imm: nat)
    | Movk(rd: CReg, imm: nat, slot: nat)
    | GcTag(rd: CReg, rn: CReg)
    | GcLen(rd: CReg, rn: CReg)
    | CmpImm(rn: CReg, imm: nat)
    | CsetNe(rd: CReg)
    | Br(rn: CReg)
    | Ret(rn: CReg)

  // ----- decoding -----

  function Rd(w: u32): nat { w % 32 }
  function Rn(w: u32): nat { (w / 32) % 32 }
  function Rm(w: u32): nat { (w / 0x1_0000) % 32 }
  function Imm12(w: u32): nat { (w / 0x400) % 0x1000 }
  function Imm16(w: u32): nat { (w / 32) % 0x1_0000 }

  /** Words whose operation is in bits 31..22 or 31..21. */
  function DecodeImmediate(w: u32): Option<A64> {
    if w / 0x40_0000 == 0xf9400000 / 0x40_0000 then
      if Rd(w) < CREGS && Rn(w) < CREGS then Some(Ldr(Rd(w), Rn(w), 8 * Imm12(w))) else None
    else if w / 0x40_0000 == 0xf1000000 / 0x40_0000 then
      if Rd(w) == 31 && Rn(w) < CREGS then Some(CmpImm(Rn(w), Imm12(w))) else None
    else if Rd(w) == 31 then None
    else if w / 0x20_0000 == 0xd2800000 / 0x20_0000 then Some(Movz(Rd(w), Imm16(w)))
    else if w / 0x20_0000 == 0x52800000 / 0x20_0000 then Some(Movz(Rd(w), Imm16(w)))
    else if w / 0x20_0000 == 0xf2a00000 / 0x20_0000 then Some(Movk(Rd(w), Imm16(w), 1))
    else if w / 0x20_0000 == 0xf2c00000 / 0x20_0000 then Some(Movk(Rd(w), Imm16(w), 2))
    else None
  }

  /** Register-to-register words. */
  function DecodeRegister(w: u32): Option<A64> {
    if w / 32 == 0x1a9f07e0 / 32 && Rd(w) < CREGS then Some(CsetNe(Rd(w)))
    else if && w / 0x20_0000 == 0xaa000000 / 0x20_0000 && Imm12(w) % 64 == 0
            && Rn(w) == 31 && Rm(w) < CREGS && Rd(w) < CREGS
    then Some(MovX(Rd(w), Rm(w)))
    else if Rd(w) >= CREGS || Rn(w) >= CREGS then None
    else if w / 0x400 == 0xc2c1d000 / 0x400 then Some(MovC(Rd(w), Rn(w)))
    else if w / 0x400 == 0xc2c09000 / 0x400 then Some(GcTag(Rd(w), Rn(w)))
    else if w / 0x400 == 0xc2c03000 / 0x400 then Some(GcLen(Rd(w), Rn(w)))
    else if w / 0x400 == 0xc2c21000 / 0x400 && Rd(w) == 0 then Some(Br(Rn(w)))
    else if w / 0x400 == 0xc2c25000 / 0x400 && Rd(w) == 0 then Some(Ret(Rn(w)))
    else None
  }

  lemma LoadFields(w: u32, op: nat, imm: nat, rn: nat, rd: nat)
    requires w == 0x40_0000 * op + 0x400 * imm + 32 * rn + rd
    requires imm < 0x1000 && rn < 32 && rd < 32
    ensures w / 0x40_0000 == op && Imm12(w) == imm && Rn(w) == rn && Rd(w) == rd
  {
    var upper := 0x1000 * op + imm;
    assert w == 0x400 * upper + (32 * rn + rd);
    assert w / 0x400 == upper;
    assert w / 32 == 32 * upper + rn;
    assert upper / 0x1000 == op;
  }

  lemma MoveFields(w: u32, op: nat, imm: nat, rd: nat)
    requires w == 0x20_0000 * op + 32 * imm + rd && imm < 0x1_0000 && rd < 32
    ensures w / 0x20_0000 == op && w / 0x40_0000 == op / 2 && Imm16(w) == imm && Rd(w) == rd
  {
    var upper := 0x1_0000 * op + imm;
    assert w / 32 == upper;
    assert w / 0x20_0000 == op && upper / 0x1_0000 == op;
  }

  function DecodeWord(w: u32): Option<A64> {
    match DecodeImmediate(w)
    case Some(i) => Some(i)
    case None => DecodeRegister(w)
  }

  // ----- execution -----

  type CFile = s: seq<Value> | |s| == CREGS witness seq(CREGS, _ => Int(0))

  datatype Cpu = Cpu(c: CFile, z: bool, mem: Memory)

  datatype Exit = Return(x0: u64) | TailCall(target: Value, cpu: Cpu) | Trap | Undefined

  datatype Next = Continue(cpu: Cpu) | Leave(exit: Exit)

  function WriteX(cpu: Cpu, d: CReg, v: u64): Next {
    Continue(cpu.(c := cpu.c[d := Int(v)]))
  }

  /** A doubleword read through a capability register. */
  function LoadOutcome(base: Value, off: int, m: Memory): Exit {
    var a := Wrap64(Bits(base) + off);
    if Authorises(base, a, 8) then Return(LoadValue(m, a, Double, false)) else Trap
  }

  /** Replace 16-bit slot 1 or 2 of a doubleword. */
  function SetSlot(x: u64, imm: nat, slot: nat): u64 {
    var unit := if slot == 1 then 0x1_0000 else 0x1_0000_0000;
    Wrap64(x - (x / unit) % 0x1_0000 * unit + imm * unit)
  }

  function Exec(i: A64, cpu: Cpu): Next {
    match i
    case Ldr(rt, rn, off) =>
      var o := LoadOutcome(cpu.c[rn], off, cpu.mem);
      if o.Return? then WriteX(cpu, rt, o.x0) else Leave(o)
    case MovC(rd, rn) => Continue(cpu.(c := cpu.c[rd := cpu.c[rn]]))
    case MovX(rd, rm) => WriteX(cpu, rd, Bits(cpu.c[rm]))
    case Movz(rd, imm) => WriteX(cpu, rd, Wrap64(imm))
    case Movk(rd, imm, slot) => WriteX(cpu, rd, SetSlot(Bits(cpu.c[rd]), imm, slot))
    case GcTag(rd, rn) => WriteX(cpu, rd, if cpu.c[rn].Cap? then 1 else 0)
    case GcLen(rd, rn) =>
      if cpu.c[rn].Cap? && cpu.c[rn].region.length < TWO_64 then WriteX(cpu, rd, cpu.c[rn].region.length)
      else Leave(Undefined)
    case CmpImm(rn, imm) => Continue(cpu.(z := Bits(cpu.c[rn]) == imm))
    case CsetNe(rd) => WriteX(cpu, rd, if cpu.z then 0 else 1)
    case Br(rn) => Leave(TailCall(cpu.c[rn], cpu))
    case Ret(_) => Leave(Return(Bits(cpu.c[0])))
  }

  /** Straight-line execution; an undecoded word is undefined when it is reached. */
  function RunOps(ops: seq<Option<A64>>, cpu: Cpu): Exit
    decreases |ops|, 0
  {
    if ops == [] then Undefined
    else match ops[0]
      case None => Undefined
      case Some(i) => After(Exec(i, cpu), ops[1..])
  }

  function After(n: Next, rest: seq<Option<A64>>): Exit
    decreases |rest|, 1
  {
    match n
    case Leave(e) => e
    case Continue(cpu) => RunOps(rest, cpu)
  }

  function Decoded(words: seq<u32>): (ops: seq<Option<A64>>)
    ensures |ops| == |words|
  {
    seq(|words|, i requires 0 <= i < |words| => DecodeWord(words[i]))
  }

  function Run(words: seq<u32>, cpu: Cpu): Exit {
    RunOps(Decoded(words), cpu)
  }

  lemma OpsOn(i: A64, rest: seq<Option<A64>>, cpu: Cpu)
    requires Exec(i, cpu).Continue?
    ensures RunOps([Some(i)] + rest, cpu) == RunOps(rest, Exec(i, cpu).cpu)
  {
    assert ([Some(i)] + rest)[1..] == rest;
  }

  lemma OpsLeave(i: A64, rest: seq<Option<A64>>, cpu: Cpu)
    requires Exec(i, cpu).Leave?
    ensures RunOps([Some(i)] + rest, cpu) == Exec(i, cpu).exit
  {
  }

  /** A context load followed by a return. */
  lemma LoadReturns(off: nat, cpu: Cpu)
    ensures RunOps([Some(Ldr(0, 0, off)), Some(Ret(30))], cpu) == LoadOutcome(cpu.c[0], off, cpu.mem)
  {
    var ret := [Some(Ret(30))];
    assert [Some(Ldr(0, 0, off)), Some(Ret(30))] == [Some(Ldr(0, 0, off))] + ret;
    if Exec(Ldr(0, 0, off), cpu).Leave? {
      OpsLeave(Ldr(0, 0, off), ret, cpu);
    } else {
      OpsOn(Ldr(0, 0, off), ret, cpu);
      OpsReturn(Exec(Ldr(0, 0, off), cpu).cpu);
    }
  }

  lemma OpsReturn(cpu: Cpu)
    ensures RunOps([Some(Ret(30))], cpu) == Return(Bits(cpu.c[0]))
  {
    assert [Some(Ret(30))] + [] == [Some(Ret(30))];
    OpsLeave(Ret(30), [], cpu);
  }

  // ----- the code buffer -----

  function WordBytes(words: seq<u32>): (b: seq<u8>)
    ensures |b| == 4 * |words|
  {
    if words == [] then [] else WordBytes(words[..|words| - 1]) + ToLE(words[|words| - 1], 4)
  }

  /** The little-endian words an instruction fetch reads from whole words of bytes. */
  function Fetch(bytes: seq<u8>): seq<u32> {
    seq(|bytes| / 4, i requires 0 <= i < |bytes| / 4 => FetchWord(bytes[4 * i..4 * i + 4]))
  }

  function FetchWord(b: seq<u8>): u32
    requires |b| == 4
  {
    assert Pow256(4) == 0x1_0000_0000;
    FromLE(b)
  }

  lemma {:induction false} WordBytesAt(words: seq<u32>, i: nat)
    requires i < |words|
    ensures WordBytes(words)[4 * i..4 * i + 4] == ToLE(words[i], 4)
  {
    var n := |words| - 1;
    if i < n {
      WordBytesAt(words[..n], i);
      assert WordBytes(words)[4 * i..4 * i + 4] == WordBytes(words[..n])[4 * i..4 * i + 4];
    }
  }

  /** Fetching what was emitted gives back the same words in order. */
  lemma FetchEmitted(words: seq<u32>)
    ensures Fetch(WordBytes(words)) == words
  {
    forall i | 0 <= i < |words|
      ensures Fetch(WordBytes(words))[i] == words[i]
    {
      WordBytesAt(words, i);
      assert Pow256(4) == 0x1_0000_0000;
      FromToLE(words[i], 4);
    }
  }

  lemma FetchPrefix(bytes: seq<u8>, n: nat)
    requires n <= |bytes| && n % 4 == 0
    ensures Fetch(bytes)[..n / 4] == Fetch(bytes[..n])
  {
    forall i | 0 <= i < n / 4
      ensures Fetch(bytes)[i] == Fetch(bytes[..n])[i]
    {
      assert bytes[..n][4 * i..4 * i + 4] == bytes[4 * i..4 * i + 4];
    }
  }

  /** Emitting what was fetched gives back the same bytes. */
  lemma {:induction false} EmitFetched(bytes: seq<u8>)
    requires |bytes| % 4 == 0
    ensures WordBytes(Fetch(bytes)) == bytes
  {
    if bytes != [] {
      EmitFetched(bytes[..|bytes| - 4]);
      LastFetched(bytes);
    }
  }

  lemma LastFetched(bytes: seq<u8>)
    requires |bytes| % 4 == 0 && bytes != []
    requires WordBytes(Fetch(bytes[..|bytes| - 4])) == bytes[..|bytes| - 4]
    ensures WordBytes(Fetch(bytes)) == bytes
  {
    hide Fetch, FetchWord, ToLE, WordBytes;
    var n := |bytes| - 4;
    FetchPrefix(bytes, n);
    FetchLast(bytes);
    var init, last := Fetch(bytes[..n]), FetchWord(bytes[n..]);
    assert Fetch(bytes) == init + [last];
    RefetchWord(bytes[n..]);
    WordBytesSnoc(init, last);
    assert bytes == bytes[..n] + bytes[n..];
  }

  lemma RefetchWord(b: seq<u8>)
    requires |b| == 4
    ensures ToLE(FetchWord(b), 4) == b
  {
    ToFromLE(b);
  }

  lemma FetchLast(bytes: seq<u8>)
    requires |bytes| % 4 == 0 && bytes != []
    ensures Fetch(bytes) == Fetch(bytes[..|bytes| - 4]) + [FetchWord(bytes[|bytes| - 4..])]
  {
    var n := |bytes| - 4;
    FetchPrefix(bytes, n);
    assert bytes[4 * (n / 4)..4 * (n / 4) + 4] == bytes[n..];
  }

  /** The page `before` with `words` written from `pc` on. */
  ghost predicate Written(now: seq<u8>, before: seq<u8>, pc: nat, words: seq<u32>) {
    && |now| == |before| && pc + 4 * |words| <= |before|
    && now == before[..pc] + WordBytes(words) + before[pc + 4 * |words|..]
  }

  lemma Splice(p: seq<u8>, b: seq<u8>, s: seq<u8>, x: seq<u8>)
    requires |x| <= |s|
    ensures var now, at := p + b + s, |p| + |b|;
            now[..at] + x + now[at + |x|..] == p + (b + x) + s[|x|..]
  {
  }

  lemma WordBytesSnoc(words: seq<u32>, insn: u32)
    ensures WordBytes(words + [insn]) == WordBytes(words) + ToLE(insn, 4)
  {
    assert (words + [insn])[..|words|] == words;
  }

  /** `next` is `now` with the four bytes `x` of one more word at its place. */
  lemma WrittenOneMore(before: seq<u8>, pc: nat, words: seq<u32>, insn: u32, now: seq<u8>, next: seq<u8>, x: seq<u8>)
    requires Written(now, before, pc, words) && pc + 4 * |words| + 4 <= |now|
    requires |x| == 4 && WordBytes(words + [insn]) == WordBytes(words) + x
    requires var at := pc + 4 * |words|; next == now[..at] + x + now[at + 4..]
    ensures Written(next, before, pc, words + [insn])
  {
    hide WordBytes;
    var p, b, rest := before[..pc], WordBytes(words), before[pc + 4 * |words|..];
    Splice(p, b, rest, x);
    assert next == p + (b + x) + rest[4..];
    assert 4 * |words + [insn]| == 4 * |words| + 4;
    assert rest[4..] == before[pc + 4 * |words + [insn]|..];
  }

  /** `memcpy` one word at `offset` and advance; `words` were written since `pc`. */
  method EmitU32(buf: array<u8>, offset: nat, insn: u32, ghost before: seq<u8>, ghost pc: nat, ghost words: seq<u32>)
    returns (next: nat)
    requires offset + 4 <= buf.Length && offset == pc + 4 * |words|
    requires Written(buf[..], before, pc, words)
    modifies buf
    ensures next == offset + 4
    ensures Written(buf[..], before, pc, words + [insn])
  {
    ghost var now := buf[..];
    var bytes := ToLE(insn, 4);
    forall i | 0 <= i < 4 {
      buf[offset + i] := bytes[i];
    }
    next := offset + 4;
    assert buf[..] == now[..offset] + bytes + now[next..];
    WordBytesSnoc(words, insn);
    WrittenOneMore(before, pc, words, insn, now, buf[..], bytes);
  }

  /** `|`, truncated to a 32-bit word. */
  function Or32(a: nat, b: nat): u32 {
    Pow2Of32();
    Bitwise(Or, a, b, 32)
  }

  lemma OrAbove5(q: nat, b: nat)
    requires b < 32 && 32 * q + b < 0x1_0000_0000
    ensures Or32(32 * q, b) == 32 * q + b
  {
    Pow2Of32();
    Pow2OfFields();
    ShlAmounts(q);
    OrDisjoint(q, b, 5, 32);
  }

  lemma OrAbove21(q: nat, b: nat)
    requires b < 0x20_0000 && 0x20_0000 * q + b < 0x1_0000_0000
    ensures Or32(0x20_0000 * q, b) == 0x20_0000 * q + b
  {
    Pow2Of32();
    Pow2OfFields();
    ShlAmounts(q);
    OrDisjoint(q, b, 21, 32);
  }

  lemma OrAbove22(q: nat, b: nat)
    requires b < 0x40_0000 && 0x40_0000 * q + b < 0x1_0000_0000
    ensures Or32(0x40_0000 * q, b) == 0x40_0000 * q + b
  {
    Pow2Of32();
    Pow2OfFields();
    ShlAmounts(q);
    OrDisjoint(q, b, 22, 32);
  }
}
