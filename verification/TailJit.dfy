/**
 The tail-call generator: five words that shuffle the arguments and branch to a compiled
 helper, which makes the bounded load.
 */
module TailJit {
  import opened Words
  import opened Ebpf
  import opened Bytecode
  import opened CapMachine
  import opened Morello

  const MOV_C3_C0: u32 := 0xc2c1d003
  const MOV_C0_C1: u32 := 0xc2c1d020
  const MOV_X1_X2: u32 := 0xaa0203e1
  const MOVZ_X2: u32 := 0xd2800002
  const BR_C3: u32 := 0xc2c21060
  const PAGE: nat := 4096

  /** The checks, in order; only the opcode byte of the second instruction is looked at. */
  predicate Supported(prog: seq<u8>) {
    && |prog| == 16
    && prog[0] == 0x79
    && InsnDst(prog) == 0
    && InsnSrc(prog) == 1
    && prog[8] == 0x95
  }

  function TailOffset(prog: seq<u8>): Option<nat> {
    if !Supported(prog) then None
    else if ReadI16(prog[2..]) < 0 then None
    else Some(ReadI16(prog[2..]))
  }

  /** Exactly these bytes are accepted: a load of R0 through R1, an offset below 0x8000, an EXIT opcode. */
  lemma AcceptsExactly(prog: seq<u8>, k: nat)
    ensures TailOffset(prog) == Some(k) <==>
            && |prog| == 16 && prog[0] == 0x79 && prog[1] == 0x10 && prog[8] == 0x95
            && k < 0x8000 && prog[2] == k % 0x100 && prog[3] == k / 0x100
  {
    if |prog| == 16 {
      NibbleOf(prog[1]);
      OffsetRead(prog);
      LowHigh(prog[2], prog[3], k);
      hide AndByte, Shr, ReadI16;
      assert InsnDst(prog) == prog[1] % 16 && InsnSrc(prog) == prog[1] / 16;
    }
  }

  lemma OffsetRead(prog: seq<u8>)
    requires |prog| == 16
    ensures ReadI16(prog[2..]) == prog[2] as int + 0x100 * (prog[3] as int) - if prog[3] >= 0x80 then 0x1_0000 else 0
  {
    OrHalves(prog[2], prog[3]);
    hide Bitwise, Shl;
  }

  lemma LowHigh(lo: u8, hi: u8, k: nat)
    ensures lo as int + 0x100 * (hi as int) == k <==> lo == k % 0x100 && hi == k / 0x100
  {
  }

  function MovzX2(offset: nat): u32 {
    Or32(MOVZ_X2, Shl(offset, 5))
  }

  function TailWords(offset: nat): seq<u32> {
    [MOV_C3_C0, MOV_C0_C1, MOV_X1_X2, MovzX2(offset), BR_C3]
  }

  /** A fresh page whose first five words are the tail call, or null when not supported. */
  method CompileTail(prog: seq<u8>) returns (code: array?<u8>)
    ensures code != null <==> TailOffset(prog).Some?
    ensures code != null ==> fresh(code) && code.Length == 4096
    ensures code != null ==> Fetch(code[..20]) == TailWords(TailOffset(prog).value)
  {
    if |prog| != 16 || prog[0] != 0x79 || InsnDst(prog) != 0 || InsnSrc(prog) != 1 || prog[8] != 0x95 {
      return null;
    }
    var offset := ReadI16(prog[2..]);
    if offset < 0 {
      return null;
    }
    var page := new u8[PAGE](_ => 0);
    EmitTail(page, offset);
    return page;
  }

  method EmitTail(page: array<u8>, offset: nat)
    requires page.Length == PAGE
    modifies page
    ensures Fetch(page[..20]) == TailWords(offset)
  {
    ghost var before := page[..];
    ghost var movz := MovzX2(offset);
    var pc := EmitU32(page, 0, MOV_C3_C0, before, 0, []);
    pc := EmitU32(page, pc, MOV_C0_C1, before, 0, [] + [MOV_C3_C0]);
    pc := EmitU32(page, pc, MOV_X1_X2, before, 0, [] + [MOV_C3_C0] + [MOV_C0_C1]);
    pc := EmitU32(page, pc, MovzX2(offset), before, 0, [] + [MOV_C3_C0] + [MOV_C0_C1] + [MOV_X1_X2]);
    pc := EmitU32(page, pc, BR_C3, before, 0, [] + [MOV_C3_C0] + [MOV_C0_C1] + [MOV_X1_X2] + [movz]);
    TailWordsAre(offset);
    PageHolds(page[..], before, TailWords(offset));
  }

  lemma TailWordsAre(offset: nat)
    ensures [] + [MOV_C3_C0] + [MOV_C0_C1] + [MOV_X1_X2] + [MovzX2(offset)] + [BR_C3] == TailWords(offset)
  {
  }

  lemma PageHolds(now: seq<u8>, before: seq<u8>, words: seq<u32>)
    requires Written(now, before, 0, words)
    ensures 4 * |words| <= |now| && Fetch(now[..4 * |words|]) == words
  {
    assert now[..4 * |words|] == WordBytes(words);
    FetchEmitted(words);
  }

  // ----- the shuffle -----

  /** The immediate stays in its 16-bit field and reaches X2 unchanged. */
  lemma MovzX2Decodes(offset: nat)
    requires offset < 0x8000
    ensures DecodeWord(MovzX2(offset)) == Some(Movz(2, offset))
  {
    ShlAmounts(offset);
    MovzBits(offset);
    MoveFields(MovzX2(offset), 0x694, offset, 2);
  }

  /** The register number is already in the opcode word: three disjoint fields again. */
  lemma MovzBits(offset: nat)
    requires offset < 0x8000
    ensures MovzX2(offset) == 0x20_0000 * 0x694 + 32 * offset + 2
  {
    ShlAmounts(offset);
    OrWithLow(0x1_0000 * 0x694, 2, offset);
  }

  /** (32 a + r) | 32 b, where a and b share no bit and r is below both. */
  lemma OrWithLow(a: nat, r: nat, b: nat)
    requires r < 32 && b < 0x1_0000 && a % 0x1_0000 == 0 && 32 * (a + b) + r < 0x1_0000_0000
    ensures Or32(32 * a + r, 32 * b) == 32 * (a + b) + r
  {
    hide Bitwise, Shl;
    OrLowBits(a, r, b, 5, 32);
    Pow2OfFields();
    Pow2Of32();
    ShlAmounts(a);
    ShlAmounts(b);
    ShlAmounts(a + b);
    OrUpper(a, b);
  }

  /** Low bits present in one operand only pass through. */
  lemma {:induction false} OrLowBits(a: nat, r: nat, b: nat, k: nat, n: nat)
    requires r < Pow2(k) && k <= n
    ensures Bitwise(Or, Shl(a, k) + r, Shl(b, k), n) == Shl(Bitwise(Or, a, b, n - k), k) + r
    decreases k
  {
    hide Bitwise;
    if k > 0 {
      OrLowBits(a, r / 2, b, k - 1, n - 1);
      OrDoubled(Shl(a, k - 1), r, Shl(b, k - 1), n);
    }
  }

  lemma OrDoubled(x: nat, r: nat, y: nat, n: nat)
    requires n > 0
    ensures Bitwise(Or, 2 * x + r, 2 * y, n) == r % 2 + 2 * Bitwise(Or, x + r / 2, y, n - 1)
  {
    assert (2 * x + r) % 2 == r % 2 && (2 * x + r) / 2 == x + r / 2;
  }

  lemma OrUpper(a: nat, b: nat)
    requires b < 0x1_0000 && a % 0x1_0000 == 0 && a + b < 0x800_0000
    ensures Bitwise(Or, a, b, 27) == a + b
  {
    var q := a / 0x1_0000;
    Pow2Of16();
    Pow2Plus4(16);
    Pow2Plus4(20);
    assert Pow2(27) == 8 * Pow2(24);
    ShlBy4(q, 0); ShlBy4(q, 4); ShlBy4(q, 8); ShlBy4(q, 12);
    OrDisjoint(q, b, 16, 27);
  }

  /** The registers the helper is entered with. */
  function Shuffled(c: CFile, offset: nat): CFile
    requires offset < TWO_64
  {
    c[3 := c[0]][0 := c[1]][1 := Int(Bits(c[2]))][2 := Int(offset)]
  }

  /**
   From any state the five words branch to the helper in C0, with C0 = mem, X1 = len and
   X2 = offset, and no argument is overwritten before it is moved.
   */
  lemma TailShuffles(offset: nat, cpu: Cpu)
    requires offset < 0x8000
    ensures Run(TailWords(offset), cpu) == TailCall(cpu.c[0], cpu.(c := Shuffled(cpu.c, offset)))
    ensures var c := Shuffled(cpu.c, offset);
            c[0] == cpu.c[1] && c[1] == Int(Bits(cpu.c[2])) && c[2] == Int(offset)
            && forall r: CReg | r > 3 :: c[r] == cpu.c[r]
  {
    TailDecodes(offset);
    TailOpsRun(offset, cpu);
  }

  function TailOps(offset: nat): seq<Option<A64>> {
    [Some(MovC(3, 0)), Some(MovC(0, 1)), Some(MovX(1, 2)), Some(Movz(2, offset)), Some(Br(3))]
  }

  lemma TailDecodes(offset: nat)
    requires offset < 0x8000
    ensures Decoded(TailWords(offset)) == TailOps(offset)
  {
    MovesDecode();
    BranchDecodes();
    MovzX2Decodes(offset);
  }

  lemma TailOpsRun(offset: nat, cpu: Cpu)
    requires offset < 0x8000
    ensures RunOps(TailOps(offset), cpu) == TailCall(cpu.c[0], cpu.(c := Shuffled(cpu.c, offset)))
  {
    hide RunOps;
    var br := [Some(Br(3))];
    var cpu1 := Exec(MovC(3, 0), cpu).cpu;
    var cpu2 := Exec(MovC(0, 1), cpu1).cpu;
    var cpu3 := Exec(MovX(1, 2), cpu2).cpu;
    var cpu4 := Exec(Movz(2, offset), cpu3).cpu;
    assert TailOps(offset)
        == [Some(MovC(3, 0))] + ([Some(MovC(0, 1))] + ([Some(MovX(1, 2))] + ([Some(Movz(2, offset))] + (br + []))));
    OpsOn(MovC(3, 0), [Some(MovC(0, 1))] + ([Some(MovX(1, 2))] + ([Some(Movz(2, offset))] + (br + []))), cpu);
    OpsOn(MovC(0, 1), [Some(MovX(1, 2))] + ([Some(Movz(2, offset))] + (br + [])), cpu1);
    OpsOn(MovX(1, 2), [Some(Movz(2, offset))] + (br + []), cpu2);
    OpsOn(Movz(2, offset), br + [], cpu3);
    OpsLeave(Br(3), [], cpu4);
    assert cpu4.c == Shuffled(cpu.c, offset);
  }

  lemma MovesDecode()
    ensures DecodeWord(MOV_C3_C0) == Some(MovC(3, 0))
    ensures DecodeWord(MOV_C0_C1) == Some(MovC(0, 1))
  {
  }

  lemma BranchDecodes()
    ensures DecodeWord(MOV_X1_X2) == Some(MovX(1, 2))
    ensures DecodeWord(BR_C3) == Some(Br(3))
  {
  }

  /** The compiled helper: `*(uint64_t *)((char *)mem + offset)`, bounded by the capability. */
  function CtxLoadHelper(mem: Value, len: u64, offset: nat, m: Memory): Exit {
    LoadOutcome(mem, offset, m)
  }

  /**
   Calling the generated code with `entry` the helper's entry capability: the shuffle, then the
   helper on the registers it set, if that is where the code branches. Branching anywhere else
   has no meaning here.
   */
  function TailRun(words: seq<u32>, entry: Value, cpu: Cpu): Exit {
    match Run(words, cpu)
    case TailCall(target, at) =>
      if target == entry && target.Cap? then CtxLoadHelper(at.c[0], Bits(at.c[1]), Bits(at.c[2]), at.mem)
      else Undefined
    case other => other
  }

  /** Called as `fn(helper, mem, len)` the code makes the helper's load; through no other C0 does it. */
  lemma TailRunsHelper(offset: nat, entry: Value, cpu: Cpu)
    requires offset < 0x8000
    ensures TailRun(TailWords(offset), entry, cpu) ==
              if cpu.c[0] == entry && entry.Cap? then LoadOutcome(cpu.c[1], offset, cpu.mem) else Undefined
  {
    TailShuffles(offset, cpu);
  }
}
