/**
 The object emitter: raw eBPF bytes to `ldr x0, [c0, #offset]; ret c30`.
 */
module ObjEmit {
  import opened Words
  import opened Ebpf
  import opened Bytecode

  const EBPF_OP_LDXDW: u8 := 0x79
  const EBPF_OP_MOV64_REG: u8 := 0xbf
  const EBPF_OP_EXIT: u8 := 0x95

  /** The messages the emitter exits with. */
  datatype Failure =
    | NoLeadingAlias
    | BadLength
    | NotContextLoad
    | NotPlainExit
    | NegativeOffset
    | Misaligned
    | TooLarge

  datatype Result<+T> = Ok(value: T) | Err(error: Failure)

  predicate IsAlias(insn: seq<u8>)
    requires |insn| == 8
  {
    var (dst, src) := DecodeRegs(insn);
    && insn[0] == EBPF_OP_MOV64_REG && src == 1 && 2 <= dst <= 9
    && ParseSignedLE(insn[2..4]) == 0 && ParseSignedLE(insn[4..8]) == 0
  }

  /** The context load through `contextReg` followed by EXIT. */
  function OffsetOfTail(contextReg: int, load: seq<u8>, exit: seq<u8>): Result<int>
    requires |load| == 8 && |exit| == 8
  {
    var (dst, src) := DecodeRegs(load);
    if load[0] != EBPF_OP_LDXDW || dst != 0 || src != contextReg || ParseSignedLE(load[4..8]) != 0 then
      Err(NotContextLoad)
    else if exit != [EBPF_OP_EXIT, 0, 0, 0, 0, 0, 0, 0] then Err(NotPlainExit)
    else Ok(ParseSignedLE(load[2..4]))
  }

  function OffsetFromProgram(program: seq<u8>): Result<int> {
    if |program| == 16 then OffsetOfTail(1, program[..8], program[8..])
    else if |program| == 24 then
      if !IsAlias(program[..8]) then Err(NoLeadingAlias)
      else OffsetOfTail(DecodeRegs(program[..8]).0, program[8..16], program[16..])
    else Err(BadLength)
  }

  function ValidateOffset(offset: int): Option<Failure> {
    if offset < 0 then Some(NegativeOffset)
    else if offset % 8 != 0 then Some(Misaligned)
    else if offset / 8 >= 0x1000 then Some(TooLarge)
    else None
  }

  /** The offset of the load that is emitted. */
  function Emit(program: seq<u8>): (r: Result<int>)
    ensures r.Ok? ==> 0 <= r.value < 0x8000 && r.value % 8 == 0
  {
    match OffsetFromProgram(program)
    case Err(e) => Err(e)
    case Ok(offset) =>
      match ValidateOffset(offset)
      case Some(e) => Err(e)
      case None => Ok(offset)
  }

  // ----- the two documented shapes -----

  function LoadLine(n: nat, offset: int): Raw { Raw(EBPF_OP_LDXDW, 0, n, offset, 0) }
  function AliasLine(n: nat): Raw { Raw(EBPF_OP_MOV64_REG, n, 1, 0, 0) }
  function ExitLine(): Raw { Raw(EBPF_OP_EXIT, 0, 0, 0, 0) }

  function DirectShape(offset: int): seq<Raw> { [LoadLine(1, offset), ExitLine()] }
  function AliasShape(n: nat, offset: int): seq<Raw> { [AliasLine(n), LoadLine(n, offset), ExitLine()] }

  ghost predicate Documented(program: seq<u8>, offset: int) {
    || program == Assemble(DirectShape(offset))
    || exists n: nat :: 2 <= n <= 9 && program == Assemble(AliasShape(n, offset))
  }

  lemma AssembleTwo(a: Raw, b: Raw)
    ensures Assemble([a, b]) == EncodeUnmasked(a) + EncodeUnmasked(b)
  {
    assert [a, b][..1] == [a] && [a][..0] == [];
    assert Assemble([a]) == EncodeUnmasked(a);
  }

  lemma AssembleThree(a: Raw, b: Raw, c: Raw)
    ensures Assemble([a, b, c]) == EncodeUnmasked(a) + EncodeUnmasked(b) + EncodeUnmasked(c)
  {
    assert [a, b, c][..2] == [a, b];
    AssembleTwo(a, b);
  }

  lemma PlainExit(b: seq<u8>)
    requires |b| == 8
    ensures b == [EBPF_OP_EXIT, 0, 0, 0, 0, 0, 0, 0] <==> b == EncodeUnmasked(ExitLine())
  {
    OrNibbles(0, 0);
  }

  lemma TailExact(n: nat, load: seq<u8>, exit: seq<u8>, offset: int)
    requires |load| == 8 && |exit| == 8 && n < 16
    ensures OffsetOfTail(n, load, exit) == Ok(offset) <==>
            && -0x8000 <= offset < 0x8000
            && load == EncodeUnmasked(LoadLine(n, offset)) && exit == EncodeUnmasked(ExitLine())
  {
    PlainExit(exit);
    DecodedInRange(load);
    if -0x8000 <= offset < 0x8000 {
      DecodeIsInverse(LoadLine(n, offset), load);
    }
  }

  lemma AliasExact(insn: seq<u8>, n: nat)
    requires |insn| == 8
    ensures IsAlias(insn) && DecodeRegs(insn).0 == n <==> 2 <= n <= 9 && insn == EncodeUnmasked(AliasLine(n))
  {
    if 2 <= n <= 9 {
      DecodeIsInverse(AliasLine(n), insn);
    }
  }

  /** The parser accepts exactly the documented shapes. */
  lemma ParsesExactly(program: seq<u8>, offset: int)
    ensures OffsetFromProgram(program) == Ok(offset) <==> -0x8000 <= offset < 0x8000 && Documented(program, offset)
  {
    if |program| == 16 {
      TailExact(1, program[..8], program[8..], offset);
      AssembleTwo(LoadLine(1, offset), ExitLine());
      assert program == program[..8] + program[8..];
      forall n: nat ensures program != Assemble(AliasShape(n, offset)) {
        assert |Assemble(AliasShape(n, offset))| == 24;
      }
    } else if |program| == 24 {
      AliasParsesExactly(program, offset);
    } else {
      forall n: nat ensures program != Assemble(AliasShape(n, offset)) {
        assert |Assemble(AliasShape(n, offset))| == 24;
      }
      assert |Assemble(DirectShape(offset))| == 16;
    }
  }

  lemma AliasParsesExactly(program: seq<u8>, offset: int)
    requires |program| == 24
    ensures OffsetFromProgram(program) == Ok(offset) <==> -0x8000 <= offset < 0x8000 && Documented(program, offset)
  {
    var alias, load, exit := program[..8], program[8..16], program[16..];
    var d := DecodeRegs(alias).0;
    assert program == alias + load + exit;
    assert |Assemble(DirectShape(offset))| == 16;
    if OffsetFromProgram(program) == Ok(offset) {
      AliasExact(alias, d);
      TailExact(d, load, exit, offset);
      AssembleThree(AliasLine(d), LoadLine(d, offset), ExitLine());
      assert program == Assemble(AliasShape(d, offset));
    }
    if -0x8000 <= offset < 0x8000 && Documented(program, offset) {
      var n: nat :| 2 <= n <= 9 && program == Assemble(AliasShape(n, offset));
      AssembleThree(AliasLine(n), LoadLine(n, offset), ExitLine());
      var a, l, e := EncodeUnmasked(AliasLine(n)), EncodeUnmasked(LoadLine(n, offset)), EncodeUnmasked(ExitLine());
      ThreeParts(a, l, e, program);
      AliasExact(alias, n);
      TailExact(n, load, exit, offset);
    }
  }

  lemma ThreeParts(a: seq<u8>, b: seq<u8>, c: seq<u8>, whole: seq<u8>)
    requires |a| == 8 && |b| == 8 && |c| == 8 && whole == a + b + c
    ensures whole[..8] == a && whole[8..16] == b && whole[16..] == c
  {
  }

  /**
   Exact acceptance: code is emitted for an offset exactly when the bytes are one of the two
   documented shapes with that offset, non-negative and 8-byte aligned.
   */
  lemma EmitsExactly(program: seq<u8>, offset: int)
    ensures Emit(program) == Ok(offset) <==>
            0 <= offset < 0x8000 && offset % 8 == 0 && Documented(program, offset)
  {
    ParsesExactly(program, offset);
  }

  /** The 12-bit field holds every offset a program can encode: that refusal never happens. */
  lemma NeverTooLarge(program: seq<u8>)
    ensures Emit(program) != Err(TooLarge)
  {
    match OffsetFromProgram(program)
    case Ok(offset) => ParsesExactly(program, offset);
    case Err(_) =>
  }

  // ----- refusals -----

  /** The context load, behind an alias of R1 unless it goes through R1 itself. */
  ghost predicate LoadsContext(program: seq<u8>, n: nat, offset: int) {
    && -0x8000 <= offset < 0x8000
    && if n == 1 then |program| == 16 && program[..8] == EncodeUnmasked(LoadLine(1, offset))
       else && 2 <= n <= 9 && |program| == 24 && program[..8] == EncodeUnmasked(AliasLine(n))
            && program[8..16] == EncodeUnmasked(LoadLine(n, offset))
  }

  /** Which message each refused byte string gets; any other one is not a context load. */
  lemma RefusesExactly(program: seq<u8>)
    ensures Emit(program) == Err(BadLength) <==> |program| != 16 && |program| != 24
    ensures Emit(program) == Err(NoLeadingAlias) <==>
            |program| == 24 && forall n: nat | 2 <= n <= 9 :: program[..8] != EncodeUnmasked(AliasLine(n))
    ensures Emit(program) == Err(NotPlainExit) <==>
            && (exists n: nat, offset :: LoadsContext(program, n, offset))
            && program[|program| - 8..] != EncodeUnmasked(ExitLine())
    ensures Emit(program) == Err(NegativeOffset) <==>
            exists offset :: -0x8000 <= offset < 0 && Documented(program, offset)
    ensures Emit(program) == Err(Misaligned) <==>
            exists offset :: 0 <= offset < 0x8000 && offset % 8 != 0 && Documented(program, offset)
  {
    RefusedParts(program);
    RefusedOffsets(program);
    hide *;
  }

  lemma RefusedOffsets(program: seq<u8>)
    ensures Emit(program) == Err(NegativeOffset) <==>
            exists offset :: -0x8000 <= offset < 0 && Documented(program, offset)
    ensures Emit(program) == Err(Misaligned) <==>
            exists offset :: 0 <= offset < 0x8000 && offset % 8 != 0 && Documented(program, offset)
  {
    forall offset
      ensures OffsetFromProgram(program) == Ok(offset) <==> -0x8000 <= offset < 0x8000 && Documented(program, offset)
    {
      ParsesExactly(program, offset);
    }
    PartsFail(program);
    hide OffsetFromProgram, Documented;
  }

  /** Taking the bytes apart never fails for the sake of the offset. */
  lemma PartsFail(program: seq<u8>)
    ensures match OffsetFromProgram(program)
            case Ok(_) => true
            case Err(e) => e !in {NegativeOffset, Misaligned, TooLarge} && Emit(program) == Err(e)
  {
    hide DecodeRegs, ParseSignedLE;
  }

  lemma RefusedParts(program: seq<u8>)
    ensures Emit(program) == Err(BadLength) <==> |program| != 16 && |program| != 24
    ensures Emit(program) == Err(NoLeadingAlias) <==>
            |program| == 24 && forall n: nat | 2 <= n <= 9 :: program[..8] != EncodeUnmasked(AliasLine(n))
    ensures Emit(program) == Err(NotPlainExit) <==>
            && (exists n: nat, offset :: LoadsContext(program, n, offset))
            && program[|program| - 8..] != EncodeUnmasked(ExitLine())
  {
    if |program| == 16 {
      DirectRefused(program);
    } else if |program| == 24 {
      AliasRefused(program);
    }
  }

  lemma DirectRefused(program: seq<u8>)
    requires |program| == 16
    ensures Emit(program) != Err(NoLeadingAlias)
    ensures Emit(program) == Err(NotPlainExit) <==>
            && (exists n: nat, offset :: LoadsContext(program, n, offset))
            && program[8..] != EncodeUnmasked(ExitLine())
  {
    hide EncodeUnmasked, DecodeRegs, OffsetOfTail;
    TailRefused(1, program[..8], program[8..]);
    forall offset
      ensures LoadsContext(program, 1, offset) <==>
              -0x8000 <= offset < 0x8000 && program[..8] == EncodeUnmasked(LoadLine(1, offset))
    {
    }
  }

  lemma AliasRefused(program: seq<u8>)
    requires |program| == 24
    ensures Emit(program) == Err(NoLeadingAlias) <==>
            forall n: nat | 2 <= n <= 9 :: program[..8] != EncodeUnmasked(AliasLine(n))
    ensures Emit(program) == Err(NotPlainExit) <==>
            && (exists n: nat, offset :: LoadsContext(program, n, offset))
            && program[16..] != EncodeUnmasked(ExitLine())
  {
    var alias, d := program[..8], DecodeRegs(program[..8]).0;
    forall n: nat
      ensures IsAlias(alias) && d == n <==> 2 <= n <= 9 && alias == EncodeUnmasked(AliasLine(n))
    {
      AliasExact(alias, n);
    }
    hide EncodeUnmasked, DecodeRegs, IsAlias, OffsetOfTail;
    if IsAlias(alias) {
      assert 2 <= d <= 9 && program[..8] == EncodeUnmasked(AliasLine(d));
      TailRefused(d, program[8..16], program[16..]);
      forall offset
        ensures LoadsContext(program, d, offset) <==>
                -0x8000 <= offset < 0x8000 && program[8..16] == EncodeUnmasked(LoadLine(d, offset))
      {
      }
    }
  }

  lemma TailRefused(n: nat, load: seq<u8>, exit: seq<u8>)
    requires |load| == 8 && |exit| == 8 && n < 16
    ensures OffsetOfTail(n, load, exit) == Err(NotPlainExit) <==>
            && (exists offset :: -0x8000 <= offset < 0x8000 && load == EncodeUnmasked(LoadLine(n, offset)))
            && exit != EncodeUnmasked(ExitLine())
    ensures OffsetOfTail(n, load, exit).Err? ==> OffsetOfTail(n, load, exit).error in {NotContextLoad, NotPlainExit}
  {
    PlainExit(exit);
    DecodedInRange(load);
    forall offset | -0x8000 <= offset < 0x8000
      ensures EncodeUnmasked(LoadLine(n, offset)) == load <==> Decode(load) == LoadLine(n, offset)
    {
      DecodeIsInverse(LoadLine(n, offset), load);
    }
    hide EncodeUnmasked, ParseSignedLE;
    var offset := Decode(load).off;
    assert OffsetOfTail(n, load, exit) == Err(NotPlainExit) ==> load == EncodeUnmasked(LoadLine(n, offset));
  }
}
