/**
 The kind transfer on the backend's mutable register states.
 */
module InPlace {
  import opened Words
  import opened Ebpf
  import opened Contract
  import opened Kinds

  /** Eleven separate register states. */
  ghost predicate RegFile(regs: array<RegState>)
    reads regs, regs[..]
  {
    && regs.Length == REGS
    && (forall r: Reg :: regs[r].Valid())
    && forall r: Reg, q: Reg | r != q :: regs[r] != regs[q]
  }

  function KindsOf(regs: array<RegState>): KindMap
    requires regs.Length == REGS
    reads regs, regs[..]
  {
    seq(REGS, r requires 0 <= r < REGS reads regs, regs[..] => regs[r].Abstract())
  }

  function BoundsOf(regs: array<RegState>): (ids: seq<u32>)
    requires regs.Length == REGS
    reads regs, regs[..]
    ensures |ids| == REGS
  {
    seq(REGS, r requires 0 <= r < REGS reads regs, regs[..] => regs[r].boundsId)
  }

  /** `to` takes over what is known of `from`, including its bounds. */
  method CopyState(to: RegState, from: RegState)
    requires from.Valid()
    modifies to
    ensures to.Valid() && to.Abstract() == old(from.Abstract())
    ensures to.kind == old(from.kind) && to.source == old(from.source) && to.boundsId == old(from.boundsId)
  {
    var cap := from.IsCapability();
    if cap {
      to.MarkCapability(from.source, from.boundsId);
    } else {
      to.MarkScalar();
    }
  }

  /** After a helper call: R1..R5 are scalars and R0 the map value. */
  method MarkCall(regs: array<RegState>, mapBounds: u32)
    requires RegFile(regs)
    modifies regs[..]
    ensures RegFile(regs)
    ensures forall r: Reg :: regs[r].Abstract() ==
              if r == 0 then Capability(MapValue) else if r <= 5 then Scalar else old(regs[r].Abstract())
    ensures regs[0].boundsId == mapBounds && forall r: Reg | 1 <= r <= 5 :: regs[r].boundsId == 0
    ensures forall r: Reg | r > 5 :: regs[r].boundsId == old(regs[r].boundsId)
  {
    regs[0].MarkCapability(MapValue, mapBounds);
    for i := 1 to 6
      invariant RegFile(regs)
      invariant regs[0].Abstract() == Capability(MapValue) && regs[0].boundsId == mapBounds
      invariant forall r: Reg | 1 <= r < i :: regs[r].Abstract() == Scalar
      invariant forall r: Reg | i <= r :: regs[r].Abstract() == old(regs[r].Abstract())
      invariant forall r: Reg | i <= r :: regs[r].boundsId == old(regs[r].boundsId)
    {
      regs[i].MarkScalar();
    }
  }

  /** One register becomes a scalar, the others keep what is known of them. */
  method Clobber(regs: array<RegState>, d: Reg)
    requires RegFile(regs)
    modifies regs[d]
    ensures RegFile(regs) && regs[d].Abstract() == Scalar && regs[d].boundsId == 0
    ensures forall r: Reg | r != d ::
              regs[r].Abstract() == old(regs[r].Abstract()) && regs[r].boundsId == old(regs[r].boundsId)
  {
    regs[d].MarkScalar();
  }

  /**
   What `before` and `ids` become: each register takes the state its origin names; a fresh map
   value gets the helper's bounds id, a fresh scalar none.
   */
  ghost predicate Follows(regs: array<RegState>, insn: Insn, before: KindMap, ids: seq<u32>, mapBounds: u32)
    requires regs.Length == REGS && |ids| == REGS
    reads regs, regs[..]
  {
    forall r: Reg ::
      match OriginOf(insn, r)
      case Fixed(k) => regs[r].Abstract() == k && regs[r].boundsId == if k == Scalar then 0 else mapBounds
      case CopyOf(q) => regs[r].Abstract() == before[q] && regs[r].boundsId == ids[q]
  }

  /** A copy takes the state along, ADD and SUB leave it, anything else makes a scalar. */
  method AluInPlace(regs: array<RegState>, op: AluOp, d: Reg, src: Operand, ghost mapBounds: u32)
    requires RegFile(regs)
    modifies regs[..]
    ensures RegFile(regs)
    ensures Follows(regs, Alu(op, d, src), old(KindsOf(regs)), old(BoundsOf(regs)), mapBounds)
  {
    if op == Mov && src.FromReg? {
      if d != src.reg {
        CopyState(regs[d], regs[src.reg]);
      }
    } else if op != Add && op != Sub {
      Clobber(regs, d);
    }
  }

  /**
   One instruction on the register file is the transfer function on its kinds, and a bounds id
   goes wherever its capability goes.
   */
  method TransferInPlace(regs: array<RegState>, insn: Insn, mapBounds: u32)
    requires RegFile(regs)
    modifies regs[..]
    ensures RegFile(regs)
    ensures Follows(regs, insn, old(KindsOf(regs)), old(BoundsOf(regs)), mapBounds)
    ensures KindsOf(regs) == Transfer(insn, old(KindsOf(regs)))
  {
    ghost var before, ids := KindsOf(regs), BoundsOf(regs);
    hide Transfer;
    match insn {
      case Alu(op, d, src) => AluInPlace(regs, op, d, src, mapBounds);
      case Const64(d, _) => Clobber(regs, d);
      case Load(_, _, d, _, _) => Clobber(regs, d);
      case Call(_) => MarkCall(regs, mapBounds);
      case _ =>
    }
    FollowsTransfers(regs, insn, before, ids, mapBounds);
  }

  lemma FollowsTransfers(regs: array<RegState>, insn: Insn, before: KindMap, ids: seq<u32>,
                                            mapBounds: u32)
    requires regs.Length == REGS && |ids| == REGS && Follows(regs, insn, before, ids, mapBounds)
    ensures KindsOf(regs) == Transfer(insn, before)
  {
    forall r: Reg
      ensures KindsOf(regs)[r] == Transfer(insn, before)[r]
    {
      assert KindsOf(regs)[r] == regs[r].Abstract();
    }
  }
}
