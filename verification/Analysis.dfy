/**
 The worklist analysis and the translator that runs it before emitting anything.
 */
module Analysis {
  import opened Ebpf
  import opened Contract
  import opened Kinds
  import opened Codegen

  type Table = seq<Option<KindMap>>

  // ----- measure: cells only fall from unreached, through capability, to scalar -----

  function Capabilities(ks: seq<Kind>): (n: nat)
    ensures n <= |ks|
  {
    if ks == [] then 0
    else Capabilities(ks[..|ks| - 1]) + if ks[|ks| - 1].Capability? then 1 else 0
  }

  function Height(cell: Option<KindMap>): (n: nat)
    ensures n <= 12
  {
    match cell case None => 12 case Some(ks) => Capabilities(ks)
  }

  /** Sum of the cells' heights. */
  function Potential<C>(st: seq<C>, height: C -> nat): (n: nat) {
    if st == [] then 0 else Potential(st[..|st| - 1], height) + height(st[|st| - 1])
  }

  lemma {:induction false} PotentialBound<C>(st: seq<C>, height: C -> nat, top: nat)
    requires forall pc | 0 <= pc < |st| :: height(st[pc]) <= top
    ensures Potential(st, height) <= top * |st|
  {
    if st != [] {
      PotentialBound(st[..|st| - 1], height, top);
    }
  }

  lemma {:induction false} CapabilitiesFall(a: seq<Kind>, b: seq<Kind>)
    requires |a| == |b| && forall r | 0 <= r < |a| :: Below(b[r], a[r])
    ensures Capabilities(b) <= Capabilities(a)
    ensures a != b ==> Capabilities(b) < Capabilities(a)
  {
    if a != [] {
      CapabilitiesFall(a[..|a| - 1], b[..|b| - 1]);
      assert a == a[..|a| - 1] + [a[|a| - 1]] && b == b[..|b| - 1] + [b[|b| - 1]];
    }
  }

  lemma {:induction false} PotentialUpdate<C>(st: seq<C>, height: C -> nat, pc: nat, cell: C)
    requires pc < |st|
    ensures Potential(st[pc := cell], height) == Potential(st, height) - height(st[pc]) + height(cell)
  {
    var n := |st| - 1;
    if pc == n {
      assert st[pc := cell][..n] == st[..n];
    } else {
      assert st[pc := cell][..n] == st[..n][pc := cell];
      PotentialUpdate(st[..n], height, pc, cell);
    }
  }

  // ----- what the loop keeps -----

  ghost predicate BelowMap(a: Option<KindMap>, b: KindMap) {
    a.Some? && forall r: Reg :: Below(a.value[r], b[r])
  }

  /** The cells already account for everything leaving `pc`. */
  ghost predicate Propagated(vm: Vm, st: Table, pc: nat)
    requires |st| == |vm.code| && pc < |st|
  {
    st[pc].Some? ==>
      forall t: nat | t < |st| && t in Succs(vm.code[pc], pc) ::
        BelowMap(st[t], Transfer(vm.code[pc], st[pc].value))
  }

  /** Some path to `pc` leaves a kind other than `c`'s capability. */
  ghost predicate Avoids(vm: Vm, pc: nat, r: Reg, c: CapSource) {
    exists p :: PathTo(vm, p, pc) && PathKinds(vm, p)[r] != Capability(c)
  }

  ghost predicate Attains(vm: Vm, pc: nat, r: Reg, k: Kind) {
    exists p :: PathTo(vm, p, pc) && PathKinds(vm, p)[r] == k
  }

  /** Paths explain the kind `k`: one attains it, or scalar is forced by disagreement. */
  ghost predicate Explained(vm: Vm, pc: nat, r: Reg, k: Kind) {
    if k == Scalar then forall c :: Avoids(vm, pc, r, c) else Attains(vm, pc, r, k)
  }

  ghost predicate CellExplained(vm: Vm, pc: nat, cell: Option<KindMap>) {
    cell.Some? ==> Reaches(vm, pc) && forall r: Reg :: Explained(vm, pc, r, cell.value[r])
  }

  lemma AttainsIsExplained(vm: Vm, pc: nat, r: Reg, k: Kind)
    requires Attains(vm, pc, r, k)
    ensures Explained(vm, pc, r, k)
  {
    if k == Scalar {
      forall c ensures Avoids(vm, pc, r, c) {
        var p :| PathTo(vm, p, pc) && PathKinds(vm, p)[r] == k;
      }
    }
  }

  /** Extending every path along an edge carries explanations across it. */
  lemma ExplainedAlong(vm: Vm, pc: nat, t: nat, ks: KindMap, r: Reg)
    requires CellExplained(vm, pc, Some(ks))
    requires t < |vm.code| && t in Succs(vm.code[pc], pc)
    ensures Reaches(vm, t) && Explained(vm, t, r, Transfer(vm.code[pc], ks)[r])
  {
    var p :| PathTo(vm, p, pc);
    assert PathTo(vm, Then(p, t), t);
    match OriginOf(vm.code[pc], r)
    case Fixed(k) =>
      assert PathKinds(vm, Then(p, t))[r] == k;
      AttainsIsExplained(vm, t, r, k);
    case CopyOf(q) =>
      assert Explained(vm, pc, q, ks[q]);
      if ks[q] == Scalar {
        forall c ensures Avoids(vm, t, r, c) {
          assert Avoids(vm, pc, q, c);
          var p :| PathTo(vm, p, pc) && PathKinds(vm, p)[q] != Capability(c);
          assert PathTo(vm, Then(p, t), t) && PathKinds(vm, Then(p, t))[r] != Capability(c);
        }
      } else {
        var p :| PathTo(vm, p, pc) && PathKinds(vm, p)[q] == ks[q];
        assert PathTo(vm, Then(p, t), t) && PathKinds(vm, Then(p, t))[r] == ks[q];
      }
  }

  lemma ExplainedMeet(vm: Vm, pc: nat, r: Reg, a: Kind, b: Kind)
    requires Explained(vm, pc, r, a) && Explained(vm, pc, r, b)
    ensures Explained(vm, pc, r, MeetKind(a, b))
  {
    if a != b && a.Capability? && b.Capability? {
      forall c ensures Avoids(vm, pc, r, c) {
        var k := if a == Capability(c) then b else a;
        var p :| PathTo(vm, p, pc) && PathKinds(vm, p)[r] == k;
      }
    }
  }

  /** At a fixpoint every cell lies below every path. */
  lemma {:induction false} FixpointBelowPath(vm: Vm, st: Table, p: Path, r: Reg)
    requires |st| == |vm.code| && |st| > 0 && BelowMap(st[0], EntryKinds())
    requires forall pc | 0 <= pc < |st| :: Propagated(vm, st, pc)
    requires IsPath(vm, p)
    ensures st[End(p)].Some? && Below(st[End(p)].value[r], PathKinds(vm, p)[r])
  {
    match p
    case Begin =>
    case Then(q, t) =>
      var at := End(q);
      FixpointBelowPath(vm, st, q, r);
      assert Propagated(vm, st, at);
      assert BelowMap(st[t], Transfer(vm.code[at], st[at].value));
      match OriginOf(vm.code[at], r)
      case Fixed(_) =>
      case CopyOf(s) => FixpointBelowPath(vm, st, q, s);
  }

  /** An explained fixpoint is the meet over all paths. */
  lemma FixpointIsMop(vm: Vm, st: Table)
    requires |st| == |vm.code| && |st| > 0 && BelowMap(st[0], EntryKinds())
    requires forall pc | 0 <= pc < |st| :: Propagated(vm, st, pc)
    requires forall pc | 0 <= pc < |st| :: CellExplained(vm, pc, st[pc])
    ensures st == MopTable(vm)
  {
    forall pc | 0 <= pc < |st|
      ensures st[pc] == MopTable(vm)[pc]
    {
      assert CellExplained(vm, pc, st[pc]);
      if Reaches(vm, pc) {
        var p :| PathTo(vm, p, pc);
        FixpointBelowPath(vm, st, p, 0);
        forall r: Reg
          ensures st[pc].value[r] == Mop(vm, pc)[r]
        {
          CellIsMop(vm, st, pc, r);
        }
        assert st[pc].value == Mop(vm, pc);
      }
    }
  }

  lemma CellIsMop(vm: Vm, st: Table, pc: nat, r: Reg)
    requires |st| == |vm.code| && |st| > 0 && BelowMap(st[0], EntryKinds())
    requires forall pc | 0 <= pc < |st| :: Propagated(vm, st, pc)
    requires pc < |st| && st[pc].Some? && CellExplained(vm, pc, st[pc])
    ensures st[pc].value[r] == Mop(vm, pc)[r]
  {
    var k := st[pc].value[r];
    assert Explained(vm, pc, r, k);
    if k.Capability? {
      forall p | PathTo(vm, p, pc)
        ensures PathKinds(vm, p)[r] == k
      {
        FixpointBelowPath(vm, st, p, r);
      }
      assert OnAllPaths(vm, pc, r, Capability(k.source));
      MopAgrees(vm, pc, r, k.source);
    } else {
      forall c
        ensures !OnAllPaths(vm, pc, r, Capability(c))
      {
        assert Avoids(vm, pc, r, c);
      }
    }
  }

  // ----- the worklist -----

  /** The join of what is known at `t` with what an edge brings. */
  function Joined(cell: Option<KindMap>, out: KindMap): KindMap {
    match cell case None => out case Some(ks) => Meet(ks, out)
  }

  /**
   One edge out of `pc`: meet what it brings into the cell of `t`, and queue `t` if that
   changed it.
   */
  method Flow(vm: Vm, st: Table, work: set<nat>, pc: nat, ks: KindMap, t: nat)
    returns (st': Table, work': set<nat>)
    requires |st| == |vm.code| && pc < |st| && t < |st|
    requires CellExplained(vm, pc, Some(ks)) && t in Succs(vm.code[pc], pc)
    requires forall q | 0 <= q < |st| :: CellExplained(vm, q, st[q])
    ensures st' == st[t := Some(Joined(st[t], Transfer(vm.code[pc], ks)))]
    ensures work' == if st' == st then work else work + {t}
    ensures forall q | 0 <= q < |st| :: CellExplained(vm, q, st'[q])
    ensures BelowMap(st'[t], Transfer(vm.code[pc], ks))
    ensures forall b | BelowMap(st[t], b) :: BelowMap(st'[t], b)
    ensures |work'| + Potential(st', Height) <= |work| + Potential(st, Height)
  {
    var out := Transfer(vm.code[pc], ks);
    var cell := Joined(st[t], out);
    st' := st[t := Some(cell)];
    work' := if st[t] == Some(cell) then work else work + {t};
    PotentialUpdate(st, Height, t, Some(cell));
    if st[t].Some? {
      CapabilitiesFall(st[t].value, cell);
    }
    forall r: Reg
      ensures Reaches(vm, t) && Explained(vm, t, r, cell[r])
    {
      ExplainedAlong(vm, pc, t, ks, r);
      if st[t].Some? {
        ExplainedMeet(vm, t, r, st[t].value[r], out[r]);
      }
    }
    assert st[t] == Some(cell) ==> st' == st;
  }

  /** Everything `Analyze` keeps between pops. */
  ghost predicate Consistent(vm: Vm, st: Table, work: set<nat>) {
    && |st| == |vm.code| && |st| > 0
    && BelowMap(st[0], EntryKinds())
    && (forall q | 0 <= q < |st| :: CellExplained(vm, q, st[q]))
    && (forall q | q in work :: q < |st| && st[q].Some?)
  }

  /** All edges out of `pc`, in any order. */
  method FlowAll(vm: Vm, st: Table, work: set<nat>, pc: nat)
    returns (st': Table, work': set<nat>)
    requires Consistent(vm, st, work) && pc < |st| && st[pc].Some?
    requires forall q | 0 <= q < |st| && q !in work && q != pc :: Propagated(vm, st, q)
    ensures Consistent(vm, st', work')
    ensures forall q | 0 <= q < |st'| && q !in work' :: Propagated(vm, st', q)
    ensures |work'| + Potential(st', Height) <= |work| + Potential(st, Height)
  {
    hide Transfer, Potential, CellExplained;
    st', work' := st, work;
    var ks := st[pc].value;
    var todo := set t | t in Succs(vm.code[pc], pc) && 0 <= t < |st|;
    while todo != {}
      invariant Consistent(vm, st', work') && st'[pc].Some?
      invariant forall t | t in todo :: 0 <= t < |st| && t in Succs(vm.code[pc], pc)
      invariant pc in work' || st'[pc] == Some(ks)
      invariant forall t: nat | t < |st| && t in Succs(vm.code[pc], pc) && t !in todo ::
          BelowMap(st'[t], Transfer(vm.code[pc], ks))
      invariant forall q | 0 <= q < |st| && q !in work' && q != pc :: Propagated(vm, st', q)
      invariant |work'| + Potential(st', Height) <= |work| + Potential(st, Height)
      decreases todo
    {
      var t: nat :| t in todo;
      st', work' := Flow(vm, st', work', pc, ks, t);
      todo := todo - {t};
    }
  }

  /**
   The conservative control-flow analysis. The next instruction is taken from the worklist in
   any order; the result is always the meet over all paths, after at most 12 n + 1 pops.
   */
  method Analyze(vm: Vm) returns (st: Table, pops: nat)
    requires |vm.code| > 0
    ensures st == MopTable(vm)
    ensures pops <= 12 * |vm.code| + 1
  {
    st := seq(|vm.code|, _ => None)[0 := Some(EntryKinds())];
    var work: set<nat> := {0};
    pops := 0;
    EntryExplained(vm);
    PotentialBound(st, Height, 12);
    while work != {}
      invariant Consistent(vm, st, work)
      invariant forall q | 0 <= q < |st| && q !in work :: Propagated(vm, st, q)
      invariant pops + |work| + Potential(st, Height) <= 12 * |vm.code| + 1
      decreases 12 * |vm.code| + 1 - pops
    {
      var pc :| pc in work;
      st, work := FlowAll(vm, st, work - {pc}, pc);
      pops := pops + 1;
    }
    FixpointIsMop(vm, st);
  }

  lemma EntryExplained(vm: Vm)
    requires |vm.code| > 0
    ensures CellExplained(vm, 0, Some(EntryKinds()))
  {
    assert PathTo(vm, Begin, 0);
    forall r: Reg
      ensures Explained(vm, 0, r, EntryKinds()[r])
    {
      assert PathKinds(vm, Begin)[r] == EntryKinds()[r];
      AttainsIsExplained(vm, 0, r, EntryKinds()[r]);
    }
  }

  // ----- translation -----

  datatype Translation = Emitted(code: seq<Code>) | Rejected(pc: nat, reason: Reason) | NoCode

  /** Analysis, then a check of every reached instruction, then emission. */
  method Translate(vm: Vm) returns (r: Translation)
    ensures r.Emitted? <==> Accepted(vm)
    ensures r.Emitted? ==> r.code == Compiled(vm)
    ensures r.Rejected? ==>
              && Reaches(vm, r.pc) && CheckAt(vm, r.pc) == Some(r.reason)
              && forall q: nat | q < r.pc && Reaches(vm, q) :: CheckAt(vm, q) == None
    ensures r.NoCode? <==> vm.code == []
  {
    if vm.code == [] {
      return NoCode;
    }
    var st, _ := Analyze(vm);
    var code := [];
    for pc := 0 to |vm.code|
      invariant code == Compiled(vm)[..pc]
      invariant forall q: nat | q < pc && Reaches(vm, q) :: CheckAt(vm, q) == None
    {
      if st[pc].Some? {
        var verdict := Check(vm, pc, vm.code[pc], st[pc].value);
        if verdict.Some? {
          return Rejected(pc, verdict.value);
        }
      }
      code := code + [EmitAt(vm, st, pc)];
    }
    assert code == Compiled(vm);
    return Emitted(code);
  }
}
