/**
 The dual analysis: at every instruction, the set of kinds that some path leaves in each
 register. Sets only grow, joined by union, on the same worklist scheme.
 */
module MayKinds {
  import opened Ebpf
  import opened Contract
  import opened Kinds
  import opened Analysis

  type MayMap = s: seq<set<Kind>> | |s| == REGS witness seq(REGS, _ => {})

  type MayTable = seq<Option<MayMap>>

  function AllKinds(): set<Kind> {
    {Scalar} + {Capability(NoSource)} + {Capability(Context)} + {Capability(Stack)} + {Capability(MapValue)}
    + {Capability(HelperReturn)}
  }

  lemma EveryKind(k: Kind)
    ensures k in AllKinds()
  {
    match k
    case Scalar =>
    case Capability(c) =>
      match c { case NoSource => case Context => case Stack => case MapValue => case HelperReturn => }
  }

  function MayFrom(o: Origin, ms: MayMap): set<Kind> {
    match o case Fixed(k) => {k} case CopyOf(q) => ms[q]
  }

  function MayTransfer(insn: Insn, ms: MayMap): MayMap {
    seq(REGS, r requires 0 <= r < REGS => MayFrom(OriginOf(insn, r), ms))
  }

  function Union(a: MayMap, b: MayMap): MayMap {
    seq(REGS, r requires 0 <= r < REGS => a[r] + b[r])
  }

  function MayEntry(): MayMap {
    seq(REGS, r requires 0 <= r < REGS => {EntryKind(r)})
  }

  // ----- reference: the join over all paths -----

  ghost function Join(vm: Vm, pc: nat): MayMap {
    seq(REGS, r requires 0 <= r < REGS => set k | k in AllKinds() && Attains(vm, pc, r, k))
  }

  ghost function JoinTable(vm: Vm): MayTable {
    seq(|vm.code|, pc requires 0 <= pc < |vm.code| => if Reaches(vm, pc) then Some(Join(vm, pc)) else None)
  }

  lemma InJoin(vm: Vm, pc: nat, r: Reg, k: Kind)
    ensures k in Join(vm, pc)[r] <==> Attains(vm, pc, r, k)
  {
    EveryKind(k);
  }

  /** The meet keeps a capability kind exactly where the join is that one kind. */
  lemma MeetFromJoin(vm: Vm, pc: nat, r: Reg, c: CapSource)
    requires Reaches(vm, pc)
    ensures Mop(vm, pc)[r] == Capability(c) <==> Join(vm, pc)[r] == {Capability(c)}
  {
    MopAgrees(vm, pc, r, c);
    var p :| PathTo(vm, p, pc);
    var k := PathKinds(vm, p)[r];
    assert Attains(vm, pc, r, k);
    InJoin(vm, pc, r, k);
    if Join(vm, pc)[r] == {Capability(c)} {
      forall q | PathTo(vm, q, pc)
        ensures PathKinds(vm, q)[r] == Capability(c)
      {
        assert Attains(vm, pc, r, PathKinds(vm, q)[r]);
        InJoin(vm, pc, r, PathKinds(vm, q)[r]);
      }
    }
    if OnAllPaths(vm, pc, r, Capability(c)) {
      forall j | j in Join(vm, pc)[r]
        ensures j == Capability(c)
      {
        InJoin(vm, pc, r, j);
      }
    }
  }

  // ----- measure: what a cell can still gain -----

  function Room(ms: seq<set<Kind>>): (n: nat) {
    if ms == [] then 0 else Room(ms[..|ms| - 1]) + |AllKinds() - ms[|ms| - 1]|
  }

  function MayHeight(cell: Option<MayMap>): (n: nat)
    ensures n <= 67
  {
    match cell
    case None => 67
    case Some(ms) => RoomBound(ms); Room(ms)
  }

  lemma SubsetSize(a: set<Kind>, b: set<Kind>)
    requires a <= b
    ensures |a| <= |b| && (a != b ==> |a| < |b|)
  {
    assert b == a + (b - a);
  }

  lemma {:induction false} RoomBound(ms: seq<set<Kind>>)
    ensures Room(ms) <= 6 * |ms|
  {
    if ms != [] {
      RoomBound(ms[..|ms| - 1]);
      SubsetSize(AllKinds() - ms[|ms| - 1], AllKinds());
    }
  }

  lemma Smaller(a: set<Kind>, b: set<Kind>)
    requires a <= b
    ensures |AllKinds() - b| <= |AllKinds() - a|
    ensures a != b ==> |AllKinds() - b| < |AllKinds() - a|
  {
    SubsetSize(AllKinds() - b, AllKinds() - a);
    if a != b {
      var k :| k in b && k !in a;
      EveryKind(k);
      assert k in AllKinds() - a && k !in AllKinds() - b;
    }
  }

  lemma LastRoom(ms: seq<set<Kind>>)
    requires ms != []
    ensures Room(ms) == Room(ms[..|ms| - 1]) + |AllKinds() - ms[|ms| - 1]|
  {
  }

  lemma {:induction false} RoomFalls(a: seq<set<Kind>>, b: seq<set<Kind>>)
    requires |a| == |b| && forall r | 0 <= r < |a| :: a[r] <= b[r]
    ensures Room(b) <= Room(a) && (a != b ==> Room(b) < Room(a))
  {
    hide AllKinds, Room;
    if a != [] {
      RoomFalls(a[..|a| - 1], b[..|b| - 1]);
      Smaller(a[|a| - 1], b[|b| - 1]);
      LastRoom(a);
      LastRoom(b);
      assert a == a[..|a| - 1] + [a[|a| - 1]] && b == b[..|b| - 1] + [b[|b| - 1]];
    }
  }

  // ----- what the loop keeps -----

  ghost predicate Covers(cell: Option<MayMap>, out: MayMap) {
    cell.Some? && forall r: Reg :: out[r] <= cell.value[r]
  }

  ghost predicate Closed(vm: Vm, st: MayTable, pc: nat)
    requires |st| == |vm.code| && pc < |st|
  {
    st[pc].Some? ==>
      forall t: nat | t < |st| && t in Succs(vm.code[pc], pc) :: Covers(st[t], MayTransfer(vm.code[pc], st[pc].value))
  }

  /** Every kind in the cell is left by some path. */
  ghost predicate Witnessed(vm: Vm, pc: nat, cell: Option<MayMap>) {
    cell.Some? ==> Reaches(vm, pc) && forall r: Reg, k | k in cell.value[r] :: Attains(vm, pc, r, k)
  }

  lemma WitnessedAlong(vm: Vm, pc: nat, t: nat, ms: MayMap, r: Reg, k: Kind)
    requires Witnessed(vm, pc, Some(ms)) && t < |vm.code| && t in Succs(vm.code[pc], pc)
    requires k in MayTransfer(vm.code[pc], ms)[r]
    ensures Reaches(vm, t) && Attains(vm, t, r, k)
  {
    var p: Path;
    match OriginOf(vm.code[pc], r) {
      case Fixed(_) => p :| PathTo(vm, p, pc);
      case CopyOf(q) =>
        assert Attains(vm, pc, q, k);
        p :| PathTo(vm, p, pc) && PathKinds(vm, p)[q] == k;
    }
    assert PathTo(vm, Then(p, t), t) && PathKinds(vm, Then(p, t))[r] == k;
  }

  /** At a fixpoint every path's kinds are in its end's cell. */
  lemma {:induction false} PathInFixpoint(vm: Vm, st: MayTable, p: Path, r: Reg)
    requires |st| == |vm.code| && |st| > 0 && Covers(st[0], MayEntry())
    requires forall pc | 0 <= pc < |st| :: Closed(vm, st, pc)
    requires IsPath(vm, p)
    ensures st[End(p)].Some? && PathKinds(vm, p)[r] in st[End(p)].value[r]
  {
    match p
    case Begin => assert EntryKind(r) in MayEntry()[r];
    case Then(q, t) =>
      var at := End(q);
      PathInFixpoint(vm, st, q, r);
      assert Closed(vm, st, at);
      var out := MayTransfer(vm.code[at], st[at].value);
      assert Covers(st[t], out);
      match OriginOf(vm.code[at], r) {
        case Fixed(_) =>
        case CopyOf(s) => PathInFixpoint(vm, st, q, s);
      }
      assert PathKinds(vm, p)[r] in out[r];
  }

  /** A witnessed fixpoint is the join over all paths. */
  lemma FixpointIsJoin(vm: Vm, st: MayTable)
    requires |st| == |vm.code| && |st| > 0 && Covers(st[0], MayEntry())
    requires forall pc | 0 <= pc < |st| :: Closed(vm, st, pc)
    requires forall pc | 0 <= pc < |st| :: Witnessed(vm, pc, st[pc])
    ensures st == JoinTable(vm)
  {
    forall pc | 0 <= pc < |st|
      ensures st[pc] == JoinTable(vm)[pc]
    {
      assert Witnessed(vm, pc, st[pc]);
      if Reaches(vm, pc) {
        var p :| PathTo(vm, p, pc);
        PathInFixpoint(vm, st, p, 0);
        forall r: Reg
          ensures st[pc].value[r] == Join(vm, pc)[r]
        {
          CellIsJoin(vm, st, pc, r);
        }
        assert st[pc].value == Join(vm, pc);
      }
    }
  }

  lemma CellIsJoin(vm: Vm, st: MayTable, pc: nat, r: Reg)
    requires |st| == |vm.code| && |st| > 0 && Covers(st[0], MayEntry())
    requires forall pc | 0 <= pc < |st| :: Closed(vm, st, pc)
    requires pc < |st| && st[pc].Some? && Witnessed(vm, pc, st[pc])
    ensures st[pc].value[r] == Join(vm, pc)[r]
  {
    forall k
      ensures k in st[pc].value[r] <==> k in Join(vm, pc)[r]
    {
      InJoin(vm, pc, r, k);
      if Attains(vm, pc, r, k) {
        var p :| PathTo(vm, p, pc) && PathKinds(vm, p)[r] == k;
        PathInFixpoint(vm, st, p, r);
      }
    }
  }

  // ----- the worklist -----

  function Merged(cell: Option<MayMap>, out: MayMap): MayMap {
    match cell case None => out case Some(ms) => Union(ms, out)
  }

  /** One edge out of `pc`: add what it brings to the cell of `t`, and queue `t` if that changed it. */
  method MayFlow(vm: Vm, st: MayTable, work: set<nat>, pc: nat, ms: MayMap, t: nat)
    returns (st': MayTable, work': set<nat>)
    requires |st| == |vm.code| && pc < |st| && t < |st|
    requires Witnessed(vm, pc, Some(ms)) && t in Succs(vm.code[pc], pc)
    requires forall q | 0 <= q < |st| :: Witnessed(vm, q, st[q])
    ensures st' == st[t := Some(Merged(st[t], MayTransfer(vm.code[pc], ms)))]
    ensures work' == if st' == st then work else work + {t}
    ensures forall q | 0 <= q < |st| :: Witnessed(vm, q, st'[q])
    ensures Covers(st'[t], MayTransfer(vm.code[pc], ms))
    ensures forall b | Covers(st[t], b) :: Covers(st'[t], b)
    ensures |work'| + Potential(st', MayHeight) <= |work| + Potential(st, MayHeight)
  {
    hide *;
    var out := MayTransfer(vm.code[pc], ms);
    var cell := Merged(st[t], out);
    MergedFalls(st[t], out);
    MergedWitnessed(vm, st[t], pc, ms, t);
    CellFalls(st, t, out);
    st' := st[t := Some(cell)];
    work' := if st[t] == Some(cell) then work else work + {t};
    assert st[t] == Some(cell) ==> st' == st;
  }

  lemma CellFalls(st: MayTable, t: nat, out: MayMap)
    requires t < |st|
    ensures var cell := Some(Merged(st[t], out));
            Potential(st[t := cell], MayHeight) + (if st[t] == cell then 0 else 1) <= Potential(st, MayHeight)
  {
    hide Potential, Merged, MayHeight;
    PotentialUpdate(st, MayHeight, t, Some(Merged(st[t], out)));
    MergedFalls(st[t], out);
  }

  lemma MergedFalls(cell: Option<MayMap>, out: MayMap)
    ensures Covers(Some(Merged(cell, out)), out)
    ensures forall b | Covers(cell, b) :: Covers(Some(Merged(cell, out)), b)
    ensures MayHeight(Some(Merged(cell, out))) <= MayHeight(cell)
    ensures cell != Some(Merged(cell, out)) ==> MayHeight(Some(Merged(cell, out))) < MayHeight(cell)
  {
    RoomBound(Merged(cell, out));
    if cell.Some? {
      RoomFalls(cell.value, Merged(cell, out));
    }
  }

  lemma MergedWitnessed(vm: Vm, cell: Option<MayMap>, pc: nat, ms: MayMap, t: nat)
    requires Witnessed(vm, pc, Some(ms)) && t < |vm.code| && t in Succs(vm.code[pc], pc)
    requires Witnessed(vm, t, cell)
    ensures Witnessed(vm, t, Some(Merged(cell, MayTransfer(vm.code[pc], ms))))
  {
    assert pc < |vm.code|;
    hide MayTransfer, Attains, Reaches;
    var out := MayTransfer(vm.code[pc], ms);
    forall r: Reg, k | k in Merged(cell, out)[r]
      ensures Attains(vm, t, r, k)
    {
      if k in out[r] {
        WitnessedAlong(vm, pc, t, ms, r, k);
      }
    }
    ReachesAlong(vm, pc, t);
  }

  lemma ReachesAlong(vm: Vm, pc: nat, t: nat)
    requires Reaches(vm, pc) && t < |vm.code| && t in Succs(vm.code[pc], pc)
    ensures Reaches(vm, t)
  {
    var p :| PathTo(vm, p, pc);
    assert PathTo(vm, Then(p, t), t);
  }

  ghost predicate Kept(vm: Vm, st: MayTable, work: set<nat>) {
    && |st| == |vm.code| && |st| > 0
    && Covers(st[0], MayEntry())
    && (forall q | 0 <= q < |st| :: Witnessed(vm, q, st[q]))
    && (forall q | q in work :: q < |st| && st[q].Some?)
  }

  method MayFlowAll(vm: Vm, st: MayTable, work: set<nat>, pc: nat)
    returns (st': MayTable, work': set<nat>)
    requires Kept(vm, st, work) && pc < |st| && st[pc].Some?
    requires forall q | 0 <= q < |st| && q !in work && q != pc :: Closed(vm, st, q)
    ensures Kept(vm, st', work')
    ensures forall q | 0 <= q < |st'| && q !in work' :: Closed(vm, st', q)
    ensures |work'| + Potential(st', MayHeight) <= |work| + Potential(st, MayHeight)
  {
    hide MayTransfer, Potential, Witnessed, MayHeight;
    st', work' := st, work;
    var ms := st[pc].value;
    var todo := set t | t in Succs(vm.code[pc], pc) && 0 <= t < |st|;
    while todo != {}
      invariant Kept(vm, st', work') && st'[pc].Some?
      invariant forall t | t in todo :: 0 <= t < |st| && t in Succs(vm.code[pc], pc)
      invariant pc in work' || st'[pc] == Some(ms)
      invariant forall t: nat | t < |st| && t in Succs(vm.code[pc], pc) && t !in todo ::
          Covers(st'[t], MayTransfer(vm.code[pc], ms))
      invariant forall q | 0 <= q < |st| && q !in work' && q != pc :: Closed(vm, st', q)
      invariant |work'| + Potential(st', MayHeight) <= |work| + Potential(st, MayHeight)
      decreases todo
    {
      var t: nat :| t in todo;
      st', work' := MayFlow(vm, st', work', pc, ms, t);
      todo := todo - {t};
    }
  }

  /** In any worklist order the result is the join over all paths, after at most 67 n + 1 pops. */
  method MayAnalyze(vm: Vm) returns (st: MayTable, pops: nat)
    requires |vm.code| > 0
    ensures st == JoinTable(vm)
    ensures pops <= 67 * |vm.code| + 1
  {
    st := seq(|vm.code|, _ => None)[0 := Some(MayEntry())];
    var work: set<nat> := {0};
    pops := 0;
    StartKept(vm, st);
    hide *;
    while work != {}
      invariant Kept(vm, st, work)
      invariant forall q | 0 <= q < |st| && q !in work :: Closed(vm, st, q)
      invariant pops + |work| + Potential(st, MayHeight) <= 67 * |vm.code| + 1
      decreases 67 * |vm.code| + 1 - pops
    {
      var pc :| pc in work;
      st, work := MayFlowAll(vm, st, work - {pc}, pc);
      pops := pops + 1;
    }
    FixpointIsJoin(vm, st);
  }

  lemma StartKept(vm: Vm, st: MayTable)
    requires |vm.code| > 0 && |st| == |vm.code| && st[0] == Some(MayEntry())
    requires forall q | 0 < q < |st| :: st[q] == None
    ensures Kept(vm, st, {0})
    ensures forall q | 0 < q < |st| :: Closed(vm, st, q)
    ensures Potential(st, MayHeight) <= 67 * |st|
  {
    hide MayEntry, MayHeight, Attains, Reaches, MayTransfer, Potential, Succs;
    EntryWitnessed(vm);
    PotentialBound(st, MayHeight, 67);
  }

  lemma EntryWitnessed(vm: Vm)
    requires |vm.code| > 0
    ensures Witnessed(vm, 0, Some(MayEntry()))
  {
    assert PathTo(vm, Begin, 0);
    forall r: Reg, k | k in MayEntry()[r]
      ensures Attains(vm, 0, r, k)
    {
      assert PathKinds(vm, Begin)[r] == k;
    }
  }
}
