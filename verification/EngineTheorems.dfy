/** Properties of every run of the simulated engine. */
module EngineTheorems {
  import opened Text
  import opened GoInt
  import opened EngineModel

  /** The one id under which the operation may change something. */
  function Target(op: Op): Option<string> {
    match op
    case CreateVM(_, clock) => Some(VMID(clock))
    case CloneVM(_, _, clock) => Some(VMID(clock))
    case StartVM(id) => Some(id)
    case StopVM(id, _) => Some(id)
    case RestartVM(id) => Some(id)
    case DeleteVM(id, _) => Some(id)
    case ResizeVM(id, _, _) => Some(id)
    case ExpandDisk(id, _) => Some(id)
    case CreateCheckpoint(id, _, _) => Some(id)
    case DeleteCheckpoint(id, _) => Some(id)
    case _ => None
  }

  predicate Adds(op: Op) {
    op.CreateVM? || op.CloneVM?
  }

  // ---------- the inventory invariant ----------

  lemma SwitchesDistinct(cfg: Config, now: int)
    ensures
      var sw := Fresh(cfg, now).switches;
      forall i, j :: 0 <= i < j < |sw| ==> sw[i] != sw[j]
  {
    var sw := Fresh(cfg, now).switches;
    assert |sw[0]| == 14 && |sw[1]| == 17 && |sw[2]| == 15 && |sw[3]| == 11;
  }

  lemma FreshOk(cfg: Config, now: int)
    ensures Inv(cfg, Fresh(cfg, now))
  {
    var e := Fresh(cfg, now);
    SwitchesDistinct(cfg, now);
    IDSpaceHasDemo(RESIDUES);
    DemoOk(cfg.nodeID, now);
    assert e.vms.Keys == {DEMO_ID} && e.checkpoints == map[];
    assert NamesUnique(cfg, e.vms);
  }

  lemma DemoOk(nodeID: string, now: int)
    ensures VMOk(DemoVM(nodeID, now))
  {
  }

  lemma {:induction false} IDSpaceHasDemo(n: nat)
    ensures DEMO_ID in IDSpace(n)
  {
    if n == 0 {
    } else {
      IDSpaceHasDemo(n - 1);
    }
  }

  lemma AddVMKeeps(cfg: Config, e: Engine, vm: VM, clock: Clock)
    requires Inv(cfg, e) && VMOk(vm) && vm.id == VMID(clock) && !NameTaken(cfg, e.vms, vm.name)
    ensures Inv(cfg, e.(vms := e.vms[vm.id := vm]))
  {
    IDInSpace(clock.nano % RESIDUES, RESIDUES);
    AddedNameUnique(cfg, e.vms, vm);
  }

  lemma AddedNameUnique(cfg: Config, vms: VMs, vm: VM)
    requires NamesUnique(cfg, vms) && !NameTaken(cfg, vms, vm.name)
    ensures NamesUnique(cfg, vms[vm.id := vm])
  {
  }

  lemma AddsKeep(cfg: Config, e: Engine, op: Op)
    requires Inv(cfg, e) && Adds(op) && Succeeds(cfg, e, op)
    ensures Inv(cfg, Apply(cfg, e, op))
  {
    if op.CreateVM? {
      GigabytesWrap(op.req.diskSizeGB);
      AddVMKeeps(cfg, e, NewVM(cfg, op.req, op.clock), op.clock);
    } else {
      AddVMKeeps(cfg, e, CloneOf(cfg, e.vms[op.source], op.newName, op.clock), op.clock);
    }
  }

  lemma ChangeVMKeeps(cfg: Config, e: Engine, id: string, vm: VM)
    requires Inv(cfg, e) && id in e.vms && VMOk(vm) && vm.id == id && vm.name == e.vms[id].name
    ensures Inv(cfg, e.(vms := e.vms[id := vm]))
  {
    var vms := e.vms[id := vm];
    SameNamesUnique(cfg, e.vms, vms);
  }

  lemma SameNamesUnique(cfg: Config, before: VMs, after: VMs)
    requires NamesUnique(cfg, before) && after.Keys <= before.Keys
    requires forall id :: id in after ==> after[id].name == before[id].name
    ensures NamesUnique(cfg, after)
  {
  }

  lemma UpdateKeeps(cfg: Config, e: Engine, op: Op)
    requires Inv(cfg, e) && Succeeds(cfg, e, op)
    requires !Adds(op) && !op.DeleteVM? && !op.CreateCheckpoint? && !op.DeleteCheckpoint? && !op.EnsureVirtualSwitch?
    ensures Inv(cfg, Apply(cfg, e, op))
  {
    if op.ExpandDisk? {
      GigabytesWrap(op.newSizeGB);
    }
    if op.StartVM? || op.StopVM? || op.RestartVM? || op.ResizeVM? || op.ExpandDisk? {
      ChangeVMKeeps(cfg, e, op.id, Apply(cfg, e, op).vms[op.id]);
    }
  }

  lemma CheckpointsKeep(cfg: Config, e: Engine, id: string, list: seq<Checkpoint>)
    requires Inv(cfg, e) && id in e.vms
    requires forall k :: 0 <= k < |list| ==> list[k].vmID == id
    ensures Inv(cfg, e.(checkpoints := e.checkpoints[id := list]))
  {
  }

  lemma CheckpointOpKeeps(cfg: Config, e: Engine, op: Op)
    requires Inv(cfg, e) && Succeeds(cfg, e, op) && (op.CreateCheckpoint? || op.DeleteCheckpoint?)
    ensures Inv(cfg, Apply(cfg, e, op))
  {
    var list := List(e, op.id);
    assert forall k :: 0 <= k < |list| ==> list[k].vmID == op.id;
    if op.CreateCheckpoint? {
      CheckpointsKeep(cfg, e, op.id, list + [NewCheckpoint(e.vms[op.id].id, op.name, op.clock)]);
    } else {
      CheckpointsKeep(cfg, e, op.id, RemoveFirst(list, op.name));
    }
  }

  lemma DropVMKeeps(cfg: Config, e: Engine, id: string)
    requires Inv(cfg, e)
    ensures Inv(cfg, e.(vms := e.vms - {id}, checkpoints := e.checkpoints - {id}))
  {
  }

  lemma SwitchKeeps(cfg: Config, e: Engine, name: string)
    requires Inv(cfg, e)
    ensures name !in e.switches ==> Inv(cfg, e.(switches := e.switches + [name]))
  {
  }

  /** Every operation keeps the invariant, even when a generated id collides. */
  lemma StepKeeps(cfg: Config, e: Engine, op: Op)
    requires Inv(cfg, e)
    ensures Inv(cfg, Apply(cfg, e, op))
  {
    if Succeeds(cfg, e, op) {
      if Adds(op) {
        AddsKeep(cfg, e, op);
      } else if op.CreateCheckpoint? || op.DeleteCheckpoint? {
        CheckpointOpKeeps(cfg, e, op);
      } else if op.DeleteVM? {
        DropVMKeeps(cfg, e, op.id);
      } else if op.EnsureVirtualSwitch? {
        SwitchKeeps(cfg, e, op.name);
      } else {
        UpdateKeeps(cfg, e, op);
      }
    }
  }

  lemma {:induction false} RunKeeps(cfg: Config, e: Engine, ops: seq<Op>)
    requires Inv(cfg, e)
    ensures Inv(cfg, Run(cfg, e, ops))
    decreases |ops|
  {
    if ops == [] {
    } else {
      StepKeeps(cfg, e, ops[0]);
      RunKeeps(cfg, Apply(cfg, e, ops[0]), ops[1..]);
    }
  }

  lemma FoldedPath(cfg: Config, a: string, b: string)
    requires EqualFold(cfg, DiskPath(a), DiskPath(b))
    ensures EqualFold(cfg, a, b)
  {
    var p := |DISK_DIR|;
    assert |a| == |b|;
    forall i | 0 <= i < |a|
      ensures Folded(cfg, a)[i] == Folded(cfg, b)[i]
    {
      assert DiskPath(a)[p + i] == a[i] && DiskPath(b)[p + i] == b[i];
      assert Folded(cfg, DiskPath(a))[p + i] == Folded(cfg, DiskPath(b))[p + i];
    }
  }

  /** In every reachable engine: key equals VM id, names and disk paths are distinct even
      case-insensitively, checkpoints belong to existing VMs, a STOPPED VM shows no uptime, load or
      address, and disk sizes are whole gigabytes. */
  lemma InventoryInvariant(cfg: Config, now: int, ops: seq<Op>)
    ensures
      var e := Run(cfg, Fresh(cfg, now), ops);
      && (forall id :: id in e.vms ==>
            e.vms[id].id == id && IdleWhenStopped(e.vms[id]) && e.vms[id].diskSizeBytes % GIB == 0)
      && (forall a, b :: a in e.vms && b in e.vms && a != b ==>
            && !EqualFold(cfg, e.vms[a].name, e.vms[b].name)
            && !EqualFold(cfg, e.vms[a].diskPath, e.vms[b].diskPath))
      && e.checkpoints.Keys <= e.vms.Keys
      && |e.vms| <= 1000001
  {
    FreshOk(cfg, now);
    RunKeeps(cfg, Fresh(cfg, now), ops);
    var e := Run(cfg, Fresh(cfg, now), ops);
    forall a, b | a in e.vms && b in e.vms && a != b
      ensures !EqualFold(cfg, e.vms[a].diskPath, e.vms[b].diskPath)
    {
      if EqualFold(cfg, e.vms[a].diskPath, e.vms[b].diskPath) {
        FoldedPath(cfg, e.vms[a].name, e.vms[b].name);
      }
    }
    IDSpaceSize(RESIDUES);
    SubsetSize(e.vms.Keys, IDSpace(RESIDUES));
  }

  lemma {:induction false} SubsetSize<T>(a: set<T>, b: set<T>)
    requires a <= b
    ensures |a| <= |b|
  {
    assert b == a + (b - a);
  }

  // ---------- counting ----------

  /** The id the operation generates is already in use. */
  predicate Collides(e: Engine, op: Op) {
    Adds(op) && VMID(op.clock) in e.vms
  }

  datatype Tally = Tally(added: nat, deleted: nat, collided: nat)

  function Count(cfg: Config, e: Engine, ops: seq<Op>): Tally
    decreases |ops|
  {
    if ops == [] then Tally(0, 0, 0)
    else
      var rest := Count(cfg, Apply(cfg, e, ops[0]), ops[1..]);
      if !Succeeds(cfg, e, ops[0]) then rest
      else
        Tally(rest.added + (if Adds(ops[0]) then 1 else 0),
              rest.deleted + (if ops[0].DeleteVM? then 1 else 0),
              rest.collided + (if Collides(e, ops[0]) then 1 else 0))
  }

  /** VMs are conserved: one more for each create or clone, one fewer for each delete and for each
      collision, which silently replaces a VM. */
  lemma {:induction false} VMsConserved(cfg: Config, e: Engine, ops: seq<Op>)
    ensures
      var t := Count(cfg, e, ops);
      |Run(cfg, e, ops).vms| + t.deleted + t.collided == |e.vms| + t.added
    decreases |ops|
  {
    if ops == [] {
    } else {
      VMsConserved(cfg, Apply(cfg, e, ops[0]), ops[1..]);
      OneStepCount(cfg, e, ops[0]);
    }
  }

  lemma OneStepCount(cfg: Config, e: Engine, op: Op)
    ensures
      var ok := Succeeds(cfg, e, op);
      |Apply(cfg, e, op).vms| + (if ok && op.DeleteVM? then 1 else 0) + (if ok && Collides(e, op) then 1 else 0)
      == |e.vms| + (if ok && Adds(op) then 1 else 0)
  {
    if Succeeds(cfg, e, op) && op.DeleteVM? {
      assert e.vms == (e.vms - {op.id})[op.id := e.vms[op.id]];
    }
  }

  /** Starting from the seeded VM, the count is 1 + adds - deletes exactly when no id collided. */
  lemma CountExactIffFresh(cfg: Config, now: int, ops: seq<Op>)
    ensures
      var t := Count(cfg, Fresh(cfg, now), ops);
      |Run(cfg, Fresh(cfg, now), ops).vms| == 1 + t.added - t.deleted <==> t.collided == 0
  {
    VMsConserved(cfg, Fresh(cfg, now), ops);
    assert |Fresh(cfg, now).vms| == 1;
  }

  // ---------- each operation touches only its target ----------

  lemma OnlyTargetChanges(cfg: Config, e: Engine, op: Op, other: string)
    requires Target(op) != Some(other)
    ensures
      var t := Apply(cfg, e, op);
      && (other in t.vms <==> other in e.vms)
      && (other in e.vms ==> t.vms[other] == e.vms[other])
      && List(t, other) == List(e, other)
  {
  }

  /** A created or cloned VM has no checkpoints, given a fresh id. */
  lemma NewVMHasNoCheckpoints(cfg: Config, e: Engine, op: Op)
    requires Inv(cfg, e) && Adds(op) && Succeeds(cfg, e, op) && !Collides(e, op)
    ensures List(Apply(cfg, e, op), VMID(op.clock)) == []
  {
  }

  // ---------- disks ----------

  /** ExpandDisk succeeds exactly when the size, modulo the 2^34 GB at which uint64 bytes wrap,
      is above the current one; the disk then has exactly that size. */
  lemma ExpandExactly(cfg: Config, e: Engine, id: string, gb: uint64)
    requires Inv(cfg, e) && id in e.vms
    ensures
      var wrapped := gb % 0x4_0000_0000;
      var op := ExpandDisk(id, gb);
      && (Succeeds(cfg, e, op) <==> wrapped > e.vms[id].diskSizeBytes / GIB)
      && (Succeeds(cfg, e, op) ==> Apply(cfg, e, op).vms[id].diskSizeBytes == wrapped * GIB)
      && (gb < 0x4_0000_0000 ==> (Succeeds(cfg, e, op) <==> gb > e.vms[id].diskSizeBytes / GIB))
  {
    GigabytesWrap(gb);
    assert VMOk(e.vms[id]);
    ExpandTest(e.vms[id].diskSizeBytes, gb);
  }

  lemma ExpandTest(size: uint64, gb: uint64)
    requires size % GIB == 0
    ensures gb != 0 && Gigabytes(gb) > size <==> gb % 0x4_0000_0000 > size / GIB
    ensures gb < 0x4_0000_0000 ==> gb % 0x4_0000_0000 == gb
  {
    GigabytesWrap(gb);
    var units, wrapped := size / GIB, gb % 0x4_0000_0000;
    assert size == units * GIB;
    assert wrapped * GIB > units * GIB <==> wrapped > units;
  }

  ghost predicate Keeps(cfg: Config, e: Engine, ops: seq<Op>, id: string)
    decreases |ops|
  {
    ops == [] ||
    (&& (ops[0].DeleteVM? ==> ops[0].id != id)
     && (Adds(ops[0]) ==> VMID(ops[0].clock) != id)
     && Keeps(cfg, Apply(cfg, e, ops[0]), ops[1..], id))
  }

  function Expansions(cfg: Config, e: Engine, ops: seq<Op>, id: string): nat
    decreases |ops|
  {
    if ops == [] then 0
    else
      (if ops[0].ExpandDisk? && ops[0].id == id && Succeeds(cfg, e, ops[0]) then 1 else 0)
      + Expansions(cfg, Apply(cfg, e, ops[0]), ops[1..], id)
  }

  /** Over any run that keeps the VM, its disk grows by at least 1 GB per successful expansion and
      is otherwise constant. */
  lemma {:induction false} DiskGrows(cfg: Config, e: Engine, ops: seq<Op>, id: string)
    requires Inv(cfg, e) && id in e.vms && Keeps(cfg, e, ops, id)
    ensures
      var t, k := Run(cfg, e, ops), Expansions(cfg, e, ops, id);
      && id in t.vms
      && t.vms[id].diskSizeBytes >= e.vms[id].diskSizeBytes + k * GIB
      && (k == 0 ==> t.vms[id].diskSizeBytes == e.vms[id].diskSizeBytes)
    decreases |ops|
  {
    if ops == [] {
    } else {
      StepKeeps(cfg, e, ops[0]);
      if ops[0].ExpandDisk? && ops[0].id == id {
        ExpandExactly(cfg, e, id, ops[0].newSizeGB);
      }
      DiskGrows(cfg, Apply(cfg, e, ops[0]), ops[1..], id);
    }
  }

  // ---------- checkpoints ----------

  lemma {:induction false} FirstMatchAppend(list: seq<Checkpoint>, cp: Checkpoint, key: string)
    requires Matches(cp, key)
    ensures FirstMatch(list + [cp], key) == FirstMatch(list, key)
  {
    if list == [] {
      assert [] + [cp] == [cp];
    } else {
      assert (list + [cp])[1..] == list[1..] + [cp];
      if !Matches(list[0], key) {
        FirstMatchAppend(list[1..], cp, key);
      }
    }
  }

  /** From position i on, shifting list + [cp] left gives list back exactly if all of it is cp. */
  lemma {:induction false} ShiftIsSame(list: seq<Checkpoint>, cp: Checkpoint, i: nat)
    requires i <= |list|
    ensures (list + [cp])[i + 1..] == list[i..] <==> forall k :: i <= k < |list| ==> list[k] == cp
    decreases |list| - i
  {
    var shifted := (list + [cp])[i + 1..];
    if i == |list| {
    } else {
      ShiftIsSame(list, cp, i + 1);
      assert shifted[1..] == (list + [cp])[i + 2..] && list[i..][1..] == list[i + 1..];
      assert shifted[0] == if i + 1 < |list| then list[i + 1] else cp;
      assert list[i..] == [list[i]] + list[i + 1..] && shifted == [shifted[0]] + shifted[1..];
    }
  }

  lemma AppendThenRemove(list: seq<Checkpoint>, cp: Checkpoint, key: string)
    requires Matches(cp, key)
    ensures FirstMatch(list + [cp], key) <= |list|
    ensures RemoveFirst(list + [cp], key) == list <==> forall k :: FirstMatch(list, key) <= k < |list| ==> list[k] == cp
  {
    FirstMatchAppend(list, cp, key);
    var i := FirstMatch(list, key);
    ShiftIsSame(list, cp, i);
    assert (list + [cp])[..i] == list[..i];
    SameTail(list, i, (list + [cp])[i + 1..]);
  }

  lemma SameTail<T>(list: seq<T>, i: nat, rest: seq<T>)
    requires i <= |list|
    ensures list[..i] + rest == list <==> rest == list[i..]
  {
    assert (list[..i] + rest)[i..] == rest;
    assert list == list[..i] + list[i..];
  }

  /** Deleting a checkpoint just created, by its name or id, restores the list exactly when no
      earlier checkpoint answers to the same key, or all from the first such one on are equal to the
      new one; otherwise that earlier one is lost. */
  lemma CreateThenDelete(cfg: Config, e: Engine, id: string, name: string, clock: Clock, key: string)
    requires id in e.vms && Matches(NewCheckpoint(e.vms[id].id, name, clock), key)
    ensures
      var list, cp := List(e, id), NewCheckpoint(e.vms[id].id, name, clock);
      var created := Apply(cfg, e, CreateCheckpoint(id, name, clock));
      var del := DeleteCheckpoint(id, key);
      && Succeeds(cfg, created, del)
      && (List(Apply(cfg, created, del), id) == list <==>
            forall i, k :: 0 <= i <= k < |list| && Matches(list[i], key) ==> list[k] == cp)
  {
    var list := List(e, id);
    AppendThenRemove(list, NewCheckpoint(e.vms[id].id, name, clock), key);
    var first := FirstMatch(list, key);
    assert first < |list| ==> Matches(list[first], key);
  }

  /** A list that is not restored is reachable: of two checkpoints of one name, deleting by that name
      loses the older. */
  lemma OlderCheckpointLost(cfg: Config, now: int, name: string, first: Clock, second: Clock)
    requires name != "" && first.nano != second.nano
    ensures
      var e := Run(cfg, Fresh(cfg, now), [CreateCheckpoint(DEMO_ID, name, first)]);
      var t := Run(cfg, e, [CreateCheckpoint(DEMO_ID, name, second), DeleteCheckpoint(DEMO_ID, name)]);
      && List(e, DEMO_ID) == [NewCheckpoint(DEMO_ID, name, first)]
      && List(t, DEMO_ID) == [NewCheckpoint(DEMO_ID, name, second)]
      && List(t, DEMO_ID) != List(e, DEMO_ID)
  {
    var a, b := NewCheckpoint(DEMO_ID, name, first), NewCheckpoint(DEMO_ID, name, second);
    var start := Fresh(cfg, now);
    RunSnoc(cfg, start, [], CreateCheckpoint(DEMO_ID, name, first));
    assert [] + [CreateCheckpoint(DEMO_ID, name, first)] == [CreateCheckpoint(DEMO_ID, name, first)];
    var e := Apply(cfg, start, CreateCheckpoint(DEMO_ID, name, first));
    assert List(e, DEMO_ID) == [a];
    RunTwo(cfg, e, CreateCheckpoint(DEMO_ID, name, second), DeleteCheckpoint(DEMO_ID, name));
    assert [a] + [b] == [a, b];
    assert RemoveFirst([a, b], name) == [b] by {
      FirstMatchIs([a, b], name, 0);
      assert [a, b][..0] + [a, b][1..] == [b];
    }
  }

  lemma RunTwo(cfg: Config, e: Engine, x: Op, y: Op)
    ensures Run(cfg, e, [x, y]) == Apply(cfg, Apply(cfg, e, x), y)
  {
    RunSnoc(cfg, e, [x], y);
    RunSnoc(cfg, e, [], x);
    assert [] + [x] == [x] && [x] + [y] == [x, y];
  }

  lemma DropOne<T>(list: seq<T>, i: nat)
    requires i < |list|
    ensures
      var rest := list[..i] + list[i + 1..];
      && |rest| == |list| - 1
      && (forall k :: 0 <= k < |rest| ==> rest[k] == list[if k < i then k else k + 1])
      && multiset(rest) + multiset{list[i]} == multiset(list)
  {
    assert list == list[..i] + ([list[i]] + list[i + 1..]);
  }

  /** Removing keeps the order of everything but the first match, which is all that is lost. */
  lemma RemoveFirstMeaning(list: seq<Checkpoint>, key: string, i: nat)
    requires i < |list| && Matches(list[i], key)
    requires forall k :: 0 <= k < i ==> !Matches(list[k], key)
    ensures
      var rest := RemoveFirst(list, key);
      && |rest| == |list| - 1
      && (forall k :: 0 <= k < |rest| ==> rest[k] == list[if k < i then k else k + 1])
      && multiset(rest) + multiset{list[i]} == multiset(list)
  {
    FirstMatchIs(list, key, i);
    DropOne(list, i);
  }

  // ---------- lookup ----------

  /** GetVM's answer does not depend on map order exactly when the key is not both one VM's id and,
      up to case, another VM's name. */
  lemma LookupUnique(cfg: Config, e: Engine, key: string)
    requires Inv(cfg, e)
    ensures
      (forall a, b :: a in e.vms && b in e.vms && Answers(cfg, e.vms[a], key) && Answers(cfg, e.vms[b], key) ==> a == b)
      <==> !(key in e.vms && exists b :: b in e.vms && b != key && EqualFold(cfg, e.vms[b].name, key))
  {
    if key in e.vms && exists b :: b in e.vms && b != key && EqualFold(cfg, e.vms[b].name, key) {
      var b :| b in e.vms && b != key && EqualFold(cfg, e.vms[b].name, key);
      assert Answers(cfg, e.vms[key], key) && Answers(cfg, e.vms[b], key);
    }
  }

  /** Such a clash is reachable: a VM may be named after the demo VM's id. */
  lemma LookupClash(cfg: Config, now: int, req: CreateRequest, clock: Clock)
    requires req.name == DEMO_ID
    ensures
      var e := Run(cfg, Fresh(cfg, now), [CreateVM(req, clock)]);
      && DEMO_ID in e.vms && VMID(clock) in e.vms && VMID(clock) != DEMO_ID
      && Answers(cfg, e.vms[DEMO_ID], DEMO_ID) && Answers(cfg, e.vms[VMID(clock)], DEMO_ID)
  {
    assert VMID(clock)[0] != DEMO_ID[0];
    assert |Folded(cfg, "ubuntu-srv-01")| != |Folded(cfg, DEMO_ID)|;
    var op := CreateVM(req, clock);
    assert Succeeds(cfg, Fresh(cfg, now), op);
    assert [op][1..] == [];
    assert Run(cfg, Fresh(cfg, now), [op]) == Run(cfg, Apply(cfg, Fresh(cfg, now), op), []);
  }
}
