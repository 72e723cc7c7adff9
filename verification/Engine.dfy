/** pkg/hyperv/engine.go: the simulated engine, and its VM objects, updated in place. */
module Engine {
  import opened Text
  import opened GoInt
  import opened CheckpointStore
  import Model = EngineModel
  import opened EngineModel

  class VirtualMachine {
    var id: string
    var nodeID: string
    var name: string
    var state: VMState
    var cpuCount: int
    var memoryMB: uint64
    var diskPath: string
    var diskSizeBytes: uint64
    var uptimeSeconds: uint64
    var ipAddresses: seq<string>
    var cpuUsagePct: int
    var memoryDemandMB: uint64
    var createdAt: int

    constructor (v: VM)
      ensures Value() == v
    {
      id, nodeID, name, state, cpuCount, memoryMB := v.id, v.nodeID, v.name, v.state, v.cpuCount, v.memoryMB;
      diskPath, diskSizeBytes, uptimeSeconds, ipAddresses := v.diskPath, v.diskSizeBytes, v.uptimeSeconds,
          v.ipAddresses;
      cpuUsagePct, memoryDemandMB, createdAt := v.cpuUsagePct, v.memoryDemandMB, v.createdAt;
    }

    /** The struct copy *vm. */
    function Value(): VM
      reads this
    {
      VM(id, nodeID, name, state, cpuCount, memoryMB, diskPath, diskSizeBytes, uptimeSeconds, ipAddresses,
         cpuUsagePct, memoryDemandMB, createdAt)
    }

    method Start()
      modifies this
      ensures Value() == Started(old(Value()))
      ensures state == Running && uptimeSeconds == 0 && memoryDemandMB == memoryMB / 2
    {
      state := Running;
      uptimeSeconds := 0;
      ipAddresses := ["192.168.100.192"];
      cpuUsagePct := 8;
      memoryDemandMB := memoryMB / 2;
    }

    method Stop()
      modifies this
      ensures Value() == Halted(old(Value()))
      ensures state == Stopped && uptimeSeconds == 0 && ipAddresses == [] && cpuUsagePct == 0 && memoryDemandMB == 0
    {
      state := Stopped;
      uptimeSeconds := 0;
      ipAddresses := [];
      cpuUsagePct := 0;
      memoryDemandMB := 0;
    }

    method Restart()
      modifies this
      ensures Value() == Restarted(old(Value()))
      ensures state == Running && uptimeSeconds == 0 && memoryDemandMB == memoryMB / 2
    {
      state := Running;
      uptimeSeconds := 0;
      cpuUsagePct := 10;
      memoryDemandMB := memoryMB / 2;
    }

    method Resize(cpus: int, mb: uint64)
      modifies this
      ensures Value() == old(Value()).(cpuCount := cpus, memoryMB := mb)
    {
      cpuCount := cpus;
      memoryMB := mb;
    }

    method SetDisk(bytes: uint64)
      modifies this
      ensures Value() == old(Value()).(diskSizeBytes := bytes)
    {
      diskSizeBytes := bytes;
    }
  }

  class SimulatedEngine {
    const cfg: Config
    var vms: map<string, VirtualMachine>
    const checkpoints: Store
    var switches: seq<string>

    /** VM objects are pairwise distinct. */
    ghost predicate Valid()
      reads `vms, checkpoints, checkpoints.Repr
    {
      && (forall a, b :: a in vms && b in vms && a != b ==> vms[a] != vms[b])
      && checkpoints.Valid() && this !in checkpoints.Repr
      && (forall id :: id in vms ==> vms[id] !in checkpoints.Repr)
    }

    ghost function VMView(): VMs
      reads `vms, vms.Values
    {
      map id | id in vms :: vms[id].Value()
    }

    ghost function Abs(): Model.Engine
      reads this, vms.Values, checkpoints
    {
      Model.Engine(VMView(), checkpoints.Contents, switches)
    }

    constructor (nodeID: string, fold: char -> char, now: int)
      ensures Valid() && fresh(vms.Values) && fresh(checkpoints.Repr)
      ensures cfg == Config(nodeID, fold)
      ensures Abs() == Fresh(cfg, now)
    {
      cfg := Config(nodeID, fold);
      checkpoints := new Store();
      switches := ["Default Switch", "Internal-VMSwitch", "External-Bridge", "Crybaby-LAN"];
      var demo := new VirtualMachine(DemoVM(nodeID, now));
      vms := map[DEMO_ID := demo];
    }

    twostate lemma OneVMChanged(id: string)
      requires Valid() && vms == old(vms) && id in vms
      requires forall k :: k in vms && vms[k] != vms[id] ==> vms[k].Value() == old(vms[k].Value())
      ensures VMView() == old(VMView())[id := vms[id].Value()]
    {
    }

    /** s.vms[id] = &vm */
    method Insert(v: VM)
      requires Valid()
      modifies `vms
      ensures Valid() && Abs() == old(Abs()).(vms := old(Abs()).vms[v.id := v])
      ensures fresh(vms.Values - old(vms.Values))
    {
      var vm := new VirtualMachine(v);
      vms := vms[v.id := vm];
      assert VMView() == old(VMView())[v.id := v];
    }

    /** The name scan of CreateVM and CloneVM, in any order. */
    method ScanNames(name: string) returns (taken: bool)
      ensures taken <==> NameTaken(cfg, VMView(), name)
    {
      var todo := vms.Keys;
      while todo != {}
        invariant todo <= vms.Keys
        invariant forall id :: id in vms && id !in todo ==> !EqualFold(cfg, vms[id].name, name)
      {
        var id :| id in todo;
        if EqualFold(cfg, vms[id].name, name) {
          assert id in VMView() && EqualFold(cfg, VMView()[id].name, name);
          return true;
        }
        todo := todo - {id};
      }
      return false;
    }

    /** GetVM returns a copy of some VM that answers to the key; see EngineTheorems.LookupUnique for
        when there is only one. */
    method GetVM(key: string) returns (found: Option<VM>)
      requires Valid()
      ensures found.Some? <==> Succeeds(cfg, Abs(), Model.GetVM(key))
      ensures found.Some? ==>
                exists id :: id in Abs().vms && Answers(cfg, Abs().vms[id], key) && found.value == Abs().vms[id]
    {
      var todo := vms.Keys;
      while todo != {}
        invariant todo <= vms.Keys
        invariant forall id :: id in vms && id !in todo ==> !Answers(cfg, VMView()[id], key)
      {
        var id :| id in todo;
        var vm := vms[id];
        if vm.id == key || EqualFold(cfg, vm.name, key) {
          assert id in VMView() && VMView()[id] == vm.Value();
          return Some(vm.Value());
        }
        todo := todo - {id};
      }
      return None;
    }

    method CreateVM(req: CreateRequest, clock: Clock) returns (made: Option<VM>)
      requires Valid()
      modifies `vms
      ensures Valid() && Abs() == Apply(cfg, old(Abs()), Model.CreateVM(req, clock))
      ensures made == if Succeeds(cfg, old(Abs()), Model.CreateVM(req, clock))
                then Some(Abs().vms[VMID(clock)]) else None
      ensures fresh(vms.Values - old(vms.Values))
    {
      var taken := ScanNames(req.name);
      if taken {
        return None;
      }
      var vm := NewVM(cfg, req, clock);
      Insert(vm);
      return Some(vm);
    }

    method CloneVM(source: string, newName: string, clock: Clock) returns (made: Option<VM>)
      requires Valid()
      modifies `vms
      ensures Valid() && Abs() == Apply(cfg, old(Abs()), Model.CloneVM(source, newName, clock))
      ensures made == if Succeeds(cfg, old(Abs()), Model.CloneVM(source, newName, clock))
                then Some(Abs().vms[VMID(clock)]) else None
      ensures fresh(vms.Values - old(vms.Values))
    {
      if source !in vms {
        return None;
      }
      var src := vms[source];
      if newName == "" {
        return None;
      }
      var taken := ScanNames(newName);
      if taken {
        return None;
      }
      var clone := CloneOf(cfg, src.Value(), newName, clock);
      Insert(clone);
      return Some(clone);
    }

    method StartVM(id: string) returns (ok: bool)
      requires Valid()
      modifies vms.Values
      ensures Valid() && Abs() == Apply(cfg, old(Abs()), Model.StartVM(id))
      ensures ok <==> id in vms
      ensures ok ==>
                vms[id].state == Running && vms[id].uptimeSeconds == 0 && vms[id].memoryDemandMB == vms[id].memoryMB / 2
    {
      if id !in vms {
        return false;
      }
      vms[id].Start();
      OneVMChanged(id);
      return true;
    }

    method StopVM(id: string, force: bool) returns (ok: bool)
      requires Valid()
      modifies vms.Values
      ensures Valid() && Abs() == Apply(cfg, old(Abs()), Model.StopVM(id, force))
      ensures ok <==> id in vms
      ensures ok ==>
                && vms[id].state == Stopped && vms[id].uptimeSeconds == 0 && vms[id].ipAddresses == []
                && vms[id].cpuUsagePct == 0 && vms[id].memoryDemandMB == 0
    {
      if id !in vms {
        return false;
      }
      vms[id].Stop();
      OneVMChanged(id);
      return true;
    }

    method RestartVM(id: string) returns (ok: bool)
      requires Valid()
      modifies vms.Values
      ensures Valid() && Abs() == Apply(cfg, old(Abs()), Model.RestartVM(id))
      ensures ok <==> id in vms
      ensures ok ==>
                vms[id].state == Running && vms[id].uptimeSeconds == 0 && vms[id].memoryDemandMB == vms[id].memoryMB / 2
    {
      if id !in vms {
        return false;
      }
      vms[id].Restart();
      OneVMChanged(id);
      return true;
    }

    method DeleteVM(id: string, deleteDisk: bool) returns (ok: bool)
      requires Valid()
      modifies `vms, checkpoints
      ensures Valid() && Abs() == Apply(cfg, old(Abs()), Model.DeleteVM(id, deleteDisk))
      ensures ok <==> Succeeds(cfg, old(Abs()), Model.DeleteVM(id, deleteDisk))
      ensures vms.Values <= old(vms.Values) && checkpoints.Repr == old(checkpoints.Repr)
    {
      if id !in vms {
        return false;
      }
      checkpoints.Drop(id);
      Forget(id);
      return true;
    }

    /** delete(s.vms, id) */
    method Forget(id: string)
      requires Valid()
      modifies `vms
      ensures Valid() && VMView() == old(VMView()) - {id} && vms.Values <= old(vms.Values)
    {
      vms := vms - {id};
    }

    method ResizeVM(id: string, cpuCount: int, memoryMB: uint64) returns (ok: bool)
      requires Valid()
      modifies vms.Values
      ensures Valid() && Abs() == Apply(cfg, old(Abs()), Model.ResizeVM(id, cpuCount, memoryMB))
      ensures ok <==> Succeeds(cfg, old(Abs()), Model.ResizeVM(id, cpuCount, memoryMB))
    {
      if id !in vms {
        return false;
      }
      if cpuCount <= 0 {
        return false;
      }
      if memoryMB < 512 {
        return false;
      }
      vms[id].Resize(cpuCount, memoryMB);
      OneVMChanged(id);
      return true;
    }

    method ExpandDisk(id: string, newSizeGB: uint64) returns (ok: bool)
      requires Valid()
      modifies vms.Values
      ensures Valid() && Abs() == Apply(cfg, old(Abs()), Model.ExpandDisk(id, newSizeGB))
      ensures ok <==> Succeeds(cfg, old(Abs()), Model.ExpandDisk(id, newSizeGB))
    {
      if id !in vms {
        return false;
      }
      if newSizeGB == 0 {
        return false;
      }
      var newBytes := Gigabytes(newSizeGB);
      if newBytes <= vms[id].diskSizeBytes {
        return false;
      }
      vms[id].SetDisk(newBytes);
      OneVMChanged(id);
      return true;
    }

    method EnsureVirtualSwitch(name: string) returns (ok: bool)
      requires Valid()
      modifies `switches
      ensures Valid() && Abs() == Apply(cfg, old(Abs()), Model.EnsureVirtualSwitch(name))
    {
      for i := 0 to |switches|
        invariant name !in switches[..i]
      {
        if switches[i] == name {
          return true;
        }
      }
      assert switches[..|switches|] == switches;
      switches := switches + [name];
      return true;
    }

    method CreateCheckpoint(id: string, name: string, clock: Clock, spare: nat) returns (made: Option<Checkpoint>)
      requires Valid()
      modifies checkpoints.Repr
      ensures Valid() && fresh(checkpoints.Repr - old(checkpoints.Repr))
                && Abs() == Apply(cfg, old(Abs()), Model.CreateCheckpoint(id, name, clock))
      ensures made == if id in vms then Some(NewCheckpoint(vms[id].id, name, clock)) else None
    {
      if id !in vms {
        return None;
      }
      var cp := NewCheckpoint(vms[id].id, name, clock);
      checkpoints.Add(id, cp, spare);
      assert VMView() == old(VMView());
      return Some(cp);
    }

    method ListCheckpoints(id: string) returns (list: array?<Checkpoint>)
      requires Valid()
      ensures list == null <==> id !in vms
      ensures list != null ==> fresh(list) && list[..] == Model.List(Abs(), id)
    {
      if id !in vms {
        return null;
      }
      list := checkpoints.List(id);
    }

    method RestoreCheckpoint(id: string, name: string) returns (ok: bool)
      requires Valid()
      ensures ok <==> Succeeds(cfg, Abs(), Model.RestoreCheckpoint(id, name))
    {
      if id !in vms {
        return false;
      }
      var i;
      i, ok := checkpoints.Find(id, name);
    }

    method DeleteCheckpoint(id: string, name: string) returns (ok: bool)
      requires Valid()
      modifies checkpoints.Repr
      ensures Valid() && fresh(checkpoints.Repr - old(checkpoints.Repr))
                && Abs() == Apply(cfg, old(Abs()), Model.DeleteCheckpoint(id, name))
      ensures ok <==> Succeeds(cfg, old(Abs()), Model.DeleteCheckpoint(id, name))
    {
      if id !in vms {
        return false;
      }
      ok := checkpoints.Remove(id, name);
    }
  }

  predicate OnCheckpoints(op: Op) {
    op.CreateCheckpoint? || op.DeleteCheckpoint? || op.RestoreCheckpoint? || op.ListCheckpoints?
  }

  method PerformOnCheckpoints(engine: SimulatedEngine, op: Op, spare: nat)
    requires engine.Valid() && OnCheckpoints(op)
    modifies engine.checkpoints.Repr
    ensures engine.Valid() && engine.Abs() == Apply(engine.cfg, old(engine.Abs()), op)
    ensures fresh(engine.checkpoints.Repr - old(engine.checkpoints.Repr))
  {
    match op {
      case CreateCheckpoint(id, name, clock) => var cp := engine.CreateCheckpoint(id, name, clock, spare);
      case DeleteCheckpoint(id, name) => var ok := engine.DeleteCheckpoint(id, name);
      case RestoreCheckpoint(id, name) => var ok := engine.RestoreCheckpoint(id, name);
      case ListCheckpoints(id) => var list := engine.ListCheckpoints(id);
    }
  }

  /** Calls that change VM objects in place. */
  predicate InPlace(op: Op) {
    op.StartVM? || op.StopVM? || op.RestartVM? || op.ResizeVM? || op.ExpandDisk?
  }

  method PerformInPlace(engine: SimulatedEngine, op: Op)
    requires engine.Valid() && InPlace(op)
    modifies engine.vms.Values
    ensures engine.Valid() && engine.Abs() == Apply(engine.cfg, old(engine.Abs()), op)
  {
    match op {
      case StartVM(id) => var ok := engine.StartVM(id);
      case StopVM(id, force) => var ok := engine.StopVM(id, force);
      case RestartVM(id) => var ok := engine.RestartVM(id);
      case ResizeVM(id, cpuCount, memoryMB) => var ok := engine.ResizeVM(id, cpuCount, memoryMB);
      case ExpandDisk(id, gb) => var ok := engine.ExpandDisk(id, gb);
    }
  }

  /** The other calls; lookups and listings return copies and change nothing. */
  method PerformOnInventory(engine: SimulatedEngine, op: Op)
    requires engine.Valid() && !OnCheckpoints(op) && !InPlace(op)
    modifies engine, engine.checkpoints
    ensures engine.Valid() && engine.Abs() == Apply(engine.cfg, old(engine.Abs()), op)
    ensures fresh(engine.vms.Values - old(engine.vms.Values)) && engine.checkpoints.Repr == old(engine.checkpoints.Repr)
  {
    match op {
      case CreateVM(req, clock) => var vm := engine.CreateVM(req, clock);
      case CloneVM(source, newName, clock) => var vm := engine.CloneVM(source, newName, clock);
      case DeleteVM(id, deleteDisk) => var ok := engine.DeleteVM(id, deleteDisk);
      case EnsureVirtualSwitch(name) => var ok := engine.EnsureVirtualSwitch(name);
      case GetVM(key) => var vm := engine.GetVM(key);
      case ListVMs =>
      case ListVirtualSwitches =>
    }
  }

  /** One call on the engine. */
  method Perform(engine: SimulatedEngine, op: Op, spare: nat)
    requires engine.Valid()
    modifies engine, engine.vms.Values, engine.checkpoints.Repr
    ensures engine.Valid() && engine.Abs() == Apply(engine.cfg, old(engine.Abs()), op)
    ensures fresh(engine.vms.Values - old(engine.vms.Values))
    ensures fresh(engine.checkpoints.Repr - old(engine.checkpoints.Repr))
  {
    if OnCheckpoints(op) {
      PerformOnCheckpoints(engine, op, spare);
    } else if InPlace(op) {
      PerformInPlace(engine, op);
    } else {
      PerformOnInventory(engine, op);
    }
  }

  /** Any sequence of calls on a new engine is a run of the model, so that every theorem about
      EngineModel.Run holds of these objects. */
  method Serve(nodeID: string, fold: char -> char, now: int, ops: seq<Op>, spare: nat -> nat)
    returns (engine: SimulatedEngine)
    ensures engine.Valid() && engine.cfg == Config(nodeID, fold)
    ensures engine.Abs() == Run(engine.cfg, Fresh(engine.cfg, now), ops)
  {
    engine := new SimulatedEngine(nodeID, fold, now);
    for i := 0 to |ops|
      invariant engine.Valid() && fresh(engine) && fresh(engine.vms.Values) && fresh(engine.checkpoints.Repr)
      invariant engine.Abs() == Run(engine.cfg, Fresh(engine.cfg, now), ops[..i])
    {
      RunSnoc(engine.cfg, Fresh(engine.cfg, now), ops[..i], ops[i]);
      assert ops[..i + 1] == ops[..i] + [ops[i]];
      Perform(engine, ops[i], spare(i));
    }
    assert ops[..|ops|] == ops;
  }
}
