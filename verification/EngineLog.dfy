/** What a VM and its checkpoints show, in terms of the calls made on the engine. */
module EngineLog {
  import opened Text
  import opened GoInt
  import opened GoTime
  import opened EngineModel
  import opened EngineTheorems

  // ---------- names ----------

  /** The same characters one by one, up to case. */
  predicate SameLetters(fold: char -> char, a: string, b: string) {
    |a| == |b| && forall i :: 0 <= i < |a| ==> fold(a[i]) == fold(b[i])
  }

  lemma EqualFoldMeaning(cfg: Config, a: string, b: string)
    ensures EqualFold(cfg, a, b) <==> SameLetters(cfg.fold, a, b)
  {
    if EqualFold(cfg, a, b) {
      assert |a| == |Folded(cfg, a)| == |b|;
      assert forall i :: 0 <= i < |a| ==> Folded(cfg, a)[i] == cfg.fold(a[i]) && Folded(cfg, b)[i] == cfg.fold(b[i]);
    }
  }

  ghost predicate NameInUse(cfg: Config, e: Engine, name: string) {
    exists id :: id in e.vms && SameLetters(cfg.fold, e.vms[id].name, name)
  }

  lemma TakenMeaning(cfg: Config, e: Engine, name: string)
    ensures NameTaken(cfg, e.vms, name) <==> NameInUse(cfg, e, name)
  {
    forall id | id in e.vms
      ensures EqualFold(cfg, e.vms[id].name, name) <==> SameLetters(cfg.fold, e.vms[id].name, name)
    {
      EqualFoldMeaning(cfg, e.vms[id].name, name);
    }
  }

  // ---------- new VMs ----------

  /** The bytes of a count of gigabytes modulo 2^34. */
  function InBytes(gb: uint64): uint64 {
    gb % 0x4_0000_0000 * GIB
  }

  /** A VM as it is made: stopped, idle, its disk named after it. */
  predicate IsNew(cfg: Config, v: VM, name: string, cpus: int, mb: uint64, bytes: uint64, clock: Clock) {
    && v.id == "vm-" + NatText(clock.nano % 1000000) && v.nodeID == cfg.nodeID && v.name == name
    && v.state == Stopped && v.cpuCount == cpus && v.memoryMB == mb
    && v.diskPath == "C:\\Crybaby\\Disks\\" + name + ".vhdx" && v.diskSizeBytes == bytes
    && v.uptimeSeconds == 0 && v.ipAddresses == [] && v.cpuUsagePct == 0 && v.memoryDemandMB == 0
    && v.createdAt == clock.nano
  }

  /** A VM is created exactly if no other has its name up to case, with the sizes asked for. */
  lemma CreatedVM(cfg: Config, e: Engine, req: CreateRequest, clock: Clock)
    ensures
      var op := CreateVM(req, clock);
      var t, id := Apply(cfg, e, op), "vm-" + NatText(clock.nano % 1000000);
      && (Succeeds(cfg, e, op) <==> !NameInUse(cfg, e, req.name))
      && (!Succeeds(cfg, e, op) ==> t == e)
      && (Succeeds(cfg, e, op) ==>
            && id in t.vms && t == e.(vms := e.vms[id := t.vms[id]])
            && IsNew(cfg, t.vms[id], req.name, req.cpuCount, req.memoryMB, InBytes(req.diskSizeGB), clock))
  {
    TakenMeaning(cfg, e, req.name);
    GigabytesWrap(req.diskSizeGB);
  }

  /** A clone is made exactly if its source exists and its name is neither empty nor in use, with the
      sizes of the source. */
  lemma ClonedVM(cfg: Config, e: Engine, source: string, name: string, clock: Clock)
    ensures
      var op := CloneVM(source, name, clock);
      var t, id := Apply(cfg, e, op), "vm-" + NatText(clock.nano % 1000000);
      && (Succeeds(cfg, e, op) <==> source in e.vms && name != "" && !NameInUse(cfg, e, name))
      && (!Succeeds(cfg, e, op) ==> t == e)
      && (Succeeds(cfg, e, op) ==>
            var src := e.vms[source];
            && id in t.vms && t == e.(vms := e.vms[id := t.vms[id]])
            && IsNew(cfg, t.vms[id], name, src.cpuCount, src.memoryMB, src.diskSizeBytes, clock))
  {
    TakenMeaning(cfg, e, name);
  }

  /** A new engine has one VM, which is running, and no checkpoint. */
  lemma SeededEngine(cfg: Config, now: int)
    ensures
      var e := Fresh(cfg, now);
      && e.vms.Keys == {"c1000000-0000-0000-0000-000000000001"} && e.checkpoints == map[]
      && e.switches == ["Default Switch", "Internal-VMSwitch", "External-Bridge", "Crybaby-LAN"]
      && var v := e.vms["c1000000-0000-0000-0000-000000000001"];
         && v.id == "c1000000-0000-0000-0000-000000000001" && v.nodeID == cfg.nodeID && v.name == "ubuntu-srv-01"
         && v.state == Running && v.cpuCount == 2 && v.memoryMB == 4096 && v.diskSizeBytes == 40 * GIB
         && v.memoryDemandMB <= v.memoryMB && now - v.createdAt == v.uptimeSeconds * SECOND
  {
  }

  // ---------- one call on a VM ----------

  /** Everything but what the life cycle changes. */
  predicate SameMachine(a: VM, b: VM) {
    && a.id == b.id && a.nodeID == b.nodeID && a.name == b.name && a.diskPath == b.diskPath
    && a.createdAt == b.createdAt && a.diskSizeBytes == b.diskSizeBytes
    && a.cpuCount == b.cpuCount && a.memoryMB == b.memoryMB
  }

  /** Starting, stopping and restarting succeed for every VM, in whatever state it is, and leave it
      running or stopped as they say. */
  lemma LifeCycle(cfg: Config, e: Engine, op: Op)
    requires op.StartVM? || op.StopVM? || op.RestartVM?
    ensures
      var t := Apply(cfg, e, op);
      && (Succeeds(cfg, e, op) <==> op.id in e.vms)
      && (op.id !in e.vms ==> t == e)
      && (op.id in e.vms ==>
            var o, v := e.vms[op.id], t.vms[op.id];
            && t == e.(vms := e.vms[op.id := v]) && SameMachine(o, v) && v.uptimeSeconds == 0
            && (op.StopVM? ==>
                  v.state == Stopped && v.cpuUsagePct == 0 && v.memoryDemandMB == 0 && v.ipAddresses == [])
            && (!op.StopVM? ==> v.state == Running && v.memoryDemandMB == o.memoryMB / 2)
            && (op.StartVM? ==> v.cpuUsagePct == 8 && v.ipAddresses == ["192.168.100.192"])
            && (op.RestartVM? ==> v.cpuUsagePct == 10 && v.ipAddresses == o.ipAddresses))
  {
  }

  /** Resizing needs a CPU and 512 MB, and changes these two alone; deleting takes the VM and its
      checkpoints away, and nothing else. */
  lemma ResizedOrDeleted(cfg: Config, e: Engine, op: Op)
    requires op.ResizeVM? || op.DeleteVM?
    ensures
      var t := Apply(cfg, e, op);
      && (Succeeds(cfg, e, op) <==> op.id in e.vms && (op.ResizeVM? ==> op.cpuCount >= 1 && op.memoryMB >= 512))
      && (!Succeeds(cfg, e, op) ==> t == e)
      && (op.ResizeVM? && Succeeds(cfg, e, op) ==>
            var o, v := e.vms[op.id], t.vms[op.id];
            && t == e.(vms := e.vms[op.id := v])
            && v.cpuCount == op.cpuCount && v.memoryMB == op.memoryMB
            && v.(cpuCount := o.cpuCount, memoryMB := o.memoryMB) == o)
      && (op.DeleteVM? && Succeeds(cfg, e, op) ==>
            && op.id !in t.vms && List(t, op.id) == [] && t.switches == e.switches
            && forall id :: id != op.id ==>
                 && (id in t.vms <==> id in e.vms) && (id in e.vms ==> t.vms[id] == e.vms[id])
                 && List(t, id) == List(e, id))
  {
  }

  /** A switch is there once it is ensured, once only, behind those that were there before. */
  lemma EnsuredSwitch(cfg: Config, e: Engine, name: string)
    ensures
      var t := Apply(cfg, e, EnsureVirtualSwitch(name));
      && name in t.switches && e.switches <= t.switches && t == e.(switches := t.switches)
      && multiset(t.switches)[name] == (if name in e.switches then multiset(e.switches)[name] else 1)
      && (forall other :: other != name ==> (other in t.switches <==> other in e.switches))
  {
    if name !in e.switches {
      assert multiset(e.switches + [name]) == multiset(e.switches) + multiset{name};
    }
  }

  // ---------- checkpoints ----------

  ghost predicate HasCheckpoint(e: Engine, id: string, key: string) {
    exists k :: 0 <= k < |List(e, id)| && (List(e, id)[k].name == key || List(e, id)[k].id == key)
  }

  lemma MatchExists(e: Engine, id: string, key: string)
    ensures FirstMatch(List(e, id), key) < |List(e, id)| <==> HasCheckpoint(e, id, key)
  {
    var list := List(e, id);
    if HasCheckpoint(e, id, key) {
      var k :| 0 <= k < |list| && (list[k].name == key || list[k].id == key);
      assert Matches(list[k], key);
    }
    if FirstMatch(list, key) < |list| {
      assert Matches(list[FirstMatch(list, key)], key);
    }
  }

  /** A checkpoint is added last, with the name given or a stamp of the time; restoring and deleting
      succeed exactly if the VM has a checkpoint of that name or id, and deleting loses just one. */
  lemma CheckpointCalls(cfg: Config, e: Engine, id: string, name: string, clock: Clock)
    ensures
      var add, del, res := CreateCheckpoint(id, name, clock), DeleteCheckpoint(id, name), RestoreCheckpoint(id, name);
      var list, added, removed := List(e, id), List(Apply(cfg, e, add), id), List(Apply(cfg, e, del), id);
      && (Succeeds(cfg, e, add) <==> id in e.vms)
      && (id in e.vms ==>
            && |added| == |list| + 1 && added[..|list|] == list
            && var cp := added[|list|];
               && cp.id == "cp-" + NatText(clock.nano % 1000000) && cp.vmID == e.vms[id].id
               && cp.createdAt == clock.nano
               && cp.name == if name == "" then "Snapshot-" + clock.stamp else name)
      && (Succeeds(cfg, e, del) <==> id in e.vms && HasCheckpoint(e, id, name))
      && (Succeeds(cfg, e, res) <==> id in e.vms && HasCheckpoint(e, id, name))
      && Apply(cfg, e, res) == e
      && (Succeeds(cfg, e, del) ==> |removed| == |list| - 1)
      && (!Succeeds(cfg, e, del) ==> Apply(cfg, e, del) == e)
  {
    MatchExists(e, id, name);
  }

  // ---------- a VM after any run ----------

  /** No call deletes VM id, or makes a VM of that id again. */
  predicate Kept(ops: seq<Op>, id: string) {
    forall k :: 0 <= k < |ops| ==> (ops[k].DeleteVM? ==> ops[k].id != id) && (Adds(ops[k]) ==> VMID(ops[k].clock) != id)
  }

  predicate On(op: Op, id: string) {
    match op
    case StartVM(i) => i == id
    case StopVM(i, _) => i == id
    case RestartVM(i) => i == id
    case ResizeVM(i, cpus, mb) => i == id && cpus >= 1 && mb >= 512
    case ExpandDisk(i, _) => i == id
    case _ => false
  }

  /** The state that the last start, stop or restart of the VM left. */
  function LastState(ops: seq<Op>, id: string, first: VMState): VMState {
    if ops == [] then first
    else
      var last := ops[|ops| - 1];
      if On(last, id) && last.StopVM? then Stopped
      else if On(last, id) && (last.StartVM? || last.RestartVM?) then Running
      else LastState(ops[..|ops| - 1], id, first)
  }

  /** The address of the last start or stop. */
  function LastAddresses(ops: seq<Op>, id: string, first: seq<string>): seq<string> {
    if ops == [] then first
    else
      var last := ops[|ops| - 1];
      if On(last, id) && last.StopVM? then []
      else if On(last, id) && last.StartVM? then ["192.168.100.192"]
      else LastAddresses(ops[..|ops| - 1], id, first)
  }

  /** CPUs and memory of the last acceptable resize. */
  function LastSizes(ops: seq<Op>, id: string, first: (int, uint64)): (int, uint64) {
    if ops == [] then first
    else
      var last := ops[|ops| - 1];
      if On(last, id) && last.ResizeVM? then (last.cpuCount, last.memoryMB) else LastSizes(ops[..|ops| - 1], id, first)
  }

  /** The largest disk asked for. */
  function LargestDisk(ops: seq<Op>, id: string, first: int): int {
    if ops == [] then first
    else
      var before, last := LargestDisk(ops[..|ops| - 1], id, first), ops[|ops| - 1];
      if On(last, id) && last.ExpandDisk? && InBytes(last.newSizeGB) > before then InBytes(last.newSizeGB) else before
  }

  /** The VM v is what the calls make of the VM o. */
  predicate Follows(ops: seq<Op>, id: string, o: VM, v: VM) {
    && v.id == o.id && v.nodeID == o.nodeID && v.name == o.name && v.diskPath == o.diskPath
    && v.createdAt == o.createdAt
    && v.state == LastState(ops, id, o.state)
    && v.ipAddresses == LastAddresses(ops, id, o.ipAddresses)
    && (v.cpuCount, v.memoryMB) == LastSizes(ops, id, (o.cpuCount, o.memoryMB))
    && v.diskSizeBytes == LargestDisk(ops, id, o.diskSizeBytes)
  }

  /** One more call on the log. */
  lemma LogRound(ops: seq<Op>, op: Op, id: string, o: VM)
    ensures
      var all, disk := ops + [op], LargestDisk(ops, id, o.diskSizeBytes);
      && LastState(all, id, o.state) ==
           (if On(op, id) && op.StopVM? then Stopped
            else if On(op, id) && (op.StartVM? || op.RestartVM?) then Running else LastState(ops, id, o.state))
      && LastAddresses(all, id, o.ipAddresses) ==
           (if On(op, id) && op.StopVM? then [] else if On(op, id) && op.StartVM? then ["192.168.100.192"]
            else LastAddresses(ops, id, o.ipAddresses))
      && LastSizes(all, id, (o.cpuCount, o.memoryMB)) ==
           (if On(op, id) && op.ResizeVM? then (op.cpuCount, op.memoryMB)
            else LastSizes(ops, id, (o.cpuCount, o.memoryMB)))
      && LargestDisk(all, id, o.diskSizeBytes) ==
           (if On(op, id) && op.ExpandDisk? && InBytes(op.newSizeGB) > disk then InBytes(op.newSizeGB) else disk)
  {
    assert (ops + [op])[..|ops|] == ops;
  }

  /** A call that is not on the VM leaves it, and what the log says of it, alone. */
  lemma FollowsElsewhere(ops: seq<Op>, op: Op, id: string, o: VM, v: VM)
    requires Follows(ops, id, o, v) && !On(op, id)
    ensures Follows(ops + [op], id, o, v)
  {
    LogRound(ops, op, id, o);
  }

  lemma FollowsLifeCycle(cfg: Config, e: Engine, ops: seq<Op>, op: Op, id: string, o: VM)
    requires id in e.vms && Follows(ops, id, o, e.vms[id])
    requires (op.StartVM? || op.StopVM? || op.RestartVM?) && op.id == id
    ensures id in Apply(cfg, e, op).vms && Follows(ops + [op], id, o, Apply(cfg, e, op).vms[id])
  {
    LogRound(ops, op, id, o);
    LifeCycle(cfg, e, op);
  }

  lemma FollowsResize(cfg: Config, e: Engine, ops: seq<Op>, op: Op, id: string, o: VM)
    requires id in e.vms && Follows(ops, id, o, e.vms[id]) && op.ResizeVM? && op.id == id
    ensures id in Apply(cfg, e, op).vms && Follows(ops + [op], id, o, Apply(cfg, e, op).vms[id])
  {
    LogRound(ops, op, id, o);
    ResizedOrDeleted(cfg, e, op);
  }

  lemma FollowsExpand(ops: seq<Op>, op: Op, id: string, o: VM, v: VM, w: VM)
    requires Follows(ops, id, o, v) && op.ExpandDisk? && op.id == id
    requires w == if InBytes(op.newSizeGB) > v.diskSizeBytes then v.(diskSizeBytes := InBytes(op.newSizeGB)) else v
    ensures Follows(ops + [op], id, o, w)
  {
    LogRound(ops, op, id, o);
  }

  lemma ExpandedDisk(cfg: Config, e: Engine, id: string, gb: uint64)
    requires id in e.vms
    ensures
      var t := Apply(cfg, e, ExpandDisk(id, gb));
      && id in t.vms
      && t.vms[id] ==
           if InBytes(gb) > e.vms[id].diskSizeBytes then e.vms[id].(diskSizeBytes := InBytes(gb)) else e.vms[id]
  {
    InBytesMeaning(gb);
  }

  lemma InBytesMeaning(gb: uint64)
    ensures Gigabytes(gb) == InBytes(gb) && (gb == 0 ==> InBytes(gb) == 0)
  {
    GigabytesWrap(gb);
  }

  /** Calls on other VMs or on checkpoints do not change the VM. */
  lemma OtherCallsKeepVM(cfg: Config, e: Engine, op: Op, id: string)
    requires id in e.vms && Kept([op], id)
    requires (op.StartVM? || op.StopVM? || op.RestartVM? || op.ResizeVM? || op.ExpandDisk?) ==> op.id != id
    ensures id in Apply(cfg, e, op).vms && Apply(cfg, e, op).vms[id] == e.vms[id] && !On(op, id)
  {
    assert [op][0] == op;
  }

  lemma FollowsOneMore(cfg: Config, e: Engine, ops: seq<Op>, op: Op, id: string, o: VM)
    requires id in e.vms && Follows(ops, id, o, e.vms[id]) && Kept([op], id)
    ensures id in Apply(cfg, e, op).vms && Follows(ops + [op], id, o, Apply(cfg, e, op).vms[id])
  {
    if (op.StartVM? || op.StopVM? || op.RestartVM?) && op.id == id {
      FollowsLifeCycle(cfg, e, ops, op, id, o);
    } else if op.ResizeVM? && op.id == id {
      FollowsResize(cfg, e, ops, op, id, o);
    } else if op.ExpandDisk? && op.id == id {
      ExpandedDisk(cfg, e, id, op.newSizeGB);
      FollowsExpand(ops, op, id, o, e.vms[id], Apply(cfg, e, op).vms[id]);
    } else {
      OtherCallsKeepVM(cfg, e, op, id);
      FollowsElsewhere(ops, op, id, o, e.vms[id]);
    }
  }

  /** What GetVM shows after any run that keeps the VM: its state and address are those of the last start,
      stop or restart, its sizes those of the last resize, its disk is the largest asked for, and its
      identity and name never change. */
  lemma {:induction false} VMFollowsRun(cfg: Config, e: Engine, ops: seq<Op>, id: string)
    requires id in e.vms && Kept(ops, id)
    ensures id in Run(cfg, e, ops).vms && Follows(ops, id, e.vms[id], Run(cfg, e, ops).vms[id])
  {
    if ops == [] {
    } else {
      var before, last := ops[..|ops| - 1], ops[|ops| - 1];
      assert Kept(before, id) && Kept([last], id);
      VMFollowsRun(cfg, e, before, id);
      assert before + [last] == ops;
      RunSnoc(cfg, e, before, last);
      FollowsOneMore(cfg, Run(cfg, e, before), before, last, id, e.vms[id]);
    }
  }
}
