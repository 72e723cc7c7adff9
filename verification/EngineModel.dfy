/** The simulated Hyper-V engine as a value, one function per locked method body. */
module EngineModel {
  import opened Text
  import opened GoInt
  import opened GoTime

  datatype VMState = Running | Stopped | Paused | Saved | Unknown

  datatype VM = VM(
    id: string, nodeID: string, name: string, state: VMState, cpuCount: int, memoryMB: uint64,
    diskPath: string, diskSizeBytes: uint64, uptimeSeconds: uint64, ipAddresses: seq<string>,
    cpuUsagePct: int, memoryDemandMB: uint64, createdAt: int)

  datatype Checkpoint = Checkpoint(id: string, vmID: string, name: string, createdAt: int)

  datatype CreateRequest = CreateRequest(
    name: string, cpuCount: int, memoryMB: uint64, diskSizeGB: uint64, switchName: string, isoPath: string)

  /** fold is the simple case folding behind strings.EqualFold; nothing is assumed of it. */
  datatype Config = Config(nodeID: string, fold: char -> char)

  type VMs = map<string, VM>

  datatype Engine = Engine(vms: VMs, checkpoints: map<string, seq<Checkpoint>>, switches: seq<string>)

  /** One reading of the clock: nanoseconds since 1970, and its "20060102-150405" rendering. */
  datatype Clock = Clock(nano: nat, stamp: string)

  datatype Op =
    | CreateVM(req: CreateRequest, clock: Clock)
    | CloneVM(source: string, newName: string, clock: Clock)
    | StartVM(id: string)
    | StopVM(id: string, force: bool)
    | RestartVM(id: string)
    | DeleteVM(id: string, deleteDisk: bool)
    | ResizeVM(id: string, cpuCount: int, memoryMB: uint64)
    | ExpandDisk(id: string, newSizeGB: uint64)
    | CreateCheckpoint(id: string, name: string, clock: Clock)
    | RestoreCheckpoint(id: string, name: string)
    | DeleteCheckpoint(id: string, name: string)
    | EnsureVirtualSwitch(name: string)
    | GetVM(key: string)
    | ListVMs
    | ListCheckpoints(id: string)
    | ListVirtualSwitches

  // ---------- names, ids, paths ----------

  function Folded(cfg: Config, s: string): string {
    seq(|s|, i requires 0 <= i < |s| => cfg.fold(s[i]))
  }

  /** strings.EqualFold */
  predicate EqualFold(cfg: Config, a: string, b: string) {
    Folded(cfg, a) == Folded(cfg, b)
  }

  predicate NameTaken(cfg: Config, vms: VMs, name: string) {
    exists id :: id in vms && EqualFold(cfg, vms[id].name, name)
  }

  function ResidueID(k: nat): string {
    "vm-" + NatText(k)
  }

  /** How many ids the clock can give. */
  const RESIDUES: nat := 1000000

  function VMID(clock: Clock): string {
    ResidueID(clock.nano % RESIDUES)
  }

  const DISK_DIR := "C:\\Crybaby\\Disks\\"
  const DISK_EXT := ".vhdx"

  function DiskPath(name: string): string {
    DISK_DIR + name + DISK_EXT
  }

  const GIB: uint64 := 0x4000_0000

  /** newSizeGB * 1024 * 1024 * 1024 in uint64, factor by factor. */
  function Gigabytes(gb: uint64): uint64 {
    Mul64(Mul64(Mul64(gb, 1024), 1024), 1024)
  }

  // ---------- operations ----------

  const DEMO_ID := "c1000000-0000-0000-0000-000000000001"

  /** The seeded VM, dated two hours back. */
  function DemoVM(nodeID: string, now: int): VM {
    VM(DEMO_ID, nodeID, "ubuntu-srv-01", Running, 2, 4096, DiskPath("ubuntu-srv-01"), 40 * GIB, 7200,
       ["10.42.100.15"], 12, 1536, now - 7200 * SECOND)
  }

  function Fresh(cfg: Config, now: int): Engine {
    Engine(map[DEMO_ID := DemoVM(cfg.nodeID, now)], map[],
           ["Default Switch", "Internal-VMSwitch", "External-Bridge", "Crybaby-LAN"])
  }

  function NewVM(cfg: Config, req: CreateRequest, clock: Clock): VM {
    VM(VMID(clock), cfg.nodeID, req.name, Stopped, req.cpuCount, req.memoryMB, DiskPath(req.name),
       Gigabytes(req.diskSizeGB), 0, [], 0, 0, clock.nano)
  }

  function CloneOf(cfg: Config, src: VM, name: string, clock: Clock): VM {
    VM(VMID(clock), cfg.nodeID, name, Stopped, src.cpuCount, src.memoryMB, DiskPath(name),
       src.diskSizeBytes, 0, [], 0, 0, clock.nano)
  }

  function Started(vm: VM): VM {
    vm.(state := Running, uptimeSeconds := 0, ipAddresses := ["192.168.100.192"], cpuUsagePct := 8,
        memoryDemandMB := vm.memoryMB / 2)
  }

  function Halted(vm: VM): VM {
    vm.(state := Stopped, uptimeSeconds := 0, ipAddresses := [], cpuUsagePct := 0, memoryDemandMB := 0)
  }

  function Restarted(vm: VM): VM {
    vm.(state := Running, uptimeSeconds := 0, cpuUsagePct := 10, memoryDemandMB := vm.memoryMB / 2)
  }

  /** A missing key reads as a nil slice. */
  function ListOf(lists: map<string, seq<Checkpoint>>, id: string): seq<Checkpoint> {
    if id in lists then lists[id] else []
  }

  function List(e: Engine, id: string): seq<Checkpoint> {
    ListOf(e.checkpoints, id)
  }

  predicate Matches(cp: Checkpoint, key: string) {
    cp.name == key || cp.id == key
  }

  /** Position of the first checkpoint with this name or id, or the length of the list. */
  function FirstMatch(list: seq<Checkpoint>, key: string): (i: nat)
    ensures i <= |list|
    ensures forall k :: 0 <= k < i ==> !Matches(list[k], key)
    ensures i < |list| ==> Matches(list[i], key)
  {
    if list == [] || Matches(list[0], key) then 0 else 1 + FirstMatch(list[1..], key)
  }

  lemma {:induction false} FirstMatchIs(list: seq<Checkpoint>, key: string, i: nat)
    requires i <= |list| && forall k :: 0 <= k < i ==> !Matches(list[k], key)
    requires i < |list| ==> Matches(list[i], key)
    ensures FirstMatch(list, key) == i
  {
    if i == 0 {
    } else {
      assert !Matches(list[0], key);
      FirstMatchIs(list[1..], key, i - 1);
    }
  }

  function RemoveFirst(list: seq<Checkpoint>, key: string): seq<Checkpoint> {
    var i := FirstMatch(list, key);
    if i < |list| then list[..i] + list[i + 1..] else list
  }

  function NewCheckpoint(id: string, name: string, clock: Clock): Checkpoint {
    Checkpoint("cp-" + NatText(clock.nano % RESIDUES), id,
               if name == "" then "Snapshot-" + clock.stamp else name, clock.nano)
  }

  /** When the call returns no error. */
  predicate Succeeds(cfg: Config, e: Engine, op: Op) {
    match op
    case CreateVM(req, _) => !NameTaken(cfg, e.vms, req.name)
    case CloneVM(source, name, _) => source in e.vms && name != "" && !NameTaken(cfg, e.vms, name)
    case StartVM(id) => id in e.vms
    case StopVM(id, _) => id in e.vms
    case RestartVM(id) => id in e.vms
    case DeleteVM(id, _) => id in e.vms
    case ResizeVM(id, cpus, mb) => id in e.vms && cpus > 0 && mb >= 512
    case ExpandDisk(id, gb) => id in e.vms && gb != 0 && Gigabytes(gb) > e.vms[id].diskSizeBytes
    case CreateCheckpoint(id, _, _) => id in e.vms
    case RestoreCheckpoint(id, name) => id in e.vms && FirstMatch(List(e, id), name) < |List(e, id)|
    case DeleteCheckpoint(id, name) => id in e.vms && FirstMatch(List(e, id), name) < |List(e, id)|
    case GetVM(key) => exists id :: id in e.vms && Answers(cfg, e.vms[id], key)
    case ListCheckpoints(id) => id in e.vms
    case EnsureVirtualSwitch(_) => true
    case ListVMs => true
    case ListVirtualSwitches => true
  }

  /** The test of GetVM's loop. */
  predicate Answers(cfg: Config, vm: VM, key: string) {
    vm.id == key || EqualFold(cfg, vm.name, key)
  }

  /** Errors leave the engine as it was. */
  function Apply(cfg: Config, e: Engine, op: Op): Engine {
    if !Succeeds(cfg, e, op) then e
    else
      match op
      case CreateVM(req, clock) => e.(vms := e.vms[VMID(clock) := NewVM(cfg, req, clock)])
      case CloneVM(source, name, clock) => e.(vms := e.vms[VMID(clock) := CloneOf(cfg, e.vms[source], name, clock)])
      case StartVM(id) => e.(vms := e.vms[id := Started(e.vms[id])])
      case StopVM(id, _) => e.(vms := e.vms[id := Halted(e.vms[id])])
      case RestartVM(id) => e.(vms := e.vms[id := Restarted(e.vms[id])])
      case DeleteVM(id, _) => e.(vms := e.vms - {id}, checkpoints := e.checkpoints - {id})
      case ResizeVM(id, cpus, mb) => e.(vms := e.vms[id := e.vms[id].(cpuCount := cpus, memoryMB := mb)])
      case ExpandDisk(id, gb) => e.(vms := e.vms[id := e.vms[id].(diskSizeBytes := Gigabytes(gb))])
      case CreateCheckpoint(id, name, clock) =>
        e.(checkpoints := e.checkpoints[id := List(e, id) + [NewCheckpoint(e.vms[id].id, name, clock)]])
      case DeleteCheckpoint(id, name) =>
        e.(checkpoints := e.checkpoints[id := RemoveFirst(List(e, id), name)])
      case EnsureVirtualSwitch(name) =>
        if name in e.switches then e else e.(switches := e.switches + [name])
      case _ => e
  }

  function Run(cfg: Config, e: Engine, ops: seq<Op>): Engine
    decreases |ops|
  {
    if ops == [] then e else Run(cfg, Apply(cfg, e, ops[0]), ops[1..])
  }

  lemma {:induction false} RunSnoc(cfg: Config, e: Engine, ops: seq<Op>, op: Op)
    ensures Run(cfg, e, ops + [op]) == Apply(cfg, Run(cfg, e, ops), op)
    decreases |ops|
  {
    if ops == [] {
      assert [] + [op] == [op];
    } else {
      assert (ops + [op])[1..] == ops[1..] + [op];
      RunSnoc(cfg, Apply(cfg, e, ops[0]), ops[1..], op);
    }
  }

  // ---------- what every reachable engine satisfies ----------

  ghost predicate NamesUnique(cfg: Config, vms: VMs) {
    forall a, b :: a in vms && b in vms && EqualFold(cfg, vms[a].name, vms[b].name) ==> a == b
  }

  predicate IdleWhenStopped(vm: VM) {
    vm.state == Stopped ==>
      vm.uptimeSeconds == 0 && vm.cpuUsagePct == 0 && vm.memoryDemandMB == 0 && vm.ipAddresses == []
  }

  /** Ids the engine can hold: the seeded one and one per residue below n. */
  ghost function IDSpace(n: nat): set<string> {
    if n == 0 then {DEMO_ID} else IDSpace(n - 1) + {ResidueID(n - 1)}
  }

  predicate VMOk(vm: VM) {
    && vm.diskPath == DiskPath(vm.name)
    && vm.diskSizeBytes % GIB == 0
    && vm.state in {Running, Stopped}
    && IdleWhenStopped(vm)
  }

  ghost predicate Inv(cfg: Config, e: Engine) {
    && (forall id :: id in e.vms ==> e.vms[id].id == id && VMOk(e.vms[id]))
    && NamesUnique(cfg, e.vms)
    && e.vms.Keys <= IDSpace(RESIDUES)
    && e.checkpoints.Keys <= e.vms.Keys
    && (forall id, k :: id in e.checkpoints && 0 <= k < |e.checkpoints[id]| ==> e.checkpoints[id][k].vmID == id)
    && (forall i, j :: 0 <= i < j < |e.switches| ==> e.switches[i] != e.switches[j])
  }

  lemma Mul64Wraps(a: int, b: uint64)
    requires 0 <= a
    ensures Mul64(a % TWO_64, b) == (a * b) % TWO_64
  {
    var q, r := a / TWO_64, a % TWO_64;
    assert a * b == (q * b) * TWO_64 + r * b;
    WrapDrops(q * b, r * b);
  }

  lemma WrapDrops(q: int, x: int)
    ensures (q * TWO_64 + x) % TWO_64 == x % TWO_64
  {
  }

  lemma GigabytesOnce(gb: uint64)
    ensures Gigabytes(gb) == (gb * GIB) % TWO_64
  {
    Mul64Wraps(gb, 1024);
    Mul64Wraps(gb * 1024, 1024);
    Mul64Wraps(gb * 1024 * 1024, 1024);
    assert gb % TWO_64 == gb;
  }

  /** The three wrapping multiplications keep the low 34 bits of the gigabyte count. */
  lemma GigabytesWrap(gb: uint64)
    ensures Gigabytes(gb) == (gb % 0x4_0000_0000) * GIB
    ensures Gigabytes(gb) % GIB == 0
  {
    var q, r := gb / 0x4_0000_0000, gb % 0x4_0000_0000;
    GigabytesOnce(gb);
    assert gb * GIB == q * TWO_64 + r * GIB;
    WrapDrops(q, r * GIB);
  }

  lemma {:induction false} IDInSpace(k: nat, n: nat)
    requires k < n
    ensures ResidueID(k) in IDSpace(n)
  {
    if k == n - 1 {
    } else {
      IDInSpace(k, n - 1);
    }
  }

  lemma {:induction false} IDSpaceOnlyBelow(n: nat, id: string)
    requires id in IDSpace(n)
    ensures id == DEMO_ID || exists k: nat :: k < n && id == ResidueID(k)
  {
    if n == 0 || id !in IDSpace(n - 1) {
    } else {
      IDSpaceOnlyBelow(n - 1, id);
    }
  }

  lemma ResidueIDInjective(a: nat, b: nat)
    requires ResidueID(a) == ResidueID(b)
    ensures a == b
  {
    PrefixOfConcat("vm-", NatText(a));
    PrefixOfConcat("vm-", NatText(b));
    NatTextInjective(a, b);
  }

  /** Distinct residues give distinct ids, none of them the seeded one. */
  lemma {:induction false} IDSpaceSize(n: nat)
    ensures |IDSpace(n)| == n + 1
  {
    if n == 0 {
    } else {
      var id := ResidueID(n - 1);
      IDSpaceSize(n - 1);
      if id in IDSpace(n - 1) {
        IDSpaceOnlyBelow(n - 1, id);
        assert id[0] != DEMO_ID[0];
        var k: nat :| k < n - 1 && id == ResidueID(k);
        ResidueIDInjective(k, n - 1);
      }
    }
  }
}
