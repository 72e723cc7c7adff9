/** The registry as a value, one function per locked method body, and runs of them.
    Clock readings, random ids and the success of each file write are arguments. */
module RegistryModel {
  import opened Text
  import opened ClusterTypes
  import opened MeshAddress

  type Nodes = map<string, NodeRecord>

  /** persistent: storagePath is not empty. */
  datatype Config = Config(token: string, persistent: bool)

  /** disk is the last map that was written in full, None while no file exists. */
  datatype State = State(nodes: Nodes, nextMeshOctet: int, disk: Option<Nodes>)

  datatype Op =
    | Register(req: RegisterRequest, remoteIP: string, freshID: string, saved: bool)
    | Heartbeat(id: string, metrics: Metrics, version: seq<string>)
    | Remove(id: string, saved: bool)
    | Reset(saved: bool)
    | Reap(timeout: int)
    | SaveToFile(saved: bool)
    | Restart

  datatype Step = Step(now: int, op: Op)

  datatype Reply = Accepted(node: NodeRecord) | Done | Failed

  // ---------- one step ----------

  predicate TokenOk(cfg: Config, token: string) {
    cfg.token != "" && cfg.token == token
  }

  function PortOf(hw: Hardware): int {
    if hw.agentPort == 0 then 8081 else hw.agentPort
  }

  predicate OwnsMAC(nodes: Nodes, id: string, mac: string) {
    id in nodes && mac != "" && nodes[id].hardware.macAddress == mac
  }

  /** The node the MAC scan stops at; MACUnique makes the choice immaterial. */
  ghost function MACOwner(nodes: Nodes, mac: string): (owner: Option<string>)
    ensures owner.Some? ==> OwnsMAC(nodes, owner.value, mac)
    ensures owner.None? ==> forall id :: !OwnsMAC(nodes, id, mac)
  {
    if exists id :: OwnsMAC(nodes, id, mac) then
      var id :| OwnsMAC(nodes, id, mac); Some(id)
    else None
  }

  function Refreshed(old_: NodeRecord, req: RegisterRequest, remoteIP: string, now: int): NodeRecord {
    old_.(status := Online, lastSeen := now, hardware := req.hardware, ipAddress := remoteIP,
          agentPort := PortOf(req.hardware), pubKey := req.pubKey,
          version := if req.version != "" then req.version else old_.version)
  }

  function NewNode(id: string, octet: int, req: RegisterRequest, remoteIP: string, now: int): NodeRecord {
    NodeRecord(id, req.nodeName, remoteIP, PortOf(req.hardware), MeshIP(octet), Online, req.version,
               req.hardware, NO_METRICS, now, now, req.pubKey)
  }

  /** WriteFile either replaces the file or leaves it as it was. */
  function Save(cfg: Config, s: State, saved: bool): State {
    if cfg.persistent && saved then s.(disk := Some(s.nodes)) else s
  }

  function Beat(n: NodeRecord, now: int, metrics: Metrics, version: seq<string>): NodeRecord {
    n.(status := Online, lastSeen := now, latestMetrics := metrics,
       version := if |version| > 0 && version[0] != "" then version[0] else n.version)
  }

  function Reaped(n: NodeRecord, now: int, timeout: int): NodeRecord {
    if n.status == Online && now - n.lastSeen > timeout then n.(status := Offline) else n
  }

  function ReapAll(nodes: Nodes, now: int, timeout: int): Nodes {
    map id | id in nodes :: Reaped(nodes[id], now, timeout)
  }

  /** What the counter must be after loading: above every octet, and no higher than needed. */
  ghost predicate IsNextOctet(nodes: Nodes, n: int) {
    && n >= 2
    && (forall id :: id in nodes && ScanMesh(nodes[id].meshIP).Some? ==> ScanMesh(nodes[id].meshIP).value < n)
    && (n == 2 || exists id :: id in nodes && ScanMesh(nodes[id].meshIP) == Some(n - 1))
  }

  /** One round of the rebuild loop. */
  function Bump(next: int, meshIP: string): int {
    var octet := ScanMesh(meshIP);
    if octet.Some? && octet.value >= next then octet.value + 1 else next
  }

  lemma BumpKeeps(nodes: Nodes, id: string, n: NodeRecord, next: int)
    requires IsNextOctet(nodes, next) && id !in nodes
    ensures IsNextOctet(nodes[id := n], Bump(next, n.meshIP))
  {
    var after, m := nodes[id := n], Bump(next, n.meshIP);
    if m == next && next != 2 {
      var k :| k in nodes && ScanMesh(nodes[k].meshIP) == Some(next - 1);
      assert k in after && ScanMesh(after[k].meshIP) == Some(m - 1);
    } else if m != next {
      assert id in after && ScanMesh(after[id].meshIP) == Some(m - 1);
    }
  }

  ghost function NextOctet(nodes: Nodes): int
    decreases |nodes|
  {
    if nodes == map[] then 2
    else var id :| id in nodes; Bump(NextOctet(nodes - {id}), nodes[id].meshIP)
  }

  lemma {:induction false} NextOctetIsNext(nodes: Nodes)
    ensures IsNextOctet(nodes, NextOctet(nodes))
    decreases |nodes|
  {
    if nodes == map[] {
    } else {
      var id :| id in nodes && NextOctet(nodes) == Bump(NextOctet(nodes - {id}), nodes[id].meshIP);
      NextOctetIsNext(nodes - {id});
      BumpKeeps(nodes - {id}, id, nodes[id], NextOctet(nodes - {id}));
      assert (nodes - {id})[id := nodes[id]] == nodes;
    }
  }

  lemma NextOctetUnique(nodes: Nodes, n: int)
    requires IsNextOctet(nodes, n)
    ensures n == NextOctet(nodes)
  {
    NextOctetIsNext(nodes);
    var m := NextOctet(nodes);
    if n != 2 {
      var id :| id in nodes && ScanMesh(nodes[id].meshIP) == Some(n - 1);
      assert n - 1 < m;
    }
    if m != 2 {
      var id :| id in nodes && ScanMesh(nodes[id].meshIP) == Some(m - 1);
      assert m - 1 < n;
    }
  }

  /** Loading adds nodes in any order: the counter after one more is one more round. */
  lemma NextOctetAdds(nodes: Nodes, id: string, n: NodeRecord)
    requires id !in nodes
    ensures NextOctet(nodes[id := n]) == Bump(NextOctet(nodes), n.meshIP)
  {
    NextOctetIsNext(nodes);
    BumpKeeps(nodes, id, n, NextOctet(nodes));
    NextOctetUnique(nodes[id := n], Bump(NextOctet(nodes), n.meshIP));
  }

  /** A new controller process: NewRegistry over whatever the file holds. */
  ghost function Boot(cfg: Config, disk: Option<Nodes>): State {
    if cfg.persistent && disk.Some? then State(disk.value, NextOctet(disk.value), disk)
    else State(map[], 2, disk)
  }

  ghost function Apply(cfg: Config, s: State, now: int, op: Op): State {
    match op
    case Register(req, ip, freshID, saved) =>
      if !TokenOk(cfg, req.clusterToken) then s
      else
        var owner := MACOwner(s.nodes, req.hardware.macAddress);
        if owner.Some? then
          Save(cfg, s.(nodes := s.nodes[owner.value := Refreshed(s.nodes[owner.value], req, ip, now)]), saved)
        else
          Save(cfg, s.(nodes := s.nodes[freshID := NewNode(freshID, s.nextMeshOctet, req, ip, now)],
                       nextMeshOctet := s.nextMeshOctet + 1), saved)
    case Heartbeat(id, metrics, version) =>
      if id in s.nodes then s.(nodes := s.nodes[id := Beat(s.nodes[id], now, metrics, version)]) else s
    case Remove(id, saved) =>
      if id in s.nodes then Save(cfg, s.(nodes := s.nodes - {id}), saved) else s
    case Reset(saved) =>
      Save(cfg, s.(nodes := map[], nextMeshOctet := 2), saved)
    case Reap(timeout) =>
      s.(nodes := ReapAll(s.nodes, now, timeout))
    case SaveToFile(saved) => Save(cfg, s, saved)
    case Restart => Boot(cfg, s.disk)
  }

  ghost function Answer(cfg: Config, s: State, now: int, op: Op): Reply {
    match op
    case Register(req, ip, freshID, saved) =>
      if !TokenOk(cfg, req.clusterToken) then Failed
      else
        var owner := MACOwner(s.nodes, req.hardware.macAddress);
        if owner.Some? then Accepted(Refreshed(s.nodes[owner.value], req, ip, now))
        else Accepted(NewNode(freshID, s.nextMeshOctet, req, ip, now))
    case Heartbeat(id, _, _) => if id in s.nodes then Done else Failed
    case Remove(id, saved) => if id in s.nodes && (saved || !cfg.persistent) then Done else Failed
    case Reset(saved) => if saved || !cfg.persistent then Done else Failed
    case Reap(_) => Done
    case SaveToFile(saved) => if saved || !cfg.persistent then Done else Failed
    case Restart => Done
  }

  ghost function Run(cfg: Config, s: State, steps: seq<Step>): State
    decreases |steps|
  {
    if steps == [] then s
    else Run(cfg, Apply(cfg, s, steps[0].now, steps[0].op), steps[1..])
  }

  lemma {:induction false} RunSnoc(cfg: Config, s: State, steps: seq<Step>, step: Step)
    ensures Run(cfg, s, steps + [step]) == Apply(cfg, Run(cfg, s, steps), step.now, step.op)
    decreases |steps|
  {
    if steps == [] {
      assert [] + [step] == [step];
    } else {
      assert (steps + [step])[1..] == steps[1..] + [step];
      RunSnoc(cfg, Apply(cfg, s, steps[0].now, steps[0].op), steps[1..], step);
    }
  }

  /** The step leaves node id in place: it is not removed, and no new node gets the same id. */
  ghost predicate Spares(cfg: Config, s: State, op: Op, id: string) {
    match op
    case Register(req, _, freshID, _) =>
      TokenOk(cfg, req.clusterToken) && MACOwner(s.nodes, req.hardware.macAddress).None? ==> freshID != id
    case Remove(gone, _) => gone != id
    case Reset(_) => false
    case _ => true
  }

  // ---------- what every reachable state keeps ----------

  /** The mesh octet a node holds, when its address is one the allocator prints. */
  ghost predicate HoldsOctet(n: NodeRecord, octet: int) {
    octet >= 2 && n.meshIP == MeshIP(octet)
  }

  ghost predicate MeshDistinct(nodes: Nodes) {
    forall a, b :: a in nodes && b in nodes && a != b ==> nodes[a].meshIP != nodes[b].meshIP
  }

  ghost predicate MACUnique(nodes: Nodes) {
    forall a, b, mac :: OwnsMAC(nodes, a, mac) && OwnsMAC(nodes, b, mac) ==> a == b
  }

  ghost predicate NodesOk(nodes: Nodes) {
    && (forall id :: id in nodes ==> nodes[id].id == id)
    && (forall id :: id in nodes ==> exists octet :: HoldsOctet(nodes[id], octet))
    && MeshDistinct(nodes)
    && MACUnique(nodes)
  }

  ghost predicate OctetsBelow(nodes: Nodes, n: int) {
    forall id, octet :: id in nodes && HoldsOctet(nodes[id], octet) ==> octet < n
  }

  ghost predicate Inv(s: State) {
    && s.nextMeshOctet >= 2
    && NodesOk(s.nodes)
    && OctetsBelow(s.nodes, s.nextMeshOctet)
    && (s.disk.Some? ==> NodesOk(s.disk.value))
  }

  lemma BootKeeps(cfg: Config, disk: Option<Nodes>)
    requires disk.Some? ==> NodesOk(disk.value)
    ensures Inv(Boot(cfg, disk))
  {
    var s := Boot(cfg, disk);
    NextOctetIsNext(s.nodes);
    forall id, octet | id in s.nodes && HoldsOctet(s.nodes[id], octet)
      ensures octet < s.nextMeshOctet
    {
      ScanMeshIP(octet);
    }
  }

  lemma NewAddress(nodes: Nodes, n: NodeRecord, octet: int)
    requires NodesOk(nodes) && OctetsBelow(nodes, octet) && HoldsOctet(n, octet)
    ensures forall a :: a in nodes ==> nodes[a].meshIP != n.meshIP
    ensures OctetsBelow(nodes[n.id := n], octet + 1)
  {
    forall a | a in nodes
      ensures nodes[a].meshIP != n.meshIP
    {
      var o :| HoldsOctet(nodes[a], o);
      if nodes[a].meshIP == n.meshIP {
        MeshIPInjective(o, octet);
      }
    }
    forall o | HoldsOctet(n, o)
      ensures o < octet + 1
    {
      MeshIPInjective(o, octet);
    }
  }

  lemma NewMAC(nodes: Nodes, n: NodeRecord)
    requires MACUnique(nodes) && forall id :: !OwnsMAC(nodes, id, n.hardware.macAddress)
    ensures MACUnique(nodes[n.id := n])
  {
    var after := nodes[n.id := n];
    forall a, b, mac | OwnsMAC(after, a, mac) && OwnsMAC(after, b, mac)
      ensures a == b
    {
      assert a != n.id ==> OwnsMAC(nodes, a, mac);
      assert b != n.id ==> OwnsMAC(nodes, b, mac);
    }
  }

  lemma RegisterNewKeeps(nodes: Nodes, n: NodeRecord, octet: int)
    requires NodesOk(nodes) && OctetsBelow(nodes, octet) && HoldsOctet(n, octet)
    requires forall id :: !OwnsMAC(nodes, id, n.hardware.macAddress)
    ensures NodesOk(nodes[n.id := n]) && OctetsBelow(nodes[n.id := n], octet + 1)
  {
    NewAddress(nodes, n, octet);
    NewMAC(nodes, n);
  }

  /** Identity, mesh address and MAC of every surviving node stay what they were. */
  ghost predicate SameIdentities(before: Nodes, after: Nodes) {
    && after.Keys <= before.Keys
    && forall id :: id in after ==>
         && after[id].id == before[id].id
         && after[id].meshIP == before[id].meshIP
         && after[id].hardware.macAddress == before[id].hardware.macAddress
  }

  lemma SameIdentitiesKeep(before: Nodes, after: Nodes, n: int)
    requires NodesOk(before) && OctetsBelow(before, n) && SameIdentities(before, after)
    ensures NodesOk(after) && OctetsBelow(after, n)
  {
    forall id | id in after
      ensures exists octet :: HoldsOctet(after[id], octet)
    {
      var octet :| HoldsOctet(before[id], octet);
      assert HoldsOctet(after[id], octet);
    }
    forall id, octet | id in after && HoldsOctet(after[id], octet)
      ensures octet < n
    {
      assert HoldsOctet(before[id], octet);
    }
    forall a, b, mac | OwnsMAC(after, a, mac) && OwnsMAC(after, b, mac)
      ensures a == b
    {
      assert OwnsMAC(before, a, mac) && OwnsMAC(before, b, mac);
    }
  }

  lemma NodesStepKeeps(cfg: Config, s: State, nodes: Nodes, n: int, saved: bool)
    requires Inv(s) && n >= 2 && NodesOk(nodes) && OctetsBelow(nodes, n)
    ensures Inv(s.(nodes := nodes, nextMeshOctet := n))
    ensures Inv(Save(cfg, s.(nodes := nodes, nextMeshOctet := n), saved))
  {
  }

  lemma RegisterKeeps(cfg: Config, s: State, now: int, op: Op)
    requires Inv(s) && op.Register?
    ensures Inv(Apply(cfg, s, now, op))
  {
    var Register(req, ip, freshID, saved) := op;
    var n := s.nextMeshOctet;
    var owner := MACOwner(s.nodes, req.hardware.macAddress);
    if TokenOk(cfg, req.clusterToken) && owner.Some? {
      var nodes := s.nodes[owner.value := Refreshed(s.nodes[owner.value], req, ip, now)];
      SameIdentitiesKeep(s.nodes, nodes, n);
      NodesStepKeeps(cfg, s, nodes, n, saved);
    } else if TokenOk(cfg, req.clusterToken) {
      var node := NewNode(freshID, n, req, ip, now);
      RegisterNewKeeps(s.nodes, node, n);
      NodesStepKeeps(cfg, s, s.nodes[freshID := node], n + 1, saved);
    }
  }

  lemma HeartbeatKeeps(cfg: Config, s: State, now: int, op: Op)
    requires Inv(s) && op.Heartbeat?
    ensures Inv(Apply(cfg, s, now, op))
  {
    if op.id in s.nodes {
      var nodes := s.nodes[op.id := Beat(s.nodes[op.id], now, op.metrics, op.version)];
      SameIdentitiesKeep(s.nodes, nodes, s.nextMeshOctet);
      NodesStepKeeps(cfg, s, nodes, s.nextMeshOctet, false);
    }
  }

  /** Every operation keeps the invariant: any id, any clock, any write failure. */
  lemma StepKeeps(cfg: Config, s: State, now: int, op: Op)
    requires Inv(s)
    ensures Inv(Apply(cfg, s, now, op))
  {
    var n := s.nextMeshOctet;
    match op {
      case Restart => BootKeeps(cfg, s.disk);
      case Reset(saved) => NodesStepKeeps(cfg, s, map[], 2, saved);
      case Register(_, _, _, _) => RegisterKeeps(cfg, s, now, op);
      case Remove(id, saved) =>
        SameIdentitiesKeep(s.nodes, s.nodes - {id}, n);
        NodesStepKeeps(cfg, s, s.nodes - {id}, n, saved);
      case SaveToFile(saved) => NodesStepKeeps(cfg, s, s.nodes, n, saved);
      case Heartbeat(_, _, _) => HeartbeatKeeps(cfg, s, now, op);
      case Reap(timeout) =>
        SameIdentitiesKeep(s.nodes, ReapAll(s.nodes, now, timeout), n);
        NodesStepKeeps(cfg, s, ReapAll(s.nodes, now, timeout), n, false);
    }
  }

  lemma {:induction false} RunKeeps(cfg: Config, s: State, steps: seq<Step>)
    requires Inv(s)
    ensures Inv(Run(cfg, s, steps))
    decreases |steps|
  {
    if steps == [] {
    } else {
      StepKeeps(cfg, s, steps[0].now, steps[0].op);
      RunKeeps(cfg, Apply(cfg, s, steps[0].now, steps[0].op), steps[1..]);
    }
  }

  /** Every node's address is a printed octet in [2, nextMeshOctet), all addresses and all
      non-empty MACs are pairwise distinct: in every reachable state, through restarts, resets,
      removals, arbitrary ids and arbitrary failed writes. */
  lemma MeshAddressesDistinct(cfg: Config, steps: seq<Step>)
    ensures
      var s := Run(cfg, Boot(cfg, None), steps);
      && (forall id :: id in s.nodes ==>
            exists octet :: 2 <= octet < s.nextMeshOctet && s.nodes[id].meshIP == MeshIP(octet))
      && (forall a, b :: a in s.nodes && b in s.nodes && a != b ==>
            && s.nodes[a].meshIP != s.nodes[b].meshIP
            && (s.nodes[a].hardware.macAddress == s.nodes[b].hardware.macAddress ==>
                  s.nodes[a].hardware.macAddress == ""))
  {
    BootKeeps(cfg, None);
    RunKeeps(cfg, Boot(cfg, None), steps);
    var s := Run(cfg, Boot(cfg, None), steps);
    forall id | id in s.nodes
      ensures exists octet :: 2 <= octet < s.nextMeshOctet && s.nodes[id].meshIP == MeshIP(octet)
    {
      var octet :| HoldsOctet(s.nodes[id], octet);
      assert 2 <= octet < s.nextMeshOctet && s.nodes[id].meshIP == MeshIP(octet);
    }
    forall a, b | a in s.nodes && b in s.nodes && a != b
        && s.nodes[a].hardware.macAddress == s.nodes[b].hardware.macAddress
      ensures s.nodes[a].hardware.macAddress == ""
    {
      var mac := s.nodes[a].hardware.macAddress;
      assert mac != "" ==> OwnsMAC(s.nodes, a, mac) && OwnsMAC(s.nodes, b, mac);
    }
  }
}
