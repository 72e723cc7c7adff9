/** pkg/cluster/registry.go: the registry and its node objects, updated in place. */
module Registry {
  import opened Text
  import opened GoInt
  import opened ClusterTypes
  import opened MeshAddress
  import opened RegistryModel
  import opened RegistrySummary

  lemma MergeOneMore(before: Nodes, seen: Nodes, id: string, r: NodeRecord)
    ensures (before + seen)[id := r] == before + seen[id := r]
  {
  }

  lemma MergeWithNone(empty: Nodes)
    requires empty == map[]
    ensures forall stored: Nodes :: empty + stored == stored
  {
  }

  function Max(a: int, b: int): int {
    if a < b then b else a
  }

  class Node {
    var id: string
    var name: string
    var ipAddress: string
    var agentPort: int
    var meshIP: string
    var status: NodeStatus
    var version: string
    var hardware: Hardware
    var latestMetrics: Metrics
    var lastSeen: int
    var registeredAt: int
    var pubKey: string

    constructor (r: NodeRecord)
      ensures Record() == r
    {
      id, name, ipAddress, agentPort, meshIP := r.id, r.name, r.ipAddress, r.agentPort, r.meshIP;
      status, version, hardware, latestMetrics := r.status, r.version, r.hardware, r.latestMetrics;
      lastSeen, registeredAt, pubKey := r.lastSeen, r.registeredAt, r.pubKey;
    }

    /** The struct copy *n. */
    function Record(): NodeRecord
      reads this
    {
      NodeRecord(id, name, ipAddress, agentPort, meshIP, status, version, hardware, latestMetrics,
                 lastSeen, registeredAt, pubKey)
    }

    /** The assignments of RegisterNode's duplicate branch. */
    method Refresh(req: RegisterRequest, remoteIP: string, agentPort: int, now: int)
      requires agentPort == PortOf(req.hardware)
      modifies this
      ensures Record() == Refreshed(old(Record()), req, remoteIP, now)
    {
      this.status := Online;
      this.lastSeen := now;
      this.hardware := req.hardware;
      this.ipAddress := remoteIP;
      this.agentPort := agentPort;
      this.pubKey := req.pubKey;
      if req.version != "" {
        this.version := req.version;
      }
    }

    /** The assignments of UpdateHeartbeat. */
    method Hear(metrics: Metrics, version: seq<string>, now: int)
      modifies this
      ensures Record() == Beat(old(Record()), now, metrics, version)
    {
      this.status := Online;
      this.lastSeen := now;
      this.latestMetrics := metrics;
      if |version| > 0 && version[0] != "" {
        this.version := version[0];
      }
    }

    /** The loop body of ReapOfflineNodes. */
    method Expire(timeout: int, now: int)
      modifies this
      ensures Record() == Reaped(old(Record()), now, timeout)
    {
      if status == Online && now - lastSeen > timeout {
        status := Offline;
      }
    }
  }

  /** The state file; it outlives the process. */
  class StateFile {
    var contents: Option<Nodes>
  }

  class Registry {
    var nodes: map<string, Node>
    var nextMeshOctet: int
    const clusterToken: string
    const storagePath: string
    const file: StateFile

    ghost function Cfg(): Config {
      Config(clusterToken, storagePath != "")
    }

    ghost function View(): Nodes
      reads `nodes, nodes.Values
    {
      map id | id in nodes :: nodes[id].Record()
    }

    ghost function Abs(): State
      reads this, nodes.Values, file
    {
      State(View(), nextMeshOctet, file.contents)
    }

    /** No two keys share a node object. What the stored values satisfy is RegistryModel.Inv, which
        RegistryModel.RunKeeps carries through every sequence of the calls below. */
    ghost predicate Valid()
      reads `nodes, `nextMeshOctet
    {
      && nextMeshOctet >= 2
      && forall a, b :: a in nodes && b in nodes && a != b ==> nodes[a] != nodes[b]
    }

    /** NewRegistry: load what the file holds and rebuild the address counter from it. */
    constructor (token: string, path: string, file: StateFile)
      ensures Valid() && fresh(nodes.Values)
      ensures clusterToken == token && storagePath == path && this.file == file
      ensures Abs() == Boot(Config(token, path != ""), file.contents)
    {
      nodes := map[];
      nextMeshOctet := 2;
      clusterToken, storagePath, this.file := token, path, file;
      new;
      ghost var empty := View();
      var ok := LoadFromFile();
      NextOctetIsNext(View());
      MergeWithNone(empty);
    }

    /** Merges the file into the node map, a stored node replacing one of the same id, and raises the
        counter above every address; without a readable file, nothing changes. */
    method LoadFromFile() returns (ok: bool)
      requires Valid()
      modifies this
      ensures Valid() && fresh(nodes.Values - old(nodes.Values))
      ensures ok <==> storagePath == "" || file.contents.Some?
      ensures if storagePath != "" && file.contents.Some?
              then View() == old(View()) + file.contents.value
                  && nextMeshOctet == Max(old(nextMeshOctet), NextOctet(View()))
              else nodes == old(nodes) && nextMeshOctet == old(nextMeshOctet)
    {
      if storagePath == "" {
        return true;
      }
      if file.contents.None? {
        return false;
      }
      Unmarshal(file.contents.value);
      RebuildCounter();
      return true;
    }

    /** json.Unmarshal into the node map: each stored entry becomes a fresh object under its key. */
    method Unmarshal(stored: Nodes)
      requires Valid()
      modifies this`nodes
      ensures Valid() && View() == old(View()) + stored && fresh(nodes.Values - old(nodes.Values))
    {
      ghost var before, seen: Nodes := View(), map[];
      var todo := stored.Keys;
      assert before + seen == before;
      while todo != {}
        invariant todo <= stored.Keys && seen.Keys == stored.Keys - todo
                  && forall id :: id in seen ==> seen[id] == stored[id]
        invariant Valid() && View() == before + seen && fresh(nodes.Values - old(nodes.Values))
      {
        var id :| id in todo;
        MergeOneMore(before, seen, id, stored[id]);
        Put(id, stored[id]);
        todo, seen := todo - {id}, seen[id := stored[id]];
      }
      assert seen == stored;
    }

    /** r.nodes[id] = &node */
    method Put(id: string, r: NodeRecord)
      requires Valid()
      modifies this`nodes
      ensures Valid() && View() == old(View())[id := r]
      ensures fresh(nodes.Values - old(nodes.Values)) && id in nodes && fresh(nodes[id])
      ensures nodes == old(nodes)[id := nodes[id]]
    {
      var node := new Node(r);
      nodes := nodes[id := node];
    }

    /** The loop over the loaded nodes, in whatever order the map yields them. */
    method RebuildCounter()
      requires Valid()
      modifies this`nextMeshOctet
      ensures Valid() && nextMeshOctet == Max(old(nextMeshOctet), NextOctet(View()))
    {
      ghost var view := View();
      ghost var seen: Nodes := map[];
      var todo := nodes.Keys;
      while todo != {}
        invariant todo <= nodes.Keys && View() == view
        invariant seen.Keys == nodes.Keys - todo && forall id :: id in seen ==> seen[id] == view[id]
        invariant nextMeshOctet == Max(old(nextMeshOctet), NextOctet(seen))
      {
        var id :| id in todo;
        NextOctetAdds(seen, id, view[id]);
        var octet := ScanMesh(nodes[id].meshIP);
        if octet.Some? && octet.value >= nextMeshOctet {
          nextMeshOctet := octet.value + 1;
        }
        todo, seen := todo - {id}, seen[id := view[id]];
      }
      assert seen == view;
    }

    /** The duplicate check of RegisterNode: the loop may meet the nodes in any order. */
    method ScanMAC(mac: string) returns (owner: Option<string>)
      requires MACUnique(View())
      ensures owner == MACOwner(View(), mac)
    {
      var todo := nodes.Keys;
      while todo != {}
        invariant todo <= nodes.Keys
        invariant forall id :: id in nodes && id !in todo ==> !OwnsMAC(View(), id, mac)
      {
        var id :| id in todo;
        if nodes[id].hardware.macAddress == mac && mac != "" {
          assert OwnsMAC(View(), id, mac);
          return Some(id);
        }
        todo := todo - {id};
      }
      return None;
    }

    method RegisterNode(req: RegisterRequest, remoteIP: string, now: int, freshID: string, saved: bool)
      returns (node: Node?)
      requires Valid() && MACUnique(View())
      modifies this, nodes.Values, file
      ensures Valid() && fresh(nodes.Values - old(nodes.Values))
      ensures Abs() == Apply(Cfg(), old(Abs()), now, Register(req, remoteIP, freshID, saved))
      ensures node == null <==> clusterToken == "" || req.clusterToken != clusterToken
      ensures node == null ==>
                && nodes == old(nodes) && View() == old(View()) && nextMeshOctet == old(nextMeshOctet)
                && file.contents == old(file.contents)
      ensures node != null ==>
                && node in nodes.Values
                && Answer(Cfg(), old(Abs()), now, Register(req, remoteIP, freshID, saved)) == Accepted(node.Record())
    {
      if !TokenOk(Config(clusterToken, storagePath != ""), req.clusterToken) {
        return null;
      }
      node := Enrol(req, remoteIP, now, freshID);
      var ok := SaveToFileLocked(saved);
    }

    /** RegisterNode between the token check and the save. */
    method Enrol(req: RegisterRequest, remoteIP: string, now: int, freshID: string) returns (node: Node)
      requires Valid() && MACUnique(View())
      modifies this, nodes.Values
      ensures Valid() && fresh(nodes.Values - old(nodes.Values))
      ensures
        var owner := MACOwner(old(View()), req.hardware.macAddress);
        var id := if owner.Some? then owner.value else freshID;
        && View() == old(View())[id := node.Record()] && node in nodes.Values
        && node.Record() == (if owner.Some? then Refreshed(old(View())[id], req, remoteIP, now)
                             else NewNode(freshID, old(nextMeshOctet), req, remoteIP, now))
        && nextMeshOctet == old(nextMeshOctet) + if owner.Some? then 0 else 1
    {
      var agentPort := req.hardware.agentPort;
      if agentPort == 0 {
        agentPort := 8081;
      }
      var owner := ScanMAC(req.hardware.macAddress);
      if owner.Some? {
        node := nodes[owner.value];
        assert node in nodes.Values;
        node.Refresh(req, remoteIP, agentPort, now);
        OneNodeChanged(owner.value);
      } else {
        node := Add(freshID, req, remoteIP, agentPort, now);
        assert node in nodes.Values && View()[freshID] == node.Record();
      }
    }

    twostate lemma OneNodeChanged(id: string)
      requires Valid() && nodes == old(nodes) && id in nodes
      requires forall k :: k in nodes && nodes[k] != nodes[id] ==> nodes[k].Record() == old(nodes[k].Record())
      ensures View() == old(View())[id := nodes[id].Record()]
    {
    }

    /** The new-node branch of RegisterNode. */
    method Add(freshID: string, req: RegisterRequest, remoteIP: string, agentPort: int, now: int)
      returns (node: Node)
      requires Valid() && agentPort == PortOf(req.hardware)
      modifies this
      ensures Valid() && freshID in nodes && node == nodes[freshID] && fresh(node)
      ensures nodes == old(nodes)[freshID := node]
      ensures nextMeshOctet == old(nextMeshOctet) + 1
      ensures View() == old(View())[freshID := NewNode(freshID, old(nextMeshOctet), req, remoteIP, now)]
    {
      var meshIP := MeshIP(nextMeshOctet);
      nextMeshOctet := nextMeshOctet + 1;
      Put(freshID, NodeRecord(freshID, req.nodeName, remoteIP, agentPort, meshIP, Online, req.version,
                              req.hardware, NO_METRICS, now, now, req.pubKey));
      node := nodes[freshID];
    }

    /** Write-through of the whole node map. */
    method SaveToFileLocked(saved: bool) returns (ok: bool)
      modifies file
      ensures Abs() == Save(Cfg(), old(Abs()), saved)
      ensures ok == (saved || storagePath == "")
    {
      if storagePath == "" {
        return true;
      }
      if saved {
        file.contents := Some(map id | id in nodes :: nodes[id].Record());
      }
      return saved;
    }

    method UpdateHeartbeat(id: string, metrics: Metrics, version: seq<string>, now: int) returns (ok: bool)
      requires Valid()
      modifies nodes.Values
      ensures Valid()
      ensures Abs() == Apply(Cfg(), old(Abs()), now, Heartbeat(id, metrics, version))
      ensures ok <==> id in nodes
    {
      if id !in nodes {
        return false;
      }
      var node := nodes[id];
      node.Hear(metrics, version, now);
      OneNodeChanged(id);
      return true;
    }

    /** GetNode hands out a copy. */
    method GetNode(id: string) returns (found: Option<NodeRecord>)
      ensures found == if id in View() then Some(View()[id]) else None
    {
      if id !in nodes {
        return None;
      }
      return Some(nodes[id].Record());
    }

    method RemoveNode(id: string, saved: bool, now: int) returns (ok: bool)
      requires Valid()
      modifies this`nodes, file
      ensures Valid() && nodes.Values <= old(nodes.Values)
      ensures Abs() == Apply(Cfg(), old(Abs()), now, Remove(id, saved))
      ensures nodes == old(nodes) - {id} && (ok <==> id in old(nodes) && (saved || storagePath == ""))
    {
      if id !in nodes {
        return false;
      }
      ghost var before := View();
      nodes := nodes - {id};
      assert View() == before - {id};
      ok := SaveToFileLocked(saved);
    }

    method ResetCluster(saved: bool, now: int) returns (ok: bool)
      requires Valid()
      modifies this, file
      ensures Valid() && nodes == map[]
      ensures Abs() == Apply(Cfg(), old(Abs()), now, Reset(saved))
      ensures ok <==> saved || storagePath == ""
    {
      nodes := map[];
      nextMeshOctet := 2;
      ok := SaveToFileLocked(saved);
    }

    method ReapOfflineNodes(timeout: int, now: int)
      requires Valid()
      modifies nodes.Values
      ensures Valid()
      ensures Abs() == Apply(Cfg(), old(Abs()), now, Reap(timeout))
    {
      ExpireAll(timeout, now);
    }

    /** The range loop of ReapOfflineNodes, in any order. */
    method ExpireAll(timeout: int, now: int)
      requires Valid()
      modifies nodes.Values
      ensures View() == ReapAll(old(View()), now, timeout)
    {
      ghost var before := View();
      ghost var target := ReapAll(before, now, timeout);
      ghost var view := before;
      var todo := nodes.Keys;
      while todo != {}
        invariant todo <= nodes.Keys
        invariant View() == view && view.Keys == before.Keys
        invariant forall id :: id in before ==> view[id] == if id in todo then before[id] else target[id]
      {
        var id :| id in todo;
        var node := nodes[id];
        label L:
        node.Expire(timeout, now);
        OneNodeChanged@L(id);
        view := view[id := target[id]];
        todo := todo - {id};
      }
      assert view == target;
    }

    /** One pass over the map in any order; the result is the order-free summary. */
    method GetClusterSummary() returns (s: ClusterSummary)
      ensures Summarizes(s, View())
    {
      s := ClusterSummary(|nodes|, 0, 0, 0, 0.0, 0, 0, 0, 0, 0, "10.42.0.0/16");
      var totalCPUUsage, activeOnlineCPUs := 0.0, 0;
      var todo := nodes.Keys;
      ghost var seen: Nodes := map[];
      while todo != {}
        invariant todo <= nodes.Keys && seen == map id | id in nodes && id !in todo :: nodes[id].Record()
        invariant s.totalNodes == |nodes| && s.meshNetworkCIDR == "10.42.0.0/16" && s.avgCPUUsagePct == 0.0
        invariant Tallied(s, totalCPUUsage, activeOnlineCPUs, Sum(seen))
      {
        var id :| id in todo;
        var n := nodes[id];
        ghost var s0, cpu0, cpus0 := s, totalCPUUsage, activeOnlineCPUs;
        if n.status == Online {
          s := s.(onlineNodes := s.onlineNodes + 1);
          totalCPUUsage := totalCPUUsage + n.latestMetrics.cpuUsagePct;
          activeOnlineCPUs := activeOnlineCPUs + 1;
          s := s.(usedRAMBytes := Add64(s.usedRAMBytes, n.latestMetrics.ramUsedBytes));
          s := s.(usedDiskBytes := Add64(s.usedDiskBytes, n.latestMetrics.diskUsedBytes));
          s := s.(totalActiveVMs := s.totalActiveVMs + n.latestMetrics.activeVMCount);
        } else {
          s := s.(offlineNodes := s.offlineNodes + 1);
        }
        s := s.(totalCPUCores := s.totalCPUCores + n.hardware.cpuCores);
        s := s.(totalRAMBytes := Add64(s.totalRAMBytes, n.hardware.totalRAMBytes));
        s := s.(totalDiskBytes := Add64(s.totalDiskBytes, n.hardware.totalDiskBytes));
        TallyRound(s0, cpu0, cpus0, Sum(seen), n.Record());
        SumPutIn(seen, id, n.Record());
        seen := seen[id := n.Record()];
        todo := todo - {id};
      }
      assert seen == View();
      assert View().Keys == nodes.Keys;
      if activeOnlineCPUs > 0 {
        s := s.(avgCPUUsagePct := totalCPUUsage / activeOnlineCPUs as real);
      }
    }
  }

  /** One step of a controller's life: a call on the registry, or a new process over the same file. */
  method Perform(r: Registry, step: Step) returns (next: Registry)
    requires r.Valid() && MACUnique(r.View())
    modifies r, r.nodes.Values, r.file
    ensures next.Valid() && next.file == r.file && next.clusterToken == r.clusterToken
              && next.storagePath == r.storagePath
    ensures next == r || fresh(next)
    ensures fresh(next.nodes.Values - old(r.nodes.Values))
    ensures next.Abs() == Apply(r.Cfg(), old(r.Abs()), step.now, step.op)
  {
    next := r;
    var ok;
    match step.op {
      case Register(req, remoteIP, freshID, saved) =>
        var node := r.RegisterNode(req, remoteIP, step.now, freshID, saved);
      case Heartbeat(id, metrics, version) => ok := r.UpdateHeartbeat(id, metrics, version, step.now);
      case Remove(id, saved) => ok := r.RemoveNode(id, saved, step.now);
      case Reset(saved) => ok := r.ResetCluster(saved, step.now);
      case Reap(timeout) => r.ReapOfflineNodes(timeout, step.now);
      case SaveToFile(saved) => ok := r.SaveToFileLocked(saved);
      case Restart => next := new Registry(r.clusterToken, r.storagePath, r.file);
    }
  }

  /** A whole run of controller processes over one state file is a run of the model, so that every
      theorem about RegistryModel.Run holds of these objects. */
  method Serve(token: string, path: string, file: StateFile, steps: seq<Step>) returns (r: Registry)
    requires file.contents.Some? ==> NodesOk(file.contents.value)
    modifies file
    ensures fresh(r) && r.Valid() && Inv(r.Abs())
    ensures
      var cfg := Config(token, path != "");
      r.Abs() == RegistryModel.Run(cfg, Boot(cfg, old(file.contents)), steps)
  {
    var cfg := Config(token, path != "");
    ghost var boot := Boot(cfg, file.contents);
    r := new Registry(token, path, file);
    BootKeeps(cfg, file.contents);
    for i := 0 to |steps|
      invariant fresh(r) && fresh(r.nodes.Values) && r.Valid()
      invariant r.file == file && r.clusterToken == token && r.storagePath == path
      invariant r.Abs() == RegistryModel.Run(cfg, boot, steps[..i]) && Inv(r.Abs())
    {
      StepKeeps(cfg, r.Abs(), steps[i].now, steps[i].op);
      RunSnoc(cfg, boot, steps[..i], steps[i]);
      assert steps[..i + 1] == steps[..i] + [steps[i]];
      r := Perform(r, steps[i]);
    }
    assert steps[..|steps|] == steps;
  }
}
