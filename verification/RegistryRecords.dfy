/** What a caller can read off the registry, in terms of what was sent to it: which requests are refused,
    what a node's record shows after any run, and what the state file holds. */
module RegistryRecords {
  import opened Text
  import opened ClusterTypes
  import opened MeshAddress
  import opened RegistryModel
  import opened RegistryRecovery

  /** Registrations are refused exactly for want of the cluster token, and then change nothing. */
  lemma RefusedExactly(cfg: Config, s: State, now: int, req: RegisterRequest, ip: string, freshID: string, saved: bool)
    ensures
      var op := Register(req, ip, freshID, saved);
      && (Answer(cfg, s, now, op) == Failed <==> cfg.token == "" || req.clusterToken != cfg.token)
      && (Answer(cfg, s, now, op) == Failed ==> Apply(cfg, s, now, op) == s)
  {
  }

  /** A MAC that no node has, or none at all, makes a new node: its record is the request's, under the
      next free address. */
  lemma NewNodeRecord(cfg: Config, s: State, now: int, req: RegisterRequest, ip: string, freshID: string, saved: bool)
    requires cfg.token != "" && req.clusterToken == cfg.token
    requires forall id :: id in s.nodes ==>
               req.hardware.macAddress == "" || s.nodes[id].hardware.macAddress != req.hardware.macAddress
    ensures
      var t := Apply(cfg, s, now, Register(req, ip, freshID, saved));
      && freshID in t.nodes && t.nodes == s.nodes[freshID := t.nodes[freshID]]
      && t.nextMeshOctet == s.nextMeshOctet + 1
      && Answer(cfg, s, now, Register(req, ip, freshID, saved)) == Accepted(t.nodes[freshID])
      && var n := t.nodes[freshID];
         && n.id == freshID && n.name == req.nodeName && n.ipAddress == ip
         && n.agentPort == (if req.hardware.agentPort == 0 then 8081 else req.hardware.agentPort)
         && n.meshIP == "10.42.0." + IntText(s.nextMeshOctet)
         && n.status == Online && n.version == req.version && n.hardware == req.hardware
         && n.latestMetrics == NO_METRICS && n.lastSeen == now == n.registeredAt && n.pubKey == req.pubKey
  {
  }

  /** The MAC of a node brings that node up to date, and keeps its identity. */
  lemma KnownNodeRecord(cfg: Config, s: State, now: int, req: RegisterRequest, ip: string, freshID: string, saved: bool,
                        id: string)
    requires MACUnique(s.nodes) && cfg.token != "" && req.clusterToken == cfg.token
    requires id in s.nodes && s.nodes[id].hardware.macAddress == req.hardware.macAddress != ""
    ensures
      var t := Apply(cfg, s, now, Register(req, ip, freshID, saved));
      && id in t.nodes && t.nodes == s.nodes[id := t.nodes[id]] && t.nextMeshOctet == s.nextMeshOctet
      && Answer(cfg, s, now, Register(req, ip, freshID, saved)) == Accepted(t.nodes[id])
      && var o, n := s.nodes[id], t.nodes[id];
         && n.id == o.id && n.name == o.name && n.meshIP == o.meshIP && n.registeredAt == o.registeredAt
         && n.latestMetrics == o.latestMetrics
         && n.status == Online && n.lastSeen == now && n.hardware == req.hardware && n.ipAddress == ip
         && n.agentPort == (if req.hardware.agentPort == 0 then 8081 else req.hardware.agentPort)
         && n.pubKey == req.pubKey && n.version == (if req.version == "" then o.version else req.version)
  {
    assert OwnsMAC(s.nodes, id, req.hardware.macAddress);
  }

  /** The other calls, node by node: a heartbeat fails exactly for an unknown id, a removal also if the
      file cannot be written; a removed or reset node is gone, and nothing else changes but the status
      of overdue nodes at a reap. */
  lemma OtherCalls(cfg: Config, s: State, now: int, op: Op, id: string)
    requires !op.Register? && !op.Restart?
    ensures
      var t, failed := Apply(cfg, s, now, op), Answer(cfg, s, now, op) == Failed;
      && (failed <==>
            || (op.Heartbeat? && op.id !in s.nodes)
            || (op.Remove? && (op.id !in s.nodes || (cfg.persistent && !op.saved)))
            || ((op.Reset? || op.SaveToFile?) && cfg.persistent && !op.saved))
      && (id in t.nodes <==> id in s.nodes && !op.Reset? && !(op.Remove? && op.id == id))
      && (id in t.nodes && !(op.Heartbeat? && op.id == id) ==>
            && t.nodes[id].(status := s.nodes[id].status) == s.nodes[id]
            && t.nodes[id].status ==
                 if op.Reap? && s.nodes[id].status == Online && now - s.nodes[id].lastSeen > op.timeout then Offline
                 else s.nodes[id].status)
      && (id in t.nodes && op.Heartbeat? && op.id == id ==>
            && t.nodes[id].status == Online && t.nodes[id].lastSeen == now && t.nodes[id].latestMetrics == op.metrics
            && t.nodes[id].version ==
                 (if op.version == [] || op.version[0] == "" then s.nodes[id].version else op.version[0])
            && t.nodes[id].(status := s.nodes[id].status, lastSeen := s.nodes[id].lastSeen,
                            version := s.nodes[id].version, latestMetrics := s.nodes[id].latestMetrics) == s.nodes[id])
      && t.nextMeshOctet == (if op.Reset? then 2 else s.nextMeshOctet)
  {
  }

  /** A new process knows what the file holds, if it may use one and there is one, and hands out next
      the lowest address above all of these. */
  lemma Restarted(cfg: Config, s: State, now: int)
    ensures
      var t, stored := Apply(cfg, s, now, Restart), if cfg.persistent && s.disk.Some? then s.disk.value else map[];
      t.nodes == stored && t.disk == s.disk && IsNextOctet(stored, t.nextMeshOctet)
  {
    NextOctetIsNext(Apply(cfg, s, now, Restart).nodes);
  }

  // ---------- the state file ----------

  /** The step is a call that writes the file, and gets as far as that. */
  predicate Writes(cfg: Config, s: State, op: Op) {
    match op
    case Register(req, _, _, _) => cfg.token != "" && req.clusterToken == cfg.token
    case Remove(id, _) => id in s.nodes
    case Reset(_) => true
    case SaveToFile(_) => true
    case _ => false
  }

  /** Only such a call changes the file, only if there is one to write and the write succeeds, and it
      then holds the whole node map. */
  lemma FileHolds(cfg: Config, s: State, now: int, op: Op)
    ensures
      var t := Apply(cfg, s, now, op);
      t.disk == if Writes(cfg, s, op) && cfg.persistent && WriteSucceeds(op) then Some(t.nodes) else s.disk
  {
  }

  // ---------- a node's record after any run ----------

  /** An accepted registration under the MAC of node id. */
  ghost predicate Registers(cfg: Config, s: State, op: Op, id: string) {
    && op.Register? && cfg.token != "" && op.req.clusterToken == cfg.token
    && id in s.nodes && op.req.hardware.macAddress == s.nodes[id].hardware.macAddress != ""
  }

  /** The last of the steps in which node id registered again. */
  ghost function LastRegistration(cfg: Config, s: State, steps: seq<Step>, id: string): Option<Op>
    ensures LastRegistration(cfg, s, steps, id).Some? ==> LastRegistration(cfg, s, steps, id).value.Register?
  {
    if steps == [] then None
    else
      var before, last := steps[..|steps| - 1], steps[|steps| - 1];
      if Registers(cfg, Run(cfg, s, before), last.op, id) then Some(last.op) else LastRegistration(cfg, s, before, id)
  }

  /** The metrics of the last heartbeat of node id. */
  function LastMetrics(steps: seq<Step>, id: string, first: Metrics): Metrics {
    if steps == [] then first
    else
      var last := steps[|steps| - 1].op;
      if last.Heartbeat? && last.id == id then last.metrics else LastMetrics(steps[..|steps| - 1], id, first)
  }

  /** The time of the last registration or heartbeat of node id. */
  ghost function LastContact(cfg: Config, s: State, steps: seq<Step>, id: string, first: int): int {
    if steps == [] then first
    else
      var before, last := steps[..|steps| - 1], steps[|steps| - 1];
      if Registers(cfg, Run(cfg, s, before), last.op, id) || (last.op.Heartbeat? && last.op.id == id) then last.now
      else LastContact(cfg, s, before, id, first)
  }

  /** The last non-empty version that node id reported. */
  ghost function LastVersion(cfg: Config, s: State, steps: seq<Step>, id: string, first: string): string {
    if steps == [] then first
    else
      var before, last := steps[..|steps| - 1], steps[|steps| - 1];
      if Registers(cfg, Run(cfg, s, before), last.op, id) && last.op.req.version != "" then last.op.req.version
      else if last.op.Heartbeat? && last.op.id == id && last.op.version != [] && last.op.version[0] != "" then
        last.op.version[0]
      else LastVersion(cfg, s, before, id, first)
  }

  /** No step removes node id or takes its id again, and no controller restarts. */
  ghost predicate Undisturbed(cfg: Config, s: State, steps: seq<Step>, id: string) {
    steps == [] ||
    (&& Undisturbed(cfg, s, steps[..|steps| - 1], id)
     && Spares(cfg, Run(cfg, s, steps[..|steps| - 1]), steps[|steps| - 1].op, id)
     && !steps[|steps| - 1].op.Restart?)
  }

  /** The record n is what the steps make of the record o. */
  ghost predicate Reflects(cfg: Config, s: State, steps: seq<Step>, id: string, o: NodeRecord, n: NodeRecord) {
    var registered := LastRegistration(cfg, s, steps, id);
    && n.id == o.id && n.name == o.name && n.meshIP == o.meshIP && n.registeredAt == o.registeredAt
    && (match registered
        case None =>
          n.hardware == o.hardware && n.ipAddress == o.ipAddress && n.agentPort == o.agentPort && n.pubKey == o.pubKey
        case Some(Register(req, ip, _, _)) =>
          && n.hardware == req.hardware && n.ipAddress == ip && n.pubKey == req.pubKey
          && n.agentPort == (if req.hardware.agentPort == 0 then 8081 else req.hardware.agentPort))
    && n.latestMetrics == LastMetrics(steps, id, o.latestMetrics)
    && n.lastSeen == LastContact(cfg, s, steps, id, o.lastSeen)
    && n.version == LastVersion(cfg, s, steps, id, o.version)
  }

  lemma ReflectsOneMore(cfg: Config, s: State, steps: seq<Step>, step: Step, id: string, o: NodeRecord)
    requires Inv(Run(cfg, s, steps)) && id in Run(cfg, s, steps).nodes
    requires Reflects(cfg, s, steps, id, o, Run(cfg, s, steps).nodes[id])
    requires Spares(cfg, Run(cfg, s, steps), step.op, id) && !step.op.Restart?
    ensures
      var t := Apply(cfg, Run(cfg, s, steps), step.now, step.op);
      id in t.nodes && Reflects(cfg, s, steps + [step], id, o, t.nodes[id])
  {
    var all, u := steps + [step], Run(cfg, s, steps);
    assert all[..|steps|] == steps && all[|steps|] == step;
    if Registers(cfg, u, step.op, id) {
      KnownNodeRecord(cfg, u, step.now, step.op.req, step.op.remoteIP, step.op.freshID, step.op.saved, id);
    } else if step.op.Register? {
      OtherRegistration(cfg, u, step.now, step.op, id);
    } else {
      OtherCalls(cfg, u, step.now, step.op, id);
    }
  }

  /** A registration of another node leaves this one alone. */
  lemma OtherRegistration(cfg: Config, s: State, now: int, op: Op, id: string)
    requires op.Register? && id in s.nodes && Spares(cfg, s, op, id) && !Registers(cfg, s, op, id)
    ensures id in Apply(cfg, s, now, op).nodes && Apply(cfg, s, now, op).nodes[id] == s.nodes[id]
  {
  }

  /** What GetNode shows after any run: the identity of the first registration, the data of the last one,
      the metrics of the last heartbeat, the time of the last contact and the last version reported. */
  lemma {:induction false} RecordReflectsRun(cfg: Config, s: State, steps: seq<Step>, id: string)
    requires Inv(s) && id in s.nodes && Undisturbed(cfg, s, steps, id)
    ensures
      var t := Run(cfg, s, steps);
      Inv(t) && id in t.nodes && Reflects(cfg, s, steps, id, s.nodes[id], t.nodes[id])
  {
    if steps == [] {
    } else {
      var before, last := steps[..|steps| - 1], steps[|steps| - 1];
      RecordReflectsRun(cfg, s, before, id);
      assert before + [last] == steps;
      RunSnoc(cfg, s, before, last);
      StepKeeps(cfg, Run(cfg, s, before), last.now, last.op);
      ReflectsOneMore(cfg, s, before, last, id, s.nodes[id]);
    }
  }

  /** The first node of a new cluster gets address 10.42.0.2. */
  lemma FirstAddress(cfg: Config, now: int, req: RegisterRequest, ip: string, freshID: string, saved: bool)
    requires cfg.token != "" && req.clusterToken == cfg.token
    ensures
      var t := Apply(cfg, Boot(cfg, None), now, Register(req, ip, freshID, saved));
      freshID in t.nodes && t.nodes[freshID].meshIP == "10.42.0.2"
  {
    NewNodeRecord(cfg, Boot(cfg, None), now, req, ip, freshID, saved);
    assert IntText(2) == "2";
    assert "10.42.0." + "2" == "10.42.0.2";
  }
}
