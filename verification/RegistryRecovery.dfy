/** Crash recovery: what a restart preserves, and what nodes observe across one. */
module RegistryRecovery {
  import opened Text
  import opened ClusterTypes
  import opened MeshAddress
  import opened RegistryModel

  /** What write-through persistence protects: heartbeats and reaps are never saved, so
      version, status, last-seen time and metrics are not in it. */
  function Durable(n: NodeRecord): NodeRecord {
    n.(version := "", status := Online, lastSeen := 0, latestMetrics := NO_METRICS)
  }

  ghost predicate Agree(a: Nodes, b: Nodes) {
    a.Keys == b.Keys && forall id :: id in a ==> Durable(a[id]) == Durable(b[id])
  }

  /** The file as a map; no file reads as no nodes. */
  ghost function OnDisk(s: State): Nodes {
    if s.disk.Some? then s.disk.value else map[]
  }

  ghost predicate Synced(s: State) {
    Agree(s.nodes, OnDisk(s))
  }

  /** The step's own write, if it makes one, succeeds. */
  predicate WriteSucceeds(op: Op) {
    match op
    case Register(_, _, _, saved) => saved
    case Remove(_, saved) => saved
    case Reset(saved) => saved
    case SaveToFile(saved) => saved
    case _ => true
  }

  lemma StepSyncs(cfg: Config, s: State, now: int, op: Op)
    requires cfg.persistent && WriteSucceeds(op) && Synced(s)
    ensures Synced(Apply(cfg, s, now, op))
  {
    var t := Apply(cfg, s, now, op);
    if op.Reap? || op.Heartbeat? {
      assert forall id :: id in s.nodes ==> id in t.nodes && Durable(t.nodes[id]) == Durable(s.nodes[id]);
    }
  }

  lemma {:induction false} RunSyncs(cfg: Config, s: State, steps: seq<Step>)
    requires cfg.persistent && Synced(s)
    requires forall k :: 0 <= k < |steps| ==> WriteSucceeds(steps[k].op)
    ensures Synced(Run(cfg, s, steps))
    decreases |steps|
  {
    if steps == [] {
    } else {
      assert WriteSucceeds(steps[0].op);
      StepSyncs(cfg, s, steps[0].now, steps[0].op);
      RunSyncs(cfg, Apply(cfg, s, steps[0].now, steps[0].op), steps[1..]);
    }
  }

  /** Two controllers no returning node can tell apart by id or address; counters may differ. */
  ghost predicate Twins(s: State, t: State) {
    Inv(s) && Inv(t) && Alike(s, t)
  }

  ghost predicate Alike(s: State, t: State) {
    && Agree(s.nodes, t.nodes)
    && s.disk.Some? == t.disk.Some?
    && Agree(OnDisk(s), OnDisk(t))
  }

  lemma RebuiltNotAbove(live: Nodes, stored: Nodes, n: int)
    requires Agree(live, stored) && NodesOk(stored)
    requires n >= 2 && OctetsBelow(live, n)
    ensures NextOctet(stored) <= n
  {
    NextOctetIsNext(stored);
    var m := NextOctet(stored);
    if m > 2 {
      var id :| id in stored && ScanMesh(stored[id].meshIP) == Some(m - 1);
      var octet :| HoldsOctet(stored[id], octet);
      ScanMeshIP(octet);
      assert live[id].meshIP == Durable(live[id]).meshIP == Durable(stored[id]).meshIP == stored[id].meshIP;
      assert HoldsOctet(live[id], octet);
    }
  }

  lemma SyncedRecovers(cfg: Config, live: State)
    requires cfg.persistent && Inv(live) && Synced(live)
    ensures Twins(live, Boot(cfg, live.disk))
    ensures Boot(cfg, live.disk).nextMeshOctet <= live.nextMeshOctet
  {
    BootKeeps(cfg, live.disk);
    RebuiltNotAbove(live.nodes, Boot(cfg, live.disk).nodes, live.nextMeshOctet);
    NextOctetIsNext(map[]);
  }

  /** After any run from a boot on a well-formed file (or none) in which every write succeeds,
      a restart brings back the same ids with the same names, addresses, ports, MACs, hardware,
      keys and registration times, and a counter that is not above the live one. */
  lemma RestartRecovers(cfg: Config, file: Option<Nodes>, steps: seq<Step>)
    requires cfg.persistent && (file.Some? ==> NodesOk(file.value))
    requires forall k :: 0 <= k < |steps| ==> WriteSucceeds(steps[k].op)
    ensures
      var live := Run(cfg, Boot(cfg, file), steps);
      var recovered := Boot(cfg, live.disk);
      && live.nodes.Keys == recovered.nodes.Keys
      && (forall id :: id in live.nodes ==> SameRegistration(live.nodes[id], recovered.nodes[id]))
      && recovered.nextMeshOctet <= live.nextMeshOctet
      && Twins(live, recovered)
  {
    BootKeeps(cfg, file);
    RunKeeps(cfg, Boot(cfg, file), steps);
    RunSyncs(cfg, Boot(cfg, file), steps);
    var live := Run(cfg, Boot(cfg, file), steps);
    SyncedRecovers(cfg, live);
    forall id | id in live.nodes
      ensures SameRegistration(live.nodes[id], Boot(cfg, live.disk).nodes[id])
    {
      DurableFields(live.nodes[id], Boot(cfg, live.disk).nodes[id]);
    }
  }

  /** The fields that registration sets, other than the version. */
  predicate SameRegistration(a: NodeRecord, b: NodeRecord) {
    && a.id == b.id && a.name == b.name && a.meshIP == b.meshIP && a.registeredAt == b.registeredAt
    && a.hardware == b.hardware && a.ipAddress == b.ipAddress && a.agentPort == b.agentPort && a.pubKey == b.pubKey
  }

  lemma DurableFields(a: NodeRecord, b: NodeRecord)
    ensures Durable(a) == Durable(b) <==> SameRegistration(a, b)
  {
    var x, y := Durable(a), Durable(b);
    assert x.id == a.id && x.name == a.name && x.meshIP == a.meshIP && x.registeredAt == a.registeredAt
        && x.hardware == a.hardware && x.ipAddress == a.ipAddress && x.agentPort == a.agentPort && x.pubKey == a.pubKey;
    assert y.id == b.id && y.name == b.name && y.meshIP == b.meshIP && y.registeredAt == b.registeredAt
        && y.hardware == b.hardware && y.ipAddress == b.ipAddress && y.agentPort == b.agentPort && y.pubKey == b.pubKey;
  }

  /** No step hands out a new address: each registration is refused or from a known MAC. */
  ghost predicate OnlyKnownMACs(cfg: Config, s: State, steps: seq<Step>)
    decreases |steps|
  {
    steps == [] ||
    (&& (steps[0].op.Register? ==>
           !TokenOk(cfg, steps[0].op.req.clusterToken) || MACOwner(s.nodes, steps[0].op.req.hardware.macAddress).Some?)
     && OnlyKnownMACs(cfg, Apply(cfg, s, steps[0].now, steps[0].op), steps[1..]))
  }

  /** What a caller learns about identities: refusals, and the (id, mesh IP) it is given. */
  datatype Seen = Assigned(id: string, meshIP: string) | Acknowledged | Refused

  ghost function Observe(cfg: Config, s: State, now: int, op: Op): Seen {
    match Answer(cfg, s, now, op)
    case Accepted(node) => Assigned(node.id, node.meshIP)
    case Done => Acknowledged
    case Failed => Refused
  }

  ghost function Observations(cfg: Config, s: State, steps: seq<Step>): seq<Seen>
    decreases |steps|
  {
    if steps == [] then []
    else [Observe(cfg, s, steps[0].now, steps[0].op)]
         + Observations(cfg, Apply(cfg, s, steps[0].now, steps[0].op), steps[1..])
  }

  lemma SameOwner(a: Nodes, b: Nodes, mac: string)
    requires Agree(a, b) && MACUnique(a) && MACUnique(b)
    ensures MACOwner(a, mac) == MACOwner(b, mac)
  {
    assert forall id :: id in a ==> Durable(a[id]).hardware == a[id].hardware == b[id].hardware;
    assert forall id :: OwnsMAC(a, id, mac) <==> OwnsMAC(b, id, mac);
  }

  lemma AgreeUpdate(a: Nodes, b: Nodes, id: string, x: NodeRecord, y: NodeRecord)
    requires Agree(a, b) && Durable(x) == Durable(y)
    ensures Agree(a[id := x], b[id := y])
  {
  }

  lemma AlikeRegister(cfg: Config, s: State, t: State, now: int, op: Op)
    requires Alike(s, t) && MACUnique(s.nodes) && MACUnique(t.nodes) && op.Register?
    requires !TokenOk(cfg, op.req.clusterToken) || MACOwner(s.nodes, op.req.hardware.macAddress).Some?
    ensures Observe(cfg, s, now, op) == Observe(cfg, t, now, op)
    ensures Alike(Apply(cfg, s, now, op), Apply(cfg, t, now, op))
  {
    if TokenOk(cfg, op.req.clusterToken) {
      SameOwner(s.nodes, t.nodes, op.req.hardware.macAddress);
      var id := MACOwner(s.nodes, op.req.hardware.macAddress).value;
      var a, b := s.nodes[id], t.nodes[id];
      var x, y := Refreshed(a, op.req, op.remoteIP, now), Refreshed(b, op.req, op.remoteIP, now);
      assert Durable(a) == Durable(b);
      assert a.id == Durable(a).id && b.id == Durable(b).id && a.meshIP == Durable(a).meshIP
          && b.meshIP == Durable(b).meshIP;
      assert Durable(x) == Durable(a).(hardware := x.hardware, ipAddress := x.ipAddress, agentPort := x.agentPort,
          pubKey := x.pubKey);
      assert Durable(y) == Durable(b).(hardware := x.hardware, ipAddress := x.ipAddress, agentPort := x.agentPort,
          pubKey := x.pubKey);
      AgreeUpdate(s.nodes, t.nodes, id, x, y);
    }
  }

  lemma AlikeSave(cfg: Config, s: State, t: State, saved: bool)
    requires Alike(s, t)
    ensures Alike(Save(cfg, s, saved), Save(cfg, t, saved))
  {
  }

  /** Removals, resets and saves. */
  lemma AlikeWrite(cfg: Config, s: State, t: State, now: int, op: Op)
    requires Alike(s, t) && (op.Remove? || op.Reset? || op.SaveToFile?)
    ensures Observe(cfg, s, now, op) == Observe(cfg, t, now, op)
    ensures Alike(Apply(cfg, s, now, op), Apply(cfg, t, now, op))
  {
    if op.Remove? {
      AlikeSave(cfg, s.(nodes := s.nodes - {op.id}), t.(nodes := t.nodes - {op.id}), op.saved);
    } else if op.Reset? {
      AlikeSave(cfg, s.(nodes := map[], nextMeshOctet := 2), t.(nodes := map[], nextMeshOctet := 2), op.saved);
    } else {
      AlikeSave(cfg, s, t, op.saved);
    }
  }

  lemma AlikeReap(cfg: Config, s: State, t: State, now: int, timeout: int)
    requires Alike(s, t)
    ensures Alike(Apply(cfg, s, now, Reap(timeout)), Apply(cfg, t, now, Reap(timeout)))
  {
    var u, v := Apply(cfg, s, now, Reap(timeout)), Apply(cfg, t, now, Reap(timeout));
    forall id | id in u.nodes
      ensures id in v.nodes && Durable(u.nodes[id]) == Durable(v.nodes[id])
    {
      assert Durable(u.nodes[id]) == Durable(s.nodes[id]) == Durable(t.nodes[id]);
    }
  }

  lemma AlikeHeartbeat(cfg: Config, s: State, t: State, now: int, op: Op)
    requires Alike(s, t) && op.Heartbeat?
    ensures Observe(cfg, s, now, op) == Observe(cfg, t, now, op)
    ensures Alike(Apply(cfg, s, now, op), Apply(cfg, t, now, op))
  {
    if op.id in s.nodes {
      var x := Beat(s.nodes[op.id], now, op.metrics, op.version);
      var y := Beat(t.nodes[op.id], now, op.metrics, op.version);
      assert Durable(x) == Durable(s.nodes[op.id]) == Durable(t.nodes[op.id]) == Durable(y);
      AgreeUpdate(s.nodes, t.nodes, op.id, x, y);
    }
  }

  lemma AlikeStep(cfg: Config, s: State, t: State, now: int, op: Op)
    requires Alike(s, t) && !op.Register?
    ensures Observe(cfg, s, now, op) == Observe(cfg, t, now, op)
    ensures Alike(Apply(cfg, s, now, op), Apply(cfg, t, now, op))
  {
    match op {
      case Reap(timeout) => AlikeReap(cfg, s, t, now, timeout);
      case Heartbeat(_, _, _) => AlikeHeartbeat(cfg, s, t, now, op);
      case Restart =>
      case _ => AlikeWrite(cfg, s, t, now, op);
    }
  }

  lemma TwinsStep(cfg: Config, s: State, t: State, now: int, op: Op)
    requires Twins(s, t)
    requires op.Register? ==>
               !TokenOk(cfg, op.req.clusterToken) || MACOwner(s.nodes, op.req.hardware.macAddress).Some?
    ensures Observe(cfg, s, now, op) == Observe(cfg, t, now, op)
    ensures Twins(Apply(cfg, s, now, op), Apply(cfg, t, now, op))
  {
    StepKeeps(cfg, s, now, op);
    StepKeeps(cfg, t, now, op);
    if op.Register? {
      AlikeRegister(cfg, s, t, now, op);
    } else {
      AlikeStep(cfg, s, t, now, op);
    }
  }

  /** Any continuation with known MACs only (and anything else: heartbeats, reaps, removals,
      resets, further crashes, failed writes) looks the same before and after recovery. */
  lemma {:induction false} TwinsObserveAlike(cfg: Config, s: State, t: State, steps: seq<Step>)
    requires Twins(s, t) && OnlyKnownMACs(cfg, s, steps)
    ensures Observations(cfg, s, steps) == Observations(cfg, t, steps)
    ensures Twins(Run(cfg, s, steps), Run(cfg, t, steps))
    decreases |steps|
  {
    if steps == [] {
    } else {
      TwinsStep(cfg, s, t, steps[0].now, steps[0].op);
      TwinsObserveAlike(cfg, Apply(cfg, s, steps[0].now, steps[0].op),
                        Apply(cfg, t, steps[0].now, steps[0].op), steps[1..]);
    }
  }

  /** The crash is invisible: run, crash, continue answers as run, continue. */
  lemma CrashIsTransparent(cfg: Config, file: Option<Nodes>, steps: seq<Step>, rest: seq<Step>)
    requires cfg.persistent && (file.Some? ==> NodesOk(file.value))
    requires forall k :: 0 <= k < |steps| ==> WriteSucceeds(steps[k].op)
    requires OnlyKnownMACs(cfg, Run(cfg, Boot(cfg, file), steps), rest)
    ensures
      var live := Run(cfg, Boot(cfg, file), steps);
      Observations(cfg, live, rest) == Observations(cfg, Boot(cfg, live.disk), rest)
  {
    RestartRecovers(cfg, file, steps);
    var live := Run(cfg, Boot(cfg, file), steps);
    TwinsObserveAlike(cfg, live, Boot(cfg, live.disk), rest);
  }

  // ---------- one MAC, one identity ----------

  /** No step of the run takes node id away, and any restart happens when the file is up to date, as
      RunSyncs shows it always is while writes succeed. */
  ghost predicate AllSpare(cfg: Config, s: State, steps: seq<Step>, id: string)
    decreases |steps|
  {
    steps == [] ||
    (&& Spares(cfg, s, steps[0].op, id)
     && (steps[0].op.Restart? ==> cfg.persistent && Synced(s))
     && AllSpare(cfg, Apply(cfg, s, steps[0].now, steps[0].op), steps[1..], id))
  }

  predicate SameIdentity(a: NodeRecord, b: NodeRecord) {
    && a.id == b.id && a.name == b.name && a.meshIP == b.meshIP && a.registeredAt == b.registeredAt
    && a.hardware.macAddress == b.hardware.macAddress
  }

  lemma SparedStep(cfg: Config, s: State, now: int, op: Op, id: string)
    requires id in s.nodes && Spares(cfg, s, op, id) && (op.Restart? ==> cfg.persistent && Synced(s))
    ensures
      var t := Apply(cfg, s, now, op);
      id in t.nodes && SameIdentity(s.nodes[id], t.nodes[id])
  {
    if op.Restart? {
      assert Durable(s.nodes[id]) == Durable(OnDisk(s)[id]);
      assert Durable(s.nodes[id]).hardware == s.nodes[id].hardware;
    }
  }

  /** While a node is neither removed nor reset away nor its id drawn again, every registration of its
      MAC, through any number of restarts, returns its first id, mesh IP, name and registration time. */
  lemma {:induction false} RegistrationIsStable(cfg: Config, s: State, steps: seq<Step>, id: string, again: Step)
    requires Inv(s) && id in s.nodes && AllSpare(cfg, s, steps, id)
    requires again.op.Register? && TokenOk(cfg, again.op.req.clusterToken)
    requires again.op.req.hardware.macAddress == s.nodes[id].hardware.macAddress != ""
    ensures
      var reply := Answer(cfg, Run(cfg, s, steps), again.now, again.op);
      reply.Accepted? && SameIdentity(s.nodes[id], reply.node)
    decreases |steps|
  {
    if steps == [] {
      assert OwnsMAC(s.nodes, id, again.op.req.hardware.macAddress);
    } else {
      var t := Apply(cfg, s, steps[0].now, steps[0].op);
      StepKeeps(cfg, s, steps[0].now, steps[0].op);
      SparedStep(cfg, s, steps[0].now, steps[0].op, id);
      RegistrationIsStable(cfg, t, steps[1..], id, again);
    }
  }
}
