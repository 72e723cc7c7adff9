/** The cluster summary, specified by sums over the set of nodes rather than by a traversal. */
module RegistrySummary {
  import opened GoInt
  import opened ClusterTypes
  import opened RegistryModel

  datatype ClusterSummary = ClusterSummary(
    totalNodes: int, onlineNodes: int, offlineNodes: int, totalCPUCores: int, avgCPUUsagePct: real,
    totalRAMBytes: uint64, usedRAMBytes: uint64, totalDiskBytes: uint64, usedDiskBytes: uint64,
    totalActiveVMs: int, meshNetworkCIDR: string)

  /** What one node, or a set of nodes, contributes; byte counts here do not wrap. */
  datatype Totals = Totals(online: int, offline: int, cpu: real, usedRAM: int, usedDisk: int, activeVMs: int,
                           cores: int, ram: int, disk: int)

  const NOTHING := Totals(0, 0, 0.0, 0, 0, 0, 0, 0, 0)

  function Plus(a: Totals, b: Totals): Totals {
    Totals(a.online + b.online, a.offline + b.offline, a.cpu + b.cpu, a.usedRAM + b.usedRAM,
           a.usedDisk + b.usedDisk, a.activeVMs + b.activeVMs, a.cores + b.cores, a.ram + b.ram, a.disk + b.disk)
  }

  /** Usage counts for ONLINE nodes only, capacity for all. */
  function Share(n: NodeRecord): Totals {
    var capacity := NOTHING.(cores := n.hardware.cpuCores, ram := n.hardware.totalRAMBytes,
        disk := n.hardware.totalDiskBytes);
    if n.status == Online then
      var m := n.latestMetrics;
      capacity.(online := 1, cpu := m.cpuUsagePct, usedRAM := m.ramUsedBytes, usedDisk := m.diskUsedBytes,
                activeVMs := m.activeVMCount)
    else capacity.(offline := 1)
  }

  ghost function Sum(nodes: Nodes): Totals
    decreases |nodes|
  {
    if nodes == map[] then NOTHING
    else var id :| id in nodes; Plus(Share(nodes[id]), Sum(nodes - {id}))
  }

  lemma PlusSwaps(a: Totals, b: Totals, c: Totals)
    ensures Plus(a, Plus(b, c)) == Plus(b, Plus(a, c))
  {
  }

  /** The sum does not depend on which node is taken out first. */
  lemma {:induction false} SumTakeOut(nodes: Nodes, id: string)
    requires id in nodes
    ensures Sum(nodes) == Plus(Share(nodes[id]), Sum(nodes - {id}))
    decreases |nodes|
  {
    var first :| first in nodes && Sum(nodes) == Plus(Share(nodes[first]), Sum(nodes - {first}));
    if first == id {
    } else {
      SumTakeOut(nodes - {first}, id);
      SumTakeOut(nodes - {id}, first);
      var rest := nodes - {first} - {id};
      assert rest == nodes - {id} - {first};
      PlusSwaps(Share(nodes[first]), Share(nodes[id]), Sum(rest));
    }
  }

  lemma SumPutIn(nodes: Nodes, id: string, n: NodeRecord)
    requires id !in nodes
    ensures Sum(nodes[id := n]) == Plus(Share(n), Sum(nodes))
  {
    SumTakeOut(nodes[id := n], id);
    assert nodes[id := n] - {id} == nodes;
  }

  /** The summary of a node map: no order of traversal appears in it. */
  ghost predicate Summarizes(s: ClusterSummary, nodes: Nodes) {
    var t := Sum(nodes);
    && s.totalNodes == |nodes|
    && s.onlineNodes == t.online && s.offlineNodes == t.offline
    && s.totalCPUCores == t.cores && s.totalActiveVMs == t.activeVMs
    && s.totalRAMBytes == t.ram % TWO_64 && s.usedRAMBytes == t.usedRAM % TWO_64
    && s.totalDiskBytes == t.disk % TWO_64 && s.usedDiskBytes == t.usedDisk % TWO_64
    && s.avgCPUUsagePct == (if t.online > 0 then t.cpu / t.online as real else 0.0)
    && s.meshNetworkCIDR == "10.42.0.0/16"
  }

  ghost function OnlineIDs(nodes: Nodes): set<string> {
    set id | id in nodes && nodes[id].status == Online
  }

  lemma {:induction false} CountsAreCardinalities(nodes: Nodes)
    ensures Sum(nodes).online == |OnlineIDs(nodes)|
    ensures Sum(nodes).online + Sum(nodes).offline == |nodes|
    decreases |nodes|
  {
    if nodes == map[] {
      assert OnlineIDs(nodes) == {};
    } else {
      var id :| id in nodes;
      SumTakeOut(nodes, id);
      CountsAreCardinalities(nodes - {id});
      assert OnlineIDs(nodes - {id}) == OnlineIDs(nodes) - {id};
    }
  }

  // ---------- field by field ----------

  /** The sum of one quantity over some of the nodes. */
  ghost function Total(nodes: Nodes, ids: set<string>, quantity: NodeRecord -> real): real
    requires ids <= nodes.Keys
    decreases |ids|
  {
    if ids == {} then 0.0
    else var id :| id in ids; quantity(nodes[id]) + Total(nodes, ids - {id}, quantity)
  }

  lemma {:induction false} TotalTakeOut(nodes: Nodes, ids: set<string>, id: string, quantity: NodeRecord -> real)
    requires ids <= nodes.Keys && id in ids
    ensures Total(nodes, ids, quantity) == quantity(nodes[id]) + Total(nodes, ids - {id}, quantity)
    decreases |ids|
  {
    var first :| first in ids
              && Total(nodes, ids, quantity) == quantity(nodes[first]) + Total(nodes, ids - {first}, quantity);
    if first == id {
    } else {
      TotalTakeOut(nodes, ids - {first}, id, quantity);
      TotalTakeOut(nodes, ids - {id}, first, quantity);
      assert ids - {first} - {id} == ids - {id} - {first};
    }
  }

  lemma {:induction false} TotalOfRest(nodes: Nodes, ids: set<string>, id: string, quantity: NodeRecord -> real)
    requires ids <= nodes.Keys && id !in ids
    ensures Total(nodes - {id}, ids, quantity) == Total(nodes, ids, quantity)
    decreases |ids|
  {
    if ids == {} {
    } else {
      var k :| k in ids;
      TotalTakeOut(nodes, ids, k, quantity);
      TotalTakeOut(nodes - {id}, ids, k, quantity);
      TotalOfRest(nodes, ids - {k}, id, quantity);
    }
  }

  /** A quantity summed over all nodes, or over the ONLINE ones, after taking one node out. */
  lemma TotalsTakeOut(nodes: Nodes, id: string, quantity: NodeRecord -> real)
    requires id in nodes
    ensures Total(nodes, nodes.Keys, quantity)
            == quantity(nodes[id]) + Total(nodes - {id}, (nodes - {id}).Keys, quantity)
    ensures Total(nodes, OnlineIDs(nodes), quantity)
            == (if nodes[id].status == Online then quantity(nodes[id]) else 0.0)
               + Total(nodes - {id}, OnlineIDs(nodes - {id}), quantity)
  {
    var online := OnlineIDs(nodes) - {id};
    assert OnlineIDs(nodes - {id}) == online && (nodes - {id}).Keys == nodes.Keys - {id};
    TotalTakeOut(nodes, nodes.Keys, id, quantity);
    TotalOfRest(nodes, nodes.Keys - {id}, id, quantity);
    TotalOfRest(nodes, online, id, quantity);
    if nodes[id].status == Online {
      TotalTakeOut(nodes, OnlineIDs(nodes), id, quantity);
    } else {
      assert online == OnlineIDs(nodes);
    }
  }

  function Cores(n: NodeRecord): real { n.hardware.cpuCores as real }
  function RAM(n: NodeRecord): real { n.hardware.totalRAMBytes as real }
  function Disk(n: NodeRecord): real { n.hardware.totalDiskBytes as real }
  function CPUUsage(n: NodeRecord): real { n.latestMetrics.cpuUsagePct }
  function RAMUsed(n: NodeRecord): real { n.latestMetrics.ramUsedBytes as real }
  function DiskUsed(n: NodeRecord): real { n.latestMetrics.diskUsedBytes as real }
  function ActiveVMs(n: NodeRecord): real { n.latestMetrics.activeVMCount as real }

  /** Capacity is summed over all nodes. */
  lemma {:induction false} CapacitySums(nodes: Nodes)
    ensures Sum(nodes).cores as real == Total(nodes, nodes.Keys, Cores)
    ensures Sum(nodes).ram as real == Total(nodes, nodes.Keys, RAM)
    ensures Sum(nodes).disk as real == Total(nodes, nodes.Keys, Disk)
    decreases |nodes|
  {
    if nodes == map[] {
    } else {
      var id :| id in nodes;
      SumTakeOut(nodes, id);
      CapacitySums(nodes - {id});
      TotalsTakeOut(nodes, id, Cores);
      TotalsTakeOut(nodes, id, RAM);
      TotalsTakeOut(nodes, id, Disk);
    }
  }

  /** Load, use and running VMs are summed over the ONLINE nodes only. */
  lemma {:induction false} UsageSums(nodes: Nodes)
    ensures Sum(nodes).cpu == Total(nodes, OnlineIDs(nodes), CPUUsage)
    ensures Sum(nodes).usedRAM as real == Total(nodes, OnlineIDs(nodes), RAMUsed)
    ensures Sum(nodes).usedDisk as real == Total(nodes, OnlineIDs(nodes), DiskUsed)
    ensures Sum(nodes).activeVMs as real == Total(nodes, OnlineIDs(nodes), ActiveVMs)
    decreases |nodes|
  {
    if nodes == map[] {
      assert OnlineIDs(nodes) == {};
    } else {
      var id :| id in nodes;
      SumTakeOut(nodes, id);
      UsageSums(nodes - {id});
      TotalsTakeOut(nodes, id, CPUUsage);
      TotalsTakeOut(nodes, id, RAMUsed);
      TotalsTakeOut(nodes, id, DiskUsed);
      TotalsTakeOut(nodes, id, ActiveVMs);
    }
  }

  lemma Distribute(x: real, k: real)
    ensures x * (k + 1.0) == x * k + x
  {
  }

  lemma QuotientBetween(total: real, k: real, lo: real, hi: real)
    requires k > 0.0 && lo * k <= total <= hi * k
    ensures lo <= total / k <= hi
  {
    var q := total / k;
    assert q * k == total;
    assert (q - lo) * k >= 0.0 && (hi - q) * k >= 0.0;
  }

  ghost predicate Between(t: Totals, lo: real, hi: real) {
    t.online >= 0 && lo * t.online as real <= t.cpu <= hi * t.online as real
  }

  lemma BetweenGrows(t: Totals, n: NodeRecord, lo: real, hi: real)
    requires Between(t, lo, hi)
    requires n.status == Online ==> lo <= n.latestMetrics.cpuUsagePct <= hi
    ensures Between(Plus(Share(n), t), lo, hi)
  {
    Distribute(lo, t.online as real);
    Distribute(hi, t.online as real);
    assert (t.online + 1) as real == t.online as real + 1.0;
  }

  lemma {:induction false} CPUTotalBetween(nodes: Nodes, lo: real, hi: real)
    requires forall id :: id in OnlineIDs(nodes) ==> lo <= nodes[id].latestMetrics.cpuUsagePct <= hi
    ensures Between(Sum(nodes), lo, hi)
    decreases |nodes|
  {
    if nodes == map[] {
    } else {
      var id :| id in nodes;
      var rest := nodes - {id};
      SumTakeOut(nodes, id);
      assert forall k :: k in OnlineIDs(rest) ==> k in OnlineIDs(nodes);
      CPUTotalBetween(rest, lo, hi);
      assert nodes[id].status == Online ==> id in OnlineIDs(nodes);
      BetweenGrows(Sum(rest), nodes[id], lo, hi);
    }
  }

  /** The reported CPU average lies between any bounds of the ONLINE nodes, or is 0 without one. */
  lemma AverageBetween(s: ClusterSummary, nodes: Nodes, lo: real, hi: real)
    requires Summarizes(s, nodes)
    requires forall id :: id in OnlineIDs(nodes) ==> lo <= nodes[id].latestMetrics.cpuUsagePct <= hi
    ensures s.onlineNodes == |OnlineIDs(nodes)| && s.onlineNodes + s.offlineNodes == s.totalNodes
    ensures if OnlineIDs(nodes) == {} then s.avgCPUUsagePct == 0.0 else lo <= s.avgCPUUsagePct <= hi
  {
    CountsAreCardinalities(nodes);
    CPUTotalBetween(nodes, lo, hi);
    if OnlineIDs(nodes) != {} {
      QuotientBetween(Sum(nodes).cpu, s.onlineNodes as real, lo, hi);
    }
  }

  /** The running totals of GetClusterSummary after the nodes summed in t. */
  ghost predicate Tallied(s: ClusterSummary, cpu: real, onlineCPUs: int, t: Totals) {
    && s.onlineNodes == onlineCPUs == t.online && s.offlineNodes == t.offline && cpu == t.cpu
    && s.totalCPUCores == t.cores && s.totalActiveVMs == t.activeVMs
    && s.totalRAMBytes == t.ram % TWO_64 && s.usedRAMBytes == t.usedRAM % TWO_64
    && s.totalDiskBytes == t.disk % TWO_64 && s.usedDiskBytes == t.usedDisk % TWO_64
  }

  lemma AddWraps(t: int, x: uint64)
    ensures Add64(t % TWO_64, x) == (x + t) % TWO_64
  {
  }

  /** One round of the loop adds one node's share. */
  lemma TallyRound(s: ClusterSummary, cpu: real, cpus: int, t: Totals, n: NodeRecord)
    requires Tallied(s, cpu, cpus, t)
    ensures
      var m := n.latestMetrics;
      var after := s.(totalCPUCores := s.totalCPUCores + n.hardware.cpuCores,
                      totalRAMBytes := Add64(s.totalRAMBytes, n.hardware.totalRAMBytes),
                      totalDiskBytes := Add64(s.totalDiskBytes, n.hardware.totalDiskBytes));
      if n.status == Online then
        Tallied(after.(onlineNodes := s.onlineNodes + 1, totalActiveVMs := s.totalActiveVMs + m.activeVMCount,
                       usedRAMBytes := Add64(s.usedRAMBytes, m.ramUsedBytes),
                       usedDiskBytes := Add64(s.usedDiskBytes, m.diskUsedBytes)),
                cpu + m.cpuUsagePct, cpus + 1, Plus(Share(n), t))
      else
        Tallied(after.(offlineNodes := s.offlineNodes + 1), cpu, cpus, Plus(Share(n), t))
  {
    AddWraps(t.ram, n.hardware.totalRAMBytes);
    AddWraps(t.disk, n.hardware.totalDiskBytes);
    AddWraps(t.usedRAM, n.latestMetrics.ramUsedBytes);
    AddWraps(t.usedDisk, n.latestMetrics.diskUsedBytes);
  }
}
