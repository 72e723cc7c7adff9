/** The records of pkg/types that the registry stores and receives. */
module ClusterTypes {
  import opened GoInt

  datatype NodeStatus = Online | Offline | Pending | Warning

  datatype Hardware = Hardware(
    hostname: string, os: string, kernelVersion: string, cpuModel: string,
    cpuCores: int, cpuThreads: int, totalRAMBytes: uint64, totalDiskBytes: uint64,
    macAddress: string, hyperVEnabled: bool, agentPort: int)

  datatype Metrics = Metrics(
    timestamp: int, cpuUsagePct: real, ramUsedBytes: uint64, ramUsagePct: real,
    diskUsedBytes: uint64, diskUsagePct: real, netBytesSent: uint64, netBytesRecv: uint64,
    activeVMCount: int, uptimeSeconds: uint64)

  const NO_METRICS := Metrics(0, 0.0, 0, 0.0, 0, 0.0, 0, 0, 0, 0)

  /** The value of one Node; times are nanoseconds. */
  datatype NodeRecord = NodeRecord(
    id: string, name: string, ipAddress: string, agentPort: int, meshIP: string,
    status: NodeStatus, version: string, hardware: Hardware, latestMetrics: Metrics,
    lastSeen: int, registeredAt: int, pubKey: string)

  datatype RegisterRequest = RegisterRequest(
    clusterToken: string, nodeName: string, version: string, hardware: Hardware, pubKey: string)
}
