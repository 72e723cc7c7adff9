# Crybaby: a verified model of the controller and the simulated engine

Crybaby runs a cluster of Windows PCs from one controller: nodes register and send heartbeats, the controller
proxies virtual-machine requests to node agents, streams telemetry to dashboards and downloads installer images.
This project models the parts that carry state, interleaving, text formats or arithmetic, and proves what they
promise over whole runs.

Each stateful component comes as a value-level model and, where the program updates objects in place, a class
whose methods are proved equal to that model:

- **Cluster registry** (`ClusterTypes`, `MeshAddress`, `RegistryModel`, `RegistryRecords`, `RegistryRecovery`,
  `RegistryLiveness`, `RegistrySummary`, `Registry`): registration with MAC de-duplication, the mesh-address allocator, heartbeats,
  the reaper, write-through persistence and restarts. `Registry.Serve` shows that any run of registry objects,
  restarts included, is a run of the model, so the theorems about `RegistryModel.Run` hold of the objects.
- **ISO downloads** (`IsoNames`, `IsoDownloads`, `IsoSafety`, `IsoRetry`, `IsoProgress`, `IsoCatalog`): filename normalisation, and
  any number of download goroutines interleaved effect by effect over a file system of names and inodes, from any
  directory, leftovers of an earlier process included. `IsoCatalog.Manager.ExecuteDownload` is the goroutine's own
  loop, with arbitrary activity of others before each of its effects; from the state it is called in, it only performs
  steps of the system that `IsoSafety` reasons about.
- **Simulated Hyper-V engine** (`EngineModel`, `EngineTheorems`, `EngineLog`, `CheckpointStore`, `Engine`): VM life cycle, clones,
  wrapping disk sizes, and checkpoint lists edited in place in shared Go slices (`GoSlice`). `Engine.Serve` connects
  runs of the object to runs of the model.
- **Session tokens** (`Base64Url`, `Token`): unpadded base64url (RFC 4648, sections 3.2 and 5), JWS compact form
  (RFC 7515, section 7.1) and the JSON claims.
- **Broadcast hub** (`HubModel`, `HubOrder`, `Hub`): a bounded queue, a changing set of clients and failing writes.
- **Routing** (`Routing`): the controller's path rewriting composed with the agent's dispatch.
- **History** (`History`): the rolling window over a sliding Go slice.

What callers see is stated twice over: `RegistryRecords`, `EngineLog`, `HubOrder` and `IsoProgress` compute it from
the log of calls alone, and prove that the state reached by any run agrees.

Random ids, clock readings, the success of writes and renames, network results, map iteration order, the runtime's
slice growth, HMAC-SHA256 and Unicode case folding are parameters or free choices, so every result holds for all of
them. Bodies under a mutex are single steps. Percentages are reals. A freshness premise appears only in the results
that name it.

Five promises fail in corner cases. For each, an input that shows it and the exact condition are proved:

- A delete right after a create does not restore a VM's checkpoints when an older, different checkpoint answers to the
  same key (`EngineTheorems.CreateThenDelete`, `EngineTheorems.OlderCheckpointLost`).
- Looking a VM up by its id may yield another VM that was given that id as its name (`EngineTheorems.LookupUnique`,
  `EngineTheorems.LookupClash`).
- Waiting for a job to show "failed" is not always enough before retrying its file name: after a write, read or rename
  error a clean-up follows the status, and may remove the retry's file (`IsoRetry.RetryDuringCleanup`). The retry keeps
  its file exactly if that removal does not come after the retry created it (`IsoRetry.RetryMeetsCleanup`). A caller can
  tell by the error shown (`IsoRetry.ErrorTells`), and callers that go by it are safe (`IsoRetry.CautionSuffices`). The
  results of `IsoSafety` assume only that downloads of one name start when no goroutine for that name is still running.
- A VM request whose path has a control character works on the agent and is refused by the controller
  (`Routing.ProxyIsTransparent`, `Routing.LineBreakStops`).
- A node that never misses a heartbeat may be shown OFFLINE after a controller restart, but only until its first
  contact (`RegistryLiveness.LivenessAcrossRestart`, `RegistryLiveness.RestartForgetsHeartbeats`).

One comment in the code is not followed: `GetNode` is described as returning a pointer copy, and the code returns a
copy of the record; the model returns the record.

## Model

| member | source | states |
|---|---|---|
| MeshAddress.ScanInvertsPrint | pkg/cluster/registry.go:248 | scanning "10.42.0.%d" recovers the printed integer, for every integer and whatever non-digit text follows |
| MeshAddress.MeshIPInjective | pkg/cluster/registry.go:74 | different octets print as different mesh addresses |
| RegistryModel.NextOctetUnique | pkg/cluster/registry.go:245-253 | the rebuilt counter is the only number above every stored octet and no higher than needed |
| RegistryModel.NextOctetAdds | pkg/cluster/registry.go:246-253 | the counter over one more node is one more round of the loop, so the order of the loop is immaterial |
| RegistryModel.BootKeeps | pkg/cluster/registry.go:26-35 | a controller started on a well-formed file, or none, satisfies the registry invariant |
| RegistryModel.StepKeeps | pkg/cluster/registry.go:43-174 | every operation keeps it (key equals id, addresses distinct and below the counter, one node per MAC, the same on disk), for any id, clock and write failure |
| RegistryModel.MeshAddressesDistinct | pkg/cluster/registry.go:73-75 | in every reachable state addresses are pairwise distinct printed octets in [2, nextMeshOctet) and non-empty MACs are pairwise distinct |
| RegistryRecords.RefusedExactly | pkg/cluster/registry.go:37-46 | a registration is refused, and changes nothing, exactly if there is no cluster token or the request has another |
| RegistryRecords.NewNodeRecord | pkg/cluster/registry.go:48-93 | a new MAC, or none, makes a node with the data of the request, the next address and port 8081 unless it names one |
| RegistryRecords.KnownNodeRecord | pkg/cluster/registry.go:56-71 | a known MAC brings its node up to date and keeps id, name, address, registration time and metrics |
| RegistryRecords.OtherCalls | pkg/cluster/registry.go:97-174 | for heartbeat, removal, reset, reap and save: when each fails, which nodes stay, and what of each node changes |
| RegistryRecords.Restarted | pkg/cluster/registry.go:26-35 | a new process has exactly the nodes of the file, and the lowest counter above their addresses |
| RegistryRecords.FileHolds | pkg/cluster/registry.go:219-228 | the file changes exactly at a successful write, and then holds the whole node map |
| RegistryRecords.RecordReflectsRun | pkg/cluster/registry.go:116-126 | after any run a node shows its first identity, the data of its last registration, the metrics of its last heartbeat, the time of its last contact and the last version reported |
| RegistryRecords.FirstAddress | pkg/cluster/registry.go:73-75 | the first node gets 10.42.0.2 |
| RegistryRecovery.RestartRecovers | pkg/cluster/registry.go:219-255 | after any run whose writes succeed, a restart restores ids, names, addresses, ports, MACs, hardware, keys and registration times, with a counter not above the live one |
| RegistryRecovery.TwinsObserveAlike | pkg/cluster/registry.go:56-71 | live and recovered registries answer any continuation of known MACs alike: same ids, same mesh addresses, same refusals |
| RegistryRecovery.CrashIsTransparent | pkg/cluster/registry.go:230-255 | run, crash, continue is indistinguishable from run, continue for nodes that come back |
| RegistryRecovery.RegistrationIsStable | pkg/cluster/registry.go:56-71 | until a node is removed or reset away, each registration of its MAC returns its first id, mesh IP, name and registration time, through restarts |
| RegistryLiveness.RegularNodeStaysOnline | pkg/cluster/registry.go:97-113 | a node whose contacts are at most the timeout apart is ONLINE after every prefix of the run |
| RegistryLiveness.SilentNodeGoesOffline | pkg/cluster/registry.go:164-174 | a node silent since L is OFFLINE at every time from L + timeout + reap period on |
| RegistryLiveness.ControllerTiming | cmd/controller/main.go:76-83 | with 15 s, 5 s and 5 s: two lost heartbeats are tolerated, and a dead node is reported within 20 s |
| RegistryLiveness.SilentStatus | pkg/cluster/registry.go:164-174 | a silent node is OFFLINE exactly if it was to begin with or some reap came too long after its last contact |
| RegistryLiveness.LivenessAcrossRestart | pkg/cluster/registry.go:97-113 | after a restart a regular node is ONLINE from its first contact on; before it, OFFLINE exactly if the file says so or a reap finds the stored time overdue |
| RegistryLiveness.RestartForgetsHeartbeats | pkg/cluster/registry.go:106-112 | register, heartbeat, restart, reap: however recent the heartbeat, the node is OFFLINE once its registration is older than the timeout |
| RegistryLiveness.OnlyOnlineOrOffline | pkg/cluster/registry.go:164-174 | no other status is ever reached |
| RegistrySummary.SumTakeOut | pkg/cluster/registry.go:189-203 | the sum over the nodes may take out any node first |
| RegistrySummary.CountsAreCardinalities | pkg/cluster/registry.go:190-199 | the online count is the number of ONLINE nodes, and online plus offline is the number of nodes |
| RegistrySummary.CapacitySums | pkg/cluster/registry.go:200-203 | cores, memory and disk are summed over all nodes |
| RegistrySummary.UsageSums | pkg/cluster/registry.go:189-199 | load, used memory, used disk and running VMs are summed over the ONLINE nodes only |
| RegistrySummary.AverageBetween | pkg/cluster/registry.go:205-207 | the CPU average lies between any bounds of the ONLINE nodes, or is 0 if there is none |
| Registry.Registry.constructor | pkg/cluster/registry.go:26-35 | a new registry is the model's boot state for the file's contents |
| Registry.Registry.LoadFromFile | pkg/cluster/registry.go:231-255 | loading merges the file into the map as fresh node objects and raises the counter above every address; without a file it fails and changes nothing |
| Registry.Registry.RebuildCounter | pkg/cluster/registry.go:245-253 | the loop, in any order, computes the order-free counter, or keeps a higher one |
| Registry.Registry.ScanMAC | pkg/cluster/registry.go:57-58 | the scan, in any order, finds the one owner of a MAC or none |
| Registry.Registry.RegisterNode | pkg/cluster/registry.go:43-94 | the node is null, and nothing has changed, exactly for a wrong or missing cluster token; otherwise the new state and the returned live node are the model's |
| Registry.Registry.SaveToFileLocked | pkg/cluster/registry.go:219-228 | a successful write stores exactly the current nodes, a failed one changes nothing |
| Registry.Registry.UpdateHeartbeat | pkg/cluster/registry.go:97-113 | refreshes status, last-seen time, metrics and non-empty version of that node only |
| Registry.Registry.GetNode | pkg/cluster/registry.go:116-126 | returns the record stored under the id, or nothing |
| Registry.Registry.RemoveNode | pkg/cluster/registry.go:142-151 | removes exactly that node; errors for an unknown id or a failed write |
| Registry.Registry.ResetCluster | pkg/cluster/registry.go:154-161 | empties the registry and restarts the counter at 2 |
| Registry.Registry.ReapOfflineNodes | pkg/cluster/registry.go:164-174 | turns OFFLINE exactly the ONLINE nodes last seen longer ago than the timeout |
| Registry.Registry.GetClusterSummary | pkg/cluster/registry.go:177-210 | one pass in any order yields the order-free summary, byte sums modulo 2^64 |
| Registry.Serve | pkg/cluster/registry.go:26-255 | any run of controller processes over one file is a run of the model and keeps its invariant |
| IsoNames.NormaliseStores | pkg/iso/catalog.go:104-115 | for every input the stored name has no slash, ends in .iso or .img up to case, and is a fixed point |
| IsoNames.EndingsByLetters | pkg/iso/catalog.go:76 | which endings, letter by letter, make an image and a listed file |
| IsoNames.BaseOf | pkg/iso/catalog.go:105 | the base of a path is its last part, trailing slashes apart, and "/" or "." without one |
| IsoNames.GivenName | pkg/iso/catalog.go:110-115 | a file name given counts by its last part, with ".iso" if it is not an image |
| IsoNames.NameFromURL | pkg/iso/catalog.go:104-115 | without one, the last part of the URL's path does |
| IsoNames.FallbackName | pkg/iso/catalog.go:107-109 | and if there is none, "downloaded-image.iso" |
| IsoNames.PartsStayHidden | pkg/iso/catalog.go:135-136 | a stored name is listed, its .part name is not, and equals no download's destination |
| IsoSafety.StepKeeps | pkg/iso/catalog.go:134-209 | every effect of every goroutine, in any interleaving, keeps the accounting of .part files, destinations and byte counts |
| IsoSafety.CompletedMeansComplete | pkg/iso/catalog.go:191-201 | whoever sees "completed" finds at the destination exactly the bytes read, unless a later complete download of that name replaced them |
| IsoSafety.NoPartialFileListed | pkg/iso/catalog.go:60-90 | every listed file is as it was at the start or one whole body; no listed file is lost |
| IsoSafety.NoPartLeft | pkg/iso/catalog.go:147-196 | finished goroutines leave no .part file unless removing it failed; an older leftover survives, unchanged, exactly if no download of its name created one |
| IsoSafety.StatusSettles | pkg/iso/catalog.go:173-209 | byte counts never fall; a status other than "downloading" is final, and so is its error |
| IsoRetry.RetryMeetsCleanup | pkg/iso/catalog.go:166-196 | for every interleaving after a retry of a job still cleaning up: the retry's .part file is there at its rename, and whole, if and only if the clean-up did not remove it after its creation |
| IsoRetry.CleanupPending | pkg/iso/catalog.go:166-196 | a job that shows a write, read or rename error and has yet to clean up is reachable from any start |
| IsoRetry.RetryDuringCleanup | pkg/iso/catalog.go:185-187 | so is a retry that loses its .part file and cannot be renamed |
| IsoRetry.ErrorTells | pkg/iso/catalog.go:138-196 | "failed" means that the goroutine is over if and only if the error is one of connection, response or file creation |
| IsoRetry.CautionSuffices | pkg/iso/catalog.go:212-232 | callers that start a name only when its jobs show "completed" or such an error make only runs that all safety results cover |
| IsoProgress.ProgressShown | pkg/iso/catalog.go:171-178 | in any interleaving a job shows the percentage of its bytes reported so far, 0 without an announced length, 100 when completed |
| IsoProgress.TotalIsAnnounced | pkg/iso/catalog.go:150-151 | its total is the length the server announced |
| IsoCatalog.Manager.StartDownload | pkg/iso/catalog.go:98-132 | stores a new job of the normalised name under its id, for any name, with nothing downloaded yet; a bad URL changes nothing |
| IsoCatalog.Manager.ChooseName | pkg/iso/catalog.go:104-115 | the step-by-step rewriting yields the normalised name |
| IsoCatalog.Manager.ExecuteDownload | pkg/iso/catalog.go:134-202 | under any interference only steps of the system are added to the run so far, and the goroutine ends, with which error if any, as its own network and disk results dictate |
| IsoCatalog.Manager.JobsAdvance | pkg/iso/catalog.go:134-209 | between any two states of a manager each job only advances, as `IsoSafety.StatusSettles` says |
| IsoCatalog.Manager.Open | pkg/iso/catalog.go:138-157 | the three failures before the transfer, each with its error and no removal |
| IsoCatalog.Manager.Receive | pkg/iso/catalog.go:163-201 | the read loop and its exits: job status, error and bytes read equal the specified transfer |
| IsoCatalog.Manager.TakeRound | pkg/iso/catalog.go:164-189 | one round of the loop: write, publish, and go on, finish or fail |
| IsoCatalog.Manager.Finish | pkg/iso/catalog.go:191-201 | the rename always finds the .part file; status follows its success |
| IsoCatalog.Manager.CleanUp | pkg/iso/catalog.go:185-187 | the job fails and its goroutine ends |
| IsoCatalog.List | pkg/iso/catalog.go:69-88 | the scan of the directory entries yields their listing |
| IsoCatalog.ListingMeaning | pkg/iso/catalog.go:69-88 | a listing has each file that passes the filter and has a size once, in the directory's order, and no directory |
| IsoCatalog.FormatBytes | pkg/iso/catalog.go:236-247 | terminates without int64 overflow; the divisor is the power of 1024 at most the count, the unit index is in range and its letter stands for that power, the shown value lies in [1, 1024) |
| EngineModel.GigabytesWrap | pkg/hyperv/engine.go:743 | the byte size is the low 34 bits of the gigabyte count times 2^30 |
| EngineModel.IDSpaceSize | pkg/hyperv/engine.go:556 | n residues and the seeded id are n + 1 different ids |
| EngineTheorems.StepKeeps | pkg/hyperv/engine.go:546-781 | every operation keeps the inventory invariant, even when a generated id collides |
| EngineTheorems.InventoryInvariant | pkg/hyperv/engine.go:497-781 | in every reachable engine keys are ids, names and disk paths are distinct up to case, checkpoints belong to VMs, stopped VMs are idle, sizes are whole gigabytes, and there are at most 1,000,001 VMs |
| EngineTheorems.VMsConserved | pkg/hyperv/engine.go:546-628 | VM count plus deletes plus id collisions equals initial count plus creates and clones |
| EngineTheorems.CountExactIffFresh | pkg/hyperv/engine.go:556-570 | the count is 1 + creates and clones - deletes exactly when no generated id collided |
| EngineTheorems.OnlyTargetChanges | pkg/hyperv/engine.go:546-781 | an operation leaves every other VM and its checkpoints alone |
| EngineTheorems.NewVMHasNoCheckpoints | pkg/hyperv/engine.go:570 | given a fresh id, a created or cloned VM has no checkpoints |
| EngineTheorems.ExpandExactly | pkg/hyperv/engine.go:733-749 | expansion succeeds exactly when the wrapped size exceeds the current one in gigabytes, and sets exactly that size |
| EngineTheorems.DiskGrows | pkg/hyperv/engine.go:743-747 | over any run that keeps a VM its disk grows by at least 1 GB per successful expansion and is otherwise constant |
| EngineTheorems.CreateThenDelete | pkg/hyperv/engine.go:666-709 | deleting a just-created checkpoint restores the list exactly when no earlier entry answers to the key, or all from the first such one on equal the new one |
| EngineTheorems.OlderCheckpointLost | pkg/hyperv/engine.go:699-713 | of two checkpoints of one name, deleting by that name loses the older |
| EngineTheorems.RemoveFirstMeaning | pkg/hyperv/engine.go:706-708 | removal loses only the first match and keeps the order of the rest |
| EngineTheorems.LookupUnique | pkg/hyperv/engine.go:534-544 | a lookup has one possible answer exactly when the key is not both a VM's id and another VM's name |
| EngineTheorems.LookupClash | pkg/hyperv/engine.go:534-573 | such a clash is reachable in one call |
| EngineLog.EqualFoldMeaning | pkg/hyperv/engine.go:551 | names are equal up to case character by character |
| EngineLog.CreatedVM | pkg/hyperv/engine.go:546-573 | a VM is created exactly if its name is free: stopped, idle, with the sizes asked for, its disk named after it |
| EngineLog.ClonedVM | pkg/hyperv/engine.go:751-781 | a clone is made exactly if the source exists and the name is free and not empty, with the sizes of the source |
| EngineLog.SeededEngine | pkg/hyperv/engine.go:497-522 | the seeded VM and switches |
| EngineLog.LifeCycle | pkg/hyperv/engine.go:575-617 | start, stop and restart succeed exactly for existing VMs, leave them running or stopped and idle, and keep the machine and all else |
| EngineLog.ResizedOrDeleted | pkg/hyperv/engine.go:619-628 | what resizing and deleting need, change and leave alone |
| EngineLog.EnsuredSwitch | pkg/hyperv/engine.go:638-648 | an ensured switch is there once, behind the others |
| EngineLog.CheckpointCalls | pkg/hyperv/engine.go:650-713 | what a new checkpoint is, and when restoring and deleting succeed |
| EngineLog.VMFollowsRun | pkg/hyperv/engine.go:534-544 | after any run a VM has the state and address of its last start, stop or restart, the sizes of its last resize and the largest disk asked for |
| CheckpointStore.Store.Add | pkg/hyperv/engine.go:666 | the append, in place or reallocating, adds one entry to that VM's list and changes no other |
| CheckpointStore.Store.Find | pkg/hyperv/engine.go:706-707 | finds the first entry with that name or id |
| CheckpointStore.Store.Remove | pkg/hyperv/engine.go:705-712 | shifting in the shared array refines removal of the first match; other lists keep their contents |
| CheckpointStore.Store.Drop | pkg/hyperv/engine.go:626 | deleting a VM drops its list and no other |
| CheckpointStore.Store.List | pkg/hyperv/engine.go:676-682 | returns a fresh array with the list's contents |
| CheckpointStore.ListedStaysPut | pkg/hyperv/engine.go:680-708 | every list handed out along any sequence of calls holds that time's checkpoints, and keeps them |
| Engine.SimulatedEngine.constructor | pkg/hyperv/engine.go:497-522 | a new engine holds the seeded VM and switches |
| Engine.SimulatedEngine.ScanNames | pkg/hyperv/engine.go:550-554 | the scan, in any order, tells whether the name is taken up to case |
| Engine.SimulatedEngine.GetVM | pkg/hyperv/engine.go:534-544 | returns a copy of some VM that answers to the key, or none when none does |
| Engine.SimulatedEngine.CreateVM | pkg/hyperv/engine.go:546-573 | refuses a taken name; otherwise stores one new stopped VM and returns a copy |
| Engine.SimulatedEngine.CloneVM | pkg/hyperv/engine.go:751-781 | refuses a missing source, empty or taken name; otherwise stores a stopped copy of the source's sizes |
| Engine.SimulatedEngine.StartVM | pkg/hyperv/engine.go:575-588 | the VM runs with zero uptime, an address and half its memory in demand; nothing else changes |
| Engine.SimulatedEngine.StopVM | pkg/hyperv/engine.go:590-603 | the VM is stopped and idle; nothing else changes |
| Engine.SimulatedEngine.RestartVM | pkg/hyperv/engine.go:605-617 | the VM runs with zero uptime, its addresses unchanged; nothing else changes |
| Engine.SimulatedEngine.DeleteVM | pkg/hyperv/engine.go:619-628 | the VM and its checkpoints are gone; nothing else changes |
| Engine.SimulatedEngine.ResizeVM | pkg/hyperv/engine.go:715-731 | refuses less than 1 CPU or 512 MB; otherwise sets both |
| Engine.SimulatedEngine.ExpandDisk | pkg/hyperv/engine.go:733-749 | refuses 0 and any wrapped size not above the current one; otherwise sets it |
| Engine.SimulatedEngine.EnsureVirtualSwitch | pkg/hyperv/engine.go:638-648 | adds the switch exactly when it is missing |
| Engine.SimulatedEngine.CreateCheckpoint | pkg/hyperv/engine.go:650-668 | appends one checkpoint, with a default name for an empty one |
| Engine.SimulatedEngine.ListCheckpoints | pkg/hyperv/engine.go:670-683 | a fresh copy of the list, empty for a VM without one |
| Engine.SimulatedEngine.RestoreCheckpoint | pkg/hyperv/engine.go:685-697 | succeeds exactly when the VM has a matching checkpoint, and changes nothing |
| Engine.SimulatedEngine.DeleteCheckpoint | pkg/hyperv/engine.go:699-713 | removes the first match, or fails without change |
| Engine.Serve | pkg/hyperv/engine.go:497-781 | any sequence of calls on a new engine is a run of the model |
| Base64Url.DecodeInvertsEncode | pkg/auth/auth.go:60-66 | decoding inverts encoding on every byte string |
| Base64Url.EncodeInvertsDecode | pkg/auth/auth.go:80-93 | re-encoding a decoded text gives it back, without its line breaks, exactly when its spare bits are zero |
| Base64Url.CharTable | pkg/auth/auth.go:60 | the alphabet of RFC 4648, section 5, in its order |
| Base64Url.EncodeBits | pkg/auth/auth.go:60 | character k of an encoding stands for bits 6k to 6k + 5 of the bytes |
| Base64Url.Decodable | pkg/auth/auth.go:80 | a text decodes exactly when, line breaks aside, it is of the alphabet and its length is not 1 modulo 4 |
| Base64Url.DecodedLength | pkg/auth/auth.go:80 | the number of characters other than line breaks fixes the number of bytes |
| Token.UnmarshalInvertsMarshal | pkg/auth/auth.go:55-100 | parsing inverts printing for every claims value with a plain subject |
| Token.UnmarshalExactly | pkg/auth/auth.go:97-100 | exactly the texts of that shape are parsed, to exactly these claims |
| Token.AcceptedExactly | pkg/auth/auth.go:73-108 | a token is accepted with claims c if and only if it has three parts, the third decodes to the MAC of the first two, the second decodes to c, and c has not expired |
| Token.RefusedExactly | pkg/auth/auth.go:74-91 | when a token is malformed, has an undecodable signature or a wrong one |
| Token.OtherSignatureRefused | pkg/auth/auth.go:89-91 | any other bytes in place of the signature are refused |
| Token.IssuedText | pkg/auth/auth.go:47-71 | the header, claims and signature of an issued token, spelled out |
| Token.ValidateSigned | pkg/auth/auth.go:73-108 | a signed token yields its own claims until they expire and is refused as expired afterwards |
| Token.TokenRoundTrip | pkg/auth/auth.go:47-108 | a token issued at t0 for d is accepted with the issued claims exactly while the clock's whole seconds do not exceed those of t0 + d |
| Token.AppendedText | pkg/auth/auth.go:74-91 | text appended to a valid token leaves it valid exactly when it consists of line breaks, which the decoder skips |
| HubModel.StepKeeps | cmd/controller/hub.go:37-76 | every event keeps the delivery invariant |
| HubModel.HubDelivery | cmd/controller/hub.go:37-65 | a live client received exactly the messages processed since it joined, later clients a suffix of earlier ones', closings happen once and only outside the set, and every broadcast is processed, queued or dropped |
| HubOrder.DeliveredInOrder | cmd/controller/hub.go:37-76 | by the events alone: the messages out and waiting are the accepted payloads in the order of their broadcasts, who is a client, and that each client got exactly those from its registration on |
| HubModel.DropsOnlyWhenFull | cmd/controller/hub.go:68-76 | a broadcast is dropped exactly when 100 messages wait |
| Hub.Hub.Register | cmd/controller/hub.go:40-43 | adds the connection |
| Hub.Hub.Unregister | cmd/controller/hub.go:45-51 | removes and closes a registered connection, ignores others |
| Hub.Hub.Deliver | cmd/controller/hub.go:53-62 | takes the oldest message, sends it to every client, closes and drops the failing ones |
| Hub.Hub.Handle | cmd/controller/hub.go:37-65 | one choice of the select has the effect of the model's event |
| Hub.Hub.SendAll | cmd/controller/hub.go:55-61 | the loop over the clients, in any order, has the order-free effect |
| Hub.Hub.BroadcastJSON | cmd/controller/hub.go:68-76 | queues the message behind the others unless 100 wait |
| Hub.Hub.Run | cmd/controller/hub.go:37-65 | the event loop over any sequence of choices is a run of the model |
| Routing.AgentMeaning | cmd/agent/main.go:165-305 | a plain path, control characters included, is dispatched by its segments alone |
| Routing.ProxyIsTransparent | cmd/controller/main.go:393-400 | a VM request through the controller reaches the agent as the operation, id, action and checkpoint name of the direct request, or is refused with 500: the latter exactly when its segments, query or the node's address have a control character; it goes to the node's address and agent port, with its query |
| Routing.ThroughEqualsDirect | cmd/controller/main.go:439-488 | the engine ends up as after the direct request, or untouched: the latter when the node is OFFLINE or there is a control character |
| Routing.OfflineNeverContacted | cmd/controller/main.go:439-445 | no request at all is forwarded to an unknown or OFFLINE node |
| Routing.TargetGoes | cmd/controller/main.go:447-455 | a proxied URL has the node's address, its agent port or 8081, the path and the query |
| Routing.VMRouteRefusals | cmd/agent/main.go:165-305 | which VM requests the agent refuses, and with what code |
| Routing.RequestRoundTrip | cmd/agent/main.go:137-305 | decoding the request made for an operation gives back that operation |
| Routing.OperationThroughController | cmd/controller/main.go:263-400 | an operation's request sent through the controller changes the engine as the operation does, or not at all if it has a control character |
| Routing.OperationDirect | cmd/agent/main.go:137-305 | an operation's request sent to the agent invokes it |
| Routing.ControlCharacterStops | cmd/controller/main.go:457-463 | a checkpoint whose name has a control character is deleted by the direct request and not through the controller |
| Routing.LineBreakStops | cmd/controller/main.go:457-463 | such a checkpoint is one call away from a new engine |
| Routing.NodeRequests | cmd/controller/main.go:268-288 | GET shows a node, DELETE removes it, other verbs are refused |
| Routing.ActionsByName | cmd/controller/main.go:290-435 | the names of the subroutes, all others being unknown |
| Routing.NodeActions | cmd/controller/main.go:290-436 | for each subroute, node, verb and rest of the path: exactly when a heartbeat is recorded, an update pushed, a magic packet sent or a request forwarded, and the answers 405, 502, 404 and 400 otherwise |
| Routing.HostRoutesArrive | cmd/agent/main.go:308-363 | switch listing, reboot and shutdown arrive as such |
| GoSlice.Append | pkg/cluster/history.go:40-42 | append in place while capacity lasts, in a fresh array otherwise |
| GoSlice.DeleteAt | pkg/hyperv/engine.go:708 | append of two pieces of one slice removes one element inside the same array |
| History.HistoryBuffer.constructor | pkg/cluster/history.go:18-26 | a capacity of zero or less becomes 30 |
| History.HistoryBuffer.Add | pkg/cluster/history.go:29-44 | after any additions the slice holds the last min(n, capacity) points |
| History.HistoryBuffer.GetPoints | pkg/cluster/history.go:47-54 | a fresh copy of that window |
| History.LastOfMeaning | pkg/cluster/history.go:36-43 | the window is the suffix of min(n, capacity) points |
| History.Window | pkg/cluster/history.go:29-54 | every list handed out along a run is the window at that time, and stays so |

## Left out

- Apply: the mesh counter and CPU, VM and node counts are unbounded integers; Go's `int` would wrap after 2^63 registrations. Two clock readings in one call are one value.
- ScanInt: does not skip blanks before the number, as the program itself never writes such addresses.
- LoadFromFile: corrupt, torn or hand-edited state files are not modelled.
- StartDownload: while another download of its name is live, only its own effect is stated; what two such goroutines do to the file they share is proved for retries of failed jobs alone, in `IsoRetry`.
- Unmarshal: reads only the claims shape that `Marshal` writes; other JSON spellings would need a signature over text the program never signs.
- Marshal: subjects that need JSON escapes are outside the round trip; the program only issues "admin".
- VMID: clocks before 1970, whose residues are negative, are not modelled.
- List: a directory that cannot be read, and modification times and rendered sizes.
- NodeActions: what follows once an action is decided (the update's missing binary or unreachable agent, a magic packet that cannot be sent).
- Base: Unix separators only; on Windows the library also strips drive names and backslashes.
- Lower: only those characters whose lower case is an ASCII letter change, which is all the suffix tests can see.
- Step: file names are case-sensitive, nothing but the downloads changes the directory, and the unlocked write of `TotalBytes` is atomic.
- FormatBytes: the value stays a real; rendering it with one decimal is not modelled.
- URLPath: percent escapes are not modelled, so segments containing `%` are excluded.
- BroadcastJSON: a payload that cannot be encoded is not sent and not counted; the initial state that the WebSocket handler writes itself is not part of a connection's log.
- ListVMs, ListNodes, ListJobs and ListVirtualSwitches: plain copies.
- The Windows engine and its PowerShell scripts, the updater, WireGuard keys and text, Wake-on-LAN packets, the terminal session and its proxy, the dashboard, installers and the USB archive: processes, sockets and text outside the state modelled here.
- Password hashing, and the strength of HMAC and of random ids.
- HTTP, WebSocket and JSON library internals: request bodies appear as what their decoders yield.
- Live pointers returned by `RegisterNode` and `StartDownload`: callers are assumed not to write through them.
