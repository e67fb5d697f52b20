# kpng: IPVS sink bookkeeping and endpoint-slice ingestion, in Dafny

This project models three pieces of sequential bookkeeping in kpng, the
Kubernetes service proxy, and proves what each promises.

- **The IPVS sink's bookkeeping** (`ipvs_sink.dfy`, module `IpvsSink`, class
  `Backend`):
  - the address families of a service;
  - the ip-set entries for cluster-IP access (`HashIPPort`) and endpoint
    loopback (`HashIPPortIP`), staged per set into `newEntries` or
    `deleteEntries` by the operation, stopping at the first entry that fails
    validation;
  - the reference counts of the dummy-interface addresses, driven by the
    difference between a service's previous and current IPs;
  - the virtual-server records stored and deleted under `key/ip/<port suffix>`.
- **Endpoint-slice ingestion** (`kube2store.dfy`, module `Kube2Store`):
  - an EndpointSlice becomes one `EndpointInfo` per endpoint, in order;
  - those records replace the records of the slice's source in the proxy
    store, and a delete removes them;
  - the set-once sync flag of `eventHandler`.
- **Shared value types** (`localnet.dfy`, module `Localnet`): the localnetv1
  types the core reads and writes.
- **Helpers** (`util.dfy`, module `Util`): an option type, `Flatten` (the
  iteration order of a nested loop) and ASCII lower-casing.

Every method that changes state is proved against a specification function
of the old state:
- `Staged` / `EndPointStaging` / `ClusterIPStaging` for the ip-sets;
- `CountUp` / `CountDown` / `RefCountsAfter` / `AddAttempts` for the counts;
- `StoreAll` / `DeleteAll` for the records;
- `SliceAdd` / `SliceDelete` for the store.

Lemmas then state what the source promises about those functions.

Some nested loops of the source are split into an outer method and a method
for the inner loop. This keeps each proof small, and the split has no
observable effect:
- `AddOrDelEndPointsOfPort`, `AddOrDelClusterIPsOfPort`;
- `StoreLBPorts`, `DeleteLBPorts`;
- `AddDummyIPs`/`AddDummyIP`, `RemoveDummyIPs`.

The inner staging methods return whether the row finished. `false` means the
Go function returns at that point.

## Behaviour worth knowing

The model follows the code in each case below, including where the code
does less than one might expect of it.

- **Validation failure.** A failed ip-set validation does not skip just that
  entry. In `AddOrDelEndPointInIPSet` and `AddOrDelClusterIPInIPSet` it
  returns from the whole call: later (port, address) pairs are never staged,
  and earlier ones stay staged (`StagedBeforeFirstInvalid`).
- **Negative counts.** A dummy-IP count can go negative. The code decrements
  with no guard, so a removal of an address with no count yields -1
  (`RefCountsAfterPointwise`).
- **When the interface address is added.** The kernel add is not tied to
  the 0→1 transition of the count. The code asks for the address only when
  the address has no key in the map. A count that fell to 0 keeps its key,
  so a later claim does not re-add the address (`SharedDummyIPScenario`).
- **Service with no family.** A service with neither V4 nor V6 cluster IPs
  stages nothing and logs nothing (`NoClusterIPStagesNothing`).
- **Store key.** Endpoint records are keyed by (namespace, source name)
  only: `SetEndpointsOfSource`/`DelEndpointsOfSource` take no service name,
  so the model keys the store that way.
- **Synced flag.** An entity kind can be marked synced more than once.
  `sliceEventHandler` embeds `eventHandler` by value and has value
  receivers (server/jobs/kube2store/slice-event-handler.go:29, 38, 97), so
  the flag set by `updateSync` is lost with the copy. After the informer's
  sync, every delete, and every add or update of a slice with a service
  name, calls `SetSync` again; an add or update of a slice without one
  returns before `updateSync` (`ByValueSyncCallsCount`,
  `ByValueRepeatsSetSync`, `SliceEventHandler.OnAddRun`). A handler object
  that keeps its flag calls it at most once (`SetSyncAtMostOnce`,
  `EventHandler.UpdateSyncRun`).

## Model

| member | source | states |
|---|---|---|
| IpvsSink.GetIPFamily | backends/ipvs-as-sink/common.go:54-64 | IPv4 exactly for IPv4 text, IPv6 exactly for IPv6 text, the empty family exactly for a string that is neither |
| IpvsSink.ServiceIPFamily | backends/ipvs-as-sink/common.go:106-120 | [IPv4] when only V4 cluster IPs exist, [IPv6] when only V6, [IPv4, IPv6] in that order when both, [] when neither; every family returned has a non-empty cluster-IP list, so the V4[0]/V6[0] reads are in bounds |
| IpvsSink.GetServiceIP | backends/ipvs-as-sink/common.go:131-140 | the first cluster IP of the endpoint address's family, "" for a non-address; with well-formed cluster IPs the result has the endpoint's family |
| IpvsSink.EndPointEntryShape | backends/ipvs-as-sink/common.go:66-74 | loopback entry: IP = IP2 = endpoint IP, port = TargetPort, set type HashIPPortIP, protocol "tcp"/"udp"/"sctp" |
| IpvsSink.IPSetEntryShape | backends/ipvs-as-sink/common.go:122-129 | cluster-IP entry: the service IP, port = Port (not TargetPort), no IP2, set type HashIPPort, the same protocol token; never equal to a loopback entry |
| IpvsSink.ValidPrefixMeaning | backends/ipvs-as-sink/common.go:40-43 | the iterations before the first rejected entry: all accepted, and the next one is rejected |
| IpvsSink.Backend.Stage | backends/ipvs-as-sink/common.go:44-49 | the loop body's inserts: newEntries of the chosen set when adding, deleteEntries when deleting |
| IpvsSink.Backend.AddOrDelEndPointsOfPort | backends/ipvs-as-sink/common.go:36-50 | the inner loop for one port: the valid prefix of that port's iterations is staged, and the result says whether the whole row passed |
| IpvsSink.Backend.AddOrDelEndPointInIPSet | backends/ipvs-as-sink/common.go:31-52 | the new ip-sets are the old ones with every port-major (port, endpoint) iteration before the first invalid entry staged |
| IpvsSink.EndPointIterationOrder | backends/ipvs-as-sink/common.go:35-39 | iteration i·n+j handles port i and endpoint j, in the loopback set of that endpoint's family |
| IpvsSink.EndPointStagingPlacement | backends/ipvs-as-sink/common.go:37-49 | an endpoint entry lands only in the loopback set of the endpoint address's own family, only in newEntries for AddEndPoint and only in deleteEntries for DeleteEndPoint; other operations stage nothing |
| IpvsSink.StagedBeforeFirstInvalid | backends/ipvs-as-sink/common.go:40-43 | an entry is staged if and only if the operation stages and it comes from an iteration before the first invalid one |
| IpvsSink.StagedContents | backends/ipvs-as-sink/common.go:44-49 | staging adds exactly the entries of the iterations naming a set to that set's newEntries or deleteEntries, and nothing else |
| IpvsSink.StagingIdempotent | backends/ipvs-as-sink/common.go:44-49 | staging the same iterations twice gives the same sets as once |
| IpvsSink.ClusterIPIterationOrder | backends/ipvs-as-sink/common.go:79-90 | iteration i·n+j (n the service's family count) handles port i and the j-th family, which is IPv4 or IPv6 and has a cluster IP; its entry is that family's first cluster IP with port i, in that family's cluster-IP set |
| IpvsSink.Backend.AddOrDelClusterIP | backends/ipvs-as-sink/common.go:81-101 | one iteration for one family: the result is true exactly when its entry passes validation, and only then is the entry staged |
| IpvsSink.Backend.AddOrDelClusterIPsOfPort | backends/ipvs-as-sink/common.go:80-102 | the inner loop for one port: the valid prefix of the visited families is staged, and the result says whether the whole row passed |
| IpvsSink.Backend.AddOrDelClusterIPInIPSet | backends/ipvs-as-sink/common.go:76-104 | the new ip-sets are the old ones with every (port, family) iteration before the first invalid entry staged |
| IpvsSink.ClusterIPStagingPlacement | backends/ipvs-as-sink/common.go:79-101 | a cluster-IP entry lands only in the cluster-IP set of a family the service has, with that family's first cluster IP and a service port; only in newEntries for AddService and deleteEntries for DeleteService |
| IpvsSink.NoClusterIPStagesNothing | backends/ipvs-as-sink/common.go:77-80 | a service with no cluster IPs leaves the ip-sets unchanged |
| IpvsSink.DummyIPSuffixesInjective | backends/ipvs-as-sink/common.go:155 | two interface addresses are equal only when they come from the same IP of the same family |
| IpvsSink.AddedRemovedAreClaimDifferences | backends/ipvs-as-sink/common.go:144-153 | a nil previous service counts as no IPs; the added (removed) interface addresses are exactly the new (vanished) claims, and never overlap |
| IpvsSink.RefCountsAfterPointwise | backends/ipvs-as-sink/common.go:155-175 | every added address gains exactly 1, every removed one loses exactly 1 with no floor at 0, every other address keeps its count, and no key is dropped |
| IpvsSink.HistoryContribution | backends/ipvs-as-sink/common.go:142-175 | over any sequence of updates of one service, its net contribution to a count is 1 while its latest version claims the address and 0 otherwise |
| IpvsSink.SharedDummyIPScenario | backends/ipvs-as-sink/common.go:155-175 | two services sharing a cluster IP: counts 1, 2, 1, 0; only the first asks the kernel for the address, and after the count falls to 0 a new claim does not ask again |
| IpvsSink.Backend.AddDummyIP | backends/ipvs-as-sink/common.go:156-170 | the kernel is asked for the address exactly when it has no key; the count goes up by 1 whatever the kernel answers |
| IpvsSink.Backend.AddDummyIPs | backends/ipvs-as-sink/common.go:155-171 | counts of all added addresses go up by 1; the addresses asked of the kernel are the added ones with no key; the interface gains those the kernel accepts |
| IpvsSink.Backend.RemoveDummyIPs | backends/ipvs-as-sink/common.go:173-175 | counts of all removed addresses go down by 1 |
| IpvsSink.Backend.AddServiceIPToKubeIPVSIntf | backends/ipvs-as-sink/common.go:142-176 | the new counts are the old ones after the update's added and removed addresses, and the kernel is asked only for added addresses with no key |
| IpvsSink.LbKeyInjective | backends/ipvs-as-sink/common.go:180-182 | with a slash-free port suffix, key/ip/suffix determines the address and the suffix |
| IpvsSink.Backend.StoreLBPorts | backends/ipvs-as-sink/common.go:181-184 | the inner loop of storeLBSvc stores each port's record for one address |
| IpvsSink.Backend.StoreLBSvc | backends/ipvs-as-sink/common.go:178-186 | the new records are the old ones with every (address, port) record stored in loop order |
| IpvsSink.StoreAllContents | backends/ipvs-as-sink/common.go:183 | storing writes exactly the pairs' keys, each holding its own pair's record, and leaves every other record alone |
| IpvsSink.StoreLBSvcContents | backends/ipvs-as-sink/common.go:178-186 | afterwards the keys are the old ones plus key/ip/suffix for every address and port of the lists, each holding that address, port, service key, scheduling method and type; other records are unchanged |
| IpvsSink.Backend.DeleteLBPorts | backends/ipvs-as-sink/common.go:191-194 | the inner loop of deleteLBSvc deletes each port's key for one address |
| IpvsSink.Backend.DeleteLBSvc | backends/ipvs-as-sink/common.go:188-196 | the new records are the old ones with the key of every (address, port) deleted |
| IpvsSink.DeleteLBSvcContents | backends/ipvs-as-sink/common.go:188-196 | deleting removes exactly the keys key/ip/suffix of the lists and keeps every other record |
| IpvsSink.StoreThenDeleteRestores | backends/ipvs-as-sink/common.go:178-196 | a store followed by a delete with the same lists leaves none of those keys and every other record as before the store |
| Kube2Store.ServiceNameFrom | server/jobs/kube2store/slice-event-handler.go:31-36 | "" when the labels are nil, the service-name label when present, "" when absent |
| Kube2Store.SliceInfosFields | server/jobs/kube2store/slice-event-handler.go:50-74 | per endpoint: the slice's namespace, the service name, the slice name as source; node name from the hostname topology label, "" without topology; hostname only when present; ready exactly when Ready is present and true; the addresses in order |
| Kube2Store.ComputeEndpointInfos | server/jobs/kube2store/slice-event-handler.go:48-77 | the loop builds exactly one record per slice endpoint, in slice order |
| Kube2Store.SliceAdd | server/jobs/kube2store/slice-event-handler.go:41-45 | an unnamed slice changes nothing; otherwise the source's records become exactly the slice's, and other sources are untouched |
| Kube2Store.SliceAddReplaces | server/jobs/kube2store/slice-event-handler.go:79-80 | a later add of the same source replaces its records wholesale: nothing of the earlier version remains |
| Kube2Store.SliceDelete | server/jobs/kube2store/slice-event-handler.go:100-101 | the source's records are gone, whatever the labels say, and other sources are untouched |
| Kube2Store.SliceDeleteAfterAdd | server/jobs/kube2store/slice-event-handler.go:97-103 | deleting a slice after adding it leaves no record of its source and every other source as it was |
| Kube2Store.Store.SetEndpointsOfSource | server/jobs/kube2store/slice-event-handler.go:80 | the source's records are replaced by the given list |
| Kube2Store.Store.DelEndpointsOfSource | server/jobs/kube2store/slice-event-handler.go:101 | the source's records are removed |
| Kube2Store.Store.SetSync | server/jobs/kube2store/event-handlers.go:37 | records one SetSync call for the given kind |
| Kube2Store.SliceEventHandler.OnAdd | server/jobs/kube2store/slice-event-handler.go:38-90 | the store's records become SliceAdd of the old ones; SetSync is called when the slice is named, the receiver's flag is unset and the informer has synced; the handler's flag is not changed |
| Kube2Store.SliceEventHandler.OnUpdate | server/jobs/kube2store/slice-event-handler.go:92-95 | the same as OnAdd of the new object; the old object is ignored |
| Kube2Store.SliceEventHandler.OnDelete | server/jobs/kube2store/slice-event-handler.go:97-104 | the store's records become SliceDelete of the old ones, with no label check; SetSync as for OnAdd |
| Kube2Store.EventHandler.UpdateSync | server/jobs/kube2store/event-handlers.go:31-40 | once the flag is set nothing happens; otherwise SetSync is called and the flag set exactly when the informer has synced |
| Kube2Store.FinalFlagMonotone | server/jobs/kube2store/event-handlers.go:31-40 | the flag never goes from true to false, and it ends true exactly when it started true or the informer reported synced at some call |
| Kube2Store.SetSyncAtMostOnce | server/jobs/kube2store/event-handlers.go:31-40 | over any sequence of calls on one handler, SetSync is called at most once: never if the flag starts set, otherwise exactly when the informer reports synced at some call |
| Kube2Store.ByValueSyncCallsCount | server/jobs/kube2store/slice-event-handler.go:29-38 | with value receivers and the flag unset, SetSync is called once per event in which the informer reports synced |
| Kube2Store.ByValueRepeatsSetSync | server/jobs/kube2store/slice-event-handler.go:79-81 | two slice events after the sync call SetSync twice, where one handler object would call it once |
| Kube2Store.EventHandler.UpdateSyncRun | server/jobs/kube2store/event-handlers.go:31-40 | a run of calls on one handler ends with the flag FinalFlag gives and appends SetSync as many times as HandlerSyncCalls counts, which is at most once |
| Kube2Store.SliceEventHandler.OnAddRun | server/jobs/kube2store/slice-event-handler.go:38-90 | repeated add events of one slice leave the records of a single add, and a named slice appends SetSync as many times as ByValueSyncCalls counts |
| Kube2Store.SliceEventHandler.OnDeleteRun | server/jobs/kube2store/slice-event-handler.go:97-104 | repeated delete events of one slice leave the records of a single delete, and append SetSync as many times as ByValueSyncCalls counts |

## Left out

- `Entry.String()`: entries are staged as `Entry` values, not as their rendered strings; the rendering is taken to be injective.
- `validateEntry`: an arbitrary predicate on (set, entry), held by the backend; its own checks are not part of this model.
- `netutils.IsIPv4String`/`IsIPv6String`: an arbitrary classifier of address text into IPv4, IPv6 or neither, so the two are mutually exclusive; textual address parsing is not modelled.
- `epPortSuffix`: an arbitrary function of the port mapping, assumed injective and free of '/' (`SuffixWellFormed`); the lb key properties depend on it.
- `asDummyIPs`: taken as IP + "/32" for IPv4 and IP + "/128" for IPv6; the order in which its lists are visited is not modelled, because the counts do not depend on it.
- `IPSet.All`/`Diff`: set union and set differences of the V4 and V6 lists; duplicates within a list are not modelled.
- `netlink.AddrAdd` and the dummy link: the kernel's answer is the parameter `linkAccepts`, and `dummyLinkAddrs` stands for the link's addresses; a failure is only logged in the source.
- `IpvsSink.Backend.AddServiceIPToKubeIPVSIntf`: `net.ParseCIDR` followed by `klog.Fatalf` is modelled as a precondition that every address the kernel is asked for is an IP.
- `IpvsSink.Backend.AddOrDelEndPointInIPSet`: an endpoint string that is not an IP selects the empty family, whose ip-set lookup dereferences nil in the source; this is a precondition, and it is stronger than the panic it stands for, since the nil set is reached only when the service has a port and no earlier entry failed validation.
- `IpvsSink.GetServiceIP`: the index-out-of-range panic of `V4[0]`/`V6[0]` (backends/ipvs-as-sink/common.go:134, 137) for a service with no cluster IP of the endpoint's family is modelled as a precondition.
- The `lbs` diff store: a map from key to record; the byte-slice keys and the hash argument of `Set` are not modelled.
- `Kube2Store.SliceEventHandler.OnAdd`, `Kube2Store.SliceEventHandler.OnUpdate`, `Kube2Store.SliceEventHandler.OnDelete`: the handlers take a typed `EndpointSlice`, so they assume the informer delivers only slice pointers; the type assertion `obj.(*discovery.EndpointSlice)` (server/jobs/kube2store/slice-event-handler.go:39, 98) panics on any other payload, such as a delete tombstone, and that path is not modelled.
- Logging (`klog`), including the endpoint listing `EachEndpointOfService` in `OnAdd`.
- The proxy store's `Update` transaction and its locking, which are concurrency; the store is a map keyed by (namespace, source) plus the log of `SetSync` calls.
- `informer.HasSynced()`: a boolean input to each call.
- `Endpoint.AddAddress`: addresses are recorded as given, in order; its own parsing and splitting by family are not part of this model.
- EndpointSlice fields the handler does not read (address type, ports, other metadata).
