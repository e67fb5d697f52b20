/** Endpoint-slice ingestion (package kube2store): a watched EndpointSlice
    becomes the list of EndpointInfo records of its source in the proxy
    store, and the first event seen after the informer's initial sync marks
    the endpoints set as synced. */
module Kube2Store {

  import opened Util
  import opened Localnet

  // ---------------------------------------------------------------------
  // Watched objects (discovery/v1beta1)
  // ---------------------------------------------------------------------

  /** discovery.LabelServiceName */
  const LabelServiceName: string := "kubernetes.io/service-name"
  /** hostNameLabel */
  const HostNameLabel: string := "kubernetes.io/hostname"

  /** EndpointConditions: Ready is a nullable *bool. */
  datatype SliceConditions = SliceConditions(ready: Option<bool>)

  /** One endpoint of a slice; Hostname and Topology may be nil. */
  datatype SliceEndpoint = SliceEndpoint(
    addresses: seq<string>,
    conditions: SliceConditions,
    hostname: Option<string>,
    topology: Option<map<string, string>>)

  /** An EndpointSlice: its object metadata (labels may be nil) and its
      endpoints in order. */
  datatype EndpointSlice = EndpointSlice(
    namespace: string,
    name: string,
    labels: Option<map<string, string>>,
    endpoints: seq<SliceEndpoint>)

  /** Indexing a Go map: the zero value "" for a missing key. */
  function Lookup(m: map<string, string>, k: string): (r: string)
    ensures k in m ==> r == m[k]
    ensures k !in m ==> r == ""
  {
    if k in m then m[k] else ""
  }

  /** serviceNameFrom: the service-name label, or "" when the slice has no
      labels or no such label. */
  function ServiceNameFrom(eps: EndpointSlice): (r: string)
    ensures eps.labels.None? ==> r == ""
    ensures eps.labels.Some? && LabelServiceName in eps.labels.value ==> r == eps.labels.value[LabelServiceName]
    ensures eps.labels.Some? && LabelServiceName !in eps.labels.value ==> r == ""
  {
    match eps.labels
    case None => ""
    case Some(labels) => Lookup(labels, LabelServiceName)
  }

  // ---------------------------------------------------------------------
  // The records of one slice
  // ---------------------------------------------------------------------

  /** The record OnAdd builds for one slice endpoint. */
  function InfoOf(namespace: string, serviceName: string, sourceName: string, ep: SliceEndpoint): EndpointInfo
  {
    EndpointInfo(
      namespace, serviceName, sourceName,
      match ep.topology case None => "" case Some(t) => Lookup(t, HostNameLabel),
      ep.topology,
      Endpoint(match ep.hostname case None => "" case Some(h) => h, ep.addresses),
      EndpointConditions(ep.conditions.ready == Some(true)))
  }

  /** The records OnAdd stores for a slice, one per endpoint, in order. */
  function SliceInfos(eps: EndpointSlice, serviceName: string): (r: seq<EndpointInfo>)
    ensures |r| == |eps.endpoints|
  {
    seq(|eps.endpoints|, i requires 0 <= i < |eps.endpoints| =>
      InfoOf(eps.namespace, serviceName, eps.name, eps.endpoints[i]))
  }

  /** What each record says: it belongs to the slice's namespace, to the
      resolved service and to the slice as its source; its node is the
      hostname topology label (empty without topology); its hostname is
      copied only when present; it is ready exactly when the slice says
      Ready and that is true; its addresses are the endpoint's, in order. */
  lemma SliceInfosFields(eps: EndpointSlice, serviceName: string, i: int)
    requires 0 <= i < |eps.endpoints|
    ensures var info, ep := SliceInfos(eps, serviceName)[i], eps.endpoints[i];
      && info.namespace == eps.namespace
      && info.serviceName == serviceName
      && info.sourceName == eps.name
      && info.topology == ep.topology
      && (ep.topology.None? ==> info.nodeName == "")
      && (ep.topology.Some? && HostNameLabel in ep.topology.value ==> info.nodeName == ep.topology.value[HostNameLabel])
      && (ep.topology.Some? && HostNameLabel !in ep.topology.value ==> info.nodeName == "")
      && (ep.hostname.Some? ==> info.endpoint.hostname == ep.hostname.value)
      && (ep.hostname.None? ==> info.endpoint.hostname == "")
      && (info.conditions.ready <==> ep.conditions.ready.Some? && ep.conditions.ready.value)
      && info.endpoint.addresses == ep.addresses
  {
  }

  /** The loop of OnAdd: start each record from the slice's identity with
      empty endpoint and conditions, fill in node name, hostname, readiness
      and addresses, and append it. */
  method ComputeEndpointInfos(eps: EndpointSlice, serviceName: string) returns (infos: seq<EndpointInfo>)
    ensures infos == SliceInfos(eps, serviceName)
  {
    infos := [];
    for i := 0 to |eps.endpoints|
      invariant infos == SliceInfos(eps, serviceName)[..i]
    {
      var sliceEndpoint := eps.endpoints[i];
      var info := EndpointInfo(eps.namespace, serviceName, eps.name, "", sliceEndpoint.topology,
                               Endpoint("", []), EndpointConditions(false));
      if sliceEndpoint.topology.Some? {
        info := info.(nodeName := Lookup(sliceEndpoint.topology.value, HostNameLabel));
      }
      if sliceEndpoint.hostname.Some? {
        info := info.(endpoint := info.endpoint.(hostname := sliceEndpoint.hostname.value));
      }
      if sliceEndpoint.conditions.ready.Some? && sliceEndpoint.conditions.ready.value {
        info := info.(conditions := EndpointConditions(true));
      }
      ghost var target := InfoOf(eps.namespace, serviceName, eps.name, sliceEndpoint);
      for k := 0 to |sliceEndpoint.addresses|
        invariant info == target.(endpoint := target.endpoint.(addresses := sliceEndpoint.addresses[..k]))
      {
        info := info.(endpoint := info.endpoint.(addresses := info.endpoint.addresses + [sliceEndpoint.addresses[k]]));
      }
      assert sliceEndpoint.addresses[..|sliceEndpoint.addresses|] == sliceEndpoint.addresses;
      assert SliceInfos(eps, serviceName)[..i + 1] == SliceInfos(eps, serviceName)[..i] + [target];
      infos := infos + [info];
    }
  }

  // ---------------------------------------------------------------------
  // The store's endpoint records
  // ---------------------------------------------------------------------

  /** The entity kinds whose sync the store tracks. */
  datatype StoreSet = Services | Endpoints | Nodes

  /** The key of a source's records: (namespace, source name). */
  type SourceKey = (string, string)

  function SourceOf(eps: EndpointSlice): SourceKey
  {
    (eps.namespace, eps.name)
  }

  /** The endpoint records after OnAdd of a slice: an unnamed slice changes
      nothing; otherwise the slice's source holds exactly the slice's
      records, whatever it held before, and other sources are untouched. */
  function SliceAdd(endpoints: map<SourceKey, seq<EndpointInfo>>, eps: EndpointSlice)
    : (r: map<SourceKey, seq<EndpointInfo>>)
    ensures ServiceNameFrom(eps) == "" ==> r == endpoints
    ensures ServiceNameFrom(eps) != "" ==>
      && r.Keys == endpoints.Keys + {SourceOf(eps)}
      && r[SourceOf(eps)] == SliceInfos(eps, ServiceNameFrom(eps))
    ensures forall k :: k in endpoints && k != SourceOf(eps) ==> k in r && r[k] == endpoints[k]
  {
    var serviceName := ServiceNameFrom(eps);
    if serviceName == "" then endpoints
    else endpoints[SourceOf(eps) := SliceInfos(eps, serviceName)]
  }

  /** The endpoint records after OnDelete of a slice: the slice's source has
      none, labelled or not, and other sources are untouched. */
  function SliceDelete(endpoints: map<SourceKey, seq<EndpointInfo>>, eps: EndpointSlice)
    : (r: map<SourceKey, seq<EndpointInfo>>)
    ensures r.Keys == endpoints.Keys - {SourceOf(eps)}
    ensures forall k :: k in r ==> r[k] == endpoints[k]
  {
    endpoints - {SourceOf(eps)}
  }

  /** A later add or update of the same slice replaces its records
      wholesale: nothing of the earlier version remains. */
  lemma SliceAddReplaces(endpoints: map<SourceKey, seq<EndpointInfo>>, before: EndpointSlice, after: EndpointSlice)
    requires SourceOf(before) == SourceOf(after) && ServiceNameFrom(after) != ""
    ensures SliceAdd(SliceAdd(endpoints, before), after) == SliceAdd(endpoints, after)
  {
  }

  /** Deleting a slice after adding it leaves no record of its source and
      every other source as it was. */
  lemma SliceDeleteAfterAdd(endpoints: map<SourceKey, seq<EndpointInfo>>, eps: EndpointSlice)
    ensures SliceDelete(SliceAdd(endpoints, eps), eps) == endpoints - {SourceOf(eps)}
  {
  }

  /** Deleting a slice twice is deleting it once. */
  lemma SliceDeleteTwice(endpoints: map<SourceKey, seq<EndpointInfo>>, eps: EndpointSlice)
    ensures SliceDelete(SliceDelete(endpoints, eps), eps) == SliceDelete(endpoints, eps)
  {
  }

  /** The proxy store, reduced to what the slice handler uses: the endpoint
      records per source and the SetSync calls made on it, in order. */
  class Store {
    var endpoints: map<SourceKey, seq<EndpointInfo>>
    var syncCalls: seq<StoreSet>

    constructor()
      ensures endpoints == map[] && syncCalls == []
    {
      endpoints := map[];
      syncCalls := [];
    }

    /** Tx.SetEndpointsOfSource: replace the source's records. */
    method SetEndpointsOfSource(namespace: string, sourceName: string, infos: seq<EndpointInfo>)
      modifies this`endpoints
      ensures endpoints == old(endpoints)[(namespace, sourceName) := infos]
    {
      endpoints := endpoints[(namespace, sourceName) := infos];
    }

    /** Tx.DelEndpointsOfSource: drop the source's records. */
    method DelEndpointsOfSource(namespace: string, sourceName: string)
      modifies this`endpoints
      ensures endpoints == old(endpoints) - {(namespace, sourceName)}
    {
      endpoints := endpoints - {(namespace, sourceName)};
    }

    /** Tx.SetSync: mark a set as synced. */
    method SetSync(kind: StoreSet)
      modifies this`syncCalls
      ensures syncCalls == old(syncCalls) + [kind]
    {
      syncCalls := syncCalls + [kind];
    }
  }

  // ---------------------------------------------------------------------
  // The set-once sync flag
  // ---------------------------------------------------------------------

  /** Whether updateSync calls SetSync: the flag is not yet set and the
      informer has synced. */
  predicate FiresSync(syncSet: bool, hasSynced: bool)
  {
    !syncSet && hasSynced
  }

  /** The flag after updateSync. */
  function AfterSync(syncSet: bool, hasSynced: bool): bool
  {
    if syncSet then true else hasSynced
  }

  /** The flag after a run of updateSync calls on one handler, given what
      the informer reports at each call. */
  function FinalFlag(syncSet: bool, reports: seq<bool>): bool
    decreases |reports|
  {
    if reports == [] then syncSet else FinalFlag(AfterSync(syncSet, reports[0]), reports[1..])
  }

  /** The number of SetSync calls of that run. */
  function HandlerSyncCalls(syncSet: bool, reports: seq<bool>): nat
    decreases |reports|
  {
    if reports == [] then 0
    else (if FiresSync(syncSet, reports[0]) then 1 else 0) + HandlerSyncCalls(AfterSync(syncSet, reports[0]), reports[1..])
  }

  /** The flag never goes from true back to false, and it ends true
      exactly when it started true or the informer reported synced once. */
  lemma {:induction false} FinalFlagMonotone(syncSet: bool, reports: seq<bool>)
    ensures syncSet ==> FinalFlag(syncSet, reports)
    ensures FinalFlag(syncSet, reports) <==> syncSet || true in reports
    decreases |reports|
  {
    if reports != [] {
      FinalFlagMonotone(AfterSync(syncSet, reports[0]), reports[1..]);
      assert reports == [reports[0]] + reports[1..];
    }
  }

  /** Over any run on one handler object SetSync is called at most once:
      never when the flag starts set, and otherwise exactly when the
      informer reports synced at some call. */
  lemma {:induction false} SetSyncAtMostOnce(syncSet: bool, reports: seq<bool>)
    ensures HandlerSyncCalls(syncSet, reports) <= 1
    ensures syncSet ==> HandlerSyncCalls(syncSet, reports) == 0
    ensures HandlerSyncCalls(syncSet, reports) == 1 <==> !syncSet && true in reports
    decreases |reports|
  {
    if reports != [] {
      SetSyncAtMostOnce(AfterSync(syncSet, reports[0]), reports[1..]);
      assert reports == [reports[0]] + reports[1..];
    }
  }

  /** n SetSync calls for the same set, in a row. */
  function Repeat(kind: StoreSet, n: nat): (r: seq<StoreSet>)
    ensures |r| == n
    ensures forall i :: 0 <= i < n ==> r[i] == kind
  {
    if n == 0 then [] else Repeat(kind, n - 1) + [kind]
  }

  /** One call more or none. */
  lemma RepeatSnoc(kind: StoreSet, n: nat, fires: bool)
    ensures Repeat(kind, n + (if fires then 1 else 0)) == Repeat(kind, n) + (if fires then [kind] else [])
  {
  }

  /** One more call at the end of a run on one handler: it sees the flag the
      run left and calls SetSync only if that flag is unset. */
  lemma {:induction false} HandlerRunSnoc(syncSet: bool, reports: seq<bool>, hasSynced: bool)
    ensures FinalFlag(syncSet, reports + [hasSynced]) == AfterSync(FinalFlag(syncSet, reports), hasSynced)
    ensures HandlerSyncCalls(syncSet, reports + [hasSynced]) ==
            HandlerSyncCalls(syncSet, reports) + (if FiresSync(FinalFlag(syncSet, reports), hasSynced) then 1 else 0)
    decreases |reports|
  {
    if reports == [] {
      assert reports + [hasSynced] == [hasSynced];
    } else {
      HandlerRunSnoc(AfterSync(syncSet, reports[0]), reports[1..], hasSynced);
      assert (reports + [hasSynced])[1..] == reports[1..] + [hasSynced];
    }
  }

  /** The state after a run of updateSync calls on one handler that started
      with flag syncSet0 and log calls0. */
  ghost predicate HandlerRun(syncSet0: bool, calls0: seq<StoreSet>, kind: StoreSet, reports: seq<bool>,
                             syncSet: bool, calls: seq<StoreSet>)
  {
    && syncSet == FinalFlag(syncSet0, reports)
    && calls == calls0 + Repeat(kind, HandlerSyncCalls(syncSet0, reports))
  }

  /** One more updateSync call extends the run. */
  lemma HandlerRunRound(syncSet0: bool, calls0: seq<StoreSet>, kind: StoreSet, reports: seq<bool>, hasSynced: bool,
                        syncSet: bool, calls: seq<StoreSet>)
    requires HandlerRun(syncSet0, calls0, kind, reports, syncSet, calls)
    ensures HandlerRun(syncSet0, calls0, kind, reports + [hasSynced], AfterSync(syncSet, hasSynced),
                       calls + (if FiresSync(syncSet, hasSynced) then [kind] else []))
  {
    HandlerRunSnoc(syncSet0, reports, hasSynced);
    RepeatSnoc(kind, HandlerSyncCalls(syncSet0, reports), FiresSync(syncSet, hasSynced));
  }

  /** eventHandler: the informer is reduced to what HasSynced reports, passed
      to each call. */
  class EventHandler {
    var syncSet: bool

    constructor(syncSet: bool)
      ensures this.syncSet == syncSet
    {
      this.syncSet := syncSet;
    }

    /** updateSync: once the flag is set nothing happens; otherwise, if the
        informer has synced, SetSync is called and the flag set. */
    method UpdateSync(kind: StoreSet, tx: Store, hasSynced: bool)
      modifies this`syncSet, tx`syncCalls
      ensures syncSet == AfterSync(old(syncSet), hasSynced)
      ensures tx.syncCalls == old(tx.syncCalls) + (if FiresSync(old(syncSet), hasSynced) then [kind] else [])
    {
      if syncSet {
        return;
      }
      if hasSynced {
        tx.SetSync(kind);
        syncSet := true;
      }
    }

    /** A run of updateSync calls on this one handler, given what the
        informer reports at each call: the flag and the SetSync calls are
        those of FinalFlag and HandlerSyncCalls. */
    method UpdateSyncRun(kind: StoreSet, tx: Store, reports: seq<bool>)
      modifies this`syncSet, tx`syncCalls
      ensures syncSet == FinalFlag(old(syncSet), reports)
      ensures tx.syncCalls == old(tx.syncCalls) + Repeat(kind, HandlerSyncCalls(old(syncSet), reports))
    {
      for i := 0 to |reports|
        invariant HandlerRun(old(syncSet), old(tx.syncCalls), kind, reports[..i], syncSet, tx.syncCalls)
      {
        ghost var flag, calls := syncSet, tx.syncCalls;
        UpdateSync(kind, tx, reports[i]);
        HandlerRunRound(old(syncSet), old(tx.syncCalls), kind, reports[..i], reports[i], flag, calls);
        assert reports[..i + 1] == reports[..i] + [reports[i]];
      }
      assert reports[..|reports|] == reports;
    }
  }

  // ---------------------------------------------------------------------
  // The slice event handler
  // ---------------------------------------------------------------------

  /** The number of SetSync calls over a run of slice events. The handler
      has value receivers, so each event runs updateSync on a copy of the
      embedded eventHandler and the flag it sets is lost: every event in
      which the informer reports synced calls SetSync again. */
  function ByValueSyncCalls(syncSet: bool, reports: seq<bool>): nat
  {
    if reports == [] then 0
    else (if FiresSync(syncSet, reports[0]) then 1 else 0) + ByValueSyncCalls(syncSet, reports[1..])
  }

  function CountTrue(reports: seq<bool>): nat
  {
    if reports == [] then 0 else (if reports[0] then 1 else 0) + CountTrue(reports[1..])
  }

  /** With the flag unset, a slice handler calls SetSync once per event in
      which the informer reports synced. */
  lemma {:induction false} ByValueSyncCallsCount(reports: seq<bool>)
    ensures ByValueSyncCalls(false, reports) == CountTrue(reports)
  {
    if reports != [] {
      ByValueSyncCallsCount(reports[1..]);
    }
  }

  /** One more slice event at the end of a run: it sees the receiver's own
      flag, whatever the earlier events did. */
  lemma {:induction false} ByValueSnoc(syncSet: bool, reports: seq<bool>, hasSynced: bool)
    ensures ByValueSyncCalls(syncSet, reports + [hasSynced]) ==
            ByValueSyncCalls(syncSet, reports) + (if FiresSync(syncSet, hasSynced) then 1 else 0)
    decreases |reports|
  {
    if reports == [] {
      assert reports + [hasSynced] == [hasSynced];
    } else {
      ByValueSnoc(syncSet, reports[1..], hasSynced);
      assert (reports + [hasSynced])[1..] == reports[1..] + [hasSynced];
    }
  }

  /** The log after a run of slice events that all see the receiver's flag
      syncSet; only a named slice (or any delete) can call SetSync. */
  ghost predicate ByValueRun(calls0: seq<StoreSet>, named: bool, syncSet: bool, reports: seq<bool>, calls: seq<StoreSet>)
  {
    calls == calls0 + Repeat(Endpoints, if named then ByValueSyncCalls(syncSet, reports) else 0)
  }

  /** One more slice event extends the run. */
  lemma ByValueRunRound(calls0: seq<StoreSet>, named: bool, syncSet: bool, reports: seq<bool>, hasSynced: bool,
                        calls: seq<StoreSet>)
    requires ByValueRun(calls0, named, syncSet, reports, calls)
    ensures ByValueRun(calls0, named, syncSet, reports + [hasSynced],
                       calls + (if named && FiresSync(syncSet, hasSynced) then [Endpoints] else []))
  {
    ByValueSnoc(syncSet, reports, hasSynced);
    RepeatSnoc(Endpoints, if named then ByValueSyncCalls(syncSet, reports) else 0, named && FiresSync(syncSet, hasSynced));
  }

  /** Two events after the initial sync call SetSync twice, where one
      handler object calls it once. */
  lemma ByValueRepeatsSetSync()
    ensures ByValueSyncCalls(false, [true, true]) == 2
    ensures HandlerSyncCalls(false, [true, true]) == 1
  {
    assert [true, true][1..] == [true];
  }

  /** sliceEventHandler: a copy of its embedded eventHandler (here its
      flag) and the store it writes. */
  class SliceEventHandler {
    const store: Store
    var syncSet: bool

    constructor(store: Store, syncSet: bool)
      ensures this.store == store && this.syncSet == syncSet
    {
      this.store := store;
      this.syncSet := syncSet;
    }

    /** OnAdd: an unnamed slice is ignored; otherwise its source's records
        are replaced by those of the slice and updateSync runs on the
        receiver's copy of the flag. */
    method OnAdd(eps: EndpointSlice, hasSynced: bool)
      modifies store
      ensures store.endpoints == SliceAdd(old(store.endpoints), eps)
      ensures store.syncCalls == old(store.syncCalls) +
        (if ServiceNameFrom(eps) != "" && FiresSync(syncSet, hasSynced) then [Endpoints] else [])
    {
      var serviceName := ServiceNameFrom(eps);
      if serviceName == "" {
        return;
      }
      var infos := ComputeEndpointInfos(eps, serviceName);
      store.SetEndpointsOfSource(eps.namespace, eps.name, infos);
      var h := new EventHandler(syncSet);
      h.UpdateSync(Endpoints, store, hasSynced);
    }

    /** OnUpdate: the same as adding the new object; the old one is unused. */
    method OnUpdate(oldObj: EndpointSlice, newObj: EndpointSlice, hasSynced: bool)
      modifies store
      ensures store.endpoints == SliceAdd(old(store.endpoints), newObj)
      ensures store.syncCalls == old(store.syncCalls) +
        (if ServiceNameFrom(newObj) != "" && FiresSync(syncSet, hasSynced) then [Endpoints] else [])
    {
      OnAdd(newObj, hasSynced);
    }

    /** OnDelete: the source's records are dropped, whatever the labels say,
        and updateSync runs on the receiver's copy of the flag. */
    method OnDelete(eps: EndpointSlice, hasSynced: bool)
      modifies store
      ensures store.endpoints == SliceDelete(old(store.endpoints), eps)
      ensures store.syncCalls == old(store.syncCalls) + (if FiresSync(syncSet, hasSynced) then [Endpoints] else [])
    {
      store.DelEndpointsOfSource(eps.namespace, eps.name);
      var h := new EventHandler(syncSet);
      h.UpdateSync(Endpoints, store, hasSynced);
    }

    /** A run of add events for one slice, given what the informer reports
        at each: the records are those of one add, and a named slice calls
        SetSync as often as ByValueSyncCalls counts. */
    method OnAddRun(eps: EndpointSlice, reports: seq<bool>)
      modifies store
      ensures store.endpoints == if reports == [] then old(store.endpoints) else SliceAdd(old(store.endpoints), eps)
      ensures store.syncCalls == old(store.syncCalls) +
        Repeat(Endpoints, if ServiceNameFrom(eps) != "" then ByValueSyncCalls(syncSet, reports) else 0)
    {
      for i := 0 to |reports|
        invariant store.endpoints == if i == 0 then old(store.endpoints) else SliceAdd(old(store.endpoints), eps)
        invariant ByValueRun(old(store.syncCalls), ServiceNameFrom(eps) != "", syncSet, reports[..i], store.syncCalls)
      {
        ghost var calls := store.syncCalls;
        if i > 0 && ServiceNameFrom(eps) != "" {
          SliceAddReplaces(old(store.endpoints), eps, eps);
        }
        OnAdd(eps, reports[i]);
        ByValueRunRound(old(store.syncCalls), ServiceNameFrom(eps) != "", syncSet, reports[..i], reports[i], calls);
        assert reports[..i + 1] == reports[..i] + [reports[i]];
      }
      assert reports[..|reports|] == reports;
    }

    /** A run of delete events for one slice: the records are those of one
        delete, and SetSync is called as often as ByValueSyncCalls counts. */
    method OnDeleteRun(eps: EndpointSlice, reports: seq<bool>)
      modifies store
      ensures store.endpoints == if reports == [] then old(store.endpoints) else SliceDelete(old(store.endpoints), eps)
      ensures store.syncCalls == old(store.syncCalls) + Repeat(Endpoints, ByValueSyncCalls(syncSet, reports))
    {
      for i := 0 to |reports|
        invariant store.endpoints == if i == 0 then old(store.endpoints) else SliceDelete(old(store.endpoints), eps)
        invariant ByValueRun(old(store.syncCalls), true, syncSet, reports[..i], store.syncCalls)
      {
        ghost var calls := store.syncCalls;
        if i > 0 {
          SliceDeleteTwice(old(store.endpoints), eps);
        }
        OnDelete(eps, reports[i]);
        ByValueRunRound(old(store.syncCalls), true, syncSet, reports[..i], reports[i], calls);
        assert reports[..i + 1] == reports[..i] + [reports[i]];
      }
      assert reports[..|reports|] == reports;
    }
  }
}
