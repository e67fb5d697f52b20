/** The bookkeeping of the IPVS sink backend: address families of services,
    the ip-set entries staged for hairpin/loopback NAT, the reference counts
    of the dummy-interface IPs, and the virtual-server records kept per
    (service, address, port). */
module IpvsSink {

  import opened Util
  import opened Localnet

  // ---------------------------------------------------------------------
  // Address families
  // ---------------------------------------------------------------------

  /** What the address-text predicates of the networking utilities say of a
      string: an IPv4 address, an IPv6 address, or neither. Having one value
      makes the two predicates mutually exclusive. */
  datatype AddrClass = V4Text | V6Text | NotAnAddress

  type Classifier = string -> AddrClass

  predicate IsIPv4String(classify: Classifier, s: string) { classify(s) == V4Text }

  predicate IsIPv6String(classify: Classifier, s: string) { classify(s) == V6Text }

  predicate IsAddress(classify: Classifier, s: string)
  {
    IsIPv4String(classify, s) || IsIPv6String(classify, s)
  }

  /** An IP family; NoFamily is the empty family string. */
  datatype Family = IPv4 | IPv6 | NoFamily

  /** getIPFamily: the family of one address text. */
  function GetIPFamily(classify: Classifier, ipAddr: string): (f: Family)
    ensures f == IPv4 <==> IsIPv4String(classify, ipAddr)
    ensures f == IPv6 <==> IsIPv6String(classify, ipAddr)
    ensures f == NoFamily <==> !IsAddress(classify, ipAddr)
  {
    var unset := NoFamily;
    var afterV4 := if IsIPv4String(classify, ipAddr) then IPv4 else unset;
    if IsIPv6String(classify, ipAddr) then IPv6 else afterV4
  }

  /** getServiceIPFamily: the families whose cluster-IP list is non-empty,
      IPv4 before IPv6. */
  function ServiceIPFamily(svc: Service): (r: seq<Family>)
    ensures |svc.ips.clusterIPs.v4| > 0 && |svc.ips.clusterIPs.v6| == 0 ==> r == [IPv4]
    ensures |svc.ips.clusterIPs.v4| == 0 && |svc.ips.clusterIPs.v6| > 0 ==> r == [IPv6]
    ensures |svc.ips.clusterIPs.v4| > 0 && |svc.ips.clusterIPs.v6| > 0 ==> r == [IPv4, IPv6]
    ensures |svc.ips.clusterIPs.v4| == 0 && |svc.ips.clusterIPs.v6| == 0 ==> r == []
    ensures forall f :: f in r ==> HasClusterIP(svc, f)
  {
    var v4, v6 := svc.ips.clusterIPs.v4, svc.ips.clusterIPs.v6;
    var onlyV4 := if |v4| > 0 && |v6| == 0 then [IPv4] else [];
    var onlyV6 := if |v6| > 0 && |v4| == 0 then [IPv6] else [];
    var dual := if |v4| > 0 && |v6| > 0 then [IPv4, IPv6] else [];
    onlyV4 + onlyV6 + dual
  }

  /** The service has a cluster IP of family f (so V4[0] or V6[0] exists). */
  predicate HasClusterIP(svc: Service, f: Family)
  {
    match f
    case IPv4 => |svc.ips.clusterIPs.v4| > 0
    case IPv6 => |svc.ips.clusterIPs.v6| > 0
    case NoFamily => false
  }

  /** Every cluster IP of the service is an address text of its own family. */
  predicate ClusterIPsWellFormed(classify: Classifier, svc: Service)
  {
    && (forall ip :: ip in svc.ips.clusterIPs.v4 ==> IsIPv4String(classify, ip))
    && (forall ip :: ip in svc.ips.clusterIPs.v6 ==> IsIPv6String(classify, ip))
  }

  /** getServiceIP: the service's first cluster IP of the endpoint's family,
      or the empty string for a string that is not an address. */
  function GetServiceIP(classify: Classifier, endPointIP: string, svc: Service): (r: string)
    requires IsIPv4String(classify, endPointIP) ==> |svc.ips.clusterIPs.v4| > 0
    requires IsIPv6String(classify, endPointIP) ==> |svc.ips.clusterIPs.v6| > 0
    ensures !IsAddress(classify, endPointIP) ==> r == ""
    ensures IsIPv4String(classify, endPointIP) ==> r == svc.ips.clusterIPs.v4[0]
    ensures IsIPv6String(classify, endPointIP) ==> r == svc.ips.clusterIPs.v6[0]
    ensures ClusterIPsWellFormed(classify, svc) && IsAddress(classify, endPointIP) ==>
              GetIPFamily(classify, r) == GetIPFamily(classify, endPointIP)
  {
    var svcIP := "";
    var afterV4 := if IsIPv4String(classify, endPointIP) then svc.ips.clusterIPs.v4[0] else svcIP;
    if IsIPv6String(classify, endPointIP) then svc.ips.clusterIPs.v6[0] else afterV4
  }

  // ---------------------------------------------------------------------
  // Ip-set entries
  // ---------------------------------------------------------------------

  /** The ip-sets the backend stages entries into, by role and family. */
  datatype SetName = LoopBackV4 | LoopBackV6 | ClusterIPV4 | ClusterIPV6

  /** loopBackIPSetMap */
  function LoopBackSetName(f: Family): SetName
    requires f != NoFamily
  {
    if f == IPv4 then LoopBackV4 else LoopBackV6
  }

  /** clusterIPSetMap */
  function ClusterIPSetName(f: Family): SetName
    requires f != NoFamily
  {
    if f == IPv4 then ClusterIPV4 else ClusterIPV6
  }

  datatype SetType = HashIPPort | HashIPPortIP

  /** An ip-set entry; a missing second address is the empty string. */
  datatype Entry = Entry(ip: string, port: int, protocol: string, ip2: string, setType: SetType)

  /** The lower-case protocol token an entry carries. */
  function ProtocolToken(p: Protocol): string
  {
    ToLower(ProtocolName(p))
  }

  /** getEndPointEntry: the loopback entry for an endpoint and a port mapping. */
  function GetEndPointEntry(endPointIP: string, port: PortMapping): Entry
  {
    Entry(endPointIP, port.targetPort as int, ProtocolToken(port.protocol), endPointIP, HashIPPortIP)
  }

  /** getIPSetEntry: the cluster-IP access entry for a service IP and a port mapping. */
  function GetIPSetEntry(svcIP: string, port: PortMapping): Entry
  {
    Entry(svcIP, port.port as int, ProtocolToken(port.protocol), "", HashIPPort)
  }

  /** A loopback entry pairs the endpoint IP with itself on the target
      port, with the lower-case protocol name. */
  lemma EndPointEntryShape(endPointIP: string, port: PortMapping)
    ensures var e := GetEndPointEntry(endPointIP, port);
      && e.ip == e.ip2 == endPointIP && e.port == port.targetPort as int
      && e.setType == HashIPPortIP
      && e.protocol == match port.protocol case TCP => "tcp" case UDP => "udp" case SCTP => "sctp"
  {
    assert ToLower(ProtocolName(port.protocol)) == match port.protocol case TCP => "tcp" case UDP => "udp" case SCTP => "sctp";
  }

  /** A cluster-IP entry has the service port (not the target port) and no
      second address, with the protocol of the loopback entry for the same
      port mapping; the two kinds of entry never coincide. */
  lemma IPSetEntryShape(svcIP: string, endPointIP: string, port: PortMapping)
    ensures var c := GetIPSetEntry(svcIP, port);
      && c.ip == svcIP && c.port == port.port as int && c.ip2 == "" && c.setType == HashIPPort
      && c.protocol == GetEndPointEntry(endPointIP, port).protocol
      && c != GetEndPointEntry(endPointIP, port)
  {
  }

  /** One iteration of a staging loop: the set chosen and the entry built. */
  datatype Target = Target(setName: SetName, entry: Entry)

  predicate Accepts(validate: (SetName, Entry) -> bool, t: Target)
  {
    validate(t.setName, t.entry)
  }

  /** The loopback target of one (endpoint, port) iteration: the set is
      chosen by the endpoint address's own family. */
  function EndPointTarget(classify: Classifier, endPointIP: string, port: PortMapping): Target
    requires IsAddress(classify, endPointIP)
  {
    Target(LoopBackSetName(GetIPFamily(classify, endPointIP)), GetEndPointEntry(endPointIP, port))
  }

  /** The inner-loop iterations of AddOrDelEndPointInIPSet for one port. */
  function EndPointRow(classify: Classifier, port: PortMapping, endPointList: seq<string>): (row: seq<Target>)
    requires forall ip :: ip in endPointList ==> IsAddress(classify, ip)
    ensures |row| == |endPointList|
  {
    seq(|endPointList|, j requires 0 <= j < |endPointList| => EndPointTarget(classify, endPointList[j], port))
  }

  /** The iterations of AddOrDelEndPointInIPSet, one row per port. */
  function EndPointRows(classify: Classifier, portList: seq<PortMapping>, endPointList: seq<string>)
    : (rows: seq<seq<Target>>)
    requires forall ip :: ip in endPointList ==> IsAddress(classify, ip)
    ensures |rows| == |portList|
  {
    seq(|portList|, i requires 0 <= i < |portList| => EndPointRow(classify, portList[i], endPointList))
  }

  /** Row i of the loopback iterations is the row of port i. */
  lemma EndPointRowsAt(classify: Classifier, portList: seq<PortMapping>, endPointList: seq<string>, i: nat)
    requires forall ip :: ip in endPointList ==> IsAddress(classify, ip)
    requires i < |portList|
    ensures EndPointRows(classify, portList, endPointList)[i] == EndPointRow(classify, portList[i], endPointList)
  {
  }

  /** The cluster-IP target of one (port, family) iteration. */
  function ClusterIPTarget(svc: Service, f: Family, port: PortMapping): Target
    requires HasClusterIP(svc, f)
  {
    var clusterIP := if f == IPv4 then svc.ips.clusterIPs.v4[0] else svc.ips.clusterIPs.v6[0];
    Target(ClusterIPSetName(f), GetIPSetEntry(clusterIP, port))
  }

  /** The inner-loop iterations of AddOrDelClusterIPInIPSet for one port,
      over the service's families fams. */
  function ClusterIPRow(svc: Service, fams: seq<Family>, port: PortMapping): (row: seq<Target>)
    requires forall f :: f in fams ==> HasClusterIP(svc, f)
    ensures |row| == |fams|
  {
    seq(|fams|, j requires 0 <= j < |fams| => ClusterIPTarget(svc, fams[j], port))
  }

  /** Step j of a cluster-IP row handles the j-th family, which has a
      cluster IP. */
  lemma ClusterIPRowAt(svc: Service, fams: seq<Family>, port: PortMapping, j: nat)
    requires forall f :: f in fams ==> HasClusterIP(svc, f)
    requires j < |fams|
    ensures HasClusterIP(svc, fams[j])
    ensures ClusterIPRow(svc, fams, port)[j] == ClusterIPTarget(svc, fams[j], port)
  {
    assert fams[j] in fams;
  }

  /** The iterations of AddOrDelClusterIPInIPSet, one row per port. */
  function ClusterIPRows(svc: Service, portList: seq<PortMapping>): (rows: seq<seq<Target>>)
    ensures |rows| == |portList|
  {
    seq(|portList|, i requires 0 <= i < |portList| => ClusterIPRow(svc, ServiceIPFamily(svc), portList[i]))
  }

  /** Row i of the cluster-IP iterations is the row of port i. */
  lemma ClusterIPRowsAt(svc: Service, portList: seq<PortMapping>, i: nat)
    requires i < |portList|
    ensures ClusterIPRows(svc, portList)[i] == ClusterIPRow(svc, ServiceIPFamily(svc), portList[i])
  {
  }

  /** The number of leading targets that pass validation: the loop returns at
      the first one that fails. */
  function ValidPrefix(validate: (SetName, Entry) -> bool, targets: seq<Target>): (k: nat)
    ensures k <= |targets|
  {
    if targets == [] || !Accepts(validate, targets[0]) then 0
    else 1 + ValidPrefix(validate, targets[1..])
  }

  /** The valid prefix is the longest accepted one: every target before it
      passes validation and the one at its end does not. */
  lemma {:induction false} ValidPrefixMeaning(validate: (SetName, Entry) -> bool, targets: seq<Target>)
    ensures var k := ValidPrefix(validate, targets);
      && (forall i :: 0 <= i < k ==> Accepts(validate, targets[i]))
      && (k < |targets| ==> !Accepts(validate, targets[k]))
  {
    if targets != [] && Accepts(validate, targets[0]) {
      ValidPrefixMeaning(validate, targets[1..]);
      var k := ValidPrefix(validate, targets);
      forall i | 0 <= i < k
        ensures Accepts(validate, targets[i])
      {
        if i > 0 {
          assert targets[i] == targets[1..][i - 1];
        }
      }
      if k < |targets| {
        assert targets[k] == targets[1..][k - 1];
      }
    }
  }

  /** One step of a loop that stops at the first target failing validation:
      an accepted target extends the prefix, a rejected one ends it. */
  lemma ValidPrefixStep(validate: (SetName, Entry) -> bool, targets: seq<Target>, k: nat)
    requires k < |targets| && k <= ValidPrefix(validate, targets)
    ensures Accepts(validate, targets[k]) ==> k + 1 <= ValidPrefix(validate, targets)
    ensures !Accepts(validate, targets[k]) ==> ValidPrefix(validate, targets) == k
  {
    ValidPrefixMeaning(validate, targets);
  }

  /** The valid prefix of a concatenation: it runs into the second part
      only when the whole first part is valid. */
  lemma {:induction false} ValidPrefixAppend(validate: (SetName, Entry) -> bool, a: seq<Target>, b: seq<Target>)
    ensures ValidPrefix(validate, a) == |a| ==> ValidPrefix(validate, a + b) == |a| + ValidPrefix(validate, b)
    ensures ValidPrefix(validate, a) < |a| ==> ValidPrefix(validate, a + b) == ValidPrefix(validate, a)
  {
    if a == [] {
      assert a + b == b;
    } else {
      assert (a + b)[0] == a[0];
      assert (a + b)[1..] == a[1..] + b;
      ValidPrefixAppend(validate, a[1..], b);
    }
  }

  /** The staged changes of one ip-set. */
  datatype IPSetStage = IPSetStage(newEntries: set<Entry>, deleteEntries: set<Entry>)

  datatype Operation = AddService | DeleteService | AddEndPoint | DeleteEndPoint

  /** The entries the given targets put into set n. */
  function EntriesFor(targets: seq<Target>, n: SetName): set<Entry>
  {
    set t | t in targets && t.setName == n :: t.entry
  }

  /** Every ip-set of the backend is present. */
  predicate AllSets(sets: map<SetName, IPSetStage>)
  {
    forall n: SetName :: n in sets
  }

  /** One loop iteration: the entry goes into newEntries of its set when
      toNew holds and into deleteEntries when toDel holds. */
  function StageOne(sets: map<SetName, IPSetStage>, t: Target, toNew: bool, toDel: bool)
    : (r: map<SetName, IPSetStage>)
    requires AllSets(sets)
    ensures AllSets(r)
  {
    var st := sets[t.setName];
    var afterNew := if toNew then sets[t.setName := st.(newEntries := st.newEntries + {t.entry})] else sets;
    var st' := afterNew[t.setName];
    if toDel then afterNew[t.setName := st'.(deleteEntries := st'.deleteEntries + {t.entry})] else afterNew
  }

  /** The sets after the iterations of the given targets, in order. */
  function Staged(sets: map<SetName, IPSetStage>, targets: seq<Target>, toNew: bool, toDel: bool)
    : (r: map<SetName, IPSetStage>)
    requires AllSets(sets)
    ensures AllSets(r)
  {
    if targets == [] then sets
    else StageOne(Staged(sets, targets[..|targets| - 1], toNew, toDel), targets[|targets| - 1], toNew, toDel)
  }

  lemma StagedSnoc(sets: map<SetName, IPSetStage>, targets: seq<Target>, t: Target, toNew: bool, toDel: bool)
    requires AllSets(sets)
    ensures Staged(sets, targets + [t], toNew, toDel) == StageOne(Staged(sets, targets, toNew, toDel), t, toNew, toDel)
  {
    assert (targets + [t])[..|targets|] == targets;
  }

  /** Staging one more iteration of a loop over targets. */
  lemma StagedExtend(sets: map<SetName, IPSetStage>, targets: seq<Target>, k: nat, toNew: bool, toDel: bool)
    requires AllSets(sets)
    requires k < |targets|
    ensures Staged(sets, targets[..k + 1], toNew, toDel) ==
            StageOne(Staged(sets, targets[..k], toNew, toDel), targets[k], toNew, toDel)
  {
    assert targets[..k + 1] == targets[..k] + [targets[k]];
    StagedSnoc(sets, targets[..k], targets[k], toNew, toDel);
  }

  /** One iteration of a staging loop that stops at the first target
      failing validation: a rejected target ends the valid prefix, an
      accepted one extends it and is staged next. */
  lemma StageStep(sets: map<SetName, IPSetStage>, validate: (SetName, Entry) -> bool,
                  row: seq<Target>, j: nat, toNew: bool, toDel: bool, cur: map<SetName, IPSetStage>)
    requires AllSets(sets) && AllSets(cur)
    requires j < |row| && j <= ValidPrefix(validate, row)
    requires cur == Staged(sets, row[..j], toNew, toDel)
    ensures !Accepts(validate, row[j]) ==> ValidPrefix(validate, row) == j
    ensures Accepts(validate, row[j]) ==> j + 1 <= ValidPrefix(validate, row)
    ensures Staged(sets, row[..j + 1], toNew, toDel) == StageOne(cur, row[j], toNew, toDel)
  {
    ValidPrefixStep(validate, row, j);
    StagedExtend(sets, row, j, toNew, toDel);
  }

  /** Staging a then b is staging a + b. */
  lemma {:induction false} StagedAppend(sets: map<SetName, IPSetStage>, a: seq<Target>, b: seq<Target>,
                                        toNew: bool, toDel: bool)
    requires AllSets(sets)
    ensures Staged(Staged(sets, a, toNew, toDel), b, toNew, toDel) == Staged(sets, a + b, toNew, toDel)
    decreases |b|
  {
    if b == [] {
      assert a + b == a;
    } else {
      var init := b[..|b| - 1];
      StagedAppend(sets, a, init, toNew, toDel);
      assert (a + b)[..|a + b| - 1] == a + init;
    }
  }

  /** A loop that passed every target of before and stopped inside row
      stopped at the same place of before + row + rest. */
  lemma StopInsidePrefix(validate: (SetName, Entry) -> bool,
                         before: seq<Target>, row: seq<Target>, rest: seq<Target>)
    requires ValidPrefix(validate, before) == |before|
    requires ValidPrefix(validate, row) < |row|
    ensures var all, k := before + row + rest, ValidPrefix(validate, row);
      && ValidPrefix(validate, all) == |before| + k
      && all[..|before| + k] == before + row[..k]
  {
    var k := ValidPrefix(validate, row);
    assert ValidPrefix(validate, before + row) == |before| + k < |before + row| by {
      ValidPrefixAppend(validate, before, row);
    }
    ValidPrefixAppend(validate, before + row, rest);
    PrefixInMiddle(before, row, rest, k);
  }

  /** A loop that passed every target of before and stopped inside row has
      staged before and the accepted front of row, whatever follows. */
  lemma StopInside(sets: map<SetName, IPSetStage>, validate: (SetName, Entry) -> bool,
                   before: seq<Target>, row: seq<Target>, rest: seq<Target>, toNew: bool, toDel: bool)
    requires AllSets(sets)
    requires ValidPrefix(validate, before) == |before|
    requires ValidPrefix(validate, row) < |row|
    ensures var all := before + row + rest;
      Staged(Staged(sets, before, toNew, toDel), row[..ValidPrefix(validate, row)], toNew, toDel)
        == Staged(sets, all[..ValidPrefix(validate, all)], toNew, toDel)
  {
    var all, k := before + row + rest, ValidPrefix(validate, row);
    var front := all[..ValidPrefix(validate, all)];
    assert front == before + row[..k] by {
      StopInsidePrefix(validate, before, row, rest);
    }
    assert Staged(Staged(sets, before, toNew, toDel), row[..k], toNew, toDel)
        == Staged(sets, before + row[..k], toNew, toDel) by {
      StagedAppend(sets, before, row[..k], toNew, toDel);
    }
  }

  /** A nested staging loop whose rows before i all passed validation and
      whose row i stops at an invalid target has staged exactly the valid
      prefix of all its iterations. */
  lemma RowStop(sets: map<SetName, IPSetStage>, validate: (SetName, Entry) -> bool,
                rows: seq<seq<Target>>, i: nat, toNew: bool, toDel: bool)
    requires AllSets(sets)
    requires i < |rows|
    requires ValidPrefix(validate, Flatten(rows[..i])) == |Flatten(rows[..i])|
    requires ValidPrefix(validate, rows[i]) < |rows[i]|
    ensures Staged(Staged(sets, Flatten(rows[..i]), toNew, toDel), rows[i][..ValidPrefix(validate, rows[i])], toNew, toDel)
            == Staged(sets, Flatten(rows)[..ValidPrefix(validate, Flatten(rows))], toNew, toDel)
  {
    var before, row, all := Flatten(rows[..i]), rows[i], Flatten(rows);
    assert before + row <= all by {
      FlattenSnoc(rows, i);
      FlattenPrefix(rows, i + 1);
    }
    var rest := all[|before + row|..];
    assert all == before + row + rest;
    StopInside(sets, validate, before, row, rest, toNew, toDel);
  }

  /** A nested staging loop whose rows up to and including i all passed
      validation has staged all their iterations. */
  lemma RowDone(sets: map<SetName, IPSetStage>, validate: (SetName, Entry) -> bool,
                rows: seq<seq<Target>>, i: nat, toNew: bool, toDel: bool)
    requires AllSets(sets)
    requires i < |rows|
    requires ValidPrefix(validate, Flatten(rows[..i])) == |Flatten(rows[..i])|
    requires ValidPrefix(validate, rows[i]) == |rows[i]|
    ensures ValidPrefix(validate, Flatten(rows[..i + 1])) == |Flatten(rows[..i + 1])|
    ensures Staged(Staged(sets, Flatten(rows[..i]), toNew, toDel), rows[i][..ValidPrefix(validate, rows[i])], toNew, toDel)
            == Staged(sets, Flatten(rows[..i + 1]), toNew, toDel)
  {
    FlattenSnoc(rows, i);
    ValidPrefixAppend(validate, Flatten(rows[..i]), rows[i]);
    assert rows[i][..|rows[i]|] == rows[i];
    StagedAppend(sets, Flatten(rows[..i]), rows[i], toNew, toDel);
  }

  /** A nested staging loop that ran all its rows to the end has staged the
      valid prefix of its iterations, which is all of them. */
  lemma RowsAllStaged(sets: map<SetName, IPSetStage>, validate: (SetName, Entry) -> bool,
                      rows: seq<seq<Target>>, toNew: bool, toDel: bool)
    requires AllSets(sets)
    requires ValidPrefix(validate, Flatten(rows[..|rows|])) == |Flatten(rows[..|rows|])|
    ensures Staged(sets, Flatten(rows[..|rows|]), toNew, toDel)
            == Staged(sets, Flatten(rows)[..ValidPrefix(validate, Flatten(rows))], toNew, toDel)
  {
    assert rows[..|rows|] == rows;
    var targets := Flatten(rows);
    assert targets[..ValidPrefix(validate, targets)] == targets;
  }

  /** One outer iteration of a nested staging loop: given the sets after
      the inner loop of row i, either the row stopped early (ok false) and
      the sets are the final result, or it finished and the loop goes on. */
  lemma RowStep(sets: map<SetName, IPSetStage>, validate: (SetName, Entry) -> bool,
                rows: seq<seq<Target>>, i: nat, toNew: bool, toDel: bool,
                ok: bool, cur: map<SetName, IPSetStage>)
    requires AllSets(sets)
    requires i < |rows|
    requires ValidPrefix(validate, Flatten(rows[..i])) == |Flatten(rows[..i])|
    requires ok <==> ValidPrefix(validate, rows[i]) == |rows[i]|
    requires cur == Staged(Staged(sets, Flatten(rows[..i]), toNew, toDel),
                           rows[i][..ValidPrefix(validate, rows[i])], toNew, toDel)
    ensures !ok ==> cur == Staged(sets, Flatten(rows)[..ValidPrefix(validate, Flatten(rows))], toNew, toDel)
    ensures ok ==> ValidPrefix(validate, Flatten(rows[..i + 1])) == |Flatten(rows[..i + 1])|
    ensures ok ==> cur == Staged(sets, Flatten(rows[..i + 1]), toNew, toDel)
  {
    if ok {
      RowDone(sets, validate, rows, i, toNew, toDel);
    } else {
      RowStop(sets, validate, rows, i, toNew, toDel);
    }
  }

  lemma EntriesForSnoc(targets: seq<Target>, t: Target, n: SetName)
    ensures EntriesFor(targets + [t], n) == EntriesFor(targets, n) + (if t.setName == n then {t.entry} else {})
  {
    var l, r := EntriesFor(targets + [t], n), EntriesFor(targets, n) + (if t.setName == n then {t.entry} else {});
    forall e | e in l ensures e in r {
      var x :| x in targets + [t] && x.setName == n && x.entry == e;
      if x != t { assert x in targets; }
    }
    forall e | e in r ensures e in l {
      if e in EntriesFor(targets, n) {
        var x :| x in targets && x.setName == n && x.entry == e;
        assert x in targets + [t];
      } else {
        assert t in targets + [t];
      }
    }
  }

  /** Staging adds to set n exactly the entries of the targets that name n:
      to newEntries when toNew holds, to deleteEntries when toDel holds. */
  lemma {:induction false} StagedContents(sets: map<SetName, IPSetStage>, targets: seq<Target>,
                                          toNew: bool, toDel: bool, n: SetName)
    requires AllSets(sets)
    ensures Staged(sets, targets, toNew, toDel)[n] ==
              IPSetStage(sets[n].newEntries + (if toNew then EntriesFor(targets, n) else {}),
                         sets[n].deleteEntries + (if toDel then EntriesFor(targets, n) else {}))
  {
    if targets == [] {
      assert EntriesFor(targets, n) == {};
    } else {
      var init, t := targets[..|targets| - 1], targets[|targets| - 1];
      StagedContents(sets, init, toNew, toDel, n);
      assert init + [t] == targets;
      EntriesForSnoc(init, t, n);
    }
  }

  /** The ip-sets after AddOrDelEndPointInIPSet. */
  function EndPointStaging(sets: map<SetName, IPSetStage>, classify: Classifier,
                           validate: (SetName, Entry) -> bool,
                           portList: seq<PortMapping>, endPointList: seq<string>, op: Operation)
    : map<SetName, IPSetStage>
    requires AllSets(sets)
    requires forall ip :: ip in endPointList ==> IsAddress(classify, ip)
  {
    var targets := Flatten(EndPointRows(classify, portList, endPointList));
    Staged(sets, targets[..ValidPrefix(validate, targets)], op == AddEndPoint, op == DeleteEndPoint)
  }

  /** The ip-sets after AddOrDelClusterIPInIPSet. */
  function ClusterIPStaging(sets: map<SetName, IPSetStage>, validate: (SetName, Entry) -> bool,
                            svc: Service, portList: seq<PortMapping>, op: Operation)
    : map<SetName, IPSetStage>
    requires AllSets(sets)
  {
    var targets := Flatten(ClusterIPRows(svc, portList));
    Staged(sets, targets[..ValidPrefix(validate, targets)], op == AddService, op == DeleteService)
  }

  // ---------------------------------------------------------------------
  // Properties of ip-set staging
  // ---------------------------------------------------------------------

  /** The loopback loop runs port-major: iteration i * |endPointList| + j
      handles port i and endpoint j, in the set of that endpoint's family. */
  lemma EndPointIterationOrder(classify: Classifier, portList: seq<PortMapping>,
                               endPointList: seq<string>, i: nat, j: nat)
    requires forall ip :: ip in endPointList ==> IsAddress(classify, ip)
    requires i < |portList| && j < |endPointList|
    ensures var targets := Flatten(EndPointRows(classify, portList, endPointList));
      && |targets| == |portList| * |endPointList|
      && i * |endPointList| + j < |targets|
      && targets[i * |endPointList| + j] ==
           Target(LoopBackSetName(GetIPFamily(classify, endPointList[j])),
                  GetEndPointEntry(endPointList[j], portList[i]))
  {
    FlattenIndex(EndPointRows(classify, portList, endPointList), |endPointList|, i, j);
  }

  /** Every cluster-IP row has one iteration per family of the service. */
  lemma ClusterIPRowsWidth(svc: Service, portList: seq<PortMapping>)
    ensures forall r :: r in ClusterIPRows(svc, portList) ==> |r| == |ServiceIPFamily(svc)|
  {
    var rows := ClusterIPRows(svc, portList);
    forall r | r in rows
      ensures |r| == |ServiceIPFamily(svc)|
    {
      var k :| 0 <= k < |rows| && rows[k] == r;
      ClusterIPRowsAt(svc, portList, k);
    }
  }

  /** Iteration i·n+j of AddOrDelClusterIPInIPSet, with n the number of the
      service's families, handles port i and the j-th family, which is IPv4
      or IPv6; it uses that family's first cluster IP, which exists, and
      targets that family's cluster-IP set. */
  lemma ClusterIPIterationOrder(svc: Service, portList: seq<PortMapping>, i: nat, j: nat)
    requires i < |portList| && j < |ServiceIPFamily(svc)|
    ensures var fams, targets := ServiceIPFamily(svc), Flatten(ClusterIPRows(svc, portList));
      && |targets| == |portList| * |fams|
      && i * |fams| + j < |targets|
      && (fams[j] == IPv4 || fams[j] == IPv6)
      && (fams[j] == IPv4 ==>
            (&& |svc.ips.clusterIPs.v4| > 0
             && targets[i * |fams| + j] == Target(ClusterIPV4, GetIPSetEntry(svc.ips.clusterIPs.v4[0], portList[i]))))
      && (fams[j] == IPv6 ==>
            (&& |svc.ips.clusterIPs.v6| > 0
             && targets[i * |fams| + j] == Target(ClusterIPV6, GetIPSetEntry(svc.ips.clusterIPs.v6[0], portList[i]))))
  {
    var fams, rows := ServiceIPFamily(svc), ClusterIPRows(svc, portList);
    ClusterIPRowsWidth(svc, portList);
    FlattenIndex(rows, |fams|, i, j);
    ClusterIPRowsAt(svc, portList, i);
    ClusterIPRowAt(svc, fams, portList[i], j);
  }

  /** Every loopback iteration targets the set of its endpoint's family
      with that endpoint's loopback entry for one of the ports. */
  lemma EndPointTargetShape(classify: Classifier, portList: seq<PortMapping>, endPointList: seq<string>, t: Target)
    requires forall ip :: ip in endPointList ==> IsAddress(classify, ip)
    requires t in Flatten(EndPointRows(classify, portList, endPointList))
    ensures t.entry.ip in endPointList && t.entry.ip2 == t.entry.ip && t.entry.setType == HashIPPortIP
    ensures t.setName == LoopBackSetName(GetIPFamily(classify, t.entry.ip))
    ensures exists port :: port in portList && t.entry == GetEndPointEntry(t.entry.ip, port)
  {
    var rows := EndPointRows(classify, portList, endPointList);
    FlattenMember(rows, t);
    var i :| 0 <= i < |rows| && t in rows[i];
    var j :| 0 <= j < |endPointList| && rows[i][j] == t;
    assert portList[i] in portList;
  }

  /** Every cluster-IP iteration targets the cluster-IP set of a family the
      service has, with that family's first cluster IP and one of the ports. */
  lemma ClusterIPTargetShape(svc: Service, portList: seq<PortMapping>, t: Target)
    requires t in Flatten(ClusterIPRows(svc, portList))
    ensures t.entry.ip2 == "" && t.entry.setType == HashIPPort
    ensures || (t.setName == ClusterIPV4 && |svc.ips.clusterIPs.v4| > 0 && t.entry.ip == svc.ips.clusterIPs.v4[0])
            || (t.setName == ClusterIPV6 && |svc.ips.clusterIPs.v6| > 0 && t.entry.ip == svc.ips.clusterIPs.v6[0])
    ensures exists port :: port in portList && t.entry == GetIPSetEntry(t.entry.ip, port)
  {
    var rows := ClusterIPRows(svc, portList);
    var fams := ServiceIPFamily(svc);
    FlattenMember(rows, t);
    var i :| 0 <= i < |rows| && t in rows[i];
    ClusterIPRowsAt(svc, portList, i);
    var j :| 0 <= j < |fams| && rows[i][j] == t;
    ClusterIPRowAt(svc, fams, portList[i], j);
    assert portList[i] in portList;
  }

  /** What an entry newly staged into set n can be: one built from an
      iteration that names n. */
  lemma NewlyStaged(sets: map<SetName, IPSetStage>, targets: seq<Target>, toNew: bool, toDel: bool,
                    n: SetName, e: Entry)
    requires AllSets(sets)
    requires var r := Staged(sets, targets, toNew, toDel);
      (e in r[n].newEntries - sets[n].newEntries) || (e in r[n].deleteEntries - sets[n].deleteEntries)
    ensures Target(n, e) in targets
  {
    StagedContents(sets, targets, toNew, toDel, n);
    var t :| t in targets && t.setName == n && t.entry == e;
  }

  /** Where an endpoint entry lands: only in the loopback set of the
      endpoint address's own family, only in newEntries for AddEndPoint and
      only in deleteEntries for DeleteEndPoint; any other operation stages
      nothing. */
  lemma EndPointStagingPlacement(
    sets: map<SetName, IPSetStage>, classify: Classifier, validate: (SetName, Entry) -> bool,
    portList: seq<PortMapping>, endPointList: seq<string>, op: Operation, n: SetName, e: Entry)
    requires AllSets(sets)
    requires forall ip :: ip in endPointList ==> IsAddress(classify, ip)
    ensures var r := EndPointStaging(sets, classify, validate, portList, endPointList, op);
      && (op != AddEndPoint ==> r[n].newEntries == sets[n].newEntries)
      && (op != DeleteEndPoint ==> r[n].deleteEntries == sets[n].deleteEntries)
      && ((e in r[n].newEntries - sets[n].newEntries) || (e in r[n].deleteEntries - sets[n].deleteEntries) ==>
            && e.ip in endPointList && e.ip2 == e.ip && e.setType == HashIPPortIP
            && n == LoopBackSetName(GetIPFamily(classify, e.ip))
            && exists port :: port in portList && e == GetEndPointEntry(e.ip, port))
  {
    var targets := Flatten(EndPointRows(classify, portList, endPointList));
    var staged := targets[..ValidPrefix(validate, targets)];
    var toNew, toDel := op == AddEndPoint, op == DeleteEndPoint;
    var r := EndPointStaging(sets, classify, validate, portList, endPointList, op);
    assert r == Staged(sets, staged, toNew, toDel);
    assert (!toNew ==> r[n].newEntries == sets[n].newEntries)
        && (!toDel ==> r[n].deleteEntries == sets[n].deleteEntries) by {
      StagedContents(sets, staged, toNew, toDel, n);
    }
    if (e in r[n].newEntries - sets[n].newEntries) || (e in r[n].deleteEntries - sets[n].deleteEntries) {
      assert Target(n, e) in staged by {
        NewlyStaged(sets, staged, toNew, toDel, n, e);
      }
      assert Target(n, e) in targets;
      EndPointTargetShape(classify, portList, endPointList, Target(n, e));
    }
  }

  /** Where a cluster-IP entry lands: only in the cluster-IP set of a family
      the service has, holding that family's first cluster IP and a service
      port; only in newEntries for AddService and only in deleteEntries for
      DeleteService; any other operation stages nothing. */
  lemma ClusterIPStagingPlacement(
    sets: map<SetName, IPSetStage>, validate: (SetName, Entry) -> bool,
    svc: Service, portList: seq<PortMapping>, op: Operation, n: SetName, e: Entry)
    requires AllSets(sets)
    ensures var r := ClusterIPStaging(sets, validate, svc, portList, op);
      && (op != AddService ==> r[n].newEntries == sets[n].newEntries)
      && (op != DeleteService ==> r[n].deleteEntries == sets[n].deleteEntries)
      && ((e in r[n].newEntries - sets[n].newEntries) || (e in r[n].deleteEntries - sets[n].deleteEntries) ==>
            && e.ip2 == "" && e.setType == HashIPPort
            && (|| (n == ClusterIPV4 && |svc.ips.clusterIPs.v4| > 0 && e.ip == svc.ips.clusterIPs.v4[0])
                || (n == ClusterIPV6 && |svc.ips.clusterIPs.v6| > 0 && e.ip == svc.ips.clusterIPs.v6[0]))
            && exists port :: port in portList && e == GetIPSetEntry(e.ip, port))
  {
    var targets := Flatten(ClusterIPRows(svc, portList));
    var staged := targets[..ValidPrefix(validate, targets)];
    var toNew, toDel := op == AddService, op == DeleteService;
    var r := ClusterIPStaging(sets, validate, svc, portList, op);
    assert r == Staged(sets, staged, toNew, toDel);
    assert (!toNew ==> r[n].newEntries == sets[n].newEntries)
        && (!toDel ==> r[n].deleteEntries == sets[n].deleteEntries) by {
      StagedContents(sets, staged, toNew, toDel, n);
    }
    if (e in r[n].newEntries - sets[n].newEntries) || (e in r[n].deleteEntries - sets[n].deleteEntries) {
      assert Target(n, e) in staged by {
        NewlyStaged(sets, staged, toNew, toDel, n, e);
      }
      assert Target(n, e) in targets;
      ClusterIPTargetShape(svc, portList, Target(n, e));
    }
  }

  /** A service without cluster IPs stages nothing. */
  lemma NoClusterIPStagesNothing(sets: map<SetName, IPSetStage>, validate: (SetName, Entry) -> bool,
                                 svc: Service, portList: seq<PortMapping>, op: Operation)
    requires AllSets(sets)
    requires svc.ips.clusterIPs.v4 == [] && svc.ips.clusterIPs.v6 == []
    ensures ClusterIPStaging(sets, validate, svc, portList, op) == sets
  {
    FlattenLength(ClusterIPRows(svc, portList), 0);
  }

  /** Validation aborts the whole loop: an entry the call stages comes from
      an iteration before the first one that fails validation, and every
      such iteration's entry is staged. */
  lemma StagedBeforeFirstInvalid(
    sets: map<SetName, IPSetStage>, targets: seq<Target>, validate: (SetName, Entry) -> bool,
    toNew: bool, toDel: bool, n: SetName, e: Entry)
    requires AllSets(sets)
    requires e !in sets[n].newEntries && e !in sets[n].deleteEntries
    ensures var r := Staged(sets, targets[..ValidPrefix(validate, targets)], toNew, toDel);
      (e in r[n].newEntries || e in r[n].deleteEntries) <==>
        ((toNew || toDel) &&
         exists i :: 0 <= i < ValidPrefix(validate, targets) && targets[i] == Target(n, e))
  {
    var k := ValidPrefix(validate, targets);
    StagedContents(sets, targets[..k], toNew, toDel, n);
    if e in EntriesFor(targets[..k], n) {
      var t :| t in targets[..k] && t.setName == n && t.entry == e;
      var i :| 0 <= i < k && targets[..k][i] == t;
      assert targets[i] == Target(n, e);
    }
    if exists i :: 0 <= i < k && targets[i] == Target(n, e) {
      var i :| 0 <= i < k && targets[i] == Target(n, e);
      assert targets[..k][i] == Target(n, e);
      assert e in EntriesFor(targets[..k], n);
    }
  }

  /** Staging is idempotent: staging the same targets twice gives the sets
      that staging them once gives. */
  lemma StagingIdempotent(sets: map<SetName, IPSetStage>, targets: seq<Target>, toNew: bool, toDel: bool)
    requires AllSets(sets)
    ensures Staged(Staged(sets, targets, toNew, toDel), targets, toNew, toDel) ==
            Staged(sets, targets, toNew, toDel)
  {
    var once := Staged(sets, targets, toNew, toDel);
    var twice := Staged(once, targets, toNew, toDel);
    assert twice.Keys == once.Keys by {
      forall n: SetName ensures n in twice && n in once {}
    }
    forall n | n in once ensures twice[n] == once[n] {
      StagedContents(sets, targets, toNew, toDel, n);
      StagedContents(once, targets, toNew, toDel, n);
    }
  }

  // ---------------------------------------------------------------------
  // Dummy-interface IPs
  // ---------------------------------------------------------------------

  /** asDummyIPs: the interface address of each IP, /32 for IPv4 and /128
      for IPv6. */
  function DummyIPs(v4: set<string>, v6: set<string>): set<string>
  {
    (set ip | ip in v4 :: ip + "/32") + (set ip | ip in v6 :: ip + "/128")
  }

  /** Two dummy addresses are equal only when they come from the same IP of
      the same family. */
  lemma DummyIPSuffixesInjective(a: string, b: string)
    ensures a + "/32" == b + "/32" ==> a == b
    ensures a + "/128" == b + "/128" ==> a == b
    ensures a + "/32" != b + "/128"
  {
    if a + "/32" == b + "/32" {
      assert a == (a + "/32")[..|a|];
    }
    if a + "/128" == b + "/128" {
      assert a == (a + "/128")[..|a|];
    }
    var x, y := a + "/32", b + "/128";
    assert x[|x| - 1] == '2' && y[|y| - 1] == '8';
  }

  /** Taking dummy addresses commutes with set difference, so the dummy
      addresses of the added (removed) IPs are exactly the new (vanished)
      dummy addresses. */
  lemma DummyIPsOfDifference(a4: set<string>, a6: set<string>, b4: set<string>, b6: set<string>)
    ensures DummyIPs(a4 - b4, a6 - b6) == DummyIPs(a4, a6) - DummyIPs(b4, b6)
  {
    forall c | c in DummyIPs(a4 - b4, a6 - b6) ensures c !in DummyIPs(b4, b6) {
      if c in DummyIPs(b4, b6) {
        var x :| (x in a4 - b4 && c == x + "/32") || (x in a6 - b6 && c == x + "/128");
        var y :| (y in b4 && c == y + "/32") || (y in b6 && c == y + "/128");
        DummyIPSuffixesInjective(x, y);
        DummyIPSuffixesInjective(y, x);
      }
    }
  }

  /** The previous IP set: empty when there was no previous service. */
  function PrevIPs(prevSvc: Option<Service>): IPSet
  {
    if prevSvc.None? then NewIPSet() else prevSvc.value.ips.All()
  }

  /** Dummy addresses of the IPs the update adds (Diff's first result). */
  function AddedDummyIPs(prevSvc: Option<Service>, curr: Service): set<string>
  {
    var prev, cur := PrevIPs(prevSvc), curr.ips.All();
    DummyIPs(cur.V4Set() - prev.V4Set(), cur.V6Set() - prev.V6Set())
  }

  /** Dummy addresses of the IPs the update removes (Diff's second result). */
  function RemovedDummyIPs(prevSvc: Option<Service>, curr: Service): set<string>
  {
    var prev, cur := PrevIPs(prevSvc), curr.ips.All();
    DummyIPs(prev.V4Set() - cur.V4Set(), prev.V6Set() - cur.V6Set())
  }

  /** The dummy addresses a service claims; none for no service. */
  function ClaimedDummyIPs(svc: Option<Service>): set<string>
  {
    var ips := PrevIPs(svc);
    DummyIPs(ips.V4Set(), ips.V6Set())
  }

  /** The added and removed dummy addresses are the new and the vanished
      claims, and never overlap. */
  lemma AddedRemovedAreClaimDifferences(prevSvc: Option<Service>, curr: Service)
    ensures AddedDummyIPs(prevSvc, curr) == ClaimedDummyIPs(Some(curr)) - ClaimedDummyIPs(prevSvc)
    ensures RemovedDummyIPs(prevSvc, curr) == ClaimedDummyIPs(prevSvc) - ClaimedDummyIPs(Some(curr))
    ensures AddedDummyIPs(prevSvc, curr) !! RemovedDummyIPs(prevSvc, curr)
  {
    var prev, cur := PrevIPs(prevSvc), curr.ips.All();
    DummyIPsOfDifference(cur.V4Set(), cur.V6Set(), prev.V4Set(), prev.V6Set());
    DummyIPsOfDifference(prev.V4Set(), prev.V6Set(), cur.V4Set(), cur.V6Set());
  }

  /** A missing key reads as count 0, as a Go map does. */
  function Count(counts: map<string, int>, ip: string): int
  {
    if ip in counts then counts[ip] else 0
  }

  /** The counts after the first loop: 1 more for every added address. */
  function CountUp(counts: map<string, int>, added: set<string>): map<string, int>
  {
    counts + map ip | ip in added :: Count(counts, ip) + 1
  }

  /** The counts after the second loop: 1 less for every removed address. */
  function CountDown(counts: map<string, int>, removed: set<string>): map<string, int>
  {
    counts + map ip | ip in removed :: Count(counts, ip) - 1
  }

  /** The reference counts after one update. */
  function RefCountsAfter(counts: map<string, int>, added: set<string>, removed: set<string>)
    : map<string, int>
  {
    CountDown(CountUp(counts, added), removed)
  }

  /** Counting one more address up is one more map update. */
  lemma CountUpStep(counts: map<string, int>, done: set<string>, ip: string)
    requires ip !in done
    ensures CountUp(counts, done + {ip}) ==
            CountUp(counts, done)[ip := Count(CountUp(counts, done), ip) + 1]
  {
    var l, r := CountUp(counts, done + {ip}), CountUp(counts, done)[ip := Count(CountUp(counts, done), ip) + 1];
    assert l.Keys == r.Keys;
    forall k | k in l ensures l[k] == r[k] {}
  }

  /** Counting one more address down is one more map update. */
  lemma CountDownStep(counts: map<string, int>, done: set<string>, ip: string)
    requires ip !in done
    ensures CountDown(counts, done + {ip}) ==
            CountDown(counts, done)[ip := Count(CountDown(counts, done), ip) - 1]
  {
    var l, r := CountDown(counts, done + {ip}), CountDown(counts, done)[ip := Count(CountDown(counts, done), ip) - 1];
    assert l.Keys == r.Keys;
    forall k | k in l ensures l[k] == r[k] {}
  }

  /** Each added address gains exactly 1 and each removed one loses exactly
      1, with no floor at 0; every other address keeps its count, and a key
      once present is never dropped. */
  lemma RefCountsAfterPointwise(counts: map<string, int>, added: set<string>, removed: set<string>, ip: string)
    requires added !! removed
    ensures var r := RefCountsAfter(counts, added, removed);
      && r.Keys == counts.Keys + added + removed
      && Count(r, ip) == Count(counts, ip) + (if ip in added then 1 else 0) - (if ip in removed then 1 else 0)
  {
  }

  /** The interface addresses an update asks the kernel to add: added
      addresses with no key in the count map. An address whose count fell to
      0 keeps its key and is not added again. */
  function AddAttempts(counts: map<string, int>, added: set<string>): set<string>
  {
    set ip | ip in added && ip !in counts
  }

  /** Counting up keeps every key and adds the counted addresses. */
  lemma CountUpKeys(counts: map<string, int>, done: set<string>)
    ensures CountUp(counts, done).Keys == counts.Keys + done
  {
  }

  /** The state of the loop of addDummyIPs once the addresses outside todo
      have been handled. */
  ghost predicate AddDummyLoop(counts0: map<string, int>, links0: set<string>, added: set<string>,
                               todo: set<string>, counts: map<string, int>, links: set<string>,
                               attempted: set<string>, linkAccepts: string -> bool)
  {
    && todo <= added
    && counts == CountUp(counts0, added - todo)
    && attempted == AddAttempts(counts0, added - todo)
    && links == links0 + LinkAdded(attempted, linkAccepts)
  }

  /** One round of the loop of addDummyIPs: ip, not handled yet, is counted
      once more, is attempted on the link exactly when nobody held it, and
      then reaches the link exactly when the link accepts it. */
  lemma AddDummyRound(counts0: map<string, int>, links0: set<string>, added: set<string>,
                      todo: set<string>, counts: map<string, int>, links: set<string>,
                      attempted: set<string>, linkAccepts: string -> bool, ip: string)
    requires AddDummyLoop(counts0, links0, added, todo, counts, links, attempted, linkAccepts)
    requires ip in todo
    ensures var asked := ip !in counts;
      AddDummyLoop(counts0, links0, added, todo - {ip}, counts[ip := Count(counts, ip) + 1],
                   links + (if asked && linkAccepts(ip) then {ip} else {}),
                   if asked then attempted + {ip} else attempted, linkAccepts)
  {
    var done := added - todo;
    assert added - (todo - {ip}) == done + {ip};
    assert ip !in counts <==> ip !in counts0 by {
      CountUpKeys(counts0, done);
    }
    CountUpStep(counts0, done, ip);
    AddAttemptsStep(counts0, done, ip);
    if ip !in counts {
      LinkAddedStep(attempted, linkAccepts, ip);
    }
  }

  /** One more added address is asked for exactly when it has no key yet. */
  lemma AddAttemptsStep(counts: map<string, int>, done: set<string>, ip: string)
    ensures AddAttempts(counts, done + {ip}) == AddAttempts(counts, done) + (if ip in counts then {} else {ip})
  {
  }

  /** The interface addresses the kernel accepted among those asked for. */
  function LinkAdded(attempted: set<string>, linkAccepts: string -> bool): set<string>
  {
    set ip | ip in attempted && linkAccepts(ip)
  }

  lemma LinkAddedStep(attempted: set<string>, linkAccepts: string -> bool, ip: string)
    ensures LinkAdded(attempted + {ip}, linkAccepts) ==
            LinkAdded(attempted, linkAccepts) + (if linkAccepts(ip) then {ip} else {})
  {
  }

  /** The counts after a sequence of updates of one service, starting from
      its previous version. */
  function CountsAfterHistory(counts: map<string, int>, prevSvc: Option<Service>, versions: seq<Service>)
    : map<string, int>
    decreases |versions|
  {
    if versions == [] then counts
    else
      var next := RefCountsAfter(counts, AddedDummyIPs(prevSvc, versions[0]), RemovedDummyIPs(prevSvc, versions[0]));
      CountsAfterHistory(next, Some(versions[0]), versions[1..])
  }

  function LastVersion(prevSvc: Option<Service>, versions: seq<Service>): Option<Service>
  {
    if versions == [] then prevSvc else Some(versions[|versions| - 1])
  }

  /** Over any history of one service, its contribution to the count of an
      address is 1 while its latest version claims the address and 0 once it
      no longer does: increments and decrements balance. */
  lemma {:induction false} HistoryContribution(counts: map<string, int>, prevSvc: Option<Service>,
                                               versions: seq<Service>, ip: string)
    ensures Count(CountsAfterHistory(counts, prevSvc, versions), ip) ==
            Count(counts, ip)
            - (if ip in ClaimedDummyIPs(prevSvc) then 1 else 0)
            + (if ip in ClaimedDummyIPs(LastVersion(prevSvc, versions)) then 1 else 0)
    decreases |versions|
  {
    if versions != [] {
      var v, rest := versions[0], versions[1..];
      var next := RefCountsAfter(counts, AddedDummyIPs(prevSvc, v), RemovedDummyIPs(prevSvc, v));
      var before, now := ip in ClaimedDummyIPs(prevSvc), ip in ClaimedDummyIPs(Some(v));
      assert Count(next, ip) == Count(counts, ip) - (if before then 1 else 0) + (if now then 1 else 0) by {
        StepContribution(counts, prevSvc, v, ip);
      }
      assert Count(CountsAfterHistory(next, Some(v), rest), ip) ==
             Count(next, ip) - (if now then 1 else 0)
             + (if ip in ClaimedDummyIPs(LastVersion(Some(v), rest)) then 1 else 0) by {
        HistoryContribution(next, Some(v), rest, ip);
      }
      HistoryStep(counts, prevSvc, versions);
    }
  }

  /** A history that is not empty is its first version followed by the rest. */
  lemma HistoryStep(counts: map<string, int>, prevSvc: Option<Service>, versions: seq<Service>)
    requires versions != []
    ensures var v, rest := versions[0], versions[1..];
      && LastVersion(Some(v), rest) == LastVersion(prevSvc, versions)
      && CountsAfterHistory(counts, prevSvc, versions)
         == CountsAfterHistory(RefCountsAfter(counts, AddedDummyIPs(prevSvc, v), RemovedDummyIPs(prevSvc, v)), Some(v), rest)
  {
    var rest := versions[1..];
    if rest != [] {
      assert rest[|rest| - 1] == versions[|versions| - 1];
    }
  }

  /** One update moves an address's count by the change in the service's
      claim on it. */
  lemma StepContribution(counts: map<string, int>, prevSvc: Option<Service>, v: Service, ip: string)
    ensures Count(RefCountsAfter(counts, AddedDummyIPs(prevSvc, v), RemovedDummyIPs(prevSvc, v)), ip) ==
            Count(counts, ip)
            - (if ip in ClaimedDummyIPs(prevSvc) then 1 else 0)
            + (if ip in ClaimedDummyIPs(Some(v)) then 1 else 0)
  {
    var added, removed := AddedDummyIPs(prevSvc, v), RemovedDummyIPs(prevSvc, v);
    AddedRemovedAreClaimDifferences(prevSvc, v);
    RefCountsAfterPointwise(counts, added, removed, ip);
  }

  function ClusterIPService(name: string, ip: string): Service
  {
    Service("ns", name, ServiceIPs(IPSet([ip], []), IPSet([], [])), [])
  }

  function NoIPService(name: string): Service
  {
    Service("ns", name, ServiceIPs(IPSet([], []), IPSet([], [])), [])
  }

  /** Two services sharing one cluster IP: the count reaches 2, and each
      service dropping the IP lowers it by 1, down to 0. Only the first
      service asks for the interface address; the key stays at count 0, so
      a later service claiming the IP again does not ask for it. */
  lemma SharedDummyIPScenario(ip: string)
    ensures var c := ip + "/32";
      var a := ClusterIPService("a", ip);
      var b := ClusterIPService("b", ip);
      var m1 := RefCountsAfter(map[], AddedDummyIPs(None, a), RemovedDummyIPs(None, a));
      var m2 := RefCountsAfter(m1, AddedDummyIPs(None, b), RemovedDummyIPs(None, b));
      var m3 := RefCountsAfter(m2, AddedDummyIPs(Some(a), NoIPService("a")), RemovedDummyIPs(Some(a), NoIPService("a")));
      var m4 := RefCountsAfter(m3, AddedDummyIPs(Some(b), NoIPService("b")), RemovedDummyIPs(Some(b), NoIPService("b")));
      && AddAttempts(map[], AddedDummyIPs(None, a)) == {c}
      && AddAttempts(m1, AddedDummyIPs(None, b)) == {}
      && Count(m1, c) == 1 && Count(m2, c) == 2 && Count(m3, c) == 1 && Count(m4, c) == 0
      && c in m4 && AddAttempts(m4, AddedDummyIPs(None, a)) == {}
  {
    var c := ip + "/32";
    var a := ClusterIPService("a", ip);
    var b := ClusterIPService("b", ip);
    ClusterIPServiceClaims("a", ip);
    ClusterIPServiceClaims("b", ip);
    NoIPServiceClaims("a");
    NoIPServiceClaims("b");
    assert ClaimedDummyIPs(None) == {};
    AddedRemovedAreClaimDifferences(None, a);
    AddedRemovedAreClaimDifferences(None, b);
    AddedRemovedAreClaimDifferences(Some(a), NoIPService("a"));
    AddedRemovedAreClaimDifferences(Some(b), NoIPService("b"));
    assert AddedDummyIPs(None, a) == {c} && RemovedDummyIPs(None, a) == {};
    assert AddedDummyIPs(None, b) == {c} && RemovedDummyIPs(None, b) == {};
    assert AddedDummyIPs(Some(a), NoIPService("a")) == {} && RemovedDummyIPs(Some(a), NoIPService("a")) == {c};
    assert AddedDummyIPs(Some(b), NoIPService("b")) == {} && RemovedDummyIPs(Some(b), NoIPService("b")) == {c};
    CountScenario(c);
  }

  /** The count map of the shared-address scenario, step by step. */
  lemma CountScenario(c: string)
    ensures var m1 := RefCountsAfter(map[], {c}, {});
      var m2 := RefCountsAfter(m1, {c}, {});
      var m3 := RefCountsAfter(m2, {}, {c});
      var m4 := RefCountsAfter(m3, {}, {c});
      && AddAttempts(map[], {c}) == {c} && AddAttempts(m1, {c}) == {}
      && Count(m1, c) == 1 && Count(m2, c) == 2 && Count(m3, c) == 1 && Count(m4, c) == 0
      && c in m4 && AddAttempts(m4, {c}) == {}
  {
    var m1 := RefCountsAfter(map[], {c}, {});
    RefCountsAfterPointwise(map[], {c}, {}, c);
    var m2 := RefCountsAfter(m1, {c}, {});
    RefCountsAfterPointwise(m1, {c}, {}, c);
    var m3 := RefCountsAfter(m2, {}, {c});
    RefCountsAfterPointwise(m2, {}, {c}, c);
    var m4 := RefCountsAfter(m3, {}, {c});
    RefCountsAfterPointwise(m3, {}, {c}, c);
  }

  lemma ClusterIPServiceClaims(name: string, ip: string)
    ensures ClaimedDummyIPs(Some(ClusterIPService(name, ip))) == {ip + "/32"}
  {
    var ips := ClusterIPService(name, ip).ips.All();
    assert ips.V4Set() == {ip} && ips.V6Set() == {};
  }

  lemma NoIPServiceClaims(name: string)
    ensures ClaimedDummyIPs(Some(NoIPService(name))) == {}
  {
    var ips := NoIPService(name).ips.All();
    assert ips.V4Set() == {} && ips.V6Set() == {};
  }

  // ---------------------------------------------------------------------
  // Virtual-server records
  // ---------------------------------------------------------------------

  /** The record stored per (service, address, port). */
  datatype IpvsLB = IpvsLB(ip: string, serviceKey: string, port: PortMapping,
                           schedulingMethod: string, serviceType: string)

  /** The composite key key/ip/suffix. */
  function LbKey(key: string, ip: string, suffix: string): string
  {
    key + "/" + ip + "/" + suffix
  }

  /** x/a == y/b with slash-free a and b splits at the same separator: the
      last '/' of the text. */
  lemma SplitAtLastSlash(x: string, a: string, y: string, b: string)
    requires '/' !in a && '/' !in b
    requires x + "/" + a == y + "/" + b
    ensures x == y && a == b
  {
    var t := x + "/" + a;
    assert t == y + "/" + b;
    assert t[|x|] == '/' && t[|y|] == '/';
    forall i | |x| < i < |t| ensures t[i] != '/' {
      assert t[i] == a[i - |x| - 1];
    }
    forall i | |y| < i < |t| ensures t[i] != '/' {
      assert t[i] == (y + "/" + b)[i];
      assert t[i] == b[i - |y| - 1];
    }
    assert |x| == |y|;
    assert x == t[..|x|] && y == t[..|y|];
    assert a == t[|x| + 1..];
    assert b == (y + "/" + b)[|y| + 1..];
  }

  /** With a fixed service key and slash-free suffixes, the composite key
      determines the address and the suffix. */
  lemma LbKeyInjective(key: string, ip1: string, s1: string, ip2: string, s2: string)
    requires '/' !in s1 && '/' !in s2
    requires LbKey(key, ip1, s1) == LbKey(key, ip2, s2)
    ensures ip1 == ip2 && s1 == s2
  {
    var k1, k2 := LbKey(key, ip1, s1), LbKey(key, ip2, s2);
    var p := |key| + 1;
    assert k1[p..] == ip1 + "/" + s1 && k2[p..] == ip2 + "/" + s2;
    SplitAtLastSlash(ip1, s1, ip2, s2);
  }

  /** epPortSuffix is injective and free of '/'. */
  ghost predicate SuffixWellFormed(portSuffix: PortMapping -> string)
  {
    && (forall p, q :: portSuffix(p) == portSuffix(q) ==> p == q)
    && (forall p :: '/' !in portSuffix(p))
  }

  /** The iterations of storeLBSvc and deleteLBSvc: one row per address,
      one (address, port) pair per port. */
  function LbRows(portList: seq<PortMapping>, addrList: seq<string>): (rows: seq<seq<(string, PortMapping)>>)
    ensures |rows| == |addrList|
  {
    seq(|addrList|, i requires 0 <= i < |addrList| => LbRow(portList, addrList[i]))
  }

  /** The inner-loop iterations for one address. */
  function LbRow(portList: seq<PortMapping>, ip: string): (row: seq<(string, PortMapping)>)
    ensures |row| == |portList|
  {
    seq(|portList|, j requires 0 <= j < |portList| => (ip, portList[j]))
  }

  /** The key of the record of one (address, port) pair. */
  function PairKey(portSuffix: PortMapping -> string, key: string, p: (string, PortMapping)): string
  {
    LbKey(key, p.0, portSuffix(p.1))
  }

  function PairKeys(portSuffix: PortMapping -> string, key: string, pairs: seq<(string, PortMapping)>): set<string>
  {
    set p | p in pairs :: PairKey(portSuffix, key, p)
  }

  /** The records after storing those of the given pairs, in order. */
  function StoreAll(lbs: map<string, IpvsLB>, portSuffix: PortMapping -> string, key: string,
                    schedulingMethod: string, svcType: string, pairs: seq<(string, PortMapping)>)
    : map<string, IpvsLB>
  {
    if pairs == [] then lbs
    else
      var p := pairs[|pairs| - 1];
      StoreAll(lbs, portSuffix, key, schedulingMethod, svcType, pairs[..|pairs| - 1])
        [PairKey(portSuffix, key, p) := IpvsLB(p.0, key, p.1, schedulingMethod, svcType)]
  }

  /** The records after deleting the keys of the given pairs, in order. */
  function DeleteAll(lbs: map<string, IpvsLB>, portSuffix: PortMapping -> string, key: string,
                     pairs: seq<(string, PortMapping)>)
    : map<string, IpvsLB>
  {
    if pairs == [] then lbs
    else DeleteAll(lbs, portSuffix, key, pairs[..|pairs| - 1]) - {PairKey(portSuffix, key, pairs[|pairs| - 1])}
  }

  /** Storing a + b is storing a, then b. */
  lemma {:induction false} StoreAllAppend(lbs: map<string, IpvsLB>, portSuffix: PortMapping -> string, key: string,
                                          schedulingMethod: string, svcType: string,
                                          a: seq<(string, PortMapping)>, b: seq<(string, PortMapping)>)
    ensures StoreAll(lbs, portSuffix, key, schedulingMethod, svcType, a + b)
            == StoreAll(StoreAll(lbs, portSuffix, key, schedulingMethod, svcType, a), portSuffix, key, schedulingMethod, svcType, b)
    decreases |b|
  {
    if b == [] {
      assert a + b == a;
    } else {
      assert (a + b)[..|a + b| - 1] == a + b[..|b| - 1];
      StoreAllAppend(lbs, portSuffix, key, schedulingMethod, svcType, a, b[..|b| - 1]);
    }
  }

  /** Deleting a + b is deleting a, then b. */
  lemma {:induction false} DeleteAllAppend(lbs: map<string, IpvsLB>, portSuffix: PortMapping -> string, key: string,
                                           a: seq<(string, PortMapping)>, b: seq<(string, PortMapping)>)
    ensures DeleteAll(lbs, portSuffix, key, a + b) == DeleteAll(DeleteAll(lbs, portSuffix, key, a), portSuffix, key, b)
    decreases |b|
  {
    if b == [] {
      assert a + b == a;
    } else {
      assert (a + b)[..|a + b| - 1] == a + b[..|b| - 1];
      DeleteAllAppend(lbs, portSuffix, key, a, b[..|b| - 1]);
    }
  }

  /** With a well-formed suffix, two pairs share a key only when they are
      the same pair. */
  lemma PairKeyInjective(portSuffix: PortMapping -> string, key: string, p: (string, PortMapping), q: (string, PortMapping))
    requires SuffixWellFormed(portSuffix)
    ensures PairKey(portSuffix, key, p) == PairKey(portSuffix, key, q) ==> p == q
  {
    if PairKey(portSuffix, key, p) == PairKey(portSuffix, key, q) {
      LbKeyInjective(key, p.0, portSuffix(p.1), q.0, portSuffix(q.1));
    }
  }

  lemma PairKeysSnoc(portSuffix: PortMapping -> string, key: string, init: seq<(string, PortMapping)>, last: (string, PortMapping))
    ensures PairKeys(portSuffix, key, init + [last]) == PairKeys(portSuffix, key, init) + {PairKey(portSuffix, key, last)}
  {
    var l, r := PairKeys(portSuffix, key, init + [last]), PairKeys(portSuffix, key, init) + {PairKey(portSuffix, key, last)};
    forall k | k in l ensures k in r {
      var p :| p in init + [last] && k == PairKey(portSuffix, key, p);
      if p != last { assert p in init; }
    }
    forall k | k in r ensures k in l {
      if k in PairKeys(portSuffix, key, init) {
        var p :| p in init && k == PairKey(portSuffix, key, p);
        assert p in init + [last];
      } else {
        assert last in init + [last];
      }
    }
  }

  /** Storing adds exactly the keys of the pairs. */
  lemma {:induction false} StoreAllKeys(lbs: map<string, IpvsLB>, portSuffix: PortMapping -> string, key: string,
                                        schedulingMethod: string, svcType: string, pairs: seq<(string, PortMapping)>)
    ensures StoreAll(lbs, portSuffix, key, schedulingMethod, svcType, pairs).Keys
            == lbs.Keys + PairKeys(portSuffix, key, pairs)
  {
    if pairs != [] {
      var init, last := pairs[..|pairs| - 1], pairs[|pairs| - 1];
      StoreAllKeys(lbs, portSuffix, key, schedulingMethod, svcType, init);
      assert pairs == init + [last];
      PairKeysSnoc(portSuffix, key, init, last);
    }
  }

  /** Each pair's key holds the record of its own address and port. */
  lemma {:induction false} StoreAllStored(lbs: map<string, IpvsLB>, portSuffix: PortMapping -> string, key: string,
                                          schedulingMethod: string, svcType: string, pairs: seq<(string, PortMapping)>)
    requires SuffixWellFormed(portSuffix)
    ensures var r := StoreAll(lbs, portSuffix, key, schedulingMethod, svcType, pairs);
      forall p :: p in pairs ==>
        PairKey(portSuffix, key, p) in r && r[PairKey(portSuffix, key, p)] == IpvsLB(p.0, key, p.1, schedulingMethod, svcType)
  {
    if pairs != [] {
      var init, last := pairs[..|pairs| - 1], pairs[|pairs| - 1];
      StoreAllStored(lbs, portSuffix, key, schedulingMethod, svcType, init);
      assert pairs == init + [last];
      forall p | p in pairs
        ensures var r := StoreAll(lbs, portSuffix, key, schedulingMethod, svcType, pairs);
          PairKey(portSuffix, key, p) in r && r[PairKey(portSuffix, key, p)] == IpvsLB(p.0, key, p.1, schedulingMethod, svcType)
      {
        PairKeyInjective(portSuffix, key, p, last);
        if p != last { assert p in init; }
      }
    }
  }

  /** Records under keys outside the pairs' keys are left alone. */
  lemma {:induction false} StoreAllKept(lbs: map<string, IpvsLB>, portSuffix: PortMapping -> string, key: string,
                                        schedulingMethod: string, svcType: string, pairs: seq<(string, PortMapping)>)
    ensures var r := StoreAll(lbs, portSuffix, key, schedulingMethod, svcType, pairs);
      forall k :: k in lbs && k !in PairKeys(portSuffix, key, pairs) ==> k in r && r[k] == lbs[k]
  {
    if pairs != [] {
      var init, last := pairs[..|pairs| - 1], pairs[|pairs| - 1];
      StoreAllKept(lbs, portSuffix, key, schedulingMethod, svcType, init);
      assert pairs == init + [last];
      PairKeysSnoc(portSuffix, key, init, last);
    }
  }

  /** Storing writes exactly the keys of the pairs, each holding the record
      of its own address and port, and leaves every other record alone. */
  lemma StoreAllContents(lbs: map<string, IpvsLB>, portSuffix: PortMapping -> string, key: string,
                         schedulingMethod: string, svcType: string, pairs: seq<(string, PortMapping)>)
    requires SuffixWellFormed(portSuffix)
    ensures var r := StoreAll(lbs, portSuffix, key, schedulingMethod, svcType, pairs);
      && r.Keys == lbs.Keys + PairKeys(portSuffix, key, pairs)
      && (forall p :: p in pairs ==>
            r[PairKey(portSuffix, key, p)] == IpvsLB(p.0, key, p.1, schedulingMethod, svcType))
      && (forall k :: k in lbs && k !in PairKeys(portSuffix, key, pairs) ==> r[k] == lbs[k])
  {
    StoreAllKeys(lbs, portSuffix, key, schedulingMethod, svcType, pairs);
    StoreAllStored(lbs, portSuffix, key, schedulingMethod, svcType, pairs);
    StoreAllKept(lbs, portSuffix, key, schedulingMethod, svcType, pairs);
  }

  /** Deleting removes exactly the keys of the pairs. */
  lemma {:induction false} DeleteAllIsDifference(lbs: map<string, IpvsLB>, portSuffix: PortMapping -> string, key: string,
                                                 pairs: seq<(string, PortMapping)>)
    ensures DeleteAll(lbs, portSuffix, key, pairs) == lbs - PairKeys(portSuffix, key, pairs)
  {
    if pairs != [] {
      var init, last := pairs[..|pairs| - 1], pairs[|pairs| - 1];
      DeleteAllIsDifference(lbs, portSuffix, key, init);
      assert pairs == init + [last];
      PairKeysSnoc(portSuffix, key, init, last);
    }
  }

  /** The iterations of the two loops are exactly the pairs of an address of
      the list and a port of the list. */
  lemma LbPairsCover(portList: seq<PortMapping>, addrList: seq<string>, p: (string, PortMapping))
    ensures p in Flatten(LbRows(portList, addrList)) <==> p.0 in addrList && p.1 in portList
  {
    var rows := LbRows(portList, addrList);
    if p in Flatten(rows) {
      assert exists i :: 0 <= i < |rows| && p in rows[i] by {
        FlattenMember(rows, p);
      }
      var i :| 0 <= i < |rows| && p in rows[i];
      assert rows[i] == LbRow(portList, addrList[i]);
      var j :| 0 <= j < |portList| && rows[i][j] == p;
    }
    if p.0 in addrList && p.1 in portList {
      var i :| 0 <= i < |addrList| && addrList[i] == p.0;
      var j :| 0 <= j < |portList| && portList[j] == p.1;
      assert rows[i][j] == p;
      assert rows[i][j] in Flatten(rows) by {
        FlattenAt(rows, i, j);
      }
    }
  }

  /** The keys storeLBSvc writes and deleteLBSvc removes: one per pair of
      an address and a port of the lists. */
  function LbKeys(portSuffix: PortMapping -> string, portList: seq<PortMapping>, addrList: seq<string>, key: string)
    : set<string>
  {
    set ip, port | ip in addrList && port in portList :: LbKey(key, ip, portSuffix(port))
  }

  lemma LbKeysOfRows(portSuffix: PortMapping -> string, portList: seq<PortMapping>, addrList: seq<string>, key: string)
    ensures PairKeys(portSuffix, key, Flatten(LbRows(portList, addrList))) == LbKeys(portSuffix, portList, addrList, key)
  {
    var pairs := Flatten(LbRows(portList, addrList));
    forall k | k in PairKeys(portSuffix, key, pairs) ensures k in LbKeys(portSuffix, portList, addrList, key) {
      var p :| p in pairs && k == PairKey(portSuffix, key, p);
      LbPairsCover(portList, addrList, p);
    }
    forall k | k in LbKeys(portSuffix, portList, addrList, key) ensures k in PairKeys(portSuffix, key, pairs) {
      var ip, port :| ip in addrList && port in portList && k == LbKey(key, ip, portSuffix(port));
      LbPairsCover(portList, addrList, (ip, port));
    }
  }

  /** storeLBSvc's promise: afterwards the record of every address and port
      of the lists is stored under key/address/suffix, no other key is
      added, and every other record is as before. */
  lemma StoreLBSvcContents(lbs: map<string, IpvsLB>, portSuffix: PortMapping -> string, schedulingMethod: string,
                           portList: seq<PortMapping>, addrList: seq<string>, key: string, svcType: string)
    requires SuffixWellFormed(portSuffix)
    ensures var r := StoreAll(lbs, portSuffix, key, schedulingMethod, svcType, Flatten(LbRows(portList, addrList)));
      && r.Keys == lbs.Keys + LbKeys(portSuffix, portList, addrList, key)
      && (forall ip, port :: ip in addrList && port in portList ==>
            r[LbKey(key, ip, portSuffix(port))] == IpvsLB(ip, key, port, schedulingMethod, svcType))
      && (forall k :: k in lbs && k !in LbKeys(portSuffix, portList, addrList, key) ==> r[k] == lbs[k])
  {
    var pairs := Flatten(LbRows(portList, addrList));
    var r := StoreAll(lbs, portSuffix, key, schedulingMethod, svcType, pairs);
    var keys := LbKeys(portSuffix, portList, addrList, key);
    assert PairKeys(portSuffix, key, pairs) == keys by {
      LbKeysOfRows(portSuffix, portList, addrList, key);
    }
    StoreAllContents(lbs, portSuffix, key, schedulingMethod, svcType, pairs);
    forall ip, port | ip in addrList && port in portList
      ensures r[LbKey(key, ip, portSuffix(port))] == IpvsLB(ip, key, port, schedulingMethod, svcType)
    {
      LbPairsCover(portList, addrList, (ip, port));
      assert PairKey(portSuffix, key, (ip, port)) == LbKey(key, ip, portSuffix(port));
    }
  }

  /** deleteLBSvc's promise: afterwards no key of an address and a port of
      the lists is left, and every other record is as before. */
  lemma DeleteLBSvcContents(lbs: map<string, IpvsLB>, portSuffix: PortMapping -> string,
                            portList: seq<PortMapping>, addrList: seq<string>, key: string)
    ensures DeleteAll(lbs, portSuffix, key, Flatten(LbRows(portList, addrList)))
              == lbs - LbKeys(portSuffix, portList, addrList, key)
  {
    DeleteAllIsDifference(lbs, portSuffix, key, Flatten(LbRows(portList, addrList)));
    LbKeysOfRows(portSuffix, portList, addrList, key);
  }

  /** Deleting with the lists a store used removes every key the store
      wrote and leaves every other record as it was before the store. */
  lemma StoreThenDeleteRestores(lbs: map<string, IpvsLB>, portSuffix: PortMapping -> string, schedulingMethod: string,
                                portList: seq<PortMapping>, addrList: seq<string>, key: string, svcType: string)
    requires SuffixWellFormed(portSuffix)
    ensures var pairs := Flatten(LbRows(portList, addrList));
      DeleteAll(StoreAll(lbs, portSuffix, key, schedulingMethod, svcType, pairs), portSuffix, key, pairs)
        == lbs - LbKeys(portSuffix, portList, addrList, key)
  {
    var pairs := Flatten(LbRows(portList, addrList));
    var stored := StoreAll(lbs, portSuffix, key, schedulingMethod, svcType, pairs);
    StoreLBSvcContents(lbs, portSuffix, schedulingMethod, portList, addrList, key, svcType);
    DeleteLBSvcContents(stored, portSuffix, portList, addrList, key);
  }

  // ---------------------------------------------------------------------
  // The backend
  // ---------------------------------------------------------------------

  class Backend {
    /** The address-text predicates (IsIPv4String / IsIPv6String). */
    const classify: Classifier
    /** IPSet.validateEntry of the set with the given name. */
    const validateEntry: (SetName, Entry) -> bool
    /** epPortSuffix */
    const portSuffix: PortMapping -> string
    const schedulingMethod: string

    /** ipsetList: the staged changes of each ip-set. */
    var ipsetList: map<SetName, IPSetStage>
    /** dummyIPsRefCounts, keyed by interface address. */
    var dummyIPsRefCounts: map<string, int>
    /** The addresses the kernel holds on the dummy interface. */
    var dummyLinkAddrs: set<string>
    /** lbs: the virtual-server records by composite key. */
    var lbs: map<string, IpvsLB>

    ghost predicate Valid()
      reads this
    {
      && AllSets(ipsetList)
      && SuffixWellFormed(portSuffix)
    }

    constructor (classify: Classifier, validateEntry: (SetName, Entry) -> bool,
                 portSuffix: PortMapping -> string, schedulingMethod: string)
      requires SuffixWellFormed(portSuffix)
      ensures Valid()
      ensures this.classify == classify && this.validateEntry == validateEntry
      ensures this.portSuffix == portSuffix && this.schedulingMethod == schedulingMethod
      ensures forall n :: ipsetList[n] == IPSetStage({}, {})
      ensures dummyIPsRefCounts == map[] && dummyLinkAddrs == {} && lbs == map[]
    {
      this.classify := classify;
      this.validateEntry := validateEntry;
      this.portSuffix := portSuffix;
      this.schedulingMethod := schedulingMethod;
      var empty := IPSetStage({}, {});
      ipsetList := map[LoopBackV4 := empty, LoopBackV6 := empty, ClusterIPV4 := empty, ClusterIPV6 := empty];
      dummyIPsRefCounts := map[];
      dummyLinkAddrs := {};
      lbs := map[];
      new;
      forall n: SetName ensures n in ipsetList {
        match n
        case LoopBackV4 =>
        case LoopBackV6 =>
        case ClusterIPV4 =>
        case ClusterIPV6 =>
      }
    }

    /** The two inserts of a staging loop's body: the entry goes into
        newEntries of set n when toNew holds, into deleteEntries when toDel
        holds. */
    method Stage(n: SetName, entry: Entry, toNew: bool, toDel: bool)
      requires AllSets(ipsetList)
      modifies this`ipsetList
      ensures ipsetList == StageOne(old(ipsetList), Target(n, entry), toNew, toDel)
    {
      if toNew {
        var st := ipsetList[n];
        ipsetList := ipsetList[n := st.(newEntries := st.newEntries + {entry})];
      }
      if toDel {
        var st := ipsetList[n];
        ipsetList := ipsetList[n := st.(deleteEntries := st.deleteEntries + {entry})];
      }
    }

    /** The inner loop of AddOrDelEndPointInIPSet for one port: stage the
        loopback entry of each endpoint into the set of its family. Returns
        false when it stopped at an entry failing validation, where the
        enclosing function returns. */
    method AddOrDelEndPointsOfPort(endPointList: seq<string>, port: PortMapping, op: Operation)
      returns (ok: bool)
      requires AllSets(ipsetList)
      requires forall ip :: ip in endPointList ==> IsAddress(classify, ip)
      modifies this`ipsetList
      ensures AllSets(ipsetList)
      ensures var row := EndPointRow(classify, port, endPointList);
        && (ok <==> ValidPrefix(validateEntry, row) == |row|)
        && ipsetList == Staged(old(ipsetList), row[..ValidPrefix(validateEntry, row)],
                               op == AddEndPoint, op == DeleteEndPoint)
    {
      ghost var row := EndPointRow(classify, port, endPointList);
      ghost var toNew, toDel := op == AddEndPoint, op == DeleteEndPoint;
      for j := 0 to |endPointList|
        invariant AllSets(ipsetList)
        invariant j <= ValidPrefix(validateEntry, row)
        invariant ipsetList == Staged(old(ipsetList), row[..j], toNew, toDel)
      {
        var endPointIP := endPointList[j];
        var epIPFamily := GetIPFamily(classify, endPointIP);
        var ipSetName := LoopBackSetName(epIPFamily);
        var entry := GetEndPointEntry(endPointIP, port);
        assert row[j] == Target(ipSetName, entry);
        StageStep(old(ipsetList), validateEntry, row, j, toNew, toDel, ipsetList);
        if !validateEntry(ipSetName, entry) {
          return false;
        }
        Stage(ipSetName, entry, op == AddEndPoint, op == DeleteEndPoint);
      }
      assert row[..|row|] == row;
      return true;
    }

    /** AddOrDelEndPointInIPSet: for every (port, endpoint) pair, in that
        order, stage the loopback entry into the set of the endpoint's
        family; return at the first entry that fails validation. */
    method AddOrDelEndPointInIPSet(endPointList: seq<string>, portList: seq<PortMapping>, op: Operation)
      requires Valid()
      requires forall ip :: ip in endPointList ==> IsAddress(classify, ip)
      modifies this`ipsetList
      ensures Valid()
      ensures ipsetList == EndPointStaging(old(ipsetList), classify, validateEntry, portList, endPointList, op)
    {
      ghost var rows := EndPointRows(classify, portList, endPointList);
      ghost var toNew, toDel := op == AddEndPoint, op == DeleteEndPoint;
      for i := 0 to |portList|
        invariant ValidPrefix(validateEntry, Flatten(rows[..i])) == |Flatten(rows[..i])|
        invariant ipsetList == Staged(old(ipsetList), Flatten(rows[..i]), toNew, toDel)
      {
        var port := portList[i];
        var ok := AddOrDelEndPointsOfPort(endPointList, port, op);
        EndPointRowsAt(classify, portList, endPointList, i);
        RowStep(old(ipsetList), validateEntry, rows, i, toNew, toDel, ok, ipsetList);
        if !ok {
          return;
        }
      }
      RowsAllStaged(old(ipsetList), validateEntry, rows, toNew, toDel);
    }

    /** The body of the inner loop of AddOrDelClusterIPInIPSet: pick the
        first cluster IP of the family, build its entry, and stage it when
        it passes validation. Returns false when it does not. */
    method AddOrDelClusterIP(svc: Service, ipFamily: Family, port: PortMapping, op: Operation)
      returns (valid: bool)
      requires AllSets(ipsetList)
      requires HasClusterIP(svc, ipFamily)
      modifies this`ipsetList
      ensures var t := ClusterIPTarget(svc, ipFamily, port);
        && (valid <==> Accepts(validateEntry, t))
        && ipsetList == (if valid then StageOne(old(ipsetList), t, op == AddService, op == DeleteService)
                         else old(ipsetList))
    {
      var clusterIP := "";
      if ipFamily == IPv4 {
        clusterIP := svc.ips.clusterIPs.v4[0];
      }
      if ipFamily == IPv6 {
        clusterIP := svc.ips.clusterIPs.v6[0];
      }
      var ipSetName := ClusterIPSetName(ipFamily);
      var entry := GetIPSetEntry(clusterIP, port);
      if !validateEntry(ipSetName, entry) {
        return false;
      }
      Stage(ipSetName, entry, op == AddService, op == DeleteService);
      return true;
    }

    /** The inner loop of AddOrDelClusterIPInIPSet for one port: stage the
        entry of each family's first cluster IP into that family's cluster-IP
        set. Returns false when it stopped at an entry failing validation,
        where the enclosing function returns. */
    method AddOrDelClusterIPsOfPort(svc: Service, svcIPFamily: seq<Family>, port: PortMapping, op: Operation)
      returns (ok: bool)
      requires AllSets(ipsetList)
      requires forall f :: f in svcIPFamily ==> HasClusterIP(svc, f)
      modifies this`ipsetList
      ensures AllSets(ipsetList)
      ensures var row := ClusterIPRow(svc, svcIPFamily, port);
        && (ok <==> ValidPrefix(validateEntry, row) == |row|)
        && ipsetList == Staged(old(ipsetList), row[..ValidPrefix(validateEntry, row)],
                               op == AddService, op == DeleteService)
    {
      ghost var row := ClusterIPRow(svc, svcIPFamily, port);
      ghost var toNew, toDel := op == AddService, op == DeleteService;
      for j := 0 to |svcIPFamily|
        invariant j <= ValidPrefix(validateEntry, row)
        invariant ipsetList == Staged(old(ipsetList), row[..j], toNew, toDel)
      {
        var ipFamily := svcIPFamily[j];
        ClusterIPRowAt(svc, svcIPFamily, port, j);
        StageStep(old(ipsetList), validateEntry, row, j, toNew, toDel, ipsetList);
        var valid := AddOrDelClusterIP(svc, ipFamily, port, op);
        if !valid {
          return false;
        }
      }
      assert row[..|row|] == row;
      return true;
    }

    /** AddOrDelClusterIPInIPSet: for every (port, family of the service)
        pair, stage the entry of that family's first cluster IP into the
        family's cluster-IP set; return at the first entry that fails
        validation. */
    method AddOrDelClusterIPInIPSet(svc: Service, portList: seq<PortMapping>, op: Operation)
      requires Valid()
      modifies this`ipsetList
      ensures Valid()
      ensures ipsetList == ClusterIPStaging(old(ipsetList), validateEntry, svc, portList, op)
    {
      var svcIPFamily := ServiceIPFamily(svc);
      ghost var rows := ClusterIPRows(svc, portList);
      ghost var toNew, toDel := op == AddService, op == DeleteService;
      for i := 0 to |portList|
        invariant ValidPrefix(validateEntry, Flatten(rows[..i])) == |Flatten(rows[..i])|
        invariant ipsetList == Staged(old(ipsetList), Flatten(rows[..i]), toNew, toDel)
      {
        var port := portList[i];
        var ok := AddOrDelClusterIPsOfPort(svc, svcIPFamily, port, op);
        ClusterIPRowsAt(svc, portList, i);
        RowStep(old(ipsetList), validateEntry, rows, i, toNew, toDel, ok, ipsetList);
        if !ok {
          return;
        }
      }
      RowsAllStaged(old(ipsetList), validateEntry, rows, toNew, toDel);
    }

    /** The first loop of addServiceIPToKubeIPVSIntf: count every added
        interface address up by one, asking the kernel for it first when it
        has no key yet (the count goes up whatever the kernel answers). The
        kernel's answer is the parameter linkAccepts; the result is the
        addresses the kernel was asked to add. */
    method AddDummyIPs(added: set<string>, linkAccepts: string -> bool) returns (attempted: set<string>)
      modifies this`dummyIPsRefCounts, this`dummyLinkAddrs
      ensures dummyIPsRefCounts == CountUp(old(dummyIPsRefCounts), added)
      ensures attempted == AddAttempts(old(dummyIPsRefCounts), added)
      ensures dummyLinkAddrs == old(dummyLinkAddrs) + LinkAdded(attempted, linkAccepts)
    {
      ghost var counts0 := dummyIPsRefCounts;
      ghost var links0 := dummyLinkAddrs;
      attempted := {};
      var todo := added;
      while todo != {}
        invariant AddDummyLoop(counts0, links0, added, todo, dummyIPsRefCounts, dummyLinkAddrs, attempted, linkAccepts)
        decreases todo
      {
        var ip :| ip in todo;
        AddDummyRound(counts0, links0, added, todo, dummyIPsRefCounts, dummyLinkAddrs, attempted, linkAccepts, ip);
        var asked := AddDummyIP(ip, linkAccepts);
        if asked {
          attempted := attempted + {ip};
        }
        todo := todo - {ip};
      }
      assert added - todo == added;
    }

    /** One iteration of the first loop: an address with no key is asked of
        the kernel, which adds it when linkAccepts holds; the count goes up
        by one in any case. Returns whether the kernel was asked. */
    method AddDummyIP(ip: string, linkAccepts: string -> bool) returns (asked: bool)
      modifies this`dummyIPsRefCounts, this`dummyLinkAddrs
      ensures asked <==> ip !in old(dummyIPsRefCounts)
      ensures dummyIPsRefCounts == old(dummyIPsRefCounts)[ip := Count(old(dummyIPsRefCounts), ip) + 1]
      ensures dummyLinkAddrs == old(dummyLinkAddrs) + (if asked && linkAccepts(ip) then {ip} else {})
    {
      asked := ip !in dummyIPsRefCounts;
      if asked {
        if linkAccepts(ip) {
          dummyLinkAddrs := dummyLinkAddrs + {ip};
        }
      }
      dummyIPsRefCounts := dummyIPsRefCounts[ip := Count(dummyIPsRefCounts, ip) + 1];
    }

    /** The second loop of addServiceIPToKubeIPVSIntf: count every removed
        interface address down by one. */
    method RemoveDummyIPs(removed: set<string>)
      modifies this`dummyIPsRefCounts
      ensures dummyIPsRefCounts == CountDown(old(dummyIPsRefCounts), removed)
    {
      ghost var counts0 := dummyIPsRefCounts;
      var todo := removed;
      ghost var done: set<string> := {};
      while todo != {}
        invariant done == removed - todo && todo <= removed
        invariant dummyIPsRefCounts == CountDown(counts0, done)
        decreases todo
      {
        var ip :| ip in todo;
        CountDownStep(counts0, done, ip);
        dummyIPsRefCounts := dummyIPsRefCounts[ip := Count(dummyIPsRefCounts, ip) - 1];
        todo := todo - {ip};
        done := done + {ip};
      }
    }

    /** addServiceIPToKubeIPVSIntf: the interface addresses of the IPs the
        update adds are counted up, then those of the IPs it removes are
        counted down. Parsing an address that is not an IP is fatal, hence
        the preconditions on the addresses asked for. */
    method AddServiceIPToKubeIPVSIntf(prevSvc: Option<Service>, curr: Service, linkAccepts: string -> bool)
      returns (attempted: set<string>)
      requires forall ip :: (ip in curr.ips.All().V4Set() - PrevIPs(prevSvc).V4Set() &&
                 ip + "/32" !in dummyIPsRefCounts) ==> IsAddress(classify, ip)
      requires forall ip :: (ip in curr.ips.All().V6Set() - PrevIPs(prevSvc).V6Set() &&
                 ip + "/128" !in dummyIPsRefCounts) ==> IsAddress(classify, ip)
      modifies this`dummyIPsRefCounts, this`dummyLinkAddrs
      ensures dummyIPsRefCounts ==
                RefCountsAfter(old(dummyIPsRefCounts), AddedDummyIPs(prevSvc, curr), RemovedDummyIPs(prevSvc, curr))
      ensures attempted == AddAttempts(old(dummyIPsRefCounts), AddedDummyIPs(prevSvc, curr))
      ensures dummyLinkAddrs == old(dummyLinkAddrs) + LinkAdded(attempted, linkAccepts)
    {
      var added, removed := AddedDummyIPs(prevSvc, curr), RemovedDummyIPs(prevSvc, curr);
      attempted := AddDummyIPs(added, linkAccepts);
      RemoveDummyIPs(removed);
    }

    /** storeLBSvc: for every address, outer loop, and every port, inner
        loop, store the record of that address and port under
        key/address/suffix. */
    method StoreLBSvc(portList: seq<PortMapping>, addrList: seq<string>, key: string, svcType: string)
      modifies this`lbs
      ensures lbs == StoreAll(old(lbs), portSuffix, key, schedulingMethod, svcType, Flatten(LbRows(portList, addrList)))
    {
      ghost var rows := LbRows(portList, addrList);
      for i := 0 to |addrList|
        invariant lbs == StoreAll(old(lbs), portSuffix, key, schedulingMethod, svcType, Flatten(rows[..i]))
      {
        var ip := addrList[i];
        var prefix := key + "/" + ip + "/";
        StoreLBPorts(portList, ip, prefix, key, svcType);
        assert lbs == StoreAll(old(lbs), portSuffix, key, schedulingMethod, svcType, Flatten(rows[..i + 1])) by {
          FlattenSnoc(rows, i);
          StoreAllAppend(old(lbs), portSuffix, key, schedulingMethod, svcType, Flatten(rows[..i]), rows[i]);
        }
      }
      assert rows[..|addrList|] == rows;
    }

    /** The inner loop of storeLBSvc, for one address. */
    method StoreLBPorts(portList: seq<PortMapping>, ip: string, prefix: string, key: string, svcType: string)
      requires prefix == key + "/" + ip + "/"
      modifies this`lbs
      ensures lbs == StoreAll(old(lbs), portSuffix, key, schedulingMethod, svcType, LbRow(portList, ip))
    {
      ghost var row := LbRow(portList, ip);
      for j := 0 to |portList|
        invariant lbs == StoreAll(old(lbs), portSuffix, key, schedulingMethod, svcType, row[..j])
      {
        var port := portList[j];
        var lbKey := prefix + portSuffix(port);
        assert lbKey == PairKey(portSuffix, key, row[j]);
        assert row[..j + 1][..j] == row[..j];
        lbs := lbs[lbKey := IpvsLB(ip, key, port, schedulingMethod, svcType)];
      }
      assert row[..|portList|] == row;
    }

    /** deleteLBSvc: for every address and every port, delete the record
        under key/address/suffix. */
    method DeleteLBSvc(portList: seq<PortMapping>, addrList: seq<string>, key: string)
      modifies this`lbs
      ensures lbs == DeleteAll(old(lbs), portSuffix, key, Flatten(LbRows(portList, addrList)))
    {
      ghost var rows := LbRows(portList, addrList);
      for i := 0 to |addrList|
        invariant lbs == DeleteAll(old(lbs), portSuffix, key, Flatten(rows[..i]))
      {
        var ip := addrList[i];
        var prefix := key + "/" + ip + "/";
        DeleteLBPorts(portList, ip, prefix, key);
        assert lbs == DeleteAll(old(lbs), portSuffix, key, Flatten(rows[..i + 1])) by {
          FlattenSnoc(rows, i);
          DeleteAllAppend(old(lbs), portSuffix, key, Flatten(rows[..i]), rows[i]);
        }
      }
      assert rows[..|addrList|] == rows;
    }

    /** The inner loop of deleteLBSvc, for one address. */
    method DeleteLBPorts(portList: seq<PortMapping>, ip: string, prefix: string, key: string)
      requires prefix == key + "/" + ip + "/"
      modifies this`lbs
      ensures lbs == DeleteAll(old(lbs), portSuffix, key, LbRow(portList, ip))
    {
      ghost var row := LbRow(portList, ip);
      for j := 0 to |portList|
        invariant lbs == DeleteAll(old(lbs), portSuffix, key, row[..j])
      {
        var port := portList[j];
        var lbKey := prefix + portSuffix(port);
        assert lbKey == PairKey(portSuffix, key, row[j]);
        assert row[..j + 1][..j] == row[..j];
        lbs := lbs - {lbKey};
      }
      assert row[..|portList|] == row;
    }
  }
}
