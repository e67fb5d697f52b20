/** The value types of the local-net API (package localnetv1) that the
    IPVS sink and the endpoint-slice ingestion read and write. */
module Localnet {

  import opened Util

  /** A Go int32. */
  type Int32 = x: int | -0x8000_0000 <= x < 0x8000_0000

  /** Transport protocol of a port mapping. */
  datatype Protocol = TCP | UDP | SCTP

  /** Protocol.String(): the enum value's name. */
  function ProtocolName(p: Protocol): string
  {
    match p
    case TCP => "TCP"
    case UDP => "UDP"
    case SCTP => "SCTP"
  }

  datatype PortMapping = PortMapping(
    name: string,
    protocol: Protocol,
    port: Int32,
    nodePort: Int32,
    targetPort: Int32)

  /** An address set split by family; each list is kept in order. */
  datatype IPSet = IPSet(v4: seq<string>, v6: seq<string>)
  {
    function V4Set(): set<string> { set ip | ip in v4 }
    function V6Set(): set<string> { set ip | ip in v6 }
  }

  function NewIPSet(): IPSet { IPSet([], []) }

  datatype ServiceIPs = ServiceIPs(clusterIPs: IPSet, externalIPs: IPSet)
  {
    /** IPs.All(): every address the service claims, per family. */
    function All(): (r: IPSet)
      ensures r.V4Set() == clusterIPs.V4Set() + externalIPs.V4Set()
      ensures r.V6Set() == clusterIPs.V6Set() + externalIPs.V6Set()
    {
      IPSet(clusterIPs.v4 + externalIPs.v4, clusterIPs.v6 + externalIPs.v6)
    }
  }

  datatype Service = Service(
    namespace: string,
    name: string,
    ips: ServiceIPs,
    ports: seq<PortMapping>)

  /** Hostname and the addresses handed to Endpoint.AddAddress, in order. */
  datatype Endpoint = Endpoint(hostname: string, addresses: seq<string>)

  datatype EndpointConditions = EndpointConditions(ready: bool)

  datatype EndpointInfo = EndpointInfo(
    namespace: string,
    serviceName: string,
    sourceName: string,
    nodeName: string,
    topology: Option<map<string, string>>,
    endpoint: Endpoint,
    conditions: EndpointConditions)
}
