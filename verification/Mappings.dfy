// The entities of the control plane: NAT mappings and the edge configuration.
module Mappings {
  import opened Wrappers
  import opened Addresses
  import Text

  // Clock values are opaque; only their order is used.
  type Time = int

  datatype Protocol = All | Tcp | Udp

  datatype Mode = OneToOneSnat | PortForwardSnat

  datatype Backend = Nft | Xdp | Proxy

  datatype Status = Pending | Active | Disabled | Degraded | Error

  datatype Mapping = Mapping(
    id: string,
    name: string,
    publicIp: Option<Addr>,
    ociPublicIp: Option<string>,
    edgeIp: Addr,
    ociPrivateIp: Option<string>,
    targetIp: Addr,
    publicPort: Option<Port>,
    targetPort: Option<Port>,
    protocol: Protocol,
    mode: Mode,
    backend: Backend,
    enabled: bool,
    status: Status,
    lastError: Option<string>,
    healthStatus: Option<string>,
    lastCheckedAt: Option<Time>,
    createdAt: Time,
    updatedAt: Time)

  datatype EdgeConfig = EdgeConfig(wan: string, netbird: string, targetCidrs: seq<Cidr>)

  predicate ContainsTarget(config: EdgeConfig, ip: Addr) {
    exists i :: 0 <= i < |config.targetCidrs| && Contains(config.targetCidrs[i], ip)
  }

  // The row with its switch set: `pending` when on, `disabled` when off.
  function WithEnabled(m: Mapping, enabled: bool, now: Time): Mapping {
    m.(enabled := enabled, status := if enabled then Pending else Disabled, updatedAt := now)
  }

  function WithStatus(m: Mapping, status: Status, now: Time): Mapping {
    m.(status := status, updatedAt := now)
  }

  // What only a write of the whole row may change, what health checks write, and the addresses that
  // the agent assigns.
  predicate SameTerms(was: Mapping, row: Mapping) {
    && row.id == was.id && row.name == was.name && row.targetIp == was.targetIp && row.publicPort == was.publicPort
    && row.targetPort == was.targetPort && row.protocol == was.protocol && row.mode == was.mode
    && row.backend == was.backend && row.createdAt == was.createdAt
  }

  predicate SameHealth(was: Mapping, row: Mapping) {
    row.lastError == was.lastError && row.healthStatus == was.healthStatus && row.lastCheckedAt == was.lastCheckedAt
  }

  predicate SameAssigned(was: Mapping, row: Mapping) {
    && row.publicIp == was.publicIp && row.ociPublicIp == was.ociPublicIp
    && row.edgeIp == was.edgeIp && row.ociPrivateIp == was.ociPrivateIp
  }

  // The IP protocol number of a mapping's protocol.
  function ProtocolNumber(p: Protocol): Byte {
    match p
    case Tcp => 6
    case Udp => 17
    case All => 0
  }

  // The name of a protocol, in a rule and in a column alike.
  function ProtocolName(p: Protocol): string {
    match p
    case All => "all"
    case Tcp => "tcp"
    case Udp => "udp"
  }

  function ParseProtocol(s: string): Option<Protocol> {
    if s == "all" then Some(All) else if s == "tcp" then Some(Tcp) else if s == "udp" then Some(Udp) else None
  }

  // The order of `list_mappings`: creation time, then id.
  predicate Before(x: Mapping, y: Mapping) {
    x.createdAt < y.createdAt || (x.createdAt == y.createdAt && Text.Less(x.id, y.id))
  }
}
