// The columns of the `mappings` table, and the guards the database puts on them.
module RowCodec {
  import opened Wrappers
  import opened Addresses
  import opened Mappings
  import opened Validation
  import Text

  const ONE_TO_ONE := "one_to_one_snat"
  const PORT_FORWARD := "port_forward_snat"

  // Text, integer and nullable columns, as they are stored.
  datatype Row = Row(
    id: string,
    name: string,
    publicIp: Option<string>,
    ociPublicIp: Option<string>,
    edgeIp: string,
    ociPrivateIp: Option<string>,
    targetIp: string,
    publicPort: Option<int>,
    targetPort: Option<int>,
    protocol: string,
    mode: string,
    backend: string,
    enabled: int,
    status: string,
    lastError: Option<string>,
    healthStatus: Option<string>,
    lastCheckedAt: Option<Time>,
    createdAt: Time,
    updatedAt: Time)

  // ---- Columns ----

  function ModeText(m: Mode): string {
    match m
    case OneToOneSnat => ONE_TO_ONE
    case PortForwardSnat => PORT_FORWARD
  }

  function ParseMode(s: string): Option<Mode> {
    if s == ONE_TO_ONE then Some(OneToOneSnat) else if s == PORT_FORWARD then Some(PortForwardSnat) else None
  }

  function BackendText(b: Backend): string {
    match b
    case Nft => "nft"
    case Xdp => "xdp"
    case Proxy => "proxy"
  }

  function ParseBackend(s: string): Option<Backend> {
    if s == "nft" then Some(Nft) else if s == "xdp" then Some(Xdp) else if s == "proxy" then Some(Proxy) else None
  }

  function StatusText(s: Status): string {
    match s
    case Pending => "pending"
    case Active => "active"
    case Disabled => "disabled"
    case Degraded => "degraded"
    case Error => "error"
  }

  function ParseStatus(s: string): Option<Status> {
    if s == "pending" then Some(Pending) else if s == "active" then Some(Active)
    else if s == "disabled" then Some(Status.Disabled) else if s == "degraded" then Some(Degraded)
    else if s == "error" then Some(Status.Error) else None
  }

  function PortNumber(port: Option<Port>): Option<int> {
    match port
    case None => None
    case Some(n) => Some(n)
  }

  function DecodePort(value: Option<int>): Result<Option<Port>, Error> {
    match value
    case None => Success(None)
    case Some(n) => if 1 <= n <= 65535 then Success(Some(n)) else Failure(Store(BadPort))
  }

  function OptionalAddrText(ip: Option<Addr>): Option<string> {
    match ip
    case None => None
    case Some(a) => Some(Text.AddrText(a))
  }

  // ---- Rows ----

  // What every `MappingId` satisfies: it is built from a trimmed, non-empty text.
  predicate WellFormedId(id: string) {
    id != "" && Text.Trim(id) == id
  }

  function Encode(m: Mapping): (row: Row)
    ensures row.id == m.id && row.createdAt == m.createdAt
  {
    Row(m.id, m.name, OptionalAddrText(m.publicIp), m.ociPublicIp, Text.AddrText(m.edgeIp), m.ociPrivateIp,
        Text.AddrText(m.targetIp), PortNumber(m.publicPort), PortNumber(m.targetPort), ProtocolName(m.protocol),
        ModeText(m.mode), BackendText(m.backend), if m.enabled then 1 else 0, StatusText(m.status), m.lastError,
        m.healthStatus, m.lastCheckedAt, m.createdAt, m.updatedAt)
  }

  function DecodeAddresses(row: Row): Option<(Option<Addr>, Addr, Addr)> {
    match (Text.ParseAddr(row.edgeIp), Text.ParseAddr(row.targetIp))
    case (Some(edge), Some(target)) =>
      (match row.publicIp
       case None => Some((None, edge, target))
       case Some(s) =>
         match Text.ParseAddr(s)
         case None => None
         case Some(public) => Some((Some(public), edge, target)))
    case _ => None
  }

  function DecodeNames(row: Row): Option<(Protocol, Mode, Backend, Status)> {
    match (ParseProtocol(row.protocol), ParseMode(row.mode), ParseBackend(row.backend), ParseStatus(row.status))
    case (Some(p), Some(m), Some(b), Some(s)) => Some((p, m, b, s))
    case _ => None
  }

  function Decode(row: Row): Result<Mapping, Error> {
    var publicPort, targetPort := DecodePort(row.publicPort), DecodePort(row.targetPort);
    if publicPort.Failure? then Failure(publicPort.error)
    else if targetPort.Failure? then Failure(targetPort.error)
    else if Text.Trim(row.id) == "" then Failure(Validation(EmptyMappingId))
    else
      match (DecodeAddresses(row), DecodeNames(row))
      case (None, _) => Failure(Store(BadAddress))
      case (_, None) => Failure(Store(BadEnum))
      case (Some(ips), Some(names)) =>
        Success(Mapping(Text.Trim(row.id), row.name, ips.0, row.ociPublicIp, ips.1, row.ociPrivateIp, ips.2,
                        publicPort.value, targetPort.value, names.0, names.1, names.2, row.enabled != 0, names.3,
                        row.lastError, row.healthStatus, row.lastCheckedAt, row.createdAt, row.updatedAt))
  }

  predicate Storable(m: Mapping) {
    WellFormedId(m.id) && m.publicPort != Some(0) && m.targetPort != Some(0)
  }

  lemma NamesRoundTrip(m: Mapping)
    ensures DecodeNames(Encode(m)) == Some((m.protocol, m.mode, m.backend, m.status))
  {
  }

  lemma AddressesRoundTrip(m: Mapping)
    ensures DecodeAddresses(Encode(m)) == Some((m.publicIp, m.edgeIp, m.targetIp))
  {
    Text.ParseAddrText(m.edgeIp);
    Text.ParseAddrText(m.targetIp);
    if m.publicIp.Some? {
      Text.ParseAddrText(m.publicIp.value);
    }
  }

  // A row decodes to the mapping it was written from exactly when the id is trimmed and non-empty
  // and no port is zero.
  lemma RowRoundTrip(m: Mapping)
    ensures Decode(Encode(m)) == Success(m) <==> Storable(m)
  {
    NamesRoundTrip(m);
    AddressesRoundTrip(m);
  }

  lemma ValidIsStorable(m: Mapping, config: EdgeConfig)
    requires ValidMapping(m, config) && WellFormedId(m.id)
    ensures Storable(m)
  {
  }

  // ---- The guards of the database ----

  // Two rows that may not both be in one of the four partial unique indexes. A NULL equals nothing.
  predicate IndexCollides(x: Row, y: Row) {
    && x.enabled == 1 && y.enabled == 1
    && (|| (x.mode == ONE_TO_ONE && y.mode == ONE_TO_ONE
            && (x.edgeIp == y.edgeIp || (x.publicIp.Some? && x.publicIp == y.publicIp) || x.targetIp == y.targetIp))
        || (x.mode == PORT_FORWARD && y.mode == PORT_FORWARD
            && x.edgeIp == y.edgeIp && x.protocol == y.protocol && x.publicPort.Some? && x.publicPort == y.publicPort))
  }

  // The four checks of the conflict triggers, for the new row against another stored row.
  predicate TriggerAborts(row: Row, other: Row) {
    && row.enabled == 1 && other.enabled == 1
    && (|| (row.mode == PORT_FORWARD && other.mode == ONE_TO_ONE && other.edgeIp == row.edgeIp)
        || (row.mode == ONE_TO_ONE && other.mode == PORT_FORWARD && other.edgeIp == row.edgeIp)
        || (row.mode == PORT_FORWARD && row.publicIp.Some? && other.mode == ONE_TO_ONE
            && other.publicIp == row.publicIp)
        || (row.mode == ONE_TO_ONE && row.publicIp.Some? && other.publicIp == row.publicIp))
  }

  predicate Blocks(row: Row, other: Row) {
    TriggerAborts(row, other) || IndexCollides(row, other)
  }

  // The guards look at enabled rows only.
  lemma OffRowIsNotBlocked(m: Mapping, other: Row)
    ensures !m.enabled ==> !Blocks(Encode(m), other)
  {
  }

  // Both rows are on and they clash.
  predicate EnabledClash(x: Mapping, y: Mapping) {
    x.enabled && y.enabled && Clash(x, y)
  }

  // For rows that carry the public port their mode calls for, the text guards of the database
  // refuse a row beside another exactly when the two are enabled and clash.
  lemma GuardsExact(m: Mapping, other: Mapping)
    requires m.mode == PortForwardSnat ==> m.publicPort.Some?
    ensures Blocks(Encode(m), Encode(other)) <==> EnabledClash(other, m)
  {
    ColumnsInjective(m, other);
  }

  lemma ColumnsInjective(x: Mapping, y: Mapping)
    ensures Encode(x).edgeIp == Encode(y).edgeIp <==> x.edgeIp == y.edgeIp
    ensures Encode(x).targetIp == Encode(y).targetIp <==> x.targetIp == y.targetIp
    ensures Encode(x).publicIp == Encode(y).publicIp <==> x.publicIp == y.publicIp
    ensures Encode(x).publicPort == Encode(y).publicPort <==> x.publicPort == y.publicPort
    ensures Encode(x).protocol == Encode(y).protocol <==> x.protocol == y.protocol
    ensures Encode(x).mode == ONE_TO_ONE <==> x.mode == OneToOneSnat
    ensures Encode(y).mode == ONE_TO_ONE <==> y.mode == OneToOneSnat
    ensures Encode(x).mode == PORT_FORWARD <==> x.mode == PortForwardSnat
    ensures Encode(y).mode == PORT_FORWARD <==> y.mode == PortForwardSnat
  {
    NamesRoundTrip(x);
    NamesRoundTrip(y);
    AddressesRoundTrip(x);
    AddressesRoundTrip(y);
    if Encode(x).edgeIp == Encode(y).edgeIp {
      Text.AddrTextInjective(x.edgeIp, y.edgeIp);
    }
    if Encode(x).targetIp == Encode(y).targetIp {
      Text.AddrTextInjective(x.targetIp, y.targetIp);
    }
    if x.publicIp.Some? && Encode(x).publicIp == Encode(y).publicIp {
      Text.AddrTextInjective(x.publicIp.value, y.publicIp.value);
    }
  }

  // Without the port that validation demands, NULLs are distinct in a unique index: the guards fall
  // short of the clashes exactly beside another enabled port forward of the same edge address and
  // protocol that has no port either.
  lemma NullPortsPassTheGuards(m: Mapping, other: Mapping)
    requires m.mode == PortForwardSnat && m.publicPort.None?
    ensures (Blocks(Encode(m), Encode(other)) <==> EnabledClash(other, m)) <==>
            !(&& m.enabled && other.enabled && other.mode == PortForwardSnat && other.publicPort.None?
              && m.edgeIp == other.edgeIp && m.protocol == other.protocol)
  {
    ColumnsInjective(m, other);
  }
}
