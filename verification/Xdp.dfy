// The XDP plan: a second back end over the same rows.
module Xdp {
  import opened Wrappers
  import opened Addresses
  import opened Mappings
  import opened Validation
  import opened Ruleset
  import Text

  datatype AttachMode = Skb | Native

  datatype XdpConfig = XdpConfig(enabled: bool, iface: string, pinPath: string, attachMode: AttachMode)

  datatype Problem = NotPortForward | NotTcpOrUdp | NoPublicPort | NoTargetPort | TargetOutside

  datatype XdpError =
    | XdpDisabled(names: seq<string>)
    | XdpConfigInvalid
    | XdpMappingInvalid(id: string, problem: Problem)

  datatype Key = Key(edgeIp: Addr, protocol: Protocol, publicPort: Port)

  datatype Value = Value(targetIp: Addr, targetPort: Port, flags: Port)

  datatype Entry = Entry(mappingId: string, name: string, key: Key, value: Value)

  datatype Plan = Plan(iface: string, pinPath: string, attachMode: AttachMode, entries: seq<Entry>)

  // ---- Planning ----

  predicate ValidXdpConfig(c: XdpConfig) {
    c.enabled ==> Text.Trim(c.iface) != "" && c.pinPath != "" && c.pinPath[0] == '/'
  }

  predicate IsXdp(m: Mapping) {
    m.enabled && m.backend == Backend.Xdp
  }

  function XdpRows(ms: seq<Mapping>): (rows: seq<Mapping>)
    ensures forall m :: m in rows <==> m in ms && IsXdp(m)
  {
    if ms == [] then []
    else XdpRows(ms[..|ms| - 1]) + if IsXdp(ms[|ms| - 1]) then [ms[|ms| - 1]] else []
  }

  function PlanEntry(m: Mapping, config: EdgeConfig): Result<Entry, XdpError> {
    if m.mode != PortForwardSnat then Failure(XdpMappingInvalid(m.id, NotPortForward))
    else if m.protocol == All then Failure(XdpMappingInvalid(m.id, NotTcpOrUdp))
    else if m.publicPort.None? then Failure(XdpMappingInvalid(m.id, NoPublicPort))
    else if m.targetPort.None? then Failure(XdpMappingInvalid(m.id, NoTargetPort))
    else if !ContainsTarget(config, m.targetIp) then Failure(XdpMappingInvalid(m.id, TargetOutside))
    else
      Success(Entry(m.id, m.name, Key(m.edgeIp, m.protocol, m.publicPort.value),
                    Value(m.targetIp, m.targetPort.value, 0)))
  }

  // The entries of the rows in order, or the error of the first row that has none.
  function PlanEntries(rows: seq<Mapping>, config: EdgeConfig): Result<seq<Entry>, XdpError> {
    if rows == [] then Success([])
    else
      match PlanEntries(rows[..|rows| - 1], config)
      case Failure(e) => Failure(e)
      case Success(entries) =>
        match PlanEntry(rows[|rows| - 1], config)
        case Failure(e) => Failure(e)
        case Success(entry) => Success(entries + [entry])
  }

  function Names(rows: seq<Mapping>): seq<string> {
    seq(|rows|, i requires 0 <= i < |rows| => rows[i].name)
  }

  function PlanOf(xdp: XdpConfig, ms: seq<Mapping>, config: EdgeConfig): Result<Plan, XdpError> {
    if !ValidXdpConfig(xdp) then Failure(XdpConfigInvalid)
    else if !xdp.enabled && XdpRows(ms) != [] then Failure(XdpDisabled(Names(XdpRows(ms))))
    else
      match PlanEntries(XdpRows(ms), config)
      case Failure(e) => Failure(e)
      case Success(entries) => Success(Plan(xdp.iface, xdp.pinPath, xdp.attachMode, entries))
  }

  lemma {:induction false} FirstFailureStands(rows: seq<Mapping>, config: EdgeConfig, n: nat)
    requires n <= |rows| && PlanEntries(rows[..n], config).Failure?
    ensures PlanEntries(rows, config) == PlanEntries(rows[..n], config)
    decreases |rows|
  {
    if n == |rows| {
      assert rows[..n] == rows;
    } else {
      var front := rows[..|rows| - 1];
      assert front[..n] == rows[..n];
      FirstFailureStands(front, config, n);
    }
  }

  // ---- The byte form of a map key and of a map value ----

  function KeyCode(k: Key): seq<Byte> {
    [k.edgeIp.a, k.edgeIp.b, k.edgeIp.c, k.edgeIp.d, k.publicPort / 256, k.publicPort % 256,
     ProtocolNumber(k.protocol), 0]
  }

  function ValueCode(v: Value): seq<Byte> {
    [v.targetIp.a, v.targetIp.b, v.targetIp.c, v.targetIp.d,
     v.targetPort / 256, v.targetPort % 256, v.flags / 256, v.flags % 256]
  }

  method KeyBytes(k: Key) returns (bytes: array<Byte>)
    ensures fresh(bytes) && bytes[..] == KeyCode(k)
  {
    bytes := new Byte[8](_ => 0);
    bytes[0], bytes[1], bytes[2], bytes[3] := k.edgeIp.a, k.edgeIp.b, k.edgeIp.c, k.edgeIp.d;
    bytes[4], bytes[5] := k.publicPort / 256, k.publicPort % 256;
    bytes[6] := ProtocolNumber(k.protocol);
  }

  method ValueBytes(v: Value) returns (bytes: array<Byte>)
    ensures fresh(bytes) && bytes[..] == ValueCode(v)
  {
    bytes := new Byte[8](_ => 0);
    bytes[0], bytes[1], bytes[2], bytes[3] := v.targetIp.a, v.targetIp.b, v.targetIp.c, v.targetIp.d;
    bytes[4], bytes[5] := v.targetPort / 256, v.targetPort % 256;
    bytes[6], bytes[7] := v.flags / 256, v.flags % 256;
  }

  function DecodeKey(bytes: seq<Byte>): Option<Key> {
    if |bytes| != 8 || bytes[7] != 0 || bytes[6] !in {0, 6, 17} then None
    else
      Some(Key(Addr(bytes[0], bytes[1], bytes[2], bytes[3]),
               if bytes[6] == 6 then Tcp else if bytes[6] == 17 then Udp else All,
               (bytes[4] as int) * 256 + bytes[5] as int))
  }

  // Reading the bytes of a key gives the key back, and only the bytes of a key are read.
  lemma KeyDecodes(k: Key, bytes: seq<Byte>)
    ensures DecodeKey(bytes) == Some(k) <==> bytes == KeyCode(k)
  {
  }

  function DecodeValue(bytes: seq<Byte>): Option<Value> {
    if |bytes| != 8 then None
    else
      Some(Value(Addr(bytes[0], bytes[1], bytes[2], bytes[3]),
                 (bytes[4] as int) * 256 + bytes[5] as int, (bytes[6] as int) * 256 + bytes[7] as int))
  }

  // Every eight bytes are the bytes of one value, and only of that one.
  lemma ValueDecodes(v: Value, bytes: seq<Byte>)
    ensures DecodeValue(bytes) == Some(v) <==> bytes == ValueCode(v)
    ensures |bytes| == 8 ==> DecodeValue(bytes).Some?
  {
  }

  // ---- Both back ends over one accepted list ----

  predicate EntryClaims(e: Entry, p: Packet) {
    e.key.edgeIp == p.daddr && Speaks(p, e.key.protocol) && e.key.publicPort == p.dport
  }

  lemma ValidRowPlans(m: Mapping, config: EdgeConfig)
    requires ValidMapping(m, config) && IsXdp(m)
    ensures PlanEntry(m, config).Success?
  {
    assert ValidateMode(m).Pass?;
    AcceptedTargetIsCovered(m, config);
  }

  lemma {:induction false} RowsPlan(rows: seq<Mapping>, config: EdgeConfig)
    requires forall i :: 0 <= i < |rows| ==> PlanEntry(rows[i], config).Success?
    ensures PlanEntries(rows, config).Success? && |PlanEntries(rows, config).value| == |rows|
    ensures forall i :: 0 <= i < |rows| ==> PlanEntry(rows[i], config) == Success(PlanEntries(rows, config).value[i])
  {
    if rows != [] {
      RowsPlan(rows[..|rows| - 1], config);
    }
  }

  lemma {:induction false} XdpRowsClashFree(ms: seq<Mapping>)
    requires ClashFree(ms)
    ensures ClashFree(XdpRows(ms))
  {
    if ms != [] {
      var front, last := ms[..|ms| - 1], ms[|ms| - 1];
      XdpRowsClashFree(front);
      forall m | m in XdpRows(front)
        ensures !Clash(m, last)
      {
        var k :| 0 <= k < |front| && front[k] == m;
        assert !Clash(ms[k], ms[|ms| - 1]);
      }
    }
  }

  // Every enabled XDP row has its entry, in order, and no two entries share a key.
  lemma AcceptedRowsPlan(ms: seq<Mapping>, config: EdgeConfig)
    requires Accepts(ms, config)
    ensures PlanEntries(XdpRows(ms), config).Success?
    ensures var rows, entries := XdpRows(ms), PlanEntries(XdpRows(ms), config).value;
            && |entries| == |rows|
            && (forall i :: 0 <= i < |rows| ==> PlanEntry(rows[i], config) == Success(entries[i]))
            && (forall i, j :: 0 <= i < j < |rows| ==> entries[i].key != entries[j].key)
  {
    var rows := XdpRows(ms);
    forall i | 0 <= i < |rows|
      ensures PlanEntry(rows[i], config).Success?
    {
      assert rows[i] in ms;
      ValidRowPlans(rows[i], config);
    }
    RowsPlan(rows, config);
    XdpRowsClashFree(ms);
    var entries := PlanEntries(rows, config).value;
    forall i, j | 0 <= i < j < |rows|
      ensures entries[i].key != entries[j].key
    {
      SameKeyClashes(rows[i], rows[j], config);
    }
  }

  lemma SameKeyClashes(x: Mapping, y: Mapping, config: EdgeConfig)
    requires IsXdp(x) && IsXdp(y) && PlanEntry(x, config).Success? && PlanEntry(y, config).Success?
    ensures PlanEntry(x, config).value.key == PlanEntry(y, config).value.key ==> Clash(x, y)
  {
  }

  // For an accepted list, planning fails only for the reasons that concern the XDP settings.
  lemma AcceptedListPlans(xdp: XdpConfig, ms: seq<Mapping>, config: EdgeConfig)
    requires Accepts(ms, config)
    ensures PlanOf(xdp, ms, config).Success? <==> ValidXdpConfig(xdp) && (xdp.enabled || XdpRows(ms) == [])
    ensures PlanOf(xdp, ms, config).Failure? ==> !PlanOf(xdp, ms, config).error.XdpMappingInvalid?
  {
    AcceptedRowsPlan(ms, config);
  }

  // ---- Where the entries send packets ----

  // The entry found for a packet: the one of its address, protocol number and port.
  function FindEntry(entries: seq<Entry>, p: Packet): Option<Entry> {
    if entries == [] then None
    else if && entries[0].key.edgeIp == p.daddr
            && Speaks(p, entries[0].key.protocol)
            && entries[0].key.publicPort == p.dport then Some(entries[0])
    else FindEntry(entries[1..], p)
  }

  // The row is switched on for XDP and owns this port of this protocol at this address.
  predicate XdpClaims(m: Mapping, p: Packet) {
    && m.enabled && m.backend == Backend.Xdp
    && m.edgeIp == p.daddr && Speaks(p, m.protocol) && m.publicPort == Some(p.dport)
  }

  // The entry sends to the row's target and carries its id and name.
  predicate Serves(e: Entry, m: Mapping) {
    && e.value.targetIp == m.targetIp && Some(e.value.targetPort) == m.targetPort && e.value.flags == 0
    && e.mappingId == m.id && e.name == m.name
  }

  // For every packet the entries hold what the row that claims it prescribes, and nothing if no row
  // does.
  ghost predicate PlanGoverns(entries: seq<Entry>, ms: seq<Mapping>) {
    && (forall m, p :: m in ms && XdpClaims(m, p) ==>
          FindEntry(entries, p).Some? && Serves(FindEntry(entries, p).value, m))
    && (forall p :: (forall m :: m in ms ==> !XdpClaims(m, p)) ==> FindEntry(entries, p) == None)
  }

  lemma {:induction false} FoundEntry(entries: seq<Entry>, p: Packet)
    ensures match FindEntry(entries, p)
            case Some(e) => exists i :: 0 <= i < |entries| && entries[i] == e && e.key.edgeIp == p.daddr
                                        && Speaks(p, e.key.protocol) && e.key.publicPort == p.dport
            case None => forall i :: 0 <= i < |entries| ==>
                           !(entries[i].key.edgeIp == p.daddr && Speaks(p, entries[i].key.protocol)
                             && entries[i].key.publicPort == p.dport)
  {
    if entries != [] {
      FoundEntry(entries[1..], p);
      assert forall i :: 0 <= i < |entries[1..]| ==> entries[1..][i] == entries[i + 1];
    }
  }

  lemma EntryOfClaimant(m: Mapping, config: EdgeConfig, p: Packet)
    requires IsXdp(m) && PlanEntry(m, config).Success?
    ensures var e := PlanEntry(m, config).value;
            && (XdpClaims(m, p) <==>
                e.key.edgeIp == p.daddr && Speaks(p, e.key.protocol) && e.key.publicPort == p.dport)
            && Serves(e, m) && m.protocol == e.key.protocol && m.protocol != All
  {
  }

  lemma AcceptedPlanGoverns(ms: seq<Mapping>, config: EdgeConfig)
    requires Accepts(ms, config)
    ensures PlanEntries(XdpRows(ms), config).Success? && PlanGoverns(PlanEntries(XdpRows(ms), config).value, ms)
  {
    AcceptedRowsPlan(ms, config);
    var rows, entries := XdpRows(ms), PlanEntries(XdpRows(ms), config).value;
    hide Accepts, PlanEntries, PlanEntry, XdpClaims, Speaks;
    forall p: Packet
      ensures forall m :: m in ms && XdpClaims(m, p) ==>
                FindEntry(entries, p).Some? && Serves(FindEntry(entries, p).value, m)
      ensures (forall m :: m in ms ==> !XdpClaims(m, p)) ==> FindEntry(entries, p) == None
    {
      PlanGovernsPacket(ms, rows, entries, config, p);
    }
  }

  lemma PlanGovernsPacket(ms: seq<Mapping>, rows: seq<Mapping>, entries: seq<Entry>, config: EdgeConfig, p: Packet)
    requires rows == XdpRows(ms) && |entries| == |rows|
    requires forall i :: 0 <= i < |rows| ==> PlanEntry(rows[i], config) == Success(entries[i])
    requires forall i, j :: 0 <= i < j < |rows| ==> entries[i].key != entries[j].key
    ensures forall m :: m in ms && XdpClaims(m, p) ==>
              FindEntry(entries, p).Some? && Serves(FindEntry(entries, p).value, m)
    ensures (forall m :: m in ms ==> !XdpClaims(m, p)) ==> FindEntry(entries, p) == None
  {
    hide PlanEntry, Speaks, FindEntry;
    FoundEntry(entries, p);
    forall i | 0 <= i < |rows|
      ensures rows[i] in ms && IsXdp(rows[i])
      ensures var e := entries[i];
              && (XdpClaims(rows[i], p) <==>
                  e.key.edgeIp == p.daddr && Speaks(p, e.key.protocol) && e.key.publicPort == p.dport)
              && Serves(e, rows[i])
    {
      assert rows[i] in rows;
      EntryOfClaimant(rows[i], config, p);
    }
    forall m | m in ms && XdpClaims(m, p)
      ensures FindEntry(entries, p).Some? && Serves(FindEntry(entries, p).value, m)
    {
      assert m in rows;
      var j :| 0 <= j < |rows| && rows[j] == m;
      var i :| 0 <= i < |entries| && entries[i] == FindEntry(entries, p).value && entries[i].key.edgeIp == p.daddr
               && Speaks(p, entries[i].key.protocol) && entries[i].key.publicPort == p.dport;
      SameProtocol(p, entries[i].key.protocol, entries[j].key.protocol);
      assert entries[i].key == entries[j].key;
      assert i == j;
    }
  }

  lemma SameProtocol(p: Packet, x: Protocol, y: Protocol)
    requires Speaks(p, x) && Speaks(p, y)
    ensures x == y
  {
  }

  method MakePlan(xdp: XdpConfig, ms: seq<Mapping>, config: EdgeConfig) returns (r: Result<Plan, XdpError>)
    ensures r == PlanOf(xdp, ms, config)
    ensures r.Success? ==>
              r.value.iface == xdp.iface && r.value.pinPath == xdp.pinPath && r.value.attachMode == xdp.attachMode
    ensures Accepts(ms, config) && r.Success? ==> PlanGoverns(r.value.entries, ms)
  {
    if Accepts(ms, config) {
      AcceptedPlanGoverns(ms, config);
    }
    hide Accepts, PlanEntry, PlanGoverns;
    if !ValidXdpConfig(xdp) {
      return Failure(XdpConfigInvalid);
    }
    var rows := XdpRows(ms);
    if !xdp.enabled && rows != [] {
      return Failure(XdpDisabled(Names(rows)));
    }
    var entries: seq<Entry> := [];
    for i := 0 to |rows|
      invariant PlanEntries(rows[..i], config) == Success(entries)
    {
      assert rows[..i + 1][..i] == rows[..i];
      var planned := PlanEntry(rows[i], config);
      if planned.Failure? {
        FirstFailureStands(rows, config, i + 1);
        return Failure(planned.error);
      }
      entries := entries + [planned.value];
    }
    assert rows[..|rows|] == rows;
    return Success(Plan(xdp.iface, xdp.pinPath, xdp.attachMode, entries));
  }

  function EnabledCount(ms: seq<Mapping>): nat {
    if ms == [] then 0 else EnabledCount(ms[..|ms| - 1]) + if ms[|ms| - 1].enabled then 1 else 0
  }

  // Each enabled row of an accepted list is handled exactly once, by exactly one back end form.
  lemma {:induction false} BackendsPartition(ms: seq<Mapping>, config: EdgeConfig)
    requires Accepts(ms, config)
    ensures |Elements(ms)| + |Forwards(ms, config.wan)| + |XdpRows(ms)| == EnabledCount(ms)
    ensures forall m :: m in ms && m.enabled ==>
              && (IsElement(m) || IsForward(m) || IsXdp(m))
              && !(IsElement(m) && IsForward(m)) && !(IsElement(m) && IsXdp(m)) && !(IsForward(m) && IsXdp(m))
  {
    if ms != [] {
      var front, last := ms[..|ms| - 1], ms[|ms| - 1];
      BackendsPartition(front, config);
      assert ms == front + [last];
      assert ValidMapping(ms[|ms| - 1], config);
    }
  }

  // The nft chain leaves alone every packet that an XDP entry claims.
  lemma NftIgnoresXdpTraffic(ms: seq<Mapping>, config: EdgeConfig, table: string, i: nat, p: Packet)
    requires Accepts(ms, config)
    requires PlanEntries(XdpRows(ms), config).Success? && i < |PlanEntries(XdpRows(ms), config).value|
    requires EntryClaims(PlanEntries(XdpRows(ms), config).value[i], p)
    ensures Translate(Compile(ms, config, table), p) == Untouched
  {
    AcceptedRowsPlan(ms, config);
    var x := XdpRows(ms)[i];
    assert x in ms;
    var k :| 0 <= k < |ms| && ms[k] == x;
    CompileCorrect(ms, config, table, p);
    forall m | m in ms
      ensures !Claims(m, config.wan, p)
    {
      var l :| 0 <= l < |ms| && ms[l] == m;
      assert ValidMapping(ms[l], config);
      XdpRowOwnsItsTuple(x, m, config, p);
    }
  }

  lemma XdpRowOwnsItsTuple(x: Mapping, m: Mapping, config: EdgeConfig, p: Packet)
    requires ValidMapping(m, config) && IsXdp(x) && PlanEntry(x, config).Success?
    requires EntryClaims(PlanEntry(x, config).value, p)
    ensures Claims(m, config.wan, p) ==> Clash(x, m) && Clash(m, x) && m.backend == Nft
  {
    assert ValidateMode(m).Pass?;
  }
}
