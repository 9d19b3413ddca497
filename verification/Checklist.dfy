// What makes a mapping and an edge configuration acceptable, as a list of conditions: each is
// accepted when all hold, and otherwise the first that fails is reported.
module Checklist {
  import opened Wrappers
  import opened Addresses
  import opened Mappings
  import opened Validation
  import opened Ruleset
  import Text

  datatype Check = Check(holds: bool, reason: Reason)

  ghost predicate AllHold(checks: seq<Check>) {
    forall k :: 0 <= k < |checks| ==> checks[k].holds
  }

  ghost predicate FirstFailing(checks: seq<Check>, k: int) {
    0 <= k < |checks| && !checks[k].holds && forall j :: 0 <= j < k ==> checks[j].holds
  }

  // The verdict that a list of checks calls for.
  ghost predicate Reports(checks: seq<Check>, r: Outcome<Error>) {
    && (r.Pass? <==> AllHold(checks))
    && (forall k :: FirstFailing(checks, k) ==> r == Fail(Validation(checks[k].reason)))
  }

  // ---- Mappings ----

  // 1 to 63 ASCII letters, digits, dashes and underscores.
  predicate NameCore(core: string) {
    1 <= |core| <= 63
    && forall c :: c in core ==> 'a' <= c <= 'z' || 'A' <= c <= 'Z' || '0' <= c <= '9' || c in {'-', '_'}
  }

  ghost predicate GoodName(name: string) {
    exists core :: Text.TrimsTo(name, core) && NameCore(core)
  }

  ghost predicate Routable(ip: Addr) {
    !InSomeBlock(ip, PRIVATE_BLOCKS) && !InSomeBlock(ip, SPECIAL_BLOCKS)
  }

  // The first block that holds the target is a /31, a /32, or holds it strictly inside.
  ghost predicate InsideFirstHolder(ip: Addr, cidrs: seq<Cidr>) {
    forall k :: FirstHolder(ip, cidrs, k) ==>
      cidrs[k].prefix >= 31 || Network(cidrs[k]) < Num(ip) < Broadcast(cidrs[k])
  }

  // What is asked of every mapping, in the order of the checks.
  ghost function CommonChecks(m: Mapping, config: EdgeConfig): seq<Check> {
    [ Check(GoodName(m.name), BadName),
      Check(m.publicIp.Some? ==> Routable(m.publicIp.value), PublicIpNotRoutable),
      Check(InSomeBlock(m.edgeIp, PRIVATE_BLOCKS), EdgeIpNotPrivate),
      Check(InSomeBlock(m.targetIp, config.targetCidrs), TargetOutsideCidrs),
      Check(InsideFirstHolder(m.targetIp, config.targetCidrs), TargetIsNetworkOrBroadcast),
      Check(m.edgeIp != m.targetIp, EdgeEqualsTarget),
      Check(m.backend == Xdp ==> m.mode == PortForwardSnat, XdpNeedsPortForward),
      Check(m.backend != Proxy, ProxyUnimplemented) ]
  }

  // What is asked of each mode: a one-to-one mapping takes whole addresses, a port forward one
  // TCP or UDP port.
  ghost function ModeChecks(m: Mapping): seq<Check> {
    if m.mode == OneToOneSnat then
      [ Check(m.publicPort == None, OneToOneWithPublicPort),
        Check(m.targetPort != Some(0), BadTargetPort),
        Check(m.protocol == All, OneToOneNeedsAll) ]
    else
      [ Check(m.publicPort != None, PublicPortRequired),
        Check(m.publicPort != Some(0), BadPublicPort),
        Check(m.targetPort != None, TargetPortRequired),
        Check(m.targetPort != Some(0), BadTargetPort),
        Check(m.protocol in {Tcp, Udp}, PortForwardNeedsTcpOrUdp) ]
  }

  ghost function MappingChecks(m: Mapping, config: EdgeConfig): seq<Check> {
    CommonChecks(m, config) + ModeChecks(m)
  }

  lemma NameCheckExact(name: string)
    ensures ValidName(name) <==> GoodName(name)
  {
    var trimmed := Text.Trim(name);
    Text.TrimExact(name, trimmed);
    assert NameCore(trimmed) ==> forall i :: 0 <= i < |trimmed| ==> trimmed[i] in trimmed && NameChar(trimmed[i]);
    assert ValidName(name) ==> forall c :: c in trimmed ==> NameChar(c);
    if GoodName(name) {
      var core :| Text.TrimsTo(name, core) && NameCore(core);
      Text.TrimExact(name, core);
    }
  }

  lemma {:induction false} TargetCheckExact(ip: Addr, cidrs: seq<Cidr>)
    ensures ValidateTargetIp(ip, cidrs) ==
            if !InSomeBlock(ip, cidrs) then Fail(Validation(TargetOutsideCidrs))
            else if !InsideFirstHolder(ip, cidrs) then Fail(Validation(TargetIsNetworkOrBroadcast))
            else Pass
  {
    hide Contains, Network, Broadcast;
    TargetAcceptedExactly(ip, cidrs);
    SomeHolder(ip, cidrs);
    OutsideIsReported(ip, cidrs);
    assert forall j, k :: FirstHolder(ip, cidrs, j) && FirstHolder(ip, cidrs, k) ==> j == k;
  }

  lemma {:induction false} SomeHolder(ip: Addr, cidrs: seq<Cidr>)
    ensures InSomeBlock(ip, cidrs) <==> exists k :: FirstHolder(ip, cidrs, k)
  {
    if cidrs != [] {
      var front := cidrs[..|cidrs| - 1];
      SomeHolder(ip, front);
      if k :| FirstHolder(ip, front, k) {
        assert FirstHolder(ip, cidrs, k);
      } else if Contains(cidrs[|front|], ip) {
        assert forall j :: 0 <= j < |front| ==> front[j] == cidrs[j];
        assert FirstHolder(ip, cidrs, |front|);
      } else {
        assert forall j :: 0 <= j < |cidrs| ==> j < |front| ==> front[j] == cidrs[j];
      }
    }
  }

  lemma {:induction false} OutsideIsReported(ip: Addr, cidrs: seq<Cidr>)
    ensures ValidateTargetIp(ip, cidrs) == Fail(Validation(TargetOutsideCidrs)) <==> !InSomeBlock(ip, cidrs)
  {
    if cidrs != [] {
      OutsideIsReported(ip, cidrs[1..]);
      assert forall j :: 0 < j < |cidrs| ==> cidrs[j] == cidrs[1..][j - 1];
    }
  }

  lemma ReportsInTurn(first: seq<Check>, second: seq<Check>, r: Outcome<Error>)
    requires AllHold(first) ==> Reports(second, r)
    requires !AllHold(first) ==> Reports(first, r)
    ensures Reports(first + second, r)
  {
    var both := first + second;
    assert forall k :: 0 <= k < |first| ==> both[k] == first[k];
    assert forall k :: 0 <= k < |second| ==> both[|first| + k] == second[k];
    if AllHold(first) {
      assert AllHold(both) <==> AllHold(second) by {
        assert forall k :: |first| <= k < |both| ==> both[k] == second[k - |first|];
      }
      forall k | FirstFailing(both, k)
        ensures r == Fail(Validation(both[k].reason))
      {
        assert k >= |first|;
        forall j | 0 <= j < k - |first|
          ensures second[j].holds
        {
          assert both[|first| + j] == second[j];
        }
        assert FirstFailing(second, k - |first|);
      }
    } else {
      var n :| 0 <= n < |first| && !first[n].holds;
      assert !both[n].holds;
      forall k | FirstFailing(both, k)
        ensures r == Fail(Validation(both[k].reason))
      {
        assert k <= n;
        assert FirstFailing(first, k);
      }
    }
  }

  lemma ModeAcceptedExactly(m: Mapping)
    ensures Reports(ModeChecks(m), ValidateMode(m))
  {
    var c := ModeChecks(m);
    assert [c[0], c[1], c[2]] <= c;
    assert m.mode == PortForwardSnat ==> [c[0], c[1], c[2], c[3], c[4]] == c;
  }

  lemma CommonAcceptedExactly(m: Mapping, config: EdgeConfig)
    ensures AllHold(CommonChecks(m, config)) ==> ValidateMapping(m, config) == ValidateMode(m)
    ensures !AllHold(CommonChecks(m, config)) ==> Reports(CommonChecks(m, config), ValidateMapping(m, config))
  {
    hide IsReservedOrPrivate, IsPrivate, InSomeBlock, InsideFirstHolder, GoodName, ValidName, ValidateTargetIp;
    hide ValidateMode, PRIVATE_BLOCKS, SPECIAL_BLOCKS;
    NameCheckExact(m.name);
    if m.publicIp.Some? {
      ReservedIsBlocks(m.publicIp.value);
    }
    PrivateIsRfc1918(m.edgeIp);
    TargetCheckExact(m.targetIp, config.targetCidrs);
    var c := CommonChecks(m, config);
    assert [c[0], c[1], c[2], c[3], c[4], c[5], c[6], c[7]] <= c;
  }

  // A mapping is accepted exactly when every check holds, and the first that fails is reported.
  lemma MappingAcceptedExactly(m: Mapping, config: EdgeConfig)
    ensures Reports(MappingChecks(m, config), ValidateMapping(m, config))
  {
    hide CommonChecks, ModeChecks, ValidateMapping, Reports, AllHold;
    CommonAcceptedExactly(m, config);
    ModeAcceptedExactly(m);
    ReportsInTurn(CommonChecks(m, config), ModeChecks(m), ValidateMapping(m, config));
  }

  // ---- Pairs ----

  // The packet goes to the mapping's edge address and, for a port forward, to its port.
  predicate Owns(m: Mapping, p: Packet) {
    p.daddr == m.edgeIp && (m.mode == PortForwardSnat ==> Speaks(p, m.protocol) && m.publicPort == Some(p.dport))
  }

  // Two valid mappings conflict exactly when both are on and some packet is owned by both, or both
  // hand a whole edge address to the same target.
  lemma ConflictsExactly(x: Mapping, y: Mapping, config: EdgeConfig)
    requires ValidMapping(x, config) && ValidMapping(y, config)
    ensures Conflicts(x, y) <==>
            && x.enabled && y.enabled
            && ((exists p :: Owns(x, p) && Owns(y, p))
                || (x.mode == y.mode == OneToOneSnat && x.targetIp == y.targetIp))
  {
    hide ValidateMapping;
    ValidPortForwardHasPort(x, config);
    ValidPortForwardHasPort(y, config);
    var forward := if x.mode == PortForwardSnat then x else y;
    var port := if forward.mode == PortForwardSnat then forward.publicPort.value else 0;
    var p := Packet("", match forward.protocol { case Tcp => 6 case Udp => 17 case All => 0 }, forward.edgeIp, port);
    if Conflicts(x, y) && x.edgeIp == y.edgeIp {
      assert Owns(x, p) && Owns(y, p);
    }
  }

  // ---- The edge configuration ----

  // How many characters lie at or above a code point.
  function AtLeast(s: string, bound: int): nat {
    if s == "" then 0 else (if bound <= s[0] as int then 1 else 0) + AtLeast(s[1..], bound)
  }

  // The bytes of the text in UTF-8 (section 3 of RFC 3629): one for each character, and one more
  // from each of the code points U+0080, U+0800 and U+10000 on.
  function Utf8Bytes(s: string): nat {
    |s| + AtLeast(s, 0x80) + AtLeast(s, 0x800) + AtLeast(s, 0x1_0000)
  }

  lemma {:induction false} Utf8LengthExact(s: string)
    ensures Utf8Length(s) == Utf8Bytes(s)
  {
    if s != "" {
      Utf8LengthExact(s[1..]);
    }
  }

  // A name the kernel takes for an interface, between surrounding whitespace.
  ghost predicate GoodInterface(name: string) {
    exists core ::
      && Text.TrimsTo(name, core)
      && 1 <= Utf8Bytes(core) <= 15
      && core !in {".", ".."}
      && forall c :: c in core ==> c !in {'/', '\0'}
  }

  ghost function ConfigChecks(config: EdgeConfig): seq<Check> {
    [ Check(GoodInterface(config.wan) && GoodInterface(config.netbird), BadInterfaceName),
      Check(|config.targetCidrs| >= 1, NoTargetCidrs),
      Check(forall c :: c in config.targetCidrs ==> c.addr != Addr(0, 0, 0, 0), UnspecifiedCidr) ]
  }

  lemma InterfaceCheckExact(name: string)
    ensures ValidInterfaceName(name) <==> GoodInterface(name)
  {
    var trimmed := Text.Trim(name);
    Text.TrimExact(name, trimmed);
    Utf8LengthExact(trimmed);
    if GoodInterface(name) {
      var core :| Text.TrimsTo(name, core) && 1 <= Utf8Bytes(core) <= 15 && core !in {".", ".."}
                  && forall c :: c in core ==> c !in {'/', '\0'};
      Text.TrimExact(name, core);
    }
  }

  lemma ConfigAcceptedExactly(config: EdgeConfig)
    ensures Reports(ConfigChecks(config), ValidateEdgeConfig(config))
  {
    hide ValidInterfaceName, GoodInterface;
    InterfaceCheckExact(config.wan);
    InterfaceCheckExact(config.netbird);
    var c := ConfigChecks(config);
    assert [c[0], c[1], c[2]] <= c;
  }
}
