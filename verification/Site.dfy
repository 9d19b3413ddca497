// A small site: its configuration and one-to-one rows for it, the inputs of the concrete runs.
module Site {
  import opened Wrappers
  import opened Addresses
  import opened Mappings
  import opened Validation

  const SITE := EdgeConfig("ens3", "wt0", [Cidr(Addr(192, 168, 20, 0), 24)])

  // The same site with another target network.
  const MOVED := SITE.(targetCidrs := [Cidr(Addr(192, 168, 30, 0), 24)])

  const PUBLIC := Addr(8, 8, 8, 8)

  function SiteRow(id: string, edge: Byte, target: Byte, publicIp: Option<Addr>): Mapping {
    Mapping(id, "vm", publicIp, None, Addr(10, 0, 0, edge), None, Addr(192, 168, 20, target), None, None,
            All, OneToOneSnat, Nft, true, Pending, None, None, None, 0, 0)
  }

  // An XDP port forward.
  function XdpSiteRow(id: string, edge: Byte, target: Byte): Mapping {
    SiteRow(id, edge, target, None).(mode := PortForwardSnat, protocol := Tcp, backend := Xdp, publicPort := Some(443),
                                     targetPort := Some(8443))
  }

  lemma XdpSiteRowIsValid(id: string, edge: Byte, target: Byte)
    requires 1 <= target <= 254
    ensures ValidMapping(XdpSiteRow(id, edge, target), SITE)
  {
    SiteTargetIsValid(target);
    assert ValidName("vm");
  }

  lemma SiteIsValid()
    ensures ValidateEdgeConfig(SITE).Pass? && ValidateEdgeConfig(MOVED).Pass?
  {
  }

  lemma SiteTargetIsValid(target: Byte)
    requires 1 <= target <= 254
    ensures ValidateTargetIp(Addr(192, 168, 20, target), SITE.targetCidrs).Pass?
  {
    var ip, block := Addr(192, 168, 20, target), Cidr(Addr(192, 168, 20, 0), 24);
    SmallPowers();
    assert Pow2(8) == 256;
    ContainsIsRange(block, ip);
    assert Network(block) == 192 * 0x100_0000 + 168 * 0x1_0000 + 20 * 0x100;
  }

  lemma SiteRowIsValid(id: string, edge: Byte, target: Byte, publicIp: Option<Addr>)
    requires 1 <= target <= 254 && (publicIp.Some? ==> !IsReservedOrPrivate(publicIp.value))
    ensures ValidMapping(SiteRow(id, edge, target, publicIp), SITE)
  {
    SiteTargetIsValid(target);
    assert ValidName("vm");
  }

  lemma SiteRowIsInvalidAfterTheMove(id: string, edge: Byte, target: Byte, publicIp: Option<Addr>)
    ensures !ValidMapping(SiteRow(id, edge, target, publicIp), MOVED)
  {
    var ip, block := Addr(192, 168, 20, target), Cidr(Addr(192, 168, 30, 0), 24);
    SmallPowers();
    assert Pow2(8) == 256;
    ContainsIsRange(block, ip);
    assert Network(block) == 192 * 0x100_0000 + 168 * 0x1_0000 + 30 * 0x100;
    assert ValidateTargetIp(ip, [block]).Fail?;
  }
}
