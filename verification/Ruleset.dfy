// The nftables ruleset as a value, what it does to a packet, and the mapping list it stands for.
module Ruleset {
  import opened Wrappers
  import opened Addresses
  import opened Mappings
  import opened Validation

  // One entry of the map `edge_to_target`.
  datatype Element = Element(key: Addr, target: Addr)

  // One `dnat` rule of the prerouting chain.
  datatype Forward = Forward(iif: string, daddr: Addr, protocol: Protocol, dport: Port, target: Addr, targetPort: Port)

  // One `masquerade` rule of the postrouting chain.
  datatype Masquerade = Masquerade(oif: string, cidr: Cidr)

  datatype Ruleset = Ruleset(
    table: string, elements: seq<Element>, forwards: seq<Forward>, masquerades: seq<Masquerade>)

  datatype Packet = Packet(iif: string, protocol: Byte, daddr: Addr, dport: Port)

  datatype Verdict = Untouched | Rewritten(ip: Addr, port: Port)

  // ---- What a ruleset does ----

  predicate Matches(f: Forward, p: Packet) {
    f.iif == p.iif && f.daddr == p.daddr && ProtocolNumber(f.protocol) == p.protocol && f.dport == p.dport
  }

  function FirstMatch(fs: seq<Forward>, p: Packet): Option<Forward> {
    if fs == [] then None else if Matches(fs[0], p) then Some(fs[0]) else FirstMatch(fs[1..], p)
  }

  function Lookup(es: seq<Element>, ip: Addr): Option<Addr> {
    if es == [] then None else if es[0].key == ip then Some(es[0].target) else Lookup(es[1..], ip)
  }

  // The prerouting chain: the first matching rule wins, and only a packet that no rule matches
  // reaches the map, where a miss leaves it alone.
  function Translate(rs: Ruleset, p: Packet): Verdict {
    match FirstMatch(rs.forwards, p)
    case Some(f) => Rewritten(f.target, f.targetPort)
    case None =>
      match Lookup(rs.elements, p.daddr)
      case Some(target) => Rewritten(target, p.dport)
      case None => Untouched
  }

  predicate Masqueraded(rs: Ruleset, oif: string, ip: Addr) {
    exists i :: 0 <= i < |rs.masquerades| && rs.masquerades[i].oif == oif && Contains(rs.masquerades[i].cidr, ip)
  }

  // ---- The ruleset of a mapping list ----

  predicate IsElement(m: Mapping) {
    m.enabled && m.backend == Nft && m.mode == OneToOneSnat
  }

  predicate IsForward(m: Mapping) {
    m.enabled && m.backend == Nft && m.mode == PortForwardSnat
  }

  function PortOr0(port: Option<Port>): Port {
    match port
    case Some(value) => value
    case None => 0
  }

  function ElementOf(m: Mapping): Element {
    Element(m.edgeIp, m.targetIp)
  }

  function ForwardOf(m: Mapping, wan: string): Forward {
    Forward(wan, m.edgeIp, m.protocol, PortOr0(m.publicPort), m.targetIp, PortOr0(m.targetPort))
  }

  function Elements(ms: seq<Mapping>): seq<Element> {
    if ms == [] then []
    else Elements(ms[..|ms| - 1]) + if IsElement(ms[|ms| - 1]) then [ElementOf(ms[|ms| - 1])] else []
  }

  function Forwards(ms: seq<Mapping>, wan: string): seq<Forward> {
    if ms == [] then []
    else Forwards(ms[..|ms| - 1], wan) + if IsForward(ms[|ms| - 1]) then [ForwardOf(ms[|ms| - 1], wan)] else []
  }

  function Masquerades(cidrs: seq<Cidr>, netbird: string): seq<Masquerade> {
    if cidrs == [] then []
    else Masquerades(cidrs[..|cidrs| - 1], netbird) + [Masquerade(netbird, cidrs[|cidrs| - 1])]
  }

  function Compile(ms: seq<Mapping>, config: EdgeConfig, table: string): Ruleset {
    Ruleset(table, Elements(ms), Forwards(ms, config.wan), Masquerades(config.targetCidrs, config.netbird))
  }

  // ---- What a mapping list means ----

  // The packet is of this protocol: TCP is number 6 and UDP number 17.
  predicate Speaks(p: Packet, protocol: Protocol) {
    p.protocol == match protocol { case Tcp => 6 case Udp => 17 case All => 0 }
  }

  // The mapping is meant to rewrite this packet: it is switched on for nft and owns the address,
  // and a port forward owns one port of one protocol there, for packets from the WAN interface.
  predicate Claims(m: Mapping, wan: string, p: Packet) {
    && m.enabled && m.backend == Nft && m.edgeIp == p.daddr
    && (m.mode == PortForwardSnat ==>
          p.iif == wan && Speaks(p, m.protocol) && PortOr0(m.publicPort) == p.dport)
  }

  function Destination(m: Mapping, p: Packet): Verdict {
    Rewritten(m.targetIp, if m.mode == OneToOneSnat then p.dport else PortOr0(m.targetPort))
  }

  // ---- Proofs ----

  lemma {:induction false} ElementsMembers(ms: seq<Mapping>, e: Element)
    ensures e in Elements(ms) <==> exists i :: 0 <= i < |ms| && IsElement(ms[i]) && ElementOf(ms[i]) == e
  {
    if ms != [] {
      var front := ms[..|ms| - 1];
      ElementsMembers(front, e);
      assert forall i :: 0 <= i < |front| ==> front[i] == ms[i];
    }
  }

  lemma {:induction false} ForwardsMembers(ms: seq<Mapping>, wan: string, f: Forward)
    ensures f in Forwards(ms, wan) <==> exists i :: 0 <= i < |ms| && IsForward(ms[i]) && ForwardOf(ms[i], wan) == f
  {
    if ms != [] {
      var front := ms[..|ms| - 1];
      ForwardsMembers(front, wan, f);
      assert forall i :: 0 <= i < |front| ==> front[i] == ms[i];
    }
  }

  lemma {:induction false} MasqueradesAt(cidrs: seq<Cidr>, netbird: string)
    ensures |Masquerades(cidrs, netbird)| == |cidrs|
    ensures forall i :: 0 <= i < |cidrs| ==> Masquerades(cidrs, netbird)[i] == Masquerade(netbird, cidrs[i])
  {
    if cidrs != [] {
      MasqueradesAt(cidrs[..|cidrs| - 1], netbird);
    }
  }

  lemma {:induction false} FirstMatchMember(fs: seq<Forward>, p: Packet)
    ensures match FirstMatch(fs, p)
            case Some(f) => f in fs && Matches(f, p)
            case None => forall f :: f in fs ==> !Matches(f, p)
  {
    if fs != [] && !Matches(fs[0], p) {
      FirstMatchMember(fs[1..], p);
      assert fs == [fs[0]] + fs[1..];
    }
  }

  lemma {:induction false} LookupMember(es: seq<Element>, ip: Addr)
    ensures match Lookup(es, ip)
            case Some(target) => Element(ip, target) in es
            case None => forall e :: e in es ==> e.key != ip
  {
    if es != [] && es[0].key != ip {
      LookupMember(es[1..], ip);
      assert es == [es[0]] + es[1..];
    }
  }

  // At most one row of an accepted list claims a packet.
  lemma OneClaimant(ms: seq<Mapping>, config: EdgeConfig, wan: string, p: Packet, i: nat, j: nat)
    requires Accepts(ms, config)
    requires i < |ms| && j < |ms| && Claims(ms[i], wan, p) && Claims(ms[j], wan, p)
    ensures i == j
  {
  }

  // A rewrite comes from a row that claims the packet.
  lemma RewriteHasClaimant(ms: seq<Mapping>, config: EdgeConfig, table: string, p: Packet)
    requires Translate(Compile(ms, config, table), p).Rewritten?
    ensures exists i :: 0 <= i < |ms| && Claims(ms[i], config.wan, p)
                        && Translate(Compile(ms, config, table), p) == Destination(ms[i], p)
  {
    var fs, es := Forwards(ms, config.wan), Elements(ms);
    FirstMatchMember(fs, p);
    LookupMember(es, p.daddr);
    match FirstMatch(fs, p) {
      case Some(f) =>
        ForwardsMembers(ms, config.wan, f);
      case None =>
        ElementsMembers(ms, Element(p.daddr, Lookup(es, p.daddr).value));
    }
  }

  lemma ClaimIsRewritten(ms: seq<Mapping>, config: EdgeConfig, table: string, p: Packet, i: nat)
    requires i < |ms| && Claims(ms[i], config.wan, p)
    ensures Translate(Compile(ms, config, table), p).Rewritten?
  {
    FirstMatchMember(Forwards(ms, config.wan), p);
    LookupMember(Elements(ms), p.daddr);
    ForwardsMembers(ms, config.wan, ForwardOf(ms[i], config.wan));
    ElementsMembers(ms, ElementOf(ms[i]));
  }

  // The compiled chain rewrites a packet to a destination exactly when some enabled nft row
  // prescribes that destination for it, and leaves every other packet alone.
  lemma CompileCorrect(ms: seq<Mapping>, config: EdgeConfig, table: string, p: Packet)
    requires Accepts(ms, config)
    ensures forall m :: m in ms && Claims(m, config.wan, p) ==>
              Translate(Compile(ms, config, table), p) == Destination(m, p)
    ensures (forall m :: m in ms ==> !Claims(m, config.wan, p)) ==>
              Translate(Compile(ms, config, table), p) == Untouched
  {
    var verdict := Translate(Compile(ms, config, table), p);
    if verdict.Rewritten? {
      RewriteHasClaimant(ms, config, table, p);
    }
    forall m | m in ms && Claims(m, config.wan, p)
      ensures verdict == Destination(m, p)
    {
      var i :| 0 <= i < |ms| && ms[i] == m;
      ClaimIsRewritten(ms, config, table, p, i);
      var j :| 0 <= j < |ms| && Claims(ms[j], config.wan, p) && verdict == Destination(ms[j], p);
      OneClaimant(ms, config, config.wan, p, i, j);
    }
  }

  // Reordering the rows changes neither acceptance nor what happens to any packet.
  lemma OrderIrrelevant(ms: seq<Mapping>, other: seq<Mapping>, config: EdgeConfig, table: string, p: Packet)
    requires multiset(ms) == multiset(other)
    requires Accepts(ms, config)
    ensures Accepts(other, config)
    ensures Translate(Compile(ms, config, table), p) == Translate(Compile(other, config, table), p)
  {
    AcceptsAnyOrder(ms, other, config);
    CompileCorrect(ms, config, table, p);
    CompileCorrect(other, config, table, p);
    assert forall m :: m in ms <==> m in multiset(ms);
    assert forall m :: m in other <==> m in multiset(other);
    if m :| m in ms && Claims(m, config.wan, p) {
      assert m in multiset(other);
    }
  }

  // Every packet that prerouting rewrites and that leaves on the NetBird interface is masqueraded.
  lemma RewrittenIsMasqueraded(ms: seq<Mapping>, config: EdgeConfig, table: string, p: Packet)
    requires Accepts(ms, config)
    requires Translate(Compile(ms, config, table), p).Rewritten?
    ensures Masqueraded(Compile(ms, config, table), config.netbird, Translate(Compile(ms, config, table), p).ip)
  {
    RewriteHasClaimant(ms, config, table, p);
    var i :| 0 <= i < |ms| && Claims(ms[i], config.wan, p)
             && Translate(Compile(ms, config, table), p) == Destination(ms[i], p);
    AcceptedTargetIsCovered(ms[i], config);
    var k :| 0 <= k < |config.targetCidrs| && Contains(config.targetCidrs[k], ms[i].targetIp);
    MasqueradesAt(config.targetCidrs, config.netbird);
    assert Compile(ms, config, table).masquerades[k] == Masquerade(config.netbird, config.targetCidrs[k]);
  }

  lemma CompileSnoc(ms: seq<Mapping>, m: Mapping, wan: string)
    ensures Elements(ms + [m]) == Elements(ms) + if IsElement(m) then [ElementOf(m)] else []
    ensures Forwards(ms + [m], wan) == Forwards(ms, wan) + if IsForward(m) then [ForwardOf(m, wan)] else []
  {
  }

  lemma {:induction false} OffAsRemoved(ms: seq<Mapping>, id: string, now: Time, wan: string)
    ensures Elements(SwitchedOff(ms, id, now)) == Elements(Without(ms, id))
    ensures Forwards(SwitchedOff(ms, id, now), wan) == Forwards(Without(ms, id), wan)
  {
    if ms != [] {
      var front, last := ms[..|ms| - 1], ms[|ms| - 1];
      OffAsRemoved(front, id, now, wan);
      var off, kept := SwitchedOff(front, id, now), Without(front, id);
      CompileSnoc(off, OffIfNamed(last, id, now), wan);
      if last.id == id {
        assert Without(ms, id) == kept;
      } else {
        CompileSnoc(kept, last, wan);
      }
    }
  }

  // Switching a row off compiles to the same ruleset as removing it.
  lemma OffCompilesAsRemoved(ms: seq<Mapping>, id: string, now: Time, config: EdgeConfig, table: string)
    ensures Compile(SwitchedOff(ms, id, now), config, table) == Compile(Without(ms, id), config, table)
  {
    OffAsRemoved(ms, id, now, config.wan);
  }
}
