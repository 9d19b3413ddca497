// What the control plane accepts: one mapping, and a list of mappings together.
module Validation {
  import opened Wrappers
  import opened Addresses
  import opened Mappings
  import Text

  datatype Reason =
    | BadInterfaceName | NoTargetCidrs | UnspecifiedCidr
    | BadName | PublicIpNotRoutable | EdgeIpNotPrivate
    | TargetOutsideCidrs | TargetIsNetworkOrBroadcast
    | PublicEqualsEdge | EdgeEqualsTarget
    | XdpNeedsPortForward | ProxyUnimplemented
    | OneToOneWithPublicPort | BadTargetPort | OneToOneNeedsAll
    | PublicPortRequired | BadPublicPort | TargetPortRequired | PortForwardNeedsTcpOrUdp
    | UnnamedConflict | EmptyMappingId

  datatype StoreProblem = ConfigMissing | BadPort | BadAddress | BadEnum | StatementFailed

  datatype Error =
    | Validation(reason: Reason)
    | NotFound(id: string)
    | DuplicatePublicIp(ip: Addr)
    | DuplicateEdgePrivateIp(ip: Addr)
    | DuplicateTargetIp(ip: Addr)
    | DuplicateMappingId(id: string)
    | Store(problem: StoreProblem)

  // ---- The edge configuration ----

  function Utf8Length(s: string): nat {
    if s == "" then 0
    else
      var n := s[0] as int;
      (if n < 0x80 then 1 else if n < 0x800 then 2 else if n < 0x1_0000 then 3 else 4) + Utf8Length(s[1..])
  }

  predicate ValidInterfaceName(name: string) {
    var trimmed := Text.Trim(name);
    && trimmed != ""
    && Utf8Length(trimmed) <= 15
    && '/' !in trimmed && '\0' !in trimmed
    && trimmed != "." && trimmed != ".."
  }

  function ValidateEdgeConfig(config: EdgeConfig): Outcome<Error> {
    if !ValidInterfaceName(config.wan) || !ValidInterfaceName(config.netbird) then
      Fail(Validation(BadInterfaceName))
    else if config.targetCidrs == [] then Fail(Validation(NoTargetCidrs))
    else if exists i :: 0 <= i < |config.targetCidrs| && config.targetCidrs[i].addr == Addr(0, 0, 0, 0) then
      Fail(Validation(UnspecifiedCidr))
    else Pass
  }

  // ---- One mapping ----

  predicate NameChar(c: char) {
    'a' <= c <= 'z' || 'A' <= c <= 'Z' || '0' <= c <= '9' || c == '-' || c == '_'
  }

  predicate ValidName(name: string) {
    var trimmed := Text.Trim(name);
    && 0 < |trimmed| <= 63
    && forall i :: 0 <= i < |trimmed| ==> NameChar(trimmed[i])
  }

  predicate IsNetworkOrBroadcast(ip: Addr, cidr: Cidr) {
    cidr.prefix < 31 && (Num(ip) == Network(cidr) || Num(ip) == Broadcast(cidr))
  }

  // Only the first block that holds the target is looked at.
  function ValidateTargetIp(ip: Addr, cidrs: seq<Cidr>): (r: Outcome<Error>)
    ensures r.Pass? || r.error in {Validation(TargetOutsideCidrs), Validation(TargetIsNetworkOrBroadcast)}
  {
    if cidrs == [] then Fail(Validation(TargetOutsideCidrs))
    else if !Contains(cidrs[0], ip) then ValidateTargetIp(ip, cidrs[1..])
    else if IsNetworkOrBroadcast(ip, cidrs[0]) then Fail(Validation(TargetIsNetworkOrBroadcast))
    else Pass
  }

  function ValidateMode(m: Mapping): Outcome<Error> {
    match m.mode
    case OneToOneSnat =>
      if m.publicPort.Some? then Fail(Validation(OneToOneWithPublicPort))
      else if m.targetPort == Some(0) then Fail(Validation(BadTargetPort))
      else if m.protocol != All then Fail(Validation(OneToOneNeedsAll))
      else Pass
    case PortForwardSnat =>
      if m.publicPort.None? then Fail(Validation(PublicPortRequired))
      else if m.publicPort == Some(0) then Fail(Validation(BadPublicPort))
      else if m.targetPort.None? then Fail(Validation(TargetPortRequired))
      else if m.targetPort == Some(0) then Fail(Validation(BadTargetPort))
      else if m.protocol == All then Fail(Validation(PortForwardNeedsTcpOrUdp))
      else Pass
  }

  // The check that public and edge addresses differ can never fire: a routable address is never
  // a private one.
  function ValidateMapping(m: Mapping, config: EdgeConfig): (r: Outcome<Error>)
    ensures r != Fail(Validation(PublicEqualsEdge))
  {
    if !ValidName(m.name) then Fail(Validation(BadName))
    else if m.publicIp.Some? && IsReservedOrPrivate(m.publicIp.value) then Fail(Validation(PublicIpNotRoutable))
    else if !IsPrivate(m.edgeIp) then Fail(Validation(EdgeIpNotPrivate))
    else
      var target := ValidateTargetIp(m.targetIp, config.targetCidrs);
      if target.Fail? then Fail(target.error)
      else if m.publicIp == Some(m.edgeIp) then Fail(Validation(PublicEqualsEdge))
      else if m.edgeIp == m.targetIp then Fail(Validation(EdgeEqualsTarget))
      else if m.backend == Xdp && m.mode != PortForwardSnat then Fail(Validation(XdpNeedsPortForward))
      else if m.backend == Proxy then Fail(Validation(ProxyUnimplemented))
      else ValidateMode(m)
  }

  predicate ValidMapping(m: Mapping, config: EdgeConfig) {
    ValidateMapping(m, config).Pass?
  }

  // A target is accepted exactly when some block holds it, and the first such block is a /31 or
  // a /32 or holds it strictly between its network and its broadcast address.
  lemma {:induction false} TargetAcceptedExactly(ip: Addr, cidrs: seq<Cidr>)
    ensures ValidateTargetIp(ip, cidrs).Pass? <==>
            exists k :: FirstHolder(ip, cidrs, k) &&
                        (cidrs[k].prefix >= 31 || Network(cidrs[k]) < Num(ip) < Broadcast(cidrs[k]))
  {
    if cidrs != [] {
      ContainsIsRange(cidrs[0], ip);
      if Contains(cidrs[0], ip) {
        assert FirstHolder(ip, cidrs, 0);
        assert forall k :: FirstHolder(ip, cidrs, k) ==> k == 0;
      } else {
        var rest := cidrs[1..];
        TargetAcceptedExactly(ip, rest);
        assert forall k :: FirstHolder(ip, rest, k) ==> FirstHolder(ip, cidrs, k + 1) && cidrs[k + 1] == rest[k];
        assert forall k :: FirstHolder(ip, cidrs, k) ==> k > 0 && FirstHolder(ip, rest, k - 1) by {
          forall k | FirstHolder(ip, cidrs, k)
            ensures k > 0 && FirstHolder(ip, rest, k - 1)
          {
            assert forall j :: 0 <= j < k - 1 ==> rest[j] == cidrs[j + 1];
          }
        }
      }
    }
  }

  // The first block that holds the address.
  predicate FirstHolder(ip: Addr, cidrs: seq<Cidr>, k: int) {
    && 0 <= k < |cidrs|
    && Contains(cidrs[k], ip)
    && forall j :: 0 <= j < k ==> !Contains(cidrs[j], ip)
  }

  lemma AcceptedTargetIsCovered(m: Mapping, config: EdgeConfig)
    requires ValidMapping(m, config)
    ensures ContainsTarget(config, m.targetIp)
  {
    TargetAcceptedExactly(m.targetIp, config.targetCidrs);
  }

  lemma ValidPortForwardHasPort(m: Mapping, config: EdgeConfig)
    requires ValidMapping(m, config)
    ensures m.mode == PortForwardSnat ==> m.publicPort.Some? && m.targetPort.Some? && m.protocol != All
  {
  }

  // ---- Pairs ----

  predicate Conflicts(x: Mapping, y: Mapping) {
    && x.enabled
    && y.enabled
    && match (x.mode, y.mode)
       case (OneToOneSnat, OneToOneSnat) => x.edgeIp == y.edgeIp || x.targetIp == y.targetIp
       case (PortForwardSnat, PortForwardSnat) =>
         x.edgeIp == y.edgeIp && x.protocol == y.protocol && x.publicPort == y.publicPort
       case _ => x.edgeIp == y.edgeIp
  }

  // Both name the same public address and one of them claims all of it.
  predicate SharesPublicIp(x: Mapping, y: Mapping) {
    x.publicIp.Some? && x.publicIp == y.publicIp && (x.mode == OneToOneSnat || y.mode == OneToOneSnat)
  }

  predicate Clash(x: Mapping, y: Mapping) {
    Conflicts(x, y) || SharesPublicIp(x, y)
  }

  function ConflictError(x: Mapping, y: Mapping): Error {
    if x.mode == OneToOneSnat && y.mode == OneToOneSnat && x.targetIp == y.targetIp then
      DuplicateTargetIp(x.targetIp)
    else if x.edgeIp == y.edgeIp then DuplicateEdgePrivateIp(x.edgeIp)
    else Validation(UnnamedConflict)
  }

  function PairError(x: Mapping, y: Mapping): Error
    requires Clash(x, y)
  {
    if Conflicts(x, y) then ConflictError(x, y) else DuplicatePublicIp(x.publicIp.value)
  }

  // The unnamed conflict is never reported, the error names the address the pair shares, and of
  // several reasons a conflict comes before a shared public address, and in it the target comes first.
  lemma PairErrorNamesSharedAddress(x: Mapping, y: Mapping)
    requires Clash(x, y)
    ensures match PairError(x, y)
            case DuplicateTargetIp(ip) => x.targetIp == ip == y.targetIp && x.mode == y.mode == OneToOneSnat
            case DuplicateEdgePrivateIp(ip) => x.edgeIp == ip == y.edgeIp
            case DuplicatePublicIp(ip) => x.publicIp == Some(ip) == y.publicIp
            case _ => false
    ensures PairError(x, y).DuplicatePublicIp? <==> !Conflicts(x, y)
    ensures Conflicts(x, y) ==>
              (PairError(x, y).DuplicateTargetIp? <==> x.mode == y.mode == OneToOneSnat && x.targetIp == y.targetIp)
  {
  }

  // ---- Lists ----

  ghost predicate AllValid(ms: seq<Mapping>, config: EdgeConfig) {
    forall i :: 0 <= i < |ms| ==> ValidMapping(ms[i], config)
  }

  ghost predicate ClashFree(ms: seq<Mapping>) {
    forall i, j :: 0 <= i < j < |ms| ==> !Clash(ms[i], ms[j])
  }

  // Each member is valid and no two members clash.
  ghost predicate Accepts(ms: seq<Mapping>, config: EdgeConfig) {
    AllValid(ms, config) && ClashFree(ms)
  }

  ghost predicate FirstInvalid(ms: seq<Mapping>, config: EdgeConfig, i: nat) {
    && i < |ms|
    && !ValidMapping(ms[i], config)
    && AllValid(ms[..i], config)
  }

  // The first clashing pair in lexicographic order.
  ghost predicate FirstClash(ms: seq<Mapping>, i: nat, j: nat) {
    && i < j < |ms|
    && Clash(ms[i], ms[j])
    && (forall k, l :: 0 <= k < i && k < l < |ms| ==> !Clash(ms[k], ms[l]))
    && (forall l :: i < l < j ==> !Clash(ms[i], ms[l]))
  }

  // The error reported for a list: that of its first invalid member, else of its first clashing pair.
  ghost predicate Explains(ms: seq<Mapping>, config: EdgeConfig, e: Error) {
    || (exists i: nat :: FirstInvalid(ms, config, i) && ValidateMapping(ms[i], config) == Fail(e))
    || (AllValid(ms, config) && exists i: nat, j: nat :: FirstClash(ms, i, j) && PairError(ms[i], ms[j]) == e)
  }

  method ValidateMappings(ms: seq<Mapping>, config: EdgeConfig) returns (r: Outcome<Error>)
    ensures r.Pass? <==> Accepts(ms, config)
    ensures r.Fail? ==> Explains(ms, config, r.error)
  {
    hide ValidateMapping, Conflicts;
    var publicIps: set<Addr> := {};
    for i := 0 to |ms|
      invariant AllValid(ms[..i], config)
    {
      var one := ValidateMapping(ms[i], config);
      if one.Fail? {
        assert FirstInvalid(ms, config, i);
        return one;
      }
    }
    assert ms[..|ms|] == ms;
    for i := 0 to |ms|
      invariant forall k, l :: 0 <= k < i && k < l < |ms| ==> !Clash(ms[k], ms[l])
      invariant forall ip :: ip in publicIps ==>
                  exists k :: 0 <= k < i && ms[k].mode == OneToOneSnat && ms[k].publicIp == Some(ip)
    {
      if ms[i].publicIp.Some? && ms[i].mode == OneToOneSnat {
        if ms[i].publicIp.value in publicIps {
          // Unreachable: the pass over the pairs of the earlier row has already rejected the list.
          assert false;
        }
        publicIps := publicIps + {ms[i].publicIp.value};
      }
      for j := i + 1 to |ms|
        invariant forall l :: i < l < j ==> !Clash(ms[i], ms[l])
      {
        if Conflicts(ms[i], ms[j]) {
          assert FirstClash(ms, i, j);
          return Fail(ConflictError(ms[i], ms[j]));
        }
        if SharesPublicIp(ms[i], ms[j]) {
          assert FirstClash(ms, i, j);
          return Fail(DuplicatePublicIp(ms[i].publicIp.value));
        }
      }
    }
    return Pass;
  }

  // ---- Reordering, switching off and removing rows ----

  lemma {:induction false} TwiceIn(ms: seq<Mapping>, m: Mapping)
    ensures multiset(ms)[m] >= 2 <==> exists k, l :: 0 <= k < l < |ms| && ms[k] == m == ms[l]
  {
    if ms != [] {
      var front, last := ms[..|ms| - 1], ms[|ms| - 1];
      assert ms == front + [last];
      TwiceIn(front, m);
      assert multiset(front)[m] > 0 <==> m in front;
      if last == m && m in front {
        var k :| 0 <= k < |front| && front[k] == m;
        assert ms[k] == m == ms[|ms| - 1];
      }
    }
  }

  lemma PairAnyOrder(ms: seq<Mapping>, other: seq<Mapping>, i: nat, j: nat)
    requires multiset(ms) == multiset(other)
    requires i < j < |other|
    ensures exists k, l :: 0 <= k < |ms| && 0 <= l < |ms| && k != l && ms[k] == other[i] && ms[l] == other[j]
  {
    var x, y := other[i], other[j];
    if x == y {
      TwiceIn(other, x);
      TwiceIn(ms, x);
    } else {
      assert x in multiset(ms) && y in multiset(ms);
      var k :| 0 <= k < |ms| && ms[k] == x;
      var l :| 0 <= l < |ms| && ms[l] == y;
    }
  }

  // Acceptance does not depend on the order of the rows.
  lemma AcceptsAnyOrder(ms: seq<Mapping>, other: seq<Mapping>, config: EdgeConfig)
    requires multiset(ms) == multiset(other)
    requires Accepts(ms, config)
    ensures Accepts(other, config)
  {
    forall i | 0 <= i < |other|
      ensures ValidMapping(other[i], config)
    {
      assert other[i] in multiset(ms);
    }
    forall i, j | 0 <= i < j < |other|
      ensures !Clash(other[i], other[j])
    {
      PairAnyOrder(ms, other, i, j);
      var k, l :| 0 <= k < |ms| && 0 <= l < |ms| && k != l && ms[k] == other[i] && ms[l] == other[j];
      assert !Clash(ms[k], ms[l]) || !Clash(ms[l], ms[k]);
    }
  }

  function OffIfNamed(m: Mapping, id: string, now: Time): Mapping {
    if m.id == id then WithEnabled(m, false, now) else m
  }

  function SwitchedOff(ms: seq<Mapping>, id: string, now: Time): (r: seq<Mapping>)
    ensures |r| == |ms|
    ensures forall i :: 0 <= i < |ms| ==> r[i] == OffIfNamed(ms[i], id, now)
  {
    if ms == [] then [] else SwitchedOff(ms[..|ms| - 1], id, now) + [OffIfNamed(ms[|ms| - 1], id, now)]
  }

  function Without(ms: seq<Mapping>, id: string): (r: seq<Mapping>)
    ensures forall m :: m in r <==> m in ms && m.id != id
  {
    if ms == [] then []
    else Without(ms[..|ms| - 1], id) + (if ms[|ms| - 1].id == id then [] else [ms[|ms| - 1]])
  }

  lemma AcceptsSwitchedOff(ms: seq<Mapping>, id: string, now: Time, config: EdgeConfig)
    requires Accepts(ms, config)
    ensures Accepts(SwitchedOff(ms, id, now), config)
  {
    forall i | 0 <= i < |ms|
      ensures ValidMapping(SwitchedOff(ms, id, now)[i], config)
    {
      EnabledIrrelevantToValidity(ms[i], false, now, config);
    }
    forall i, j | 0 <= i < j < |ms|
      ensures !Clash(SwitchedOff(ms, id, now)[i], SwitchedOff(ms, id, now)[j])
    {
      assert !Clash(ms[i], ms[j]);
    }
  }

  lemma EnabledIrrelevantToValidity(m: Mapping, enabled: bool, now: Time, config: EdgeConfig)
    ensures ValidateMapping(WithEnabled(m, enabled, now), config) == ValidateMapping(m, config)
  {
  }

  lemma {:induction false} AcceptsWithout(ms: seq<Mapping>, id: string, config: EdgeConfig)
    requires Accepts(ms, config)
    ensures Accepts(Without(ms, id), config)
  {
    if ms != [] {
      var front, last := ms[..|ms| - 1], ms[|ms| - 1];
      AcceptsWithout(front, id, config);
      forall m | m in Without(front, id)
        ensures !Clash(m, last) && ValidMapping(m, config)
      {
        var k :| 0 <= k < |front| && ms[k] == m;
        assert !Clash(ms[k], ms[|ms| - 1]);
      }
    }
  }
}
