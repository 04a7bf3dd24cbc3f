/**
 The kill-switch policy and its two compilations: one nftables `inet` chain, and one
 chain for each of iptables and ip6tables. Rules are syntax trees, not text; both
 rule languages get a first-match packet semantics.
 */
module FirewallPolicy {
  datatype Version = V4 | V6
  datatype Address = Address(version: Version, value: nat)
  datatype Endpoint = Endpoint(address: Address, port: nat)
  datatype Protocol = Tcp | Udp | OtherProtocol
  datatype CtState = New | Established | Related | Invalid | Untracked

  datatype Packet = Packet(
    version: Version, ct: CtState, oifname: string,
    daddr: nat, protocol: Protocol, sport: nat, dport: nat)

  /** An address block as the closed interval of the addresses in it. */
  datatype Network = Network(first: nat, last: nat) {
    predicate Contains(address: nat) { first <= address <= last }
  }

  /** What a list of rules does with a packet. `FallsThrough` when no rule decides, `Returned` when
      one ends the list undecided, `Queued` when one hands the packet to another program. */
  datatype Fate = Accepted | Dropped | Queued | Returned | FallsThrough

  type Decision = fate: Fate | fate.Accepted? || fate.Dropped? witness Accepted

  const TUN_INTERFACE := "BlackoutKit-TUN"

  const NET_10 := Network(0x0A00_0000, 0x0AFF_FFFF)
  const NET_172_16 := Network(0xAC10_0000, 0xAC1F_FFFF)
  const NET_192_168 := Network(0xC0A8_0000, 0xC0A8_FFFF)
  const NET_169_254 := Network(0xA9FE_0000, 0xA9FE_FFFF)
  const NET_FC00 := Network(
    0xFC00_0000_0000_0000_0000_0000_0000_0000, 0xFDFF_FFFF_FFFF_FFFF_FFFF_FFFF_FFFF_FFFF)
  const NET_FE80 := Network(
    0xFE80_0000_0000_0000_0000_0000_0000_0000, 0xFEBF_FFFF_FFFF_FFFF_FFFF_FFFF_FFFF_FFFF)

  function LocalNetworks(version: Version): seq<Network>
  {
    match version
    case V4 => [NET_10, NET_172_16, NET_192_168, NET_169_254]
    case V6 => [NET_FC00, NET_FE80]
  }

  function Host(address: Address): Network { Network(address.value, address.value) }

  // ---------------------------------------------------------------- the policy itself

  /** Traffic that leaves untouched whatever the endpoints are. */
  predicate AlwaysPermitted(p: Packet)
  {
    || p.ct in {Established, Related}
    || p.oifname in {"lo", TUN_INTERFACE}
    || exists network <- LocalNetworks(p.version) :: network.Contains(p.daddr)
  }

  predicate DhcpExchange(p: Packet)
  {
    p.protocol == Udp && ((p.sport == 68 && p.dport == 67) || (p.sport == 67 && p.dport == 68))
  }

  /** The packet goes to the address and port of `e` over TCP or UDP. */
  predicate Reaches(p: Packet, e: Endpoint)
  {
    && p.protocol in {Tcp, Udp}
    && e == Endpoint(Address(p.version, p.daddr), p.dport)
  }

  predicate ReachesSome(p: Packet, endpoints: seq<Endpoint>)
  {
    exists e <- endpoints :: Reaches(p, e)
  }

  /** What the policy lets through; `dhcp` tells whether it has rules for DHCP. */
  predicate Permitted(p: Packet, dhcp: bool, endpoints: seq<Endpoint>)
  {
    AlwaysPermitted(p) || (dhcp && DhcpExchange(p)) || ReachesSome(p, endpoints)
  }

  function Verdict(p: Packet, dhcp: bool, endpoints: seq<Endpoint>): Decision
  {
    if Permitted(p, dhcp, endpoints) then Accepted else Dropped
  }

  // ---------------------------------------------------------------- nftables

  datatype NftMatch =
    | CtEstablishedRelated
    | OifName(name: string)
    | Daddr(version: Version, networks: seq<Network>)
    | SourcePort(protocol: Protocol, port: nat)
    | DestinationPort(protocol: Protocol, port: nat)

  /** A rule that decides, or one that only counts or logs (`FallsThrough`). */
  type NftVerdict = fate: Fate | fate.Accepted? || fate.Dropped? || fate.FallsThrough? witness Accepted

  datatype NftRule = NftRule(matches: seq<NftMatch>, fate: NftVerdict)

  predicate NftMatchHolds(m: NftMatch, p: Packet)
  {
    match m
    case CtEstablishedRelated => p.ct in {Established, Related}
    case OifName(name) => p.oifname == name
    // `ip daddr` in an inet table never matches an IPv6 packet, nor `ip6 daddr` an IPv4 one
    case Daddr(version, networks) =>
      p.version == version && exists network <- networks :: network.Contains(p.daddr)
    case SourcePort(protocol, port) => p.protocol == protocol && p.sport == port
    case DestinationPort(protocol, port) => p.protocol == protocol && p.dport == port
  }

  predicate NftRuleMatches(rule: NftRule, p: Packet)
  {
    forall m <- rule.matches :: NftMatchHolds(m, p)
  }

  function NftFate(rules: seq<NftRule>, p: Packet): NftVerdict
  {
    if rules == [] then FallsThrough
    else if NftRuleMatches(rules[0], p) && rules[0].fate != FallsThrough then rules[0].fate
    else NftFate(rules[1..], p)
  }

  function NftEndpointRules(endpoints: seq<Endpoint>): seq<NftRule>
  {
    if endpoints == [] then []
    else
      var e := endpoints[|endpoints| - 1];
      NftEndpointRules(endpoints[..|endpoints| - 1]) + NftRulesFor(e)
  }

  function NftRulesFor(e: Endpoint): seq<NftRule>
  {
    [NftRule([Daddr(e.address.version, [Host(e.address)]), DestinationPort(Tcp, e.port)], Accepted),
     NftRule([Daddr(e.address.version, [Host(e.address)]), DestinationPort(Udp, e.port)], Accepted)]
  }

  const NFT_STATEFUL: seq<NftRule> := [
    NftRule([CtEstablishedRelated], Accepted),
    NftRule([OifName("lo")], Accepted),
    NftRule([OifName(TUN_INTERFACE)], Accepted)]

  const NFT_LOCAL: seq<NftRule> := [
    NftRule([Daddr(V4, LocalNetworks(V4))], Accepted),
    NftRule([Daddr(V6, LocalNetworks(V6))], Accepted)]

  const NFT_DHCP: seq<NftRule> := [
    NftRule([SourcePort(Udp, 68), DestinationPort(Udp, 67)], Accepted),
    NftRule([SourcePort(Udp, 67), DestinationPort(Udp, 68)], Accepted)]

  const NFT_PREAMBLE: seq<NftRule> := NFT_STATEFUL + NFT_LOCAL + NFT_DHCP

  function NftRules(endpoints: seq<Endpoint>): seq<NftRule>
  {
    NFT_PREAMBLE + NftEndpointRules(endpoints) + [NftRule([], Dropped)]
  }

  /** `_nft_rules`: the endpoint rules are collected in a loop. */
  method BuildNftRules(endpoints: seq<Endpoint>) returns (rules: seq<NftRule>)
    ensures rules == NftRules(endpoints)
    ensures forall p: Packet :: NftFate(rules, p) == Verdict(p, true, endpoints)
  {
    var endpointRules: seq<NftRule> := [];
    for i := 0 to |endpoints|
      invariant endpointRules == NftEndpointRules(endpoints[..i])
    {
      assert endpoints[..i + 1][..i] == endpoints[..i];
      endpointRules := endpointRules + NftRulesFor(endpoints[i]);
    }
    assert endpoints[..|endpoints|] == endpoints;
    rules := NFT_PREAMBLE + endpointRules + [NftRule([], Dropped)];
    forall p: Packet
      ensures NftFate(rules, p) == Verdict(p, true, endpoints)
    {
      NftMeaning(endpoints, p);
    }
  }

  lemma {:induction false} NftFateConcat(a: seq<NftRule>, b: seq<NftRule>, p: Packet)
    ensures NftFate(a + b, p) == if NftFate(a, p) == FallsThrough then NftFate(b, p) else NftFate(a, p)
  {
    if a == [] {
      assert a + b == b;
    } else {
      assert (a + b)[1..] == a[1..] + b;
      NftFateConcat(a[1..], b, p);
    }
  }

  lemma OneMatch(m: NftMatch, p: Packet)
    ensures NftRuleMatches(NftRule([m], Accepted), p) <==> NftMatchHolds(m, p)
  {
    assert [m][0] == m;
  }

  lemma TwoMatches(a: NftMatch, b: NftMatch, p: Packet)
    ensures NftRuleMatches(NftRule([a, b], Accepted), p) <==> NftMatchHolds(a, p) && NftMatchHolds(b, p)
  {
    assert [a, b][0] == a && [a, b][1] == b;
  }

  lemma {:induction false} NftAcceptList(rules: seq<NftRule>, p: Packet)
    requires forall rule <- rules :: rule.fate == Accepted
    ensures NftFate(rules, p)
         == if exists rule <- rules :: NftRuleMatches(rule, p) then Accepted else FallsThrough
  {
    if rules != [] {
      NftAcceptList(rules[1..], p);
      assert rules == [rules[0]] + rules[1..];
    }
  }

  lemma NftEndpointRulesFor(e: Endpoint, p: Packet)
    ensures NftFate(NftRulesFor(e), p) == if Reaches(p, e) then Accepted else FallsThrough
  {
    var daddr := Daddr(e.address.version, [Host(e.address)]);
    assert NftMatchHolds(daddr, p) <==> p.version == e.address.version && p.daddr == e.address.value by {
      assert [Host(e.address)][0].Contains(p.daddr) <==> p.daddr == e.address.value;
    }
    var rules := NftRulesFor(e);
    TwoMatches(daddr, DestinationPort(Tcp, e.port), p);
    TwoMatches(daddr, DestinationPort(Udp, e.port), p);
    assert NftRuleMatches(rules[0], p) || NftRuleMatches(rules[1], p) <==> Reaches(p, e);
    NftAcceptList(rules, p);
  }

  lemma {:induction false} NftEndpointMeaning(endpoints: seq<Endpoint>, p: Packet)
    ensures NftFate(NftEndpointRules(endpoints), p)
         == if ReachesSome(p, endpoints) then Accepted else FallsThrough
  {
    if endpoints != [] {
      var n := |endpoints| - 1;
      var e := endpoints[n];
      NftEndpointMeaning(endpoints[..n], p);
      NftFateConcat(NftEndpointRules(endpoints[..n]), NftRulesFor(e), p);
      NftEndpointRulesFor(e, p);
      assert endpoints == endpoints[..n] + [e];
    }
  }

  lemma NftStatefulMeaning(p: Packet)
    ensures NftFate(NFT_STATEFUL, p)
         == if p.ct in {Established, Related} || p.oifname in {"lo", TUN_INTERFACE} then Accepted else FallsThrough
  {
    NftAcceptList(NFT_STATEFUL, p);
    OneMatch(CtEstablishedRelated, p);
    OneMatch(OifName("lo"), p);
    OneMatch(OifName(TUN_INTERFACE), p);
    assert NFT_STATEFUL[0] in NFT_STATEFUL && NFT_STATEFUL[1] in NFT_STATEFUL && NFT_STATEFUL[2] in NFT_STATEFUL;
  }

  lemma NftLocalMeaning(p: Packet)
    ensures NftFate(NFT_LOCAL, p)
         == if exists network <- LocalNetworks(p.version) :: network.Contains(p.daddr) then Accepted else FallsThrough
  {
    NftAcceptList(NFT_LOCAL, p);
    OneMatch(Daddr(V4, LocalNetworks(V4)), p);
    OneMatch(Daddr(V6, LocalNetworks(V6)), p);
    assert NFT_LOCAL[0] in NFT_LOCAL && NFT_LOCAL[1] in NFT_LOCAL;
  }

  lemma NftDhcpMeaning(p: Packet)
    ensures NftFate(NFT_DHCP, p) == if DhcpExchange(p) then Accepted else FallsThrough
  {
    NftAcceptList(NFT_DHCP, p);
    TwoMatches(SourcePort(Udp, 68), DestinationPort(Udp, 67), p);
    TwoMatches(SourcePort(Udp, 67), DestinationPort(Udp, 68), p);
    assert NFT_DHCP[0] in NFT_DHCP && NFT_DHCP[1] in NFT_DHCP;
  }

  lemma NftPreambleMeaning(p: Packet)
    ensures NftFate(NFT_PREAMBLE, p)
         == if AlwaysPermitted(p) || DhcpExchange(p) then Accepted else FallsThrough
  {
    NftStatefulMeaning(p);
    NftLocalMeaning(p);
    NftDhcpMeaning(p);
    NftFateConcat(NFT_STATEFUL, NFT_LOCAL, p);
    NftFateConcat(NFT_STATEFUL + NFT_LOCAL, NFT_DHCP, p);
  }

  /** The nftables table decides every packet, as the policy says. */
  lemma NftMeaning(endpoints: seq<Endpoint>, p: Packet)
    ensures NftFate(NftRules(endpoints), p) == Verdict(p, true, endpoints)
  {
    NftPreambleMeaning(p);
    NftEndpointMeaning(endpoints, p);
    NftFateConcat(NFT_PREAMBLE, NftEndpointRules(endpoints), p);
    NftFateConcat(NFT_PREAMBLE + NftEndpointRules(endpoints), [NftRule([], Dropped)], p);
  }

  // ---------------------------------------------------------------- rules behind other rules

  /** Rules loaded behind a complete set of owned rules change nothing. */
  lemma AppendedNftRulesAreDead(endpoints: seq<Endpoint>, more: seq<NftRule>, p: Packet)
    ensures NftFate(NftRules(endpoints) + more, p) == NftFate(NftRules(endpoints), p)
  {
    NftMeaning(endpoints, p);
    NftFateConcat(NftRules(endpoints), more, p);
  }

  /** No rule decides a packet against the policy. */
  ghost predicate NeverContradicts(rules: seq<NftRule>, endpoints: seq<Endpoint>)
  {
    forall p: Packet :: NftFate(rules, p) in {FallsThrough, Verdict(p, true, endpoints)}
  }

  /** Rules loaded behind any stale ones enforce the policy if and only if no stale rule
      decides a packet against it. */
  lemma StaleNftRulesIff(stale: seq<NftRule>, endpoints: seq<Endpoint>)
    ensures (forall p: Packet :: NftFate(stale + NftRules(endpoints), p) == Verdict(p, true, endpoints))
       <==> NeverContradicts(stale, endpoints)
  {
    forall p: Packet
      ensures NftFate(stale + NftRules(endpoints), p) == Verdict(p, true, endpoints)
         <==> NftFate(stale, p) in {FallsThrough, Verdict(p, true, endpoints)}
    {
      NftFateConcat(stale, NftRules(endpoints), p);
      NftMeaning(endpoints, p);
    }
  }

  predicate IsLocal(address: Address)
  {
    exists network <- LocalNetworks(address.version) :: network.Contains(address.value)
  }

  /** A packet that only the endpoint itself lets through. */
  function Probe(e: Endpoint): Packet
  {
    Packet(e.address.version, CtState.New, "eth0", e.address.value, Tcp, 0, e.port)
  }

  lemma ProbeMeaning(e: Endpoint, endpoints: seq<Endpoint>)
    requires !IsLocal(e.address)
    ensures Permitted(Probe(e), true, endpoints) <==> e in endpoints
  {
    assert |"eth0"| == 4 && |"lo"| == 2 && |TUN_INTERFACE| == 15;
    assert e in endpoints ==> Reaches(Probe(e), e);
  }

  /** If the stale rules are those of an earlier install, the new ones take effect if and only
      if they are for the same endpoints. */
  lemma StaleInstallIff(earlier: seq<Endpoint>, endpoints: seq<Endpoint>)
    requires forall e <- earlier + endpoints :: !IsLocal(e.address)
    ensures NeverContradicts(NftRules(earlier), endpoints) <==> forall e :: e in earlier <==> e in endpoints
  {
    forall p: Packet
      ensures NftFate(NftRules(earlier), p) == Verdict(p, true, earlier)
    {
      NftMeaning(earlier, p);
    }
    if NeverContradicts(NftRules(earlier), endpoints) {
      forall e | e in earlier + endpoints
        ensures e in earlier <==> e in endpoints
      {
        ProbeMeaning(e, earlier);
        ProbeMeaning(e, endpoints);
        assert NftFate(NftRules(earlier), Probe(e)) in {FallsThrough, Verdict(Probe(e), true, endpoints)};
      }
    }
  }
}
