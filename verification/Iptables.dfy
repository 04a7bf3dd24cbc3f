/**
 The iptables form of the policy: rule syntax, the `filter` table of one address family
 with its jump semantics, and the rule list built for the owned chain.
 */
module Iptables {
  import opened Sequences
  import opened FirewallPolicy

  /** What a rule matches on. `foreign` stands for any match this program never writes. */
  datatype Spec = Spec(
    ctEstablishedRelated: bool, oif: Option<string>, destination: Option<Network>,
    protocol: Option<Protocol>, sport: Option<nat>, dport: Option<nat>, foreign: Option<string>)

  /** What a matching rule does. `Other` stands for the targets that decide nothing and go on to the
      next rule, such as LOG and MARK. */
  datatype Target =
    | Accept
    | Drop
    | Reject
    | Queue
    | Return
    | Jump(chain: string)
    | Goto(chain: string)
    | Other(text: string)

  datatype Rule = Rule(spec: Spec, target: Target)

  const ANY_PACKET := Spec(false, None, None, None, None, None, None)

  /** The rule `-j chain` with no match, as inserted in and deleted from OUTPUT. */
  function BareJump(chain: string): Rule { Rule(ANY_PACKET, Jump(chain)) }

  /** The filter table of one address family: OUTPUT, the policy of OUTPUT, and the user-defined chains. */
  datatype Table = Table(output: seq<Rule>, policy: Decision, chains: map<string, seq<Rule>>)

  /** The meaning of the matches this program never writes. */
  type Meaning = (string, Packet) -> bool

  predicate Matches(s: Spec, p: Packet, meaning: Meaning)
  {
    && (s.ctEstablishedRelated ==> p.ct in {Established, Related})
    && (s.oif.Some? ==> p.oifname == s.oif.value)
    && (s.destination.Some? ==> s.destination.value.Contains(p.daddr))
    && (s.protocol.Some? ==> p.protocol == s.protocol.value)
    && (s.sport.Some? ==> p.sport == s.sport.value)
    && (s.dport.Some? ==> p.dport == s.dport.value)
    && (s.foreign.Some? ==> meaning(s.foreign.value, p))
  }

  /** First-match traversal of `rules` in table `t`, following at most `depth` nested jumps. A chain
      that returns goes on behind the jump to it; one that was gone to returns in its caller. */
  function Traverse(t: Table, rules: seq<Rule>, p: Packet, meaning: Meaning, depth: nat): Fate
    decreases depth, |rules|
  {
    if rules == [] then FallsThrough
    else
      var rest := Traverse(t, rules[1..], p, meaning, depth);
      if !Matches(rules[0].spec, p, meaning) then rest
      else match rules[0].target
        case Accept => Accepted
        case Drop | Reject => Dropped
        case Queue => Queued
        case Return => Returned
        case Jump(chain) =>
          if chain in t.chains && depth > 0 then
            var inner := Traverse(t, t.chains[chain], p, meaning, depth - 1);
            if inner in {FallsThrough, Returned} then rest else inner
          else rest
        case Goto(chain) =>
          if chain in t.chains && depth > 0 then
            var inner := Traverse(t, t.chains[chain], p, meaning, depth - 1);
            if inner == FallsThrough then Returned else inner
          else rest
        case Other(_) => rest
  }

  /** A packet that returns from OUTPUT meets the policy of the chain. */
  function Settled(t: Table, fate: Fate): Fate { if fate == Returned then t.policy else fate }

  /** What the table does with an outgoing packet. The kernel refuses loops, so no more jumps nest
      than there are chains (see `DepthDoesNotMatter`). */
  function OutputFate(t: Table, p: Packet, meaning: Meaning): Fate
  {
    var fate := Settled(t, Traverse(t, t.output, p, meaning, |t.chains|));
    if fate == FallsThrough then t.policy else fate
  }

  /** Going to a chain is jumping there and returning behind it. */
  lemma GotoIsJumpAndReturn(t: Table, chain: string, rest: seq<Rule>, p: Packet, meaning: Meaning, depth: nat)
    requires chain in t.chains && depth > 0
    ensures Traverse(t, [Rule(ANY_PACKET, Goto(chain))] + rest, p, meaning, depth)
         == Traverse(t, [Rule(ANY_PACKET, Jump(chain)), Rule(ANY_PACKET, Return)] + rest, p, meaning, depth)
  {
    var a := [Rule(ANY_PACKET, Jump(chain)), Rule(ANY_PACKET, Return)] + rest;
    assert a[1..][0] == Rule(ANY_PACKET, Return);
  }

  predicate RefersTo(rule: Rule, chain: string) { rule.target in {Jump(chain), Goto(chain)} }

  /** The chains in `rules` have a rank below `limit`. */
  ghost predicate RanksBelow(t: Table, rules: seq<Rule>, rank: string -> nat, limit: nat)
  {
    forall rule, chain | rule in rules && chain in t.chains && RefersTo(rule, chain) :: rank(chain) < limit
  }

  /** Along every jump the rank goes down: there is no loop. */
  ghost predicate Acyclic(t: Table, rank: string -> nat)
  {
    forall chain <- t.chains :: RanksBelow(t, t.chains[chain], rank, rank(chain))
  }

  /** In a table without loops any two depths that are deep enough give the same result. */
  lemma {:induction false} DepthDoesNotMatter(
    t: Table, rules: seq<Rule>, p: Packet, meaning: Meaning, rank: string -> nat, d: nat, e: nat)
    requires Acyclic(t, rank) && RanksBelow(t, rules, rank, d) && d <= e
    ensures Traverse(t, rules, p, meaning, d) == Traverse(t, rules, p, meaning, e)
    decreases d, |rules|
  {
    if rules != [] {
      var rule := rules[0];
      assert rule in rules && forall r <- rules[1..] :: r in rules;
      DepthDoesNotMatter(t, rules[1..], p, meaning, rank, d, e);
      if (rule.target.Jump? || rule.target.Goto?) && rule.target.chain in t.chains {
        var chain := rule.target.chain;
        assert RefersTo(rule, chain);
        assert RanksBelow(t, t.chains[chain], rank, rank(chain));
        DepthDoesNotMatter(t, t.chains[chain], p, meaning, rank, d - 1, e - 1);
      }
    }
  }

  // ---------------------------------------------------------------- the owned chain

  function AcceptOif(name: string): Rule { Rule(ANY_PACKET.(oif := Some(name)), Accept) }

  function AcceptNetwork(network: Network): Rule { Rule(ANY_PACKET.(destination := Some(network)), Accept) }

  function AcceptUdpPorts(sport: nat, dport: nat): Rule
  {
    Rule(ANY_PACKET.(protocol := Some(Udp), sport := Some(sport), dport := Some(dport)), Accept)
  }

  function AcceptEndpoint(e: Endpoint, protocol: Protocol): Rule
  {
    Rule(ANY_PACKET.(destination := Some(Host(e.address)), protocol := Some(protocol), dport := Some(e.port)), Accept)
  }

  const DROP_REST := Rule(ANY_PACKET, Drop)

  const STATEFUL_RULES: seq<Rule> := [
    Rule(ANY_PACKET.(ctEstablishedRelated := true), Accept), AcceptOif("lo"), AcceptOif(TUN_INTERFACE)]

  const DHCP_RULES: seq<Rule> := [AcceptUdpPorts(68, 67), AcceptUdpPorts(67, 68)]

  function NetworkRules(networks: seq<Network>): seq<Rule>
  {
    seq(|networks|, i requires 0 <= i < |networks| => AcceptNetwork(networks[i]))
  }

  function EndpointRules(endpoints: seq<Endpoint>, version: Version): seq<Rule>
  {
    if endpoints == [] then []
    else
      var e := endpoints[|endpoints| - 1];
      EndpointRules(endpoints[..|endpoints| - 1], version) +
      if e.address.version != version then [] else [AcceptEndpoint(e, Tcp), AcceptEndpoint(e, Udp)]
  }

  /** Everything in the owned chain before its last rule. */
  function AcceptRules(endpoints: seq<Endpoint>, version: Version): seq<Rule>
  {
    STATEFUL_RULES + NetworkRules(LocalNetworks(version)) + (if version == V4 then DHCP_RULES else []) +
    EndpointRules(endpoints, version)
  }

  function ChainRules(endpoints: seq<Endpoint>, version: Version): seq<Rule>
  {
    AcceptRules(endpoints, version) + [DROP_REST]
  }

  // ---------------------------------------------------------------- meaning

  predicate SomeMatch(rules: seq<Rule>, p: Packet, meaning: Meaning)
  {
    exists rule <- rules :: Matches(rule.spec, p, meaning)
  }

  lemma {:induction false} TraverseConcat(t: Table, a: seq<Rule>, b: seq<Rule>, p: Packet, meaning: Meaning, depth: nat)
    ensures Traverse(t, a + b, p, meaning, depth)
         == if Traverse(t, a, p, meaning, depth) == FallsThrough then Traverse(t, b, p, meaning, depth)
            else Traverse(t, a, p, meaning, depth)
  {
    if a == [] {
      assert a + b == b;
    } else {
      assert (a + b)[1..] == a[1..] + b;
      TraverseConcat(t, a[1..], b, p, meaning, depth);
    }
  }

  lemma {:induction false} AcceptListMeaning(t: Table, rules: seq<Rule>, p: Packet, meaning: Meaning, depth: nat)
    requires forall rule <- rules :: rule.target == Accept
    ensures Traverse(t, rules, p, meaning, depth) == if SomeMatch(rules, p, meaning) then Accepted else FallsThrough
  {
    if rules != [] {
      AcceptListMeaning(t, rules[1..], p, meaning, depth);
      assert rules == [rules[0]] + rules[1..];
    }
  }

  lemma {:induction false} EndpointRulesMeaning(endpoints: seq<Endpoint>, p: Packet, meaning: Meaning)
    ensures forall rule <- EndpointRules(endpoints, p.version) :: rule.target == Accept
    ensures SomeMatch(EndpointRules(endpoints, p.version), p, meaning) <==> ReachesSome(p, endpoints)
  {
    if endpoints != [] {
      var n := |endpoints| - 1;
      var e := endpoints[n];
      EndpointRulesMeaning(endpoints[..n], p, meaning);
      assert endpoints == endpoints[..n] + [e];
      var last := if e.address.version != p.version then [] else [AcceptEndpoint(e, Tcp), AcceptEndpoint(e, Udp)];
      assert SomeMatch(last, p, meaning) <==> Reaches(p, e) by {
        if e.address.version == p.version {
          assert last[0] in last && last[1] in last;
        }
      }
    }
  }

  lemma FixedRulesMeaning(p: Packet, meaning: Meaning)
    ensures forall rule <- STATEFUL_RULES + DHCP_RULES :: rule.target == Accept
    ensures SomeMatch(STATEFUL_RULES, p, meaning) <==>
      p.ct in {Established, Related} || p.oifname in {"lo", TUN_INTERFACE}
    ensures SomeMatch(DHCP_RULES, p, meaning) <==> DhcpExchange(p)
  {
    assert STATEFUL_RULES[0] in STATEFUL_RULES && STATEFUL_RULES[1] in STATEFUL_RULES;
    assert STATEFUL_RULES[2] in STATEFUL_RULES;
    assert DHCP_RULES[0] in DHCP_RULES && DHCP_RULES[1] in DHCP_RULES;
  }

  lemma NetworkRulesMeaning(networks: seq<Network>, p: Packet, meaning: Meaning)
    ensures forall rule <- NetworkRules(networks) :: rule.target == Accept
    ensures SomeMatch(NetworkRules(networks), p, meaning) <==> exists network <- networks :: network.Contains(p.daddr)
  {
    var local := NetworkRules(networks);
    if network :| network in networks && network.Contains(p.daddr) {
      var i :| 0 <= i < |networks| && networks[i] == network;
      assert local[i] in local;
    }
  }

  lemma SomeMatchConcat(a: seq<Rule>, b: seq<Rule>, p: Packet, meaning: Meaning)
    ensures SomeMatch(a + b, p, meaning) <==> SomeMatch(a, p, meaning) || SomeMatch(b, p, meaning)
  {
    assert forall rule :: rule in a + b <==> rule in a || rule in b;
  }

  lemma AcceptRulesMeaning(endpoints: seq<Endpoint>, p: Packet, meaning: Meaning)
    ensures forall rule <- AcceptRules(endpoints, p.version) :: rule.target == Accept
    ensures SomeMatch(AcceptRules(endpoints, p.version), p, meaning) <==> Permitted(p, p.version == V4, endpoints)
  {
    var a, b := STATEFUL_RULES, NetworkRules(LocalNetworks(p.version));
    var c, d := if p.version == V4 then DHCP_RULES else [], EndpointRules(endpoints, p.version);
    FixedRulesMeaning(p, meaning);
    NetworkRulesMeaning(LocalNetworks(p.version), p, meaning);
    EndpointRulesMeaning(endpoints, p, meaning);
    SomeMatchConcat(a, b, p, meaning);
    SomeMatchConcat(a + b, c, p, meaning);
    SomeMatchConcat(a + b + c, d, p, meaning);
  }

  /** The finished owned chain decides every packet of its family, as the policy says. */
  lemma ChainMeaning(t: Table, endpoints: seq<Endpoint>, p: Packet, meaning: Meaning, depth: nat)
    ensures Traverse(t, ChainRules(endpoints, p.version), p, meaning, depth)
         == Verdict(p, p.version == V4, endpoints)
  {
    var accepts := AcceptRules(endpoints, p.version);
    AcceptRulesMeaning(endpoints, p, meaning);
    AcceptListMeaning(t, accepts, p, meaning, depth);
    TraverseConcat(t, accepts, [DROP_REST], p, meaning, depth);
  }

  // ---------------------------------------------------------------- main results on the policy

  /** A packet on which the two backends disagree. */
  predicate Ipv6DhcpGap(p: Packet, endpoints: seq<Endpoint>)
  {
    p.version == V6 && DhcpExchange(p) && !AlwaysPermitted(p) && !ReachesSome(p, endpoints)
  }

  /** The two compilations of one policy agree on every packet but the IPv6 DHCP ports:
      the DHCP rules sit in an `inet` table, while ip6tables has none. */
  lemma BackendsAgreeExceptOnIpv6Dhcp(t: Table, endpoints: seq<Endpoint>, p: Packet, meaning: Meaning, depth: nat)
    ensures NftFate(NftRules(endpoints), p) == Traverse(t, ChainRules(endpoints, p.version), p, meaning, depth)
       <==> !Ipv6DhcpGap(p, endpoints)
    ensures Ipv6DhcpGap(p, endpoints) ==>
      && NftFate(NftRules(endpoints), p) == Accepted
      && Traverse(t, ChainRules(endpoints, p.version), p, meaning, depth) == Dropped
  {
    NftMeaning(endpoints, p);
    ChainMeaning(t, endpoints, p, meaning, depth);
  }

  lemma {:induction false} Naturals(n: nat) returns (below: set<nat>)
    ensures |below| == n && forall a: nat :: a in below <==> a < n
  {
    below := {};
    if n > 0 {
      below := Naturals(n - 1);
      below := below + {n - 1};
    }
  }

  lemma {:induction false} UsedAddresses(endpoints: seq<Endpoint>) returns (used: set<nat>)
    ensures |used| <= |endpoints| && forall e <- endpoints :: e.address.value in used
  {
    used := {};
    if endpoints != [] {
      used := UsedAddresses(endpoints[1..]);
      used := used + {endpoints[0].address.value};
      assert endpoints == [endpoints[0]] + endpoints[1..];
    }
  }

  lemma SubsetSize(a: set<nat>, b: set<nat>)
    ensures a <= b ==> |a| <= |b|
  {
    assert a <= b ==> b == a + (b - a);
  }

  /** Of one address more than there are endpoints, one is free. */
  lemma FreeAddress(endpoints: seq<Endpoint>) returns (a: nat)
    ensures a <= |endpoints| && forall e <- endpoints :: e.address.value != a
  {
    var used := UsedAddresses(endpoints);
    var below := Naturals(|endpoints| + 1);
    assert |below| <= |used| <== below <= used by {
      SubsetSize(below, used);
    }
    a :| a in below && a !in used;
  }

  /** The gap is real, whatever the endpoints are: an IPv6 client port talking to the DHCP server port. */
  lemma Ipv6DhcpGapExists(endpoints: seq<Endpoint>)
    requires |endpoints| < NET_FC00.first
    ensures exists p: Packet :: Ipv6DhcpGap(p, endpoints)
  {
    var a := FreeAddress(endpoints);
    var p := Packet(V6, CtState.New, "eth0", a, Udp, 68, 67);
    assert Ipv6DhcpGap(p, endpoints);
  }

  /** Only the set of endpoints matters, in both backends. */
  lemma FateDependsOnEndpointSet(
    t: Table, xs: seq<Endpoint>, ys: seq<Endpoint>, p: Packet, meaning: Meaning, depth: nat)
    requires forall e :: e in xs <==> e in ys
    ensures NftFate(NftRules(xs), p) == NftFate(NftRules(ys), p)
    ensures Traverse(t, ChainRules(xs, p.version), p, meaning, depth)
         == Traverse(t, ChainRules(ys, p.version), p, meaning, depth)
  {
    NftMeaning(xs, p); NftMeaning(ys, p);
    ChainMeaning(t, xs, p, meaning, depth); ChainMeaning(t, ys, p, meaning, depth);
  }

  /** Adding an endpoint opens exactly its address and port over TCP and UDP, in both backends. */
  lemma AddingEndpointOpensExactlyIt(t: Table, xs: seq<Endpoint>, e: Endpoint, p: Packet, meaning: Meaning, depth: nat)
    ensures NftFate(NftRules(xs + [e]), p) == if Reaches(p, e) then Accepted else NftFate(NftRules(xs), p)
    ensures Traverse(t, ChainRules(xs + [e], p.version), p, meaning, depth)
         == if Reaches(p, e) then Accepted else Traverse(t, ChainRules(xs, p.version), p, meaning, depth)
  {
    NftMeaning(xs, p); NftMeaning(xs + [e], p);
    ChainMeaning(t, xs, p, meaning, depth); ChainMeaning(t, xs + [e], p, meaning, depth);
    assert ReachesSome(p, xs + [e]) <==> ReachesSome(p, xs) || Reaches(p, e);
  }

  /** While the chain is being filled it drops nothing: only the complete chain drops a
      packet, and whatever an unfinished chain accepts the finished one accepts too. */
  lemma UnfinishedChainIsHarmless(
    t: Table, chain: seq<Rule>, endpoints: seq<Endpoint>, p: Packet, meaning: Meaning, depth: nat)
    requires chain <= ChainRules(endpoints, p.version)
    ensures var finished := Traverse(t, ChainRules(endpoints, p.version), p, meaning, depth);
      && (Traverse(t, chain, p, meaning, depth) == Dropped ==>
            chain == ChainRules(endpoints, p.version) && finished == Dropped)
      && (Traverse(t, chain, p, meaning, depth) == Accepted ==> finished == Accepted)
  {
    var all := ChainRules(endpoints, p.version);
    if chain != all {
      var accepts := AcceptRules(endpoints, p.version);
      assert chain == all[..|chain|] == accepts[..|chain|];
      assert all == chain + all[|chain|..];
      AcceptRulesMeaning(endpoints, p, meaning);
      AcceptListMeaning(t, chain, p, meaning, depth);
      TraverseConcat(t, chain, all[|chain|..], p, meaning, depth);
    }
  }

  // ---------------------------------------------------------------- OUTPUT

  /** OUTPUT in front of the first owned jump; all of it when there is none. */
  function InFront(output: seq<Rule>, chain: string): (r: seq<Rule>)
    ensures r <= output && BareJump(chain) !in r
    ensures BareJump(chain) in output ==> |r| < |output| && output[|r|] == BareJump(chain)
  {
    if output == [] || output[0] == BareJump(chain) then []
    else [output[0]] + InFront(output[1..], chain)
  }

  lemma JumpDecides(
    t: Table, rules: seq<Rule>, chain: string, endpoints: seq<Endpoint>, p: Packet, meaning: Meaning, depth: nat)
    requires depth > 0 && rules != [] && rules[0] == BareJump(chain)
    requires chain in t.chains && t.chains[chain] == ChainRules(endpoints, p.version)
    ensures Traverse(t, rules, p, meaning, depth) == Verdict(p, p.version == V4, endpoints)
  {
    ChainMeaning(t, endpoints, p, meaning, depth - 1);
  }

  lemma OutputInParts(
    t: Table, chain: string, endpoints: seq<Endpoint>, p: Packet, meaning: Meaning, depth: nat)
    requires depth > 0 && BareJump(chain) in t.output
    requires chain in t.chains && t.chains[chain] == ChainRules(endpoints, p.version)
    ensures var front := Traverse(t, InFront(t.output, chain), p, meaning, depth);
      Traverse(t, t.output, p, meaning, depth) ==
        if front == FallsThrough then Verdict(p, p.version == V4, endpoints) else front
  {
    var front := InFront(t.output, chain);
    var behind := t.output[|front|..];
    assert t.output == front + behind && behind[0] == BareJump(chain);
    TraverseConcat(t, front, behind, p, meaning, depth);
    JumpDecides(t, behind, chain, endpoints, p, meaning, depth);
  }

  /** What the rules in front of the first owned jump decide, `FallsThrough` for nothing. */
  function FrontFate(t: Table, chain: string, p: Packet, meaning: Meaning): Fate
  {
    Settled(t, Traverse(t, InFront(t.output, chain), p, meaning, |t.chains|))
  }

  /** With the owned chain complete, the rules in front of the first owned jump decide what they
      decide, and a packet that returns there meets the policy of OUTPUT; all the rest meets the
      policy of the kill switch, whatever stands behind the jump. */
  lemma PolicyBehindJump(t: Table, chain: string, endpoints: seq<Endpoint>, p: Packet, meaning: Meaning)
    requires BareJump(chain) in t.output
    requires chain in t.chains && t.chains[chain] == ChainRules(endpoints, p.version)
    ensures var front := FrontFate(t, chain, p, meaning);
      OutputFate(t, p, meaning) == if front == FallsThrough then Verdict(p, p.version == V4, endpoints) else front
  {
    OutputInParts(t, chain, endpoints, p, meaning, |t.chains|);
  }

  /** With the owned jump first in OUTPUT, foreign rules decide nothing any more. */
  lemma JumpFirstEnforcesPolicy(t: Table, chain: string, endpoints: seq<Endpoint>, p: Packet, meaning: Meaning)
    requires t.output != [] && t.output[0] == BareJump(chain)
    requires chain in t.chains && t.chains[chain] == ChainRules(endpoints, p.version)
    ensures OutputFate(t, p, meaning) == Verdict(p, p.version == V4, endpoints)
  {
    PolicyBehindJump(t, chain, endpoints, p, meaning);
  }

  /** Every packet of the family that leaves meets the policy. */
  ghost predicate TableEnforces(t: Table, version: Version, endpoints: seq<Endpoint>, meaning: Meaning)
  {
    forall p: Packet | p.version == version ::
      OutputFate(t, p, meaning) == Verdict(p, version == V4, endpoints)
  }

  /** No rule in front of the first owned jump decides a packet against the policy. */
  ghost predicate QuietInFront(
    t: Table, chain: string, version: Version, endpoints: seq<Endpoint>, meaning: Meaning)
  {
    forall p: Packet | p.version == version ::
      FrontFate(t, chain, p, meaning) in {FallsThrough, Verdict(p, version == V4, endpoints)}
  }

  lemma TableEnforcesIff(t: Table, chain: string, version: Version, endpoints: seq<Endpoint>, meaning: Meaning)
    requires BareJump(chain) in t.output
    requires chain in t.chains && t.chains[chain] == ChainRules(endpoints, version)
    ensures TableEnforces(t, version, endpoints, meaning) <==> QuietInFront(t, chain, version, endpoints, meaning)
  {
    forall p: Packet | p.version == version
      ensures OutputFate(t, p, meaning) == Verdict(p, version == V4, endpoints)
         <==> FrontFate(t, chain, p, meaning) in {FallsThrough, Verdict(p, version == V4, endpoints)}
    {
      PolicyBehindJump(t, chain, endpoints, p, meaning);
    }
  }

  /** Nothing in front of the jump, nothing that could contradict the policy. */
  lemma NothingInFrontIsQuiet(
    t: Table, chain: string, version: Version, endpoints: seq<Endpoint>, meaning: Meaning)
    requires InFront(t.output, chain) == []
    ensures QuietInFront(t, chain, version, endpoints, meaning)
  {
  }
}
