/** Installing and removing the kill switch, command by command. */
module LinuxNetwork {
  import opened Sequences
  import opened FirewallPolicy
  import opened Iptables
  import opened Kernel

  const IPTABLES_CHAIN := "BLACKOUTKIT_OUTPUT"
  const IP6TABLES_CHAIN := "BLACKOUTKIT6_OUTPUT"

  function OwnedChain(version: Version): string
  {
    if version == V4 then IPTABLES_CHAIN else IP6TABLES_CHAIN
  }

  ghost predicate CleanTables(tables: Tables)
  {
    tables.nft == None && forall version :: Clean(tables.Get(version), OwnedChain(version))
  }

  // ---------------------------------------------------------------- endpoints

  /** One endpoint as handed in: a part is `None` when it does not parse. */
  datatype RawEndpoint = RawEndpoint(address: Option<Address>, port: Option<int>)

  predicate Usable(raw: RawEndpoint, isGlobal: Address -> bool)
  {
    && raw.address.Some? && raw.port.Some?
    && isGlobal(raw.address.value) && 1 <= raw.port.value <= 65535
  }

  function Parsed(raw: RawEndpoint): Endpoint
    requires raw.address.Some? && raw.port.Some? && raw.port.value >= 0
  {
    Endpoint(raw.address.value, raw.port.value)
  }

  function UsableEndpoints(raws: seq<RawEndpoint>, isGlobal: Address -> bool): (r: seq<Endpoint>)
    ensures forall e :: e in r <==> exists raw <- raws :: Usable(raw, isGlobal) && Parsed(raw) == e
  {
    if raws == [] then []
    else
      var n := |raws| - 1;
      assert raws == raws[..n] + [raws[n]];
      UsableEndpoints(raws[..n], isGlobal) + if Usable(raws[n], isGlobal) then [Parsed(raws[n])] else []
  }

  /** `list(dict.fromkeys(xs))` */
  function FirstOccurrences<T(==)>(xs: seq<T>): seq<T>
  {
    if xs == [] then []
    else
      var kept := FirstOccurrences(xs[..|xs| - 1]);
      if xs[|xs| - 1] in kept then kept else kept + [xs[|xs| - 1]]
  }

  function FirstIndex<T(==)>(xs: seq<T>, x: T): (i: nat)
    requires x in xs
    ensures i < |xs| && xs[i] == x && x !in xs[..i]
  {
    if xs[0] == x then 0
    else
      assert xs == [xs[0]] + xs[1..];
      var i := FirstIndex(xs[1..], x);
      assert xs[..i + 1] == [xs[0]] + xs[1..][..i];
      i + 1
  }

  /** The same elements, each once, ordered by where they first appear. */
  lemma {:induction false} FirstOccurrencesMeaning<T>(xs: seq<T>)
    ensures var r := FirstOccurrences(xs);
      && (forall x :: x in r <==> x in xs)
      && (forall i, j :: 0 <= i < j < |r| ==> r[i] != r[j] && FirstIndex(xs, r[i]) < FirstIndex(xs, r[j]))
  {
    if xs != [] {
      var n := |xs| - 1;
      FirstOccurrencesMeaning(xs[..n]);
      assert xs == xs[..n] + [xs[n]];
      forall x | x in xs[..n]
        ensures FirstIndex(xs, x) == FirstIndex(xs[..n], x)
      {
        var i, k := FirstIndex(xs, x), FirstIndex(xs[..n], x);
        assert i >= k by {
          assert x !in xs[..n][..k];
          assert forall j :: 0 <= j < k ==> xs[j] == xs[..n][..k][j];
        }
        assert k >= i by {
          assert forall j :: 0 <= j < i ==> xs[j] == xs[..i][j];
        }
      }
      if xs[n] !in xs[..n] {
        assert FirstIndex(xs, xs[n]) == n;
      }
    }
  }

  /** `_normalize_endpoints` */
  method NormalizeEndpoints(raws: seq<RawEndpoint>, isGlobal: Address -> bool) returns (endpoints: seq<Endpoint>)
    ensures endpoints == FirstOccurrences(UsableEndpoints(raws, isGlobal))
    ensures forall e :: e in endpoints <==> exists raw <- raws :: Usable(raw, isGlobal) && Parsed(raw) == e
    ensures forall i, j :: 0 <= i < j < |endpoints| ==> endpoints[i] != endpoints[j]
    ensures forall a: Address, port: nat ::
      Endpoint(a, port) in endpoints <==>
        isGlobal(a) && 1 <= port <= 65535 && RawEndpoint(Some(a), Some(port)) in raws
  {
    var normalized: seq<Endpoint> := [];
    for n := 0 to |raws|
      invariant normalized == UsableEndpoints(raws[..n], isGlobal)
    {
      assert raws[..n + 1][..n] == raws[..n];
      if Usable(raws[n], isGlobal) {
        normalized := normalized + [Parsed(raws[n])];
      }
    }
    assert raws[..|raws|] == raws;
    FirstOccurrencesMeaning(normalized);
    endpoints := FirstOccurrences(normalized);
    forall a: Address, port: nat
      ensures Endpoint(a, port) in endpoints <==>
        isGlobal(a) && 1 <= port <= 65535 && RawEndpoint(Some(a), Some(port)) in raws
    {
      UsableIff(raws, isGlobal, a, port);
    }
  }

  /** An endpoint is kept as it was given, if its address is global and its port in range. */
  lemma UsableIff(raws: seq<RawEndpoint>, isGlobal: Address -> bool, a: Address, port: nat)
    ensures Endpoint(a, port) in FirstOccurrences(UsableEndpoints(raws, isGlobal)) <==>
      isGlobal(a) && 1 <= port <= 65535 && RawEndpoint(Some(a), Some(port)) in raws
  {
    FirstOccurrencesMeaning(UsableEndpoints(raws, isGlobal));
    var raw := RawEndpoint(Some(a), Some(port));
    assert Usable(raw, isGlobal) <==> isGlobal(a) && 1 <= port <= 65535;
    assert Parsed(raw) == Endpoint(a, port);
  }

  // ---------------------------------------------------------------- the policy for the endpoints handed in

  /** The address is in one of the local blocks: 10/8, 172.16/12, 192.168/16 and 169.254/16, or fc00::/7
      and fe80::/10. */
  predicate InLocalBlock(version: Version, address: nat)
  {
    match version
    case V4 =>
      || address / 0x100_0000 == 10 || address / 0x10_0000 == 172 * 16 + 1
      || address / 0x1_0000 == 192 * 256 + 168 || address / 0x1_0000 == 169 * 256 + 254
    case V6 =>
      || address / 0x200_0000_0000_0000_0000_0000_0000_0000 == 0xfc00 / 0x200
      || address / 0x40_0000_0000_0000_0000_0000_0000_0000 == 0xfe80 / 0x40
  }

  /** Which packets are to leave, in terms of what the kill switch is enabled with. */
  predicate MayLeave(p: Packet, dhcp: bool, raws: seq<RawEndpoint>, isGlobal: Address -> bool)
  {
    || p.ct == Established || p.ct == Related
    || p.oifname == "lo" || p.oifname == "BlackoutKit-TUN"
    || InLocalBlock(p.version, p.daddr)
    || (dhcp && p.protocol == Udp && p.sport + p.dport == 67 + 68 && (p.sport == 67 || p.sport == 68))
    || (&& (p.protocol == Tcp || p.protocol == Udp) && 1 <= p.dport <= 65535
        && isGlobal(Address(p.version, p.daddr))
        && RawEndpoint(Some(Address(p.version, p.daddr)), Some(p.dport)) in raws)
  }

  lemma LocalBlocks(version: Version, address: nat)
    ensures (exists network <- LocalNetworks(version) :: network.Contains(address)) <==> InLocalBlock(version, address)
  {
    var networks := LocalNetworks(version);
    if version == V4 {
      assert networks[0] in networks && networks[1] in networks && networks[2] in networks && networks[3] in networks;
    } else {
      assert networks[0] in networks && networks[1] in networks;
    }
  }

  lemma VerdictIff(p: Packet, dhcp: bool, raws: seq<RawEndpoint>, isGlobal: Address -> bool)
    ensures Verdict(p, dhcp, FirstOccurrences(UsableEndpoints(raws, isGlobal)))
         == if MayLeave(p, dhcp, raws, isGlobal) then Accepted else Dropped
  {
    LocalBlocks(p.version, p.daddr);
    UsableIff(raws, isGlobal, Address(p.version, p.daddr), p.dport);
  }

  // ---------------------------------------------------------------- nftables

  method NftTableExists(m: Machine) returns (exists_: bool)
    modifies m
    ensures m.tables == old(m.tables)
    ensures m.clock == old(m.clock) + (if m.hasNft then 1 else 0)
    ensures exists_ <==> m.hasNft && m.tables.nft.Some? && m.faults(old(m.clock)) == NoFault
  {
    if !m.hasNft {
      return false;
    }
    exists_ := m.RunNft(ListTable);
  }

  /** Success is reported over a table that is still there exactly when the binary is missing or the
      probe was disturbed, and failure over one that is gone exactly when only the deletion was cut
      off late. */
  method DeleteNftTable(m: Machine) returns (ok: bool)
    modifies m
    ensures m.tables == old(m.tables).(nft := m.tables.nft)
    ensures !m.hasNft || old(m.tables).nft == None ==> ok && m.tables == old(m.tables)
    ensures m.hasNft && old(m.tables).nft.Some? ==>
      var probed := m.faults(old(m.clock)) == NoFault;
      && (ok <==> !probed || m.faults(old(m.clock) + 1) == NoFault)
      && (m.tables.nft == None <==> probed && m.faults(old(m.clock) + 1) != Lost)
      && (m.tables.nft == None || m.tables == old(m.tables))
    ensures ok && m.tables.nft.Some? <==>
      old(m.tables).nft.Some? && (!m.hasNft || m.faults(old(m.clock)) != NoFault)
    ensures !ok && m.tables.nft == None <==>
      && m.hasNft && old(m.tables).nft.Some?
      && m.faults(old(m.clock)) == NoFault && m.faults(old(m.clock) + 1) == Late
    ensures m.clock == old(m.clock) + if !m.hasNft then 0
      else if old(m.tables).nft.Some? && m.faults(old(m.clock)) == NoFault then 2 else 1
  {
    var present := NftTableExists(m);
    if !present {
      return true;
    }
    ok := m.RunNft(DeleteTable);
  }

  /** On success the new rules are the whole table, unless the probe for the previous table
      was disturbed: then they were loaded behind the previous ones. */
  method ApplyNftFirewall(m: Machine, endpoints: seq<Endpoint>) returns (ok: bool)
    modifies m
    ensures m.tables == old(m.tables).(nft := m.tables.nft)
    ensures !m.hasNft ==> !ok && m.tables == old(m.tables)
    // success needs every command but the probe for the previous table
    ensures var deletes := old(m.tables).nft.Some? && m.faults(old(m.clock)) == NoFault;
      ok <==> m.hasNft && m.Undisturbed(old(m.clock) + 1, old(m.clock) + if deletes then 5 else 4)
    ensures m.hasNft && m.Undisturbed(old(m.clock), m.clock) ==> ok
    ensures ok && (old(m.tables).nft == None || m.faults(old(m.clock)) == NoFault) ==>
      m.tables.nft == Some(NftRules(endpoints))
    ensures ok && old(m.tables).nft.Some? && m.faults(old(m.clock)) != NoFault ==>
      m.tables.nft == Some(old(m.tables).nft.value + NftRules(endpoints))
    ensures !ok ==>
      || m.tables.nft in {old(m.tables).nft, None, Some(NftRules(endpoints))}
      || (&& old(m.tables).nft.Some? && m.faults(old(m.clock)) != NoFault
          && m.tables.nft == Some(old(m.tables).nft.value + NftRules(endpoints)))
    ensures old(m.clock) <= m.clock && (m.hasNft ==> old(m.clock) < m.clock)
  {
    if !m.hasNft {
      return false;
    }
    ok := DeleteNftTable(m);
    if !ok {
      return;
    }
    var rules := BuildNftRules(endpoints);
    ok := m.RunNft(CheckFile(rules));
    if !ok {
      return;
    }
    ok := m.RunNft(LoadFile(rules));
    if !ok {
      return;
    }
    ok := NftTableExists(m);
  }

  // ---------------------------------------------------------------- iptables

  /** The owned chain holds an initial part of the rules. */
  ghost predicate Filling(t: Table, chain: string, rules: seq<Rule>)
  {
    chain in t.chains && t.chains[chain] <= rules
  }

  /** The rule list of `_append_iptables_rules`, built in two loops. */
  method BuildChainRules(version: Version, endpoints: seq<Endpoint>) returns (rules: seq<Rule>)
    ensures rules == ChainRules(endpoints, version)
  {
    rules := STATEFUL_RULES;
    var networks := LocalNetworks(version);
    for i := 0 to |networks|
      invariant rules == STATEFUL_RULES + NetworkRules(networks[..i])
    {
      rules := rules + [AcceptNetwork(networks[i])];
      assert NetworkRules(networks[..i + 1]) == NetworkRules(networks[..i]) + [AcceptNetwork(networks[i])];
    }
    assert networks[..|networks|] == networks;
    if version == V4 {
      rules := rules + DHCP_RULES;
    }
    ghost var base := rules;
    for i := 0 to |endpoints|
      invariant rules == base + EndpointRules(endpoints[..i], version)
    {
      var e := endpoints[i];
      assert endpoints[..i + 1][..i] == endpoints[..i];
      if e.address.version == version {
        rules := rules + [AcceptEndpoint(e, Tcp), AcceptEndpoint(e, Udp)];
      }
    }
    assert endpoints[..|endpoints|] == endpoints;
    rules := rules + [DROP_REST];
  }

  /** Up to `reset` the tables of the trace are the old ones; from there on the owned chain
      only ever holds an initial part of `rules`. */
  ghost predicate ResetTrace(before: Tables, oldTrace: seq<Tables>, trace: seq<Tables>, reset: nat,
                             version: Version, rules: seq<Rule>)
  {
    && |oldTrace| <= reset <= |trace|
    && trace[..|oldTrace|] == oldTrace
    && (forall i :: |oldTrace| <= i < reset ==> trace[i] == before)
    && (forall i :: reset <= i < |trace| ==> Filling(trace[i].Get(version), OwnedChain(version), rules))
  }

  /** The first step of `_append_iptables_rules`: create the owned chain, or else empty it. */
  method ResetChain(m: Machine, version: Version, ghost rules: seq<Rule>) returns (ok: bool, ghost reset: nat)
    modifies m
    ensures m.tables == old(m.tables).Set(version, m.tables.Get(version))
    ensures OnlyOwnedDiffers(old(m.tables.Get(version)), m.tables.Get(version), OwnedChain(version))
    ensures ok ==>
      var t := old(m.tables.Get(version));
      m.tables.Get(version) == t.(chains := t.chains[OwnedChain(version) := []])
    ensures m.Undisturbed(old(m.clock), m.clock) ==> ok
    ensures ResetTrace(old(m.tables), old(m.trace), m.trace, reset, version, rules)
    ensures old(m.clock) < m.clock
  {
    var chain := OwnedChain(version);
    ghost var t := m.tables.Get(version);
    reset := |m.trace|;
    ok := m.Run(version, NewChain(chain));
    if m.tables == old(m.tables) {
      reset := |m.trace|;
    }
    if !ok {
      ghost var t1 := m.tables.Get(version);
      ok := m.Run(version, FlushChain(chain));
      OnlyOwnedDiffersTransitive(t, t1, m.tables.Get(version), chain);
      if !ok && m.tables == old(m.tables) {
        reset := |m.trace|;
      }
    }
  }

  /** The second step: check for the jump, and insert it first in OUTPUT when the check fails. */
  method EnsureJump(m: Machine, version: Version, ghost rules: seq<Rule>,
                    ghost reset: nat, ghost before: Tables, ghost oldTrace: seq<Tables>) returns (ok: bool)
    requires Filling(m.tables.Get(version), OwnedChain(version), rules)
    requires ResetTrace(before, oldTrace, m.trace, reset, version, rules)
    modifies m
    ensures m.tables == old(m.tables).Set(version, m.tables.Get(version))
    ensures OnlyOwnedDiffers(old(m.tables.Get(version)), m.tables.Get(version), OwnedChain(version))
    ensures m.tables.Get(version) == old(m.tables.Get(version)).(output := m.tables.Get(version).output)
    ensures var jump, output := BareJump(OwnedChain(version)), old(m.tables.Get(version).output);
      ok ==>
        && jump in m.tables.Get(version).output
        && m.tables.Get(version).output in {output, [jump] + output}
        && (jump !in output ==> m.tables.Get(version).output == [jump] + output)
        && (jump in output && m.faults(old(m.clock)) == NoFault ==> m.tables.Get(version).output == output)
    ensures m.Undisturbed(old(m.clock), m.clock) ==> ok
    ensures ResetTrace(before, oldTrace, m.trace, reset, version, rules)
    ensures old(m.clock) < m.clock
  {
    var chain := OwnedChain(version);
    ghost var t := m.tables.Get(version);
    CheckJumpStep(t, chain, m.faults(m.clock));
    ok := m.Run(version, CheckJump(chain));
    assert m.tables.Get(version) == t;
    if !ok {
      InsertJumpStep(t, chain, m.faults(m.clock));
      ok := m.Run(version, InsertJump(chain));
    }
  }

  /** `all(_run_ok([binary, *rule]) for rule in rules)`: stops at the first failure. */
  method AppendAll(m: Machine, version: Version, rules: seq<Rule>,
                   ghost reset: nat, ghost before: Tables, ghost oldTrace: seq<Tables>) returns (ok: bool)
    requires OwnedChain(version) in m.tables.Get(version).chains
    requires m.tables.Get(version).chains[OwnedChain(version)] == []
    requires ResetTrace(before, oldTrace, m.trace, reset, version, rules)
    modifies m
    ensures m.tables == old(m.tables).Set(version, m.tables.Get(version))
    ensures OnlyOwnedDiffers(old(m.tables.Get(version)), m.tables.Get(version), OwnedChain(version))
    ensures ok ==>
      var t := old(m.tables.Get(version));
      m.tables.Get(version) == t.(chains := t.chains[OwnedChain(version) := rules])
    ensures m.Undisturbed(old(m.clock), m.clock) ==> ok
    ensures ResetTrace(before, oldTrace, m.trace, reset, version, rules)
    ensures old(m.clock) <= m.clock
  {
    var chain := OwnedChain(version);
    ghost var t := m.tables.Get(version);
    for i := 0 to |rules|
      invariant old(m.clock) <= m.clock
      invariant m.tables == old(m.tables).Set(version, m.tables.Get(version))
      invariant m.tables.Get(version) == t.(chains := t.chains[chain := rules[..i]])
      invariant ResetTrace(before, oldTrace, m.trace, reset, version, rules)
    {
      ghost var u := m.tables.Get(version);
      assert OnlyOwnedDiffers(t, u, chain) by {
        assert u.chains - {chain} == t.chains - {chain};
      }
      ok := m.Run(version, AppendRule(chain, rules[i]));
      OnlyOwnedDiffersTransitive(t, u, m.tables.Get(version), chain);
      assert rules[..i + 1] == rules[..i] + [rules[i]];
      if !ok {
        return;
      }
    }
    assert rules[..|rules|] == rules;
    ok := true;
  }

  /**
   `_append_iptables_rules`. `reset` points at the first state of the trace in which the
   owned chain was created or emptied; from there on it only ever holds an initial part of
   the new rules.
   */
  method AppendIptablesRules(m: Machine, version: Version, endpoints: seq<Endpoint>)
      returns (ok: bool, ghost reset: nat)
    modifies m
    ensures m.tables == old(m.tables).Set(version, m.tables.Get(version))
    ensures OnlyOwnedDiffers(old(m.tables.Get(version)), m.tables.Get(version), OwnedChain(version))
    ensures ok ==>
      Installed(old(m.tables.Get(version)), m.tables.Get(version), OwnedChain(version), ChainRules(endpoints, version))
    ensures ok && BareJump(OwnedChain(version)) !in old(m.tables.Get(version).output) ==>
      m.tables.Get(version).output == [BareJump(OwnedChain(version))] + old(m.tables.Get(version).output)
    ensures m.Undisturbed(old(m.clock), m.clock) ==>
      && ok
      && m.tables.Get(version)
           == Finished(old(m.tables.Get(version)), OwnedChain(version), ChainRules(endpoints, version))
    ensures ResetTrace(old(m.tables), old(m.trace), m.trace, reset, version, ChainRules(endpoints, version))
    ensures old(m.clock) <= m.clock
  {
    ghost var t0, chain := m.tables.Get(version), OwnedChain(version);
    ok, reset := ResetChain(m, version, ChainRules(endpoints, version));
    if !ok {
      return;
    }
    ghost var t1 := m.tables.Get(version);
    ok := EnsureJump(m, version, ChainRules(endpoints, version), reset, old(m.tables), old(m.trace));
    ghost var t2 := m.tables.Get(version);
    OnlyOwnedDiffersTransitive(t0, t1, t2, chain);
    if !ok {
      return;
    }
    var rules := BuildChainRules(version, endpoints);
    ok := AppendAll(m, version, rules, reset, old(m.tables), old(m.trace));
    OnlyOwnedDiffersTransitive(t0, t2, m.tables.Get(version), chain);
  }

  /** In every state of an install from the reset on, also of one that was cut short, the
      owned chain drops a packet only when it is complete and the policy drops it, and accepts
      only what the policy accepts. */
  lemma EveryStateOfAnInstallIsHarmless(
    before: Tables, oldTrace: seq<Tables>, trace: seq<Tables>, reset: nat, version: Version,
    endpoints: seq<Endpoint>, i: nat, p: Packet, meaning: Meaning, depth: nat)
    requires ResetTrace(before, oldTrace, trace, reset, version, ChainRules(endpoints, version))
    requires reset <= i < |trace| && p.version == version
    ensures OwnedChain(version) in trace[i].Get(version).chains
    ensures
      var t := trace[i].Get(version);
      var chain := t.chains[OwnedChain(version)];
      var finished := Traverse(t, ChainRules(endpoints, version), p, meaning, depth);
      && (Traverse(t, chain, p, meaning, depth) == Dropped ==>
            chain == ChainRules(endpoints, version) && finished == Dropped)
      && (Traverse(t, chain, p, meaning, depth) == Accepted ==> finished == Accepted)
  {
    var t := trace[i].Get(version);
    UnfinishedChainIsHarmless(t, t.chains[OwnedChain(version)], endpoints, p, meaning, depth);
  }

  // ---------------------------------------------------------------- removal

  /** `while _run_ok([binary, "-D", "OUTPUT", "-j", chain]): pass`. Each success takes one
      owned jump away, so the loop ends whatever is disturbed. */
  method DeleteJumps(m: Machine, version: Version)
    modifies m
    ensures m.tables == old(m.tables).Set(version, m.tables.Get(version))
    ensures OnlyOwnedDiffers(old(m.tables.Get(version)), m.tables.Get(version), OwnedChain(version))
    ensures m.tables.Get(version) == old(m.tables.Get(version)).(output := m.tables.Get(version).output)
    ensures m.Undisturbed(old(m.clock), m.clock) ==>
      m.tables.Get(version).output == Foreign(old(m.tables.Get(version).output), OwnedChain(version))
    ensures old(m.clock) < m.clock
  {
    var chain := OwnedChain(version);
    ghost var t0 := m.tables.Get(version);
    DeleteJumpStep(t0, chain, m.faults(m.clock));
    var deleted := m.Run(version, DeleteJump(chain));
    while deleted
      invariant old(m.clock) < m.clock
      invariant m.tables == old(m.tables).Set(version, m.tables.Get(version))
      invariant m.tables.Get(version) == t0.(output := m.tables.Get(version).output)
      invariant Foreign(m.tables.Get(version).output, chain) == Foreign(t0.output, chain)
      invariant !deleted && m.faults(m.clock - 1) == NoFault ==>
        m.tables.Get(version).output == Foreign(t0.output, chain)
      decreases |m.tables.Get(version).output|, deleted
    {
      DeleteJumpStep(m.tables.Get(version), chain, m.faults(m.clock));
      deleted := m.Run(version, DeleteJump(chain));
    }
  }

  /** What `_remove_iptables_chain` reports about its last two commands. */
  predicate ReportsRemoved(flushed: bool, deleted: bool)
  {
    (!flushed && !deleted) || deleted
  }

  /**
   Flush, then delete. Undisturbed, the report is the truth. Disturbed, it claims success
   over a chain that is still there exactly when the flush failed and the deletion did
   not take effect: lost itself, refused because a foreign rule refers to the chain, or
   refused because the lost flush left the chain full.
   */
  lemma FlushThenDelete(t: Table, chain: string, flush: Fault, delete: Fault)
    ensures var r1 := Step(t, FlushChain(chain), flush);
      var r2 := Step(r1.state, DeleteChain(chain), delete);
      var ok := ReportsRemoved(r1.ok, r2.ok);
      && r2.state.output == t.output
      && (flush == delete == NoFault && BareJump(chain) !in t.output ==>
            r2.state == Cleared(t, chain) && (ok <==> chain !in r2.state.chains))
      && (chain in t.chains ==>
            (ok && chain in r2.state.chains <==>
              && flush != NoFault
              && (delete == Lost || Referenced(t, chain) || (flush == Lost && t.chains[chain] != []))))
  {
    var r1 := Step(t, FlushChain(chain), flush);
    ReferencesAreOutside(t, r1.state, chain);
    if chain in t.chains {
      assert t.chains[chain := []] - {chain} == t.chains - {chain};
    }
  }

  /** A case of that kind: the flush of a full chain is lost, so the kernel refuses to delete
      it, and the two failures together are taken for a chain that was never there. */
  lemma SurvivingChainIsReportedRemoved(chain: string, rule: Rule, policy: Decision)
    ensures var t := Table([], policy, map[chain := [rule]]);
      var r1 := Step(t, FlushChain(chain), Lost);
      var r2 := Step(r1.state, DeleteChain(chain), NoFault);
      ReportsRemoved(r1.ok, r2.ok) && r2.state == t
  {
    var t := Table([], policy, map[chain := [rule]]);
    FlushThenDelete(t, chain, Lost, NoFault);
  }

  /** The last two commands of `_remove_iptables_chain`, and its report. */
  method FlushAndDelete(m: Machine, version: Version) returns (ok: bool)
    modifies m
    ensures m.tables == old(m.tables).Set(version, m.tables.Get(version))
    ensures OnlyOwnedDiffers(old(m.tables.Get(version)), m.tables.Get(version), OwnedChain(version))
    ensures var t, u, chain := old(m.tables.Get(version)), m.tables.Get(version), OwnedChain(version);
      var flush, delete := m.faults(old(m.clock)), m.faults(old(m.clock) + 1);
      && u.output == t.output
      && (flush == delete == NoFault && BareJump(chain) !in t.output ==>
            u == Cleared(t, chain) && (ok <==> chain !in u.chains))
      && (chain in t.chains ==>
            (ok && chain in u.chains <==>
              && flush != NoFault
              && (delete == Lost || Referenced(u, chain) || (flush == Lost && t.chains[chain] != []))))
    ensures m.clock == old(m.clock) + 2
  {
    var chain := OwnedChain(version);
    ghost var t1 := m.tables.Get(version);
    FlushThenDelete(t1, chain, m.faults(m.clock), m.faults(m.clock + 1));
    var flushed := m.Run(version, FlushChain(chain));
    ghost var t2 := m.tables.Get(version);
    var deleted := m.Run(version, DeleteChain(chain));
    OnlyOwnedDiffersTransitive(t1, t2, m.tables.Get(version), chain);
    ReferencesAreOutside(t1, m.tables.Get(version), chain);
    ok := ReportsRemoved(flushed, deleted);
  }

  /** `_remove_iptables_chain` */
  method RemoveIptablesChain(m: Machine, version: Version) returns (ok: bool)
    modifies m
    ensures m.tables == old(m.tables).Set(version, m.tables.Get(version))
    ensures OnlyOwnedDiffers(old(m.tables.Get(version)), m.tables.Get(version), OwnedChain(version))
    ensures !m.Available(version) ==> ok && m.tables == old(m.tables) && m.clock == old(m.clock)
    ensures m.Available(version) ==> old(m.clock) + 3 <= m.clock
    ensures m.Available(version) && m.Undisturbed(old(m.clock), m.clock) ==>
      && m.tables.Get(version) == Cleared(old(m.tables.Get(version)), OwnedChain(version))
      && (ok <==> OwnedChain(version) !in m.tables.Get(version).chains)
    ensures m.Available(version) && OwnedChain(version) in old(m.tables.Get(version).chains) ==>
      var chain, contents := OwnedChain(version), old(m.tables.Get(version).chains[OwnedChain(version)]);
      var flush, delete := m.faults(m.clock - 2), m.faults(m.clock - 1);
      ok && chain in m.tables.Get(version).chains <==>
        && flush != NoFault
        && (delete == Lost || Referenced(m.tables.Get(version), chain) || (flush == Lost && contents != []))
  {
    if !m.Available(version) {
      return true;
    }
    var chain := OwnedChain(version);
    ghost var t0 := m.tables.Get(version);
    DeleteJumps(m, version);
    ghost var t1 := m.tables.Get(version);
    RemovalIgnoresOwnedJumps(t0, t1, chain);
    ok := FlushAndDelete(m, version);
    ghost var t3 := m.tables.Get(version);
    OnlyOwnedDiffersTransitive(t0, t1, t3, chain);
    assert t3.output == t1.output;
    assert m.Undisturbed(old(m.clock), m.clock) ==>
      BareJump(chain) !in t1.output && m.faults(m.clock - 2) == m.faults(m.clock - 1) == NoFault;
  }

  /** `remove_owned_firewall` */
  method RemoveOwnedFirewall(m: Machine) returns (ok: bool)
    modifies m
    ensures !m.root ==> !ok && m.tables == old(m.tables) && m.clock == old(m.clock)
    ensures forall version: Version ::
      OnlyOwnedDiffers(old(m.tables).Get(version), m.tables.Get(version), OwnedChain(version))
    ensures m.root && m.Undisturbed(old(m.clock), m.clock) ==>
      && (forall version: Version | m.Available(version) ::
            m.tables.Get(version) == Cleared(old(m.tables).Get(version), OwnedChain(version)))
      && (forall version: Version | !m.Available(version) :: m.tables.Get(version) == old(m.tables).Get(version))
      && m.tables.nft == (if m.hasNft then None else old(m.tables).nft)
      && (ok <==> forall version: Version | m.Available(version) ::
            OwnedChain(version) !in m.tables.Get(version).chains)
    ensures m.root && m.Undisturbed(old(m.clock), m.clock) ==>
      && m.tables.v4 == (if m.hasIptables then Cleared(old(m.tables).v4, IPTABLES_CHAIN) else old(m.tables).v4)
      && m.tables.v6 == (if m.hasIp6tables then Cleared(old(m.tables).v6, IP6TABLES_CHAIN) else old(m.tables).v6)
    ensures !m.hasNft ==> m.tables.nft == old(m.tables).nft
    ensures m.root && !m.hasNft && !m.hasIptables && !m.hasIp6tables ==> ok && m.tables == old(m.tables)
    ensures old(m.clock) <= m.clock
  {
    if !m.root {
      return false;
    }
    var nftOk := DeleteNftTable(m);
    ghost var c1 := m.clock;
    var ipv4Ok := RemoveIptablesChain(m, V4);
    ghost var c2 := m.clock;
    var ipv6Ok := RemoveIptablesChain(m, V6);
    ok := nftOk && ipv4Ok && ipv6Ok;
    assert m.Undisturbed(old(m.clock), m.clock) ==>
      m.Undisturbed(old(m.clock), c1) && m.Undisturbed(c1, c2) && m.Undisturbed(c2, m.clock);
    assert m.tables.v4 == m.tables.Get(V4) && m.tables.v6 == m.tables.Get(V6);
  }

  /** A case without any disturbance: a kill switch was installed by iptables or nftables, and then the
      binaries are gone. The removal reports success, and all of it is still there. */
  method MissingBinariesHideKillSwitch(endpoints: seq<Endpoint>, policy: Decision)
      returns (m: Machine, before: Tables, ok: bool)
    ensures before == Tables(
      Finished(Table([], policy, map[]), IPTABLES_CHAIN, ChainRules(endpoints, V4)),
      Finished(Table([], policy, map[]), IP6TABLES_CHAIN, ChainRules(endpoints, V6)), Some(NftRules(endpoints)))
    ensures m.root && (forall i :: m.faults(i) == NoFault) && m.tables == before && ok
    ensures forall version: Version ::
      && OwnedChain(version) in m.tables.Get(version).chains
      && BareJump(OwnedChain(version)) in m.tables.Get(version).output
  {
    var empty := Table([], policy, map[]);
    before := Tables(
      Finished(empty, IPTABLES_CHAIN, ChainRules(endpoints, V4)),
      Finished(empty, IP6TABLES_CHAIN, ChainRules(endpoints, V6)), Some(NftRules(endpoints)));
    m := new Machine(before, _ => NoFault, true, true, false, false, false);
    ok := RemoveOwnedFirewall(m);
  }

  // ---------------------------------------------------------------- installation

  /** Both families hold the finished owned chain, and nothing else changed. */
  ghost predicate InstalledBoth(before: Tables, after: Tables, endpoints: seq<Endpoint>)
  {
    && after.nft == before.nft
    && forall version: Version ::
        Installed(before.Get(version), after.Get(version), OwnedChain(version), ChainRules(endpoints, version))
  }

  /** No owned jump, and of the owned chain at most an empty one that others refer to. */
  ghost predicate NothingOwned(t: Table, chain: string)
  {
    BareJump(chain) !in t.output && (chain in t.chains ==> t.chains[chain] == [] && Referenced(t, chain))
  }

  /** Both families are as an undisturbed install leaves them. */
  ghost predicate FinishedBoth(before: Tables, after: Tables, endpoints: seq<Endpoint>)
  {
    forall version: Version ::
      after.Get(version) == Finished(before.Get(version), OwnedChain(version), ChainRules(endpoints, version))
  }

  lemma BothFamilies(t0: Tables, t1: Tables, t2: Tables)
    requires forall version: Version ::
      && OnlyOwnedDiffers(t0.Get(version), t1.Get(version), OwnedChain(version))
      && OnlyOwnedDiffers(t1.Get(version), t2.Get(version), OwnedChain(version))
    ensures forall version: Version :: OnlyOwnedDiffers(t0.Get(version), t2.Get(version), OwnedChain(version))
  {
  }

  lemma ClearedOwnsNothing(t: Table, chain: string)
    ensures NothingOwned(Cleared(t, chain), chain)
  {
    var t1 := t.(output := Foreign(t.output, chain));
    if chain in t.chains && Referenced(t1, chain) {
      ReferencesAreOutside(t1, Cleared(t, chain), chain);
    }
  }

  /** What a cleanup of both families makes of a half-done install. */
  lemma ClearedBoth(before: Tables, half: Tables, after: Tables)
    requires forall version: Version ::
      && OnlyOwnedDiffers(before.Get(version), half.Get(version), OwnedChain(version))
      && after.Get(version) == Cleared(half.Get(version), OwnedChain(version))
    ensures forall version: Version :: NothingOwned(after.Get(version), OwnedChain(version))
    ensures CleanTables(before) && after.nft == before.nft ==> after == before
  {
    forall version: Version
      ensures NothingOwned(after.Get(version), OwnedChain(version))
      ensures Clean(before.Get(version), OwnedChain(version)) ==> after.Get(version) == before.Get(version)
    {
      ClearedOwnsNothing(half.Get(version), OwnedChain(version));
      if Clean(before.Get(version), OwnedChain(version)) {
        ClearingUndoesAnyInstall(before.Get(version), half.Get(version), OwnedChain(version));
      }
    }
    assert after == Tables(after.Get(V4), after.Get(V6), after.nft);
    assert before == Tables(before.Get(V4), before.Get(V6), before.nft);
  }

  /** A case: with nothing foreign in the table and a policy that accepts, what a failed install over
      an earlier one leaves behind lets every packet leave. */
  lemma FailedReinstallOpens(half: Table, version: Version, p: Packet, meaning: Meaning)
    requires OnlyOwnedDiffers(Table([], Accepted, map[]), half, OwnedChain(version))
    ensures OutputFate(Cleared(half, OwnedChain(version)), p, meaning) == Accepted
  {
    ClearingUndoesAnyInstall(Table([], Accepted, map[]), half, OwnedChain(version));
  }

  /**
   `_apply_iptables_firewall`. Whatever is disturbed, foreign rules and chains stay as they
   were. A failed install from clean tables leaves exactly the tables it found, provided its
   own cleanup (the commands from `cleanup` on) is not disturbed. From any other tables, an
   earlier install among them, such a cleanup takes away all that is owned, but for an empty
   chain that foreign rules refer to.
   */
  method ApplyIptablesFirewall(m: Machine, endpoints: seq<Endpoint>) returns (ok: bool, ghost cleanup: nat)
    modifies m
    ensures !m.hasIptables || !m.hasIp6tables ==> !ok && m.tables == old(m.tables)
    ensures forall version: Version ::
      OnlyOwnedDiffers(old(m.tables).Get(version), m.tables.Get(version), OwnedChain(version))
    ensures m.hasIptables && m.hasIp6tables && m.Undisturbed(old(m.clock), m.clock) ==>
      ok && FinishedBoth(old(m.tables), m.tables, endpoints)
    ensures ok ==> InstalledBoth(old(m.tables), m.tables, endpoints)
    ensures ok ==> forall version: Version | Clean(old(m.tables).Get(version), OwnedChain(version)) ::
      m.tables.Get(version).output == [BareJump(OwnedChain(version))] + old(m.tables).Get(version).output
    ensures old(m.clock) <= cleanup <= m.clock
    ensures !ok && m.root && CleanTables(old(m.tables)) && m.Undisturbed(cleanup, m.clock) ==>
      m.tables == old(m.tables)
    ensures !ok && m.root && m.hasIptables && m.hasIp6tables && m.Undisturbed(cleanup, m.clock) ==>
      && (forall version: Version :: NothingOwned(m.tables.Get(version), OwnedChain(version)))
      && m.tables.nft == if m.hasNft then None else old(m.tables).nft
    ensures !m.hasNft ==> m.tables.nft == old(m.tables).nft
  {
    cleanup := m.clock;
    if !m.hasIptables || !m.hasIp6tables {
      return false, cleanup;
    }
    var ipv4Ok, _ := AppendIptablesRules(m, V4, endpoints);
    ghost var c1 := m.clock;
    var ipv6Ok, _ := AppendIptablesRules(m, V6, endpoints);
    cleanup := m.clock;
    assert m.Undisturbed(old(m.clock), m.clock) ==> m.Undisturbed(old(m.clock), c1) && m.Undisturbed(c1, m.clock);
    ok := ipv4Ok && ipv6Ok;
    if !ok {
      ghost var half := m.tables;
      var _ := RemoveOwnedFirewall(m);
      BothFamilies(old(m.tables), half, m.tables);
      if m.root && m.Undisturbed(cleanup, m.clock) {
        ClearedBoth(old(m.tables), half, m.tables);
      }
    }
  }

  // ---------------------------------------------------------------- enforcement

  /** What both filter tables do with outgoing packets is exactly the policy for `endpoints`. */
  ghost predicate Enforces(tables: Tables, endpoints: seq<Endpoint>, meaning: Meaning)
  {
    forall version: Version :: TableEnforces(tables.Get(version), version, endpoints, meaning)
  }

  /** The same for the nftables backend. */
  ghost predicate NftEnforces(tables: Tables, endpoints: seq<Endpoint>)
  {
    tables.nft.Some? && forall p: Packet :: NftFate(tables.nft.value, p) == Verdict(p, true, endpoints)
  }

  /** In both families no rule in front of the first owned jump contradicts the policy. */
  ghost predicate QuietInFrontOfJumps(tables: Tables, endpoints: seq<Endpoint>, meaning: Meaning)
  {
    forall version: Version :: QuietInFront(tables.Get(version), OwnedChain(version), version, endpoints, meaning)
  }

  predicate JumpAbsentOrFirst(output: seq<Rule>, chain: string)
  {
    BareJump(chain) !in output || output[0] == BareJump(chain)
  }

  /** A finished install enforces the policy if and only if nothing in front of the owned
      jumps contradicts it: the check for the jump only asks whether it is there. */
  lemma InstalledEnforcesIff(before: Tables, after: Tables, endpoints: seq<Endpoint>, meaning: Meaning)
    requires InstalledBoth(before, after, endpoints)
    ensures Enforces(after, endpoints, meaning) <==> QuietInFrontOfJumps(after, endpoints, meaning)
  {
    forall version: Version
      ensures TableEnforces(after.Get(version), version, endpoints, meaning)
         <==> QuietInFront(after.Get(version), OwnedChain(version), version, endpoints, meaning)
    {
      assert Installed(before.Get(version), after.Get(version), OwnedChain(version), ChainRules(endpoints, version));
      TableEnforcesIff(after.Get(version), OwnedChain(version), version, endpoints, meaning);
    }
  }

  /** From tables where each owned jump is absent or first, every finished install enforces
      the policy. */
  lemma InstalledFirstEnforces(before: Tables, after: Tables, endpoints: seq<Endpoint>, meaning: Meaning)
    requires InstalledBoth(before, after, endpoints)
    requires forall version: Version :: JumpAbsentOrFirst(before.Get(version).output, OwnedChain(version))
    ensures Enforces(after, endpoints, meaning)
  {
    forall version: Version
      ensures QuietInFront(after.Get(version), OwnedChain(version), version, endpoints, meaning)
    {
      assert Installed(before.Get(version), after.Get(version), OwnedChain(version), ChainRules(endpoints, version));
      NothingInFrontIsQuiet(after.Get(version), OwnedChain(version), version, endpoints, meaning);
    }
    InstalledEnforcesIff(before, after, endpoints, meaning);
  }

  /** The policy drops the packets to the next port of an endpoint's address. */
  lemma NextPortIsDropped(e: Endpoint, dhcp: bool)
    requires !IsLocal(e.address)
    ensures Verdict(Probe(e).(dport := e.port + 1), dhcp, [e]) == Dropped
  {
    ProbeMeaning(Endpoint(e.address, e.port + 1), [e]);
  }

  /** OUTPUT with one rule for all packets in front of the owned jump, and the chain complete. */
  function Behind(target: Target, version: Version, endpoints: seq<Endpoint>, policy: Decision): Table
  {
    Table([Rule(ANY_PACKET, target), BareJump(OwnedChain(version))], policy,
          map[OwnedChain(version) := ChainRules(endpoints, version)])
  }

  /** An undisturbed re-enable leaves such a table as it is. */
  lemma BehindIsFinished(target: Target, version: Version, endpoints: seq<Endpoint>, policy: Decision)
    ensures var t, rules := Behind(target, version, endpoints, policy), ChainRules(endpoints, version);
      Finished(t, OwnedChain(version), rules) == t && Installed(t, t, OwnedChain(version), rules)
  {
    var t := Behind(target, version, endpoints, policy);
    assert t.output[1] == BareJump(OwnedChain(version));
    assert t.chains[OwnedChain(version) := ChainRules(endpoints, version)] == t.chains;
  }

  lemma BehindFate(target: Target, version: Version, endpoints: seq<Endpoint>, policy: Decision, p: Packet,
                   meaning: Meaning)
    requires p.version == version && !target.Jump? && !target.Goto?
    ensures OutputFate(Behind(target, version, endpoints, policy), p, meaning) ==
      match target
      case Accept => Accepted
      case Drop | Reject => Dropped
      case Queue => Queued
      case Return => policy
      case _ => Verdict(p, version == V4, endpoints)
  {
    var t, chain := Behind(target, version, endpoints, policy), OwnedChain(version);
    assert t.output[1] == BareJump(chain) && t.output[1..] == [BareJump(chain)];
    assert |t.chains| == 1;
    JumpDecides(t, t.output[1..], chain, endpoints, p, meaning, |t.chains|);
  }

  /** For all endpoints the policy accepts one packet and drops another. */
  lemma PolicyIsMixed(version: Version, dhcp: bool, endpoints: seq<Endpoint>)
    ensures Verdict(Packet(version, CtState.New, "lo", 1, OtherProtocol, 0, 0), dhcp, endpoints) == Accepted
    ensures Verdict(Packet(version, CtState.New, "eth0", 1, OtherProtocol, 0, 0), dhcp, endpoints) == Dropped
  {
    assert |"eth0"| == 4 && |"lo"| == 2 && |TUN_INTERFACE| == 15;
  }

  /** A re-enable that finds its jump behind a foreign rule for all packets, other than a jump: it
      succeeds, changes nothing, and the table enforces the policy if and only if that rule decides
      nothing. A rule that returns is not of that kind, whatever the policy of OUTPUT. */
  lemma CatchAllInFrontIff(target: Target, version: Version, endpoints: seq<Endpoint>, policy: Decision,
                           meaning: Meaning)
    requires !target.Jump? && !target.Goto?
    ensures var t := Behind(target, version, endpoints, policy);
      && Installed(t, t, OwnedChain(version), ChainRules(endpoints, version))
      && (TableEnforces(t, version, endpoints, meaning) <==> target.Other?)
  {
    var t := Behind(target, version, endpoints, policy);
    var p := Packet(version, CtState.New, "lo", 1, OtherProtocol, 0, 0);
    var q := p.(oifname := "eth0");
    BehindIsFinished(target, version, endpoints, policy);
    PolicyIsMixed(version, version == V4, endpoints);
    BehindFate(target, version, endpoints, policy, p, meaning);
    BehindFate(target, version, endpoints, policy, q, meaning);
    if target.Other? {
      forall p: Packet | p.version == version
        ensures OutputFate(t, p, meaning) == Verdict(p, version == V4, endpoints)
      {
        BehindFate(target, version, endpoints, policy, p, meaning);
      }
    }
  }

  /** A case: the rule in front accepts, or returns to a policy that accepts. A packet to the next port
      of the endpoint's address leaves, although the policy drops it. */
  lemma ForeignRuleInFrontWins(target: Target, version: Version, e: Endpoint, meaning: Meaning)
    requires e.address.version == version && !IsLocal(e.address) && target in {Accept, Return}
    ensures var t, rules := Behind(target, version, [e], Accepted), ChainRules([e], version);
      var p := Probe(e).(dport := e.port + 1);
      && Finished(t, OwnedChain(version), rules) == t
      && OutputFate(t, p, meaning) == Accepted && Verdict(p, version == V4, [e]) == Dropped
  {
    BehindIsFinished(target, version, [e], Accepted);
    BehindFate(target, version, [e], Accepted, Probe(e).(dport := e.port + 1), meaning);
    NextPortIsDropped(e, version == V4);
  }

  lemma NftTableEnforces(tables: Tables, endpoints: seq<Endpoint>)
    requires tables.nft == Some(NftRules(endpoints))
    ensures NftEnforces(tables, endpoints)
  {
    forall p: Packet
      ensures NftFate(NftRules(endpoints), p) == Verdict(p, true, endpoints)
    {
      NftMeaning(endpoints, p);
    }
  }

  /** A case of a disturbed probe: the install for `e` reports success with the rules of an
      earlier install for `earlier` in front, and packets to `e` are dropped. */
  lemma StaleNftInstallReportsSuccess(earlier: Endpoint, e: Endpoint)
    requires !IsLocal(earlier.address) && !IsLocal(e.address) && earlier != e
    ensures var rules := NftRules([e]);
      var probe := Disturb(Some(NftRules([earlier])), NftEffect(Some(NftRules([earlier])), ListTable), Lost);
      var check := Disturb(probe.state, NftEffect(probe.state, CheckFile(rules)), NoFault);
      var load := Disturb(check.state, NftEffect(check.state, LoadFile(rules)), NoFault);
      var list := Disturb(load.state, NftEffect(load.state, ListTable), NoFault);
      && !probe.ok && check.ok && load.ok && list.ok
      && list.state == Some(NftRules([earlier]) + rules)
      && NftFate(list.state.value, Probe(e)) == Dropped && Verdict(Probe(e), true, [e]) == Accepted
  {
    AppendedNftRulesAreDead([earlier], NftRules([e]), Probe(e));
    NftMeaning([earlier], Probe(e));
    ProbeMeaning(e, [earlier]);
    ProbeMeaning(e, [e]);
  }

  /** The nftables table lets exactly those packets out that may leave. */
  ghost predicate NftLetsOut(tables: Tables, raws: seq<RawEndpoint>, isGlobal: Address -> bool)
  {
    tables.nft.Some? && forall p: Packet ::
      NftFate(tables.nft.value, p) == if MayLeave(p, true, raws, isGlobal) then Accepted else Dropped
  }

  /** The same for OUTPUT of both filter tables. */
  ghost predicate LetsOut(tables: Tables, raws: seq<RawEndpoint>, isGlobal: Address -> bool, meaning: Meaning)
  {
    forall p: Packet :: OutputFate(tables.Get(p.version), p, meaning) ==
      if MayLeave(p, p.version == V4, raws, isGlobal) then Accepted else Dropped
  }

  lemma NftEnforcesMeans(tables: Tables, raws: seq<RawEndpoint>, isGlobal: Address -> bool)
    requires NftEnforces(tables, FirstOccurrences(UsableEndpoints(raws, isGlobal)))
    ensures NftLetsOut(tables, raws, isGlobal)
  {
    forall p: Packet
      ensures NftFate(tables.nft.value, p) == if MayLeave(p, true, raws, isGlobal) then Accepted else Dropped
    {
      VerdictIff(p, true, raws, isGlobal);
    }
  }

  lemma EnforcesMeans(tables: Tables, raws: seq<RawEndpoint>, isGlobal: Address -> bool, meaning: Meaning)
    requires Enforces(tables, FirstOccurrences(UsableEndpoints(raws, isGlobal)), meaning)
    ensures LetsOut(tables, raws, isGlobal, meaning)
  {
    forall p: Packet
      ensures OutputFate(tables.Get(p.version), p, meaning) ==
        if MayLeave(p, p.version == V4, raws, isGlobal) then Accepted else Dropped
    {
      assert TableEnforces(tables.Get(p.version), p.version,
                           FirstOccurrences(UsableEndpoints(raws, isGlobal)), meaning);
      VerdictIff(p, p.version == V4, raws, isGlobal);
    }
  }

  predicate MayRun(m: Machine, defaultInterface: Option<string>, endpoints: seq<Endpoint>)
  {
    && m.root && m.hasIp && defaultInterface.Some? && endpoints != []
    && (m.hasNft || (m.hasIptables && m.hasIp6tables))
  }

  /**
   `enable_kill_switch`. It changes nothing unless it runs as root, with `ip` present, a
   default interface and at least one usable endpoint; without disturbed commands it
   succeeds whenever it may. What success means, from any tables at all:
   with nftables, every outgoing packet meets the policy for exactly the usable endpoints,
   unless the probe for a previous table was disturbed; then it does if and only if the
   previous table never contradicts the policy.
   With iptables, it does if and only if no rule in front of the owned jumps contradicts
   the policy, by a verdict or by a return to the policy of OUTPUT; which is certain when
   each jump was absent or first before.
   */
  method EnableKillSwitch(m: Machine, defaultInterface: Option<string>,
                          raws: seq<RawEndpoint>, isGlobal: Address -> bool) returns (ok: bool)
    modifies m
    ensures var mayRun := MayRun(m, defaultInterface, FirstOccurrences(UsableEndpoints(raws, isGlobal)));
      && (!mayRun ==> !ok && m.tables == old(m.tables))
      && (mayRun && m.Undisturbed(old(m.clock), m.clock) ==> ok)
    ensures ok && m.hasNft ==>
      var endpoints := FirstOccurrences(UsableEndpoints(raws, isGlobal));
      if old(m.tables).nft == None || m.faults(old(m.clock)) == NoFault then NftEnforces(m.tables, endpoints)
      else NftEnforces(m.tables, endpoints) <==> NeverContradicts(old(m.tables).nft.value, endpoints)
    ensures ok && m.hasNft && (old(m.tables).nft == None || m.faults(old(m.clock)) == NoFault) ==>
      NftLetsOut(m.tables, raws, isGlobal)
    ensures ok && !m.hasNft ==>
      (forall version: Version :: JumpAbsentOrFirst(old(m.tables).Get(version).output, OwnedChain(version))) ==>
      forall meaning: Meaning :: LetsOut(m.tables, raws, isGlobal, meaning)
    ensures ok && !m.hasNft ==>
      var endpoints := FirstOccurrences(UsableEndpoints(raws, isGlobal));
      && InstalledBoth(old(m.tables), m.tables, endpoints)
      && (forall meaning: Meaning ::
            Enforces(m.tables, endpoints, meaning) <==> QuietInFrontOfJumps(m.tables, endpoints, meaning))
      && (m.Undisturbed(old(m.clock), m.clock) ==> FinishedBoth(old(m.tables), m.tables, endpoints))
      && ((forall version: Version ::
             JumpAbsentOrFirst(old(m.tables).Get(version).output, OwnedChain(version))) ==>
           forall meaning: Meaning :: Enforces(m.tables, endpoints, meaning))
    ensures forall version: Version ::
      OnlyOwnedDiffers(old(m.tables).Get(version), m.tables.Get(version), OwnedChain(version))
    ensures m.hasNft ==> m.tables == old(m.tables).(nft := m.tables.nft)
    ensures !m.hasNft ==> m.tables.nft == old(m.tables).nft
    ensures old(m.clock) <= m.clock
  {
    if !m.root || !m.hasIp || defaultInterface == None {
      return false;
    }
    var endpoints := NormalizeEndpoints(raws, isGlobal);
    if endpoints == [] {
      return false;
    }
    if m.hasNft {
      ok := ApplyNftFirewall(m, endpoints);
      if m.tables.nft == Some(NftRules(endpoints)) {
        NftTableEnforces(m.tables, endpoints);
        NftEnforcesMeans(m.tables, raws, isGlobal);
      }
      if old(m.tables).nft.Some? {
        StaleNftRulesIff(old(m.tables).nft.value, endpoints);
      }
    } else {
      ghost var cleanup;
      ok, cleanup := ApplyIptablesFirewall(m, endpoints);
      if ok {
        forall meaning: Meaning
          ensures Enforces(m.tables, endpoints, meaning) <==> QuietInFrontOfJumps(m.tables, endpoints, meaning)
          ensures (forall version: Version ::
            JumpAbsentOrFirst(old(m.tables).Get(version).output, OwnedChain(version))) ==>
              Enforces(m.tables, endpoints, meaning) && LetsOut(m.tables, raws, isGlobal, meaning)
        {
          InstalledEnforcesIff(old(m.tables), m.tables, endpoints, meaning);
          if forall version: Version :: JumpAbsentOrFirst(old(m.tables).Get(version).output, OwnedChain(version)) {
            InstalledFirstEnforces(old(m.tables), m.tables, endpoints, meaning);
            EnforcesMeans(m.tables, raws, isGlobal, meaning);
          }
        }
      }
    }
  }

  /** Enable the kill switch, then remove it: without disturbed commands the round trip from clean
      tables ends where it began, with either backend, and also when the enable was refused. */
  method InstallThenRemove(m: Machine, defaultInterface: Option<string>,
                           raws: seq<RawEndpoint>, isGlobal: Address -> bool)
      returns (installed: bool, removed: bool)
    requires CleanTables(m.tables)
    modifies m
    ensures m.Undisturbed(old(m.clock), m.clock) ==>
      && m.tables == old(m.tables)
      && removed == m.root
      && (installed <==> MayRun(m, defaultInterface, FirstOccurrences(UsableEndpoints(raws, isGlobal))))
  {
    installed := EnableKillSwitch(m, defaultInterface, raws, isGlobal);
    ghost var middle, between := m.tables, m.clock;
    removed := RemoveOwnedFirewall(m);
    assert m.Undisturbed(old(m.clock), m.clock) ==>
      m.Undisturbed(old(m.clock), between) && m.Undisturbed(between, m.clock);
    forall version: Version
      ensures Cleared(middle.Get(version), OwnedChain(version)) == old(m.tables).Get(version)
    {
      ClearingUndoesAnyInstall(old(m.tables).Get(version), middle.Get(version), OwnedChain(version));
    }
    assert m.tables.Get(V4) == m.tables.v4 && m.tables.Get(V6) == m.tables.v6;
  }
}
