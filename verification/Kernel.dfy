/**
 The firewall state of the operating system and the commands that change it. Every
 command has the precondition the kernel puts on it; besides, each one may be disturbed:
 lost before it ran, or cut off (a timeout) after it took effect but before it reported.
 */
module Kernel {
  import opened Sequences
  import opened FirewallPolicy
  import opened Iptables

  datatype Fault = NoFault | Lost | Late

  datatype Command =
    | NewChain(chain: string)
    | FlushChain(chain: string)
    | CheckJump(chain: string)
    | InsertJump(chain: string)
    | AppendRule(chain: string, rule: Rule)
    | DeleteJump(chain: string)
    | DeleteChain(chain: string)

  // ---------------------------------------------------------------- tables

  /** OUTPUT without the rules that are exactly the owned jump. */
  function Foreign(output: seq<Rule>, chain: string): (r: seq<Rule>)
    ensures BareJump(chain) !in r
    ensures BareJump(chain) !in output ==> r == output
    ensures forall rule :: rule in r <==> rule in output && rule != BareJump(chain)
  {
    if output == [] then []
    else if output[0] == BareJump(chain) then Foreign(output[1..], chain)
    else [output[0]] + Foreign(output[1..], chain)
  }

  /** `-D OUTPUT -j chain` removes the first owned jump. */
  function WithoutFirstJump(output: seq<Rule>, chain: string): (r: seq<Rule>)
    requires BareJump(chain) in output
    ensures |r| == |output| - 1
    ensures Foreign(r, chain) == Foreign(output, chain)
    ensures forall rule :: rule in r ==> rule in output
  {
    if output[0] == BareJump(chain) then output[1..]
    else [output[0]] + WithoutFirstJump(output[1..], chain)
  }

  predicate JumpsTo(rules: seq<Rule>, chain: string)
  {
    exists rule <- rules :: RefersTo(rule, chain)
  }

  /** Some rule outside `chain` itself jumps to it. */
  predicate Referenced(t: Table, chain: string)
  {
    JumpsTo(t.output, chain) || exists c <- t.chains :: c != chain && JumpsTo(t.chains[c], chain)
  }

  // ---------------------------------------------------------------- commands

  /** The table after a command the kernel accepts, `None` when it refuses. */
  function Effect(t: Table, c: Command): Option<Table>
  {
    match c
    case NewChain(chain) =>
      if chain in t.chains then None else Some(t.(chains := t.chains[chain := []]))
    case FlushChain(chain) =>
      if chain in t.chains then Some(t.(chains := t.chains[chain := []])) else None
    case CheckJump(chain) =>
      if BareJump(chain) in t.output then Some(t) else None
    case InsertJump(chain) =>
      if chain in t.chains then Some(t.(output := [BareJump(chain)] + t.output)) else None
    case AppendRule(chain, rule) =>
      if chain in t.chains then Some(t.(chains := t.chains[chain := t.chains[chain] + [rule]])) else None
    case DeleteJump(chain) =>
      if BareJump(chain) in t.output then Some(t.(output := WithoutFirstJump(t.output, chain))) else None
    case DeleteChain(chain) =>
      if chain in t.chains && t.chains[chain] == [] && !Referenced(t, chain)
      then Some(t.(chains := t.chains - {chain})) else None
  }

  /** The kernel refuses every command on a chain or a table that is not there. */
  lemma NothingThereNothingDone(t: Table, c: Command)
    requires c.chain !in t.chains && (c.FlushChain? || c.InsertJump? || c.AppendRule? || c.DeleteChain?)
    ensures Effect(t, c) == None && NftEffect(None, DeleteTable) == NftEffect(None, ListTable) == None
  {
  }

  datatype Reply<T> = Reply(state: T, ok: bool)

  function Disturb<T>(before: T, effect: Option<T>, fault: Fault): Reply<T>
  {
    match fault
    case NoFault => if effect.Some? then Reply(effect.value, true) else Reply(before, false)
    case Lost => Reply(before, false)
    case Late => Reply(if effect.Some? then effect.value else before, false)
  }

  function Step(t: Table, c: Command, fault: Fault): Reply<Table>
  {
    Disturb(t, Effect(t, c), fault)
  }

  datatype NftCommand = ListTable | DeleteTable | CheckFile(rules: seq<NftRule>) | LoadFile(rules: seq<NftRule>)

  /** The owned nftables table. Loading a file into an existing table adds to its chain. */
  function NftEffect(table: Option<seq<NftRule>>, c: NftCommand): Option<Option<seq<NftRule>>>
  {
    match c
    case ListTable => if table.Some? then Some(table) else None
    case DeleteTable => if table.Some? then Some(None) else None
    case CheckFile(_) => Some(table)
    case LoadFile(rules) => Some(Some(if table.Some? then table.value + rules else rules))
  }

  /** `t` differs from `t0` in owned objects only: the policy, the foreign rules and the foreign
      chains are the same, in the same order. */
  ghost predicate OnlyOwnedDiffers(t0: Table, t: Table, chain: string)
  {
    && t.policy == t0.policy
    && Foreign(t.output, chain) == Foreign(t0.output, chain)
    && t.chains - {chain} == t0.chains - {chain}
  }

  /** A command on the owned chain touches owned objects only, disturbed or not. */
  lemma StepChangesOnlyOwned(t: Table, c: Command, fault: Fault)
    ensures OnlyOwnedDiffers(t, Step(t, c, fault).state, c.chain)
  {
    var chain := c.chain;
    var u := Step(t, c, fault).state;
    assert Foreign(u.output, chain) == Foreign(t.output, chain) by {
      assert ([BareJump(chain)] + t.output)[1..] == t.output;
    }
    assert u.chains - {chain} == t.chains - {chain};
  }

  /** What the owned chain holds, or whether it exists, does not change who refers to it. */
  lemma ReferencesAreOutside(t: Table, u: Table, chain: string)
    requires t.output == u.output && t.chains - {chain} == u.chains - {chain}
    ensures Referenced(t, chain) <==> Referenced(u, chain)
  {
    forall c | c != chain
      ensures c in t.chains <==> c in u.chains
      ensures c in t.chains ==> t.chains[c] == u.chains[c]
    {
      assert c in t.chains <==> c in t.chains - {chain};
      assert c in u.chains <==> c in u.chains - {chain};
    }
  }

  lemma CheckJumpStep(t: Table, chain: string, fault: Fault)
    ensures var reply := Step(t, CheckJump(chain), fault);
      && reply.state == t
      && (reply.ok <==> BareJump(chain) in t.output && fault == NoFault)
  {
  }

  lemma InsertJumpStep(t: Table, chain: string, fault: Fault)
    ensures var reply := Step(t, InsertJump(chain), fault);
      && reply.state in {t, t.(output := [BareJump(chain)] + t.output)}
      && (reply.ok ==> reply.state == t.(output := [BareJump(chain)] + t.output))
      && (chain in t.chains ==> (reply.ok <==> fault == NoFault))
  {
  }

  lemma DeleteJumpStep(t: Table, chain: string, fault: Fault)
    ensures var reply := Step(t, DeleteJump(chain), fault);
      && reply.state == t.(output := reply.state.output)
      && Foreign(reply.state.output, chain) == Foreign(t.output, chain)
      && (reply.ok ==> |reply.state.output| < |t.output|)
      && (!reply.ok && fault == NoFault ==> reply.state == t && Foreign(t.output, chain) == t.output)
  {
  }

  // ---------------------------------------------------------------- machine

  datatype Tables = Tables(v4: Table, v6: Table, nft: Option<seq<NftRule>>) {
    function Get(version: Version): Table { if version == V4 then v4 else v6 }

    function Set(version: Version, t: Table): Tables { if version == V4 then this.(v4 := t) else this.(v6 := t) }
  }

  class Machine {
    var tables: Tables
    var clock: nat // commands run so far
    const faults: nat -> Fault
    const root: bool
    const hasIp: bool
    const hasNft: bool
    const hasIptables: bool
    const hasIp6tables: bool
    ghost var trace: seq<Tables> // the tables after each command

    constructor (tables: Tables, faults: nat -> Fault, root: bool,
                 hasIp: bool, hasNft: bool, hasIptables: bool, hasIp6tables: bool)
      ensures this.tables == tables && this.faults == faults && clock == 0 && trace == []
      ensures this.root == root && this.hasIp == hasIp && this.hasNft == hasNft
      ensures this.hasIptables == hasIptables && this.hasIp6tables == hasIp6tables
    {
      this.tables, this.faults, this.root, clock, trace := tables, faults, root, 0, [];
      this.hasIp, this.hasNft, this.hasIptables, this.hasIp6tables := hasIp, hasNft, hasIptables, hasIp6tables;
    }

    predicate Available(version: Version) { if version == V4 then hasIptables else hasIp6tables }

    /** No command between two clock readings was disturbed. */
    ghost predicate Undisturbed(from: nat, to: nat)
    {
      forall i :: from <= i < to ==> faults(i) == NoFault
    }

    /** `_run_ok([binary, ...])` */
    method Run(version: Version, c: Command) returns (ok: bool)
      modifies this
      ensures Reply(tables.Get(version), ok) == Step(old(tables.Get(version)), c, faults(old(clock)))
      ensures tables == old(tables).Set(version, tables.Get(version))
      ensures OnlyOwnedDiffers(old(tables.Get(version)), tables.Get(version), c.chain)
      ensures clock == old(clock) + 1 && trace == old(trace) + [tables]
    {
      StepChangesOnlyOwned(tables.Get(version), c, faults(clock));
      var reply := Step(tables.Get(version), c, faults(clock));
      tables, ok, clock := tables.Set(version, reply.state), reply.ok, clock + 1;
      trace := trace + [tables];
    }

    /** `_run_ok(["nft", ...])` */
    method RunNft(c: NftCommand) returns (ok: bool)
      modifies this
      ensures Reply(tables.nft, ok) == Disturb(old(tables.nft), NftEffect(old(tables.nft), c), faults(old(clock)))
      ensures tables == old(tables).(nft := tables.nft)
      ensures clock == old(clock) + 1 && trace == old(trace) + [tables]
    {
      var reply := Disturb(tables.nft, NftEffect(tables.nft, c), faults(clock));
      tables, ok, clock := tables.(nft := reply.state), reply.ok, clock + 1;
      trace := trace + [tables];
    }
  }

  // ---------------------------------------------------------------- what the protocol leaves behind

  /** Nothing of this program is in the table, and nobody refers to its chain. */
  ghost predicate Clean(t: Table, chain: string)
  {
    chain !in t.chains && !Referenced(t, chain)
  }

  /** The table after an undisturbed removal of the owned jumps and chain. */
  function Cleared(t: Table, chain: string): Table
  {
    var t1 := t.(output := Foreign(t.output, chain));
    if chain !in t.chains then t1
    else t1.(chains := if Referenced(t1, chain) then t.chains[chain := []] else t.chains - {chain})
  }

  /** A finished install on top of `t0`. */
  ghost predicate Installed(t0: Table, t: Table, chain: string, rules: seq<Rule>)
  {
    && t.policy == t0.policy && t.chains == t0.chains[chain := rules]
    && BareJump(chain) in t.output
    && t.output in {t0.output, [BareJump(chain)] + t0.output}
  }

  /** What an undisturbed install makes of `t0`: the jump goes first, unless there is one somewhere. */
  function Finished(t0: Table, chain: string, rules: seq<Rule>): Table
  {
    Table(if BareJump(chain) in t0.output then t0.output else [BareJump(chain)] + t0.output,
          t0.policy, t0.chains[chain := rules])
  }

  lemma OnlyOwnedDiffersTransitive(t0: Table, t1: Table, t2: Table, chain: string)
    requires OnlyOwnedDiffers(t0, t1, chain) && OnlyOwnedDiffers(t1, t2, chain)
    ensures OnlyOwnedDiffers(t0, t2, chain)
  {
  }

  lemma InstalledDiffersInOwned(t0: Table, t: Table, chain: string, rules: seq<Rule>)
    requires Installed(t0, t, chain, rules)
    ensures OnlyOwnedDiffers(t0, t, chain)
  {
    assert ([BareJump(chain)] + t0.output)[1..] == t0.output;
    assert t.chains - {chain} == t0.chains - {chain};
  }

  /** From a clean table, whatever an install did or left half done, removing what is owned
      gives the very table the install started from. */
  lemma ClearingUndoesAnyInstall(t0: Table, t: Table, chain: string)
    requires Clean(t0, chain) && OnlyOwnedDiffers(t0, t, chain)
    ensures Cleared(t, chain) == t0
  {
    var output := Foreign(t.output, chain);
    assert output == t0.output by {
      assert BareJump(chain) !in t0.output;
    }
    assert t0.chains - {chain} == t0.chains;
    forall c | c in t.chains && c != chain
      ensures c in t0.chains && t.chains[c] == t0.chains[c]
    {
      assert c in t.chains - {chain};
      assert c in t0.chains - {chain};
    }
    if chain !in t.chains {
      assert t.chains - {chain} == t.chains;
    } else {
      assert !Referenced(t.(output := output), chain);
    }
  }

  /** Install, then remove: the round trip of one family. */
  lemma InstallThenRemoveRestores(t0: Table, t: Table, chain: string, rules: seq<Rule>)
    requires Clean(t0, chain) && Installed(t0, t, chain, rules)
    ensures Cleared(t, chain) == t0
  {
    InstalledDiffersInOwned(t0, t, chain, rules);
    ClearingUndoesAnyInstall(t0, t, chain);
  }

  /** Without a clean start the round trip still keeps all that is foreign, and what it
      loses is exactly what was owned before. */
  lemma RemovalIsIdempotent(t: Table, chain: string)
    ensures Cleared(Cleared(t, chain), chain) == Cleared(t, chain)
    ensures OnlyOwnedDiffers(t, Cleared(t, chain), chain)
  {
    var output := Foreign(t.output, chain);
    assert Foreign(output, chain) == output;
    var u := Cleared(t, chain);
    if chain in u.chains {
      assert Referenced(t.(output := output), chain);
      assert Referenced(u, chain) by {
        if !JumpsTo(output, chain) {
          var c :| c in t.chains && c != chain && JumpsTo(t.chains[c], chain);
          assert c in u.chains && u.chains[c] == t.chains[c];
        }
      }
      assert u.chains[chain := []] == u.chains;
    }
  }

  /** Deleting owned jumps first does not change what a removal leaves. */
  lemma RemovalIgnoresOwnedJumps(t0: Table, t1: Table, chain: string)
    requires t1 == t0.(output := t1.output) && Foreign(t1.output, chain) == Foreign(t0.output, chain)
    ensures Cleared(t1, chain) == Cleared(t0, chain)
  {
  }
}
