/** The packet filter's tables and the commands that fill them, entry by entry. */
module FirewallTables {
  import opened Prelude
  import opened FirewallConfig
  import opened Firewall

  const INPUT := "INPUT"
  const FORWARD := "FORWARD"
  const DOCKER_USER := "DOCKER-USER"
  const PREROUTING := "PREROUTING"
  const POSTROUTING := "POSTROUTING"
  const CHAIN_IN := "E1-FW-IN"
  const CHAIN_DOCKER := "E1-FW-DOCKER"
  const CHAIN_DNAT := "E1-FW-DNAT"
  const CHAIN_MASQ := "E1-FW-MASQ"

  function JumpTo(chain: string): Entry {
    ANY.(target := Jump(chain))
  }

  /** The chain is called from its parent: first, unless it was there already. */
  function Hooked(parent: Chain, chain: string): Chain {
    if JumpTo(chain) in parent then parent else [JumpTo(chain)] + parent
  }

  function MasqueradeEntry(f: Forward): Entry {
    ANY.(dest := Some(f.dest), protocol := Some(ProtocolOf(f.proto)),
         port := Some(if f.destPort >= 0 then Decimal(f.destPort) else ""), target := Masquerade)
  }

  function MasqueradeChain(forwards: seq<Forward>): Chain {
    if |forwards| == 0 then [] else MasqueradeChain(forwards[..|forwards| - 1]) + [MasqueradeEntry(forwards[|forwards| - 1])]
  }

  /** The firewall's own chains are empty, every other chain is as it was. */
  predicate Emptied(before: map<string, Chain>, after: map<string, Chain>) {
    && after.Keys == before.Keys
    && forall c | c in after :: after[c] == if c in {CHAIN_IN, CHAIN_DOCKER, CHAIN_DNAT, CHAIN_MASQ} then [] else before[c]
  }

  /** The container engine's own chain, made and called if it is not there yet. */
  function WithDockerUser(chains: map<string, Chain>): map<string, Chain>
    requires FORWARD in chains
  {
    if DOCKER_USER in chains then chains
    else chains[DOCKER_USER := []][FORWARD := Hooked(chains[FORWARD], DOCKER_USER)]
  }

  /** The four chains of an enabled configuration, each called from its parent; nothing else changes. */
  function WithInput4(chains: map<string, Chain>, config: Config): map<string, Chain>
    requires INPUT in chains
  {
    chains[CHAIN_IN := InputChain(Services4(), config.rules)][INPUT := Hooked(chains[INPUT], CHAIN_IN)]
  }

  function WithDocker(chains: map<string, Chain>, config: Config): map<string, Chain>
    requires FORWARD in chains
  {
    var ready := WithDockerUser(chains);
    ready[CHAIN_DOCKER := DockerChain(config.rules, config.forwards)][DOCKER_USER := Hooked(ready[DOCKER_USER], CHAIN_DOCKER)]
  }

  function WithNat(chains: map<string, Chain>, config: Config): map<string, Chain>
    requires PREROUTING in chains && POSTROUTING in chains
  {
    chains[CHAIN_DNAT := TranslateChain(config.forwards)][CHAIN_MASQ := MasqueradeChain(config.forwards)]
          [PREROUTING := Hooked(chains[PREROUTING], CHAIN_DNAT)][POSTROUTING := Hooked(chains[POSTROUTING], CHAIN_MASQ)]
  }

  function WithInput6(chains: map<string, Chain>, config: Config): map<string, Chain>
    requires INPUT in chains
  {
    chains[CHAIN_IN := InputChain(Services6(), Unsourced(config.rules))][INPUT := Hooked(chains[INPUT], CHAIN_IN)]
  }

  /** The chains the kernel and the container engine provide. */
  predicate BuiltIn(chains: map<string, Chain>) {
    INPUT in chains && FORWARD in chains && PREROUTING in chains && POSTROUTING in chains
  }

  class Tables {
    var chains: map<string, Chain>

    method EnsureChain(name: string)
      modifies this
      ensures chains == old(chains)[name := []]
    {
      chains := chains[name := []];
    }

    method Append(name: string, e: Entry)
      requires name in chains
      modifies this
      ensures chains == old(chains)[name := old(chains)[name] + [e]]
    {
      chains := chains[name := chains[name] + [e]];
    }

    method EnsureHook(parent: string, name: string)
      requires parent in chains
      modifies this
      ensures chains == old(chains)[parent := Hooked(old(chains)[parent], name)]
    {
      if JumpTo(name) !in chains[parent] {
        chains := chains[parent := [JumpTo(name)] + chains[parent]];
      }
    }

    method AppendAll(name: string, entries: Chain)
      requires name in chains
      modifies this
      ensures chains == old(chains)[name := old(chains)[name] + entries]
    {
      for i := 0 to |entries|
        invariant name in chains && chains == old(chains)[name := chains[name]]
        invariant chains[name] == old(chains)[name] + entries[..i]
      {
        assert entries[..i + 1] == entries[..i] + [entries[i]];
        Grow(old(chains)[name], entries[..i], entries[i]);
        Append(name, entries[i]);
      }
      assert entries[..|entries|] == entries;
    }

    method AppendPassPorts(name: string, protocol: Protocol, ports: seq<nat>)
      requires name in chains
      modifies this
      ensures chains == old(chains)[name := old(chains)[name] + PassPorts(protocol, ports)]
    {
      for i := 0 to |ports|
        invariant name in chains && chains == old(chains)[name := chains[name]]
        invariant chains[name] == old(chains)[name] + PassPorts(protocol, ports[..i])
      {
        assert ports[..i + 1][..i] == ports[..i];
        Grow(old(chains)[name], PassPorts(protocol, ports[..i]), PassPort(protocol, ports[i]));
        Append(name, PassPort(protocol, ports[i]));
      }
      assert ports[..|ports|] == ports;
    }

    method AppendGuards(name: string)
      requires name in chains
      modifies this
      ensures chains == old(chains)[name := old(chains)[name] + Guards()]
    {
      AppendPassPorts(name, TcpPacket, GUARD_TCP);
      AppendPassPorts(name, UdpPacket, GUARD_UDP);
      assert (old(chains)[name] + PassPorts(TcpPacket, GUARD_TCP)) + PassPorts(UdpPacket, GUARD_UDP)
             == old(chains)[name] + Guards();
    }

    method AppendRules(name: string, rules: seq<Rule>)
      requires name in chains
      modifies this
      ensures chains == old(chains)[name := old(chains)[name] + RuleEntries(rules)]
    {
      for i := 0 to |rules|
        invariant name in chains && chains == old(chains)[name := chains[name]]
        invariant chains[name] == old(chains)[name] + RuleEntries(rules[..i])
      {
        assert rules[..i + 1][..i] == rules[..i];
        Grow(old(chains)[name], RuleEntries(rules[..i]), RuleEntry(rules[i]));
        Append(name, RuleEntry(rules[i]));
      }
      assert rules[..|rules|] == rules;
    }

    /** A rule that names an IPv4 source is skipped. */
    method AppendUnsourced(name: string, rules: seq<Rule>)
      requires name in chains
      modifies this
      ensures chains == old(chains)[name := old(chains)[name] + RuleEntries(Unsourced(rules))]
    {
      for i := 0 to |rules|
        invariant name in chains && chains == old(chains)[name := chains[name]]
        invariant chains[name] == old(chains)[name] + RuleEntries(Unsourced(rules[..i]))
      {
        UnsourcedEntries(rules, i);
        if rules[i].source.None? {
          Grow(old(chains)[name], RuleEntries(Unsourced(rules[..i])), RuleEntry(rules[i]));
          Append(name, RuleEntry(rules[i]));
        }
      }
      assert rules[..|rules|] == rules;
    }

    method AppendDockerRules(name: string, rules: seq<Rule>)
      requires name in chains
      modifies this
      ensures chains == old(chains)[name := old(chains)[name] + DockerRuleEntries(rules)]
    {
      for i := 0 to |rules|
        invariant name in chains && chains == old(chains)[name := chains[name]]
        invariant chains[name] == old(chains)[name] + DockerRuleEntries(rules[..i])
      {
        assert rules[..i + 1][..i] == rules[..i];
        Grow(old(chains)[name], DockerRuleEntries(rules[..i]), DockerRuleEntry(rules[i]));
        Append(name, DockerRuleEntry(rules[i]));
      }
      assert rules[..|rules|] == rules;
    }

    method AppendForwards(name: string, forwards: seq<Forward>)
      requires name in chains
      modifies this
      ensures chains == old(chains)[name := old(chains)[name] + ForwardEntries(forwards)]
    {
      for i := 0 to |forwards|
        invariant name in chains && chains == old(chains)[name := chains[name]]
        invariant chains[name] == old(chains)[name] + ForwardEntries(forwards[..i])
      {
        assert forwards[..i + 1][..i] == forwards[..i];
        Grow(old(chains)[name], ForwardEntries(forwards[..i]), ForwardEntry(forwards[i]));
        Append(name, ForwardEntry(forwards[i]));
      }
      assert forwards[..|forwards|] == forwards;
    }

    /** Whatever the chain held before, it is built afresh; it is called first unless it was called already; every other
        chain is left alone. */
    method BuildInputV4(config: Config)
      requires INPUT in chains
      modifies this
      ensures chains == WithInput4(old(chains), config)
    {
      EnsureChain(CHAIN_IN);
      AppendAll(CHAIN_IN, Preamble());
      AppendAll(CHAIN_IN, Services4());
      AppendGuards(CHAIN_IN);
      AppendRules(CHAIN_IN, config.rules);
      Append(CHAIN_IN, ANY);
      Assembled(Services4(), config.rules);
      EnsureHook(INPUT, CHAIN_IN);
    }

    method BuildInputV6(config: Config)
      requires INPUT in chains
      modifies this
      ensures chains == WithInput6(old(chains), config)
    {
      EnsureChain(CHAIN_IN);
      AppendAll(CHAIN_IN, Preamble());
      AppendAll(CHAIN_IN, Services6());
      AppendGuards(CHAIN_IN);
      AppendUnsourced(CHAIN_IN, config.rules);
      Append(CHAIN_IN, ANY);
      Assembled(Services6(), Unsourced(config.rules));
      EnsureHook(INPUT, CHAIN_IN);
    }

    /** The container engine's own chain may not be there yet. */
    method EnsureDockerUser()
      requires FORWARD in chains
      modifies this
      ensures chains == WithDockerUser(old(chains))
    {
      if DOCKER_USER !in chains {
        EnsureChain(DOCKER_USER);
        EnsureHook(FORWARD, DOCKER_USER);
      }
    }

    method FillDocker(rules: seq<Rule>, forwards: seq<Forward>)
      modifies this
      ensures chains == old(chains)[CHAIN_DOCKER := DockerChain(rules, forwards)]
    {
      EnsureChain(CHAIN_DOCKER);
      AppendAll(CHAIN_DOCKER, [FROM_CONTAINER, SIGNATURE, ESTABLISHED_ACCEPT]);
      AppendForwards(CHAIN_DOCKER, forwards);
      AppendAll(CHAIN_DOCKER, [WebEntry(80), WebEntry(443)]);
      AppendDockerRules(CHAIN_DOCKER, rules);
      Append(CHAIN_DOCKER, TRANSLATED_DROP);
      DockerAssembled(rules, forwards);
    }

    method BuildDockerV4(config: Config)
      requires FORWARD in chains
      modifies this
      ensures chains == WithDocker(old(chains), config)
    {
      EnsureDockerUser();
      FillDocker(config.rules, config.forwards);
      EnsureHook(DOCKER_USER, CHAIN_DOCKER);
    }

    method BuildNatV4(config: Config)
      requires PREROUTING in chains && POSTROUTING in chains
      modifies this
      ensures chains == WithNat(old(chains), config)
    {
      EnsureChain(CHAIN_DNAT);
      EnsureChain(CHAIN_MASQ);
      FillNat(config.forwards);
      EnsureHook(PREROUTING, CHAIN_DNAT);
      EnsureHook(POSTROUTING, CHAIN_MASQ);
    }

    method FillNat(forwards: seq<Forward>)
      requires CHAIN_DNAT in chains && CHAIN_MASQ in chains && chains[CHAIN_DNAT] == chains[CHAIN_MASQ] == []
      modifies this
      ensures chains == old(chains)[CHAIN_DNAT := TranslateChain(forwards)][CHAIN_MASQ := MasqueradeChain(forwards)]
    {
      for i := 0 to |forwards|
        invariant chains == old(chains)[CHAIN_DNAT := TranslateChain(forwards[..i])][CHAIN_MASQ := MasqueradeChain(forwards[..i])]
      {
        assert forwards[..i + 1][..i] == forwards[..i];
        Append(CHAIN_DNAT, TranslateEntry(forwards[i]));
        Append(CHAIN_MASQ, MasqueradeEntry(forwards[i]));
      }
      assert forwards[..|forwards|] == forwards;
    }

    method FlushIfExists(name: string)
      modifies this
      ensures chains == if name in old(chains) then old(chains)[name := []] else old(chains)
    {
      if name in chains {
        chains := chains[name := []];
      }
    }

    /** Switched off: the chains are emptied, the calls stay. */
    method ClearRuleset()
      modifies this
      ensures Emptied(old(chains), chains)
    {
      FlushIfExists(CHAIN_IN);
      FlushIfExists(CHAIN_DOCKER);
      FlushIfExists(CHAIN_DNAT);
      FlushIfExists(CHAIN_MASQ);
    }
  }

  lemma {:induction false} UnsourcedEntries(rules: seq<Rule>, i: nat)
    requires i < |rules|
    ensures RuleEntries(Unsourced(rules[..i + 1])) ==
            RuleEntries(Unsourced(rules[..i])) + if rules[i].source.None? then [RuleEntry(rules[i])] else []
  {
    assert rules[..i + 1][..i] == rules[..i];
    var kept := Unsourced(rules[..i]);
    assert (kept + [rules[i]])[..|kept|] == kept;
  }

  lemma {:induction false} Grow(chain: Chain, block: Chain, e: Entry)
    ensures (chain + block) + [e] == chain + (block + [e])
  {
  }

  lemma {:induction false} Assembled(services: Chain, rules: seq<Rule>)
    ensures [] + Preamble() + services + Guards() + RuleEntries(rules) + [ANY] == InputChain(services, rules)
  {
  }

  lemma {:induction false} DockerAssembled(rules: seq<Rule>, forwards: seq<Forward>)
    ensures [] + [FROM_CONTAINER, SIGNATURE, ESTABLISHED_ACCEPT] + ForwardEntries(forwards) + [WebEntry(80), WebEntry(443)]
            + DockerRuleEntries(rules) + [TRANSLATED_DROP] == DockerChain(rules, forwards)
  {
  }

  /** Whatever the tables held before: an enabled configuration is installed from scratch and called, and nothing else
      changes; a disabled one empties the firewall's own chains and leaves everything else as it was; a filter that is not
      there is left alone. */
  method ApplyRuleset(v4: Tables, v6: Tables, hasV4: bool, hasV6: bool, config: Config)
    requires v4 != v6 && BuiltIn(v4.chains) && BuiltIn(v6.chains)
    requires config.enabled ==> hasV4  // without iptables the first command fails
    modifies v4, v6
    ensures config.enabled ==> v4.chains == WithNat(WithDocker(WithInput4(old(v4.chains), config), config), config)
    ensures config.enabled && hasV6 ==> v6.chains == WithInput6(old(v6.chains), config)
    ensures !config.enabled && hasV4 ==> Emptied(old(v4.chains), v4.chains)
    ensures !config.enabled && hasV4 && hasV6 ==>
              && v6.chains.Keys == old(v6.chains).Keys
              && forall c | c in v6.chains :: v6.chains[c] == if c == CHAIN_IN then [] else old(v6.chains)[c]
    ensures !hasV4 ==> v4.chains == old(v4.chains) && v6.chains == old(v6.chains)
    ensures !hasV6 ==> v6.chains == old(v6.chains)
  {
    if config.enabled {
      v4.BuildInputV4(config);
      v4.BuildDockerV4(config);
      v4.BuildNatV4(config);
      if hasV6 {
        v6.BuildInputV6(config);
      }
    } else if hasV4 {
      v4.ClearRuleset();
      if hasV6 {
        v6.FlushIfExists(CHAIN_IN);
      }
    }
  }
}
