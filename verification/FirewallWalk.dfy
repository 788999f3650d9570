/** The way of a packet through a table whose other entries are anybody's: jumps, returns, and what the place of the
    firewall's hook decides. */
module FirewallWalk {
  import opened Prelude
  import opened FirewallConfig
  import opened Firewall
  import opened FirewallTables

  /** The target that ends the packet's way, or None past the end. A chain that is called returns to its caller past its end
      and on RETURN. The packet filter admits no loops; `depth` is a bound on nested calls. */
  function Walk(chains: map<string, Chain>, chain: Chain, p: Packet, depth: nat): Option<Target>
    decreases depth, |chain|
  {
    if |chain| == 0 then None
    else if !Matches(chain[0], p) then Walk(chains, chain[1..], p, depth)
    else
      match chain[0].target
      case Jump(name) =>
        var inner := if depth > 0 && name in chains then Walk(chains, chains[name], p, depth - 1) else None;
        if inner in {None, Some(Return)} then Walk(chains, chain[1..], p, depth) else inner
      case target => Some(target)
  }

  lemma {:induction false} WalkConcat(chains: map<string, Chain>, a: Chain, b: Chain, p: Packet, depth: nat)
    ensures Walk(chains, a + b, p, depth) == if Walk(chains, a, p, depth).Some? then Walk(chains, a, p, depth) else Walk(chains, b, p, depth)
    decreases |a|
  {
    if a == [] {
      assert a + b == b;
    } else {
      assert (a + b)[1..] == a[1..] + b;
      WalkConcat(chains, a[1..], b, p, depth);
    }
  }

  /** Without jumps the way is the first match. */
  lemma {:induction false} WalkIsVerdict(chains: map<string, Chain>, chain: Chain, p: Packet, depth: nat)
    requires forall e | e in chain :: !e.target.Jump?
    ensures Verdict(chain, p) == match Walk(chains, chain, p, depth) case None => Return case Some(target) => target
    ensures Walk(chains, chain, p, depth).Some? ==> exists e :: e in chain && Some(e.target) == Walk(chains, chain, p, depth)
    decreases |chain|
  {
    if chain != [] {
      assert chain[0] in chain;
      WalkIsVerdict(chains, chain[1..], p, depth);
    }
  }

  lemma {:induction false} RuleTargets(rules: seq<Rule>)
    ensures forall e | e in RuleEntries(rules) :: e.target in {Return, Drop}
  {
    if rules != [] {
      RuleTargets(rules[..|rules| - 1]);
    }
  }

  lemma {:induction false} PassTargets(protocol: Protocol, ports: seq<nat>)
    ensures forall e | e in PassPorts(protocol, ports) :: e.target == Return
  {
    if ports != [] {
      PassTargets(protocol, ports[..|ports| - 1]);
    }
  }

  lemma {:induction false} InputTargets(services: Chain, rules: seq<Rule>)
    requires forall e | e in services :: e.target == Return
    ensures forall e | e in InputChain(services, rules) :: e.target in {Return, Drop}
  {
    RuleTargets(rules);
    PassTargets(TcpPacket, GUARD_TCP);
    PassTargets(UdpPacket, GUARD_UDP);
  }

  // ---- The place of the hook ----

  /** What stands before the first call, and behind it. */
  function Front(parent: Chain, hook: Entry): Chain {
    if |parent| == 0 || parent[0] == hook then [] else [parent[0]] + Front(parent[1..], hook)
  }

  function Behind(parent: Chain, hook: Entry): Chain {
    if |parent| == 0 then [] else if parent[0] == hook then parent[1..] else Behind(parent[1..], hook)
  }

  lemma {:induction false} HookSplits(parent: Chain, hook: Entry)
    requires hook in parent
    ensures parent == Front(parent, hook) + [hook] + Behind(parent, hook)
  {
    if parent[0] != hook {
      HookSplits(parent[1..], hook);
    }
  }

  /** What is decided in front of the hook is decided; then the called chain decides, and what it returns goes on behind. */
  lemma {:induction false} HookDecides(chains: map<string, Chain>, parent: Chain, name: string, p: Packet, depth: nat)
    requires JumpTo(name) in parent && depth > 0 && name in chains
    requires forall e | e in chains[name] :: !e.target.Jump?
    ensures var front := Walk(chains, Front(parent, JumpTo(name)), p, depth);
            var verdict := Verdict(chains[name], p);
            Walk(chains, parent, p, depth) ==
              if front.Some? then front
              else if verdict == Return then Walk(chains, Behind(parent, JumpTo(name)), p, depth)
              else Some(verdict)
  {
    var hook := JumpTo(name);
    HookSplits(parent, hook);
    WalkConcat(chains, Front(parent, hook), [hook] + Behind(parent, hook), p, depth);
    assert parent == Front(parent, hook) + ([hook] + Behind(parent, hook));
    WalkIsVerdict(chains, chains[name], p, depth - 1);
    HookWalk(chains, name, Behind(parent, hook), p, depth);
  }

  lemma {:induction false} HookWalk(chains: map<string, Chain>, name: string, rest: Chain, p: Packet, depth: nat)
    requires depth > 0 && name in chains
    ensures var inner := Walk(chains, chains[name], p, depth - 1);
            Walk(chains, [JumpTo(name)] + rest, p, depth) ==
              if inner in {None, Some(Return)} then Walk(chains, rest, p, depth) else inner
  {
    assert ([JumpTo(name)] + rest)[1..] == rest;
    assert Matches(JumpTo(name), p);
  }

  /** A hook that was not there is put in front of everything. */
  lemma {:induction false} NewHookIsFirst(parent: Chain, name: string)
    ensures JumpTo(name) in Hooked(parent, name)
    ensures JumpTo(name) !in parent ==> Front(Hooked(parent, name), JumpTo(name)) == []
    ensures JumpTo(name) in parent ==> Hooked(parent, name) == parent
  {
  }

  /** A parent that has been hooked: only an entry in front of a hook that was already there can decide before it. */
  lemma {:induction false} HookedDecides(chains: map<string, Chain>, before: Chain, name: string, p: Packet, depth: nat)
    requires depth > 0 && name in chains && forall e | e in chains[name] :: !e.target.Jump?
    ensures var parent := Hooked(before, name);
            var front := Walk(chains, Front(parent, JumpTo(name)), p, depth);
            var verdict := Verdict(chains[name], p);
            && (JumpTo(name) !in before ==> front.None?)
            && Walk(chains, parent, p, depth) ==
                 if front.Some? then front
                 else if verdict == Return then Walk(chains, Behind(parent, JumpTo(name)), p, depth)
                 else Some(verdict)
  {
    NewHookIsFirst(before, name);
    HookDecides(chains, Hooked(before, name), name, p, depth);
  }

  /** The IPv4 tables of an enabled configuration. */
  function Installed(before: map<string, Chain>, config: Config): map<string, Chain>
    requires BuiltIn(before)
  {
    WithNat(WithDocker(WithInput4(before, config), config), config)
  }

  lemma {:induction false} InstalledInput(before: map<string, Chain>, config: Config)
    requires BuiltIn(before)
    ensures var after := Installed(before, config);
            && {INPUT, CHAIN_IN} <= after.Keys && after[INPUT] == Hooked(before[INPUT], CHAIN_IN)
            && after[CHAIN_IN] == InputChain(Services4(), config.rules)
  {
  }

  lemma {:induction false} InstalledDocker(before: map<string, Chain>, config: Config)
    requires BuiltIn(before)
    ensures var after := Installed(before, config);
            && {DOCKER_USER, CHAIN_DOCKER} <= after.Keys
            && after[DOCKER_USER] == Hooked(if DOCKER_USER in before then before[DOCKER_USER] else [], CHAIN_DOCKER)
            && after[CHAIN_DOCKER] == DockerChain(config.rules, config.forwards)
  {
  }

  lemma {:induction false} InstalledNat(before: map<string, Chain>, config: Config)
    requires BuiltIn(before)
    ensures var after := Installed(before, config);
            && {PREROUTING, POSTROUTING, CHAIN_DNAT, CHAIN_MASQ} <= after.Keys
            && after[PREROUTING] == Hooked(before[PREROUTING], CHAIN_DNAT) && after[CHAIN_DNAT] == TranslateChain(config.forwards)
            && after[POSTROUTING] == Hooked(before[POSTROUTING], CHAIN_MASQ) && after[CHAIN_MASQ] == MasqueradeChain(config.forwards)
  {
  }

  /** What an installed configuration enforces on packets to the device, whatever else the tables hold: where no entry in
      front of the hook has decided, a packet is dropped exactly if the configuration does not let it in, and goes on behind
      the hook otherwise. Only an entry in front of a hook that was already there can decide first. */
  lemma {:induction false} InputEnforced(before: map<string, Chain>, raw: RawConfig, config: Config, printable: char -> bool,
                                         p: Packet, depth: nat)
    requires BuiltIn(before) && depth > 0 && ValidateConfig(raw, printable) == Ok(config)
    ensures var after := Installed(before, config);
            var hook := JumpTo(CHAIN_IN);
            && INPUT in after
            && var front := Walk(after, Front(after[INPUT], hook), p, depth);
            && (hook !in before[INPUT] ==> front.None?)
            && Walk(after, after[INPUT], p, depth) ==
                 if front.Some? then front
                 else if Basic(p) || Service4(p) || Guarded(p) || FirstRule(config.rules, p, p.port) == Some(Allow)
                 then Walk(after, Behind(after[INPUT], hook), p, depth)
                 else Some(Drop)
  {
    InstalledInput(before, config);
    RulesValidated(raw.rules, config.rules, printable);
    InputDecided(Installed(before, config), before[INPUT], config.rules, p, depth);
  }

  lemma {:induction false} InputDecided(after: map<string, Chain>, parent: Chain, rules: seq<Rule>, p: Packet, depth: nat)
    requires depth > 0 && INPUT in after && after[INPUT] == Hooked(parent, CHAIN_IN)
    requires CHAIN_IN in after && after[CHAIN_IN] == InputChain(Services4(), rules)
    requires forall rule | rule in rules :: Validated(rule)
    ensures var hook := JumpTo(CHAIN_IN);
            var front := Walk(after, Front(after[INPUT], hook), p, depth);
            && (hook !in parent ==> front.None?)
            && Walk(after, after[INPUT], p, depth) ==
                 if front.Some? then front
                 else if Basic(p) || Service4(p) || Guarded(p) || FirstRule(rules, p, p.port) == Some(Allow)
                 then Walk(after, Behind(after[INPUT], hook), p, depth)
                 else Some(Drop)
  {
    InputTargets(Services4(), rules);
    HookedDecides(after, parent, CHAIN_IN, p, depth);
    Input4Decides(rules, p);
  }
}
