/** From the request to the verdict: what was asked for, field by field, decides what the compiled chains do. */
module FirewallRequests {
  import opened Prelude
  import opened Text
  import opened FirewallConfig
  import opened Firewall
  import opened FirewallTables
  import opened FirewallTexts
  import opened FirewallWalk

  // ---- What is accepted ----

  /** The two integers of the port text, or one twice. */
  ghost predicate AsksPorts(text: string, low: int, high: int) {
    WritesRange(Strip(text), '-', low, high)
  }

  /** A rule is accepted exactly if its fields are known, its words are known, its ports are in range and in order, and its
      source is absent or an IPv4 network. */
  lemma {:induction false} AcceptedExactly(raw: RawRule, printable: char -> bool)
    ensures Accepted(raw, printable) <==>
            && !raw.unknownFields && raw.verb.Some? && raw.proto.Some?
            && (exists low, high :: AsksPorts(raw.ports, low, high) && 1 <= low <= high <= 65535)
            && (raw.source.Absent? || (raw.source.Ipv4? && raw.source.length <= 32))
  {
    forall low, high
      ensures AsksPorts(raw.ports, low, high) <==> Range(Strip(raw.ports), '-') == Some(Ports(low, high))
    {
      RangeMeans(Strip(raw.ports), '-', low, high);
    }
  }

  /** A forward is accepted exactly if its fields are known, its protocol and destination are there, its ports are in range and
      it listens on no port the device needs itself; and then it is what was asked for. */
  lemma {:induction false} ForwardAsAsked(raw: RawForward, printable: char -> bool)
    ensures var v := ValidateForward(raw, printable);
            && (v.Ok? <==>
                  && !raw.unknownFields && raw.proto.Some? && raw.dest.Some?
                  && raw.listen.Some? && 1 <= raw.listen.value <= 65535 && raw.destPort.Some? && 1 <= raw.destPort.value <= 65535
                  && raw.listen.value !in {21, 22, 80, 443, 502, 2404, 2405, 2406, 4222, 5672, 5020, 5021}
                  && !(30000 <= raw.listen.value < 30010))
            && (v.Ok? ==>
                  Some(v.value.proto) == raw.proto && Some(v.value.listen) == raw.listen
                  && Some(v.value.dest) == raw.dest && Some(v.value.destPort) == raw.destPort)
  {
  }

  lemma {:induction false} EachRule(raws: seq<RawRule>, rules: seq<Rule>, printable: char -> bool, i: nat)
    requires ValidateRules(raws, printable) == Ok(rules) && i < |raws|
    ensures |rules| == |raws| && ValidateRule(raws[i], printable) == Ok(rules[i])
    decreases |raws|
  {
    RulesSplit(raws, rules, printable);
    if i < |raws| - 1 {
      EachRule(raws[..|raws| - 1], rules[..|raws| - 1], printable, i);
    }
  }

  predicate Accepted(raw: RawRule, printable: char -> bool) {
    ValidateRule(raw, printable).Ok?
  }

  lemma {:induction false} EachAccepted(raws: seq<RawRule>, printable: char -> bool)
    ensures ValidateRules(raws, printable).Ok? <==> forall i | 0 <= i < |raws| :: Accepted(raws[i], printable)
  {
    if ValidateRules(raws, printable).Ok? {
      forall i | 0 <= i < |raws|
        ensures Accepted(raws[i], printable)
      {
        EachRule(raws, ValidateRules(raws, printable).value, printable, i);
      }
    } else {
      var i := OneRefused(raws, printable);
    }
  }

  lemma {:induction false} OneRefused(raws: seq<RawRule>, printable: char -> bool) returns (i: nat)
    requires ValidateRules(raws, printable).Err?
    ensures i < |raws| && !Accepted(raws[i], printable)
  {
    var n := |raws| - 1;
    if ValidateRules(raws[..n], printable).Err? {
      i := OneRefused(raws[..n], printable);
    } else {
      i := n;
    }
  }

  lemma {:induction false} EachForwardAccepted(raws: seq<RawForward>, printable: char -> bool)
    ensures ValidateForwards(raws, printable).Ok? <==> forall i | 0 <= i < |raws| :: ValidateForward(raws[i], printable).Ok?
    ensures ValidateForwards(raws, printable).Ok? ==>
              && |ValidateForwards(raws, printable).value| == |raws|
              && forall i | 0 <= i < |raws| :: ValidateForward(raws[i], printable) == Ok(ValidateForwards(raws, printable).value[i])
  {
    if raws != [] {
      EachForwardAccepted(raws[..|raws| - 1], printable);
    }
  }

  /** A configuration is accepted exactly if it is not too long, all its rules and forwards are, and no two forwards listen on
      the same port of the same protocol; and then it is switched on as asked. */
  lemma {:induction false} ConfigAccepted(raw: RawConfig, printable: char -> bool)
    ensures var v := ValidateConfig(raw, printable);
            && (v.Ok? <==>
                  && |raw.rules| <= 50 && |raw.forwards| <= 20
                  && (forall i | 0 <= i < |raw.rules| :: Accepted(raw.rules[i], printable))
                  && (forall i | 0 <= i < |raw.forwards| :: ValidateForward(raw.forwards[i], printable).Ok?)
                  && (forall i, j | 0 <= i < j < |raw.forwards| ::
                        raw.forwards[i].proto != raw.forwards[j].proto || raw.forwards[i].listen != raw.forwards[j].listen))
            && (v.Ok? ==> v.value.enabled == raw.enabled)
  {
    EachAccepted(raw.rules, printable);
    EachForwardAccepted(raw.forwards, printable);
    var forwards := ValidateForwards(raw.forwards, printable);
    if forwards.Ok? {
      forall i | 0 <= i < |raw.forwards|
        ensures Some(forwards.value[i].proto) == raw.forwards[i].proto && Some(forwards.value[i].listen) == raw.forwards[i].listen
      {
        ForwardAsAsked(raw.forwards[i], printable);
      }
    }
  }

  // ---- What a rule concerns ----

  /** A source whose first bits are those of the address that was asked for, as many as its length says. */
  predicate FromMeant(raw: RawSource, source: Option<Address>) {
    match raw
    case Absent => true
    case Ipv4(address, length) => length <= 32 && source.Some? && forall i | 0 <= i < length :: source.value[i] == address[i]
    case _ => false
  }

  /** The packet's protocol, a port within the two that were asked for, and a source that was asked for. */
  predicate Meant(raw: RawRule, p: Packet, port: int) {
    && (raw.proto == Some(Tcp) ==> p.protocol.TcpPacket?) && (raw.proto == Some(Udp) ==> p.protocol.UdpPacket?)
    && raw.proto.Some?
    && Range(Strip(raw.ports), '-').Some?
    && Range(Strip(raw.ports), '-').value.low <= port <= Range(Strip(raw.ports), '-').value.high
    && FromMeant(raw.source, p.source)
  }

  /** The verb of the first rule that was meant for the packet. */
  function FirstMeant(raws: seq<RawRule>, p: Packet, port: int): Option<Verb> {
    if |raws| == 0 then None
    else if Meant(raws[0], p, port) then raws[0].verb
    else FirstMeant(raws[1..], p, port)
  }

  function WithoutSource(raws: seq<RawRule>): seq<RawRule> {
    if |raws| == 0 then []
    else (if raws[0].source.Absent? then [raws[0]] else []) + WithoutSource(raws[1..])
  }

  lemma {:induction false} ConcernsAsMeant(raw: RawRule, rule: Rule, printable: char -> bool, p: Packet, port: int)
    requires ValidateRule(raw, printable) == Ok(rule)
    ensures Concerns(rule, p, port) <==> Meant(raw, p, port)
    ensures raw.verb == Some(rule.verb) && (rule.source.None? <==> raw.source.Absent?)
  {
    ValidatedFields(raw, rule, printable);
    ValidatedWords(raw, rule, printable);
    FieldsAsMeant(raw, rule, p, port);
  }

  lemma {:induction false} ValidatedWords(raw: RawRule, rule: Rule, printable: char -> bool)
    requires ValidateRule(raw, printable) == Ok(rule)
    ensures raw.verb == Some(rule.verb) && raw.proto == Some(rule.proto)
  {
  }

  lemma {:induction false} FieldsAsMeant(raw: RawRule, rule: Rule, p: Packet, port: int)
    requires ParsePorts(raw.ports).Ok? && rule.ports == Render(ParsePorts(raw.ports).value, '-')
    requires SourceOf(raw.source) == Ok(rule.source) && raw.proto == Some(rule.proto)
    ensures Concerns(rule, p, port) <==> Meant(raw, p, port)
    ensures rule.source.None? <==> raw.source.Absent?
  {
    PortsAsMeant(raw.ports, rule.ports);
    SourceAsMeant(raw.source, rule.source, p.source);
  }

  lemma {:induction false} PortsAsMeant(text: string, ports: string)
    requires ParsePorts(text).Ok? && ports == Render(ParsePorts(text).value, '-')
    ensures Range(Strip(text), '-').Some? && ParsePorts(ports) == Ok(Range(Strip(text), '-').value)
  {
    PortsRoundTrip(text);
  }

  lemma {:induction false} SourceAsMeant(raw: RawSource, net: Option<Network>, source: Option<Address>)
    requires SourceOf(raw) == Ok(net)
    ensures (net.Some? ==> source.Some? && Contains(net.value, source.value)) <==> FromMeant(raw, source)
    ensures net.None? <==> raw.Absent?
  {
    if raw.Ipv4? && source.Some? {
      PrefixBits(source.value, raw.address, raw.length);
    }
  }

  lemma {:induction false} PrefixBits(a: Address, b: Address, n: nat)
    requires n <= 32
    ensures b[..n] <= a <==> forall i | 0 <= i < n :: a[i] == b[i]
  {
    if forall i | 0 <= i < n :: a[i] == b[i] {
      assert b[..n] == a[..n];
    }
    if b[..n] <= a {
      forall i | 0 <= i < n
        ensures a[i] == b[i]
      {
        assert b[..n][i] == a[i];
      }
    }
  }

  /** The rule says of a packet what the request meant. */
  predicate SaysSame(raw: RawRule, rule: Rule, p: Packet, port: int) {
    && (Concerns(rule, p, port) <==> Meant(raw, p, port))
    && raw.verb == Some(rule.verb) && (rule.source.None? <==> raw.source.Absent?)
  }

  ghost predicate SayTheSame(raws: seq<RawRule>, rules: seq<Rule>, p: Packet, port: int) {
    |rules| == |raws| && forall i | 0 <= i < |raws| :: SaysSame(raws[i], rules[i], p, port)
  }

  lemma {:induction false} RequestsSayTheSame(raws: seq<RawRule>, rules: seq<Rule>, printable: char -> bool, p: Packet, port: int)
    requires ValidateRules(raws, printable) == Ok(rules)
    ensures SayTheSame(raws, rules, p, port)
  {
    RulesSplit(raws, rules, printable);
    forall i | 0 <= i < |raws|
      ensures SaysSame(raws[i], rules[i], p, port)
    {
      EachRule(raws, rules, printable, i);
      ConcernsAsMeant(raws[i], rules[i], printable, p, port);
    }
  }

  /** The rules that validation leaves decide as the requested ones were meant, for any port and packet. */
  lemma {:induction false} RulesAsMeant(raws: seq<RawRule>, rules: seq<Rule>, p: Packet, port: int)
    requires SayTheSame(raws, rules, p, port)
    ensures FirstRule(rules, p, port) == FirstMeant(raws, p, port)
  {
    if raws != [] {
      assert SaysSame(raws[0], rules[0], p, port);
      RulesAsMeant(raws[1..], rules[1..], p, port);
    }
  }

  /** ... and without those that name a source. */
  lemma {:induction false} UnsourcedAsMeant(raws: seq<RawRule>, rules: seq<Rule>, p: Packet, port: int)
    requires SayTheSame(raws, rules, p, port)
    ensures SayTheSame(WithoutSource(raws), Unsourced(rules), p, port)
  {
    if raws != [] {
      assert SaysSame(raws[0], rules[0], p, port);
      UnsourcedAsMeant(raws[1..], rules[1..], p, port);
      UnsourcedCons(rules);
    }
  }

  lemma {:induction false} UnsourcedCons(rules: seq<Rule>)
    requires rules != []
    ensures Unsourced(rules) == (if rules[0].source.None? then [rules[0]] else []) + Unsourced(rules[1..])
  {
    var n := |rules| - 1;
    if n > 0 {
      UnsourcedCons(rules[..n]);
      assert rules[..n][1..] == rules[1..][..n - 1];
      assert rules[1..][n - 1] == rules[n];
    }
  }

  // ---- The verdict ----

  /** Loopback, replies, control messages, what the device needs to be found and reached, and the signature's address. */
  predicate BuiltIn4(p: Packet) {
    || p.loopback || p.established || p.protocol.Icmp? || p.marked
    || (p.protocol.UdpPacket? && p.port in {53, 67, 5353, 41641}) || (p.protocol.TcpPacket? && p.port in {22, 53, 80, 443})
  }

  predicate BuiltIn6(p: Packet) {
    || p.loopback || p.established || p.protocol.Icmp? || p.marked
    || (p.protocol.UdpPacket? && p.port in {546, 41641}) || (p.protocol.TcpPacket? && p.port in {22, 80, 443})
  }

  /** From the request to the verdict of the chains. To the device passes, over IPv4, what is built in and what the first rule
      that was meant for the packet allows; over IPv6 the same, as if the rules that name a source were not there. Before the
      containers, of the new traffic that is translated to them, passes what goes to a forward's destination or to the web
      ports, or what the first rule meant for its original port allows. */
  lemma {:induction false} RequestDecides(raw: RawConfig, config: Config, printable: char -> bool, p: Packet)
    requires ValidateConfig(raw, printable) == Ok(config)
    ensures Verdict(InputChain(Services4(), config.rules), p) ==
            if BuiltIn4(p) || FirstMeant(raw.rules, p, p.port) == Some(Allow) then Return else Drop
    ensures Verdict(InputChain(Services6(), Unsourced(config.rules)), p) ==
            if BuiltIn6(p) || FirstMeant(WithoutSource(raw.rules), p, p.port) == Some(Allow) then Return else Drop
    ensures !p.fromContainer && !p.marked && !p.established && p.translated ==>
              Verdict(DockerChain(config.rules, config.forwards), p) ==
              if ToAsked(raw.forwards, p) then Accept
              else if (p.protocol.TcpPacket? && p.originalPort in {80, 443}) || FirstMeant(raw.rules, p, p.originalPort) == Some(Allow)
              then Return else Drop
  {
    RulesValidated(raw.rules, config.rules, printable);
    ForwardsInRange(raw.forwards, config.forwards, printable);
    ToForwardAsAsked(raw.forwards, config.forwards, printable, p);
    RequestsSayTheSame(raw.rules, config.rules, printable, p, p.port);
    RequestsSayTheSame(raw.rules, config.rules, printable, p, p.originalPort);
    Meant4Decides(raw.rules, config.rules, p);
    Meant6Decides(raw.rules, config.rules, p);
    MeantDockerDecides(raw.rules, config.rules, config.forwards, p);
  }

  lemma {:induction false} BuiltInMeans(p: Packet)
    ensures BuiltIn4(p) <==> Basic(p) || Service4(p) || Guarded(p)
    ensures BuiltIn6(p) <==> Basic(p) || Service6(p) || Guarded(p)
  {
  }

  lemma {:induction false} Verdict6(rules: seq<Rule>, p: Packet, first: Option<Verb>)
    requires (forall rule | rule in rules :: Validated(rule)) && first == FirstRule(Unsourced(rules), p, p.port)
    ensures Verdict(InputChain(Services6(), Unsourced(rules)), p) ==
            if Basic(p) || Service6(p) || Guarded(p) || first == Some(Allow) then Return else Drop
  {
    Input6Decides(rules, p);
  }

  lemma {:induction false} Meant4Decides(raws: seq<RawRule>, rules: seq<Rule>, p: Packet)
    requires SayTheSame(raws, rules, p, p.port) && forall rule | rule in rules :: Validated(rule)
    ensures Verdict(InputChain(Services4(), rules), p) ==
            if BuiltIn4(p) || FirstMeant(raws, p, p.port) == Some(Allow) then Return else Drop
  {
    RulesAsMeant(raws, rules, p, p.port);
    BuiltInMeans(p);
    Input4Decides(rules, p);
  }

  lemma {:induction false} Meant6Decides(raws: seq<RawRule>, rules: seq<Rule>, p: Packet)
    requires SayTheSame(raws, rules, p, p.port) && forall rule | rule in rules :: Validated(rule)
    ensures Verdict(InputChain(Services6(), Unsourced(rules)), p) ==
            if BuiltIn6(p) || FirstMeant(WithoutSource(raws), p, p.port) == Some(Allow) then Return else Drop
  {
    UnsourcedFirst(raws, rules, p, p.port);
    BuiltInMeans(p);
    Verdict6(rules, p, FirstRule(Unsourced(rules), p, p.port));
  }

  lemma {:induction false} UnsourcedFirst(raws: seq<RawRule>, rules: seq<Rule>, p: Packet, port: int)
    requires SayTheSame(raws, rules, p, port)
    ensures FirstRule(Unsourced(rules), p, port) == FirstMeant(WithoutSource(raws), p, port)
  {
    UnsourcedAsMeant(raws, rules, p, port);
    RulesAsMeant(WithoutSource(raws), Unsourced(rules), p, port);
  }

  lemma {:induction false} MeantDockerDecides(raws: seq<RawRule>, rules: seq<Rule>, forwards: seq<Forward>, p: Packet)
    requires SayTheSame(raws, rules, p, p.originalPort) && forall rule | rule in rules :: Validated(rule)
    requires forall f | f in forwards :: InRange(f)
    ensures !p.fromContainer && !p.marked && !p.established && p.translated ==>
              Verdict(DockerChain(rules, forwards), p) ==
              if ToForward(forwards, p) then Accept
              else if (p.protocol.TcpPacket? && p.originalPort in {80, 443}) || FirstMeant(raws, p, p.originalPort) == Some(Allow)
              then Return else Drop
  {
    RulesAsMeant(raws, rules, p, p.originalPort);
    DockerDecides(rules, forwards, p);
  }

  /** The packet is on its way to the destination and port of a forward that was asked for. */
  predicate ToAsked(raws: seq<RawForward>, p: Packet) {
    exists k | 0 <= k < |raws| ::
      && p.dest.Some? && p.dest == raws[k].dest && raws[k].destPort == Some(p.port)
      && ((raws[k].proto == Some(Tcp) && p.protocol.TcpPacket?) || (raws[k].proto == Some(Udp) && p.protocol.UdpPacket?))
  }

  lemma {:induction false} ToForwardAsAsked(raws: seq<RawForward>, forwards: seq<Forward>, printable: char -> bool, p: Packet)
    requires ValidateForwards(raws, printable) == Ok(forwards)
    ensures ToForward(forwards, p) <==> ToAsked(raws, p)
  {
    EachForwardAccepted(raws, printable);
    forall k | 0 <= k < |raws|
      ensures Some(forwards[k].proto) == raws[k].proto && Some(forwards[k].dest) == raws[k].dest
              && Some(forwards[k].destPort) == raws[k].destPort
    {
      ForwardAsAsked(raws[k], printable);
    }
  }

  /** A forward does what was asked for: a packet to its listening port goes on to its destination and port. */
  lemma {:induction false} ForwardGoesWhereAsked(raw: RawConfig, config: Config, printable: char -> bool, p: Packet, k: nat)
    requires ValidateConfig(raw, printable) == Ok(config) && k < |raw.forwards| && ListensTo(raw.forwards[k], p)
    ensures raw.forwards[k].dest.Some? && raw.forwards[k].destPort.Some?
    ensures Verdict(TranslateChain(config.forwards), p) == Translate(raw.forwards[k].dest.value, raw.forwards[k].destPort.value)
  {
    EachForwardAccepted(raw.forwards, printable);
    ForwardAsAsked(raw.forwards[k], printable);
    ForwardsInRange(raw.forwards, config.forwards, printable);
    ForwardIsFound(config.forwards, k, p);
  }

  /** What a packet to the device meets in the installed IPv4 table, from the request. */
  lemma {:induction false} RequestEnforced(before: map<string, Chain>, raw: RawConfig, config: Config, printable: char -> bool,
                                           p: Packet, depth: nat)
    requires BuiltIn(before) && depth > 0 && ValidateConfig(raw, printable) == Ok(config)
    ensures var after := Installed(before, config);
            var hook := JumpTo(CHAIN_IN);
            && INPUT in after
            && (Walk(after, Front(after[INPUT], hook), p, depth).None? ==>
                  Walk(after, after[INPUT], p, depth) ==
                  if BuiltIn4(p) || FirstMeant(raw.rules, p, p.port) == Some(Allow)
                  then Walk(after, Behind(after[INPUT], hook), p, depth) else Some(Drop))
  {
    RulesValidated(raw.rules, config.rules, printable);
    RequestsSayTheSame(raw.rules, config.rules, printable, p, p.port);
    MeantEnforced(before, raw.rules, config, p, depth);
  }

  /** ... and in the IPv6 table, as if the requested rules that name a source were not there. */
  lemma {:induction false} RequestEnforced6(before: map<string, Chain>, raw: RawConfig, config: Config, printable: char -> bool,
                                            p: Packet, depth: nat)
    requires INPUT in before && depth > 0 && ValidateConfig(raw, printable) == Ok(config)
    ensures var after := WithInput6(before, config);
            var hook := JumpTo(CHAIN_IN);
            && INPUT in after
            && (Walk(after, Front(after[INPUT], hook), p, depth).None? ==>
                  Walk(after, after[INPUT], p, depth) ==
                  if BuiltIn6(p) || FirstMeant(WithoutSource(raw.rules), p, p.port) == Some(Allow)
                  then Walk(after, Behind(after[INPUT], hook), p, depth) else Some(Drop))
  {
    var after := WithInput6(before, config);
    assert after[INPUT] == Hooked(before[INPUT], CHAIN_IN) && after[CHAIN_IN] == InputChain(Services6(), Unsourced(config.rules));
    InputTargets(Services6(), Unsourced(config.rules));
    HookedDecides(after, before[INPUT], CHAIN_IN, p, depth);
    RequestDecides(raw, config, printable, p);
  }

  lemma {:induction false} MeantEnforced(before: map<string, Chain>, raws: seq<RawRule>, config: Config, p: Packet, depth: nat)
    requires BuiltIn(before) && depth > 0
    requires SayTheSame(raws, config.rules, p, p.port) && forall rule | rule in config.rules :: Validated(rule)
    ensures var after := Installed(before, config);
            var hook := JumpTo(CHAIN_IN);
            && INPUT in after
            && (Walk(after, Front(after[INPUT], hook), p, depth).None? ==>
                  Walk(after, after[INPUT], p, depth) ==
                  if BuiltIn4(p) || FirstMeant(raws, p, p.port) == Some(Allow)
                  then Walk(after, Behind(after[INPUT], hook), p, depth) else Some(Drop))
  {
    InstalledInput(before, config);
    InputDecided(Installed(before, config), before[INPUT], config.rules, p, depth);
    RulesAsMeant(raws, config.rules, p, p.port);
    BuiltInMeans(p);
  }

  // ---- Before the containers, and translation ----

  /** What a packet on its way to the containers meets in the installed table. */
  lemma {:induction false} DockerEnforced(before: map<string, Chain>, raw: RawConfig, config: Config, printable: char -> bool,
                                          p: Packet, depth: nat)
    requires BuiltIn(before) && depth > 0 && ValidateConfig(raw, printable) == Ok(config)
    requires !p.fromContainer && !p.marked && !p.established && p.translated
    ensures var after := Installed(before, config);
            var hook := JumpTo(CHAIN_DOCKER);
            && DOCKER_USER in after
            && (Walk(after, Front(after[DOCKER_USER], hook), p, depth).None? ==>
                  Walk(after, after[DOCKER_USER], p, depth) ==
                  if ToAsked(raw.forwards, p) then Some(Accept)
                  else if (p.protocol.TcpPacket? && p.originalPort in {80, 443}) || FirstMeant(raw.rules, p, p.originalPort) == Some(Allow)
                  then Walk(after, Behind(after[DOCKER_USER], hook), p, depth) else Some(Drop))
  {
    var after := Installed(before, config);
    InstalledDocker(before, config);
    DockerTargets(config.rules, config.forwards);
    HookedDecides(after, if DOCKER_USER in before then before[DOCKER_USER] else [], CHAIN_DOCKER, p, depth);
    RequestDecides(raw, config, printable, p);
  }

  lemma {:induction false} DockerTargets(rules: seq<Rule>, forwards: seq<Forward>)
    ensures forall e | e in DockerRuleEntries(rules) :: e.target in {Return, Drop}
    ensures forall e | e in ForwardEntries(forwards) :: e.target == Accept
    ensures forall e | e in DockerChain(rules, forwards) :: !e.target.Jump?
    decreases |rules| + |forwards|
  {
    if rules != [] {
      DockerTargets(rules[..|rules| - 1], forwards);
    }
    if forwards != [] {
      DockerTargets(rules, forwards[..|forwards| - 1]);
    }
  }

  /** A packet on its way in is sent on to where the forward on its port was asked to go; there is at most one. */
  lemma {:induction false} ForwardEnforced(before: map<string, Chain>, raw: RawConfig, config: Config, printable: char -> bool,
                                           p: Packet, depth: nat, k: nat)
    requires BuiltIn(before) && depth > 0 && ValidateConfig(raw, printable) == Ok(config)
    requires k < |raw.forwards| && ListensTo(raw.forwards[k], p)
    ensures raw.forwards[k].dest.Some? && raw.forwards[k].destPort.Some?
    ensures var after := Installed(before, config);
            && PREROUTING in after
            && (Walk(after, Front(after[PREROUTING], JumpTo(CHAIN_DNAT)), p, depth).None? ==>
                  Walk(after, after[PREROUTING], p, depth) ==
                  Some(Translate(raw.forwards[k].dest.value, raw.forwards[k].destPort.value)))
  {
    InstalledNat(before, config);
    TranslationDecides(Installed(before, config), before[PREROUTING], config.forwards, p, depth);
    ForwardGoesWhereAsked(raw, config, printable, p, k);
  }

  /** A packet to no forward's port goes on as if there were no translation. */
  lemma {:induction false} OthersGoOn(before: map<string, Chain>, raw: RawConfig, config: Config, printable: char -> bool,
                                      p: Packet, depth: nat)
    requires BuiltIn(before) && depth > 0 && ValidateConfig(raw, printable) == Ok(config)
    requires forall k | 0 <= k < |raw.forwards| :: !ListensTo(raw.forwards[k], p)
    ensures var after := Installed(before, config);
            var hook := JumpTo(CHAIN_DNAT);
            && PREROUTING in after
            && (Walk(after, Front(after[PREROUTING], hook), p, depth).None? ==>
                  Walk(after, after[PREROUTING], p, depth) == Walk(after, Behind(after[PREROUTING], hook), p, depth))
  {
    InstalledNat(before, config);
    TranslationDecides(Installed(before, config), before[PREROUTING], config.forwards, p, depth);
    NoneAsked(raw.forwards, config.forwards, printable, p);
  }

  lemma {:induction false} NoneAsked(raws: seq<RawForward>, forwards: seq<Forward>, printable: char -> bool, p: Packet)
    requires ValidateForwards(raws, printable) == Ok(forwards) && forall k | 0 <= k < |raws| :: !ListensTo(raws[k], p)
    ensures Verdict(TranslateChain(forwards), p) == Return
  {
    EachForwardAccepted(raws, printable);
    ForwardsInRange(raws, forwards, printable);
    forall k | 0 <= k < |forwards|
      ensures !(p.protocol == ProtocolOf(forwards[k].proto) && p.port == forwards[k].listen)
    {
      assert !ListensTo(raws[k], p);
      ForwardAsAsked(raws[k], printable);
    }
    NothingListens(forwards, p);
  }

  /** The forward's protocol and listening port are the packet's. */
  predicate ListensTo(raw: RawForward, p: Packet) {
    && raw.listen == Some(p.port)
    && ((raw.proto == Some(Tcp) && p.protocol.TcpPacket?) || (raw.proto == Some(Udp) && p.protocol.UdpPacket?))
  }

  lemma {:induction false} NothingListens(forwards: seq<Forward>, p: Packet)
    requires forall f | f in forwards :: InRange(f) && !(p.protocol == ProtocolOf(f.proto) && p.port == f.listen)
    ensures forall e | e in TranslateChain(forwards) :: !Matches(e, p)
    ensures Verdict(TranslateChain(forwards), p) == Return
  {
    if forwards != [] {
      var n := |forwards| - 1;
      AllButLast(forwards);
      NothingListens(forwards[..n], p);
      RenderRange(Ports(forwards[n].listen, forwards[n].listen), ':');
      assert !Matches(TranslateEntry(forwards[n]), p);
    }
    NoMatch(TranslateChain(forwards), p);
  }

  lemma {:induction false} NoMatch(chain: Chain, p: Packet)
    requires forall e | e in chain :: !Matches(e, p)
    ensures Verdict(chain, p) == Return
  {
    if chain != [] {
      assert chain[0] in chain;
      NoMatch(chain[1..], p);
    }
  }

  lemma {:induction false} TranslationDecides(after: map<string, Chain>, parent: Chain, forwards: seq<Forward>, p: Packet, depth: nat)
    requires depth > 0 && PREROUTING in after && after[PREROUTING] == Hooked(parent, CHAIN_DNAT)
    requires CHAIN_DNAT in after && after[CHAIN_DNAT] == TranslateChain(forwards)
    ensures var verdict := Verdict(TranslateChain(forwards), p);
            Walk(after, Front(after[PREROUTING], JumpTo(CHAIN_DNAT)), p, depth).None? ==>
              Walk(after, after[PREROUTING], p, depth) ==
              if verdict == Return then Walk(after, Behind(after[PREROUTING], JumpTo(CHAIN_DNAT)), p, depth) else Some(verdict)
  {
    TranslateTargets(forwards);
    HookedDecides(after, parent, CHAIN_DNAT, p, depth);
  }

  lemma {:induction false} TranslateTargets(forwards: seq<Forward>)
    ensures forall e | e in TranslateChain(forwards) :: e.target.Translate?
  {
    if forwards != [] {
      TranslateTargets(forwards[..|forwards| - 1]);
    }
  }

  // ---- The way back ----

  /** The device stands in for the client exactly towards the destinations of forwards. */
  lemma {:induction false} MasqueradeDecides(forwards: seq<Forward>, p: Packet)
    requires forall f | f in forwards :: InRange(f)
    ensures Verdict(MasqueradeChain(forwards), p) ==
            if exists f :: f in forwards && p.dest == Some(f.dest) && p.protocol == ProtocolOf(f.proto) && p.port == f.destPort
            then Masquerade else Return
  {
    MasqueradeEntries(forwards, p);
    SameTarget(MasqueradeChain(forwards), Masquerade, [], p);
    assert MasqueradeChain(forwards) + [] == MasqueradeChain(forwards);
  }

  /** ... in the installed table, towards the destinations that were asked for. */
  lemma {:induction false} MasqueradeEnforced(before: map<string, Chain>, raw: RawConfig, config: Config, printable: char -> bool,
                                              p: Packet, depth: nat)
    requires BuiltIn(before) && depth > 0 && ValidateConfig(raw, printable) == Ok(config)
    ensures var after := Installed(before, config);
            var hook := JumpTo(CHAIN_MASQ);
            && POSTROUTING in after
            && (Walk(after, Front(after[POSTROUTING], hook), p, depth).None? ==>
                  Walk(after, after[POSTROUTING], p, depth) ==
                  if ToAsked(raw.forwards, p) then Some(Masquerade) else Walk(after, Behind(after[POSTROUTING], hook), p, depth))
  {
    var after := Installed(before, config);
    InstalledNat(before, config);
    ForwardsInRange(raw.forwards, config.forwards, printable);
    ToForwardAsAsked(raw.forwards, config.forwards, printable, p);
    MasqueradeEntries(config.forwards, p);
    MasqueradeDecides(config.forwards, p);
    HookedDecides(after, before[POSTROUTING], CHAIN_MASQ, p, depth);
  }

  lemma {:induction false} MasqueradeEntries(forwards: seq<Forward>, p: Packet)
    requires forall f | f in forwards :: InRange(f)
    ensures forall e | e in MasqueradeChain(forwards) :: e.target == Masquerade
    ensures (exists e :: e in MasqueradeChain(forwards) && Matches(e, p)) <==>
            exists f :: f in forwards && p.dest == Some(f.dest) && p.protocol == ProtocolOf(f.proto) && p.port == f.destPort
  {
    if forwards != [] {
      var n := |forwards| - 1;
      var f := forwards[n];
      MasqueradeEntries(forwards[..n], p);
      AllButLast(forwards);
      assert f in forwards;
      RenderRange(Ports(f.destPort, f.destPort), ':');
      assert Matches(MasqueradeEntry(f), p) <==> p.dest == Some(f.dest) && p.protocol == ProtocolOf(f.proto) && p.port == f.destPort;
      assert forall g :: g in forwards <==> g in forwards[..n] || g == f;
      assert forall e :: e in MasqueradeChain(forwards) <==> e in MasqueradeChain(forwards[..n]) || e == MasqueradeEntry(f);
    }
  }
}
