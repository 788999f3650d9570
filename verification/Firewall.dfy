/** The firewall compiler: a validated configuration becomes ordered chains of the packet filter, read by first match. */
module Firewall {
  import opened Prelude
  import opened FirewallConfig

  const GUARD_TCP := [22, 80, 443]
  const GUARD_UDP := [41641]
  const WEB := [80, 443]

  // ---- Packets and entries ----

  datatype Protocol = TcpPacket | UdpPacket | Icmp | OtherProtocol

  /** What the filter can see of a packet. `port` is the destination port as it is, `originalPort` as it was before address
      translation; `marked` says that the source is the impossible address of the signature entry. */
  datatype Packet = Packet(loopback: bool, fromContainer: bool, marked: bool, source: Option<Address>, dest: Option<Address>,
                           protocol: Protocol, port: int, established: bool, translated: bool, originalPort: int)

  datatype Target = Return | Drop | Accept | Jump(chain: string) | Translate(dest: Address, port: int) | Masquerade

  /** One entry; what is None or false is not tested. Port ranges are text. */
  datatype Entry = Entry(loopback: bool, fromContainer: bool, marked: bool, source: Option<Network>, dest: Option<Address>,
                         protocol: Option<Protocol>, port: Option<string>, established: bool, translated: bool,
                         originalPort: Option<string>, target: Target)

  const ANY := Entry(false, false, false, None, None, None, None, false, false, None, Drop)

  predicate InText(text: string, port: int) {
    var range := Range(text, ':');
    range.Some? && range.value.low <= port <= range.value.high
  }

  predicate HasPorts(p: Packet) {
    p.protocol.TcpPacket? || p.protocol.UdpPacket?
  }

  predicate Matches(e: Entry, p: Packet) {
    && (e.loopback ==> p.loopback) && (e.fromContainer ==> p.fromContainer) && (e.marked ==> p.marked)
    && (e.source.Some? ==> p.source.Some? && Contains(e.source.value, p.source.value))
    && (e.dest.Some? ==> p.dest == e.dest)
    && (e.protocol.Some? ==> p.protocol == e.protocol.value)
    && (e.port.Some? ==> HasPorts(p) && InText(e.port.value, p.port))
    && (e.established ==> p.established) && (e.translated ==> p.translated)
    && (e.originalPort.Some? ==> InText(e.originalPort.value, p.originalPort))
  }

  type Chain = seq<Entry>

  /** The first entry that matches decides; past the end the packet returns to the calling chain. */
  function Verdict(chain: Chain, p: Packet): Target {
    if |chain| == 0 then Return
    else if Matches(chain[0], p) then chain[0].target
    else Verdict(chain[1..], p)
  }

  /** A block of entries with one target, in front of the rest. */
  lemma {:induction false} SameTarget(block: Chain, target: Target, rest: Chain, p: Packet)
    requires forall e | e in block :: e.target == target
    ensures Verdict(block + rest, p) == if exists e :: e in block && Matches(e, p) then target else Verdict(rest, p)
    decreases |block|
  {
    if |block| == 0 {
      assert block + rest == rest;
    } else {
      assert (block + rest)[1..] == block[1..] + rest;
      assert block == [block[0]] + block[1..];
      SameTarget(block[1..], target, rest, p);
    }
  }

  // ---- User rules ----

  function ProtocolOf(proto: Proto): Protocol {
    if proto.Tcp? then TcpPacket else UdpPacket
  }

  /** What the user meant: protocol, port in the written range, source in the network. */
  predicate Concerns(rule: Rule, p: Packet, port: int) {
    && p.protocol == ProtocolOf(rule.proto)
    && ParsePorts(rule.ports).Ok?
    && ParsePorts(rule.ports).value.low <= port <= ParsePorts(rule.ports).value.high
    && (rule.source.Some? ==> p.source.Some? && Contains(rule.source.value, p.source.value))
  }

  /** The first rule that concerns the packet. */
  function FirstRule(rules: seq<Rule>, p: Packet, port: int): Option<Verb> {
    if |rules| == 0 then None
    else if Concerns(rules[0], p, port) then Some(rules[0].verb)
    else FirstRule(rules[1..], p, port)
  }

  /** As validation leaves them. */
  predicate Validated(rule: Rule) {
    ParsePorts(rule.ports).Ok? && rule.ports == Render(ParsePorts(rule.ports).value, '-')
  }

  lemma {:induction false} ValidRulesAreValidated(raw: RawRule, rule: Rule, printable: char -> bool)
    requires ValidateRule(raw, printable) == Ok(rule)
    ensures Validated(rule)
  {
    ValidatedFields(raw, rule, printable);
    RenderedPorts(raw.ports, rule.ports);
  }

  function TargetOf(verb: Verb): Target {
    if verb.Allow? then Return else Drop
  }

  function RuleEntry(rule: Rule): Entry {
    ANY.(source := rule.source, protocol := Some(ProtocolOf(rule.proto)), port := Some(Colons(rule.ports)),
         target := TargetOf(rule.verb))
  }

  /** Behind address translation the original port is tested. */
  function DockerRuleEntry(rule: Rule): Entry {
    ANY.(source := rule.source, protocol := Some(ProtocolOf(rule.proto)), translated := true,
         originalPort := Some(Colons(rule.ports)), target := TargetOf(rule.verb))
  }

  lemma {:induction false} PortTextAgrees(rule: Rule, port: int)
    requires Validated(rule)
    ensures InText(Colons(rule.ports), port) <==>
            ParsePorts(rule.ports).value.low <= port <= ParsePorts(rule.ports).value.high
  {
    ColonsKeepRange(ParsePorts(rule.ports).value);
  }

  lemma {:induction false} EntryAgrees(rule: Rule, p: Packet)
    requires Validated(rule)
    ensures Matches(RuleEntry(rule), p) <==> Concerns(rule, p, p.port)
  {
    PortTextAgrees(rule, p.port);
  }

  lemma {:induction false} DockerEntryAgrees(rule: Rule, p: Packet)
    requires Validated(rule)
    ensures Matches(DockerRuleEntry(rule), p) <==> p.translated && Concerns(rule, p, p.originalPort)
  {
    PortTextAgrees(rule, p.originalPort);
  }

  function RuleEntries(rules: seq<Rule>): Chain {
    if |rules| == 0 then [] else RuleEntries(rules[..|rules| - 1]) + [RuleEntry(rules[|rules| - 1])]
  }

  function DockerRuleEntries(rules: seq<Rule>): Chain {
    if |rules| == 0 then [] else DockerRuleEntries(rules[..|rules| - 1]) + [DockerRuleEntry(rules[|rules| - 1])]
  }

  lemma {:induction false} RuleEntriesCons(rules: seq<Rule>)
    requires |rules| > 0
    ensures RuleEntries(rules) == [RuleEntry(rules[0])] + RuleEntries(rules[1..])
    ensures DockerRuleEntries(rules) == [DockerRuleEntry(rules[0])] + DockerRuleEntries(rules[1..])
    decreases |rules|
  {
    var n := |rules| - 1;
    if n > 0 {
      RuleEntriesCons(rules[..n]);
      assert rules[..n][1..] == rules[1..][..n - 1];
    }
  }

  /** The rules' entries decide as the first rule does, and leave the rest to what follows. */
  lemma {:induction false} RulesDecide(rules: seq<Rule>, rest: Chain, p: Packet)
    requires forall rule | rule in rules :: Validated(rule)
    ensures Verdict(RuleEntries(rules) + rest, p) ==
            if FirstRule(rules, p, p.port).Some? then TargetOf(FirstRule(rules, p, p.port).value) else Verdict(rest, p)
    decreases |rules|
  {
    if |rules| == 0 {
      assert RuleEntries(rules) + rest == rest;
    } else {
      RuleEntriesCons(rules);
      var chain := RuleEntries(rules) + rest;
      assert chain[0] == RuleEntry(rules[0]) && chain[1..] == RuleEntries(rules[1..]) + rest;
      EntryAgrees(rules[0], p);
      RulesDecide(rules[1..], rest, p);
    }
  }

  lemma {:induction false} DockerRulesDecide(rules: seq<Rule>, rest: Chain, p: Packet)
    requires forall rule | rule in rules :: Validated(rule)
    ensures Verdict(DockerRuleEntries(rules) + rest, p) ==
            if p.translated && FirstRule(rules, p, p.originalPort).Some?
            then TargetOf(FirstRule(rules, p, p.originalPort).value) else Verdict(rest, p)
    decreases |rules|
  {
    if |rules| == 0 {
      assert DockerRuleEntries(rules) + rest == rest;
    } else {
      RuleEntriesCons(rules);
      var chain := DockerRuleEntries(rules) + rest;
      assert chain[0] == DockerRuleEntry(rules[0]) && chain[1..] == DockerRuleEntries(rules[1..]) + rest;
      DockerEntryAgrees(rules[0], p);
      DockerRulesDecide(rules[1..], rest, p);
    }
  }

  // ---- The input chains ----

  function PassPort(protocol: Protocol, port: nat): Entry {
    ANY.(protocol := Some(protocol), port := Some(Decimal(port)), target := Return)
  }

  function PassPorts(protocol: Protocol, ports: seq<nat>): Chain {
    if |ports| == 0 then [] else PassPorts(protocol, ports[..|ports| - 1]) + [PassPort(protocol, ports[|ports| - 1])]
  }

  lemma {:induction false} PassPortMatches(protocol: Protocol, port: nat, p: Packet)
    requires protocol.TcpPacket? || protocol.UdpPacket?
    ensures Matches(PassPort(protocol, port), p) <==> p.protocol == protocol && p.port == port
  {
    RenderRange(Ports(port, port), ':');
  }

  lemma {:induction false} PassPortsPass(protocol: Protocol, ports: seq<nat>, p: Packet)
    requires protocol.TcpPacket? || protocol.UdpPacket?
    ensures forall e | e in PassPorts(protocol, ports) :: e.target == Return
    ensures (exists e :: e in PassPorts(protocol, ports) && Matches(e, p)) <==> p.protocol == protocol && p.port in ports
  {
    if |ports| > 0 {
      var n := |ports| - 1;
      PassPortsPass(protocol, ports[..n], p);
      PassPortMatches(protocol, ports[n], p);
      AllButLast(ports);
      var last := PassPort(protocol, ports[n]);
      assert last in PassPorts(protocol, ports);
      assert forall e :: e in PassPorts(protocol, ports) <==> e in PassPorts(protocol, ports[..n]) || e == last;
    }
  }

  const LOOPBACK := ANY.(loopback := true, target := Return)
  const SIGNATURE := ANY.(marked := true, target := Return)
  const ESTABLISHED := ANY.(established := true, target := Return)
  const ICMP := ANY.(protocol := Some(Icmp), target := Return)

  const SERVICES_UDP := [67, 53, 5353]
  const SERVICES_TCP := [53]

  /** Loopback, signature, established connections, ICMP. */
  function Preamble(): Chain {
    [LOOPBACK, SIGNATURE, ESTABLISHED, ICMP]
  }

  predicate Basic(p: Packet) {
    p.loopback || p.marked || p.established || p.protocol.Icmp?
  }

  function Services4(): Chain {
    [PassPort(UdpPacket, 67), PassPort(UdpPacket, 53), PassPort(TcpPacket, 53), PassPort(UdpPacket, 5353)]
  }

  function Services6(): Chain {
    [PassPort(UdpPacket, 546)]
  }

  function Guards(): Chain {
    PassPorts(TcpPacket, GUARD_TCP) + PassPorts(UdpPacket, GUARD_UDP)
  }

  predicate Guarded(p: Packet) {
    (p.protocol.TcpPacket? && p.port in GUARD_TCP) || (p.protocol.UdpPacket? && p.port in GUARD_UDP)
  }

  predicate Service4(p: Packet) {
    (p.protocol.UdpPacket? && p.port in SERVICES_UDP) || (p.protocol.TcpPacket? && p.port in SERVICES_TCP)
  }

  predicate Service6(p: Packet) {
    p.protocol.UdpPacket? && p.port == 546
  }

  function InputChain(services: Chain, rules: seq<Rule>): Chain {
    Preamble() + services + Guards() + RuleEntries(rules) + [ANY]
  }

  lemma {:induction false} Services4Pass(p: Packet)
    ensures forall e | e in Services4() :: e.target == Return
    ensures (exists e :: e in Services4() && Matches(e, p)) <==> Service4(p)
  {
    PassPortMatches(UdpPacket, 67, p);
    PassPortMatches(UdpPacket, 53, p);
    PassPortMatches(TcpPacket, 53, p);
    PassPortMatches(UdpPacket, 5353, p);
    assert Services4()[0] in Services4() && Services4()[1] in Services4();
    assert Services4()[2] in Services4() && Services4()[3] in Services4();
  }

  lemma {:induction false} Services6Pass(p: Packet)
    ensures forall e | e in Services6() :: e.target == Return
    ensures (exists e :: e in Services6() && Matches(e, p)) <==> Service6(p)
  {
    PassPortMatches(UdpPacket, 546, p);
    assert Services6()[0] in Services6();
  }

  lemma {:induction false} PreamblePasses(p: Packet)
    ensures forall e | e in Preamble() :: e.target == Return
    ensures (exists e :: e in Preamble() && Matches(e, p)) <==> Basic(p)
  {
    assert Preamble()[0] in Preamble() && Preamble()[1] in Preamble();
    assert Preamble()[2] in Preamble() && Preamble()[3] in Preamble();
  }

  /** The block of entries that let service traffic pass, followed by guards, rules and the final drop. */
  lemma {:induction false} InputDecides(services: Chain, rules: seq<Rule>, p: Packet)
    requires forall rule | rule in rules :: Validated(rule)
    requires forall e | e in services :: e.target == Return
    ensures Verdict(InputChain(services, rules), p) ==
            if Basic(p) || (exists e :: e in services && Matches(e, p)) || Guarded(p)
               || FirstRule(rules, p, p.port) == Some(Allow) then Return else Drop
  {
    var tail := RuleEntries(rules) + [ANY];
    PreamblePasses(p);
    PassPortsPass(TcpPacket, GUARD_TCP, p);
    PassPortsPass(UdpPacket, GUARD_UDP, p);
    SameTarget(PassPorts(UdpPacket, GUARD_UDP), Return, tail, p);
    SameTarget(PassPorts(TcpPacket, GUARD_TCP), Return, PassPorts(UdpPacket, GUARD_UDP) + tail, p);
    SameTarget(services, Return, PassPorts(TcpPacket, GUARD_TCP) + (PassPorts(UdpPacket, GUARD_UDP) + tail), p);
    SameTarget(Preamble(), Return, services + (PassPorts(TcpPacket, GUARD_TCP) + (PassPorts(UdpPacket, GUARD_UDP) + tail)), p);
    RulesDecide(rules, [ANY], p);
    Reassociate(Preamble(), services, PassPorts(TcpPacket, GUARD_TCP), PassPorts(UdpPacket, GUARD_UDP), RuleEntries(rules));
  }

  lemma {:induction false} Reassociate(a: Chain, b: Chain, c: Chain, d: Chain, e: Chain)
    ensures a + b + (c + d) + e + [ANY] == a + (b + (c + (d + (e + [ANY]))))
  {
  }

  /** The IPv4 input chain lets a packet pass exactly when it is built-in traffic, goes to a guard port, or the first user
      rule that concerns it allows it. */
  lemma {:induction false} Input4Decides(rules: seq<Rule>, p: Packet)
    requires forall rule | rule in rules :: Validated(rule)
    ensures Verdict(InputChain(Services4(), rules), p) ==
            if Basic(p) || Service4(p) || Guarded(p) || FirstRule(rules, p, p.port) == Some(Allow) then Return else Drop
  {
    Services4Pass(p);
    InputDecides(Services4(), rules, p);
  }

  /** The IPv6 chain leaves out the rules that name an IPv4 source. */
  function Unsourced(rules: seq<Rule>): (kept: seq<Rule>)
    ensures forall rule | rule in kept :: rule in rules && rule.source.None?
  {
    if |rules| == 0 then [] else
      var before := Unsourced(rules[..|rules| - 1]);
      if rules[|rules| - 1].source.Some? then before else before + [rules[|rules| - 1]]
  }

  lemma {:induction false} Input6Decides(rules: seq<Rule>, p: Packet)
    requires forall rule | rule in rules :: Validated(rule)
    ensures Verdict(InputChain(Services6(), Unsourced(rules)), p) ==
            if Basic(p) || Service6(p) || Guarded(p) || FirstRule(Unsourced(rules), p, p.port) == Some(Allow)
            then Return else Drop
  {
    Services6Pass(p);
    InputDecides(Services6(), Unsourced(rules), p);
  }

  /** Apart from the service ports, both chains give a packet the same verdict when no rule names a source. */
  lemma {:induction false} FamiliesAgree(rules: seq<Rule>, p: Packet)
    requires forall rule | rule in rules :: Validated(rule) && rule.source.None?
    requires !Service4(p) && !Service6(p)
    ensures Verdict(InputChain(Services4(), rules), p) == Verdict(InputChain(Services6(), Unsourced(rules)), p)
  {
    AllUnsourced(rules);
    Input4Decides(rules, p);
    Input6Decides(rules, p);
  }

  lemma {:induction false} AllUnsourced(rules: seq<Rule>)
    requires forall rule | rule in rules :: rule.source.None?
    ensures Unsourced(rules) == rules
  {
    if |rules| > 0 {
      AllUnsourced(rules[..|rules| - 1]);
      AllButLast(rules);
    }
  }

  /** No rule can close a guard port. */
  lemma {:induction false} GuardsStayOpen(rules: seq<Rule>, p: Packet)
    requires forall rule | rule in rules :: Validated(rule)
    requires Guarded(p)
    ensures Verdict(InputChain(Services4(), rules), p) == Return
    ensures Verdict(InputChain(Services6(), Unsourced(rules)), p) == Return
  {
    Input4Decides(rules, p);
    Input6Decides(rules, p);
  }

  // ---- Forwards and containers ----

  const FROM_CONTAINER := ANY.(fromContainer := true, target := Return)
  const ESTABLISHED_ACCEPT := ANY.(established := true, target := Accept)
  const TRANSLATED_DROP := ANY.(translated := true)

  function ForwardEntry(f: Forward): Entry {
    ANY.(dest := Some(f.dest), protocol := Some(ProtocolOf(f.proto)),
         port := Some(if f.destPort >= 0 then Decimal(f.destPort) else ""), translated := true, target := Accept)
  }

  function ForwardEntries(forwards: seq<Forward>): Chain {
    if |forwards| == 0 then [] else ForwardEntries(forwards[..|forwards| - 1]) + [ForwardEntry(forwards[|forwards| - 1])]
  }

  function WebEntry(port: nat): Entry {
    ANY.(protocol := Some(TcpPacket), translated := true, originalPort := Some(Decimal(port)), target := Return)
  }

  function DockerChain(rules: seq<Rule>, forwards: seq<Forward>): Chain {
    [FROM_CONTAINER, SIGNATURE, ESTABLISHED_ACCEPT] + ForwardEntries(forwards) + [WebEntry(80), WebEntry(443)]
    + DockerRuleEntries(rules) + [TRANSLATED_DROP]
  }

  /** The packet is on its way to the destination of a forward. */
  predicate ToForward(forwards: seq<Forward>, p: Packet) {
    exists f :: f in forwards && p.dest == Some(f.dest) && p.protocol == ProtocolOf(f.proto) && p.port == f.destPort
  }

  predicate InRange(f: Forward) {
    1 <= f.listen <= MAX_PORT && 1 <= f.destPort <= MAX_PORT
  }

  lemma {:induction false} ForwardMatches(f: Forward, p: Packet)
    requires InRange(f)
    ensures Matches(ForwardEntry(f), p) <==>
            p.translated && p.dest == Some(f.dest) && p.protocol == ProtocolOf(f.proto) && p.port == f.destPort
  {
    RenderRange(Ports(f.destPort, f.destPort), ':');
  }

  lemma {:induction false} ForwardsAccept(forwards: seq<Forward>, p: Packet)
    requires forall f | f in forwards :: InRange(f)
    ensures forall e | e in ForwardEntries(forwards) :: e.target == Accept
    ensures (exists e :: e in ForwardEntries(forwards) && Matches(e, p)) <==> p.translated && ToForward(forwards, p)
  {
    if |forwards| > 0 {
      var n := |forwards| - 1;
      ForwardsAccept(forwards[..n], p);
      ForwardMatches(forwards[n], p);
      AllButLast(forwards);
      var last := ForwardEntry(forwards[n]);
      assert forall e :: e in ForwardEntries(forwards) <==> e in ForwardEntries(forwards[..n]) || e == last;
      assert forall f :: f in forwards <==> f in forwards[..n] || f == forwards[n];
      assert last in ForwardEntries(forwards) && forwards[n] in forwards;
    }
  }

  lemma {:induction false} WebMatches(port: nat, p: Packet)
    ensures Matches(WebEntry(port), p) <==> p.translated && p.protocol.TcpPacket? && p.originalPort == port
  {
    RenderRange(Ports(port, port), ':');
  }

  lemma {:induction false} WebPasses(p: Packet)
    ensures forall e | e in [WebEntry(80), WebEntry(443)] :: e.target == Return
    ensures (exists e :: e in [WebEntry(80), WebEntry(443)] && Matches(e, p)) <==>
            p.translated && p.protocol.TcpPacket? && p.originalPort in WEB
  {
    WebMatches(80, p);
    WebMatches(443, p);
    assert WebEntry(80) in [WebEntry(80), WebEntry(443)] && WebEntry(443) in [WebEntry(80), WebEntry(443)];
  }

  /** The chain before the containers: traffic from a container and traffic that is not translated is left alone, replies
      and forwards are accepted, and of the rest passes what goes to the web ports or what the first rule allows. */
  lemma {:induction false} DockerDecides(rules: seq<Rule>, forwards: seq<Forward>, p: Packet)
    requires forall rule | rule in rules :: Validated(rule)
    requires forall f | f in forwards :: InRange(f)
    ensures Verdict(DockerChain(rules, forwards), p) ==
            if p.fromContainer || p.marked then Return
            else if p.established then Accept
            else if !p.translated then Return
            else if ToForward(forwards, p) then Accept
            else if (p.protocol.TcpPacket? && p.originalPort in WEB) || FirstRule(rules, p, p.originalPort) == Some(Allow)
            then Return else Drop
  {
    var web := [WebEntry(80), WebEntry(443)];
    var tail := DockerRuleEntries(rules) + [TRANSLATED_DROP];
    var chain := DockerChain(rules, forwards);
    ForwardsAccept(forwards, p);
    WebPasses(p);
    DockerRulesDecide(rules, [TRANSLATED_DROP], p);
    SameTarget(web, Return, tail, p);
    SameTarget(ForwardEntries(forwards), Accept, web + tail, p);
    HeadDecides(ForwardEntries(forwards) + (web + tail), p);
    assert chain == [FROM_CONTAINER, SIGNATURE, ESTABLISHED_ACCEPT] + (ForwardEntries(forwards) + (web + tail));
  }

  lemma {:induction false} HeadDecides(rest: Chain, p: Packet)
    ensures Verdict([FROM_CONTAINER, SIGNATURE, ESTABLISHED_ACCEPT] + rest, p) ==
            if p.fromContainer || p.marked then Return else if p.established then Accept else Verdict(rest, p)
  {
    var passing, accepting := [FROM_CONTAINER, SIGNATURE], [ESTABLISHED_ACCEPT];
    SameTarget(accepting, Accept, rest, p);
    SameTarget(passing, Return, accepting + rest, p);
    assert FROM_CONTAINER in passing && SIGNATURE in passing && ESTABLISHED_ACCEPT in accepting;
    assert [FROM_CONTAINER, SIGNATURE, ESTABLISHED_ACCEPT] + rest == passing + (accepting + rest);
  }

  function TranslateEntry(f: Forward): Entry {
    ANY.(protocol := Some(ProtocolOf(f.proto)), port := Some(if f.listen >= 0 then Decimal(f.listen) else ""),
         target := Translate(f.dest, f.destPort))
  }

  function TranslateChain(forwards: seq<Forward>): Chain {
    if |forwards| == 0 then [] else TranslateChain(forwards[..|forwards| - 1]) + [TranslateEntry(forwards[|forwards| - 1])]
  }

  lemma {:induction false} TranslateMatches(f: Forward, p: Packet)
    requires InRange(f)
    ensures Matches(TranslateEntry(f), p) <==> p.protocol == ProtocolOf(f.proto) && p.port == f.listen
  {
    RenderRange(Ports(f.listen, f.listen), ':');
  }

  lemma {:induction false} TranslateCons(forwards: seq<Forward>)
    requires |forwards| > 0
    ensures TranslateChain(forwards) == [TranslateEntry(forwards[0])] + TranslateChain(forwards[1..])
    decreases |forwards|
  {
    var n := |forwards| - 1;
    if n > 0 {
      TranslateCons(forwards[..n]);
      assert forwards[..n][1..] == forwards[1..][..n - 1];
    }
  }

  /** A packet to a listening port goes to that forward's destination, whichever the order of the forwards. */
  lemma {:induction false} ForwardIsFound(forwards: seq<Forward>, k: nat, p: Packet)
    requires DistinctListens(forwards) && k < |forwards| && forall f | f in forwards :: InRange(f)
    requires p.protocol == ProtocolOf(forwards[k].proto) && p.port == forwards[k].listen
    ensures Verdict(TranslateChain(forwards), p) == Translate(forwards[k].dest, forwards[k].destPort)
    decreases |forwards|
  {
    TranslateCons(forwards);
    TranslateMatches(forwards[0], p);
    var chain := TranslateChain(forwards);
    assert chain[0] == TranslateEntry(forwards[0]) && chain[1..] == TranslateChain(forwards[1..]);
    if k > 0 {
      assert forwards[1..][k - 1] == forwards[k];
      ForwardIsFound(forwards[1..], k - 1, p);
    }
  }

  /** A packet that no forward listens for is not translated. */
  lemma {:induction false} OthersNotTranslated(forwards: seq<Forward>, p: Packet)
    requires forall f | f in forwards :: InRange(f)
    requires forall f | f in forwards :: p.protocol != ProtocolOf(f.proto) || p.port != f.listen
    ensures Verdict(TranslateChain(forwards), p) == Return
    decreases |forwards|
  {
    if |forwards| > 0 {
      TranslateCons(forwards);
      TranslateMatches(forwards[0], p);
      var chain := TranslateChain(forwards);
      assert chain[0] == TranslateEntry(forwards[0]) && chain[1..] == TranslateChain(forwards[1..]);
      OthersNotTranslated(forwards[1..], p);
    }
  }

  /** The packet after translation. */
  function Translated(p: Packet, target: Target): Packet
    requires target.Translate?
  {
    p.(dest := Some(target.dest), port := target.port, translated := true, originalPort := p.port)
  }

  /** A forward works whatever the rules say: its packets are translated to its destination and then accepted; and no
      packet to a port of the appliance's own services is ever diverted. */
  lemma {:induction false} ForwardsGoThrough(rules: seq<Rule>, forwards: seq<Forward>, k: nat, p: Packet)
    requires forall rule | rule in rules :: Validated(rule)
    requires DistinctListens(forwards) && k < |forwards| && forall f | f in forwards :: InRange(f)
    requires p.protocol == ProtocolOf(forwards[k].proto) && p.port == forwards[k].listen
    requires !p.fromContainer && !p.marked
    ensures var target := Verdict(TranslateChain(forwards), p);
            target.Translate? && Verdict(DockerChain(rules, forwards), Translated(p, target)) == Accept
  {
    ForwardIsFound(forwards, k, p);
    var q := Translated(p, Translate(forwards[k].dest, forwards[k].destPort));
    assert forwards[k] in forwards;
    DockerDecides(rules, forwards, q);
  }

  lemma {:induction false} ForwardsInRange(raws: seq<RawForward>, forwards: seq<Forward>, printable: char -> bool)
    requires ValidateForwards(raws, printable) == Ok(forwards)
    ensures forall f | f in forwards :: InRange(f) && f.listen !in RESERVED_LISTEN
  {
    ForwardsSplit(raws, forwards, printable);
    if |raws| > 0 {
      ForwardsInRange(raws[..|raws| - 1], forwards[..|raws| - 1], printable);
      AllButLast(forwards);
    }
  }

  lemma {:induction false} ReservedNotDiverted(raws: seq<RawForward>, forwards: seq<Forward>, printable: char -> bool, p: Packet)
    requires ValidateForwards(raws, printable) == Ok(forwards) && p.port in RESERVED_LISTEN
    ensures Verdict(TranslateChain(forwards), p) == Return
  {
    ForwardsInRange(raws, forwards, printable);
    OthersNotTranslated(forwards, p);
  }

  lemma {:induction false} RulesValidated(raws: seq<RawRule>, rules: seq<Rule>, printable: char -> bool)
    requires ValidateRules(raws, printable) == Ok(rules)
    ensures forall rule | rule in rules :: Validated(rule)
  {
    RulesSplit(raws, rules, printable);
    if |raws| > 0 {
      RulesValidated(raws[..|raws| - 1], rules[..|raws| - 1], printable);
      ValidRulesAreValidated(raws[|raws| - 1], rules[|raws| - 1], printable);
      AllButLast(rules);
    }
  }

  /** For every validated configuration and every packet. */
  lemma {:induction false} ConfigDecides(raw: RawConfig, config: Config, printable: char -> bool, p: Packet)
    requires ValidateConfig(raw, printable) == Ok(config)
    ensures Verdict(InputChain(Services4(), config.rules), p) ==
            if Basic(p) || Service4(p) || Guarded(p) || FirstRule(config.rules, p, p.port) == Some(Allow) then Return else Drop
    ensures Verdict(InputChain(Services6(), Unsourced(config.rules)), p) ==
            if Basic(p) || Service6(p) || Guarded(p) || FirstRule(Unsourced(config.rules), p, p.port) == Some(Allow)
            then Return else Drop
    ensures p.port in RESERVED_LISTEN ==> Verdict(TranslateChain(config.forwards), p) == Return
    ensures forall k | 0 <= k < |config.forwards| && p.protocol == ProtocolOf(config.forwards[k].proto)
                       && p.port == config.forwards[k].listen ::
              Verdict(TranslateChain(config.forwards), p) == Translate(config.forwards[k].dest, config.forwards[k].destPort)
  {
    RulesValidated(raw.rules, config.rules, printable);
    Input4Decides(config.rules, p);
    Input6Decides(config.rules, p);
    ForwardsInRange(raw.forwards, config.forwards, printable);
    if p.port in RESERVED_LISTEN {
      ReservedNotDiverted(raw.forwards, config.forwards, printable, p);
    }
    forall k | 0 <= k < |config.forwards| && p.protocol == ProtocolOf(config.forwards[k].proto)
               && p.port == config.forwards[k].listen
      ensures Verdict(TranslateChain(config.forwards), p) == Translate(config.forwards[k].dest, config.forwards[k].destPort)
    {
      ForwardIsFound(config.forwards, k, p);
    }
  }
}
