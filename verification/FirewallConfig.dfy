/** The firewall's configuration: what is accepted, and how it is written down. */
module FirewallConfig {
  import opened Prelude
  import opened Text

  const MAX_RULES := 50
  const MAX_FORWARDS := 20
  const COMMENT_LIMIT := 80
  const MAX_PORT := 65535

  const RESERVED_LISTEN := {21, 22, 80, 443, 502, 2404, 2405, 2406, 4222, 5672, 5020, 5021} + set p | 30000 <= p < 30010

  // ---- Numbers ----

  predicate IsDigit(c: char) {
    '0' <= c <= '9'
  }

  function DigitOf(d: nat): char
    requires d < 10
  {
    "0123456789"[d]
  }

  function ValueOf(c: char): nat
    requires IsDigit(c)
  {
    c as int - '0' as int
  }

  lemma {:induction false} DigitValue(d: nat)
    requires d < 10
    ensures IsDigit(DigitOf(d)) && ValueOf(DigitOf(d)) == d
  {
  }

  function Decimal(n: nat): (s: string)
    ensures s != []
  {
    if n < 10 then [DigitOf(n)] else Decimal(n / 10) + [DigitOf(n % 10)]
  }

  /** Digits, with single underscores between them. */
  function Digits(s: string): Option<nat> {
    if s == [] || !IsDigit(s[|s| - 1]) then None
    else
      var n := |s| - 1;
      var d := ValueOf(s[n]);
      if n == 0 then Some(d)
      else
        var head := Digits(if s[n - 1] == '_' then s[..n - 1] else s[..n]);
        if head.None? then None else Some(10 * head.value + d)
  }

  /** An integer as the parser of the language reads it: blanks around it, a sign, digits. */
  function Integer(s: string): Option<int> {
    var t := Strip(s);
    if |t| == 0 then None else
      var signed := t[0] == '-' || t[0] == '+';
      var v := Digits(if signed then t[1..] else t);
      if v.None? then None
      else
        var n: int := v.value;
        Some(if t[0] == '-' then -n else n)
  }

  lemma {:induction false} DecimalDigits(n: nat)
    ensures forall c | c in Decimal(n) :: IsDigit(c)
    ensures Digits(Decimal(n)) == Some(n)
  {
    if n < 10 {
      DigitValue(n);
    } else {
      var head := Decimal(n / 10);
      DecimalDigits(n / 10);
      DigitValue(n % 10);
      assert Decimal(n)[..|head|] == head;
      assert head[|head| - 1] in head;
    }
  }

  lemma {:induction false} DigitIsPlain(c: char)
    requires IsDigit(c)
    ensures !IsBlank(c) && c != '-' && c != '+'
  {
  }

  lemma {:induction false} DecimalTrimmed(n: nat)
    ensures Trimmed(Decimal(n)) && Decimal(n)[0] != '-' && Decimal(n)[0] != '+'
  {
    var s := Decimal(n);
    DecimalDigits(n);
    assert s[0] in s && s[|s| - 1] in s;
    DigitIsPlain(s[0]);
    DigitIsPlain(s[|s| - 1]);
  }

  lemma {:induction false} DigitsAreInteger(n: nat)
    ensures Integer(Decimal(n)) == Some(n)
  {
    DecimalTrimmed(n);
    TrimmedStays(Decimal(n));
    DecimalDigits(n);
  }

  // ---- Ports ----

  datatype Ports = Ports(low: int, high: int)

  predicate ValidPorts(p: Ports) {
    1 <= p.low <= p.high <= MAX_PORT
  }

  /** Where the first separator is, or the length. */
  function IndexOf(s: string, c: char): (i: nat)
    ensures i <= |s|
  {
    if s == [] || s[0] == c then 0 else IndexOf(s[1..], c) + 1
  }

  /** "n" or "n-m", with another separator where the packet filter reads it. */
  function Range(text: string, separator: char): Option<Ports> {
    var i := IndexOf(text, separator);
    var low := Integer(text[..i]);
    var high := if i < |text| then Integer(text[i + 1..]) else low;
    if low.None? || high.None? then None else Some(Ports(low.value, high.value))
  }

  datatype Error =
    | UnknownField | BadAction | BadProto | BadPorts | PortsOutOfRange | BadSource | NotIpv4
    | BadListen | ReservedListen | BadDestPort | BadDestination
    | TooManyRules | TooManyForwards | DuplicateListen

  function ParsePorts(value: string): Result<Ports, Error> {
    var range := Range(Strip(value), '-');
    if range.None? then Err(BadPorts)
    else if ValidPorts(range.value) then Ok(range.value) else Err(PortsOutOfRange)
  }

  function Render(p: Ports, separator: char): string
    requires 0 <= p.low <= p.high
  {
    if p.low == p.high then Decimal(p.low) else Decimal(p.low) + [separator] + Decimal(p.high)
  }

  lemma {:induction false} RenderTrimmed(p: Ports, separator: char)
    requires 0 <= p.low <= p.high
    ensures Trimmed(Render(p, separator))
  {
    DecimalTrimmed(p.low);
    DecimalTrimmed(p.high);
  }

  lemma {:induction false} RenderRange(p: Ports, separator: char)
    requires 0 <= p.low <= p.high && !IsDigit(separator)
    ensures Range(Render(p, separator), separator) == Some(p)
  {
    DigitsAreInteger(p.low);
    DigitsAreInteger(p.high);
    DecimalDigits(p.low);
    RangeOf(Decimal(p.low), Decimal(p.high), separator, p);
  }

  lemma {:induction false} RangeOf(low: string, high: string, separator: char, p: Ports)
    requires separator !in low && Integer(low) == Some(p.low) && Integer(high) == Some(p.high)
    ensures Range(low + [separator] + high, separator) == Some(p)
    ensures p.low == p.high ==> Range(low, separator) == Some(p)
  {
    SplitRange(low, high, separator);
    NoSeparator(low, separator);
    assert low[..|low|] == low;
  }

  lemma {:induction false} SplitRange(low: string, high: string, separator: char)
    requires separator !in low
    ensures var s := low + [separator] + high;
            IndexOf(s, separator) == |low| && s[..|low|] == low && s[|low| + 1..] == high
  {
    var s := low + [separator] + high;
    assert forall j | 0 <= j < |low| :: s[j] == low[j];
    SeparatorAt(s, separator, |low|);
  }

  lemma {:induction false} NoSeparator(s: string, c: char)
    requires c !in s
    ensures IndexOf(s, c) == |s|
  {
    if s != [] {
      assert s[0] in s;
      NoSeparator(s[1..], c);
    }
  }

  lemma {:induction false} SeparatorAt(s: string, c: char, n: nat)
    requires n < |s| && s[n] == c && forall j | 0 <= j < n :: s[j] != c
    ensures IndexOf(s, c) == n
  {
    if n > 0 {
      SeparatorAt(s[1..], c, n - 1);
    }
  }

  /** What was validated and written down parses to the same ports again. */
  lemma {:induction false} PortsRoundTrip(value: string)
    requires ParsePorts(value).Ok?
    ensures ParsePorts(Render(ParsePorts(value).value, '-')) == ParsePorts(value)
  {
    var p := ParsePorts(value).value;
    RenderRange(p, '-');
    RenderTrimmed(p, '-');
    TrimmedStays(Render(p, '-'));
  }

  /** "a-b" to "a:b". */
  function Colons(s: string): (t: string)
    ensures |t| == |s|
    ensures forall i | 0 <= i < |s| :: t[i] == if s[i] == '-' then ':' else s[i]
  {
    seq(|s|, i requires 0 <= i < |s| => if s[i] == '-' then ':' else s[i])
  }

  lemma {:induction false} ColonsSplit(a: string, b: string)
    ensures Colons(a + b) == Colons(a) + Colons(b)
  {
  }

  lemma {:induction false} ColonsOfDigits(s: string)
    requires forall c | c in s :: IsDigit(c)
    ensures Colons(s) == s
  {
    forall i | 0 <= i < |s|
      ensures Colons(s)[i] == s[i]
    {
      assert s[i] in s;
    }
  }

  lemma {:induction false} ColonsOfRender(p: Ports)
    requires 0 <= p.low <= p.high
    ensures Colons(Render(p, '-')) == Render(p, ':')
  {
    DecimalDigits(p.low);
    DecimalDigits(p.high);
    ColonsOfDigits(Decimal(p.low));
    ColonsOfDigits(Decimal(p.high));
    ColonsSplit(Decimal(p.low), ['-']);
    ColonsSplit(Decimal(p.low) + ['-'], Decimal(p.high));
  }

  /** Rewritten for the packet filter, the ports are still the same. */
  lemma {:induction false} ColonsKeepRange(p: Ports)
    requires 0 <= p.low <= p.high
    ensures Range(Colons(Render(p, '-')), ':') == Some(p)
  {
    ColonsOfRender(p);
    RenderRange(p, ':');
  }

  // ---- Comments ----

  /** What is left of a text without its unprintable characters. */
  function Kept(s: string, printable: char -> bool): (t: string)
    ensures forall c | c in t :: printable(c)
    ensures (forall c | c in s :: printable(c)) ==> t == s
  {
    if |s| == 0 then [] else
      var t := Kept(s[..|s| - 1], printable);
      assert s == s[..|s| - 1] + [s[|s| - 1]];
      if printable(s[|s| - 1]) then t + [s[|s| - 1]] else t
  }

  function CleanText(value: Option<string>, printable: char -> bool): Option<string> {
    if value.None? then None
    else
      var text := Strip(Kept(value.value, printable));
      var cut := if |text| > COMMENT_LIMIT then text[..COMMENT_LIMIT] else text;
      if cut == "" then None else Some(cut)
  }

  /** The comment is cut right after a blank. */
  predicate CutAfterBlank(value: Option<string>, printable: char -> bool) {
    && value.Some?
    && var text := Strip(Kept(value.value, printable));
       |text| > COMMENT_LIMIT && IsBlank(text[COMMENT_LIMIT - 1])
  }

  /** Cleaning a cleaned comment changes nothing, exactly unless it was cut right after a blank. */
  lemma {:induction false} CleanTwice(value: Option<string>, printable: char -> bool)
    ensures CleanText(CleanText(value, printable), printable) == CleanText(value, printable) <==>
            !CutAfterBlank(value, printable)
  {
    if CleanText(value, printable).Some? {
      var text := Strip(Kept(value.value, printable));
      var once := CleanText(value, printable).value;
      StripKeeps(Kept(value.value, printable));
      forall c | c in once
        ensures printable(c)
      {
        assert c in text;
      }
      assert Kept(once, printable) == once;
      StripTrims(Kept(value.value, printable));
      StripTrims(once);
      StripKeeps(once);
      assert once[0] == text[0];
    }
  }

  /** Cleaned twice, it is stable. */
  lemma {:induction false} CleanThrice(value: Option<string>, printable: char -> bool)
    ensures var twice := CleanText(CleanText(value, printable), printable);
            CleanText(twice, printable) == twice
  {
    var once := CleanText(value, printable);
    ShortIsNotCut(once, printable);
    CleanTwice(once, printable);
  }

  lemma {:induction false} ShortIsNotCut(value: Option<string>, printable: char -> bool)
    requires value.Some? ==> |value.value| <= COMMENT_LIMIT
    ensures !CutAfterBlank(value, printable)
  {
    if value.Some? {
      StripKeeps(Kept(value.value, printable));
      KeptShorter(value.value, printable);
    }
  }

  lemma {:induction false} KeptShorter(s: string, printable: char -> bool)
    ensures |Kept(s, printable)| <= |s|
  {
    if s != [] {
      KeptShorter(s[..|s| - 1], printable);
    }
  }

  // ---- Rules and forwards ----

  datatype Verb = Allow | Deny

  datatype Proto = Tcp | Udp

  /** An IPv4 address, its highest bit first. */
  type Address = a: seq<bool> | |a| == 32 witness seq(32, _ => false)

  /** An IPv4 network: the bits its addresses begin with. */
  datatype Network = Network(prefix: seq<bool>)

  datatype Rule = Rule(verb: Verb, proto: Proto, ports: string, source: Option<Network>, comment: Option<string>)

  /** The source field as the address library understands it. */
  datatype RawSource = Absent | Malformed | Ipv6 | Ipv4(address: Address, length: nat)

  /** A rule as requested; an action or protocol that is not one of the known words is None. */
  datatype RawRule = RawRule(unknownFields: bool, verb: Option<Verb>, proto: Option<Proto>, ports: string, source: RawSource,
                             comment: Option<string>)

  /** The host bits go. */
  function Masked(address: Address, length: nat): Network
    requires length <= 32
  {
    Network(address[..length])
  }

  predicate Contains(net: Network, address: Address) {
    net.prefix <= address
  }

  function SourceOf(source: RawSource): Result<Option<Network>, Error> {
    match source
    case Absent => Ok(None)
    case Malformed => Err(BadSource)
    case Ipv6 => Err(NotIpv4)
    case Ipv4(address, length) => if length > 32 then Err(BadSource) else Ok(Some(Masked(address, length)))
  }

  /** The first field that is wrong decides the error. */
  function Assemble(verb: Option<Verb>, proto: Option<Proto>, ports: Result<Ports, Error>, source: Result<Option<Network>, Error>,
                    comment: Option<string>): Result<Rule, Error>
    requires ports.Ok? ==> ValidPorts(ports.value)
  {
    if verb.None? then Err(BadAction)
    else if proto.None? then Err(BadProto)
    else if ports.Err? then Err(ports.error)
    else if source.Err? then Err(source.error)
    else Ok(Rule(verb.value, proto.value, Render(ports.value, '-'), source.value, comment))
  }

  function ValidateRule(raw: RawRule, printable: char -> bool): Result<Rule, Error> {
    if raw.unknownFields then Err(UnknownField)
    else Assemble(raw.verb, raw.proto, ParsePorts(raw.ports), SourceOf(raw.source),
                  CleanText(raw.comment, printable))
  }

  datatype Forward = Forward(proto: Proto, listen: int, dest: Address, destPort: int, comment: Option<string>)

  /** A forward as requested; a port that is not an integer is None, and so is a destination that is not a usable IPv4
      address. */
  datatype RawForward = RawForward(unknownFields: bool, proto: Option<Proto>, listen: Option<int>, dest: Option<Address>,
                                   destPort: Option<int>, comment: Option<string>)

  function ValidateForward(raw: RawForward, printable: char -> bool): Result<Forward, Error> {
    if raw.unknownFields then Err(UnknownField)
    else if raw.proto.None? then Err(BadProto)
    else if raw.listen.None? || !(1 <= raw.listen.value <= MAX_PORT) then Err(BadListen)
    else if raw.listen.value in RESERVED_LISTEN then Err(ReservedListen)
    else if raw.destPort.None? || !(1 <= raw.destPort.value <= MAX_PORT) then Err(BadDestPort)
    else if raw.dest.None? then Err(BadDestination)
    else Ok(Forward(raw.proto.value, raw.listen.value, raw.dest.value, raw.destPort.value, CleanText(raw.comment, printable)))
  }

  datatype Config = Config(enabled: bool, rules: seq<Rule>, forwards: seq<Forward>)

  function ValidateRules(raws: seq<RawRule>, printable: char -> bool): Result<seq<Rule>, Error> {
    if |raws| == 0 then Ok([]) else
      var n := |raws| - 1;
      var before := ValidateRules(raws[..n], printable);
      if before.Err? then before
      else
        var last := ValidateRule(raws[n], printable);
        if last.Err? then Err(last.error) else Ok(before.value + [last.value])
  }

  function ValidateForwards(raws: seq<RawForward>, printable: char -> bool): Result<seq<Forward>, Error> {
    if |raws| == 0 then Ok([]) else
      var n := |raws| - 1;
      var before := ValidateForwards(raws[..n], printable);
      if before.Err? then before
      else
        var last := ValidateForward(raws[n], printable);
        if last.Err? then Err(last.error) else Ok(before.value + [last.value])
  }

  /** No two forwards listen on the same port of the same protocol. */
  predicate DistinctListens(forwards: seq<Forward>) {
    forall i, j | 0 <= i < j < |forwards| :: forwards[i].proto != forwards[j].proto || forwards[i].listen != forwards[j].listen
  }

  /** The scan with a set of the pairs seen so far. */
  method CheckListens(forwards: seq<Forward>) returns (ok: bool)
    ensures ok <==> DistinctListens(forwards)
  {
    var seen: set<(Proto, int)> := {};
    for i := 0 to |forwards|
      invariant DistinctListens(forwards[..i])
      invariant forall k :: k in seen <==> exists j | 0 <= j < i :: k == (forwards[j].proto, forwards[j].listen)
    {
      var key := (forwards[i].proto, forwards[i].listen);
      if key in seen {
        return false;
      }
      seen := seen + {key};
    }
    assert forwards[..|forwards|] == forwards;
    return true;
  }

  datatype RawConfig = RawConfig(enabled: bool, rules: seq<RawRule>, forwards: seq<RawForward>)

  function AssembleConfig(raw: RawConfig, rules: Result<seq<Rule>, Error>, forwards: Result<seq<Forward>, Error>):
    Result<Config, Error>
  {
    if |raw.rules| > MAX_RULES then Err(TooManyRules)
    else if |raw.forwards| > MAX_FORWARDS then Err(TooManyForwards)
    else if rules.Err? then Err(rules.error)
    else if forwards.Err? then Err(forwards.error)
    else if !DistinctListens(forwards.value) then Err(DuplicateListen)
    else Ok(Config(raw.enabled, rules.value, forwards.value))
  }

  function ValidateConfig(raw: RawConfig, printable: char -> bool): Result<Config, Error> {
    AssembleConfig(raw, ValidateRules(raw.rules, printable), ValidateForwards(raw.forwards, printable))
  }

  // ---- Validating twice ----

  /** Written down, the host bits are zero. */
  function SourceText(source: Option<Network>): RawSource {
    if source.None? || |source.value.prefix| > 32 then Absent
    else Ipv4(source.value.prefix + seq(32 - |source.value.prefix|, _ => false), |source.value.prefix|)
  }

  lemma {:induction false} SourceTwice(source: RawSource)
    requires SourceOf(source).Ok?
    ensures SourceOf(SourceText(SourceOf(source).value)) == SourceOf(source)
  {
    if source.Ipv4? {
      var net := Masked(source.address, source.length);
      var text := SourceText(Some(net));
      assert text.address[..text.length] == net.prefix;
    }
  }

  /** A validated rule, read back as a request. */
  function AsRaw(rule: Rule): RawRule {
    RawRule(false, Some(rule.verb), Some(rule.proto), rule.ports, SourceText(rule.source), rule.comment)
  }

  lemma {:induction false} ValidatedFields(raw: RawRule, rule: Rule, printable: char -> bool)
    requires ValidateRule(raw, printable) == Ok(rule)
    ensures ParsePorts(raw.ports).Ok? && rule.ports == Render(ParsePorts(raw.ports).value, '-')
    ensures SourceOf(raw.source) == Ok(rule.source) && rule.comment == CleanText(raw.comment, printable)
  {
  }

  lemma {:induction false} RenderedPorts(value: string, ports: string)
    requires ParsePorts(value).Ok? && ports == Render(ParsePorts(value).value, '-')
    ensures ParsePorts(ports).Ok? && ports == Render(ParsePorts(ports).value, '-')
  {
    PortsRoundTrip(value);
  }

  /** Validation is stable on everything but comments cut right after a blank. */
  lemma {:induction false} RuleTwice(raw: RawRule, rule: Rule, printable: char -> bool)
    requires ValidateRule(raw, printable) == Ok(rule)
    ensures ValidateRule(AsRaw(rule), printable).Ok?
    ensures ValidateRule(AsRaw(rule), printable) == Ok(rule) <==> !CutAfterBlank(raw.comment, printable)
  {
    ValidatedFields(raw, rule, printable);
    RenderedPorts(raw.ports, rule.ports);
    SourceTwice(raw.source);
    FieldsTwice(AsRaw(rule), rule, printable);
    CleanTwice(raw.comment, printable);
  }

  lemma {:induction false} FieldsTwice(again: RawRule, rule: Rule, printable: char -> bool)
    requires !again.unknownFields && again.comment == rule.comment
    requires again.verb == Some(rule.verb) && again.proto == Some(rule.proto)
    requires SourceOf(again.source) == Ok(rule.source)
    requires ParsePorts(again.ports).Ok? && rule.ports == Render(ParsePorts(again.ports).value, '-')
    ensures ValidateRule(again, printable) == Ok(rule.(comment := CleanText(rule.comment, printable)))
  {
  }

  function AsRawForward(forward: Forward): RawForward {
    RawForward(false, Some(forward.proto), Some(forward.listen), Some(forward.dest), Some(forward.destPort), forward.comment)
  }

  lemma {:induction false} ForwardTwice(raw: RawForward, forward: Forward, printable: char -> bool)
    requires ValidateForward(raw, printable) == Ok(forward)
    ensures ValidateForward(AsRawForward(forward), printable).Ok?
    ensures ValidateForward(AsRawForward(forward), printable) == Ok(forward) <==> !CutAfterBlank(raw.comment, printable)
  {
    CleanTwice(raw.comment, printable);
  }

  function AsRaws(rules: seq<Rule>): (raws: seq<RawRule>)
    ensures |raws| == |rules|
  {
    if |rules| == 0 then [] else AsRaws(rules[..|rules| - 1]) + [AsRaw(rules[|rules| - 1])]
  }

  function AsRawForwards(forwards: seq<Forward>): (raws: seq<RawForward>)
    ensures |raws| == |forwards|
  {
    if |forwards| == 0 then [] else AsRawForwards(forwards[..|forwards| - 1]) + [AsRawForward(forwards[|forwards| - 1])]
  }

  predicate CleanRules(raws: seq<RawRule>, printable: char -> bool) {
    forall raw | raw in raws :: !CutAfterBlank(raw.comment, printable)
  }

  predicate CleanForwards(raws: seq<RawForward>, printable: char -> bool) {
    forall raw | raw in raws :: !CutAfterBlank(raw.comment, printable)
  }

  /** Validated again, the rules are accepted, and unchanged if no comment was cut right after a blank. */
  ghost predicate TwiceRight(raws: seq<RawRule>, rules: seq<Rule>, printable: char -> bool) {
    var again := ValidateRules(AsRaws(rules), printable);
    again.Ok? && |again.value| == |rules| && (again.value == rules <==> CleanRules(raws, printable))
  }

  lemma {:induction false} RulesTwice(raws: seq<RawRule>, rules: seq<Rule>, printable: char -> bool)
    requires ValidateRules(raws, printable) == Ok(rules)
    ensures TwiceRight(raws, rules, printable)
  {
    RulesSplit(raws, rules, printable);
    if |raws| > 0 {
      var n := |raws| - 1;
      RulesTwice(raws[..n], rules[..n], printable);
      RuleTwice(raws[n], rules[n], printable);
      TwiceSnoc(raws[..n], raws[n], rules[..n], rules[n], printable);
      AllButLast(raws);
      AllButLast(rules);
    }
  }

  lemma {:induction false} TwiceSnoc(raws: seq<RawRule>, raw: RawRule, rules: seq<Rule>, rule: Rule, printable: char -> bool)
    requires TwiceRight(raws, rules, printable) && ValidateRule(AsRaw(rule), printable).Ok?
    requires ValidateRule(AsRaw(rule), printable) == Ok(rule) <==> !CutAfterBlank(raw.comment, printable)
    ensures TwiceRight(raws + [raw], rules + [rule], printable)
  {
    OneMoreRule(rules, rule, ValidateRules(AsRaws(rules), printable).value, printable);
    CleanSnoc(raws, raw, printable);
  }

  lemma {:induction false} CleanSnoc(raws: seq<RawRule>, raw: RawRule, printable: char -> bool)
    ensures CleanRules(raws + [raw], printable) <==> CleanRules(raws, printable) && !CutAfterBlank(raw.comment, printable)
  {
    assert raw in raws + [raw] && forall r | r in raws :: r in raws + [raw];
  }

  lemma {:induction false} RulesSplit(raws: seq<RawRule>, rules: seq<Rule>, printable: char -> bool)
    requires ValidateRules(raws, printable) == Ok(rules)
    ensures |rules| == |raws|
    ensures |raws| > 0 ==>
              var n := |raws| - 1;
              ValidateRules(raws[..n], printable) == Ok(rules[..n]) && ValidateRule(raws[n], printable) == Ok(rules[n])
  {
    if |raws| > 0 {
      var before := ValidateRules(raws[..|raws| - 1], printable).value;
      RulesSplit(raws[..|raws| - 1], before, printable);
      assert rules[..|rules| - 1] == before;
    }
  }

  lemma {:induction false} OneMoreRule(rules: seq<Rule>, rule: Rule, again: seq<Rule>, printable: char -> bool)
    requires ValidateRules(AsRaws(rules), printable) == Ok(again) && |again| == |rules|
    requires ValidateRule(AsRaw(rule), printable).Ok?
    ensures var all := ValidateRules(AsRaws(rules + [rule]), printable);
            && all == Ok(again + [ValidateRule(AsRaw(rule), printable).value])
            && (all.value == rules + [rule] <==> again == rules && ValidateRule(AsRaw(rule), printable) == Ok(rule))
  {
    assert (rules + [rule])[..|rules|] == rules;
    var raws := AsRaws(rules + [rule]);
    assert raws == AsRaws(rules) + [AsRaw(rule)] && raws[..|rules|] == AsRaws(rules);
    var last := ValidateRule(AsRaw(rule), printable).value;
    if again + [last] == rules + [rule] {
      assert (again + [last])[..|rules|] == again && (again + [last])[|rules|] == last;
    }
  }

  ghost predicate ForwardsRight(raws: seq<RawForward>, forwards: seq<Forward>, printable: char -> bool) {
    var again := ValidateForwards(AsRawForwards(forwards), printable);
    again.Ok? && |again.value| == |forwards| && (again.value == forwards <==> CleanForwards(raws, printable))
  }

  lemma {:induction false} ForwardsTwice(raws: seq<RawForward>, forwards: seq<Forward>, printable: char -> bool)
    requires ValidateForwards(raws, printable) == Ok(forwards)
    ensures ForwardsRight(raws, forwards, printable)
  {
    ForwardsSplit(raws, forwards, printable);
    if |raws| > 0 {
      var n := |raws| - 1;
      ForwardsTwice(raws[..n], forwards[..n], printable);
      ForwardTwice(raws[n], forwards[n], printable);
      ForwardsRightSnoc(raws[..n], raws[n], forwards[..n], forwards[n], printable);
      AllButLast(raws);
      AllButLast(forwards);
    }
  }

  lemma {:induction false} ForwardsRightSnoc(raws: seq<RawForward>, raw: RawForward, forwards: seq<Forward>, forward: Forward, printable: char -> bool)
    requires ForwardsRight(raws, forwards, printable) && ValidateForward(AsRawForward(forward), printable).Ok?
    requires ValidateForward(AsRawForward(forward), printable) == Ok(forward) <==> !CutAfterBlank(raw.comment, printable)
    ensures ForwardsRight(raws + [raw], forwards + [forward], printable)
  {
    OneMoreForward(forwards, forward, ValidateForwards(AsRawForwards(forwards), printable).value, printable);
    assert raw in raws + [raw] && forall r | r in raws :: r in raws + [raw];
  }

  lemma {:induction false} ForwardsSplit(raws: seq<RawForward>, forwards: seq<Forward>, printable: char -> bool)
    requires ValidateForwards(raws, printable) == Ok(forwards)
    ensures |forwards| == |raws|
    ensures |raws| > 0 ==>
              var n := |raws| - 1;
              && ValidateForwards(raws[..n], printable) == Ok(forwards[..n])
              && ValidateForward(raws[n], printable) == Ok(forwards[n])
  {
    if |raws| > 0 {
      var before := ValidateForwards(raws[..|raws| - 1], printable).value;
      ForwardsSplit(raws[..|raws| - 1], before, printable);
      assert forwards[..|forwards| - 1] == before;
    }
  }

  lemma {:induction false} OneMoreForward(forwards: seq<Forward>, forward: Forward, again: seq<Forward>, printable: char -> bool)
    requires ValidateForwards(AsRawForwards(forwards), printable) == Ok(again) && |again| == |forwards|
    requires ValidateForward(AsRawForward(forward), printable).Ok?
    ensures var all := ValidateForwards(AsRawForwards(forwards + [forward]), printable);
            && all == Ok(again + [ValidateForward(AsRawForward(forward), printable).value])
            && (all.value == forwards + [forward] <==>
                again == forwards && ValidateForward(AsRawForward(forward), printable) == Ok(forward))
  {
    assert (forwards + [forward])[..|forwards|] == forwards;
    var raws := AsRawForwards(forwards + [forward]);
    assert raws == AsRawForwards(forwards) + [AsRawForward(forward)] && raws[..|forwards|] == AsRawForwards(forwards);
    var last := ValidateForward(AsRawForward(forward), printable).value;
    if again + [last] == forwards + [forward] {
      assert (again + [last])[..|forwards|] == again && (again + [last])[|forwards|] == last;
    }
  }

  /** A stored configuration that is validated again comes back unchanged exactly when no comment of the request was cut
      right after a blank. */
  lemma {:induction false} ConfigTwice(raw: RawConfig, config: Config, printable: char -> bool)
    requires ValidateConfig(raw, printable) == Ok(config)
    ensures var again := RawConfig(config.enabled, AsRaws(config.rules), AsRawForwards(config.forwards));
            ValidateConfig(again, printable) == Ok(config) <==>
            CleanRules(raw.rules, printable) && CleanForwards(raw.forwards, printable)
  {
    RulesTwice(raw.rules, config.rules, printable);
    ForwardsTwice(raw.forwards, config.forwards, printable);
    RulesSplit(raw.rules, config.rules, printable);
    ForwardsSplit(raw.forwards, config.forwards, printable);
    AssembledTwice(RawConfig(config.enabled, AsRaws(config.rules), AsRawForwards(config.forwards)), config,
                   ValidateRules(AsRaws(config.rules), printable), ValidateForwards(AsRawForwards(config.forwards), printable));
  }

  lemma {:induction false} AssembledTwice(again: RawConfig, config: Config, rules: Result<seq<Rule>, Error>, forwards: Result<seq<Forward>, Error>)
    requires again.enabled == config.enabled && |again.rules| <= MAX_RULES && |again.forwards| <= MAX_FORWARDS
    requires rules.Ok? && forwards.Ok? && DistinctListens(config.forwards)
    ensures AssembleConfig(again, rules, forwards) == Ok(config) <==>
            rules.value == config.rules && forwards.value == config.forwards
  {
  }
}
