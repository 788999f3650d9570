/** Alarm rules: the index by signal, the scope of a rule, and the evaluation of a rule on a reading. */
module AlarmRules {
  import opened Prelude
  import opened Text

  const LONGEST_WINDOW := 86400

  datatype Comparator = Gt | Gte | Lt | Lte | Eq | Ne | Between | Outside | BooleanTrue | BooleanFalse | Unknown

  datatype AggFn = Avg | Min | Max | Sum | CountAbove | CountBelow

  datatype FormulaVar = FormulaVar(name: string, signal: string, device: string)

  datatype BinOp = Add | Sub | Mult | Div | FloorDiv | Mod

  /** A formula, as far as the white list admits it; `Other` is everything else. */
  datatype Formula =
    | Num(value: real)
    | Name(name: string)
    | Bin(op: BinOp, left: Formula, right: Formula)
    | Unary(minus: bool, operand: Formula)
    | Call(fn: string, args: seq<Formula>)
    | Other

  /** An aggregate's window is clamped when the rule is parsed. */
  type Window = w: int | 1 <= w <= LONGEST_WINDOW witness 60

  datatype Kind =
    | Compare
    | Agg(fn: AggFn, window: Window, arg: real)
    | Computed(formula: Formula, vars: seq<FormulaVar>)

  datatype Term = Term(signal: string, device: string, comparator: Comparator,
                       threshold: real, high: Option<real>, kind: Kind)

  datatype Expression = Expression(conjunctive: bool, terms: seq<Term>)

  datatype RuleKind = Simple | Composite | CommLoss

  datatype Rule = Rule(id: int, signal: string, comparator: Comparator, threshold: real, high: Option<real>,
                       hysteresis: real, debounce: nat, devices: string, models: string,
                       active: bool, kind: RuleKind, expression: Option<Expression>)

  // ---- The signals of a rule ----

  function VarSignals(vars: seq<FormulaVar>): set<string> {
    set v | v in vars :: v.signal
  }

  function TermSignals(t: Term): set<string> {
    {t.signal} + if t.kind.Computed? then VarSignals(t.kind.vars) else {}
  }

  function Signals(e: Expression): set<string> {
    set t, s | t in e.terms && s in TermSignals(t) :: s
  }

  /** The signals whose readings trigger the rule, besides its anchor. */
  function CompositeSignals(rule: Rule): set<string> {
    if rule.expression.Some? then Signals(rule.expression.value) else {}
  }

  predicate Mentions(rule: Rule, signal: string) {
    signal == rule.signal || signal in CompositeSignals(rule)
  }

  // ---- The index ----

  /** A rule of the backend enters the index when it is active, is not the communication rule, and all its signals are
      in the catalog; a composite rule needs a valid expression. */
  predicate Kept(rule: Rule, catalog: set<string>) {
    && rule.active && !rule.kind.CommLoss? && rule.signal in catalog
    && (rule.kind.Composite? ==> rule.expression.Some? && CompositeSignals(rule) <= catalog)
  }

  /** Only a composite rule has an expression. */
  function Normal(rule: Rule): Rule {
    if rule.kind.Composite? then rule else rule.(expression := None)
  }

  function KeptRules(rules: seq<Rule>, catalog: set<string>): seq<Rule> {
    if |rules| == 0 then [] else
      var rule := rules[|rules| - 1];
      KeptRules(rules[..|rules| - 1], catalog) + if Kept(rule, catalog) then [Normal(rule)] else []
  }

  function Mentioning(rules: seq<Rule>, signal: string): seq<Rule> {
    if |rules| == 0 then [] else
      var rule := rules[|rules| - 1];
      Mentioning(rules[..|rules| - 1], signal) + if Mentions(rule, signal) then [rule] else []
  }

  type Index = map<string, seq<Rule>>

  function Entry(index: Index, signal: string): seq<Rule> {
    if signal in index then index[signal] else []
  }

  ghost predicate Indexes(index: Index, rules: seq<Rule>) {
    forall signal :: Entry(index, signal) == Mentioning(rules, signal)
  }

  function Append(index: Index, signal: string, rule: Rule): Index {
    index[signal := Entry(index, signal) + [rule]]
  }

  lemma {:induction false} MentioningSnoc(rules: seq<Rule>, rule: Rule, signal: string)
    ensures Mentioning(rules + [rule], signal) ==
            if Mentions(rule, signal) then Mentioning(rules, signal) + [rule] else Mentioning(rules, signal)
  {
    assert (rules + [rule])[..|rules|] == rules;
  }

  /** One rule goes under its anchor and then under each of its other signals. */
  method AddRule(index: Index, rule: Rule) returns (added: Index)
    ensures forall signal ::
              Entry(added, signal) == Entry(index, signal) + if Mentions(rule, signal) then [rule] else []
  {
    added := Append(index, rule.signal, rule);
    var keys := CompositeSignals(rule);
    added := AddUnder(added, rule, keys);
  }

  method AddUnder(index: Index, rule: Rule, keys: set<string>) returns (added: Index)
    ensures forall signal ::
              Entry(added, signal) == Entry(index, signal) + if signal in keys && signal != rule.signal then [rule] else []
  {
    added := index;
    var rest := keys;
    while rest != {}
      invariant rest <= keys
      invariant forall signal :: Entry(added, signal) ==
                  Entry(index, signal) + if signal in keys - rest && signal != rule.signal then [rule] else []
      decreases |rest|
    {
      var signal :| signal in rest;
      rest := rest - {signal};
      if signal != rule.signal {
        added := Append(added, signal, rule);
      }
    }
  }

  method IndexRule(index: Index, rule: Rule, ghost rules: seq<Rule>) returns (added: Index)
    requires Indexes(index, rules)
    ensures Indexes(added, rules + [rule])
  {
    added := AddRule(index, rule);
    forall signal
      ensures Entry(added, signal) == Mentioning(rules + [rule], signal)
    {
      MentioningSnoc(rules, rule, signal);
    }
  }

  /** One rule of the backend; the communication rule and the dropped ones stay out of the index. */
  method IndexItem(index: Index, rule: Rule, catalog: set<string>, ghost before: seq<Rule>) returns (added: Index)
    requires Indexes(index, KeptRules(before, catalog))
    ensures Indexes(added, KeptRules(before + [rule], catalog))
  {
    KeptSnoc(before, rule, catalog);
    added := index;
    if Kept(rule, catalog) {
      added := IndexRule(index, Normal(rule), KeptRules(before, catalog));
    }
  }

  method BuildIndex(rules: seq<Rule>, catalog: set<string>) returns (index: Index, comm: Option<Rule>)
    ensures Indexes(index, KeptRules(rules, catalog))
    ensures comm == FirstComm(rules)
  {
    index, comm := map[], None;
    for i := 0 to |rules|
      invariant Indexes(index, KeptRules(rules[..i], catalog))
      invariant comm == FirstComm(rules[..i])
    {
      assert rules[..i + 1] == rules[..i] + [rules[i]];
      FirstCommSnoc(rules[..i], rules[i]);
      if comm.None? && rules[i].kind.CommLoss? {
        comm := Some(rules[i]);
      }
      index := IndexItem(index, rules[i], catalog, rules[..i]);
    }
    assert rules[..|rules|] == rules;
  }

  /** The signals some kept rule aggregates, and the longest window any of them needs. */
  ghost predicate NeedsSamples(rules: seq<Rule>, signal: string) {
    exists rule, t :: rule in rules && AggTerm(rule, t) && t.signal == signal
  }

  predicate AggTerm(rule: Rule, t: Term) {
    rule.expression.Some? && t in rule.expression.value.terms && t.kind.Agg?
  }

  ghost predicate LongestWindow(rules: seq<Rule>, window: int) {
    && (forall rule, t | rule in rules && AggTerm(rule, t) :: t.kind.window <= window)
    && (window == 0 || exists rule, t :: rule in rules && AggTerm(rule, t) && t.kind.window == window)
  }

  class AlarmRuleCache {
    var bySignal: Index
    var catalog: set<string>
    var aggKeys: set<string>
    var maxWindow: int
    var commRule: Option<Rule>
    var ready: bool

    /** The fields reflect the backend's rules. */
    ghost predicate Reflects(rules: seq<Rule>, signals: set<string>)
      reads this
    {
      && ready && catalog == signals
      && Indexes(bySignal, KeptRules(rules, signals))
      && (forall s :: s in aggKeys <==> NeedsSamples(KeptRules(rules, signals), s))
      && LongestWindow(KeptRules(rules, signals), maxWindow)
    }

    method Refresh(rules: seq<Rule>, signals: set<string>)
      modifies this
      ensures Reflects(rules, signals)
      ensures commRule == FirstComm(rules)
    {
      var index, comm := BuildIndex(rules, signals);
      var keys, window := AggregateNeeds(index, KeptRules(rules, signals));
      bySignal, catalog, aggKeys, maxWindow, commRule, ready := index, signals, keys, window, comm, true;
    }

    /** The rules that apply to a reading. */
    function RulesFor(signal: string, device: string, model: string): seq<Rule>
      reads this
    {
      Covering(Entry(bySignal, signal), device, model)
    }
  }

  /** The standing communication rule: the first one wins, active or not. */
  function FirstComm(rules: seq<Rule>): Option<Rule> {
    if |rules| == 0 then None
    else if rules[0].kind.CommLoss? then Some(rules[0])
    else FirstComm(rules[1..])
  }

  lemma {:induction false} FirstCommSnoc(rules: seq<Rule>, rule: Rule)
    ensures FirstComm(rules + [rule]) ==
            if FirstComm(rules).Some? then FirstComm(rules) else if rule.kind.CommLoss? then Some(rule) else None
  {
    if rules == [] {
      assert [rule][1..] == [];
    } else {
      assert (rules + [rule])[1..] == rules[1..] + [rule];
      FirstCommSnoc(rules[1..], rule);
    }
  }

  lemma {:induction false} KeptSnoc(rules: seq<Rule>, rule: Rule, catalog: set<string>)
    ensures KeptRules(rules + [rule], catalog) ==
            if Kept(rule, catalog) then KeptRules(rules, catalog) + [Normal(rule)] else KeptRules(rules, catalog)
  {
    assert (rules + [rule])[..|rules|] == rules;
  }

  // ---- What the aggregates need ----

  /** Walks the index, list by list. */
  method AggregateNeeds(index: Index, ghost rules: seq<Rule>) returns (keys: set<string>, window: int)
    requires Indexes(index, rules)
    ensures forall s :: s in keys <==> NeedsSamples(rules, s)
    ensures LongestWindow(rules, window)
  {
    keys, window := {}, 0;
    var rest := index.Keys;
    ghost var seen: seq<Rule> := [];
    while rest != {}
      invariant rest <= index.Keys
      invariant forall s :: s in keys <==> NeedsSamples(seen, s)
      invariant LongestWindow(seen, window)
      invariant forall rule :: rule in seen <==> exists s :: s in index.Keys - rest && rule in index[s]
      decreases |rest|
    {
      var signal :| signal in rest;
      rest := rest - {signal};
      keys, window := ListNeeds(index[signal], keys, window, seen);
      seen := seen + index[signal];
    }
    IndexHoldsAll(index, rules, seen);
    SameNeeds(seen, rules, window);
  }

  method ListNeeds(list: seq<Rule>, keys0: set<string>, window0: int, ghost seen: seq<Rule>)
    returns (keys: set<string>, window: int)
    requires forall s :: s in keys0 <==> NeedsSamples(seen, s)
    requires LongestWindow(seen, window0)
    ensures forall s :: s in keys <==> NeedsSamples(seen + list, s)
    ensures LongestWindow(seen + list, window)
  {
    keys, window := keys0, window0;
    assert seen + list[..0] == seen;
    for i := 0 to |list|
      invariant forall s :: s in keys <==> NeedsSamples(seen + list[..i], s)
      invariant LongestWindow(seen + list[..i], window)
    {
      assert seen + list[..i + 1] == (seen + list[..i]) + [list[i]];
      keys, window := RuleNeeds(list[i], keys, window, seen + list[..i]);
    }
    assert list[..|list|] == list;
  }

  method RuleNeeds(rule: Rule, keys0: set<string>, window0: int, ghost seen: seq<Rule>)
    returns (keys: set<string>, window: int)
    requires forall s :: s in keys0 <==> NeedsSamples(seen, s)
    requires LongestWindow(seen, window0)
    ensures forall s :: s in keys <==> NeedsSamples(seen + [rule], s)
    ensures LongestWindow(seen + [rule], window)
  {
    keys, window := keys0, window0;
    if rule.expression.None? {
      forall r, t | r in seen + [rule] && AggTerm(r, t)
        ensures r in seen
      {
      }
      SameNeeds(seen, seen + [rule], window);
      return;
    }
    var terms := rule.expression.value.terms;
    for i := 0 to |terms|
      invariant forall s :: s in keys <==> s in keys0 || exists t :: t in terms[..i] && t.kind.Agg? && t.signal == s
      invariant window >= window0 && forall t | t in terms[..i] && t.kind.Agg? :: t.kind.window <= window
      invariant window == window0 || exists t :: t in terms[..i] && t.kind.Agg? && t.kind.window == window
    {
      var term := terms[i];
      assert terms[..i + 1] == terms[..i] + [term];
      if term.kind.Agg? {
        keys := keys + {term.signal};
        if term.kind.window > window {
          window := term.kind.window;
        }
      }
    }
    assert terms[..|terms|] == terms;
    OneMoreRule(seen, rule, keys0, keys, window0, window);
  }

  lemma {:induction false} OneMoreRule(seen: seq<Rule>, rule: Rule, keys0: set<string>, keys: set<string>, window0: int, window: int)
    requires rule.expression.Some?
    requires forall s :: s in keys0 <==> NeedsSamples(seen, s)
    requires LongestWindow(seen, window0)
    requires forall s :: s in keys <==> s in keys0 || exists t :: AggTerm(rule, t) && t.signal == s
    requires window >= window0 && forall t | AggTerm(rule, t) :: t.kind.window <= window
    requires window == window0 || exists t :: AggTerm(rule, t) && t.kind.window == window
    ensures forall s :: s in keys <==> NeedsSamples(seen + [rule], s)
    ensures LongestWindow(seen + [rule], window)
  {
    var all := seen + [rule];
    assert rule in all;
    assert forall r :: r in all <==> r in seen || r == rule;
    forall s
      ensures s in keys <==> NeedsSamples(all, s)
    {
      if s in keys0 {
        var r, t :| r in seen && AggTerm(r, t) && t.signal == s;
        assert r in all;
      }
    }
    if window == window0 && window != 0 {
      var r, t :| r in seen && AggTerm(r, t) && t.kind.window == window;
      assert r in all;
    }
  }

  /** Needs depend on which rules have aggregates, not on their order or number. */
  lemma {:induction false} SameNeeds(a: seq<Rule>, b: seq<Rule>, window: int)
    requires forall rule, t | AggTerm(rule, t) :: rule in a <==> rule in b
    ensures forall s :: NeedsSamples(a, s) <==> NeedsSamples(b, s)
    ensures LongestWindow(a, window) <==> LongestWindow(b, window)
  {
  }

  lemma {:induction false} MentioningContains(rules: seq<Rule>, signal: string, rule: Rule)
    ensures rule in Mentioning(rules, signal) <==> rule in rules && Mentions(rule, signal)
  {
    if rules != [] {
      var n := |rules| - 1;
      assert rules == rules[..n] + [rules[n]];
      MentioningSnoc(rules[..n], rules[n], signal);
      MentioningContains(rules[..n], signal, rule);
    }
  }

  /** Every rule of the list is in the index, under its anchor, and nothing else is. */
  lemma {:induction false} IndexHoldsAll(index: Index, rules: seq<Rule>, seen: seq<Rule>)
    requires Indexes(index, rules)
    requires forall rule :: rule in seen <==> exists s :: s in index && rule in index[s]
    ensures forall rule :: rule in seen <==> rule in rules
  {
    forall rule
      ensures rule in seen <==> rule in rules
    {
      if rule in rules {
        MentioningContains(rules, rule.signal, rule);
        assert rule in Entry(index, rule.signal);
      }
      if rule in seen {
        var s :| s in index && rule in index[s];
        assert Entry(index, s) == Mentioning(rules, s);
        MentioningContains(rules, s, rule);
      }
    }
  }

  // ---- The scope of a rule ----

  /** The non-blank items of a comma-separated filter. */
  function Items(filter: string): set<string> {
    set item | item in Split(filter, ',') && Strip(item) != "" :: Strip(item)
  }

  /** An empty string stands for an absent filter, device or model. */
  predicate Covers(rule: Rule, device: string, model: string) {
    var models := Items(rule.models);
    if models != {} && !(model != "" && model in models) then false
    else if device == "" then rule.devices == ""
    else Items(rule.devices) == {} || device in Items(rule.devices)
  }

  function Covering(rules: seq<Rule>, device: string, model: string): seq<Rule> {
    if |rules| == 0 then [] else
      var rule := rules[|rules| - 1];
      Covering(rules[..|rules| - 1], device, model) + if Covers(rule, device, model) then [rule] else []
  }

  /** The rules that should see a reading: a scan of the whole list, in backend order. */
  function Scan(rules: seq<Rule>, catalog: set<string>, signal: string, device: string, model: string): seq<Rule> {
    if |rules| == 0 then [] else
      var rule := rules[|rules| - 1];
      Scan(rules[..|rules| - 1], catalog, signal, device, model)
      + if Kept(rule, catalog) && Mentions(Normal(rule), signal) && Covers(rule, device, model) then [Normal(rule)] else []
  }

  /** The index answers exactly what the scan answers: same rules, same order, none twice. */
  lemma {:induction false} IndexIsScan(cache: AlarmRuleCache, rules: seq<Rule>, signals: set<string>, signal: string, device: string, model: string)
    requires cache.Reflects(rules, signals)
    ensures cache.RulesFor(signal, device, model) == Scan(rules, signals, signal, device, model)
  {
    TwoFilters(rules, signals, signal, device, model);
  }

  lemma {:induction false} TwoFilters(rules: seq<Rule>, catalog: set<string>, signal: string, device: string, model: string)
    ensures Covering(Mentioning(KeptRules(rules, catalog), signal), device, model)
            == Scan(rules, catalog, signal, device, model)
  {
    if rules != [] {
      var n := |rules| - 1;
      TwoFilters(rules[..n], catalog, signal, device, model);
      assert rules == rules[..n] + [rules[n]];
      KeptSnoc(rules[..n], rules[n], catalog);
      if Kept(rules[n], catalog) {
        OneMoreMention(KeptRules(rules[..n], catalog), Normal(rules[n]), signal, device, model);
      }
    }
  }

  lemma {:induction false} OneMoreMention(rules: seq<Rule>, rule: Rule, signal: string, device: string, model: string)
    ensures Covering(Mentioning(rules + [rule], signal), device, model) ==
            Covering(Mentioning(rules, signal), device, model) +
            if Mentions(rule, signal) && Covers(rule, device, model) then [rule] else []
  {
    MentioningSnoc(rules, rule, signal);
    CoveringSnoc(Mentioning(rules, signal), rule, device, model);
  }

  lemma {:induction false} CoveringSnoc(rules: seq<Rule>, rule: Rule, device: string, model: string)
    ensures Covering(rules + [rule], device, model) ==
            if Covers(rule, device, model) then Covering(rules, device, model) + [rule] else Covering(rules, device, model)
  {
    assert (rules + [rule])[..|rules|] == rules;
  }

  /** Every signal an aggregate of a kept rule can look up is one whose samples are stored, over a window no longer than
      the one the store is told to keep. */
  lemma {:induction false} AggregatesAreStored(cache: AlarmRuleCache, rules: seq<Rule>, signals: set<string>, rule: Rule, t: Term)
    requires cache.Reflects(rules, signals)
    requires rule in KeptRules(rules, signals) && AggTerm(rule, t)
    ensures t.signal in cache.aggKeys && t.kind.window <= cache.maxWindow <= LONGEST_WINDOW
  {
    assert NeedsSamples(KeptRules(rules, signals), t.signal);
  }
}
