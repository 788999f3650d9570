/** What the service makes of a series of readings: which rules see a reading, and when their alarms are active, said of
    the whole loop over the rules. */
module AlarmReadings {
  import opened Prelude
  import opened Text
  import AlarmEngine
  import opened AlarmRules
  import Evaluation = AlarmEvaluation
  import Samples = AlarmSamples
  import opened AlarmService

  // ---- One turn ----

  /** The evaluations of one key. */
  function Of(evaluations: seq<AlarmEngine.Evaluation>, k: Key): seq<AlarmEngine.Evaluation> {
    if |evaluations| == 0 then [] else
      var last := evaluations[|evaluations| - 1];
      Of(evaluations[..|evaluations| - 1], k) + if last.key == k then [last] else []
  }

  lemma {:induction false} OfSnoc(evaluations: seq<AlarmEngine.Evaluation>, e: AlarmEngine.Evaluation, k: Key)
    ensures Of(evaluations + [e], k) == Of(evaluations, k) + if e.key == k then [e] else []
  {
    assert (evaluations + [e])[..|evaluations|] == evaluations;
  }

  lemma {:induction false} TurnShape(s: AlarmEngine.State, key: Key, should: bool, now: real, debounce: real)
    requires s.phase.Idle?
    ensures var e := Turn(s, key, should, now, debounce);
            && e.phase.Idle? && |e.queue| <= |s.queue| + 1
            && e.past.evaluations == s.past.evaluations + [AlarmEngine.Evaluation(key, now, should)]
            && forall k | k != key :: k in e.active <==> k in s.active
    ensures debounce == 0.0 && |s.queue| < AlarmEngine.QUEUE_MAX ==>
              (key in Turn(s, key, should, now, debounce).active <==> should)
  {
  }

  // ---- All rules of a reading ----

  ghost predicate DistinctIds(rules: seq<Rule>) {
    forall i, j | 0 <= i < j < |rules| :: rules[i].id != rules[j].id
  }

  /** What the turns of a reading do to the alarm of one key: nothing without a verdict; otherwise one evaluation, which
      decides at once without debounce. */
  ghost predicate Changes(s: AlarmEngine.State, e: AlarmEngine.State, k: Key, now: real, verdict: Option<bool>, instant: bool) {
    match verdict
    case None => (k in e.active <==> k in s.active) && Of(e.past.evaluations, k) == Of(s.past.evaluations, k)
    case Some(v) =>
      && Of(e.past.evaluations, k) == Of(s.past.evaluations, k) + [AlarmEngine.Evaluation(k, now, v)]
      && (instant ==> (k in e.active <==> v))
  }

  lemma {:induction false} TurnChanges(s: AlarmEngine.State, key: Key, should: bool, now: real, debounce: real, k: Key)
    requires s.phase.Idle? && |s.queue| < AlarmEngine.QUEUE_MAX
    ensures Changes(s, Turn(s, key, should, now, debounce), k, now, if k == key then Some(should) else None, debounce == 0.0)
  {
    TurnShape(s, key, should, now, debounce);
    OfSnoc(s.past.evaluations, AlarmEngine.Evaluation(key, now, should), k);
  }

  /** The turns of all rules change the alarm of a rule in the list by that rule's verdict on the state before, and that of
      no rule in the list not at all. */
  lemma {:induction false} TurnsOn(s: AlarmEngine.State, rules: seq<Rule>, rule: Rule, device: string, value: real, now: real,
                                   live: Evaluation.Live, aggregates: Evaluation.Aggregates)
    requires s.phase.Idle? && |s.queue| + |rules| <= AlarmEngine.QUEUE_MAX && DistinctIds(rules)
    ensures var e := Turns(s, rules, device, value, now, live, aggregates);
            var k := KeyOf(rule, device);
            && e.phase.Idle? && |e.queue| <= |s.queue| + |rules|
            && (rule in rules ==>
                  Changes(s, e, k, now, Verdict(rule, device, value, k in s.active, live, aggregates), rule.debounce == 0))
            && ((forall r | r in rules :: r.id != rule.id) ==> Changes(s, e, k, now, None, true))
  {
    if rules != [] {
      var n := |rules| - 1;
      var before := Turns(s, rules[..n], device, value, now, live, aggregates);
      var last := rules[n];
      TurnsOn(s, rules[..n], rule, device, value, now, live, aggregates);
      AllButLast(rules);
      LastTurn(before, last, rule, device, value, now, live, aggregates);
      assert forall r | r in rules[..n] :: r.id != last.id;
      assert rule in rules ==> rule in rules[..n] || rule == last;
    }
  }

  lemma {:induction false} LastTurn(s: AlarmEngine.State, last: Rule, rule: Rule, device: string, value: real, now: real,
                                    live: Evaluation.Live, aggregates: Evaluation.Aggregates)
    requires s.phase.Idle? && |s.queue| < AlarmEngine.QUEUE_MAX
    ensures var verdict := Verdict(last, device, value, KeyOf(last, device) in s.active, live, aggregates);
            var e := if verdict.None? then s else Turn(s, KeyOf(last, device), verdict.value, now, last.debounce as real);
            && e.phase.Idle? && |e.queue| <= |s.queue| + 1
            && Changes(s, e, KeyOf(rule, device), now, if rule.id == last.id && rule.signal == last.signal then verdict else None,
                       last.debounce == 0)
  {
    var verdict := Verdict(last, device, value, KeyOf(last, device) in s.active, live, aggregates);
    if verdict.Some? {
      TurnShape(s, KeyOf(last, device), verdict.value, now, last.debounce as real);
      TurnChanges(s, KeyOf(last, device), verdict.value, now, last.debounce as real, KeyOf(rule, device));
    }
  }

  // ---- A series of readings ----

  /** The readings of a rule's signal for one device, each with the rules that see it; `states` are the engine's states when
      they come, and after the last. In between other readings and the notifier may do anything to other keys, but roll this
      one back; and the queue has room. */
  datatype Reading = Reading(value: real, now: real, rules: seq<Rule>, live: Evaluation.Live, aggregates: Evaluation.Aggregates)

  /** The alarm of a rule on a device is its own: no other rule and no other device has it. */
  function AlarmOf(rule: Rule, device: string): (k: Key)
    ensures k.rule == Some(rule.id) && k.device == device && k.signal == rule.signal
  {
    KeyOf(rule, device)
  }

  ghost predicate Served(rule: Rule, device: string, readings: seq<Reading>, states: seq<AlarmEngine.State>) {
    && |states| == |readings| + 1 && AlarmOf(rule, device) !in states[0].active
    && forall i | 0 <= i < |readings| :: ServedAt(rule, device, readings[i], states[i], states[i + 1])
  }

  ghost predicate ServedAt(rule: Rule, device: string, r: Reading, s: AlarmEngine.State, s': AlarmEngine.State) {
    && s.phase.Idle? && |s.queue| + |r.rules| <= AlarmEngine.QUEUE_MAX && DistinctIds(r.rules) && rule in r.rules
    && (AlarmOf(rule, device) in s'.active <==>
        AlarmOf(rule, device) in Turns(s, r.rules, device, r.value, r.now, r.live, r.aggregates).active)
  }

  function Values(readings: seq<Reading>): (values: seq<real>)
    ensures |values| == |readings| && forall i | 0 <= i < |values| :: values[i] == readings[i].value
  {
    seq(|readings|, i requires 0 <= i < |readings| => readings[i].value)
  }

  lemma {:induction false} ServedIsFolded(rule: Rule, device: string, readings: seq<Reading>, states: seq<AlarmEngine.State>)
    requires Served(rule, device, readings, states) && !rule.kind.Composite? && rule.debounce == 0
    ensures KeyOf(rule, device) in states[|readings|].active <==> Evaluation.Folded(rule, Values(readings))
    decreases |readings|
  {
    if readings != [] {
      var n := |readings| - 1;
      ServedPrefix(rule, device, readings, states);
      ServedIsFolded(rule, device, readings[..n], states[..n + 1]);
      assert Values(readings)[..n] == Values(readings[..n]);
      ServedStep(rule, device, readings[n], states[n], states[n + 1]);
    }
  }

  lemma {:induction false} ServedPrefix(rule: Rule, device: string, readings: seq<Reading>, states: seq<AlarmEngine.State>)
    requires Served(rule, device, readings, states) && readings != []
    ensures var n := |readings| - 1;
            Served(rule, device, readings[..n], states[..n + 1]) && ServedAt(rule, device, readings[n], states[n], states[n + 1])
  {
    var n := |readings| - 1;
    forall i | 0 <= i < n
      ensures ServedAt(rule, device, readings[..n][i], states[..n + 1][i], states[..n + 1][i + 1])
    {
      assert ServedAt(rule, device, readings[i], states[i], states[i + 1]);
    }
    assert ServedAt(rule, device, readings[n], states[n], states[n + 1]);
  }

  lemma {:induction false} ServedStep(rule: Rule, device: string, r: Reading, s: AlarmEngine.State, s': AlarmEngine.State)
    requires ServedAt(rule, device, r, s, s') && !rule.kind.Composite? && rule.debounce == 0
    ensures KeyOf(rule, device) in s'.active <==> Evaluation.EvaluateRule(rule, r.value, KeyOf(rule, device) in s.active)
  {
    TurnsOn(s, r.rules, rule, device, r.value, r.now, r.live, r.aggregates);
  }

  /** A simple rule without debounce, after any series of readings: with a threshold the alarm is active exactly when some
      reading went beyond it and none since has come back by more than the hysteresis; the other comparators go by the last
      reading alone. */
  lemma {:induction false} AlarmFollowsReadings(rule: Rule, device: string, readings: seq<Reading>, states: seq<AlarmEngine.State>)
    requires Served(rule, device, readings, states) && !rule.kind.Composite? && rule.debounce == 0 && rule.hysteresis >= 0.0
    ensures var n := |readings|;
            var on := AlarmOf(rule, device) in states[n].active;
            var t, h := rule.threshold, rule.hysteresis;
            && (rule.comparator.Gt? ==>
                  (on <==> exists i | 0 <= i < n :: readings[i].value > t && forall j | i < j < n :: readings[j].value > t - h))
            && (rule.comparator.Gte? ==>
                  (on <==> exists i | 0 <= i < n :: readings[i].value >= t && forall j | i < j < n :: readings[j].value >= t - h))
            && (rule.comparator.Lt? ==>
                  (on <==> exists i | 0 <= i < n :: readings[i].value < t && forall j | i < j < n :: readings[j].value < t + h))
            && (rule.comparator.Lte? ==>
                  (on <==> exists i | 0 <= i < n :: readings[i].value <= t && forall j | i < j < n :: readings[j].value <= t + h))
            && (n > 0 ==>
                  var v := readings[n - 1].value;
                  && (rule.comparator.Eq? ==> (on <==> v == t)) && (rule.comparator.Ne? ==> (on <==> v != t))
                  && (rule.comparator.Between? ==> (on <==> rule.high.Some? && t <= v <= rule.high.value))
                  && (rule.comparator.Outside? ==> (on <==> rule.high.Some? && !(t <= v <= rule.high.value)))
                  && (rule.comparator.BooleanTrue? ==> (on <==> v >= 0.5)) && (rule.comparator.BooleanFalse? ==> (on <==> v < 0.5))
                  && (rule.comparator.Unknown? ==> !on))
  {
    ServedIsFolded(rule, device, readings, states);
    if Evaluation.OneSided(rule.comparator) {
      Evaluation.HysteresisClosedForm(rule, Values(readings));
      StandingMeans(rule, readings);
    }
  }

  lemma {:induction false} StandingMeans(rule: Rule, readings: seq<Reading>)
    ensures var n := |readings|;
            var standing := Evaluation.Standing(rule, Values(readings));
            var t, h := rule.threshold, rule.hysteresis;
            && (rule.comparator.Gt? ==>
                  (standing <==> exists i | 0 <= i < n :: readings[i].value > t && forall j | i < j < n :: readings[j].value > t - h))
            && (rule.comparator.Gte? ==>
                  (standing <==> exists i | 0 <= i < n :: readings[i].value >= t && forall j | i < j < n :: readings[j].value >= t - h))
            && (rule.comparator.Lt? ==>
                  (standing <==> exists i | 0 <= i < n :: readings[i].value < t && forall j | i < j < n :: readings[j].value < t + h))
            && (rule.comparator.Lte? ==>
                  (standing <==> exists i | 0 <= i < n :: readings[i].value <= t && forall j | i < j < n :: readings[j].value <= t + h))
  {
    var values := Values(readings);
    assert forall i | 0 <= i < |readings| :: Evaluation.Beyond(rule, values[i]) == Evaluation.Beyond(rule, readings[i].value);
    assert forall i | 0 <= i < |readings| :: Evaluation.InReach(rule, values[i]) == Evaluation.InReach(rule, readings[i].value);
  }

  // ---- Composite rules ----

  /** The value meets the term's comparison with its threshold, or its two. */
  predicate Meets(t: Term, value: real) {
    match t.comparator
    case Gt => value > t.threshold
    case Gte => value >= t.threshold
    case Lt => value < t.threshold
    case Lte => value <= t.threshold
    case Eq => value == t.threshold
    case Ne => value != t.threshold
    case Between => t.high.Some? && t.threshold <= value <= t.high.value
    case Outside => t.high.Some? && !(t.threshold <= value <= t.high.value)
    case BooleanTrue => value >= 0.5
    case BooleanFalse => value < 0.5
    case Unknown => false
  }

  lemma {:induction false} MeetsHolds(t: Term, value: real)
    ensures Evaluation.TermHolds(t, value) <==> Meets(t, value)
  {
  }

  /** A composite rule without debounce, after its turn: untouched while a term has no value yet; otherwise active exactly
      when all of its terms hold, or some of them, as the rule says. */
  lemma {:induction false} CompositeFollowsTerms(s: AlarmEngine.State, rules: seq<Rule>, rule: Rule, device: string, value: real, now: real,
                                                 live: Evaluation.Live, aggregates: Evaluation.Aggregates)
    requires s.phase.Idle? && |s.queue| + |rules| <= AlarmEngine.QUEUE_MAX && DistinctIds(rules) && rule in rules
    requires rule.kind.Composite? && rule.expression.Some? && rule.debounce == 0
    ensures var terms := rule.expression.value.terms;
            var k := AlarmOf(rule, device);
            var on := k in Turns(s, rules, device, value, now, live, aggregates).active;
            if terms == [] || exists t :: t in terms && Evaluation.TermValue(t, device, live, aggregates).None?
            then on <==> k in s.active
            else on <==>
                 if rule.expression.value.conjunctive
                 then forall t | t in terms :: Meets(t, Evaluation.TermValue(t, device, live, aggregates).value)
                 else exists t :: t in terms && Meets(t, Evaluation.TermValue(t, device, live, aggregates).value)
  {
    TurnsOn(s, rules, rule, device, value, now, live, aggregates);
    forall t, v
      ensures Evaluation.TermHolds(t, v) <==> Meets(t, v)
    {
      MeetsHolds(t, v);
    }
  }

  /** The value of a term that compares a signal: the last reading of the signal, from the device named or, for "*", from the
      one that reported; and only if it is no more than ten minutes old. */
  lemma {:induction false} TermSeesFreshValue(t: Term, device: string, values: LiveValues, now: real, aggregates: Evaluation.Aggregates, v: real)
    requires t.kind.Compare?
    ensures Evaluation.TermValue(t, device, LiveAt(values, now), aggregates) == Some(v) <==>
            exists from, at: real :: (from == if t.device == "*" then device else t.device)
                                     && (t.signal, from) in values && values[(t.signal, from)] == (v, at) && now <= at + 600.0
  {
    var from := if t.device == "*" then device else t.device;
    if (t.signal, from) in values {
      assert values[(t.signal, from)] == (values[(t.signal, from)].0, values[(t.signal, from)].1);
    }
  }

  /** The value of a term that aggregates: of all samples of the signal that the device named, or the one that reported, has
      ever sent, those of the last `window` seconds, the last 5000 of them. */
  lemma {:induction false} TermSeesSamples(t: Term, device: string, puts: seq<Samples.Put>, now: real, live: Evaluation.Live)
    requires t.kind.Agg? && Samples.Monotone(puts) && (puts == [] || puts[|puts| - 1].sample.ts <= now)
    requires Samples.Keeps(puts, t.kind.window)
    ensures var from := if t.device == "*" then device else t.device;
            var samples := Samples.InWindow(Samples.History(puts, (t.signal, from)), now - t.kind.window as real);
            Evaluation.TermValue(t, device, live, AggregatesAt(Samples.Filled(puts), now)) ==
            Samples.Aggregate(t.kind.fn, if |samples| > 5000 then samples[|samples| - 5000..] else samples, t.kind.arg)
  {
    Samples.LookUpRefinesHistory(puts, (t.signal, if t.device == "*" then device else t.device), t.kind.fn, t.kind.window,
                                 t.kind.arg, now);
  }

  /** The value of a term that computes: its formula on the values its variables name, if all of them are there and the
      formula knows only them. */
  lemma {:induction false} TermSeesFormula(t: Term, device: string, live: Evaluation.Live, aggregates: Evaluation.Aggregates,
                                           scope: Evaluation.Scope)
    requires t.kind.Computed?
    ensures t.kind.vars == [] || (exists v :: v in t.kind.vars && Evaluation.Seen(v, device, live).None?) ==>
              Evaluation.TermValue(t, device, live, aggregates).None?
    ensures t.kind.vars != [] && (forall v | v in t.kind.vars :: Evaluation.Seen(v, device, live).Some?)
            && Evaluation.Stands(t.kind.vars, device, live, scope) ==>
              Evaluation.TermValue(t, device, live, aggregates) ==
              if Evaluation.Valid(t.kind.formula, scope.Keys) then Evaluation.Evaluate(t.kind.formula, scope) else None
  {
    if v :| v in t.kind.vars && Evaluation.Seen(v, device, live).None? {
      Evaluation.NoneWithout(t.kind.vars, device, live, v);
    } else if Evaluation.Stands(t.kind.vars, device, live, scope) {
      Evaluation.FormulaSeesValues(t.kind.vars, device, live, scope);
    }
  }

  /** The rule for lost communication is the first one of the backend, switched on or not. */
  lemma {:induction false} CommRuleIsFirst(raws: seq<Rule>, rule: Rule)
    ensures FirstComm(raws) == Some(rule) <==>
            exists i :: 0 <= i < |raws| && raws[i] == rule && rule.kind == CommLoss && forall j | 0 <= j < i :: raws[j].kind != CommLoss
  {
    if raws != [] {
      CommRuleIsFirst(raws[1..], rule);
      if i :| 0 <= i < |raws[1..]| && raws[1..][i] == rule && rule.kind == CommLoss
              && (forall j | 0 <= j < i :: raws[1..][j].kind != CommLoss) && raws[0].kind != CommLoss {
        assert raws[i + 1] == rule && forall j | 0 < j < i + 1 :: raws[j] == raws[1..][j - 1];
      }
      if i :| 0 < i < |raws| && raws[i] == rule && rule.kind == CommLoss && forall j | 0 <= j < i :: raws[j].kind != CommLoss {
        assert raws[1..][i - 1] == rule && forall j | 0 <= j < i - 1 :: raws[1..][j] == raws[j + 1];
      }
    }
  }

  // ---- Which rules see a reading ----

  /** An item of a comma-separated filter. */
  ghost predicate Listed(filter: string, item: string) {
    item != "" && exists piece :: piece in Split(filter, ',') && Strip(piece) == item
  }

  /** The filter names something at all. */
  ghost predicate Names(filter: string) {
    exists item :: Listed(filter, item)
  }

  /** The backend's rule is switched on, is not the communication rule, and knows all its signals. */
  ghost predicate InForce(raw: Rule, catalog: set<string>) {
    && raw.active && raw.kind != CommLoss && raw.signal in catalog
    && (raw.kind == Composite ==>
          && raw.expression.Some?
          && forall t, s | t in raw.expression.value.terms && TermMentions(t, s) :: s in catalog)
  }

  /** The signal of the term, or of a variable of its formula. */
  ghost predicate TermMentions(t: Term, signal: string) {
    signal == t.signal || (t.kind.Computed? && exists v :: v in t.kind.vars && signal == v.signal)
  }

  /** It listens to the signal: its own, or one that its expression mentions. */
  ghost predicate ListensTo(raw: Rule, signal: string) {
    || signal == raw.signal
    || (&& raw.kind == Composite && raw.expression.Some?
        && exists t :: t in raw.expression.value.terms && TermMentions(t, signal))
  }

  /** Its filters let the device and its model in. */
  ghost predicate LetsIn(raw: Rule, device: string, model: string) {
    && (Names(raw.models) ==> model != "" && Listed(raw.models, model))
    && if device == "" then raw.devices == "" else (Names(raw.devices) ==> Listed(raw.devices, device))
  }

  lemma {:induction false} ItemsListed(filter: string)
    ensures forall item :: item in Items(filter) <==> Listed(filter, item)
    ensures Items(filter) != {} <==> Names(filter)
  {
    if Items(filter) != {} {
      var item :| item in Items(filter);
      assert Listed(filter, item);
    }
  }

  lemma {:induction false} SeesExactly(raw: Rule, catalog: set<string>, signal: string, device: string, model: string)
    ensures Kept(raw, catalog) <==> InForce(raw, catalog)
    ensures Mentions(Normal(raw), signal) <==> ListensTo(raw, signal)
    ensures Covers(raw, device, model) <==> LetsIn(raw, device, model)
  {
    ItemsListed(raw.models);
    ItemsListed(raw.devices);
    if raw.expression.Some? {
      SignalsOf(raw.expression.value);
    }
  }

  lemma {:induction false} SignalsOf(e: Expression)
    ensures forall s :: s in Signals(e) <==> exists t :: t in e.terms && TermMentions(t, s)
  {
    forall t, s
      ensures s in TermSignals(t) <==> TermMentions(t, s)
    {
    }
  }

  /** The rules a reading is shown to, from the backend's own fields: exactly those in force that listen to the signal and let
      the device in, a simple rule without its expression. */
  lemma {:induction false} ShownToExactly(cache: AlarmRuleCache, raws: seq<Rule>, catalog: set<string>, signal: string, device: string,
                                          model: string, rule: Rule)
    requires cache.Reflects(raws, catalog)
    ensures rule in cache.RulesFor(signal, device, model) <==>
            exists raw :: raw in raws && InForce(raw, catalog) && ListensTo(raw, signal) && LetsIn(raw, device, model)
                          && rule == if raw.kind == Composite then raw else raw.(expression := None)
    ensures DistinctIds(raws) ==> DistinctIds(cache.RulesFor(signal, device, model))
  {
    IndexIsScan(cache, raws, catalog, signal, device, model);
    ScanContains(raws, catalog, signal, device, model, rule);
    if DistinctIds(raws) {
      ScanDistinct(raws, catalog, signal, device, model);
    }
  }

  /** They come in the backend's order, none twice: `at` are their places among the backend's rules. */
  lemma {:induction false} ShownInOrder(cache: AlarmRuleCache, raws: seq<Rule>, catalog: set<string>, signal: string, device: string,
                                        model: string) returns (at: seq<nat>)
    requires cache.Reflects(raws, catalog)
    ensures InOrder(cache.RulesFor(signal, device, model), raws, at)
  {
    IndexIsScan(cache, raws, catalog, signal, device, model);
    at := ScanInOrder(raws, catalog, signal, device, model);
  }

  ghost predicate InOrder(shown: seq<Rule>, raws: seq<Rule>, at: seq<nat>) {
    && |at| == |shown| && (forall i, j | 0 <= i < j < |at| :: at[i] < at[j])
    && forall i | 0 <= i < |at| :: at[i] < |raws| && shown[i].id == raws[at[i]].id
  }

  lemma {:induction false} ScanInOrder(raws: seq<Rule>, catalog: set<string>, signal: string, device: string, model: string)
    returns (at: seq<nat>)
    ensures InOrder(Scan(raws, catalog, signal, device, model), raws, at)
  {
    at := [];
    if raws != [] {
      var n := |raws| - 1;
      at := ScanInOrder(raws[..n], catalog, signal, device, model);
      if Scan(raws, catalog, signal, device, model) != Scan(raws[..n], catalog, signal, device, model) {
        at := at + [n];
      }
    }
  }

  lemma {:induction false} ScanContains(raws: seq<Rule>, catalog: set<string>, signal: string, device: string, model: string, rule: Rule)
    ensures rule in Scan(raws, catalog, signal, device, model) <==>
            exists raw :: raw in raws && InForce(raw, catalog) && ListensTo(raw, signal) && LetsIn(raw, device, model)
                          && rule == if raw.kind == Composite then raw else raw.(expression := None)
  {
    if raws != [] {
      var n := |raws| - 1;
      ScanContains(raws[..n], catalog, signal, device, model, rule);
      SeesExactly(raws[n], catalog, signal, device, model);
      AllButLast(raws);
      assert forall raw :: raw in raws <==> raw in raws[..n] || raw == raws[n];
    }
  }

  lemma {:induction false} ScanDistinct(raws: seq<Rule>, catalog: set<string>, signal: string, device: string, model: string)
    requires DistinctIds(raws)
    ensures DistinctIds(Scan(raws, catalog, signal, device, model))
    ensures forall r | r in Scan(raws, catalog, signal, device, model) :: exists i :: 0 <= i < |raws| && raws[i].id == r.id
  {
    if raws != [] {
      var n := |raws| - 1;
      ScanDistinct(raws[..n], catalog, signal, device, model);
      assert forall i | 0 <= i < n :: raws[..n][i] == raws[i] && raws[i].id != raws[n].id;
    }
  }
}
