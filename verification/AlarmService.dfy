/** The alarm service as it is written: rule state, notifier queue, and the loop over the rules of a reading. Each method
    is shown to take the steps of the alarm engine. */
module AlarmService {
  import opened Prelude
  import AlarmEngine
  import opened AlarmRules
  import Evaluation = AlarmEvaluation
  import Samples = AlarmSamples

  type Key = AlarmEngine.Key

  const FRESH_FOR := 600.0

  class RuleState {
    var active: map<Key, bool>
    var pending: map<Key, real>

    constructor ()
      ensures active == map[] && pending == map[]
    {
      active, pending := map[], map[];
    }

    function GetActive(key: Key): bool
      reads this
    {
      key in active && active[key]
    }

    function Active(): set<Key>
      reads this
    {
      set k | k in active && active[k]
    }

    function PendingSince(key: Key): Option<real>
      reads this
    {
      if key in pending then Some(pending[key]) else None
    }

    method SetActive(key: Key, on: bool)
      modifies this
      ensures Active() == if on then old(Active()) + {key} else old(Active()) - {key}
      ensures pending == if on then old(pending) else old(pending) - {key}
    {
      active := active[key := on];
      if !on {
        pending := pending - {key};
      }
    }

    method MarkPending(key: Key, now: real)
      modifies this`pending
      ensures pending == AlarmEngine.MarkPending(old(pending), key, now)
    {
      if key !in pending {
        pending := pending[key := now];
      }
    }

    method ClearPending(key: Key)
      modifies this`pending
      ensures pending == old(pending) - {key}
    {
      pending := pending - {key};
    }
  }

  class BackendNotifier {
    const state: RuleState
    var queue: seq<AlarmEngine.Job>
    var droppedRaises: nat
    var droppedClears: nat

    constructor (state: RuleState)
      ensures this.state == state && queue == [] && droppedRaises == 0 && droppedClears == 0
    {
      this.state := state;
      queue, droppedRaises, droppedClears := [], 0, 0;
    }

    /** Everything but the backend and the position of the evaluating thread. */
    ghost predicate Matches(s: AlarmEngine.State)
      reads this, state
    {
      s.active == state.Active() && s.pending == state.pending && s.queue == queue
    }

    /** A full queue rolls the engine's state back at once. */
    method SubmitRaise(key: Key, ghost s: AlarmEngine.State)
      requires Matches(s) && s.phase == AlarmEngine.Raising(key)
      modifies this, state
      ensures Matches(AlarmEngine.Advance(s))
      ensures droppedRaises == old(droppedRaises) && droppedClears == old(droppedClears)
    {
      if |queue| < AlarmEngine.QUEUE_MAX {
        queue := queue + [AlarmEngine.Raise(key)];
      } else {
        state.SetActive(key, false);
      }
    }

    method SubmitClear(key: Key, ghost s: AlarmEngine.State)
      requires Matches(s) && s.phase == AlarmEngine.Clearing(key)
      modifies this
      ensures Matches(AlarmEngine.Advance(s))
      ensures droppedClears == old(droppedClears) + if |old(queue)| < AlarmEngine.QUEUE_MAX then 0 else 1
      ensures droppedRaises == old(droppedRaises)
    {
      if |queue| < AlarmEngine.QUEUE_MAX {
        queue := queue + [AlarmEngine.Clear(key)];
      } else {
        droppedClears := droppedClears + 1;
      }
    }

    /** The worker takes the next job. */
    method Next(ghost s: AlarmEngine.State) returns (job: Option<AlarmEngine.Job>)
      requires Matches(s) && s.hand.None?
      modifies this`queue
      ensures Matches(AlarmEngine.Take(s)) && job == AlarmEngine.Take(s).hand
    {
      if queue == [] {
        return None;
      }
      job := Some(queue[0]);
      queue := queue[1..];
    }

    /** ... and ends it: without an alarm id, a raise is lost to the engine and its state is rolled back. */
    method End(job: AlarmEngine.Job, alarmId: Option<int>, outcome: AlarmEngine.Outcome, ghost s: AlarmEngine.State)
      requires Matches(s) && s.hand == Some(job)
      requires alarmId.Some? <==> outcome.Stored?
      modifies this, state
      ensures Matches(AlarmEngine.Finish(s, outcome))
      ensures droppedRaises == old(droppedRaises) + if job.Raise? && alarmId.None? then 1 else 0
    {
      if job.Raise? && alarmId.None? {
        droppedRaises := droppedRaises + 1;
        state.SetActive(job.key, false);
      }
    }
  }

  /** One whole turn of the evaluating thread, with nothing in between. */
  function Turn(s: AlarmEngine.State, key: Key, should: bool, now: real, debounce: real): AlarmEngine.State {
    AlarmEngine.Advance(AlarmEngine.Advance(AlarmEngine.Advance(AlarmEngine.Judge(s, key, should, now, debounce))))
  }

  /** A turn is a run of the engine and ends where the next can begin. */
  lemma {:induction false} TurnIsRun(s: AlarmEngine.State, key: Key, should: bool, now: real, debounce: real)
    requires s.phase.Idle?
    ensures Turn(s, key, should, now, debounce).phase.Idle?
    ensures Turn(s, key, should, now, debounce) ==
            AlarmEngine.Run(s, [AlarmEngine.Evaluate(key, should, now, debounce)] +
                               [AlarmEngine.Proceed, AlarmEngine.Proceed, AlarmEngine.Proceed])
  {
    var s1 := AlarmEngine.Judge(s, key, should, now, debounce);
    var p := AlarmEngine.Proceed;
    AlarmEngine.RunThree(s1, p, p, p);
    var all := [AlarmEngine.Evaluate(key, should, now, debounce)] + [p, p, p];
    assert all[1..] == [p, p, p];
  }

  /** What a rule says of a reading; None when a composite rule lacks data. */
  ghost function Verdict(rule: Rule, device: string, value: real, prev: bool,
                         live: Evaluation.Live, aggregates: Evaluation.Aggregates): Option<bool> {
    if rule.kind.Composite? && rule.expression.Some? then
      Evaluation.Decision(rule.expression.value, device, live, aggregates)
    else Some(Evaluation.EvaluateRule(rule, value, prev))
  }

  function KeyOf(rule: Rule, device: string): Key {
    AlarmEngine.Key(Some(rule.id), device, rule.signal)
  }

  /** The turns of a reading's rules, in order; an undecided rule takes none. */
  ghost function Turns(s: AlarmEngine.State, rules: seq<Rule>, device: string, value: real, now: real,
                       live: Evaluation.Live, aggregates: Evaluation.Aggregates): AlarmEngine.State {
    if |rules| == 0 then s else
      var rule := rules[|rules| - 1];
      var before := Turns(s, rules[..|rules| - 1], device, value, now, live, aggregates);
      var verdict := Verdict(rule, device, value, KeyOf(rule, device) in before.active, live, aggregates);
      if verdict.None? then before
      else Turn(before, KeyOf(rule, device), verdict.value, now, rule.debounce as real)
  }

  type LiveValues = map<(string, string), (real, real)>

  /** Values older than ten minutes are not fresh. */
  function LiveAt(values: LiveValues, now: real): Evaluation.Live {
    (signal, device) =>
      if (signal, device) in values && now - values[(signal, device)].1 <= FRESH_FOR
      then Some(values[(signal, device)].0) else None
  }

  function AggregatesAt(store: Samples.Store, now: real): Evaluation.Aggregates {
    (signal, device, fn, window: Window, arg) => Samples.LookUp(store, (signal, device), fn, window, arg, now)
  }

  class Service {
    const cache: AlarmRuleCache
    const samples: Samples.SamplesCache
    const state: RuleState
    const notifier: BackendNotifier
    var live: LiveValues

    ghost predicate Valid()
      reads this
    {
      notifier.state == state
    }

    constructor (cache: AlarmRuleCache, samples: Samples.SamplesCache, state: RuleState, notifier: BackendNotifier)
      requires notifier.state == state
      ensures Valid() && live == map[]
      ensures this.cache == cache && this.samples == samples && this.state == state && this.notifier == notifier
    {
      this.cache, this.samples, this.state, this.notifier, live := cache, samples, state, notifier, map[];
    }

    /** One rule with its verdict. */
    method ProcessRule(key: Key, should: bool, prev: bool, now: real, debounce: nat, ghost s: AlarmEngine.State)
      requires Valid() && notifier.Matches(s) && s.phase.Idle? && prev == (key in s.active)
      modifies notifier, state
      ensures notifier.Matches(Turn(s, key, should, now, debounce as real))
    {
      ghost var s1 := AlarmEngine.Judge(s, key, should, now, debounce as real);
      if should && !prev {
        if debounce > 0 {
          state.MarkPending(key, now);
          s1 := AlarmEngine.Advance(s1);
          var pending := state.PendingSince(key);
          if pending.Some? && now - pending.value < debounce as real {
            return;
          }
        }
        state.SetActive(key, true);
        s1 := AlarmEngine.Advance(s1);
        notifier.SubmitRaise(key, s1);
      } else if !should {
        if prev {
          state.SetActive(key, false);
          notifier.SubmitClear(key, AlarmEngine.Advance(s1));
        }
        state.ClearPending(key);
      }
    }

    method Judge(rule: Rule, device: string, value: real, prev: bool, now: real) returns (verdict: Option<bool>)
      ensures verdict == Verdict(rule, device, value, prev, LiveAt(live, now), AggregatesAt(samples.Contents(), now))
    {
      if rule.kind.Composite? && rule.expression.Some? {
        verdict := Evaluation.EvaluateComposite(rule.expression.value, device, LiveAt(live, now),
                                                AggregatesAt(samples.Contents(), now));
      } else {
        verdict := Some(Evaluation.EvaluateRule(rule, value, prev));
      }
    }

    method ProcessRules(rules: seq<Rule>, device: string, value: real, now: real, ghost s: AlarmEngine.State)
      returns (ghost end: AlarmEngine.State)
      requires Valid() && notifier.Matches(s) && s.phase.Idle?
      modifies notifier, state
      ensures end == Turns(s, rules, device, value, now, LiveAt(live, now), AggregatesAt(samples.Contents(), now))
      ensures notifier.Matches(end) && end.phase.Idle?
    {
      ghost var values, aggregates := LiveAt(live, now), AggregatesAt(samples.Contents(), now);
      end := s;
      for i := 0 to |rules|
        invariant notifier.Matches(end) && end.phase.Idle?
        invariant end == Turns(s, rules[..i], device, value, now, values, aggregates)
      {
        assert rules[..i + 1][..i] == rules[..i];
        var rule := rules[i];
        var key := KeyOf(rule, device);
        var prev := state.GetActive(key);
        var verdict := Judge(rule, device, value, prev, now);
        if verdict.Some? {
          ProcessRule(key, verdict.value, prev, now, rule.debounce, end);
          TurnIsRun(end, key, verdict.value, now, rule.debounce as real);
          end := Turn(end, key, verdict.value, now, rule.debounce as real);
        }
      }
      assert rules[..|rules|] == rules;
    }

    /** A good reading: the caches are updated first, then every rule in scope takes its turn. */
    method ProcessReading(signal: string, device: string, model: string, value: real, now: real, ghost s: AlarmEngine.State)
      returns (ghost end: AlarmEngine.State)
      requires Valid() && notifier.Matches(s) && s.phase.Idle?
      modifies this, samples, notifier, state
      ensures Valid() && notifier.Matches(end) && end.phase.Idle?
      ensures signal !in cache.catalog ==>
                end == s && live == old(live) && samples.Contents() == old(samples.Contents())
      ensures signal in cache.catalog ==>
                && live == old(live)[(signal, device) := (value, now)]
                && samples.Contents() == (if signal in cache.aggKeys
                     then Samples.PutInto(old(samples.Contents()),
                                          Samples.Put((signal, device), Samples.Sample(now, value), cache.maxWindow))
                     else old(samples.Contents()))
                && end == Turns(s, cache.RulesFor(signal, device, model), device, value, now,
                                LiveAt(live, now), AggregatesAt(samples.Contents(), now))
    {
      end := s;
      if signal !in cache.catalog {
        return;
      }
      live := live[(signal, device) := (value, now)];
      if signal in cache.aggKeys {
        samples.Add((signal, device), value, now, cache.maxWindow);
      }
      end := ProcessRules(cache.RulesFor(signal, device, model), device, value, now, s);
    }
  }
}
