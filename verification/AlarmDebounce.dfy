/** Debounce: which decisions to raise are backed by a condition that has held long enough, and exactly which are not.

    A streak of a key is a run of evaluations that found it due, with no contrary one in between. The engine measures it
    by the mark it leaves on the first of them; a rollback removes the mark, though not the streak. */
module AlarmDebounce {
  import opened Prelude
  import opened AlarmEngine

  // ---- Streaks ----

  /** Some evaluation at `t` found the key due, and none of its evaluations since found it otherwise. */
  ghost predicate DueSince(evaluations: seq<Evaluation>, k: Key, t: real) {
    exists i :: DueFrom(evaluations, k, t, i)
  }

  predicate DueFrom(evaluations: seq<Evaluation>, k: Key, t: real, i: int) {
    && 0 <= i < |evaluations| && evaluations[i] == Evaluation(k, t, true)
    && forall j | i <= j < |evaluations| && evaluations[j].key == k :: evaluations[j].should
  }

  /** The decision is backed by an evaluation at least `debounce` earlier. */
  ghost predicate Debounced(evaluations: seq<Evaluation>, d: Decision) {
    && d.upTo <= |evaluations|
    && exists t :: DueSince(evaluations[..d.upTo], d.key, t) && d.now - t >= d.debounce
  }

  /** Where the present streak of `k` begins. */
  function Streak(evaluations: seq<Evaluation>, k: Key): (i: Option<nat>)
    ensures i.Some? ==> i.value < |evaluations| && evaluations[i.value].key == k && evaluations[i.value].should
  {
    if |evaluations| == 0 then None else
      var n := |evaluations| - 1;
      var before := Streak(evaluations[..n], k);
      if evaluations[n].key != k then before
      else if !evaluations[n].should then None
      else if before.Some? then before
      else Some(n)
  }

  predicate InOrder(evaluations: seq<Evaluation>) {
    forall i, j | 0 <= i < j < |evaluations| :: evaluations[i].now <= evaluations[j].now
  }

  lemma {:induction false} StreakSnoc(evaluations: seq<Evaluation>, e: Evaluation, k: Key)
    ensures Streak(evaluations + [e], k) ==
            if e.key != k then Streak(evaluations, k)
            else if !e.should then None
            else if Streak(evaluations, k).Some? then Streak(evaluations, k)
            else Some(|evaluations|)
  {
    assert (evaluations + [e])[..|evaluations|] == evaluations;
  }

  lemma {:induction false} StreakFirst(evaluations: seq<Evaluation>, k: Key, t: real, i: nat)
    requires DueFrom(evaluations, k, t, i)
    ensures Streak(evaluations, k).Some? && Streak(evaluations, k).value <= i
  {
    var n := |evaluations| - 1;
    if i < n {
      assert DueFrom(evaluations[..n], k, t, i);
      StreakFirst(evaluations[..n], k, t, i);
    }
  }

  lemma {:induction false} StreakIsDue(evaluations: seq<Evaluation>, k: Key)
    requires Streak(evaluations, k).Some?
    ensures var i := Streak(evaluations, k).value; DueFrom(evaluations, k, evaluations[i].now, i)
  {
    var n := |evaluations| - 1;
    if Streak(evaluations[..n], k).Some? {
      StreakIsDue(evaluations[..n], k);
    }
  }

  /** With a clock that does not run backwards, a decision is backed exactly when its streak is old enough. */
  lemma {:induction false} DebouncedByStreak(evaluations: seq<Evaluation>, d: Decision)
    requires InOrder(evaluations) && d.upTo <= |evaluations| && Streak(evaluations[..d.upTo], d.key).Some?
    ensures Debounced(evaluations, d) <==>
            d.now - evaluations[Streak(evaluations[..d.upTo], d.key).value].now >= d.debounce
  {
    var seen := evaluations[..d.upTo];
    StreakIsDue(seen, d.key);
    assert DueSince(seen, d.key, seen[Streak(seen, d.key).value].now);
    forall t | DueSince(seen, d.key, t)
      ensures seen[Streak(seen, d.key).value].now <= t
    {
      var i :| DueFrom(seen, d.key, t, i);
      StreakFirst(seen, d.key, t, i);
    }
  }

  lemma {:induction false} DueSnoc(evaluations: seq<Evaluation>, e: Evaluation, k: Key, t: real)
    requires DueSince(evaluations, k, t) && (e.key == k ==> e.should)
    ensures DueSince(evaluations + [e], k, t)
  {
    var i :| DueFrom(evaluations, k, t, i);
    assert DueFrom(evaluations + [e], k, t, i);
  }

  lemma {:induction false} DueNow(evaluations: seq<Evaluation>, k: Key, t: real)
    requires evaluations != [] && evaluations[|evaluations| - 1] == Evaluation(k, t, true)
    ensures DueSince(evaluations, k, t)
  {
    assert DueFrom(evaluations, k, t, |evaluations| - 1);
  }

  lemma {:induction false} DueHasStreak(evaluations: seq<Evaluation>, k: Key, t: real)
    requires DueSince(evaluations, k, t)
    ensures Streak(evaluations, k).Some?
  {
    var i :| DueFrom(evaluations, k, t, i);
    StreakFirst(evaluations, k, t, i);
  }

  // ---- What the marks mean ----

  /** One of the rollbacks took the mark of `k` after evaluation `i`. */
  predicate RolledSince(rollbacks: seq<Rollback>, k: Key, i: nat) {
    exists r | r in rollbacks :: r.key == k && r.upTo > i
  }

  /** A rollback of `k` is among them. */
  predicate Interfered(rollbacks: seq<Rollback>, k: Key) {
    exists r | r in rollbacks :: r.key == k
  }

  /** The turn of `k` is about to take its mark away. */
  predicate Withdrawing(phase: Phase, k: Key) {
    && !phase.Idle? && phase.key == k
    && (phase.Clearing? || phase.Unpending? || (phase.Judged? && !phase.should))
  }

  /** In a streak without a rollback the mark is the time of its first evaluation. */
  predicate MarkSound(s: State, k: Key) {
    var streak := Streak(s.past.evaluations, k);
    if Withdrawing(s.phase, k) then
      streak.None? && ((s.phase.Judged? && s.phase.prev) || k !in s.active)
    else if streak.None? then k !in s.pending && k !in s.active
    else
      || RolledSince(s.past.rollbacks, k, streak.value)
      || (k in s.pending && s.pending[k] == s.past.evaluations[streak.value].now)
      || (k !in s.pending && k in s.active)
      || (k !in s.pending && s.phase.Judged? && s.phase.key == k && !s.phase.prev
          && streak.value == |s.past.evaluations| - 1)
  }

  /** The mark `since` is the beginning of the streak, or a rollback in the streak came before it. */
  predicate MarkExplained(evaluations: seq<Evaluation>, rollbacks: seq<Rollback>, k: Key, since: real) {
    var streak := Streak(evaluations, k);
    streak.Some? && (since == evaluations[streak.value].now || RolledSince(rollbacks, k, streak.value))
  }

  ghost predicate PhaseSound(s: State) {
    var evaluations := s.past.evaluations;
    match s.phase
    case Judged(key, should, prev, now, _) =>
      && evaluations != [] && evaluations[|evaluations| - 1] == Evaluation(key, now, should)
      && (!prev ==> key !in s.active)
    case Marked(key, now, debounce, since, earlier, disturbed) =>
      && debounce > 0.0 && earlier <= |s.past.rollbacks|
      && (disturbed <==> key !in s.pending) && (key in s.pending ==> s.pending[key] == since)
      && (disturbed <==> Interfered(s.past.rollbacks[earlier..], key))
      && DueSince(evaluations, key, since) && MarkExplained(evaluations, s.past.rollbacks[..earlier], key, since)
    case _ => true
  }

  ghost predicate PendingIsDue(s: State) {
    forall k | k in s.pending && !Withdrawing(s.phase, k) :: DueSince(s.past.evaluations, k, s.pending[k])
  }

  /** What is true of every decision: its mark is backed; it came too early only if a rollback of its key fell between
      the mark and the decision. */
  ghost predicate DecisionSound(past: History, d: Decision) {
    && d.upTo <= |past.evaluations| && d.earlier <= d.until <= |past.rollbacks|
    && DueSince(past.evaluations[..d.upTo], d.key, d.since)
    && (d.now - d.since < d.debounce ==> d.disturbed)
    && (d.disturbed <==> Interfered(past.rollbacks[d.earlier..d.until], d.key))
    && if d.debounce > 0.0 then MarkExplained(past.evaluations[..d.upTo], past.rollbacks[..d.earlier], d.key, d.since)
       else d.since == d.now
  }

  ghost predicate DecisionsSound(past: History) {
    forall d | d in past.decisions :: DecisionSound(past, d)
  }

  ghost predicate Sound(s: State) {
    PhaseSound(s) && PendingIsDue(s) && DecisionsSound(s.past) && forall k :: MarkSound(s, k)
  }

  // ---- Every step keeps it ----

  lemma {:induction false} DecisionsStay(past: History, past': History)
    requires DecisionsSound(past) && past'.decisions == past.decisions
    requires past.evaluations <= past'.evaluations && past.rollbacks <= past'.rollbacks
    ensures DecisionsSound(past')
  {
    forall d | d in past'.decisions
      ensures DecisionSound(past', d)
    {
      assert DecisionSound(past, d);
      assert past'.evaluations[..d.upTo] == past.evaluations[..d.upTo];
      assert past'.rollbacks[..d.earlier] == past.rollbacks[..d.earlier];
      assert past'.rollbacks[d.earlier..d.until] == past.rollbacks[d.earlier..d.until];
    }
  }

  lemma {:induction false} JudgeMark(s: State, key: Key, should: bool, now: real, debounce: real, k: Key)
    requires s.phase.Idle? && MarkSound(s, k)
    ensures MarkSound(Judge(s, key, should, now, debounce), k)
  {
    StreakSnoc(s.past.evaluations, Evaluation(key, now, should), k);
  }

  lemma {:induction false} JudgeSound(s: State, key: Key, should: bool, now: real, debounce: real)
    requires Sound(s)
    ensures Sound(Judge(s, key, should, now, debounce))
  {
    var s' := Judge(s, key, should, now, debounce);
    if s.phase.Idle? {
      forall k | k in s'.pending && !Withdrawing(s'.phase, k)
        ensures DueSince(s'.past.evaluations, k, s'.pending[k])
      {
        DueSnoc(s.past.evaluations, Evaluation(key, now, should), k, s.pending[k]);
      }
      forall k
        ensures MarkSound(s', k)
      {
        JudgeMark(s, key, should, now, debounce, k);
      }
      DecisionsStay(s.past, s'.past);
    }
  }

  lemma {:induction false} RolledSnoc(rollbacks: seq<Rollback>, r: Rollback, k: Key, i: nat)
    ensures RolledSince(rollbacks, k, i) || (r.key == k && r.upTo > i) <==> RolledSince(rollbacks + [r], k, i)
    ensures Interfered(rollbacks, k) || r.key == k <==> Interfered(rollbacks + [r], k)
  {
    assert (rollbacks + [r])[|rollbacks|] == r;
    forall q | q in rollbacks
      ensures q in rollbacks + [r]
    {
      var n :| 0 <= n < |rollbacks| && rollbacks[n] == q;
      assert (rollbacks + [r])[n] == q;
    }
  }

  lemma {:induction false} RollBackMark(s: State, key: Key, k: Key)
    requires MarkSound(s, k)
    ensures MarkSound(RollBack(s, key), k)
  {
    var streak := Streak(s.past.evaluations, k);
    if streak.Some? {
      RolledSnoc(s.past.rollbacks, Rollback(key, |s.past.evaluations|), k, streak.value);
    }
  }

  lemma {:induction false} RollBackPhase(s: State, key: Key)
    requires PhaseSound(s)
    ensures PhaseSound(RollBack(s, key))
  {
    if s.phase.Marked? {
      var n := s.phase.earlier;
      var r := Rollback(key, |s.past.evaluations|);
      assert (s.past.rollbacks + [r])[n..] == s.past.rollbacks[n..] + [r];
      assert (s.past.rollbacks + [r])[..n] == s.past.rollbacks[..n];
      RolledSnoc(s.past.rollbacks[n..], r, s.phase.key, 0);
    }
  }

  lemma {:induction false} RollBackSound(s: State, key: Key)
    requires Sound(s)
    ensures Sound(RollBack(s, key))
  {
    RollBackPhase(s, key);
    forall k
      ensures MarkSound(RollBack(s, key), k)
    {
      RollBackMark(s, key, k);
    }
    DecisionsStay(s.past, RollBack(s, key).past);
  }

  /** The mark the engine leaves, or finds. */
  lemma {:induction false} MarkingSound(s: State)
    requires Sound(s) && s.phase.Judged? && s.phase.should && !s.phase.prev && s.phase.debounce > 0.0
    ensures Sound(Advance(s))
  {
    var s' := Advance(s);
    var key := s.phase.key;
    var rollbacks := s.past.rollbacks;
    assert rollbacks[..|rollbacks|] == rollbacks && rollbacks[|rollbacks|..] == [];
    DueNow(s.past.evaluations, key, s.phase.now);
    DueHasStreak(s.past.evaluations, key, s.phase.now);
    assert MarkSound(s, key);
    forall k
      ensures MarkSound(s', k)
    {
      assert MarkSound(s, k);
    }
  }

  lemma {:induction false} DecideMark(s: State, k: Key)
    requires MarkSound(s, k) && (s.phase.Marked? || (s.phase.Judged? && s.phase.should && !s.phase.prev))
    requires Streak(s.past.evaluations, s.phase.key).Some?
    requires Advance(s).phase.Raising?
    ensures MarkSound(Advance(s), k)
  {
  }

  lemma {:induction false} DecideSound(s: State)
    requires Sound(s) && (s.phase.Marked? || (s.phase.Judged? && s.phase.should && !s.phase.prev))
    requires Advance(s).phase.Raising?
    ensures Sound(Advance(s))
  {
    var s' := Advance(s);
    var d := s'.past.decisions[|s.past.decisions|];
    var evaluations, rollbacks := s.past.evaluations, s.past.rollbacks;
    assert s'.past.decisions == s.past.decisions + [d];
    assert evaluations[..|evaluations|] == evaluations;
    assert rollbacks[d.earlier..|rollbacks|] == rollbacks[d.earlier..];
    if s.phase.Judged? {
      DueNow(evaluations, d.key, d.now);
    }
    DueHasStreak(evaluations, d.key, d.since);
    assert DecisionSound(s'.past, d);
    forall e | e in s.past.decisions
      ensures DecisionSound(s'.past, e)
    {
      assert DecisionSound(s.past, e);
    }
    forall k
      ensures MarkSound(s', k)
    {
      assert MarkSound(s, k);
      DecideMark(s, k);
    }
  }

  lemma {:induction false} OtherAdvance(s: State)
    requires Sound(s) && !Advance(s).phase.Raising? && !Advance(s).phase.Marked?
    requires !s.phase.Raising?
    ensures Sound(Advance(s))
  {
    var s' := Advance(s);
    forall k
      ensures MarkSound(s', k)
    {
      assert MarkSound(s, k);
    }
    DecisionsStay(s.past, s'.past);
  }

  lemma {:induction false} IdleAgain(s: State)
    requires Sound(s) && s.phase.Raising?
    ensures Sound(s.(phase := Idle))
  {
    forall k
      ensures MarkSound(s.(phase := Idle), k)
    {
      assert MarkSound(s, k);
    }
  }

  lemma {:induction false} AdvanceSound(s: State)
    requires Sound(s)
    ensures Sound(Advance(s))
  {
    if s.phase.Raising? {
      if |s.queue| < QUEUE_MAX {
        IdleAgain(s);
        SameSound(s.(phase := Idle), Advance(s));
      } else {
        RollBackSound(s, s.phase.key);
        IdleAgain(RollBack(s, s.phase.key));
      }
    } else if Advance(s).phase.Raising? {
      DecideSound(s);
    } else if Advance(s).phase.Marked? {
      MarkingSound(s);
    } else {
      OtherAdvance(s);
    }
  }

  /** The queue, the log and the backend do not matter here. */
  lemma {:induction false} SameSound(s: State, s': State)
    requires Sound(s) && s'.active == s.active && s'.pending == s.pending && s'.phase == s.phase
    requires s'.past == s.past.(log := s'.past.log)
    ensures Sound(s')
  {
    forall k
      ensures MarkSound(s', k)
    {
      assert MarkSound(s, k);
    }
    DecisionsStay(s.past, s'.past);
  }

  lemma {:induction false} FinishSound(s: State, outcome: Outcome)
    requires Sound(s)
    ensures Sound(Finish(s, outcome))
  {
    if s.hand.Some? {
      var key := s.hand.value.key;
      var open := if outcome.Lost? then s.open else if s.hand.value.Raise? then s.open + {key} else s.open - {key};
      var s1 := s.(hand := None, open := open);
      SameSound(s, s1);
      RollBackSound(s1, key);
    }
  }

  lemma {:induction false} StepSound(s: State, a: Action)
    requires Sound(s)
    ensures Sound(Step(s, a))
  {
    match a
    case Evaluate(key, should, now, debounce) => JudgeSound(s, key, should, now, debounce);
    case Proceed => AdvanceSound(s);
    case TakeJob => SameSound(s, Take(s));
    case FinishJob(outcome) => FinishSound(s, outcome);
  }

  lemma {:induction false} RunSound(s: State, actions: seq<Action>)
    requires Sound(s)
    ensures Sound(Run(s, actions))
    decreases |actions|
  {
    if actions != [] {
      StepSound(s, actions[0]);
      RunSound(Step(s, actions[0]), actions[1..]);
    }
  }

  lemma {:induction false} StartIsSound()
    ensures Sound(START)
  {
    forall k
      ensures MarkSound(START, k)
    {
    }
  }

  // ---- Which raises are debounced ----

  /** In every run, whatever the interleaving, every decision to raise is backed by its mark; so one on a mark at least
      `debounce` old is debounced, disturbed or not. A decision on a younger mark is made only if a rollback of the key
      falls between the mark and the decision. */
  lemma {:induction false} RaisesAreDebounced(s: State, actions: seq<Action>, d: Decision)
    requires Sound(s) && d in Run(s, actions).past.decisions
    ensures var past := Run(s, actions).past;
            && d.upTo <= |past.evaluations| && d.earlier <= d.until <= |past.rollbacks|
            && DueSince(past.evaluations[..d.upTo], d.key, d.since)
            && (d.now - d.since >= d.debounce ==> Debounced(past.evaluations, d))
            && (d.now - d.since < d.debounce ==> Interfered(past.rollbacks[d.earlier..d.until], d.key))
  {
    RunSound(s, actions);
    assert DecisionSound(Run(s, actions).past, d);
  }

  /** Exactly which decisions are debounced, for a clock that does not run backwards: those whose streak is old enough;
      and if no rollback of the key came between the beginning of the streak and the mark, those whose mark is. So the
      raises that come too early are the ones with a young mark and a rollback between mark and decision. */
  lemma {:induction false} DebouncedExactly(s: State, actions: seq<Action>, d: Decision)
    requires Sound(s) && d in Run(s, actions).past.decisions && InOrder(Run(s, actions).past.evaluations)
    ensures var past := Run(s, actions).past;
            && d.upTo <= |past.evaluations| && d.earlier <= |past.rollbacks|
            && var streak := Streak(past.evaluations[..d.upTo], d.key);
            && streak.Some?
            && (Debounced(past.evaluations, d) <==> d.now - past.evaluations[streak.value].now >= d.debounce)
            && (!RolledSince(past.rollbacks[..d.earlier], d.key, streak.value) ==>
                  (Debounced(past.evaluations, d) <==> d.now - d.since >= d.debounce))
  {
    var past := Run(s, actions).past;
    RunSound(s, actions);
    assert DecisionSound(past, d);
    DueHasStreak(past.evaluations[..d.upTo], d.key, d.since);
    DebouncedByStreak(past.evaluations, d);
    if d.debounce <= 0.0 {
      RaisesAreDebounced(s, actions, d);
    }
  }

  /** A raise is decided exactly when the mark is old enough or gone, and it is gone exactly when a rollback of the key
      has come since it was left or found. */
  lemma {:induction false} RaiseDecision(s: State, actions: seq<Action>)
    requires Sound(s) && Run(s, actions).phase.Marked?
    ensures var now := Run(s, actions);
            && now.phase.earlier <= |now.past.rollbacks|
            && (Advance(now).phase.Raising? <==>
                  || now.phase.now - now.phase.since >= now.phase.debounce
                  || Interfered(now.past.rollbacks[now.phase.earlier..], now.phase.key))
  {
    RunSound(s, actions);
  }

  // ---- Runs of either kind ----

  function Evaluated(s: State, k: Key, now: real, should: bool): History {
    s.past.(evaluations := s.past.evaluations + [Evaluation(k, now, should)])
  }

  /** A first due reading leaves a mark. */
  lemma {:induction false} MarkTurn(s: State, k: Key, now: real, debounce: real)
    requires s.phase.Idle? && k !in s.active && k !in s.pending && debounce > 0.0
    ensures Run(s, [Evaluate(k, true, now, debounce), Proceed, Proceed]) ==
            s.(pending := s.pending[k := now], past := Evaluated(s, k, now, true))
  {
    RunThree(s, Evaluate(k, true, now, debounce), Proceed, Proceed);
  }

  /** A due reading on an old mark raises. */
  lemma {:induction false} RaiseTurn(s: State, k: Key, now: real, debounce: real)
    requires s.phase.Idle? && k !in s.active && k in s.pending && now - s.pending[k] >= debounce > 0.0 && |s.queue| < QUEUE_MAX
    ensures var n := |s.past.rollbacks|;
            var d := Decision(k, now, debounce, s.pending[k], |s.past.evaluations| + 1, n, n, false);
            Run(s, [Evaluate(k, true, now, debounce), Proceed, Proceed] + [Proceed]) ==
            s.(active := s.active + {k}, queue := s.queue + [Raise(k)],
               past := Evaluated(s, k, now, true).(log := s.past.log + [Raised(k)], decisions := s.past.decisions + [d]))
  {
    RunThree(s, Evaluate(k, true, now, debounce), Proceed, Proceed);
    RunConcat(s, [Evaluate(k, true, now, debounce), Proceed, Proceed], [Proceed]);
    RunOne(Run(s, [Evaluate(k, true, now, debounce), Proceed, Proceed]), Proceed);
  }

  lemma {:induction false} RunOne(s: State, a: Action)
    ensures Run(s, [a]) == Step(s, a)
  {
    assert [a][1..] == [];
    assert Run(Step(s, a), []) == Step(s, a);
  }

  /** A contrary reading clears. */
  lemma {:induction false} ClearTurn(s: State, k: Key, now: real, debounce: real)
    requires s.phase.Idle? && k in s.active && |s.queue| < QUEUE_MAX
    ensures Run(s, [Evaluate(k, false, now, debounce), Proceed, Proceed] + [Proceed]) ==
            s.(active := s.active - {k}, pending := s.pending - {k}, queue := s.queue + [Clear(k)],
               past := Evaluated(s, k, now, false).(log := s.past.log + [Cleared(k)]))
  {
    RunThree(s, Evaluate(k, false, now, debounce), Proceed, Proceed);
    RunConcat(s, [Evaluate(k, false, now, debounce), Proceed, Proceed], [Proceed]);
    RunOne(Run(s, [Evaluate(k, false, now, debounce), Proceed, Proceed]), Proceed);
    assert s.pending - {k} - {k} == s.pending - {k};
  }

  /** Marked at `t`, raised ten seconds later, cleared a second after that. */
  lemma {:induction false} RaiseAndClear(s: State, k: Key, t: real) returns (actions: seq<Action>)
    requires s.phase.Idle? && k !in s.active && k !in s.pending && |s.queue| < QUEUE_MAX - 1
    ensures var n := |s.past.rollbacks|;
            Run(s, actions) ==
            s.(active := s.active - {k}, pending := s.pending - {k}, queue := s.queue + [Raise(k), Clear(k)],
               past := s.past.(evaluations := s.past.evaluations
                                              + [Evaluation(k, t, true), Evaluation(k, t + 10.0, true), Evaluation(k, t + 11.0, false)],
                               log := s.past.log + [Raised(k), Cleared(k)],
                               decisions := s.past.decisions
                                            + [Decision(k, t + 10.0, 10.0, t, |s.past.evaluations| + 2, n, n, false)]))
  {
    var mark := [Evaluate(k, true, t, 10.0), Proceed, Proceed];
    var raise := [Evaluate(k, true, t + 10.0, 10.0), Proceed, Proceed] + [Proceed];
    var clear := [Evaluate(k, false, t + 11.0, 10.0), Proceed, Proceed] + [Proceed];
    MarkTurn(s, k, t, 10.0);
    var s1 := Run(s, mark);
    RaiseTurn(s1, k, t + 10.0, 10.0);
    var s2 := Run(s1, raise);
    ClearTurn(s2, k, t + 11.0, 10.0);
    var s3 := Run(s2, clear);
    RunConcat(s, mark, raise);
    RunConcat(s, mark + raise, clear);
    actions := mark + raise + clear;
    assert s3.active == s.active - {k} && s3.pending == s.pending - {k};
    assert s3.queue == s.queue + [Raise(k), Clear(k)];
  }

  /** The next reading is due, and left a mark; the evaluating thread has not read it yet when the raise in the notifier's
      hand, of an earlier streak, is lost. */
  lemma {:induction false} RacedTurn(s: State, k: Key, now: real)
    requires s.phase.Idle? && k !in s.active && k !in s.pending && s.hand == Some(Raise(k)) && k !in s.open
    ensures var n := |s.past.rollbacks|;
            var past := Evaluated(s, k, now, true);
            var d := Decision(k, now, 10.0, now, |s.past.evaluations| + 1, n, n + 1, true);
            Run(s, [Evaluate(k, true, now, 10.0), Proceed] + [FinishJob(Lost), Proceed]) ==
            s.(active := s.active + {k}, phase := Raising(k), hand := None,
               past := past.(log := past.log + [RolledBack(k)], decisions := past.decisions + [d],
                             rollbacks := past.rollbacks + [Rollback(k, |past.evaluations|)]))
  {
    var first, second := [Evaluate(k, true, now, 10.0), Proceed], [FinishJob(Lost), Proceed];
    RunTwo(s, first[0], first[1]);
    RunTwo(Run(s, first), second[0], second[1]);
    RunConcat(s, first, second);
    var marked := Run(s, first);
    assert marked.phase == Marked(k, now, 10.0, now, |s.past.rollbacks|, false);
    assert marked.active - {k} == s.active && marked.pending - {k} == s.pending;
  }

  lemma {:induction false} RunTwo(s: State, a: Action, b: Action)
    ensures Run(s, [a, b]) == Step(Step(s, a), b)
  {
    assert [a, b][1..] == [b];
    RunOne(Step(s, a), b);
  }

  /** The exception is real: the rollback of an older raise slips between marking the key and reading the mark, and the
      alarm is raised on its first due reading, at 12, though its debounce is 10. */
  lemma {:induction false} RollbackSkipsDebounce(k: Key) returns (actions: seq<Action>)
    ensures var past := Run(START, actions).past;
            && InOrder(past.evaluations) && |past.decisions| == 2
            && past.decisions[1] == Decision(k, 12.0, 10.0, 12.0, 4, 0, 1, true)
            && !Debounced(past.evaluations, past.decisions[1])
  {
    var before := RaiseAndClear(START, k, 0.0);
    var s1 := Run(START, before);
    RunOne(s1, TakeJob);
    var s2 := Run(s1, [TakeJob]);
    var raced := [Evaluate(k, true, 12.0, 10.0), Proceed] + [FinishJob(Lost), Proceed];
    RacedTurn(s2, k, 12.0);
    RunConcat(START, before, [TakeJob]);
    RunConcat(START, before + [TakeJob], raced);
    actions := before + [TakeJob] + raced;
    var past := Run(START, actions).past;
    StreakSnoc(past.evaluations[..3], past.evaluations[3], k);
    assert past.evaluations == past.evaluations[..3] + [past.evaluations[3]] && past.evaluations[..4] == past.evaluations;
    StreakSnoc(past.evaluations[..2], past.evaluations[2], k);
    assert past.evaluations[..3] == past.evaluations[..2] + [past.evaluations[2]];
    DebouncedByStreak(past.evaluations, past.decisions[1]);
  }

  /** Two raises and clears are waiting. */
  lemma {:induction false} TwoWait(k: Key) returns (actions: seq<Action>)
    ensures var end := Run(START, actions);
            && end.phase.Idle? && end.active == {} && end.pending == map[] && end.open == {} && end.hand == None
            && end.queue == [Raise(k), Clear(k), Raise(k), Clear(k)]
            && end.past.evaluations == [Evaluation(k, 0.0, true), Evaluation(k, 10.0, true), Evaluation(k, 11.0, false),
                                        Evaluation(k, 12.0, true), Evaluation(k, 22.0, true), Evaluation(k, 23.0, false)]
            && |end.past.decisions| == 2 && end.past.rollbacks == []
  {
    var first := RaiseAndClear(START, k, 0.0);
    var s1 := Run(START, first);
    var second := RaiseAndClear(s1, k, 12.0);
    RunConcat(START, first, second);
    actions := first + second;
  }

  /** A third streak has begun at `now`; the first raise in the queue is lost, and its rollback takes the mark. */
  lemma {:induction false} FirstIsLost(s: State, k: Key)
    requires s.phase.Idle? && s.hand == Some(Raise(k)) && |s.queue| > 1 && s.queue[0] == Clear(k)
    ensures var s' := Run(s, [FinishJob(Lost), TakeJob] + [FinishJob(Stored), TakeJob]);
            s' == s.(active := s.active - {k}, pending := s.pending - {k}, hand := Some(s.queue[1]), queue := s.queue[1..][1..],
                     open := s.open - {k},
                     past := s.past.(log := s.past.log + [RolledBack(k)],
                                     rollbacks := s.past.rollbacks + [Rollback(k, |s.past.evaluations|)]))
  {
    RunTwo(s, FinishJob(Lost), TakeJob);
    RunTwo(Run(s, [FinishJob(Lost), TakeJob]), FinishJob(Stored), TakeJob);
    RunConcat(s, [FinishJob(Lost), TakeJob], [FinishJob(Stored), TakeJob]);
  }

  lemma {:induction false} MarkLost(k: Key) returns (actions: seq<Action>)
    ensures var end := Run(START, actions);
            && end.phase.Idle? && end.active == {} && end.pending == map[] && end.open == {} && end.hand == Some(Raise(k))
            && |end.past.evaluations| == 7 && InOrder(end.past.evaluations)
            && end.past.evaluations[5] == Evaluation(k, 23.0, false) && end.past.evaluations[6] == Evaluation(k, 24.0, true)
            && |end.past.decisions| == 2 && end.past.rollbacks == [Rollback(k, 7)]
  {
    var before := TwoWait(k);
    var s2 := Run(START, before);
    RunOne(s2, TakeJob);
    var s3 := Run(s2, [TakeJob]);
    assert s3.queue == [Clear(k), Raise(k), Clear(k)];
    var mark := [Evaluate(k, true, 24.0, 10.0), Proceed, Proceed];
    MarkTurn(s3, k, 24.0, 10.0);
    var lost := [FinishJob(Lost), TakeJob] + [FinishJob(Stored), TakeJob];
    FirstIsLost(Run(s3, mark), k);
    RunConcat(START, before, [TakeJob]);
    RunConcat(START, before + [TakeJob], mark);
    RunConcat(START, before + [TakeJob] + mark, lost);
    actions := before + [TakeJob] + mark + lost;
  }

  /** Why the exact condition looks at earlier rollbacks: the raise at 34 has a mark of 34, and is debounced all the same,
      by the reading at 24 whose mark a rollback took. */
  lemma {:induction false} OlderReadingBacks(k: Key) returns (actions: seq<Action>)
    ensures var past := Run(START, actions).past;
            && InOrder(past.evaluations) && |past.decisions| == 3
            && past.decisions[2] == Decision(k, 34.0, 10.0, 34.0, 8, 1, 2, true)
            && Debounced(past.evaluations, past.decisions[2])
  {
    var before := MarkLost(k);
    var s := Run(START, before);
    var raced := [Evaluate(k, true, 34.0, 10.0), Proceed] + [FinishJob(Lost), Proceed];
    RacedTurn(s, k, 34.0);
    RunConcat(START, before, raced);
    actions := before + raced;
    var past := Run(START, actions).past;
    assert past.evaluations[..8] == past.evaluations;
    assert DueFrom(past.evaluations, k, 24.0, 6);
    assert DueSince(past.evaluations[..8], k, 24.0);
  }
}
