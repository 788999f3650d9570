/** The alarm engine and its backend notifier: two threads that share the rule state and a job queue.

    A step is one locked section or one queue operation, so every interleaving of the evaluating thread and the
    notifier thread is a run. */
module AlarmEngine {
  import opened Prelude

  const QUEUE_MAX := 10_000

  /** Rule, device and anchor signal. A device's communication alarm has no rule; it is evaluated without debounce. */
  datatype Key = Key(rule: Option<int>, device: string, signal: string)

  datatype Job = Raise(key: Key) | Clear(key: Key)

  /** Where the evaluating thread is between two locked sections. `since` is the mark it left or found, `earlier` the
      number of rollbacks before that; `disturbed` is history too: a rollback of the same key came after the mark. */
  datatype Phase =
    | Idle
    | Judged(key: Key, should: bool, prev: bool, now: real, debounce: real)
    | Marked(key: Key, now: real, debounce: real, since: real, earlier: nat, disturbed: bool)
    | Raising(key: Key)
    | Clearing(key: Key)
    | Unpending(key: Key)

  datatype Outcome =
    | Stored        // the backend has it and said so
    | Unconfirmed   // the backend has it, the answer brought no alarm id
    | Lost          // the backend does not have it

  datatype Evaluation = Evaluation(key: Key, now: real, should: bool)

  datatype Event = Raised(key: Key) | Cleared(key: Key) | RolledBack(key: Key)

  /** A rollback, with the number of evaluations made before it. */
  datatype Rollback = Rollback(key: Key, upTo: nat)

  /** A decision to raise on the mark `since`, with the number of evaluations made so far; `earlier` rollbacks came
      before the mark, `until` before the decision. */
  datatype Decision = Decision(key: Key, now: real, debounce: real, since: real, upTo: nat,
                               earlier: nat, until: nat, disturbed: bool)

  datatype History = History(evaluations: seq<Evaluation>, log: seq<Event>, decisions: seq<Decision>, rollbacks: seq<Rollback>)

  datatype State = State(active: set<Key>, pending: map<Key, real>, phase: Phase,
                         queue: seq<Job>, hand: Option<Job>, open: set<Key>, past: History)

  const START := State({}, map[], Idle, [], None, {}, History([], [], [], []))

  function SetInactive(s: State, key: Key): State {
    s.(active := s.active - {key}, pending := s.pending - {key})
  }

  function MarkPending(pending: map<Key, real>, key: Key, now: real): map<Key, real> {
    if key in pending then pending else pending[key := now]
  }

  function RollBack(s: State, key: Key): State {
    var s1 := SetInactive(s, key);
    s1.(past := s.past.(log := s.past.log + [RolledBack(key)],
                        rollbacks := s.past.rollbacks + [Rollback(key, |s.past.evaluations|)]),
        phase := if s.phase.Marked? && s.phase.key == key then s.phase.(disturbed := true) else s.phase)
  }

  /** The evaluation of one rule begins: the previous state is read, the rule is evaluated. */
  function Judge(s: State, key: Key, should: bool, now: real, debounce: real): State {
    if s.phase.Idle? then
      s.(phase := Judged(key, should, key in s.active, now, debounce),
         past := s.past.(evaluations := s.past.evaluations + [Evaluation(key, now, should)]))
    else s
  }

  function DecideToRaise(s: State, key: Key, now: real, debounce: real, since: real, earlier: nat, disturbed: bool): State {
    var d := Decision(key, now, debounce, since, |s.past.evaluations|, earlier, |s.past.rollbacks|, disturbed);
    s.(active := s.active + {key}, phase := Raising(key), past := s.past.(decisions := s.past.decisions + [d]))
  }

  /** The next locked section, or queue operation, of the evaluating thread. */
  function Advance(s: State): State {
    match s.phase
    case Idle => s
    case Judged(key, should, prev, now, debounce) =>
      if should && !prev then
        if debounce > 0.0 then
          var pending := MarkPending(s.pending, key, now);
          s.(pending := pending, phase := Marked(key, now, debounce, pending[key], |s.past.rollbacks|, false))
        else DecideToRaise(s, key, now, debounce, now, |s.past.rollbacks|, false)
      else if should then s.(phase := Idle)
      else if prev then SetInactive(s, key).(phase := Clearing(key))
      else s.(phase := Unpending(key))
    case Marked(key, now, debounce, since, earlier, disturbed) =>
      if key in s.pending && now - s.pending[key] < debounce then s.(phase := Idle)
      else DecideToRaise(s, key, now, debounce, since, earlier, disturbed)
    case Raising(key) =>
      if |s.queue| < QUEUE_MAX then
        s.(queue := s.queue + [Raise(key)], phase := Idle, past := s.past.(log := s.past.log + [Raised(key)]))
      else RollBack(s, key).(phase := Idle)
    case Clearing(key) =>
      s.(queue := if |s.queue| < QUEUE_MAX then s.queue + [Clear(key)] else s.queue, phase := Unpending(key),
         past := s.past.(log := s.past.log + [Cleared(key)]))
    case Unpending(key) => s.(pending := s.pending - {key}, phase := Idle)
  }

  /** The notifier thread takes the next job. */
  function Take(s: State): State {
    if s.hand.None? && s.queue != [] then s.(hand := Some(s.queue[0]), queue := s.queue[1..]) else s
  }

  /** ... and is done with it; a raise without an alarm id is rolled back. */
  function Finish(s: State, outcome: Outcome): State {
    match s.hand
    case None => s
    case Some(Clear(key)) => s.(hand := None, open := if outcome.Lost? then s.open else s.open - {key})
    case Some(Raise(key)) =>
      var s1 := s.(hand := None, open := if outcome.Lost? then s.open else s.open + {key});
      if outcome.Stored? then s1 else RollBack(s1, key)
  }

  datatype Action = Evaluate(key: Key, should: bool, now: real, debounce: real) | Proceed | TakeJob | FinishJob(outcome: Outcome)

  function Step(s: State, a: Action): State {
    match a
    case Evaluate(key, should, now, debounce) => Judge(s, key, should, now, debounce)
    case Proceed => Advance(s)
    case TakeJob => Take(s)
    case FinishJob(outcome) => Finish(s, outcome)
  }

  function Run(s: State, actions: seq<Action>): State
    decreases |actions|
  {
    if |actions| == 0 then s else Run(Step(s, actions[0]), actions[1..])
  }

  // ---- Engine and backend agree ----

  /** The jobs under way: the one in hand, the queued ones, the one about to be submitted. */
  function Jobs(s: State): seq<Job> {
    (match s.hand case None => [] case Some(job) => [job]) + s.queue + PhaseJob(s.phase)
  }

  function PhaseJob(phase: Phase): seq<Job> {
    match phase case Raising(key) => [Raise(key)] case Clearing(key) => [Clear(key)] case _ => []
  }

  /** What the jobs make of the backend's open alarms once they are done. */
  function Replay(open: set<Key>, jobs: seq<Job>): set<Key> {
    if |jobs| == 0 then open else
      var before := Replay(open, jobs[..|jobs| - 1]);
      match jobs[|jobs| - 1] case Raise(key) => before + {key} case Clear(key) => before - {key}
  }

  /** For `k`, the backend will end up where the engine is. */
  ghost predicate Agree(s: State, k: Key) {
    k in Replay(s.open, Jobs(s)) <==> k in s.active
  }

  /** The last job for a key decides. */
  function LastJob(jobs: seq<Job>, k: Key): (last: Option<Job>)
    ensures last.Some? ==> last.value.key == k
  {
    if |jobs| == 0 then None
    else if jobs[|jobs| - 1].key == k then Some(jobs[|jobs| - 1])
    else LastJob(jobs[..|jobs| - 1], k)
  }

  lemma {:induction false} ReplayIsLast(open: set<Key>, jobs: seq<Job>, k: Key)
    ensures k in Replay(open, jobs) <==> match LastJob(jobs, k) case Some(job) => job.Raise? case None => k in open
  {
    if jobs != [] {
      ReplayIsLast(open, jobs[..|jobs| - 1], k);
    }
  }

  lemma {:induction false} LastJobConcat(a: seq<Job>, b: seq<Job>, k: Key)
    ensures LastJob(a + b, k) == if LastJob(b, k).Some? then LastJob(b, k) else LastJob(a, k)
    decreases |b|
  {
    if b == [] {
      assert a + b == a;
    } else {
      assert (a + b)[..|a + b| - 1] == a + b[..|b| - 1];
      LastJobConcat(a, b[..|b| - 1], k);
    }
  }

  /** The jobs behind the one in hand. */
  function Later(s: State): seq<Job> {
    s.queue + PhaseJob(s.phase)
  }

  /** How a job of another outcome than success may end without breaking the agreement on its key. */
  predicate HarmlessEnd(s: State, outcome: Outcome) {
    s.hand.Some? ==>
      var k := s.hand.value.key;
      var later := LastJob(Later(s), k);
      if s.hand.value.Raise? then
        match outcome
        case Stored => true
        case Lost => if later.Some? then later.value.Clear? else k !in s.open
        case Unconfirmed => later.Some? && later.value.Clear?
      else !outcome.Lost? || later.Some? || k !in s.open
  }

  lemma {:induction false} OneJob(job: Job, k: Key)
    ensures LastJob([job], k) == if job.key == k then Some(job) else None
  {
    assert [job][..0] == [];
  }

  lemma {:induction false} FinishOther(s: State, outcome: Outcome, k: Key)
    requires s.hand.Some? && s.hand.value.key != k && Agree(s, k)
    ensures Agree(Finish(s, outcome), k)
  {
    FinishJobs(s, outcome, k);
  }

  lemma {:induction false} FinishJobs(s: State, outcome: Outcome, k: Key)
    requires s.hand.Some?
    ensures var s' := Finish(s, outcome);
            && (k in Replay(s'.open, Jobs(s')) <==>
                match LastJob(Later(s), k) case Some(job) => job.Raise? case None => k in s'.open)
            && (k in Replay(s.open, Jobs(s)) <==>
                match LastJob(Later(s), k)
                case Some(job) => job.Raise?
                case None => if s.hand.value.key == k then s.hand.value.Raise? else k in s.open)
  {
    var s' := Finish(s, outcome);
    assert Jobs(s') == Later(s);
    assert Jobs(s) == [s.hand.value] + Later(s);
    LastJobConcat([s.hand.value], Later(s), k);
    OneJob(s.hand.value, k);
    ReplayIsLast(s.open, Jobs(s), k);
    ReplayIsLast(s'.open, Jobs(s'), k);
  }

  /** The exact side condition: a finished job keeps the agreement on its key if and only if its end is harmless. */
  lemma {:induction false} FinishKeepsAgreement(s: State, outcome: Outcome)
    requires s.hand.Some? && Agree(s, s.hand.value.key)
    ensures Agree(Finish(s, outcome), s.hand.value.key) <==> HarmlessEnd(s, outcome)
  {
    FinishJobs(s, outcome, s.hand.value.key);
  }

  /** Dropping at a full queue: a raise that is dropped is rolled back, a clear is only counted. */
  predicate HarmlessDrop(s: State) {
    |s.queue| >= QUEUE_MAX && PhaseJob(s.phase) != [] ==> PhaseJob(s.phase)[0].key !in Replay(s.open, Before(s))
  }

  function Before(s: State): seq<Job> {
    (match s.hand case None => [] case Some(job) => [job]) + s.queue
  }

  lemma {:induction false} ReplaySnoc(open: set<Key>, jobs: seq<Job>, job: Job)
    ensures Replay(open, jobs + [job]) ==
              if job.Raise? then Replay(open, jobs) + {job.key} else Replay(open, jobs) - {job.key}
  {
    assert (jobs + [job])[..|jobs|] == jobs;
  }

  lemma {:induction false} SubmitJobs(s: State, job: Job)
    requires (s.phase.Raising? || s.phase.Clearing?) && PhaseJob(s.phase) == [job]
    ensures Jobs(s) == Before(s) + [job] && Advance(s).open == s.open
    ensures Jobs(Advance(s)) == if |s.queue| < QUEUE_MAX then Before(s) + [job] else Before(s)
    ensures Advance(s).active == if job.Raise? && |s.queue| >= QUEUE_MAX then s.active - {job.key} else s.active
  {
  }

  /** Submitting a job: it is queued, or dropped with the effect of its kind. */
  lemma {:induction false} SubmitKeepsAgreement(s: State, k: Key)
    requires Agree(s, k) && (s.phase.Raising? || s.phase.Clearing?)
    ensures HarmlessDrop(s) ==> Agree(Advance(s), k)
    ensures !HarmlessDrop(s) && s.phase.key == k ==> !Agree(Advance(s), k)
  {
    var job := if s.phase.Raising? then Raise(s.phase.key) else Clear(s.phase.key);
    SubmitJobs(s, job);
    ReplaySnoc(s.open, Before(s), job);
  }

  lemma {:induction false} DecideJobs(s: State)
    requires !s.phase.Raising? && !s.phase.Clearing?
    ensures Advance(s).open == s.open && Jobs(Advance(s)) == Jobs(s) + PhaseJob(Advance(s).phase)
  {
  }

  lemma {:induction false} DecideKeepsAgreement(s: State, k: Key)
    requires Agree(s, k) && !s.phase.Raising? && !s.phase.Clearing?
    ensures Agree(Advance(s), k)
  {
    var s' := Advance(s);
    var jobs, more := Jobs(s), PhaseJob(s'.phase);
    DecideJobs(s);
    if |more| > 0 {
      assert more == [more[0]];
      ReplaySnoc(s.open, jobs, more[0]);
    } else {
      assert jobs + more == jobs;
    }
  }

  ghost predicate AllAgree(s: State) {
    forall k :: Agree(s, k)
  }

  predicate Harmless(s: State, a: Action) {
    match a case Proceed => HarmlessDrop(s) case FinishJob(outcome) => HarmlessEnd(s, outcome) case _ => true
  }

  lemma {:induction false} StepKeepsAgreement(s: State, a: Action)
    requires AllAgree(s) && Harmless(s, a)
    ensures AllAgree(Step(s, a))
  {
    forall k
      ensures Agree(Step(s, a), k)
    {
      assert Agree(s, k);
      match a
      case Evaluate(_, _, _, _) => assert Jobs(Step(s, a)) == Jobs(s);
      case Proceed =>
        if s.phase.Raising? || s.phase.Clearing? {
          SubmitKeepsAgreement(s, k);
        } else {
          DecideKeepsAgreement(s, k);
        }
      case TakeJob => assert Jobs(Take(s)) == Jobs(s);
      case FinishJob(outcome) =>
        if s.hand.Some? && s.hand.value.key == k {
          FinishKeepsAgreement(s, outcome);
        } else if s.hand.Some? {
          FinishOther(s, outcome, k);
        }
    }
  }

  ghost predicate HarmlessRun(s: State, actions: seq<Action>)
    decreases |actions|
  {
    |actions| == 0 || (Harmless(s, actions[0]) && HarmlessRun(Step(s, actions[0]), actions[1..]))
  }

  /** Notifier simulation: replaying the jobs under way onto the backend's open alarms yields exactly the engine's
      active set, after every step of every run in which each loss is harmless. */
  lemma {:induction false} NotifierSimulates(s: State, actions: seq<Action>)
    requires AllAgree(s) && HarmlessRun(s, actions)
    ensures Replay(Run(s, actions).open, Jobs(Run(s, actions))) == Run(s, actions).active
    ensures AllAgree(Run(s, actions))
    decreases |actions|
  {
    if actions == [] {
      forall k
        ensures k in Replay(s.open, Jobs(s)) <==> k in s.active
      {
        assert Agree(s, k);
      }
    } else {
      StepKeepsAgreement(s, actions[0]);
      NotifierSimulates(Step(s, actions[0]), actions[1..]);
    }
  }

  lemma {:induction false} StartAgrees()
    ensures AllAgree(START)
  {
  }

  // ---- The documented condition is harmless ----

  /** No clear is dropped or fails, and no raise fails while a later job for its key is under way; and a raise that fails
      has not reached the backend. */
  predicate Benign(s: State, a: Action) {
    match a
    case FinishJob(outcome) =>
      s.hand.Some? && outcome != Stored ==>
        s.hand.value.Raise? && outcome == Lost && LastJob(Later(s), s.hand.value.key).None?
    case Proceed => s.phase.Clearing? ==> |s.queue| < QUEUE_MAX
    case _ => true
  }

  /** A raise under way is for an alarm that is not open by then. */
  ghost predicate RaisesFresh(open: set<Key>, jobs: seq<Job>) {
    forall i | 0 <= i < |jobs| && jobs[i].Raise? :: jobs[i].key !in Replay(open, jobs[..i])
  }

  lemma {:induction false} ReplayDrop(open: set<Key>, jobs: seq<Job>)
    requires jobs != []
    ensures Replay(open, jobs) == Replay(if jobs[0].Raise? then open + {jobs[0].key} else open - {jobs[0].key}, jobs[1..])
  {
    var n := |jobs| - 1;
    if n > 0 {
      ReplayDrop(open, jobs[..n]);
      assert jobs[..n][1..] == jobs[1..][..n - 1];
    } else {
      assert jobs[..0] == [] && jobs[1..] == [];
    }
  }

  lemma {:induction false} FreshSnoc(open: set<Key>, jobs: seq<Job>, job: Job)
    requires RaisesFresh(open, jobs) && (job.Raise? ==> job.key !in Replay(open, jobs))
    ensures RaisesFresh(open, jobs + [job])
  {
    forall i | 0 <= i < |jobs| + 1 && (jobs + [job])[i].Raise?
      ensures (jobs + [job])[i].key !in Replay(open, (jobs + [job])[..i])
    {
      assert (jobs + [job])[..i] == if i < |jobs| then jobs[..i] else jobs;
    }
  }

  /** The first job done successfully leaves the others fresh. */
  lemma {:induction false} FreshTail(open: set<Key>, jobs: seq<Job>)
    requires RaisesFresh(open, jobs) && jobs != []
    ensures RaisesFresh(if jobs[0].Raise? then open + {jobs[0].key} else open - {jobs[0].key}, jobs[1..])
  {
    forall i | 0 <= i < |jobs| - 1 && jobs[1..][i].Raise?
      ensures jobs[1..][i].key !in Replay(if jobs[0].Raise? then open + {jobs[0].key} else open - {jobs[0].key}, jobs[1..][..i])
    {
      assert jobs[..i + 1][1..] == jobs[1..][..i];
      ReplayDrop(open, jobs[..i + 1]);
    }
  }

  /** A raise lost with no later job for its key leaves the others fresh as well. */
  lemma {:induction false} FreshLost(open: set<Key>, jobs: seq<Job>, k: Key)
    requires RaisesFresh(open + {k}, jobs) && LastJob(jobs, k).None?
    ensures RaisesFresh(open, jobs)
  {
    forall i | 0 <= i < |jobs| && jobs[i].Raise?
      ensures jobs[i].key !in Replay(open, jobs[..i])
    {
      ReplayIsLast(open, jobs[..i], jobs[i].key);
      ReplayIsLast(open + {k}, jobs[..i], jobs[i].key);
    }
  }

  ghost predicate Consistent(s: State) {
    AllAgree(s) && RaisesFresh(s.open, Jobs(s)) && DecidesInactive(s)
  }

  /** The evaluating thread goes on to raise only an alarm that is not active. */
  predicate DecidesInactive(s: State) {
    (s.phase.Judged? && !s.phase.prev) || s.phase.Marked? ==> s.phase.key !in s.active
  }

  lemma {:induction false} DecidedFresh(s: State)
    requires Consistent(s) && (s.phase.Judged? || s.phase.Marked?) && Advance(s).phase.Raising?
    ensures Advance(s).phase.key !in Replay(s.open, Jobs(s))
  {
    assert Agree(s, s.phase.key);
  }

  lemma {:induction false} BenignIsHarmless(s: State, a: Action)
    requires Consistent(s) && Benign(s, a)
    ensures Harmless(s, a)
  {
    if a.Proceed? && s.phase.Raising? {
      assert Jobs(s) == Before(s) + [Raise(s.phase.key)];
      assert Jobs(s)[..|Before(s)|] == Before(s);
      assert Jobs(s)[|Before(s)|] == Raise(s.phase.key);
    } else if a.FinishJob? && s.hand.Some? {
      assert Jobs(s)[0] == s.hand.value && Jobs(s)[..0] == [];
    }
  }

  lemma {:induction false} FinishLater(s: State, outcome: Outcome)
    requires s.hand.Some?
    ensures |Jobs(s)| > 0 && Jobs(s)[0] == s.hand.value && Jobs(s)[1..] == Later(s) == Jobs(Finish(s, outcome))
  {
  }

  lemma {:induction false} FinishStaysFresh(s: State, outcome: Outcome)
    requires Consistent(s) && Benign(s, FinishJob(outcome))
    ensures RaisesFresh(Finish(s, outcome).open, Jobs(Finish(s, outcome)))
  {
    if s.hand.Some? {
      FinishLater(s, outcome);
      FreshTail(s.open, Jobs(s));
      if outcome.Lost? {
        FreshLost(s.open, Later(s), s.hand.value.key);
      }
    }
  }

  lemma {:induction false} FreshPrefix(open: set<Key>, jobs: seq<Job>, job: Job)
    requires RaisesFresh(open, jobs + [job])
    ensures RaisesFresh(open, jobs)
  {
    forall i | 0 <= i < |jobs| && jobs[i].Raise?
      ensures jobs[i].key !in Replay(open, jobs[..i])
    {
      assert (jobs + [job])[i] == jobs[i] && (jobs + [job])[..i] == jobs[..i];
    }
  }

  lemma {:induction false} SubmitStaysFresh(s: State)
    requires RaisesFresh(s.open, Jobs(s)) && (s.phase.Raising? || s.phase.Clearing?)
    ensures RaisesFresh(Advance(s).open, Jobs(Advance(s)))
  {
    var job := PhaseJob(s.phase)[0];
    assert Jobs(s) == Before(s) + [job];
    if |s.queue| < QUEUE_MAX {
      assert Jobs(Advance(s)) == Jobs(s);
    } else {
      assert Jobs(Advance(s)) == Before(s);
      FreshPrefix(s.open, Before(s), job);
    }
  }

  lemma {:induction false} DecideStaysFresh(s: State, s': State)
    requires Consistent(s) && s' == Advance(s) && !s.phase.Raising? && !s.phase.Clearing?
    ensures RaisesFresh(s'.open, Jobs(s'))
  {
    DecideJobs(s);
    var jobs := Jobs(s);
    if PhaseJob(s'.phase) != [] {
      if s'.phase.Raising? {
        DecidedFresh(s);
      }
      FreshSnoc(s.open, jobs, PhaseJob(s'.phase)[0]);
      assert Jobs(s') == jobs + [PhaseJob(s'.phase)[0]];
    } else {
      assert Jobs(s') == jobs;
    }
  }

  lemma {:induction false} ConsistentStep(s: State, a: Action)
    requires Consistent(s) && Benign(s, a)
    ensures Consistent(Step(s, a))
  {
    BenignIsHarmless(s, a);
    StepKeepsAgreement(s, a);
    match a
    case Evaluate(_, _, _, _) => assert Jobs(Step(s, a)) == Jobs(s);
    case Proceed =>
      if s.phase.Raising? || s.phase.Clearing? {
        SubmitStaysFresh(s);
      } else {
        DecideStaysFresh(s, Advance(s));
      }
    case TakeJob => assert Jobs(Step(s, a)) == Jobs(s);
    case FinishJob(outcome) => FinishStaysFresh(s, outcome);
  }

  ghost predicate BenignRun(s: State, actions: seq<Action>)
    decreases |actions|
  {
    |actions| == 0 || (Benign(s, actions[0]) && BenignRun(Step(s, actions[0]), actions[1..]))
  }

  // ---- Raises and clears alternate ----

  /** The last event of a key, and the last that is not a rollback. */
  function Latest(log: seq<Event>, k: Key): Option<Event> {
    if |log| == 0 then None
    else if log[|log| - 1].key == k then Some(log[|log| - 1])
    else Latest(log[..|log| - 1], k)
  }

  function LatestSubmit(log: seq<Event>, k: Key): Option<Event> {
    if |log| == 0 then None
    else if log[|log| - 1].key == k && !log[|log| - 1].RolledBack? then Some(log[|log| - 1])
    else LatestSubmit(log[..|log| - 1], k)
  }

  /** A clear follows a raise; a raise follows a clear, or a rollback, or nothing. */
  predicate MayFollow(log: seq<Event>, event: Event) {
    match event
    case Raised(k) => Latest(log, k) != Some(Raised(k))
    case Cleared(k) => LatestSubmit(log, k) == Some(Raised(k))
    case RolledBack(_) => true
  }

  predicate Alternates(log: seq<Event>) {
    forall i | 0 <= i < |log| :: MayFollow(log[..i], log[i])
  }

  /** What the log says of one key. */
  predicate Logged(s: State, k: Key) {
    var raised := Some(Raised(k));
    && (Latest(s.past.log, k) == raised ==> LatestSubmit(s.past.log, k) == raised)
    && (if s.phase == Raising(k) then k in s.active && Latest(s.past.log, k) != raised
        else if s.phase == Clearing(k) then LatestSubmit(s.past.log, k) == raised && k !in s.active
        else k in s.active <==> Latest(s.past.log, k) == raised)
    && (s.phase.Judged? && s.phase.key == k && s.phase.prev ==> LatestSubmit(s.past.log, k) == raised)
  }

  ghost predicate AllLogged(s: State) {
    Alternates(s.past.log) && forall k :: Logged(s, k)
  }

  lemma {:induction false} LatestSnoc(log: seq<Event>, event: Event, k: Key)
    ensures Latest(log + [event], k) == if event.key == k then Some(event) else Latest(log, k)
    ensures LatestSubmit(log + [event], k) ==
            if event.key == k && !event.RolledBack? then Some(event) else LatestSubmit(log, k)
  {
    assert (log + [event])[..|log|] == log;
  }

  lemma {:induction false} AlternatesSnoc(log: seq<Event>, event: Event)
    requires Alternates(log) && MayFollow(log, event)
    ensures Alternates(log + [event])
  {
    forall i | 0 <= i <= |log|
      ensures MayFollow((log + [event])[..i], (log + [event])[i])
    {
      assert (log + [event])[..i] == if i < |log| then log[..i] else log;
    }
  }

  lemma {:induction false} RollBackLogged(s: State, key: Key)
    requires AllLogged(s) && s.phase != Raising(key)
    ensures AllLogged(RollBack(s, key))
  {
    AlternatesSnoc(s.past.log, RolledBack(key));
    forall k
      ensures Logged(RollBack(s, key), k)
    {
      assert Logged(s, k);
      LatestSnoc(s.past.log, RolledBack(key), k);
    }
  }

  lemma {:induction false} SubmitLogged(s: State)
    requires AllLogged(s) && (s.phase.Raising? || s.phase.Clearing?)
    ensures AllLogged(Advance(s))
  {
    var s' := Advance(s);
    var key := s.phase.key;
    var event := if s.phase.Clearing? then Cleared(key) else if |s.queue| < QUEUE_MAX then Raised(key) else RolledBack(key);
    assert s'.past.log == s.past.log + [event];
    assert Logged(s, key);
    AlternatesSnoc(s.past.log, event);
    forall k
      ensures Logged(s', k)
    {
      assert Logged(s, k);
      LatestSnoc(s.past.log, event, k);
    }
  }

  lemma {:induction false} AdvanceLogged(s: State)
    requires AllLogged(s) && DecidesInactive(s)
    ensures AllLogged(Advance(s))
  {
    if s.phase.Raising? || s.phase.Clearing? {
      SubmitLogged(s);
    } else {
      forall k
        ensures Logged(Advance(s), k)
      {
        assert Logged(s, k);
      }
    }
  }

  lemma {:induction false} LoggedStep(s: State, a: Action)
    requires AllLogged(s) && DecidesInactive(s) && Benign(s, a)
    ensures AllLogged(Step(s, a))
  {
    match a
    case Proceed => AdvanceLogged(s);
    case FinishJob(outcome) =>
      if s.hand.Some? && outcome != Stored {
        var key := s.hand.value.key;
        LastJobConcat(s.queue, PhaseJob(s.phase), key);
        if s.phase == Raising(key) {
          OneJob(Raise(key), key);
        }
        var s1 := s.(hand := None);
        forall k
          ensures Logged(s1, k)
        {
          assert Logged(s, k);
        }
        RollBackLogged(s1, key);
      } else {
        forall k
          ensures Logged(Step(s, a), k)
        {
          assert Logged(s, k);
        }
      }
    case _ =>
      forall k
        ensures Logged(Step(s, a), k)
      {
        assert Logged(s, k);
      }
  }

  /** In every run where no clear is dropped or fails, no raise fails while a later job for its key is under way, and none
      is stored without being confirmed:
      the jobs under way take the backend's open alarms to the engine's active set, and the raises and clears of each
      key alternate except across a rollback. */
  lemma {:induction false} BenignRunsAgree(s: State, actions: seq<Action>)
    requires Consistent(s) && AllLogged(s) && BenignRun(s, actions)
    ensures var end := Run(s, actions);
            && Replay(end.open, Jobs(end)) == end.active
            && Alternates(end.past.log)
            && Consistent(end) && AllLogged(end)
    decreases |actions|
  {
    if actions == [] {
      NotifierSimulates(s, []);
    } else {
      ConsistentStep(s, actions[0]);
      LoggedStep(s, actions[0]);
      BenignRunsAgree(Step(s, actions[0]), actions[1..]);
    }
  }

  lemma {:induction false} StartIsConsistent()
    ensures Consistent(START) && AllLogged(START)
  {
    StartAgrees();
    forall k
      ensures Logged(START, k)
    {
    }
  }

  // ---- Runs put together ----

  lemma {:induction false} RunConcat(s: State, a: seq<Action>, b: seq<Action>)
    ensures Run(s, a + b) == Run(Run(s, a), b)
    decreases |a|
  {
    if a == [] {
      assert a + b == b;
    } else {
      assert (a + b)[1..] == a[1..] + b;
      RunConcat(Step(s, a[0]), a[1..], b);
    }
  }

  lemma {:induction false} RunThree(s: State, a: Action, b: Action, c: Action)
    ensures Run(s, [a, b, c]) == Step(Step(Step(s, a), b), c)
  {
    assert [a, b, c][1..] == [b, c] && [b, c][1..] == [c] && [c][1..] == [];
    var s1 := Step(s, a);
    assert Run(s1, [b, c]) == Run(Step(s1, b), [c]);
  }

  /** The failure that is not benign: the backend stores a raise, but no alarm id comes back. The engine rolls back, the
      alarm stays open, and when the condition is over nothing is sent to close it. */
  lemma {:induction false} UnconfirmedStaysOpen(k: Key) returns (actions: seq<Action>)
    ensures FinishJob(Unconfirmed) in actions && FinishJob(Lost) !in actions
    ensures var end := Run(START, actions);
            && end.phase.Idle? && Jobs(end) == [] && k in end.open && k !in end.active && !Agree(end, k)
            && end.past.evaluations == [Evaluation(k, 0.0, true), Evaluation(k, 1.0, false)]
  {
    var raise := [Evaluate(k, true, 0.0, 0.0), Proceed, Proceed];
    var fail := [TakeJob, FinishJob(Unconfirmed), Evaluate(k, false, 1.0, 0.0)];
    RunThree(START, raise[0], Proceed, Proceed);
    var s1 := Run(START, raise);
    assert s1.queue == [Raise(k)] && s1.phase.Idle?;
    RunThree(s1, TakeJob, fail[1], fail[2]);
    var s2 := Run(s1, fail);
    RunThree(s2, Proceed, Proceed, Proceed);
    RunConcat(START, raise, fail);
    RunConcat(START, raise + fail, [Proceed, Proceed, Proceed]);
    actions := raise + fail + [Proceed, Proceed, Proceed];
  }
}
