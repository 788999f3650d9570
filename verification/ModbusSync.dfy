/** When the synchroniser fetches everything and when only what has changed. A fetch suspends: plan changes, which ask for a
    full refresh, come in between. */
module ModbusSync {
  import opened Prelude

  const FULL_PERIOD := 20

  /** The backend's answer; `newest` is the stamp it reports, if any. */
  datatype Answer = Answer(newest: Option<int>)

  /** `since` is the threshold of the next fetch, None for everything; `flight` that of the fetch under way. The rest is
      history: successful fetches in a row that were not full. */
  datatype Sync = Sync(since: Option<int>, flight: Option<Option<int>>, refreshes: nat, partial: nat)

  const FRESH := Sync(None, None, 0, 0)

  datatype Action =
    | Request                        // a plan change
    | Begin(targets: bool)           // a tick; without targets there is nothing to fetch for
    | End(answer: Option<Answer>)    // the fetch ends; None is a failure

  function Threshold(s: Sync): Option<int> {
    if s.refreshes > 0 && s.refreshes % FULL_PERIOD == 0 then None else s.since
  }

  function Step(s: Sync, a: Action): Sync {
    match a
    case Request => s.(since := None)
    case Begin(targets) =>
      if s.flight.Some? || !targets then s else s.(since := Threshold(s), flight := Some(Threshold(s)))
    case End(answer) =>
      if s.flight.None? then s
      else match answer
        case None => s.(flight := None)
        case Some(Answer(newest)) =>
          Sync(if newest.Some? then newest else s.since, None, s.refreshes + 1, if s.flight.value.None? then 0 else s.partial + 1)
  }

  function Run(s: Sync, actions: seq<Action>): Sync {
    if |actions| == 0 then s else Step(Run(s, actions[..|actions| - 1]), actions[|actions| - 1])
  }

  /** The fetch under way asks for everything. */
  predicate Full(s: Sync) {
    s.flight == Some(None)
  }

  // ---- Full fetches come back ----

  predicate Periodic(s: Sync) {
    && (s.refreshes == 0 ==> s.since.None? && s.partial == 0)
    && (s.flight.Some? && s.flight.value.Some? ==> s.refreshes % FULL_PERIOD != 0)
    && (s.refreshes > 0 ==> s.partial <= (s.refreshes - 1) % FULL_PERIOD)
  }

  lemma {:induction false} PeriodicStep(s: Sync, a: Action)
    requires Periodic(s)
    ensures Periodic(Step(s, a))
  {
  }

  /** In every run, however requests, failures and answers interleave, fewer than twenty fetches in a row are not full. */
  lemma {:induction false} FullRecurs(actions: seq<Action>)
    ensures Periodic(Run(FRESH, actions)) && Run(FRESH, actions).partial < FULL_PERIOD
  {
    if actions != [] {
      FullRecurs(actions[..|actions| - 1]);
      PeriodicStep(Run(FRESH, actions[..|actions| - 1]), actions[|actions| - 1]);
    }
  }

  // ---- A requested refresh ----

  /** Between a request and the next tick: only further requests, ticks that find no target or a fetch under way, and the
      end of that fetch. */
  predicate NoFetchBegins(s: Sync, actions: seq<Action>) {
    forall i | 0 <= i < |actions| :: actions[i].Begin? ==> !actions[i].targets || Run(s, actions[..i]).flight.Some?
  }

  lemma {:induction false} IdleStays(s: Sync, actions: seq<Action>)
    requires s.flight.None? && s.since.None? && NoFetchBegins(s, actions)
    ensures Run(s, actions) == s
  {
    if actions != [] {
      var n := |actions| - 1;
      forall i | 0 <= i < n
        ensures actions[..n][..i] == actions[..i]
      {
      }
      assert NoFetchBegins(s, actions[..n]);
      IdleStays(s, actions[..n]);
      assert actions[n].Begin? ==> !actions[n].targets;
    }
  }

  /** A refresh that is requested with no fetch under way is full, whatever comes between. */
  lemma {:induction false} IdleRequestIsFull(s: Sync, between: seq<Action>)
    requires s.flight.None? && NoFetchBegins(Step(s, Request), between)
    ensures Full(Step(Run(Step(s, Request), between), Begin(true)))
  {
    IdleStays(Step(s, Request), between);
  }

  /** A request that comes while a fetch is under way, which then ends with `answer`: everything is fetched, by that fetch
      itself or by the next one, exactly unless the fetch is not full, succeeds, reports a stamp, and is not the last of a
      period. */
  lemma {:induction false} BusyRequestIsServed(s: Sync, answer: Option<Answer>)
    requires s.flight.Some?
    ensures var ended := Step(Step(s, Request), End(answer));
            (Full(s) && answer.Some?) || Full(Step(ended, Begin(true)))
            <==> !(s.flight.value.Some? && answer.Some? && answer.value.newest.Some? && (s.refreshes + 1) % FULL_PERIOD != 0)
  {
  }

  /** What the next fetch asks for, after one that has succeeded: everything at every twentieth, and otherwise what has
      changed since the stamp of the answer, or since the threshold before if the answer has none. After a failure it asks
      the same again. */
  lemma {:induction false} AsksSinceNewest(s: Sync, newest: Option<int>)
    requires s.flight.Some?
    ensures Step(Step(s, End(Some(Answer(newest)))), Begin(true)).flight ==
            Some(if (s.refreshes + 1) % 20 == 0 then None else if newest.Some? then newest else s.since)
    ensures Step(Step(s, End(None)), Begin(true)).flight ==
            Some(if s.refreshes > 0 && s.refreshes % 20 == 0 then None else s.since)
  {
  }

  lemma {:induction false} RunSnoc(s: Sync, actions: seq<Action>, a: Action)
    ensures Run(s, actions + [a]) == Step(Run(s, actions), a)
  {
    assert (actions + [a])[..|actions|] == actions;
  }

  /** Such a request is lost: from the start, the second fetch is under way when the plan changes, and the third fetches only
      what has changed since. */
  lemma {:induction false} RequestIsLost(first: int, second: int) returns (actions: seq<Action>)
    ensures var before := Run(FRESH, actions);
            && before.flight == Some(Some(first)) && !Full(before)
            && Run(FRESH, actions + [Request, End(Some(Answer(Some(second)))), Begin(true)]).flight == Some(Some(second))
  {
    actions := [] + [Begin(true)] + [End(Some(Answer(Some(first))))] + [Begin(true)];
    RunSnoc(FRESH, [], Begin(true));
    RunSnoc(FRESH, [] + [Begin(true)], End(Some(Answer(Some(first)))));
    RunSnoc(FRESH, [] + [Begin(true)] + [End(Some(Answer(Some(first))))], Begin(true));
    RunSnoc(FRESH, actions, Request);
    RunSnoc(FRESH, actions + [Request], End(Some(Answer(Some(second)))));
    RunSnoc(FRESH, actions + [Request] + [End(Some(Answer(Some(second))))], Begin(true));
    assert actions + [Request, End(Some(Answer(Some(second)))), Begin(true)]
           == actions + [Request] + [End(Some(Answer(Some(second))))] + [Begin(true)];
  }

  /** The synchroniser as it is written; a tick is cut where it awaits the fetch. */
  class Syncer {
    var since: Option<int>
    var refreshes: nat
    ghost var flight: Option<Option<int>>
    ghost var partial: nat

    ghost function View(): Sync
      reads this
    {
      Sync(since, flight, refreshes, partial)
    }

    constructor ()
      ensures View() == FRESH
    {
      since, refreshes, flight, partial := None, 0, None, 0;
    }

    method RequestRefresh()
      modifies this`since
      ensures View() == Step(old(View()), Request)
    {
      since := None;
    }

    /** Up to the fetch; `threshold` is what the backend is asked with. */
    method BeginTick(targets: bool) returns (fetch: bool, threshold: Option<int>)
      requires flight.None?
      modifies this
      ensures View() == Step(old(View()), Begin(targets))
      ensures fetch == targets && (fetch ==> flight == Some(threshold))
    {
      fetch, threshold := targets, None;
      if !targets {
        return;
      }
      if refreshes > 0 && refreshes % FULL_PERIOD == 0 {
        since := None;
      }
      threshold := since;
      flight := Some(since);
    }

    /** From the fetch to the rows, which are then applied in slices. */
    method EndTick(answer: Option<Answer>)
      requires flight.Some?
      modifies this
      ensures View() == Step(old(View()), End(answer))
    {
      if answer.Some? {
        refreshes := refreshes + 1;
        if answer.value.newest.Some? {
          since := answer.value.newest;
        }
        partial := if flight.value.None? then 0 else partial + 1;
      }
      flight := None;
    }
  }
}
