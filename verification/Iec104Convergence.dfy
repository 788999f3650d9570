/** The SCADA image converges to the server's values: an answered interrogation settles the points of its address, and a
    settled point stays settled. */
module Iec104Convergence {
  import opened Prelude
  import opened Iec104Apci
  import opened Iec104Points
  import opened Iec104Session
  import opened Iec104SessionInvariants
  import opened Iec104Image
  import opened Iec104Values

  // ---- Settling ----

  /** The interrogation task is about to report `p`. */
  predicate AboutToReport(w: World, p: Point) {
    var task := w.s.gi.task;
    task.Task? && task.held.None? && task.todo != [] && task.todo[0] == Report(p)
  }

  lemma {:induction false} MadeReport(gi: GiSide, values: Values, p: Point)
    requires gi.task.Task? && gi.task.held.None? && gi.task.todo != [] && gi.task.todo[0] == Report(p)
    ensures PutGi(gi, values).made[|gi.made|..] == [Measure(p, values, Interrogated)]
  {
  }

  /** Putting the frame of `p` settles it exactly when no stale spontaneous frame of `p` waits behind it. */
  lemma {:induction false} ReportSettles(cfg: Config, w: World, p: Point)
    requires GiBounded(w.s.gi) && AboutToReport(w, p)
    ensures Settled(Step(cfg, w, Interrogate), p) <==> OutboxCurrent(w, p)
  {
    var s' := GiStep(w.s, w.values);
    ReportLast(w, p);
    assert Step(cfg, w, Interrogate) == World(w.values, s');
    SettledByParts(World(w.values, s'), p);
  }

  lemma {:induction false} SettledByParts(w: World, p: Point)
    ensures Settled(w, p) <==>
            (if LastFor(w.s.out.queue, AddressOf(p)).Some? then OutboxCurrent(w, p)
             else LastFor(Before(w.s), AddressOf(p)) == Some(Current(p, w.values)))
  {
    SettledByStream(w, p);
    LastForConcat(Before(w.s), w.s.out.queue, AddressOf(p));
  }

  lemma {:induction false} ReportLast(w: World, p: Point)
    requires GiBounded(w.s.gi) && AboutToReport(w, p)
    ensures var s' := GiStep(w.s, w.values);
            LastFor(Before(s'), AddressOf(p)) == Some(Current(p, w.values)) && s'.out == w.s.out
  {
    InterrogateStream(w.s, w.values);
    MadeReport(w.s.gi, w.values, p);
    LastForOne(Measure(p, w.values, Interrogated), AddressOf(p));
    LastForConcat(Before(w.s), [Measure(p, w.values, Interrogated)], AddressOf(p));
  }

  lemma {:induction false} PlanInRegistry(cfg: Config, answered: seq<nat>, i: nat)
    requires i < |Plan(cfg, answered)| && Plan(cfg, answered)[i].Report?
    ensures Plan(cfg, answered)[i].p in cfg.points
  {
    var n := |answered| - 1;
    var earlier := Plan(cfg, answered[..n]);
    if i < |earlier| {
      PlanInRegistry(cfg, answered[..n], i);
    } else {
      var script := Script(cfg, answered[n]);
      assert Plan(cfg, answered)[i] == script[i - |earlier|];
      ReportsInRegistry(cfg.points, answered[n], i - |earlier| - 1);
    }
  }

  lemma {:induction false} ReportsInRegistry(points: seq<Point>, ca: nat, i: nat)
    requires i < |Reports(points, ca)|
    ensures Reports(points, ca)[i].Report? && Reports(points, ca)[i].p in points && InScope(Reports(points, ca)[i].p, ca)
  {
    var first := if InScope(points[0], ca) then 1 else 0;
    if i >= first {
      ReportsInRegistry(points[1..], ca, i - first);
    }
  }

  /** A frame the interrogation task makes says nothing about `p`, or shows its current reading. */
  lemma {:induction false} MadeIsCurrent(cfg: Config, w: World, p: Point)
    requires Inv(cfg, w.s) && Distinct(cfg.points) && p in cfg.points && !w.s.link.ended
    ensures var made := PutGi(w.s.gi, w.values).made[|w.s.gi.made|..];
            var last := LastFor(made, AddressOf(p));
            last.None? || last.value == Current(p, w.values)
  {
    var gi := w.s.gi;
    var made := PutGi(gi, w.values).made[|gi.made|..];
    if gi.task.Task? && gi.task.held.None? && gi.task.todo != [] {
      var item := gi.task.todo[0];
      assert made == [Produce(item, w.values)];
      LastForOne(Produce(item, w.values), AddressOf(p));
      assert Plan(cfg, gi.answered)[|gi.made|] == item;
      if item.Report? {
        PlanInRegistry(cfg, gi.answered, |gi.made|);
      }
    } else {
      assert made == [];
    }
  }

  lemma {:induction false} InterrogateKeeps(cfg: Config, w: World, p: Point)
    requires Inv(cfg, w.s) && Distinct(cfg.points) && p in cfg.points && !w.s.link.ended
    requires OutboxCurrent(w, p)
    ensures OutboxCurrent(Step(cfg, w, Interrogate), p)
    ensures Settled(w, p) ==> Settled(Step(cfg, w, Interrogate), p)
  {
    var w' := Step(cfg, w, Interrogate);
    var addr := AddressOf(p);
    var made := w'.s.gi.made[|w.s.gi.made|..];
    InterrogateStream(w.s, w.values);
    MadeIsCurrent(cfg, w, p);
    LastForConcat(Before(w.s), made, addr);
    LastForConcat(Before(w.s), w.s.out.queue, addr);
    LastForConcat(Before(w'.s), w'.s.out.queue, addr);
    SettledByStream(w, p);
    SettledByStream(w', p);
  }

  lemma {:induction false} StepKeepsOther(cfg: Config, w: World, a: Action, p: Point)
    requires Inv(cfg, w.s) && Distinct(cfg.points) && p in cfg.points
    requires !a.Telemetry? && OutboxCurrent(w, p)
    requires Live(Step(cfg, w, a).s.link)
    ensures OutboxCurrent(Step(cfg, w, a), p)
    ensures Settled(w, p) ==> Settled(Step(cfg, w, a), p)
  {
    var w' := Step(cfg, w, a);
    var addr := AddressOf(p);
    SettledByStream(w, p);
    SettledByStream(w', p);
    LivesOn(cfg, w.s, w.values, a);
    LastForConcat(Before(w.s), w.s.out.queue, addr);
    LastForConcat(Before(w'.s), w'.s.out.queue, addr);
    match a
    case Write =>
      WritePipeline(w.s);
      DrainQueues(w.s);
      MovedStream(w.s, w'.s);
      if OutAfter(w.s) != w.s.out {
        LastForTail(w.s.out.queue, 1, addr);
      }
    case SendReply(id) => BeforeOfReply(w.s, id, addr);
    case Interrogate => InterrogateKeeps(cfg, w, p);
    case _ => OtherStream(cfg, w.s, w.values, a);
  }

  /** An update never drops the only frame of `p` from the spontaneous queue. */
  predicate Spares(cfg: Config, w: World, a: Action, p: Point) {
    LastFor(w.s.out.queue, AddressOf(p)).Some? && a.Telemetry? ==>
      LastFor(Step(cfg, w, a).s.out.queue, AddressOf(p)).Some?
  }

  lemma {:induction false} TelemetryKeeps(cfg: Config, w: World, key: Key, v: PointValue, p: Point)
    requires Inv(cfg, w.s) && Distinct(cfg.points) && p in cfg.points
    requires OutboxCurrent(w, p) && !w.s.link.closed && w.s.link.started
    ensures OutboxCurrent(Update(cfg, w, key, v), p)
    ensures Settled(w, p) && Spares(cfg, w, Telemetry(key, v), p) ==> Settled(Update(cfg, w, key, v), p)
    ensures key == p.key && !(key in w.values && w.values[key] == v) ==> Settled(Update(cfg, w, key, v), p)
  {
    var w' := Update(cfg, w, key, v);
    var i :| 0 <= i < |cfg.points| && cfg.points[i] == p;
    FindDistinct(cfg.points, i);
    if w'.s != w.s {
      UpdateEnqueues(cfg, w, key, v);
      EnqueueKeeps(w, w', FindPoint(cfg.points, key).value, p);
      EnqueueSettles(w, w', FindPoint(cfg.points, key).value, p);
    } else {
      assert Current(p, w'.values) == Current(p, w.values);
    }
  }

  /** An update that changes the session queues the current reading of the point it finds. */
  lemma {:induction false} UpdateEnqueues(cfg: Config, w: World, key: Key, v: PointValue)
    requires Update(cfg, w, key, v).s != w.s
    ensures FindPoint(cfg.points, key).Some?
    ensures var w' := Update(cfg, w, key, v); w'.s == Enqueue(w.s, Measure(FindPoint(cfg.points, key).value, w'.values, Spontaneous))
  {
  }

  /** Queueing the current reading of `q`: the frame of another point changes nothing for `p` but by a drop. */
  lemma {:induction false} EnqueueKeeps(w: World, w': World, q: Point, p: Point)
    requires w'.s == Enqueue(w.s, Measure(q, w'.values, Spontaneous))
    requires q != p ==> AddressOf(q) != AddressOf(p)
    ensures var addr := AddressOf(p);
            if q == p then
              && LastFor(w'.s.out.queue, addr) == Some(Current(p, w'.values))
              && LastFor(Stream(w'.s), addr) == Some(Current(p, w'.values))
            else
              && (LastFor(w'.s.out.queue, addr).None? || LastFor(w'.s.out.queue, addr) == LastFor(w.s.out.queue, addr))
              && (LastFor(w'.s.out.queue, addr).Some? || LastFor(w.s.out.queue, addr).None? ==>
                    LastFor(Stream(w'.s), addr) == LastFor(Stream(w.s), addr))
  {
    var addr := AddressOf(p);
    var asdu := Measure(q, w'.values, Spontaneous);
    LastForConcat(Before(w.s), w.s.out.queue, addr);
    LastForConcat(Before(w'.s), w'.s.out.queue, addr);
    assert Before(w'.s) == Before(w.s);
    if q == p {
      AppendOwn(w.s.out, asdu, addr);
    } else {
      AppendLast(w.s.out, asdu, addr);
      LastForConcat(w.s.out.queue, [asdu], addr);
      LastForOne(asdu, addr);
    }
  }

  lemma {:induction false} EnqueueSettles(w: World, w': World, q: Point, p: Point)
    requires w'.s == Enqueue(w.s, Measure(q, w'.values, Spontaneous))
    requires q != p ==> AddressOf(q) != AddressOf(p) && Current(p, w'.values) == Current(p, w.values)
    ensures q == p ==> Settled(w', p)
    ensures q != p && Settled(w, p) && (LastFor(w.s.out.queue, AddressOf(p)).Some? ==> LastFor(w'.s.out.queue, AddressOf(p)).Some?)
            ==> Settled(w', p)
  {
    EnqueueKeeps(w, w', q, p);
    SettledByStream(w, p);
    SettledByStream(w', p);
  }

  lemma {:induction false} StepKeeps(cfg: Config, w: World, a: Action, p: Point)
    requires Inv(cfg, w.s) && Distinct(cfg.points) && p in cfg.points
    requires OutboxCurrent(w, p) && w.s.link.started && Live(Step(cfg, w, a).s.link)
    ensures OutboxCurrent(Step(cfg, w, a), p)
    ensures Settled(w, p) && Spares(cfg, w, a, p) ==> Settled(Step(cfg, w, a), p)
  {
    if a.Telemetry? {
      TelemetryKeeps(cfg, w, a.key, a.v, p);
    } else {
      StepKeepsOther(cfg, w, a, p);
      LivesOn(cfg, w.s, w.values, a);
    }
  }

  // ---- Runs ----

  /** Through the whole run the session is started and live, and no update drops the only queued frame of `p`. */
  ghost predicate Steady(cfg: Config, w: World, actions: seq<Action>, p: Point)
    decreases |actions|
  {
    && w.s.link.started && Live(w.s.link)
    && (actions == [] ||
        (Spares(cfg, w, actions[0], p) && Steady(cfg, Step(cfg, w, actions[0]), actions[1..], p)))
  }

  lemma {:induction false} SteadyStep(cfg: Config, w: World, actions: seq<Action>, p: Point)
    requires actions != [] && Steady(cfg, w, actions, p)
    ensures var w' := Step(cfg, w, actions[0]);
            w'.s.link.started && Live(w'.s.link) && Steady(cfg, w', actions[1..], p)
  {
  }

  /** A settled point stays settled: whatever the interleaving of updates, S-frames, replies, interrogations and
      writer steps, the image that the frames on their way lead to shows the server's reading after every step. */
  lemma {:induction false} StaysSettled(cfg: Config, w: World, actions: seq<Action>, p: Point)
    requires Inv(cfg, w.s) && Distinct(cfg.points) && p in cfg.points
    requires OutboxCurrent(w, p) && Settled(w, p) && Steady(cfg, w, actions, p)
    ensures Settled(Run(cfg, w, actions), p) && OutboxCurrent(Run(cfg, w, actions), p)
    decreases |actions|
  {
    if actions != [] {
      SteadyStep(cfg, w, actions, p);
      InvStep(cfg, w, actions[0]);
      StepKeeps(cfg, w, actions[0], p);
      StaysSettled(cfg, Step(cfg, w, actions[0]), actions[1..], p);
    }
  }

  lemma {:induction false} GiUnchanged(cfg: Config, w: World, a: Action)
    requires !a.GetInterrogation? && !a.Interrogate?
    ensures var gi' := Step(cfg, w, a).s.gi; gi'.answered == w.s.gi.answered && gi'.made == w.s.gi.made
  {
    if a.Write? {
      DrainQueues(w.s);
    }
  }

  lemma {:induction false} AskedGrows(cfg: Config, w: World, ca: nat)
    ensures var gi' := Step(cfg, w, GetInterrogation(ca)).s.gi;
            && gi'.made == w.s.gi.made
            && (gi'.answered == w.s.gi.answered || gi'.answered == w.s.gi.answered + [ca])
  {
  }

  lemma {:induction false} PlanGrows(cfg: Config, w: World, a: Action)
    ensures var w' := Step(cfg, w, a);
            Plan(cfg, w.s.gi.answered) <= Plan(cfg, w'.s.gi.answered)
            && w.s.gi.made <= w'.s.gi.made && |w'.s.gi.made| <= |w.s.gi.made| + 1
            && (|w'.s.gi.made| > |w.s.gi.made| ==> a.Interrogate? && Todo(w.s.gi) != [] && w.s.gi.task.held.None?)
  {
    if a.GetInterrogation? {
      AskedGrows(cfg, w, a.ca);
      var answered := w.s.gi.answered + [a.ca];
      assert answered[..|answered| - 1] == w.s.gi.answered;
    } else if !a.Interrogate? {
      GiUnchanged(cfg, w, a);
    }
  }

  /** If frame number `k` of the interrogation plan reports `p` and is made during a steady run, `p` is settled
      at its end. */
  lemma {:induction false} ReportedSettles(cfg: Config, w: World, actions: seq<Action>, p: Point, k: nat)
    requires Inv(cfg, w.s) && Distinct(cfg.points) && p in cfg.points
    requires OutboxCurrent(w, p) && Steady(cfg, w, actions, p)
    requires k < |Plan(cfg, w.s.gi.answered)| && Plan(cfg, w.s.gi.answered)[k] == Report(p)
    requires |w.s.gi.made| <= k < |Run(cfg, w, actions).s.gi.made|
    ensures Settled(Run(cfg, w, actions), p)
    decreases |actions|
  {
    var a := actions[0];
    var w' := Step(cfg, w, a);
    SteadyStep(cfg, w, actions, p);
    PlanGrows(cfg, w, a);
    InvStep(cfg, w, a);
    StepKeeps(cfg, w, a, p);
    if |w'.s.gi.made| > k {
      NextIsReport(cfg, w, p, k);
      ReportSettles(cfg, w, p);
      StaysSettled(cfg, w', actions[1..], p);
    } else {
      ReportedSettles(cfg, w', actions[1..], p, k);
    }
  }

  lemma {:induction false} NextIsReport(cfg: Config, w: World, p: Point, k: nat)
    requires Inv(cfg, w.s) && !w.s.link.ended && k == |w.s.gi.made| && Todo(w.s.gi) != [] && w.s.gi.task.held.None?
    requires k < |Plan(cfg, w.s.gi.answered)| && Plan(cfg, w.s.gi.answered)[k] == Report(p)
    ensures AboutToReport(w, p) && GiBounded(w.s.gi)
  {
    assert Plan(cfg, w.s.gi.answered)[k..][0] == Report(p);
  }

  lemma {:induction false} ScopeInReports(points: seq<Point>, ca: nat, p: Point) returns (i: nat)
    requires p in points && InScope(p, ca)
    ensures i < |Reports(points, ca)| && Reports(points, ca)[i] == Report(p)
  {
    if points[0] == p {
      i := 0;
    } else {
      i := ScopeInReports(points[1..], ca, p);
      i := i + if InScope(points[0], ca) then 1 else 0;
    }
  }

  lemma {:induction false} PlannedReport(cfg: Config, answered: seq<nat>, ca: nat, p: Point) returns (k: nat)
    requires p in cfg.points && InScope(p, ca)
    ensures |Plan(cfg, answered)| <= k < |Plan(cfg, answered + [ca])| && Plan(cfg, answered + [ca])[k] == Report(p)
  {
    var i := ScopeInReports(cfg.points, ca, p);
    k := |Plan(cfg, answered)| + 1 + i;
    assert (answered + [ca])[..|answered|] == answered;
    assert Script(cfg, ca)[1 + i] == Report(p);
  }

  lemma {:induction false} AnswerBegins(cfg: Config, w: World, ca: nat)
    requires FollowsPlan(cfg, w.s.gi, false) && ReaderFree(w.s) && w.s.gi.task.NoTask?
    ensures var gi' := Step(cfg, w, GetInterrogation(ca)).s.gi;
            gi'.answered == w.s.gi.answered + [ca] && gi'.made == w.s.gi.made
            && |gi'.made| == |Plan(cfg, w.s.gi.answered)|
  {
  }

  /** Convergence. A session that is started and live with no stale frame queued gets an interrogation of `ca` and
      answers it during a steady run: from then on every point in scope is settled. */
  lemma {:induction false} InterrogationConverges(cfg: Config, w: World, ca: nat, actions: seq<Action>, p: Point)
    requires Inv(cfg, w.s) && Distinct(cfg.points) && p in cfg.points && InScope(p, ca)
    requires ReaderFree(w.s) && w.s.gi.task.NoTask? && OutboxCurrent(w, p)
    requires Steady(cfg, w, [GetInterrogation(ca)] + actions, p)
    requires |Run(cfg, w, [GetInterrogation(ca)] + actions).s.gi.made| >= |Plan(cfg, w.s.gi.answered + [ca])|
    ensures Settled(Run(cfg, w, [GetInterrogation(ca)] + actions), p)
  {
    var all := [GetInterrogation(ca)] + actions;
    var w1 := Step(cfg, w, all[0]);
    assert all[1..] == actions;
    SteadyStep(cfg, w, all, p);
    InvStep(cfg, w, all[0]);
    StepKeeps(cfg, w, all[0], p);
    AnswerBegins(cfg, w, ca);
    var k := PlannedReport(cfg, w.s.gi.answered, ca, p);
    ReportedSettles(cfg, w1, actions, p, k);
  }

  /** Once nothing is on its way, settled means that the master shows the server's reading. */
  lemma {:induction false} SettledWhenDrained(w: World, p: Point)
    ensures OnTheWay(w.s) == [] ==>
              (Settled(w, p) <==>
               AddressOf(p) in ScadaImage(w.s) && ScadaImage(w.s)[AddressOf(p)] == Current(p, w.values))
  {
  }

  // ---- When a run is steady ----

  ghost predicate NeverStops(actions: seq<Action>) {
    GetU(StopAct) !in actions
  }

  lemma {:induction false} StepMonotone(cfg: Config, w: World, a: Action)
    ensures var w' := Step(cfg, w, a);
            && (Live(w'.s.link) ==> Live(w.s.link))
            && w.s.out.dropped <= w'.s.out.dropped
            && (a != GetU(StopAct) && w.s.link.started ==> w'.s.link.started)
  {
    if !a.Telemetry? {
      LivesOn(cfg, w.s, w.values, a);
      if a.Write? {
        DrainQueues(w.s);
      }
    }
  }

  lemma {:induction false} RunMonotone(cfg: Config, w: World, actions: seq<Action>)
    ensures var w' := Run(cfg, w, actions);
            (Live(w'.s.link) ==> Live(w.s.link)) && w.s.out.dropped <= w'.s.out.dropped
    decreases |actions|
  {
    if actions != [] {
      StepMonotone(cfg, w, actions[0]);
      RunMonotone(cfg, Step(cfg, w, actions[0]), actions[1..]);
    }
  }

  lemma {:induction false} NoDropSpares(cfg: Config, w: World, a: Action, p: Point)
    requires Step(cfg, w, a).s.out.dropped == w.s.out.dropped
    ensures Spares(cfg, w, a, p)
  {
    if a.Telemetry? && Step(cfg, w, a).s.out != w.s.out {
      var q := FindPoint(cfg.points, a.key).value;
      var asdu := Measure(q, Step(cfg, w, a).values, Spontaneous);
      assert Step(cfg, w, a).s.out.queue == w.s.out.queue + [asdu];
      LastForConcat(w.s.out.queue, [asdu], AddressOf(p));
    }
  }

  /** It is enough that the session is started, is never stopped, is live at the end and dropped nothing. */
  lemma {:induction false} SteadyIf(cfg: Config, w: World, actions: seq<Action>, p: Point)
    requires w.s.link.started && NeverStops(actions)
    requires Live(Run(cfg, w, actions).s.link) && Run(cfg, w, actions).s.out.dropped == w.s.out.dropped
    ensures Steady(cfg, w, actions, p)
    decreases |actions|
  {
    RunMonotone(cfg, w, actions);
    if actions != [] {
      var w' := Step(cfg, w, actions[0]);
      StepMonotone(cfg, w, actions[0]);
      RunMonotone(cfg, w', actions[1..]);
      NoDropSpares(cfg, w, actions[0], p);
      SteadyIf(cfg, w', actions[1..], p);
    }
  }

  lemma {:induction false} NeverStoppedStep(cfg: Config, w: World, a: Action, p: Point)
    requires Inv(cfg, w.s) && Distinct(cfg.points) && p in cfg.points
    requires OutboxCurrent(w, p) && (w.s.link.started || w.s.out.queue == [])
    requires a != GetU(StopAct) && Live(Step(cfg, w, a).s.link)
    ensures var w' := Step(cfg, w, a); OutboxCurrent(w', p) && (w'.s.link.started || w'.s.out.queue == [])
  {
    StepMonotone(cfg, w, a);
    if w.s.link.started {
      StepKeeps(cfg, w, a, p);
    } else if a.Write? {
      DrainQueues(w.s);
    }
  }

  /** In a session that was never stopped no stale frame is queued, whatever it dropped. */
  lemma {:induction false} NeverStoppedIsCurrent(cfg: Config, w: World, actions: seq<Action>, p: Point)
    requires Inv(cfg, w.s) && Distinct(cfg.points) && p in cfg.points
    requires OutboxCurrent(w, p) && (w.s.link.started || w.s.out.queue == [])
    requires NeverStops(actions) && Live(Run(cfg, w, actions).s.link)
    ensures OutboxCurrent(Run(cfg, w, actions), p)
    decreases |actions|
  {
    if actions != [] {
      RunMonotone(cfg, Step(cfg, w, actions[0]), actions[1..]);
      InvStep(cfg, w, actions[0]);
      NeverStoppedStep(cfg, w, actions[0], p);
      NeverStoppedIsCurrent(cfg, Step(cfg, w, actions[0]), actions[1..], p);
    }
  }

  lemma {:induction false} FreshIsCurrent(cfg: Config, w: World, actions: seq<Action>, p: Point)
    requires Untouched(w.s) && Distinct(cfg.points) && p in cfg.points && NeverStops(actions)
    requires Live(Run(cfg, w, actions).s.link)
    ensures OutboxCurrent(Run(cfg, w, actions), p)
  {
    UntouchedInv(cfg, w.s);
    NeverStoppedIsCurrent(cfg, w, actions, p);
  }

  /** The hypotheses of convergence: a new session is started at some point of `before` and never stopped; then
      it gets an interrogation of `ca` and answers it, whatever other interrogations come later, drops nothing from then
      on and is live at the end. */
  ghost predicate Answered(cfg: Config, w: World, ca: nat, after: seq<Action>) {
    var w' := Run(cfg, w, [GetInterrogation(ca)] + after);
    && w.s.link.started && ReaderFree(w.s) && w.s.gi.task.NoTask?
    && NeverStops(after) && Live(w'.s.link) && w'.s.out.dropped == w.s.out.dropped
    && |w'.s.gi.made| >= |Plan(cfg, w.s.gi.answered + [ca])|
  }

  lemma {:induction false} AnsweredConverges(cfg: Config, w: World, ca: nat, after: seq<Action>, p: Point)
    requires Inv(cfg, w.s) && Distinct(cfg.points) && p in cfg.points && InScope(p, ca)
    requires Answered(cfg, w, ca, after) && OutboxCurrent(w, p)
    ensures Settled(Run(cfg, w, [GetInterrogation(ca)] + after), p)
  {
    SteadyIf(cfg, w, [GetInterrogation(ca)] + after, p);
    InterrogationConverges(cfg, w, ca, after, p);
  }

  /** Convergence from the first byte on: under these hypotheses every point of the interrogated address (every point, for
      65535) is settled; so when nothing is on its way, the master shows at the point's address what the last value that
      telemetry brought for it means, or the one cached at first, or a bad zero if there was none. */
  lemma {:induction false} Convergence(cfg: Config, values: Values, before: seq<Action>, ca: nat, after: seq<Action>, p: Point)
    requires Distinct(cfg.points) && p in cfg.points && (ca == 65535 || p.ca == ca)
    requires NeverStops(before) && Answered(cfg, Run(cfg, World(values, NEW_SESSION), before), ca, after)
    ensures var actions := before + [GetInterrogation(ca)] + after;
            var w' := Run(cfg, World(values, NEW_SESSION), actions);
            var last := LastTelemetry(actions, p.key);
            Settled(w', p)
            && (OnTheWay(w'.s) == [] ==>
                  (p.ca, p.ioa) in ScadaImage(w'.s)
                  && Shows(p.kind, if last.Some? then last else ValueAt(values, p.key), ScadaImage(w'.s)[(p.ca, p.ioa)]))
  {
    var w0 := World(values, NEW_SESSION);
    var w := Run(cfg, w0, before);
    var rest := [GetInterrogation(ca)] + after;
    RunMonotone(cfg, w, rest);
    RunInv(cfg, w0, before);
    FreshIsCurrent(cfg, w0, before, p);
    AnsweredConverges(cfg, w, ca, after, p);
    RunConcat(cfg, w0, before, rest);
    assert before + [GetInterrogation(ca)] + after == before + rest;
    SettledWhenDrained(Run(cfg, w, rest), p);
    CacheIsLatest(cfg, w0, before + rest, p);
    CurrentShows(p, Run(cfg, w, rest).values);
  }
}
