/** Why convergence asks for a session that is never stopped: a run in which it is, and does not converge. */
module Iec104Restart {
  import opened Prelude
  import opened Iec104Apci
  import opened Iec104Points
  import opened Iec104Session
  import opened Iec104SessionInvariants
  import opened Iec104Image

  /** A stale frame at the end of the stream. */
  lemma {:induction false} StaleLast(w: World, p: Point, asdu: Asdu)
    requires w.s.out.queue == [asdu] && asdu.Measured? && (asdu.ca, asdu.ioa) == AddressOf(p)
    requires asdu.reading != Current(p, w.values)
    ensures !Settled(w, p)
  {
    SettledByStream(w, p);
    LastForOne(asdu, AddressOf(p));
    LastForConcat(Before(w.s), [asdu], AddressOf(p));
  }

  /** A one-point server answers an interrogation; the spontaneous queue and the values are not touched. */
  lemma {:induction false} OnePointAnswer(p: Point, w: World)
    requires w.s.gi == NEW_SESSION.gi && w.s.link == NEW_SESSION.link.(started := true)
    ensures var cfg := Config([p], 1);
            var w' := Run(cfg, w, [GetInterrogation(p.ca), Interrogate, Interrogate, Interrogate]);
            && w'.values == w.values && w'.s.out == w.s.out && w'.s.link == w.s.link.(nr := 1)
            && w'.s.gi.answered == [p.ca] && w'.s.gi.task.NoTask? && |w'.s.gi.made| == 3
  {
    var cfg := Config([p], 1);
    var actions := [GetInterrogation(p.ca), Interrogate, Interrogate, Interrogate];
    assert Reports([p], p.ca) == [Report(p)] by {
      assert [p][1..] == [];
    }
    var w1 := Step(cfg, w, actions[0]);
    assert w1.s.gi.task == Task(Script(cfg, p.ca), None) && |Script(cfg, p.ca)| == 3;
    var w2 := Step(cfg, w1, Interrogate);
    assert w2.s.gi.task == Task(Script(cfg, p.ca)[1..], None);
    var w3 := Step(cfg, w2, Interrogate);
    assert w3.s.gi.task == Task(Script(cfg, p.ca)[1..][1..], None);
    var w4 := Step(cfg, w3, Interrogate);
    assert actions[1..] == [Interrogate, Interrogate, Interrogate] && actions[1..][1..] == [Interrogate, Interrogate];
    assert actions[1..][1..][1..] == [Interrogate] && actions[1..][1..][1..][1..] == [];
    calc {
      Run(cfg, w, actions);
      Run(cfg, w1, actions[1..]);
      Run(cfg, w2, actions[1..][1..]);
      Run(cfg, w3, actions[1..][1..][1..]);
      w4;
    }
  }

  /** STOPDT and a new STARTDT with a frame still queued: the update made in between is not queued, the older
      frame is. An interrogation answered then, in full, does not settle the point: the master will end up with the
      older value. */
  lemma {:induction false} RestartGoesStale(p: Point, a: PointValue, b: PointValue)
    requires Encode(p.kind, a) != Encode(p.kind, b)
    ensures var cfg := Config([p], 1);
            var w := Run(cfg, World(map[], NEW_SESSION),
                         [GetU(StartAct), Telemetry(p.key, a), GetU(StopAct), Telemetry(p.key, b), GetU(StartAct)]
                         + [GetInterrogation(p.ca), Interrogate, Interrogate, Interrogate]);
            && w.s.link.started && Live(w.s.link) && w.s.out.dropped == 0
            && w.s.gi.answered == [p.ca] && |w.s.gi.made| == |Plan(cfg, [p.ca])|
            && !Settled(w, p)
  {
    var cfg := Config([p], 1);
    var w0 := World(map[], NEW_SESSION);
    var restart := [GetU(StartAct), Telemetry(p.key, a), GetU(StopAct), Telemetry(p.key, b), GetU(StartAct)];
    RestartState(p, a, b);
    var w := Run(cfg, w0, restart);
    OnePointAnswer(p, w);
    RunConcat(cfg, w0, restart, [GetInterrogation(p.ca), Interrogate, Interrogate, Interrogate]);
    StaleLast(Run(cfg, w, [GetInterrogation(p.ca), Interrogate, Interrogate, Interrogate]), p,
              Measured(p.ca, p.ioa, Spontaneous, Encode(p.kind, a)));
    assert [p][1..] == [] && [p.ca][..0] == [];
    assert Reports([p], p.ca) == [Report(p)];
  }

  lemma {:induction false} RestartState(p: Point, a: PointValue, b: PointValue)
    requires a != b
    ensures var cfg := Config([p], 1);
            var w := Run(cfg, World(map[], NEW_SESSION),
                         [GetU(StartAct), Telemetry(p.key, a), GetU(StopAct), Telemetry(p.key, b), GetU(StartAct)]);
            && w.s.link == NEW_SESSION.link.(started := true) && w.s.gi == NEW_SESSION.gi
            && w.s.out.queue == [Measured(p.ca, p.ioa, Spontaneous, Encode(p.kind, a))] && w.s.out.dropped == 0
            && w.values == map[p.key := b]
  {
    var cfg := Config([p], 1);
    var w0 := World(map[], NEW_SESSION);
    assert FindPoint([p], p.key) == Some(p);
    var w1 := Step(cfg, w0, GetU(StartAct));
    var w2 := Step(cfg, w1, Telemetry(p.key, a));
    assert w2.s.out.queue == [Measured(p.ca, p.ioa, Spontaneous, Encode(p.kind, a))];
    var w3 := Step(cfg, w2, GetU(StopAct));
    var w4 := Step(cfg, w3, Telemetry(p.key, b));
    assert w4.values == map[p.key := b];
    var w5 := Step(cfg, w4, GetU(StartAct));
    var actions := [GetU(StartAct), Telemetry(p.key, a), GetU(StopAct), Telemetry(p.key, b), GetU(StartAct)];
    assert actions[1..] == [Telemetry(p.key, a), GetU(StopAct), Telemetry(p.key, b), GetU(StartAct)];
    assert actions[1..][1..] == [GetU(StopAct), Telemetry(p.key, b), GetU(StartAct)];
    assert actions[1..][1..][1..] == [Telemetry(p.key, b), GetU(StartAct)];
    assert actions[1..][1..][1..][1..] == [GetU(StartAct)];
    assert actions[1..][1..][1..][1..][1..] == [];
    calc {
      Run(cfg, w0, actions);
      Run(cfg, w1, actions[1..]);
      Run(cfg, w2, actions[1..][1..]);
      Run(cfg, w3, actions[1..][1..][1..]);
      Run(cfg, w4, actions[1..][1..][1..][1..]);
      w5;
    }
  }
}
