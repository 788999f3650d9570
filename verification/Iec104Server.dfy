/** The server and its client sessions as the objects they are: fields updated in place, loops over points and
    sessions. Every method is proved against the session state machine. */
module Iec104Server {
  import opened Prelude
  import opened Iec104Apci
  import opened Iec104Points
  import opened Iec104Session

  function Published(s: Session, asdu: Asdu): Session {
    if s.link.registered && s.link.started then Enqueue(s, asdu) else s
  }

  class ClientSession {
    var registered: bool
    var closed: bool
    var ended: bool
    var started: bool
    var nr: nat
    var readerBusy: bool
    var ns: nat
    var unacked: nat
    var outbox: seq<Asdu>
    var droppedTotal: nat
    var giOutbox: seq<Asdu>
    var giTask: GiTask
    var drain: Drain
    var dataReady: bool
    var windowOpen: bool
    var lock: seq<Apdu<Asdu>>
    var wire: seq<Apdu<Asdu>>
    ghost var acked: nat
    ghost var enqueued: seq<Asdu>
    ghost var taken: seq<Asdu>
    ghost var made: seq<Asdu>
    ghost var answered: seq<nat>

    ghost function State(): Session
      reads this
    {
      Session(Link(registered, closed, ended, started, nr, readerBusy), Line(ns, unacked, acked, lock, wire),
              Outbox(outbox, droppedTotal, enqueued, taken), GiSide(giOutbox, giTask, made, answered),
              Writer(drain, dataReady, windowOpen))
    }

    constructor ()
      ensures State() == NEW_SESSION
    {
      registered, closed, ended, started, nr, readerBusy := true, false, false, false, 0, false;
      ns, unacked, outbox, droppedTotal, giOutbox, giTask := 0, 0, [], 0, [], NoTask;
      drain, dataReady, windowOpen, lock, wire := Idle, false, true, [], [];
      acked, enqueued, taken, made, answered := 0, [], [], [], [];
    }

    /** Puts a frame into the bounded queue; if the queue is full, the oldest one makes room. */
    method Enqueue(asdu: Asdu) returns (room: bool)
      requires |outbox| <= OUTBOX_MAX
      modifies this
      ensures State() == Iec104Session.Enqueue(old(State()), asdu)
      ensures room <==> droppedTotal == old(droppedTotal)
    {
      room := |outbox| < OUTBOX_MAX;
      if !room {
        outbox := outbox[1..];
        droppedTotal := droppedTotal + 1;
      }
      outbox := outbox + [asdu];
      dataReady := true;
      enqueued := enqueued + [asdu];
    }

    /** What a changed value does to one session. */
    method Publish(asdu: Asdu)
      requires |outbox| <= OUTBOX_MAX
      modifies this
      ensures State() == Published(old(State()), asdu) && |outbox| <= OUTBOX_MAX
    {
      if registered && started {
        var room := Enqueue(asdu);
      }
    }

    /** Writes go through the write lock, in the order in which they were asked for. */
    method Send(apdu: Apdu<Asdu>)
      modifies this`lock
      ensures State() == Push(old(State()), apdu)
    {
      if !closed {
        lock := lock + [apdu];
      }
    }

    method SendI(asdu: Asdu)
      modifies this
      ensures State() == Iec104Session.SendI(old(State()), asdu)
    {
      if unacked >= 12 {
        return;
      }
      if ns >= SEQUENCE_MODULUS || nr >= SEQUENCE_MODULUS {
        ns := 0;
        return;
      }
      var frame := I(ns, nr, asdu);
      ns := (ns + 1) % SEQUENCE_MODULUS;
      unacked := unacked + 1;
      if closed {
        registered := false;
        return;
      }
      Send(frame);
    }

    /** The transport refuses the I-frame of the lock's holder. */
    method SendFailed()
      modifies this`registered, this`closed
      ensures State() == FailSend(old(State()))
    {
      if !closed && lock != [] && lock[0].I? {
        registered := false;
        closed := true;
      }
    }

    method HandleU(tag: UTag)
      modifies this
      ensures State() == Iec104Session.HandleU(old(State()), tag)
    {
      match tag
      case StartAct =>
        started := true;
        Send(U(StartCon));
      case StopAct =>
        started := false;
        Send(U(StopCon));
      case TestAct => Send(U(TestCon));
      case _ =>
    }

    method HandleS()
      modifies this
      ensures State() == Iec104Session.HandleS(old(State()))
    {
      unacked := 0;
      windowOpen := true;
      acked := |Carried(wire + lock)|;
    }

    /** Takes the next frame, interrogation frames first; a freed place lets a blocked put in. */
    method TakeNext() returns (asdu: Asdu)
      requires giOutbox != [] || outbox != []
      modifies this
      ensures asdu == if old(giOutbox) != [] then old(giOutbox)[0] else old(outbox)[0]
      ensures State() == if old(giOutbox) != [] then old(State()).(gi := TakeGi(old(State()).gi))
                         else old(State()).(out := TakeOutbox(old(State()).out))
    {
      if giOutbox != [] {
        asdu := giOutbox[0];
        giOutbox := giOutbox[1..];
        if giTask.Task? && giTask.held.Some? {
          giOutbox := giOutbox + [giTask.held.value];
          giTask := Task(giTask.todo, None);
        }
      } else {
        asdu := outbox[0];
        outbox := outbox[1..];
        taken := taken + [asdu];
      }
    }

    /** One round of the writer task, up to where it suspends. */
    method DrainRound()
      modifies this
      ensures State() == DrainStep(old(State()))
    {
      match drain
      case Stopped =>
      case Sending(pos) =>
        if |wire| > pos || closed {
          drain := Idle;
        }
      case Waiting =>
        if dataReady {
          drain := Idle;
        }
      case Parked(asdu) =>
        if windowOpen {
          WaitWindowAndSend(asdu);
        }
      case Idle =>
        if giOutbox == [] && outbox == [] {
          dataReady := false;
          drain := Waiting;
        } else {
          var asdu := TakeNext();
          WaitWindowAndSend(asdu);
        }
    }

    method WaitWindowAndSend(asdu: Asdu)
      modifies this
      ensures State() == Offer(old(State()), asdu)
    {
      if unacked >= K_WINDOW {
        windowOpen := false;
        drain := Parked(asdu);
        return;
      }
      var before := |lock|;
      SendI(asdu);
      drain := if |lock| > before then Sending(|wire| + before) else Idle;
    }

    method PutGi(asdu: Asdu)
      requires |giOutbox| < GI_OUTBOX_MAX
      modifies this`giOutbox, this`dataReady, this`made
      ensures giOutbox == old(giOutbox) + [asdu] && dataReady && made == old(made) + [asdu]
    {
      giOutbox := giOutbox + [asdu];
      dataReady := true;
      made := made + [asdu];
    }

    /** The interrogation task up to its next put, which blocks with the frame in hand while the queue is full. */
    method InterrogationRound(values: Values)
      modifies this
      ensures State() == GiStep(old(State()), values)
    {
      if giTask.NoTask? || giTask.held.Some? {
        return;
      }
      var todo := giTask.todo;
      if todo == [] {
        giTask := NoTask;
        return;
      }
      var asdu := Produce(todo[0], values);
      if |giOutbox| < GI_OUTBOX_MAX {
        PutGi(asdu);
        giTask := if |todo| == 1 then NoTask else Task(todo[1..], None);
      } else {
        made := made + [asdu];
        giTask := Task(todo[1..], Some(asdu));
      }
    }
  }

  /** The frames of a whole answer, with the values of one moment. */
  function Answer(items: seq<Item>, values: Values): seq<Asdu> {
    if |items| == 0 then [] else [Produce(items[0], values)] + Answer(items[1..], values)
  }

  lemma {:induction false} AnswerConcat(a: seq<Item>, b: seq<Item>, values: Values)
    ensures Answer(a + b, values) == Answer(a, values) + Answer(b, values)
  {
    if a == [] {
      assert a + b == b;
    } else {
      assert (a + b)[1..] == a[1..] + b;
      AnswerConcat(a[1..], b, values);
    }
  }

  /** Interrogation steps taken one after another without a blocked put make the whole answer. */
  lemma {:induction false} AnswerIsSteps(cfg: Config, w: World, n: nat)
    requires w.s.gi.task.Task? && w.s.gi.task.held.None? && n == |w.s.gi.task.todo| > 0
    requires |w.s.gi.queue| + n <= GI_OUTBOX_MAX
    ensures var w' := Run(cfg, w, seq(n, i => Interrogate));
            var answer := Answer(w.s.gi.task.todo, w.values);
            w' == World(w.values, w.s.(gi := GiSide(w.s.gi.queue + answer, NoTask, w.s.gi.made + answer, w.s.gi.answered),
                                       writer := w.s.writer.(dataReady := true)))
    decreases n
  {
    var todo := w.s.gi.task.todo;
    var steps := seq(n, i => Interrogate);
    var w1 := Step(cfg, w, Interrogate);
    assert steps[1..] == seq(n - 1, i => Interrogate);
    assert Run(cfg, w, steps) == Run(cfg, w1, steps[1..]);
    var first := [Produce(todo[0], w.values)];
    var rest := Answer(todo[1..], w.values);
    assert w.s.gi.queue + (first + rest) == w.s.gi.queue + first + rest;
    assert w.s.gi.made + (first + rest) == w.s.gi.made + first + rest;
    if n > 1 {
      AnswerIsSteps(cfg, w1, n - 1);
    } else {
      assert steps[1..] == [];
    }
  }

  class Server {
    const points: seq<Point>
    const defaultCa: nat
    var byKey: map<Key, Point>
    var values: Values
    var sessions: seq<ClientSession>

    /** The index agrees with the registry, and no session is registered twice. */
    ghost predicate Valid()
      reads this, sessions
    {
      && (forall key :: FindPoint(points, key) == if key in byKey then Some(byKey[key]) else None)
      && (forall i, j | 0 <= i < j < |sessions| :: sessions[i] != sessions[j])
      && (forall i | 0 <= i < |sessions| :: |sessions[i].outbox| <= OUTBOX_MAX)
    }

    constructor (points: seq<Point>, defaultCa: nat)
      ensures Valid() && values == map[] && sessions == [] && this.points == points && this.defaultCa == defaultCa
    {
      this.points := points;
      this.defaultCa := defaultCa;
      values := map[];
      sessions := [];
      var index: map<Key, Point> := map[];
      for i := 0 to |points|
        invariant forall key :: FindPoint(points[..i], key) == if key in index then Some(index[key]) else None
      {
        assert points[..i + 1][..i] == points[..i];
        index := index[points[i].key := points[i]];
      }
      assert points[..|points|] == points;
      byKey := index;
    }

    ghost function Cfg(): Config {
      Config(points, defaultCa)
    }

    method PublishAll(asdu: Asdu)
      requires Valid()
      modifies sessions
      ensures Valid()
      ensures forall i | 0 <= i < |sessions| :: sessions[i].State() == Published(old(sessions[i].State()), asdu)
    {
      for i := 0 to |sessions|
        modifies sessions
        invariant forall j | 0 <= j < |sessions| :: |sessions[j].outbox| <= OUTBOX_MAX
        invariant forall j | i <= j < |sessions| :: sessions[j].State() == old(sessions[j].State())
        invariant forall j | 0 <= j < i :: sessions[j].State() == Published(old(sessions[j].State()), asdu)
      {
        sessions[i].Publish(asdu);
      }
    }

    /** Stores the value and hands a changed one to every started session: for each of them this is the update step
        of its own state machine, whatever other sessions there are. */
    method UpdatePoint(key: Key, v: PointValue)
      requires Valid()
      modifies this`values, sessions
      ensures Valid()
      ensures forall i | 0 <= i < |sessions| ::
                World(values, sessions[i].State()) == Update(Cfg(), World(old(values), old(sessions[i].State())), key, v)
    {
      assert FindPoint(points, key) == if key in byKey then Some(byKey[key]) else None;
      if key !in byKey {
        return;
      }
      var point := byKey[key];
      var same := key in values && values[key] == v;
      values := values[key := v];
      if same {
        return;
      }
      var asdu := Measured(point.ca, point.ioa, Spontaneous, Encode(point.kind, v));
      assert asdu == Measure(point, values, Spontaneous);
      PublishAll(asdu);
    }

    method PutReports(s: ClientSession, ca: nat)
      requires |s.giOutbox| + |points| <= GI_OUTBOX_MAX && s.dataReady
      modifies s`giOutbox, s`dataReady, s`made
      ensures var reports := Answer(Reports(points, ca), values);
              && s.giOutbox == old(s.giOutbox) + reports && s.made == old(s.made) + reports && s.dataReady
              && |reports| <= |points|
    {
      var isBroadcast := ca == BROADCAST_CA;
      ghost var queue0, made0, done := s.giOutbox, s.made, [];
      for i := 0 to |points|
        modifies s`giOutbox, s`dataReady, s`made
        invariant |done| <= i
        invariant done == Answer(Reports(points[..i], ca), values)
        invariant s.giOutbox == queue0 + done && s.made == made0 + done && s.dataReady
      {
        var point := points[i];
        ReportsSnoc(points, i, ca);
        AnswerConcat(Reports(points[..i], ca), if InScope(point, ca) then [Report(point)] else [], values);
        if !isBroadcast && point.ca != ca {
          continue;
        }
        var current := if point.key in values then values[point.key] else PointValue(Number(0.0), false);
        var asdu := Measured(point.ca, point.ioa, Interrogated, Encode(point.kind, current));
        assert Answer([Report(point)], values) == [asdu];
        done := done + [asdu];
        s.PutGi(asdu);
      }
      assert points[..|points|] == points;
    }

    /** The interrogation task of a session whose queue has room for the whole answer: it never suspends, and puts
        exactly the answer. By `AnswerIsSteps` this is what its single steps add up to. */
    method HandleInterrogation(s: ClientSession, ca: nat)
      requires |s.giOutbox| + |points| + 2 <= GI_OUTBOX_MAX
      modifies s`giOutbox, s`giTask, s`dataReady, s`made
      ensures var answer := Answer(Script(Cfg(), ca), values);
              && s.giOutbox == old(s.giOutbox) + answer && s.made == old(s.made) + answer
              && s.dataReady && s.giTask == NoTask
    {
      var replyCa := if ca != 0 then ca else defaultCa;
      ghost var reports := Answer(Reports(points, ca), values);
      ghost var first, last := [Interrogation(replyCa, ActCon)], [Interrogation(replyCa, ActTerm)];
      ScriptAnswer(Cfg(), ca, values);
      s.PutGi(Interrogation(replyCa, ActCon));
      PutReports(s, ca);
      s.PutGi(Interrogation(replyCa, ActTerm));
      s.giTask := NoTask;
      Joined(old(s.giOutbox), first, reports, last);
      Joined(old(s.made), first, reports, last);
    }
  }

  lemma {:induction false} Joined(a: seq<Asdu>, b: seq<Asdu>, c: seq<Asdu>, d: seq<Asdu>)
    ensures a + b + c + d == a + (b + c + d)
  {
  }

  lemma {:induction false} ScriptAnswer(cfg: Config, ca: nat, values: Values)
    ensures var replyCa := if ca == 0 then cfg.defaultCa else ca;
            Answer(Script(cfg, ca), values) ==
              [Interrogation(replyCa, ActCon)] + Answer(Reports(cfg.points, ca), values) + [Interrogation(replyCa, ActTerm)]
  {
    var replyCa := if ca == 0 then cfg.defaultCa else ca;
    AnswerConcat([Confirm(replyCa)] + Reports(cfg.points, ca), [Terminate(replyCa)], values);
    AnswerConcat([Confirm(replyCa)], Reports(cfg.points, ca), values);
    assert [Confirm(replyCa)][1..] == [] && [Terminate(replyCa)][1..] == [];
  }
}
