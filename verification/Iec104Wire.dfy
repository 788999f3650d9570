/** What the master sees: consequences of the session invariant for the frames on the wire, and the promise that
    a live session can always empty its queues. */
module Iec104Wire {
  import opened Prelude
  import opened Iec104Apci
  import opened Iec104Reassembly
  import opened Iec104Points
  import opened Iec104Session
  import opened Iec104SessionInvariants

  ghost predicate Reachable(cfg: Config, w: World) {
    exists values, actions :: w == Run(cfg, World(values, NEW_SESSION), actions)
  }

  lemma {:induction false} ReachableInv(cfg: Config, w: World)
    requires Reachable(cfg, w)
    ensures Inv(cfg, w.s)
  {
    var values, actions :| w == Run(cfg, World(values, NEW_SESSION), actions);
    RunInv(cfg, World(values, NEW_SESSION), actions);
  }

  // ---- Numbering ----

  /** The I-frames on the wire carry N(S) = 0, 1, 2, ... modulo 32768, in every run whatever. */
  lemma {:induction false} WireIsNumbered(cfg: Config, w: World, i: nat)
    requires Reachable(cfg, w) && i < |Numbers(w.s.line.wire)|
    ensures Numbers(w.s.line.wire)[i] == i % SEQUENCE_MODULUS
  {
    ReachableInv(cfg, w);
    ProjectConcat(NumberOf, w.s.line.wire, w.s.line.lock);
    var all := Numbers(Handed(w.s.line));
    assert all == Numbers(w.s.line.wire) + Numbers(w.s.line.lock);
    assert all[i] == i % SEQUENCE_MODULUS;
  }

  /** From the 32768th received I-frame on, nothing carrying data leaves any more. */
  lemma {:induction false} SilencedByReceiveCounter(cfg: Config, w: World, actions: seq<Action>)
    requires w.s.link.nr >= SEQUENCE_MODULUS
    ensures Carried(Handed(Run(cfg, w, actions).s.line)) == Carried(Handed(w.s.line))
    decreases |actions|
  {
    if actions != [] {
      if !actions[0].Telemetry? {
        SilencedStep(cfg, w.s, w.values, actions[0]);
      }
      SilencedByReceiveCounter(cfg, Step(cfg, w, actions[0]), actions[1..]);
    }
  }

  lemma {:induction false} SilencedStep(cfg: Config, s: Session, values: Values, a: Action)
    requires s.link.nr >= SEQUENCE_MODULUS
    ensures var s' := SessionStep(cfg, s, values, a);
            s'.link.nr >= SEQUENCE_MODULUS && Carried(Handed(s'.line)) == Carried(Handed(s.line))
  {
    StepMoves(cfg, s, values, a);
    if a.Write? {
      DrainLine(s);
    }
  }

  /** Below that, an open session with room in its window hands over everything it is asked to send. */
  lemma {:induction false} SendsExactlyBelowLimit(cfg: Config, w: World, id: nat)
    requires Reachable(cfg, w) && !w.s.link.closed && w.s.line.unacked < K_WINDOW
    ensures Carried(Handed(Step(cfg, w, SendReply(id)).s.line)) == Carried(Handed(w.s.line)) + [DirectReply(id)]
            <==> w.s.link.nr < SEQUENCE_MODULUS
  {
    ReachableInv(cfg, w);
    SendFrameMoves(w.s.link, w.s.line, DirectReply(id));
    assert |Carried(Handed(w.s.line)) + [DirectReply(id)]| != |Carried(Handed(w.s.line))|;
  }

  // ---- A send that fails ----

  lemma {:induction false} ClosedStep(cfg: Config, s: Session, values: Values, a: Action)
    requires s.link.closed
    ensures var s' := SessionStep(cfg, s, values, a);
            && s'.link.closed && s'.line.wire == s.line.wire && s'.out.enqueued == s.out.enqueued
            && (s'.link.registered ==> s.link.registered)
  {
    if a.Write? {
      DrainLine(s);
      DrainQueues(s);
    }
  }

  lemma {:induction false} ClosedIsSilent(cfg: Config, w: World, actions: seq<Action>)
    requires w.s.link.closed && !w.s.link.registered
    ensures var s' := Run(cfg, w, actions).s; s'.line.wire == w.s.line.wire && s'.out.enqueued == w.s.out.enqueued
    decreases |actions|
  {
    if actions != [] {
      if !actions[0].Telemetry? {
        ClosedStep(cfg, w.s, w.values, actions[0]);
      }
      ClosedIsSilent(cfg, Step(cfg, w, actions[0]), actions[1..]);
    }
  }

  /** A send that fails is the end of the session for its master: neither that frame nor anything behind it, asked for before
      or later, reaches the wire, and no further update is queued for it. */
  lemma {:induction false} FailedSendIsLast(cfg: Config, w: World, actions: seq<Action>)
    requires !w.s.link.closed && w.s.line.lock != [] && w.s.line.lock[0].I?
    ensures var s' := Run(cfg, w, [SendFails] + actions).s;
            s'.line.wire == w.s.line.wire && s'.out.enqueued == w.s.out.enqueued
  {
    assert ([SendFails] + actions)[1..] == actions;
    ClosedIsSilent(cfg, Step(cfg, w, SendFails), actions);
  }

  /** So is a hang-up, and so is a writer that has waited too long for the window: nothing more reaches the wire. */
  lemma {:induction false} ClosedIsLast(cfg: Config, w: World, a: Action, actions: seq<Action>)
    requires a == Hangup || (a == WindowTimeout && w.s.writer.drain.Parked?)
    ensures Run(cfg, w, [a] + actions).s.line.wire == w.s.line.wire
  {
    assert ([a] + actions)[1..] == actions;
    ClosedStays(cfg, Step(cfg, w, a), actions);
  }

  lemma {:induction false} ClosedStays(cfg: Config, w: World, actions: seq<Action>)
    requires w.s.link.closed
    ensures Run(cfg, w, actions).s.line.wire == w.s.line.wire
    decreases |actions|
  {
    if actions != [] {
      if !actions[0].Telemetry? {
        ClosedStep(cfg, w.s, w.values, actions[0]);
      }
      ClosedStays(cfg, Step(cfg, w, actions[0]), actions[1..]);
    }
  }

  // ---- The window ----

  /** Between two S-frames at most twelve I-frames are handed over. */
  lemma {:induction false} WindowHolds(cfg: Config, w: World, actions: seq<Action>)
    requires Inv(cfg, w.s) && GetS !in actions
    ensures |Carried(Handed(Run(cfg, w, actions).s.line))| <= w.s.line.acked + K_WINDOW
    decreases |actions|
  {
    if actions != [] {
      InvStep(cfg, w, actions[0]);
      AckedKept(cfg, w, actions[0]);
      WindowHolds(cfg, Step(cfg, w, actions[0]), actions[1..]);
    }
  }

  lemma {:induction false} AckedKept(cfg: Config, w: World, a: Action)
    requires a != GetS
    ensures Step(cfg, w, a).s.line.acked == w.s.line.acked
  {
    if a.Write? {
      DrainLine(w.s);
    }
  }

  /** So after an S-frame the master receives at most twelve more I-frames until it sends the next one. */
  lemma {:induction false} AtMostTwelveSinceS(cfg: Config, w: World, actions: seq<Action>)
    requires Reachable(cfg, w) && ReaderFree(w.s) && GetS !in actions
    ensures |Carried(Handed(Run(cfg, Step(cfg, w, GetS), actions).s.line))| <= |Carried(Handed(w.s.line))| + 12
  {
    var w' := Step(cfg, w, GetS);
    ReachableInv(cfg, w);
    InvStep(cfg, w, GetS);
    WindowHolds(cfg, w', actions);
  }

  // ---- Conservation ----

  /** Every spontaneous frame that was enqueued was taken by the writer, is queued, or was counted as dropped; the
      queue is the newest of them; and on the wire they keep the order in which they were enqueued. */
  lemma {:induction false} SpontaneousConserved(cfg: Config, w: World)
    requires Reachable(cfg, w)
    ensures var out := w.s.out;
            && |out.queue| <= 2000
            && |out.enqueued| == |out.taken| + |out.queue| + out.dropped
            && out.queue == out.enqueued[|out.enqueued| - |out.queue|..]
            && Subsequence(out.taken, out.enqueued[..|out.enqueued| - |out.queue|])
            && SpontaneousPart(Carried(w.s.line.wire)) <= out.taken
            && (Live(w.s.link) ==> SpontaneousPart(Pipeline(w.s)) == out.taken)
  {
    ReachableInv(cfg, w);
    WirePart(SpontaneousOnly, w.s.line);
  }

  lemma {:induction false} WirePart(f: Asdu -> Option<Asdu>, line: Line)
    ensures Project(f, Carried(line.wire)) <= Project(f, Carried(Handed(line)))
  {
    ProjectConcat(AsduOf, line.wire, line.lock);
    ProjectConcat(f, Carried(line.wire), Carried(line.lock));
  }

  // ---- Interrogations ----

  /** The interrogation frames on the wire are a prefix of the plan of all answered interrogations, in every run;
      and all of it once a live session has nothing left to do. */
  lemma {:induction false} InterrogationsOnWire(cfg: Config, w: World)
    requires Reachable(cfg, w)
    ensures var wire := GiPart(Carried(w.s.line.wire));
            var plan := Plan(cfg, w.s.gi.answered);
            && |wire| <= |plan|
            && (forall i | 0 <= i < |wire| :: Fits(plan[i], wire[i]))
            && (Live(w.s.link) && Drained(w.s) ==> |wire| == |plan|)
  {
    ReachableInv(cfg, w);
    WirePart(GiOnly, w.s.line);
    if Live(w.s.link) && Drained(w.s) {
      assert Pipeline(w.s) == Carried(w.s.line.wire) by {
        assert Handed(w.s.line) == w.s.line.wire;
      }
      assert Todo(w.s.gi) == [] && Held(w.s.gi) == [];
    }
  }

  /** Nothing is queued, in the writer's hand or in the lock, and no interrogation is being answered. */
  predicate Drained(s: Session) {
    s.line.lock == [] && !s.writer.drain.Parked? && s.gi.queue == [] && s.out.queue == [] && s.gi.task.NoTask?
  }

  /** The plan of one interrogation: its reports are the registry's points of that address, each as often as the registry
      lists it and no other ... */
  lemma {:induction false} ScriptIsScope(points: seq<Point>, ca: nat, p: Point)
    ensures multiset(Reports(points, ca))[Report(p)] == if InScope(p, ca) then multiset(points)[p] else 0
  {
    if points != [] {
      ScriptIsScope(points[1..], ca, p);
      assert points == [points[0]] + points[1..];
      if InScope(points[0], ca) {
        assert Reports(points, ca) == [Report(points[0])] + Reports(points[1..], ca);
      }
    }
  }

  /** ... in registry order. */
  lemma {:induction false} ScriptIsOrdered(points: seq<Point>, ca: nat)
    ensures Subsequence(Reports(points, ca), seq(|points|, i requires 0 <= i < |points| => Report(points[i])))
  {
    var all := seq(|points|, i requires 0 <= i < |points| => Report(points[i]));
    if points != [] {
      var n := |points| - 1;
      ScriptIsOrdered(points[..n], ca);
      assert points[..n + 1] == points;
      ReportsSnoc(points, n, ca);
      var before := seq(n, i requires 0 <= i < n => Report(points[..n][i]));
      assert all == before + [Report(points[n])];
      if InScope(points[n], ca) {
        SubsequenceKeep(Reports(points[..n], ca), before, Report(points[n]));
      } else {
        SubsequenceSkip(Reports(points[..n], ca), before, Report(points[n]));
        assert Reports(points, ca) == Reports(points[..n], ca);
      }
    }
  }

  // ---- Interrogation frames go first ----

  /** With no interrogation frame queued, all that were made have been taken. */
  lemma {:induction false} NoneQueued(s: Session)
    requires GiOrdered(s) && GiBounded(s.gi) && Live(s.link) && s.gi.queue == []
    ensures GiPart(Pipeline(s)) == s.gi.made
  {
    assert Held(s.gi) == [];
  }

  /** A step that takes a spontaneous frame finds no interrogation frame queued. */
  lemma {:induction false} TakesWhenNone(cfg: Config, w: World, a: Action)
    requires Step(cfg, w, a).s.out.taken != w.s.out.taken
    ensures w.s.gi.queue == []
  {
    if a.Write? {
      DrainQueues(w.s);
    }
  }

  /** The writer takes no spontaneous frame before it has taken every interrogation frame made earlier. */
  lemma {:induction false} InterrogationFirst(cfg: Config, w: World, actions: seq<Action>)
    requires Inv(cfg, w.s) && Live(Run(cfg, w, actions).s.link)
    ensures w.s.gi.made <= GiPart(Pipeline(Run(cfg, w, actions).s)) || Run(cfg, w, actions).s.out.taken == w.s.out.taken
    decreases |actions|
  {
    if actions != [] {
      var w' := Step(cfg, w, actions[0]);
      InvStep(cfg, w, actions[0]);
      MadeNeverShrinks(cfg, w, actions[0]);
      RunLives(cfg, w', actions[1..]);
      if w'.s.out.taken != w.s.out.taken {
        TakesWhenNone(cfg, w, actions[0]);
        RunLives(cfg, w, actions);
        NoneQueued(w.s);
        PipelineGrows(cfg, w, actions);
      } else {
        InterrogationFirst(cfg, w', actions[1..]);
      }
    }
  }

  lemma {:induction false} MadeNeverShrinks(cfg: Config, w: World, a: Action)
    ensures w.s.gi.made <= Step(cfg, w, a).s.gi.made
  {
    if !a.Telemetry? {
      MadeGrows(cfg, w.s, w.values, a);
    }
  }

  lemma {:induction false} RunLives(cfg: Config, w: World, actions: seq<Action>)
    ensures Live(Run(cfg, w, actions).s.link) ==> Live(w.s.link)
    decreases |actions|
  {
    if actions != [] {
      if !actions[0].Telemetry? {
        LivesOn(cfg, w.s, w.values, actions[0]);
      }
      RunLives(cfg, Step(cfg, w, actions[0]), actions[1..]);
    }
  }

  lemma {:induction false} PipelineGrows(cfg: Config, w: World, actions: seq<Action>)
    requires Inv(cfg, w.s) && Live(Run(cfg, w, actions).s.link)
    ensures GiPart(Pipeline(w.s)) <= GiPart(Pipeline(Run(cfg, w, actions).s))
    decreases |actions|
  {
    if |actions| > 0 {
      var w' := Step(cfg, w, actions[0]);
      InvStep(cfg, w, actions[0]);
      RunLives(cfg, w', actions[1..]);
      if actions[0].Telemetry? {
        assert Pipeline(w'.s) == Pipeline(w.s);
      } else {
        StepPipeline(GiOnly, cfg, w.s, w.values, actions[0]);
      }
      PipelineGrows(cfg, w', actions[1..]);
    }
  }

  // ---- No deadlock ----

  /** Steps that need nothing from outside but the S-frames a master owes. */
  predicate Internal(a: Action) {
    a.Interrogate? || a.Write? || a.Transmit? || a.ReaderDone? || a.GetS?
  }

  function QueueWork(gi: GiSide, out: Outbox): nat {
    6 * (|gi.queue| + |out.queue| + |Held(gi)|) + 8 * |Todo(gi)| + (if gi.task.Task? then 1 else 0)
  }

  function LineWork(s: Session): nat {
    2 * |s.line.lock| + match s.writer.drain
                        case Parked(_) => if s.line.unacked >= K_WINDOW then 5 else 4
                        case Idle => 0
                        case Stopped => 0
                        case _ => 1
  }

  /** How much a session still has to do. */
  function Work(s: Session): nat {
    QueueWork(s.gi, s.out) + LineWork(s) + (if s.link.readerBusy then 4 else 0)
  }

  /** The step a session with work to do takes next. */
  function NextMove(s: Session): Action {
    if s.line.lock != [] then Transmit
    else if s.link.readerBusy then ReaderDone
    else match s.writer.drain
      case Parked(_) => if s.line.unacked >= K_WINDOW then GetS else Write
      case Sending(_) => Write
      case _ => if s.gi.queue != [] || s.out.queue != [] then Write else Interrogate
  }

  lemma {:induction false} OfferWork(s: Session, asdu: Asdu)
    requires Live(s.link) && s.line.ns < SEQUENCE_MODULUS && s.line.lock == []
    ensures var s' := Offer(s, asdu);
            s'.link == s.link && s'.gi == s.gi && s'.out == s.out
            && LineWork(s') == if s.line.unacked >= K_WINDOW then 5 else 3
  {
    SendFrameMoves(s.link, s.line, asdu);
  }

  lemma {:induction false} WriteWorks(s: Session)
    requires NoLostWakeup(s) && GiBounded(s.gi) && Live(s.link) && s.line.lock == [] && s.line.ns < SEQUENCE_MODULUS
    requires match s.writer.drain
             case Parked(_) => s.line.unacked < K_WINDOW
             case Idle => s.gi.queue != [] || s.out.queue != []
             case Waiting => s.gi.queue != [] || s.out.queue != []
             case _ => true
    ensures Live(DrainStep(s).link) && Work(DrainStep(s)) < Work(s)
  {
    match s.writer.drain
    case Idle =>
      if s.gi.queue != [] {
        OfferWork(s.(gi := TakeGi(s.gi)), s.gi.queue[0]);
        assert QueueWork(TakeGi(s.gi), s.out) == QueueWork(s.gi, s.out) - 6;
      } else {
        OfferWork(s.(out := TakeOutbox(s.out)), s.out.queue[0]);
        assert QueueWork(s.gi, TakeOutbox(s.out)) == QueueWork(s.gi, s.out) - 6;
      }
    case Parked(asdu) => OfferWork(s, asdu);
    case Sending(pos) => assert |Handed(s.line)| == |s.line.wire|;
    case _ =>
  }

  lemma {:induction false} InterrogateWorks(s: Session, values: Values)
    requires GiBounded(s.gi) && s.gi.task.Task? && s.gi.queue == []
    ensures GiStep(s, values).link == s.link && Work(GiStep(s, values)) < Work(s)
  {
  }

  /** What a live session has to do next is always enabled, and leaves it less to do. */
  lemma {:induction false} NextMoveWorks(cfg: Config, w: World)
    requires Inv(cfg, w.s) && Live(w.s.link) && !Quiet(w.s)
    ensures Internal(NextMove(w.s))
    ensures var w' := Step(cfg, w, NextMove(w.s));
            Live(w'.s.link) && w'.values == w.values && Work(w'.s) < Work(w.s)
  {
    SessionMoveWorks(cfg, w.s, w.values);
  }

  lemma {:induction false} SessionMoveWorks(cfg: Config, s: Session, values: Values)
    requires NoLostWakeup(s) && GiBounded(s.gi) && s.line.ns < SEQUENCE_MODULUS && Live(s.link) && !s.link.ended && !Quiet(s)
    ensures Internal(NextMove(s))
    ensures var s' := SessionStep(cfg, s, values, NextMove(s));
            Live(s'.link) && Work(s') < Work(s)
  {
    match NextMove(s)
    case Write => WriteWorks(s);
    case Interrogate => InterrogateWorks(s, values);
    case ReaderDone => ReaderWorks(s);
    case _ =>
  }

  lemma {:induction false} ReaderWorks(s: Session)
    requires Live(s.link) && s.line.lock == [] && s.link.readerBusy
    ensures var s' := AckReceived(s.(link := s.link.(readerBusy := false)));
            Live(s'.link) && Work(s') < Work(s)
  {
  }

  predicate Quiet(s: Session) {
    Drained(s) && !s.link.readerBusy
  }

  /** No deadlock: from every reachable live state, with nothing but its own steps and the S-frames the master owes,
      the session sends everything it has to send, and changes no value while doing so. */
  lemma {:induction false} CanDrain(cfg: Config, w: World) returns (actions: seq<Action>)
    requires Inv(cfg, w.s) && Live(w.s.link)
    ensures forall a <- actions :: Internal(a)
    ensures var w' := Run(cfg, w, actions); Quiet(w'.s) && Live(w'.s.link) && w'.values == w.values
    decreases Work(w.s)
  {
    if Quiet(w.s) {
      actions := [];
    } else {
      var a := NextMove(w.s);
      NextMoveWorks(cfg, w);
      InvStep(cfg, w, a);
      var rest := CanDrain(cfg, Step(cfg, w, a));
      actions := [a] + rest;
      assert actions[1..] == rest;
    }
  }

  // ---- From the wire to the master's reader ----

  predicate InRange(x: Apdu<Asdu>) {
    match x case I(ns, nr, _) => ns < SEQUENCE_MODULUS && nr < SEQUENCE_MODULUS case S(nr) => nr < SEQUENCE_MODULUS case U(_) => true
  }

  ghost predicate Encodable(line: Line) {
    (forall x <- line.wire :: InRange(x)) && (forall x <- line.lock :: InRange(x))
  }

  lemma {:induction false} EncodableStep(cfg: Config, s: Session, values: Values, a: Action)
    requires Encodable(s.line)
    ensures Encodable(SessionStep(cfg, s, values, a).line)
  {
    if a.Write? {
      DrainLine(s);
    }
  }

  lemma {:induction false} EncodableRun(cfg: Config, w: World, actions: seq<Action>)
    requires Encodable(w.s.line)
    ensures Encodable(Run(cfg, w, actions).s.line)
    decreases |actions|
  {
    if actions != [] {
      if !actions[0].Telemetry? {
        EncodableStep(cfg, w.s, w.values, actions[0]);
      }
      EncodableRun(cfg, Step(cfg, w, actions[0]), actions[1..]);
    }
  }

  /** A frame with its application data encoded. */
  function Encoded(encode: Asdu -> Bytes, x: Apdu<Asdu>): Apdu<Bytes> {
    match x case I(ns, nr, asdu) => I(ns, nr, encode(asdu)) case S(nr) => S(nr) case U(tag) => U(tag)
  }

  function Pieces(encode: Asdu -> Bytes, frames: seq<Apdu<Asdu>>): seq<Piece> {
    seq(|frames|, i requires 0 <= i < |frames| => Whole(Encoded(encode, frames[i])))
  }

  lemma {:induction false} PiecesFrames(encode: Asdu -> Bytes, frames: seq<Apdu<Asdu>>)
    ensures FramesOf(Pieces(encode, frames)) == seq(|frames|, i requires 0 <= i < |frames| => Encoded(encode, frames[i]))
    decreases |frames|
  {
    if frames != [] {
      assert Pieces(encode, frames)[1..] == Pieces(encode, frames[1..]);
      PiecesFrames(encode, frames[1..]);
    }
  }

  /** End to end: whatever the encoding of the application data, as long as it fits a frame, a reader that cuts the
      bytes on the wire into chunks anywhere dispatches exactly the frames sent, in order. */
  lemma {:induction false} WireReassembles(cfg: Config, w: World, encode: Asdu -> Bytes, chunks: seq<Bytes>)
    requires Reachable(cfg, w) && forall a :: |encode(a)| <= MAX_ASDU
    ensures WellFormed(Pieces(encode, w.s.line.wire))
    ensures Join(chunks) == StreamOf(Pieces(encode, w.s.line.wire)) ==>
              var n := |w.s.line.wire|;
              FeedAll([], chunks) == Scanned(seq(n, i requires 0 <= i < n => Encoded(encode, w.s.line.wire[i])), [])
  {
    var values, actions :| w == Run(cfg, World(values, NEW_SESSION), actions);
    EncodableRun(cfg, World(values, NEW_SESSION), actions);
    var pieces := Pieces(encode, w.s.line.wire);
    forall i | 0 <= i < |pieces| ensures GoodPiece(pieces[i]) {
      assert InRange(w.s.line.wire[i]);
    }
    if Join(chunks) == StreamOf(pieces) {
      Reassembles(pieces, chunks);
      PiecesFrames(encode, w.s.line.wire);
    }
  }

  // ---- Acknowledging what is received ----

  function AckOf(x: Apdu<Asdu>): Option<nat> {
    if x.S? then Some(x.nr) else None
  }

  function Acks(line: Line): seq<nat> {
    Project(AckOf, Handed(line))
  }

  /** The S-frames sent acknowledge 12, 24, 36, ... I-frames, one for every twelfth received. */
  ghost predicate Acknowledged(s: Session) {
    && (s.link.readerBusy ==> s.link.nr > 0)
    && (forall i | 0 <= i < |Acks(s.line)| :: Acks(s.line)[i] == 12 * (i + 1))
    && (Live(s.link) ==> |Acks(s.line)| == (if s.link.readerBusy then s.link.nr - 1 else s.link.nr) / 12)
  }

  lemma {:induction false} PushAcks(link: Link, line: Line, x: Apdu<Asdu>)
    ensures Acks(PushFrame(link, line, x)) == Acks(line) + (if link.closed then [] else match AckOf(x) case None => [] case Some(n) => [n])
  {
    if !link.closed {
      ProjectSnoc(AckOf, Handed(line), x);
      assert Handed(PushFrame(link, line, x)) == Handed(line) + [x];
    }
  }

  lemma {:induction false} SendAcks(link: Link, line: Line, asdu: Asdu)
    ensures Acks(SendFrame(link, line, asdu)) == Acks(line)
  {
    if Numberable(link, line) {
      PushAcks(link, line.(ns := (line.ns + 1) % SEQUENCE_MODULUS, unacked := line.unacked + 1), I(line.ns, link.nr, asdu));
    }
    assert Handed(line.(ns := 0)) == Handed(line);
    assert Handed(line.(ns := (line.ns + 1) % SEQUENCE_MODULUS, unacked := line.unacked + 1)) == Handed(line);
  }

  lemma {:induction false} ReceivedAcks(s: Session)
    requires !s.link.readerBusy && s.link.nr > 0
    requires forall i | 0 <= i < |Acks(s.line)| :: Acks(s.line)[i] == 12 * (i + 1)
    requires Live(s.link) ==> |Acks(s.line)| == (s.link.nr - 1) / 12
    ensures Acknowledged(AckReceived(s))
  {
    Twelfths(s.link.nr);
    PushAcks(s.link, s.line, S(s.link.nr));
  }

  lemma {:induction false} Twelfths(n: nat)
    requires n > 0
    ensures n / 12 == (n - 1) / 12 + if n % 12 == 0 then 1 else 0
  {
  }

  lemma {:induction false} UAcks(s: Session, tag: UTag)
    ensures Acks(HandleU(s, tag).line) == Acks(s.line)
  {
    PushAcks(s.link, s.line, U(StartCon));
    PushAcks(s.link, s.line, U(StopCon));
    PushAcks(s.link, s.line, U(TestCon));
  }

  lemma {:induction false} WriteAcks(s: Session)
    ensures Acks(DrainStep(s).line) == Acks(s.line)
  {
    DrainLine(s);
    if Offered(s).Some? {
      SendAcks(s.link, s.line, Offered(s).value);
    }
  }

  lemma {:induction false} OtherAcks(cfg: Config, s: Session, values: Values, a: Action)
    requires !a.GetInterrogation? && !a.ReaderDone?
    ensures Acks(SessionStep(cfg, s, values, a).line) == Acks(s.line)
  {
    match a
    case GetU(tag) => UAcks(s, tag);
    case SendReply(id) => SendAcks(s.link, s.line, DirectReply(id));
    case Write => WriteAcks(s);
    case GetS => assert Handed(HandleS(s).line) == Handed(s.line);
    case Transmit => assert Handed(TransmitNext(s).line) == Handed(s.line);
    case _ =>
  }

  lemma {:induction false} OtherReceives(cfg: Config, s: Session, values: Values, a: Action)
    requires !a.GetInterrogation? && !a.ReaderDone?
    ensures var link := SessionStep(cfg, s, values, a).link;
            (Live(link) ==> Live(s.link))
            && ((link.nr == s.link.nr && (link.readerBusy == s.link.readerBusy || (!Live(link) && !link.readerBusy)))
                || (link.nr == s.link.nr + 1 && !s.link.readerBusy && link.readerBusy))
  {
    if a.Write? {
      DrainLine(s);
    }
  }

  lemma {:induction false} AcknowledgedStep(cfg: Config, s: Session, values: Values, a: Action)
    requires Acknowledged(s)
    ensures Acknowledged(SessionStep(cfg, s, values, a))
  {
    if a.GetInterrogation? {
      if ReaderFree(s) {
        ReceivedAcks(StartInterrogation(cfg, s.(link := s.link.(nr := s.link.nr + 1)), a.ca));
      }
    } else if a.ReaderDone? {
      if s.link.readerBusy {
        ReceivedAcks(s.(link := s.link.(readerBusy := false)));
      }
    } else {
      OtherAcks(cfg, s, values, a);
      OtherReceives(cfg, s, values, a);
    }
  }

  lemma {:induction false} AcknowledgedRun(cfg: Config, w: World, actions: seq<Action>)
    requires Acknowledged(w.s)
    ensures Acknowledged(Run(cfg, w, actions).s)
    decreases |actions|
  {
    if actions != [] {
      if actions[0].Telemetry? {
        assert Step(cfg, w, actions[0]).s.line == w.s.line && Step(cfg, w, actions[0]).s.link == w.s.link;
      } else {
        AcknowledgedStep(cfg, w.s, w.values, actions[0]);
      }
      AcknowledgedRun(cfg, Step(cfg, w, actions[0]), actions[1..]);
    }
  }

  /** So in every reachable live state with an idle reader the acknowledgements are exactly those. */
  lemma {:induction false} ReceivedAreAcknowledged(cfg: Config, w: World)
    requires Reachable(cfg, w) && Live(w.s.link) && !w.s.link.readerBusy
    ensures Acks(w.s.line) == seq(w.s.link.nr / 12, i => 12 * (i + 1))
  {
    var values, actions :| w == Run(cfg, World(values, NEW_SESSION), actions);
    AcknowledgedRun(cfg, World(values, NEW_SESSION), actions);
  }
}
