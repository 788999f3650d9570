/** What every step of a session keeps, and so what holds in every reachable state: numbering, window,
    conservation, the order and completeness of interrogation answers, and no lost wake-up. */
module Iec104SessionInvariants {
  import opened Prelude
  import opened Iec104Apci
  import opened Iec104Points
  import opened Iec104Session

  /** Frames can leave: the connection is open and the receive counter still fits its 15-bit field. */
  predicate Live(link: Link) {
    !link.closed && link.nr < SEQUENCE_MODULUS
  }

  /** The frames handed to the lock are numbered 0, 1, 2, ... modulo 32768, and `ns` is the next number. */
  ghost predicate Numbered(link: Link, line: Line) {
    var numbers := Numbers(Handed(line));
    && |numbers| == |Carried(Handed(line))|
    && (forall i | 0 <= i < |numbers| :: numbers[i] == i % SEQUENCE_MODULUS)
    && line.ns < SEQUENCE_MODULUS
    && (Live(link) ==> line.ns == |numbers| % SEQUENCE_MODULUS)
  }

  /** Never more than twelve I-frames since the last S-frame. */
  ghost predicate Windowed(link: Link, line: Line) {
    var count := |Carried(Handed(line))|;
    && line.acked <= count <= line.acked + line.unacked
    && line.unacked <= K_WINDOW
    && (!link.closed ==> count == line.acked + line.unacked)
  }

  // ---- The sending side ----

  lemma {:induction false} HandedSnoc(frames: seq<Apdu<Asdu>>, x: Apdu<Asdu>)
    ensures Carried(frames + [x]) == Carried(frames) + Optional(AsduOf(x))
    ensures Numbers(frames + [x]) == Numbers(frames) + (if x.I? then [x.ns] else [])
  {
    ProjectSnoc(AsduOf, frames, x);
    ProjectSnoc(NumberOf, frames, x);
  }

  /** A frame offered to `_send_i` is handed over. */
  predicate Sends(link: Link, line: Line) {
    Numberable(link, line) && !link.closed
  }

  /** The line after sending `asdu`, or after a step that sends no I-frame. */
  ghost predicate LineMove(link: Link, line: Line, line': Line, sent: Option<Asdu>) {
    && Carried(Handed(line')) == Carried(Handed(line)) + Optional(sent)
    && Numbers(Handed(line')) == Numbers(Handed(line)) + (if sent.Some? then [line.ns] else [])
  }

  lemma {:induction false} PushControl(link: Link, line: Line, x: Apdu<Asdu>)
    requires !x.I?
    ensures LineMove(link, line, PushFrame(link, line, x), None)
  {
    if !link.closed {
      assert Handed(PushFrame(link, line, x)) == Handed(line) + [x];
      HandedSnoc(Handed(line), x);
    }
  }

  lemma {:induction false} SendFrameMoves(link: Link, line: Line, asdu: Asdu)
    ensures LineMove(link, line, SendFrame(link, line, asdu), if Sends(link, line) then Some(asdu) else None)
    ensures |SendFrame(link, line, asdu).lock| > |line.lock| <==> Sends(link, line)
    ensures SendFrame(link, line, asdu).wire == line.wire
  {
    if Sends(link, line) {
      assert Handed(SendFrame(link, line, asdu)) == Handed(line) + [I(line.ns, link.nr, asdu)];
      HandedSnoc(Handed(line), I(line.ns, link.nr, asdu));
    } else {
      assert Handed(SendFrame(link, line, asdu)) == Handed(line);
    }
  }

  /** The frame the writer task offers in this step, if it offers one. */
  function Offered(s: Session): Option<Asdu> {
    match s.writer.drain
    case Idle =>
      if s.gi.queue != [] then Some(s.gi.queue[0])
      else if s.out.queue != [] then Some(s.out.queue[0])
      else None
    case Parked(asdu) => if s.writer.windowOpen then Some(asdu) else None
    case _ => None
  }

  /** The application data a step hands to the lock. */
  function Sent(s: Session, a: Action): Option<Asdu> {
    if !Sends(s.link, s.line) then None else
      match a
      case SendReply(id) => Some(DirectReply(id))
      case Write => Offered(s)
      case _ => None
  }

  lemma {:induction false} DrainLine(s: Session)
    ensures DrainStep(s).line == match Offered(s) case None => s.line case Some(asdu) => SendFrame(s.link, s.line, asdu)
    ensures DrainStep(s).link.closed == s.link.closed && DrainStep(s).link.nr == s.link.nr
  {
  }

  /** A step that leaves the handed frames alone. */
  lemma {:induction false} NoMove(link: Link, line: Line, line': Line)
    requires Handed(line') == Handed(line)
    ensures LineMove(link, line, line', None)
  {
  }

  lemma {:induction false} HandleUMoves(s: Session, tag: UTag)
    ensures LineMove(s.link, s.line, HandleU(s, tag).line, None)
  {
    PushControl(s.link, s.line, U(StartCon));
    PushControl(s.link, s.line, U(StopCon));
    PushControl(s.link, s.line, U(TestCon));
    NoMove(s.link, s.line, s.line);
  }

  lemma {:induction false} AckMoves(s: Session, link: Link)
    ensures LineMove(link, s.line, AckReceived(s).line, None)
  {
    PushControl(s.link, s.line, S(s.link.nr));
    NoMove(s.link, s.line, s.line);
  }

  lemma {:induction false} DrainMoves(s: Session)
    ensures LineMove(s.link, s.line, DrainStep(s).line, Sent(s, Write))
  {
    DrainLine(s);
    if Offered(s).Some? {
      SendFrameMoves(s.link, s.line, Offered(s).value);
    } else {
      NoMove(s.link, s.line, s.line);
    }
  }

  lemma {:induction false} InterrogationLine(cfg: Config, s: Session, ca: nat)
    ensures StartInterrogation(cfg, s, ca).line == s.line
  {
  }

  /** The I-frames handed to the lock only ever grow, by the one frame the step sends, numbered `ns`. */
  lemma {:induction false} StepMoves(cfg: Config, s: Session, values: Values, a: Action)
    ensures LineMove(s.link, s.line, SessionStep(cfg, s, values, a).line, Sent(s, a))
  {
    NoMove(s.link, s.line, s.line);
    match a
    case GetU(tag) => HandleUMoves(s, tag);
    case GetS => NoMove(s.link, s.line, HandleS(s).line);
    case GetInterrogation(ca) =>
      var s1 := s.(link := s.link.(nr := s.link.nr + 1));
      InterrogationLine(cfg, s1, ca);
      AckMoves(StartInterrogation(cfg, s1, ca), s.link);
    case ReaderDone => AckMoves(s.(link := s.link.(readerBusy := false)), s.link);
    case SendReply(id) => SendFrameMoves(s.link, s.line, DirectReply(id));
    case Write => DrainMoves(s);
    case Transmit => NoMove(s.link, s.line, TransmitNext(s).line);
    case _ =>
  }

  lemma {:induction false} NumberedMove(link: Link, line: Line, link': Link, line': Line, sent: Option<Asdu>)
    requires Numbered(link, line) && LineMove(link, line, line', sent)
    requires Live(link') ==> Live(link)
    requires sent.Some? ==> Live(link) && line'.ns == (line.ns + 1) % SEQUENCE_MODULUS
    requires sent.None? ==> line'.ns == line.ns || (!Live(link') && line'.ns < SEQUENCE_MODULUS)
    ensures Numbered(link', line')
  {
  }

  lemma {:induction false} NumberedStep(cfg: Config, s: Session, values: Values, a: Action)
    requires Numbered(s.link, s.line)
    ensures var s' := SessionStep(cfg, s, values, a); Numbered(s'.link, s'.line)
  {
    var s' := SessionStep(cfg, s, values, a);
    StepMoves(cfg, s, values, a);
    if a.Write? {
      DrainLine(s);
    }
    NumberedMove(s.link, s.line, s'.link, s'.line, Sent(s, a));
  }

  lemma {:induction false} WindowedStep(cfg: Config, s: Session, values: Values, a: Action)
    requires Windowed(s.link, s.line)
    ensures var s' := SessionStep(cfg, s, values, a); Windowed(s'.link, s'.line)
  {
    StepMoves(cfg, s, values, a);
    if a.Write? {
      DrainLine(s);
    }
  }

  // ---- Wake-ups ----

  /** A sleeping writer task has been woken if it has something to do; a frame it is sending is in the lock. */
  ghost predicate NoLostWakeup(s: Session) {
    var w := s.writer;
    && (w.drain.Waiting? && (s.gi.queue != [] || s.out.queue != []) ==> w.dataReady)
    && (w.drain.Parked? && s.line.unacked < K_WINDOW ==> w.windowOpen)
    && (w.drain.Sending? ==> w.drain.pos < |Handed(s.line)|)
    && (w.drain.Stopped? ==> s.link.closed)
    && (!s.link.closed ==> s.link.registered && !s.link.ended)
  }

  lemma {:induction false} OfferWakes(s: Session, asdu: Asdu)
    ensures var s' := Offer(s, asdu);
            && !s'.writer.drain.Waiting? && !s'.writer.drain.Stopped?
            && (s'.writer.drain.Parked? ==> s.line.unacked >= K_WINDOW && s'.line == s.line)
            && (s'.writer.drain.Sending? ==> s'.writer.drain.pos < |Handed(s'.line)|)
  {
    SendFrameMoves(s.link, s.line, asdu);
  }

  lemma {:induction false} DrainWakes(s: Session)
    requires NoLostWakeup(s)
    ensures NoLostWakeup(DrainStep(s))
  {
    if s.writer.drain.Idle? && s.gi.queue != [] {
      OfferWakes(s.(gi := TakeGi(s.gi)), s.gi.queue[0]);
    } else if s.writer.drain.Idle? && s.out.queue != [] {
      OfferWakes(s.(out := TakeOutbox(s.out)), s.out.queue[0]);
    } else if s.writer.drain.Parked? && s.writer.windowOpen {
      OfferWakes(s, s.writer.drain.asdu);
    }
  }

  lemma {:induction false} AckWakes(s: Session)
    requires NoLostWakeup(s)
    ensures NoLostWakeup(AckReceived(s))
  {
  }

  lemma {:induction false} SendIWakes(s: Session, asdu: Asdu)
    requires NoLostWakeup(s)
    ensures NoLostWakeup(SendI(s, asdu))
  {
    SendFrameMoves(s.link, s.line, asdu);
  }

  lemma {:induction false} StartWakes(cfg: Config, s: Session, ca: nat)
    requires NoLostWakeup(s)
    ensures NoLostWakeup(StartInterrogation(cfg, s, ca))
  {
  }

  lemma {:induction false} NoLostWakeupStep(cfg: Config, s: Session, values: Values, a: Action)
    requires NoLostWakeup(s)
    ensures NoLostWakeup(SessionStep(cfg, s, values, a))
  {
    match a
    case Write => DrainWakes(s);
    case SendReply(id) => SendIWakes(s, DirectReply(id));
    case GetInterrogation(ca) =>
      var s1 := s.(link := s.link.(nr := s.link.nr + 1));
      StartWakes(cfg, s1, ca);
      AckWakes(StartInterrogation(cfg, s1, ca));
    case ReaderDone => AckWakes(s.(link := s.link.(readerBusy := false)));
    case _ =>
  }

  // ---- From the queues to the lock ----

  /** Every frame that left a queue or was sent directly: handed to the lock, or in the writer's hand. */
  function Pipeline(s: Session): seq<Asdu> {
    Carried(Handed(s.line)) + InHand(s.writer)
  }

  lemma {:induction false} OfferPipeline(s: Session, asdu: Asdu)
    requires Live(s.link) && s.line.ns < SEQUENCE_MODULUS
    ensures Pipeline(Offer(s, asdu)) == Carried(Handed(s.line)) + [asdu]
  {
    SendFrameMoves(s.link, s.line, asdu);
  }

  /** The frame the writer task takes out of a queue in this step. */
  function Taken(s: Session): seq<Asdu> {
    if s.writer.drain.Idle? then
      if s.gi.queue != [] then [s.gi.queue[0]] else if s.out.queue != [] then [s.out.queue[0]] else []
    else []
  }

  /** While the session lives, the writer task drops nothing and keeps the order in which it took frames. */
  lemma {:induction false} WritePipeline(s: Session)
    requires Live(s.link) && s.line.ns < SEQUENCE_MODULUS
    ensures Pipeline(DrainStep(s)) == Pipeline(s) + Taken(s)
  {
    match s.writer.drain
    case Idle =>
      if s.gi.queue != [] {
        OfferPipeline(s.(gi := TakeGi(s.gi)), s.gi.queue[0]);
      } else if s.out.queue != [] {
        OfferPipeline(s.(out := TakeOutbox(s.out)), s.out.queue[0]);
      }
    case Parked(asdu) =>
      if s.writer.windowOpen {
        OfferPipeline(s, asdu);
      }
    case _ =>
  }

  /** `f` keeps nothing of a direct reply. */
  ghost predicate Blind(f: Asdu -> Option<Asdu>) {
    forall id :: f(DirectReply(id)).None?
  }

  lemma {:induction false} LivesOn(cfg: Config, s: Session, values: Values, a: Action)
    ensures Live(SessionStep(cfg, s, values, a).link) ==> Live(s.link)
    ensures a.Write? || a.SendReply? ==> Live(SessionStep(cfg, s, values, a).link) == Live(s.link)
    ensures Sent(s, a).Some? ==> Live(s.link) && Live(SessionStep(cfg, s, values, a).link)
  {
    if a.Write? {
      DrainLine(s);
    }
  }

  lemma {:induction false} ReplyPipeline(f: Asdu -> Option<Asdu>, s: Session, id: nat)
    requires Blind(f)
    ensures Project(f, Pipeline(SendI(s, DirectReply(id)))) == Project(f, Pipeline(s))
  {
    var handed := Carried(Handed(s.line));
    var hand := InHand(s.writer);
    SendFrameMoves(s.link, s.line, DirectReply(id));
    ProjectConcat(f, handed, hand);
    ProjectConcat(f, handed + [DirectReply(id)], hand);
    ProjectSnoc(f, handed, DirectReply(id));
    assert handed + [] == handed;
  }

  lemma {:induction false} OtherPipeline(cfg: Config, s: Session, values: Values, a: Action)
    requires !a.Write? && !a.SendReply? && Live(SessionStep(cfg, s, values, a).link)
    ensures Pipeline(SessionStep(cfg, s, values, a)) == Pipeline(s)
  {
    StepMoves(cfg, s, values, a);
    assert SessionStep(cfg, s, values, a).writer.drain == s.writer.drain;
  }

  /** How what `f` keeps of the pipeline changes in one step. */
  lemma {:induction false} StepPipeline(f: Asdu -> Option<Asdu>, cfg: Config, s: Session, values: Values, a: Action)
    requires Blind(f) && s.line.ns < SEQUENCE_MODULUS
    requires Live(SessionStep(cfg, s, values, a).link)
    ensures Project(f, Pipeline(SessionStep(cfg, s, values, a))) ==
              Project(f, Pipeline(s)) + Project(f, if a.Write? then Taken(s) else [])
  {
    LivesOn(cfg, s, values, a);
    if a.Write? {
      WritePipeline(s);
      ProjectConcat(f, Pipeline(s), Taken(s));
    } else if a.SendReply? {
      ReplyPipeline(f, s, a.id);
    } else {
      OtherPipeline(cfg, s, values, a);
    }
  }

  /** What `f` keeps of the frames handed over, when a step hands one over. */
  lemma {:induction false} StepHandedPart(f: Asdu -> Option<Asdu>, cfg: Config, s: Session, values: Values, a: Action)
    ensures var s' := SessionStep(cfg, s, values, a);
            Project(f, Carried(Handed(s'.line))) ==
              Project(f, Carried(Handed(s.line))) + Project(f, Optional(Sent(s, a)))
  {
    StepMoves(cfg, s, values, a);
    ProjectConcat(f, Carried(Handed(s.line)), Optional(Sent(s, a)));
  }

  // ---- The spontaneous queue ----

  /** The spontaneous queue is a bounded suffix of what was enqueued; what is no longer in it was taken by the
      writer, in order, or counted as dropped. */
  ghost predicate Conserved(out: Outbox) {
    var gone := |out.enqueued| - |out.queue|;
    && |out.queue| <= OUTBOX_MAX
    && |out.enqueued| == |out.taken| + |out.queue| + out.dropped
    && out.queue == out.enqueued[gone..]
    && Subsequence(out.taken, out.enqueued[..gone])
    && (forall a <- out.queue :: IsSpontaneous(a))
  }

  lemma {:induction false} AppendConserves(out: Outbox, asdu: Asdu)
    requires Conserved(out) && IsSpontaneous(asdu)
    ensures Conserved(Append(out, asdu))
  {
    if |out.queue| == OUTBOX_MAX {
      AppendDrops(out, asdu);
    } else {
      var gone := |out.enqueued| - |out.queue|;
      assert (out.enqueued + [asdu])[gone..] == out.queue + [asdu];
      assert (out.enqueued + [asdu])[..gone] == out.enqueued[..gone];
    }
  }

  lemma {:induction false} AppendDrops(out: Outbox, asdu: Asdu)
    requires Conserved(out) && IsSpontaneous(asdu) && |out.queue| == OUTBOX_MAX
    ensures Conserved(Append(out, asdu))
  {
    var gone := |out.enqueued| - |out.queue|;
    var all := out.enqueued + [asdu];
    assert all[gone + 1..] == (out.queue + [asdu])[1..];
    assert all[..gone + 1] == out.enqueued[..gone] + [all[gone]];
    SubsequenceSkip(out.taken, out.enqueued[..gone], all[gone]);
  }

  lemma {:induction false} TakeConserves(out: Outbox)
    requires Conserved(out) && out.queue != []
    ensures Conserved(TakeOutbox(out))
  {
    var gone := |out.enqueued| - |out.queue|;
    assert out.enqueued[gone + 1..] == out.queue[1..];
    assert out.enqueued[..gone + 1] == out.enqueued[..gone] + [out.queue[0]];
    SubsequenceKeep(out.taken, out.enqueued[..gone], out.queue[0]);
  }

  /** On the wire, the spontaneous frames are those taken, in that order; none is lost while the session lives. */
  ghost predicate SpontaneousOrdered(s: Session) {
    var handed := SpontaneousPart(Carried(Handed(s.line)));
    && handed <= s.out.taken
    && (Live(s.link) ==> SpontaneousPart(Pipeline(s)) == s.out.taken)
  }

  // ---- Interrogations ----

  /** Everything the answered interrogations have to produce. */
  function Plan(cfg: Config, answered: seq<nat>): seq<Item> {
    if |answered| == 0 then []
    else Plan(cfg, answered[..|answered| - 1]) + Script(cfg, answered[|answered| - 1])
  }

  predicate Fits(item: Item, a: Asdu) {
    match item
    case Confirm(ca) => a == Interrogation(ca, ActCon)
    case Terminate(ca) => a == Interrogation(ca, ActTerm)
    case Report(p) => a.Measured? && a.ca == p.ca && a.ioa == p.ioa && a.cause == Interrogated
  }

  function Todo(gi: GiSide): seq<Item> {
    match gi.task case NoTask => [] case Task(todo, _) => todo
  }

  /** The interrogation frames made so far follow the plan, and what is left of the plan is what the task has
      left to do. */
  ghost predicate FollowsPlan(cfg: Config, gi: GiSide, ended: bool) {
    var plan := Plan(cfg, gi.answered);
    && |gi.made| <= |plan|
    && (forall i | 0 <= i < |gi.made| :: Fits(plan[i], gi.made[i]))
    && (!ended ==> plan[|gi.made|..] == Todo(gi))
  }

  /** The queue holds interrogation frames only, and a put is blocked only while it is full. */
  ghost predicate GiBounded(gi: GiSide) {
    && |gi.queue| <= GI_OUTBOX_MAX
    && (forall a <- gi.queue :: IsGi(a))
    && (Held(gi) != [] ==> IsGi(Held(gi)[0]) && |gi.queue| == GI_OUTBOX_MAX)
  }

  /** No interrogation frame is lost or overtaken by another between being made and being handed to the lock. */
  ghost predicate GiOrdered(s: Session) {
    var handed := GiPart(Carried(Handed(s.line)));
    && handed <= s.gi.made
    && (Live(s.link) ==> GiPart(Pipeline(s)) + s.gi.queue + Held(s.gi) == s.gi.made)
  }

  lemma {:induction false} StartFollowsPlan(cfg: Config, s: Session, ca: nat)
    requires FollowsPlan(cfg, s.gi, false)
    ensures FollowsPlan(cfg, StartInterrogation(cfg, s, ca).gi, false)
  {
    var gi := s.gi;
    if gi.task.NoTask? {
      var answered := gi.answered + [ca];
      assert answered[..|answered| - 1] == gi.answered;
      assert Plan(cfg, answered) == Plan(cfg, gi.answered) + Script(cfg, ca);
      assert |Plan(cfg, gi.answered)| == |gi.made|;
    }
  }

  lemma {:induction false} PutFollowsPlan(cfg: Config, gi: GiSide, values: Values, ended: bool)
    requires FollowsPlan(cfg, gi, ended) && (ended ==> gi.task.NoTask?)
    ensures FollowsPlan(cfg, PutGi(gi, values), ended)
  {
    if gi.task.Task? && gi.task.held.None? && gi.task.todo != [] {
      var plan := Plan(cfg, gi.answered);
      assert plan[|gi.made|] == gi.task.todo[0];
      assert plan[|gi.made| + 1..] == gi.task.todo[1..];
    }
  }

  lemma {:induction false} GiBoundedStep(cfg: Config, s: Session, values: Values, a: Action)
    requires GiBounded(s.gi)
    ensures GiBounded(SessionStep(cfg, s, values, a).gi)
  {
    match a
    case Write =>
      var gi' := DrainStep(s).gi;
      assert gi' == s.gi || (s.gi.queue != [] && gi' == TakeGi(s.gi));
    case _ =>
  }

  function GiAfter(s: Session): GiSide {
    if s.writer.drain.Idle? && s.gi.queue != [] then TakeGi(s.gi) else s.gi
  }

  function OutAfter(s: Session): Outbox {
    if s.writer.drain.Idle? && s.gi.queue == [] && s.out.queue != [] then TakeOutbox(s.out) else s.out
  }

  lemma {:induction false} DrainQueues(s: Session)
    ensures DrainStep(s).gi == GiAfter(s) && DrainStep(s).out == OutAfter(s)
  {
  }

  lemma {:induction false} TakenGi(s: Session)
    requires GiBounded(s.gi) && Conserved(s.out)
    ensures GiPart(Taken(s)) + (GiAfter(s).queue + Held(GiAfter(s))) == s.gi.queue + Held(s.gi)
    ensures GiAfter(s).made == s.gi.made
  {
    if s.writer.drain.Idle? && s.gi.queue != [] {
      ProjectOne(GiOnly, s.gi.queue[0]);
    } else if s.writer.drain.Idle? && s.out.queue != [] {
      ProjectOne(GiOnly, s.out.queue[0]);
      assert IsSpontaneous(s.out.queue[0]);
    }
  }

  lemma {:induction false} TakenSpontaneous(s: Session)
    requires GiBounded(s.gi) && Conserved(s.out)
    ensures s.out.taken + SpontaneousPart(Taken(s)) == OutAfter(s).taken
  {
    if s.writer.drain.Idle? && s.gi.queue != [] {
      ProjectOne(SpontaneousOnly, s.gi.queue[0]);
      assert IsGi(s.gi.queue[0]);
    } else if s.writer.drain.Idle? && s.out.queue != [] {
      ProjectOne(SpontaneousOnly, s.out.queue[0]);
      assert IsSpontaneous(s.out.queue[0]);
    }
  }

  /** A conveyor with a queue and a blocked last place: what leaves it arrives, what is made enters it. */
  lemma {:induction false} Conveyor<T>(arrived: seq<T>, moved: seq<T>, q: seq<T>, h: seq<T>, q': seq<T>, h': seq<T>, made: seq<T>, made': seq<T>)
    requires arrived + q + h == made && made <= made'
    requires moved + (q' + h') == q + h + made'[|made|..]
    ensures arrived + moved + q' + h' == made'
  {
    assert arrived + moved + q' + h' == arrived + (moved + (q' + h'));
    assert arrived + (q + h + made'[|made|..]) == made + made'[|made|..];
  }

  lemma {:induction false} OtherGi(cfg: Config, s: Session, values: Values, a: Action)
    requires !a.Write? && !a.Interrogate? && Live(SessionStep(cfg, s, values, a).link)
    ensures var gi' := SessionStep(cfg, s, values, a).gi;
            gi'.queue == s.gi.queue && Held(gi') == Held(s.gi) && gi'.made == s.gi.made
  {
  }

  lemma {:induction false} PutOrders(gi: GiSide, values: Values)
    requires GiBounded(gi)
    ensures var gi' := PutGi(gi, values);
            gi.made <= gi'.made && gi'.queue + Held(gi') == gi.queue + Held(gi) + gi'.made[|gi.made|..]
  {
    var gi' := PutGi(gi, values);
    if gi.task.Task? && gi.task.held.None? && gi.task.todo != [] {
      assert gi'.made[|gi.made|..] == [Produce(gi.task.todo[0], values)];
    } else {
      assert gi'.made[|gi.made|..] == [];
    }
  }

  /** How the interrogation queue, with the blocked put, changes: what the writer takes leaves at the front, what
      the task makes enters at the back. */
  lemma {:induction false} GiMoves(cfg: Config, s: Session, values: Values, a: Action)
    requires GiBounded(s.gi) && Conserved(s.out)
    requires Live(SessionStep(cfg, s, values, a).link)
    ensures var gi' := SessionStep(cfg, s, values, a).gi;
            && s.gi.made <= gi'.made
            && GiPart(if a.Write? then Taken(s) else []) + (gi'.queue + Held(gi'))
                 == s.gi.queue + Held(s.gi) + gi'.made[|s.gi.made|..]
  {
    if a.Write? {
      TakenGi(s);
      DrainQueues(s);
    } else if a.Interrogate? {
      PutOrders(s.gi, values);
    } else {
      OtherGi(cfg, s, values, a);
    }
  }

  /** What is made and what is on its way or handed over stay the same sequence. */
  lemma {:induction false} MadeGrows(cfg: Config, s: Session, values: Values, a: Action)
    ensures s.gi.made <= SessionStep(cfg, s, values, a).gi.made
  {
    if a.Write? {
      assert DrainStep(s).gi.made == s.gi.made;
    }
  }

  lemma {:induction false} GiOrderedStep(cfg: Config, s: Session, values: Values, a: Action)
    requires GiOrdered(s) && GiBounded(s.gi) && Conserved(s.out) && s.line.ns < SEQUENCE_MODULUS
    ensures GiOrdered(SessionStep(cfg, s, values, a))
  {
    var s' := SessionStep(cfg, s, values, a);
    LivesOn(cfg, s, values, a);
    if Live(s'.link) {
      StepPipeline(GiOnly, cfg, s, values, a);
      GiMoves(cfg, s, values, a);
      Conveyor(GiPart(Pipeline(s)), GiPart(if a.Write? then Taken(s) else []), s.gi.queue, Held(s.gi),
               s'.gi.queue, Held(s'.gi), s.gi.made, s'.gi.made);
      ProjectConcat(GiOnly, Carried(Handed(s'.line)), InHand(s'.writer));
    } else {
      StepHandedPart(GiOnly, cfg, s, values, a);
      MadeGrows(cfg, s, values, a);
    }
  }

  lemma {:induction false} SpontaneousMoves(cfg: Config, s: Session, values: Values, a: Action)
    requires GiBounded(s.gi) && Conserved(s.out)
    ensures SessionStep(cfg, s, values, a).out.taken ==
              s.out.taken + SpontaneousPart(if a.Write? then Taken(s) else [])
  {
    if a.Write? {
      TakenSpontaneous(s);
      DrainQueues(s);
    }
  }

  lemma {:induction false} SpontaneousOrderedStep(cfg: Config, s: Session, values: Values, a: Action)
    requires SpontaneousOrdered(s) && GiBounded(s.gi) && Conserved(s.out) && s.line.ns < SEQUENCE_MODULUS
    ensures SpontaneousOrdered(SessionStep(cfg, s, values, a))
  {
    var s' := SessionStep(cfg, s, values, a);
    LivesOn(cfg, s, values, a);
    if Live(s'.link) {
      StepPipeline(SpontaneousOnly, cfg, s, values, a);
      SpontaneousMoves(cfg, s, values, a);
      ProjectConcat(SpontaneousOnly, Carried(Handed(s'.line)), InHand(s'.writer));
    } else {
      StepHandedPart(SpontaneousOnly, cfg, s, values, a);
      SpontaneousMoves(cfg, s, values, a);
    }
  }

  lemma {:induction false} ConservedStep(cfg: Config, s: Session, values: Values, a: Action)
    requires Conserved(s.out)
    ensures Conserved(SessionStep(cfg, s, values, a).out)
  {
    if a.Write? && s.out.queue != [] {
      TakeConserves(s.out);
      assert DrainStep(s).out == s.out || DrainStep(s).out == TakeOutbox(s.out);
    }
  }

  /** The plan is followed, and a session that has ended plans nothing. */
  ghost predicate Planned(cfg: Config, s: Session) {
    FollowsPlan(cfg, s.gi, s.link.ended) && (s.link.ended ==> s.gi.task.NoTask?)
  }

  lemma {:induction false} GetFollowsPlan(cfg: Config, s: Session, ca: nat)
    requires Planned(cfg, s) && ReaderFree(s)
    ensures Planned(cfg, AckReceived(StartInterrogation(cfg, s.(link := s.link.(nr := s.link.nr + 1)), ca)))
  {
    var s1 := s.(link := s.link.(nr := s.link.nr + 1));
    StartFollowsPlan(cfg, s1, ca);
    AckFollowsPlan(cfg, StartInterrogation(cfg, s1, ca));
  }

  lemma {:induction false} DrainFollowsPlan(cfg: Config, s: Session)
    requires Planned(cfg, s)
    ensures Planned(cfg, DrainStep(s))
  {
    DrainQueues(s);
    assert DrainStep(s).link.ended == s.link.ended;
    assert DrainStep(s).gi.made == s.gi.made && DrainStep(s).gi.answered == s.gi.answered;
    assert Todo(DrainStep(s).gi) == Todo(s.gi);
  }

  lemma {:induction false} FollowsPlanStep(cfg: Config, s: Session, values: Values, a: Action)
    requires Planned(cfg, s)
    ensures Planned(cfg, SessionStep(cfg, s, values, a))
  {
    match a
    case GetInterrogation(ca) =>
      if ReaderFree(s) {
        GetFollowsPlan(cfg, s, ca);
      }
    case ReaderDone =>
      if s.link.readerBusy {
        AckFollowsPlan(cfg, s.(link := s.link.(readerBusy := false)));
      }
    case Interrogate => PutFollowsPlan(cfg, s.gi, values, s.link.ended);
    case Write => DrainFollowsPlan(cfg, s);
    case _ =>
      assert SessionStep(cfg, s, values, a).gi.made == s.gi.made;
  }

  lemma {:induction false} AckFollowsPlan(cfg: Config, s: Session)
    requires Planned(cfg, s)
    ensures Planned(cfg, AckReceived(s))
  {
  }

  // ---- The invariant ----

  ghost predicate Inv(cfg: Config, s: Session) {
    && Numbered(s.link, s.line) && Windowed(s.link, s.line)
    && Conserved(s.out) && SpontaneousOrdered(s)
    && Planned(cfg, s)
    && GiBounded(s.gi) && GiOrdered(s)
    && NoLostWakeup(s)
  }

  lemma {:induction false} InvStep(cfg: Config, w: World, a: Action)
    requires Inv(cfg, w.s)
    ensures Inv(cfg, Step(cfg, w, a).s)
  {
    if a.Telemetry? {
      TelemetryInv(cfg, w, a.key, a.v);
    } else {
      NumberedStep(cfg, w.s, w.values, a);
      WindowedStep(cfg, w.s, w.values, a);
      ConservedStep(cfg, w.s, w.values, a);
      SpontaneousOrderedStep(cfg, w.s, w.values, a);
      FollowsPlanStep(cfg, w.s, w.values, a);
      GiBoundedStep(cfg, w.s, w.values, a);
      GiOrderedStep(cfg, w.s, w.values, a);
      NoLostWakeupStep(cfg, w.s, w.values, a);
    }
  }

  lemma {:induction false} TelemetryInv(cfg: Config, w: World, key: Key, v: PointValue)
    requires Inv(cfg, w.s)
    ensures Inv(cfg, Update(cfg, w, key, v).s)
  {
    var w' := Update(cfg, w, key, v);
    if w'.s != w.s {
      var p := FindPoint(cfg.points, key).value;
      var asdu := Measure(p, w'.values, Spontaneous);
      assert w'.s == Enqueue(w.s, asdu);
      AppendConserves(w.s.out, asdu);
      assert Pipeline(w'.s) == Pipeline(w.s);
    }
  }

  lemma {:induction false} InvRun(cfg: Config, w: World, actions: seq<Action>)
    requires Inv(cfg, w.s)
    ensures Inv(cfg, Run(cfg, w, actions).s)
    decreases |actions|
  {
    if actions != [] {
      InvStep(cfg, w, actions[0]);
      InvRun(cfg, Step(cfg, w, actions[0]), actions[1..]);
    }
  }

  /** Nothing sent, nothing queued, nothing asked. */
  predicate Untouched(s: Session) {
    && !s.link.closed && s.link.registered && !s.link.ended && s.link.nr == 0
    && s.line == Line(0, 0, 0, [], []) && s.out == Outbox([], 0, [], []) && s.gi == GiSide([], NoTask, [], [])
    && s.writer.drain.Idle?
  }

  lemma {:induction false} UntouchedLine(s: Session)
    requires Untouched(s)
    ensures Numbered(s.link, s.line) && Windowed(s.link, s.line) && NoLostWakeup(s)
    ensures |Handed(s.line)| == 0 && |Pipeline(s)| == 0
  {
    ProjectNone(AsduOf, Handed(s.line));
    ProjectNone(NumberOf, Handed(s.line));
  }

  lemma {:induction false} UntouchedQueues(s: Session)
    requires Untouched(s)
    ensures Conserved(s.out)
  {
    assert s.out.queue == s.out.enqueued[0..] && s.out.taken == s.out.enqueued[..0];
  }

  lemma {:induction false} UntouchedGi(s: Session)
    requires Untouched(s)
    ensures GiBounded(s.gi)
  {
  }

  lemma {:induction false} UntouchedPlan(cfg: Config, s: Session)
    requires Untouched(s)
    ensures Planned(cfg, s)
  {
  }

  lemma {:induction false} UntouchedOrder(s: Session)
    requires Untouched(s)
    ensures SpontaneousOrdered(s) && GiOrdered(s)
  {
    UntouchedLine(s);
    ProjectNone(AsduOf, Handed(s.line));
    ProjectNone(SpontaneousOnly, Pipeline(s));
    ProjectNone(GiOnly, Pipeline(s));
    ProjectNone(SpontaneousOnly, Carried(Handed(s.line)));
    ProjectNone(GiOnly, Carried(Handed(s.line)));
  }

  lemma {:induction false} UntouchedInv(cfg: Config, s: Session)
    requires Untouched(s)
    ensures Inv(cfg, s)
  {
    UntouchedLine(s);
    UntouchedQueues(s);
    UntouchedGi(s);
    UntouchedPlan(cfg, s);
    UntouchedOrder(s);
  }

  /** Whatever is done with a new session. */
  lemma {:induction false} RunInv(cfg: Config, w: World, actions: seq<Action>)
    requires Untouched(w.s)
    ensures Inv(cfg, Run(cfg, w, actions).s)
  {
    UntouchedInv(cfg, w.s);
    InvRun(cfg, w, actions);
  }
}
