/** One IEC 104 session as a state machine.

    A step is what one task does between two suspension points of the event loop; a run is any sequence of
    steps, so every interleaving of the reader, the interrogation task, telemetry updates, direct replies, the
    writer task and the transport is one. A step that is not enabled leaves the state alone. */
module Iec104Session {
  import opened Prelude
  import opened Iec104Apci
  import opened Iec104Points

  const K_WINDOW := 12
  const OUTBOX_MAX := 2000
  const GI_OUTBOX_MAX := 200_000

  // ---- Values and application data ----

  /** A telemetry value: a number, or anything else together with what bool(), float() and int() make of it. */
  datatype Raw =
    | Number(r: real)
    | Other(text: string, truthy: bool, asFloat: Option<real>, asInt: Option<int>)

  datatype PointValue = PointValue(raw: Raw, good: bool)

  datatype WireValue = Bit(b: bool) | Float(r: real) | Count(n: int)

  datatype Reading = Reading(value: WireValue, good: bool)

  datatype Cause = Spontaneous | Interrogated

  datatype Phase = ActCon | ActTerm

  datatype Asdu =
    | Measured(ca: nat, ioa: nat, cause: Cause, reading: Reading)
    | Interrogation(ca: nat, phase: Phase)
    | DirectReply(id: nat)   // clock synchronisation, refusals, command confirmations and terminations

  /** The value and quality octets `_encode_single_value` chooses for a point. */
  function Encode(kind: Kind, v: PointValue): Reading {
    match kind
    case SinglePoint => Reading(Bit(if v.raw.Number? then v.raw.r != 0.0 else v.raw.truthy), v.good)
    case ShortFloat => (
      match v.raw
      case Number(r) => Reading(Float(r), v.good)
      case Other(_, _, Some(r), _) => Reading(Float(r), v.good)
      case Other(_, _, None, _) => Reading(Float(0.0), false))
    case Counter =>
      match v.raw
      case Number(r) => Reading(Count(Truncate(r)), v.good)
      case Other(_, _, _, Some(n)) => Reading(Count(n), v.good)
      case Other(_, _, _, None) => Reading(Count(0), false)
  }

  type Values = map<Key, PointValue>

  /** What the server would report for a point now; a point without a value is reported as a bad zero. */
  function Current(p: Point, values: Values): Reading {
    Encode(p.kind, if p.key in values then values[p.key] else PointValue(Number(0.0), false))
  }

  function Measure(p: Point, values: Values, cause: Cause): Asdu {
    Measured(p.ca, p.ioa, cause, Current(p, values))
  }

  // ---- State ----

  /** One frame an interrogation still has to produce. */
  datatype Item = Confirm(ca: nat) | Report(p: Point) | Terminate(ca: nat)

  /** `held` is the frame of a put that is blocked on the full queue. */
  datatype GiTask = NoTask | Task(todo: seq<Item>, held: Option<Asdu>)

  datatype Drain =
    | Idle                  // at the top of its loop
    | Waiting               // for data
    | Parked(asdu: Asdu)    // holding a frame, waiting for the window
    | Sending(pos: nat)     // its frame is number pos in the order of the write lock
    | Stopped

  /** The connection as the reader sees it. */
  datatype Link = Link(registered: bool, closed: bool, ended: bool, started: bool, nr: nat, readerBusy: bool)

  /** The sending side: `lock` holds the frames in the write lock's FIFO, `wire` the frames written; `acked`
      counts the I-frames that had been handed over when the last S-frame came. */
  datatype Line = Line(ns: nat, unacked: nat, acked: nat, lock: seq<Apdu<Asdu>>, wire: seq<Apdu<Asdu>>)

  /** The spontaneous queue, with the history of what went in and what the writer took out. */
  datatype Outbox = Outbox(queue: seq<Asdu>, dropped: nat, enqueued: seq<Asdu>, taken: seq<Asdu>)

  /** The interrogation queue and task, with the frames made and the interrogations answered so far. */
  datatype GiSide = GiSide(queue: seq<Asdu>, task: GiTask, made: seq<Asdu>, answered: seq<nat>)

  datatype Writer = Writer(drain: Drain, dataReady: bool, windowOpen: bool)

  datatype Session = Session(link: Link, line: Line, out: Outbox, gi: GiSide, writer: Writer)

  datatype Config = Config(points: seq<Point>, defaultCa: nat)

  datatype World = World(values: Values, s: Session)

  const NEW_SESSION := Session(
    Link(true, false, false, false, 0, false), Line(0, 0, 0, [], []), Outbox([], 0, [], []),
    GiSide([], NoTask, [], []), Writer(Idle, false, true))

  // ---- Operations ----

  /** The last `n` elements. */
  function Newest<T>(s: seq<T>, n: nat): seq<T> {
    if |s| <= n then s else s[|s| - n..]
  }

  function Append(out: Outbox, asdu: Asdu): Outbox {
    var all := out.queue + [asdu];
    var kept := Newest(all, OUTBOX_MAX);
    Outbox(kept, out.dropped + (|all| - |kept|), out.enqueued + [asdu], out.taken)
  }

  function Enqueue(s: Session, asdu: Asdu): Session {
    s.(out := Append(s.out, asdu), writer := s.writer.(dataReady := true))
  }

  function PushFrame(link: Link, line: Line, apdu: Apdu<Asdu>): Line {
    if link.closed then line else line.(lock := line.lock + [apdu])
  }

  function Push(s: Session, apdu: Apdu<Asdu>): Session {
    s.(line := PushFrame(s.link, s.line, apdu))
  }

  /** Whether `_send_i` gets as far as numbering the frame. */
  predicate Numberable(link: Link, line: Line) {
    line.unacked < K_WINDOW && line.ns < SEQUENCE_MODULUS && link.nr < SEQUENCE_MODULUS
  }

  function SendFrame(link: Link, line: Line, asdu: Asdu): Line {
    if line.unacked >= K_WINDOW then line
    else if !Numberable(link, line) then line.(ns := 0)
    else
      PushFrame(link, line.(ns := (line.ns + 1) % SEQUENCE_MODULUS, unacked := line.unacked + 1),
                I(line.ns, link.nr, asdu))
  }

  function SendI(s: Session, asdu: Asdu): Session {
    s.(line := SendFrame(s.link, s.line, asdu),
       link := if Numberable(s.link, s.line) && s.link.closed then s.link.(registered := false) else s.link)
  }

  function Update(cfg: Config, w: World, key: Key, v: PointValue): World {
    match FindPoint(cfg.points, key)
    case None => w
    case Some(p) =>
      var values := w.values[key := v];
      if key in w.values && w.values[key] == v then World(values, w.s)
      else if !w.s.link.registered || !w.s.link.started then World(values, w.s)
      else World(values, Enqueue(w.s, Measure(p, values, Spontaneous)))
  }

  function Disconnect(s: Session): Session {
    s.(link := s.link.(registered := false, closed := true, ended := true, readerBusy := false),
       gi := s.gi.(task := NoTask), writer := s.writer.(drain := Stopped))
  }

  /** After every handled I-frame: every twelfth one is acknowledged. */
  function AckReceived(s: Session): Session {
    if s.link.nr % K_WINDOW != 0 then s
    else if s.link.nr >= SEQUENCE_MODULUS then Disconnect(s)  // build_s_frame raises; the handler ends the session
    else Push(s, S(s.link.nr))
  }

  function HandleU(s: Session, tag: UTag): Session {
    match tag
    case StartAct => Push(s.(link := s.link.(started := true)), U(StartCon))
    case StopAct => Push(s.(link := s.link.(started := false)), U(StopCon))
    case TestAct => Push(s, U(TestCon))
    case _ => s
  }

  function HandleS(s: Session): Session {
    s.(line := s.line.(unacked := 0, acked := |Carried(Handed(s.line))|),
       writer := s.writer.(windowOpen := true))
  }

  /** What an interrogation of `ca` has to produce: a confirmation, the points of that address in registry
      order, a termination. */
  function Script(cfg: Config, ca: nat): seq<Item> {
    var replyCa := if ca == 0 then cfg.defaultCa else ca;
    [Confirm(replyCa)] + Reports(cfg.points, ca) + [Terminate(replyCa)]
  }

  predicate InScope(p: Point, ca: nat) {
    ca == BROADCAST_CA || p.ca == ca
  }

  function Reports(points: seq<Point>, ca: nat): seq<Item> {
    if |points| == 0 then []
    else (if InScope(points[0], ca) then [Report(points[0])] else []) + Reports(points[1..], ca)
  }

  lemma {:induction false} ReportsSnoc(points: seq<Point>, i: nat, ca: nat)
    requires i < |points|
    ensures Reports(points[..i + 1], ca) ==
              Reports(points[..i], ca) + (if InScope(points[i], ca) then [Report(points[i])] else [])
  {
    if i > 0 {
      assert points[..i + 1][1..] == points[1..][..i];
      assert points[..i][1..] == points[1..][..i - 1];
      ReportsSnoc(points[1..], i - 1, ca);
    } else {
      assert points[..1] == [points[0]] && points[..1][1..] == [];
    }
  }

  function StartInterrogation(cfg: Config, s: Session, ca: nat): Session {
    if s.gi.task.Task? then s
    else s.(gi := s.gi.(task := Task(Script(cfg, ca), None), answered := s.gi.answered + [ca]))
  }

  function Produce(item: Item, values: Values): Asdu {
    match item
    case Confirm(ca) => Interrogation(ca, ActCon)
    case Terminate(ca) => Interrogation(ca, ActTerm)
    case Report(p) => Measure(p, values, Interrogated)
  }

  function PutGi(gi: GiSide, values: Values): GiSide {
    match gi.task
    case NoTask => gi
    case Task(_, Some(_)) => gi
    case Task(todo, None) =>
      if |todo| == 0 then gi.(task := NoTask)
      else
        var asdu := Produce(todo[0], values);
        if |gi.queue| < GI_OUTBOX_MAX then
          GiSide(gi.queue + [asdu], if |todo| == 1 then NoTask else Task(todo[1..], None), gi.made + [asdu], gi.answered)
        else
          GiSide(gi.queue, Task(todo[1..], Some(asdu)), gi.made + [asdu], gi.answered)
  }

  function GiStep(s: Session, values: Values): Session {
    s.(gi := PutGi(s.gi, values),
       writer := if |PutGi(s.gi, values).queue| > |s.gi.queue| then s.writer.(dataReady := true) else s.writer)
  }

  /** Offering a taken frame to the window: it is sent, or the writer parks with it. */
  function Offer(s: Session, asdu: Asdu): Session {
    if s.line.unacked >= K_WINDOW then s.(writer := s.writer.(windowOpen := false, drain := Parked(asdu)))
    else
      var s1 := SendI(s, asdu);
      s1.(writer := s1.writer.(drain := if |s1.line.lock| > |s.line.lock| then Sending(|Handed(s.line)|) else Idle))
  }

  /** The writer takes interrogation frames first; taking one lets a blocked put in. */
  function TakeGi(gi: GiSide): GiSide
    requires gi.queue != []
  {
    match gi.task
    case Task(todo, Some(held)) => gi.(queue := gi.queue[1..] + [held], task := Task(todo, None))
    case _ => gi.(queue := gi.queue[1..])
  }

  function TakeOutbox(out: Outbox): Outbox
    requires out.queue != []
  {
    out.(queue := out.queue[1..], taken := out.taken + [out.queue[0]])
  }

  function DrainStep(s: Session): Session {
    match s.writer.drain
    case Stopped => s
    case Idle =>
      if s.gi.queue != [] then Offer(s.(gi := TakeGi(s.gi)), s.gi.queue[0])
      else if s.out.queue != [] then Offer(s.(out := TakeOutbox(s.out)), s.out.queue[0])
      else s.(writer := s.writer.(dataReady := false, drain := Waiting))
    case Waiting => if s.writer.dataReady then s.(writer := s.writer.(drain := Idle)) else s
    case Parked(asdu) => if s.writer.windowOpen then Offer(s, asdu) else s
    case Sending(pos) =>
      if |s.line.wire| > pos || s.link.closed then s.(writer := s.writer.(drain := Idle)) else s
  }

  function TransmitNext(s: Session): Session {
    if s.link.closed || s.line.lock == [] then s
    else s.(line := s.line.(wire := s.line.wire + [s.line.lock[0]], lock := s.line.lock[1..]))
  }

  /** The exception branch of `_send_i`: the session leaves the server's list, its connection is closed, and the reader
      lives on until it notices. */
  function FailSend(s: Session): Session {
    if s.link.closed || s.line.lock == [] || !s.line.lock[0].I? then s
    else s.(link := s.link.(registered := false, closed := true))
  }

  datatype Action =
    | Telemetry(key: Key, v: PointValue)
    | GetU(tag: UTag)
    | GetS
    | GetInterrogation(ca: nat)
    | GetOther              // any other I-frame; its replies are SendReply steps
    | ReaderDone
    | SendReply(id: nat)
    | Interrogate           // one put of the interrogation task
    | Write                 // one step of the writer task
    | Transmit              // the lock's holder writes its frame
    | SendFails             // ... or the transport refuses an I-frame; a refused reply of the reader is a Hangup
    | WindowTimeout
    | Hangup

  predicate ReaderFree(s: Session) {
    !s.link.ended && !s.link.readerBusy
  }

  function SessionStep(cfg: Config, s: Session, values: Values, a: Action): Session {
    match a
    case Telemetry(_, _) => s
    case GetU(tag) => if ReaderFree(s) then HandleU(s, tag) else s
    case GetS => if ReaderFree(s) then HandleS(s) else s
    case GetInterrogation(ca) =>
      if ReaderFree(s) then AckReceived(StartInterrogation(cfg, s.(link := s.link.(nr := s.link.nr + 1)), ca)) else s
    case GetOther =>
      if ReaderFree(s) then s.(link := s.link.(nr := s.link.nr + 1, readerBusy := true)) else s
    case ReaderDone =>
      if s.link.readerBusy then AckReceived(s.(link := s.link.(readerBusy := false))) else s
    case SendReply(id) => SendI(s, DirectReply(id))
    case Interrogate => GiStep(s, values)
    case Write => DrainStep(s)
    case Transmit => TransmitNext(s)
    case SendFails => FailSend(s)
    case WindowTimeout =>
      if s.writer.drain.Parked? then
        s.(link := s.link.(closed := true), writer := s.writer.(drain := Stopped))
      else s
    case Hangup => Disconnect(s)
  }

  function Step(cfg: Config, w: World, a: Action): World {
    match a
    case Telemetry(key, v) => Update(cfg, w, key, v)
    case _ => w.(s := SessionStep(cfg, w.s, w.values, a))
  }

  function Run(cfg: Config, w: World, actions: seq<Action>): World
    decreases |actions|
  {
    if |actions| == 0 then w else Run(cfg, Step(cfg, w, actions[0]), actions[1..])
  }

  lemma {:induction false} RunConcat(cfg: Config, w: World, a: seq<Action>, b: seq<Action>)
    ensures Run(cfg, w, a + b) == Run(cfg, Run(cfg, w, a), b)
    decreases |a|
  {
    if a == [] {
      assert a + b == b;
    } else {
      assert (a + b)[1..] == a[1..] + b;
      RunConcat(cfg, Step(cfg, w, a[0]), a[1..], b);
    }
  }

  // ---- Observations ----

  function AsduOf(x: Apdu<Asdu>): Option<Asdu> {
    if x.I? then Some(x.asdu) else None
  }

  function NumberOf(x: Apdu<Asdu>): Option<nat> {
    if x.I? then Some(x.ns) else None
  }

  /** The application data of the I-frames in a sequence of frames. */
  function Carried(frames: seq<Apdu<Asdu>>): seq<Asdu> {
    Project(AsduOf, frames)
  }

  function Numbers(frames: seq<Apdu<Asdu>>): seq<nat> {
    Project(NumberOf, frames)
  }

  predicate IsGi(a: Asdu) {
    a.Interrogation? || (a.Measured? && a.cause == Interrogated)
  }

  predicate IsSpontaneous(a: Asdu) {
    a.Measured? && a.cause == Spontaneous
  }

  function GiOnly(a: Asdu): Option<Asdu> {
    if IsGi(a) then Some(a) else None
  }

  function SpontaneousOnly(a: Asdu): Option<Asdu> {
    if IsSpontaneous(a) then Some(a) else None
  }

  function GiPart(asdus: seq<Asdu>): seq<Asdu> {
    Project(GiOnly, asdus)
  }

  function SpontaneousPart(asdus: seq<Asdu>): seq<Asdu> {
    Project(SpontaneousOnly, asdus)
  }

  function Optional(o: Option<Asdu>): seq<Asdu> {
    match o case None => [] case Some(a) => [a]
  }

  function InHand(writer: Writer): seq<Asdu> {
    match writer.drain case Parked(a) => [a] case _ => []
  }

  function Held(gi: GiSide): seq<Asdu> {
    match gi.task case Task(_, Some(a)) => [a] case _ => []
  }

  /** Everything handed to the write lock so far, in the order it is written. */
  function Handed(line: Line): seq<Apdu<Asdu>> {
    line.wire + line.lock
  }
}
