/** What the frames of a session mean to its master: the readings behind the values, the addresses and the octets, said
    without the functions that make them. */
module Iec104Values {
  import opened Prelude
  import opened Iec104Apci
  import opened Iec104Points
  import opened Iec104Session
  import opened Iec104Image

  // ---- Readings ----

  /** `n` is `x` without its fraction. */
  predicate WholePart(x: real, n: int) {
    if x >= 0.0 then n as real <= x < n as real + 1.0 else n as real - 1.0 < x <= n as real
  }

  /** A bad zero, as a point without a usable value shows it. */
  predicate BadZero(kind: Kind, r: Reading) {
    !r.good && match kind
               case SinglePoint => r.value == Bit(false)
               case ShortFloat => r.value == Float(0.0)
               case Counter => r.value == Count(0)
  }

  /** What a master that shows `r` for a point of this kind knows of its value. */
  predicate Shows(kind: Kind, value: Option<PointValue>, r: Reading) {
    match value
    case None => BadZero(kind, r)
    case Some(PointValue(Number(x), good)) => (
      r.good == good && match kind
                        case SinglePoint => r.value.Bit? && (r.value.b <==> x != 0.0)
                        case ShortFloat => r.value == Float(x)
                        case Counter => r.value.Count? && WholePart(x, r.value.n))
    case Some(PointValue(Other(_, truthy, asFloat, asInt), good)) =>
      match kind
      case SinglePoint => r.good == good && r.value == Bit(truthy)
      case ShortFloat => if asFloat.Some? then r.good == good && r.value == Float(asFloat.value) else BadZero(kind, r)
      case Counter => if asInt.Some? then r.good == good && r.value == Count(asInt.value) else BadZero(kind, r)
  }

  function ValueAt(values: Values, key: Key): Option<PointValue> {
    if key in values then Some(values[key]) else None
  }

  lemma {:induction false} CurrentShows(p: Point, values: Values)
    ensures Shows(p.kind, ValueAt(values, p.key), Current(p, values))
  {
  }

  // ---- Telemetry ----

  /** The last value that telemetry brought for a key. */
  function LastTelemetry(actions: seq<Action>, key: Key): Option<PointValue> {
    if |actions| == 0 then None
    else
      var later := LastTelemetry(actions[1..], key);
      if later.Some? then later
      else if actions[0].Telemetry? && actions[0].key == key then Some(actions[0].v)
      else None
  }

  /** The server's cache holds the last value telemetry brought for a point, in every run. */
  lemma {:induction false} CacheIsLatest(cfg: Config, w: World, actions: seq<Action>, p: Point)
    requires Distinct(cfg.points) && p in cfg.points
    ensures var last := LastTelemetry(actions, p.key);
            ValueAt(Run(cfg, w, actions).values, p.key) == if last.Some? then last else ValueAt(w.values, p.key)
    decreases |actions|
  {
    if actions != [] {
      var i :| 0 <= i < |cfg.points| && cfg.points[i] == p;
      FindDistinct(cfg.points, i);
      CacheIsLatest(cfg, Step(cfg, w, actions[0]), actions[1..], p);
    }
  }

  /** An update of a point queues exactly one frame, at the point's address and with what its value shows, if the session is
      registered and started and the value has changed; otherwise, and for a key of no point, it queues nothing. */
  lemma {:induction false} UpdateQueues(cfg: Config, w: World, key: Key, v: PointValue)
    ensures var w' := Update(cfg, w, key, v);
            && (w'.s.out.enqueued != w.s.out.enqueued ==>
                  && (exists p :: p in cfg.points && p.key == key)
                  && w.s.link.registered && w.s.link.started && ValueAt(w.values, key) != Some(v))
            && (Distinct(cfg.points) && w.s.link.registered && w.s.link.started && ValueAt(w.values, key) != Some(v) ==>
                  forall p | p in cfg.points && p.key == key ::
                    |w'.s.out.enqueued| == |w.s.out.enqueued| + 1
                    && w.s.out.enqueued <= w'.s.out.enqueued
                    && var last := w'.s.out.enqueued[|w.s.out.enqueued|];
                       last.Measured? && last.ca == p.ca && last.ioa == p.ioa && last.cause == Spontaneous
                       && Shows(p.kind, Some(v), last.reading))
  {
    if Distinct(cfg.points) {
      forall p | p in cfg.points && p.key == key
        ensures FindPoint(cfg.points, key) == Some(p)
      {
        var i :| 0 <= i < |cfg.points| && cfg.points[i] == p;
        FindDistinct(cfg.points, i);
      }
    }
    if FindPoint(cfg.points, key).Some? {
      CurrentShows(FindPoint(cfg.points, key).value, w.values[key := v]);
    }
  }

  // ---- Interrogations ----

  /** A general interrogation of `ca` is confirmed and ended with that address, or with the default one for 0; in between it
      reports points of that address, or of every address for 65535. */
  lemma {:induction false} ScriptMeans(cfg: Config, ca: nat)
    ensures var script := Script(cfg, ca);
            var n := |script|;
            var reply := if ca == 0 then cfg.defaultCa else ca;
            && n >= 2 && script[0] == Confirm(reply) && script[n - 1] == Terminate(reply)
            && (forall i | 0 < i < n - 1 :: script[i].Report? && script[i].p in cfg.points && (ca == 65535 || script[i].p.ca == ca))
            && (forall p | p in cfg.points && (ca == 65535 || p.ca == ca) :: Report(p) in script)
  {
    ReportsMean(cfg.points, ca);
    var script := Script(cfg, ca);
    assert script[1..|script| - 1] == Reports(cfg.points, ca);
    forall i | 0 < i < |script| - 1
      ensures script[i] in Reports(cfg.points, ca)
    {
      assert script[i] == Reports(cfg.points, ca)[i - 1];
    }
  }

  lemma {:induction false} ReportsMean(points: seq<Point>, ca: nat)
    ensures forall item | item in Reports(points, ca) :: item.Report? && item.p in points && (ca == 65535 || item.p.ca == ca)
    ensures forall p | p in points && (ca == 65535 || p.ca == ca) :: Report(p) in Reports(points, ca)
  {
    if points != [] {
      ReportsMean(points[1..], ca);
      assert points == [points[0]] + points[1..];
    }
  }

  /** An interrogation is taken up if none is being answered, and otherwise ignored. */
  lemma {:induction false} OneAtATime(cfg: Config, w: World, ca: nat)
    requires ReaderFree(w.s)
    ensures var gi' := Step(cfg, w, GetInterrogation(ca)).s.gi;
            gi'.answered == w.s.gi.answered + if w.s.gi.task.NoTask? then [ca] else []
  {
  }

  // ---- Octets ----

  /** Where the numbers of an I-frame stand: N(S) before N(R), the low octet first, each shifted by one bit. */
  lemma {:induction false} IFrameOctets(ns: nat, nr: nat, asdu: Bytes)
    requires ns < 32768 && nr < 32768 && |asdu| <= 249
    ensures Build(I(ns, nr, asdu)) ==
            Ok([0x68, 4 + |asdu|, 2 * (ns % 128), ns / 128, 2 * (nr % 128), nr / 128] + asdu)
  {
    assert 2 * ns % 256 == 2 * (ns % 128) && 2 * nr % 256 == 2 * (nr % 128);
  }

  /** The head of a unit whose length octet can be right. */
  predicate Sized(data: Bytes) {
    |data| >= 6 && 4 <= data[1] <= 253
  }

  /** All its octets are there. */
  predicate Complete(data: Bytes) {
    Sized(data) && var length: int := data[1]; |data| >= 2 + length
  }

  /** The octets of a U-frame that there is. */
  predicate KnownU(data: Bytes)
    requires |data| >= 6
  {
    var octet: int := data[2];
    octet in {0x07, 0x0B, 0x13, 0x23, 0x43, 0x83} && data[3] == data[4] == data[5] == 0
  }

  /** A number of fifteen bits over two octets, the low one first, shifted by one bit. */
  function FieldOf(low: int, high: int): int {
    (256 * high + low) / 2
  }

  /** What a reader makes of what begins with a start octet: it waits while the unit is not complete; it gives up on a length
      that cannot be right and on an unknown control field; otherwise the two lowest bits of the first control octet tell
      I-, S- and U-frames apart, and the length octet says where the frame ends. */
  lemma {:induction false} ParseExactly(data: Bytes)
    requires data != [] && data[0] == 0x68
    ensures var parse := ParseApci(data);
            && (parse.NeedMore? <==> |data| < 6 || (Sized(data) && !Complete(data)))
            && (parse.Malformed? <==> |data| >= 6 && (!Sized(data) || (Complete(data) && data[2] % 4 == 3 && !KnownU(data))))
            && (parse.Frame? ==>
                  && Complete(data) && parse.length == data[1]
                  && (parse.apdu.I? <==> data[2] % 2 == 0) && (parse.apdu.S? <==> data[2] % 4 == 1)
                  && (parse.apdu.I? ==> parse.apdu.asdu == data[6..2 + parse.length]
                                        && parse.apdu.ns == FieldOf(data[2], data[3]) && parse.apdu.nr == FieldOf(data[4], data[5]))
                  && (parse.apdu.S? ==> parse.apdu.nr == FieldOf(data[4], data[5])))
  {
    if |data| >= 6 {
      assert data[2..6][1..] == [data[3], data[4], data[5]];
    }
  }

  /** STARTDT, STOPDT and TESTFR, octet by octet: what a master sends, what it gets, and whether data is sent from then on.
      Confirmations and everything else get no answer. */
  lemma {:induction false} UFramesAnswered(s: Session, octet: Byte)
    requires !s.link.closed && ParseApci([0x68, 4, octet, 0, 0, 0]).Frame? && ParseApci([0x68, 4, octet, 0, 0, 0]).apdu.U?
    ensures octet in {0x07, 0x0B, 0x13, 0x23, 0x43, 0x83}
    ensures var s' := HandleU(s, ParseApci([0x68, 4, octet, 0, 0, 0]).apdu.tag);
            && s'.link.started == (if octet == 0x07 then true else if octet == 0x13 then false else s.link.started)
            && if octet in {0x07, 0x13, 0x43} then
                 && |s'.line.lock| == |s.line.lock| + 1 && s.line.lock <= s'.line.lock
                 && var reply := s'.line.lock[|s.line.lock|];
                    reply.U? && Build(U(reply.tag)) == Ok([0x68, 4, if octet == 0x07 then 0x0B else if octet == 0x13 then 0x23 else 0x83, 0, 0, 0])
               else s'.line.lock == s.line.lock
  {
    assert [0x68, 4, octet, 0, 0, 0][2..6][1..] == [0, 0, 0];
  }
}
