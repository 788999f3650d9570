/** The SCADA image: what a master has after applying every measured frame on the wire, and will have after the frames that
    are still on their way (the lock, the writer's hand, the interrogation queue with a blocked put, the spontaneous
    queue). A point is settled when that image shows what the server would report for it now. */
module Iec104Image {
  import opened Prelude
  import opened Iec104Apci
  import opened Iec104Points
  import opened Iec104Session
  import opened Iec104SessionInvariants

  type Image = map<Address, Reading>

  function Apply(image: Image, asdus: seq<Asdu>): Image {
    if |asdus| == 0 then image else
      var before := Apply(image, asdus[..|asdus| - 1]);
      match asdus[|asdus| - 1]
      case Measured(ca, ioa, _, reading) => before[(ca, ioa) := reading]
      case _ => before
  }

  function ScadaImage(s: Session): Image {
    Apply(map[], Carried(s.line.wire))
  }

  /** The frames on their way, in the order in which they reach the wire. */
  function OnTheWay(s: Session): seq<Asdu> {
    Carried(s.line.lock) + InHand(s.writer) + s.gi.queue + Held(s.gi) + s.out.queue
  }

  ghost predicate Settled(w: World, p: Point) {
    var image := Apply(ScadaImage(w.s), OnTheWay(w.s));
    AddressOf(p) in image && image[AddressOf(p)] == Current(p, w.values)
  }

  /** The last reading a sequence of frames gives an address. */
  function LastFor(asdus: seq<Asdu>, addr: Address): Option<Reading> {
    if |asdus| == 0 then None
    else if asdus[|asdus| - 1].Measured? && (asdus[|asdus| - 1].ca, asdus[|asdus| - 1].ioa) == addr
    then Some(asdus[|asdus| - 1].reading)
    else LastFor(asdus[..|asdus| - 1], addr)
  }

  /** No frame for `p` waits in the spontaneous queue, or the last one that does shows the current reading. */
  predicate OutboxCurrent(w: World, p: Point) {
    var last := LastFor(w.s.out.queue, AddressOf(p));
    last.None? || last.value == Current(p, w.values)
  }

  lemma {:induction false} ApplyIsLast(image: Image, asdus: seq<Asdu>, addr: Address)
    ensures var image' := Apply(image, asdus);
            match LastFor(asdus, addr)
            case Some(r) => addr in image' && image'[addr] == r
            case None => (addr in image' <==> addr in image) && (addr in image ==> image'[addr] == image[addr])
  {
    if asdus != [] {
      ApplyIsLast(image, asdus[..|asdus| - 1], addr);
    }
  }

  lemma {:induction false} ApplyConcat(image: Image, a: seq<Asdu>, b: seq<Asdu>)
    ensures Apply(image, a + b) == Apply(Apply(image, a), b)
    decreases |b|
  {
    if b == [] {
      assert a + b == a;
    } else {
      assert (a + b)[..|a + b| - 1] == a + b[..|b| - 1];
      ApplyConcat(image, a, b[..|b| - 1]);
    }
  }

  lemma {:induction false} LastForConcat(a: seq<Asdu>, b: seq<Asdu>, addr: Address)
    ensures LastFor(a + b, addr) == if LastFor(b, addr).Some? then LastFor(b, addr) else LastFor(a, addr)
    decreases |b|
  {
    if b == [] {
      assert a + b == a;
    } else {
      assert (a + b)[..|a + b| - 1] == a + b[..|b| - 1];
      LastForConcat(a, b[..|b| - 1], addr);
    }
  }

  lemma {:induction false} LastForOne(a: Asdu, addr: Address)
    ensures LastFor([a], addr) == if a.Measured? && (a.ca, a.ioa) == addr then Some(a.reading) else None
  {
    assert [a][..0] == [];
  }

  /** All application data, from the first frame on the wire to the last one queued. */
  function Stream(s: Session): seq<Asdu> {
    Before(s) + s.out.queue
  }

  /** The part of the stream in front of the spontaneous queue. */
  function Before(s: Session): seq<Asdu> {
    Pipeline(s) + (s.gi.queue + Held(s.gi))
  }

  lemma {:induction false} StreamFromWire(s: Session)
    ensures Carried(s.line.wire) + OnTheWay(s) == Stream(s)
  {
    ProjectConcat(AsduOf, s.line.wire, s.line.lock);
  }

  lemma {:induction false} SettledByStream(w: World, p: Point)
    ensures Settled(w, p) <==> LastFor(Stream(w.s), AddressOf(p)) == Some(Current(p, w.values))
  {
    StreamFromWire(w.s);
    ApplyConcat(map[], Carried(w.s.line.wire), OnTheWay(w.s));
    ApplyIsLast(map[], Stream(w.s), AddressOf(p));
  }

  lemma {:induction false} FindDistinct(points: seq<Point>, i: nat)
    requires i < |points| && Distinct(points)
    ensures FindPoint(points, points[i].key) == Some(points[i])
  {
    var n := |points| - 1;
    if i < n {
      FindDistinct(points[..n], i);
    }
  }

  // ---- How a step changes the stream ----

  /** Moving what is taken from the queues into the pipeline leaves the stream as it is. */
  lemma {:induction false} MovedStream(s: Session, s': Session)
    requires Pipeline(s') == Pipeline(s) + Taken(s) && s'.gi == GiAfter(s) && s'.out == OutAfter(s)
    requires Held(s.gi) != [] ==> s.gi.queue != []
    ensures Stream(s') == Stream(s)
  {
    TakenFromQueues(s);
    var p, t, g, o := Pipeline(s), Taken(s), s'.gi.queue + Held(s'.gi), s'.out.queue;
    assert Stream(s') == (p + t) + g + o == p + (t + g + o);
    assert Stream(s) == p + (s.gi.queue + Held(s.gi)) + s.out.queue == p + ((s.gi.queue + Held(s.gi)) + s.out.queue);
  }

  /** What is taken comes from the front of what is queued. */
  lemma {:induction false} TakenFromQueues(s: Session)
    requires Held(s.gi) != [] ==> s.gi.queue != []
    ensures Taken(s) + (GiAfter(s).queue + Held(GiAfter(s))) + OutAfter(s).queue == (s.gi.queue + Held(s.gi)) + s.out.queue
  {
  }

  /** Shortening the spontaneous queue at the front can only remove the last frame of an address by removing
      the only one. */
  lemma {:induction false} LastForTail(asdus: seq<Asdu>, n: nat, addr: Address)
    requires n <= |asdus|
    ensures LastFor(asdus[n..], addr).None? || LastFor(asdus[n..], addr) == LastFor(asdus, addr)
  {
    LastForConcat(asdus[..n], asdus[n..], addr);
    assert asdus[..n] + asdus[n..] == asdus;
  }

  lemma {:induction false} AppendLast(out: Outbox, asdu: Asdu, addr: Address)
    ensures var q := Append(out, asdu).queue;
            LastFor(q, addr).None? || LastFor(q, addr) == LastFor(out.queue + [asdu], addr)
  {
    var all := out.queue + [asdu];
    if |all| > OUTBOX_MAX {
      LastForTail(all, |all| - OUTBOX_MAX, addr);
    }
  }

  lemma {:induction false} AppendOwn(out: Outbox, asdu: Asdu, addr: Address)
    requires asdu.Measured? && (asdu.ca, asdu.ioa) == addr
    ensures LastFor(Append(out, asdu).queue, addr) == Some(asdu.reading)
  {
    var q := Append(out, asdu).queue;
    assert q[|q| - 1] == asdu;
  }

  lemma {:induction false} BeforeOfReply(s: Session, id: nat, addr: Address)
    ensures LastFor(Before(SendI(s, DirectReply(id))), addr) == LastFor(Before(s), addr)
  {
    var handed := Carried(Handed(s.line));
    var rest := InHand(s.writer) + (s.gi.queue + Held(s.gi));
    SendFrameMoves(s.link, s.line, DirectReply(id));
    assert Before(s) == handed + rest;
    LastForConcat(handed, rest, addr);
    if Sends(s.link, s.line) {
      assert Before(SendI(s, DirectReply(id))) == (handed + [DirectReply(id)]) + rest;
      LastForConcat(handed + [DirectReply(id)], rest, addr);
      LastForConcat(handed, [DirectReply(id)], addr);
      LastForOne(DirectReply(id), addr);
    } else {
      assert Before(SendI(s, DirectReply(id))) == handed + rest;
    }
  }

  lemma {:induction false} OtherStream(cfg: Config, s: Session, values: Values, a: Action)
    requires !a.Write? && !a.SendReply? && !a.Interrogate? && Live(SessionStep(cfg, s, values, a).link)
    ensures Stream(SessionStep(cfg, s, values, a)) == Stream(s)
    ensures SessionStep(cfg, s, values, a).out == s.out
  {
    OtherPipeline(cfg, s, values, a);
    OtherGi(cfg, s, values, a);
  }

  lemma {:induction false} InterrogateStream(s: Session, values: Values)
    requires GiBounded(s.gi)
    ensures var s' := GiStep(s, values);
            Before(s') == Before(s) + s'.gi.made[|s.gi.made|..] && s'.out == s.out
  {
    PutOrders(s.gi, values);
  }
}
