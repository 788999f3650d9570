/** What a Modbus master makes of the answers, octet by octet: what it asked for, decoded the way it decodes. */
module ModbusMaster {
  import opened Prelude
  import opened ModbusCodec
  import opened ModbusRegistry
  import opened ModbusServer

  /** The request octets of a read. */
  function Ask(code: Byte, address: Word, count: Word): (pdu: seq<Byte>)
    ensures |pdu| == 5
  {
    [code, address / 256, address % 256, count / 256, count % 256]
  }

  /** Two octets, the high one first. */
  function Big(high: int, low: int): int {
    256 * high + low
  }

  /** A register of an answer. */
  function Register(reply: seq<Byte>, i: nat): int
    requires 2 * i + 3 < |reply|
  {
    Big(reply[2 + 2 * i], reply[3 + 2 * i])
  }

  /** A read the server can answer. */
  predicate Fair(plan: Plan, unit: int, code: Byte, address: Word, count: Word) {
    && unit in plan.units && code in {1, 2, 3, 4} && 1 <= count <= (if code <= 2 then 2000 else 125)
    && address + count <= 65536
  }

  lemma {:induction false} FairIsReadable(plan: Plan, unit: int, code: Byte, address: Word, count: Word)
    requires Fair(plan, unit, code, address, count)
    ensures var pdu := Ask(code, address, count);
            && Readable(plan.units, unit, pdu) && WordAt(pdu, 1) == address && WordAt(pdu, 3) == count
            && (IsBitRead(pdu[0]) <==> code <= 2)
  {
  }

  /** A refusal repeats the function code with its top bit set. */
  lemma {:induction false} RefusalOctets(code: Byte, error: Byte)
    ensures |ExceptionReply(code, error)| == 2 && ExceptionReply(code, error)[1] == error
    ensures ExceptionReply(code, error)[0] >= 128 && (ExceptionReply(code, error)[0] - code) % 128 == 0
  {
  }

  /** What is wrong with a request, if anything: function, length or quantity, address, unit. */
  function Wrong(units: set<int>, unit: int, pdu: seq<Byte>): Option<Byte> {
    if pdu == [] || pdu[0] !in {1, 2, 3, 4} then Some(1)
    else if |pdu| < 5 then Some(3)
    else
      var address, count := Big(pdu[1], pdu[2]), Big(pdu[3], pdu[4]);
      if count == 0 || count > (if pdu[0] <= 2 then 2000 else 125) then Some(3)
      else if address + count > 65536 then Some(2)
      else if unit !in units then Some(11)
      else None
  }

  /** The answer to any octets at all: a refusal with the first thing wrong, or as many data octets as were asked for. */
  lemma {:induction false} AnswersExactly(units: set<int>, cells: ModbusRegistry.Cells, unit: int, pdu: seq<Byte>)
    ensures var reply := HandlePdu(units, cells, unit, pdu);
            match Wrong(units, unit, pdu)
            case Some(error) =>
              |reply| == 2 && reply[0] >= 128 && reply[1] == error && (pdu != [] ==> (reply[0] - pdu[0]) % 128 == 0)
            case None =>
              var count := Big(pdu[3], pdu[4]);
              reply[0] == pdu[0] && reply[1] == |reply| - 2 == if pdu[0] <= 2 then (count + 7) / 8 else 2 * count
  {
    match Wrong(units, unit, pdu) {
      case Some(error) => RefusalOctets(if pdu == [] then 0 else pdu[0], error);
      case None => DataOctets(units, cells, unit, pdu);
    }
  }

  lemma {:induction false} DataOctets(units: set<int>, cells: ModbusRegistry.Cells, unit: int, pdu: seq<Byte>)
    requires Wrong(units, unit, pdu).None?
    ensures var reply := HandlePdu(units, cells, unit, pdu);
            var count := Big(pdu[3], pdu[4]);
            reply[0] == pdu[0] && reply[1] == |reply| - 2 == if pdu[0] <= 2 then (count + 7) / 8 else 2 * count
  {
    if IsBitRead(pdu[0]) {
      BitReadReturns(units, cells, unit, pdu, 0);
    } else {
      RegisterReadReturns(units, cells, unit, pdu, 0);
    }
  }

  // ---- Registers ----

  /** The placement lies in what is read, and `r` is the last accepted reading it could store. */
  ghost predicate Asked(plan: Plan, actions: seq<Action>, unit: int, address: Word, count: Word, pair: Pair, k: int, width: nat, r: Reading) {
    && Disjoint(plan) && Entry(plan, pair, k)
    && var p := plan.lookup[pair][k];
       && p.unit == unit && address <= p.address && p.address + width <= address + count
       && Shown(plan, Run(plan, Core(map[], map[], []), actions).log, pair, p) == Some(r)
  }

  function AnswerTo(plan: Plan, actions: seq<Action>, unit: int, pdu: seq<Byte>): seq<Byte> {
    HandlePdu(plan.units, Run(plan, Core(map[], map[], []), actions).cells, unit, pdu)
  }

  /** What one register of a placement reads as. */
  lemma {:induction false} WordComesBack(plan: Plan, actions: seq<Action>, unit: int, code: Byte, address: Word, count: Word,
                                         pair: Pair, k: int, width: nat, r: Reading, j: nat)
    requires Fair(plan, unit, code, address, count) && code >= 3
    requires Asked(plan, actions, unit, address, count, pair, k, width, r) && j < width
    requires AreaOf(plan.lookup[pair][k].code) == Registers && Span(plan, plan.lookup[pair][k]) == width
    ensures var p := plan.lookup[pair][k];
            var reply := AnswerTo(plan, actions, unit, Ask(code, address, count));
            && |reply| == 2 + 2 * count && Content(plan, p, r).Some? && |Content(plan, p, r).value| == width
            && Register(reply, p.address - address + j) == Content(plan, p, r).value[j]
  {
    var p := plan.lookup[pair][k];
    var i := p.address - address + j;
    var core := Run(plan, Core(map[], map[], []), actions);
    FairIsReadable(plan, unit, code, address, count);
    RegistersReadBack(plan, map[], actions, unit, Ask(code, address, count), i);
    RegisterReadReturns(plan.units, core.cells, unit, Ask(code, address, count), i);
    ShownWrites(plan, core.log, pair, p);
    ContentSpan(plan, p, r);
    assert Covers(plan, p, Cell(unit, Registers, address + i));
  }

  lemma {:induction false} ShownWrites(plan: Plan, log: seq<Accepted>, pair: Pair, p: Placement)
    requires Shown(plan, log, pair, p).Some?
    ensures Writes(plan, p, Shown(plan, log, pair, p).value)
  {
    if !(log[|log| - 1].pair == pair && Writes(plan, p, log[|log| - 1].reading)) {
      ShownWrites(plan, log[..|log| - 1], pair, p);
    }
  }

  /** The two registers of a double word, as the master puts them together. */
  function Joined(reply: seq<Byte>, i: nat, order: Order): int
    requires 2 * i + 5 < |reply|
  {
    if order.BigFirst? then 65536 * Register(reply, i) + Register(reply, i + 1)
    else Register(reply, i) + 65536 * Register(reply, i + 1)
  }

  /** A counter reads as the whole part of its last reading, modulo 2^32, and as zero below zero; in either word order, with
      function 3 or 4. */
  lemma {:induction false} CounterComesBack(plan: Plan, actions: seq<Action>, unit: int, code: Byte, address: Word, count: Word,
                                            pair: Pair, k: int, r: Reading)
    requires Fair(plan, unit, code, address, count) && code >= 3
    requires Asked(plan, actions, unit, address, count, pair, k, 2, r)
    requires var p := plan.lookup[pair][k]; p.counter && p.code in {3, 4} && p.wordCount in {0, 2}
    ensures var reply := AnswerTo(plan, actions, unit, Ask(code, address, count));
            var i := plan.lookup[pair][k].address - address;
            && |reply| == 2 + 2 * count && r.number.Some?
            && Joined(reply, i, plan.order) == if r.number.value.value < 0.0 then 0 else r.number.value.value.Floor % 0x1_0000_0000
  {
    WordComesBack(plan, actions, unit, code, address, count, pair, k, 2, r, 0);
    WordComesBack(plan, actions, unit, code, address, count, pair, k, 2, r, 1);
    CounterReads(r.number.value.value, plan.order);
  }

  /** A number in the float format reads as its single-precision pattern. */
  lemma {:induction false} FloatComesBack(plan: Plan, actions: seq<Action>, unit: int, code: Byte, address: Word, count: Word,
                                          pair: Pair, k: int, r: Reading)
    requires Fair(plan, unit, code, address, count) && code >= 3
    requires Asked(plan, actions, unit, address, count, pair, k, 2, r)
    requires var p := plan.lookup[pair][k]; !p.counter && plan.format.Float32? && p.code in {3, 4} && p.wordCount in {0, 2}
    ensures var reply := AnswerTo(plan, actions, unit, Ask(code, address, count));
            var i := plan.lookup[pair][k].address - address;
            && |reply| == 2 + 2 * count && r.number.Some?
            && Joined(reply, i, plan.order) == r.number.value.single
  {
    WordComesBack(plan, actions, unit, code, address, count, pair, k, 2, r, 0);
    WordComesBack(plan, actions, unit, code, address, count, pair, k, 2, r, 1);
    DoubleRoundTrip(r.number.value.single, plan.order);
  }

  /** A register as a signed number in steps of the scale, on top of the offset; a scale of 0 means 1. */
  function Signed(word: int, scale: real, offset: real): real {
    (if word >= 32768 then word - 65536 else word) as real * (if scale == 0.0 then 1.0 else scale) + offset
  }

  /** A number in the fixed-point format reads, so decoded, as the last reading to half a step if that is in range. */
  lemma {:induction false} FixedPointComesBack(plan: Plan, actions: seq<Action>, unit: int, code: Byte, address: Word, count: Word,
                                               pair: Pair, k: int, r: Reading, scaled: real)
    requires Fair(plan, unit, code, address, count) && code >= 3
    requires Asked(plan, actions, unit, address, count, pair, k, 1, r) && r.number.Some?
    requires var p := plan.lookup[pair][k]; !p.counter && plan.format.Int16? && p.code in {3, 4} && p.wordCount in {0, 1}
    requires InRange(r.number.value.value, plan.lookup[pair][k].scale, plan.lookup[pair][k].offset, scaled)
    ensures var p := plan.lookup[pair][k];
            var reply := AnswerTo(plan, actions, unit, Ask(code, address, count));
            && |reply| == 2 + 2 * count
            && HalfAStep(Signed(Register(reply, p.address - address), p.scale, p.offset), r.number.value.value, p.scale)
  {
    var p := plan.lookup[pair][k];
    WordComesBack(plan, actions, unit, code, address, count, pair, k, 1, r, 0);
    SignedRegister(r.number.value.value, p.scale, p.offset, scaled);
  }

  /** The value is `scaled` steps from the offset, and a signed register can hold that. */
  predicate InRange(value: real, scale: real, offset: real, scaled: real) {
    scaled * (if scale == 0.0 then 1.0 else scale) + offset == value && -32768.0 <= scaled <= 32767.0
  }

  predicate HalfAStep(read: real, value: real, scale: real) {
    var step := if scale == 0.0 then 1.0 else scale;
    var half := (if step < 0.0 then -step else step) / 2.0;
    -half <= read - value <= half
  }

  lemma {:induction false} SignedRegister(value: real, scale: real, offset: real, scaled: real)
    requires InRange(value, scale, offset, scaled)
    ensures HalfAStep(Signed(EncodeInt16(value, scale, offset)[0], scale, offset), value, scale)
  {
    var words := EncodeInt16(value, scale, offset);
    InSteps(value, scale, offset, scaled);
    FixedPointBound(value, scale, offset);
    SignedIsDecoded(words, scale, offset);
    WithinHalf(DecodeInt16(words, scale, offset), value, scale);
  }

  lemma {:induction false} InSteps(value: real, scale: real, offset: real, scaled: real)
    requires InRange(value, scale, offset, scaled)
    ensures ApplyScale(value, scale, offset) == scaled
  {
    Unscale(scaled, Effective(scale), value, offset);
  }

  lemma {:induction false} SignedIsDecoded(words: seq<Word>, scale: real, offset: real)
    requires |words| == 1
    ensures Signed(words[0], scale, offset) == DecodeInt16(words, scale, offset)
  {
  }

  lemma {:induction false} WithinHalf(d: real, value: real, scale: real)
    requires Abs(d - value) <= Abs(Effective(scale)) / 2.0
    ensures HalfAStep(d, value, scale)
  {
  }

  lemma {:induction false} Unscale(x: real, s: real, value: real, offset: real)
    requires s != 0.0 && x * s + offset == value
    ensures (value - offset) / s == x
  {
    assert value - offset == x * s;
    assert (x * s) / s == x;
  }

  // ---- Bits ----

  function Weight(k: int): (w: nat)
    requires 0 <= k < 8
    ensures w > 0
  {
    [1, 2, 4, 8, 16, 32, 64, 128][k]
  }

  /** Bit `k` of an octet, the lowest first. */
  lemma {:induction false} BitIsWeight(b: Byte, k: nat)
    requires k < 8
    ensures BitOf(b, k) <==> b / Weight(k) % 2 == 1
  {
    var c: Byte := b / 2;
    if k > 0 {
      HalfWeight(b, k);
      if k > 1 {
        BitIsWeight(c, k - 1);
      }
    }
  }

  lemma {:induction false} HalfWeight(b: Byte, k: nat)
    requires 0 < k < 8
    ensures b / 2 / Weight(k - 1) == b / Weight(k)
  {
    assert Weight(k) == 2 * Weight(k - 1);
    match k
    case 1 =>
    case 2 => assert b / 2 / 2 == b / 4;
    case 3 => assert b / 2 / 4 == b / 8;
    case 4 => assert b / 2 / 8 == b / 16;
    case 5 => assert b / 2 / 16 == b / 32;
    case 6 => assert b / 2 / 32 == b / 64;
    case 7 => assert b / 2 / 64 == b / 128;
  }

  lemma {:induction false} StoredBit(plan: Plan, actions: seq<Action>, pair: Pair, k: int, r: Reading)
    requires Disjoint(plan) && Entry(plan, pair, k) && plan.lookup[pair][k].code in {1, 2}
    requires Shown(plan, Run(plan, Core(map[], map[], []), actions).log, pair, plan.lookup[pair][k]) == Some(r)
    ensures var p := plan.lookup[pair][k];
            var core := Run(plan, Core(map[], map[], []), actions);
            Get(core.cells, Cell(p.unit, AreaOf(p.code), p.address)) == if r.bit then 1 else 0
  {
    var p := plan.lookup[pair][k];
    var core := Run(plan, Core(map[], map[], []), actions);
    var c := Cell(p.unit, AreaOf(p.code), p.address);
    RunMirrors(plan, map[], actions);
    assert Covers(plan, p, c);
    assert CellMirrors(plan, map[], core, pair, k, c);
  }

  /** A coil or discrete input reads as the bit of its last accepted reading, in its place among the octets. */
  lemma {:induction false} BitComesBack(plan: Plan, actions: seq<Action>, unit: int, code: Byte, address: Word, count: Word,
                                        pair: Pair, k: int, r: Reading)
    requires Fair(plan, unit, code, address, count) && code <= 2
    requires Asked(plan, actions, unit, address, count, pair, k, 1, r) && plan.lookup[pair][k].code == code as int
    ensures var reply := AnswerTo(plan, actions, unit, Ask(code, address, count));
            var i := plan.lookup[pair][k].address - address;
            && |reply| == 2 + (count + 7) / 8
            && (reply[2 + i / 8] / Weight(i % 8) % 2 == 1 <==> r.bit)
  {
    var p := plan.lookup[pair][k];
    var i := p.address - address;
    var core := Run(plan, Core(map[], map[], []), actions);
    FairIsReadable(plan, unit, code, address, count);
    BitReadReturns(plan.units, core.cells, unit, Ask(code, address, count), i);
    StoredBit(plan, actions, pair, k, r);
    BitIsWeight(AnswerTo(plan, actions, unit, Ask(code, address, count))[2 + i / 8], i % 8);
  }
}
