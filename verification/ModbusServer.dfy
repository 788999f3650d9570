/** The read-only Modbus server: request PDUs of the MODBUS Application Protocol Specification V1.1b3, sections 6.1 to
    6.4, answered from the registers. */
module ModbusServer {
  import opened Prelude
  import opened ModbusCodec
  import opened ModbusRegistry

  type Byte = b: int | 0 <= b < 256

  const MAX_READ_REGISTERS := 125
  const MAX_READ_BITS := 2000

  const ILLEGAL_FUNCTION: Byte := 1
  const ILLEGAL_ADDRESS: Byte := 2
  const ILLEGAL_VALUE: Byte := 3
  const TARGET_FAILED: Byte := 11

  // ---- Bits in bytes ----

  /** Bit `k` of a byte, the lowest first. */
  predicate BitOf(b: Byte, k: nat) {
    if k == 0 then b % 2 == 1 else BitOf(b / 2, k - 1)
  }

  /** b | 1 << k */
  function SetBit(b: nat, k: nat): nat {
    if k == 0 then (if b % 2 == 1 then b else b + 1) else 2 * SetBit(b / 2, k - 1) + b % 2
  }

  function Power(k: nat): nat {
    if k == 0 then 1 else 2 * Power(k - 1)
  }

  lemma {:induction false} SetBitBound(b: nat, k: nat, n: nat)
    requires b < Power(n) && k < n
    ensures SetBit(b, k) < Power(n)
  {
    if k > 0 {
      SetBitBound(b / 2, k - 1, n - 1);
    }
  }

  lemma {:induction false} ByteBound(b: Byte, k: nat)
    requires k < 8
    ensures SetBit(b, k) < 256
  {
    assert Power(8) == 2 * Power(7) && Power(7) == 2 * Power(6) && Power(6) == 2 * Power(5);
    assert Power(5) == 2 * Power(4) && Power(4) == 2 * Power(3) && Power(3) == 8;
    SetBitBound(b, k, 8);
  }

  /** Setting a bit sets that bit and no other. */
  lemma {:induction false} SetBitSets(b: Byte, k: nat, j: nat)
    requires SetBit(b, k) < 256
    ensures BitOf(SetBit(b, k), j) <==> j == k || BitOf(b, j)
  {
    if k > 0 {
      assert SetBit(b, k) / 2 == SetBit(b / 2, k - 1);
      if j > 0 {
        SetBitSets(b / 2, k - 1, j - 1);
      }
    } else if j > 0 {
      assert SetBit(b, k) / 2 == b / 2;
    }
  }

  function Or(b: Byte, k: nat): Byte
    requires k < 8
  {
    ByteBound(b, k);
    SetBit(b, k)
  }

  /** Bits to bytes, one bit at a time. */
  function Packed(bits: seq<bool>): (bytes: seq<Byte>)
    ensures |bytes| == (|bits| + 7) / 8
  {
    if |bits| == 0 then [] else
      var n := |bits| - 1;
      var before := Packed(bits[..n]);
      var grown: seq<Byte> := if n % 8 == 0 then before + [0] else before;
      if bits[n] then grown[n / 8 := Or(grown[n / 8], n % 8)] else grown
  }

  /** The bits come back, and the rest of the last byte is zero. */
  lemma {:induction false} PackedBits(bits: seq<bool>, i: nat)
    requires i < 8 * |Packed(bits)|
    ensures BitOf(Packed(bits)[i / 8], i % 8) <==> i < |bits| && bits[i]
  {
    if bits != [] {
      var n := |bits| - 1;
      var before := Packed(bits[..n]);
      var grown: seq<Byte> := if n % 8 == 0 then before + [0] else before;
      if i < 8 * |before| {
        PackedBits(bits[..n], i);
        assert grown[i / 8] == before[i / 8];
      } else {
        assert grown[i / 8] == 0;
        ZeroHasNoBits(i % 8);
      }
      if bits[n] && i / 8 == n / 8 {
        SetBitSets(grown[n / 8], n % 8, i % 8);
        assert i % 8 == n % 8 <==> i == n;
      }
    }
  }

  lemma {:induction false} ZeroHasNoBits(k: nat)
    ensures !BitOf(0, k)
  {
    if k > 0 {
      ZeroHasNoBits(k - 1);
    }
  }

  /** As the server fills its byte array. */
  method BitsToBytes(bits: seq<bool>) returns (bytes: seq<Byte>)
    ensures bytes == Packed(bits)
  {
    var out := new Byte[(|bits| + 7) / 8](_ => 0);
    for i := 0 to |bits|
      invariant out[..] == Padded(bits[..i], out.Length)
    {
      PackOne(bits, i, out.Length);
      if bits[i] {
        SetAt(out, i);
      }
    }
    assert bits[..|bits|] == bits;
    bytes := out[..];
  }

  method SetAt(out: array<Byte>, i: nat)
    requires i < 8 * out.Length
    modifies out
    ensures out[..] == old(out[..])[i / 8 := Or(old(out[i / 8]), i % 8)]
  {
    out[i / 8] := Or(out[i / 8], i % 8);
  }

  /** Packed bits, with zero bytes up to a length. */
  function Padded(bits: seq<bool>, length: nat): (bytes: seq<Byte>)
    requires (|bits| + 7) / 8 <= length
    ensures |bytes| == length
  {
    Packed(bits) + seq<Byte>(length - (|bits| + 7) / 8, _ => 0)
  }

  /** One more bit sets at most one bit of the padded bytes. */
  lemma {:induction false} PackOne(bits: seq<bool>, i: nat, length: nat)
    requires i < |bits| && (|bits| + 7) / 8 <= length
    ensures var before := Padded(bits[..i], length);
            Padded(bits[..i + 1], length) == if bits[i] then before[i / 8 := Or(before[i / 8], i % 8)] else before
  {
    assert bits[..i + 1][..i] == bits[..i];
  }

  // ---- Requests ----

  function WordAt(bytes: seq<Byte>, i: nat): Word
    requires i + 1 < |bytes|
  {
    var high: int := bytes[i];
    high * 256 + bytes[i + 1]
  }

  function WordBytes(words: seq<Word>): (bytes: seq<Byte>)
    ensures |bytes| == 2 * |words|
  {
    if |words| == 0 then [] else
      var n := |words| - 1;
      WordBytes(words[..n]) + [words[n] / 256, words[n] % 256]
  }

  lemma {:induction false} WordBytesAt(words: seq<Word>, i: nat)
    requires i < |words|
    ensures WordAt(WordBytes(words), 2 * i) == words[i]
  {
    if i < |words| - 1 {
      WordBytesAt(words[..|words| - 1], i);
    }
  }

  function ExceptionReply(code: Byte, error: Byte): seq<Byte> {
    [if code >= 128 then code else code + 128, error]
  }

  predicate IsRead(code: int) {
    code == FC_COIL || code == FC_DISCRETE || code == FC_HOLDING || code == FC_INPUT
  }

  predicate IsBitRead(code: int) {
    code == FC_COIL || code == FC_DISCRETE
  }

  function Limit(code: int): nat {
    if IsBitRead(code) then MAX_READ_BITS else MAX_READ_REGISTERS
  }

  /** Consecutive cells of an area. */
  function Cells(cells: ModbusRegistry.Cells, unit: int, area: Area, address: int, count: nat): (words: seq<Word>)
    ensures |words| == count
    ensures forall i | 0 <= i < count :: words[i] == Get(cells, Cell(unit, area, address + i))
  {
    seq<Word>(count, i requires 0 <= i < count => Get(cells, Cell(unit, area, address + i)))
  }

  function Read(units: set<int>, cells: ModbusRegistry.Cells, unit: int, code: int, address: int, count: nat): Option<seq<Word>> {
    if unit !in units then None else Some(Cells(cells, unit, AreaOf(code), address, count))
  }

  function Bits(words: seq<Word>): (bits: seq<bool>)
    ensures |bits| == |words| && forall i | 0 <= i < |words| :: bits[i] == (words[i] != 0)
  {
    seq(|words|, i requires 0 <= i < |words| => words[i] != 0)
  }

  /** The answer to any byte string at all. */
  function HandlePdu(units: set<int>, cells: ModbusRegistry.Cells, unit: int, pdu: seq<Byte>): (reply: seq<Byte>)
    ensures 2 <= |reply| <= 252
  {
    if |pdu| == 0 then ExceptionReply(0, ILLEGAL_FUNCTION)
    else
      var code := pdu[0];
      if !IsRead(code) then ExceptionReply(code, ILLEGAL_FUNCTION)
      else if |pdu| < 5 then ExceptionReply(code, ILLEGAL_VALUE)
      else
        var address, count := WordAt(pdu, 1), WordAt(pdu, 3);
        if count < 1 || count > Limit(code) then ExceptionReply(code, ILLEGAL_VALUE)
        else if address + count > ADDRESS_SPACE then ExceptionReply(code, ILLEGAL_ADDRESS)
        else
          var values := Read(units, cells, unit, code, address, count);
          if values.None? then ExceptionReply(code, TARGET_FAILED)
          else
            var payload := if IsBitRead(code) then Packed(Bits(values.value)) else WordBytes(values.value);
            [code, |payload|] + payload
  }

  /** A well-formed read of an existing unit. */
  predicate Readable(units: set<int>, unit: int, pdu: seq<Byte>) {
    && |pdu| >= 5 && IsRead(pdu[0]) && 1 <= WordAt(pdu, 3) <= Limit(pdu[0])
    && WordAt(pdu, 1) + WordAt(pdu, 3) <= ADDRESS_SPACE && unit in units
  }

  /** Data comes back exactly for a readable request; anything else gets an exception, whose code names the first thing
      wrong with it. */
  lemma {:induction false} ExactlyReadableIsAnswered(units: set<int>, cells: ModbusRegistry.Cells, unit: int, pdu: seq<Byte>)
    ensures HandlePdu(units, cells, unit, pdu)[0] < 128 <==> Readable(units, unit, pdu)
    ensures !Readable(units, unit, pdu) ==>
              var reply := HandlePdu(units, cells, unit, pdu);
              && |reply| == 2 && reply[0] % 128 == (if |pdu| == 0 then 0 else pdu[0] % 128)
              && (reply[1] == TARGET_FAILED ==> unit !in units)
              && (reply[1] == ILLEGAL_FUNCTION <==> pdu == [] || !IsRead(pdu[0]))
  {
  }

  /** Holding and input registers read alike, errors included. */
  lemma {:induction false} HoldingIsInput(units: set<int>, cells: ModbusRegistry.Cells, unit: int, rest: seq<Byte>)
    ensures HandlePdu(units, cells, unit, [FC_HOLDING] + rest)[1..] == HandlePdu(units, cells, unit, [FC_INPUT] + rest)[1..]
  {
    var h: seq<Byte>, i: seq<Byte> := [FC_HOLDING] + rest, [FC_INPUT] + rest;
    if |rest| >= 4 {
      assert WordAt(h, 1) == WordAt(i, 1) && WordAt(h, 3) == WordAt(i, 3);
    }
  }

  /** A bit read returns the requested bits, zero padded, in as few bytes as they need. */
  lemma {:induction false} BitReadReturns(units: set<int>, cells: ModbusRegistry.Cells, unit: int, pdu: seq<Byte>, i: nat)
    requires Readable(units, unit, pdu) && IsBitRead(pdu[0])
    requires i < 8 * ((WordAt(pdu, 3) + 7) / 8)
    ensures var reply := HandlePdu(units, cells, unit, pdu);
            && reply[0] == pdu[0] && reply[1] == (WordAt(pdu, 3) + 7) / 8 == |reply| - 2
            && (BitOf(reply[2 + i / 8], i % 8) <==>
                i < WordAt(pdu, 3) && Get(cells, Cell(unit, AreaOf(pdu[0]), WordAt(pdu, 1) + i)) != 0)
  {
    var bits := Bits(Cells(cells, unit, AreaOf(pdu[0]), WordAt(pdu, 1), WordAt(pdu, 3)));
    PackedBits(bits, i);
    assert HandlePdu(units, cells, unit, pdu) == [pdu[0], |Packed(bits)|] + Packed(bits);
  }

  /** A register read returns the requested words. */
  lemma {:induction false} RegisterReadReturns(units: set<int>, cells: ModbusRegistry.Cells, unit: int, pdu: seq<Byte>, i: nat)
    requires Readable(units, unit, pdu) && !IsBitRead(pdu[0]) && i < WordAt(pdu, 3)
    ensures var reply := HandlePdu(units, cells, unit, pdu);
            && reply[0] == pdu[0] && reply[1] == 2 * WordAt(pdu, 3) == |reply| - 2
            && WordAt(reply, 2 + 2 * i) == Get(cells, Cell(unit, Registers, WordAt(pdu, 1) + i))
  {
    var words := Cells(cells, unit, Registers, WordAt(pdu, 1), WordAt(pdu, 3));
    WordBytesAt(words, i);
    assert HandlePdu(units, cells, unit, pdu)[2..] == WordBytes(words);
  }

  // ---- Read-back ----

  /** What a covered cell should read as: its part of the last accepted reading, or its base. */
  function Displayed(plan: Plan, base: ModbusRegistry.Cells, log: seq<Accepted>, pair: Pair, k: int, c: Cell): Word
    requires Entry(plan, pair, k) && Covers(plan, plan.lookup[pair][k], c)
  {
    var p := plan.lookup[pair][k];
    var shown := Shown(plan, log, pair, p);
    if shown.Some? && Content(plan, p, shown.value).Some? then
      ContentSpan(plan, p, shown.value);
      Content(plan, p, shown.value).value[c.address - p.address]
    else Get(base, c)
  }

  /** After any interleaving of live updates and snapshots, a register read returns for every cell of a placement the
      encoding of the placement's last accepted reading, and for every other cell what was there at first. */
  lemma {:induction false} RegistersReadBack(plan: Plan, base: ModbusRegistry.Cells, actions: seq<Action>, unit: int, pdu: seq<Byte>, i: nat)
    requires Disjoint(plan) && Readable(plan.units, unit, pdu) && !IsBitRead(pdu[0]) && i < WordAt(pdu, 3)
    ensures var core := Run(plan, Core(base, map[], []), actions);
            var word := WordAt(HandlePdu(plan.units, core.cells, unit, pdu), 2 + 2 * i);
            var c := Cell(unit, Registers, WordAt(pdu, 1) + i);
            && (forall pair, k | Entry(plan, pair, k) && Covers(plan, plan.lookup[pair][k], c) ::
                  word == Displayed(plan, base, core.log, pair, k, c))
            && (Unowned(plan, c) ==> word == Get(base, c))
  {
    var core := Run(plan, Core(base, map[], []), actions);
    var c := Cell(unit, Registers, WordAt(pdu, 1) + i);
    RunMirrors(plan, base, actions);
    RegisterReadReturns(plan.units, core.cells, unit, pdu, i);
    forall pair, k | Entry(plan, pair, k) && Covers(plan, plan.lookup[pair][k], c)
      ensures Get(core.cells, c) == Displayed(plan, base, core.log, pair, k, c)
    {
      assert CellMirrors(plan, base, core, pair, k, c);
    }
  }

  /** The same for bits. */
  lemma {:induction false} BitsReadBack(plan: Plan, base: ModbusRegistry.Cells, actions: seq<Action>, unit: int, pdu: seq<Byte>, i: nat)
    requires Disjoint(plan) && Readable(plan.units, unit, pdu) && IsBitRead(pdu[0]) && i < WordAt(pdu, 3)
    ensures var core := Run(plan, Core(base, map[], []), actions);
            var bit := BitOf(HandlePdu(plan.units, core.cells, unit, pdu)[2 + i / 8], i % 8);
            var c := Cell(unit, AreaOf(pdu[0]), WordAt(pdu, 1) + i);
            && (forall pair, k | Entry(plan, pair, k) && Covers(plan, plan.lookup[pair][k], c) ::
                  bit == (Displayed(plan, base, core.log, pair, k, c) != 0))
            && (Unowned(plan, c) ==> bit == (Get(base, c) != 0))
  {
    var core := Run(plan, Core(base, map[], []), actions);
    var c := Cell(unit, AreaOf(pdu[0]), WordAt(pdu, 1) + i);
    RunMirrors(plan, base, actions);
    BitReadReturns(plan.units, core.cells, unit, pdu, i);
    forall pair, k | Entry(plan, pair, k) && Covers(plan, plan.lookup[pair][k], c)
      ensures Get(core.cells, c) == Displayed(plan, base, core.log, pair, k, c)
    {
      assert CellMirrors(plan, base, core, pair, k, c);
    }
  }

  /** End to end: a fixed-point signal in range reads back to half a step of its last accepted value. */
  lemma {:induction false} SignalReadsBack(plan: Plan, base: ModbusRegistry.Cells, actions: seq<Action>, unit: int, pdu: seq<Byte>, i: nat,
                        pair: Pair, k: int, r: Reading)
    requires Disjoint(plan) && Readable(plan.units, unit, pdu) && !IsBitRead(pdu[0]) && i < WordAt(pdu, 3)
    requires Entry(plan, pair, k) && plan.format.Int16? && !plan.lookup[pair][k].counter
    requires Covers(plan, plan.lookup[pair][k], Cell(unit, Registers, WordAt(pdu, 1) + i))
    requires Shown(plan, Run(plan, Core(base, map[], []), actions).log, pair, plan.lookup[pair][k]) == Some(r)
    requires r.number.Some?
    requires INT16_MIN as real
             <= ApplyScale(r.number.value.value, plan.lookup[pair][k].scale, plan.lookup[pair][k].offset)
             <= INT16_MAX as real
    ensures var p := plan.lookup[pair][k];
            var cells := Run(plan, Core(base, map[], []), actions).cells;
            Abs(DecodeInt16([WordAt(HandlePdu(plan.units, cells, unit, pdu), 2 + 2 * i)], p.scale, p.offset)
                - r.number.value.value) <= Abs(Effective(p.scale)) / 2.0
  {
    var p := plan.lookup[pair][k];
    var core := Run(plan, Core(base, map[], []), actions);
    RegistersReadBack(plan, base, actions, unit, pdu, i);
    FixedPointBound(r.number.value.value, p.scale, p.offset);
    WordOfSignal(plan, base, core.log, pair, k, Cell(unit, Registers, WordAt(pdu, 1) + i), r);
  }

  lemma {:induction false} WordOfSignal(plan: Plan, base: ModbusRegistry.Cells, log: seq<Accepted>, pair: Pair, k: int, c: Cell, r: Reading)
    requires Entry(plan, pair, k) && Covers(plan, plan.lookup[pair][k], c) && c.area.Registers?
    requires plan.format.Int16? && !plan.lookup[pair][k].counter && r.number.Some?
    requires Shown(plan, log, pair, plan.lookup[pair][k]) == Some(r)
    ensures [Displayed(plan, base, log, pair, k, c)] ==
            EncodeInt16(r.number.value.value, plan.lookup[pair][k].scale, plan.lookup[pair][k].offset)
  {
    ContentSpan(plan, plan.lookup[pair][k], r);
  }

  // ---- Redeployment ----

  /** A new plan starts from the old cells of the units both know; the stamps start afresh. */
  function Carried(before: ModbusRegistry.Cells, oldUnits: set<int>, after: ModbusRegistry.Cells, newUnits: set<int>): ModbusRegistry.Cells {
    after + map c | c in before && c.unit in oldUnits * newUnits :: before[c]
  }

  lemma {:induction false} LatestIsShown(plan: Plan, log: seq<Accepted>, pair: Pair, p: Placement)
    requires Latest(log, pair).Some? && Writes(plan, p, Latest(log, pair).value)
    ensures Shown(plan, log, pair, p) == Latest(log, pair)
  {
    if log[|log| - 1].pair != pair {
      LatestIsShown(plan, log[..|log| - 1], pair, p);
    }
  }

  /** A redeployment is not seen by a reader of a unit that both plans have: every request gets the same answer before it and
      after it. A unit that is new reads as never written. */
  lemma {:induction false} ReadsSurvive(before: ModbusRegistry.Cells, oldUnits: set<int>, newUnits: set<int>, unit: int, pdu: seq<Byte>)
    requires unit in newUnits
    ensures HandlePdu(newUnits, Carried(before, oldUnits, map[], newUnits), unit, pdu) ==
            if unit in oldUnits then HandlePdu(oldUnits, before, unit, pdu) else HandlePdu(newUnits, map[], unit, pdu)
  {
    if |pdu| >= 5 {
      var code, address, count := pdu[0], WordAt(pdu, 1), WordAt(pdu, 3);
      assert Cells(Carried(before, oldUnits, map[], newUnits), unit, AreaOf(code), address, count) ==
             Cells(if unit in oldUnits then before else map[], unit, AreaOf(code), address, count);
    }
  }

  /** After a redeployment one full snapshot is enough: whatever was carried over, every pair it offers shows the first of
      its newest rows at its new addresses, and only cells outside the plan keep what they had. */
  lemma {:induction false} RedeployRefreshes(plan: Plan, base: ModbusRegistry.Cells, rows: seq<Row>, pair: Pair, row: Row) returns (i: int)
    requires Disjoint(plan) && Stamped(rows, pair) && row in rows && Offers(plan, row, pair)
    ensures WinsAt(plan, Core(base, map[], []), rows, pair, i)
    ensures var core := Merge(plan, Core(base, map[], []), rows);
            && Mirrors(plan, base, core)
            && forall p | p in plan.lookup[pair] && Writes(plan, p, rows[i].value.value) ::
                 Shown(plan, core.log, pair, p) == rows[i].value
  {
    var start := Core(base, map[], []);
    var core := Merge(plan, start, rows);
    RunMirrors(plan, base, []);
    MergeMirrors(plan, base, start, rows);
    NewestWins(plan, start, rows, pair);
    i :| WinsAt(plan, start, rows, pair, i) && Latest(core.log, pair) == rows[i].value;
    forall p | p in plan.lookup[pair] && Writes(plan, p, rows[i].value.value)
      ensures Shown(plan, core.log, pair, p) == rows[i].value
    {
      LatestIsShown(plan, core.log, pair, p);
    }
  }
}
