/** APCI framing of the IEC 104 server: building and parsing control frames.

    The bit fields of the control octets are written with the arithmetic they stand for: `x << 1` masked to an
    octet is `2 * x % 256`, `x >> 7` is `x / 128`, and an `|` of disjoint fields is a sum. */
module Iec104Apci {
  import opened Prelude

  type Byte = x: int | 0 <= x < 256
  type Bytes = seq<Byte>

  const START_BYTE: Byte := 0x68
  const SEQUENCE_MODULUS := 32768
  const MAX_ASDU := 249

  datatype UTag = StartAct | StartCon | StopAct | StopCon | TestAct | TestCon

  /** An application protocol data unit; `A` is what an I-frame carries. */
  datatype Apdu<+A> = I(ns: nat, nr: nat, asdu: A) | S(nr: nat) | U(tag: UTag)

  datatype Parse = NeedMore | Malformed | Frame(apdu: Apdu<Bytes>, length: nat)

  function UCode(tag: UTag): Byte {
    match tag
    case StartAct => 0x07
    case StartCon => 0x0B
    case StopAct => 0x13
    case StopCon => 0x23
    case TestAct => 0x43
    case TestCon => 0x83
  }

  function FindUTag(ctrl: Bytes): Option<UTag>
    requires |ctrl| == 4
  {
    if ctrl[1..] != [0, 0, 0] then None
    else if ctrl[0] == 0x07 then Some(StartAct)
    else if ctrl[0] == 0x0B then Some(StartCon)
    else if ctrl[0] == 0x13 then Some(StopAct)
    else if ctrl[0] == 0x23 then Some(StopCon)
    else if ctrl[0] == 0x43 then Some(TestAct)
    else if ctrl[0] == 0x83 then Some(TestCon)
    else None
  }

  function SequenceField(lo: Byte, hi: Byte): nat {
    lo / 2 + 128 * hi
  }

  /** The octets of a sequence number; the lower one leaves its lowest bit clear. */
  function LowOctet(n: nat): (lo: Byte)
    requires n < SEQUENCE_MODULUS
    ensures lo % 2 == 0 && SequenceField(lo, HighOctet(n)) == n
  {
    assert 2 * n % 256 == 2 * (n % 128);
    2 * n % 256
  }

  function HighOctet(n: nat): Byte
    requires n < SEQUENCE_MODULUS
  {
    n / 128
  }

  function ParseApci(data: Bytes): Parse
    requires data != [] ==> data[0] == START_BYTE  // the reassembly loop skips everything else
  {
    if |data| < 6 then NeedMore else
      var length := data[1];
      if length < 4 || length > 253 then Malformed
      else if |data| < 2 + length then NeedMore
      else
        var ctrl := data[2..6];
        if ctrl[0] % 2 == 0 then
          Frame(I(SequenceField(ctrl[0], ctrl[1]), SequenceField(ctrl[2], ctrl[3]), data[6..2 + length]), length)
        else if ctrl[0] % 4 == 1 then
          Frame(S(SequenceField(ctrl[2], ctrl[3])), length)
        else
          match FindUTag(ctrl)
          case Some(tag) => Frame(U(tag), length)
          case None => Malformed
  }

  datatype BuildError = SequenceOutOfRange | AsduTooLarge

  /** `build_i_frame_asdu`, `build_s_frame` and `build_u_frame`. */
  function Build(apdu: Apdu<Bytes>): Result<Bytes, BuildError> {
    match apdu
    case U(tag) => Ok([START_BYTE, 4, UCode(tag), 0, 0, 0])
    case S(nr) =>
      if nr >= SEQUENCE_MODULUS then Err(SequenceOutOfRange)
      else Ok([START_BYTE, 4, 1, 0, LowOctet(nr), HighOctet(nr)])
    case I(ns, nr, asdu) =>
      if ns >= SEQUENCE_MODULUS || nr >= SEQUENCE_MODULUS then Err(SequenceOutOfRange)
      else if |asdu| > MAX_ASDU then Err(AsduTooLarge)
      else Ok([START_BYTE, 4 + |asdu|, LowOctet(ns), HighOctet(ns), LowOctet(nr), HighOctet(nr)] + asdu)
  }

  lemma {:induction false} SequenceFieldBounds(lo: Byte, hi: Byte)
    ensures SequenceField(lo, hi) < SEQUENCE_MODULUS
    ensures 2 * SequenceField(lo, hi) % 256 == lo - lo % 2 && SequenceField(lo, hi) / 128 == hi
  {
    assert SequenceField(lo, hi) % 128 == lo / 2;
  }

  lemma {:induction false} ParseInvertsI(ns: nat, nr: nat, asdu: Bytes, suffix: Bytes)
    requires Build(I(ns, nr, asdu)).Ok?
    ensures var built := Build(I(ns, nr, asdu)).value;
            ParseApci(built + suffix) == Frame(I(ns, nr, asdu), |built| - 2)
  {
    var data := Build(I(ns, nr, asdu)).value + suffix;
    assert data[6..6 + |asdu|] == asdu;
  }

  lemma {:induction false} ParseInvertsU(tag: UTag, suffix: Bytes)
    ensures ParseApci(Build(U(tag)).value + suffix) == Frame(U(tag), 4)
  {
    var data := Build(U(tag)).value + suffix;
    var ctrl := data[2..6];
    assert ctrl == [UCode(tag), 0, 0, 0];
    assert ctrl[1..] == [0, 0, 0];
  }

  lemma {:induction false} ParseInvertsS(nr: nat, suffix: Bytes)
    requires nr < SEQUENCE_MODULUS
    ensures ParseApci(Build(S(nr)).value + suffix) == Frame(S(nr), 4)
  {
    var data := Build(S(nr)).value + suffix;
    assert data[2..6] == [1, 0, LowOctet(nr), HighOctet(nr)];
  }

  /** Parsing undoes building, whatever bytes follow the frame in the buffer. */
  lemma {:induction false} ParseInvertsBuild(apdu: Apdu<Bytes>, suffix: Bytes)
    requires Build(apdu).Ok?
    ensures ParseApci(Build(apdu).value + suffix) == Frame(apdu, |Build(apdu).value| - 2)
  {
    match apdu
    case U(tag) => ParseInvertsU(tag, suffix);
    case S(nr) => ParseInvertsS(nr, suffix);
    case I(ns, nr, asdu) => ParseInvertsI(ns, nr, asdu, suffix);
  }

  /** And building undoes parsing for an I-frame, exactly when the spare bit of the third control octet,
      which the parser ignores, is clear. */
  lemma {:induction false} BuildInvertsParse(data: Bytes)
    requires data != [] && data[0] == START_BYTE
    requires ParseApci(data).Frame? && ParseApci(data).apdu.I?
    ensures Build(ParseApci(data).apdu) == Ok(data[..2 + ParseApci(data).length]) <==> data[4] % 2 == 0
  {
    var frame := ParseApci(data);
    var apdu := frame.apdu;
    assert data[2..6] == [data[2], data[3], data[4], data[5]];
    SequenceFieldBounds(data[2], data[3]);
    SequenceFieldBounds(data[4], data[5]);
    assert Build(apdu).Ok?;
    var built := Build(apdu).value;
    assert built[..6] == [START_BYTE, data[1], data[2], data[3], LowOctet(apdu.nr), data[5]];
    assert built[6..] == data[6..2 + frame.length];
    if data[4] % 2 == 0 {
      assert LowOctet(apdu.nr) == data[4];
      assert data[..6] == [data[0], data[1], data[2], data[3], data[4], data[5]] == built[..6];
      assert built == built[..6] + built[6..];
      assert data[..2 + frame.length] == data[..6] + data[6..2 + frame.length];
    } else {
      assert built[4] != data[..2 + frame.length][4];
    }
  }
}
