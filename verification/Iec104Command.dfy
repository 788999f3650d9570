/** The single-command object of IEC 104 and the replies that mirror it. */
module Iec104Command {
  import opened Prelude
  import opened Iec104Apci

  const TYPE_SINGLE_COMMAND: Byte := 45

  datatype SingleCommand = SingleCommand(ca: nat, ioa: nat, select: bool, on: bool, sco: Byte)

  function LittleEndian(b0: nat, b1: nat, b2: nat): nat {
    b0 + 256 * b1 + 65536 * b2
  }

  function ParseSingleCommand(asdu: Bytes): Option<SingleCommand> {
    if |asdu| < 10 || asdu[0] != TYPE_SINGLE_COMMAND then None
    else if asdu[1] >= 0x80 then None        // sequential addressing
    else if asdu[1] != 1 then None           // more or fewer than one object
    else Some(SingleCommand(LittleEndian(asdu[4], asdu[5], 0), LittleEndian(asdu[6], asdu[7], asdu[8]),
                            asdu[9] >= 0x80, asdu[9] % 2 == 1, asdu[9]))
  }

  /** `encode_single_command_reply` with the originator left at 0. */
  function SingleCommandReply(ca: nat, ioa: nat, sco: Byte, cause: Byte, negative: bool): Bytes
    requires ioa < 0x100_0000
  {
    [TYPE_SINGLE_COMMAND, 1, cause % 64 + (if negative then 0x40 else 0), 0,
     ca % 65536 % 256, ca % 65536 / 256, ioa % 256, ioa / 256 % 256, ioa / 65536, sco]
  }

  /** A reply mirrors the command object it answers: a master matching replies by address and command octet
      finds its own command again, for a confirmation and for a termination, positive or negative. */
  lemma {:induction false} ReplyMirrorsCommand(asdu: Bytes, cause: Byte, negative: bool)
    requires ParseSingleCommand(asdu).Some?
    ensures var cmd := ParseSingleCommand(asdu).value;
            cmd.ioa < 0x100_0000 &&
            var reply := SingleCommandReply(cmd.ca, cmd.ioa, cmd.sco, cause, negative);
            ParseSingleCommand(reply) == Some(cmd)
            && reply[..2] == asdu[..2] && reply[4..] == asdu[4..10]
            && (reply[2] / 64 % 2 == 1 <==> negative) && reply[2] % 64 == cause % 64
  {
    var cmd := ParseSingleCommand(asdu).value;
    var ca := cmd.ca;
    var ioa := cmd.ioa;
    assert ca % 256 == asdu[4] && ca / 256 == asdu[5];
    assert ioa % 256 == asdu[6];
    assert ioa / 256 == LittleEndian(asdu[7], asdu[8], 0);
    assert ioa / 256 % 256 == asdu[7];
    assert ioa / 65536 == asdu[8];
    var reply := SingleCommandReply(ca, ioa, cmd.sco, cause, negative);
    SameTail(reply, asdu);
    assert asdu[..2] == [asdu[0], asdu[1]];
  }

  /** A master's single command comes in as it was meant, octet by octet: address low octet first, select in the top bit of
      the command octet, on in the lowest, whatever the cause, the originator and the bits between. */
  lemma {:induction false} CommandComesIn(ca: nat, ioa: nat, select: bool, qualifier: nat, on: bool, cause: Byte, originator: Byte, rest: Bytes)
    requires ca < 65536 && ioa < 0x100_0000 && qualifier < 64
    ensures var sco := (if select then 128 else 0) + 2 * qualifier + (if on then 1 else 0);
            ParseSingleCommand([45, 1, cause, originator, ca % 256, ca / 256, ioa % 256, ioa / 256 % 256, ioa / 65536, sco] + rest)
            == Some(SingleCommand(ca, ioa, select, on, sco))
  {
    assert ioa == ioa % 256 + 256 * (ioa / 256 % 256) + 65536 * (ioa / 65536) by {
      assert ioa / 256 == ioa / 256 % 256 + 256 * (ioa / 65536);
    }
    assert (2 * qualifier + 1) % 2 == 1 && (128 + 2 * qualifier + 1) % 2 == 1;
  }

  /** Everything else is refused: shorter, of another type, or with more or fewer than one object. */
  lemma {:induction false} OthersAreRefused(asdu: Bytes)
    ensures ParseSingleCommand(asdu).Some? <==> |asdu| >= 10 && asdu[0] == 45 && asdu[1] == 1
  {
  }

  lemma {:induction false} SameTail(a: Bytes, b: Bytes)
    requires |a| == 10 <= |b| && a[4] == b[4] && a[5] == b[5] && a[6] == b[6] && a[7] == b[7] && a[8] == b[8] && a[9] == b[9]
    ensures a[4..] == b[4..10]
  {
  }
}
