/** The reassembly of a TCP byte stream into frames, and which streams it reads the same however they are cut. */
module Iec104Reassembly {
  import opened Prelude
  import opened Iec104Apci

  datatype Scanned = Scanned(frames: seq<Apdu<Bytes>>, rest: Bytes)

  /** What one pass of the reassembly loop dispatches and what it leaves in the buffer. */
  function Scan(buffer: Bytes): Scanned
    decreases |buffer|
  {
    if |buffer| == 0 then Scanned([], [])
    else if buffer[0] != START_BYTE then Scan(buffer[1..])
    else
      match ParseApci(buffer)
      case Malformed => Scanned([], [])
      case NeedMore => Scanned([], buffer)
      case Frame(apdu, length) =>
        var later := Scan(buffer[2 + length..]);
        Scanned([apdu] + later.frames, later.rest)
  }

  /** The receiving half of a connection: the loop over complete frames after every read. */
  class Reassembler {
    var buffer: Bytes

    constructor ()
      ensures buffer == []
    {
      buffer := [];
    }

    method Feed(chunk: Bytes) returns (frames: seq<Apdu<Bytes>>)
      modifies this
      ensures Scanned(frames, buffer) == Scan(old(buffer) + chunk)
    {
      buffer := buffer + chunk;
      frames := [];
      ghost var all := buffer;
      while buffer != []
        invariant Scan(all) == Scanned(frames + Scan(buffer).frames, Scan(buffer).rest)
        decreases |buffer|
      {
        if buffer[0] != START_BYTE {
          buffer := buffer[1..];
          continue;
        }
        var parsed := ParseApci(buffer);
        if parsed.Malformed? {
          buffer := [];
          break;
        }
        if parsed.NeedMore? {
          break;
        }
        assert frames + Scan(buffer).frames == frames + [parsed.apdu] + Scan(buffer[2 + parsed.length..]).frames;
        frames := frames + [parsed.apdu];
        buffer := buffer[2 + parsed.length..];
      }
    }
  }

  /** The stream never shows the parser a malformed unit. */
  ghost predicate Clean(stream: Bytes)
    decreases |stream|
  {
    |stream| == 0 ||
    (if stream[0] != START_BYTE then Clean(stream[1..]) else
       match ParseApci(stream)
       case Malformed => false
       case NeedMore => true
       case Frame(_, length) => Clean(stream[2 + length..]))
  }

  lemma {:induction false} ParseExtends(data: Bytes, more: Bytes)
    requires data != [] && data[0] == START_BYTE
    ensures !ParseApci(data).NeedMore? ==> ParseApci(data + more) == ParseApci(data)
  {
    var all := data + more;
    if |data| >= 6 {
      assert all[2..6] == data[2..6];
      var length: nat := data[1];
      if |data| >= 2 + length && length >= 4 {
        assert all[6..2 + length] == data[6..2 + length];
      }
    }
  }

  /** How many bytes it takes to see that a unit is malformed. */
  function Needed(data: Bytes): nat
    requires data != [] && data[0] == START_BYTE && ParseApci(data).Malformed?
    ensures 6 <= Needed(data) <= |data|
  {
    if data[1] < 4 || data[1] > 253 then 6 else 2 + data[1]
  }

  lemma {:induction false} MalformedEarly(data: Bytes, n: nat)
    requires data != [] && data[0] == START_BYTE && ParseApci(data).Malformed? && Needed(data) <= n <= |data|
    ensures ParseApci(data[..n]).Malformed?
  {
    assert data[..n][2..6] == data[2..6];
  }

  /** Wherever a unit could begin, it is malformed. */
  predicate Mute(stream: Bytes) {
    forall p | 0 <= p < |stream| && stream[p] == START_BYTE :: ParseApci(stream[p..]).Malformed?
  }

  /** Behind the first malformed unit, if there is one, the stream is mute. */
  ghost predicate Cuttable(stream: Bytes)
    decreases |stream|
  {
    |stream| == 0 ||
    (if stream[0] != START_BYTE then Cuttable(stream[1..]) else
       match ParseApci(stream)
       case Malformed => Mute(stream[Needed(stream)..])
       case NeedMore => true
       case Frame(_, length) => Cuttable(stream[2 + length..]))
  }

  lemma {:induction false} CleanIsCuttable(stream: Bytes)
    requires Clean(stream)
    ensures Cuttable(stream)
    decreases |stream|
  {
    if stream != [] {
      if stream[0] != START_BYTE {
        CleanIsCuttable(stream[1..]);
      } else if ParseApci(stream).Frame? {
        CleanIsCuttable(stream[2 + ParseApci(stream).length..]);
      }
    }
  }

  lemma {:induction false} MuteSuffix(a: Bytes, b: Bytes)
    requires Mute(a + b)
    ensures Mute(b)
  {
    forall p | 0 <= p < |b| && b[p] == START_BYTE
      ensures ParseApci(b[p..]).Malformed?
    {
      assert (a + b)[|a| + p] == b[p] && (a + b)[|a| + p..] == b[p..];
    }
  }

  /** Scanning a clean prefix first and the rest later dispatches what scanning all of it at once does. */
  lemma {:induction false} CleanSplits(a: Bytes, b: Bytes)
    requires Clean(a)
    ensures var later := Scan(Scan(a).rest + b);
            Scan(a + b) == Scanned(Scan(a).frames + later.frames, later.rest)
    ensures Cuttable(a + b) ==> Cuttable(Scan(a).rest + b)
    decreases |a|
  {
    if |a| == 0 {
      assert a + b == b && [] + b == b;
    } else if a[0] != START_BYTE {
      assert (a + b)[1..] == a[1..] + b;
      CleanSplits(a[1..], b);
    } else {
      ParseExtends(a, b);
      if ParseApci(a).Frame? {
        var next := 2 + ParseApci(a).length;
        assert (a + b)[next..] == a[next..] + b;
        CleanSplits(a[next..], b);
      }
    }
  }

  /** A prefix with a malformed unit: what is behind it goes the same way when it arrives with it. */
  lemma {:induction false} BrokenSplits(a: Bytes, b: Bytes)
    requires !Clean(a)
    ensures Scan(a + b) == Scan(a) && Scan(a).rest == []
    ensures Cuttable(a + b) ==> Mute(b)
    decreases |a|
  {
    if a[0] != START_BYTE {
      assert (a + b)[1..] == a[1..] + b;
      BrokenSplits(a[1..], b);
    } else {
      ParseExtends(a, b);
      if ParseApci(a).Frame? {
        var next := 2 + ParseApci(a).length;
        assert (a + b)[next..] == a[next..] + b;
        BrokenSplits(a[next..], b);
      } else {
        var n := Needed(a);
        assert (a + b)[n..] == a[n..] + b;
        if Mute(a[n..] + b) {
          MuteSuffix(a[n..], b);
        }
      }
    }
  }

  function Join(chunks: seq<Bytes>): Bytes {
    if |chunks| == 0 then [] else chunks[0] + Join(chunks[1..])
  }

  /** Feeding the chunks one after another, starting with `buffer` in the buffer. */
  function FeedAll(buffer: Bytes, chunks: seq<Bytes>): Scanned
    decreases |chunks|
  {
    if |chunks| == 0 then Scanned([], buffer) else
      var first := Scan(buffer + chunks[0]);
      var later := FeedAll(first.rest, chunks[1..]);
      Scanned(first.frames + later.frames, later.rest)
  }

  lemma {:induction false} ScanOfRest(a: Bytes)
    ensures Scan(Scan(a).rest) == Scanned([], Scan(a).rest)
    decreases |a|
  {
    if a == [] {
    } else if a[0] != START_BYTE {
      ScanOfRest(a[1..]);
    } else if ParseApci(a).Frame? {
      ScanOfRest(a[2 + ParseApci(a).length..]);
    }
  }

  /** A mute stream, however cut, dispatches nothing and leaves nothing. */
  lemma {:induction false} MuteChunks(buffer: Bytes, chunks: seq<Bytes>)
    requires Mute(buffer + Join(chunks)) && Scan(buffer) == Scanned([], buffer)
    ensures FeedAll(buffer, chunks) == Scanned([], [])
    decreases |chunks|
  {
    if chunks == [] {
      assert buffer + Join(chunks) == buffer;
      MuteScan(buffer, []);
    } else {
      var a, b := buffer + chunks[0], Join(chunks[1..]);
      assert buffer + Join(chunks) == a + b;
      MuteScan(a, b);
      ScanOfRest(a);
      MuteChunks(Scan(a).rest, chunks[1..]);
    }
  }

  lemma {:induction false} MuteScan(a: Bytes, b: Bytes)
    requires Mute(a + b)
    ensures Scan(a).frames == [] && Mute(Scan(a).rest + b)
    ensures b == [] ==> Scan(a).rest == []
    decreases |a|
  {
    if a == [] {
      assert [] + b == a + b;
    } else if a[0] != START_BYTE {
      assert [a[0]] + (a[1..] + b) == a + b;
      MuteSuffix([a[0]], a[1..] + b);
      MuteScan(a[1..], b);
    } else {
      assert (a + b)[0] == START_BYTE && (a + b)[0..] == a + b;
      ParseExtends(a, b);
      assert b == [] ==> a + b == a;
      MuteSuffix(a, b);
      assert [] + b == b;
    }
  }

  /** Cutting a cuttable stream into chunks, anywhere and into any number, changes nothing. */
  lemma {:induction false} ChunkIndependence(buffer: Bytes, chunks: seq<Bytes>)
    requires Cuttable(buffer + Join(chunks))
    requires Scan(buffer) == Scanned([], buffer)
    ensures FeedAll(buffer, chunks) == Scan(buffer + Join(chunks))
    decreases |chunks|
  {
    if chunks == [] {
      assert buffer + Join(chunks) == buffer;
    } else {
      var a, b := buffer + chunks[0], Join(chunks[1..]);
      assert buffer + Join(chunks) == a + b;
      ScanOfRest(a);
      if Clean(a) {
        CleanSplits(a, b);
        ChunkIndependence(Scan(a).rest, chunks[1..]);
      } else {
        BrokenSplits(a, b);
        assert [] + b == b;
        MuteChunks([], chunks[1..]);
      }
    }
  }

  /** A malformed unit empties the whole buffer: a unit behind it is lost if both arrive together, and is not if it
      arrives on its own. */
  lemma {:induction false} LosingCut(stream: Bytes) returns (a: Bytes, b: Bytes)
    requires !Cuttable(stream)
    ensures stream == a + b && !Clean(a)
    ensures Scan(b) != Scanned([], [])
    decreases |stream|
  {
    if stream[0] != START_BYTE {
      a, b := LosingCut(stream[1..]);
      a := [stream[0]] + a;
      assert a[1..] + b == stream[1..];
    } else if ParseApci(stream).Frame? {
      var next := 2 + ParseApci(stream).length;
      var a1;
      a1, b := LosingCut(stream[next..]);
      a := stream[..next] + a1;
      assert a + b == stream && a[next..] == a1;
      FrameEarly(stream, a);
    } else {
      a, b := CutBehind(stream);
    }
  }

  lemma {:induction false} CutBehind(stream: Bytes) returns (a: Bytes, b: Bytes)
    requires stream != [] && stream[0] == START_BYTE && ParseApci(stream).Malformed? && !Mute(stream[Needed(stream)..])
    ensures stream == a + b && !Clean(a)
    ensures Scan(b) != Scanned([], [])
  {
    var n := Needed(stream);
    var behind := stream[n..];
    var p :| 0 <= p < |behind| && behind[p] == START_BYTE && !ParseApci(behind[p..]).Malformed?;
    a, b := stream[..n + p], behind[p..];
    assert b == stream[n + p..];
    MalformedEarly(stream, n + p);
  }

  lemma {:induction false} FrameEarly(data: Bytes, prefix: Bytes)
    requires data != [] && data[0] == START_BYTE && ParseApci(data).Frame? && prefix <= data
    requires |prefix| >= 2 + ParseApci(data).length
    ensures ParseApci(prefix) == ParseApci(data)
  {
    assert prefix[2..6] == data[2..6];
    assert prefix[6..2 + data[1]] == data[6..2 + data[1]];
  }

  lemma {:induction false} FeedTwo(a: Bytes, b: Bytes)
    ensures FeedAll([], [a, b]) == Scanned(Scan(a).frames + Scan(Scan(a).rest + b).frames, Scan(Scan(a).rest + b).rest)
    ensures Join([a, b]) == a + b
  {
    assert [a, b][1..] == [b] && [b][1..] == [];
    assert [] + a == a;
    assert Join([b]) == b + Join([]) == b;
    var rest := Scan(a).rest;
    assert FeedAll(Scan(rest + b).rest, []) == Scanned([], Scan(rest + b).rest);
    assert FeedAll(rest, [b]) == Scan(rest + b);
  }

  /** The streams that every cutting leaves the same, and no others. */
  lemma {:induction false} CuttingsAgree(stream: Bytes)
    ensures (forall chunks | Join(chunks) == stream :: FeedAll([], chunks) == Scan(stream)) <==> Cuttable(stream)
  {
    assert [] + stream == stream;
    if Cuttable(stream) {
      forall chunks | Join(chunks) == stream
        ensures FeedAll([], chunks) == Scan(stream)
      {
        ChunkIndependence([], chunks);
      }
    } else {
      var a, b := LosingCut(stream);
      BrokenSplits(a, b);
      FeedTwo(a, b);
      assert [] + b == b;
    }
  }

  // ---- Well-formed streams ----

  /** A stream of frames, possibly separated by bytes that start no frame. */
  datatype Piece = Noise(b: Byte) | Whole(apdu: Apdu<Bytes>)

  predicate GoodPiece(p: Piece) {
    match p case Noise(b) => b != START_BYTE case Whole(apdu) => Build(apdu).Ok?
  }

  ghost predicate WellFormed(pieces: seq<Piece>) {
    forall i | 0 <= i < |pieces| :: GoodPiece(pieces[i])
  }

  function PieceBytes(p: Piece): Bytes
    requires GoodPiece(p)
  {
    match p case Noise(b) => [b] case Whole(apdu) => Build(apdu).value
  }

  ghost function StreamOf(pieces: seq<Piece>): Bytes
    requires WellFormed(pieces)
  {
    if |pieces| == 0 then [] else PieceBytes(pieces[0]) + StreamOf(pieces[1..])
  }

  function FramesOf(pieces: seq<Piece>): seq<Apdu<Bytes>> {
    if |pieces| == 0 then [] else (if pieces[0].Whole? then [pieces[0].apdu] else []) + FramesOf(pieces[1..])
  }

  lemma {:induction false} WellFormedScans(pieces: seq<Piece>)
    requires WellFormed(pieces)
    ensures Clean(StreamOf(pieces)) && Scan(StreamOf(pieces)) == Scanned(FramesOf(pieces), [])
  {
    if pieces != [] {
      var later := StreamOf(pieces[1..]);
      WellFormedScans(pieces[1..]);
      match pieces[0]
      case Noise(b) => assert ([b] + later)[1..] == later;
      case Whole(apdu) =>
        ParseInvertsBuild(apdu, later);
        assert (Build(apdu).value + later)[|Build(apdu).value|..] == later;
    }
  }

  /** The reassembly theorem: any frames, any noise between them, any cutting into chunks. */
  lemma {:induction false} Reassembles(pieces: seq<Piece>, chunks: seq<Bytes>)
    requires WellFormed(pieces) && Join(chunks) == StreamOf(pieces)
    ensures FeedAll([], chunks) == Scanned(FramesOf(pieces), [])
  {
    WellFormedScans(pieces);
    CleanIsCuttable(StreamOf(pieces));
    assert [] + Join(chunks) == Join(chunks);
    ChunkIndependence([], chunks);
  }
}
