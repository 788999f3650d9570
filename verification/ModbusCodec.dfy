/** Values to Modbus register words. */
module ModbusCodec {
  import opened Prelude

  const INT16_MIN := -32768
  const INT16_MAX := 32767
  const WORDS := 0x1_0000
  const DOUBLE_WORDS := 0x1_0000_0000

  type Word = w: int | 0 <= w < WORDS
  type DoubleWord = w: int | 0 <= w < DOUBLE_WORDS

  /** A number as the codec sees it: its value, and its single-precision bit pattern, which is not interpreted here. */
  datatype Number = Number(value: real, single: DoubleWord)

  /** A reading: the number it converts to, if any, and the bit it converts to. */
  datatype Reading = Reading(number: Option<Number>, bit: bool)

  datatype Format = Int16 | Float32

  datatype Order = BigFirst | LittleFirst

  /** To the nearest integer, halves to the even one. */
  function Round(x: real): int {
    var f := x.Floor;
    var d := x - f as real;
    if d < 0.5 || (d == 0.5 && f % 2 == 0) then f else f + 1
  }

  function Clamp(n: int): int {
    if n < INT16_MIN then INT16_MIN else if n > INT16_MAX then INT16_MAX else n
  }

  function ToWire(n: int): Word {
    n % WORDS
  }

  /** Two's complement, as the reader takes it. */
  function FromWire(w: Word): int {
    if w > INT16_MAX then w - WORDS else w
  }

  function Effective(scale: real): (s: real)
    ensures s != 0.0
  {
    if scale == 0.0 then 1.0 else scale
  }

  function ApplyScale(value: real, scale: real, offset: real): real {
    (value - offset) / Effective(scale)
  }

  /** The signed word for a scaled value. */
  function Raw(x: real): (n: int)
    ensures INT16_MIN <= n <= INT16_MAX
  {
    Clamp(Round(x))
  }

  function EncodeInt16(value: real, scale: real, offset: real): seq<Word> {
    [ToWire(Raw(ApplyScale(value, scale, offset)))]
  }

  function DecodeInt16(words: seq<Word>, scale: real, offset: real): real
    requires |words| == 1
  {
    FromWire(words[0]) as real * Effective(scale) + offset
  }

  function Ordered(high: Word, low: Word, order: Order): seq<Word> {
    if order.BigFirst? then [high, low] else [low, high]
  }

  function EncodeDouble(w: DoubleWord, order: Order): seq<Word> {
    Ordered(w / WORDS, w % WORDS, order)
  }

  function DecodeDouble(words: seq<Word>, order: Order): int
    requires |words| == 2
  {
    if order.BigFirst? then words[0] * WORDS + words[1] else words[1] * WORDS + words[0]
  }

  /** A counter: negative counts as zero, too large wraps. */
  function EncodeUint32(value: real, order: Order): seq<Word> {
    var raw := Truncate(value);
    EncodeDouble(if raw < 0 then 0 else raw % DOUBLE_WORDS, order)
  }

  function EncodeRegisters(n: Number, counter: bool, format: Format, order: Order, scale: real, offset: real): (words: seq<Word>)
    ensures |words| == if counter || format.Float32? then 2 else 1
  {
    if counter then EncodeUint32(n.value, order)
    else if format.Float32? then EncodeDouble(n.single, order)
    else EncodeInt16(n.value, scale, offset)
  }

  // ---- Fixed point ----

  lemma {:induction false} RoundNear(x: real)
    ensures -0.5 <= Round(x) as real - x <= 0.5
  {
  }

  lemma {:induction false} RoundWhole(n: int)
    ensures Round(n as real) == n
  {
  }

  lemma {:induction false} RoundMonotone(x: real, y: real)
    requires x <= y
    ensures Round(x) <= Round(y)
  {
    if x.Floor < y.Floor {
      assert Round(x) <= x.Floor + 1 <= y.Floor <= Round(y);
    }
  }

  lemma {:induction false} WireRoundTrip(n: int)
    requires INT16_MIN <= n <= INT16_MAX
    ensures FromWire(ToWire(n)) == n
  {
    if n < 0 {
      assert (n + WORDS) % WORDS == n + WORDS;
      assert n % WORDS == (n + WORDS) % WORDS;
    }
  }

  lemma {:induction false} DecodedRaw(value: real, scale: real, offset: real)
    ensures DecodeInt16(EncodeInt16(value, scale, offset), scale, offset)
            == Raw(ApplyScale(value, scale, offset)) as real * Effective(scale) + offset
  {
    WireRoundTrip(Raw(ApplyScale(value, scale, offset)));
  }

  lemma {:induction false} RawNear(x: real)
    requires INT16_MIN as real <= x <= INT16_MAX as real
    ensures -0.5 <= Raw(x) as real - x <= 0.5
  {
    RoundMonotone(INT16_MIN as real, x);
    RoundMonotone(x, INT16_MAX as real);
    RoundWhole(INT16_MIN);
    RoundWhole(INT16_MAX);
    RoundNear(x);
  }

  lemma {:induction false} RawEnds(x: real)
    ensures x >= INT16_MAX as real ==> Raw(x) == INT16_MAX
    ensures x <= INT16_MIN as real ==> Raw(x) == INT16_MIN
  {
    RoundWhole(INT16_MIN);
    RoundWhole(INT16_MAX);
    if x >= INT16_MAX as real {
      RoundMonotone(INT16_MAX as real, x);
    }
    if x <= INT16_MIN as real {
      RoundMonotone(x, INT16_MIN as real);
    }
  }

  function Abs(x: real): real {
    if x < 0.0 then -x else x
  }

  /** Half a unit of the word is half a step of the value. */
  lemma {:induction false} ScaledError(d: real, value: real, offset: real, n: real, x: real, s: real)
    requires d == n * s + offset && x * s == value - offset && -0.5 <= n - x <= 0.5
    ensures Abs(d - value) <= Abs(s) / 2.0
  {
    var e := n - x;
    assert d - value == e * s;
    if s >= 0.0 {
      assert -0.5 * s <= e * s <= 0.5 * s;
    } else {
      assert 0.5 * s <= e * s <= -0.5 * s;
    }
  }

  lemma {:induction false} Unscaled(x: real, y: real, s: real)
    requires s != 0.0 && x == y / s
    ensures x * s == y
  {
  }

  lemma {:induction false} Distributes(a: real, b: real, s: real)
    ensures a * s - b * s == (a - b) * s
  {
  }

  /** The nearest integer, and of two the even one. */
  lemma {:induction false} RoundMeans(x: real)
    ensures var n := Round(x);
            -0.5 <= n as real - x <= 0.5 && (n as real - x in {-0.5, 0.5} ==> n % 2 == 0)
  {
  }

  /** In range, the reader gets the value back to half a step. */
  lemma {:induction false} FixedPointBound(value: real, scale: real, offset: real)
    requires INT16_MIN as real <= ApplyScale(value, scale, offset) <= INT16_MAX as real
    ensures Abs(DecodeInt16(EncodeInt16(value, scale, offset), scale, offset) - value) <= Abs(Effective(scale)) / 2.0
  {
    var x := ApplyScale(value, scale, offset);
    DecodedRaw(value, scale, offset);
    RawNear(x);
    Unscaled(x, value - offset, Effective(scale));
    ScaledError(DecodeInt16(EncodeInt16(value, scale, offset), scale, offset), value, offset, Raw(x) as real, x, Effective(scale));
  }

  /** Out of range, the reader gets the nearer end. */
  lemma {:induction false} FixedPointSaturates(value: real, scale: real, offset: real)
    ensures ApplyScale(value, scale, offset) >= INT16_MAX as real ==>
              DecodeInt16(EncodeInt16(value, scale, offset), scale, offset) == INT16_MAX as real * Effective(scale) + offset
    ensures ApplyScale(value, scale, offset) <= INT16_MIN as real ==>
              DecodeInt16(EncodeInt16(value, scale, offset), scale, offset) == INT16_MIN as real * Effective(scale) + offset
  {
    DecodedRaw(value, scale, offset);
    RawEnds(ApplyScale(value, scale, offset));
  }

  lemma {:induction false} RawMonotone(x: real, y: real)
    requires x <= y
    ensures Raw(x) <= Raw(y)
  {
    RoundMonotone(x, y);
  }

  lemma {:induction false} OrderBack(x: real, y: real, p: real, q: real, s: real)
    requires x * s == p && y * s == q && p <= q && s > 0.0
    ensures x <= y
  {
    if x > y {
      Distributes(x, y, s);
      PositiveProduct(x - y, s);
    }
  }

  lemma {:induction false} PositiveProduct(x: real, s: real)
    requires x > 0.0 && s > 0.0
    ensures x * s > 0.0
  {
  }

  lemma {:induction false} ScaledMonotone(d: real, e: real, m: int, n: int, s: real, offset: real)
    requires d == m as real * s + offset && e == n as real * s + offset && m <= n && s > 0.0
    ensures d <= e
  {
    Distributes(n as real, m as real, s);
  }

  /** What a reader makes of `value`, stated without division. */
  lemma {:induction false} Decoded(value: real, scale: real, offset: real) returns (d: real, x: real)
    ensures d == DecodeInt16(EncodeInt16(value, scale, offset), scale, offset)
    ensures x * Effective(scale) == value - offset && d == Raw(x) as real * Effective(scale) + offset
  {
    x := ApplyScale(value, scale, offset);
    d := DecodeInt16(EncodeInt16(value, scale, offset), scale, offset);
    DecodedRaw(value, scale, offset);
    Unscaled(x, value - offset, Effective(scale));
  }

  lemma {:induction false} DecodesInOrder(d: real, e: real, a: real, b: real, s: real, offset: real, x: real, y: real, m: int, n: int)
    requires x * s == a - offset && y * s == b - offset && a <= b && s > 0.0
    requires d == m as real * s + offset && e == n as real * s + offset && m == Raw(x) && n == Raw(y)
    ensures d <= e
  {
    RawInOrder(x, y, a - offset, b - offset, s, m, n);
    ScaledMonotone(d, e, m, n, s, offset);
  }

  lemma {:induction false} RawInOrder(x: real, y: real, p: real, q: real, s: real, m: int, n: int)
    requires x * s == p && y * s == q && p <= q && s > 0.0 && m == Raw(x) && n == Raw(y)
    ensures m <= n
  {
    OrderBack(x, y, p, q, s);
    RawMonotone(x, y);
  }

  /** A larger value never reads smaller. */
  lemma {:induction false} FixedPointMonotone(a: real, b: real, scale: real, offset: real)
    requires a <= b && Effective(scale) > 0.0
    ensures DecodeInt16(EncodeInt16(a, scale, offset), scale, offset)
            <= DecodeInt16(EncodeInt16(b, scale, offset), scale, offset)
  {
    var d, x := Decoded(a, scale, offset);
    var e, y := Decoded(b, scale, offset);
    DecodesInOrder(d, e, a, b, Effective(scale), offset, x, y, Raw(x), Raw(y));
  }

  /** What the reader can express it gets back exactly. */
  lemma {:induction false} FixedPointExact(raw: int, value: real, scale: real, offset: real)
    requires INT16_MIN <= raw <= INT16_MAX && value == raw as real * Effective(scale) + offset
    ensures DecodeInt16(EncodeInt16(value, scale, offset), scale, offset) == value
  {
    DivideBack(raw as real, Effective(scale));
    RoundWhole(raw);
    DecodedRaw(value, scale, offset);
  }

  lemma {:induction false} DivideBack(x: real, s: real)
    requires s != 0.0
    ensures (x * s) / s == x
  {
  }

  // ---- Double words ----

  /** Either word order carries the whole double word. */
  lemma {:induction false} DoubleRoundTrip(w: DoubleWord, order: Order)
    ensures DecodeDouble(EncodeDouble(w, order), order) == w
  {
  }

  /** A counter reads as itself below 2^32, as its remainder above, as zero when negative. */
  lemma {:induction false} CounterReads(value: real, order: Order)
    ensures value >= 0.0 ==> DecodeDouble(EncodeUint32(value, order), order) == value.Floor % DOUBLE_WORDS
    ensures 0.0 <= value < DOUBLE_WORDS as real ==> DecodeDouble(EncodeUint32(value, order), order) == value.Floor
    ensures value < 0.0 ==> DecodeDouble(EncodeUint32(value, order), order) == 0
  {
    if value >= 0.0 {
      DoubleRoundTrip(value.Floor % DOUBLE_WORDS, order);
    } else {
      DoubleRoundTrip(0, order);
    }
  }
}
