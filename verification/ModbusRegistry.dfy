/** The registers of one Modbus target: live updates and database snapshots merged by timestamp into sparse cells. */
module ModbusRegistry {
  import opened Prelude
  import opened ModbusCodec

  const ADDRESS_SPACE := 0x1_0000

  const FC_COIL := 1
  const FC_DISCRETE := 2
  const FC_HOLDING := 3
  const FC_INPUT := 4

  /** Holding and input registers are one area. */
  datatype Area = Registers | Discrete | Coils

  datatype Cell = Cell(unit: int, area: Area, address: int)

  /** A bit is a cell holding 0 or 1; a cell never written reads as 0. */
  type Cells = map<Cell, Word>

  datatype Placement = Placement(unit: int, code: int, address: int, wordCount: int,
                                 counter: bool, scale: real, offset: real)

  type Pair = (string, string)

  /** The address plan: where each signal goes, and which units answer. */
  datatype Plan = Plan(format: Format, order: Order, lookup: map<Pair, seq<Placement>>, units: set<int>)

  function AreaOf(code: int): Area {
    if code == FC_DISCRETE then Discrete else if code == FC_COIL then Coils else Registers
  }

  function Get(cells: Cells, c: Cell): Word {
    if c in cells then cells[c] else 0
  }

  /** A slice of the first `n` words: 0 takes all, a negative number leaves words out at the end. */
  function Cut(words: seq<Word>, n: int): seq<Word> {
    if n == 0 || n >= |words| then words
    else if n > 0 then words[..n]
    else if |words| + n > 0 then words[..|words| + n]
    else []
  }

  /** What a placement stores of a reading; None when it needs a number and there is none. */
  function Content(plan: Plan, p: Placement, r: Reading): Option<seq<Word>> {
    if AreaOf(p.code) != Registers then Some([if r.bit then 1 else 0])
    else if r.number.None? then None
    else Some(Cut(EncodeRegisters(r.number.value, p.counter, plan.format, plan.order, p.scale, p.offset), p.wordCount))
  }

  function Span(plan: Plan, p: Placement): nat {
    if AreaOf(p.code) != Registers then 1
    else
      var n := if p.counter || plan.format.Float32? then 2 else 1;
      if p.wordCount == 0 || p.wordCount >= n then n
      else if p.wordCount > 0 then p.wordCount
      else if n + p.wordCount > 0 then n + p.wordCount else 0
  }

  /** The cells of a placement do not depend on the reading. */
  lemma {:induction false} ContentSpan(plan: Plan, p: Placement, r: Reading)
    ensures Content(plan, p, r).Some? ==> |Content(plan, p, r).value| == Span(plan, p)
  {
  }

  /** What a placement stores are the first registers of its value's encoding: all of them if its length is 0 or too large,
      and a negative length cuts from the end. */
  lemma {:induction false} CutMeans(words: seq<Word>, n: int)
    ensures Cut(words, n) <= words
    ensures n == 0 ==> Cut(words, n) == words
    ensures n > 0 ==> |Cut(words, n)| == if n < |words| then n else |words|
    ensures n < 0 ==> |Cut(words, n)| == if -n < |words| then |words| + n else 0
  {
  }

  predicate Writes(plan: Plan, p: Placement, r: Reading) {
    p.unit in plan.units && Content(plan, p, r).Some?
  }

  predicate Unreadable(plan: Plan, p: Placement, r: Reading) {
    p.unit in plan.units && Content(plan, p, r).None?
  }

  function PutWords(cells: Cells, unit: int, area: Area, address: int, words: seq<Word>): Cells {
    if |words| == 0 then cells else
      var n := |words| - 1;
      PutWords(cells, unit, area, address, words[..n])[Cell(unit, area, address + n) := words[n]]
  }

  function Write(plan: Plan, cells: Cells, p: Placement, r: Reading): Cells {
    if Writes(plan, p, r) then PutWords(cells, p.unit, AreaOf(p.code), p.address, Content(plan, p, r).value) else cells
  }

  function WriteAll(plan: Plan, cells: Cells, ps: seq<Placement>, r: Reading): Cells {
    if |ps| == 0 then cells else Write(plan, WriteAll(plan, cells, ps[..|ps| - 1], r), ps[|ps| - 1], r)
  }

  function Written(plan: Plan, ps: seq<Placement>, r: Reading): nat {
    if |ps| == 0 then 0 else Written(plan, ps[..|ps| - 1], r) + if Writes(plan, ps[|ps| - 1], r) then 1 else 0
  }

  function Unreadables(plan: Plan, ps: seq<Placement>, r: Reading): nat {
    if |ps| == 0 then 0 else Unreadables(plan, ps[..|ps| - 1], r) + if Unreadable(plan, ps[|ps| - 1], r) then 1 else 0
  }

  // ---- Live updates and snapshots ----

  datatype Accepted = Accepted(pair: Pair, reading: Reading)

  /** The registers, the stamp of each pair's last value, and, as history, the readings accepted so far. */
  datatype Core = Core(cells: Cells, stamps: map<Pair, int>, log: seq<Accepted>)

  function PlacementsOf(plan: Plan, pair: Pair): seq<Placement> {
    if pair in plan.lookup then plan.lookup[pair] else []
  }

  function Accept(plan: Plan, c: Core, pair: Pair, r: Reading, stamp: int): Core {
    var ps := PlacementsOf(plan, pair);
    if Written(plan, ps, r) == 0 then c
    else Core(WriteAll(plan, c.cells, ps, r), c.stamps[pair := stamp], c.log + [Accepted(pair, r)])
  }

  /** A live reading is always taken; without a stamp it counts as taken now. */
  function Update(plan: Plan, c: Core, pair: Pair, r: Reading, stamp: Option<int>, now: int): Core {
    Accept(plan, c, pair, r, if stamp.Some? then stamp.value else now)
  }

  /** A row of the database, with the clock at the moment it is looked at. */
  datatype Row = Row(device: string, signal: string, value: Option<Reading>, stamp: Option<int>, now: int)

  function PairOf(row: Row): Pair {
    (row.device, row.signal)
  }

  /** The row names a mapped pair and has a value. */
  predicate Usable(plan: Plan, row: Row) {
    row.device != "" && row.signal != "" && PlacementsOf(plan, PairOf(row)) != [] && row.value.Some?
  }

  /** The pair already has a value at least as new. */
  predicate Stale(c: Core, row: Row) {
    PairOf(row) in c.stamps && (row.stamp.None? || row.stamp.value <= c.stamps[PairOf(row)])
  }

  function ApplyRow(plan: Plan, c: Core, row: Row): Core {
    if !Usable(plan, row) || Stale(c, row) then c
    else Accept(plan, c, PairOf(row), row.value.value, if row.stamp.Some? then row.stamp.value else row.now)
  }

  /** What a snapshot counts, row by row; Uncoercible counts placements. */
  datatype Outcome = Seeded | Refreshed | Skipped | Unmapped | Uncoercible

  type Tally = multiset<Outcome>

  function RowTally(plan: Plan, c: Core, row: Row): Tally {
    var ps := PlacementsOf(plan, PairOf(row));
    if row.device == "" || row.signal == "" then multiset{}
    else if |ps| == 0 then multiset{Unmapped}
    else if row.value.None? then multiset{}
    else if Stale(c, row) then multiset{Skipped}
    else
      var t := multiset{}[Uncoercible := Unreadables(plan, ps, row.value.value)];
      if Written(plan, ps, row.value.value) == 0 then t
      else t + multiset{if PairOf(row) in c.stamps then Refreshed else Seeded}
  }

  function Merge(plan: Plan, c: Core, rows: seq<Row>): Core {
    if |rows| == 0 then c else ApplyRow(plan, Merge(plan, c, rows[..|rows| - 1]), rows[|rows| - 1])
  }

  /** What each row was counted as. */
  function Tallies(plan: Plan, c: Core, rows: seq<Row>): seq<Tally> {
    if |rows| == 0 then [] else
      var before := rows[..|rows| - 1];
      Tallies(plan, c, before) + [RowTally(plan, Merge(plan, c, before), rows[|rows| - 1])]
  }

  function Sum(tallies: seq<Tally>): Tally {
    if |tallies| == 0 then multiset{} else Sum(tallies[..|tallies| - 1]) + tallies[|tallies| - 1]
  }

  function Count(plan: Plan, c: Core, rows: seq<Row>): Tally {
    Sum(Tallies(plan, c, rows))
  }

  // ---- Slicing ----

  lemma {:induction false} MergeSplits(plan: Plan, c: Core, a: seq<Row>, b: seq<Row>)
    ensures Merge(plan, c, a + b) == Merge(plan, Merge(plan, c, a), b)
    decreases |b|
  {
    if b == [] {
      assert a + b == a;
    } else {
      assert (a + b)[..|a + b| - 1] == a + b[..|b| - 1];
      MergeSplits(plan, c, a, b[..|b| - 1]);
    }
  }

  lemma {:induction false} TalliesSplit(plan: Plan, c: Core, a: seq<Row>, b: seq<Row>)
    ensures Tallies(plan, c, a + b) == Tallies(plan, c, a) + Tallies(plan, Merge(plan, c, a), b)
    decreases |b|
  {
    if b == [] {
      assert a + b == a;
    } else {
      var b' := b[..|b| - 1];
      assert (a + b)[..|a + b| - 1] == a + b';
      MergeSplits(plan, c, a, b');
      TalliesSplit(plan, c, a, b');
    }
  }

  lemma {:induction false} SumSplits(a: seq<Tally>, b: seq<Tally>)
    ensures Sum(a + b) == Sum(a) + Sum(b)
    decreases |b|
  {
    if b == [] {
      assert a + b == a;
    } else {
      assert (a + b)[..|a + b| - 1] == a + b[..|b| - 1];
      SumSplits(a, b[..|b| - 1]);
    }
  }

  lemma {:induction false} CountSplits(plan: Plan, c: Core, a: seq<Row>, b: seq<Row>)
    ensures Count(plan, c, a + b) == Count(plan, c, a) + Count(plan, Merge(plan, c, a), b)
  {
    TalliesSplit(plan, c, a, b);
    SumSplits(Tallies(plan, c, a), Tallies(plan, Merge(plan, c, a), b));
  }

  lemma {:induction false} SumSnoc(tallies: seq<Tally>, t: Tally)
    ensures Sum(tallies + [t]) == Sum(tallies) + t
  {
    assert (tallies + [t])[..|tallies|] == tallies;
  }

  function Flat(slices: seq<seq<Row>>): seq<Row> {
    if |slices| == 0 then [] else Flat(slices[..|slices| - 1]) + slices[|slices| - 1]
  }

  function MergeSlices(plan: Plan, c: Core, slices: seq<seq<Row>>): Core {
    if |slices| == 0 then c else Merge(plan, MergeSlices(plan, c, slices[..|slices| - 1]), slices[|slices| - 1])
  }

  function CountSlices(plan: Plan, c: Core, slices: seq<seq<Row>>): Tally {
    if |slices| == 0 then multiset{} else
      var before := slices[..|slices| - 1];
      CountSlices(plan, c, before) + Count(plan, MergeSlices(plan, c, before), slices[|slices| - 1])
  }

  /** However the rows are cut into slices, the registers and the summed counters are the same. */
  lemma {:induction false} SlicingIsInvisible(plan: Plan, c: Core, slices: seq<seq<Row>>)
    ensures MergeSlices(plan, c, slices) == Merge(plan, c, Flat(slices))
    ensures CountSlices(plan, c, slices) == Count(plan, c, Flat(slices))
  {
    if slices != [] {
      var before := slices[..|slices| - 1];
      SlicingIsInvisible(plan, c, before);
      MergeSplits(plan, c, Flat(before), slices[|slices| - 1]);
      CountSplits(plan, c, Flat(before), slices[|slices| - 1]);
    }
  }

  // ---- What the counters say ----

  lemma {:induction false} RowCounts(plan: Plan, c: Core, row: Row)
    ensures var c', t := ApplyRow(plan, c, row), RowTally(plan, c, row);
            && t[Seeded] + t[Refreshed] == |c'.log| - |c.log| && t[Seeded] == |c'.stamps| - |c.stamps|
            && t[Seeded] + t[Refreshed] + t[Skipped] + t[Unmapped] <= 1
            && (t[Unmapped] == 1 <==> row.device != "" && row.signal != "" && PlacementsOf(plan, PairOf(row)) == [])
            && (t[Skipped] == 1 <==> Usable(plan, row) && PairOf(row) in c.stamps
                                     && (row.stamp.None? || row.stamp.value <= c.stamps[PairOf(row)]))
  {
    if Usable(plan, row) && !Stale(c, row) && Written(plan, PlacementsOf(plan, PairOf(row)), row.value.value) != 0 {
      NewStamp(c.stamps, PairOf(row), if row.stamp.Some? then row.stamp.value else row.now);
    }
  }

  lemma {:induction false} NewStamp(stamps: map<Pair, int>, pair: Pair, stamp: int)
    ensures |stamps[pair := stamp]| == |stamps| + if pair in stamps then 0 else 1
  {
    assert stamps[pair := stamp].Keys == stamps.Keys + {pair};
  }

  /** The counters of a snapshot are true: seeded and refreshed rows are as many as readings were accepted, and seeded ones
      as many as pairs have a value that had none. */
  lemma {:induction false} CountersAreTrue(plan: Plan, c: Core, rows: seq<Row>)
    ensures var c', t := Merge(plan, c, rows), Count(plan, c, rows);
            t[Seeded] + t[Refreshed] == |c'.log| - |c.log| && t[Seeded] == |c'.stamps| - |c.stamps|
  {
    if rows != [] {
      var n := |rows| - 1;
      CountersAreTrue(plan, c, rows[..n]);
      RowCounts(plan, Merge(plan, c, rows[..n]), rows[n]);
      SumSnoc(Tallies(plan, c, rows[..n]), RowTally(plan, Merge(plan, c, rows[..n]), rows[n]));
    }
  }

  // ---- The newest value wins ----

  /** The row offers a value for the pair, and the value can be stored: as a bit, or as a number if it is one. */
  predicate Offers(plan: Plan, row: Row, pair: Pair) {
    && (row.device, row.signal) == pair && row.device != "" && row.signal != "" && row.value.Some?
    && pair in plan.lookup
    && exists p :: p in plan.lookup[pair] && p.unit in plan.units && (p.code in {1, 2} || row.value.value.number.Some?)
  }

  lemma {:induction false} WrittenSome(plan: Plan, ps: seq<Placement>, r: Reading)
    ensures Written(plan, ps, r) > 0 <==> exists p :: p in ps && p.unit in plan.units && (p.code in {1, 2} || r.number.Some?)
  {
    if ps != [] {
      var n := |ps| - 1;
      WrittenSome(plan, ps[..n], r);
      AllButLast(ps);
      assert forall p :: p in ps <==> p in ps[..n] || p == ps[n];
    }
  }

  /** What one row does: nothing if it offers nothing; nothing if the pair has a value and the row no newer stamp; otherwise it
      is accepted, with its stamp or, without one, with the clock. */
  lemma {:induction false} RowDecides(plan: Plan, c: Core, row: Row)
    ensures var pair := (row.device, row.signal);
            var c' := ApplyRow(plan, c, row);
            if !Offers(plan, row, pair) || (pair in c.stamps && (row.stamp.None? || row.stamp.value <= c.stamps[pair]))
            then c' == c
            else
              && c'.stamps == c.stamps[pair := if row.stamp.Some? then row.stamp.value else row.now]
              && c'.log == c.log + [Accepted(pair, row.value.value)]
  {
    if row.value.Some? {
      WrittenSome(plan, PlacementsOf(plan, PairOf(row)), row.value.value);
    }
  }

  /** The last reading accepted for a pair. */
  function Latest(log: seq<Accepted>, pair: Pair): Option<Reading> {
    if |log| == 0 then None
    else if log[|log| - 1].pair == pair then Some(log[|log| - 1].reading)
    else Latest(log[..|log| - 1], pair)
  }

  /** Row `i` is the first of the newest offers and is newer than the stamp before. */
  predicate WinsAt(plan: Plan, c: Core, rows: seq<Row>, pair: Pair, i: int) {
    && 0 <= i < |rows| && Offers(plan, rows[i], pair) && rows[i].stamp.Some?
    && (pair in c.stamps ==> c.stamps[pair] < rows[i].stamp.value)
    && (forall j | 0 <= j < |rows| && Offers(plan, rows[j], pair) && rows[j].stamp.Some? ::
          if j < i then rows[j].stamp.value < rows[i].stamp.value else rows[j].stamp.value <= rows[i].stamp.value)
  }

  /** No offer is newer than the stamp before. */
  predicate NoneNewer(plan: Plan, c: Core, rows: seq<Row>, pair: Pair) {
    forall j | 0 <= j < |rows| && Offers(plan, rows[j], pair) ::
      pair in c.stamps && rows[j].stamp.Some? && rows[j].stamp.value <= c.stamps[pair]
  }

  ghost predicate Stamped(rows: seq<Row>, pair: Pair) {
    forall row | row in rows && PairOf(row) == pair :: row.stamp.Some?
  }

  /** The pair keeps its value when nothing newer is offered, and otherwise takes the first of the newest. */
  ghost predicate Won(plan: Plan, c: Core, rows: seq<Row>, pair: Pair, c': Core) {
    || (&& NoneNewer(plan, c, rows, pair)
        && Latest(c'.log, pair) == Latest(c.log, pair)
        && (pair in c'.stamps <==> pair in c.stamps)
        && (pair in c.stamps ==> c'.stamps[pair] == c.stamps[pair]))
    || exists i :: WinsAt(plan, c, rows, pair, i)
         && Latest(c'.log, pair) == rows[i].value
         && pair in c'.stamps && Some(c'.stamps[pair]) == rows[i].stamp
  }

  lemma {:induction false} LatestSnoc(log: seq<Accepted>, a: Accepted, pair: Pair)
    ensures Latest(log + [a], pair) == if a.pair == pair then Some(a.reading) else Latest(log, pair)
  {
    assert (log + [a])[..|log|] == log;
  }

  /** How one row changes what is known of a pair. */
  lemma {:induction false} RowOn(plan: Plan, c: Core, row: Row, pair: Pair)
    requires PairOf(row) == pair ==> row.stamp.Some?
    ensures var c' := ApplyRow(plan, c, row);
            if Offers(plan, row, pair) && !(pair in c.stamps && row.stamp.value <= c.stamps[pair])
            then pair in c'.stamps && c'.stamps[pair] == row.stamp.value && Latest(c'.log, pair) == row.value
            else Latest(c'.log, pair) == Latest(c.log, pair) &&
                 (pair in c'.stamps <==> pair in c.stamps) && (pair in c.stamps ==> c'.stamps[pair] == c.stamps[pair])
  {
    RowDecides(plan, c, row);
    if Offers(plan, row, PairOf(row)) {
      LatestSnoc(c.log, Accepted(PairOf(row), row.value.value), pair);
    }
  }

  /** A snapshot leaves each pair with the newest of its value and its rows; among equals the first wins, and a value is
      never replaced by one that is not newer. */
  lemma {:induction false} NewestWins(plan: Plan, c: Core, rows: seq<Row>, pair: Pair)
    requires Stamped(rows, pair)
    ensures Won(plan, c, rows, pair, Merge(plan, c, rows))
  {
    if rows != [] {
      var n := |rows| - 1;
      var before, row := rows[..n], rows[n];
      NewestWins(plan, c, before, pair);
      RowOn(plan, Merge(plan, c, before), row, pair);
      OneMoreRow(plan, c, before, row, pair, Merge(plan, c, before), Merge(plan, c, rows));
      assert rows == before + [row];
    }
  }

  lemma {:induction false} OneMoreRow(plan: Plan, c: Core, before: seq<Row>, row: Row, pair: Pair, mid: Core, end: Core)
    requires Won(plan, c, before, pair, mid) && (PairOf(row) == pair ==> row.stamp.Some?)
    requires if Offers(plan, row, pair) && !(pair in mid.stamps && row.stamp.value <= mid.stamps[pair])
             then pair in end.stamps && end.stamps[pair] == row.stamp.value && Latest(end.log, pair) == row.value
             else Latest(end.log, pair) == Latest(mid.log, pair) &&
                  (pair in end.stamps <==> pair in mid.stamps) && (pair in mid.stamps ==> end.stamps[pair] == mid.stamps[pair])
    ensures Won(plan, c, before + [row], pair, end)
  {
    var rows := before + [row];
    assert forall j | 0 <= j < |before| :: rows[j] == before[j];
    if Offers(plan, row, pair) && !(pair in mid.stamps && row.stamp.value <= mid.stamps[pair]) {
      assert WinsAt(plan, c, rows, pair, |before|);
    } else if !NoneNewer(plan, c, before, pair) {
      var i :| WinsAt(plan, c, before, pair, i) && Latest(mid.log, pair) == before[i].value
               && pair in mid.stamps && Some(mid.stamps[pair]) == before[i].stamp;
      assert WinsAt(plan, c, rows, pair, i);
    }
  }

  // ---- Applying a snapshot twice ----

  /** The row has nothing left to change. */
  predicate Spent(plan: Plan, c: Core, row: Row) {
    ApplyRow(plan, c, row) == c
  }

  /** Stamps never go back under a snapshot, so a spent row stays spent. */
  lemma {:induction false} StaysSpent(plan: Plan, c: Core, row: Row, other: Row)
    requires Spent(plan, c, row)
    ensures Spent(plan, ApplyRow(plan, c, other), row)
  {
    SpentIff(plan, c, row);
    SpentIff(plan, ApplyRow(plan, c, other), row);
  }

  lemma {:induction false} SpentIff(plan: Plan, c: Core, row: Row)
    ensures Spent(plan, c, row) <==>
            !Usable(plan, row) || Stale(c, row) || Written(plan, PlacementsOf(plan, PairOf(row)), row.value.value) == 0
  {
    if Usable(plan, row) && !Stale(c, row) && Written(plan, PlacementsOf(plan, PairOf(row)), row.value.value) > 0 {
      assert |ApplyRow(plan, c, row).log| == |c.log| + 1;
    }
  }

  lemma {:induction false} AllSpent(plan: Plan, c: Core, rows: seq<Row>)
    ensures forall row | row in rows :: Spent(plan, Merge(plan, c, rows), row)
  {
    if rows != [] {
      var n := |rows| - 1;
      var mid := Merge(plan, c, rows[..n]);
      AllSpent(plan, c, rows[..n]);
      forall row | row in rows
        ensures Spent(plan, Merge(plan, c, rows), row)
      {
        if row in rows[..n] {
          StaysSpent(plan, mid, row, rows[n]);
        } else {
          assert row == rows[n];
          ApplyTwice(plan, mid, row);
        }
      }
    }
  }

  lemma {:induction false} ApplyTwice(plan: Plan, c: Core, row: Row)
    ensures Spent(plan, ApplyRow(plan, c, row), row)
  {
  }

  lemma {:induction false} SpentRows(plan: Plan, c: Core, rows: seq<Row>)
    requires forall row | row in rows :: Spent(plan, c, row)
    ensures Merge(plan, c, rows) == c
  {
    if rows != [] {
      assert rows[|rows| - 1] in rows;
      SpentRows(plan, c, rows[..|rows| - 1]);
    }
  }

  /** Idempotence, for any rows: without stamps, without values, unmapped or not convertible. */
  lemma {:induction false} SnapshotTwice(plan: Plan, c: Core, rows: seq<Row>)
    ensures Merge(plan, Merge(plan, c, rows), rows) == Merge(plan, c, rows)
  {
    AllSpent(plan, c, rows);
    SpentRows(plan, Merge(plan, c, rows), rows);
  }

  // ---- The cells mirror the accepted readings ----

  predicate Covers(plan: Plan, p: Placement, c: Cell) {
    c.unit == p.unit && c.area == AreaOf(p.code) && p.address <= c.address < p.address + Span(plan, p)
  }

  /** An entry of the plan: a placement of a pair. */
  predicate Entry(plan: Plan, pair: Pair, k: int) {
    pair in plan.lookup && 0 <= k < |plan.lookup[pair]|
  }

  /** No two entries share a cell. */
  ghost predicate Disjoint(plan: Plan) {
    forall p, k, q, l, c :: SharedCell(plan, p, k, q, l, c) ==> p == q && k == l
  }

  predicate SharedCell(plan: Plan, p: Pair, k: int, q: Pair, l: int, c: Cell) {
    && Entry(plan, p, k) && Entry(plan, q, l)
    && Covers(plan, plan.lookup[p][k], c) && Covers(plan, plan.lookup[q][l], c)
  }

  /** The last accepted reading of the pair that the placement could store. */
  function Shown(plan: Plan, log: seq<Accepted>, pair: Pair, p: Placement): Option<Reading> {
    if |log| == 0 then None
    else
      var a := log[|log| - 1];
      if a.pair == pair && Writes(plan, p, a.reading) then Some(a.reading)
      else Shown(plan, log[..|log| - 1], pair, p)
  }

  /** A cell holds the word its placement shows, or what it held at the base. */
  predicate CellMirrors(plan: Plan, base: Cells, core: Core, pair: Pair, k: int, c: Cell)
    requires Entry(plan, pair, k) && Covers(plan, plan.lookup[pair][k], c)
  {
    var p := plan.lookup[pair][k];
    var shown := Shown(plan, core.log, pair, p);
    if shown.None? then Get(core.cells, c) == Get(base, c)
    else
      && Writes(plan, p, shown.value)
      && (ContentSpan(plan, p, shown.value); Get(core.cells, c) == Content(plan, p, shown.value).value[c.address - p.address])
  }

  ghost predicate Mirrors(plan: Plan, base: Cells, core: Core) {
    && (forall pair, k, c | Entry(plan, pair, k) && Covers(plan, plan.lookup[pair][k], c) ::
          CellMirrors(plan, base, core, pair, k, c))
    && (forall c | Unowned(plan, c) :: Get(core.cells, c) == Get(base, c))
  }

  ghost predicate Unowned(plan: Plan, c: Cell) {
    forall pair, k | Entry(plan, pair, k) :: !Covers(plan, plan.lookup[pair][k], c)
  }

  lemma {:induction false} PutWordsAt(cells: Cells, unit: int, area: Area, address: int, words: seq<Word>, c: Cell)
    ensures Get(PutWords(cells, unit, area, address, words), c) ==
            if c.unit == unit && c.area == area && address <= c.address < address + |words|
            then words[c.address - address] else Get(cells, c)
  {
    if words != [] {
      PutWordsAt(cells, unit, area, address, words[..|words| - 1], c);
    }
  }

  lemma {:induction false} WriteAt(plan: Plan, cells: Cells, p: Placement, r: Reading, c: Cell)
    ensures Get(Write(plan, cells, p, r), c) ==
            if Writes(plan, p, r) && Covers(plan, p, c)
            then (ContentSpan(plan, p, r); Content(plan, p, r).value[c.address - p.address]) else Get(cells, c)
  {
    ContentSpan(plan, p, r);
    if Writes(plan, p, r) {
      PutWordsAt(cells, p.unit, AreaOf(p.code), p.address, Content(plan, p, r).value, c);
    }
  }

  /** A cell none of the placements covers is left alone. */
  lemma {:induction false} WriteAllElsewhere(plan: Plan, cells: Cells, ps: seq<Placement>, r: Reading, c: Cell)
    requires forall p | p in ps :: !Covers(plan, p, c)
    ensures Get(WriteAll(plan, cells, ps, r), c) == Get(cells, c)
  {
    if ps != [] {
      var n := |ps| - 1;
      assert ps[n] in ps;
      WriteAllElsewhere(plan, cells, ps[..n], r, c);
      WriteAt(plan, WriteAll(plan, cells, ps[..n], r), ps[n], r, c);
    }
  }

  /** A cell exactly one of them covers gets that one's word. */
  lemma {:induction false} WriteAllAt(plan: Plan, cells: Cells, ps: seq<Placement>, r: Reading, c: Cell, k: nat)
    requires k < |ps| && Covers(plan, ps[k], c) && forall l | 0 <= l < |ps| && Covers(plan, ps[l], c) :: l == k
    ensures Get(WriteAll(plan, cells, ps, r), c) ==
            if Writes(plan, ps[k], r)
            then (ContentSpan(plan, ps[k], r); Content(plan, ps[k], r).value[c.address - ps[k].address]) else Get(cells, c)
  {
    var n := |ps| - 1;
    var before := WriteAll(plan, cells, ps[..n], r);
    WriteAt(plan, before, ps[n], r, c);
    if k == n {
      forall p | p in ps[..n]
        ensures !Covers(plan, p, c)
      {
        var l :| 0 <= l < n && ps[..n][l] == p;
        assert ps[l] == p;
      }
      WriteAllElsewhere(plan, cells, ps[..n], r, c);
    } else {
      WriteAllAt(plan, cells, ps[..n], r, c, k);
    }
  }

  lemma {:induction false} NothingWritten(plan: Plan, ps: seq<Placement>, r: Reading, p: Placement)
    requires Written(plan, ps, r) == 0 && p in ps
    ensures !Writes(plan, p, r)
  {
    var n := |ps| - 1;
    if p != ps[n] {
      assert p in ps[..n];
      NothingWritten(plan, ps[..n], r, p);
    }
  }

  lemma {:induction false} ShownSnoc(plan: Plan, log: seq<Accepted>, a: Accepted, pair: Pair, p: Placement)
    ensures Shown(plan, log + [a], pair, p) ==
            if a.pair == pair && Writes(plan, p, a.reading) then Some(a.reading) else Shown(plan, log, pair, p)
  {
    assert (log + [a])[..|log|] == log;
  }

  lemma {:induction false} AcceptMirrors(plan: Plan, base: Cells, c: Core, pair: Pair, r: Reading, stamp: int)
    requires Disjoint(plan) && Mirrors(plan, base, c)
    ensures Mirrors(plan, base, Accept(plan, c, pair, r, stamp))
  {
    var ps := PlacementsOf(plan, pair);
    var c' := Accept(plan, c, pair, r, stamp);
    if Written(plan, ps, r) > 0 {
      forall q, k, cell | Entry(plan, q, k) && Covers(plan, plan.lookup[q][k], cell)
        ensures CellMirrors(plan, base, c', q, k, cell)
      {
        AcceptAtEntry(plan, base, c, pair, r, stamp, q, k, cell);
      }
      forall cell | Unowned(plan, cell)
        ensures Get(c'.cells, cell) == Get(base, cell)
      {
        forall p | p in ps
          ensures !Covers(plan, p, cell)
        {
          var k :| 0 <= k < |ps| && ps[k] == p;
          assert Entry(plan, pair, k);
        }
        WriteAllElsewhere(plan, c.cells, ps, r, cell);
      }
    }
  }

  lemma {:induction false} AcceptAtEntry(plan: Plan, base: Cells, c: Core, pair: Pair, r: Reading, stamp: int, q: Pair, k: int, cell: Cell)
    requires Disjoint(plan) && Written(plan, PlacementsOf(plan, pair), r) > 0
    requires Entry(plan, q, k) && Covers(plan, plan.lookup[q][k], cell) && CellMirrors(plan, base, c, q, k, cell)
    ensures CellMirrors(plan, base, Accept(plan, c, pair, r, stamp), q, k, cell)
  {
    var ps := PlacementsOf(plan, pair);
    var p := plan.lookup[q][k];
    ShownSnoc(plan, c.log, Accepted(pair, r), q, p);
    if q == pair {
      forall l | 0 <= l < |ps| && Covers(plan, ps[l], cell)
        ensures l == k
      {
        assert SharedCell(plan, pair, l, q, k, cell);
      }
      WriteAllAt(plan, c.cells, ps, r, cell, k);
    } else {
      forall o | o in ps
        ensures !Covers(plan, o, cell)
      {
        var l :| 0 <= l < |ps| && ps[l] == o;
        assert Covers(plan, o, cell) ==> SharedCell(plan, pair, l, q, k, cell);
      }
      WriteAllElsewhere(plan, c.cells, ps, r, cell);
    }
  }

  datatype Action =
    | Live(pair: Pair, reading: Reading, stamp: Option<int>, now: int)
    | Snapshot(rows: seq<Row>)

  function Act(plan: Plan, c: Core, a: Action): Core {
    match a
    case Live(pair, reading, stamp, now) => Update(plan, c, pair, reading, stamp, now)
    case Snapshot(rows) => Merge(plan, c, rows)
  }

  function Run(plan: Plan, c: Core, actions: seq<Action>): Core {
    if |actions| == 0 then c else Act(plan, Run(plan, c, actions[..|actions| - 1]), actions[|actions| - 1])
  }

  lemma {:induction false} MergeMirrors(plan: Plan, base: Cells, c: Core, rows: seq<Row>)
    requires Disjoint(plan) && Mirrors(plan, base, c)
    ensures Mirrors(plan, base, Merge(plan, c, rows))
  {
    if rows != [] {
      var row := rows[|rows| - 1];
      var before := Merge(plan, c, rows[..|rows| - 1]);
      MergeMirrors(plan, base, c, rows[..|rows| - 1]);
      if Usable(plan, row) && !Stale(before, row) {
        AcceptMirrors(plan, base, before, PairOf(row), row.value.value,
                      if row.stamp.Some? then row.stamp.value else row.now);
      }
    }
  }

  /** With disjoint placements, after any interleaving of live updates and snapshots, every cell holds the encoding of the
      last accepted reading of the placement that covers it, and a cell never written what it held at first. */
  lemma {:induction false} RunMirrors(plan: Plan, base: Cells, actions: seq<Action>)
    requires Disjoint(plan)
    ensures Mirrors(plan, base, Run(plan, Core(base, map[], []), actions))
  {
    if actions != [] {
      var before := Run(plan, Core(base, map[], []), actions[..|actions| - 1]);
      RunMirrors(plan, base, actions[..|actions| - 1]);
      match actions[|actions| - 1]
      case Live(pair, reading, stamp, now) =>
        AcceptMirrors(plan, base, before, pair, reading, if stamp.Some? then stamp.value else now);
      case Snapshot(rows) => MergeMirrors(plan, base, before, rows);
    }
  }

  // ---- Stamps ----

  /** Under snapshots a pair's stamp never goes back ... */
  lemma {:induction false} SnapshotStampsGrow(plan: Plan, c: Core, rows: seq<Row>, pair: Pair)
    requires pair in c.stamps
    ensures pair in Merge(plan, c, rows).stamps && Merge(plan, c, rows).stamps[pair] >= c.stamps[pair]
  {
    if rows != [] {
      SnapshotStampsGrow(plan, c, rows[..|rows| - 1], pair);
    }
  }

  /** ... and a live update moves it back exactly when it is stored and older. */
  lemma {:induction false} LiveMayGoBack(plan: Plan, c: Core, pair: Pair, r: Reading, stamp: int, now: int)
    requires pair in c.stamps
    ensures Update(plan, c, pair, r, Some(stamp), now).stamps[pair] < c.stamps[pair] <==>
            stamp < c.stamps[pair] && exists p :: p in PlacementsOf(plan, pair) && Writes(plan, p, r)
  {
    WrittenIff(plan, PlacementsOf(plan, pair), r);
  }

  lemma {:induction false} WrittenIff(plan: Plan, ps: seq<Placement>, r: Reading)
    ensures Written(plan, ps, r) > 0 <==> exists p :: p in ps && Writes(plan, p, r)
  {
    if ps != [] {
      var n := |ps| - 1;
      WrittenIff(plan, ps[..n], r);
      assert ps[n] in ps && forall p :: p in ps <==> p in ps[..n] || p == ps[n];
    }
  }

  // ---- Updates between the slices of a snapshot ----

  /** The two agree on the pair. */
  predicate SamePair(c: Core, d: Core, pair: Pair) {
    && Latest(c.log, pair) == Latest(d.log, pair)
    && (pair in c.stamps <==> pair in d.stamps) && (pair in c.stamps ==> c.stamps[pair] == d.stamps[pair])
  }

  /** The rows of all snapshots of a run. */
  function RowsOf(actions: seq<Action>): seq<Row> {
    if |actions| == 0 then [] else
      RowsOf(actions[..|actions| - 1]) + if actions[|actions| - 1].Snapshot? then actions[|actions| - 1].rows else []
  }

  predicate NoUpdateOf(actions: seq<Action>, pair: Pair) {
    forall a | a in actions && a.Live? :: a.pair != pair
  }

  lemma {:induction false} SameRow(plan: Plan, c: Core, d: Core, row: Row, pair: Pair)
    requires SamePair(c, d, pair)
    ensures SamePair(ApplyRow(plan, c, row), ApplyRow(plan, d, row), pair)
  {
    if Usable(plan, row) {
      LatestSnoc(c.log, Accepted(PairOf(row), row.value.value), pair);
      LatestSnoc(d.log, Accepted(PairOf(row), row.value.value), pair);
    }
  }

  lemma {:induction false} SameMerge(plan: Plan, c: Core, d: Core, rows: seq<Row>, pair: Pair)
    requires SamePair(c, d, pair)
    ensures SamePair(Merge(plan, c, rows), Merge(plan, d, rows), pair)
  {
    if rows != [] {
      var n := |rows| - 1;
      SameMerge(plan, c, d, rows[..n], pair);
      SameRow(plan, Merge(plan, c, rows[..n]), Merge(plan, d, rows[..n]), rows[n], pair);
    }
  }

  lemma {:induction false} OtherUpdate(plan: Plan, c: Core, a: Action, pair: Pair)
    requires a.Live? && a.pair != pair
    ensures SamePair(Act(plan, c, a), c, pair)
  {
    LatestSnoc(c.log, Accepted(a.pair, a.reading), pair);
  }

  /** Updates of other pairs between the slices do not matter to a pair: it ends where one merge of all rows takes it. */
  lemma {:induction false} OthersDoNotMatter(plan: Plan, c: Core, actions: seq<Action>, pair: Pair)
    requires NoUpdateOf(actions, pair)
    ensures SamePair(Run(plan, c, actions), Merge(plan, c, RowsOf(actions)), pair)
  {
    if actions != [] {
      var n := |actions| - 1;
      var before := actions[..n];
      OthersDoNotMatter(plan, c, before, pair);
      match actions[n]
      case Live(_, _, _, _) =>
        assert actions[n] in actions && RowsOf(actions) == RowsOf(before);
        OtherUpdate(plan, Run(plan, c, before), actions[n], pair);
      case Snapshot(rows) =>
        SameMerge(plan, Run(plan, c, before), Merge(plan, c, RowsOf(before)), rows, pair);
        MergeSplits(plan, c, RowsOf(before), rows);
    }
  }

  lemma {:induction false} RunSplits(plan: Plan, c: Core, a: seq<Action>, b: seq<Action>)
    ensures Run(plan, c, a + b) == Run(plan, Run(plan, c, a), b)
    decreases |b|
  {
    if b == [] {
      assert a + b == a;
    } else {
      assert (a + b)[..|a + b| - 1] == a + b[..|b| - 1];
      RunSplits(plan, c, a, b[..|b| - 1]);
    }
  }

  /** A snapshot applied in slices, with live updates in between: a pair ends with the newest of its last update and of the
      rows of the slices behind it, whatever the slices before it brought and whatever other pairs did. */
  lemma {:induction false} LastUpdateCuts(plan: Plan, c: Core, before: seq<Action>, a: Action, after: seq<Action>, pair: Pair)
    requires a.Live? && a.pair == pair && Written(plan, PlacementsOf(plan, pair), a.reading) > 0
    requires NoUpdateOf(after, pair) && Stamped(RowsOf(after), pair)
    ensures var mid := Run(plan, c, before + [a]);
            && Latest(mid.log, pair) == Some(a.reading)
            && pair in mid.stamps && mid.stamps[pair] == (if a.stamp.Some? then a.stamp.value else a.now)
            && Won(plan, mid, RowsOf(after), pair, Run(plan, c, before + [a] + after))
  {
    var mid := Run(plan, c, before + [a]);
    assert (before + [a])[..|before|] == before;
    LatestSnoc(Run(plan, c, before).log, Accepted(pair, a.reading), pair);
    RunSplits(plan, c, before + [a], after);
    OthersDoNotMatter(plan, mid, after, pair);
    NewestWins(plan, mid, RowsOf(after), pair);
    WonBySame(plan, mid, RowsOf(after), pair, Merge(plan, mid, RowsOf(after)), Run(plan, mid, after));
  }

  lemma {:induction false} WonBySame(plan: Plan, c: Core, rows: seq<Row>, pair: Pair, d: Core, d': Core)
    requires Won(plan, c, rows, pair, d) && SamePair(d', d, pair)
    ensures Won(plan, c, rows, pair, d')
  {
    if i :| WinsAt(plan, c, rows, pair, i) && Latest(d.log, pair) == rows[i].value
            && pair in d.stamps && Some(d.stamps[pair]) == rows[i].stamp {
      assert WinsAt(plan, c, rows, pair, i) && Latest(d'.log, pair) == rows[i].value;
    }
  }
}
