/** The Modbus registry as it is written: unit stores and the registry that fills them. Each method is shown to compute
    the merge of the specification. */
module ModbusStore {
  import opened Prelude
  import opened ModbusCodec
  import opened ModbusRegistry
  import Server = ModbusServer

  class UnitStore {
    var registers: map<int, Word>
    var discrete: map<int, bool>
    var coils: map<int, bool>

    constructor ()
      ensures registers == map[] && discrete == map[] && coils == map[]
    {
      registers, discrete, coils := map[], map[], map[];
    }

    /** The store holds exactly the cells of its unit. */
    ghost predicate Shows(unit: int, cells: Cells)
      reads this
    {
      && RegistersShow(registers, unit, cells)
      && BitsShow(discrete, unit, Discrete, cells)
      && BitsShow(coils, unit, Coils, cells)
    }
  }

  ghost predicate RegistersShow(m: map<int, Word>, unit: int, cells: Cells) {
    forall a :: (a in m <==> Cell(unit, Registers, a) in cells) && (a in m ==> m[a] == cells[Cell(unit, Registers, a)])
  }

  ghost predicate BitsShow(m: map<int, bool>, unit: int, area: Area, cells: Cells) {
    forall a :: (a in m <==> Cell(unit, area, a) in cells)
                && (a in m ==> cells[Cell(unit, area, a)] == if m[a] then 1 else 0)
  }

  function PutRange(m: map<int, Word>, address: int, words: seq<Word>): map<int, Word> {
    if |words| == 0 then m else
      var n := |words| - 1;
      PutRange(m, address, words[..n])[address + n := words[n]]
  }

  lemma {:induction false} PutRangeShows(m: map<int, Word>, unit: int, address: int, words: seq<Word>, cells: Cells)
    requires RegistersShow(m, unit, cells)
    ensures RegistersShow(PutRange(m, address, words), unit, PutWords(cells, unit, Registers, address, words))
  {
    if words != [] {
      PutRangeShows(m, unit, address, words[..|words| - 1], cells);
    }
  }

  /** Writing in one place leaves the other units and areas alone. */
  lemma {:induction false} PutWordsElsewhere(cells: Cells, unit: int, area: Area, address: int, words: seq<Word>, c: Cell)
    requires c.unit != unit || c.area != area
    ensures c in PutWords(cells, unit, area, address, words) <==> c in cells
    ensures c in cells ==> PutWords(cells, unit, area, address, words)[c] == cells[c]
  {
    if words != [] {
      PutWordsElsewhere(cells, unit, area, address, words[..|words| - 1], c);
    }
  }

  lemma {:induction false} RegistersElsewhere(m: map<int, Word>, u: int, cells: Cells, unit: int, area: Area, address: int, words: seq<Word>)
    requires RegistersShow(m, u, cells) && (u != unit || area != Registers)
    ensures RegistersShow(m, u, PutWords(cells, unit, area, address, words))
  {
    forall a
      ensures var c := Cell(u, Registers, a);
              (a in m <==> c in PutWords(cells, unit, area, address, words))
              && (a in m ==> m[a] == PutWords(cells, unit, area, address, words)[c])
    {
      PutWordsElsewhere(cells, unit, area, address, words, Cell(u, Registers, a));
    }
  }

  lemma {:induction false} BitsElsewhere(m: map<int, bool>, u: int, kind: Area, cells: Cells, unit: int, area: Area, address: int, words: seq<Word>)
    requires BitsShow(m, u, kind, cells) && (u != unit || area != kind)
    ensures BitsShow(m, u, kind, PutWords(cells, unit, area, address, words))
  {
    forall a
      ensures var c := Cell(u, kind, a);
              (a in m <==> c in PutWords(cells, unit, area, address, words))
              && (a in m ==> PutWords(cells, unit, area, address, words)[c] == if m[a] then 1 else 0)
    {
      PutWordsElsewhere(cells, unit, area, address, words, Cell(u, kind, a));
    }
  }

  lemma {:induction false} PutBitShows(m: map<int, bool>, unit: int, area: Area, cells: Cells, address: int, bit: bool)
    requires BitsShow(m, unit, area, cells)
    ensures BitsShow(m[address := bit], unit, area, PutWords(cells, unit, area, address, [if bit then 1 else 0]))
  {
    var words: seq<Word> := [if bit then 1 else 0];
    assert words[..0] == [];
    assert PutWords(cells, unit, area, address, words) == cells[Cell(unit, area, address) := words[0]];
  }

  class PointRegistry {
    const format: Format
    const order: Order
    var lookup: map<Pair, seq<Placement>>
    var stores: map<int, UnitStore>
    var lastTs: map<Pair, int>
    var updatesApplied: nat
    var updatesUnmapped: nat
    var updatesUncoercible: nat
    var snapshot: Tally
    ghost var core: Core

    function PlanOf(): Plan
      reads this
    {
      Plan(format, order, lookup, stores.Keys)
    }

    ghost predicate Valid()
      reads this, stores.Values
    {
      && (forall u, v | u in stores && v in stores && u != v :: stores[u] != stores[v])
      && (forall u | u in stores :: stores[u].Shows(u, core.cells))
      && (forall c | c in core.cells :: c.unit in stores)
      && core.stamps == lastTs
    }

    constructor (format: Format, order: Order)
      ensures Valid() && core == Core(map[], map[], []) && PlanOf() == Plan(format, order, map[], {})
      ensures updatesApplied == 0 && updatesUnmapped == 0 && updatesUncoercible == 0 && snapshot == multiset{}
    {
      this.format, this.order := format, order;
      lookup, stores, lastTs := map[], map[], map[];
      updatesApplied, updatesUnmapped, updatesUncoercible, snapshot := 0, 0, 0, multiset{};
      core := Core(map[], map[], []);
    }

    /** A unit of the plan answers even while it has no points. */
    method AddUnit(unit: int)
      requires Valid()
      modifies this`stores
      ensures Valid() && stores.Keys == old(stores.Keys) + {unit}
      ensures forall u | u in old(stores) :: stores[u] == old(stores[u])
      ensures fresh(stores.Values - old(stores.Values))
    {
      if unit !in stores {
        var store := new UnitStore();
        assert forall a, area: Area :: Cell(unit, area, a) !in core.cells;
        stores := stores[unit := store];
      }
    }

    /** A point outside the address space is left out. */
    method AddPoint(pair: Pair, p: Placement)
      requires Valid()
      modifies this`stores, this`lookup
      ensures Valid() && fresh(stores.Values - old(stores.Values))
      ensures PlanOf() == if 0 <= p.address < ADDRESS_SPACE
                then old(PlanOf()).(lookup := old(lookup)[pair := PlacementsOf(old(PlanOf()), pair) + [p]],
                                    units := old(stores.Keys) + {p.unit})
                else old(PlanOf())
    {
      if !(0 <= p.address < ADDRESS_SPACE) {
        return;
      }
      lookup := lookup[pair := (if pair in lookup then lookup[pair] else []) + [p]];
      AddUnit(p.unit);
    }

    method WriteWords(store: UnitStore, p: Placement, words: seq<Word>)
      requires Valid() && p.unit in stores && stores[p.unit] == store && AreaOf(p.code) == Registers
      modifies store`registers, this`core
      ensures Valid() && core == old(core).(cells := PutWords(old(core.cells), p.unit, Registers, p.address, words))
    {
      ghost var before := store.registers;
      for i := 0 to |words|
        invariant store.registers == PutRange(before, p.address, words[..i])
        invariant core == old(core)
      {
        assert words[..i + 1][..i] == words[..i];
        store.registers := store.registers[p.address + i := words[i]];
      }
      assert words[..|words|] == words;
      ghost var cells := core.cells;
      core := core.(cells := PutWords(cells, p.unit, Registers, p.address, words));
      forall u | u in stores
        ensures stores[u].Shows(u, core.cells)
      {
        if u == p.unit {
          PutRangeShows(before, u, p.address, words, cells);
        } else {
          RegistersElsewhere(stores[u].registers, u, cells, p.unit, Registers, p.address, words);
        }
        BitsElsewhere(stores[u].discrete, u, Discrete, cells, p.unit, Registers, p.address, words);
        BitsElsewhere(stores[u].coils, u, Coils, cells, p.unit, Registers, p.address, words);
      }
      KeysOf(cells, p.unit, Registers, p.address, words, stores.Keys);
    }

    method WriteBit(store: UnitStore, p: Placement, bit: bool)
      requires Valid() && p.unit in stores && stores[p.unit] == store && AreaOf(p.code) != Registers
      modifies store`discrete, store`coils, this`core
      ensures Valid()
      ensures core == old(core).(cells := PutWords(old(core.cells), p.unit, AreaOf(p.code), p.address, [if bit then 1 else 0]))
    {
      ghost var cells, words: seq<Word> := core.cells, [if bit then 1 else 0];
      PutBitShows(if p.code == FC_DISCRETE then store.discrete else store.coils, p.unit, AreaOf(p.code), cells, p.address, bit);
      if p.code == FC_DISCRETE {
        store.discrete := store.discrete[p.address := bit];
      } else {
        store.coils := store.coils[p.address := bit];
      }
      core := core.(cells := PutWords(cells, p.unit, AreaOf(p.code), p.address, words));
      forall u | u in stores
        ensures stores[u].Shows(u, core.cells)
      {
        RegistersElsewhere(stores[u].registers, u, cells, p.unit, AreaOf(p.code), p.address, words);
        if u != p.unit || p.code != FC_DISCRETE {
          BitsElsewhere(stores[u].discrete, u, Discrete, cells, p.unit, AreaOf(p.code), p.address, words);
        }
        if u != p.unit || p.code == FC_DISCRETE {
          BitsElsewhere(stores[u].coils, u, Coils, cells, p.unit, AreaOf(p.code), p.address, words);
        }
      }
      KeysOf(cells, p.unit, AreaOf(p.code), p.address, words, stores.Keys);
    }

    /** Writes a reading to its placements; counts those written and those it cannot be converted for. */
    method WriteLocked(ps: seq<Placement>, r: Reading) returns (written: nat, uncoercible: nat)
      requires Valid()
      modifies stores.Values, this`core
      ensures Valid() && core == old(core).(cells := WriteAll(PlanOf(), old(core.cells), ps, r))
      ensures written == Written(PlanOf(), ps, r) && uncoercible == Unreadables(PlanOf(), ps, r)
    {
      written, uncoercible := 0, 0;
      for i := 0 to |ps|
        invariant Valid()
        invariant core == old(core).(cells := WriteAll(PlanOf(), old(core.cells), ps[..i], r))
        invariant written == Written(PlanOf(), ps[..i], r) && uncoercible == Unreadables(PlanOf(), ps[..i], r)
      {
        var p := ps[i];
        assert ps[..i + 1][..i] == ps[..i];
        if p.unit in stores {
          if AreaOf(p.code) != Registers {
            WriteBit(stores[p.unit], p, r.bit);
            written := written + 1;
          } else if r.number.None? {
            uncoercible := uncoercible + 1;
          } else {
            WriteWords(stores[p.unit], p,
                       Cut(EncodeRegisters(r.number.value, p.counter, format, order, p.scale, p.offset), p.wordCount));
            written := written + 1;
          }
        }
      }
      assert ps[..|ps|] == ps;
    }

    /** A live reading. */
    method Update(pair: Pair, r: Reading, stamp: Option<int>, now: int) returns (written: nat)
      requires Valid()
      modifies stores.Values, this`core, this`lastTs, this`updatesApplied, this`updatesUnmapped, this`updatesUncoercible
      ensures Valid() && core == ModbusRegistry.Update(PlanOf(), old(core), pair, r, stamp, now)
      ensures var ps := PlacementsOf(PlanOf(), pair);
              && written == Written(PlanOf(), ps, r)
              && updatesApplied == old(updatesApplied) + written
              && updatesUncoercible == old(updatesUncoercible) + Unreadables(PlanOf(), ps, r)
              && updatesUnmapped == old(updatesUnmapped) + if |ps| == 0 then 1 else 0
    {
      var ps := if pair in lookup then lookup[pair] else [];
      if ps == [] {
        updatesUnmapped := updatesUnmapped + 1;
        return 0;
      }
      var uncoercible;
      written, uncoercible := WriteLocked(ps, r);
      updatesApplied := updatesApplied + written;
      updatesUncoercible := updatesUncoercible + uncoercible;
      if written > 0 {
        Remember(pair, r, if stamp.Some? then stamp.value else now);
      } else {
        NothingChanges(PlanOf(), old(core.cells), ps, r);
      }
    }

    method Remember(pair: Pair, r: Reading, stamp: int)
      requires Valid()
      modifies this`lastTs, this`core
      ensures Valid() && core == Core(old(core.cells), old(core.stamps)[pair := stamp], old(core.log) + [Accepted(pair, r)])
    {
      lastTs := lastTs[pair := stamp];
      core := Core(core.cells, lastTs, core.log + [Accepted(pair, r)]);
    }

    /** One row of a snapshot. */
    method ApplyOne(row: Row) returns (tally: Tally)
      requires Valid()
      modifies stores.Values, this`core, this`lastTs
      ensures Valid() && core == ApplyRow(PlanOf(), old(core), row) && tally == RowTally(PlanOf(), old(core), row)
    {
      tally := multiset{};
      if row.device == "" || row.signal == "" {
        return;
      }
      var pair := (row.device, row.signal);
      var ps := if pair in lookup then lookup[pair] else [];
      if ps == [] {
        return multiset{Unmapped};
      }
      if row.value.None? {
        return;
      }
      if pair in lastTs && (row.stamp.None? || row.stamp.value <= lastTs[pair]) {
        return multiset{Skipped};
      }
      var known := pair in lastTs;
      var written, uncoercible := WriteLocked(ps, row.value.value);
      tally := tally[Uncoercible := uncoercible];
      if written == 0 {
        NothingChanges(PlanOf(), old(core.cells), ps, row.value.value);
        return;
      }
      tally := tally + multiset{if known then Refreshed else Seeded};
      Remember(pair, row.value.value, if row.stamp.Some? then row.stamp.value else row.now);
    }

    method ApplySnapshot(rows: seq<Row>) returns (tally: Tally)
      requires Valid()
      modifies stores.Values, this`core, this`lastTs, this`snapshot
      ensures Valid() && core == Merge(PlanOf(), old(core), rows) && tally == Count(PlanOf(), old(core), rows)
      ensures snapshot == old(snapshot) + tally
    {
      tally := multiset{};
      for i := 0 to |rows|
        invariant Valid() && core == Merge(PlanOf(), old(core), rows[..i]) && tally == Count(PlanOf(), old(core), rows[..i])
        invariant snapshot == old(snapshot)
      {
        assert rows[..i + 1][..i] == rows[..i];
        SumSnoc(Tallies(PlanOf(), old(core), rows[..i]), RowTally(PlanOf(), core, rows[i]));
        var one := ApplyOne(rows[i]);
        tally := tally + one;
      }
      assert rows[..|rows|] == rows;
      snapshot := snapshot + tally;
    }

    /** What the server reads. */
    method Read(unit: int, code: int, address: int, count: nat) returns (words: Option<seq<Word>>)
      requires Valid() && Server.IsRead(code)
      ensures words == Server.Read(stores.Keys, core.cells, unit, code, address, count)
    {
      if unit !in stores {
        return None;
      }
      var store := stores[unit];
      var read: seq<Word> := [];
      for i := 0 to count
        invariant |read| == i
        invariant forall j | 0 <= j < i :: read[j] == Get(core.cells, Cell(unit, AreaOf(code), address + j))
      {
        var a := address + i;
        assert store.Shows(unit, core.cells);
        var word: Word :=
          if AreaOf(code) == Registers then (if a in store.registers then store.registers[a] else 0)
          else if code == FC_DISCRETE then (if a in store.discrete && store.discrete[a] then 1 else 0)
          else if a in store.coils && store.coils[a] then 1 else 0;
        read := read + [word];
      }
      words := Some(read);
      assert read == Server.Cells(core.cells, unit, AreaOf(code), address, count);
    }
  }

  lemma {:induction false} KeysOf(cells: Cells, unit: int, area: Area, address: int, words: seq<Word>, units: set<int>)
    requires unit in units && forall c | c in cells :: c.unit in units
    ensures forall c | c in PutWords(cells, unit, area, address, words) :: c.unit in units
  {
    if words != [] {
      KeysOf(cells, unit, area, address, words[..|words| - 1], units);
    }
  }

  lemma {:induction false} NothingChanges(plan: Plan, cells: Cells, ps: seq<Placement>, r: Reading)
    requires Written(plan, ps, r) == 0
    ensures WriteAll(plan, cells, ps, r) == cells
  {
    if ps != [] {
      NothingChanges(plan, cells, ps[..|ps| - 1], r);
    }
  }
}
