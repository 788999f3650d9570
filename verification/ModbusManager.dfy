/** Several Modbus targets side by side: building a registry from its plan, carrying values over a redeployment, and
    applying a snapshot to all targets, slice by slice. */
module ModbusManager {
  import opened Prelude
  import opened ModbusCodec
  import opened ModbusRegistry
  import opened ModbusStore
  import Server = ModbusServer

  const SLICE := 2000

  // ---- From the plan ----

  /** A point of the backend's plan; None is one that does not parse and is skipped. */
  datatype Point = Point(pair: Pair, placement: Placement)

  function WithPoint(plan: Plan, point: Point): Plan {
    if 0 <= point.placement.address < ADDRESS_SPACE then
      plan.(lookup := plan.lookup[point.pair := PlacementsOf(plan, point.pair) + [point.placement]],
            units := plan.units + {point.placement.unit})
    else plan
  }

  function Planned(format: Format, order: Order, points: seq<Option<Point>>): Plan {
    if |points| == 0 then Plan(format, order, map[], {}) else
      var before := Planned(format, order, points[..|points| - 1]);
      match points[|points| - 1] case None => before case Some(point) => WithPoint(before, point)
  }

  /** The plan keeps exactly the parsed points inside the address space, in order, and every point's unit answers. */
  lemma {:induction false} PlannedPlaces(format: Format, order: Order, points: seq<Option<Point>>, pair: Pair)
    ensures var plan := Planned(format, order, points);
            && PlacementsOf(plan, pair) ==
               Project((o: Option<Point>) => if o.Some? && o.value.pair == pair && 0 <= o.value.placement.address < ADDRESS_SPACE
                                             then Some(o.value.placement) else None, points)
            && forall p | p in PlacementsOf(plan, pair) :: p.unit in plan.units && 0 <= p.address < ADDRESS_SPACE
  {
    if points != [] {
      PlannedPlaces(format, order, points[..|points| - 1], pair);
    }
  }

  method BuildRegistry(format: Format, order: Order, points: seq<Option<Point>>, devices: seq<int>)
    returns (registry: PointRegistry)
    ensures fresh(registry) && fresh(registry.stores.Values) && registry.Valid()
    ensures registry.core == Core(map[], map[], [])
    ensures var plan := Planned(format, order, points);
            registry.PlanOf() == plan.(units := plan.units + set d | d in devices)
  {
    registry := new PointRegistry(format, order);
    for i := 0 to |points|
      invariant registry.Valid() && fresh(registry.stores.Values) && registry.core == Core(map[], map[], [])
      invariant registry.PlanOf() == Planned(format, order, points[..i])
    {
      assert points[..i + 1][..i] == points[..i];
      if points[i].Some? {
        registry.AddPoint(points[i].value.pair, points[i].value.placement);
      }
    }
    assert points[..|points|] == points;
    AddDevices(registry, devices);
  }

  /** The units of the plan's devices answer too. */
  method AddDevices(registry: PointRegistry, devices: seq<int>)
    requires registry.Valid()
    modifies registry`stores
    ensures registry.Valid() && fresh(registry.stores.Values - old(registry.stores.Values))
    ensures registry.PlanOf() == old(registry.PlanOf()).(units := old(registry.stores.Keys) + set d | d in devices)
  {
    for i := 0 to |devices|
      invariant registry.Valid() && fresh(registry.stores.Values - old(registry.stores.Values))
      invariant registry.stores.Keys == old(registry.stores.Keys) + set d | d in devices[..i]
    {
      assert devices[..i + 1] == devices[..i] + [devices[i]];
      registry.AddUnit(devices[i]);
    }
    assert devices[..|devices|] == devices;
  }

  // ---- Redeployment ----

  /** The cells of one unit, laid over the new ones. */
  function Overlaid(cells: Cells, source: Cells, unit: int): Cells {
    cells + map c | c in source && c.unit == unit :: source[c]
  }

  lemma {:induction false} OverlayShows(to: UnitStore, from: UnitStore, unit: int, cells: Cells, source: Cells)
    requires to.Shows(unit, cells) && from.Shows(unit, source)
    ensures RegistersShow(to.registers + from.registers, unit, Overlaid(cells, source, unit))
    ensures BitsShow(to.discrete + from.discrete, unit, Discrete, Overlaid(cells, source, unit))
    ensures BitsShow(to.coils + from.coils, unit, Coils, Overlaid(cells, source, unit))
  {
  }

  lemma {:induction false} OverlayElsewhere(store: UnitStore, u: int, unit: int, cells: Cells, source: Cells)
    requires store.Shows(u, cells) && u != unit
    ensures store.Shows(u, Overlaid(cells, source, unit))
  {
  }

  method CarryUnit(from: UnitStore, registry: PointRegistry, unit: int, ghost source: Cells)
    requires registry.Valid() && unit in registry.stores && from !in registry.stores.Values && from.Shows(unit, source)
    modifies registry.stores.Values, registry`core
    ensures registry.Valid() && registry.core == old(registry.core).(cells := Overlaid(old(registry.core.cells), source, unit))
  {
    var to := registry.stores[unit];
    ghost var cells := registry.core.cells;
    OverlayShows(to, from, unit, cells, source);
    to.registers := to.registers + from.registers;
    to.discrete := to.discrete + from.discrete;
    to.coils := to.coils + from.coils;
    registry.core := registry.core.(cells := Overlaid(cells, source, unit));
    forall u | u in registry.stores
      ensures registry.stores[u].Shows(u, registry.core.cells)
    {
      if u != unit {
        OverlayElsewhere(registry.stores[u], u, unit, cells, source);
      }
    }
  }

  lemma {:induction false} CarriedStep(source: Cells, units: set<int>, unit: int, target: Cells, targetUnits: set<int>)
    ensures Server.Carried(source, units + {unit}, target, targetUnits) ==
            if unit in targetUnits then Overlaid(Server.Carried(source, units, target, targetUnits), source, unit)
            else Server.Carried(source, units, target, targetUnits)
  {
  }

  /** Values go to the same unit and address of the new registry; the stamps are left behind. */
  method CarryOver(from: PointRegistry, to: PointRegistry, ghost repr: set<UnitStore>)
    requires Carrying(from, to, repr)
    modifies repr, to`core
    ensures CarriedSoFar(from, to, repr, old(from.core.cells), old(to.core), {})
  {
    ghost var source, target := from.core.cells, to.core;
    NothingCarried(from.stores.Keys, source, target.cells, to.stores.Keys);
    var rest := from.stores.Keys;
    while rest != {}
      invariant CarriedSoFar(from, to, repr, source, target, rest)
      decreases |rest|
    {
      var unit := AnyOf(rest);
      CarryNext(from, to, repr, unit, source, target, rest);
      rest := rest - {unit};
    }
  }

  /** The two registries share nothing; `repr` holds the stores of the new one. */
  ghost predicate Carrying(from: PointRegistry, to: PointRegistry, repr: set<UnitStore>)
    reads from, to, from.stores.Values, to.stores.Values
  {
    && from.Valid() && to.Valid() && from != to
    && to.stores.Values == repr && from.stores.Values !! repr
  }

  /** All units but `rest` have been carried over onto `target`. */
  ghost predicate CarriedSoFar(from: PointRegistry, to: PointRegistry, repr: set<UnitStore>,
                               source: Cells, target: Core, rest: set<int>)
    reads from, to, from.stores.Values, to.stores.Values
  {
    && Carrying(from, to, repr) && from.core.cells == source && rest <= from.stores.Keys
    && to.core == target.(cells := Server.Carried(source, from.stores.Keys - rest, target.cells, to.stores.Keys))
  }

  method CarryNext(from: PointRegistry, to: PointRegistry, ghost repr: set<UnitStore>, unit: int,
                   ghost source: Cells, ghost target: Core, ghost rest: set<int>)
    requires CarriedSoFar(from, to, repr, source, target, rest) && unit in rest
    modifies repr, to`core
    ensures CarriedSoFar(from, to, repr, source, target, rest - {unit})
  {
    CarriedStep(source, from.stores.Keys - rest, unit, target.cells, to.stores.Keys);
    assert from.stores.Keys - (rest - {unit}) == (from.stores.Keys - rest) + {unit};
    if unit in to.stores {
      CarryUnit(from.stores[unit], to, unit, source);
    }
  }

  lemma {:induction false} NothingCarried(units: set<int>, source: Cells, target: Cells, targetUnits: set<int>)
    ensures Server.Carried(source, units - units, target, targetUnits) == target
  {
  }

  // ---- Several targets ----

  function MergeEach(plans: seq<Plan>, cores: seq<Core>, rows: seq<Row>): (merged: seq<Core>)
    requires |plans| == |cores|
    ensures |merged| == |cores| && forall i | 0 <= i < |cores| :: merged[i] == Merge(plans[i], cores[i], rows)
  {
    seq(|cores|, i requires 0 <= i < |cores| => Merge(plans[i], cores[i], rows))
  }

  function Counts(plans: seq<Plan>, cores: seq<Core>, rows: seq<Row>): (counts: seq<Tally>)
    requires |plans| == |cores|
    ensures |counts| == |cores| && forall i | 0 <= i < |cores| :: counts[i] == Count(plans[i], cores[i], rows)
  {
    seq(|cores|, i requires 0 <= i < |cores| => Count(plans[i], cores[i], rows))
  }

  function CountEach(plans: seq<Plan>, cores: seq<Core>, rows: seq<Row>): Tally
    requires |plans| == |cores|
  {
    Sum(Counts(plans, cores, rows))
  }

  lemma {:induction false} MergeEachSplits(plans: seq<Plan>, cores: seq<Core>, a: seq<Row>, b: seq<Row>)
    requires |plans| == |cores|
    ensures MergeEach(plans, cores, a + b) == MergeEach(plans, MergeEach(plans, cores, a), b)
  {
    forall i | 0 <= i < |cores|
      ensures MergeEach(plans, cores, a + b)[i] == MergeEach(plans, MergeEach(plans, cores, a), b)[i]
    {
      MergeSplits(plans[i], cores[i], a, b);
    }
  }

  lemma {:induction false} SumPointwise(a: seq<Tally>, b: seq<Tally>, c: seq<Tally>)
    requires |a| == |b| == |c| && forall i | 0 <= i < |c| :: c[i] == a[i] + b[i]
    ensures Sum(c) == Sum(a) + Sum(b)
  {
    if c != [] {
      var n := |c| - 1;
      SumPointwise(a[..n], b[..n], c[..n]);
    }
  }

  /** Target by target and slice by slice the counts add up to the same. */
  lemma {:induction false} CountEachSplits(plans: seq<Plan>, cores: seq<Core>, a: seq<Row>, b: seq<Row>)
    requires |plans| == |cores|
    ensures CountEach(plans, cores, a + b) ==
            CountEach(plans, cores, a) + CountEach(plans, MergeEach(plans, cores, a), b)
  {
    var mid := MergeEach(plans, cores, a);
    forall i | 0 <= i < |cores|
      ensures Counts(plans, cores, a + b)[i] == Counts(plans, cores, a)[i] + Counts(plans, mid, b)[i]
    {
      CountSplits(plans[i], cores[i], a, b);
    }
    SumPointwise(Counts(plans, cores, a), Counts(plans, mid, b), Counts(plans, cores, a + b));
  }

  lemma {:induction false} OneMore<T>(done: seq<T>, open: seq<T>, i: nat)
    requires |done| == |open| && i < |done|
    ensures (done[..i] + open[i..])[i := done[i]] == done[..i + 1] + open[i + 1..]
  {
  }

  lemma {:induction false} NothingYet(plans: seq<Plan>, cores: seq<Core>)
    requires |plans| == |cores|
    ensures MergeEach(plans, cores, []) == cores && CountEach(plans, cores, []) == multiset{}
  {
    ZeroSum(Counts(plans, cores, []));
  }

  lemma {:induction false} ZeroSum(tallies: seq<Tally>)
    requires forall i | 0 <= i < |tallies| :: tallies[i] == multiset{}
    ensures Sum(tallies) == multiset{}
  {
    if tallies != [] {
      ZeroSum(tallies[..|tallies| - 1]);
    }
  }

  ghost function PlansOf(servers: seq<PointRegistry>): (plans: seq<Plan>)
    reads servers
    ensures |plans| == |servers| && forall i | 0 <= i < |servers| :: plans[i] == servers[i].PlanOf()
  {
    seq(|servers|, i requires 0 <= i < |servers| reads servers => servers[i].PlanOf())
  }

  ghost function CoresOf(servers: seq<PointRegistry>): (cores: seq<Core>)
    reads servers
    ensures |cores| == |servers| && forall i | 0 <= i < |servers| :: cores[i] == servers[i].core
  {
    seq(|servers|, i requires 0 <= i < |servers| reads servers => servers[i].core)
  }

  class Manager {
    var ids: seq<int>
    var servers: seq<PointRegistry>

    /** No two targets share anything; `repr` holds all they consist of. */
    ghost predicate Valid(repr: set<object>)
      reads this, servers, repr
    {
      && |ids| == |servers|
      && (forall i | 0 <= i < |servers| :: servers[i] in repr && servers[i].stores.Values <= repr && servers[i].Valid())
      && (forall i, j | 0 <= i < j < |servers| ::
            ids[i] != ids[j] && servers[i] != servers[j] && servers[i].stores.Values !! servers[j].stores.Values)
    }

    constructor ()
      ensures Valid({}) && ids == [] && servers == []
    {
      ids, servers := [], [];
    }

    /** One target takes the rows; the others do not notice. */
    method ApplyTo(i: nat, rows: seq<Row>, ghost repr: set<object>) returns (tally: Tally)
      requires Valid(repr) && i < |servers|
      modifies repr - {this}
      ensures Valid(repr) && PlansOf(servers) == old(PlansOf(servers))
      ensures CoresOf(servers) == old(CoresOf(servers))[i := Merge(old(servers[i].PlanOf()), old(servers[i].core), rows)]
      ensures tally == Count(old(servers[i].PlanOf()), old(servers[i].core), rows)
    {
      tally := servers[i].ApplySnapshot(rows);
      forall j | 0 <= j < |servers| && j != i
        ensures servers[j].Valid() && servers[j].core == old(servers[j].core)
      {
      }
    }

    /** The first `i` targets have taken the rows. */
    ghost predicate Taken(i: nat, rows: seq<Row>, plans: seq<Plan>, cores: seq<Core>, tally: Tally, repr: set<object>)
      requires |plans| == |cores|
      reads this, servers, repr
    {
      && i <= |servers| == |plans| && Valid(repr) && PlansOf(servers) == plans
      && CoresOf(servers) == MergeEach(plans, cores, rows)[..i] + cores[i..]
      && tally == Sum(Counts(plans, cores, rows)[..i])
    }

    method TakeNext(i: nat, rows: seq<Row>, ghost plans: seq<Plan>, ghost cores: seq<Core>, tally: Tally, ghost repr: set<object>)
      returns (sum: Tally)
      requires |plans| == |cores| && i < |servers| && Taken(i, rows, plans, cores, tally, repr)
      modifies repr - {this}
      ensures Taken(i + 1, rows, plans, cores, sum, repr)
    {
      ghost var counts := Counts(plans, cores, rows);
      assert counts[..i + 1][..i] == counts[..i];
      OneMore(MergeEach(plans, cores, rows), cores, i);
      var one := ApplyTo(i, rows, repr);
      sum := tally + one;
    }

    /** Every target takes the rows against its own plan and its own stamps. */
    method ApplySnapshot(rows: seq<Row>, ghost repr: set<object>) returns (tally: Tally)
      requires Valid(repr)
      modifies repr - {this}
      ensures Valid(repr) && PlansOf(servers) == old(PlansOf(servers))
      ensures CoresOf(servers) == MergeEach(old(PlansOf(servers)), old(CoresOf(servers)), rows)
      ensures tally == CountEach(old(PlansOf(servers)), old(CoresOf(servers)), rows)
    {
      ghost var plans, cores := PlansOf(servers), CoresOf(servers);
      tally := multiset{};
      for i := 0 to |servers|
        invariant |servers| == |plans| && Taken(i, rows, plans, cores, tally, repr)
      {
        tally := TakeNext(i, rows, plans, cores, tally, repr);
      }
      assert Counts(plans, cores, rows)[..|servers|] == Counts(plans, cores, rows);
      assert MergeEach(plans, cores, rows)[..|servers|] + cores[|servers|..] == MergeEach(plans, cores, rows);
    }

    /** The snapshot of a refresh, in slices: the same registers and the same totals as in one piece. */
    method ApplyInSlices(rows: seq<Row>, ghost repr: set<object>) returns (tally: Tally)
      requires Valid(repr)
      modifies repr - {this}
      ensures Valid(repr) && PlansOf(servers) == old(PlansOf(servers))
      ensures CoresOf(servers) == MergeEach(old(PlansOf(servers)), old(CoresOf(servers)), rows)
      ensures tally == CountEach(old(PlansOf(servers)), old(CoresOf(servers)), rows)
    {
      ghost var plans, cores := PlansOf(servers), CoresOf(servers);
      tally := multiset{};
      var start := 0;
      NothingYet(plans, cores);
      while start < |rows|
        invariant 0 <= start <= |rows|
        invariant Valid(repr) && PlansOf(servers) == plans
        invariant CoresOf(servers) == MergeEach(plans, cores, rows[..start])
        invariant tally == CountEach(plans, cores, rows[..start])
      {
        var end := if start + SLICE < |rows| then start + SLICE else |rows|;
        assert rows[..end] == rows[..start] + rows[start..end];
        MergeEachSplits(plans, cores, rows[..start], rows[start..end]);
        CountEachSplits(plans, cores, rows[..start], rows[start..end]);
        var one := ApplySnapshot(rows[start..end], repr);
        tally := tally + one;
        start := end;
      }
      assert rows[..start] == rows;
    }
  }
}
