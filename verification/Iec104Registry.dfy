/** Building the point registry: active devices in code order, joined with the signals of their model. */
module Iec104Registry {
  import opened Prelude
  import opened Iec104Points

  /** A catalogue field that should hold an integer. */
  datatype RawInt = Missing | NotAnInt | Int(n: int)

  datatype Device = Device(code: string, model: string, active: bool, ca: RawInt)

  datatype Signal = Signal(key: string, model: string, active: bool, enabled: bool, eligible: bool,
                           typeId: RawInt, ioa: RawInt, ioaOffset: RawInt, stamped: bool)

  datatype Command = Command(key: Key, slug: string, ca: nat, ioa: nat)

  /** The address given directly, or the older offset taken as an address. */
  function ResolveIoa(s: Signal): Option<nat> {
    match if s.ioa.Missing? then s.ioaOffset else s.ioa
    case Int(n) => if 0 <= n <= 0xFF_FFFF then Some(n) else None
    case _ => None
  }

  function ResolveCa(d: Device, default: nat): nat {
    match d.ca
    case Int(n) => if 0 <= n <= 0xFFFE then n else default
    case _ => default
  }

  /** "master.reset_all_fcis" -> "reset_all_fcis" */
  function Slug(key: string): string {
    if '.' in key then AfterDot(key) else key
  }

  function AfterDot(key: string): string
    requires '.' in key
  {
    if key[0] == '.' then key[1..] else AfterDot(key[1..])
  }

  const ALLOWED_SLUGS := {"reset_all_fcis"}

  datatype Use = Unused | Monitors(kind: Kind, ioa: nat) | Commands(slug: string, ioa: nat)

  function UseOf(s: Signal): Use {
    if !s.active || !s.enabled || !s.eligible then Unused
    else match (s.typeId, ResolveIoa(s))
      case (Int(t), Some(ioa)) =>
        if t == 45 then
          if Slug(s.key) in ALLOWED_SLUGS then Commands(Slug(s.key), ioa) else Unused
        else if t == 1 then Monitors(SinglePoint, ioa)
        else if t == 13 then Monitors(ShortFloat, ioa)
        else if t == 15 then Monitors(Counter, ioa)
        else Unused
      case _ => Unused
  }

  // ---- Devices in code order ----

  predicate CodeLe(a: string, b: string) {
    |a| == 0 || (b != [] && (a[0] < b[0] || (a[0] == b[0] && CodeLe(a[1..], b[1..]))))
  }

  lemma {:induction false} CodeLeTotal(a: string, b: string)
    ensures CodeLe(a, b) || CodeLe(b, a)
  {
    if a != [] && b != [] && a[0] == b[0] {
      CodeLeTotal(a[1..], b[1..]);
    }
  }

  lemma {:induction false} CodeLeTransitive(a: string, b: string, c: string)
    requires CodeLe(a, b) && CodeLe(b, c)
    ensures CodeLe(a, c)
  {
    if a != [] && a[0] == b[0] == c[0] {
      CodeLeTransitive(a[1..], b[1..], c[1..]);
    }
  }

  /** Behind every device whose code is not greater: equal codes keep their order. */
  function Insert(sorted: seq<Device>, d: Device): seq<Device> {
    if |sorted| == 0 then [d]
    else
      var n := |sorted| - 1;
      if CodeLe(sorted[n].code, d.code) then sorted + [d] else Insert(sorted[..n], d) + [sorted[n]]
  }

  function ActiveByCode(devices: seq<Device>): seq<Device> {
    if |devices| == 0 then []
    else
      var d := devices[|devices| - 1];
      var earlier := ActiveByCode(devices[..|devices| - 1]);
      if d.active then Insert(earlier, d) else earlier
  }

  ghost predicate InCodeOrder(devices: seq<Device>) {
    forall i, j | 0 <= i < j < |devices| :: CodeLe(devices[i].code, devices[j].code)
  }

  lemma {:induction false} InsertKeeps(sorted: seq<Device>, d: Device)
    ensures multiset(Insert(sorted, d)) == multiset(sorted) + multiset{d}
  {
    if sorted != [] {
      var n := |sorted| - 1;
      AllButLast(sorted);
      if !CodeLe(sorted[n].code, d.code) {
        InsertKeeps(sorted[..n], d);
      }
    }
  }

  lemma {:induction false} InsertSorts(sorted: seq<Device>, d: Device)
    requires InCodeOrder(sorted)
    ensures InCodeOrder(Insert(sorted, d))
  {
    if sorted != [] {
      var n := |sorted| - 1;
      if CodeLe(sorted[n].code, d.code) {
        forall i | 0 <= i < n ensures CodeLe(sorted[i].code, d.code) {
          CodeLeTransitive(sorted[i].code, sorted[n].code, d.code);
        }
      } else {
        InsertSorts(sorted[..n], d);
        CodeLeTotal(sorted[n].code, d.code);
        InsertBelow(sorted[..n], d, sorted[n]);
      }
    }
  }

  lemma {:induction false} InsertBelow(sorted: seq<Device>, d: Device, top: Device)
    requires CodeLe(d.code, top.code) && forall e | e in sorted :: CodeLe(e.code, top.code)
    ensures forall e | e in Insert(sorted, d) :: CodeLe(e.code, top.code)
  {
    InsertKeeps(sorted, d);
    forall e | e in Insert(sorted, d)
      ensures CodeLe(e.code, top.code)
    {
      assert e in multiset(Insert(sorted, d));
    }
  }

  function Active(devices: seq<Device>): seq<Device> {
    Project((d: Device) => if d.active then Some(d) else None, devices)
  }

  /** Text order: the shorter one of two that agree, or the one with the smaller character where they first differ. */
  ghost predicate Precedes(a: string, b: string) {
    a <= b || exists i :: DifferAt(a, b, i)
  }

  predicate DifferAt(a: string, b: string, i: int) {
    0 <= i < |a| && i < |b| && a[..i] == b[..i] && a[i] < b[i]
  }

  lemma {:induction false} CodeLeMeans(a: string, b: string)
    ensures CodeLe(a, b) <==> Precedes(a, b)
  {
    if a != [] && b != [] && a[0] == b[0] {
      CodeLeMeans(a[1..], b[1..]);
      assert a == [a[0]] + a[1..] && b == [b[0]] + b[1..];
      if i :| DifferAt(a, b, i) {
        assert a[1..][..i - 1] == a[..i][1..] && b[1..][..i - 1] == b[..i][1..];
        assert DifferAt(a[1..], b[1..], i - 1);
      }
      if i :| DifferAt(a[1..], b[1..], i) {
        assert a[..i + 1] == [a[0]] + a[1..][..i] && b[..i + 1] == [b[0]] + b[1..][..i];
        assert DifferAt(a, b, i + 1);
      }
    } else if a != [] && b != [] {
      assert a[0] < b[0] ==> DifferAt(a, b, 0);
    }
  }

  /** The devices with a code. */
  function Coded(devices: seq<Device>, code: string): seq<Device> {
    if |devices| == 0 then [] else
      var n := |devices| - 1;
      Coded(devices[..n], code) + if devices[n].code == code then [devices[n]] else []
  }

  lemma {:induction false} InsertIsStable(sorted: seq<Device>, d: Device, code: string)
    ensures Coded(Insert(sorted, d), code) == Coded(sorted, code) + if d.code == code then [d] else []
  {
    if sorted == [] {
      assert [d][..0] == [];
    } else {
      var n := |sorted| - 1;
      if CodeLe(sorted[n].code, d.code) {
        assert (sorted + [d])[..n + 1] == sorted;
      } else {
        CodeLeTotal(d.code, d.code);
        InsertIsStable(sorted[..n], d, code);
        var front := Insert(sorted[..n], d);
        assert (front + [sorted[n]])[..|front|] == front;
      }
    }
  }

  lemma {:induction false} ActiveIsStable(devices: seq<Device>, code: string)
    ensures Coded(ActiveByCode(devices), code) == Coded(Active(devices), code)
  {
    if devices != [] {
      var n := |devices| - 1;
      ActiveIsStable(devices[..n], code);
      assert Active(devices) == Active(devices[..n]) + (if devices[n].active then [devices[n]] else []);
      if devices[n].active {
        InsertIsStable(ActiveByCode(devices[..n]), devices[n], code);
        assert Active(devices)[..|Active(devices[..n])|] == Active(devices[..n]);
      } else {
        assert Active(devices) == Active(devices[..n]);
      }
    }
  }

  /** Exactly the active devices, in the text order of their codes; devices with one code in their own order. */
  lemma {:induction false} ActiveInOrder(devices: seq<Device>)
    ensures multiset(ActiveByCode(devices)) == multiset(Active(devices))
    ensures var sorted := ActiveByCode(devices);
            forall i, j | 0 <= i < j < |sorted| :: Precedes(sorted[i].code, sorted[j].code)
    ensures forall code :: Coded(ActiveByCode(devices), code) == Coded(Active(devices), code)
  {
    var sorted := ActiveByCode(devices);
    ActiveByCodeSorts(devices);
    forall i, j | 0 <= i < j < |sorted|
      ensures Precedes(sorted[i].code, sorted[j].code)
    {
      CodeLeMeans(sorted[i].code, sorted[j].code);
    }
    forall code
      ensures Coded(sorted, code) == Coded(Active(devices), code)
    {
      ActiveIsStable(devices, code);
    }
  }

  /** Exactly the active devices, in code order. */
  lemma {:induction false} ActiveByCodeSorts(devices: seq<Device>)
    ensures InCodeOrder(ActiveByCode(devices))
    ensures multiset(ActiveByCode(devices)) == multiset(Active(devices))
  {
    if devices != [] {
      var n := |devices| - 1;
      ActiveByCodeSorts(devices[..n]);
      assert Active(devices) == Active(devices[..n]) + (if devices[n].active then [devices[n]] else []);
      if devices[n].active {
        InsertSorts(ActiveByCode(devices[..n]), devices[n]);
        InsertKeeps(ActiveByCode(devices[..n]), devices[n]);
      }
    }
  }

  // ---- The join ----

  function PointFor(d: Device, default: nat, s: Signal): Option<Point> {
    match UseOf(s)
    case Monitors(kind, ioa) =>
      if s.model == d.model && s.key != "" then
        Some(Point(Key(d.code, s.key), kind, ResolveCa(d, default), ioa, s.stamped))
      else None
    case _ => None
  }

  function CommandFor(d: Device, default: nat, s: Signal): Option<Command> {
    match UseOf(s)
    case Commands(slug, ioa) =>
      if s.model == d.model && s.key != "" then Some(Command(Key(d.code, s.key), slug, ResolveCa(d, default), ioa))
      else None
    case _ => None
  }

  /** The reference: for every device, all that the signals have for it. */
  function Product<T>(devices: seq<Device>, f: Device -> Signal -> Option<T>, signals: seq<Signal>): seq<T> {
    if |devices| == 0 then []
    else
      var d := devices[|devices| - 1];
      Product(devices[..|devices| - 1], f, signals) + (if d.code == "" then [] else Project(f(d), signals))
  }

  function PointsFor(default: nat): Device -> Signal -> Option<Point> {
    (d: Device) => (s: Signal) => PointFor(d, default, s)
  }

  function CommandsFor(default: nat): Device -> Signal -> Option<Command> {
    (d: Device) => (s: Signal) => CommandFor(d, default, s)
  }

  type Buckets = map<string, seq<Signal>>

  function Bucket(buckets: Buckets, model: string): seq<Signal> {
    if model in buckets then buckets[model] else []
  }

  /** What a bucket of a device's model gives the device is what the whole catalogue gives it. */
  ghost predicate Agrees<T>(buckets: Buckets, signals: seq<Signal>, f: Device -> Signal -> Option<T>) {
    forall d: Device :: Project(f(d), Bucket(buckets, d.model)) == Project(f(d), signals)
  }

  lemma {:induction false} AgreesSnoc<T>(buckets: Buckets, signals: seq<Signal>, s: Signal, f: Device -> Signal -> Option<T>, used: bool)
    requires Agrees(buckets, signals, f)
    requires forall d: Device :: f(d)(s).Some? ==> used && s.model == d.model
    ensures Agrees(if used then buckets[s.model := Bucket(buckets, s.model) + [s]] else buckets, signals + [s], f)
  {
    var buckets' := if used then buckets[s.model := Bucket(buckets, s.model) + [s]] else buckets;
    forall d: Device
      ensures Project(f(d), Bucket(buckets', d.model)) == Project(f(d), signals + [s])
    {
      ProjectSnoc(f(d), signals, s);
      ProjectSnoc(f(d), Bucket(buckets, s.model), s);
    }
  }

  method SortActive(devices: seq<Device>) returns (active: seq<Device>)
    ensures active == ActiveByCode(devices)
  {
    active := [];
    for i := 0 to |devices|
      invariant active == ActiveByCode(devices[..i])
    {
      assert devices[..i + 1][..i] == devices[..i];
      if devices[i].active {
        active := Insert(active, devices[i]);
      }
    }
    assert devices[..|devices|] == devices;
  }

  method FillBuckets(default: nat, signals: seq<Signal>) returns (signalsByModel: Buckets, commandsByModel: Buckets)
    ensures Agrees(signalsByModel, signals, PointsFor(default))
    ensures Agrees(commandsByModel, signals, CommandsFor(default))
  {
    signalsByModel, commandsByModel := map[], map[];
    for i := 0 to |signals|
      invariant Agrees(signalsByModel, signals[..i], PointsFor(default))
      invariant Agrees(commandsByModel, signals[..i], CommandsFor(default))
    {
      var s := signals[i];
      assert signals[..i + 1] == signals[..i] + [s];
      AgreesSnoc(signalsByModel, signals[..i], s, PointsFor(default), UseOf(s).Monitors?);
      AgreesSnoc(commandsByModel, signals[..i], s, CommandsFor(default), UseOf(s).Commands?);
      match UseOf(s)
      case Unused =>
      case Monitors(_, _) => signalsByModel := signalsByModel[s.model := Bucket(signalsByModel, s.model) + [s]];
      case Commands(_, _) => commandsByModel := commandsByModel[s.model := Bucket(commandsByModel, s.model) + [s]];
    }
    assert signals[..|signals|] == signals;
  }

  /** The inner loop: one device through its bucket. */
  method Join<T>(earlier: seq<T>, f: Signal -> Option<T>, bucket: seq<Signal>) returns (all: seq<T>)
    ensures all == earlier + Project(f, bucket)
  {
    all := earlier;
    for j := 0 to |bucket|
      invariant all == earlier + Project(f, bucket[..j])
    {
      assert bucket[..j + 1] == bucket[..j] + [bucket[j]];
      ProjectSnoc(f, bucket[..j], bucket[j]);
      match f(bucket[j])
      case Some(x) => all := all + [x];
      case None =>
    }
    assert bucket[..|bucket|] == bucket;
  }

  /** `build_point_registry`: signals are sorted into buckets by model, then every active device goes through the
      bucket of its model. The result is the ordered product, although no device looks at a foreign signal. */
  method BuildPointRegistry(default: nat, devices: seq<Device>, signals: seq<Signal>)
    returns (r: Result<(seq<Point>, seq<Command>), string>)
    ensures r.Err? <==> default > 0xFFFE
    ensures r.Ok? ==> r.value.0 == Product(ActiveByCode(devices), PointsFor(default), signals)
                      && r.value.1 == Product(ActiveByCode(devices), CommandsFor(default), signals)
  {
    if default > 0xFFFE {
      return Err("default common address out of range");
    }
    var active := SortActive(devices);
    var signalsByModel, commandsByModel := FillBuckets(default, signals);
    var points: seq<Point>, commands: seq<Command> := [], [];
    for i := 0 to |active|
      invariant points == Product(active[..i], PointsFor(default), signals)
      invariant commands == Product(active[..i], CommandsFor(default), signals)
    {
      var d := active[i];
      assert active[..i + 1][..i] == active[..i];
      if d.code == "" {
        continue;
      }
      points := Join(points, PointsFor(default)(d), Bucket(signalsByModel, d.model));
      commands := Join(commands, CommandsFor(default)(d), Bucket(commandsByModel, d.model));
    }
    assert active[..|active|] == active;
    r := Ok((points, commands));
  }

  // ---- What the product promises ----

  /** Every point comes from a device with a code and a signal of its model; and every such pair gives its point. */
  lemma {:induction false} ProductContains<T>(devices: seq<Device>, f: Device -> Signal -> Option<T>, signals: seq<Signal>, x: T)
    ensures x in Product(devices, f, signals) <==>
              exists d, s :: d in devices && d.code != "" && s in signals && f(d)(s) == Some(x)
  {
    if devices != [] {
      var n := |devices| - 1;
      ProductContains(devices[..n], f, signals, x);
      ProjectContains(f(devices[n]), signals, x);
      assert devices == devices[..n] + [devices[n]];
    }
  }

  lemma {:induction false} ProjectContains<A, B>(f: A -> Option<B>, s: seq<A>, b: B)
    ensures b in Project(f, s) <==> exists a :: a in s && f(a) == Some(b)
  {
    if s != [] {
      var n := |s| - 1;
      ProjectContains(f, s[..n], b);
      assert s == s[..n] + [s[n]];
    }
  }

  /** No catalogue row can open a command that is not on the list, whatever type it is given. */
  lemma {:induction false} CommandsAreAllowed(devices: seq<Device>, default: nat, signals: seq<Signal>, c: Command)
    requires c in Product(devices, CommandsFor(default), signals)
    ensures c.slug == "reset_all_fcis" && c.slug == Slug(c.key.signal)
  {
    ProductContains(devices, CommandsFor(default), signals, c);
  }

  /** Resolved common addresses differ between devices, and information object addresses between the signals a model
      monitors. */
  ghost predicate AddressedApart(devices: seq<Device>, default: nat, signals: seq<Signal>) {
    && (forall i, j | 0 <= i < j < |devices| && devices[i].code != "" && devices[j].code != "" ::
          devices[i].code != devices[j].code && ResolveCa(devices[i], default) != ResolveCa(devices[j], default))
    && (forall i, j | 0 <= i < j < |signals| && UseOf(signals[i]).Monitors? && UseOf(signals[j]).Monitors?
                      && signals[i].model == signals[j].model ::
          signals[i].key != signals[j].key && UseOf(signals[i]).ioa != UseOf(signals[j]).ioa)
  }

  lemma {:induction false} PointsOfDevice(d: Device, default: nat, signals: seq<Signal>)
    requires AddressedApart([], default, signals)
    ensures var points := Project(PointsFor(default)(d), signals);
            Distinct(points)
            && (forall p <- points :: p.key.device == d.code && p.ca == ResolveCa(d, default)
                  && exists s :: s in signals && PointFor(d, default, s) == Some(p))
  {
    if signals != [] {
      var n := |signals| - 1;
      PointsOfDevice(d, default, signals[..n]);
      assert signals == signals[..n] + [signals[n]];
      var earlier := Project(PointsFor(default)(d), signals[..n]);
      var p := PointFor(d, default, signals[n]);
      if p.Some? {
        forall i | 0 <= i < |earlier| ensures earlier[i].key != p.value.key && earlier[i].ioa != p.value.ioa {
          var s :| s in signals[..n] && PointFor(d, default, s) == Some(earlier[i]);
          var k :| 0 <= k < n && signals[k] == s;
          assert UseOf(signals[k]).ioa != UseOf(signals[n]).ioa;
        }
      }
    }
  }

  /** With addresses kept apart, the registry has distinct keys and distinct addresses: what convergence needs. */
  lemma {:induction false} RegistryIsDistinct(devices: seq<Device>, default: nat, signals: seq<Signal>)
    requires AddressedApart(devices, default, signals)
    ensures Distinct(Product(devices, PointsFor(default), signals))
    ensures forall p <- Product(devices, PointsFor(default), signals) ::
              exists d :: d in devices && d.code != "" && p.key.device == d.code && p.ca == ResolveCa(d, default)
  {
    if devices != [] {
      var n := |devices| - 1;
      var d := devices[n];
      RegistryIsDistinct(devices[..n], default, signals);
      PointsOfDevice(d, default, signals);
      assert devices == devices[..n] + [d];
      var earlier := Product(devices[..n], PointsFor(default), signals);
      forall i | 0 <= i < |earlier| && d.code != ""
        ensures earlier[i].key.device != d.code && earlier[i].ca != ResolveCa(d, default)
      {
        EarlierDiffers(devices, default, signals, earlier[i]);
      }
    }
  }

  lemma {:induction false} EarlierDiffers(devices: seq<Device>, default: nat, signals: seq<Signal>, p: Point)
    requires AddressedApart(devices, default, signals) && |devices| > 0 && devices[|devices| - 1].code != ""
    requires exists e :: e in devices[..|devices| - 1] && e.code != "" && p.key.device == e.code && p.ca == ResolveCa(e, default)
    ensures p.key.device != devices[|devices| - 1].code && p.ca != ResolveCa(devices[|devices| - 1], default)
  {
    var n := |devices| - 1;
    var e :| e in devices[..n] && e.code != "" && p.key.device == e.code && p.ca == ResolveCa(e, default);
    var k :| 0 <= k < n && devices[k] == e;
  }

  /** `by_address`, filled point by point. */
  method ByAddress(points: seq<Point>) returns (index: map<Address, Point>)
    ensures index.Keys == set p | p in points :: AddressOf(p)
    ensures Distinct(points) ==> |index| == |points| && forall p <- points :: index[AddressOf(p)] == p
  {
    index := map[];
    for i := 0 to |points|
      invariant index.Keys == set p | p in points[..i] :: AddressOf(p)
      invariant Distinct(points) ==> Indexed(points, i, index)
    {
      assert points[..i + 1] == points[..i] + [points[i]];
      if Distinct(points) {
        IndexOneMore(points, i, index);
      }
      index := index[AddressOf(points[i]) := points[i]];
    }
    assert points[..|points|] == points;
  }

  /** The first `i` points have an entry each. */
  ghost predicate Indexed(points: seq<Point>, i: nat, index: map<Address, Point>)
    requires i <= |points|
  {
    |index| == i && forall p | p in points[..i] :: AddressOf(p) in index && index[AddressOf(p)] == p
  }

  lemma {:induction false} NewAddress(points: seq<Point>, i: nat)
    requires Distinct(points) && i < |points|
    ensures forall p | p in points[..i] :: AddressOf(p) != AddressOf(points[i])
  {
    forall p | p in points[..i]
      ensures AddressOf(p) != AddressOf(points[i])
    {
      var j :| 0 <= j < i && points[j] == p;
    }
  }

  lemma {:induction false} IndexOneMore(points: seq<Point>, i: nat, index: map<Address, Point>)
    requires Distinct(points) && i < |points| && Indexed(points, i, index)
    requires index.Keys == set p | p in points[..i] :: AddressOf(p)
    ensures Indexed(points, i + 1, index[AddressOf(points[i]) := points[i]])
  {
    NewAddress(points, i);
    assert points[..i + 1] == points[..i] + [points[i]];
    assert AddressOf(points[i]) !in index;
  }

  /** Two devices of one model without an address of their own collide on every point they share. */
  lemma {:induction false} UnaddressedDevicesCollide(devices: seq<Device>, default: nat, signals: seq<Signal>, d: Device, e: Device, s: Signal)
    requires d in devices && e in devices && s in signals && d.code != e.code && d.code != "" && e.code != ""
    requires d.ca.Missing? && e.ca.Missing? && d.model == e.model && PointFor(d, default, s).Some?
    ensures !Distinct(Product(devices, PointsFor(default), signals))
  {
    var points := Product(devices, PointsFor(default), signals);
    var p, q := PointFor(d, default, s).value, PointFor(e, default, s).value;
    assert PointsFor(default)(d)(s) == Some(p) && PointsFor(default)(e)(s) == Some(q);
    ProductContains(devices, PointsFor(default), signals, p);
    ProductContains(devices, PointsFor(default), signals, q);
    var i :| 0 <= i < |points| && points[i] == p;
    var j :| 0 <= j < |points| && points[j] == q;
    assert AddressOf(points[i]) == AddressOf(points[j]) && i != j;
  }

  // ---- In the catalogue's own terms ----

  /** The signal's own address, or its older offset if it has none. */
  predicate GivesIoa(s: Signal, ioa: nat) {
    ioa <= 0xFF_FFFF && (s.ioa == Int(ioa) || (s.ioa.Missing? && s.ioaOffset == Int(ioa)))
  }

  /** The device's own common address if it has a usable one, otherwise the target's. */
  predicate GivesCa(d: Device, default: nat, ca: nat) {
    ca == if d.ca.Int? && 0 <= d.ca.n <= 65534 then d.ca.n else default
  }

  /** An active device with a code, and a signal of its model that is switched on. */
  predicate Belongs(d: Device, s: Signal) {
    d.active && d.code != "" && s.model == d.model && s.key != "" && s.active && s.enabled && s.eligible
  }

  predicate Reports(d: Device, s: Signal, default: nat, p: Point) {
    && Belongs(d, s) && p.key == Key(d.code, s.key) && p.stamped == s.stamped
    && GivesCa(d, default, p.ca) && GivesIoa(s, p.ioa)
    && s.typeId == Int(match p.kind case SinglePoint => 1 case ShortFloat => 13 case Counter => 15)
  }

  predicate FirstDotAt(key: string, i: int) {
    0 <= i < |key| && key[i] == '.' && forall j | 0 <= j < i :: key[j] != '.'
  }

  /** The part of the key behind its first dot, or all of it. */
  ghost predicate Names(key: string, slug: string) {
    ('.' !in key && key == slug) || exists i :: FirstDotAt(key, i) && key[i + 1..] == slug
  }

  ghost predicate Obeys(d: Device, s: Signal, default: nat, c: Command) {
    && Belongs(d, s) && c.key == Key(d.code, s.key) && c.slug == "reset_all_fcis" && Names(s.key, c.slug)
    && GivesCa(d, default, c.ca) && GivesIoa(s, c.ioa) && s.typeId == Int(45)
  }

  lemma {:induction false} SlugNames(key: string, slug: string)
    ensures Names(key, slug) <==> slug == Slug(key)
  {
    forall i | FirstDotAt(key, i)
      ensures '.' in key && AfterDot(key) == key[i + 1..]
    {
      BehindDot(key, i);
    }
    if '.' in key {
      var i := FindDot(key);
    }
  }

  lemma {:induction false} BehindDot(key: string, i: int)
    requires FirstDotAt(key, i)
    ensures '.' in key && AfterDot(key) == key[i + 1..]
  {
    if i > 0 {
      BehindDot(key[1..], i - 1);
    }
  }

  lemma {:induction false} FindDot(key: string) returns (i: int)
    requires '.' in key
    ensures FirstDotAt(key, i)
  {
    if key[0] == '.' {
      i := 0;
    } else {
      i := FindDot(key[1..]);
      i := i + 1;
    }
  }

  lemma {:induction false} ActiveOnes(devices: seq<Device>, d: Device)
    ensures d in ActiveByCode(devices) <==> d in devices && d.active
  {
    if devices != [] {
      var n := |devices| - 1;
      ActiveOnes(devices[..n], d);
      assert devices == devices[..n] + [devices[n]];
      if devices[n].active {
        InsertKeeps(ActiveByCode(devices[..n]), devices[n]);
        assert d in ActiveByCode(devices) <==> d in multiset(ActiveByCode(devices));
      }
    }
  }

  lemma {:induction false} ReportsExactly(d: Device, s: Signal, default: nat, p: Point)
    ensures d.active && d.code != "" && PointFor(d, default, s) == Some(p) <==> Reports(d, s, default, p)
  {
  }

  lemma {:induction false} ObeysExactly(d: Device, s: Signal, default: nat, c: Command)
    ensures d.active && d.code != "" && CommandFor(d, default, s) == Some(c) <==> Obeys(d, s, default, c)
  {
    SlugNames(s.key, c.slug);
  }

  /** The registry's points, from the fields of the catalogue: exactly those that some active device reports. */
  lemma {:induction false} PointsAreReported(devices: seq<Device>, default: nat, signals: seq<Signal>, p: Point)
    ensures p in Product(ActiveByCode(devices), PointsFor(default), signals) <==>
              exists d, s :: d in devices && s in signals && Reports(d, s, default, p)
  {
    ProductContains(ActiveByCode(devices), PointsFor(default), signals, p);
    forall d, s
      ensures d in ActiveByCode(devices) && d.code != "" && PointsFor(default)(d)(s) == Some(p) <==>
              d in devices && Reports(d, s, default, p)
    {
      ActiveOnes(devices, d);
      ReportsExactly(d, s, default, p);
    }
  }

  /** ... and its commands. */
  lemma {:induction false} CommandsAreObeyed(devices: seq<Device>, default: nat, signals: seq<Signal>, c: Command)
    ensures c in Product(ActiveByCode(devices), CommandsFor(default), signals) <==>
              exists d, s :: d in devices && s in signals && Obeys(d, s, default, c)
  {
    ProductContains(ActiveByCode(devices), CommandsFor(default), signals, c);
    forall d, s
      ensures d in ActiveByCode(devices) && d.code != "" && CommandsFor(default)(d)(s) == Some(c) <==>
              d in devices && Obeys(d, s, default, c)
    {
      ActiveOnes(devices, d);
      ObeysExactly(d, s, default, c);
    }
  }
}
