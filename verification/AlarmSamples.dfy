/** The sample store behind the aggregates: a bounded, pruned window per signal and device. */
module AlarmSamples {
  import opened Prelude
  import opened AlarmRules

  const MAX_PER_KEY := 5000
  const MAX_RETAIN := 86400.0
  const MIN_RETAIN := 300.0
  const CLEANUP_INTERVAL := 600.0

  type Key = (string, string)

  datatype Sample = Sample(ts: real, value: real)

  type Buffers = map<Key, seq<Sample>>

  datatype Store = Store(buffers: Buffers, lastCleanup: real)

  /** One reading to store, with the longest window of the rules at that moment. */
  datatype Put = Put(key: Key, sample: Sample, window: int)

  /** How long samples are kept: the longest window and a fifth more, within fixed limits. */
  function Retain(window: int): (seconds: real)
    ensures MIN_RETAIN <= seconds <= MAX_RETAIN
    ensures window <= LONGEST_WINDOW ==> seconds >= window as real
  {
    if window <= 0 then MIN_RETAIN
    else
      var wanted := window as real * 1.2;
      var atLeast := if wanted > MIN_RETAIN then wanted else MIN_RETAIN;
      if atLeast < MAX_RETAIN then atLeast else MAX_RETAIN
  }

  /** The last 5000 elements. */
  function Recent(samples: seq<Sample>): (recent: seq<Sample>)
    ensures |recent| <= MAX_PER_KEY
  {
    if |samples| > MAX_PER_KEY then samples[|samples| - MAX_PER_KEY..] else samples
  }

  function DropOld(samples: seq<Sample>, cutoff: real): seq<Sample> {
    if samples != [] && samples[0].ts < cutoff then DropOld(samples[1..], cutoff) else samples
  }

  function Buffer(b: Buffers, key: Key): seq<Sample> {
    if key in b then b[key] else []
  }

  predicate Stale(samples: seq<Sample>, cutoff: real) {
    |samples| == 0 || samples[|samples| - 1].ts < cutoff
  }

  /** The periodic cleanup. */
  function Fresh(b: Buffers, cutoff: real): Buffers {
    map k | k in b && !Stale(b[k], cutoff) :: b[k]
  }

  /** The sample is appended to its buffer, which is then cut to its length and its age. */
  function Stored(b: Buffers, key: Key, sample: Sample, cutoff: real): Buffers {
    b[key := DropOld(Recent(Buffer(b, key) + [sample]), cutoff)]
  }

  /** What a put leaves in the store. */
  function PutInto(store: Store, p: Put): Store {
    var cutoff := p.sample.ts - Retain(p.window);
    var b := Stored(store.buffers, p.key, p.sample, cutoff);
    if p.sample.ts - store.lastCleanup > CLEANUP_INTERVAL then Store(Fresh(b, cutoff), p.sample.ts)
    else Store(b, store.lastCleanup)
  }

  const EMPTY := Store(map[], 0.0)

  function Filled(puts: seq<Put>): Store {
    if |puts| == 0 then EMPTY else PutInto(Filled(puts[..|puts| - 1]), puts[|puts| - 1])
  }

  // ---- Aggregates ----

  function InWindow(samples: seq<Sample>, cutoff: real): seq<Sample> {
    if |samples| == 0 then [] else
      var s := samples[|samples| - 1];
      var before := InWindow(samples[..|samples| - 1], cutoff);
      if s.ts >= cutoff then before + [s] else before
  }

  function Total(samples: seq<Sample>): real {
    if |samples| == 0 then 0.0 else Total(samples[..|samples| - 1]) + samples[|samples| - 1].value
  }

  function Lowest(samples: seq<Sample>): real
    requires samples != []
  {
    var n := |samples| - 1;
    if n == 0 || samples[n].value < Lowest(samples[..n]) then samples[n].value else Lowest(samples[..n])
  }

  function Highest(samples: seq<Sample>): real
    requires samples != []
  {
    var n := |samples| - 1;
    if n == 0 || samples[n].value > Highest(samples[..n]) then samples[n].value else Highest(samples[..n])
  }

  function CountOf(samples: seq<Sample>, above: bool, bound: real): nat {
    if |samples| == 0 then 0 else
      var v := samples[|samples| - 1].value;
      CountOf(samples[..|samples| - 1], above, bound) + if (if above then v > bound else v < bound) then 1 else 0
  }

  function Aggregate(fn: AggFn, samples: seq<Sample>, arg: real): Option<real> {
    if |samples| == 0 then None
    else match fn
      case Avg => Some(Total(samples) / |samples| as real)
      case Min => Some(Lowest(samples))
      case Max => Some(Highest(samples))
      case Sum => Some(Total(samples))
      case CountAbove => Some(CountOf(samples, true, arg) as real)
      case CountBelow => Some(CountOf(samples, false, arg) as real)
  }

  function Cutoff(now: real, window: int): real {
    now - (if window > 1 then window else 1) as real
  }

  function LookUp(store: Store, key: Key, fn: AggFn, window: int, arg: real, now: real): Option<real> {
    Aggregate(fn, InWindow(Buffer(store.buffers, key), Cutoff(now, window)), arg)
  }

  // ---- The full history ----

  function History(puts: seq<Put>, key: Key): seq<Sample> {
    if |puts| == 0 then [] else
      var before := History(puts[..|puts| - 1], key);
      if puts[|puts| - 1].key == key then before + [puts[|puts| - 1].sample] else before
  }

  /** The clock of the readings does not run backwards. */
  predicate Ordered(samples: seq<Sample>) {
    forall i, j | 0 <= i <= j < |samples| :: samples[i].ts <= samples[j].ts
  }

  predicate Monotone(puts: seq<Put>) {
    forall i, j | 0 <= i <= j < |puts| :: puts[i].sample.ts <= puts[j].sample.ts
  }

  /** While the readings came in, the rules never asked for less than `window` but for a sixth, or it is short; a day is the
      most that is kept. */
  predicate Keeps(puts: seq<Put>, window: int) {
    forall p | p in puts :: window <= 86400 && (window <= 300 || 5 * window <= 6 * p.window)
  }

  lemma {:induction false} HistoryBounded(puts: seq<Put>, key: Key, now: real)
    requires Monotone(puts) && (puts == [] || puts[|puts| - 1].sample.ts <= now)
    ensures Ordered(History(puts, key))
    ensures forall s | s in History(puts, key) :: s.ts <= now
  {
    if puts != [] {
      HistoryBounded(puts[..|puts| - 1], key, puts[|puts| - 1].sample.ts);
    }
  }

  /** `kept` is `all` without a front part, and what is gone is older than `floor` or not among the last 5000. */
  ghost predicate Prunes(kept: seq<Sample>, all: seq<Sample>, floor: real) {
    exists d :: PrunesAt(kept, all, floor, d)
  }

  predicate PrunesAt(kept: seq<Sample>, all: seq<Sample>, floor: real, d: int) {
    && 0 <= d <= |all| && kept == all[d..] && |kept| <= MAX_PER_KEY
    && forall i | 0 <= i < d :: |all| - i > MAX_PER_KEY || all[i].ts < floor
  }

  lemma {:induction false} DropOldPrunes(kept: seq<Sample>, all: seq<Sample>, floor: real, cutoff: real)
    requires Prunes(kept, all, floor) && cutoff <= floor
    ensures Prunes(DropOld(kept, cutoff), all, floor)
    decreases |kept|
  {
    if kept != [] && kept[0].ts < cutoff {
      var d :| PrunesAt(kept, all, floor, d);
      assert PrunesAt(kept[1..], all, floor, d + 1);
      DropOldPrunes(kept[1..], all, floor, cutoff);
    }
  }

  lemma {:induction false} AppendPrunes(kept: seq<Sample>, all: seq<Sample>, s: Sample, before: real, floor: real)
    requires Prunes(kept, all, before) && before <= floor
    ensures Prunes(Recent(kept + [s]), all + [s], floor)
  {
    var d :| PrunesAt(kept, all, before, d);
    if |kept| < MAX_PER_KEY {
      assert kept + [s] == (all + [s])[d..];
      assert PrunesAt(kept + [s], all + [s], floor, d);
    } else {
      assert Recent(kept + [s]) == (all + [s])[d + 1..];
      assert PrunesAt(Recent(kept + [s]), all + [s], floor, d + 1);
    }
  }

  /** A buffer whose newest sample is old may go altogether. */
  lemma {:induction false} StalePrunes(kept: seq<Sample>, all: seq<Sample>, floor: real, cutoff: real)
    requires Prunes(kept, all, floor) && Ordered(all) && cutoff <= floor && Stale(kept, cutoff)
    ensures Prunes([], all, floor)
  {
    var d :| PrunesAt(kept, all, floor, d);
    assert kept != [] ==> kept[|kept| - 1] == all[|all| - 1];
    assert PrunesAt([], all, floor, |all|);
  }

  lemma {:induction false} RaiseFloor(kept: seq<Sample>, all: seq<Sample>, before: real, floor: real)
    requires Prunes(kept, all, before) && before <= floor
    ensures Prunes(kept, all, floor)
  {
    var d :| PrunesAt(kept, all, before, d);
    assert PrunesAt(kept, all, floor, d);
  }

  /** The store against the history, for one key: despite the length cap, the retention and the cleanup, what is gone is
      too old for any window the rules asked for, or not among the last 5000. */
  lemma {:induction false} StoreSimulatesHistory(puts: seq<Put>, key: Key, window: int, now: real)
    requires Monotone(puts) && Keeps(puts, window) && (puts == [] || puts[|puts| - 1].sample.ts <= now)
    ensures Prunes(Buffer(Filled(puts).buffers, key), History(puts, key), now - window as real)
  {
    if puts == [] {
      assert PrunesAt([], [], now - window as real, 0);
    } else {
      var before, p := puts[..|puts| - 1], puts[|puts| - 1];
      var past := if |before| == 0 then p.sample.ts else before[|before| - 1].sample.ts;
      assert Retain(p.window) >= window as real;
      StoreSimulatesHistory(before, key, window, past);
      HistoryBounded(puts, key, now);
      PutSimulates(Filled(before), p, key, History(before, key), past - window as real, now - window as real);
    }
  }

  function Recorded(history: seq<Sample>, p: Put, key: Key): seq<Sample> {
    if p.key == key then history + [p.sample] else history
  }

  lemma {:induction false} PutBuffers(store: Store, p: Put, b: Buffers, cutoff: real)
    requires cutoff == p.sample.ts - Retain(p.window) && b == Stored(store.buffers, p.key, p.sample, cutoff)
    ensures PutInto(store, p).buffers == b || PutInto(store, p).buffers == Fresh(b, cutoff)
  {
  }

  lemma {:induction false} PutSimulates(store: Store, p: Put, key: Key, history: seq<Sample>, before: real, floor: real)
    requires Prunes(Buffer(store.buffers, key), history, before) && before <= floor
    requires p.sample.ts - Retain(p.window) <= floor && Ordered(Recorded(history, p, key))
    ensures Prunes(Buffer(PutInto(store, p).buffers, key), Recorded(history, p, key), floor)
  {
    var cutoff := p.sample.ts - Retain(p.window);
    var b := Stored(store.buffers, p.key, p.sample, cutoff);
    StoredPrunes(store.buffers, p, key, history, before, floor, cutoff);
    CleanupPrunes(b, key, Recorded(history, p, key), floor, cutoff);
    PutBuffers(store, p, b, cutoff);
  }

  lemma {:induction false} StoredPrunes(b: Buffers, p: Put, key: Key, history: seq<Sample>, before: real, floor: real, cutoff: real)
    requires Prunes(Buffer(b, key), history, before) && before <= floor && cutoff <= floor
    ensures Prunes(Buffer(Stored(b, p.key, p.sample, cutoff), key), Recorded(history, p, key), floor)
  {
    var kept := Buffer(b, key);
    StoredBuffer(b, p.key, p.sample, cutoff, key);
    if p.key == key {
      AppendPrunes(kept, history, p.sample, before, floor);
      DropOldPrunes(Recent(kept + [p.sample]), history + [p.sample], floor, cutoff);
    } else {
      RaiseFloor(kept, history, before, floor);
    }
  }

  lemma {:induction false} StoredBuffer(b: Buffers, key: Key, sample: Sample, cutoff: real, k: Key)
    ensures Buffer(Stored(b, key, sample, cutoff), k) ==
            if k == key then DropOld(Recent(Buffer(b, k) + [sample]), cutoff) else Buffer(b, k)
  {
  }

  lemma {:induction false} CleanupPrunes(b: Buffers, key: Key, history: seq<Sample>, floor: real, cutoff: real)
    requires Prunes(Buffer(b, key), history, floor) && Ordered(history) && cutoff <= floor
    ensures Prunes(Buffer(Fresh(b, cutoff), key), history, floor)
  {
    if Stale(Buffer(b, key), cutoff) {
      StalePrunes(Buffer(b, key), history, floor, cutoff);
      assert Buffer(Fresh(b, cutoff), key) == [];
    } else {
      assert Buffer(Fresh(b, cutoff), key) == Buffer(b, key);
    }
  }

  // ---- The store answers for the history ----

  /** Where the window of an ordered history begins. */
  function FirstInWindow(all: seq<Sample>, cutoff: real): (d: nat)
    requires Ordered(all)
    ensures d <= |all|
    ensures forall i | 0 <= i < |all| :: all[i].ts < cutoff <==> i < d
  {
    if |all| == 0 then 0
    else if all[|all| - 1].ts < cutoff then |all|
    else FirstInWindow(all[..|all| - 1], cutoff)
  }

  lemma {:induction false} WindowIsSuffix(all: seq<Sample>, cutoff: real, d: nat)
    requires d <= |all| && forall i | 0 <= i < |all| :: all[i].ts < cutoff <==> i < d
    ensures InWindow(all, cutoff) == all[d..]
  {
    if all != [] {
      var n := |all| - 1;
      if d == |all| {
        WindowIsSuffix(all[..n], cutoff, n);
      } else {
        WindowIsSuffix(all[..n], cutoff, d);
        assert all[..n][d..] + [all[n]] == all[d..];
      }
    }
  }

  /** Pruned or not, the window is the same, up to its last 5000 samples. */
  lemma {:induction false} PrunedWindow(kept: seq<Sample>, all: seq<Sample>, cutoff: real)
    requires Prunes(kept, all, cutoff) && Ordered(all)
    ensures InWindow(kept, cutoff) == Recent(InWindow(all, cutoff))
  {
    var d :| PrunesAt(kept, all, cutoff, d);
    var first := FirstInWindow(all, cutoff);
    WindowIsSuffix(all, cutoff, first);
    if d <= first {
      WindowIsSuffix(kept, cutoff, first - d);
      assert kept[first - d..] == all[first..];
    } else {
      CappedWindow(kept, all, cutoff, d, first);
    }
  }

  /** A sample pruned from inside the window was not among the last 5000. */
  lemma {:induction false} CappedWindow(kept: seq<Sample>, all: seq<Sample>, cutoff: real, d: nat, first: nat)
    requires PrunesAt(kept, all, cutoff, d) && first < d
    requires forall i | 0 <= i < |all| :: all[i].ts < cutoff <==> i < first
    ensures InWindow(kept, cutoff) == Recent(all[first..])
  {
    WindowIsSuffix(kept, cutoff, 0);
    assert all[d - 1].ts >= cutoff;
    assert |all| - d == MAX_PER_KEY;
    assert all[first..][d - first..] == all[d..];
  }

  /** The store refines the full history: a lookup over any window the rules have been asking for gives the aggregate of
      the complete history restricted to that window, or of its last 5000 samples if there are more. */
  lemma {:induction false} LookUpRefinesHistory(puts: seq<Put>, key: Key, fn: AggFn, window: int, arg: real, now: real)
    requires Monotone(puts) && (puts == [] || puts[|puts| - 1].sample.ts <= now)
    requires Keeps(puts, if window > 1 then window else 1)
    ensures LookUp(Filled(puts), key, fn, window, arg, now)
            == Aggregate(fn, Recent(InWindow(History(puts, key), Cutoff(now, window))), arg)
  {
    HistoryBounded(puts, key, now);
    StoreSimulatesHistory(puts, key, if window > 1 then window else 1, now);
    PrunedWindow(Buffer(Filled(puts).buffers, key), History(puts, key), Cutoff(now, window));
  }

  /** Only readings of signals that some rule aggregates are stored. */
  function Gated(readings: seq<Put>, keys: set<string>): seq<Put> {
    if |readings| == 0 then [] else
      var before := Gated(readings[..|readings| - 1], keys);
      if readings[|readings| - 1].key.0 in keys then before + [readings[|readings| - 1]] else before
  }

  lemma {:induction false} GatedHistory(readings: seq<Put>, keys: set<string>, key: Key)
    requires key.0 in keys
    ensures History(Gated(readings, keys), key) == History(readings, key)
  {
    if |readings| > 0 {
      var before := Gated(readings[..|readings| - 1], keys);
      var last := readings[|readings| - 1];
      GatedHistory(readings[..|readings| - 1], keys, key);
      HistorySnoc(before, last, key);
    }
  }

  lemma {:induction false} HistorySnoc(puts: seq<Put>, p: Put, key: Key)
    ensures History(puts + [p], key) == if p.key == key then History(puts, key) + [p.sample] else History(puts, key)
  {
    assert (puts + [p])[..|puts|] == puts;
  }

  lemma {:induction false} GatedMonotone(readings: seq<Put>, keys: set<string>, now: real)
    requires Monotone(readings) && (readings == [] || readings[|readings| - 1].sample.ts <= now)
    ensures Monotone(Gated(readings, keys))
    ensures forall p | p in Gated(readings, keys) :: p in readings && p.sample.ts <= now
  {
    if |readings| > 0 {
      GatedMonotone(readings[..|readings| - 1], keys, readings[|readings| - 1].sample.ts);
    }
  }

  /** With a fixed rule set, every aggregate a kept rule can ask for is answered from the full history of the readings,
      although only those of aggregated signals are stored, and only for a while. */
  lemma {:induction false} RulesSeeFullHistory(cache: AlarmRuleCache, rules: seq<Rule>, signals: set<string>, rule: Rule, t: Term,
                            readings: seq<Put>, device: string, now: real)
    requires cache.Reflects(rules, signals)
    requires rule in KeptRules(rules, signals) && AggTerm(rule, t)
    requires Monotone(readings) && (readings == [] || readings[|readings| - 1].sample.ts <= now)
    requires forall p | p in readings :: p.window == cache.maxWindow
    ensures LookUp(Filled(Gated(readings, cache.aggKeys)), (t.signal, device), t.kind.fn, t.kind.window, t.kind.arg, now)
            == Aggregate(t.kind.fn, Recent(InWindow(History(readings, (t.signal, device)), Cutoff(now, t.kind.window))), t.kind.arg)
  {
    AggregatesAreStored(cache, rules, signals, rule, t);
    GatedHistory(readings, cache.aggKeys, (t.signal, device));
    GatedMonotone(readings, cache.aggKeys, now);
    LookUpRefinesHistory(Gated(readings, cache.aggKeys), (t.signal, device), t.kind.fn, t.kind.window, t.kind.arg, now);
  }

  // ---- What the store holds at most ----

  /** At most 5000 samples a buffer, and no buffer that is empty or has been silent for much longer than a day. */
  predicate Bounded(store: Store, now: real) {
    && store.lastCleanup <= now <= store.lastCleanup + 600.0
    && forall k | k in store.buffers ::
         0 < |store.buffers[k]| <= 5000 && store.buffers[k][|store.buffers[k]| - 1].ts >= store.lastCleanup - 86400.0
  }

  lemma {:induction false} DropOldKeepsLast(samples: seq<Sample>, cutoff: real)
    requires samples != [] && samples[|samples| - 1].ts >= cutoff
    ensures var rest := DropOld(samples, cutoff);
            0 < |rest| <= |samples| && rest[|rest| - 1] == samples[|samples| - 1]
  {
    if samples[0].ts < cutoff {
      DropOldKeepsLast(samples[1..], cutoff);
    }
  }

  lemma {:induction false} PutKeepsBounded(store: Store, p: Put, past: real)
    requires Bounded(store, past) && past <= p.sample.ts
    ensures Bounded(PutInto(store, p), p.sample.ts)
  {
    var cutoff := p.sample.ts - Retain(p.window);
    DropOldKeepsLast(Recent(Buffer(store.buffers, p.key) + [p.sample]), cutoff);
  }

  /** In every run of a clock that starts at zero or later and does not run backwards, no buffer holds more than 5000 samples,
      and every buffer has one that is no older than a day and ten minutes. */
  lemma {:induction false} StoreIsBounded(puts: seq<Put>)
    requires Monotone(puts) && forall p | p in puts :: p.sample.ts >= 0.0
    ensures Bounded(Filled(puts), if puts == [] then 0.0 else puts[|puts| - 1].sample.ts)
  {
    if puts != [] {
      var n := |puts| - 1;
      StoreIsBounded(puts[..n]);
      PutKeepsBounded(Filled(puts[..n]), puts[n], if n == 0 then 0.0 else puts[n - 1].sample.ts);
    }
  }

  lemma {:induction false} FreshIsRest(b: Buffers, cutoff: real, stale: set<Key>, rest: set<Key>)
    requires rest == {} && stale == set k | k in b && Stale(b[k], cutoff)
    ensures b - (stale - rest) == Fresh(b, cutoff)
  {
  }

  // ---- The store as it is written ----

  class SamplesCache {
    var buffers: Buffers
    var lastCleanup: real

    constructor ()
      ensures Contents() == EMPTY
    {
      buffers, lastCleanup := map[], 0.0;
    }

    function Contents(): Store
      reads this
    {
      Store(buffers, lastCleanup)
    }

    method Add(key: Key, value: real, now: real, window: int)
      modifies this
      ensures Contents() == PutInto(old(Contents()), Put(key, Sample(now, value), window))
    {
      var dq := Buffer(buffers, key) + [Sample(now, value)];
      if |dq| > MAX_PER_KEY {
        dq := dq[|dq| - MAX_PER_KEY..];
      }
      var cutoff := now - Retain(window);
      ghost var full := dq;
      while dq != [] && dq[0].ts < cutoff
        invariant DropOld(dq, cutoff) == DropOld(full, cutoff)
        decreases |dq|
      {
        dq := dq[1..];
      }
      buffers := buffers[key := dq];
      assert buffers == Stored(old(buffers), key, Sample(now, value), cutoff);
      if now - lastCleanup > CLEANUP_INTERVAL {
        CleanUp(cutoff);
        lastCleanup := now;
      }
    }

    /** Removes the buffers that are empty or have no sample as new as the cutoff. */
    method CleanUp(cutoff: real)
      modifies this`buffers
      ensures buffers == Fresh(old(buffers), cutoff)
    {
      var stale := set k | k in buffers && Stale(buffers[k], cutoff);
      var rest := stale;
      while rest != {}
        invariant rest <= stale
        invariant buffers == old(buffers) - (stale - rest)
        decreases |rest|
      {
        var k :| k in rest;
        rest := rest - {k};
        buffers := buffers - {k};
      }
      FreshIsRest(old(buffers), cutoff, stale, rest);
    }

    method Find(key: Key, fn: AggFn, window: int, arg: real, now: real) returns (v: Option<real>)
      ensures v == LookUp(Contents(), key, fn, window, arg, now)
    {
      var dq := Buffer(buffers, key);
      var cutoff := Cutoff(now, window);
      var samples: seq<Sample> := [];
      for i := 0 to |dq|
        invariant samples == InWindow(dq[..i], cutoff)
      {
        assert dq[..i + 1][..i] == dq[..i];
        if dq[i].ts >= cutoff {
          samples := samples + [dq[i]];
        }
      }
      assert dq[..|dq|] == dq;
      v := Aggregate(fn, samples, arg);
    }
  }

  // ---- What the aggregates are ----

  /** The samples of a window: those not older than the cutoff, each as often as it was taken. */
  lemma {:induction false} WindowMeans(samples: seq<Sample>, cutoff: real, s: Sample)
    ensures multiset(InWindow(samples, cutoff))[s] == if s.ts >= cutoff then multiset(samples)[s] else 0
  {
    if samples != [] {
      WindowMeans(samples[..|samples| - 1], cutoff, s);
      AllButLast(samples);
    }
  }

  /** The least sample, the greatest, and how many lie beyond the bound; nothing only of nothing. */
  lemma {:induction false} AggregateMeans(samples: seq<Sample>, arg: real)
    ensures forall fn :: Aggregate(fn, samples, arg).None? <==> samples == []
    ensures samples != [] ==>
              var low, high := Aggregate(Min, samples, arg).value, Aggregate(Max, samples, arg).value;
              && (forall s | s in samples :: low <= s.value <= high)
              && (exists s :: s in samples && s.value == low) && (exists s :: s in samples && s.value == high)
              && Aggregate(CountAbove, samples, arg) == Some(|set i | 0 <= i < |samples| && samples[i].value > arg| as real)
              && Aggregate(CountBelow, samples, arg) == Some(|set i | 0 <= i < |samples| && samples[i].value < arg| as real)
  {
    if samples != [] {
      LowestMeans(samples);
      HighestMeans(samples);
      CountMeans(samples, true, arg);
      CountMeans(samples, false, arg);
      assert (set i | 0 <= i < |samples| && Counted(samples[i], true, arg))
             == set i | 0 <= i < |samples| && samples[i].value > arg;
      assert (set i | 0 <= i < |samples| && Counted(samples[i], false, arg))
             == set i | 0 <= i < |samples| && samples[i].value < arg;
    }
  }

  /** Sum and mean, by running totals. */
  lemma {:induction false} TotalMeans(samples: seq<Sample>, arg: real) returns (totals: seq<real>)
    ensures |totals| == |samples| + 1 && totals[0] == 0.0
    ensures forall i | 0 <= i < |samples| :: totals[i + 1] == totals[i] + samples[i].value
    ensures samples != [] ==>
              && Aggregate(AggFn.Sum, samples, arg) == Some(totals[|samples|])
              && Aggregate(Avg, samples, arg).value * |samples| as real == totals[|samples|]
  {
    totals := Totals(samples);
  }

  lemma {:induction false} Totals(samples: seq<Sample>) returns (totals: seq<real>)
    ensures |totals| == |samples| + 1 && totals[0] == 0.0 && totals[|samples|] == Total(samples)
    ensures forall i | 0 <= i < |samples| :: totals[i + 1] == totals[i] + samples[i].value
  {
    if samples == [] {
      totals := [0.0];
    } else {
      var n := |samples| - 1;
      totals := Totals(samples[..n]);
      totals := totals + [totals[n] + samples[n].value];
    }
  }

  lemma {:induction false} LowestMeans(samples: seq<Sample>)
    requires samples != []
    ensures forall s | s in samples :: Lowest(samples) <= s.value
    ensures exists s :: s in samples && s.value == Lowest(samples)
  {
    var n := |samples| - 1;
    AllButLast(samples);
    assert samples[n] in samples;
    if n > 0 {
      LowestMeans(samples[..n]);
    }
  }

  lemma {:induction false} HighestMeans(samples: seq<Sample>)
    requires samples != []
    ensures forall s | s in samples :: s.value <= Highest(samples)
    ensures exists s :: s in samples && s.value == Highest(samples)
  {
    var n := |samples| - 1;
    AllButLast(samples);
    assert samples[n] in samples;
    if n > 0 {
      HighestMeans(samples[..n]);
    }
  }

  predicate Counted(s: Sample, above: bool, bound: real) {
    if above then s.value > bound else s.value < bound
  }

  lemma {:induction false} CountMeans(samples: seq<Sample>, above: bool, bound: real)
    ensures CountOf(samples, above, bound) == |set i | 0 <= i < |samples| && Counted(samples[i], above, bound)|
  {
    if samples != [] {
      var n := |samples| - 1;
      var before := set i | 0 <= i < |samples[..n]| && Counted(samples[..n][i], above, bound);
      CountMeans(samples[..n], above, bound);
      assert (set i | 0 <= i < |samples| && Counted(samples[i], above, bound))
             == before + if Counted(samples[n], above, bound) then {n} else {};
    }
  }
}
