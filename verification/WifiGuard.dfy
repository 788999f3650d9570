/** The WiFi role of the appliance: one radio that is either an access point (the way in) or a client, a guard that
    brings the access point back, a fallback with retries, and the rescue of a switched-off radio. */
module WifiGuard {
  import opened Prelude

  const GUARD := 180.0
  const GRACE := 120.0
  const RETRY := 600.0
  const RESCUE := 300.0

  datatype Mode = ApMode | ClientMode

  /** What the radio carries; `Sta` is the daemon's own client profile, `Foreign` somebody else's. */
  datatype Link = NoLink | AccessPoint | Sta(online: bool) | Foreign(online: bool)

  /** The guard file; one that is there but does not parse is unreadable. */
  datatype Guard = Guard(named: bool, deadline: real) | Unreadable

  datatype Fallback = Fallback(active: bool, since: Option<real>, lastAttempt: real)

  const NO_FALLBACK := Fallback(false, None, 0.0)

  /** The persisted files and the radio. */
  datatype State = State(mode: Mode, fallback: Fallback, radioOffSince: Option<real>, guard: Option<Guard>,
                         radioOn: bool, link: Link)

  /** A failed attempt may have taken down what the radio carried. */
  datatype Attempt = Failed(dropped: bool) | Connected(online: bool)

  /** What one report finds: the clock, the hardware, and how the commands it may give will end. `later` is the clock
      when a guard is armed. */
  datatype Tick = Tick(now: real, later: real, readable: bool, present: bool, hardwareOn: bool, apExists: bool,
                       anyAddress: bool, wired: bool, staProfile: bool, apHasClients: bool,
                       radioOnWorks: bool, radioOffWorks: bool, upApWorks: bool, upSta: Attempt)

  predicate ClientOnline(link: Link) {
    (link.Sta? || link.Foreign?) && link.online
  }

  /** A way in: the access point, or a client connection with an address. */
  predicate Reachable(link: Link) {
    link.AccessPoint? || ClientOnline(link)
  }

  // ---- The report ----

  function UpAp(link: Link, works: bool): Link {
    if works then AccessPoint else link
  }

  function UpSta(link: Link, attempt: Attempt): Link {
    match attempt
    case Failed(dropped) => if dropped then NoLink else link
    case Connected(online) => Sta(online)
  }

  function DownSta(link: Link): Link {
    if link.Sta? then NoLink else link
  }

  /** The client profile goes down, the access point up. */
  function ApRestore(link: Link, works: bool): Link {
    UpAp(DownSta(link), works)
  }

  function GuardCheck(s: State, t: Tick): State {
    if s.guard in {None, Some(Unreadable)} then s
    else if !s.guard.value.named then s.(guard := None)
    else if t.readable && s.link == Sta(true) then s.(guard := None)
    else if t.now < s.guard.value.deadline then s
    else s.(guard := None, link := ApRestore(s.link, t.upApWorks))
  }

  /** A moment recorded as zero counts as not recorded. */
  predicate Recorded(since: Option<real>) {
    since.Some? && since.value != 0.0
  }

  function RadioRescue(s: State, t: Tick): State {
    if !t.present || s.radioOn then s.(radioOffSince := if Recorded(s.radioOffSince) then None else s.radioOffSince)
    else if !t.hardwareOn then s
    else if t.anyAddress then s.(radioOffSince := if Recorded(s.radioOffSince) then None else s.radioOffSince)
    else if !Recorded(s.radioOffSince) then s.(radioOffSince := Some(t.now))
    else if t.now - s.radioOffSince.value < RESCUE then s
    else if !t.radioOnWorks then s
    else s.(radioOn := true, radioOffSince := None)
  }

  predicate RetryDue(s: State, t: Tick) {
    t.now - s.fallback.lastAttempt >= RETRY && t.staProfile && !t.apHasClients
  }

  /** The saved network is tried again, behind a guard. */
  function RetrySta(s: State, t: Tick): State {
    var s1 := s.(fallback := s.fallback.(lastAttempt := t.now));
    match t.upSta
    case Failed(_) => s1.(link := ApRestore(UpSta(s.link, t.upSta), t.upApWorks))
    case Connected(online) => s1.(link := Sta(online), guard := if online then None else Some(Guard(true, t.later + GUARD)))
  }

  function EnforceClient(s: State, t: Tick): State {
    if ClientOnline(s.link) then
      if s.fallback.active || s.fallback.since.Some? then s.(fallback := NO_FALLBACK) else s
    else if s.fallback.since.None? then s.(fallback := s.fallback.(since := Some(t.now)))
    else if t.now - s.fallback.since.value < GRACE then s
    else if !s.link.AccessPoint? then
      if t.upApWorks then s.(link := AccessPoint, fallback := s.fallback.(active := true)) else s
    else if RetryDue(s, t) then RetrySta(s, t)
    else s
  }

  function EnforceMode(s: State, t: Tick): State {
    if s.guard.Some? || !t.present || !s.radioOn || !t.apExists then s
    else if s.mode.ApMode? then
      if Reachable(s.link) then s else s.(link := UpAp(s.link, t.upApWorks))
    else EnforceClient(s, t)
  }

  /** When the devices cannot be read, only the guard is checked. */
  function Report(s: State, t: Tick): State {
    var s1 := GuardCheck(s, t);
    if t.readable then EnforceMode(RadioRescue(s1, t), t) else s1
  }

  // ---- Always a way in, or a bounded wait ----

  /** The conditions under which the daemon can do its work. */
  predicate Normal(s: State, t: Tick) {
    t.readable && t.present && s.radioOn && t.apExists && t.upApWorks && t.now <= t.later
  }

  /** A guard that a report at `now` waits for. One that cannot be read is waited for without end. */
  predicate Holds(guard: Option<Guard>, now: real) {
    guard.Some? && (guard.value.Unreadable? || (guard.value.named && now < guard.value.deadline))
  }

  predicate Guarded(s: State, now: real) {
    s.guard != Some(Unreadable) && Holds(s.guard, now)
  }

  predicate InGrace(s: State, now: real) {
    && s.guard.None? && s.mode.ClientMode? && s.fallback.since.Some?
    && now - s.fallback.since.value < GRACE
  }

  /** Whatever state a report finds, it leaves a way in, or a guard that has not run out, or a client in its grace; but not
      behind an unreadable guard: there it leaves a way in exactly if it finds one. */
  lemma {:induction false} ReportLeavesWayIn(s: State, t: Tick)
    requires Normal(s, t)
    ensures var s' := Report(s, t);
            if s.guard == Some(Unreadable) then s'.link == s.link && s'.guard == s.guard
            else Reachable(s'.link) || Guarded(s', t.now) || InGrace(s', t.now)
  {
  }

  /** In access-point mode without a guard there is nothing to wait for. */
  lemma {:induction false} ApModeIsImmediate(s: State, t: Tick)
    requires Normal(s, t) && s.mode.ApMode? && !Holds(s.guard, t.now)
    ensures Reachable(Report(s, t).link)
  {
  }

  // ---- Requests ----

  datatype Request =
    | ModeRequest(mode: Mode)
    | ConnectRequest
    | ForgetRequest
    | RadioRequest(on: bool)
    | ScanRequest(deep: bool)

  function SetMode(s: State, mode: Mode): State {
    s.(mode := mode, fallback := NO_FALLBACK)
  }

  function ToAp(s: State, t: Tick): State {
    if !t.apExists then s
    else if t.upApWorks then SetMode(s, ApMode).(guard := None, link := AccessPoint)
    else SetMode(SetMode(s, ApMode), ClientMode).(guard := None, link := UpSta(s.link, t.upSta))
  }

  function ToClient(s: State, t: Tick): State {
    if !t.staProfile then s
    else
      var s1 := SetMode(s, ClientMode);
      match t.upSta
      case Failed(_) => SetMode(s1, ApMode).(guard := None, link := ApRestore(UpSta(s.link, t.upSta), t.upApWorks))
      case Connected(online) => s1.(link := Sta(online), guard := if online then None else Some(Guard(true, t.later + GUARD)))
  }

  /** A new network: the old profile goes, the guard is armed, then the connection is made. */
  function Connect(s: State, t: Tick): State {
    match t.upSta
    case Failed(_) => s.(guard := None, link := ApRestore(UpSta(DownSta(s.link), t.upSta), t.upApWorks))
    case Connected(online) =>
      SetMode(s, ClientMode).(link := Sta(online), guard := if online then None else Some(Guard(true, t.later + GUARD)))
  }

  function Forget(s: State, t: Tick): State {
    SetMode(s, ApMode).(guard := None, link := ApRestore(DownSta(s.link), t.upApWorks))
  }

  /** The radio is switched off only if a cable leads to the device. */
  function SwitchRadio(s: State, on: bool, t: Tick): State {
    if on && t.hardwareOn && t.radioOnWorks then s.(radioOn := true, radioOffSince := None)
    else if !on && t.wired && t.radioOffWorks then s.(radioOn := false, radioOffSince := None, link := NoLink)
    else s
  }

  /** While it is up, the access point goes down for a deep scan, and up again. */
  function DeepScan(s: State, t: Tick): State {
    if s.link.AccessPoint? then s.(link := UpAp(NoLink, t.upApWorks)) else s
  }

  function Serve(s: State, r: Request, t: Tick): State {
    if !t.present then s
    else match r
      case ModeRequest(mode) => if !s.radioOn then s else if mode.ApMode? then ToAp(s, t) else ToClient(s, t)
      case ConnectRequest => if !s.radioOn then s else Connect(s, t)
      case ForgetRequest => Forget(s, t)
      case RadioRequest(on) => SwitchRadio(s, on, t)
      case ScanRequest(deep) => if s.radioOn && deep then DeepScan(s, t) else s
  }

  /** After a request the daemon has a way in, or a guard, or a cable; or the request was refused, or asked for a radio
      that was on. */
  lemma {:induction false} RequestLeavesWayIn(s: State, r: Request, t: Tick)
    requires Normal(s, t)
    ensures var s' := Serve(s, r, t);
            || Reachable(s'.link) || Guarded(s', t.now)
            || (r == RadioRequest(false) && t.wired && !s'.radioOn)
            || s' == s || s' == s.(radioOffSince := None)
  {
  }

  // ---- How long the wait can be ----

  /** What the radio carries when a report comes, and what the report finds. */
  datatype Round = Round(link: Link, tick: Tick)

  function Turn(s: State, r: Round): State {
    Report(s.(link := r.link), r.tick)
  }

  /** The state after each round. */
  function Trace(s: State, rounds: seq<Round>): (trace: seq<State>)
    ensures |trace| == |rounds| + 1 && trace[0] == s
  {
    if |rounds| == 0 then [s] else
      var before := Trace(s, rounds[..|rounds| - 1]);
      before + [Turn(before[|before| - 1], rounds[|rounds| - 1])]
  }

  lemma {:induction false} TraceStep(s: State, rounds: seq<Round>, i: nat)
    requires i < |rounds|
    ensures Trace(s, rounds)[i + 1] == Turn(Trace(s, rounds)[i], rounds[i])
  {
    var n := |rounds| - 1;
    if i < n {
      TraceStep(s, rounds[..n], i);
    }
  }

  predicate DarkRound(r: Round) {
    && r.tick.readable && r.tick.present && r.tick.apExists && r.tick.upApWorks && r.tick.now <= r.tick.later
    && !ClientOnline(r.link) && r.tick.upSta != Connected(true)
  }

  /** Working hardware, a clock that does not go back, and no client connection that ever comes online. */
  predicate Dark(rounds: seq<Round>) {
    && (forall i | 0 <= i < |rounds| :: DarkRound(rounds[i]))
    && (forall i, j | 0 <= i < j < |rounds| :: rounds[i].tick.now <= rounds[j].tick.now)
  }

  /** The report tries the saved network again. */
  predicate StartsRetry(s: State, r: Round) {
    var s1 := GuardCheck(s.(link := r.link), r.tick);
    var s2 := RadioRescue(s1, r.tick);
    && r.tick.readable && r.tick.present && r.tick.apExists && s2.radioOn
    && s2.guard.None? && s2.mode.ClientMode? && s2.link.AccessPoint?
    && s2.fallback.since.Some? && r.tick.now - s2.fallback.since.value >= GRACE && RetryDue(s2, r.tick)
  }

  /** How many of the first reports wait for the guard. */
  function Waited(guard: Option<Guard>, rounds: seq<Round>): (w: nat)
    ensures w <= |rounds|
    ensures forall i | 0 <= i < w :: Holds(guard, rounds[i].tick.now)
    ensures w < |rounds| ==> !Holds(guard, rounds[w].tick.now)
  {
    if |rounds| == 0 then 0 else
      var n := |rounds| - 1;
      var w := Waited(guard, rounds[..n]);
      if w == n && Holds(guard, rounds[n].tick.now) then n + 1 else w
  }

  /** A report that waits for the guard changes neither the guard nor the fallback, nor touches the radio. */
  lemma {:induction false} WaitingTurn(s: State, r: Round)
    requires DarkRound(r) && s.radioOn && Holds(s.guard, r.tick.now)
    ensures Turn(s, r).(radioOffSince := None) == s.(link := r.link, radioOffSince := None)
    ensures !StartsRetry(s, r)
  {
  }

  /** In access-point mode any other report opens the access point. */
  lemma {:induction false} ApTurn(s: State, r: Round)
    requires DarkRound(r) && s.radioOn && !Holds(s.guard, r.tick.now) && s.mode.ApMode?
    ensures Turn(s, r).(radioOffSince := None) == s.(link := AccessPoint, guard := None, radioOffSince := None)
    ensures !StartsRetry(s, r)
  {
  }

  predicate Unnamed(guard: Guard) {
    guard.Guard? && !guard.named
  }

  /** In client mode it opens the access point, or is within the grace, or starts a retry. If a named guard has run out,
      it opens the access point at once. */
  lemma {:induction false} ClientTurn(s: State, r: Round)
    requires DarkRound(r) && s.radioOn && !Holds(s.guard, r.tick.now) && s.mode.ClientMode?
    ensures var s' := Turn(s, r);
            var since := if s.fallback.since.Some? then s.fallback.since.value else r.tick.now;
            && s'.radioOn && s'.mode == s.mode && s'.fallback.since == Some(since)
            && if StartsRetry(s, r) then
                 && s.fallback.since.Some? && s'.fallback.lastAttempt == r.tick.now
                 && (if r.tick.upSta.Connected? then s'.guard == Some(Guard(true, r.tick.later + GUARD))
                     else s'.guard.None? && s'.link.AccessPoint?)
               else
                 && s'.guard.None? && s'.fallback.lastAttempt == s.fallback.lastAttempt
                 && (s'.link.AccessPoint? || (r.tick.now - since < GRACE && (s.guard.None? || Unnamed(s.guard.value))))
  {
    var s1 := GuardCheck(s.(link := r.link), r.tick);
    assert RadioRescue(s1, r.tick).(radioOffSince := None) == s1.(radioOffSince := None);
  }

  /** When the last retry, if any, began. */
  function LastRetry(s: State, rounds: seq<Round>): Option<Tick> {
    if |rounds| == 0 then None else
      var n := |rounds| - 1;
      if StartsRetry(Trace(s, rounds[..n])[n], rounds[n]) then Some(rounds[n].tick) else LastRetry(s, rounds[..n])
  }

  /** When the grace began: as recorded at first, or at the first report that does not wait for the guard. */
  function GraceFrom(s: State, rounds: seq<Round>): real
    requires Waited(s.guard, rounds) < |rounds|
  {
    if s.fallback.since.Some? then s.fallback.since.value else rounds[Waited(s.guard, rounds)].tick.now
  }

  /** Where a dark run has come to. */
  predicate Accounted(s: State, rounds: seq<Round>, end: State) {
    var w := Waited(s.guard, rounds);
    var retry := LastRetry(s, rounds);
    && end.radioOn && end.mode == s.mode
    && if w == |rounds| then
         && end.guard == s.guard && end.fallback == s.fallback && retry.None?
         && end.link == (if rounds == [] then s.link else rounds[w - 1].link)
       else if s.mode.ApMode? then
         end.guard.None? && end.fallback == s.fallback && retry.None? && end.link.AccessPoint?
       else
         var now := rounds[|rounds| - 1].tick.now;
         && end.fallback.since == Some(GraceFrom(s, rounds))
         && (end.guard.Some? ==> retry.Some? && retry.value.upSta.Connected?
                                 && end.guard.value == Guard(true, retry.value.later + GUARD))
         && (end.link.AccessPoint? || Holds(end.guard, now) || now - GraceFrom(s, rounds) < GRACE)
  }

  lemma {:induction false} Account(s: State, before: seq<Round>, r: Round, mid: State, end: State)
    requires mid == Trace(s, before)[|before|] && end == Turn(mid, r)
    requires DarkRound(r) && Accounted(s, before, mid)
    ensures Accounted(s, before + [r], end)
  {
    var rounds := before + [r];
    assert rounds[..|before|] == before && rounds[|before|] == r;
    if Holds(mid.guard, r.tick.now) {
      WaitingTurn(mid, r);
    } else if s.mode.ApMode? {
      ApTurn(mid, r);
    } else {
      ClientTurn(mid, r);
    }
  }

  lemma {:induction false} DarkPrefix(rounds: seq<Round>)
    requires Dark(rounds) && rounds != []
    ensures Dark(rounds[..|rounds| - 1]) && DarkRound(rounds[|rounds| - 1])
  {
  }

  lemma {:induction false} DarkTrace(s: State, rounds: seq<Round>)
    requires Dark(rounds) && s.radioOn
    ensures Accounted(s, rounds, Trace(s, rounds)[|rounds|])
  {
    if rounds != [] {
      var n := |rounds| - 1;
      var before, r := rounds[..n], rounds[n];
      DarkPrefix(rounds);
      DarkTrace(s, before);
      TraceStep(s, rounds, n);
      assert rounds == before + [r];
      Account(s, before, r, Trace(s, before)[n], Turn(Trace(s, before)[n], r));
    }
  }

  /** The recovery bound, for any state to begin with. While no client comes online, after every report
      - either the guard is still the first one, and that report and all before it came before its deadline (all reports do
        if it cannot be read);
      - or the access point is up, except for less than the guard period after a retry that connected, and in client
        mode for less than the grace period since the link was found offline: as recorded at first, or at the first
        report after the guard. */
  lemma {:induction false} RecoveryBound(s: State, rounds: seq<Round>)
    requires Dark(rounds) && s.radioOn && rounds != []
    ensures var end := Trace(s, rounds)[|rounds|];
            var now := rounds[|rounds| - 1].tick.now;
            var retry := LastRetry(s, rounds);
            if Waited(s.guard, rounds) == |rounds| then
              Holds(s.guard, now) && end.guard == s.guard && end.fallback == s.fallback && retry.None?
            else
              || end.link.AccessPoint?
              || (s.mode.ClientMode? && retry.Some? && retry.value.upSta.Connected? && now < retry.value.later + GUARD)
              || (s.mode.ClientMode? && now - GraceFrom(s, rounds) < GRACE)
  {
    DarkTrace(s, rounds);
  }

  /** A guard file that does not parse stops the enforcement for good: whatever the reports find, they leave the guard, the
      role and the radio's link alone, until a request replaces the file. */
  lemma {:induction false} UnreadableGuardStops(s: State, rounds: seq<Round>)
    requires s.guard == Some(Unreadable) && rounds != []
    ensures var end := Trace(s, rounds)[|rounds|];
            end.guard == s.guard && end.mode == s.mode && end.fallback == s.fallback && end.link == rounds[|rounds| - 1].link
  {
    var n := |rounds| - 1;
    TraceStep(s, rounds, n);
    if n > 0 {
      UnreadableGuardStops(s, rounds[..n]);
      TracePrefix(s, rounds, n);
    }
  }

  /** The first report at or after the deadline opens the access point and takes the guard away. Only if the link had
      been found offline before, longer than the grace ago, a retry can be due at once; otherwise the grace begins now. */
  lemma {:induction false} DeadlineOpensAp(s: State, rounds: seq<Round>)
    requires Dark(rounds) && s.radioOn && s.guard.Some? && s.guard.value.Guard? && s.guard.value.named
    requires Waited(s.guard, rounds) == |rounds| - 1
    ensures var end := Trace(s, rounds)[|rounds|];
            var now := rounds[|rounds| - 1].tick.now;
            && (s.fallback.since.None? || LastRetry(s, rounds).None? ==> end.link.AccessPoint? && end.guard.None?)
            && (s.mode.ClientMode? && s.fallback.since.None? ==> end.fallback.since == Some(now))
            && (LastRetry(s, rounds).Some? ==>
                  s.mode.ClientMode? && s.fallback.since.Some? && now - s.fallback.since.value >= GRACE)
  {
    var n := |rounds| - 1;
    var mid := Trace(s, rounds[..n])[n];
    assert forall i | 0 <= i < n :: rounds[..n][i] == rounds[i];
    AllWait(s.guard, rounds);
    DarkTrace(s, rounds[..n]);
    TraceStep(s, rounds, n);
    if s.mode.ApMode? {
      ApTurn(mid, rounds[n]);
    } else {
      ClientTurn(mid, rounds[n]);
    }
  }

  lemma {:induction false} AllWait(guard: Option<Guard>, rounds: seq<Round>)
    requires |rounds| > 0 && Waited(guard, rounds) == |rounds| - 1
    ensures Waited(guard, rounds[..|rounds| - 1]) == |rounds| - 1
  {
    var n := |rounds| - 1;
    assert forall i | 0 <= i < n :: rounds[..n][i] == rounds[i] && Holds(guard, rounds[i].tick.now);
  }

  /** From a report on that does not wait for the guard, the access point is up at the latest after the grace, but for the
      retries; in access-point mode at once. */
  lemma {:induction false} RecoveredByThen(s: State, rounds: seq<Round>, k: nat)
    requires Dark(rounds) && s.radioOn && k < |rounds| && !Holds(s.guard, rounds[k].tick.now)
    requires s.fallback.since.Some? ==> s.fallback.since.value <= rounds[k].tick.now
    ensures var now := rounds[|rounds| - 1].tick.now;
            var retry := LastRetry(s, rounds);
            || Trace(s, rounds)[|rounds|].link.AccessPoint?
            || (s.mode.ClientMode? && retry.Some? && retry.value.upSta.Connected? && now < retry.value.later + GUARD)
            || (s.mode.ClientMode? && now - rounds[k].tick.now < GRACE)
  {
    RecoveryBound(s, rounds);
    assert Waited(s.guard, rounds) <= k;
  }

  // ---- Retries ----

  /** A report, or a request that comes in between. */
  datatype Event = Look(round: Round) | Ask(link: Link, request: Request, tick: Tick)

  function After(s: State, e: Event): State {
    match e
    case Look(r) => Turn(s, r)
    case Ask(link, request, tick) => Serve(s.(link := link), request, tick)
  }

  function States(s: State, events: seq<Event>): (states: seq<State>)
    ensures |states| == |events| + 1 && states[0] == s
    decreases |events|
  {
    if |events| == 0 then [s] else [s] + States(After(s, events[0]), events[1..])
  }

  predicate Retries(s: State, e: Event) {
    e.Look? && StartsRetry(s, e.round)
  }

  /** The report reaches the enforcement of client mode and finds a client online; or the request is carried out and changes
      the role. */
  predicate Forgets(s: State, e: Event) {
    match e
    case Look(r) =>
      var s2 := RadioRescue(GuardCheck(s.(link := r.link), r.tick), r.tick);
      && r.tick.readable && r.tick.present && r.tick.apExists && s2.radioOn && s2.guard.None? && s2.mode.ClientMode?
      && ClientOnline(s2.link)
    case Ask(_, request, t) => t.present && ChangesRole(s, request, t)
  }

  predicate ChangesRole(s: State, request: Request, t: Tick) {
    match request
    case ModeRequest(mode) => s.radioOn && if mode.ApMode? then t.apExists else t.staProfile
    case ConnectRequest => s.radioOn && t.upSta.Connected?
    case ForgetRequest => true
    case RadioRequest(_) => false
    case ScanRequest(_) => false
  }

  function Clock(e: Event): real {
    if e.Look? then e.round.tick.now else e.tick.now
  }

  lemma {:induction false} AttemptStep(s: State, e: Event)
    ensures Retries(s, e) ==>
              After(s, e).fallback.lastAttempt == Clock(e) && Clock(e) - s.fallback.lastAttempt >= RETRY
    ensures !Retries(s, e) && !Forgets(s, e) ==> After(s, e).fallback.lastAttempt == s.fallback.lastAttempt
  {
  }

  lemma {:induction false} StatesTail(s: State, events: seq<Event>, i: nat)
    requires 0 < i <= |events|
    ensures States(s, events)[i] == States(After(s, events[0]), events[1..])[i - 1]
  {
  }

  /** After an attempt at `from`, or later, the next retry is spaced from it. */
  lemma {:induction false} SpacedFrom(s: State, events: seq<Event>, from: real, j: nat)
    requires j < |events| && s.fallback.lastAttempt >= from
    requires Retries(States(s, events)[j], events[j])
    requires forall m | 0 <= m < j :: !Forgets(States(s, events)[m], events[m])
    ensures Clock(events[j]) - from >= RETRY
    decreases j
  {
    AttemptStep(s, events[0]);
    if j > 0 {
      var s' := After(s, events[0]);
      assert !Forgets(States(s, events)[0], events[0]);
      forall m | 0 <= m < j - 1
        ensures !Forgets(States(s', events[1..])[m], events[1..][m])
      {
        StatesTail(s, events, m + 1);
        assert !Forgets(States(s, events)[m + 1], events[m + 1]);
      }
      StatesTail(s, events, j);
      SpacedFrom(s', events[1..], from, j - 1);
    }
  }

  /** In every run, whatever the links, the hardware, the clock and the requests: two retries are at least the retry period
      apart, unless between them a report that enforced client mode found a client online, or a request that was carried out
      changed the role. */
  lemma {:induction false} RetriesAreSpaced(s: State, events: seq<Event>, i: nat, j: nat)
    requires i < j < |events|
    requires Retries(States(s, events)[i], events[i]) && Retries(States(s, events)[j], events[j])
    requires forall m | i < m < j :: !Forgets(States(s, events)[m], events[m])
    ensures Clock(events[j]) - Clock(events[i]) >= RETRY
  {
    var states := States(s, events);
    StatesSuffix(s, events, i);
    StatesSuffix(s, events, i + 1);
    AttemptStep(states[i], events[i]);
    var later := events[i + 1..];
    forall m | 0 <= m < j - i - 1
      ensures !Forgets(States(states[i + 1], later)[m], later[m])
    {
      assert states[i + 1..][m] == states[i + 1 + m] && later[m] == events[i + 1 + m];
    }
    SpacedFrom(states[i + 1], later, Clock(events[i]), j - i - 1);
  }

  lemma {:induction false} StatesSuffix(s: State, events: seq<Event>, i: nat)
    requires i <= |events|
    ensures States(s, events)[i..] == States(States(s, events)[i], events[i..])
    ensures i < |events| ==> States(s, events)[i + 1] == After(States(s, events)[i], events[i])
    decreases i
  {
    if i > 0 {
      StatesSuffix(After(s, events[0]), events[1..], i - 1);
      assert events[1..][i - 1..] == events[i..];
    } else {
      assert events[0..] == events;
    }
  }

  // ---- The role ----

  /** What becomes of the role. A carried-out request for a role ends in it if the connection it needs can be made, and in
      the other one if not, with the record of offline times and attempts cleared; a connection that is made means client,
      one that fails changes nothing; forgetting the network means access point. Whatever is refused, scans and the radio's
      switch leave the role alone. */
  lemma {:induction false} RoleFollowsRequest(s: State, r: Request, t: Tick)
    ensures var s' := Serve(s, r, t);
            match r
            case ModeRequest(ApMode) =>
              if t.present && s.radioOn && t.apExists then
                s'.mode == (if t.upApWorks then ApMode else ClientMode) && s'.fallback == Fallback(false, None, 0.0)
              else s' == s
            case ModeRequest(ClientMode) =>
              if t.present && s.radioOn && t.staProfile then
                s'.mode == (if t.upSta.Connected? then ClientMode else ApMode) && s'.fallback == Fallback(false, None, 0.0)
              else s' == s
            case ConnectRequest =>
              if t.present && s.radioOn && t.upSta.Connected? then s'.mode == ClientMode && s'.fallback == Fallback(false, None, 0.0)
              else s'.mode == s.mode && s'.fallback == s.fallback
            case ForgetRequest =>
              if t.present then s'.mode == ApMode && s'.fallback == Fallback(false, None, 0.0) else s' == s
            case RadioRequest(_) => s'.mode == s.mode && s'.fallback == s.fallback
            case ScanRequest(_) => s'.mode == s.mode && s'.fallback == s.fallback
  {
  }

  /** What becomes of the radio, when its commands work: it carries what was asked for, or the access point again. */
  lemma {:induction false} LinkFollowsRequest(s: State, r: Request, t: Tick)
    requires t.present && s.radioOn && t.apExists && t.staProfile && t.upApWorks
    ensures var s' := Serve(s, r, t);
            match r
            case ModeRequest(ApMode) => s'.link.AccessPoint? && s'.guard.None?
            case ModeRequest(ClientMode) => s'.link == if t.upSta.Connected? then Sta(t.upSta.online) else AccessPoint
            case ConnectRequest => s'.link == if t.upSta.Connected? then Sta(t.upSta.online) else AccessPoint
            case ForgetRequest => s'.link.AccessPoint? && s'.guard.None?
            case RadioRequest(on) =>
              && s'.radioOn == (on || !t.wired || !t.radioOffWorks)
              && s'.link == if s'.radioOn then s.link else NoLink
            case ScanRequest(_) => s'.link == s.link && s'.guard == s.guard
  {
  }

  /** No report touches the role. */
  lemma {:induction false} ReportKeepsRole(s: State, t: Tick)
    ensures Report(s, t).mode == s.mode
  {
  }

  /** In access-point mode no report starts a retry, until a request for a role or a network comes. */
  lemma {:induction false} ApNeverRetries(s: State, events: seq<Event>, j: nat)
    requires s.mode.ApMode? && j < |events|
    requires forall m | 0 <= m < j && events[m].Ask? :: !events[m].request.ModeRequest? && !events[m].request.ConnectRequest?
    ensures States(s, events)[j].mode.ApMode? && !Retries(States(s, events)[j], events[j])
    decreases j
  {
    if j > 0 {
      var s' := After(s, events[0]);
      match events[0] {
        case Look(r) => ReportKeepsRole(s.(link := r.link), r.tick);
        case Ask(link, request, t) => RoleFollowsRequest(s.(link := link), request, t);
      }
      assert s'.mode.ApMode?;
      StatesTail(s, events, j);
      ApNeverRetries(s', events[1..], j - 1);
    }
  }

  /** So a carried-out switch to access-point mode that works is the end of retries, until such a request. */
  lemma {:induction false} SwitchEndsRetries(s: State, link: Link, t: Tick, later: seq<Event>, j: nat)
    requires t.present && s.radioOn && t.apExists && t.upApWorks && j < |later|
    requires forall m | 0 <= m < j && later[m].Ask? :: !later[m].request.ModeRequest? && !later[m].request.ConnectRequest?
    ensures var switched := After(s, Ask(link, ModeRequest(ApMode), t));
            && switched.link.AccessPoint? && switched.guard.None?
            && !Retries(States(switched, later)[j], later[j])
  {
    RoleFollowsRequest(s.(link := link), ModeRequest(ApMode), t);
    ApNeverRetries(After(s, Ask(link, ModeRequest(ApMode), t)), later, j);
  }

  // ---- What a report spares ----

  /** Who is cut off by a report, and when: only a link that a guard which has run out was watching, or that is no way in
      although access-point mode asks for one; in client mode a network that has been offline for the grace, or an access
      point without clients that has stood for the time between two tries, when there is a network to try. */
  lemma {:induction false} ReportSparesLink(s: State, t: Tick)
    requires Report(s, t).link != s.link
    ensures || (s.guard.Some? && s.guard.value.Guard? && s.guard.value.named && s.guard.value.deadline <= t.now
                && !(t.readable && s.link == Sta(true)))
            || (&& t.readable && t.present && t.apExists && Report(s, t).radioOn && !ClientOnline(s.link)
                && if s.mode.ApMode? then !s.link.AccessPoint?
                   else && s.fallback.since.Some? && s.fallback.since.value + GRACE <= t.now
                        && (s.link.AccessPoint? ==>
                              s.fallback.lastAttempt + RETRY <= t.now && t.staProfile && !t.apHasClients))
  {
    var s1 := GuardCheck(s, t);
    if s1.link == s.link {
      var s2 := RadioRescue(s1, t);
      assert s2.link == s.link && s2.fallback == s.fallback && s2.mode == s.mode;
      assert t.readable && EnforceMode(s2, t).link != s2.link;
      assert s2.radioOn && EnforceMode(s2, t).radioOn;
      assert s2.guard.None?;
      assert s.mode.ApMode? ==> !Reachable(s.link);
      assert !ClientOnline(s.link);
    } else {
      assert s.guard.Some? && s.guard.value.Guard?;
    }
  }

  /** A radio that is off is switched on by a report exactly if that is possible, no interface has an address, and it was
      found so a rescue period ago; one that is on stays on. */
  lemma {:induction false} RescuedExactly(s: State, t: Tick)
    ensures Report(s, t).radioOn <==>
            || s.radioOn
            || (&& t.readable && t.present && t.hardwareOn && !t.anyAddress && t.radioOnWorks
                && s.radioOffSince.Some? && s.radioOffSince.value != 0.0 && s.radioOffSince.value + RESCUE <= t.now)
  {
  }

  /** The record that client mode keeps: cleared by a client that is online, begun at the first report that finds none, and
      marked as a fallback when the access point takes over. */
  lemma {:induction false} RecordFollowsLink(s: State, t: Tick)
    requires s.mode.ClientMode? && s.guard.None? && t.readable && t.present && s.radioOn && t.apExists
    ensures var s' := Report(s, t);
            if ClientOnline(s.link) then
              s'.link == s.link && !s'.fallback.active && s'.fallback.since.None?
            else if s.fallback.since.None? then
              s'.link == s.link && s'.fallback == s.fallback.(since := Some(t.now))
            else
              && s'.fallback.since == s.fallback.since
              && (s.fallback.since.value + GRACE <= t.now && !s.link.AccessPoint? && t.upApWorks ==>
                    s'.link.AccessPoint? && s'.fallback.active)
              && (s'.fallback.active ==> s.fallback.active || s'.link.AccessPoint?)
  {
  }

  /** The radio's switch: off only with a cable, on only if nothing holds it off; either only if the command works, and then
      the wait for a rescue begins anew. */
  lemma {:induction false} RadioFollowsRequest(s: State, on: bool, t: Tick)
    ensures var s' := Serve(s, RadioRequest(on), t);
            && (s'.radioOn <==> if !t.present then s.radioOn
                                else if on then s.radioOn || (t.hardwareOn && t.radioOnWorks)
                                else s.radioOn && !(t.wired && t.radioOffWorks))
            && (s'.link != s.link ==> !s'.radioOn && s'.link.NoLink?)
            && s'.guard == s.guard && s'.mode == s.mode
            && s'.radioOffSince == if t.present && (if on then t.hardwareOn && t.radioOnWorks else t.wired && t.radioOffWorks)
                                   then None else s.radioOffSince
  {
  }

  // A run in which a link that comes up briefly lifts the spacing.

  /** A report at `now` on a device whose commands succeed. */
  function PlainTick(now: real): Tick {
    Tick(now, now, true, true, true, true, false, false, true, false, true, true, true, Connected(true))
  }

  function Plain(link: Link, now: real): Event {
    Look(Round(link, PlainTick(now)))
  }

  /** A retry at 1000 connects; the next report sees it; the one after finds the link lost; after the grace the access
      point is up again, and at 1210 the next retry starts, 210 seconds after the first. */
  lemma {:induction false} BriefLinkForgets() returns (s: State, events: seq<Event>)
    ensures |events| == 5 && s.mode.ClientMode?
    ensures Retries(States(s, events)[0], events[0]) && Retries(States(s, events)[4], events[4])
    ensures Clock(events[4]) - Clock(events[0]) < RETRY
    ensures forall m | 0 < m < 4 :: Forgets(States(s, events)[m], events[m]) ==> m == 1
  {
    s := State(ClientMode, Fallback(true, Some(100.0), 0.0), None, None, true, AccessPoint);
    events := [Plain(AccessPoint, 1000.0), Plain(Sta(true), 1030.0), Plain(NoLink, 1060.0), Plain(NoLink, 1180.0),
               Plain(AccessPoint, 1210.0)];
    var s1 := After(s, events[0]);
    var s2 := After(s1, events[1]);
    var s3 := After(s2, events[2]);
    var s4 := After(s3, events[3]);
    assert s1.fallback == Fallback(true, Some(100.0), 1000.0) && s1.guard.None?;
    assert s2.fallback == NO_FALLBACK && s2.guard.None?;
    assert s3.fallback == Fallback(false, Some(1060.0), 0.0) && s3.guard.None?;
    assert s4.fallback == Fallback(true, Some(1060.0), 0.0) && s4.guard.None?;
    StatesFive(s, events);
  }

  lemma {:induction false} StatesFive(s: State, events: seq<Event>)
    requires |events| == 5
    ensures var states := States(s, events);
            && states[1] == After(s, events[0]) && states[2] == After(states[1], events[1])
            && states[3] == After(states[2], events[2]) && states[4] == After(states[3], events[3])
  {
    var s1 := After(s, events[0]);
    var s2 := After(s1, events[1]);
    var s3 := After(s2, events[2]);
    assert States(s1, events[1..])[1] == After(s1, events[1]) by {
      assert events[1..][0] == events[1];
    }
    assert States(s2, events[1..][1..])[1] == After(s2, events[2]);
    assert States(s3, events[1..][1..][1..])[1] == After(s3, events[3]);
  }

  // ---- The radio itself ----

  lemma {:induction false} TracePrefix(s: State, rounds: seq<Round>, i: nat)
    requires i <= |rounds|
    ensures Trace(s, rounds[..i])[i] == Trace(s, rounds)[i]
    decreases |rounds|
  {
    if i == |rounds| {
      assert rounds[..i] == rounds;
    } else {
      var n := |rounds| - 1;
      assert rounds[..n][..i] == rounds[..i];
      TracePrefix(s, rounds[..n], i);
    }
  }

  predicate Cut(t: Tick) {
    t.readable && t.present && t.hardwareOn && !t.anyAddress && t.radioOnWorks
  }

  /** A radio that is switched off while no interface has an address is on again by the first report the rescue period
      after the first one that found it so, and in access-point mode the access point is up with it. */
  lemma {:induction false} RescueBound(s: State, rounds: seq<Round>)
    requires !s.radioOn && !Recorded(s.radioOffSince) && rounds != []
    requires forall i | 0 <= i < |rounds| :: Cut(rounds[i].tick)
    requires forall i, j | 0 <= i < j < |rounds| :: 0.0 < rounds[i].tick.now <= rounds[j].tick.now
    requires rounds[|rounds| - 1].tick.now > 0.0
    requires forall i | 0 <= i < |rounds| - 1 :: rounds[i].tick.now - rounds[0].tick.now < RESCUE
    ensures var end := Trace(s, rounds)[|rounds|];
            if |rounds| > 1 && rounds[|rounds| - 1].tick.now - rounds[0].tick.now >= RESCUE
            then end.radioOn else !end.radioOn && end.radioOffSince == Some(rounds[0].tick.now)
  {
    var n := |rounds| - 1;
    TraceStep(s, rounds, n);
    if n > 0 {
      TracePrefix(s, rounds, n);
      RescueBound(s, rounds[..n]);
    }
    CutTurn(Trace(s, rounds)[n], rounds[n]);
  }

  /** However the radio came to be off, and whatever was on record: if no interface has an address from some report on, it is
      on again by the first report the rescue period later, and stays on. */
  lemma {:induction false} RadioComesBack(s: State, rounds: seq<Round>)
    requires |rounds| > 1 && rounds[|rounds| - 1].tick.now - rounds[0].tick.now >= RESCUE
    requires forall i | 0 <= i < |rounds| :: Cut(rounds[i].tick)
    requires forall i, j | 0 <= i < j < |rounds| :: 0.0 < rounds[i].tick.now <= rounds[j].tick.now
    requires s.radioOn || (Recorded(s.radioOffSince) ==> s.radioOffSince.value <= rounds[0].tick.now)
    ensures Trace(s, rounds)[|rounds|].radioOn
  {
    var n := |rounds| - 1;
    OffIsRecorded(s, rounds[..n]);
    TraceStep(s, rounds, n);
    TracePrefix(s, rounds, n);
    CutTurn(Trace(s, rounds)[n], rounds[n]);
  }

  /** While the radio stays off, the time is on record from the first report at the latest. */
  lemma {:induction false} OffIsRecorded(s: State, rounds: seq<Round>)
    requires rounds != [] && forall i | 0 <= i < |rounds| :: Cut(rounds[i].tick)
    requires rounds[0].tick.now > 0.0
    requires s.radioOn || (Recorded(s.radioOffSince) ==> s.radioOffSince.value <= rounds[0].tick.now)
    ensures var end := Trace(s, rounds)[|rounds|];
            end.radioOn || (Recorded(end.radioOffSince) && end.radioOffSince.value <= rounds[0].tick.now)
  {
    var n := |rounds| - 1;
    TraceStep(s, rounds, n);
    if n > 0 {
      OffIsRecorded(s, rounds[..n]);
      TracePrefix(s, rounds, n);
    }
    CutTurn(Trace(s, rounds)[n], rounds[n]);
  }

  lemma {:induction false} CutTurn(s: State, r: Round)
    requires Cut(r.tick)
    ensures s.radioOn ==> Turn(s, r).radioOn
    ensures !s.radioOn ==>
              var s' := Turn(s, r);
              if !Recorded(s.radioOffSince) then !s'.radioOn && s'.radioOffSince == Some(r.tick.now)
              else if r.tick.now - s.radioOffSince.value < RESCUE then !s'.radioOn && s'.radioOffSince == s.radioOffSince
              else s'.radioOn
  {
  }

  /** With the radio comes the way in. */
  lemma {:induction false} RescueOpensWayIn(s: State, r: Round)
    requires !s.radioOn && Cut(r.tick) && r.tick.apExists && r.tick.upApWorks && Turn(s, r).radioOn && r.tick.now <= r.tick.later
    ensures var s' := Turn(s, r);
            s.guard == Some(Unreadable) || Reachable(s'.link) || Guarded(s', r.tick.now) || InGrace(s', r.tick.now)
    ensures s.mode.ApMode? && s.guard.None? ==> Reachable(Turn(s, r).link)
  {
  }
}
