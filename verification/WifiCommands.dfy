/** The order of the daemon's commands: what is on disk and on the air after each of them. The daemon may die between any
    two; what its order buys is that the reports of its successor open the access point again. */
module WifiCommands {
  import opened Prelude
  import opened WifiGuard

  function Armed(t: Tick): Option<Guard> {
    Some(Guard(true, t.later + GUARD))
  }

  /** The client profile goes down, then the access point up. */
  function RestoreSteps(s: State, t: Tick): seq<State> {
    var down := s.(link := DownSta(s.link));
    [down, down.(link := UpAp(down.link, t.upApWorks))]
  }

  /** The attempt failed: the access point comes back, then the guard goes. */
  function GiveUpSteps(s: State, t: Tick): seq<State> {
    var restored := RestoreSteps(s, t);
    restored + [restored[1].(guard := None)]
  }

  function CheckSteps(s: State, t: Tick): seq<State> {
    if s.guard in {None, Some(Unreadable)} then []
    else if !s.guard.value.named || (t.readable && s.link == Sta(true)) then [s.(guard := None)]
    else if t.now < s.guard.value.deadline then []
    else GiveUpSteps(s, t)
  }

  function RescueSteps(s: State, t: Tick): seq<State> {
    var cleared := if Recorded(s.radioOffSince) then [s.(radioOffSince := None)] else [];
    if !t.present || s.radioOn then cleared
    else if !t.hardwareOn then []
    else if t.anyAddress then cleared
    else if !Recorded(s.radioOffSince) then [s.(radioOffSince := Some(t.now))]
    else if t.now - s.radioOffSince.value < RESCUE || !t.radioOnWorks then []
    else [s.(radioOn := true), s.(radioOn := true, radioOffSince := None)]
  }

  /** The attempt is recorded and the guard armed before the profile goes up. */
  function RetrySteps(s: State, t: Tick): seq<State> {
    var recorded := s.(fallback := s.fallback.(lastAttempt := t.now));
    var armed := recorded.(guard := Armed(t));
    var tried := armed.(link := UpSta(s.link, t.upSta));
    [recorded, armed, tried] + Outcome(tried, t)
  }

  function Outcome(tried: State, t: Tick): seq<State> {
    match t.upSta
    case Failed(_) => GiveUpSteps(tried, t)
    case Connected(online) => if online then [tried.(guard := None)] else []
  }

  function ClientSteps(s: State, t: Tick): seq<State> {
    if ClientOnline(s.link) then
      if s.fallback.active || s.fallback.since.Some? then [s.(fallback := NO_FALLBACK)] else []
    else if s.fallback.since.None? then [s.(fallback := s.fallback.(since := Some(t.now)))]
    else if t.now - s.fallback.since.value < GRACE then []
    else if !s.link.AccessPoint? then
      var up := s.(link := UpAp(s.link, t.upApWorks));
      [up] + if t.upApWorks then [up.(fallback := s.fallback.(active := true))] else []
    else if RetryDue(s, t) then RetrySteps(s, t)
    else []
  }

  function EnforceSteps(s: State, t: Tick): seq<State> {
    if s.guard.Some? || !t.present || !s.radioOn || !t.apExists then []
    else if s.mode.ApMode? then
      if Reachable(s.link) then [] else [s.(link := UpAp(s.link, t.upApWorks))]
    else ClientSteps(s, t)
  }

  function UpkeepSteps(s: State, t: Tick): seq<State> {
    RescueSteps(s, t) + EnforceSteps(RadioRescue(s, t), t)
  }

  function ReportSteps(s: State, t: Tick): seq<State> {
    var s1 := GuardCheck(s, t);
    CheckSteps(s, t) + if t.readable then UpkeepSteps(s1, t) else []
  }

  /** The access point goes up before the client goes down; if it does not, the preference is taken back. */
  function ToApSteps(s: State, t: Tick): seq<State> {
    var preferred := SetMode(s, ApMode);
    var cleared := preferred.(guard := None);
    var up := cleared.(link := UpAp(s.link, t.upApWorks));
    if t.upApWorks then [preferred, cleared, up, up.(link := DownSta(up.link))]
    else
      var undone := SetMode(up, ClientMode);
      [preferred, cleared, up, undone, undone.(link := UpSta(up.link, t.upSta))]
  }

  function ToClientSteps(s: State, t: Tick): seq<State> {
    var preferred := SetMode(s, ClientMode);
    var armed := preferred.(guard := Armed(t));
    var tried := armed.(link := UpSta(s.link, t.upSta));
    var ended := Outcome(tried, t);
    [preferred, armed, tried] + ended +
    if t.upSta.Failed? then [SetMode(ended[|ended| - 1], ApMode)] else []
  }

  function ConnectSteps(s: State, t: Tick): seq<State> {
    var deleted := s.(link := DownSta(s.link));
    var armed := deleted.(guard := Armed(t));
    var tried := armed.(link := UpSta(deleted.link, t.upSta));
    if t.upSta.Failed? then [deleted, armed, tried] + GiveUpSteps(tried, t)
    else [deleted, armed, tried, SetMode(tried, ClientMode)] + Outcome(SetMode(tried, ClientMode), t)
  }

  function ForgetSteps(s: State, t: Tick): seq<State> {
    var deleted := s.(link := DownSta(s.link));
    var cleared := deleted.(guard := None);
    var preferred := SetMode(cleared, ApMode);
    [deleted, cleared, preferred] + RestoreSteps(preferred, t)
  }

  function SwitchSteps(s: State, on: bool, t: Tick): seq<State> {
    if on && t.hardwareOn && t.radioOnWorks then
      [s.(radioOn := true), s.(radioOn := true, radioOffSince := None)]
    else if !on && t.wired && t.radioOffWorks then
      var off := s.(radioOn := false, link := NoLink);
      [off, off.(radioOffSince := None)]
    else []
  }

  function ScanSteps(s: State, t: Tick): seq<State> {
    if s.link.AccessPoint? then
      var down := s.(link := NoLink);
      [down, down.(link := UpAp(NoLink, t.upApWorks))]
    else []
  }

  function RequestSteps(s: State, r: Request, t: Tick): seq<State> {
    if !t.present then []
    else match r
      case ModeRequest(mode) =>
        if !s.radioOn then []
        else if mode.ApMode? then if t.apExists then ToApSteps(s, t) else []
        else if t.staProfile then ToClientSteps(s, t) else []
      case ConnectRequest => if s.radioOn then ConnectSteps(s, t) else []
      case ForgetRequest => ForgetSteps(s, t)
      case RadioRequest(on) => SwitchSteps(s, on, t)
      case ScanRequest(deep) => if s.radioOn && deep then ScanSteps(s, t) else []
  }

  function End(s: State, steps: seq<State>): State {
    if |steps| == 0 then s else steps[|steps| - 1]
  }

  /** The commands add up to the transition. */
  lemma {:induction false} ReportEnd(s: State, t: Tick)
    ensures End(s, ReportSteps(s, t)) == Report(s, t)
  {
    var s1 := GuardCheck(s, t);
    assert End(s, CheckSteps(s, t)) == s1;
    if t.readable {
      var s2 := RadioRescue(s1, t);
      assert End(s1, RescueSteps(s1, t)) == s2;
      assert End(s2, EnforceSteps(s2, t)) == EnforceMode(s2, t);
    }
  }

  lemma {:induction false} RequestEnd(s: State, r: Request, t: Tick)
    ensures End(s, RequestSteps(s, r, t)) == Serve(s, r, t)
  {
  }

  // ---- The guard comes first ----

  /** What the daemon does on a report or on a request. */
  function Steps(s: State, r: Option<Request>, t: Tick): seq<State> {
    match r case None => ReportSteps(s, t) case Some(request) => RequestSteps(s, request, t)
  }

  /** The command takes the access point down only behind a guard that has just been armed. */
  predicate Behind(s: State, s': State, t: Tick) {
    s.link.AccessPoint? && !s'.link.AccessPoint? ==> s.guard == Armed(t)
  }

  predicate AllBehind(s: State, steps: seq<State>, t: Tick) {
    |steps| == 0 || (
      && Behind(s, steps[0], t)
      && forall i | 0 < i < |steps| :: Behind(steps[i - 1], steps[i], t))
  }

  /** The command leaves the guard alone, removes it, or arms a new one; and it dates no offline link back. */
  predicate Careful(s: State, s': State, t: Tick) {
    && (s'.guard == s.guard || s'.guard.None? || s'.guard == Armed(t))
    && (s'.fallback.since == s.fallback.since || s'.fallback.since.None?
        || (s.fallback.since.None? && s'.fallback.since == Some(t.now)))
  }

  predicate AllCareful(s: State, steps: seq<State>, t: Tick) {
    |steps| == 0 || (
      && Careful(s, steps[0], t)
      && forall i | 0 < i < |steps| :: Careful(steps[i - 1], steps[i], t))
  }

  lemma {:induction false} StepsConcat(s: State, a: seq<State>, b: seq<State>, t: Tick)
    ensures AllCareful(s, a, t) && AllCareful(End(s, a), b, t) ==> AllCareful(s, a + b, t)
    ensures AllBehind(s, a, t) && AllBehind(End(s, a), b, t) ==> AllBehind(s, a + b, t)
  {
    if a == [] {
      assert a + b == b;
    } else {
      forall j | 0 <= j < |b|
        ensures (a + b)[|a| + j] == b[j]
      {
      }
    }
  }

  lemma {:induction false} EnforceOrder(s: State, t: Tick)
    ensures AllCareful(s, EnforceSteps(s, t), t) && AllBehind(s, EnforceSteps(s, t), t)
  {
  }

  lemma {:induction false} ReportOrder(s: State, t: Tick)
    ensures AllCareful(s, ReportSteps(s, t), t) && AllBehind(s, ReportSteps(s, t), t)
  {
    var s1 := GuardCheck(s, t);
    var s2 := RadioRescue(s1, t);
    CheckOrder(s, t);
    if t.readable {
      RescueOrder(s1, t);
      EnforceOrder(s2, t);
      StepsConcat(s1, RescueSteps(s1, t), EnforceSteps(s2, t), t);
      StepsConcat(s, CheckSteps(s, t), UpkeepSteps(s1, t), t);
    } else {
      assert ReportSteps(s, t) == CheckSteps(s, t);
    }
  }

  lemma {:induction false} CheckOrder(s: State, t: Tick)
    ensures AllCareful(s, CheckSteps(s, t), t) && AllBehind(s, CheckSteps(s, t), t)
    ensures End(s, CheckSteps(s, t)) == GuardCheck(s, t)
  {
  }

  lemma {:induction false} RescueOrder(s: State, t: Tick)
    ensures AllCareful(s, RescueSteps(s, t), t) && AllBehind(s, RescueSteps(s, t), t)
    ensures End(s, RescueSteps(s, t)) == RadioRescue(s, t)
  {
  }

  /** The three requests that take a running access point down without arming a guard for it: a switch to access-point mode
      that fails, when its undo takes the client up; a deep scan; and switching the radio off, which asks for a cable. */
  predicate Unguarded(s: State, r: Option<Request>, t: Tick) {
    && t.present && s.link.AccessPoint?
    && match r
       case Some(ModeRequest(ApMode)) => s.radioOn && t.apExists && !t.upApWorks && t.upSta != Failed(false)
       case Some(ScanRequest(deep)) => s.radioOn && deep && s.guard != Armed(t)
       case Some(RadioRequest(on)) => !on && t.wired && t.radioOffWorks && s.guard != Armed(t)
       case _ => false
  }

  lemma {:induction false} ToApOrder(s: State, t: Tick)
    ensures AllCareful(s, ToApSteps(s, t), t)
    ensures AllBehind(s, ToApSteps(s, t), t) <==> !(s.link.AccessPoint? && !t.upApWorks && t.upSta != Failed(false))
  {
    var steps := ToApSteps(s, t);
    if !t.upApWorks {
      assert Behind(steps[3], steps[4], t) <==> !(s.link.AccessPoint? && t.upSta != Failed(false));
    }
  }

  lemma {:induction false} ToClientOrder(s: State, t: Tick)
    ensures AllCareful(s, ToClientSteps(s, t), t) && AllBehind(s, ToClientSteps(s, t), t)
  {
  }

  lemma {:induction false} ConnectOrder(s: State, t: Tick)
    ensures AllCareful(s, ConnectSteps(s, t), t) && AllBehind(s, ConnectSteps(s, t), t)
  {
  }

  lemma {:induction false} ForgetOrder(s: State, t: Tick)
    ensures AllCareful(s, ForgetSteps(s, t), t) && AllBehind(s, ForgetSteps(s, t), t)
  {
  }

  lemma {:induction false} SwitchOrder(s: State, on: bool, t: Tick)
    ensures AllCareful(s, SwitchSteps(s, on, t), t)
    ensures AllBehind(s, SwitchSteps(s, on, t), t) <==>
            !(!on && t.wired && t.radioOffWorks && s.link.AccessPoint? && s.guard != Armed(t))
  {
  }

  lemma {:induction false} ScanOrder(s: State, t: Tick)
    ensures AllCareful(s, ScanSteps(s, t), t)
    ensures AllBehind(s, ScanSteps(s, t), t) <==> !(s.link.AccessPoint? && s.guard != Armed(t))
  {
  }

  /** A guard is on disk before every command of any report or request that takes the access point down, exactly but for
      three requests. */
  lemma {:induction false} GuardComesFirst(s: State, r: Option<Request>, t: Tick)
    ensures AllBehind(s, Steps(s, r, t), t) <==> !Unguarded(s, r, t)
    ensures AllCareful(s, Steps(s, r, t), t)
  {
    match r
    case None => ReportOrder(s, t);
    case Some(ModeRequest(ApMode)) => ToApOrder(s, t);
    case Some(ModeRequest(ClientMode)) => ToClientOrder(s, t);
    case Some(ConnectRequest) => ConnectOrder(s, t);
    case Some(ForgetRequest) => ForgetOrder(s, t);
    case Some(RadioRequest(on)) => SwitchOrder(s, on, t);
    case Some(ScanRequest(deep)) => ScanOrder(s, t);
  }

  /** Switching to access-point mode never gives up a way in that is there: after every command the device is reachable, as
      long as the access point can be raised or the client taken up again. */
  lemma {:induction false} SwitchKeepsWayIn(s: State, t: Tick, i: nat)
    requires Reachable(s.link) && (t.upApWorks || t.upSta in {Failed(false), Connected(true)})
    requires i < |RequestSteps(s, ModeRequest(ApMode), t)|
    ensures Reachable(RequestSteps(s, ModeRequest(ApMode), t)[i].link)
  {
  }

  // ---- Dying between two commands ----

  /** The states a daemon can leave behind when it dies. */
  predicate CrashState(s: State, r: Option<Request>, t: Tick, c: State) {
    c == s || c in Steps(s, r, t)
  }

  lemma {:induction false} CarefulReach(s: State, steps: seq<State>, t: Tick, i: nat)
    requires AllCareful(s, steps, t) && i < |steps|
    ensures var c := steps[i];
            && (c.guard == s.guard || c.guard.None? || c.guard == Armed(t))
            && (c.fallback.since == s.fallback.since || c.fallback.since.None? || c.fallback.since == Some(t.now))
  {
    if i > 0 {
      CarefulReach(s, steps, t, i - 1);
      assert Careful(steps[i - 1], steps[i], t);
    }
  }

  lemma {:induction false} CrashIsBounded(s: State, r: Option<Request>, t: Tick, c: State)
    requires CrashState(s, r, t, c)
    ensures c.guard == s.guard || c.guard.None? || c.guard == Armed(t)
    ensures c.fallback.since == s.fallback.since || c.fallback.since.None? || c.fallback.since == Some(t.now)
  {
    if c != s {
      GuardComesFirst(s, r, t);
      var i :| 0 <= i < |Steps(s, r, t)| && Steps(s, r, t)[i] == c;
      CarefulReach(s, Steps(s, r, t), t, i);
    }
  }

  /** The radio goes off only by a request to switch it off, and only with a cable. */
  lemma {:induction false} OnlySwitchedOff(s: State, r: Option<Request>, t: Tick, c: State)
    requires s.radioOn && CrashState(s, r, t, c)
    ensures c.radioOn || (r == Some(RadioRequest(false)) && t.wired && c.radioOffSince in {s.radioOffSince, None})
  {
    match r
    case None => ReportRadio(s, t, c);
    case Some(ModeRequest(_)) => ModeRadio(s, t);
    case Some(ConnectRequest) => assert AllOn(ConnectSteps(s, t));
    case Some(ForgetRequest) => assert AllOn(ForgetSteps(s, t));
    case Some(RadioRequest(_)) =>
    case Some(ScanRequest(_)) => assert AllOn(ScanSteps(s, t));
  }

  predicate AllOn(steps: seq<State>) {
    forall d | d in steps :: d.radioOn
  }

  lemma {:induction false} ModeRadio(s: State, t: Tick)
    requires s.radioOn
    ensures AllOn(ToApSteps(s, t)) && AllOn(ToClientSteps(s, t))
  {
  }

  lemma {:induction false} ReportRadio(s: State, t: Tick, c: State)
    requires s.radioOn && (c == s || c in ReportSteps(s, t))
    ensures c.radioOn
  {
    var s1 := GuardCheck(s, t);
    assert AllOn(CheckSteps(s, t)) && AllOn(RescueSteps(s1, t)) && AllOn(EnforceSteps(RadioRescue(s1, t), t));
  }

  /** The daemon dies between any two commands of a report or a request, and its successor's reports are dark. Unless the
      radio was being switched off, the access point is up at the latest the grace period after the first report, or with a
      guard after the first one that comes when it is over, apart from retries; and if the guard was armed when the daemon died and no offline time was on
      record, at that very report. */
  lemma {:induction false} CrashRecovers(s: State, r: Option<Request>, t: Tick, c: State, rounds: seq<Round>, k: nat)
    requires s.radioOn && CrashState(s, r, t, c) && !Holds(s.guard, t.later + GUARD)
    requires Dark(rounds) && k < |rounds| && t.now <= rounds[k].tick.now
    requires c.guard.None? || rounds[k].tick.now >= t.later + GUARD
    requires s.fallback.since.Some? ==> s.fallback.since.value <= t.now
    ensures !c.radioOn ==> r == Some(RadioRequest(false)) && t.wired
    ensures c.radioOn ==>
              var end := Trace(c, rounds)[|rounds|];
              var now := rounds[|rounds| - 1].tick.now;
              var retry := LastRetry(c, rounds);
              && (|| end.link.AccessPoint?
                  || (c.mode.ClientMode? && retry.Some? && retry.value.upSta.Connected? && now < retry.value.later + GUARD)
                  || (c.mode.ClientMode? && now - rounds[k].tick.now < GRACE))
              && (k == |rounds| - 1 && Waited(c.guard, rounds) == k && c.guard == Armed(t) && c.fallback.since.None? ==>
                    end.link.AccessPoint?)
  {
    CrashIsBounded(s, r, t, c);
    OnlySwitchedOff(s, r, t, c);
    if c.radioOn {
      RecoveredByThen(c, rounds, k);
      if k == |rounds| - 1 && Waited(c.guard, rounds) == k && c.guard == Armed(t) {
        DeadlineOpensAp(c, rounds);
      }
    }
  }

  /** If it dies while the radio is being switched off, a cable leads to the device; once no interface has an address any
      more, the radio is on again by the first report the rescue period after the first that found it so. */
  lemma {:induction false} CrashInSwitchOff(s: State, r: Option<Request>, t: Tick, c: State, rounds: seq<Round>)
    requires s.radioOn && CrashState(s, r, t, c) && !c.radioOn
    requires |rounds| > 1 && rounds[|rounds| - 1].tick.now - rounds[0].tick.now >= RESCUE
    requires forall i | 0 <= i < |rounds| :: Cut(rounds[i].tick)
    requires forall i, j | 0 <= i < j < |rounds| :: 0.0 < rounds[i].tick.now <= rounds[j].tick.now
    requires Recorded(s.radioOffSince) ==> s.radioOffSince.value <= rounds[0].tick.now
    ensures r == Some(RadioRequest(false)) && t.wired && Trace(c, rounds)[|rounds|].radioOn
  {
    OnlySwitchedOff(s, r, t, c);
    RadioComesBack(c, rounds);
  }
}
