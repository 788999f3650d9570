/** The network daemon as it is written: its persisted state and the radio it commands, changed command by command. Each
    method leaves behind exactly the states that `WifiCommands` lists, one after each command, and so ends in the
    transition of the WiFi guard. */
module WifiDaemon {
  import opened Prelude
  import opened WifiGuard
  import opened WifiCommands

  lemma {:induction false} Together(s: State, was: seq<State>, now: seq<State>, end: State, a: seq<State>, b: seq<State>)
    requires now == was + a + b && end == End(End(s, a), b)
    ensures now == was + (a + b) && end == End(s, a + b)
  {
  }

  class Netd {
    var mode: Mode
    var fallbackActive: bool
    var fallbackSince: Option<real>
    var lastAttempt: real
    var radioOffSince: Option<real>
    var guard: Option<Guard>
    var radioOn: bool
    var link: Link
    ghost var trail: seq<State>

    function View(): State
      reads this
    {
      State(mode, Fallback(fallbackActive, fallbackSince, lastAttempt), radioOffSince, guard, radioOn, link)
    }

    /** The commands since `was` have taken the daemon through these states. */
    twostate predicate Went(steps: seq<State>)
      reads this
    {
      trail == old(trail) + steps && View() == End(old(View()), steps)
    }

    /** Without any file the role is the access point. */
    constructor (radioOn: bool, link: Link)
      ensures View() == State(ApMode, NO_FALLBACK, None, None, radioOn, link)
    {
      mode, fallbackActive, fallbackSince, lastAttempt := ApMode, false, None, 0.0;
      radioOffSince, guard := None, None;
      this.radioOn, this.link := radioOn, link;
      trail := [];
    }

    // ---- Single commands ----

    method ConnectionUpAp(t: Tick) returns (ok: bool)
      modifies this`link, this`trail
      ensures ok == t.upApWorks && Went([old(View()).(link := UpAp(old(link), t.upApWorks))])
    {
      ok := t.upApWorks;
      if ok {
        link := AccessPoint;
      }
      trail := trail + [View()];
    }

    method ConnectionUpSta(t: Tick) returns (ok: bool)
      modifies this`link, this`trail
      ensures ok == t.upSta.Connected? && Went([old(View()).(link := UpSta(old(link), t.upSta))])
    {
      ok := t.upSta.Connected?;
      if ok {
        link := Sta(t.upSta.online);
      } else if t.upSta.dropped {
        link := NoLink;
      }
      trail := trail + [View()];
    }

    /** `connection down`, or `connection delete`, of the client profile. */
    method ConnectionDownSta()
      modifies this`link, this`trail
      ensures Went([old(View()).(link := DownSta(old(link)))])
    {
      if link.Sta? {
        link := NoLink;
      }
      trail := trail + [View()];
    }

    method ConnectionDownAp()
      modifies this`link, this`trail
      ensures Went([old(View()).(link := if old(link).AccessPoint? then NoLink else old(link))])
    {
      if link.AccessPoint? {
        link := NoLink;
      }
      trail := trail + [View()];
    }

    method GuardArm(t: Tick)
      modifies this`guard, this`trail
      ensures Went([old(View()).(guard := Armed(t))])
    {
      guard := Some(Guard(true, t.later + GUARD));
      trail := trail + [View()];
    }

    method GuardClear()
      modifies this`guard, this`trail
      ensures Went([old(View()).(guard := None)])
    {
      guard := None;
      trail := trail + [View()];
    }

    /** mode.json is written as a whole. */
    method WriteMode(role: Mode, active: bool, since: Option<real>, attempt: real, offSince: Option<real>)
      modifies this`mode, this`fallbackActive, this`fallbackSince, this`lastAttempt, this`radioOffSince, this`trail
      ensures Went([old(View()).(mode := role, fallback := Fallback(active, since, attempt), radioOffSince := offSince)])
    {
      mode, fallbackActive, fallbackSince, lastAttempt, radioOffSince := role, active, since, attempt, offSince;
      trail := trail + [View()];
    }

    method RadioSwitch(on: bool)
      modifies this`radioOn, this`link, this`trail
      ensures Went([old(View()).(radioOn := on, link := if on then old(link) else NoLink)])
    {
      radioOn := on;
      if !on {
        link := NoLink;
      }
      trail := trail + [View()];
    }

    method SetRole(role: Mode)
      modifies this`mode, this`fallbackActive, this`fallbackSince, this`lastAttempt, this`radioOffSince, this`trail
      ensures Went([SetMode(old(View()), role)])
    {
      WriteMode(role, false, None, 0.0, radioOffSince);
    }

    method WriteOffSince(offSince: Option<real>)
      modifies this`mode, this`fallbackActive, this`fallbackSince, this`lastAttempt, this`radioOffSince, this`trail
      ensures Went([old(View()).(radioOffSince := offSince)])
    {
      WriteMode(mode, fallbackActive, fallbackSince, lastAttempt, offSince);
    }

    // ---- The guard ----

    method RestoreAp(t: Tick)
      modifies this`link, this`trail
      ensures Went(RestoreSteps(old(View()), t))
    {
      ConnectionDownSta();
      var _ := ConnectionUpAp(t);
    }

    method GiveUp(t: Tick)
      modifies this`link, this`guard, this`trail
      ensures Went(GiveUpSteps(old(View()), t))
    {
      RestoreAp(t);
      GuardClear();
    }

    method CheckGuard(t: Tick)
      modifies this`guard, this`link, this`trail
      ensures Went(CheckSteps(old(View()), t))
    {
      if guard.None? || guard.value.Unreadable? {
        return;
      }
      if !guard.value.named || (t.readable && link == Sta(true)) {
        GuardClear();
        return;
      }
      if t.now < guard.value.deadline {
        return;
      }
      GiveUp(t);
    }

    // ---- The rescue and the role ----

    method RescueRadio(t: Tick)
      modifies this
      ensures Went(RescueSteps(old(View()), t))
    {
      if !t.present || radioOn {
        if Recorded(radioOffSince) {
          WriteOffSince(None);
        }
        return;
      }
      if !t.hardwareOn {
        return;
      }
      if t.anyAddress {
        if Recorded(radioOffSince) {
          WriteOffSince(None);
        }
        return;
      }
      if !Recorded(radioOffSince) {
        WriteOffSince(Some(t.now));
        return;
      }
      if t.now - radioOffSince.value < RESCUE || !t.radioOnWorks {
        return;
      }
      RadioSwitch(true);
      WriteOffSince(None);
    }

    /** What follows the attempt to take up the client connection. */
    method Conclude(ok: bool, t: Tick)
      requires ok == t.upSta.Connected? && (ok ==> link == Sta(t.upSta.online))
      modifies this`guard, this`link, this`trail
      ensures Went(Outcome(old(View()), t))
    {
      if !ok {
        GiveUp(t);
        return;
      }
      if link == Sta(true) {
        GuardClear();
      }
    }

    method Retry(t: Tick)
      modifies this
      ensures Went(RetrySteps(old(View()), t))
    {
      WriteMode(mode, fallbackActive, fallbackSince, t.now, radioOffSince);
      GuardArm(t);
      var ok := ConnectionUpSta(t);
      Conclude(ok, t);
    }

    method EnforceClientMode(t: Tick)
      modifies this
      ensures Went(ClientSteps(old(View()), t))
    {
      if ClientOnline(link) {
        if fallbackActive || fallbackSince.Some? {
          WriteMode(mode, false, None, 0.0, radioOffSince);
        }
        return;
      }
      if fallbackSince.None? {
        WriteMode(mode, fallbackActive, Some(t.now), lastAttempt, radioOffSince);
        return;
      }
      if t.now - fallbackSince.value < GRACE {
        return;
      }
      if !link.AccessPoint? {
        var ok := ConnectionUpAp(t);
        if ok {
          WriteMode(mode, true, fallbackSince, lastAttempt, radioOffSince);
        }
        return;
      }
      if t.now - lastAttempt < RETRY || !t.staProfile || t.apHasClients {
        return;
      }
      Retry(t);
    }

    method EnforceWifiMode(t: Tick)
      modifies this
      ensures Went(EnforceSteps(old(View()), t))
    {
      if guard.Some? || !t.present || !radioOn || !t.apExists {
        return;
      }
      if mode.ApMode? {
        if ClientOnline(link) || link.AccessPoint? {
          return;
        }
        var _ := ConnectionUpAp(t);
        return;
      }
      EnforceClientMode(t);
    }

    /** With the devices read. */
    method RescueAndEnforce(t: Tick)
      modifies this
      ensures Went(UpkeepSteps(old(View()), t))
    {
      RescueOrder(View(), t);
      RescueRadio(t);
      EnforceWifiMode(t);
    }

    /** One report. */
    method Maintain(t: Tick)
      modifies this
      ensures Went(ReportSteps(old(View()), t)) && View() == Report(old(View()), t)
    {
      ghost var s, was := View(), trail;
      CheckOrder(s, t);
      CheckGuard(t);
      if t.readable {
        RescueAndEnforce(t);
      }
      Together(s, was, trail, View(), CheckSteps(s, t), if t.readable then UpkeepSteps(GuardCheck(s, t), t) else []);
      ReportEnd(s, t);
    }

    // ---- Requests ----

    method HandleMode(role: Mode, t: Tick)
      modifies this
      ensures Went(RequestSteps(old(View()), ModeRequest(role), t))
      ensures View() == Serve(old(View()), ModeRequest(role), t)
    {
      RequestEnd(View(), ModeRequest(role), t);
      if !t.present || !radioOn || (role.ClientMode? && !t.staProfile) || (role.ApMode? && !t.apExists) {
        return;
      }
      if role.ApMode? {
        SwitchToAp(t);
      } else {
        SwitchToClient(t);
      }
    }

    method SwitchToAp(t: Tick)
      modifies this
      ensures Went(ToApSteps(old(View()), t))
    {
      SetRole(ApMode);
      GuardClear();
      var ok := ConnectionUpAp(t);
      if ok {
        ConnectionDownSta();
      } else {
        SetRole(ClientMode);
        var _ := ConnectionUpSta(t);
      }
    }

    method SwitchToClient(t: Tick)
      modifies this
      ensures Went(ToClientSteps(old(View()), t))
    {
      SetRole(ClientMode);
      GuardArm(t);
      var ok := ConnectionUpSta(t);
      Conclude(ok, t);
      if !ok {
        SetRole(ApMode);
      }
    }

    method HandleConnect(t: Tick)
      modifies this
      ensures Went(RequestSteps(old(View()), ConnectRequest, t)) && View() == Serve(old(View()), ConnectRequest, t)
    {
      RequestEnd(View(), ConnectRequest, t);
      if !t.present || !radioOn {
        return;
      }
      ConnectionDownSta();
      GuardArm(t);
      var ok := ConnectionUpSta(t);
      if ok {
        SetRole(ClientMode);
      }
      Conclude(ok, t);
    }

    method HandleForget(t: Tick)
      modifies this
      ensures Went(RequestSteps(old(View()), ForgetRequest, t)) && View() == Serve(old(View()), ForgetRequest, t)
    {
      RequestEnd(View(), ForgetRequest, t);
      if !t.present {
        return;
      }
      ConnectionDownSta();
      GuardClear();
      SetRole(ApMode);
      RestoreAp(t);
    }

    method HandleScan(deep: bool, t: Tick)
      modifies this
      ensures Went(RequestSteps(old(View()), ScanRequest(deep), t)) && View() == Serve(old(View()), ScanRequest(deep), t)
    {
      RequestEnd(View(), ScanRequest(deep), t);
      if !t.present || !radioOn || !deep || !link.AccessPoint? {
        return;
      }
      ConnectionDownAp();
      var _ := ConnectionUpAp(t);
    }

    method HandleRadio(on: bool, t: Tick)
      modifies this
      ensures Went(RequestSteps(old(View()), RadioRequest(on), t)) && View() == Serve(old(View()), RadioRequest(on), t)
    {
      RequestEnd(View(), RadioRequest(on), t);
      if !t.present || (on && !t.hardwareOn) || (!on && !t.wired) {
        return;
      }
      if if on then t.radioOnWorks else t.radioOffWorks {
        RadioSwitch(on);
        WriteOffSince(None);
      }
    }
  }
}
