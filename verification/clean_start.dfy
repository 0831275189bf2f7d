/**
 One sysupgrade command across reboots (internal/agent/sysupgrade.go, and the clean-start parts of New,
 Run and runSession in internal/agent/agent.go). Flashing replaces the process, so the command is never
 acknowledged and stays queued at the broker; only a connect with CleanStart discards it
 (MQTT Version 5.0 sections 3.1.2.4 and 4.4).
 */
module CleanStart {
  import opened Runs

  datatype State = State(
    keepConfig: bool,        // the command's keep_config
    // device storage
    creds: bool,
    sentinel: bool,
    // the agent process
    booted: bool,
    loaded: bool,            // credentials in memory
    needsClean: bool,        // needsCleanStart
    connected: bool,
    removalDue: bool,        // clean connect succeeded, sentinel not removed yet
    starting: nat,           // handleSysupgrade calls before the sentinel step
    ready: nat,              // handleSysupgrade calls about to Exec
    // the broker
    published: bool,
    queued: bool,
    // history
    flashes: nat,
    freshFlash: bool,        // no successful connect since the last flash
    enrolling: bool,         // credentials saved by this process's bootstrap, no successful connect yet
    exposed: bool,           // some keep_config flash went ahead without a sentinel on disk
    interrupted: bool,       // some restart hit an enrolling process
    unremoved: bool)         // some removal of the sentinel failed

  datatype Action =
    | PublishCommand
    | Boot
    | SaveCredentials        // inside bootstrap
    | FinishBootstrap
    | ConnectOk
    | ConnectFail(brokerSaw: bool)
    | RemoveSentinel(ok: bool)
    | Drop
    | Deliver
    | WriteSentinel(ok: bool)
    | ExecOk
    | ExecFail(removed: bool)
    | Forget                 // acknowledged after a failed Exec, or expired
    | Restart

  function Initial(keepConfig: bool, creds: bool, sentinel: bool): State
  {
    State(keepConfig, creds, sentinel, false, false, false, false, false, 0, 0, false, false, 0, false, false, false, false, false)
  }

  predicate Enabled(s: State, a: Action)
  {
    match a
    case PublishCommand => !s.published
    case Boot => !s.booted
    case SaveCredentials => s.booted && !s.loaded && !s.creds
    case FinishBootstrap => s.booted && !s.loaded && s.creds
    case ConnectOk => s.booted && s.loaded && !s.connected && !s.removalDue
    case ConnectFail(_) => s.booted && s.loaded && !s.connected && !s.removalDue
    case RemoveSentinel(_) => s.removalDue
    case Drop => s.connected && !s.removalDue
    // after a clean connect nothing is subscribed before the sentinel is removed
    case Deliver => s.connected && !s.removalDue && s.queued
    case WriteSentinel(_) => s.starting > 0
    case ExecOk => s.ready > 0
    case ExecFail(_) => s.ready > 0
    case Forget => s.queued
    case Restart => s.booted
  }

  /** The process is gone; what is on disk stays. */
  function Down(s: State): State
  {
    s.(booted := false, loaded := false, needsClean := false, connected := false, removalDue := false,
       starting := 0, ready := 0, enrolling := false)
  }

  function Do(s: State, a: Action): State
    requires Enabled(s, a)
  {
    match a
    case PublishCommand => s.(published := true, queued := true)
    case Boot => s.(booted := true, loaded := s.creds, needsClean := s.sentinel)
    case SaveCredentials => s.(creds := true, enrolling := true)
    case FinishBootstrap => s.(loaded := true, needsClean := true)
    case ConnectOk =>
      s.(connected := true, needsClean := false, removalDue := s.needsClean, queued := s.queued && !s.needsClean,
         freshFlash := false, enrolling := false)
    case ConnectFail(brokerSaw) => s.(queued := s.queued && !(s.needsClean && brokerSaw))
    case RemoveSentinel(ok) => s.(removalDue := false, sentinel := s.sentinel && !ok, unremoved := s.unremoved || !ok)
    case Drop => s.(connected := false)
    case Deliver => s.(starting := s.starting + 1)
    case WriteSentinel(ok) =>
      s.(starting := s.starting - 1, ready := s.ready + 1, sentinel := s.sentinel || (s.keepConfig && ok))
    case ExecOk =>
      // a flash that does not keep the configuration wipes credentials and sentinel
      Down(s.(flashes := s.flashes + 1, freshFlash := true, exposed := s.exposed || (s.keepConfig && !s.sentinel),
              creds := s.creds && s.keepConfig, sentinel := s.sentinel && s.keepConfig))
    case ExecFail(removed) =>
      s.(ready := s.ready - 1, sentinel := s.sentinel && !removed, unremoved := s.unremoved || !removed)
    case Forget => s.(queued := false)
    case Restart => Down(s.(interrupted := s.interrupted || s.enrolling))
  }

  ghost predicate Step(s: State, a: Action, r: State)
  {
    Enabled(s, a) && r == Do(s, a)
  }

  ghost predicate IsInitial(s: State)
  {
    s == Initial(s.keepConfig, s.creds, s.sentinel)
  }

  ghost predicate IsRun(trace: seq<State>, actions: seq<Action>)
  {
    Chain(Step, trace, actions) && IsInitial(trace[0])
  }

  /** Whoever connects next will ask for a clean session. */
  predicate CleanAhead(s: State)
  {
    if !s.booted then s.sentinel || !s.creds
    else if !s.loaded then !s.creds || s.enrolling
    else s.needsClean
  }

  /** The process-level facts that hold in any case. */
  predicate Sane(s: State)
  {
    && (s.needsClean && s.loaded ==> s.sentinel || s.enrolling)
    && (s.enrolling ==> s.booted && s.creds && !s.connected)
    && (s.connected || s.removalDue || s.starting > 0 || s.ready > 0 || s.loaded ==> s.booted)
    && (s.connected ==> s.loaded) && (s.removalDue ==> s.connected)
    && (s.loaded ==> s.creds) && (s.needsClean ==> s.booted)
    && (s.booted && !s.loaded && s.creds ==> s.enrolling)
    && (s.queued ==> s.published)
    && (s.freshFlash ==> s.flashes > 0)
    && (s.connected || s.starting > 0 || s.ready > 0 ==> s.loaded && !s.needsClean)
    && (s.starting > 0 || s.ready > 0 || s.flashes > 0 ==> s.published)
  }

  predicate Protected(s: State)
  {
    !s.exposed && !s.interrupted
  }

  /** After the flash: nobody is connected until a clean connect, and then the command is gone for good. */
  predicate FlashedOnce(s: State)
  {
    && s.flashes <= 1
    && (s.freshFlash ==> CleanAhead(s) && !s.connected && s.starting == 0 && s.ready == 0)
    && (s.flashes > 0 && !s.freshFlash ==> !s.queued && s.starting == 0 && s.ready == 0)
  }

  predicate Inv(s: State)
  {
    Sane(s) && (Protected(s) ==> FlashedOnce(s))
  }

  lemma StepKeepsSane(s: State, a: Action)
    requires Sane(s) && Enabled(s, a)
    ensures Sane(Do(s, a))
  {
    match a {
      case Boot =>
      case ConnectOk =>
      case WriteSentinel(_) =>
      case ExecOk =>
      case _ =>
    }
  }

  /** What exposed or interrupted a run stays on record. */
  lemma ProtectedBefore(s: State, a: Action)
    requires Enabled(s, a) && Protected(Do(s, a))
    ensures Protected(s)
  {
    match a {
      case ExecOk =>
      case Restart =>
      case _ =>
    }
  }

  lemma StepKeepsFlashedOnce(s: State, a: Action)
    requires Sane(s) && FlashedOnce(s) && Enabled(s, a) && Protected(Do(s, a))
    ensures FlashedOnce(Do(s, a))
  {
  }

  lemma StepKeepsInv(s: State, a: Action)
    requires Inv(s) && Enabled(s, a)
    ensures Inv(Do(s, a))
  {
    StepKeepsSane(s, a);
    if Protected(Do(s, a)) {
      ProtectedBefore(s, a);
      StepKeepsFlashedOnce(s, a);
    }
  }

  lemma {:induction false} RunsKeepInv(trace: seq<State>, actions: seq<Action>, n: nat)
    requires IsRun(trace, actions) && n < |trace|
    ensures Inv(trace[n])
  {
    if n > 0 {
      RunsKeepInv(trace, actions, n - 1);
      assert Step(trace[n - 1], actions[n - 1], trace[n - 1 + 1]);
      StepKeepsInv(trace[n - 1], actions[n - 1]);
    }
  }

  // ---------------------------------------------------------------- promises

  /**
   However often the device restarts, loses the connection or fails to connect, one sysupgrade command
   flashes at most once, provided every keep_config flash had its sentinel on disk and no restart fell
   between saving bootstrap credentials and the first successful connect.
   */
  lemma FlashesAtMostOnce(trace: seq<State>, actions: seq<Action>, n: nat)
    requires IsRun(trace, actions) && n < |trace| && Protected(trace[n])
    ensures trace[n].flashes <= 1
  {
    RunsKeepInv(trace, actions, n);
  }

  /** On both keep_config paths the first successful connect after the flash uses CleanStart. */
  lemma FirstConnectAfterFlashIsClean(trace: seq<State>, actions: seq<Action>, n: nat)
    requires IsRun(trace, actions) && n < |actions| && Protected(trace[n])
    requires trace[n].freshFlash && actions[n] == ConnectOk
    ensures trace[n].needsClean && !trace[n + 1].queued && trace[n + 1].removalDue
  {
    RunsKeepInv(trace, actions, n);
    assert Step(trace[n], actions[n], trace[n + 1]);
  }

  /** In one process: until a connect succeeds, CleanStart is asked for exactly if the sentinel was there at boot or bootstrap ran. */
  predicate CleanReason(sentinelAtBoot: bool, bootstrapped: bool, connectedBefore: bool, needsClean: bool)
  {
    needsClean == ((sentinelAtBoot || bootstrapped) && !connectedBefore)
  }

  lemma StepKeepsReason(s: State, a: Action, r: State, sentinelAtBoot: bool, bootstrapped: bool, connectedBefore: bool)
    requires Step(s, a, r) && s.booted && a != Restart && a != ExecOk
    requires CleanReason(sentinelAtBoot, bootstrapped, connectedBefore, s.needsClean) && (connectedBefore ==> s.loaded)
    ensures r.booted && (connectedBefore || a == ConnectOk ==> r.loaded)
    ensures CleanReason(sentinelAtBoot, bootstrapped || a == FinishBootstrap, connectedBefore || a == ConnectOk, r.needsClean)
  {
    match a {
      case ConnectOk =>
      case ConnectFail(_) =>
      case FinishBootstrap =>
      case _ =>
    }
  }

  ghost predicate Happened(actions: seq<Action>, b: nat, n: nat, a: Action)
    requires n <= |actions|
  {
    exists i :: b < i < n && actions[i] == a
  }

  lemma HappenedSnoc(actions: seq<Action>, b: nat, n: nat, a: Action)
    requires b + 1 < n <= |actions|
    ensures Happened(actions, b, n, a) <==> Happened(actions, b, n - 1, a) || actions[n - 1] == a
  {
  }

  /** The actions of one process life after Boot, with what CleanReason needs to know of them. */
  lemma {:induction false} PendingCleanStartSurvives(trace: seq<State>, actions: seq<Action>, b: nat, n: nat)
    requires IsRun(trace, actions) && b < n < |trace| && actions[b] == Boot
    requires forall i :: b < i < n ==> actions[i] != Restart && actions[i] != ExecOk
    ensures CleanReason(trace[b].sentinel, Happened(actions, b, n, FinishBootstrap),
                        Happened(actions, b, n, ConnectOk), trace[n].needsClean)
    ensures trace[n].booted && (Happened(actions, b, n, ConnectOk) ==> trace[n].loaded)
  {
    assert Step(trace[n - 1], actions[n - 1], trace[n - 1 + 1]);
    if n > b + 1 {
      PendingCleanStartSurvives(trace, actions, b, n - 1);
      HappenedSnoc(actions, b, n, FinishBootstrap);
      HappenedSnoc(actions, b, n, ConnectOk);
      StepKeepsReason(trace[n - 1], actions[n - 1], trace[n], trace[b].sentinel,
                      Happened(actions, b, n - 1, FinishBootstrap), Happened(actions, b, n - 1, ConnectOk));
    }
  }

  /** Unless a removal failed, a sentinel that is not waiting for its clean connect belongs to a flash being started. */
  predicate Consumed(s: State)
  {
    s.booted && s.sentinel && !s.unremoved ==> s.needsClean || s.removalDue || s.ready > 0
  }

  lemma StepKeepsConsumed(s: State, a: Action)
    requires Consumed(s) && Enabled(s, a)
    ensures Consumed(Do(s, a))
  {
    match a {
      case Boot =>
      case ConnectOk =>
      case ConnectFail(_) =>
      case FinishBootstrap =>
      case RemoveSentinel(_) =>
      case WriteSentinel(_) =>
      case ExecOk =>
      case ExecFail(_) =>
      case _ =>
    }
  }

  /** One clean connect consumes the sentinel: it does not make later connects or restarts clean as well. */
  lemma {:induction false} SentinelIsConsumed(trace: seq<State>, actions: seq<Action>, n: nat)
    requires IsRun(trace, actions) && n < |trace|
    ensures Consumed(trace[n])
  {
    if n > 0 {
      SentinelIsConsumed(trace, actions, n - 1);
      assert Step(trace[n - 1], actions[n - 1], trace[n - 1 + 1]);
      StepKeepsConsumed(trace[n - 1], actions[n - 1]);
    }
  }

  // ---------------------------------------------------------------- both provisos are needed

  ghost predicate Occurs(s: State)
  {
    Reachable(IsInitial, Step, s)
  }

  lemma Began(keep: bool, creds: bool, sentinel: bool) returns (s: State)
    ensures s == Initial(keep, creds, sentinel) && Occurs(s)
  {
    s := Initial(keep, creds, sentinel);
    InitialIsReachable(IsInitial, Step, s);
  }

  lemma Went(s: State, a: Action) returns (r: State)
    requires Occurs(s) && Enabled(s, a)
    ensures r == Do(s, a) && Occurs(r)
  {
    r := Do(s, a);
    StepIsReachable(IsInitial, Step, s, a, r);
  }

  lemma Handle(s: State, ok: bool) returns (r: State)
    requires Occurs(s) && s.connected && !s.removalDue && s.queued && s.starting == 0 && s.ready == 0
    ensures Occurs(r) && r == s.(ready := 1, sentinel := s.sentinel || (s.keepConfig && ok))
  {
    r := Went(s, Deliver);
    r := Went(r, WriteSentinel(ok));
  }

  /** The ordinary course of a reflash, with and without keep_config: one flash, one clean connect, command and sentinel gone. */
  lemma ReflashSucceeds(keep: bool) returns (s: State)
    ensures Occurs(s) && Protected(s) && s.flashes == 1 && !s.freshFlash
    ensures s.connected && !s.needsClean && !s.removalDue && !s.queued && !s.sentinel && s.creds && !s.unremoved
  {
    s := Began(keep, true, false);
    s := Went(s, PublishCommand);
    s := Went(s, Boot);
    s := Went(s, ConnectOk);
    s := Handle(s, true);
    s := Went(s, ExecOk);
    s := Went(s, Boot);
    if !keep {
      s := Went(s, SaveCredentials);
      s := Went(s, FinishBootstrap);
    }
    s := Went(s, ConnectOk);
    s := Went(s, RemoveSentinel(true));
  }

  /** A sentinel that could not be written: the command is redelivered and flashes again. */
  lemma UnwrittenSentinelFlashesTwice() returns (s: State)
    ensures Occurs(s) && s.flashes == 2 && s.exposed && !s.interrupted
  {
    s := Began(true, true, false);
    s := Went(s, PublishCommand);
    s := Went(s, Boot);
    s := Went(s, ConnectOk);
    s := Handle(s, false);
    s := Went(s, ExecOk);
    s := Went(s, Boot);
    s := Went(s, ConnectOk);
    s := Handle(s, false);
    s := Went(s, ExecOk);
  }

  /** A restart right after bootstrap saved the credentials: the new process resumes the old session. */
  lemma InterruptedEnrollmentFlashesTwice() returns (s: State)
    ensures Occurs(s) && s.flashes == 2 && !s.exposed && s.interrupted
  {
    s := Began(false, true, false);
    s := Went(s, PublishCommand);
    s := Went(s, Boot);
    s := Went(s, ConnectOk);
    s := Handle(s, false);
    s := Went(s, ExecOk);
    s := Went(s, Boot);
    s := Went(s, SaveCredentials);
    s := Went(s, Restart);
    s := Went(s, Boot);
    s := Went(s, ConnectOk);
    s := Handle(s, false);
    s := Went(s, ExecOk);
  }
}
