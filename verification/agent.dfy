/**
 The agent's own fields behind the commit-confirm protocol, and the two routines that use them:
 handleConfigApply (internal/agent/agent_handlers.go) and the connectivity watchdog
 (internal/agent/rollback.go). Each method runs here without interference; CommitConfirm interleaves
 the same steps.
 */
module Agent {
  import opened Wrappers
  import opened Uci
  import opened Staging
  import opened Runner
  import opened Applier
  import opened Dedup
  import opened Rollback
  import opened CommitConfirm

  /** The arguments a watchdog goroutine is started with. */
  datatype Watchdog = Watchdog(cmd: string, applied: AppliedConfig, session: Option<nat>, channel: nat)

  datatype AppliedConfig = AppliedConfig(backup: Backup, packages: seq<string>)

  /** What the watchdog's select delivers, in the order it delivers it. */
  datatype Event = ConfirmClosed | TimerFired(sessionLive: bool) | SessionDropped

  /** None while the watchdog still waits, else whether the apply is confirmed. */
  function Verdict(session: Option<nat>, events: seq<Event>): Option<bool>
  {
    if session.None? then Some(false)
    else if events == [] then None
    else match events[0]
      case ConfirmClosed => Some(true)
      case TimerFired(live) => Some(live)
      case SessionDropped => Verdict(session, events[1..])
  }

  /** The number of session drops before the first other event. */
  function LeadingDrops(events: seq<Event>): (n: nat)
    ensures n <= |events|
    ensures forall k :: 0 <= k < n ==> events[k] == SessionDropped
    ensures n < |events| ==> events[n] != SessionDropped
  {
    if events == [] || events[0] != SessionDropped then 0
    else
      var n := LeadingDrops(events[1..]);
      assert forall k :: 0 < k <= n ==> k < |events| ==> events[k] == events[1..][k - 1];
      1 + n
  }

  /** A drop alone never decides: the watchdog rolls back only at its start or when the timer finds no session. */
  lemma {:induction false} VerdictMeaning(session: Option<nat>, events: seq<Event>)
    ensures var n := LeadingDrops(events);
            && (Verdict(session, events) == Some(false) <==>
                  session.None? || (n < |events| && events[n] == TimerFired(false)))
            && (Verdict(session, events) == Some(true) <==>
                  session.Some? && n < |events| && (events[n] == ConfirmClosed || events[n] == TimerFired(true)))
  {
    if session.Some? && events != [] && events[0] == SessionDropped {
      VerdictMeaning(session, events[1..]);
      var n := LeadingDrops(events[1..]);
      assert n < |events| - 1 ==> events[1..][n] == events[n + 1];
    }
  }

  /**
   A successful apply: every package of the payload holds what staging it yields on top of what was
   staged before, and restoring the backup brings back the whole config directory.
   */
  ghost predicate Sound(a: AppliedConfig, before: Disk, staged: map<string, Package>, after: Disk,
                        payload: Payload, gen: IdGen, misread: set<string>)
  {
    && Decodes(payload) && a.packages == PackageNames(payload)
    && Restored(after, a.backup, ToSet(a.packages)) == before
    && forall p :: p in a.packages ==>
         StageRead(p !in misread, ViewIn(before, staged, p), ConfigOf(payload, p), gen) == Some(SectionsIn(after, p))
  }

  /**
   A failed config_apply changed nothing, or did what a failed apply does: the packages committed before the
   failure hold what staging them yields, the others the sections they held, and the deltas are as Unstaged says.
   */
  ghost predicate Failed(before: Disk, staged: map<string, Package>, after: Disk, left: map<string, Package>,
                         payload: Payload, gen: IdGen, misread: set<string>)
  {
    (after == before && left == staged) || (Decodes(payload) && exists done :: PartlyDone(before, staged, after, left, payload, gen, misread, done))
  }

  ghost predicate PartlyDone(before: Disk, staged: map<string, Package>, after: Disk, left: map<string, Package>,
                             payload: Payload, gen: IdGen, misread: set<string>, done: seq<string>)
    requires Decodes(payload)
  {
    && done < PackageNames(payload) && Unstaged(staged, left, PackageNames(payload), done, false)
    && TouchesOnly(before, after, ToSet(PackageNames(payload)))
    && (forall p :: p in done ==> StageRead(p !in misread, ViewIn(before, staged, p), ConfigOf(payload, p), gen) == Some(SectionsIn(after, p)))
    && forall p :: p !in done ==> SectionsIn(after, p) == SectionsIn(before, p)
  }

  lemma SameNames(payload: Payload, pkgNames: seq<string>, committed: seq<string>)
    requires Decodes(payload) && committed == PackageNames(payload)
    requires forall p :: p in pkgNames <==> p in payload.entries && p != "packages" && p != "reboot"
    ensures ToSet(pkgNames) == ToSet(committed)
  {
    PackagesAre(payload);
  }

  class Agent {
    const runner: UCIRunner
    const applier: Applier
    const seen: SeenConfigApply
    var confirmCmdID: string
    var confirmCh: Option<nat>
    var pendingAck: Option<AckMessage>
    var watchdogActive: bool
    var session: Option<nat>
    /** Channels made so far are 0..channels; closed are those closed. */
    var channels: nat
    var closed: set<nat>
    var acks: seq<AckMessage>

    constructor (runner: UCIRunner)
      requires runner.Valid()
      ensures Valid() && fresh(seen) && this.runner == runner && seen.accepted == []
      ensures Slot() == IDLE && pendingAck.None? && !watchdogActive && session.None? && acks == [] && closed == {}
    {
      this.runner := runner;
      applier := new Applier(runner);
      seen := new SeenConfigApply();
      confirmCmdID, confirmCh, pendingAck, watchdogActive, session := "", None, None, false, None;
      channels, closed, acks := 0, {}, [];
    }

    function Slot(): ConfirmSlot
      reads this
    {
      ConfirmSlot(confirmCmdID, confirmCh)
    }

    function Shows(): View
      reads this, runner
    {
      View(confirmCmdID, confirmCh.Some?, pendingAck, watchdogActive, acks, runner.committed)
    }

    ghost predicate Valid()
      reads this, seen, runner
    {
      && applier.runner == runner && runner.Valid() && seen.Valid()
      && SlotOk()
    }

    /** The slot is idle or holds an open channel. */
    ghost predicate SlotOk()
      reads this
    {
      && (confirmCh.None? ==> confirmCmdID == "")
      && (confirmCh.Some? ==> confirmCh.value < channels && confirmCh.value !in closed)
      && (forall c :: c in closed ==> c < channels)
    }

    method SetWatchdogConfirm(cmdID: string, ch: nat)
      modifies this`confirmCmdID, this`confirmCh
      ensures Slot() == ConfirmSlot(cmdID, Some(ch))
    {
      confirmCmdID := cmdID;
      confirmCh := Some(ch);
    }

    method ClearWatchdogConfirm(cmdID: string)
      modifies this`confirmCmdID, this`confirmCh
      ensures Slot() == Cleared(old(Slot()), cmdID)
    {
      if confirmCmdID == cmdID {
        confirmCmdID := "";
        confirmCh := None;
      }
    }

    /** Delivered when the id is the registered one; the only panic is an empty id sent to an idle agent. */
    method SignalWatchdogConfirm(cmdID: string) returns (delivered: bool, panicked: bool)
      requires SlotOk()
      modifies this`confirmCmdID, this`confirmCh, this`closed
      ensures SlotOk()
      ensures Signal(Slot(), closed, panicked) == Signalled(old(Slot()), old(closed), cmdID)
      ensures panicked <==> cmdID == "" && old(confirmCh).None?
      ensures delivered <==> old(confirmCmdID) == cmdID && !panicked
    {
      if confirmCmdID == cmdID {
        if confirmCh.None? {
          return false, true;
        }
        closed := closed + {confirmCh.value};
        confirmCh := None;
        confirmCmdID := "";
        return true, false;
      }
      return false, false;
    }

    method TakePendingRollbackAck() returns (ack: Option<AckMessage>)
      modifies this`pendingAck
      ensures ack == old(pendingAck) && pendingAck.None?
    {
      ack := pendingAck;
      pendingAck := None;
    }

    method PublishAck(cmdID: string, status: Status)
      modifies this`acks
      ensures acks == old(acks) + [AckMessage(cmdID, status)]
    {
      acks := acks + [AckMessage(cmdID, status)];
    }

    /** The packages to back up, in no particular order. */
    method PackageKeys(payload: Payload) returns (pkgNames: seq<string>)
      requires payload.Object?
      ensures forall p :: p in pkgNames <==> p in payload.entries && p != "packages" && p != "reboot"
    {
      pkgNames := [];
      var rest := payload.entries.Keys;
      while rest != {}
        invariant rest <= payload.entries.Keys
        invariant forall p :: p in pkgNames <==> p in payload.entries && p !in rest && p != "packages" && p != "reboot"
        decreases |rest|
      {
        var k :| k in rest;
        rest := rest - {k};
        if k != "packages" && k != "reboot" {
          pkgNames := pkgNames + [k];
        }
      }
    }

    /** The middle of handleConfigApply: None means it failed and was answered with an error ack. */
    method BackUpAndApply(cmdID: string, payload: Payload) returns (r: Option<AppliedConfig>, ghost misread: set<string>)
      requires applier.runner == runner && runner.Valid()
      modifies this`acks, runner
      ensures runner.Valid()
      ensures old(runner.faults) <= runner.faults && (r.Some? ==> runner.faults == old(runner.faults))
      ensures |misread| == runner.unread - old(runner.unread)
      ensures runner.faults == old(runner.faults) ==>
                (r.Some? <==> Stageable(payload, old(runner.committed), old(runner.staged), misread, runner.gen))
      ensures runner.faults == old(runner.faults) && Orderly(old(runner.committed), old(runner.staged), runner.gen) ==>
                (r.Some? <==> Applicable(payload))
      ensures r.None? ==> acks == old(acks) + [AckMessage(cmdID, ErrorStatus)]
      ensures forall p :: p in runner.staged ==> p in old(runner.staged) && runner.staged[p] == old(runner.staged)[p]
      ensures r.Some? ==> forall p :: p in r.value.packages ==> p !in runner.staged
      ensures r.None? ==>
                Failed(old(runner.committed), old(runner.staged), runner.committed, runner.staged, payload, runner.gen, misread)
      ensures r.Some? ==> acks == old(acks)
      ensures r.Some? ==>
                Sound(r.value, old(runner.committed), old(runner.staged), runner.committed, payload, runner.gen, misread)
    {
      misread := {};
      if payload.NotAnObject? {
        PublishAck(cmdID, ErrorStatus);
        return None, misread;
      }
      var pkgNames := PackageKeys(payload);
      var backup := BackupConfigFiles(runner, pkgNames);
      if backup.Err? {
        PublishAck(cmdID, ErrorStatus);
        return None, misread;
      }
      var committed: seq<string>, ok: bool;
      committed, ok, misread := applier.Apply(payload);
      if !ok {
        PublishAck(cmdID, ErrorStatus);
        if Decodes(payload) {
          assert PartlyDone(old(runner.committed), old(runner.staged), runner.committed, runner.staged, payload, runner.gen, misread, committed);
        }
        return None, misread;
      }
      SameNames(payload, pkgNames, committed);
      RestoreUndoes(old(runner.committed), runner.committed, ToSet(pkgNames));
      return Some(AppliedConfig(backup.value, committed)), misread;
    }

    /**
     A redelivery changes nothing. A new command either is answered with an error ack and launches no
     watchdog, or is not answered yet and launches one that holds the confirm slot and a backup that
     undoes the apply on the whole config directory. Unless an operation failed that could have been done,
     it launches exactly if the payload decodes and every package can be staged.
     */
    method HandleConfigApply(cmdID: string, payload: Payload) returns (launched: Option<Watchdog>, ghost misread: set<string>)
      requires Valid()
      modifies this`acks, this`confirmCmdID, this`confirmCh, this`watchdogActive, this`channels, seen, runner
      ensures Valid()
      ensures seen.accepted == if Recent(old(seen.accepted), cmdID) then old(seen.accepted) else old(seen.accepted) + [cmdID]
      ensures Recent(old(seen.accepted), cmdID) ==>
                launched.None? && acks == old(acks) && runner.committed == old(runner.committed) && runner.staged == old(runner.staged)
      ensures !Recent(old(seen.accepted), cmdID) ==>
                acks == if launched.None? then old(acks) + [AckMessage(cmdID, ErrorStatus)] else old(acks)
      ensures |misread| == runner.unread - old(runner.unread)
      ensures runner.faults == old(runner.faults) && !Recent(old(seen.accepted), cmdID) ==>
                (launched.Some? <==> Stageable(payload, old(runner.committed), old(runner.staged), misread, runner.gen))
      ensures runner.faults == old(runner.faults) && !Recent(old(seen.accepted), cmdID) ==>
                Orderly(old(runner.committed), old(runner.staged), runner.gen) ==> (launched.Some? <==> Applicable(payload))
      ensures forall p :: p in runner.staged ==> p in old(runner.staged) && runner.staged[p] == old(runner.staged)[p]
      ensures launched.Some? ==> forall p :: p in launched.value.applied.packages ==> p !in runner.staged
      ensures launched.None? ==>
                Failed(old(runner.committed), old(runner.staged), runner.committed, runner.staged, payload, runner.gen, misread)
      ensures launched.None? ==> Slot() == old(Slot()) && watchdogActive == old(watchdogActive)
      ensures !Recent(old(seen.accepted), cmdID) ==>
                Shows() == if launched.None? then Refused(old(Shows()), cmdID, runner.committed)
                           else Launched(old(Shows()), cmdID, runner.committed)
      ensures launched.Some? ==> Slot() == ConfirmSlot(cmdID, Some(launched.value.channel)) && watchdogActive
      ensures launched.Some? ==> launched.value == Watchdog(cmdID, launched.value.applied, session, old(channels))
      ensures launched.Some? ==>
                Sound(launched.value.applied, old(runner.committed), old(runner.staged), runner.committed, payload, runner.gen, misread)
    {
      var duplicate := seen.WasConfigApplySeen(cmdID);
      misread := {};
      if duplicate {
        return None, misread;
      }
      var applied: Option<AppliedConfig>;
      applied, misread := BackUpAndApply(cmdID, payload);
      if applied.None? {
        return None, misread;
      }
      var w := LaunchWatchdog(cmdID, applied.value);
      return Some(w), misread;
    }

    /** The end of handleConfigApply: the confirm channel is in the slot before the goroutine starts. */
    method LaunchWatchdog(cmdID: string, applied: AppliedConfig) returns (w: Watchdog)
      requires SlotOk()
      modifies this`confirmCmdID, this`confirmCh, this`watchdogActive, this`channels
      ensures SlotOk() && watchdogActive
      ensures w == Watchdog(cmdID, applied, session, old(channels))
      ensures Slot() == ConfirmSlot(cmdID, Some(w.channel))
    {
      var ch := channels;
      channels := channels + 1;
      SetWatchdogConfirm(cmdID, ch);
      watchdogActive := true;
      w := Watchdog(cmdID, applied, session, ch);
    }

    method DoRollback(cmdID: string, backup: Backup, packages: seq<string>) returns (ok: bool)
      modifies this`pendingAck, runner`committed, runner`faults
      ensures ok <==> runner.faults == old(runner.faults)
      ensures pendingAck == Some(AckMessage(cmdID, ErrorStatus))
      ensures SameOutside(old(runner.committed), runner.committed, ToSet(packages))
      ensures ok ==> runner.committed == Restored(old(runner.committed), backup, ToSet(packages))
    {
      ghost var failed;
      ok, failed := Restore(runner, backup, packages);
      pendingAck := Some(AckMessage(cmdID, ErrorStatus));
    }

    /**
     The watchdog, given the events its select delivers: it confirms with one ok ack or rolls back with
     one queued error ack, as Verdict says, and then frees its own slot entry and the flag.
     */
    method RunConnectivityWatchdog(w: Watchdog, events: seq<Event>) returns (verdict: Option<bool>, filesOk: bool)
      modifies this`confirmCmdID, this`confirmCh, this`pendingAck, this`watchdogActive, this`acks, runner`committed, runner`faults
      ensures filesOk <==> runner.faults == old(runner.faults)
      ensures verdict == Verdict(w.session, events)
      ensures verdict.None? ==> Slot() == old(Slot()) && watchdogActive == old(watchdogActive)
      ensures verdict.Some? ==> Slot() == Cleared(old(Slot()), w.cmd) && !watchdogActive
      ensures verdict.Some? ==> Shows() == Ended(old(Shows()), w.cmd, verdict.value, runner.committed)
      ensures acks == if verdict == Some(true) then old(acks) + [AckMessage(w.cmd, OkStatus)] else old(acks)
      ensures pendingAck == if verdict == Some(false) then Some(AckMessage(w.cmd, ErrorStatus)) else old(pendingAck)
      ensures verdict != Some(false) ==> runner.committed == old(runner.committed)
      ensures SameOutside(old(runner.committed), runner.committed, ToSet(w.applied.packages))
      ensures verdict == Some(false) && filesOk ==>
                runner.committed == Restored(old(runner.committed), w.applied.backup, ToSet(w.applied.packages))
    {
      verdict, filesOk := None, true;
      if w.session.None? {
        filesOk := DoRollback(w.cmd, w.applied.backup, w.applied.packages);
        verdict := Some(false);
      } else {
        var i := 0;
        while i < |events| && verdict.None?
          invariant 0 <= i <= |events|
          invariant filesOk <==> runner.faults == old(runner.faults)
          invariant verdict.None? ==> filesOk
          invariant verdict.None? ==> Verdict(w.session, events) == Verdict(w.session, events[i..])
          invariant verdict.Some? ==> verdict == Verdict(w.session, events)
          invariant Slot() == old(Slot()) && watchdogActive == old(watchdogActive)
          invariant acks == if verdict == Some(true) then old(acks) + [AckMessage(w.cmd, OkStatus)] else old(acks)
          invariant pendingAck == if verdict == Some(false) then Some(AckMessage(w.cmd, ErrorStatus)) else old(pendingAck)
          invariant verdict != Some(false) ==> runner.committed == old(runner.committed)
          invariant SameOutside(old(runner.committed), runner.committed, ToSet(w.applied.packages))
          invariant verdict == Some(false) && filesOk ==>
            runner.committed == Restored(old(runner.committed), w.applied.backup, ToSet(w.applied.packages))
          decreases |events| - i
        {
          match events[i] {
            case ConfirmClosed =>
              PublishAck(w.cmd, OkStatus);
              verdict := Some(true);
            case TimerFired(live) =>
              if live {
                PublishAck(w.cmd, OkStatus);
              } else {
                filesOk := DoRollback(w.cmd, w.applied.backup, w.applied.packages);
              }
              verdict := Some(live);
            case SessionDropped =>
          }
          i := i + 1;
        }
      }
      if verdict.Some? {
        ClearWatchdogConfirm(w.cmd);
        watchdogActive := false;
      }
    }
  }
}
