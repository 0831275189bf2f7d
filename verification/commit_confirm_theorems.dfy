/** The promises of the commit-confirm protocol, over all runs. */
module CommitConfirmTheorems {
  import opened Wrappers
  import opened Runner
  import opened Dedup
  import opened Rollback
  import opened CommitConfirm
  import opened CommitConfirmSafety

  // ---------------------------------------------------------------- what is accepted

  /** A delivery is accepted exactly if its id is not one of the last 32 accepted; a redelivery changes nothing. */
  lemma DeliveryIsAcceptedExactly(trace: seq<State>, actions: seq<Action>, n: nat, cmd: string, packages: set<string>)
    requires IsRun(trace, actions) && n < |actions| && actions[n] == Deliver(cmd, packages)
    ensures trace[n + 1] == if Recent(Commands(trace[n].tasks), cmd) then trace[n]
                            else trace[n].(tasks := trace[n].tasks
                              + [Task(cmd, Accepted, Undecided, packages, trace[n].disk, map[], trace[n].disk)])
  {
    assert Step(trace[n], actions[n], trace[n + 1]);
    WindowIsRecent(Commands(trace[n].tasks), cmd);
  }

  // ---------------------------------------------------------------- one answer per command

  lemma AcksOnlyGrow(s: State, a: Action)
    requires Enabled(s, a)
    ensures s.acks <= Do(s, a).acks
  {
    match a {
      case Reject(_, _) =>
      case AckOk(_) =>
      case SendPending =>
      case _ =>
    }
  }

  /** The log of sent acks only grows, so what holds of the log at the end holds of the whole run. */
  lemma {:induction false} SentAcksStaySent(trace: seq<State>, actions: seq<Action>, m: nat, n: nat)
    requires IsRun(trace, actions) && m <= n < |trace|
    ensures trace[m].acks <= trace[n].acks
  {
    if m < n {
      SentAcksStaySent(trace, actions, m, n - 1);
      assert Step(trace[n - 1], actions[n - 1], trace[n - 1 + 1]);
      AcksOnlyGrow(trace[n - 1], actions[n - 1]);
    }
  }

  /** Two different acceptances of one id, with at least 32 other ids accepted between them. */
  ghost predicate FarApart(s: State, t: nat, u: nat)
  {
    var from, to := if t < u then t else u, if t < u then u else t;
    from < to < |s.tasks| && ManyBetween(Commands(s.tasks), from, to)
  }

  /** One id accepted twice, and at least 32 other ids in between. */
  ghost predicate ManyBetween(ids: seq<string>, from: nat, to: nat)
    requires from < to < |ids|
  {
    ids[from] == ids[to] && |Ids(ids[from + 1..to]) - {ids[to]}| >= 32
  }

  lemma RepeatIsFarApart(ids: seq<string>, from: nat, to: nat)
    requires Admitted(ids) && from < to < |ids| && ids[from] == ids[to]
    ensures ManyBetween(ids, from, to)
  {
    ReacceptedAfterManyOthers(ids, from, to);
  }

  lemma SameIdIsFarApart(s: State, t: nat, u: nat)
    requires Inv(s) && t != u && t < |s.tasks| && u < |s.tasks| && s.tasks[t].cmd == s.tasks[u].cmd
    ensures FarApart(s, t, u)
  {
    if t < u {
      RepeatIsFarApart(Commands(s.tasks), t, u);
    } else {
      RepeatIsFarApart(Commands(s.tasks), u, t);
    }
  }

  /**
   However commands, confirms, timers and sessions interleave, two acks for the same cmd_id answer two
   deliveries of it that were both accepted, and at least 32 other ids were accepted in between.
   */
  lemma OneAnswerPerCommand(trace: seq<State>, actions: seq<Action>, n: nat, i: nat, j: nat)
    requires IsRun(trace, actions) && n < |trace| && i < j < |trace[n].acks|
    requires trace[n].acks[i].cmd == trace[n].acks[j].cmd
    ensures FarApart(trace[n], trace[n].acks[i].task, trace[n].acks[j].task)
  {
    RunsKeepInv(trace, actions, n);
    var s := trace[n];
    assert AckFits(s, s.acks[i]) && AckFits(s, s.acks[j]);
    SameIdIsFarApart(s, s.acks[i].task, s.acks[j].task);
  }

  predicate Sent(s: State, t: nat, status: Status)
  {
    exists i :: 0 <= i < |s.acks| && s.acks[i].task == t && s.acks[i].status == status
  }

  /**
   An accepted command that is done with was answered in exactly one way: rejected with an error ack,
   confirmed with an ok ack, or rolled back with an error ack that is sent, still queued, or was
   overwritten by a later rollback before it could be sent. One that is not done with was not answered.
   */
  lemma EveryCommandEndsOnce(trace: seq<State>, actions: seq<Action>, n: nat, t: nat)
    requires IsRun(trace, actions) && n < |trace| && t < |trace[n].tasks|
    ensures var s, task := trace[n], trace[n].tasks[t];
            && (Answered(task) ==> task.outcome != Undecided)
            && (Answered(task) && task.outcome != RolledBack ==>
                  Sent(s, t, StatusOf(task.outcome)) && t !in PendingTask(s) + s.lost)
            && (Answered(task) && task.outcome == RolledBack ==>
                  if Sent(s, t, ErrorStatus) then t !in PendingTask(s) + s.lost
                  else (t in PendingTask(s) <==> t !in s.lost))
            && (Sent(s, t, OkStatus) <==> Answered(task) && task.outcome == Confirmed)
            && (Sent(s, t, ErrorStatus) ==> Answered(task) && task.outcome != Confirmed)
            && (t in PendingTask(s) + s.lost ==> Answered(task) && task.outcome == RolledBack)
  {
    RunsKeepInv(trace, actions, n);
    var s, task := trace[n], trace[n].tasks[t];
    assert t in AckedTasks(s.acks) <==> Sent(s, t, OkStatus) || Sent(s, t, ErrorStatus);
    assert Sent(s, t, OkStatus) ==> Answered(task) && task.outcome == Confirmed by {
      if Sent(s, t, OkStatus) {
        var i :| 0 <= i < |s.acks| && s.acks[i].task == t && s.acks[i].status == OkStatus;
        assert AckFits(s, s.acks[i]);
      }
    }
    assert Sent(s, t, ErrorStatus) ==> Answered(task) && task.outcome != Confirmed by {
      if Sent(s, t, ErrorStatus) {
        var i :| 0 <= i < |s.acks| && s.acks[i].task == t && s.acks[i].status == ErrorStatus;
        assert AckFits(s, s.acks[i]);
      }
    }
  }

  /** A queued error ack is lost exactly when another rollback queues its own before it was sent. */
  lemma AckIsLostExactly(trace: seq<State>, actions: seq<Action>, n: nat, t: nat)
    requires IsRun(trace, actions) && n < |actions| && t !in trace[n].lost
    ensures t in trace[n + 1].lost <==> t in PendingTask(trace[n]) && actions[n].QueueError?
  {
    assert Step(trace[n], actions[n], trace[n + 1]);
    LostStep(trace[n], actions[n]);
  }

  lemma LostStep(s: State, a: Action)
    requires Enabled(s, a)
    ensures Do(s, a).lost == s.lost + if a.QueueError? then PendingTask(s) else {}
  {
    match a {
      case QueueError(_) =>
      case _ =>
    }
  }

  lemma PendingStep(s: State, a: Action)
    requires Enabled(s, a) && !a.QueueError?
    ensures PendingTask(Do(s, a)) == if a.SendPending? then {} else PendingTask(s)
    ensures a.SendPending? ==> Do(s, a).acks == s.acks + [s.pending.value]
  {
    match a {
      case SendPending =>
      case _ =>
    }
  }

  /** The error ack of t is on its way, or was sent. */
  ghost predicate InHand(s: State, t: nat)
  {
    t !in s.lost && (t in PendingTask(s) || Sent(s, t, ErrorStatus))
  }

  /** An ack that was sent cannot be lost any more. */
  lemma SentStaysInHand(s: State, a: Action, t: nat)
    requires Inv(s) && Enabled(s, a) && t !in s.lost && Sent(s, t, ErrorStatus)
    ensures InHand(Do(s, a), t)
  {
    LostStep(s, a);
    AcksOnlyGrow(s, a);
    var i :| 0 <= i < |s.acks| && s.acks[i].task == t && s.acks[i].status == ErrorStatus;
    assert Do(s, a).acks[i] == s.acks[i];
    assert t in AckedTasks(s.acks);
  }

  lemma QueuedStaysInHand(s: State, a: Action, t: nat)
    requires Inv(s) && Enabled(s, a) && InHand(s, t) && t in PendingTask(s) && !a.QueueError?
    ensures InHand(Do(s, a), t)
  {
    LostStep(s, a);
    PendingStep(s, a);
    if a.SendPending? {
      var r := Do(s, a);
      assert AckFits(s, s.pending.value);
      assert r.acks[|s.acks|].task == t && r.acks[|s.acks|].status == ErrorStatus;
    }
  }

  lemma StaysInHand(s: State, a: Action, r: State, t: nat)
    requires Inv(s) && Step(s, a, r) && InHand(s, t) && LeavesAckAlone(s, a, t)
    ensures InHand(r, t)
  {
    if Sent(s, t, ErrorStatus) {
      SentStaysInHand(s, a, t);
    } else {
      QueuedStaysInHand(s, a, t);
    }
  }

  /** No rollback queues its ack at this step, unless the ack of t was sent before. */
  ghost predicate LeavesAckAlone(s: State, a: Action, t: nat)
  {
    a.QueueError? ==> Sent(s, t, ErrorStatus)
  }

  ghost predicate AckLeftAlone(trace: seq<State>, actions: seq<Action>, m: nat, n: nat, t: nat)
    requires n <= |actions| && n <= |trace|
  {
    forall k: nat :: m <= k < n ==> LeavesAckAlone(trace[k], actions[k], t)
  }

  lemma StaysInHandNow(trace: seq<State>, actions: seq<Action>, n: nat, t: nat)
    requires IsRun(trace, actions) && n < |actions| && InHand(trace[n], t) && LeavesAckAlone(trace[n], actions[n], t)
    ensures InHand(trace[n + 1], t)
  {
    RunsKeepInv(trace, actions, n);
    assert Step(trace[n], actions[n], trace[n + 1]);
    StaysInHand(trace[n], actions[n], trace[n + 1], t);
  }

  /**
   An error ack that was queued is never lost as long as no other rollback queues one before it is sent: at
   every later moment it is still queued, or has been sent.
   */
  lemma {:induction false} QueuedAckSurvives(trace: seq<State>, actions: seq<Action>, m: nat, n: nat, t: nat)
    requires IsRun(trace, actions) && m <= n < |trace| && t !in trace[m].lost && t in PendingTask(trace[m])
    requires AckLeftAlone(trace, actions, m, n, t)
    ensures InHand(trace[n], t)
  {
    if m < n {
      QueuedAckSurvives(trace, actions, m, n - 1, t);
      StaysInHandNow(trace, actions, n - 1, t);
    }
  }

  /** At this step command t went from undecided to the outcome, on the grounds the outcome needs. */
  ghost predicate DecidedHere(s: State, r: State, t: nat, outcome: Outcome)
  {
    && t < |s.tasks| && t < |r.tasks| && s.tasks[t].outcome == Undecided && r.tasks[t].outcome == outcome
    && (outcome == Confirmed ==> t in s.closed || s.session.Some?)
    && (outcome == RolledBack ==> s.session.None?)
  }

  predicate Decides(a: Action)
  {
    a.Reject? || a.Spawn? || a.SeeConfirm? || a.TimerFires?
  }

  lemma DecidingStep(s: State, a: Action)
    requires AckInv(s) && Enabled(s, a) && Decides(a)
    ensures DecidedHere(s, Do(s, a), a.task, Do(s, a).tasks[a.task].outcome)
    ensures OneMoved(s, Do(s, a), a.task)
  {
    match a {
      case Reject(t, _) => assert PhaseFits(s.tasks[t]);
      case Spawn(t) => assert PhaseFits(s.tasks[t]);
      case SeeConfirm(t) => assert PhaseFits(s.tasks[t]);
      case TimerFires(t) => assert PhaseFits(s.tasks[t]);
    }
  }

  lemma OtherStep(s: State, a: Action, t: nat)
    requires Enabled(s, a) && !Decides(a) && t < |Do(s, a).tasks|
    ensures if t < |s.tasks| then Do(s, a).tasks[t].outcome == s.tasks[t].outcome else Do(s, a).tasks[t].outcome == Undecided
  {
  }

  lemma OutcomeStep(s: State, a: Action, t: nat)
    requires AckInv(s) && Enabled(s, a) && t < |Do(s, a).tasks| && Do(s, a).tasks[t].outcome != Undecided
    ensures (t < |s.tasks| && s.tasks[t].outcome == Do(s, a).tasks[t].outcome)
            || DecidedHere(s, Do(s, a), t, Do(s, a).tasks[t].outcome)
  {
    if Decides(a) {
      DecidingStep(s, a);
    } else {
      OtherStep(s, a, t);
    }
  }

  /**
   An outcome is reached once and never revised. A command is confirmed only at a moment when its
   confirm channel is closed or a session is up, and rolled back only when there is no session.
   */
  lemma {:induction false} OutcomesHaveGrounds(trace: seq<State>, actions: seq<Action>, n: nat, t: nat) returns (m: nat)
    requires IsRun(trace, actions) && n < |trace| && t < |trace[n].tasks| && trace[n].tasks[t].outcome != Undecided
    ensures m < n && DecidedHere(trace[m], trace[m + 1], t, trace[n].tasks[t].outcome)
    ensures forall k :: m < k <= n ==> t < |trace[k].tasks| && trace[k].tasks[t].outcome == trace[n].tasks[t].outcome
  {
    assert n > 0;
    RunsKeepInv(trace, actions, n - 1);
    assert Step(trace[n - 1], actions[n - 1], trace[n - 1 + 1]);
    OutcomeStep(trace[n - 1], actions[n - 1], t);
    m := n - 1;
    if t < |trace[n - 1].tasks| && trace[n - 1].tasks[t].outcome == trace[n].tasks[t].outcome {
      m := OutcomesHaveGrounds(trace, actions, n - 1, t);
    }
  }

  /**
   A command whose confirm channel is closed is rolled back all the same exactly when its deciding step is
   the timer, or the start of its watchdog, and there is no session.
   */
  lemma ConfirmLosesExactly(trace: seq<State>, actions: seq<Action>, n: nat, t: nat)
    requires IsRun(trace, actions) && n < |actions| && t < |trace[n].tasks| && t in trace[n].closed
    requires trace[n].tasks[t].outcome == Undecided
    requires t < |trace[n + 1].tasks| && trace[n + 1].tasks[t].outcome != Undecided
    ensures trace[n + 1].tasks[t].outcome == RolledBack
            <==> (actions[n] == TimerFires(t) || actions[n] == Spawn(t)) && trace[n].session.None?
    ensures trace[n + 1].tasks[t].outcome == Confirmed
            <==> actions[n] == SeeConfirm(t) || (actions[n] == TimerFires(t) && trace[n].session.Some?)
  {
    RunsKeepInv(trace, actions, n);
    var s, a := trace[n], actions[n];
    assert Step(s, a, trace[n + 1]);
    assert WasRegistered(s.tasks[t]);
    if Decides(a) {
      DecidingStep(s, a);
    } else {
      OtherStep(s, a, t);
    }
  }

  // ---------------------------------------------------------------- the confirm slot

  /** A config_confirm crashes the agent exactly when its id is empty and nothing awaits confirmation. */
  lemma ConfirmCrashesExactly(trace: seq<State>, actions: seq<Action>, n: nat, cmd: string)
    requires IsRun(trace, actions) && n < |trace| && Enabled(trace[n], Confirm(cmd))
    ensures Do(trace[n], Confirm(cmd)).crashed <==> cmd == "" && trace[n].slot.channel.None?
  {
    RunsKeepInv(trace, actions, n);
  }

  /** The input that does it: an empty id sent to an idle agent closes a nil channel. */
  lemma EmptyConfirmCrashesIdleAgent(disk: Disk)
    ensures Enabled(Start(disk), Confirm("")) && Do(Start(disk), Confirm("")).crashed
  {
  }

  ghost predicate ReachesOne(s: State, cmd: string, r: State)
  {
    exists t: nat :: t < |s.tasks| && t !in s.closed && s.tasks[t].cmd == cmd && MayHoldSlot(s.tasks[t])
                     && r == s.(closed := s.closed + {t}, slot := IDLE)
  }

  /**
   A confirm changes nothing unless its id is the registered one; then it closes the channel of a still
   watched command with this id, which was open, and frees the slot.
   */
  lemma ConfirmReachesItsCommand(trace: seq<State>, actions: seq<Action>, n: nat, cmd: string)
    requires IsRun(trace, actions) && n < |trace| && Enabled(trace[n], Confirm(cmd)) && cmd != ""
    ensures if trace[n].slot.cmd == cmd then ReachesOne(trace[n], cmd, Do(trace[n], Confirm(cmd)))
            else Do(trace[n], Confirm(cmd)) == trace[n]
  {
    RunsKeepInv(trace, actions, n);
    var s := trace[n];
    if s.slot.cmd == cmd {
      var t := s.slot.channel.value;
      assert Do(s, Confirm(cmd)) == s.(closed := s.closed + {t}, slot := IDLE);
    }
  }

  /**
   A watchdog that exits takes another command's channel out of the slot only if both carry the same
   id, which takes at least 32 other accepted ids between them.
   */
  lemma ExitSparesOthers(trace: seq<State>, actions: seq<Action>, n: nat, t: nat, u: nat)
    requires IsRun(trace, actions) && n < |trace| && Enabled(trace[n], Unregister(t))
    requires trace[n].slot.channel == Some(u) && u != t && Do(trace[n], Unregister(t)).slot != trace[n].slot
    ensures FarApart(trace[n], t, u)
  {
    RunsKeepInv(trace, actions, n);
    SameIdIsFarApart(trace[n], t, u);
  }

  // ---------------------------------------------------------------- one command at a time

  predicate AllFinished(s: State)
  {
    forall t :: 0 <= t < |s.tasks| ==> s.tasks[t].phase == Finished
  }

  /** No command is accepted while another one is being handled or watched. */
  ghost predicate OneAtATime(trace: seq<State>, actions: seq<Action>)
    requires IsRun(trace, actions)
  {
    forall i :: 0 <= i < |actions| && actions[i].Deliver? && trace[i + 1].tasks != trace[i].tasks ==> AllFinished(trace[i])
  }

  predicate Flying(task: Task)
  {
    !(task.phase.Accepted? || task.phase.BackedUp? || task.phase.Applied? || task.phase.Registered? || task.phase.Finished?)
  }

  /** What the last command's progress says about the directory. */
  ghost predicate DiskFits(s: State, task: Task)
  {
    && (task.phase.Accepted? || task.phase.BackedUp? ==> s.disk == task.start)
    && (!task.phase.Accepted? && task.outcome != Rejected ==> task.backup == BackupOf(task.start, task.packages))
    && (!task.phase.Accepted? && !task.phase.BackedUp? && task.outcome != Rejected ==>
          SameOutside(task.start, task.after, task.packages))
    && (!task.phase.Accepted? && !task.phase.BackedUp? && (task.outcome == Undecided || task.outcome == Confirmed) ==>
          s.disk == task.after)
    && (task.phase.RollbackDue? ==> s.disk == task.after)
    && (task.outcome == RolledBack && !task.phase.RollbackDue? && |s.tasks| - 1 !in s.fileErrors ==> s.disk == task.start)
  }

  ghost predicate AloneInv(s: State)
  {
    && (forall t :: 0 <= t < |s.tasks| - 1 ==> s.tasks[t].phase == Finished)
    && (s.tasks != [] ==> PhaseFits(s.tasks[|s.tasks| - 1]))
    && (s.watchdogActive <==> s.tasks != [] && Flying(s.tasks[|s.tasks| - 1]))
  }

  ghost predicate DiskOk(s: State)
  {
    s.tasks != [] ==> DiskFits(s, s.tasks[|s.tasks| - 1])
  }

  lemma AloneBeforeDecision(s: State, a: Action)
    requires AloneInv(s) && Enabled(s, a) && BeforeDecision(a)
    ensures AloneInv(Do(s, a)) && (DiskOk(s) ==> DiskOk(Do(s, a)))
  {
  }

  lemma AloneRestore(s: State, t: nat, left: Disk)
    requires AloneInv(s) && Enabled(s, RestoreFiles(t, left))
    ensures AloneInv(Do(s, RestoreFiles(t, left))) && (DiskOk(s) ==> DiskOk(Do(s, RestoreFiles(t, left))))
  {
    var task := s.tasks[t];
    RestoreUndoes(task.start, task.after, task.packages);
  }

  lemma AloneDecide(s: State, a: Action)
    requires AloneInv(s) && Enabled(s, a) && (a.SeeConfirm? || a.TimerFires?)
    ensures AloneInv(Do(s, a)) && (DiskOk(s) ==> DiskOk(Do(s, a)))
  {
  }

  lemma AloneExit(s: State, a: Action)
    requires AloneInv(s) && Enabled(s, a) && (a.Unregister? || a.Unflag?)
    ensures AloneInv(Do(s, a)) && (DiskOk(s) ==> DiskOk(Do(s, a)))
  {
  }

  lemma AloneAfterDecision(s: State, a: Action)
    requires AloneInv(s) && Enabled(s, a) && AfterDecision(a)
    ensures AloneInv(Do(s, a)) && (DiskOk(s) ==> DiskOk(Do(s, a)))
  {
    if a.RestoreFiles? {
      AloneRestore(s, a.task, a.left);
    } else if a.SeeConfirm? || a.TimerFires? {
      AloneDecide(s, a);
    } else {
      AloneExit(s, a);
    }
  }

  lemma AloneOtherwise(s: State, a: Action)
    requires AloneInv(s) && Enabled(s, a) && !BeforeDecision(a) && !AfterDecision(a)
    requires a.Deliver? && Do(s, a).tasks != s.tasks ==> AllFinished(s)
    ensures AloneInv(Do(s, a)) && |s.tasks| <= |Do(s, a).tasks|
    ensures |Do(s, a).tasks| > |s.tasks| || (DiskOk(s) && !a.OtherWrite?) ==> DiskOk(Do(s, a))
  {
  }

  lemma AloneStep(s: State, a: Action)
    requires AloneInv(s) && Enabled(s, a)
    requires a.Deliver? && Do(s, a).tasks != s.tasks ==> AllFinished(s)
    ensures AloneInv(Do(s, a)) && |s.tasks| <= |Do(s, a).tasks|
    ensures |Do(s, a).tasks| > |s.tasks| || (DiskOk(s) && !a.OtherWrite?) ==> DiskOk(Do(s, a))
  {
    if BeforeDecision(a) {
      AloneBeforeDecision(s, a);
    } else if AfterDecision(a) {
      AloneAfterDecision(s, a);
    } else {
      AloneOtherwise(s, a);
    }
  }

  lemma {:induction false} RunsKeepAlone(trace: seq<State>, actions: seq<Action>, n: nat)
    requires IsRun(trace, actions) && OneAtATime(trace, actions) && n < |trace|
    ensures AloneInv(trace[n])
  {
    if n > 0 {
      RunsKeepAlone(trace, actions, n - 1);
      assert Step(trace[n - 1], actions[n - 1], trace[n - 1 + 1]);
      AloneStep(trace[n - 1], actions[n - 1]);
    }
  }

  /** Since the last command was accepted, no other handler wrote to the directory. */
  ghost predicate NoOtherWrite(trace: seq<State>, actions: seq<Action>, n: nat)
    requires n <= |actions| && n < |trace|
  {
    forall k :: 0 <= k < n && actions[k].OtherWrite? ==> |trace[k].tasks| < |trace[n].tasks|
  }

  lemma {:induction false} RunsKeepDisk(trace: seq<State>, actions: seq<Action>, n: nat)
    requires IsRun(trace, actions) && OneAtATime(trace, actions) && n < |trace| && NoOtherWrite(trace, actions, n)
    ensures AloneInv(trace[n]) && DiskOk(trace[n])
  {
    RunsKeepAlone(trace, actions, n);
    if n > 0 {
      RunsKeepAlone(trace, actions, n - 1);
      assert Step(trace[n - 1], actions[n - 1], trace[n - 1 + 1]);
      AloneStep(trace[n - 1], actions[n - 1]);
      if |trace[n].tasks| == |trace[n - 1].tasks| {
        RunsKeepDisk(trace, actions, n - 1);
      }
    }
  }

  /**
   One command at a time, no other writer since it was accepted and no file errors: when a command has been
   rolled back, the whole config directory is what it was when the command was accepted; from the moment it
   may be confirmed until the next command, the directory is what the apply left.
   */
  lemma RollbackAndConfirmMeanIt(trace: seq<State>, actions: seq<Action>, n: nat)
    requires IsRun(trace, actions) && OneAtATime(trace, actions) && n < |trace| && trace[n].tasks != []
    requires NoOtherWrite(trace, actions, n)
    ensures var s, task := trace[n], trace[n].tasks[|trace[n].tasks| - 1];
            && (Answered(task) && task.outcome == RolledBack && |s.tasks| - 1 !in s.fileErrors ==> s.disk == task.start)
            && (task.outcome == Confirmed ==> s.disk == task.after)
    ensures forall t: nat :: Enabled(trace[n], AckOk(t)) ==> trace[n].disk == trace[n].tasks[t].after
  {
    RunsKeepDisk(trace, actions, n);
  }

  /** One command at a time: the flag is set exactly while a watchdog is on its way, whoever writes files. */
  lemma FlagMeansWatchdog(trace: seq<State>, actions: seq<Action>, n: nat)
    requires IsRun(trace, actions) && OneAtATime(trace, actions) && n < |trace|
    ensures trace[n].watchdogActive <==> exists t :: 0 <= t < |trace[n].tasks| && Flying(trace[n].tasks[t])
  {
    RunsKeepAlone(trace, actions, n);
    if trace[n].watchdogActive {
      assert Flying(trace[n].tasks[|trace[n].tasks| - 1]);
    }
  }

  /** The last command holds the slot from its registration until it is confirmed or exits. */
  ghost predicate HoldsSlot(s: State)
  {
    s.tasks != [] && Watched(s, |s.tasks| - 1) ==>
      s.slot == ConfirmSlot(s.tasks[|s.tasks| - 1].cmd, Some(|s.tasks| - 1))
  }

  predicate Watched(s: State, t: nat)
    requires t < |s.tasks|
  {
    WasRegistered(s.tasks[t]) && MayHoldSlot(s.tasks[t]) && t !in s.closed
  }

  lemma HoldsSlotKept(s: State, a: Action)
    requires SlotInv(s) && AloneInv(s) && HoldsSlot(s) && Enabled(s, a)
    ensures HoldsSlot(Do(s, a))
  {
    if a.Deliver? {
      NewTaskIsUnwatched(s, a.cmd, a.packages);
    } else if !(a.Confirm? || a.SessionUp? || a.SessionDrop? || a.SessionEnd? || a.OtherWrite? || a.SendPending?) {
      assert a.task == |s.tasks| - 1;
      if a.Register? || a.Unregister? {
        SlotChanges(s, a);
      } else {
        SlotStays(s, a);
      }
    }
  }

  lemma NewTaskIsUnwatched(s: State, cmd: string, packages: set<string>)
    requires HoldsSlot(s) && !s.crashed
    ensures HoldsSlot(Do(s, Deliver(cmd, packages)))
  {
  }

  lemma SlotChanges(s: State, a: Action)
    requires HoldsSlot(s) && Enabled(s, a) && (a.Register? || a.Unregister?) && a.task == |s.tasks| - 1
    ensures HoldsSlot(Do(s, a))
  {
  }

  lemma SlotStays(s: State, a: Action)
    requires HoldsSlot(s) && Enabled(s, a) && !a.Register? && !a.Unregister?
    requires !(a.Deliver? || a.Confirm? || a.SessionUp? || a.SessionDrop? || a.SessionEnd? || a.OtherWrite? || a.SendPending?)
    requires a.task == |s.tasks| - 1
    ensures HoldsSlot(Do(s, a))
  {
    match a {
      case BackUp(_) =>
      case Reject(_, _) =>
      case ApplyOk(_, _) =>
      case Flag(_) =>
      case Spawn(_) =>
      case SeeConfirm(_) =>
      case TimerFires(_) =>
      case SeeDrop(_) =>
      case AckOk(_) =>
      case RestoreFiles(_, _) =>
      case QueueError(_) =>
      case Unflag(_) =>
    }
  }

  lemma {:induction false} RunsKeepHoldsSlot(trace: seq<State>, actions: seq<Action>, n: nat)
    requires IsRun(trace, actions) && OneAtATime(trace, actions) && n < |trace|
    ensures HoldsSlot(trace[n])
  {
    if n > 0 {
      RunsKeepHoldsSlot(trace, actions, n - 1);
      RunsKeepAlone(trace, actions, n - 1);
      RunsKeepInv(trace, actions, n - 1);
      assert Step(trace[n - 1], actions[n - 1], trace[n - 1 + 1]);
      HoldsSlotKept(trace[n - 1], actions[n - 1]);
    }
  }

  /** One command at a time: from its registration to its exit, the first confirm with its id always reaches it. */
  lemma ConfirmIsNeverMissed(trace: seq<State>, actions: seq<Action>, n: nat)
    requires IsRun(trace, actions) && OneAtATime(trace, actions) && n < |trace| && trace[n].tasks != [] && !trace[n].crashed
    requires Watched(trace[n], |trace[n].tasks| - 1)
    ensures var last := |trace[n].tasks| - 1;
            Do(trace[n], Confirm(trace[n].tasks[last].cmd)).closed == trace[n].closed + {last}
  {
    RunsKeepHoldsSlot(trace, actions, n);
  }
}
