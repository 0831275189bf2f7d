/** Commands that overlap in time, with each other or with other writers, but not in packages are not disturbed. */
module CommitConfirmPackages {
  import opened Rollback
  import opened CommitConfirm
  import opened CommitConfirmSafety

  /** The two directories agree on these packages. */
  ghost predicate On(a: Disk, b: Disk, packages: set<string>)
  {
    forall p :: p in packages ==> FileAt(a, p) == FileAt(b, p)
  }

  /** No other command under way has a package in common with t. */
  ghost predicate Apart(s: State, t: nat)
    requires t < |s.tasks|
  {
    forall u: nat :: u < |s.tasks| && u != t && s.tasks[u].phase != Finished ==> s.tasks[u].packages !! s.tasks[t].packages
  }

  /** The step writes none of the packages of t from outside the protocol. */
  predicate Spares(s: State, a: Action, t: nat)
    requires t < |s.tasks|
  {
    a.OtherWrite? ==> a.packages !! s.tasks[t].packages
  }

  /** From the acceptance of t up to state n. */
  ghost predicate Undisturbed(trace: seq<State>, actions: seq<Action>, n: nat, t: nat)
    requires n <= |actions| && n <= |trace|
  {
    forall k: nat :: k < n && t < |trace[k].tasks| ==> Apart(trace[k], t) && Spares(trace[k], actions[k], t)
  }

  /** What the progress of t says about its packages. */
  ghost predicate Holds(s: State, t: nat)
    requires t < |s.tasks|
  {
    var task := s.tasks[t];
    var early := task.phase.Accepted? || task.phase.BackedUp?;
    && PhaseFits(task)
    && (early ==> On(s.disk, task.start, task.packages))
    && (!task.phase.Accepted? && task.outcome != Rejected ==> task.backup == BackupOf(task.start, task.packages))
    && (!early && (task.outcome == Undecided || task.outcome == Confirmed) ==> On(s.disk, task.after, task.packages))
    && (task.outcome == RolledBack && !task.phase.RollbackDue? && t !in s.fileErrors ==>
          On(s.disk, task.start, task.packages))
  }

  /** The task an action is a step of. */
  predicate StepOf(a: Action, t: nat)
  {
    match a
    case Deliver(_, _) => false
    case Confirm(_) => false
    case SessionUp => false
    case SessionDrop => false
    case SessionEnd => false
    case SendPending => false
    case OtherWrite(_, _) => false
    case _ => a.task == t
  }

  lemma SameBackup(a: Disk, b: Disk, packages: set<string>)
    requires On(a, b, packages)
    ensures BackupOf(a, packages) == BackupOf(b, packages)
  {
    forall p | p in packages ensures BackupOf(a, packages)[p] == BackupOf(b, packages)[p] {
      assert FileAt(a, p) == FileAt(b, p);
    }
  }

  lemma RestoredOn(disk: Disk, start: Disk, packages: set<string>)
    ensures On(Restored(disk, BackupOf(start, packages), packages), start, packages)
  {
  }

  lemma OwnStep(s: State, a: Action, t: nat)
    requires t < |s.tasks| && Holds(s, t) && Enabled(s, a) && StepOf(a, t)
    ensures Holds(Do(s, a), t)
  {
    match a {
      case BackUp(_) => SameBackup(s.disk, s.tasks[t].start, s.tasks[t].packages);
      case RestoreFiles(_, left) => RestoredOn(s.disk, s.tasks[t].start, s.tasks[t].packages);
      case Reject(_, _) =>
      case ApplyOk(_, _) =>
      case Spawn(_) =>
      case TimerFires(_) =>
      case _ =>
    }
  }

  lemma StillHolds(s: State, r: State, t: nat)
    requires t < |s.tasks| && t < |r.tasks| && r.tasks[t] == s.tasks[t] && Holds(s, t)
    requires On(r.disk, s.disk, s.tasks[t].packages) && (t in s.fileErrors ==> t in r.fileErrors)
    ensures Holds(r, t)
  {
  }

  lemma OtherCommandsStep(s: State, a: Action, t: nat)
    requires t < |s.tasks| && Apart(s, t) && Spares(s, a, t) && Enabled(s, a) && !StepOf(a, t)
    ensures t < |Do(s, a).tasks| && Do(s, a).tasks[t] == s.tasks[t]
    ensures On(Do(s, a).disk, s.disk, s.tasks[t].packages) && s.fileErrors <= Do(s, a).fileErrors
  {
    match a {
      case Reject(u, _) => assert s.tasks[u].packages !! s.tasks[t].packages;
      case ApplyOk(u, _) => assert s.tasks[u].packages !! s.tasks[t].packages;
      case RestoreFiles(u, _) => assert s.tasks[u].packages !! s.tasks[t].packages;
      case _ =>
    }
  }

  lemma NewCommandHolds(s: State, a: Action, t: nat)
    requires Enabled(s, a) && |s.tasks| <= t < |Do(s, a).tasks|
    ensures Holds(Do(s, a), t)
  {
  }

  lemma {:induction false} UndisturbedHolds(trace: seq<State>, actions: seq<Action>, n: nat, t: nat)
    requires IsRun(trace, actions) && n < |trace| && t < |trace[n].tasks| && Undisturbed(trace, actions, n, t)
    ensures Holds(trace[n], t)
  {
    assert n > 0;
    var s, a := trace[n - 1], actions[n - 1];
    assert Step(s, a, trace[n - 1 + 1]);
    if t < |s.tasks| {
      UndisturbedHolds(trace, actions, n - 1, t);
      assert Apart(s, t) && Spares(s, a, t);
      if StepOf(a, t) {
        OwnStep(s, a, t);
      } else {
        OtherCommandsStep(s, a, t);
        StillHolds(s, trace[n], t);
      }
    } else {
      NewCommandHolds(s, a, t);
    }
  }

  /**
   As long as no command under way together with t shares a package with it and no other handler writes one: on
   the packages of t the directory is what its apply left from then on while t is not rolled back, so also when
   it is confirmed, and what it was at its acceptance once its rollback has restored the files without an error.
   */
  lemma RollbackAndConfirmPerPackage(trace: seq<State>, actions: seq<Action>, n: nat, t: nat)
    requires IsRun(trace, actions) && n < |trace| && t < |trace[n].tasks| && Undisturbed(trace, actions, n, t)
    ensures var s, task := trace[n], trace[n].tasks[t];
            && (task.outcome == Confirmed ==> On(s.disk, task.after, task.packages))
            && (task.outcome == RolledBack && !task.phase.RollbackDue? && t !in s.fileErrors ==>
                  On(s.disk, task.start, task.packages))
  {
    UndisturbedHolds(trace, actions, n, t);
  }
}
