/** Runs of the commit-confirm protocol that show where its promises end. */
module CommitConfirmRuns {
  import opened Wrappers
  import opened Uci
  import opened Runner
  import opened Text
  import opened Dedup
  import opened Rollback
  import opened CommitConfirm
  import opened Runs
  import opened CommitConfirmSafety
  import opened CommitConfirmTheorems
  import opened CommitConfirmPackages

  ghost predicate Occurs(s: State)
  {
    Reachable(IsStart, Step, s)
  }

  lemma Began(disk: Disk) returns (s: State)
    ensures s == Start(disk) && Occurs(s)
  {
    s := Start(disk);
    InitialIsReachable(IsStart, Step, s);
  }

  lemma Went(s: State, a: Action) returns (r: State)
    requires Occurs(s) && Enabled(s, a)
    ensures r == Do(s, a) && Occurs(r)
  {
    r := Do(s, a);
    StepIsReachable(IsStart, Step, s, a, r);
  }

  lemma Prepare(s: State, cmd: string, packages: set<string>, left: Disk) returns (r: State)
    requires Occurs(s) && !s.crashed && cmd !in Window(Commands(s.tasks))
    requires TouchesOnly(s.disk, left, packages)
    ensures r == s.(tasks := s.tasks + [Task(cmd, Applied, Undecided, packages, s.disk, BackupOf(s.disk, packages), left)],
                    disk := left)
    ensures Occurs(r)
  {
    var t := |s.tasks|;
    r := Went(s, Deliver(cmd, packages));
    r := Went(r, BackUp(t));
    r := Went(r, ApplyOk(t, left));
  }

  /** The handler's steps for a new command, up to the running watchdog, while a session is up. */
  lemma Launch(s: State, cmd: string, packages: set<string>, left: Disk) returns (r: State)
    requires Occurs(s) && !s.crashed && cmd !in Window(Commands(s.tasks)) && s.session.Some?
    requires TouchesOnly(s.disk, left, packages)
    ensures var t := |s.tasks|;
            var task := Task(cmd, Waiting(s.session), Undecided, packages, s.disk, BackupOf(s.disk, packages), left);
            r == s.(tasks := s.tasks + [task], disk := left, slot := ConfirmSlot(cmd, Some(t)), watchdogActive := true)
    ensures Occurs(r)
  {
    var t := |s.tasks|;
    r := Prepare(s, cmd, packages, left);
    r := Went(r, Register(t));
    r := Went(r, Flag(t));
    r := Went(r, Spawn(t));
  }

  // ---------------------------------------------------------------- the two ways a command goes

  /** Any command can be confirmed by the server: one ok ack, what was applied on disk, and everything freed. */
  lemma CommandCanBeConfirmed(disk: Disk, cmd: string, packages: set<string>, left: Disk) returns (s: State)
    requires TouchesOnly(disk, left, packages)
    ensures Occurs(s) && s.acks == [Ack(0, cmd, OkStatus)] && s.pending.None? && s.lost == {}
    ensures s.disk == left && s.slot == IDLE && !s.watchdogActive && |s.tasks| == 1 && s.tasks[0].phase == Finished
  {
    s := Began(disk);
    s := Went(s, SessionUp);
    s := Launch(s, cmd, packages, left);
    s := ConfirmedNow(s, 0);
    s := Went(s, AckOk(0));
    s := Went(s, Unregister(0));
    s := Went(s, Unflag(0));
  }

  /** And any command can lose its session and be rolled back: one error ack in the next session, the old files, everything freed. */
  lemma CommandCanBeRolledBack(disk: Disk, cmd: string, packages: set<string>, left: Disk) returns (s: State)
    requires TouchesOnly(disk, left, packages)
    ensures Occurs(s) && s.acks == [Ack(0, cmd, ErrorStatus)] && s.pending.None? && s.lost == {}
    ensures s.disk == disk && s.slot == IDLE && !s.watchdogActive && |s.tasks| == 1 && s.tasks[0].phase == Finished
  {
    s := Began(disk);
    s := Went(s, SessionUp);
    s := Launch(s, cmd, packages, left);
    s := LosesItsSession(s, 0);
    s := TimesOut(s, 0, disk);
    RestoreUndoes(disk, left, packages);
    s := AnsweredLater(s, 0);
  }

  /** The session drops, the watchdog sees it, and the session ends. */
  lemma LosesItsSession(s: State, t: nat) returns (r: State)
    requires Occurs(s) && !s.crashed && s.session.Some? && t < |s.tasks| && s.tasks[t].phase == Waiting(s.session)
    ensures Occurs(r) && r == s.(session := None, dropped := s.dropped + {s.session.value},
                                 tasks := s.tasks[t := s.tasks[t].(phase := Waiting(None))])
  {
    r := Went(s, SessionDrop);
    r := Went(r, SeeDrop(t));
    r := Went(r, SessionEnd);
  }

  /** The ack of a rollback is queued, the watchdog exits, and the next session sends the ack. */
  lemma AnsweredLater(s: State, t: nat) returns (r: State)
    requires Occurs(s) && !s.crashed && s.session.None? && s.pending.None? && t < |s.tasks| && s.tasks[t].phase == FilesRestored
    requires s.slot.cmd == s.tasks[t].cmd
    ensures Occurs(r) && r == s.(acks := s.acks + [Ack(t, s.tasks[t].cmd, ErrorStatus)], slot := IDLE, watchdogActive := false,
                                 session := Some(s.sessions), sessions := s.sessions + 1,
                                 tasks := s.tasks[t := s.tasks[t].(phase := Finished)])
  {
    r := Went(s, QueueError(t));
    r := Went(r, Unregister(t));
    r := Went(r, Unflag(t));
    r := Went(r, SessionUp);
    r := Went(r, SendPending);
  }

  // ---------------------------------------------------------------- two commands that share a package

  /** first changes d0 into d1, second changes d1 into d2, and a package of both does not come back to what it was. */
  ghost predicate Conflict(first: set<string>, second: set<string>, p: string, d0: Disk, d1: Disk, d2: Disk)
  {
    && p in first && p in second && TouchesOnly(d0, d1, first) && TouchesOnly(d1, d2, second)
    && FileAt(d0, p) != FileAt(d1, p) && FileAt(d0, p) != FileAt(d2, p)
  }

  lemma ConflictExists(first: set<string>, second: set<string>, p: string) returns (d0: Disk, d1: Disk, d2: Disk)
    requires p in first && p in second
    ensures Conflict(first, second, p, d0, d1, d2)
  {
    d0 := map[p := []];
    d1 := map[p := [Section("a", "x", "a", false, map[])]];
    d2 := map[p := [Section("b", "x", "b", false, map[])]];
  }

  predicate Flight(s: State, first: set<string>, second: set<string>, d0: Disk, d1: Disk, d2: Disk)
  {
    && !s.crashed && s.fileErrors == {} && s.disk == d2 && s.session.Some? && |s.tasks| == 2
    && s.tasks[0] == Task("first", Waiting(s.session), Undecided, first, d0, BackupOf(d0, first), d1)
    && s.tasks[1] == Task("second", Waiting(s.session), Undecided, second, d1, BackupOf(d1, second), d2)
  }

  lemma TwoInFlight(first: set<string>, second: set<string>, d0: Disk, d1: Disk, d2: Disk) returns (s: State)
    requires TouchesOnly(d0, d1, first) && TouchesOnly(d1, d2, second)
    ensures Occurs(s) && Flight(s, first, second, d0, d1, d2) && s.closed == {} && s.slot == ConfirmSlot("second", Some(1))
  {
    s := Began(d0);
    s := Went(s, SessionUp);
    s := Launch(s, "first", first, d1);
    assert Commands(s.tasks) == ["first"];
    s := Launch(s, "second", second, d2);
  }

  lemma RestoredAt(disk: Disk, before: Disk, packages: set<string>, p: string)
    ensures FileAt(Restored(disk, BackupOf(before, packages), packages), p)
            == FileAt(if p in packages then before else disk, p)
  {
  }

  /** A waiting command times out without a session and restores what it backed up. */
  lemma TimesOut(s: State, t: nat, start: Disk) returns (r: State)
    requires Occurs(s) && !s.crashed && s.session.None? && t < |s.tasks| && s.tasks[t].phase.Waiting?
    requires s.tasks[t].backup == BackupOf(start, s.tasks[t].packages)
    ensures Occurs(r) && r == s.(disk := Restored(s.disk, BackupOf(start, s.tasks[t].packages), s.tasks[t].packages),
                                 tasks := s.tasks[t := s.tasks[t].(phase := FilesRestored, outcome := RolledBack)])
  {
    r := Went(s, TimerFires(t));
    r := Went(r, RestoreFiles(t, Restored(s.disk, BackupOf(start, s.tasks[t].packages), s.tasks[t].packages)));
  }

  /**
   Whatever packages two overlapping commands have, if they share one there is a run in which the first
   one's rollback takes the second one's configuration of it off the disk, no file error occurs, and the
   second one is confirmed to the server all the same.
   */
  lemma OverlapBreaksConfirm(first: set<string>, second: set<string>, p: string) returns (s: State)
    requires p in first && p in second
    ensures Occurs(s) && s.fileErrors == {} && |s.tasks| == 2
    ensures s.tasks[0].packages == first && s.tasks[1].packages == second
    ensures Enabled(s, AckOk(1)) && !On(s.disk, s.tasks[1].after, second)
  {
    var d0, d1, d2 := ConflictExists(first, second, p);
    s := TwoInFlight(first, second, d0, d1, d2);
    s := Went(s, Confirm("second"));
    s := Went(s, SeeConfirm(1));
    s := Went(s, SessionEnd);
    s := TimesOut(s, 0, d0);
    RestoredAt(d2, d0, first, p);
  }

  /** And there is a run in which the second one's rollback undoes what the first one's rollback restored. */
  lemma OverlapBreaksRollback(first: set<string>, second: set<string>, p: string) returns (s: State)
    requires p in first && p in second
    ensures Occurs(s) && s.fileErrors == {} && |s.tasks| == 2
    ensures s.tasks[0].packages == first && s.tasks[1].packages == second
    ensures s.tasks[0].outcome == RolledBack && Answered(s.tasks[0]) && !On(s.disk, s.tasks[0].start, first)
  {
    var d0, d1, d2 := ConflictExists(first, second, p);
    s := TwoInFlight(first, second, d0, d1, d2);
    s := Went(s, SessionEnd);
    s := TimesOut(s, 0, d0);
    s := Went(s, QueueError(0));
    var d3 := s.disk;
    s := TimesOut(s, 1, d1);
    RestoredAt(d3, d1, second, p);
  }

  // ---------------------------------------------------------------- other writers of the directory

  /** A waiting command is confirmed and its watchdog sees it. */
  lemma ConfirmedNow(s: State, t: nat) returns (r: State)
    requires Occurs(s) && !s.crashed && t < |s.tasks| && s.tasks[t].phase.Waiting? && t !in s.closed
    requires s.slot == ConfirmSlot(s.tasks[t].cmd, Some(t))
    ensures r == s.(slot := IDLE, closed := s.closed + {t},
                    tasks := s.tasks[t := s.tasks[t].(phase := OkDue, outcome := Confirmed)])
    ensures Occurs(r)
  {
    r := Went(s, Confirm(s.tasks[t].cmd));
    r := Went(r, SeeConfirm(t));
  }

  /**
   A uci_set commit between apply and confirm, on any package of any command: the ok ack is due although
   the directory no longer holds what was applied. One command, no overlap, no file error.
   */
  lemma OtherWriteBreaksConfirm(packages: set<string>, p: string) returns (s: State)
    requires p in packages
    ensures Occurs(s) && s.fileErrors == {} && |s.tasks| == 1 && s.tasks[0].packages == packages
    ensures Enabled(s, AckOk(0)) && !On(s.disk, s.tasks[0].after, packages)
  {
    var d1 := map[p := [Section("a", "x", "a", false, map[])]];
    s := Began(map[]);
    s := Went(s, SessionUp);
    s := Launch(s, "only", packages, d1);
    var left := d1[p := []];
    assert SameOutside(s.disk, left, {p});
    s := Went(s, OtherWrite({p}, left));
    s := ConfirmedNow(s, 0);
    assert FileAt(left, p) != FileAt(d1, p);
  }

  /** A commit of a package outside the command, while it is watched: the rollback leaves another directory than before. */
  lemma OtherWriteBreaksRollback(packages: set<string>, q: string) returns (s: State)
    requires q !in packages
    ensures Occurs(s) && s.fileErrors == {} && |s.tasks| == 1 && s.tasks[0].packages == packages
    ensures s.tasks[0].outcome == RolledBack && Answered(s.tasks[0]) && s.disk != s.tasks[0].start
    ensures On(s.disk, s.tasks[0].start, packages)
  {
    s := Began(map[]);
    s := Went(s, SessionUp);
    s := Launch(s, "only", packages, map[]);
    s := Went(s, OtherWrite({q}, map[q := []]));
    s := Went(s, SessionEnd);
    var now := s.disk;
    s := TimesOut(s, 0, map[]);
    RestoredAt(now, map[], packages, q);
    RestoredOn(now, map[], packages);
    s := Went(s, QueueError(0));
  }

  // ---------------------------------------------------------------- a rollback ack that is never sent

  /** A command whose watchdog starts while no session is up. */
  lemma LaunchOffline(s: State, cmd: string) returns (r: State)
    requires Occurs(s) && !s.crashed && cmd !in Window(Commands(s.tasks)) && s.session.None?
    ensures var t := |s.tasks|;
            var task := Task(cmd, RollbackDue, RolledBack, {}, s.disk, BackupOf(s.disk, {}), s.disk);
            r == s.(tasks := s.tasks + [task], slot := ConfirmSlot(cmd, Some(t)), watchdogActive := true)
    ensures Occurs(r)
  {
    var t := |s.tasks|;
    r := Prepare(s, cmd, {}, s.disk);
    r := Went(r, Register(t));
    r := Went(r, Flag(t));
    r := Went(r, Spawn(t));
  }

  /** A command taken from its delivery to the queued error ack of its rollback, with no session up. */
  lemma RollsBackAtOnce(s: State, cmd: string) returns (r: State)
    requires Occurs(s) && !s.crashed && cmd !in Window(Commands(s.tasks)) && s.session.None?
    ensures Occurs(r) && !r.crashed && r.session.None? && r.acks == s.acks && |r.tasks| == |s.tasks| + 1
    ensures r.tasks[..|s.tasks|] == s.tasks
    ensures var t := |s.tasks|;
            && r.tasks[t].cmd == cmd && r.tasks[t].phase == Finished && r.tasks[t].outcome == RolledBack
            && r.pending == Some(Ack(t, cmd, ErrorStatus)) && r.lost == s.lost + PendingTask(s)
  {
    var t := |s.tasks|;
    r := LaunchOffline(s, cmd);
    r := Went(r, RestoreFiles(t, r.disk));
    r := Went(r, QueueError(t));
    r := Went(r, Unregister(t));
    r := Went(r, Unflag(t));
  }

  /**
   Without any overlap, a queued error ack is lost: the first command is over and done with before the second
   one is accepted, whose own rollback overwrites the ack before it was sent.
   */
  lemma QueuedAckCanBeLost() returns (before: State, s: State)
    ensures Occurs(before) && |before.tasks| == 1 && before.tasks[0].phase == Finished && before.tasks[0].outcome == RolledBack
    ensures before.lost == {} && before.pending == Some(Ack(0, "first", ErrorStatus))
    ensures Occurs(s) && |s.tasks| == 2 && s.tasks[0] == before.tasks[0] && s.lost == {0}
    ensures !Sent(s, 0, ErrorStatus) && !Sent(s, 0, OkStatus)
  {
    before := Began(map[]);
    before := RollsBackAtOnce(before, "first");
    assert Commands(before.tasks) == ["first"];
    s := RollsBackAtOnce(before, "second");
  }

  // ---------------------------------------------------------------- confirms that come to nothing

  /** A confirm that arrives in time can still lose to the timer: the command is rolled back. */
  lemma ConfirmCanLose() returns (s: State)
    ensures Occurs(s) && s.tasks != [] && 0 in s.closed && s.tasks[0].outcome == RolledBack
  {
    s := Began(map[]);
    s := Went(s, SessionUp);
    s := Launch(s, "only", {}, map[]);
    s := Went(s, Confirm("only"));
    s := Went(s, SessionEnd);
    s := Went(s, TimerFires(0));
  }

  function Numbered(n: nat): seq<string>
  {
    seq(n, i requires 0 <= i < n => PrintNat(i))
  }

  lemma NumbersDiffer(n: nat)
    ensures PrintNat(n) !in Numbered(n) && PrintNat(n) != "x" && "x" !in Numbered(n)
  {
    forall i | 0 <= i < n ensures PrintNat(i) != PrintNat(n) && PrintNat(i) != "x" {
      ReadPrintNat(i);
      ReadPrintNat(n);
      assert IsDigit(PrintNat(i)[0]);
    }
    assert IsDigit(PrintNat(n)[0]);
  }

  /** n further commands are accepted and rejected. */
  lemma {:induction false} AcceptMany(s: State, n: nat) returns (r: State)
    requires Occurs(s) && !s.crashed && Commands(s.tasks) == ["x"]
    ensures Occurs(r) && Commands(r.tasks) == ["x"] + Numbered(n) && r.tasks[0] == s.tasks[0]
    ensures r == s.(tasks := r.tasks, acks := r.acks)
  {
    if n == 0 {
      r := s;
    } else {
      r := AcceptMany(s, n - 1);
      NumbersDiffer(n - 1);
      var t := |r.tasks|;
      var was := r;
      WindowOf(Commands(r.tasks));
      assert PrintNat(n - 1) !in Commands(r.tasks);
      r := Went(r, Deliver(PrintNat(n - 1), {}));
      r := Went(r, Reject(t, r.disk));
      assert Commands(r.tasks) == Commands(was.tasks) + [PrintNat(n - 1)];
    }
  }

  lemma WindowOf(ids: seq<string>)
    ensures forall id :: id in Window(ids) ==> id in ids
  {
  }

  /**
   An id accepted again after MAX_SEEN others, while the first command with it is still watched: the exit
   of the first watchdog takes the second one's channel out of the slot.
   */
  lemma ExitCanFreeASuccessor() returns (s: State, t: nat)
    ensures Occurs(s) && t < |s.tasks| && s.tasks[t].phase.Waiting? && t !in s.closed
    ensures s.slot == IDLE && s.tasks[t].cmd == s.tasks[0].cmd && t != 0
  {
    s := Began(map[]);
    s := Went(s, SessionUp);
    s := Launch(s, "x", {}, map[]);
    assert Commands(s.tasks) == ["x"];
    s := AcceptMany(s, MAX_SEEN);
    t := |s.tasks|;
    assert |Commands(s.tasks)| == t == MAX_SEEN + 1;
    assert Window(Commands(s.tasks)) == Numbered(MAX_SEEN);
    NumbersDiffer(MAX_SEEN);
    s := Launch(s, "x", {}, map[]);
    s := Went(s, TimerFires(0));
    s := Went(s, AckOk(0));
    s := Went(s, Unregister(0));
  }
}
