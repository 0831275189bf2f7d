/** What every run of the commit-confirm protocol keeps, overlapping commands included. */
module CommitConfirmSafety {
  import opened Wrappers
  import opened Dedup
  import opened CommitConfirm
  import opened Runs

  // ---------------------------------------------------------------- runs

  /** The states a run goes through: trace[0] is a start, each next state is one action away. */
  ghost predicate IsStart(s: State)
  {
    s == Start(s.disk)
  }

  ghost predicate IsRun(trace: seq<State>, actions: seq<Action>)
  {
    Chain(Step, trace, actions) && IsStart(trace[0])
  }

  // ---------------------------------------------------------------- invariant

  predicate Answered(task: Task)
  {
    task.phase.Exiting? || task.phase.Unregistered? || task.phase.Finished?
  }

  /** The phase says whether a decision was taken and which. */
  predicate PhaseFits(task: Task)
  {
    match task.phase
    case OkDue => task.outcome == Confirmed
    case RollbackDue => task.outcome == RolledBack
    case FilesRestored => task.outcome == RolledBack
    case Exiting => task.outcome == Confirmed || task.outcome == RolledBack
    case Unregistered => task.outcome == Confirmed || task.outcome == RolledBack
    case Finished => task.outcome != Undecided
    case _ => task.outcome == Undecided
  }

  /** The one ack an outcome leads to. */
  function StatusOf(outcome: Outcome): Status
  {
    if outcome == Confirmed then OkStatus else ErrorStatus
  }

  predicate AckFits(s: State, a: Ack)
  {
    && a.task < |s.tasks| && Answered(s.tasks[a.task])
    && a.cmd == s.tasks[a.task].cmd && a.status == StatusOf(s.tasks[a.task].outcome)
  }

  function AckedTasks(acks: seq<Ack>): set<nat>
  {
    set i | 0 <= i < |acks| :: acks[i].task
  }

  function PendingTask(s: State): set<nat>
  {
    if s.pending.Some? then {s.pending.value.task} else {}
  }

  /** Every answered command has its one answer in exactly one place: sent, queued, or overwritten. */
  ghost predicate AckInv(s: State)
  {
    && (forall t :: 0 <= t < |s.tasks| ==> PhaseFits(s.tasks[t]))
    && (forall i :: 0 <= i < |s.acks| ==> AckFits(s, s.acks[i]))
    && (forall i, j :: 0 <= i < j < |s.acks| ==> s.acks[i].task != s.acks[j].task)
    && (s.pending.Some? ==> AckFits(s, s.pending.value) && s.tasks[s.pending.value.task].outcome == RolledBack)
    && (forall t :: t in s.lost ==> t < |s.tasks| && Answered(s.tasks[t]) && s.tasks[t].outcome == RolledBack)
    && AckedTasks(s.acks) !! PendingTask(s) !! s.lost
    && (forall t :: 0 <= t < |s.tasks| && Answered(s.tasks[t]) ==> t in AckedTasks(s.acks) + PendingTask(s) + s.lost)
  }

  predicate MayHoldSlot(task: Task)
  {
    !(task.phase.Accepted? || task.phase.BackedUp? || task.phase.Applied? || task.phase.Unregistered? || task.phase.Finished?)
  }

  predicate WasRegistered(task: Task)
  {
    !(task.phase.Accepted? || task.phase.BackedUp? || task.phase.Applied?)
  }

  /** The slot is idle or holds the open channel of a command that is still being watched. */
  ghost predicate SlotInv(s: State)
  {
    && (s.slot.channel.None? ==> s.slot.cmd == "")
    && (s.slot.channel.Some? ==>
          var t := s.slot.channel.value;
          t < |s.tasks| && s.slot.cmd == s.tasks[t].cmd && t !in s.closed && MayHoldSlot(s.tasks[t]))
    && (forall t :: t in s.closed ==> t < |s.tasks| && WasRegistered(s.tasks[t]))
  }

  ghost predicate Inv(s: State)
  {
    AckInv(s) && SlotInv(s) && Admitted(Commands(s.tasks))
  }

  // ---------------------------------------------------------------- preservation

  /** Only task t changed, and it is still the same command. */
  ghost predicate OneMoved(s: State, r: State, t: nat)
  {
    && t < |s.tasks| == |r.tasks| && r.tasks[t].cmd == s.tasks[t].cmd
    && forall u :: 0 <= u < |s.tasks| && u != t ==> r.tasks[u] == s.tasks[u]
  }

  /** A step that answers nobody and only moves one task within the unanswered, or within the answered, phases. */
  lemma QuietMove(s: State, r: State, t: nat)
    requires AckInv(s) && OneMoved(s, r, t)
    requires r.acks == s.acks && r.pending == s.pending && r.lost == s.lost
    requires PhaseFits(r.tasks[t]) && Answered(r.tasks[t]) == Answered(s.tasks[t])
    requires Answered(s.tasks[t]) ==> r.tasks[t].outcome == s.tasks[t].outcome
    ensures AckInv(r)
  {
    forall a: Ack | AckFits(s, a) ensures AckFits(r, a) {}
  }

  lemma AckedSnoc(acks: seq<Ack>, a: Ack)
    ensures AckedTasks(acks + [a]) == AckedTasks(acks) + {a.task}
  {
    var more := acks + [a];
    forall t | t in AckedTasks(acks) + {a.task} ensures t in AckedTasks(more) {
      if t == a.task {
        assert more[|acks|].task == t;
      } else {
        var i :| 0 <= i < |acks| && acks[i].task == t;
        assert more[i].task == t;
      }
    }
  }

  /** A step that answers one so far unanswered task with an ack. */
  lemma AnsweringMove(s: State, r: State, t: nat)
    requires AckInv(s) && OneMoved(s, r, t) && !Answered(s.tasks[t])
    requires PhaseFits(r.tasks[t]) && Answered(r.tasks[t])
    requires r.pending == s.pending && r.lost == s.lost
    requires r.acks == s.acks + [Ack(t, s.tasks[t].cmd, StatusOf(r.tasks[t].outcome))]
    ensures AckInv(r)
  {
    AckedSnoc(s.acks, r.acks[|s.acks|]);
    forall a: Ack | AckFits(s, a) ensures AckFits(r, a) {}
  }

  lemma QueueingMove(s: State, r: State, t: nat)
    requires AckInv(s) && TaskIn(s, t, FilesRestored) && !s.crashed
    requires r == Do(s, QueueError(t))
    ensures AckInv(r)
  {
    forall a: Ack | AckFits(s, a) ensures AckFits(r, a) {}
  }

  lemma SendingMove(s: State)
    requires AckInv(s) && s.pending.Some?
    ensures AckInv(s.(pending := None, acks := s.acks + [s.pending.value]))
  {
    AckedSnoc(s.acks, s.pending.value);
    var r := s.(pending := None, acks := s.acks + [s.pending.value]);
    forall a: Ack | AckFits(s, a) ensures AckFits(r, a) {}
  }

  lemma NewTask(s: State, cmd: string, packages: set<string>)
    requires Inv(s) && cmd !in Window(Commands(s.tasks)) && !s.crashed
    ensures Inv(Do(s, Deliver(cmd, packages)))
  {
    var r := Do(s, Deliver(cmd, packages));
    assert Commands(r.tasks) == Commands(s.tasks) + [cmd];
    AdmittedSnoc(Commands(s.tasks), cmd);
    forall a: Ack | AckFits(s, a) ensures AckFits(r, a) {}
  }

  predicate BeforeDecision(a: Action)
  {
    a.BackUp? || a.ApplyOk? || a.Register? || a.Flag? || a.Spawn? || a.SeeDrop?
  }

  predicate AfterDecision(a: Action)
  {
    a.SeeConfirm? || a.TimerFires? || a.RestoreFiles? || a.Unregister? || a.Unflag?
  }

  lemma EarlyMoves(s: State, a: Action)
    requires AckInv(s) && Enabled(s, a) && BeforeDecision(a)
    ensures AckInv(Do(s, a))
  {
    QuietMove(s, Do(s, a), a.task);
  }

  lemma LateMoves(s: State, a: Action)
    requires AckInv(s) && Enabled(s, a) && AfterDecision(a)
    ensures AckInv(Do(s, a))
  {
    QuietMove(s, Do(s, a), a.task);
  }

  /** Server and session steps touch no task and no ack. */
  lemma OutsideSteps(s: State, a: Action)
    requires AckInv(s) && Enabled(s, a)
    requires a.Confirm? || a.SessionUp? || a.SessionDrop? || a.SessionEnd? || a.OtherWrite?
    ensures AckInv(Do(s, a))
  {
    forall b: Ack | AckFits(s, b) ensures AckFits(Do(s, a), b) {}
  }

  lemma AckInvKept(s: State, a: Action)
    requires Inv(s) && Enabled(s, a)
    ensures AckInv(Do(s, a))
  {
    if BeforeDecision(a) {
      EarlyMoves(s, a);
    } else if AfterDecision(a) {
      LateMoves(s, a);
    } else {
      match a {
        case Deliver(cmd, packages) => if cmd !in Window(Commands(s.tasks)) { NewTask(s, cmd, packages); }
        case Reject(t, _) => AnsweringMove(s, Do(s, a), t);
        case AckOk(t) => AnsweringMove(s, Do(s, a), t);
        case QueueError(t) => QueueingMove(s, Do(s, a), t);
        case SendPending => SendingMove(s);
        case _ => OutsideSteps(s, a);
      }
    }
  }

  /** A step that leaves slot and channels alone and takes no task back before its registration or past its exit. */
  lemma SlotUntouched(s: State, r: State, t: nat)
    requires SlotInv(s) && OneMoved(s, r, t) && r.slot == s.slot && r.closed == s.closed
    requires MayHoldSlot(s.tasks[t]) ==> MayHoldSlot(r.tasks[t])
    requires WasRegistered(s.tasks[t]) ==> WasRegistered(r.tasks[t])
    ensures SlotInv(r)
  {
  }

  lemma RegisterKeeps(s: State, t: nat)
    requires SlotInv(s) && !s.crashed && TaskIn(s, t, Applied)
    ensures SlotInv(Do(s, Register(t)))
  {
  }

  lemma UnregisterKeeps(s: State, t: nat)
    requires SlotInv(s) && !s.crashed && TaskIn(s, t, Exiting)
    ensures SlotInv(Do(s, Unregister(t)))
  {
  }

  lemma SlotInvEarly(s: State, a: Action)
    requires SlotInv(s) && Enabled(s, a) && BeforeDecision(a)
    ensures SlotInv(Do(s, a))
  {
    if a.Register? {
      RegisterKeeps(s, a.task);
    } else {
      SlotUntouched(s, Do(s, a), a.task);
    }
  }

  lemma SlotInvLate(s: State, a: Action)
    requires SlotInv(s) && Enabled(s, a) && AfterDecision(a)
    ensures SlotInv(Do(s, a))
  {
    if a.Unregister? {
      UnregisterKeeps(s, a.task);
    } else {
      SlotUntouched(s, Do(s, a), a.task);
    }
  }

  lemma SlotInvAnswer(s: State, a: Action)
    requires SlotInv(s) && Enabled(s, a) && (a.Deliver? || a.Reject? || a.AckOk? || a.QueueError? || a.SendPending?)
    ensures SlotInv(Do(s, a))
  {
  }

  lemma SlotInvOutside(s: State, a: Action)
    requires SlotInv(s) && Enabled(s, a)
    requires a.Confirm? || a.SessionUp? || a.SessionDrop? || a.SessionEnd? || a.OtherWrite?
    ensures SlotInv(Do(s, a))
  {
  }

  lemma SlotInvKept(s: State, a: Action)
    requires Inv(s) && Enabled(s, a)
    ensures SlotInv(Do(s, a))
  {
    if BeforeDecision(a) {
      SlotInvEarly(s, a);
    } else if AfterDecision(a) {
      SlotInvLate(s, a);
    } else if a.Deliver? || a.Reject? || a.AckOk? || a.QueueError? || a.SendPending? {
      SlotInvAnswer(s, a);
    } else {
      SlotInvOutside(s, a);
    }
  }

  lemma SameCommands(s: State, r: State, t: nat)
    requires OneMoved(s, r, t)
    ensures Commands(r.tasks) == Commands(s.tasks)
  {
  }

  lemma CommandsKept(s: State, a: Action)
    requires Inv(s) && Enabled(s, a)
    ensures Admitted(Commands(Do(s, a).tasks))
  {
    if a.Deliver? {
      if a.cmd !in Window(Commands(s.tasks)) {
        NewTask(s, a.cmd, a.packages);
      }
    } else if !(a.Confirm? || a.SessionUp? || a.SessionDrop? || a.SessionEnd? || a.OtherWrite? || a.SendPending?) {
      SameCommands(s, Do(s, a), a.task);
    }
  }

  lemma InvKept(s: State, a: Action)
    requires Inv(s) && Enabled(s, a)
    ensures Inv(Do(s, a))
  {
    AckInvKept(s, a);
    SlotInvKept(s, a);
    CommandsKept(s, a);
  }

  lemma {:induction false} RunsKeepInv(trace: seq<State>, actions: seq<Action>, n: nat)
    requires IsRun(trace, actions) && n < |trace|
    ensures Inv(trace[n])
  {
    if n == 0 {
      assert Commands([]) == [];
    } else {
      RunsKeepInv(trace, actions, n - 1);
      assert Step(trace[n - 1], actions[n - 1], trace[n - 1 + 1]);
      InvKept(trace[n - 1], actions[n - 1]);
    }
  }
}
