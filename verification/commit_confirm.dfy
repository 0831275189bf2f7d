/**
 The commit-confirm protocol around config_apply as a state machine: every lock-sized step of the
 handler, of each watchdog goroutine, of the session and of the server is one action, taken in any
 order. Commands may overlap; they then share one confirm slot, one pending-ack slot and one flag.
 */
module CommitConfirm {
  import opened Wrappers
  import opened Runner
  import opened Dedup
  import opened Rollback

  // ---------------------------------------------------------------- the shared slots

  /** confirmCmdID and confirmCh; idle is an empty id and no channel. */
  datatype ConfirmSlot = ConfirmSlot(cmd: string, channel: Option<nat>)

  const IDLE := ConfirmSlot("", None)

  /** clearWatchdogConfirm */
  function Cleared(slot: ConfirmSlot, cmd: string): ConfirmSlot
  {
    if slot.cmd == cmd then IDLE else slot
  }

  datatype Signal = Signal(slot: ConfirmSlot, closed: set<nat>, panicked: bool)

  /** signalWatchdogConfirm; closing a nil channel, or one already closed, panics. */
  function Signalled(slot: ConfirmSlot, closed: set<nat>, cmd: string): Signal
  {
    if slot.cmd != cmd then Signal(slot, closed, false)
    else if slot.channel.None? || slot.channel.value in closed then Signal(slot, closed, true)
    else Signal(IDLE, closed + {slot.channel.value}, false)
  }

  // ---------------------------------------------------------------- tasks

  /** How far the handling of one accepted config_apply has come. */
  datatype Phase =
    | Accepted                     // not a redelivery; nothing done yet
    | BackedUp                     // files backed up, apply not finished
    | Applied                      // apply succeeded
    | Registered                   // confirm channel in the slot
    | Flagged                      // watchdogActive set
    | Waiting(session: Option<nat>) // watchdog in its select; None once the session drop was seen
    | OkDue                        // decided to confirm
    | RollbackDue                  // decided to roll back
    | FilesRestored                // files written back, ack not yet queued
    | Exiting                      // answered; deferred cleanups still to run
    | Unregistered                 // confirm slot cleared
    | Finished

  datatype Outcome = Undecided | Rejected | Confirmed | RolledBack

  /** packages are those the payload names; start is the directory when the command was accepted, after what the apply left. */
  datatype Task = Task(cmd: string, phase: Phase, outcome: Outcome,
                       packages: set<string>, start: Disk, backup: Backup, after: Disk)

  datatype Status = OkStatus | ErrorStatus

  datatype Ack = Ack(task: nat, cmd: string, status: Status)

  /** What the agent hands to publishAck. */
  datatype AckMessage = AckMessage(cmd: string, status: Status)

  /** Numbered in acceptance order; a confirm channel carries the number of its command. */
  datatype State = State(
    tasks: seq<Task>,
    slot: ConfirmSlot,
    closed: set<nat>,          // confirm channels that were closed
    pending: Option<Ack>,      // the queued rollback ack
    lost: set<nat>,            // tasks whose queued ack was overwritten by a later rollback
    acks: seq<Ack>,            // every publishAck call for a config_apply
    session: Option<nat>,      // sessionDisconnCh
    sessions: nat,             // sessions started so far
    dropped: set<nat>,         // sessions whose disconnect channel was closed
    watchdogActive: bool,
    disk: Disk,
    fileErrors: set<nat>,      // tasks whose restore could not write a file
    crashed: bool)             // close of a nil channel

  datatype Action =
    | Deliver(cmd: string, packages: set<string>)
    | BackUp(task: nat)
    | Reject(task: nat, left: Disk)
    | ApplyOk(task: nat, left: Disk)
    | Register(task: nat)
    | Flag(task: nat)
    | Spawn(task: nat)
    | SeeConfirm(task: nat)
    | TimerFires(task: nat)
    | SeeDrop(task: nat)
    | AckOk(task: nat)
    | RestoreFiles(task: nat, left: Disk)
    | QueueError(task: nat)
    | Unregister(task: nat)
    | Unflag(task: nat)
    | Confirm(cmd: string)
    | SessionUp
    | SessionDrop
    | SessionEnd
    | SendPending
    | OtherWrite(packages: set<string>, left: Disk)  // another handler writes files, say a uci_set commit

  const INIT := State([], IDLE, {}, None, {}, [], None, 0, {}, false, map[], {}, false)

  function Start(disk: Disk): State
  {
    INIT.(disk := disk)
  }

  function Commands(tasks: seq<Task>): seq<string>
  {
    seq(|tasks|, i requires 0 <= i < |tasks| => tasks[i].cmd)
  }

  predicate TaskIn(s: State, t: nat, phase: Phase)
  {
    t < |s.tasks| && s.tasks[t].phase == phase
  }

  ghost predicate Enabled(s: State, a: Action)
  {
    && !s.crashed
    && match a
       case Deliver(_, _) => true
       case BackUp(t) => TaskIn(s, t, Accepted)
       case Reject(t, left) =>
         // before the apply nothing was written; a failed apply may leave a committed prefix
         (TaskIn(s, t, Accepted) && left == s.disk)
         || (TaskIn(s, t, BackedUp) && TouchesOnly(s.disk, left, s.tasks[t].packages))
       case ApplyOk(t, left) => TaskIn(s, t, BackedUp) && TouchesOnly(s.disk, left, s.tasks[t].packages)
       case Register(t) => TaskIn(s, t, Applied)
       case Flag(t) => TaskIn(s, t, Registered)
       case Spawn(t) => TaskIn(s, t, Flagged)
       case SeeConfirm(t) => t < |s.tasks| && s.tasks[t].phase.Waiting? && t in s.closed
       case TimerFires(t) => t < |s.tasks| && s.tasks[t].phase.Waiting?
       case SeeDrop(t) => t < |s.tasks| && s.tasks[t].phase.Waiting? && s.tasks[t].phase.session.Some?
                          && s.tasks[t].phase.session.value in s.dropped
       case AckOk(t) => TaskIn(s, t, OkDue)
       case RestoreFiles(t, left) => TaskIn(s, t, RollbackDue) && SameOutside(s.disk, left, s.tasks[t].packages)
       case QueueError(t) => TaskIn(s, t, FilesRestored)
       case Unregister(t) => TaskIn(s, t, Exiting)
       case Unflag(t) => TaskIn(s, t, Unregistered)
       case Confirm(_) => true
       case SessionUp => s.session.None?
       case SessionDrop => s.session.Some?
       case SessionEnd => s.session.Some?
       case SendPending => s.pending.Some?
       case OtherWrite(packages, left) => SameOutside(s.disk, left, packages)
  }

  function RestoredBy(s: State, t: nat): Disk
    requires t < |s.tasks|
  {
    Restored(s.disk, s.tasks[t].backup, s.tasks[t].packages)
  }

  function With(s: State, t: nat, task: Task): State
    requires t < |s.tasks|
  {
    s.(tasks := s.tasks[t := task])
  }

  function Moved(s: State, t: nat, phase: Phase): State
    requires t < |s.tasks|
  {
    With(s, t, s.tasks[t].(phase := phase))
  }

  function Decided(s: State, t: nat, phase: Phase, outcome: Outcome): State
    requires t < |s.tasks|
  {
    With(s, t, s.tasks[t].(phase := phase, outcome := outcome))
  }

  function Answer(s: State, t: nat, status: Status): State
    requires t < |s.tasks|
  {
    s.(acks := s.acks + [Ack(t, s.tasks[t].cmd, status)])
  }

  ghost function Do(s: State, a: Action): State
    requires Enabled(s, a)
  {
    match a
    case Deliver(cmd, packages) =>
      if cmd in Window(Commands(s.tasks)) then s
      else s.(tasks := s.tasks + [Task(cmd, Accepted, Undecided, packages, s.disk, map[], s.disk)])
    case BackUp(t) =>
      With(s, t, s.tasks[t].(phase := BackedUp, backup := BackupOf(s.disk, s.tasks[t].packages)))
    case Reject(t, left) =>
      Answer(Decided(s.(disk := left), t, Finished, Rejected), t, ErrorStatus)
    case ApplyOk(t, left) =>
      With(s.(disk := left), t, s.tasks[t].(phase := Applied, after := left))
    case Register(t) =>
      Moved(s.(slot := ConfirmSlot(s.tasks[t].cmd, Some(t))), t, Registered)
    case Flag(t) =>
      Moved(s.(watchdogActive := true), t, Flagged)
    case Spawn(t) =>
      if s.session.None? then Decided(s, t, RollbackDue, RolledBack) else Moved(s, t, Waiting(s.session))
    case SeeConfirm(t) =>
      Decided(s, t, OkDue, Confirmed)
    case TimerFires(t) =>
      if s.session.Some? then Decided(s, t, OkDue, Confirmed) else Decided(s, t, RollbackDue, RolledBack)
    case SeeDrop(t) =>
      Moved(s, t, Waiting(None))
    case AckOk(t) =>
      Answer(Moved(s, t, Exiting), t, OkStatus)
    case RestoreFiles(t, left) =>
      Moved(s.(disk := left, fileErrors := s.fileErrors + if left != RestoredBy(s, t) then {t} else {}), t, FilesRestored)
    case QueueError(t) =>
      Moved(s.(pending := Some(Ack(t, s.tasks[t].cmd, ErrorStatus)),
               lost := s.lost + if s.pending.Some? then {s.pending.value.task} else {}), t, Exiting)
    case Unregister(t) =>
      Moved(s.(slot := Cleared(s.slot, s.tasks[t].cmd)), t, Unregistered)
    case Unflag(t) =>
      Moved(s.(watchdogActive := false), t, Finished)
    case Confirm(cmd) =>
      var signal := Signalled(s.slot, s.closed, cmd);
      s.(slot := signal.slot, closed := signal.closed, crashed := signal.panicked)
    case SessionUp =>
      s.(session := Some(s.sessions), sessions := s.sessions + 1)
    case SessionDrop =>
      s.(dropped := s.dropped + {s.session.value})
    case SessionEnd =>
      s.(session := None)
    case SendPending =>
      s.(pending := None, acks := s.acks + [s.pending.value])
    case OtherWrite(_, left) =>
      s.(disk := left)
  }

  ghost predicate Step(s: State, a: Action, r: State)
  {
    Enabled(s, a) && r == Do(s, a)
  }

  // ---------------------------------------------------------------- what the agent's fields show

  /** The agent's fields, with the registered channel reduced to whether there is one. */
  datatype View = View(slotCmd: string, listening: bool, pending: Option<AckMessage>, watchdogActive: bool,
                       acks: seq<AckMessage>, disk: Disk)

  function MessageOf(a: Ack): AckMessage
  {
    AckMessage(a.cmd, a.status)
  }

  function ViewOf(s: State): View
  {
    View(s.slot.cmd, s.slot.channel.Some?, if s.pending.Some? then Some(MessageOf(s.pending.value)) else None,
         s.watchdogActive, seq(|s.acks|, i requires 0 <= i < |s.acks| => MessageOf(s.acks[i])), s.disk)
  }

  /** A config_apply answered with an error. */
  function Refused(v: View, cmd: string, left: Disk): View
  {
    v.(acks := v.acks + [AckMessage(cmd, ErrorStatus)], disk := left)
  }

  /** A config_apply that left its watchdog behind. */
  function Launched(v: View, cmd: string, left: Disk): View
  {
    v.(slotCmd := cmd, listening := true, watchdogActive := true, disk := left)
  }

  /** A watchdog that confirmed or rolled back, and exited. */
  function Ended(v: View, cmd: string, confirmed: bool, left: Disk): View
  {
    var answered := if confirmed then v.(acks := v.acks + [AckMessage(cmd, OkStatus)], disk := left)
                    else v.(pending := Some(AckMessage(cmd, ErrorStatus)), disk := left);
    if v.slotCmd == cmd then answered.(slotCmd := "", listening := false, watchdogActive := false)
    else answered.(watchdogActive := false)
  }
}
