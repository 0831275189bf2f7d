/**
 The agent's routines run alone are chains of the protocol's steps: the chains below change what the
 agent's fields show in the way the methods of Agent.Agent are proved to.
 */
module AgentChains {
  import opened Runner
  import opened Dedup
  import opened Rollback
  import opened CommitConfirm

  /** The actions lead from s to r, each enabled in its turn. */
  ghost predicate Leads(s: State, actions: seq<Action>, r: State)
    decreases |actions|
  {
    if actions == [] then r == s
    else Enabled(s, actions[0]) && Leads(Do(s, actions[0]), actions[1..], r)
  }

  lemma LeadsCons(s: State, a: Action, rest: seq<Action>, r: State)
    requires Enabled(s, a) && Leads(Do(s, a), rest, r)
    ensures Leads(s, [a] + rest, r)
  {
    assert ([a] + rest)[1..] == rest;
  }

  lemma LeadsOne(s: State, a: Action)
    requires Enabled(s, a)
    ensures Leads(s, [a], Do(s, a))
  {
    assert [a][1..] == [];
  }

  lemma {:induction false} LeadsOn(s: State, first: seq<Action>, m: State, second: seq<Action>, r: State)
    requires Leads(s, first, m) && Leads(m, second, r)
    ensures Leads(s, first + second, r)
    decreases |first|
  {
    if first == [] {
      assert first + second == second;
    } else {
      var a, rest := first[0], first[1..];
      LeadsOn(Do(s, a), rest, m, second, r);
      LeadsCons(s, a, rest + second, r);
      Regroup(first, second);
    }
  }

  lemma Regroup(first: seq<Action>, second: seq<Action>)
    requires first != []
    ensures first + second == [first[0]] + (first[1..] + second)
  {
  }

  lemma ShownAcks(acks: seq<Ack>, a: Ack)
    ensures seq(|acks + [a]|, i requires 0 <= i < |acks + [a]| => MessageOf((acks + [a])[i]))
            == seq(|acks|, i requires 0 <= i < |acks| => MessageOf(acks[i])) + [MessageOf(a)]
  {
  }

  /** handleConfigApply up to the applied configuration. */
  lemma ApplyChain(s: State, cmd: string, packages: set<string>, left: Disk) returns (r: State)
    requires !s.crashed && cmd !in Window(Commands(s.tasks)) && TouchesOnly(s.disk, left, packages)
    ensures Leads(s, [Deliver(cmd, packages), BackUp(|s.tasks|), ApplyOk(|s.tasks|, left)], r)
    ensures r == s.(tasks := s.tasks + [Task(cmd, Applied, Undecided, packages, s.disk, BackupOf(s.disk, packages), left)],
                    disk := left)
  {
    var t := |s.tasks|;
    var s1 := Do(s, Deliver(cmd, packages));
    var s2 := Do(s1, BackUp(t));
    r := Do(s2, ApplyOk(t, left));
    LeadsOne(s2, ApplyOk(t, left));
    LeadsCons(s1, BackUp(t), [ApplyOk(t, left)], r);
    LeadsCons(s, Deliver(cmd, packages), [BackUp(t), ApplyOk(t, left)], r);
    assert [Deliver(cmd, packages)] + [BackUp(t), ApplyOk(t, left)] == [Deliver(cmd, packages), BackUp(t), ApplyOk(t, left)];
    assert [BackUp(t)] + [ApplyOk(t, left)] == [BackUp(t), ApplyOk(t, left)];
  }

  lemma LaunchChain(s: State, t: nat) returns (r: State)
    requires !s.crashed && TaskIn(s, t, Applied)
    ensures Leads(s, [Register(t), Flag(t), Spawn(t)], r)
    ensures ViewOf(r) == Launched(ViewOf(s), s.tasks[t].cmd, s.disk)
    ensures |r.tasks| == |s.tasks| && (r.tasks[t].phase == if s.session.Some? then Waiting(s.session) else RollbackDue)
  {
    var s1 := Do(s, Register(t));
    var s2 := Do(s1, Flag(t));
    r := Do(s2, Spawn(t));
    LeadsOne(s2, Spawn(t));
    LeadsCons(s1, Flag(t), [Spawn(t)], r);
    LeadsCons(s, Register(t), [Flag(t), Spawn(t)], r);
    assert [Register(t)] + [Flag(t), Spawn(t)] == [Register(t), Flag(t), Spawn(t)];
    assert [Flag(t)] + [Spawn(t)] == [Flag(t), Spawn(t)];
  }

  /** handleConfigApply for a new command that applies: these steps show what HandleConfigApply shows. */
  lemma LaunchedIsAChain(s: State, cmd: string, packages: set<string>, left: Disk) returns (r: State)
    requires !s.crashed && cmd !in Window(Commands(s.tasks)) && TouchesOnly(s.disk, left, packages)
    ensures var t := |s.tasks|;
            Leads(s, [Deliver(cmd, packages), BackUp(t), ApplyOk(t, left)] + [Register(t), Flag(t), Spawn(t)], r)
    ensures ViewOf(r) == Launched(ViewOf(s), cmd, left)
  {
    var t := |s.tasks|;
    var m := ApplyChain(s, cmd, packages, left);
    r := LaunchChain(m, t);
    LeadsOn(s, [Deliver(cmd, packages), BackUp(t), ApplyOk(t, left)], m, [Register(t), Flag(t), Spawn(t)], r);
  }

  /** handleConfigApply for a new command that fails after its backup. */
  lemma RefusedIsAChain(s: State, cmd: string, packages: set<string>, left: Disk) returns (r: State)
    requires !s.crashed && cmd !in Window(Commands(s.tasks)) && TouchesOnly(s.disk, left, packages)
    ensures var t := |s.tasks|;
            Leads(s, [Deliver(cmd, packages), BackUp(t), Reject(t, left)], r)
    ensures ViewOf(r) == Refused(ViewOf(s), cmd, left)
  {
    var t := |s.tasks|;
    var s1 := Do(s, Deliver(cmd, packages));
    var s2 := Do(s1, BackUp(t));
    r := Do(s2, Reject(t, left));
    LeadsOne(s2, Reject(t, left));
    LeadsCons(s1, BackUp(t), [Reject(t, left)], r);
    LeadsCons(s, Deliver(cmd, packages), [BackUp(t), Reject(t, left)], r);
    assert [Deliver(cmd, packages)] + [BackUp(t), Reject(t, left)] == [Deliver(cmd, packages), BackUp(t), Reject(t, left)];
    assert [BackUp(t)] + [Reject(t, left)] == [BackUp(t), Reject(t, left)];
    ShownAcks(s.acks, Ack(t, cmd, ErrorStatus));
  }

  /** The deferred cleanups of a watchdog. */
  lemma ExitChain(s: State, t: nat) returns (r: State)
    requires !s.crashed && TaskIn(s, t, Exiting)
    ensures Leads(s, [Unregister(t), Unflag(t)], r)
    ensures r == s.(tasks := r.tasks, slot := Cleared(s.slot, s.tasks[t].cmd), watchdogActive := false)
  {
    var s1 := Do(s, Unregister(t));
    r := Do(s1, Unflag(t));
    LeadsOne(s1, Unflag(t));
    LeadsCons(s, Unregister(t), [Unflag(t)], r);
    assert [Unregister(t)] + [Unflag(t)] == [Unregister(t), Unflag(t)];
  }

  /** A watchdog that confirms, on the server's confirm or on its timer. */
  lemma ConfirmedIsAChain(s: State, t: nat, why: Action) returns (r: State)
    requires !s.crashed && t < |s.tasks| && Enabled(s, why)
    requires why == SeeConfirm(t) || (why == TimerFires(t) && s.session.Some?)
    ensures Leads(s, [why, AckOk(t)] + [Unregister(t), Unflag(t)], r)
    ensures ViewOf(r) == Ended(ViewOf(s), s.tasks[t].cmd, true, s.disk)
  {
    var s1 := Do(s, why);
    var s2 := Do(s1, AckOk(t));
    LeadsOne(s1, AckOk(t));
    LeadsCons(s, why, [AckOk(t)], s2);
    assert [why] + [AckOk(t)] == [why, AckOk(t)];
    r := ExitChain(s2, t);
    LeadsOn(s, [why, AckOk(t)], s2, [Unregister(t), Unflag(t)], r);
    ShownAcks(s.acks, Ack(t, s.tasks[t].cmd, OkStatus));
    assert IDLE.channel.None? && IDLE.cmd == "";
  }

  /** A watchdog that rolls back, its files restored to left. */
  lemma RolledBackIsAChain(s: State, t: nat, left: Disk) returns (r: State)
    requires !s.crashed && TaskIn(s, t, RollbackDue) && SameOutside(s.disk, left, s.tasks[t].packages)
    ensures Leads(s, [RestoreFiles(t, left), QueueError(t)] + [Unregister(t), Unflag(t)], r)
    ensures ViewOf(r) == Ended(ViewOf(s), s.tasks[t].cmd, false, left)
  {
    var s1 := Do(s, RestoreFiles(t, left));
    var s2 := Do(s1, QueueError(t));
    LeadsOne(s1, QueueError(t));
    LeadsCons(s, RestoreFiles(t, left), [QueueError(t)], s2);
    assert [RestoreFiles(t, left)] + [QueueError(t)] == [RestoreFiles(t, left), QueueError(t)];
    r := ExitChain(s2, t);
    LeadsOn(s, [RestoreFiles(t, left), QueueError(t)], s2, [Unregister(t), Unflag(t)], r);
    assert IDLE.channel.None? && IDLE.cmd == "";
  }
}
