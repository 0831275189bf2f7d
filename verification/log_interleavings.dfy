/**
 Overlapping calls of appendToActivityLog (internal/agent/activitylog.go): nothing serialises them, and all
 trims go through one temporary path. A call is taken apart into its file operations; files are inodes, so a
 descriptor opened before a rename still leads to the old file.
 */
module LogInterleavings {
  import opened Wrappers
  import opened Runs
  import opened ActivityLog

  datatype Phase =
    | Began
    | Trimming                           // the size check asked for a trim
    | HasRead(data: string)
    | TmpOpen(data: string, fd: nat)
    | TmpWritten
    | Ready                              // about to open the log for appending
    | LogOpen(fd: nat)
    | Done

  /** base is the log's text at the size check; sized, trims and writes say which operations worked. */
  datatype Call = Call(line: string, phase: Phase, base: string, sized: bool, trims: bool, writes: bool)

  /** written are the lines the log had at the start and all that were written since, in order. */
  datatype State = State(inodes: seq<string>, log: nat, tmp: Option<nat>, calls: seq<Call>, written: seq<string>)

  datatype Action =
    | Begin(line: string)
    | Stat(call: nat, ok: bool)
    | Read(call: nat, ok: bool)
    | OpenTmp(call: nat, ok: bool)
    | WriteTmp(call: nat, ok: bool, left: string)
    | Rename(call: nat, ok: bool)
    | OpenLog(call: nat, ok: bool)
    | WriteLog(call: nat, ok: bool)

  function Start(lines: seq<string>): State
  {
    State([Concat(lines)], 0, None, [], lines)
  }

  ghost predicate IsStart(s: State)
  {
    AllLines(s.written) && s == Start(s.written)
  }

  /** A log or temporary path always leads to an inode. */
  predicate PathsOk(s: State)
  {
    s.log < |s.inodes| && (s.tmp.Some? ==> s.tmp.value < |s.inodes|)
    && forall i :: 0 <= i < |s.calls| ==>
         (s.calls[i].phase.TmpOpen? ==> s.calls[i].phase.fd < |s.inodes|)
         && (s.calls[i].phase.LogOpen? ==> s.calls[i].phase.fd < |s.inodes|)
  }

  function Content(s: State): string
    requires PathsOk(s)
  {
    s.inodes[s.log]
  }

  predicate Enabled(s: State, a: Action)
  {
    match a
    case Begin(line) => IsLine(line)
    case Stat(i, _) => i < |s.calls| && s.calls[i].phase.Began?
    case Read(i, _) => i < |s.calls| && s.calls[i].phase.Trimming?
    case OpenTmp(i, _) => i < |s.calls| && s.calls[i].phase.HasRead?
    case WriteTmp(i, _, _) => i < |s.calls| && s.calls[i].phase.TmpOpen?
    case Rename(i, _) => i < |s.calls| && s.calls[i].phase.TmpWritten?
    case OpenLog(i, _) => i < |s.calls| && s.calls[i].phase.Ready?
    case WriteLog(i, _) => i < |s.calls| && s.calls[i].phase.LogOpen?
  }

  function Moved(s: State, i: nat, phase: Phase): State
    requires i < |s.calls|
  {
    s.(calls := s.calls[i := s.calls[i].(phase := phase)])
  }

  /** Any failure ends the trim and leaves the append to go on. */
  function TrimFailed(s: State, i: nat): State
    requires i < |s.calls|
  {
    s.(calls := s.calls[i := s.calls[i].(phase := Ready, trims := false)])
  }

  /** Writing at the start of a file replaces what is there, byte for byte. */
  function Over(was: string, data: string): string
  {
    if |was| <= |data| then data else data + was[|data|..]
  }

  function Do(max: nat, s: State, a: Action): State
    requires PathsOk(s) && Enabled(s, a)
  {
    match a
    case Begin(line) =>
      s.(calls := s.calls + [Call(line, Began, "", true, true, false)])
    case Stat(i, ok) =>
      var phase := if ok && |Content(s)| + |s.calls[i].line| > max then Trimming else Ready;
      s.(calls := s.calls[i := s.calls[i].(phase := phase, base := Content(s), sized := ok)])
    case Read(i, ok) =>
      if ok then Moved(s, i, HasRead(Trimmed(Content(s), max / 2))) else TrimFailed(s, i)
    case OpenTmp(i, ok) =>
      if !ok then TrimFailed(s, i)
      else if s.tmp.Some? then
        Moved(s.(inodes := s.inodes[s.tmp.value := ""]), i, TmpOpen(s.calls[i].phase.data, s.tmp.value))
      else
        Moved(s.(inodes := s.inodes + [""], tmp := Some(|s.inodes|)), i, TmpOpen(s.calls[i].phase.data, |s.inodes|))
    case WriteTmp(i, ok, left) =>
      var fd := s.calls[i].phase.fd;
      if ok then Moved(s.(inodes := s.inodes[fd := Over(s.inodes[fd], s.calls[i].phase.data)]), i, TmpWritten)
      else TrimFailed(s.(inodes := s.inodes[fd := left]), i)
    case Rename(i, ok) =>
      if ok && s.tmp.Some? then Moved(s.(log := s.tmp.value, tmp := None), i, Ready) else TrimFailed(s, i)
    case OpenLog(i, ok) =>
      Moved(s, i, if ok then LogOpen(s.log) else Done)
    case WriteLog(i, ok) =>
      var call := s.calls[i];
      if ok then s.(inodes := s.inodes[call.phase.fd := s.inodes[call.phase.fd] + call.line],
                    calls := s.calls[i := call.(phase := Done, writes := true)], written := s.written + [call.line])
      else Moved(s, i, Done)
  }

  ghost predicate Step(max: nat, s: State, a: Action, r: State)
  {
    PathsOk(s) && Enabled(s, a) && r == Do(max, s, a)
  }

  ghost predicate IsRun(max: nat, trace: seq<State>, actions: seq<Action>)
  {
    Chain((s, a, r) => Step(max, s, a, r), trace, actions) && IsStart(trace[0])
  }

  lemma StepKeepsPaths(max: nat, s: State, a: Action)
    requires PathsOk(s) && Enabled(s, a)
    ensures PathsOk(Do(max, s, a))
  {
  }

  lemma {:induction false} RunsKeepPaths(max: nat, trace: seq<State>, actions: seq<Action>, n: nat)
    requires IsRun(max, trace, actions) && n < |trace|
    ensures PathsOk(trace[n])
  {
    if n > 0 {
      RunsKeepPaths(max, trace, actions, n - 1);
      StepAt(max, trace, actions, n - 1);
      StepKeepsPaths(max, trace[n - 1], actions[n - 1]);
    }
  }

  lemma StepAt(max: nat, trace: seq<State>, actions: seq<Action>, n: nat)
    requires IsRun(max, trace, actions) && n < |actions|
    ensures Step(max, trace[n], actions[n], trace[n + 1])
  {
    assert ((s, a, r) => Step(max, s, a, r))(trace[n], actions[n], trace[n + 1]);
  }

  // ---------------------------------------------------------------- no trim overlaps another call

  /** Between its size check and its end. */
  predicate Active(c: Call)
  {
    !c.phase.Began? && !c.phase.Done?
  }

  predicate InTrim(c: Call)
  {
    c.phase.Trimming? || c.phase.HasRead? || c.phase.TmpOpen? || c.phase.TmpWritten?
  }

  ghost predicate TrimsAlone(s: State)
  {
    forall i, j :: 0 <= i < |s.calls| && 0 <= j < |s.calls| && i != j && InTrim(s.calls[i]) ==> !Active(s.calls[j])
  }

  ghost predicate IsSuffix(text: string, lines: seq<string>)
  {
    exists m: nat :: m <= |lines| && text == Concat(lines[m..])
  }

  /** What the phase of a call says about the files. */
  predicate CallOk(max: nat, s: State, c: Call)
    requires PathsOk(s)
  {
    && IsLine(c.line)
    && match c.phase
       case HasRead(data) => data == Trimmed(Content(s), max / 2)
       case TmpOpen(data, fd) =>
         data == Trimmed(Content(s), max / 2) && s.tmp == Some(fd) && fd < |s.inodes| && s.inodes[fd] == ""
       case TmpWritten => s.tmp.Some? && s.inodes[s.tmp.value] == Trimmed(Content(s), max / 2)
       case LogOpen(fd) => fd == s.log
       case _ => true
  }

  ghost predicate LogOk(max: nat, s: State)
  {
    && PathsOk(s) && s.tmp != Some(s.log)
    && AllLines(s.written) && IsSuffix(Content(s), s.written)
    && forall i :: 0 <= i < |s.calls| ==> CallOk(max, s, s.calls[i])
  }

  lemma TrimmedIsSuffix(text: string, lines: seq<string>, keep: nat)
    requires AllLines(lines) && IsSuffix(text, lines)
    ensures IsSuffix(Trimmed(text, keep), lines)
  {
    var m: nat :| m <= |lines| && text == Concat(lines[m..]);
    if |text| > keep {
      var k := TrimKeepsSuffix(lines[m..], keep);
      assert lines[m..][k..] == lines[m + k..];
    }
  }

  lemma LongerIsSuffix(text: string, lines: seq<string>, line: string)
    requires IsSuffix(text, lines)
    ensures IsSuffix(text + line, lines + [line])
  {
    var m: nat :| m <= |lines| && text == Concat(lines[m..]);
    ConcatSnoc(lines[m..], line);
    assert (lines + [line])[m..] == lines[m..] + [line];
  }

  /** A call that is not trimming and has not opened the log does not care about the files. */
  lemma IdleCallOk(max: nat, s: State, r: State, c: Call)
    requires PathsOk(s) && PathsOk(r) && CallOk(max, s, c) && !InTrim(c)
    requires c.phase.LogOpen? ==> r.log == s.log
    ensures CallOk(max, r, c)
  {
  }

  /** A step of call i that changes neither the log nor, while another call trims, the temporary file. */
  lemma OthersOk(max: nat, s: State, r: State, i: nat)
    requires LogOk(max, s) && PathsOk(r) && TrimsAlone(s) && i < |s.calls| == |r.calls|
    requires forall j :: 0 <= j < |s.calls| && j != i ==> r.calls[j] == s.calls[j]
    requires Active(s.calls[i])
    requires r.log == s.log || InTrim(s.calls[i])
    ensures forall j :: 0 <= j < |r.calls| && j != i ==> CallOk(max, r, r.calls[j])
  {
    forall j | 0 <= j < |r.calls| && j != i ensures CallOk(max, r, r.calls[j]) {
      assert !InTrim(s.calls[j]);
      IdleCallOk(max, s, r, s.calls[j]);
    }
  }

  lemma BeginKeeps(max: nat, s: State, line: string)
    requires LogOk(max, s) && IsLine(line)
    ensures LogOk(max, Do(max, s, Begin(line)))
  {
    var r := Do(max, s, Begin(line));
    StepKeepsPaths(max, s, Begin(line));
    forall j | 0 <= j < |r.calls| ensures CallOk(max, r, r.calls[j]) {
      if j < |s.calls| {
        assert CallOk(max, s, s.calls[j]);
      }
    }
  }

  lemma StatKeeps(max: nat, s: State, a: Action)
    requires LogOk(max, s) && Enabled(s, a) && a.Stat?
    ensures LogOk(max, Do(max, s, a))
  {
    var r := Do(max, s, a);
    StepKeepsPaths(max, s, a);
    forall j | 0 <= j < |r.calls| ensures CallOk(max, r, r.calls[j]) {
      assert CallOk(max, s, s.calls[j]);
    }
  }

  lemma TrimKeeps(max: nat, s: State, a: Action)
    requires LogOk(max, s) && TrimsAlone(s) && Enabled(s, a) && (a.Read? || a.OpenTmp? || a.WriteTmp?)
    ensures LogOk(max, Do(max, s, a)) && Content(Do(max, s, a)) == Content(s)
  {
    StepKeepsPaths(max, s, a);
    assert CallOk(max, s, s.calls[a.call]);
    OthersOk(max, s, Do(max, s, a), a.call);
  }

  lemma RenameKeeps(max: nat, s: State, a: Action)
    requires LogOk(max, s) && TrimsAlone(s) && Enabled(s, a) && a.Rename?
    ensures LogOk(max, Do(max, s, a))
    ensures Content(Do(max, s, a)) == if a.ok then Trimmed(Content(s), max / 2) else Content(s)
  {
    StepKeepsPaths(max, s, a);
    assert CallOk(max, s, s.calls[a.call]);
    OthersOk(max, s, Do(max, s, a), a.call);
    TrimmedIsSuffix(Content(s), s.written, max / 2);
  }

  lemma AppendKeeps(max: nat, s: State, a: Action)
    requires LogOk(max, s) && TrimsAlone(s) && Enabled(s, a) && (a.OpenLog? || a.WriteLog?)
    ensures LogOk(max, Do(max, s, a))
    ensures Content(Do(max, s, a)) == Content(s) + if a.WriteLog? && a.ok then s.calls[a.call].line else ""
  {
    StepKeepsPaths(max, s, a);
    assert CallOk(max, s, s.calls[a.call]);
    OthersOk(max, s, Do(max, s, a), a.call);
    if a.WriteLog? && a.ok {
      LongerIsSuffix(Content(s), s.written, s.calls[a.call].line);
    }
  }

  lemma StepKeepsLog(max: nat, s: State, a: Action)
    requires LogOk(max, s) && TrimsAlone(s) && Enabled(s, a)
    ensures LogOk(max, Do(max, s, a))
  {
    match a {
      case Begin(line) => BeginKeeps(max, s, line);
      case Stat(_, _) => StatKeeps(max, s, a);
      case Rename(_, _) => RenameKeeps(max, s, a);
      case OpenLog(_, _) => AppendKeeps(max, s, a);
      case WriteLog(_, _) => AppendKeeps(max, s, a);
      case _ => TrimKeeps(max, s, a);
    }
  }

  lemma {:induction false} RunsKeepLog(max: nat, trace: seq<State>, actions: seq<Action>, n: nat)
    requires IsRun(max, trace, actions) && n < |trace| && forall k :: 0 <= k < n ==> TrimsAlone(trace[k])
    ensures LogOk(max, trace[n])
  {
    if n == 0 {
      assert trace[0].written[0..] == trace[0].written;
    } else {
      RunsKeepLog(max, trace, actions, n - 1);
      StepAt(max, trace, actions, n - 1);
      StepKeepsLog(max, trace[n - 1], actions[n - 1]);
    }
  }

  /**
   As long as no trim overlaps another call, from the size check to the append: whatever fails and however
   the other calls interleave, the log is the concatenation of a suffix of the whole lines ever written.
   */
  lemma LogIsSuffixOfWritten(max: nat, trace: seq<State>, actions: seq<Action>, n: nat)
    requires IsRun(max, trace, actions) && n < |trace| && forall k :: 0 <= k < n ==> TrimsAlone(trace[k])
    ensures PathsOk(trace[n]) && AllLines(trace[n].written) && IsSuffix(Content(trace[n]), trace[n].written)
  {
    RunsKeepLog(max, trace, actions, n);
  }

  /** A line that was just written is the last one of the log. */
  lemma NewestLineIsLast(max: nat, trace: seq<State>, actions: seq<Action>, n: nat)
    requires IsRun(max, trace, actions) && n < |actions| && forall k :: 0 <= k <= n ==> TrimsAlone(trace[k])
    requires actions[n].WriteLog? && actions[n].ok
    ensures PathsOk(trace[n]) && PathsOk(trace[n + 1]) && actions[n].call < |trace[n].calls|
    ensures Content(trace[n + 1]) == Content(trace[n]) + trace[n].calls[actions[n].call].line
    ensures trace[n + 1].written == trace[n].written + [trace[n].calls[actions[n].call].line]
  {
    RunsKeepLog(max, trace, actions, n);
    StepAt(max, trace, actions, n);
    StepKeepsPaths(max, trace[n], actions[n]);
    AppendKeeps(max, trace[n], actions[n]);
  }

  // ---------------------------------------------------------------- the cap

  predicate Appending(c: Call)
  {
    c.phase.Ready? || c.phase.LogOpen?
  }

  function Weight(c: Call): nat
  {
    if Appending(c) then |c.line| else 0
  }

  /** Bytes of the lines that are past their size check and trim, but not yet written. */
  function Pending(calls: seq<Call>): nat
  {
    if calls == [] then 0 else Pending(calls[..|calls| - 1]) + Weight(calls[|calls| - 1])
  }

  lemma {:induction false} PendingUpdate(calls: seq<Call>, i: nat, c: Call)
    requires i < |calls|
    ensures Pending(calls[i := c]) == Pending(calls) - Weight(calls[i]) + Weight(c)
  {
    var n := |calls| - 1;
    if i < n {
      PendingUpdate(calls[..n], i, c);
      assert calls[i := c][..n] == calls[..n][i := c];
    } else {
      assert calls[i := c][..n] == calls[..n];
    }
  }

  lemma {:induction false} PendingNone(calls: seq<Call>)
    requires forall i :: 0 <= i < |calls| ==> !Appending(calls[i])
    ensures Pending(calls) == 0
  {
    if calls != [] {
      PendingNone(calls[..|calls| - 1]);
    }
  }

  lemma PendingSnoc(calls: seq<Call>, c: Call)
    ensures Pending(calls + [c]) == Pending(calls) + Weight(c)
  {
    assert (calls + [c])[..|calls|] == calls;
  }

  /** No call has more than this many bytes of other calls' lines pending beside it. */
  ghost predicate Beside(s: State, spare: nat)
  {
    forall i :: 0 <= i < |s.calls| && Appending(s.calls[i]) ==> Pending(s.calls) <= |s.calls[i].line| + spare
  }

  ghost predicate AllFit(max: nat, s: State)
  {
    forall i :: 0 <= i < |s.calls| ==> s.calls[i].sized && s.calls[i].trims && |s.calls[i].line| <= max - max / 2
  }

  ghost predicate WithinCap(max: nat, spare: nat, s: State)
    requires PathsOk(s)
  {
    |Content(s)| + Pending(s.calls) <= max + spare
  }

  lemma TrimmedIsShort(text: string, keep: nat)
    ensures |Trimmed(text, keep)| <= keep
  {
  }

  lemma StatWithinCap(max: nat, spare: nat, s: State, a: Action)
    requires LogOk(max, s) && Enabled(s, a) && a.Stat? && WithinCap(max, spare, s)
    requires AllFit(max, Do(max, s, a)) && Beside(Do(max, s, a), spare)
    ensures LogOk(max, Do(max, s, a)) && WithinCap(max, spare, Do(max, s, a))
  {
    StatKeeps(max, s, a);
    var r := Do(max, s, a);
    assert r.calls[a.call].sized;
    PendingUpdate(s.calls, a.call, r.calls[a.call]);
  }

  lemma RenameWithinCap(max: nat, spare: nat, s: State, a: Action)
    requires LogOk(max, s) && TrimsAlone(s) && Enabled(s, a) && a.Rename? && WithinCap(max, spare, s)
    requires AllFit(max, Do(max, s, a))
    ensures LogOk(max, Do(max, s, a)) && WithinCap(max, spare, Do(max, s, a))
  {
    RenameKeeps(max, s, a);
    var r := Do(max, s, a);
    assert r.calls[a.call].trims && |r.calls[a.call].line| <= max - max / 2;
    forall i | 0 <= i < |s.calls| ensures !Appending(s.calls[i]) {
      assert i != a.call ==> !Active(s.calls[i]);
    }
    PendingNone(s.calls);
    PendingUpdate(s.calls, a.call, r.calls[a.call]);
    TrimmedIsShort(Content(s), max / 2);
  }

  lemma TrimWithinCap(max: nat, spare: nat, s: State, a: Action)
    requires LogOk(max, s) && TrimsAlone(s) && Enabled(s, a) && (a.Read? || a.OpenTmp? || a.WriteTmp?)
    requires WithinCap(max, spare, s) && AllFit(max, Do(max, s, a))
    ensures LogOk(max, Do(max, s, a)) && WithinCap(max, spare, Do(max, s, a))
  {
    TrimKeeps(max, s, a);
    assert Do(max, s, a).calls[a.call].trims;
    PendingUpdate(s.calls, a.call, Do(max, s, a).calls[a.call]);
  }

  lemma AppendWithinCap(max: nat, spare: nat, s: State, a: Action)
    requires LogOk(max, s) && TrimsAlone(s) && Enabled(s, a) && (a.OpenLog? || a.WriteLog?)
    requires WithinCap(max, spare, s)
    ensures LogOk(max, Do(max, s, a)) && WithinCap(max, spare, Do(max, s, a))
  {
    AppendKeeps(max, s, a);
    PendingUpdate(s.calls, a.call, Do(max, s, a).calls[a.call]);
  }

  lemma StepWithinCap(max: nat, spare: nat, s: State, a: Action)
    requires LogOk(max, s) && TrimsAlone(s) && Enabled(s, a) && WithinCap(max, spare, s)
    requires AllFit(max, Do(max, s, a)) && Beside(Do(max, s, a), spare)
    ensures LogOk(max, Do(max, s, a)) && WithinCap(max, spare, Do(max, s, a))
  {
    match a {
      case Begin(line) =>
        BeginKeeps(max, s, line);
        PendingSnoc(s.calls, Call(line, Began, "", true, true, false));
      case Stat(_, _) => StatWithinCap(max, spare, s, a);
      case Rename(_, _) => RenameWithinCap(max, spare, s, a);
      case OpenLog(_, _) => AppendWithinCap(max, spare, s, a);
      case WriteLog(_, _) => AppendWithinCap(max, spare, s, a);
      case _ => TrimWithinCap(max, spare, s, a);
    }
  }

  lemma {:induction false} RunsStayWithinCap(max: nat, spare: nat, trace: seq<State>, actions: seq<Action>, n: nat)
    requires IsRun(max, trace, actions) && n < |trace| && |Concat(trace[0].written)| <= max
    requires forall k :: 0 <= k < n ==> TrimsAlone(trace[k])
    requires forall k :: 0 <= k <= n ==> AllFit(max, trace[k]) && Beside(trace[k], spare)
    ensures LogOk(max, trace[n]) && WithinCap(max, spare, trace[n])
  {
    RunsKeepLog(max, trace, actions, n);
    if n > 0 {
      RunsStayWithinCap(max, spare, trace, actions, n - 1);
      StepAt(max, trace, actions, n - 1);
      StepWithinCap(max, spare, trace[n - 1], actions[n - 1]);
    }
  }

  /**
   As long as no trim overlaps another call, lines are at most max - max/2 bytes and the size checks and trims
   work: the log exceeds max by no more than the lines that other calls have pending at the same time.
   */
  lemma LogExceedsCapByPending(max: nat, spare: nat, trace: seq<State>, actions: seq<Action>, n: nat)
    requires IsRun(max, trace, actions) && n < |trace| && |Concat(trace[0].written)| <= max
    requires forall k :: 0 <= k < n ==> TrimsAlone(trace[k])
    requires forall k :: 0 <= k <= n ==> AllFit(max, trace[k]) && Beside(trace[k], spare)
    ensures PathsOk(trace[n]) && |Content(trace[n])| <= max + spare
  {
    RunsStayWithinCap(max, spare, trace, actions, n);
  }

  // ---------------------------------------------------------------- one call at a time

  /** No call starts between another's size check and its append. */
  ghost predicate OneAtATime(s: State)
  {
    forall i, j :: 0 <= i < |s.calls| && 0 <= j < |s.calls| && i != j && Active(s.calls[i]) ==> !Active(s.calls[j])
  }

  lemma OneAtATimeIsApart(s: State)
    requires OneAtATime(s)
    ensures TrimsAlone(s) && Beside(s, 0)
  {
    forall i | 0 <= i < |s.calls| && Appending(s.calls[i]) ensures Pending(s.calls) <= |s.calls[i].line| {
      var gone := s.calls[i := s.calls[i].(phase := Done)];
      PendingUpdate(s.calls, i, gone[i]);
      PendingNone(gone);
    }
  }

  /** Calls that do not overlap keep the cap exactly. */
  lemma LogStaysWithinCapAlone(max: nat, trace: seq<State>, actions: seq<Action>, n: nat)
    requires IsRun(max, trace, actions) && n < |trace| && |Concat(trace[0].written)| <= max
    requires forall k :: 0 <= k <= n ==> OneAtATime(trace[k]) && AllFit(max, trace[k])
    ensures PathsOk(trace[n]) && |Content(trace[n])| <= max
  {
    forall k | 0 <= k <= n ensures TrimsAlone(trace[k]) && Beside(trace[k], 0) {
      OneAtATimeIsApart(trace[k]);
    }
    LogExceedsCapByPending(max, 0, trace, actions, n);
  }

  function AttemptOf(c: Call, writes: bool): Attempt
  {
    Attempt(c.line, c.sized, c.trims, writes)
  }

  /** How far an undisturbed call has come with the text it found. */
  predicate OnItsWay(max: nat, s: State, c: Call)
    requires PathsOk(s)
  {
    && (c.phase.Began? ==> c.trims)
    && (InTrim(c) ==> Content(s) == c.base && c.sized && c.trims && |c.base| + |c.line| > max)
    && (Appending(c) ==> Content(s) == Room(c.base, max, AttemptOf(c, true)))
  }

  ghost predicate AllOnTheirWay(max: nat, s: State)
    requires PathsOk(s)
  {
    forall i :: 0 <= i < |s.calls| ==> OnItsWay(max, s, s.calls[i])
  }

  lemma StatOnItsWay(max: nat, s: State, a: Action)
    requires LogOk(max, s) && Enabled(s, a) && a.Stat? && OnItsWay(max, s, s.calls[a.call])
    ensures LogOk(max, Do(max, s, a)) && OnItsWay(max, Do(max, s, a), Do(max, s, a).calls[a.call])
  {
    StatKeeps(max, s, a);
  }

  lemma TrimOnItsWay(max: nat, s: State, a: Action)
    requires LogOk(max, s) && TrimsAlone(s) && Enabled(s, a) && (a.Read? || a.OpenTmp? || a.WriteTmp?)
    requires OnItsWay(max, s, s.calls[a.call])
    ensures LogOk(max, Do(max, s, a)) && OnItsWay(max, Do(max, s, a), Do(max, s, a).calls[a.call])
  {
    TrimKeeps(max, s, a);
    OwnPhase(max, s, a);
  }

  /** A trimming call goes on trimming, or gives up with trims reset. */
  lemma OwnPhase(max: nat, s: State, a: Action)
    requires PathsOk(s) && Enabled(s, a) && (a.Read? || a.OpenTmp? || a.WriteTmp?)
    ensures var c, d := s.calls[a.call], Do(max, s, a).calls[a.call];
            && d.line == c.line && d.base == c.base && d.sized == c.sized
            && (if a.ok then InTrim(d) && d.trims == c.trims else d.phase == Ready && !d.trims)
  {
  }

  lemma RenameOnItsWay(max: nat, s: State, a: Action)
    requires LogOk(max, s) && TrimsAlone(s) && Enabled(s, a) && a.Rename? && OnItsWay(max, s, s.calls[a.call])
    ensures LogOk(max, Do(max, s, a)) && OnItsWay(max, Do(max, s, a), Do(max, s, a).calls[a.call])
  {
    RenameKeeps(max, s, a);
    assert CallOk(max, s, s.calls[a.call]);
  }

  lemma AppendOnItsWay(max: nat, s: State, a: Action)
    requires LogOk(max, s) && TrimsAlone(s) && Enabled(s, a) && (a.OpenLog? || a.WriteLog?)
    requires OnItsWay(max, s, s.calls[a.call])
    ensures LogOk(max, Do(max, s, a)) && OnItsWay(max, Do(max, s, a), Do(max, s, a).calls[a.call])
  {
    AppendKeeps(max, s, a);
  }

  /** The call that takes a step. */
  lemma OwnStepOnItsWay(max: nat, s: State, a: Action)
    requires LogOk(max, s) && TrimsAlone(s) && Enabled(s, a) && !a.Begin? && OnItsWay(max, s, s.calls[a.call])
    ensures LogOk(max, Do(max, s, a)) && OnItsWay(max, Do(max, s, a), Do(max, s, a).calls[a.call])
  {
    match a {
      case Stat(_, _) => StatOnItsWay(max, s, a);
      case Rename(_, _) => RenameOnItsWay(max, s, a);
      case OpenLog(_, _) => AppendOnItsWay(max, s, a);
      case WriteLog(_, _) => AppendOnItsWay(max, s, a);
      case _ => TrimOnItsWay(max, s, a);
    }
  }

  /** Every other call has not begun or is done, or is not disturbed by a new one. */
  lemma StepOnItsWay(max: nat, s: State, a: Action)
    requires LogOk(max, s) && OneAtATime(s) && Enabled(s, a) && AllOnTheirWay(max, s) && OneAtATime(Do(max, s, a))
    ensures LogOk(max, Do(max, s, a)) && AllOnTheirWay(max, Do(max, s, a))
  {
    OneAtATimeIsApart(s);
    StepKeepsLog(max, s, a);
    var r := Do(max, s, a);
    if !a.Begin? {
      assert OnItsWay(max, s, s.calls[a.call]);
      OwnStepOnItsWay(max, s, a);
      assert Active(s.calls[a.call]) || Active(r.calls[a.call]);
    }
    forall i | 0 <= i < |r.calls| ensures OnItsWay(max, r, r.calls[i]) {
      if i < |s.calls| {
        assert OnItsWay(max, s, s.calls[i]);
        if a.Begin? || a.call != i {
          OtherCallOnItsWay(max, s, a, i);
        }
      }
    }
  }

  lemma OtherCallOnItsWay(max: nat, s: State, a: Action, i: nat)
    requires PathsOk(s) && Enabled(s, a) && OneAtATime(s) && OneAtATime(Do(max, s, a))
    requires i < |s.calls| && OnItsWay(max, s, s.calls[i]) && (a.Begin? || a.call != i)
    ensures PathsOk(Do(max, s, a)) && OnItsWay(max, Do(max, s, a), Do(max, s, a).calls[i])
  {
    StepKeepsPaths(max, s, a);
    if !a.Begin? {
      assert Active(s.calls[a.call]) || Active(Do(max, s, a).calls[a.call]);
      assert Do(max, s, a).calls[i] == s.calls[i];
    }
  }

  lemma {:induction false} RunsOnTheirWay(max: nat, trace: seq<State>, actions: seq<Action>, n: nat)
    requires IsRun(max, trace, actions) && n < |trace| && forall k :: 0 <= k <= n ==> OneAtATime(trace[k])
    ensures LogOk(max, trace[n]) && AllOnTheirWay(max, trace[n])
  {
    if n == 0 {
      RunsKeepLog(max, trace, actions, 0);
    } else {
      RunsOnTheirWay(max, trace, actions, n - 1);
      StepAt(max, trace, actions, n - 1);
      StepOnItsWay(max, trace[n - 1], actions[n - 1]);
    }
  }

  /** Calls that do not overlap do, step by step, exactly what one append does to the text it finds. */
  lemma CallAloneAppends(max: nat, trace: seq<State>, actions: seq<Action>, n: nat)
    requires IsRun(max, trace, actions) && n < |actions| && actions[n].WriteLog?
    requires forall k :: 0 <= k <= n ==> OneAtATime(trace[k])
    ensures actions[n].call < |trace[n].calls| && PathsOk(trace[n + 1])
    ensures var c := trace[n].calls[actions[n].call];
            Content(trace[n + 1]) == Appended(c.base, max, AttemptOf(c, actions[n].ok))
  {
    RunsOnTheirWay(max, trace, actions, n);
    StepAt(max, trace, actions, n);
    OneAtATimeIsApart(trace[n]);
    AppendKeeps(max, trace[n], actions[n]);
    assert OnItsWay(max, trace[n], trace[n].calls[actions[n].call]);
  }
}
