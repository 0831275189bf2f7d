/**
 One ubus_listen registration: a supervisor that runs one subscription process after another
 (internal/agent/ubus_listen.go), and for each process a pump, a filtering reader and a publisher
 joined by two bounded queues that drop instead of blocking (internal/agent/ubus_listen_proc.go).
 Lines are named by their position in their process's stdout.
 */
module EventPipeline {
  import opened Wrappers
  import opened Runs

  const LINE_BUFFER: nat := 16
  const PUBLISH_QUEUE: nat := 8

  datatype Process = Process(
    stdout: seq<string>,       // every line the pump has scanned
    lines: seq<nat>,           // buffered between pump and reader
    linesClosed: bool,
    held: Option<nat>,         // the line the reader is looking at
    queue: seq<nat>,           // buffered between reader and publisher
    queueClosed: bool,
    inFlight: Option<nat>,     // the line the publisher is publishing
    published: seq<nat>,
    readerMatched: nat,        // lines the reader found to match
    droppedLines: seq<nat>,    // line buffer full
    droppedEvents: seq<nat>,   // publish queue full
    lineDone: bool,
    publishDone: bool)

  const FRESH := Process([], [], false, None, [], false, None, [], 0, [], [], false, false)

  datatype State = State(
    processes: seq<Process>,
    log: seq<string>,          // lines offered for publishing, in order
    sentOnClosed: bool)

  datatype Action =
    | Start
    | Scan(g: nat, line: string)  // pump: one line, sent unless the buffer is full
    | PumpExit(g: nat)            // process gone: close(lines)
    | TakeLine(g: nat)
    | Filter(g: nat)
    | CloseQueue(g: nat)          // reader at the end of lines: close(publishQueue)
    | ReaderExit(g: nat)          // then close(lineDone)
    | TakeEvent(g: nat)
    | Publish(g: nat)
    | PublisherExit(g: nat)

  function Opt(o: Option<nat>): seq<nat>
  {
    if o.Some? then [o.value] else []
  }

  /** The supervisor starts the next process only after both goroutines of the last one are done. */
  ghost predicate CanStart(s: State)
  {
    s.processes == [] || (s.processes[|s.processes| - 1].lineDone && s.processes[|s.processes| - 1].publishDone)
  }

  /** One step of the pump, reader or publisher of one process. */
  ghost predicate Enabled(p: Process, a: Action)
  {
    match a
    case Start => false
    case Scan(_, _) => !p.linesClosed
    case PumpExit(_) => !p.linesClosed
    case TakeLine(_) => p.lines != [] && p.held.None?
    case Filter(_) => p.held.Some? && p.held.value < |p.stdout|
    case CloseQueue(_) => p.linesClosed && p.lines == [] && p.held.None? && !p.queueClosed
    case ReaderExit(_) => p.queueClosed && !p.lineDone
    case TakeEvent(_) => p.queue != [] && p.inFlight.None?
    case Publish(_) => p.inFlight.Some? && p.inFlight.value < |p.stdout|
    case PublisherExit(_) => p.queueClosed && p.queue == [] && p.inFlight.None?
  }

  ghost function Advance(p: Process, a: Action, matches: string -> bool): Process
    requires Enabled(p, a)
  {
    match a
    case Scan(_, line) =>
      var n := |p.stdout|;
      if |p.lines| < LINE_BUFFER then p.(stdout := p.stdout + [line], lines := p.lines + [n])
      else p.(stdout := p.stdout + [line], droppedLines := p.droppedLines + [n])
    case PumpExit(_) => p.(linesClosed := true)
    case TakeLine(_) => p.(lines := p.lines[1..], held := Some(p.lines[0]))
    case Filter(_) =>
      var i := p.held.value;
      if !matches(p.stdout[i]) then p.(held := None)
      else if |p.queue| < PUBLISH_QUEUE then
        p.(held := None, queue := p.queue + [i], readerMatched := p.readerMatched + 1)
      else p.(held := None, droppedEvents := p.droppedEvents + [i], readerMatched := p.readerMatched + 1)
    case CloseQueue(_) => p.(queueClosed := true)
    case ReaderExit(_) => p.(lineDone := true)
    case TakeEvent(_) => p.(queue := p.queue[1..], inFlight := Some(p.queue[0]))
    case Publish(_) => p.(inFlight := None, published := p.published + [p.inFlight.value])
    case PublisherExit(_) => p.(publishDone := true)
    case Start => p
  }

  /** Only the pump sends on lines and only the reader sends on the queue. */
  predicate SendsOnClosed(p: Process, a: Action)
  {
    (a.Scan? && p.linesClosed) || (a.Filter? && p.queueClosed)
  }

  ghost predicate Step(matches: string -> bool, s: State, a: Action, r: State)
  {
    if a.Start? then
      CanStart(s) && r == s.(processes := s.processes + [FRESH])
    else
      && a.g < |s.processes| && Enabled(s.processes[a.g], a)
      && r == State(
           s.processes[a.g := Advance(s.processes[a.g], a, matches)],
           if a.Publish? then s.log + [s.processes[a.g].stdout[s.processes[a.g].inFlight.value]] else s.log,
           s.sentOnClosed || SendsOnClosed(s.processes[a.g], a))
  }

  ghost predicate IsRun(matches: string -> bool, trace: seq<State>, actions: seq<Action>)
  {
    Chain((s, a, r) => Step(matches, s, a, r), trace, actions) && trace[0] == State([], [], false)
  }

  // ---------------------------------------------------------------- one process

  ghost predicate Increasing(s: seq<nat>)
  {
    forall i, j :: 0 <= i < j < |s| ==> s[i] < s[j]
  }

  predicate Below(s: seq<nat>, n: nat)
  {
    forall k :: 0 <= k < |s| ==> s[k] < n
  }

  /** Everything past the pump that is not dropped or discarded, oldest first. */
  function Downstream(p: Process): seq<nat>
  {
    p.published + Opt(p.inFlight) + p.queue
  }

  function Flow(p: Process): seq<nat>
  {
    Downstream(p) + Opt(p.held) + p.lines
  }

  ghost predicate ProcessInv(p: Process, matches: string -> bool)
  {
    && Increasing(Flow(p))
    && Below(Flow(p), |p.stdout|)
    && Below(Downstream(p), |p.stdout|)
    && (forall k :: 0 <= k < |Downstream(p)| ==> matches(p.stdout[Downstream(p)[k]]))
    && (forall i :: 0 <= i < |p.stdout| && matches(p.stdout[i]) ==>
          i in Flow(p) || i in p.droppedLines || i in p.droppedEvents)
    && p.readerMatched == |Downstream(p)| + |p.droppedEvents|
    && |p.lines| <= LINE_BUFFER && |p.queue| <= PUBLISH_QUEUE
    && (p.queueClosed ==> p.linesClosed && p.lines == [] && p.held.None?)
    && (p.lineDone ==> p.queueClosed)
    && (p.publishDone ==> p.queueClosed && p.queue == [] && p.inFlight.None?)
  }

  lemma IncreasingWithout(a: seq<nat>, x: nat, b: seq<nat>)
    requires Increasing(a + [x] + b)
    ensures Increasing(a + b)
  {
    forall i, j | 0 <= i < j < |a + b| ensures (a + b)[i] < (a + b)[j] {
      var k, l := if i < |a| then i else i + 1, if j < |a| then j else j + 1;
      assert (a + [x] + b)[k] < (a + [x] + b)[l];
    }
  }

  lemma ScanKeeps(p: Process, a: Action, matches: string -> bool)
    requires ProcessInv(p, matches) && Enabled(p, a) && (a.Scan? || a.PumpExit?)
    ensures ProcessInv(Advance(p, a, matches), matches)
  {
    var q := Advance(p, a, matches);
    assert Downstream(q) == Downstream(p);
    if a.Scan? && |p.lines| < LINE_BUFFER {
      assert Flow(q) == Flow(p) + [|p.stdout|];
    } else {
      assert Flow(q) == Flow(p);
    }
    if a.Scan? {
      forall i | 0 <= i < |q.stdout| && matches(q.stdout[i])
        ensures i in Flow(q) || i in q.droppedLines || i in q.droppedEvents
      {
        if i < |p.stdout| {
          assert q.stdout[i] == p.stdout[i];
        } else {
          assert q.droppedLines == p.droppedLines || q.droppedLines[|p.droppedLines|] == i;
          assert Flow(q) == Flow(p) || Flow(q)[|Flow(p)|] == i;
        }
      }
    }
  }

  lemma MoveKeeps(p: Process, a: Action, matches: string -> bool)
    requires ProcessInv(p, matches) && Enabled(p, a)
    requires a.TakeLine? || a.TakeEvent? || a.Publish? || a.CloseQueue? || a.ReaderExit? || a.PublisherExit?
    ensures ProcessInv(Advance(p, a, matches), matches)
  {
    var q := Advance(p, a, matches);
    SameFlow(p, a, matches);
    match a {
      case TakeLine(_) =>
      case TakeEvent(_) =>
      case Publish(_) =>
      case CloseQueue(_) =>
      case ReaderExit(_) =>
      case PublisherExit(_) =>
    }
  }

  lemma SameFlow(p: Process, a: Action, matches: string -> bool)
    requires Enabled(p, a)
    requires a.TakeLine? || a.TakeEvent? || a.Publish? || a.CloseQueue? || a.ReaderExit? || a.PublisherExit?
    ensures var q := Advance(p, a, matches); Flow(q) == Flow(p) && Downstream(q) == Downstream(p)
  {
    var q := Advance(p, a, matches);
    match a {
      case TakeLine(_) => assert p.lines == [p.lines[0]] + p.lines[1..];
      case TakeEvent(_) => assert p.queue == [p.queue[0]] + p.queue[1..];
      case Publish(_) => assert Downstream(q) == Downstream(p);
      case CloseQueue(_) =>
      case ReaderExit(_) =>
      case PublisherExit(_) =>
    }
    assert Downstream(q) == Downstream(p);
  }

  /** A matching line goes into the queue while there is room. */
  lemma QueueingKeeps(p: Process, a: Action, matches: string -> bool)
    requires ProcessInv(p, matches) && Enabled(p, a) && a.Filter?
    requires matches(p.stdout[p.held.value]) && |p.queue| < PUBLISH_QUEUE
    ensures ProcessInv(Advance(p, a, matches), matches)
  {
    var q := Advance(p, a, matches);
    assert Downstream(q) == Downstream(p) + [p.held.value];
    assert Flow(q) == Flow(p);
  }

  /** Any other line leaves the flow, and is counted as dropped if it matched. */
  lemma RemovingKeeps(p: Process, a: Action, matches: string -> bool)
    requires ProcessInv(p, matches) && Enabled(p, a) && a.Filter?
    requires !matches(p.stdout[p.held.value]) || |p.queue| >= PUBLISH_QUEUE
    ensures ProcessInv(Advance(p, a, matches), matches)
  {
    var q, i := Advance(p, a, matches), p.held.value;
    var before := Downstream(p);
    assert Downstream(q) == before;
    assert Flow(p) == before + [i] + p.lines && Flow(q) == before + p.lines;
    IncreasingWithout(before, i, p.lines);
    BelowWithout(before, i, p.lines, |p.stdout|);
    forall k | 0 <= k < |p.stdout| && matches(p.stdout[k])
      ensures k in Flow(q) || k in q.droppedLines || k in q.droppedEvents
    {
      assert k in before + [i] + p.lines ==> k in before + p.lines || k == i;
      assert matches(p.stdout[i]) ==> q.droppedEvents == p.droppedEvents + [i];
    }
  }

  lemma BelowWithout(a: seq<nat>, x: nat, b: seq<nat>, n: nat)
    requires Below(a + [x] + b, n)
    ensures Below(a + b, n)
  {
    forall i | 0 <= i < |a + b| ensures (a + b)[i] < n {
      assert (a + [x] + b)[if i < |a| then i else i + 1] < n;
    }
  }

  lemma FilterKeeps(p: Process, a: Action, matches: string -> bool)
    requires ProcessInv(p, matches) && Enabled(p, a) && a.Filter?
    ensures ProcessInv(Advance(p, a, matches), matches)
  {
    if matches(p.stdout[p.held.value]) && |p.queue| < PUBLISH_QUEUE {
      QueueingKeeps(p, a, matches);
    } else {
      RemovingKeeps(p, a, matches);
    }
  }

  lemma AdvanceKeeps(p: Process, a: Action, matches: string -> bool)
    requires ProcessInv(p, matches) && Enabled(p, a)
    ensures ProcessInv(Advance(p, a, matches), matches)
  {
    if a.Scan? || a.PumpExit? {
      ScanKeeps(p, a, matches);
    } else if a.Filter? {
      FilterKeeps(p, a, matches);
    } else {
      MoveKeeps(p, a, matches);
    }
  }

  // ---------------------------------------------------------------- all processes

  function Texts(stdout: seq<string>, at: seq<nat>): seq<string>
    requires Below(at, |stdout|)
  {
    seq(|at|, k requires 0 <= k < |at| => stdout[at[k]])
  }

  predicate PublishedFits(p: Process)
  {
    Below(p.published, |p.stdout|)
  }

  /** What each process published, process after process. */
  function Concatenated(ps: seq<Process>): seq<string>
    requires forall g :: 0 <= g < |ps| ==> PublishedFits(ps[g])
  {
    if ps == [] then []
    else
      var last := ps[|ps| - 1];
      assert PublishedFits(last);
      Concatenated(ps[..|ps| - 1]) + Texts(last.stdout, last.published)
  }

  /** Every process keeps its invariant, and all but the last are done. */
  ghost predicate AllOk(ps: seq<Process>, matches: string -> bool)
  {
    && (forall g :: 0 <= g < |ps| ==> ProcessInv(ps[g], matches))
    && forall g :: 0 <= g < |ps| - 1 ==> ps[g].lineDone && ps[g].publishDone
  }

  ghost predicate Inv(matches: string -> bool, s: State)
  {
    && (forall g :: 0 <= g < |s.processes| ==> PublishedFits(s.processes[g]))
    && AllOk(s.processes, matches)
    && s.log == Concatenated(s.processes)
    && !s.sentOnClosed
  }

  lemma {:induction false} ConcatenatedFresh(ps: seq<Process>)
    requires forall g :: 0 <= g < |ps| ==> PublishedFits(ps[g])
    ensures PublishedFits(FRESH) && Concatenated(ps + [FRESH]) == Concatenated(ps)
  {
    assert (ps + [FRESH])[..|ps|] == ps;
  }

  lemma PublishedBelow(p: Process, matches: string -> bool)
    requires ProcessInv(p, matches)
    ensures PublishedFits(p)
  {
    forall k | 0 <= k < |p.published| ensures p.published[k] < |p.stdout| { assert Downstream(p)[k] == p.published[k]; }
  }

  lemma FreshIsOk(matches: string -> bool)
    ensures ProcessInv(FRESH, matches) && PublishedFits(FRESH)
  {
    assert Flow(FRESH) == [] && Downstream(FRESH) == [];
  }

  lemma AppendKeepsAll(ps: seq<Process>, q: Process, matches: string -> bool)
    requires AllOk(ps, matches) && ProcessInv(q, matches)
    requires ps == [] || (ps[|ps| - 1].lineDone && ps[|ps| - 1].publishDone)
    ensures AllOk(ps + [q], matches)
  {
    var more := ps + [q];
    forall g | 0 <= g < |more| ensures ProcessInv(more[g], matches) {
      if g < |ps| { assert more[g] == ps[g]; }
    }
  }

  lemma UpdateKeepsAll(ps: seq<Process>, q: Process, matches: string -> bool)
    requires AllOk(ps, matches) && ProcessInv(q, matches) && ps != []
    ensures AllOk(ps[|ps| - 1 := q], matches)
  {
  }

  lemma StartKeepsInv(matches: string -> bool, s: State)
    requires Inv(matches, s) && CanStart(s)
    ensures Inv(matches, s.(processes := s.processes + [FRESH]))
  {
    FreshIsOk(matches);
    ConcatenatedFresh(s.processes);
    AppendKeepsAll(s.processes, FRESH, matches);
  }

  lemma LastStepKeepsInv(matches: string -> bool, s: State, a: Action, r: State)
    requires Inv(matches, s) && Step(matches, s, a, r) && !a.Start? && a.g == |s.processes| - 1
    ensures Inv(matches, r)
  {
    var p := s.processes[a.g];
    assert ProcessInv(p, matches);
    AdvanceKeeps(p, a, matches);
    StepEffect(p, a, matches);
    LastMoved(matches, s, r, Advance(p, a, matches), if a.Publish? then [p.inFlight.value] else []);
  }

  /** The last process moved on and published at most one more line. */
  lemma LastMoved(matches: string -> bool, s: State, r: State, q: Process, more: seq<nat>)
    requires Inv(matches, s) && s.processes != [] && ProcessInv(q, matches)
    requires var p := s.processes[|s.processes| - 1];
             && p.stdout <= q.stdout && q.published == p.published + more && |more| <= 1 && Below(more, |p.stdout|)
             && r == State(s.processes[|s.processes| - 1 := q], s.log + Texts(p.stdout, more), false)
    ensures Inv(matches, r)
  {
    PublishedBelow(q, matches);
    UpdateKeepsAll(s.processes, q, matches);
    LogGrows(s.processes, s.processes[|s.processes| - 1], q, more);
  }

  ghost predicate AllFit(ps: seq<Process>)
  {
    forall g :: 0 <= g < |ps| ==> PublishedFits(ps[g])
  }

  lemma LogGrows(ps: seq<Process>, p: Process, q: Process, more: seq<nat>)
    requires ps != [] && p == ps[|ps| - 1] && AllFit(ps) && PublishedFits(q)
    requires p.stdout <= q.stdout && q.published == p.published + more && |more| <= 1 && Below(more, |p.stdout|)
    ensures AllFit(ps[|ps| - 1 := q])
    ensures Concatenated(ps[|ps| - 1 := q]) == Concatenated(ps) + Texts(p.stdout, more)
  {
    var n := |ps| - 1;
    assert ps[n := q][..n] == ps[..n];
    assert Texts(q.stdout, q.published) == Texts(p.stdout, p.published) + Texts(p.stdout, more);
  }

  /** Only Publish adds to what is published, one line; no step rewrites stdout or sends on a closed channel. */
  lemma StepEffect(p: Process, a: Action, matches: string -> bool)
    requires ProcessInv(p, matches) && Enabled(p, a)
    ensures p.stdout <= Advance(p, a, matches).stdout && !SendsOnClosed(p, a)
    ensures Advance(p, a, matches).published == p.published + if a.Publish? then [p.inFlight.value] else []
    ensures a.Publish? ==> p.inFlight.value < |p.stdout|
  {
  }

  lemma StepKeepsInv(matches: string -> bool, s: State, a: Action, r: State)
    requires Inv(matches, s) && Step(matches, s, a, r)
    ensures Inv(matches, r)
  {
    if a.Start? {
      StartKeepsInv(matches, s);
    } else if a.g == |s.processes| - 1 {
      LastStepKeepsInv(matches, s, a, r);
    } else {
      DoneIsDone(s.processes[a.g], a, matches);
      assert r.processes == s.processes;
    }
  }

  /** Once both goroutines of a process are done, nothing of it can move any more. */
  lemma DoneIsDone(p: Process, a: Action, matches: string -> bool)
    requires ProcessInv(p, matches) && p.lineDone && p.publishDone && Enabled(p, a)
    ensures Advance(p, a, matches) == p && !a.Publish? && !SendsOnClosed(p, a)
  {
  }

  lemma {:induction false} RunsKeepInv(matches: string -> bool, trace: seq<State>, actions: seq<Action>, n: nat)
    requires IsRun(matches, trace, actions) && n < |trace|
    ensures Inv(matches, trace[n])
  {
    if n > 0 {
      RunsKeepInv(matches, trace, actions, n - 1);
      assert ((s, a, r) => Step(matches, s, a, r))(trace[n - 1], actions[n - 1], trace[n - 1 + 1]);
      StepKeepsInv(matches, trace[n - 1], actions[n - 1], trace[n]);
    }
  }

  // ---------------------------------------------------------------- promises

  /** Positions of the lines of one type, in order. */
  function Matching(stdout: seq<string>, matches: string -> bool): seq<nat>
  {
    if stdout == [] then []
    else
      var n := |stdout| - 1;
      Matching(stdout[..n], matches) + (if matches(stdout[n]) then [n] else [])
  }

  lemma {:induction false} MatchingFacts(stdout: seq<string>, matches: string -> bool)
    ensures Increasing(Matching(stdout, matches)) && Below(Matching(stdout, matches), |stdout|)
    ensures forall i: nat :: i in Matching(stdout, matches) <==> i < |stdout| && matches(stdout[i])
  {
    if stdout != [] {
      var n := |stdout| - 1;
      MatchingFacts(stdout[..n], matches);
      assert forall i :: 0 <= i < n ==> stdout[..n][i] == stdout[i];
    }
  }

  lemma {:induction false} IncreasingIsUnique(a: seq<nat>, b: seq<nat>)
    requires Increasing(a) && Increasing(b) && forall i :: i in a <==> i in b
    ensures a == b
  {
    assert a != [] ==> a[0] in b;
    assert b != [] ==> b[0] in a;
    if a != [] && b != [] {
      var x, y := a[1..], b[1..];
      assert a == [a[0]] + x && b == [b[0]] + y;
      assert a[0] == b[0];
      assert forall i :: i in x ==> i in a && i != a[0];
      assert forall i :: i in y ==> i in b && i != b[0];
      IncreasingIsUnique(x, y);
    }
  }

  /**
   In every run: what is offered for publishing is, process after process and never interleaved, lines
   of each process's stdout that match, in stdout order and each at most once; every matching line the
   reader saw is published, in flight, queued or counted as dropped; the buffers stay within bounds;
   nothing is sent on a closed channel.
   */
  lemma OfferedInOrder(matches: string -> bool, trace: seq<State>, actions: seq<Action>, n: nat)
    requires IsRun(matches, trace, actions) && n < |trace|
    ensures forall g :: 0 <= g < |trace[n].processes| ==> PublishedFits(trace[n].processes[g])
    ensures trace[n].log == Concatenated(trace[n].processes) && !trace[n].sentOnClosed
    ensures forall g :: 0 <= g < |trace[n].processes| ==>
              var p := trace[n].processes[g];
              && Increasing(p.published) && (forall k :: 0 <= k < |p.published| ==> matches(p.stdout[p.published[k]]))
              && p.readerMatched == |p.published| + |Opt(p.inFlight)| + |p.queue| + |p.droppedEvents|
              && |p.lines| <= 16 && |p.queue| <= 8
  {
    RunsKeepInv(matches, trace, actions, n);
    forall g | 0 <= g < |trace[n].processes|
      ensures var p := trace[n].processes[g];
              Increasing(p.published) && forall k :: 0 <= k < |p.published| ==> matches(p.stdout[p.published[k]])
    {
      var p := trace[n].processes[g];
      assert forall k :: 0 <= k < |p.published| ==> Flow(p)[k] == p.published[k] == Downstream(p)[k];
    }
  }

  /** A finished process that dropped nothing published exactly its matching lines. */
  lemma NothingDroppedNothingLost(matches: string -> bool, trace: seq<State>, actions: seq<Action>, n: nat, g: nat)
    requires IsRun(matches, trace, actions) && n < |trace| && g < |trace[n].processes|
    requires var p := trace[n].processes[g];
             p.lineDone && p.publishDone && p.droppedLines == [] && p.droppedEvents == []
    ensures trace[n].processes[g].published == Matching(trace[n].processes[g].stdout, matches)
  {
    RunsKeepInv(matches, trace, actions, n);
    var p := trace[n].processes[g];
    MatchingFacts(p.stdout, matches);
    assert Flow(p) == p.published == Downstream(p);
    IncreasingIsUnique(p.published, Matching(p.stdout, matches));
  }

  /** A line is dropped exactly when the buffer it would go to is full, and otherwise goes there, before that is closed. */
  lemma DropMeansFull(matches: string -> bool, trace: seq<State>, actions: seq<Action>, n: nat, g: nat)
    requires IsRun(matches, trace, actions) && n < |actions| && g < |trace[n].processes|
    ensures g < |trace[n + 1].processes|
    ensures var p, q, a := trace[n].processes[g], trace[n + 1].processes[g], actions[n];
            && (q.droppedLines == p.droppedLines + [|p.stdout|] <==> a.Scan? && a.g == g && |p.lines| == 16)
            && (q.droppedLines != p.droppedLines ==> q.droppedLines == p.droppedLines + [|p.stdout|])
            && (a.Scan? && a.g == g && |p.lines| < 16 ==> q.lines == p.lines + [|p.stdout|])
            && (q.droppedEvents != p.droppedEvents <==>
                  a.Filter? && a.g == g && |p.queue| == 8 && p.held.Some? && p.held.value < |p.stdout| && matches(p.stdout[p.held.value]))
            && (a.Filter? && a.g == g && |p.queue| < 8 && p.held.Some? && p.held.value < |p.stdout| ==>
                  q.queue == p.queue + if matches(p.stdout[p.held.value]) then [p.held.value] else [])
            && (|q.lines| > |p.lines| ==> !p.linesClosed) && (|q.queue| > |p.queue| ==> !p.queueClosed)
  {
    RunsKeepInv(matches, trace, actions, n);
    assert ((s, a, r) => Step(matches, s, a, r))(trace[n], actions[n], trace[n + 1]);
    assert ProcessInv(trace[n].processes[g], matches);
  }
}
