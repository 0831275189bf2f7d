/** Runs of the event pipeline: everything a process prints can get through, and a full buffer drops. */
module EventRuns {
  import opened Runs
  import opened EventPipeline

  ghost predicate IsStart(s: State)
  {
    s == State([], [], false)
  }

  ghost predicate Occurs(matches: string -> bool, s: State)
  {
    Reachable(IsStart, (s, a, r) => Step(matches, s, a, r), s)
  }

  lemma Began(matches: string -> bool) returns (s: State)
    ensures Occurs(matches, s) && s == State([FRESH], [], false)
  {
    var start := State([], [], false);
    InitialIsReachable(IsStart, (s, a, r) => Step(matches, s, a, r), start);
    s := State([FRESH], [], false);
    StepIsReachable(IsStart, (s, a, r) => Step(matches, s, a, r), start, Start, s);
  }

  /** A step of the only process. */
  lemma Went(matches: string -> bool, s: State, a: Action) returns (r: State)
    requires Occurs(matches, s) && |s.processes| == 1 && !s.sentOnClosed
    requires !a.Start? && a.g == 0 && Enabled(s.processes[0], a) && !SendsOnClosed(s.processes[0], a)
    ensures Occurs(matches, r) && r.processes == [Advance(s.processes[0], a, matches)] && !r.sentOnClosed
    ensures r.log == if a.Publish? then s.log + [s.processes[0].stdout[s.processes[0].inFlight.value]] else s.log
  {
    r := State([Advance(s.processes[0], a, matches)],
               if a.Publish? then s.log + [s.processes[0].stdout[s.processes[0].inFlight.value]] else s.log, false);
    assert r.processes == s.processes[0 := Advance(s.processes[0], a, matches)];
    StepIsReachable(IsStart, (s, a, r) => Step(matches, s, a, r), s, a, r);
  }

  /** A process whose every line so far went through: nothing is buffered and nothing was dropped. */
  ghost function Through(stdout: seq<string>, matches: string -> bool): Process
  {
    FRESH.(stdout := stdout, published := Matching(stdout, matches), readerMatched := |Matching(stdout, matches)|)
  }

  lemma OneLine(matches: string -> bool, s: State, stdout: seq<string>, line: string) returns (r: State)
    requires Occurs(matches, s) && s.processes == [Through(stdout, matches)] && !s.sentOnClosed
    ensures Occurs(matches, r) && r.processes == [Through(stdout + [line], matches)] && !r.sentOnClosed
    ensures r.log == s.log + if matches(line) then [line] else []
  {
    var n := |stdout|;
    assert (stdout + [line])[..n] == stdout;
    r := Went(matches, s, Scan(0, line));
    r := Went(matches, r, TakeLine(0));
    r := Went(matches, r, Filter(0));
    if matches(line) {
      assert r.processes[0].queue == [n];
      r := Went(matches, r, TakeEvent(0));
      r := Went(matches, r, Publish(0));
      assert Matching(stdout + [line], matches) == Matching(stdout, matches) + [n];
    } else {
      assert Matching(stdout + [line], matches) == Matching(stdout, matches);
    }
    assert r.processes[0] == Through(stdout + [line], matches);
  }

  function Filtered(lines: seq<string>, matches: string -> bool): seq<string>
  {
    if lines == [] then []
    else Filtered(lines[..|lines| - 1], matches) + if matches(lines[|lines| - 1]) then [lines[|lines| - 1]] else []
  }

  lemma {:induction false} AllLines(matches: string -> bool, lines: seq<string>) returns (s: State)
    ensures Occurs(matches, s) && s.processes == [Through(lines, matches)] && s.log == Filtered(lines, matches) && !s.sentOnClosed
  {
    if lines == [] {
      s := Began(matches);
    } else {
      var n := |lines| - 1;
      assert lines[..n] + [lines[n]] == lines;
      s := AllLines(matches, lines[..n]);
      s := OneLine(matches, s, lines[..n], lines[n]);
    }
  }

  /** Whatever a process prints, there is a run that publishes exactly its matching lines and ends all three goroutines. */
  lemma EverythingCanGetThrough(matches: string -> bool, lines: seq<string>) returns (s: State)
    ensures Occurs(matches, s) && s.log == Filtered(lines, matches) && |s.processes| == 1
    ensures s.processes[0].stdout == lines && s.processes[0].droppedLines == [] && s.processes[0].droppedEvents == []
    ensures s.processes[0].lineDone && s.processes[0].publishDone && CanStart(s)
  {
    s := AllLines(matches, lines);
    s := Went(matches, s, PumpExit(0));
    s := Went(matches, s, CloseQueue(0));
    s := Went(matches, s, ReaderExit(0));
    s := Went(matches, s, PublisherExit(0));
  }
}
