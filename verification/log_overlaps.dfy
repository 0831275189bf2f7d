/** Runs in which overlapping calls break what single calls promise about the activity log. */
module LogOverlaps {
  import opened Wrappers
  import opened Runs
  import Text
  import opened ActivityLog
  import opened LogInterleavings

  ghost predicate Occurs(max: nat, s: State)
  {
    Reachable(IsStart, (s, a, r) => Step(max, s, a, r), s)
  }

  lemma Went(max: nat, s: State, a: Action) returns (r: State)
    requires Occurs(max, s) && PathsOk(s) && Enabled(s, a)
    ensures r == Do(max, s, a) && Occurs(max, r) && PathsOk(r)
  {
    r := Do(max, s, a);
    StepKeepsPaths(max, s, a);
    StepIsReachable(IsStart, (s, a, r) => Step(max, s, a, r), s, a, r);
  }

  /** Two calls that have not looked at the log yet. */
  lemma TwoCalls(max: nat, lines: seq<string>, x: string, y: string) returns (s: State)
    requires AllLines(lines) && IsLine(x) && IsLine(y)
    ensures Occurs(max, s) && s == State([Concat(lines)], 0, None, [Fresh(x), Fresh(y)], lines)
  {
    s := Start(lines);
    InitialIsReachable(IsStart, (s, a, r) => Step(max, s, a, r), s);
    s := Went(max, s, Begin(x));
    s := Went(max, s, Begin(y));
    assert [] + [Fresh(x)] + [Fresh(y)] == [Fresh(x), Fresh(y)];
  }

  function Fresh(line: string): Call
  {
    Call(line, Began, "", true, true, false)
  }

  function At(line: string, phase: Phase, base: string): Call
  {
    Call(line, phase, base, true, true, phase == Done)
  }

  /** Both calls check the size before either goes on. */
  lemma BothStat(max: nat, lines: seq<string>, x: string, y: string) returns (s: State)
    requires AllLines(lines) && IsLine(x) && IsLine(y)
    ensures var text := Concat(lines);
            Occurs(max, s) && s == State([text], 0, None,
              [At(x, if |text| + |x| > max then Trimming else Ready, text),
               At(y, if |text| + |y| > max then Trimming else Ready, text)], lines)
  {
    s := TwoCalls(max, lines, x, y);
    s := Went(max, s, Stat(0, true));
    s := Went(max, s, Stat(1, true));
  }

  lemma Appends(max: nat, s: State, i: nat) returns (r: State)
    requires Occurs(max, s) && PathsOk(s) && i < |s.calls| && s.calls[i].phase == Ready
    ensures Occurs(max, r) && PathsOk(r)
    ensures r == s.(inodes := s.inodes[s.log := s.inodes[s.log] + s.calls[i].line],
                    calls := s.calls[i := s.calls[i].(phase := Done, writes := true)],
                    written := s.written + [s.calls[i].line])
  {
    r := Went(max, s, OpenLog(i, true));
    r := Went(max, r, WriteLog(i, true));
  }

  predicate FitAlone(max: nat, line: string)
  {
    |line| <= max - max / 2
  }

  /**
   The cap: whenever two lines each fit behind the log but not both, there is a run in which every size check
   and write works and the log ends up larger than max.
   */
  lemma OverlapExceedsCap(max: nat, lines: seq<string>, x: string, y: string) returns (s: State)
    requires AllLines(lines) && IsLine(x) && IsLine(y) && FitAlone(max, x) && FitAlone(max, y)
    requires |Concat(lines)| + |x| <= max && |Concat(lines)| + |y| <= max < |Concat(lines)| + |x| + |y|
    ensures Occurs(max, s) && PathsOk(s) && AllFit(max, s) && TrimsAlone(s)
    ensures Content(s) == Concat(lines) + x + y && |Content(s)| > max
  {
    s := BothStat(max, lines, x, y);
    s := Appends(max, s, 0);
    s := Appends(max, s, 1);
  }

  /** A text ends a series of lines if it is empty, or ends with the last one and what is before ends the others. */
  lemma SuffixSnoc(text: string, lines: seq<string>, last: string)
    ensures IsSuffix(text, lines + [last])
            <==> text == "" || (|last| <= |text| && text[|text| - |last|..] == last && IsSuffix(text[..|text| - |last|], lines))
  {
    var all := lines + [last];
    if IsSuffix(text, all) && text != "" {
      var m: nat :| m <= |all| && text == Concat(all[m..]);
      assert m < |all| && all[m..] == lines[m..] + [last];
      ConcatSnoc(lines[m..], last);
      assert text[..|text| - |last|] == Concat(lines[m..]);
    }
    if text == "" {
      assert all[|all|..] == [] && Concat(all[|all|..]) == text;
    } else if |last| <= |text| && text[|text| - |last|..] == last && IsSuffix(text[..|text| - |last|], lines) {
      LongerIsSuffix(text[..|text| - |last|], lines, last);
      assert text == text[..|text| - |last|] + last;
    }
  }

  /**
   A written line is lost: x needs a trim and has read the log when y is appended; the trim then puts back what
   it had read. The log misses y, although y was written and only older lines may go.
   */
  lemma OverlapLosesLine(max: nat, lines: seq<string>, x: string, y: string) returns (s: State)
    requires AllLines(lines) && IsLine(x) && IsLine(y) && FitAlone(max, x) && FitAlone(max, y)
    requires |Concat(lines)| + |y| <= max < |Concat(lines)| + |x|
    requires var kept := Trimmed(Concat(lines), max / 2);
             kept != "" && !(|y| <= |kept| && kept[|kept| - |y|..] == y)
    ensures Occurs(max, s) && PathsOk(s) && AllFit(max, s) && s.written == lines + [y] + [x]
    ensures Content(s) == Trimmed(Concat(lines), max / 2) + x && !IsSuffix(Content(s), s.written)
  {
    var kept := Trimmed(Concat(lines), max / 2);
    s := OtherAppendsMeanwhile(max, lines, x, y);
    s := TrimGoesOn(max, s, kept);
    NotThere(kept, x, lines, y);
  }

  /** The two lines, and nothing failed so far. */
  predicate TwoFine(s: State, x: string, y: string)
  {
    |s.calls| == 2 && s.calls[0].line == x && s.calls[1].line == y
    && s.calls[0].sized && s.calls[1].sized && s.calls[0].trims && s.calls[1].trims
  }

  lemma OtherAppendsMeanwhile(max: nat, lines: seq<string>, x: string, y: string) returns (s: State)
    requires AllLines(lines) && IsLine(x) && IsLine(y)
    requires |Concat(lines)| + |y| <= max < |Concat(lines)| + |x|
    ensures Occurs(max, s) && PathsOk(s) && |s.inodes| == 1 && s.tmp.None? && s.written == lines + [y] && TwoFine(s, x, y)
    ensures s.calls[0].phase == HasRead(Trimmed(Concat(lines), max / 2))
  {
    s := BothStat(max, lines, x, y);
    s := Went(max, s, Read(0, true));
    s := Appends(max, s, 1);
  }

  lemma OtherTruncatesMeanwhile(max: nat, lines: seq<string>, x: string, y: string, kept: string) returns (s: State)
    requires AllLines(lines) && IsLine(x) && IsLine(y) && kept == Trimmed(Concat(lines), max / 2)
    requires |Concat(lines)| + |x| > max && |Concat(lines)| + |y| > max
    ensures Occurs(max, s) && PathsOk(s) && |s.inodes| == 2 && s.inodes[1] == "" && s.tmp == Some(1)
    ensures TwoFine(s, x, y) && s.written == lines
    ensures s.calls[0].phase == TmpWritten && s.calls[1].phase == TmpOpen(kept, 1)
  {
    s := BothStat(max, lines, x, y);
    s := Went(max, s, Read(0, true));
    s := Went(max, s, Read(1, true));
    s := Went(max, s, OpenTmp(0, true));
    s := Went(max, s, WriteTmp(0, true, ""));
    s := Went(max, s, OpenTmp(1, true));
  }

  /** The rest of a call that has read the log, undisturbed. */
  lemma TrimGoesOn(max: nat, s: State, kept: string) returns (r: State)
    requires Occurs(max, s) && PathsOk(s) && |s.inodes| == 1 && s.tmp.None?
    requires |s.calls| == 2 && s.calls[0].phase == HasRead(kept)
    ensures Occurs(max, r) && PathsOk(r) && Content(r) == kept + s.calls[0].line && r.written == s.written + [s.calls[0].line]
    ensures |r.calls| == 2 && forall i :: 0 <= i < 2 ==>
              r.calls[i].line == s.calls[i].line && r.calls[i].sized == s.calls[i].sized && r.calls[i].trims == s.calls[i].trims
  {
    r := Went(max, s, OpenTmp(0, true));
    assert r.inodes[1] == "";
    r := Went(max, r, WriteTmp(0, true, ""));
    assert r.inodes[1] == kept;
    r := Went(max, r, Rename(0, true));
    r := Appends(max, r, 0);
  }

  lemma NotThere(kept: string, x: string, lines: seq<string>, y: string)
    requires kept != "" && !(|y| <= |kept| && kept[|kept| - |y|..] == y)
    ensures !IsSuffix(kept + x, lines + [y] + [x])
  {
    SuffixSnoc(kept + x, lines + [y], x);
    SuffixSnoc(kept, lines, y);
    assert (kept + x)[..|kept + x| - |x|] == kept;
  }

  /**
   A line is torn: both calls trim. The second one truncates the shared temporary file after the first one
   wrote it; the first one renames it and appends; the second one, still holding it open, writes over the start.
   */
  lemma OverlapTearsLine(max: nat, lines: seq<string>, x: string, y: string) returns (s: State)
    requires AllLines(lines) && IsLine(x) && IsLine(y) && FitAlone(max, x) && FitAlone(max, y)
    requires |Concat(lines)| + |x| > max && |Concat(lines)| + |y| > max
    requires var kept := Trimmed(Concat(lines), max / 2);
             kept != "" && |kept| < |x| && kept != x[..|kept|]
    ensures Occurs(max, s) && PathsOk(s) && AllFit(max, s) && s.written == lines + [x]
    ensures var kept := Trimmed(Concat(lines), max / 2);
            Content(s) == kept + x[|kept|..] && !IsSuffix(Content(s), s.written)
  {
    var kept := Trimmed(Concat(lines), max / 2);
    s := OtherTruncatesMeanwhile(max, lines, x, y, kept);
    s := TearAfterTruncate(max, s, kept, x);
    Torn(kept, x, lines);
  }

  lemma Torn(kept: string, x: string, lines: seq<string>)
    requires kept != "" && |kept| < |x| && kept != x[..|kept|]
    ensures !IsSuffix(kept + x[|kept|..], lines + [x])
  {
    SuffixSnoc(kept + x[|kept|..], lines, x);
    assert (kept + x[|kept|..])[..|kept|] == kept;
  }

  lemma TearAfterTruncate(max: nat, s: State, kept: string, x: string) returns (r: State)
    requires Occurs(max, s) && PathsOk(s) && |s.inodes| == 2 && s.inodes[1] == "" && s.tmp == Some(1)
    requires |s.calls| == 2 && s.calls[0].phase == TmpWritten && s.calls[1].phase == TmpOpen(kept, 1)
    requires s.calls[0].line == x && |kept| < |x|
    ensures Occurs(max, r) && PathsOk(r) && r.written == s.written + [x] && Content(r) == kept + x[|kept|..]
    ensures |r.calls| == 2 && forall i :: 0 <= i < 2 ==>
              r.calls[i].line == s.calls[i].line && r.calls[i].sized == s.calls[i].sized && r.calls[i].trims == s.calls[i].trims
  {
    r := Went(max, s, Rename(0, true));
    r := Appends(max, r, 0);
    assert "" + x == x;
    assert r.log == 1 && r.inodes[1] == x;
    r := Went(max, r, WriteTmp(1, true, ""));
  }

  /** Inputs of the last two lemmas, with a cap of ten bytes. */
  lemma SuchInputsExist()
    ensures var lines := ["aaaa\n", "bb\n"];
            && AllLines(lines) && Trimmed(Concat(lines), 5) == "bb\n" && |Concat(lines)| == 8
            && IsLine("wxyz\n") && IsLine("uvw\n") && IsLine("q\n")
  {
    var lines := ["aaaa\n", "bb\n"];
    assert lines[1..] == ["bb\n"] && ["bb\n"][1..] == [];
    assert Concat(["bb\n"]) == "bb\n" + Concat([]);
    assert Concat(lines) == "aaaa\n" + "bb\n" == "aaaa\nbb\n";
    var tail := "aaaa\nbb\n"[3..];
    assert tail == "a\nbb\n" && tail[1] == '\n' && tail[..1] == "a";
    Text.IndexOfFirst(tail, 1, '\n');
    assert tail[2..] == "bb\n";
  }
}
