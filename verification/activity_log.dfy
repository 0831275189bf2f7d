/**
 The size-capped activity log (internal/agent/activitylog.go) as a list of whole lines, one call after another;
 LogInterleavings has the calls overlap. A char stands for a byte.
 */
module ActivityLog {
  import opened Text

  /** A record as the text handler formats it: one newline, at the end. */
  predicate IsLine(line: string)
  {
    line != "" && line[|line| - 1] == '\n' && forall i :: 0 <= i < |line| - 1 ==> line[i] != '\n'
  }

  predicate AllLines(lines: seq<string>)
  {
    forall i :: 0 <= i < |lines| ==> IsLine(lines[i])
  }

  function Concat(lines: seq<string>): string
  {
    if lines == [] then "" else lines[0] + Concat(lines[1..])
  }

  lemma {:induction false} ConcatSnoc(lines: seq<string>, line: string)
    ensures Concat(lines + [line]) == Concat(lines) + line
  {
    if lines == [] {
      assert lines + [line] == [line];
    } else {
      ConcatSnoc(lines[1..], line);
      assert (lines + [line])[1..] == lines[1..] + [line];
    }
  }

  /** trimActivityLog's text: the last keep bytes, from the line after the first newline in them. */
  function Trimmed(data: string, keep: nat): string
  {
    if |data| <= keep then data else AfterNewline(data[|data| - keep..])
  }

  function AfterNewline(tail: string): string
  {
    var i := IndexOf(tail, '\n');
    if i == |tail| then tail else tail[i + 1..]
  }

  /** Cutting data down to its last keep bytes, and behind the first newline in them, leaves this. */
  ghost predicate CutsTo(data: string, keep: nat, left: string)
  {
    keep <= |data| && AfterNewline(data[|data| - keep..]) == left && |left| < keep
  }

  /** The cut falls into a line: the newline found first is the line's. */
  lemma CutInLine(line: string, rest: string, keep: nat)
    requires IsLine(line) && |rest| < keep <= |line + rest|
    ensures CutsTo(line + rest, keep, rest)
  {
    var part := line[|line + rest| - keep..];
    assert (line + rest)[|line + rest| - keep..] == part + rest;
    IndexOfFirst(part + rest, |part| - 1, '\n');
    assert (part + rest)[|part|..] == rest;
  }

  lemma CutBehindLine(line: string, rest: string, keep: nat, left: string)
    requires CutsTo(rest, keep, left)
    ensures CutsTo(line + rest, keep, left)
  {
    assert (line + rest)[|line + rest| - keep..] == rest[|rest| - keep..];
  }

  /** Cutting the last keep bytes after their first newline leaves the whole lines that fit in fewer than keep bytes. */
  lemma {:induction false} CutLeavesWholeLines(lines: seq<string>, keep: nat) returns (m: nat)
    requires AllLines(lines) && 0 < keep <= |Concat(lines)|
    ensures 0 < m <= |lines| && CutsTo(Concat(lines), keep, Concat(lines[m..]))
    ensures |Concat(lines[m..])| < keep <= |Concat(lines[m - 1..])|
  {
    var rest := Concat(lines[1..]);
    if |rest| < keep {
      m := 1;
      assert lines[0..] == lines;
      CutInLine(lines[0], rest, keep);
    } else {
      var k := CutLeavesWholeLines(lines[1..], keep);
      m := k + 1;
      assert lines[1..][k..] == lines[m..] && lines[1..][k - 1..] == lines[m - 1..];
      CutBehindLine(lines[0], rest, keep, Concat(lines[m..]));
    }
  }

  /**
   Trimming a file of whole lines that fits keeps it; otherwise it keeps the newest lines, exactly those that take
   fewer than keep bytes together.
   */
  lemma TrimKeepsSuffix(lines: seq<string>, keep: nat) returns (m: nat)
    requires AllLines(lines)
    ensures m <= |lines| && Trimmed(Concat(lines), keep) == Concat(lines[m..])
    ensures |Concat(lines)| <= keep ==> m == 0
    ensures |Concat(lines)| > keep > 0 ==> m > 0 && |Concat(lines[m..])| < keep <= |Concat(lines[m - 1..])|
    ensures |Concat(lines)| > keep == 0 ==> m == |lines|
  {
    if |Concat(lines)| <= keep {
      m := 0;
      assert lines[0..] == lines;
    } else if keep == 0 {
      m := |lines|;
      assert lines[m..] == [] && Concat(lines)[|Concat(lines)|..] == "";
    } else {
      m := CutLeavesWholeLines(lines, keep);
      assert CutsTo(Concat(lines), keep, Concat(lines[m..]));
    }
  }

  method TrimText(data: string, keep: nat) returns (r: string)
    ensures r == Trimmed(data, keep)
  {
    if |data| <= keep {
      return data;
    }
    var tail := data[|data| - keep..];
    var idx := 0;
    while idx < |tail| && tail[idx] != '\n'
      invariant idx <= |tail| && Free(tail[..idx], '\n')
    {
      idx := idx + 1;
    }
    if idx < |tail| {
      IndexOfFirst(tail, idx, '\n');
      return tail[idx + 1..];
    }
    assert tail[..idx] == tail;
    IndexOfNone(tail, '\n');
    return tail;
  }

  // ---------------------------------------------------------------- one append, and any number of them

  /** One call of appendToActivityLog: whether the size check, the trim it may ask for, and the write worked. */
  datatype Attempt = Attempt(line: string, sized: bool, trims: bool, writes: bool)

  function Room(file: string, max: nat, a: Attempt): string
  {
    if a.sized && a.trims && |file| + |a.line| > max then Trimmed(file, max / 2) else file
  }

  /** The file after one call. */
  function Appended(file: string, max: nat, a: Attempt): string
  {
    Room(file, max, a) + if a.writes then a.line else ""
  }

  /** The file after any number of calls one after another, from what it held before. */
  function AppendedAll(before: string, max: nat, attempts: seq<Attempt>): string
  {
    if attempts == [] then before
    else Appended(AppendedAll(before, max, attempts[..|attempts| - 1]), max, attempts[|attempts| - 1])
  }

  /** The lines that were written, in order. */
  function Written(attempts: seq<Attempt>): seq<string>
  {
    if attempts == [] then []
    else
      var a := attempts[|attempts| - 1];
      Written(attempts[..|attempts| - 1]) + if a.writes then [a.line] else []
  }

  predicate Fits(max: nat, a: Attempt)
  {
    a.sized && a.trims && |a.line| <= max - max / 2
  }

  /** Whatever the file held before, and however large it was, such a call leaves it within max. */
  lemma AppendRestoresCap(file: string, max: nat, a: Attempt)
    requires Fits(max, a)
    ensures |Appended(file, max, a)| <= max
  {
  }

  /** Whatever fails, one call leaves whole lines: a suffix of the old ones, and the new one if it was written. */
  lemma AppendKeepsLines(lines: seq<string>, max: nat, a: Attempt) returns (m: nat)
    requires AllLines(lines)
    ensures m <= |lines|
    ensures Appended(Concat(lines), max, a) == Concat(lines[m..] + if a.writes then [a.line] else [])
    ensures |Concat(lines)| + |a.line| <= max ==> m == 0
  {
    m := 0;
    if |Concat(lines)| + |a.line| > max && a.sized && a.trims && |Concat(lines)| > max / 2 {
      m := TrimKeepsSuffix(lines, max / 2);
    } else {
      assert lines[m..] == lines;
    }
    ConcatSnoc(lines[m..], a.line);
    assert a.writes || lines[m..] + [] == lines[m..];
  }

  /** After any series of calls, one after another, the file is a suffix of all lines up to then, ending with the newest. */
  lemma {:induction false} LogIsSuffix(found: seq<string>, max: nat, attempts: seq<Attempt>) returns (m: nat)
    requires AllLines(found) && forall i :: 0 <= i < |attempts| ==> IsLine(attempts[i].line)
    ensures var all := found + Written(attempts);
            AllLines(all) && m <= |all| && AppendedAll(Concat(found), max, attempts) == Concat(all[m..])
            && (attempts != [] && attempts[|attempts| - 1].writes ==> m < |all|)
  {
    if attempts == [] {
      m := 0;
      assert found + [] == found && found[0..] == found;
    } else {
      var front, a := attempts[..|attempts| - 1], attempts[|attempts| - 1];
      var before := LogIsSuffix(found, max, front);
      m := OneMoreAppend(found + Written(front), before, max, a);
      assert found + Written(attempts) == found + Written(front) + if a.writes then [a.line] else [];
    }
  }

  lemma OneMoreAppend(lines: seq<string>, from: nat, max: nat, a: Attempt) returns (m: nat)
    requires AllLines(lines) && from <= |lines| && IsLine(a.line)
    ensures var all := lines + if a.writes then [a.line] else [];
            AllLines(all) && from <= m <= |lines| && Appended(Concat(lines[from..]), max, a) == Concat(all[m..])
  {
    var dropped := AppendKeepsLines(lines[from..], max, a);
    m := from + dropped;
    assert lines[from..][dropped..] == lines[m..];
    assert (lines + if a.writes then [a.line] else [])[m..] == lines[m..] + if a.writes then [a.line] else [];
  }

  /**
   The cap: after any series of calls, one after another, whose last line is at most max - max/2 bytes, with its
   size check and the trim it asks for working, the file is within max, whatever failed or did not fit before.
   */
  lemma LogStaysWithinCap(before: string, max: nat, attempts: seq<Attempt>)
    requires if attempts == [] then |before| <= max
             else var a := attempts[|attempts| - 1]; a.sized && a.trims && |a.line| <= max - max / 2
    ensures |AppendedAll(before, max, attempts)| <= max
  {
    if attempts != [] {
      AppendRestoresCap(AppendedAll(before, max, attempts[..|attempts| - 1]), max, attempts[|attempts| - 1]);
    }
  }

  class ActivityLogFile {
    const max: nat
    var file: string
    /** What the file held at the start, and every call since. */
    ghost var found: seq<string>
    ghost var attempts: seq<Attempt>

    ghost predicate Valid()
      reads this
    {
      && (forall i :: 0 <= i < |attempts| ==> IsLine(attempts[i].line))
      && AllLines(found) && file == AppendedAll(Concat(found), max, attempts)
    }

    constructor (max: nat, text: string, ghost found: seq<string>)
      requires AllLines(found) && text == Concat(found)
      ensures Valid() && this.max == max && file == text && this.found == found && attempts == []
    {
      this.max, file, this.found, attempts := max, text, found, [];
    }

    /** trimActivityLog: a failed write leaves the file as it was. */
    method Trim(works: bool)
      modifies this`file
      ensures file == if works then Trimmed(old(file), max / 2) else old(file)
    {
      var data := TrimText(file, max / 2);
      if works {
        file := data;
      }
    }

    /**
     appendToActivityLog, given which of its file operations work. The file is within max afterwards unless
     the line is too long, or the size check or the trim failed; a line that fits removes nothing.
     */
    method Append(line: string, sized: bool, trims: bool, writes: bool)
      requires Valid() && IsLine(line)
      modifies this
      ensures Valid() && found == old(found) && attempts == old(attempts) + [Attempt(line, sized, trims, writes)]
      ensures file == Appended(old(file), max, Attempt(line, sized, trims, writes))
      ensures sized && trims && |line| <= max - max / 2 ==> |file| <= max
      ensures |old(file)| + |line| <= max ==> file == old(file) + if writes then line else ""
    {
      if sized && |file| + |line| > max {
        Trim(trims);
      }
      if writes {
        file := file + line;
      }
      ghost var a := Attempt(line, sized, trims, writes);
      assert (attempts + [a])[..|attempts|] == attempts;
      attempts := attempts + [a];
    }
  }
}
