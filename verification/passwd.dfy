/**
 Replacing one password hash in /etc/shadow (internal/agent/passwd.go) and reading root's hash back
 (rootPasswordHash in internal/agent/agent.go), as text transformations.
 */
module Passwd {
  import opened Wrappers
  import opened Text

  /** The line with its second field replaced; further fields, up to the ninth, stay. */
  function WithHash(line: string, hash: string): string
    requires |SplitN(line, ':', 9)| >= 2
  {
    Join(SplitN(line, ':', 9)[1 := hash], ':')
  }

  /** Position of the first line of the user, or |lines|. */
  function UserLine(lines: seq<string>, user: string): (i: nat)
    ensures i <= |lines|
    ensures i < |lines| ==> user + ":" <= lines[i]
    ensures forall k :: 0 <= k < i ==> !(user + ":" <= lines[k])
  {
    if lines == [] || user + ":" <= lines[0] then 0
    else
      var i := UserLine(lines[1..], user);
      assert forall k :: 0 < k < i + 1 ==> lines[k] == lines[1..][k - 1];
      1 + i
  }

  lemma TwoFields(user: string, line: string)
    requires user + ":" <= line
    ensures |SplitN(line, ':', 9)| >= 2
  {
    assert line[|user|] == ':';
  }

  /** The shadow file with the user's hash replaced, Err when the user has no line. */
  function PasswordSet(data: string, user: string, hash: string): Result<string>
  {
    var lines := Split(data, '\n');
    var i := UserLine(lines, user);
    if i == |lines| then Err
    else
      TwoFields(user, lines[i]);
      Ok(Join(lines[i := WithHash(lines[i], hash)], '\n'))
  }

  method SetPassword(data: string, user: string, hash: string) returns (r: Result<string>)
    ensures r == PasswordSet(data, user, hash)
  {
    var lines := Split(data, '\n');
    ghost var original := lines;
    var found := false;
    var i := 0;
    while i < |lines| && !found
      invariant 0 <= i <= |original| == |lines|
      invariant !found ==> lines == original && i <= UserLine(original, user)
      invariant found ==> i > 0 && UserLine(original, user) == i - 1 && user + ":" <= original[i - 1]
                          && |SplitN(original[i - 1], ':', 9)| >= 2
                          && lines == original[i - 1 := WithHash(original[i - 1], hash)]
      decreases |lines| - i
    {
      if user + ":" <= lines[i] {
        TwoFields(user, lines[i]);
        var fields := SplitN(lines[i], ':', 9);
        fields := fields[1 := hash];
        lines := lines[i := Join(fields, ':')];
        found := true;
      }
      i := i + 1;
    }
    if !found {
      return Err;
    }
    return Ok(Join(lines, '\n'));
  }

  /** Root's hash field, "" when root has no entry. */
  function HashIn(lines: seq<string>): string
  {
    if lines == [] then ""
    else
      var fields := SplitN(lines[0], ':', 3);
      if |fields| >= 2 && fields[0] == "root" then fields[1] else HashIn(lines[1..])
  }

  method RootPasswordHash(data: string) returns (hash: string)
    ensures hash == HashIn(Split(data, '\n'))
  {
    var lines := Split(data, '\n');
    for i := 0 to |lines|
      invariant HashIn(lines) == HashIn(lines[i..])
    {
      var fields := SplitN(lines[i], ':', 3);
      if |fields| >= 2 && fields[0] == "root" {
        return fields[1];
      }
    }
    return "";
  }

  // ---------------------------------------------------------------- what changes and what does not

  /** In the user's line only the second field changes. */
  ghost predicate OnlySecondChanges(user: string, line: string, hash: string)
  {
    && |SplitN(line, ':', 9)| >= 2 && |Split(line, ':')| >= 2
    && Split(line, ':')[0] == user
    && Split(WithHash(line, hash), ':') == Split(line, ':')[1 := hash]
    && (Free(line, '\n') && Free(hash, '\n') ==> Free(WithHash(line, hash), '\n'))
  }

  lemma OnlySecondField(user: string, line: string, hash: string)
    requires Free(user, ':') && Free(hash, ':') && user + ":" <= line
    ensures OnlySecondChanges(user, line, hash)
  {
    var tail := line[|user| + 1..];
    var j := IndexOf(tail, ':');
    if j == |tail| {
      assert line == user + [':'] + tail;
      TwoFieldLine(user, tail, hash);
    } else {
      assert line == Entry(user, tail[..j], tail[j + 1..]);
      LongLine(user, tail[..j], tail[j + 1..], hash);
    }
  }

  function Entry(user: string, field: string, more: string): string
  {
    user + [':'] + (field + [':'] + more)
  }

  lemma EntryFree(user: string, was: string, more: string, hash: string, c: char)
    requires c != ':' && Free(Entry(user, was, more), c) && Free(hash, c)
    ensures Free(Entry(user, hash, more), c)
  {
    var line := Entry(user, was, more);
    assert forall k :: 0 <= k < |user| ==> user[k] == line[k];
    assert forall k :: 0 <= k < |more| ==> more[k] == line[|user| + 1 + |was| + 1 + k];
  }

  lemma EntrySplits(user: string, field: string, more: string)
    requires Free(user, ':') && Free(field, ':')
    ensures Split(Entry(user, field, more), ':') == [user] + ([field] + Split(more, ':'))
  {
    SplitHead(user, ':', field + [':'] + more);
    SplitHead(field, ':', more);
  }

  lemma TwoFieldLine(user: string, was: string, hash: string)
    requires Free(user, ':') && Free(hash, ':') && Free(was, ':')
    ensures OnlySecondChanges(user, user + [':'] + was, hash)
  {
    SplitNHead(user, ':', was, 9);
    SplitHead(user, ':', was);
    SplitHead(user, ':', hash);
    SplitFree(was, ':');
    SplitFree(hash, ':');
    IndexOfNone(was, ':');
    assert ([user] + [was])[1 := hash] == [user] + [hash];
    JoinCons(user, [hash], ':');
    var line := user + [':'] + was;
    assert forall k :: 0 <= k < |user| ==> user[k] == line[k];
  }

  lemma JoinSecondReplaced(user: string, was: string, rest: seq<string>, hash: string)
    requires rest != []
    ensures Join(([user] + ([was] + rest))[1 := hash], ':') == Entry(user, hash, Join(rest, ':'))
  {
    assert ([user] + ([was] + rest))[1 := hash] == [user] + ([hash] + rest);
    JoinCons(user, [hash] + rest, ':');
    JoinCons(hash, rest, ':');
  }

  lemma WithHashOfEntry(user: string, was: string, more: string, hash: string)
    requires Free(user, ':') && Free(was, ':')
    ensures |SplitN(Entry(user, was, more), ':', 9)| >= 2
    ensures WithHash(Entry(user, was, more), hash) == Entry(user, hash, more)
  {
    SplitNHead(user, ':', was + [':'] + more, 9);
    SplitNHead(was, ':', more, 8);
    JoinSecondReplaced(user, was, SplitN(more, ':', 7), hash);
    JoinSplitN(more, ':', 7);
  }

  lemma LongLine(user: string, was: string, more: string, hash: string)
    requires Free(user, ':') && Free(hash, ':') && Free(was, ':')
    ensures OnlySecondChanges(user, Entry(user, was, more), hash)
  {
    WithHashOfEntry(user, was, more, hash);
    EntrySplits(user, was, more);
    EntrySplits(user, hash, more);
    if Free(Entry(user, was, more), '\n') && Free(hash, '\n') {
      EntryFree(user, was, more, hash, '\n');
    }
  }

  /**
   A successful SetPassword replaces the second field of the user's first line; every other field of
   that line and every other line stays exactly as it was.
   */
  lemma SetPasswordFrame(data: string, user: string, hash: string)
    requires Free(user, ':') && Free(hash, ':') && Free(hash, '\n')
    ensures var lines := Split(data, '\n');
            var i := UserLine(lines, user);
            && (PasswordSet(data, user, hash).Err? <==> i == |lines|)
            && (i < |lines| ==>
                  var after := Split(PasswordSet(data, user, hash).value, '\n');
                  && |Split(lines[i], ':')| >= 2
                  && |after| == |lines| && (forall k :: 0 <= k < |lines| && k != i ==> after[k] == lines[k])
                  && Split(after[i], ':') == Split(lines[i], ':')[1 := hash])
  {
    var lines := Split(data, '\n');
    var i := UserLine(lines, user);
    if i < |lines| {
      OnlySecondField(user, lines[i], hash);
      SplitPartsAreFree(data, '\n');
      SplitJoin(lines[i := WithHash(lines[i], hash)], '\n');
    }
  }

  lemma RootFields(line: string)
    ensures |SplitN(line, ':', 3)| >= 2 && SplitN(line, ':', 3)[0] == "root" <==> "root" + ":" <= line
    ensures "root" + ":" <= line ==> |Split(line, ':')| >= 2 && SplitN(line, ':', 3)[1] == Split(line, ':')[1]
  {
    if "root" + ":" <= line {
      assert line[..4] == "root";
      IndexOfFirst(line, 4, ':');
      assert line == "root" + ":" + line[5..];
      SplitHead("root", ':', line[5..]);
    } else {
      var i := IndexOf(line, ':');
      assert i < |line| && line[..i] == "root" ==> line[..i] + [line[i]] == line[..i + 1];
    }
  }

  lemma {:induction false} HashIsSecondField(lines: seq<string>)
    ensures var i := UserLine(lines, "root");
            if i < |lines| then |Split(lines[i], ':')| >= 2 && HashIn(lines) == Split(lines[i], ':')[1]
            else HashIn(lines) == ""
  {
    if lines != [] {
      RootFields(lines[0]);
      HashIsSecondField(lines[1..]);
    }
  }

  lemma {:induction false} UserLineStays(before: seq<string>, after: seq<string>, user: string)
    requires |before| == |after| && UserLine(before, user) < |before|
    requires forall k :: 0 <= k < |before| && k != UserLine(before, user) ==> after[k] == before[k]
    requires user + ":" <= after[UserLine(before, user)]
    ensures UserLine(after, user) == UserLine(before, user)
  {
    assert forall k :: 0 <= k < UserLine(before, user) ==> !(user + ":" <= after[k]);
  }

  /** The hash reads back exactly when it contains neither the field nor the line separator. */
  lemma PasswordRoundTrip(data: string, hash: string)
    requires PasswordSet(data, "root", hash).Ok?
    ensures HashIn(Split(PasswordSet(data, "root", hash).value, '\n')) == hash <==> Free(hash, ':') && Free(hash, '\n')
  {
    var after := Split(PasswordSet(data, "root", hash).value, '\n');
    HashIsSecondField(after);
    if Free(hash, ':') && Free(hash, '\n') {
      var lines := Split(data, '\n');
      var i := UserLine(lines, "root");
      SetPasswordFrame(data, "root", hash);
      OnlySecondField("root", lines[i], hash);
      RootKeepsItsPrefix(lines[i], after[i], hash);
      UserLineStays(lines, after, "root");
    } else {
      SplitPartsAreFree(PasswordSet(data, "root", hash).value, '\n');
      ReadHashIsFree(after);
    }
  }

  lemma RootKeepsItsPrefix(line: string, changed: string, hash: string)
    requires |Split(line, ':')| >= 2 && Split(line, ':')[0] == "root"
    requires Split(changed, ':') == Split(line, ':')[1 := hash]
    ensures "root" + ":" <= changed
  {
    var i := IndexOf(changed, ':');
    assert Split(changed, ':')[0] == "root";
    assert changed[..i] == "root";
    assert changed == changed[..i] + changed[i..];
  }

  /** A hash that was read contains no separator: it is a field of a line. */
  lemma ReadHashIsFree(lines: seq<string>)
    requires forall i :: 0 <= i < |lines| ==> Free(lines[i], '\n')
    ensures Free(HashIn(lines), ':') && Free(HashIn(lines), '\n')
  {
    HashIsSecondField(lines);
    var i := UserLine(lines, "root");
    if i < |lines| {
      SplitPartsAreFree(lines[i], ':');
      PartsInherit(lines[i], ':', '\n');
    }
  }

  lemma {:induction false} PartsInherit(s: string, sep: char, c: char)
    requires Free(s, c)
    ensures forall i :: 0 <= i < |Split(s, sep)| ==> Free(Split(s, sep)[i], c)
    decreases |s|
  {
    var i := IndexOf(s, sep);
    if i < |s| {
      PartsInherit(s[i + 1..], sep, c);
    }
  }
}
