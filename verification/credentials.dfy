/**
 The credentials file: writing it (internal/config/credentials.go) and reading it back through the
 key=value scanner (scanKeyValueFile in internal/config/config.go), as text: a char is a character, and the
 scanner's limit counts its bytes.
 */
module Credentials {
  import opened Wrappers
  import opened Text

  datatype Creds = Creds(deviceID: string, secret: string, brokerHost: string, brokerPort: int)

  const EMPTY := Creds("", "", "", 0)

  // ---------------------------------------------------------------- writing

  function KeyLine(key: string, value: string): string
  {
    key + "=" + value
  }

  function HostLine(c: Creds): seq<string>
  {
    if c.brokerHost != "" then [KeyLine("BROKER_HOST", c.brokerHost)] else []
  }

  function PortLine(c: Creds): seq<string>
  {
    if c.brokerPort > 0 then [KeyLine("BROKER_PORT", Itoa(c.brokerPort))] else []
  }

  /** The lines SaveCredentials writes; host and port only when they are set. */
  function LinesOf(c: Creds): seq<string>
  {
    [KeyLine("DEVICE_ID", c.deviceID), KeyLine("SECRET", c.secret)] + HostLine(c) + PortLine(c)
  }

  function Terminated(lines: seq<string>): string
  {
    if lines == [] then "" else Terminated(lines[..|lines| - 1]) + lines[|lines| - 1] + "\n"
  }

  method SaveCredentials(deviceID: string, secret: string, brokerHost: string, brokerPort: int) returns (text: string)
    ensures text == Terminated(LinesOf(Creds(deviceID, secret, brokerHost, brokerPort)))
  {
    ghost var done := [];
    text := KeyLine("DEVICE_ID", deviceID) + "\n";
    done := [KeyLine("DEVICE_ID", deviceID)];
    assert Terminated(done[..0]) == "" && text == Terminated(done);
    text := text + KeyLine("SECRET", secret) + "\n";
    TerminatedSnoc(done, KeyLine("SECRET", secret));
    done := done + [KeyLine("SECRET", secret)];
    if brokerHost != "" {
      text := text + KeyLine("BROKER_HOST", brokerHost) + "\n";
      TerminatedSnoc(done, KeyLine("BROKER_HOST", brokerHost));
      done := done + [KeyLine("BROKER_HOST", brokerHost)];
    }
    if brokerPort > 0 {
      text := text + KeyLine("BROKER_PORT", Itoa(brokerPort)) + "\n";
      TerminatedSnoc(done, KeyLine("BROKER_PORT", Itoa(brokerPort)));
      done := done + [KeyLine("BROKER_PORT", Itoa(brokerPort))];
    }
    assert done == LinesOf(Creds(deviceID, secret, brokerHost, brokerPort));
  }

  /** The file, byte for byte. */
  lemma SavedText(c: Creds)
    ensures Terminated(LinesOf(c))
            == ("DEVICE_ID=" + c.deviceID + "\n") + ("SECRET=" + c.secret + "\n")
               + (if c.brokerHost == "" then "" else "BROKER_HOST=" + c.brokerHost + "\n")
               + (if c.brokerPort <= 0 then "" else "BROKER_PORT=" + Itoa(c.brokerPort) + "\n")
  {
    var first, second := KeyLine("DEVICE_ID", c.deviceID), KeyLine("SECRET", c.secret);
    TwoLines(first, second);
    OptionalLine([first, second], HostLine(c));
    OptionalLine([first, second] + HostLine(c), PortLine(c));
  }

  lemma TwoLines(a: string, b: string)
    ensures Terminated([a, b]) == (a + "\n") + (b + "\n")
  {
    TerminatedSnoc([], a);
    TerminatedSnoc([a], b);
    assert [] + [a] == [a] && [a] + [b] == [a, b];
    assert "" + a == a;
    assert Terminated([a]) + b + "\n" == Terminated([a]) + (b + "\n");
  }

  lemma OptionalLine(lines: seq<string>, more: seq<string>)
    requires |more| <= 1
    ensures Terminated(lines + more) == Terminated(lines) + if more == [] then "" else more[0] + "\n"
  {
    if more == [] {
      assert lines + more == lines;
      assert Terminated(lines) + "" == Terminated(lines);
    } else {
      TerminatedSnoc(lines, more[0]);
      assert more == [more[0]];
      assert Terminated(lines) + more[0] + "\n" == Terminated(lines) + (more[0] + "\n");
    }
  }

  lemma TerminatedSnoc(lines: seq<string>, line: string)
    ensures Terminated(lines + [line]) == Terminated(lines) + line + "\n"
  {
    assert (lines + [line])[..|lines|] == lines;
  }

  // ---------------------------------------------------------------- reading

  /** bufio.Scanner gives up on a line of this many bytes. */
  const MAX_TOKEN: nat := 65536

  function WithoutCR(line: string): string
  {
    if line != "" && line[|line| - 1] == '\r' then line[..|line| - 1] else line
  }

  /** bufio.ScanLines: newline-separated, no empty line after a final newline. */
  function ScannedLines(data: string): seq<string>
  {
    var parts := Split(data, '\n');
    if parts[|parts| - 1] == "" then parts[..|parts| - 1] else parts
  }

  datatype Pair = Skip | Pair(key: string, value: string)

  /** One line of a key=value file, inline comments kept. */
  function ParseLine(raw: string): Pair
  {
    var line := TrimSpace(WithoutCR(raw));
    var eq := IndexOf(line, '=');
    if line == "" || line[0] == '#' || eq == |line| then Skip
    else Pair(TrimSpace(line[..eq]), TrimSpace(line[eq + 1..]))
  }

  /** The callback of LoadCredentials. */
  function Assigned(c: Creds, p: Pair): Creds
  {
    if p.Skip? then c
    else if p.key == "DEVICE_ID" then c.(deviceID := p.value)
    else if p.key == "SECRET" then c.(secret := p.value)
    else if p.key == "BROKER_HOST" then c.(brokerHost := p.value)
    else if p.key == "BROKER_PORT" && Atoi(p.value).Some? then c.(brokerPort := Atoi(p.value).value)
    else c
  }

  function Parsed(lines: seq<string>): (pairs: seq<Pair>)
    ensures |pairs| == |lines|
  {
    seq(|lines|, i requires 0 <= i < |lines| => ParseLine(lines[i]))
  }

  function AssignAll(pairs: seq<Pair>): Creds
  {
    if pairs == [] then EMPTY else Assigned(AssignAll(pairs[..|pairs| - 1]), pairs[|pairs| - 1])
  }

  function Loaded(lines: seq<string>): Creds
  {
    AssignAll(Parsed(lines))
  }

  predicate Overflows(line: string)
  {
    ByteLength(line) >= MAX_TOKEN
  }

  predicate TooLong(lines: seq<string>)
  {
    exists i {:trigger Overflows(lines[i])} :: 0 <= i < |lines| && Overflows(lines[i])
  }

  /** A line that overflows the scanner makes the whole load fail. */
  function LoadLines(lines: seq<string>): Result<Creds>
  {
    if TooLong(lines) then Err else Ok(Loaded(lines))
  }

  function Load(data: string): Result<Creds>
  {
    LoadLines(ScannedLines(data))
  }

  method ReadLine(raw: string) returns (p: Pair)
    ensures p == ParseLine(raw)
  {
    var line := TrimSpace(WithoutCR(raw));
    if line == "" || line[0] == '#' {
      return Skip;
    }
    var eq := IndexOf(line, '=');
    if eq == |line| {
      return Skip;
    }
    return Pair(TrimSpace(line[..eq]), TrimSpace(line[eq + 1..]));
  }

  /** The switch over the key. */
  method AssignPair(creds: Creds, key: string, value: string) returns (r: Creds)
    ensures r == Assigned(creds, Pair(key, value))
  {
    r := creds;
    if key == "DEVICE_ID" {
      r := creds.(deviceID := value);
    } else if key == "SECRET" {
      r := creds.(secret := value);
    } else if key == "BROKER_HOST" {
      r := creds.(brokerHost := value);
    } else if key == "BROKER_PORT" {
      var port := Atoi(value);
      if port.Some? {
        r := creds.(brokerPort := port.value);
      }
    }
  }

  method LoadCredentials(data: string) returns (r: Result<Creds>)
    ensures r == Load(data)
  {
    r := ScanAll(ScannedLines(data));
  }

  method ScanAll(lines: seq<string>) returns (r: Result<Creds>)
    ensures r == LoadLines(lines)
  {
    var creds := EMPTY;
    assert lines[..0] == [];
    for i := 0 to |lines|
      invariant creds == Loaded(lines[..i])
      invariant forall k {:trigger Overflows(lines[k])} :: 0 <= k < i ==> !Overflows(lines[k])
    {
      if Overflows(lines[i]) {
        OneTooLong(lines, i);
        return Err;
      }
      creds := AcceptLine(creds, lines, i);
    }
    assert lines[..|lines|] == lines;
    NoneTooLong(lines);
    return Ok(creds);
  }

  lemma OneTooLong(lines: seq<string>, i: nat)
    requires i < |lines| && Overflows(lines[i])
    ensures LoadLines(lines) == Err
  {
  }

  lemma NoneTooLong(lines: seq<string>)
    requires forall k {:trigger Overflows(lines[k])} :: 0 <= k < |lines| ==> !Overflows(lines[k])
    ensures LoadLines(lines) == Ok(Loaded(lines))
  {
  }

  method AcceptLine(creds: Creds, lines: seq<string>, i: nat) returns (r: Creds)
    requires i < |lines| && creds == Loaded(lines[..i])
    ensures r == Loaded(lines[..i + 1])
  {
    LoadedSnoc(lines, i);
    var pair := ReadLine(lines[i]);
    if pair.Skip? {
      return creds;
    }
    r := AssignPair(creds, pair.key, pair.value);
  }

  lemma LoadedSnoc(lines: seq<string>, i: nat)
    requires i < |lines|
    ensures Loaded(lines[..i + 1]) == Assigned(Loaded(lines[..i]), ParseLine(lines[i]))
  {
    ParsedPrefix(lines, i);
    AssignSnoc(Parsed(lines[..i]), ParseLine(lines[i]));
  }

  lemma ParsedPrefix(lines: seq<string>, i: nat)
    requires i < |lines|
    ensures Parsed(lines[..i + 1]) == Parsed(lines[..i]) + [ParseLine(lines[i])]
  {
  }

  // ---------------------------------------------------------------- round trip

  predicate Clean(s: string)
  {
    Free(s, '\n') && IsTrimmed(s)
  }

  predicate CleanFields(c: Creds)
  {
    Clean(c.deviceID) && Clean(c.secret) && Clean(c.brokerHost)
  }

  ghost predicate Fits(c: Creds)
  {
    forall line :: line in LinesOf(c) ==> ByteLength(line) < 65536
  }

  lemma FitsIsNotTooLong(c: Creds)
    ensures Fits(c) <==> !TooLong(LinesOf(c))
  {
    if TooLong(LinesOf(c)) {
      var i :| 0 <= i < |LinesOf(c)| && Overflows(LinesOf(c)[i]);
      assert LinesOf(c)[i] in LinesOf(c);
    }
    if !Fits(c) {
      var line :| line in LinesOf(c) && ByteLength(line) >= 65536;
      assert Overflows(line);
    }
  }

  lemma {:induction false} TerminatedIsJoin(lines: seq<string>)
    ensures Terminated(lines) == Join(lines + [""], '\n')
  {
    if lines != [] {
      var front, last := lines[..|lines| - 1], lines[|lines| - 1];
      TerminatedIsJoin(front);
      assert lines + [""] == front + [last] + [""];
      JoinSnoc(front, last);
    }
  }

  lemma {:induction false} JoinSnoc(front: seq<string>, last: string)
    ensures Join(front + [last] + [""], '\n') == Join(front + [""], '\n') + last + "\n"
  {
    if front == [] {
      assert front + [last] + [""] == [last] + [""];
      JoinCons(last, [""], '\n');
    } else {
      JoinSnoc(front[1..], last);
      assert front + [last] + [""] == [front[0]] + (front[1..] + [last] + [""]);
      assert front + [""] == [front[0]] + (front[1..] + [""]);
      JoinCons(front[0], front[1..] + [last] + [""], '\n');
      JoinCons(front[0], front[1..] + [""], '\n');
    }
  }

  lemma ScanTerminated(lines: seq<string>)
    requires AllFree(lines)
    ensures ScannedLines(Terminated(lines)) == lines
  {
    TerminatedIsJoin(lines);
    SplitJoin(lines + [""], '\n');
  }

  predicate IsKey(key: string)
  {
    key != "" && IsTrimmed(key) && key[0] != '#' && Free(key, '=') && Free(key, '\n')
  }

  /** A written line reads back as its key and value, whatever else the value contains. */
  lemma LineReadsBack(key: string, value: string)
    requires IsKey(key) && IsTrimmed(value)
    ensures ParseLine(KeyLine(key, value)) == Pair(key, value)
  {
    var line := KeyLine(key, value);
    assert !IsSpace('=');
    assert line[|line| - 1] == if value == "" then '=' else value[|value| - 1];
    assert line[0] == key[0];
    assert line[..|key|] == key && line[|key| + 1..] == value;
    IndexOfFirst(line, |key|, '=');
  }

  lemma ItoaIsTrimmed(n: nat)
    ensures Clean(Itoa(n))
  {
    var s := PrintNat(n);
    assert IsDigit(s[0]) && IsDigit(s[|s| - 1]);
  }

  lemma KeysAreKeys()
    ensures IsKey("DEVICE_ID") && IsKey("SECRET") && IsKey("BROKER_HOST") && IsKey("BROKER_PORT")
  {
  }

  lemma AssignEach(c: Creds, value: string)
    ensures Assigned(c, Pair("DEVICE_ID", value)) == c.(deviceID := value)
    ensures Assigned(c, Pair("SECRET", value)) == c.(secret := value)
    ensures Assigned(c, Pair("BROKER_HOST", value)) == c.(brokerHost := value)
    ensures Atoi(value).Some? ==> Assigned(c, Pair("BROKER_PORT", value)) == c.(brokerPort := Atoi(value).value)
  {
    assert |"DEVICE_ID"| == 9 && |"SECRET"| == 6 && |"BROKER_HOST"| == |"BROKER_PORT"| == 11;
    assert "BROKER_PORT"[7] == 'P' && "BROKER_HOST"[7] == 'H';
  }

  function HostPair(c: Creds): seq<Pair>
  {
    if c.brokerHost != "" then [Pair("BROKER_HOST", c.brokerHost)] else []
  }

  function PortPair(c: Creds): seq<Pair>
  {
    if c.brokerPort > 0 then [Pair("BROKER_PORT", Itoa(c.brokerPort))] else []
  }

  /** The assignments the written lines are meant to make. */
  function PairsOf(c: Creds): seq<Pair>
  {
    [Pair("DEVICE_ID", c.deviceID), Pair("SECRET", c.secret)] + HostPair(c) + PortPair(c)
  }

  lemma OneLineParses(key: string, value: string)
    requires IsKey(key) && IsTrimmed(value)
    ensures Parsed([KeyLine(key, value)]) == [Pair(key, value)]
  {
    LineReadsBack(key, value);
  }

  lemma ParsedConcat(a: seq<string>, b: seq<string>)
    ensures Parsed(a + b) == Parsed(a) + Parsed(b)
  {
  }

  /** Up to four lines, whatever their keys. */
  lemma LinesParse(device: string, secret: string, host: seq<string>, port: seq<string>,
                   pairs: seq<Pair>, hostPairs: seq<Pair>, portPairs: seq<Pair>)
    requires Parsed([device]) + Parsed([secret]) == pairs && Parsed(host) == hostPairs && Parsed(port) == portPairs
    ensures Parsed([device, secret] + host + port) == pairs + hostPairs + portPairs
  {
    assert [device, secret] == [device] + [secret];
    ParsedConcat([device], [secret]);
    ParsedConcat([device, secret], host);
    ParsedConcat([device, secret] + host, port);
  }

  lemma HostLineParses(c: Creds)
    requires CleanFields(c)
    ensures Parsed(HostLine(c)) == HostPair(c)
  {
    KeysAreKeys();
    OneLineParses("BROKER_HOST", c.brokerHost);
  }

  lemma PortLineParses(c: Creds)
    ensures Parsed(PortLine(c)) == PortPair(c)
  {
    if c.brokerPort > 0 {
      KeysAreKeys();
      ItoaIsTrimmed(c.brokerPort);
      OneLineParses("BROKER_PORT", Itoa(c.brokerPort));
    }
  }

  lemma TwoLinesParse(k0: string, v0: string, k1: string, v1: string)
    requires IsKey(k0) && IsKey(k1) && IsTrimmed(v0) && IsTrimmed(v1)
    ensures Parsed([KeyLine(k0, v0)]) + Parsed([KeyLine(k1, v1)]) == [Pair(k0, v0), Pair(k1, v1)]
  {
    OneLineParses(k0, v0);
    OneLineParses(k1, v1);
  }

  lemma WrittenLinesParse(c: Creds)
    requires CleanFields(c)
    ensures Parsed(LinesOf(c)) == PairsOf(c)
  {
    KeysAreKeys();
    TwoLinesParse("DEVICE_ID", c.deviceID, "SECRET", c.secret);
    HostLineParses(c);
    PortLineParses(c);
    LinesParse(KeyLine("DEVICE_ID", c.deviceID), KeyLine("SECRET", c.secret), HostLine(c), PortLine(c),
               [Pair("DEVICE_ID", c.deviceID), Pair("SECRET", c.secret)], HostPair(c), PortPair(c));
  }

  lemma AssignSnoc(pairs: seq<Pair>, p: Pair)
    ensures AssignAll(pairs + [p]) == Assigned(AssignAll(pairs), p)
  {
    assert (pairs + [p])[..|pairs|] == pairs;
  }

  lemma PairsAssign(c: Creds)
    ensures AssignAll(PairsOf(c)) == c.(brokerPort := if c.brokerPort > 0 then c.brokerPort else 0)
  {
    var device, secret := Pair("DEVICE_ID", c.deviceID), Pair("SECRET", c.secret);
    AssignSnoc([], device);
    AssignSnoc([device], secret);
    assert [] + [device] == [device] && [device] + [secret] == [device, secret];
    AssignEach(EMPTY, c.deviceID);
    AssignEach(EMPTY.(deviceID := c.deviceID), c.secret);
    var host := if c.brokerHost != "" then [Pair("BROKER_HOST", c.brokerHost)] else [];
    AssignSnoc([device, secret], Pair("BROKER_HOST", c.brokerHost));
    AssignEach(AssignAll([device, secret]), c.brokerHost);
    assert AssignAll([device, secret] + host) == c.(brokerPort := 0);
    if c.brokerPort > 0 {
      AtoiItoa(c.brokerPort);
      AssignSnoc([device, secret] + host, Pair("BROKER_PORT", Itoa(c.brokerPort)));
      AssignEach(c.(brokerPort := 0), Itoa(c.brokerPort));
      assert PairsOf(c) == [device, secret] + host + [Pair("BROKER_PORT", Itoa(c.brokerPort))];
    } else {
      assert PairsOf(c) == [device, secret] + host;
    }
  }

  lemma WrittenLinesLoad(c: Creds)
    requires CleanFields(c)
    ensures Loaded(LinesOf(c)) == c.(brokerPort := if c.brokerPort > 0 then c.brokerPort else 0)
  {
    WrittenLinesParse(c);
    PairsAssign(c);
  }

  predicate AllFree(lines: seq<string>)
  {
    forall i :: 0 <= i < |lines| ==> Free(lines[i], '\n')
  }

  lemma KeyLineIsFree(key: string, value: string)
    requires IsKey(key) && Free(value, '\n')
    ensures AllFree([KeyLine(key, value)])
  {
  }

  lemma WrittenLinesAreFree(c: Creds)
    requires CleanFields(c)
    ensures AllFree(LinesOf(c))
  {
    KeysAreKeys();
    KeyLineIsFree("DEVICE_ID", c.deviceID);
    KeyLineIsFree("SECRET", c.secret);
    assert AllFree(HostLine(c)) by {
      KeyLineIsFree("BROKER_HOST", c.brokerHost);
    }
    assert AllFree(PortLine(c)) by {
      ItoaIsTrimmed(if c.brokerPort > 0 then c.brokerPort else 0);
      KeyLineIsFree("BROKER_PORT", Itoa(if c.brokerPort > 0 then c.brokerPort else 0));
    }
    AllFreeConcat(KeyLine("DEVICE_ID", c.deviceID), KeyLine("SECRET", c.secret), HostLine(c), PortLine(c));
  }

  lemma AllFreeConcat(device: string, secret: string, host: seq<string>, port: seq<string>)
    requires AllFree([device]) && AllFree([secret]) && AllFree(host) && AllFree(port)
    ensures AllFree([device, secret] + host + port)
  {
    assert Free([device][0], '\n') && Free([secret][0], '\n');
  }

  /** Whatever the file holds, a parsed value is trimmed and contains no newline. */
  lemma ParsedIsClean(raw: string)
    requires Free(raw, '\n')
    ensures ParseLine(raw).Pair? ==> Clean(ParseLine(raw).value)
  {
    TrimKeepsFree(WithoutCR(raw), '\n');
    var line := TrimSpace(WithoutCR(raw));
    var eq := IndexOf(line, '=');
    if eq < |line| {
      TrimKeepsFree(line[eq + 1..], '\n');
    }
  }

  lemma {:induction false} AssignedIsClean(pairs: seq<Pair>)
    requires forall i :: 0 <= i < |pairs| && pairs[i].Pair? ==> Clean(pairs[i].value)
    ensures CleanFields(AssignAll(pairs))
  {
    if pairs != [] {
      AssignedIsClean(pairs[..|pairs| - 1]);
    }
  }

  lemma LoadedIsClean(lines: seq<string>)
    requires AllFree(lines)
    ensures CleanFields(Loaded(lines))
  {
    forall i | 0 <= i < |lines| && Parsed(lines)[i].Pair? ensures Clean(Parsed(lines)[i].value) {
      ParsedIsClean(lines[i]);
    }
    AssignedIsClean(Parsed(lines));
  }

  /**
   Loading what was saved gives the same credentials exactly when every field is trimmed and free of
   newlines, the port is not negative and every line fits the scanner; '=', '#' and blanks inside a value do no harm.
   */
  lemma CredentialsRoundTrip(c: Creds)
    ensures Load(Terminated(LinesOf(c))) == Ok(c) <==>
            && CleanFields(c) && c.brokerPort >= 0
            && forall line :: line in LinesOf(c) ==> ByteLength(line) < 65536
  {
    if CleanFields(c) {
      CleanRoundTrip(c, LinesOf(c));
    } else {
      LoadIsClean(Terminated(LinesOf(c)));
    }
  }

  lemma CleanRoundTrip(c: Creds, lines: seq<string>)
    requires CleanFields(c) && lines == LinesOf(c)
    ensures Load(Terminated(lines)) == if Fits(c) then Ok(c.(brokerPort := if c.brokerPort > 0 then c.brokerPort else 0)) else Err
  {
    FitsIsNotTooLong(c);
    WrittenLinesLoad(c);
    WrittenLinesAreFree(c);
    ScanTerminated(lines);
  }

  lemma LoadIsClean(data: string)
    ensures Load(data).Ok? ==> CleanFields(Load(data).value)
  {
    SplitPartsAreFree(data, '\n');
    LoadedIsClean(ScannedLines(data));
  }
}
