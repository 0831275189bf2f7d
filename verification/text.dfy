/** The parts of Go's strings and strconv packages that the text formats rest on, with their laws. */
module Text {
  import opened Wrappers

  // ---------------------------------------------------------------- splitting and joining

  predicate Free(s: string, sep: char)
  {
    forall i :: 0 <= i < |s| ==> s[i] != sep
  }

  /** strings.IndexByte */
  function IndexOf(s: string, sep: char): (i: nat)
    ensures i <= |s| && (i < |s| ==> s[i] == sep)
    ensures forall k :: 0 <= k < i ==> s[k] != sep
  {
    if s == "" || s[0] == sep then 0
    else
      var i := IndexOf(s[1..], sep);
      assert forall k :: 0 < k <= i && k < |s| ==> s[k] == s[1..][k - 1];
      1 + i
  }

  lemma IndexOfFirst(s: string, i: nat, sep: char)
    requires i < |s| && s[i] == sep && Free(s[..i], sep)
    ensures IndexOf(s, sep) == i
  {
    var k := IndexOf(s, sep);
    assert forall j :: 0 <= j < i ==> s[..i][j] == s[j];
    assert forall j :: 0 <= j < k ==> s[..k][j] == s[j];
  }

  lemma {:induction false} IndexOfAtMost(s: string, k: nat, sep: char)
    requires k < |s| && s[k] == sep
    ensures IndexOf(s, sep) <= k
  {
    if s[0] != sep {
      IndexOfAtMost(s[1..], k - 1, sep);
    }
  }

  lemma IndexOfNone(s: string, sep: char)
    requires Free(s, sep)
    ensures IndexOf(s, sep) == |s|
  {
  }

  /** strings.SplitN for n > 0 */
  function SplitN(s: string, sep: char, n: nat): (parts: seq<string>)
    requires n > 0
    ensures 0 < |parts| <= n
    decreases n
  {
    var i := IndexOf(s, sep);
    if n == 1 || i == |s| then [s] else [s[..i]] + SplitN(s[i + 1..], sep, n - 1)
  }

  lemma SplitNOne(s: string, sep: char)
    ensures SplitN(s, sep, 1) == [s]
  {
  }

  lemma SplitNCut(s: string, sep: char, n: nat)
    requires n > 1
    ensures var i := IndexOf(s, sep);
            SplitN(s, sep, n) == if i == |s| then [s] else [s[..i]] + SplitN(s[i + 1..], sep, n - 1)
  {
  }

  lemma SplitNTwo(s: string, sep: char, n: nat)
    requires n == 2
    ensures var i := IndexOf(s, sep);
            SplitN(s, sep, n) == if i == |s| then [s] else [s[..i]] + [s[i + 1..]]
  {
    SplitNCut(s, sep, n);
    var i := IndexOf(s, sep);
    if i < |s| {
      SplitNOne(s[i + 1..], sep);
    }
  }

  /** strings.Split */
  function Split(s: string, sep: char): (parts: seq<string>)
    ensures parts != []
    decreases |s|
  {
    var i := IndexOf(s, sep);
    if i == |s| then [s] else [s[..i]] + Split(s[i + 1..], sep)
  }

  /** strings.Join */
  function Join(parts: seq<string>, sep: char): string
  {
    if parts == [] then ""
    else if |parts| == 1 then parts[0]
    else parts[0] + [sep] + Join(parts[1..], sep)
  }

  lemma JoinCons(head: string, rest: seq<string>, sep: char)
    requires rest != []
    ensures Join([head] + rest, sep) == head + [sep] + Join(rest, sep)
  {
    assert ([head] + rest)[1..] == rest;
  }

  lemma {:induction false} JoinSplitN(s: string, sep: char, n: nat)
    requires n > 0
    ensures Join(SplitN(s, sep, n), sep) == s
    decreases n
  {
    var i := IndexOf(s, sep);
    if n > 1 && i < |s| {
      JoinSplitN(s[i + 1..], sep, n - 1);
      JoinCons(s[..i], SplitN(s[i + 1..], sep, n - 1), sep);
      assert s == s[..i] + [sep] + s[i + 1..];
    }
  }

  lemma {:induction false} JoinSplit(s: string, sep: char)
    ensures Join(Split(s, sep), sep) == s
    decreases |s|
  {
    var i := IndexOf(s, sep);
    if i < |s| {
      JoinSplit(s[i + 1..], sep);
      JoinCons(s[..i], Split(s[i + 1..], sep), sep);
      assert s == s[..i] + [sep] + s[i + 1..];
    }
  }

  lemma SplitFree(s: string, sep: char)
    requires Free(s, sep)
    ensures Split(s, sep) == [s]
  {
  }

  /** A separator after a separator-free head splits the head off. */
  lemma SplitHead(head: string, sep: char, rest: string)
    requires Free(head, sep)
    ensures Split(head + [sep] + rest, sep) == [head] + Split(rest, sep)
  {
    var s := head + [sep] + rest;
    assert s[..|head|] == head && s[|head| + 1..] == rest;
    IndexOfFirst(s, |head|, sep);
  }

  lemma SplitNHead(head: string, sep: char, rest: string, n: nat)
    requires Free(head, sep) && n > 1
    ensures SplitN(head + [sep] + rest, sep, n) == [head] + SplitN(rest, sep, n - 1)
  {
    var s := head + [sep] + rest;
    assert s[..|head|] == head && s[|head| + 1..] == rest;
    IndexOfFirst(s, |head|, sep);
  }

  lemma {:induction false} SplitJoin(parts: seq<string>, sep: char)
    requires parts != [] && forall i :: 0 <= i < |parts| ==> Free(parts[i], sep)
    ensures Split(Join(parts, sep), sep) == parts
  {
    if |parts| == 1 {
      SplitFree(parts[0], sep);
    } else {
      SplitJoin(parts[1..], sep);
      SplitHead(parts[0], sep, Join(parts[1..], sep));
      assert parts == [parts[0]] + parts[1..];
    }
  }

  lemma {:induction false} SplitPartsAreFree(s: string, sep: char)
    ensures forall i :: 0 <= i < |Split(s, sep)| ==> Free(Split(s, sep)[i], sep)
    decreases |s|
  {
    var i := IndexOf(s, sep);
    if i < |s| {
      SplitPartsAreFree(s[i + 1..], sep);
    } else {
      assert s[..i] == s;
    }
  }

  // ---------------------------------------------------------------- decimal numbers

  predicate IsDigit(c: char)
  {
    '0' <= c <= '9'
  }

  function DigitOf(c: char): nat
    requires IsDigit(c)
  {
    (c - '0') as nat
  }

  function DigitChar(d: nat): (c: char)
    requires d < 10
    ensures IsDigit(c) && DigitOf(c) == d
  {
    '0' + d as char
  }

  /** Non-negative decimal printing. */
  function PrintNat(n: nat): (s: string)
    ensures s != "" && forall i :: 0 <= i < |s| ==> IsDigit(s[i])
    decreases n
  {
    if n < 10 then [DigitChar(n)] else PrintNat(n / 10) + [DigitChar(n % 10)]
  }

  function ReadNat(s: string): nat
    requires forall i :: 0 <= i < |s| ==> IsDigit(s[i])
  {
    if s == "" then 0 else 10 * ReadNat(s[..|s| - 1]) + DigitOf(s[|s| - 1])
  }

  lemma {:induction false} ReadPrintNat(n: nat)
    ensures ReadNat(PrintNat(n)) == n
    decreases n
  {
    if n < 10 {
      var c := DigitChar(n);
      assert [c][..0] == "";
      assert ReadNat([c]) == 10 * ReadNat([c][..0]) + DigitOf(c);
    } else {
      ReadPrintNat(n / 10);
      var s := PrintNat(n / 10) + [DigitChar(n % 10)];
      assert s[..|s| - 1] == PrintNat(n / 10);
    }
  }

  /** strconv.Itoa */
  function Itoa(n: int): string
  {
    if n < 0 then "-" + PrintNat(-n) else PrintNat(n)
  }

  predicate AllDigits(s: string)
  {
    s != "" && forall i :: 0 <= i < |s| ==> IsDigit(s[i])
  }

  /** strconv.Atoi on unbounded integers. */
  function Atoi(s: string): Option<int>
  {
    if AllDigits(s) then Some(ReadNat(s))
    else if s != "" && s[0] == '-' && AllDigits(s[1..]) then var n: int := ReadNat(s[1..]); Some(-n)
    else if s != "" && s[0] == '+' && AllDigits(s[1..]) then Some(ReadNat(s[1..]))
    else None
  }

  lemma AllDigitsAre(s: string)
    ensures AllDigits(s) <==> Digits(s)
  {
  }

  /** Digits with or without one sign are a number, and nothing else is. */
  lemma AtoiReads(s: string)
    ensures Atoi(s).Some? <==> Digits(s) || (s != "" && (s[0] == '-' || s[0] == '+') && Digits(s[1..]))
  {
    AllDigitsAre(s);
    if s != "" {
      AllDigitsAre(s[1..]);
    }
  }

  /** A sign counts. */
  lemma AtoiReadsSigns(s: string)
    requires Digits(s)
    ensures var n: int := ReadNat(s); Atoi(s) == Some(n) && Atoi("+" + s) == Some(n) && Atoi("-" + s) == Some(-n)
  {
    AllDigitsAre(s);
    Signed('+', s);
    Signed('-', s);
  }

  lemma Signed(sign: char, s: string)
    requires AllDigits(s) && (sign == '+' || sign == '-')
    ensures var n: int := ReadNat(s); Atoi([sign] + s) == Some(if sign == '+' then n else -n)
  {
    assert ([sign] + s)[1..] == s;
  }

  predicate Digits(s: string)
  {
    s != "" && forall i :: 0 <= i < |s| ==> '0' <= s[i] <= '9'
  }

  /** Digits read as decimals. */
  lemma ReadNatIsDecimal(s: string, d: nat)
    requires Digits(s) && d < 10
    ensures ReadNat(s + [('0' as int + d) as char]) == 10 * ReadNat(s) + d
    ensures ReadNat([('0' as int + d) as char]) == d
  {
    var c := ('0' as int + d) as char;
    assert (s + [c])[..|s|] == s;
  }

  lemma AtoiItoa(n: int)
    ensures Atoi(Itoa(n)) == Some(n)
  {
    ReadPrintNat(if n < 0 then -n else n);
    if n < 0 {
      assert Itoa(n)[0] == '-' && Itoa(n)[1..] == PrintNat(-n);
    }
  }

  // ---------------------------------------------------------------- bytes

  /** The length of a character in UTF-8 (section 3 of RFC 3629). */
  function CharBytes(c: char): nat
  {
    if c < '\U{80}' then 1 else if c < '\U{800}' then 2 else if c < '\U{10000}' then 3 else 4
  }

  function ByteLength(s: string): nat
  {
    if s == "" then 0 else ByteLength(s[..|s| - 1]) + CharBytes(s[|s| - 1])
  }

  /** Bytes add up, one for ASCII and one more at 0x80, 0x800 and 0x10000. */
  lemma {:induction false} ByteLengthAdds(a: string, b: string)
    ensures ByteLength(a + b) == ByteLength(a) + ByteLength(b)
    ensures forall c: char :: ByteLength([c]) == 1 + (if c as int >= 0x80 then 1 else 0)
                                                + (if c as int >= 0x800 then 1 else 0) + (if c as int >= 0x10000 then 1 else 0)
  {
    assert forall c: char :: [c][..0] == "";
    if b == "" {
      assert a + b == a;
    } else {
      assert (a + b)[..|a + b| - 1] == a + b[..|b| - 1];
      ByteLengthAdds(a, b[..|b| - 1]);
    }
  }

  // ---------------------------------------------------------------- trimming

  /** unicode.IsSpace */
  predicate IsSpace(c: char)
  {
    c == ' ' || '\t' <= c <= '\r' || c == '\U{85}' || c == '\U{A0}' || c == '\U{1680}' || c == '\U{2028}'
    || c == '\U{2029}' || c == '\U{202F}' || c == '\U{205F}' || c == '\U{3000}'
    || '\U{2000}' <= c <= '\U{200A}'
  }

  /** The white space of Unicode, by code point. */
  lemma SpaceIs(c: char)
    ensures IsSpace(c) <==>
            c as int in {0x09, 0x0A, 0x0B, 0x0C, 0x0D, 0x20, 0x85, 0xA0, 0x1680, 0x2000, 0x2001, 0x2002, 0x2003, 0x2004, 0x2005,
                         0x2006, 0x2007, 0x2008, 0x2009, 0x200A, 0x2028, 0x2029, 0x202F, 0x205F, 0x3000}
  {
  }

  predicate IsTrimmed(s: string)
  {
    s == "" || (!IsSpace(s[0]) && !IsSpace(s[|s| - 1]))
  }

  /** strings.TrimSpace */
  function TrimSpace(s: string): (r: string)
    ensures IsTrimmed(r)
    ensures IsTrimmed(s) ==> r == s
    decreases |s|
  {
    if s == "" then ""
    else if IsSpace(s[0]) then TrimSpace(s[1..])
    else if IsSpace(s[|s| - 1]) then TrimSpace(s[..|s| - 1])
    else s
  }

  lemma {:induction false} TrimKeepsFree(s: string, c: char)
    requires Free(s, c)
    ensures Free(TrimSpace(s), c)
    decreases |s|
  {
    if s != "" {
      if IsSpace(s[0]) {
        TrimKeepsFree(s[1..], c);
      } else if IsSpace(s[|s| - 1]) {
        TrimKeepsFree(s[..|s| - 1], c);
      }
    }
  }
}
