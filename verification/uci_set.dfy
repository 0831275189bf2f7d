/**
 The uci_set command (internal/agent/uci_set.go): addresses, positional sections, set/get and the
 list edits, as functions on a package, and the methods that run them against the device store.
 */
module UciSet {
  import opened Wrappers
  import opened Text
  import opened Uci
  import opened Runner
  import opened Staging
  import opened StagingLaws

  // ---------------------------------------------------------------- addresses

  datatype Address = Address(config: string, section: string, option: string)

  /** The address made of the parts found at the first two dots, when there are parts enough. */
  function AddressOf(parts: seq<string>): Result<Address>
  {
    if |parts| < 2 || parts[0] == "" || parts[1] == "" then Err
    else Ok(Address(parts[0], parts[1], if |parts| == 3 then parts[2] else ""))
  }

  function ParseAddress(s: string): Result<Address>
  {
    AddressOf(SplitN(s, '.', 3))
  }

  /** The address as the uci command line writes it. */
  function Print(a: Address): string
  {
    a.config + ['.'] + (if a.option == "" then a.section else a.section + ['.'] + a.option)
  }

  predicate Addressable(a: Address)
  {
    a.config != "" && a.section != "" && Free(a.config, '.') && Free(a.section, '.')
  }

  lemma PrintedParts(a: Address, n: nat)
    requires Addressable(a) && n == 3
    ensures SplitN(Print(a), '.', n) == if a.option == "" then [a.config, a.section] else [a.config, a.section, a.option]
  {
    if a.option == "" {
      SplitNHead(a.config, '.', a.section, n);
      IndexOfNone(a.section, '.');
      SplitNTwo(a.section, '.', n - 1);
    } else {
      SplitNHead(a.config, '.', a.section + ['.'] + a.option, n);
      SplitNHead(a.section, '.', a.option, n - 1);
      SplitNOne(a.option, '.');
    }
  }

  lemma ParsePrinted(a: Address)
    requires Addressable(a)
    ensures ParseAddress(Print(a)) == Ok(a)
  {
    PrintedParts(a, 3);
  }

  /** Cutting a string at a separator and putting it together again. */
  lemma CutAt(s: string, sep: char)
    requires IndexOf(s, sep) < |s|
    ensures s == s[..IndexOf(s, sep)] + [sep] + s[IndexOf(s, sep) + 1..]
  {
  }

  lemma PartsOf(s: string, n: nat, i: nat, rest: string, j: nat)
    requires n == 3 && i == IndexOf(s, '.') < |s| && rest == s[i + 1..] && j == IndexOf(rest, '.')
    ensures SplitN(s, '.', n) == [s[..i]] + if j == |rest| then [rest] else [rest[..j]] + [rest[j + 1..]]
  {
    SplitNCut(s, '.', n);
    SplitNTwo(rest, '.', n - 1);
  }

  /** Head and rest at the first dot, section and option at the second. */
  lemma ParsedShape(s: string, i: nat, rest: string, j: nat)
    requires ParseAddress(s).Ok? && i == IndexOf(s, '.') && rest == (if i < |s| then s[i + 1..] else "") && j == IndexOf(rest, '.')
    ensures i < |s| && ParseAddress(s).value == Address(s[..i], rest[..j], if j < |rest| then rest[j + 1..] else "")
  {
    SplitNCut(s, '.', 3);
    if i < |s| {
      PartsOf(s, 3, i, rest, j);
    }
    assert j == |rest| ==> rest[..j] == rest;
  }

  lemma CutParts(s: string, i: nat, rest: string, j: nat)
    requires i == IndexOf(s, '.') < |s| && rest == s[i + 1..] && j == IndexOf(rest, '.')
    ensures Free(s[..i], '.') && Free(rest[..j], '.') && s == s[..i] + ['.'] + rest
    ensures if j < |rest| then rest == rest[..j] + ['.'] + rest[j + 1..] else rest == rest[..j]
  {
    CutAt(s, '.');
    if j < |rest| {
      CutAt(rest, '.');
    }
  }

  /** What an address was parsed from: its parts, with a second dot if there is an option, and maybe if there is none. */
  lemma ParsedParts(s: string, a: Address) returns (rest: string)
    requires ParseAddress(s) == Ok(a)
    ensures Addressable(a) && s == a.config + ['.'] + rest
    ensures rest == a.section + ['.'] + a.option || (a.option == "" && rest == a.section)
  {
    var i := IndexOf(s, '.');
    rest := if i < |s| then s[i + 1..] else "";
    var j := IndexOf(rest, '.');
    ParsedShape(s, i, rest, j);
    CutParts(s, i, rest, j);
  }

  /** What was parsed is addressable, and prints back as the input, up to a dot that introduces no option. */
  lemma ParsedPrints(s: string)
    requires ParseAddress(s).Ok?
    ensures var a := ParseAddress(s).value;
            Addressable(a) && (s == Print(a) || (a.option == "" && s == Print(a) + "."))
  {
    var a := ParseAddress(s).value;
    var rest := ParsedParts(s, a);
    if rest == a.section + ['.'] + a.option {
      PrintsBack(s, a.config, rest, a.section, a.option);
    }
  }

  lemma PrintsBack(s: string, config: string, rest: string, section: string, option: string)
    requires s == config + ['.'] + rest && rest == section + ['.'] + option
    ensures s == Print(Address(config, section, option)) || (option == "" && s == Print(Address(config, section, option)) + ".")
  {
    if option == "" {
      assert rest == section + ['.'];
    }
  }

  /** Printing then parsing is the identity exactly for non-empty, dot-free package and section names. */
  lemma AddressRoundTrip(a: Address)
    ensures ParseAddress(Print(a)) == Ok(a) <==> Addressable(a)
  {
    if Addressable(a) {
      ParsePrinted(a);
    } else if ParseAddress(Print(a)).Ok? {
      ParsedPrints(Print(a));
    }
  }

  /** "<address>=<value>", split at the first '='. */
  function SplitAddressValue(arg: string): Result<(Address, string)>
  {
    var eq := IndexOf(arg, '=');
    if eq == |arg| then Err
    else match ParseAddress(arg[..eq])
      case Err => Err
      case Ok(a) => Ok((a, arg[eq + 1..]))
  }

  /** An assignment reads back whatever its value contains, as long as its address has no '='. */
  lemma AssignmentRoundTrip(a: Address, value: string)
    ensures SplitAddressValue(Print(a) + "=" + value) == Ok((a, value)) <==> Addressable(a) && Free(Print(a), '=')
  {
    AddressRoundTrip(a);
    CutAtFirst(Print(a), value, '=');
  }

  /** Where a separator behind a head is found first: right there, unless the head has one itself. */
  lemma CutAtFirst(head: string, tail: string, sep: char)
    ensures var s := head + [sep] + tail;
            var i := IndexOf(s, sep);
            if Free(head, sep) then i < |s| && s[..i] == head && s[i + 1..] == tail else i < |head| && s[i + 1..] != tail
  {
    var s := head + [sep] + tail;
    if Free(head, sep) {
      assert s[..|head|] == head && s[|head| + 1..] == tail;
      IndexOfFirst(s, |head|, sep);
    } else {
      var k :| 0 <= k < |head| && head[k] == sep;
      IndexOfAtMost(s, k, sep);
      assert |s[IndexOf(s, sep) + 1..]| > |tail|;
    }
  }

  // ---------------------------------------------------------------- positional sections

  predicate TypeChar(c: char)
  {
    'a' <= c <= 'z' || 'A' <= c <= 'Z' || IsDigit(c) || c == '_' || c == '-'
  }

  predicate IsTypeName(s: string)
  {
    s != "" && forall i :: 0 <= i < |s| ==> TypeChar(s[i])
  }

  predicate IsIndexText(s: string)
  {
    AllDigits(s) || (s != "" && s[0] == '-' && AllDigits(s[1..]))
  }

  /** The positional pattern: '@', a type name, and an index in brackets. */
  predicate Matches(section: string, typ: string, num: string)
  {
    IsTypeName(typ) && IsIndexText(num) && section == "@" + typ + "[" + num + "]"
  }

  datatype Position = Position(typ: string, index: int)

  function Positional(section: string): Option<Position>
  {
    var open := IndexOf(section, '[');
    if section == "" || section[0] != '@' || section[|section| - 1] != ']' || open >= |section| - 1 then None
    else
      var typ, num := section[1..open], section[open + 1..|section| - 1];
      if IsTypeName(typ) && IsIndexText(num) then Some(Position(typ, Atoi(num).value)) else None
  }

  /** The two submatches are unique, and Positional finds them exactly when the pattern matches. */
  lemma PositionalIsThePattern(section: string)
    ensures Positional(section).Some? <==> exists typ, num :: Matches(section, typ, num)
    ensures forall typ, num :: Matches(section, typ, num) ==> Positional(section) == Some(Position(typ, Atoi(num).value))
  {
    forall typ, num | Matches(section, typ, num)
      ensures Positional(section) == Some(Position(typ, Atoi(num).value))
    {
      var open := |typ| + 1;
      assert section[..open] == "@" + typ && section[1..open] == typ;
      assert section[open + 1..|section| - 1] == num;
      IndexOfFirst(section, open, '[');
    }
    if Positional(section).Some? {
      var open := IndexOf(section, '[');
      assert Matches(section, section[1..open], section[open + 1..|section| - 1]);
    }
  }

  /** '@', the type, and the digits in brackets, with or without a minus. */
  ghost predicate IsWritten(section: string, typ: string, digits: string)
  {
    && typ != "" && (forall i :: 0 <= i < |typ| ==>
                       'a' <= typ[i] <= 'z' || 'A' <= typ[i] <= 'Z' || '0' <= typ[i] <= '9' || typ[i] == '_' || typ[i] == '-')
    && digits != "" && (forall i :: 0 <= i < |digits| ==> '0' <= digits[i] <= '9')
    && (section == "@" + typ + "[" + digits + "]" || section == "@" + typ + "[" + ("-" + digits) + "]")
  }

  lemma WrittenMatches(section: string, typ: string, digits: string)
    requires IsWritten(section, typ, digits)
    ensures Positional(section).Some?
  {
    var num := if section == "@" + typ + "[" + digits + "]" then digits else "-" + digits;
    assert num == digits || num[1..] == digits;
    assert IsTypeName(typ) && IsIndexText(num);
    PositionalIsThePattern(section);
    assert Matches(section, typ, num);
  }

  /** A section is positional exactly if it is written so: the characters of the type, an optional minus, the digits. */
  lemma PositionalIsWritten(section: string)
    ensures Positional(section).Some? <==> exists typ, digits :: IsWritten(section, typ, digits)
  {
    if Positional(section).Some? {
      PositionalIsThePattern(section);
      var typ, num :| Matches(section, typ, num);
      var digits := if num[0] == '-' then num[1..] else num;
      assert num == digits || num == "-" + digits;
      assert IsWritten(section, typ, digits);
    }
    forall typ, digits | IsWritten(section, typ, digits) ensures Positional(section).Some? {
      WrittenMatches(section, typ, digits);
    }
  }

  function Resolve(p: Package, section: string): Result<string>
  {
    match Positional(section)
    case None => Ok(section)
    case Some(at) =>
      var ids := AnonIds(p, at.typ);
      var k := if at.index < 0 then at.index + |ids| else at.index;
      if 0 <= k < |ids| then Ok(ids[k]) else Err
  }

  method ResolveUCISection(sections: Package, addr: Address) returns (r: Result<string>)
    ensures r == Resolve(sections, addr.section)
  {
    var m := Positional(addr.section);
    if m.None? {
      return Ok(addr.section);
    }
    var sectionType, idx := m.value.typ, m.value.index;
    var ids := [];
    for i := 0 to |sections|
      invariant ids == AnonIds(sections[..i], sectionType)
    {
      assert sections[..i + 1][..i] == sections[..i];
      if sections[i].anonymous && sections[i].typ == sectionType {
        ids := ids + [sections[i].id];
      }
    }
    assert sections[..|sections|] == sections;
    if idx < 0 {
      idx := idx + |ids|;
    }
    if idx < 0 || idx >= |ids| {
      return Err;
    }
    return Ok(ids[idx]);
  }

  /** slots lists exactly the positions of the anonymous sections of the type, in device order. */
  ghost predicate Enumerates(p: Package, typ: string, slots: seq<nat>)
  {
    && (forall k :: 0 <= k < |slots| ==> slots[k] < |p| && p[slots[k]].anonymous && p[slots[k]].typ == typ)
    && (forall k, l :: 0 <= k < l < |slots| ==> slots[k] < slots[l])
    && (forall i :: 0 <= i < |p| && p[i].anonymous && p[i].typ == typ ==> i in slots)
  }

  function PositionText(typ: string, n: int): string
  {
    "@" + typ + "[" + Itoa(n) + "]"
  }

  lemma PositionTextMatches(typ: string, n: int)
    requires IsTypeName(typ)
    ensures Positional(PositionText(typ, n)) == Some(Position(typ, n))
  {
    AtoiItoa(n);
    if n < 0 {
      assert Itoa(n)[1..] == PrintNat(-n);
    }
    assert Matches(PositionText(typ, n), typ, Itoa(n));
    PositionalIsThePattern(PositionText(typ, n));
  }

  /**
   `@type[N]` resolves exactly for −n ≤ N < n, where n anonymous sections have the type, and then to
   the N-th of them in device order, counting from the end when N is negative.
   */
  lemma PositionalResolves(p: Package, typ: string, n: int)
    requires IsTypeName(typ)
    ensures var slots := AnonSlots(p, typ);
            var r := Resolve(p, PositionText(typ, n));
            && Enumerates(p, typ, slots)
            && (r.Ok? <==> -|slots| <= n < |slots|)
            && (r.Ok? ==> r.value == p[slots[if n < 0 then |slots| + n else n]].id)
  {
    PositionTextMatches(typ, n);
    AnonSlotsFacts(p, typ);
    AnonIdsAtSlots(p, typ);
  }

  /** What a positional reference resolves to is an anonymous section of the type. */
  lemma ResolvedIsAnonymous(p: Package, section: string)
    requires Positional(section).Some? && Resolve(p, section).Ok?
    ensures exists i :: 0 <= i < |p| && p[i].id == Resolve(p, section).value
                        && p[i].anonymous && p[i].typ == Positional(section).value.typ
  {
    var at := Positional(section).value;
    AnonSlotsFacts(p, at.typ);
    AnonIdsAtSlots(p, at.typ);
    var k := if at.index < 0 then at.index + |AnonIds(p, at.typ)| else at.index;
    assert Resolve(p, section).value == p[AnonSlots(p, at.typ)[k]].id;
  }

  /** Resolution looks at ids, types and anonymity only. */
  lemma ResolveSame(p: Package, q: Package, section: string)
    requires |p| == |q|
    requires forall i :: 0 <= i < |p| ==> p[i].id == q[i].id && p[i].typ == q[i].typ && p[i].anonymous == q[i].anonymous
    ensures Resolve(p, section) == Resolve(q, section)
  {
    if Positional(section).Some? {
      AnonIdsSame(p, q, Positional(section).value.typ);
    }
  }

  lemma {:induction false} AnonIdsSame(p: Package, q: Package, typ: string)
    requires |p| == |q|
    requires forall i :: 0 <= i < |p| ==> p[i].id == q[i].id && p[i].typ == q[i].typ && p[i].anonymous == q[i].anonymous
    ensures AnonIds(p, typ) == AnonIds(q, typ)
  {
    if p != [] {
      AnonIdsSame(p[..|p| - 1], q[..|q| - 1], typ);
    }
  }

  // ---------------------------------------------------------------- finding a section

  /** By name first, then by id. */
  function Find(p: Package, key: string): Option<Section>
  {
    if First(p, Named(key)).Some? then First(p, Named(key)) else First(p, WithId(key))
  }

  method FindUCISection(sections: Package, key: string) returns (r: Option<Section>)
    ensures r == Find(sections, key)
  {
    r := FindSectionByName(sections, key);
    if r.None? {
      r := FindSectionByID(sections, key);
    }
  }

  /** On a device package both lookups agree: the key is the section's id. */
  lemma FindIsById(p: Package, key: string)
    requires WellFormed(p)
    ensures Find(p, key) == First(p, WithId(key))
  {
    var i := FirstIndex(p, Named(key));
    if i < |p| {
      assert Named(key)(p[i]);
      IndexIsUnique(p, i);
    }
  }

  // ---------------------------------------------------------------- set and get

  function SetResult(p: Package, a: Address, value: string, gen: IdGen): Option<Package>
  {
    match Resolve(p, a.section)
    case Err => None
    case Ok(id) =>
      if a.option == "" then CreatedOrRetyped(Find(p, id), p, value, id, gen)
      else SetOptions(p, id, map[a.option := Scalar(value)])
  }

  function Shown(v: Value): string
  {
    match v
    case Scalar(text) => text
    case List(items) => Join(items, '\n')
  }

  /** A list is shown one item per line. */
  lemma ListIsShownByLines(first: string, rest: seq<string>)
    ensures Shown(List([])) == "" && Shown(List([first])) == first
    ensures rest != [] ==> Shown(List([first] + rest)) == first + "\n" + Shown(List(rest))
  {
    if rest != [] {
      JoinCons(first, rest, '\n');
    }
  }

  function Got(p: Package, a: Address): Result<string>
  {
    match Resolve(p, a.section)
    case Err => Err
    case Ok(id) =>
      match Find(p, id)
      case None => Err
      case Some(s) =>
        if a.option == "" then Ok(s.typ)
        else if a.option in s.options then Ok(Shown(s.options[a.option])) else Err
  }

  function OneArgument(rest: seq<string>): Result<(Address, string)>
  {
    if |rest| == 1 then SplitAddressValue(rest[0]) else Err
  }

  method RunUCIGet(runner: UCIRunner, rest: seq<string>) returns (r: Result<string>)
    requires runner.Valid()
    modifies runner`unread
    ensures |rest| != 1 || ParseAddress(rest[0]).Err? ==> r.Err?
    ensures |rest| == 1 && ParseAddress(rest[0]).Ok? ==>
              var a := ParseAddress(rest[0]).value;
              r == if a.config in runner.committed && runner.unread == old(runner.unread) then Got(runner.View(a.config), a) else Err
  {
    if |rest| != 1 {
      return Err;
    }
    var addr := ParseAddress(rest[0]);
    if addr.Err? {
      return Err;
    }
    var sections := runner.GetSections(addr.value.config);
    if sections.Err? {
      return Err;
    }
    var sectionID := ResolveUCISection(sections.value, addr.value);
    if sectionID.Err? {
      return Err;
    }
    var sec := FindUCISection(sections.value, sectionID.value);
    if sec.None? {
      return Err;
    }
    if addr.value.option == "" {
      return Ok(sec.value.typ);
    }
    if addr.value.option !in sec.value.options {
      return Err;
    }
    return Ok(Shown(sec.value.options[addr.value.option]));
  }

  /** No operation failed that could have been done. */
  twostate predicate Undisturbed(runner: UCIRunner)
    reads runner
  {
    runner.faults == old(runner.faults) && runner.unread == old(runner.unread)
  }

  method GetSectionsForWrite(runner: UCIRunner, config: string) returns (r: Result<Package>)
    requires runner.Valid()
    modifies runner`committed, runner`faults, runner`unread
    ensures runner.Valid()
    ensures old(runner.faults) <= runner.faults && old(runner.unread) <= runner.unread
    ensures Undisturbed(runner) ==> r.Ok?
    ensures TouchesOnly(old(runner.committed), runner.committed, {config})
    ensures SameSections(old(runner.committed), runner.committed)
    ensures r.Ok? ==> config in runner.committed && r.value == runner.View(config) == old(runner.View(config))
  {
    r := runner.GetSections(config);
    if r.Ok? {
      return r;
    }
    var ok := runner.EnsurePackage(config);
    if !ok {
      return Err;
    }
    r := runner.GetSections(config);
  }

  /** What a write command may change: only the staged view of its package, and a missing file may appear empty. */
  twostate predicate WritesOnly(runner: UCIRunner, config: string)
    reads runner
  {
    && TouchesOnly(old(runner.committed), runner.committed, {config})
    && SameSections(old(runner.committed), runner.committed)
    && SameOutside(old(runner.staged), runner.staged, {config})
  }

  method RunUCISet(runner: UCIRunner, rest: seq<string>) returns (ok: bool)
    requires runner.Valid()
    modifies runner
    ensures runner.Valid()
    ensures OneArgument(rest).Err? ==> !ok && runner.committed == old(runner.committed) && runner.staged == old(runner.staged)
    ensures OneArgument(rest).Ok? ==> WritesOnly(runner, OneArgument(rest).value.0.config)
    ensures ok ==> var (a, value) := OneArgument(rest).value;
                   SetResult(old(runner.View(a.config)), a, value, runner.gen) == Some(runner.View(a.config))
    ensures Undisturbed(runner) && OneArgument(rest).Ok? ==>
              var (a, value) := OneArgument(rest).value;
              (ok <==> SetResult(old(runner.View(a.config)), a, value, runner.gen).Some?)
  {
    if |rest| != 1 {
      return false;
    }
    var parsed := SplitAddressValue(rest[0]);
    if parsed.Err? {
      return false;
    }
    var (addr, value) := parsed.value;
    var sections := GetSectionsForWrite(runner, addr.config);
    if sections.Err? {
      return false;
    }
    var sectionID := ResolveUCISection(sections.value, addr);
    if sectionID.Err? {
      return false;
    }
    if addr.option == "" {
      var existing := FindUCISection(sections.value, sectionID.value);
      ok := CreateOrRetype(runner, addr.config, sectionID.value, value, existing);
    } else {
      ok := runner.SetValues(addr.config, sectionID.value, map[addr.option := Scalar(value)]);
    }
  }

  lemma CreatedIsFound(p: Package, id: string, typ: string, gen: IdGen)
    requires WellFormed(p) && id != "" && CreatedOrRetyped(First(p, WithId(id)), p, typ, id, gen).Some?
    ensures var q := CreatedOrRetyped(First(p, WithId(id)), p, typ, id, gen).value;
            WellFormed(q) && First(q, WithId(id)).Some? && First(q, WithId(id)).value.typ == typ
  {
    var i := FirstIndex(p, WithId(id));
    var q := CreatedOrRetyped(First(p, WithId(id)), p, typ, id, gen).value;
    if i == |p| {
      assert forall k :: 0 <= k < |p| ==> !WithId(id)(p[k]);
      assert q == p + [Section(id, typ, id, false, map[])];
      IndexIsUnique(q, |p|);
    } else {
      assert |q| == |p| && q[i].id == id && q[i].typ == typ;
      IndexIsUnique(q, i);
    }
  }

  /**
   Getting what was just set shows the value that was set, with one exception, which is exactly the
   positional retype: after `@T[N]=U` with U other than T, `@T[N]` names another section or none.
   */
  lemma SetThenGet(p: Package, a: Address, value: string, gen: IdGen)
    requires WellFormed(p) && a.section != "" && SetResult(p, a, value, gen).Some?
    ensures Got(SetResult(p, a, value, gen).value, a) == Ok(value) <==>
            a.option != "" || Positional(a.section).None? || Positional(a.section).value.typ == value
  {
    var q := SetResult(p, a, value, gen).value;
    var id := Resolve(p, a.section).value;
    FindIsById(p, id);
    if a.option != "" {
      SetThenGetOption(p, a, value, gen);
    } else if Positional(a.section).None? {
      CreatedIsFound(p, id, value, gen);
      FindIsById(q, id);
    } else {
      ResolvedIsAnonymous(p, a.section);
      var i :| 0 <= i < |p| && p[i].id == id && p[i].anonymous && p[i].typ == Positional(a.section).value.typ;
      IndexIsUnique(p, i);
      CreatedIsFound(p, id, value, gen);
      if Resolve(q, a.section).Ok? {
        ResolvedIsAnonymous(q, a.section);
        var k :| 0 <= k < |q| && q[k].id == Resolve(q, a.section).value && q[k].typ == Positional(a.section).value.typ;
        IndexIsUnique(q, k);
        FindIsById(q, q[k].id);
      }
    }
  }

  lemma SetThenGetOption(p: Package, a: Address, value: string, gen: IdGen)
    requires WellFormed(p) && a.option != "" && SetResult(p, a, value, gen).Some?
    ensures Got(SetResult(p, a, value, gen).value, a) == Ok(value)
  {
    var q := SetResult(p, a, value, gen).value;
    var id := Resolve(p, a.section).value;
    var i := FirstIndex(p, WithId(id));
    assert WithId(id)(p[i]);
    ResolveSame(p, q, a.section);
    assert WellFormed(q);
    IndexIsUnique(q, i);
    FindIsById(q, id);
  }

  /**
   What set does: another type for the section, another value for the option, or a new named section at the end
   when a type is set for a name that nothing carries; for anything else that is not there it fails.
   */
  lemma SetIsExact(p: Package, a: Address, value: string, gen: IdGen)
    requires WellFormed(p) && a.section != ""
    ensures TargetOf(p, a.section).Some? ==>
              var i := TargetOf(p, a.section).value;
              SetResult(p, a, value, gen)
              == Some(p[i := if a.option == "" then p[i].(typ := value)
                             else p[i].(options := p[i].options[a.option := Scalar(value)])])
    ensures TargetOf(p, a.section).None? ==>
              SetResult(p, a, value, gen)
              == if a.option == "" && Positional(a.section).None?
                 then Some(p + [Section(a.section, value, a.section, false, map[])]) else None
  {
    if Resolve(p, a.section).Ok? {
      var id := Resolve(p, a.section).value;
      FindIsById(p, id);
      if Positional(a.section).Some? {
        ResolvedIsAnonymous(p, a.section);
        var k :| 0 <= k < |p| && p[k].id == id;
        IndexIsUnique(p, k);
      }
      if TargetOf(p, a.section).Some? {
        var i := TargetOf(p, a.section).value;
        assert p[i := p[i].(typ := p[i].typ)] == p;
        assert Assign(p[i].options, map[a.option := Scalar(value)]) == p[i].options[a.option := Scalar(value)];
      }
    }
  }

  /** What get shows: the type, a string, or the lines of a list; an error exactly when there is no such thing. */
  lemma GetIsExact(p: Package, a: Address)
    requires WellFormed(p)
    ensures Got(p, a).Ok? <==> TargetOf(p, a.section).Some? && (a.option == "" || a.option in p[TargetOf(p, a.section).value].options)
    ensures Got(p, a).Ok? ==>
              var s := p[TargetOf(p, a.section).value];
              && (a.option == "" ==> Got(p, a) == Ok(s.typ))
              && (forall text :: a.option != "" && s.options[a.option] == Scalar(text) ==> Got(p, a) == Ok(text))
              && (forall items :: a.option != "" && s.options[a.option] == List(items) ==> Got(p, a) == Ok(Join(items, '\n')))
  {
    if Resolve(p, a.section).Ok? {
      FindIsById(p, Resolve(p, a.section).value);
    }
  }

  // ---------------------------------------------------------------- add_list and del_list

  datatype Verb = AddList | DelList

  /** The items other than value, in order. */
  function Without(items: seq<string>, value: string): seq<string>
  {
    if items == [] then []
    else
      var last := items[|items| - 1];
      Without(items[..|items| - 1], value) + (if last == value then [] else [last])
  }

  /** Without keeps each item that differs, in its place, and no other: it is fixed by these two laws. */
  lemma {:induction false} WithoutConcat(a: seq<string>, b: seq<string>, value: string)
    ensures Without(a + b, value) == Without(a, value) + Without(b, value)
    ensures forall x: string :: Without([x], value) == if x == value then [] else [x]
  {
    assert forall x: string :: [x][..0] == [];
    if b == [] {
      assert a + b == a;
    } else {
      assert (a + b)[..|a + b| - 1] == a + b[..|b| - 1];
      WithoutConcat(a, b[..|b| - 1], value);
    }
  }

  lemma {:induction false} WithoutAbsent(items: seq<string>, value: string)
    ensures value !in Without(items, value)
    ensures Without(items, value) == items <==> value !in items
  {
    if items != [] {
      WithoutAbsent(items[..|items| - 1], value);
      assert items == items[..|items| - 1] + [items[|items| - 1]];
    }
  }

  function Edited(verb: Verb, cur: seq<string>, value: string): seq<string>
  {
    match verb
    case AddList => cur + [value]
    case DelList => Without(cur, value)
  }

  method Mutate(verb: Verb, cur: seq<string>, value: string) returns (next: seq<string>)
    ensures next == Edited(verb, cur, value)
  {
    if verb.AddList? {
      return cur + [value];
    }
    next := [];
    for i := 0 to |cur|
      invariant next == Without(cur[..i], value)
    {
      assert cur[..i + 1][..i] == cur[..i];
      if cur[i] != value {
        next := next + [cur[i]];
      }
    }
    assert cur[..|cur|] == cur;
  }

  /** An option's items: an absent option has none, a scalar is its own single item. */
  function Items(options: Options, option: string): seq<string>
  {
    if option !in options then []
    else match options[option]
      case List(items) => items
      case Scalar(text) => [text]
  }

  function CurrentList(p: Package, id: string, option: string): seq<string>
  {
    match Find(p, id)
    case None => []
    case Some(s) => Items(s.options, option)
  }

  /** One list edit; an edit that empties the list removes the option. */
  function Modified(p: Package, a: Address, value: string, verb: Verb): Option<Package>
  {
    match Resolve(p, a.section)
    case Err => None
    case Ok(id) =>
      ListWritten(p, id, a.option, Edited(verb, CurrentList(p, id, a.option), value))
  }

  method ModifyUCIList(runner: UCIRunner, rest: seq<string>, verb: Verb) returns (ok: bool)
    requires runner.Valid()
    modifies runner
    ensures runner.Valid()
    ensures OneArgument(rest).Err? || OneArgument(rest).value.0.option == "" ==>
              !ok && runner.committed == old(runner.committed) && runner.staged == old(runner.staged)
    ensures OneArgument(rest).Ok? ==> WritesOnly(runner, OneArgument(rest).value.0.config)
    ensures verb.DelList? ==> runner.committed == old(runner.committed)
    ensures ok ==> var (a, value) := OneArgument(rest).value;
                   Modified(old(runner.View(a.config)), a, value, verb) == Some(runner.View(a.config))
    ensures Undisturbed(runner) && OneArgument(rest).Ok? && OneArgument(rest).value.0.option != "" ==>
              var (a, value) := OneArgument(rest).value;
              (ok <==> (verb.AddList? || a.config in old(runner.committed))
                       && Modified(old(runner.View(a.config)), a, value, verb).Some?)
  {
    if |rest| != 1 {
      return false;
    }
    var parsed := SplitAddressValue(rest[0]);
    if parsed.Err? {
      return false;
    }
    var (addr, value) := parsed.value;
    if addr.option == "" {
      return false;
    }
    ok := EditList(runner, addr, value, verb);
  }

  /** Only add_list creates a missing package. */
  method SectionsFor(runner: UCIRunner, config: string, verb: Verb) returns (r: Result<Package>)
    requires runner.Valid()
    modifies runner`committed, runner`faults, runner`unread
    ensures runner.Valid()
    ensures old(runner.faults) <= runner.faults && old(runner.unread) <= runner.unread
    ensures Undisturbed(runner) ==> (r.Ok? <==> verb.AddList? || config in old(runner.committed))
    ensures TouchesOnly(old(runner.committed), runner.committed, {config})
    ensures SameSections(old(runner.committed), runner.committed)
    ensures verb.DelList? ==> runner.committed == old(runner.committed)
    ensures r.Ok? ==> config in runner.committed && r.value == runner.View(config) == old(runner.View(config))
  {
    if verb.AddList? {
      r := GetSectionsForWrite(runner, config);
    } else {
      r := runner.GetSections(config);
    }
  }

  /** The part of modifyUCIList behind the checks of its argument. */
  method EditList(runner: UCIRunner, addr: Address, value: string, verb: Verb) returns (ok: bool)
    requires runner.Valid()
    modifies runner
    ensures runner.Valid()
    ensures WritesOnly(runner, addr.config)
    ensures verb.DelList? ==> runner.committed == old(runner.committed)
    ensures ok ==> Modified(old(runner.View(addr.config)), addr, value, verb) == Some(runner.View(addr.config))
    ensures Undisturbed(runner) ==>
              (ok <==> (verb.AddList? || addr.config in old(runner.committed))
                       && Modified(old(runner.View(addr.config)), addr, value, verb).Some?)
  {
    var sections := SectionsFor(runner, addr.config, verb);
    if sections.Err? {
      return false;
    }
    ok := EditFound(runner, sections.value, addr, value, verb);
  }

  method EditFound(runner: UCIRunner, sections: Package, addr: Address, value: string, verb: Verb) returns (ok: bool)
    requires runner.Valid() && addr.config in runner.committed && sections == runner.View(addr.config)
    modifies runner`staged, runner`faults
    ensures runner.Valid() && SameOutside(old(runner.staged), runner.staged, {addr.config})
    ensures ok ==> Modified(sections, addr, value, verb) == Some(runner.View(addr.config))
    ensures old(runner.faults) <= runner.faults
    ensures ok <==> Modified(sections, addr, value, verb).Some? && runner.faults == old(runner.faults)
  {
    var sectionID := ResolveUCISection(sections, addr);
    if sectionID.Err? {
      return false;
    }
    var cur := ItemsNow(sections, sectionID.value, addr.option);
    var next := Mutate(verb, cur, value);
    ok := WriteList(runner, addr.config, sectionID.value, addr.option, next);
  }

  function ListWritten(p: Package, id: string, option: string, next: seq<string>): Option<Package>
  {
    if next == [] then DropOptions(p, id, {option}) else SetOptions(p, id, map[option := List(next)])
  }

  method WriteList(runner: UCIRunner, config: string, id: string, option: string, next: seq<string>) returns (ok: bool)
    requires runner.Valid()
    modifies runner`staged, runner`faults
    ensures runner.Valid() && SameOutside(old(runner.staged), runner.staged, {config})
    ensures ok ==> ListWritten(old(runner.View(config)), id, option, next) == Some(runner.View(config))
    ensures old(runner.faults) <= runner.faults
    ensures ok <==> config in runner.committed && runner.faults == old(runner.faults)
                    && ListWritten(old(runner.View(config)), id, option, next).Some?
  {
    if |next| == 0 {
      assert (set k | k in [option]) == {option};
      ok := runner.DeleteOptions(config, id, [option]);
    } else {
      ok := runner.SetValues(config, id, map[option := List(next)]);
    }
  }

  /** The option's current list: absent counts as empty, a string as a list of one. */
  method ItemsNow(sections: Package, id: string, option: string) returns (cur: seq<string>)
    ensures cur == CurrentList(sections, id, option)
  {
    cur := [];
    var sec := FindUCISection(sections, id);
    if sec.Some? && option in sec.value.options {
      match sec.value.options[option] {
        case List(items) => cur := items;
        case Scalar(text) => cur := [text];
      }
    }
  }

  /** The options after an edit that leaves these items: the empty list is the absent option. */
  function WithItems(options: Options, option: string, items: seq<string>): Options
  {
    if items == [] then options - {option} else options[option := List(items)]
  }

  /** The position a write addresses, when there is one. */
  function TargetOf(p: Package, section: string): Option<nat>
  {
    match Resolve(p, section)
    case Err => None
    case Ok(id) => if FirstIndex(p, WithId(id)) < |p| then Some(FirstIndex(p, WithId(id))) else None
  }

  /** A literal reference addresses the section of that id; a positional one the N-th anonymous one of its type. */
  lemma TargetIs(p: Package, section: string, typ: string, n: int, i: nat)
    requires WellFormed(p)
    ensures Positional(section).None? ==> (TargetOf(p, section) == Some(i) <==> i < |p| && p[i].id == section)
    ensures IsTypeName(typ) ==>
              var slots := AnonSlots(p, typ);
              TargetOf(p, PositionText(typ, n)) == Some(i)
              <==> -|slots| <= n < |slots| && i == slots[if n < 0 then |slots| + n else n]
  {
    if i < |p| {
      IndexIsUnique(p, i);
    }
    if IsTypeName(typ) {
      PositionalResolves(p, typ, n);
      var slots := AnonSlots(p, typ);
      if -|slots| <= n < |slots| {
        IndexIsUnique(p, slots[if n < 0 then |slots| + n else n]);
      }
    }
  }

  /**
   A list edit needs an existing section and changes nothing but the one option of that section, whose
   items become the edited ones.
   */
  lemma ListEditIsExact(p: Package, a: Address, value: string, verb: Verb)
    requires WellFormed(p)
    ensures Modified(p, a, value, verb).Some? <==> TargetOf(p, a.section).Some?
    ensures TargetOf(p, a.section).Some? ==>
              var i := TargetOf(p, a.section).value;
              Modified(p, a, value, verb) == Some(p[i := p[i].(options :=
                WithItems(p[i].options, a.option, Edited(verb, Items(p[i].options, a.option), value)))])
  {
    if TargetOf(p, a.section).Some? {
      var i := TargetOf(p, a.section).value;
      var id := Resolve(p, a.section).value;
      FindIsById(p, id);
      var next := Edited(verb, Items(p[i].options, a.option), value);
      if next != [] {
        AssignOne(p[i].options, a.option, next);
      }
    }
  }

  lemma AssignOne(options: Options, option: string, items: seq<string>)
    requires items != []
    ensures Assign(options, map[option := List(items)]) == WithItems(options, option, items)
  {
  }

  /**
   add_list puts the value behind what is there: a new one-item list, the scalar and the value, or the list
   and the value. No other section and no other option changes.
   */
  lemma AddListAppends(p: Package, a: Address, value: string)
    requires WellFormed(p) && TargetOf(p, a.section).Some?
    ensures var i := TargetOf(p, a.section).value;
            var options := p[i].options;
            && (a.option !in options ==>
                  Modified(p, a, value, AddList) == Some(p[i := p[i].(options := options[a.option := List([value])])]))
            && (forall text :: a.option in options && options[a.option] == Scalar(text) ==>
                  Modified(p, a, value, AddList) == Some(p[i := p[i].(options := options[a.option := List([text, value])])]))
            && (forall items :: a.option in options && options[a.option] == List(items) ==>
                  Modified(p, a, value, AddList) == Some(p[i := p[i].(options := options[a.option := List(items + [value])])]))
  {
    ListEditIsExact(p, a, value, AddList);
    assert [] + [value] == [value] && forall text: string :: [text] + [value] == [text, value];
  }

  /** left is items without the value: nothing else is missing, and nothing moved. */
  ghost predicate OnlyRemoved(items: seq<string>, left: seq<string>, value: string)
  {
    && value !in left
    && (forall x :: x != value ==> multiset(left)[x] == multiset(items)[x])
    && exists at: seq<nat> :: |at| == |left| && Picks(items, left, at)
  }

  ghost predicate Picks(items: seq<string>, left: seq<string>, at: seq<nat>)
    requires |at| == |left|
  {
    (forall k :: 0 <= k < |at| ==> at[k] < |items| && items[at[k]] == left[k])
    && forall k, l :: 0 <= k < l < |at| ==> at[k] < at[l]
  }

  lemma {:induction false} WithoutPicks(items: seq<string>, value: string) returns (at: seq<nat>)
    ensures |at| == |Without(items, value)| && Picks(items, Without(items, value), at)
  {
    if items == [] {
      at := [];
    } else {
      var n := |items| - 1;
      at := WithoutPicks(items[..n], value);
      at := if items[n] == value then at else at + [n];
    }
  }

  lemma {:induction false} WithoutKeepsCounts(items: seq<string>, value: string, x: string)
    ensures x != value ==> multiset(Without(items, value))[x] == multiset(items)[x]
  {
    if items != [] {
      WithoutKeepsCounts(items[..|items| - 1], value, x);
      assert items == items[..|items| - 1] + [items[|items| - 1]];
    }
  }

  lemma WithoutOnlyRemoves(items: seq<string>, value: string)
    ensures OnlyRemoved(items, Without(items, value), value)
  {
    WithoutAbsent(items, value);
    var at := WithoutPicks(items, value);
    forall x | x != value ensures multiset(Without(items, value))[x] == multiset(items)[x] {
      WithoutKeepsCounts(items, value, x);
    }
  }

  /**
   del_list takes every occurrence of the value out and keeps the others in order; when none is left the
   option goes, and an absent option stays absent.
   */
  lemma DelListRemoves(p: Package, a: Address, value: string)
    requires WellFormed(p) && TargetOf(p, a.section).Some?
    ensures var i := TargetOf(p, a.section).value;
            var options := p[i].options;
            && (a.option !in options ==> Modified(p, a, value, DelList) == Some(p))
            && (a.option in options && options[a.option] == Scalar(value) ==>
                  Modified(p, a, value, DelList) == Some(p[i := p[i].(options := options - {a.option})]))
            && (forall text :: a.option in options && options[a.option] == Scalar(text) && text != value ==>
                  Modified(p, a, value, DelList) == Some(p[i := p[i].(options := options[a.option := List([text])])]))
            && (forall items :: a.option in options && options[a.option] == List(items) ==>
                  exists left :: OnlyRemoved(items, left, value)
                                 && Modified(p, a, value, DelList)
                                    == Some(p[i := p[i].(options := if left == [] then options - {a.option}
                                                                    else options[a.option := List(left)])]))
  {
    var i := TargetOf(p, a.section).value;
    var options := p[i].options;
    ListEditIsExact(p, a, value, DelList);
    assert Without([], value) == [];
    if a.option !in options {
      assert options - {a.option} == options;
      assert p[i := p[i].(options := options)] == p;
    } else if options[a.option].List? {
      WithoutOnlyRemoves(options[a.option].items, value);
    } else {
      var text := options[a.option].text;
      assert [text][..0] == [] && Without([text], value) == if text == value then [] else [text];
    }
  }

  /** The options that an add_list followed by a del_list of the same value leaves as they were. */
  predicate Restorable(options: Options, option: string, value: string)
  {
    option !in options || (options[option].List? && options[option].items != [] && value !in options[option].items)
  }

  lemma OptionsRestored(options: Options, option: string, value: string)
    ensures var added := WithItems(options, option, Edited(AddList, Items(options, option), value));
            WithItems(added, option, Edited(DelList, Items(added, option), value)) == options
            <==> Restorable(options, option, value)
  {
    var items := Items(options, option);
    WithoutConcat(items, [value], value);
    WithoutAbsent(items, value);
    var left := Without(items, value);
    assert Without(items + [value], value) == left + [] == left;
    BackAgain(options, option, items + [value], left);
    if left == [] {
      assert options - {option} == options <==> option !in options;
    }
  }

  /** What setting a list and then another one, or none, comes to. */
  lemma BackAgain(options: Options, option: string, items: seq<string>, left: seq<string>)
    requires items != []
    ensures var added := WithItems(options, option, items);
            && Items(added, option) == items
            && WithItems(added, option, left) == WithItems(options, option, left)
            && (WithItems(options, option, left) == options <==>
                  if left == [] then option !in options else option in options && options[option] == List(left))
  {
    var back := WithItems(options, option, left);
    if left != [] && option in options && options[option] == List(left) {
      assert back == options;
    }
    if left == [] && option !in options {
      assert back == options;
    }
  }

  /**
   add_list then del_list of the same value restores the package exactly when the option was absent or
   a non-empty list lacking the value. A scalar comes back as a list, and a list that already had the
   value loses it.
   */
  lemma AddThenDelRestores(p: Package, a: Address, value: string)
    requires WellFormed(p) && TargetOf(p, a.section).Some?
    ensures Modified(p, a, value, AddList).Some?
    ensures Modified(Modified(p, a, value, AddList).value, a, value, DelList) == Some(p) <==>
            Restorable(p[TargetOf(p, a.section).value].options, a.option, value)
  {
    var i := TargetOf(p, a.section).value;
    ListEditIsExact(p, a, value, AddList);
    var q := Modified(p, a, value, AddList).value;
    TargetStays(p, q, i, a.section);
    ListEditIsExact(q, a, value, DelList);
    OptionsRestored(p[i].options, a.option, value);
    var r := Modified(q, a, value, DelList).value;
    assert r == p <==> r[i].options == p[i].options;
  }

  /** New options for one section move no reference. */
  lemma TargetStays(p: Package, q: Package, i: nat, section: string)
    requires WellFormed(p) && TargetOf(p, section) == Some(i)
    requires |q| == |p| && q == p[i := p[i].(options := q[i].options)]
    ensures WellFormed(q) && TargetOf(q, section) == Some(i)
  {
    ResolveSame(p, q, section);
    assert WithId(Resolve(p, section).value)(q[i]);
    IndexIsUnique(q, i);
  }
}
