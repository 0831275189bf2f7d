/** The two-phase apply engine (internal/apply/applier.go), proved against Staging. */
module Applier {
  import opened Wrappers
  import opened Uci
  import opened SortedKeys
  import opened Staging
  import opened Runner
  import opened PayloadTheorems

  /** A decoded config_apply payload: package configs by package name, next to two meta-keys. */
  datatype PkgEntry = NotAPackage | Pkg(cfg: PkgConfig)
  datatype Payload = NotAnObject | Object(entries: map<string, PkgEntry>)

  predicate MetaKey(key: string)
  {
    key == "packages" || key == "reboot"
  }

  predicate Decodes(p: Payload)
  {
    p.Object? && forall k :: k in p.entries && !MetaKey(k) ==> p.entries[k].Pkg?
  }

  function PackageNames(p: Payload): seq<string>
    requires Decodes(p)
  {
    Sorted(set k | k in p.entries && !MetaKey(k))
  }

  function ConfigOf(p: Payload, pkg: string): PkgConfig
    requires Decodes(p) && pkg in PackageNames(p)
  {
    p.entries[pkg].cfg
  }

  /** Every key but "packages" and "reboot" is a package, in ascending order. */
  lemma PackagesAre(p: Payload)
    ensures Decodes(p) <==> p.Object? && forall k :: k in p.entries && k != "packages" && k != "reboot" ==> p.entries[k].Pkg?
    ensures Decodes(p) ==>
              && Ascending(PackageNames(p))
              && forall k :: k in PackageNames(p) <==> k in p.entries && k != "packages" && k != "reboot"
    ensures Decodes(p) ==> forall k :: k in PackageNames(p) ==> p.entries[k] == Pkg(ConfigOf(p, k))
  {
  }

  /** The payload is an object of packages each of which can be staged. */
  ghost predicate Applicable(p: Payload)
  {
    p.Object? && forall k :: k in p.entries && k != "packages" && k != "reboot" ==> p.entries[k].Pkg? && Possible(p.entries[k].cfg)
  }

  lemma NotApplicable(p: Payload)
    requires !Decodes(p)
    ensures !Applicable(p)
  {
  }

  /** The payload decodes and the specified staging of every package, as far as it was read, goes through. */
  ghost predicate Stageable(p: Payload, committed: map<string, Package>, staged: map<string, Package>, misread: set<string>, gen: IdGen)
  {
    Decodes(p) && forall k :: k in PackageNames(p) ==>
      StageRead(k !in misread, ViewIn(committed, staged, k), ConfigOf(p, k), gen).Some?
  }

  lemma StagedWas(p: Payload, committed: map<string, Package>, staged: map<string, Package>, misread: set<string>, gen: IdGen,
                  after: map<string, Package>)
    requires Decodes(p) && forall k :: k in PackageNames(p) ==>
               OneStaged(k, p.entries, gen, committed, staged, k !in misread, Some(SectionsIn(after, k)))
    ensures Stageable(p, committed, staged, misread, gen)
  {
  }

  lemma StoppedWas(p: Payload, committed: map<string, Package>, staged: map<string, Package>, gen: IdGen, seen: seq<bool>)
    requires Decodes(p) && 0 < |seen| <= |PackageNames(p)|
    requires OneStaged(PackageNames(p)[|seen| - 1], p.entries, gen, committed, staged, seen[|seen| - 1], None)
    ensures !Stageable(p, committed, staged, Misread(PackageNames(p), seen), gen)
  {
    MisreadAt(PackageNames(p), seen, |seen| - 1);
    assert PackageNames(p)[|seen| - 1] in PackageNames(p);
  }

  /** What a device shows: well-formed packages, and ids that are new. */
  ghost predicate Orderly(committed: map<string, Package>, staged: map<string, Package>, gen: IdGen)
  {
    FreshIds(gen) && forall k :: WellFormed(ViewIn(committed, staged, k))
  }

  /** On a device, what is there and what could be read does not matter to whether a payload can be staged. */
  lemma ApplicableExactly(p: Payload, committed: map<string, Package>, staged: map<string, Package>, misread: set<string>, gen: IdGen)
    requires Orderly(committed, staged, gen)
    ensures Stageable(p, committed, staged, misread, gen) <==> Applicable(p)
  {
    PackagesAre(p);
    if Decodes(p) {
      forall k | k in PackageNames(p)
        ensures StageRead(k !in misread, ViewIn(committed, staged, k), ConfigOf(p, k), gen).Some? <==> Possible(p.entries[k].cfg)
      {
        StagingIsPossibleExactly(ViewIn(committed, staged, k), k !in misread, ConfigOf(p, k), gen);
      }
    }
  }

  function ToSet(names: seq<string>): set<string>
  {
    set n | n in names
  }

  /** One package: what was there before, if it could be read, was staged into the result. */
  ghost predicate OneStaged(pkg: string, entries: map<string, PkgEntry>, gen: IdGen,
                            c0: map<string, Package>, s0: map<string, Package>, read: bool, result: Option<Package>)
  {
    pkg in entries && entries[pkg].Pkg? && StageRead(read, ViewIn(c0, s0, pkg), entries[pkg].cfg, gen) == result
  }

  /** Staging the first packages by name turned what was found there into these results. */
  ghost predicate AllStaged(names: seq<string>, entries: map<string, PkgEntry>, gen: IdGen,
                            c0: map<string, Package>, s0: map<string, Package>, seen: seq<bool>, results: seq<Package>)
  {
    && |results| == |seen| <= |names|
    && forall k :: 0 <= k < |results| ==> OneStaged(names[k], entries, gen, c0, s0, seen[k], Some(results[k]))
  }

  lemma AllStagedSnoc(names: seq<string>, entries: map<string, PkgEntry>, gen: IdGen, c0: map<string, Package>,
                      s0: map<string, Package>, seen: seq<bool>, results: seq<Package>, read: bool, next: Package)
    requires AllStaged(names, entries, gen, c0, s0, seen, results) && |results| < |names|
    requires OneStaged(names[|results|], entries, gen, c0, s0, read, Some(next))
    ensures AllStaged(names, entries, gen, c0, s0, seen + [read], results + [next])
  {
    var n := |results|;
    forall k | 0 <= k < n + 1
      ensures OneStaged(names[k], entries, gen, c0, s0, (seen + [read])[k], Some((results + [next])[k]))
    {
      if k < n {
        assert OneStaged(names[k], entries, gen, c0, s0, seen[k], Some(results[k]));
      }
    }
  }

  /** Files appear only for packages with something to add. */
  ghost predicate AppearsFor(before: map<string, Package>, after: map<string, Package>, entries: map<string, PkgEntry>)
  {
    forall p {:trigger p in entries} :: p in after && p !in before ==> p in entries && entries[p].Pkg? && !ListsNothing(entries[p].cfg)
  }

  lemma AppearsMore(c0: map<string, Package>, c1: map<string, Package>, c2: map<string, Package>, entries: map<string, PkgEntry>, pkg: string)
    requires AppearsFor(c0, c1, entries) && TouchesOnly(c1, c2, {pkg})
    requires pkg in entries && entries[pkg].Pkg? && (ListsNothing(entries[pkg].cfg) ==> c1 == c2)
    ensures AppearsFor(c0, c2, entries)
  {
  }

  /** The packages that were staged without having been read. */
  ghost function Misread(names: seq<string>, seen: seq<bool>): (misread: set<string>)
    requires |seen| <= |names|
    ensures forall p :: p in misread ==> p in names[..|seen|]
  {
    if seen == [] then {}
    else
      var n := |seen| - 1;
      assert names[..n + 1] == names[..n] + [names[n]];
      Misread(names, seen[..n]) + if seen[n] then {} else {names[n]}
  }

  lemma {:induction false} MisreadAt(names: seq<string>, seen: seq<bool>, k: nat)
    requires Ascending(names) && k < |seen| <= |names|
    ensures names[k] in Misread(names, seen) <==> !seen[k]
  {
    var n := |seen| - 1;
    if k < n {
      MisreadAt(names, seen[..n], k);
    } else {
      assert names[n] !in names[..n];
    }
  }

  function Unread(seen: seq<bool>): nat
  {
    if seen == [] then 0 else Unread(seen[..|seen| - 1]) + if seen[|seen| - 1] then 0 else 1
  }

  lemma UnreadSnoc(seen: seq<bool>, read: bool)
    ensures Unread(seen + [read]) == Unread(seen) + if read then 0 else 1
  {
    assert (seen + [read])[..|seen|] == seen;
  }

  lemma {:induction false} MisreadCount(names: seq<string>, seen: seq<bool>)
    requires Ascending(names) && |seen| <= |names|
    ensures |Misread(names, seen)| == Unread(seen) && Misread(names, seen) <= ToSet(names)
  {
    if seen != [] {
      var n := |seen| - 1;
      MisreadCount(names, seen[..n]);
      assert names[n] !in names[..n];
    }
  }

  /** How far staging went: no sections committed, and only the first i packages have deltas of its making. */
  ghost predicate StagedUpTo(c0: map<string, Package>, s0: map<string, Package>,
                             c: map<string, Package>, s: map<string, Package>, names: seq<string>, i: nat)
    requires i <= |names|
  {
    TouchesOnly(c0, c, ToSet(names)) && SameSections(c0, c) && SameOutside(s0, s, ToSet(names[..i]))
  }

  lemma StagedUpToSnoc(c0: map<string, Package>, s0: map<string, Package>, c1: map<string, Package>, s1: map<string, Package>,
                       c2: map<string, Package>, s2: map<string, Package>, names: seq<string>, i: nat)
    requires i < |names| && StagedUpTo(c0, s0, c1, s1, names, i)
    requires TouchesOnly(c1, c2, {names[i]}) && SameSections(c1, c2) && SameOutside(s1, s2, {names[i]})
    ensures StagedUpTo(c0, s0, c2, s2, names, i + 1)
  {
    assert names[..i + 1] == names[..i] + [names[i]];
  }

  ghost predicate Shows(c: map<string, Package>, s: map<string, Package>, names: seq<string>, views: seq<Package>)
  {
    |views| <= |names| && forall k :: 0 <= k < |views| ==> ViewIn(c, s, names[k]) == views[k]
  }

  lemma ShowsSnoc(c1: map<string, Package>, s1: map<string, Package>, c2: map<string, Package>, s2: map<string, Package>,
                  names: seq<string>, views: seq<Package>)
    requires Ascending(names) && |views| < |names| && Shows(c1, s1, names, views)
    requires SameSections(c1, c2) && SameOutside(s1, s2, {names[|views|]})
    ensures Shows(c2, s2, names, views + [ViewIn(c2, s2, names[|views|])])
  {
    forall k | 0 <= k < |views| ensures ViewIn(c2, s2, names[k]) == views[k] {
      assert names[k] != names[|views|];
      assert SectionsIn(c1, names[k]) == SectionsIn(c2, names[k]);
    }
  }

  /** Phase 1 so far: what was staged, what shows, and which files appeared. */
  ghost predicate Progress(names: seq<string>, entries: map<string, PkgEntry>, gen: IdGen,
                           c0: map<string, Package>, s0: map<string, Package>, c: map<string, Package>, s: map<string, Package>,
                           seen: seq<bool>, results: seq<Package>)
  {
    && AllStaged(names, entries, gen, c0, s0, seen, results) && Shows(c, s, names, results)
    && StagedUpTo(c0, s0, c, s, names, |results|) && AppearsFor(c0, c, entries)
  }

  lemma ProgressSnoc(names: seq<string>, entries: map<string, PkgEntry>, gen: IdGen,
                     c0: map<string, Package>, s0: map<string, Package>, c1: map<string, Package>, s1: map<string, Package>,
                     c2: map<string, Package>, s2: map<string, Package>, seen: seq<bool>, results: seq<Package>, read: bool)
    requires Ascending(names) && |results| < |names| && Progress(names, entries, gen, c0, s0, c1, s1, seen, results)
    requires StagedUpTo(c0, s0, c2, s2, names, |results| + 1) && AppearsFor(c0, c2, entries)
    requires SameSections(c1, c2) && SameOutside(s1, s2, {names[|results|]})
    requires OneStaged(names[|results|], entries, gen, c0, s0, read, Some(ViewIn(c2, s2, names[|results|])))
    ensures Progress(names, entries, gen, c0, s0, c2, s2, seen + [read], results + [ViewIn(c2, s2, names[|results|])])
  {
    var next := ViewIn(c2, s2, names[|results|]);
    ShowsSnoc(c1, s1, c2, s2, names, results);
    AllStagedSnoc(names, entries, gen, c0, s0, seen, results, read, next);
  }

  lemma StillFound(c0: map<string, Package>, s0: map<string, Package>, c: map<string, Package>, s: map<string, Package>,
                   names: seq<string>, i: nat)
    requires Ascending(names) && i < |names| && StagedUpTo(c0, s0, c, s, names, i)
    ensures ViewIn(c, s, names[i]) == ViewIn(c0, s0, names[i])
  {
    assert names[i] !in ToSet(names[..i]);
    assert SectionsIn(c0, names[i]) == SectionsIn(c, names[i]);
  }

  /** The first i packages hold what was staged, every other one the sections it held. */
  ghost predicate CommittedUpTo(c0: map<string, Package>, s0: map<string, Package>, c: map<string, Package>,
                                names: seq<string>, i: nat)
    requires i <= |names|
  {
    && TouchesOnly(c0, c, ToSet(names))
    && forall p :: SectionsIn(c, p) == if p in names[..i] then ViewIn(c0, s0, p) else SectionsIn(c0, p)
  }

  lemma TouchesMore(c0: map<string, Package>, c1: map<string, Package>, c2: map<string, Package>, names: set<string>, pkg: string)
    requires TouchesOnly(c0, c1, names) && TouchesOnly(c1, c2, {pkg}) && pkg in names
    ensures TouchesOnly(c0, c2, names)
  {
  }

  lemma CommittedSnoc(c0: map<string, Package>, s0: map<string, Package>, c1: map<string, Package>, s1: map<string, Package>,
                      c2: map<string, Package>, names: seq<string>, i: nat)
    requires Ascending(names) && i < |names| && CommittedUpTo(c0, s0, c1, names, i)
    requires Removed(s0, s1, ToSet(names[..i]))
    requires TouchesOnly(c1, c2, {names[i]}) && SectionsIn(c2, names[i]) == ViewIn(c1, s1, names[i])
    ensures CommittedUpTo(c0, s0, c2, names, i + 1)
  {
    TouchesMore(c0, c1, c2, ToSet(names), names[i]);
    forall p ensures SectionsIn(c2, p) == if p in names[..i + 1] then ViewIn(c0, s0, p) else SectionsIn(c0, p) {
      CommittedOne(c0, s0, c1, s1, c2, names[..i], names[i], p);
      assert names[..i + 1] == names[..i] + [names[i]];
    }
  }

  lemma CommittedOne(c0: map<string, Package>, s0: map<string, Package>, c1: map<string, Package>, s1: map<string, Package>,
                     c2: map<string, Package>, done: seq<string>, pkg: string, p: string)
    requires pkg !in done && Removed(s0, s1, ToSet(done))
    requires forall q :: SectionsIn(c1, q) == if q in done then ViewIn(c0, s0, q) else SectionsIn(c0, q)
    requires TouchesOnly(c1, c2, {pkg}) && SectionsIn(c2, pkg) == ViewIn(c1, s1, pkg)
    ensures SectionsIn(c2, p) == if p in done + [pkg] then ViewIn(c0, s0, p) else SectionsIn(c0, p)
  {
    assert SectionsIn(c1, pkg) == SectionsIn(c0, pkg);
    assert p != pkg ==> SectionsIn(c2, p) == SectionsIn(c1, p);
  }

  /** The deltas of the first i packages are gone, those of every other package are as they were. */
  ghost predicate ClearedUpTo(before: map<string, Package>, after: map<string, Package>, names: seq<string>, i: nat)
    requires i <= |names|
  {
    Removed(before, after, ToSet(names[..i]))
  }

  /**
   What an apply leaves staged: on success and after a commit failure nothing of any payload package; after
   a staging failure nothing of the failing package and those before it, and everything of the later ones.
   */
  ghost predicate Unstaged(before: map<string, Package>, after: map<string, Package>, names: seq<string>,
                           committed: seq<string>, ok: bool)
  {
    exists i: nat :: i <= |names| && ClearedUpTo(before, after, names, i)
                     && (ok || committed != [] ==> i == |names|) && (!ok ==> i > 0)
  }

  lemma UnstagedAt(before: map<string, Package>, after: map<string, Package>, names: seq<string>, i: nat)
    requires 0 < i <= |names| && ClearedUpTo(before, after, names, i)
    ensures Unstaged(before, after, names, [], false)
  {
  }

  lemma HoldsAt(c1: map<string, Package>, s1: map<string, Package>, c2: map<string, Package>, names: seq<string>,
                results: seq<Package>, i: nat, k: nat)
    requires k < i <= |names| == |results| && Shows(c1, s1, names, results) && CommittedUpTo(c1, s1, c2, names, i)
    ensures SectionsIn(c2, names[k]) == results[k]
  {
    assert names[..i][k] == names[k];
  }

  /** From staging everything and committing the first i packages to what the files then hold. */
  lemma CommittedHoldStaged(c0: map<string, Package>, s0: map<string, Package>, c1: map<string, Package>, s1: map<string, Package>,
                            c2: map<string, Package>, names: seq<string>, entries: map<string, PkgEntry>, gen: IdGen,
                            seen: seq<bool>, results: seq<Package>, i: nat)
    requires Ascending(names) && i <= |names| == |results|
    requires AllStaged(names, entries, gen, c0, s0, seen, results) && Shows(c1, s1, names, results)
    requires CommittedUpTo(c1, s1, c2, names, i)
    ensures forall p :: p in names[..i] ==>
              OneStaged(p, entries, gen, c0, s0, p !in Misread(names, seen), Some(SectionsIn(c2, p)))
  {
    forall p | p in names[..i]
      ensures OneStaged(p, entries, gen, c0, s0, p !in Misread(names, seen), Some(SectionsIn(c2, p)))
    {
      var k :| 0 <= k < i && names[..i][k] == p;
      HoldsAt(c1, s1, c2, names, results, i, k);
      MisreadAt(names, seen, k);
      assert OneStaged(names[k], entries, gen, c0, s0, seen[k], Some(results[k]));
    }
  }

  /** The files of all other packages hold the sections they held. */
  lemma OthersHold(c0: map<string, Package>, s0: map<string, Package>, c1: map<string, Package>, s1: map<string, Package>,
                   c2: map<string, Package>, names: seq<string>, i: nat)
    requires i <= |names| && StagedUpTo(c0, s0, c1, s1, names, |names|) && CommittedUpTo(c1, s1, c2, names, i)
    ensures forall p :: p !in names[..i] ==> SectionsIn(c2, p) == SectionsIn(c0, p)
    ensures TouchesOnly(c0, c2, ToSet(names))
  {
    forall p | p !in names[..i] ensures SectionsIn(c2, p) == SectionsIn(c0, p) {
      assert SectionsIn(c1, p) == SectionsIn(c0, p);
    }
  }

  /** What every package had staged before is gone or untouched. */
  lemma AllCleared(s0: map<string, Package>, s1: map<string, Package>, s2: map<string, Package>, names: seq<string>,
                   committed: seq<string>, ok: bool)
    requires SameOutside(s0, s1, ToSet(names)) && Removed(s1, s2, ToSet(names)) && (ok || names != [])
    ensures Unstaged(s0, s2, names, committed, ok) && Removed(s0, s2, ToSet(names))
  {
    assert names[..|names|] == names;
    assert ClearedUpTo(s0, s2, names, |names|);
  }

  lemma UnstagedMeans(before: map<string, Package>, after: map<string, Package>, names: seq<string>, committed: seq<string>, ok: bool)
    requires Unstaged(before, after, names, committed, ok)
    ensures SameOutside(before, after, ToSet(names))
    ensures ok || committed != [] ==> forall p :: p in names ==> p !in after
    ensures forall p :: p in after ==> p in before && after[p] == before[p]
  {
    var i: nat :| i <= |names| && ClearedUpTo(before, after, names, i)
                  && (ok || committed != [] ==> i == |names|) && (!ok ==> i > 0);
    assert names[..|names|] == names;
    assert ToSet(names[..i]) <= ToSet(names);
  }

  class Applier {
    const runner: UCIRunner

    constructor (runner: UCIRunner)
      ensures this.runner == runner
    {
      this.runner := runner;
    }

    method ExistingSectionTypes(sections: Package) returns (types: seq<string>)
      ensures types == TypesOf(sections)
    {
      types := [];
      var seen := {};
      for i := 0 to |sections|
        invariant types == TypesOf(sections[..i])
        invariant forall t :: t in seen <==> t in types
      {
        assert sections[..i + 1][..i] == sections[..i];
        if sections[i].typ !in seen {
          seen := seen + {sections[i].typ};
          types := types + [sections[i].typ];
        }
      }
      assert sections[..|sections|] == sections;
    }

    method AnonymousSectionIDs(sections: Package, sectionType: string) returns (ids: seq<string>)
      ensures ids == AnonIds(sections, sectionType)
    {
      ids := [];
      for i := 0 to |sections|
        invariant ids == AnonIds(sections[..i], sectionType)
      {
        assert sections[..i + 1][..i] == sections[..i];
        if sections[i].anonymous && sections[i].typ == sectionType {
          ids := ids + [sections[i].id];
        }
      }
      assert sections[..|sections|] == sections;
    }

    method DeleteUnwantedSections(pkg: string, sections: Package, sectionType: string, keep: set<string>)
      returns (ok: bool)
      requires runner.Valid()
      modifies runner`staged, runner`faults
      ensures runner.Valid()
      ensures SameOutside(old(runner.staged), runner.staged, {pkg})
      ensures ok ==> SweepType(sections, old(runner.View(pkg)), sectionType, keep) == Some(runner.View(pkg))
      ensures old(runner.faults) <= runner.faults && (ok ==> runner.faults == old(runner.faults))
      ensures !ok && runner.faults == old(runner.faults) && pkg in runner.committed ==>
                SweepType(sections, old(runner.View(pkg)), sectionType, keep) == None
    {
      for i := 0 to |sections|
        invariant runner.Valid() && runner.faults == old(runner.faults)
        invariant SameOutside(old(runner.staged), runner.staged, {pkg})
        invariant SweepType(sections[..i], old(runner.View(pkg)), sectionType, keep) == Some(runner.View(pkg))
      {
        assert sections[..i + 1][..i] == sections[..i];
        var s := sections[i];
        if s.typ != sectionType {
          continue;
        }
        if !s.anonymous && s.name in keep {
          continue;
        }
        ok := runner.Delete(pkg, s.id);
        if !ok {
          if runner.faults == old(runner.faults) && pkg in runner.committed {
            SweepTypeStops(sections, old(runner.View(pkg)), sectionType, keep, i + 1);
          }
          return false;
        }
      }
      assert sections[..|sections|] == sections;
      return true;
    }

    method CleanStaleOptions(pkg: string, sectionID: string, existing: Option<Section>, desired: set<string>)
      returns (ok: bool)
      requires runner.Valid()
      modifies runner`staged, runner`faults
      ensures runner.Valid()
      ensures SameOutside(old(runner.staged), runner.staged, {pkg})
      ensures ok ==> Cleaned(old(runner.View(pkg)), sectionID, existing, desired) == Some(runner.View(pkg))
      ensures old(runner.faults) <= runner.faults && (ok ==> runner.faults == old(runner.faults))
      ensures !ok && runner.faults == old(runner.faults) && pkg in runner.committed ==>
                Cleaned(old(runner.View(pkg)), sectionID, existing, desired) == None
    {
      if existing.None? {
        return true;
      }
      var stale: set<string> := {};
      var rest := existing.value.options.Keys;
      while rest != {}
        invariant rest <= existing.value.options.Keys
        invariant stale == (existing.value.options.Keys - rest) - desired
        decreases |rest|
      {
        var opt :| opt in rest;
        rest := rest - {opt};
        if opt !in desired {
          stale := stale + {opt};
        }
      }
      if stale == {} {
        return true;
      }
      var sorted := Sorted(stale);
      assert (set k | k in sorted) == stale;
      ok := runner.DeleteOptions(pkg, sectionID, sorted);
    }

    /** The values to set and their keys: every field that is not a meta-key. */
    method DesiredOptions(section: Fields) returns (values: Options, desiredKeys: set<string>)
      ensures values == OptionsOf(section) && desiredKeys == values.Keys
    {
      values, desiredKeys := map[], {};
      var rest := section.Keys;
      while rest != {}
        invariant rest <= section.Keys
        invariant forall k :: k in values <==> k in section && k !in rest && !Dotted(k)
        invariant forall k :: k in values ==> values[k] == Render(section[k])
        invariant forall k :: k in desiredKeys <==> k in values
        decreases |rest|
      {
        var key :| key in rest;
        rest := rest - {key};
        if Dotted(key) {
          continue;
        }
        desiredKeys := desiredKeys + {key};
        values := values[key := Render(section[key])];
      }
      assert values == OptionsOf(section);
    }

    method ApplySection(pkg: string, sectionType: string, section: Fields, existing: Package, reuseID: string)
      returns (ok: bool)
      requires runner.Valid()
      modifies runner`staged, runner`faults
      ensures runner.Valid()
      ensures SameOutside(old(runner.staged), runner.staged, {pkg})
      ensures ok ==> ApplyItem(existing, old(runner.View(pkg)), Item(sectionType, section), reuseID, runner.gen)
                     == Some(runner.View(pkg))
      ensures old(runner.faults) <= runner.faults && (ok ==> runner.faults == old(runner.faults))
      ensures !ok && runner.faults == old(runner.faults) && pkg in runner.committed ==>
                ApplyItem(existing, old(runner.View(pkg)), Item(sectionType, section), reuseID, runner.gen) == None
    {
      var name := NameOf(section);
      var sectionID := reuseID;
      var existingSec: Option<Section> := None;
      if name.Some? {
        sectionID := name.value;
        existingSec := FindSectionByName(existing, sectionID);
        ok := CreateOrRetype(runner, pkg, sectionID, sectionType, existingSec);
        if !ok {
          return false;
        }
      } else if reuseID != "" {
        existingSec := FindSectionByID(existing, reuseID);
      } else {
        var r := runner.Add(pkg, sectionType, "");
        if r.Err? {
          return false;
        }
        sectionID := r.value;
      }

      var values, desiredKeys := DesiredOptions(section);
      if |values| > 0 {
        ok := runner.SetValues(pkg, sectionID, values);
        if !ok {
          return false;
        }
      }
      if name.Some? || reuseID != "" {
        ok := CleanStaleOptions(pkg, sectionID, existingSec, desiredKeys);
        return ok;
      }
      return true;
    }

    /** The loop over the sections of one type; done is the work staged before it. */
    method StageSections(pkg: string, existing: Package, merge: bool, sectionType: string, sections: seq<Fields>,
                         ghost start: Package, ghost done: seq<Item>)
      returns (ok: bool)
      requires runner.Valid()
      requires CountAnon(done, sectionType) == 0
      requires Fold(existing, start, merge, done, runner.gen) == Some(runner.View(pkg))
      modifies runner`staged, runner`faults
      ensures runner.Valid()
      ensures SameOutside(old(runner.staged), runner.staged, {pkg})
      ensures ok ==> Fold(existing, start, merge, done + ItemsOf(sectionType, sections), runner.gen)
                     == Some(runner.View(pkg))
      ensures old(runner.faults) <= runner.faults && (ok ==> runner.faults == old(runner.faults))
      ensures !ok && runner.faults == old(runner.faults) && pkg in runner.committed ==>
                Fold(existing, start, merge, done + ItemsOf(sectionType, sections), runner.gen) == None
    {
      var existingAnonIDs := [];
      if merge {
        existingAnonIDs := AnonymousSectionIDs(existing, sectionType);
      }
      var anonIdx := 0;
      ghost var items := ItemsOf(sectionType, sections);
      ghost var staged := done;
      for i := 0 to |sections|
        invariant runner.Valid() && runner.faults == old(runner.faults)
        invariant SameOutside(old(runner.staged), runner.staged, {pkg})
        invariant staged == done + items[..i]
        invariant anonIdx == CountAnon(staged, sectionType)
        invariant Fold(existing, start, merge, staged, runner.gen) == Some(runner.View(pkg))
      {
        var reuseID := "";
        if NameOf(sections[i]).None? {
          if anonIdx < |existingAnonIDs| {
            reuseID := existingAnonIDs[anonIdx];
          }
          anonIdx := anonIdx + 1;
        }
        assert reuseID == ReuseId(existing, merge, staged, items[i]);
        ok := ApplySection(pkg, sectionType, sections[i], existing, reuseID);
        if !ok {
          if runner.faults == old(runner.faults) && pkg in runner.committed {
            StopsAt(existing, start, merge, done, items, i, runner.gen);
          }
          return false;
        }
        FoldSnoc(existing, start, merge, staged, items[i], runner.gen);
        CountAnonSnoc(staged, items[i], sectionType);
        staged := staged + [items[i]];
      }
      assert items[..|sections|] == items;
      return true;
    }

    /** read tells whether the sections could be read; a package without a file counts as read. */
    method StagePackage(pkg: string, cfg: PkgConfig) returns (ok: bool, ghost read: bool)
      requires runner.Valid()
      modifies runner
      ensures runner.Valid()
      ensures SameOutside(old(runner.staged), runner.staged, {pkg})
      ensures TouchesOnly(old(runner.committed), runner.committed, {pkg}) && SameSections(old(runner.committed), runner.committed)
      ensures ListsNothing(cfg) ==> runner.committed == old(runner.committed)
      ensures pkg !in old(runner.committed) ==> read
      ensures ok ==> StageRead(read, old(runner.View(pkg)), cfg, runner.gen) == Some(runner.View(pkg))
      ensures old(runner.faults) <= runner.faults && (ok ==> runner.faults == old(runner.faults))
      ensures runner.unread == old(runner.unread) + if read then 0 else 1
      ensures !ok && runner.faults == old(runner.faults) ==> StageRead(read, old(runner.View(pkg)), cfg, runner.gen) == None
    {
      var mode := DeclaredMode(cfg);
      var pkgCfg := cfg;
      if Deletes(cfg) {
        mode := "replace";
        pkgCfg := map[];
      }
      ListsNothingIs(cfg);
      var sectionTypes := SectionTypes(pkgCfg);
      assert forall t :: t in sectionTypes ==> t in pkgCfg;
      ok := ParseAll(sectionTypes, pkgCfg);
      if !ok {
        return false, true;
      }
      var got: Result<Package>;
      got, read := FetchSections(pkg, sectionTypes);
      if got.Err? {
        return false, read;
      }
      ok := StageSnapshot(pkg, got.value, mode, sectionTypes, pkgCfg);
    }

    /** Every section type must hold sections. */
    method ParseAll(sectionTypes: seq<string>, pkgCfg: PkgConfig) returns (ok: bool)
      requires sectionTypes == SectionTypes(pkgCfg)
      ensures ok <==> Parses(pkgCfg)
    {
      assert forall k :: k in sectionTypes <==> k in pkgCfg && !Dotted(k);
      for i := 0 to |sectionTypes|
        invariant forall k :: 0 <= k < i ==> pkgCfg[sectionTypes[k]].Sections?
      {
        assert sectionTypes[i] in sectionTypes;
        if !pkgCfg[sectionTypes[i]].Sections? {
          return false;
        }
      }
      return true;
    }

    /** The snapshot everything is judged by; an unreadable package counts as empty, and is created if there is anything to add. */
    method FetchSections(pkg: string, sectionTypes: seq<string>) returns (r: Result<Package>, ghost read: bool)
      requires runner.Valid()
      modifies runner`committed, runner`faults, runner`unread
      ensures runner.Valid()
      ensures TouchesOnly(old(runner.committed), runner.committed, {pkg}) && SameSections(old(runner.committed), runner.committed)
      ensures runner.View(pkg) == old(runner.View(pkg))
      ensures pkg !in old(runner.committed) ==> read
      ensures r.Ok? ==> r.value == if read then runner.View(pkg) else []
      ensures old(runner.faults) <= runner.faults && (r.Ok? <==> runner.faults == old(runner.faults))
      ensures runner.unread == old(runner.unread) + if read then 0 else 1
      ensures sectionTypes == [] ==> runner.committed == old(runner.committed)
      ensures r.Ok? && sectionTypes != [] ==> pkg in runner.committed
      ensures r.Ok? && pkg !in runner.committed ==> r.value == []
    {
      r := runner.GetSections(pkg);
      read := r.Ok? || pkg !in runner.committed;
      if r.Err? {
        if |sectionTypes| > 0 {
          var ok := runner.EnsurePackage(pkg);
          if !ok {
            return Err, read;
          }
        }
        r := Ok([]);
      }
    }

    method StageSnapshot(pkg: string, existing: Package, mode: string, sectionTypes: seq<string>, pkgCfg: PkgConfig)
      returns (ok: bool)
      requires runner.Valid()
      requires Parses(pkgCfg) && sectionTypes == SectionTypes(pkgCfg)
      modifies runner`staged, runner`faults
      ensures runner.Valid()
      ensures SameOutside(old(runner.staged), runner.staged, {pkg})
      ensures ok ==> Staged(existing, old(runner.View(pkg)), mode, WorkOf(pkgCfg), runner.gen) == Some(runner.View(pkg))
      ensures old(runner.faults) <= runner.faults && (ok ==> runner.faults == old(runner.faults))
      ensures !ok && runner.faults == old(runner.faults) && (pkg in runner.committed || (existing == [] && sectionTypes == [])) ==>
                Staged(existing, old(runner.View(pkg)), mode, WorkOf(pkgCfg), runner.gen) == None
    {
      ghost var cur := runner.View(pkg);
      if mode == "replace" {
        var keepNames := CollectKeepNames(sectionTypes, pkgCfg);
        ok := SweepPackage(pkg, existing, keepNames);
        if !ok {
          SweepStopsIt(existing, cur, WorkOf(pkgCfg), runner.gen);
          return false;
        }
      }
      StagedFrom(existing, cur, mode, WorkOf(pkgCfg), runner.View(pkg), runner.gen);
      ok := StageTypes(pkg, existing, mode == "merge", sectionTypes, pkgCfg);
    }

    method StageTypes(pkg: string, existing: Package, merge: bool, types: seq<string>, cfg: PkgConfig) returns (ok: bool)
      requires runner.Valid() && Ascending(types)
      requires forall t :: t in types ==> t in cfg && cfg[t].Sections?
      modifies runner`staged, runner`faults
      ensures runner.Valid()
      ensures SameOutside(old(runner.staged), runner.staged, {pkg})
      ensures ok ==> Fold(existing, old(runner.View(pkg)), merge, Work(types, cfg), runner.gen) == Some(runner.View(pkg))
      ensures old(runner.faults) <= runner.faults && (ok ==> runner.faults == old(runner.faults))
      ensures !ok && runner.faults == old(runner.faults) && (pkg in runner.committed || types == []) ==>
                Fold(existing, old(runner.View(pkg)), merge, Work(types, cfg), runner.gen) == None
    {
      ghost var start := runner.View(pkg);
      for i := 0 to |types|
        invariant runner.Valid() && runner.faults == old(runner.faults)
        invariant SameOutside(old(runner.staged), runner.staged, {pkg})
        invariant Fold(existing, start, merge, Work(types[..i], cfg), runner.gen) == Some(runner.View(pkg))
      {
        assert types[..i + 1][..i] == types[..i];
        OtherTypesHaveNoAnon(types[..i], cfg, types[i]);
        ok := StageSections(pkg, existing, merge, types[i], cfg[types[i]].sections, start, Work(types[..i], cfg));
        if !ok {
          if runner.faults == old(runner.faults) && pkg in runner.committed {
            WorkStops(existing, start, merge, types, cfg, i + 1, runner.gen);
          }
          return false;
        }
      }
      assert types[..|types|] == types;
      return true;
    }

    method CollectKeepNames(types: seq<string>, cfg: PkgConfig) returns (keep: set<string>)
      requires forall t :: t in types ==> t in cfg && cfg[t].Sections?
      ensures keep == KeepNames(Work(types, cfg))
    {
      keep := {};
      for i := 0 to |types|
        invariant keep == KeepNames(Work(types[..i], cfg))
      {
        assert types[..i + 1][..i] == types[..i];
        ghost var before := Work(types[..i], cfg);
        var sections := cfg[types[i]].sections;
        ghost var items := ItemsOf(types[i], sections);
        assert before + items[..0] == before;
        for j := 0 to |sections|
          invariant keep == KeepNames(before + items[..j])
        {
          ghost var longer := before + items[..j + 1];
          assert longer == (before + items[..j]) + [items[j]];
          var name := NameOf(sections[j]);
          if name.Some? {
            keep := keep + {name.value};
          }
          assert forall x :: x in longer <==> x in before + items[..j] || x == items[j];
        }
        assert items[..|sections|] == items;
      }
      assert types[..|types|] == types;
    }

    method SweepPackage(pkg: string, existing: Package, keep: set<string>) returns (ok: bool)
      requires runner.Valid()
      modifies runner`staged, runner`faults
      ensures runner.Valid()
      ensures SameOutside(old(runner.staged), runner.staged, {pkg})
      ensures ok ==> Sweep(existing, old(runner.View(pkg)), TypesOf(existing), keep) == Some(runner.View(pkg))
      ensures old(runner.faults) <= runner.faults && (ok ==> runner.faults == old(runner.faults))
      ensures !ok && runner.faults == old(runner.faults) && (pkg in runner.committed || existing == []) ==>
                Sweep(existing, old(runner.View(pkg)), TypesOf(existing), keep) == None
    {
      var types := ExistingSectionTypes(existing);
      for i := 0 to |types|
        invariant runner.Valid() && runner.faults == old(runner.faults)
        invariant SameOutside(old(runner.staged), runner.staged, {pkg})
        invariant Sweep(existing, old(runner.View(pkg)), types[..i], keep) == Some(runner.View(pkg))
      {
        assert types[..i + 1][..i] == types[..i];
        ok := DeleteUnwantedSections(pkg, existing, types[i], keep);
        if !ok {
          if runner.faults == old(runner.faults) && pkg in runner.committed {
            SweepStops(existing, old(runner.View(pkg)), types, keep, i + 1);
          }
          return false;
        }
      }
      assert types[..|types|] == types;
      return true;
    }

    method RevertAll(pkgs: seq<string>)
      requires runner.Valid()
      modifies runner`staged
      ensures runner.Valid()
      ensures Removed(old(runner.staged), runner.staged, ToSet(pkgs))
    {
      for i := 0 to |pkgs|
        invariant runner.Valid()
        invariant Removed(old(runner.staged), runner.staged, ToSet(pkgs[..i]))
      {
        assert pkgs[..i + 1] == pkgs[..i] + [pkgs[i]];
        runner.Revert(pkgs[i]);
      }
      assert pkgs[..|pkgs|] == pkgs;
    }

    /** Phase 1: stage all packages; on the first failure revert them all. */
    method StageAll(names: seq<string>, entries: map<string, PkgEntry>)
      returns (ok: bool, ghost seen: seq<bool>, ghost results: seq<Package>)
      requires runner.Valid()
      requires Ascending(names) && forall n :: n in names ==> n in entries && entries[n].Pkg?
      modifies runner
      ensures runner.Valid()
      ensures StagedUpTo(old(runner.committed), old(runner.staged), runner.committed, runner.staged, names, |names|)
      ensures AppearsFor(old(runner.committed), runner.committed, entries)
      ensures old(runner.faults) <= runner.faults && (ok ==> runner.faults == old(runner.faults))
      ensures |seen| <= |names| && Unread(seen) == runner.unread - old(runner.unread)
      ensures ok ==> |results| == |names| && AllStaged(names, entries, runner.gen, old(runner.committed), old(runner.staged), seen, results)
      ensures !ok && runner.faults == old(runner.faults) ==>
                var k := |seen| - 1;
                k >= 0 && OneStaged(names[k], entries, runner.gen, old(runner.committed), old(runner.staged), seen[k], None)
      ensures ok ==> Shows(runner.committed, runner.staged, names, results)
      ensures !ok ==> Unstaged(old(runner.staged), runner.staged, names, [], false)
    {
      ghost var c0, s0 := runner.committed, runner.staged;
      seen, results := [], [];
      for i := 0 to |names|
        invariant runner.Valid() && runner.faults == old(runner.faults)
        invariant |results| == i && Progress(names, entries, runner.gen, c0, s0, runner.committed, runner.staged, seen, results)
        invariant Unread(seen) == runner.unread - old(runner.unread)
      {
        ghost var c1, s1 := runner.committed, runner.staged;
        ghost var read;
        ok, read := StageNext(names, i, entries, c0, s0);
        UnreadSnoc(seen, read);
        if !ok {
          seen := seen + [read];
          Unstage(names, i, c0, s0);
          UnstagedAt(s0, runner.staged, names, i + 1);
          return;
        }
        ProgressSnoc(names, entries, runner.gen, c0, s0, c1, s1, runner.committed, runner.staged, seen, results, read);
        seen := seen + [read];
        results := results + [runner.View(names[i])];
      }
      ok := true;
    }

    /** One more package, judged by what was there before phase 1. */
    method StageNext(names: seq<string>, i: nat, entries: map<string, PkgEntry>,
                     ghost c0: map<string, Package>, ghost s0: map<string, Package>)
      returns (ok: bool, ghost read: bool)
      requires runner.Valid() && Ascending(names) && i < |names| && forall n :: n in names ==> n in entries && entries[n].Pkg?
      requires StagedUpTo(c0, s0, runner.committed, runner.staged, names, i) && AppearsFor(c0, runner.committed, entries)
      modifies runner
      ensures runner.Valid()
      ensures StagedUpTo(c0, s0, runner.committed, runner.staged, names, i + 1) && AppearsFor(c0, runner.committed, entries)
      ensures SameSections(old(runner.committed), runner.committed) && SameOutside(old(runner.staged), runner.staged, {names[i]})
      ensures ok ==> OneStaged(names[i], entries, runner.gen, c0, s0, read, Some(runner.View(names[i])))
      ensures old(runner.faults) <= runner.faults && (ok ==> runner.faults == old(runner.faults))
      ensures runner.unread == old(runner.unread) + if read then 0 else 1
      ensures !ok && runner.faults == old(runner.faults) ==> OneStaged(names[i], entries, runner.gen, c0, s0, read, None)
    {
      ghost var c1, s1 := runner.committed, runner.staged;
      StillFound(c0, s0, c1, s1, names, i);
      ok, read := StagePackage(names[i], entries[names[i]].cfg);
      AppearsMore(c0, c1, runner.committed, entries, names[i]);
      StagedUpToSnoc(c0, s0, c1, s1, runner.committed, runner.staged, names, i);
    }

    /** Revert everything staged so far and the package that failed. */
    method Unstage(names: seq<string>, i: nat, ghost c0: map<string, Package>, ghost s0: map<string, Package>)
      requires runner.Valid() && i < |names|
      requires StagedUpTo(c0, s0, runner.committed, runner.staged, names, i + 1)
      modifies runner`staged
      ensures runner.Valid()
      ensures StagedUpTo(c0, s0, runner.committed, runner.staged, names, |names|)
      ensures ClearedUpTo(s0, runner.staged, names, i + 1)
    {
      assert names[..i + 1] == names[..i] + [names[i]];
      assert names[..|names|] == names;
      RevertAll(names[..i]);
      runner.Revert(names[i]);
    }

    /** Phase 2: commit in order; on the first failure revert that package and the rest. */
    method CommitAll(names: seq<string>) returns (committed: seq<string>, ok: bool)
      requires runner.Valid() && Ascending(names)
      modifies runner
      ensures runner.Valid()
      ensures committed <= names && (ok <==> committed == names)
      ensures forall p :: p in runner.committed <==> p in old(runner.committed)
      ensures runner.unread == old(runner.unread) && old(runner.faults) <= runner.faults && (ok <==> runner.faults == old(runner.faults))
      ensures CommittedUpTo(old(runner.committed), old(runner.staged), runner.committed, names, |committed|)
      ensures Removed(old(runner.staged), runner.staged, ToSet(names))
    {
      committed := [];
      for i := 0 to |names|
        invariant runner.Valid() && runner.faults == old(runner.faults) && runner.unread == old(runner.unread)
        invariant committed == names[..i]
        invariant forall p :: p in runner.committed <==> p in old(runner.committed)
        invariant CommittedUpTo(old(runner.committed), old(runner.staged), runner.committed, names, i)
        invariant Removed(old(runner.staged), runner.staged, ToSet(names[..i]))
      {
        var pkg := names[i];
        assert names[..i + 1] == names[..i] + [pkg];
        ghost var c1, s1 := runner.committed, runner.staged;
        ok := runner.Commit(pkg);
        if !ok {
          RevertFrom(names, i, old(runner.staged));
          return committed, false;
        }
        CommittedSnoc(old(runner.committed), old(runner.staged), c1, s1, runner.committed, names, i);
        committed := committed + [pkg];
      }
      assert names[..|names|] == names;
      return committed, true;
    }

    /** Revert the package whose commit failed and the remaining ones. */
    method RevertFrom(names: seq<string>, i: nat, ghost s0: map<string, Package>)
      requires runner.Valid() && i < |names| && Removed(s0, runner.staged, ToSet(names[..i]))
      modifies runner`staged
      ensures runner.Valid()
      ensures Removed(s0, runner.staged, ToSet(names))
    {
      runner.Revert(names[i]);
      RevertAll(names[i + 1..]);
      assert names == names[..i] + [names[i]] + names[i + 1..];
    }

    /** The payload must be an object, and every key that is no meta-key must hold a package config. */
    method Decode(payload: Payload) returns (ok: bool)
      ensures ok <==> Decodes(payload)
    {
      if payload.NotAnObject? {
        return false;
      }
      var rest := set k | k in payload.entries && !MetaKey(k);
      while rest != {}
        invariant rest <= set k | k in payload.entries && !MetaKey(k)
        invariant forall k :: k in payload.entries && !MetaKey(k) && k !in rest ==> payload.entries[k].Pkg?
        decreases |rest|
      {
        var k :| k in rest;
        if payload.entries[k].NotAPackage? {
          return false;
        }
        rest := rest - {k};
      }
      return true;
    }

    /**
     Stage everything, then commit in name order. Whatever fails, exactly the returned packages hold
     their staged content, every other package holds the sections it held before, and this call leaves
     nothing staged of its own; what was staged before it survives only for the packages a staging failure spared.
     misread are the packages whose sections could not be read although they have a file. Unless some other operation
     failed that could have been done, Apply succeeds exactly if the payload decodes and every package can be staged.
     */
    method Apply(payload: Payload) returns (committed: seq<string>, ok: bool, ghost misread: set<string>)
      requires runner.Valid()
      modifies runner
      ensures runner.Valid()
      ensures !Decodes(payload) ==>
                !ok && committed == [] && runner.committed == old(runner.committed) && runner.staged == old(runner.staged)
      ensures Decodes(payload) ==> committed <= PackageNames(payload) && (ok <==> committed == PackageNames(payload))
      ensures Decodes(payload) ==> misread <= ToSet(PackageNames(payload))
      ensures Decodes(payload) ==> forall p :: p in committed ==>
                StageRead(p !in misread, old(runner.View(p)), ConfigOf(payload, p), runner.gen)
                == Some(SectionsIn(runner.committed, p))
      ensures Decodes(payload) ==> AppearsFor(old(runner.committed), runner.committed, payload.entries)
      ensures |misread| == runner.unread - old(runner.unread)
      ensures old(runner.faults) <= runner.faults && (ok ==> runner.faults == old(runner.faults))
      ensures runner.faults == old(runner.faults) ==>
                (ok <==> Stageable(payload, old(runner.committed), old(runner.staged), misread, runner.gen))
      ensures runner.faults == old(runner.faults) && Orderly(old(runner.committed), old(runner.staged), runner.gen) ==>
                (ok <==> Applicable(payload))
      ensures forall p :: p !in committed ==> SectionsIn(runner.committed, p) == SectionsIn(old(runner.committed), p)
      ensures Decodes(payload) ==> TouchesOnly(old(runner.committed), runner.committed, ToSet(PackageNames(payload)))
      ensures Decodes(payload) ==> SameOutside(old(runner.staged), runner.staged, ToSet(PackageNames(payload)))
      ensures Decodes(payload) ==> Unstaged(old(runner.staged), runner.staged, PackageNames(payload), committed, ok)
      ensures Decodes(payload) && (ok || committed != []) ==> forall p :: p in PackageNames(payload) ==> p !in runner.staged
      ensures forall p :: p in runner.staged ==> p in old(runner.staged) && runner.staged[p] == old(runner.staged)[p]
    {
      ok := Decode(payload);
      if !ok {
        NotApplicable(payload);
        return [], false, {};
      }
      committed, ok, misread := ApplyDecoded(payload);
      UnstagedMeans(old(runner.staged), runner.staged, PackageNames(payload), committed, ok);
      if Orderly(old(runner.committed), old(runner.staged), runner.gen) {
        ApplicableExactly(payload, old(runner.committed), old(runner.staged), misread, runner.gen);
      }
    }

    method ApplyDecoded(payload: Payload) returns (committed: seq<string>, ok: bool, ghost misread: set<string>)
      requires runner.Valid() && Decodes(payload)
      modifies runner
      ensures runner.Valid()
      ensures committed <= PackageNames(payload) && (ok <==> committed == PackageNames(payload))
      ensures misread <= ToSet(PackageNames(payload)) && |misread| == runner.unread - old(runner.unread)
      ensures forall p :: p in committed ==>
                StageRead(p !in misread, old(runner.View(p)), ConfigOf(payload, p), runner.gen)
                == Some(SectionsIn(runner.committed, p))
      ensures AppearsFor(old(runner.committed), runner.committed, payload.entries)
      ensures old(runner.faults) <= runner.faults && (ok ==> runner.faults == old(runner.faults))
      ensures runner.faults == old(runner.faults) ==>
                (ok <==> Stageable(payload, old(runner.committed), old(runner.staged), misread, runner.gen))
      ensures forall p :: p !in committed ==> SectionsIn(runner.committed, p) == SectionsIn(old(runner.committed), p)
      ensures TouchesOnly(old(runner.committed), runner.committed, ToSet(PackageNames(payload)))
      ensures Unstaged(old(runner.staged), runner.staged, PackageNames(payload), committed, ok)
    {
      var pkgNames := PackageNames(payload);
      ghost var seen, results := [], [];
      ok, seen, results := StageAll(pkgNames, payload.entries);
      misread := Misread(pkgNames, seen);
      MisreadCount(pkgNames, seen);
      if ok {
        committed, ok := CommitStaged(pkgNames, payload.entries, old(runner.committed), old(runner.staged), seen, results);
        if ok {
          StagedWas(payload, old(runner.committed), old(runner.staged), misread, runner.gen, runner.committed);
        }
      } else {
        committed := [];
        if runner.faults == old(runner.faults) {
          StoppedWas(payload, old(runner.committed), old(runner.staged), runner.gen, seen);
        }
      }
    }

    /** Phase 2 after a successful phase 1, from the files and deltas there were before it. */
    method CommitStaged(names: seq<string>, ghost entries: map<string, PkgEntry>, ghost c0: map<string, Package>,
                        ghost s0: map<string, Package>, ghost seen: seq<bool>, ghost results: seq<Package>)
      returns (committed: seq<string>, ok: bool)
      requires runner.Valid() && Ascending(names)
      requires |names| == |results| && AllStaged(names, entries, runner.gen, c0, s0, seen, results) && Shows(runner.committed, runner.staged, names, results)
      requires AppearsFor(c0, runner.committed, entries)
      requires StagedUpTo(c0, s0, runner.committed, runner.staged, names, |names|)
      modifies runner
      ensures runner.Valid()
      ensures committed <= names && (ok <==> committed == names)
      ensures AppearsFor(c0, runner.committed, entries)
      ensures runner.unread == old(runner.unread) && old(runner.faults) <= runner.faults && (ok <==> runner.faults == old(runner.faults))
      ensures forall p :: p in committed ==>
                OneStaged(p, entries, runner.gen, c0, s0, p !in Misread(names, seen), Some(SectionsIn(runner.committed, p)))
      ensures forall p :: p !in committed ==> SectionsIn(runner.committed, p) == SectionsIn(c0, p)
      ensures TouchesOnly(c0, runner.committed, ToSet(names)) && Unstaged(s0, runner.staged, names, committed, ok)
    {
      ghost var c1, s1 := runner.committed, runner.staged;
      committed, ok := CommitAll(names);
      assert committed == names[..|committed|] && names[..|names|] == names;
      CommittedHoldStaged(c0, s0, c1, s1, runner.committed, names, entries, runner.gen, seen, results, |committed|);
      OthersHold(c0, s0, c1, s1, runner.committed, names, |committed|);
      AllCleared(s0, s1, runner.staged, names, committed, ok);
    }
  }
}
