/**
 The device store behind UCIRunner (internal/uci/runner.go): the committed package files and the
 uncommitted deltas on top of them. Every call may fail although it could have been done; that is
 counted, so that the contracts say when a call succeeds. A failed write may leave the staged view
 of its own package in any state, but never touches a committed file.
 */
module Runner {
  import opened Wrappers
  import opened Uci

  /** The two maps agree on every key outside names. */
  ghost predicate SameOutside<V>(before: map<string, V>, after: map<string, V>, names: set<string>)
  {
    forall p :: p !in names ==> (p in before <==> p in after) && (p in before ==> before[p] == after[p])
  }

  /** The sections a package file holds; a missing file holds none. */
  function SectionsIn(files: map<string, Package>, pkg: string): Package
  {
    if pkg in files then files[pkg] else []
  }

  /** A package as uci shows it: the file with the staged deltas applied. */
  function ViewIn(committed: map<string, Package>, staged: map<string, Package>, pkg: string): Package
  {
    if pkg in staged then staged[pkg] else SectionsIn(committed, pkg)
  }

  /** All that apply may do to the files: packages outside names keep their files, no file disappears. */
  ghost predicate TouchesOnly(before: map<string, Package>, after: map<string, Package>, names: set<string>)
  {
    (forall p :: p in before ==> p in after) && SameOutside(before, after, names)
  }

  /** No package's sections changed; at most an empty file appeared. */
  ghost predicate SameSections(before: map<string, Package>, after: map<string, Package>)
  {
    forall p :: SectionsIn(before, p) == SectionsIn(after, p)
  }

  /** after is before without the names. */
  ghost predicate Removed<V>(before: map<string, V>, after: map<string, V>, names: set<string>)
  {
    && (forall p :: p in after <==> p in before && p !in names)
    && (forall p :: p in after ==> after[p] == before[p])
  }

  class UCIRunner {
    /** Package files under /etc/config. */
    var committed: map<string, Package>
    /** Packages with uncommitted deltas, as they look with the deltas applied. */
    var staged: map<string, Package>
    const gen: IdGen
    /** How many operations failed although they were possible: reads of a package that has a file, and all others. */
    ghost var unread: nat
    ghost var faults: nat

    constructor (files: map<string, Package>, gen: IdGen)
      ensures Valid() && committed == files && staged == map[] && this.gen == gen
    {
      committed, staged, this.gen, unread, faults := files, map[], gen, 0, 0;
    }

    /** libuci stages nothing in a package that has no file. */
    ghost predicate Valid()
      reads this
    {
      forall p :: p in staged ==> p in committed
    }

    function View(pkg: string): Package
      reads this
    {
      ViewIn(committed, staged, pkg)
    }

    /** Fails for a package without a file, and may fail for any other reason. */
    method GetSections(pkg: string) returns (r: Result<Package>)
      requires Valid()
      modifies this`unread
      ensures unread == old(unread) + if r.Err? && pkg in committed then 1 else 0
      ensures r.Ok? ==> pkg in committed
      ensures r.Ok? ==> r.value == View(pkg)
    {
      var works: bool := *;
      if pkg !in committed {
        return Err;
      }
      if !works {
        unread := unread + 1;
        return Err;
      }
      return Ok(View(pkg));
    }

    method EnsurePackage(pkg: string) returns (ok: bool)
      requires Valid()
      modifies this`committed, this`faults
      ensures Valid()
      ensures old(faults) <= faults && (ok <==> faults == old(faults))
      ensures TouchesOnly(old(committed), committed, {pkg}) && SameSections(old(committed), committed)
      ensures ok ==> pkg in committed
    {
      ok := *;
      if !ok {
        faults := faults + 1;
      }
      if ok && pkg !in committed {
        committed := committed[pkg := []];
      }
    }

    /** The common shape of a write: next is the package after it, None when it cannot be done. */
    method Write(pkg: string, next: Option<Package>) returns (ok: bool)
      requires Valid()
      modifies this`staged, this`faults
      ensures Valid()
      ensures SameOutside(old(staged), staged, {pkg})
      ensures old(faults) <= faults && (ok <==> pkg in committed && next.Some? && faults == old(faults))
      ensures ok ==> View(pkg) == next.value
    {
      var works: bool := *;
      if pkg !in committed {
        return false;
      }
      if next.Some? {
        if works {
          staged := staged[pkg := next.value];
          return true;
        }
        faults := faults + 1;
      }
      var anything: Package := *;
      staged := staged[pkg := anything];
      return false;
    }

    method Add(pkg: string, sectionType: string, name: string) returns (r: Result<string>)
      requires Valid()
      modifies this`staged, this`faults
      ensures Valid()
      ensures SameOutside(old(staged), staged, {pkg})
      ensures r.Ok? ==> r.value == AddedId(old(View(pkg)), name, gen)
      ensures r.Ok? ==> View(pkg) == AddSection(old(View(pkg)), sectionType, name, gen)
      ensures old(faults) <= faults && (r.Ok? <==> pkg in committed && faults == old(faults))
    {
      var before := View(pkg);
      var ok := Write(pkg, Some(AddSection(before, sectionType, name, gen)));
      r := if ok then Ok(AddedId(before, name, gen)) else Err;
    }

    method SetValues(pkg: string, sectionID: string, values: Options) returns (ok: bool)
      requires Valid()
      modifies this`staged, this`faults
      ensures Valid()
      ensures SameOutside(old(staged), staged, {pkg})
      ensures ok ==> SetOptions(old(View(pkg)), sectionID, values) == Some(View(pkg))
      ensures old(faults) <= faults && (ok <==> pkg in committed && SetOptions(old(View(pkg)), sectionID, values).Some? && faults == old(faults))
    {
      ok := Write(pkg, SetOptions(View(pkg), sectionID, values));
    }

    method DeleteOptions(pkg: string, sectionID: string, options: seq<string>) returns (ok: bool)
      requires Valid()
      modifies this`staged, this`faults
      ensures Valid()
      ensures SameOutside(old(staged), staged, {pkg})
      ensures ok ==> DropOptions(old(View(pkg)), sectionID, set k | k in options) == Some(View(pkg))
      ensures old(faults) <= faults && (ok <==> pkg in committed && DropOptions(old(View(pkg)), sectionID, set k | k in options).Some? && faults == old(faults))
    {
      ok := Write(pkg, DropOptions(View(pkg), sectionID, set k | k in options));
    }

    method Delete(pkg: string, sectionID: string) returns (ok: bool)
      requires Valid()
      modifies this`staged, this`faults
      ensures Valid()
      ensures SameOutside(old(staged), staged, {pkg})
      ensures ok ==> DropSection(old(View(pkg)), sectionID) == Some(View(pkg))
      ensures old(faults) <= faults && (ok <==> pkg in committed && DropSection(old(View(pkg)), sectionID).Some? && faults == old(faults))
    {
      ok := Write(pkg, DropSection(View(pkg), sectionID));
    }

    method RetypeExisting(pkg: string, sectionID: string, sectionType: string) returns (ok: bool)
      requires Valid()
      modifies this`staged, this`faults
      ensures Valid()
      ensures SameOutside(old(staged), staged, {pkg})
      ensures ok ==> Retype(old(View(pkg)), sectionID, sectionType) == Some(View(pkg))
      ensures old(faults) <= faults && (ok <==> pkg in committed && Retype(old(View(pkg)), sectionID, sectionType).Some? && faults == old(faults))
    {
      ok := Write(pkg, Retype(View(pkg), sectionID, sectionType));
    }

    /** Committing a package with nothing staged succeeds and changes nothing. */
    method Commit(pkg: string) returns (ok: bool)
      requires Valid()
      modifies this
      ensures Valid()
      ensures unread == old(unread) && old(faults) <= faults && (ok <==> faults == old(faults))
      ensures !ok ==> staged == old(staged) && committed == old(committed)
      ensures ok ==> Removed(old(staged), staged, {pkg})
      ensures TouchesOnly(old(committed), committed, {pkg})
      ensures ok ==> SectionsIn(committed, pkg) == old(View(pkg))
      ensures forall p :: p in committed <==> p in old(committed)
    {
      ok := *;
      if !ok {
        faults := faults + 1;
      }
      if ok && pkg in staged {
        committed := committed[pkg := staged[pkg]];
        staged := staged - {pkg};
      }
    }

    method Revert(pkg: string)
      requires Valid()
      modifies this`staged
      ensures Valid()
      ensures Removed(old(staged), staged, {pkg})
    {
      staged := staged - {pkg};
    }
  }

  method CreateOrRetype(runner: UCIRunner, pkg: string, sectionID: string, wantType: string, existing: Option<Section>)
    returns (ok: bool)
    requires runner.Valid()
    modifies runner`staged, runner`faults
    ensures runner.Valid()
    ensures SameOutside(old(runner.staged), runner.staged, {pkg})
    ensures old(runner.faults) <= runner.faults && (ok ==> runner.faults == old(runner.faults))
    ensures ok ==> CreatedOrRetyped(existing, old(runner.View(pkg)), wantType, sectionID, runner.gen) == Some(runner.View(pkg))
    ensures !ok && runner.faults == old(runner.faults) && pkg in runner.committed ==>
              CreatedOrRetyped(existing, old(runner.View(pkg)), wantType, sectionID, runner.gen) == None
  {
    if existing.None? {
      var r := runner.Add(pkg, wantType, sectionID);
      ok := r.Ok?;
    } else if existing.value.typ != wantType {
      ok := runner.RetypeExisting(pkg, sectionID, wantType);
    } else {
      ok := true;
    }
  }
}
