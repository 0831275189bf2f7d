/** Backup and restore of the package files around a config_apply (internal/agent/rollback.go). */
module Rollback {
  import opened Wrappers
  import opened Uci
  import opened Runner
  import opened Applier

  /** /etc/config: a file's content is the sections it holds, so an empty file is [], not absence. */
  type Disk = map<string, Package>

  /** What a package file held, None when there was no file. */
  type Backup = map<string, Option<Package>>

  function BackupOf(disk: Disk, pkgs: set<string>): Backup
  {
    map p | p in pkgs :: if p in disk then Some(disk[p]) else None
  }

  /** restore: write back what was there, remove what was not. */
  function Restored(disk: Disk, backup: Backup, pkgs: set<string>): Disk
  {
    map p | p in disk.Keys + pkgs && (p in pkgs ==> p in backup && backup[p].Some?)
      :: if p in pkgs then backup[p].value else disk[p]
  }

  /** Restoring a backup brings the whole directory back exactly when nothing outside it changed. */
  lemma RestoreUndoes(before: Disk, after: Disk, pkgs: set<string>)
    ensures Restored(after, BackupOf(before, pkgs), pkgs) == before <==> SameOutside(before, after, pkgs)
  {
    var back := Restored(after, BackupOf(before, pkgs), pkgs);
    if SameOutside(before, after, pkgs) {
      assert back == before;
    } else {
      var p :| p !in pkgs && !((p in before <==> p in after) && (p in before ==> before[p] == after[p]));
      assert p in back <==> p in after;
    }
  }

  method BackupConfigFiles(dir: UCIRunner, packages: seq<string>) returns (r: Result<Backup>)
    modifies dir`faults
    ensures old(dir.faults) <= dir.faults && (r.Ok? <==> dir.faults == old(dir.faults))
    ensures r.Ok? ==> r.value == BackupOf(dir.committed, ToSet(packages))
  {
    var data: Backup := map[];
    for i := 0 to |packages|
      invariant dir.faults == old(dir.faults)
      invariant forall p :: p in data <==> p in packages[..i]
      invariant forall p :: p in data ==> data[p] == if p in dir.committed then Some(dir.committed[p]) else None
    {
      var readable: bool := *;
      if packages[i] !in dir.committed {
        data := data[packages[i] := None];
        continue;
      }
      if !readable {
        dir.faults := dir.faults + 1;
        return Err;
      }
      data := data[packages[i] := Some(dir.committed[packages[i]])];
    }
    assert packages[..|packages|] == packages;
    assert data == BackupOf(dir.committed, ToSet(packages));
    return Ok(data);
  }

  function FileAt(disk: Disk, pkg: string): Option<Package>
  {
    if pkg in disk then Some(disk[pkg]) else None
  }

  /**
   Every package is attempted even if one fails: all but the failed ones are as recorded. The file of a failed one
   may be left with anything in it.
   */
  method Restore(dir: UCIRunner, backup: Backup, packages: seq<string>) returns (ok: bool, ghost failed: set<string>)
    modifies dir`committed, dir`faults
    ensures failed <= ToSet(packages) && |failed| <= dir.faults - old(dir.faults)
    ensures ok <==> dir.faults == old(dir.faults)
    ensures SameOutside(Restored(old(dir.committed), backup, ToSet(packages)), dir.committed, failed)
    ensures ok ==> dir.committed == Restored(old(dir.committed), backup, ToSet(packages))
    ensures SameOutside(old(dir.committed), dir.committed, ToSet(packages))
  {
    ok, failed := true, {};
    ghost var goal := Restored(old(dir.committed), backup, ToSet(packages));
    for i := 0 to |packages|
      invariant old(dir.faults) <= dir.faults && (ok <==> dir.faults == old(dir.faults))
      invariant failed <= ToSet(packages) && |failed| <= dir.faults - old(dir.faults)
      invariant forall p :: p !in packages[..i] ==> FileAt(dir.committed, p) == FileAt(old(dir.committed), p)
      invariant forall p :: p in packages[..i] && p !in failed ==> FileAt(dir.committed, p) == FileAt(goal, p)
    {
      var pkg := packages[i];
      var works: bool := *;
      if !works {
        var truncated: bool := *;
        if truncated {
          var left: Package := *;
          dir.committed := dir.committed[pkg := left];
        }
        ok, failed, dir.faults := false, failed + {pkg}, dir.faults + 1;
        continue;
      }
      if pkg !in backup || backup[pkg].None? {
        dir.committed := dir.committed - {pkg};
      } else {
        dir.committed := dir.committed[pkg := backup[pkg].value];
      }
    }
    assert packages[..|packages|] == packages;
    SameFiles(goal, dir.committed, failed);
    SameFiles(old(dir.committed), dir.committed, ToSet(packages));
    if failed == {} {
      NothingOutside(goal, dir.committed);
    }
  }

  lemma SameFiles(a: Disk, b: Disk, names: set<string>)
    requires forall p :: p !in names ==> FileAt(b, p) == FileAt(a, p)
    ensures SameOutside(a, b, names)
  {
    forall p | p !in names ensures (p in a <==> p in b) && (p in a ==> a[p] == b[p]) {
      assert FileAt(b, p) == FileAt(a, p);
    }
  }

  lemma NothingOutside(a: Disk, b: Disk)
    requires SameOutside(a, b, {})
    ensures b == a
  {
    assert forall p :: p in a <==> p in b;
  }
}
