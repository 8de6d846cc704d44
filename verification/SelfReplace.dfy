/**
 * Replacing the installer's own executable while it may be running, and what each way out of that leaves
 * (installer/selfupdate.go:137-177).
 */
module SelfReplace {
  import opened Options
  import opened Disks

  /** What a replacement reports: success with the name of an old image it could not remove, or an error. */
  datatype Outcome =
    | Replaced(left: Option<Path>)
    | NotStaged
    | NoName
    | Restored
    | Stranded(at: Path)

  /**
   * A state a replacement may pass through or be interrupted in: no other file has changed, and either the path
   * holds the old bytes or all the new ones, or the old bytes are at one of the aside names, one that was free.
   */
  ghost predicate Recoverable(before: Files<Path>, s: Files<Path>, path: Path, newExe: Path, names: seq<Path>) {
    && (forall p :: p != path && p in before ==> Holds(s, p, before[p]))
    && (path in before ==>
          || Holds(s, path, before[path])
          || (newExe in before && Holds(s, path, before[newExe]))
          || exists n :: n in names && n !in before && Holds(s, n, before[path]))
  }

  /** What each outcome leaves on the disk; `staged` is the temporary file, which a failure may leave behind. */
  ghost predicate Leaves(before: Files<Path>, after: Files<Path>, path: Path, newExe: Path, staged: Path, names: seq<Path>,
                         outcome: Outcome)
  {
    match outcome
    case Replaced(left) =>
      && path in before && newExe in before
      && (left.Some? ==> left.value in names && left.value !in before)
      && after == (if left.Some? then before[left.value := before[path]] else before)[path := before[newExe]]
    case Stranded(at) =>
      && path in before && at in names && at !in before
      && SameBut(Moved(before, path, at), after, staged)
    case _ =>
      SameBut(before, after, staged)
  }

  /** Puts a verified copy of the new executable at the temporary name. */
  method Stage(disk: Disk<Path>, newExe: Path, staged: Path) returns (ok: bool)
    requires disk.Valid() && staged !in disk.files && staged != newExe
    requires forall s :: SameBut(disk.files, s, staged) ==> disk.safe(s)
    modifies disk
    ensures disk.Valid() && disk.faults >= old(disk.faults)
    ensures SameBut(old(disk.files), disk.files, staged)
    ensures ok ==> newExe in old(disk.files) && Holds(disk.files, staged, old(disk.files)[newExe])
    ensures disk.faults == old(disk.faults) && newExe in old(disk.files) ==> ok
  {
    var taken;
    ok, taken := disk.Create(staged);
    if !ok {
      return;
    }
    ok := disk.Copy(newExe, staged);
    if ok {
      ok := disk.Identical(newExe, staged);
    }
    if !ok {
      var _ := disk.Remove(staged);
    }
  }

  /** How many operations have to fail for an outcome once the new image is staged. */
  function Failures(outcome: Outcome): nat {
    match outcome
    case Replaced(left) => if left.Some? then 1 else 0
    case Restored => 1
    case Stranded(_) => 2
    case _ => 0
  }

  /**
   * Tries one aside name: moves the old image there and the staged one in, or moves the old one back. None means
   * that the name was taken or the move refused, and that nothing has changed.
   */
  method TryName(disk: Disk<Path>, path: Path, staged: Path, name: Path) returns (tried: Option<Outcome>)
    requires disk.Valid() && staged in disk.files
    requires staged != path && staged != name && path != name
    requires forall s :: Swapping(disk.files, s, path, staged, name) ==> disk.safe(s)
    modifies disk
    ensures disk.Valid() && disk.faults >= old(disk.faults)
    ensures tried.None? ==> disk.files == old(disk.files)
    ensures tried.Some? ==> path in old(disk.files) && name !in old(disk.files)
                            && Swapped(old(disk.files), disk.files, path, staged, name, tried.value)
    ensures disk.faults == old(disk.faults) && path in old(disk.files) && name !in old(disk.files)
            ==> tried == Some(Replaced(None))
    ensures tried.Some? ==> disk.faults >= old(disk.faults) + Failures(tried.value)
  {
    var free := disk.IsFree(name);
    if !free {
      return None;
    }
    var moved := disk.Rename(path, name);
    if !moved {
      return None;
    }
    var installed := disk.Rename(staged, path);
    if installed {
      var removed := disk.Remove(name);
      return Some(Replaced(if removed then None else Some(name)));
    }
    var rolledBack := disk.Rename(name, path);
    return Some(if rolledBack then Restored else Stranded(name));
  }

  /** The states one try goes through. */
  ghost predicate Swapping(before: Files<Path>, s: Files<Path>, path: Path, staged: Path, name: Path)
    requires staged in before
  {
    || s == before
    || (path in before && name !in before
        && (s == Moved(before, path, name)
            || s == (before - {staged})[path := before[staged]]
            || s == (before - {staged})[path := before[staged]][name := before[path]]))
  }

  ghost predicate Swapped(before: Files<Path>, after: Files<Path>, path: Path, staged: Path, name: Path, outcome: Outcome)
    requires staged in before && path in before
  {
    match outcome
    case Replaced(left) =>
      && (left.Some? ==> left.value == name)
      && after == (if left.Some? then (before - {staged})[name := before[path]] else before - {staged})
         [path := before[staged]]
    case Stranded(at) => at == name && after == Moved(before, path, name)
    case Restored => after == before
    case _ => false
  }

  ghost predicate Staged(before: Files<Path>, ready: Files<Path>, newExe: Path, staged: Path) {
    && staged !in before && SameBut(before, ready, staged)
    && newExe in before && Holds(ready, staged, before[newExe])
  }

  lemma StagedMeans(before: Files<Path>, ready: Files<Path>, newExe: Path, staged: Path)
    requires staged !in before && SameBut(before, ready, staged)
    requires newExe in before && Holds(ready, staged, before[newExe])
    ensures Staged(before, ready, newExe, staged)
    ensures staged in ready && forall p :: p in ready <==> p in before || p == staged
  {
  }

  lemma NothingLeft(before: Files<Path>, after: Files<Path>, path: Path, newExe: Path, staged: Path, names: seq<Path>)
    requires SameBut(before, after, staged)
    ensures Leaves(before, after, path, newExe, staged, names, NotStaged)
    ensures Leaves(before, after, path, newExe, staged, names, NoName)
  {
  }

  lemma StagingIsRecoverable(before: Files<Path>, s: Files<Path>, path: Path, newExe: Path, staged: Path, names: seq<Path>)
    requires SameBut(before, s, staged) && staged !in before && staged != path
    ensures Recoverable(before, s, path, newExe, names)
  {
  }

  /** Dropping the temporary file, the last thing every replacement does, is safe and takes nothing else away. */
  lemma LeavesIsRecoverable(before: Files<Path>, after: Files<Path>, path: Path, newExe: Path, staged: Path, names: seq<Path>,
                            outcome: Outcome)
    requires Leaves(before, after, path, newExe, staged, names, outcome)
    requires staged !in before && staged != path && staged !in names && path !in names
    ensures Recoverable(before, after, path, newExe, names) && Recoverable(before, after - {staged}, path, newExe, names)
    ensures Leaves(before, after - {staged}, path, newExe, staged, names, outcome)
  {
    if outcome.Replaced? {
      assert after - {staged} == after;
    }
  }

  /** Each state the renames pass through is recoverable. */
  lemma SwappingIsRecoverable(before: Files<Path>, ready: Files<Path>, s: Files<Path>, path: Path, newExe: Path, staged: Path,
                              names: seq<Path>, i: nat)
    requires Staged(before, ready, newExe, staged) && i < |names| && staged != path && staged != names[i]
    requires path != names[i] && Swapping(ready, s, path, staged, names[i])
    ensures Recoverable(before, s, path, newExe, names)
  {
    assert names[i] in names;
  }

  /** What each way out of the loop leaves, seen from before staging. */
  lemma SwappedLeaves(before: Files<Path>, ready: Files<Path>, after: Files<Path>, path: Path, newExe: Path, staged: Path,
                      names: seq<Path>, i: nat, outcome: Outcome)
    requires Staged(before, ready, newExe, staged) && i < |names| && staged != path && staged != names[i]
    requires path != names[i] && path in ready && names[i] !in ready
    requires Swapped(ready, after, path, staged, names[i], outcome)
    ensures Leaves(before, after, path, newExe, staged, names, outcome)
    ensures outcome.Replaced? ==> staged !in after
  {
    assert before == ready - {staged};
    assert names[i] in names;
  }

  /**
   * In every state an interruption can leave, no other file has changed and the path holds the old or all the new
   * bytes, or the old ones are at an aside name that was free; nil means the new bytes are at the path; without
   * faults it succeeds.
   */
  method Replace(disk: Disk<Path>, path: Path, newExe: Path, staged: Path, names: seq<Path>) returns (outcome: Outcome)
    requires disk.Valid() && staged !in disk.files
    requires staged != path && staged != newExe && staged !in names && path !in names
    requires forall s :: Recoverable(disk.files, s, path, newExe, names) ==> disk.safe(s)
    modifies disk
    ensures disk.Valid() && disk.faults >= old(disk.faults)
    ensures Leaves(old(disk.files), disk.files, path, newExe, staged, names, outcome)
    ensures (disk.faults == old(disk.faults) && path in old(disk.files) && newExe in old(disk.files)
             && (exists n :: n in names && n !in old(disk.files))
             ==> outcome == Replaced(None))
    ensures outcome.Stranded? ==> disk.faults >= old(disk.faults) + 2
    ensures outcome.Restored? || (outcome.Replaced? && outcome.left.Some?) ==> disk.faults > old(disk.faults)
  {
    assert Failures(Restored) == 1 && forall n :: Failures(Stranded(n)) == 2 && Failures(Replaced(Some(n))) == 1;
    hide *;
    forall s | SameBut(disk.files, s, staged)
      ensures disk.safe(s)
    {
      StagingIsRecoverable(disk.files, s, path, newExe, staged, names);
    }
    var ok := Stage(disk, newExe, staged);
    NothingLeft(old(disk.files), disk.files, path, newExe, staged, names);
    if !ok {
      return NotStaged;
    }
    ghost var ready := disk.files;
    StagedMeans(old(disk.files), ready, newExe, staged);
    outcome := NoName;
    for i := 0 to |names|
      invariant disk.Valid() && disk.files == ready && disk.faults >= old(disk.faults)
      invariant disk.faults == old(disk.faults) && path in ready ==> forall k :: 0 <= k < i ==> names[k] in ready
    {
      forall s | Swapping(ready, s, path, staged, names[i])
        ensures disk.safe(s)
      {
        SwappingIsRecoverable(old(disk.files), ready, s, path, newExe, staged, names, i);
      }
      var tried := TryName(disk, path, staged, names[i]);
      if tried.Some? {
        SwappedLeaves(old(disk.files), ready, disk.files, path, newExe, staged, names, i, tried.value);
        outcome := tried.value;
        break;
      }
    }
    LeavesIsRecoverable(old(disk.files), disk.files, path, newExe, staged, names, outcome);
    var _ := disk.Remove(staged);
  }
}
