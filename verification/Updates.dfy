/** An installer's updates of its executables over any number of starts (installer/state.go:223-270, 404-491). */
module Updates {
  import opened Options
  import opened Disks
  import opened SetAside
  import SelfReplace

  /** Taking away p, which is not an executable, is safe for one that is there, and for one whose copy is elsewhere. */
  lemma RemovingGuards(l: Layout, s: Files<Path>, images: set<Bytes>, watched: set<Path>, record: seq<Leftover>, p: Path)
    requires l.AllGuarded(s, images, watched, record) && p !in watched
    requires forall x :: x in watched && x !in s && p in s && p in l.Names(x) ==> Claimed(record, x, p, s[p])
    ensures l.AllGuarded(s - {p}, images, watched, record)
  {
    forall x | x in watched
      ensures l.Guarded(s - {p}, images, record, x)
    {
      assert l.Guarded(s, images, record, x);
      if x !in s {
        var n :| n in l.Names(x) && n in s && s[n] in images && !Claimed(record, x, n, s[n]);
        assert n in s - {p};
      }
    }
  }

  /** Moving an image of an executable that is there to a free name guards everything, and so does recording it. */
  lemma MovingGuards(l: Layout, s: Files<Path>, images: set<Bytes>, watched: set<Path>, record: seq<Leftover>,
                     from: Path, to: Path)
    requires l.AllGuarded(s, images, watched, record) && from !in watched && to !in watched && from in s && to !in s
    requires forall x :: x in watched && x !in s ==> from !in l.Names(x)
    ensures l.AllGuarded(Moved(s, from, to), images, watched, record)
  {
    forall x | x in watched
      ensures l.Guarded(Moved(s, from, to), images, record, x)
    {
      assert l.Guarded(s, images, record, x);
      if x !in s {
        var n :| n in l.Names(x) && n in s && s[n] in images && !Claimed(record, x, n, s[n]);
        assert n in Moved(s, from, to) && Moved(s, from, to)[n] == s[n];
      }
    }
  }

  /** An entry for a name that was free when the image was moved there claims no other executable's copy. */
  lemma RecordingGuards(l: Layout, before: Files<Path>, after: Files<Path>, images: set<Bytes>, watched: set<Path>,
                        record: seq<Leftover>, e: Leftover)
    requires l.AllGuarded(before, images, watched, record) && l.AllGuarded(after, images, watched, record)
    requires e.path !in before
    requires forall x :: x in watched && x !in after ==> x !in before
    requires forall x, n :: x in watched && x !in after && n in l.Names(x) && n in before ==> Holds(after, n, before[n])
    ensures l.AllGuarded(after, images, watched, Without(record, e.path) + [e])
  {
    var next := Without(record, e.path) + [e];
    forall x | x in watched
      ensures l.Guarded(after, images, next, x)
    {
      assert l.Guarded(before, images, record, x) && l.Guarded(after, images, record, x);
      if x !in after {
        var n :| n in l.Names(x) && n in before && before[n] in images && !Claimed(record, x, n, before[n]);
        assert Holds(after, n, before[n]) && !Claimed(next, x, n, after[n]);
      }
    }
  }

  class Installer {
    const disk: Disk<Path>
    const layout: Layout
    /** The executables whose fate is followed, and the whole images that may stand at their paths. */
    ghost const watched: set<Path>
    ghost const images: set<Bytes>
    var record: seq<Leftover>

    constructor (disk: Disk<Path>, layout: Layout, ghost watched: set<Path>, ghost images: set<Bytes>)
      requires layout.Sound() && disk.Valid() && watched <= layout.places
      requires forall s :: disk.safe(s) <==> layout.AllKept(s, images, watched)
      requires forall x :: x in watched ==> x in disk.files && disk.files[x] in images
      ensures Valid() && this.disk == disk && this.layout == layout && this.watched == watched && this.images == images
    {
      this.disk, this.layout, this.watched, this.images, record := disk, layout, watched, images, [];
    }

    /** In every state of the disk each watched executable is there or has a whole image at one of its names. */
    ghost predicate Valid()
      reads this, disk
    {
      && layout.Sound() && disk.Valid() && watched <= layout.places
      && (forall s :: disk.safe(s) <==> layout.AllKept(s, images, watched))
      && Tidy(record, layout.places)
      && layout.AllGuarded(disk.files, images, watched, record)
    }

    /** Saves an entry, which may fail; an earlier entry for the same name goes. */
    method RecordSetAside(e: Leftover) returns (ok: bool)
      modifies this`record, disk`faults
      ensures record == if ok then Without(old(record), e.path) + [e] else old(record)
      ensures disk.faults >= old(disk.faults) && (disk.faults == old(disk.faults) ==> ok)
    {
      ok := *;
      if ok {
        record := Without(record, e.path) + [e];
      } else {
        disk.faults := disk.faults + 1;
      }
    }

    /**
     * Replaces the executable at path. A watched one stays watched as long as no entry for another executable
     * claims its present bytes under a name this replacement may use; any other one may be replaced at any time.
     */
    method Update(path: Path, newExe: Path, staged: Path) returns (outcome: SelfReplace.Outcome)
      requires Valid() && path in layout.places
      requires path in watched && newExe in disk.files ==> disk.files[newExe] in images
      requires staged !in disk.files && staged != newExe && staged !in layout.places && staged !in layout.Names(path)
      requires path in watched && path in disk.files ==>
                 forall n :: n in layout.Names(path) ==> !Claimed(record, path, n, disk.files[path])
      modifies this`record, disk
      ensures Valid()
      ensures SelfReplace.Leaves(old(disk.files), disk.files, path, newExe, staged, layout.Names(path), outcome)
      ensures record != old(record) ==>
                outcome.Replaced? && outcome.left.Some? &&
                exists sum :: record == Without(old(record), outcome.left.value) + [Leftover(outcome.left.value, sum, path)]
                              && (sum.Some? ==> sum.value == old(disk.files)[path])
      ensures outcome.Replaced? && outcome.left.Some? && disk.faults == old(disk.faults) + 1 ==>
                record == Without(old(record), outcome.left.value)
                          + [Leftover(outcome.left.value, Some(old(disk.files)[path]), path)]
      ensures outcome.Stranded? ==> disk.faults >= old(disk.faults) + 2
    {
      ghost var before := disk.files;
      GuardedIsKept(layout, before, images, watched, record);
      forall s | SelfReplace.Recoverable(before, s, path, newExe, layout.Names(path))
        ensures disk.safe(s)
      {
        assert path in watched ==> layout.Guarded(before, images, record, path);
        ReplacingKeeps(layout, before, s, images, watched, path, newExe);
      }
      var known, bytes := disk.Read(path);
      outcome := SelfReplace.Replace(disk, path, newExe, staged, layout.Names(path));
      ReplacedGuards(layout, before, disk.files, images, watched, record, path, newExe, staged, outcome);
      if outcome.Replaced? && outcome.left.Some? {
        var e := Leftover(outcome.left.value, if known then Some(bytes) else None, path);
        RecordingGuards(layout, before, disk.files, images, watched, record, e);
        var _ := RecordSetAside(e);
      }
    }

    /** Removes the image of one entry, if its owner is there and its bytes are unchanged. */
    method Retire(e: Leftover) returns (keep: bool)
      requires Valid() && e in record
      modifies disk
      ensures Valid() && disk.faults >= old(disk.faults)
      ensures disk.files == old(disk.files) || disk.files == SweepOne(old(disk.files), e)
      ensures disk.faults == old(disk.faults) ==> disk.files == SweepOne(old(disk.files), e)
      ensures e.owner in old(disk.files) ==> e.owner in disk.files
      ensures !keep ==> e.owner in old(disk.files)
      ensures disk.faults == old(disk.faults) ==> (keep <==> e.owner !in old(disk.files))
    {
      hide Layout.Sound, Layout.AllKept, Layout.AllGuarded;
      var there := disk.IsThere(e.owner);
      if !there {
        return true;
      }
      var readable, bytes := disk.Read(e.path);
      if !readable || e.sum != Some(bytes) {
        return false;
      }
      assert forall x :: x in watched && x !in disk.files && e.path in layout.Names(x) ==>
          Claimed(record, x, e.path, disk.files[e.path]);
      RemovingGuards(layout, disk.files, images, watched, record, e.path);
      GuardedIsKept(layout, disk.files - {e.path}, images, watched, record);
      var removed := disk.Remove(e.path);
      keep := !removed;
    }

    /**
     * Removes the recorded images whose owner is there and whose bytes are unchanged. Everything taken is accounted
     * for by such an entry, and without faults exactly those are taken.
     */
    method Sweep()
      requires Valid()
      modifies this`record, disk
      ensures Valid()
      ensures forall p :: p in old(disk.files) && p !in disk.files ==>
                exists e :: e in old(record) && e.path == p && Owned(old(disk.files), e) && e.owner in disk.files
      ensures forall p :: p in disk.files ==> Holds(old(disk.files), p, disk.files[p])
      ensures forall e :: e in record ==> e in old(record)
      ensures disk.faults == old(disk.faults) ==> disk.files == Swept(old(disk.files), old(record))
      ensures forall e :: e in old(record) && e.owner !in old(disk.files) ==> e in record
      ensures disk.faults == old(disk.faults) ==> forall e :: e in record ==> e.owner !in old(disk.files)
    {
      hide Installer.Valid;
      ghost var before := disk.files;
      var kept: seq<Leftover> := [];
      for i := 0 to |record|
        invariant Valid() && record == old(record) && disk.faults >= old(disk.faults)
        invariant forall e :: e in kept ==> e in record
        invariant forall e :: e in record[..i] && e.owner !in before ==> e in kept
        invariant disk.faults == old(disk.faults) ==> forall e :: e in kept ==> e.owner !in before
        invariant forall e :: e in record && e.owner in before ==> e.owner in disk.files
        invariant forall p :: p in before && p !in disk.files ==>
                    exists e :: e in record && e.path == p && Owned(before, e) && e.owner in disk.files
        invariant forall p :: p in disk.files ==> Holds(before, p, disk.files[p])
        invariant disk.faults == old(disk.faults) ==> Swept(disk.files, record[i..]) == Swept(before, record)
      {
        ghost var now := disk.files;
        var e := record[i];
        assert e in record && record[i..][0] == e && record[i..][1..] == record[i + 1..];
        assert record[..i + 1] == record[..i] + [e];
        OwnersStay(now, e);
        var keep := Retire(e);
        if keep {
          kept := kept + [e];
        }
      }
      assert record[..|record|] == record;
      Forget(kept);
    }

    /** An owner's own path is no recorded one, so taking an image leaves every owner there. */
    lemma OwnersStay(s: Files<Path>, e: Leftover)
      requires Valid() && e in record
      ensures forall f :: f in record && f.owner in s ==> f.owner in SweepOne(s, e)
    {
    }

    /** Saves the entries that are left, which may fail. */
    method Forget(kept: seq<Leftover>)
      requires Valid() && forall e :: e in kept ==> e in record
      modifies this`record, disk`faults
      ensures Valid() && disk.faults >= old(disk.faults)
      ensures record == kept || (record == old(record) && disk.faults > old(disk.faults))
    {
      FewerClaims(layout, disk.files, images, watched, record, kept);
      var saved: bool := *;
      if saved {
        record := kept;
      } else {
        disk.faults := disk.faults + 1;
      }
    }

    /**
     * Removes the images an earlier release kept beside exe, while exe is there; one that cannot be removed moves
     * into the cache and is recorded.
     */
    method RetireLeftovers(exe: Path)
      requires Valid() && exe in layout.places
      modifies this`record, disk
      ensures Valid()
      ensures exe !in old(disk.files) ==> disk.files == old(disk.files)
      ensures forall p :: p in old(disk.files) && p !in layout.Beside(exe) ==> Holds(disk.files, p, old(disk.files)[p])
      ensures exe in layout.beside
      ensures disk.faults == old(disk.faults) && exe in old(disk.files) ==>
                disk.files == old(disk.files) - (set n | n in layout.beside[exe]) && record == old(record)
    {
      var there := disk.IsThere(exe);
      if !there {
        return;
      }
      ghost var before := disk.files;
      var names := layout.Beside(exe);
      for i := 0 to |names|
        invariant Valid() && exe in disk.files && disk.faults >= old(disk.faults)
        invariant forall p :: p in before && p !in names ==> Holds(disk.files, p, before[p])
        invariant disk.faults == old(disk.faults) ==>
                    disk.files == before - (set n | n in names[..i]) && record == old(record)
      {
        assert names[i] in names && names[i] in layout.Names(exe);
        assert names[..i + 1] == names[..i] + [names[i]];
        if names[i] in disk.files {
          RemovingGuards(layout, disk.files, images, watched, record, names[i]);
          GuardedIsKept(layout, disk.files - {names[i]}, images, watched, record);
          var removed := disk.Remove(names[i]);
          if !removed {
            MoveAside(names[i], exe);
          }
        }
      }
      assert names[..|names|] == names;
    }

    /** The image at path lies at the i-th name of the cache, which was free. */
    ghost predicate Aside(before: Files<Path>, after: Files<Path>, path: Path, exe: Path, i: int) {
      && 0 <= i < |layout.Cached(exe)| && layout.Cached(exe)[i] !in before
      && path in before && after == Moved(before, path, layout.Cached(exe)[i])
    }

    method MoveTo(path: Path, to: Path, exe: Path, bytes: Bytes) returns (moved: bool)
      requires Valid() && exe in layout.places && exe in disk.files && path in layout.Beside(exe)
      requires to in layout.Cached(exe) && to !in disk.files && Holds(disk.files, path, bytes)
      modifies this`record, disk
      ensures Valid() && disk.faults >= old(disk.faults) && exe in disk.files
      ensures !moved ==> disk.files == old(disk.files) && record == old(record) && disk.faults > old(disk.faults)
      ensures moved ==> disk.files == Moved(old(disk.files), path, to)
      ensures moved && disk.faults == old(disk.faults) ==>
                record == Without(old(record), to) + [Leftover(to, Some(bytes), exe)]
    {
      assert to in layout.Names(exe) && path in layout.Names(exe);
      ghost var before := disk.files;
      MovingGuards(layout, before, images, watched, record, path, to);
      GuardedIsKept(layout, Moved(before, path, to), images, watched, record);
      moved := disk.Rename(path, to);
      if moved {
        var e := Leftover(to, Some(bytes), exe);
        RecordingGuards(layout, before, disk.files, images, watched, record, e);
        var _ := RecordSetAside(e);
      }
    }

    /** Moves an image that is still in use to the first free name in the cache and records it there. */
    method MoveAside(path: Path, exe: Path)
      requires Valid() && exe in layout.places && exe in disk.files && path in layout.Beside(exe) && path in disk.files
      modifies this`record, disk
      ensures Valid() && disk.faults >= old(disk.faults) && exe in disk.files
      ensures forall p :: p in old(disk.files) && p != path ==> Holds(disk.files, p, old(disk.files)[p])
      ensures disk.files == old(disk.files) || exists i :: Aside(old(disk.files), disk.files, path, exe, i)
      ensures disk.faults == old(disk.faults) && (exists n :: n in layout.Cached(exe) && n !in old(disk.files)) ==>
                exists i :: Aside(old(disk.files), disk.files, path, exe, i)
                            && (forall k :: 0 <= k < i ==> layout.Cached(exe)[k] in old(disk.files))
                            && record == Without(old(record), layout.Cached(exe)[i])
                                         + [Leftover(layout.Cached(exe)[i], Some(old(disk.files)[path]), exe)]
    {
      var readable, bytes := disk.Read(path);
      if !readable {
        return;
      }
      var names := layout.Cached(exe);
      for i := 0 to |names|
        invariant Valid() && disk.files == old(disk.files) && record == old(record) && disk.faults >= old(disk.faults)
        invariant disk.faults == old(disk.faults) ==> forall k :: 0 <= k < i ==> names[k] in disk.files
      {
        var free := disk.IsFree(names[i]);
        if !free {
          continue;
        }
        var moved := MoveTo(path, names[i], exe, bytes);
        if moved {
          assert Aside(old(disk.files), disk.files, path, exe, i);
          return;
        }
      }
    }
  }
}
