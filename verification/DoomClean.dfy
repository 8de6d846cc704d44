/**
 * Bringing the DOOM folder to its contract: at most the pair to keep is ours, and nothing else is lost
 * (installer/doomclean.go:134-271).
 */
module DoomClean {
  import opened Options
  import opened Disks
  import opened DoomFolder

  /** The part of install.json the folder's cleaning reads and updates. */
  class Record {
    var files: seq<Rel>
    var backups: seq<Backup>

    constructor (files: seq<Rel>, backups: seq<Backup>)
      ensures this.files == files && this.backups == backups
    {
      this.files, this.backups := files, backups;
    }
  }

  function Dropped(list: seq<Rel>, r: Rel): (out: seq<Rel>)
    ensures forall x :: x in out <==> x in list && x != r
  {
    if list == [] then [] else (if list[0] == r then [] else [list[0]]) + Dropped(list[1..], r)
  }

  /** Whether the file at r is ours: only a fault hides what its bytes say. */
  method IsOurs(disk: Disk<Place>, own: Ownership, r: Rel) returns (ours: bool)
    requires disk.Valid() && InDoom(r) in disk.files
    modifies disk`faults
    ensures disk.Valid() && disk.faults >= old(disk.faults)
    ensures ours ==> own.Ours(r, disk.files[InDoom(r)])
    ensures own.Ours(r, disk.files[InDoom(r)]) && !ours ==> disk.faults > old(disk.faults)
  {
    if r in own.recorded {
      return true;
    }
    ours := IsOursByContent(disk, own, InDoom(r));
  }

  method IsOursByContent(disk: Disk<Place>, own: Ownership, p: Place) returns (ours: bool)
    requires disk.Valid() && p in disk.files
    modifies disk`faults
    ensures disk.Valid() && disk.faults >= old(disk.faults)
    ensures ours ==> own.ByContent(disk.files[p])
    ensures own.ByContent(disk.files[p]) && !ours ==> disk.faults > old(disk.faults)
  {
    var hashed, b := disk.Read(p);
    if hashed && b in own.digests {
      return true;
    }
    var opened_, text := disk.Read(p);
    ours := opened_ && (Contains(text, MARKER) || Contains(text, Wide(MARKER)));
  }

  function AsSet(list: seq<Rel>): set<Rel> {
    set r | r in list
  }

  /** A pass may remove files of ours outside the pair to keep, among those `scanned`, and touches nothing else. */
  ghost predicate Removes(before: Files<Place>, after: Files<Place>, own: Ownership, keep: seq<Rel>, scanned: set<Rel>) {
    && (forall p :: p in after ==> Holds(before, p, after[p]))
    && (forall p :: p in before && p !in after ==>
          p.InDoom? && p.rel in scanned && p.rel !in keep && own.Ours(p.rel, before[p]))
  }

  /** Nothing of ours is left among the scanned paths, the pair aside. */
  ghost predicate NoneOfOurs(s: Files<Place>, own: Ownership, keep: seq<Rel>, scanned: set<Rel>) {
    forall r :: r in scanned && r !in keep && InDoom(r) in s ==> !own.Ours(r, s[InDoom(r)])
  }

  /** The record loses exactly the files that a pass took away. */
  ghost predicate Unlists(listed: seq<Rel>, left: seq<Rel>, before: Files<Place>, after: Files<Place>) {
    && (forall r :: r in left <==> r in listed && (InDoom(r) in before ==> InDoom(r) in after))
  }

  lemma RemovingConserves(before: Files<Place>, s: Files<Place>, own: Ownership, r: Rel)
    requires InDoom(r) in before && own.Ours(r, before[InDoom(r)]) && s == before - {InDoom(r)}
    ensures Conserves(before, s, own)
  {
    forall p | p in before
      ensures Fate(before, s, own, p)
    {
    }
  }

  /** Removes the file at r if it is ours; `foreign` says that it is not and stays. */
  method RemoveIfOurs(disk: Disk<Place>, rec: Record, own: Ownership, r: Rel) returns (foreign: bool)
    requires disk.Valid() && forall s :: Conserves(disk.files, s, own) ==> disk.safe(s)
    modifies disk, rec`files
    ensures disk.Valid() && disk.faults >= old(disk.faults)
    ensures Conserves(old(disk.files), disk.files, own)
    ensures OneGone(old(disk.files), disk.files, own, r)
    ensures disk.faults == old(disk.faults) && InDoom(r) in disk.files ==>
              foreign && !own.Ours(r, disk.files[InDoom(r)])
    ensures foreign ==> InDoom(r) in disk.files
    ensures rec.files == if InDoom(r) in disk.files || InDoom(r) !in old(disk.files) then old(rec.files)
                         else Dropped(old(rec.files), r)
  {
    foreign := false;
    var there := disk.IsThere(InDoom(r));
    if there {
      var ours := IsOurs(disk, own, r);
      if ours {
        RemovingConserves(disk.files, disk.files - {InDoom(r)}, own, r);
        var removed := disk.Remove(InDoom(r));
        if removed {
          rec.files := Dropped(rec.files, r);
        }
      } else {
        foreign := true;
      }
    }
  }

  /** Removes the files of ours among the candidates and lists the others as foreign. */
  method RemoveOurs(disk: Disk<Place>, rec: Record, keep: seq<Rel>, own: Ownership, candidates: seq<Rel>)
    returns (foreign: seq<Rel>)
    requires disk.Valid() && forall s :: Conserves(disk.files, s, own) ==> disk.safe(s)
    modifies disk, rec`files
    ensures disk.Valid() && disk.faults >= old(disk.faults)
    ensures Conserves(old(disk.files), disk.files, own)
    ensures Removes(old(disk.files), disk.files, own, keep, AsSet(candidates))
    ensures disk.faults == old(disk.faults) ==> NoneOfOurs(disk.files, own, keep, AsSet(candidates))
    ensures Unlists(old(rec.files), rec.files, old(disk.files), disk.files)
    ensures disk.faults == old(disk.faults) ==> ListsForeign(foreign, candidates, keep, disk.files)
  {
    hide *;
    foreign := [];
    ghost var before := disk.files;
    PassBegins(before, own, keep, candidates, rec.files);
    for i := 0 to |candidates|
      invariant disk.Valid() && disk.faults >= old(disk.faults)
      invariant Conserves(before, disk.files, own)
      invariant Removes(before, disk.files, own, keep, AsSet(candidates))
      invariant disk.faults == old(disk.faults) ==> NoneOfOurs(disk.files, own, keep, AsSet(candidates[..i]))
      invariant Unlists(old(rec.files), rec.files, before, disk.files)
      invariant disk.faults == old(disk.faults) ==> ListsForeign(foreign, candidates[..i], keep, disk.files)
    {
      var r := candidates[i];
      ghost var now, listed, others := disk.files, rec.files, foreign;
      if r !in keep {
        SafeAfter(disk, before, now, own);
        var kept := RemoveIfOurs(disk, rec, own, r);
        ConservesChains(before, now, disk.files, own);
        if kept {
          foreign := Added(foreign, r);
        }
      }
      RemovesStep(before, now, disk.files, own, keep, candidates, i, old(rec.files), listed, rec.files);
      if disk.faults == old(disk.faults) {
        NoneStep(now, disk.files, own, keep, candidates, i, others, foreign);
      }
    }
    assert candidates[..|candidates|] == candidates;
  }

  ghost predicate ListsForeign(foreign: seq<Rel>, scanned: seq<Rel>, keep: seq<Rel>, s: Files<Place>) {
    forall r :: r in foreign <==> r in scanned && r !in keep && InDoom(r) in s
  }

  lemma PassBegins(s: Files<Place>, own: Ownership, keep: seq<Rel>, candidates: seq<Rel>, listed: seq<Rel>)
    ensures Conserves(s, s, own) && Removes(s, s, own, keep, AsSet(candidates))
    ensures NoneOfOurs(s, own, keep, AsSet(candidates[..0])) && Unlists(listed, listed, s, s)
    ensures ListsForeign([], candidates[..0], keep, s)
  {
  }

  /** One path dealt with: either nothing changed, or a file of ours there has gone. */
  ghost predicate OneGone(now: Files<Place>, next: Files<Place>, own: Ownership, r: Rel) {
    next == now || (InDoom(r) in now && own.Ours(r, now[InDoom(r)]) && next == now - {InDoom(r)})
  }

  lemma RemovesStep(before: Files<Place>, now: Files<Place>, next: Files<Place>, own: Ownership, keep: seq<Rel>,
                    candidates: seq<Rel>, i: nat, a: seq<Rel>, b: seq<Rel>, c: seq<Rel>)
    requires i < |candidates| && Removes(before, now, own, keep, AsSet(candidates))
    requires if candidates[i] in keep then next == now else OneGone(now, next, own, candidates[i])
    requires Unlists(a, b, before, now)
    requires c == if InDoom(candidates[i]) in next || InDoom(candidates[i]) !in now then b else Dropped(b, candidates[i])
    ensures Removes(before, next, own, keep, AsSet(candidates)) && Unlists(a, c, before, next)
  {
  }

  lemma NoneStep(now: Files<Place>, next: Files<Place>, own: Ownership, keep: seq<Rel>, candidates: seq<Rel>, i: nat,
                 foreign: seq<Rel>, more: seq<Rel>)
    requires i < |candidates| && NoneOfOurs(now, own, keep, AsSet(candidates[..i]))
    requires if candidates[i] in keep then next == now else OneGone(now, next, own, candidates[i])
    requires ListsForeign(foreign, candidates[..i], keep, now)
    requires candidates[i] !in keep && InDoom(candidates[i]) in next ==>
               more == Added(foreign, candidates[i]) && !own.Ours(candidates[i], next[InDoom(candidates[i])])
    requires candidates[i] in keep || InDoom(candidates[i]) !in next ==> more == foreign
    ensures NoneOfOurs(next, own, keep, AsSet(candidates[..i + 1])) && ListsForeign(more, candidates[..i + 1], keep, next)
  {
    hide Ownership.Ours;
    var r := candidates[i];
    assert candidates[..i + 1] == candidates[..i] + [r];
    assert AsSet(candidates[..i + 1]) == AsSet(candidates[..i]) + {r};
    assert next != now ==> r !in AsSet(candidates[..i]);
  }

  function Added(list: seq<Rel>, r: Rel): (out: seq<Rel>)
    ensures forall x :: x in out <==> x in list || x == r
  {
    if r in list then list else list + [r]
  }

  /** Lists the files directly in one folder of the DOOM folder; an entry that cannot be read is left out. */
  method ListDoom(disk: Disk<Place>, dir: string) returns (seen: seq<Rel>)
    requires disk.Valid()
    modifies disk`faults
    ensures disk.Valid() && disk.faults >= old(disk.faults)
    ensures forall r :: r in seen ==> r.dir == dir && InDoom(r) in disk.files
    ensures forall i, j :: 0 <= i < j < |seen| ==> seen[i] != seen[j]
    ensures disk.faults == old(disk.faults) ==> forall r: Rel :: r.dir == dir && InDoom(r) in disk.files ==> r in seen
  {
    var todo := disk.files.Keys;
    seen := [];
    while todo != {}
      invariant todo <= disk.files.Keys && disk.faults >= old(disk.faults)
      invariant forall r :: r in seen ==> r.dir == dir && InDoom(r) in disk.files && InDoom(r) !in todo
      invariant forall i, j :: 0 <= i < j < |seen| ==> seen[i] != seen[j]
      invariant disk.faults == old(disk.faults) ==>
                  forall r: Rel :: r.dir == dir && InDoom(r) in disk.files ==> r in seen || InDoom(r) in todo
      decreases |todo|
    {
      var p :| p in todo;
      todo := todo - {p};
      if p.InDoom? && p.rel.dir == dir {
        var readable: bool := *;
        if readable {
          seen := seen + [p.rel];
        } else {
          disk.faults := disk.faults + 1;
        }
      }
    }
  }

  /** The path a backup stands for: what the record says, or else its own name without the suffix. */
  function StandsFor(backups: seq<Backup>, at: Place, otherwise: Rel): (r: Rel)
    ensures r == otherwise || exists b :: b in backups && b.at == at && b.rel == r
  {
    if backups == [] then otherwise
    else if backups[|backups| - 1].at == at then backups[|backups| - 1].rel
    else StandsFor(backups[..|backups| - 1], at, otherwise)
  }

  /** All that dealing with one old backup changes is that file and, perhaps, a new one in the store. */
  ghost predicate Rehouses(before: Files<Place>, after: Files<Place>, r: Rel) {
    && (forall p :: p in before && p != InDoom(r) ==> Holds(after, p, before[p]))
    && (forall p :: p in after ==> if p in before then after[p] == before[p] else p.InStore?)
  }

  /** The path the old backup at r stands for. */
  function BaseOf(backups: seq<Backup>, r: Rel): Rel
    requires IsOldBackup(r)
  {
    StandsFor(backups, InDoom(r), Rel(r.dir, BaseName(r.name).value))
  }

  /** Entries are only dropped for the file at r, and only added for a copy that is in the store. */
  ghost predicate Rerecords(before: seq<Backup>, after: seq<Backup>, s: Files<Place>, r: Rel) {
    && (forall b :: b in after ==> b in before || (b.at.InStore? && b.at in s))
    && (forall b :: b in before && b.at != InDoom(r) ==> b in after)
  }

  /** An old backup in the folder stands for r by its name. */
  ghost predicate NamedByOld(s: Files<Place>, r: Rel) {
    exists o :: InDoom(o) in s && IsOldBackup(o) && Rel(o.dir, BaseName(o.name).value) == r
  }

  /** A path that has a recorded backup, or may get one while the old backups are dealt with. */
  ghost predicate MayBeBacked(s: Files<Place>, backups: seq<Backup>, r: Rel) {
    HasBackupFor(backups, r) || NamedByOld(s, r)
  }

  /** Every recorded backup is for such a path. */
  ghost predicate BacksOnly(s: Files<Place>, backups: seq<Backup>, after: seq<Backup>) {
    forall b :: b in after ==> MayBeBacked(s, backups, b.rel)
  }

  lemma BacksOnlyChains(a: Files<Place>, b: Files<Place>, x: seq<Backup>, y: seq<Backup>, z: seq<Backup>)
    requires BacksOnly(a, x, y) && BacksOnly(b, y, z) && forall p: Place :: p.InDoom? && p in b ==> p in a
    ensures BacksOnly(a, x, z)
  {
    forall e | e in z
      ensures MayBeBacked(a, x, e.rel)
    {
      assert MayBeBacked(b, y, e.rel);
    }
  }

  lemma BacksOnlyBegins(s: Files<Place>, backups: seq<Backup>, fewer: seq<Backup>)
    requires forall b :: b in fewer ==> b in backups
    ensures BacksOnly(s, backups, fewer)
  {
  }

  /** Moves an old backup that is not ours to the store and records it, unless its path has an entry already. */
  method Rehouse(disk: Disk<Place>, rec: Record, ghost own: Ownership, r: Rel)
    requires disk.Valid() && InDoom(r) in disk.files && IsOldBackup(r)
    requires forall s :: Conserves(disk.files, s, own) ==> disk.safe(s)
    modifies disk, rec`backups
    ensures disk.Valid() && disk.faults >= old(disk.faults)
    ensures Conserves(old(disk.files), disk.files, own) && Rehouses(old(disk.files), disk.files, r)
    ensures Rerecords(old(rec.backups), rec.backups, disk.files, r)
    ensures BacksOnly(old(disk.files), old(rec.backups), rec.backups)
    ensures if InDoom(r) in disk.files then rec.backups == old(rec.backups)
            else HasBackupFor(rec.backups, BaseOf(old(rec.backups), r))
    ensures InDoom(r) in disk.files && disk.faults == old(disk.faults) ==>
              NamesTaken(disk.files, BaseOf(rec.backups, r))
    ensures disk.faults == old(disk.faults) && disk.files != old(disk.files) ==>
              exists at: Place :: at.InStore? && at !in old(disk.files) && disk.files == Moved(old(disk.files), InDoom(r), at)
  {
    var base := BaseOf(rec.backups, r);
    assert MayBeBacked(disk.files, rec.backups, base);
    var kept := KeepBackup(disk, InDoom(r), base, own);
    if kept.Some? {
      rec.backups := Without(rec.backups, InDoom(r));
      if !HasBackupFor(rec.backups, base) {
        rec.backups := rec.backups + [Backup(base, kept.value)];
        assert Backup(base, kept.value) in rec.backups;
      }
    }
  }

  /** Deletes an earlier installer's backup of a file of ours; moves one of any other file to the store. */
  method TidyBackup(disk: Disk<Place>, rec: Record, own: Ownership, r: Rel)
    requires disk.Valid() && InDoom(r) in disk.files && IsOldBackup(r)
    requires forall s :: Conserves(disk.files, s, own) ==> disk.safe(s)
    modifies disk, rec`backups
    ensures disk.Valid() && disk.faults >= old(disk.faults)
    ensures Conserves(old(disk.files), disk.files, own) && Rehouses(old(disk.files), disk.files, r)
    ensures Rerecords(old(rec.backups), rec.backups, disk.files, r)
    ensures BacksOnly(old(disk.files), old(rec.backups), rec.backups)
    ensures InDoom(r) in disk.files ==> rec.backups == old(rec.backups)
    ensures InDoom(r) !in disk.files && !own.ByContent(old(disk.files)[InDoom(r)]) ==>
              HasBackupFor(rec.backups, BaseOf(old(rec.backups), r))
    ensures InDoom(r) in disk.files && disk.faults == old(disk.faults) ==>
              !own.ByContent(old(disk.files)[InDoom(r)]) && NamesTaken(disk.files, BaseOf(rec.backups, r))
    ensures disk.faults == old(disk.faults) ==> TidiedOne(old(disk.files), disk.files, own, r)
  {
    var ours := IsOursByContent(disk, own, InDoom(r));
    if ours {
      RemovingConserves(disk.files, disk.files - {InDoom(r)}, own, r);
      var removed := disk.Remove(InDoom(r));
      if removed {
        rec.backups := Without(rec.backups, InDoom(r));
      }
    } else {
      Rehouse(disk, rec, own, r);
    }
  }

  /** What dealing with one old backup does when nothing fails. */
  ghost predicate TidiedOne(before: Files<Place>, after: Files<Place>, own: Ownership, r: Rel)
    requires InDoom(r) in before
  {
    if own.ByContent(before[InDoom(r)]) then after == before - {InDoom(r)}
    else after == before || exists at: Place ::
           at.InStore? && at !in before && after == Moved(before, InDoom(r), at)
  }

  /** Whatever is new has come from an old backup that is not ours by its bytes. */
  ghost predicate MovedIn(before: Files<Place>, after: Files<Place>, own: Ownership) {
    forall p :: p in after && p !in before ==> OldBackupWith(before, own, after[p])
  }

  /** An old backup with these bytes, which are not ours. */
  ghost predicate OldBackupWith(s: Files<Place>, own: Ownership, b: Bytes) {
    exists r :: Holds(s, InDoom(r), b) && IsOldBackup(r) && !own.ByContent(b)
  }

  lemma MovedInStep(a: Files<Place>, b: Files<Place>, c: Files<Place>, own: Ownership, r: Rel)
    requires MovedIn(a, b, own) && RehousesAll(a, b) && InDoom(r) in b && IsOldBackup(r) && TidiedOne(b, c, own, r)
    ensures MovedIn(a, c, own)
  {
    hide Ownership.ByContent, IsOldBackup;
    forall p | p in c && p !in a
      ensures OldBackupWith(a, own, c[p])
    {
      if p !in b {
        assert Holds(a, InDoom(r), c[p]);
      }
    }
  }

  lemma MovedInChains(a: Files<Place>, b: Files<Place>, c: Files<Place>, own: Ownership)
    requires MovedIn(a, b, own) && RehousesAll(a, b) && MovedIn(b, c, own) && RehousesAll(b, c)
    ensures MovedIn(a, c, own)
  {
    hide Ownership.ByContent, IsOldBackup;
    forall p | p in c && p !in a
      ensures OldBackupWith(a, own, c[p])
    {
      if p !in b {
        var r :| Holds(b, InDoom(r), c[p]) && IsOldBackup(r) && !own.ByContent(c[p]);
        assert Holds(a, InDoom(r), c[p]);
      }
    }
  }

  /** All that dealing with the old backups changes is those files and new ones in the store. */
  ghost predicate RehousesAll(before: Files<Place>, after: Files<Place>) {
    && (forall p :: p in before && !(p.InDoom? && IsOldBackup(p.rel)) ==> Holds(after, p, before[p]))
    && (forall p :: p in after ==> if p in before then after[p] == before[p] else p.InStore?)
  }

  /** Entries are only dropped for old backups, and only added for copies that are in the store. */
  ghost predicate RerecordsAll(before: seq<Backup>, after: seq<Backup>, s: Files<Place>) {
    && (forall b :: b in after ==> b in before || (b.at.InStore? && b.at in s))
    && (forall b :: b in before && !(b.at.InDoom? && IsOldBackup(b.at.rel)) ==> b in after)
  }

  lemma RehousingBegins(s: Files<Place>, own: Ownership, backups: seq<Backup>)
    ensures Conserves(s, s, own) && RehousesAll(s, s) && RerecordsAll(backups, backups, s)
  {
  }

  lemma RehousingChains(a: Files<Place>, b: Files<Place>, c: Files<Place>, x: seq<Backup>, y: seq<Backup>,
                        z: seq<Backup>, r: Rel)
    requires RehousesAll(a, b) && Rehouses(b, c, r) && IsOldBackup(r)
    requires RerecordsAll(x, y, b) && Rerecords(y, z, c, r)
    ensures RehousesAll(a, c) && RerecordsAll(x, z, c)
    ensures forall p: Place :: p.InDoom? && p in c ==> p in a
  {
  }

  ghost predicate NoOldBackups(s: Files<Place>) {
    forall r :: InDoom(r) in s ==> !IsOldBackup(r)
  }

  /** Deals with every backup an earlier installer left in one folder. */
  method TidyBackups(disk: Disk<Place>, rec: Record, own: Ownership, dir: string)
    requires disk.Valid() && dir in {"", OWN_DIR}
    requires forall s :: Conserves(disk.files, s, own) ==> disk.safe(s)
    modifies disk, rec`backups
    ensures disk.Valid() && disk.faults >= old(disk.faults)
    ensures Conserves(old(disk.files), disk.files, own) && RehousesAll(old(disk.files), disk.files)
    ensures RerecordsAll(old(rec.backups), rec.backups, disk.files)
    ensures BacksOnly(old(disk.files), old(rec.backups), rec.backups)
    ensures disk.faults == old(disk.faults) ==>
              NoneIn(disk.files, own, dir) && MovedIn(old(disk.files), disk.files, own)
    ensures NoOldBackups(old(disk.files)) ==> disk.files == old(disk.files) && rec.backups == old(rec.backups)
  {
    hide Ownership.ByContent, Conserves, RehousesAll, RerecordsAll, BacksOnly, MovedIn, TidiedOne;
    ghost var before := disk.files;
    RehousingBegins(before, own, rec.backups);
    BacksOnlyBegins(before, rec.backups, rec.backups);
    NothingMovedIn(before, own);
    var seen := ListDoom(disk, dir);
    for i := 0 to |seen|
      invariant disk.Valid() && disk.faults >= old(disk.faults)
      invariant Conserves(before, disk.files, own) && RehousesAll(before, disk.files)
      invariant RerecordsAll(old(rec.backups), rec.backups, disk.files)
      invariant BacksOnly(before, old(rec.backups), rec.backups)
      invariant forall p: Place :: p.InDoom? && p in disk.files ==> p in before
      invariant forall k :: i <= k < |seen| ==> InDoom(seen[k]) in disk.files
      invariant disk.faults == old(disk.faults) ==>
                  forall r: Rel :: r.dir == dir && InDoom(r) in before ==> r in seen
      invariant disk.faults == old(disk.faults) ==>
                  forall k :: 0 <= k < i && IsOldBackup(seen[k]) && InDoom(seen[k]) in disk.files ==>
                    !own.ByContent(disk.files[InDoom(seen[k])])
      invariant disk.faults == old(disk.faults) ==> MovedIn(before, disk.files, own)
      invariant NoOldBackups(before) ==> disk.files == before && rec.backups == old(rec.backups)
    {
      if BaseName(seen[i].name).Some? {
        ghost var now, backups := disk.files, rec.backups;
        forall s | Conserves(now, s, own)
          ensures disk.safe(s)
        {
          ConservesChains(before, now, s, own);
        }
        assert InDoom(seen[i]) in before;
        TidyBackup(disk, rec, own, seen[i]);
        ConservesChains(before, now, disk.files, own);
        if disk.faults == old(disk.faults) {
          MovedInStep(before, now, disk.files, own, seen[i]);
        }
        RehousingChains(before, now, disk.files, old(rec.backups), backups, rec.backups, seen[i]);
        BacksOnlyChains(before, now, old(rec.backups), backups, rec.backups);
      }
    }
  }

  lemma NothingMovedIn(s: Files<Place>, own: Ownership)
    ensures MovedIn(s, s, own)
  {
  }

  /** Forgets the recorded backups whose copy is gone. */
  method ForgetGone(disk: Disk<Place>, rec: Record)
    requires disk.Valid()
    modifies disk`faults, rec`backups
    ensures disk.Valid() && disk.faults >= old(disk.faults)
    ensures forall b :: b in rec.backups ==> b in old(rec.backups) && b.at in disk.files
    ensures disk.faults == old(disk.faults) ==> forall b :: b in old(rec.backups) && b.at in disk.files ==> b in rec.backups
    ensures disk.faults == old(disk.faults) && (forall b :: b in old(rec.backups) ==> b.at in disk.files) ==>
              rec.backups == old(rec.backups)
  {
    var kept: seq<Backup> := [];
    for i := 0 to |rec.backups|
      invariant disk.Valid() && disk.faults >= old(disk.faults) && rec.backups == old(rec.backups)
      invariant forall b :: b in kept ==> b in rec.backups && b.at in disk.files
      invariant disk.faults == old(disk.faults) ==>
                  forall b :: b in rec.backups[..i] && b.at in disk.files ==> b in kept
      invariant disk.faults == old(disk.faults) && (forall b :: b in rec.backups ==> b.at in disk.files) ==>
                  kept == rec.backups[..i]
    {
      var b := rec.backups[i];
      assert rec.backups[..i + 1] == rec.backups[..i] + [b] && b in rec.backups;
      var there := disk.IsThere(b.at);
      if there {
        kept := kept + [b];
      }
    }
    assert rec.backups[..|rec.backups|] == rec.backups;
    rec.backups := kept;
  }

  /** Where the cleaning looks for files of ours, besides the old backups. */
  function Scanned(s: Files<Place>, listed: seq<Rel>): set<Rel> {
    (AsSet(OUR_NAMES + listed)) + (set p | p in s && p.InDoom? && p.rel.dir == OWN_DIR :: p.rel)
  }

  ghost predicate MayGo(before: Files<Place>, own: Ownership, keep: seq<Rel>, listed: seq<Rel>, r: Rel)
    requires InDoom(r) in before
  {
    r in Scanned(before, listed) && r !in keep && own.Ours(r, before[InDoom(r)])
  }

  /** What cleaning takes from a folder without old backups. */
  ghost predicate CleansPlain(before: Files<Place>, after: Files<Place>, own: Ownership, keep: seq<Rel>, listed: seq<Rel>) {
    && (forall p :: p in after ==> Holds(before, p, after[p]))
    && (forall p :: p in before && p !in after ==> p.InDoom? && MayGo(before, own, keep, listed, p.rel))
  }

  /**
   * What cleaning does to the disk: files of ours in the scanned places may go, the pair to keep aside; old backups
   * may be deleted if ours and move to the store otherwise; every other file stays as it is.
   */
  ghost predicate Cleans(before: Files<Place>, after: Files<Place>, own: Ownership, keep: seq<Rel>, listed: seq<Rel>) {
    && (forall p :: p in after ==> if p in before then after[p] == before[p] else p.InStore?)
    && (forall p :: p in before && p !in after ==>
          p.InDoom? && (IsOldBackup(p.rel) || MayGo(before, own, keep, listed, p.rel)))
  }

  /** The contract: nothing of ours is left in the scanned places, the pair aside, and no old backup of our files. */
  ghost predicate Clean(before: Files<Place>, after: Files<Place>, own: Ownership, keep: seq<Rel>, listed: seq<Rel>) {
    && NoneOfOurs(after, own, keep, Scanned(before, listed))
    && NoneIn(after, own, "") && NoneIn(after, own, OWN_DIR)
  }

  lemma CleansFrom(a: Files<Place>, b: Files<Place>, c: Files<Place>, d: Files<Place>, e: Files<Place>, own: Ownership,
                   keep: seq<Rel>, listed: seq<Rel>, inner: seq<Rel>)
    requires Removes(a, b, own, keep, AsSet(OUR_NAMES + listed))
    requires RehousesAll(b, c) && RehousesAll(c, d)
    requires Removes(d, e, own, keep, AsSet(inner))
    requires forall r :: r in inner ==> r.dir == OWN_DIR && InDoom(r) in d
    ensures Cleans(a, e, own, keep, listed)
    ensures b == c == d ==> CleansPlain(a, e, own, keep, listed)
  {
  }

  /** What the three passes leave together has no file of ours in any scanned place outside the pair. */
  lemma CleanAtEnd(a: Files<Place>, b: Files<Place>, c: Files<Place>, d: Files<Place>, e: Files<Place>, own: Ownership,
                   keep: seq<Rel>, listed: seq<Rel>, inner: seq<Rel>)
    requires Removes(a, b, own, keep, AsSet(OUR_NAMES + listed))
    requires NoneOfOurs(b, own, keep, AsSet(OUR_NAMES + listed))
    requires RehousesAll(b, c) && RehousesAll(c, d)
    requires NoneIn(c, own, "") && NoneIn(d, own, OWN_DIR)
    requires Removes(d, e, own, keep, AsSet(inner))
    requires NoneOfOurs(e, own, keep, AsSet(inner))
    requires forall r: Rel :: r.dir == OWN_DIR && InDoom(r) in d ==> r in inner
    ensures Clean(a, e, own, keep, listed)
  {
  }

  /** Forgets the recorded files that are already gone, the pair to keep aside. */
  method ForgetFiles(disk: Disk<Place>, rec: Record, keep: seq<Rel>)
    requires disk.Valid()
    modifies disk`faults, rec`files
    ensures disk.Valid() && disk.faults >= old(disk.faults)
    ensures forall r :: r in rec.files ==> r in old(rec.files) && (r in keep || InDoom(r) in disk.files)
    ensures disk.faults == old(disk.faults) ==>
              forall r :: r in old(rec.files) && (r in keep || InDoom(r) in disk.files) ==> r in rec.files
  {
    var kept: seq<Rel> := [];
    for i := 0 to |rec.files|
      invariant disk.Valid() && disk.faults >= old(disk.faults) && rec.files == old(rec.files)
      invariant forall r :: r in kept ==> r in rec.files && (r in keep || InDoom(r) in disk.files)
      invariant disk.faults == old(disk.faults) ==>
                  forall r :: r in rec.files[..i] && (r in keep || InDoom(r) in disk.files) ==> r in kept
    {
      var r := rec.files[i];
      assert rec.files[..i + 1] == rec.files[..i] + [r] && r in rec.files;
      var there := disk.IsThere(InDoom(r));
      if r in keep || there {
        kept := kept + [r];
      }
    }
    assert rec.files[..|rec.files|] == rec.files;
    rec.files := kept;
  }

  /** The record after a clean: what was listed and is kept or still there. */
  ghost predicate Lists(after: seq<Rel>, before: seq<Rel>, keep: seq<Rel>, s: Files<Place>) {
    forall r :: !IsOldBackup(r) ==> (r in after <==> r in before && (r in keep || InDoom(r) in s))
  }

  /** Removes what is ours at the known names and in the record, and brings the record up to date. */
  method CleanKnown(disk: Disk<Place>, rec: Record, keep: seq<Rel>, own: Ownership)
    requires disk.Valid() && forall s :: Conserves(disk.files, s, own) ==> disk.safe(s)
    modifies disk, rec`files
    ensures disk.Valid() && disk.faults >= old(disk.faults)
    ensures Conserves(old(disk.files), disk.files, own)
    ensures Removes(old(disk.files), disk.files, own, keep, AsSet(OUR_NAMES + old(rec.files)))
    ensures disk.faults == old(disk.faults) ==> NoneOfOurs(disk.files, own, keep, AsSet(OUR_NAMES + old(rec.files)))
    ensures disk.faults == old(disk.faults) ==> Lists(rec.files, old(rec.files), keep, disk.files)
  {
    var _ := RemoveOurs(disk, rec, keep, own, OUR_NAMES + rec.files);
    ForgetFiles(disk, rec, keep);
  }

  /** The backups whose copy is there. */
  ghost predicate AreLive(live: seq<Backup>, backups: seq<Backup>, s: Files<Place>) {
    forall b :: b in live <==> b in backups && b.at in s
  }

  lemma BothTidied(a: Files<Place>, b: Files<Place>, c: Files<Place>, own: Ownership, x: seq<Backup>, y: seq<Backup>,
                   z: seq<Backup>)
    requires RehousesAll(a, b) && RehousesAll(b, c) && BacksOnly(a, x, y) && BacksOnly(b, y, z)
    ensures MovedIn(a, b, own) && MovedIn(b, c, own) ==> MovedIn(a, c, own)
    ensures BacksOnly(a, x, z)
  {
    if MovedIn(a, b, own) && MovedIn(b, c, own) {
      MovedInChains(a, b, c, own);
    }
    hide MovedIn;
    BacksOnlyChains(a, b, x, y, z);
  }

  lemma FewerBacked(s: Files<Place>, x: seq<Backup>, y: seq<Backup>, z: seq<Backup>)
    requires BacksOnly(s, x, y) && forall b :: b in z ==> b in y
    ensures BacksOnly(s, x, z)
  {
  }

  /** Deals with the old backups in both folders. */
  method CleanBackups(disk: Disk<Place>, rec: Record, own: Ownership) returns (ghost mid: Files<Place>)
    requires disk.Valid() && forall s :: Conserves(disk.files, s, own) ==> disk.safe(s)
    modifies disk, rec`backups
    ensures disk.Valid() && disk.faults >= old(disk.faults)
    ensures Conserves(old(disk.files), disk.files, own)
    ensures RehousesAll(old(disk.files), mid) && RehousesAll(mid, disk.files)
    ensures disk.faults == old(disk.faults) ==> NoneIn(mid, own, "") && NoneIn(disk.files, own, OWN_DIR)
    ensures disk.faults == old(disk.faults) ==> MovedIn(old(disk.files), disk.files, own)
    ensures NoOldBackups(old(disk.files)) && disk.faults == old(disk.faults) ==>
              AreLive(rec.backups, old(rec.backups), old(disk.files))
    ensures forall b :: b in rec.backups ==> b in old(rec.backups) || (b.at.InStore? && b.at in disk.files)
    ensures BacksOnly(old(disk.files), old(rec.backups), rec.backups)
    ensures NoOldBackups(old(disk.files)) ==> mid == disk.files == old(disk.files)
    ensures NoOldBackups(old(disk.files)) ==> forall b :: b in rec.backups ==> b in old(rec.backups)
    ensures (NoOldBackups(old(disk.files)) && disk.faults == old(disk.faults)
             && (forall b :: b in old(rec.backups) ==> b.at in old(disk.files))) ==> rec.backups == old(rec.backups)
  {
    hide MovedIn, RehousesAll, NoneIn, BacksOnly, Conserves;
    ghost var before := disk.files;
    TidyBackups(disk, rec, own, "");
    mid := disk.files;
    ghost var first := rec.backups;
    SafeAfter(disk, before, mid, own);
    TidyBackups(disk, rec, own, OWN_DIR);
    ConservesChains(before, mid, disk.files, own);
    BothTidied(before, mid, disk.files, own, old(rec.backups), first, rec.backups);
    ghost var second := rec.backups;
    ForgetGone(disk, rec);
    FewerBacked(before, old(rec.backups), second, rec.backups);
    assert forall b :: b in rec.backups ==> b in second;
  }

  ghost predicate NoneIn(s: Files<Place>, own: Ownership, dir: string) {
    forall r: Rel :: r.dir == dir && IsOldBackup(r) && InDoom(r) in s ==> !own.ByContent(s[InDoom(r)])
  }

  /** An old backup with these bytes, ours neither by them nor by the record where the record is looked at. */
  ghost predicate SparedOld(s: Files<Place>, own: Ownership, keep: seq<Rel>, listed: seq<Rel>, b: Bytes) {
    exists r :: Holds(s, InDoom(r), b) && IsOldBackup(r) && !own.ByContent(b)
                && !(r in OUR_NAMES + listed && r !in keep && r in own.recorded)
  }

  /** Whatever cleaning brings to a new place was the bytes of such an old backup. */
  ghost predicate Arrives(before: Files<Place>, after: Files<Place>, own: Ownership, keep: seq<Rel>, listed: seq<Rel>) {
    forall p :: p in after && p !in before ==> SparedOld(before, own, keep, listed, after[p])
  }

  lemma ArrivesAtEnd(a: Files<Place>, b: Files<Place>, d: Files<Place>, e: Files<Place>, own: Ownership,
                     keep: seq<Rel>, listed: seq<Rel>, inner: seq<Rel>)
    requires Removes(a, b, own, keep, AsSet(OUR_NAMES + listed))
    requires NoneOfOurs(b, own, keep, AsSet(OUR_NAMES + listed))
    requires MovedIn(b, d, own) && Removes(d, e, own, keep, AsSet(inner))
    ensures Arrives(a, e, own, keep, listed)
  {
    hide Ownership.ByContent, IsOldBackup;
    forall p | p in e && p !in a
      ensures SparedOld(a, own, keep, listed, e[p])
    {
      assert OldBackupWith(b, own, d[p]);
      var r :| Holds(b, InDoom(r), d[p]) && IsOldBackup(r) && !own.ByContent(d[p]);
      assert Holds(a, InDoom(r), e[p]);
    }
  }

  /** A file that the record lists, that has the bundle's bytes, or that spells the product's name. */
  ghost predicate Known(s: Files<Place>, own: Ownership, r: Rel) {
    && InDoom(r) in s
    && (r in own.recorded || s[InDoom(r)] in own.digests || Spells(s[InDoom(r)]))
  }

  /** No release's file is left at the paths releases used, the folder of its own or the record, the pair to keep aside. */
  ghost predicate NothingLeft(s: Files<Place>, own: Ownership, keep: seq<Rel>, listed: seq<Rel>) {
    forall r: Rel ::
      (r == Rel("", "xinput1_4.dll") || r == Rel("snapmap-plus", "snapmap-plus-ui-13954591.dll")
       || r == Rel("", "xinput1_3.dll") || r == Rel("snapmap-plus", "snapmap-plus-ui.dll")
       || r.dir == "snapmap-plus" || r in listed)
      ==> r in keep || !Known(s, own, r)
  }

  lemma CleanLeaves(before: Files<Place>, after: Files<Place>, own: Ownership, keep: seq<Rel>, listed: seq<Rel>)
    requires Clean(before, after, own, keep, listed) && Cleans(before, after, own, keep, listed)
    ensures NothingLeft(after, own, keep, listed)
  {
    hide Spells, Ownership.Ours, IsOldBackup, NoneIn;
    forall r: Rel | InDoom(r) in after && (r in OUR_NAMES || r.dir == OWN_DIR || r in listed) && r !in keep
      ensures !Known(after, own, r)
    {
      OursIff(own, r, after[InDoom(r)]);
      assert InDoom(r) in before && InDoom(r).InDoom? && InDoom(r).rel == r;
      assert r in Scanned(before, listed);
    }
  }

  /** Cleans the folder for the pair `keep`; uninstalling keeps nothing. */
  method CleanDoomFolder(disk: Disk<Place>, rec: Record, keep: seq<Rel>, own: Ownership)
    requires disk.Valid() && forall s :: Conserves(disk.files, s, own) ==> disk.safe(s)
    modifies disk, rec
    ensures disk.Valid() && disk.faults >= old(disk.faults)
    ensures Conserves(old(disk.files), disk.files, own)
    ensures Cleans(old(disk.files), disk.files, own, keep, old(rec.files))
    ensures disk.faults == old(disk.faults) ==> Clean(old(disk.files), disk.files, own, keep, old(rec.files))
    ensures disk.faults == old(disk.faults) ==> NothingLeft(disk.files, own, keep, old(rec.files))
    ensures disk.faults == old(disk.faults) ==> Arrives(old(disk.files), disk.files, own, keep, old(rec.files))
    ensures disk.faults == old(disk.faults) ==> Lists(rec.files, old(rec.files), keep, disk.files)
    ensures NoOldBackups(old(disk.files)) && disk.faults == old(disk.faults)
            && (forall b :: b in old(rec.backups) ==> b.at.InStore?) ==>
              AreLive(rec.backups, old(rec.backups), old(disk.files))
    ensures forall b :: b in rec.backups ==> b in old(rec.backups) || b.at.InStore?
    ensures BacksOnly(old(disk.files), old(rec.backups), rec.backups)
    ensures NoOldBackups(old(disk.files)) ==> CleansPlain(old(disk.files), disk.files, own, keep, old(rec.files))
    ensures NoOldBackups(old(disk.files)) ==> forall b :: b in rec.backups ==> b in old(rec.backups)
    ensures NoOldBackups(old(disk.files)) && disk.faults == old(disk.faults)
            && (forall b :: b in old(rec.backups) ==> b.at.InStore? && b.at in old(disk.files)) ==>
              rec.backups == old(rec.backups)
  {
    hide *;
    ghost var s0 := disk.files;
    CleanKnown(disk, rec, keep, own);
    ghost var s1, listed := disk.files, rec.files;
    SafeAfter(disk, s0, s1, own);
    ghost var s2 := CleanBackups(disk, rec, own);
    ghost var s3 := disk.files;
    ConservesChains(s0, s1, s3, own);
    SafeAfter(disk, s0, s3, own);
    var inner := ListDoom(disk, OWN_DIR);
    var _ := RemoveOurs(disk, rec, keep, own, inner);
    ConservesChains(s0, s3, disk.files, own);
    CleansFrom(s0, s1, s2, s3, disk.files, own, keep, old(rec.files), inner);
    RemovesMeans(s0, s1, own, keep, AsSet(OUR_NAMES + old(rec.files)));
    BacksOnlyBegins(s0, old(rec.backups), old(rec.backups));
    BacksOnlyChains(s0, s1, old(rec.backups), old(rec.backups), rec.backups);
    if disk.faults == old(disk.faults) {
      CleanAtEnd(s0, s1, s2, s3, disk.files, own, keep, old(rec.files), inner);
      CleanLeaves(s0, disk.files, own, keep, old(rec.files));
      ArrivesAtEnd(s0, s1, s3, disk.files, own, keep, old(rec.files), inner);
      LiveThrough(s0, s1, own, keep, AsSet(OUR_NAMES + old(rec.files)), old(rec.backups), rec.backups);
      ListsThrough(old(rec.files), listed, rec.files, keep, s1, s2, s3, disk.files, own, inner);
    }
  }

  lemma RemovesMeans(before: Files<Place>, after: Files<Place>, own: Ownership, keep: seq<Rel>, scanned: set<Rel>)
    requires Removes(before, after, own, keep, scanned)
    ensures NoOldBackups(before) ==> NoOldBackups(after)
    ensures forall p: Place :: p.InStore? && p in before ==> p in after
    ensures forall p :: p in after ==> p in before
  {
  }

  lemma LiveThrough(a: Files<Place>, b: Files<Place>, own: Ownership, keep: seq<Rel>, scanned: set<Rel>,
                    backups: seq<Backup>, live: seq<Backup>)
    requires Removes(a, b, own, keep, scanned)
    ensures (forall b :: b in backups ==> b.at.InStore?) && AreLive(live, backups, b) ==> AreLive(live, backups, a)
  {
  }

  lemma ListsThrough(a: seq<Rel>, b: seq<Rel>, c: seq<Rel>, keep: seq<Rel>, s1: Files<Place>, s2: Files<Place>,
                     s3: Files<Place>, s4: Files<Place>, own: Ownership, inner: seq<Rel>)
    requires Lists(b, a, keep, s1) && RehousesAll(s1, s2) && RehousesAll(s2, s3)
    requires Removes(s3, s4, own, keep, AsSet(inner)) && Unlists(b, c, s3, s4)
    ensures Lists(c, a, keep, s4)
  {
  }

  lemma SafeAfter(disk: Disk<Place>, before: Files<Place>, now: Files<Place>, own: Ownership)
    requires Conserves(before, now, own)
    requires forall s :: Conserves(before, s, own) ==> disk.safe(s)
    ensures forall s :: Conserves(now, s, own) ==> disk.safe(s)
  {
    forall s | Conserves(now, s, own)
      ensures disk.safe(s)
    {
      ConservesChains(before, now, s, own);
    }
  }
}
