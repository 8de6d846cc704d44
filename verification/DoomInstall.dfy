/**
 * Placing the pair in the DOOM folder, keeping what it replaces, and putting that back
 * (installer/install.go:104-136, 362-378).
 */
module DoomInstall {
  import opened Options
  import opened Disks
  import opened DoomFolder
  import opened DoomClean

  /** A file of the bundle, with its bytes. */
  datatype Shipped = Shipped(rel: Rel, bytes: Bytes)

  function Rels(files: seq<Shipped>): seq<Rel> {
    seq(|files|, i requires 0 <= i < |files| => files[i].rel)
  }

  /** Writing b over the file at r destroys one that is not ours, unless it holds b or a copy is in the store. */
  lemma OverwritingConservesIff(s: Files<Place>, own: Ownership, r: Rel, b: Bytes)
    ensures Conserves(s, With(s, InDoom(r), b), own) <==>
            (InDoom(r) in s && !own.Ours(r, s[InDoom(r)]) && s[InDoom(r)] != b
             ==> exists q: Place :: q.InStore? && Holds(s, q, s[InDoom(r)]))
  {
    hide Ownership.Ours;
    var next := With(s, InDoom(r), b);
    forall p | p in s && p != InDoom(r)
      ensures Fate(s, next, own, p)
    {
    }
    if InDoom(r) in s {
      assert Fate(s, next, own, InDoom(r)) <==>
             (s[InDoom(r)] == b || own.Ours(r, s[InDoom(r)]) || exists q: Place :: q.InStore? && Holds(s, q, s[InDoom(r)])) by {
        forall q: Place | q.InStore?
          ensures Holds(s, q, s[InDoom(r)]) <==> Holds(next, q, s[InDoom(r)])
        {
        }
      }
    }
  }

  /** The one case in which placing a file does not keep the one it replaces: its path has a backup already. */
  predicate Unprotected(s: Files<Place>, backups: seq<Backup>, own: Ownership, r: Rel) {
    InDoom(r) in s && !own.Ours(r, s[InDoom(r)]) && HasBackupFor(backups, r)
  }

  /** At most one entry has been added, and it is for r. */
  ghost predicate AddsAtMost(b: seq<Backup>, c: seq<Backup>, r: Rel) {
    c == b || exists at :: c == b + [Backup(r, at)]
  }

  /** What keeping a replaced file does when nothing fails. */
  ghost predicate KeptOne(before: Files<Place>, after: Files<Place>, b: seq<Backup>, c: seq<Backup>, own: Ownership, r: Rel) {
    if InDoom(r) in before && !own.Ours(r, before[InDoom(r)]) && !HasBackupFor(b, r)
    then exists at: Place :: at.InStore? && at !in before && c == b + [Backup(r, at)]
                             && after == Moved(before, InDoom(r), at)
    else c == b && after == before
  }

  /** What placing one file does when nothing fails. */
  ghost predicate PlacedOne(before: Files<Place>, after: Files<Place>, b: seq<Backup>, c: seq<Backup>, own: Ownership,
                            e: Shipped)
  {
    if InDoom(e.rel) in before && !own.Ours(e.rel, before[InDoom(e.rel)]) && !HasBackupFor(b, e.rel)
    then exists at: Place :: at.InStore? && at !in before && c == b + [Backup(e.rel, at)]
                             && after == Moved(before, InDoom(e.rel), at)[InDoom(e.rel) := e.bytes]
    else c == b && after == before[InDoom(e.rel) := e.bytes]
  }

  /** Keeps the file in the way, if it is not ours and its path has no backup yet, and writes the new one. */
  method PlaceFile(disk: Disk<Place>, rec: Record, own: Ownership, e: Shipped, ghost exposed: set<Rel>)
    returns (ok: bool)
    requires disk.Valid() && forall s :: ConservesBut(disk.files, s, own, exposed) ==> disk.safe(s)
    requires e.bytes in own.digests && (Unprotected(disk.files, rec.backups, own, e.rel) ==> e.rel in exposed)
    modifies disk, rec`backups
    ensures disk.Valid() && disk.faults >= old(disk.faults)
    ensures ConservesBut(old(disk.files), disk.files, own, exposed)
    ensures AddsAtMost(old(rec.backups), rec.backups, e.rel)
    ensures forall p: Place :: p.InDoom? && p != InDoom(e.rel) && p in disk.files ==> Holds(old(disk.files), p, disk.files[p])
    ensures disk.faults == old(disk.faults) && ok ==>
              PlacedOne(old(disk.files), disk.files, old(rec.backups), rec.backups, own, e)
    ensures disk.faults == old(disk.faults) && !ok ==> NamesTaken(old(disk.files), e.rel)
  {
    ghost var before := disk.files;
    SafeBut(disk, before, own, exposed);
    ok := KeepReplaced(disk, rec, own, e);
    ghost var now := disk.files;
    ConservesIsEnough(before, now, own, exposed);
    if !ok {
      return;
    }
    forall b
      ensures disk.safe(With(now, InDoom(e.rel), b)) && ConservesBut(before, With(now, InDoom(e.rel), b), own, exposed)
    {
      OverwritingExposes(now, own, e.rel, b, exposed);
      ConservesButChains(before, now, With(now, InDoom(e.rel), b), own, exposed);
    }
    ok := disk.Write(InDoom(e.rel), e.bytes);
  }

  lemma SafeBut(disk: Disk<Place>, s: Files<Place>, own: Ownership, exposed: set<Rel>)
    requires forall t :: ConservesBut(s, t, own, exposed) ==> disk.safe(t)
    ensures forall t :: Conserves(s, t, own) ==> disk.safe(t)
  {
    forall t | Conserves(s, t, own)
      ensures disk.safe(t)
    {
      ConservesIsEnough(s, t, own, exposed);
    }
  }

  lemma OverwritingExposes(s: Files<Place>, own: Ownership, r: Rel, b: Bytes, exposed: set<Rel>)
    requires InDoom(r) in s && !own.Ours(r, s[InDoom(r)]) ==> r in exposed
    ensures ConservesBut(s, With(s, InDoom(r), b), own, exposed)
  {
    if r !in exposed {
      OverwritingConservesIff(s, own, r, b);
    }
  }

  /** Moves the file in the way to the store, unless it is ours, has the new bytes, or its path has a backup. */
  method KeepReplaced(disk: Disk<Place>, rec: Record, own: Ownership, e: Shipped) returns (ok: bool)
    requires disk.Valid() && forall s :: Conserves(disk.files, s, own) ==> disk.safe(s)
    requires e.bytes in own.digests
    modifies disk, rec`backups
    ensures disk.Valid() && disk.faults >= old(disk.faults)
    ensures Conserves(old(disk.files), disk.files, own)
    ensures ok && InDoom(e.rel) in disk.files ==>
              own.Ours(e.rel, disk.files[InDoom(e.rel)]) || Unprotected(old(disk.files), old(rec.backups), own, e.rel)
    ensures AddsAtMost(old(rec.backups), rec.backups, e.rel)
    ensures forall p: Place :: p.InDoom? && p in disk.files ==> Holds(old(disk.files), p, disk.files[p])
    ensures disk.faults == old(disk.faults) && ok ==>
              KeptOne(old(disk.files), disk.files, old(rec.backups), rec.backups, own, e.rel)
    ensures disk.faults == old(disk.faults) && !ok ==> NamesTaken(old(disk.files), e.rel)
  {
    ok := true;
    if InDoom(e.rel) in disk.files {
      var ours := IsOurs(disk, own, e.rel);
      if !ours && !HasBackupFor(rec.backups, e.rel) {
        ok := KeepForeign(disk, rec, own, e);
      }
    }
  }

  lemma DigestsAreOurs(own: Ownership, e: Shipped)
    requires e.bytes in own.digests
    ensures own.Ours(e.rel, e.bytes)
  {
  }

  method KeepForeign(disk: Disk<Place>, rec: Record, own: Ownership, e: Shipped) returns (ok: bool)
    requires disk.Valid() && forall s :: Conserves(disk.files, s, own) ==> disk.safe(s)
    requires e.bytes in own.digests && InDoom(e.rel) in disk.files
    modifies disk, rec`backups
    ensures disk.Valid() && disk.faults >= old(disk.faults)
    ensures Conserves(old(disk.files), disk.files, own)
    ensures ok && InDoom(e.rel) in disk.files ==> own.Ours(e.rel, disk.files[InDoom(e.rel)])
    ensures AddsAtMost(old(rec.backups), rec.backups, e.rel)
    ensures forall p: Place :: p.InDoom? && p in disk.files ==> Holds(old(disk.files), p, disk.files[p])
    ensures disk.faults == old(disk.faults) && ok && !own.Ours(e.rel, old(disk.files)[InDoom(e.rel)])
            && !HasBackupFor(old(rec.backups), e.rel) ==>
              KeptOne(old(disk.files), disk.files, old(rec.backups), rec.backups, own, e.rel)
    ensures disk.faults == old(disk.faults) && !ok ==> NamesTaken(old(disk.files), e.rel)
  {
    hide Conserves, Contains, NamesTaken, Ownership.Ours;
    NothingPlaced(disk.files, [], own, []);
    DigestsAreOurs(own, e);
    ok := true;
    var hashed, b := disk.Read(InDoom(e.rel));
    if !hashed || b != e.bytes {
      var kept := KeepBackup(disk, InDoom(e.rel), e.rel, own);
      ok := kept.Some?;
      if ok {
        rec.backups := rec.backups + [Backup(e.rel, kept.value)];
      }
    }
  }

  ghost predicate DistinctRels(files: seq<Shipped>) {
    forall i, j :: 0 <= i < j < |files| ==> files[i].rel != files[j].rel
  }

  /** A file that is not ours was at r before. */
  predicate Foreign(s: Files<Place>, own: Ownership, r: Rel) {
    InDoom(r) in s && !own.Ours(r, s[InDoom(r)])
  }

  /** Every backup made is one replaced file's, whole, under a name in the store that was free. */
  ghost predicate Filed(before: Files<Place>, after: Files<Place>, made: seq<Backup>, own: Ownership) {
    && (forall i, j :: 0 <= i < j < |made| ==> made[i].rel != made[j].rel && made[i].at != made[j].at)
    && (forall b :: b in made ==> Foreign(before, own, b.rel) && b.at.InStore? && b.at !in before
                                  && Holds(after, b.at, before[InDoom(b.rel)]))
  }

  predicate Among(files: seq<Shipped>, n: nat, r: Rel)
    requires n <= |files|
  {
    exists k :: 0 <= k < n && files[k].rel == r
  }

  /** One of the first n files, or, once that many are placed, a path whose file is new. */
  ghost predicate SameElsewhere(before: Files<Place>, after: Files<Place>, made: seq<Backup>, files: seq<Shipped>, n: nat)
    requires n <= |files|
  {
    && (forall p :: p in before && !(p.InDoom? && Among(files, n, p.rel)) ==> Holds(after, p, before[p]))
    && (forall r :: InDoom(r) in after && InDoom(r) !in before ==> Among(files, n, r))
    && (forall s :: InStore(s) in after && InStore(s) !in before ==> exists b :: b in made && b.at == InStore(s))
  }

  /**
   * The first n files are in place, what they replaced is filed unless its path had a backup already, and everything
   * else is as it was.
   */
  ghost predicate Placed(before: Files<Place>, after: Files<Place>, prior: seq<Backup>, made: seq<Backup>, own: Ownership,
                         files: seq<Shipped>, n: nat)
    requires n <= |files|
  {
    && Filed(before, after, made, own) && SameElsewhere(before, after, made, files, n)
    && (forall b :: b in made ==> Among(files, n, b.rel) && !HasBackupFor(prior, b.rel))
    && (forall k :: 0 <= k < n ==> Holds(after, InDoom(files[k].rel), files[k].bytes))
    && (forall k :: 0 <= k < n && Foreign(before, own, files[k].rel) ==>
          HasBackupFor(prior, files[k].rel) || HasBackupFor(made, files[k].rel))
  }

  lemma AmongStep(files: seq<Shipped>, n: nat, r: Rel)
    requires n < |files|
    ensures Among(files, n + 1, r) <==> Among(files, n, r) || r == files[n].rel
    ensures DistinctRels(files) ==> !Among(files, n, files[n].rel)
  {
    if Among(files, n, r) {
      var k :| 0 <= k < n && files[k].rel == r;
      assert 0 <= k < n + 1 && files[k].rel == r;
    }
  }

  /** Dealing with the next file changes its own path and, perhaps, a name in the store. */
  lemma ElsewhereStep(before: Files<Place>, now: Files<Place>, next: Files<Place>, made: seq<Backup>, more: seq<Backup>,
                      files: seq<Shipped>, n: nat)
    requires n < |files| && SameElsewhere(before, now, made, files, n) && forall b :: b in made ==> b in more
    requires forall p: Place :: p in now && p != InDoom(files[n].rel) ==> Holds(next, p, now[p])
    requires forall r :: InDoom(r) in next && r != files[n].rel ==> InDoom(r) in now
    requires forall t :: InStore(t) in next && InStore(t) !in now ==> exists b :: b in more && b.at == InStore(t)
    ensures SameElsewhere(before, next, more, files, n + 1)
  {
    hide Among;
    forall p | p in before && !(p.InDoom? && Among(files, n + 1, p.rel))
      ensures Holds(next, p, before[p])
    {
      if p.InDoom? {
        AmongStep(files, n, p.rel);
      }
      assert Holds(now, p, before[p]);
    }
    forall r | InDoom(r) in next && InDoom(r) !in before
      ensures Among(files, n + 1, r)
    {
      AmongStep(files, n, r);
    }
  }

  lemma PlacedPlain(before: Files<Place>, now: Files<Place>, next: Files<Place>, prior: seq<Backup>, made: seq<Backup>,
                    own: Ownership, files: seq<Shipped>, n: nat)
    requires n < |files| && DistinctRels(files) && Placed(before, now, prior, made, own, files, n)
    requires Foreign(before, own, files[n].rel) ==> HasBackupFor(prior, files[n].rel)
    requires next == now[InDoom(files[n].rel) := files[n].bytes]
    ensures Placed(before, next, prior, made, own, files, n + 1)
  {
    hide Foreign, Among, HasBackupFor, SameElsewhere;
    ElsewhereStep(before, now, next, made, made, files, n);
    forall b | b in made
      ensures Among(files, n + 1, b.rel)
    {
      AmongStep(files, n, b.rel);
    }
  }

  lemma FiledStep(before: Files<Place>, now: Files<Place>, next: Files<Place>, made: seq<Backup>, own: Ownership, e: Shipped,
                  at: Place)
    requires Filed(before, now, made, own) && InDoom(e.rel) in now && forall b :: b in made ==> b.rel != e.rel
    requires Foreign(before, own, e.rel) && now[InDoom(e.rel)] == before[InDoom(e.rel)]
    requires at.InStore? && at !in now && at !in before
    requires next == Moved(now, InDoom(e.rel), at)[InDoom(e.rel) := e.bytes]
    ensures Filed(before, next, made + [Backup(e.rel, at)], own)
  {
    hide Foreign;
    var more := made + [Backup(e.rel, at)];
    assert forall b :: b in more <==> b in made || b == Backup(e.rel, at);
    forall i, j | 0 <= i < j < |more|
      ensures more[i].rel != more[j].rel && more[i].at != more[j].at
    {
      assert more[i] in made;
    }
  }

  lemma PlacedMoved(before: Files<Place>, now: Files<Place>, next: Files<Place>, prior: seq<Backup>, made: seq<Backup>,
                    own: Ownership, files: seq<Shipped>, n: nat, at: Place)
    requires n < |files| && DistinctRels(files) && Placed(before, now, prior, made, own, files, n)
    requires Foreign(before, own, files[n].rel) && InDoom(files[n].rel) in now && !HasBackupFor(prior, files[n].rel)
    requires now[InDoom(files[n].rel)] == before[InDoom(files[n].rel)]
    requires at.InStore? && at !in now && at !in before
    requires next == Moved(now, InDoom(files[n].rel), at)[InDoom(files[n].rel) := files[n].bytes]
    ensures Placed(before, next, prior, made + [Backup(files[n].rel, at)], own, files, n + 1)
  {
    hide Among, Foreign, Filed;
    var e, more := files[n], made + [Backup(files[n].rel, at)];
    assert Backup(e.rel, at) in more;
    assert forall b :: b in more <==> b in made || b == Backup(e.rel, at);
    ElsewhereStep(before, now, next, made, more, files, n);
    hide SameElsewhere;
    forall b | b in more
      ensures Among(files, n + 1, b.rel) && !HasBackupFor(prior, b.rel)
    {
      AmongStep(files, n, b.rel);
    }
    AmongStep(files, n, e.rel);
    FiledStep(before, now, next, made, own, e, at);
  }

  /** A path whose turn is still to come has a backup only if it had one from the start. */
  lemma BackedBefore(prior: seq<Backup>, made: seq<Backup>, files: seq<Shipped>, n: nat)
    requires n < |files| && DistinctRels(files) && forall b :: b in made ==> Among(files, n, b.rel)
    ensures HasBackupFor(prior + made, files[n].rel) <==> HasBackupFor(prior, files[n].rel)
  {
    var r := files[n].rel;
    if HasBackupFor(prior, r) {
      var b :| b in prior && b.rel == r;
      assert b in prior + made;
    }
    if HasBackupFor(prior + made, r) {
      var b :| b in prior + made && b.rel == r;
      AmongStep(files, n, r);
      assert b in prior;
    }
  }

  lemma PlacedStep(before: Files<Place>, now: Files<Place>, next: Files<Place>, prior: seq<Backup>, made: seq<Backup>,
                   all: seq<Backup>, own: Ownership, files: seq<Shipped>, n: nat)
    returns (more: seq<Backup>)
    requires n < |files| && DistinctRels(files) && Placed(before, now, prior, made, own, files, n)
    requires PlacedOne(now, next, prior + made, all, own, files[n])
    ensures all == prior + more && Placed(before, next, prior, more, own, files, n + 1)
  {
    hide Ownership.Ours, Filed, HasBackupFor;
    var r := files[n].rel;
    AmongStep(files, n, r);
    BackedBefore(prior, made, files, n);
    assert InDoom(r) in now <==> InDoom(r) in before;
    assert InDoom(r) in now ==> now[InDoom(r)] == before[InDoom(r)];
    if Foreign(now, own, r) && !HasBackupFor(prior, r) {
      var at: Place :| at.InStore? && at !in now && all == prior + made + [Backup(r, at)]
                       && next == Moved(now, InDoom(r), at)[InDoom(r) := files[n].bytes];
      more := made + [Backup(r, at)];
      PlacedMoved(before, now, next, prior, made, own, files, n, at);
    } else {
      more := made;
      PlacedPlain(before, now, next, prior, made, own, files, n);
    }
  }

  /** Places the pair, one file after the other, stopping at the first that cannot be kept or written. */
  method PlaceFiles(disk: Disk<Place>, rec: Record, own: Ownership, files: seq<Shipped>, ghost exposed: set<Rel>)
    returns (ok: bool, ghost made: seq<Backup>)
    requires disk.Valid() && forall s :: ConservesBut(disk.files, s, own, exposed) ==> disk.safe(s)
    requires DistinctRels(files) && forall e :: e in files ==> e.bytes in own.digests
    requires forall e :: e in files && Unprotected(disk.files, rec.backups, own, e.rel) ==> e.rel in exposed
    modifies disk, rec`backups
    ensures disk.Valid() && disk.faults >= old(disk.faults)
    ensures ConservesBut(old(disk.files), disk.files, own, exposed)
    ensures disk.faults == old(disk.faults) && ok ==>
              rec.backups == old(rec.backups) + made
              && Placed(old(disk.files), disk.files, old(rec.backups), made, own, files, |files|)
  {
    hide *;
    ghost var before, prior := disk.files, rec.backups;
    made := [];
    NothingPlaced(before, prior, own, files);
    ConservesIsEnough(before, before, own, exposed);
    ok := true;
    var i := 0;
    while i < |files| && ok
      invariant 0 <= i <= |files| && disk.Valid() && disk.faults >= old(disk.faults)
      invariant ConservesBut(before, disk.files, own, exposed)
      invariant ok ==> forall k :: i <= k < |files| && Unprotected(disk.files, rec.backups, own, files[k].rel) ==>
                         files[k].rel in exposed
      invariant disk.faults == old(disk.faults) && ok ==>
                  rec.backups == prior + made && Placed(before, disk.files, prior, made, own, files, i)
    {
      ghost var now, backups := disk.files, rec.backups;
      SafeButAfter(disk, before, now, own, exposed);
      ok := PlaceFile(disk, rec, own, files[i], exposed);
      ConservesButChains(before, now, disk.files, own, exposed);
      NoneExposed(now, disk.files, backups, rec.backups, own, files, i);
      if disk.faults == old(disk.faults) && ok {
        made := PlacedStep(before, now, disk.files, prior, made, rec.backups, own, files, i);
      }
      i := i + 1;
    }
  }

  lemma NothingPlaced(s: Files<Place>, prior: seq<Backup>, own: Ownership, files: seq<Shipped>)
    ensures Conserves(s, s, own) && Placed(s, s, prior, [], own, files, 0)
  {
  }

  /** The file is replaced for the first time, and so is filed. */
  predicate GetsFiled(s: Files<Place>, prior: seq<Backup>, own: Ownership, e: Shipped, b: Bytes) {
    Holds(s, InDoom(e.rel), b) && !own.Ours(e.rel, b) && !HasBackupFor(prior, e.rel)
  }

  /** These bytes are in the store already, or get there with a file of the pair that is filed. */
  ghost predicate Kept(s: Files<Place>, prior: seq<Backup>, own: Ownership, files: seq<Shipped>, b: Bytes) {
    || (exists q: Place :: q.InStore? && Holds(s, q, b))
    || exists k :: 0 <= k < |files| && GetsFiled(s, prior, own, files[k], b)
  }

  /** Every file in the way whose path has a backup already is kept by other means. */
  ghost predicate Covered(s: Files<Place>, prior: seq<Backup>, own: Ownership, files: seq<Shipped>) {
    forall k :: 0 <= k < |files| && Unprotected(s, prior, own, files[k].rel) ==>
                  Kept(s, prior, own, files, s[InDoom(files[k].rel)])
  }

  lemma FiledIsKept(before: Files<Place>, after: Files<Place>, prior: seq<Backup>, made: seq<Backup>, own: Ownership,
                    files: seq<Shipped>, k: nat)
    requires k < |files| && Placed(before, after, prior, made, own, files, |files|)
    requires Foreign(before, own, files[k].rel) && !HasBackupFor(prior, files[k].rel)
    ensures exists q: Place :: q.InStore? && Holds(after, q, before[InDoom(files[k].rel)])
  {
    hide SameElsewhere, Among, Ownership.Ours;
    assert HasBackupFor(made, files[k].rel);
    var b :| b in made && b.rel == files[k].rel;
    assert b.at.InStore? && Holds(after, b.at, before[InDoom(b.rel)]);
  }

  /** What the store holds afterwards was there before or has been filed. */
  lemma StoreIsKept(before: Files<Place>, after: Files<Place>, prior: seq<Backup>, made: seq<Backup>, own: Ownership,
                    files: seq<Shipped>, q: Place)
    requires Placed(before, after, prior, made, own, files, |files|) && q.InStore? && q in after
    ensures Kept(before, prior, own, files, after[q])
  {
    if q in before {
      assert Holds(before, q, after[q]);
    } else {
      var b :| b in made && b.at == q;
      assert Among(files, |files|, b.rel);
      var k :| 0 <= k < |files| && files[k].rel == b.rel;
      assert GetsFiled(before, prior, own, files[k], after[q]);
    }
  }

  /** A file in the way that is not ours outlasts the placing exactly when it is filed or kept by other means. */
  lemma OutlastsIff(before: Files<Place>, after: Files<Place>, prior: seq<Backup>, made: seq<Backup>, own: Ownership,
                    files: seq<Shipped>, k: nat)
    requires k < |files| && Placed(before, after, prior, made, own, files, |files|) && files[k].bytes in own.digests
    requires Foreign(before, own, files[k].rel)
    ensures Fate(before, after, own, InDoom(files[k].rel)) <==>
            (HasBackupFor(prior, files[k].rel) ==> Kept(before, prior, own, files, before[InDoom(files[k].rel)]))
  {
    hide Contains;
    var p := InDoom(files[k].rel);
    assert Holds(after, p, files[k].bytes) && files[k].bytes != before[p];
    if Fate(before, after, own, p) {
      hide Placed;
      var q: Place :| q.InStore? && Holds(after, q, before[p]);
      StoreIsKept(before, after, prior, made, own, files, q);
    } else if !HasBackupFor(prior, files[k].rel) {
      FiledIsKept(before, after, prior, made, own, files, k);
    } else if Kept(before, prior, own, files, before[p]) {
      KeptOutlasts(before, after, prior, made, own, files, before[p]);
    }
  }

  lemma KeptOutlasts(before: Files<Place>, after: Files<Place>, prior: seq<Backup>, made: seq<Backup>, own: Ownership,
                     files: seq<Shipped>, b: Bytes)
    requires Placed(before, after, prior, made, own, files, |files|) && Kept(before, prior, own, files, b)
    ensures exists q: Place :: q.InStore? && Holds(after, q, b)
  {
    if q: Place :| q.InStore? && Holds(before, q, b) {
      assert Holds(after, q, b);
    } else {
      var k :| 0 <= k < |files| && GetsFiled(before, prior, own, files[k], b);
      FiledIsKept(before, after, prior, made, own, files, k);
    }
  }

  /** Placing the pair destroys no file that is not ours exactly when all are covered. */
  lemma PlacingConservesIff(before: Files<Place>, after: Files<Place>, prior: seq<Backup>, made: seq<Backup>,
                            own: Ownership, files: seq<Shipped>)
    requires Placed(before, after, prior, made, own, files, |files|) && forall e :: e in files ==> e.bytes in own.digests
    ensures Conserves(before, after, own) <==> Covered(before, prior, own, files)
  {
    hide Contains, Kept, HasBackupFor;
    forall k | 0 <= k < |files| && Foreign(before, own, files[k].rel)
      ensures Fate(before, after, own, InDoom(files[k].rel)) <==>
              (HasBackupFor(prior, files[k].rel) ==> Kept(before, prior, own, files, before[InDoom(files[k].rel)]))
    {
      OutlastsIff(before, after, prior, made, own, files, k);
    }
    forall p | p in before && !(p.InDoom? && Among(files, |files|, p.rel))
      ensures Fate(before, after, own, p)
    {
    }
    if Covered(before, prior, own, files) {
      forall p | p in before
        ensures Fate(before, after, own, p)
      {
        if p.InDoom? && Among(files, |files|, p.rel) && Foreign(before, own, p.rel) {
          var k :| 0 <= k < |files| && files[k].rel == p.rel;
        }
      }
    }
  }

  lemma SafeButAfter(disk: Disk<Place>, before: Files<Place>, now: Files<Place>, own: Ownership, exposed: set<Rel>)
    requires ConservesBut(before, now, own, exposed)
    requires forall s :: ConservesBut(before, s, own, exposed) ==> disk.safe(s)
    ensures forall s :: ConservesBut(now, s, own, exposed) ==> disk.safe(s)
  {
    forall s | ConservesBut(now, s, own, exposed)
      ensures disk.safe(s)
    {
      ConservesButChains(before, now, s, own, exposed);
    }
  }

  /** Placing one file exposes no other one. */
  lemma NoneExposed(before: Files<Place>, after: Files<Place>, b: seq<Backup>, c: seq<Backup>, own: Ownership,
                    files: seq<Shipped>, i: nat)
    requires DistinctRels(files) && i < |files|
    requires AddsAtMost(b, c, files[i].rel)
    requires forall p: Place :: p.InDoom? && p != InDoom(files[i].rel) && p in after ==> Holds(before, p, after[p])
    ensures forall k :: i < k < |files| && Unprotected(after, c, own, files[k].rel) ==>
              Unprotected(before, b, own, files[k].rel)
  {
    hide Ownership.Ours;
  }

  /** No bytes have been lost: every file's are still somewhere. */
  ghost predicate Survives(before: Files<Place>, s: Files<Place>) {
    forall p :: p in before ==> exists q :: Holds(s, q, before[p])
  }

  lemma SurvivesChains(a: Files<Place>, b: Files<Place>, c: Files<Place>)
    requires Survives(a, b) && Survives(b, c)
    ensures Survives(a, c)
  {
    forall p | p in a
      ensures exists q :: Holds(c, q, a[p])
    {
      var q :| Holds(b, q, a[p]);
    }
  }

  lemma MovingSurvives(before: Files<Place>, s: Files<Place>, src: Place, dst: Place)
    requires src in before && dst !in before && Moving(before, s, src, dst)
    ensures Survives(before, s)
  {
    forall p | p in before
      ensures exists q :: Holds(s, q, before[p])
    {
      assert Holds(s, p, before[p]) || Holds(s, dst, before[p]);
    }
  }

  /** One of the first n backups is the one kept at p, or stands for r. */
  predicate TakenFrom(backups: seq<Backup>, n: nat, p: Place)
    requires n <= |backups|
  {
    exists k :: 0 <= k < n && backups[k].at == p
  }

  predicate GivenBack(backups: seq<Backup>, n: nat, r: Rel)
    requires n <= |backups|
  {
    exists k :: 0 <= k < n && backups[k].rel == r
  }

  /** The file kept as b is back at its path, with its bytes. */
  ghost predicate IsBack(before: Files<Place>, s: Files<Place>, b: Backup) {
    b.at in before && Holds(s, InDoom(b.rel), before[b.at]) && b.at !in s
  }

  /** The first n backups are back where they were; nothing else differs. */
  ghost predicate Restored(before: Files<Place>, s: Files<Place>, backups: seq<Backup>, n: nat)
    requires n <= |backups|
  {
    && (forall k :: 0 <= k < n ==> IsBack(before, s, backups[k]))
    && (forall p :: p in before && !TakenFrom(backups, n, p) ==> Holds(s, p, before[p]))
    && (forall p :: p in s && p !in before ==> p.InDoom? && GivenBack(backups, n, p.rel))
  }

  /** The backups are in the store, under different names, and their paths are different and free. */
  ghost predicate Restorable(s: Files<Place>, backups: seq<Backup>) {
    && (forall k :: 0 <= k < |backups| ==>
          backups[k].at.InStore? && backups[k].at in s && InDoom(backups[k].rel) !in s)
    && (forall i, j :: 0 <= i < j < |backups| ==> backups[i].rel != backups[j].rel && backups[i].at != backups[j].at)
  }

  lemma TakenStep(backups: seq<Backup>, n: nat, p: Place)
    requires n < |backups|
    ensures TakenFrom(backups, n + 1, p) <==> TakenFrom(backups, n, p) || p == backups[n].at
  {
    if TakenFrom(backups, n, p) {
      var k :| 0 <= k < n && backups[k].at == p;
      assert 0 <= k < n + 1 && backups[k].at == p;
    }
  }

  lemma GivenStep(backups: seq<Backup>, n: nat, r: Rel)
    requires n < |backups|
    ensures GivenBack(backups, n + 1, r) <==> GivenBack(backups, n, r) || r == backups[n].rel
  {
    if GivenBack(backups, n, r) {
      var k :| 0 <= k < n && backups[k].rel == r;
      assert 0 <= k < n + 1 && backups[k].rel == r;
    }
  }

  /** The next backup is still in the store and its path is still free. */
  lemma NextIsReady(before: Files<Place>, now: Files<Place>, backups: seq<Backup>, n: nat)
    requires n < |backups| && Restorable(before, backups) && Restored(before, now, backups, n)
    ensures backups[n].at.InStore? && InDoom(backups[n].rel) !in now && InDoom(backups[n].rel) !in before
    ensures backups[n].at in before && Holds(now, backups[n].at, before[backups[n].at])
    ensures forall k :: 0 <= k < n ==> backups[k].rel != backups[n].rel && backups[k].at != backups[n].at
    ensures forall k :: 0 <= k < n ==> backups[k].at.InStore?
  {
    assert !TakenFrom(backups, n, backups[n].at);
    assert !GivenBack(backups, n, backups[n].rel);
  }

  /** Restoring one more backup leaves the ones before it in place. */
  lemma RestoredStep(before: Files<Place>, now: Files<Place>, backups: seq<Backup>, n: nat)
    requires n < |backups| && Restorable(before, backups) && Restored(before, now, backups, n) && backups[n].at in now
    ensures Restored(before, Moved(now, backups[n].at, InDoom(backups[n].rel)), backups, n + 1)
  {
    hide Restorable, TakenFrom, GivenBack;
    NextIsReady(before, now, backups, n);
    var next := Moved(now, backups[n].at, InDoom(backups[n].rel));
    forall k | 0 <= k < n + 1
      ensures IsBack(before, next, backups[k])
    {
      if k < n {
        assert IsBack(before, now, backups[k]);
      }
    }
    forall p | p in before && !TakenFrom(backups, n + 1, p)
      ensures Holds(next, p, before[p])
    {
      TakenStep(backups, n, p);
    }
    forall p | p in next && p !in before
      ensures p.InDoom? && GivenBack(backups, n + 1, p.rel)
    {
      assert p.InDoom?;
      GivenStep(backups, n, p.rel);
    }
  }

  /** Puts one kept file back, unless a file is in its place by then. */
  method RestoreOne(disk: Disk<Place>, b: Backup) returns (ok: bool)
    requires disk.Valid() && forall s :: Survives(disk.files, s) ==> disk.safe(s)
    modifies disk
    ensures disk.Valid() && disk.faults >= old(disk.faults)
    ensures Survives(old(disk.files), disk.files)
    ensures forall p: Place :: p.InDoom? && p != b.at && p in old(disk.files) ==> Holds(disk.files, p, old(disk.files)[p])
    ensures ok ==> b.at in old(disk.files) && disk.files == Moved(old(disk.files), b.at, InDoom(b.rel))
    ensures disk.faults == old(disk.faults) && b.at in old(disk.files) && InDoom(b.rel) !in old(disk.files) ==> ok
    ensures disk.faults == old(disk.faults) && !ok ==> disk.files == old(disk.files)
  {
    ok := false;
    ghost var now := disk.files;
    if InDoom(b.rel) in disk.files || b.at !in disk.files {
      MovedSurvives(now);
      return;
    }
    forall s | Moving(now, s, b.at, InDoom(b.rel))
      ensures disk.safe(s) && Survives(now, s)
    {
      MovingSurvives(now, s, b.at, InDoom(b.rel));
    }
    ok := MoveFile(disk, b.at, InDoom(b.rel));
    assert Moving(now, disk.files, b.at, InDoom(b.rel));
  }

  /** A move brings no new bytes. */
  lemma MovedBack(s: Files<Place>, src: Place, dst: Place)
    requires src in s
    ensures Survives(Moved(s, src, dst), s)
  {
    var next := Moved(s, src, dst);
    forall p | p in next
      ensures exists q :: Holds(s, q, next[p])
    {
      assert Holds(s, if p == dst then src else p, next[p]);
    }
  }

  lemma MovedSurvives(s: Files<Place>)
    ensures Survives(s, s)
  {
    forall p | p in s
      ensures exists q :: Holds(s, q, s[p])
    {
      assert Holds(s, p, s[p]);
    }
  }

  /** No bytes are lost, and without faults every backup is back at its path. */
  method RestoreBackups(disk: Disk<Place>, backups: seq<Backup>)
    requires disk.Valid() && forall s :: Survives(disk.files, s) ==> disk.safe(s)
    modifies disk
    ensures disk.Valid() && disk.faults >= old(disk.faults)
    ensures Survives(old(disk.files), disk.files)
    ensures disk.faults == old(disk.faults) && Restorable(old(disk.files), backups) ==>
              Restored(old(disk.files), disk.files, backups, |backups|)
    ensures disk.faults == old(disk.faults) ==> Survives(disk.files, old(disk.files))
  {
    hide *;
    ghost var before := disk.files;
    MovedSurvives(before);
    NothingRestored(before, backups);
    for i := 0 to |backups|
      invariant disk.Valid() && disk.faults >= old(disk.faults)
      invariant Survives(before, disk.files)
      invariant disk.faults == old(disk.faults) && Restorable(before, backups) ==> Restored(before, disk.files, backups, i)
      invariant disk.faults == old(disk.faults) ==> Survives(disk.files, before)
    {
      ghost var now := disk.files;
      forall s | Survives(now, s)
        ensures disk.safe(s) && Survives(before, s)
      {
        SurvivesChains(before, now, s);
      }
      if disk.faults == old(disk.faults) && Restorable(before, backups) {
        NextIsReady(before, now, backups, i);
        HoldsMeans(now, backups[i].at, before[backups[i].at]);
        RestoredStep(before, now, backups, i);
      }
      var moved := RestoreOne(disk, backups[i]);
      if disk.faults == old(disk.faults) {
        if moved {
          MovedBack(now, backups[i].at, InDoom(backups[i].rel));
        }
        SurvivesChains(disk.files, now, before);
      }
    }
  }

  lemma HoldsMeans(s: Files<Place>, p: Place, b: Bytes)
    requires Holds(s, p, b)
    ensures p in s
  {
  }

  lemma NothingRestored(s: Files<Place>, backups: seq<Backup>)
    ensures Restored(s, s, backups, 0)
  {
  }
}
