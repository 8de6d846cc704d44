/** Installing into a DOOM folder and uninstalling again (installer/install.go:88-139, 358-393). */
module DoomRoundTrip {
  import opened Options
  import opened Disks
  import opened DoomFolder
  import opened DoomClean
  import opened DoomInstall

  /** An uninstall knows its files by the record and by the marker alone. */
  function ByRecord(listed: seq<Rel>): Ownership {
    Ownership(AsSet(listed), {})
  }

  /** Every file not ours is still somewhere. */
  ghost predicate KeptSomewhere(before: Files<Place>, s: Files<Place>, own: Ownership) {
    forall p :: p in before ==> (p.InDoom? && own.Ours(p.rel, before[p])) || exists q :: Holds(s, q, before[p])
  }

  lemma KeptThrough(a: Files<Place>, b: Files<Place>, c: Files<Place>, own: Ownership)
    requires Conserves(a, b, own) && Survives(b, c)
    ensures KeptSomewhere(a, c, own)
  {
    forall p | p in a && !(p.InDoom? && own.Ours(p.rel, a[p]))
      ensures exists q :: Holds(c, q, a[p])
    {
      assert Fate(a, b, own, p);
      var q :| Holds(b, q, a[p]);
    }
  }

  /**
   * Where an install may lose a file that is not ours: at a path it writes to that has a backup recorded, or gets
   * one from an old backup.
   */
  ghost predicate Exposed(s: Files<Place>, backups: seq<Backup>, own: Ownership, files: seq<Shipped>, r: Rel) {
    r in Rels(files) && Foreign(s, own, r) && MayBeBacked(s, backups, r)
  }

  /** Every path at which an install may lose a file. */
  ghost predicate Exposes(s: Files<Place>, backups: seq<Backup>, own: Ownership, files: seq<Shipped>, exposed: set<Rel>) {
    forall r :: Exposed(s, backups, own, files, r) ==> r in exposed
  }

  lemma CleanedExposes(before: Files<Place>, cleaned: Files<Place>, x: seq<Backup>, y: seq<Backup>, own: Ownership,
                       files: seq<Shipped>, listed: seq<Rel>, exposed: set<Rel>)
    requires Cleans(before, cleaned, own, Rels(files), listed) && BacksOnly(before, x, y)
    requires Exposes(before, x, own, files, exposed)
    ensures forall e :: e in files && Unprotected(cleaned, y, own, e.rel) ==> e.rel in exposed
  {
    hide Ownership.Ours;
    forall e | e in files && Unprotected(cleaned, y, own, e.rel)
      ensures e.rel in exposed
    {
      var k :| 0 <= k < |files| && files[k] == e;
      assert Rels(files)[k] == e.rel;
      var b :| b in y && b.rel == e.rel;
      assert MayBeBacked(before, x, b.rel);
      assert Exposed(before, x, own, files, e.rel);
    }
  }

  /** The recorded backups whose copy is there. */
  function Live(backups: seq<Backup>, s: Files<Place>): (live: seq<Backup>)
    ensures AreLive(live, backups, s)
  {
    if backups == [] then [] else (if backups[0].at in s then [backups[0]] else []) + Live(backups[1..], s)
  }

  lemma AfterCleaning(before: Files<Place>, cleaned: Files<Place>, after: Files<Place>, own: Ownership,
                      files: seq<Shipped>, listed: seq<Rel>, kept: seq<Backup>, made: seq<Backup>)
    requires Cleans(before, cleaned, own, Rels(files), listed) && Conserves(before, cleaned, own)
    requires Placed(cleaned, after, kept, made, own, files, |files|) && forall e :: e in files ==> e.bytes in own.digests
    ensures Conserves(before, after, own) <==> Covered(cleaned, kept, own, files)
  {
    hide Covered, Ownership.Ours, MayGo, Filed, Among;
    PlacingConservesIff(cleaned, after, kept, made, own, files);
    if Conserves(cleaned, after, own) {
      ConservesChains(before, cleaned, after, own);
    }
    if Conserves(before, after, own) {
      forall p | p in cleaned
        ensures Fate(cleaned, after, own, p)
      {
        if p in before {
          assert Fate(before, after, own, p);
        }
      }
    }
  }

  lemma BackedAlike(a: seq<Backup>, b: seq<Backup>, r: Rel)
    requires forall e :: e in a <==> e in b
    ensures HasBackupFor(a, r) <==> HasBackupFor(b, r)
  {
  }

  lemma KeptAlike(before: Files<Place>, cleaned: Files<Place>, own: Ownership, files: seq<Shipped>, listed: seq<Rel>,
                  kept: seq<Backup>, live: seq<Backup>, b: Bytes)
    requires CleansPlain(before, cleaned, own, Rels(files), listed) && forall e :: e in kept <==> e in live
    ensures Kept(cleaned, kept, own, files, b) <==> Kept(before, live, own, files, b)
  {
    hide Ownership.Ours, HasBackupFor;
    forall q: Place | q.InStore?
      ensures Holds(cleaned, q, b) <==> Holds(before, q, b)
    {
    }
    forall k | 0 <= k < |files|
      ensures GetsFiled(cleaned, kept, own, files[k], b) <==> GetsFiled(before, live, own, files[k], b)
    {
      assert Rels(files)[k] == files[k].rel;
      BackedAlike(kept, live, files[k].rel);
    }
  }

  /** In a folder without old backups cleaning changes nothing about what is covered. */
  lemma CoveredAlike(before: Files<Place>, cleaned: Files<Place>, own: Ownership, files: seq<Shipped>, listed: seq<Rel>,
                     kept: seq<Backup>, live: seq<Backup>)
    requires CleansPlain(before, cleaned, own, Rels(files), listed) && forall e :: e in kept <==> e in live
    ensures Covered(cleaned, kept, own, files) <==> Covered(before, live, own, files)
  {
    hide Ownership.Ours, HasBackupFor, Kept;
    forall k | 0 <= k < |files|
      ensures InDoom(files[k].rel) in cleaned <==> InDoom(files[k].rel) in before
      ensures InDoom(files[k].rel) in cleaned ==> cleaned[InDoom(files[k].rel)] == before[InDoom(files[k].rel)]
      ensures HasBackupFor(kept, files[k].rel) <==> HasBackupFor(live, files[k].rel)
    {
      assert Rels(files)[k] == files[k].rel;
      BackedAlike(kept, live, files[k].rel);
    }
    forall k | 0 <= k < |files| && InDoom(files[k].rel) in before
      ensures Kept(cleaned, kept, own, files, before[InDoom(files[k].rel)]) <==>
              Kept(before, live, own, files, before[InDoom(files[k].rel)])
    {
      KeptAlike(before, cleaned, own, files, listed, kept, live, before[InDoom(files[k].rel)]);
    }
  }

  /** The record names no backup that lies in the DOOM folder itself. */
  predicate AllStored(backups: seq<Backup>) {
    forall b :: b in backups ==> b.at.InStore?
  }

  /**
   * Cleaning and placing together lose no file that is not ours, at any moment, but for the exposed ones. When
   * nothing fails they lose none exactly when all are covered.
   */
  method Install(disk: Disk<Place>, rec: Record, own: Ownership, files: seq<Shipped>, ghost exposed: set<Rel>)
    returns (ok: bool, ghost cleaned: Files<Place>, ghost kept: seq<Backup>, ghost made: seq<Backup>)
    requires disk.Valid() && forall s :: ConservesBut(disk.files, s, own, exposed) ==> disk.safe(s)
    requires DistinctRels(files) && forall e :: e in files ==> e.bytes in own.digests
    requires Exposes(disk.files, rec.backups, own, files, exposed)
    modifies disk, rec
    ensures disk.Valid() && disk.faults >= old(disk.faults)
    ensures ConservesBut(old(disk.files), disk.files, own, exposed)
    ensures ok ==> rec.files == Rels(files)
    ensures Cleans(old(disk.files), cleaned, own, Rels(files), old(rec.files))
    ensures NoOldBackups(old(disk.files)) ==> CleansPlain(old(disk.files), cleaned, own, Rels(files), old(rec.files))
    ensures disk.faults == old(disk.faults) ==> Clean(old(disk.files), cleaned, own, Rels(files), old(rec.files))
    ensures disk.faults == old(disk.faults) && ok ==>
              rec.backups == kept + made && Placed(cleaned, disk.files, kept, made, own, files, |files|)
              && (Conserves(old(disk.files), disk.files, own) <==> Covered(cleaned, kept, own, files))
    ensures NoOldBackups(old(disk.files)) && old(rec.backups) == [] ==> kept == []
    ensures disk.faults == old(disk.faults) && ok && NoOldBackups(old(disk.files)) && AllStored(old(rec.backups)) ==>
              (Conserves(old(disk.files), disk.files, own) <==>
               Covered(old(disk.files), Live(old(rec.backups), old(disk.files)), own, files))
  {
    hide *;
    ghost var before := disk.files;
    ghost var listed, backups := rec.files, rec.backups;
    SafeBut(disk, before, own, exposed);
    CleanDoomFolder(disk, rec, Rels(files), own);
    cleaned, kept := disk.files, rec.backups;
    NoneKept(backups, kept);
    ConservesIsEnough(before, cleaned, own, exposed);
    SafeButAfter(disk, before, cleaned, own, exposed);
    CleanedExposes(before, cleaned, backups, rec.backups, own, files, listed, exposed);
    ok, made := PlaceFiles(disk, rec, own, files, exposed);
    ConservesButChains(before, cleaned, disk.files, own, exposed);
    if disk.faults == old(disk.faults) && ok {
      AfterCleaning(before, cleaned, disk.files, own, files, listed, kept, made);
      if NoOldBackups(before) && AllStored(backups) {
        StoredIsLive(before, backups, kept);
        CoveredAlike(before, cleaned, own, files, listed, kept, Live(backups, before));
      }
    }
    if ok {
      rec.files := Rels(files);
      var saved: bool := *;
      ok := saved;
    }
  }

  lemma NoneKept(backups: seq<Backup>, kept: seq<Backup>)
    ensures backups == [] && (forall b :: b in kept ==> b in backups) ==> kept == []
  {
    if kept != [] {
      assert kept[0] in kept;
    }
  }

  lemma StoredIsLive(s: Files<Place>, backups: seq<Backup>, kept: seq<Backup>)
    requires AllStored(backups) && ((forall b :: b in backups ==> b.at.InStore?) ==> AreLive(kept, backups, s))
    ensures forall b :: b in kept <==> b in Live(backups, s)
  {
  }

  predicate Marked(b: Bytes) {
    Contains(b, MARKER) || Contains(b, Wide(MARKER))
  }

  /** The file at r is one that an uninstall takes: a listed one, or one with the marker where it looks for it. */
  predicate TakenAway(s: Files<Place>, listed: seq<Rel>, r: Rel)
    requires InDoom(r) in s
  {
    r in listed || (Marked(s[InDoom(r)]) && (r in OUR_NAMES || r.dir == OWN_DIR || IsOldBackup(r)))
  }

  /** Some file with these bytes is none of those. */
  ghost predicate Spared(s: Files<Place>, listed: seq<Rel>, b: Bytes) {
    exists q: Place :: Holds(s, q, b) && !(q.InDoom? && TakenAway(s, listed, q.rel))
  }

  ghost predicate Somewhere(s: Files<Place>, b: Bytes) {
    exists q: Place :: Holds(s, q, b)
  }

  lemma ScannedMeans(s: Files<Place>, listed: seq<Rel>, r: Rel)
    requires InDoom(r) in s
    ensures r in Scanned(s, listed) <==> r in OUR_NAMES || r in listed || r.dir == OWN_DIR
  {
    assert InDoom(r).InDoom? && InDoom(r).rel == r;
    assert r in AsSet(OUR_NAMES + listed) <==> r in OUR_NAMES || r in listed;
  }

  lemma TakenAwayIs(s: Files<Place>, listed: seq<Rel>, r: Rel)
    requires InDoom(r) in s
    ensures TakenAway(s, listed, r) <==>
            MayGo(s, ByRecord(listed), [], listed, r) || (IsOldBackup(r) && ByRecord(listed).ByContent(s[InDoom(r)]))
  {
    hide Contains, IsOldBackup, Scanned;
    ScannedMeans(s, listed, r);
    assert r in AsSet(listed) <==> r in listed;
  }

  /** What stays behind in the DOOM folder was spared. */
  lemma LeftWasSpared(before: Files<Place>, after: Files<Place>, listed: seq<Rel>, q: Place)
    requires Clean(before, after, ByRecord(listed), [], listed) && Cleans(before, after, ByRecord(listed), [], listed)
    requires Arrives(before, after, ByRecord(listed), [], listed) && q in after
    ensures Spared(before, listed, after[q])
  {
    hide Contains, IsOldBackup, Marked, Scanned, TakenAway;
    if q in before {
      if q.InDoom? {
        TakenAwayIs(before, listed, q.rel);
        OldAreLooked(q.rel);
      }
      assert Holds(before, q, after[q]);
    } else {
      var own := ByRecord(listed);
      assert SparedOld(before, own, [], listed, after[q]);
      var r :| Holds(before, InDoom(r), after[q]) && IsOldBackup(r) && !own.ByContent(after[q])
               && !(r in OUR_NAMES + listed && r !in [] && r in own.recorded);
      TakenAwayIs(before, listed, r);
      assert Holds(before, InDoom(r), after[q]) && !(InDoom(r).InDoom? && TakenAway(before, listed, InDoom(r).rel));
    }
  }

  lemma OldAreLooked(r: Rel)
    ensures IsOldBackup(r) ==> r.dir == "" || r.dir == OWN_DIR
  {
  }

  /** What was spared is left. */
  lemma SparedIsLeft(before: Files<Place>, after: Files<Place>, listed: seq<Rel>, q: Place)
    requires Conserves(before, after, ByRecord(listed)) && Cleans(before, after, ByRecord(listed), [], listed)
    requires q in before && !(q.InDoom? && TakenAway(before, listed, q.rel))
    ensures Somewhere(after, before[q])
  {
    hide Contains, IsOldBackup, Marked, Scanned, TakenAway, Ownership.ByContent;
    if q in after {
      assert Holds(after, q, before[q]);
    } else {
      TakenAwayIs(before, listed, q.rel);
      ListedMayGo(before, listed, q.rel);
      assert Fate(before, after, ByRecord(listed), q);
      var p: Place :| p.InStore? && Holds(after, p, before[q]);
    }
  }

  lemma ListedMayGo(s: Files<Place>, listed: seq<Rel>, r: Rel)
    requires InDoom(r) in s
    ensures r in listed ==> MayGo(s, ByRecord(listed), [], listed, r)
  {
    hide Contains;
  }

  /** Cleaning for an uninstall leaves exactly the bytes of which some file is spared. */
  lemma CleaningSparesIff(before: Files<Place>, after: Files<Place>, listed: seq<Rel>, b: Bytes)
    requires Conserves(before, after, ByRecord(listed)) && Cleans(before, after, ByRecord(listed), [], listed)
    requires Clean(before, after, ByRecord(listed), [], listed) && Arrives(before, after, ByRecord(listed), [], listed)
    ensures Somewhere(after, b) <==> Spared(before, listed, b)
  {
    hide Conserves, Cleans, Clean, Arrives, TakenAway;
    if Somewhere(after, b) {
      var q :| Holds(after, q, b);
      LeftWasSpared(before, after, listed, q);
    }
    if Spared(before, listed, b) {
      var q :| Holds(before, q, b) && !(q.InDoom? && TakenAway(before, listed, q.rel));
      SparedIsLeft(before, after, listed, q);
    }
  }

  /** Moving files about neither brings nor loses bytes. */
  lemma SameBytes(a: Files<Place>, b: Files<Place>, bytes: Bytes)
    requires Survives(a, b) && Survives(b, a)
    ensures Somewhere(a, bytes) <==> Somewhere(b, bytes)
  {
    hide Survives;
    if Somewhere(a, bytes) {
      SurvivesMeans(a, b, bytes);
    }
    if Somewhere(b, bytes) {
      SurvivesMeans(b, a, bytes);
    }
  }

  lemma SurvivesMeans(a: Files<Place>, b: Files<Place>, bytes: Bytes)
    requires Survives(a, b) && Somewhere(a, bytes)
    ensures Somewhere(b, bytes)
  {
    var q :| Holds(a, q, bytes);
    var p :| Holds(b, p, a[q]);
  }

  /**
   * Every file that is not ours by the record or the marker is still somewhere. When nothing fails, the bytes that
   * are left are exactly those of which some file was spared.
   */
  method Uninstall(disk: Disk<Place>, rec: Record) returns (ghost cleaned: Files<Place>, ghost backups: seq<Backup>)
    requires disk.Valid() && forall s :: KeptSomewhere(disk.files, s, ByRecord(rec.files)) ==> disk.safe(s)
    modifies disk, rec
    ensures disk.Valid() && disk.faults >= old(disk.faults)
    ensures KeptSomewhere(old(disk.files), disk.files, ByRecord(old(rec.files)))
    ensures disk.faults == old(disk.faults) ==>
              forall b :: Somewhere(disk.files, b) <==> Spared(old(disk.files), old(rec.files), b)
    ensures Cleans(old(disk.files), cleaned, ByRecord(old(rec.files)), [], old(rec.files))
    ensures NoOldBackups(old(disk.files)) ==>
              CleansPlain(old(disk.files), cleaned, ByRecord(old(rec.files)), [], old(rec.files))
    ensures disk.faults == old(disk.faults) ==>
              Clean(old(disk.files), cleaned, ByRecord(old(rec.files)), [], old(rec.files))
    ensures NoOldBackups(old(disk.files)) && disk.faults == old(disk.faults)
            && (forall b :: b in old(rec.backups) ==> b.at.InStore? && b.at in old(disk.files))
            ==> backups == old(rec.backups)
    ensures disk.faults == old(disk.faults) && Restorable(cleaned, backups) ==>
              Restored(cleaned, disk.files, backups, |backups|)
  {
    hide *;
    ghost var before, listed := disk.files, rec.files;
    var own := ByRecord(rec.files);
    SafeToClean(disk, before, own);
    CleanDoomFolder(disk, rec, [], own);
    cleaned, backups := disk.files, rec.backups;
    SafeToRestore(disk, before, cleaned, own);
    RestoreBackups(disk, rec.backups);
    KeptThrough(before, cleaned, disk.files, own);
    if disk.faults == old(disk.faults) {
      forall b
        ensures Somewhere(disk.files, b) <==> Spared(before, listed, b)
      {
        CleaningSparesIff(before, cleaned, listed, b);
        SameBytes(cleaned, disk.files, b);
      }
    }
  }

  lemma SafeToClean(disk: Disk<Place>, before: Files<Place>, own: Ownership)
    requires forall s :: KeptSomewhere(before, s, own) ==> disk.safe(s)
    ensures forall s :: Conserves(before, s, own) ==> disk.safe(s)
  {
    hide Conserves, KeptSomewhere;
    forall s | Conserves(before, s, own)
      ensures disk.safe(s)
    {
      MovedSurvives(s);
      KeptThrough(before, s, s, own);
    }
  }

  lemma SafeToRestore(disk: Disk<Place>, before: Files<Place>, cleaned: Files<Place>, own: Ownership)
    requires Conserves(before, cleaned, own) && forall s :: KeptSomewhere(before, s, own) ==> disk.safe(s)
    ensures forall s :: Survives(cleaned, s) ==> disk.safe(s)
  {
    hide Conserves, KeptSomewhere;
    forall s | Survives(cleaned, s)
      ensures disk.safe(s)
    {
      KeptThrough(before, cleaned, s, own);
    }
  }

  /** A folder from which every file of ours in the scanned places has gone. */
  ghost predicate Stripped(before: Files<Place>, after: Files<Place>, own: Ownership) {
    && (forall p :: p in after ==> Holds(before, p, after[p]))
    && (forall p :: p in before ==> (p !in after <==> p.InDoom? && MayGo(before, own, [], [], p.rel)))
  }

  lemma OurNamesAreNoBackups(r: Rel)
    requires r in OUR_NAMES
    ensures !IsOldBackup(r)
  {
    assert r.name[|r.name| - 1] == 'l';
    assert SUFFIXES[0][|SUFFIXES[0]| - 1] == 'k' && SUFFIXES[1][|SUFFIXES[1]| - 1] == 'k';
  }

  /** After an install the folder still has no old backups. */
  lemma StillNoOldBackups(before: Files<Place>, s1: Files<Place>, s2: Files<Place>, own: Ownership, files: seq<Shipped>,
                          backups: seq<Backup>)
    requires NoOldBackups(before) && CleansPlain(before, s1, own, Rels(files), [])
    requires Placed(s1, s2, [], backups, own, files, |files|) && forall e :: e in files ==> e.rel in OUR_NAMES
    ensures NoOldBackups(s2)
  {
    forall r | InDoom(r) in s2
      ensures !IsOldBackup(r)
    {
      if Among(files, |files|, r) {
        OurNamesAreNoBackups(r);
      } else {
        assert InDoom(r) in s1;
      }
    }
  }

  lemma AmongIsListed(files: seq<Shipped>, r: Rel)
    ensures Among(files, |files|, r) <==> r in Rels(files)
  {
    if Among(files, |files|, r) {
      var k :| 0 <= k < |files| && files[k].rel == r;
      assert Rels(files)[k] == r;
    }
    if r in Rels(files) {
      var k :| 0 <= k < |Rels(files)| && Rels(files)[k] == r;
      assert files[k].rel == r;
    }
  }

  /** The uninstall's cleaning takes the placed pair away... */
  lemma PairGoes(s2: Files<Place>, s3: Files<Place>, listed: seq<Rel>, r: Rel)
    requires Clean(s2, s3, ByRecord(listed), [], listed) && r in listed
    ensures InDoom(r) !in s3
  {
    assert r in Scanned(s2, listed);
  }

  /** ...and nothing else: the install's own cleaning left nothing the marker gives away. */
  lemma OthersStay(before: Files<Place>, s1: Files<Place>, s2: Files<Place>, s3: Files<Place>, own: Ownership,
                   files: seq<Shipped>, backups: seq<Backup>, p: Place)
    requires CleansPlain(before, s1, own, Rels(files), []) && Clean(before, s1, own, Rels(files), [])
    requires Placed(s1, s2, [], backups, own, files, |files|)
    requires CleansPlain(s2, s3, ByRecord(Rels(files)), [], Rels(files))
    requires p in s2 && !(p.InDoom? && Among(files, |files|, p.rel))
    ensures p in s3 && s3[p] == s2[p]
  {
    if p.InDoom? {
      var r := p.rel;
      AmongIsListed(files, r);
      InstalledIsClean(before, s1, s2, own, files, backups, r);
    }
  }

  lemma InstalledIsClean(before: Files<Place>, s1: Files<Place>, s2: Files<Place>, own: Ownership, files: seq<Shipped>,
                         backups: seq<Backup>, r: Rel)
    requires CleansPlain(before, s1, own, Rels(files), []) && Clean(before, s1, own, Rels(files), [])
    requires Placed(s1, s2, [], backups, own, files, |files|)
    requires InDoom(r) in s2 && !Among(files, |files|, r) && r !in Rels(files)
    ensures Holds(s1, InDoom(r), s2[InDoom(r)]) && Holds(before, InDoom(r), s2[InDoom(r)])
    ensures !MayGo(s2, ByRecord(Rels(files)), [], Rels(files), r)
  {
    hide Among, Filed;
    assert InDoom(r) in s1;
    if r in Scanned(s2, Rels(files)) {
      assert r in Scanned(before, []);
      assert !own.Ours(r, s1[InDoom(r)]);
    }
  }

  /** The stages of a round trip without faults: cleaned, installed, cleaned again, restored. */
  ghost predicate Stages(before: Files<Place>, s1: Files<Place>, s2: Files<Place>, s3: Files<Place>, own: Ownership,
                         files: seq<Shipped>, backups: seq<Backup>)
  {
    && CleansPlain(before, s1, own, Rels(files), []) && Clean(before, s1, own, Rels(files), [])
    && Placed(s1, s2, [], backups, own, files, |files|)
    && CleansPlain(s2, s3, ByRecord(Rels(files)), [], Rels(files))
    && Clean(s2, s3, ByRecord(Rels(files)), [], Rels(files))
    && (forall k :: 0 <= k < |files| ==> files[k].rel in OUR_NAMES)
  }

  /** A file that is not at one of the pair's paths goes through the install and the uninstall's cleaning unchanged. */
  lemma StoreStays(before: Files<Place>, s1: Files<Place>, s2: Files<Place>, s3: Files<Place>, own: Ownership,
                   files: seq<Shipped>, backups: seq<Backup>, p: Place)
    requires Stages(before, s1, s2, s3, own, files, backups) && p.InStore?
    ensures p in before ==> Holds(s3, p, before[p]) && !TakenFrom(backups, |backups|, p)
    ensures p in s3 && !TakenFrom(backups, |backups|, p) ==> Holds(before, p, s3[p])
  {
    hide Clean, Among;
    if p in before {
      assert p in s1 && p in s2;
      OthersStay(before, s1, s2, s3, own, files, backups, p);
      forall k | 0 <= k < |backups|
        ensures backups[k].at != p
      {
        assert backups[k] in backups;
      }
    }
  }

  lemma OthersInDoomStay(before: Files<Place>, s1: Files<Place>, s2: Files<Place>, s3: Files<Place>, own: Ownership,
                         files: seq<Shipped>, backups: seq<Backup>, r: Rel)
    requires Stages(before, s1, s2, s3, own, files, backups) && !Among(files, |files|, r)
    ensures InDoom(r) in s3 ==> Holds(before, InDoom(r), s3[InDoom(r)])
    ensures InDoom(r) in before ==> (InDoom(r) !in s3 <==> MayGo(before, own, [], [], r))
  {
    AmongIsListed(files, r);
    if InDoom(r) in s2 {
      InstalledIsClean(before, s1, s2, own, files, backups, r);
      OthersStay(before, s1, s2, s3, own, files, backups, InDoom(r));
    }
    if InDoom(r) in before {
      CleanedIff(before, s1, own, Rels(files), r);
    }
    assert InDoom(r) in s1 ==> InDoom(r) in s2;
    assert InDoom(r) in s3 ==> InDoom(r) in s2;
  }

  lemma CleanedIff(before: Files<Place>, s1: Files<Place>, own: Ownership, keep: seq<Rel>, r: Rel)
    requires CleansPlain(before, s1, own, keep, []) && Clean(before, s1, own, keep, []) && InDoom(r) in before
    ensures r !in keep ==> (InDoom(r) !in s1 <==> MayGo(before, own, [], [], r))
    ensures r in keep ==> Holds(s1, InDoom(r), before[InDoom(r)])
  {
  }

  /** At a pair's path, only a file that is not ours comes back. */
  lemma PairIsRestored(before: Files<Place>, s1: Files<Place>, s2: Files<Place>, s3: Files<Place>, s4: Files<Place>,
                       own: Ownership, files: seq<Shipped>, backups: seq<Backup>, r: Rel)
    requires Stages(before, s1, s2, s3, own, files, backups) && Restored(s3, s4, backups, |backups|)
    requires Among(files, |files|, r)
    ensures InDoom(r) in s4 ==> Holds(before, InDoom(r), s4[InDoom(r)])
    ensures InDoom(r) in before ==> (InDoom(r) !in s4 <==> MayGo(before, own, [], [], r))
    ensures InDoom(r) !in s3
  {
    AmongIsListed(files, r);
    PairGoes(s2, s3, Rels(files), r);
    if GivenBack(backups, |backups|, r) {
      var k :| 0 <= k < |backups| && backups[k].rel == r;
      assert IsBack(s3, s4, backups[k]);
      FiledMeans(s1, s2, backups, own, backups[k]);
      assert before[InDoom(r)] == s1[InDoom(r)];
      OthersStay(before, s1, s2, s3, own, files, backups, backups[k].at);
    } else {
      assert InDoom(r) !in s4;
      NoneFiled(s1, s2, backups, own, files, r);
      if InDoom(r) in before {
        CleanedIff(before, s1, own, Rels(files), r);
        assert r in OUR_NAMES;
        assert r in Scanned(before, []);
      }
    }
  }

  lemma FiledMeans(before: Files<Place>, after: Files<Place>, made: seq<Backup>, own: Ownership, b: Backup)
    requires Filed(before, after, made, own) && b in made
    ensures Foreign(before, own, b.rel) && b.at.InStore? && Holds(after, b.at, before[InDoom(b.rel)])
  {
  }

  lemma GivenIfFiled(made: seq<Backup>, r: Rel)
    ensures HasBackupFor(made, r) ==> GivenBack(made, |made|, r)
  {
    if HasBackupFor(made, r) {
      var b :| b in made && b.rel == r;
      var k :| 0 <= k < |made| && made[k] == b;
      assert made[k].rel == r;
    }
  }

  lemma NoneFiled(s1: Files<Place>, s2: Files<Place>, made: seq<Backup>, own: Ownership, files: seq<Shipped>, r: Rel)
    requires Placed(s1, s2, [], made, own, files, |files|) && Among(files, |files|, r) && !GivenBack(made, |made|, r)
    ensures !Foreign(s1, own, r)
  {
    GivenIfFiled(made, r);
  }

  /** Everything an install filed can be put back after the uninstall's cleaning. */
  lemma FiledIsRestorable(before: Files<Place>, s1: Files<Place>, s2: Files<Place>, s3: Files<Place>, own: Ownership,
                          files: seq<Shipped>, backups: seq<Backup>)
    requires Stages(before, s1, s2, s3, own, files, backups)
    ensures Restorable(s3, backups)
  {
    forall k | 0 <= k < |backups|
      ensures backups[k].at.InStore? && backups[k].at in s3 && InDoom(backups[k].rel) !in s3
    {
      assert backups[k] in backups;
      FiledMeans(s1, s2, backups, own, backups[k]);
      OthersStay(before, s1, s2, s3, own, files, backups, backups[k].at);
      AmongIsListed(files, backups[k].rel);
      PairGoes(s2, s3, Rels(files), backups[k].rel);
    }
  }

  /** What an uninstall leaves of an installed folder is the folder as it was, stripped of files of ours. */
  lemma RoundTripStrips(before: Files<Place>, s1: Files<Place>, s2: Files<Place>, s3: Files<Place>, s4: Files<Place>,
                        own: Ownership, files: seq<Shipped>, backups: seq<Backup>)
    requires Stages(before, s1, s2, s3, own, files, backups) && Restored(s3, s4, backups, |backups|)
    ensures Stripped(before, s4, own)
  {
    forall p: Place | p.InDoom?
      ensures p in s4 ==> Holds(before, p, s4[p])
      ensures p in before ==> (p !in s4 <==> MayGo(before, own, [], [], p.rel))
    {
      if Among(files, |files|, p.rel) {
        PairIsRestored(before, s1, s2, s3, s4, own, files, backups, p.rel);
      } else {
        OthersInDoomStay(before, s1, s2, s3, own, files, backups, p.rel);
        OnlyPairsGivenBack(s1, s2, s3, s4, own, files, backups, p.rel);
      }
    }
    forall p: Place | p.InStore?
      ensures p in s4 ==> Holds(before, p, s4[p])
      ensures p in before ==> p in s4
    {
      StoreStays(before, s1, s2, s3, own, files, backups, p);
    }
  }

  lemma OnlyPairsGivenBack(s1: Files<Place>, s2: Files<Place>, s3: Files<Place>, s4: Files<Place>, own: Ownership,
                           files: seq<Shipped>, backups: seq<Backup>, r: Rel)
    requires Placed(s1, s2, [], backups, own, files, |files|) && Restored(s3, s4, backups, |backups|)
    requires !Among(files, |files|, r)
    ensures InDoom(r) in s4 <==> InDoom(r) in s3
    ensures InDoom(r) in s4 ==> s4[InDoom(r)] == s3[InDoom(r)]
  {
    hide Filed, SameElsewhere, Among;
    forall k | 0 <= k < |backups|
      ensures backups[k].rel != r && backups[k].at.InStore?
    {
      assert backups[k] in backups;
      FiledMeans(s1, s2, backups, own, backups[k]);
    }
  }

  lemma NothingExposed(s: Files<Place>, own: Ownership, files: seq<Shipped>)
    requires NoOldBackups(s)
    ensures Exposes(s, [], own, files, {})
  {
  }

  /** What an install filed is in the store, and what it leaves has no old backups. */
  lemma InstalledFacts(before: Files<Place>, s1: Files<Place>, s2: Files<Place>, own: Ownership, files: seq<Shipped>,
                       backups: seq<Backup>)
    requires NoOldBackups(before) && CleansPlain(before, s1, own, Rels(files), [])
    requires Placed(s1, s2, [], backups, own, files, |files|) && forall e :: e in files ==> e.rel in OUR_NAMES
    ensures NoOldBackups(s2) && forall b :: b in backups ==> b.at.InStore? && b.at in s2
  {
    hide IsOldBackup, Ownership.Ours;
    StillNoOldBackups(before, s1, s2, own, files, backups);
    forall b | b in backups
      ensures b.at.InStore? && b.at in s2
    {
      FiledMeans(s1, s2, backups, own, b);
    }
  }

  /** The stages together strip the folder. */
  lemma StagesStrip(before: Files<Place>, s1: Files<Place>, s2: Files<Place>, s3: Files<Place>, s4: Files<Place>,
                    own: Ownership, files: seq<Shipped>, backups: seq<Backup>)
    requires Stages(before, s1, s2, s3, own, files, backups)
    requires Restorable(s3, backups) ==> Restored(s3, s4, backups, |backups|)
    ensures Stripped(before, s4, own)
  {
    hide *;
    FiledIsRestorable(before, s1, s2, s3, own, files, backups);
    RoundTripStrips(before, s1, s2, s3, s4, own, files, backups);
  }

  /**
   * Installing where nothing was recorded and no old backups lay, and then uninstalling: if nothing fails, every
   * file that is not ours is back at its path with its bytes, and nothing of ours is left where cleaning looks.
   */
  method RoundTrip(disk: Disk<Place>, own: Ownership, files: seq<Shipped>) returns (ok: bool)
    requires disk.Valid() && forall s :: disk.safe(s)
    requires DistinctRels(files) && (forall e :: e in files ==> e.bytes in own.digests && e.rel in OUR_NAMES)
    requires own.recorded == {} && NoOldBackups(disk.files)
    modifies disk
    ensures disk.faults == old(disk.faults) && ok ==> Stripped(old(disk.files), disk.files, own)
  {
    hide Conserves, Covered, Clean, Cleans, CleansPlain, Placed, Restored, Restorable, Stripped, KeptSomewhere,
         NoOldBackups, Ownership.Ours, Exposes, AllStored, Arrives;
    ghost var before := disk.files;
    var rec := new Record([], []);
    NothingExposed(before, own, files);
    ghost var s1, none, filed;
    ok, s1, none, filed := Install(disk, rec, own, files, {});
    if !ok {
      return;
    }
    ghost var s2, flawless := disk.files, disk.faults == old(disk.faults);
    if flawless {
      assert none + filed == filed;
      InstalledFacts(before, s1, s2, own, files, filed);
    }
    ghost var s3, backups := Uninstall(disk, rec);
    if disk.faults == old(disk.faults) {
      StagesStrip(before, s1, s2, s3, disk.files, own, files, filed);
    }
  }

  /**
   * The record is only dropped after the files are back. When an uninstall is interrupted in between, the next one
   * takes a restored file, at a path that is still recorded, for one of its own: its bytes are left exactly when
   * there is another copy.
   */
  lemma RestoredSurvivesIff(s: Files<Place>, listed: seq<Rel>, r: Rel)
    requires InDoom(r) in s && r in listed
    ensures Spared(s, listed, s[InDoom(r)]) <==>
            exists q: Place :: q != InDoom(r) && Holds(s, q, s[InDoom(r)]) && !(q.InDoom? && TakenAway(s, listed, q.rel))
  {
    hide Marked;
    if Spared(s, listed, s[InDoom(r)]) {
      var q: Place :| Holds(s, q, s[InDoom(r)]) && !(q.InDoom? && TakenAway(s, listed, q.rel));
      assert q != InDoom(r);
    }
  }
}
