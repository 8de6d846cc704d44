/** Runs in which an install or an uninstall loses a file that is not ours (installer/install.go:88-139, 358-393). */
module DoomInstances {
  import opened Options
  import opened Disks
  import opened DoomFolder
  import opened DoomClean
  import opened DoomInstall
  import opened DoomRoundTrip

  const THEIRS: Bytes := [1]
  const ANOTHER: Bytes := [2]
  const PAIR := [Shipped(CURRENT_PROXY, [3]), Shipped(CURRENT_UI, [4])]
  const OWN := Ownership({}, {[3], [4]})
  const KEPT := InStore("xinput1_4.dll")
  const FILED := [Backup(CURRENT_PROXY, KEPT)]

  /** A folder with someone else's file at the proxy's path: before an install, after it, and cleaned again. */
  const START: Files<Place> := map[InDoom(CURRENT_PROXY) := THEIRS]
  const INSTALLED: Files<Place> :=
    map[InDoom(CURRENT_PROXY) := [3], InDoom(CURRENT_UI) := [4], KEPT := THEIRS]
  const CLEANED: Files<Place> := map[KEPT := THEIRS]

  /** Another folder with such a file, next to the store the install has left, and that folder after an install. */
  const ELSEWHERE: Files<Place> := map[InDoom(CURRENT_PROXY) := ANOTHER, KEPT := THEIRS]
  const OVERWRITTEN: Files<Place> :=
    map[InDoom(CURRENT_PROXY) := [3], InDoom(CURRENT_UI) := [4], KEPT := THEIRS]

  lemma WideLength(b: Bytes)
    ensures |Wide(b)| == 2 * |b|
  {
  }

  /** A file of one byte that the bundle does not have is not ours. */
  lemma ShortIsForeign(s: Files<Place>, r: Rel, b: Bytes)
    requires Holds(s, InDoom(r), b) && |b| == 1 && b[0] < 3
    ensures Foreign(s, OWN, r)
  {
    hide Contains;
    ShortIsUnmarked(b);
  }

  lemma FilesAreForeign()
    ensures Foreign(START, OWN, CURRENT_PROXY) && Foreign(ELSEWHERE, OWN, CURRENT_PROXY)
    ensures !Foreign(START, OWN, CURRENT_UI) && !Foreign(ELSEWHERE, OWN, CURRENT_UI)
    ensures START[InDoom(CURRENT_PROXY)] == THEIRS && ELSEWHERE[InDoom(CURRENT_PROXY)] == ANOTHER
  {
    hide Ownership.Ours;
    NamesDiffer();
    hide CURRENT_PROXY, CURRENT_UI;
    ShortIsForeign(START, CURRENT_PROXY, THEIRS);
    ShortIsForeign(ELSEWHERE, CURRENT_PROXY, ANOTHER);
  }

  lemma ShortIsUnmarked(b: Bytes)
    requires |b| == 1
    ensures !Marked(b)
  {
    WideLength(MARKER);
  }

  lemma NamesDiffer()
    ensures CURRENT_PROXY != CURRENT_UI && CURRENT_PROXY in OUR_NAMES && CURRENT_UI in OUR_NAMES
    ensures Rels(PAIR) == [CURRENT_PROXY, CURRENT_UI] && DistinctRels(PAIR)
  {
    assert CURRENT_PROXY.dir != CURRENT_UI.dir;
  }

  lemma NoneAreOld()
    ensures NoOldBackups(START) && NoOldBackups(INSTALLED) && NoOldBackups(CLEANED) && NoOldBackups(ELSEWHERE)
  {
    NamesDiffer();
    OurNamesAreNoBackups(CURRENT_PROXY);
    OurNamesAreNoBackups(CURRENT_UI);
  }

  lemma OnlyInStart(r: Rel)
    requires InDoom(r) in START
    ensures r == CURRENT_PROXY && START[InDoom(r)] == THEIRS
    ensures !OWN.Ours(r, START[InDoom(r)])
  {
    ShortIsUnmarked(THEIRS);
    hide Contains, CURRENT_PROXY, CURRENT_UI;
  }

  lemma StartIsClean()
    ensures CleansPlain(START, START, OWN, Rels(PAIR), []) && Clean(START, START, OWN, Rels(PAIR), [])
  {
    NoneAreOld();
    hide Contains, Scanned, IsOldBackup, CURRENT_UI, CURRENT_PROXY, THEIRS, START, OWN, Ownership.Ours, Ownership.ByContent;
    forall r | InDoom(r) in START
      ensures !OWN.Ours(r, START[InDoom(r)]) && !IsOldBackup(r)
    {
      OnlyInStart(r);
    }
  }

  /** The files of the pair are in place, and the others are where they were. */
  lemma PairInPlace(before: Files<Place>, after: Files<Place>, made: seq<Backup>)
    requires after == map[InDoom(CURRENT_PROXY) := [3], InDoom(CURRENT_UI) := [4], KEPT := THEIRS]
    requires forall p :: p in before ==> p == InDoom(CURRENT_PROXY) || (p == KEPT && before[p] == THEIRS)
    requires KEPT in before || exists b :: b in made && b.at == KEPT
    ensures SameElsewhere(before, after, made, PAIR, |PAIR|)
    ensures forall k :: 0 <= k < |PAIR| ==> Holds(after, InDoom(PAIR[k].rel), PAIR[k].bytes)
    ensures Among(PAIR, |PAIR|, CURRENT_PROXY)
  {
    NamesDiffer();
    assert PAIR[0].rel == CURRENT_PROXY && PAIR[1].rel == CURRENT_UI;
    assert Among(PAIR, |PAIR|, CURRENT_PROXY) && Among(PAIR, |PAIR|, CURRENT_UI);
    hide Among;
  }

  /** The install keeps the file in the way and records it. */
  lemma FirstInstall()
    ensures Placed(START, INSTALLED, [], FILED, OWN, PAIR, |PAIR|)
  {
    hide SameElsewhere, Among, Foreign, CURRENT_PROXY, CURRENT_UI;
    FilesAreForeign();
    assert FILED[0] == Backup(CURRENT_PROXY, KEPT) && FILED[0] in FILED;
    PairInPlace(START, INSTALLED, FILED);
    assert PAIR[0].rel == CURRENT_PROXY && PAIR[1].rel == CURRENT_UI;
    assert HasBackupFor(FILED, CURRENT_PROXY);
  }

  /** The uninstall takes the pair away... */
  lemma PairTaken()
    ensures CleansPlain(INSTALLED, CLEANED, ByRecord(Rels(PAIR)), [], Rels(PAIR))
    ensures Clean(INSTALLED, CLEANED, ByRecord(Rels(PAIR)), [], Rels(PAIR))
  {
    NamesDiffer();
    hide IsOldBackup, Contains;
    forall p | p in INSTALLED && p !in CLEANED
      ensures p.InDoom? && MayGo(INSTALLED, ByRecord(Rels(PAIR)), [], Rels(PAIR), p.rel)
    {
      assert p == InDoom(CURRENT_PROXY) || p == InDoom(CURRENT_UI);
      ListedMayGo(INSTALLED, Rels(PAIR), p.rel);
    }
    hide MayGo, Scanned;
    forall r | InDoom(r) in CLEANED
      ensures false
    {
    }
  }

  /** ...and puts the file back. */
  lemma FileIsBack()
    ensures Restored(CLEANED, START, FILED, |FILED|)
  {
    hide CURRENT_PROXY;
    assert FILED[0] == Backup(CURRENT_PROXY, KEPT);
    assert IsBack(CLEANED, START, FILED[0]);
    assert TakenFrom(FILED, 1, KEPT) && GivenBack(FILED, 1, CURRENT_PROXY);
  }

  /**
   * An install, and an uninstall that stops before it drops the record: the folder is as it was at the start, but its
   * file is still recorded as ours. The uninstall that is then run again leaves those bytes nowhere.
   */
  lemma RerunLoses()
    ensures Stages(START, START, INSTALLED, CLEANED, OWN, PAIR, FILED) && Restored(CLEANED, START, FILED, |FILED|)
    ensures !Spared(START, Rels(PAIR), THEIRS)
  {
    hide *;
    StartIsClean();
    FirstInstall();
    PairTaken();
    FileIsBack();
    PairIsOurs();
    AllAreStages();
    StartIsTaken();
  }

  lemma PairIsOurs()
    ensures forall k :: 0 <= k < |PAIR| ==> PAIR[k].rel in OUR_NAMES
  {
    NamesDiffer();
  }

  lemma AllAreStages()
    requires CleansPlain(START, START, OWN, Rels(PAIR), []) && Clean(START, START, OWN, Rels(PAIR), [])
    requires Placed(START, INSTALLED, [], FILED, OWN, PAIR, |PAIR|)
    requires CleansPlain(INSTALLED, CLEANED, ByRecord(Rels(PAIR)), [], Rels(PAIR))
    requires Clean(INSTALLED, CLEANED, ByRecord(Rels(PAIR)), [], Rels(PAIR))
    requires forall k :: 0 <= k < |PAIR| ==> PAIR[k].rel in OUR_NAMES
    ensures Stages(START, START, INSTALLED, CLEANED, OWN, PAIR, FILED)
  {
    hide CleansPlain, Clean, Placed;
  }

  lemma StartIsTaken()
    ensures !Spared(START, Rels(PAIR), THEIRS)
  {
    NamesDiffer();
    hide Marked, IsOldBackup;
    forall q: Place | Holds(START, q, THEIRS)
      ensures q.InDoom? && TakenAway(START, Rels(PAIR), q.rel)
    {
      assert q == InDoom(CURRENT_PROXY);
    }
  }

  /**
   * The backups of one folder's install are carried over to the record of an install in another folder. There the
   * proxy's path has a backup already, and the file in the way is overwritten: it has not been kept.
   */
  lemma SecondFolderLoses()
    ensures Placed(START, INSTALLED, [], FILED, OWN, PAIR, |PAIR|)
    ensures forall t, b :: Holds(ELSEWHERE, InStore(t), b) <==> Holds(INSTALLED, InStore(t), b)
    ensures NoOldBackups(ELSEWHERE) && AllStored(FILED) && !Covered(ELSEWHERE, Live(FILED, ELSEWHERE), OWN, PAIR)
    ensures Placed(ELSEWHERE, OVERWRITTEN, FILED, [], OWN, PAIR, |PAIR|) && !Somewhere(OVERWRITTEN, ANOTHER)
  {
    FirstInstall();
    NoneAreOld();
    SecondIsUncovered();
    SecondInstall();
  }

  lemma SecondIsUncovered()
    ensures !Covered(ELSEWHERE, Live(FILED, ELSEWHERE), OWN, PAIR)
  {
    hide Kept, Ownership.Ours, CURRENT_PROXY, CURRENT_UI;
    FilesAreForeign();
    var live := Live(FILED, ELSEWHERE);
    assert FILED[0] == Backup(CURRENT_PROXY, KEPT) && FILED[0] in FILED && FILED[0] in live;
    assert PAIR[0].rel == CURRENT_PROXY && HasBackupFor(live, CURRENT_PROXY);
    NothingKept(live);
    assert Unprotected(ELSEWHERE, live, OWN, PAIR[0].rel) && !Kept(ELSEWHERE, live, OWN, PAIR, ANOTHER);
  }

  lemma NothingKept(live: seq<Backup>)
    requires HasBackupFor(live, CURRENT_PROXY)
    ensures !Kept(ELSEWHERE, live, OWN, PAIR, ANOTHER)
  {
    NamesDiffer();
    hide Ownership.Ours, HasBackupFor;
    forall k | 0 <= k < |PAIR|
      ensures !GetsFiled(ELSEWHERE, live, OWN, PAIR[k], ANOTHER)
    {
      assert PAIR[k].rel == CURRENT_PROXY || InDoom(PAIR[k].rel) !in ELSEWHERE;
    }
  }

  lemma SecondInstall()
    ensures Placed(ELSEWHERE, OVERWRITTEN, FILED, [], OWN, PAIR, |PAIR|) && !Somewhere(OVERWRITTEN, ANOTHER)
  {
    hide SameElsewhere, Among, Foreign, CURRENT_PROXY, CURRENT_UI;
    FilesAreForeign();
    assert FILED[0] == Backup(CURRENT_PROXY, KEPT) && FILED[0] in FILED;
    PairInPlace(ELSEWHERE, OVERWRITTEN, []);
    assert PAIR[0].rel == CURRENT_PROXY && PAIR[1].rel == CURRENT_UI;
    assert HasBackupFor(FILED, CURRENT_PROXY);
  }
}
