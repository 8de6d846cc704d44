/**
 * The installer images that updates set aside: how they are recorded, when a later start removes them, and why
 * no executable ever loses its last image that way (installer/state.go:223-270).
 */
module SetAside {
  import opened Options
  import opened Disks
  import SelfReplace

  /** A recorded leftover: where it lies, the bytes it had (None if they could not be read), and what replaced it. */
  datatype Leftover = Leftover(path: Path, sum: Option<Bytes>, owner: Path)

  predicate Owned(fs: Files<Path>, e: Leftover) {
    e.sum.Some? && Holds(fs, e.path, e.sum.value)
  }

  /** What a sweep without faults does about one entry, and about a whole record. */
  function SweepOne(fs: Files<Path>, e: Leftover): Files<Path> {
    if e.owner in fs && Owned(fs, e) then fs - {e.path} else fs
  }

  function Swept(fs: Files<Path>, record: seq<Leftover>): Files<Path> {
    if record == [] then fs else Swept(SweepOne(fs, record[0]), record[1..])
  }

  function Without(record: seq<Leftover>, p: Path): (r: seq<Leftover>)
    ensures forall e :: e in r <==> e in record && e.path != p
  {
    if record == [] then [] else (if record[0].path == p then [] else [record[0]]) + Without(record[1..], p)
  }

  /** Some entry that names another executable would let a sweep take the bytes b at n. */
  predicate Claimed(record: seq<Leftover>, x: Path, n: Path, b: Bytes) {
    exists e :: e in record && e.path == n && e.sum == Some(b) && e.owner != x
  }

  /** With one executable no entry ever claims another one's image. */
  lemma OneExecutable(record: seq<Leftover>, x: Path, n: Path, b: Bytes)
    requires Tidy(record, {x})
    ensures !Claimed(record, x, n, b)
  {
  }

  ghost predicate Tidy(record: seq<Leftover>, places: set<Path>) {
    forall e :: e in record ==> e.path !in places && e.owner in places
  }

  /** A sweep takes the file at n exactly when an entry has its bytes and names an executable that is there. */
  lemma {:induction false} SweptIff(fs: Files<Path>, record: seq<Leftover>, places: set<Path>, n: Path)
    requires Tidy(record, places) && n in fs
    ensures n !in Swept(fs, record) <==> exists e :: e in record && e.path == n && Owned(fs, e) && e.owner in fs
    ensures n in Swept(fs, record) ==> Swept(fs, record)[n] == fs[n]
  {
    if record != [] {
      var e, rest := record[0], record[1..];
      var next := SweepOne(fs, e);
      assert forall f :: f in record <==> f == e || f in rest;
      if n in next {
        SweptIff(next, rest, places, n);
        assert forall f :: f in rest && f.path == n ==> (Owned(next, f) <==> Owned(fs, f)) && (f.owner in next <==> f.owner in fs);
      } else {
        SweptAddsNothing(next, rest, n);
      }
    }
  }

  lemma {:induction false} SweptAddsNothing(fs: Files<Path>, record: seq<Leftover>, n: Path)
    ensures n in Swept(fs, record) ==> n in fs
  {
    if record != [] {
      SweptAddsNothing(SweepOne(fs, record[0]), record[1..], n);
    }
  }

  /**
   * After a replacement of x stranded the old image at n, a sweep keeps that image exactly when no entry for
   * another executable that is there claims the same bytes under the same name.
   */
  lemma StrandedSurvivesIff(fs: Files<Path>, record: seq<Leftover>, places: set<Path>, x: Path, n: Path)
    requires Tidy(record, places) && x in places && n !in places && x in fs && n !in fs
    ensures Holds(Swept(Moved(fs, x, n), record), n, fs[x]) <==>
            !exists e :: e in record && e.path == n && e.sum == Some(fs[x]) && e.owner != x && e.owner in fs
  {
    var s := Moved(fs, x, n);
    SweptIff(s, record, places, n);
    forall e | e in record && e.path == n
      ensures Owned(s, e) && e.owner in s <==> e.sum == Some(fs[x]) && e.owner != x && e.owner in fs
    {
    }
  }

  /** Two executables of the same file name, which share the names in the cache. */
  const ONE: Path := "C:/Downloads/a.exe"
  const OTHER: Path := "C:/AppData/a.exe"
  const SHARED: Path := "C:/AppData/cache/a.exe.old"

  lemma NamesDiffer()
    ensures ONE != OTHER && ONE != SHARED && OTHER != SHARED
  {
    assert |ONE| == 18 && |OTHER| == 16 && |SHARED| == 26;
  }

  /**
   * The bad case happens: both have the same bytes, the other one is updated and its image recorded, and that image
   * is deleted from the cache. An update of the first that is stranded then puts its image under the free name, and
   * the sweep takes it by the stale entry.
   */
  lemma SharedNameLoses()
    ensures var start: Files<Path> := map[ONE := [1], OTHER := [1]];
            var updated := Moved(start, OTHER, SHARED)[OTHER := [2]];
            var record := Without([], SHARED) + [Leftover(SHARED, Some(updated[SHARED]), OTHER)];
            var stranded := Moved(updated - {SHARED}, ONE, SHARED);
            && Holds(stranded, SHARED, [1]) && forall n :: Holds(Swept(stranded, record), n, [1]) ==> false
  {
    hide ONE, OTHER, SHARED;
    NamesDiffer();
    var start: Files<Path> := map[ONE := [1], OTHER := [1]];
    var updated := Moved(start, OTHER, SHARED)[OTHER := [2]];
    var e := Leftover(SHARED, Some(updated[SHARED]), OTHER);
    var record := Without([], SHARED) + [e];
    var stranded := Moved(updated - {SHARED}, ONE, SHARED);
    assert record == [e] && record[1..] == [];
    assert stranded == map[OTHER := [2], SHARED := [1]];
    assert Swept(stranded, record) == Swept(SweepOne(stranded, e), record[1..]);
    assert SweepOne(stranded, e) == map[OTHER := [2]];
  }

  /** Where executables live and which names their replaced images may be moved to. */
  datatype Layout = Layout(places: set<Path>, cached: map<Path, seq<Path>>, beside: map<Path, seq<Path>>) {
    ghost predicate Sound() {
      && (forall x :: x in places ==> x in cached && x in beside)
      && (forall x, n :: x in places && n in Names(x) ==> n !in places)
      && (forall x, y, n :: x in places && y in places && x != y && n in Beside(x) ==> n !in Names(y))
    }

    function Beside(x: Path): seq<Path> {
      if x in beside then beside[x] else []
    }

    function Cached(x: Path): seq<Path> {
      if x in cached then cached[x] else []
    }

    function Names(x: Path): seq<Path> {
      Cached(x) + Beside(x)
    }

    /** An executable is there, or else an image of it is at one of its names. */
    ghost predicate Kept(s: Files<Path>, images: set<Bytes>, x: Path) {
      || (x in s && s[x] in images)
      || exists n :: n in Names(x) && n in s && s[n] in images
    }

    ghost predicate AllKept(s: Files<Path>, images: set<Bytes>, watched: set<Path>) {
      forall x :: x in watched ==> Kept(s, images, x)
    }

    /** An executable that is not there has an image no entry of the record lets a sweep take. */
    ghost predicate Guarded(s: Files<Path>, images: set<Bytes>, record: seq<Leftover>, x: Path) {
      if x in s then s[x] in images
      else exists n :: n in Names(x) && n in s && s[n] in images && !Claimed(record, x, n, s[n])
    }

    ghost predicate AllGuarded(s: Files<Path>, images: set<Bytes>, watched: set<Path>, record: seq<Leftover>) {
      forall x :: x in watched ==> Guarded(s, images, record, x)
    }
  }

  /** The names an executable's image may be moved to: those in the cache first, then those beside it. */
  lemma NamesAre(l: Layout, x: Path)
    requires l.Sound() && x in l.places
    ensures x in l.cached && x in l.beside && l.Names(x) == l.cached[x] + l.beside[x]
  {
  }

  lemma GuardedIsKept(l: Layout, s: Files<Path>, images: set<Bytes>, watched: set<Path>, record: seq<Leftover>)
    requires l.AllGuarded(s, images, watched, record)
    ensures l.AllKept(s, images, watched)
  {
    forall x | x in watched
      ensures l.Kept(s, images, x)
    {
      assert l.Guarded(s, images, record, x);
    }
  }

  /** Fewer entries guard no less. */
  lemma FewerClaims(l: Layout, s: Files<Path>, images: set<Bytes>, watched: set<Path>, record: seq<Leftover>,
                    fewer: seq<Leftover>)
    requires l.AllGuarded(s, images, watched, record) && forall e :: e in fewer ==> e in record
    ensures l.AllGuarded(s, images, watched, fewer)
  {
    forall x | x in watched
      ensures l.Guarded(s, images, fewer, x)
    {
      assert l.Guarded(s, images, record, x);
      if x !in s {
        var n :| n in l.Names(x) && n in s && s[n] in images && !Claimed(record, x, n, s[n]);
        assert !Claimed(fewer, x, n, s[n]);
      }
    }
  }

  /** Every state a replacement of `path` passes through keeps every executable. */
  lemma ReplacingKeeps(l: Layout, before: Files<Path>, s: Files<Path>, images: set<Bytes>, watched: set<Path>,
                       path: Path, newExe: Path)
    requires l.Sound() && l.AllKept(before, images, watched) && path in l.places && watched <= l.places
    requires path in watched && path in before ==> before[path] in images
    requires path in watched && newExe in before ==> before[newExe] in images
    requires SelfReplace.Recoverable(before, s, path, newExe, l.Names(path))
    ensures l.AllKept(s, images, watched)
  {
    forall x | x in watched
      ensures l.Kept(s, images, x)
    {
      assert l.Kept(before, images, x);
      if !(x in before && before[x] in images) {
        var n :| n in l.Names(x) && n in before && before[n] in images;
        assert Holds(s, n, before[n]);
      }
    }
  }

  /** What a replacement leaves guards every executable, unless it strands an image under a claimed name. */
  lemma ReplacedGuards(l: Layout, before: Files<Path>, after: Files<Path>, images: set<Bytes>, watched: set<Path>,
                       record: seq<Leftover>, path: Path, newExe: Path, staged: Path, outcome: SelfReplace.Outcome)
    requires l.Sound() && path in l.places && watched <= l.places && l.AllGuarded(before, images, watched, record)
    requires path in watched && path in before ==>
               forall n :: n in l.Names(path) ==> !Claimed(record, path, n, before[path])
    requires path in watched && newExe in before ==> before[newExe] in images
    requires staged !in before && staged !in l.places && staged !in l.Names(path)
    requires SelfReplace.Leaves(before, after, path, newExe, staged, l.Names(path), outcome)
    ensures l.AllGuarded(after, images, watched, record)
  {
    forall x | x in watched
      ensures l.Guarded(after, images, record, x)
    {
      assert l.Guarded(before, images, record, x);
      if x !in before {
        var n :| n in l.Names(x) && n in before && before[n] in images && !Claimed(record, x, n, before[n]);
        assert n in after && after[n] == before[n];
      } else if outcome.Stranded? && x == path {
        assert outcome.at in l.Names(x) && Holds(after, outcome.at, before[path]);
      }
    }
  }
}
