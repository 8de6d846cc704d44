/**
 * The DOOM folder: which files in it are the installer's own, and how the others are kept safe
 * (installer/doomclean.go:18-103, 290-354).
 */
module DoomFolder {
  import opened Decimals
  import opened Options
  import opened Disks

  /** A lower-case path relative to the DOOM folder. */
  datatype Rel = Rel(dir: string, name: string)
  datatype Place = InDoom(rel: Rel) | InStore(path: string)

  /** A saved file that was not ours: the path it had, and where it is kept. */
  datatype Backup = Backup(rel: Rel, at: Place)

  const OWN_DIR := "snapmap-plus"
  const CURRENT_PROXY := Rel("", "xinput1_4.dll")
  const CURRENT_UI := Rel(OWN_DIR, "snapmap-plus-ui-13954591.dll")
  const LEGACY_PROXY := Rel("", "xinput1_3.dll")
  const LEGACY_UI := Rel(OWN_DIR, "snapmap-plus-ui.dll")
  const OUR_NAMES := [CURRENT_PROXY, CURRENT_UI, LEGACY_PROXY, LEGACY_UI]
  const SUFFIXES := [".snapmap-plus-bak", ".snaphak-bak"]
  const STORE_NAMES := 50

  const MARKER: Bytes := [115, 110, 97, 112, 109, 97, 112, 45, 112, 108, 117, 115]

  function Wide(b: Bytes): Bytes {
    if b == [] then [] else [b[0], 0] + Wide(b[1..])
  }

  predicate LiesAt(b: Bytes, part: Bytes, i: nat) {
    i + |part| <= |b| && b[i..i + |part|] == part
  }

  predicate Contains(b: Bytes, part: Bytes) {
    exists i :: 0 <= i <= |b| - |part| && LiesAt(b, part, i)
  }

  /** Ours are the files the record lists for this folder, the bundle's files, and every file with the marker. */
  datatype Ownership = Ownership(recorded: set<Rel>, digests: set<Bytes>) {
    predicate ByContent(b: Bytes) {
      b in digests || Contains(b, MARKER) || Contains(b, Wide(MARKER))
    }

    predicate Ours(r: Rel, b: Bytes) {
      r in recorded || ByContent(b)
    }
  }

  /** The k-th letter of the product's name. */
  function Letter(k: nat): int
    requires k < 12
  {
    "snapmap-plus"[k] as int
  }

  /** The name of the product, one byte to a letter. */
  ghost predicate PlainAt(b: Bytes, i: nat) {
    i + 12 <= |b| && forall k :: 0 <= k < 12 ==> b[i + k] as int == Letter(k)
  }

  /** The name of the product, two bytes to a letter. */
  ghost predicate PairsAt(b: Bytes, i: nat) {
    i + 24 <= |b| && forall k :: 0 <= k < 12 ==> b[i + 2 * k] as int == Letter(k) && b[i + 2 * k + 1] == 0
  }

  ghost predicate Spells(b: Bytes) {
    (exists i :: PlainAt(b, i)) || (exists i :: PairsAt(b, i))
  }

  lemma MarkerAt(b: Bytes, i: nat)
    ensures LiesAt(b, MARKER, i) <==> PlainAt(b, i)
  {
    if i + 12 <= |b| {
      var part := b[i..i + 12];
      if LiesAt(b, MARKER, i) {
        assert forall k :: 0 <= k < 12 ==> b[i + k] == part[k] == MARKER[k];
      }
      if PlainAt(b, i) {
        assert forall k :: 0 <= k < 12 ==> part[k] == b[i + k] && MARKER[k] as int == Letter(k);
        assert part == MARKER;
      }
    }
  }

  lemma {:induction false} WideIs(b: Bytes, k: nat)
    requires k < |b|
    ensures |Wide(b)| == 2 * |b| && Wide(b)[2 * k] == b[k] && Wide(b)[2 * k + 1] == 0
    decreases k
  {
    WideSize(b);
    if k > 0 {
      WideIs(b[1..], k - 1);
    }
  }

  lemma WideSize(b: Bytes)
    ensures |Wide(b)| == 2 * |b|
  {
  }

  lemma WideMarker(k: nat)
    requires k < 12
    ensures |Wide(MARKER)| == 24
    ensures Wide(MARKER)[2 * k] as int == Letter(k) && Wide(MARKER)[2 * k + 1] == 0
  {
    WideIs(MARKER, k);
    hide Wide;
  }

  lemma WideMarkerAt(b: Bytes, i: nat)
    ensures LiesAt(b, Wide(MARKER), i) <==> PairsAt(b, i)
  {
    WideMarker(0);
    hide Wide;
    if LiesAt(b, Wide(MARKER), i) {
      PairsOfWide(b, i);
    }
    if PairsAt(b, i) {
      WideOfPairs(b, i);
    }
  }

  lemma LiesThere(b: Bytes, part: Bytes, i: nat)
    ensures LiesAt(b, part, i) <==> i + |part| <= |b| && b[i..i + |part|] == part
  {
  }

  lemma PartByte(b: Bytes, part: Bytes, i: nat, j: nat)
    requires LiesAt(b, part, i) && j < |part|
    ensures i + |part| <= |b| && b[i + j] == part[j]
  {
    assert b[i..i + |part|][j] == b[i + j];
  }

  lemma WideByte(b: Bytes, i: nat, k: nat)
    requires LiesAt(b, Wide(MARKER), i) && k < 12
    ensures i + 24 <= |b| && b[i + 2 * k] as int == Letter(k) && b[i + 2 * k + 1] == 0
  {
    hide *;
    WideMarker(k);
    PartByte(b, Wide(MARKER), i, 2 * k);
    PartByte(b, Wide(MARKER), i, 2 * k + 1);
  }

  lemma PairsOfWide(b: Bytes, i: nat)
    requires LiesAt(b, Wide(MARKER), i)
    ensures PairsAt(b, i)
  {
    hide Wide, Letter, LiesAt, MARKER;
    WideByte(b, i, 0);
    forall k | 0 <= k < 12
      ensures b[i + 2 * k] as int == Letter(k) && b[i + 2 * k + 1] == 0
    {
      WideByte(b, i, k);
    }
  }

  lemma PairByte(b: Bytes, i: nat, k: nat)
    requires PairsAt(b, i) && k < 12
    ensures |Wide(MARKER)| == 24 && i + 24 <= |b|
    ensures b[i + 2 * k] == Wide(MARKER)[2 * k] && b[i + 2 * k + 1] == Wide(MARKER)[2 * k + 1]
  {
    WideMarker(k);
    hide Wide, Letter;
  }

  lemma AllPairs(part: Bytes, wide: Bytes)
    requires |part| == |wide| == 24
    requires forall k :: 0 <= k < 12 ==> part[2 * k] == wide[2 * k] && part[2 * k + 1] == wide[2 * k + 1]
    ensures part == wide
  {
    forall j | 0 <= j < 24
      ensures part[j] == wide[j]
    {
      var k := j / 2;
      assert part[2 * k] == wide[2 * k] && part[2 * k + 1] == wide[2 * k + 1];
      assert j == 2 * k || j == 2 * k + 1;
    }
  }

  lemma WideOfPairs(b: Bytes, i: nat)
    requires PairsAt(b, i)
    ensures LiesAt(b, Wide(MARKER), i)
  {
    hide *;
    PairByte(b, i, 0);
    LiesThere(b, Wide(MARKER), i);
    var part := b[i..i + 24];
    forall k | 0 <= k < 12
      ensures part[2 * k] == Wide(MARKER)[2 * k] && part[2 * k + 1] == Wide(MARKER)[2 * k + 1]
    {
      PairByte(b, i, k);
    }
    AllPairs(part, Wide(MARKER));
  }

  /** A file is ours when the record lists it for this folder, the bundle has its bytes, or it spells the product's name. */
  lemma OursIff(own: Ownership, r: Rel, b: Bytes)
    ensures own.ByContent(b) <==> b in own.digests || Spells(b)
    ensures own.Ours(r, b) <==> r in own.recorded || b in own.digests || Spells(b)
  {
    SpellsIff(b);
    hide Contains, Wide, MARKER, Spells;
  }

  lemma SpellsIff(b: Bytes)
    ensures Spells(b) <==> Contains(b, MARKER) || Contains(b, Wide(MARKER))
  {
    hide LiesAt, PlainAt, PairsAt, Wide, MARKER;
    AmongIff(b, MARKER);
    AmongIff(b, Wide(MARKER));
    forall i: nat
      ensures LiesAt(b, MARKER, i) <==> PlainAt(b, i)
      ensures LiesAt(b, Wide(MARKER), i) <==> PairsAt(b, i)
    {
      MarkerAt(b, i);
      WideMarkerAt(b, i);
    }
    hide Contains;
  }

  lemma AmongIff(b: Bytes, part: Bytes)
    ensures Contains(b, part) <==> exists i: nat :: LiesAt(b, part, i)
  {
  }

  predicate EndsWith(s: string, suffix: string) {
    |suffix| <= |s| && s[|s| - |suffix|..] == suffix
  }

  /** The name a backup of an earlier installer stands for, if it is one. */
  function BaseName(name: string): Option<string> {
    if EndsWith(name, SUFFIXES[1]) && |name| > |SUFFIXES[1]| then Some(name[..|name| - |SUFFIXES[1]|])
    else if EndsWith(name, SUFFIXES[0]) && |name| > |SUFFIXES[0]| then Some(name[..|name| - |SUFFIXES[0]|])
    else None
  }

  predicate IsOldBackup(r: Rel) {
    r.dir in {"", OWN_DIR} && BaseName(r.name).Some?
  }

  /** The names earlier installers gave the backups they kept: a file's own, and one of two endings. */
  lemma OldBackupIff(r: Rel)
    ensures IsOldBackup(r) <==>
            && (r.dir == "" || r.dir == "snapmap-plus")
            && (exists base :: base != "" && (r.name == base + ".snapmap-plus-bak" || r.name == base + ".snaphak-bak"))
  {
    if IsOldBackup(r) {
      var base := BaseName(r.name).value;
      assert r.name == base + r.name[|base|..];
    }
    if base :| base != "" && (r.name == base + ".snapmap-plus-bak" || r.name == base + ".snaphak-bak") {
    }
  }

  /** The names a kept file may get, in the order they are tried. */
  function StoreName(r: Rel, copy: nat): (p: Place)
    ensures p.InStore?
  {
    InStore((if r.dir == "" then "" else r.dir + "/") + r.name + if copy == 1 then "" else "." + Digits(copy))
  }

  /** The first is the file's own path, the others end in a number. */
  lemma StoreNameIs(r: Rel, copy: nat)
    ensures exists digits :: Value(digits) == copy && StoreName(r, copy) ==
              InStore((if r.dir == "" then r.name else r.dir + "/" + r.name) + if copy == 1 then "" else "." + digits)
  {
    DigitsSay(copy);
    hide Digits, Value;
    assert "" + r.name == r.name;
  }

  /** The names before the i-th are taken. */
  ghost predicate FirstFree(s: Files<Place>, r: Rel, i: nat) {
    forall k :: 1 <= k < i ==> StoreName(r, k) in s
  }

  /** All the names a kept file may get are taken. */
  ghost predicate NamesTaken(s: Files<Place>, r: Rel) {
    forall i :: 1 <= i <= 50 ==> StoreName(r, i) in s
  }

  function Without(backups: seq<Backup>, at: Place): (r: seq<Backup>)
    ensures forall b :: b in r <==> b in backups && b.at != at
  {
    if backups == [] then [] else (if backups[0].at == at then [] else [backups[0]]) + Without(backups[1..], at)
  }

  predicate HasBackupFor(backups: seq<Backup>, r: Rel) {
    exists b :: b in backups && b.rel == r
  }

  /** The file at p is still there, was ours to remove, or lies in the store. */
  ghost predicate Fate(before: Files<Place>, s: Files<Place>, own: Ownership, p: Place)
    requires p in before
  {
    || Holds(s, p, before[p])
    || (p.InDoom? && own.Ours(p.rel, before[p]))
    || exists q: Place :: q.InStore? && Holds(s, q, before[p])
  }

  /** No file that is not ours has been destroyed. */
  ghost predicate Conserves(before: Files<Place>, s: Files<Place>, own: Ownership) {
    forall p :: p in before ==> Fate(before, s, own, p)
  }

  lemma ConservesChains(a: Files<Place>, b: Files<Place>, c: Files<Place>, own: Ownership)
    requires Conserves(a, b, own) && Conserves(b, c, own)
    ensures Conserves(a, c, own)
  {
    forall p | p in a
      ensures Fate(a, c, own, p)
    {
      assert Fate(a, b, own, p);
      if Holds(b, p, a[p]) {
        assert Fate(b, c, own, p);
      } else if !(p.InDoom? && own.Ours(p.rel, a[p])) {
        var q: Place :| q.InStore? && Holds(b, q, a[p]);
        assert Fate(b, c, own, q);
      }
    }
  }

  /** No file that is not ours has been destroyed, but for the ones at the exposed paths. */
  ghost predicate ConservesBut(before: Files<Place>, s: Files<Place>, own: Ownership, exposed: set<Rel>) {
    forall p :: p in before && !(p.InDoom? && p.rel in exposed) ==> Fate(before, s, own, p)
  }

  lemma ConservesButChains(a: Files<Place>, b: Files<Place>, c: Files<Place>, own: Ownership, exposed: set<Rel>)
    requires ConservesBut(a, b, own, exposed) && ConservesBut(b, c, own, exposed)
    ensures ConservesBut(a, c, own, exposed)
  {
    forall p | p in a && !(p.InDoom? && p.rel in exposed)
      ensures Fate(a, c, own, p)
    {
      assert Fate(a, b, own, p);
      if Holds(b, p, a[p]) {
        assert Fate(b, c, own, p);
      } else if !(p.InDoom? && own.Ours(p.rel, a[p])) {
        var q: Place :| q.InStore? && Holds(b, q, a[p]);
        assert Fate(b, c, own, q);
      }
    }
  }

  lemma ConservesIsEnough(before: Files<Place>, s: Files<Place>, own: Ownership, exposed: set<Rel>)
    requires Conserves(before, s, own)
    ensures ConservesBut(before, s, own, exposed)
  {
  }

  /** The states a move from src to dst goes through: its bytes are always whole at one of the two. */
  ghost predicate Moving(before: Files<Place>, s: Files<Place>, src: Place, dst: Place)
    requires src in before
  {
    && (forall q :: q != src && q != dst ==> (q in before <==> q in s) && (q in before ==> before[q] == s[q]))
    && (Holds(s, src, before[src]) || (src !in s && Holds(s, dst, before[src])))
  }

  /** Renames, or moves by copying; a failure leaves the source and, perhaps, a useless copy. */
  method MoveFile(disk: Disk<Place>, src: Place, dst: Place) returns (ok: bool)
    requires disk.Valid() && src in disk.files && dst !in disk.files
    requires forall s :: Moving(disk.files, s, src, dst) ==> disk.safe(s)
    modifies disk
    ensures disk.Valid() && disk.faults >= old(disk.faults)
    ensures ok ==> disk.files == Moved(old(disk.files), src, dst)
    ensures !ok ==> SameBut(old(disk.files), disk.files, dst)
    ensures disk.faults == old(disk.faults) ==> ok
  {
    ok := disk.Rename(src, dst);
    if !ok {
      ok := MoveByCopying(disk, src, dst);
    }
  }

  /** Copies, verifies, and only then removes the source. */
  method MoveByCopying(disk: Disk<Place>, src: Place, dst: Place) returns (ok: bool)
    requires disk.Valid() && src in disk.files && dst !in disk.files
    requires forall s :: Moving(disk.files, s, src, dst) ==> disk.safe(s)
    modifies disk
    ensures disk.Valid() && disk.faults >= old(disk.faults)
    ensures ok ==> disk.files == Moved(old(disk.files), src, dst)
    ensures !ok ==> SameBut(old(disk.files), disk.files, dst)
  {
    ok := disk.Copy(src, dst);
    if ok {
      ok := disk.Identical(src, dst);
      if ok {
        ok := disk.Remove(src);
        assert ok ==> disk.files == Moved(old(disk.files), src, dst);
      }
    }
    if !ok {
      var _ := disk.Remove(dst);
    }
  }

  lemma MovingConserves(before: Files<Place>, s: Files<Place>, src: Place, dst: Place, own: Ownership)
    requires src in before && dst !in before && dst.InStore? && Moving(before, s, src, dst)
    ensures Conserves(before, s, own)
  {
    forall p | p in before
      ensures Fate(before, s, own, p)
    {
    }
  }

  /** Moves a file that is not ours to a free name in the store. */
  method KeepBackup(disk: Disk<Place>, src: Place, r: Rel, ghost own: Ownership) returns (kept: Option<Place>)
    requires disk.Valid() && src in disk.files
    requires forall s :: Conserves(disk.files, s, own) ==> disk.safe(s)
    modifies disk
    ensures disk.Valid() && disk.faults >= old(disk.faults)
    ensures Conserves(old(disk.files), disk.files, own)
    ensures kept.Some? ==> kept.value.InStore? && kept.value !in old(disk.files)
                           && disk.files == Moved(old(disk.files), src, kept.value)
    ensures kept.Some? ==> exists i :: 1 <= i <= 50 && kept.value == StoreName(r, i)
                             && (disk.faults == old(disk.faults) ==> FirstFree(old(disk.files), r, i))
    ensures kept.None? ==> disk.files == old(disk.files) || exists q: Place ::
              q.InStore? && q !in old(disk.files) && SameBut(old(disk.files), disk.files, q)
    ensures kept.None? && disk.faults == old(disk.faults) ==>
              disk.files == old(disk.files) && NamesTaken(disk.files, r)
  {
    assert Conserves(disk.files, disk.files, own);
    hide Conserves, StoreName;
    var i := 1;
    var free := false;
    while i <= STORE_NAMES && !free
      invariant 1 <= i <= STORE_NAMES + 1 && disk.faults >= old(disk.faults)
      invariant disk.Valid() && disk.files == old(disk.files)
      invariant free ==> i <= STORE_NAMES && StoreName(r, i) !in disk.files
      invariant disk.faults == old(disk.faults) ==> forall k :: 1 <= k < i ==> StoreName(r, k) in disk.files
      decreases STORE_NAMES - i, !free
    {
      free := disk.IsFree(StoreName(r, i));
      i := if free then i else i + 1;
    }
    if !free {
      return None;
    }
    var dst := StoreName(r, i);
    forall s | Moving(disk.files, s, src, dst)
      ensures Conserves(disk.files, s, own) && disk.safe(s)
    {
      MovingConserves(disk.files, s, src, dst, own);
    }
    var moved := MoveFile(disk, src, dst);
    kept := if moved then Some(dst) else None;
    assert Moving(old(disk.files), disk.files, src, dst);
  }
}
