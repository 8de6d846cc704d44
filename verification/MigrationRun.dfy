/** The three passes of the migration, and what they add up to (installer/userdata.go:91-196, 262-300). */
module MigrationRun {
  import opened Disks
  import opened Migration

  /** Some folder in a set has no parent in it. */
  lemma {:induction false} SomeTopmost(s: set<Rel>) returns (top: Rel)
    requires s != {}
    ensures Topmost(top, s) && forall d :: d in s ==> |top| <= |d|
  {
    var d :| d in s;
    var rest := s - {d};
    if rest == {} {
      top := d;
      assert s == {d};
    } else {
      top := SomeTopmost(rest);
      top := if |d| < |top| then d else top;
      assert s == rest + {d};
    }
  }

  predicate Topmost(d: Rel, s: set<Rel>) {
    d in s && forall c :: c in s ==> !ChildOf(d, c)
  }

  /** A folder is listed before the folders in it. */
  ghost predicate ParentsFirst(dirs: seq<Rel>) {
    forall i, j :: 0 <= i <= j < |dirs| ==> !ChildOf(dirs[i], dirs[j])
  }

  ghost predicate SomethingOutside(t: Trees)
    reads t
  {
    (exists r :: r in t.from && Outside(r)) || (exists d :: d in t.folders && Outside(d))
  }

  /** Lists the files below the old root, in any order; an entry that cannot be read is left out. */
  method ListFiles(t: Trees) returns (seen: seq<Rel>, complete: bool)
    modifies t`faults
    ensures t.faults >= old(t.faults) && (!complete ==> t.faults > old(t.faults))
    ensures forall r :: r in seen ==> r in t.from && !Outside(r)
    ensures forall i, j :: 0 <= i < j < |seen| ==> seen[i] != seen[j]
    ensures complete ==> forall r :: r in t.from && !Outside(r) ==> r in seen
  {
    var todo := t.from.Keys;
    seen, complete := [], true;
    while todo != {}
      invariant t.faults >= old(t.faults) && (!complete ==> t.faults > old(t.faults))
      invariant todo <= t.from.Keys
      invariant forall r :: r in seen ==> r in t.from && r !in todo && !Outside(r)
      invariant forall i, j :: 0 <= i < j < |seen| ==> seen[i] != seen[j]
      invariant complete ==> forall r :: r in t.from && !Outside(r) ==> r in seen || r in todo
    {
      var r :| r in todo;
      todo := todo - {r};
      var readable: bool := *;
      if !readable {
        t.faults, complete := t.faults + 1, false;
      } else if !Outside(r) {
        seen := seen + [r];
      }
    }
  }

  /** Lists the folders to be retired, each before the ones in it, and whether anything stays. */
  method ListFolders(t: Trees) returns (dirs: seq<Rel>, kept: bool, complete: bool)
    modifies t`faults
    ensures t.faults >= old(t.faults) && (!complete ==> t.faults > old(t.faults))
    ensures ParentsFirst(dirs) && forall i, j :: 0 <= i < j < |dirs| ==> dirs[i] != dirs[j]
    ensures forall d :: d in dirs ==> d in t.folders && !Outside(d)
    ensures complete ==> forall d :: d in t.folders && !Outside(d) ==> d in dirs
    ensures complete ==> (kept <==> SomethingOutside(t))
  {
    hide Outside, ChildOf;
    var todo := set d | d in t.folders && !Outside(d);
    dirs, complete := [], true;
    while todo != {}
      invariant t.faults >= old(t.faults) && (!complete ==> t.faults > old(t.faults))
      invariant todo <= t.folders && forall d :: d in todo ==> !Outside(d)
      invariant forall i, j :: 0 <= i < j < |dirs| ==> dirs[i] != dirs[j]
      invariant forall i :: 0 <= i < |dirs| ==> dirs[i] !in todo
      invariant ParentsFirst(dirs) && forall i, c :: 0 <= i < |dirs| && c in todo ==> !ChildOf(dirs[i], c)
      invariant forall d :: d in dirs ==> d in t.folders && !Outside(d)
      invariant complete ==> forall d :: d in t.folders && !Outside(d) ==> d in dirs || d in todo
      decreases |todo|
    {
      ghost var top := SomeTopmost(todo);
      assert Topmost(top, todo);
      var d :| Topmost(d, todo);
      assert Topmost(d, todo);
      assert forall c :: c in todo ==> !ChildOf(d, c);
      todo := todo - {d};
      var readable: bool := *;
      if !readable {
        t.faults, complete := t.faults + 1, false;
      } else {
        dirs := dirs + [d];
      }
    }
    kept := (exists r :: r in t.from && Outside(r)) || exists d :: d in t.folders && Outside(d);
  }

  /** What a copy pass may do to the destination: add copies of source files that had none. */
  ghost predicate Extends(before: Tree, after: Tree, from: Tree) {
    && (forall r :: r in before ==> Has(after, r, before[r]))
    && (forall r :: r in after && r !in before ==> r in from && !Outside(r))
  }

  function Completed(from: Tree, to: Tree): Tree {
    Migratable(from) + to
  }

  /** The pass only adds copies of migratable files that had none; without faults it adds exactly those. */
  method CopyTreeMissing(t: Trees) returns (ok: bool)
    requires t.Valid()
    modifies t`to, t`faults
    ensures t.Valid() && t.faults >= old(t.faults)
    ensures Extends(old(t.to), t.to, t.from)
    ensures ok ==> forall r :: r in t.from && !Outside(r) ==> r in t.to
    ensures t.faults == old(t.faults) ==> ok && t.to == Completed(t.from, old(t.to))
  {
    hide Outside;
    var seen;
    seen, ok := ListFiles(t);
    ghost var all := ok;
    for i := 0 to |seen|
      invariant t.Valid() && t.faults >= old(t.faults)
      invariant Extends(old(t.to), t.to, t.from)
      invariant ok ==> all && forall k :: 0 <= k < i ==> seen[k] in t.to
      invariant t.faults == old(t.faults) ==> ok && forall r :: r in t.to ==>
                  if r in old(t.to) then t.to[r] == old(t.to)[r] else t.to[r] == t.from[r]
    {
      assert seen[i] in seen;
      if seen[i] !in t.to {
        var copied := t.CopyMissingFile(seen[i]);
        ok := ok && copied;
      }
    }
    if t.faults == old(t.faults) {
      assert t.to.Keys == Completed(t.from, old(t.to)).Keys;
    }
  }

  /** True only when every migratable file has an identical copy; without faults exactly then. */
  method FullyMirrored(t: Trees) returns (ok: bool)
    requires t.Valid()
    modifies t`faults
    ensures t.Valid() && t.faults >= old(t.faults)
    ensures ok ==> Mirrored(t.from, t.to)
    ensures t.faults == old(t.faults) && Mirrored(t.from, t.to) ==> ok
  {
    var seen;
    seen, ok := ListFiles(t);
    if !ok {
      return;
    }
    for i := 0 to |seen|
      invariant t.Valid() && t.faults >= old(t.faults)
      invariant forall k :: 0 <= k < i ==> Has(t.to, seen[k], t.from[seen[k]])
    {
      assert seen[i] in seen;
      ok := t.Identical(seen[i]);
      if !ok {
        return;
      }
    }
  }

  /** What retiring may take away: files with an identical copy, and folders; nothing outside the migration. */
  ghost predicate Retires(from: Tree, folders: set<Rel>, t: Trees)
    reads t
  {
    && (forall r :: r in t.from ==> Has(from, r, t.from[r]))
    && (forall r :: r in from && r !in t.from ==> !Outside(r) && Has(t.to, r, from[r]))
    && t.folders <= folders
    && (forall d :: d in folders && d !in t.folders ==> !Outside(d))
  }

  /** All that may be left of a retired tree. */
  ghost predicate Retired(t: Trees)
    reads t
  {
    && (forall r :: r in t.from ==> Outside(r))
    && (forall d :: d in t.folders ==> Outside(d) || (d == [] && SomethingOutside(t)))
  }

  /** What is in a folder other than the root is outside the migration exactly when the folder is. */
  lemma SameSide(p: Rel, d: Rel)
    requires ChildOf(p, d) && d != []
    ensures Outside(p) <==> Outside(d)
  {
    assert d[0] == p[0];
  }

  /** Once only listed folders are left, the last one listed has nothing of the migration in it. */
  lemma LastIsEmpty(t: Trees, dirs: seq<Rel>)
    requires dirs != [] && ParentsFirst(dirs) && !Outside(dirs[|dirs| - 1])
    requires forall r :: r in t.from ==> Outside(r)
    requires forall d :: d in t.folders && !Outside(d) ==> d in dirs || d == []
    ensures t.Empty(dirs[|dirs| - 1]) || (SomethingOutside(t) && dirs[|dirs| - 1] == [])
  {
    var last := dirs[|dirs| - 1];
    forall p | p in t.from || p in t.folders
      ensures ChildOf(p, last) ==> Outside(p) && last == []
    {
      if last != [] && ChildOf(p, last) {
        SameSide(p, last);
      }
      if !Outside(p) {
        assert p in dirs || p == [];
      }
    }
  }

  /** Checks one source file again and removes it. */
  method RemoveIfMirrored(t: Trees, r: Rel) returns (ok: bool)
    requires t.Valid() && r in t.from && !Outside(r)
    modifies t`from, t`faults
    ensures t.Valid() && t.faults >= old(t.faults)
    ensures t.from == if ok then old(t.from) - {r} else old(t.from)
    ensures ok ==> Has(t.to, r, old(t.from)[r])
    ensures t.faults == old(t.faults) && Has(t.to, r, old(t.from)[r]) ==> ok
  {
    ok := t.Identical(r);
    if ok {
      ok := t.RemoveSource(r);
    }
  }

  /** Only files with identical copies go, each checked again. */
  method RemoveFiles(t: Trees) returns (ok: bool)
    requires t.Valid()
    modifies t`from, t`faults
    ensures t.Valid() && t.faults >= old(t.faults)
    ensures Retires(old(t.from), t.folders, t)
    ensures ok ==> forall r :: r in t.from ==> Outside(r)
    ensures t.faults == old(t.faults) && Mirrored(old(t.from), t.to) ==> ok
  {
    hide Outside;
    var seen;
    var complete;
    seen, complete := ListFiles(t);
    var i := 0;
    ok := true;
    while i < |seen| && ok
      invariant 0 <= i <= |seen| && t.Valid() && t.faults >= old(t.faults)
      invariant Retires(old(t.from), t.folders, t)
      invariant forall k :: i <= k < |seen| && ok ==> seen[k] in t.from
      invariant forall k :: 0 <= k < i && ok ==> seen[k] !in t.from
      invariant t.faults == old(t.faults) && Mirrored(old(t.from), t.to) ==> ok && complete
    {
      assert seen[i] in seen;
      ok := RemoveIfMirrored(t, seen[i]);
      i := i + 1;
    }
    ok := ok && complete;
  }

  /**
   * On success only what is outside the migration is left of the old tree; without faults a mirrored tree is always
   * retired.
   */
  method RemoveMirroredTree(t: Trees) returns (ok: bool)
    requires t.Valid()
    modifies t`from, t`folders, t`faults
    ensures t.Valid() && t.faults >= old(t.faults)
    ensures Retires(old(t.from), old(t.folders), t)
    ensures ok ==> Retired(t)
    ensures t.faults == old(t.faults) && Mirrored(old(t.from), t.to) ==> ok
  {
    var dirs, kept;
    dirs, kept, ok := ListFolders(t);
    if !ok {
      return;
    }
    ok := RemoveFiles(t);
    if !ok {
      return;
    }
    ok := RemoveFolders(t, dirs, kept);
  }

  /** Removes the listed folders, the last one first; only the root may stay, and only when it has something to keep. */
  method RemoveFolders(t: Trees, dirs: seq<Rel>, kept: bool) returns (ok: bool)
    requires t.Valid() && (forall r :: r in t.from ==> Outside(r)) && (kept <==> SomethingOutside(t))
    requires ParentsFirst(dirs) && forall i, j :: 0 <= i < j < |dirs| ==> dirs[i] != dirs[j]
    requires forall d :: d in dirs ==> d in t.folders && !Outside(d)
    requires forall d :: d in t.folders && !Outside(d) ==> d in dirs
    modifies t`folders, t`faults
    ensures t.Valid() && t.faults >= old(t.faults)
    ensures t.folders <= old(t.folders) && forall d :: d in old(t.folders) && d !in t.folders ==> !Outside(d)
    ensures ok ==> Retired(t)
    ensures t.faults == old(t.faults) ==> ok
  {
    hide Outside, ChildOf;
    var n := |dirs|;
    ok := true;
    while n > 0
      invariant 0 <= n <= |dirs| && t.Valid() && t.faults >= old(t.faults) && (kept <==> SomethingOutside(t))
      invariant t.folders <= old(t.folders) && forall d :: d in old(t.folders) && d !in t.folders ==> !Outside(d)
      invariant forall k :: 0 <= k < n ==> dirs[k] in t.folders
      invariant forall d :: d in t.folders && !Outside(d) ==> d in dirs[..n] || (d == [] && kept)
    {
      ghost var listed := dirs[..n];
      n := n - 1;
      assert dirs[n] in dirs && listed == dirs[..n] + [dirs[n]];
      LastIsEmpty(t, listed);
      var removed := t.RemoveFolder(dirs[n]);
      if !removed && !(kept && dirs[n] == []) {
        return false;
      }
    }
  }

  /** Nothing the old tree ever had has been lost since it owed `owed`. */
  ghost predicate Conserved(t: Trees, owed: Tree)
    reads t
  {
    forall r :: r in owed ==> Has(t.from, r, owed[r]) || (!Outside(r) && Has(t.to, r, owed[r]))
  }

  /** A file of the old tree and a different one at its destination. */
  predicate Conflict(from: Tree, to: Tree) {
    exists r :: r in from && r in to && !Outside(r) && from[r] != to[r]
  }

  /** Files that other processes add to the old tree between two passes. */
  method Arrivals(t: Trees, late: seq<(Rel, Bytes)>)
    requires t.Valid()
    modifies t`from, t`owed, t`shield
    ensures t.Valid()
    ensures forall r :: r in old(t.from) ==> Has(t.from, r, old(t.from)[r])
    ensures forall r, b :: (r, b) in late ==> r in t.from
    ensures late == [] ==> t.from == old(t.from)
  {
    for i := 0 to |late|
      invariant t.Valid()
      invariant forall r :: r in old(t.from) ==> Has(t.from, r, old(t.from)[r])
      invariant forall k :: 0 <= k < i ==> late[k].0 in t.from
      invariant i == 0 ==> t.from == old(t.from)
    {
      if late[i].0 !in t.from {
        t.Arrive(late[i].0, late[i].1);
      }
    }
  }

  /** Copying completes the destination exactly when it had no different file of the same name. */
  lemma MirroredIff(from: Tree, to: Tree)
    ensures Mirrored(from, Completed(from, to)) <==> !Conflict(from, to)
  {
    forall r | r in from && !Outside(r)
      ensures Has(Completed(from, to), r, from[r]) <==> !(r in to && from[r] != to[r])
    {
    }
  }

  /** A half-written copy that an earlier run could not take away again is such a file. */
  lemma PartialCopyStays()
    ensures var from, to: Tree := map[["maps", "a.map"] := [1, 2]], map[["maps", "a.map"] := [1]];
            Conflict(from, to) && !Mirrored(from, Completed(from, to)) && Completed(from, to) == to
  {
    var r := ["maps", "a.map"];
    var from, to: Tree := map[r := [1, 2]], map[r := [1]];
    assert r[0][0] == 'm' && Lower(r[0])[0] == 'm' && |Lower(r[0])| == 4;
    assert !Outside(r);
    assert Conflict(from, to);
    MirroredIff(from, to);
  }

  method CopyAndCheck(t: Trees, late: seq<(Rel, Bytes)>) returns (mirrored: bool)
    requires t.Valid()
    modifies t`from, t`to, t`owed, t`shield, t`faults
    ensures t.Valid() && t.faults >= old(t.faults)
    ensures forall r :: r in old(t.from) ==> Has(t.from, r, old(t.from)[r])
    ensures forall r :: r in old(t.to) ==> Has(t.to, r, old(t.to)[r])
    ensures t.faults == old(t.faults) && late == [] ==>
              && t.from == old(t.from) && t.to == Completed(old(t.from), old(t.to))
              && (mirrored <==> !Conflict(old(t.from), old(t.to)))
    ensures mirrored ==> Mirrored(t.from, t.to)
  {
    MirroredIff(t.from, t.to);
    mirrored := CopyTreeMissing(t);
    Arrivals(t, late);
    if mirrored {
      mirrored := FullyMirrored(t);
    }
  }

  /**
   * With any faults and with files added between the passes: every file of the old tree is there or identically at
   * the destination, no destination file changes, what is outside the migration stays; without faults the tree is
   * retired exactly when nothing conflicts.
   */
  method MigrateUserData(t: Trees, late: seq<(Rel, Bytes)>, later: seq<(Rel, Bytes)>) returns (moved: bool)
    requires t.Valid()
    modifies t
    ensures t.Valid() && t.faults >= old(t.faults)
    ensures Conserved(t, old(t.from))
    ensures forall r :: r in old(t.to) ==> Has(t.to, r, old(t.to)[r])
    ensures forall r :: r in old(t.from) && Outside(r) ==> Has(t.from, r, old(t.from)[r])
    ensures forall d :: d in old(t.folders) && Outside(d) ==> d in t.folders
    ensures moved ==> Retired(t)
    ensures t.faults == old(t.faults) && late == [] == later ==>
              && t.to == Completed(old(t.from), old(t.to))
              && (moved <==> !Conflict(old(t.from), old(t.to)))
              && (!moved ==> t.from == old(t.from) && t.folders == old(t.folders))
  {
    moved := CopyAndCheck(t, late);
    if moved {
      Arrivals(t, later);
      moved := RemoveMirroredTree(t);
    }
  }

  /**
   * Carries the named metadata files over one by one, then retires their folder if that leaves it empty; a file
   * whose destination differs, and every other file, stays.
   */
  method RetireMetadata(t: Trees, names: seq<Rel>)
    requires t.Valid() && forall r :: r in names ==> !Outside(r)
    modifies t`from, t`folders, t`to, t`faults
    ensures t.Valid() && t.faults >= old(t.faults)
    ensures forall r :: r in t.from ==> Has(old(t.from), r, t.from[r])
    ensures forall r :: r in old(t.from) && r !in t.from ==> r in names && Has(t.to, r, old(t.from)[r])
    ensures forall r :: r in old(t.to) ==> Has(t.to, r, old(t.to)[r])
    ensures t.folders == old(t.folders) || (t.folders == old(t.folders) - {[]} && t.Empty([]))
    ensures t.faults == old(t.faults) ==>
              forall r :: r in names && r in t.from ==> r in old(t.to) && old(t.to)[r] != t.from[r]
    ensures t.faults == old(t.faults) && [] in t.folders ==> !t.Empty([])
  {
    hide Outside;
    for i := 0 to |names|
      invariant t.Valid() && t.faults >= old(t.faults) && t.folders == old(t.folders)
      invariant forall r :: r in t.from ==> Has(old(t.from), r, t.from[r])
      invariant forall r :: r in old(t.from) && r !in t.from ==> r in names && Has(t.to, r, old(t.from)[r])
      invariant forall r :: r in old(t.to) ==> Has(t.to, r, old(t.to)[r])
      invariant t.faults == old(t.faults) ==> forall r :: r in t.to && r in t.from ==> r in old(t.to)
      invariant t.faults == old(t.faults) ==>
                  forall k :: 0 <= k < i && names[k] in t.from ==>
                    names[k] in old(t.to) && old(t.to)[names[k]] != t.from[names[k]]
    {
      assert names[i] in names;
      if names[i] in t.from {
        var copied := t.CopyMissingFile(names[i]);
        if copied {
          var _ := RemoveIfMirrored(t, names[i]);
        }
      }
    }
    var _ := t.RemoveFolder([]);
  }
}
