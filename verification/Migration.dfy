/**
 * Carrying a player's content from the old data folder to the new one, and retiring the old folder: the two trees
 * and what may be done to them (installer/userdata.go:19-45, 198-260).
 */
module Migration {
  import opened Disks

  /** A path below a content root, component by component; [] is the root itself. */
  type Rel = seq<string>
  type Tree = map<Rel, Bytes>

  function LowerChar(c: char): char {
    if 'A' <= c <= 'Z' then c - 'A' + 'a' else c
  }

  function Lower(s: string): string {
    seq(|s|, i requires 0 <= i < |s| => LowerChar(s[i]))
  }

  /** Retired package folders and regenerable cache: what the migration leaves where it is. */
  predicate Outside(r: Rel) {
    r != [] && Lower(r[0]) in
      {"overrides", "package-cache", "package-staging", "override-backups", "cache", "webview2"}
  }

  /** The same name, whatever the case of its letters. */
  ghost predicate SameName(s: string, name: string) {
    |s| == |name| && forall i :: 0 <= i < |s| ==> s[i] == name[i] || ('A' <= s[i] <= 'Z' && s[i] as int + 32 == name[i] as int)
  }

  lemma LowerIs(s: string, name: string)
    requires forall i :: 0 <= i < |name| ==> !('A' <= name[i] <= 'Z')
    ensures Lower(s) == name <==> SameName(s, name)
  {
    forall i | 0 <= i < |s| && |s| == |name|
      ensures Lower(s)[i] == name[i] <==> s[i] == name[i] || ('A' <= s[i] <= 'Z' && s[i] as int + 32 == name[i] as int)
    {
    }
  }

  /** Left where it is: what lies in one of six folders of the root, or is one. */
  lemma OutsideIff(r: Rel)
    ensures Outside(r) <==>
              && r != []
              && (SameName(r[0], "overrides") || SameName(r[0], "package-cache") || SameName(r[0], "package-staging")
                  || SameName(r[0], "override-backups") || SameName(r[0], "cache") || SameName(r[0], "webview2"))
  {
    if r != [] {
      LowerIs(r[0], "overrides");
      LowerIs(r[0], "package-cache");
      LowerIs(r[0], "package-staging");
      LowerIs(r[0], "override-backups");
      LowerIs(r[0], "cache");
      LowerIs(r[0], "webview2");
    }
  }

  predicate Has(t: Tree, r: Rel, b: Bytes) {
    r in t && t[r] == b
  }

  /** Whether p is directly in the folder d. */
  predicate ChildOf(p: Rel, d: Rel) {
    p != [] && p[..|p| - 1] == d
  }

  function Migratable(t: Tree): Tree {
    map r | r in t && !Outside(r) :: t[r]
  }

  /** Every file to be migrated has an identical copy. */
  predicate Mirrored(from: Tree, to: Tree) {
    forall r :: r in from && !Outside(r) ==> Has(to, r, from[r])
  }

  /**
   * The two trees. `owed` holds, for every file the old tree ever had, its bytes; `shield` the files that were at
   * the destination before. Every operation keeps Valid, so it is true whenever a run is interrupted.
   */
  class Trees {
    var from: Tree
    var folders: set<Rel>
    var to: Tree
    ghost var owed: Tree
    ghost var shield: Tree
    ghost var faults: nat

    constructor (from: Tree, folders: set<Rel>, to: Tree)
      ensures Valid() && this.from == from && this.folders == folders && this.to == to
      ensures owed == from && shield == to && faults == 0
    {
      this.from, this.folders, this.to, owed, shield, faults := from, folders, to, from, to, 0;
    }

    ghost predicate Valid()
      reads this
    {
      && (forall r :: r in from ==> Has(owed, r, from[r]))
      && (forall r :: r in owed ==> Has(from, r, owed[r]) || (!Outside(r) && Has(to, r, owed[r])))
      && (forall r :: r in shield ==> Has(to, r, shield[r]))
    }

    /** The copy at r is not one a caller may rely on yet: the source still has the file. */
    ghost predicate Unfinished(r: Rel)
      reads this
    {
      r !in shield && r in from
    }

    /** Another process puts a file into the old tree. */
    method Arrive(r: Rel, b: Bytes)
      requires Valid() && r !in from
      modifies this`from, this`owed, this`shield
      ensures Valid() && from == old(from)[r := b] && owed == old(owed)[r := b]
      ensures forall q :: q in old(shield) ==> Has(shield, q, old(shield)[q])
      ensures forall q :: q in old(owed) && old(owed)[q] != owed[q] ==> Has(shield, q, old(owed)[q])
    {
      if r in owed {
        shield := shield[r := to[r]];
      }
      from, owed := from[r := b], owed[r := b];
    }

    method Read(t: Tree, r: Rel) returns (ok: bool, b: Bytes)
      modifies this`faults
      ensures faults >= old(faults)
      ensures ok ==> Has(t, r, b)
      ensures r in t && !ok ==> faults > old(faults)
    {
      ok, b := *, [];
      if r !in t {
        ok := false;
      } else if ok {
        b := t[r];
      } else {
        faults := faults + 1;
      }
    }

    method Identical(r: Rel) returns (same: bool)
      modifies this`faults
      ensures faults >= old(faults)
      ensures same ==> r in from && Has(to, r, from[r])
      ensures r in from && Has(to, r, from[r]) && !same ==> faults > old(faults)
    {
      var a, x := Read(from, r);
      var b, y := Read(to, r);
      same := a && b && x == y;
    }

    /** Creates the copy's file, refusing when something is there already. */
    method Create(r: Rel) returns (ok: bool, taken: bool)
      requires Valid()
      modifies this`to, this`faults
      ensures Valid() && faults >= old(faults)
      ensures ok ==> r !in old(to) && to == old(to)[r := []]
      ensures !ok ==> to == old(to)
      ensures taken ==> !ok && r in to
      ensures !ok && !taken ==> faults > old(faults)
    {
      ok, taken := *, false;
      if r in to {
        ok, taken := false, *;
      }
      if ok {
        to := to[r := []];
      } else if !taken {
        faults := faults + 1;
      }
    }

    /** Fills an unfinished copy; only a fault makes it hold anything but the given bytes. */
    method Write(r: Rel, bytes: Bytes) returns (ok: bool)
      requires Valid() && Unfinished(r)
      modifies this`to, this`faults
      ensures Valid() && faults >= old(faults)
      ensures r in to && to == old(to)[r := to[r]]
      ensures faults == old(faults) ==> ok && to[r] == bytes
    {
      var stored: Bytes :| true;
      ok := *;
      if !ok || stored != bytes {
        faults := faults + 1;
      }
      to := to[r := stored];
    }

    /** Removes an unfinished copy. */
    method Discard(r: Rel) returns (ok: bool)
      requires Valid() && Unfinished(r) && r in to
      modifies this`to, this`faults
      ensures Valid() && faults >= old(faults)
      ensures to == if ok then old(to) - {r} else old(to)
      ensures !ok ==> faults > old(faults)
    {
      ok := *;
      if ok {
        to := to - {r};
      } else {
        faults := faults + 1;
      }
    }

    /** Removes a source file, which only a copy with the same bytes allows. */
    method RemoveSource(r: Rel) returns (ok: bool)
      requires Valid() && r in from && !Outside(r) && Has(to, r, from[r])
      modifies this`from, this`faults
      ensures Valid() && faults >= old(faults)
      ensures from == if ok then old(from) - {r} else old(from)
      ensures !ok ==> faults > old(faults)
    {
      ok := *;
      if ok {
        from := from - {r};
      } else {
        faults := faults + 1;
      }
    }

    predicate Empty(d: Rel)
      reads this
    {
      (forall r :: r in from ==> !ChildOf(r, d)) && (forall c :: c in folders ==> !ChildOf(c, d))
    }

    /** Nothing is directly in an empty folder. */
    lemma EmptyIff(d: Rel)
      ensures Empty(d) <==> forall p :: (p in from || p in folders) && p != [] ==> p[..|p| - 1] != d
    {
    }

    /** Removing a folder fails unless it is empty. */
    method RemoveFolder(d: Rel) returns (ok: bool)
      modifies this`folders, this`faults
      ensures faults >= old(faults)
      ensures ok ==> d in old(folders) && old(Empty(d)) && folders == old(folders) - {d}
      ensures !ok ==> folders == old(folders)
      ensures d in old(folders) && old(Empty(d)) && !ok ==> faults > old(faults)
    {
      ok := *;
      if d !in folders || !Empty(d) {
        ok := false;
      } else if ok {
        folders := folders - {d};
      } else {
        faults := faults + 1;
      }
    }

    /** Copies one file whose destination is missing; a copy that fails is taken away again. */
    method CopyMissingFile(r: Rel) returns (ok: bool)
      requires Valid() && r in from
      modifies this`to, this`faults
      ensures Valid() && faults >= old(faults)
      ensures r in old(to) ==> to == old(to)
      ensures to == old(to) || (r in to && to == old(to)[r := to[r]])
      ensures ok ==> r in to
      ensures faults == old(faults) ==> ok && to == if r in old(to) then old(to) else old(to)[r := from[r]]
    {
      var bytes, taken;
      ok, bytes := Read(from, r);
      if !ok {
        return;
      }
      ok, taken := Create(r);
      if !ok {
        return taken;
      }
      ok := Write(r, bytes);
      if !ok {
        var _ := Discard(r);
      }
    }
  }
}
