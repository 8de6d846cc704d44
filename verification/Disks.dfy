/** A file system as a map from path to bytes, whose operations may fail at any time. */
module Disks {
  import opened Octets

  type Bytes = seq<Byte>
  type Path = string
  type Files<P(==)> = map<P, Bytes>

  predicate Holds<P(==)>(fs: Files<P>, p: P, b: Bytes) {
    p in fs && fs[p] == b
  }

  /** Nothing differs between the two states except, perhaps, at p. */
  ghost predicate SameBut<P(!new)>(before: Files<P>, after: Files<P>, p: P) {
    && (forall q :: q != p ==> (q in before <==> q in after))
    && (forall q :: q != p && q in before && q in after ==> before[q] == after[q])
  }

  function Moved<P(==)>(fs: Files<P>, from: P, to: P): Files<P>
    requires from in fs
  {
    (fs - {from})[to := fs[from]]
  }

  function With<P(==)>(fs: Files<P>, p: P, b: Bytes): Files<P> {
    fs[p := b]
  }

  /**
   * The disk the installer runs on. An interruption may stop a run between any two writes, so `safe` says what
   * must be true of every state the disk passes through: an operation may only be started when each state it can
   * leave behind, on failure and half way included, is safe. `faults` counts the operations that failed although
   * nothing on the disk stood in their way.
   */
  class Disk<P(==)> {
    var files: Files<P>
    ghost const safe: Files<P> -> bool
    ghost var faults: nat

    constructor (initial: Files<P>, ghost safe: Files<P> -> bool)
      requires safe(initial)
      ensures Valid() && files == initial && faults == 0 && this.safe == safe
    {
      files, faults, this.safe := initial, 0, safe;
    }

    ghost predicate Valid()
      reads this
    {
      safe(files)
    }

    /** Whether anything is at p. The question itself may fail, and then the path does not count as free. */
    method IsFree(p: P) returns (free: bool)
      modifies this`faults
      ensures faults >= old(faults)
      ensures free ==> p !in files
      ensures p !in files && !free ==> faults > old(faults)
    {
      free := *;
      if p in files {
        free := false;
      } else if !free {
        faults := faults + 1;
      }
    }

    /** Whether there is a file at p whose presence can be confirmed. */
    method IsThere(p: P) returns (there: bool)
      modifies this`faults
      ensures faults >= old(faults)
      ensures there ==> p in files
      ensures p in files && !there ==> faults > old(faults)
    {
      there := *;
      if p !in files {
        there := false;
      } else if !there {
        faults := faults + 1;
      }
    }

    /** The bytes at p, when they can be read. */
    method Read(p: P) returns (ok: bool, b: Bytes)
      modifies this`faults
      ensures faults >= old(faults)
      ensures ok ==> Holds(files, p, b)
      ensures p in files && !ok ==> faults > old(faults)
    {
      ok, b := *, [];
      if p !in files {
        ok := false;
      } else if ok {
        b := files[p];
      } else {
        faults := faults + 1;
      }
    }

    method Identical(p: P, q: P) returns (same: bool)
      modifies this`faults
      ensures faults >= old(faults)
      ensures same ==> p in files && q in files && files[p] == files[q]
      ensures p in files && q in files && files[p] == files[q] && !same ==> faults > old(faults)
    {
      var a, x := Read(p);
      var b, y := Read(q);
      same := a && b && x == y;
    }

    /** Renaming replaces what was at the destination. */
    method Rename(from: P, to: P) returns (ok: bool)
      requires Valid() && (from in files ==> safe(Moved(files, from, to)))
      modifies this
      ensures Valid() && faults >= old(faults)
      ensures ok ==> from in old(files) && files == Moved(old(files), from, to)
      ensures !ok ==> files == old(files)
      ensures !ok && from in old(files) ==> faults > old(faults)
    {
      ok := *;
      if from !in files {
        ok := false;
      } else if ok {
        files := Moved(files, from, to);
      } else {
        faults := faults + 1;
      }
    }

    method Remove(p: P) returns (ok: bool)
      requires Valid() && safe(files - {p})
      modifies this
      ensures Valid() && faults >= old(faults)
      ensures ok ==> p in old(files) && files == old(files) - {p}
      ensures !ok ==> files == old(files)
      ensures !ok && p in old(files) ==> faults > old(faults)
    {
      ok := *;
      if p !in files {
        ok := false;
      } else if ok {
        files := files - {p};
      } else {
        faults := faults + 1;
      }
    }

    /**
     * Opens a file that must not exist yet. When it is refused because something is there already, `taken` says so.
     */
    method Create(p: P) returns (ok: bool, taken: bool)
      requires Valid() && safe(files[p := []])
      modifies this
      ensures Valid() && faults >= old(faults)
      ensures ok ==> p !in old(files) && files == old(files)[p := []]
      ensures !ok ==> files == old(files)
      ensures taken ==> !ok && p in old(files)
      ensures !ok && !taken ==> faults > old(faults)
    {
      ok, taken := *, false;
      if p in files {
        ok, taken := false, *;
      }
      if ok {
        files := files[p := []];
      } else if !taken {
        faults := faults + 1;
      }
    }

    /**
     * Writes bytes into the file at p. A write may stop half way, and even one that reports success is not trusted
     * to have stored what it was given: only a fault, though, makes it store anything else.
     */
    method Write(p: P, bytes: Bytes) returns (ok: bool)
      requires Valid() && forall b :: safe(With(files, p, b))
      modifies this
      ensures Valid() && faults >= old(faults)
      ensures exists b :: files == With(old(files), p, b)
      ensures faults == old(faults) ==> ok && files == old(files)[p := bytes]
    {
      var stored: Bytes :| true;
      ok := *;
      if !ok || stored != bytes {
        faults := faults + 1;
      }
      files := With(files, p, stored);
    }

    /** Copies src over whatever is at dst. */
    method Copy(src: P, dst: P) returns (ok: bool)
      requires Valid() && src != dst && forall b :: safe(With(files, dst, b))
      modifies this
      ensures Valid() && faults >= old(faults)
      ensures files == old(files) || exists b :: files == With(old(files), dst, b)
      ensures ok ==> dst in files && src in old(files)
      ensures src in old(files) && faults == old(faults) ==> ok && files == old(files)[dst := old(files)[src]]
    {
      var bytes;
      ok, bytes := Read(src);
      if ok {
        ok := *;
        if ok {
          ok := Write(dst, bytes);
        } else {
          faults := faults + 1;
        }
      }
    }
  }
}
