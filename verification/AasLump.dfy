/**
 One growable lump (src/backend/aas_edit.c:64-68, 358-402): records in a block
 that grows geometrically, appended as zeroes, cut from the end without giving
 memory back.
 */
module AasLump {
  import opened AasPayload
  import opened Octets

  /** Records a lump may hold. Areas are named by 16-bit numbers. */
  function Limit(lump: nat): nat {
    if lump == AREAS then MAX_AREAS else MAX_RECORDS
  }

  function Zeroes(n: nat): (r: seq<Byte>)
    ensures |r| == n && forall k :: 0 <= k < n ==> r[k] == 0
  {
    seq(n, _ => 0 as Byte)
  }

  /** The room doubled until it holds `need` records. */
  function Doubled(room: nat, need: nat): (r: nat)
    requires room >= 16
    ensures r >= room && r >= need && (r > room ==> r < 2 * need)
    decreases need - room
  {
    if room >= need then room else Doubled(2 * room, need)
  }

  /** The capacity a block of `cap` records grows to. */
  function GrownCap(cap: nat, need: nat, limit: nat): (r: nat)
    requires need <= limit
    ensures need <= r
    ensures cap <= limit ==> r <= limit
  {
    if need <= cap then cap
    else
      var r := Doubled(if cap < 16 then 16 else cap, need);
      if r > limit then limit else r
  }

  function Doublings(n: nat): (p: nat)
    ensures p > 0
  {
    if n == 0 then 1 else 2 * Doublings(n - 1)
  }

  lemma {:induction false} DoubledIs(room: nat, need: nat) returns (n: nat)
    requires room >= 16
    ensures Doubled(room, need) == room * Doublings(n) && (n > 0 ==> Doubled(room, need) < 2 * need)
    decreases need - room
  {
    n := 0;
    if room < need {
      n := DoubledIs(2 * room, need);
      n := n + 1;
      assert room * Doublings(n) == 2 * room * Doublings(n - 1);
    }
  }

  /** A capacity that is too small is doubled, from 16 at least, until it is enough, and no further; the limit cuts it. */
  lemma GrownIs(cap: nat, need: nat, limit: nat) returns (n: nat)
    requires cap < need <= limit
    ensures var room := (if cap < 16 then 16 else cap) * Doublings(n);
            && room >= need && (n > 0 ==> room < 2 * need)
            && GrownCap(cap, need, limit) == if room < limit then room else limit
  {
    n := DoubledIs(if cap < 16 then 16 else cap, need);
  }

  class Lump {
    const which: nat
    var bytes: array<Byte>
    var count: nat
    var cap: nat

    ghost predicate Valid()
      reads this
    {
      which < LUMPS && count <= cap <= Limit(which) && bytes.Length == cap * RecordSize(which)
    }

    /** The records in use. */
    ghost function Contents(): (r: seq<Byte>)
      reads this, bytes
      requires Valid()
      ensures |r| == count * RecordSize(which)
    {
      InUse(count, cap, RecordSize(which));
      bytes[..count * RecordSize(which)]
    }

    /** The same with the capacity, as the runs below speak of it. */
    ghost function State(): (b: Block)
      reads this, bytes
      requires Valid()
      ensures Fits(which, b) && Records(which, b) == count
    {
      Division.DivUnique(count * RecordSize(which), RecordSize(which), count, 0);
      Block(Contents(), cap)
    }

    /** A parsed lump starts with no spare room. */
    constructor (which: nat, records: seq<Byte>)
      requires which < LUMPS && LumpOk(which, records) && |records| / RecordSize(which) <= Limit(which)
      ensures Valid() && fresh(bytes) && this.which == which && Contents() == records
    {
      this.which := which;
      var size := RecordSize(which);
      Whole(|records|, size);
      bytes := new Byte[|records|](i requires 0 <= i < |records| => records[i]);
      count, cap := |records| / size, |records| / size;
    }

    /** Room for `need` records: at least 16, then doubling, never past the
        limit. What is in use stays. */
    method Reserve(need: nat, memory: bool) returns (ok: bool)
      requires Valid() && need <= Limit(which)
      modifies this`bytes, this`cap
      ensures Valid() && Contents() == old(Contents())
      ensures bytes == old(bytes) || fresh(bytes)
      ensures ok <==> need <= cap
      ensures need <= old(cap) || !memory ==> bytes == old(bytes) && cap == old(cap)
      ensures memory ==> ok && cap == GrownCap(old(cap), need, Limit(which))
    {
      if need <= cap {
        return true;
      }
      var room: nat := if cap < 16 then 16 else cap;
      while room < need
        invariant room >= 16 && Doubled(room, need) == Doubled(if cap < 16 then 16 else cap, need)
        decreases need - room
      {
        room := 2 * room;
      }
      if room > Limit(which) {
        room := Limit(which);
      }
      if !memory {
        return false;
      }
      var size, used := RecordSize(which), count * RecordSize(which);
      InUse(count, cap, size);
      InUse(cap, room, size);
      ghost var was := Contents();
      var bigger := new Byte[room * size];
      var i := 0;
      while i < bigger.Length
        invariant 0 <= i <= bigger.Length && bytes == old(bytes) && cap == old(cap)
        invariant forall k :: 0 <= k < i && k < used ==> bigger[k] == was[k]
      {
        bigger[i] := if i < bytes.Length then bytes[i] else 0;
        i := i + 1;
      }
      assert bigger[..used] == was;
      bytes, cap := bigger, room;
      ok := true;
    }

    /** Append n zeroed records; first is the index of the first. */
    method Append(n: nat, memory: bool) returns (ok: bool, first: nat)
      requires Valid()
      modifies this, bytes
      ensures Valid() && (bytes == old(bytes) || fresh(bytes))
      ensures State() == After(which, old(State()), Edit.Append(n, memory))
      ensures ok ==> first == old(count) && count == old(count) + n
      ensures ok ==> Contents() == old(Contents()) + Zeroes(n * RecordSize(which))
      ensures !ok ==> count == old(count) && Contents() == old(Contents())
      ensures !ok <==> old(count) + n > (if which == 5 then 65534 else 16777216)
                       || (!memory && old(count) + n > old(cap))
    {
      hide After, Fits, Records, Accepts, GrownCap, Zeroes;
      AppendIs(which, State(), n, memory);
      var want := count + n;
      if want > Limit(which) {
        return false, 0;
      }
      first := count;
      if n == 0 {
        EnoughRoom(cap, want, Limit(which));
        assert Zeroes(0) == [] && Contents() + [] == Contents();
        return true, first;
      }
      if want <= cap {
        EnoughRoom(cap, want, Limit(which));
      }
      ok := Reserve(want, memory);
      if !ok {
        return;
      }
      ghost var was := Contents();
      var size := RecordSize(which);
      InUse(want, cap, size);
      Sum(count, n, size);
      Clear(bytes, count * size, want * size);
      count := want;
      assert bytes[..want * size] == was + Zeroes(n * size);
    }

    /** Cut the lump to its first records. */
    method Truncate(to: nat) returns (ok: bool)
      requires Valid()
      modifies this`count
      ensures Valid() && bytes == old(bytes) && cap == old(cap)
      ensures State() == After(which, old(State()), Edit.Truncate(to))
      ensures ok == (to <= old(count)) && count == (if ok then to else old(count))
      ensures ok ==> to * RecordSize(which) <= |old(Contents())| && Contents() == old(Contents())[..to * RecordSize(which)]
      ensures !ok ==> Contents() == old(Contents())
    {
      ok := to <= count;
      if ok {
        InUse(to, count, RecordSize(which));
        InUse(count, cap, RecordSize(which));
        count := to;
      }
    }
  }

  method Clear(store: array<Byte>, lo: nat, hi: nat)
    requires lo <= hi <= store.Length
    modifies store
    ensures store[..hi] == old(store[..lo]) + Zeroes(hi - lo)
    ensures store[hi..] == old(store[hi..])
  {
    var i := lo;
    while i < hi
      invariant lo <= i <= hi
      invariant forall k :: 0 <= k < store.Length ==> store[k] == if lo <= k < i then 0 else old(store[k])
    {
      store[i] := 0;
      i := i + 1;
    }
  }

  lemma InUse(a: nat, b: nat, size: nat)
    requires a <= b
    ensures a * size <= b * size
  {
    assert (b - a) * size >= 0;
  }

  lemma Sum(a: nat, b: nat, size: nat)
    ensures (a + b) * size == a * size + b * size
  {
  }

  lemma Whole(n: nat, size: nat)
    requires size > 0 && n % size == 0
    ensures n / size * size == n
  {
  }

  // ---- any mix of appends and truncations ----

  /** The records in use, and how many the block has room for. */
  datatype Block = Block(records: seq<Byte>, cap: nat)

  /** A call; `memory` says whether there is any when the block must grow. */
  datatype Edit = Append(n: nat, memory: bool) | Truncate(to: nat)

  ghost predicate Fits(lump: nat, b: Block) {
    lump < LUMPS && LumpOk(lump, b.records) && |b.records| / RecordSize(lump) <= b.cap <= Limit(lump)
  }

  function Records(lump: nat, b: Block): nat
    requires lump < LUMPS
  {
    |b.records| / RecordSize(lump)
  }

  /** An append past the limit, or one for which there is no memory, is refused, and so is cutting to more records. */
  predicate Accepts(lump: nat, b: Block, e: Edit)
    requires lump < LUMPS
  {
    match e
    case Append(n, memory) => Records(lump, b) + n <= Limit(lump) && (memory || Records(lump, b) + n <= b.cap)
    case Truncate(to) => to <= Records(lump, b)
  }

  /** The block after one call; a refused one changes nothing. */
  function After(lump: nat, b: Block, e: Edit): Block
    requires Fits(lump, b)
  {
    var size := RecordSize(lump);
    if !Accepts(lump, b, e) then b
    else
      match e
      case Append(n, _) => Block(b.records + Zeroes(n * size), GrownCap(b.cap, Records(lump, b) + n, Limit(lump)))
      case Truncate(to) =>
        InUse(to, Records(lump, b), size);
        Whole(|b.records|, size);
        b.(records := b.records[..to * size])
  }

  lemma AfterFits(lump: nat, b: Block, e: Edit)
    requires Fits(lump, b)
    ensures Fits(lump, After(lump, b, e)) && After(lump, b, e).cap >= b.cap
    ensures Records(lump, After(lump, b, e)) ==
            if !Accepts(lump, b, e) then Records(lump, b) else if e.Append? then Records(lump, b) + e.n else e.to
  {
    var size := RecordSize(lump);
    Whole(|b.records|, size);
    match e
    case Append(n, _) =>
      Sum(Records(lump, b), n, size);
      Division.DivUnique((Records(lump, b) + n) * size, size, Records(lump, b) + n, 0);
    case Truncate(to) =>
      if to <= Records(lump, b) {
        InUse(to, Records(lump, b), size);
      }
      Division.DivUnique(to * size, size, to, 0);
  }

  lemma AppendIs(lump: nat, b: Block, n: nat, memory: bool)
    requires Fits(lump, b)
    ensures var count := Records(lump, b);
            After(lump, b, Append(n, memory)) ==
            if count + n <= Limit(lump) && (memory || count + n <= b.cap)
            then Block(b.records + Zeroes(n * RecordSize(lump)), GrownCap(b.cap, count + n, Limit(lump)))
            else b
  {
  }

  lemma EnoughRoom(cap: nat, need: nat, limit: nat)
    requires need <= limit && need <= cap
    ensures GrownCap(cap, need, limit) == cap
  {
  }

  /** The block after a run of calls. */
  function Edited(lump: nat, b: Block, edits: seq<Edit>): (r: Block)
    requires Fits(lump, b)
    ensures Fits(lump, r) && r.cap >= b.cap
    decreases |edits|
  {
    if edits == [] then b
    else
      AfterFits(lump, b, edits[0]);
      Edited(lump, After(lump, b, edits[0]), edits[1..])
  }

  /** The calls of a run that are accepted in their turn. */
  function Accepted(lump: nat, b: Block, edits: seq<Edit>): seq<Edit>
    requires Fits(lump, b)
    decreases |edits|
  {
    if edits == [] then []
    else
      AfterFits(lump, b, edits[0]);
      (if Accepts(lump, b, edits[0]) then [edits[0]] else []) + Accepted(lump, After(lump, b, edits[0]), edits[1..])
  }

  /** How many records the calls ask for. */
  function Asked(count: nat, edits: seq<Edit>): nat
    decreases |edits|
  {
    if edits == [] then count
    else
      match edits[0]
      case Append(n, _) => Asked(count + n, edits[1..])
      case Truncate(to) => Asked(to, edits[1..])
  }

  /**
   * After any run of calls the lump is as if the refused ones had never been made, and has as many records as the
   * others ask for.
   */
  lemma {:induction false} RefusedLeaveNoTrace(lump: nat, b: Block, edits: seq<Edit>)
    requires Fits(lump, b)
    ensures Edited(lump, b, Accepted(lump, b, edits)) == Edited(lump, b, edits)
    ensures Records(lump, Edited(lump, b, edits)) == Asked(Records(lump, b), Accepted(lump, b, edits))
    decreases |edits|
  {
    hide Fits, Accepts, After, Count;
    if edits != [] {
      var e, b' := edits[0], After(lump, b, edits[0]);
      AfterFits(lump, b, e);
      RefusedLeaveNoTrace(lump, b', edits[1..]);
      var rest := Accepted(lump, b', edits[1..]);
      if Accepts(lump, b, e) {
        assert ([e] + rest)[1..] == rest;
      } else {
        RefusedChangesNothing(lump, b, e);
        assert [] + rest == rest;
      }
    }
  }

  lemma RefusedChangesNothing(lump: nat, b: Block, e: Edit)
    requires Fits(lump, b) && !Accepts(lump, b, e)
    ensures After(lump, b, e) == b
  {
  }

  /** The smallest number of records a run of calls ever leaves. */
  function LowWater(lump: nat, b: Block, edits: seq<Edit>): nat
    requires Fits(lump, b)
    decreases |edits|
  {
    if edits == [] then Records(lump, b)
    else
      AfterFits(lump, b, edits[0]);
      var rest := LowWater(lump, After(lump, b, edits[0]), edits[1..]);
      if Records(lump, b) < rest then Records(lump, b) else rest
  }

  /**
   * Whatever is refused in between: the records that were never cut off are still there, byte for byte, and every
   * other byte in use is zero, whatever was in the block before.
   */
  lemma {:induction false} EditsKeep(lump: nat, b: Block, edits: seq<Edit>, k: nat)
    requires Fits(lump, b) && k < |Edited(lump, b, edits).records|
    ensures LowWater(lump, b, edits) * RecordSize(lump) <= |b.records|
    ensures k < LowWater(lump, b, edits) * RecordSize(lump) ==> Edited(lump, b, edits).records[k] == b.records[k]
    ensures k >= LowWater(lump, b, edits) * RecordSize(lump) ==> Edited(lump, b, edits).records[k] == 0
    decreases |edits|
  {
    var size := RecordSize(lump);
    Whole(|b.records|, size);
    if edits != [] {
      AfterFits(lump, b, edits[0]);
      var b' := After(lump, b, edits[0]);
      EditsKeep(lump, b', edits[1..], k);
      Whole(|b'.records|, size);
      InUse(LowWater(lump, b, edits), LowWater(lump, b', edits[1..]), size);
      InUse(LowWater(lump, b, edits), Records(lump, b), size);
    }
  }
}
