/**
 * The rewritten visibility table, told by what stands on what (src/backend/aas_augment.c:661-764).
 */
module PvsResults {
  import opened Options
  import opened PvsCodec
  import opened PvsRows

  // ---- the code of a row ----

  /** How much the k-th bit of a byte is worth. */
  function Weight(k: nat): nat
    requires k < 7
  {
    [1, 2, 4, 8, 16, 32, 64][k]
  }

  /** The bytes from `at` on stand for this row: below 0x80 seven bits, below 0xC0 up to 64 zeros, else a run in two bytes. */
  ghost predicate Reads(bytes: seq<int>, at: nat, row: seq<bool>)
    decreases |row|
  {
    || row == []
    || (at < |bytes| && bytes[at] < 0x80 && SevenBits(bytes[at], row)
        && Reads(bytes, at + 1, if |row| > 7 then row[7..] else []))
    || (at < |bytes| && 0x80 <= bytes[at] < 0xC0 && Skips(row, bytes[at] - 0x80 + 1)
        && Reads(bytes, at + 1, if |row| > bytes[at] - 0x80 + 1 then row[bytes[at] - 0x80 + 1..] else []))
    || (at + 1 < |bytes| && bytes[at] >= 0xC0 && bytes[at + 1] >= 0 && Skips(row, bytes[at] - 0xC0 + 64 * bytes[at + 1] + 1)
        && Reads(bytes, at + 2, if |row| > bytes[at] - 0xC0 + 64 * bytes[at + 1] + 1
                                then row[bytes[at] - 0xC0 + 64 * bytes[at + 1] + 1..] else []))
  }

  ghost predicate SevenBits(token: int, row: seq<bool>) {
    forall k :: 0 <= k < 7 && k < |row| ==> (row[k] <==> (token / Weight(k)) % 2 == 1)
  }

  ghost predicate Skips(row: seq<bool>, run: int) {
    forall k :: 0 <= k < run && k < |row| ==> !row[k]
  }

  lemma WeightIs(k: nat)
    requires k < 7
    ensures Pow2(k) == Weight(k)
  {
    assert Pow2(3) == 8 && Pow2(5) == 32;
  }

  lemma BitsAre(token: int, row: seq<bool>)
    ensures SevenBits(token, row) <==> Bits(token, Min(7, |row|)) == row[..Min(7, |row|)]
  {
    forall k: nat | k < 7
      ensures Pow2(k) == Weight(k)
    {
      WeightIs(k);
    }
    hide Pow2, Weight;
    var bits, low := Bits(token, Min(7, |row|)), row[..Min(7, |row|)];
    if SevenBits(token, row) {
      assert forall k :: 0 <= k < Min(7, |row|) ==> bits[k] == low[k];
    }
    if bits == low {
      assert forall k :: 0 <= k < Min(7, |row|) ==> bits[k] == low[k] == row[k];
    }
  }

  lemma ZerosAre(row: seq<bool>, run: nat)
    ensures Skips(row, run) <==> Zeros(Min(run, |row|)) == row[..Min(run, |row|)]
  {
    var low := row[..Min(run, |row|)];
    if Zeros(Min(run, |row|)) == low {
      assert forall k :: 0 <= k < Min(run, |row|) ==> !low[k] && low[k] == row[k];
    }
  }

  /** A first token that stands for as many bits, and the rest behind it. */
  lemma FirstToken(first: seq<bool>, rest: Option<seq<bool>>, row: seq<bool>)
    requires |first| <= |row| && (rest.Some? ==> |first| + |rest.value| == |row|)
    ensures Before(first, rest) == Some(row) <==> first == row[..|first|] && rest == Some(row[|first|..])
  {
    if first == row[..|first|] && rest == Some(row[|first|..]) {
      assert first + rest.value == row;
    }
    if Before(first, rest) == Some(row) {
      assert (first + rest.value)[|first|..] == rest.value;
    }
  }

  /** A row is read from bytes exactly when they stand for it. */
  lemma {:induction false} DecodeIff(bytes: seq<int>, at: nat, row: seq<bool>)
    requires AreBytes(bytes)
    ensures Decode(bytes, at, |row|) == Some(row) <==> Reads(bytes, at, row)
    decreases |row|, 1
  {
    if row != [] && at < |bytes| {
      DecodeStarts(bytes, at, |row|);
      var token := bytes[at];
      if token < 128 {
        var n := Min(7, |row|);
        DecodeIff(bytes, at + 1, row[n..]);
        BitsAre(token, row);
        FirstToken(Bits(token, n), Decode(bytes, at + 1, |row| - n), row);
      } else {
        DecodeRunIff(bytes, at, row);
      }
    }
  }

  lemma ReadsRun(bytes: seq<int>, at: nat, row: seq<bool>)
    requires AreBytes(bytes) && row != [] && at < |bytes| && bytes[at] >= 128
    ensures SkipAt(bytes, at).None? ==> !Reads(bytes, at, row)
    ensures SkipAt(bytes, at).Some? ==>
      var (run, size) := SkipAt(bytes, at).value;
      run > 0 && (Reads(bytes, at, row) <==> Skips(row, run) && Reads(bytes, at + size, row[Min(run, |row|)..]))
  {
    hide Skips, SevenBits;
    if SkipAt(bytes, at).Some? {
      assert row[|row|..] == [];
    }
  }

  lemma {:induction false} DecodeRunIff(bytes: seq<int>, at: nat, row: seq<bool>)
    requires AreBytes(bytes) && row != [] && at < |bytes| && bytes[at] >= 128
    ensures Decode(bytes, at, |row|) == Some(row) <==> Reads(bytes, at, row)
    decreases |row|, 0
  {
    DecodeStarts(bytes, at, |row|);
    ReadsRun(bytes, at, row);
    hide SkipAt, Reads, Decode;
    if SkipAt(bytes, at).Some? {
      var (run, size) := SkipAt(bytes, at).value;
      var n := Min(run, |row|);
      DecodeIff(bytes, at + size, row[n..]);
      ZerosAre(row, run);
      FirstToken(Zeros(n), Decode(bytes, at + size, |row| - n), row);
    }
  }

  // ---- what stands on what ----

  ghost predicate IsCut(x: Areas, i: nat)
    requires x.Valid() && x.old_count <= i < x.count
  {
    i < x.floorEnd && x.floorParents != [] && x.floorParents[i - x.old_count] > 0
  }

  /** Platform k is the first that is area i and has a carrier before it. */
  ghost predicate FirstAt(x: Areas, i: nat, k: nat) {
    && k < |x.platforms| && x.platforms[k].area == i && 0 < x.platforms[k].carrier < i
    && forall j: nat :: j < k ==> !(x.platforms[j].area == i && 0 < x.platforms[j].carrier < i)
  }

  /** A piece of a cut floor stands on the floor, any other new area on its first platform's carrier. */
  ghost predicate StandsOn(x: Areas, i: nat, c: nat)
    requires x.Valid()
  {
    && x.old_count <= i < x.count && c < i
    && if IsCut(x, i) then c == x.floorParents[i - x.old_count]
       else exists k: nat :: FirstAt(x, i, k) && x.platforms[k].carrier == c
  }

  /** Each area of the path stands on the next, and the last is the shipped area r. */
  ghost predicate Chain(x: Areas, path: seq<nat>, r: nat)
    requires x.Valid()
  {
    && path != []
    && if |path| == 1 then path[0] == r && r < x.old_count
       else StandsOn(x, path[0], path[1]) && Chain(x, path[1..], r)
  }

  ghost predicate Leads(x: Areas, i: nat, r: nat)
    requires x.Valid()
  {
    exists path :: Chain(x, path, r) && path[0] == i
  }

  lemma {:induction false} CarrierIs(x: Areas, i: nat, k: nat)
    requires k <= |x.platforms|
    requires forall j: nat :: j < k ==> !(x.platforms[j].area == i && 0 < x.platforms[j].carrier < i)
    ensures var c := x.CarrierFrom(i, k);
            && (c == -1 ==> forall j: nat :: !FirstAt(x, i, j))
            && (c != -1 ==> exists j: nat :: FirstAt(x, i, j) && x.platforms[j].carrier == c)
    decreases |x.platforms| - k
  {
    if k < |x.platforms| {
      if x.platforms[k].area == i && 0 < x.platforms[k].carrier < i {
        assert FirstAt(x, i, k);
      } else {
        CarrierIs(x, i, k + 1);
      }
    }
  }

  lemma FirstIsOne(x: Areas, i: nat, j: nat, k: nat)
    requires FirstAt(x, i, j) && FirstAt(x, i, k)
    ensures j == k
  {
  }

  /** What an area stands on has the area's root. */
  lemma RootOfCarrier(x: Areas, i: nat, c: nat)
    requires x.Valid() && StandsOn(x, i, c)
    ensures x.Root(i) == x.Root(c)
  {
    if !IsCut(x, i) {
      CarrierIs(x, i, 0);
      var k: nat :| FirstAt(x, i, k) && x.platforms[k].carrier == c;
      var j: nat :| FirstAt(x, i, j) && x.platforms[j].carrier == x.CarrierFrom(i, 0);
      FirstIsOne(x, i, j, k);
    }
  }

  lemma SomethingBelow(x: Areas, i: nat) returns (c: nat)
    requires x.Valid() && x.old_count <= i < x.count && x.Root(i).Some?
    ensures StandsOn(x, i, c)
  {
    if IsCut(x, i) {
      c := x.floorParents[i - x.old_count];
    } else {
      CarrierIs(x, i, 0);
      c := x.CarrierFrom(i, 0);
    }
  }

  lemma {:induction false} ChainEnds(x: Areas, path: seq<nat>, r: nat)
    requires x.Valid() && Chain(x, path, r)
    ensures path[0] < x.count && x.Root(path[0]) == Some(r)
    decreases |path|
  {
    if |path| > 1 {
      ChainEnds(x, path[1..], r);
      RootOfCarrier(x, path[0], path[1]);
    }
  }

  lemma {:induction false} ChainOf(x: Areas, i: nat) returns (path: seq<nat>)
    requires x.Valid() && i < x.count && x.Root(i).Some?
    ensures Chain(x, path, x.Root(i).value) && path[0] == i
    decreases i
  {
    if i < x.old_count {
      path := [i];
    } else {
      var c := SomethingBelow(x, i);
      RootOfCarrier(x, i, c);
      var rest := ChainOf(x, c);
      path := [i] + rest;
      assert path[1..] == rest;
    }
  }

  /** An area's root is the shipped area that the chain from it ends at. */
  lemma RootIff(x: Areas, i: nat, r: nat)
    requires x.Valid() && i < x.count
    ensures x.Root(i) == Some(r) <==> Leads(x, i, r)
  {
    if x.Root(i) == Some(r) {
      var path := ChainOf(x, i);
    }
    if Leads(x, i, r) {
      var path :| Chain(x, path, r) && path[0] == i;
      ChainEnds(x, path, r);
    }
  }

  ghost predicate Carried(x: Areas, i: nat)
    requires x.Valid()
  {
    exists r: nat :: Leads(x, i, r)
  }

  /** The pass over the new areas fails exactly on one that no chain leads from. */
  lemma RootedIff(x: Areas)
    requires x.Valid()
    ensures x.Rooted() <==> forall i: nat :: i < x.count ==> Carried(x, i)
  {
    hide Leads;
    forall i: nat | i < x.count
      ensures x.Root(i).Some? <==> Carried(x, i)
    {
      if x.Root(i).Some? {
        RootIff(x, i, x.Root(i).value);
      }
      if r: nat :| Leads(x, i, r) {
        RootIff(x, i, r);
      }
    }
  }

  // ---- the rewritten table ----

  /** A generated route leads from what stands on a to what stands on b, or back. */
  ghost predicate Routed(x: Areas, links: seq<Link>, a: nat, b: nat)
    requires x.Valid()
  {
    exists l :: l in links && ((Leads(x, l.start, a) && Leads(x, l.end, b)) || (Leads(x, l.end, a) && Leads(x, l.start, b)))
  }

  /** The row at an offset; no bits where none can be read. */
  function RowAt(bytes: seq<int>, at: nat, n: nat): seq<bool> {
    var row := Decode(bytes, at, n);
    if row.Some? then row.value else []
  }

  ghost predicate Shows(row: seq<bool>, b: nat) {
    b < |row| && row[b]
  }

  /**
   * Every row can be read, an area has the row of what it stands on and shows in every row where that shows, and a
   * shipped area shows to another as before, or because a route leads there, and to itself.
   */
  ghost predicate Rewritten(x: Areas, links: seq<Link>, before: seq<int>, old_offsets: seq<nat>,
                            bytes: seq<int>, offsets: seq<nat>)
    requires x.Valid()
  {
    && |offsets| == x.count == |old_offsets|
    && (forall a :: 0 <= a < x.count ==> |RowAt(bytes, offsets[a], x.count)| == x.count)
    && (forall i: nat, c: nat :: StandsOn(x, i, c) ==> RowAt(bytes, offsets[i], x.count) == RowAt(bytes, offsets[c], x.count))
    && (forall a: nat, i: nat, c: nat :: a < x.count && StandsOn(x, i, c) ==>
          (Shows(RowAt(bytes, offsets[a], x.count), i) <==> Shows(RowAt(bytes, offsets[a], x.count), c)))
    && (forall a: nat, b: nat :: a < x.old_count && b < x.old_count ==>
          (Shows(RowAt(bytes, offsets[a], x.count), b) <==>
             || Shows(RowAt(before, old_offsets[a], x.old_count), b)
             || (a == b && a > 0) || Routed(x, links, a, b)))
  }

  lemma RowIs(x: Areas, links: seq<Link>, was: seq<seq<bool>>, bytes: seq<int>, offsets: seq<nat>, a: nat)
    requires Extended(x, links, was, bytes, offsets) && a < x.count
    ensures x.Valid() && x.Rooted() && InRange(x, links) && |was[x.RootOf(a)]| == x.old_count
    ensures RowAt(bytes, offsets[a], x.count) == Lifted(x, links, was[x.RootOf(a)], x.RootOf(a))
  {
    hide Decode, Lifted;
  }

  lemma RoutedIff(x: Areas, links: seq<Link>, a: nat, b: nat)
    requires x.Valid() && x.Rooted() && InRange(x, links)
    ensures Joined(x, links, a, b) <==> Routed(x, links, a, b)
  {
    hide Leads;
    forall l | l in links
      ensures x.RootOf(l.start) == a <==> Leads(x, l.start, a)
      ensures x.RootOf(l.start) == b <==> Leads(x, l.start, b)
      ensures x.RootOf(l.end) == a <==> Leads(x, l.end, a)
      ensures x.RootOf(l.end) == b <==> Leads(x, l.end, b)
    {
      RootIff(x, l.start, a);
      RootIff(x, l.start, b);
      RootIff(x, l.end, a);
      RootIff(x, l.end, b);
    }
  }

  lemma SameRootOf(x: Areas, i: nat, c: nat)
    requires x.Valid() && x.Rooted() && StandsOn(x, i, c)
    ensures i < x.count && c < x.count && x.RootOf(i) == x.RootOf(c)
  {
    RootOfCarrier(x, i, c);
  }

  lemma AllRewritten(x: Areas, links: seq<Link>, before: seq<int>, old_offsets: seq<nat>, was: seq<seq<bool>>,
                     bytes: seq<int>, offsets: seq<nat>)
    requires x.Valid() && |old_offsets| == x.count && OldRows(x, before, old_offsets, was)
    requires Extended(x, links, was, bytes, offsets)
    ensures Rewritten(x, links, before, old_offsets, bytes, offsets)
  {
    hide Decode, Lifted, IsCut, FirstAt, Joined, Routed;
    forall a: nat | a < x.count
      ensures |RowAt(bytes, offsets[a], x.count)| == x.count
    {
      RowIs(x, links, was, bytes, offsets, a);
    }
    forall i: nat, c: nat | StandsOn(x, i, c)
      ensures RowAt(bytes, offsets[i], x.count) == RowAt(bytes, offsets[c], x.count)
    {
      SameRootOf(x, i, c);
      RowIs(x, links, was, bytes, offsets, i);
      RowIs(x, links, was, bytes, offsets, c);
    }
    forall a: nat, i: nat, c: nat | a < x.count && StandsOn(x, i, c)
      ensures Shows(RowAt(bytes, offsets[a], x.count), i) <==> Shows(RowAt(bytes, offsets[a], x.count), c)
    {
      SameRootOf(x, i, c);
      RowIs(x, links, was, bytes, offsets, a);
    }
    forall a: nat, b: nat | a < x.old_count && b < x.old_count
      ensures Shows(RowAt(bytes, offsets[a], x.count), b) <==>
                || Shows(RowAt(before, old_offsets[a], x.old_count), b)
                || (a == b && a > 0) || Routed(x, links, a, b)
    {
      RowIs(x, links, was, bytes, offsets, a);
      RoutedIff(x, links, a, b);
    }
  }

  /** aug_rebuild_pvs. On failure the old table is still a prefix, under its old
      offsets. */
  method RebuildPvs(m: PvsTable, x: Areas, links: seq<Link>) returns (ok: bool, ghost was: seq<seq<bool>>)
    requires x.Valid() && |m.offsets| == x.count
    modifies m
    ensures ok && x.count > x.old_count ==>
      OldRows(x, old(m.bytes), old(m.offsets), was) && Extended(x, links, was, m.bytes, m.offsets)
    ensures x.count == x.old_count ==> ok && m.bytes == old(m.bytes) && m.offsets == old(m.offsets)
    ensures !ok ==> old(m.bytes) <= m.bytes && m.offsets == old(m.offsets)
    ensures ok && x.count > x.old_count ==> AreBytes(m.bytes)
    ensures ok && x.count > x.old_count ==> Rewritten(x, links, old(m.bytes), old(m.offsets), m.bytes, m.offsets)
    ensures !ok ==> Fails(x, links, old(m.bytes), old(m.offsets), m.room)
  {
    was, ok := [], true;
    if x.count == x.old_count {
      return;
    }
    hide *;
    ghost var original := m.bytes;
    var base := |m.bytes|;
    var parent, rows;
    parent, ok := ResolveParents(x);
    if !ok {
      Unrooted(x, links, original, m.offsets, m.room);
      return;
    }
    AreParents(x, parent);
    ghost var shippedRows, expected, tail;
    rows, ok, was, shippedRows, tail := ExtendShipped(m, x, parent, links);
    if !ok {
      return;
    }
    ShippedRowSizes(x, links, was, shippedRows);
    rows, ok, expected, tail := CopyRows(m, x, parent, rows, base, original, shippedRows, tail);
    if !ok {
      Unrooted(x, links, original, m.offsets, m.room);
      return;
    }
    m.bytes := m.bytes[base..];
    assert m.bytes == tail;
    m.offsets := rows;
    LaidOut(expected, tail, rows);
    RowsDecode(x, links, was, shippedRows, expected, tail, rows);
    AllRewritten(x, links, original, old(m.offsets), was, m.bytes, m.offsets);
  }

}
