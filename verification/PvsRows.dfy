/**
 Extending the visibility table to the new areas
 (src/backend/aas_augment.c:665-764). Every new area shares the row of the
 original area its construction stands on, and that row also shows the
 neighbours its routes lead to.
 */
module PvsRows {
  import opened Options
  import opened PvsCodec

  /** A platform area and the area that carries it. */
  datatype Platform = Platform(area: int, carrier: int)

  /** A generated route's two areas. */
  datatype Link = Link(start: nat, end: nat)

  /** floorParents[i] is the shipped floor that piece old + i was cut from, not
      above 0 when it is no piece. */
  datatype Areas = Areas(old_count: nat, count: nat, floorEnd: nat, floorParents: seq<int>, platforms: seq<Platform>) {

    predicate Valid() {
      && 0 < old_count <= count
      && (floorParents == [] || |floorParents| == count - old_count)
      && forall i :: 0 <= i < |floorParents| ==> floorParents[i] < old_count
    }

    predicate IsPiece(i: nat)
      requires Valid() && old_count <= i < count
    {
      i < floorEnd && floorParents != [] && floorParents[i - old_count] > 0
    }

    /** The carrier of the first platform that is area i, or -1. */
    function CarrierFrom(i: nat, k: nat): (c: int)
      ensures c == -1 || 0 < c < i
      decreases |platforms| - k
    {
      if k >= |platforms| then -1
      else if platforms[k].area == i && 0 < platforms[k].carrier < i then platforms[k].carrier
      else CarrierFrom(i, k + 1)
    }

    /** The shipped area at the end of the chain of carriers. */
    function Root(i: nat): (r: Option<nat>)
      requires Valid() && i < count
      ensures r.Some? ==> r.value < old_count
      ensures i < old_count ==> r == Some(i)
      decreases i
    {
      if i < old_count then Some(i)
      else if IsPiece(i) then Some(floorParents[i - old_count])
      else
        var c := CarrierFrom(i, 0);
        if c == -1 then None else Root(c)
    }

    predicate Rooted()
      requires Valid()
    {
      forall i :: 0 <= i < count ==> Root(i).Some?
    }

    function RootOf(i: nat): (r: nat)
      requires Valid() && Rooted() && i < count
      ensures r < old_count && (i < old_count ==> r == i)
    {
      Root(i).value
    }
  }

  method FindCarrier(x: Areas, i: nat) returns (c: int)
    ensures c == x.CarrierFrom(i, 0)
  {
    var k := 0;
    while k < |x.platforms|
      invariant 0 <= k <= |x.platforms| && x.CarrierFrom(i, 0) == x.CarrierFrom(i, k)
    {
      var p := x.platforms[k];
      if p.area == i && 0 < p.carrier < i {
        return p.carrier;
      }
      k := k + 1;
    }
    c := -1;
  }

  /** The roots of all areas, in one pass; it fails on an area without one. */
  method ResolveParents(x: Areas) returns (parent: seq<nat>, ok: bool)
    requires x.Valid()
    ensures ok <==> x.Rooted()
    ensures ok ==> |parent| == x.count && forall i :: 0 <= i < x.count ==> parent[i] == x.RootOf(i)
  {
    parent, ok := [], true;
    while |parent| < x.count
      invariant |parent| <= x.count
      invariant forall i :: 0 <= i < |parent| ==> x.Root(i) == Some(parent[i])
    {
      var i := |parent|;
      if i < x.old_count {
        parent := parent + [i];
      } else if i < x.floorEnd && x.floorParents != [] && x.floorParents[i - x.old_count] > 0 {
        parent := parent + [x.floorParents[i - x.old_count]];
      } else {
        var c := FindCarrier(x, i);
        if c == -1 {
          assert x.Root(i).None?;
          return parent, false;
        }
        parent := parent + [parent[c]];
      }
    }
  }

  // ---- what a row should show ----

  /** A generated route joins the two roots, in either direction. */
  predicate Joined(x: Areas, links: seq<Link>, a: nat, b: nat)
    requires x.Valid() && x.Rooted() && forall l :: l in links ==> l.start < x.count && l.end < x.count
  {
    exists l :: l in links && ((x.RootOf(l.start) == a && x.RootOf(l.end) == b) || (x.RootOf(l.end) == a && x.RootOf(l.start) == b))
  }

  /** What a shipped area sees of a shipped area. */
  predicate Sees(x: Areas, links: seq<Link>, was: seq<bool>, a: nat, b: nat)
    requires x.Valid() && x.Rooted() && forall l :: l in links ==> l.start < x.count && l.end < x.count
    requires |was| == x.old_count && b < x.old_count
  {
    was[b] || (b == a && a > 0) || Joined(x, links, a, b)
  }

  /** The lifted row: every area shows as its root does. */
  function Lifted(x: Areas, links: seq<Link>, was: seq<bool>, a: nat): (r: seq<bool>)
    requires x.Valid() && x.Rooted() && forall l :: l in links ==> l.start < x.count && l.end < x.count
    requires |was| == x.old_count
    ensures |r| == x.count && forall p :: 0 <= p < x.count ==> r[p] == Sees(x, links, was, a, x.RootOf(p))
  {
    seq(x.count, p requires 0 <= p < x.count => Sees(x, links, was, a, x.RootOf(p)))
  }

  /** Old bits stay, the own area shows, and both ends of a route show each
      other's root. */
  lemma LiftedShows(x: Areas, links: seq<Link>, was: seq<bool>, a: nat, p: nat)
    requires x.Valid() && x.Rooted() && forall l :: l in links ==> l.start < x.count && l.end < x.count
    requires |was| == x.old_count && p < x.count
    ensures var row := Lifted(x, links, was, a);
            && (p < x.old_count && was[p] ==> row[p])
            && (x.RootOf(p) == a && a > 0 ==> row[p])
            && row[p] == row[x.RootOf(p)]
            && forall l :: l in links ==> (x.RootOf(l.start) == a ==> row[l.end]) && (x.RootOf(l.end) == a ==> row[l.start])
  {
    forall l | l in links
      ensures x.RootOf(l.start) == a ==> Joined(x, links, a, x.RootOf(l.end))
      ensures x.RootOf(l.end) == a ==> Joined(x, links, a, x.RootOf(l.start))
    {
    }
  }

  // ---- one row ----

  ghost predicate InRange(x: Areas, links: seq<Link>) {
    forall l :: l in links ==> l.start < x.count && l.end < x.count
  }

  ghost predicate ParentsOf(x: Areas, parent: seq<nat>) {
    && x.Valid() && x.Rooted() && |parent| == x.count
    && forall i :: 0 <= i < x.count ==> parent[i] == x.RootOf(i)
  }

  /** The shipped areas' bits after the first k links. */
  ghost predicate LinkedUpTo(x: Areas, links: seq<Link>, was: seq<bool>, a: nat, k: nat, bits: seq<bool>) {
    && x.Valid() && x.Rooted() && k <= |links| && |was| == x.old_count <= |bits| && InRange(x, links[..k])
    && forall b :: 0 <= b < x.old_count ==> bits[b] == Sees(x, links[..k], was, a, b)
  }

  lemma LinkOneMore(x: Areas, links: seq<Link>, was: seq<bool>, a: nat, k: nat, bits: seq<bool>, bits': seq<bool>)
    requires LinkedUpTo(x, links, was, a, k, bits) && k < |links| && |bits'| == |bits|
    requires links[k].start < x.count && links[k].end < x.count
    requires forall b :: 0 <= b < x.old_count ==>
      bits'[b] == (bits[b] || (x.RootOf(links[k].start) == a && x.RootOf(links[k].end) == b)
                           || (x.RootOf(links[k].end) == a && x.RootOf(links[k].start) == b))
    ensures LinkedUpTo(x, links, was, a, k + 1, bits')
  {
    assert links[..k + 1] == links[..k] + [links[k]];
    forall b: nat | b < x.old_count
      ensures Joined(x, links[..k + 1], a, b) <==>
              (Joined(x, links[..k], a, b) || (x.RootOf(links[k].start) == a && x.RootOf(links[k].end) == b)
                                           || (x.RootOf(links[k].end) == a && x.RootOf(links[k].start) == b))
    {
    }
  }

  /** Mark one link's ends; a bit above the shipped areas does not matter yet. */
  method MarkLink(x: Areas, parent: seq<nat>, l: Link, a: nat, visible: array<bool>)
    requires ParentsOf(x, parent) && visible.Length == x.count && l.start < x.count && l.end < x.count
    modifies visible
    ensures forall b :: 0 <= b < x.old_count ==>
      visible[b] == (old(visible[b]) || (x.RootOf(l.start) == a && x.RootOf(l.end) == b)
                                     || (x.RootOf(l.end) == a && x.RootOf(l.start) == b))
  {
    if parent[l.start] == a {
      visible[l.end] := true;
      visible[parent[l.end]] := true;
    }
    if parent[l.end] == a {
      visible[l.start] := true;
      visible[parent[l.start]] := true;
    }
  }

  /** The middle of the row loop: from the decoded bits to the lifted row. */
  method LiftRow(x: Areas, parent: seq<nat>, links: seq<Link>, a: nat, visible: array<bool>, ghost was: seq<bool>)
    returns (ok: bool)
    requires ParentsOf(x, parent) && a < x.old_count && visible.Length == x.count
    requires |was| == x.old_count && visible[..x.old_count] == was
    modifies visible
    ensures ok <==> InRange(x, links)
    ensures ok ==> visible[..] == Lifted(x, links, was, a)
  {
    if a > 0 {
      visible[a] := true;
    }
    assert links[..0] == [];
    assert forall b :: 0 <= b < x.old_count ==> visible[b] == (was[b] || (b == a && a > 0));
    assert LinkedUpTo(x, links, was, a, 0, visible[..]);
    hide LinkedUpTo;
    var k := 0;
    while k < |links|
      invariant 0 <= k <= |links| && LinkedUpTo(x, links, was, a, k, visible[..])
    {
      if links[k].start >= x.count || links[k].end >= x.count {
        assert links[k] in links;
        return false;
      }
      ghost var before := visible[..];
      MarkLink(x, parent, links[k], a, visible);
      LinkOneMore(x, links, was, a, k, before, visible[..]);
      k := k + 1;
    }
    assert links[..k] == links;
    ghost var linked := visible[..];
    AllLinked(x, links, was, a, linked);
    var j := x.old_count;
    while j < x.count
      invariant x.old_count <= j <= x.count
      invariant forall p :: 0 <= p < x.old_count ==> visible[p] == linked[p]
      invariant forall p :: x.old_count <= p < j ==> visible[p] == linked[x.RootOf(p)]
    {
      visible[j] := visible[parent[j]];
      j := j + 1;
    }
    ok := true;
  }

  lemma AllLinked(x: Areas, links: seq<Link>, was: seq<bool>, a: nat, bits: seq<bool>)
    requires LinkedUpTo(x, links, was, a, |links|, bits)
    ensures x.Valid() && x.Rooted() && InRange(x, links) && |was| == x.old_count <= |bits|
    ensures forall p :: 0 <= p < x.count ==> bits[x.RootOf(p)] == Lifted(x, links, was, a)[p]
  {
    assert links[..|links|] == links;
  }

  // ---- the table ----

  /** What was decoded of the old row of each shipped area. */
  ghost predicate OldRows(x: Areas, bytes: seq<int>, offsets: seq<nat>, was: seq<seq<bool>>) {
    && x.old_count <= |offsets| && |was| <= x.old_count
    && forall a :: 0 <= a < |was| ==> Decode(bytes, offsets[a], x.old_count) == Some(was[a])
  }

  /** Each row lies in the bytes where its offset says, the next one right
      behind it. */
  ghost predicate Layout(expected: seq<seq<int>>, tail: seq<int>, rows: seq<nat>) {
    && |rows| == |expected|
    && (forall a :: 0 <= a < |rows| ==> LiesAt(tail, rows[a], expected[a]))
    && forall a :: 0 <= a < |rows| ==> EndsAt(expected, tail, rows, a)
  }

  predicate EndsAt(expected: seq<seq<int>>, tail: seq<int>, rows: seq<nat>, a: nat)
    requires a < |rows| == |expected|
  {
    rows[a] + |expected[a]| == if a + 1 < |rows| then rows[a + 1] else |tail|
  }

  lemma LayOut(expected: seq<seq<int>>, tail: seq<int>, rows: seq<nat>, row: seq<int>)
    requires Layout(expected, tail, rows) && (rows == [] ==> tail == [])
    ensures Layout(expected + [row], tail + row, rows + [|tail|])
  {
    var n, tail', rows', expected' := |rows|, tail + row, rows + [|tail|], expected + [row];
    forall a | 0 <= a <= n ensures LiesAt(tail', rows'[a], expected'[a]) {
      if a < n {
        assert LiesAt(tail, rows[a], expected[a]);
        assert tail'[rows[a]..rows[a] + |expected[a]|] == tail[rows[a]..rows[a] + |expected[a]|];
      }
    }
    forall a | 0 <= a <= n ensures EndsAt(expected', tail', rows', a) {
      if a < n {
        assert EndsAt(expected, tail, rows, a);
      }
    }
  }

  /** The rows of the shipped areas, lifted. */
  ghost predicate ShippedRows(x: Areas, links: seq<Link>, was: seq<seq<bool>>, expected: seq<seq<int>>) {
    && x.Valid() && x.Rooted() && InRange(x, links) && |was| == |expected| <= x.old_count
    && forall a :: 0 <= a < |was| ==> |was[a]| == x.old_count && expected[a] == Encode(Lifted(x, links, was[a], a))
  }

  /** The obstacle visibility lump and every area's offset into it. */
  class PvsTable {
    const room: nat
    var bytes: seq<int>
    var offsets: seq<nat>

    constructor (bytes: seq<int>, offsets: seq<nat>, room: nat)
      ensures this.bytes == bytes && this.offsets == offsets && this.room == room
    {
      this.bytes, this.offsets, this.room := bytes, offsets, room;
    }

    method Append(more: seq<int>) returns (ok: bool)
      modifies this`bytes
      ensures ok == (|old(bytes)| + |more| <= room)
      ensures bytes == if ok then old(bytes) + more else old(bytes)
    {
      ok := |bytes| + |more| <= room;
      if ok {
        bytes := bytes + more;
      }
    }
  }

  /** One shipped area: decode, lift, encode, append. */
  method ExtendRow(m: PvsTable, x: Areas, parent: seq<nat>, links: seq<Link>, a: nat, original: seq<int>, at: nat,
                   visible: array<bool>, encoded: array<int>)
    returns (ok: bool, ghost was: seq<bool>)
    requires ParentsOf(x, parent) && a < x.old_count && visible.Length == x.count
    requires encoded.Length == (x.count + 6) / 7 + 2
    modifies m`bytes, visible, encoded
    ensures ok ==> InRange(x, links) && Decode(original, at, x.old_count) == Some(was) && |was| == x.old_count
    ensures ok ==> m.bytes == old(m.bytes) + Encode(Lifted(x, links, was, a))
    ensures !ok ==> m.bytes == old(m.bytes)
    ensures !ok ==> Decode(original, at, x.old_count).None? || !InRange(x, links)
                    || |m.bytes| + (x.count + 6) / 7 > m.room
  {
    was := [];
    ok := DecodeRow(original, at, x.old_count, visible);
    if !ok {
      return;
    }
    was := Decode(original, at, x.old_count).value;
    ok := LiftRow(x, parent, links, a, visible, was);
    if !ok {
      return;
    }
    var used := EncodeRow(visible, x.count, encoded);
    assert visible[..x.count] == visible[..];
    ok := m.Append(encoded[..used]);
  }

  /** Why the table cannot be extended. */
  ghost predicate Fails(x: Areas, links: seq<Link>, bytes: seq<int>, offsets: seq<nat>, room: nat)
    requires x.Valid() && x.old_count <= |offsets|
  {
    || !x.Rooted() || !InRange(x, links)
    || (exists a :: 0 <= a < x.old_count && Decode(bytes, offsets[a], x.old_count).None?)
    || |bytes| + x.count * ((x.count + 6) / 7) > room
  }

  lemma RoomFor(rows: nat, count: nat, size: nat)
    requires rows < count
    ensures rows * size + size == (rows + 1) * size <= count * size
  {
    TimesGrows(rows + 1, count, size);
  }

  lemma {:induction false} TimesGrows(a: nat, b: nat, size: nat)
    requires a <= b
    ensures a * size <= b * size
  {
    if a < b {
      TimesGrows(a, b - 1, size);
      assert b * size == (b - 1) * size + size;
    }
  }

  /** The rows of the shipped areas. */
  method ExtendShipped(m: PvsTable, x: Areas, parent: seq<nat>, links: seq<Link>)
    returns (rows: seq<nat>, ok: bool, ghost was: seq<seq<bool>>, ghost expected: seq<seq<int>>, ghost tail: seq<int>)
    requires ParentsOf(x, parent) && x.old_count <= |m.offsets|
    modifies m`bytes
    ensures m.bytes == old(m.bytes) + tail
    ensures ok ==> |was| == x.old_count && OldRows(x, old(m.bytes), m.offsets, was)
    ensures ok ==> ShippedRows(x, links, was, expected) && Layout(expected, tail, rows)
    ensures ok ==> |tail| <= x.old_count * ((x.count + 6) / 7) && AreBytes(tail)
    ensures !ok ==> Fails(x, links, old(m.bytes), m.offsets, m.room)
  {
    hide *;
    var original := m.bytes;
    var visible := new bool[x.count];
    var encoded := new int[(x.count + 6) / 7 + 2];
    rows, ok, was, expected, tail := [], true, [], [], [];
    ghost var size := (x.count + 6) / 7;
    NoRows(x, original, m.offsets);
    NoBytes();
    SomeShipped(x, parent);
    while |rows| < x.old_count
      invariant |rows| == |was| == |expected| <= x.old_count && m.bytes == original + tail
      invariant OldRows(x, original, m.offsets, was) && (rows == [] ==> tail == [])
      invariant rows != [] ==> ShippedRows(x, links, was, expected)
      invariant Layout(expected, tail, rows) && |tail| <= |rows| * size && AreBytes(tail)
    {
      var a := |rows|;
      var at := |m.bytes| - |original|;
      SizesFit(x, parent, a, size);
      ghost var row;
      ok, row := ExtendRow(m, x, parent, links, a, original, m.offsets[a], visible, encoded);
      if !ok {
        FailsHere(x, links, original, m.offsets, m.room, a, |m.bytes|);
        return;
      }
      OneMoreRow(x, parent, links, original, m.offsets, was, expected, row);
      LayOut(expected, tail, rows, Encode(Lifted(x, links, row, a)));
      MoreBytes(tail, Lifted(x, links, row, a));
      was, expected := was + [row], expected + [Encode(Lifted(x, links, row, a))];
      tail := tail + Encode(Lifted(x, links, row, a));
      rows := rows + [at];
    }
  }

  lemma NoBytes()
    ensures AreBytes([])
  {
  }

  lemma MoreBytes(tail: seq<int>, v: seq<bool>)
    requires AreBytes(tail)
    ensures AreBytes(tail + Encode(v))
  {
    hide Encode;
  }

  lemma BytesAgain(original: seq<int>, tail: seq<int>, from: nat, to: nat)
    requires AreBytes(tail) && from <= to <= |tail|
    ensures (original + tail)[|original| + from..|original| + to] == tail[from..to]
    ensures original + tail + tail[from..to] == original + (tail + tail[from..to])
    ensures AreBytes(tail + tail[from..to])
  {
  }

  lemma SomeShipped(x: Areas, parent: seq<nat>)
    requires ParentsOf(x, parent)
    ensures 0 < x.old_count
  {
  }

  lemma NoRows(x: Areas, bytes: seq<int>, offsets: seq<nat>)
    requires x.old_count <= |offsets|
    ensures OldRows(x, bytes, offsets, []) && Layout([], [], [])
  {
  }

  lemma SizesFit(x: Areas, parent: seq<nat>, a: nat, size: nat)
    requires ParentsOf(x, parent) && a < x.old_count
    ensures x.Valid() && 0 < x.old_count <= x.count
    ensures a * size + size == (a + 1) * size <= x.count * size
  {
    RoomFor(a, x.count, size);
  }

  lemma FailsHere(x: Areas, links: seq<Link>, bytes: seq<int>, offsets: seq<nat>, room: nat, a: nat, used: nat)
    requires x.Valid() && a < x.old_count <= |offsets|
    requires Decode(bytes, offsets[a], x.old_count).None? || !InRange(x, links) || used + (x.count + 6) / 7 > room
    requires used <= |bytes| + a * ((x.count + 6) / 7)
    ensures Fails(x, links, bytes, offsets, room)
  {
    RoomFor(a, x.count, (x.count + 6) / 7);
  }

  lemma OneMoreRow(x: Areas, parent: seq<nat>, links: seq<Link>, bytes: seq<int>, offsets: seq<nat>,
                   was: seq<seq<bool>>, expected: seq<seq<int>>, row: seq<bool>)
    requires ParentsOf(x, parent) && InRange(x, links) && |was| == |expected| < x.old_count <= |offsets|
    requires OldRows(x, bytes, offsets, was) && (was != [] ==> ShippedRows(x, links, was, expected))
    requires Decode(bytes, offsets[|was|], x.old_count) == Some(row) && |row| == x.old_count
    ensures x.Valid() && x.Rooted() && forall l :: l in links ==> l.start < x.count && l.end < x.count
    ensures OldRows(x, bytes, offsets, was + [row])
    ensures ShippedRows(x, links, was + [row], expected + [Encode(Lifted(x, links, row, |was|))])
    ensures |Encode(Lifted(x, links, row, |was|))| <= (x.count + 6) / 7
  {
    hide Lifted, Encode, Decode;
  }

  /** Every area's expected bytes are its root's. */
  ghost predicate RootRows(x: Areas, expected: seq<seq<int>>) {
    && x.Valid() && x.Rooted() && x.old_count <= |expected| <= x.count
    && forall a :: 0 <= a < |expected| ==> expected[a] == expected[x.RootOf(a)]
  }

  /** A copy of the root's row for every new area. */
  method CopyRows(m: PvsTable, x: Areas, parent: seq<nat>, shipped: seq<nat>, base: nat,
                  ghost original: seq<int>, ghost shippedRows: seq<seq<int>>, ghost tail0: seq<int>)
    returns (rows: seq<nat>, ok: bool, ghost expected: seq<seq<int>>, ghost tail: seq<int>)
    requires ParentsOf(x, parent) && |shippedRows| == x.old_count && Layout(shippedRows, tail0, shipped)
    requires forall a :: 0 <= a < x.old_count ==> |shippedRows[a]| <= (x.count + 6) / 7
    requires base == |original| && m.bytes == original + tail0 && |tail0| <= x.old_count * ((x.count + 6) / 7)
    requires AreBytes(tail0)
    modifies m`bytes
    ensures m.bytes == original + tail && AreBytes(tail)
    ensures ok ==> |rows| == x.count && Layout(expected, tail, rows) && RootRows(x, expected) && shippedRows <= expected
    ensures !ok ==> |original| + x.count * ((x.count + 6) / 7) > m.room
  {
    hide *;
    rows, ok, expected, tail := shipped, true, shippedRows, tail0;
    var first := |m.bytes| - base;
    CopiesStart(x, parent, shippedRows, shipped, tail0);
    while |rows| < x.count
      invariant |rows| == |expected| && m.bytes == original + tail && AreBytes(tail)
      invariant Copying(x, parent, shippedRows, tail0, shipped, expected, tail, rows)
      decreases x.count - |rows|
    {
      CopyNext(x, parent, shippedRows, tail0, shipped, expected, tail, rows);
      var root := parent[|rows|];
      var end := if root + 1 < x.old_count then rows[root + 1] else first;
      BytesAgain(original, tail, rows[root], end);
      var row := m.bytes[base + rows[root]..base + end];
      var at := |m.bytes| - base;
      ok := m.Append(row);
      if !ok {
        return;
      }
      rows, expected, tail := rows + [at], expected + [row], tail + row;
    }
    CopiesEnd(x, parent, shippedRows, tail0, shipped, expected, tail, rows);
  }

  ghost predicate Copying(x: Areas, parent: seq<nat>, shippedRows: seq<seq<int>>, tail0: seq<int>, shipped: seq<nat>,
                          expected: seq<seq<int>>, tail: seq<int>, rows: seq<nat>) {
    && ParentsOf(x, parent) && |shippedRows| == x.old_count && Layout(shippedRows, tail0, shipped)
    && Layout(expected, tail, rows) && x.old_count <= |rows| <= x.count
    && shipped <= rows && shippedRows <= expected && tail0 <= tail && RootRows(x, expected)
    && (forall a :: 0 <= a < x.old_count ==> |shippedRows[a]| <= (x.count + 6) / 7)
    && |tail| <= |rows| * ((x.count + 6) / 7)
  }

  lemma CopiesEnd(x: Areas, parent: seq<nat>, shippedRows: seq<seq<int>>, tail0: seq<int>, shipped: seq<nat>,
                  expected: seq<seq<int>>, tail: seq<int>, rows: seq<nat>)
    requires Copying(x, parent, shippedRows, tail0, shipped, expected, tail, rows)
    ensures |rows| <= x.count && Layout(expected, tail, rows) && RootRows(x, expected) && shippedRows <= expected
  {
  }

  lemma CopiesStart(x: Areas, parent: seq<nat>, shippedRows: seq<seq<int>>, shipped: seq<nat>, tail0: seq<int>)
    requires ParentsOf(x, parent) && |shippedRows| == x.old_count && Layout(shippedRows, tail0, shipped)
    requires forall a :: 0 <= a < x.old_count ==> |shippedRows[a]| <= (x.count + 6) / 7
    requires |tail0| <= x.old_count * ((x.count + 6) / 7)
    ensures |shipped| == |shippedRows|
    ensures Copying(x, parent, shippedRows, tail0, shipped, shippedRows, tail0, shipped)
  {
    hide LiesAt;
  }

  /** Between two offsets lies exactly the root's row; what a copy of it adds. */
  lemma CopyNext(x: Areas, parent: seq<nat>, shippedRows: seq<seq<int>>, tail0: seq<int>, shipped: seq<nat>,
                 expected: seq<seq<int>>, tail: seq<int>, rows: seq<nat>)
    requires Copying(x, parent, shippedRows, tail0, shipped, expected, tail, rows) && |rows| < x.count
    ensures |rows| < |parent|
    ensures var root := parent[|rows|];
            && root < x.old_count <= |rows|
            && var end := if root + 1 < x.old_count then rows[root + 1] else |tail0|;
            && rows[root] <= end <= |tail|
            && Copying(x, parent, shippedRows, tail0, shipped, expected + [tail[rows[root]..end]],
                       tail + tail[rows[root]..end], rows + [|tail|])
            && |tail| + (end - rows[root]) <= x.count * ((x.count + 6) / 7)
  {
    var size := (x.count + 6) / 7;
    RootRow(x, parent, shippedRows, tail0, shipped, expected, tail, rows, size);
    hide LiesAt, EndsAt, Layout, ParentsOf, RootRows;
    var root := parent[|rows|];
    LayOut(expected, tail, rows, expected[root]);
    CopyIsRoots(x, parent, expected, expected[root]);
  }

  /** Between two offsets lies exactly the root's row. */
  lemma RootRow(x: Areas, parent: seq<nat>, shippedRows: seq<seq<int>>, tail0: seq<int>, shipped: seq<nat>,
                expected: seq<seq<int>>, tail: seq<int>, rows: seq<nat>, size: nat)
    requires ParentsOf(x, parent) && |shippedRows| == x.old_count && Layout(shippedRows, tail0, shipped)
    requires Layout(expected, tail, rows) && x.old_count <= |rows| < x.count
    requires shipped <= rows && shippedRows <= expected && tail0 <= tail
    requires forall a :: 0 <= a < x.old_count ==> |shippedRows[a]| <= size
    ensures |parent| == x.count
    ensures var root := parent[|rows|];
            var end := if root + 1 < x.old_count then rows[root + 1] else |tail0|;
            && root < x.old_count && rows[root] <= end <= |tail| && tail[rows[root]..end] == expected[root]
            && |expected[root]| <= size
    ensures |rows| * size + size == (|rows| + 1) * size <= x.count * size
  {
    var root := parent[|rows|];
    assert shippedRows[root] == expected[root] && shipped[root] == rows[root];
    assert EndsAt(shippedRows, tail0, shipped, root);
    assert LiesAt(tail, rows[root], expected[root]);
    RoomFor(|rows|, x.count, size);
  }

  lemma CopyIsRoots(x: Areas, parent: seq<nat>, expected: seq<seq<int>>, row: seq<int>)
    requires ParentsOf(x, parent) && RootRows(x, expected) && |expected| < x.count
    requires row == expected[parent[|expected|]]
    ensures RootRows(x, expected + [row])
  {
  }

  /** What the rewritten table decodes to: every area's row, over all areas, is
      the lifted row of its root. */
  ghost predicate Extended(x: Areas, links: seq<Link>, was: seq<seq<bool>>, bytes: seq<int>, offsets: seq<nat>) {
    && x.Valid() && x.Rooted() && InRange(x, links) && |was| == x.old_count && |offsets| == x.count
    && forall a :: 0 <= a < x.count ==>
         && |was[x.RootOf(a)]| == x.old_count
         && Decode(bytes, offsets[a], x.count) == Some(Lifted(x, links, was[x.RootOf(a)], x.RootOf(a)))
  }

  /** Decoding at an area's offset gives its lifted row. */
  lemma RowsDecode(x: Areas, links: seq<Link>, was: seq<seq<bool>>, shippedRows: seq<seq<int>>,
                   expected: seq<seq<int>>, tail: seq<int>, rows: seq<nat>)
    requires ShippedRows(x, links, was, shippedRows) && |was| == x.old_count && shippedRows <= expected
    requires RootRows(x, expected) && |expected| == x.count && Layout(expected, tail, rows)
    ensures Extended(x, links, was, tail, rows)
  {
    forall a: nat | a < x.count
      ensures |was[x.RootOf(a)]| == x.old_count
      ensures Decode(tail, rows[a], x.count) == Some(Lifted(x, links, was[x.RootOf(a)], x.RootOf(a)))
    {
      var root := x.RootOf(a);
      assert expected[a] == expected[root] == shippedRows[root] == Encode(Lifted(x, links, was[root], root));
      assert LiesAt(tail, rows[a], expected[a]);
      DecodeEncoded(tail, rows[a], Lifted(x, links, was[root], root));
    }
  }

  lemma ShippedRowSizes(x: Areas, links: seq<Link>, was: seq<seq<bool>>, expected: seq<seq<int>>)
    requires ShippedRows(x, links, was, expected)
    ensures |expected| == |was|
    ensures forall a :: 0 <= a < |expected| ==> |expected[a]| <= (x.count + 6) / 7
  {
    hide Lifted, Encode;
  }

  lemma Unrooted(x: Areas, links: seq<Link>, bytes: seq<int>, offsets: seq<nat>, room: nat)
    requires x.Valid() && x.old_count <= |offsets| && (!x.Rooted() || |bytes| + x.count * ((x.count + 6) / 7) > room)
    ensures Fails(x, links, bytes, offsets, room)
  {
  }

  lemma LaidOut(expected: seq<seq<int>>, tail: seq<int>, rows: seq<nat>)
    requires Layout(expected, tail, rows)
    ensures |rows| == |expected|
  {
  }

  lemma AreParents(x: Areas, parent: seq<nat>)
    requires x.Valid() && x.Rooted() && |parent| == x.count && forall i :: 0 <= i < x.count ==> parent[i] == x.RootOf(i)
    ensures ParentsOf(x, parent) && x.old_count <= x.count
  {
  }
}
