/**
 Routes and traversal points through the floor cut and the emission
 (src/backend/aas_augment.c:3798-3819, 3902-3943, 3441-3466): records move, are
 dropped and renumbered, and every point still names its own record.
 */
module FloorRoutes {
  import opened TravPoints

  /** A reachability record; rest stands for its other fields. */
  datatype Record = Record(start: nat, end: nat, rest: int) {
    function Link(): Link {
      TravPoints.Link.Link(start, end)
    }
  }

  function Links(records: seq<Record>): (r: seq<Link>)
    ensures |r| == |records| && forall i :: 0 <= i < |r| ==> r[i] == records[i].Link()
  {
    seq(|records|, i requires 0 <= i < |records| => records[i].Link())
  }

  /** group: the areas that were cut. piece: where one end of a record lies, 0
      for on no piece. */
  datatype Cut = Cut(group: set<nat>, piece: (Record, bool) -> nat) {

    function MoveEnd(r: Record, atEnd: bool): Record {
      var area := if atEnd then r.end else r.start;
      if area in group && piece(r, atEnd) != 0 then
        if atEnd then r.(end := piece(r, atEnd)) else r.(start := piece(r, atEnd))
      else r
    }

    /** The record's ends on their pieces. */
    function Moved(r: Record): Record {
      MoveEnd(MoveEnd(r, false), true)
    }

    /** One end was on a cut area and lies on no piece. */
    predicate Lost(r: Record) {
      || (r.start in group && piece(r, false) == 0)
      || (MoveEnd(r, false).end in group && piece(MoveEnd(r, false), true) == 0)
    }
  }

  /** A point behind the dummy names record i. */
  ghost predicate Named(points: seq<TravPoint>, i: nat) {
    exists k :: 1 <= k < |points| && points[k].d28 == i
  }

  /** All records with their ends on their pieces. */
  function MovedAll(cut: Cut, records: seq<Record>): (r: seq<Record>)
    ensures |r| == |records| && forall i :: 0 <= i < |r| ==> r[i] == cut.Moved(records[i])
  {
    seq(|records|, i requires 0 <= i < |records| => cut.Moved(records[i]))
  }

  /** The records among the first n that stay. */
  function Staying(records: seq<Record>, drop: seq<bool>, n: nat): (r: seq<Record>)
    requires n <= |records| && n <= |drop|
    ensures |r| <= n
  {
    if n == 0 then []
    else Staying(records, drop, n - 1) + if drop[n - 1] then [] else [records[n - 1]]
  }

  lemma NoneStays(records: seq<Record>, drop: seq<bool>)
    ensures Staying(records, drop, 0) == []
  {
  }

  lemma StayingNext(records: seq<Record>, drop: seq<bool>, n: nat)
    requires n < |records| && n < |drop|
    ensures Staying(records, drop, n + 1) == Staying(records, drop, n) + if drop[n] then [] else [records[n]]
  {
  }

  lemma WrittenBehind(now: seq<Record>, next: seq<Record>, w: nat, r: Record)
    requires w < |now| && next == now[w := r]
    ensures next[..w + 1] == now[..w] + [r]
  {
  }

  /** Where a record that stays is found. */
  lemma {:induction false} StaysAt(records: seq<Record>, drop: seq<bool>, i: nat, n: nat)
    requires i < n <= |records| && n <= |drop| && !drop[i]
    ensures |Staying(records, drop, i)| < |Staying(records, drop, n)|
    ensures Staying(records, drop, n)[|Staying(records, drop, i)|] == records[i]
  {
    if n > i + 1 {
      StaysAt(records, drop, i, n - 1);
    }
  }

  /** The areas that some point names stay whole. */
  method Blocked(points: seq<TravPoint>) returns (blocked: set<nat>)
    ensures forall a :: a in blocked <==> exists k :: 1 <= k < |points| && (points[k].start == a || points[k].end == a)
  {
    blocked := {};
    var i := 1;
    while i < |points|
      invariant 1 <= i && (|points| > 0 ==> i <= |points|)
      invariant forall k :: 1 <= k < i && k < |points| ==> points[k].start in blocked && points[k].end in blocked
      invariant forall a :: a in blocked ==> exists k :: 1 <= k < |points| && (points[k].start == a || points[k].end == a)
    {
      blocked := blocked + {points[i].start, points[i].end};
      i := i + 1;
    }
  }

  class Lumps {
    var records: seq<Record>
    var points: seq<TravPoint>

    constructor (records: seq<Record>, points: seq<TravPoint>)
      ensures this.records == records && this.points == points
    {
      this.records, this.points := records, points;
    }

    /** Put every record's ends on their pieces; drop tells those with a lost end. */
    method MoveAll(cut: Cut) returns (drop: seq<bool>)
      modifies this`records
      ensures |drop| == |records| == |old(records)|
      ensures forall i :: 0 <= i < |records| ==> records[i] == cut.Moved(old(records)[i])
      ensures forall i :: 0 <= i < |records| ==> drop[i] == cut.Lost(old(records)[i])
    {
      drop := [];
      while |drop| < |records|
        invariant |drop| <= |records| == |old(records)|
        invariant forall i :: 0 <= i < |drop| ==> records[i] == cut.Moved(old(records)[i]) && drop[i] == cut.Lost(old(records)[i])
        invariant forall i :: |drop| <= i < |records| ==> records[i] == old(records)[i]
      {
        var i := |drop|;
        var r := records[i];
        var lost := false;
        if r.start in cut.group {
          if cut.piece(r, false) != 0 {
            r := r.(start := cut.piece(r, false));
          } else {
            lost := true;
          }
        }
        if r.end in cut.group {
          if cut.piece(r, true) != 0 {
            r := r.(end := cut.piece(r, true));
          } else {
            lost := true;
          }
        }
        records := records[i := r];
        drop := drop + [lost];
      }
    }

    /** A record that a point names is not dropped. */
    method KeepNamed(drop0: seq<bool>) returns (drop: seq<bool>)
      requires |drop0| == |records|
      ensures |drop| == |drop0|
      ensures forall i :: 0 <= i < |drop| ==> (drop[i] <==> drop0[i] && !Named(points, i))
    {
      drop := drop0;
      var k := 1;
      while k < |points|
        invariant 1 <= k && (|points| > 0 ==> k <= |points|) && |drop| == |drop0|
        invariant forall i :: 0 <= i < |drop| ==>
          (drop[i] <==> drop0[i] && forall j :: 1 <= j < k && j < |points| ==> points[j].d28 != i)
      {
        if points[k].d28 < |drop| {
          drop := drop[points[k].d28 := false];
        }
        k := k + 1;
      }
    }

    /** Close the gaps; remap tells each record's new number. */
    method Compact(drop: seq<bool>) returns (remap: seq<nat>)
      requires |drop| == |records|
      modifies this`records
      ensures records == Staying(old(records), drop, |drop|)
      ensures |remap| == |drop| && forall i :: 0 <= i < |remap| ==> remap[i] == |Staying(old(records), drop, i)|
    {
      hide Staying;
      ghost var before := records;
      NoneStays(before, drop);
      remap := [];
      var w := 0;
      while |remap| < |records|
        invariant 0 <= w <= |remap| <= |records| == |before|
        invariant w == |Staying(before, drop, |remap|)| && records[..w] == Staying(before, drop, |remap|)
        invariant forall i :: 0 <= i < |remap| ==> remap[i] == |Staying(before, drop, i)|
        invariant forall i :: |remap| <= i < |records| ==> records[i] == before[i]
      {
        var i := |remap|;
        StayingNext(before, drop, i);
        remap := remap + [w];
        if !drop[i] {
          ghost var now := records;
          if w != i {
            records := records[w := records[i]];
          }
          WrittenBehind(now, records, w, before[i]);
          w := w + 1;
        }
      }
      records := records[..w];
    }

    method Renumber(remap: seq<nat>, count: nat)
      requires |remap| == count
      modifies this`points
      ensures |points| == |old(points)|
      ensures forall k :: 0 <= k < |points| ==> points[k] == Renumbered(old(points)[k], remap, k)
    {
      var k := 1;
      while k < |points|
        invariant 1 <= k && |points| == |old(points)|
        invariant forall j :: 0 <= j < |points| ==> points[j] == if j < k then Renumbered(old(points)[j], remap, j) else old(points)[j]
      {
        if points[k].d28 < count {
          points := points[k := points[k].(d28 := remap[points[k].d28])];
        }
        k := k + 1;
      }
    }

    /** The end of aug_cut_floors: if every point named its own record, every
        point still does. chosen are the areas the geometry would cut. */
    method CutRoutes(chosen: set<nat>, piece: (Record, bool) -> nat) returns (ghost cut: Cut, ghost drop: seq<bool>)
      modifies this
      ensures |drop| == |old(records)| && records == Staying(MovedAll(cut, old(records)), drop, |drop|)
      ensures forall i :: 0 <= i < |drop| ==> (drop[i] <==> cut.Lost(old(records)[i]) && !Named(old(points), i))
      ensures cut.piece == piece
      ensures forall a :: a in cut.group <==>
        a in chosen && !exists k :: 1 <= k < |old(points)| && (old(points)[k].start == a || old(points)[k].end == a)
      ensures |points| == |old(points)|
      ensures NamesOwn(old(points), Links(old(records))) ==> NamesOwn(points, Links(records))
      ensures forall k :: 0 <= k < |points| ==> points[k].start == old(points)[k].start && points[k].end == old(points)[k].end
    {
      var blocked := Blocked(points);
      var c := Cut(chosen - blocked, piece);
      ghost var before := records;
      var lost := MoveAll(c);
      var gone := KeepNamed(lost);
      var count := |records|;
      assert records == MovedAll(c, before);
      var remap := Compact(gone);
      if |records| != count {
        Renumber(remap, count);
      } else {
        NoneGone(MovedAll(c, before), gone, remap);
      }
      cut, drop := c, gone;
      if NamesOwn(old(points), Links(before)) {
        CutKeepsNames(c, before, gone, old(points), points, remap);
      }
    }

    /** The budget's compaction: the first `original` records stand, of the
        others those that are kept move down behind them. */
    method CompactBehind(original: nat, keep: seq<bool>)
      requires original + |keep| == |records|
      modifies this`records
      ensures old(records)[..original] <= records
      ensures records == Staying(old(records), DropOf(original, keep), |old(records)|)
    {
      var _ := Compact(DropOf(original, keep));
      FrontStays(old(records), DropOf(original, keep), original, |old(records)|);
    }

    /**
     * From the shipped points to the last ones: the floors are cut, the generated walks are appended and thinned by
     * the budget, the chosen routes are emitted until one does not fit, and the points are grouped. If every
     * shipped point named a record with its own two areas, every point does at the end, the emitted ones included.
     */
    method Augment(chosen: set<nat>, piece: (Record, bool) -> nat, walks: seq<Record>, keep: seq<bool>,
                   specs: seq<Spec>, recordRoom: nat, pointRoom: nat)
      returns (written: nat)
      requires |keep| == |walks|
      modifies this
      ensures NamesOwn(old(points), Links(old(records))) ==> NamesOwn(points, Links(records))
      ensures written <= |specs| && |points| == |old(points)| + written
      ensures written < |specs| ==> |records| >= recordRoom || |points| >= pointRoom
      ensures |old(points)| <= pointRoom ==> |points| <= pointRoom
      ensures |points| > 0 ==> Grouped(points[1..])
      ensures |old(points)| > 0 ==> forall k :: 0 <= k < written ==> Emitted(points, records, specs[k])
    {
      ghost var named := NamesOwn(points, Links(records));
      ghost var cut, drop := CutRoutes(chosen, piece);
      var original := |records|;
      ghost var cutRecords := records;
      records := records + walks;
      CompactBehind(original, keep);
      if named {
        assert (cutRecords + walks)[..original] == cutRecords;
        LongerLinks(cutRecords, records);
        PrefixKeepsNames(points, Links(cutRecords), Links(records));
      }
      hide *;
      written := EmitAll(specs, recordRoom, pointRoom);
      ghost var ungrouped := points;
      GroupPoints();
      forall k | 0 <= k < written && |old(points)| > 0
        ensures Emitted(points, records, specs[k])
      {
        StillEmitted(ungrouped, |old(points)| + k, records, specs[k]);
      }
    }

    /** Emits routes until one does not fit. */
    method EmitAll(specs: seq<Spec>, recordRoom: nat, pointRoom: nat) returns (written: nat)
      modifies this
      ensures NamesOwn(old(points), Links(old(records))) ==> NamesOwn(points, Links(records))
      ensures written <= |specs| && |points| == |old(points)| + written
      ensures written < |specs| ==> |records| >= recordRoom || |points| >= pointRoom
      ensures |old(points)| <= pointRoom ==> |points| <= pointRoom
      ensures forall k :: 0 <= k < written ==> EmittedAt(points, |old(points)| + k, records, specs[k])
    {
      hide NamesOwn, Links;
      written := 0;
      var ok := true;
      while written < |specs| && ok
        invariant 0 <= written <= |specs| && |points| == |old(points)| + written
        invariant NamesOwn(old(points), Links(old(records))) ==> NamesOwn(points, Links(records))
        invariant |old(points)| <= pointRoom ==> |points| <= pointRoom
        invariant forall k :: 0 <= k < written ==> EmittedAt(points, |old(points)| + k, records, specs[k])
        invariant !ok ==> |records| >= recordRoom || |points| >= pointRoom
        decreases |specs| - written, ok
      {
        ghost var points0, records0 := points, records;
        ok := EmitOne(specs[written].record, specs[written].rest, recordRoom, pointRoom);
        forall k | 0 <= k < written
          ensures EmittedAt(points, |old(points)| + k, records, specs[k])
        {
          assert EmittedAt(points0, |old(points)| + k, records0, specs[k]);
        }
        if ok {
          written := written + 1;
        }
      }
    }

    /** Groups the points behind the dummy by the area they leave. */
    method GroupPoints()
      modifies this`points
      ensures NamesOwn(old(points), Links(records)) ==> NamesOwn(points, Links(records))
      ensures |points| == |old(points)|
      ensures |points| > 0 ==> points == [old(points)[0]] + Group(old(points)[1..]) && Grouped(points[1..])
    {
      if points != [] {
        if NamesOwn(points, Links(records)) {
          RegroupKeepsNames(points, Links(records));
        }
        GroupFacts(points[1..], 0);
        points := [points[0]] + Group(points[1..]);
      }
    }

    /** Append one route and the point that names it. False when either does not
        fit; the route may then stand without a point. */
    method EmitOne(r: Record, rest: int, recordRoom: nat, pointRoom: nat) returns (ok: bool)
      modifies this
      ensures NamesOwn(old(points), Links(old(records))) ==> NamesOwn(points, Links(records))
      ensures old(records) <= records <= old(records) + [r]
      ensures points == if ok then old(points) + [TravPoint(|old(records)|, r.start, r.end, rest)] else old(points)
      ensures ok ==> records == old(records) + [r]
      ensures !ok ==> |old(records)| >= recordRoom || |old(points)| >= pointRoom
      ensures |old(records)| <= recordRoom ==> |records| <= recordRoom
      ensures |old(points)| <= pointRoom ==> |points| <= pointRoom
    {
      if |records| >= recordRoom {
        return false;
      }
      records := records + [r];
      if |points| >= pointRoom {
        return false;
      }
      points := points + [TravPoint(|records| - 1, r.start, r.end, rest)];
      ok := true;
    }
  }

  /** Point k is the spec's, and names a record that is the spec's. */
  ghost predicate EmittedAt(points: seq<TravPoint>, k: nat, records: seq<Record>, s: Spec) {
    && k < |points| && points[k].start == s.record.start && points[k].end == s.record.end && points[k].rest == s.rest
    && points[k].d28 < |records| && records[points[k].d28] == s.record
  }

  ghost predicate Emitted(points: seq<TravPoint>, records: seq<Record>, s: Spec) {
    exists k :: 1 <= k < |points| && EmittedAt(points, k, records, s)
  }

  lemma AmongGrouped(points: seq<TravPoint>, i: nat) returns (j: nat)
    requires i < |points|
    ensures j < |Group(points)| && Group(points)[j] == points[i]
  {
    GroupFacts(points, 0);
    hide Group;
    assert points[i] in multiset(points);
    j :| j < |Group(points)| && Group(points)[j] == points[i];
  }

  lemma StillEmitted(points: seq<TravPoint>, k: nat, records: seq<Record>, s: Spec)
    requires k >= 1 && EmittedAt(points, k, records, s)
    ensures Emitted([points[0]] + Group(points[1..]), records, s)
  {
    hide Group;
    var j := AmongGrouped(points[1..], k - 1);
    var all := [points[0]] + Group(points[1..]);
    assert all[j + 1] == points[1..][k - 1] == points[k];
    assert EmittedAt(all, j + 1, records, s);
  }

  /** Where the cut puts the ends of a record: each on its piece, the end with the start already moved. */
  lemma MovedMeans(cut: Cut, r: Record)
    ensures var start := if r.start in cut.group && cut.piece(r, false) != 0 then cut.piece(r, false) else r.start;
            var half := Record(start, r.end, r.rest);
            && cut.Moved(r) == Record(start, if r.end in cut.group && cut.piece(half, true) != 0 then cut.piece(half, true) else r.end, r.rest)
            && (cut.Lost(r) <==> (r.start in cut.group && cut.piece(r, false) == 0) || (r.end in cut.group && cut.piece(half, true) == 0))
  {
  }

  /** As many records stay as are not dropped. */
  lemma {:induction false} StayingCount(records: seq<Record>, drop: seq<bool>, n: nat)
    requires n <= |records| && n <= |drop|
    ensures |Staying(records, drop, n)| == |set i: nat | i < n && !drop[i]|
  {
    var kept := set i: nat | i < n && !drop[i];
    if n == 0 {
      assert kept == {};
    } else {
      StayingCount(records, drop, n - 1);
      assert kept == (set i: nat | i < n - 1 && !drop[i]) + if drop[n - 1] then {} else {n - 1};
    }
  }

  /** A route to emit: its record, and the rest of its point. */
  datatype Spec = Spec(record: Record, rest: int)

  /** The dummy keeps its number. */
  function Renumbered(p: TravPoint, remap: seq<nat>, k: nat): TravPoint {
    if k >= 1 && p.d28 < |remap| then p.(d28 := remap[p.d28]) else p
  }

  /** The records to drop when the first ones all stay. */
  function DropOf(original: nat, keep: seq<bool>): (drop: seq<bool>)
    ensures |drop| == original + |keep| && forall i :: 0 <= i < original ==> !drop[i]
    ensures forall i :: 0 <= i < |keep| ==> drop[original + i] == !keep[i]
  {
    seq(original, _ => false) + seq(|keep|, i requires 0 <= i < |keep| => !keep[i])
  }

  lemma LongerLinks(a: seq<Record>, b: seq<Record>)
    requires a <= b
    ensures Links(a) <= Links(b)
  {
  }

  lemma {:induction false} NoneGoneUpTo(records: seq<Record>, drop: seq<bool>, n: nat)
    requires n <= |records| == |drop| && |Staying(records, drop, |records|)| == |records|
    ensures |Staying(records, drop, n)| == n
    decreases |records| - n
  {
    if n < |records| {
      NoneGoneUpTo(records, drop, n + 1);
    }
  }

  /** When nothing was dropped the numbers need no change. */
  lemma NoneGone(records: seq<Record>, drop: seq<bool>, remap: seq<nat>)
    requires |records| == |drop| == |remap| && |Staying(records, drop, |records|)| == |records|
    requires forall i :: 0 <= i < |remap| ==> remap[i] == |Staying(records, drop, i)|
    ensures forall i :: 0 <= i < |remap| ==> remap[i] == i
  {
    forall i: nat | i < |remap| ensures remap[i] == i {
      NoneGoneUpTo(records, drop, i);
    }
  }

  /** Cutting the lists keeps every point naming a reachability with its own ends. */
  lemma CutKeepsNames(cut: Cut, records: seq<Record>, drop: seq<bool>, points: seq<TravPoint>, points': seq<TravPoint>,
                      remap: seq<nat>)
    requires |records| == |drop| == |remap| && |points'| == |points| && NamesOwn(points, Links(records))
    requires forall i :: 0 <= i < |remap| ==> remap[i] == |Staying(MovedAll(cut, records), drop, i)|
    requires forall k :: 1 <= k < |points| ==> points[k].start !in cut.group && points[k].end !in cut.group
    requires forall i :: 0 <= i < |drop| && Named(points, i) ==> !drop[i]
    requires forall k :: 0 <= k < |points| ==> points'[k] == Renumbered(points[k], remap, k)
    ensures NamesOwn(points', Links(Staying(MovedAll(cut, records), drop, |records|)))
  {
    var records' := Staying(MovedAll(cut, records), drop, |records|);
    forall k | 1 <= k < |points'|
      ensures points'[k].d28 < |records'| && Links(records')[points'[k].d28] == Link(points'[k].start, points'[k].end)
    {
      var i := points[k].d28;
      assert Named(points, i);
      assert Links(records)[i] == Link(points[k].start, points[k].end);
      StaysAt(MovedAll(cut, records), drop, i, |records|);
    }
  }

  /** The records in front that all stay are in front afterwards. */
  lemma {:induction false} FrontStays(records: seq<Record>, drop: seq<bool>, front: nat, n: nat)
    requires front <= n <= |records| && n <= |drop| && forall i :: 0 <= i < front ==> !drop[i]
    ensures records[..front] <= Staying(records, drop, n)
  {
    if n > front {
      FrontStays(records, drop, front, n - 1);
    } else if n > 0 {
      FrontStays(records, drop, n - 1, n - 1);
      assert records[..n] == records[..n - 1] + [records[n - 1]];
    }
  }
}
