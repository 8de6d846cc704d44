/**
 Grouping the traversal points by the area they leave, and every area's range of
 them (src/backend/aas_augment.c:3469-3528).
 */
module TravPoints {
  import opened Division

  /** d28 is the reachability the point belongs to; rest stands for the other
      fields. */
  datatype TravPoint = TravPoint(d28: nat, start: nat, end: nat, rest: int)

  /** Field width of an area's range. */
  const U16: nat := 65536

  // ---- grouping ----

  predicate Grouped(points: seq<TravPoint>) {
    forall i, k :: 0 <= i < k < |points| ==> points[i].start <= points[k].start
  }

  /** Insert a point behind all that leave the same or an earlier area. */
  function Insert(p: TravPoint, points: seq<TravPoint>): (r: seq<TravPoint>)
    ensures |r| == |points| + 1
  {
    if points == [] || points[|points| - 1].start <= p.start then points + [p]
    else Insert(p, points[..|points| - 1]) + [points[|points| - 1]]
  }

  function Group(points: seq<TravPoint>): (r: seq<TravPoint>)
    ensures |r| == |points|
  {
    if points == [] then []
    else Insert(points[|points| - 1], Group(points[..|points| - 1]))
  }

  /** The points that leave an area, in order. */
  function OwnedBy(points: seq<TravPoint>, a: nat): (r: seq<TravPoint>)
    ensures |r| <= |points|
    ensures forall p :: p in r <==> p in points && p.start == a
  {
    if points == [] then []
    else
      var last := points[|points| - 1];
      assert points == points[..|points| - 1] + [last];
      OwnedBy(points[..|points| - 1], a) + if last.start == a then [last] else []
  }

  lemma OwnedByOneMore(points: seq<TravPoint>, p: TravPoint, a: nat)
    ensures OwnedBy(points + [p], a) == OwnedBy(points, a) + if p.start == a then [p] else []
  {
    assert (points + [p])[..|points|] == points;
  }

  lemma {:induction false} InsertElements(p: TravPoint, points: seq<TravPoint>)
    ensures multiset(Insert(p, points)) == multiset(points) + multiset{p}
    ensures forall q :: q in Insert(p, points) <==> q == p || q in points
    decreases points
  {
    if points != [] && points[|points| - 1].start > p.start {
      InsertElements(p, points[..|points| - 1]);
      assert points == points[..|points| - 1] + [points[|points| - 1]];
    }
  }

  lemma {:induction false} InsertGrouped(p: TravPoint, points: seq<TravPoint>)
    requires Grouped(points)
    ensures Grouped(Insert(p, points))
    decreases points
  {
    if points != [] && points[|points| - 1].start > p.start {
      var rest, last := points[..|points| - 1], points[|points| - 1];
      InsertGrouped(p, rest);
      InsertElements(p, rest);
      var r := Insert(p, rest);
      forall i | 0 <= i < |r| ensures r[i].start <= last.start {
        assert r[i] in r;
      }
    }
  }

  lemma {:induction false} InsertOwned(p: TravPoint, points: seq<TravPoint>, a: nat)
    ensures OwnedBy(Insert(p, points), a) == OwnedBy(points, a) + if p.start == a then [p] else []
    decreases points
  {
    if points == [] || points[|points| - 1].start <= p.start {
      OwnedByOneMore(points, p, a);
    } else {
      var rest, last := points[..|points| - 1], points[|points| - 1];
      InsertOwned(p, rest, a);
      assert points == rest + [last] && Insert(p, points) == Insert(p, rest) + [last];
      hide OwnedBy, Insert;
      OwnedByOneMore(Insert(p, rest), last, a);
      OwnedByOneMore(rest, last, a);
      Swap(OwnedBy(rest, a), if p.start == a then [p] else [], if last.start == a then [last] else []);
    }
  }

  lemma Swap(front: seq<TravPoint>, p: seq<TravPoint>, q: seq<TravPoint>)
    requires p == [] || q == []
    ensures front + p + q == front + q + p
  {
    assert front + [] == front;
  }

  /** Grouping sorts by area, loses nothing, and keeps each area's points in
      their order. */
  lemma {:induction false} GroupFacts(points: seq<TravPoint>, a: nat)
    ensures Grouped(Group(points)) && multiset(Group(points)) == multiset(points)
    ensures OwnedBy(Group(points), a) == OwnedBy(points, a)
    decreases points
  {
    if points != [] {
      var rest, last := points[..|points| - 1], points[|points| - 1];
      assert points == rest + [last];
      GroupFacts(rest, a);
      InsertElements(last, Group(rest));
      InsertGrouped(last, Group(rest));
      InsertOwned(last, Group(rest), a);
      OwnedByOneMore(rest, last, a);
    }
  }

  // ---- ranges ----

  /** The first index from i on of a point that leaves the area. */
  function FirstOf(points: seq<TravPoint>, a: nat, i: nat): (k: nat)
    requires i <= |points|
    ensures i <= k <= |points| && (k < |points| ==> points[k].start == a)
    ensures forall j :: i <= j < k ==> points[j].start != a
    decreases |points| - i
  {
    if i == |points| || points[i].start == a then i else FirstOf(points, a, i + 1)
  }

  /** The area's points lie side by side, from its first one on. */
  ghost predicate IsRun(points: seq<TravPoint>, a: nat) {
    var lo, n := FirstOf(points, a, 0), |OwnedBy(points, a)|;
    (n > 0 ==> lo + n <= |points|) && forall k :: 0 <= k < |points| ==> (points[k].start == a <==> lo <= k < lo + n)
  }

  /** In a grouped list they do. */
  lemma {:induction false} OwnedIsRun(points: seq<TravPoint>, a: nat)
    requires Grouped(points)
    ensures IsRun(points, a)
    decreases points
  {
    if points != [] {
      var rest, last := points[..|points| - 1], points[|points| - 1];
      OwnedIsRun(rest, a);
      assert points == rest + [last];
      RunGrows(rest, last, a);
    }
  }

  /** A run of the area's points that the next point continues reaches the end. */
  lemma RunReachesEnd(rest: seq<TravPoint>, last: TravPoint, a: nat)
    requires Grouped(rest + [last]) && IsRun(rest, a) && last.start == a && FirstOf(rest, a, 0) < |rest|
    ensures FirstOf(rest, a, 0) + |OwnedBy(rest, a)| == |rest|
  {
    hide OwnedBy, FirstOf;
    var points, lo := rest + [last], FirstOf(rest, a, 0);
    forall k | lo <= k < |rest|
      ensures rest[k].start == a
    {
      assert points[lo] == rest[lo] && points[k] == rest[k] && points[|rest|] == last;
    }
    assert rest[|rest| - 1].start == a;
  }

  lemma RunGrows(rest: seq<TravPoint>, last: TravPoint, a: nat)
    requires Grouped(rest + [last]) && IsRun(rest, a)
    ensures IsRun(rest + [last], a)
  {
    hide OwnedBy, FirstOf, Grouped;
    var points, lo, n := rest + [last], FirstOf(rest, a, 0), |OwnedBy(rest, a)|;
    FirstOfGrows(rest, last, a, 0);
    OwnedByOneMore(rest, last, a);
    if last.start == a && lo < |rest| {
      RunReachesEnd(rest, last, a);
    }
    forall k | 0 <= k < |points|
      ensures points[k].start == a <==> if k < |rest| then lo <= k < lo + n else last.start == a
    {
      if k < |rest| {
        assert points[k] == rest[k];
      }
    }
  }

  lemma {:induction false} FirstOfGrows(points: seq<TravPoint>, p: TravPoint, a: nat, i: nat)
    requires i <= |points|
    ensures FirstOf(points, a, i) < |points| ==> FirstOf(points + [p], a, i) == FirstOf(points, a, i)
    ensures FirstOf(points, a, i) == |points| ==> FirstOf(points + [p], a, i) == |points| + if p.start == a then 0 else 1
    decreases |points| - i
  {
    if i < |points| && points[i].start != a {
      FirstOfGrows(points, p, a, i + 1);
    }
  }

  // ---- the loops ----

  lemma {:induction false} InsertAt(p: TravPoint, points: seq<TravPoint>, j: nat)
    requires j <= |points| && (forall k :: j <= k < |points| ==> points[k].start > p.start)
    requires j > 0 ==> points[j - 1].start <= p.start
    ensures Insert(p, points) == points[..j] + [p] + points[j..]
    decreases points
  {
    if j < |points| {
      var rest, last := points[..|points| - 1], points[|points| - 1];
      InsertAt(p, rest, j);
      assert Insert(p, points) == Insert(p, rest) + [last];
      hide Insert;
      assert rest[..j] == points[..j] && rest[j..] + [last] == points[j..];
    } else {
      assert points[..j] == points && points[j..] == [];
    }
  }

  lemma SunkIsInserted(was: seq<TravPoint>, points: seq<TravPoint>, m: nat, q: nat)
    requires 1 <= q <= m < |points| == |was| && points[q] == was[m]
    requires forall k :: 0 <= k < |was| && (k < q || k > m) ==> points[k] == was[k]
    requires forall k :: q < k <= m ==> points[k] == was[k - 1]
    requires forall k :: q <= k < m ==> was[k].start > was[m].start
    requires q > 1 ==> was[q - 1].start <= was[m].start
    ensures points[1..m + 1] == Insert(was[m], was[1..m]) && points[m + 1..] == was[m + 1..]
  {
    var before := was[1..m];
    InsertAt(was[m], before, q - 1);
    hide Insert;
    var sunk := before[..q - 1] + [was[m]] + before[q - 1..];
    forall k | 0 <= k < m ensures points[1..m + 1][k] == sunk[k] {
    }
    assert points[1..m + 1] == sunk;
  }

  lemma GroupOneMore(points: seq<TravPoint>, p: TravPoint)
    ensures Group(points + [p]) == Insert(p, Group(points))
  {
    assert (points + [p])[..|points|] == points;
  }

  /** The points, of which record 0 is a dummy, and the areas' two fields. */
  class PointLump {
    var points: seq<TravPoint>
    var first: seq<nat>
    var num: seq<nat>

    constructor (points: seq<TravPoint>, areas: nat)
      ensures this.points == points && |first| == |num| == areas
    {
      this.points := points;
      first := seq(areas, _ => 0);
      num := seq(areas, _ => 0);
    }

    /** Sink one record to its place among the grouped ones before it. */
    method Sink(m: nat)
      requires 1 <= m < |points|
      modifies this`points
      ensures |points| == |old(points)| && points[0] == old(points)[0] && points[m + 1..] == old(points)[m + 1..]
      ensures points[1..m + 1] == Insert(old(points)[m], old(points)[1..m])
    {
      ghost var was := points;
      var hold := points[m];
      var q := m;
      while q > 1 && points[q - 1].start > hold.start
        invariant 1 <= q <= m && |points| == |was| && (q == m ==> points == was)
        invariant forall k :: 0 <= k < |was| && (k < q || k > m) ==> points[k] == was[k]
        invariant forall k :: q < k <= m ==> points[k] == was[k - 1]
        invariant forall k :: q <= k < m ==> was[k].start > hold.start
      {
        points := points[q := points[q - 1]];
        q := q - 1;
      }
      if q != m {
        points := points[q := hold];
      }
      SunkIsInserted(was, points, m, q);
    }

    /** Group the records behind the dummy, in place. */
    method Regroup()
      modifies this`points
      ensures points == if old(points) == [] then [] else [old(points)[0]] + Group(old(points)[1..])
    {
      ghost var was := points;
      var m := 1;
      assert was != [] ==> was[1..1] == [] && points[1..1] == [];
      while m < |points|
        invariant 1 <= m && |points| == |was| && (was != [] ==> m <= |points| && points[0] == was[0])
        invariant was != [] ==> points[1..m] == Group(was[1..m]) && points[m..] == was[m..]
      {
        assert was[1..m + 1] == was[1..m] + [was[m]] && points[m] == points[m..][0] == was[m];
        GroupOneMore(was[1..m], was[m]);
        assert points[m + 1..] == points[m..][1..] && was[m + 1..] == was[m..][1..];
        Sink(m);
        m := m + 1;
      }
      assert was != [] ==> was[1..m] == was[1..];
    }

    /** The areas' ranges. Both fields are 16 bits wide. */
    method Ranges()
      requires |first| == |num|
      modifies this`first, this`num
      ensures |first| == |num| == |old(num)|
      ensures points == [] ==> forall a :: 0 <= a < |num| ==> first[a] == num[a] == 0
      ensures points != [] ==> forall a :: 0 <= a < |num| ==> Counted(points, |points|, a, first[a], num[a])
    {
      hide Counted;
      first, num := seq(|num|, _ => 0), seq(|num|, _ => 0);
      var i := 1;
      if points != [] {
        NoneCounted(points);
      }
      while i < |points|
        invariant 1 <= i && (points != [] ==> i <= |points|) && |first| == |num| == |old(num)|
        invariant points == [] ==> forall a :: 0 <= a < |num| ==> first[a] == num[a] == 0
        invariant points != [] ==> forall a :: 0 <= a < |num| ==> Counted(points, i, a, first[a], num[a])
      {
        ghost var first0, num0 := first, num;
        var owner := points[i].start;
        if owner < |num| {
          if num[owner] == 0 {
            first := first[owner := i % U16];
          }
          num := num[owner := (num[owner] + 1) % U16];
        }
        CountAll(points, i, first0, num0, first, num);
        i := i + 1;
      }
    }
  }

  /** After i records: the count modulo 2^16, and while it has not wrapped the
      first index modulo 2^16. */
  ghost predicate Counted(points: seq<TravPoint>, i: nat, a: nat, first: nat, num: nat)
    requires 1 <= i <= |points|
  {
    CountIs(|OwnedBy(points[1..i], a)|, 1 + FirstOf(points[1..i], a, 0), first, num)
  }

  lemma NoneCounted(points: seq<TravPoint>)
    requires points != []
    ensures forall a: nat :: Counted(points, 1, a, 0, 0)
  {
    assert points[1..1] == [];
  }

  predicate CountIs(c: nat, lo: nat, first: nat, num: nat) {
    num == c % U16 && (c == 0 ==> first == 0) && (0 < c < U16 ==> first == lo % U16)
  }

  function NextFirst(points: seq<TravPoint>, i: nat, a: nat, first: nat, num: nat): nat
    requires i < |points|
  {
    if points[i].start == a && num == 0 then i % U16 else first
  }

  function NextNum(points: seq<TravPoint>, i: nat, a: nat, num: nat): nat
    requires i < |points|
  {
    if points[i].start == a then (num + 1) % U16 else num
  }

  lemma CountAll(points: seq<TravPoint>, i: nat, first: seq<nat>, num: seq<nat>, first': seq<nat>, num': seq<nat>)
    requires 1 <= i < |points| && |first| == |num| == |first'| == |num'|
    requires forall a :: 0 <= a < |num| ==> Counted(points, i, a, first[a], num[a])
    requires forall a: nat :: a < |num| ==>
      first'[a] == NextFirst(points, i, a, first[a], num[a]) && num'[a] == NextNum(points, i, a, num[a])
    ensures forall a :: 0 <= a < |num| ==> Counted(points, i + 1, a, first'[a], num'[a])
  {
    hide Counted, NextFirst, NextNum;
    var i' := i + 1;
    forall a | 0 <= a < |num| ensures Counted(points, i', a, first'[a], num'[a]) {
      CountOneMore(points, i, a, first[a], num[a]);
    }
  }

  lemma OneMoreSeen(seen: seq<TravPoint>, p: TravPoint, a: nat)
    ensures |OwnedBy(seen + [p], a)| == |OwnedBy(seen, a)| + if p.start == a then 1 else 0
    ensures FirstOf(seen + [p], a, 0) ==
            if |OwnedBy(seen, a)| == 0 && p.start != a then |seen| + 1 else FirstOf(seen, a, 0)
    ensures |OwnedBy(seen, a)| == 0 ==> FirstOf(seen, a, 0) == |seen|
  {
    OwnedByOneMore(seen, p, a);
    FirstOfGrows(seen, p, a, 0);
    NoneOwned(seen, a);
  }

  lemma CountOneMore(points: seq<TravPoint>, i: nat, a: nat, first: nat, num: nat)
    requires 1 <= i < |points| && Counted(points, i, a, first, num)
    ensures Counted(points, i + 1, a, NextFirst(points, i, a, first, num), NextNum(points, i, a, num))
  {
    hide OwnedBy, FirstOf;
    var seen := points[1..i];
    assert points[1..i + 1] == seen + [points[i]];
    OneMoreSeen(seen, points[i], a);
    CountNext(|OwnedBy(seen, a)|, 1 + FirstOf(seen, a, 0), i, first, num);
  }

  lemma CountNext(c: nat, lo: nat, i: nat, first: nat, num: nat)
    requires CountIs(c, lo, first, num) && (c == 0 ==> lo == i)
    ensures CountIs(c + 1, lo, if num == 0 then i % U16 else first, (num + 1) % U16)
  {
    WrapOne(c);
    if c < U16 {
      DivUnique(c, U16, 0, c);
    }
  }

  lemma WrapOne(c: nat)
    ensures (c % U16 + 1) % U16 == (c + 1) % U16
  {
    DivUnique(c, U16, c / U16, c % U16);
    if c % U16 + 1 == U16 {
      DivUnique(c + 1, U16, c / U16 + 1, 0);
    } else {
      DivUnique(c + 1, U16, c / U16, c % U16 + 1);
    }
  }

  lemma {:induction false} NoneOwned(points: seq<TravPoint>, a: nat)
    ensures OwnedBy(points, a) == [] <==> FirstOf(points, a, 0) == |points|
  {
    if OwnedBy(points, a) != [] {
      var p := OwnedBy(points, a)[0];
      assert p in OwnedBy(points, a) && p in points;
    }
  }

  /** The range names exactly the records behind the dummy that leave the area. */
  ghost predicate RangeRight(points: seq<TravPoint>, a: nat, first: nat, num: nat) {
    forall k :: 1 <= k < |points| ==> (points[k].start == a <==> first <= k < first + num)
  }

  /** On grouped records the 16-bit range of an area is right exactly when it has
      fewer than 65536 records and, having any, the first is below 65536. */
  lemma RangeRightIff(points: seq<TravPoint>, a: nat, first: nat, num: nat)
    requires |points| > 0 && Grouped(points[1..]) && Counted(points, |points|, a, first, num)
    ensures var n, lo := |OwnedBy(points[1..], a)|, 1 + FirstOf(points[1..], a, 0);
            RangeRight(points, a, first, num) && (num == 0 <==> n == 0) && (num > 0 ==> first >= 1)
            <==> n < 65536 && (n > 0 ==> lo < 65536)
  {
    var tail := points[1..];
    assert points[1..|points|] == tail;
    OwnedIsRun(tail, a);
    NoneOwned(tail, a);
    var n, lo := |OwnedBy(tail, a)|, 1 + FirstOf(tail, a, 0);
    hide OwnedBy, FirstOf;
    forall k | 1 <= k < |points| ensures points[k].start == a <==> lo <= k < lo + n {
      assert points[k] == tail[k - 1];
      assert tail[k - 1].start == a <==> lo - 1 <= k - 1 < lo - 1 + n;
    }
    if n < U16 {
      DivUnique(n, U16, 0, n);
    }
    RightIff(points, a, lo, n, first, num);
  }

  lemma RightIff(points: seq<TravPoint>, a: nat, lo: nat, n: nat, first: nat, num: nat)
    requires lo >= 1 && (n > 0 ==> lo + n <= |points|)
    requires forall k :: 1 <= k < |points| ==> (points[k].start == a <==> lo <= k < lo + n)
    requires num < U16 && (n < U16 ==> num == n) && (0 < n < U16 ==> first == lo % U16)
    ensures RangeRight(points, a, first, num) && (num == 0 <==> n == 0) && (num > 0 ==> first >= 1)
            <==> n < U16 && (n > 0 ==> lo < U16)
  {
    if n >= U16 {
      assert points[lo].start == a && points[lo + n - 1].start == a;
    } else if n > 0 && lo >= U16 {
      assert first < U16;
      if first >= 1 {
        assert points[first].start != a;
      }
    } else if n > 0 {
      DivUnique(lo, U16, 0, lo);
    }
  }

  lemma {:induction false} AllOwned(points: seq<TravPoint>, a: nat)
    requires forall i :: 0 <= i < |points| ==> points[i].start == a
    ensures OwnedBy(points, a) == points
  {
    if points != [] {
      AllOwned(points[..|points| - 1], a);
      assert points == points[..|points| - 1] + [points[|points| - 1]];
    }
  }

  /** 65536 points that leave area 7, behind the dummy. */
  function Crowd(): (points: seq<TravPoint>)
    ensures |points| == 65537 && forall i :: 1 <= i <= 65536 ==> points[i] == TravPoint(0, 7, 7, 0)
  {
    [TravPoint(0, 0, 0, 0)] + seq(65536, _ => TravPoint(0, 7, 7, 0))
  }

  /** The count of those is written as 0, so that none of them is in the area's range. */
  lemma CrowdIsLost(first: nat, num: nat)
    requires Counted(Crowd(), 65537, 7, first, num)
    ensures num == 0 && Crowd()[1].start == 7 && !RangeRight(Crowd(), 7, first, num)
  {
    hide Crowd, OwnedBy, FirstOf;
    var points := Crowd();
    assert points[1..U16 + 1] == points[1..];
    AllOwned(points[1..], 7);
    DivUnique(U16, U16, 1, 0);
    assert points[1].start == 7;
  }

  // ---- points and their reachabilities ----

  /** A point's reachability: its own two areas. */
  datatype Link = Link(start: nat, end: nat)

  /** Every point behind the dummy names a record that is there and has its own
      two areas. */
  ghost predicate NamesOwn(points: seq<TravPoint>, links: seq<Link>) {
    forall i :: 1 <= i < |points| ==>
      points[i].d28 < |links| && links[points[i].d28] == Link(points[i].start, points[i].end)
  }

  lemma InGrouped(points: seq<TravPoint>, i: nat)
    requires i < |points|
    ensures Group(points)[i] in points
  {
    GroupFacts(points, 0);
    assert Group(points)[i] in multiset(Group(points));
  }

  /** Regrouping moves points, not what they name. */
  lemma RegroupKeepsNames(points: seq<TravPoint>, links: seq<Link>)
    requires |points| > 0 && NamesOwn(points, links)
    ensures NamesOwn([points[0]] + Group(points[1..]), links)
  {
    var tail := points[1..];
    hide Group;
    var grouped := [points[0]] + Group(tail);
    forall i | 1 <= i < |grouped|
      ensures grouped[i].d28 < |links| && links[grouped[i].d28] == Link(grouped[i].start, grouped[i].end)
    {
      assert grouped[i] == Group(tail)[i - 1];
      InGrouped(tail, i - 1);
      var k :| 0 <= k < |tail| && tail[k] == grouped[i];
      assert points[k + 1] == grouped[i];
    }
  }

  /** Whatever is written behind the records that were there when the points
      were made, every point keeps its record. */
  lemma PrefixKeepsNames(points: seq<TravPoint>, links: seq<Link>, links': seq<Link>)
    requires NamesOwn(points, links) && links <= links'
    ensures NamesOwn(points, links')
  {
    forall i | 1 <= i < |points|
      ensures points[i].d28 < |links'| && links'[points[i].d28] == Link(points[i].start, points[i].end)
    {
      assert points[i].d28 < |links| && links[points[i].d28] == links'[points[i].d28];
    }
  }
}
