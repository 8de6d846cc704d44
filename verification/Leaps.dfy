/**
 Thinning the leaps between box tops (src/backend/aas_augment.c:2971-3087).

 Per source area and demon, leaps are looked at nearest landing first, and one
 is dropped when a leap already kept lands in the same area, or lands where the
 demon has its own, shorter leap to it.
 */
module Leaps {
  import opened Routes
  import opened Sorting

  datatype Leap = Leap(start: int, end: int, flags: int, d30: int, reach: real, k: nat)

  predicate SameDemon(a: Leap, b: Leap) {
    a.flags == b.flags && a.d30 == b.d30
  }

  predicate SameGroup(a: Leap, b: Leap) {
    a.start == b.start && SameDemon(a, b)
  }

  predicate GroupLess(a: Leap, b: Leap) {
    if a.start != b.start then a.start < b.start
    else if a.flags != b.flags then a.flags < b.flags
    else a.d30 < b.d30
  }

  predicate Nearer(a: Leap, b: Leap) {
    if a.reach != b.reach then a.reach < b.reach else a.k < b.k
  }

  predicate NearestFirst(a: Leap, b: Leap) {
    if !SameGroup(a, b) then GroupLess(a, b) else Nearer(a, b)
  }

  predicate ByTarget(a: Leap, b: Leap) {
    if !SameGroup(a, b) then GroupLess(a, b)
    else if a.end != b.end then a.end < b.end
    else Nearer(a, b)
  }

  // ---- the rule ----

  predicate Hop(leaps: seq<Leap>, via: int, t: Leap) {
    exists h :: h in leaps && SameDemon(h, t) && h.start == via && h.end == t.end && h.reach < t.reach
  }

  /** A landing that makes t superfluous. */
  predicate Relays(leaps: seq<Leap>, via: int, t: Leap) {
    via == t.end || Hop(leaps, via, t)
  }

  /** t is superfluous: of the same group and nearer, a leap is kept that
      relays it. */
  ghost predicate Relayed(leaps: seq<Leap>, gone: set<nat>, t: Leap) {
    exists j :: j in leaps && j.k !in gone && SameGroup(j, t) && Nearer(j, t) && Relays(leaps, j.end, t)
  }

  /** Exactly the superfluous leaps are gone. */
  ghost predicate Thinned(leaps: seq<Leap>, gone: set<nat>) {
    && (forall k :: k in gone ==> exists t :: t in leaps && t.k == k)
    && forall t :: t in leaps ==> (t.k in gone <==> Relayed(leaps, gone, t))
  }

  ghost predicate Distinct(leaps: seq<Leap>) {
    forall a, b :: a in leaps && b in leaps && a.k == b.k ==> a == b
  }

  // ---- what it preserves ----

  /** A way from one area to another by kept leaps of t's demon, none of them
      longer than t. */
  ghost predicate Way(leaps: seq<Leap>, gone: set<nat>, t: Leap, way: seq<Leap>, start: int, end: int) {
    if way == [] then start == end
    else
      && way[0] in leaps && way[0].k !in gone && SameDemon(way[0], t) && way[0].reach <= t.reach
      && way[0].start == start && Way(leaps, gone, t, way[1..], way[0].end, end)
  }

  lemma {:induction false} LongerLimit(leaps: seq<Leap>, gone: set<nat>, t: Leap, u: Leap, way: seq<Leap>, start: int, end: int)
    requires Way(leaps, gone, t, way, start, end) && SameDemon(t, u) && t.reach <= u.reach
    ensures Way(leaps, gone, u, way, start, end)
    decreases way
  {
    if way != [] {
      LongerLimit(leaps, gone, t, u, way[1..], way[0].end, end);
    }
  }

  /** Candidates that are shorter than t: what the replacement runs out of. */
  ghost function Shorter(leaps: seq<Leap>, reach: real): set<Leap> {
    set h | h in leaps && h.reach < reach
  }

  lemma {:induction false} FewerThan<T>(a: set<T>, b: set<T>, x: T)
    requires a <= b && x in b && x !in a
    ensures |a| < |b|
  {
    AtMost(a, b - {x});
  }

  lemma {:induction false} AtMost<T>(a: set<T>, b: set<T>)
    requires a <= b
    ensures |a| <= |b|
  {
    if a != {} {
      var x :| x in a;
      AtMost(a - {x}, b - {x});
    }
  }

  /** Every candidate leap, dropped or not, is replaced by kept leaps none of
      which is longer. */
  lemma {:induction false} LeapReplaced(leaps: seq<Leap>, gone: set<nat>, t: Leap) returns (way: seq<Leap>)
    requires Thinned(leaps, gone) && t in leaps
    ensures Way(leaps, gone, t, way, t.start, t.end) && way != []
    decreases |Shorter(leaps, t.reach)|
  {
    if t.k !in gone {
      return [t];
    }
    assert Relayed(leaps, gone, t);
    var j :| j in leaps && j.k !in gone && SameGroup(j, t) && Nearer(j, t) && Relays(leaps, j.end, t);
    if j.end == t.end {
      return [j];
    }
    var h :| h in leaps && SameDemon(h, t) && h.start == j.end && h.end == t.end && h.reach < t.reach;
    FewerThan(Shorter(leaps, h.reach), Shorter(leaps, t.reach), h);
    var rest := LeapReplaced(leaps, gone, h);
    LongerLimit(leaps, gone, h, t, rest, h.start, h.end);
    way := [j] + rest;
    assert way[1..] == rest;
  }

  /** A trip by candidate leaps of one demon. */
  ghost predicate Trip(leaps: seq<Leap>, demon: Leap, trip: seq<Leap>, start: int, end: int) {
    if trip == [] then start == end
    else
      && trip[0] in leaps && SameDemon(trip[0], demon) && trip[0].start == start
      && Trip(leaps, demon, trip[1..], trip[0].end, end)
  }

  ghost predicate Kept(trip: seq<Leap>, gone: set<nat>) {
    forall h :: h in trip ==> h.k !in gone
  }

  lemma {:induction false} TripOn(leaps: seq<Leap>, demon: Leap, a: seq<Leap>, b: seq<Leap>, start: int, via: int, end: int)
    requires Trip(leaps, demon, a, start, via) && Trip(leaps, demon, b, via, end)
    ensures Trip(leaps, demon, a + b, start, end)
    decreases a
  {
    if a == [] {
      assert a + b == b;
    } else {
      assert (a + b)[1..] == a[1..] + b;
      TripOn(leaps, demon, a[1..], b, a[0].end, via, end);
    }
  }

  lemma {:induction false} WayIsTrip(leaps: seq<Leap>, gone: set<nat>, t: Leap, way: seq<Leap>, start: int, end: int)
    requires Way(leaps, gone, t, way, start, end)
    ensures Trip(leaps, t, way, start, end) && Kept(way, gone)
    decreases way
  {
    if way != [] {
      WayIsTrip(leaps, gone, t, way[1..], way[0].end, end);
    }
  }

  lemma {:induction false} SameDemonTrip(leaps: seq<Leap>, a: Leap, b: Leap, trip: seq<Leap>, start: int, end: int)
    requires Trip(leaps, a, trip, start, end) && SameDemon(a, b)
    ensures Trip(leaps, b, trip, start, end)
    decreases trip
  {
    if trip != [] {
      SameDemonTrip(leaps, a, b, trip[1..], trip[0].end, end);
    }
  }

  /** Wherever a demon could leap to before, it still can. */
  lemma {:induction false} ReachKept(leaps: seq<Leap>, gone: set<nat>, demon: Leap, trip: seq<Leap>, start: int, end: int)
    returns (kept: seq<Leap>)
    requires Thinned(leaps, gone) && Trip(leaps, demon, trip, start, end)
    ensures Trip(leaps, demon, kept, start, end) && Kept(kept, gone)
    decreases trip
  {
    kept := [];
    if trip != [] {
      var way := LeapReplaced(leaps, gone, trip[0]);
      WayIsTrip(leaps, gone, trip[0], way, start, trip[0].end);
      SameDemonTrip(leaps, trip[0], demon, way, start, trip[0].end);
      var rest := ReachKept(leaps, gone, demon, trip[1..], trip[0].end, end);
      TripOn(leaps, demon, way, rest, start, trip[0].end, end);
      kept := way + rest;
    }
  }

  ghost function Before(leaps: seq<Leap>, t: Leap): set<Leap> {
    set j | j in leaps && SameGroup(j, t) && Nearer(j, t)
  }

  lemma BeforeShrinks(leaps: seq<Leap>, j: Leap, t: Leap)
    requires j in Before(leaps, t)
    ensures |Before(leaps, j)| < |Before(leaps, t)|
  {
    FewerThan(Before(leaps, j), Before(leaps, t), j);
  }

  /** The rule has one outcome. */
  lemma {:induction false} ThinnedUnique(leaps: seq<Leap>, gone: set<nat>, gone': set<nat>, t: Leap)
    requires Thinned(leaps, gone) && Thinned(leaps, gone') && t in leaps
    ensures t.k in gone <==> t.k in gone'
    decreases |Before(leaps, t)|
  {
    forall j | j in Before(leaps, t) ensures j.k in gone <==> j.k in gone' {
      BeforeShrinks(leaps, j, t);
      ThinnedUnique(leaps, gone, gone', j);
    }
    if Relayed(leaps, gone, t) {
      SameVerdict(leaps, gone, gone', t);
    }
    if Relayed(leaps, gone', t) {
      SameVerdict(leaps, gone', gone, t);
    }
  }

  lemma SameVerdict(leaps: seq<Leap>, gone: set<nat>, gone': set<nat>, t: Leap)
    requires forall j :: j in Before(leaps, t) ==> (j.k in gone <==> j.k in gone')
    requires Relayed(leaps, gone, t)
    ensures Relayed(leaps, gone', t)
  {
  }

  // ---- the pass over the routes ----

  function LeapOf(routes: seq<Route>, k: nat): Leap
    requires k < |routes|
  {
    Leap(routes[k].start, routes[k].end, routes[k].flags, routes[k].d30, routes[k].reach, k)
  }

  /** The leaps among the first n routes, in order. */
  function LeapsOf(routes: seq<Route>, n: nat): (r: seq<Leap>)
    requires n <= |routes|
    ensures forall t :: t in r ==> t.k < n && routes[t.k].isLeap && t == LeapOf(routes, t.k)
    ensures forall k: nat :: k < n && routes[k].isLeap ==> LeapOf(routes, k) in r
  {
    if n == 0 then []
    else if routes[n - 1].isLeap then LeapsOf(routes, n - 1) + [LeapOf(routes, n - 1)]
    else LeapsOf(routes, n - 1)
  }

  lemma {:induction false} LeapsDistinct(routes: seq<Route>, n: nat)
    requires n <= |routes|
    ensures NoRepeats(LeapsOf(routes, n)) && Distinct(LeapsOf(routes, n))
  {
    if n > 0 {
      LeapsDistinct(routes, n - 1);
    }
  }

  lemma OrdersHold()
    ensures Order(NearestFirst) && Order(ByTarget)
  {
  }

  /** The shortest candidate leap from via to t's area for t's demon, or -1. */
  method Shortest(byTarget: seq<Leap>, via: int, t: Leap) returns (hop: real)
    requires InOrder(ByTarget, byTarget)
    requires forall h :: h in byTarget ==> h.reach >= 0.0
    ensures hop < 0.0 ==> forall h :: h in byTarget ==> !(SameDemon(h, t) && h.start == via && h.end == t.end)
    ensures hop >= 0.0 ==>
      && (exists h :: h in byTarget && SameDemon(h, t) && h.start == via && h.end == t.end && h.reach == hop)
      && (forall h :: h in byTarget && SameDemon(h, t) && h.start == via && h.end == t.end ==> hop <= h.reach)
  {
    var probe := t.(start := via);
    var lo, hi := 0, |byTarget|;
    while lo < hi
      invariant 0 <= lo <= hi <= |byTarget|
      invariant forall i :: 0 <= i < lo ==> TargetLess(byTarget[i], probe)
      invariant forall i :: hi <= i < |byTarget| ==> !TargetLess(byTarget[i], probe)
    {
      var mid := lo + (hi - lo) / 2;
      if TargetLess(byTarget[mid], probe) {
        forall i | 0 <= i <= mid ensures TargetLess(byTarget[i], probe) {
          assert i < mid ==> !ByTarget(byTarget[mid], byTarget[i]);
        }
        lo := mid + 1;
      } else {
        forall i | mid <= i < |byTarget| ensures !TargetLess(byTarget[i], probe) {
          assert mid < i ==> !ByTarget(byTarget[i], byTarget[mid]);
        }
        hi := mid;
      }
    }
    hop := -1.0;
    if lo < |byTarget| && SameGroup(byTarget[lo], probe) && byTarget[lo].end == t.end {
      hop := byTarget[lo].reach;
      assert byTarget[lo] in byTarget;
    }
    forall h | h in byTarget && SameDemon(h, t) && h.start == via && h.end == t.end
      ensures hop >= 0.0 && hop <= h.reach
    {
      var i :| 0 <= i < |byTarget| && byTarget[i] == h;
      assert lo <= i;
      assert lo < i ==> !ByTarget(byTarget[i], byTarget[lo]);
    }
  }

  /** Earlier by source, demon and target. */
  predicate TargetLess(a: Leap, b: Leap) {
    if !SameGroup(a, b) then GroupLess(a, b) else a.end < b.end
  }

  /** The landings kept so far in the group that starts at first. */
  ghost predicate Landings(order: seq<Leap>, gone: set<nat>, first: nat, upto: nat, keptTo: seq<int>)
    requires first <= upto <= |order|
  {
    forall x :: x in keptTo <==> exists p :: first <= p < upto && order[p].k !in gone && order[p].end == x
  }

  /** The verdicts so far are the rule's. */
  ghost predicate Judged(order: seq<Leap>, gone: set<nat>, upto: nat)
    requires upto <= |order|
  {
    && (forall k :: k in gone ==> exists p :: 0 <= p < upto && order[p].k == k)
    && forall p :: 0 <= p < upto ==> (order[p].k in gone <==> RelayedAt(order, gone, p))
  }

  ghost predicate RelayedAt(order: seq<Leap>, gone: set<nat>, p: nat)
    requires p < |order|
  {
    exists q :: 0 <= q < p && order[q].k !in gone && SameGroup(order[q], order[p]) && Relays(order, order[q].end, order[p])
  }

  method LooksRelayed(order: seq<Leap>, byTarget: seq<Leap>, keptTo: seq<int>, t: Leap) returns (relayed: bool)
    requires InOrder(ByTarget, byTarget) && forall h :: h in byTarget ==> h.reach >= 0.0
    requires forall h :: h in order <==> h in byTarget
    ensures relayed <==> exists x :: x in keptTo && Relays(order, x, t)
  {
    relayed := false;
    var q := 0;
    while q < |keptTo| && !relayed
      invariant 0 <= q <= |keptTo|
      invariant relayed ==> exists x :: x in keptTo && Relays(order, x, t)
      invariant !relayed ==> forall i :: 0 <= i < q ==> !Relays(order, keptTo[i], t)
    {
      assert keptTo[q] in keptTo;
      if keptTo[q] == t.end {
        relayed := true;
      } else {
        var hop := Shortest(byTarget, keptTo[q], t);
        if hop >= 0.0 && hop < t.reach {
          relayed := true;
        }
      }
      q := q + 1;
    }
  }

  /** No leap from position first on is of the group of an earlier one. */
  ghost predicate NewGroup(order: seq<Leap>, first: nat) {
    forall q, p :: 0 <= q < first <= p < |order| ==> !SameGroup(order[q], order[p])
  }

  ghost predicate DistinctKeys(order: seq<Leap>) {
    forall i, j :: 0 <= i < j < |order| ==> order[i].k != order[j].k
  }

  /** What is known when the leap at i of its group is judged. */
  ghost predicate Judging(order: seq<Leap>, gone: set<nat>, first: nat, i: nat, keptTo: seq<int>, relayed: bool) {
    && first <= i < |order| && NewGroup(order, first) && DistinctKeys(order)
    && (forall p :: first <= p <= i ==> SameGroup(order[first], order[p]))
    && Landings(order, gone, first, i, keptTo) && Judged(order, gone, i)
    && (relayed <==> exists x :: x in keptTo && Relays(order, x, order[i]))
  }

  function Verdict(order: seq<Leap>, gone: set<nat>, i: nat, relayed: bool): set<nat>
    requires i < |order|
  {
    if relayed then gone + {order[i].k} else gone
  }

  /** One more verdict leaves the earlier leaps' alone. */
  lemma VerdictsStand(order: seq<Leap>, gone: set<nat>, first: nat, i: nat, keptTo: seq<int>, relayed: bool, p: nat)
    requires Judging(order, gone, first, i, keptTo, relayed) && p < i
    ensures order[i].k !in gone
    ensures order[p].k in Verdict(order, gone, i, relayed) <==> order[p].k in gone
  {
    hide Relays, SameGroup, NewGroup, Landings, RelayedAt;
  }

  lemma RelayStands(order: seq<Leap>, gone: set<nat>, first: nat, i: nat, keptTo: seq<int>, relayed: bool, p: nat)
    requires Judging(order, gone, first, i, keptTo, relayed) && p < i
    ensures RelayedAt(order, Verdict(order, gone, i, relayed), p) <==> RelayedAt(order, gone, p)
  {
    hide Relays, SameGroup, Verdict, NewGroup, DistinctKeys, Landings, Judged;
    forall q: nat | q < i
      ensures order[q].k in Verdict(order, gone, i, relayed) <==> order[q].k in gone
    {
      VerdictsStand(order, gone, first, i, keptTo, relayed, q);
    }
  }

  lemma GroupOf(order: seq<Leap>, gone: set<nat>, first: nat, i: nat, keptTo: seq<int>, relayed: bool, p: nat)
    requires Judging(order, gone, first, i, keptTo, relayed) && p <= i
    ensures SameGroup(order[p], order[i]) <==> first <= p
  {
    assert SameGroup(order[first], order[i]) && (first <= p ==> SameGroup(order[first], order[p]));
  }

  lemma RelayedHere(order: seq<Leap>, gone: set<nat>, first: nat, i: nat, keptTo: seq<int>, relayed: bool)
    requires Judging(order, gone, first, i, keptTo, relayed)
    ensures RelayedAt(order, Verdict(order, gone, i, relayed), i) <==> relayed
  {
    hide Relays, SameGroup, Verdict, NewGroup, DistinctKeys, Judged;
    var gone' := Verdict(order, gone, i, relayed);
    forall q: nat | q < i
      ensures order[q].k in gone' <==> order[q].k in gone
      ensures SameGroup(order[q], order[i]) <==> first <= q
    {
      VerdictsStand(order, gone, first, i, keptTo, relayed, q);
      GroupOf(order, gone, first, i, keptTo, relayed, q);
    }
    if relayed {
      var x :| x in keptTo && Relays(order, x, order[i]);
      var p :| first <= p < i && order[p].k !in gone && order[p].end == x;
    }
    if RelayedAt(order, gone', i) {
      var q :| 0 <= q < i && order[q].k !in gone' && SameGroup(order[q], order[i]) && Relays(order, order[q].end, order[i]);
      assert order[q].end in keptTo;
    }
  }

  lemma LandsOne(order: seq<Leap>, gone: set<nat>, first: nat, i: nat, keptTo: seq<int>, relayed: bool)
    requires Judging(order, gone, first, i, keptTo, relayed)
    ensures Landings(order, Verdict(order, gone, i, relayed), first, i + 1,
                     if relayed then keptTo else keptTo + [order[i].end])
  {
    hide Relays, SameGroup, NewGroup, DistinctKeys, Judged;
    var gone' := Verdict(order, gone, i, relayed);
    var keptTo' := if relayed then keptTo else keptTo + [order[i].end];
    forall q: nat | q < i
      ensures order[q].k in gone' <==> order[q].k in gone
      ensures order[i].k !in gone
    {
      VerdictsStand(order, gone, first, i, keptTo, relayed, q);
    }
    FreshKey(order, gone, first, i, keptTo, relayed);
    forall x
      ensures x in keptTo' <==> exists p :: first <= p < i + 1 && order[p].k !in gone' && order[p].end == x
    {
      if x in keptTo {
        var p :| first <= p < i && order[p].k !in gone && order[p].end == x;
        assert order[p].k !in gone';
      }
    }
  }

  lemma FreshKey(order: seq<Leap>, gone: set<nat>, first: nat, i: nat, keptTo: seq<int>, relayed: bool)
    requires Judging(order, gone, first, i, keptTo, relayed)
    ensures order[i].k !in gone
  {
    hide Relays, SameGroup, NewGroup, Landings, RelayedAt;
  }

  lemma JudgeOne(order: seq<Leap>, gone: set<nat>, first: nat, i: nat, keptTo: seq<int>, relayed: bool)
    requires Judging(order, gone, first, i, keptTo, relayed)
    ensures Judged(order, Verdict(order, gone, i, relayed), i + 1)
    ensures Landings(order, Verdict(order, gone, i, relayed), first, i + 1,
                     if relayed then keptTo else keptTo + [order[i].end])
  {
    hide Relays, SameGroup, NewGroup, Landings, RelayedAt, DistinctKeys;
    LandsOne(order, gone, first, i, keptTo, relayed);
    RelayedHere(order, gone, first, i, keptTo, relayed);
    FreshKey(order, gone, first, i, keptTo, relayed);
    forall p: nat | p < i
      ensures RelayedAt(order, Verdict(order, gone, i, relayed), p) <==> RelayedAt(order, gone, p)
      ensures order[p].k in Verdict(order, gone, i, relayed) <==> order[p].k in gone
    {
      RelayStands(order, gone, first, i, keptTo, relayed, p);
      VerdictsStand(order, gone, first, i, keptTo, relayed, p);
    }
  }

  lemma GroupEnds(order: seq<Leap>, first: nat, last: nat)
    requires InOrder(NearestFirst, order) && NewGroup(order, first) && first < last <= |order|
    requires forall p :: first <= p < last ==> SameGroup(order[first], order[p])
    requires last < |order| ==> !SameGroup(order[first], order[last])
    ensures NewGroup(order, last)
  {
    forall q, p | 0 <= q < last <= p < |order| ensures !SameGroup(order[q], order[p]) {
      if q >= first {
        assert !NearestFirst(order[last], order[first]);
        assert last < p ==> !NearestFirst(order[p], order[last]);
      }
    }
  }

  /** The loop over the groups. */
  method Judge(order: seq<Leap>, byTarget: seq<Leap>) returns (gone: set<nat>)
    requires InOrder(NearestFirst, order) && DistinctKeys(order)
    requires InOrder(ByTarget, byTarget) && forall h :: h in byTarget ==> h.reach >= 0.0
    requires forall h :: h in order <==> h in byTarget
    ensures Judged(order, gone, |order|)
  {
    hide Judged, Landings, NewGroup, Relays, NearestFirst, ByTarget;
    gone := {};
    var first := 0;
    StartJudging(order);
    while first < |order|
      invariant 0 <= first <= |order| && NewGroup(order, first) && Judged(order, gone, first)
    {
      var last := first;
      while last < |order| && SameGroup(order[first], order[last])
        invariant first <= last <= |order|
        invariant forall p :: first <= p < last ==> SameGroup(order[first], order[p])
      {
        last := last + 1;
      }
      assert first < last;
      var keptTo: seq<int> := [];
      NoLandings(order, gone, first);
      var i := first;
      while i < last
        invariant first <= i <= last && Judged(order, gone, i) && Landings(order, gone, first, i, keptTo)
      {
        var relayed := LooksRelayed(order, byTarget, keptTo, order[i]);
        JudgeOne(order, gone, first, i, keptTo, relayed);
        if relayed {
          gone := gone + {order[i].k};
        } else {
          keptTo := keptTo + [order[i].end];
        }
        i := i + 1;
      }
      GroupEnds(order, first, last);
      first := last;
    }
  }

  lemma StartJudging(order: seq<Leap>)
    ensures Judged(order, {}, 0) && NewGroup(order, 0)
  {
  }

  lemma NoLandings(order: seq<Leap>, gone: set<nat>, first: nat)
    requires first <= |order|
    ensures Landings(order, gone, first, first, [])
  {
  }

  lemma SameRelays(order: seq<Leap>, leaps: seq<Leap>, via: int, t: Leap)
    requires forall t :: t in order <==> t in leaps
    ensures Relays(order, via, t) <==> Relays(leaps, via, t)
  {
  }

  /** The verdict at a position is the rule's on that leap. */
  lemma RelayedThere(leaps: seq<Leap>, order: seq<Leap>, gone: set<nat>, p: nat)
    requires InOrder(NearestFirst, order) && DistinctKeys(order) && p < |order| && forall t :: t in order <==> t in leaps
    ensures RelayedAt(order, gone, p) <==> Relayed(leaps, gone, order[p])
  {
    var t := order[p];
    if RelayedAt(order, gone, p) {
      var q :| 0 <= q < p && order[q].k !in gone && SameGroup(order[q], t) && Relays(order, order[q].end, t);
      SameRelays(order, leaps, order[q].end, t);
      hide Relays;
      assert !NearestFirst(t, order[q]) && order[q] in order;
      assert order[q].k != t.k;
    }
    if Relayed(leaps, gone, t) {
      var j :| j in leaps && j.k !in gone && SameGroup(j, t) && Nearer(j, t) && Relays(leaps, j.end, t);
      SameRelays(order, leaps, j.end, t);
      hide Relays;
      var q :| 0 <= q < |order| && order[q] == j;
      assert q > p ==> !NearestFirst(order[q], order[p]);
    }
  }

  /** The verdicts on the sorted leaps are the rule's on the leaps. */
  lemma JudgedIsThinned(leaps: seq<Leap>, order: seq<Leap>, gone: set<nat>)
    requires InOrder(NearestFirst, order) && Judged(order, gone, |order|) && DistinctKeys(order)
    requires forall t :: t in order <==> t in leaps
    ensures Thinned(leaps, gone)
  {
    hide Relayed, RelayedAt, InOrder;
    forall k | k in gone ensures exists t :: t in leaps && t.k == k {
      var p :| 0 <= p < |order| && order[p].k == k;
      assert order[p] in leaps;
    }
    forall t | t in leaps ensures t.k in gone <==> Relayed(leaps, gone, t) {
      var p :| 0 <= p < |order| && order[p] == t;
      RelayedThere(leaps, order, gone, p);
    }
  }

  // ---- the rule, of the routes themselves ----

  /** A shorter leap of the same demon from j's landing to k's. */
  predicate GoesOn(routes: seq<Route>, j: nat, k: nat)
    requires j < |routes| && k < |routes|
  {
    exists h :: 0 <= h < |routes| && routes[h].isLeap && routes[h].flags == routes[k].flags && routes[h].d30 == routes[k].d30
                && routes[h].start == routes[j].end && routes[h].end == routes[k].end && routes[h].reach < routes[k].reach
  }

  /** j and k are leaps of one demon from one area, and j is the nearer one. */
  predicate NearerLeap(routes: seq<Route>, j: nat, k: nat)
    requires j < |routes| && k < |routes|
  {
    && routes[j].isLeap && routes[k].isLeap
    && routes[j].start == routes[k].start && routes[j].flags == routes[k].flags && routes[j].d30 == routes[k].d30
    && (routes[j].reach < routes[k].reach || (routes[j].reach == routes[k].reach && j < k))
  }

  /** A nearer leap that is kept lands where k does, or where a shorter one goes on from. */
  predicate Superfluous(routes: seq<Route>, gone: set<nat>, k: nat)
    requires k < |routes|
  {
    exists j: nat :: j < |routes| && j !in gone && NearerLeap(routes, j, k)
                     && (routes[j].end == routes[k].end || GoesOn(routes, j, k))
  }

  lemma RelaysAre(routes: seq<Route>, j: nat, k: nat)
    requires j < |routes| && k < |routes|
    ensures Relays(LeapsOf(routes, |routes|), routes[j].end, LeapOf(routes, k)) <==>
            routes[j].end == routes[k].end || GoesOn(routes, j, k)
  {
    var leaps, t := LeapsOf(routes, |routes|), LeapOf(routes, k);
    if Hop(leaps, routes[j].end, t) {
      var h :| h in leaps && SameDemon(h, t) && h.start == routes[j].end && h.end == t.end && h.reach < t.reach;
      assert h == LeapOf(routes, h.k);
    }
    if GoesOn(routes, j, k) {
      var h :| 0 <= h < |routes| && routes[h].isLeap && routes[h].flags == routes[k].flags
               && routes[h].d30 == routes[k].d30 && routes[h].start == routes[j].end
               && routes[h].end == routes[k].end && routes[h].reach < routes[k].reach;
      assert LeapOf(routes, h) in leaps;
    }
  }

  lemma RelayedIsSuperfluous(routes: seq<Route>, gone: set<nat>, k: nat)
    requires k < |routes| && routes[k].isLeap
    ensures Relayed(LeapsOf(routes, |routes|), gone, LeapOf(routes, k)) <==> Superfluous(routes, gone, k)
  {
    hide Relays, GoesOn;
    var leaps, t := LeapsOf(routes, |routes|), LeapOf(routes, k);
    if Relayed(leaps, gone, t) {
      var j :| j in leaps && j.k !in gone && SameGroup(j, t) && Nearer(j, t) && Relays(leaps, j.end, t);
      assert j == LeapOf(routes, j.k);
      RelaysAre(routes, j.k, k);
      assert NearerLeap(routes, j.k, k);
    }
    if Superfluous(routes, gone, k) {
      var j: nat :| j < |routes| && j !in gone && NearerLeap(routes, j, k)
                    && (routes[j].end == routes[k].end || GoesOn(routes, j, k));
      RelaysAre(routes, j, k);
      assert LeapOf(routes, j) in leaps;
    }
  }

  lemma VerdictOf(routes: seq<Route>, gone: set<nat>, k: nat)
    requires Thinned(LeapsOf(routes, |routes|), gone)
    ensures k in gone ==> k < |routes| && routes[k].isLeap
    ensures k < |routes| && routes[k].isLeap ==>
              (k in gone <==> Relayed(LeapsOf(routes, |routes|), gone, LeapOf(routes, k)))
  {
    hide Relayed;
  }

  /** What the rule says of the leaps it says of the routes. */
  lemma ThinnedMeans(routes: seq<Route>, gone: set<nat>)
    requires Thinned(LeapsOf(routes, |routes|), gone)
    ensures forall k :: k in gone <==> 0 <= k < |routes| && Superfluous(routes, gone, k)
  {
    hide Relayed, Superfluous, Thinned;
    forall k: nat
      ensures k in gone <==> k < |routes| && Superfluous(routes, gone, k)
    {
      VerdictOf(routes, gone, k);
      if k < |routes| {
        OnlyLeapsAreSuperfluous(routes, gone, k);
        if routes[k].isLeap {
          RelayedIsSuperfluous(routes, gone, k);
        }
      }
    }
  }

  lemma OnlyLeapsAreSuperfluous(routes: seq<Route>, gone: set<nat>, k: nat)
    requires k < |routes|
    ensures Superfluous(routes, gone, k) ==> routes[k].isLeap
  {
  }

  /**
   * Of two leaps that stay, of one demon and from one area, the farther one does not land where the nearer one does,
   * and no shorter candidate goes on to its landing from the nearer one's.
   */
  lemma NoneIsLeftOver(routes: seq<Route>, gone: set<nat>, j: nat, k: nat, h: nat)
    requires forall i :: i in gone <==> 0 <= i < |routes| && Superfluous(routes, gone, i)
    requires j < |routes| && k < |routes| && h < |routes| && j !in gone && k !in gone && NearerLeap(routes, j, k)
    ensures routes[j].end != routes[k].end
    ensures (routes[h].isLeap && routes[h].flags == routes[k].flags && routes[h].d30 == routes[k].d30
             && routes[h].start == routes[j].end && routes[h].end == routes[k].end) ==> routes[h].reach >= routes[k].reach
  {
    assert !Superfluous(routes, gone, k);
  }

  /** One demon's leaps from area 1 to 2 and 3, and from 2 to 3: the one from 1 to 3 goes, and no other. */
  lemma ThreeAreTwo(r: Route, gone: set<nat>)
    requires r.isLeap
    requires var routes := [r.(start := 1, end := 2, reach := 10.0), r.(start := 1, end := 3, reach := 20.0),
                            r.(start := 2, end := 3, reach := 10.0)];
             forall i :: i in gone <==> 0 <= i < |routes| && Superfluous(routes, gone, i)
    ensures gone == {1}
  {
    var routes := [r.(start := 1, end := 2, reach := 10.0), r.(start := 1, end := 3, reach := 20.0),
                   r.(start := 2, end := 3, reach := 10.0)];
    assert !Superfluous(routes, gone, 0) && !Superfluous(routes, gone, 2);
    assert routes[2].reach < routes[1].reach && GoesOn(routes, 0, 1);
    assert NearerLeap(routes, 0, 1);
  }

  /** The routes of the first n that are not gone, in order. */
  function Remaining(routes: seq<Route>, gone: set<nat>, n: nat): (r: seq<Route>)
    requires n <= |routes|
    ensures |r| <= n
  {
    if n == 0 then []
    else if n - 1 in gone then Remaining(routes, gone, n - 1)
    else Remaining(routes, gone, n - 1) + [routes[n - 1]]
  }

  /** Move the remaining routes to the front of the array. */
  method Compact(routes: array<Route>, n: nat, gone: set<nat>) returns (w: nat)
    requires n <= routes.Length
    modifies routes
    ensures w <= n && routes[..w] == Remaining(old(routes[..n]), gone, n)
    ensures routes[n..] == old(routes[n..])
  {
    w := 0;
    ghost var was := routes[..n];
    var k := 0;
    while k < n
      invariant 0 <= w <= k <= n
      invariant routes[..w] == Remaining(was, gone, k)
      invariant forall i :: k <= i < routes.Length ==> routes[i] == old(routes[i])
    {
      assert was[k] == routes[k];
      if k !in gone {
        if w != k {
          routes[w] := routes[k];
        }
        w := w + 1;
        assert routes[..w] == routes[..w - 1] + [was[k]];
      }
      k := k + 1;
    }
  }

  /**
   * aug_keep_nearest_leaps. A route goes exactly when it is a leap and a nearer one that stays, of its demon and from
   * its area, lands where it does or where a shorter one goes on from; nothing goes when there is no memory.
   */
  method KeepNearestLeaps(routes: array<Route>, n: nat, memory: bool) returns (w: nat, dropped: nat, ghost gone: set<nat>)
    requires n <= routes.Length
    requires forall k :: 0 <= k < n ==> routes[k].reach >= 0.0
    modifies routes
    ensures memory ==> Thinned(LeapsOf(old(routes[..n]), n), gone)
    ensures memory ==> forall k :: k in gone <==> 0 <= k < n && Superfluous(old(routes[..n]), gone, k)
    ensures !memory ==> gone == {}
    ensures w <= n && dropped == n - w
    ensures routes[..w] == Remaining(old(routes[..n]), gone, n) && routes[n..] == old(routes[n..])
  {
    hide *;
    ghost var was := routes[..n];
    var leaps := LeapsOf(routes[..n], n);
    gone := {};
    NoneGone(was, n);
    if |leaps| < 2 || !memory {
      if |leaps| < 2 {
        FewLeapsStay(leaps);
        ThinnedMeans(was, {});
      }
      return n, 0, {};
    }
    var order, byTarget := Sort(NearestFirst, leaps), Sort(ByTarget, leaps);
    SortedLeaps(was, n);
    var out := Judge(order, byTarget);
    gone := out;
    JudgedIsThinned(leaps, order, gone);
    ThinnedMeans(was, gone);
    w := Compact(routes, n, out);
    dropped := n - w;
  }

  lemma FewLeapsStay(leaps: seq<Leap>)
    requires |leaps| < 2
    ensures Thinned(leaps, {})
  {
  }

  lemma {:induction false} NoneGone(routes: seq<Route>, n: nat)
    requires n <= |routes|
    ensures Remaining(routes, {}, n) == routes[..n]
  {
    if n > 0 {
      NoneGone(routes, n - 1);
      assert routes[..n] == routes[..n - 1] + [routes[n - 1]];
    } else {
      assert routes[..n] == [];
    }
  }

  lemma SortedLeaps(routes: seq<Route>, n: nat)
    requires n <= |routes| && forall k :: 0 <= k < n ==> routes[k].reach >= 0.0
    ensures var leaps := LeapsOf(routes, n);
            var order, byTarget := Sort(NearestFirst, leaps), Sort(ByTarget, leaps);
            && InOrder(NearestFirst, order) && DistinctKeys(order) && InOrder(ByTarget, byTarget)
            && (forall h :: h in byTarget ==> h.reach >= 0.0)
            && (forall h :: h in order <==> h in byTarget)
            && (forall h :: h in order <==> h in leaps)
  {
    var leaps := LeapsOf(routes, n);
    var order, byTarget := Sort(NearestFirst, leaps), Sort(ByTarget, leaps);
    OrdersHold();
    SortInOrder(NearestFirst, leaps);
    SortInOrder(ByTarget, leaps);
    LeapsDistinct(routes, n);
    PermutationRepeatsNothing(leaps, order);
    Sorting.SameElements(leaps, order);
    Sorting.SameElements(leaps, byTarget);
    forall i, j | 0 <= i < j < |order| ensures order[i].k != order[j].k {
      assert order[i] in leaps && order[j] in leaps;
    }
    forall h | h in byTarget ensures h.reach >= 0.0 {
      assert h in leaps;
    }
  }

  /** Only leaps go. */
  lemma OnlyLeapsGo(routes: seq<Route>, n: nat, gone: set<nat>, k: nat)
    requires n <= |routes| && Thinned(LeapsOf(routes, n), gone) && k in gone
    ensures k < n && routes[k].isLeap
  {
    var t :| t in LeapsOf(routes, n) && t.k == k;
  }
}
