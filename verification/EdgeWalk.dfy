/**
 Following a platform's edge through the search tree
 (src/backend/aas_augment.c:2001-2072).

 The edge is a segment of parameters 0 to 1. The walk cuts it where it crosses
 a node's plane, and at a leaf where its height over that leaf's floor passes
 one step up or down. Every piece it emits is one area's ground along the edge.
 */
module EdgeWalk {
  import opened Bsp
  import opened SearchTree

  const MAX_VISITS: nat := 131072

  /** Shorter pieces than this are dropped. */
  const THIN: real := 0.000000001

  /** A smaller rise over the whole edge is not searched for step crossings. */
  const FLAT: real := 0.0000000001

  /** What a leaf offers to stand on: its floor's plane, or the top of its box. */
  datatype Ground = NoGround | Top(z: real) | Floor(plane: Plane)

  datatype Segment = Segment(lo: real, hi: real, area: int)

  function Height(g: Ground, q: Point): real {
    match g
    case NoGround => 0.0
    case Top(z) => z
    case Floor(p) => if p.c == 0.0 then 0.0 else -(p.a * q.x + p.b * q.y + p.d) / p.c
  }

  datatype Edge = Edge(nodes: seq<Node>, planes: seq<Plane>, ground: int -> Ground,
                       origin: Point, delta: Point, step: real) {

    function At(t: real): Point {
      Point(origin.x + t * delta.x, origin.y + t * delta.y, origin.z + t * delta.z)
    }

    predicate Standable(area: int) {
      area > 0 && !ground(area).NoGround?
    }

    /** Height of the edge over an area's ground. */
    function Rise(area: int, t: real): real {
      At(t).z - Height(ground(area), At(t))
    }

    /** The rise at 0 and its change over the edge, as the walk computes them. */
    function Rise0(area: int): real {
      origin.z - Height(ground(area), origin)
    }

    function Slope(area: int): real {
      var end := Point(origin.x + delta.x, origin.y + delta.y, origin.z + delta.z);
      delta.z - match ground(area)
                case Floor(_) => Height(ground(area), end) - Height(ground(area), origin)
                case _ => 0.0
    }

    /** Lookup of the point at t, going on from a node `depth` levels down. */
    function AreaAt(node: int, depth: nat, t: real): int
      requires depth <= MAX_STEPS
    {
      Lookup(nodes, node, SignsOf(planes, At(t)), MAX_STEPS - depth)
    }
  }

  predicate Steep(x: real) {
    x > FLAT || x < -FLAT
  }

  function Limit(e: Edge, up: bool): real {
    if up then e.step else -e.step
  }

  // ---- real arithmetic along the edge ----

  lemma EvalAlong(e: Edge, p: Plane, t: real)
    ensures Eval(p, e.At(t)) == Eval(p, e.origin) + t * (p.a * e.delta.x + p.b * e.delta.y + p.c * e.delta.z)
  {
    assert p.a * (t * e.delta.x) == t * (p.a * e.delta.x);
    assert p.b * (t * e.delta.y) == t * (p.b * e.delta.y);
    assert p.c * (t * e.delta.z) == t * (p.c * e.delta.z);
  }

  /** An affine function is on one side of zero when both ends are. */
  lemma SameSide(a: real, b: real, lo: real, hi: real, t: real)
    requires lo <= t <= hi
    requires (a + b * lo > 0.0) == (a + b * hi > 0.0)
    ensures (a + b * t > 0.0) == (a + b * lo > 0.0)
  {
    if b >= 0.0 {
      assert b * lo <= b * t <= b * hi;
    } else {
      assert b * lo >= b * t >= b * hi;
    }
  }

  /** It crosses zero once otherwise. */
  lemma Crossing(a: real, b: real, lo: real, hi: real)
    requires lo <= hi && (a + b * lo > 0.0) != (a + b * hi > 0.0)
    ensures b != 0.0 && lo <= -a / b <= hi
  {
    assert b != 0.0;
    var x := -a / b;
    assert a + b * lo == b * (lo - x) && a + b * hi == b * (hi - x);
    if lo != x && hi != x {
      SignOfProduct(b, lo - x);
      SignOfProduct(b, hi - x);
    }
  }

  lemma BesideCrossing(a: real, b: real, t: real, end: real)
    requires b != 0.0 && ((t < -a / b && end < -a / b) || (t > -a / b && end > -a / b))
    ensures (a + b * t > 0.0) == (a + b * end > 0.0)
  {
    var x := -a / b;
    assert a + b * t == b * (t - x) && a + b * end == b * (end - x);
    SignOfProduct(b, t - x);
    SignOfProduct(b, end - x);
  }

  lemma SignOfProduct(b: real, x: real)
    requires b != 0.0 && x != 0.0
    ensures b * x > 0.0 <==> (b > 0.0) == (x > 0.0)
  {
    if b > 0.0 && x > 0.0 {
      assert b * x > 0.0;
    } else if b > 0.0 {
      assert b * (-x) > 0.0;
    } else if x > 0.0 {
      assert (-b) * x > 0.0;
    } else {
      assert (-b) * (-x) > 0.0;
    }
  }

  /** The rise is affine in the parameter. */
  lemma RiseAlong(e: Edge, area: int, t: real)
    ensures e.Rise(area, t) == e.Rise0(area) + t * e.Slope(area)
  {
    match e.ground(area)
    case NoGround =>
    case Top(z) =>
    case Floor(p) =>
      if p.c == 0.0 {
      } else {
        var g := e.ground(area);
        var end := Point(e.origin.x + e.delta.x, e.origin.y + e.delta.y, e.origin.z + e.delta.z);
        var zt, zo, ze := Height(g, e.At(t)), Height(g, e.origin), Height(g, end);
        assert zt * p.c == -(p.a * e.At(t).x + p.b * e.At(t).y + p.d);
        assert zo * p.c == -(p.a * e.origin.x + p.b * e.origin.y + p.d);
        assert ze * p.c == -(p.a * end.x + p.b * end.y + p.d);
        var rise := -(p.a * e.delta.x + p.b * e.delta.y);
        assert (ze - zo) * p.c == rise;
        assert p.a * (t * e.delta.x) == t * (p.a * e.delta.x) && p.b * (t * e.delta.y) == t * (p.b * e.delta.y);
        assert (zt - zo) * p.c == t * rise;
        assert (zt - zo) * p.c == (t * (ze - zo)) * p.c;
        Cancel(zt - zo, t * (ze - zo), p.c);
      }
  }

  lemma Cancel(x: real, y: real, c: real)
    requires c != 0.0 && x * c == y * c
    ensures x == y
  {
    assert (x - y) * c == 0.0;
  }

  // ---- what the pieces are for ----

  /** Every point strictly inside the piece is found in its area. */
  ghost predicate Resolves(e: Edge, node: int, depth: nat, g: Segment)
    requires depth <= MAX_STEPS
  {
    forall t :: g.lo < t < g.hi ==> e.AreaAt(node, depth, t) == g.area
  }

  /** The rise does not pass the limit strictly inside the piece. */
  ghost predicate OneSide(e: Edge, g: Segment, limit: real) {
    || (forall t :: g.lo < t < g.hi ==> e.Rise(g.area, t) < limit)
    || (forall t :: g.lo < t < g.hi ==> e.Rise(g.area, t) > limit)
    || (forall t :: g.lo < t < g.hi ==> e.Rise(g.area, t) == limit)
  }

  /** A rise too small to be searched, but not zero, may still pass a limit. */
  predicate Searched(e: Edge, area: int) {
    Steep(e.Slope(area)) || e.Slope(area) == 0.0
  }

  ghost predicate Sound(e: Edge, node: int, depth: nat, g: Segment)
    requires depth <= MAX_STEPS
  {
    && g.hi - g.lo >= THIN && Resolves(e, node, depth, g) && e.Standable(g.area)
    && (Searched(e, g.area) ==> OneSide(e, g, e.step) && OneSide(e, g, -e.step))
  }

  /** Pieces in increasing order within [lo, hi]. */
  ghost predicate Ordered(segments: seq<Segment>, lo: real, hi: real) {
    && lo <= hi
    && (forall i :: 0 <= i < |segments| ==> lo <= segments[i].lo <= segments[i].hi <= hi)
    && forall i, k :: 0 <= i < k < |segments| ==> segments[i].hi <= segments[k].lo
  }

  ghost predicate AllSound(e: Edge, node: int, depth: nat, lo: real, hi: real, segments: seq<Segment>)
    requires depth <= MAX_STEPS
  {
    Ordered(segments, lo, hi) && forall i :: 0 <= i < |segments| ==> Sound(e, node, depth, segments[i])
  }

  ghost predicate In(t: real, segments: seq<Segment>) {
    exists i :: 0 <= i < |segments| && segments[i].lo <= t <= segments[i].hi
  }

  /** Whatever can be stood on is emitted or lies in a dropped piece. */
  ghost predicate Covers(e: Edge, node: int, depth: nat, lo: real, hi: real, segments: seq<Segment>, dropped: seq<Segment>)
    requires depth <= MAX_STEPS
  {
    forall t :: lo < t < hi && e.Standable(e.AreaAt(node, depth, t)) ==> In(t, segments) || In(t, dropped)
  }

  ghost predicate AllThin(dropped: seq<Segment>) {
    forall i :: 0 <= i < |dropped| ==> dropped[i].hi - dropped[i].lo < THIN
  }

  // ---- internal nodes ----

  function A(e: Edge, p: Plane): real {
    Eval(p, e.origin)
  }

  function B(e: Edge, p: Plane): real {
    p.a * e.delta.x + p.b * e.delta.y + p.c * e.delta.z
  }

  predicate Known(e: Edge, node: int) {
    0 < node < |e.nodes| && 0 <= e.nodes[node].plane < |e.planes|
  }

  function PlaneOf(e: Edge, node: int): Plane
    requires Known(e, node)
  {
    e.planes[e.nodes[node].plane]
  }

  /** The edge is in front of the node's plane at t. */
  predicate AheadOf(e: Edge, node: int, t: real)
    requires Known(e, node)
  {
    A(e, PlaneOf(e, node)) + B(e, PlaneOf(e, node)) * t > 0.0
  }

  /** Along a stretch on one side of the node's plane, lookup goes on there. */
  ghost predicate Follows(e: Edge, node: int, depth: nat, lo: real, hi: real, front: bool)
    requires Known(e, node) && depth < MAX_STEPS
  {
    forall t :: lo < t < hi ==> e.AreaAt(node, depth, t) == e.AreaAt(e.nodes[node].Child(front), depth + 1, t)
  }

  lemma FollowsSide(e: Edge, node: int, depth: nat, t: real, front: bool)
    requires Known(e, node) && depth < MAX_STEPS
    requires AheadOf(e, node, t) == front
    ensures e.AreaAt(node, depth, t) == e.AreaAt(e.nodes[node].Child(front), depth + 1, t)
  {
    EvalAlong(e, PlaneOf(e, node), t);
    var s := SignsOf(e.planes, e.At(t));
    assert s[e.nodes[node].plane] == front;
  }

  lemma FollowsWhole(e: Edge, node: int, depth: nat, lo: real, hi: real, front: bool)
    requires Known(e, node) && depth < MAX_STEPS
    requires front == AheadOf(e, node, lo)
    requires front == AheadOf(e, node, hi)
    ensures Follows(e, node, depth, lo, hi, front)
  {
    forall t | lo < t < hi
      ensures e.AreaAt(node, depth, t) == e.AreaAt(e.nodes[node].Child(front), depth + 1, t)
    {
      SameSide(A(e, PlaneOf(e, node)), B(e, PlaneOf(e, node)), lo, hi, t);
      FollowsSide(e, node, depth, t, front);
    }
  }

  lemma FollowsHalves(e: Edge, node: int, depth: nat, lo: real, hi: real) returns (cut: real)
    requires Known(e, node) && depth < MAX_STEPS && lo <= hi
    requires AheadOf(e, node, lo)
             != AheadOf(e, node, hi)
    ensures B(e, PlaneOf(e, node)) != 0.0 && cut == -A(e, PlaneOf(e, node)) / B(e, PlaneOf(e, node)) && lo <= cut <= hi
    ensures Follows(e, node, depth, lo, cut, AheadOf(e, node, lo))
    ensures Follows(e, node, depth, cut, hi, AheadOf(e, node, hi))
  {
    hide Follows;
    var a, b := A(e, PlaneOf(e, node)), B(e, PlaneOf(e, node));
    Crossing(a, b, lo, hi);
    cut := -a / b;
    FollowsTo(e, node, depth, cut, lo, lo, cut);
    FollowsTo(e, node, depth, cut, hi, cut, hi);
  }

  /** Between the crossing and one end lookup goes on as at that end. */
  lemma FollowsTo(e: Edge, node: int, depth: nat, cut: real, end: real, lo: real, hi: real)
    requires Known(e, node) && depth < MAX_STEPS && B(e, PlaneOf(e, node)) != 0.0
    requires cut == -A(e, PlaneOf(e, node)) / B(e, PlaneOf(e, node))
    requires (lo == end && hi == cut) || (lo == cut && hi == end)
    ensures Follows(e, node, depth, lo, hi, AheadOf(e, node, end))
  {
    hide Edge.AreaAt;
    var a, b := A(e, PlaneOf(e, node)), B(e, PlaneOf(e, node));
    forall t | lo < t < hi
      ensures e.AreaAt(node, depth, t) == e.AreaAt(e.nodes[node].Child(AheadOf(e, node, end)), depth + 1, t)
    {
      BesideCrossing(a, b, t, end);
      FollowsSide(e, node, depth, t, AheadOf(e, node, end));
    }
  }

  /** What a walk adds: its pieces, and the pieces it dropped. */
  datatype Walked = Walked(segments: seq<Segment>, dropped: seq<Segment>)

  ghost predicate Yields(e: Edge, node: int, depth: nat, lo: real, hi: real, w: Walked)
    requires depth <= MAX_STEPS
  {
    AllSound(e, node, depth, lo, hi, w.segments) && AllThin(w.dropped)
  }

  ghost predicate Full(e: Edge, node: int, depth: nat, lo: real, hi: real, w: Walked)
    requires depth <= MAX_STEPS
  {
    Yields(e, node, depth, lo, hi, w) && Covers(e, node, depth, lo, hi, w.segments, w.dropped)
  }

  lemma WalkChild(e: Edge, node: int, depth: nat, lo: real, hi: real, front: bool, w: Walked)
    requires Known(e, node) && depth < MAX_STEPS && Follows(e, node, depth, lo, hi, front)
    ensures Yields(e, e.nodes[node].Child(front), depth + 1, lo, hi, w) ==> Yields(e, node, depth, lo, hi, w)
    ensures Full(e, e.nodes[node].Child(front), depth + 1, lo, hi, w) ==> Full(e, node, depth, lo, hi, w)
  {
    var child := e.nodes[node].Child(front);
    if Yields(e, child, depth + 1, lo, hi, w) {
      forall i | 0 <= i < |w.segments| ensures Sound(e, node, depth, w.segments[i]) {
        assert Sound(e, child, depth + 1, w.segments[i]);
      }
    }
  }

  function Both(a: Walked, b: Walked): Walked {
    Walked(a.segments + b.segments, a.dropped + b.dropped)
  }

  function AtCut(cut: real): Walked {
    Walked([], [Segment(cut, cut, 0)])
  }

  lemma BothAtCut(a: Walked, cut: real, b: Walked)
    ensures var w := Both(Both(a, AtCut(cut)), b);
            w.segments == a.segments + b.segments && |w.dropped| == |a.dropped| + 1 + |b.dropped|
  {
  }

  lemma InEither(t: real, a: seq<Segment>, b: seq<Segment>)
    ensures In(t, a + b) <==> In(t, a) || In(t, b)
  {
    if In(t, a) {
      var i :| 0 <= i < |a| && a[i].lo <= t <= a[i].hi;
      assert (a + b)[i] == a[i];
    }
    if In(t, b) {
      var i :| 0 <= i < |b| && b[i].lo <= t <= b[i].hi;
      assert (a + b)[|a| + i] == b[i];
    }
  }

  /** Two stretches side by side; the point between them counts as dropped. */
  lemma WalkBoth(e: Edge, node: int, depth: nat, lo: real, cut: real, hi: real, a: Walked, b: Walked)
    requires depth <= MAX_STEPS && lo <= cut <= hi
    requires Yields(e, node, depth, lo, cut, a) && Yields(e, node, depth, cut, hi, b)
    ensures Yields(e, node, depth, lo, hi, Both(Both(a, AtCut(cut)), b))
    ensures Full(e, node, depth, lo, cut, a) && Full(e, node, depth, cut, hi, b) ==>
      Full(e, node, depth, lo, hi, Both(Both(a, AtCut(cut)), b))
  {
    var w := Both(Both(a, AtCut(cut)), b);
    assert w.segments == a.segments + b.segments;
    if Full(e, node, depth, lo, cut, a) && Full(e, node, depth, cut, hi, b) {
      forall t | lo < t < hi && e.Standable(e.AreaAt(node, depth, t))
        ensures In(t, w.segments) || In(t, w.dropped)
      {
        InEither(t, a.segments, b.segments);
        InEither(t, a.dropped + AtCut(cut).dropped, b.dropped);
        InEither(t, a.dropped, AtCut(cut).dropped);
        if t == cut {
          assert AtCut(cut).dropped[0].lo <= t <= AtCut(cut).dropped[0].hi;
        }
      }
    }
  }

  /** The two sides of a plane that the stretch crosses, each walked down its own child. */
  lemma WalkAcross(e: Edge, node: int, depth: nat, lo: real, cut: real, hi: real, front: bool, a: Walked, b: Walked)
    requires Known(e, node) && depth < MAX_STEPS && lo <= cut <= hi
    requires Follows(e, node, depth, lo, cut, front) && Follows(e, node, depth, cut, hi, !front)
    requires Yields(e, e.nodes[node].Child(front), depth + 1, lo, cut, a)
    requires Yields(e, e.nodes[node].Child(!front), depth + 1, cut, hi, b)
    ensures var w := Both(Both(a, AtCut(cut)), b);
            && Yields(e, node, depth, lo, hi, w)
            && w.segments == a.segments + b.segments && |w.dropped| == |a.dropped| + 1 + |b.dropped|
            && ((Full(e, e.nodes[node].Child(front), depth + 1, lo, cut, a)
                 && Full(e, e.nodes[node].Child(!front), depth + 1, cut, hi, b)) ==> Full(e, node, depth, lo, hi, w))
  {
    hide Follows, Yields, Full, Both, AtCut;
    WalkChild(e, node, depth, lo, cut, front, a);
    WalkChild(e, node, depth, cut, hi, !front, b);
    WalkBoth(e, node, depth, lo, cut, hi, a, b);
    BothAtCut(a, cut, b);
  }

  // ---- leaves ----

  function CrossingAt(e: Edge, area: int, up: bool): real
    requires e.Slope(area) != 0.0
  {
    (Limit(e, up) - e.Rise0(area)) / e.Slope(area)
  }

  /** The rise is past the limit on one side of the crossing. */
  lemma RiseSide(e: Edge, area: int, up: bool, c: real, t: real)
    requires e.Slope(area) != 0.0 && c == (Limit(e, up) - e.Rise0(area)) / e.Slope(area)
    ensures t == c ==> e.Rise(area, t) == Limit(e, up)
    ensures t != c ==> e.Rise(area, t) != Limit(e, up)
    ensures t != c ==> (e.Rise(area, t) > Limit(e, up) <==> (e.Slope(area) > 0.0) == (t > c))
  {
    RiseAlong(e, area, t);
    AffineSide(e.Rise0(area), e.Slope(area), Limit(e, up), c, t);
  }

  lemma AffineSide(z0: real, slope: real, limit: real, c: real, t: real)
    requires slope != 0.0 && c == (limit - z0) / slope
    ensures t == c ==> z0 + t * slope == limit
    ensures t != c ==> z0 + t * slope != limit
    ensures t != c ==> (z0 + t * slope > limit <==> (slope > 0.0) == (t > c))
  {
    assert c * slope == limit - z0;
    assert z0 + t * slope - limit == slope * (t - c);
    if t != c {
      SignOfProduct(slope, t - c);
      SignOfProduct(slope, c - t);
      assert slope * (c - t) == -(slope * (t - c));
    }
  }

  /** No limit is passed strictly between x and y. */
  lemma OneSideBetween(e: Edge, g: Segment, up: bool)
    requires Steep(e.Slope(g.area)) ==> !(g.lo < CrossingAt(e, g.area, up) < g.hi)
    requires Searched(e, g.area)
    ensures OneSide(e, g, Limit(e, up))
  {
    forall t | g.lo < t < g.hi
      ensures e.Slope(g.area) == 0.0 ==> e.Rise(g.area, t) == e.Rise0(g.area)
      ensures e.Slope(g.area) != 0.0 ==>
        var c := CrossingAt(e, g.area, up);
        && e.Rise(g.area, t) != Limit(e, up)
        && (e.Rise(g.area, t) > Limit(e, up) <==> (e.Slope(g.area) > 0.0) == (g.lo >= c))
    {
      RiseAlong(e, g.area, t);
      if e.Slope(g.area) != 0.0 {
        RiseSide(e, g.area, up, CrossingAt(e, g.area, up), t);
      }
    }
  }

  predicate Sorted(cuts: seq<real>, n: nat)
    requires n <= |cuts|
  {
    forall i, k :: 0 <= i < k < n ==> cuts[i] <= cuts[k]
  }

  lemma SameElements(a: seq<real>, b: seq<real>)
    requires multiset(a) == multiset(b)
    ensures forall x :: x in a <==> x in b
  {
    forall x ensures x in a <==> x in b {
      assert x in a <==> x in multiset(a);
      assert x in b <==> x in multiset(b);
    }
  }

  function Swapped(cuts: seq<real>, j: nat): (next: seq<real>)
    requires 0 < j < |cuts|
    ensures |next| == |cuts| && next[j] == cuts[j - 1] && next[j - 1] == cuts[j]
    ensures forall i :: 0 <= i < |cuts| && i != j && i != j - 1 ==> next[i] == cuts[i]
    ensures multiset(next) == multiset(cuts)
  {
    cuts[j := cuts[j - 1]][j - 1 := cuts[j]]
  }

  method SortCuts(cuts: seq<real>) returns (sorted: seq<real>)
    ensures |sorted| == |cuts| && Sorted(sorted, |sorted|)
    ensures forall x :: x in cuts <==> x in sorted
  {
    hide Swapped;
    sorted := cuts;
    var k := 1;
    while k < |sorted|
      invariant |sorted| == |cuts| && multiset(sorted) == multiset(cuts)
      invariant 1 <= k && (|sorted| > 0 ==> k <= |sorted|) && Sorted(sorted, if k <= |sorted| then k else 0)
    {
      var j := k;
      while j > 0 && sorted[j] < sorted[j - 1]
        invariant |sorted| == |cuts| && multiset(sorted) == multiset(cuts) && 0 <= j <= k < |sorted|
        invariant forall i, l :: 0 <= i < l <= k && i != j && l != j ==> sorted[i] <= sorted[l]
        invariant forall l :: j < l <= k ==> sorted[j] < sorted[l]
      {
        sorted := Swapped(sorted, j);
        j := j - 1;
      }
      k := k + 1;
    }
    SameElements(cuts, sorted);
  }

  /** The ends of the stretch and the limits the rise passes inside it. */
  ghost predicate CutsOf(e: Edge, area: int, lo: real, hi: real, cuts: seq<real>) {
    && |cuts| >= 2 && Sorted(cuts, |cuts|) && cuts[0] == lo && cuts[|cuts| - 1] == hi && |cuts| <= 4
    && (!Steep(e.Slope(area)) ==> |cuts| == 2)
    && (Steep(e.Slope(area)) ==> forall up :: lo < CrossingAt(e, area, up) < hi ==> CrossingAt(e, area, up) in cuts)
  }

  /** The cuts are sorted, include both ends and every crossing searched for. */
  method Cuts(e: Edge, area: int, lo: real, hi: real) returns (cuts: seq<real>)
    requires lo <= hi
    ensures CutsOf(e, area, lo, hi, cuts)
  {
    var found := [lo, hi];
    if Steep(e.Slope(area)) {
      var down, up := CrossingAt(e, area, false), CrossingAt(e, area, true);
      if lo < down < hi {
        found := found + [down];
      }
      if lo < up < hi {
        found := found + [up];
      }
    }
    assert forall x :: x in found ==> lo <= x <= hi;
    cuts := SortCuts(found);
    CutsAre(e, area, lo, hi, found, cuts);
  }

  lemma CutsAre(e: Edge, area: int, lo: real, hi: real, found: seq<real>, cuts: seq<real>)
    requires 2 <= |found| == |cuts| <= 4 && (!Steep(e.Slope(area)) ==> |found| == 2)
    requires Sorted(cuts, |cuts|) && forall x :: x in found <==> x in cuts
    requires found[0] == lo && found[1] == hi && forall x :: x in found ==> lo <= x <= hi
    requires Steep(e.Slope(area)) ==> forall up :: lo < CrossingAt(e, area, up) < hi ==> CrossingAt(e, area, up) in found
    ensures CutsOf(e, area, lo, hi, cuts)
  {
    assert lo in found && hi in found;
    var first :| 0 <= first < |cuts| && cuts[first] == lo;
    var last :| 0 <= last < |cuts| && cuts[last] == hi;
    assert cuts[0] in found && cuts[|cuts| - 1] in found;
  }

  lemma PieceIsSound(e: Edge, area: int, depth: nat, lo: real, hi: real, cuts: seq<real>, k: nat)
    requires depth <= MAX_STEPS && CutsOf(e, area, lo, hi, cuts) && 0 < k < |cuts| 
    requires cuts[k] - cuts[k - 1] >= THIN && e.Standable(area)
    ensures Sound(e, -area, depth, Segment(cuts[k - 1], cuts[k], area))
  {
    var g := Segment(cuts[k - 1], cuts[k], area);
    if Searched(e, area) {
      forall up ensures OneSide(e, g, Limit(e, up)) {
        if Steep(e.Slope(area)) {
          var c := CrossingAt(e, area, up);
          if lo < c < hi {
            var j :| 0 <= j < |cuts| && cuts[j] == c;
          }
        }
        OneSideBetween(e, g, up);
      }
      assert OneSide(e, g, Limit(e, true)) && OneSide(e, g, Limit(e, false));
    }
  }

  /** The rise over a floor that is not flat, but too slow to be searched for step limits. */
  predicate Slow(e: Edge, area: int) {
    e.Slope(area) != 0.0 && !Steep(e.Slope(area))
  }

  /** The piece's ends lie strictly on different sides of the limit. */
  predicate Straddles(e: Edge, g: Segment, limit: real) {
    || e.Rise(g.area, g.lo) < limit < e.Rise(g.area, g.hi)
    || e.Rise(g.area, g.hi) < limit < e.Rise(g.area, g.lo)
  }

  lemma StraddlesMeans(e: Edge, g: Segment, up: bool)
    requires g.lo < g.hi && e.Slope(g.area) != 0.0
    ensures Straddles(e, g, Limit(e, up)) <==> g.lo < CrossingAt(e, g.area, up) < g.hi
  {
    RiseSide(e, g.area, up, CrossingAt(e, g.area, up), g.lo);
    RiseSide(e, g.area, up, CrossingAt(e, g.area, up), g.hi);
  }

  /** Over a slow floor a piece stays on one side of a limit exactly when its ends do not straddle it. */
  lemma SlowRiseIff(e: Edge, g: Segment, up: bool)
    requires g.lo < g.hi && Slow(e, g.area)
    ensures OneSide(e, g, Limit(e, up)) <==> !Straddles(e, g, Limit(e, up))
  {
    StraddlesMeans(e, g, up);
    var c := CrossingAt(e, g.area, up);
    if g.lo < c < g.hi {
      var t, u := (g.lo + c) / 2.0, (c + g.hi) / 2.0;
      RiseSide(e, g.area, up, c, t);
      RiseSide(e, g.area, up, c, u);
      assert g.lo < t < g.hi && g.lo < u < g.hi;
    } else {
      forall t | g.lo < t < g.hi
        ensures e.Rise(g.area, t) != Limit(e, up)
        ensures e.Rise(g.area, t) > Limit(e, up) <==> (e.Slope(g.area) > 0.0) == (g.lo >= c)
      {
        RiseSide(e, g.area, up, c, t);
      }
    }
  }

  /** A slow floor's piece that passes a limit stays within the threshold of it. */
  lemma SlowRiseIsNear(e: Edge, g: Segment, up: bool, t: real)
    requires 0.0 <= g.lo <= t <= g.hi <= 1.0 && g.lo < g.hi && Slow(e, g.area) && Straddles(e, g, Limit(e, up))
    ensures -FLAT < e.Rise(g.area, t) - Limit(e, up) < FLAT
  {
    SlowMeans(e, g.area);
    hide *;
    StraddlesMeans(e, g, up);
    var c, slope := CrossingAt(e, g.area, up), e.Slope(g.area);
    LimitAtCrossing(e, g.area, up);
    RiseIsAffine(e, g.area, t);
    RiseIsAffine(e, g.area, c);
    Near(e.Rise(g.area, t), Limit(e, up), e.Rise0(g.area), slope, t, c);
  }

  lemma SlowMeans(e: Edge, area: int)
    requires Slow(e, area)
    ensures e.Slope(area) != 0.0 && -FLAT <= e.Slope(area) <= FLAT
  {
    hide Edge.Slope;
  }

  lemma LimitAtCrossing(e: Edge, area: int, up: bool)
    requires e.Slope(area) != 0.0
    ensures e.Rise(area, CrossingAt(e, area, up)) == Limit(e, up)
  {
    RiseSide(e, area, up, CrossingAt(e, area, up), CrossingAt(e, area, up));
    hide Edge.Slope, Edge.Rise, Limit;
  }

  function Affine(z0: real, slope: real, t: real): real {
    z0 + t * slope
  }

  lemma RiseIsAffine(e: Edge, area: int, t: real)
    ensures e.Rise(area, t) == Affine(e.Rise0(area), e.Slope(area), t)
  {
    RiseAlong(e, area, t);
    hide Edge.Rise, Edge.Rise0, Edge.Slope;
  }

  lemma Near(rise: real, limit: real, z0: real, slope: real, t: real, c: real)
    requires rise == Affine(z0, slope, t) && limit == Affine(z0, slope, c)
    requires -FLAT <= slope <= FLAT && -1.0 < t - c < 1.0
    ensures -FLAT < rise - limit < FLAT
  {
    assert rise - limit == slope * (t - c);
    SmallProduct(slope, t - c);
  }

  lemma SmallProduct(x: real, y: real)
    requires -FLAT <= x <= FLAT && -1.0 < y < 1.0
    ensures -FLAT < x * y < FLAT
  {
    var a, b := if x < 0.0 then -x else x, if y < 0.0 then -y else y;
    assert a * b <= FLAT * b;
    assert x * y == a * b || x * y == -(a * b);
  }

  /** The first pieces of a leaf, up to cut k. */
  ghost predicate Landed(e: Edge, area: int, depth: nat, lo: real, upto: real, w: Walked)
    requires depth <= MAX_STEPS
  {
    && Yields(e, -area, depth, lo, upto, w)
    && forall t :: lo <= t <= upto ==> In(t, w.segments) || In(t, w.dropped) || t == lo
  }

  lemma LandPiece(e: Edge, area: int, depth: nat, lo: real, hi: real, cuts: seq<real>, k: nat, w: Walked, thin: bool)
    requires depth <= MAX_STEPS && CutsOf(e, area, lo, hi, cuts) && 0 < k < |cuts| 
    requires e.Standable(area) && Landed(e, area, depth, lo, cuts[k - 1], w)
    requires thin <==> cuts[k] - cuts[k - 1] < THIN
    ensures var g := Segment(cuts[k - 1], cuts[k], area);
            Landed(e, area, depth, lo, cuts[k], if thin then w.(dropped := w.dropped + [g]) else w.(segments := w.segments + [g]))
  {
    var g := Segment(cuts[k - 1], cuts[k], area);
    var w' := if thin then w.(dropped := w.dropped + [g]) else w.(segments := w.segments + [g]);
    if !thin {
      PieceIsSound(e, area, depth, lo, hi, cuts, k);
    }
    forall t | lo <= t <= cuts[k] ensures In(t, w'.segments) || In(t, w'.dropped) || t == lo {
      InEither(t, w.segments, [g]);
      InEither(t, w.dropped, [g]);
      if t >= cuts[k - 1] {
        assert [g][0].lo <= t <= [g][0].hi;
      }
    }
  }

  lemma LandedIsFull(e: Edge, area: int, depth: nat, lo: real, hi: real, w: Walked)
    requires depth <= MAX_STEPS && Landed(e, area, depth, lo, hi, w)
    ensures Full(e, -area, depth, lo, hi, w)
  {
  }

  lemma LandedSoFar(e: Edge, area: int, depth: nat, lo: real, upto: real, hi: real, w: Walked)
    requires depth <= MAX_STEPS && upto <= hi && Landed(e, area, depth, lo, upto, w)
    ensures Yields(e, -area, depth, lo, hi, w)
  {
  }

  lemma NothingLanded(e: Edge, node: int, depth: nat, lo: real, hi: real)
    requires depth <= MAX_STEPS && lo <= hi
    ensures Yields(e, node, depth, lo, hi, Walked([], []))
    ensures Landed(e, node, depth, lo, lo, Walked([], []))
    ensures node <= 0 && !e.Standable(-node) ==> Full(e, node, depth, lo, hi, Walked([], []))
    ensures hi - lo < THIN ==> Full(e, node, depth, lo, hi, Walked([], [Segment(lo, hi, 0)]))
  {
    if hi - lo < THIN {
      var dropped := [Segment(lo, hi, 0)];
      forall t | lo < t < hi ensures In(t, dropped) {
        assert dropped[0].lo <= t <= dropped[0].hi;
      }
    }
  }

  // ---- what the budget is enough for ----

  /** The records and leaves under a node, the ones deeper than 128 left out. */
  ghost function Places(e: Edge, node: int, depth: nat): (n: nat)
    ensures n > 0
    decreases 128 - depth
  {
    if node <= 0 || depth >= 128 || node >= |e.nodes| then 1
    else 1 + Places(e, e.nodes[node].child0, depth + 1) + Places(e, e.nodes[node].child1, depth + 1)
  }

  /** No record or plane is missing, and no path is longer than 128. */
  ghost predicate Shallow(e: Edge, node: int, depth: nat)
    decreases 129 - depth
  {
    depth <= 128 && (node > 0 ==>
      node < |e.nodes| && 0 <= e.nodes[node].plane < |e.planes| && Shallow(e, e.nodes[node].child0, depth + 1) && Shallow(e, e.nodes[node].child1, depth + 1))
  }

  lemma Below(e: Edge, node: int, depth: nat)
    ensures Shallow(e, node, depth) ==> depth <= 128 && (node > 0 ==> Known(e, node) && depth < 128)
    ensures Shallow(e, node, depth) && node > 0 ==>
      forall front :: Shallow(e, e.nodes[node].Child(front), depth + 1)
    ensures Shallow(e, node, depth) && node > 0 ==>
      var child0, child1 := e.nodes[node].Child(true), e.nodes[node].Child(false);
      Places(e, node, depth) == 1 + Places(e, child0, depth + 1) + Places(e, child1, depth + 1)
  {
  }

  // ---- the walk ----

  class EdgeWalker {
    const e: Edge
    const cap: nat
    var segments: seq<Segment>
    var visits: nat
    var failed: bool

    constructor (e: Edge, cap: nat, segments: seq<Segment>)
      ensures this.e == e && this.cap == cap && this.segments == segments && visits == 0 && !failed
    {
      this.e, this.cap, this.segments, visits, failed := e, cap, segments, 0, false;
    }

    /** The records under a node are all there, and few enough for what is left of the budget. */
    ghost predicate Fits(node: int, depth: nat)
      reads this
    {
      && !failed && Shallow(e, node, depth) && visits + Places(e, node, depth) <= 131072
      && |segments| + 3 * Places(e, node, depth) <= cap
    }

    predicate InBudget()
      reads this
    {
      !failed && visits <= MAX_VISITS
    }

    /**
     * At a leaf: the pieces cut at the step limits each stay on one side of both limits and cover the stretch up to
     * thin ones.
     */
    method Land(area: int, depth: nat, lo: real, hi: real) returns (ghost w: Walked)
      requires depth <= MAX_STEPS && lo <= hi && e.Standable(area) && visits <= MAX_VISITS && |segments| <= cap
      modifies this`segments, this`visits
      ensures |segments| <= cap
      ensures segments == old(segments) + w.segments && Yields(e, -area, depth, lo, hi, w)
      ensures visits <= MAX_VISITS ==> visits == old(visits) && |w.dropped| <= 3 && Full(e, -area, depth, lo, hi, w)
      ensures visits == old(visits) || visits == MAX_VISITS + 1
      ensures |old(segments)| + 3 <= cap ==> visits == old(visits)
      ensures |w.segments| <= 3
      ensures visits <= MAX_VISITS && Slow(e, area) && hi - lo >= THIN ==> w.segments == [Segment(lo, hi, area)]
    {
      hide Landed, Yields, Full, Edge.Slope;
      var cuts := Cuts(e, area, lo, hi);
      w := Walked([], []);
      NothingLanded(e, area, depth, lo, hi);
      assert Landed(e, area, depth, lo, lo, w);
      var k := 1;
      while k < |cuts|
        invariant 1 <= k <= |cuts| && visits == old(visits)
        invariant segments == old(segments) + w.segments && |w.dropped| < k <= 4 && |w.segments| < k
        invariant |segments| <= cap
        invariant Slow(e, area) && hi - lo >= THIN ==> w.segments == if k == 1 then [] else [Segment(lo, hi, area)]
        invariant Landed(e, area, depth, lo, cuts[k - 1], w)
      {
        LandPiece(e, area, depth, lo, hi, cuts, k, w, cuts[k] - cuts[k - 1] < THIN);
        var g := Segment(cuts[k - 1], cuts[k], area);
        if cuts[k] - cuts[k - 1] < THIN {
          w := w.(dropped := w.dropped + [g]);
        } else if |segments| >= cap {
          LandedSoFar(e, area, depth, lo, cuts[k - 1], hi, w);
          visits := MAX_VISITS + 1;
          return;
        } else {
          segments := segments + [g];
          w := w.(segments := w.segments + [g]);
        }
        k := k + 1;
      }
      LandedIsFull(e, area, depth, lo, hi, w);
      LandedSoFar(e, area, depth, lo, hi, hi, w);
    }

    /** aug_floor_intervals. Its pieces agree with lookup in any case; within
        the budget they cover everything, but for at most three thin pieces a
        visit and one more. */
    method Walk(node: int, depth: nat, lo: real, hi: real) returns (ghost w: Walked)
      requires lo <= hi && depth <= MAX_DEPTH + 1 && |segments| <= cap
      modifies this
      ensures |segments| <= cap
      ensures segments == old(segments) + w.segments && Yields(e, node, depth, lo, hi, w)
      ensures visits >= old(visits) && (old(failed) ==> failed)
      ensures InBudget() ==> Full(e, node, depth, lo, hi, w) && |w.dropped| <= 3 * (visits - old(visits)) + 1
      ensures old(Fits(node, depth)) ==> InBudget() && visits <= old(visits) + Places(e, node, depth)
                                         && |w.segments| <= 3 * Places(e, node, depth)
      decreases MAX_DEPTH + 1 - depth
    {
      hide Yields, Full, Follows, Places, Shallow, Edge.Standable, A, B, Eval, PlaneOf, Both, AtCut, AheadOf;
      w := Walked([], []);
      NothingLanded(e, node, depth, lo, hi);
      Below(e, node, depth);
      if failed || visits > MAX_VISITS || hi - lo < THIN {
        if hi - lo < THIN {
          w := Walked([], [Segment(lo, hi, 0)]);
          ThinYields(e, node, depth, lo, hi);
        }
        return;
      }
      if depth > MAX_DEPTH || visits + 1 > MAX_VISITS {
        visits := MAX_VISITS + 1;
        return;
      }
      visits := visits + 1;
      if node <= 0 {
        if e.Standable(-node) {
          w := Land(-node, depth, lo, hi);
        }
        return;
      }
      if !Known(e, node) {
        failed := true;
        return;
      }
      var p := PlaneOf(e, node);
      var front, back := AheadOf(e, node, lo), AheadOf(e, node, hi);
      if front == back {
        FollowsWhole(e, node, depth, lo, hi, front);
        w := Walk(e.nodes[node].Child(front), depth + 1, lo, hi);
        WalkChild(e, node, depth, lo, hi, front, w);
      } else {
        ghost var at := FollowsHalves(e, node, depth, lo, hi);
        var cut := -A(e, p) / B(e, p);
        ghost var w0, w1;
        w0 := Walk(e.nodes[node].Child(front), depth + 1, lo, cut);
        w1 := Walk(e.nodes[node].Child(back), depth + 1, cut, hi);
        WalkAcross(e, node, depth, lo, cut, hi, front, w0, w1);
        w := Both(Both(w0, AtCut(cut)), w1);
      }
    }
  }

  lemma ThinYields(e: Edge, node: int, depth: nat, lo: real, hi: real)
    requires depth <= MAX_STEPS && Full(e, node, depth, lo, hi, Walked([], [Segment(lo, hi, 0)]))
    ensures Yields(e, node, depth, lo, hi, Walked([], [Segment(lo, hi, 0)]))
  {
  }

  // ---- what an edge gets, in plain terms ----

  /** Parameter t's area as the records give it. */
  function AreaOn(e: Edge, root: int, t: real): int {
    Lookup(e.nodes, root, SignsOf(e.planes, e.At(t)), 65536)
  }

  /** How high the edge is over the plane of an area's floor, or over the top of its box. */
  predicate Over(e: Edge, area: int, t: real, h: real) {
    match e.ground(area)
    case NoGround => false
    case Top(z) => e.At(t).z == z + h
    case Floor(p) => p.c != 0.0 ==> Eval(p, Point(e.At(t).x, e.At(t).y, e.At(t).z - h)) == 0.0
  }

  /** A piece as an edge may have it: within the edge, not thin, of one area with ground, on one side of a step. */
  ghost predicate Lies(e: Edge, root: int, g: Segment) {
    && 0.0 <= g.lo && g.hi <= 1.0 && g.hi - g.lo >= 0.000000001
    && g.area > 0 && e.ground(g.area) != NoGround
    && (forall t :: g.lo < t < g.hi ==> AreaOn(e, root, t) == g.area)
    && (e.Slope(g.area) == 0.0 || e.Slope(g.area) > 0.0000000001 || e.Slope(g.area) < -0.0000000001 ==>
          NotAcross(e, g, e.step) && NotAcross(e, g, -e.step))
  }

  ghost predicate NotAcross(e: Edge, g: Segment, limit: real) {
    forall t, u :: g.lo < t < g.hi && g.lo < u < g.hi ==> !(e.Rise(g.area, t) < limit && e.Rise(g.area, u) > limit)
  }

  /** Every piece is as it should be, and they come in order. */
  ghost predicate AllLie(e: Edge, root: int, w: Walked) {
    && (forall i :: 0 <= i < |w.segments| ==> Lies(e, root, w.segments[i]))
    && forall i, k :: 0 <= i < k < |w.segments| ==> w.segments[i].hi <= w.segments[k].lo
  }

  /** Nothing that can be stood on is left out, but for pieces thinner than a billionth. */
  ghost predicate Everywhere(e: Edge, root: int, w: Walked) {
    && (forall i :: 0 <= i < |w.dropped| ==> w.dropped[i].hi - w.dropped[i].lo < 0.000000001)
    && forall t :: 0.0 < t < 1.0 && AreaOn(e, root, t) > 0 && e.ground(AreaOn(e, root, t)) != NoGround ==>
         In(t, w.segments) || In(t, w.dropped)
  }

  lemma RiseIsOver(e: Edge, area: int, t: real)
    requires e.ground(area) != NoGround
    ensures Over(e, area, t, e.Rise(area, t))
  {
    if e.ground(area).Floor? {
      var p, q := e.ground(area).plane, e.At(t);
      if p.c != 0.0 {
        assert Height(e.ground(area), q) * p.c == -(p.a * q.x + p.b * q.y + p.d);
      }
    }
  }

  /** Only one height is over the ground. */
  lemma OverOnce(e: Edge, area: int, t: real, h: real, k: real)
    requires Over(e, area, t, h) && Over(e, area, t, k)
    requires e.ground(area).Floor? ==> e.ground(area).plane.c != 0.0
    ensures h == k
  {
    if e.ground(area).Floor? {
      Cancel(h, k, e.ground(area).plane.c);
    }
  }

  lemma EdgeEnds(e: Edge)
    ensures e.At(0.0) == e.origin
    ensures e.At(1.0) == Point(e.origin.x + e.delta.x, e.origin.y + e.delta.y, e.origin.z + e.delta.z)
  {
  }

  lemma SideIsNotAcross(e: Edge, g: Segment, limit: real)
    requires OneSide(e, g, limit)
    ensures NotAcross(e, g, limit)
  {
  }

  lemma SoundLies(e: Edge, root: int, g: Segment)
    requires Sound(e, root, 0, g) && 0.0 <= g.lo && g.hi <= 1.0
    ensures Lies(e, root, g)
  {
    hide OneSide, NotAcross, Edge.Slope;
    forall t | g.lo < t < g.hi
      ensures AreaOn(e, root, t) == g.area
    {
      assert e.AreaAt(root, 0, t) == AreaOn(e, root, t);
    }
    if Searched(e, g.area) {
      SideIsNotAcross(e, g, e.step);
      SideIsNotAcross(e, g, -e.step);
    }
  }

  lemma YieldsLie(e: Edge, root: int, w: Walked)
    requires Yields(e, root, 0, 0.0, 1.0, w)
    ensures AllLie(e, root, w)
  {
    hide Sound, Lies;
    forall i | 0 <= i < |w.segments|
      ensures Lies(e, root, w.segments[i])
    {
      SoundLies(e, root, w.segments[i]);
    }
  }

  lemma FullEverywhere(e: Edge, root: int, w: Walked)
    requires Full(e, root, 0, 0.0, 1.0, w)
    ensures Everywhere(e, root, w)
  {
    hide Sound;
    forall t | 0.0 < t < 1.0 && AreaOn(e, root, t) > 0 && e.ground(AreaOn(e, root, t)) != NoGround
      ensures In(t, w.segments) || In(t, w.dropped)
    {
      assert e.AreaAt(root, 0, t) == AreaOn(e, root, t);
    }
  }

  /** One edge of aug_edge_segments: an edge whose walk ran out of budget gets
      none of its pieces rather than some. */
  method EdgePieces(e: Edge, root: int, cap: nat, before: seq<Segment>)
    returns (segments: seq<Segment>, failed: bool, skipped: bool, ghost w: Walked)
    requires |before| <= cap
    ensures skipped ==> segments == before
    ensures |segments| <= cap
    ensures !skipped ==> segments == before + w.segments && Yields(e, root, 0, 0.0, 1.0, w)
    ensures !skipped && !failed ==> Full(e, root, 0, 0.0, 1.0, w) && |w.dropped| <= 3 * 131072 + 1
    ensures !skipped ==> AllLie(e, root, w)
    ensures !skipped && !failed ==> Everywhere(e, root, w)
    ensures Shallow(e, root, 0) && Places(e, root, 0) <= 131072 && |before| + 3 * Places(e, root, 0) <= cap ==>
      !skipped && !failed
  {
    assert MAX_VISITS == 131072;
    hide *;
    var walker := new EdgeWalker(e, cap, before);
    FitsMeans(walker, root);
    w := walker.Walk(root, 0, 0.0, 1.0);
    YieldsLie(e, root, w);
    BudgetMeans(walker);
    segments, failed := walker.segments, walker.failed;
    skipped := walker.visits > MAX_VISITS;
    if skipped {
      segments := before;
    } else {
      if !failed {
        FullEverywhere(e, root, w);
      }
    }
  }

  lemma FitsMeans(walker: EdgeWalker, root: int)
    ensures walker.Fits(root, 0) <==>
      && !walker.failed && Shallow(walker.e, root, 0) && walker.visits + Places(walker.e, root, 0) <= 131072
      && |walker.segments| + 3 * Places(walker.e, root, 0) <= walker.cap
  {
  }

  lemma BudgetMeans(walker: EdgeWalker)
    ensures walker.InBudget() <==> !walker.failed && walker.visits <= MAX_VISITS
  {
  }

  // ---- an edge over a slow floor ----

  /** A flat floor under an edge that rises past one step up by half the threshold. */
  const SLOW := Edge([Node(0, 0, 0, 0)], [], area => if area == 1 then Top(0.0) else NoGround,
                     Point(0.0, 0.0, 1.0 - FLAT / 2.0), Point(1.0, 0.0, FLAT), 1.0)

  /** Its one piece lies below the limit at one end and above it at the other. */
  method SlowLanding() returns (segments: seq<Segment>)
    ensures segments == [Segment(0.0, 1.0, 1)] && Slow(SLOW, 1)
    ensures Straddles(SLOW, segments[0], SLOW.step) && !OneSide(SLOW, segments[0], SLOW.step)
  {
    var walker := new EdgeWalker(SLOW, 8, []);
    ghost var w := walker.Land(1, 0, 0.0, 1.0);
    segments := walker.segments;
    assert SLOW.Slope(1) == FLAT;
    SlowRiseIff(SLOW, segments[0], true);
  }
}
