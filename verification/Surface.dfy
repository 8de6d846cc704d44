/**
 Carving one walkable surface into the tree: its planes, its search box and
 the effect on point lookup (src/backend/aas_augment.c:898-940).
 */
module Surface {
  import opened Bsp
  import opened Boxes
  import opened SearchTree
  import opened Carve
  import opened CarveBounds

  const MAX_CORNERS: nat := 32

  /** A convex surface, wound clockwise from +Z: n.p + d = 0 is its plane and
      inward holds the horizontal normal of each edge, pointing inside. */
  datatype Quad = Quad(corners: seq<Point>, n: Point, d: real, inward: seq<(real, real)>,
                       x0: real, y0: real, x1: real, y1: real)
  {
    predicate Valid() {
      3 <= |corners| <= MAX_CORNERS && |inward| == |corners|
    }

    /** The face plane, offset vertically; the offset is scaled by n.z so that
        a tilted face keeps it. */
    function FacePlane(): Plane {
      Plane(n.x, n.y, n.z, d + BSP_FLOOR_EPS * n.z)
    }

    function EdgePlane(i: nat): Plane
      requires Valid() && i < |corners|
    {
      Plane(inward[i].0, inward[i].1, 0.0, -(inward[i].0 * corners[i].x + inward[i].1 * corners[i].y))
    }

    /** Split plane 0 is the face, split plane 1 + i is edge i. */
    function SplitPlane(k: nat): Plane
      requires Valid() && k <= |corners|
    {
      if k == 0 then FacePlane() else EdgePlane(k - 1)
    }

    /** Above the offset face and inside every edge, strictly. */
    predicate Claims(q: Point)
      requires Valid()
    {
      forall k :: 0 <= k <= |corners| ==> InFront(SplitPlane(k), q)
    }

    function SearchBox(height: real): Box
      requires Valid()
    {
      Box(x0, y0, LowestZ(corners) - BSP_FLOOR_EPS, x1, y1, HighestZ(corners) + height)
    }
  }

  function LowestZ(c: seq<Point>): (z: real)
    requires c != []
    ensures forall i :: 0 <= i < |c| ==> z <= c[i].z
  {
    if |c| == 1 then c[0].z
    else
      var rest := LowestZ(c[..|c| - 1]);
      if c[|c| - 1].z < rest then c[|c| - 1].z else rest
  }

  function HighestZ(c: seq<Point>): (z: real)
    requires c != []
    ensures forall i :: 0 <= i < |c| ==> z >= c[i].z
  {
    if |c| == 1 then c[0].z
    else
      var rest := HighestZ(c[..|c| - 1]);
      if c[|c| - 1].z > rest then c[|c| - 1].z else rest
  }

  /** node.field4 is 1 exactly when the split plane has a Z component. */
  function Field4(c: real): int {
    if c != 0.0 then 1 else 0
  }

  /** Intern the split planes of a surface. */
  method InternSplits(m: AasTree, eff: Quad) returns (splits: seq<nat>, field4: seq<int>, ok: bool)
    requires eff.Valid()
    modifies m`planes
    ensures old(m.planes) <= m.planes
    ensures !ok ==> |m.planes| >= m.planeRoom
    ensures ok ==> |splits| == |field4| == |eff.corners| + 1
    ensures ok ==> forall k :: 0 <= k < |splits| ==> splits[k] < |m.planes| && m.planes[splits[k]] == eff.SplitPlane(k)
    ensures ok ==> forall k :: 0 <= k < |field4| ==> field4[k] == if k == 0 then 1 else 0
  {
    splits, field4, ok := [], [], true;
    var k := 0;
    while k <= |eff.corners|
      invariant 0 <= k <= |eff.corners| + 1
      invariant old(m.planes) <= m.planes
      invariant !ok ==> |m.planes| >= m.planeRoom
      invariant ok ==> |splits| == |field4| == k
      invariant ok ==> forall i :: 0 <= i < k ==> field4[i] == if i == 0 then 1 else 0
      invariant ok ==> forall i :: 0 <= i < k ==> splits[i] < |m.planes| && m.planes[splits[i]] == eff.SplitPlane(i)
    {
      var p := eff.SplitPlane(k);
      var i := m.InternPlane(p);
      if i < 0 {
        ok := false;
      } else {
        splits, field4 := splits + [i], field4 + [if k == 0 then 1 else Field4(0.0)];
      }
      k := k + 1;
    }
  }

  /** j is a job for this surface: the same planes under some indices. */
  ghost predicate JobFor(j: Job, eff: Quad, height: real, only: nat, planes: seq<Plane>) {
    && eff.Valid() && j.Valid() && j.planes == planes && j.only == only && j.box == eff.SearchBox(height)
    && |j.splits| == |eff.corners| + 1
    && forall k :: 0 <= k < |j.splits| ==> planes[j.splits[k]] == eff.SplitPlane(k)
  }

  lemma {:induction false} SameSurfaceSameSlots(j: Job, j': Job, area: int, t: Tree, cell: Box,
                                                eff: Quad, height: real, only: nat)
    requires JobFor(j, eff, height, only, j.planes) && JobFor(j', eff, height, only, j'.planes)
    requires j.planes <= j'.planes && PlanesIn(t, |j.planes|) && PlanesIn(t, |j'.planes|)
    ensures TakenSlots(j, area, t, cell) == TakenSlots(j', area, t, cell)
  {
    match t
    case Leaf(_) =>
    case Split(_, plane, front, back) =>
      assert j.planes[plane] == j'.planes[plane];
      assert forall k :: 0 <= k < |j.splits| ==> j.planes[j.splits[k]] == j'.planes[j'.splits[k]];
      var here, there := ClipCell(cell, j.planes[plane], true), ClipCell(cell, j.planes[plane], false);
      SameSurfaceSameSlots(j, j', area, front, here, eff, height, only);
      SameSurfaceSameSlots(j, j', area, back, there, eff, height, only);
      assert forall sub :: j.Outside(sub) <==> j'.Outside(sub);
      assert forall sub :: j.Inside(sub) <==> j'.Inside(sub);
      assert TakenBelow(j, area, t, true, cell) == TakenBelow(j', area, t, true, cell);
      assert TakenBelow(j, area, t, false, cell) == TakenBelow(j', area, t, false, cell);
  }

  /** A dry run over a tree counts what a real carve of the same surface over
      the same tree takes, whatever planes were interned in between, when its
      area is not in the tree yet. */
  lemma DryRunPredicts(dry: Job, carve: Job, newArea: int, t: Tree, eff: Quad, height: real, only: nat)
    requires JobFor(dry, eff, height, only, dry.planes) && JobFor(carve, eff, height, only, carve.planes)
    requires dry.planes <= carve.planes && PlanesIn(t, |dry.planes|) && PlanesIn(t, |carve.planes|)
    requires newArea !in Areas(t)
    ensures |TakenSlots(dry, 0, t, WORLD)| == |TakenSlots(carve, newArea, t, WORLD)|
  {
    SameSurfaceSameSlots(dry, carve, 0, t, WORLD, eff, height, only);
    DryTakesWhatFreshTakes(carve, newArea, t, WORLD);
  }

  /** A surface claims what is less than 9.6 below its face, or above it, and inside each of its edges. */
  lemma ClaimsMeans(eff: Quad, q: Point)
    requires eff.Valid()
    ensures eff.Claims(q) <==>
            && eff.n.x * q.x + eff.n.y * q.y + eff.n.z * (q.z + 9.6) + eff.d > 0.0
            && forall i :: 0 <= i < |eff.corners| ==>
                 eff.inward[i].0 * (q.x - eff.corners[i].x) + eff.inward[i].1 * (q.y - eff.corners[i].y) > 0.0
  {
    assert Eval(eff.SplitPlane(0), q) == eff.n.x * q.x + eff.n.y * q.y + eff.n.z * (q.z + 9.6) + eff.d;
    forall i | 0 <= i < |eff.corners|
      ensures InFront(eff.EdgePlane(i), q) <==>
              eff.inward[i].0 * (q.x - eff.corners[i].x) + eff.inward[i].1 * (q.y - eff.corners[i].y) > 0.0
    {
      InsideEdge(eff.inward[i].0, eff.inward[i].1, q.x, q.y, eff.corners[i].x, eff.corners[i].y);
    }
    EdgesDecide(eff, q);
  }

  lemma EdgesDecide(eff: Quad, q: Point)
    requires eff.Valid()
    ensures eff.Claims(q) <==>
            InFront(eff.SplitPlane(0), q) && forall i :: 0 <= i < |eff.corners| ==> InFront(eff.EdgePlane(i), q)
  {
    hide InFront;
    if eff.Claims(q) {
      forall i | 0 <= i < |eff.corners|
        ensures InFront(eff.EdgePlane(i), q)
      {
        assert InFront(eff.SplitPlane(1 + i), q);
      }
    }
  }

  lemma InsideEdge(a: real, b: real, x: real, y: real, cx: real, cy: real)
    ensures a * x + b * y - (a * cx + b * cy) == a * (x - cx) + b * (y - cy)
  {
  }

  /** The search box reaches from 9.6 under the lowest corner to the given height over the highest. */
  lemma SearchBoxMeans(eff: Quad, height: real, q: Point)
    requires eff.Valid()
    ensures eff.SearchBox(height).Contains(q) <==>
            && eff.x0 <= q.x <= eff.x1 && eff.y0 <= q.y <= eff.y1
            && (exists i :: 0 <= i < |eff.corners| && eff.corners[i].z - 9.6 <= q.z)
            && exists i :: 0 <= i < |eff.corners| && q.z <= eff.corners[i].z + height
  {
    var i := LowestIs(eff.corners);
    var k := HighestIs(eff.corners);
  }

  lemma {:induction false} LowestIs(c: seq<Point>) returns (i: nat)
    requires c != []
    ensures i < |c| && LowestZ(c) == c[i].z
  {
    if |c| == 1 {
      i := 0;
    } else {
      i := LowestIs(c[..|c| - 1]);
      i := if c[|c| - 1].z < LowestZ(c[..|c| - 1]) then |c| - 1 else i;
    }
  }

  lemma {:induction false} HighestIs(c: seq<Point>) returns (i: nat)
    requires c != []
    ensures i < |c| && HighestZ(c) == c[i].z
  {
    if |c| == 1 {
      i := 0;
    } else {
      i := HighestIs(c[..|c| - 1]);
      i := if c[|c| - 1].z > HighestZ(c[..|c| - 1]) then |c| - 1 else i;
    }
  }

  /**
   * Splice a surface into the tree as `area`, taking only from `only` when that is not zero. `complete` is false when
   * there is no tree, or a lump filled up on the way. Ground beyond the search box stays as it was; a complete carve
   * gives the area to exactly the other ground that the surface claims and may take, and takes the open slots.
   */
  method CarveLeaves(m: AasTree, height: real, area: nat, eff: Quad, only: nat, dry: bool, ghost t: Tree)
    returns (carved: nat, ghost complete: bool, ghost cur: Tree, ghost j: Job)
    requires eff.Valid() && m.Holds(t)
    requires Depth(t) + |eff.corners| + 1 <= MAX_STEPS
    modifies m`planes, m`nodes
    ensures m.Holds(cur) && Depth(cur) <= Depth(t) + |eff.corners| + 1
    ensures dry ==> m.nodes == old(m.nodes) && cur == t
    ensures PlanesIn(t, |m.planes|)
    ensures forall q: Point :: WORLD.Contains(q) && Beyond(m.planes, t, eff.SearchBox(height), q) ==>
      m.AreaAt(q) == old(m.AreaAt(q))
    ensures !dry && complete && eff.SearchBox(height).NonEmpty() ==> forall q: Point :: WORLD.Contains(q) ==>
      m.AreaAt(q) == if eff.Claims(q) && old(m.AreaAt(q)) != 0 && (only == 0 || old(m.AreaAt(q)) == only)
                        && !Beyond(m.planes, t, eff.SearchBox(height), q)
                     then area else old(m.AreaAt(q))
    ensures forall q: Point :: WORLD.Contains(q) && m.AreaAt(q) != old(m.AreaAt(q)) ==>
      && !dry && m.AreaAt(q) == area && eff.Claims(q)
      && old(m.AreaAt(q)) != 0 && (only == 0 || old(m.AreaAt(q)) == only)
    ensures !dry && complete ==> forall q: Point ::
      (WORLD.Contains(q) && eff.SearchBox(height).Contains(q) && eff.Claims(q)
       && old(m.AreaAt(q)) != 0 && (only == 0 || old(m.AreaAt(q)) == only)) ==> m.AreaAt(q) == area
    ensures eff.n.z != 0.0 ==> Flagged(m.nodes, m.planes, |old(m.nodes)|)
    ensures m.root <= 0 || j.splits == [] ==> carved == 0
    ensures !complete ==> m.root <= 0 || |m.nodes| >= m.nodeRoom || |m.planes| >= m.planeRoom
    ensures complete ==> JobFor(j, eff, height, only, m.planes) && PlanesIn(t, |j.planes|)
                         && carved == |TakenSlots(j, area, t, WORLD)|
                         && (eff.SearchBox(height).NonEmpty() ==> carved == |OpenSlots(j, area, t)|)
  {
    hide Beyond, TakenSlots, OpenSlots, Lookup, Area, Spells, Proper, Depth, PlanesIn, SignsOf, InFront;
    carved, complete, cur, j := 0, false, t, Job([], [], [], WORLD, 0);
    FlaggedNone(m.nodes, m.planes);
    ghost var planes := m.planes;
    var splits, field4, ok := InternSplits(m, eff);
    SpellsFrame(m.nodes, |planes|, m.root, t, m.nodes, |m.planes|);
    SpellsPlanesIn(m.nodes, |m.planes|, m.root, t);
    forall q: Point
      ensures m.AreaAt(q) == Area(t, SignsOf(m.planes, q)) == old(m.AreaAt(q))
    {
      LookupIsArea(m.nodes, m.root, t, SignsOf(m.planes, q), MAX_STEPS);
      LookupIsArea(m.nodes, m.root, t, SignsOf(planes, q), MAX_STEPS);
      AreaOfLongerSigns(m.nodes, m.root, t, SignsOf(planes, q), SignsOf(m.planes, q));
    }
    if !ok {
      return;
    }
    var job := Job(m.planes, splits, field4, eff.SearchBox(height), only);
    j := job;
    FlaggedNone(m.nodes, m.planes);
    assert eff.n.z != 0.0 ==> job.Marks();
    hide Flagged;
    assert forall q: Point :: eff.Claims(q) <==> j.Claims(q);
    if m.root <= 0 {
      return;
    }
    ghost var done;
    carved, complete, cur, done := Search(m, job, area, dry, t);
    if job.box.NonEmpty() {
      TakenAreOpen(job, area, t);
    }
    if dry {
      cur := t;
      return;
    }
    GrownFacts(t, cur, |splits|, |old(m.nodes)|);
    forall q: Point | WORLD.Contains(q)
      ensures m.AreaAt(q) == Area(cur, SignsOf(m.planes, q))
    {
      LookupIsArea(m.nodes, m.root, cur, SignsOf(m.planes, q), MAX_STEPS);
    }
    forall q: Point | WORLD.Contains(q) && m.AreaAt(q) != old(m.AreaAt(q))
      ensures m.AreaAt(q) == area && eff.Claims(q) && j.TakesFrom(old(m.AreaAt(q)))
    {
      CarveIsSound(j, area, t, m.nodes, m.root, |old(m.nodes)|, cur, done, q);
    }
    forall q: Point | WORLD.Contains(q) && Beyond(m.planes, t, job.box, q)
      ensures m.AreaAt(q) == old(m.AreaAt(q))
    {
      BeyondStays(j, area, t, m.nodes, m.root, |old(m.nodes)|, cur, done, q);
    }
    if complete && job.box.NonEmpty() {
      forall q: Point | WORLD.Contains(q)
        ensures m.AreaAt(q) == if eff.Claims(q) && j.TakesFrom(old(m.AreaAt(q))) && !Beyond(m.planes, t, job.box, q)
                               then area else old(m.AreaAt(q))
      {
        CarveAnswers(j, area, t, m.nodes, m.root, |old(m.nodes)|, cur, q);
      }
    }
    if complete {
      forall q: Point | WORLD.Contains(q) && j.box.Contains(q) && eff.Claims(q) && j.TakesFrom(old(m.AreaAt(q)))
        ensures m.AreaAt(q) == area
      {
        CarveIsComplete(j, area, t, m.nodes, m.root, |old(m.nodes)|, cur, q);
      }
    }
  }
}
