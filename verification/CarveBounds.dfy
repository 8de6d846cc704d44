/**
 * Which ground a carve must leave alone: what lies behind a plane that has the whole search box in front of it, or the
 * other way round (src/backend/aas_augment.c:948-955).
 */
module CarveBounds {
  import opened Bsp
  import opened Boxes
  import opened Carve

  /** Every point of the box is at least this far, as the plane measures, on the other side. */
  ghost predicate Apart(box: Box, p: Plane, front: bool) {
    box.NonEmpty() && forall w: Point :: box.Contains(w) ==> if front then Eval(p, w) <= -0.001 else Eval(p, w) > 0.001
  }

  /** On the way down to the point there is a plane that the whole box is on the other side of. */
  ghost predicate Beyond(planes: seq<Plane>, t: Tree, box: Box, q: Point)
    requires PlanesIn(t, |planes|)
  {
    match t
    case Leaf(_) => false
    case Split(_, plane, front, back) =>
      var side := Eval(planes[plane], q) > 0.0;
      Apart(box, planes[plane], side) || Beyond(planes, if side then front else back, box, q)
  }

  /** The same of the way down to a slot, the slot's own plane included. */
  ghost predicate SlotBeyond(planes: seq<Plane>, t: Tree, box: Box, d: Slot)
    requires PlanesIn(t, |planes|)
  {
    match t
    case Leaf(_) => false
    case Split(at, plane, front, back) =>
      if d.node == at then Apart(box, planes[plane], d.front)
      else if d.node in Indices(front) then Apart(box, planes[plane], true) || SlotBeyond(planes, front, box, d)
      else Apart(box, planes[plane], false) || SlotBeyond(planes, back, box, d)
  }

  /** The cell that the descent hands to a slot. */
  function SlotCell(planes: seq<Plane>, t: Tree, cell: Box, d: Slot): Box
    requires PlanesIn(t, |planes|)
  {
    match t
    case Leaf(_) => cell
    case Split(at, plane, front, back) =>
      if d.node == at then ClipCell(cell, planes[plane], d.front)
      else if d.node in Indices(front) then SlotCell(planes, front, ClipCell(cell, planes[plane], true), d)
      else SlotCell(planes, back, ClipCell(cell, planes[plane], false), d)
  }

  lemma PrunesIff(j: Job, p: Plane, front: bool)
    ensures Apart(j.box, p, front) ==> j.Prunes(p, front)
    ensures j.box.NonEmpty() ==> (j.Prunes(p, front) <==> Apart(j.box, p, front))
  {
    hide Eval, BoxSide;
    if j.box.NonEmpty() {
      BoxSideIff(j.box, p, PRUNE_EPS);
    }
  }

  /** A slot is taken exactly when it is a leaf slot that may be taken from, not beyond the box, and its cell is
      neither outside the surface nor wholly the new area already. */
  lemma {:induction false} TakenIff(j: Job, area: int, t: Tree, cell: Box, d: Slot)
    requires j.Valid() && PlanesIn(t, |j.planes|) && Proper(t) && j.box.NonEmpty()
    ensures d in TakenSlots(j, area, t, cell) <==>
            && d.node in Indices(t) && Under(t, d).Leaf? && !SlotBeyond(j.planes, t, j.box, d)
            && j.Takes(SlotCell(j.planes, t, cell, d), area, Under(t, d).area)
  {
    hide Apart, Job.Takes, Job.Prunes;
    TakenAreLeaves(j, area, t, cell);
    match t
    case Leaf(_) =>
    case Split(at, plane, front, back) =>
      var p := j.planes[plane];
      PrunesIff(j, p, true);
      PrunesIff(j, p, false);
      TakenIff(j, area, front, ClipCell(cell, p, true), d);
      TakenIff(j, area, back, ClipCell(cell, p, false), d);
  }

  /** No slot beyond the box is taken. */
  lemma {:induction false} BeyondIsNotTaken(j: Job, area: int, t: Tree, cell: Box, q: Point)
    requires j.Valid() && PlanesIn(t, |j.planes|) && Proper(t) && Beyond(j.planes, t, j.box, q)
    ensures forall d :: d in TakenSlots(j, area, t, cell) ==> !Passes(t, d, SignsOf(j.planes, q))
    decreases t
  {
    hide Apart, Job.Takes, Job.Prunes;
    var p, s := j.planes[t.plane], SignsOf(j.planes, q);
    var side := Side(s, t.plane);
    TakenAreLeaves(j, area, t.front, ClipCell(cell, p, true));
    TakenAreLeaves(j, area, t.back, ClipCell(cell, p, false));
    PrunesIff(j, p, side);
    if Apart(j.box, p, side) {
      forall d | d in TakenBelow(j, area, t, !side, cell)
        ensures !Passes(t, d, s)
      {
        OtherSide(t, d, s);
      }
    } else {
      BeyondIsNotTaken(j, area, t.Child(side), ClipCell(cell, p, side), q);
      forall d | d in TakenBelow(j, area, t, !side, cell)
        ensures !Passes(t, d, s)
      {
        OtherSide(t, d, s);
      }
    }
  }

  /** A slot on the side that the point does not go down is not passed. */
  lemma OtherSide(t: Tree, d: Slot, s: Signs)
    requires t.Split? && Proper(t)
    requires d.node == t.at ==> d.front != Side(s, t.plane)
    requires d.node != t.at ==> d.node in Indices(t.Child(!Side(s, t.plane)))
    ensures !Passes(t, d, s)
  {
    if d.node != t.at {
      var child := t.Child(Side(s, t.plane));
      if Passes(child, d, s) {
        PassedIsThere(child, d, s);
      }
    }
  }

  lemma {:induction false} PassedIsThere(t: Tree, d: Slot, s: Signs)
    requires Passes(t, d, s)
    ensures d.node in Indices(t)
  {
    if d.node != t.at {
      PassedIsThere(t.Child(Side(s, t.plane)), d, s);
    }
  }

  /** Ground that is not beyond the box, that the surface claims and that may be taken passes a slot taken, unless it
      has the area already. */
  lemma {:induction false} NearGroundIsTaken(j: Job, area: int, t: Tree, cell: Box, q: Point) returns (d: Slot)
    requires j.Valid() && PlanesIn(t, |j.planes|) && Proper(t) && t.Split? && j.box.NonEmpty()
    requires cell.Contains(q) && j.Claims(q) && !Beyond(j.planes, t, j.box, q)
    requires j.TakesFrom(Area(t, SignsOf(j.planes, q)))
    requires Area(t, SignsOf(j.planes, q)) != area
    ensures d in TakenSlots(j, area, t, cell) && Passes(t, d, SignsOf(j.planes, q))
    decreases t
  {
    hide Apart, Job.Prunes;
    var s := SignsOf(j.planes, q);
    var p := j.planes[t.plane];
    var side := Side(s, t.plane);
    PrunesIff(j, p, side);
    ClipKeeps(cell, p, side, q);
    var sub := ClipCell(cell, p, side);
    var child := t.Child(side);
    if child.Leaf? {
      d := Slot(t.at, side);
      NotOutside(j, sub, q);
      assert d in TakenBelow(j, area, t, side, cell);
    } else {
      d := NearGroundIsTaken(j, area, child, sub, q);
      TakenAreLeaves(j, area, child, sub);
      assert d in TakenBelow(j, area, t, side, cell);
    }
  }

  lemma NotOutside(j: Job, cell: Box, q: Point)
    requires j.Valid() && cell.Contains(q) && j.Claims(q)
    ensures !j.Outside(cell)
  {
    forall k | 0 <= k < |j.splits|
      ensures BoxSide(cell, j.planes[j.splits[k]], 0.0) != -1
    {
      BoxSideMeans(cell, j.planes[j.splits[k]], 0.0, q);
    }
  }

  /** What a carve leaves alone, whether or not it ran to its end. */
  lemma BeyondStays(j: Job, area: int, t: Tree, nodes: seq<Node>, root: int, base: nat, cur: Tree, done: set<Slot>, q: Point)
    requires CarvedSoFar(j, area, t, nodes, root, base, cur, done) && WORLD.Contains(q)
    requires PlanesIn(t, |j.planes|) && done <= TakenSlots(j, area, t, WORLD) && Beyond(j.planes, t, j.box, q)
    ensures Area(cur, SignsOf(j.planes, q)) == Area(t, SignsOf(j.planes, q))
  {
    hide TakenSlots, Beyond, Passes, Job.Claims;
    BeyondIsNotTaken(j, area, t, WORLD, q);
    assert Settled(j, area, t, cur, done, q);
  }

  /** What lookup answers after a carve that ran to its end. */
  lemma CarveAnswers(j: Job, area: int, t: Tree, nodes: seq<Node>, root: int, base: nat, cur: Tree, q: Point)
    requires j.Valid() && PlanesIn(t, |j.planes|) && t.Split? && j.box.NonEmpty()
    requires CarvedSoFar(j, area, t, nodes, root, base, cur, TakenSlots(j, area, t, WORLD)) && WORLD.Contains(q)
    ensures var s := SignsOf(j.planes, q);
            Area(cur, s) == if j.Claims(q) && j.TakesFrom(Area(t, s)) && !Beyond(j.planes, t, j.box, q) then area
                            else Area(t, s)
  {
    hide TakenSlots, Beyond;
    var s := SignsOf(j.planes, q);
    assert Settled(j, area, t, cur, TakenSlots(j, area, t, WORLD), q);
    if Beyond(j.planes, t, j.box, q) {
      BeyondStays(j, area, t, nodes, root, base, cur, TakenSlots(j, area, t, WORLD), q);
    } else if j.Claims(q) && j.TakesFrom(Area(t, s)) && Area(t, s) != area {
      var d := NearGroundIsTaken(j, area, t, WORLD, q);
    } else {
      CarveIsSound(j, area, t, nodes, root, base, cur, TakenSlots(j, area, t, WORLD), q);
    }
  }

  lemma {:induction false} BeyondLonger(planes: seq<Plane>, planes': seq<Plane>, t: Tree, box: Box, q: Point)
    requires PlanesIn(t, |planes|) && PlanesIn(t, |planes'|) && planes <= planes'
    ensures Beyond(planes, t, box, q) <==> Beyond(planes', t, box, q)
  {
    hide Apart;
    match t
    case Leaf(_) =>
    case Split(_, plane, front, back) =>
      assert planes'[plane] == planes[plane];
      BeyondLonger(planes, planes', front, box, q);
      BeyondLonger(planes, planes', back, box, q);
  }

  /** The leaf slots that a carve finds open: not beyond the box, and taken in their cell. */
  ghost function OpenSlots(j: Job, area: int, t: Tree): set<Slot>
    requires j.Valid() && PlanesIn(t, |j.planes|)
  {
    set n, f | n in Indices(t) && f in {true, false} && Under(t, Slot(n, f)).Leaf?
               && !SlotBeyond(j.planes, t, j.box, Slot(n, f))
               && j.Takes(SlotCell(j.planes, t, WORLD, Slot(n, f)), area, Under(t, Slot(n, f)).area) :: Slot(n, f)
  }

  lemma TakenAreOpen(j: Job, area: int, t: Tree)
    requires j.Valid() && PlanesIn(t, |j.planes|) && Proper(t) && j.box.NonEmpty()
    ensures TakenSlots(j, area, t, WORLD) == OpenSlots(j, area, t)
  {
    hide TakenSlots, SlotBeyond, Job.Takes, SlotCell;
    forall d
      ensures d in TakenSlots(j, area, t, WORLD) <==> d in OpenSlots(j, area, t)
    {
      TakenIff(j, area, t, WORLD, d);
      assert d == Slot(d.node, d.front);
    }
  }
}
