/**
 Axis-aligned boxes against split planes (src/backend/aas_augment.c:844-881).
 A box carried down the tree holds every point that can reach the node.
 */
module Boxes {
  import opened Bsp

  datatype Box = Box(x0: real, y0: real, z0: real, x1: real, y1: real, z1: real) {
    predicate Contains(q: Point) {
      x0 <= q.x <= x1 && y0 <= q.y <= y1 && z0 <= q.z <= z1
    }

    predicate NonEmpty() {
      x0 <= x1 && y0 <= y1 && z0 <= z1
    }
  }

  function Least(c: real, lo: real, hi: real): real {
    c * (if c > 0.0 then lo else hi)
  }

  function Most(c: real, lo: real, hi: real): real {
    c * (if c > 0.0 then hi else lo)
  }

  /** 1 wholly in front, -1 wholly behind, 0 across. */
  function BoxSide(b: Box, p: Plane, eps: real): int {
    var lo := Least(p.a, b.x0, b.x1) + Least(p.b, b.y0, b.y1) + Least(p.c, b.z0, b.z1) + p.d;
    var hi := Most(p.a, b.x0, b.x1) + Most(p.b, b.y0, b.y1) + Most(p.c, b.z0, b.z1) + p.d;
    if lo > eps then 1 else if hi <= -eps then -1 else 0
  }

  /** The part of a cell on one side of a plane, when the plane is
      axis-aligned; any other plane leaves the cell as it is. */
  function ClipCell(cell: Box, p: Plane, front: bool): Box {
    if p.a != 0.0 && p.b == 0.0 && p.c == 0.0 then
      var t := -p.d / p.a;
      if (p.a > 0.0) == front then (if t > cell.x0 then cell.(x0 := t) else cell)
      else (if t < cell.x1 then cell.(x1 := t) else cell)
    else if p.a == 0.0 && p.b != 0.0 && p.c == 0.0 then
      var t := -p.d / p.b;
      if (p.b > 0.0) == front then (if t > cell.y0 then cell.(y0 := t) else cell)
      else (if t < cell.y1 then cell.(y1 := t) else cell)
    else if p.a == 0.0 && p.b == 0.0 && p.c != 0.0 then
      var t := -p.d / p.c;
      if (p.c > 0.0) == front then (if t > cell.z0 then cell.(z0 := t) else cell)
      else (if t < cell.z1 then cell.(z1 := t) else cell)
    else cell
  }

  lemma Spread(c: real, v: real, lo: real, hi: real)
    requires lo <= v <= hi
    ensures Least(c, lo, hi) <= c * v <= Most(c, lo, hi)
  {
    if c > 0.0 {
      assert c * (v - lo) >= 0.0 && c * (hi - v) >= 0.0;
    } else {
      assert c * (v - lo) <= 0.0 && c * (hi - v) <= 0.0;
    }
  }

  /** What a side means for the points of the box. */
  lemma BoxSideMeans(b: Box, p: Plane, eps: real, q: Point)
    requires b.Contains(q) && eps >= 0.0
    ensures BoxSide(b, p, eps) == 1 ==> InFront(p, q)
    ensures BoxSide(b, p, eps) == -1 ==> !InFront(p, q)
  {
    hide Least, Most;
    Spread(p.a, q.x, b.x0, b.x1);
    Spread(p.b, q.y, b.y0, b.y1);
    Spread(p.c, q.z, b.z0, b.z1);
  }

  lemma AxisCut(c: real, d: real, v: real)
    requires c != 0.0
    ensures c > 0.0 ==> (c * v + d > 0.0 <==> v > -d / c)
    ensures c < 0.0 ==> (c * v + d > 0.0 <==> v < -d / c)
  {
    var t := -d / c;
    assert t * c == -d;
    assert c * v + d == c * (v - t);
    if c > 0.0 {
      assert v > t ==> c * (v - t) > 0.0;
      assert v <= t ==> c * (v - t) <= 0.0;
    } else {
      assert v < t ==> c * (v - t) > 0.0;
      assert v >= t ==> c * (v - t) <= 0.0;
    }
  }

  lemma AxisSide(c: real, d: real, v: real, front: bool)
    requires c != 0.0 && (c * v + d > 0.0) == front
    ensures if (c > 0.0) == front then -d / c <= v else v <= -d / c
  {
    AxisCut(c, d, v);
  }

  /** On an axis plane only one coordinate decides. */
  lemma OneCoordinate(p: Plane, q: Point)
    ensures p.b == 0.0 && p.c == 0.0 ==> Eval(p, q) == p.a * q.x + p.d
    ensures p.a == 0.0 && p.c == 0.0 ==> Eval(p, q) == p.b * q.y + p.d
    ensures p.a == 0.0 && p.b == 0.0 ==> Eval(p, q) == p.c * q.z + p.d
  {
  }

  /** Clipping loses no point that goes down that side. */
  lemma ClipKeeps(cell: Box, p: Plane, front: bool, q: Point)
    requires cell.Contains(q) && InFront(p, q) == front
    ensures ClipCell(cell, p, front).Contains(q)
  {
    OneCoordinate(p, q);
    hide Eval;
    if p.a != 0.0 && p.b == 0.0 && p.c == 0.0 {
      AxisSide(p.a, p.d, q.x, front);
    } else if p.a == 0.0 && p.b != 0.0 && p.c == 0.0 {
      AxisSide(p.b, p.d, q.y, front);
    } else if p.a == 0.0 && p.b == 0.0 && p.c != 0.0 {
      AxisSide(p.c, p.d, q.z, front);
    }
  }

  /** The corner at which the plane's function is least, or most. */
  function Corner(b: Box, p: Plane, most: bool): Point {
    Point(if (p.a > 0.0) == most then b.x1 else b.x0,
          if (p.b > 0.0) == most then b.y1 else b.y0,
          if (p.c > 0.0) == most then b.z1 else b.z0)
  }

  lemma CornerTerm(c: real, lo: real, hi: real)
    ensures Least(c, lo, hi) == c * (if (c > 0.0) == false then hi else lo)
    ensures Most(c, lo, hi) == c * (if (c > 0.0) == true then hi else lo)
  {
  }

  lemma EvalAtCorners(b: Box, p: Plane)
    ensures Eval(p, Corner(b, p, false)) == Least(p.a, b.x0, b.x1) + Least(p.b, b.y0, b.y1) + Least(p.c, b.z0, b.z1) + p.d
    ensures Eval(p, Corner(b, p, true)) == Most(p.a, b.x0, b.x1) + Most(p.b, b.y0, b.y1) + Most(p.c, b.z0, b.z1) + p.d
  {
    CornerTerm(p.a, b.x0, b.x1);
    CornerTerm(p.b, b.y0, b.y1);
    CornerTerm(p.c, b.z0, b.z1);
    hide Least, Most;
  }

  lemma CornerBounds(b: Box, p: Plane, q: Point)
    requires b.Contains(q)
    ensures Eval(p, Corner(b, p, false)) <= Eval(p, q) <= Eval(p, Corner(b, p, true))
    ensures b.Contains(Corner(b, p, false)) && b.Contains(Corner(b, p, true))
  {
    CornersInBox(b, p);
    EvalAtCorners(b, p);
    hide Least, Most, Corner;
    Spread(p.a, q.x, b.x0, b.x1);
    Spread(p.b, q.y, b.y0, b.y1);
    Spread(p.c, q.z, b.z0, b.z1);
  }

  lemma CornersInBox(b: Box, p: Plane)
    requires b.NonEmpty()
    ensures b.Contains(Corner(b, p, false)) && b.Contains(Corner(b, p, true))
  {
  }

  /** The side of a box is the one that all of its points are on, with the margin to spare. */
  lemma BoxSideIff(b: Box, p: Plane, eps: real)
    requires b.NonEmpty() && eps >= 0.0
    ensures BoxSide(b, p, eps) == 1 <==> forall q :: b.Contains(q) ==> Eval(p, q) > eps
    ensures BoxSide(b, p, eps) == -1 <==> forall q :: b.Contains(q) ==> Eval(p, q) <= -eps
  {
    var q := Point(b.x0, b.y0, b.z0);
    CornerBounds(b, p, q);
    CornersDecide(b, p, eps);
    hide Eval, BoxSide, Corner;
    forall q | b.Contains(q)
      ensures Eval(p, Corner(b, p, false)) <= Eval(p, q) <= Eval(p, Corner(b, p, true))
    {
      CornerBounds(b, p, q);
    }
  }

  lemma CornersDecide(b: Box, p: Plane, eps: real)
    ensures Eval(p, Corner(b, p, false)) > eps ==> BoxSide(b, p, eps) == 1
    ensures BoxSide(b, p, eps) == 1 ==> Eval(p, Corner(b, p, false)) > eps
    ensures BoxSide(b, p, eps) == -1 ==> Eval(p, Corner(b, p, true)) <= -eps
    ensures Eval(p, Corner(b, p, false)) <= eps && Eval(p, Corner(b, p, true)) <= -eps ==> BoxSide(b, p, eps) == -1
  {
    EvalAtCorners(b, p);
    hide Least, Most, Corner, Eval;
  }

  /** A plane across one axis. */
  predicate AcrossAxis(p: Plane) {
    || (p.a != 0.0 && p.b == 0.0 && p.c == 0.0)
    || (p.a == 0.0 && p.b != 0.0 && p.c == 0.0)
    || (p.a == 0.0 && p.b == 0.0 && p.c != 0.0)
  }

  lemma ClosedCut(c: real, d: real, v: real, front: bool)
    requires c != 0.0
    ensures (if front then c * v + d >= 0.0 else c * v + d <= 0.0) <==>
            if (c > 0.0) == front then -d / c <= v else v <= -d / c
  {
    AxisCut(c, d, v);
    var t := -d / c;
    assert t * c == -d;
    assert c * v + d == c * (v - t);
    if c > 0.0 {
      assert v >= t ==> c * (v - t) >= 0.0;
    } else {
      assert v <= t ==> c * (v - t) >= 0.0;
    }
    if c * (v - t) == 0.0 {
      assert v == t;
    }
  }

  /** A point in front, or behind, the plane itself belonging to either side. */
  predicate OnSide(p: Plane, q: Point, front: bool) {
    if front then Eval(p, q) >= 0.0 else Eval(p, q) <= 0.0
  }

  /** Clipping keeps exactly the points on that side of a plane across an axis, and any other plane clips nothing. */
  lemma ClipIff(cell: Box, p: Plane, front: bool, q: Point)
    ensures ClipCell(cell, p, front).Contains(q) <==> cell.Contains(q) && (AcrossAxis(p) ==> OnSide(p, q, front))
  {
    if p.a != 0.0 && p.b == 0.0 && p.c == 0.0 {
      ClipX(cell, p, front, q);
    } else if p.a == 0.0 && p.b != 0.0 && p.c == 0.0 {
      ClipY(cell, p, front, q);
    } else if p.a == 0.0 && p.b == 0.0 && p.c != 0.0 {
      ClipZ(cell, p, front, q);
    }
  }

  lemma ClipX(cell: Box, p: Plane, front: bool, q: Point)
    requires p.a != 0.0 && p.b == 0.0 && p.c == 0.0
    ensures ClipCell(cell, p, front).Contains(q) <==> cell.Contains(q) && OnSide(p, q, front)
  {
    OneCoordinate(p, q);
    hide Eval;
    ClosedCut(p.a, p.d, q.x, front);
  }

  lemma ClipY(cell: Box, p: Plane, front: bool, q: Point)
    requires p.a == 0.0 && p.b != 0.0 && p.c == 0.0
    ensures ClipCell(cell, p, front).Contains(q) <==> cell.Contains(q) && OnSide(p, q, front)
  {
    OneCoordinate(p, q);
    hide Eval;
    ClosedCut(p.b, p.d, q.y, front);
  }

  lemma ClipZ(cell: Box, p: Plane, front: bool, q: Point)
    requires p.a == 0.0 && p.b == 0.0 && p.c != 0.0
    ensures ClipCell(cell, p, front).Contains(q) <==> cell.Contains(q) && OnSide(p, q, front)
  {
    OneCoordinate(p, q);
    hide Eval;
    ClosedCut(p.c, p.d, q.z, front);
  }
}
