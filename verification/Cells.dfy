/**
 Convex cells of the balanced rebuild (src/backend/aas_augment.c:1058-1223),
 with exact geometry. Finitely many planes cut space into finitely many open
 regions, one for each sequence of signs some point has; a cell is the set of
 the regions it consists of. Clipping by a plane keeps the regions on one side,
 and a cell with no region left is the NULL of the source.
 */
module Cells {
  import opened Bsp
  import opened Options

  /** leaf is the child value of the leaf: minus the area, or 0. faces are the
      planes that bound the cell, -1 for the world box. */
  datatype Cell = Cell(leaf: int, regions: set<Signs>, faces: set<int>)

  /** bounds(f, r): which of the planes f still bound the regions r. The source
      decides that by counting corners; only the choice of splitter uses it. */
  datatype Geometry = Geometry(planes: seq<Plane>, bounds: (set<int>, set<Signs>) -> set<int>) {

    /** Clipping a cell keeps exactly its regions on that side, and is NULL when there are none. */
    function Clip(cell: Cell, plane: nat, front: bool): (r: Option<Cell>)
      ensures r.Some? ==> r.value.leaf == cell.leaf && r.value.regions != {}
      ensures forall s :: s in cell.regions && Side(s, plane) == front ==> r.Some? && s in r.value.regions
      ensures r.Some? ==> forall s :: s in r.value.regions ==> s in cell.regions && Side(s, plane) == front
    {
      var kept := set s | s in cell.regions && Side(s, plane) == front;
      assert forall s :: s in cell.regions && Side(s, plane) == front ==> s in kept;
      if kept == {} then None
      else Some(Cell(cell.leaf, kept, bounds(cell.faces + {plane}, kept)))
    }

    /** One axis only: the splitter choice prefers these. */
    predicate Axial(plane: nat)
      requires plane < |planes|
    {
      var p := planes[plane];
      (if p.a != 0.0 then 1 else 0) + (if p.b != 0.0 then 1 else 0) + (if p.c != 0.0 then 1 else 0) == 1
    }

    /** The first other plane with the opposite orientation, or -1. */
    function Opposite(plane: nat, from_index: nat): int
      requires plane < |planes|
      decreases |planes| - from_index
    {
      if from_index >= |planes| then -1
      else
        var p, o := planes[plane], planes[from_index];
        if from_index != plane && o == Plane(-p.a, -p.b, -p.c, -p.d) then from_index
        else Opposite(plane, from_index + 1)
    }
  }

  /** The cell has a region on this side of the plane. */
  predicate Meets(cell: Cell, plane: nat, front: bool) {
    exists s :: s in cell.regions && Side(s, plane) == front
  }

  /** 1 wholly in front, -1 wholly behind, 0 split. */
  function CellSide(cell: Cell, plane: nat): int {
    if !Meets(cell, plane, false) then 1 else if !Meets(cell, plane, true) then -1 else 0
  }

  predicate Apart(a: Cell, b: Cell, plane: nat) {
    || (!Meets(a, plane, false) && !Meets(b, plane, true))
    || (!Meets(a, plane, true) && !Meets(b, plane, false))
  }

  ghost predicate Separated(a: Cell, b: Cell, candidates: seq<nat>) {
    exists p :: p in candidates && Apart(a, b, p)
  }

  ghost predicate GoodCell(cell: Cell, planes: nat) {
    cell.regions != {} && cell.leaf <= 0 && forall s :: s in cell.regions ==> |s| == planes
  }

  /** Non-empty cells of leaves, any two of them separated by a candidate. */
  ghost predicate BspCells(cells: seq<Cell>, candidates: seq<nat>, planes: nat) {
    && (forall p :: p in candidates ==> p < planes)
    && (forall i :: 0 <= i < |cells| ==> GoodCell(cells[i], planes))
    && (forall i, k :: 0 <= i < k < |cells| ==> Separated(cells[i], cells[k], candidates))
  }

  // ---- the planes that still tell the cells apart ----

  ghost predicate SomeMeets(cells: seq<Cell>, plane: nat, front: bool) {
    exists i :: 0 <= i < |cells| && Meets(cells[i], plane, front)
  }

  ghost predicate Tells(cells: seq<Cell>, plane: nat) {
    SomeMeets(cells, plane, true) && SomeMeets(cells, plane, false)
  }

  /** What rb_build runs out of: the candidates that still separate or split
      the listed cells. */
  ghost function Telling(cells: seq<Cell>, candidates: seq<nat>): set<nat> {
    set p | p in candidates && Tells(cells, p)
  }

  /** How many of the cells a plane leaves on one side (or splits, for 0). */
  function CountSide(cells: seq<Cell>, plane: nat, side: int): (n: nat)
    ensures n > 0 <==> exists i :: 0 <= i < |cells| && CellSide(cells[i], plane) == side
  {
    if cells == [] then 0
    else
      var last := |cells| - 1;
      assert forall i :: 0 <= i < last ==> cells[..last][i] == cells[i];
      CountSide(cells[..last], plane, side) + if CellSide(cells[last], plane) == side then 1 else 0
  }

  /** The source's test for a candidate worth scoring. */
  predicate Usable(cells: seq<Cell>, plane: nat) {
    CountSide(cells, plane, 0) > 0 || (CountSide(cells, plane, 1) > 0 && CountSide(cells, plane, -1) > 0)
  }

  lemma MeetsSomeSide(cell: Cell, plane: nat)
    requires cell.regions != {}
    ensures Meets(cell, plane, true) || Meets(cell, plane, false)
  {
    var s :| s in cell.regions;
    assert Side(s, plane) || !Side(s, plane);
  }

  /** A usable candidate is one that tells two regions apart. */
  lemma UsableTells(cells: seq<Cell>, candidates: seq<nat>, planes: nat, plane: nat)
    requires BspCells(cells, candidates, planes)
    ensures Usable(cells, plane) <==> Tells(cells, plane)
  {
    forall i | 0 <= i < |cells|
      ensures CellSide(cells[i], plane) == 1 <==> !Meets(cells[i], plane, false)
      ensures CellSide(cells[i], plane) == -1 <==> !Meets(cells[i], plane, true)
      ensures CellSide(cells[i], plane) == 0 <==> Meets(cells[i], plane, true) && Meets(cells[i], plane, false)
      ensures Meets(cells[i], plane, true) || Meets(cells[i], plane, false)
    {
      assert GoodCell(cells[i], planes);
      MeetsSomeSide(cells[i], plane);
    }
  }

  /** The "not a BSP's cells" exit cannot be taken: while two cells remain some
      candidate is usable. */
  lemma NeverStuck(cells: seq<Cell>, candidates: seq<nat>, planes: nat) returns (p: nat)
    requires BspCells(cells, candidates, planes) && |cells| >= 2
    ensures p in candidates && Usable(cells, p)
  {
    assert Separated(cells[0], cells[1], candidates);
    p :| p in candidates && Apart(cells[0], cells[1], p);
    assert GoodCell(cells[0], planes) && GoodCell(cells[1], planes);
    MeetsSomeSide(cells[0], p);
    MeetsSomeSide(cells[1], p);
    UsableTells(cells, candidates, planes, p);
  }

  /** Two cells of a BSP never share a region. */
  lemma BspCellsDisjoint(cells: seq<Cell>, candidates: seq<nat>, planes: nat, i: nat, k: nat)
    requires BspCells(cells, candidates, planes) && i < k < |cells|
    ensures cells[i].regions !! cells[k].regions
  {
    assert Separated(cells[i], cells[k], candidates);
    var p :| p in candidates && Apart(cells[i], cells[k], p);
    forall s | s in cells[i].regions ensures s !in cells[k].regions {
      assert s in cells[k].regions ==> Meets(cells[k], p, Side(s, p));
      assert Meets(cells[i], p, Side(s, p));
    }
  }

  /** The cells on one side of the splitter, in order, split ones clipped. */
  function Half(g: Geometry, cells: seq<Cell>, plane: nat, front: bool): seq<Cell> {
    if cells == [] then []
    else
      var rest := Half(g, cells[..|cells| - 1], plane, front);
      var last := cells[|cells| - 1];
      var side := CellSide(last, plane);
      if side == (if front then 1 else -1) then rest + [last]
      else if side == 0 then
        var part := g.Clip(last, plane, front);
        if part.Some? then rest + [part.value] else rest
      else rest
  }

  /** A cell of a half comes from one cell of the whole. */
  ghost predicate ComesFrom(part: Cell, whole: Cell, plane: nat, front: bool) {
    && part.regions != {} && part.leaf == whole.leaf && part.regions <= whole.regions
    && forall s :: s in part.regions ==> Side(s, plane) == front
  }

  /** origin names, in increasing order, the cell each cell of the half comes
      from. */
  ghost predicate Origins(half: seq<Cell>, cells: seq<Cell>, origin: seq<nat>, plane: nat, front: bool) {
    && |origin| == |half|
    && (forall h :: 0 <= h < |half| ==> origin[h] < |cells| && ComesFrom(half[h], cells[origin[h]], plane, front))
    && (forall h, l :: 0 <= h < l < |half| ==> origin[h] < origin[l])
  }

  /** A region on this side is in the half, in the part of its own cell. */
  ghost predicate Keeps(half: seq<Cell>, origin: seq<nat>, i: nat, s: Signs)
    requires |origin| == |half|
  {
    exists h :: 0 <= h < |half| && origin[h] == i && s in half[h].regions
  }

  ghost predicate KeepsAll(half: seq<Cell>, cells: seq<Cell>, origin: seq<nat>, plane: nat, front: bool)
    requires |origin| == |half|
  {
    forall i, s :: 0 <= i < |cells| && s in cells[i].regions && Side(s, plane) == front ==> Keeps(half, origin, i, s)
  }

  lemma KeepOneMore(rest: seq<Cell>, cells: seq<Cell>, before: seq<nat>, plane: nat, front: bool, last: Cell, kept: Cell)
    requires Origins(rest, cells, before, plane, front) && KeepsAll(rest, cells, before, plane, front)
    requires ComesFrom(kept, last, plane, front)
    requires forall s :: s in last.regions && Side(s, plane) == front ==> s in kept.regions
    ensures Origins(rest + [kept], cells + [last], before + [|cells|], plane, front)
    ensures KeepsAll(rest + [kept], cells + [last], before + [|cells|], plane, front)
  {
    var half, whole, origin := rest + [kept], cells + [last], before + [|cells|];
    forall i, s | 0 <= i < |whole| && s in whole[i].regions && Side(s, plane) == front
      ensures Keeps(half, origin, i, s)
    {
      if i < |cells| {
        assert Keeps(rest, before, i, s);
        var h :| 0 <= h < |rest| && before[h] == i && s in rest[h].regions;
        assert half[h] == rest[h] && origin[h] == before[h];
      } else {
        assert half[|rest|] == kept && origin[|rest|] == i;
      }
    }
  }

  lemma KeepNoMore(rest: seq<Cell>, cells: seq<Cell>, before: seq<nat>, plane: nat, front: bool, last: Cell)
    requires Origins(rest, cells, before, plane, front) && KeepsAll(rest, cells, before, plane, front)
    requires !Meets(last, plane, front)
    ensures Origins(rest, cells + [last], before, plane, front)
    ensures KeepsAll(rest, cells + [last], before, plane, front)
  {
    var whole := cells + [last];
    forall i, s | 0 <= i < |whole| && s in whole[i].regions && Side(s, plane) == front
      ensures Keeps(rest, before, i, s)
    {
      assert i < |cells| && whole[i] == cells[i];
    }
  }

  lemma {:induction false} HalfOrigins(g: Geometry, cells: seq<Cell>, plane: nat, front: bool) returns (origin: seq<nat>)
    requires forall i :: 0 <= i < |cells| ==> cells[i].regions != {}
    ensures Origins(Half(g, cells, plane, front), cells, origin, plane, front)
    ensures KeepsAll(Half(g, cells, plane, front), cells, origin, plane, front)
  {
    origin := [];
    if cells != [] {
      var n := |cells| - 1;
      var last := cells[n];
      assert cells == cells[..n] + [last];
      var before := HalfOrigins(g, cells[..n], plane, front);
      var rest := Half(g, cells[..n], plane, front);
      MeetsSomeSide(last, plane);
      if !Meets(last, plane, front) {
        KeepNoMore(rest, cells[..n], before, plane, front, last);
        origin := before;
      } else {
        var kept := if Meets(last, plane, !front) then g.Clip(last, plane, front).value else last;
        assert ComesFrom(kept, last, plane, front);
        KeepOneMore(rest, cells[..n], before, plane, front, last, kept);
        origin := before + [n];
      }
    }
  }

  /** A half is again the cells of a BSP, and the splitter no longer tells
      anything in it: the recursion's measure falls. */
  lemma HalfShrinks(g: Geometry, cells: seq<Cell>, candidates: seq<nat>, planes: nat, plane: nat, front: bool)
    requires BspCells(cells, candidates, planes)
    requires plane in candidates && Usable(cells, plane)
    ensures Half(g, cells, plane, front) != []
    ensures BspCells(Half(g, cells, plane, front), candidates, planes)
    ensures |Telling(Half(g, cells, plane, front), candidates)| < |Telling(cells, candidates)|
  {
    var half := Half(g, cells, plane, front);
    assert forall i :: 0 <= i < |cells| ==> GoodCell(cells[i], planes);
    var origin := HalfOrigins(g, cells, plane, front);
    UsableTells(cells, candidates, planes, plane);
    assert SomeMeets(cells, plane, front);
    var i :| 0 <= i < |cells| && Meets(cells[i], plane, front);
    var s :| s in cells[i].regions && Side(s, plane) == front;
    assert Keeps(half, origin, i, s);
    forall h | 0 <= h < |half| ensures GoodCell(half[h], planes) {
      assert ComesFrom(half[h], cells[origin[h]], plane, front) && GoodCell(cells[origin[h]], planes);
    }
    forall h, l | 0 <= h < l < |half| ensures Separated(half[h], half[l], candidates) {
      assert Separated(cells[origin[h]], cells[origin[l]], candidates);
      var p :| p in candidates && Apart(cells[origin[h]], cells[origin[l]], p);
      MeetsNarrows(cells[origin[h]], half[h], p);
      MeetsNarrows(cells[origin[l]], half[l], p);
      assert Apart(half[h], half[l], p);
    }
    TellingShrinks(cells, half, origin, candidates, plane, front);
  }

  lemma MeetsNarrows(whole: Cell, part: Cell, plane: nat)
    requires part.regions <= whole.regions
    ensures Meets(part, plane, true) ==> Meets(whole, plane, true)
    ensures Meets(part, plane, false) ==> Meets(whole, plane, false)
  {
  }

  lemma TellingShrinks(cells: seq<Cell>, half: seq<Cell>, origin: seq<nat>, candidates: seq<nat>, plane: nat, front: bool)
    requires Origins(half, cells, origin, plane, front)
    requires plane in candidates && Tells(cells, plane)
    ensures |Telling(half, candidates)| < |Telling(cells, candidates)|
  {
    forall p, f | SomeMeets(half, p, f) ensures SomeMeets(cells, p, f) {
      var h :| 0 <= h < |half| && Meets(half[h], p, f);
      assert ComesFrom(half[h], cells[origin[h]], plane, front);
      MeetsNarrows(cells[origin[h]], half[h], p);
      assert Meets(cells[origin[h]], p, f);
    }
    assert !SomeMeets(half, plane, !front) by {
      forall h | 0 <= h < |half| ensures !Meets(half[h], plane, !front) {
        assert ComesFrom(half[h], cells[origin[h]], plane, front);
      }
    }
    assert Telling(half, candidates) <= Telling(cells, candidates) - {plane};
    SubsetAtMost(Telling(half, candidates), Telling(cells, candidates) - {plane});
  }

  lemma {:induction false} SubsetAtMost(a: set<nat>, b: set<nat>)
    requires a <= b
    ensures |a| <= |b|
  {
    if a != {} {
      var x :| x in a;
      SubsetAtMost(a - {x}, b - {x});
    }
  }
}
