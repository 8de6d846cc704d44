/**
 * Runs of the rebuild in which its depth check lets a deeper tree pass, and in which its rollback loses areas
 * (src/backend/aas_augment.c:1486-1518).
 */
module RebuildInstances {
  import opened Options
  import opened Bsp
  import opened SearchTree
  import opened Cells
  import opened Collect
  import opened Rebuild
  import opened RebuildTree
  import opened RebuildResults
  import opened RebuildStrips

  /** The strips in front of the second plane, and those behind it. */
  const FRONT := Cell(0, Strips(2, 5), {-1, 1})
  const BACK := Cell(0, Strips(0, 1), {-1, 1})

  lemma ClipsTo(leaf: int, lo: nat, hi: nat, faces: set<int>, p: nat, front: bool, lo': nat, hi': nat, faces': set<int>)
    requires lo <= hi <= 5 && p < 5 && lo' <= hi' <= 5
    requires if front then hi > p && lo' == Max(lo, p + 1) && hi' == hi else lo <= p && lo' == lo && hi' == Min(hi, p)
    requires forall f: int :: f in faces' <==> (f in faces || f == p) && (f < 0 || f == lo' - 1 || (f == hi' && hi' < 5))
    ensures G.Clip(Cell(leaf, Strips(lo, hi), faces), p, front) == Some(Cell(leaf, Strips(lo', hi'), faces'))
  {
    hide Facets, Strips, Geometry.Clip;
    ClipStrips(leaf, lo, hi, faces, p);
    FacetsOf(faces + {p}, lo', hi');
    assert Facets(faces + {p}, Strips(lo', hi')) == faces';
  }

  lemma WorldClips()
    ensures G.Clip(ALL, 1, true) == Some(FRONT) && G.Clip(ALL, 1, false) == Some(BACK)
    ensures G.Clip(FRONT, 1, true) == Some(FRONT) && G.Clip(FRONT, 1, false) == None
  {
    hide Facets, Geometry.Clip;
    ClipsTo(0, 0, 5, {-1}, 1, true, 2, 5, {-1, 1});
    ClipsTo(0, 0, 5, {-1}, 1, false, 0, 1, {-1, 1});
    ClipsTo(0, 2, 5, {-1, 1}, 1, true, 2, 5, {-1, 1});
    ClipStrips(0, 2, 5, {-1, 1}, 1);
  }

  lemma PairBounds(p: nat, faces: set<int>)
    requires p < 5 && -1 in faces && (forall f :: f in faces ==> f >= -1)
    requires (p + 1 < 5 ==> p + 1 in faces) && (p > 0 ==> p - 1 in faces)
    ensures forall f: int :: f in Bounds(p + 1) <==> (f in faces || f == p) && (f < 0 || f == p || (f == p + 1 && p + 1 < 5))
    ensures forall f: int :: f in Bounds(p) <==> (f in faces || f == p) && (f < 0 || f == p - 1 || f == p)
  {
  }

  lemma PairCells(x: nat, p: nat, faces: set<int>, seen: seq<nat>)
    requires p < 5 && -1 in faces && (forall f :: f in faces ==> f >= -1)
    requires (p + 1 < 5 ==> p + 1 in faces) && (p > 0 ==> p - 1 in faces)
    ensures LeafCells(G, Pair(x, p), Cell(0, Strips(p, p + 1), faces)) == [Lone(p + 1), Lone(p)]
    ensures PlaneList(G, Pair(x, p), Cell(0, Strips(p, p + 1), faces), seen) == if p in seen then seen else seen + [p]
  {
    hide Facets, Geometry.Clip, Strips, AreaOf;
    PairBounds(p, faces);
    hide Bounds;
    ClipsTo(0, p, p + 1, faces, p, true, p + 1, p + 1, Bounds(p + 1));
    ClipsTo(0, p, p + 1, faces, p, false, p, p, Bounds(p));
    var cell := Cell(0, Strips(p, p + 1), faces);
    assert SideCells(G, Pair(x, p), true, cell) == [Lone(p + 1)];
    assert SideCells(G, Pair(x, p), false, cell) == [Lone(p)];
  }

  /** The front strips told apart by two records below one. */
  function OldFront(x: nat, y: nat, z: nat): (t: Tree)
    ensures t.Split? && t.at == x && t.plane == 3 && t.front == Pair(y, 4) && t.back == Pair(z, 2)
    ensures Fits(t, |G.planes|) && Depth(t) == 2
  {
    Split(x, 3, Pair(y, 4), Pair(z, 2))
  }

  lemma TwoBranches(t: Tree, cell: Cell, a: Cell, b: Cell, seen: seq<nat>)
    requires t.Split? && t.front.Split? && t.back.Split? && Fits(t, |G.planes|) && t.plane !in seen
    requires G.Clip(cell, t.plane, true) == Some(a) && G.Clip(cell, t.plane, false) == Some(b)
    ensures LeafCells(G, t, cell) == LeafCells(G, t.front, a) + LeafCells(G, t.back, b)
    ensures PlaneList(G, t, cell, seen) == PlaneList(G, t.back, b, PlaneList(G, t.front, a, seen + [t.plane]))
  {
    hide Geometry.Clip;
  }

  /** The parts of the world on either side of the third plane. */
  const FORE := Cell(0, Strips(4, 5), {-1, 3})
  const MIDDLE := Cell(0, Strips(2, 3), {-1, 1, 3})

  lemma FrontClips()
    ensures G.Clip(FRONT, 3, true) == Some(FORE) && G.Clip(FRONT, 3, false) == Some(MIDDLE)
  {
    hide Facets, Geometry.Clip, Strips;
    ClipsTo(0, 2, 5, {-1, 1}, 3, true, 4, 5, {-1, 3});
    ClipsTo(0, 2, 5, {-1, 1}, 3, false, 2, 3, {-1, 1, 3});
  }

  lemma HalfCells(y: nat, z: nat)
    ensures LeafCells(G, Pair(y, 4), FORE) == [Lone(5), Lone(4)] && PlaneList(G, Pair(y, 4), FORE, [3]) == [3] + [4]
    ensures LeafCells(G, Pair(z, 2), MIDDLE) == [Lone(3), Lone(2)]
    ensures PlaneList(G, Pair(z, 2), MIDDLE, [3] + [4]) == [3, 4, 2]
  {
    hide Facets, Geometry.Clip, Strips, Pair, LeafCells, PlaneList, Lone;
    PairCells(y, 4, {-1, 3}, [3]);
    PairCells(z, 2, {-1, 1, 3}, [3] + [4]);
    assert [3] + [4] + [2] == [3, 4, 2 as nat];
  }

  lemma FrontCells(x: nat, y: nat, z: nat)
    ensures LeafCells(G, OldFront(x, y, z), FRONT) == Row([5, 4, 3, 2])
    ensures PlaneList(G, OldFront(x, y, z), FRONT, []) == [3, 4, 2]
  {
    hide *;
    LoneRows();
    FrontClips();
    HalfCells(y, z);
    TwoBranches(OldFront(x, y, z), FRONT, FORE, MIDDLE, []);
    assert [] + [3] == [3 as nat];
  }

  lemma LoneRows()
    ensures Row([5, 4, 3, 2]) == [Lone(5), Lone(4), Lone(3), Lone(2)] && Row([1, 0]) == [Lone(1), Lone(0)]
  {
    hide Lone;
    var a: seq<Index>, b: seq<Index> := [5, 4, 3, 2], [1, 0];
    RowAt(a, 0);
    RowAt(a, 1);
    RowAt(a, 2);
    RowAt(a, 3);
    RowAt(b, 0);
    RowAt(b, 1);
  }

  lemma BackCells(x: nat)
    ensures LeafCells(G, Pair(x, 0), BACK) == Row([1, 0])
    ensures PlaneList(G, Pair(x, 0), BACK, []) == [0]
  {
    hide Row, Lone;
    PairCells(x, 0, {-1, 1}, []);
    LoneRows();
  }

  // ---- the rollback ----

  const SPARE := Node(0, 0, 0, 0)

  /** One shipped record over two generated subtrees, of which the back one was spliced in first... */
  const SPLICED := [SPARE, Node(1, 0, 3, 2), Node(0, 0, -7, -8), Node(3, 0, 4, 5), Node(4, 0, -1, -2), Node(2, 0, -3, -4)]
  /** ...what it has become when the depth is checked... */
  const LINKED := [SPARE, Node(1, 0, 2, 5), Node(4, 0, -1, 3), Node(3, 0, -2, 4), Node(2, 0, -3, -4), Node(0, 0, -7, -8)]
  /** ...and after the rollback. */
  const AFTER := [SPARE, Node(1, 0, 2, 5), Node(0, 0, -7, -8), Node(3, 0, 4, 5), Node(4, 0, -1, -2), Node(2, 0, -3, -4)]

  const WHOLE := Split(1, 1, OldFront(3, 4, 5), Pair(2, 0))
  const PLAN := Plan([Handover(Slot(1, true), FRONT), Handover(Slot(1, false), BACK)],
                     [OldFront(3, 4, 5), Pair(2, 0)], [2, 5], [NewFront(2), Pair(5, 0)])

  lemma WholeTasks()
    ensures Fits(WHOLE, |G.planes|)
    ensures WalkOrder(G, WHOLE, ALL, 2) == [Task(PLAN.hs[0], PLAN.subs[0]), Task(PLAN.hs[1], PLAN.subs[1])]
    ensures !GivesUp(G, WHOLE, ALL, 2)
  {
    hide Geometry.Clip, Strips, Facets;
    WorldClips();
    assert OwnTasks(G, WHOLE, true, ALL, 2) == [Task(PLAN.hs[0], PLAN.subs[0])];
    assert OwnTasks(G, WHOLE, false, ALL, 2) == [Task(PLAN.hs[1], PLAN.subs[1])];
  }

  lemma GreedyTwo(works: seq<Work>, at: nat)
    requires |works| == 2
    ensures var u := Greedy(G, works[0].candidates, works[0].cells, 0, at);
            GreedyAll(G, works, at) == [u, Greedy(G, works[1].candidates, works[1].cells, 0, at + Size(u))]
  {
    hide Greedy, Size;
    var u := Greedy(G, works[0].candidates, works[0].cells, 0, at);
    GreedyOne(works[..1], at);
    GreedyStep(G, works, 1, at);
    SizesStep([], u);
  }

  lemma GreedyOne(works: seq<Work>, at: nat)
    requires |works| == 1
    ensures GreedyAll(G, works, at) == [] + [Greedy(G, works[0].candidates, works[0].cells, 0, at)]
  {
    hide Greedy;
    GreedyStep(G, works, 0, at);
    NoneGreedy(G, works, at);
  }

  lemma PlanIsWhole()
    ensures Fits(WHOLE, |G.planes|) && PlanOf(G, WHOLE, ALL, 2) == PLAN
  {
    hide Geometry.Clip, Strips, Facets, Greedy, GreedyAll, LeafCells, PlaneList, Row, WalkOrder;
    WholeTasks();
    var tasks := WalkOrder(G, WHOLE, ALL, 2);
    var works := WorksOf(G, tasks);
    FrontCells(3, 4, 5);
    BackCells(2);
    GreedyOfFour(2);
    GreedyOfTwo(5);
    GreedyTwo(works, 2);
    assert Size(NewFront(2)) == 3;
    assert GreedyAll(G, works, 2) == [NewFront(2), Pair(5, 0)];
    assert HandoversOf(tasks) == PLAN.hs && SubsOf(tasks) == PLAN.subs;
    assert ValuesOf([NewFront(2), Pair(5, 0)]) == [2, 5];
  }

  lemma FrontAreas(x: nat, y: nat, z: nat, at: nat)
    ensures forall s :: s in FRONT.regions ==> Area(NewFront(at), s) == Area(OldFront(x, y, z), s)
    ensures forall k: Index :: k >= 2 ==> Area(OldFront(x, y, z), Strip(k)) == AreaOf(k)
  {
    forall k: Index | k >= 2
      ensures Area(NewFront(at), Strip(k)) == Area(OldFront(x, y, z), Strip(k)) == AreaOf(k)
    {
      var s := Strip(k);
      assert Area(Pair(y, 4), s) == AreaOf(if k > 4 then 5 else 4) && Area(Pair(z, 2), s) == AreaOf(if k > 2 then 3 else 2);
      var t := NewFront(at);
      assert Area(t.back.back, s) == AreaOf(if k > 2 then 3 else 2);
      assert Area(t.back, s) == if k > 3 then AreaOf(4) else Area(t.back.back, s);
    }
    forall s | s in FRONT.regions
      ensures Area(NewFront(at), s) == Area(OldFront(x, y, z), s)
    {
      var k: nat :| 2 <= k <= 5 && s == Strip(k);
    }
  }

  lemma BackAreas(x: nat, y: nat)
    ensures forall s :: s in BACK.regions ==> Area(Pair(x, 0), s) == Area(Pair(y, 0), s)
  {
    forall s | s in BACK.regions
      ensures Area(Pair(x, 0), s) == Area(Pair(y, 0), s)
    {
      var k: nat :| k <= 1 && s == Strip(k);
    }
  }

  lemma WholeIsSpelled()
    ensures Spells(SPLICED, 5, 1, WHOLE) && Proper(WHOLE) && Depth(WHOLE) == 3
    ensures Spells(LINKED, 5, 1, Split(1, 1, NewFront(2), Pair(5, 0)))
    ensures Depth(Split(1, 1, NewFront(2), Pair(5, 0))) == 4
  {
    assert Spells(SPLICED, 5, 4, Pair(4, 4)) && Spells(SPLICED, 5, 5, Pair(5, 2)) && Spells(SPLICED, 5, 2, Pair(2, 0));
    assert Spells(SPLICED, 5, 3, OldFront(3, 4, 5));
    assert Indices(OldFront(3, 4, 5)) == {3, 4, 5};
    assert Spells(LINKED, 5, 5, Pair(5, 0)) && Spells(LINKED, 5, 4, NewFront(2).back.back);
    assert Spells(LINKED, 5, 3, NewFront(2).back);
    assert Depth(NewFront(2).back) == 2;
  }

  lemma WholeIsRelinked()
    ensures Relinked(SPLICED, LINKED, 2, PLAN.hs, PLAN.values)
  {
    hide Strips, Facets;
    assert PLAN.hs[0].slot == Slot(1, true) && PLAN.hs[1].slot == Slot(1, false);
    forall i | 0 <= i < 2
      ensures RelinkedAt(SPLICED, LINKED, i, PLAN.hs, PLAN.values)
    {
      forall side
        ensures if IsSlot(PLAN.hs, Slot(i, side)) then Holds(LINKED[i].Child(side), Slot(i, side), PLAN.hs, PLAN.values)
                else LINKED[i].Child(side) == SPLICED[i].Child(side)
      {
        if i == 1 {
          assert PLAN.hs[if side then 0 else 1].slot == Slot(1, side);
        } else {
          assert SPLICED[0] == LINKED[0] == SPARE;
        }
      }
    }
  }

  lemma WholeIsSubstituted()
    ensures Substitutes(SPLICED, LINKED, 5, 2, PLAN.hs[0], PLAN.subs[0], 2, NewFront(2))
    ensures Substitutes(SPLICED, LINKED, 5, 2, PLAN.hs[1], PLAN.subs[1], 5, Pair(5, 0))
  {
    hide Strips, Facets, AreaOf;
    WholeIsSpelled();
    FrontAreas(3, 4, 5, 2);
    BackAreas(2, 5);
    assert SPLICED[1].Child(true) == 3 && SPLICED[1].Child(false) == 2;
    FrontIndices(2);
  }

  lemma FrontIndices(at: nat)
    ensures Indices(NewFront(at)) == {at as int, at + 1, at + 2} && Proper(NewFront(at)) && Depth(NewFront(at)) == 3
  {
    var t := NewFront(at);
    assert Indices(t.back.back) == {at as int + 2} && Indices(t.back) == {at as int + 1, at + 2};
    assert Proper(t.back.back) && Proper(t.back);
    assert Depth(t.back.back) == 1 && Depth(t.back) == 2;
  }

  lemma WholeIsCarried()
    ensures Carried(SPLICED, LINKED, 5, 2, PLAN)
  {
    hide Strips, Facets, AreaOf, Substitutes, Relinked, Spells;
    WholeIsRelinked();
    WholeIsSubstituted();
    FrontIndices(2);
    FrontIndices(5);
    forall i | 2 <= i < |LINKED|
      ensures Used(i, PLAN.us)
    {
      assert i in Indices(PLAN.us[if i < 5 then 0 else 1]);
    }
  }

  /**
   * The pass declines nothing about this tree, builds a deeper one, and rolls back. Then both slots hold numbers of
   * other records: every point of the world off the planes has lost its area.
   */
  lemma DepthRollbackLosesAreas()
    ensures WorldCell(PLANES, ALL) && Spells(SPLICED, 5, 1, WHOLE) && Proper(WHOLE) && Fits(WHOLE, |G.planes|)
    ensures !Refuses(G, SPLICED, 1, WHOLE, ALL, 2, true)
    ensures TooDeepFrom(G, SPLICED, LINKED, AFTER, 1, WHOLE, ALL, 2, PLAN)
    ensures forall k: Index ::
              && Lookup(SPLICED, 1, Strip(k), MAX_STEPS) == AreaOf(k)
              && Lookup(AFTER, 1, Strip(k), MAX_STEPS) == (if k >= 2 then AreaOf(1) else AreaOf(2))
              && Lookup(AFTER, 1, Strip(k), MAX_STEPS) != AreaOf(k)
  {
    hide TooDeepFrom, Refuses, Spells, Lookup, Area, Proper, WorldCell;
    AllIsWorld();
    WholeIsSpelled();
    RollsBack();
    forall k: Index
      ensures Lookup(SPLICED, 1, Strip(k), MAX_STEPS) == AreaOf(k)
      ensures Lookup(AFTER, 1, Strip(k), MAX_STEPS) == if k >= 2 then AreaOf(1) else AreaOf(2)
    {
      LookupIsArea(SPLICED, 1, WHOLE, Strip(k), MAX_STEPS);
      WholeAreas(k);
    }
  }

  lemma WholeAreas(k: Index)
    ensures Area(WHOLE, Strip(k)) == AreaOf(k)
    ensures Lookup(AFTER, 1, Strip(k), MAX_STEPS) == if k >= 2 then AreaOf(1) else AreaOf(2)
  {
    FrontAreas(3, 4, 5, 2);
    var s := Strip(k);
    assert Lookup(AFTER, 2, s, MAX_STEPS - 1) == if k > 0 then AreaOf(1) else AreaOf(0);
    assert Lookup(AFTER, 5, s, MAX_STEPS - 1) == if k > 2 then AreaOf(3) else AreaOf(2);
  }

  lemma RollsBack()
    ensures Fits(WHOLE, |G.planes|) && !Refuses(G, SPLICED, 1, WHOLE, ALL, 2, true)
    ensures TooDeepFrom(G, SPLICED, LINKED, AFTER, 1, WHOLE, ALL, 2, PLAN)
  {
    hide Strips, Facets, AreaOf, Carried, PlanOf, Geometry.Clip, Handovers;
    WholeIsCarried();
    PlanIsWhole();
    WholeIsSpelled();
    WholeTasks();
    WalkOrderIsAll(G, WHOLE, ALL, 2);
    assert HandoversOf(WalkOrder(G, WHOLE, ALL, 2)) == PLAN.hs;
    assert AFTER == LINKED[..2] + SPLICED[2..];
    forall t' | Spells(LINKED, 5, 1, t')
      ensures MeasuredDepth(t') > MeasuredDepth(WHOLE)
    {
      SpellsUnique(LINKED, 5, 1, t', Split(1, 1, NewFront(2), Pair(5, 0)));
    }
  }

  // ---- the depth check ----

  /** m shipped records, each with the next one in front of the same plane, over three generated ones. */
  function Below(m: nat, i: nat, old_: bool): Node {
    if i == 0 then SPARE
    else if i <= m then Node(1, 0, i + 1, 0)
    else if i == m + 1 then if old_ then Node(3, 0, m + 2, m + 3) else Node(4, 0, -1, m + 2)
    else if i == m + 2 then if old_ then Node(4, 0, -1, -2) else Node(3, 0, -2, m + 3)
    else Node(2, 0, -3, -4)
  }

  function Records(m: nat, old_: bool): (nodes: seq<Node>)
    ensures |nodes| == m + 4 && forall i :: 0 <= i < m + 4 ==> nodes[i] == Below(m, i, old_)
  {
    seq(m + 4, i requires 0 <= i < m + 4 => Below(m, i, old_))
  }

  lemma RecordsAre(m: nat, old_: bool)
    ensures var nodes := Records(m, old_);
            && (forall i :: 1 <= i <= m ==> nodes[i] == Node(1, 0, i + 1, 0))
            && nodes[m + 1] == (if old_ then Node(3, 0, m + 2, m + 3) else Node(4, 0, -1, m + 2))
            && nodes[m + 2] == (if old_ then Node(4, 0, -1, -2) else Node(3, 0, -2, m + 3))
            && nodes[m + 3] == Node(2, 0, -3, -4)
  {
  }

  function Hung(i: nat, m: nat, u: Tree): Tree
    requires i <= m + 1
    decreases m + 1 - i
  {
    if i == m + 1 then u else Split(i, 1, Hung(i + 1, m, u), Leaf(0))
  }

  lemma {:induction false} HungIsSpelled(i: nat, m: nat, u: Tree, old_: bool)
    requires 1 <= i <= m + 1 && Spells(Records(m, old_), 5, m + 1, u) && Proper(u)
    requires forall x :: x in Indices(u) ==> x > m
    ensures Spells(Records(m, old_), 5, i, Hung(i, m, u)) && Proper(Hung(i, m, u)) && Fits(Hung(i, m, u), |G.planes|)
    ensures Depth(Hung(i, m, u)) == m + 1 - i + Depth(u)
    ensures forall x :: x in Indices(Hung(i, m, u)) ==> x >= i
    decreases m + 1 - i
  {
    hide Records, Below;
    RecordsAre(m, old_);
    if i == m + 1 {
      SpellsFits(Records(m, old_), 5, i, u);
    } else {
      HungIsSpelled(i + 1, m, u, old_);
    }
  }

  lemma {:induction false} HungTasks(i: nat, m: nat, u: Tree, cell: Cell)
    requires 1 <= i <= m && u.Split? && u.at > m && (cell == ALL || cell == FRONT)
    requires Fits(Hung(i, m, u), |G.planes|)
    ensures WalkOrder(G, Hung(i, m, u), cell, m + 1) == [Task(Handover(Slot(m, true), FRONT), u)]
    ensures !GivesUp(G, Hung(i, m, u), cell, m + 1)
    decreases m + 1 - i
  {
    hide Geometry.Clip, Strips, Facets;
    WorldClips();
    if i < m {
      HungTasks(i + 1, m, u, FRONT);
    }
  }

  function HungPlan(m: nat): Plan {
    Plan([Handover(Slot(m, true), FRONT)], [OldFront(m + 1, m + 2, m + 3)], [m + 1], [NewFront(m + 1)])
  }

  lemma HungPlanned(m: nat)
    requires m >= 1
    ensures var t := Hung(1, m, OldFront(m + 1, m + 2, m + 3));
            && Fits(t, |G.planes|) && PlanOf(G, t, ALL, m + 1) == HungPlan(m)
            && AsSet(HungPlan(m).hs) == Handovers(G, t, ALL, m + 1) && !GivesUp(G, t, ALL, m + 1)
  {
    hide *;
    var u := OldFront(m + 1, m + 2, m + 3);
    var t := Hung(1, m, u);
    OldIsSpelled(m);
    HungIsSpelled(1, m, u, true);
    HungTasks(1, m, u, ALL);
    FrontCells(m + 1, m + 2, m + 3);
    GreedyOfFour(m + 1);
    WalkOrderIsAll(G, t, ALL, m + 1);
    HungWork(t, u, m);
  }

  lemma HungWork(t: Tree, u: Tree, m: nat)
    requires u == OldFront(m + 1, m + 2, m + 3) && Fits(t, |G.planes|)
    requires WalkOrder(G, t, ALL, m + 1) == [Task(Handover(Slot(m, true), FRONT), u)]
    requires LeafCells(G, u, FRONT) == Row([5, 4, 3, 2]) && PlaneList(G, u, FRONT, []) == [3, 4, 2]
    requires Greedy(G, [3, 4, 2], Row([5, 4, 3, 2]), 0, m + 1) == NewFront(m + 1)
    ensures PlanOf(G, t, ALL, m + 1) == HungPlan(m)
    ensures HandoversOf(WalkOrder(G, t, ALL, m + 1)) == HungPlan(m).hs
  {
    hide Strips, Facets, Greedy, GreedyAll, LeafCells, PlaneList, Row, WalkOrder, OldFront, Hung;
    var tasks := WalkOrder(G, t, ALL, m + 1);
    var works := WorksOf(G, tasks);
    GreedyOne(works, m + 1);
    assert works[0] == WorkOf(G, tasks[0]);
    assert GreedyAll(G, works, m + 1) == [NewFront(m + 1)];
    assert HandoversOf(tasks) == HungPlan(m).hs && SubsOf(tasks) == HungPlan(m).subs;
    assert ValuesOf([NewFront(m + 1)]) == [m + 1];
  }

  lemma OldIsSpelled(m: nat)
    ensures Spells(Records(m, true), 5, m + 1, OldFront(m + 1, m + 2, m + 3)) && Proper(OldFront(m + 1, m + 2, m + 3))
    ensures Indices(OldFront(m + 1, m + 2, m + 3)) == {m as int + 1, m + 2, m + 3}
  {
    hide Records, Below;
    RecordsAre(m, true);
    var nodes := Records(m, true);
    assert Spells(nodes, 5, m + 2, Pair(m + 2, 4));
    assert AreaOf(3) == 3 && AreaOf(2) == 4 && |nodes| == m + 4;
    assert Spells(nodes, 5, m + 3, Pair(m + 3, 2));
  }

  lemma NewIsSpelled(m: nat)
    ensures Spells(Records(m, false), 5, m + 1, NewFront(m + 1))
  {
    hide Records, Below;
    RecordsAre(m, false);
    var nodes := Records(m, false);
    var u := NewFront(m + 1);
    assert Spells(nodes, 5, m + 3, u.back.back);
    assert Spells(nodes, 5, m + 2, u.back);
  }

  lemma HungIsCarried(m: nat)
    requires m >= 1
    ensures Carried(Records(m, true), Records(m, false), 5, m + 1, HungPlan(m))
  {
    hide Strips, Facets, AreaOf, Spells;
    var nodes, linked, plan := Records(m, true), Records(m, false), HungPlan(m);
    OldIsSpelled(m);
    NewIsSpelled(m);
    FrontAreas(m + 1, m + 2, m + 3, m + 1);
    FrontIndices(m + 1);
    assert Substitutes(nodes, linked, 5, m + 1, plan.hs[0], plan.subs[0], m + 1, NewFront(m + 1));
    forall i: nat | i <= m
      ensures RelinkedAt(nodes, linked, i, plan.hs, plan.values)
    {
      forall side
        ensures if IsSlot(plan.hs, Slot(i, side)) then Holds(linked[i].Child(side), Slot(i, side), plan.hs, plan.values)
                else linked[i].Child(side) == nodes[i].Child(side)
      {
        assert plan.hs[0].slot == Slot(m, true);
      }
    }
    forall i | m + 1 <= i < m + 4
      ensures Used(i, plan.us)
    {
      assert i in Indices(plan.us[0]);
    }
  }

  /** The rebuilt chain is one record deeper, and is accepted when the spliced one is already past the limit. */
  lemma HungIsAccepted(m: nat, room: nat)
    requires m + 2 > MAX_DEPTH
    ensures var t, t' := Hung(1, m, OldFront(m + 1, m + 2, m + 3)), Hung(1, m, NewFront(m + 1));
            && Accepted(G, Records(m, true), Records(m, false), 1, t, ALL, m + 1, room, HungPlan(m))
            && Spells(Records(m, false), 5, 1, t') && Depth(t) == m + 2 && Depth(t') == m + 3
  {
    hide Strips, Facets, AreaOf, Carried, PlanOf, Handovers, GivesUp, WorldCell, Spells, Proper;
    AllIsWorld();
    HungPlanned(m);
    HungIsCarried(m);
    OldIsSpelled(m);
    NewIsSpelled(m);
    FrontIndices(m + 1);
    var t, t' := Hung(1, m, OldFront(m + 1, m + 2, m + 3)), Hung(1, m, NewFront(m + 1));
    HungIsSpelled(1, m, OldFront(m + 1, m + 2, m + 3), true);
    HungIsSpelled(1, m, NewFront(m + 1), false);
    forall u | Spells(Records(m, false), 5, 1, u)
      ensures MeasuredDepth(u) <= MeasuredDepth(t)
    {
      SpellsUnique(Records(m, false), 5, 1, u, t');
    }
  }

  /** "Never trade a shallower spliced tree for a deeper rebuilt one" holds of the spliced trees of a depth exactly
      when that depth is within the engine's limit. */
  lemma DepthCheckIff(d: nat)
    ensures NeverDeeper(d) <==> d <= MAX_DEPTH
  {
    if d > MAX_DEPTH {
      hide Accepted, Spells, Hung, Records, HungPlan, ALL, G, PLANES;
      HungIsAccepted(d - 2, 0);
    } else {
      hide WorldCell, Linked, Refuses;
      forall g, nodes, nodes', n, t, world, shipped, room, plan, t' |
        Accepted(g, nodes, nodes', n, t, world, shipped, room, plan) && Depth(t) == d && Spells(nodes', |g.planes|, n, t')
        ensures Depth(t') <= d
      {
        assert MeasuredDepth(t') <= MeasuredDepth(t);
      }
    }
  }

  // ---- a generated record in a branch without volume ----

  /** The front branch of the second record has no volume; a shipped record in it holds a generated one. */
  const HIDING := [SPARE, Node(1, 0, -1, 2), Node(1, 0, 3, 4), Node(0, 0, 5, 0), Node(0, 0, -7, -8), Node(0, 0, -7, -8)]
  const EXPOSED := [SPARE, Node(1, 0, -1, 2), Node(1, 0, 3, 4), Node(0, 0, 5, 0), Node(0, 0, -7, -8)]
  const HIDERS_PLAN := Plan([Handover(Slot(2, false), BACK)], [Pair(4, 0)], [4], [Pair(4, 0)])

  /** The branch without volume, the record over it, and the whole tree. */
  function Hidden(): (t: Tree)
    ensures t.Split? && t.at == 3 && Fits(t, |G.planes|)
  {
    Split(3, 0, Pair(5, 0), Leaf(0))
  }

  function Hiding(): (t: Tree)
    ensures t.Split? && t.at == 2 && t.plane == 1 && t.front == Hidden() && t.back == Pair(4, 0)
    ensures Fits(t, |G.planes|)
  {
    Split(2, 1, Hidden(), Pair(4, 0))
  }

  function Hider(): (t: Tree)
    ensures t.Split? && t.at == 1 && t.plane == 1 && t.front == Leaf(1) && t.back == Hiding()
    ensures Fits(t, |G.planes|)
  {
    Split(1, 1, Leaf(1), Hiding())
  }

  lemma HiderIsProper()
    ensures Proper(Hider()) && Indices(Hidden()) == {3, 5} && Depth(Hider()) == 4
  {
    hide Pair;
    assert Proper(Hidden()) && Depth(Hidden()) == 2;
    assert Indices(Hiding()) == {2, 3, 4, 5} && Proper(Hiding()) && Depth(Hiding()) == 3;
  }

  lemma BackClips()
    ensures G.Clip(BACK, 1, true) == None && G.Clip(BACK, 1, false) == Some(BACK)
  {
    hide Facets, Geometry.Clip;
    ClipsTo(0, 0, 1, {-1, 1}, 1, false, 0, 1, {-1, 1});
    ClipStrips(0, 0, 1, {-1, 1}, 1);
  }

  lemma HiderTasks()
    ensures Fits(Hider(), |G.planes|) && !GivesUp(G, Hider(), ALL, 4) && !NothingHidden(G, Hider(), ALL, 4)
    ensures WalkOrder(G, Hider(), ALL, 4) == [Task(HIDERS_PLAN.hs[0], HIDERS_PLAN.subs[0])]
  {
    hide Geometry.Clip, Strips, Facets, Pair, Hidden, Hiding, Hider, Indices, Proper, Depth;
    WorldClips();
    BackClips();
    HiderIsProper();
    assert OwnTasks(G, Hiding(), false, BACK, 4) == [Task(HIDERS_PLAN.hs[0], HIDERS_PLAN.subs[0])];
    assert OwnTasks(G, Hiding(), true, BACK, 4) == [] && DeepTasks(G, Hiding(), true, BACK, 4) == [];
    assert WalkOrder(G, Hider().back, BACK, 4) == [Task(HIDERS_PLAN.hs[0], HIDERS_PLAN.subs[0])];
    assert !AllShipped(Hider().back.front, 4) by {
      assert 5 in Indices(Hider().back.front);
    }
    assert !SideNotHidden(G, Hider().back, true, BACK, 4);
    assert !NothingHidden(G, Hider().back, BACK, 4);
  }

  lemma HiderIsPlanned()
    ensures Fits(Hider(), |G.planes|) && PlanOf(G, Hider(), ALL, 4) == HIDERS_PLAN
    ensures HandoversOf(WalkOrder(G, Hider(), ALL, 4)) == HIDERS_PLAN.hs
  {
    hide Geometry.Clip, Strips, Facets, Greedy, GreedyAll, LeafCells, PlaneList, Row, WalkOrder, Pair;
    HiderTasks();
    BackCells(4);
    GreedyOfTwo(4);
    var tasks := WalkOrder(G, Hider(), ALL, 4);
    var works := WorksOf(G, tasks);
    GreedyOne(works, 4);
    assert GreedyAll(G, works, 4) == [Pair(4, 0)];
    assert HandoversOf(tasks) == HIDERS_PLAN.hs && SubsOf(tasks) == HIDERS_PLAN.subs;
    assert ValuesOf([Pair(4, 0)]) == [4];
  }

  lemma PairsAreSpelled()
    ensures Spells(HIDING, 5, 4, Pair(4, 0)) && Spells(EXPOSED, 5, 4, Pair(4, 0))
  {
  }

  lemma HiderIsSpelled()
    ensures Spells(HIDING, 5, 1, Hider())
  {
  }

  lemma HiderIsCarried()
    ensures Carried(HIDING, EXPOSED, 5, 4, HIDERS_PLAN)
  {
    hide Strips, Facets, AreaOf, Spells, Hider;
    PairsAreSpelled();
    BackAreas(4, 4);
    var plan := HIDERS_PLAN;
    assert HIDING[2].Child(false) == 4;
    assert Substitutes(HIDING, EXPOSED, 5, 4, plan.hs[0], plan.subs[0], 4, plan.us[0]);
    forall i: nat | i < 4
      ensures RelinkedAt(HIDING, EXPOSED, i, plan.hs, plan.values)
    {
      forall side
        ensures if IsSlot(plan.hs, Slot(i, side)) then Holds(EXPOSED[i].Child(side), Slot(i, side), plan.hs, plan.values)
                else EXPOSED[i].Child(side) == HIDING[i].Child(side)
      {
        assert plan.hs[0].slot == Slot(2, false);
      }
    }
    assert 4 in Indices(plan.us[0]);
  }

  /** An accepted rebuild that cuts off a record some slot still names: its records spell no tree any more. */
  lemma HiddenRecordDangles(room: nat)
    ensures EXPOSED[3].Child(true) == |EXPOSED|
    ensures !NothingHidden(G, Hider(), ALL, 4) && !SpellsProper(EXPOSED, 5, 1)
    ensures Accepted(G, HIDING, EXPOSED, 1, Hider(), ALL, 4, room, HIDERS_PLAN)
  {
    hide Strips, Facets, AreaOf, Carried, PlanOf, Handovers, GivesUp, WorldCell, Spells, Proper, NothingHidden, Pair,
         Hider, Indices, Depth;
    AllIsWorld();
    HiderTasks();
    HiderIsPlanned();
    HiderIsCarried();
    HiderIsSpelled();
    HiderIsProper();
    WalkOrderIsAll(G, Hider(), ALL, 4);
    NoTreeLeft();
    TreeAgainIff(G, HIDING, EXPOSED, 1, Hider(), ALL, 4, HIDERS_PLAN);
  }

  lemma NoTreeLeft()
    ensures forall t' :: !Spells(EXPOSED, 5, 1, t')
  {
    assert forall t' :: !Spells(EXPOSED, 5, 5, t');
    assert forall t' :: !Spells(EXPOSED, 5, 3, t');
    assert forall t' :: !Spells(EXPOSED, 5, 2, t');
  }
}
