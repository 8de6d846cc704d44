/**
 Growing a subtree over a list of cells (src/backend/aas_augment.c:1221-1293).
 */
module Rebuild {
  import opened Options
  import opened Bsp
  import opened SearchTree
  import opened Cells

  predicate Faces(g: Geometry, cell: Cell, plane: nat)
    requires plane < |g.planes|
  {
    plane in cell.faces || (g.Opposite(plane, 0) >= 0 && g.Opposite(plane, 0) in cell.faces)
  }

  function Facing(g: Geometry, cells: seq<Cell>, plane: nat): nat
    requires plane < |g.planes|
  {
    if cells == [] then 0
    else Facing(g, cells[..|cells| - 1], plane) + if Faces(g, cells[|cells| - 1], plane) then 1 else 0
  }

  /** FindSplitter's value: coplanar faces count for a plane, split cells and
      imbalance against it. */
  function Score(g: Geometry, cells: seq<Cell>, plane: nat): int
    requires plane < |g.planes|
  {
    var lean := CountSide(cells, plane, 1) - CountSide(cells, plane, -1);
    (if g.Axial(plane) then 20 else 15) * Facing(g, cells, plane)
    - 10 * CountSide(cells, plane, 0) - (if lean < 0 then -lean else lean)
  }

  /** The first usable one of the highest score among the first n candidates, or -1. */
  function Splitter(g: Geometry, candidates: seq<nat>, cells: seq<Cell>, n: nat): (best: int)
    requires n <= |candidates| && forall p :: p in candidates ==> p < |g.planes|
    ensures best < 0 ==> forall k :: 0 <= k < n ==> !Usable(cells, candidates[k])
    ensures best >= 0 ==> best in candidates && Usable(cells, best)
  {
    if n == 0 then -1
    else
      var p, best := candidates[n - 1], Splitter(g, candidates, cells, n - 1);
      assert p in candidates;
      if Usable(cells, p) && (best < 0 || Score(g, cells, p) > Score(g, cells, best)) then p else best
  }

  // ---- what a plane is worth, by the regions of the cells ----

  ghost predicate AllAhead(cell: Cell, plane: nat) {
    forall s :: s in cell.regions ==> 0 <= plane < |s| && s[plane]
  }

  ghost predicate AllBehind(cell: Cell, plane: nat) {
    forall s :: s in cell.regions ==> !(0 <= plane < |s| && s[plane])
  }

  /** The plane or the first other one that is it turned round is among the cell's faces. */
  ghost predicate FaceOf(g: Geometry, cell: Cell, plane: nat)
    requires plane < |g.planes|
  {
    || plane in cell.faces
    || exists o :: 0 <= o < |g.planes| && o in cell.faces && FirstTurned(g, plane, o)
  }

  ghost predicate FirstTurned(g: Geometry, plane: nat, o: int)
    requires plane < |g.planes|
  {
    && 0 <= o < |g.planes| && o != plane && Turned(g.planes[plane], g.planes[o])
    && forall k :: 0 <= k < o && k != plane ==> !Turned(g.planes[plane], g.planes[k])
  }

  predicate Turned(p: Plane, o: Plane) {
    o.a == -p.a && o.b == -p.b && o.c == -p.c && o.d == -p.d
  }

  ghost function Ahead(cells: seq<Cell>, plane: nat): set<nat> {
    set i: nat | i < |cells| && AllAhead(cells[i], plane)
  }

  ghost function Behind(cells: seq<Cell>, plane: nat): set<nat> {
    set i: nat | i < |cells| && !AllAhead(cells[i], plane) && AllBehind(cells[i], plane)
  }

  ghost function Across(cells: seq<Cell>, plane: nat): set<nat> {
    set i: nat | i < |cells| && !AllAhead(cells[i], plane) && !AllBehind(cells[i], plane)
  }

  ghost function Bounded(g: Geometry, cells: seq<Cell>, plane: nat): set<nat>
    requires plane < |g.planes|
  {
    set i: nat | i < |cells| && FaceOf(g, cells[i], plane)
  }

  predicate OneAxis(p: Plane) {
    || (p.a != 0.0 && p.b == 0.0 && p.c == 0.0)
    || (p.a == 0.0 && p.b != 0.0 && p.c == 0.0)
    || (p.a == 0.0 && p.b == 0.0 && p.c != 0.0)
  }

  /** Twenty for each cell that a plane across one axis bounds, fifteen for any other plane; ten less for each cell it
      cuts, and one less for each cell that one side has more than the other. */
  ghost function Worth(g: Geometry, cells: seq<Cell>, plane: nat): int
    requires plane < |g.planes|
  {
    var ahead, behind := |Ahead(cells, plane)|, |Behind(cells, plane)|;
    (if OneAxis(g.planes[plane]) then 20 else 15) * |Bounded(g, cells, plane)| - 10 * |Across(cells, plane)|
    - if ahead > behind then ahead - behind else behind - ahead
  }

  /** It cuts a cell, or leaves cells on both sides. */
  ghost predicate Parts(cells: seq<Cell>, plane: nat) {
    Across(cells, plane) != {} || (Ahead(cells, plane) != {} && Behind(cells, plane) != {})
  }

  lemma SideIs(cell: Cell, plane: nat)
    ensures CellSide(cell, plane) == if AllAhead(cell, plane) then 1 else if AllBehind(cell, plane) then -1 else 0
  {
  }

  ghost function OnSide(cells: seq<Cell>, plane: nat, side: int): set<nat> {
    set i: nat | i < |cells| && CellSide(cells[i], plane) == side
  }

  lemma OnSideOne(cells: seq<Cell>, plane: nat, side: int)
    requires cells != []
    ensures |OnSide(cells, plane, side)| ==
            |OnSide(cells[..|cells| - 1], plane, side)| + if CellSide(cells[|cells| - 1], plane) == side then 1 else 0
  {
    var last: nat := |cells| - 1;
    assert OnSide(cells, plane, side) ==
           OnSide(cells[..last], plane, side) + if CellSide(cells[last], plane) == side then {last} else {};
  }

  lemma {:induction false} CountIs(cells: seq<Cell>, plane: nat, side: int)
    ensures CountSide(cells, plane, side) == |OnSide(cells, plane, side)|
  {
    hide OnSide, CellSide;
    if cells == [] {
      NoneOn(plane, side);
    } else {
      CountIs(cells[..|cells| - 1], plane, side);
      OnSideOne(cells, plane, side);
    }
  }

  lemma NoneOn(plane: nat, side: int)
    ensures OnSide([], plane, side) == {}
  {
  }

  lemma SidesAre(cells: seq<Cell>, plane: nat)
    ensures OnSide(cells, plane, 1) == Ahead(cells, plane)
    ensures OnSide(cells, plane, -1) == Behind(cells, plane)
    ensures OnSide(cells, plane, 0) == Across(cells, plane)
  {
    hide CellSide, AllAhead, AllBehind;
    forall i: nat | i < |cells|
      ensures CellSide(cells[i], plane) ==
              if AllAhead(cells[i], plane) then 1 else if AllBehind(cells[i], plane) then -1 else 0
    {
      SideIs(cells[i], plane);
    }
  }

  lemma {:induction false} OppositeIs(g: Geometry, plane: nat, k: nat)
    requires plane < |g.planes| && k <= |g.planes|
    requires forall i :: 0 <= i < k && i != plane ==> !Turned(g.planes[plane], g.planes[i])
    ensures var o := g.Opposite(plane, k);
            if o >= 0 then FirstTurned(g, plane, o) else forall i :: !FirstTurned(g, plane, i)
    decreases |g.planes| - k
  {
    if k < |g.planes| && !(k != plane && Turned(g.planes[plane], g.planes[k])) {
      OppositeIs(g, plane, k + 1);
    }
  }

  lemma TurnedOnce(g: Geometry, plane: nat, i: int, k: int)
    requires plane < |g.planes| && FirstTurned(g, plane, i) && FirstTurned(g, plane, k)
    ensures i == k
  {
  }

  lemma FacesIs(g: Geometry, cell: Cell, plane: nat)
    requires plane < |g.planes|
    ensures Faces(g, cell, plane) <==> FaceOf(g, cell, plane)
  {
    OppositeIs(g, plane, 0);
    var first := g.Opposite(plane, 0);
    if o :| 0 <= o < |g.planes| && o in cell.faces && FirstTurned(g, plane, o) {
      if first >= 0 {
        TurnedOnce(g, plane, first, o);
      }
    }
    hide FirstTurned;
  }

  lemma {:induction false} FacingIs(g: Geometry, cells: seq<Cell>, plane: nat)
    requires plane < |g.planes|
    ensures Facing(g, cells, plane) == |Bounded(g, cells, plane)|
  {
    hide Faces, FaceOf;
    if cells == [] {
      assert Bounded(g, cells, plane) == {};
    } else {
      var last: nat := |cells| - 1;
      FacingIs(g, cells[..last], plane);
      FacesIs(g, cells[last], plane);
      assert Bounded(g, cells, plane) == Bounded(g, cells[..last], plane) + if FaceOf(g, cells[last], plane) then {last} else {};
    }
  }

  lemma ScoreIs(g: Geometry, cells: seq<Cell>, plane: nat)
    requires plane < |g.planes|
    ensures Score(g, cells, plane) == Worth(g, cells, plane)
  {
    hide Facing, Ahead, Behind, Across, Bounded;
    FacingIs(g, cells, plane);
    CountIs(cells, plane, 1);
    CountIs(cells, plane, -1);
    CountIs(cells, plane, 0);
    SidesAre(cells, plane);
  }

  lemma UsableIs(cells: seq<Cell>, plane: nat)
    ensures Usable(cells, plane) <==> Parts(cells, plane)
  {
    hide Ahead, Behind, Across;
    CountIs(cells, plane, 1);
    CountIs(cells, plane, -1);
    CountIs(cells, plane, 0);
    SidesAre(cells, plane);
  }

  /** Candidate k parts the cells, and of the first n that do none is worth more, nor an earlier one as much. */
  ghost predicate BestAt(g: Geometry, candidates: seq<nat>, cells: seq<Cell>, n: nat, k: nat)
    requires n <= |candidates| && forall p :: p in candidates ==> p < |g.planes|
  {
    && k < n && candidates[k] in candidates && Parts(cells, candidates[k])
    && forall i :: 0 <= i < n && candidates[i] in candidates && Parts(cells, candidates[i]) ==>
         Worth(g, cells, candidates[i]) <= Worth(g, cells, candidates[k])
         && (i < k ==> Worth(g, cells, candidates[i]) < Worth(g, cells, candidates[k]))
  }

  /** Of the first n candidates that part the cells, the first of those worth most. */
  ghost predicate IsBest(g: Geometry, candidates: seq<nat>, cells: seq<Cell>, n: nat, best: int)
    requires n <= |candidates| && forall p :: p in candidates ==> p < |g.planes|
  {
    exists k: nat :: k < n && BestAt(g, candidates, cells, n, k) && candidates[k] == best
  }

  lemma SplitterOne(g: Geometry, candidates: seq<nat>, cells: seq<Cell>, n: nat)
    requires n < |candidates| && forall p :: p in candidates ==> p < |g.planes|
    ensures candidates[n] in candidates
    ensures var p, best := candidates[n], Splitter(g, candidates, cells, n);
            && (best >= 0 ==> best < |g.planes|)
            && Splitter(g, candidates, cells, n + 1) ==
               if Parts(cells, p) && (best < 0 || Worth(g, cells, p) > Worth(g, cells, best)) then p else best
  {
    var p, best := candidates[n], Splitter(g, candidates, cells, n);
    assert p in candidates;
    UsableIs(cells, p);
    ScoreIs(g, cells, p);
    if best >= 0 {
      ScoreIs(g, cells, best);
    }
    hide Score, Usable, Parts, Worth;
  }

  lemma {:induction false} SplitterIsBest(g: Geometry, candidates: seq<nat>, cells: seq<Cell>, n: nat)
    requires n <= |candidates| && forall p :: p in candidates ==> p < |g.planes|
    ensures var best := Splitter(g, candidates, cells, n);
            if best < 0 then forall i :: 0 <= i < n ==> !Parts(cells, candidates[i])
            else IsBest(g, candidates, cells, n, best)
  {
    hide Score, Usable, Parts, Worth, Splitter, BestAt;
    if n == 0 {
      NoSplitter(g, candidates, cells);
    } else {
      var last, best := candidates[n - 1], Splitter(g, candidates, cells, n - 1);
      SplitterIsBest(g, candidates, cells, n - 1);
      SplitterOne(g, candidates, cells, n - 1);
      if best >= 0 {
        var j: nat :| j < n - 1 && BestAt(g, candidates, cells, n - 1, j) && candidates[j] == best;
        OneMore(g, candidates, cells, n - 1, j);
      } else if Parts(cells, last) {
        FirstToPart(g, candidates, cells, n - 1);
      }
    }
  }

  /** The next candidate takes the place of the best so far only by being worth more. */
  lemma OneMore(g: Geometry, candidates: seq<nat>, cells: seq<Cell>, n: nat, k: nat)
    requires n < |candidates| && forall p :: p in candidates ==> p < |g.planes|
    requires BestAt(g, candidates, cells, n, k)
    ensures k < n && candidates[n] in candidates && candidates[k] in candidates
    ensures var better := Parts(cells, candidates[n]) && Worth(g, cells, candidates[n]) > Worth(g, cells, candidates[k]);
            BestAt(g, candidates, cells, n + 1, if better then n else k)
  {
    hide Parts, Worth;
  }

  lemma FirstToPart(g: Geometry, candidates: seq<nat>, cells: seq<Cell>, n: nat)
    requires n < |candidates| && forall p :: p in candidates ==> p < |g.planes|
    requires Parts(cells, candidates[n]) && forall i :: 0 <= i < n ==> !Parts(cells, candidates[i])
    ensures BestAt(g, candidates, cells, n + 1, n)
  {
    hide Parts, Worth;
  }

  lemma NoSplitter(g: Geometry, candidates: seq<nat>, cells: seq<Cell>)
    requires forall p :: p in candidates ==> p < |g.planes|
    ensures Splitter(g, candidates, cells, 0) < 0
  {
  }

  /** The first usable candidate of the highest score, or -1. */
  method ChooseSplitter(g: Geometry, candidates: seq<nat>, cells: seq<Cell>) returns (best: int)
    requires forall p :: p in candidates ==> p < |g.planes|
    ensures best == Splitter(g, candidates, cells, |candidates|)
    ensures best < 0 ==> forall p :: p in candidates ==> !Usable(cells, p)
    ensures best >= 0 ==> best in candidates && Usable(cells, best)
    ensures best >= 0 ==> forall p :: p in candidates && Usable(cells, p) ==> Score(g, cells, p) <= Score(g, cells, best)
    ensures if best < 0 then forall i :: 0 <= i < |candidates| ==> !Parts(cells, candidates[i])
            else IsBest(g, candidates, cells, |candidates|, best)
  {
    hide Score, Usable, IsBest, Parts;
    SplitterIsBest(g, candidates, cells, |candidates|);
    best := -1;
    var k := 0;
    while k < |candidates|
      invariant 0 <= k <= |candidates| && best == Splitter(g, candidates, cells, k)
      invariant forall p :: p in candidates[..k] ==> p in candidates
      invariant best >= 0 ==> forall p :: p in candidates[..k] && Usable(cells, p) ==>
        Score(g, cells, p) <= Score(g, cells, best)
    {
      var p := candidates[k];
      assert candidates[..k + 1] == candidates[..k] + [p] && p in candidates;
      if Usable(cells, p) && (best < 0 || Score(g, cells, p) > Score(g, cells, best)) {
        best := p;
      }
      k := k + 1;
    }
    assert candidates[..k] == candidates;
  }

  /** The two halves list, in order, every cell's part on that side. */
  method SplitCells(g: Geometry, cells: seq<Cell>, plane: nat) returns (front: seq<Cell>, back: seq<Cell>)
    ensures front == Half(g, cells, plane, true) && back == Half(g, cells, plane, false)
  {
    front, back := [], [];
    var i := 0;
    while i < |cells|
      invariant 0 <= i <= |cells|
      invariant front == Half(g, cells[..i], plane, true) && back == Half(g, cells[..i], plane, false)
    {
      assert cells[..i + 1][..i] == cells[..i];
      var side := CellSide(cells[i], plane);
      if side > 0 {
        front := front + [cells[i]];
      } else if side < 0 {
        back := back + [cells[i]];
      } else {
        var a, b := g.Clip(cells[i], plane, true), g.Clip(cells[i], plane, false);
        if a.Some? {
          front := front + [a.value];
        }
        if b.Some? {
          back := back + [b.value];
        }
      }
      i := i + 1;
    }
    assert cells[..i] == cells;
  }

  /** u sends every region of every cell to that cell's leaf. */
  ghost predicate Answers(u: Tree, cells: seq<Cell>) {
    forall i, s :: 0 <= i < |cells| && s in cells[i].regions ==> Area(u, s) == -cells[i].leaf
  }

  ghost predicate Exactly(indices: set<int>, lo: int, hi: int) {
    forall i :: i in indices <==> lo <= i < hi
  }

  /** A tree of records appended since there were `from_index` of them, using
      all of them. */
  ghost predicate Appended(nodes: seq<Node>, planes: nat, value: int, u: Tree, from_index: nat) {
    && Spells(nodes, planes, value, u) && Proper(u)
    && Exactly(Indices(u), from_index, |nodes|)
  }

  lemma HalvesAnswer(g: Geometry, cells: seq<Cell>, plane: nat, at: int, front: Tree, back: Tree)
    requires forall i :: 0 <= i < |cells| ==> cells[i].regions != {}
    requires Answers(front, Half(g, cells, plane, true)) && Answers(back, Half(g, cells, plane, false))
    ensures Answers(Split(at, plane, front, back), cells)
  {
    var of_front := HalfOrigins(g, cells, plane, true);
    var of_back := HalfOrigins(g, cells, plane, false);
    forall i, s | 0 <= i < |cells| && s in cells[i].regions
      ensures Area(Split(at, plane, front, back), s) == -cells[i].leaf
    {
      if Side(s, plane) {
        var half := Half(g, cells, plane, true);
        assert Keeps(half, of_front, i, s);
        var h :| 0 <= h < |half| && of_front[h] == i && s in half[h].regions;
        assert ComesFrom(half[h], cells[of_front[h]], plane, true);
      } else {
        var half := Half(g, cells, plane, false);
        assert Keeps(half, of_back, i, s);
        var h :| 0 <= h < |half| && of_back[h] == i && s in half[h].regions;
        assert ComesFrom(half[h], cells[of_back[h]], plane, false);
      }
    }
  }

  lemma LeafAnswers(nodes: seq<Node>, planes: nat, cells: seq<Cell>, value: int)
    requires value <= 0 && forall k :: 0 <= k < |cells| ==> cells[k].leaf == value
    ensures Appended(nodes, planes, value, Leaf(-value), |nodes|) && Answers(Leaf(-value), cells)
  {
  }

  /** The new node over two subtrees built one after the other. */
  lemma JoinSubtrees(planes: nat, start: seq<Node>, plane: nat, middle: seq<Node>, last: seq<Node>, nodes': seq<Node>,
                     child0: int, child1: int, u0: Tree, u1: Tree)
    requires |start| > 1 && start[|start| - 1].plane == plane < planes
    requires start <= middle && Appended(middle, planes, child0, u0, |start|)
    requires middle <= last && Appended(last, planes, child1, u1, |middle|)
    requires nodes' == last[|start| - 1 := last[|start| - 1].WithChild(true, child0).WithChild(false, child1)]
    ensures Appended(nodes', planes, |start| - 1, Split(|start| - 1, plane, u0, u1), |start| - 1)
  {
    hide Proper;
    SpellsFrame(middle, planes, child0, u0, nodes', planes);
    SpellsFrame(last, planes, child1, u1, nodes', planes);
    JoinIndices(|start| - 1, plane, u0, u1, |middle|, |last|);
  }

  lemma JoinIndices(at: nat, plane: nat, u0: Tree, u1: Tree, middle: nat, last: nat)
    requires at < middle <= last
    requires Exactly(Indices(u0), at + 1, middle) && Exactly(Indices(u1), middle, last)
    requires Proper(u0) && Proper(u1)
    ensures Proper(Split(at, plane, u0, u1))
    ensures Exactly(Indices(Split(at, plane, u0, u1)), at, last)
  {
    assert Indices(u0) !! Indices(u1) by {
      forall i | i in Indices(u0) && i in Indices(u1) ensures false {
      }
    }
  }

  // ---- what rb_build builds ----

  /** All the cells carry one area, so they need no split. */
  ghost predicate OneArea(cells: seq<Cell>) {
    forall i :: 0 <= i < |cells| ==> cells[i].leaf == cells[0].leaf
  }

  lemma CellsAreGood(cells: seq<Cell>, candidates: seq<nat>, planes: nat)
    requires BspCells(cells, candidates, planes)
    ensures forall i :: 0 <= i < |cells| ==> cells[i].regions != {} && cells[i].leaf <= 0
    ensures forall p :: p in candidates ==> p < planes
  {
    forall i | 0 <= i < |cells|
      ensures cells[i].regions != {} && cells[i].leaf <= 0
    {
      assert GoodCell(cells[i], planes);
    }
  }

  /** The choice splits the cells in two lists that are easier to tell apart. */
  lemma SplitterShrinks(g: Geometry, candidates: seq<nat>, cells: seq<Cell>)
    requires BspCells(cells, candidates, |g.planes|) && !OneArea(cells)
    ensures var best := Splitter(g, candidates, cells, |candidates|);
            && best >= 0 && best in candidates && Usable(cells, best)
            && Half(g, cells, best, true) != []
            && |Telling(Half(g, cells, best, true), candidates)| < |Telling(cells, candidates)|
            && |Telling(Half(g, cells, best, false), candidates)| < |Telling(cells, candidates)|
  {
    hide Usable, Telling, Half, Score;
    var usable := NeverStuck(cells, candidates, |g.planes|);
    var k :| 0 <= k < |candidates| && candidates[k] == usable;
    var best := Splitter(g, candidates, cells, |candidates|);
    HalfShrinks(g, cells, candidates, |g.planes|, best, true);
    HalfShrinks(g, cells, candidates, |g.planes|, best, false);
  }

  /** The tree rb_build makes of the cells, the first record of which gets the number at. */
  ghost function Greedy(g: Geometry, candidates: seq<nat>, cells: seq<Cell>, fallback: int, at: nat): Tree
    decreases |Telling(cells, candidates)|
  {
    if !BspCells(cells, candidates, |g.planes|) then Leaf(0)
    else if OneArea(cells) then Leaf(-(if cells == [] then fallback else cells[0].leaf))
    else
      hide Telling, Half, Splitter, BspCells, OneArea;
      SplitterShrinks(g, candidates, cells);
      CellsAreGood(cells, candidates, |g.planes|);
      var best := Splitter(g, candidates, cells, |candidates|);
      var front, back := Half(g, cells, best, true), Half(g, cells, best, false);
      var u0 := Greedy(g, candidates, front, front[0].leaf, at + 1);
      var u1 := Greedy(g, candidates, back, front[0].leaf, at + 1 + Size(u0));
      Split(at, best, u0, u1)
  }

  lemma GreedyLeaf(g: Geometry, candidates: seq<nat>, cells: seq<Cell>, fallback: int, at: nat, value: int)
    requires BspCells(cells, candidates, |g.planes|) && value == (if |cells| > 0 then cells[0].leaf else fallback)
    requires forall k :: 0 <= k < |cells| ==> cells[k].leaf == value
    ensures Greedy(g, candidates, cells, fallback, at) == Leaf(-value)
  {
  }

  lemma GreedySplit(g: Geometry, candidates: seq<nat>, cells: seq<Cell>, fallback: int, at: nat, best: nat, i: nat)
    requires BspCells(cells, candidates, |g.planes|) && i < |cells| && cells[i].leaf != cells[0].leaf
    requires best == Splitter(g, candidates, cells, |candidates|)
    ensures Half(g, cells, best, true) != []
    ensures var front, back := Half(g, cells, best, true), Half(g, cells, best, false);
            var u0 := Greedy(g, candidates, front, front[0].leaf, at + 1);
            Greedy(g, candidates, cells, fallback, at) ==
              Split(at, best, u0, Greedy(g, candidates, back, front[0].leaf, at + 1 + Size(u0)))
  {
    hide Usable, Telling, Half, Splitter, BspCells, Score, Size;
    assert !OneArea(cells);
    SplitterShrinks(g, candidates, cells);
    hide OneArea;
  }

  /** The child value of a tree whose first record has the number at. */
  function ValueOf(t: Tree): int {
    match t
    case Leaf(area) => -area
    case Split(at, _, _, _) => at
  }

  /** The records of a full tree. */
  function Full(depth: nat): nat {
    if depth == 0 then 0 else 2 * Full(depth - 1) + 1
  }

  lemma {:induction false} FullGrows(a: nat, b: nat)
    requires a <= b
    ensures Full(a) <= Full(b)
  {
    if a < b {
      FullGrows(a, b - 1);
    }
  }

  lemma FullOfTwo(a: nat, b: nat, n: nat)
    requires a < n && b < n
    ensures Full(a) + Full(b) + 1 <= Full(n)
  {
    FullGrows(a, n - 1);
    FullGrows(b, n - 1);
  }

  /** What splitting the cells by the best candidate gives. */
  lemma SplitFacts(g: Geometry, candidates: seq<nat>, cells: seq<Cell>, fallback: int, at: nat, best: int, i: nat)
    requires BspCells(cells, candidates, |g.planes|) && i < |cells| && cells[i].leaf != cells[0].leaf
    requires best == Splitter(g, candidates, cells, |candidates|)
    ensures best >= 0 && best in candidates && best < |g.planes|
    ensures forall k :: 0 <= k < |cells| ==> cells[k].regions != {}
    ensures var front, back := Half(g, cells, best, true), Half(g, cells, best, false);
            && front != [] && front[0].leaf <= 0
            && BspCells(front, candidates, |g.planes|) && BspCells(back, candidates, |g.planes|)
            && |Telling(front, candidates)| < |Telling(cells, candidates)|
            && |Telling(back, candidates)| < |Telling(cells, candidates)|
            && Full(|Telling(front, candidates)|) + Full(|Telling(back, candidates)|) + 1
               <= Full(|Telling(cells, candidates)|)
  {
    hide Usable, Telling, Half, Splitter, BspCells, Score, Full;
    assert !OneArea(cells);
    SplitterShrinks(g, candidates, cells);
    CellsAreGood(cells, candidates, |g.planes|);
    HalfShrinks(g, cells, candidates, |g.planes|, best, true);
    HalfShrinks(g, cells, candidates, |g.planes|, best, false);
    CellsAreGood(Half(g, cells, best, true), candidates, |g.planes|);
    FullOfTwo(|Telling(Half(g, cells, best, true), candidates)|, |Telling(Half(g, cells, best, false), candidates)|,
              |Telling(cells, candidates)|);
  }

  /** A subtree built over the cells behind the first `start` records. */
  ghost predicate BuiltOver(g: Geometry, candidates: seq<nat>, cells: seq<Cell>, fallback: int, start: nat,
                            nodes: seq<Node>, value: int, u: Tree)
  {
    && u == Greedy(g, candidates, cells, fallback, start) && value == ValueOf(u)
    && Appended(nodes, |g.planes|, value, u, start) && |nodes| == start + Size(u)
    && Answers(u, cells) && Depth(u) <= |Telling(cells, candidates)|
  }

  lemma LeafIsBuilt(g: Geometry, candidates: seq<nat>, cells: seq<Cell>, fallback: int, nodes: seq<Node>, value: int)
    requires BspCells(cells, candidates, |g.planes|) && fallback <= 0
    requires value == (if |cells| > 0 then cells[0].leaf else fallback)
    requires forall k :: 0 <= k < |cells| ==> cells[k].leaf == value
    ensures BuiltOver(g, candidates, cells, fallback, |nodes|, nodes, value, Leaf(-value))
  {
    CellsAreGood(cells, candidates, |g.planes|);
    GreedyLeaf(g, candidates, cells, fallback, |nodes|, value);
    LeafAnswers(nodes, |g.planes|, cells, value);
  }

  lemma SplitIsBuilt(g: Geometry, candidates: seq<nat>, cells: seq<Cell>, fallback: int, best: nat, i: nat,
                     start: seq<Node>, middle: seq<Node>, last: seq<Node>, nodes': seq<Node>,
                     child0: int, child1: int, u0: Tree, u1: Tree)
    requires BspCells(cells, candidates, |g.planes|) && i < |cells| && cells[i].leaf != cells[0].leaf
    requires best == Splitter(g, candidates, cells, |candidates|) && Half(g, cells, best, true) != []
    requires |start| > 1 && start[|start| - 1].plane == best && start <= middle <= last
    requires BuiltOver(g, candidates, Half(g, cells, best, true), Half(g, cells, best, true)[0].leaf, |start|,
                       middle, child0, u0)
    requires BuiltOver(g, candidates, Half(g, cells, best, false), Half(g, cells, best, true)[0].leaf, |middle|,
                       last, child1, u1)
    requires nodes' == last[|start| - 1 := last[|start| - 1].WithChild(true, child0).WithChild(false, child1)]
    ensures BuiltOver(g, candidates, cells, fallback, |start| - 1, nodes', |start| - 1,
                      Split(|start| - 1, best, u0, u1))
  {
    hide Usable, Telling, Half, Splitter, BspCells, Score, Full, Greedy, Appended, Answers;
    SplitFacts(g, candidates, cells, fallback, |start| - 1, best, i);
    GreedySplit(g, candidates, cells, fallback, |start| - 1, best, i);
    JoinSubtrees(|g.planes|, start, best, middle, last, nodes', child0, child1, u0, u1);
    HalvesAnswer(g, cells, best, |start| - 1, u0, u1);
  }

  /** Build the subtree over the cells and return its child value. It fails
      only when the lump is full, and never grows deeper than the number of
      candidates that tell the cells apart. */
  method Build(m: AasTree, g: Geometry, candidates: seq<nat>, cells: seq<Cell>, fallback: int)
    returns (value: int, failed: bool, ghost u: Tree)
    requires g.planes == m.planes && |m.nodes| > 0
    requires BspCells(cells, candidates, |g.planes|) && fallback <= 0
    modifies m`nodes
    ensures old(m.nodes) <= m.nodes
    ensures failed ==> |m.nodes| >= m.nodeRoom
    ensures |m.nodes| <= |old(m.nodes)| + Full(|Telling(cells, candidates)|)
    ensures Flagged(m.nodes, m.planes, |old(m.nodes)|)
    ensures !failed ==> BuiltOver(g, candidates, cells, fallback, |old(m.nodes)|, m.nodes, value, u)
    decreases |Telling(cells, candidates)|
  {
    hide *;
    failed, u := false, Leaf(0);
    ghost var base, before := |m.nodes|, m.nodes;
    FlaggedNone(m.nodes, m.planes);
    value := if |cells| > 0 then cells[0].leaf else fallback;
    var i := 1;
    while i < |cells| && cells[i].leaf == value
      invariant 1 <= i && (|cells| > 0 ==> i <= |cells|)
      invariant forall k :: 0 <= k < i && k < |cells| ==> cells[k].leaf == value
    {
      i := i + 1;
    }
    if i >= |cells| {
      u := Leaf(-value);
      LeafIsBuilt(g, candidates, cells, fallback, m.nodes, value);
      return;
    }
    CellsAreGood(cells, candidates, |g.planes|);
    var best := ChooseSplitter(g, candidates, cells);
    SplitFacts(g, candidates, cells, fallback, |m.nodes|, best, i);
    if best < 0 {
      assert false;
    }
    var front, back := SplitCells(g, cells, best);
    var fall := front[0].leaf;
    var node := m.AppendNode(best, if g.planes[best].c != 0.0 then 1 else 0, 0, 0);
    if node == 0 {
      failed := true;
      return;
    }
    ghost var start := m.nodes;
    FlaggedAppend(before, m.planes, base, start[base]);
    var child0, child1;
    ghost var u0, u1;
    child0, failed, u0 := Build(m, g, candidates, front, fall);
    FlaggedBehind(start, m.nodes, m.planes, base);
    if failed {
      return;
    }
    ghost var middle := m.nodes;
    child1, failed, u1 := Build(m, g, candidates, back, fall);
    FlaggedBehind(middle, m.nodes, m.planes, base);
    if failed {
      return;
    }
    ghost var last := m.nodes;
    FlaggedWrite(m.nodes, m.planes, base, node, true, child0);
    m.WriteChild(node, true, child0);
    FlaggedWrite(m.nodes, m.planes, base, node, false, child1);
    m.WriteChild(node, false, child1);
    SplitIsBuilt(g, candidates, cells, fallback, best, i, start, middle, last, m.nodes, child0, child1, u0, u1);
    value, u := node, Split(node, best, u0, u1);
  }
}
