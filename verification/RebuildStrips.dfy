/**
 * A world cut into six strips by five planes that do not cross in it, for runs of the rebuild that can be followed
 * by hand (src/backend/aas_augment.c:1221-1293, 1380-1521).
 */
module RebuildStrips {
  import opened Options
  import opened Bsp
  import opened SearchTree
  import opened Cells
  import opened Collect
  import opened Rebuild
  import opened RebuildTree

  /** Four slanted planes, and behind them one across the x axis. */
  const PLANES: seq<Plane> := [Plane(0.8, 0.6, 0.0, 12000.0), Plane(0.8, 0.6, 0.0, 8000.0),
                               Plane(0.8, 0.6, 0.0, 4000.0), Plane(0.8, 0.6, 0.0, 0.0),
                               Plane(1.0, 0.0, 0.0, -60000.0)]

  /** The strip in front of the first k planes. */
  function Strip(k: nat): (s: Signs)
    ensures |s| == 5 && forall i :: 0 <= i < 5 ==> s[i] == (i < k)
  {
    [0 < k, 1 < k, 2 < k, 3 < k, 4 < k]
  }

  function Strips(lo: nat, hi: nat): (r: set<Signs>)
    requires hi <= 5
    ensures forall k: nat :: k <= 5 ==> (Strip(k) in r <==> lo <= k <= hi)
    ensures forall s :: s in r <==> exists k: nat :: lo <= k <= hi && s == Strip(k)
  {
    StripsDiffer();
    set k: nat | lo <= k <= hi :: Strip(k)
  }

  lemma StripsDiffer()
    ensures forall k: nat, l: nat :: k <= 5 && l <= 5 && Strip(k) == Strip(l) ==> k == l
  {
    forall k: nat, l: nat | k < l <= 5
      ensures Strip(k) != Strip(l)
    {
      assert Strip(k)[k] != Strip(l)[k];
    }
  }

  /** Of the planes f those that bound the strips r, and the world box: a plane does when just one of its two
      neighbouring strips is among them. */
  function Facets(f: set<int>, r: set<Signs>): set<int> {
    set p | p in f && (p < 0 || (p < 5 && (Strip(p) in r) != (Strip(p + 1) in r)))
  }

  const G := Geometry(PLANES, Facets)

  /** The whole world. */
  const ALL := Cell(0, Strips(0, 5), {-1})

  /** Off the planes every point of the world is in one of the strips. */
  lemma AllIsWorld()
    ensures WorldCell(PLANES, ALL)
  {
    forall q | InWorld(q) && OffPlanes(PLANES, q)
      ensures SignsOf(PLANES, q) in ALL.regions
    {
      var e := 0.8 * q.x + 0.6 * q.y;
      assert Eval(PLANES[0], q) == e + 12000.0 && Eval(PLANES[1], q) == e + 8000.0;
      assert Eval(PLANES[2], q) == e + 4000.0 && Eval(PLANES[3], q) == e && Eval(PLANES[4], q) == q.x - 60000.0;
      var k: nat := if q.x > 60000.0 then 5 else if e > 0.0 then 4 else if e > -4000.0 then 3 else if e > -8000.0 then 2
                    else if e > -12000.0 then 1 else 0;
      assert SignsOf(PLANES, q) == Strip(k);
    }
    forall s | s in ALL.regions
      ensures |s| == 5
    {
      var k: nat :| k <= 5 && s == Strip(k);
    }
  }

  /** Clipping strips leaves those on one side of the plane. */
  lemma ClipStrips(leaf: int, lo: nat, hi: nat, faces: set<int>, p: nat)
    requires lo <= hi <= 5 && p < 5
    ensures G.Clip(Cell(leaf, Strips(lo, hi), faces), p, true) ==
            if hi <= p then None
            else Some(Cell(leaf, Strips(Max(lo, p + 1), hi), Facets(faces + {p}, Strips(Max(lo, p + 1), hi))))
    ensures G.Clip(Cell(leaf, Strips(lo, hi), faces), p, false) ==
            if lo > p then None
            else Some(Cell(leaf, Strips(lo, Min(hi, p)), Facets(faces + {p}, Strips(lo, Min(hi, p)))))
  {
    var cell := Cell(leaf, Strips(lo, hi), faces);
    KeptStrips(lo, hi, p, true);
    KeptStrips(lo, hi, p, false);
    assert hi > p ==> Strip(hi) in Strips(Max(lo, p + 1), hi);
    assert lo <= p ==> Strip(lo) in Strips(lo, Min(hi, p));
  }

  lemma KeptStrips(lo: nat, hi: nat, p: nat, front: bool)
    requires lo <= hi <= 5 && p < 5
    ensures (set s | s in Strips(lo, hi) && Side(s, p) == front) ==
            if front then (if hi <= p then {} else Strips(Max(lo, p + 1), hi))
            else (if lo > p then {} else Strips(lo, Min(hi, p)))
  {
    forall s | s in Strips(lo, hi)
      ensures exists k: nat :: lo <= k <= hi && s == Strip(k) && Side(s, p) == (p < k)
    {
      var k: nat :| lo <= k <= hi && s == Strip(k);
      assert Side(s, p) == (p < k);
    }
    forall k: nat | k <= 5
      ensures Side(Strip(k), p) == (p < k)
    {
    }
  }

  /** Two strips in a row are bounded by the planes around them. */
  lemma FacetsOf(f: set<int>, lo: nat, hi: nat)
    requires lo <= hi <= 5
    ensures Facets(f, Strips(lo, hi)) == set p | p in f && (p < 0 || p == lo - 1 || (p == hi && hi < 5))
  {
    forall p: int | 0 <= p < 5
      ensures (Strip(p) in Strips(lo, hi)) != (Strip(p + 1) in Strips(lo, hi)) <==> p == lo - 1 || p == hi
    {
    }
  }

  // ---- leaf cells that are one strip each ----

  /** The areas the spliced trees give to the strips. */
  function AreaOf(k: nat): int {
    match k
    case 0 => 8
    case 1 => 7
    case 2 => 4
    case 3 => 3
    case 4 => 2
    case _ => 1
  }

  type Index = k: nat | k <= 5

  function Bounds(k: Index): set<int> {
    {-1} + (if k > 0 then {k as int - 1} else {}) + (if k < 5 then {k as int} else {})
  }

  /** One strip, with its area and the planes around it. */
  function Lone(k: Index): Cell
  {
    Cell(-AreaOf(k), Strips(k, k), Bounds(k))
  }

  function Row(ks: seq<Index>): (r: seq<Cell>)
    ensures |r| == |ks|
  {
    if ks == [] then [] else Row(ks[..|ks| - 1]) + [Lone(ks[|ks| - 1])]
  }

  lemma LoneSides(k: Index, p: nat)
    requires p < 5
    ensures CellSide(Lone(k), p) == if p < k then 1 else -1
    ensures Meets(Lone(k), p, true) <==> p < k
    ensures Meets(Lone(k), p, false) <==> p >= k
  {
    assert Strip(k) in Strips(k, k) && Side(Strip(k), p) == (p < k);
    forall s | s in Strips(k, k)
      ensures s == Strip(k)
    {
    }
  }

  /** How many of the strips are on one side of the plane. */
  function Count(ks: seq<Index>, p: nat, front: bool): nat {
    if ks == [] then 0 else Count(ks[..|ks| - 1], p, front) + if (p < ks[|ks| - 1]) == front then 1 else 0
  }

  function Touching(ks: seq<Index>, p: nat): nat {
    if ks == [] then 0 else Touching(ks[..|ks| - 1], p) + if ks[|ks| - 1] == p || ks[|ks| - 1] == p + 1 then 1 else 0
  }

  function Beyond(ks: seq<Index>, p: nat, front: bool): seq<Index>
  {
    if ks == [] then [] else Beyond(ks[..|ks| - 1], p, front) + if (p < ks[|ks| - 1]) == front then [ks[|ks| - 1]] else []
  }

  lemma RowSides(ks: seq<Index>, p: nat)
    requires p < 5
    ensures CountSide(Row(ks), p, 1) == Count(ks, p, true)
    ensures CountSide(Row(ks), p, -1) == Count(ks, p, false)
    ensures CountSide(Row(ks), p, 0) == 0
    ensures Facing(G, Row(ks), p) == Touching(ks, p)
    ensures Half(G, Row(ks), p, true) == Row(Beyond(ks, p, true))
    ensures Half(G, Row(ks), p, false) == Row(Beyond(ks, p, false))
  {
    RowCounts(ks, p);
    RowHalf(ks, p, true);
    RowHalf(ks, p, false);
  }

  lemma RowCounts(ks: seq<Index>, p: nat)
    requires p < 5
    ensures CountSide(Row(ks), p, 1) == Count(ks, p, true)
    ensures CountSide(Row(ks), p, -1) == Count(ks, p, false)
    ensures CountSide(Row(ks), p, 0) == 0
    ensures Facing(G, Row(ks), p) == Touching(ks, p)
  {
    hide *;
    RowCount(ks, p, 1);
    RowCount(ks, p, -1);
    RowCount(ks, p, 0);
    RowFacing(ks, p);
  }

  lemma {:induction false} RowCount(ks: seq<Index>, p: nat, side: int)
    requires p < 5 && -1 <= side <= 1
    ensures CountSide(Row(ks), p, side) == if side == 0 then 0 else Count(ks, p, side == 1)
  {
    hide CellSide, Lone;
    if ks != [] {
      var front, last := ks[..|ks| - 1], ks[|ks| - 1];
      assert Row(ks)[..|ks| - 1] == Row(front);
      RowCount(front, p, side);
      LoneSides(last, p);
    }
  }

  lemma {:induction false} RowFacing(ks: seq<Index>, p: nat)
    requires p < 5
    ensures Facing(G, Row(ks), p) == Touching(ks, p)
  {
    hide Faces, Lone;
    if ks != [] {
      var front, last := ks[..|ks| - 1], ks[|ks| - 1];
      assert Row(ks)[..|ks| - 1] == Row(front);
      RowFacing(front, p);
      LoneFaces(last, p);
    }
  }

  lemma LoneFaces(k: Index, p: nat)
    requires p < 5
    ensures Faces(G, Lone(k), p) <==> k == p || k == p + 1
  {
    NoOpposite(p, 0);
  }

  lemma {:induction false} RowHalf(ks: seq<Index>, p: nat, front: bool)
    requires p < 5
    ensures Half(G, Row(ks), p, front) == Row(Beyond(ks, p, front))
  {
    hide CellSide, Lone;
    if ks != [] {
      var rest, last := ks[..|ks| - 1], ks[|ks| - 1];
      assert Row(ks)[..|ks| - 1] == Row(rest);
      RowHalf(rest, p, front);
      LoneSides(last, p);
      RowOneMore(Beyond(rest, p, front), last);
    }
  }

  lemma RowOneMore(ks: seq<Index>, k: Index)
    ensures Row(ks + [k]) == Row(ks) + [Lone(k)] && Row(ks + []) == Row(ks)
  {
    assert (ks + [k])[..|ks|] == ks && ks + [] == ks;
  }

  lemma {:induction false} NoOpposite(p: nat, i: nat)
    requires p < 5
    ensures G.Opposite(p, i) == -1
    decreases 5 - i
  {
    if i < 5 {
      NoOpposite(p, i + 1);
    }
  }

  /** The splitter's score of a plane, and whether it is usable at all. */
  lemma RowScores(ks: seq<Index>, p: nat)
    requires p < 5
    ensures Usable(Row(ks), p) <==> Count(ks, p, true) > 0 && Count(ks, p, false) > 0
    ensures var lean := Count(ks, p, true) - Count(ks, p, false);
            Score(G, Row(ks), p) == (if p == 4 then 20 else 15) * Touching(ks, p) - (if lean < 0 then -lean else lean)
  {
    RowSides(ks, p);
    assert G.Axial(p) <==> p == 4;
  }

  // ---- what rb_build makes of a row of strips ----

  lemma {:induction false} RowAt(ks: seq<Index>, i: nat)
    requires i < |ks|
    ensures Row(ks)[i] == Lone(ks[i])
  {
    if i < |ks| - 1 {
      RowAt(ks[..|ks| - 1], i);
    }
  }

  /** Strips in falling order, each told from the next ones by a candidate. */
  ghost predicate Falling(ks: seq<Index>, candidates: seq<nat>) {
    && (forall p :: p in candidates ==> p < 5)
    && (forall i, j :: 0 <= i < j < |ks| ==> ks[j] < ks[i] && ks[i] - 1 in candidates)
  }

  lemma RowIsBsp(ks: seq<Index>, candidates: seq<nat>)
    requires Falling(ks, candidates)
    ensures BspCells(Row(ks), candidates, 5)
  {
    var cells := Row(ks);
    forall i | 0 <= i < |cells|
      ensures GoodCell(cells[i], 5)
    {
      RowAt(ks, i);
      assert Strip(ks[i]) in Strips(ks[i], ks[i]);
    }
    forall i, j | 0 <= i < j < |cells|
      ensures Separated(cells[i], cells[j], candidates)
    {
      RowAt(ks, i);
      RowAt(ks, j);
      LoneSides(ks[i], ks[i] - 1);
      LoneSides(ks[j], ks[i] - 1);
      assert Apart(cells[i], cells[j], ks[i] - 1);
    }
  }

  /** One step of the build: the row falls in two at the splitter. */
  lemma GreedyRow(ks: seq<Index>, candidates: seq<nat>, fallback: int, at: nat, best: nat)
    requires Falling(ks, candidates) && |ks| >= 2
    requires best < 5 && BspCells(Row(ks), candidates, 5) && best == Splitter(G, candidates, Row(ks), |candidates|)
    requires Beyond(ks, best, true) != []
    ensures var fall := -AreaOf(Beyond(ks, best, true)[0]);
            var u0 := Greedy(G, candidates, Row(Beyond(ks, best, true)), fall, at + 1);
            Greedy(G, candidates, Row(ks), fallback, at) ==
              Split(at, best, u0, Greedy(G, candidates, Row(Beyond(ks, best, false)), fall, at + 1 + Size(u0)))
  {
    hide Greedy, Splitter, Half, Size, Row, Beyond, BspCells, Falling, AreaOf;
    RowLeaf(ks, 0);
    RowLeaf(ks, 1);
    FirstTwoDiffer(ks, candidates);
    GreedySplit(G, candidates, Row(ks), fallback, at, best, 1);
    RowSides(ks, best);
    RowLeaf(Beyond(ks, best, true), 0);
  }

  lemma RowLeaf(ks: seq<Index>, i: nat)
    requires i < |ks|
    ensures Row(ks)[i].leaf == -AreaOf(ks[i])
  {
    RowAt(ks, i);
  }

  lemma FirstTwoDiffer(ks: seq<Index>, candidates: seq<nat>)
    requires Falling(ks, candidates) && |ks| >= 2
    ensures AreaOf(ks[1]) != AreaOf(ks[0])
  {
    assert ks[1] < ks[0];
  }

  lemma GreedyLone(k: Index, candidates: seq<nat>, fallback: int, at: nat)
    requires forall p :: p in candidates ==> p < 5
    ensures Greedy(G, candidates, Row([k]), fallback, at) == Leaf(AreaOf(k))
  {
    RowIsBsp([k], candidates);
    RowAt([k], 0);
    GreedyLeaf(G, candidates, Row([k]), fallback, at, -AreaOf(k));
  }

  lemma CountTwo(a: Index, b: Index, p: nat, front: bool)
    ensures Count([a, b], p, front) == Count([a], p, front) + if (p < b) == front then 1 else 0
    ensures Count([a], p, front) == if (p < a) == front then 1 else 0
    ensures Touching([a, b], p) == Touching([a], p) + if b == p || b == p + 1 then 1 else 0
    ensures Touching([a], p) == if a == p || a == p + 1 then 1 else 0
    ensures Beyond([a, b], p, front) == Beyond([a], p, front) + if (p < b) == front then [b] else []
    ensures Beyond([a], p, front) == if (p < a) == front then [a] else []
  {
    assert [a, b][..1] == [a] && [a][..0] == [];
  }

  lemma CountThree(a: Index, b: Index, c: Index, p: nat, front: bool)
    ensures Count([a, b, c], p, front) == Count([a, b], p, front) + if (p < c) == front then 1 else 0
    ensures Touching([a, b, c], p) == Touching([a, b], p) + if c == p || c == p + 1 then 1 else 0
    ensures Beyond([a, b, c], p, front) == Beyond([a, b], p, front) + if (p < c) == front then [c] else []
  {
    assert [a, b, c][..2] == [a, b];
  }

  lemma CountFour(a: Index, b: Index, c: Index, d: Index, p: nat, front: bool)
    ensures Count([a, b, c, d], p, front) == Count([a, b, c], p, front) + if (p < d) == front then 1 else 0
    ensures Touching([a, b, c, d], p) == Touching([a, b, c], p) + if d == p || d == p + 1 then 1 else 0
    ensures Beyond([a, b, c, d], p, front) == Beyond([a, b, c], p, front) + if (p < d) == front then [d] else []
  {
    assert [a, b, c, d][..3] == [a, b, c];
  }

  lemma ThreeCandidates(cells: seq<Cell>, x: nat, y: nat, z: nat)
    requires x < 5 && y < 5 && z < 5
    ensures Splitter(G, [x, y, z], cells, 1) == if Usable(cells, x) then x else -1
    ensures var b := Splitter(G, [x, y, z], cells, 1);
            Splitter(G, [x, y, z], cells, 2) ==
              if Usable(cells, y) && (b < 0 || Score(G, cells, y) > Score(G, cells, x)) then y else b
    ensures var b := Splitter(G, [x, y, z], cells, 2);
            (b < 0 || b < 5) && Splitter(G, [x, y, z], cells, 3) ==
              if Usable(cells, z) && (b < 0 || Score(G, cells, z) > Score(G, cells, b)) then z else b
  {
    hide Usable, Score;
  }

  /** On the front four strips the plane across the axis wins at once, although it cuts off only one of them... */
  lemma SplitterOfFour()
    ensures Splitter(G, [3, 4, 2], Row([5, 4, 3, 2]), 3) == 4
    ensures Beyond([5, 4, 3, 2], 4, true) == [5] && Beyond([5, 4, 3, 2], 4, false) == [4, 3, 2]
  {
    hide Usable, Score, Splitter, Row;
    ThreeCandidates(Row([5, 4, 3, 2]), 3, 4, 2);
    forall p: nat, front: bool | p < 5
      ensures Count([5, 4, 3, 2], p, front) ==
              (if (p < 5) == front then 1 else 0) + (if (p < 4) == front then 1 else 0)
              + (if (p < 3) == front then 1 else 0) + if (p < 2) == front then 1 else 0
    {
      CountTwo(5, 4, p, front);
      CountThree(5, 4, 3, p, front);
      CountFour(5, 4, 3, 2, p, front);
    }
    TouchingFour(3);
    TouchingFour(4);
    TouchingFour(2);
    RowScores([5, 4, 3, 2], 3);
    RowScores([5, 4, 3, 2], 4);
    RowScores([5, 4, 3, 2], 2);
    forall front: bool | true
      ensures Beyond([5, 4, 3, 2], 4, front) == if front then [5] else [4, 3, 2]
    {
      CountTwo(5, 4, 4, front);
      CountThree(5, 4, 3, 4, front);
      CountFour(5, 4, 3, 2, 4, front);
    }
    assert Beyond([5, 4, 3, 2], 4, true) == [5] && Beyond([5, 4, 3, 2], 4, false) == [4, 3, 2];
  }

  lemma TouchingFour(p: nat)
    requires 2 <= p <= 4
    ensures Touching([5, 4, 3, 2], p) == 2
  {
    CountTwo(5, 4, p, true);
    CountThree(5, 4, 3, p, true);
    CountFour(5, 4, 3, 2, p, true);
  }

  /** ...which leaves three in a row, and the first candidate that tells them apart is no better than the last. */
  lemma SplitterOfThree()
    ensures Splitter(G, [3, 4, 2], Row([4, 3, 2]), 3) == 3
    ensures Beyond([4, 3, 2], 3, true) == [4] && Beyond([4, 3, 2], 3, false) == [3, 2]
  {
    hide Usable, Score, Splitter, Row;
    ThreeCandidates(Row([4, 3, 2]), 3, 4, 2);
    EvaluateThree(3, true);
    EvaluateThree(3, false);
    EvaluateThree(4, true);
    EvaluateThree(4, false);
    EvaluateThree(2, true);
    EvaluateThree(2, false);
    RowScores([4, 3, 2], 3);
    RowScores([4, 3, 2], 4);
    RowScores([4, 3, 2], 2);
    assert Beyond([4, 3, 2], 3, true) == [4] && Beyond([4, 3, 2], 3, false) == [3, 2];
  }

  lemma EvaluateThree(p: nat, front: bool)
    requires 2 <= p <= 4
    ensures Count([4, 3, 2], p, front) ==
            (if (p < 4) == front then 1 else 0) + (if (p < 3) == front then 1 else 0)
            + if (p < 2) == front then 1 else 0
    ensures Touching([4, 3, 2], p) == if p == 4 then 1 else 2
    ensures Beyond([4, 3, 2], p, front) ==
            (if (p < 4) == front then [4 as Index] else []) + (if (p < 3) == front then [3 as Index] else [])
            + if (p < 2) == front then [2 as Index] else []
  {
    CountTwo(4, 3, p, front);
    CountThree(4, 3, 2, p, front);
  }

  lemma SplitterOfTwo()
    ensures Splitter(G, [3, 4, 2], Row([3, 2]), 3) == 2
    ensures Beyond([3, 2], 2, true) == [3] && Beyond([3, 2], 2, false) == [2]
    ensures Splitter(G, [0], Row([1, 0]), 1) == 0
    ensures Beyond([1, 0], 0, true) == [1] && Beyond([1, 0], 0, false) == [0]
  {
    hide Usable, Score, Row;
    ThreeCandidates(Row([3, 2]), 3, 4, 2);
    forall front: bool, p: nat
      ensures Count([3, 2], p, front) == (if (p < 3) == front then 1 else 0) + if (p < 2) == front then 1 else 0
      ensures Count([1, 0], p, front) == (if (p < 1) == front then 1 else 0) + if (p < 0) == front then 1 else 0
    {
      CountTwo(3, 2, p, front);
      CountTwo(1, 0, p, front);
    }
    CountTwo(3, 2, 2, true);
    CountTwo(3, 2, 2, false);
    CountTwo(1, 0, 0, true);
    CountTwo(1, 0, 0, false);
    RowScores([3, 2], 3);
    RowScores([3, 2], 4);
    RowScores([3, 2], 2);
    RowScores([1, 0], 0);
  }

  /** The front four strips are built three records deep, where two would do. */
  lemma GreedyOfFour(at: nat)
    ensures BspCells(Row([5, 4, 3, 2]), [3, 4, 2], 5)
    ensures Greedy(G, [3, 4, 2], Row([5, 4, 3, 2]), 0, at) == NewFront(at)
  {
    hide Greedy, Splitter, BspCells, Row, Beyond, AreaOf;
    var candidates: seq<nat> := [3, 4, 2];
    FallingRows();
    RowIsBsp([5, 4, 3, 2], candidates);
    RowIsBsp([4, 3, 2], candidates);
    RowIsBsp([3, 2], candidates);
    SplitterOfFour();
    SplitterOfThree();
    SplitterOfTwo();
    GreedyRow([5, 4, 3, 2], candidates, 0, at, 4);
    GreedyLone(5, candidates, -AreaOf(5), at + 1);
    GreedyRow([4, 3, 2], candidates, -AreaOf(5), at + 1, 3);
    GreedyLone(4, candidates, -AreaOf(4), at + 2);
    GreedyRow([3, 2], candidates, -AreaOf(4), at + 2, 2);
    GreedyLone(3, candidates, -AreaOf(3), at + 3);
    GreedyLone(2, candidates, -AreaOf(3), at + 3);
  }

  lemma FallingRows()
    ensures Falling([5, 4, 3, 2], [3, 4, 2]) && Falling([4, 3, 2], [3, 4, 2]) && Falling([3, 2], [3, 4, 2])
    ensures Falling([1, 0], [0])
  {
  }

  function NewFront(at: nat): (t: Tree)
    ensures Fits(t, |G.planes|) && t.Split?
  {
    assert AreaOf(3) >= 0 && AreaOf(2) >= 0 && |G.planes| == 5;
    var last := Split(at + 2, 2, Leaf(AreaOf(3)), Leaf(AreaOf(2)));
    assert Fits(last.front, 5) && Fits(last.back, 5) && Fits(last, |G.planes|);
    Split(at, 4, Leaf(AreaOf(5)), Split(at + 1, 3, Leaf(AreaOf(4)), last))
  }

  /** Two neighbouring strips, told apart by one record. */
  function Pair(x: nat, p: nat): (t: Tree)
    requires p < 5
    ensures t.Split? && t.at == x && Fits(t, |G.planes|) && Depth(t) == 1 && Indices(t) == {x as int} && Proper(t)
  {
    var t := Split(x, p, Leaf(AreaOf(p + 1)), Leaf(AreaOf(p)));
    assert Indices(t.front) == {} && Indices(t.back) == {} && Depth(t.front) == 0 && Depth(t.back) == 0;
    t
  }

  lemma GreedyOfTwo(at: nat)
    ensures BspCells(Row([1, 0]), [0], 5)
    ensures Greedy(G, [0], Row([1, 0]), 0, at) == Pair(at, 0)
  {
    hide Greedy, Splitter, BspCells, Row, Beyond, AreaOf;
    FallingRows();
    RowIsBsp([1, 0], [0]);
    SplitterOfTwo();
    GreedyRow([1, 0], [0], 0, at, 0);
    GreedyLone(1, [0], -AreaOf(1), at + 1);
    GreedyLone(0, [0], -AreaOf(1), at + 1);
  }
}
