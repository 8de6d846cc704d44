/**
 Gathering what is to be rebuilt (src/backend/aas_augment.c:1295-1489): the
 slots where the shipped tree hands over to generated records, and for each the
 leaf cells of the generated subtree and the planes it uses.
 */
module Collect {
  import opened Options
  import opened Bsp
  import opened SearchTree
  import opened Cells

  predicate Fits(t: Tree, planes: nat) {
    match t
    case Leaf(area) => area >= 0
    case Split(_, plane, front, back) => 0 <= plane < planes && Fits(front, planes) && Fits(back, planes)
  }

  lemma {:induction false} SpellsFits(nodes: seq<Node>, planes: nat, n: int, t: Tree)
    requires Spells(nodes, planes, n, t)
    ensures Fits(t, planes)
    decreases t
  {
    match t
    case Leaf(_) =>
    case Split(at, _, front, back) =>
      SpellsFits(nodes, planes, nodes[at].child0, front);
      SpellsFits(nodes, planes, nodes[at].child1, back);
  }

  // ---- the leaf cells of a subtree ----

  function LeafCells(g: Geometry, t: Tree, cell: Cell): seq<Cell>
    requires t.Split? && Fits(t, |g.planes|)
    decreases t, 1
  {
    SideCells(g, t, true, cell) + SideCells(g, t, false, cell)
  }

  function SideCells(g: Geometry, t: Tree, side: bool, cell: Cell): seq<Cell>
    requires t.Split? && Fits(t, |g.planes|)
    decreases t, 0
  {
    match g.Clip(cell, t.plane, side)
    case None => []
    case Some(part) =>
      match t.Child(side)
      case Leaf(area) => [part.(leaf := -area)]
      case Split(_, _, _, _) => LeafCells(g, t.Child(side), part)
  }

  /** The planes of the nodes that are visited. */
  function UsedPlanes(g: Geometry, t: Tree, cell: Cell): set<nat>
    requires t.Split? && Fits(t, |g.planes|)
    decreases t, 1
  {
    {t.plane} + SidePlanes(g, t, true, cell) + SidePlanes(g, t, false, cell)
  }

  function SidePlanes(g: Geometry, t: Tree, side: bool, cell: Cell): set<nat>
    requires t.Split? && Fits(t, |g.planes|)
    decreases t, 0
  {
    match g.Clip(cell, t.plane, side)
    case None => {}
    case Some(part) => if t.Child(side).Split? then UsedPlanes(g, t.Child(side), part) else {}
  }

  /** The planes seen so far, and then those of the nodes visited, each where it is first met. */
  function PlaneList(g: Geometry, t: Tree, cell: Cell, seen: seq<nat>): (r: seq<nat>)
    requires t.Split? && Fits(t, |g.planes|)
    ensures forall p :: p in r <==> p in seen || p in UsedPlanes(g, t, cell)
    decreases t, 1
  {
    var met: seq<nat> := if t.plane in seen then seen else seen + [t.plane];
    assert forall p: nat :: p in met <==> p in seen || p == t.plane;
    SideList(g, t, false, cell, SideList(g, t, true, cell, met))
  }

  function SideList(g: Geometry, t: Tree, side: bool, cell: Cell, seen: seq<nat>): (r: seq<nat>)
    requires t.Split? && Fits(t, |g.planes|)
    ensures forall p :: p in r <==> p in seen || p in SidePlanes(g, t, side, cell)
    decreases t, 0
  {
    match g.Clip(cell, t.plane, side)
    case None => seen
    case Some(part) => if t.Child(side).Split? then PlaneList(g, t.Child(side), part, seen) else seen
  }

  ghost predicate Within(part: Cell, cell: Cell, t: Tree) {
    && part.regions <= cell.regions
    && forall s :: s in part.regions ==> part.leaf == -Area(t, s)
  }

  ghost predicate Covered(cells: seq<Cell>, s: Signs) {
    exists i :: 0 <= i < |cells| && s in cells[i].regions
  }

  /** The leaf cells cover the slot's cell, carry what lookup answers, and are
      the cells of a BSP over the planes the subtree used. */
  lemma {:induction false} LeafCellsFacts(g: Geometry, t: Tree, cell: Cell, candidates: seq<nat>)
    requires t.Split? && Fits(t, |g.planes|)
    requires forall s :: s in cell.regions ==> |s| == |g.planes|
    requires forall p :: p in candidates ==> p < |g.planes|
    requires forall p :: p in UsedPlanes(g, t, cell) ==> p in candidates
    ensures BspCells(LeafCells(g, t, cell), candidates, |g.planes|)
    ensures forall i :: 0 <= i < |LeafCells(g, t, cell)| ==> Within(LeafCells(g, t, cell)[i], cell, t)
    ensures forall s :: s in cell.regions ==> Covered(LeafCells(g, t, cell), s)
    decreases t, 1
  {
    SideCellsFacts(g, t, true, cell, candidates);
    SideCellsFacts(g, t, false, cell, candidates);
    var fronts, backs := SideCells(g, t, true, cell), SideCells(g, t, false, cell);
    var all := fronts + backs;
    forall i, k | 0 <= i < k < |all| ensures Separated(all[i], all[k], candidates) {
      if k < |fronts| {
        assert Separated(fronts[i], fronts[k], candidates);
      } else if i >= |fronts| {
        assert Separated(backs[i - |fronts|], backs[k - |fronts|], candidates);
      } else {
        assert OneSide(fronts[i], t.plane, true) && OneSide(backs[k - |fronts|], t.plane, false);
        assert Apart(all[i], all[k], t.plane);
      }
    }
    forall i | 0 <= i < |all| ensures GoodCell(all[i], |g.planes|) && Within(all[i], cell, t) {
      if i < |fronts| {
        assert GoodCell(fronts[i], |g.planes|) && Within(fronts[i], cell, t);
      } else {
        assert GoodCell(backs[i - |fronts|], |g.planes|) && Within(backs[i - |fronts|], cell, t);
      }
    }
    forall s | s in cell.regions ensures Covered(all, s) {
      if Side(s, t.plane) {
        assert Covered(fronts, s);
        var i :| 0 <= i < |fronts| && s in fronts[i].regions;
        assert all[i] == fronts[i];
      } else {
        assert Covered(backs, s);
        var i :| 0 <= i < |backs| && s in backs[i].regions;
        assert all[|fronts| + i] == backs[i];
      }
    }
  }

  ghost predicate OneSide(cell: Cell, plane: nat, side: bool) {
    forall s :: s in cell.regions ==> Side(s, plane) == side
  }

  lemma {:induction false} SideCellsFacts(g: Geometry, t: Tree, side: bool, cell: Cell, candidates: seq<nat>)
    requires t.Split? && Fits(t, |g.planes|)
    requires forall s :: s in cell.regions ==> |s| == |g.planes|
    requires forall p :: p in candidates ==> p < |g.planes|
    requires forall p :: p in SidePlanes(g, t, side, cell) ==> p in candidates
    ensures BspCells(SideCells(g, t, side, cell), candidates, |g.planes|)
    ensures forall i :: 0 <= i < |SideCells(g, t, side, cell)| ==>
      Within(SideCells(g, t, side, cell)[i], cell, t) && OneSide(SideCells(g, t, side, cell)[i], t.plane, side)
    ensures forall s :: s in cell.regions && Side(s, t.plane) == side ==> Covered(SideCells(g, t, side, cell), s)
    decreases t, 0
  {
    var clipped := g.Clip(cell, t.plane, side);
    if clipped.Some? {
      var part, child := clipped.value, t.Child(side);
      var parts := SideCells(g, t, side, cell);
      if child.Split? {
        LeafCellsFacts(g, child, part, candidates);
        forall i | 0 <= i < |parts|
          ensures Within(parts[i], cell, t) && OneSide(parts[i], t.plane, side)
        {
          assert Within(parts[i], part, child);
        }
      } else {
        assert parts == [part.(leaf := -child.area)];
        assert Within(parts[0], cell, t) && OneSide(parts[0], t.plane, side);
        forall s | s in cell.regions && Side(s, t.plane) == side ensures Covered(parts, s) {
          assert s in parts[0].regions;
        }
      }
    }
  }

  lemma AllPlanesServe(g: Geometry, t: Tree, cell: Cell) returns (candidates: seq<nat>)
    requires t.Split? && Fits(t, |g.planes|)
    ensures forall p :: p in candidates ==> p < |g.planes|
    ensures forall p :: p in UsedPlanes(g, t, cell) ==> p in candidates
  {
    hide UsedPlanes;
    candidates := seq(|g.planes|, i requires 0 <= i < |g.planes| => i as nat);
    forall p | p in UsedPlanes(g, t, cell) ensures p in candidates {
      UsedFit(g, t, cell, p);
      assert candidates[p] == p;
    }
  }

  /** Every region of the cell is in a leaf cell that carries its answer. */
  lemma LeafCellOf(g: Geometry, t: Tree, cell: Cell, s: Signs) returns (i: nat)
    requires t.Split? && Fits(t, |g.planes|) && s in cell.regions
    requires forall r :: r in cell.regions ==> |r| == |g.planes|
    ensures i < |LeafCells(g, t, cell)| && s in LeafCells(g, t, cell)[i].regions
    ensures Within(LeafCells(g, t, cell)[i], cell, t)
  {
    hide Within, LeafCells, UsedPlanes, Fits, BspCells;
    var candidates := AllPlanesServe(g, t, cell);
    LeafCellsFacts(g, t, cell, candidates);
    var cells := LeafCells(g, t, cell);
    assert Covered(cells, s);
    i :| 0 <= i < |cells| && s in cells[i].regions;
  }

  /** Rebuilding over the leaf cells keeps lookup, for every region of the cell. */
  lemma LeafCellsKeepArea(g: Geometry, t: Tree, cell: Cell, u: Tree, s: Signs)
    requires t.Split? && Fits(t, |g.planes|)
    requires forall r :: r in cell.regions ==> |r| == |g.planes|
    requires forall i, r :: 0 <= i < |LeafCells(g, t, cell)| && r in LeafCells(g, t, cell)[i].regions ==>
      Area(u, r) == -LeafCells(g, t, cell)[i].leaf
    requires s in cell.regions
    ensures Area(u, s) == Area(t, s)
  {
    hide LeafCells, Fits;
    var i := LeafCellOf(g, t, cell, s);
    assert Within(LeafCells(g, t, cell)[i], cell, t);
  }

  lemma {:induction false} UsedFit(g: Geometry, t: Tree, cell: Cell, p: nat)
    requires t.Split? && Fits(t, |g.planes|) && p in UsedPlanes(g, t, cell)
    ensures p < |g.planes|
    decreases t
  {
    forall side | p in SidePlanes(g, t, side, cell) ensures p < |g.planes| {
      UsedFit(g, t.Child(side), g.Clip(cell, t.plane, side).value, p);
    }
  }

  /** Walk a generated node, appending leaf cells and planes. */
  method CollectLeaves(m: AasTree, g: Geometry, node: int, cell: Cell, cells: seq<Cell>, candidates: seq<nat>,
                       guard: nat, ghost t: Tree)
    returns (cells': seq<Cell>, candidates': seq<nat>, ok: bool)
    requires g.planes == m.planes && t.Split? && Spells(m.nodes, |m.planes|, node, t) && Fits(t, |g.planes|)
    requires guard <= MAX_STEPS + 1
    ensures ok ==> cells' == cells + LeafCells(g, t, cell)
    ensures ok ==> candidates' == PlaneList(g, t, cell, candidates)
    ensures guard + Depth(t) <= MAX_STEPS + 1 ==> ok
    decreases MAX_STEPS + 1 - guard
  {
    cells', candidates', ok := cells, candidates, false;
    if guard > MAX_STEPS {
      return;
    }
    var record := m.nodes[node];
    if record.plane !in candidates {
      candidates' := candidates + [record.plane];
    }
    cells', candidates', ok := CollectSide(m, g, node, true, cell, cells', candidates', guard, t);
    if ok {
      cells', candidates', ok := CollectSide(m, g, node, false, cell, cells', candidates', guard, t);
    }
  }

  method CollectSide(m: AasTree, g: Geometry, node: int, side: bool, cell: Cell, cells: seq<Cell>, candidates: seq<nat>,
                     guard: nat, ghost t: Tree)
    returns (cells': seq<Cell>, candidates': seq<nat>, ok: bool)
    requires g.planes == m.planes && t.Split? && Spells(m.nodes, |m.planes|, node, t) && Fits(t, |g.planes|)
    requires guard <= MAX_STEPS
    ensures ok ==> cells' == cells + SideCells(g, t, side, cell)
    ensures ok ==> candidates' == SideList(g, t, side, cell, candidates)
    ensures guard + Depth(t) <= MAX_STEPS + 1 ==> ok
    decreases MAX_STEPS + 1 - guard, 0
  {
    cells', candidates', ok := cells, candidates, true;
    var child := m.nodes[node].Child(side);
    var part := g.Clip(cell, m.nodes[node].plane, side);
    if part.None? {
      return;
    }
    if child > 0 {
      cells', candidates', ok := CollectLeaves(m, g, child, part.value, cells, candidates, guard + 1, t.Child(side));
    } else {
      cells' := cells + [part.value.(leaf := child)];
    }
  }

  // ---- the slots where generated records begin ----

  /** A slot of a shipped record that holds a generated subtree, and the part
      of the world its points come from. */
  datatype Handover = Handover(slot: Slot, part: Cell)

  /** Every handover the walk of the shipped tree comes to. */
  function Handovers(g: Geometry, t: Tree, cell: Cell, shipped: nat): set<Handover>
    requires Fits(t, |g.planes|)
    decreases t, 1
  {
    match t
    case Leaf(_) => {}
    case Split(_, _, _, _) => SideHandovers(g, t, true, cell, shipped) + SideHandovers(g, t, false, cell, shipped)
  }

  function SideHandovers(g: Geometry, t: Tree, side: bool, cell: Cell, shipped: nat): set<Handover>
    requires t.Split? && Fits(t, |g.planes|)
    decreases t, 0
  {
    match g.Clip(cell, t.plane, side)
    case None => {}
    case Some(part) =>
      match t.Child(side)
      case Leaf(_) => {}
      case Split(at, _, _, _) =>
        if at < shipped then Handovers(g, t.Child(side), part, shipped) else {Handover(Slot(t.at, side), part)}
  }

  /** The walk gives up: a generated subtree sits in a slot without volume. */
  predicate GivesUp(g: Geometry, t: Tree, cell: Cell, shipped: nat)
    requires Fits(t, |g.planes|)
    decreases t, 1
  {
    t.Split? && (SideGivesUp(g, t, true, cell, shipped) || SideGivesUp(g, t, false, cell, shipped))
  }

  predicate SideGivesUp(g: Geometry, t: Tree, side: bool, cell: Cell, shipped: nat)
    requires t.Split? && Fits(t, |g.planes|)
    decreases t, 0
  {
    var part := g.Clip(cell, t.plane, side);
    var child := t.Child(side);
    child.Split? && if part.None? then child.at >= shipped
                    else child.at < shipped && GivesUp(g, child, part.value, shipped)
  }

  /** The handovers are slots of shipped records that hold generated ones, with the cell of points that reach them. */
  lemma {:induction false} HandoverFacts(g: Geometry, t: Tree, cell: Cell, shipped: nat, h: Handover)
    requires Fits(t, |g.planes|) && Proper(t) && h in Handovers(g, t, cell, shipped)
    requires t.Split? ==> t.at < shipped
    ensures h.slot.node in Indices(t) && h.slot.node < shipped
    ensures Under(t, h.slot).Split? && Under(t, h.slot).at >= shipped
    ensures Fits(Under(t, h.slot), |g.planes|)
    ensures h.part.regions <= cell.regions
    decreases t, 1
  {
    if h in SideHandovers(g, t, true, cell, shipped) {
      SideHandoverFacts(g, t, true, cell, shipped, h);
    } else {
      SideHandoverFacts(g, t, false, cell, shipped, h);
    }
  }

  lemma {:induction false} SideHandoverFacts(g: Geometry, t: Tree, side: bool, cell: Cell, shipped: nat, h: Handover)
    requires t.Split? && Fits(t, |g.planes|) && Proper(t) && h in SideHandovers(g, t, side, cell, shipped)
    requires t.at < shipped
    ensures h.slot.node in Indices(t) && h.slot.node < shipped
    ensures Under(t, h.slot).Split? && Under(t, h.slot).at >= shipped
    ensures Fits(Under(t, h.slot), |g.planes|)
    ensures h.part.regions <= cell.regions
    ensures h.slot == Slot(t.at, side) || h.slot.node in Indices(t.Child(side))
    decreases t, 0
  {
    var part := g.Clip(cell, t.plane, side).value;
    if t.Child(side).at < shipped {
      HandoverFacts(g, t.Child(side), part, shipped, h);
    }
  }

  /** One handover per slot. */
  lemma {:induction false} OneHandover(g: Geometry, t: Tree, cell: Cell, shipped: nat, h: Handover, k: Handover)
    requires Fits(t, |g.planes|) && Proper(t) && (t.Split? ==> t.at < shipped)
    requires h in Handovers(g, t, cell, shipped) && k in Handovers(g, t, cell, shipped) && h.slot == k.slot
    ensures h == k
    decreases t
  {
    forall side | h in SideHandovers(g, t, side, cell, shipped) ensures h == k {
      SideHandoverFacts(g, t, side, cell, shipped, h);
      if k in SideHandovers(g, t, side, cell, shipped) {
        if t.Child(side).at < shipped {
          OneHandover(g, t.Child(side), g.Clip(cell, t.plane, side).value, shipped, h, k);
        }
      } else {
        SideHandoverFacts(g, t, !side, cell, shipped, k);
      }
    }
  }

  // ---- the walk of the shipped tree ----

  datatype Frame = Frame(node: int, cell: Cell)

  /** A subtree to rebuild: its slot, its leaf cells and its planes. */
  datatype Work = Work(slot: Slot, cells: seq<Cell>, candidates: seq<nat>)

  ghost predicate WorkFor(g: Geometry, nodes: seq<Node>, w: Work, h: Handover, sub: Tree) {
    && w.slot == h.slot && 0 <= w.slot.node < |nodes|
    && Spells(nodes, |g.planes|, nodes[w.slot.node].Child(w.slot.front), sub)
    && sub.Split? && Fits(sub, |g.planes|)
    && w.cells == LeafCells(g, sub, h.part)
    && w.candidates == PlaneList(g, sub, h.part, [])
  }

  ghost predicate Walking(g: Geometry, nodes: seq<Node>, shipped: nat, limit: nat, stack: seq<Frame>, trees: seq<Tree>) {
    && |stack| == |trees|
    && forall i :: 0 <= i < |stack| ==>
         && trees[i].Split? && trees[i].at < shipped && Depth(trees[i]) <= limit
         && Spells(nodes, |g.planes|, stack[i].node, trees[i]) && Fits(trees[i], |g.planes|)
  }

  /** A handover and the generated subtree it holds. */
  datatype Task = Task(h: Handover, sub: Tree)

  /** The handovers in the order in which the walk lists them: a node's own ones, then those behind it, then those
      in front. */
  function WalkOrder(g: Geometry, t: Tree, cell: Cell, shipped: nat): (tasks: seq<Task>)
    requires Fits(t, |g.planes|)
    ensures forall w :: w in tasks ==> w.sub.Split? && Fits(w.sub, |g.planes|)
    decreases t, 1
  {
    match t
    case Leaf(_) => []
    case Split(_, _, _, _) =>
      OwnTasks(g, t, true, cell, shipped) + OwnTasks(g, t, false, cell, shipped)
      + DeepTasks(g, t, false, cell, shipped) + DeepTasks(g, t, true, cell, shipped)
  }

  function OwnTasks(g: Geometry, t: Tree, side: bool, cell: Cell, shipped: nat): seq<Task>
    requires t.Split? && Fits(t, |g.planes|)
  {
    var part := g.Clip(cell, t.plane, side);
    if part.Some? && t.Child(side).Split? && t.Child(side).at >= shipped
    then [Task(Handover(Slot(t.at, side), part.value), t.Child(side))] else []
  }

  function DeepTasks(g: Geometry, t: Tree, side: bool, cell: Cell, shipped: nat): (tasks: seq<Task>)
    requires t.Split? && Fits(t, |g.planes|)
    ensures forall w :: w in tasks ==> w.sub.Split? && Fits(w.sub, |g.planes|)
    decreases t, 0
  {
    var part := g.Clip(cell, t.plane, side);
    if part.Some? && t.Child(side).Split? && t.Child(side).at < shipped
    then WalkOrder(g, t.Child(side), part.value, shipped) else []
  }

  /** The handovers the tasks are for, and the subtrees. */
  function HandoversOf(tasks: seq<Task>): (r: seq<Handover>)
    ensures |r| == |tasks| && forall k :: 0 <= k < |r| ==> r[k] == tasks[k].h
  {
    seq(|tasks|, k requires 0 <= k < |tasks| => tasks[k].h)
  }

  function SubsOf(tasks: seq<Task>): (r: seq<Tree>)
    ensures |r| == |tasks| && forall k :: 0 <= k < |r| ==> r[k] == tasks[k].sub
  {
    seq(|tasks|, k requires 0 <= k < |tasks| => tasks[k].sub)
  }

  /** The work of one task. */
  function WorkOf(g: Geometry, task: Task): Work
    requires task.sub.Split? && Fits(task.sub, |g.planes|)
  {
    Work(task.h.slot, LeafCells(g, task.sub, task.h.part), PlaneList(g, task.sub, task.h.part, []))
  }

  function WorksOf(g: Geometry, tasks: seq<Task>): (works: seq<Work>)
    requires forall w :: w in tasks ==> w.sub.Split? && Fits(w.sub, |g.planes|)
    ensures |works| == |tasks| && forall k :: 0 <= k < |tasks| ==> tasks[k] in tasks && works[k] == WorkOf(g, tasks[k])
  {
    assert forall k :: 0 <= k < |tasks| ==> tasks[k] in tasks;
    seq(|tasks|, k requires 0 <= k < |tasks| => WorkOf(g, tasks[k]))
  }

  /** The walk lists exactly the handovers. */
  lemma {:induction false} WalkOrderIsAll(g: Geometry, t: Tree, cell: Cell, shipped: nat)
    requires Fits(t, |g.planes|)
    ensures AsSet(HandoversOf(WalkOrder(g, t, cell, shipped))) == Handovers(g, t, cell, shipped)
    decreases t
  {
    if t.Split? {
      SideOrderIsAll(g, t, true, cell, shipped);
      SideOrderIsAll(g, t, false, cell, shipped);
      var fronts, backs := OwnTasks(g, t, true, cell, shipped), OwnTasks(g, t, false, cell, shipped);
      var front, back := DeepTasks(g, t, true, cell, shipped), DeepTasks(g, t, false, cell, shipped);
      assert WalkOrder(g, t, cell, shipped) == fronts + backs + back + front;
      JoinSets(fronts, backs);
      JoinSets(fronts + backs, back);
      JoinSets(fronts + backs + back, front);
    }
  }

  lemma {:induction false} SideOrderIsAll(g: Geometry, t: Tree, side: bool, cell: Cell, shipped: nat)
    requires t.Split? && Fits(t, |g.planes|)
    ensures AsSet(HandoversOf(OwnTasks(g, t, side, cell, shipped))) + AsSet(HandoversOf(DeepTasks(g, t, side, cell, shipped)))
            == SideHandovers(g, t, side, cell, shipped)
    decreases t, 0
  {
    var part := g.Clip(cell, t.plane, side);
    if part.Some? && t.Child(side).Split? && t.Child(side).at < shipped {
      WalkOrderIsAll(g, t.Child(side), part.value, shipped);
    } else if part.Some? && t.Child(side).Split? {
      var h := Handover(Slot(t.at, side), part.value);
      assert HandoversOf(OwnTasks(g, t, side, cell, shipped)) == [h];
    }
  }

  lemma JoinSets(a: seq<Task>, b: seq<Task>)
    ensures AsSet(HandoversOf(a + b)) == AsSet(HandoversOf(a)) + AsSet(HandoversOf(b))
  {
    assert HandoversOf(a + b) == HandoversOf(a) + HandoversOf(b);
  }

  /** What the walk has still to list. */
  ghost function Ahead(g: Geometry, shipped: nat, stack: seq<Frame>, trees: seq<Tree>): seq<Task>
    requires |stack| == |trees| && forall i :: 0 <= i < |trees| ==> Fits(trees[i], |g.planes|)
  {
    if stack == [] then []
    else
      var last := |stack| - 1;
      WalkOrder(g, trees[last], stack[last].cell, shipped) + Ahead(g, shipped, stack[..last], trees[..last])
  }

  ghost function Tasks(hs: seq<Handover>, subs: seq<Tree>): (r: seq<Task>)
    requires |hs| == |subs|
    ensures |r| == |hs| && HandoversOf(r) == hs && SubsOf(r) == subs
  {
    seq(|hs|, k requires 0 <= k < |hs| => Task(hs[k], subs[k]))
  }

  ghost predicate SomeGivesUp(g: Geometry, shipped: nat, stack: seq<Frame>, trees: seq<Tree>)
    requires |stack| == |trees| && forall i :: 0 <= i < |trees| ==> Fits(trees[i], |g.planes|)
  {
    exists i :: 0 <= i < |stack| && GivesUp(g, trees[i], stack[i].cell, shipped)
  }

  ghost predicate WorksFor(g: Geometry, nodes: seq<Node>, works: seq<Work>, hs: seq<Handover>, subs: seq<Tree>) {
    && |works| == |hs| == |subs|
    && forall k :: 0 <= k < |works| ==> WorkFor(g, nodes, works[k], hs[k], subs[k])
  }

  ghost function AsSet(hs: seq<Handover>): set<Handover> {
    set h | h in hs
  }

  ghost predicate Distinct(hs: seq<Handover>) {
    forall k, l :: 0 <= k < l < |hs| ==> hs[k] != hs[l]
  }

  /** No handover is listed twice, and none can be: the trees still to walk
      share no record with each other or with a slot already listed. */
  ghost predicate Fresh(hs: seq<Handover>, trees: seq<Tree>) {
    && Distinct(hs)
    && (forall i :: 0 <= i < |trees| ==> Proper(trees[i]))
    && (forall i, j :: 0 <= i < j < |trees| ==> Indices(trees[i]) !! Indices(trees[j]))
    && (forall k, i :: 0 <= k < |hs| && 0 <= i < |trees| ==> hs[k].slot.node !in Indices(trees[i]))
  }

  /** One side of t may still be walked. */
  ghost predicate Room(hs: seq<Handover>, trees: seq<Tree>, t: Tree, side: bool) {
    && Fresh(hs, trees) && t.Split? && Proper(t)
    && (forall i :: 0 <= i < |trees| ==> t.at !in Indices(trees[i]) && Indices(trees[i]) !! Indices(t.Child(side)))
    && (forall k :: 0 <= k < |hs| ==> hs[k].slot.node !in Indices(t.Child(side)) && hs[k].slot != Slot(t.at, side))
  }

  lemma RoomIsFresh(hs: seq<Handover>, trees: seq<Tree>, t: Tree, side: bool)
    requires Room(hs, trees, t, side)
    ensures Fresh(hs, trees)
  {
  }

  lemma PopFresh(hs: seq<Handover>, trees: seq<Tree>, side: bool)
    requires Fresh(hs, trees) && trees != [] && trees[|trees| - 1].Split?
    ensures Room(hs, trees[..|trees| - 1], trees[|trees| - 1], side)
  {
    var t := trees[|trees| - 1];
    assert t.at in Indices(t) && Indices(t.Child(side)) <= Indices(t);
  }

  lemma PushFresh(hs: seq<Handover>, trees: seq<Tree>, t: Tree, side: bool)
    requires Room(hs, trees, t, side)
    ensures Fresh(hs, trees + [t.Child(side)])
    ensures Room(hs, trees, t, !side) ==> Room(hs, trees + [t.Child(side)], t, !side)
  {
    assert Indices(t.Child(side)) !! Indices(t.Child(!side));
  }

  lemma ListFresh(hs: seq<Handover>, trees: seq<Tree>, t: Tree, side: bool, part: Cell)
    requires Room(hs, trees, t, side)
    ensures Fresh(hs + [Handover(Slot(t.at, side), part)], trees)
    ensures Room(hs, trees, t, !side) ==> Room(hs + [Handover(Slot(t.at, side), part)], trees, t, !side)
  {
  }

  lemma PushWalk(g: Geometry, nodes: seq<Node>, shipped: nat, limit: nat, stack: seq<Frame>, trees: seq<Tree>,
                 frame: Frame, t: Tree)
    requires Walking(g, nodes, shipped, limit, stack, trees)
    requires t.Split? && t.at < shipped && Depth(t) <= limit && Fits(t, |g.planes|)
    requires Spells(nodes, |g.planes|, frame.node, t)
    ensures Walking(g, nodes, shipped, limit, stack + [frame], trees + [t])
    ensures Ahead(g, shipped, stack + [frame], trees + [t]) ==
            WalkOrder(g, t, frame.cell, shipped) + Ahead(g, shipped, stack, trees)
    ensures SomeGivesUp(g, shipped, stack + [frame], trees + [t]) <==>
      SomeGivesUp(g, shipped, stack, trees) || GivesUp(g, t, frame.cell, shipped)
    ensures Sizes(trees + [t]) == Sizes(trees) + Size(t)
  {
    var stack', trees' := stack + [frame], trees + [t];
    assert stack'[..|stack|] == stack && trees'[..|trees|] == trees;
    PopGivesUp(g, shipped, stack', trees');
    hide SomeGivesUp, GivesUp;
  }

  lemma ListWork(g: Geometry, nodes: seq<Node>, works: seq<Work>, hs: seq<Handover>, subs: seq<Tree>,
                 w: Work, h: Handover, sub: Tree)
    requires WorksFor(g, nodes, works, hs, subs) && WorkFor(g, nodes, w, h, sub)
    ensures WorksFor(g, nodes, works + [w], hs + [h], subs + [sub])
    ensures Tasks(hs + [h], subs + [sub]) == Tasks(hs, subs) + [Task(h, sub)]
  {
  }

  /** One side of one shipped node. */
  method WalkSide(m: AasTree, g: Geometry, shipped: nat, fr: Frame, side: bool, stack: seq<Frame>, works: seq<Work>,
                  ghost limit: nat, ghost t: Tree, ghost trees: seq<Tree>, ghost hs: seq<Handover>, ghost subs: seq<Tree>)
    returns (stack': seq<Frame>, works': seq<Work>, ok: bool,
             ghost trees': seq<Tree>, ghost hs': seq<Handover>, ghost subs': seq<Tree>)
    requires g.planes == m.planes && t.Split? && Spells(m.nodes, |m.planes|, fr.node, t) && Fits(t, |g.planes|)
    requires Depth(t) <= limit && Room(hs, trees, t, side)
    requires Walking(g, m.nodes, shipped, limit, stack, trees) && WorksFor(g, m.nodes, works, hs, subs)
    ensures Walking(g, m.nodes, shipped, limit, stack', trees') && WorksFor(g, m.nodes, works', hs', subs')
    ensures Fresh(hs', trees') && (Room(hs, trees, t, !side) ==> Room(hs', trees', t, !side))
    ensures Sizes(trees') <= Sizes(trees) + Size(t.Child(side))
    ensures ok ==> Tasks(hs', subs') == Tasks(hs, subs) + OwnTasks(g, t, side, fr.cell, shipped)
    ensures ok ==> Ahead(g, shipped, stack', trees') ==
                   DeepTasks(g, t, side, fr.cell, shipped) + Ahead(g, shipped, stack, trees)
    ensures ok ==> (SomeGivesUp(g, shipped, stack', trees') <==>
      SomeGivesUp(g, shipped, stack, trees) || SideGivesUp(g, t, side, fr.cell, shipped))
    ensures !ok ==> SideGivesUp(g, t, side, fr.cell, shipped) || Depth(t) > MAX_STEPS
  {
    stack', works', ok, trees', hs', subs' := stack, works, true, trees, hs, subs;
    hide Fresh, Room, Walking, Ahead, SomeGivesUp, Sizes, WorksFor, AsSet, Distinct;
    assert Fresh(hs, trees) by {
      RoomIsFresh(hs, trees, t, side);
    }
    var record := m.nodes[fr.node];
    var child := record.Child(side);
    if child <= 0 {
      return;
    }
    var part := g.Clip(fr.cell, record.plane, side);
    if part.None? {
      ok := child < shipped;
      return;
    }
    if child < shipped {
      PushFresh(hs, trees, t, side);
      PushWalk(g, m.nodes, shipped, limit, stack, trees, Frame(child, part.value), t.Child(side));
      stack', trees' := stack + [Frame(child, part.value)], trees + [t.Child(side)];
      return;
    }
    var cells, candidates, collected := CollectLeaves(m, g, child, part.value, [], [], 0, t.Child(side));
    if !collected {
      ok := false;
      return;
    }
    var work := Work(Slot(fr.node, side), cells, candidates);
    ghost var h := Handover(work.slot, part.value);
    ListFresh(hs, trees, t, side, part.value);
    ListWork(g, m.nodes, works, hs, subs, work, h, t.Child(side));
    works', hs', subs' := works + [work], hs + [h], subs + [t.Child(side)];
  }

  lemma PopWalk(g: Geometry, nodes: seq<Node>, shipped: nat, limit: nat, stack: seq<Frame>, trees: seq<Tree>)
    requires Walking(g, nodes, shipped, limit, stack, trees) && stack != []
    ensures |trees| == |stack|
    ensures var last := |stack| - 1;
            && Walking(g, nodes, shipped, limit, stack[..last], trees[..last])
            && Walking(g, nodes, shipped, limit, [stack[last]], [trees[last]])
            && Ahead(g, shipped, stack, trees) ==
               WalkOrder(g, trees[last], stack[last].cell, shipped) + Ahead(g, shipped, stack[..last], trees[..last])
            && (SomeGivesUp(g, shipped, stack, trees) <==>
                SomeGivesUp(g, shipped, stack[..last], trees[..last])
                || GivesUp(g, trees[last], stack[last].cell, shipped))
            && Sizes(trees) == Sizes(trees[..last]) + Size(trees[last])
  {
    PopGivesUp(g, shipped, stack, trees);
    hide SomeGivesUp, GivesUp;
  }

  lemma PopGivesUp(g: Geometry, shipped: nat, stack: seq<Frame>, trees: seq<Tree>)
    requires |stack| == |trees| && stack != [] && forall i :: 0 <= i < |trees| ==> Fits(trees[i], |g.planes|)
    ensures var last := |stack| - 1;
            SomeGivesUp(g, shipped, stack, trees) <==>
              SomeGivesUp(g, shipped, stack[..last], trees[..last]) || GivesUp(g, trees[last], stack[last].cell, shipped)
  {
    hide GivesUp;
    var last := |stack| - 1;
    if SomeGivesUp(g, shipped, stack[..last], trees[..last]) {
      var i :| 0 <= i < last && GivesUp(g, trees[..last][i], stack[..last][i].cell, shipped);
      assert GivesUp(g, trees[i], stack[i].cell, shipped);
    }
    if SomeGivesUp(g, shipped, stack, trees) && !GivesUp(g, trees[last], stack[last].cell, shipped) {
      var i :| 0 <= i < |stack| && GivesUp(g, trees[i], stack[i].cell, shipped);
      assert GivesUp(g, trees[..last][i], stack[..last][i].cell, shipped);
    }
  }

  /** Pop one shipped node and look at both sides. */
  method WalkNode(m: AasTree, g: Geometry, shipped: nat, stack: seq<Frame>, works: seq<Work>,
                  ghost limit: nat, ghost trees: seq<Tree>, ghost hs: seq<Handover>, ghost subs: seq<Tree>)
    returns (stack': seq<Frame>, works': seq<Work>, ok: bool,
             ghost trees': seq<Tree>, ghost hs': seq<Handover>, ghost subs': seq<Tree>)
    requires g.planes == m.planes && stack != [] && Fresh(hs, trees)
    requires Walking(g, m.nodes, shipped, limit, stack, trees) && WorksFor(g, m.nodes, works, hs, subs)
    ensures Walking(g, m.nodes, shipped, limit, stack', trees') && WorksFor(g, m.nodes, works', hs', subs')
    ensures Fresh(hs', trees')
    ensures Sizes(trees') < Sizes(trees)
    ensures ok ==> Tasks(hs', subs') + Ahead(g, shipped, stack', trees') == Tasks(hs, subs) + Ahead(g, shipped, stack, trees)
    ensures ok ==> (SomeGivesUp(g, shipped, stack', trees') <==> SomeGivesUp(g, shipped, stack, trees))
    ensures !ok ==> SomeGivesUp(g, shipped, stack, trees) || limit > MAX_STEPS
  {
    hide *;
    PopWalk(g, m.nodes, shipped, limit, stack, trees);
    var last := |stack| - 1;
    var fr := stack[last];
    ghost var u := trees[last];
    PoppedIs(g, m.nodes, shipped, limit, fr, u);
    PopFresh(hs, trees, true);
    PopFresh(hs, trees, false);
    stack', works', ok, trees', hs', subs' :=
      WalkSide(m, g, shipped, fr, true, stack[..last], works, limit, u, trees[..last], hs, subs);
    if ok {
      stack', works', ok, trees', hs', subs' :=
        WalkSide(m, g, shipped, fr, false, stack', works', limit, u, trees', hs', subs');
    }
  }

  lemma PoppedIs(g: Geometry, nodes: seq<Node>, shipped: nat, limit: nat, fr: Frame, t: Tree)
    requires Walking(g, nodes, shipped, limit, [fr], [t])
    ensures t.Split? && t.at < shipped && Depth(t) <= limit && Spells(nodes, |g.planes|, fr.node, t) && Fits(t, |g.planes|)
    ensures WalkOrder(g, t, fr.cell, shipped) ==
            OwnTasks(g, t, true, fr.cell, shipped) + OwnTasks(g, t, false, fr.cell, shipped)
            + DeepTasks(g, t, false, fr.cell, shipped) + DeepTasks(g, t, true, fr.cell, shipped)
    ensures GivesUp(g, t, fr.cell, shipped) <==>
            SideGivesUp(g, t, true, fr.cell, shipped) || SideGivesUp(g, t, false, fr.cell, shipped)
    ensures Size(t) > Size(t.Child(true)) + Size(t.Child(false))
  {
    assert [fr][0] == fr && [t][0] == t;
  }

  /** The whole walk: the work it returns is for exactly the handovers, in walking order. */
  method FindWork(m: AasTree, g: Geometry, shipped: nat, world: Cell, ghost t: Tree)
    returns (works: seq<Work>, ok: bool, ghost hs: seq<Handover>, ghost subs: seq<Tree>)
    requires g.planes == m.planes && m.Holds(t) && t.Split? && t.at < shipped && Fits(t, |g.planes|)
    ensures WorksFor(g, m.nodes, works, hs, subs)
    ensures ok ==> Tasks(hs, subs) == WalkOrder(g, t, world, shipped) && !GivesUp(g, t, world, shipped)
    ensures ok ==> AsSet(hs) == Handovers(g, t, world, shipped) && Distinct(hs)
    ensures !ok ==> GivesUp(g, t, world, shipped) || Depth(t) > MAX_STEPS
  {
    works, ok, hs, subs := [], true, [], [];
    var stack := [Frame(m.root, world)];
    ghost var trees := [t];
    assert stack[..0] == [] && trees[..0] == [];
    hide WorksFor;
    while |stack| > 0
      invariant Walking(g, m.nodes, shipped, Depth(t), stack, trees) && WorksFor(g, m.nodes, works, hs, subs)
      invariant Fresh(hs, trees)
      invariant Tasks(hs, subs) + Ahead(g, shipped, stack, trees) == WalkOrder(g, t, world, shipped)
      invariant SomeGivesUp(g, shipped, stack, trees) <==> GivesUp(g, t, world, shipped)
      decreases Sizes(trees)
    {
      PopWalk(g, m.nodes, shipped, Depth(t), stack, trees);
      stack, works, ok, trees, hs, subs := WalkNode(m, g, shipped, stack, works, Depth(t), trees, hs, subs);
      if !ok {
        return;
      }
    }
    WalkOrderIsAll(g, t, world, shipped);
  }
}
