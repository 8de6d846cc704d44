/**
 What aug_rebuild_tree promises, and where it falls short
 (src/backend/aas_augment.c:1380-1521).
 */
module RebuildResults {
  import opened Options
  import opened Bsp
  import opened SearchTree
  import opened Cells
  import opened Collect
  import opened Rebuild
  import opened RebuildTree

  lemma LinkedIsPlanned(g: Geometry, nodes: seq<Node>, linked: seq<Node>, t: Tree, world: Cell, shipped: nat, plan: Plan)
    requires Fits(t, |g.planes|) && Linked(g, nodes, linked, t, world, shipped, plan)
    ensures Planned(g, t, world, shipped, plan)
    ensures forall h :: h in plan.hs <==> h in Handovers(g, t, world, shipped)
  {
    forall h ensures h in plan.hs <==> h in Handovers(g, t, world, shipped) {
      assert h in AsSet(plan.hs) <==> h in plan.hs;
    }
  }

  lemma InWorldCell(planes: seq<Plane>, world: Cell, q: Point)
    requires WorldCell(planes, world)
    requires -65536.0 <= q.x <= 65536.0 && -65536.0 <= q.y <= 65536.0 && -65536.0 <= q.z <= 65536.0
    requires forall i :: 0 <= i < |planes| ==> Eval(planes[i], q) != 0.0
    ensures SignsOf(planes, q) in world.regions
  {
  }

  /** An accepted rebuild gives every point of the world that is on no plane
      the area it had. */
  lemma RebuildKeepsPoints(g: Geometry, nodes: seq<Node>, nodes': seq<Node>, n: int, t: Tree, world: Cell, shipped: nat,
                           enabled: bool, room: nat, plan: Plan, q: Point, steps: nat)
    requires Spells(nodes, |g.planes|, n, t) && Fits(t, |g.planes|) && WorldCell(g.planes, world)
    requires t.Split? && t.at < shipped
    requires Settles(g, nodes, nodes', n, t, world, shipped, enabled, room, Rebuilt, plan)
    requires -65536.0 <= q.x <= 65536.0 && -65536.0 <= q.y <= 65536.0 && -65536.0 <= q.z <= 65536.0
    requires (forall i :: 0 <= i < |g.planes| ==> Eval(g.planes[i], q) != 0.0) && steps >= Depth(t) + |g.planes|
    ensures Lookup(nodes', n, SignsOf(g.planes, q), steps) == Lookup(nodes, n, SignsOf(g.planes, q), steps)
  {
    var s := SignsOf(g.planes, q);
    InWorldCell(g.planes, world, q);
    hide WorldCell, Eval, SignsOf, Fits, Spells;
    LinkedIsPlanned(g, nodes, nodes', t, world, shipped, plan);
    RebuildKeepsLookup(g, nodes, nodes', shipped, plan, n, t, world, s, steps);
    LookupIsArea(nodes, n, t, s, steps);
  }

  // ---- when the records spell a tree again ----

  /** Slots of one tree that reach a common record lie under each other. */
  lemma {:induction false} SlotsShareNothing(t: Tree, a: Slot, b: Slot, v: int)
    requires Proper(t) && a.node in Indices(t) && b.node in Indices(t) && a != b
    requires v in Indices(Under(t, a)) && v in Indices(Under(t, b))
    ensures a.node in Indices(Under(t, b)) || b.node in Indices(Under(t, a))
    decreases t
  {
    UnderInside(t, a);
    UnderInside(t, b);
    if a.node != t.at && b.node != t.at {
      if a.node in Indices(t.front) && b.node in Indices(t.front) {
        SlotsShareNothing(t.front, a, b, v);
      } else if a.node in Indices(t.back) && b.node in Indices(t.back) {
        SlotsShareNothing(t.back, a, b, v);
      } else {
        if a.node in Indices(t.front) {
          UnderInside(t.front, a);
          UnderInside(t.back, b);
        } else {
          UnderInside(t.back, a);
          UnderInside(t.front, b);
        }
      }
    } else if a.node != t.at {
      UnderInside(t.Child(a.node in Indices(t.front)), a);
    } else if b.node != t.at {
      UnderInside(t.Child(b.node in Indices(t.front)), b);
    }
  }

  lemma {:induction false} UnderInside(t: Tree, slot: Slot)
    requires slot.node in Indices(t)
    ensures Indices(Under(t, slot)) <= Indices(t)
    decreases t
  {
    if slot.node != t.at {
      if slot.node in Indices(t.front) {
        UnderInside(t.front, slot);
      } else {
        UnderInside(t.back, slot);
      }
    }
  }

  /** The handovers of the plan that sit in this part of the tree were found
      there. */
  ghost predicate FoundHere(g: Geometry, t: Tree, cell: Cell, shipped: nat, plan: Plan)
    requires Fits(t, |g.planes|)
  {
    forall h :: h in plan.hs && h.slot.node in Indices(t) ==> h in Handovers(g, t, cell, shipped)
  }

  lemma FoundBelow(g: Geometry, t: Tree, side: bool, cell: Cell, shipped: nat, plan: Plan)
    requires t.Split? && Fits(t, |g.planes|) && Proper(t) && t.at < shipped && FoundHere(g, t, cell, shipped, plan)
    ensures g.Clip(cell, t.plane, side).None? ==>
      forall h :: h in plan.hs ==> h.slot != Slot(t.at, side) && h.slot.node !in Indices(t.Child(side))
    ensures g.Clip(cell, t.plane, side).Some? && t.Child(side).Split? && t.Child(side).at < shipped ==>
      FoundHere(g, t.Child(side), g.Clip(cell, t.plane, side).value, shipped, plan)
  {
    forall h | h in plan.hs && h.slot.node in Indices(t)
      ensures h.slot == Slot(t.at, side) || h.slot.node in Indices(t.Child(side)) ==>
        h in SideHandovers(g, t, side, cell, shipped)
    {
      if h in SideHandovers(g, t, !side, cell, shipped) {
        SideHandoverFacts(g, t, !side, cell, shipped, h);
      }
    }
  }

  /** A slot with a generated record that the rebuild leaves as it is. */
  ghost predicate Dangles(nodes': seq<Node>, slot: Slot, t': Tree, shipped: nat, plan: Plan) {
    && slot.node in Indices(t') && 0 <= slot.node < shipped <= |nodes'|
    && nodes'[slot.node].Child(slot.front) >= shipped
    && forall h :: h in plan.hs ==> h.slot != slot
  }

  /** The first generated record of a branch of t that no handover touches. */
  lemma {:induction false} UntouchedSlot(nodes: seq<Node>, nodes': seq<Node>, planes: nat, shipped: nat, plan: Plan,
                                         n: int, t: Tree, t': Tree) returns (slot: Slot)
    requires Carried(nodes, nodes', planes, shipped, plan)
    requires Spells(nodes, planes, n, t) && Spells(nodes', planes, n, t') && t.Split? && t.at < shipped
    requires forall h :: h in plan.hs ==> h.slot.node !in Indices(t)
    requires !AllShipped(t, shipped)
    ensures Dangles(nodes', slot, t', shipped, plan)
    decreases t
  {
    var i :| i in Indices(t) && i >= shipped;
    var side := i in Indices(t.front);
    var child := t.Child(side);
    assert i in Indices(child) && !AllShipped(child, shipped);
    slot := Slot(t.at, side);
    assert t.at in Indices(t);
    NoHandover(nodes, nodes', planes, shipped, plan, slot);
    NoHandover(nodes, nodes', planes, shipped, plan, Slot(t.at, !side));
    if child.at < shipped {
      slot := UntouchedSlot(nodes, nodes', planes, shipped, plan, nodes[t.at].Child(side), child, t'.Child(side));
    }
  }

  lemma NoHandover(nodes: seq<Node>, nodes': seq<Node>, planes: nat, shipped: nat, plan: Plan, slot: Slot)
    requires Carried(nodes, nodes', planes, shipped, plan) && 0 <= slot.node < shipped
    requires forall h :: h in plan.hs ==> h.slot != slot
    ensures nodes'[slot.node].plane == nodes[slot.node].plane
    ensures nodes'[slot.node].Child(slot.front) == nodes[slot.node].Child(slot.front)
  {
    assert RelinkedAt(nodes, nodes', slot.node, plan.hs, plan.values);
    assert Slot(slot.node, slot.front) == slot;
    assert !IsSlot(plan.hs, slot) by {
      forall k | 0 <= k < |plan.hs| ensures plan.hs[k].slot != slot {
        assert plan.hs[k] in plan.hs;
      }
    }
  }

  lemma {:induction false} HiddenDangles(g: Geometry, nodes: seq<Node>, nodes': seq<Node>, shipped: nat, plan: Plan,
                                         n: int, t: Tree, cell: Cell, t': Tree) returns (slot: Slot)
    requires Carried(nodes, nodes', |g.planes|, shipped, plan)
    requires Spells(nodes, |g.planes|, n, t) && Proper(t) && Fits(t, |g.planes|) && t.Split? && t.at < shipped
    requires FoundHere(g, t, cell, shipped, plan) && !NothingHidden(g, t, cell, shipped)
    requires Spells(nodes', |g.planes|, n, t')
    ensures Dangles(nodes', slot, t', shipped, plan)
    decreases t
  {
    var side := !SideNotHidden(g, t, true, cell, shipped);
    assert !SideNotHidden(g, t, side, cell, shipped);
    var child := t.Child(side);
    FoundBelow(g, t, side, cell, shipped, plan);
    if child.Split? {
      assert child.at in Indices(child);
    }
    slot := Slot(t.at, side);
    SlotIsGenerated(nodes, nodes', |g.planes|, shipped, plan, slot);
    if g.Clip(cell, t.plane, side).Some? {
      slot := HiddenDangles(g, nodes, nodes', shipped, plan, nodes[t.at].Child(side), child,
                            g.Clip(cell, t.plane, side).value, t'.Child(side));
    } else {
      NoHandover(nodes, nodes', |g.planes|, shipped, plan, slot);
      if child.at < shipped {
        slot := UntouchedSlot(nodes, nodes', |g.planes|, shipped, plan, nodes[t.at].Child(side), child, t'.Child(side));
      }
    }
  }

  /** Every handover of t is still reached from the root. */
  lemma {:induction false} HandoverReached(g: Geometry, nodes: seq<Node>, nodes': seq<Node>, shipped: nat, plan: Plan,
                                           n: int, t: Tree, cell: Cell, t': Tree, h: Handover)
    requires Carried(nodes, nodes', |g.planes|, shipped, plan)
    requires Spells(nodes, |g.planes|, n, t) && Proper(t) && Fits(t, |g.planes|) && t.Split? && t.at < shipped
    requires Spells(nodes', |g.planes|, n, t') && h in Handovers(g, t, cell, shipped)
    ensures h.slot.node in Indices(t')
    decreases t
  {
    var side := h in SideHandovers(g, t, true, cell, shipped);
    assert h in SideHandovers(g, t, side, cell, shipped);
    var child := t.Child(side);
    SlotIsGenerated(nodes, nodes', |g.planes|, shipped, plan, Slot(t.at, side));
    if child.at < shipped {
      HandoverReached(g, nodes, nodes', shipped, plan, nodes[t.at].Child(side), child,
                      g.Clip(cell, t.plane, side).value, t'.Child(side), h);
    }
  }

  /** A dangling slot would share a record with the new subtree that record
      belongs to. */
  lemma DanglingIsShared(nodes: seq<Node>, nodes': seq<Node>, planes: nat, shipped: nat, plan: Plan,
                         n: int, t': Tree, slot: Slot)
    requires Carried(nodes, nodes', planes, shipped, plan)
    requires Spells(nodes', planes, n, t') && Proper(t')
    requires forall h :: h in plan.hs ==> h.slot.node in Indices(t')
    ensures !Dangles(nodes', slot, t', shipped, plan)
  {
    if !Dangles(nodes', slot, t', shipped, plan) {
      return;
    }
    SpellsUnder(nodes', planes, n, t', slot);
    SpellsIndices(nodes', planes, n, t');
    var under := Under(t', slot);
    var v := under.at;
    assert v in Indices(under);
    assert Used(v, plan.us);
    var k :| 0 <= k < |plan.us| && v in Indices(plan.us[k]);
    var h := plan.hs[k];
    assert h in plan.hs;
    var j := SlotIsSubstituted(nodes, nodes', planes, shipped, plan, h);
    assert j == k;
    SpellsUnder(nodes', planes, n, t', h.slot);
    SpellsUnique(nodes', planes, plan.values[k], plan.us[k], Under(t', h.slot));
    SameRecordSameTree(nodes', planes, plan.values[k], plan.us[k], v, under);
    SlotsShareNothing(t', slot, h.slot, v);
  }

  /** A record spells the same subtree wherever it is reached from. */
  lemma {:induction false} SameRecordSameTree(nodes: seq<Node>, planes: nat, n: int, t: Tree, v: int, u: Tree)
    requires Spells(nodes, planes, n, t) && v in Indices(t) && Spells(nodes, planes, v, u)
    ensures Indices(u) <= Indices(t)
    decreases t
  {
    if v == t.at {
      SpellsUnique(nodes, planes, v, t, u);
    } else if v in Indices(t.front) {
      SameRecordSameTree(nodes, planes, nodes[t.at].child0, t.front, v, u);
    } else {
      SameRecordSameTree(nodes, planes, nodes[t.at].child1, t.back, v, u);
    }
  }

  ghost predicate SpellsProper(nodes: seq<Node>, planes: nat, n: int) {
    exists t :: Spells(nodes, planes, n, t) && Proper(t)
  }

  /** The rewritten records are again those of a tree exactly when no generated
      record was hidden in a branch without volume. */
  lemma TreeAgainIff(g: Geometry, nodes: seq<Node>, nodes': seq<Node>, n: int, t: Tree, world: Cell, shipped: nat, plan: Plan)
    requires Spells(nodes, |g.planes|, n, t) && Proper(t) && Fits(t, |g.planes|) && t.Split? && t.at < shipped
    requires Linked(g, nodes, nodes', t, world, shipped, plan)
    ensures SpellsProper(nodes', |g.planes|, n) <==> NothingHidden(g, t, world, shipped)
  {
    LinkedIsPlanned(g, nodes, nodes', t, world, shipped, plan);
    if NothingHidden(g, t, world, shipped) {
      var t' := Regrow(g, nodes, nodes', shipped, plan, n, t, world);
    } else if SpellsProper(nodes', |g.planes|, n) {
      var t' :| Spells(nodes', |g.planes|, n, t') && Proper(t');
      var slot := HiddenDangles(g, nodes, nodes', shipped, plan, n, t, world, t');
      forall h | h in plan.hs ensures h.slot.node in Indices(t') {
        HandoverReached(g, nodes, nodes', shipped, plan, n, t, world, t', h);
      }
      DanglingIsShared(nodes, nodes', |g.planes|, shipped, plan, n, t', slot);
    }
  }

  /** An accepted rebuild with nothing hidden leaves a proper tree that answers
      every lookup as before. It is no deeper than the spliced tree, unless that
      one was already too deep to be measured. */
  lemma RebuildGivesTree(g: Geometry, nodes: seq<Node>, nodes': seq<Node>, n: int, t: Tree, world: Cell, shipped: nat,
                         enabled: bool, room: nat, plan: Plan) returns (t': Tree)
    requires Spells(nodes, |g.planes|, n, t) && Proper(t) && Fits(t, |g.planes|) && t.Split? && t.at < shipped
    requires WorldCell(g.planes, world) && NothingHidden(g, t, world, shipped)
    requires Settles(g, nodes, nodes', n, t, world, shipped, enabled, room, Rebuilt, plan)
    ensures Spells(nodes', |g.planes|, n, t') && Proper(t')
    ensures Depth(t') <= Depth(t) + |g.planes|
    ensures Depth(t) <= 128 ==> Depth(t') <= Depth(t)
    ensures forall q :: InWorld(q) && OffPlanes(g.planes, q) ==>
      Area(t', SignsOf(g.planes, q)) == Area(t, SignsOf(g.planes, q))
    ensures Depth(t) <= MAX_DEPTH ==> forall q :: InWorld(q) && OffPlanes(g.planes, q) ==>
      Lookup(nodes', n, SignsOf(g.planes, q), MAX_STEPS) == Lookup(nodes, n, SignsOf(g.planes, q), MAX_STEPS)
  {
    LinkedIsPlanned(g, nodes, nodes', t, world, shipped, plan);
    t' := Regrow(g, nodes, nodes', shipped, plan, n, t, world);
    assert MeasuredDepth(t') <= MeasuredDepth(t);
    forall q | InWorld(q) && OffPlanes(g.planes, q)
      ensures Area(t', SignsOf(g.planes, q)) == Area(t, SignsOf(g.planes, q))
      ensures Depth(t) <= MAX_DEPTH ==>
        Lookup(nodes', n, SignsOf(g.planes, q), MAX_STEPS) == Lookup(nodes, n, SignsOf(g.planes, q), MAX_STEPS)
    {
      var s := SignsOf(g.planes, q);
      var steps := Depth(t) + |g.planes|;
      RebuildKeepsPoints(g, nodes, nodes', n, t, world, shipped, enabled, room, plan, q, steps);
      LookupIsArea(nodes, n, t, s, steps);
      LookupIsArea(nodes', n, t', s, steps);
      if Depth(t) <= MAX_DEPTH {
        LookupIsArea(nodes, n, t, s, MAX_STEPS);
        LookupIsArea(nodes', n, t', s, MAX_STEPS);
      }
    }
  }

  // ---- where the promises fall short ----

  // Depth check and rollback.

  /** A spliced tree whose rebuild is accepted. */
  ghost predicate Accepted(g: Geometry, nodes: seq<Node>, nodes': seq<Node>, n: int, t: Tree, world: Cell, shipped: nat,
                           room: nat, plan: Plan)
  {
    && Spells(nodes, |g.planes|, n, t) && Proper(t) && Fits(t, |g.planes|) && WorldCell(g.planes, world)
    && Settles(g, nodes, nodes', n, t, world, shipped, true, room, Rebuilt, plan)
  }

  /** No spliced tree of this depth is traded for a deeper one. */
  ghost predicate NeverDeeper(d: nat) {
    forall g, nodes, nodes', n, t, world, shipped, room, plan, t' ::
      Accepted(g, nodes, nodes', n, t, world, shipped, room, plan) && Depth(t) == d && Spells(nodes', |g.planes|, n, t')
      ==> Depth(t') <= d
  }

  /** The trees planned for the handovers. */
  ghost function PlannedTrees(g: Geometry, t: Tree, world: Cell, shipped: nat): (us: seq<Tree>)
    requires Fits(t, |g.planes|)
    ensures |us| == |WalkOrder(g, t, world, shipped)|
  {
    GreedyAll(g, WorksOf(g, WalkOrder(g, t, world, shipped)), shipped)
  }

  /** The slot of a handover already holds the number that the pass will put there: the subtree has more than one
      area, so that it gets records, and those get the numbers behind the records of the subtrees before it. */
  ghost predicate InPlace(g: Geometry, nodes: seq<Node>, t: Tree, world: Cell, shipped: nat, k: nat)
    requires Fits(t, |g.planes|) && k < |WalkOrder(g, t, world, shipped)|
  {
    var tasks := WalkOrder(g, t, world, shipped);
    var slot := tasks[k].h.slot;
    assert tasks[k] in tasks;
    && !OneArea(LeafCells(g, tasks[k].sub, tasks[k].h.part))
    && 0 <= slot.node < |nodes|
    && nodes[slot.node].Child(slot.front) == shipped + Sizes(PlannedTrees(g, t, world, shipped)[..k])
  }

  lemma {:induction false} GreedyAt(g: Geometry, works: seq<Work>, k: nat, at: nat)
    requires k < |works|
    ensures GreedyAll(g, works, at)[k] ==
            Greedy(g, works[k].candidates, works[k].cells, 0, at + Sizes(GreedyAll(g, works, at)[..k]))
  {
    hide Greedy;
    var last := |works| - 1;
    var us := GreedyAll(g, works[..last], at);
    assert GreedyAll(g, works, at)[..last] == us;
    if k < last {
      GreedyAt(g, works[..last], k, at);
      assert GreedyAll(g, works, at)[..k] == us[..k];
    }
  }

  /** A planned tree has records of its own, from the number at on, exactly when it has more than one area. */
  lemma GreedyValue(g: Geometry, candidates: seq<nat>, cells: seq<Cell>, at: nat)
    requires BspCells(cells, candidates, |g.planes|) && at > 0
    ensures OneArea(cells) ==> ValueOf(Greedy(g, candidates, cells, 0, at)) <= 0
    ensures !OneArea(cells) ==> ValueOf(Greedy(g, candidates, cells, 0, at)) == at
  {
    if OneArea(cells) {
      CellsAreGood(cells, candidates, |g.planes|);
    } else {
      var i :| 0 <= i < |cells| && cells[i].leaf != cells[0].leaf;
      GreedySplit(g, candidates, cells, 0, at, Best(g, candidates, cells), i);
    }
  }

  ghost function Best(g: Geometry, candidates: seq<nat>, cells: seq<Cell>): nat
    requires BspCells(cells, candidates, |g.planes|) && !OneArea(cells)
  {
    SplitterShrinks(g, candidates, cells);
    CellsAreGood(cells, candidates, |g.planes|);
    Splitter(g, candidates, cells, |candidates|)
  }

  lemma RollbackRestores(g: Geometry, nodes: seq<Node>, linked: seq<Node>, nodes': seq<Node>, n: int, t: Tree, world: Cell,
                         shipped: nat, plan: Plan)
    requires Fits(t, |g.planes|) && TooDeepFrom(g, nodes, linked, nodes', n, t, world, shipped, plan)
    ensures forall k :: 0 <= k < |plan.hs| ==> 0 <= plan.hs[k].slot.node < |nodes|
    ensures nodes' == nodes <==>
      forall k :: 0 <= k < |plan.hs| ==> plan.values[k] == nodes[plan.hs[k].slot.node].Child(plan.hs[k].slot.front)
  {
    hide PlanOf, Handovers, Spells, Proper;
    forall k | 0 <= k < |plan.hs|
      ensures 0 <= plan.hs[k].slot.node < shipped
      ensures nodes'[plan.hs[k].slot.node].Child(plan.hs[k].slot.front) == plan.values[k]
    {
      var slot := plan.hs[k].slot;
      assert plan.hs[k] in plan.hs;
      var j := SlotIsSubstituted(nodes, linked, |g.planes|, shipped, plan, plan.hs[k]);
      assert nodes'[slot.node] == linked[slot.node];
    }
    if forall k :: 0 <= k < |plan.hs| ==> plan.values[k] == nodes[plan.hs[k].slot.node].Child(plan.hs[k].slot.front) {
      forall i | 0 <= i < |nodes| ensures nodes'[i] == nodes[i] {
        if i < shipped {
          assert RelinkedAt(nodes, linked, i, plan.hs, plan.values);
          assert nodes'[i] == linked[i];
          assert nodes'[i].Child(true) == nodes[i].Child(true) && nodes'[i].Child(false) == nodes[i].Child(false);
        } else {
          assert nodes'[i] == nodes[shipped..][i - shipped];
        }
      }
    }
  }

  lemma TaskIsBsp(g: Geometry, t: Tree, world: Cell, shipped: nat, k: nat)
    requires Proper(t) && Fits(t, |g.planes|) && t.Split? && 0 < t.at < shipped && k < |WalkOrder(g, t, world, shipped)|
    requires forall s :: s in world.regions ==> |s| == |g.planes|
    ensures var tasks := WalkOrder(g, t, world, shipped);
            && tasks[k] in tasks && tasks[k].h in Handovers(g, t, world, shipped)
            && BspCells(LeafCells(g, tasks[k].sub, tasks[k].h.part), PlaneList(g, tasks[k].sub, tasks[k].h.part, []),
                        |g.planes|)
  {
    hide WalkOrder, Handovers, PlaneList, LeafCells, UsedPlanes, BspCells;
    var tasks := WalkOrder(g, t, world, shipped);
    var task := tasks[k];
    WalkOrderIsAll(g, t, world, shipped);
    assert HandoversOf(tasks)[k] in HandoversOf(tasks) && task in tasks;
    assert task.h in AsSet(HandoversOf(tasks));
    HandoverFacts(g, t, world, shipped, task.h);
    var candidates := PlaneList(g, task.sub, task.h.part, []);
    forall p | p in candidates
      ensures p < |g.planes|
    {
      UsedFit(g, task.sub, task.h.part, p);
    }
    LeafCellsFacts(g, task.sub, task.h.part, candidates);
  }

  lemma PlannedAt(g: Geometry, t: Tree, world: Cell, shipped: nat, k: nat)
    requires Proper(t) && Fits(t, |g.planes|) && t.Split? && 0 < t.at < shipped && k < |WalkOrder(g, t, world, shipped)|
    requires forall s :: s in world.regions ==> |s| == |g.planes|
    ensures var tasks, plan := WalkOrder(g, t, world, shipped), PlanOf(g, t, world, shipped);
            && |plan.hs| == |plan.values| == |tasks| && plan.hs[k] == tasks[k].h && tasks[k] in tasks
            && (OneArea(LeafCells(g, tasks[k].sub, tasks[k].h.part)) ==> plan.values[k] <= 0)
            && (!OneArea(LeafCells(g, tasks[k].sub, tasks[k].h.part)) ==>
                plan.values[k] == shipped + Sizes(PlannedTrees(g, t, world, shipped)[..k]))
  {
    hide WalkOrder, Handovers, PlaneList, LeafCells, BspCells, Greedy, GreedyAll, OneArea, Sizes, Proper;
    TaskIsBsp(g, t, world, shipped, k);
    var tasks := WalkOrder(g, t, world, shipped);
    var works := WorksOf(g, tasks);
    GreedyAt(g, works, k, shipped);
    GreedyValue(g, works[k].candidates, works[k].cells, shipped + Sizes(GreedyAll(g, works, shipped)[..k]));
  }

  /** Whether a slot holds what the rollback will find in it can be read off the spliced records. */
  lemma SlotInPlace(g: Geometry, nodes: seq<Node>, linked: seq<Node>, nodes': seq<Node>, n: int, t: Tree, world: Cell,
                    shipped: nat, plan: Plan, k: nat)
    requires Proper(t) && Fits(t, |g.planes|) && t.Split? && 0 < t.at < shipped
    requires forall s :: s in world.regions ==> |s| == |g.planes|
    requires TooDeepFrom(g, nodes, linked, nodes', n, t, world, shipped, plan) && k < |plan.hs|
    ensures |plan.hs| == |WalkOrder(g, t, world, shipped)| == |plan.values|
    ensures 0 <= plan.hs[k].slot.node < |nodes|
    ensures InPlace(g, nodes, t, world, shipped, k) <==>
            plan.values[k] == nodes[plan.hs[k].slot.node].Child(plan.hs[k].slot.front)
  {
    hide *;
    TooDeepAt(g, nodes, linked, nodes', n, t, world, shipped, plan, k);
    PlannedAt(g, t, world, shipped, k);
    InPlaceMeans(g, nodes, t, world, shipped, k);
  }

  lemma InPlaceMeans(g: Geometry, nodes: seq<Node>, t: Tree, world: Cell, shipped: nat, k: nat)
    requires Fits(t, |g.planes|) && k < |WalkOrder(g, t, world, shipped)|
    ensures var tasks := WalkOrder(g, t, world, shipped);
            && tasks[k] in tasks
            && (InPlace(g, nodes, t, world, shipped, k) <==>
                  && !OneArea(LeafCells(g, tasks[k].sub, tasks[k].h.part))
                  && 0 <= tasks[k].h.slot.node < |nodes|
                  && nodes[tasks[k].h.slot.node].Child(tasks[k].h.slot.front) ==
                     shipped + Sizes(PlannedTrees(g, t, world, shipped)[..k]))
  {
    hide WalkOrder, LeafCells, OneArea, Sizes, PlannedTrees;
  }

  /** What a rollback for depth says of one handover of the plan. */
  lemma TooDeepAt(g: Geometry, nodes: seq<Node>, linked: seq<Node>, nodes': seq<Node>, n: int, t: Tree, world: Cell,
                  shipped: nat, plan: Plan, k: nat)
    requires Fits(t, |g.planes|) && k < |plan.hs|
    requires TooDeepFrom(g, nodes, linked, nodes', n, t, world, shipped, plan)
    ensures plan == PlanOf(g, t, world, shipped) && |plan.hs| == |WalkOrder(g, t, world, shipped)| == |plan.values|
    ensures 0 <= plan.hs[k].slot.node < shipped <= |nodes|
    ensures nodes[plan.hs[k].slot.node].Child(plan.hs[k].slot.front) >= shipped
  {
    hide WalkOrder, Handovers, GreedyAll, Relinked, Spells, Proper;
    assert Substitutes(nodes, linked, |g.planes|, shipped, plan.hs[k], plan.subs[k], plan.values[k], plan.us[k]);
  }

  /**
   * The slots were rewritten before the depth check and are not restored, so its rollback brings the records back
   * exactly when every slot already held the number that the pass gives it. With one handover that is so exactly
   * when its subtree began with the first generated record and has more than one area.
   */
  lemma DepthRollbackIff(g: Geometry, nodes: seq<Node>, linked: seq<Node>, nodes': seq<Node>, n: int, t: Tree, world: Cell,
                         shipped: nat, plan: Plan)
    requires Proper(t) && Fits(t, |g.planes|) && t.Split? && 0 < t.at < shipped && WorldCell(g.planes, world)
    requires TooDeepFrom(g, nodes, linked, nodes', n, t, world, shipped, plan)
    ensures nodes' == nodes <==>
            forall k :: 0 <= k < |WalkOrder(g, t, world, shipped)| ==> InPlace(g, nodes, t, world, shipped, k)
    ensures var tasks := WalkOrder(g, t, world, shipped);
            |tasks| == 1 ==>
              && tasks[0] in tasks && 0 <= tasks[0].h.slot.node < |nodes|
              && (nodes' == nodes <==>
                  nodes[tasks[0].h.slot.node].Child(tasks[0].h.slot.front) == shipped
                  && !OneArea(LeafCells(g, tasks[0].sub, tasks[0].h.part)))
  {
    hide TooDeepFrom, WalkOrder, LeafCells, OneArea, Proper, InPlace;
    RollbackRestores(g, nodes, linked, nodes', n, t, world, shipped, plan);
    var tasks := WalkOrder(g, t, world, shipped);
    PlansTasks(g, nodes, linked, nodes', n, t, world, shipped, plan);
    forall k | 0 <= k < |tasks|
      ensures InPlace(g, nodes, t, world, shipped, k) <==>
              plan.values[k] == nodes[plan.hs[k].slot.node].Child(plan.hs[k].slot.front)
    {
      SlotInPlace(g, nodes, linked, nodes', n, t, world, shipped, plan, k);
    }
    if |tasks| == 1 {
      SlotInPlace(g, nodes, linked, nodes', n, t, world, shipped, plan, 0);
      FirstInPlace(g, nodes, t, world, shipped);
    }
  }

  lemma PlansTasks(g: Geometry, nodes: seq<Node>, linked: seq<Node>, nodes': seq<Node>, n: int, t: Tree, world: Cell,
                   shipped: nat, plan: Plan)
    requires Fits(t, |g.planes|) && TooDeepFrom(g, nodes, linked, nodes', n, t, world, shipped, plan)
    ensures |plan.hs| == |plan.values| == |WalkOrder(g, t, world, shipped)|
    ensures forall k :: 0 <= k < |plan.hs| ==> plan.hs[k] == WalkOrder(g, t, world, shipped)[k].h
  {
    hide WalkOrder, Carried;
  }

  lemma FirstInPlace(g: Geometry, nodes: seq<Node>, t: Tree, world: Cell, shipped: nat)
    requires Fits(t, |g.planes|) && |WalkOrder(g, t, world, shipped)| > 0
    ensures var tasks := WalkOrder(g, t, world, shipped);
            && tasks[0] in tasks
            && (InPlace(g, nodes, t, world, shipped, 0) <==>
                && !OneArea(LeafCells(g, tasks[0].sub, tasks[0].h.part))
                && 0 <= tasks[0].h.slot.node < |nodes|
                && nodes[tasks[0].h.slot.node].Child(tasks[0].h.slot.front) == shipped)
  {
    hide WalkOrder, LeafCells, OneArea, PlannedTrees;
    assert WalkOrder(g, t, world, shipped)[0] in WalkOrder(g, t, world, shipped);
    assert PlannedTrees(g, t, world, shipped)[..0] == [];
  }
}
