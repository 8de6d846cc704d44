/**
 Replacing every generated subtree by a balanced one
 (src/backend/aas_augment.c:1380-1521).

 The shipped records are those below `shipped`. A rebuild truncates the lump to
 them, appends one new subtree for each handover and rewrites the handover's
 slot. It gives up before changing anything, or rolls back afterwards.
 */
module RebuildTree {
  import opened Options
  import opened Bsp
  import opened SearchTree
  import opened Cells
  import opened Collect
  import opened Rebuild

  // ---- what a rewritten lump has to do with the lump before ----

  ghost predicate IsSlot(hs: seq<Handover>, slot: Slot) {
    exists k :: 0 <= k < |hs| && hs[k].slot == slot
  }

  ghost predicate Holds(value: int, slot: Slot, hs: seq<Handover>, values: seq<int>)
    requires |values| == |hs|
  {
    exists k :: 0 <= k < |hs| && hs[k].slot == slot && value == values[k]
  }

  ghost predicate RelinkedAt(nodes: seq<Node>, nodes': seq<Node>, i: nat, hs: seq<Handover>, values: seq<int>)
    requires |values| == |hs| && i < |nodes| && i < |nodes'|
  {
    && nodes'[i].plane == nodes[i].plane && nodes'[i].field4 == nodes[i].field4
    && forall side :: if IsSlot(hs, Slot(i, side)) then Holds(nodes'[i].Child(side), Slot(i, side), hs, values)
                      else nodes'[i].Child(side) == nodes[i].Child(side)
  }

  /** The shipped records, but for the slots of hs, which hold the values. */
  ghost predicate Relinked(nodes: seq<Node>, nodes': seq<Node>, shipped: nat, hs: seq<Handover>, values: seq<int>) {
    && |values| == |hs| && shipped <= |nodes| && shipped <= |nodes'|
    && forall i :: 0 <= i < shipped ==> RelinkedAt(nodes, nodes', i, hs, values)
  }

  /** u, spelled by the new records, answers h's part of the world as the old
      subtree sub did. */
  ghost predicate Substitutes(nodes: seq<Node>, nodes': seq<Node>, planes: nat, shipped: nat,
                              h: Handover, sub: Tree, value: int, u: Tree) {
    && 0 <= h.slot.node < shipped <= |nodes|
    && Spells(nodes, planes, nodes[h.slot.node].Child(h.slot.front), sub)
    && nodes[h.slot.node].Child(h.slot.front) >= shipped
    && Spells(nodes', planes, value, u) && Proper(u) && Depth(u) <= planes
    && (forall i :: i in Indices(u) ==> i >= shipped)
    && forall s :: s in h.part.regions ==> Area(u, s) == Area(sub, s)
  }

  ghost predicate Used(i: int, us: seq<Tree>) {
    exists k :: 0 <= k < |us| && i in Indices(us[k])
  }

  datatype Plan = Plan(hs: seq<Handover>, subs: seq<Tree>, values: seq<int>, us: seq<Tree>) {
    ghost predicate Sized() {
      |hs| == |subs| == |values| == |us|
    }
  }

  /** Everything a completed rebuild has established. */
  ghost predicate Carried(nodes: seq<Node>, nodes': seq<Node>, planes: nat, shipped: nat, plan: Plan) {
    && plan.Sized()
    && Relinked(nodes, nodes', shipped, plan.hs, plan.values)
    && (forall k :: 0 <= k < |plan.hs| ==>
          Substitutes(nodes, nodes', planes, shipped, plan.hs[k], plan.subs[k], plan.values[k], plan.us[k]))
    && (forall k, l :: 0 <= k < l < |plan.us| ==> Indices(plan.us[k]) !! Indices(plan.us[l]))
    && (forall k, l :: 0 <= k < l < |plan.hs| ==> plan.hs[k].slot != plan.hs[l].slot)
    && (forall i :: shipped <= i < |nodes'| ==> Used(i, plan.us))
  }

  /** The subtree's handovers are all in the plan. */
  ghost predicate Planned(g: Geometry, t: Tree, cell: Cell, shipped: nat, plan: Plan)
    requires Fits(t, |g.planes|)
  {
    forall h :: h in Handovers(g, t, cell, shipped) ==> h in plan.hs
  }

  lemma SlotIsGenerated(nodes: seq<Node>, nodes': seq<Node>, planes: nat, shipped: nat, plan: Plan, slot: Slot)
    requires Carried(nodes, nodes', planes, shipped, plan) && 0 <= slot.node < shipped
    ensures nodes'[slot.node].plane == nodes[slot.node].plane
    ensures nodes[slot.node].Child(slot.front) < shipped ==>
      nodes'[slot.node].Child(slot.front) == nodes[slot.node].Child(slot.front)
  {
    assert RelinkedAt(nodes, nodes', slot.node, plan.hs, plan.values);
    assert Slot(slot.node, slot.front) == slot;
    if IsSlot(plan.hs, slot) {
      var k :| 0 <= k < |plan.hs| && plan.hs[k].slot == slot;
      assert Substitutes(nodes, nodes', planes, shipped, plan.hs[k], plan.subs[k], plan.values[k], plan.us[k]);
    }
  }

  /** A planned slot holds the root of a subtree that answers as before. */
  lemma SlotIsSubstituted(nodes: seq<Node>, nodes': seq<Node>, planes: nat, shipped: nat, plan: Plan, h: Handover)
    returns (k: nat)
    requires Carried(nodes, nodes', planes, shipped, plan) && h in plan.hs
    ensures k < |plan.hs| && plan.hs[k] == h
    ensures Substitutes(nodes, nodes', planes, shipped, h, plan.subs[k], plan.values[k], plan.us[k])
    ensures nodes'[h.slot.node].Child(h.slot.front) == plan.values[k]
  {
    var j :| 0 <= j < |plan.hs| && plan.hs[j] == h;
    assert Substitutes(nodes, nodes', planes, shipped, plan.hs[j], plan.subs[j], plan.values[j], plan.us[j]);
    assert RelinkedAt(nodes, nodes', h.slot.node, plan.hs, plan.values);
    assert IsSlot(plan.hs, Slot(h.slot.node, h.slot.front));
    assert Holds(nodes'[h.slot.node].Child(h.slot.front), h.slot, plan.hs, plan.values);
    k :| 0 <= k < |plan.hs| && plan.hs[k].slot == h.slot && nodes'[h.slot.node].Child(h.slot.front) == plan.values[k];
    assert plan.hs[k] == plan.hs[j];
  }

  /** Rebuilding keeps point lookup: every region of the cell gets the area it
      had, whatever else the tree holds. */
  lemma {:induction false} RebuildKeepsLookup(g: Geometry, nodes: seq<Node>, nodes': seq<Node>, shipped: nat, plan: Plan,
                                              n: int, t: Tree, cell: Cell, s: Signs, steps: nat)
    requires Carried(nodes, nodes', |g.planes|, shipped, plan)
    requires Spells(nodes, |g.planes|, n, t) && Fits(t, |g.planes|) && (t.Split? ==> t.at < shipped)
    requires Planned(g, t, cell, shipped, plan)
    requires s in cell.regions && |s| == |g.planes|
    requires steps >= Depth(t) + |g.planes|
    ensures Lookup(nodes', n, s, steps) == Area(t, s)
    decreases t
  {
    if t.Split? {
      var side := Side(s, t.plane);
      var slot := Slot(t.at, side);
      var part := g.Clip(cell, t.plane, side).value;
      assert s in part.regions;
      var child := t.Child(side);
      SlotIsGenerated(nodes, nodes', |g.planes|, shipped, plan, slot);
      if child.Split? && child.at >= shipped {
        var h := Handover(slot, part);
        assert h in SideHandovers(g, t, side, cell, shipped);
        assert h in Handovers(g, t, cell, shipped);
        var k := SlotIsSubstituted(nodes, nodes', |g.planes|, shipped, plan, h);
        SpellsUnique(nodes, |g.planes|, nodes[t.at].Child(side), child, plan.subs[k]);
        LookupIsArea(nodes', plan.values[k], plan.us[k], s, steps - 1);
      } else {
        PlannedBelow(g, t, side, cell, shipped, plan);
        RebuildKeepsLookup(g, nodes, nodes', shipped, plan, nodes[t.at].Child(side), child, part, s, steps - 1);
      }
    }
  }

  lemma PlannedBelow(g: Geometry, t: Tree, side: bool, cell: Cell, shipped: nat, plan: Plan)
    requires t.Split? && Fits(t, |g.planes|) && Planned(g, t, cell, shipped, plan)
    requires g.Clip(cell, t.plane, side).Some?
    requires t.Child(side).Split? ==> t.Child(side).at < shipped
    ensures Planned(g, t.Child(side), g.Clip(cell, t.plane, side).value, shipped, plan)
  {
    var part := g.Clip(cell, t.plane, side).value;
    forall h | h in Handovers(g, t.Child(side), part, shipped) ensures h in plan.hs {
      assert h in SideHandovers(g, t, side, cell, shipped);
      assert h in Handovers(g, t, cell, shipped);
    }
  }

  // ---- the records spell a tree again ----

  predicate AllShipped(t: Tree, shipped: nat) {
    forall i :: i in Indices(t) ==> i < shipped
  }

  /** No generated record hides in a branch without volume, where the walk does
      not look. */
  predicate NothingHidden(g: Geometry, t: Tree, cell: Cell, shipped: nat)
    requires Fits(t, |g.planes|)
    decreases t, 1
  {
    t.Split? ==> SideNotHidden(g, t, true, cell, shipped) && SideNotHidden(g, t, false, cell, shipped)
  }

  predicate SideNotHidden(g: Geometry, t: Tree, side: bool, cell: Cell, shipped: nat)
    requires t.Split? && Fits(t, |g.planes|)
    decreases t, 0
  {
    match g.Clip(cell, t.plane, side)
    case None => AllShipped(t.Child(side), shipped)
    case Some(part) =>
      t.Child(side).Split? && t.Child(side).at < shipped ==> NothingHidden(g, t.Child(side), part, shipped)
  }

  lemma {:induction false} ShippedPartStands(nodes: seq<Node>, nodes': seq<Node>, planes: nat, shipped: nat, plan: Plan,
                                             n: int, t: Tree)
    requires Carried(nodes, nodes', planes, shipped, plan)
    requires Spells(nodes, planes, n, t) && AllShipped(t, shipped)
    ensures Spells(nodes', planes, n, t)
    decreases t
  {
    if t.Split? {
      assert t.at in Indices(t);
      SlotIsGenerated(nodes, nodes', planes, shipped, plan, Slot(t.at, true));
      forall side ensures Spells(nodes', planes, nodes'[t.at].Child(side), t.Child(side)) {
        assert AllShipped(t.Child(side), shipped);
        if t.Child(side).Split? {
          assert t.Child(side).at in Indices(t.Child(side));
        }
        SlotIsGenerated(nodes, nodes', planes, shipped, plan, Slot(t.at, side));
        ShippedPartStands(nodes, nodes', planes, shipped, plan, nodes[t.at].Child(side), t.Child(side));
      }
      assert Spells(nodes', planes, nodes'[t.at].Child(true), t.Child(true));
      assert Spells(nodes', planes, nodes'[t.at].Child(false), t.Child(false));
    }
  }

  /** Where a record of the new tree comes from: a record of t, or a new
      subtree in a slot of t. */
  ghost predicate Own(i: int, t: Tree, shipped: nat, plan: Plan)
    requires plan.Sized()
  {
    (i < shipped && i in Indices(t)) || Grafted(i, Indices(t), plan)
  }

  ghost predicate Grafted(i: int, owners: set<int>, plan: Plan)
    requires plan.Sized()
  {
    exists k :: 0 <= k < |plan.hs| && plan.hs[k].slot.node in owners && i in Indices(plan.us[k])
  }

  ghost predicate SideOwn(i: int, t: Tree, side: bool, shipped: nat, plan: Plan)
    requires t.Split? && plan.Sized()
  {
    || (i < shipped && i in Indices(t.Child(side)))
    || exists k :: 0 <= k < |plan.hs| && i in Indices(plan.us[k]) &&
         (plan.hs[k].slot == Slot(t.at, side) || plan.hs[k].slot.node in Indices(t.Child(side)))
  }

  lemma SidesApart(nodes: seq<Node>, nodes': seq<Node>, planes: nat, shipped: nat, plan: Plan, t: Tree, i: int)
    requires Carried(nodes, nodes', planes, shipped, plan) && t.Split? && Proper(t)
    ensures !(SideOwn(i, t, true, shipped, plan) && SideOwn(i, t, false, shipped, plan))
    ensures t.at < shipped ==> !SideOwn(t.at, t, true, shipped, plan) && !SideOwn(t.at, t, false, shipped, plan)
  {
    forall k | 0 <= k < |plan.us| ensures forall i :: i in Indices(plan.us[k]) ==> i >= shipped {
      assert Substitutes(nodes, nodes', planes, shipped, plan.hs[k], plan.subs[k], plan.values[k], plan.us[k]);
    }
  }

  ghost predicate Stands(g: Geometry, nodes': seq<Node>, n: int, t: Tree, cell: Cell, shipped: nat, plan: Plan, t': Tree)
    requires plan.Sized()
  {
    && Spells(nodes', |g.planes|, n, t') && Proper(t')
    && Depth(t') <= Depth(t) + |g.planes|
    && (forall i :: i in Indices(t') ==> Own(i, t, shipped, plan))
  }

  /** When nothing is hidden, the rewritten records spell a proper tree. */
  lemma {:induction false} Regrow(g: Geometry, nodes: seq<Node>, nodes': seq<Node>, shipped: nat, plan: Plan,
                                  n: int, t: Tree, cell: Cell) returns (t': Tree)
    requires Carried(nodes, nodes', |g.planes|, shipped, plan)
    requires Spells(nodes, |g.planes|, n, t) && Fits(t, |g.planes|) && Proper(t) && (t.Split? ==> t.at < shipped)
    requires Planned(g, t, cell, shipped, plan) && NothingHidden(g, t, cell, shipped)
    ensures Stands(g, nodes', n, t, cell, shipped, plan, t')
    decreases t, 1
  {
    t' := t;
    if t.Split? {
      SlotIsGenerated(nodes, nodes', |g.planes|, shipped, plan, Slot(t.at, true));
      var front := RegrowSide(g, nodes, nodes', shipped, plan, t, true, cell);
      var back := RegrowSide(g, nodes, nodes', shipped, plan, t, false, cell);
      t' := Split(t.at, t.plane, front, back);
      forall i ensures !(i in Indices(front) && i in Indices(back)) {
        SidesApart(nodes, nodes', |g.planes|, shipped, plan, t, i);
      }
      SidesApart(nodes, nodes', |g.planes|, shipped, plan, t, t.at);
      assert Indices(front) !! Indices(back);
      forall i | i in Indices(t') ensures Own(i, t, shipped, plan) {
      }
    }
  }

  ghost predicate SideStands(g: Geometry, nodes': seq<Node>, n: int, t: Tree, side: bool, shipped: nat, plan: Plan, t': Tree)
    requires plan.Sized() && t.Split?
  {
    && Spells(nodes', |g.planes|, n, t') && Proper(t')
    && Depth(t') <= Depth(t) - 1 + |g.planes|
    && (forall i :: i in Indices(t') ==> SideOwn(i, t, side, shipped, plan))
  }

  lemma {:induction false} RegrowSide(g: Geometry, nodes: seq<Node>, nodes': seq<Node>, shipped: nat, plan: Plan,
                                      t: Tree, side: bool, cell: Cell) returns (t': Tree)
    requires Carried(nodes, nodes', |g.planes|, shipped, plan)
    requires t.Split? && Spells(nodes, |g.planes|, t.at, t) && Fits(t, |g.planes|) && Proper(t) && t.at < shipped
    requires Planned(g, t, cell, shipped, plan) && NothingHidden(g, t, cell, shipped)
    ensures SideStands(g, nodes', nodes'[t.at].Child(side), t, side, shipped, plan, t')
    decreases t, 0
  {
    var child := t.Child(side);
    var clipped := g.Clip(cell, t.plane, side);
    assert SideNotHidden(g, t, side, cell, shipped);
    if child.Split? {
      assert child.at in Indices(child);
    }
    SlotIsGenerated(nodes, nodes', |g.planes|, shipped, plan, Slot(t.at, side));
    if clipped.None? || child.Leaf? {
      t' := child;
      ShippedPartStands(nodes, nodes', |g.planes|, shipped, plan, nodes[t.at].Child(side), child);
    } else if child.at >= shipped {
      var h := Handover(Slot(t.at, side), clipped.value);
      assert h in SideHandovers(g, t, side, cell, shipped);
      assert h in Handovers(g, t, cell, shipped);
      var k := SlotIsSubstituted(nodes, nodes', |g.planes|, shipped, plan, h);
      t' := plan.us[k];
    } else {
      PlannedBelow(g, t, side, cell, shipped, plan);
      t' := Regrow(g, nodes, nodes', shipped, plan, nodes[t.at].Child(side), child, clipped.value);
      assert nodes'[t.at].Child(side) == nodes[t.at].Child(side);
    }
  }

  // ---- building and linking ----

  ghost predicate SoundWork(work: Work, planes: nat) {
    BspCells(work.cells, work.candidates, planes)
  }

  /** The trees rb_build makes for the works, one behind the other from the number at on. */
  ghost function GreedyAll(g: Geometry, works: seq<Work>, at: nat): (us: seq<Tree>)
    ensures |us| == |works|
  {
    if works == [] then []
    else
      var last := |works| - 1;
      var us := GreedyAll(g, works[..last], at);
      us + [Greedy(g, works[last].candidates, works[last].cells, 0, at + Sizes(us))]
  }

  function ValuesOf(us: seq<Tree>): (values: seq<int>)
    ensures |values| == |us| && forall k :: 0 <= k < |us| ==> values[k] == ValueOf(us[k])
  {
    seq(|us|, k requires 0 <= k < |us| => ValueOf(us[k]))
  }

  /** What the pass does to a spliced tree, as far as it is decided before it starts: which slots it rewrites, in
      which order, with which trees and which numbers. */
  ghost function PlanOf(g: Geometry, t: Tree, world: Cell, shipped: nat): Plan
    requires Fits(t, |g.planes|)
  {
    var tasks := WalkOrder(g, t, world, shipped);
    var us := GreedyAll(g, WorksOf(g, tasks), shipped);
    Plan(HandoversOf(tasks), SubsOf(tasks), ValuesOf(us), us)
  }

  /** One tree for each piece of work, of its own records. */
  ghost predicate Grown(nodes: seq<Node>, planes: nat, shipped: nat, works: seq<Work>, values: seq<int>, us: seq<Tree>) {
    && |values| == |us| <= |works| && shipped <= |nodes|
    && (forall k :: 0 <= k < |us| ==> GrownFor(nodes, planes, shipped, works[k], values[k], us[k]))
    && (forall k, l :: 0 <= k < l < |us| ==> Indices(us[k]) !! Indices(us[l]))
    && (forall i :: shipped <= i < |nodes| ==> Used(i, us))
  }

  ghost predicate GrownFor(nodes: seq<Node>, planes: nat, shipped: nat, work: Work, value: int, u: Tree) {
    && Spells(nodes, planes, value, u) && Proper(u) && Depth(u) <= planes
    && (forall i :: i in Indices(u) ==> shipped <= i < |nodes|)
    && Answers(u, work.cells)
  }

  lemma GrowOneMore(nodes: seq<Node>, planes: nat, shipped: nat, works: seq<Work>, values: seq<int>, us: seq<Tree>,
                    nodes': seq<Node>, value: int, u: Tree)
    requires Grown(nodes, planes, shipped, works, values, us) && |us| < |works|
    requires nodes <= nodes' && Appended(nodes', planes, value, u, |nodes|)
    requires Answers(u, works[|us|].cells) && Depth(u) <= planes
    ensures Grown(nodes', planes, shipped, works, values + [value], us + [u])
  {
    forall k | 0 <= k < |us| ensures GrownFor(nodes', planes, shipped, works[k], values[k], us[k]) {
      assert GrownFor(nodes, planes, shipped, works[k], values[k], us[k]);
      SpellsFrame(nodes, planes, values[k], us[k], nodes', planes);
    }
    forall k | 0 <= k < |us| ensures Indices(us[k]) !! Indices(u) {
      assert GrownFor(nodes, planes, shipped, works[k], values[k], us[k]);
      forall i | i in Indices(us[k]) && i in Indices(u) ensures false {
      }
    }
    forall i | shipped <= i < |nodes'| ensures Used(i, us + [u]) {
      if i < |nodes| {
        assert Used(i, us);
        var k :| 0 <= k < |us| && i in Indices(us[k]);
        assert i in Indices((us + [u])[k]);
      } else {
        assert i in Indices((us + [u])[|us|]);
      }
    }
  }

  function Below(n: nat): (r: set<nat>)
    ensures forall p: nat :: p in r <==> p < n
    ensures |r| == n
  {
    if n == 0 then {} else Below(n - 1) + {n - 1}
  }

  lemma TellingAtMost(cells: seq<Cell>, candidates: seq<nat>, planes: nat)
    requires forall p :: p in candidates ==> p < planes
    ensures |Telling(cells, candidates)| <= planes
  {
    SubsetAtMost(Telling(cells, candidates), Below(planes));
  }

  lemma {:induction false} TimesGrows(a: nat, b: nat, full: nat)
    requires a <= b
    ensures a * full <= b * full
  {
    if a < b {
      TimesGrows(a, b - 1, full);
      assert b * full == (b - 1) * full + full;
    }
  }

  lemma OneMoreFull(done: nat, all: nat, full: nat)
    requires done < all
    ensures done * full + full == (done + 1) * full <= all * full
  {
    TimesGrows(done + 1, all, full);
  }

  /**
   * One new subtree per handover, appended one behind the other over the shipped records; failure only when the lump
   * is full.
   */
  method BuildAll(m: AasTree, g: Geometry, works: seq<Work>)
    returns (values: seq<int>, failed: bool, ghost us: seq<Tree>)
    requires g.planes == m.planes && |m.nodes| > 0
    requires forall k :: 0 <= k < |works| ==> SoundWork(works[k], |g.planes|)
    modifies m`nodes
    ensures old(m.nodes) <= m.nodes
    ensures failed ==> m.nodeRoom <= |m.nodes| <= |old(m.nodes)| + |works| * Full(|g.planes|)
    ensures !failed ==> |us| == |values| == |works| && Grown(m.nodes, |g.planes|, |old(m.nodes)|, works, values, us)
    ensures !failed ==> us == GreedyAll(g, works, |old(m.nodes)|) && values == ValuesOf(us)
    ensures Flagged(m.nodes, m.planes, |old(m.nodes)|)
  {
    hide *;
    values, failed, us := [], false, [];
    ghost var shipped := |m.nodes|;
    NoneGrown(m.nodes, |g.planes|, works);
    NoneGreedy(g, works, shipped);
    FlaggedNone(m.nodes, m.planes);
    while |values| < |works|
      invariant |values| == |us| <= |works|
      invariant |m.nodes| <= shipped + |us| * Full(|g.planes|)
      invariant Flagged(m.nodes, m.planes, shipped)
      invariant old(m.nodes) <= m.nodes && Grown(m.nodes, |g.planes|, shipped, works, values, us)
      invariant us == GreedyAll(g, works[..|us|], shipped) && values == ValuesOf(us) && |m.nodes| == shipped + Sizes(us)
    {
      var work := works[|values|];
      assert SoundWork(work, |g.planes|);
      WorkIsBsp(work, |g.planes|);
      ghost var before := m.nodes;
      var value;
      ghost var u;
      value, failed, u := Build(m, g, work.candidates, work.cells, 0);
      FlaggedBehind(before, m.nodes, m.planes, shipped);
      FullGrows(|Telling(work.cells, work.candidates)|, |g.planes|);
      OneMoreFull(|us|, |works|, Full(|g.planes|));
      if failed {
        return;
      }
      BuiltMeans(g, work, |before|, m.nodes, value, u);
      GrowOneMore(before, |g.planes|, shipped, works, values, us, m.nodes, value, u);
      GreedyOneMore(g, works, |us|, shipped, us, u);
      values, us := values + [value], us + [u];
    }
  }

  lemma NoneGreedy(g: Geometry, works: seq<Work>, shipped: nat)
    ensures GreedyAll(g, works[..0], shipped) == [] && ValuesOf([]) == [] && Sizes([]) == 0
    ensures works[..|works|] == works
  {
  }

  lemma WorkIsBsp(work: Work, planes: nat)
    requires SoundWork(work, planes)
    ensures BspCells(work.cells, work.candidates, planes)
    ensures |Telling(work.cells, work.candidates)| <= planes
  {
    TellingAtMost(work.cells, work.candidates, planes);
  }

  lemma BuiltMeans(g: Geometry, work: Work, start: nat, nodes: seq<Node>, value: int, u: Tree)
    requires BuiltOver(g, work.candidates, work.cells, 0, start, nodes, value, u) && SoundWork(work, |g.planes|)
    ensures Appended(nodes, |g.planes|, value, u, start) && Answers(u, work.cells) && Depth(u) <= |g.planes|
    ensures u == Greedy(g, work.candidates, work.cells, 0, start) && value == ValueOf(u) && |nodes| == start + Size(u)
  {
    WorkIsBsp(work, |g.planes|);
  }

  lemma GreedyStep(g: Geometry, more: seq<Work>, n: nat, shipped: nat)
    requires |more| == n + 1
    ensures var us := GreedyAll(g, more[..n], shipped);
            GreedyAll(g, more, shipped) == us + [Greedy(g, more[n].candidates, more[n].cells, 0, shipped + Sizes(us))]
  {
    hide Greedy, Sizes;
  }

  lemma SizesStep(us: seq<Tree>, u: Tree)
    ensures Sizes(us + [u]) == Sizes(us) + Size(u) && ValuesOf(us + [u]) == ValuesOf(us) + [ValueOf(u)]
  {
    assert (us + [u])[..|us|] == us;
  }

  lemma GreedyOneMore(g: Geometry, works: seq<Work>, n: nat, shipped: nat, us: seq<Tree>, u: Tree)
    requires n < |works| && us == GreedyAll(g, works[..n], shipped)
    requires u == Greedy(g, works[n].candidates, works[n].cells, 0, shipped + Sizes(us))
    ensures us + [u] == GreedyAll(g, works[..n + 1], shipped) && |us| == n
    ensures ValuesOf(us + [u]) == ValuesOf(us) + [ValueOf(u)] && Sizes(us + [u]) == Sizes(us) + Size(u)
  {
    hide *;
    var more := works[..n + 1];
    assert more[..n] == works[..n] && more[n] == works[n];
    GreedyStep(g, more, n, shipped);
    SizesStep(us, u);
  }

  lemma NoneGrown(nodes: seq<Node>, planes: nat, works: seq<Work>)
    ensures Grown(nodes, planes, |nodes|, works, [], [])
  {
  }

  /** Writing the values into the first k slots, in order. */
  function Written(nodes: seq<Node>, works: seq<Work>, values: seq<int>, k: nat): (r: seq<Node>)
    requires k <= |works| && |works| == |values|
    requires forall i :: 0 <= i < |works| ==> 0 <= works[i].slot.node < |nodes|
    ensures |r| == |nodes|
  {
    if k == 0 then nodes
    else
      var before := Written(nodes, works, values, k - 1);
      var slot := works[k - 1].slot;
      before[slot.node := before[slot.node].WithChild(slot.front, values[k - 1])]
  }

  /** A slot that is no handover's keeps its child value. */
  lemma {:induction false} WrittenFacts(nodes: seq<Node>, works: seq<Work>, values: seq<int>, k: nat,
                                        shipped: nat, hs: seq<Handover>)
    requires k <= |works| && |works| == |values| == |hs| && shipped <= |nodes|
    requires forall i :: 0 <= i < |works| ==> 0 <= works[i].slot.node < shipped && works[i].slot == hs[i].slot
    ensures forall i :: shipped <= i < |nodes| ==> Written(nodes, works, values, k)[i] == nodes[i]
    ensures forall i :: 0 <= i < shipped ==> RelinkedAt(nodes, Written(nodes, works, values, k), i, hs[..k], values[..k])
  {
    if k > 0 {
      WrittenFacts(nodes, works, values, k - 1, shipped, hs);
      var before, after := Written(nodes, works, values, k - 1), Written(nodes, works, values, k);
      forall i | 0 <= i < shipped ensures RelinkedAt(nodes, after, i, hs[..k], values[..k]) {
        assert RelinkedAt(nodes, before, i, hs[..k - 1], values[..k - 1]);
        forall side
          ensures if IsSlot(hs[..k], Slot(i, side)) then Holds(after[i].Child(side), Slot(i, side), hs[..k], values[..k])
                  else after[i].Child(side) == nodes[i].Child(side)
        {
          OneMoreWritten(before[i], after[i], nodes[i], Slot(i, side), hs, values, k);
        }
      }
    }
  }

  lemma OneMoreWritten(before: Node, after: Node, start: Node, slot: Slot, hs: seq<Handover>, values: seq<int>, k: nat)
    requires 0 < k <= |hs| == |values|
    requires if IsSlot(hs[..k - 1], slot) then Holds(before.Child(slot.front), slot, hs[..k - 1], values[..k - 1])
             else before.Child(slot.front) == start.Child(slot.front)
    requires after == if hs[k - 1].slot.node == slot.node then before.WithChild(hs[k - 1].slot.front, values[k - 1]) else before
    ensures if IsSlot(hs[..k], slot) then Holds(after.Child(slot.front), slot, hs[..k], values[..k])
            else after.Child(slot.front) == start.Child(slot.front)
  {
    var last := k - 1;
    assert hs[..k][last] == hs[last] && values[..k][last] == values[last];
    if hs[last].slot != slot {
      assert after.Child(slot.front) == before.Child(slot.front);
      if IsSlot(hs[..last], slot) {
        var j :| 0 <= j < last && hs[..last][j].slot == slot && before.Child(slot.front) == values[..last][j];
        assert hs[..k][j].slot == slot && values[..k][j] == before.Child(slot.front);
      } else {
        forall j | 0 <= j < k ensures hs[..k][j].slot != slot {
          if j < last {
            assert hs[..last][j].slot == hs[..k][j].slot;
          }
        }
      }
    }
  }

  /** Writes each value into its slot and nothing else. */
  method WriteSlots(m: AasTree, works: seq<Work>, values: seq<int>)
    requires |works| == |values|
    requires forall i :: 0 <= i < |works| ==> 0 <= works[i].slot.node < |m.nodes|
    modifies m`nodes
    ensures m.nodes == Written(old(m.nodes), works, values, |works|)
    ensures forall start :: Flagged(old(m.nodes), m.planes, start) ==> Flagged(m.nodes, m.planes, start)
  {
    var k := 0;
    while k < |works|
      invariant 0 <= k <= |works| && |m.nodes| == |old(m.nodes)|
      invariant m.nodes == Written(old(m.nodes), works, values, k)
      invariant forall start :: Flagged(old(m.nodes), m.planes, start) ==> Flagged(m.nodes, m.planes, start)
    {
      forall start | Flagged(m.nodes, m.planes, start)
        ensures Flagged(m.nodes[works[k].slot.node := m.nodes[works[k].slot.node].WithChild(works[k].slot.front, values[k])],
                        m.planes, start)
      {
        FlaggedWrite(m.nodes, m.planes, start, works[k].slot.node, works[k].slot.front, values[k]);
      }
      m.WriteChild(works[k].slot.node, works[k].slot.front, values[k]);
      k := k + 1;
    }
  }

  // ---- the driver ----

  /** How far the world box reaches from the origin on each axis. */
  const WORLD: real := 65536.0

  predicate InWorld(q: Point) {
    -WORLD <= q.x <= WORLD && -WORLD <= q.y <= WORLD && -WORLD <= q.z <= WORLD
  }

  predicate OffPlanes(planes: seq<Plane>, q: Point) {
    forall i :: 0 <= i < |planes| ==> Eval(planes[i], q) != 0.0
  }

  /** The world cell holds the region of every point of the box that is on no
      plane. */
  ghost predicate WorldCell(planes: seq<Plane>, world: Cell) {
    && (forall s :: s in world.regions ==> |s| == |planes|)
    && forall q :: InWorld(q) && OffPlanes(planes, q) ==> SignsOf(planes, q) in world.regions
  }

  lemma WorksAreSound(g: Geometry, nodes: seq<Node>, t: Tree, world: Cell, shipped: nat,
                      works: seq<Work>, hs: seq<Handover>, subs: seq<Tree>)
    requires WorksFor(g, nodes, works, hs, subs) && Fits(t, |g.planes|) && Proper(t) && (t.Split? ==> t.at < shipped)
    requires AsSet(hs) == Handovers(g, t, world, shipped)
    requires forall s :: s in world.regions ==> |s| == |g.planes|
    ensures |works| == |hs|
    ensures forall k :: 0 <= k < |works| ==> SoundWork(works[k], |g.planes|)
    ensures forall k :: 0 <= k < |works| ==> 0 <= works[k].slot.node < shipped
  {
    forall k | 0 <= k < |works| ensures SoundWork(works[k], |g.planes|) && 0 <= works[k].slot.node < shipped {
      assert WorkFor(g, nodes, works[k], hs[k], subs[k]);
      assert hs[k] in AsSet(hs);
      HandoverFacts(g, t, world, shipped, hs[k]);
      forall p | p in works[k].candidates ensures p < |g.planes| {
        UsedFit(g, subs[k], hs[k].part, p);
      }
      LeafCellsFacts(g, subs[k], hs[k].part, works[k].candidates);
    }
  }

  lemma PlannedWorks(g: Geometry, nodes: seq<Node>, t: Tree, world: Cell, shipped: nat,
                     works: seq<Work>, hs: seq<Handover>, subs: seq<Tree>)
    requires WorksFor(g, nodes, works, hs, subs) && Fits(t, |g.planes|)
    requires Tasks(hs, subs) == WalkOrder(g, t, world, shipped)
    ensures works == WorksOf(g, WalkOrder(g, t, world, shipped))
  {
    var tasks := WalkOrder(g, t, world, shipped);
    forall k | 0 <= k < |works|
      ensures works[k] == WorkOf(g, tasks[k])
    {
      assert WorkFor(g, nodes, works[k], hs[k], subs[k]) && tasks[k] in tasks && Tasks(hs, subs)[k] == Task(hs[k], subs[k]);
    }
  }

  lemma IsPlanOf(g: Geometry, nodes: seq<Node>, t: Tree, world: Cell, shipped: nat,
                 works: seq<Work>, hs: seq<Handover>, subs: seq<Tree>, values: seq<int>, us: seq<Tree>)
    requires WorksFor(g, nodes, works, hs, subs) && Fits(t, |g.planes|)
    requires Tasks(hs, subs) == WalkOrder(g, t, world, shipped)
    requires us == GreedyAll(g, works, shipped) && values == ValuesOf(us)
    ensures Plan(hs, subs, values, us) == PlanOf(g, t, world, shipped)
  {
    hide WalkOrder, GreedyAll, ValuesOf;
    PlannedWorks(g, nodes, t, world, shipped, works, hs, subs);
  }

  /** What one finished piece of work amounts to. */
  lemma WorkSubstitutes(g: Geometry, nodes: seq<Node>, t: Tree, n: int, world: Cell, shipped: nat,
                        work: Work, h: Handover, sub: Tree, built: seq<Node>, value: int, u: Tree, nodes': seq<Node>)
    requires WorkFor(g, nodes, work, h, sub) && Spells(nodes, |g.planes|, n, t) && Fits(t, |g.planes|) && Proper(t)
    requires (t.Split? ==> t.at < shipped) && h in Handovers(g, t, world, shipped)
    requires forall s :: s in world.regions ==> |s| == |g.planes|
    requires shipped <= |nodes| && GrownFor(built, |g.planes|, shipped, work, value, u)
    requires |nodes'| == |built| && forall i :: shipped <= i < |built| ==> nodes'[i] == built[i]
    ensures Substitutes(nodes, nodes', |g.planes|, shipped, h, sub, value, u)
  {
    HandoverFacts(g, t, world, shipped, h);
    SpellsUnder(nodes, |g.planes|, n, t, h.slot);
    SpellsFrame(built, |g.planes|, value, u, nodes', |g.planes|);
    forall s | s in h.part.regions ensures Area(u, s) == Area(sub, s) {
      LeafCellsKeepArea(g, sub, h.part, u, s);
    }
  }

  lemma LinkingIsCarried(g: Geometry, nodes: seq<Node>, t: Tree, n: int, world: Cell, shipped: nat,
                       works: seq<Work>, hs: seq<Handover>, subs: seq<Tree>,
                       built: seq<Node>, values: seq<int>, us: seq<Tree>)
    requires WorksFor(g, nodes, works, hs, subs) && Spells(nodes, |g.planes|, n, t) && Proper(t)
    requires Fits(t, |g.planes|) && (t.Split? ==> t.at < shipped) && AsSet(hs) == Handovers(g, t, world, shipped)
    requires forall s :: s in world.regions ==> |s| == |g.planes|
    requires Distinct(hs)
    requires shipped <= |nodes| && nodes[..shipped] <= built
    requires |us| == |works| && Grown(built, |g.planes|, shipped, works, values, us)
    requires forall k :: 0 <= k < |works| ==> 0 <= works[k].slot.node < shipped
    ensures Carried(nodes, Written(built, works, values, |works|), |g.planes|, shipped, Plan(hs, subs, values, us))
  {
    var nodes' := Written(built, works, values, |works|);
    forall k | 0 <= k < |works| ensures works[k].slot == hs[k].slot && hs[k] in AsSet(hs) {
      assert WorkFor(g, nodes, works[k], hs[k], subs[k]);
    }
    WrittenFacts(built, works, values, |works|, shipped, hs);
    assert hs[..|works|] == hs && values[..|works|] == values;
    forall i | 0 <= i < shipped ensures RelinkedAt(nodes, nodes', i, hs, values) {
      assert RelinkedAt(built, nodes', i, hs, values);
      assert nodes[..shipped][i] == built[i];
    }
    forall k | 0 <= k < |hs| ensures Substitutes(nodes, nodes', |g.planes|, shipped, hs[k], subs[k], values[k], us[k]) {
      assert GrownFor(built, |g.planes|, shipped, works[k], values[k], us[k]);
      WorkSubstitutes(g, nodes, t, n, world, shipped, works[k], hs[k], subs[k], built, values[k], us[k], nodes');
    }
    forall k, l | 0 <= k < l < |hs| ensures hs[k].slot != hs[l].slot {
      if hs[k].slot == hs[l].slot {
        OneHandover(g, t, world, shipped, hs[k], hs[l]);
      }
    }
  }

  /** The state after linking is one in which every handover holds the subtree planned for it. */
  lemma LinkingCarries(g: Geometry, nodes: seq<Node>, t: Tree, n: int, world: Cell, shipped: nat,
                       works: seq<Work>, hs: seq<Handover>, subs: seq<Tree>,
                       built: seq<Node>, values: seq<int>, us: seq<Tree>)
    requires WorksFor(g, nodes, works, hs, subs) && Spells(nodes, |g.planes|, n, t) && Proper(t)
    requires Fits(t, |g.planes|) && (t.Split? ==> t.at < shipped) && AsSet(hs) == Handovers(g, t, world, shipped)
    requires forall s :: s in world.regions ==> |s| == |g.planes|
    requires Distinct(hs)
    requires shipped <= |nodes| && nodes[..shipped] <= built
    requires |us| == |works| && Grown(built, |g.planes|, shipped, works, values, us)
    requires Tasks(hs, subs) == WalkOrder(g, t, world, shipped)
    requires us == GreedyAll(g, works, shipped) && values == ValuesOf(us)
    requires forall k :: 0 <= k < |works| ==> 0 <= works[k].slot.node < shipped
    ensures Linked(g, nodes, Written(built, works, values, |works|), t, world, shipped, Plan(hs, subs, values, us))
  {
    hide WorksFor, Spells, Proper, Handovers, Distinct, Grown, WalkOrder, GreedyAll, ValuesOf, Written, Carried, PlanOf,
         Tasks;
    LinkingIsCarried(g, nodes, t, n, world, shipped, works, hs, subs, built, values, us);
    IsPlanOf(g, nodes, t, world, shipped, works, hs, subs, values, us);
  }

  datatype Outcome = Untouched | Rebuilt | BuildFailed | TooDeep

  /** The guards at the start, and a generated subtree in a slot without volume. */
  ghost predicate Refuses(g: Geometry, nodes: seq<Node>, n: int, t: Tree, world: Cell, shipped: nat, enabled: bool)
    requires Fits(t, |g.planes|)
  {
    !enabled || |nodes| <= shipped || n <= 0 || n >= shipped || GivesUp(g, t, world, shipped)
  }

  /** Reasons to leave the tree alone. */
  ghost predicate Declines(g: Geometry, nodes: seq<Node>, n: int, t: Tree, world: Cell, shipped: nat, enabled: bool)
    requires Fits(t, |g.planes|)
  {
    Refuses(g, nodes, n, t, world, shipped, enabled) || Depth(t) > MAX_STEPS
  }

  /** Every subtree planned is built and linked in, and exactly the handovers
      are rewritten. */
  ghost predicate Linked(g: Geometry, nodes: seq<Node>, linked: seq<Node>, t: Tree, world: Cell, shipped: nat, plan: Plan)
    requires Fits(t, |g.planes|)
  {
    && plan == PlanOf(g, t, world, shipped)
    && Carried(nodes, linked, |g.planes|, shipped, plan)
    && AsSet(plan.hs) == Handovers(g, t, world, shipped)
  }

  /** How a rebuild ends, and what it then leaves behind. room is how many node
      records fit. */
  ghost predicate Settles(g: Geometry, nodes: seq<Node>, nodes': seq<Node>, n: int, t: Tree, world: Cell, shipped: nat,
                          enabled: bool, room: nat, outcome: Outcome, plan: Plan)
    requires Fits(t, |g.planes|)
  {
    match outcome
    case Untouched => nodes' == nodes && Declines(g, nodes, n, t, world, shipped, enabled)
    case BuildFailed =>
      nodes' == nodes && room <= shipped + |Handovers(g, t, world, shipped)| * Full(|g.planes|)
    case Rebuilt =>
      && !Refuses(g, nodes, n, t, world, shipped, enabled)
      && Linked(g, nodes, nodes', t, world, shipped, plan)
      && forall t' :: Spells(nodes', |g.planes|, n, t') ==> MeasuredDepth(t') <= MeasuredDepth(t)
    case TooDeep =>
      && !Refuses(g, nodes, n, t, world, shipped, enabled)
      && exists linked :: TooDeepFrom(g, nodes, linked, nodes', n, t, world, shipped, plan)
  }

  ghost predicate TooDeepFrom(g: Geometry, nodes: seq<Node>, linked: seq<Node>, nodes': seq<Node>, n: int, t: Tree,
                              world: Cell, shipped: nat, plan: Plan)
    requires Fits(t, |g.planes|)
  {
    && Linked(g, nodes, linked, t, world, shipped, plan)
    && nodes' == linked[..shipped] + nodes[shipped..]
    && forall t' :: Spells(linked, |g.planes|, n, t') ==> MeasuredDepth(t') > MeasuredDepth(t)
  }

  lemma RootIsShipped(m: AasTree, g: Geometry, t: Tree, world: Cell, shipped: nat)
    requires m.Holds(t) && 0 < m.root < shipped && g.planes == m.planes && WorldCell(g.planes, world)
    ensures Spells(m.nodes, |g.planes|, m.root, t) && Proper(t) && t.Split? && t.at < shipped
    ensures forall s :: s in world.regions ==> |s| == |g.planes|
  {
  }

  /** What is known when the new subtrees are in place and measured. */
  lemma Measured(g: Geometry, nodes: seq<Node>, linked: seq<Node>, n: int, t: Tree, world: Cell, shipped: nat,
                 enabled: bool, room: nat, plan: Plan, spliced: nat, rebuilt: nat)
    requires Fits(t, |g.planes|) && Linked(g, nodes, linked, t, world, shipped, plan)
    requires !Refuses(g, nodes, n, t, world, shipped, enabled)
    requires spliced == MeasuredDepth(t)
    requires forall t' :: Spells(linked, |g.planes|, n, t') ==> rebuilt == MeasuredDepth(t')
    ensures shipped <= |linked| && shipped <= |nodes|
    ensures rebuilt <= spliced ==> Settles(g, nodes, linked, n, t, world, shipped, enabled, room, Rebuilt, plan)
    ensures rebuilt > spliced ==>
      Settles(g, nodes, linked[..shipped] + nodes[shipped..], n, t, world, shipped, enabled, room, TooDeep, plan)
  {
    if rebuilt > spliced {
      assert TooDeepFrom(g, nodes, linked, linked[..shipped] + nodes[shipped..], n, t, world, shipped, plan);
    }
  }

  lemma Declined(g: Geometry, nodes: seq<Node>, n: int, t: Tree, world: Cell, shipped: nat, enabled: bool, room: nat, plan: Plan)
    requires Fits(t, |g.planes|)
    requires || !enabled || |nodes| <= shipped || n <= 0 || n >= shipped
             || GivesUp(g, t, world, shipped) || Depth(t) > MAX_STEPS
    ensures Declines(g, nodes, n, t, world, shipped, enabled)
    ensures Settles(g, nodes, nodes, n, t, world, shipped, enabled, room, Untouched, plan)
  {
  }

  lemma NothingRefused(g: Geometry, nodes: seq<Node>, n: int, t: Tree, world: Cell, shipped: nat, enabled: bool)
    requires Fits(t, |g.planes|) && enabled && |nodes| > shipped && 0 < n < shipped && !GivesUp(g, t, world, shipped)
    ensures !Refuses(g, nodes, n, t, world, shipped, enabled)
  {
  }

  lemma NoRoom(g: Geometry, nodes: seq<Node>, n: int, t: Tree, world: Cell, shipped: nat, enabled: bool, room: nat,
               plan: Plan, hs: seq<Handover>)
    requires Fits(t, |g.planes|) && Distinct(hs) && AsSet(hs) == Handovers(g, t, world, shipped)
    requires room <= shipped + |hs| * Full(|g.planes|)
    ensures Settles(g, nodes, nodes, n, t, world, shipped, enabled, room, BuildFailed, plan)
  {
    DistinctCount(hs);
  }

  lemma {:induction false} DistinctCount(hs: seq<Handover>)
    requires Distinct(hs)
    ensures |AsSet(hs)| == |hs|
  {
    if hs != [] {
      var last := |hs| - 1;
      DistinctCount(hs[..last]);
      assert AsSet(hs) == AsSet(hs[..last]) + {hs[last]};
    }
  }

  /** aug_rebuild_tree. Only the outcome Rebuilt is reported as success. */
  method RebuildTree(m: AasTree, g: Geometry, enabled: bool, shipped: nat, world: Cell, ghost t: Tree)
    returns (replaced: bool, ghost outcome: Outcome, ghost plan: Plan)
    requires g.planes == m.planes && m.Holds(t) && WorldCell(g.planes, world) && Fits(t, |g.planes|)
    modifies m`nodes
    ensures Settles(g, old(m.nodes), m.nodes, m.root, t, world, shipped, enabled, m.nodeRoom, outcome, plan)
    ensures replaced <==> outcome == Rebuilt
    ensures replaced ==> Flagged(m.nodes, m.planes, shipped)
  {
    hide *;
    outcome, plan, replaced := Untouched, Plan([], [], [], []), false;
    if !enabled || |m.nodes| <= shipped || m.root <= 0 || m.root >= shipped {
      Declined(g, m.nodes, m.root, t, world, shipped, enabled, m.nodeRoom, plan);
      return;
    }
    RootIsShipped(m, g, t, world, shipped);
    var works, ok;
    ghost var hs, subs;
    works, ok, hs, subs := FindWork(m, g, shipped, world, t);
    if !ok {
      Declined(g, m.nodes, m.root, t, world, shipped, enabled, m.nodeRoom, plan);
      return;
    }
    ghost var nodes := m.nodes;
    WorksAreSound(g, nodes, t, world, shipped, works, hs, subs);
    var saved := m.nodes[shipped..];
    var splicedDepth := m.TreeDepth();
    m.nodes := m.nodes[..shipped];
    var values, failed;
    ghost var us;
    values, failed, us := BuildAll(m, g, works);
    if failed {
      NoRoom(g, nodes, m.root, t, world, shipped, enabled, m.nodeRoom, plan, hs);
      m.nodes := m.nodes[..shipped] + saved;
      assert m.nodes == nodes;
      outcome := BuildFailed;
      return;
    }
    NothingRefused(g, nodes, m.root, t, world, shipped, enabled);
    LinkingCarries(g, nodes, t, m.root, world, shipped, works, hs, subs, m.nodes, values, us);
    WriteSlots(m, works, values);
    plan := Plan(hs, subs, values, us);
    var depth := m.TreeDepth();
    Measured(g, nodes, m.nodes, m.root, t, world, shipped, enabled, m.nodeRoom, plan, splicedDepth, depth);
    if depth > splicedDepth {
      m.nodes := m.nodes[..shipped] + saved;
      outcome := TooDeep;
      return;
    }
    replaced, outcome := true, Rebuilt;
  }
}
