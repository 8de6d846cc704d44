/**
 * Which subtrees a rebuild takes in hand, and when it leaves the tree alone, by the regions that come through a slot
 * (src/backend/aas_augment.c:1380-1480).
 */
module RebuildScope {
  import opened Options
  import opened Bsp
  import opened Cells
  import opened Collect

  /** The record is reached through shipped records alone, itself among them. */
  ghost predicate Above(t: Tree, n: int, shipped: nat) {
    t.Split? && t.at < shipped && (n == t.at || Above(t.front, n, shipped) || Above(t.back, n, shipped))
  }

  /** A slot that the walk of the shipped records comes to, with a generated subtree in it. */
  ghost predicate Grafts(t: Tree, slot: Slot, shipped: nat) {
    Above(t, slot.node, shipped) && slot.node in Indices(t) && Under(t, slot).Split? && Under(t, slot).at >= shipped
  }

  /** The regions of the cell that pass a slot. */
  ghost function Through(t: Tree, cell: Cell, slot: Slot): set<Signs> {
    set s | s in cell.regions && Passes(t, slot, s)
  }

  lemma {:induction false} AboveIsIn(t: Tree, n: int, shipped: nat)
    requires Above(t, n, shipped)
    ensures n in Indices(t)
  {
    if n != t.at {
      if Above(t.front, n, shipped) {
        AboveIsIn(t.front, n, shipped);
      } else {
        AboveIsIn(t.back, n, shipped);
      }
    }
  }

  /** A slot below one side of the root. */
  lemma GraftsBelow(t: Tree, slot: Slot, shipped: nat, side: bool)
    requires Proper(t) && t.Split? && t.at < shipped && slot.node in Indices(t.Child(side))
    ensures slot.node != t.at && slot.node !in Indices(t.Child(!side))
    ensures Grafts(t, slot, shipped) <==> Grafts(t.Child(side), slot, shipped)
    ensures Under(t, slot) == Under(t.Child(side), slot)
  {
    if Above(t.Child(!side), slot.node, shipped) {
      AboveIsIn(t.Child(!side), slot.node, shipped);
    }
  }

  lemma ThroughBelow(g: Geometry, t: Tree, cell: Cell, slot: Slot, side: bool)
    requires Proper(t) && t.Split? && Fits(t, |g.planes|) && slot.node in Indices(t.Child(side))
    ensures var part := g.Clip(cell, t.plane, side);
            Through(t, cell, slot) == if part.None? then {} else Through(t.Child(side), part.value, slot)
  {
    forall s: Signs
      ensures Passes(t, slot, s) <==> Side(s, t.plane) == side && Passes(t.Child(side), slot, s)
    {
      PassesNowhere(t.Child(!side), slot, s);
    }
  }

  lemma ThroughHere(g: Geometry, t: Tree, cell: Cell, slot: Slot)
    requires t.Split? && Fits(t, |g.planes|) && slot.node == t.at
    ensures var part := g.Clip(cell, t.plane, slot.front);
            Through(t, cell, slot) == if part.None? then {} else part.value.regions
  {
  }

  lemma SideHandoverIs(g: Geometry, t: Tree, side: bool, cell: Cell, shipped: nat, h: Handover)
    requires t.Split? && Fits(t, |g.planes|)
    ensures h in SideHandovers(g, t, side, cell, shipped) <==>
              var part, child := g.Clip(cell, t.plane, side), t.Child(side);
              && part.Some? && child.Split?
              && if child.at < shipped then h in Handovers(g, child, part.value, shipped)
                 else h == Handover(Slot(t.at, side), part.value)
  {
    hide Handovers;
  }

  /** A handover is a graft, and its cell is what comes through its slot. */
  lemma {:induction false} HandoverGrafts(g: Geometry, t: Tree, cell: Cell, shipped: nat, h: Handover)
    requires Fits(t, |g.planes|) && Proper(t) && (t.Split? ==> t.at < shipped) && h in Handovers(g, t, cell, shipped)
    ensures Grafts(t, h.slot, shipped) && h.part.regions == Through(t, cell, h.slot) != {}
    decreases t
  {
    var side := h in SideHandovers(g, t, true, cell, shipped);
    SideHandoverIs(g, t, side, cell, shipped, h);
    var part, child := g.Clip(cell, t.plane, side).value, t.Child(side);
    if child.at < shipped {
      HandoverGrafts(g, child, part, shipped, h);
      GraftsBelow(t, h.slot, shipped, side);
      ThroughBelow(g, t, cell, h.slot, side);
    } else {
      ThroughHere(g, t, cell, h.slot);
    }
  }

  /** Every graft that some region comes to is a handover. */
  lemma {:induction false} GraftsHandOver(g: Geometry, t: Tree, cell: Cell, shipped: nat, slot: Slot) returns (h: Handover)
    requires Fits(t, |g.planes|) && Proper(t) && Grafts(t, slot, shipped) && Through(t, cell, slot) != {}
    ensures h in Handovers(g, t, cell, shipped) && h.slot == slot
    decreases t
  {
    if slot.node == t.at {
      ThroughHere(g, t, cell, slot);
      h := Handover(slot, g.Clip(cell, t.plane, slot.front).value);
      assert Slot(t.at, slot.front) == slot;
      SideHandoverIs(g, t, slot.front, cell, shipped, h);
    } else {
      var side := slot.node in Indices(t.front);
      GraftsBelow(t, slot, shipped, side);
      ThroughBelow(g, t, cell, slot, side);
      h := GraftsHandOver(g, t.Child(side), g.Clip(cell, t.plane, side).value, shipped, slot);
      SideHandoverIs(g, t, side, cell, shipped, h);
    }
  }

  /** A rebuild takes in hand exactly the generated subtrees under shipped records that some region comes to. */
  lemma HandoverIff(g: Geometry, t: Tree, cell: Cell, shipped: nat, slot: Slot)
    requires Fits(t, |g.planes|) && Proper(t) && (t.Split? ==> t.at < shipped)
    ensures (exists h :: h in Handovers(g, t, cell, shipped) && h.slot == slot) <==>
            Grafts(t, slot, shipped) && Through(t, cell, slot) != {}
    ensures forall h :: h in Handovers(g, t, cell, shipped) ==> h.part.regions == Through(t, cell, h.slot)
  {
    hide Handovers, Grafts, Through;
    forall h | h in Handovers(g, t, cell, shipped)
      ensures Grafts(t, h.slot, shipped) && h.part.regions == Through(t, cell, h.slot) != {}
    {
      HandoverGrafts(g, t, cell, shipped, h);
    }
    if Grafts(t, slot, shipped) && Through(t, cell, slot) != {} {
      var h := GraftsHandOver(g, t, cell, shipped, slot);
    }
  }

  /** Some region comes to the record. */
  ghost predicate Comes(t: Tree, cell: Cell, n: int)
    requires t.Split?
  {
    n == t.at || Through(t, cell, Slot(n, true)) != {} || Through(t, cell, Slot(n, false)) != {}
  }

  /** A graft that nothing comes through, in a record that something comes to. */
  ghost predicate Bare(t: Tree, cell: Cell, shipped: nat, slot: Slot)
    requires t.Split?
  {
    Grafts(t, slot, shipped) && Through(t, cell, slot) == {} && Comes(t, cell, slot.node)
  }

  /** Every region of a cell that comes to a record leaves it by one of its slots. */
  lemma {:induction false} RootIsCome(t: Tree, cell: Cell, s: Signs)
    requires t.Split? && s in cell.regions
    ensures s in Through(t, cell, Slot(t.at, true)) || s in Through(t, cell, Slot(t.at, false))
  {
  }

  lemma ComesBelow(g: Geometry, t: Tree, cell: Cell, side: bool, n: int)
    requires Proper(t) && t.Split? && Fits(t, |g.planes|) && t.Child(side).Split? && n in Indices(t.Child(side))
    ensures Comes(t, cell, n) <==>
            g.Clip(cell, t.plane, side).Some? && Comes(t.Child(side), g.Clip(cell, t.plane, side).value, n)
  {
    ThroughBelow(g, t, cell, Slot(n, true), side);
    ThroughBelow(g, t, cell, Slot(n, false), side);
    var part := g.Clip(cell, t.plane, side);
    if part.Some? {
      var s :| s in part.value.regions;
      RootIsCome(t.Child(side), part.value, s);
    }
    hide Through;
  }

  /** A bare graft below one side is one of that side. */
  lemma BareBelow(g: Geometry, t: Tree, cell: Cell, shipped: nat, side: bool, slot: Slot)
    requires Proper(t) && t.Split? && t.at < shipped && Fits(t, |g.planes|)
    requires t.Child(side).Split? && slot.node in Indices(t.Child(side))
    ensures Bare(t, cell, shipped, slot) <==>
            g.Clip(cell, t.plane, side).Some? && Bare(t.Child(side), g.Clip(cell, t.plane, side).value, shipped, slot)
  {
    GraftsBelow(t, slot, shipped, side);
    ThroughBelow(g, t, cell, slot, side);
    ComesBelow(g, t, cell, side, slot.node);
    hide Grafts, Through, Comes;
  }

  lemma SideGivesUpIs(g: Geometry, t: Tree, side: bool, cell: Cell, shipped: nat)
    requires t.Split? && Fits(t, |g.planes|)
    ensures SideGivesUp(g, t, side, cell, shipped) <==>
              var part, child := g.Clip(cell, t.plane, side), t.Child(side);
              child.Split? && if part.None? then child.at >= shipped
                              else child.at < shipped && GivesUp(g, child, part.value, shipped)
  {
    hide GivesUp;
  }

  /** Where a walk that gives up finds its bare graft. */
  lemma {:induction false} GivesUpAt(g: Geometry, t: Tree, cell: Cell, shipped: nat) returns (slot: Slot)
    requires Fits(t, |g.planes|) && Proper(t) && t.Split? && t.at < shipped && GivesUp(g, t, cell, shipped)
    ensures Bare(t, cell, shipped, slot)
    decreases t
  {
    var side := SideGivesUp(g, t, true, cell, shipped);
    SideGivesUpIs(g, t, side, cell, shipped);
    var part, child := g.Clip(cell, t.plane, side), t.Child(side);
    if part.None? {
      slot := Slot(t.at, side);
      ThroughHere(g, t, cell, slot);
    } else {
      slot := GivesUpAt(g, child, part.value, shipped);
      AboveIsIn(child, slot.node, shipped);
      BareBelow(g, t, cell, shipped, side, slot);
    }
  }

  lemma {:induction false} BareGivesUp(g: Geometry, t: Tree, cell: Cell, shipped: nat, slot: Slot)
    requires Fits(t, |g.planes|) && Proper(t) && t.Split? && t.at < shipped && Bare(t, cell, shipped, slot)
    ensures GivesUp(g, t, cell, shipped)
    decreases t
  {
    if slot.node == t.at {
      ThroughHere(g, t, cell, slot);
      assert Slot(t.at, slot.front) == slot;
      SideGivesUpIs(g, t, slot.front, cell, shipped);
    } else {
      var side := slot.node in Indices(t.front);
      BareBelow(g, t, cell, shipped, side, slot);
      AboveSplits(t.Child(side), slot.node, shipped);
      BareGivesUp(g, t.Child(side), g.Clip(cell, t.plane, side).value, shipped, slot);
      SideGivesUpIs(g, t, side, cell, shipped);
    }
  }

  lemma AboveSplits(t: Tree, n: int, shipped: nat)
    ensures Above(t, n, shipped) ==> t.Split? && t.at < shipped
  {
  }

  /** The walk gives up exactly on a generated subtree that nothing comes through, in a record that something comes to. */
  lemma GivesUpIff(g: Geometry, t: Tree, cell: Cell, shipped: nat)
    requires Fits(t, |g.planes|) && Proper(t) && t.Split? && t.at < shipped
    ensures GivesUp(g, t, cell, shipped) <==> exists slot :: Bare(t, cell, shipped, slot)
  {
    hide Bare, GivesUp;
    if GivesUp(g, t, cell, shipped) {
      var slot := GivesUpAt(g, t, cell, shipped);
    }
    if slot :| Bare(t, cell, shipped, slot) {
      BareGivesUp(g, t, cell, shipped, slot);
    }
  }
}
