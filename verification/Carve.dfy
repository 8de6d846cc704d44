/**
 The BSP splice (src/backend/aas_augment.c:883-1027): every occupied leaf slot
 under a surface is replaced by a chain of the surface's own planes that ends
 in the surface's area and falls back to the old leaf.
 */
module Carve {
  import opened Bsp
  import opened Boxes
  import opened SearchTree

  /** The split plane of a surface at height Z sits at Z - 9.6. */
  const BSP_FLOOR_EPS: real := 9.6
  const PRUNE_EPS: real := 0.001
  const WORLD: Box := Box(-1e9, -1e9, -1e9, 1e9, 1e9, 1e9)

  /** One carve: the interned split planes, their field4 values, the search
      box and the one area it may take from (0 for any). */
  datatype Job = Job(planes: seq<Plane>, splits: seq<nat>, field4: seq<int>, box: Box, only: int) {
    predicate Valid() {
      |splits| == |field4| && forall k :: 0 <= k < |splits| ==> splits[k] < |planes|
    }

    /** The ground the surface claims: strictly in front of every plane. */
    predicate Claims(q: Point)
      requires Valid()
    {
      forall k :: 0 <= k < |splits| ==> InFront(planes[splits[k]], q)
    }

    /** The field4 values say of each split plane whether it has a Z component. */
    ghost predicate Marks()
      requires Valid()
    {
      forall k :: 0 <= k < |splits| ==> field4[k] == if planes[splits[k]].c != 0.0 then 1 else 0
    }

    predicate TakesFrom(old_area: int) {
      old_area != 0 && (only == 0 || old_area == only)
    }

    /** The traversal does not go down this side of p. */
    predicate Prunes(p: Plane, front: bool) {
      var side := BoxSide(box, p, PRUNE_EPS);
      if front then side == -1 else side == 1
    }

    predicate Outside(cell: Box)
      requires Valid()
    {
      exists k :: 0 <= k < |splits| && BoxSide(cell, planes[splits[k]], 0.0) == -1
    }

    predicate Inside(cell: Box)
      requires Valid()
    {
      forall k :: 0 <= k < |splits| ==> BoxSide(cell, planes[splits[k]], 0.0) == 1
    }

    /** A leaf slot in this cell gets a chain (or is overwritten). */
    predicate Takes(cell: Box, area: int, old_area: int)
      requires Valid()
    {
      TakesFrom(old_area) && !Outside(cell) && !(Inside(cell) && old_area == area)
    }
  }

  predicate PlanesIn(t: Tree, planes: nat) {
    match t
    case Leaf(_) => true
    case Split(_, plane, front, back) => 0 <= plane < planes && PlanesIn(front, planes) && PlanesIn(back, planes)
  }

  lemma {:induction false} SpellsPlanesIn(nodes: seq<Node>, planes: nat, n: int, t: Tree)
    requires Spells(nodes, planes, n, t)
    ensures PlanesIn(t, planes)
    decreases t
  {
    match t
    case Leaf(_) =>
    case Split(at, _, front, back) =>
      SpellsPlanesIn(nodes, planes, nodes[at].child0, front);
      SpellsPlanesIn(nodes, planes, nodes[at].child1, back);
  }

  // ---- which slots a carve takes ----

  /** The slots a carve of t takes, by the recursive reading of the search. */
  function TakenSlots(j: Job, area: int, t: Tree, cell: Box): set<Slot>
    requires j.Valid() && PlanesIn(t, |j.planes|)
    decreases t, 1
  {
    match t
    case Leaf(_) => {}
    case Split(_, _, _, _) => TakenBelow(j, area, t, true, cell) + TakenBelow(j, area, t, false, cell)
  }

  function TakenBelow(j: Job, area: int, t: Tree, side: bool, cell: Box): set<Slot>
    requires j.Valid() && t.Split? && PlanesIn(t, |j.planes|)
    decreases t, 0
  {
    var p := j.planes[t.plane];
    if j.Prunes(p, side) then {}
    else
      var sub := ClipCell(cell, p, side);
      match t.Child(side)
      case Leaf(old_area) => if j.Takes(sub, area, old_area) then {Slot(t.at, side)} else {}
      case Split(_, _, _, _) => TakenSlots(j, area, t.Child(side), sub)
  }

  /** Every slot taken is a leaf slot of the tree whose area may be taken. */
  lemma {:induction false} TakenAreLeaves(j: Job, area: int, t: Tree, cell: Box)
    requires j.Valid() && PlanesIn(t, |j.planes|) && Proper(t)
    ensures forall d :: d in TakenSlots(j, area, t, cell) ==>
      d.node in Indices(t) && Under(t, d).Leaf? && j.TakesFrom(Under(t, d).area)
  {
    match t
    case Leaf(_) =>
    case Split(_, plane, front, back) =>
      TakenAreLeaves(j, area, front, ClipCell(cell, j.planes[plane], true));
      TakenAreLeaves(j, area, back, ClipCell(cell, j.planes[plane], false));
  }

  function Areas(t: Tree): set<int> {
    match t
    case Leaf(area) => {area}
    case Split(_, _, front, back) => Areas(front) + Areas(back)
  }

  /** A dry run looks for area 0. It takes exactly the slots that a carve of an
      area the tree does not hold yet takes. */
  lemma {:induction false} DryTakesWhatFreshTakes(j: Job, newArea: int, t: Tree, cell: Box)
    requires j.Valid() && PlanesIn(t, |j.planes|) && newArea !in Areas(t)
    ensures TakenSlots(j, newArea, t, cell) == TakenSlots(j, 0, t, cell)
  {
    match t
    case Leaf(_) =>
    case Split(_, plane, front, back) =>
      DryTakesWhatFreshTakes(j, newArea, front, ClipCell(cell, j.planes[plane], true));
      DryTakesWhatFreshTakes(j, newArea, back, ClipCell(cell, j.planes[plane], false));
      assert front.Leaf? ==> front.area in Areas(t);
      assert back.Leaf? ==> back.area in Areas(t);
      assert TakenBelow(j, newArea, t, true, cell) == TakenBelow(j, 0, t, true, cell);
      assert TakenBelow(j, newArea, t, false, cell) == TakenBelow(j, 0, t, false, cell);
  }

  /** Nothing the surface claims is missed: a point of the search box on ground
      that may be taken passes a taken slot, unless it already has the area. */
  lemma {:induction false} ClaimedGroundIsTaken(j: Job, area: int, t: Tree, cell: Box, q: Point) returns (d: Slot)
    requires j.Valid() && PlanesIn(t, |j.planes|) && Proper(t) && t.Split?
    requires cell.Contains(q) && j.box.Contains(q) && j.Claims(q)
    requires j.TakesFrom(Area(t, SignsOf(j.planes, q)))
    requires Area(t, SignsOf(j.planes, q)) != area
    ensures d in TakenSlots(j, area, t, cell) && Passes(t, d, SignsOf(j.planes, q))
    decreases t
  {
    var s := SignsOf(j.planes, q);
    var p := j.planes[t.plane];
    var side := Side(s, t.plane);
    BoxSideMeans(j.box, p, PRUNE_EPS, q);
    ClipKeeps(cell, p, side, q);
    var sub := ClipCell(cell, p, side);
    var child := t.Child(side);
    if child.Leaf? {
      d := Slot(t.at, side);
      if j.Outside(sub) {
        var k :| 0 <= k < |j.splits| && BoxSide(sub, j.planes[j.splits[k]], 0.0) == -1;
        BoxSideMeans(sub, j.planes[j.splits[k]], 0.0, q);
        assert false;
      }
      assert d in TakenBelow(j, area, t, side, cell);
    } else {
      d := ClaimedGroundIsTaken(j, area, child, sub, q);
      TakenAreLeaves(j, area, child, sub);
      assert d in TakenBelow(j, area, t, side, cell);
    }
  }

  // ---- chains ----

  /** A cell in which every plane of keep has been tested still needs no other
      test: the dropped planes are ones the whole cell is in front of. */
  ghost predicate Suffices(j: Job, keep: seq<nat>, cell: Box)
    requires j.Valid()
  {
    && (forall k :: k in keep ==> k < |j.splits|)
    && forall q: Point :: cell.Contains(q) ==>
         (j.Claims(q) <==> forall k :: k in keep ==> InFront(j.planes[j.splits[k]], q))
  }

  /** The tests a leaf slot in this cell still needs. */
  method KeptTests(j: Job, cell: Box) returns (keep: seq<nat>, outside: bool)
    requires j.Valid()
    ensures outside == j.Outside(cell)
    ensures !outside ==> Suffices(j, keep, cell) && |keep| <= |j.splits|
    ensures !outside ==> (keep == [] <==> j.Inside(cell))
  {
    keep, outside := [], false;
    var k := 0;
    while k < |j.splits|
      invariant 0 <= k <= |j.splits| && |keep| <= k
      invariant !outside
      invariant forall i :: i in keep ==> i < k && BoxSide(cell, j.planes[j.splits[i]], 0.0) == 0
      invariant forall i :: 0 <= i < k ==> BoxSide(cell, j.planes[j.splits[i]], 0.0) == 1 || i in keep
    {
      var side := BoxSide(cell, j.planes[j.splits[k]], 0.0);
      if side == -1 {
        outside := true;
        return;
      }
      if side != 1 {
        keep := keep + [k];
      }
      k := k + 1;
    }
    forall q: Point | cell.Contains(q) && forall k :: k in keep ==> InFront(j.planes[j.splits[k]], q)
      ensures j.Claims(q)
    {
      forall i | 0 <= i < |j.splits| ensures InFront(j.planes[j.splits[i]], q) {
        BoxSideMeans(cell, j.planes[j.splits[i]], 0.0, q);
      }
    }
    if keep != [] {
      assert keep[0] in keep;
    }
  }

  predicate AllFront(j: Job, keep: seq<nat>, s: Signs)
    requires j.Valid() && forall k :: k in keep ==> k < |j.splits|
  {
    forall k :: k in keep ==> Side(s, j.splits[k])
  }

  /** u is a chain of fresh records that answers area in front of every kept
      plane and the old leaf elsewhere. */
  ghost predicate IsChain(j: Job, keep: seq<nat>, area: int, child: int, u: Tree, from_index: nat)
    requires j.Valid() && forall k :: k in keep ==> k < |j.splits|
  {
    && Proper(u) && Depth(u) <= |keep|
    && (forall i :: i in Indices(u) ==> i >= from_index)
    && forall s: Signs :: |s| == |j.planes| ==> Area(u, s) == if AllFront(j, keep, s) then area else -child
  }

  lemma ChainOnto(j: Job, rest: seq<nat>, area: int, child: int, u: Tree, start: nat, node: nat, split: nat)
    requires j.Valid() && (forall k :: k in rest ==> k < |j.splits|) && split < |j.splits| && child <= 0
    requires IsChain(j, rest, area, child, u, start) && node >= start && node !in Indices(u)
    ensures forall k :: k in [split] + rest ==> k < |j.splits|
    ensures IsChain(j, [split] + rest, area, child, Split(node, j.splits[split], u, Leaf(-child)), start)
  {
    var longer := Split(node, j.splits[split], u, Leaf(-child));
    forall s: Signs | |s| == |j.planes|
      ensures Area(longer, s) == if AllFront(j, [split] + rest, s) then area else -child
    {
      FrontOfMore(j, split, rest, s);
      LongerArea(node, j.splits[split], u, -child, s);
      hide AllFront, Side, Area;
    }
    LongerIs(node, j.splits[split], u, Leaf(-child));
    hide Proper, Indices, Depth, Area, AllFront;
  }

  lemma LongerIs(node: nat, plane: nat, u: Tree, last: Tree)
    requires Proper(u) && node !in Indices(u) && last.Leaf?
    ensures var longer := Split(node, plane, u, last);
            && Proper(longer) && Depth(longer) == 1 + Depth(u)
            && forall i :: i in Indices(longer) ==> i == node || i in Indices(u)
  {
    assert Depth(last) == 0 && Indices(last) == {} && Proper(last);
  }

  lemma LongerArea(node: nat, plane: nat, u: Tree, last: int, s: Signs)
    ensures Area(Split(node, plane, u, Leaf(last)), s) == if Side(s, plane) then Area(u, s) else last
  {
  }

  lemma FrontOfMore(j: Job, split: nat, rest: seq<nat>, s: Signs)
    requires j.Valid() && (forall k :: k in rest ==> k < |j.splits|) && split < |j.splits|
    ensures forall k :: k in [split] + rest ==> k < |j.splits|
    ensures AllFront(j, [split] + rest, s) <==> Side(s, j.splits[split]) && AllFront(j, rest, s)
  {
    assert split in [split] + rest;
    assert forall k :: k in rest ==> k in [split] + rest;
  }

  /**
   * The chain of nodes spells the kept tests, ending in the new area and falling back to the old leaf; it fails only
   * when the lump is full.
   */
  method BuildChain(m: AasTree, j: Job, keep: seq<nat>, area: nat, child: int) returns (head: int, ok: bool, ghost u: Tree)
    requires j.Valid() && j.planes == m.planes && child <= 0 && |m.nodes| > 0
    requires forall k :: k in keep ==> k < |j.splits|
    modifies m`nodes
    ensures old(m.nodes) <= m.nodes
    ensures ok ==> Spells(m.nodes, |m.planes|, head, u) && IsChain(j, keep, area, child, u, |old(m.nodes)|)
    ensures !ok ==> |m.nodes| >= m.nodeRoom
    ensures j.Marks() ==> Flagged(m.nodes, m.planes, |old(m.nodes)|)
  {
    ghost var start := m.nodes;
    FlaggedNone(m.nodes, m.planes);
    hide Flagged;
    head, ok, u := 0 - area, true, Leaf(area);
    var k := |keep|;
    while k > 0
      invariant 0 <= k <= |keep|
      invariant start <= m.nodes && Spells(m.nodes, |m.planes|, head, u)
      invariant forall x :: x in keep[k..] ==> x in keep
      invariant IsChain(j, keep[k..], area, child, u, |start|)
      invariant j.Marks() ==> Flagged(m.nodes, m.planes, |start|)
    {
      k := k - 1;
      var split := keep[k];
      assert split in keep && keep[k..] == [split] + keep[k + 1..];
      ghost var before := m.nodes;
      SpellsIndices(before, |m.planes|, head, u);
      var node := m.AppendNode(j.splits[split], j.field4[split], head, child);
      if node == 0 {
        ok := false;
        return;
      }
      if j.Marks() {
        FlaggedAppend(before, m.planes, |start|, m.nodes[node]);
      }
      SpellsFrame(before, |m.planes|, head, u, m.nodes, |m.planes|);
      ghost var longer := Split(node, j.splits[split], u, Leaf(-child));
      ChainOnto(j, keep[k + 1..], area, child, u, |start|, node, split);
      head, u := node, longer;
    }
    assert keep[0..] == keep;
  }

  // ---- where a node sits in the tree ----

  function SubAt(t: Tree, n: int): Tree
    requires n in Indices(t)
  {
    if n == t.at then t else if n in Indices(t.front) then SubAt(t.front, n) else SubAt(t.back, n)
  }

  predicate Reaches(t: Tree, n: int, s: Signs) {
    match t
    case Leaf(_) => false
    case Split(at, plane, front, back) =>
      n == at || (if Side(s, plane) then Reaches(front, n, s) else Reaches(back, n, s))
  }

  lemma {:induction false} ReachesNowhere(t: Tree, n: int, s: Signs)
    requires n !in Indices(t)
    ensures !Reaches(t, n, s)
  {
    match t
    case Leaf(_) =>
    case Split(_, _, front, back) =>
      ReachesNowhere(front, n, s);
      ReachesNowhere(back, n, s);
  }

  lemma {:induction false} SubAtFacts(t: Tree, n: int, side: bool)
    requires Proper(t) && n in Indices(t)
    ensures SubAt(t, n).Split? && SubAt(t, n).at == n && Proper(SubAt(t, n))
    ensures Indices(SubAt(t, n)) <= Indices(t)
    ensures Under(t, Slot(n, side)) == SubAt(t, n).Child(side)
    ensures SubAt(t, n).Child(side).Split? ==>
      SubAt(t, n).Child(side).at in Indices(t)
      && SubAt(t, SubAt(t, n).Child(side).at) == SubAt(t, n).Child(side)
    decreases t
  {
    if n == t.at {
    } else if n in Indices(t.front) {
      SubAtFacts(t.front, n, side);
    } else {
      SubAtFacts(t.back, n, side);
    }
  }

  lemma {:induction false} ReachesFacts(t: Tree, n: int, side: bool, s: Signs)
    requires Proper(t) && n in Indices(t)
    ensures SubAt(t, n).Split?
    ensures Passes(t, Slot(n, side), s) <==> Reaches(t, n, s) && Side(s, SubAt(t, n).plane) == side
    ensures SubAt(t, n).Child(side).Split? && Reaches(t, SubAt(t, n).Child(side).at, s) ==>
      Reaches(t, n, s) && Side(s, SubAt(t, n).plane) == side
    decreases t
  {
    SubAtFacts(t, n, side);
    var child := SubAt(t, n).Child(side);
    if n == t.at {
      if child.Split? && Side(s, t.plane) != side {
        ReachesNowhere(t.Child(!side), child.at, s);
      }
    } else {
      var down := n in Indices(t.front);
      var here, there := t.Child(down), t.Child(!down);
      SubAtFacts(here, n, side);
      ReachesFacts(here, n, side, s);
      ReachesNowhere(there, n, s);
      PassesNowhere(there, Slot(n, side), s);
      if child.Split? {
        ReachesNowhere(there, child.at, s);
      }
    }
  }

  /** A point ends in one leaf slot only. */
  lemma {:induction false} OneLeafSlot(t: Tree, d: Slot, e: Slot, s: Signs)
    requires Proper(t) && Passes(t, d, s) && Passes(t, e, s)
    requires d.node in Indices(t) && e.node in Indices(t)
    requires Under(t, d).Leaf? && Under(t, e).Leaf?
    ensures d == e
    decreases t
  {
    var child := t.Child(Side(s, t.plane));
    var other := t.Child(!Side(s, t.plane));
    if d.node != t.at && e.node != t.at {
      PassesArea(child, d, s);
      PassesArea(child, e, s);
      OneLeafSlot(child, d, e, s);
    } else if d.node == t.at && e.node != t.at {
      PassesArea(child, e, s);
    } else if e.node == t.at && d.node != t.at {
      PassesArea(child, d, s);
    }
  }

  // ---- a tree whose leaves have been grown ----

  /** cur is t with some leaves exchanged for trees of records from base on,
      none deeper than extra. */
  ghost predicate Grown(t: Tree, cur: Tree, extra: nat, base: nat) {
    match t
    case Leaf(_) => Depth(cur) <= extra && forall i :: i in Indices(cur) ==> i >= base
    case Split(at, plane, front, back) =>
      && cur.Split? && cur.at == at && cur.plane == plane
      && Grown(front, cur.front, extra, base) && Grown(back, cur.back, extra, base)
  }

  lemma {:induction false} GrownStart(t: Tree, extra: nat, base: nat)
    ensures Grown(t, t, extra, base)
  {
    match t
    case Leaf(_) =>
    case Split(_, _, front, back) =>
      GrownStart(front, extra, base);
      GrownStart(back, extra, base);
  }

  lemma {:induction false} GrownFacts(t: Tree, cur: Tree, extra: nat, base: nat)
    requires Grown(t, cur, extra, base)
    ensures Depth(cur) <= Depth(t) + extra
    ensures Indices(t) <= Indices(cur)
  {
    match t
    case Leaf(_) =>
    case Split(_, _, front, back) =>
      GrownFacts(front, cur.front, extra, base);
      GrownFacts(back, cur.back, extra, base);
  }

  lemma {:induction false} GrownPasses(t: Tree, cur: Tree, extra: nat, base: nat, d: Slot, s: Signs)
    requires Grown(t, cur, extra, base) && d.node < base
    ensures Passes(cur, d, s) == Passes(t, d, s)
  {
    match t
    case Leaf(_) => PassesNowhere(cur, d, s);
    case Split(_, _, front, back) =>
      GrownPasses(front, cur.front, extra, base, d, s);
      GrownPasses(back, cur.back, extra, base, d, s);
  }

  lemma {:induction false} GrownReplace(t: Tree, cur: Tree, extra: nat, base: nat, d: Slot, u: Tree)
    requires Grown(t, cur, extra, base) && Proper(t)
    requires d.node in Indices(t) && d.node < base && Under(t, d).Leaf?
    requires Depth(u) <= extra && forall i :: i in Indices(u) ==> i >= base
    ensures Grown(t, Replace(cur, d, u), extra, base)
    decreases t
  {
    if d.node != t.at {
      var down := d.node in Indices(t.front);
      var there := t.Child(!down);
      GrownReplace(t.Child(down), cur.Child(down), extra, base, d, u);
      GrownElsewhere(there, cur.Child(!down), extra, base, d, u);
    }
  }

  lemma {:induction false} GrownElsewhere(t: Tree, cur: Tree, extra: nat, base: nat, d: Slot, u: Tree)
    requires Grown(t, cur, extra, base) && d.node !in Indices(t) && d.node < base
    ensures Replace(cur, d, u) == cur
  {
    match t
    case Leaf(_) => ReplaceElsewhere(cur, d, u);
    case Split(_, _, front, back) =>
      GrownElsewhere(front, cur.front, extra, base, d, u);
      GrownElsewhere(back, cur.back, extra, base, d, u);
  }

  // ---- the state of a carve ----

  /** What lookup answers for q once the slots of done have been taken. */
  ghost predicate Settled(j: Job, area: int, t: Tree, cur: Tree, done: set<Slot>, q: Point)
    requires j.Valid()
  {
    var s := SignsOf(j.planes, q);
    Area(cur, s) == if (exists d :: d in done && Passes(t, d, s)) && j.Claims(q) then area else Area(t, s)
  }

  ghost predicate CarvedSoFar(j: Job, area: int, t: Tree, nodes: seq<Node>, root: int, base: nat, cur: Tree, done: set<Slot>)
  {
    && j.Valid() && base <= |nodes|
    && Proper(t) && (forall i :: i in Indices(t) ==> i < base)
    && Spells(nodes, |j.planes|, root, cur) && Proper(cur) && Grown(t, cur, |j.splits|, base)
    && (forall d :: d in done ==> d.node in Indices(t) && Under(t, d).Leaf? && j.TakesFrom(Under(t, d).area))
    && forall q: Point :: WORLD.Contains(q) ==> Settled(j, area, t, cur, done, q)
  }

  /** Taking one more leaf slot: the record at d now points at the chain u. */
  lemma TakeSlot(j: Job, area: int, t: Tree, nodes: seq<Node>, root: int, base: nat, cur: Tree, done: set<Slot>,
                 d: Slot, cell: Box, keep: seq<nat>, u: Tree, longer: seq<Node>, head: int, nodes': seq<Node>)
    requires CarvedSoFar(j, area, t, nodes, root, base, cur, done)
    requires d !in done && d.node in Indices(t) && 0 < d.node < |nodes|
    requires Under(t, d).Leaf? && j.TakesFrom(Under(t, d).area)
    requires forall q: Point :: WORLD.Contains(q) && Passes(t, d, SignsOf(j.planes, q)) ==> cell.Contains(q)
    requires Suffices(j, keep, cell) && |keep| <= |j.splits|
    requires nodes <= longer && Spells(longer, |j.planes|, head, u)
    requires IsChain(j, keep, area, -Under(t, d).area, u, |nodes|)
    requires nodes' == longer[d.node := longer[d.node].WithChild(d.front, head)]
    ensures CarvedSoFar(j, area, t, nodes', root, base, Replace(cur, d, u), done + {d})
  {
    SpellsIndices(nodes, |j.planes|, root, cur);
    GrownFacts(t, cur, |j.splits|, base);
    SpellsFrame(longer, |j.planes|, head, u, nodes', |j.planes|);
    ReplaceSpells(nodes, |j.planes|, root, cur, d, nodes', head, u);
    assert Indices(u) !! Indices(cur) by {
      forall i | i in Indices(u) && i in Indices(cur) ensures false {}
    }
    ReplaceProper(cur, d, u);
    GrownReplace(t, cur, |j.splits|, base, d, u);
    forall q: Point | WORLD.Contains(q)
      ensures Settled(j, area, t, Replace(cur, d, u), done + {d}, q)
    {
      assert Settled(j, area, t, cur, done, q);
      GrownPasses(t, cur, |j.splits|, base, d, SignsOf(j.planes, q));
      SettleOne(j, area, t, cur, done, d, keep, u, q);
    }
  }

  lemma SettleOne(j: Job, area: int, t: Tree, cur: Tree, done: set<Slot>, d: Slot, keep: seq<nat>, u: Tree, q: Point)
    requires j.Valid() && Settled(j, area, t, cur, done, q)
    requires Proper(t) && Proper(cur) && d.node in Indices(cur)
    requires d !in done && d.node in Indices(t) && Under(t, d).Leaf?
    requires forall e :: e in done ==> e.node in Indices(t) && Under(t, e).Leaf?
    requires Passes(cur, d, SignsOf(j.planes, q)) == Passes(t, d, SignsOf(j.planes, q))
    requires forall k :: k in keep ==> k < |j.splits|
    requires forall s: Signs :: |s| == |j.planes| ==>
      Area(u, s) == if AllFront(j, keep, s) then area else Under(t, d).area
    requires Passes(t, d, SignsOf(j.planes, q)) ==>
      (j.Claims(q) <==> forall k :: k in keep ==> InFront(j.planes[j.splits[k]], q))
    ensures Settled(j, area, t, Replace(cur, d, u), done + {d}, q)
  {
    var s := SignsOf(j.planes, q);
    ReplaceArea(cur, d, u, s);
    if Passes(t, d, s) {
      PassesArea(t, d, s);
      assert d in done + {d};
      assert AllFront(j, keep, s) <==> j.Claims(q);
    } else if e :| e in done && Passes(t, e, s) {
      assert e in done + {d};
    }
  }

  // ---- the search ----

  datatype Frame = Frame(node: int, cell: Box)

  ghost predicate FrameOk(j: Job, t: Tree, nodes: seq<Node>, fr: Frame)
    requires j.Valid()
  {
    && Located(j, t, fr)
    && Spells(nodes, |j.planes|, fr.node, SubAt(t, fr.node))
  }

  /** The frame's cell holds every point that reaches its node. */
  ghost predicate Located(j: Job, t: Tree, fr: Frame)
    requires j.Valid()
  {
    && fr.node in Indices(t)
    && forall q: Point :: WORLD.Contains(q) && Reaches(t, fr.node, SignsOf(j.planes, q)) ==> fr.cell.Contains(q)
  }

  /** One child field of a node's record still holds the original subtree. */
  ghost predicate HoldsSide(j: Job, t: Tree, nodes: seq<Node>, n: int, side: bool)
    requires n in Indices(t)
  {
    var u := SubAt(t, n);
    && u.Split? && u.at == n && 0 < n < |nodes| && nodes[n].plane == u.plane && 0 <= u.plane < |j.planes|
    && Spells(nodes, |j.planes|, nodes[n].Child(side), u.Child(side))
  }

  /** Frames still to visit: apart from each other and from what is done. */
  ghost predicate StackOk(j: Job, t: Tree, nodes: seq<Node>, stack: seq<Frame>, done: set<Slot>)
    requires j.Valid()
  {
    && (forall i :: 0 <= i < |stack| ==> FrameOk(j, t, nodes, stack[i]))
    && (forall i, k :: 0 <= i < k < |stack| ==>
          Indices(SubAt(t, stack[i].node)) !! Indices(SubAt(t, stack[k].node)))
    && (forall i, d :: 0 <= i < |stack| && d in done ==> d.node !in Indices(SubAt(t, stack[i].node)))
  }

  /** Nothing on the stack touches the records of u. */
  ghost predicate Clear(t: Tree, stack: seq<Frame>, u: Tree) {
    forall i :: 0 <= i < |stack| ==>
      stack[i].node in Indices(t) && Indices(SubAt(t, stack[i].node)) !! Indices(u)
  }

  ghost function ToTake(j: Job, area: int, t: Tree, stack: seq<Frame>): set<Slot>
    requires j.Valid() && PlanesIn(t, |j.planes|) && Proper(t)
    requires forall i :: 0 <= i < |stack| ==> stack[i].node in Indices(t)
  {
    if stack == [] then {}
    else
      var fr := stack[|stack| - 1];
      SubAtPlanes(t, fr.node, |j.planes|);
      ToTake(j, area, t, stack[..|stack| - 1]) + TakenSlots(j, area, SubAt(t, fr.node), fr.cell)
  }

  lemma {:induction false} SubAtPlanes(t: Tree, n: int, planes: nat)
    requires n in Indices(t) && PlanesIn(t, planes)
    ensures PlanesIn(SubAt(t, n), planes)
    decreases t
  {
    if n != t.at {
      SubAtPlanes(if n in Indices(t.front) then t.front else t.back, n, planes);
    }
  }

  /** The cell handed down holds every point that goes down. */
  lemma CellGoesDown(j: Job, t: Tree, nodes: seq<Node>, fr: Frame, side: bool)
    requires j.Valid() && Proper(t) && Located(j, t, fr) && HoldsSide(j, t, nodes, fr.node, side)
    ensures var sub := ClipCell(fr.cell, j.planes[SubAt(t, fr.node).plane], side);
            forall q: Point :: WORLD.Contains(q) && Passes(t, Slot(fr.node, side), SignsOf(j.planes, q)) ==> sub.Contains(q)
    ensures SubAt(t, fr.node).Child(side).Split? ==>
      && SubAt(t, fr.node).Child(side).at in Indices(t)
      && Spells(nodes, |j.planes|, SubAt(t, fr.node).Child(side).at, SubAt(t, fr.node).Child(side))
      && FrameOk(j, t, nodes, Frame(SubAt(t, fr.node).Child(side).at, ClipCell(fr.cell, j.planes[SubAt(t, fr.node).plane], side)))
  {
    SubAtFacts(t, fr.node, side);
    var u := SubAt(t, fr.node);
    var p := j.planes[u.plane];
    forall q: Point | WORLD.Contains(q)
      ensures Passes(t, Slot(fr.node, side), SignsOf(j.planes, q)) ==> ClipCell(fr.cell, p, side).Contains(q)
      ensures u.Child(side).Split? && Reaches(t, u.Child(side).at, SignsOf(j.planes, q)) ==>
        ClipCell(fr.cell, p, side).Contains(q)
    {
      var s := SignsOf(j.planes, q);
      ReachesFacts(t, fr.node, side, s);
      if Reaches(t, fr.node, s) && Side(s, u.plane) == side {
        ClipKeeps(fr.cell, p, side, q);
      }
    }
  }

  ghost function StackSize(t: Tree, stack: seq<Frame>): nat
    requires forall i :: 0 <= i < |stack| ==> stack[i].node in Indices(t)
  {
    if stack == [] then 0
    else StackSize(t, stack[..|stack| - 1]) + Size(SubAt(t, stack[|stack| - 1].node))
  }

  /** What VisitSide needs to know about the node, the stack and the slots taken. */
  ghost predicate Ready(j: Job, t: Tree, nodes: seq<Node>, fr: Frame, side: bool, stack: seq<Frame>, done: set<Slot>)
    requires j.Valid()
  {
    && Located(j, t, fr) && HoldsSide(j, t, nodes, fr.node, side) && StackOk(j, t, nodes, stack, done)
    && (forall i :: 0 <= i < |stack| ==> stack[i].node in Indices(t))
    && PlanesIn(SubAt(t, fr.node), |j.planes|)
    && Clear(t, stack, Split(fr.node, 0, Leaf(0), SubAt(t, fr.node).Child(side)))
    && Slot(fr.node, side) !in done
    && (forall d :: d in done ==> d.node !in Indices(SubAt(t, fr.node).Child(side)))
    && (forall d :: d in done ==> d.node in Indices(t) && Under(t, d).Leaf?)
  }

  /** The child was queued, or nothing was. */
  ghost predicate Queued(t: Tree, fr: Frame, side: bool, stack: seq<Frame>, stack': seq<Frame>)
    requires fr.node in Indices(t) && SubAt(t, fr.node).Split?
  {
    || stack' == stack
    || (var child := SubAt(t, fr.node).Child(side);
        child.Split? && child.at in Indices(t) && SubAt(t, child.at) == child
        && |stack'| == |stack| + 1 && stack'[..|stack|] == stack && stack'[|stack|].node == child.at)
  }

  lemma ReadyFirst(j: Job, t: Tree, nodes: seq<Node>, fr: Frame, stack: seq<Frame>, done: set<Slot>)
    requires j.Valid() && Proper(t) && PlanesIn(t, |j.planes|)
    requires StackOk(j, t, nodes, stack + [fr], done)
    requires forall d :: d in done ==> d.node in Indices(t) && Under(t, d).Leaf?
    ensures Ready(j, t, nodes, fr, true, stack, done)
    ensures HoldsSide(j, t, nodes, fr.node, false)
    ensures Clear(t, stack, SubAt(t, fr.node))
    ensures forall d :: d in done ==> d.node !in Indices(SubAt(t, fr.node))
  {
    var all := stack + [fr];
    assert all[|stack|] == fr;
    assert forall i :: 0 <= i < |stack| ==> all[i] == stack[i];
    SubAtFacts(t, fr.node, true);
    SubAtPlanes(t, fr.node, |j.planes|);
  }

  /** What visiting one side does to the records, the stack and the slots. */
  ghost predicate SideStep(j: Job, area: nat, t: Tree, nodes: seq<Node>, nodes': seq<Node>, fr: Frame, side: bool,
                           stack: seq<Frame>, stack': seq<Frame>, done: set<Slot>, done': set<Slot>, took: bool, ok: bool)
    requires j.Valid() && Proper(t) && PlanesIn(t, |j.planes|)
    requires Ready(j, t, nodes, fr, side, stack, done)
  {
    && |nodes'| >= |nodes|
    && (forall i :: 0 <= i < |nodes| && i != fr.node ==> nodes'[i] == nodes[i])
    && nodes'[fr.node].plane == nodes[fr.node].plane
    && nodes'[fr.node].Child(!side) == nodes[fr.node].Child(!side)
    && StackOk(j, t, nodes', stack', done') && Queued(t, fr, side, stack, stack')
    && (forall i :: 0 <= i < |stack'| ==> stack'[i].node in Indices(t))
    && done' == (if took then done + {Slot(fr.node, side)} else done)
    && (took ==> Slot(fr.node, side) in TakenBelow(j, area, SubAt(t, fr.node), side, fr.cell))
    && (forall d :: d in done' ==> d.node in Indices(t) && Under(t, d).Leaf?)
    && (ok ==> done' + ToTake(j, area, t, stack') ==
               done + ToTake(j, area, t, stack) + TakenBelow(j, area, SubAt(t, fr.node), side, fr.cell))
    && StackSize(t, stack') <= StackSize(t, stack) + Size(SubAt(t, fr.node).Child(side))
  }

  /** What visiting a node does: its slots move from the stack to done. */
  ghost predicate NodeStep(j: Job, area: nat, t: Tree, nodes': seq<Node>, fr: Frame,
                           stack: seq<Frame>, stack': seq<Frame>, done: set<Slot>, done': set<Slot>, taken: nat, ok: bool)
    requires j.Valid() && Proper(t) && PlanesIn(t, |j.planes|)
    requires forall i :: 0 <= i < |stack| ==> stack[i].node in Indices(t)
    requires fr.node in Indices(t)
  {
    && StackOk(j, t, nodes', stack', done')
    && (forall i :: 0 <= i < |stack'| ==> stack'[i].node in Indices(t))
    && (forall d :: d in done' ==> d.node in Indices(t) && Under(t, d).Leaf?)
    && |done'| == |done| + taken && done' <= done + ToTake(j, area, t, stack + [fr])
    && (ok ==> done' + ToTake(j, area, t, stack') == done + ToTake(j, area, t, stack + [fr]))
    && (ok ==> StackSize(t, stack') < StackSize(t, stack + [fr]))
  }

  lemma ReadySecond(j: Job, area: nat, t: Tree, nodes: seq<Node>, nodes': seq<Node>, fr: Frame, stack: seq<Frame>,
                    stack': seq<Frame>, done: set<Slot>, done': set<Slot>, took: bool, ok: bool)
    requires j.Valid() && Proper(t) && PlanesIn(t, |j.planes|)
    requires Ready(j, t, nodes, fr, true, stack, done) && HoldsSide(j, t, nodes, fr.node, false)
    requires Clear(t, stack, SubAt(t, fr.node))
    requires forall d :: d in done ==> d.node !in Indices(SubAt(t, fr.node))
    requires SideStep(j, area, t, nodes, nodes', fr, true, stack, stack', done, done', took, ok)
    ensures Ready(j, t, nodes', fr, false, stack', done')
  {
    var u := SubAt(t, fr.node);
    SubAtFacts(t, fr.node, false);
    SpellsFrame(nodes, |j.planes|, nodes[fr.node].child1, u.back, nodes', |j.planes|);
    forall i | 0 <= i < |stack'|
      ensures stack'[i].node in Indices(t)
      ensures Indices(SubAt(t, stack'[i].node)) !! {fr.node} + Indices(u.back)
    {
      assert FrameOk(j, t, nodes', stack'[i]);
      if i < |stack| {
        assert stack'[..|stack|][i] == stack[i];
      }
    }
  }

  lemma TwoSlots(done: set<Slot>, done1: set<Slot>, done2: set<Slot>, waiting: set<Slot>, x: set<Slot>, y: set<Slot>,
                 n: int, took1: bool, took2: bool, taken: nat)
    requires Slot(n, true) !in done && Slot(n, false) !in done1
    requires done1 == (if took1 then done + {Slot(n, true)} else done) && (took1 ==> Slot(n, true) in x)
    requires done2 == (if took2 then done1 + {Slot(n, false)} else done1) && (took2 ==> Slot(n, false) in y)
    requires taken == (if took1 then 1 else 0) + if took2 then 1 else 0
    ensures |done2| == |done| + taken && done2 <= done + (waiting + x + y)
  {
  }

  lemma Regroup(a: set<Slot>, b: set<Slot>, x: set<Slot>, a1: set<Slot>, b1: set<Slot>, y: set<Slot>, a2: set<Slot>, b2: set<Slot>)
    requires a1 + b1 == a + b + x && a2 + b2 == a1 + b1 + y
    ensures a2 + b2 == a + (b + x + y)
  {
  }

  lemma PushedWork(j: Job, area: nat, t: Tree, stack: seq<Frame>, fr: Frame)
    requires j.Valid() && Proper(t) && PlanesIn(t, |j.planes|)
    requires forall i :: 0 <= i < |stack| ==> stack[i].node in Indices(t)
    requires fr.node in Indices(t)
    ensures SubAt(t, fr.node).Split? && PlanesIn(SubAt(t, fr.node), |j.planes|)
    ensures ToTake(j, area, t, stack + [fr]) ==
            ToTake(j, area, t, stack) + TakenBelow(j, area, SubAt(t, fr.node), true, fr.cell)
            + TakenBelow(j, area, SubAt(t, fr.node), false, fr.cell)
    ensures StackSize(t, stack + [fr]) ==
            StackSize(t, stack) + 1 + Size(SubAt(t, fr.node).front) + Size(SubAt(t, fr.node).back)
  {
    assert (stack + [fr])[..|stack|] == stack;
    SubAtFacts(t, fr.node, true);
    SubAtPlanes(t, fr.node, |j.planes|);
  }

  lemma FirstSideFails(j: Job, area: nat, t: Tree, nodes: seq<Node>, nodes': seq<Node>, fr: Frame,
                       stack: seq<Frame>, stack': seq<Frame>, done: set<Slot>, done': set<Slot>, took: bool)
    requires j.Valid() && Proper(t) && PlanesIn(t, |j.planes|)
    requires Ready(j, t, nodes, fr, true, stack, done)
    requires SideStep(j, area, t, nodes, nodes', fr, true, stack, stack', done, done', took, false)
    ensures NodeStep(j, area, t, nodes', fr, stack, stack', done, done', if took then 1 else 0, false)
  {
    hide FrameOk, Clear, Under, ToTake, TakenBelow, TakenSlots, StackSize, StackOk, HoldsSide;
    PushedWork(j, area, t, stack, fr);
  }

  lemma BothSides(j: Job, area: nat, t: Tree, nodes: seq<Node>, nodes1: seq<Node>, nodes2: seq<Node>, fr: Frame,
                  stack: seq<Frame>, stack1: seq<Frame>, stack2: seq<Frame>,
                  done: set<Slot>, done1: set<Slot>, done2: set<Slot>, took1: bool, took2: bool, ok: bool, taken: nat)
    requires taken == (if took1 then 1 else 0) + if took2 then 1 else 0
    requires j.Valid() && Proper(t) && PlanesIn(t, |j.planes|)
    requires Ready(j, t, nodes, fr, true, stack, done)
    requires SideStep(j, area, t, nodes, nodes1, fr, true, stack, stack1, done, done1, took1, true)
    requires Ready(j, t, nodes1, fr, false, stack1, done1)
    requires SideStep(j, area, t, nodes1, nodes2, fr, false, stack1, stack2, done1, done2, took2, ok)
    ensures NodeStep(j, area, t, nodes2, fr, stack, stack2, done, done2, taken, ok)
  {
    hide FrameOk, Clear, Under, ToTake, TakenBelow, TakenSlots, StackSize, StackOk, HoldsSide, Queued, Proper, PlanesIn;
    PushedWork(j, area, t, stack, fr);
    var u := SubAt(t, fr.node);
    TwoSlots(done, done1, done2, ToTake(j, area, t, stack), TakenBelow(j, area, u, true, fr.cell),
             TakenBelow(j, area, u, false, fr.cell), fr.node, took1, took2, taken);
    if ok {
      Regroup(done, ToTake(j, area, t, stack), TakenBelow(j, area, u, true, fr.cell), done1, ToTake(j, area, t, stack1),
              TakenBelow(j, area, u, false, fr.cell), done2, ToTake(j, area, t, stack2));
    }
  }

  /** One side of one visited node: skip it, queue the child, or decide the
      leaf. `took` says whether the leaf was (or in a dry run would be) taken. */
  method VisitSide(m: AasTree, j: Job, area: nat, dry: bool, fr: Frame, side: bool, stack: seq<Frame>,
                   ghost t: Tree, ghost base: nat, ghost cur: Tree, ghost done: set<Slot>)
    returns (stack': seq<Frame>, took: bool, ok: bool, ghost cur': Tree, ghost done': set<Slot>)
    requires j.Valid() && m.planes == j.planes && Proper(t) && PlanesIn(t, |j.planes|)
    requires Ready(j, t, m.nodes, fr, side, stack, done)
    requires !dry ==> CarvedSoFar(j, area, t, m.nodes, m.root, base, cur, done)
    modifies m`nodes
    ensures dry ==> m.nodes == old(m.nodes) && ok
    ensures SideStep(j, area, t, old(m.nodes), m.nodes, fr, side, stack, stack', done, done', took, ok)
    ensures j.Marks() && Flagged(old(m.nodes), m.planes, base) ==> Flagged(m.nodes, m.planes, base)
    ensures !ok ==> |m.nodes| >= m.nodeRoom
    ensures !dry ==> CarvedSoFar(j, area, t, m.nodes, m.root, base, cur', done')
  {
    hide SideStep, CarvedSoFar, StackOk, FrameOk, Flagged, Job.Marks;
    stack', took, ok, cur', done' := stack, false, true, cur, done;
    ghost var nodes := m.nodes;
    ghost var d := Slot(fr.node, side);
    CellGoesDown(j, t, m.nodes, fr, side);
    SubAtFacts(t, fr.node, side);
    var p := j.planes[m.nodes[fr.node].plane];
    var sub := ClipCell(fr.cell, p, side);
    var child := m.nodes[fr.node].Child(side);
    if j.Prunes(p, side) {
      SideSkips(j, area, t, nodes, fr, side, stack, done);
      return;
    }
    if child > 0 {
      stack' := stack + [Frame(child, sub)];
      SideQueues(j, area, t, nodes, fr, side, stack, done, stack');
      return;
    }
    if !j.TakesFrom(-child) {
      SideSkips(j, area, t, nodes, fr, side, stack, done);
      return;
    }
    var keep, outside := KeptTests(j, sub);
    if outside || (keep == [] && child == 0 - area) {
      SideSkips(j, area, t, nodes, fr, side, stack, done);
      return;
    }
    if dry {
      took, done' := true, done + {d};
      SideTakes(j, area, t, nodes, nodes, fr, side, stack, done, true);
      return;
    }
    var head, built, chain := BuildChain(m, j, keep, area, child);
    ghost var longer := m.nodes;
    if j.Marks() && Flagged(nodes, m.planes, base) {
      FlaggedBehind(nodes, longer, m.planes, base);
      FlaggedWrite(longer, m.planes, base, fr.node, side, head);
    }
    if !built {
      ok := false;
      CarvedFrame(j, area, t, nodes, m.root, base, cur, done, m.nodes);
      SideTakes(j, area, t, nodes, m.nodes, fr, side, stack, done, false);
      return;
    }
    m.WriteChild(fr.node, side, head);
    TakeSlot(j, area, t, nodes, m.root, base, cur, done, d, sub, keep, chain, longer, head, m.nodes);
    took, cur', done' := true, Replace(cur, d, chain), done + {d};
    SideTakes(j, area, t, nodes, m.nodes, fr, side, stack, done, true);
  }

  lemma CarvedFrame(j: Job, area: int, t: Tree, nodes: seq<Node>, root: int, base: nat, cur: Tree, done: set<Slot>,
                    nodes': seq<Node>)
    requires CarvedSoFar(j, area, t, nodes, root, base, cur, done) && nodes <= nodes'
    ensures CarvedSoFar(j, area, t, nodes', root, base, cur, done)
  {
    SpellsFrame(nodes, |j.planes|, root, cur, nodes', |j.planes|);
  }

  lemma SideSkips(j: Job, area: nat, t: Tree, nodes: seq<Node>, fr: Frame, side: bool, stack: seq<Frame>, done: set<Slot>)
    requires j.Valid() && Proper(t) && PlanesIn(t, |j.planes|)
    requires Ready(j, t, nodes, fr, side, stack, done)
    requires TakenBelow(j, area, SubAt(t, fr.node), side, fr.cell) == {}
    ensures SideStep(j, area, t, nodes, nodes, fr, side, stack, stack, done, done, false, true)
  {
  }

  lemma SideQueues(j: Job, area: nat, t: Tree, nodes: seq<Node>, fr: Frame, side: bool, stack: seq<Frame>, done: set<Slot>,
                   stack': seq<Frame>)
    requires j.Valid() && Proper(t) && PlanesIn(t, |j.planes|)
    requires Ready(j, t, nodes, fr, side, stack, done)
    requires !j.Prunes(j.planes[SubAt(t, fr.node).plane], side) && SubAt(t, fr.node).Child(side).Split?
    requires stack' == stack + [Frame(SubAt(t, fr.node).Child(side).at,
                                      ClipCell(fr.cell, j.planes[SubAt(t, fr.node).plane], side))]
    ensures SideStep(j, area, t, nodes, nodes, fr, side, stack, stack', done, done, false, true)
  {
    CellGoesDown(j, t, nodes, fr, side);
    SubAtFacts(t, fr.node, side);
    assert stack'[..|stack|] == stack;
  }

  lemma SideTakes(j: Job, area: nat, t: Tree, nodes: seq<Node>, nodes': seq<Node>, fr: Frame, side: bool,
                  stack: seq<Frame>, done: set<Slot>, ok: bool)
    requires j.Valid() && Proper(t) && PlanesIn(t, |j.planes|)
    requires Ready(j, t, nodes, fr, side, stack, done)
    requires SubAt(t, fr.node).Child(side).Leaf?
    requires TakenBelow(j, area, SubAt(t, fr.node), side, fr.cell) == {Slot(fr.node, side)}
    requires |nodes'| >= |nodes| && forall i :: 0 <= i < |nodes| && i != fr.node ==> nodes'[i] == nodes[i]
    requires nodes'[fr.node].plane == nodes[fr.node].plane
    requires nodes'[fr.node].Child(!side) == nodes[fr.node].Child(!side)
    ensures SideStep(j, area, t, nodes, nodes', fr, side, stack, stack, done,
                     if ok then done + {Slot(fr.node, side)} else done, ok, ok)
  {
    SubAtFacts(t, fr.node, side);
    KeepStack(j, t, nodes, nodes', fr.node, stack, done, if ok then done + {Slot(fr.node, side)} else done);
  }

  /** Records outside the pending subtrees may change. */
  lemma KeepStack(j: Job, t: Tree, nodes: seq<Node>, nodes': seq<Node>, n: int, stack: seq<Frame>,
                  done: set<Slot>, done': set<Slot>)
    requires j.Valid() && StackOk(j, t, nodes, stack, done)
    requires |nodes| <= |nodes'| && forall i :: 0 <= i < |nodes| && i != n ==> nodes'[i] == nodes[i]
    requires forall i :: 0 <= i < |stack| ==> n !in Indices(SubAt(t, stack[i].node))
    requires forall d :: d in done' ==> d in done || d.node == n
    ensures StackOk(j, t, nodes', stack, done')
  {
    forall i | 0 <= i < |stack| ensures FrameOk(j, t, nodes', stack[i]) {
      assert FrameOk(j, t, nodes, stack[i]);
      SpellsFrame(nodes, |j.planes|, stack[i].node, SubAt(t, stack[i].node), nodes', |j.planes|);
    }
  }

  /** Both sides of one visited node. */
  method VisitNode(m: AasTree, j: Job, area: nat, dry: bool, fr: Frame, stack: seq<Frame>,
                   ghost t: Tree, ghost base: nat, ghost cur: Tree, ghost done: set<Slot>)
    returns (stack': seq<Frame>, taken: nat, ok: bool, ghost cur': Tree, ghost done': set<Slot>)
    requires j.Valid() && m.planes == j.planes && Proper(t) && PlanesIn(t, |j.planes|)
    requires StackOk(j, t, m.nodes, stack + [fr], done)
    requires forall i :: 0 <= i < |stack| ==> stack[i].node in Indices(t)
    requires fr.node in Indices(t)
    requires forall d :: d in done ==> d.node in Indices(t) && Under(t, d).Leaf?
    requires !dry ==> CarvedSoFar(j, area, t, m.nodes, m.root, base, cur, done)
    modifies m`nodes
    ensures dry ==> m.nodes == old(m.nodes) && ok
    ensures !ok ==> |m.nodes| >= m.nodeRoom
    ensures NodeStep(j, area, t, m.nodes, fr, stack, stack', done, done', taken, ok)
    ensures j.Marks() && Flagged(old(m.nodes), m.planes, base) ==> Flagged(m.nodes, m.planes, base)
    ensures !dry ==> CarvedSoFar(j, area, t, m.nodes, m.root, base, cur', done')
  {
    hide CarvedSoFar, SideStep, NodeStep, Ready, StackOk, FrameOk, HoldsSide, Flagged, Job.Marks;
    ReadyFirst(j, t, m.nodes, fr, stack, done);
    ghost var nodes := m.nodes;
    var took;
    stack', took, ok, cur', done' := VisitSide(m, j, area, dry, fr, true, stack, t, base, cur, done);
    taken := if took then 1 else 0;
    if !ok {
      FirstSideFails(j, area, t, nodes, m.nodes, fr, stack, stack', done, done', took);
      return;
    }
    ReadySecond(j, area, t, nodes, m.nodes, fr, stack, stack', done, done', took, ok);
    ghost var nodes1, stack1, done1, took1 := m.nodes, stack', done', took;
    stack', took, ok, cur', done' := VisitSide(m, j, area, dry, fr, false, stack', t, base, cur', done');
    taken := taken + if took then 1 else 0;
    BothSides(j, area, t, nodes, nodes1, m.nodes, fr, stack, stack1, stack', done, done1, done', took1, took, ok, taken);
  }

  /** The worklist's invariant, apart from what lookup answers. */
  ghost predicate Searching(j: Job, area: nat, t: Tree, nodes: seq<Node>, stack: seq<Frame>, done: set<Slot>, carved: nat, ok: bool)
  {
    && j.Valid() && PlanesIn(t, |j.planes|) && Proper(t)
    && (forall i :: 0 <= i < |stack| ==> stack[i].node in Indices(t))
    && StackOk(j, t, nodes, stack, done) && carved == |done|
    && (forall d :: d in done ==> d.node in Indices(t) && Under(t, d).Leaf?)
    && (ok ==> done + ToTake(j, area, t, stack) == TakenSlots(j, area, t, WORLD))
    && done <= TakenSlots(j, area, t, WORLD)
  }

  lemma SearchStarts(j: Job, area: nat, t: Tree, nodes: seq<Node>, root: int)
    requires j.Valid() && PlanesIn(t, |j.planes|) && Proper(t) && Spells(nodes, |j.planes|, root, t) && root > 0
    ensures Searching(j, area, t, nodes, [Frame(root, WORLD)], {}, 0, true) && root in Indices(t)
  {
    assert [Frame(root, WORLD)][..0] == [];
  }

  lemma SearchGoesOn(j: Job, area: nat, t: Tree, nodes: seq<Node>, nodes': seq<Node>, stack: seq<Frame>, stack': seq<Frame>,
                     done: set<Slot>, done': set<Slot>, carved: nat, taken: nat, ok: bool)
    requires Searching(j, area, t, nodes, stack, done, carved, true) && stack != []
    requires NodeStep(j, area, t, nodes', stack[|stack| - 1], stack[..|stack| - 1], stack', done, done', taken, ok)
    ensures Searching(j, area, t, nodes', stack', done', carved + taken, ok)
    ensures forall i :: 0 <= i < |stack'| ==> stack'[i].node in Indices(t)
    ensures ok ==> StackSize(t, stack') < StackSize(t, stack)
  {
    assert stack[..|stack| - 1] + [stack[|stack| - 1]] == stack;
  }

  /** The worklist over the tree. Without running out of room it takes exactly
      TakenSlots; a dry run takes nothing and counts the same slots. */
  method Search(m: AasTree, j: Job, area: nat, dry: bool, ghost t: Tree)
    returns (carved: nat, ghost complete: bool, ghost cur: Tree, ghost done: set<Slot>)
    requires j.Valid() && m.planes == j.planes && PlanesIn(t, |j.planes|)
    requires m.Holds(t) && m.root > 0
    modifies m`nodes
    ensures dry ==> m.nodes == old(m.nodes) && complete
    ensures carved == |done|
    ensures !complete ==> |m.nodes| >= m.nodeRoom
    ensures done <= TakenSlots(j, area, t, WORLD) && (complete ==> done == TakenSlots(j, area, t, WORLD))
    ensures !dry ==> CarvedSoFar(j, area, t, m.nodes, m.root, |old(m.nodes)|, cur, done)
    ensures j.Marks() ==> Flagged(m.nodes, m.planes, |old(m.nodes)|)
  {
    hide *;
    ghost var base := |m.nodes|;
    FlaggedNone(m.nodes, m.planes);
    carved, cur, done := 0, t, {};
    var ok := true;
    var stack := [Frame(m.root, WORLD)];
    HoldsMeans(m, t);
    CarveStarts(j, area, t, m.nodes, m.root);
    SearchStarts(j, area, t, m.nodes, m.root);
    while |stack| > 0 && ok
      invariant dry ==> m.nodes == old(m.nodes) && ok
      invariant !ok ==> |m.nodes| >= m.nodeRoom
      invariant Searching(j, area, t, m.nodes, stack, done, carved, ok)
      invariant forall i :: 0 <= i < |stack| ==> stack[i].node in Indices(t)
      invariant !dry ==> CarvedSoFar(j, area, t, m.nodes, m.root, base, cur, done)
      invariant j.Marks() ==> Flagged(m.nodes, m.planes, base)
      decreases ok, StackSize(t, stack)
    {
      ghost var nodes, done0, stack0 := m.nodes, done, stack;
      var last := |stack| - 1;
      var fr := stack[last];
      SearchPops(j, area, t, m.nodes, stack, done, carved);
      var taken;
      stack, taken, ok, cur, done := VisitNode(m, j, area, dry, fr, stack[..last], t, base, cur, done);
      SearchGoesOn(j, area, t, nodes, m.nodes, stack0, stack, done0, done, carved, taken, ok);
      carved := carved + taken;
    }
    complete := ok;
    SearchEnds(j, area, t, m.nodes, stack, done, carved, ok);
  }

  lemma HoldsMeans(m: AasTree, t: Tree)
    requires m.Holds(t)
    ensures Spells(m.nodes, |m.planes|, m.root, t) && Proper(t)
  {
  }

  lemma CarveStarts(j: Job, area: int, t: Tree, nodes: seq<Node>, root: int)
    requires j.Valid() && Spells(nodes, |j.planes|, root, t) && Proper(t)
    ensures CarvedSoFar(j, area, t, nodes, root, |nodes|, t, {})
  {
    SpellsIndices(nodes, |j.planes|, root, t);
    GrownStart(t, |j.splits|, |nodes|);
  }

  lemma SearchPops(j: Job, area: nat, t: Tree, nodes: seq<Node>, stack: seq<Frame>, done: set<Slot>, carved: nat)
    requires Searching(j, area, t, nodes, stack, done, carved, true) && stack != []
    ensures j.Valid() && Proper(t) && PlanesIn(t, |j.planes|)
    ensures StackOk(j, t, nodes, stack[..|stack| - 1] + [stack[|stack| - 1]], done)
    ensures forall i :: 0 <= i < |stack| ==> stack[i].node in Indices(t)
    ensures forall d :: d in done ==> d.node in Indices(t) && Under(t, d).Leaf?
  {
    hide StackOk, ToTake, TakenSlots, Under, Proper, PlanesIn, Indices;
    assert stack[..|stack| - 1] + [stack[|stack| - 1]] == stack;
  }

  lemma SearchEnds(j: Job, area: nat, t: Tree, nodes: seq<Node>, stack: seq<Frame>, done: set<Slot>, carved: nat, ok: bool)
    requires Searching(j, area, t, nodes, stack, done, carved, ok)
    ensures carved == |done|
    ensures stack == [] && ok ==> done == TakenSlots(j, area, t, WORLD)
    ensures done <= TakenSlots(j, area, t, WORLD)
  {
    hide StackOk, TakenSlots, Under, Proper, PlanesIn, Indices;
  }

  /** Carving changes lookup only where it may, and only to the new area. */
  lemma CarveIsSound(j: Job, area: int, t: Tree, nodes: seq<Node>, root: int, base: nat, cur: Tree, done: set<Slot>, q: Point)
    requires CarvedSoFar(j, area, t, nodes, root, base, cur, done) && WORLD.Contains(q)
    ensures var s := SignsOf(j.planes, q);
            Area(cur, s) != Area(t, s) ==> Area(cur, s) == area && j.Claims(q) && j.TakesFrom(Area(t, s))
  {
    var s := SignsOf(j.planes, q);
    assert Settled(j, area, t, cur, done, q);
    if d :| d in done && Passes(t, d, s) {
      PassesArea(t, d, s);
    }
  }

  /** A carve that ran to its end misses no claimed ground in its search box. */
  lemma CarveIsComplete(j: Job, area: int, t: Tree, nodes: seq<Node>, root: int, base: nat, cur: Tree, q: Point)
    requires j.Valid() && PlanesIn(t, |j.planes|) && t.Split?
    requires CarvedSoFar(j, area, t, nodes, root, base, cur, TakenSlots(j, area, t, WORLD))
    requires WORLD.Contains(q) && j.box.Contains(q) && j.Claims(q)
    requires j.TakesFrom(Area(t, SignsOf(j.planes, q)))
    ensures Area(cur, SignsOf(j.planes, q)) == area
  {
    assert Settled(j, area, t, cur, TakenSlots(j, area, t, WORLD), q);
    if Area(t, SignsOf(j.planes, q)) != area {
      var d := ClaimedGroundIsTaken(j, area, t, WORLD, q);
    }
  }
}
