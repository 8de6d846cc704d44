/**
 The AAS search tree: a lump of node records addressed by index, the tree it
 spells, and point lookup (src/backend/aas_augment.c:186-218).

 Geometry is exact: a plane is an affine function over the reals, and a point
 is in front of a plane when that function is positive. Everything lookup asks
 of a point is one bit per plane, so most results are stated for the sequence
 of those bits, the point's signs.
 */
module Bsp {

  datatype Point = Point(x: real, y: real, z: real)

  datatype Plane = Plane(a: real, b: real, c: real, d: real)

  function Eval(p: Plane, q: Point): real {
    p.a * q.x + p.b * q.y + p.c * q.z + p.d
  }

  predicate InFront(p: Plane, q: Point) {
    Eval(p, q) > 0.0
  }

  type Signs = seq<bool>

  function SignsOf(planes: seq<Plane>, q: Point): (s: Signs)
    ensures |s| == |planes|
    ensures forall i :: 0 <= i < |planes| ==> s[i] == InFront(planes[i], q)
  {
    seq(|planes|, i requires 0 <= i < |planes| => InFront(planes[i], q))
  }

  /** A node record. A child above zero is a node index; otherwise it is minus
      the leaf's area, zero being void. */
  datatype Node = Node(plane: int, field4: int, child0: int, child1: int) {
    function Child(front: bool): int {
      if front then child0 else child1
    }

    function WithChild(front: bool, value: int): Node {
      if front then this.(child0 := value) else this.(child1 := value)
    }
  }

  /** One child field of one node record. */
  datatype Slot = Slot(node: int, front: bool)

  /** Steps lookup takes before it declares the model cyclic. */
  const MAX_STEPS: nat := 65536

  predicate Side(s: Signs, plane: int) {
    0 <= plane < |s| && s[plane]
  }

  /** Lookup over the records: the area, or 0 for void, a missing record or
      too many steps. */
  function Lookup(nodes: seq<Node>, n: int, s: Signs, steps: nat): int
    decreases steps
  {
    if n <= 0 then -n
    else if steps == 0 || n >= |nodes| || !(0 <= nodes[n].plane < |s|) then 0
    else Lookup(nodes, nodes[n].Child(Side(s, nodes[n].plane)), s, steps - 1)
  }

  // ---- the tree the records spell ----

  datatype Tree = Leaf(area: int) | Split(at: int, plane: int, front: Tree, back: Tree) {
    function Child(side: bool): Tree
      requires Split?
    {
      if side then front else back
    }
  }

  ghost predicate Spells(nodes: seq<Node>, planes: nat, n: int, t: Tree)
    decreases t
  {
    match t
    case Leaf(area) => area >= 0 && n == -area
    case Split(at, plane, front, back) =>
      && n == at && 0 < at < |nodes|
      && nodes[at].plane == plane && 0 <= plane < planes
      && Spells(nodes, planes, nodes[at].child0, front)
      && Spells(nodes, planes, nodes[at].child1, back)
  }

  function Indices(t: Tree): set<int> {
    match t
    case Leaf(_) => {}
    case Split(at, _, front, back) => {at} + Indices(front) + Indices(back)
  }

  /** No record is used twice: the property the payload validator checks as
      "no node is claimed by two parents". */
  predicate Proper(t: Tree) {
    match t
    case Leaf(_) => true
    case Split(at, _, front, back) =>
      && Proper(front) && Proper(back)
      && at !in Indices(front) && at !in Indices(back)
      && Indices(front) !! Indices(back)
  }

  function Depth(t: Tree): nat {
    match t
    case Leaf(_) => 0
    case Split(_, _, front, back) =>
      1 + if Depth(front) >= Depth(back) then Depth(front) else Depth(back)
  }

  /** The area of a point with signs s. */
  function Area(t: Tree, s: Signs): int {
    match t
    case Leaf(area) => area
    case Split(_, plane, front, back) => if Side(s, plane) then Area(front, s) else Area(back, s)
  }

  /** The descent of s goes through this slot. */
  predicate Passes(t: Tree, slot: Slot, s: Signs) {
    match t
    case Leaf(_) => false
    case Split(at, plane, front, back) =>
      if slot.node == at then Side(s, plane) == slot.front
      else if Side(s, plane) then Passes(front, slot, s) else Passes(back, slot, s)
  }

  /** The subtree a slot holds. */
  function Under(t: Tree, slot: Slot): Tree
    requires slot.node in Indices(t)
  {
    if slot.node == t.at then t.Child(slot.front)
    else if slot.node in Indices(t.front) then Under(t.front, slot) else Under(t.back, slot)
  }

  /** The tree with the subtree of one slot exchanged for u. */
  function Replace(t: Tree, slot: Slot, u: Tree): Tree {
    match t
    case Leaf(_) => t
    case Split(at, plane, front, back) =>
      if slot.node == at then
        if slot.front then Split(at, plane, u, back) else Split(at, plane, front, u)
      else Split(at, plane, Replace(front, slot, u), Replace(back, slot, u))
  }

  /**
   * Walking the node records from a child value gives, within the step limit, exactly the area that the tree spelled
   * by those records assigns to the point.
   */
  lemma {:induction false} LookupIsArea(nodes: seq<Node>, n: int, t: Tree, s: Signs, steps: nat)
    requires Spells(nodes, |s|, n, t) && Depth(t) <= steps
    ensures Lookup(nodes, n, s, steps) == Area(t, s)
    decreases t
  {
    match t
    case Leaf(_) =>
    case Split(at, plane, front, back) =>
      if Side(s, plane) {
        LookupIsArea(nodes, nodes[at].child0, front, s, steps - 1);
      } else {
        LookupIsArea(nodes, nodes[at].child1, back, s, steps - 1);
      }
  }

  /** Records outside the tree, and planes added later, do not matter to it. */
  lemma {:induction false} SpellsFrame(nodes: seq<Node>, planes: nat, n: int, t: Tree,
                                       nodes': seq<Node>, planes': nat)
    requires Spells(nodes, planes, n, t) && planes <= planes'
    requires forall i :: i in Indices(t) && 0 <= i < |nodes| ==> i < |nodes'| && nodes'[i] == nodes[i]
    ensures Spells(nodes', planes', n, t)
    decreases t
  {
    match t
    case Leaf(_) =>
    case Split(at, _, front, back) =>
      assert at in Indices(t);
      SpellsFrame(nodes, planes, nodes[at].child0, front, nodes', planes');
      SpellsFrame(nodes, planes, nodes[at].child1, back, nodes', planes');
  }

  lemma {:induction false} SpellsIndices(nodes: seq<Node>, planes: nat, n: int, t: Tree)
    requires Spells(nodes, planes, n, t)
    ensures forall i :: i in Indices(t) ==> 0 < i < |nodes|
    decreases t
  {
    match t
    case Leaf(_) =>
    case Split(at, _, front, back) =>
      SpellsIndices(nodes, planes, nodes[at].child0, front);
      SpellsIndices(nodes, planes, nodes[at].child1, back);
  }

  /** The records spell at most one tree from a given child value. */
  lemma {:induction false} SpellsUnique(nodes: seq<Node>, planes: nat, n: int, t: Tree, u: Tree)
    requires Spells(nodes, planes, n, t) && Spells(nodes, planes, n, u)
    ensures t == u
    decreases t
  {
    match t
    case Leaf(_) =>
    case Split(at, _, front, back) =>
      SpellsUnique(nodes, planes, nodes[at].child0, front, u.front);
      SpellsUnique(nodes, planes, nodes[at].child1, back, u.back);
  }

  /** A slot's record really holds what the tree says it holds. */
  lemma {:induction false} SpellsUnder(nodes: seq<Node>, planes: nat, n: int, t: Tree, slot: Slot)
    requires Spells(nodes, planes, n, t) && slot.node in Indices(t)
    ensures 0 < slot.node < |nodes|
    ensures Spells(nodes, planes, nodes[slot.node].Child(slot.front), Under(t, slot))
    ensures Indices(Under(t, slot)) <= Indices(t)
    ensures Depth(Under(t, slot)) < Depth(t)
    decreases t
  {
    if slot.node == t.at {
    } else if slot.node in Indices(t.front) {
      SpellsUnder(nodes, planes, nodes[t.at].child0, t.front, slot);
    } else {
      SpellsUnder(nodes, planes, nodes[t.at].child1, t.back, slot);
    }
  }

  lemma {:induction false} ReplaceElsewhere(t: Tree, slot: Slot, u: Tree)
    requires slot.node !in Indices(t)
    ensures Replace(t, slot, u) == t
  {
    match t
    case Leaf(_) =>
    case Split(_, _, front, back) =>
      ReplaceElsewhere(front, slot, u);
      ReplaceElsewhere(back, slot, u);
  }

  /** Writing one child field, after appending the records of u, is Replace. */
  lemma {:induction false} ReplaceSpells(nodes: seq<Node>, planes: nat, n: int, t: Tree, slot: Slot,
                                         nodes': seq<Node>, value: int, u: Tree)
    requires Spells(nodes, planes, n, t) && Proper(t)
    requires slot.node in Indices(t)
    requires |nodes'| >= |nodes|
    requires forall i :: 0 <= i < |nodes| && i != slot.node ==> nodes'[i] == nodes[i]
    requires 0 < slot.node < |nodes|
    requires nodes'[slot.node] == nodes[slot.node].WithChild(slot.front, value)
    requires Spells(nodes', planes, value, u)
    ensures Spells(nodes', planes, n, Replace(t, slot, u))
    decreases t
  {
    var front, back := t.front, t.back;
    SpellsIndices(nodes, planes, n, t);
    if slot.node == t.at {
      SpellsFrame(nodes, planes, nodes[t.at].child0, front, nodes', planes);
      SpellsFrame(nodes, planes, nodes[t.at].child1, back, nodes', planes);
    } else if slot.node in Indices(front) {
      ReplaceSpells(nodes, planes, nodes[t.at].child0, front, slot, nodes', value, u);
      ReplaceElsewhere(back, slot, u);
      SpellsFrame(nodes, planes, nodes[t.at].child1, back, nodes', planes);
    } else {
      ReplaceSpells(nodes, planes, nodes[t.at].child1, back, slot, nodes', value, u);
      ReplaceElsewhere(front, slot, u);
      SpellsFrame(nodes, planes, nodes[t.at].child0, front, nodes', planes);
    }
  }

  /** Grafting a tree of fresh records keeps the tree proper. */
  lemma {:induction false} ReplaceProper(t: Tree, slot: Slot, u: Tree)
    requires Proper(t) && Proper(u) && slot.node in Indices(t)
    requires Indices(u) !! Indices(t)
    ensures Proper(Replace(t, slot, u))
    ensures Indices(Replace(t, slot, u)) <= Indices(t) + Indices(u)
    ensures Indices(u) <= Indices(Replace(t, slot, u))
    ensures Depth(Replace(t, slot, u)) <= Depth(t) + Depth(u)
    decreases t
  {
    var front, back := t.front, t.back;
    if slot.node == t.at {
    } else if slot.node in Indices(front) {
      ReplaceProper(front, slot, u);
      ReplaceElsewhere(back, slot, u);
    } else {
      ReplaceProper(back, slot, u);
      ReplaceElsewhere(front, slot, u);
    }
  }

  /** Replacing a leaf keeps every record of the tree in it. */
  lemma {:induction false} ReplaceLeafKeeps(t: Tree, slot: Slot, u: Tree)
    requires Proper(t) && slot.node in Indices(t) && Under(t, slot).Leaf?
    ensures Indices(t) <= Indices(Replace(t, slot, u))
    decreases t
  {
    var front, back := t.front, t.back;
    if slot.node == t.at {
    } else if slot.node in Indices(front) {
      ReplaceLeafKeeps(front, slot, u);
      ReplaceElsewhere(back, slot, u);
    } else {
      ReplaceLeafKeeps(back, slot, u);
      ReplaceElsewhere(front, slot, u);
    }
  }

  /** What one replacement does to lookup: the points that pass the slot are
      answered by u, all others as before. */
  lemma {:induction false} ReplaceArea(t: Tree, slot: Slot, u: Tree, s: Signs)
    requires Proper(t) && slot.node in Indices(t)
    ensures Area(Replace(t, slot, u), s) == if Passes(t, slot, s) then Area(u, s) else Area(t, s)
    decreases t
  {
    var front, back := t.front, t.back;
    if slot.node == t.at {
    } else {
      if slot.node in Indices(front) {
        ReplaceArea(front, slot, u, s);
        ReplaceElsewhere(back, slot, u);
        PassesNowhere(back, slot, s);
      } else {
        ReplaceArea(back, slot, u, s);
        ReplaceElsewhere(front, slot, u);
        PassesNowhere(front, slot, s);
      }
    }
  }

  lemma {:induction false} PassesNowhere(t: Tree, slot: Slot, s: Signs)
    requires slot.node !in Indices(t)
    ensures !Passes(t, slot, s)
  {
    match t
    case Leaf(_) =>
    case Split(_, _, front, back) =>
      PassesNowhere(front, slot, s);
      PassesNowhere(back, slot, s);
  }

  /** A point that passes a slot is answered by the subtree under it. */
  lemma {:induction false} PassesArea(t: Tree, slot: Slot, s: Signs)
    requires Proper(t) && Passes(t, slot, s)
    ensures slot.node in Indices(t)
    ensures Area(t, s) == Area(Under(t, slot), s)
    decreases t
  {
    if slot.node == t.at {
    } else if Side(s, t.plane) {
      PassesArea(t.front, slot, s);
    } else {
      PassesArea(t.back, slot, s);
    }
  }
}
