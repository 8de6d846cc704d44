/**
 The augmenter's handle on the search tree: plane and node lumps that are
 appended to and patched in place, point lookup and the depth walk
 (src/backend/aas_augment.c:195-249, 584-615).
 */
module SearchTree {
  import opened Bsp

  /** Records one lump may hold (src/backend/navmesh.h:62). */
  const MAX_RECORDS: nat := 0x100_0000

  /** The engine's tree depth limit (src/backend/navmesh.h:60). */
  const MAX_DEPTH: nat := 0x80

  /** How far down the depth walk has still to look. */
  datatype Visit = Visit(node: int, depth: nat)

  function Deepest(stack: seq<Visit>, trees: seq<Tree>): nat
    requires |stack| == |trees|
    requires forall i :: 0 <= i < |stack| ==> stack[i].depth >= 1
  {
    if stack == [] then 0
    else
      var last := |stack| - 1;
      Max(stack[last].depth - 1 + Depth(trees[last]), Deepest(stack[..last], trees[..last]))
  }

  function Max(a: int, b: int): (r: int)
    ensures r >= a && r >= b && (r == a || r == b)
  {
    if a > b then a else b
  }

  function Min(a: nat, b: nat): nat {
    if a < b then a else b
  }

  ghost predicate Pending(nodes: seq<Node>, planes: nat, stack: seq<Visit>, trees: seq<Tree>) {
    && |stack| == |trees|
    && forall i :: 0 <= i < |stack| ==>
         && Spells(nodes, planes, stack[i].node, trees[i]) && trees[i].Split?
         && 1 <= stack[i].depth <= MAX_DEPTH + 1
  }

  /** Every record from number `start` on says of its plane whether it has a Z component. */
  ghost predicate Flagged(nodes: seq<Node>, planes: seq<Plane>, start: nat) {
    forall i :: start <= i < |nodes| ==>
      0 <= nodes[i].plane < |planes| && nodes[i].field4 == if planes[nodes[i].plane].c != 0.0 then 1 else 0
  }

  lemma FlaggedAppend(nodes: seq<Node>, planes: seq<Plane>, start: nat, node: Node)
    requires Flagged(nodes, planes, start) && 0 <= node.plane < |planes|
    requires node.field4 == if planes[node.plane].c != 0.0 then 1 else 0
    ensures Flagged(nodes + [node], planes, start)
  {
  }

  lemma FlaggedWrite(nodes: seq<Node>, planes: seq<Plane>, start: nat, n: nat, front: bool, value: int)
    requires Flagged(nodes, planes, start) && n < |nodes|
    ensures Flagged(nodes[n := nodes[n].WithChild(front, value)], planes, start)
  {
  }

  lemma FlaggedBehind(nodes: seq<Node>, nodes': seq<Node>, planes: seq<Plane>, start: nat)
    requires Flagged(nodes, planes, start) && nodes <= nodes' && Flagged(nodes', planes, |nodes|)
    ensures Flagged(nodes', planes, start)
  {
    forall i | start <= i < |nodes|
      ensures nodes'[i] == nodes[i]
    {
    }
  }

  lemma FlaggedNone(nodes: seq<Node>, planes: seq<Plane>)
    ensures Flagged(nodes, planes, |nodes|)
  {
  }

  function Size(t: Tree): nat {
    match t
    case Leaf(_) => 0
    case Split(_, _, front, back) => 1 + Size(front) + Size(back)
  }

  function Sizes(trees: seq<Tree>): nat {
    if trees == [] then 0 else Sizes(trees[..|trees| - 1]) + Size(trees[|trees| - 1])
  }

  lemma DeepestPush(stack: seq<Visit>, trees: seq<Tree>, v: Visit, t: Tree)
    requires |stack| == |trees| && v.depth >= 1
    requires forall i :: 0 <= i < |stack| ==> stack[i].depth >= 1
    ensures Deepest(stack + [v], trees + [t]) == Max(v.depth - 1 + Depth(t), Deepest(stack, trees))
    ensures Sizes(trees + [t]) == Sizes(trees) + Size(t)
  {
    assert (stack + [v])[..|stack|] == stack;
    assert (trees + [t])[..|trees|] == trees;
  }

  /** Steps a visit at this depth may still cost. */
  function Cost(depth: nat): nat
    decreases MAX_DEPTH + 1 - depth
  {
    if depth > MAX_DEPTH then 1 else 1 + 2 * Cost(depth + 1)
  }

  function Budget(stack: seq<Visit>): nat {
    if stack == [] then 0 else Budget(stack[..|stack| - 1]) + Cost(stack[|stack| - 1].depth)
  }

  /** Queue a child that is a node. */
  method PushChild(nodes: seq<Node>, ghost planes: nat, stack: seq<Visit>, ghost trees: seq<Tree>,
                   child: int, depth: nat, ghost u: Tree)
    returns (stack': seq<Visit>, ghost trees': seq<Tree>)
    requires 1 <= depth <= MAX_DEPTH + 1
    requires forall i :: 0 <= i < |stack| ==> 1 <= stack[i].depth <= MAX_DEPTH + 1
    ensures forall i :: 0 <= i < |stack'| ==> 1 <= stack'[i].depth <= MAX_DEPTH + 1
    ensures Budget(stack') <= Budget(stack) + Cost(depth)
    ensures Pending(nodes, planes, stack, trees) && Spells(nodes, planes, child, u) ==>
      && Pending(nodes, planes, stack', trees')
      && Max(depth - 1, Deepest(stack', trees')) == Max(depth - 1 + Depth(u), Deepest(stack, trees))
  {
    stack', trees' := stack, trees;
    if child > 0 {
      var v := Visit(child, depth);
      if |stack| == |trees| {
        DeepestPush(stack, trees, v, u);
      }
      assert (stack + [v])[..|stack|] == stack;
      stack', trees' := stack + [v], trees + [u];
    }
  }

  /** The depth walk's inner loop. */
  method PushChildren(nodes: seq<Node>, ghost planes: nat, stack: seq<Visit>, ghost trees: seq<Tree>,
                      fr: Visit, ghost u: Tree)
    returns (stack': seq<Visit>, ghost trees': seq<Tree>)
    requires 0 <= fr.node < |nodes| && 1 <= fr.depth <= MAX_DEPTH
    requires forall i :: 0 <= i < |stack| ==> 1 <= stack[i].depth <= MAX_DEPTH + 1
    ensures forall i :: 0 <= i < |stack'| ==> 1 <= stack'[i].depth <= MAX_DEPTH + 1
    ensures Budget(stack') < Budget(stack) + Cost(fr.depth)
    ensures Pending(nodes, planes, stack, trees) && Spells(nodes, planes, fr.node, u) && u.Split? ==>
      && Pending(nodes, planes, stack', trees')
      && Max(fr.depth, Deepest(stack', trees')) == Max(fr.depth - 1 + Depth(u), Deepest(stack, trees))
  {
    hide Pending, Budget;
    ghost var front, back := if u.Split? then u.front else u, if u.Split? then u.back else u;
    stack', trees' := PushChild(nodes, planes, stack, trees, nodes[fr.node].child0, fr.depth + 1, front);
    stack', trees' := PushChild(nodes, planes, stack', trees', nodes[fr.node].child1, fr.depth + 1, back);
  }

  ghost predicate WalkOk(nodes: seq<Node>, planes: nat, stack: seq<Visit>, trees: seq<Tree>, best: nat, t: Tree) {
    && best <= MAX_DEPTH && best <= Depth(t)
    && Pending(nodes, planes, stack, trees)
    && Depth(t) == Max(best, Deepest(stack, trees))
  }

  lemma {:induction false} StepVisit(nodes: seq<Node>, planes: nat, stack: seq<Visit>, trees: seq<Tree>, best: nat, t: Tree,
                  stack': seq<Visit>, trees': seq<Tree>)
    requires WalkOk(nodes, planes, stack, trees, best, t) && stack != []
    requires var last := |stack| - 1;
             var rest, fr, u := stack[..last], stack[last], trees[last];
             Pending(nodes, planes, rest, trees[..last]) && Spells(nodes, planes, fr.node, u) && u.Split? ==>
               && Pending(nodes, planes, stack', trees')
               && Max(fr.depth, Deepest(stack', trees')) == Max(fr.depth - 1 + Depth(u), Deepest(rest, trees[..last]))
    ensures var fr := stack[|stack| - 1];
            fr.depth <= MAX_DEPTH ==> |stack'| == |trees'| && WalkOk(nodes, planes, stack', trees', Max(best, fr.depth), t)
  {
  }

  lemma StartWalk(nodes: seq<Node>, planes: nat, root: int, t: Tree)
    ensures Spells(nodes, planes, root, t) && root <= 0 ==> MeasuredDepth(t) == 0
    ensures Spells(nodes, planes, root, t) && root > 0 ==> WalkOk(nodes, planes, [Visit(root, 1)], [t], 0, t)
  {
    DeepestPush([], [], Visit(root, 1), t);
  }

  lemma EndWalk(nodes: seq<Node>, planes: nat, trees: seq<Tree>, best: nat, t: Tree)
    requires WalkOk(nodes, planes, [], trees, best, t)
    ensures best == MeasuredDepth(t)
  {
  }

  /** The loop of TreeDepth: on records that spell a tree its result is that tree's measured depth. */
  method DepthWalk(nodes: seq<Node>, ghost planes: nat, root: int, ghost t: Tree) returns (best: nat)
    ensures Spells(nodes, planes, root, t) ==> best == MeasuredDepth(t)
  {
    hide *;
    StartWalk(nodes, planes, root, t);
    best := 0;
    if root <= 0 {
      return;
    }
    var stack := [Visit(root, 1)];
    ghost var isTree := Spells(nodes, planes, root, t);
    ghost var trees := [t];
    while |stack| > 0
      invariant forall i :: 0 <= i < |stack| ==> 1 <= stack[i].depth <= MAX_DEPTH + 1
      invariant isTree ==> |trees| == |stack| && WalkOk(nodes, planes, stack, trees, best, t)
      decreases Budget(stack)
    {
      var last := |stack| - 1;
      var fr := stack[last];
      ghost var stack0, trees0, best0 := stack, trees, best;
      BudgetPop(stack);
      stack := stack[..last];
      best := Max(best, fr.depth);
      if fr.depth > MAX_DEPTH {
        if isTree {
          TooDeep(nodes, planes, stack0, trees0, best0, t);
        }
        return;
      }
      if 0 <= fr.node < |nodes| {
        ghost var u := if isTree then trees0[last] else t;
        stack, trees := PushChildren(nodes, planes, stack, if isTree then trees0[..last] else [], fr, u);
        if isTree {
          StepVisit(nodes, planes, stack0, trees0, best0, t, stack, trees);
        }
      } else {
        if isTree {
          NodeInRange(nodes, planes, stack0, trees0, best0, t);
        }
      }
    }
    if isTree {
      assert stack == [];
      EndWalk(nodes, planes, trees, best, t);
    }
  }

  lemma BudgetPop(stack: seq<Visit>)
    requires stack != []
    ensures Budget(stack) == Budget(stack[..|stack| - 1]) + Cost(stack[|stack| - 1].depth)
    ensures Cost(stack[|stack| - 1].depth) > 0
  {
  }

  lemma TooDeep(nodes: seq<Node>, planes: nat, stack: seq<Visit>, trees: seq<Tree>, best: nat, t: Tree)
    requires WalkOk(nodes, planes, stack, trees, best, t) && stack != []
    requires stack[|stack| - 1].depth > MAX_DEPTH
    ensures Max(best, stack[|stack| - 1].depth) == MeasuredDepth(t)
  {
  }

  lemma NodeInRange(nodes: seq<Node>, planes: nat, stack: seq<Visit>, trees: seq<Tree>, best: nat, t: Tree)
    requires WalkOk(nodes, planes, stack, trees, best, t) && stack != []
    ensures 0 <= stack[|stack| - 1].node < |nodes|
  {
  }

  /** nodeRoom and planeRoom are the records the two lumps can grow to:
      MAX_RECORDS, or fewer when memory is short. */
  class AasTree {
    const nodeRoom: nat
    const planeRoom: nat
    var planes: seq<Plane>
    var nodes: seq<Node>
    var root: int

    /** The records spell t from the root, and no record is shared. */
    ghost predicate Holds(t: Tree)
      reads this
    {
      Spells(nodes, |planes|, root, t) && Proper(t)
    }

    constructor (planes: seq<Plane>, nodes: seq<Node>, root: int, nodeRoom: nat, planeRoom: nat)
      ensures this.planes == planes && this.nodes == nodes && this.root == root
      ensures this.nodeRoom == Min(nodeRoom, MAX_RECORDS) && this.planeRoom == Min(planeRoom, MAX_RECORDS)
    {
      this.planes, this.nodes, this.root := planes, nodes, root;
      this.nodeRoom, this.planeRoom := Min(nodeRoom, MAX_RECORDS), Min(planeRoom, MAX_RECORDS);
    }

    ghost function AreaAt(q: Point): int
      reads this
    {
      Lookup(nodes, root, SignsOf(planes, q), MAX_STEPS)
    }

    /** Resolve a point as the engine does. */
    method PointArea(q: Point) returns (area: int)
      ensures area == AreaAt(q)
    {
      var n := root;
      var guard := 0;
      ghost var s := SignsOf(planes, q);
      while n > 0
        invariant 0 <= guard <= MAX_STEPS
        invariant Lookup(nodes, root, s, MAX_STEPS) == Lookup(nodes, n, s, MAX_STEPS - guard)
        decreases MAX_STEPS - guard
      {
        if n >= |nodes| {
          return 0;
        }
        var node := nodes[n];
        if !(0 <= node.plane < |planes|) {
          return 0;
        }
        n := node.Child(Eval(planes[node.plane], q) > 0.0);
        guard := guard + 1;
        if guard > MAX_STEPS {
          return 0;
        }
      }
      area := -n;
    }

    /** Append a node record. Zero means that it did not fit. */
    method AppendNode(plane: int, field4: int, child0: int, child1: int) returns (n: int)
      requires |nodes| > 0
      modifies this`nodes
      ensures n == 0 <==> |old(nodes)| >= nodeRoom
      ensures n == 0 ==> nodes == old(nodes)
      ensures n != 0 ==> n == |old(nodes)| && nodes == old(nodes) + [Node(plane, field4, child0, child1)]
    {
      if |nodes| + 1 > nodeRoom {
        return 0;
      }
      n := |nodes|;
      nodes := nodes + [Node(plane, field4, child0, child1)];
    }

    method WriteChild(n: int, front: bool, value: int)
      requires 0 <= n < |nodes|
      modifies this`nodes
      ensures nodes == old(nodes)[n := old(nodes)[n].WithChild(front, value)]
    {
      nodes := nodes[n := nodes[n].WithChild(front, value)];
    }

    /** The index of an equal plane, appended when there is none. */
    method InternPlane(p: Plane) returns (i: int)
      modifies this`planes
      ensures old(planes) <= planes
      ensures i >= 0 ==> i < |planes| && planes[i] == p
      ensures i < 0 <==> p !in old(planes) && |old(planes)| >= planeRoom
      ensures i < 0 || p in old(planes) ==> planes == old(planes)
      ensures i >= 0 && p !in old(planes) ==> planes == old(planes) + [p]
    {
      i := 0;
      while i < |planes|
        invariant 0 <= i <= |planes|
        invariant p !in planes[..i]
      {
        if planes[i] == p {
          return;
        }
        i := i + 1;
      }
      assert planes[..i] == planes;
      if |planes| + 1 > planeRoom {
        return -1;
      }
      planes := planes + [p];
    }

    /** The depth walk stops as soon as it is past the limit, so a deeper tree
        always measures one more than the limit. On records that spell no tree
        it still stops. */
    method TreeDepth() returns (best: nat)
      ensures forall t :: Spells(nodes, |planes|, root, t) ==> best == MeasuredDepth(t)
    {
      ghost var u := if exists t :: Spells(nodes, |planes|, root, t) then
        var t :| Spells(nodes, |planes|, root, t); t else Leaf(0);
      best := DepthWalk(nodes, |planes|, root, u);
      forall t | Spells(nodes, |planes|, root, t) ensures best == MeasuredDepth(t) {
        SpellsUnique(nodes, |planes|, root, t, u);
      }
    }
  }

  /** What the depth walk can tell about a tree. */
  function MeasuredDepth(t: Tree): nat {
    if Depth(t) <= MAX_DEPTH then Depth(t) else MAX_DEPTH + 1
  }

  /** Signs only grow when planes are added, and a tree cannot tell. */
  lemma {:induction false} AreaOfLongerSigns(nodes: seq<Node>, n: int, t: Tree, s: Signs, s': Signs)
    requires Spells(nodes, |s|, n, t) && s <= s'
    ensures Area(t, s') == Area(t, s)
    decreases t
  {
    match t
    case Leaf(_) =>
    case Split(at, plane, front, back) =>
      assert s'[plane] == s[plane];
      AreaOfLongerSigns(nodes, nodes[at].child0, front, s, s');
      AreaOfLongerSigns(nodes, nodes[at].child1, back, s, s');
  }
}
