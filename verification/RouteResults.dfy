/**
 What the budget guarantees of the routes it leaves
 (src/backend/aas_augment.c:2961-2972, 3123-3344).
 */
module RouteResults {
  import opened Routes
  import opened RouteBudget
  import opened RouteGroups
  import opened RouteShed
  import opened RouteFill
  import opened RouteCap

  lemma OutgoingOfSum(a: seq<Route>, b: seq<Route>, area: int)
    ensures Outgoing(a + b, area) == Outgoing(a, area) + Outgoing(b, area)
    decreases |b|
  {
    if b == [] {
      assert a + b == a;
    } else {
      assert (a + b)[..|a + b| - 1] == a + b[..|b| - 1];
      OutgoingOfSum(a, b[..|b| - 1], area);
    }
  }

  /** Choices offset .. offset + n that are kept and leave an area. */
  ghost function KeptIn(choices: seq<Route>, keep: seq<bool>, area: int, offset: nat, n: nat): set<nat>
    requires offset + n <= |choices| && |keep| == |choices|
  {
    set k: nat | offset <= k < offset + n && keep[k] && choices[k].start == area
  }

  lemma KeptOneMore(choices: seq<Route>, keep: seq<bool>, area: int, offset: nat, n: nat)
    requires n > 0 && offset + n <= |choices| == |keep|
    ensures var last := offset + n - 1;
            |KeptIn(choices, keep, area, offset, n)| ==
            |KeptIn(choices, keep, area, offset, n - 1)| + if keep[last] && choices[last].start == area then 1 else 0
  {
    var last := offset + n - 1;
    assert KeptIn(choices, keep, area, offset, n) ==
           KeptIn(choices, keep, area, offset, n - 1) + if keep[last] && choices[last].start == area then {last} else {};
  }

  lemma {:induction false} SelectedCount(choices: seq<Route>, rs: seq<Route>, keep: seq<bool>, area: int, offset: nat, n: nat)
    requires n <= |rs| && offset + n <= |choices| == |keep|
    requires forall k :: 0 <= k < n ==> rs[k].start == choices[offset + k].start
    ensures Outgoing(Selected(rs, keep, offset, n), area) == |KeptIn(choices, keep, area, offset, n)|
  {
    if n == 0 {
      assert KeptIn(choices, keep, area, offset, 0) == {};
    } else {
      SelectedCount(choices, rs, keep, area, offset, n - 1);
      var last := offset + n - 1;
      KeptOneMore(choices, keep, area, offset, n);
      hide KeptIn;
      OutgoingOfSum(Selected(rs, keep, offset, n - 1), if keep[last] then [rs[n - 1]] else [], area);
      assert Outgoing([rs[n - 1]], area) == if rs[n - 1].start == area then 1 else 0 by {
        assert [rs[n - 1]][..0] == [];
      }
      assert Outgoing([], area) == 0;
    }
  }

  function DegreeAt(d: Decision, area: nat): nat {
    if area < |d.degree| then d.degree[area] else 0
  }

  lemma TotalIsMarked(x: Input, keep: seq<bool>, basic: seq<Route>, area: nat)
    requires SameStarts(x, basic) && |keep| == |x.choices|
    ensures Outgoing(x.shipped + Selected(basic, keep, 0, x.basic), area) +
            Outgoing(Selected(x.choices[x.basic..], keep, x.basic, |x.choices| - x.basic), area) ==
            Outgoing(x.shipped, area) + |MarkedFrom(x.choices, keep, area, |keep|)|
  {
    var n := |x.choices| - x.basic;
    OutgoingOfSum(x.shipped, Selected(basic, keep, 0, x.basic), area);
    SelectedCount(x.choices, basic, keep, area, 0, x.basic);
    SelectedCount(x.choices, x.choices[x.basic..], keep, area, x.basic, n);
    KeptInHalves(x.choices, keep, area, x.basic);
  }

  /** The total out of an area, in the lump and in the collected routes, is the
      degree the pass counted. */
  lemma TotalIsDegree(x: Input, d: Decision, basic: seq<Route>, records: seq<Route>, written: seq<Route>, area: nat)
    requires Capped(x, d, basic, records, written) && area < x.areas
    ensures Outgoing(records, area) + Outgoing(written, area) == DegreeAt(d, area)
  {
    hide Decided;
    DegreeOf(x, d, area);
    TotalIsMarked(x, d.keep, basic, area);
  }

  lemma KeptInHalves(choices: seq<Route>, keep: seq<bool>, area: int, basic: nat)
    requires |keep| == |choices| && basic <= |choices|
    ensures |MarkedFrom(choices, keep, area, |keep|)| ==
            |KeptIn(choices, keep, area, 0, basic)| + |KeptIn(choices, keep, area, basic, |choices| - basic)|
  {
    var low, high := KeptIn(choices, keep, area, 0, basic), KeptIn(choices, keep, area, basic, |choices| - basic);
    assert MarkedFrom(choices, keep, area, |keep|) == low + high && low !! high;
  }

  lemma DegreeOf(x: Input, d: Decision, area: nat)
    requires Decided(x, d) && area < x.areas
    ensures |d.keep| == |x.choices|
    ensures DegreeAt(d, area) == Outgoing(x.shipped, area) + |MarkedFrom(x.choices, d.keep, area, |d.keep|)|
  {
    hide Outgoing, MarkedFrom, Turns, ShedSoFar, GroupedSoFar, Protection, ShippedFit;
  }

  /** On success no area has more routes out than the budget, or than it
      shipped with and had protected, and never more than the engine takes. */
  lemma WithinLimit(x: Input, d: Decision, basic: seq<Route>, records: seq<Route>, written: seq<Route>, area: nat)
    requires Capped(x, d, basic, records, written) && area < x.areas
    ensures var total := Outgoing(records, area) + Outgoing(written, area);
            total <= LIMIT && (total <= x.budget || total <= Held(x, d, area))
  {
    TotalIsDegree(x, d, basic, records, written, area);
    assert d.degree[area] <= Limits(x, d.startDegree)[area];
  }

  /** Choices of an area that are the first of their route and not protected. */
  ghost predicate IsRoute(x: Input, d: Decision, k: nat) {
    && |d.required| == |d.s.rank| == |x.choices| && k < |x.choices|
    && Head(d.required, d.s.rank, k)
  }

  /** What an area holds before any choice: its shipped and protected routes. */
  ghost function Held(x: Input, d: Decision, area: int): nat {
    Outgoing(x.shipped, area) + if |d.required| == |x.choices| then |MarkedFrom(x.choices, d.required, area, |x.choices|)| else 0
  }

  ghost function RoutesOut(x: Input, d: Decision, area: int): set<nat> {
    set k: nat | k < |x.choices| && IsRoute(x, d, k) && x.choices[k].start == area
  }

  ghost function ShedOut(x: Input, d: Decision, area: int): set<nat> {
    set k: nat | k < |x.choices| && k in d.drop && x.choices[k].start == area
  }

  lemma HeadsAreRoutes(x: Input, d: Decision, area: nat)
    requires |d.required| == |d.s.rank| == |x.choices|
    requires forall k :: k in d.drop ==> k < |d.s.rank| && Head(d.required, d.s.rank, k)
    ensures RoutesOut(x, d, area) == AsSet(Heads(x, d.required, d.s, area))
    ensures ShedOut(x, d, area) == Mine(Heads(x, d.required, d.s, area), d.drop)
  {
  }

  /** An area sheds exactly the distinct routes it has too many of. */
  lemma ShedsExcess(x: Input, d: Decision, area: nat)
    requires Decided(x, d) && area < x.areas
    ensures ShedOut(x, d, area) <= RoutesOut(x, d, area)
    ensures |ShedOut(x, d, area)| == Max0(Held(x, d, area) + |RoutesOut(x, d, area)| - Ceiling(x, Held(x, d, area)))
  {
    AreaFacts(x, d, area);
    hide Decided, Held, Heads, RoutesOut, ShedOut, LongestGo, Fair;
    HeadsAreRoutes(x, d, area);
    ListSet(Heads(x, d.required, d.s, area));
  }

  lemma AreaFacts(x: Input, d: Decision, area: nat)
    requires Decided(x, d) && area < x.areas
    ensures |d.required| == |d.s.rank| == |x.choices| && |d.startDegree| == |d.s.need| == x.areas
    ensures forall k :: k in d.drop ==> k < |d.s.rank| && Head(d.required, d.s.rank, k)
    ensures d.startDegree[area] == Held(x, d, area)
    ensures d.s.need[area] == |Heads(x, d.required, d.s, area)|
    ensures ShedRight(x, Heads(x, d.required, d.s, area), Excess(x, d.s, d.startDegree, area), d.drop)
  {
    hide Filled, Turns, Protection, ShippedFit, Outgoing, MarkedFrom, HeadList, ShedRight;
    assert Listed(x, d.required, d.s, area, |x.choices|) && AreaShed(x, d.required, d.s, d.startDegree, d.drop, area);
  }

  /** Some anchor of k's route is kept. */
  ghost predicate Survives(x: Input, d: Decision, k: nat)
    requires |d.keep| == |d.required| == |x.choices| && k < |x.choices|
  {
    exists j: nat :: j < |x.choices| && d.keep[j] && !d.required[j] && SameKey(x.choices[j], x.choices[k])
  }

  lemma SameRoot(x: Input, required: seq<bool>, j: nat, k: nat, r: nat, q: nat)
    requires |required| == |x.choices| && j < |x.choices| && k < |x.choices|
    requires SameKey(x.choices[j], x.choices[k])
    requires IsRoot(x.choices, required, j, r) && IsRoot(x.choices, required, k, q)
    ensures r == q
  {
    assert SameKey(x.choices[r], x.choices[q]);
  }

  /** A distinct route keeps an anchor exactly when it was not shed: every other
      route keeps its representative, and no alternate of a shed one survives. */
  lemma SurvivesIff(x: Input, d: Decision, k: nat)
    requires Decided(x, d) && k < |x.choices|
    ensures |d.keep| == |d.required| == |d.s.root| == |x.choices|
    ensures !d.required[k] ==> (Survives(x, d, k) <==> d.s.root[k] !in d.drop)
    ensures !d.required[k] && d.s.root[k] !in d.drop ==> d.keep[d.s.root[k]]
    ensures d.required[k] ==> d.keep[k]
  {
    hide ShippedFit, Protection, ShedSoFar, Turns, Outgoing, MarkedFrom;
    assert FirstKept(d.required, d.s, d.drop, k) ==> d.keep[k];
    if !d.required[k] {
      var r := d.s.root[k];
      assert Ranked(x.choices, d.required, k, d.s.rank[k], r);
      assert Ranked(x.choices, d.required, r, d.s.rank[r], d.s.root[r]);
      SameRoot(x, d.required, r, k, d.s.root[r], r);
      InEarlierAll(x.choices, d.required, k, r);
      assert FirstKept(d.required, d.s, d.drop, r) ==> d.keep[r];
      if Survives(x, d, k) {
        var j: nat :| j < |x.choices| && d.keep[j] && !d.required[j] && SameKey(x.choices[j], x.choices[k]);
        assert Ranked(x.choices, d.required, j, d.s.rank[j], d.s.root[j]);
        SameRoot(x, d.required, j, k, d.s.root[j], r);
      }
    }
  }

  /** A root has nothing of its key before it. */
  lemma InEarlierAll(choices: seq<Route>, required: seq<bool>, k: nat, r: nat)
    requires |required| == |choices| && k < |choices| && IsRoot(choices, required, k, r)
    ensures Earlier(choices, required, r) == {}
  {
  }

  /** Of a route's many anchors, the one with a given smaller rank. */
  lemma {:induction false} AnchorOfRank(choices: seq<Route>, required: seq<bool>, k: nat, rank: nat) returns (j: nat)
    requires |required| == |choices| && k < |choices| && !required[k] && rank <= |Earlier(choices, required, k)|
    ensures j <= k && !required[j] && SameKey(choices[j], choices[k]) && |Earlier(choices, required, j)| == rank
    decreases k
  {
    j := k;
    if |Earlier(choices, required, k)| > rank {
      var l := LastEarlier(choices, required, k);
      assert Earlier(choices, required, k) == Earlier(choices, required, l) + {l} by {
        forall i: nat ensures i in Earlier(choices, required, k) <==> i in Earlier(choices, required, l) + {l} {
        }
      }
      j := AnchorOfRank(choices, required, l, rank);
    }
  }

  ghost function UpTo(x: Input, d: Decision, j: nat): set<nat>
    requires |d.required| == |x.choices| && j < |x.choices|
  {
    Earlier(x.choices, d.required, j) + {j}
  }

  /** The anchors up to one of rank 255 all had their turn; together they fill
      an area, so one of them found it full or it is full now. */
  lemma ManyAnchorsFill(x: Input, d: Decision, j: nat)
    requires Decided(x, d) && j < |x.choices| && |d.required| == |d.s.root| == |x.choices| && !d.required[j]
    requires |Earlier(x.choices, d.required, j)| == LIMIT - 1 && d.s.root[j] !in d.drop
    ensures |d.degree| == x.areas && 0 <= x.choices[j].start < x.areas
    ensures d.degree[x.choices[j].start] == Ceiling(x, d.startDegree[x.choices[j].start])
  {
    var start := x.choices[j].start;
    var lim := Limits(x, d.startDegree);
    assert x.Named(x.choices[j]) && lim[start] <= LIMIT && d.degree[start] <= lim[start];
    if d.degree[start] < lim[start] {
      forall i | i in UpTo(x, d, j) ensures i in MarkedFrom(x.choices, d.keep, start, |d.keep|) {
        EarlyAnchorKept(x, d, j, i);
      }
      AtMost(UpTo(x, d, j), MarkedFrom(x.choices, d.keep, start, |d.keep|));
    }
  }

  lemma EarlyAnchorKept(x: Input, d: Decision, j: nat, i: nat)
    requires Decided(x, d) && j < |x.choices| && |d.required| == |d.s.root| == |d.s.rank| == |d.keep| == |x.choices|
    requires !d.required[j] && |Earlier(x.choices, d.required, j)| == LIMIT - 1 && d.s.root[j] !in d.drop
    requires i in UpTo(x, d, j) && 0 <= x.choices[j].start < x.areas == |d.degree| == |d.startDegree|
    requires d.degree[x.choices[j].start] < Ceiling(x, d.startDegree[x.choices[j].start])
    ensures d.keep[i] && x.choices[i].start == x.choices[j].start
  {
    hide ShippedFit, Protection, ShedSoFar, Outgoing, MarkedFrom;
    assert Ranked(x.choices, d.required, j, d.s.rank[j], d.s.root[j]);
    assert Ranked(x.choices, d.required, i, d.s.rank[i], d.s.root[i]);
    SameRoot(x, d.required, i, j, d.s.root[i], d.s.root[j]);
    assert Earlier(x.choices, d.required, i) <= Earlier(x.choices, d.required, j);
    AtMost(Earlier(x.choices, d.required, i), Earlier(x.choices, d.required, j));
    assert FirstKept(d.required, d.s, d.drop, i) ==> d.keep[i];
    assert Limits(x, d.startDegree)[x.choices[j].start] == Ceiling(x, d.startDegree[x.choices[j].start]);
  }

  /** An anchor is given up only with its whole route, or where its area is
      filled to its ceiling. */
  lemma LeftOutOnlyWhenFull(x: Input, d: Decision, k: nat)
    requires Decided(x, d) && k < |x.choices|
    ensures |d.keep| == |d.required| == |d.s.root| == |x.choices| && |d.degree| == |d.startDegree| == x.areas
    ensures 0 <= x.choices[k].start < x.areas
    ensures d.keep[k] || d.s.root[k] in d.drop
            || d.degree[x.choices[k].start] == Ceiling(x, d.startDegree[x.choices[k].start])
  {
    assert x.Named(x.choices[k]);
    var start := x.choices[k].start;
    assert d.degree[start] <= Limits(x, d.startDegree)[start];
    if !d.keep[k] && d.s.root[k] !in d.drop {
      assert Ranked(x.choices, d.required, k, d.s.rank[k], d.s.root[k]);
      assert !d.required[k];
      if d.s.rank[k] >= LIMIT {
        var j := AnchorOfRank(x.choices, d.required, k, LIMIT - 1);
        assert Ranked(x.choices, d.required, j, d.s.rank[j], d.s.root[j]);
        SameRoot(x, d.required, j, k, d.s.root[j], d.s.root[k]);
        ManyAnchorsFill(x, d, j);
      }
    }
  }
}
