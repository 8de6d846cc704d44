/**
 * The budget's pass as its caller sees it: how many routes each area is left with, which of them, and what the option
 * has to do with it (src/backend/aas_augment.c:3123-3344).
 */
module RoutePass {
  import opened Routes
  import opened RouteBudget
  import opened RouteGroups
  import opened RouteShed
  import opened RouteFill
  import opened RouteCap
  import opened RouteResults

  function Min(a: nat, b: nat): nat {
    if a < b then a else b
  }

  function Max(a: nat, b: nat): nat {
    if a > b then a else b
  }

  /** Walks out of an area between two pieces of cut floors. */
  function FloorWalks(basic: seq<Route>, floorEnd: nat, area: int): nat {
    if basic == [] then 0
    else
      var r := basic[|basic| - 1];
      FloorWalks(basic[..|basic| - 1], floorEnd, area)
      + if r.flags == 0x20 && 0 <= r.start < floorEnd && 0 <= r.end < floorEnd && r.start == area then 1 else 0
  }

  /** What an area holds before anything is chosen, and what it may be filled to. */
  function HeldBy(shipped: seq<Route>, basic: seq<Route>, floorEnd: nat, area: int): nat {
    Min(256, Outgoing(shipped, area) + FloorWalks(basic, floorEnd, area))
  }

  function FilledTo(option: int, held: nat): nat {
    Max(if 0 < option < 256 then option else 256, held)
  }

  // ---- the protected walks ----

  lemma FloorWalksOne(basic: seq<Route>, k: nat, floorEnd: nat, area: int)
    requires k < |basic|
    ensures var r := basic[k];
            FloorWalks(basic[..k + 1], floorEnd, area) == FloorWalks(basic[..k], floorEnd, area)
            + if r.flags == 0x20 && 0 <= r.start < floorEnd && 0 <= r.end < floorEnd && r.start == area then 1 else 0
  {
    assert basic[..k + 1][..k] == basic[..k];
  }

  lemma MarkedOneMore(choices: seq<Route>, marked: seq<bool>, area: int, k: nat)
    requires k < |marked| <= |choices|
    ensures |MarkedFrom(choices, marked, area, k + 1)| ==
            |MarkedFrom(choices, marked, area, k)| + if marked[k] && choices[k].start == area then 1 else 0
  {
    assert MarkedFrom(choices, marked, area, k + 1) ==
           MarkedFrom(choices, marked, area, k) + if marked[k] && choices[k].start == area then {k} else {};
  }

  /** Walks are protected in order, while the engine takes more routes out of their area. */
  lemma {:induction false} ProtectedSoMany(x: Input, required: seq<bool>, area: int, n: nat)
    requires x.Valid() && Protection(x, required) && n <= x.basic && Outgoing(x.shipped, area) <= LIMIT
    ensures Outgoing(x.shipped, area) + |MarkedFrom(x.choices, required, area, n)| ==
            Min(256, Outgoing(x.shipped, area) + FloorWalks(x.choices[..n], x.floorEnd, area))
  {
    if n == 0 {
      assert MarkedFrom(x.choices, required, area, 0) == {};
    } else {
      var k := n - 1;
      ProtectedSoMany(x, required, area, k);
      FloorWalksOne(x.choices, k, x.floorEnd, area);
      MarkedOneMore(x.choices, required, area, k);
      assert required[k] <==> Deserves(x, required, k);
      hide MarkedFrom, Outgoing, FloorWalks, Protection;
    }
  }

  /** Which choices are protected: walks, as long as their area's routes and earlier walks leave room. */
  lemma ProtectedIff(x: Input, required: seq<bool>, k: nat)
    requires x.Valid() && Protection(x, required) && k < |x.choices| && Outgoing(x.shipped, x.choices[k].start) <= LIMIT
    ensures var r := x.choices[k];
            required[k] <==>
              && k < x.basic && r.flags == 0x20 && 0 <= r.start < x.floorEnd && 0 <= r.end < x.floorEnd
              && Outgoing(x.shipped, r.start) + FloorWalks(x.choices[..k], x.floorEnd, r.start) < 256
  {
    if k < x.basic {
      ProtectedSoMany(x, required, x.choices[k].start, k);
      assert required[k] <==> Deserves(x, required, k);
      hide MarkedFrom, Outgoing, FloorWalks, Protection;
    }
  }

  lemma {:induction false} NoneBehind(x: Input, required: seq<bool>, area: int, n: nat)
    requires x.Valid() && Protection(x, required) && x.basic <= n <= |x.choices|
    ensures MarkedFrom(x.choices, required, area, n) == MarkedFrom(x.choices, required, area, x.basic)
  {
  }

  lemma HeldIs(x: Input, d: Decision, area: nat)
    requires Decided(x, d) && area < x.areas
    ensures Held(x, d, area) == HeldBy(x.shipped, x.choices[..x.basic], x.floorEnd, area)
  {
    assert Outgoing(x.shipped, area) <= LIMIT && Protection(x, d.required);
    hide Decided;
    ProtectedSoMany(x, d.required, area, x.basic);
    NoneBehind(x, d.required, area, |x.choices|);
  }

  // ---- how many are left ----

  ghost function AllFrom(choices: seq<Route>, area: int, n: nat): set<nat>
    requires n <= |choices|
  {
    set k: nat | k < n && choices[k].start == area
  }

  lemma AllFromOne(choices: seq<Route>, area: int, n: nat)
    requires n < |choices|
    ensures |AllFrom(choices, area, n + 1)| == |AllFrom(choices, area, n)| + if choices[n].start == area then 1 else 0
  {
    assert AllFrom(choices, area, n + 1) == AllFrom(choices, area, n) + if choices[n].start == area then {n} else {};
  }

  lemma NoneFrom(choices: seq<Route>, area: int)
    ensures AllFrom(choices, area, 0) == {}
  {
  }

  lemma {:induction false} AllFromCount(choices: seq<Route>, area: int, n: nat)
    requires n <= |choices|
    ensures |AllFrom(choices, area, n)| == Outgoing(choices[..n], area)
  {
    hide AllFrom;
    if n > 0 {
      AllFromCount(choices, area, n - 1);
      OutgoingOne(choices, n - 1, area);
      AllFromOne(choices, area, n - 1);
    } else {
      NoneFrom(choices, area);
    }
  }

  ghost function KeptFrom(x: Input, d: Decision, area: int): set<nat>
    requires |d.keep| == |x.choices|
  {
    MarkedFrom(x.choices, d.keep, area, |d.keep|)
  }

  lemma Apart(heads: set<nat>, shed: set<nat>, protected: set<nat>, kept: set<nat>)
    requires shed <= heads && heads !! protected && (heads - shed) + protected <= kept
    ensures |kept| >= |heads| - |shed| + |protected|
  {
    Routes.AtMost((heads - shed) + protected, kept);
    assert (heads - shed) !! protected;
    assert |heads - shed| == |heads| - |shed|;
  }

  /** An area that sheds a route keeps as many others as fill it. */
  lemma ShedFills(x: Input, d: Decision, area: nat, r: nat)
    requires Decided(x, d) && area < x.areas && |d.keep| == |x.choices| && r in ShedOut(x, d, area)
    ensures Outgoing(x.shipped, area) + |KeptFrom(x, d, area)| >= Ceiling(x, Held(x, d, area))
  {
    SizesOf(x, d);
    ShedsExcess(x, d, area);
    var protected := MarkedFrom(x.choices, d.required, area, |x.choices|);
    var heads, shed := RoutesOut(x, d, area), ShedOut(x, d, area);
    forall k | k in (heads - shed) + protected
      ensures k in KeptFrom(x, d, area)
    {
      RouteStays(x, d, area, k);
    }
    assert heads !! protected;
    assert Held(x, d, area) == Outgoing(x.shipped, area) + |protected|;
    hide *;
    Apart(heads, shed, protected, KeptFrom(x, d, area));
    ShedSome(heads, shed, Held(x, d, area), Ceiling(x, Held(x, d, area)), r);
  }

  lemma ShedSome(heads: set<nat>, shed: set<nat>, held: nat, ceiling: nat, r: nat)
    requires r in shed && |shed| == Max0(held + |heads| - ceiling)
    ensures held + |heads| - |shed| == ceiling
  {
  }

  lemma RouteStays(x: Input, d: Decision, area: nat, k: nat)
    requires Decided(x, d) && k < |x.choices| && |d.required| == |d.keep| == |x.choices|
    requires (k in RoutesOut(x, d, area) && k !in ShedOut(x, d, area)) || (d.required[k] && x.choices[k].start == area)
    ensures k in KeptFrom(x, d, area)
  {
    SurvivesIff(x, d, k);
    if !d.required[k] {
      IsItsRoot(x, d, k);
    }
  }

  lemma IsItsRoot(x: Input, d: Decision, k: nat)
    requires Decided(x, d) && k < |x.choices| && IsRoute(x, d, k)
    ensures |d.s.root| == |x.choices| && d.s.root[k] == k
  {
    hide ShippedFit, Protection, ShedSoFar, Turns, Filled, Outgoing, MarkedFrom;
    HeadIsRoot(x, d.required, d.s, k);
  }

  /** A route of an area that was left out: the area is full. */
  lemma LeftOutFills(x: Input, d: Decision, area: nat, k: nat)
    requires Decided(x, d) && area < x.areas && |d.keep| == |x.choices|
    requires k < |x.choices| && x.choices[k].start == area && !d.keep[k]
    ensures DegreeAt(d, area) >= Ceiling(x, Held(x, d, area))
  {
    LeftOutOnlyWhenFull(x, d, k);
    AreaFacts(x, d, area);
    DegreeOf(x, d, area);
    var r := d.s.root[k];
    if r in d.drop {
      SurvivesIff(x, d, k);
      RootLeaves(x, d, k);
      ShedFills(x, d, area, r);
    }
  }

  lemma RootLeaves(x: Input, d: Decision, k: nat)
    requires Decided(x, d) && k < |x.choices| && |d.s.root| == |d.required| == |x.choices| && !d.required[k]
    ensures d.s.root[k] < |x.choices| && x.choices[d.s.root[k]].start == x.choices[k].start
  {
    hide ShippedFit, Protection, ShedSoFar, Turns, Filled, Outgoing, MarkedFrom;
    assert Ranked(x.choices, d.required, k, d.s.rank[k], d.s.root[k]);
  }

  /** Nothing is given up that fits: an area is left with all its routes, or is filled. */
  lemma TotalIs(x: Input, d: Decision, basic: seq<Route>, records: seq<Route>, written: seq<Route>, area: nat)
    requires Capped(x, d, basic, records, written) && area < x.areas
    ensures Outgoing(records, area) + Outgoing(written, area) ==
            Min(Outgoing(x.shipped, area) + Outgoing(x.choices, area), Ceiling(x, Held(x, d, area)))
  {
    hide Decided, Outgoing, Held, MarkedFrom, Selected, SameStarts;
    TotalIsDegree(x, d, basic, records, written, area);
    DegreeOf(x, d, area);
    DegreeBound(x, d, area);
    AllFromCount(x.choices, area, |x.choices|);
    assert x.choices[..|x.choices|] == x.choices;
    var all, kept := AllFrom(x.choices, area, |x.choices|), KeptFrom(x, d, area);
    KeptAreAmong(x, d, area);
    Routes.AtMost(kept, all);
    if k: nat :| k < |x.choices| && x.choices[k].start == area && !d.keep[k] {
      LeftOutFills(x, d, area, k);
    } else {
      AllAreKept(x, d, area);
    }
  }

  lemma DegreeBound(x: Input, d: Decision, area: nat)
    requires Decided(x, d) && area < x.areas
    ensures DegreeAt(d, area) <= Ceiling(x, Held(x, d, area))
  {
    AreaFacts(x, d, area);
    assert d.degree[area] <= Limits(x, d.startDegree)[area];
  }

  lemma KeptAreAmong(x: Input, d: Decision, area: nat)
    requires |d.keep| == |x.choices|
    ensures KeptFrom(x, d, area) <= AllFrom(x.choices, area, |x.choices|)
  {
  }

  lemma AllAreKept(x: Input, d: Decision, area: nat)
    requires |d.keep| == |x.choices| && forall k: nat :: k < |x.choices| && x.choices[k].start == area ==> d.keep[k]
    ensures KeptFrom(x, d, area) == AllFrom(x.choices, area, |x.choices|)
  {
  }

  // ---- which are left ----

  /** What tells two routes apart. */
  function KeyOf(r: Route): (int, int, int, int, string) {
    (r.start, r.end, r.flags, r.d30, r.anim)
  }

  /** The distinct routes out of an area that are not protected, and those of which an anchor is kept. */
  ghost function Keys(x: Input, d: Decision, area: int): set<(int, int, int, int, string)>
    requires |d.required| == |x.choices|
  {
    set k: nat | k < |x.choices| && !d.required[k] && x.choices[k].start == area :: KeyOf(x.choices[k])
  }

  ghost function KeptKeys(x: Input, d: Decision, area: int): set<(int, int, int, int, string)>
    requires |d.required| == |d.keep| == |x.choices|
  {
    set k: nat | k < |x.choices| && !d.required[k] && d.keep[k] && x.choices[k].start == area :: KeyOf(x.choices[k])
  }

  ghost function KeysAt(x: Input, at: set<nat>): set<(int, int, int, int, string)> {
    set k | k in at && k < |x.choices| :: KeyOf(x.choices[k])
  }

  ghost predicate KeysDiffer(x: Input, at: set<nat>) {
    forall i, j :: i in at && j in at && i < |x.choices| && j < |x.choices| && KeyOf(x.choices[i]) == KeyOf(x.choices[j]) ==> i == j
  }

  lemma {:induction false} KeysCount(x: Input, at: set<nat>)
    requires KeysDiffer(x, at) && forall k :: k in at ==> k < |x.choices|
    ensures |KeysAt(x, at)| == |at|
  {
    if at != {} {
      var k :| k in at;
      var rest := at - {k};
      KeysCount(x, rest);
      assert KeysAt(x, at) == KeysAt(x, rest) + {KeyOf(x.choices[k])};
      assert KeyOf(x.choices[k]) !in KeysAt(x, rest);
    } else {
      assert KeysAt(x, at) == {};
    }
  }

  lemma HeadsDiffer(x: Input, d: Decision, area: nat)
    requires Decided(x, d)
    ensures KeysDiffer(x, RoutesOut(x, d, area))
  {
    forall i, j | i in RoutesOut(x, d, area) && j in RoutesOut(x, d, area) && KeyOf(x.choices[i]) == KeyOf(x.choices[j])
      ensures i == j
    {
      IsItsRoot(x, d, i);
      IsItsRoot(x, d, j);
      RootIs(x, d, i);
      RootIs(x, d, j);
      SameRoot(x, d.required, i, j, i, j);
    }
  }

  lemma RootIs(x: Input, d: Decision, k: nat)
    requires Decided(x, d) && k < |x.choices| && |d.s.root| == |d.required| == |x.choices| && !d.required[k]
    ensures d.s.root[k] < |x.choices| && IsRoot(x.choices, d.required, k, d.s.root[k])
    ensures |d.s.rank| == |x.choices| && Head(d.required, d.s.rank, d.s.root[k])
  {
    hide ShippedFit, Protection, ShedSoFar, Turns, Filled, Outgoing, MarkedFrom;
    var r := d.s.root[k];
    assert Ranked(x.choices, d.required, k, d.s.rank[k], r);
    assert Ranked(x.choices, d.required, r, d.s.rank[r], d.s.root[r]);
    InEarlierAll(x.choices, d.required, k, r);
  }

  /** Every distinct route has one representative. */
  lemma KeysAreHeads(x: Input, d: Decision, area: nat)
    requires Decided(x, d) && |d.required| == |x.choices|
    ensures Keys(x, d, area) == KeysAt(x, RoutesOut(x, d, area))
  {
    SizesOf(x, d);
    hide Decided;
    forall key | key in Keys(x, d, area)
      ensures key in KeysAt(x, RoutesOut(x, d, area))
    {
      var k: nat :| k < |x.choices| && !d.required[k] && x.choices[k].start == area && KeyOf(x.choices[k]) == key;
      RootIs(x, d, k);
      assert d.s.root[k] in RoutesOut(x, d, area);
    }
  }

  lemma SizesOf(x: Input, d: Decision)
    requires Decided(x, d)
    ensures |d.required| == |d.keep| == |d.s.root| == |d.s.rank| == |x.choices|
  {
    hide ShippedFit, ShedSoFar, Turns, Outgoing, MarkedFrom;
  }

  lemma LostIsAmong(x: Input, d: Decision, area: nat, key: (int, int, int, int, string))
    requires Decided(x, d) && |d.required| == |d.keep| == |x.choices|
    requires key in Keys(x, d, area) && key !in KeptKeys(x, d, area)
    ensures key in KeysAt(x, ShedOut(x, d, area))
  {
    SizesOf(x, d);
    hide Decided;
    var k: nat :| k < |x.choices| && !d.required[k] && x.choices[k].start == area && KeyOf(x.choices[k]) == key;
    RootIs(x, d, k);
    SurvivesIff(x, d, k);
    var r := d.s.root[k];
    assert !d.required[r] && KeyOf(x.choices[r]) == key;
    assert r in ShedOut(x, d, area);
  }

  lemma AmongIsLost(x: Input, d: Decision, area: nat, key: (int, int, int, int, string))
    requires Decided(x, d) && |d.required| == |d.keep| == |x.choices| && ShedOut(x, d, area) <= RoutesOut(x, d, area)
    requires key in KeysAt(x, ShedOut(x, d, area))
    ensures key in Keys(x, d, area) && key !in KeptKeys(x, d, area)
  {
    SizesOf(x, d);
    hide Decided;
    var k :| k in ShedOut(x, d, area) && KeyOf(x.choices[k]) == key;
    IsItsRoot(x, d, k);
    SurvivesIff(x, d, k);
  }

  /** A distinct route is lost exactly when its representative is shed. */
  lemma LostAreShed(x: Input, d: Decision, area: nat)
    requires Decided(x, d) && |d.required| == |d.keep| == |x.choices| && area < x.areas
    ensures Keys(x, d, area) - KeptKeys(x, d, area) == KeysAt(x, ShedOut(x, d, area))
  {
    ShedsExcess(x, d, area);
    hide *;
    forall key
      ensures key in Keys(x, d, area) - KeptKeys(x, d, area) <==> key in KeysAt(x, ShedOut(x, d, area))
    {
      if key in KeysAt(x, ShedOut(x, d, area)) {
        AmongIsLost(x, d, area, key);
      } else if key in Keys(x, d, area) && key !in KeptKeys(x, d, area) {
        LostIsAmong(x, d, area, key);
      }
    }
  }

  /** An area loses exactly as many distinct routes as it has too many of. */
  lemma LosesExcess(x: Input, d: Decision, area: nat)
    requires Decided(x, d) && |d.required| == |d.keep| == |x.choices| && area < x.areas
    ensures |Keys(x, d, area) - KeptKeys(x, d, area)| ==
            Max0(Held(x, d, area) + |Keys(x, d, area)| - Ceiling(x, Held(x, d, area)))
  {
    ShedsExcess(x, d, area);
    KeysAreHeads(x, d, area);
    LostAreShed(x, d, area);
    HeadsDiffer(x, d, area);
    hide Decided, Held, Keys, KeptKeys;
    KeysCount(x, RoutesOut(x, d, area));
    KeysCount(x, ShedOut(x, d, area));
  }

  /** The first choice of its key, protected ones aside. */
  ghost predicate First(x: Input, d: Decision, k: nat)
    requires |d.required| == |x.choices| && k < |x.choices|
  {
    !d.required[k] && forall j :: 0 <= j < k && !d.required[j] ==> KeyOf(x.choices[j]) != KeyOf(x.choices[k])
  }

  lemma FirstIsHead(x: Input, d: Decision, k: nat)
    requires Decided(x, d) && |d.required| == |x.choices| && k < |x.choices| && First(x, d, k)
    ensures IsRoute(x, d, k)
  {
    SizesOf(x, d);
    RootIs(x, d, k);
    hide Decided;
    var r := d.s.root[k];
    assert KeyOf(x.choices[r]) == KeyOf(x.choices[k]);
  }

  /**
   * Of two distinct routes of an area one is kept and the other lost. Under a payload budget the lost one is no
   * shorter, and between equals the later one; a walk is lost only after all others. At the engine's limit it is the
   * later one of the same box, or its box contributes more routes, or as many and comes first.
   */
  lemma WhichIsLost(x: Input, d: Decision, area: nat, kept: nat, lost: nat)
    requires Decided(x, d) && |d.required| == |d.keep| == |x.choices| && area < x.areas
    requires kept < |x.choices| && lost < |x.choices| && First(x, d, kept) && First(x, d, lost)
    requires x.choices[kept].start == x.choices[lost].start == area
    requires KeyOf(x.choices[kept]) in KeptKeys(x, d, area) && KeyOf(x.choices[lost]) !in KeptKeys(x, d, area)
    requires forall k :: x.basic <= k < |x.choices| ==> x.choices[k].span >= 0.0
    ensures x.budget < 256 && lost < x.basic ==> kept < lost
    ensures x.budget < 256 && kept >= x.basic && lost >= x.basic ==>
              || x.choices[kept].span < x.choices[lost].span
              || (x.choices[kept].span == x.choices[lost].span && kept < lost)
    ensures x.budget >= 256 && BoxOf(x, kept) == BoxOf(x, lost) ==> kept < lost
    ensures x.budget >= 256 && BoxOf(x, kept) != BoxOf(x, lost) ==>
              || |FromBox(x, d, area, BoxOf(x, kept))| < |FromBox(x, d, area, BoxOf(x, lost))|
              || (|FromBox(x, d, area, BoxOf(x, kept))| == |FromBox(x, d, area, BoxOf(x, lost))|
                  && BoxOf(x, lost) >= 0 && (BoxOf(x, lost) < BoxOf(x, kept) || BoxOf(x, kept) == -1))
  {
    var list := Heads(x, d.required, d.s, area);
    BothListed(x, d, area, kept, lost);
    hide *;
    Went(x, list, Excess(x, d.s, d.startDegree, area), d.drop, kept, lost);
    SpanMeans(x, kept, lost);
    SameBox(x, kept, lost);
    BoxFirstMeans(x, list, x.SourceOf(lost), x.SourceOf(kept));
  }

  lemma BoxFirstMeans(x: Input, list: seq<nat>, s: nat, u: nat)
    ensures BoxFirst(x, list, s, u) <==>
      || |Against(x, list, {}, s)| > |Against(x, list, {}, u)|
      || (|Against(x, list, {}, s)| == |Against(x, list, {}, u)| && s < u)
  {
    hide Against;
  }

  lemma BothListed(x: Input, d: Decision, area: nat, kept: nat, lost: nat)
    requires Decided(x, d) && |d.required| == |d.keep| == |x.choices| && area < x.areas
    requires kept < |x.choices| && lost < |x.choices| && First(x, d, kept) && First(x, d, lost)
    requires x.choices[kept].start == x.choices[lost].start == area
    requires KeyOf(x.choices[kept]) in KeptKeys(x, d, area) && KeyOf(x.choices[lost]) !in KeptKeys(x, d, area)
    ensures |d.s.rank| == |x.choices| && |d.startDegree| == |d.s.need| == x.areas
    ensures var list := Heads(x, d.required, d.s, area);
            && kept in list && lost in list && kept !in d.drop && lost in d.drop
            && ShedRight(x, list, Excess(x, d.s, d.startDegree, area), d.drop)
            && (forall k: nat :: k == kept || k == lost ==>
                  FromBox(x, d, area, BoxOf(x, k)) == Against(x, list, {}, x.SourceOf(k)))
  {
    hide *;
    HeadIsFirst(x, d, kept);
    HeadIsFirst(x, d, lost);
    KeptIsNotShed(x, d, area, kept);
    LostIsShed(x, d, area, lost);
    ShedRightAt(x, d, area);
    HeadsAreRoutes(x, d, area);
    InHeads(x, d, area, kept);
    InHeads(x, d, area, lost);
    BoxesAre(x, d, area, kept);
    BoxesAre(x, d, area, lost);
  }

  /** What the rule for the budget says of one route that stays and one that goes. */
  lemma Went(x: Input, list: seq<nat>, excess: int, drop: set<nat>, kept: nat, lost: nat)
    requires ShedRight(x, list, excess, drop) && kept in list && lost in list && kept !in drop && lost in drop
    requires kept < |x.choices| && lost < |x.choices|
    ensures x.budget < 256 ==> LongestFirst(SpanOf(x, lost), SpanOf(x, kept))
    ensures x.budget >= 256 && x.SourceOf(lost) == x.SourceOf(kept) ==> kept < lost
    ensures x.budget >= 256 && x.SourceOf(lost) != x.SourceOf(kept) ==>
              BoxFirst(x, list, x.SourceOf(lost), x.SourceOf(kept))
  {
    hide ListOf, LongestFirst, Against, BoxFirst;
    assert lost in Mine(list, drop) && kept !in Mine(list, drop);
  }

  lemma SpanMeans(x: Input, kept: nat, lost: nat)
    requires kept < |x.choices| && lost < |x.choices|
    requires forall k :: x.basic <= k < |x.choices| ==> x.choices[k].span >= 0.0
    ensures LongestFirst(SpanOf(x, lost), SpanOf(x, kept)) ==>
      && (lost < x.basic ==> kept < lost)
      && (kept >= x.basic && lost >= x.basic ==>
            || x.choices[kept].span < x.choices[lost].span
            || (x.choices[kept].span == x.choices[lost].span && kept < lost))
  {
  }

  /** The box a route is counted for: the one its landing's area is of, or else its start's; -1 for none. */
  function BoxOf(x: Input, k: nat): int
    requires k < |x.choices|
  {
    var box := if x.source(x.choices[k].end) >= 0 then x.source(x.choices[k].end) else x.source(x.choices[k].start);
    if 0 <= box < x.sources then box else -1
  }

  ghost function FromBox(x: Input, d: Decision, area: int, box: int): set<nat>
    requires |d.required| == |x.choices|
  {
    set k: nat | k < |x.choices| && First(x, d, k) && x.choices[k].start == area && BoxOf(x, k) == box
  }

  lemma KeptIsNotShed(x: Input, d: Decision, area: nat, k: nat)
    requires Decided(x, d) && |d.required| == |d.keep| == |x.choices| && k < |x.choices| && IsRoute(x, d, k)
    requires x.choices[k].start == area && KeyOf(x.choices[k]) in KeptKeys(x, d, area)
    ensures k !in d.drop
  {
    IsItsRoot(x, d, k);
    SurvivesIff(x, d, k);
  }

  lemma LostIsShed(x: Input, d: Decision, area: nat, k: nat)
    requires Decided(x, d) && |d.required| == |d.keep| == |x.choices| && k < |x.choices| && IsRoute(x, d, k)
    requires x.choices[k].start == area && KeyOf(x.choices[k]) !in KeptKeys(x, d, area)
    ensures k in d.drop
  {
    IsItsRoot(x, d, k);
    SurvivesIff(x, d, k);
  }

  lemma ShedRightAt(x: Input, d: Decision, area: nat)
    requires Decided(x, d) && area < x.areas
    ensures |d.required| == |d.s.rank| == |x.choices| && |d.startDegree| == |d.s.need| == x.areas
    ensures forall k :: k in d.drop ==> k < |d.s.rank| && Head(d.required, d.s.rank, k)
    ensures ShedRight(x, Heads(x, d.required, d.s, area), Excess(x, d.s, d.startDegree, area), d.drop)
  {
    AreaFacts(x, d, area);
  }

  lemma InHeads(x: Input, d: Decision, area: nat, k: nat)
    requires |d.required| == |d.s.rank| == |x.choices| && k < |x.choices|
    requires RoutesOut(x, d, area) == AsSet(Heads(x, d.required, d.s, area))
    ensures k in Heads(x, d.required, d.s, area) <==> IsRoute(x, d, k) && x.choices[k].start == area
  {
    hide HeadList, Heads;
    assert k in Heads(x, d.required, d.s, area) <==> k in AsSet(Heads(x, d.required, d.s, area));
  }

  lemma HeadIsFirst(x: Input, d: Decision, k: nat)
    requires Decided(x, d) && |d.required| == |x.choices| && k < |x.choices|
    ensures IsRoute(x, d, k) <==> First(x, d, k)
  {
    if First(x, d, k) {
      FirstIsHead(x, d, k);
    }
    if IsRoute(x, d, k) {
      IsItsRoot(x, d, k);
      RootIs(x, d, k);
    }
  }

  /** The routes counted for a box are those the pass counts against it. */
  lemma BoxesAre(x: Input, d: Decision, area: nat, k: nat)
    requires Decided(x, d) && |d.required| == |d.s.rank| == |x.choices| && k < |x.choices|
    requires RoutesOut(x, d, area) == AsSet(Heads(x, d.required, d.s, area))
    ensures FromBox(x, d, area, BoxOf(x, k)) == Against(x, Heads(x, d.required, d.s, area), {}, x.SourceOf(k))
  {
    hide Decided, HeadList, Heads, First, IsRoute;
    var list := Heads(x, d.required, d.s, area);
    forall i: nat
      ensures i in FromBox(x, d, area, BoxOf(x, k)) <==> i in Against(x, list, {}, x.SourceOf(k))
    {
      if i < |x.choices| {
        HeadIsFirst(x, d, i);
        InHeads(x, d, area, i);
        SameBox(x, i, k);
      }
    }
  }

  lemma SameBox(x: Input, i: nat, k: nat)
    requires i < |x.choices| && k < |x.choices|
    ensures BoxOf(x, i) == BoxOf(x, k) <==> x.SourceOf(i) == x.SourceOf(k)
    ensures x.SourceOf(i) < x.SourceOf(k) ==> BoxOf(x, i) >= 0 && (BoxOf(x, i) < BoxOf(x, k) || BoxOf(x, k) == -1)
    ensures x.SourceOf(k) < x.SourceOf(i) ==> BoxOf(x, k) >= 0 && (BoxOf(x, k) < BoxOf(x, i) || BoxOf(x, i) == -1)
  {
  }

  // ---- the pass ----

  lemma {:induction false} UsableIsFilter(a: seq<Route>, b: seq<Route>)
    ensures Usable(a + b) == Usable(a) + Usable(b)
    ensures |b| == 1 ==> Usable(b) == if b[0].usable then b else []
  {
    if b == [] {
      assert a + b == a;
    } else {
      assert (a + b)[..|a + b| - 1] == a + b[..|b| - 1];
      UsableIsFilter(a, b[..|b| - 1]);
      assert |b| == 1 ==> b[..0] == [] && b == [b[0]];
    }
  }

  /** The choices are those of the lump and of the array, in order. */
  ghost predicate ChosenFrom(x: Input, records: seq<Route>, original: nat, routes: seq<Route>)
    requires original <= |records|
  {
    && x.shipped == records[..original] && x.basic == |records| - original && x.basic <= |x.choices|
    && (forall k :: 0 <= k < x.basic ==>
          x.choices[k].start == records[original + k].start && x.choices[k].end == records[original + k].end
          && x.choices[k].flags == records[original + k].flags && x.choices[k].d30 == 0 && x.choices[k].anim == "")
    && x.choices[x.basic..] == Usable(routes)
  }

  lemma InputIs(records: seq<Route>, original: nat, routes: seq<Route>, areas: nat, floorEnd: nat,
                option: int, sources: nat, source: int -> int)
    requires original <= |records|
    ensures ChosenFrom(InputOf(records, original, routes, areas, floorEnd, option, sources, source), records, original, routes)
  {
    var choices := Choices(records, original, routes);
    assert forall k :: 0 <= k < |records| - original ==> choices[k] == Bare(records[original + k]);
  }

  lemma {:induction false} SameOutgoing(a: seq<Route>, b: seq<Route>, area: int)
    requires |a| == |b| && forall k :: 0 <= k < |a| ==> a[k].start == b[k].start
    ensures Outgoing(a, area) == Outgoing(b, area)
  {
    if a != [] {
      SameOutgoing(a[..|a| - 1], b[..|b| - 1], area);
    }
  }

  lemma {:induction false} SameWalks(a: seq<Route>, b: seq<Route>, floorEnd: nat, area: int)
    requires |a| == |b|
    requires forall k :: 0 <= k < |a| ==> a[k].start == b[k].start && a[k].end == b[k].end && a[k].flags == b[k].flags
    ensures FloorWalks(a, floorEnd, area) == FloorWalks(b, floorEnd, area)
  {
    if a != [] {
      SameWalks(a[..|a| - 1], b[..|b| - 1], floorEnd, area);
    }
  }

  /** How many routes an area is left with, in terms of what the pass was called with. */
  ghost predicate LeftWith(before: seq<Route>, original: nat, routes: seq<Route>, floorEnd: nat, option: int,
                           records: seq<Route>, written: seq<Route>, area: nat)
    requires original <= |before|
  {
    Outgoing(records, area) + Outgoing(written, area) ==
    Min(Outgoing(before, area) + Outgoing(Usable(routes), area),
        FilledTo(option, HeldBy(before[..original], before[original..], floorEnd, area)))
  }

  lemma TotalLeft(x: Input, d: Decision, before: seq<Route>, original: nat, routes: seq<Route>, option: int,
                  records: seq<Route>, written: seq<Route>, area: nat)
    requires original <= |before| && ChosenFrom(x, before, original, routes)
    requires x.budget == if 0 < option < 256 then option else 256
    requires Capped(x, d, before[original..], records, written) && area < x.areas
    ensures LeftWith(before, original, routes, x.floorEnd, option, records, written, area)
  {
    hide *;
    TotalIs(x, d, before[original..], records, written, area);
    CappedMeans(x, d, before[original..], records, written);
    HeldIs(x, d, area);
    FromTheLump(x, before, original, routes, area);
    CeilingIs(x, option, HeldBy(before[..original], before[original..], x.floorEnd, area));
    LeftWithIs(before, original, routes, x.floorEnd, option, records, written, area);
  }

  /** The counts of the choices are counts of the lump and the array. */
  lemma FromTheLump(x: Input, before: seq<Route>, original: nat, routes: seq<Route>, area: nat)
    requires original <= |before| && ChosenFrom(x, before, original, routes)
    ensures x.basic <= |x.choices|
    ensures HeldBy(x.shipped, x.choices[..x.basic], x.floorEnd, area) ==
            HeldBy(before[..original], before[original..], x.floorEnd, area)
    ensures Outgoing(x.shipped, area) + Outgoing(x.choices, area) ==
            Outgoing(before, area) + Outgoing(Usable(routes), area)
  {
    hide Usable, Outgoing, FloorWalks;
    var low := x.choices[..x.basic];
    assert before == before[..original] + before[original..] && x.choices == low + x.choices[x.basic..];
    OutgoingOfSum(before[..original], before[original..], area);
    OutgoingOfSum(low, x.choices[x.basic..], area);
    SameOutgoing(low, before[original..], area);
    SameWalks(low, before[original..], x.floorEnd, area);
  }

  lemma CeilingIs(x: Input, option: int, held: nat)
    requires x.budget == if 0 < option < 256 then option else 256
    ensures Ceiling(x, held) == FilledTo(option, held)
  {
  }

  lemma LeftWithIs(before: seq<Route>, original: nat, routes: seq<Route>, floorEnd: nat, option: int,
                   records: seq<Route>, written: seq<Route>, area: nat)
    requires original <= |before|
    ensures LeftWith(before, original, routes, floorEnd, option, records, written, area) <==>
            Outgoing(records, area) + Outgoing(written, area) ==
            Min(Outgoing(before, area) + Outgoing(Usable(routes), area),
                FilledTo(option, HeldBy(before[..original], before[original..], floorEnd, area)))
  {
    hide Outgoing, FilledTo, Usable, HeldBy, Min;
  }

  lemma CappedMeans(x: Input, d: Decision, basic: seq<Route>, records: seq<Route>, written: seq<Route>)
    requires Capped(x, d, basic, records, written)
    ensures Decided(x, d) && |d.keep| == |x.choices|
  {
    hide Decided;
  }

  /**
   * The whole pass on the lump and the collected routes: the shipped prefix stands, the kept routes follow in order,
   * every area is left with all its routes or filled to the option's budget, to the engine's limit without one, or to
   * what it held before, and refusal, memory aside, means that a shipped route names no area or too many share one.
   */
  method BudgetTraversals(m: ReachLump, original: nat, routes: array<Route>, n: nat, areas: nat, floorEnd: nat,
                          option: int, sources: nat, source: int -> int, hash: Route -> nat)
    returns (written: nat, ok: bool, full: int, ghost x: Input, ghost d: Decision)
    requires original <= |m.records| && n <= routes.Length && HashesKeys(hash)
    modifies m, routes
    ensures ChosenFrom(x, old(m.records), original, old(routes[..n]))
    ensures x.areas == areas && x.floorEnd == floorEnd && x.sources == sources && x.source == source
    ensures x.budget == if 0 < option < 256 then option else 256
    ensures ok <==> !Refuses(x)
    ensures !ok ==> m.records == old(m.records) && routes[..] == old(routes[..])
    ensures !ok ==> full < 0 || full >= areas || Outgoing(old(m.records[..original]), full) > 256
    ensures ok ==> written <= n && routes[n..] == old(routes[n..])
    ensures ok ==> Capped(x, d, old(m.records[original..]), m.records, routes[..written])
    ensures ok ==> forall area :: 0 <= area < areas ==>
      LeftWith(old(m.records), original, old(routes[..n]), floorEnd, option, m.records, routes[..written], area)
  {
    written := 0;
    var chosen := CollectUsable(routes, n);
    var input := InputOf(m.records, original, routes[..n], areas, floorEnd, option, sources, source);
    InputIs(m.records, original, routes[..n], areas, floorEnd, option, sources, source);
    BasicsMatch(m.records, original, routes[..n], areas, floorEnd, option, sources, source, chosen);
    assert input.floorEnd == floorEnd && input.sources == sources && input.source == source;
    assert input.budget == if 0 < option < 256 then option else 256;
    ShippedAre(input, m.records, original, routes[..n]);
    assert LIMIT == 256;
    hide *;
    var decision;
    decision, ok, full := Decide(input, hash);
    x, d := input, decision;
    if ok {
      ghost var before, collected := m.records, routes[..n];
      written := Apply(m, original, routes, chosen, input, decision);
      assert routes[n..] == routes[|chosen|..][n - |chosen|..];
      forall area | 0 <= area < areas
        ensures LeftWith(before, original, collected, floorEnd, option, m.records, routes[..written], area)
      {
        TotalLeft(x, d, before, original, collected, option, m.records, routes[..written], area);
      }
    }
  }

  lemma ShippedAre(x: Input, records: seq<Route>, original: nat, routes: seq<Route>)
    requires original <= |records| && ChosenFrom(x, records, original, routes)
    ensures x.shipped == records[..original]
  {
  }
}
