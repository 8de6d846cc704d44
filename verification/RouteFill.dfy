/**
 Choosing the routes that are kept: the shedding of every area, then one
 representative of each route left, then alternates round by round
 (src/backend/aas_augment.c:3187-3189, 3241-3329).
 */
module RouteFill {
  import opened Routes
  import opened RouteBudget
  import opened RouteGroups
  import opened RouteShed

  function Ceiling(x: Input, degree: nat): nat {
    if degree > x.budget then degree else x.budget
  }

  /** The representatives out of an area, oldest first. */
  function Heads(x: Input, required: seq<bool>, s: Groups, area: int): seq<nat>
    requires |s.rank| <= |required| == |x.choices|
  {
    HeadList(x.choices, required, s.rank, area, |s.rank|)
  }

  ghost function Mine(list: seq<nat>, drop: set<nat>): set<nat> {
    set k | k in list && k in drop
  }

  /** An area sheds exactly its excess, by the rule for its budget. */
  ghost predicate ShedRight(x: Input, list: seq<nat>, excess: int, drop: set<nat>)
  {
    && ListOf(x, list)
    && |Mine(list, drop)| == (if excess > 0 then excess else 0)
    && (excess > 0 ==> if x.budget < LIMIT then LongestGo(x, list, Mine(list, drop)) else Fair(x, list, Mine(list, drop)))
  }

  function Excess(x: Input, s: Groups, degree: seq<nat>, i: nat): int
    requires i < |degree| && i < |s.need|
  {
    degree[i] + s.need[i] - Ceiling(x, degree[i])
  }

  ghost predicate ShedSoFar(x: Input, required: seq<bool>, s: Groups, degree: seq<nat>, drop: set<nat>, n: nat) {
    && n <= |degree| == |s.need| && |s.rank| <= |required| == |x.choices|
    && (forall i: nat :: i < n ==> AreaShed(x, required, s, degree, drop, i))
    && forall k :: k in drop ==> k < |s.rank| && Head(required, s.rank, k) && 0 <= x.choices[k].start < n
  }

  ghost predicate AreaShed(x: Input, required: seq<bool>, s: Groups, degree: seq<nat>, drop: set<nat>, i: nat)
    requires i < |degree| == |s.need| && |s.rank| <= |required| == |x.choices|
  {
    ShedRight(x, Heads(x, required, s, i), Excess(x, s, degree, i), drop)
  }

  lemma ShedOneMore(x: Input, required: seq<bool>, s: Groups, degree: seq<nat>, drop: set<nat>, n: nat, dropped: set<nat>)
    requires ShedSoFar(x, required, s, degree, drop, n) && n < |degree|
    requires forall k :: k in dropped ==> k in Heads(x, required, s, n)
    requires ShedRight(x, Heads(x, required, s, n), Excess(x, s, degree, n), dropped)
    ensures ShedSoFar(x, required, s, degree, drop + dropped, n + 1)
  {
    hide ShedRight;
    forall i: nat | i < n + 1 ensures AreaShed(x, required, s, degree, drop + dropped, i) {
      var list := Heads(x, required, s, i);
      if i < n {
        assert AreaShed(x, required, s, degree, drop, i);
        assert Mine(list, drop + dropped) == Mine(list, drop);
        SameShed(x, list, Excess(x, s, degree, i), drop, drop + dropped);
      } else {
        assert Mine(list, drop + dropped) == Mine(list, dropped);
        SameShed(x, list, Excess(x, s, degree, i), dropped, drop + dropped);
      }
    }
  }

  lemma SameShed(x: Input, list: seq<nat>, excess: int, drop: set<nat>, drop': set<nat>)
    requires ShedRight(x, list, excess, drop) && Mine(list, drop) == Mine(list, drop')
    ensures ShedRight(x, list, excess, drop')
  {
  }

  /** What is shed out of one area. */
  method ShedArea(x: Input, list: seq<nat>, excess: int) returns (dropped: set<nat>)
    requires ListOf(x, list) && excess <= |list|
    ensures (forall k :: k in dropped ==> k in list) && ShedRight(x, list, excess, dropped)
  {
    dropped := {};
    if excess > 0 {
      if x.budget < LIMIT {
        dropped := ShedLongest(x, list, excess);
      } else {
        dropped := ShedByBox(x, list, excess);
      }
    }
    assert Mine(list, dropped) == dropped;
  }

  /** Every over-full area sheds its excess of representatives, every other area none. */
  method ShedAll(x: Input, required: seq<bool>, s: Groups, degree: seq<nat>) returns (drop: set<nat>)
    requires GroupedSoFar(x, required, s, |x.choices|) && |degree| == x.areas
    ensures ShedSoFar(x, required, s, degree, drop, x.areas)
  {
    hide *;
    drop := {};
    var i := 0;
    assert ShedSoFar(x, required, s, degree, drop, 0) by { NoneShed(x, required, s, degree); }
    while i < x.areas
      invariant 0 <= i <= x.areas && ShedSoFar(x, required, s, degree, drop, i)
    {
      HeadsListed(x, required, s, degree, i);
      var list := Collect(s.next, s.first[i], Heads(x, required, s, i));
      var dropped := ShedArea(x, list, Excess(x, s, degree, i));
      ShedOneMore(x, required, s, degree, drop, i, dropped);
      drop := drop + dropped;
      i := i + 1;
    }
  }

  lemma NoneShed(x: Input, required: seq<bool>, s: Groups, degree: seq<nat>)
    requires GroupedSoFar(x, required, s, |x.choices|) && |degree| == x.areas
    ensures ShedSoFar(x, required, s, degree, {}, 0)
  {
  }

  lemma HeadsListed(x: Input, required: seq<bool>, s: Groups, degree: seq<nat>, i: nat)
    requires GroupedSoFar(x, required, s, |x.choices|) && |degree| == x.areas && i < x.areas
    ensures |s.rank| == |required| == |x.choices| && |s.first| == |s.need| == |degree|
    ensures Chained(s.next, s.first[i], Heads(x, required, s, i)) && ListOf(x, Heads(x, required, s, i))
    ensures Excess(x, s, degree, i) <= |Heads(x, required, s, i)|
  {
    assert Listed(x, required, s, i, |x.choices|);
  }

  // ---- representatives ----

  /** Protected routes and the representatives that were not shed. */
  predicate FirstKept(required: seq<bool>, s: Groups, drop: set<nat>, k: nat)
    requires k < |required| && k < |s.rank| && k < |s.root|
  {
    required[k] || (s.rank[k] == 0 && s.root[k] !in drop)
  }

  /** Routes of an area that hold a place after the first n choices: the
      protected ones held theirs from the start. */
  ghost predicate Holding(x: Input, required: seq<bool>, keep: seq<bool>, degree: nat, area: int, n: nat, start: nat)
    requires n <= |keep| <= |x.choices| && n <= |required| <= |x.choices|
  {
    degree + |MarkedFrom(x.choices, required, area, n)| == start + |MarkedFrom(x.choices, keep, area, n)|
  }

  lemma HoldOneMore(x: Input, required: seq<bool>, keep: seq<bool>, degree: nat, area: int, start: nat, b: bool)
    requires |keep| < |required| == |x.choices| && Holding(x, required, keep, degree, area, |keep|, start)
    requires required[|keep|] ==> b
    ensures var n := |keep|;
            Holding(x, required, keep + [b], if b && !required[n] && x.choices[n].start == area then degree + 1 else degree,
                    area, n + 1, start)
  {
    var n := |keep|;
    MarkOne(x.choices, keep, area, n, b);
    MarkOne(x.choices, required[..n], area, n, required[n]);
    assert required[..n] + [required[n]] == required[..n + 1];
    MarkedPrefix(x.choices, required[..n], required, area, n);
    MarkedPrefix(x.choices, required[..n + 1], required, area, n + 1);
  }

  /** Each representative that was not shed is kept. */
  method KeepFirst(x: Input, required: seq<bool>, s: Groups, drop: set<nat>, startDegree: seq<nat>)
    returns (keep: seq<bool>, degree: seq<nat>)
    requires |required| == |s.rank| == |s.root| == |x.choices| && |startDegree| == x.areas && AllNamed(x)
    ensures |keep| == |x.choices| && |degree| == x.areas
    ensures forall k :: 0 <= k < |keep| ==> (keep[k] <==> FirstKept(required, s, drop, k))
    ensures forall i :: 0 <= i < x.areas ==> Holding(x, required, keep, degree[i], i, |keep|, startDegree[i])
  {
    keep, degree := [], startDegree;
    assert forall i :: MarkedFrom(x.choices, required, i, 0) == {} && MarkedFrom(x.choices, keep, i, 0) == {};
    hide Holding, MarkedFrom;
    forall i | 0 <= i < x.areas ensures Holding(x, required, keep, degree[i], i, 0, startDegree[i]) {
      NothingHeld(x, required, i, startDegree[i]);
    }
    while |keep| < |x.choices|
      invariant |keep| <= |x.choices| && |degree| == x.areas
      invariant forall k :: 0 <= k < |keep| ==> (keep[k] <==> FirstKept(required, s, drop, k))
      invariant forall i :: 0 <= i < x.areas ==> Holding(x, required, keep, degree[i], i, |keep|, startDegree[i])
    {
      var k := |keep|;
      var b := required[k] || (s.root[k] !in drop && s.rank[k] == 0);
      forall i | 0 <= i < x.areas
        ensures Holding(x, required, keep + [b], if b && !required[k] && x.choices[k].start == i then degree[i] + 1 else degree[i],
                        i, k + 1, startDegree[i])
      {
        HoldOneMore(x, required, keep, degree[i], i, startDegree[i], b);
      }
      if b && !required[k] {
        var start := x.choices[k].start;
        degree := degree[start := degree[start] + 1];
      }
      keep := keep + [b];
    }
  }

  lemma NothingHeld(x: Input, required: seq<bool>, area: int, start: nat)
    requires |required| == |x.choices|
    ensures Holding(x, required, [], start, area, 0, start)
  {
    assert MarkedFrom(x.choices, required, area, 0) == {} && MarkedFrom(x.choices, [], area, 0) == {};
  }

  /** A representative is its own root. */
  lemma HeadIsRoot(x: Input, required: seq<bool>, s: Groups, k: nat)
    requires GroupedSoFar(x, required, s, |x.choices|) && k < |x.choices| && Head(required, s.rank, k)
    ensures s.root[k] == k
  {
    assert Ranked(x.choices, required, k, s.rank[k], s.root[k]);
    InEarlier(x.choices, required, k, s.root[k]);
  }

  lemma InEarlier(choices: seq<Route>, required: seq<bool>, k: nat, j: nat)
    requires |required| == |choices| && k < |choices|
    ensures j in Earlier(choices, required, k) <==> j < k && !required[j] && SameKey(choices[j], choices[k])
  {
  }

  ghost predicate FirstPass(required: seq<bool>, s: Groups, drop: set<nat>, keep: seq<bool>) {
    && |keep| == |required| == |s.rank| == |s.root|
    && (forall k: nat :: k < |keep| ==> (keep[k] <==> FirstKept(required, s, drop, k)))
    && forall k: nat :: k < |keep| && Head(required, s.rank, k) ==> s.root[k] == k
  }

  lemma KeptOutOf(x: Input, required: seq<bool>, s: Groups, drop: set<nat>, keep: seq<bool>, i: nat)
    requires |keep| == |x.choices| && FirstPass(required, s, drop, keep)
    ensures MarkedFrom(x.choices, keep, i, |keep|) ==
            MarkedFrom(x.choices, required, i, |keep|) + (AsSet(Heads(x, required, s, i)) - Mine(Heads(x, required, s, i), drop))
    ensures MarkedFrom(x.choices, required, i, |keep|) !! AsSet(Heads(x, required, s, i))
  {
    var n, list := |keep|, Heads(x, required, s, i);
    var kept, held := MarkedFrom(x.choices, keep, i, n), MarkedFrom(x.choices, required, i, n);
    forall k: nat ensures k in kept <==> k in held || (k in list && k !in drop) {
    }
    forall k: nat ensures !(k in held && k in list) {
    }
  }

  /** The first pass keeps, out of each area, all but the excess. */
  lemma FirstKeptCount(x: Input, required: seq<bool>, s: Groups, startDegree: seq<nat>, drop: set<nat>, keep: seq<bool>, i: nat)
    requires GroupedSoFar(x, required, s, |x.choices|) && ShedSoFar(x, required, s, startDegree, drop, x.areas)
    requires |keep| == |x.choices| && FirstPass(required, s, drop, keep)
    requires |startDegree| == x.areas && i < x.areas
    ensures |MarkedFrom(x.choices, keep, i, |keep|)| + Max0(Excess(x, s, startDegree, i)) ==
            |MarkedFrom(x.choices, required, i, |keep|)| + s.need[i]
  {
    var n, list := |keep|, Heads(x, required, s, i);
    assert Listed(x, required, s, i, n) && AreaShed(x, required, s, startDegree, drop, i);
    KeptOutOf(x, required, s, drop, keep, i);
    ListSet(list);
    var held, heads, shed := MarkedFrom(x.choices, required, i, n), AsSet(list), Mine(list, drop);
    hide MarkedFrom, GroupedSoFar, ShedSoFar, FirstPass, Heads;
    assert shed <= heads && |heads - shed| == |heads| - |shed|;
    assert held !! (heads - shed);
    assert |held + (heads - shed)| == |held| + |heads - shed|;
  }

  function Max0(e: int): nat {
    if e > 0 then e else 0
  }

  // ---- alternates ----

  /** Where the rounds stand: the counts are right and within the ceilings,
      the first pass's verdicts stand, and nothing of a shed route is kept. */
  ghost predicate Filled(x: Input, required: seq<bool>, s: Groups, drop: set<nat>, lim: seq<nat>,
                         keep: seq<bool>, degree: seq<nat>)
  {
    && |keep| == |required| == |s.rank| == |s.root| == |x.choices| && |degree| == |lim| == x.areas
    && (forall i :: 0 <= i < x.areas ==>
          degree[i] == Outgoing(x.shipped, i) + |MarkedFrom(x.choices, keep, i, |keep|)| <= lim[i])
    && (forall k :: 0 <= k < |keep| && FirstKept(required, s, drop, k) ==> keep[k])
    && (forall k :: 0 <= k < |keep| && keep[k] && !required[k] ==> s.root[k] !in drop)
  }

  /** Alternate k had its turn: it is kept, or its route is shed, or its area is
      full. */
  predicate HadTurn(x: Input, required: seq<bool>, s: Groups, drop: set<nat>, lim: seq<nat>,
                    keep: seq<bool>, degree: seq<nat>, k: nat)
    requires |keep| == |required| == |s.rank| == |s.root| == |x.choices| && |degree| == |lim| == x.areas
    requires k < |keep| && x.Named(x.choices[k])
  {
    keep[k] || s.root[k] in drop || degree[x.choices[k].start] >= lim[x.choices[k].start]
  }

  /** Everything before (round, at) had its turn, nothing after it is kept. */
  ghost predicate Turns(x: Input, required: seq<bool>, s: Groups, drop: set<nat>, lim: seq<nat>,
                        keep: seq<bool>, degree: seq<nat>, round: nat, at: nat)
    requires |keep| == |required| == |s.rank| == |s.root| == |x.choices| && |degree| == |lim| == x.areas
    requires AllNamed(x)
  {
    forall k :: 0 <= k < |keep| && !required[k] && s.rank[k] > 0 ==>
      if s.rank[k] < round || (s.rank[k] == round && k < at) then HadTurn(x, required, s, drop, lim, keep, degree, k)
      else !keep[k]
  }

  lemma KeepOne(choices: seq<Route>, keep: seq<bool>, k: nat, area: int)
    requires k < |keep| == |choices| && !keep[k]
    ensures |MarkedFrom(choices, keep[k := true], area, |keep|)| ==
            |MarkedFrom(choices, keep, area, |keep|)| + if choices[k].start == area then 1 else 0
  {
    assert MarkedFrom(choices, keep[k := true], area, |keep|) ==
           MarkedFrom(choices, keep, area, |keep|) + if choices[k].start == area then {k} else {};
  }

  lemma TakeTurn(x: Input, required: seq<bool>, s: Groups, drop: set<nat>, lim: seq<nat>,
                 keep: seq<bool>, degree: seq<nat>, round: nat, k: nat)
    requires AllNamed(x) && k < |keep| && Filled(x, required, s, drop, lim, keep, degree)
    requires Turns(x, required, s, drop, lim, keep, degree, round, k) && round > 0
    requires !required[k] && s.rank[k] == round && s.root[k] !in drop
    requires degree[x.choices[k].start] < lim[x.choices[k].start]
    ensures var start := x.choices[k].start;
            && Filled(x, required, s, drop, lim, keep[k := true], degree[start := degree[start] + 1])
            && Turns(x, required, s, drop, lim, keep[k := true], degree[start := degree[start] + 1], round, k + 1)
  {
    forall i ensures |MarkedFrom(x.choices, keep[k := true], i, |keep|)| ==
                     |MarkedFrom(x.choices, keep, i, |keep|)| + if x.choices[k].start == i then 1 else 0 {
      KeepOne(x.choices, keep, k, i);
    }
    hide MarkedFrom, Outgoing;
  }

  lemma PassTurn(x: Input, required: seq<bool>, s: Groups, drop: set<nat>, lim: seq<nat>,
                 keep: seq<bool>, degree: seq<nat>, round: nat, k: nat)
    requires AllNamed(x) && k < |keep| && Filled(x, required, s, drop, lim, keep, degree)
    requires Turns(x, required, s, drop, lim, keep, degree, round, k)
    requires !required[k] && s.rank[k] == round && s.root[k] !in drop ==> degree[x.choices[k].start] >= lim[x.choices[k].start]
    ensures Turns(x, required, s, drop, lim, keep, degree, round, k + 1)
  {
    hide Filled;
  }

  lemma NextRound(x: Input, required: seq<bool>, s: Groups, drop: set<nat>, lim: seq<nat>,
                  keep: seq<bool>, degree: seq<nat>, round: nat)
    requires AllNamed(x) && Filled(x, required, s, drop, lim, keep, degree)
    requires Turns(x, required, s, drop, lim, keep, degree, round, |keep|)
    ensures Turns(x, required, s, drop, lim, keep, degree, round + 1, 0)
  {
    hide Filled;
  }

  /** The rounds. */
  method Alternate(x: Input, required: seq<bool>, s: Groups, drop: set<nat>, lim: seq<nat>, maxRank: nat,
                   keep0: seq<bool>, degree0: seq<nat>)
    returns (keep: seq<bool>, degree: seq<nat>)
    requires AllNamed(x) && Filled(x, required, s, drop, lim, keep0, degree0)
    requires Turns(x, required, s, drop, lim, keep0, degree0, 1, 0)
    ensures Filled(x, required, s, drop, lim, keep, degree)
    ensures Turns(x, required, s, drop, lim, keep, degree, if maxRank + 1 < LIMIT then maxRank + 1 else LIMIT, 0)
  {
    keep, degree := keep0, degree0;
    var round: nat := 1;
    hide Filled, Turns;
    if maxRank == 0 {
      return;
    }
    while round <= maxRank && round < LIMIT
      invariant 1 <= round <= maxRank + 1 && round <= LIMIT
      invariant Filled(x, required, s, drop, lim, keep, degree)
      invariant Turns(x, required, s, drop, lim, keep, degree, round, 0)
    {
      var k: nat := 0;
      FilledSizes(x, required, s, drop, lim, keep, degree);
      while k < |x.choices|
        invariant k <= |x.choices| && Filled(x, required, s, drop, lim, keep, degree)
        invariant Turns(x, required, s, drop, lim, keep, degree, round, k)
      {
        FilledSizes(x, required, s, drop, lim, keep, degree);
        var start := x.choices[k].start;
        if !required[k] && s.rank[k] == round && s.root[k] !in drop && degree[start] < lim[start] {
          TakeTurn(x, required, s, drop, lim, keep, degree, round, k);
          degree := degree[start := degree[start] + 1];
          keep := keep[k := true];
        } else {
          PassTurn(x, required, s, drop, lim, keep, degree, round, k);
        }
        k := k + 1;
      }
      FilledSizes(x, required, s, drop, lim, keep, degree);
      NextRound(x, required, s, drop, lim, keep, degree, round);
      round := round + 1;
    }
  }

  lemma FilledSizes(x: Input, required: seq<bool>, s: Groups, drop: set<nat>, lim: seq<nat>, keep: seq<bool>, degree: seq<nat>)
    requires Filled(x, required, s, drop, lim, keep, degree)
    ensures |keep| == |required| == |s.rank| == |s.root| == |x.choices| && |degree| == |lim| == x.areas
  {
  }
}
