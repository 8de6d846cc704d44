/**
 aug_budget_traversals as a whole (src/backend/aas_augment.c:3123-3375): the
 choices, the phases in order, and the compaction in place.
 */
module RouteCap {
  import opened Routes
  import opened RouteBudget
  import opened RouteGroups
  import opened RouteShed
  import opened RouteFill

  /** The routes rs[k], k < n, whose choice offset + k is kept. */
  function Selected(rs: seq<Route>, keep: seq<bool>, offset: nat, n: nat): (r: seq<Route>)
    requires n <= |rs| && offset + n <= |keep|
    ensures |r| <= n
  {
    if n == 0 then []
    else Selected(rs, keep, offset, n - 1) + if keep[offset + n - 1] then [rs[n - 1]] else []
  }

  /** A shipped or basic route record has no demon, animation or points here. */
  function Bare(r: Route): Route {
    Route(r.start, r.end, r.flags, 0, "", false, 0.0, 0.0, true)
  }

  function Usable(routes: seq<Route>): (r: seq<Route>)
    ensures |r| <= |routes|
    ensures forall x :: x in r ==> x.usable
  {
    if routes == [] then []
    else
      var last := routes[|routes| - 1];
      Usable(routes[..|routes| - 1]) + if last.usable then [last] else []
  }

  function Choices(records: seq<Route>, original: nat, routes: seq<Route>): seq<Route>
    requires original <= |records|
  {
    seq(|records| - original, i requires 0 <= i < |records| - original => Bare(records[original + i])) + Usable(routes)
  }

  function InputOf(records: seq<Route>, original: nat, routes: seq<Route>, areas: nat, floorEnd: nat,
                   option: int, sources: nat, source: int -> int): (x: Input)
    requires original <= |records|
    ensures x.Valid()
  {
    Input(records[..original], Choices(records, original, routes), |records| - original, areas, floorEnd,
          if 0 < option < LIMIT then option else LIMIT, sources, source)
  }

  /** Everything the pass decided. */
  datatype Decision = Decision(required: seq<bool>, s: Groups, startDegree: seq<nat>, drop: set<nat>,
                               keep: seq<bool>, degree: seq<nat>)

  /** The decision is right for the input. */
  ghost predicate Decided(x: Input, d: Decision) {
    && x.Valid() && AllNamed(x) && ShippedFit(x.shipped, x.areas) && Protection(x, d.required)
    && GroupedSoFar(x, d.required, d.s, |x.choices|)
    && |d.startDegree| == |d.degree| == x.areas
    && (forall i :: 0 <= i < x.areas ==>
          d.startDegree[i] == Outgoing(x.shipped, i) + |MarkedFrom(x.choices, d.required, i, |d.required|)| <= LIMIT)
    && ShedSoFar(x, d.required, d.s, d.startDegree, d.drop, x.areas)
    && Filled(x, d.required, d.s, d.drop, Limits(x, d.startDegree), d.keep, d.degree)
    && Turns(x, d.required, d.s, d.drop, Limits(x, d.startDegree), d.keep, d.degree, LIMIT, 0)
  }

  function Limits(x: Input, degree: seq<nat>): (lim: seq<nat>)
    ensures |lim| == |degree| && forall i :: 0 <= i < |lim| ==> lim[i] == Ceiling(x, degree[i])
  {
    seq(|degree|, i requires 0 <= i < |degree| => Ceiling(x, degree[i]))
  }

  // ---- the phases in order ----

  /** After the first pass every area is within its ceiling. */
  lemma FirstPassFits(x: Input, required: seq<bool>, s: Groups, startDegree: seq<nat>, drop: set<nat>,
                      keep: seq<bool>, degree: seq<nat>)
    requires AllNamed(x) && GroupedSoFar(x, required, s, |x.choices|) && ShedSoFar(x, required, s, startDegree, drop, x.areas)
    requires |keep| == |x.choices| && |degree| == |startDegree| == x.areas
    requires forall i :: 0 <= i < x.areas ==>
      startDegree[i] == Outgoing(x.shipped, i) + |MarkedFrom(x.choices, required, i, |required|)|
    requires forall k :: 0 <= k < |keep| ==> (keep[k] <==> FirstKept(required, s, drop, k))
    requires forall i :: 0 <= i < x.areas ==> Holding(x, required, keep, degree[i], i, |keep|, startDegree[i])
    ensures Filled(x, required, s, drop, Limits(x, startDegree), keep, degree)
    ensures Turns(x, required, s, drop, Limits(x, startDegree), keep, degree, 1, 0)
  {
    hide ShedSoFar, Outgoing, MarkedFrom;
    forall k: nat | k < |keep| && Head(required, s.rank, k) ensures s.root[k] == k {
      HeadIsRoot(x, required, s, k);
    }
    assert FirstPass(required, s, drop, keep);
    hide GroupedSoFar, FirstPass;
    forall i | 0 <= i < x.areas
      ensures degree[i] == Outgoing(x.shipped, i) + |MarkedFrom(x.choices, keep, i, |keep|)| <= Limits(x, startDegree)[i]
    {
      FirstKeptCount(x, required, s, startDegree, drop, keep, i);
      assert Holding(x, required, keep, degree[i], i, |keep|, startDegree[i]);
    }
  }

  /** Ranks at the engine's limit never get a turn, so the rounds may end. */
  lemma RoundsDone(x: Input, required: seq<bool>, s: Groups, drop: set<nat>, lim: seq<nat>,
                   keep: seq<bool>, degree: seq<nat>, maxRank: nat)
    requires AllNamed(x) && Filled(x, required, s, drop, lim, keep, degree)
    requires forall k :: 0 <= k < |s.rank| ==> s.rank[k] <= maxRank
    requires Turns(x, required, s, drop, lim, keep, degree, if maxRank + 1 < LIMIT then maxRank + 1 else LIMIT, 0)
    ensures Turns(x, required, s, drop, lim, keep, degree, LIMIT, 0)
  {
    FilledSizes(x, required, s, drop, lim, keep, degree);
    hide Filled, HadTurn;
  }

  /** Why the pass refuses. */
  ghost predicate Refuses(x: Input)
    requires x.Valid()
  {
    !ShippedFit(x.shipped, x.areas) || !WalksNamed(x) || !AllNamed(x)
  }

  /** The phases in order: which choices are kept. */
  method Decide(x: Input, hash: Route -> nat) returns (d: Decision, ok: bool, full: int)
    requires x.Valid() && HashesKeys(hash)
    ensures ok <==> !Refuses(x)
    ensures ok ==> Decided(x, d)
    ensures !ok ==> (full < 0 || full >= x.areas || Outgoing(x.shipped, full) > LIMIT)
  {
    hide *;
    d := Decision([], Groups([], [], [], [], []), [], {}, [], []);
    var shippedDegree;
    shippedDegree, ok, full := CountShipped(x.shipped, x.areas);
    if !ok {
      Refused(x);
      return;
    }
    var required, startDegree;
    required, startDegree, ok, full := Protect(x, shippedDegree);
    if !ok {
      Refused(x);
      return;
    }
    ProtectionSize(x, required);
    var s, maxRank;
    s, maxRank, ok, full := Distinguish(x, required, hash);
    Refused(x);
    if !ok {
      return;
    }
    GroupSizes(x, required, s);
    var drop := ShedAll(x, required, s, startDegree);
    var keep, degree := KeepFirst(x, required, s, drop, startDegree);
    FirstPassFits(x, required, s, startDegree, drop, keep, degree);
    keep, degree := Alternate(x, required, s, drop, Limits(x, startDegree), maxRank, keep, degree);
    RoundsDone(x, required, s, drop, Limits(x, startDegree), keep, degree, maxRank);
    d := Decision(required, s, startDegree, drop, keep, degree);
    AllDecided(x, d);
  }

  lemma Refused(x: Input)
    requires x.Valid()
    ensures Refuses(x) <==> !ShippedFit(x.shipped, x.areas) || !WalksNamed(x) || !AllNamed(x)
  {
  }

  lemma ProtectionSize(x: Input, required: seq<bool>)
    requires x.Valid() && Protection(x, required)
    ensures |required| == |x.choices|
  {
  }

  lemma GroupSizes(x: Input, required: seq<bool>, s: Groups)
    requires GroupedSoFar(x, required, s, |x.choices|)
    ensures |required| == |s.rank| == |s.root| == |x.choices| && |s.need| == x.areas
  {
  }

  lemma AllDecided(x: Input, d: Decision)
    requires x.Valid() && AllNamed(x) && ShippedFit(x.shipped, x.areas) && Protection(x, d.required)
    requires GroupedSoFar(x, d.required, d.s, |x.choices|)
    requires |d.startDegree| == x.areas
    requires forall i :: 0 <= i < x.areas ==>
      d.startDegree[i] == Outgoing(x.shipped, i) + |MarkedFrom(x.choices, d.required, i, |d.required|)| <= LIMIT
    requires ShedSoFar(x, d.required, d.s, d.startDegree, d.drop, x.areas)
    requires Filled(x, d.required, d.s, d.drop, Limits(x, d.startDegree), d.keep, d.degree)
    requires Turns(x, d.required, d.s, d.drop, Limits(x, d.startDegree), d.keep, d.degree, LIMIT, 0)
    ensures Decided(x, d)
  {
    hide ShippedFit, Protection, GroupedSoFar, ShedSoFar, Turns, MarkedFrom, Outgoing;
  }

  // ---- compaction ----

  /** The reachability lump: shipped records, then the basic ones. */
  class ReachLump {
    var records: seq<Route>

    constructor (records: seq<Route>)
      ensures this.records == records
    {
      this.records := records;
    }

    /** Move the kept basic records down and cut the lump. */
    method Compact(original: nat, keep: seq<bool>)
      requires original <= |records| && |records| - original <= |keep|
      modifies this
      ensures records == old(records[..original]) + Selected(old(records[original..]), keep, 0, |old(records)| - original)
    {
      ghost var was := records;
      ghost var basic := records[original..];
      var nb := |records| - original;
      var i, nr := 0, original;
      while i < nb
        invariant 0 <= i <= nb && original <= nr <= original + i && |records| == |was|
        invariant records[..nr] == was[..original] + Selected(basic, keep, 0, i)
        invariant records[original + i..] == was[original + i..]
      {
        assert records[original + i] == records[original + i..][0] == was[original + i] == basic[i];
        assert was[original + i + 1..] == was[original + i..][1..];
        if keep[i] {
          var moved := records[original + i];
          if nr != original + i {
            records := records[nr := moved];
          }
          assert records[..nr + 1] == records[..nr] + [moved];
          nr := nr + 1;
        }
        i := i + 1;
      }
      records := records[..nr];
    }
  }

  /** Write the kept collected routes back to the front of the array. */
  method WriteBack(routes: array<Route>, chosen: seq<Route>, keep: seq<bool>, offset: nat) returns (written: nat)
    requires |chosen| <= routes.Length && offset + |chosen| <= |keep|
    modifies routes
    ensures written <= |chosen| && routes[..written] == Selected(chosen, keep, offset, |chosen|)
    ensures routes[|chosen|..] == old(routes[|chosen|..])
  {
    written := 0;
    var k := 0;
    while k < |chosen|
      invariant 0 <= written <= k <= |chosen|
      invariant routes[..written] == Selected(chosen, keep, offset, k)
      invariant forall i :: k <= i < routes.Length ==> routes[i] == old(routes[i])
    {
      if keep[offset + k] {
        routes[written] := chosen[k];
        written := written + 1;
        assert routes[..written] == routes[..written - 1] + [chosen[k]];
      }
      k := k + 1;
    }
  }

  method CollectUsable(routes: array<Route>, n: nat) returns (chosen: seq<Route>)
    requires n <= routes.Length
    ensures chosen == Usable(routes[..n])
  {
    chosen := [];
    var k := 0;
    while k < n
      invariant 0 <= k <= n && chosen == Usable(routes[..k])
    {
      assert routes[..k + 1][..k] == routes[..k];
      if routes[k].usable {
        chosen := chosen + [routes[k]];
      }
      k := k + 1;
    }
  }

  /** The basic records leave the same areas as the basic choices. */
  ghost predicate SameStarts(x: Input, basic: seq<Route>) {
    x.basic <= |x.choices| && |basic| == x.basic && forall k :: 0 <= k < x.basic ==> basic[k].start == x.choices[k].start
  }

  /** What the pass leaves when it does not refuse. */
  ghost predicate Capped(x: Input, d: Decision, basic: seq<Route>, records: seq<Route>, written: seq<Route>) {
    && Decided(x, d) && SameStarts(x, basic) && |d.keep| == |x.choices|
    && records == x.shipped + Selected(basic, d.keep, 0, |basic|)
    && written == Selected(x.choices[x.basic..], d.keep, x.basic, |x.choices| - x.basic)
  }

  /** The compaction of both lists. */
  method Apply(m: ReachLump, original: nat, routes: array<Route>, chosen: seq<Route>, x: Input, d: Decision)
    returns (written: nat)
    requires original <= |m.records| && |chosen| <= routes.Length && Decided(x, d) && SameStarts(x, m.records[original..])
    requires x.choices[x.basic..] == chosen && x.shipped == m.records[..original]
    modifies m, routes
    ensures written <= |chosen| && routes[|chosen|..] == old(routes[|chosen|..])
    ensures Capped(x, d, old(m.records[original..]), m.records, routes[..written])
  {
    hide *;
    DecisionSize(x, d);
    SameStartsSize(x, m.records[original..]);
    AllCapped(x, d, m.records[original..], chosen);
    m.Compact(original, d.keep);
    written := WriteBack(routes, chosen, d.keep, x.basic);
  }

  lemma BasicsMatch(records: seq<Route>, original: nat, routes: seq<Route>, areas: nat, floorEnd: nat,
                    option: int, sources: nat, source: int -> int, chosen: seq<Route>)
    requires original <= |records| && chosen == Usable(routes)
    ensures var x := InputOf(records, original, routes, areas, floorEnd, option, sources, source);
            && SameStarts(x, records[original..]) && x.areas == areas && x.shipped == records[..original]
            && x.basic == |records| - original <= |x.choices| && x.choices[x.basic..] == chosen
            && |chosen| <= |routes|
  {
    var choices := Choices(records, original, routes);
    assert forall k :: 0 <= k < |records| - original ==> choices[k] == Bare(records[original + k]);
  }

  lemma AllCapped(x: Input, d: Decision, basic: seq<Route>, chosen: seq<Route>)
    requires SameStarts(x, basic) && x.choices[x.basic..] == chosen && |d.keep| == |x.choices|
    ensures x.basic + |chosen| == |x.choices| && |basic| == x.basic
    ensures Decided(x, d) ==>
      Capped(x, d, basic, x.shipped + Selected(basic, d.keep, 0, |basic|), Selected(chosen, d.keep, x.basic, |chosen|))
  {
    hide Decided;
  }

  lemma SameStartsSize(x: Input, basic: seq<Route>)
    requires SameStarts(x, basic)
    ensures x.basic == |basic| <= |x.choices|
  {
  }

  lemma DecisionSize(x: Input, d: Decision)
    requires Decided(x, d)
    ensures |d.keep| == |x.choices|
  {
  }
}
