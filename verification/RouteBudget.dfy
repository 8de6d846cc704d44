/**
 Fitting the routes out of every area under the engine's limit
 (src/backend/aas_augment.c:3123-3344).

 The shipped routes stay, walks between the pieces of a cut floor are protected,
 and of the rest every distinct route keeps one representative before any gets an
 alternate. An area with too many distinct routes sheds exactly its excess.
 */
module RouteBudget {
  import opened Routes
  import opened Sorting

  /** Routes out of one area that the engine takes (src/backend/navmesh.h:22). */
  const LIMIT: nat := 256

  const WALK: int := 0x20

  /** choices are the basic routes after the shipped ones, then the usable
      collected routes. source tells which requested box an area came from, or
      is negative. */
  datatype Input = Input(shipped: seq<Route>, choices: seq<Route>, basic: nat, areas: nat, floorEnd: nat,
                         budget: nat, sources: nat, source: int -> int)
  {
    ghost predicate Valid() {
      basic <= |choices| && 0 < budget <= LIMIT
    }

    predicate FloorWalk(r: Route) {
      r.flags == WALK && 0 <= r.start < floorEnd && 0 <= r.end < floorEnd
    }

    predicate Named(r: Route) {
      0 <= r.start < areas
    }

    /** The box a route counts against, `sources` for none. */
    function SourceOf(k: nat): nat
      requires k < |choices|
    {
      var s := if source(choices[k].end) >= 0 then source(choices[k].end) else source(choices[k].start);
      if s < 0 || s >= sources then sources else s
    }
  }

  /** Routes out of one area. */
  function Outgoing(routes: seq<Route>, area: int): nat {
    if routes == [] then 0
    else Outgoing(routes[..|routes| - 1], area) + if routes[|routes| - 1].start == area then 1 else 0
  }

  lemma OutgoingOne(routes: seq<Route>, k: nat, area: int)
    requires k < |routes|
    ensures Outgoing(routes[..k + 1], area) == Outgoing(routes[..k], area) + if routes[k].start == area then 1 else 0
  {
    assert routes[..k + 1][..k] == routes[..k];
  }

  lemma {:induction false} OutgoingGrows(routes: seq<Route>, k: nat, area: int)
    requires k <= |routes|
    ensures Outgoing(routes[..k], area) <= Outgoing(routes, area)
    decreases |routes| - k
  {
    if k < |routes| {
      OutgoingOne(routes, k, area);
      OutgoingGrows(routes, k + 1, area);
    } else {
      assert routes[..k] == routes;
    }
  }

  // ---- shipped routes ----

  predicate ShippedFit(routes: seq<Route>, areas: nat) {
    && (forall r :: r in routes ==> 0 <= r.start < areas)
    && forall i :: 0 <= i < areas ==> Outgoing(routes, i) <= LIMIT
  }

  /** Count the shipped routes; full is the area that refuses. */
  method CountShipped(routes: seq<Route>, areas: nat) returns (degree: seq<nat>, ok: bool, full: int)
    ensures ok <==> ShippedFit(routes, areas)
    ensures ok ==> |degree| == areas && forall i :: 0 <= i < areas ==> degree[i] == Outgoing(routes, i) <= LIMIT
    ensures !ok ==> (exists r :: r in routes && r.start == full) && (0 <= full < areas ==> Outgoing(routes, full) > LIMIT)
  {
    degree, ok, full := seq(areas, i => 0), true, -1;
    var k := 0;
    while k < |routes|
      invariant 0 <= k <= |routes| && |degree| == areas
      invariant forall i :: 0 <= i < areas ==> degree[i] == Outgoing(routes[..k], i) <= LIMIT
      invariant forall r :: r in routes[..k] ==> 0 <= r.start < areas
    {
      var start := routes[k].start;
      assert routes[k] in routes;
      forall i | 0 <= i < areas ensures Outgoing(routes[..k + 1], i) == degree[i] + if start == i then 1 else 0 {
        OutgoingOne(routes, k, i);
      }
      if !(0 <= start < areas) {
        ok, full := false, start;
        return;
      }
      degree := degree[start := degree[start] + 1];
      if degree[start] > LIMIT {
        OutgoingGrows(routes, k + 1, start);
        ok, full := false, start;
        return;
      }
      k := k + 1;
    }
    assert routes[..k] == routes;
  }

  // ---- protected walks ----

  /** The routes among the first n that are marked and leave an area. */
  ghost function MarkedFrom(choices: seq<Route>, marked: seq<bool>, area: int, n: nat): set<nat>
    requires |marked| <= |choices| && n <= |marked|
  {
    set k: nat | k < n && marked[k] && choices[k].start == area
  }

  /** Floor walks are protected while their area is within the limit. */
  ghost predicate Protection(x: Input, required: seq<bool>)
    requires x.Valid()
  {
    && |required| == |x.choices|
    && (forall k :: x.basic <= k < |x.choices| ==> !required[k])
    && forall k: nat :: k < x.basic ==> (required[k] <==> Deserves(x, required, k))
  }

  ghost predicate Deserves(x: Input, required: seq<bool>, k: nat)
    requires k <= |required| <= |x.choices| && k < |x.choices|
  {
    && x.FloorWalk(x.choices[k])
    && Outgoing(x.shipped, x.choices[k].start) + |MarkedFrom(x.choices, required, x.choices[k].start, k)| < LIMIT
  }

  lemma MarkOne(choices: seq<Route>, marked: seq<bool>, area: int, n: nat, b: bool)
    requires n == |marked| < |choices|
    ensures MarkedFrom(choices, marked + [b], area, n) == MarkedFrom(choices, marked, area, n)
    ensures |MarkedFrom(choices, marked + [b], area, n + 1)| ==
            |MarkedFrom(choices, marked, area, n)| + if b && choices[n].start == area then 1 else 0
  {
    assert MarkedFrom(choices, marked + [b], area, n + 1) ==
           MarkedFrom(choices, marked, area, n) + if b && choices[n].start == area then {n} else {};
  }

  lemma MarkedPrefix(choices: seq<Route>, marked: seq<bool>, longer: seq<bool>, area: int, n: nat)
    requires n <= |marked| && marked <= longer && |longer| <= |choices|
    ensures MarkedFrom(choices, longer, area, n) == MarkedFrom(choices, marked, area, n)
  {
  }

  /** The verdicts on the first basic routes. */
  ghost predicate ProtectedSoFar(x: Input, required: seq<bool>, degree: seq<nat>)
    requires x.Valid()
  {
    && |required| <= x.basic && |degree| == x.areas
    && (forall k: nat :: k < |required| ==> (required[k] <==> Deserves(x, required, k)))
    && forall i :: 0 <= i < x.areas ==>
         degree[i] == Outgoing(x.shipped, i) + |MarkedFrom(x.choices, required, i, |required|)| <= LIMIT
  }

  lemma MarkEverywhere(x: Input, required: seq<bool>, b: bool)
    requires |required| < |x.choices|
    ensures var n := |required|;
            && (forall i :: |MarkedFrom(x.choices, required + [b], i, n + 1)| ==
                            |MarkedFrom(x.choices, required, i, n)| + if b && x.choices[n].start == i then 1 else 0)
            && forall k: nat :: k <= n ==> (Deserves(x, required + [b], k) <==> Deserves(x, required, k))
  {
    var n := |required|;
    forall i ensures |MarkedFrom(x.choices, required + [b], i, n + 1)| ==
                     |MarkedFrom(x.choices, required, i, n)| + if b && x.choices[n].start == i then 1 else 0 {
      MarkOne(x.choices, required, i, n, b);
    }
    forall k: nat | k <= n ensures Deserves(x, required + [b], k) <==> Deserves(x, required, k) {
      MarkedPrefix(x.choices, required, required + [b], x.choices[k].start, k);
    }
  }

  lemma ProtectOne(x: Input, required: seq<bool>, degree: seq<nat>, b: bool, degree': seq<nat>)
    requires x.Valid() && ProtectedSoFar(x, required, degree) && |required| < x.basic
    requires var r := x.choices[|required|];
             if x.FloorWalk(r) then x.Named(r) && (b <==> degree[r.start] < LIMIT) else !b
    requires |degree'| == |degree|
    requires forall i :: 0 <= i < |degree| ==> degree'[i] == degree[i] + if b && x.choices[|required|].start == i then 1 else 0
    ensures ProtectedSoFar(x, required + [b], degree')
  {
    hide MarkedFrom, Outgoing, Deserves;
    var n, required' := |required|, required + [b];
    MarkEverywhere(x, required, b);
    NextDeserves(x, required, degree, b);
    forall k: nat | k < |required'|
      ensures required'[k] <==> Deserves(x, required', k)
    {
      assert k < n ==> required'[k] == required[k];
    }
  }

  lemma NextDeserves(x: Input, required: seq<bool>, degree: seq<nat>, b: bool)
    requires x.Valid() && ProtectedSoFar(x, required, degree) && |required| < x.basic
    requires var r := x.choices[|required|];
             if x.FloorWalk(r) then x.Named(r) && (b <==> degree[r.start] < LIMIT) else !b
    ensures b <==> Deserves(x, required, |required|)
    ensures b ==> 0 <= x.choices[|required|].start < x.areas && degree[x.choices[|required|].start] < LIMIT
  {
    hide MarkedFrom, Outgoing;
  }

  ghost predicate WalksNamed(x: Input)
    requires x.Valid()
  {
    forall k :: 0 <= k < x.basic && x.FloorWalk(x.choices[k]) ==> x.Named(x.choices[k])
  }

  /** degree counts the shipped routes on entry, also the protected ones on
      return. */
  method Protect(x: Input, shippedDegree: seq<nat>) returns (required: seq<bool>, degree: seq<nat>, ok: bool, full: int)
    requires x.Valid() && |shippedDegree| == x.areas
    requires forall i :: 0 <= i < x.areas ==> shippedDegree[i] == Outgoing(x.shipped, i) <= LIMIT
    ensures ok <==> WalksNamed(x)
    ensures ok ==> Protection(x, required) && |degree| == x.areas
    ensures ok ==> forall i :: 0 <= i < x.areas ==>
      degree[i] == Outgoing(x.shipped, i) + |MarkedFrom(x.choices, required, i, |required|)| <= LIMIT
    ensures !ok ==> full >= x.areas && exists k :: 0 <= k < x.basic && x.choices[k].start == full
  {
    required, degree, ok, full := [], shippedDegree, true, -1;
    NoneProtected(x, degree);
    hide Protection, Deserves, MarkedFrom, Outgoing;
    while |required| < x.basic
      invariant |required| <= x.basic && ProtectedSoFar(x, required, degree)
      invariant forall k :: 0 <= k < |required| && x.FloorWalk(x.choices[k]) ==> x.Named(x.choices[k])
    {
      var r := x.choices[|required|];
      var protect := false;
      if x.FloorWalk(r) {
        if r.start >= x.areas {
          ok, full := false, r.start;
          return;
        }
        protect := degree[r.start] < LIMIT;
      }
      ghost var before := degree;
      if protect {
        degree := degree[r.start := degree[r.start] + 1];
      }
      ProtectOne(x, required, before, protect, degree);
      required := required + [protect];
    }
    ghost var basics := required;
    required := required + seq(|x.choices| - x.basic, i => false);
    AllProtected(x, basics, degree, required);
  }

  lemma NoneProtected(x: Input, degree: seq<nat>)
    requires x.Valid() && |degree| == x.areas
    requires forall i :: 0 <= i < x.areas ==> degree[i] == Outgoing(x.shipped, i) <= LIMIT
    ensures ProtectedSoFar(x, [], degree)
  {
    forall i ensures MarkedFrom(x.choices, [], i, 0) == {} {
    }
  }

  lemma AllProtected(x: Input, basics: seq<bool>, degree: seq<nat>, required: seq<bool>)
    requires x.Valid() && ProtectedSoFar(x, basics, degree) && |basics| == x.basic
    requires required == basics + seq(|x.choices| - x.basic, i => false)
    ensures Protection(x, required)
    ensures forall i :: 0 <= i < x.areas ==>
      degree[i] == Outgoing(x.shipped, i) + |MarkedFrom(x.choices, required, i, |required|)| <= LIMIT
  {
    forall k: nat | k < x.basic
      ensures MarkedFrom(x.choices, required, x.choices[k].start, k) == MarkedFrom(x.choices, basics, x.choices[k].start, k)
    {
      MarkedPrefix(x.choices, basics, required, x.choices[k].start, k);
    }
    forall i ensures MarkedFrom(x.choices, required, i, |required|) == MarkedFrom(x.choices, basics, i, |basics|) {
    }
  }
}
