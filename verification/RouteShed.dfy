/**
 Giving up routes out of an area that has too many
 (src/backend/aas_augment.c:3235-3311). Under a payload budget the longest go
 first; at the engine's limit the box that contributes most gives up its latest,
 then the next.
 */
module RouteShed {
  import opened Routes
  import opened Sorting
  import opened RouteBudget

  predicate Ascending(list: seq<nat>) {
    forall i, j :: 0 <= i < j < |list| ==> list[i] < list[j]
  }

  ghost predicate ListOf(x: Input, list: seq<nat>) {
    Ascending(list) && forall k :: k in list ==> k < |x.choices|
  }

  // ---- a payload budget: longest first ----

  datatype Span = Span(span: real, k: nat)

  predicate LongestFirst(a: Span, b: Span) {
    if a.span != b.span then a.span > b.span else a.k > b.k
  }

  /** Walk links go last. */
  function SpanOf(x: Input, k: nat): Span
    requires k < |x.choices|
  {
    Span(if k < x.basic then -1.0 else x.choices[k].span, k)
  }

  ghost predicate LongestGo(x: Input, list: seq<nat>, dropped: set<nat>)
    requires ListOf(x, list)
  {
    forall a, b :: a in list && b in list && a in dropped && b !in dropped ==> LongestFirst(SpanOf(x, a), SpanOf(x, b))
  }

  /** The indices of the first d entries. */
  function FirstKeys(order: seq<Span>, d: nat): set<nat>
    requires d <= |order|
  {
    if d == 0 then {} else FirstKeys(order, d - 1) + {order[d - 1].k}
  }

  ghost predicate KeyAmong(order: seq<Span>, d: nat, k: nat)
    requires d <= |order|
  {
    exists i :: 0 <= i < d && order[i].k == k
  }

  lemma KeyAmongNext(order: seq<Span>, d: nat, k: nat)
    requires d < |order|
    ensures KeyAmong(order, d + 1, k) <==> KeyAmong(order, d, k) || order[d].k == k
  {
    if KeyAmong(order, d, k) {
      var i :| 0 <= i < d && order[i].k == k;
      assert 0 <= i < d + 1 && order[i].k == k;
    }
  }

  lemma {:induction false} FirstKeysAre(order: seq<Span>, d: nat)
    requires d <= |order| && forall i, j :: 0 <= i < j < |order| ==> order[i].k != order[j].k
    ensures |FirstKeys(order, d)| == d
    ensures forall k :: k in FirstKeys(order, d) <==> KeyAmong(order, d, k)
  {
    hide *;
    if d == 0 {
      NoKeys(order);
    } else {
      FirstKeysAre(order, d - 1);
      KeyOneMore(order, d - 1);
      NotAmong(order, d - 1);
      forall k
        ensures KeyAmong(order, d, k) <==> KeyAmong(order, d - 1, k) || order[d - 1].k == k
      {
        KeyAmongNext(order, d - 1, k);
      }
    }
  }

  lemma NotAmong(order: seq<Span>, d: nat)
    requires d < |order| && forall i, j :: 0 <= i < j < |order| ==> order[i].k != order[j].k
    ensures !KeyAmong(order, d, order[d].k)
  {
  }

  /** The spans of the listed routes. */
  function SpansIn(x: Input, list: seq<nat>): (spans: seq<Span>)
    requires ListOf(x, list)
    ensures |spans| == |list| && forall i :: 0 <= i < |list| ==> list[i] < |x.choices| && spans[i] == SpanOf(x, list[i])
  {
    assert forall i :: 0 <= i < |list| ==> list[i] in list;
    seq(|list|, i requires 0 <= i < |list| => SpanOf(x, list[i]))
  }

  /** Exactly the excess goes, and none that stays comes before one that went in the order longest first. */
  method ShedLongest(x: Input, list: seq<nat>, excess: nat) returns (dropped: set<nat>)
    requires ListOf(x, list) && excess <= |list|
    ensures |dropped| == excess && (forall k :: k in dropped ==> k in list) && LongestGo(x, list, dropped)
  {
    hide *;
    var spans := SpansIn(x, list);
    var order := Sort(LongestFirst, spans);
    SpanOrder(x, list, spans);
    dropped := {};
    var d := 0;
    assert dropped == FirstKeys(order, 0) by { NoKeys(order); }
    while d < excess
      invariant 0 <= d <= excess && dropped == FirstKeys(order, d)
    {
      KeyOneMore(order, d);
      dropped := dropped + {order[d].k};
      d := d + 1;
    }
    LongestWent(x, list, spans, order, d);
  }

  lemma NoKeys(order: seq<Span>)
    ensures FirstKeys(order, 0) == {} && forall k :: !KeyAmong(order, 0, k)
  {
  }

  lemma KeyOneMore(order: seq<Span>, d: nat)
    requires d < |order|
    ensures FirstKeys(order, d + 1) == FirstKeys(order, d) + {order[d].k}
  {
  }

  ghost predicate SpansOf(x: Input, list: seq<nat>, spans: seq<Span>, order: seq<Span>)
    requires ListOf(x, list)
  {
    && |order| == |list| && InOrder(LongestFirst, order)
    && (forall s :: s in order <==> s in spans)
    && (forall k :: k in list ==> SpanOf(x, k) in spans)
    && (forall s :: s in spans ==> s.k in list && s == SpanOf(x, s.k))
    && (forall i, j :: 0 <= i < j < |order| ==> order[i].k != order[j].k)
  }

  /** No route that stays is longer than one that went. */
  lemma LongestWent(x: Input, list: seq<nat>, spans: seq<Span>, order: seq<Span>, d: nat)
    requires ListOf(x, list) && SpansOf(x, list, spans, order) && d <= |order|
    ensures var dropped := FirstKeys(order, d);
            |dropped| == d && (forall k :: k in dropped ==> k in list) && LongestGo(x, list, dropped)
  {
    var dropped := FirstKeys(order, d);
    FirstKeysAre(order, d);
    forall k | k in dropped ensures k in list {
      var i :| 0 <= i < d && order[i].k == k;
      assert order[i] in spans;
    }
    forall a, b | a in list && b in list && a in dropped && b !in dropped
      ensures LongestFirst(SpanOf(x, a), SpanOf(x, b))
    {
      var i :| 0 <= i < d && order[i].k == a;
      assert order[i] in spans && SpanOf(x, b) in spans;
      var j :| 0 <= j < |order| && order[j] == SpanOf(x, b);
      assert order[i] == SpanOf(x, a) && !LongestFirst(order[j], order[i]);
    }
  }

  lemma SpansAreOf(x: Input, list: seq<nat>, spans: seq<Span>)
    requires ListOf(x, list) && |spans| == |list|
    requires forall i :: 0 <= i < |list| ==> list[i] < |x.choices| && spans[i] == SpanOf(x, list[i])
    ensures (forall k :: k in list ==> SpanOf(x, k) in spans) && NoRepeats(spans)
    ensures forall s :: s in spans ==> s.k in list && s == SpanOf(x, s.k)
  {
    forall k | k in list ensures SpanOf(x, k) in spans {
      var i :| 0 <= i < |list| && list[i] == k;
      assert spans[i] == SpanOf(x, k);
    }
    forall s | s in spans ensures s.k in list && s == SpanOf(x, s.k) {
      var i :| 0 <= i < |spans| && spans[i] == s;
    }
  }

  lemma SpanOrder(x: Input, list: seq<nat>, spans: seq<Span>)
    requires ListOf(x, list) && |spans| == |list|
    requires forall i :: 0 <= i < |list| ==> list[i] < |x.choices| && spans[i] == SpanOf(x, list[i])
    ensures SpansOf(x, list, spans, Sort(LongestFirst, spans))
  {
    SpansAreOf(x, list, spans);
    SpansHaveOrder();
    SortInOrder(LongestFirst, spans);
    SortedSpans(spans, Sort(LongestFirst, spans));
  }

  lemma SortedSpans(spans: seq<Span>, order: seq<Span>)
    requires multiset(spans) == multiset(order) && NoRepeats(spans)
    requires forall s, u :: s in spans && u in spans && s.k == u.k ==> s == u
    ensures forall s :: s in order <==> s in spans
    ensures forall i, j :: 0 <= i < j < |order| ==> order[i].k != order[j].k
  {
    SameElements(spans, order);
    PermutationRepeatsNothing(spans, order);
    forall i, j | 0 <= i < j < |order| ensures order[i].k != order[j].k {
      assert order[i] in spans && order[j] in spans;
    }
  }

  lemma SpansHaveOrder()
    ensures Order(LongestFirst)
  {
  }

  // ---- the engine's limit: box by box ----

  /** The routes that still count against box s. */
  ghost function Against(x: Input, list: seq<nat>, dropped: set<nat>, s: nat): set<nat> {
    set k | k in list && k < |x.choices| && k !in dropped && x.SourceOf(k) == s
  }

  /** One box gives up a route and another keeps one: the first contributed more, or as many and comes first. */
  ghost predicate BoxFirst(x: Input, list: seq<nat>, s: nat, u: nat) {
    || |Against(x, list, {}, s)| > |Against(x, list, {}, u)|
    || (|Against(x, list, {}, s)| == |Against(x, list, {}, u)| && s < u)
  }

  /** Of one box, the latest go; and no box gives up a route while another that
      contributed more keeps one. */
  ghost predicate Fair(x: Input, list: seq<nat>, dropped: set<nat>)
    requires ListOf(x, list)
  {
    forall a, b :: a in list && b in list && a in dropped && b !in dropped ==>
      if x.SourceOf(a) == x.SourceOf(b) then b < a else BoxFirst(x, list, x.SourceOf(a), x.SourceOf(b))
  }

  ghost predicate AllOrNone(x: Input, list: seq<nat>, dropped: set<nat>) {
    forall s :: 0 <= s <= x.sources ==>
      Against(x, list, dropped, s) == {} || Against(x, list, dropped, s) == Against(x, list, {}, s)
  }

  lemma ContributeOne(x: Input, list: seq<nat>, i: nat, u: nat)
    requires ListOf(x, list) && i < |list|
    ensures list[i] in list && list[i] < |x.choices|
    ensures |Against(x, list[..i + 1], {}, u)| ==
            |Against(x, list[..i], {}, u)| + if u == x.SourceOf(list[i]) then 1 else 0
  {
    var k := list[i];
    assert list[..i + 1] == list[..i] + [k];
    assert k in list && k !in list[..i];
    assert Against(x, list[..i + 1], {}, u) ==
           Against(x, list[..i], {}, u) + if u == x.SourceOf(k) then {k} else {};
  }

  method Contributions(x: Input, list: seq<nat>) returns (per: seq<nat>)
    requires ListOf(x, list)
    ensures |per| == x.sources + 1
    ensures forall s :: 0 <= s <= x.sources ==> per[s] == |Against(x, list, {}, s)|
  {
    per := seq(x.sources + 1, i => 0);
    var i := 0;
    assert forall s :: Against(x, list[..0], {}, s) == {};
    hide Against;
    while i < |list|
      invariant 0 <= i <= |list| && |per| == x.sources + 1
      invariant forall s :: 0 <= s <= x.sources ==> per[s] == |Against(x, list[..i], {}, s)|
    {
      var k := list[i];
      assert k in list;
      var s := x.SourceOf(k);
      forall u: nat | u <= x.sources
        ensures |Against(x, list[..i + 1], {}, u)| == |Against(x, list[..i], {}, u)| + if u == s then 1 else 0
      {
        ContributeOne(x, list, i, u);
      }
      per := per[s := per[s] + 1];
      i := i + 1;
    }
    assert list[..i] == list;
  }

  /** The first box with the most routes left, or none. */
  method Largest(per: seq<nat>) returns (best: int)
    ensures -1 <= best < |per|
    ensures best < 0 <==> forall s :: 0 <= s < |per| ==> per[s] == 0
    ensures best >= 0 ==> per[best] > 0 && forall s :: 0 <= s < |per| ==> per[s] <= per[best]
    ensures best >= 0 ==> forall s :: 0 <= s < best ==> per[s] < per[best]
  {
    best := -1;
    var s := 0;
    while s < |per|
      invariant 0 <= s <= |per| && -1 <= best < s
      invariant best < 0 <==> forall u :: 0 <= u < s ==> per[u] == 0
      invariant best >= 0 ==> per[best] > 0 && forall u :: 0 <= u < s ==> per[u] <= per[best]
      invariant best >= 0 ==> forall u :: 0 <= u < best ==> per[u] < per[best]
    {
      if per[s] > 0 && (best < 0 || per[s] > per[best]) {
        best := s;
      }
      s := s + 1;
    }
  }

  predicate Counts(x: Input, dropped: set<nat>, best: nat, k: nat) {
    k < |x.choices| && x.SourceOf(k) == best && k !in dropped
  }

  /** The last `take` routes of one box among the first `at` of the list. */
  function Latest(x: Input, list: seq<nat>, dropped: set<nat>, best: nat, take: nat, at: nat): set<nat>
    requires at <= |list|
    decreases at
  {
    if at == 0 || take == 0 then {}
    else if Counts(x, dropped, best, list[at - 1]) then
      Latest(x, list, dropped, best, take - 1, at - 1) + {list[at - 1]}
    else Latest(x, list, dropped, best, take, at - 1)
  }

  /** Against, of the first `at` of the list. */
  ghost function AgainstFirst(x: Input, list: seq<nat>, dropped: set<nat>, s: nat, at: nat): set<nat>
    requires at <= |list|
  {
    Against(x, list[..at], dropped, s)
  }

  lemma AgainstOneMore(x: Input, list: seq<nat>, dropped: set<nat>, best: nat, at: nat)
    requires ListOf(x, list) && 0 < at <= |list|
    ensures var all := AgainstFirst(x, list, dropped, best, at - 1);
            && (forall b :: b in all ==> b < list[at - 1])
            && |all + {list[at - 1]}| == |all| + 1
            && AgainstFirst(x, list, dropped, best, at) == if Counts(x, dropped, best, list[at - 1]) then all + {list[at - 1]} else all
  {
    assert list[..at] == list[..at - 1] + [list[at - 1]];
  }

  /** taken is the greatest `take` elements of all. */
  ghost predicate Greatest(taken: set<nat>, all: set<nat>, take: nat) {
    taken <= all && |taken| == take && forall a, b :: a in taken && b in all && b !in taken ==> b < a
  }

  lemma GreatestWith(taken: set<nat>, all: set<nat>, take: nat, k: nat)
    requires Greatest(taken, all, take) && forall b :: b in all ==> b < k
    ensures Greatest(taken + {k}, all + {k}, take + 1)
  {
    assert k !in taken;
  }

  lemma LatestStep(x: Input, list: seq<nat>, dropped: set<nat>, best: nat, take: nat, at: nat)
    requires at <= |list|
    ensures at == 0 || take == 0 ==> Latest(x, list, dropped, best, take, at) == {}
    ensures at == 0 ==> |AgainstFirst(x, list, dropped, best, at)| == 0
    ensures at > 0 && take > 0 ==>
              Latest(x, list, dropped, best, take, at) ==
              if Counts(x, dropped, best, list[at - 1])
              then Latest(x, list, dropped, best, take - 1, at - 1) + {list[at - 1]}
              else Latest(x, list, dropped, best, take, at - 1)
  {
    hide Counts;
    if at == 0 {
      assert AgainstFirst(x, list, dropped, best, at) == {};
    }
  }

  lemma NothingTaken(all: set<nat>)
    ensures Greatest({}, all, 0)
  {
  }

  lemma {:induction false} LatestFacts(x: Input, list: seq<nat>, dropped: set<nat>, best: nat, take: nat, at: nat)
    requires ListOf(x, list) && at <= |list| && take <= |AgainstFirst(x, list, dropped, best, at)|
    ensures Greatest(Latest(x, list, dropped, best, take, at), AgainstFirst(x, list, dropped, best, at), take)
    decreases at
  {
    hide *;
    LatestStep(x, list, dropped, best, take, at);
    if at > 0 && take > 0 {
      AgainstOneMore(x, list, dropped, best, at);
      var all, k := AgainstFirst(x, list, dropped, best, at - 1), list[at - 1];
      if Counts(x, dropped, best, k) {
        LatestFacts(x, list, dropped, best, take - 1, at - 1);
        GreatestWith(Latest(x, list, dropped, best, take - 1, at - 1), all, take - 1, k);
      } else {
        LatestFacts(x, list, dropped, best, take, at - 1);
      }
    } else {
      NothingTaken(AgainstFirst(x, list, dropped, best, at));
    }
  }

  /** Drop the latest routes of one box. */
  method TakeLatest(x: Input, list: seq<nat>, dropped: set<nat>, best: nat, take: nat) returns (dropped': set<nat>)
    requires ListOf(x, list)
    ensures dropped' == dropped + Latest(x, list, dropped, best, take, |list|)
  {
    dropped' := dropped;
    var at, d := |list|, 0;
    while at > 0 && d < take
      invariant 0 <= at <= |list| && 0 <= d <= take
      invariant forall i :: 0 <= i < at ==> (list[i] in dropped' <==> list[i] in dropped)
      invariant dropped' + Latest(x, list, dropped, best, take - d, at) == dropped + Latest(x, list, dropped, best, take, |list|)
    {
      at := at - 1;
      var k := list[at];
      if Counts(x, dropped', best, k) {
        dropped', d := dropped' + {k}, d + 1;
      }
    }
  }

  lemma Took(x: Input, list: seq<nat>, dropped: set<nat>, best: nat, take: nat)
    requires ListOf(x, list) && best <= x.sources && take <= |Against(x, list, dropped, best)|
    ensures var taken := Latest(x, list, dropped, best, take, |list|);
            |taken| == take && TakesLatest(x, list, dropped, best, taken)
  {
    assert list[..|list|] == list;
    LatestFacts(x, list, dropped, best, take, |list|);
  }

  ghost predicate TakesLatest(x: Input, list: seq<nat>, dropped: set<nat>, best: nat, taken: set<nat>) {
    && best <= x.sources && taken <= Against(x, list, dropped, best)
    && forall a, b :: a in taken && b in Against(x, list, dropped, best) && b !in taken ==> b < a
  }

  lemma OthersKeep(x: Input, list: seq<nat>, dropped: set<nat>, best: nat, taken: set<nat>, s: nat)
    requires taken <= Against(x, list, dropped, best)
    ensures Against(x, list, dropped + taken, s) ==
            if s == best then Against(x, list, dropped, best) - taken else Against(x, list, dropped, s)
  {
  }

  /** Fairness of one pair after the box with the most routes gave some up. */
  lemma FairPair(x: Input, list: seq<nat>, dropped: set<nat>, best: nat, taken: set<nat>, a: nat, b: nat)
    requires ListOf(x, list) && Fair(x, list, dropped) && AllOrNone(x, list, dropped)
    requires TakesLatest(x, list, dropped, best, taken) && Against(x, list, dropped, best) != {}
    requires forall s :: 0 <= s <= x.sources ==> |Against(x, list, dropped, s)| <= |Against(x, list, dropped, best)|
    requires forall s :: 0 <= s < best ==> |Against(x, list, dropped, s)| < |Against(x, list, dropped, best)|
    requires a in list && b in list && a in dropped + taken && b !in dropped + taken
    ensures if x.SourceOf(a) == x.SourceOf(b) then b < a else BoxFirst(x, list, x.SourceOf(a), x.SourceOf(b))
  {
    if a in taken {
      var s := x.SourceOf(b);
      assert x.SourceOf(a) == best && b in Against(x, list, dropped, s);
      assert s == best ==> b in Against(x, list, dropped, best);
      assert Against(x, list, dropped, best) == Against(x, list, {}, best);
      assert Against(x, list, dropped, s) == Against(x, list, {}, s);
    }
  }

  /** One box is drained, or gives up what is still to go. */
  lemma TakeKeeps(x: Input, list: seq<nat>, dropped: set<nat>, best: nat, taken: set<nat>, excess: nat)
    requires ListOf(x, list) && Fair(x, list, dropped) && AllOrNone(x, list, dropped)
    requires TakesLatest(x, list, dropped, best, taken) && Against(x, list, dropped, best) != {}
    requires forall s :: 0 <= s <= x.sources ==> |Against(x, list, dropped, s)| <= |Against(x, list, dropped, best)|
    requires forall s :: 0 <= s < best ==> |Against(x, list, dropped, s)| < |Against(x, list, dropped, best)|
    requires |taken| == if |Against(x, list, dropped, best)| < excess then |Against(x, list, dropped, best)| else excess
    ensures Fair(x, list, dropped + taken)
    ensures |taken| < excess ==> AllOrNone(x, list, dropped + taken)
    ensures forall s :: 0 <= s <= x.sources ==>
      |Against(x, list, dropped + taken, s)| == |Against(x, list, dropped, s)| - if s == best then |taken| else 0
  {
    var all := Against(x, list, dropped, best);
    forall s: nat | s <= x.sources
      ensures Against(x, list, dropped + taken, s) == if s == best then all - taken else Against(x, list, dropped, s)
    {
      OthersKeep(x, list, dropped, best, taken, s);
    }
    assert |all - taken| == |all| - |taken|;
    forall a, b | a in list && b in list && a in dropped + taken && b !in dropped + taken
      ensures if x.SourceOf(a) == x.SourceOf(b) then b < a else BoxFirst(x, list, x.SourceOf(a), x.SourceOf(b))
    {
      FairPair(x, list, dropped, best, taken, a, b);
    }
    hide Against, Fair;
    if |taken| < excess {
      SameSize(taken, all);
    }
  }

  lemma {:induction false} SameSize(a: set<nat>, b: set<nat>)
    requires a <= b && |a| == |b|
    ensures a == b
  {
    if a != {} {
      var y :| y in a;
      SameSize(a - {y}, b - {y});
    }
  }

  ghost function AsSet(list: seq<nat>): set<nat> {
    set k | k in list
  }

  lemma {:induction false} ListSet(list: seq<nat>)
    requires Ascending(list)
    ensures |AsSet(list)| == |list|
    decreases |list|
  {
    if list != [] {
      var last := |list| - 1;
      ListSet(list[..last]);
      assert AsSet(list) == AsSet(list[..last]) + {list[last]};
    }
  }

  /** While routes are still to go, some box has one. */
  lemma SomeLeft(x: Input, list: seq<nat>, dropped: set<nat>) returns (s: nat)
    requires ListOf(x, list) && (forall k :: k in dropped ==> k in list) && |dropped| < |list|
    ensures s <= x.sources && Against(x, list, dropped, s) != {}
  {
    var all := AsSet(list);
    ListSet(list);
    if all <= dropped {
      AtMost(all, dropped);
    }
    assert !(all <= dropped);
    var k :| k in all && k !in dropped;
    s := x.SourceOf(k);
    assert k in Against(x, list, dropped, s);
  }

  /**
   * Exactly the excess goes; of one box the latest go, and no box gives up a route while another that contributed
   * more keeps one.
   */
  method ShedByBox(x: Input, list: seq<nat>, excess: nat) returns (dropped: set<nat>)
    requires ListOf(x, list) && excess <= |list|
    ensures |dropped| == excess && (forall k :: k in dropped ==> k in list) && Fair(x, list, dropped)
  {
    var per := Contributions(x, list);
    dropped := {};
    var left := excess;
    hide Against, Fair, AllOrNone, ListOf, Latest, TakesLatest;
    NothingShed(x, list);
    while left > 0
      invariant left >= 0 && left + |dropped| == excess && forall k :: k in dropped ==> k in list
      invariant |per| == x.sources + 1
      invariant forall s :: 0 <= s <= x.sources ==> per[s] == |Against(x, list, dropped, s)|
      invariant Fair(x, list, dropped) && (left > 0 ==> AllOrNone(x, list, dropped))
      decreases left
    {
      ghost var some := SomeLeft(x, list, dropped);
      var best := Largest(per);
      if best < 0 {
        assert false;
      }
      var take := if per[best] < left then per[best] else left;
      ghost var before, taken := dropped, Latest(x, list, dropped, best, take, |list|);
      Took(x, list, dropped, best, take);
      dropped := TakeLatest(x, list, dropped, best, take);
      TakeKeeps(x, list, before, best, taken, left);
      TakenAreListed(x, list, before, best, taken);
      per := per[best := per[best] - take];
      left := left - take;
    }
  }

  lemma TakenAreListed(x: Input, list: seq<nat>, dropped: set<nat>, best: nat, taken: set<nat>)
    requires TakesLatest(x, list, dropped, best, taken)
    ensures forall k :: k in taken ==> k in list
    ensures |dropped + taken| == |dropped| + |taken|
  {
    assert dropped !! taken;
  }

  lemma NothingShed(x: Input, list: seq<nat>)
    requires ListOf(x, list)
    ensures Fair(x, list, {}) && AllOrNone(x, list, {})
  {
  }
}
