/**
 Telling the distinct routes from their alternates, and listing the distinct
 ones by area (src/backend/aas_augment.c:3194-3233).
 */
module RouteGroups {
  import opened Routes
  import opened RouteBudget

  /** A route's representative: not protected, and the first of its key. */
  predicate Head(required: seq<bool>, rank: seq<nat>, k: nat)
    requires k < |required| && k < |rank|
  {
    !required[k] && rank[k] == 0
  }

  /** The representatives out of one area among the first n choices, in order. */
  function HeadList(choices: seq<Route>, required: seq<bool>, rank: seq<nat>, area: int, n: nat): (r: seq<nat>)
    requires n <= |rank| && |rank| <= |required| == |choices|
    ensures forall k: nat :: k in r <==> k < n && Head(required, rank, k) && choices[k].start == area
    ensures forall i, j :: 0 <= i < j < |r| ==> r[i] < r[j]
  {
    if n == 0 then []
    else
      var before := HeadList(choices, required, rank, area, n - 1);
      assert forall i :: 0 <= i < |before| ==> before[i] in before;
      if Head(required, rank, n - 1) && choices[n - 1].start == area then before + [n - 1] else before
  }

  lemma {:induction false} HeadListStays(choices: seq<Route>, required: seq<bool>, rank: seq<nat>, rank': seq<nat>, area: int, n: nat)
    requires n <= |rank| && rank <= rank' && |rank'| <= |required| == |choices|
    ensures HeadList(choices, required, rank', area, n) == HeadList(choices, required, rank, area, n)
  {
    if n > 0 {
      HeadListStays(choices, required, rank, rank', area, n - 1);
    }
  }

  /** head, one more than an index or 0, begins a linked list that holds the
      elements of list, last one first. */
  ghost predicate Chained(next: seq<nat>, head: nat, list: seq<nat>)
    decreases |list|
  {
    if list == [] then head == 0
    else
      var last := list[|list| - 1];
      head == last + 1 && last < |next| && Chained(next, next[last], list[..|list| - 1])
  }

  lemma {:induction false} ChainGrows(next: seq<nat>, next': seq<nat>, head: nat, list: seq<nat>)
    requires Chained(next, head, list) && next <= next'
    ensures Chained(next', head, list)
    decreases |list|
  {
    if list != [] {
      ChainGrows(next, next', next[list[|list| - 1]], list[..|list| - 1]);
    }
  }

  /** Read a list back, oldest first. */
  method Collect(next: seq<nat>, head: nat, ghost list: seq<nat>) returns (r: seq<nat>)
    requires Chained(next, head, list)
    ensures r == list
  {
    r := [];
    var j := head;
    ghost var left := list;
    while j != 0
      invariant Chained(next, j, left) && left + r == list
      decreases |left|
    {
      r := [j - 1] + r;
      j := next[j - 1];
      left := left[..|left| - 1];
    }
  }

  datatype Groups = Groups(rank: seq<nat>, root: seq<nat>, need: seq<nat>, first: seq<nat>, next: seq<nat>)

  ghost predicate GroupedSoFar(x: Input, required: seq<bool>, s: Groups, n: nat) {
    && n == |s.rank| == |s.root| == |s.next| && n <= |required| == |x.choices|
    && |s.need| == |s.first| == x.areas
    && (forall k: nat :: k < n ==> Ranked(x.choices, required, k, s.rank[k], s.root[k]))
    && forall i :: 0 <= i < x.areas ==> Listed(x, required, s, i, n)
  }

  ghost predicate Listed(x: Input, required: seq<bool>, s: Groups, i: nat, n: nat)
    requires n <= |s.rank| && |s.rank| <= |required| == |x.choices| && i < |s.need| && i < |s.first|
  {
    var list := HeadList(x.choices, required, s.rank, i, n);
    s.need[i] == |list| && Chained(s.next, s.first[i], list)
  }

  ghost predicate AllNamed(x: Input) {
    forall k :: 0 <= k < |x.choices| ==> x.Named(x.choices[k])
  }

  /** The groups with choice n added. */
  function Add(s: Groups, rank: nat, root: nat, head: bool, start: nat): Groups
    requires start < |s.need| && start < |s.first|
  {
    Groups(s.rank + [rank], s.root + [root],
           if head then s.need[start := s.need[start] + 1] else s.need,
           if head then s.first[start := |s.next| + 1] else s.first,
           s.next + [if head then s.first[start] else 0])
  }

  lemma ListOneMore(x: Input, required: seq<bool>, s: Groups, n: nat, s': Groups, head: bool, i: nat)
    requires n == |s.rank| == |s.next| < |required| == |x.choices| && |s.need| == |s.first| == x.areas && i < x.areas
    requires Listed(x, required, s, i, n) && x.Named(x.choices[n]) && |s'.rank| == n + 1 && s.rank <= s'.rank
    requires head == Head(required, s'.rank, n) && |s'.need| == |s'.first| == x.areas
    requires s'.next == s.next + [if head then s.first[x.choices[n].start] else 0]
    requires s'.need[i] == s.need[i] + if head && x.choices[n].start == i then 1 else 0
    requires s'.first[i] == if head && x.choices[n].start == i then n + 1 else s.first[i]
    ensures Listed(x, required, s', i, n + 1)
  {
    var list := HeadList(x.choices, required, s.rank, i, n);
    HeadListStays(x.choices, required, s.rank, s'.rank, i, n);
    ChainGrows(s.next, s'.next, s.first[i], list);
    assert (list + [n])[..|list|] == list;
  }

  lemma AddGroups(x: Input, required: seq<bool>, s: Groups, n: nat, rank: nat, root: nat)
    requires GroupedSoFar(x, required, s, n) && n < |x.choices| && x.Named(x.choices[n])
    requires Ranked(x.choices, required, n, rank, root)
    ensures GroupedSoFar(x, required, Add(s, rank, root, !required[n] && rank == 0, x.choices[n].start), n + 1)
  {
    hide Listed, Ranked;
    var s' := Add(s, rank, root, !required[n] && rank == 0, x.choices[n].start);
    var n' := n + 1;
    forall i | 0 <= i < x.areas ensures Listed(x, required, s', i, n') {
      assert Listed(x, required, s, i, n);
      ListOneMore(x, required, s, n, s', !required[n] && rank == 0, i);
    }
  }

  /** The table's size: a power of two at least twice the number of choices. */
  method Slots(n: nat) returns (slots: nat)
    ensures slots >= 2 * n
    ensures exists e: nat :: slots == Power(e)
  {
    slots := 1;
    ghost var e := 0;
    while slots < 2 * n
      invariant slots == Power(e) && slots > 0
      decreases 2 * n - slots
    {
      slots, e := 2 * slots, e + 1;
    }
  }

  function Power(e: nat): nat {
    if e == 0 then 1 else 2 * Power(e - 1)
  }

  lemma EmptyTable(choices: seq<Route>, required: seq<bool>, hash: Route -> nat, slots: nat)
    requires |required| == |choices| && slots > 0
    ensures TableOf(choices, required, hash, seq(slots, i => 0), 0)
  {
    var last := seq(slots, i => 0 as nat);
    assert Taken(last) == {};
  }

  /** A protected choice is not entered in the table. */
  lemma SkipRequired(choices: seq<Route>, required: seq<bool>, hash: Route -> nat, last: seq<nat>, n: nat)
    requires |required| == |choices| && n < |choices| && required[n] && TableOf(choices, required, hash, last, n)
    ensures TableOf(choices, required, hash, last, n + 1)
  {
    hide Taken, SomewhereFindable;
    forall b | 0 <= b < |last| && last[b] != 0 ensures LastOfKey(choices, required, n + 1, last[b] - 1) {
      assert LastOfKey(choices, required, n, last[b] - 1);
    }
    forall j: nat | j < n + 1 && LastOfKey(choices, required, n + 1, j) ensures SomewhereFindable(choices, hash, last, j) {
      assert LastOfKey(choices, required, n, j);
    }
  }

  /** The rank and root of the choice whose probing stopped here. */
  lemma RankOf(x: Input, required: seq<bool>, hash: Route -> nat, last: seq<nat>, s: Groups, n: nat, bucket: nat, d: nat)
    requires GroupedSoFar(x, required, s, n) && n < |x.choices| && !required[n]
    requires TableOf(x.choices, required, hash, last, n) && Stops(x.choices, required, hash, last, n, bucket, d)
    ensures bucket < |last| && last[bucket] <= n
    ensures last[bucket] == 0 ==> Ranked(x.choices, required, n, 0, n)
    ensures last[bucket] != 0 ==>
      Ranked(x.choices, required, n, s.rank[last[bucket] - 1] + 1, s.root[last[bucket] - 1])
    ensures TableOf(x.choices, required, hash, last[bucket := n + 1], n + 1)
  {
    hide Probe, Passed, Taken, SomewhereFindable, Listed;
    EnterKey(x.choices, required, hash, last, n, d);
    if last[bucket] == 0 {
      RankFirst(x.choices, required, n);
    } else {
      var j := last[bucket] - 1;
      assert LastOfKey(x.choices, required, n, j);
      RankFromLast(x.choices, required, n, j, s.rank[j], s.root[j]);
    }
  }

  /**
   * Every choice gets the number of earlier choices of its key and their first one; the lists hold each area's
   * representatives.
   */
  method Distinguish(x: Input, required: seq<bool>, hash: Route -> nat) returns (s: Groups, maxRank: nat, ok: bool, full: int)
    requires |required| == |x.choices| && HashesKeys(hash)
    ensures ok <==> AllNamed(x)
    ensures ok ==> GroupedSoFar(x, required, s, |x.choices|) && forall k :: 0 <= k < |s.rank| ==> s.rank[k] <= maxRank
    ensures !ok ==> !(0 <= full < x.areas) && exists k :: 0 <= k < |x.choices| && x.choices[k].start == full
  {
    hide HashesKeys, TableOf, GroupedSoFar, Stops, Ranked;
    s := Groups([], [], seq(x.areas, i => 0), seq(x.areas, i => 0), []);
    maxRank, ok, full := 0, true, -1;
    var slots := Slots(|x.choices| + 1);
    var last: seq<nat> := seq(slots, i => 0);
    EmptyTable(x.choices, required, hash, slots);
    NoGroups(x, required);
    var k := 0;
    while k < |x.choices|
      invariant 0 <= k <= |x.choices| < |last|
      invariant TableOf(x.choices, required, hash, last, k) && GroupedSoFar(x, required, s, k)
      invariant |s.rank| == |s.root| == k && |s.need| == |s.first| == x.areas
      invariant forall i :: 0 <= i < k ==> s.rank[i] <= maxRank
      invariant forall i :: 0 <= i < k ==> x.Named(x.choices[i])
    {
      var start := x.choices[k].start;
      if !x.Named(x.choices[k]) {
        ok, full := false, start;
        return;
      }
      if required[k] {
        SkipRequired(x.choices, required, hash, last, k);
        RequiredRank(x, required, k);
        AddGroups(x, required, s, k, 0, k);
        s := Add(s, 0, k, false, start);
      } else {
        var bucket;
        ghost var d;
        bucket, d := Look(x.choices, required, hash, last, k);
        RankOf(x, required, hash, last, s, k, bucket, d);
        var rank, root := 0, k;
        if last[bucket] != 0 {
          rank, root := s.rank[last[bucket] - 1] + 1, s.root[last[bucket] - 1];
        }
        AddGroups(x, required, s, k, rank, root);
        s := Add(s, rank, root, rank == 0, start);
        last := last[bucket := k + 1];
        maxRank := if rank > maxRank then rank else maxRank;
      }
      k := k + 1;
    }
  }

  lemma NoGroups(x: Input, required: seq<bool>)
    requires |required| == |x.choices|
    ensures GroupedSoFar(x, required, Groups([], [], seq(x.areas, i => 0), seq(x.areas, i => 0), []), 0)
  {
  }

  lemma RequiredRank(x: Input, required: seq<bool>, k: nat)
    requires |required| == |x.choices| && k < |x.choices| && required[k]
    ensures Ranked(x.choices, required, k, 0, k)
  {
  }
}
