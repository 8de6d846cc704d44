/**
 Routes between areas as the augmenter collects them, and the table that finds
 alternates of the same route (src/backend/aas_augment.c:3190-3225).
 */
module Routes {
  import opened Division

  /** A collected route. reach is the horizontal distance of its two points plus
      the rise, span their distance; usable says that both points can be stored
      as the engine's integers. */
  datatype Route = Route(start: int, end: int, flags: int, d30: int, anim: string,
                         isLeap: bool, reach: real, span: real, usable: bool)

  /** Two anchors of one route. */
  predicate SameKey(a: Route, b: Route) {
    a.start == b.start && a.end == b.end && a.flags == b.flags && a.d30 == b.d30 && a.anim == b.anim
  }

  /** Any function of the key will do as the hash. */
  ghost predicate HashesKeys(hash: Route -> nat) {
    forall a, b :: SameKey(a, b) ==> hash(a) == hash(b)
  }

  function Below(n: nat): (r: set<nat>)
    ensures forall p: nat :: p in r <==> p < n
    ensures |r| == n
  {
    if n == 0 then {} else Below(n - 1) + {n - 1}
  }

  lemma {:induction false} AtMost<T>(a: set<T>, b: set<T>)
    requires a <= b
    ensures |a| <= |b|
  {
    if a != {} {
      var x :| x in a;
      AtMost(a - {x}, b - {x});
    }
  }

  /** The choices before k with k's key, required ones aside. */
  ghost function Earlier(choices: seq<Route>, required: seq<bool>, k: nat): set<nat>
    requires |required| == |choices| && k < |choices|
  {
    set j: nat | j < k && !required[j] && SameKey(choices[j], choices[k])
  }

  /** r is the first choice with k's key: the route's representative. */
  ghost predicate IsRoot(choices: seq<Route>, required: seq<bool>, k: nat, r: nat)
    requires |required| == |choices| && k < |choices|
  {
    && r <= k && !required[r] && SameKey(choices[r], choices[k])
    && forall j: nat :: j < r && !required[j] ==> !SameKey(choices[j], choices[k])
  }

  ghost predicate Ranked(choices: seq<Route>, required: seq<bool>, k: nat, rank: nat, root: nat)
    requires |required| == |choices| && k < |choices|
  {
    if required[k] then rank == 0 && root == k
    else rank == |Earlier(choices, required, k)| && IsRoot(choices, required, k, root)
  }

  /** j is the last choice before n with its key. */
  ghost predicate LastOfKey(choices: seq<Route>, required: seq<bool>, n: nat, j: nat)
    requires |required| == |choices| && n <= |choices|
  {
    && j < n && !required[j]
    && forall l: nat :: j < l < n && !required[l] ==> !SameKey(choices[l], choices[j])
  }

  /** Bucket d steps on from the key's own. */
  function Probe(h: nat, d: nat, slots: nat): (b: nat)
    requires slots > 0
    ensures b < slots
  {
    (h + d) % slots
  }

  /** j is found by probing: every bucket before it is taken. */
  ghost predicate Findable(choices: seq<Route>, hash: Route -> nat, last: seq<nat>, j: nat, d: nat)
    requires |last| > 0 && j < |choices|
  {
    && d < |last| && last[Probe(hash(choices[j]), d, |last|)] == j + 1
    && forall i: nat :: i < d ==> last[Probe(hash(choices[j]), i, |last|)] != 0
  }

  ghost predicate SomewhereFindable(choices: seq<Route>, hash: Route -> nat, last: seq<nat>, j: nat)
    requires |last| > 0 && j < |choices|
  {
    exists d: nat :: Findable(choices, hash, last, j, d)
  }

  /** The probing for n went past d buckets, each with another key. */
  ghost predicate Passed(choices: seq<Route>, hash: Route -> nat, last: seq<nat>, n: nat, d: nat)
    requires |last| > 0 && n < |choices|
  {
    forall i: nat :: i < d ==> Other(choices, last[Probe(hash(choices[n]), i, |last|)], n)
  }

  predicate Other(choices: seq<Route>, entry: nat, n: nat)
    requires n < |choices|
  {
    entry != 0 && (entry <= n ==> !SameKey(choices[entry - 1], choices[n]))
  }

  ghost function Taken(last: seq<nat>): set<nat> {
    set b: nat | b < |last| && last[b] != 0
  }

  /** The table after n choices holds the last choice of each key. */
  ghost predicate TableOf(choices: seq<Route>, required: seq<bool>, hash: Route -> nat, last: seq<nat>, n: nat)
    requires |required| == |choices| && n <= |choices|
  {
    && |last| > 0 && |Taken(last)| <= n
    && (forall b, c :: 0 <= b < c < |last| && last[b] != 0 ==> last[b] != last[c])
    && (forall b :: 0 <= b < |last| && last[b] != 0 ==> LastOfKey(choices, required, n, last[b] - 1))
    && (forall j: nat :: j < n && LastOfKey(choices, required, n, j) ==> SomewhereFindable(choices, hash, last, j))
  }

  /** Nothing found on the way: the bucket is free, and the key is new. */
  lemma NewKey(choices: seq<Route>, required: seq<bool>, hash: Route -> nat, last: seq<nat>, n: nat, d: nat)
    requires |required| == |choices| && n < |choices| && HashesKeys(hash)
    requires TableOf(choices, required, hash, last, n) && d < |last|
    requires last[Probe(hash(choices[n]), d, |last|)] == 0
    requires Passed(choices, hash, last, n, d)
    ensures Earlier(choices, required, n) == {}
  {
    hide Probe;
    if Earlier(choices, required, n) != {} {
      var j := LastEarlier(choices, required, n);
      assert false;
    }
  }

  lemma {:induction false} LastEarlier(choices: seq<Route>, required: seq<bool>, n: nat) returns (j: nat)
    requires |required| == |choices| && n < |choices| && Earlier(choices, required, n) != {}
    ensures j in Earlier(choices, required, n) && LastOfKey(choices, required, n, j)
  {
    j :| j in Earlier(choices, required, n);
    while !LastOfKey(choices, required, n, j)
      invariant j in Earlier(choices, required, n)
      decreases n - j
    {
      var l: nat :| j < l < n && !required[l] && SameKey(choices[l], choices[j]);
      j := l;
    }
  }

  /** The last earlier choice of the key gives the rank and the root. */
  lemma RankFromLast(choices: seq<Route>, required: seq<bool>, n: nat, j: nat, rank: nat, root: nat)
    requires |required| == |choices| && n < |choices| && !required[n]
    requires LastOfKey(choices, required, n, j) && SameKey(choices[j], choices[n])
    requires Ranked(choices, required, j, rank, root)
    ensures Ranked(choices, required, n, rank + 1, root)
  {
    forall l: nat | l < n && !required[l] && SameKey(choices[l], choices[n]) ensures l in Earlier(choices, required, j) + {j} {
      assert SameKey(choices[l], choices[j]);
    }
    assert Earlier(choices, required, n) == Earlier(choices, required, j) + {j};
  }

  lemma RankFirst(choices: seq<Route>, required: seq<bool>, n: nat)
    requires |required| == |choices| && n < |choices| && !required[n] && Earlier(choices, required, n) == {}
    ensures Ranked(choices, required, n, 0, n)
  {
    forall j: nat | j < n && !required[j] ensures !SameKey(choices[j], choices[n]) {
      assert j !in Earlier(choices, required, n);
    }
  }

  /** Nothing else in the table has n's key once n has taken its bucket. */
  lemma LastStays(choices: seq<Route>, required: seq<bool>, hash: Route -> nat, last: seq<nat>, n: nat, bucket: nat, b: nat)
    requires |required| == |choices| && n < |choices| && !required[n]
    requires TableOf(choices, required, hash, last, n) && bucket < |last| && b < |last| && b != bucket && last[b] != 0
    requires if last[bucket] == 0 then Earlier(choices, required, n) == {}
             else last[bucket] <= n && SameKey(choices[last[bucket] - 1], choices[n])
    ensures LastOfKey(choices, required, n + 1, last[b] - 1)
  {
    hide Probe, SomewhereFindable;
    var j := last[b] - 1;
    assert LastOfKey(choices, required, n, j);
    if SameKey(choices[n], choices[j]) {
      assert SameKey(choices[j], choices[n]);
      assert j in Earlier(choices, required, n);
      assert LastOfKey(choices, required, n, last[bucket] - 1);
      OneBucket(choices, required, hash, last, n, b, bucket);
    }
  }

  lemma FindableStays(choices: seq<Route>, required: seq<bool>, hash: Route -> nat, last: seq<nat>, n: nat, bucket: nat, j: nat)
    requires |required| == |choices| && n < |choices| && !required[n]
    requires TableOf(choices, required, hash, last, n) && bucket < |last|
    requires last[bucket] == 0 || (last[bucket] <= n && SameKey(choices[last[bucket] - 1], choices[n]))
    requires j < n && LastOfKey(choices, required, n + 1, j)
    ensures SomewhereFindable(choices, hash, last[bucket := n + 1], j)
  {
    hide *;
    StillLast(choices, required, n, j);
    WasFindable(choices, required, hash, last, n, j);
    var e: nat :| FindableWith(choices, hash, last, j, e);
    StillFindable(choices, hash, last, n, bucket, j, e);
  }

  ghost predicate FindableWith(choices: seq<Route>, hash: Route -> nat, last: seq<nat>, j: nat, d: nat) {
    j < |choices| && |last| > 0 && Findable(choices, hash, last, j, d)
  }

  lemma StillLast(choices: seq<Route>, required: seq<bool>, n: nat, j: nat)
    requires |required| == |choices| && n < |choices| && !required[n] && j < n && LastOfKey(choices, required, n + 1, j)
    ensures LastOfKey(choices, required, n, j) && !SameKey(choices[n], choices[j]) && !SameKey(choices[j], choices[n])
  {
  }

  lemma WasFindable(choices: seq<Route>, required: seq<bool>, hash: Route -> nat, last: seq<nat>, n: nat, j: nat)
    requires |required| == |choices| && n < |choices| && TableOf(choices, required, hash, last, n)
    requires j < n && LastOfKey(choices, required, n, j)
    ensures exists e: nat :: FindableWith(choices, hash, last, j, e)
  {
    hide Probe, Findable, LastOfKey;
    assert SomewhereFindable(choices, hash, last, j);
    var e: nat :| Findable(choices, hash, last, j, e);
    assert FindableWith(choices, hash, last, j, e);
  }

  lemma StillFindable(choices: seq<Route>, hash: Route -> nat, last: seq<nat>, n: nat, bucket: nat, j: nat, e: nat)
    requires j < n < |choices| && bucket < |last| && FindableWith(choices, hash, last, j, e)
    requires last[bucket] == 0 || (last[bucket] <= n && SameKey(choices[last[bucket] - 1], choices[n]))
    requires !SameKey(choices[j], choices[n])
    ensures SomewhereFindable(choices, hash, last[bucket := n + 1], j)
  {
    hide Probe, SameKey;
    assert Findable(choices, hash, last[bucket := n + 1], j, e);
  }

  /** Entering n in the bucket where the probing stopped. */
  lemma EnterKey(choices: seq<Route>, required: seq<bool>, hash: Route -> nat, last: seq<nat>, n: nat, d: nat)
    requires |required| == |choices| && n < |choices| && !required[n]
    requires TableOf(choices, required, hash, last, n) && d < |last|
    requires Passed(choices, hash, last, n, d)
    requires var b := last[Probe(hash(choices[n]), d, |last|)];
             if b == 0 then Earlier(choices, required, n) == {} else b <= n && SameKey(choices[b - 1], choices[n])
    ensures TableOf(choices, required, hash, last[Probe(hash(choices[n]), d, |last|) := n + 1], n + 1)
  {
    hide Probe, LastOfKey, SomewhereFindable;
    var bucket := Probe(hash(choices[n]), d, |last|);
    var last' := last[bucket := n + 1];
    assert Taken(last') == Taken(last) + {bucket};
    forall b: nat | b < |last'| && last'[b] != 0
      ensures LastOfKey(choices, required, n + 1, last'[b] - 1) && (b != bucket ==> last'[b] <= n)
    {
      if b != bucket {
        LastStays(choices, required, hash, last, n, bucket, b);
        assert LastOfKey(choices, required, n, last[b] - 1);
        LastIsBefore(choices, required, n, last[b] - 1);
      } else {
        NewestIsLast(choices, required, n);
      }
    }
    forall j: nat | j < n + 1 && LastOfKey(choices, required, n + 1, j) ensures SomewhereFindable(choices, hash, last', j) {
      if j == n {
        Found(choices, hash, last', n, d);
      } else {
        FindableStays(choices, required, hash, last, n, bucket, j);
      }
    }
  }

  lemma LastIsBefore(choices: seq<Route>, required: seq<bool>, n: nat, j: nat)
    requires |required| == |choices| && n <= |choices| && LastOfKey(choices, required, n, j)
    ensures j < n && !required[j]
  {
  }

  lemma NewestIsLast(choices: seq<Route>, required: seq<bool>, n: nat)
    requires |required| == |choices| && n < |choices| && !required[n]
    ensures LastOfKey(choices, required, n + 1, n)
  {
  }

  lemma Found(choices: seq<Route>, hash: Route -> nat, last: seq<nat>, j: nat, d: nat)
    requires |last| > 0 && j < |choices| && Findable(choices, hash, last, j, d)
    ensures SomewhereFindable(choices, hash, last, j)
  {
  }

  /** One key never sits in two buckets. */
  lemma OneBucket(choices: seq<Route>, required: seq<bool>, hash: Route -> nat, last: seq<nat>, n: nat, b: nat, c: nat)
    requires |required| == |choices| && n <= |choices| && TableOf(choices, required, hash, last, n)
    requires b < |last| && c < |last| && last[b] != 0 && last[c] != 0
    requires LastOfKey(choices, required, n, last[b] - 1) && LastOfKey(choices, required, n, last[c] - 1)
    requires SameKey(choices[last[b] - 1], choices[last[c] - 1])
    ensures b == c
  {
    hide TableOf;
    assert last[b] == last[c];
    DistinctBuckets(choices, required, hash, last, n, b, c);
  }

  lemma DistinctBuckets(choices: seq<Route>, required: seq<bool>, hash: Route -> nat, last: seq<nat>, n: nat, b: nat, c: nat)
    requires |required| == |choices| && n <= |choices| && TableOf(choices, required, hash, last, n)
    requires b < |last| && c < |last| && last[b] != 0 && last[b] == last[c]
    ensures b == c
  {
  }

  // ---- probing ends ----

  lemma NextProbe(h: nat, d: nat, slots: nat)
    requires slots > 0
    ensures Probe(h, d + 1, slots) == (Probe(h, d, slots) + 1) % slots
  {
    var q, b := (h + d) / slots, (h + d) % slots;
    assert h + d == q * slots + b;
    if b + 1 < slots {
      ModOf(q, b + 1, slots);
      ModOf(0, b + 1, slots);
    } else {
      assert h + d + 1 == (q + 1) * slots + 0;
      ModOf(q + 1, 0, slots);
      ModOf(1, 0, slots);
    }
  }

  lemma ProbesReach(h: nat, b: nat, slots: nat) returns (i: nat)
    requires b < slots
    ensures i < slots && Probe(h, i, slots) == b
  {
    var q, r := h / slots, h % slots;
    assert h == q * slots + r;
    if b >= r {
      i := b - r;
      ModOf(q, b, slots);
    } else {
      i := b - r + slots;
      assert h + i == (q + 1) * slots + b;
      ModOf(q + 1, b, slots);
    }
  }

  /** A table with fewer entries than buckets has a free one for every key. */
  lemma SomeFree(h: nat, last: seq<nat>)
    requires |Taken(last)| < |last|
    ensures exists d: nat :: d < |last| && last[Probe(h, d, |last|)] == 0
  {
    if forall b: nat :: b < |last| ==> last[b] != 0 {
      AtMost(Below(|last|), Taken(last));
    }
    var b: nat :| b < |last| && last[b] == 0;
    var d := ProbesReach(h, b, |last|);
  }

  /** The bucket where the probing for n stops: its key's, or a free one and
      the key is new. */
  ghost predicate Stops(choices: seq<Route>, required: seq<bool>, hash: Route -> nat, last: seq<nat>, n: nat,
                        bucket: nat, d: nat)
    requires |required| == |choices| && n < |choices|
  {
    && d < |last| && bucket == Probe(hash(choices[n]), d, |last|)
    && Passed(choices, hash, last, n, d) && last[bucket] <= n
    && if last[bucket] == 0 then Earlier(choices, required, n) == {} else SameKey(choices[last[bucket] - 1], choices[n])
  }

  /** Linear probing. */
  method Look(choices: seq<Route>, required: seq<bool>, hash: Route -> nat, last: seq<nat>, n: nat)
    returns (bucket: nat, ghost d: nat)
    requires |required| == |choices| && n < |choices| && HashesKeys(hash)
    requires TableOf(choices, required, hash, last, n) && n < |last|
    ensures Stops(choices, required, hash, last, n, bucket, d)
  {
    var h := hash(choices[n]);
    bucket, d := h % |last|, 0;
    ghost var free := ProbeStarts(choices, required, hash, last, n);
    hide *;
    while last[bucket] != 0 && !SameKey(choices[last[bucket] - 1], choices[n])
      invariant Probing(choices, hash, last, n, bucket, d, free)
      decreases free - d
    {
      ProbeGoesOn(choices, hash, last, n, bucket, d, free);
      bucket, d := (bucket + 1) % |last|, d + 1;
    }
    ProbeStops(choices, required, hash, last, n, bucket, d, free);
  }

  ghost predicate Probing(choices: seq<Route>, hash: Route -> nat, last: seq<nat>, n: nat, bucket: nat, d: nat, free: nat) {
    && n < |choices| && bucket < |last| && d <= free < |last|
    && bucket == Probe(hash(choices[n]), d, |last|)
    && last[Probe(hash(choices[n]), free, |last|)] == 0
    && last[bucket] <= |choices| && Passed(choices, hash, last, n, d)
    && forall b :: 0 <= b < |last| ==> last[b] <= n
  }

  lemma ProbeStarts(choices: seq<Route>, required: seq<bool>, hash: Route -> nat, last: seq<nat>, n: nat) returns (free: nat)
    requires |required| == |choices| && n < |choices|
    requires TableOf(choices, required, hash, last, n) && n < |last|
    ensures Probing(choices, hash, last, n, hash(choices[n]) % |last|, 0, free)
  {
    var h := hash(choices[n]);
    SomeFree(h, last);
    free :| free < |last| && last[Probe(h, free, |last|)] == 0;
    TableFacts(choices, required, hash, last, n);
  }

  lemma ProbeGoesOn(choices: seq<Route>, hash: Route -> nat, last: seq<nat>, n: nat, bucket: nat, d: nat, free: nat)
    requires Probing(choices, hash, last, n, bucket, d, free)
    requires last[bucket] != 0 && !SameKey(choices[last[bucket] - 1], choices[n])
    ensures d < free && Probing(choices, hash, last, n, (bucket + 1) % |last|, d + 1, free)
  {
    NextProbe(hash(choices[n]), d, |last|);
    hide Probe;
    PassOne(choices, hash, last, n, d);
  }

  lemma ProbeStops(choices: seq<Route>, required: seq<bool>, hash: Route -> nat, last: seq<nat>, n: nat,
                   bucket: nat, d: nat, free: nat)
    requires |required| == |choices| && n < |choices| && HashesKeys(hash) && TableOf(choices, required, hash, last, n)
    requires Probing(choices, hash, last, n, bucket, d, free)
    requires last[bucket] == 0 || SameKey(choices[last[bucket] - 1], choices[n])
    ensures Stops(choices, required, hash, last, n, bucket, d)
  {
    hide TableOf, Probe, HashesKeys, Passed;
    if last[bucket] == 0 {
      NewKey(choices, required, hash, last, n, d);
    }
  }

  lemma PassOne(choices: seq<Route>, hash: Route -> nat, last: seq<nat>, n: nat, d: nat)
    requires |last| > 0 && n < |choices| && Passed(choices, hash, last, n, d)
    requires Other(choices, last[Probe(hash(choices[n]), d, |last|)], n)
    ensures Passed(choices, hash, last, n, d + 1)
  {
  }

  lemma TableFacts(choices: seq<Route>, required: seq<bool>, hash: Route -> nat, last: seq<nat>, n: nat)
    requires |required| == |choices| && n <= |choices| && TableOf(choices, required, hash, last, n)
    ensures forall b: nat :: b < |last| ==> last[b] <= n
  {
    forall b: nat | b < |last| && last[b] != 0 ensures last[b] <= n {
      assert LastOfKey(choices, required, n, last[b] - 1);
    }
  }
}
