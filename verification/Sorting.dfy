/**
 The sort the augmenter borrows from the C library. Only its result matters: a
 permutation in order. Every comparison used is a total order, so that result is
 the only one.
 */
module Sorting {

  ghost predicate Order<T(!new)>(less: (T, T) -> bool) {
    && (forall a, b :: less(a, b) ==> !less(b, a))
    && (forall a, b, c :: !less(a, b) && !less(b, c) ==> !less(a, c))
  }

  ghost predicate InOrder<T>(less: (T, T) -> bool, s: seq<T>) {
    forall i, k :: 0 <= i < k < |s| ==> !less(s[k], s[i])
  }

  function Insert<T>(less: (T, T) -> bool, x: T, s: seq<T>): (r: seq<T>)
    ensures multiset(r) == multiset(s) + multiset{x} && |r| == |s| + 1
  {
    if s == [] then [x]
    else
      assert s == [s[0]] + s[1..];
      if less(s[0], x) then [s[0]] + Insert(less, x, s[1..]) else [x] + s
  }

  function Sort<T>(less: (T, T) -> bool, s: seq<T>): (r: seq<T>)
    ensures multiset(r) == multiset(s) && |r| == |s|
  {
    if s == [] then []
    else
      assert s == [s[0]] + s[1..];
      Insert(less, s[0], Sort(less, s[1..]))
  }

  lemma SameElements<T>(a: seq<T>, b: seq<T>)
    requires multiset(a) == multiset(b)
    ensures forall x :: x in a <==> x in b
  {
    forall x ensures x in a <==> x in b {
      assert x in a <==> x in multiset(a);
      assert x in b <==> x in multiset(b);
    }
  }

  lemma {:induction false} InsertInOrder<T(!new)>(less: (T, T) -> bool, x: T, s: seq<T>)
    requires Order(less) && InOrder(less, s)
    ensures InOrder(less, Insert(less, x, s))
    decreases s
  {
    if s != [] {
      if less(s[0], x) {
        InsertInOrder(less, x, s[1..]);
        var r := Insert(less, x, s[1..]);
        forall k | 0 <= k < |r| ensures !less(r[k], s[0]) {
          assert r[k] in multiset(r);
          assert r[k] == x || r[k] in s[1..];
        }
      }
    }
  }

  lemma {:induction false} SortInOrder<T(!new)>(less: (T, T) -> bool, s: seq<T>)
    requires Order(less)
    ensures InOrder(less, Sort(less, s))
    decreases s
  {
    if s != [] {
      SortInOrder(less, s[1..]);
      InsertInOrder(less, s[0], Sort(less, s[1..]));
    }
  }

  ghost predicate NoRepeats<T>(s: seq<T>) {
    forall i, k :: 0 <= i < k < |s| ==> s[i] != s[k]
  }

  lemma {:induction false} NoRepeatsCount<T>(s: seq<T>)
    ensures NoRepeats(s) <==> forall x :: multiset(s)[x] <= 1
    decreases s
  {
    if s != [] {
      NoRepeatsCount(s[1..]);
      assert s == [s[0]] + s[1..];
      if NoRepeats(s) {
        assert s[0] !in s[1..];
        assert forall x :: multiset(s)[x] == multiset(s[1..])[x] + (if x == s[0] then 1 else 0);
      } else {
        var i, k :| 0 <= i < k < |s| && s[i] == s[k];
        if i == 0 {
          assert s[k] == s[1..][k - 1];
          assert s[0] in multiset(s[1..]);
          assert multiset(s)[s[0]] >= 2;
        } else {
          assert s[1..][i - 1] == s[1..][k - 1];
          var x :| multiset(s[1..])[x] > 1;
          assert multiset(s)[x] > 1;
        }
      }
    }
  }

  lemma PermutationRepeatsNothing<T>(a: seq<T>, b: seq<T>)
    requires multiset(a) == multiset(b) && NoRepeats(a)
    ensures NoRepeats(b)
  {
    NoRepeatsCount(a);
    NoRepeatsCount(b);
  }
}
