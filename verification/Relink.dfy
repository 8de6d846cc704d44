/**
 Every area's lists of its reachabilities (src/backend/aas_augment.c:3652-3689):
 each record is pushed onto the front of its from-area's and its to-area's list.
 */
module Relink {

  /** A reachability record. next holds the two list fields; rest stands for all
      the others. */
  datatype Reach = Reach(start: nat, end: nat, nextFrom: int, nextTo: int, rest: int) {
    function Area(out: bool): nat {
      if out then start else end
    }

    function Next(out: bool): int {
      if out then nextFrom else nextTo
    }

    function WithNext(out: bool, value: int): Reach {
      if out then this.(nextFrom := value) else this.(nextTo := value)
    }

    /** All but the list fields. */
    predicate SameRoute(r: Reach) {
      start == r.start && end == r.end && rest == r.rest
    }
  }

  /** The records of an area among the first n, latest first. */
  function Owned(records: seq<Reach>, area: nat, out: bool, n: nat): (r: seq<nat>)
    requires n <= |records|
    ensures forall k: nat :: k in r <==> k < n && records[k].Area(out) == area
    ensures forall i, j :: 0 <= i < j < |r| ==> r[i] > r[j]
  {
    if n == 0 then []
    else
      var before := Owned(records, area, out, n - 1);
      assert forall i :: 0 <= i < |before| ==> before[i] in before;
      if records[n - 1].Area(out) == area then [n - 1] + before else before
  }

  /** Following the list fields from a head. A field that does not lead back
      would never end, so the walk stops there. */
  function Walk(records: seq<Reach>, out: bool, head: int): seq<nat>
    decreases if head < 0 then 0 else head + 1
  {
    if head < 0 then []
    else if head >= |records| || records[head].Next(out) >= head then [head]
    else [head] + Walk(records, out, records[head].Next(out))
  }

  /** The list that starts at head is exactly list, and it ends with -1. */
  ghost predicate Lists(records: seq<Reach>, out: bool, head: int, list: seq<nat>)
    decreases |list|
  {
    if list == [] then head == -1
    else
      && head == list[0] && head < |records| && (|list| > 1 ==> list[1] < list[0])
      && Lists(records, out, records[head].Next(out), list[1..])
  }

  lemma {:induction false} ListsWalk(records: seq<Reach>, out: bool, head: int, list: seq<nat>)
    requires Lists(records, out, head, list)
    ensures Walk(records, out, head) == list
    decreases |list|
  {
    if list != [] {
      ListsWalk(records, out, records[head].Next(out), list[1..]);
      assert list == [list[0]] + list[1..];
    }
  }

  /** Only the list fields of the listed records matter. */
  lemma {:induction false} ListsFrame(records: seq<Reach>, records': seq<Reach>, out: bool, head: int, list: seq<nat>)
    requires Lists(records, out, head, list) && |records'| == |records|
    requires forall k :: k in list && k < |records| ==> records'[k].Next(out) == records[k].Next(out)
    ensures Lists(records', out, head, list)
    decreases |list|
  {
    if list != [] {
      assert list[0] in list;
      forall k | k in list[1..] ensures k in list {
      }
      ListsFrame(records, records', out, records[head].Next(out), list[1..]);
    }
  }

  lemma {:induction false} OwnedFrame(records: seq<Reach>, records': seq<Reach>, area: nat, out: bool, n: nat)
    requires n <= |records| == |records'|
    requires forall k :: 0 <= k < n ==> records'[k].Area(out) == records[k].Area(out)
    ensures Owned(records', area, out, n) == Owned(records, area, out, n)
  {
    if n > 0 {
      OwnedFrame(records, records', area, out, n - 1);
    }
  }

  class Reachabilities {
    var records: seq<Reach>
    var firstFrom: seq<int>
    var firstTo: seq<int>

    constructor (records: seq<Reach>, areas: nat)
      ensures this.records == records && |firstFrom| == |firstTo| == areas
    {
      this.records := records;
      firstFrom := seq(areas, _ => 0);
      firstTo := seq(areas, _ => 0);
    }

    ghost predicate Linked(out: bool, n: nat)
      reads this
    {
      n <= |records| && AllListed(records, out, if out then firstFrom else firstTo, n)
    }

    /** One record's from or to side. A record that names no area is left as it
        is. */
    method Push(out: bool, i: nat)
      requires i < |records| && Linked(out, i)
      modifies this
      ensures Linked(out, i + 1) && |records| == |old(records)|
      ensures out ==> firstTo == old(firstTo) && |firstFrom| == |old(firstFrom)|
      ensures !out ==> firstFrom == old(firstFrom) && |firstTo| == |old(firstTo)|
      ensures forall k :: 0 <= k < |records| ==> records[k].SameRoute(old(records)[k])
      ensures forall k :: 0 <= k < |records| ==> records[k].Next(!out) == old(records)[k].Next(!out)
      ensures forall k :: 0 <= k < |records| && k != i ==> records[k] == old(records)[k]
      ensures records[i].Area(out) >= |if out then firstFrom else firstTo| ==> records == old(records)
    {
      var area := records[i].Area(out);
      var first := if out then firstFrom else firstTo;
      ghost var before := records;
      if area < |first| {
        records := records[i := records[i].WithNext(out, first[area])];
        if out {
          firstFrom := firstFrom[area := i];
        } else {
          firstTo := firstTo[area := i];
        }
      }
      PushOne(before, records, out, first, if out then firstFrom else firstTo, i);
    }

    method PushBoth(i: nat)
      requires i < |records| && Linked(true, i) && Linked(false, i)
      modifies this
      ensures Linked(true, i + 1) && Linked(false, i + 1)
      ensures |records| == |old(records)| && |firstFrom| == |old(firstFrom)| && |firstTo| == |old(firstTo)|
      ensures forall k :: 0 <= k < |records| ==> records[k].SameRoute(old(records)[k])
    {
      hide AllListed, Owned, Lists;
      ghost var before := records;
      Push(true, i);
      OtherSide(before, records, false, firstTo, i);
      ghost var between := records;
      Push(false, i);
      OtherSide(between, records, true, firstFrom, i + 1);
    }

    /** aug_relink. Every area's two lists hold exactly its records, once each,
        latest first, and end with -1; nothing else of a record changes. */
    method Relink()
      modifies this
      ensures |records| == |old(records)| && |firstFrom| == |old(firstFrom)| && |firstTo| == |old(firstTo)|
      ensures forall k :: 0 <= k < |records| ==> records[k].SameRoute(old(records)[k])
      ensures AllListed(records, true, firstFrom, |records|) && AllListed(records, false, firstTo, |records|)
    {
      firstFrom := seq(|firstFrom|, _ => -1);
      firstTo := seq(|firstTo|, _ => -1);
      ghost var was := records;
      NoneListed(records, true, firstFrom);
      NoneListed(records, false, firstTo);
      hide AllListed, Owned, Lists;
      var i := 0;
      while i < |records|
        invariant 0 <= i <= |records| == |was|
        invariant |firstFrom| == |old(firstFrom)| && |firstTo| == |old(firstTo)|
        invariant forall k :: 0 <= k < |records| ==> records[k].SameRoute(was[k])
        invariant Linked(true, i) && Linked(false, i)
      {
        PushBoth(i);
        i := i + 1;
      }
    }
  }

  /** Every area's list on one side is that of its first n records. */
  ghost predicate AllListed(records: seq<Reach>, out: bool, first: seq<int>, n: nat)
    requires n <= |records|
  {
    forall a: nat :: a < |first| ==> Lists(records, out, first[a], Owned(records, a, out, n))
  }

  lemma NoneListed(records: seq<Reach>, out: bool, first: seq<int>)
    requires forall a :: 0 <= a < |first| ==> first[a] == -1
    ensures AllListed(records, out, first, 0)
  {
  }

  /** Pushing one record on its list puts it in front and leaves the other lists alone. */
  lemma PushOntoList(records: seq<Reach>, out: bool, head: int, list: seq<nat>, i: nat)
    requires i < |records| && Lists(records, out, head, list) && forall k :: k in list ==> k < i
    ensures Lists(records[i := records[i].WithNext(out, head)], out, i, [i] + list)
  {
    var records' := records[i := records[i].WithNext(out, head)];
    ListsFrame(records, records', out, head, list);
    assert ([i] + list)[1..] == list;
    assert list != [] ==> list[0] in list;
  }

  lemma PushFor(records: seq<Reach>, records': seq<Reach>, out: bool, head: int, i: nat, a: nat)
    requires i < |records| == |records'| && Lists(records, out, head, Owned(records, a, out, i))
    requires forall k :: 0 <= k < |records| ==> records'[k].SameRoute(records[k]) && (k != i ==> records'[k] == records[k])
    requires records[i].Area(out) == a ==> records' == records[i := records[i].WithNext(out, head)]
    ensures Lists(records', out, if records[i].Area(out) == a then i else head, Owned(records', a, out, i + 1))
  {
    OwnedFrame(records, records', a, out, i + 1);
    if records[i].Area(out) == a {
      PushOntoList(records, out, head, Owned(records, a, out, i), i);
    } else {
      ListsFrame(records, records', out, head, Owned(records, a, out, i));
    }
  }

  lemma PushOne(records: seq<Reach>, records': seq<Reach>, out: bool, first: seq<int>, first': seq<int>, i: nat)
    requires i < |records| == |records'| && |first'| == |first| && AllListed(records, out, first, i)
    requires records' == if records[i].Area(out) < |first|
                         then records[i := records[i].WithNext(out, first[records[i].Area(out)])] else records
    requires first' == if records[i].Area(out) < |first| then first[records[i].Area(out) := i] else first
    ensures AllListed(records', out, first', i + 1)
  {
    hide Owned, Lists;
    forall a: nat | a < |first'| ensures Lists(records', out, first'[a], Owned(records', a, out, i + 1)) {
      PushFor(records, records', out, first[a], i, a);
    }
  }

  /** Writing the other side's fields disturbs no list. */
  lemma OtherSide(records: seq<Reach>, records': seq<Reach>, out: bool, first: seq<int>, n: nat)
    requires n <= |records| == |records'| && AllListed(records, out, first, n)
    requires forall k :: 0 <= k < |records| ==> records'[k].SameRoute(records[k]) && records'[k].Next(out) == records[k].Next(out)
    ensures AllListed(records', out, first, n)
  {
    forall a: nat | a < |first| ensures Lists(records', out, first[a], Owned(records', a, out, n)) {
      OwnedFrame(records, records', a, out, n);
      ListsFrame(records, records', out, first[a], Owned(records, a, out, n));
    }
  }

  /** What following the lists finds. */
  lemma ListsAreFilters(records: seq<Reach>, out: bool, first: seq<int>, a: nat)
    requires AllListed(records, out, first, |records|) && a < |first|
    ensures var found := Walk(records, out, first[a]);
            && (forall k: nat :: k in found <==> k < |records| && records[k].Area(out) == a)
            && (forall i, j :: 0 <= i < j < |found| ==> found[i] > found[j])
  {
    ListsWalk(records, out, first[a], Owned(records, a, out, |records|));
  }
}
