/** Keeping the most recent of a list of named, dated things. */
module Recency {
  import opened Wrappers

  datatype Aged = Aged(name: string, at: nat)

  function InsertByAge(sorted: seq<Aged>, a: Aged): seq<Aged> {
    if sorted == [] || sorted[|sorted| - 1].at >= a.at then sorted + [a]
    else InsertByAge(sorted[..|sorted| - 1], a) + [sorted[|sorted| - 1]]
  }

  /** The stable order by date, newest first. */
  function NewestFirst(xs: seq<Aged>): (r: seq<Aged>)
    ensures |r| == |xs|
  {
    if xs == [] then []
    else
      InsertByAgeLength(NewestFirst(xs[..|xs| - 1]), xs[|xs| - 1]);
      InsertByAge(NewestFirst(xs[..|xs| - 1]), xs[|xs| - 1])
  }

  lemma {:induction false} InsertByAgeLength(sorted: seq<Aged>, a: Aged)
    ensures |InsertByAge(sorted, a)| == |sorted| + 1
  {
    if !(sorted == [] || sorted[|sorted| - 1].at >= a.at) {
      InsertByAgeLength(sorted[..|sorted| - 1], a);
    }
  }

  /** Nothing is sorted or cut while there is room. */
  function Capped(xs: seq<Aged>, cap: nat): seq<Aged> {
    if |xs| <= cap then xs else NewestFirst(xs)[..cap]
  }

  ghost predicate ByAge(xs: seq<Aged>) {
    forall i, j :: 0 <= i < j < |xs| ==> xs[i].at >= xs[j].at
  }

  ghost predicate DistinctNames(xs: seq<Aged>) {
    forall i, j :: 0 <= i < j < |xs| ==> xs[i].name != xs[j].name
  }

  lemma {:induction false} InsertByAgeIs(sorted: seq<Aged>, a: Aged)
    requires ByAge(sorted)
    ensures ByAge(InsertByAge(sorted, a))
    ensures forall x :: x in InsertByAge(sorted, a) <==> x in sorted || x == a
  {
    if !(sorted == [] || sorted[|sorted| - 1].at >= a.at) {
      var front, last := sorted[..|sorted| - 1], sorted[|sorted| - 1];
      InsertByAgeIs(front, a);
      assert sorted == front + [last];
      var inner := InsertByAge(front, a);
      forall i | 0 <= i < |inner| ensures inner[i].at >= last.at {
        assert inner[i] in inner;
      }
    }
  }

  lemma {:induction false} InsertKeepsNames(sorted: seq<Aged>, a: Aged)
    requires ByAge(sorted) && DistinctNames(sorted) && forall x :: x in sorted ==> x.name != a.name
    ensures DistinctNames(InsertByAge(sorted, a))
  {
    if !(sorted == [] || sorted[|sorted| - 1].at >= a.at) {
      var front, last := sorted[..|sorted| - 1], sorted[|sorted| - 1];
      assert sorted == front + [last];
      InsertKeepsNames(front, a);
      InsertByAgeIs(front, a);
      var inner := InsertByAge(front, a);
      forall i | 0 <= i < |inner| ensures inner[i].name != last.name {
        assert inner[i] in front || inner[i] == a;
        assert last in sorted;
      }
    }
  }

  lemma {:induction false} NewestFirstIs(xs: seq<Aged>)
    requires DistinctNames(xs)
    ensures ByAge(NewestFirst(xs)) && DistinctNames(NewestFirst(xs))
    ensures forall x :: x in NewestFirst(xs) <==> x in xs
  {
    if xs != [] {
      var front, last := xs[..|xs| - 1], xs[|xs| - 1];
      NewestFirstIs(front);
      InsertByAgeIs(NewestFirst(front), last);
      forall x | x in NewestFirst(front) ensures x.name != last.name {
        assert x in front;
      }
      InsertKeepsNames(NewestFirst(front), last);
      assert xs == front + [last];
    }
  }

  /** `kept` is as many of `xs` as fit, and nobody left out is more recent than one kept. */
  ghost predicate KeepsNewest(xs: seq<Aged>, kept: seq<Aged>, cap: nat) {
    && |kept| == Min(|xs|, cap) && DistinctNames(kept)
    && (forall a :: a in kept ==> a in xs)
    && (forall a: Aged, b: Aged :: a in kept && b in xs && b !in kept ==> a.at >= b.at)
  }

  lemma CappedKeepsNewest(xs: seq<Aged>, cap: nat)
    requires DistinctNames(xs)
    ensures KeepsNewest(xs, Capped(xs, cap), cap)
  {
    if |xs| > cap {
      NewestFirstIs(xs);
      SortedCut(NewestFirst(xs), cap);
    }
  }

  lemma SortedCut(sorted: seq<Aged>, cap: nat)
    requires ByAge(sorted) && cap <= |sorted|
    ensures forall a :: a in sorted[..cap] ==> a in sorted
    ensures forall a: Aged, b: Aged :: a in sorted[..cap] && b in sorted && b !in sorted[..cap] ==> a.at >= b.at
  {
    forall a: Aged, b: Aged | a in sorted[..cap] && b in sorted && b !in sorted[..cap] ensures a.at >= b.at {
      var i :| 0 <= i < cap && sorted[i] == a;
      var j :| 0 <= j < |sorted| && sorted[j] == b;
      forall k | 0 <= k < cap ensures sorted[k] in sorted[..cap] { assert sorted[..cap][k] == sorted[k]; }
      assert j >= cap;
    }
  }
}
