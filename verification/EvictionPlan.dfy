/** The least-recently-used eviction plan of the manifest cache. */
module EvictionPlan {
  import opened ManifestNames

  datatype Sized = Sized(name: Name, bytes: nat, lastAccess: nat)

  function Total(entries: seq<Sized>): nat {
    if entries == [] then 0 else Total(entries[..|entries| - 1]) + entries[|entries| - 1].bytes
  }

  function Names(entries: seq<Sized>): (names: seq<Name>)
    ensures |names| == |entries|
  {
    seq(|entries|, i requires 0 <= i < |entries| => entries[i].name)
  }

  /** Places `e` behind everything accessed no later than it. */
  function Insert(sorted: seq<Sized>, e: Sized): seq<Sized> {
    if sorted == [] || sorted[|sorted| - 1].lastAccess <= e.lastAccess then sorted + [e]
    else Insert(sorted[..|sorted| - 1], e) + [sorted[|sorted| - 1]]
  }

  /** The stable order by last access, oldest first. */
  function ByAccess(entries: seq<Sized>): seq<Sized> {
    if entries == [] then [] else Insert(ByAccess(entries[..|entries| - 1]), entries[|entries| - 1])
  }

  ghost predicate OldestFirst(entries: seq<Sized>) {
    forall i, j :: 0 <= i < j < |entries| ==> entries[i].lastAccess <= entries[j].lastAccess
  }

  lemma {:induction false} InsertKeepsAll(sorted: seq<Sized>, e: Sized)
    ensures multiset(Insert(sorted, e)) == multiset(sorted) + multiset{e}
    ensures |Insert(sorted, e)| == |sorted| + 1
    ensures Total(Insert(sorted, e)) == Total(sorted) + e.bytes
  {
    if sorted == [] || sorted[|sorted| - 1].lastAccess <= e.lastAccess {
      assert (sorted + [e])[..|sorted + [e]| - 1] == sorted;
    } else {
      var front, last := sorted[..|sorted| - 1], sorted[|sorted| - 1];
      InsertKeepsAll(front, e);
      var f := Insert(front, e);
      assert (f + [last])[..|f + [last]| - 1] == f;
      assert sorted == front + [last];
    }
  }

  lemma LastStaysLast(f: seq<Sized>, front: seq<Sized>, e: Sized, last: Sized)
    requires OldestFirst(f) && multiset(f) == multiset(front) + multiset{e}
    requires e.lastAccess <= last.lastAccess && forall i :: 0 <= i < |front| ==> front[i].lastAccess <= last.lastAccess
    ensures OldestFirst(f + [last])
  {
    forall i | 0 <= i < |f| ensures f[i].lastAccess <= last.lastAccess {
      assert f[i] in multiset(f);
      assert f[i] == e || f[i] in front;
    }
  }

  lemma {:induction false} InsertSorts(sorted: seq<Sized>, e: Sized)
    requires OldestFirst(sorted)
    ensures OldestFirst(Insert(sorted, e))
  {
    if !(sorted == [] || sorted[|sorted| - 1].lastAccess <= e.lastAccess) {
      var front, last := sorted[..|sorted| - 1], sorted[|sorted| - 1];
      InsertSorts(front, e);
      InsertKeepsAll(front, e);
      LastStaysLast(Insert(front, e), front, e, last);
    }
  }

  /** One more entry, placed: what `Insert` makes of a list that was sorted and complete. */
  lemma InsertExtends(sorted: seq<Sized>, front: seq<Sized>, last: Sized)
    requires OldestFirst(sorted) && multiset(sorted) == multiset(front) && |sorted| == |front| && Total(sorted) == Total(front)
    ensures var r, entries := Insert(sorted, last), front + [last];
            OldestFirst(r) && multiset(r) == multiset(entries) && |r| == |entries| && Total(r) == Total(entries)
  {
    InsertSorts(sorted, last);
    InsertKeepsAll(sorted, last);
    assert (front + [last])[..|front|] == front;
  }

  lemma NothingSorted()
    ensures OldestFirst([])
  {
  }

  lemma {:induction false} ByAccessSorts(entries: seq<Sized>)
    ensures OldestFirst(ByAccess(entries))
    ensures multiset(ByAccess(entries)) == multiset(entries)
    ensures |ByAccess(entries)| == |entries|
    ensures Total(ByAccess(entries)) == Total(entries)
  {
    hide OldestFirst, Insert, Total;
    if entries == [] {
      NothingSorted();
    } else {
      var front, last := entries[..|entries| - 1], entries[|entries| - 1];
      ByAccessSorts(front);
      InsertExtends(ByAccess(front), front, last);
      assert front + [last] == entries;
    }
  }

  lemma {:induction false} TotalSplits(entries: seq<Sized>, n: nat)
    requires n <= |entries|
    ensures Total(entries) == Total(entries[..n]) + Total(entries[n..])
    decreases |entries|
  {
    if n < |entries| {
      var front := entries[..|entries| - 1];
      TotalSplits(front, n);
      assert front[..n] == entries[..n];
      assert entries[n..][..|entries[n..]| - 1] == front[n..];
    } else {
      assert entries[..n] == entries;
    }
  }

  lemma TotalHead(entries: seq<Sized>, n: nat)
    requires n < |entries|
    ensures Total(entries[n..]) == entries[n].bytes + Total(entries[n + 1..])
  {
    TotalSplits(entries[n..], 1);
    assert entries[n..][..1] == [entries[n]] && entries[n..][1..] == entries[n + 1..];
    assert [entries[n]][..0] == [];
  }

  /** How many of `order`, oldest first, a plan removes to bring the rest within `cap`. */
  ghost predicate CutsAt(order: seq<Sized>, cap: nat, n: nat) {
    && n <= |order|
    && (Total(order[n..]) <= cap || n + 1 >= |order|)
    && (forall m :: 0 <= m < n ==> Total(order[m..]) > cap && m + 1 < |order|)
  }

  /** The cut is unique, so `CutsAt` leaves a plan no choice. */
  lemma CutIsUnique(order: seq<Sized>, cap: nat, m: nat, n: nat)
    requires CutsAt(order, cap, m) && CutsAt(order, cap, n)
    ensures m == n
  {
  }

  function CutFrom(order: seq<Sized>, cap: nat, n: nat): (r: nat)
    requires n <= |order|
    ensures r <= |order|
    decreases |order| - n
  {
    if Total(order[n..]) <= cap || n + 1 >= |order| then n else CutFrom(order, cap, n + 1)
  }

  ghost predicate TooMuchBefore(order: seq<Sized>, cap: nat, n: nat)
    requires n <= |order|
  {
    forall m :: 0 <= m < n ==> Total(order[m..]) > cap && m + 1 < |order|
  }

  lemma {:induction false} CutFromCuts(order: seq<Sized>, cap: nat, n: nat)
    requires n <= |order| && TooMuchBefore(order, cap, n)
    ensures CutsAt(order, cap, CutFrom(order, cap, n))
    decreases |order| - n
  {
    if !(Total(order[n..]) <= cap || n + 1 >= |order|) {
      assert TooMuchBefore(order, cap, n + 1);
      CutFromCuts(order, cap, n + 1);
    }
  }

  function PlanOf(entries: seq<Sized>, cap: nat): seq<Name> {
    Names(ByAccess(entries)[..CutFrom(ByAccess(entries), cap, 0)])
  }

  /** The plan removes a least-recent-first prefix: the rest fits the cap or is a single entry, no
      shorter prefix would do, the last entry in access order always stays, and a directory that
      already fits loses nothing. */
  lemma PlanIsMinimal(entries: seq<Sized>, cap: nat) returns (n: nat)
    ensures CutsAt(ByAccess(entries), cap, n) && PlanOf(entries, cap) == Names(ByAccess(entries)[..n])
    ensures |ByAccess(entries)| == |entries| && (entries != [] ==> n < |entries|)
    ensures Total(entries) <= cap ==> n == 0
  {
    ByAccessSorts(entries);
    var order := ByAccess(entries);
    n := CutFrom(order, cap, 0);
    CutFromCuts(order, cap, 0);
    assert order[0..] == order;
  }

  lemma NamesGrow(order: seq<Sized>, i: nat)
    requires i < |order|
    ensures Names(order[..i + 1]) == Names(order[..i]) + [order[i].name]
  {
  }

  method TotalBytes(entries: seq<Sized>) returns (total: nat)
    ensures total == Total(entries)
  {
    total := 0;
    for i := 0 to |entries|
      invariant total == Total(entries[..i])
    {
      assert entries[..i + 1][..i] == entries[..i];
      total := total + entries[i].bytes;
    }
    assert entries[..|entries|] == entries;
  }

  method Plan(entries: seq<Sized>, cap: nat) returns (evict: seq<Name>)
    ensures evict == PlanOf(entries, cap)
  {
    var total := TotalBytes(entries);
    ByAccessSorts(entries);
    var order := ByAccess(entries);
    assert order[0..] == order;
    if total <= cap || |entries| <= 1 {
      return [];
    }
    evict := DropOldest(order, cap, total);
  }

  method DropOldest(order: seq<Sized>, cap: nat, total: nat) returns (evict: seq<Name>)
    requires total == Total(order)
    ensures evict == Names(order[..CutFrom(order, cap, 0)])
  {
    evict := [];
    var running := total;
    assert order[0..] == order;
    var i := 0;
    while i < |order|
      invariant 0 <= i <= |order|
      invariant evict == Names(order[..i])
      invariant running == Total(order[i..])
      invariant CutFrom(order, cap, 0) == CutFrom(order, cap, i)
    {
      if running <= cap || |evict| + 1 >= |order| {
        break;
      }
      TotalHead(order, i);
      NamesGrow(order, i);
      evict := evict + [order[i].name];
      running := running - order[i].bytes;
      i := i + 1;
    }
  }

  ghost predicate DistinctNames(entries: seq<Sized>) {
    forall a, b :: a in entries && b in entries && a.name == b.name ==> a == b
  }

  lemma InOrder(entries: seq<Sized>, e: Sized) returns (i: nat)
    requires e in entries
    ensures i < |ByAccess(entries)| && ByAccess(entries)[i] == e
  {
    ByAccessSorts(entries);
    assert e in multiset(entries);
    assert e in multiset(ByAccess(entries));
    i :| 0 <= i < |ByAccess(entries)| && ByAccess(entries)[i] == e;
  }

  lemma OrderIsOf(entries: seq<Sized>, i: nat)
    requires i < |ByAccess(entries)|
    ensures ByAccess(entries)[i] in entries
  {
    ByAccessSorts(entries);
    assert ByAccess(entries)[i] in multiset(ByAccess(entries));
    assert ByAccess(entries)[i] in multiset(entries);
  }

  /** Nothing the plan evicts was accessed later than anything it keeps. */
  lemma EvictsLeastRecent(entries: seq<Sized>, cap: nat, evicted: Sized, kept: Sized)
    requires DistinctNames(entries) && evicted in entries && kept in entries
    requires evicted.name in PlanOf(entries, cap) && kept.name !in PlanOf(entries, cap)
    ensures evicted.lastAccess <= kept.lastAccess
  {
    var order := ByAccess(entries);
    var n := CutFrom(order, cap, 0);
    var names := Names(order[..n]);
    var i :| 0 <= i < |names| && names[i] == evicted.name;
    OrderIsOf(entries, i);
    assert order[i] == evicted;
    var j := InOrder(entries, kept);
    forall k | 0 <= k < n ensures order[k].name in names { assert names[k] == order[k].name; }
    assert j >= n;
    ByAccessSorts(entries);
  }
}
