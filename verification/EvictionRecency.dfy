/** What an eviction pass leaves on disk. The pass is told of every readable entry; afterwards the
    readable entries fit the ceiling or are a single one, and they are the most recently accessed. */
module EvictionRecency {
  import opened ManifestNames
  import opened EvictionPlan
  import opened CacheFiles
  import opened ManifestCache

  ghost predicate EachOnce(names: seq<Name>) {
    forall i, j :: 0 <= i < j < |names| ==> names[i] != names[j]
  }

  /** `order` lists the directory: every readable entry, no name twice. */
  ghost predicate ListsAll(order: seq<Name>, files: Files) {
    EachOnce(order) && forall n :: Scanned(files, n) ==> n in order
  }

  function AfterEviction(files: Files, order: seq<Name>, cap: nat, sizeOf: CacheEntry -> nat, io: Faults): Files {
    RemoveAll(files, PlanOf(Sizes(files, order, sizeOf), cap), io)
  }

  /** The entries whose names are not among `gone`. */
  function Left(entries: seq<Sized>, gone: seq<Name>): seq<Sized> {
    if entries == [] then []
    else Left(entries[..|entries| - 1], gone) + (if entries[|entries| - 1].name in gone then [] else [entries[|entries| - 1]])
  }

  ghost predicate OncePerName(entries: seq<Sized>) {
    forall i, j :: 0 <= i < j < |entries| ==> entries[i].name != entries[j].name
  }

  // ---------------------------------------------------------------------------------------------
  // What the pass is told.

  lemma {:induction false} SizesAre(files: Files, order: seq<Name>, sizeOf: CacheEntry -> nat, e: Sized)
    ensures e in Sizes(files, order, sizeOf) <==>
              e.name in order && Scanned(files, e.name)
              && e == Sized(e.name, sizeOf(files[e.name].entry), files[e.name].entry.lastAccess)
  {
    if order != [] {
      SizesAre(files, order[..|order| - 1], sizeOf, e);
      assert order == order[..|order| - 1] + [order[|order| - 1]];
    }
  }

  lemma {:induction false} SizesOnce(files: Files, order: seq<Name>, sizeOf: CacheEntry -> nat)
    requires EachOnce(order)
    ensures OncePerName(Sizes(files, order, sizeOf))
  {
    if order != [] {
      var front, n := order[..|order| - 1], order[|order| - 1];
      SizesOnce(files, front, sizeOf);
      var told := Sizes(files, front, sizeOf);
      forall i | 0 <= i < |told| ensures told[i].name != n {
        SizesAre(files, front, sizeOf, told[i]);
      }
    }
  }

  /** Telling the pass again, after some files went, leaves out those files and nothing else. */
  lemma {:induction false} SizesAfter(files: Files, after: Files, order: seq<Name>, sizeOf: CacheEntry -> nat, gone: seq<Name>)
    requires forall n :: n in after <==> n in files && n !in gone
    requires forall n :: n in after ==> after[n] == files[n]
    ensures Sizes(after, order, sizeOf) == Left(Sizes(files, order, sizeOf), gone)
  {
    if order != [] {
      var front, n := order[..|order| - 1], order[|order| - 1];
      SizesAfter(files, after, front, sizeOf, gone);
      var told := Sizes(files, front, sizeOf);
      if Scanned(files, n) {
        var e := Sized(n, sizeOf(files[n].entry), files[n].entry.lastAccess);
        assert (told + [e])[..|told|] == told;
      } else {
        assert told + [] == told;
      }
    }
  }

  // ---------------------------------------------------------------------------------------------
  // The order loses nothing.

  lemma {:induction false} LeftOfInsert(sorted: seq<Sized>, e: Sized, gone: seq<Name>)
    ensures var l, m := Left(Insert(sorted, e), gone), Left(sorted, gone);
            && Total(l) == Total(m) + (if e.name in gone then 0 else e.bytes)
            && |l| == |m| + (if e.name in gone then 0 else 1)
  {
    hide Left, Total;
    if sorted == [] || sorted[|sorted| - 1].lastAccess <= e.lastAccess {
      LeftOfMore(sorted, e, gone);
    } else {
      var front, last := sorted[..|sorted| - 1], sorted[|sorted| - 1];
      LeftOfInsert(front, e, gone);
      LeftOfMore(Insert(front, e), last, gone);
      LeftOfMore(front, last, gone);
      assert sorted == front + [last];
    }
  }

  lemma LeftOfMore(entries: seq<Sized>, e: Sized, gone: seq<Name>)
    ensures var l, m := Left(entries + [e], gone), Left(entries, gone);
            && l == m + (if e.name in gone then [] else [e])
            && |l| == |m| + (if e.name in gone then 0 else 1)
            && Total(l) == Total(m) + (if e.name in gone then 0 else e.bytes)
  {
    assert (entries + [e])[..|entries|] == entries;
    var m := Left(entries, gone);
    if e.name in gone {
      assert m + [] == m;
    } else {
      assert (m + [e])[..|m|] == m;
    }
  }

  lemma {:induction false} LeftOfOrder(entries: seq<Sized>, gone: seq<Name>)
    ensures Total(Left(ByAccess(entries), gone)) == Total(Left(entries, gone))
    ensures |Left(ByAccess(entries), gone)| == |Left(entries, gone)|
  {
    hide Left, Total, Insert;
    if entries != [] {
      var front, last := entries[..|entries| - 1], entries[|entries| - 1];
      LeftOfOrder(front, gone);
      LeftOfInsert(ByAccess(front), last, gone);
      LeftOfMore(front, last, gone);
      assert entries == front + [last];
    }
  }

  lemma {:induction false} InsertOnce(sorted: seq<Sized>, e: Sized)
    requires OncePerName(sorted) && forall i :: 0 <= i < |sorted| ==> sorted[i].name != e.name
    ensures OncePerName(Insert(sorted, e))
  {
    if !(sorted == [] || sorted[|sorted| - 1].lastAccess <= e.lastAccess) {
      var front, last := sorted[..|sorted| - 1], sorted[|sorted| - 1];
      InsertOnce(front, e);
      InsertKeepsAll(front, e);
      var f := Insert(front, e);
      forall i | 0 <= i < |f| ensures f[i].name != last.name {
        assert f[i] in multiset(f);
        assert f[i] in front || f[i] == e;
      }
    }
  }

  lemma {:induction false} OrderOnce(entries: seq<Sized>)
    requires OncePerName(entries)
    ensures OncePerName(ByAccess(entries))
  {
    if entries != [] {
      var front, last := entries[..|entries| - 1], entries[|entries| - 1];
      OrderOnce(front);
      forall i | 0 <= i < |ByAccess(front)| ensures ByAccess(front)[i].name != last.name {
        OrderIsOf(front, i);
      }
      InsertOnce(ByAccess(front), last);
    }
  }

  /** Leaving out the first `n` of a list leaves the rest. */
  lemma {:induction false} LeftOfPrefix(order: seq<Sized>, n: nat, m: nat)
    requires n <= m <= |order| && OncePerName(order)
    ensures Left(order[..m], Names(order[..n])) == order[n..m]
  {
    hide Left, Total;
    var gone := Names(order[..n]);
    if m == n {
      NoneLeft(order[..n]);
    } else {
      LeftOfPrefix(order, n, m - 1);
      assert order[..m] == order[..m - 1] + [order[m - 1]];
      LeftOfMore(order[..m - 1], order[m - 1], gone);
      NotAmongFirst(order, n, m - 1);
      assert order[n..m] == order[n..m - 1] + [order[m - 1]];
    }
  }

  lemma NotAmongFirst(order: seq<Sized>, n: nat, j: nat)
    requires n <= j < |order| && OncePerName(order)
    ensures order[j].name !in Names(order[..n])
  {
    var gone := Names(order[..n]);
    forall i | 0 <= i < n ensures gone[i] != order[j].name {
      assert gone[i] == order[i].name;
    }
  }

  lemma NoneLeft(entries: seq<Sized>)
    ensures Left(entries, Names(entries)) == []
  {
    forall i | 0 <= i < |entries| ensures entries[i].name in Names(entries) {
      ThatIsNames(entries, i);
    }
    AllGone(entries, Names(entries));
  }

  lemma {:induction false} AllGone(entries: seq<Sized>, gone: seq<Name>)
    requires forall i :: 0 <= i < |entries| ==> entries[i].name in gone
    ensures Left(entries, gone) == []
  {
    if entries != [] { AllGone(entries[..|entries| - 1], gone); }
  }

  lemma ThatIsNames(entries: seq<Sized>, i: nat)
    requires i < |entries|
    ensures entries[i].name in Names(entries)
  {
    assert Names(entries)[i] == entries[i].name;
  }

  // ---------------------------------------------------------------------------------------------
  // The results.

  /** With every file removable, the readable entries left fit the ceiling or are a single one, and no
      entry that is left was accessed before one that went. */
  lemma EvictionFits(files: Files, order: seq<Name>, cap: nat, sizeOf: CacheEntry -> nat)
    requires ListsAll(order, files)
    ensures var left := Sizes(AfterEviction(files, order, cap, sizeOf, NoFaults()), order, sizeOf);
            Total(left) <= cap || |left| <= 1
  {
    hide Scanned, ByAccess, Total;
    var entries := Sizes(files, order, sizeOf);
    var n := PlanIsMinimal(entries, cap);
    var oldest := ByAccess(entries);
    var gone := Names(oldest[..n]);
    RemoveAllKeeps(files, gone, NoFaults());
    SizesAfter(files, RemoveAll(files, gone, NoFaults()), order, sizeOf, gone);
    LeftOfOrder(entries, gone);
    SizesOnce(files, order, sizeOf);
    OrderOnce(entries);
    LeftOfPrefix(oldest, n, |oldest|);
    assert oldest[..|oldest|] == oldest && oldest[n..|oldest|] == oldest[n..];
  }

  ghost predicate AccessedBefore(files: Files, a: Name, b: Name) {
    Scanned(files, a) && Scanned(files, b) && files[a].entry.lastAccess < files[b].entry.lastAccess
  }

  lemma PlannedIsTold(entries: seq<Sized>, cap: nat, n: Name)
    requires n in PlanOf(entries, cap)
    ensures exists e :: e in entries && e.name == n
  {
    var names := PlanOf(entries, cap);
    var i :| 0 <= i < |names| && names[i] == n;
    OrderIsOf(entries, i);
  }

  lemma OnceIsDistinct(entries: seq<Sized>)
    requires OncePerName(entries)
    ensures DistinctNames(entries)
  {
  }

  /** Whoever was read later goes later: while an entry is left, none accessed after it goes. */
  lemma OlderGoFirst(files: Files, order: seq<Name>, cap: nat, sizeOf: CacheEntry -> nat, io: Faults, a: Name, b: Name)
    requires ListsAll(order, files) && AccessedBefore(files, a, b)
    requires b !in AfterEviction(files, order, cap, sizeOf, io)
    ensures a !in AfterEviction(files, order, cap, sizeOf, io) || io.remove(a)
  {
    var entries := Sizes(files, order, sizeOf);
    var ea := Sized(a, sizeOf(files[a].entry), files[a].entry.lastAccess);
    var eb := Sized(b, sizeOf(files[b].entry), files[b].entry.lastAccess);
    SizesAre(files, order, sizeOf, ea);
    SizesAre(files, order, sizeOf, eb);
    SizesOnce(files, order, sizeOf);
    OnceIsDistinct(entries);
    RemoveAllKeeps(files, PlanOf(entries, cap), io);
    if a !in PlanOf(entries, cap) {
      EvictsLeastRecent(entries, cap, eb, ea);
    }
  }

  lemma LastInOrderStays(entries: seq<Sized>, cap: nat, e: Sized)
    requires OncePerName(entries) && e in entries
    requires forall x :: x in entries && x != e ==> x.lastAccess < e.lastAccess
    ensures e.name !in PlanOf(entries, cap)
  {
    hide ByAccess, Total, CutFrom, PlanOf;
    var n := PlanIsMinimal(entries, cap);
    var oldest := ByAccess(entries);
    ByAccessSorts(entries);
    OrderOnce(entries);
    var i := InOrder(entries, e);
    OrderIsOf(entries, |oldest| - 1);
    assert oldest[|oldest| - 1] == e;
    NotAmongFirst(oldest, n, |oldest| - 1);
  }

  /** The entry read last of all stays, however small the ceiling and whatever else is removed. */
  lemma LastReadStays(files: Files, order: seq<Name>, cap: nat, sizeOf: CacheEntry -> nat, io: Faults, n: Name)
    requires ListsAll(order, files) && Scanned(files, n)
    requires forall m :: Scanned(files, m) && m != n ==> AccessedBefore(files, m, n)
    ensures n in AfterEviction(files, order, cap, sizeOf, io) && AfterEviction(files, order, cap, sizeOf, io)[n] == files[n]
  {
    var entries := Sizes(files, order, sizeOf);
    var e := Sized(n, sizeOf(files[n].entry), files[n].entry.lastAccess);
    SizesAre(files, order, sizeOf, e);
    SizesOnce(files, order, sizeOf);
    forall x | x in entries && x != e ensures x.lastAccess < e.lastAccess {
      SizesAre(files, order, sizeOf, x);
    }
    LastInOrderStays(entries, cap, e);
    RemoveAllKeeps(files, PlanOf(entries, cap), io);
  }

  /** Only readable entries are ever evicted. */
  lemma UnreadableStays(files: Files, order: seq<Name>, cap: nat, sizeOf: CacheEntry -> nat, io: Faults, n: Name)
    requires n in files && !Scanned(files, n)
    ensures n in AfterEviction(files, order, cap, sizeOf, io)
  {
    var entries := Sizes(files, order, sizeOf);
    RemoveAllKeeps(files, PlanOf(entries, cap), io);
    if n in PlanOf(entries, cap) {
      PlannedIsTold(entries, cap, n);
      var e :| e in entries && e.name == n;
      SizesAre(files, order, sizeOf, e);
    }
  }

  /** A read keeps a collection cached: after a read of `k` at `now`, later than every other access, an
      eviction pass to any ceiling leaves it, and only what was accessed earlier can have gone. */
  lemma ReadOutlives(before: Files, files: Files, k: Key, now: nat, stage: Name, order: seq<Name>, cap: nat, sizeOf: CacheEntry -> nat, io: Faults)
    requires Touched(before, files, k, now, stage) && ListsAll(order, files)
    requires forall n :: Scanned(before, n) && n != Canonical(k) ==> before[n].entry.lastAccess < now
    ensures var after := AfterEviction(files, order, cap, sizeOf, io);
            && Canonical(k) in after && after[Canonical(k)].Whole?
            && after[Canonical(k)].entry == before[Canonical(k)].entry.(lastAccess := now)
  {
    LastReadStays(files, order, cap, sizeOf, io, Canonical(k));
  }
}
