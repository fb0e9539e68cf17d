/** The order of an archive is a matter of names alone: whichever way the directory is walked, the
    same files give the same archive. */
module ArchiveOrder {
  import opened Wrappers
  import opened ArchivePaths
  import opened ArchiveRestore
  import opened ArchiveBackup
  import opened ArchiveReadBack
  import opened ArchiveRoundTrip
  import opened TextOrder

  predicate Before(a: Written, b: Written) {
    NotAfter(Join(a.rel), Join(b.rel))
  }

  ghost predicate Sorted(files: seq<Written>) {
    forall i, j :: 0 <= i < j < |files| ==> Before(files[i], files[j])
  }

  lemma {:induction false} InsertSorts(sorted: seq<Written>, w: Written)
    requires Sorted(sorted)
    ensures Sorted(Insert(sorted, w))
  {
    if sorted != [] {
      var front, last := sorted[..|sorted| - 1], sorted[|sorted| - 1];
      if Before(last, w) {
        forall i | 0 <= i < |sorted| ensures Before(sorted[i], w) {
          if i < |sorted| - 1 {
            assert Before(sorted[i], last);
            NotAfterTransitive(Join(sorted[i].rel), Join(last.rel), Join(w.rel));
          }
        }
      } else {
        InsertSorts(front, w);
        InsertKeeps(front, w);
        NotAfterTotal(Join(last.rel), Join(w.rel));
        var inner := Insert(front, w);
        forall i | 0 <= i < |inner| ensures Before(inner[i], last) {
          assert inner[i] in multiset(inner);
          assert inner[i] in front || inner[i] == w;
        }
      }
    }
  }

  lemma {:induction false} SortSorts(files: seq<Written>)
    ensures Sorted(SortedByName(files))
  {
    if files != [] {
      SortSorts(files[..|files| - 1]);
      InsertSorts(SortedByName(files[..|files| - 1]), files[|files| - 1]);
    }
  }

  lemma NamesTellApart(system: System, files: seq<Written>, a: Written, b: Written)
    requires Apart(files) && Rooted(system, files) && a in files && b in files && Join(a.rel) == Join(b.rel)
    ensures a == b
  {
    SplitUndoesJoin(system, a.rel);
    SplitUndoesJoin(system, b.rel);
    assert a.rel == b.rel;
    assert a.rel <= b.rel;
  }

  lemma LastIsLast(a: seq<Written>, b: seq<Written>)
    requires Sorted(a) && Sorted(b) && multiset(a) == multiset(b) && a != []
    ensures |b| == |a| && Before(b[|b| - 1], a[|a| - 1])
  {
    assert |a| == |multiset(a)| && |b| == |multiset(b)|;
    var last := b[|b| - 1];
    assert last in multiset(a);
    var i :| 0 <= i < |a| && a[i] == last;
    if i == |a| - 1 {
      NotAfterTotal(Join(last.rel), Join(last.rel));
    }
  }

  lemma SameLast(system: System, a: seq<Written>, b: seq<Written>)
    requires Sorted(a) && Sorted(b) && multiset(a) == multiset(b) && Apart(a) && Rooted(system, a) && a != []
    ensures |b| == |a| && b[|b| - 1] == a[|a| - 1]
  {
    LastIsLast(a, b);
    LastIsLast(b, a);
    var x, y := a[|a| - 1], b[|b| - 1];
    NotAfterAntisymmetric(Join(x.rel), Join(y.rel));
    assert y in multiset(a);
    NamesTellApart(system, a, x, y);
  }

  lemma FrontsAgree(a: seq<Written>, b: seq<Written>)
    requires multiset(a) == multiset(b) && a != [] && |b| == |a| && b[|b| - 1] == a[|a| - 1]
    ensures multiset(a[..|a| - 1]) == multiset(b[..|b| - 1]) && multiset(a[..|a| - 1]) <= multiset(a)
  {
    var x := a[|a| - 1];
    assert a == a[..|a| - 1] + [x];
    assert b == b[..|b| - 1] + [x];
    assert multiset(a[..|a| - 1]) == multiset(a) - multiset{x};
    assert multiset(b[..|b| - 1]) == multiset(b) - multiset{x};
  }

  lemma {:induction false} SortedIsUnique(system: System, a: seq<Written>, b: seq<Written>)
    requires Sorted(a) && Sorted(b) && multiset(a) == multiset(b) && Apart(a) && Rooted(system, a)
    ensures a == b
  {
    if a == [] {
      assert |multiset(b)| == 0;
    } else {
      SameLast(system, a, b);
      FrontsAgree(a, b);
      SubApart(a[..|a| - 1], a);
      SortedIsUnique(system, a[..|a| - 1], b[..|b| - 1]);
      assert a == a[..|a| - 1] + [a[|a| - 1]] && b == b[..|b| - 1] + [b[|b| - 1]];
    }
  }

  lemma SameMembers(a: seq<Written>, b: seq<Written>)
    requires Apart(a) && Apart(b) && forall w :: w in a <==> w in b
    ensures multiset(a) == multiset(b)
  {
    forall w ensures multiset(a)[w] == multiset(b)[w] {
      assert w in a <==> w in b;
    }
  }

  lemma SameArchived(profile: seq<Named>, again: seq<Named>, host: Host)
    requires TreeOk(host.system, profile) && TreeOk(host.system, again)
    requires multiset(FilesUnder([], profile, None)) == multiset(FilesUnder([], again, None))
    ensures multiset(Archived(profile, host)) == multiset(Archived(again, host))
  {
    var all, other := FilesUnder([], profile, None), FilesUnder([], again, None);
    SkipDropsOne([], profile, host.atRest);
    SkipDropsOne([], again, host.atRest);
    assert forall w :: w in all <==> w in multiset(other);
    WalkIsApart(host.system, [], profile, Some(host.atRest));
    WalkIsApart(host.system, [], again, Some(host.atRest));
    SameMembers(Archived(profile, host), Archived(again, host));
  }

  lemma SameSorted(system: System, a: seq<Written>, b: seq<Written>)
    requires Apart(a) && Rooted(system, a) && multiset(a) == multiset(b)
    ensures SortedByName(a) == SortedByName(b)
  {
    SortKeepsAll(a);
    SortKeepsAll(b);
    SortSorts(a);
    SortSorts(b);
    SubApart(SortedByName(a), a);
    forall w | w in SortedByName(a) ensures w.rel != [] && AllPlain(system, w.rel) {
      assert w in multiset(a);
    }
    SortedIsUnique(system, SortedByName(a), SortedByName(b));
  }

  lemma {:induction false} SameBytes(a: seq<Written>, b: seq<Written>)
    requires SortedByName(a) == SortedByName(b)
    ensures Bytes(a) == Bytes(b) && |a| == |b|
  {
    SortKeeps(a);
    SortKeeps(b);
  }

  /** Two walks that meet the same files produce the same archive. */
  lemma ArchiveIgnoresWalkOrder(profile: seq<Named>, again: seq<Named>, host: Host, passphrase: Option<string>)
    requires TreeOk(host.system, profile) && TreeOk(host.system, again)
    requires multiset(FilesUnder([], profile, None)) == multiset(FilesUnder([], again, None))
    ensures BackedUp(profile, host, passphrase) == BackedUp(again, host, passphrase)
  {
    hide TreeOk, Apart, Rooted, SortedByName, EntriesOf;
    SameArchived(profile, again, host);
    ArchivedIs(profile, host);
    SameSorted(host.system, Archived(profile, host), Archived(again, host));
    SameBytes(Archived(profile, host), Archived(again, host));
    WalkIsApart(host.system, [], profile, None);
    SameMap(FilesUnder([], profile, None), FilesUnder([], again, None));
  }
}
