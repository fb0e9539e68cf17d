/** What a migration pass keeps and what it leaves behind. */
module MigrationSafety {
  import opened Wrappers
  import opened ManifestNames
  import opened CacheFiles
  import opened MigrationPass

  /** A collection with legacy copies has its canonical slot free, or holding its own entry. */
  ghost predicate SlotsClear(files: Files) {
    forall n, k {:trigger Legacy(files, n, k)} :: Legacy(files, n, k) ==> SlotClear(files, k)
  }

  predicate SlotClear(files: Files, k: Key) {
    Canonical(k) in files ==> files[Canonical(k)].Whole? && KeyOf(files[Canonical(k)].entry) == k
  }

  ghost predicate Lists(order: seq<Name>, files: Files) {
    forall n :: Scanned(files, n) ==> n in order
  }

  // ---------------------------------------------------------------------------------------------
  // Grouping.

  ghost predicate IsCopy(files: Files, g: Group, c: Copy) {
    Legacy(files, c.name, g.key) && c.lastAccess == files[c.name].entry.lastAccess
  }

  ghost predicate GroupOk(files: Files, g: Group) {
    g.copies != [] && forall i :: 0 <= i < |g.copies| ==> IsCopy(files, g, g.copies[i])
  }

  ghost predicate KeysDistinct(groups: seq<Group>) {
    forall i, j :: 0 <= i < j < |groups| ==> groups[i].key != groups[j].key
  }

  ghost predicate Grouped(files: Files, groups: seq<Group>) {
    KeysDistinct(groups) && forall i :: 0 <= i < |groups| ==> GroupOk(files, groups[i])
  }

  ghost predicate Names(g: Group, n: Name) {
    exists i :: 0 <= i < |g.copies| && g.copies[i].name == n
  }

  ghost predicate Covered(groups: seq<Group>, k: Key, n: Name) {
    exists i :: 0 <= i < |groups| && groups[i].key == k && Names(groups[i], n)
  }

  lemma NamesExtends(g: Group, copies: seq<Copy>, n: Name)
    requires Names(g, n) || (copies != [] && copies[|copies| - 1].name == n)
    requires |copies| == |g.copies| + 1 && copies[..|g.copies|] == g.copies
    ensures Names(Group(g.key, copies), n)
  {
    if Names(g, n) {
      var i :| 0 <= i < |g.copies| && g.copies[i].name == n;
      assert copies[i] == copies[..|g.copies|][i];
      assert Group(g.key, copies).copies[i].name == n;
    } else {
      assert Group(g.key, copies).copies[|copies| - 1].name == n;
    }
  }

  lemma CoveredAppend(front: seq<Group>, last: Group, k: Key, n: Name)
    ensures Covered(front + [last], k, n) <==> Covered(front, k, n) || (last.key == k && Names(last, n))
  {
    var all := front + [last];
    if Covered(front, k, n) {
      var i :| 0 <= i < |front| && front[i].key == k && Names(front[i], n);
      assert all[i].key == k && Names(all[i], n);
    }
    if last.key == k && Names(last, n) {
      assert all[|front|].key == k && Names(all[|front|], n);
    }
  }

  /** The copy joins its key's group, and no name leaves its own. */
  lemma {:induction false} AddToCovers(groups: seq<Group>, key: Key, copy: Copy)
    ensures Covered(AddTo(groups, key, copy), key, copy.name)
    ensures forall k, n :: Covered(groups, k, n) ==> Covered(AddTo(groups, key, copy), k, n)
  {
    var r := AddTo(groups, key, copy);
    if groups == [] {
      assert r == [] + [Group(key, [copy])];
      assert [copy][0].name == copy.name;
      assert Names(r[0], copy.name);
      CoveredAppend([], r[0], key, copy.name);
    } else {
      var front, last := groups[..|groups| - 1], groups[|groups| - 1];
      assert groups == front + [last];
      if last.key == key {
        var g := Group(key, last.copies + [copy]);
        NamesExtends(last, g.copies, copy.name);
        CoveredAppend(front, g, key, copy.name);
        forall k, n | Covered(groups, k, n) ensures Covered(r, k, n) {
          CoveredAppend(front, last, k, n);
          CoveredAppend(front, g, k, n);
          if Names(last, n) { NamesExtends(last, g.copies, n); }
        }
      } else {
        AddToCovers(front, key, copy);
        var f := AddTo(front, key, copy);
        CoveredAppend(f, last, key, copy.name);
        forall k, n | Covered(groups, k, n) ensures Covered(r, k, n) {
          CoveredAppend(front, last, k, n);
          CoveredAppend(f, last, k, n);
        }
      }
    }
  }

  lemma {:induction false} AddToGroups(files: Files, groups: seq<Group>, key: Key, copy: Copy)
    requires Grouped(files, groups) && IsCopy(files, Group(key, []), copy)
    ensures Grouped(files, AddTo(groups, key, copy))
    ensures forall i :: 0 <= i < |AddTo(groups, key, copy)| ==>
              AddTo(groups, key, copy)[i].key == key || AddTo(groups, key, copy)[i] in groups
  {
    if groups != [] {
      var front, last := groups[..|groups| - 1], groups[|groups| - 1];
      assert GroupOk(files, last);
      if last.key == key {
        var g := Group(key, last.copies + [copy]);
        forall i | 0 <= i < |g.copies| ensures IsCopy(files, g, g.copies[i]) {
          if i < |last.copies| { assert IsCopy(files, last, last.copies[i]); }
        }
      } else {
        AddToGroups(files, front, key, copy);
        var f := AddTo(front, key, copy);
        forall i | 0 <= i < |f| ensures f[i].key != last.key {
          if f[i].key != key {
            var m :| 0 <= m < |front| && front[m] == f[i];
            assert groups[m].key != groups[|groups| - 1].key;
          }
        }
      }
    }
  }

  /** The groups are the legacy copies the listing names, one group a collection. */
  lemma {:induction false} GroupsAre(files: Files, order: seq<Name>)
    ensures Grouped(files, GroupsOf(files, order))
    ensures forall n, k :: n in order && Legacy(files, n, k) ==> Covered(GroupsOf(files, order), k, n)
  {
    if order != [] {
      var front, last := order[..|order| - 1], order[|order| - 1];
      GroupsAre(files, front);
      assert order == front + [last];
      var groups := GroupsOf(files, front);
      if Scanned(files, last) && last != Canonical(KeyOf(files[last].entry)) {
        AddToGroups(files, groups, KeyOf(files[last].entry), Copy(last, files[last].entry.lastAccess));
        AddToCovers(groups, KeyOf(files[last].entry), Copy(last, files[last].entry.lastAccess));
      }
    }
  }

  ghost predicate HeadIsNewest(copies: seq<Copy>) {
    forall i :: 0 <= i < |copies| ==> copies[i].lastAccess <= copies[0].lastAccess
  }

  lemma FrontOrLast(front: seq<Copy>, last: Copy)
    ensures forall x :: x in front + [last] <==> x in front || x == last
  {
  }

  lemma {:induction false} InsertNewestSorts(sorted: seq<Copy>, c: Copy)
    requires HeadIsNewest(sorted)
    ensures var r := InsertNewest(sorted, c);
            && |r| == |sorted| + 1
            && (forall x :: x in r <==> x in sorted || x == c)
            && HeadIsNewest(r)
  {
    if sorted == [] || sorted[|sorted| - 1].lastAccess >= c.lastAccess {
      FrontOrLast(sorted, c);
    } else {
      var front, last := sorted[..|sorted| - 1], sorted[|sorted| - 1];
      InsertNewestSorts(front, c);
      var f := InsertNewest(front, c);
      assert sorted == front + [last];
      FrontOrLast(front, last);
      FrontOrLast(f, last);
      HeadStaysNewest(f, c, last);
    }
  }

  lemma HeadStaysNewest(f: seq<Copy>, c: Copy, last: Copy)
    requires HeadIsNewest(f) && c in f && last.lastAccess <= c.lastAccess
    ensures HeadIsNewest(f + [last])
  {
    var i :| 0 <= i < |f| && f[i] == c;
    assert last.lastAccess <= f[0].lastAccess;
  }

  lemma {:induction false} NewestFirstSorts(copies: seq<Copy>)
    ensures var r := NewestFirst(copies);
            && |r| == |copies|
            && (forall x :: x in r <==> x in copies)
            && HeadIsNewest(r)
  {
    hide HeadIsNewest, InsertNewest;
    if copies == [] {
      NoneIsNewest();
    } else {
      var front, last := copies[..|copies| - 1], copies[|copies| - 1];
      NewestFirstSorts(front);
      InsertNewestSorts(NewestFirst(front), last);
      FrontOrLast(front, last);
      assert copies == front + [last];
    }
  }

  lemma NoneIsNewest()
    ensures HeadIsNewest([])
  {
  }

  lemma SortedNames(g: Group)
    ensures var names := NamesOf(NewestFirst(g.copies));
            && |names| == |g.copies|
            && forall n :: n in names <==> Names(g, n)
  {
    NewestFirstSorts(g.copies);
    var sorted := NewestFirst(g.copies);
    var names := NamesOf(sorted);
    forall n | n in names ensures Names(g, n) {
      var i :| 0 <= i < |names| && names[i] == n;
      assert sorted[i] in g.copies;
    }
    forall n | Names(g, n) ensures n in names {
      var i :| 0 <= i < |g.copies| && g.copies[i].name == n;
      assert g.copies[i] in sorted;
      var j :| 0 <= j < |sorted| && sorted[j] == g.copies[i];
      assert names[j] == n;
    }
  }

  // ---------------------------------------------------------------------------------------------
  // Each group works on its own names.

  ghost predicate Touches(g: Group, n: Name) {
    n == Canonical(g.key) || Names(g, n)
  }

  ghost predicate Agree(a: Files, b: Files, n: Name) {
    (n in a <==> n in b) && (n in a ==> a[n] == b[n])
  }

  lemma GroupFrame(files: Files, g: Group, io: Faults, n: Name)
    requires !Touches(g, n)
    ensures Agree(files, MigrateGroup(files, g, io), n)
  {
    SortedNames(g);
    var names := NamesOf(NewestFirst(g.copies));
    RemoveAllKeeps(files, names, io);
    if names != [] && names[0] in files {
      RemoveAllKeeps(Renamed(files, names[0], Canonical(g.key)), names, io);
    }
  }

  lemma GroupLocal(a: Files, b: Files, g: Group, io: Faults)
    requires forall n :: Touches(g, n) ==> Agree(a, b, n)
    ensures forall n :: Touches(g, n) ==> Agree(MigrateGroup(a, g, io), MigrateGroup(b, g, io), n)
  {
    SortedNames(g);
    var names, slot := NamesOf(NewestFirst(g.copies)), Canonical(g.key);
    RemoveAllKeeps(a, names, io);
    RemoveAllKeeps(b, names, io);
    assert Agree(a, b, slot);
    if names != [] {
      assert Names(g, names[0]) && Agree(a, b, names[0]);
      if names[0] in a {
        RemoveAllKeeps(Renamed(a, names[0], slot), names, io);
        RemoveAllKeeps(Renamed(b, names[0], slot), names, io);
      }
    }
    forall n | Touches(g, n) ensures Agree(MigrateGroup(a, g, io), MigrateGroup(b, g, io), n) {
      assert Agree(a, b, n);
    }
  }

  ghost predicate Untouched(groups: seq<Group>, n: Name) {
    forall i :: 0 <= i < |groups| ==> !Touches(groups[i], n)
  }

  ghost predicate Separate(groups: seq<Group>) {
    forall i, j, n :: 0 <= i < j < |groups| && Touches(groups[i], n) ==> !Touches(groups[j], n)
  }

  lemma GroupsSeparate(files: Files, groups: seq<Group>)
    requires Grouped(files, groups) && SlotsClear(files)
    ensures Separate(groups)
  {
    forall i, j, n | 0 <= i < j < |groups| && Touches(groups[i], n) ensures !Touches(groups[j], n) {
      var a, b := groups[i], groups[j];
      assert GroupOk(files, a) && GroupOk(files, b);
      CanonicalInjective(a.key, b.key);
      CopiesAreLegacy(files, a, n);
      CopiesAreLegacy(files, b, n);
      SlotOfGroupClear(files, a);
      SlotOfGroupClear(files, b);
    }
  }

  lemma CopiesAreLegacy(files: Files, g: Group, n: Name)
    requires GroupOk(files, g)
    ensures Names(g, n) ==> Legacy(files, n, g.key)
  {
    if Names(g, n) {
      var i :| 0 <= i < |g.copies| && g.copies[i].name == n;
      assert IsCopy(files, g, g.copies[i]);
    }
  }

  lemma SlotOfGroupClear(files: Files, g: Group)
    requires GroupOk(files, g) && SlotsClear(files)
    ensures SlotClear(files, g.key)
  {
    assert IsCopy(files, g, g.copies[0]);
    assert Legacy(files, g.copies[0].name, g.key);
  }

  lemma SeparateFront(groups: seq<Group>, n: Name)
    requires Separate(groups) && groups != []
    ensures Separate(groups[..|groups| - 1])
    ensures Touches(groups[|groups| - 1], n) ==> Untouched(groups[..|groups| - 1], n)
  {
    var front := groups[..|groups| - 1];
    forall i, j, m | 0 <= i < j < |front| && Touches(front[i], m) ensures !Touches(front[j], m) {
      assert front[i] == groups[i] && front[j] == groups[j];
    }
    forall i | 0 <= i < |front| && Touches(groups[|groups| - 1], n) ensures !Touches(front[i], n) {
      assert front[i] == groups[i];
    }
  }

  /** A pass over separate groups: each name ends as its own group leaves it, the rest untouched. */
  lemma {:induction false} PassIsLocal(files: Files, groups: seq<Group>, io: Faults, n: Name)
    requires Separate(groups)
    ensures var r := MigratePass(files, groups, io);
            && (forall i :: 0 <= i < |groups| && Touches(groups[i], n) ==> Agree(r, MigrateGroup(files, groups[i], io), n))
            && (Untouched(groups, n) ==> Agree(files, r, n))
  {
    hide Agree, Touches, MigrateGroup, Separate;
    if groups == [] {
      SameAgrees(files, n);
    } else {
      var front, last := groups[..|groups| - 1], groups[|groups| - 1];
      var f := MigratePass(files, front, io);
      SeparateFront(groups, n);
      PassIsLocal(files, front, io, n);
      assert forall i :: 0 <= i < |front| ==> front[i] == groups[i];
      if Touches(last, n) {
        forall m | Touches(last, m) ensures Agree(files, f, m) {
          SeparateFront(groups, m);
          PassIsLocal(files, front, io, m);
        }
        GroupLocal(files, f, last, io);
        AgreeSwaps(MigrateGroup(files, last, io), MigrateGroup(f, last, io), n);
      } else {
        GroupFrame(f, last, io, n);
        AgreeOnward(files, f, MigrateGroup(f, last, io), n);
        forall i | 0 <= i < |front| && Touches(front[i], n) ensures Agree(MigrateGroup(f, last, io), MigrateGroup(files, front[i], io), n) {
          AgreeSwaps(f, MigrateGroup(f, last, io), n);
          AgreeOnward(MigrateGroup(f, last, io), f, MigrateGroup(files, front[i], io), n);
        }
      }
    }
  }

  lemma SameAgrees(a: Files, n: Name)
    ensures Agree(a, a, n)
  {
  }

  lemma AgreeSwaps(a: Files, b: Files, n: Name)
    requires Agree(a, b, n)
    ensures Agree(b, a, n)
  {
  }

  lemma AgreeOnward(a: Files, b: Files, c: Files, n: Name)
    requires Agree(b, c, n)
    ensures Agree(a, b, n) ==> Agree(a, c, n)
  {
  }

  // ---------------------------------------------------------------------------------------------
  // Results.

  /** One group, under any failures, leaves its collection a readable copy. */
  lemma GroupKeepsCopy(files: Files, g: Group, io: Faults) returns (at: Name)
    requires GroupOk(files, g) && SlotClear(files, g.key)
    ensures var r := MigrateGroup(files, g, io);
            Touches(g, at) && Scanned(r, at) && KeyOf(r[at].entry) == g.key
  {
    SortedNames(g);
    var names, slot := NamesOf(NewestFirst(g.copies)), Canonical(g.key);
    assert names[0] in names && Names(g, names[0]);
    CopiesAreLegacy(files, g, names[0]);
    forall n | n in names ensures n != slot { CopiesAreLegacy(files, g, n); }
    RemoveAllKeeps(files, names, io);
    RemoveAllKeeps(Renamed(files, names[0], slot), names, io);
    at := if slot !in files && io.rename(names[0]) then names[0] else slot;
  }

  /** Without failures a group leaves its slot claimed and none of its legacy names. */
  lemma GroupTidies(files: Files, g: Group) returns (newest: Name)
    requires GroupOk(files, g)
    ensures var r := MigrateGroup(files, g, NoFaults());
            && Canonical(g.key) in r && (forall n :: Names(g, n) ==> n !in r)
            && Names(g, newest) && Legacy(files, newest, g.key)
            && r[Canonical(g.key)] == (if Canonical(g.key) in files then files[Canonical(g.key)] else files[newest])
            && (forall n :: Names(g, n) ==> n in files && files[n].Whole? && files[n].entry.lastAccess <= files[newest].entry.lastAccess)
  {
    SortedNames(g);
    NewestFirstSorts(g.copies);
    var sorted := NewestFirst(g.copies);
    var names, slot := NamesOf(sorted), Canonical(g.key);
    newest := names[0];
    assert newest in names && Names(g, newest);
    CopiesAreLegacy(files, g, newest);
    forall n | n in names ensures n != slot { CopiesAreLegacy(files, g, n); }
    RemoveAllKeeps(files, names, NoFaults());
    RemoveAllKeeps(Renamed(files, newest, slot), names, NoFaults());
    forall n | Names(g, n) ensures n in files && files[n].Whole? && files[n].entry.lastAccess <= files[newest].entry.lastAccess {
      FirstIsNewest(files, g, n);
    }
  }

  lemma FirstIsNewest(files: Files, g: Group, n: Name)
    requires GroupOk(files, g) && Names(g, n)
    ensures var sorted := NewestFirst(g.copies);
            && sorted != [] && IsCopy(files, g, sorted[0])
            && Legacy(files, n, g.key) && files[n].entry.lastAccess <= files[sorted[0].name].entry.lastAccess
  {
    NewestFirstSorts(g.copies);
    var sorted := NewestFirst(g.copies);
    var i :| 0 <= i < |g.copies| && g.copies[i].name == n;
    assert IsCopy(files, g, g.copies[i]);
    assert g.copies[i] in sorted;
    var j :| 0 <= j < |sorted| && sorted[j] == g.copies[i];
    assert sorted[0] in g.copies;
    var m :| 0 <= m < |g.copies| && g.copies[m] == sorted[0];
    assert IsCopy(files, g, g.copies[m]);
  }

  lemma PassSeparates(files: Files, order: seq<Name>)
    requires SlotsClear(files) && Lists(order, files)
    ensures Grouped(files, GroupsOf(files, order)) && Separate(GroupsOf(files, order))
    ensures forall n, k {:trigger Legacy(files, n, k)} :: Legacy(files, n, k) ==> Covered(GroupsOf(files, order), k, n)
  {
    GroupsAre(files, order);
    GroupsSeparate(files, GroupsOf(files, order));
  }

  lemma PlacedUntouched(files: Files, groups: seq<Group>, k: Key)
    requires Grouped(files, groups) && Lookup(files, k).Some?
    requires forall i :: 0 <= i < |groups| ==> groups[i].key != k
    ensures Untouched(groups, Canonical(k))
  {
    forall i | 0 <= i < |groups| ensures !Touches(groups[i], Canonical(k)) {
      CanonicalInjective(groups[i].key, k);
      CopiesAreLegacy(files, groups[i], Canonical(k));
    }
  }

  /** Under any rename and delete failures, every collection that had a readable copy has one after
      the pass, when no collection's slot is blocked. */
  lemma PassKeepsEveryCollection(files: Files, order: seq<Name>, io: Faults, k: Key)
    requires SlotsClear(files) && Lists(order, files) && HasCopy(files, k)
    ensures HasCopy(MigratePass(files, GroupsOf(files, order), io), k)
  {
    var groups := GroupsOf(files, order);
    var r := MigratePass(files, groups, io);
    PassSeparates(files, order);
    if i :| 0 <= i < |groups| && groups[i].key == k {
      SlotOfGroupClear(files, groups[i]);
      var at := GroupKeepsCopy(files, groups[i], io);
      PassIsLocal(files, groups, io, at);
      assert Scanned(r, at) && KeyOf(r[at].entry) == k;
    } else {
      var n :| Scanned(files, n) && KeyOf(files[n].entry) == k;
      assert n == Canonical(k) by {
        if n != Canonical(k) { assert Legacy(files, n, k); }
      }
      PlacedUntouched(files, groups, k);
      PassIsLocal(files, groups, io, n);
      assert Scanned(r, n) && KeyOf(r[n].entry) == k;
    }
  }

  ghost predicate NewestLegacy(files: Files, n: Name, k: Key) {
    && Legacy(files, n, k)
    && (forall m :: Legacy(files, m, k) ==> files[m].entry.lastAccess <= files[n].entry.lastAccess)
  }

  /** The directory a failure-free pass leaves: `r` after `files`. */
  ghost predicate Tidied(files: Files, r: Files) {
    // Every readable file is where its readers look, so each collection has exactly one file.
    && (forall n :: Scanned(r, n) ==> n == Canonical(KeyOf(r[n].entry)))
    // No collection is lost.
    && (forall k :: HasCopy(files, k) ==> Lookup(r, k).Some?)
    // A copy that was in place is untouched.
    && (forall k :: Lookup(files, k).Some? ==> Canonical(k) in r && r[Canonical(k)] == files[Canonical(k)])
    // Otherwise the newest legacy copy took the place.
    && (forall k :: HasCopy(files, k) && Lookup(files, k).None? ==>
          Canonical(k) in r && exists n :: NewestLegacy(files, n, k) && r[Canonical(k)] == files[n])
    // What is not a readable entry is left alone.
    && (forall n :: !Scanned(files, n) && n in files ==> n in r && r[n] == files[n])
  }

  /** Where `n` ends up in a failure-free pass. */
  lemma NameAfterPass(files: Files, groups: seq<Group>, n: Name)
    requires Grouped(files, groups) && Separate(groups)
    ensures var r := MigratePass(files, groups, NoFaults());
            && (Untouched(groups, n) ==> Agree(files, r, n))
            && (forall i :: 0 <= i < |groups| && Names(groups[i], n) ==> n !in r)
  {
    PassIsLocal(files, groups, NoFaults(), n);
    var r := MigratePass(files, groups, NoFaults());
    forall i | 0 <= i < |groups| && Names(groups[i], n) ensures n !in r {
      var _ := GroupTidies(files, groups[i]);
      assert Touches(groups[i], n);
      assert Agree(r, MigrateGroup(files, groups[i], NoFaults()), n);
    }
  }

  /** Where a grouped collection's slot ends up. */
  lemma SlotAfterPass(files: Files, groups: seq<Group>, i: nat) returns (newest: Name)
    requires Grouped(files, groups) && Separate(groups) && i < |groups| && SlotClear(files, groups[i].key)
    ensures var r, slot := MigratePass(files, groups, NoFaults()), Canonical(groups[i].key);
            && slot in r && r[slot].Whole? && KeyOf(r[slot].entry) == groups[i].key
            && Legacy(files, newest, groups[i].key)
            && r[slot] == (if slot in files then files[slot] else files[newest])
            && (forall n :: Names(groups[i], n) ==> n in files && files[n].Whole? && files[n].entry.lastAccess <= files[newest].entry.lastAccess)
  {
    PassIsLocal(files, groups, NoFaults(), Canonical(groups[i].key));
    newest := GroupTidies(files, groups[i]);
    assert Touches(groups[i], Canonical(groups[i].key));
    assert Agree(MigratePass(files, groups, NoFaults()), MigrateGroup(files, groups[i], NoFaults()), Canonical(groups[i].key));
  }

  lemma PassTidies(files: Files, order: seq<Name>)
    requires SlotsClear(files) && Lists(order, files)
    ensures Tidied(files, MigratePass(files, GroupsOf(files, order), NoFaults()))
  {
    var groups := GroupsOf(files, order);
    var r := MigratePass(files, groups, NoFaults());
    forall n ensures Scanned(r, n) ==> n == Canonical(KeyOf(r[n].entry)) {
      if Scanned(r, n) { ReadableIsCanonical(files, order, n); }
    }
    forall k ensures HasCopy(files, k) ==> Lookup(r, k).Some? {
      if HasCopy(files, k) {
        PassKeepsEveryCollection(files, order, NoFaults(), k);
        var n :| Scanned(r, n) && KeyOf(r[n].entry) == k;
        ReadableIsCanonical(files, order, n);
      }
    }
    forall k ensures Lookup(files, k).Some? ==> Canonical(k) in r && r[Canonical(k)] == files[Canonical(k)] {
      if Lookup(files, k).Some? { PlacedCopyStays(files, order, k); }
    }
    forall k | HasCopy(files, k) && Lookup(files, k).None?
      ensures Canonical(k) in r
      ensures exists n :: NewestLegacy(files, n, k) && r[Canonical(k)] == files[n]
    {
      var _ := NewestTakesPlace(files, order, k);
    }
    forall n | !Scanned(files, n) && n in files ensures n in r && r[n] == files[n] {
      UnreadableStays(files, order, n);
    }
  }

  lemma ReadableIsCanonical(files: Files, order: seq<Name>, n: Name)
    requires SlotsClear(files) && Lists(order, files)
    requires Scanned(MigratePass(files, GroupsOf(files, order), NoFaults()), n)
    ensures n == Canonical(KeyOf(MigratePass(files, GroupsOf(files, order), NoFaults())[n].entry))
  {
    var groups := GroupsOf(files, order);
    PassSeparates(files, order);
    NameAfterPass(files, groups, n);
    if i :| 0 <= i < |groups| && Touches(groups[i], n) {
      SlotOfGroupClear(files, groups[i]);
      var _ := SlotAfterPass(files, groups, i);
    } else {
      var k := KeyOf(files[n].entry);
      assert !Covered(groups, k, n);
      assert !Legacy(files, n, k);
    }
  }

  lemma PlacedCopyStays(files: Files, order: seq<Name>, k: Key)
    requires SlotsClear(files) && Lists(order, files) && Lookup(files, k).Some?
    ensures var r := MigratePass(files, GroupsOf(files, order), NoFaults());
            Canonical(k) in r && r[Canonical(k)] == files[Canonical(k)]
  {
    var groups := GroupsOf(files, order);
    PassSeparates(files, order);
    NameAfterPass(files, groups, Canonical(k));
    if i :| 0 <= i < |groups| && Touches(groups[i], Canonical(k)) {
      CanonicalInjective(groups[i].key, k);
      CopiesAreLegacy(files, groups[i], Canonical(k));
      var _ := SlotAfterPass(files, groups, i);
    }
  }

  lemma NewestTakesPlace(files: Files, order: seq<Name>, k: Key) returns (n: Name)
    requires SlotsClear(files) && Lists(order, files) && HasCopy(files, k) && Lookup(files, k).None?
    ensures var r := MigratePass(files, GroupsOf(files, order), NoFaults());
            NewestLegacy(files, n, k) && Canonical(k) in r && r[Canonical(k)] == files[n]
  {
    var groups := GroupsOf(files, order);
    PassSeparates(files, order);
    var c :| Scanned(files, c) && KeyOf(files[c].entry) == k;
    assert Legacy(files, c, k) && Covered(groups, k, c);
    var i :| 0 <= i < |groups| && groups[i].key == k && Names(groups[i], c);
    n := SlotAfterPass(files, groups, i);
    forall m | Legacy(files, m, k) ensures files[m].entry.lastAccess <= files[n].entry.lastAccess {
      assert Covered(groups, k, m);
      var j :| 0 <= j < |groups| && groups[j].key == k && Names(groups[j], m);
      assert i == j;
    }
  }

  lemma UnreadableStays(files: Files, order: seq<Name>, n: Name)
    requires SlotsClear(files) && Lists(order, files) && !Scanned(files, n) && n in files
    ensures var r := MigratePass(files, GroupsOf(files, order), NoFaults());
            n in r && r[n] == files[n]
  {
    var groups := GroupsOf(files, order);
    PassSeparates(files, order);
    NameAfterPass(files, groups, n);
    forall i | 0 <= i < |groups| ensures !Touches(groups[i], n) {
      CopiesAreLegacy(files, groups[i], n);
      SlotOfGroupClear(files, groups[i]);
    }
    assert Untouched(groups, n);
  }

  /** A second pass has nothing to do, whatever order it lists the files in and whatever fails. */
  lemma SecondPassChangesNothing(files: Files, order: seq<Name>, again: seq<Name>, io: Faults)
    requires SlotsClear(files) && Lists(order, files)
    ensures var r := MigratePass(files, GroupsOf(files, order), NoFaults());
            GroupsOf(r, again) == [] && MigratePass(r, GroupsOf(r, again), io) == r
  {
    PassTidies(files, order);
    NothingToGroup(MigratePass(files, GroupsOf(files, order), NoFaults()), again);
  }

  lemma {:induction false} NothingToGroup(files: Files, order: seq<Name>)
    requires forall n :: Scanned(files, n) ==> n == Canonical(KeyOf(files[n].entry))
    ensures GroupsOf(files, order) == []
  {
    if order != [] { NothingToGroup(files, order[..|order| - 1]); }
  }
}
