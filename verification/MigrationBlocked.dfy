/** The migration only asks whether the canonical file exists, not what it holds. A slot occupied by
    anything but the collection's own entry makes the pass delete the collection's copies. */
module MigrationBlocked {
  import opened Wrappers
  import opened ManifestNames
  import opened CacheFiles
  import opened MigrationPass
  import opened MigrationSafety

  lemma {:induction false} Enumerate(names: set<Name>) returns (order: seq<Name>)
    ensures forall n :: n in order <==> n in names
  {
    if names == {} {
      order := [];
    } else {
      var n :| n in names;
      var rest := Enumerate(names - {n});
      order := [n] + rest;
    }
  }

  ghost predicate NoGroup(groups: seq<Group>, k: Key) {
    forall i :: 0 <= i < |groups| ==> groups[i].key != k
  }

  /** A collection met for the first time is put in front, and a front collection stays there. */
  lemma {:induction false} AddToFront(groups: seq<Group>, key: Key, copy: Copy)
    requires KeysDistinct(groups)
    requires NoGroup(groups, key) || groups[0].key == key
    ensures AddTo(groups, key, copy) != [] && AddTo(groups, key, copy)[0].key == key
  {
    if |groups| > 1 {
      var front := groups[..|groups| - 1];
      assert forall i :: 0 <= i < |front| ==> front[i] == groups[i];
      if groups[|groups| - 1].key != key {
        AddToFront(front, key, copy);
      }
    }
  }

  /** Listing the copies of `k` after everything else makes its group the first. */
  lemma {:induction false} ListedLastComesFirst(files: Files, rest: seq<Name>, mine: seq<Name>, k: Key)
    requires forall n :: n in mine ==> Legacy(files, n, k)
    requires forall n :: n in rest ==> !Legacy(files, n, k)
    ensures var groups := GroupsOf(files, rest + mine);
            if mine == [] then NoGroup(groups, k) else groups != [] && groups[0].key == k
  {
    if mine == [] {
      assert rest + mine == rest;
      GroupsAre(files, rest);
      CopiesListed(files, rest);
      var groups := GroupsOf(files, rest);
      forall i | 0 <= i < |groups| ensures groups[i].key != k {
        assert GroupOk(files, groups[i]) && IsCopy(files, groups[i], groups[i].copies[0]);
        assert groups[i].copies[0].name in rest;
      }
    } else {
      var front, last := mine[..|mine| - 1], mine[|mine| - 1];
      assert (rest + mine)[..|rest + mine| - 1] == rest + front;
      assert last in mine;
      ListedLastComesFirst(files, rest, front, k);
      GroupsAre(files, rest + front);
      AddToFront(GroupsOf(files, rest + front), k, Copy(last, files[last].entry.lastAccess));
    }
  }

  ghost predicate AllIn(groups: seq<Group>, order: seq<Name>) {
    forall i, j :: 0 <= i < |groups| && 0 <= j < |groups[i].copies| ==> groups[i].copies[j].name in order
  }

  lemma {:induction false} AddToListed(groups: seq<Group>, key: Key, copy: Copy, order: seq<Name>)
    requires AllIn(groups, order) && copy.name in order
    ensures AllIn(AddTo(groups, key, copy), order)
  {
    if groups != [] && groups[|groups| - 1].key != key {
      AddToListed(groups[..|groups| - 1], key, copy, order);
    }
  }

  lemma {:induction false} CopiesListed(files: Files, order: seq<Name>)
    ensures AllIn(GroupsOf(files, order), order)
  {
    if order != [] {
      var front, last := order[..|order| - 1], order[|order| - 1];
      CopiesListed(files, front);
      assert order == front + [last];
      if Scanned(files, last) && last != Canonical(KeyOf(files[last].entry)) {
        AddToListed(GroupsOf(files, front), KeyOf(files[last].entry), Copy(last, files[last].entry.lastAccess), order);
      }
    }
  }

  /** A group never makes a copy of a collection that has none. */
  lemma GroupMakesNoCopy(files: Files, g: Group, k: Key)
    requires !HasCopy(files, k)
    requires forall i :: 0 <= i < |g.copies| ==> g.copies[i].name.Json?
    ensures !HasCopy(MigrateGroup(files, g, NoFaults()), k)
  {
    var names, slot := NamesOf(NewestFirst(g.copies)), Canonical(g.key);
    var r := MigrateGroup(files, g, NoFaults());
    SortedNames(g);
    RemoveAllKeeps(files, names, NoFaults());
    if names != [] && names[0] in files {
      assert Names(g, names[0]);
      RemoveAllKeeps(Renamed(files, names[0], slot), names, NoFaults());
    }
    forall n | Scanned(r, n) ensures KeyOf(r[n].entry) != k {
      if n in files && r[n] == files[n] {
        assert Scanned(files, n);
      } else {
        assert Scanned(files, names[0]) && r[n] == files[names[0]];
      }
    }
  }

  lemma {:induction false} PassMakesNoCopy(files: Files, groups: seq<Group>, m: nat, k: Key)
    requires 0 < m <= |groups|
    requires !HasCopy(MigrateGroup(files, groups[0], NoFaults()), k)
    requires forall i, j :: 0 <= i < |groups| && 0 <= j < |groups[i].copies| ==> groups[i].copies[j].name.Json?
    ensures !HasCopy(MigratePass(files, groups[..m], NoFaults()), k)
  {
    assert groups[..m][..m - 1] == groups[..m - 1] && groups[..m][m - 1] == groups[m - 1];
    if m == 1 {
      assert MigratePass(files, [], NoFaults()) == files;
      assert groups[..0] == [];
    } else {
      PassMakesNoCopy(files, groups, m - 1, k);
      GroupMakesNoCopy(MigratePass(files, groups[..m - 1], NoFaults()), groups[m - 1], k);
    }
  }

  /** A collection whose slot is blocked loses every copy in some failure-free pass. */
  lemma BlockedSlotLosesCollection(files: Files, n: Name, k: Key) returns (order: seq<Name>)
    requires Legacy(files, n, k) && !SlotClear(files, k)
    ensures Lists(order, files) && HasCopy(files, k)
    ensures !HasCopy(MigratePass(files, GroupsOf(files, order), NoFaults()), k)
  {
    var mine := Enumerate(set m | m in files && Legacy(files, m, k));
    var rest := Enumerate(set m | m in files && !Legacy(files, m, k));
    order := rest + mine;
    var groups := GroupsOf(files, order);
    assert n in mine;
    ListedLastComesFirst(files, rest, mine, k);
    GroupsAre(files, order);
    FirstGroupLoses(files, groups, k);
    forall i, j | 0 <= i < |groups| && 0 <= j < |groups[i].copies| ensures groups[i].copies[j].name.Json? {
      assert GroupOk(files, groups[i]) && IsCopy(files, groups[i], groups[i].copies[j]);
    }
    PassMakesNoCopy(files, groups, |groups|, k);
    assert groups[..|groups|] == groups;
  }

  lemma FirstGroupLoses(files: Files, groups: seq<Group>, k: Key)
    requires Grouped(files, groups) && groups != [] && groups[0].key == k && !SlotClear(files, k)
    requires forall m :: Legacy(files, m, k) ==> Covered(groups, k, m)
    ensures !HasCopy(MigrateGroup(files, groups[0], NoFaults()), k)
  {
    var g := groups[0];
    var r := MigrateGroup(files, g, NoFaults());
    SortedNames(g);
    RemoveAllKeeps(files, NamesOf(NewestFirst(g.copies)), NoFaults());
    forall m | Scanned(r, m) ensures KeyOf(r[m].entry) != k {
      OnlyGroup(groups, k, m);
      assert Scanned(files, m) && r[m] == files[m] && !Names(g, m);
    }
  }

  lemma OnlyGroup(groups: seq<Group>, k: Key, m: Name)
    requires KeysDistinct(groups) && groups != [] && groups[0].key == k
    ensures Covered(groups, k, m) ==> Names(groups[0], m)
  {
  }

  ghost predicate KeepsEveryCollection(files: Files, order: seq<Name>) {
    forall k :: HasCopy(files, k) ==> HasCopy(MigratePass(files, GroupsOf(files, order), NoFaults()), k)
  }

  /** A failure-free pass keeps every collection, however the directory happens to be listed, exactly
      when every slot with legacy copies is free or holds its own entry. */
  lemma MigrationIsSafeIff(files: Files)
    ensures SlotsClear(files) <==> forall order :: Lists(order, files) ==> KeepsEveryCollection(files, order)
  {
    if SlotsClear(files) {
      forall order, k | Lists(order, files) && HasCopy(files, k)
        ensures HasCopy(MigratePass(files, GroupsOf(files, order), NoFaults()), k)
      {
        PassKeepsEveryCollection(files, order, NoFaults(), k);
      }
    } else {
      var n, k :| Legacy(files, n, k) && !SlotClear(files, k);
      var order := BlockedSlotLosesCollection(files, n, k);
      assert !KeepsEveryCollection(files, order);
    }
  }
}
