/** The wipe and the migration of the shared cache when nobody interrupts them and no call fails: the
    one leaves no directory, the other what the pass on its own makes of it. */
module ManifestSweeps {
  import opened Wrappers
  import opened ManifestNames
  import opened CacheFiles
  import opened MigrationPass
  import opened ManifestConcurrent
  import opened ManifestMiskeyed
  import opened EvictionRecency
  import opened ManifestAlone

  /** The walk of thread `t` over `names`, in that order. */
  function Walked(s: Sys, t: nat, names: seq<Name>): Sys {
    if names == [] then s else Step(Walked(s, t, names[..|names| - 1]), Pick(t, names[|names| - 1]))
  }

  function Walk(t: nat, names: seq<Name>): (r: seq<Action>)
    ensures |r| == |names| && forall i :: 0 <= i < |r| ==> r[i] == Pick(t, names[i])
  {
    seq(|names|, i requires 0 <= i < |names| => Pick(t, names[i]))
  }

  lemma {:induction false} RunWalk(s: Sys, t: nat, names: seq<Name>)
    ensures Run(s, Walk(t, names)) == Walked(s, t, names)
  {
    hide Step;
    if names != [] {
      RunWalk(s, t, names[..|names| - 1]);
      assert Walk(t, names)[..|names| - 1] == Walk(t, names[..|names| - 1]);
    }
  }

  function NameSet(names: seq<Name>): set<Name> {
    set n | n in names
  }

  lemma SomeName(names: seq<Name>)
    ensures names != [] ==> exists n :: n in names
  {
    if names != [] { assert names[0] in names; }
  }

  ghost predicate IsListing(names: seq<Name>, files: Files) {
    EachOnce(names) && forall n :: n in names <==> n in files
  }

  // ---------------------------------------------------------------------------------------------
  // The wipe.

  function ClearRun(t: nat, names: seq<Name>): seq<Action> {
    [StartClear(t)] + [Go(t)] + Walk(t, names) + [Go(t)] + [Go(t)]
  }

  lemma WipesOne(s: Sys, r: Sys, t: nat, n: Name)
    requires Holding(s, r, t, ClearLocked) && r.dir.Present? && n in r.dir.files
    ensures var q := Step(r, Pick(t, n));
            Holding(s, q, t, ClearLocked) && q.dir == Present(r.dir.files - {n})
  {
    hide StepPut, StepGet, StepMigrate, StepRelease;
  }

  lemma {:induction false} WipesAll(s: Sys, r: Sys, t: nat, names: seq<Name>, m: nat)
    requires Holding(s, r, t, ClearLocked) && r.dir.Present? && IsListing(names, r.dir.files) && m <= |names|
    ensures var q := Walked(r, t, names[..m]);
            Holding(s, q, t, ClearLocked) && q.dir == Present(r.dir.files - NameSet(names[..m]))
  {
    hide Step, Holding;
    var files := r.dir.files;
    if m == 0 {
      assert files - NameSet(names[..0]) == files;
    } else {
      WipesAll(s, r, t, names, m - 1);
      assert names[..m][..m - 1] == names[..m - 1];
      var left, n := files - NameSet(names[..m - 1]), names[m - 1];
      assert n in left;
      WipesOne(s, Walked(r, t, names[..m - 1]), t, n);
      assert left - {n} == files - NameSet(names[..m]);
    }
  }

  lemma WipeEnds(s: Sys, r: Sys, t: nat)
    requires Holding(s, r, t, ClearLocked) && (r.dir.Present? ==> r.dir.files == map[])
    ensures var q := Step(r, Go(t));
            Holding(s, q, t, Releasing(false, false)) && q.dir == Absent
  {
    hide StepPut, StepGet, StepMigrate, StepRelease;
  }

  lemma WipeBegins(s: Sys, t: nat)
    requires PcOf(s, t).Idle? && s.lock.None?
    ensures var r := Step(Step(s, StartClear(t)), Go(t));
            Holding(s, r, t, ClearLocked) && r.dir == s.dir
  {
    hide StepPut, StepGet, StepMigrate, StepRelease;
    assert PcOf(Step(s, StartClear(t)), t).ClearWaiting?;
  }

  lemma ClearRunIs(s: Sys, t: nat, names: seq<Name>)
    ensures Run(s, ClearRun(t, names)) ==
            Step(Step(Walked(Step(Step(s, StartClear(t)), Go(t)), t, names), Go(t)), Go(t))
  {
    hide Step;
    var begun := [StartClear(t)] + [Go(t)];
    RunOne(s, StartClear(t));
    RunMore(s, [StartClear(t)], Go(t));
    RunAppend(s, begun, Walk(t, names));
    RunWalk(Run(s, begun), t, names);
    RunMore(s, begun + Walk(t, names), Go(t));
    RunMore(s, begun + Walk(t, names) + [Go(t)], Go(t));
  }

  /** A wipe that nobody interrupts takes everything, the directory included. */
  lemma LoneClearEmpties(s: Sys, t: nat, names: seq<Name>)
    requires PcOf(s, t).Idle? && s.lock.None? && IsListing(names, FilesOf(s.dir))
    ensures var r := Run(s, ClearRun(t, names));
            Returned(s, r) && r.dir == Absent
  {
    hide Step, Holding, ClearRun;
    ClearRunIs(s, t, names);
    WipeBegins(s, t);
    var locked := Step(Step(s, StartClear(t)), Go(t));
    var walked := Walked(locked, t, names);
    if s.dir.Present? {
      WipesAll(s, locked, t, names, |names|);
      assert names[..|names|] == names;
      assert walked.dir.files == map[];
    } else {
      SomeName(names);
    }
    WipeEnds(s, walked, t);
    Releases(s, Step(walked, Go(t)), t, Choice(false, true, Marker, [], NO_SIZE), false);
  }

  // ---------------------------------------------------------------------------------------------
  // The migration.

  /** The readable files that are not where the readers look, each once. */
  ghost predicate ListsLegacy(names: seq<Name>, files: Files) {
    && EachOnce(names)
    && forall n :: n in names <==> Scanned(files, n) && n != Canonical(KeyOf(files[n].entry))
  }

  function SeenOf(files: Files, names: seq<Name>): Files {
    map n | n in names && n in files :: files[n]
  }

  function MigrateRun(t: nat, names: seq<Name>, c: Choice, n: nat): seq<Action> {
    [StartMigrate(t)] + Walk(t, names) + Goes(t, c, n)
  }

  /** Others stand where they stood in `s`, and nobody holds the lock. */
  ghost predicate Unlocked(s: Sys, r: Sys, t: nat, pc: Pc) {
    r.lock.None? && PcOf(r, t) == pc && forall u: nat :: u != t ==> PcOf(r, u) == PcOf(s, u)
  }

  lemma {:induction false} ScansAll(s: Sys, r: Sys, t: nat, names: seq<Name>, m: nat)
    requires Unlocked(s, r, t, Scanning(map[], [])) && m <= |names| && ListsLegacy(names, FilesOf(r.dir))
    ensures var q := Walked(r, t, names[..m]);
            q.dir == r.dir && Unlocked(s, q, t, Scanning(SeenOf(FilesOf(r.dir), names[..m]), names[..m]))
  {
    hide Step, SeenOf, ListsLegacy, Unlocked;
    var files := FilesOf(r.dir);
    if m == 0 {
      NothingSeen(files);
      assert names[..0] == [];
    } else {
      ScansAll(s, r, t, names, m - 1);
      assert names[..m][..m - 1] == names[..m - 1];
      var q, n := Walked(r, t, names[..m - 1]), names[m - 1];
      assert names[..m] == names[..m - 1] + [n];
      ListedIsLegacy(names, files, m - 1);
      SeenMore(files, names[..m - 1], n);
      ScansOne(s, q, t, SeenOf(files, names[..m - 1]), names[..m - 1], n);
    }
  }

  lemma NothingSeen(files: Files)
    ensures SeenOf(files, []) == map[]
  {
  }

  lemma SeenMore(files: Files, names: seq<Name>, n: Name)
    requires n in files
    ensures SeenOf(files, names + [n]) == SeenOf(files, names)[n := files[n]]
  {
  }

  lemma ListedIsLegacy(names: seq<Name>, files: Files, i: nat)
    requires ListsLegacy(names, files) && i < |names|
    ensures Scanned(files, names[i]) && names[i] != Canonical(KeyOf(files[names[i]].entry))
  {
    assert names[i] in names;
  }

  lemma ScansOne(s: Sys, r: Sys, t: nat, seen: Files, order: seq<Name>, n: Name)
    requires Unlocked(s, r, t, Scanning(seen, order))
    requires Scanned(FilesOf(r.dir), n) && n != Canonical(KeyOf(FilesOf(r.dir)[n].entry))
    ensures var q := Step(r, Pick(t, n));
            q.dir == r.dir && Unlocked(s, q, t, Scanning(seen[n := FilesOf(r.dir)[n]], order + [n]))
  {
    hide StepPut, StepGet, StepClear, StepRelease;
  }

  lemma {:induction false} SameGroups(files: Files, seen: Files, names: seq<Name>)
    requires forall n :: n in names ==> (Scanned(seen, n) <==> Scanned(files, n)) && (Scanned(files, n) ==> seen[n] == files[n])
    ensures GroupsOf(seen, names) == GroupsOf(files, names)
  {
    if names != [] {
      var front := names[..|names| - 1];
      assert names == front + [names[|names| - 1]];
      SameGroups(files, seen, front);
    }
  }

  lemma MigrationLocks(s: Sys, r: Sys, t: nat, seen: Files, order: seq<Name>, c: Choice)
    requires Unlocked(s, r, t, Scanning(seen, order)) && c.stop
    ensures var q := Step(Step(r, Advance(t, c)), Advance(t, c));
            Holding(s, q, t, MigLocked(GroupsOf(seen, order))) && q.dir == r.dir
  {
    hide GroupsOf, StepPut, StepGet, StepClear, StepRelease;
    assert PcOf(Step(r, Advance(t, c)), t) == MigWaiting(GroupsOf(seen, order));
  }

  /** The slot of a group is claimed, or was taken, or its copies are gone. */
  lemma Claims(s: Sys, r: Sys, t: nat, g: Group, rest: seq<Group>, c: Choice)
    requires Holding(s, r, t, MigLocked([g] + rest)) && r.dir.Present? && !c.fail
    ensures var names, files, slot := NamesOf(NewestFirst(g.copies)), r.dir.files, Canonical(g.key);
            var q := Step(r, Advance(t, c));
            if slot in files then Holding(s, q, t, MigDeleting(g.key, names, rest)) && q.dir == r.dir
            else if names == [] || names[0] !in files then Holding(s, q, t, MigLocked(rest)) && q.dir == r.dir
            else Holding(s, q, t, MigDeleting(g.key, names, rest)) && q.dir == Present(Renamed(files, names[0], slot))
  {
    hide NewestFirst, Renamed, Canonical, StepPut, StepGet, StepClear, StepRelease;
    assert ([g] + rest)[1..] == rest;
  }

  lemma DeletesOne(s: Sys, r: Sys, t: nat, key: Key, names: seq<Name>, rest: seq<Group>, c: Choice)
    requires Holding(s, r, t, MigDeleting(key, names, rest)) && names != [] && !c.fail && r.dir.Present?
    ensures var q := Step(r, Advance(t, c));
            Holding(s, q, t, MigDeleting(key, names[1..], rest)) && q.dir == Present(r.dir.files - {names[0]})
  {
    hide StepPut, StepGet, StepClear, StepRelease;
    assert names[0] !in r.dir.files ==> r.dir.files - {names[0]} == r.dir.files;
  }

  lemma {:induction false} DeletesAll(s: Sys, r: Sys, t: nat, key: Key, names: seq<Name>, rest: seq<Group>, c: Choice)
    requires Holding(s, r, t, MigDeleting(key, names, rest)) && !c.fail && r.dir.Present?
    ensures var q := Went(r, t, c, |names|);
            Holding(s, q, t, MigDeleting(key, [], rest)) && q.dir == Present(RemoveAll(r.dir.files, names, NoFaults()))
    decreases |names|
  {
    hide Step, Holding;
    if names == [] {
      assert names == [];
    } else {
      DeletesOne(s, r, t, key, names, rest, c);
      var q := Step(r, Advance(t, c));
      DeletesAll(s, q, t, key, names[1..], rest, c);
      assert Went(r, t, c, 1) == q;
      WentOn(r, t, c, 1, |names| - 1);
      RemovalOrder(r.dir.files, names);
    }
  }

  lemma DeletionEnds(s: Sys, r: Sys, t: nat, key: Key, rest: seq<Group>, c: Choice)
    requires Holding(s, r, t, MigDeleting(key, [], rest))
    ensures var q := Step(r, Advance(t, c));
            Holding(s, q, t, MigLocked(rest)) && q.dir == r.dir
  {
    hide StepPut, StepGet, StepClear, StepRelease;
  }

  lemma MigratesOne(s: Sys, r: Sys, t: nat, g: Group, rest: seq<Group>, c: Choice) returns (n: nat)
    requires Holding(s, r, t, MigLocked([g] + rest)) && r.dir.Present? && !c.fail
    ensures var q := Went(r, t, c, n);
            Holding(s, q, t, MigLocked(rest)) && q.dir == Present(MigrateGroup(r.dir.files, g, NoFaults()))
  {
    hide Step, Holding, Renamed, NewestFirst, RemoveAll;
    var names, files, slot := NamesOf(NewestFirst(g.copies)), r.dir.files, Canonical(g.key);
    Claims(s, r, t, g, rest, c);
    var claimed := Step(r, Advance(t, c));
    assert Went(r, t, c, 1) == claimed;
    if slot !in files && (names == [] || names[0] !in files) {
      n := 1;
      NothingRemoved(files);
    } else {
      DeletesAll(s, claimed, t, g.key, names, rest, c);
      var deleted := Went(claimed, t, c, |names|);
      DeletionEnds(s, deleted, t, g.key, rest, c);
      n := 1 + (|names| + 1);
      WentOn(r, t, c, 1, |names| + 1);
      WentOn(claimed, t, c, |names|, 1);
      assert Went(deleted, t, c, 1) == Step(deleted, Advance(t, c));
    }
  }

  lemma NothingRemoved(files: Files)
    ensures RemoveAll(files, [], NoFaults()) == files
  {
  }

  lemma {:induction false} PassFront(files: Files, groups: seq<Group>, io: Faults)
    requires groups != []
    ensures MigratePass(files, groups, io) == MigratePass(MigrateGroup(files, groups[0], io), groups[1..], io)
  {
    hide MigrateGroup;
    if |groups| == 1 {
      assert groups[..0] == [] && groups[1..] == [];
    } else {
      PassFront(files, groups[..|groups| - 1], io);
      assert groups[1..][..|groups| - 2] == groups[..|groups| - 1][1..];
    }
  }

  lemma {:induction false} MigratesAll(s: Sys, r: Sys, t: nat, groups: seq<Group>, c: Choice) returns (n: nat)
    requires Holding(s, r, t, MigLocked(groups)) && r.dir.Present? && !c.fail
    ensures var q := Went(r, t, c, n);
            Holding(s, q, t, MigLocked([])) && q.dir == Present(MigratePass(r.dir.files, groups, NoFaults()))
    decreases |groups|
  {
    hide Step, Holding, MigrateGroup;
    if groups == [] {
      n := 0;
      assert groups == [];
    } else {
      assert groups == [groups[0]] + groups[1..];
      var m := MigratesOne(s, r, t, groups[0], groups[1..], c);
      var q := Went(r, t, c, m);
      n := MigratesAll(s, q, t, groups[1..], c);
      WentOn(r, t, c, m, n);
      PassFront(r.dir.files, groups, NoFaults());
      n := m + n;
    }
  }

  lemma MigrationEnds(s: Sys, r: Sys, t: nat, c: Choice)
    requires Holding(s, r, t, MigLocked([])) && !c.fail && PcOf(s, t).Idle?
    ensures var q := Step(Step(Step(r, Advance(t, c)), Advance(t, c)), Advance(t, c));
            && Returned(s, q)
            && q.dir == if r.dir.Absent? then Absent else Present(r.dir.files[Marker := Torn])
  {
    hide StepPut, StepGet, StepClear;
    var a := Step(r, Advance(t, c));
    assert PcOf(a, t) == Releasing(true, false);
    var b := Step(a, Advance(t, c));
    assert PcOf(b, t) == Marking;
  }

  lemma MigrateRunIs(s: Sys, t: nat, names: seq<Name>, c: Choice, n: nat)
    ensures Run(s, MigrateRun(t, names, c, n)) == Went(Walked(Step(s, StartMigrate(t)), t, names), t, c, n)
  {
    hide Step;
    RunOne(s, StartMigrate(t));
    RunAppend(s, [StartMigrate(t)], Walk(t, names));
    RunWalk(Step(s, StartMigrate(t)), t, names);
    RunAppend(s, [StartMigrate(t)] + Walk(t, names), Goes(t, c, n));
    RunGoes(Walked(Step(s, StartMigrate(t)), t, names), t, c, n);
  }

  /** A migration that nobody interrupts makes of the directory what the pass on its own does, and
      marks it done. */
  lemma LoneMigrationIsThePass(s: Sys, t: nat, names: seq<Name>, c: Choice) returns (n: nat)
    requires PcOf(s, t).Idle? && s.lock.None? && !c.fail && c.stop && ListsLegacy(names, FilesOf(s.dir))
    ensures var r := Run(s, MigrateRun(t, names, c, n));
            && Returned(s, r)
            && r.dir == if s.dir.Absent? then Absent
                        else Present(MigratePass(s.dir.files, GroupsOf(s.dir.files, names), NoFaults())[Marker := Torn])
  {
    hide Step, Holding, MigratePass, MigrateRun, GroupsOf;
    var begun := Step(s, StartMigrate(t));
    ScanBegins(s, t);
    ScansAll(s, begun, t, names, |names|);
    assert names[..|names|] == names;
    var scanned, seen := Walked(begun, t, names), SeenOf(FilesOf(s.dir), names);
    SameGroups(FilesOf(s.dir), seen, names);
    MigrationLocks(s, scanned, t, seen, names, c);
    var locked := Step(Step(scanned, Advance(t, c)), Advance(t, c));
    TwoSteps(scanned, t, c);
    var groups := GroupsOf(FilesOf(s.dir), names);
    var m := 0;
    if s.dir.Present? {
      m := MigratesAll(s, locked, t, groups, c);
    } else {
      SomeName(names);
      NoGroups();
    }
    var migrated := Went(locked, t, c, m);
    MigrationEnds(s, migrated, t, c);
    ThreeSteps(migrated, t, c);
    n := 2 + (m + 3);
    MigrateRunIs(s, t, names, c, n);
    WentOn(scanned, t, c, 2, m + 3);
    WentOn(locked, t, c, m, 3);
  }

  lemma NoGroups()
    ensures forall files :: GroupsOf(files, []) == []
  {
  }

  lemma ScanBegins(s: Sys, t: nat)
    requires PcOf(s, t).Idle? && s.lock.None?
    ensures var r := Step(s, StartMigrate(t));
            Unlocked(s, r, t, Scanning(map[], [])) && r.dir == s.dir
  {
  }
}
