/** The operations of the manifest cache, each running alone on its directory. Disk failures are
    inputs. */
module ManifestCache {
  import opened Wrappers
  import opened ManifestNames
  import opened EvictionPlan
  import opened CacheFiles
  import opened MigrationPass

  /** What the eviction pass is told of each entry `scan` reports, in the listing's order. */
  function Sizes(files: Files, order: seq<Name>, sizeOf: CacheEntry -> nat): seq<Sized> {
    if order == [] then []
    else
      var n := order[|order| - 1];
      Sizes(files, order[..|order| - 1], sizeOf) +
      (if Scanned(files, n) then [Sized(n, sizeOf(files[n].entry), files[n].entry.lastAccess)] else [])
  }

  class CacheDir {
    var dir: Dir
    var serial: nat

    constructor (d: Dir)
      ensures dir == d
    {
      dir, serial := d, 0;
    }

    /** Stages `e` beside its file and renames it into place. */
    method WriteAtomically(e: CacheEntry, io: Faults) returns (ok: bool)
      requires dir.Present?
      modifies this
      ensures dir.Present?
      ensures ok <==> !io.write && !io.rename(Staged(old(serial)))
      ensures ok ==> dir.files == (old(dir.files) - {Staged(old(serial))})[Canonical(KeyOf(e)) := Whole(e)]
      ensures !ok ==> dir.files == old(dir.files)[Staged(old(serial)) := if io.write then Torn else Whole(e)]
    {
      CanonicalsDiffer();
      var tmp := Staged(serial);
      serial := serial + 1;
      if io.write {
        dir := Present(dir.files[tmp := Torn]);
        return false;
      }
      dir := Present(dir.files[tmp := Whole(e)]);
      if io.rename(tmp) {
        return false;
      }
      dir := Present(Renamed(dir.files, tmp, Canonical(KeyOf(e))));
      ok := true;
    }

    /** Replaces one collection's snapshot, or changes none. */
    method Put(e: CacheEntry, io: Faults) returns (ok: bool)
      modifies this
      ensures forall k: Key :: Lookup(FilesOf(dir), k) ==
                if ok && k == KeyOf(e) then Some(SnapshotOf(e)) else Lookup(FilesOf(old(dir)), k)
      ensures ok <==> !io.mkdir && !io.write && !io.rename(Staged(old(serial)))
      ensures ok ==> FilesOf(dir) == (FilesOf(old(dir)) - {Staged(old(serial))})[Canonical(KeyOf(e)) := Whole(e)]
      ensures !ok ==> FilesOf(dir) - {Staged(old(serial))} == FilesOf(old(dir)) - {Staged(old(serial))}
    {
      CanonicalsDiffer();
      if io.mkdir {
        return false;
      }
      if dir.Absent? {
        dir := Present(map[]);
      }
      ghost var before := dir.files;
      ok := WriteAtomically(e, io);
      forall k: Key ensures Lookup(dir.files, k) ==
        if ok && k == KeyOf(e) then Some(SnapshotOf(e)) else Lookup(before, k)
      {
        ghost var gap := {Staged(old(serial))};
        assert Canonical(k) in dir.files <==> Canonical(k) in dir.files - gap;
        assert Canonical(k) in before ==> before[Canonical(k)] == (before - gap)[Canonical(k)];
        assert Canonical(k) in dir.files ==> dir.files[Canonical(k)] == (dir.files - gap)[Canonical(k)];
      }
    }

    /** Reads one collection and refreshes its recency. A hit leaves the entry stamped `now`, and
        every other file as it was; whatever happens to the write-back, no lookup changes. */
    method GetInner(k: Key, fingerprint: Option<Text>, now: nat, io: Faults) returns (envelope: Option<string>)
      modifies this
      ensures envelope == if io.read then None else Answer(Lookup(FilesOf(old(dir)), k), fingerprint)
      ensures forall other: Key :: Lookup(FilesOf(dir), other) == Lookup(FilesOf(old(dir)), other)
      ensures envelope.None? ==> dir == old(dir)
      ensures envelope.Some? && !io.write && !io.rename(Staged(old(serial))) ==>
                Touched(FilesOf(old(dir)), FilesOf(dir), k, now, Staged(old(serial)))
      ensures io.write || io.rename(Staged(old(serial))) ==>
                FilesOf(dir) - {Staged(old(serial))} == FilesOf(old(dir)) - {Staged(old(serial))}
    {
      if io.read || dir.Absent? || Canonical(k) !in dir.files || dir.files[Canonical(k)].Torn? {
        return None;
      }
      var entry := dir.files[Canonical(k)].entry;
      if KeyOf(entry) != k || (fingerprint.Some? && entry.fingerprint != fingerprint.value) {
        return None;
      }
      envelope := Some(entry.envelope);
      CanonicalsDiffer();
      ghost var before := dir.files;
      var ok := WriteAtomically(entry.(lastAccess := now), io);
      forall other: Key ensures Lookup(dir.files, other) == Lookup(before, other) {
        ghost var gap := {Staged(old(serial))};
        assert Canonical(other) in dir.files <==> Canonical(other) in dir.files - gap;
        assert Canonical(other) in before ==> before[Canonical(other)] == (before - gap)[Canonical(other)];
        assert Canonical(other) in dir.files ==> dir.files[Canonical(other)] == (dir.files - gap)[Canonical(other)];
      }
    }

    /** Removes each file it can; a stuck one lingers. */
    method RemoveEach(names: seq<Name>, io: Faults)
      requires dir.Present?
      modifies this`dir
      ensures dir == Present(RemoveAll(old(dir).files, names, io))
    {
      var files := dir.files;
      for i := 0 to |names|
        invariant dir == Present(RemoveAll(files, names[..i], io))
      {
        assert names[..i + 1][..i] == names[..i];
        if !io.remove(names[i]) {
          dir := Present(dir.files - {names[i]});
        }
      }
      assert names[..|names|] == names;
    }

    /** The eviction pass of a `put` that was given a ceiling. `order` is the directory's listing. */
    method EvictOver(order: seq<Name>, cap: nat, sizeOf: CacheEntry -> nat, io: Faults)
      requires dir.Present?
      modifies this`dir
      ensures dir == Present(RemoveAll(old(dir).files, PlanOf(Sizes(old(dir).files, order, sizeOf), cap), io))
    {
      var names := Plan(Sizes(dir.files, order, sizeOf), cap);
      RemoveEach(names, io);
    }

    /** The wipe takes the whole directory, or reports the failure that stopped it part way. */
    method ClearAll(undeletable: set<Name>) returns (ok: bool)
      modifies this`dir
      ensures ok <==> old(dir).Absent? || old(dir).files.Keys !! undeletable
      ensures ok ==> dir == Absent
      ensures forall n :: n in FilesOf(dir) ==> n in FilesOf(old(dir)) && FilesOf(dir)[n] == FilesOf(old(dir))[n]
    {
      if dir.Absent? {
        return true;
      }
      var left := dir.files - (dir.files.Keys - undeletable);
      ok := left == map[];
      if !ok {
        assert exists n :: n in left;
      } else {
        assert forall n :: n in dir.files && n in undeletable ==> n in left;
      }
      dir := if ok then Absent else Present(left);
    }

    /** The legacy copies the listing meets, grouped by the collection they claim. */
    method LegacyGroups(order: seq<Name>) returns (groups: seq<Group>)
      requires dir.Present?
      ensures groups == GroupsOf(dir.files, order)
    {
      groups := [];
      for i := 0 to |order|
        invariant groups == GroupsOf(dir.files, order[..i])
      {
        assert order[..i + 1][..i] == order[..i];
        var n := order[i];
        if Scanned(dir.files, n) && n != Canonical(KeyOf(dir.files[n].entry)) {
          groups := AddTo(groups, KeyOf(dir.files[n].entry), Copy(n, dir.files[n].entry.lastAccess));
        }
      }
      assert order[..|order|] == order;
    }

    /** One collection: claim its slot if it is free, then remove the copies. */
    method ClaimSlot(g: Group, io: Faults)
      requires dir.Present?
      modifies this`dir
      ensures dir == Present(MigrateGroup(old(dir).files, g, io))
    {
      var names := NamesOf(NewestFirst(g.copies));
      var slot := Canonical(g.key);
      if slot !in dir.files {
        if names != [] {
          if names[0] !in dir.files || io.rename(names[0]) {
            return;
          }
          dir := Present(Renamed(dir.files, names[0], slot));
        }
      }
      RemoveEach(names, io);
    }

    /** One migration pass over the listing `order`. */
    method MigrateLegacyDir(order: seq<Name>, io: Faults)
      modifies this`dir
      ensures dir == if old(dir).Absent? then Absent
                     else Present(MigratePass(old(dir).files, GroupsOf(old(dir).files, order), io))
    {
      if dir.Absent? {
        return;
      }
      var files := dir.files;
      var groups := LegacyGroups(order);
      for i := 0 to |groups|
        invariant dir == Present(MigratePass(files, groups[..i], io))
      {
        assert groups[..i + 1][..i] == groups[..i];
        ClaimSlot(groups[i], io);
      }
      assert groups[..|groups|] == groups;
    }
  }
}
