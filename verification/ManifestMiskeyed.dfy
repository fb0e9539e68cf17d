/** Exactly when the cache directory is one map: when it starts with no entry filed under another
    collection's name. The scan takes such a file for a legacy copy; a put that replaces it before
    the migration holds the lock is then moved away or deleted in its place. */
module ManifestMiskeyed {
  import opened Wrappers
  import opened ManifestNames
  import opened EvictionPlan
  import opened CacheFiles
  import opened MigrationPass
  import opened ManifestConcurrent
  import opened ManifestRefinement

  const NO_SIZE: CacheEntry -> nat := (e: CacheEntry) => 0

  function Go(t: nat): Action {
    Advance(t, Choice(false, true, Marker, [], NO_SIZE))
  }

  function Pick(t: nat, n: Name): Action {
    Advance(t, Choice(false, false, n, [], NO_SIZE))
  }

  lemma {:induction false} RunAppend(s: Sys, xs: seq<Action>, ys: seq<Action>)
    ensures Run(s, xs + ys) == Run(Run(s, xs), ys)
  {
    if ys == [] {
      assert xs + ys == xs;
    } else {
      var front := ys[..|ys| - 1];
      RunAppend(s, xs, front);
      assert (xs + ys)[..|xs + ys| - 1] == xs + front;
    }
  }

  lemma RunOne(s: Sys, a: Action)
    ensures Run(s, [a]) == Step(s, a)
  {
    assert [a][..0] == [];
  }

  lemma RunMore(s: Sys, xs: seq<Action>, a: Action)
    ensures Run(s, xs + [a]) == Step(Run(s, xs), a)
  {
    RunAppend(s, xs, [a]);
    RunOne(Run(s, xs), a);
  }

  function PutRun(t: nat, e: CacheEntry): seq<Action> {
    [StartPut(t, e, None)] + [Go(t)] + [Go(t)] + [Go(t)] + [Go(t)] + [Go(t)]
  }

  /** The disk with the new entry staged beside what was there. */
  function WithStaged(s: Sys, e: CacheEntry): Files {
    FilesOf(s.dir)[Staged(s.serial) := Whole(e)]
  }

  lemma PutSteps(s: Sys, t: nat, e: CacheEntry)
    requires PcOf(s, t).Idle? && s.lock.None?
    ensures var s1 := Step(s, StartPut(t, e, None));
            var s2 := Step(s1, Go(t));
            var s3 := Step(s2, Go(t));
            var s4 := Step(s3, Go(t));
            && s1 == Goto(s, t, PutWaiting(e, None))
            && s2 == Goto(s, t, PutLocked(e, None)).(lock := Some(t), pcs := s1.pcs[t := PutLocked(e, None)])
            && s3 == s2.(dir := Present(FilesOf(s.dir)), pcs := s2.pcs[t := PutMade(e, None)])
            && s4 == s3.(dir := Present(WithStaged(s, e)), serial := s.serial + 1, pcs := s3.pcs[t := PutStaged(e, None, Staged(s.serial))])
  {
  }

  lemma PutLands(s: Sys, t: nat, e: CacheEntry, tmp: Name)
    requires PcOf(s, t) == PutStaged(e, None, tmp) && s.lock == Some(t) && s.dir.Present? && tmp in s.dir.files
    ensures var r := Step(Step(s, Go(t)), Go(t));
            && PcOf(r, t).Idle? && (forall u: nat :: u != t ==> PcOf(r, u) == PcOf(s, u)) && r.lock.None?
            && r.hist == s.hist + [PutEv(KeyOf(e), SnapshotOf(e))]
            && r.dir == Present(Renamed(s.dir.files, tmp, Canonical(KeyOf(e))))
  {
    var landed := Step(s, Go(t));
    assert PcOf(landed, t) == Releasing(false, true);
  }

  lemma PutRunIs(s: Sys, t: nat, e: CacheEntry)
    ensures Run(s, PutRun(t, e)) == Step(Step(Step(Step(Step(Step(s, StartPut(t, e, None)), Go(t)), Go(t)), Go(t)), Go(t)), Go(t))
  {
    hide Step;
    var a0 := [StartPut(t, e, None)];
    var a1 := a0 + [Go(t)];
    var a2 := a1 + [Go(t)];
    var a3 := a2 + [Go(t)];
    var a4 := a3 + [Go(t)];
    RunOne(s, StartPut(t, e, None));
    RunMore(s, a0, Go(t));
    RunMore(s, a1, Go(t));
    RunMore(s, a2, Go(t));
    RunMore(s, a3, Go(t));
    RunMore(s, a4, Go(t));
  }

  /** A put that nobody interrupts and no call fails lands, whatever is cached. */
  lemma LonePutLands(s: Sys, t: nat, e: CacheEntry)
    requires PcOf(s, t).Idle? && s.lock.None?
    ensures var r := Run(s, PutRun(t, e));
            && (forall u: nat :: PcOf(r, u) == PcOf(s, u)) && r.lock.None?
            && r.hist == s.hist + [PutEv(KeyOf(e), SnapshotOf(e))]
            && r.dir == Present(Renamed(FilesOf(s.dir)[Staged(s.serial) := Whole(e)], Staged(s.serial), Canonical(KeyOf(e))))
  {
    hide Step, Renamed, KeyOf, SnapshotOf, PutRun;
    PutRunIs(s, t, e);
    PutSteps(s, t, e);
    var s4 := Step(Step(Step(Step(s, StartPut(t, e, None)), Go(t)), Go(t)), Go(t));
    PutLands(s4, t, e, Staged(s.serial));
    var r := Run(s, PutRun(t, e));
    forall u: nat ensures PcOf(r, u) == PcOf(s, u) {
      if u != t { assert PcOf(r, u) == PcOf(s4, u) == PcOf(s, u); }
    }
  }

  function ScanRun(n: Name): seq<Action> {
    [StartMigrate(0)] + [Pick(0, n)] + [Go(0)]
  }

  lemma OneLegacyGroup(files: Files, n: Name)
    requires Scanned(files, n) && n != Canonical(KeyOf(files[n].entry))
    ensures GroupsOf(files, [n]) == [Group(KeyOf(files[n].entry), [Copy(n, files[n].entry.lastAccess)])]
  {
    assert [n][..0] == [];
    assert GroupsOf(files, []) == [];
  }

  /** The scan meets the one file and stops. */
  lemma ScanSteps(d: Dir, slot: Name)
    requires Scanned(FilesOf(d), slot) && slot != Canonical(KeyOf(FilesOf(d)[slot].entry))
    ensures var s := Step(Step(Step(Init(d), StartMigrate(0)), Pick(0, slot)), Go(0));
            s == Init(d).(pcs := map[0 := MigWaiting(GroupsOf(map[slot := FilesOf(d)[slot]], [slot]))])
  {
    assert [] + [slot] == [slot];
  }

  lemma ScanTakesIt(d: Dir, k: Key, slot: Name)
    requires d.Present? && slot == Canonical(k) && slot in d.files && d.files[slot].Whole? && KeyOf(d.files[slot].entry) != k
    ensures var s := Run(Init(d), ScanRun(slot));
            var x := d.files[slot].entry;
            && s.dir == d && s.lock.None? && s.hist == [] && PcOf(s, 1).Idle?
            && PcOf(s, 0) == MigWaiting([Group(KeyOf(x), [Copy(slot, x.lastAccess)])])
  {
    CanonicalsDiffer();
    RunOne(Init(d), StartMigrate(0));
    RunMore(Init(d), [StartMigrate(0)], Pick(0, slot));
    RunMore(Init(d), [StartMigrate(0)] + [Pick(0, slot)], Go(0));
    ScanSteps(d, slot);
    OneLegacyGroup(map[slot := d.files[slot]], slot);
  }

  /** The migration holds the lock and has noted a name that is now the slot of a fresh put. */
  ghost predicate AboutToClaim(s: Sys, k: Key, other: Key, e: CacheEntry) {
    && other != k && KeyOf(e) == k && HoldsEntry(FilesOf(s.dir), Canonical(k), e)
    && PcOf(s, 0).MigLocked? && |PcOf(s, 0).groups| == 1 && PcOf(s, 0).groups[0].key == other
    && NamesOf(NewestFirst(PcOf(s, 0).groups[0].copies)) == [Canonical(k)]
  }

  lemma ClaimTakesAnothersEntry(d: Dir, s: Sys, k: Key, other: Key, e: CacheEntry)
    requires AboutToClaim(s, k, other, e) && Canonical(other) !in FilesOf(s.dir)
    ensures !IsOneMap(d, Step(s, Go(0)))
  {
    CanonicalsDiffer();
    var claimed := Step(s, Go(0));
    ReplaySame(d, s.hist, AdoptEv(other, SnapshotOf(e)), other);
    assert Lookup(FilesOf(claimed.dir), other).None?;
    assert Replay(d, claimed.hist, other).Some?;
  }

  lemma ClaimDeletesAFreshPut(d: Dir, s: Sys, k: Key, other: Key, e: CacheEntry)
    requires AboutToClaim(s, k, other, e) && Canonical(other) in FilesOf(s.dir)
    ensures !IsOneMap(d, Step(Step(s, Go(0)), Go(0)))
  {
    CanonicalsDiffer();
    assert PcOf(Step(s, Go(0)), 0) == MigDeleting(other, [Canonical(k)], []);
    var after := Step(Step(s, Go(0)), Go(0));
    assert after.hist == s.hist + [GoneEv(k, Migrated)];
    assert !LegalEvent(d, after.hist[..|s.hist|], after.hist[|s.hist|]);
  }

  lemma ClaimGoesWrong(d: Dir, s: Sys, k: Key, other: Key, access: nat, e: CacheEntry)
    requires s.lock.None? && PcOf(s, 0) == MigWaiting([Group(other, [Copy(Canonical(k), access)])])
    requires other != k && KeyOf(e) == k && HoldsEntry(FilesOf(s.dir), Canonical(k), e)
    ensures !IsOneMap(d, Run(s, [Go(0)] + [Go(0)])) || !IsOneMap(d, Run(s, [Go(0)] + [Go(0)] + [Go(0)]))
  {
    RunOne(s, Go(0));
    RunMore(s, [Go(0)], Go(0));
    RunMore(s, [Go(0)] + [Go(0)], Go(0));
    var copies := [Copy(Canonical(k), access)];
    assert NamesOf(NewestFirst(copies)) == [Canonical(k)] by {
      assert copies[1..] == [] && copies[..0] == [];
    }
    var locked := Run(s, [Go(0)]);
    if Canonical(other) !in FilesOf(s.dir) {
      ClaimTakesAnothersEntry(d, locked, k, other, e);
    } else {
      ClaimDeletesAFreshPut(d, locked, k, other, e);
    }
  }

  lemma MiskeyedSlotBreaksTheMap(d: Dir, k: Key)
    requires Canonical(k) in FilesOf(d) && FilesOf(d)[Canonical(k)].Whole? && KeyOf(FilesOf(d)[Canonical(k)].entry) != k
    ensures exists actions :: !IsOneMap(d, Run(Init(d), actions))
  {
    var slot := Canonical(k);
    var x := d.files[slot].entry;
    var e := CacheEntry(k.npub, k.slug, x.fingerprint, x.envelope, x.lastAccess);
    ScanTakesIt(d, k, slot);
    var noted := Run(Init(d), ScanRun(slot));
    LonePutLands(noted, 1, e);
    var landed := Run(noted, PutRun(1, e));
    ClaimGoesWrong(d, landed, k, KeyOf(x), x.lastAccess, e);
    RunAppend(Init(d), ScanRun(slot), PutRun(1, e));
    RunAppend(Init(d), ScanRun(slot) + PutRun(1, e), [Go(0)] + [Go(0)]);
    RunAppend(Init(d), ScanRun(slot) + PutRun(1, e), [Go(0)] + [Go(0)] + [Go(0)]);
  }

  /** The directory is one map in every run exactly when no file is filed under another's name. */
  lemma OneMapIff(d: Dir)
    ensures NoneMiskeyed(FilesOf(d)) <==> forall actions :: IsOneMap(d, Run(Init(d), actions))
  {
    if NoneMiskeyed(FilesOf(d)) {
      forall actions ensures IsOneMap(d, Run(Init(d), actions)) {
        EveryRunIsOneMap(d, actions);
      }
    } else {
      var k: Key :| Canonical(k) in FilesOf(d) && FilesOf(d)[Canonical(k)].Whole? && KeyOf(FilesOf(d)[Canonical(k)].entry) != k;
      MiskeyedSlotBreaksTheMap(d, k);
    }
  }
}
