/** The operations of the shared cache when nobody interrupts them and no call fails: each leaves the
    directory the operation promises, and hands the lock back. */
module ManifestAlone {
  import opened Wrappers
  import opened ManifestNames
  import opened EvictionPlan
  import opened CacheFiles
  import opened MigrationPass
  import opened ManifestConcurrent
  import opened ManifestMiskeyed
  import opened EvictionRecency
  import ManifestCache

  /** `n` calls of one thread in a row. */
  function Goes(t: nat, c: Choice, n: nat): (r: seq<Action>)
    ensures |r| == n && forall i :: 0 <= i < n ==> r[i] == Advance(t, c)
  {
    seq(n, _ => Advance(t, c))
  }

  function Went(s: Sys, t: nat, c: Choice, n: nat): Sys {
    if n == 0 then s else Step(Went(s, t, c, n - 1), Advance(t, c))
  }

  lemma {:induction false} RunGoes(s: Sys, t: nat, c: Choice, n: nat)
    ensures Run(s, Goes(t, c, n)) == Went(s, t, c, n)
  {
    hide Step;
    if n > 0 {
      RunGoes(s, t, c, n - 1);
      assert Goes(t, c, n)[..n - 1] == Goes(t, c, n - 1);
    }
  }

  lemma {:induction false} WentOn(s: Sys, t: nat, c: Choice, m: nat, n: nat)
    ensures Went(Went(s, t, c, m), t, c, n) == Went(s, t, c, m + n)
  {
    hide Step;
    if n > 0 { WentOn(s, t, c, m, n - 1); }
  }

  lemma RunStarted(s: Sys, start: Action, t: nat, c: Choice, n: nat)
    ensures Run(s, [start] + Goes(t, c, n)) == Went(Step(s, start), t, c, n)
  {
    hide Step;
    RunAppend(s, [start], Goes(t, c, n));
    RunOne(s, start);
    RunGoes(Step(s, start), t, c, n);
  }

  /** In thread `t`'s call: it holds the lock, and the others stand where they stood in `s`. */
  ghost predicate Holding(s: Sys, r: Sys, t: nat, pc: Pc) {
    r.lock == Some(t) && PcOf(r, t) == pc && forall u: nat :: u != t ==> PcOf(r, u) == PcOf(s, u)
  }

  /** Thread `t`'s call is over, and the others stand where they stood in `s`. */
  ghost predicate Returned(s: Sys, r: Sys) {
    r.lock.None? && forall u: nat :: PcOf(r, u) == PcOf(s, u)
  }

  lemma Releases(s: Sys, r: Sys, t: nat, c: Choice, ok: bool)
    requires Holding(s, r, t, Releasing(false, ok)) && PcOf(s, t).Idle?
    ensures var q := Step(r, Advance(t, c));
            Returned(s, q) && q.dir == r.dir && q.hist == r.hist
  {
    hide StepGet, StepClear, StepMigrate, StepPut;
    var q := Step(r, Advance(t, c));
    assert PcOf(q, t).Idle?;
  }

  lemma {:induction false} IdleStays(s: Sys, t: nat, c: Choice, n: nat)
    requires PcOf(s, t).Idle?
    ensures Went(s, t, c, n) == s
  {
    hide StepGet, StepClear, StepRelease, StepPut;
    if n > 0 { IdleStays(s, t, c, n - 1); }
  }

  // ---------------------------------------------------------------------------------------------
  // Get.

  function GetRun(t: nat, k: Key, fingerprint: Option<Text>, now: nat, c: Choice): seq<Action> {
    [StartGet(t, k, fingerprint, now)] + Goes(t, c, 5)
  }

  lemma GetReads(s: Sys, t: nat, k: Key, fingerprint: Option<Text>, now: nat, c: Choice)
    requires PcOf(s, t).Idle? && s.lock.None? && !c.fail
    ensures var r := Step(Step(Step(s, StartGet(t, k, fingerprint, now)), Advance(t, c)), Advance(t, c));
            var result := Answer(Lookup(FilesOf(s.dir), k), fingerprint);
            && r.dir == s.dir && r.serial == s.serial && r.hist == s.hist + [GotEv(k, fingerprint, result)]
            && Holding(s, r, t, if result.Some? then GetRead(k, FilesOf(s.dir)[Canonical(k)].entry.(lastAccess := now))
                                else Releasing(false, false))
  {
    hide Lookup, Answer, Canonical, StepPut, StepClear, StepMigrate, StepRelease;
    var a := Step(s, StartGet(t, k, fingerprint, now));
    assert PcOf(a, t) == GetWaiting(k, fingerprint, now);
    var b := Step(a, Advance(t, c));
    assert PcOf(b, t) == GetLocked(k, fingerprint, now);
  }

  lemma GetStages(s: Sys, r: Sys, t: nat, k: Key, updated: CacheEntry, c: Choice)
    requires Holding(s, r, t, GetRead(k, updated)) && r.dir.Present? && !c.fail
    ensures var q := Step(r, Advance(t, c));
            && Holding(s, q, t, GetStaged(k, updated, Staged(r.serial))) && q.hist == r.hist
            && q.dir == Present(r.dir.files[Staged(r.serial) := Whole(updated)])
  {
    hide Canonical, StepPut, StepClear, StepMigrate, StepRelease;
  }

  lemma GetRenames(s: Sys, r: Sys, t: nat, k: Key, updated: CacheEntry, tmp: Name, c: Choice)
    requires Holding(s, r, t, GetStaged(k, updated, tmp)) && tmp in FilesOf(r.dir) && !c.fail
    ensures var q := Step(r, Advance(t, c));
            && Holding(s, q, t, Releasing(false, false)) && q.hist == r.hist
            && q.dir == Present(Renamed(FilesOf(r.dir), tmp, Canonical(k)))
  {
    hide Canonical, Renamed, StepPut, StepClear, StepMigrate, StepRelease;
  }

  lemma StagedTakesPlace(files: Files, n: nat, to: Name, e: CacheEntry)
    ensures Renamed(files[Staged(n) := Whole(e)], Staged(n), to) == (files - {Staged(n)})[to := Whole(e)]
  {
    assert files[Staged(n) := Whole(e)] - {Staged(n)} == files - {Staged(n)};
  }

  lemma GetWrites(s: Sys, r: Sys, t: nat, k: Key, updated: CacheEntry, c: Choice)
    requires Holding(s, r, t, GetRead(k, updated)) && r.dir.Present? && !c.fail
    ensures var q := Step(Step(r, Advance(t, c)), Advance(t, c));
            && Holding(s, q, t, Releasing(false, false)) && q.hist == r.hist
            && q.dir == Present((r.dir.files - {Staged(r.serial)})[Canonical(k) := Whole(updated)])
  {
    hide Canonical, Step, Holding, Renamed;
    GetStages(s, r, t, k, updated, c);
    GetRenames(s, Step(r, Advance(t, c)), t, k, updated, Staged(r.serial), c);
    StagedTakesPlace(r.dir.files, r.serial, Canonical(k), updated);
  }

  /** A get that nobody interrupts answers from the lookup; a hit stamps the entry with the read and
      changes no other file, a miss changes nothing. */
  lemma LoneGetTouches(s: Sys, t: nat, k: Key, fingerprint: Option<Text>, now: nat, c: Choice)
    requires PcOf(s, t).Idle? && s.lock.None? && !c.fail
    ensures var r := Run(s, GetRun(t, k, fingerprint, now, c));
            var result := Answer(Lookup(FilesOf(s.dir), k), fingerprint);
            && Returned(s, r) && r.hist == s.hist + [GotEv(k, fingerprint, result)]
            && (result.None? ==> r.dir == s.dir)
            && (result.Some? ==> Touched(FilesOf(s.dir), FilesOf(r.dir), k, now, Staged(s.serial)))
  {
    hide Step, Holding, Canonical;
    var started := Step(s, StartGet(t, k, fingerprint, now));
    RunStarted(s, StartGet(t, k, fingerprint, now), t, c, 5);
    GetReads(s, t, k, fingerprint, now, c);
    var read := Step(Step(started, Advance(t, c)), Advance(t, c));
    assert Went(started, t, c, 2) == read by { assert Went(started, t, c, 1) == Step(started, Advance(t, c)); }
    WentOn(started, t, c, 2, 3);
    if Answer(Lookup(FilesOf(s.dir), k), fingerprint).Some? {
      GetWrites(s, read, t, k, FilesOf(s.dir)[Canonical(k)].entry.(lastAccess := now), c);
      var wrote := Step(Step(read, Advance(t, c)), Advance(t, c));
      Releases(s, wrote, t, c, false);
      assert Went(read, t, c, 2) == wrote by { assert Went(read, t, c, 1) == Step(read, Advance(t, c)); }
    } else {
      Releases(s, read, t, c, false);
      var done := Step(read, Advance(t, c));
      assert Went(read, t, c, 1) == done;
      WentOn(read, t, c, 1, 2);
      IdleStays(done, t, c, 2);
    }
  }

  // ---------------------------------------------------------------------------------------------
  // A put with a ceiling.

  function CappedPutRun(t: nat, e: CacheEntry, cap: nat, c: Choice, n: nat): seq<Action> {
    [StartPut(t, e, Some(cap))] + Goes(t, c, n)
  }

  /** The directory with the new entry in its place. */
  function Landed(s: Sys, e: CacheEntry): Files {
    (FilesOf(s.dir) - {Staged(s.serial)})[Canonical(KeyOf(e)) := Whole(e)]
  }

  lemma PutLocks(s: Sys, t: nat, e: CacheEntry, cap: nat, c: Choice)
    requires PcOf(s, t).Idle? && s.lock.None?
    ensures var r := Step(Step(s, StartPut(t, e, Some(cap))), Advance(t, c));
            && Holding(s, r, t, PutLocked(e, Some(cap))) && r.hist == s.hist && r.dir == s.dir && r.serial == s.serial
  {
    hide StepGet, StepClear, StepMigrate, StepRelease;
    assert PcOf(Step(s, StartPut(t, e, Some(cap))), t) == PutWaiting(e, Some(cap));
  }

  lemma PutMakes(s: Sys, r: Sys, t: nat, e: CacheEntry, cap: nat, c: Choice)
    requires Holding(s, r, t, PutLocked(e, Some(cap))) && !c.fail
    ensures var q := Step(r, Advance(t, c));
            Holding(s, q, t, PutMade(e, Some(cap))) && q.hist == r.hist && q.dir == Present(FilesOf(r.dir)) && q.serial == r.serial
  {
    hide StepGet, StepClear, StepMigrate, StepRelease;
  }

  lemma PutWrites(s: Sys, r: Sys, t: nat, e: CacheEntry, cap: nat, c: Choice)
    requires Holding(s, r, t, PutMade(e, Some(cap))) && r.dir.Present? && !c.fail
    ensures var q := Step(r, Advance(t, c));
            && Holding(s, q, t, PutStaged(e, Some(cap), Staged(r.serial))) && q.hist == r.hist
            && q.dir == Present(r.dir.files[Staged(r.serial) := Whole(e)])
  {
    hide StepGet, StepClear, StepMigrate, StepRelease;
  }

  lemma PutStages(s: Sys, t: nat, e: CacheEntry, cap: nat, c: Choice)
    requires PcOf(s, t).Idle? && s.lock.None? && !c.fail
    ensures var r := Step(Step(Step(Step(s, StartPut(t, e, Some(cap))), Advance(t, c)), Advance(t, c)), Advance(t, c));
            && Holding(s, r, t, PutStaged(e, Some(cap), Staged(s.serial))) && r.hist == s.hist
            && r.dir == Present(FilesOf(s.dir)[Staged(s.serial) := Whole(e)])
  {
    hide Step, Holding;
    PutLocks(s, t, e, cap, c);
    var locked := Step(Step(s, StartPut(t, e, Some(cap))), Advance(t, c));
    PutMakes(s, locked, t, e, cap, c);
    PutWrites(s, Step(locked, Advance(t, c)), t, e, cap, c);
  }

  lemma PutRenames(s: Sys, r: Sys, t: nat, e: CacheEntry, cap: nat, c: Choice, stage: Name)
    requires Holding(s, r, t, PutStaged(e, Some(cap), stage)) && !c.fail && stage in FilesOf(r.dir)
    ensures var q := Step(r, Advance(t, c));
            && Holding(s, q, t, PutRenamed(cap)) && q.hist == r.hist + [PutEv(KeyOf(e), SnapshotOf(e))]
            && q.dir == Present(Renamed(FilesOf(r.dir), stage, Canonical(KeyOf(e))))
  {
    hide Renamed, Canonical, KeyOf, SnapshotOf, StepGet, StepClear, StepMigrate, StepRelease;
  }

  lemma PutPlansIt(s: Sys, r: Sys, t: nat, cap: nat, c: Choice)
    requires Holding(s, r, t, PutRenamed(cap))
    ensures var q := Step(r, Advance(t, c));
            && Holding(s, q, t, PutEvicting(PlanOf(ManifestCache.Sizes(FilesOf(r.dir), c.order, c.sizeOf), cap)))
            && q.dir == r.dir && q.hist == r.hist
  {
    hide ManifestCache.Sizes, PlanOf, StepGet, StepClear, StepMigrate, StepRelease;
  }

  lemma PutPlans(s: Sys, r: Sys, t: nat, e: CacheEntry, cap: nat, c: Choice, n: nat, files: Files)
    requires Holding(s, r, t, PutStaged(e, Some(cap), Staged(n))) && !c.fail
    requires r.dir == Present(files[Staged(n) := Whole(e)])
    ensures var q := Step(Step(r, Advance(t, c)), Advance(t, c));
            var landed := (files - {Staged(n)})[Canonical(KeyOf(e)) := Whole(e)];
            && Holding(s, q, t, PutEvicting(PlanOf(ManifestCache.Sizes(landed, c.order, c.sizeOf), cap)))
            && q.dir == Present(landed) && q.hist == r.hist + [PutEv(KeyOf(e), SnapshotOf(e))]
  {
    hide ManifestCache.Sizes, PlanOf, Step, Holding, Canonical, KeyOf, SnapshotOf, Renamed;
    PutRenames(s, r, t, e, cap, c, Staged(n));
    StagedTakesPlace(files, n, Canonical(KeyOf(e)), e);
    PutPlansIt(s, Step(r, Advance(t, c)), t, cap, c);
  }

  lemma RemovalOrder(files: Files, names: seq<Name>)
    requires names != []
    ensures RemoveAll(files - {names[0]}, names[1..], NoFaults()) == RemoveAll(files, names, NoFaults())
  {
    hide RemoveAll;
    var a, b := RemoveAll(files, names, NoFaults()), RemoveAll(files - {names[0]}, names[1..], NoFaults());
    RemoveAllKeeps(files, names, NoFaults());
    RemoveAllKeeps(files - {names[0]}, names[1..], NoFaults());
    forall n ensures n in a <==> n in b {
      FirstOrRest(names, n);
    }
    SameFiles(files, a, b);
  }

  lemma FirstOrRest(names: seq<Name>, n: Name)
    requires names != []
    ensures n in names <==> n == names[0] || n in names[1..]
  {
    assert names == [names[0]] + names[1..];
  }

  lemma SameFiles(files: Files, a: Files, b: Files)
    requires forall n :: n in a <==> n in b
    requires forall n :: n in a ==> n in files && a[n] == files[n]
    requires forall n :: n in b ==> n in files && b[n] == files[n]
    ensures a == b
  {
    assert a.Keys == b.Keys;
  }

  lemma EvictsOne(s: Sys, r: Sys, t: nat, c: Choice, names: seq<Name>)
    requires Holding(s, r, t, PutEvicting(names)) && names != [] && !c.fail && r.dir.Present?
    ensures var q := Step(r, Advance(t, c));
            Holding(s, q, t, PutEvicting(names[1..])) && q.dir == Present(r.dir.files - {names[0]})
  {
    hide StepGet, StepClear, StepMigrate, StepRelease;
    assert names[0] !in r.dir.files ==> r.dir.files - {names[0]} == r.dir.files;
  }

  lemma {:induction false} EvictsAll(s: Sys, r: Sys, t: nat, c: Choice, names: seq<Name>)
    requires Holding(s, r, t, PutEvicting(names)) && !c.fail && r.dir.Present?
    ensures var q := Went(r, t, c, |names|);
            Holding(s, q, t, PutEvicting([])) && q.dir == Present(RemoveAll(r.dir.files, names, NoFaults()))
    decreases |names|
  {
    hide Step, Holding;
    if names == [] {
      assert names == [];
    } else {
      EvictsOne(s, r, t, c, names);
      var q := Step(r, Advance(t, c));
      EvictsAll(s, q, t, c, names[1..]);
      assert Went(r, t, c, 1) == q;
      WentOn(r, t, c, 1, |names| - 1);
      RemovalOrder(r.dir.files, names);
    }
  }

  lemma EvictionEnds(s: Sys, r: Sys, t: nat, c: Choice)
    requires Holding(s, r, t, PutEvicting([]))
    ensures var q := Step(r, Advance(t, c));
            Holding(s, q, t, Releasing(false, true)) && q.dir == r.dir
  {
    hide StepGet, StepClear, StepMigrate, StepRelease;
  }

  /** A put with a ceiling that nobody interrupts: the entry lands, and exactly the planned files go. */
  lemma LonePutEvicts(s: Sys, t: nat, e: CacheEntry, cap: nat, c: Choice) returns (n: nat)
    requires PcOf(s, t).Idle? && s.lock.None? && !c.fail
    ensures var r := Run(s, CappedPutRun(t, e, cap, c, n));
            Returned(s, r) && r.dir == Present(AfterEviction(Landed(s, e), c.order, cap, c.sizeOf, NoFaults()))
  {
    hide Step, Holding, KeyOf, SnapshotOf, Canonical, PlanOf, ManifestCache.Sizes;
    var started := Step(s, StartPut(t, e, Some(cap)));
    PutStages(s, t, e, cap, c);
    var staged := Step(Step(Step(started, Advance(t, c)), Advance(t, c)), Advance(t, c));
    ThreeSteps(started, t, c);
    PutPlans(s, staged, t, e, cap, c, s.serial, FilesOf(s.dir));
    var planned := Step(Step(staged, Advance(t, c)), Advance(t, c));
    TwoSteps(staged, t, c);
    var names := PlanOf(ManifestCache.Sizes(Landed(s, e), c.order, c.sizeOf), cap);
    EvictsAll(s, planned, t, c, names);
    var evicted := Went(planned, t, c, |names|);
    EvictionEnds(s, evicted, t, c);
    Releases(s, Step(evicted, Advance(t, c)), t, c, true);
    TwoSteps(evicted, t, c);
    n := 3 + 2 + |names| + 2;
    RunStarted(s, StartPut(t, e, Some(cap)), t, c, n);
    WentOn(started, t, c, 3, 2 + |names| + 2);
    WentOn(staged, t, c, 2, |names| + 2);
    WentOn(planned, t, c, |names|, 2);
  }

  lemma TwoSteps(s: Sys, t: nat, c: Choice)
    ensures Went(s, t, c, 2) == Step(Step(s, Advance(t, c)), Advance(t, c))
  {
    hide Step;
    assert Went(s, t, c, 1) == Step(s, Advance(t, c));
  }

  lemma ThreeSteps(s: Sys, t: nat, c: Choice)
    ensures Went(s, t, c, 3) == Step(Step(Step(s, Advance(t, c)), Advance(t, c)), Advance(t, c))
  {
    hide Step;
    TwoSteps(s, t, c);
  }

  /** So what is cached afterwards fits the ceiling, or is a single entry. */
  lemma LonePutFits(s: Sys, t: nat, e: CacheEntry, cap: nat, c: Choice) returns (n: nat)
    requires PcOf(s, t).Idle? && s.lock.None? && !c.fail && ListsAll(c.order, Landed(s, e))
    ensures var left := ManifestCache.Sizes(FilesOf(Run(s, CappedPutRun(t, e, cap, c, n)).dir), c.order, c.sizeOf);
            Total(left) <= cap || |left| <= 1
  {
    hide Returned, AfterEviction, Total, ManifestCache.Sizes;
    n := LonePutEvicts(s, t, e, cap, c);
    EvictionFits(Landed(s, e), c.order, cap, c.sizeOf);
  }

  /** A read keeps a collection cached: after a get of `k` at `now`, later than every other access, a
      put of another collection removes `k` only together with every other entry but its own. */
  lemma ReadOutlivesPut(s: Sys, t: nat, k: Key, fingerprint: Option<Text>, now: nat, e: CacheEntry, cap: nat, c: Choice, other: Name)
    returns (n: nat)
    requires PcOf(s, t).Idle? && s.lock.None? && !c.fail && KeyOf(e) != k
    requires Answer(Lookup(FilesOf(s.dir), k), fingerprint).Some?
    requires Scanned(FilesOf(s.dir), other) && other != Canonical(k) && other != Canonical(KeyOf(e))
    requires FilesOf(s.dir)[other].entry.lastAccess < now
    requires ListsAll(c.order, Landed(Run(s, GetRun(t, k, fingerprint, now, c)), e))
    ensures var read := Run(s, GetRun(t, k, fingerprint, now, c));
            var after := FilesOf(Run(read, CappedPutRun(t, e, cap, c, n)).dir);
            Canonical(k) in after || other !in after
  {
    hide Run, GetRun, CappedPutRun, PlanOf, ManifestCache.Sizes, AfterEviction;
    CanonicalsDiffer();
    var read := Run(s, GetRun(t, k, fingerprint, now, c));
    LoneGetTouches(s, t, k, fingerprint, now, c);
    n := LonePutEvicts(read, t, e, cap, c);
    assert AccessedBefore(Landed(read, e), other, Canonical(k));
    if Canonical(k) !in AfterEviction(Landed(read, e), c.order, cap, c.sizeOf, NoFaults()) {
      OlderGoFirst(Landed(read, e), c.order, cap, c.sizeOf, NoFaults(), other, Canonical(k));
    }
  }
}
