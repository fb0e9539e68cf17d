/** The manifest cache, whatever its threads do, is one map: every run of the machine of
    `ManifestConcurrent` keeps each lookup equal to a replay of the recorded events, and the events
    themselves are legal. The invariant says what each thread may rely on at its next call. */
module ManifestRefinement {
  import opened Wrappers
  import opened ManifestNames
  import opened EvictionPlan
  import opened CacheFiles
  import opened MigrationPass
  import opened ManifestConcurrent
  import MigrationSafety

  // ---------------------------------------------------------------------------------------------
  // The invariant.

  predicate Critical(pc: Pc) {
    !(pc.Idle? || pc.PutWaiting? || pc.GetWaiting? || pc.ClearWaiting? || pc.Scanning? || pc.MigWaiting? || pc.Marking?)
  }

  ghost predicate Odd(n: Name) {
    n.Json? && forall k: Key {:trigger Canonical(k)} :: n != Canonical(k)
  }

  /** A legacy copy noted earlier: if its file still exists, it still holds an entry of that key. */
  ghost predicate Noted(files: Files, n: Name, k: Key) {
    Odd(n) && (n in files ==> files[n].Whole? && KeyOf(files[n].entry) == k)
  }

  ghost predicate GroupNoted(files: Files, g: Group) {
    forall i :: 0 <= i < |g.copies| ==> Noted(files, g.copies[i].name, g.key)
  }

  ghost predicate GroupsNoted(files: Files, groups: seq<Group>) {
    forall i :: 0 <= i < |groups| ==> GroupNoted(files, groups[i])
  }

  ghost predicate SeenNoted(files: Files, seen: Files) {
    forall n :: n in seen ==> Odd(n) && seen[n].Whole? && (n in files ==> files[n] == seen[n])
  }

  ghost predicate NamesNoted(files: Files, names: seq<Name>, k: Key) {
    forall i :: 0 <= i < |names| ==> Noted(files, names[i], k)
  }

  ghost predicate HoldsEntry(files: Files, n: Name, e: CacheEntry) {
    n in files && files[n] == Whole(e)
  }

  /** What a thread may rely on at its next call. */
  ghost predicate PcOk(dir: Dir, pc: Pc) {
    var files := FilesOf(dir);
    match pc
    case PutStaged(e, _, tmp) => tmp.Staged? && HoldsEntry(files, tmp, e)
    case GetRead(k, updated) => KeyOf(updated) == k && Lookup(files, k) == Some(SnapshotOf(updated))
    case GetStaged(k, updated, tmp) =>
      KeyOf(updated) == k && Lookup(files, k) == Some(SnapshotOf(updated)) && tmp.Staged? && HoldsEntry(files, tmp, updated)
    case Scanning(seen, _) => SeenNoted(files, seen)
    case MigWaiting(groups) => GroupsNoted(files, groups)
    case MigLocked(groups) => GroupsNoted(files, groups)
    case MigDeleting(key, names, groups) =>
      GroupsNoted(files, groups) && NamesNoted(files, names, key) && (names != [] ==> Canonical(key) in files)
    case _ => true
  }

  ghost predicate LocksHeld(s: Sys) {
    forall t: nat {:trigger PcOf(s, t)} :: Critical(PcOf(s, t)) ==> s.lock == Some(t)
  }

  ghost predicate ThreadsOk(s: Sys) {
    forall t: nat {:trigger PcOf(s, t)} :: PcOk(s.dir, PcOf(s, t))
  }

  /** Torn `.json` files are leftovers the directory started with, never something a step made. */
  ghost predicate NothingTornSince(d: Dir, dir: Dir) {
    forall n: Name :: n.Json? && n in FilesOf(dir) && FilesOf(dir)[n].Torn? ==> n in FilesOf(d) && FilesOf(d)[n].Torn?
  }

  ghost predicate Refines(d: Dir, s: Sys) {
    && NoneMiskeyed(FilesOf(s.dir))
    && (forall k :: Lookup(FilesOf(s.dir), k) == Replay(d, s.hist, k))
    && Legal(d, s.hist)
    && NothingTornSince(d, s.dir)
  }

  ghost predicate Inv(d: Dir, s: Sys) {
    LocksHeld(s) && ThreadsOk(s) && Refines(d, s)
  }

  // ---------------------------------------------------------------------------------------------
  // What a step leaves alone.

  ghost predicate OddShrinks(files: Files, after: Files) {
    forall n: Name :: Odd(n) && n in after ==> n in files && after[n] == files[n]
  }

  lemma IdleThreadStable(dir: Dir, after: Dir, pc: Pc)
    requires PcOk(dir, pc) && !Critical(pc) && OddShrinks(FilesOf(dir), FilesOf(after))
    ensures PcOk(after, pc)
  {
    if pc.MigWaiting? {
      GroupsStay(FilesOf(dir), FilesOf(after), pc.groups);
    }
  }

  lemma GroupsStay(files: Files, after: Files, groups: seq<Group>)
    requires GroupsNoted(files, groups) && OddShrinks(files, after)
    ensures GroupsNoted(after, groups)
  {
    forall i, j | 0 <= i < |groups| && 0 <= j < |groups[i].copies| ensures Noted(after, groups[i].copies[j].name, groups[i].key) {
      assert GroupNoted(files, groups[i]);
      assert Noted(files, groups[i].copies[j].name, groups[i].key);
    }
  }

  lemma NamesStay(files: Files, after: Files, names: seq<Name>, k: Key)
    requires NamesNoted(files, names, k) && OddShrinks(files, after)
    ensures NamesNoted(after, names, k)
  {
    forall i | 0 <= i < |names| ensures Noted(after, names[i], k) {
      assert Noted(files, names[i], k);
    }
  }

  /** Thread `t` moved; the others still stand on firm ground. */
  lemma ThreadsAfter(s: Sys, r: Sys, t: nat)
    requires LocksHeld(s) && ThreadsOk(s)
    requires forall u :: u != t ==> PcOf(r, u) == PcOf(s, u)
    requires r.dir == s.dir || (s.lock == Some(t) && OddShrinks(FilesOf(s.dir), FilesOf(r.dir)))
    requires r.lock == s.lock || (s.lock.None? && r.lock == Some(t)) || (s.lock == Some(t) && r.lock.None?)
    requires PcOk(r.dir, PcOf(r, t)) && (Critical(PcOf(r, t)) ==> r.lock == Some(t))
    ensures LocksHeld(r) && ThreadsOk(r)
  {
    forall u ensures (Critical(PcOf(r, u)) ==> r.lock == Some(u)) && PcOk(r.dir, PcOf(r, u)) {
      if u != t {
        assert PcOf(r, u) == PcOf(s, u);
        assert PcOk(s.dir, PcOf(s, u));
        if r.dir != s.dir {
          IdleThreadStable(s.dir, r.dir, PcOf(s, u));
        }
      }
    }
  }

  lemma {:induction false} ReplaySame(d: Dir, hist: seq<AbsEvent>, e: AbsEvent, k: Key)
    ensures Replay(d, hist + [e], k) ==
      (match e
       case PutEv(k', v) => if k' == k then Some(v) else Replay(d, hist, k)
       case AdoptEv(k', v) => if k' == k then Some(v) else Replay(d, hist, k)
       case GoneEv(k', _) => if k' == k then None else Replay(d, hist, k)
       case GotEv(_, _, _) => Replay(d, hist, k))
  {
    assert (hist + [e])[..|hist + [e]| - 1] == hist;
  }

  lemma LegalAppend(d: Dir, hist: seq<AbsEvent>, e: AbsEvent)
    requires Legal(d, hist) && LegalEvent(d, hist, e)
    ensures Legal(d, hist + [e])
  {
    var all := hist + [e];
    forall i | 0 <= i < |all| ensures LegalEvent(d, all[..i], all[i]) {
      assert all[..i] == hist[..i];
      assert hist[..|hist|] == hist;
    }
  }

  /** A change that no lookup can see: staged files, the marker, a bare directory. */
  lemma UnseenChange(d: Dir, s: Sys, after: Dir)
    requires Refines(d, s)
    requires forall n: Name :: n.Json? ==> (n in FilesOf(after) <==> n in FilesOf(s.dir)) && (n in FilesOf(after) ==> FilesOf(after)[n] == FilesOf(s.dir)[n])
    ensures Refines(d, s.(dir := after))
    ensures OddShrinks(FilesOf(s.dir), FilesOf(after))
    ensures forall k :: Lookup(FilesOf(after), k) == Lookup(FilesOf(s.dir), k)
  {
  }

  /** One file replaced at a collection's slot by a whole entry of that collection. */
  lemma SlotWritten(d: Dir, s: Sys, tmp: Name, e: CacheEntry, events: seq<AbsEvent>)
    requires Refines(d, s) && tmp in FilesOf(s.dir) && FilesOf(s.dir)[tmp] == Whole(e)
    requires tmp.Staged? || Odd(tmp)
    requires Legal(d, s.hist + events)
    requires forall k :: Replay(d, s.hist + events, k) == if k == KeyOf(e) then Some(SnapshotOf(e)) else Replay(d, s.hist, k)
    ensures var after := Renamed(FilesOf(s.dir), tmp, Canonical(KeyOf(e)));
            && Refines(d, s.(dir := Present(after), hist := s.hist + events))
            && OddShrinks(FilesOf(s.dir), after)
            && Lookup(after, KeyOf(e)) == Some(SnapshotOf(e))
  {
    CanonicalsDiffer();
    var files := FilesOf(s.dir);
    var after := Renamed(files, tmp, Canonical(KeyOf(e)));
    forall k: Key ensures Lookup(after, k) == if k == KeyOf(e) then Some(SnapshotOf(e)) else Lookup(files, k) {
      assert tmp != Canonical(k);
    }
  }

  lemma SlotRemoved(d: Dir, s: Sys, k: Key, cause: Cause)
    requires Refines(d, s) && cause != Migrated
    requires Canonical(k) in FilesOf(s.dir) && FilesOf(s.dir)[Canonical(k)].Whole? && KeyOf(FilesOf(s.dir)[Canonical(k)].entry) == k
    ensures Refines(d, RemoveFile(s, Canonical(k), cause))
  {
    CanonicalsDiffer();
    var gone := GoneEv(k, cause);
    LegalAppend(d, s.hist, gone);
    forall other: Key ensures Lookup(FilesOf(s.dir) - {Canonical(k)}, other) == Replay(d, s.hist + [gone], other) {
      ReplaySame(d, s.hist, gone, other);
    }
  }

  lemma OtherFileRemoved(d: Dir, s: Sys, n: Name, cause: Cause)
    requires Refines(d, s) && n in FilesOf(s.dir)
    requires !(FilesOf(s.dir)[n].Whole? && n == Canonical(KeyOf(FilesOf(s.dir)[n].entry)))
    ensures Refines(d, RemoveFile(s, n, cause))
  {
    assert RemoveFile(s, n, cause).hist == s.hist;
    forall k: Key ensures Lookup(FilesOf(s.dir) - {n}, k) == Lookup(FilesOf(s.dir), k) {
    }
  }

  /** One file removed: at most one collection disappears, and the history says so. */
  lemma FileRemoved(d: Dir, s: Sys, n: Name, cause: Cause)
    requires Refines(d, s)
    requires cause.Migrated? ==> Odd(n)
    ensures Refines(d, RemoveFile(s, n, cause))
    ensures OddShrinks(FilesOf(s.dir), FilesOf(RemoveFile(s, n, cause).dir))
  {
    if n in FilesOf(s.dir) {
      var content := FilesOf(s.dir)[n];
      if content.Whole? && n == Canonical(KeyOf(content.entry)) {
        SlotRemoved(d, s, KeyOf(content.entry), cause);
      } else {
        OtherFileRemoved(d, s, n, cause);
      }
    }
  }

  // ---------------------------------------------------------------------------------------------
  // Each operation keeps the invariant.

  lemma MoveOnly(d: Dir, s: Sys, r: Sys, t: nat)
    requires Inv(d, s) && r.dir == s.dir && r.hist == s.hist
    requires forall u :: u != t ==> PcOf(r, u) == PcOf(s, u)
    requires r.lock == s.lock || (s.lock.None? && r.lock == Some(t)) || (s.lock == Some(t) && r.lock.None?)
    requires PcOk(s.dir, PcOf(r, t)) && (Critical(PcOf(r, t)) ==> r.lock == Some(t))
    ensures Inv(d, r)
  {
    ThreadsAfter(s, r, t);
  }

  lemma StageKeeps(d: Dir, s: Sys, t: nat, e: CacheEntry, fail: bool, pc: Pc)
    requires Inv(d, s) && s.lock == Some(t)
    requires PcOk(StageFile(s, e, fail).dir, pc)
    ensures Inv(d, Goto(StageFile(s, e, fail), t, pc))
    ensures s.dir.Present? && !fail ==> HoldsEntry(FilesOf(StageFile(s, e, fail).dir), Staged(s.serial), e)
  {
    var r := StageFile(s, e, fail);
    if s.dir.Present? {
      UnseenChange(d, s, r.dir);
    }
    ThreadsAfter(s, Goto(r, t, pc), t);
  }

  lemma StagedIsSeenless(d: Dir, s: Sys, e: CacheEntry, fail: bool)
    requires Refines(d, s)
    ensures forall k :: Lookup(FilesOf(StageFile(s, e, fail).dir), k) == Lookup(FilesOf(s.dir), k)
  {
    if s.dir.Present? { UnseenChange(d, s, StageFile(s, e, fail).dir); }
  }

  lemma PutLandsKeeps(d: Dir, s: Sys, t: nat, e: CacheEntry, tmp: Name, pc: Pc)
    requires Inv(d, s) && s.lock == Some(t) && tmp.Staged? && HoldsEntry(FilesOf(s.dir), tmp, e)
    requires pc.PutRenamed? || pc.Releasing?
    ensures Inv(d, Goto(WithFiles(s, Renamed(FilesOf(s.dir), tmp, Canonical(KeyOf(e)))).(hist := s.hist + [PutEv(KeyOf(e), SnapshotOf(e))]), t, pc))
  {
    var ev := PutEv(KeyOf(e), SnapshotOf(e));
    LegalAppend(d, s.hist, ev);
    forall k ensures Replay(d, s.hist + [ev], k) == if k == KeyOf(e) then Some(SnapshotOf(e)) else Replay(d, s.hist, k) {
      ReplaySame(d, s.hist, ev, k);
    }
    SlotWritten(d, s, tmp, e, [ev]);
    ThreadsAfter(s, Goto(WithFiles(s, Renamed(FilesOf(s.dir), tmp, Canonical(KeyOf(e)))).(hist := s.hist + [ev]), t, pc), t);
  }

  lemma RemoveKeeps(d: Dir, s: Sys, t: nat, n: Name, cause: Cause, pc: Pc)
    requires Inv(d, s) && s.lock == Some(t)
    requires cause.Migrated? ==> Odd(n)
    requires PcOk(RemoveFile(s, n, cause).dir, pc)
    ensures Inv(d, Goto(RemoveFile(s, n, cause), t, pc))
  {
    FileRemoved(d, s, n, cause);
    ThreadsAfter(s, Goto(RemoveFile(s, n, cause), t, pc), t);
  }

  lemma PutMadeKeeps(d: Dir, s: Sys, t: nat, c: Choice, e: CacheEntry, cap: Option<nat>)
    requires Inv(d, s) && PcOf(s, t) == PutMade(e, cap)
    ensures Inv(d, StepPut(s, t, c))
  {
    assert Critical(PcOf(s, t));
    StageKeeps(d, s, t, e, c.fail, Releasing(false, false));
    StageKeeps(d, s, t, e, c.fail, PcOf(StepPut(s, t, c), t));
  }

  lemma PutMakesDir(d: Dir, s: Sys, t: nat, c: Choice, e: CacheEntry, cap: Option<nat>)
    requires Inv(d, s) && PcOf(s, t) == PutLocked(e, cap) && !c.fail
    ensures Inv(d, StepPut(s, t, c))
  {
    assert Critical(PcOf(s, t));
    UnseenChange(d, s, Present(FilesOf(s.dir)));
    ThreadsAfter(s, StepPut(s, t, c), t);
  }

  lemma PutStagedKeeps(d: Dir, s: Sys, t: nat, c: Choice, e: CacheEntry, cap: Option<nat>, tmp: Name)
    requires Inv(d, s) && PcOf(s, t) == PutStaged(e, cap, tmp) && !c.fail
    ensures Inv(d, StepPut(s, t, c))
  {
    assert PcOk(s.dir, PcOf(s, t)) && Critical(PcOf(s, t));
    PutLandsKeeps(d, s, t, e, tmp, PcOf(StepPut(s, t, c), t));
  }

  lemma PutEvictsKeeps(d: Dir, s: Sys, t: nat, c: Choice, names: seq<Name>)
    requires Inv(d, s) && PcOf(s, t) == PutEvicting(names) && names != [] && !c.fail
    ensures Inv(d, StepPut(s, t, c))
  {
    assert Critical(PcOf(s, t));
    RemoveKeeps(d, s, t, names[0], Evicted, PutEvicting(names[1..]));
  }

  /** The calls of a put that touch the disk. */
  predicate PutActs(pc: Pc, c: Choice) {
    pc.PutMade? || (!c.fail && (pc.PutLocked? || pc.PutStaged? || (pc.PutEvicting? && pc.names != [])))
  }

  lemma PutKeeps(d: Dir, s: Sys, t: nat, c: Choice)
    requires Inv(d, s)
    ensures Inv(d, StepPut(s, t, c))
  {
    var pc := PcOf(s, t);
    if PutActs(pc, c) {
      match pc
      case PutLocked(e, cap) => PutMakesDir(d, s, t, c, e, cap);
      case PutMade(e, cap) => PutMadeKeeps(d, s, t, c, e, cap);
      case PutStaged(e, cap, tmp) => PutStagedKeeps(d, s, t, c, e, cap, tmp);
      case PutEvicting(names) => PutEvictsKeeps(d, s, t, c, names);
    } else {
      PutMoves(d, s, t, c);
    }
  }

  lemma PutMoves(d: Dir, s: Sys, t: nat, c: Choice)
    requires Inv(d, s) && !PutActs(PcOf(s, t), c)
    ensures Inv(d, StepPut(s, t, c))
  {
    assert PcOk(s.dir, PcOf(s, t));
    MoveOnly(d, s, StepPut(s, t, c), t);
  }

  /** The recency write-back replaces an entry by the same snapshot, so no lookup changes. */
  lemma WriteBackKeeps(d: Dir, s: Sys, t: nat, k: Key, updated: CacheEntry, tmp: Name)
    requires Inv(d, s) && s.lock == Some(t) && PcOk(s.dir, GetStaged(k, updated, tmp))
    ensures var after := Present(Renamed(FilesOf(s.dir), tmp, Canonical(k)));
            && Inv(d, Goto(s.(dir := after), t, Releasing(false, false)))
            && forall k' :: Lookup(FilesOf(after), k') == Lookup(FilesOf(s.dir), k')
  {
    assert s.hist + [] == s.hist;
    SlotWritten(d, s, tmp, updated, []);
    ThreadsAfter(s, Goto(WithFiles(s, Renamed(FilesOf(s.dir), tmp, Canonical(k))), t, Releasing(false, false)), t);
  }

  lemma ReadKeeps(d: Dir, s: Sys, t: nat, k: Key, fingerprint: Option<Text>, now: nat, c: Choice)
    requires Inv(d, s) && PcOf(s, t) == GetLocked(k, fingerprint, now) && !c.fail
    ensures Inv(d, StepGet(s, t, c))
  {
    var ev := GotEv(k, fingerprint, Answer(Lookup(FilesOf(s.dir), k), fingerprint));
    LegalAppend(d, s.hist, ev);
    forall k' ensures Replay(d, s.hist + [ev], k') == Replay(d, s.hist, k') {
      ReplaySame(d, s.hist, ev, k');
    }
    assert Critical(PcOf(s, t));
    ThreadsAfter(s, StepGet(s, t, c), t);
  }

  lemma GetStagesKeeps(d: Dir, s: Sys, t: nat, c: Choice, k: Key, updated: CacheEntry)
    requires Inv(d, s) && PcOf(s, t) == GetRead(k, updated)
    ensures Inv(d, StepGet(s, t, c))
  {
    assert PcOk(s.dir, PcOf(s, t)) && Critical(PcOf(s, t));
    StagedIsSeenless(d, s, updated, c.fail);
    StageKeeps(d, s, t, updated, c.fail, Releasing(false, false));
    StageKeeps(d, s, t, updated, c.fail, PcOf(StepGet(s, t, c), t));
  }

  lemma GetWritesKeeps(d: Dir, s: Sys, t: nat, c: Choice, k: Key, updated: CacheEntry, tmp: Name)
    requires Inv(d, s) && PcOf(s, t) == GetStaged(k, updated, tmp) && !c.fail
    ensures Inv(d, StepGet(s, t, c))
  {
    assert PcOk(s.dir, PcOf(s, t)) && Critical(PcOf(s, t));
    WriteBackKeeps(d, s, t, k, updated, tmp);
  }

  lemma GetMoves(d: Dir, s: Sys, t: nat, c: Choice)
    requires Inv(d, s) && !PcOf(s, t).GetRead?
    requires c.fail || !(PcOf(s, t).GetLocked? || PcOf(s, t).GetStaged?)
    ensures Inv(d, StepGet(s, t, c))
  {
    assert PcOk(s.dir, PcOf(s, t));
    MoveOnly(d, s, StepGet(s, t, c), t);
  }

  lemma GetKeeps(d: Dir, s: Sys, t: nat, c: Choice)
    requires Inv(d, s)
    ensures Inv(d, StepGet(s, t, c))
  {
    match PcOf(s, t)
    case GetLocked(k, fingerprint, now) =>
      if c.fail { GetMoves(d, s, t, c); } else { ReadKeeps(d, s, t, k, fingerprint, now, c); }
    case GetRead(k, updated) => GetStagesKeeps(d, s, t, c, k, updated);
    case GetStaged(k, updated, tmp) =>
      if c.fail { GetMoves(d, s, t, c); } else { GetWritesKeeps(d, s, t, c, k, updated, tmp); }
    case _ => GetMoves(d, s, t, c);
  }

  lemma ClearKeeps(d: Dir, s: Sys, t: nat, c: Choice)
    requires Inv(d, s)
    ensures Inv(d, StepClear(s, t, c))
  {
    var pc := PcOf(s, t);
    var r := StepClear(s, t, c);
    if pc.ClearLocked? && !c.fail && s.dir.Present? {
      assert Critical(pc);
      if s.dir.files == map[] {
        UnseenChange(d, s, Absent);
        ThreadsAfter(s, r, t);
      } else {
        FileRemoved(d, s, c.pick, Wiped);
        ThreadsAfter(s, r, t);
      }
    } else {
      MoveOnly(d, s, r, t);
    }
  }

  /** What the scan notes of a legacy copy: its name is no collection's slot. */
  lemma ScanNotes(files: Files, seen: Files, n: Name)
    requires NoneMiskeyed(files) && SeenNoted(files, seen)
    requires Scanned(files, n) && n != Canonical(KeyOf(files[n].entry))
    ensures SeenNoted(files, seen[n := files[n]])
  {
    assert Odd(n);
  }

  lemma GroupsFromScan(files: Files, seen: Files, order: seq<Name>)
    requires SeenNoted(files, seen)
    ensures GroupsNoted(files, GroupsOf(seen, order))
  {
    MigrationSafety.GroupsAre(seen, order);
    var groups := GroupsOf(seen, order);
    forall i, j | 0 <= i < |groups| && 0 <= j < |groups[i].copies| ensures Noted(files, groups[i].copies[j].name, groups[i].key) {
      assert MigrationSafety.GroupOk(seen, groups[i]);
      assert MigrationSafety.IsCopy(seen, groups[i], groups[i].copies[j]);
    }
  }

  lemma SortedNoted(files: Files, g: Group)
    requires GroupNoted(files, g)
    ensures NamesNoted(files, NamesOf(NewestFirst(g.copies)), g.key)
  {
    MigrationSafety.NewestFirstSorts(g.copies);
    var sorted := NewestFirst(g.copies);
    forall i | 0 <= i < |sorted| ensures Noted(files, NamesOf(sorted)[i], g.key) {
      assert sorted[i] in g.copies;
      var j :| 0 <= j < |g.copies| && g.copies[j] == sorted[i];
      assert Noted(files, g.copies[j].name, g.key);
    }
  }

  lemma AdoptKeeps(d: Dir, s: Sys, t: nat, groups: seq<Group>, c: Choice)
    requires Inv(d, s) && PcOf(s, t) == MigLocked(groups) && groups != [] && !c.fail
    requires Canonical(groups[0].key) !in FilesOf(s.dir)
    requires NamesOf(NewestFirst(groups[0].copies)) != [] && NamesOf(NewestFirst(groups[0].copies))[0] in FilesOf(s.dir)
    ensures Inv(d, StepMigrate(s, t, c))
  {
    var g, files := groups[0], FilesOf(s.dir);
    var names, slot := NamesOf(NewestFirst(g.copies)), Canonical(g.key);
    assert PcOk(s.dir, PcOf(s, t)) && Critical(PcOf(s, t));
    assert GroupNoted(files, g);
    SortedNoted(files, g);
    assert Noted(files, names[0], g.key);
    var e := files[names[0]].entry;
    var ev := AdoptEv(g.key, SnapshotOf(e));
    assert Lookup(files, g.key).None?;
    LegalAppend(d, s.hist, ev);
    forall k ensures Replay(d, s.hist + [ev], k) == if k == KeyOf(e) then Some(SnapshotOf(e)) else Replay(d, s.hist, k) {
      ReplaySame(d, s.hist, ev, k);
    }
    SlotWritten(d, s, names[0], e, [ev]);
    var after := Renamed(files, names[0], slot);
    NamesStay(files, after, names, g.key);
    assert GroupsNoted(files, groups[1..]);
    GroupsStay(files, after, groups[1..]);
    ThreadsAfter(s, StepMigrate(s, t, c), t);
  }

  lemma DeleteKeeps(d: Dir, s: Sys, t: nat, key: Key, names: seq<Name>, groups: seq<Group>, c: Choice)
    requires Inv(d, s) && PcOf(s, t) == MigDeleting(key, names, groups) && names != [] && !c.fail
    ensures Inv(d, StepMigrate(s, t, c))
  {
    var files := FilesOf(s.dir);
    assert PcOk(s.dir, PcOf(s, t)) && Critical(PcOf(s, t));
    assert Noted(files, names[0], key);
    FileRemoved(d, s, names[0], Migrated);
    var after := FilesOf(RemoveFile(s, names[0], Migrated).dir);
    assert NamesNoted(files, names[1..], key);
    NamesStay(files, after, names[1..], key);
    GroupsStay(files, after, groups);
    assert names[0] != Canonical(key);
    RemoveKeeps(d, s, t, names[0], Migrated, MigDeleting(key, names[1..], groups));
  }

  lemma MarkKeeps(d: Dir, s: Sys, t: nat)
    requires Inv(d, s) && PcOf(s, t).Marking? && s.dir.Present?
    ensures Inv(d, Goto(WithFiles(s, s.dir.files[Marker := Torn]), t, Idle))
  {
    var r := Goto(WithFiles(s, s.dir.files[Marker := Torn]), t, Idle);
    UnseenChange(d, s, r.dir);
    forall u: nat ensures (Critical(PcOf(r, u)) ==> r.lock == Some(u)) && PcOk(r.dir, PcOf(r, u)) {
      if u != t {
        assert PcOf(r, u) == PcOf(s, u) && PcOk(s.dir, PcOf(s, u));
        MarkerStable(s.dir, r.dir, PcOf(s, u));
      }
    }
  }

  lemma MarkerStable(dir: Dir, after: Dir, pc: Pc)
    requires PcOk(dir, pc) && dir.Present? && after == Present(dir.files[Marker := Torn])
    ensures PcOk(after, pc)
  {
    if !Critical(pc) {
      IdleThreadStable(dir, after, pc);
    } else if pc.MigLocked? {
      GroupsStay(FilesOf(dir), FilesOf(after), pc.groups);
    } else if pc.MigDeleting? {
      GroupsStay(FilesOf(dir), FilesOf(after), pc.groups);
      NamesStay(FilesOf(dir), FilesOf(after), pc.names, pc.key);
    }
  }

  lemma ScanKeeps(d: Dir, s: Sys, t: nat, c: Choice, seen: Files, order: seq<Name>)
    requires Inv(d, s) && PcOf(s, t) == Scanning(seen, order)
    ensures Inv(d, StepMigrate(s, t, c))
  {
    var files := FilesOf(s.dir);
    assert PcOk(s.dir, PcOf(s, t));
    if c.stop {
      GroupsFromScan(files, seen, order);
    } else if Scanned(files, c.pick) && c.pick != Canonical(KeyOf(files[c.pick].entry)) {
      ScanNotes(files, seen, c.pick);
    }
    MoveOnly(d, s, StepMigrate(s, t, c), t);
  }

  /** Whether the claim of the first group will rename its newest copy into place. */
  ghost predicate Adopts(files: Files, groups: seq<Group>, c: Choice) {
    && groups != [] && !c.fail && Canonical(groups[0].key) !in files
    && var names := NamesOf(NewestFirst(groups[0].copies));
       names != [] && names[0] in files
  }

  lemma ClaimMoves(d: Dir, s: Sys, t: nat, c: Choice, groups: seq<Group>)
    requires Inv(d, s) && PcOf(s, t) == MigLocked(groups) && !Adopts(FilesOf(s.dir), groups, c)
    ensures Inv(d, StepMigrate(s, t, c))
  {
    var files := FilesOf(s.dir);
    assert PcOk(s.dir, PcOf(s, t)) && Critical(PcOf(s, t));
    if groups != [] {
      assert GroupNoted(files, groups[0]);
      SortedNoted(files, groups[0]);
      assert GroupsNoted(files, groups[1..]);
    }
    MoveOnly(d, s, StepMigrate(s, t, c), t);
  }

  lemma DeletingKeeps(d: Dir, s: Sys, t: nat, c: Choice, key: Key, names: seq<Name>, groups: seq<Group>)
    requires Inv(d, s) && PcOf(s, t) == MigDeleting(key, names, groups)
    ensures Inv(d, StepMigrate(s, t, c))
  {
    if names != [] && !c.fail {
      DeleteKeeps(d, s, t, key, names, groups, c);
    } else {
      assert PcOk(s.dir, PcOf(s, t)) && Critical(PcOf(s, t));
      if names != [] {
        assert NamesNoted(FilesOf(s.dir), names[1..], key);
      }
      MoveOnly(d, s, StepMigrate(s, t, c), t);
    }
  }

  lemma MigrateMoves(d: Dir, s: Sys, t: nat, c: Choice)
    requires Inv(d, s)
    requires !(PcOf(s, t).Scanning? || PcOf(s, t).MigLocked? || PcOf(s, t).MigDeleting?)
    requires PcOf(s, t).Marking? ==> c.fail || s.dir.Absent?
    ensures Inv(d, StepMigrate(s, t, c))
  {
    assert PcOk(s.dir, PcOf(s, t));
    MoveOnly(d, s, StepMigrate(s, t, c), t);
  }

  lemma MigrateKeeps(d: Dir, s: Sys, t: nat, c: Choice)
    requires Inv(d, s)
    ensures Inv(d, StepMigrate(s, t, c))
  {
    match PcOf(s, t)
    case Scanning(seen, order) => ScanKeeps(d, s, t, c, seen, order);
    case MigLocked(groups) =>
      if Adopts(FilesOf(s.dir), groups, c) { AdoptKeeps(d, s, t, groups, c); } else { ClaimMoves(d, s, t, c, groups); }
    case MigDeleting(key, names, groups) => DeletingKeeps(d, s, t, c, key, names, groups);
    case Marking =>
      if c.fail || s.dir.Absent? { MigrateMoves(d, s, t, c); } else { MarkKeeps(d, s, t); }
    case _ => MigrateMoves(d, s, t, c);
  }

  lemma StepKeeps(d: Dir, s: Sys, a: Action)
    requires Inv(d, s)
    ensures Inv(d, Step(s, a))
  {
    match a
    case Advance(t, c) =>
      PutKeeps(d, s, t, c);
      GetKeeps(d, s, t, c);
      ClearKeeps(d, s, t, c);
      MigrateKeeps(d, s, t, c);
      assert PcOk(s.dir, PcOf(s, t));
      if PcOf(s, t).Releasing? { MoveOnly(d, s, StepRelease(s, t), t); }
    case Crash =>
      assert forall u: nat :: PcOf(Step(s, a), u) == Idle;
    case StartPut(t, e, cap) => BeginKeeps(d, s, t, PutWaiting(e, cap));
    case StartGet(t, k, fingerprint, now) => BeginKeeps(d, s, t, GetWaiting(k, fingerprint, now));
    case StartClear(t) => BeginKeeps(d, s, t, ClearWaiting);
    case StartMigrate(t) => BeginKeeps(d, s, t, Scanning(map[], []));
  }

  lemma BeginKeeps(d: Dir, s: Sys, t: nat, pc: Pc)
    requires Inv(d, s) && !Critical(pc) && PcOk(s.dir, pc)
    ensures Inv(d, Begin(s, t, pc))
  {
    assert PcOk(s.dir, PcOf(s, t));
    MoveOnly(d, s, Begin(s, t, pc), t);
  }

  // ---------------------------------------------------------------------------------------------
  // Whole runs.

  lemma {:induction false} RunKeeps(d: Dir, actions: seq<Action>)
    requires NoneMiskeyed(FilesOf(d))
    ensures Inv(d, Run(Init(d), actions))
  {
    if actions == [] {
      assert forall t: nat :: PcOf(Init(d), t) == Idle;
    } else {
      var front := actions[..|actions| - 1];
      RunKeeps(d, front);
      StepKeeps(d, Run(Init(d), front), actions[|actions| - 1]);
    }
  }

  /** The directory is the map, and the map changes only as the map's own operations allow. */
  ghost predicate IsOneMap(d: Dir, s: Sys) {
    (forall k :: Lookup(FilesOf(s.dir), k) == Replay(d, s.hist, k)) && Legal(d, s.hist)
  }

  /** Any number of threads, any interleaving, any failures and crashes: the cache is one map. */
  lemma EveryRunIsOneMap(d: Dir, actions: seq<Action>)
    requires NoneMiskeyed(FilesOf(d))
    ensures IsOneMap(d, Run(Init(d), actions))
  {
    RunKeeps(d, actions);
  }

  /** At every moment, a crash included, each slot that was not already unreadable holds one whole
      entry of its own collection. */
  lemma EveryMomentHoldsWholeEntries(d: Dir, actions: seq<Action>)
    requires SlotsKeyed(FilesOf(d))
    ensures SlotsKeyed(FilesOf(Run(Init(d), actions).dir))
  {
    RunKeeps(d, actions);
  }

  ghost predicate Touches(e: AbsEvent, k: Key) {
    !e.GotEv? && e.k == k
  }

  /** Nothing but a put or an adoption puts a snapshot in place, and the latest event decides: once
      a put of `k` landed, `k` reads as that snapshot until another put, an eviction or a wipe of
      `k`; once `k` is gone, it stays gone until it is put or adopted. */
  lemma {:induction false} LastEventDecides(d: Dir, hist: seq<AbsEvent>, k: Key, i: nat)
    requires i < |hist| && Touches(hist[i], k)
    requires forall j :: i < j < |hist| ==> !Touches(hist[j], k)
    ensures Replay(d, hist, k) == if hist[i].GoneEv? then None else Some(hist[i].v)
    decreases |hist|
  {
    if i < |hist| - 1 {
      assert !Touches(hist[|hist| - 1], k);
      LastEventDecides(d, hist[..|hist| - 1], k, i);
    }
  }

  /** No write-back restores a replaced snapshot, no eviction or wipe is undone by a reader. */
  lemma NothingIsRestored(d: Dir, actions: seq<Action>, k: Key, i: nat)
    requires NoneMiskeyed(FilesOf(d))
    requires var hist := Run(Init(d), actions).hist;
             i < |hist| && Touches(hist[i], k) && forall j :: i < j < |hist| ==> !Touches(hist[j], k)
    ensures var s := Run(Init(d), actions);
            Lookup(FilesOf(s.dir), k) == if s.hist[i].GoneEv? then None else Some(s.hist[i].v)
  {
    RunKeeps(d, actions);
    LastEventDecides(d, Run(Init(d), actions).hist, k, i);
  }

  /** A read answers with the snapshot of the last event before it, or with nothing. */
  lemma ReadsSeeTheLastEvent(d: Dir, actions: seq<Action>, k: Key, i: nat, j: nat)
    requires NoneMiskeyed(FilesOf(d))
    requires var hist := Run(Init(d), actions).hist;
             && i < j < |hist| && Touches(hist[i], k) && hist[j].GotEv? && hist[j].k == k
             && forall m :: i < m < j ==> !Touches(hist[m], k)
    ensures var hist := Run(Init(d), actions).hist;
            hist[j].result == Answer(if hist[i].GoneEv? then None else Some(hist[i].v), hist[j].fingerprint)
  {
    RunKeeps(d, actions);
    var hist := Run(Init(d), actions).hist;
    assert LegalEvent(d, hist[..j], hist[j]);
    LastEventDecides(d, hist[..j], k, i);
  }

  // ---------------------------------------------------------------------------------------------
  // The migration, in any company, loses no collection.

  lemma CopyStays(files: Files, after: Files, k: Key, n: Name, m: Name)
    requires Scanned(files, n) && KeyOf(files[n].entry) == k
    requires m in after && after[m] == files[n] && m.Json?
    ensures HasCopy(after, k)
  {
    assert Scanned(after, m) && KeyOf(after[m].entry) == k;
  }

  predicate Migrating(pc: Pc) {
    pc.Scanning? || pc.MigWaiting? || pc.MigLocked? || pc.MigDeleting? || pc.Marking?
  }

  lemma ClaimKeepsCopy(s: Sys, t: nat, c: Choice, groups: seq<Group>, k: Key, n: Name)
    requires PcOf(s, t) == MigLocked(groups)
    requires Scanned(FilesOf(s.dir), n) && KeyOf(FilesOf(s.dir)[n].entry) == k
    ensures HasCopy(FilesOf(StepMigrate(s, t, c).dir), k)
  {
    var after := FilesOf(StepMigrate(s, t, c).dir);
    if groups != [] && n !in after {
      CopyStays(FilesOf(s.dir), after, k, n, Canonical(groups[0].key));
    } else {
      CopyStays(FilesOf(s.dir), after, k, n, n);
    }
  }

  /** The collection's own slot, if it exists, holds a whole entry of it. */
  ghost predicate SlotKeyed(files: Files, k: Key) {
    Canonical(k) in files ==> files[Canonical(k)].Whole? && KeyOf(files[Canonical(k)].entry) == k
  }

  /** Before a copy is removed its collection holds its slot. */
  lemma DeletingKeepsCopy(s: Sys, t: nat, c: Choice, key: Key, names: seq<Name>, groups: seq<Group>, k: Key, n: Name)
    requires PcOf(s, t) == MigDeleting(key, names, groups) && PcOk(s.dir, PcOf(s, t)) && SlotKeyed(FilesOf(s.dir), k)
    requires Scanned(FilesOf(s.dir), n) && KeyOf(FilesOf(s.dir)[n].entry) == k
    ensures HasCopy(FilesOf(StepMigrate(s, t, c).dir), k)
  {
    var files, after := FilesOf(s.dir), FilesOf(StepMigrate(s, t, c).dir);
    if n in after {
      CopyStays(files, after, k, n, n);
    } else {
      assert Noted(files, n, key);
      CopyStays(files, after, k, Canonical(k), Canonical(k));
    }
  }

  lemma StepKeepsCopy(s: Sys, t: nat, c: Choice, k: Key)
    requires Migrating(PcOf(s, t)) && PcOk(s.dir, PcOf(s, t)) && SlotKeyed(FilesOf(s.dir), k) && HasCopy(FilesOf(s.dir), k)
    ensures HasCopy(FilesOf(Step(s, Advance(t, c)).dir), k)
  {
    var n: Name :| Scanned(FilesOf(s.dir), n) && KeyOf(FilesOf(s.dir)[n].entry) == k;
    match PcOf(s, t)
    case MigLocked(groups) => ClaimKeepsCopy(s, t, c, groups, k, n);
    case MigDeleting(key, names, groups) => DeletingKeepsCopy(s, t, c, key, names, groups, k, n);
    case _ =>
      var after := FilesOf(StepMigrate(s, t, c).dir);
      CopyStays(FilesOf(s.dir), after, k, n, n);
  }

  /** Whatever else is going on, a migration's step leaves a collection a readable copy, unless the
      directory started with the collection's own slot unreadable. */
  lemma MigrationStepKeepsCopies(d: Dir, actions: seq<Action>, t: nat, c: Choice, k: Key)
    requires NoneMiskeyed(FilesOf(d)) && SlotKeyed(FilesOf(d), k) && Migrating(PcOf(Run(Init(d), actions), t))
    requires HasCopy(FilesOf(Run(Init(d), actions).dir), k)
    ensures HasCopy(FilesOf(Run(Init(d), actions + [Advance(t, c)]).dir), k)
  {
    RunKeeps(d, actions);
    assert (actions + [Advance(t, c)])[..|actions + [Advance(t, c)]| - 1] == actions;
    StepKeepsCopy(Run(Init(d), actions), t, c, k);
  }
}
