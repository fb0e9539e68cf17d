/** The manifest cache under any number of threads. Each operation is cut into the disk calls it
    makes; any thread may make its next call at any point, any call may fail, and the process may
    crash between two calls. The directory's lock is the only thing that orders them.

    `hist` records what each step did to the map of cached collections, so that the directory can be
    compared, step by step, with a plain map that changes atomically. */
module ManifestConcurrent {
  import opened Wrappers
  import opened ManifestNames
  import opened EvictionPlan
  import opened CacheFiles
  import opened MigrationPass
  import ManifestCache

  datatype Cause = Evicted | Wiped | Migrated

  datatype AbsEvent =
    | PutEv(k: Key, v: Snapshot)
    | GoneEv(k: Key, cause: Cause)
    | AdoptEv(k: Key, v: Snapshot)
    | GotEv(k: Key, fingerprint: Option<Text>, result: Option<string>)

  /** Where a thread stands. A constructor whose name ends in `Waiting` waits for the lock; `ok` is
      what a put is about to report. */
  datatype Pc =
    | Idle
    | PutWaiting(e: CacheEntry, cap: Option<nat>)
    | PutLocked(e: CacheEntry, cap: Option<nat>)
    | PutMade(e: CacheEntry, cap: Option<nat>)
    | PutStaged(e: CacheEntry, cap: Option<nat>, tmp: Name)
    | PutRenamed(limit: nat)
    | PutEvicting(names: seq<Name>)
    | GetWaiting(k: Key, fingerprint: Option<Text>, now: nat)
    | GetLocked(k: Key, fingerprint: Option<Text>, now: nat)
    | GetRead(k: Key, updated: CacheEntry)
    | GetStaged(k: Key, updated: CacheEntry, tmp: Name)
    | ClearWaiting
    | ClearLocked
    | Scanning(seen: Files, order: seq<Name>)
    | MigWaiting(groups: seq<Group>)
    | MigLocked(groups: seq<Group>)
    | MigDeleting(key: Key, names: seq<Name>, groups: seq<Group>)
    | Releasing(mark: bool, ok: bool)
    | Marking

  datatype Sys = Sys(dir: Dir, lock: Option<nat>, pcs: map<nat, Pc>, serial: nat, hist: seq<AbsEvent>)

  /** What the environment decides about one call: whether it fails, which file a directory walk
      meets next, how a listing is ordered, and how long an entry is on disk. */
  datatype Choice = Choice(fail: bool, stop: bool, pick: Name, order: seq<Name>, sizeOf: CacheEntry -> nat)

  datatype Action =
    | StartPut(t: nat, e: CacheEntry, cap: Option<nat>)
    | StartGet(t: nat, k: Key, fingerprint: Option<Text>, now: nat)
    | StartClear(t: nat)
    | StartMigrate(t: nat)
    | Advance(t: nat, c: Choice)
    | Crash

  function PcOf(s: Sys, t: nat): Pc {
    if t in s.pcs then s.pcs[t] else Idle
  }

  function Init(d: Dir): Sys {
    Sys(d, None, map[], 0, [])
  }

  function Goto(s: Sys, t: nat, pc: Pc): Sys {
    s.(pcs := s.pcs[t := pc])
  }

  function Begin(s: Sys, t: nat, pc: Pc): Sys {
    if PcOf(s, t).Idle? then Goto(s, t, pc) else s
  }

  function Acquire(s: Sys, t: nat, pc: Pc): Sys {
    if s.lock.None? then Goto(s.(lock := Some(t)), t, pc) else s
  }

  function WithFiles(s: Sys, files: Files): Sys {
    s.(dir := Present(files))
  }

  /** Removes one file; the map loses a collection when the file was its slot. */
  function RemoveFile(s: Sys, n: Name, cause: Cause): Sys {
    if s.dir.Absent? || n !in s.dir.files then s
    else
      var content := s.dir.files[n];
      var gone := content.Whole? && n == Canonical(KeyOf(content.entry));
      WithFiles(s, s.dir.files - {n}).(hist := s.hist + (if gone then [GoneEv(KeyOf(content.entry), cause)] else []))
  }

  /** Stages `e`; a failed write leaves torn bytes behind. */
  function StageFile(s: Sys, e: CacheEntry, fail: bool): Sys {
    if s.dir.Absent? then s
    else WithFiles(s, s.dir.files[Staged(s.serial) := if fail then Torn else Whole(e)]).(serial := s.serial + 1)
  }

  function StepPut(s: Sys, t: nat, c: Choice): Sys {
    match PcOf(s, t)
    case PutWaiting(e, cap) => Acquire(s, t, PutLocked(e, cap))
    case PutLocked(e, cap) =>
      if c.fail then Goto(s, t, Releasing(false, false))
      else Goto(s.(dir := Present(FilesOf(s.dir))), t, PutMade(e, cap))
    case PutMade(e, cap) =>
      Goto(StageFile(s, e, c.fail), t, if c.fail || s.dir.Absent? then Releasing(false, false) else PutStaged(e, cap, Staged(s.serial)))
    case PutStaged(e, cap, tmp) =>
      if c.fail || tmp !in FilesOf(s.dir) then Goto(s, t, Releasing(false, false))
      else
        Goto(WithFiles(s, Renamed(FilesOf(s.dir), tmp, Canonical(KeyOf(e)))).(hist := s.hist + [PutEv(KeyOf(e), SnapshotOf(e))]),
             t, if cap.Some? then PutRenamed(cap.value) else Releasing(false, true))
    case PutRenamed(limit) =>
      Goto(s, t, PutEvicting(PlanOf(ManifestCache.Sizes(FilesOf(s.dir), c.order, c.sizeOf), limit)))
    case PutEvicting(names) =>
      if names == [] then Goto(s, t, Releasing(false, true))
      else Goto(if c.fail then s else RemoveFile(s, names[0], Evicted), t, PutEvicting(names[1..]))
    case _ => s
  }

  function StepGet(s: Sys, t: nat, c: Choice): Sys {
    match PcOf(s, t)
    case GetWaiting(k, fingerprint, now) => Acquire(s, t, GetLocked(k, fingerprint, now))
    case GetLocked(k, fingerprint, now) =>
      if c.fail then Goto(s, t, Releasing(false, false))
      else
        var found := Lookup(FilesOf(s.dir), k);
        var result := Answer(found, fingerprint);
        Goto(s.(hist := s.hist + [GotEv(k, fingerprint, result)]), t,
             if result.Some? then GetRead(k, FilesOf(s.dir)[Canonical(k)].entry.(lastAccess := now)) else Releasing(false, false))
    case GetRead(k, updated) =>
      Goto(StageFile(s, updated, c.fail), t, if c.fail || s.dir.Absent? then Releasing(false, false) else GetStaged(k, updated, Staged(s.serial)))
    case GetStaged(k, updated, tmp) =>
      if c.fail || tmp !in FilesOf(s.dir) then Goto(s, t, Releasing(false, false))
      else Goto(WithFiles(s, Renamed(FilesOf(s.dir), tmp, Canonical(k))), t, Releasing(false, false))
    case _ => s
  }

  /** The wipe walks the directory in any order and may be stopped by any file. */
  function StepClear(s: Sys, t: nat, c: Choice): Sys {
    match PcOf(s, t)
    case ClearWaiting => Acquire(s, t, ClearLocked)
    case ClearLocked =>
      if c.fail || s.dir.Absent? then Goto(s, t, Releasing(false, false))
      else if s.dir.files == map[] then Goto(s.(dir := Absent), t, Releasing(false, false))
      else RemoveFile(s, c.pick, Wiped)
    case _ => s
  }

  /** The migration scans without the lock, then claims slots and removes copies under it. */
  function StepMigrate(s: Sys, t: nat, c: Choice): Sys {
    var files := FilesOf(s.dir);
    match PcOf(s, t)
    case Scanning(seen, order) =>
      if c.stop then Goto(s, t, MigWaiting(GroupsOf(seen, order)))
      else if Scanned(files, c.pick) && c.pick != Canonical(KeyOf(files[c.pick].entry))
      then Goto(s, t, Scanning(seen[c.pick := files[c.pick]], order + [c.pick]))
      else s
    case MigWaiting(groups) => Acquire(s, t, MigLocked(groups))
    case MigLocked(groups) =>
      if groups == [] then Goto(s, t, Releasing(true, false))
      else
        var names, slot := NamesOf(NewestFirst(groups[0].copies)), Canonical(groups[0].key);
        if slot in files then Goto(s, t, MigDeleting(groups[0].key, names, groups[1..]))
        else if c.fail || names == [] || names[0] !in files then Goto(s, t, MigLocked(groups[1..]))
        else
          var adopted := files[names[0]];
          Goto(WithFiles(s, Renamed(files, names[0], slot))
                 .(hist := s.hist + (if adopted.Whole? then [AdoptEv(groups[0].key, SnapshotOf(adopted.entry))] else [])),
               t, MigDeleting(groups[0].key, names, groups[1..]))
    case MigDeleting(key, names, groups) =>
      if names == [] then Goto(s, t, MigLocked(groups))
      else Goto(if c.fail then s else RemoveFile(s, names[0], Migrated), t, MigDeleting(key, names[1..], groups))
    case Marking =>
      Goto(if c.fail || s.dir.Absent? then s else WithFiles(s, s.dir.files[Marker := Torn]), t, Idle)
    case _ => s
  }

  function StepRelease(s: Sys, t: nat): Sys {
    if PcOf(s, t).Releasing? then Goto(s.(lock := None), t, if PcOf(s, t).mark then Marking else Idle) else s
  }

  function Step(s: Sys, a: Action): Sys {
    match a
    case StartPut(t, e, cap) => Begin(s, t, PutWaiting(e, cap))
    case StartGet(t, k, fingerprint, now) => Begin(s, t, GetWaiting(k, fingerprint, now))
    case StartClear(t) => Begin(s, t, ClearWaiting)
    case StartMigrate(t) => Begin(s, t, Scanning(map[], []))
    case Crash => s.(lock := None, pcs := map[])
    case Advance(t, c) =>
      var pc := PcOf(s, t);
      if pc.PutWaiting? || pc.PutLocked? || pc.PutMade? || pc.PutStaged? || pc.PutRenamed? || pc.PutEvicting? then StepPut(s, t, c)
      else if pc.GetWaiting? || pc.GetLocked? || pc.GetRead? || pc.GetStaged? then StepGet(s, t, c)
      else if pc.ClearWaiting? || pc.ClearLocked? then StepClear(s, t, c)
      else if pc.Releasing? then StepRelease(s, t)
      else StepMigrate(s, t, c)
  }

  function Run(s: Sys, actions: seq<Action>): Sys {
    if actions == [] then s else Step(Run(s, actions[..|actions| - 1]), actions[|actions| - 1])
  }

  // ---------------------------------------------------------------------------------------------
  // The map the directory stands for.

  /** The collection `k` after `hist`, starting from the files of `d`. */
  ghost function Replay(d: Dir, hist: seq<AbsEvent>, k: Key): Option<Snapshot> {
    if hist == [] then Lookup(FilesOf(d), k)
    else
      var before := Replay(d, hist[..|hist| - 1], k);
      match hist[|hist| - 1]
      case PutEv(k', v) => if k' == k then Some(v) else before
      case AdoptEv(k', v) => if k' == k then Some(v) else before
      case GoneEv(k', _) => if k' == k then None else before
      case GotEv(_, _, _) => before
  }

  /** Reads answer from the map, the migration adopts only what the map lacks, and it never takes a
      collection away. */
  ghost predicate LegalEvent(d: Dir, before: seq<AbsEvent>, e: AbsEvent) {
    match e
    case GotEv(k, fingerprint, result) => result == Answer(Replay(d, before, k), fingerprint)
    case AdoptEv(k, _) => Replay(d, before, k).None?
    case GoneEv(_, cause) => cause != Migrated
    case PutEv(_, _) => true
  }

  ghost predicate Legal(d: Dir, hist: seq<AbsEvent>) {
    forall i :: 0 <= i < |hist| ==> LegalEvent(d, hist[..i], hist[i])
  }
}
