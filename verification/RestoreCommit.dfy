/** A restore, call by call, with other programs at work on the same target and a crash possible at
    any moment: the target is the old one, or empty, or the complete restored directory. */
module RestoreCommit {
  import opened Wrappers
  import opened ArchivePaths
  import opened ArchiveRestore

  /** What is at the profile's path. */
  datatype Target = Missing | NotADirectory | Folder(files: map<Rel, string>, readable: bool)

  datatype Pc =
    | Begin
    | Staging(done: nat, x: Extraction)
    | Checking(files: map<Rel, string>)
    | Removing(files: map<Rel, string>)
    | Renaming(files: map<Rel, string>)
    | Done(ok: bool)

  datatype Sys = Sys(target: Target, pc: Pc)

  /** One call of the restore, which the disk may fail; a crash; or something others did. */
  datatype Action = Advance(fail: bool) | Crash | Others(target: Target)

  predicate Occupied(t: Target) {
    t.NotADirectory? || (t.Folder? && (t.files != map[] || !t.readable))
  }

  /** The first look lets anything through that does not list as a directory with entries. */
  predicate LooksOccupied(t: Target) {
    t.Folder? && t.readable && t.files != map[]
  }

  function StepRestore(s: Sys, entries: seq<Entry>, host: Host, fail: bool): Sys {
    match s.pc
    case Begin => s.(pc := if LooksOccupied(s.target) || fail then Done(false) else Staging(0, Start()))
    case Staging(done, x) =>
      if fail then s.(pc := Done(false))
      else if done < |entries| then
        var next := ExtractEntry(x, entries[done], host);
        s.(pc := if next.None? then Done(false) else Staging(done + 1, next.value))
      else
        var files := Finish(x, host);
        s.(pc := if files.None? then Done(false) else Checking(files.value))
    case Checking(files) =>
      s.(pc := if Occupied(s.target) then Done(false) else if s.target.Missing? then Renaming(files) else Removing(files))
    case Removing(files) =>
      if fail || s.target.Missing? || s.target.NotADirectory? || s.target.files != map[] then s.(pc := Done(false))
      else Sys(Missing, Renaming(files))
    case Renaming(files) =>
      if fail || s.target.NotADirectory? || (s.target.Folder? && s.target.files != map[]) then s.(pc := Done(false))
      else Sys(Folder(files, true), Done(true))
    case Done(_) => s
  }

  function Step(s: Sys, entries: seq<Entry>, host: Host, a: Action): Sys {
    match a
    case Advance(fail) => StepRestore(s, entries, host, fail)
    case Crash => if s.pc.Done? then s else s.(pc := Done(false))
    case Others(target) => s.(target := target)
  }

  function Run(t: Target, entries: seq<Entry>, host: Host, actions: seq<Action>): Sys {
    if actions == [] then Sys(t, Begin)
    else Step(Run(t, entries, host, actions[..|actions| - 1]), entries, host, actions[|actions| - 1])
  }

  ghost function CompleteFiles(entries: seq<Entry>, host: Host): Option<map<Rel, string>> {
    var x := ExtractAll(entries, host);
    if x.None? then None else Finish(x.value, host)
  }

  ghost predicate OnTrack(s: Sys, entries: seq<Entry>, host: Host) {
    match s.pc
    case Staging(done, x) => done <= |entries| && ExtractAll(entries[..done], host) == Some(x)
    case Checking(files) => CompleteFiles(entries, host) == Some(files)
    case Removing(files) => CompleteFiles(entries, host) == Some(files)
    case Renaming(files) => CompleteFiles(entries, host) == Some(files)
    case _ => true
  }

  lemma StepStaysOnTrack(s: Sys, entries: seq<Entry>, host: Host, a: Action)
    requires OnTrack(s, entries, host)
    ensures OnTrack(Step(s, entries, host, a), entries, host)
  {
    if s.pc.Staging? {
      if s.pc.done < |entries| {
        ExtractsNext(entries, s.pc.done, host);
      } else {
        assert entries[..s.pc.done] == entries;
      }
    } else if s.pc.Begin? {
      assert entries[..0] == [];
    }
  }

  lemma {:induction false} RunStaysOnTrack(t: Target, entries: seq<Entry>, host: Host, actions: seq<Action>)
    ensures OnTrack(Run(t, entries, host, actions), entries, host)
  {
    if actions != [] {
      RunStaysOnTrack(t, entries, host, actions[..|actions| - 1]);
      StepStaysOnTrack(Run(t, entries, host, actions[..|actions| - 1]), entries, host, actions[|actions| - 1]);
    }
  }

  /** Whatever others do meanwhile: a call of the restore changes the target only by removing it
      when it is an empty directory, or by putting the complete directory where nothing was. */
  lemma RestoreNeverClobbers(t: Target, entries: seq<Entry>, host: Host, actions: seq<Action>, fail: bool)
    ensures var s := Run(t, entries, host, actions);
            var next := Run(t, entries, host, actions + [Advance(fail)]);
            || next.target == s.target
            || (s.target.Folder? && s.target.files == map[] && next.target.Missing?)
            || ((s.target.Missing? || (s.target.Folder? && s.target.files == map[]))
                && next.target.Folder? && CompleteFiles(entries, host) == Some(next.target.files) && next.pc == Done(true))
  {
    RunStaysOnTrack(t, entries, host, actions);
    assert (actions + [Advance(fail)])[..|actions|] == actions;
  }

  ghost predicate NobodyElse(actions: seq<Action>) {
    forall i :: 0 <= i < |actions| ==> !actions[i].Others?
  }

  /** The target while a restore runs alone, `complete` being what the archive holds. */
  ghost predicate AllOrNothing(t: Target, s: Sys, complete: Option<map<Rel, string>>) {
    && (if s.pc == Done(true)
        then !Occupied(t) && complete.Some? && s.target == Folder(complete.value, true)
        else s.target == t || (t == Folder(map[], true) && s.target.Missing?))
    && (s.pc.Renaming? ==> s.target.Missing? && !Occupied(t))
    && (s.pc.Removing? ==> s.target == t && !Occupied(t))
  }

  lemma CommitIsAllOrNothing(t: Target, s: Sys, entries: seq<Entry>, host: Host, fail: bool)
    requires s.pc.Checking? || s.pc.Removing? || s.pc.Renaming?
    requires AllOrNothing(t, s, CompleteFiles(entries, host)) && OnTrack(s, entries, host)
    ensures AllOrNothing(t, StepRestore(s, entries, host, fail), CompleteFiles(entries, host))
  {
  }

  lemma StagingIsAllOrNothing(t: Target, s: Sys, entries: seq<Entry>, host: Host, fail: bool, complete: Option<map<Rel, string>>)
    requires s.pc.Begin? || s.pc.Staging? || s.pc.Done?
    requires AllOrNothing(t, s, complete)
    ensures AllOrNothing(t, StepRestore(s, entries, host, fail), complete)
  {
  }

  lemma StepIsAllOrNothing(t: Target, s: Sys, entries: seq<Entry>, host: Host, a: Action)
    requires AllOrNothing(t, s, CompleteFiles(entries, host)) && OnTrack(s, entries, host) && !a.Others?
    ensures AllOrNothing(t, Step(s, entries, host, a), CompleteFiles(entries, host))
  {
    if a.Advance? {
      if s.pc.Checking? || s.pc.Removing? || s.pc.Renaming? {
        CommitIsAllOrNothing(t, s, entries, host, a.fail);
      } else {
        StagingIsAllOrNothing(t, s, entries, host, a.fail, CompleteFiles(entries, host));
      }
    }
  }

  /** With nobody else at the target, at every moment it is as it was, or was empty and is gone, or
      holds the complete restored directory; and it holds that exactly when success is reported. */
  lemma {:induction false} RestoreIsAllOrNothing(t: Target, entries: seq<Entry>, host: Host, actions: seq<Action>)
    requires NobodyElse(actions)
    ensures AllOrNothing(t, Run(t, entries, host, actions), CompleteFiles(entries, host))
  {
    if actions != [] {
      var front, last := actions[..|actions| - 1], actions[|actions| - 1];
      RestoreIsAllOrNothing(t, entries, host, front);
      RunStaysOnTrack(t, entries, host, front);
      StepIsAllOrNothing(t, Run(t, entries, host, front), entries, host, last);
    }
  }

  /** Alone at a target that is occupied, a restore never succeeds and never touches it; and where the
      target lists as a directory with entries, nothing is even unpacked. */
  lemma OccupiedIsRefused(t: Target, entries: seq<Entry>, host: Host, actions: seq<Action>)
    requires NobodyElse(actions) && Occupied(t)
    ensures var s := Run(t, entries, host, actions);
            && s.target == t && s.pc != Done(true)
            && (t.Folder? && t.readable && t.files != map[] ==> s.pc.Begin? || s.pc == Done(false))
  {
    RestoreIsAllOrNothing(t, entries, host, actions);
    if LooksOccupied(t) { LookStops(t, entries, host, actions); }
  }

  lemma {:induction false} LookStops(t: Target, entries: seq<Entry>, host: Host, actions: seq<Action>)
    requires NobodyElse(actions) && t.Folder? && t.readable && t.files != map[]
    ensures var s := Run(t, entries, host, actions);
            s.target == t && (s.pc.Begin? || s.pc == Done(false))
  {
    if actions != [] {
      var front := actions[..|actions| - 1];
      assert forall i :: 0 <= i < |front| ==> front[i] == actions[i];
      LookStops(t, entries, host, front);
    }
  }

  // ---------------------------------------------------------------------------------------------
  // What a successful validation promises.

  function Undisturbed(n: nat): seq<Action> {
    if n == 0 then [] else Undisturbed(n - 1) + [Advance(false)]
  }

  lemma UndisturbedNext(t: Target, entries: seq<Entry>, host: Host, n: nat)
    ensures Run(t, entries, host, Undisturbed(n + 1)) == StepRestore(Run(t, entries, host, Undisturbed(n)), entries, host, false)
  {
    var actions := Undisturbed(n + 1);
    assert actions[..|actions| - 1] == Undisturbed(n);
  }

  lemma PrefixExtracts(entries: seq<Entry>, host: Host, n: nat)
    requires n <= |entries| && ExtractAll(entries, host).Some?
    ensures ExtractAll(entries[..n], host).Some?
  {
    if ExtractAll(entries[..n], host).None? {
      StopsForGood(entries, n, host);
    }
  }

  lemma NothingRun(t: Target, entries: seq<Entry>, host: Host)
    ensures Run(t, entries, host, Undisturbed(0)) == Sys(t, Begin) && ExtractAll(entries[..0], host) == Some(Start())
  {
    assert entries[..0] == [];
  }

  lemma {:induction false} ExtractionRuns(t: Target, entries: seq<Entry>, host: Host, n: nat)
    requires !Occupied(t) && n <= |entries| && ExtractAll(entries, host).Some?
    ensures ExtractAll(entries[..n], host).Some?
    ensures Run(t, entries, host, Undisturbed(n + 1)) == Sys(t, Staging(n, ExtractAll(entries[..n], host).value))
  {
    hide ExtractAll, Undisturbed, ExtractEntry, Run;
    PrefixExtracts(entries, host, n);
    UndisturbedNext(t, entries, host, n);
    if n == 0 {
      NothingRun(t, entries, host);
    } else {
      ExtractionRuns(t, entries, host, n - 1);
      ExtractsNext(entries, n - 1, host);
    }
  }

  lemma CommitSteps(t: Target, entries: seq<Entry>, host: Host, files: map<Rel, string>)
    requires !Occupied(t)
    ensures var r := StepRestore(StepRestore(Sys(t, Checking(files)), entries, host, false), entries, host, false);
            StepRestore(r, entries, host, false) == Sys(Folder(files, true), Done(true))
  {
  }

  lemma CommitRuns(t: Target, entries: seq<Entry>, host: Host, n: nat, files: map<Rel, string>)
    requires !Occupied(t) && Run(t, entries, host, Undisturbed(n)) == Sys(t, Checking(files))
    ensures Run(t, entries, host, Undisturbed(n + 3)) == Sys(Folder(files, true), Done(true))
  {
    CommitSteps(t, entries, host, files);
    UndisturbedNext(t, entries, host, n);
    UndisturbedNext(t, entries, host, n + 1);
    UndisturbedNext(t, entries, host, n + 2);
  }

  /** An archive that extracts into a throwaway directory restores into a wiped profile. */
  lemma ValidationPromisesRestore(t: Target, entries: seq<Entry>, host: Host)
    requires !Occupied(t) && CompleteFiles(entries, host).Some?
    ensures exists n :: Run(t, entries, host, Undisturbed(n)) == Sys(Folder(CompleteFiles(entries, host).value, true), Done(true))
  {
    var n := |entries|;
    ExtractionRuns(t, entries, host, n);
    assert entries[..n] == entries;
    UndisturbedNext(t, entries, host, n + 1);
    CommitRuns(t, entries, host, n + 2, CompleteFiles(entries, host).value);
  }
}
