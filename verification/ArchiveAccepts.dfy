/** Which archives the reader takes, of all there can be: a condition on the list of entries alone,
    each judged by itself, by its place in the list, and by the paths before it. */
module ArchiveAccepts {
  import opened Wrappers
  import opened ArchivePaths
  import opened ArchiveRestore
  import opened ArchiveReadBack

  predicate IsDir(e: Entry) {
    e.Entry? && e.kind.Directory?
  }

  /** The kinds the reader knows, with a path a restore accepts. */
  predicate Takable(e: Entry, system: System) {
    e.Entry? && (e.kind.Directory? || e.kind.OtherKind?) && e.path.Some? && Sanitized(system, e.path.value).Some?
  }

  function RelOf(e: Entry, system: System): Rel {
    if Takable(e, system) then Sanitized(system, e.path.value).value else []
  }

  /** An entry that is created as a file, which the identity is not. */
  predicate IsPlainFile(e: Entry, system: System) {
    Takable(e, system) && !IsDir(e) && !IsIdentity(RelOf(e, system))
  }

  function DeclaredSum(entries: seq<Entry>): nat {
    if entries == [] then 0
    else DeclaredSum(entries[..|entries| - 1]) + (if entries[|entries| - 1].Entry? then entries[|entries| - 1].declared else 0)
  }

  function ComponentSum(entries: seq<Entry>, system: System): nat {
    if entries == [] then 0 else ComponentSum(entries[..|entries| - 1], system) + |RelOf(entries[|entries| - 1], system)|
  }

  /** The bytes there are to read: a directory has none. */
  function ReadSum(entries: seq<Entry>): nat {
    if entries == [] then 0
    else
      var e := entries[|entries| - 1];
      ReadSum(entries[..|entries| - 1]) + (if e.Entry? && !IsDir(e) && e.data.Some? then |e.data.value| else 0)
  }

  /** Two entries that cannot both be on disk: a file's path leads to, or through, another file's, or
      is on the way to a directory. */
  ghost predicate Clash(a: Entry, b: Entry, system: System) {
    || (IsPlainFile(a, system) && RelOf(a, system) <= RelOf(b, system) && (IsDir(b) || IsPlainFile(b, system)))
    || (IsPlainFile(b, system) && RelOf(b, system) <= RelOf(a, system) && (IsDir(a) || IsPlainFile(a, system)))
  }

  ghost predicate Admissible(entries: seq<Entry>, j: nat, host: Host)
    requires j < |entries|
  {
    var e, upTo := entries[j], entries[..j + 1];
    && Takable(e, host.system) && !host.diskFails(j)
    && j < MAX_ENTRIES && DeclaredSum(upTo) <= MAX_TOTAL_BYTES && ComponentSum(upTo, host.system) <= MAX_DIR_COMPONENTS
    && (!IsDir(e) ==> e.data.Some? && ReadSum(upTo) <= MAX_TOTAL_BYTES)
    && (!IsDir(e) && IsIdentity(RelOf(e, host.system)) ==> ParseIdentity(e.data.value, host).Some?)
    && forall i: nat :: i < j ==> !Clash(entries[i], e, host.system)
  }

  ghost predicate AllAdmissible(entries: seq<Entry>, host: Host) {
    forall j: nat :: j < |entries| ==> Admissible(entries, j, host)
  }

  // ---------------------------------------------------------------------------------------------
  // The reader's state, by what it has taken.

  function PutBy(e: Entry, system: System): seq<Written> {
    if IsPlainFile(e, system) && e.data.Some? then [Written(RelOf(e, system), e.data.value)] else []
  }

  function FilesIn(entries: seq<Entry>, system: System): seq<Written> {
    if entries == [] then []
    else
      FilesIn(entries[..|entries| - 1], system) + PutBy(entries[|entries| - 1], system)
  }

  function DirsOf(e: Entry, system: System): set<Rel> {
    var rel := RelOf(e, system);
    if IsDir(e) then Prefixes(rel) else if IsPlainFile(e, system) && rel != [] then Prefixes(rel[..|rel| - 1]) else {}
  }

  function DirsIn(entries: seq<Entry>, system: System): set<Rel> {
    if entries == [] then {} else DirsIn(entries[..|entries| - 1], system) + DirsOf(entries[|entries| - 1], system)
  }

  function PendingIn(entries: seq<Entry>, host: Host): Option<Identity> {
    if entries == [] then None
    else
      var e := entries[|entries| - 1];
      if Takable(e, host.system) && !IsDir(e) && IsIdentity(RelOf(e, host.system)) && e.data.Some? then ParseIdentity(e.data.value, host)
      else PendingIn(entries[..|entries| - 1], host)
  }

  function StateOf(entries: seq<Entry>, host: Host): Extraction {
    Extraction(Tree(FilesIn(entries, host.system), DirsIn(entries, host.system)),
               DeclaredSum(entries), ReadSum(entries), |entries|, ComponentSum(entries, host.system), PendingIn(entries, host))
  }

  ghost predicate AllHaveData(entries: seq<Entry>) {
    forall i :: 0 <= i < |entries| && entries[i].Entry? && !IsDir(entries[i]) ==> entries[i].data.Some?
  }

  ghost predicate SomePlain(entries: seq<Entry>, system: System, rel: Rel) {
    exists i :: 0 <= i < |entries| && IsPlainFile(entries[i], system) && RelOf(entries[i], system) == rel
  }

  lemma SomePlainMore(front: seq<Entry>, e: Entry, system: System, rel: Rel)
    ensures SomePlain(front + [e], system, rel) <==> SomePlain(front, system, rel) || (IsPlainFile(e, system) && RelOf(e, system) == rel)
  {
    hide IsPlainFile, RelOf;
    var all := front + [e];
    if i :| 0 <= i < |front| && IsPlainFile(front[i], system) && RelOf(front[i], system) == rel { assert all[i] == front[i]; }
    assert all[|front|] == e;
  }

  lemma IsFileMore(files: seq<Written>, w: Written, rel: Rel)
    ensures IsFile(files + [w], rel) <==> IsFile(files, rel) || w.rel == rel
  {
    var all := files + [w];
    if i :| 0 <= i < |files| && files[i].rel == rel { assert all[i] == files[i]; }
    assert all[|files|] == w;
  }

  lemma {:induction false} FilesAre(entries: seq<Entry>, system: System, rel: Rel)
    requires AllHaveData(entries)
    ensures IsFile(FilesIn(entries, system), rel) <==> SomePlain(entries, system, rel)
  {
    if entries != [] {
      hide IsPlainFile, RelOf, SomePlain, IsFile;
      var n := |entries| - 1;
      var front, e := entries[..n], entries[n];
      FilesAre(front, system, rel);
      PlainHasData(e, system);
      assert entries == front + [e];
      SomePlainMore(front, e, system, rel);
      var was := FilesIn(front, system);
      if IsPlainFile(e, system) {
        IsFileMore(was, Written(RelOf(e, system), e.data.value), rel);
      } else {
        assert was + [] == was;
      }
    }
  }

  lemma PlainHasData(e: Entry, system: System)
    ensures IsPlainFile(e, system) ==> e.Entry? && !IsDir(e)
  {
  }

  ghost predicate SomeDir(entries: seq<Entry>, system: System, d: Rel) {
    exists i :: 0 <= i < |entries| && d in DirsOf(entries[i], system)
  }

  lemma SomeDirMore(front: seq<Entry>, e: Entry, system: System, d: Rel)
    ensures SomeDir(front + [e], system, d) <==> SomeDir(front, system, d) || d in DirsOf(e, system)
  {
    hide DirsOf;
    var all := front + [e];
    if i :| 0 <= i < |front| && d in DirsOf(front[i], system) { assert all[i] == front[i]; }
    assert all[|front|] == e;
  }

  lemma NoDir(system: System, d: Rel)
    ensures !SomeDir([], system, d)
  {
  }

  lemma {:induction false} DirsAre(entries: seq<Entry>, system: System, d: Rel)
    ensures d in DirsIn(entries, system) <==> SomeDir(entries, system, d)
  {
    hide DirsOf, SomeDir;
    if entries == [] {
      NoDir(system, d);
    } else {
      var n := |entries| - 1;
      assert DirsIn(entries, system) == DirsIn(entries[..n], system) + DirsOf(entries[n], system);
      DirsAre(entries[..n], system, d);
      assert entries == entries[..n] + [entries[n]];
      SomeDirMore(entries[..n], entries[n], system, d);
    }
  }

  lemma DirsOfIs(e: Entry, system: System, d: Rel)
    requires d != []
    ensures d in DirsOf(e, system) <==>
              d <= RelOf(e, system) && (IsDir(e) || (IsPlainFile(e, system) && d != RelOf(e, system)))
  {
    hide IsPlainFile, RelOf, Prefixes;
    var rel := RelOf(e, system);
    PrefixIs(d, rel);
    if rel != [] { ProperPrefixIs(d, rel); }
  }

  lemma PrefixIs(d: Rel, rel: Rel)
    requires d != []
    ensures d in Prefixes(rel) <==> d <= rel
  {
    hide Prefixes;
    PrefixesAre(rel);
    if d <= rel { assert rel[..|d|] == d; }
  }

  lemma ProperPrefixIs(d: Rel, rel: Rel)
    requires d != [] && rel != []
    ensures d in Prefixes(rel[..|rel| - 1]) <==> d <= rel && d != rel
  {
    PrefixIs(d, rel[..|rel| - 1]);
    PrefixSplits(d, rel);
    if d == rel { assert |d| > |rel[..|rel| - 1]|; }
  }

  /** What stands in the way of a path: a file at a prefix of it. */
  lemma InTheWay(entries: seq<Entry>, system: System, rel: Rel)
    requires AllHaveData(entries)
    ensures FileInTheWay(FilesIn(entries, system), rel) <==>
              exists i :: 0 <= i < |entries| && IsPlainFile(entries[i], system) && RelOf(entries[i], system) <= rel
  {
    hide IsPlainFile, IsFile, RelOf;
    PrefixesAre(rel);
    var files := FilesIn(entries, system);
    if FileInTheWay(files, rel) {
      var p :| p in Prefixes(rel) && IsFile(files, p);
      FilesAre(entries, system, p);
    }
    if i :| 0 <= i < |entries| && IsPlainFile(entries[i], system) && RelOf(entries[i], system) <= rel {
      var p := RelOf(entries[i], system);
      FilesAre(entries, system, p);
      PlainHasPath(entries[i], system);
      assert rel[..|p|] == p;
      assert p in Prefixes(rel) && IsFile(files, p);
    }
  }

  lemma PlainHasPath(e: Entry, system: System)
    ensures Takable(e, system) ==> RelOf(e, system) != []
    ensures IsPlainFile(e, system) ==> RelOf(e, system) != []
  {
    if Takable(e, system) { AcceptedIsPlain(system, e.path.value); }
  }

  // ---------------------------------------------------------------------------------------------
  // One entry.

  lemma AdmitIs(x: Extraction, e: Entry, system: System)
    requires x.total <= MAX_TOTAL_BYTES
    ensures Admit(x, e, system) ==
            if Takable(e, system) && x.count < MAX_ENTRIES && x.total + e.declared <= MAX_TOTAL_BYTES
               && x.components + |RelOf(e, system)| <= MAX_DIR_COMPONENTS
            then Some((x.(total := x.total + e.declared, count := x.count + 1, components := x.components + |RelOf(e, system)|), RelOf(e, system)))
            else None
  {
    hide Sanitized;
  }

  /** No entry before clashes with a directory exactly when no file is in its way. */
  lemma DirClashes(front: seq<Entry>, e: Entry, system: System)
    requires AllHaveData(front) && Takable(e, system) && IsDir(e)
    ensures FileInTheWay(FilesIn(front, system), RelOf(e, system)) <==> exists i: nat :: i < |front| && Clash(front[i], e, system)
  {
    hide RelOf, IsIdentity;
    InTheWay(front, system, RelOf(e, system));
    if i :| 0 <= i < |front| && IsPlainFile(front[i], system) && RelOf(front[i], system) <= RelOf(e, system) {
      assert Clash(front[i], e, system);
    }
  }

  ghost predicate Blocked(front: seq<Entry>, rel: Rel, system: System)
    requires rel != []
  {
    || FileInTheWay(FilesIn(front, system), rel[..|rel| - 1])
    || IsFile(FilesIn(front, system), rel)
    || rel in DirsIn(front, system)
  }

  lemma FileClashes(front: seq<Entry>, e: Entry, system: System)
    requires AllHaveData(front) && IsPlainFile(e, system) && RelOf(e, system) != []
    ensures Blocked(front, RelOf(e, system), system) <==> exists i: nat :: i < |front| && Clash(front[i], e, system)
  {
    hide RelOf, IsPlainFile, FileInTheWay, IsFile, DirsIn;
    var rel := RelOf(e, system);
    InTheWay(front, system, rel[..|rel| - 1]);
    FilesAre(front, system, rel);
    DirsAre(front, system, rel);
    PlainHasData(e, system);
    forall i: nat | i < |front|
      ensures Clash(front[i], e, system) <==>
                || (IsPlainFile(front[i], system) && RelOf(front[i], system) <= rel[..|rel| - 1])
                || (IsPlainFile(front[i], system) && RelOf(front[i], system) == rel)
                || rel in DirsOf(front[i], system)
    {
      OneClash(front[i], e, system);
    }
  }

  lemma OneClash(a: Entry, e: Entry, system: System)
    requires IsPlainFile(e, system) && RelOf(e, system) != []
    ensures var rel := RelOf(e, system);
            Clash(a, e, system) <==>
              || (IsPlainFile(a, system) && RelOf(a, system) <= rel[..|rel| - 1])
              || (IsPlainFile(a, system) && RelOf(a, system) == rel)
              || rel in DirsOf(a, system)
  {
    hide RelOf, IsPlainFile, DirsOf;
    var rel := RelOf(e, system);
    DirsOfIs(a, system, rel);
    PrefixSplits(RelOf(a, system), rel);
  }

  lemma PrefixSplits(p: Rel, rel: Rel)
    requires rel != []
    ensures p <= rel <==> p <= rel[..|rel| - 1] || p == rel
  {
  }

  /** The fields of the state after one more entry. */
  lemma StateNext(front: seq<Entry>, e: Entry, host: Host)
    ensures var x, y := StateOf(front, host), StateOf(front + [e], host);
            && y.tree.files == x.tree.files + (if IsPlainFile(e, host.system) && e.data.Some? then [Written(RelOf(e, host.system), e.data.value)] else [])
            && y.tree.dirs == x.tree.dirs + DirsOf(e, host.system)
            && y.total == x.total + (if e.Entry? then e.declared else 0) && y.count == x.count + 1
            && y.readTotal == x.readTotal + (if e.Entry? && !IsDir(e) && e.data.Some? then |e.data.value| else 0)
            && y.components == x.components + |RelOf(e, host.system)|
            && y.pending == (if Takable(e, host.system) && !IsDir(e) && IsIdentity(RelOf(e, host.system)) && e.data.Some?
                             then ParseIdentity(e.data.value, host) else x.pending)
  {
    hide RelOf, Takable, IsPlainFile, IsIdentity, DirsOf, IsDir;
    assert (front + [e])[..|front|] == front;
  }

  /** The condition on the last entry, in the reader's terms. */
  ghost predicate Fits(front: seq<Entry>, e: Entry, host: Host) {
    var x, rel := StateOf(front, host), RelOf(e, host.system);
    && Takable(e, host.system) && !host.diskFails(|front|)
    && x.count < MAX_ENTRIES && x.total + e.declared <= MAX_TOTAL_BYTES && x.components + |rel| <= MAX_DIR_COMPONENTS
    && (!IsDir(e) ==> e.data.Some? && x.readTotal + |e.data.value| <= MAX_TOTAL_BYTES)
    && (!IsDir(e) && IsIdentity(rel) ==> ParseIdentity(e.data.value, host).Some?)
    && forall i: nat :: i < |front| ==> !Clash(front[i], e, host.system)
  }

  lemma FitsIsAdmissible(front: seq<Entry>, e: Entry, host: Host)
    ensures Fits(front, e, host) <==> Admissible(front + [e], |front|, host)
  {
    hide Takable, RelOf, IsIdentity, Clash, FilesIn, DirsIn, PendingIn, DeclaredSum, ComponentSum, ReadSum;
    var all := front + [e];
    StateNext(front, e, host);
    assert all[..|front| + 1] == all;
    assert forall i: nat :: i < |front| ==> all[i] == front[i];
    TakableIsEntry(e, host.system);
  }

  lemma TakableIsEntry(e: Entry, system: System)
    ensures Takable(e, system) ==> e.Entry?
  {
  }

  lemma DirTaken(front: seq<Entry>, e: Entry, host: Host)
    requires AllHaveData(front) && StateOf(front, host).total <= MAX_TOTAL_BYTES && IsDir(e)
    ensures ExtractEntry(StateOf(front, host), e, host) == if Fits(front, e, host) then Some(StateOf(front + [e], host)) else None
  {
    hide RelOf, Sanitized, IsIdentity, FileInTheWay, StateOf, Clash, FilesIn, Prefixes;
    var x, system := StateOf(front, host), host.system;
    StateFields(front, host);
    AdmitIs(x, e, system);
    StateNext(front, e, host);
    if Takable(e, system) {
      DirClashes(front, e, system);
      assert x.tree.files + [] == x.tree.files;
    }
  }

  lemma StateFields(front: seq<Entry>, host: Host)
    ensures var x := StateOf(front, host);
            x.tree.files == FilesIn(front, host.system) && x.tree.dirs == DirsIn(front, host.system) && x.count == |front|
  {
  }

  lemma IdentityTaken(front: seq<Entry>, e: Entry, host: Host)
    requires StateOf(front, host).total <= MAX_TOTAL_BYTES && StateOf(front, host).readTotal <= MAX_TOTAL_BYTES
    requires Takable(e, host.system) && !IsDir(e) && IsIdentity(RelOf(e, host.system))
    ensures ExtractEntry(StateOf(front, host), e, host) == if Fits(front, e, host) then Some(StateOf(front + [e], host)) else None
  {
    hide RelOf, Sanitized, IsIdentity, StateOf, ParseIdentity, Takable;
    var x := StateOf(front, host);
    StateFields(front, host);
    AdmitIs(x, e, host.system);
    StateNext(front, e, host);
    IdentityClashesWithNone(front, e, host.system);
    assert x.tree.files + [] == x.tree.files && x.tree.dirs + {} == x.tree.dirs;
    PlainHasPath(e, host.system);
  }

  lemma IdentityClashesWithNone(front: seq<Entry>, e: Entry, system: System)
    requires Takable(e, system) && !IsDir(e) && IsIdentity(RelOf(e, system))
    ensures forall i: nat :: i < |front| ==> !Clash(front[i], e, system)
    ensures !IsPlainFile(e, system) && DirsOf(e, system) == {}
  {
    hide RelOf, IsIdentity;
  }

  lemma FileTaken(front: seq<Entry>, e: Entry, host: Host)
    requires AllHaveData(front) && StateOf(front, host).total <= MAX_TOTAL_BYTES && StateOf(front, host).readTotal <= MAX_TOTAL_BYTES
    requires IsPlainFile(e, host.system)
    ensures ExtractEntry(StateOf(front, host), e, host) == if Fits(front, e, host) then Some(StateOf(front + [e], host)) else None
  {
    hide Sanitized, IsIdentity, FileInTheWay, IsFile, StateOf, Clash, FilesIn, DirsIn, Prefixes;
    var x, system, rel := StateOf(front, host), host.system, RelOf(e, host.system);
    StateFields(front, host);
    AdmitIs(x, e, system);
    StateNext(front, e, host);
    PlainHasPath(e, system);
    FileClashes(front, e, system);
    if e.data.Some? { PlacedIs(x.tree, rel, e.data.value); }
  }

  lemma PlacedIs(tree: Tree, rel: Rel, data: string)
    requires rel != []
    ensures PlaceFile(tree, rel, data) ==
            if FileInTheWay(tree.files, rel[..|rel| - 1]) || IsFile(tree.files, rel) || rel in tree.dirs then None
            else Some(Tree(tree.files + [Written(rel, data)], tree.dirs + Prefixes(rel[..|rel| - 1])))
  {
    hide FileInTheWay, IsFile;
    PrefixesAre(rel[..|rel| - 1]);
  }

  lemma EntryTaken(front: seq<Entry>, e: Entry, host: Host)
    requires AllHaveData(front) && StateOf(front, host).total <= MAX_TOTAL_BYTES && StateOf(front, host).readTotal <= MAX_TOTAL_BYTES
    ensures ExtractEntry(StateOf(front, host), e, host) == if Fits(front, e, host) then Some(StateOf(front + [e], host)) else None
  {
    hide StateOf, Fits, ExtractEntry, Sanitized, IsIdentity;
    if IsDir(e) {
      DirTaken(front, e, host);
    } else if !Takable(e, host.system) {
      NotTaken(front, e, host);
    } else if IsIdentity(RelOf(e, host.system)) {
      IdentityTaken(front, e, host);
    } else {
      FileTaken(front, e, host);
    }
  }

  lemma NotTaken(front: seq<Entry>, e: Entry, host: Host)
    requires StateOf(front, host).total <= MAX_TOTAL_BYTES && !Takable(e, host.system)
    ensures ExtractEntry(StateOf(front, host), e, host).None? && !Fits(front, e, host)
  {
    hide StateOf;
    AdmitIs(StateOf(front, host), e, host.system);
  }

  // ---------------------------------------------------------------------------------------------
  // The list.

  lemma AdmissibleFront(front: seq<Entry>, e: Entry, host: Host)
    ensures AllAdmissible(front + [e], host) <==> AllAdmissible(front, host) && Admissible(front + [e], |front|, host)
  {
    hide Takable, RelOf, IsIdentity, Clash, DeclaredSum, ComponentSum, ReadSum;
    var all := front + [e];
    forall j: nat | j < |front| ensures Admissible(all, j, host) <==> Admissible(front, j, host) {
      assert all[..j + 1] == front[..j + 1];
    }
  }

  lemma {:induction false} ReadsWithin(entries: seq<Entry>, host: Host)
    requires AllAdmissible(entries, host)
    ensures AllHaveData(entries) && DeclaredSum(entries) <= MAX_TOTAL_BYTES && ReadSum(entries) <= MAX_TOTAL_BYTES
  {
    hide Takable, RelOf, IsIdentity, Clash, ComponentSum;
    forall i | 0 <= i < |entries| && entries[i].Entry? && !IsDir(entries[i]) ensures entries[i].data.Some? {
      assert Admissible(entries, i, host);
    }
    if entries != [] {
      var n := |entries| - 1;
      assert entries == entries[..n] + [entries[n]];
      AdmissibleFront(entries[..n], entries[n], host);
      ReadsWithin(entries[..n], host);
      assert Admissible(entries, n, host);
      assert entries[..n + 1] == entries;
    }
  }

  /** The reader takes an archive exactly when each entry is admissible where it stands, and what it
      then has on disk and in hand is what the entries say. */
  lemma {:induction false} AcceptsIff(entries: seq<Entry>, host: Host)
    ensures ExtractAll(entries, host) == if AllAdmissible(entries, host) then Some(StateOf(entries, host)) else None
  {
    hide StateOf, AllAdmissible, Admissible, Fits, ExtractEntry, AllHaveData;
    if entries == [] {
      NothingTaken(host);
    } else {
      var n := |entries| - 1;
      var front, e := entries[..n], entries[n];
      assert entries == front + [e];
      AcceptsIff(front, host);
      AdmissibleFront(front, e, host);
      if AllAdmissible(front, host) {
        ReadsWithin(front, host);
        TakenTotals(front, host);
        EntryTaken(front, e, host);
        FitsIsAdmissible(front, e, host);
      }
    }
  }

  lemma NothingTaken(host: Host)
    ensures StateOf([], host) == Start() && AllAdmissible([], host)
  {
  }

  lemma TakenTotals(entries: seq<Entry>, host: Host)
    ensures StateOf(entries, host).total == DeclaredSum(entries) && StateOf(entries, host).readTotal == ReadSum(entries)
  {
  }

  // ---------------------------------------------------------------------------------------------
  // What is restored.

  lemma {:induction false} FileMapOnce(files: seq<Written>)
    requires WrittenOnce(files)
    ensures MapOf(FileMap(files), files)
  {
    if files != [] {
      var front, last := files[..|files| - 1], files[|files| - 1];
      assert files == front + [last];
      assert WrittenOnce(front);
      FileMapOnce(front);
      forall w | w in front ensures w.rel != last.rel {
        var i :| 0 <= i < |front| && front[i] == w;
        assert files[i] == w;
      }
      MapOfNext(FileMap(front), front, last);
    }
  }

  /** An entry that puts these bytes at this path. */
  ghost predicate Puts(e: Entry, system: System, w: Written) {
    IsPlainFile(e, system) && RelOf(e, system) == w.rel && e.data == Some(w.data)
  }

  ghost predicate SomePuts(entries: seq<Entry>, system: System, w: Written) {
    exists i :: 0 <= i < |entries| && Puts(entries[i], system, w)
  }

  lemma SomePutsMore(front: seq<Entry>, e: Entry, system: System, w: Written)
    ensures SomePuts(front + [e], system, w) <==> SomePuts(front, system, w) || Puts(e, system, w)
  {
    hide Puts;
    var all := front + [e];
    if i :| 0 <= i < |front| && Puts(front[i], system, w) { assert all[i] == front[i]; }
    assert all[|front|] == e;
  }

  lemma {:induction false} FilesPut(entries: seq<Entry>, system: System, w: Written)
    ensures w in FilesIn(entries, system) <==> SomePuts(entries, system, w)
  {
    hide SomePuts, FilesIn;
    if entries == [] {
      NothingPut(system, w);
    } else {
      var front, e := entries[..|entries| - 1], entries[|entries| - 1];
      FilesPut(front, system, w);
      FilesPutMore(front, e, system, w);
      assert entries == front + [e];
    }
  }

  lemma FilesPutMore(front: seq<Entry>, e: Entry, system: System, w: Written)
    requires w in FilesIn(front, system) <==> SomePuts(front, system, w)
    ensures w in FilesIn(front + [e], system) <==> SomePuts(front + [e], system, w)
  {
    hide SomePuts, FilesIn, Puts, PutBy;
    FilesNext(front, e, system, w);
    SomePutsMore(front, e, system, w);
    PutByIs(e, system, w);
  }

  lemma FilesNext(front: seq<Entry>, e: Entry, system: System, w: Written)
    ensures w in FilesIn(front + [e], system) <==> w in FilesIn(front, system) || w in PutBy(e, system)
  {
    hide PutBy;
    assert (front + [e])[..|front|] == front;
  }

  lemma NothingPut(system: System, w: Written)
    ensures !SomePuts([], system, w) && FilesIn([], system) == []
  {
  }

  lemma PutByIs(e: Entry, system: System, w: Written)
    ensures w in PutBy(e, system) <==> Puts(e, system, w)
  {
    hide IsPlainFile, RelOf;
  }

  /** The machine's own identity file has a place: no file on the way to it, no directory there. */
  ghost predicate RoomAtRest(entries: seq<Entry>, host: Host) {
    && !host.diskFails(|entries|)
    && (forall i :: 0 <= i < |entries| && IsPlainFile(entries[i], host.system) ==>
          !(RelOf(entries[i], host.system) <= host.atRest[..SatSub(|host.atRest|, 1)]))
    && forall i :: 0 <= i < |entries| ==> host.atRest !in DirsOf(entries[i], host.system)
  }

  lemma RoomIsFree(entries: seq<Entry>, host: Host)
    requires AllHaveData(entries)
    ensures RoomAtRest(entries, host) <==>
              !FileInTheWay(FilesIn(entries, host.system), host.atRest[..SatSub(|host.atRest|, 1)])
              && host.atRest !in DirsIn(entries, host.system) && !host.diskFails(|entries|)
  {
    hide IsPlainFile, RelOf, DirsOf;
    InTheWay(entries, host.system, host.atRest[..SatSub(|host.atRest|, 1)]);
    DirsAre(entries, host.system, host.atRest);
  }

  /** A restore succeeds exactly when every entry is admissible and an identity, if there is one, has
      its place; it then gives each file its entry's bytes and the machine's own identity file the last
      identity read, and nothing else. */
  lemma RestoresIff(entries: seq<Entry>, host: Host)
    ensures var restored := if ExtractAll(entries, host).None? then None else Finish(ExtractAll(entries, host).value, host);
            var pending := PendingIn(entries, host);
            && (restored.Some? <==> AllAdmissible(entries, host) && (pending.Some? ==> RoomAtRest(entries, host)))
            && (restored.Some? ==> forall w: Written :: (w.rel in restored.value && restored.value[w.rel] == w.data <==>
                  if pending.Some? && w.rel == host.atRest then w.data == host.seal(pending.value)
                  else SomePuts(entries, host.system, w)))
  {
    hide AllAdmissible, RoomAtRest, SomePuts, FileInTheWay, FilesIn, DirsIn, PendingIn, ExtractAll, Coherent, WithinCaps;
    AcceptsIff(entries, host);
    if AllAdmissible(entries, host) {
      ReadsWithin(entries, host);
      RoomIsFree(entries, host);
      OnceTaken(entries, host);
      var files := FilesIn(entries, host.system);
      FileMapOnce(files);
      forall w: Written ensures w.rel in FileMap(files) && FileMap(files)[w.rel] == w.data
                                <==> SomePuts(entries, host.system, w) {
        FilesPut(entries, host.system, w);
        if w.rel in FileMap(files) { assert Written(w.rel, FileMap(files)[w.rel]) in files; }
      }
    }
  }

  lemma OnceTaken(entries: seq<Entry>, host: Host)
    requires AllAdmissible(entries, host)
    ensures WrittenOnce(FilesIn(entries, host.system))
  {
    hide AllAdmissible, FilesIn, DirsIn;
    AcceptsIff(entries, host);
    HostileArchivesAreBounded(entries, host);
  }
}
