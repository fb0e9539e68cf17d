/** Writer and reader undo each other: a backup restored into an empty directory gives the same
    files and the same identity, exactly for the profiles `Portable` describes. */
module ArchiveRoundTrip {
  import opened Wrappers
  import opened ArchivePaths
  import opened ArchiveRestore
  import opened ArchiveBackup
  import opened ArchiveReadBack

  /** What the codecs promise, on a disk that does not fail. */
  ghost predicate HostOk(host: Host) {
    && (forall id :: host.decode(host.encode(id)) == Some(id))
    && (forall id :: host.unseal(host.seal(id)) == Some(id) && host.seal(id) != "")
    && (forall n: nat :: !host.diskFails(n))
    && |host.atRest| == 2 && host.atRest[0] == "identity" && Plain(host.system, host.atRest[1])
  }

  function Archived(profile: seq<Named>, host: Host): seq<Written> {
    FilesUnder([], profile, Some(host.atRest))
  }

  /** The profiles a restore gives back: those within the caps, with names every file system keeps,
      a valid identity if any, and no other file that passes for the identity entry. */
  ghost predicate Portable(profile: seq<Named>, host: Host) {
    var loaded := LoadIdentity(ContentsOf(profile), host);
    var ids, files := PortableIdentity(profile, host), Archived(profile, host);
    && !loaded.Unreadable? && (loaded.Holds? ==> host.valid(loaded.id))
    && Bytes(ids) + Bytes(files) <= MAX_TOTAL_BYTES && |ids| + |files| <= MAX_ENTRIES
    && Components(ids) + Components(files) <= MAX_DIR_COMPONENTS
    && forall w :: w in files ==> AllSurvive(w.rel) && !IsIdentity(w.rel)
  }

  /** The restored directory has the profile's files and its identity. */
  ghost predicate Reproduces(restored: Option<map<Rel, string>>, profile: seq<Named>, host: Host) {
    && restored.Some?
    && restored.value - {host.atRest} == ContentsOf(profile) - {host.atRest}
    && LoadIdentity(restored.value, host) == LoadIdentity(ContentsOf(profile), host)
  }

  ghost predicate RoundTrips(profile: seq<Named>, host: Host, passphrase: Option<string>) {
    var archive := BackedUp(profile, host, passphrase);
    archive.Some? && Reproduces(Extracted(archive.value, passphrase, host), profile, host)
  }

  // ---------------------------------------------------------------------------------------------
  // The payload.

  lemma ArchivedIs(profile: seq<Named>, host: Host)
    requires TreeOk(host.system, profile)
    ensures var files := Archived(profile, host);
            && Apart(files) && Rooted(host.system, files) && MapOf(FileMap(files), files)
            && FileMap(files) == ContentsOf(profile) - {host.atRest}
  {
    hide Apart, Rooted, FilesUnder, TreeOk;
    var files, all := Archived(profile, host), FilesUnder([], profile, None);
    WalkIsApart(host.system, [], profile, Some(host.atRest));
    WalkIsApart(host.system, [], profile, None);
    WalkIsRooted(host.system, [], profile, Some(host.atRest));
    SkipDropsOne([], profile, host.atRest);
    FileMapIs(files);
    FileMapIs(all);
    var a, b := FileMap(files), FileMap(all) - {host.atRest};
    forall r ensures r in a <==> r in b {
      if r in a { assert Written(r, a[r]) in all; }
      if r in b { assert Written(r, FileMap(all)[r]) in files; }
    }
    forall r | r in a ensures a[r] == b[r] {
      assert Written(r, a[r]) in all;
    }
  }

  lemma IdentityNameSurvives(system: System, name: string)
    requires name == "identity" || name == "identity.json"
    ensures Survives(name) && Plain(system, name)
  {
    hide EqIgnoreCase;
    FirstDotEndsStem(name, 8);
    assert FoldAll(Stem(name))[0] == 'I';
    ReservedStem(Stem(name));
  }

  lemma IdentityRelSurvives(system: System)
    ensures AllPlain(system, IDENTITY_REL) && AllSurvive(IDENTITY_REL)
  {
    hide Survives, Plain;
    IdentityNameSurvives(system, IDENTITY_REL[0]);
    IdentityNameSurvives(system, IDENTITY_REL[1]);
  }

  lemma IdentityRelIsIdentity()
    ensures IsIdentity(IDENTITY_REL)
  {
    IdentityIsJoined();
  }

  lemma Regrouped(a: seq<Written>, b: seq<Written>, c: seq<Written>)
    ensures (a + b) + c == a + (b + c)
  {
  }

  lemma {:induction false} NonIdentityAppend(a: seq<Written>, b: seq<Written>)
    ensures NonIdentity(a + b) == NonIdentity(a) + NonIdentity(b)
  {
    if b == [] {
      assert a + b == a;
    } else {
      hide NonIdentity, IsIdentity;
      var front, last := b[..|b| - 1], b[|b| - 1];
      var kept := if IsIdentity(last.rel) then [] else [last];
      NonIdentityAppend(a, front);
      assert b == front + [last];
      Regrouped(a, front, [last]);
      KeptNext(a + front, last);
      KeptNext(front, last);
      Regrouped(NonIdentity(a), NonIdentity(front), kept);
    }
  }

  lemma {:induction false} ComponentsAppend(a: seq<Written>, b: seq<Written>)
    ensures Components(a + b) == Components(a) + Components(b)
  {
    if b == [] {
      assert a + b == a;
    } else {
      var front, last := b[..|b| - 1], b[|b| - 1];
      ComponentsAppend(a, front);
      assert a + b == (a + front) + [last] && b == front + [last];
      SumsNext(a + front, last);
      SumsNext(front, last);
    }
  }

  lemma IdsAreIdentity(profile: seq<Named>, host: Host)
    ensures NonIdentity(PortableIdentity(profile, host)) == []
    ensures Rooted(host.system, PortableIdentity(profile, host))
  {
    hide LoadIdentity, IsIdentity, Plain;
    var ids := PortableIdentity(profile, host);
    IdentityRelSurvives(host.system);
    IdentityRelIsIdentity();
    if ids != [] { assert ids[..0] == []; }
  }

  lemma SortedStaysApart(system: System, files: seq<Written>)
    requires Apart(files) && Rooted(system, files)
    ensures Apart(NonIdentity(SortedByName(files))) && Rooted(system, SortedByName(files))
  {
    var sorted := SortedByName(files);
    SortKeeps(files);
    SubApart(sorted, files);
    NonIdentityIsPart(sorted);
    SubApart(NonIdentity(sorted), sorted);
    forall w | w in sorted ensures w.rel != [] && AllPlain(system, w.rel) { assert w in multiset(files); }
  }

  lemma PayloadIs(profile: seq<Named>, host: Host)
    requires TreeOk(host.system, profile)
    ensures var payload, files, ids := Payload(profile, host), Archived(profile, host), PortableIdentity(profile, host);
            && multiset(payload) == multiset(ids) + multiset(files)
            && NonIdentity(payload) == NonIdentity(SortedByName(files))
            && Apart(NonIdentity(payload)) && Rooted(host.system, payload)
            && Bytes(payload) == Bytes(ids) + Bytes(files) && |payload| == |ids| + |files|
            && Components(payload) == Components(ids) + Components(files)
  {
    hide PortableIdentity, NonIdentity, Apart, TreeOk, SortedByName, FilesUnder, Bytes, Components, AllPlain;
    var files, ids := Archived(profile, host), PortableIdentity(profile, host);
    var sorted := SortedByName(files);
    ArchivedIs(profile, host);
    SortKeeps(files);
    SortedStaysApart(host.system, files);
    IdsAreIdentity(profile, host);
    NonIdentityAppend(ids, sorted);
    assert [] + NonIdentity(sorted) == NonIdentity(sorted);
    BytesAppend(ids, sorted);
    ComponentsAppend(ids, sorted);
  }

  // ---------------------------------------------------------------------------------------------
  // The theorem, each way.

  lemma {:induction false} NoneIdentity(files: seq<Written>, host: Host, ids: seq<Written>)
    requires forall w :: w in files ==> !IsIdentity(w.rel)
    ensures NonIdentity(files) == files && LastIdentity(ids + files, host) == LastIdentity(ids, host)
  {
    if files == [] {
      assert ids + files == ids;
    } else {
      var front, last := files[..|files| - 1], files[|files| - 1];
      assert files == front + [last] && ids + files == (ids + front) + [last];
      NoneIdentity(front, host, ids);
      LastNext(ids + front, last, host);
    }
  }

  lemma SameMap(a: seq<Written>, b: seq<Written>)
    requires Apart(a) && multiset(a) == multiset(b)
    ensures FileMap(a) == FileMap(b)
  {
    hide Apart, FileMap;
    SubApart(b, a);
    FileMapIs(a);
    FileMapIs(b);
    forall w ensures w in a <==> w in b {
      assert w in multiset(a) <==> w in multiset(b);
    }
    OneMap(FileMap(a), FileMap(b), a, b);
  }

  lemma OneMap(m: map<Rel, string>, n: map<Rel, string>, a: seq<Written>, b: seq<Written>)
    requires MapOf(m, a) && MapOf(n, b) && forall w :: w in a <==> w in b
    ensures m == n
  {
    forall r ensures (r in m <==> r in n) && (r in m ==> m[r] == n[r]) {
      if r in m { assert Written(r, m[r]) in b; }
      if r in n { assert Written(r, n[r]) in a; }
    }
  }

  /** The profile's own identity file is none of the archived files, and clashes with none. */
  lemma OwnFileIsApart(profile: seq<Named>, host: Host, w: Written)
    requires TreeOk(host.system, profile) && host.atRest in ContentsOf(profile) && w in Archived(profile, host)
    ensures !(w.rel <= host.atRest) && !(host.atRest <= w.rel)
  {
    var all := FilesUnder([], profile, None);
    WalkIsApart(host.system, [], profile, None);
    SkipDropsOne([], profile, host.atRest);
    FileMapIs(all);
    assert Written(host.atRest, ContentsOf(profile)[host.atRest]) in all;
  }

  /** Where the machine keeps its identity, the archived files leave room for it. */
  lemma AtRestIsFree(atRest: Rel, files: seq<Written>)
    requires |atRest| == 2 && forall w :: w in files ==> !(w.rel <= atRest) && !(atRest <= w.rel)
    ensures !FileInTheWay(files, atRest[..1]) && atRest !in Parents(files)
  {
    PrefixesAre(atRest[..1]);
    forall i | 0 <= i < |files| ensures files[i].rel !in Prefixes(atRest[..1]) {
      assert files[i] in files;
      assert !(files[i].rel <= atRest);
    }
    if atRest in Parents(files) {
      ParentOfSome(files, atRest);
    }
  }

  lemma PortableIsReadable(profile: seq<Named>, host: Host)
    requires TreeOk(host.system, profile) && HostOk(host) && Portable(profile, host)
    ensures Readable(Payload(profile, host), host)
  {
    var payload, files, ids := Payload(profile, host), Archived(profile, host), PortableIdentity(profile, host);
    PayloadIs(profile, host);
    IdentityRelSurvives(host.system);
    forall w | w in payload ensures Acceptable(w, host) {
      assert w in multiset(payload);
      assert w in ids || w in multiset(files);
    }
  }

  /** What a complete extraction of the profile's archive looks like. */
  ghost predicate Complete(x: Extraction, profile: seq<Named>, host: Host) {
    var loaded := LoadIdentity(ContentsOf(profile), host);
    && multiset(x.tree.files) == multiset(Archived(profile, host)) && x.tree.dirs == Parents(x.tree.files)
    && FileMap(x.tree.files) == ContentsOf(profile) - {host.atRest}
    && x.pending == if loaded.Holds? then Some(loaded.id) else None
  }

  lemma PendingIdentity(profile: seq<Named>, host: Host)
    requires HostOk(host) && Portable(profile, host)
    ensures LastIdentity(PortableIdentity(profile, host), host) ==
              var loaded := LoadIdentity(ContentsOf(profile), host); if loaded.Holds? then Some(loaded.id) else None
  {
    IdentityRelIsIdentity();
  }

  lemma SortedHasNoIdentity(profile: seq<Named>, host: Host)
    requires Portable(profile, host)
    ensures forall w :: w in SortedByName(Archived(profile, host)) ==> !IsIdentity(w.rel)
  {
    SortKeeps(Archived(profile, host));
    forall w | w in SortedByName(Archived(profile, host)) ensures !IsIdentity(w.rel) {
      assert w in multiset(Archived(profile, host));
    }
  }

  lemma TakenPayload(profile: seq<Named>, host: Host)
    requires TreeOk(host.system, profile) && HostOk(host) && Portable(profile, host)
    ensures Complete(Taken(Payload(profile, host), host), profile, host)
  {
    var files, ids := Archived(profile, host), PortableIdentity(profile, host);
    PayloadIs(profile, host);
    SortKeeps(files);
    SortedHasNoIdentity(profile, host);
    NoneIdentity(SortedByName(files), host, ids);
    PendingIdentity(profile, host);
    ArchivedIs(profile, host);
    SameMap(files, SortedByName(files));
  }

  lemma FinishReproduces(x: Extraction, profile: seq<Named>, host: Host)
    requires TreeOk(host.system, profile) && HostOk(host) && Complete(x, profile, host) && !LoadIdentity(ContentsOf(profile), host).Unreadable?
    ensures Reproduces(Finish(x, host), profile, host)
  {
    if x.pending.Some? {
      forall w | w in x.tree.files ensures !(w.rel <= host.atRest) && !(host.atRest <= w.rel) {
        assert w in multiset(x.tree.files);
        OwnFileIsApart(profile, host, w);
      }
      AtRestIsFree(host.atRest, x.tree.files);
      assert !host.diskFails(x.count);
      var restored := FileMap(x.tree.files)[host.atRest := host.seal(x.pending.value)];
      assert Finish(x, host) == Some(restored);
      assert restored - {host.atRest} == FileMap(x.tree.files);
    }
  }

  lemma PortableIsTaken(profile: seq<Named>, host: Host)
    requires TreeOk(host.system, profile) && HostOk(host) && Portable(profile, host)
    ensures ExtractAll(EntriesOf(Payload(profile, host)), host) == Some(Taken(Payload(profile, host), host))
  {
    PortableIsReadable(profile, host);
    PayloadIs(profile, host);
    ExtractsIff(Payload(profile, host), host);
  }

  lemma UnlockSealed(entries: seq<Entry>, passphrase: Option<string>, host: Host, x: Extraction)
    requires ExtractAll(entries, host) == Some(x)
    ensures Extracted(SealWith(entries, passphrase), passphrase, host) == Finish(x, host)
  {
  }

  lemma PortableBacksUp(profile: seq<Named>, host: Host, passphrase: Option<string>)
    requires Portable(profile, host)
    ensures BackedUp(profile, host, passphrase) == Some(SealWith(EntriesOf(Payload(profile, host)), passphrase))
    ensures !LoadIdentity(ContentsOf(profile), host).Unreadable?
  {
    hide LoadIdentity, EntriesOf, Payload, SealWith, IsIdentity, AllSurvive;
  }

  lemma PortableRoundTrips(profile: seq<Named>, host: Host, passphrase: Option<string>)
    requires TreeOk(host.system, profile) && HostOk(host) && Portable(profile, host)
    ensures RoundTrips(profile, host, passphrase)
  {
    hide Portable, BackedUp, LoadIdentity, Complete, Taken, TreeOk, HostOk, Payload, EntriesOf, Reproduces, SealWith, ExtractAll;
    var x := Taken(Payload(profile, host), host);
    PortableIsTaken(profile, host);
    UnlockSealed(EntriesOf(Payload(profile, host)), passphrase, host, x);
    PortableBacksUp(profile, host, passphrase);
    TakenPayload(profile, host);
    FinishReproduces(x, profile, host);
  }

  lemma RefusedRestoresNothing(entries: seq<Entry>, passphrase: Option<string>, host: Host)
    requires ExtractAll(entries, host).None?
    ensures Extracted(SealWith(entries, passphrase), passphrase, host).None?
  {
    hide ExtractAll;
  }

  lemma ReproducesSomething(restored: Option<map<Rel, string>>, profile: seq<Named>, host: Host)
    requires Reproduces(restored, profile, host)
    ensures restored.Some?
  {
  }

  /** What a round trip says before anything is restored. */
  lemma RoundTripReads(profile: seq<Named>, host: Host, passphrase: Option<string>)
    requires TreeOk(host.system, profile) && HostOk(host) && RoundTrips(profile, host, passphrase)
    ensures Readable(Payload(profile, host), host) && !LoadIdentity(ContentsOf(profile), host).Unreadable?
    ensures BackedUp(profile, host, passphrase) == Some(SealWith(EntriesOf(Payload(profile, host)), passphrase))
  {
    hide TreeOk, Apart, Rooted, Readable, Reproduces, EntriesOf, Payload, Taken, LoadIdentity, ExtractAll, Extracted, SealWith;
    var payload := Payload(profile, host);
    PayloadIs(profile, host);
    ExtractsIff(payload, host);
    ReproducesSomething(Extracted(BackedUp(profile, host, passphrase).value, passphrase, host), profile, host);
    if !Readable(payload, host) {
      RefusedRestoresNothing(EntriesOf(payload), passphrase, host);
    }
  }

  lemma ReadableIds(profile: seq<Named>, host: Host, payload: seq<Written>)
    requires Readable(payload, host) && HostOk(host) && multiset(PortableIdentity(profile, host)) <= multiset(payload)
    ensures var loaded := LoadIdentity(ContentsOf(profile), host); loaded.Holds? ==> host.valid(loaded.id)
  {
    var ids := PortableIdentity(profile, host);
    IdentityRelIsIdentity();
    if ids != [] {
      assert ids[0] in multiset(ids);
      assert Acceptable(ids[0], host);
    }
  }

  lemma RoundTripsIsPortable(profile: seq<Named>, host: Host, passphrase: Option<string>)
    requires TreeOk(host.system, profile) && HostOk(host) && RoundTrips(profile, host, passphrase)
    ensures Portable(profile, host)
  {
    hide TreeOk, Apart, Rooted, IsIdentity, AllSurvive, RoundTrips, HostOk, LoadIdentity, BackedUp, PortableIdentity, Archived, Payload;
    var payload, files := Payload(profile, host), Archived(profile, host);
    PayloadIs(profile, host);
    RoundTripReads(profile, host, passphrase);
    ReadableIds(profile, host, payload);
    forall w | w in files ensures AllSurvive(w.rel) && !IsIdentity(w.rel) {
      assert w in multiset(payload);
      assert Acceptable(w, host);
      ArchivedIs(profile, host);
      RestoredHasNoIdentity(profile, host, passphrase, w.rel);
    }
  }

  lemma RestoredHasNoIdentity(profile: seq<Named>, host: Host, passphrase: Option<string>, rel: Rel)
    requires TreeOk(host.system, profile) && HostOk(host) && RoundTrips(profile, host, passphrase) && rel in ContentsOf(profile) - {host.atRest}
    ensures !IsIdentity(rel)
  {
    hide TreeOk, Apart, Rooted, Readable, IsIdentity, EntriesOf, Payload, LoadIdentity, ExtractAll, Extracted, SealWith, NonIdentity;
    var payload := Payload(profile, host);
    PayloadIs(profile, host);
    ExtractsIff(payload, host);
    RoundTripReads(profile, host, passphrase);
    var x := Taken(payload, host);
    UnlockSealed(EntriesOf(payload), passphrase, host, x);
    FinishedFiles(x, profile, host, rel);
    FileMapIs(x.tree.files);
    var w := Written(rel, FileMap(x.tree.files)[rel]);
    NonIdentityIsPart(payload);
    assert w in NonIdentity(payload);
  }

  /** Away from the machine's own identity file, what is restored was created. */
  lemma FinishedFiles(x: Extraction, profile: seq<Named>, host: Host, rel: Rel)
    requires Reproduces(Finish(x, host), profile, host) && rel in ContentsOf(profile) - {host.atRest}
    ensures rel in FileMap(x.tree.files)
  {
    var restored := Finish(x, host).value;
    assert rel in restored - {host.atRest};
  }

  /** Backup then restore gives the profile back exactly when it is portable. */
  lemma RoundTripsIff(profile: seq<Named>, host: Host, passphrase: Option<string>)
    requires TreeOk(host.system, profile) && HostOk(host)
    ensures RoundTrips(profile, host, passphrase) <==> Portable(profile, host)
  {
    if Portable(profile, host) {
      PortableRoundTrips(profile, host, passphrase);
    } else if RoundTrips(profile, host, passphrase) {
      RoundTripsIsPortable(profile, host, passphrase);
    }
  }

  /** With any other passphrase, or one where none was used, a backup restores nothing. */
  lemma OtherPassphraseIsRefused(profile: seq<Named>, host: Host, used: Option<string>, given: Option<string>)
    requires BackedUp(profile, host, used).Some?
    ensures Extracted(BackedUp(profile, host, used).value, given, host).Some? ==> used == given
  {
  }
}
