/** What a backup holds, told from the profile's tree alone: every regular file at any depth but the
    machine's own identity file, and the identity in its portable form. */
module ArchiveWalk {
  import opened Wrappers
  import opened ArchivePaths
  import opened ArchiveRestore
  import opened ArchiveBackup
  import opened ArchiveReadBack

  /** A regular file with this content is at `rel` below `children`. */
  ghost predicate HasFile(children: seq<Named>, rel: Rel, data: string)
    decreases children
  {
    rel != [] && exists i :: 0 <= i < |children| && children[i].name == rel[0] && NodeHasFile(children[i].node, rel[1..], data)
  }

  ghost predicate NodeHasFile(node: Node, rel: Rel, data: string)
    decreases node
  {
    if rel == [] then node == File(data) else node.Folder? && HasFile(node.children, rel, data)
  }

  lemma HasFileMore(front: seq<Named>, last: Named, rel: Rel, data: string)
    ensures HasFile(front + [last], rel, data) <==>
              HasFile(front, rel, data) || (rel != [] && last.name == rel[0] && NodeHasFile(last.node, rel[1..], data))
  {
    hide NodeHasFile;
    var all := front + [last];
    if rel != [] {
      if i :| 0 <= i < |front| && front[i].name == rel[0] && NodeHasFile(front[i].node, rel[1..], data) {
        assert all[i] == front[i];
      }
      assert all[|front|] == last;
    }
  }

  lemma {:induction false} WalkFinds(prefix: Rel, children: seq<Named>, skipped: Option<Rel>, w: Written)
    ensures w in FilesUnder(prefix, children, skipped) <==>
              prefix <= w.rel && HasFile(children, w.rel[|prefix|..], w.data) && skipped != Some(w.rel)
    decreases children
  {
    hide HasFile, NodeHasFile, FilesAt;
    if children == [] {
      NothingHasFile(w.rel, w.data);
      if prefix <= w.rel { NothingHasFile(w.rel[|prefix|..], w.data); }
    } else {
      var front, last := children[..|children| - 1], children[|children| - 1];
      var path := prefix + [last.name];
      WalkFinds(prefix, front, skipped, w);
      NodeFinds(path, last.node, skipped, w);
      assert children == front + [last];
      if prefix <= w.rel {
        var rel := w.rel[|prefix|..];
        HasFileMore(front, last, rel, w.data);
        PathStep(prefix, last.name, w.rel);
      } else {
        assert path <= w.rel ==> prefix <= w.rel;
      }
    }
  }

  lemma PathStep(prefix: Rel, name: string, rel: Rel)
    requires prefix <= rel
    ensures prefix + [name] <= rel <==> rel[|prefix|..] != [] && rel[|prefix|..][0] == name
    ensures prefix + [name] <= rel ==> rel[|prefix + [name]|..] == rel[|prefix|..][1..]
  {
  }

  lemma NothingHasFile(rel: Rel, data: string)
    ensures !HasFile([], rel, data)
  {
  }

  lemma {:induction false} NodeFinds(path: Rel, node: Node, skipped: Option<Rel>, w: Written)
    ensures w in FilesAt(path, node, skipped) <==>
              path <= w.rel && NodeHasFile(node, w.rel[|path|..], w.data) && skipped != Some(w.rel)
    decreases node
  {
    hide HasFile, FilesUnder;
    match node
    case File(content) =>
      if path <= w.rel && w.rel[|path|..] == [] { assert w.rel == path; }
    case Folder(inner) =>
      WalkFinds(path, inner, skipped, w);
      if path <= w.rel { EmptyPathHasNoFile(inner, w.rel[|path|..], w.data); }
    case _ =>
  }

  lemma EmptyPathHasNoFile(children: seq<Named>, rel: Rel, data: string)
    ensures HasFile(children, rel, data) ==> rel != []
  {
  }

  /** The profile's files as a map: exactly the regular files of its tree. */
  lemma ContentsAre(system: System, profile: seq<Named>, rel: Rel, data: string)
    requires TreeOk(system, profile)
    ensures rel in ContentsOf(profile) && ContentsOf(profile)[rel] == data <==> HasFile(profile, rel, data)
  {
    hide HasFile, TreeOk, Apart;
    var files := FilesUnder([], profile, None);
    WalkIsApart(system, [], profile, None);
    FileMapIs(files);
    WalkFinds([], profile, None, Written(rel, data));
    assert rel[0..] == rel;
    if rel in FileMap(files) { assert Written(rel, FileMap(files)[rel]) in files; }
  }

  // ---------------------------------------------------------------------------------------------
  // The archive.

  /** The machine's own identity file is there and not empty. */
  ghost predicate KeepsIdentity(profile: seq<Named>, host: Host, text: string) {
    HasFile(profile, host.atRest, text) && text != ""
  }

  ghost predicate IsUnreadable(profile: seq<Named>, host: Host) {
    exists text: string :: KeepsIdentity(profile, host, text) && host.unseal(text).None?
  }

  ghost predicate IsIdentityEntry(e: Entry, profile: seq<Named>, host: Host) {
    exists text: string :: KeepsIdentity(profile, host, text) && host.unseal(text).Some?
                           && e == EntryOf(Written(["identity", "identity.json"], host.encode(host.unseal(text).value)))
  }

  ghost predicate IsFileEntry(e: Entry, profile: seq<Named>, host: Host) {
    exists w: Written :: HasFile(profile, w.rel, w.data) && w.rel != host.atRest && e == EntryOf(w)
  }

  lemma {:induction false} EntriesAre(files: seq<Written>, e: Entry)
    ensures e in EntriesOf(files) <==> exists w :: w in files && e == EntryOf(w)
    ensures |EntriesOf(files)| == |files|
  {
    if files != [] {
      var front, last := files[..|files| - 1], files[|files| - 1];
      EntriesAre(front, e);
      assert files == front + [last];
      assert last in files;
    }
  }

  lemma LoadedIs(profile: seq<Named>, host: Host)
    requires TreeOk(host.system, profile)
    ensures LoadIdentity(ContentsOf(profile), host).Unreadable? <==> IsUnreadable(profile, host)
    ensures forall id :: LoadIdentity(ContentsOf(profile), host) == Holds(id) <==>
              exists text: string :: KeepsIdentity(profile, host, text) && host.unseal(text) == Some(id)
  {
    hide TreeOk, HasFile, ContentsOf;
    var files := ContentsOf(profile);
    forall text: string ensures KeepsIdentity(profile, host, text) <==> host.atRest in files && files[host.atRest] == text && text != "" {
      ContentsAre(host.system, profile, host.atRest, text);
    }
    if host.atRest in files && files[host.atRest] != "" {
      assert KeepsIdentity(profile, host, files[host.atRest]);
    }
  }

  lemma PortableEntries(profile: seq<Named>, host: Host, e: Entry)
    requires TreeOk(host.system, profile)
    ensures (exists w :: w in PortableIdentity(profile, host) && e == EntryOf(w)) <==> IsIdentityEntry(e, profile, host)
  {
    hide TreeOk, EntryOf, LoadIdentity, KeepsIdentity, ContentsOf;
    LoadedIs(profile, host);
    var loaded := LoadIdentity(ContentsOf(profile), host);
    if loaded.Holds? {
      var text: string :| KeepsIdentity(profile, host, text) && host.unseal(text) == Some(loaded.id);
      assert Written(IDENTITY_REL, host.encode(loaded.id)) in PortableIdentity(profile, host);
    }
    if IsIdentityEntry(e, profile, host) {
      var text: string :| KeepsIdentity(profile, host, text) && host.unseal(text).Some?
                          && e == EntryOf(Written(["identity", "identity.json"], host.encode(host.unseal(text).value)));
      assert loaded == Holds(host.unseal(text).value);
      assert Written(IDENTITY_REL, host.encode(loaded.id)) in PortableIdentity(profile, host);
    }
  }

  lemma WalkedEntries(profile: seq<Named>, host: Host, e: Entry)
    ensures (exists w :: w in FilesUnder([], profile, Some(host.atRest)) && e == EntryOf(w)) <==> IsFileEntry(e, profile, host)
  {
    hide EntryOf, HasFile, FilesUnder;
    forall w: Written ensures w in FilesUnder([], profile, Some(host.atRest)) <==> HasFile(profile, w.rel, w.data) && w.rel != host.atRest {
      WalkFinds([], profile, Some(host.atRest), w);
      assert w.rel[0..] == w.rel;
    }
  }

  lemma PayloadEntries(profile: seq<Named>, host: Host, e: Entry)
    ensures e in EntriesOf(Payload(profile, host)) <==>
              || (exists w :: w in PortableIdentity(profile, host) && e == EntryOf(w))
              || (exists w :: w in FilesUnder([], profile, Some(host.atRest)) && e == EntryOf(w))
  {
    hide EntryOf, EntriesOf, PortableIdentity, FilesUnder;
    var files := FilesUnder([], profile, Some(host.atRest));
    EntriesAre(Payload(profile, host), e);
    SortKeeps(files);
    forall w ensures w in SortedByName(files) <==> w in files {
      assert w in multiset(SortedByName(files)) <==> w in multiset(files);
    }
  }

  /** A backup fails exactly when the identity cannot be read or the files do not fit with it; else it
      holds the portable identity, if the machine has one, and every other regular file, each whole
      under its own path, and nothing more, under the passphrase it was given. */
  lemma BackupHolds(profile: seq<Named>, host: Host, passphrase: Option<string>)
    requires TreeOk(host.system, profile)
    ensures var files := FilesUnder([], profile, Some(host.atRest));
            BackedUp(profile, host, passphrase).None? <==>
              IsUnreadable(profile, host) || (files != [] && Bytes(PortableIdentity(profile, host)) + Bytes(files) > MAX_TOTAL_BYTES)
    ensures BackedUp(profile, host, passphrase).Some? ==>
              exists entries :: BackedUp(profile, host, passphrase).value == (if passphrase.None? then Open(entries) else Sealed(passphrase.value, entries))
                                && forall e :: e in entries <==> IsIdentityEntry(e, profile, host) || IsFileEntry(e, profile, host)
  {
    hide TreeOk, EntriesOf, PortableIdentity, FilesUnder, LoadIdentity, IsIdentityEntry, IsFileEntry, Payload, IsUnreadable;
    LoadedIs(profile, host);
    if BackedUp(profile, host, passphrase).Some? {
      var entries := EntriesOf(Payload(profile, host));
      forall e ensures e in entries <==> IsIdentityEntry(e, profile, host) || IsFileEntry(e, profile, host) {
        PayloadEntries(profile, host, e);
        PortableEntries(profile, host, e);
        WalkedEntries(profile, host, e);
      }
    }
  }
}
