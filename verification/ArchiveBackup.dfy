/** The writer of backup archives: it walks the profile directory, refuses a profile it could not
    restore for its size, and stores the identity in its portable form. */
module ArchiveBackup {
  import opened Wrappers
  import opened ArchivePaths
  import opened ArchiveRestore
  import opened TextOrder

  /** A directory as the walk meets it. */
  datatype Node = File(content: string) | Folder(children: seq<Named>) | Link | Special
  datatype Named = Named(name: string, node: Node)

  /** Every regular file below `children` but the one at `skipped`, in walk order. */
  function FilesUnder(prefix: Rel, children: seq<Named>, skipped: Option<Rel>): seq<Written>
    decreases children
  {
    if children == [] then []
    else
      var last := children[|children| - 1];
      FilesUnder(prefix, children[..|children| - 1], skipped) + FilesAt(prefix + [last.name], last.node, skipped)
  }

  function FilesAt(path: Rel, node: Node, skipped: Option<Rel>): seq<Written>
    decreases node
  {
    match node
    case File(content) => if skipped == Some(path) then [] else [Written(path, content)]
    case Folder(inner) => FilesUnder(path, inner, skipped)
    case _ => []
  }

  lemma {:induction false} BytesAppend(a: seq<Written>, b: seq<Written>)
    ensures Bytes(a + b) == Bytes(a) + Bytes(b)
  {
    if b == [] {
      assert a + b == a;
    } else {
      assert (a + b)[..|a + b| - 1] == a + b[..|b| - 1];
      BytesAppend(a, b[..|b| - 1]);
    }
  }

  lemma WalkStep(prefix: Rel, children: seq<Named>, i: nat, skipped: Rel)
    requires i < |children|
    ensures var now := FilesUnder(prefix, children[..i], Some(skipped));
            var here := FilesAt(prefix + [children[i].name], children[i].node, Some(skipped));
            && FilesUnder(prefix, children[..i + 1], Some(skipped)) == now + here
            && Bytes(now + here) == Bytes(now) + Bytes(here)
  {
    assert children[..i + 1][..i] == children[..i];
    BytesAppend(FilesUnder(prefix, children[..i], Some(skipped)), FilesAt(prefix + [children[i].name], children[i].node, Some(skipped)));
  }

  lemma {:induction false} WalkGrows(prefix: Rel, children: seq<Named>, i: nat, skipped: Rel)
    requires i <= |children|
    ensures |FilesUnder(prefix, children[..i], Some(skipped))| <= |FilesUnder(prefix, children, Some(skipped))|
    ensures Bytes(FilesUnder(prefix, children[..i], Some(skipped))) <= Bytes(FilesUnder(prefix, children, Some(skipped)))
    decreases |children| - i
  {
    if i < |children| {
      WalkStep(prefix, children, i, skipped);
      WalkGrows(prefix, children, i + 1, skipped);
    } else {
      assert children[..i] == children;
    }
  }

  predicate Fits(found: seq<Written>, ledger: nat) {
    found == [] || ledger + Bytes(found) <= MAX_TOTAL_BYTES
  }

  /** The loop's state before child `i`: what was collected and what it weighs. */
  ghost predicate WalkedTo(prefix: Rel, children: seq<Named>, i: nat, skipped: Rel,
    out: seq<Written>, ledger: nat, list: seq<Written>, total: nat)
    requires i <= |children|
  {
    var now := FilesUnder(prefix, children[..i], Some(skipped));
    list == out + now && total == ledger + Bytes(now) && Fits(now, ledger)
  }

  lemma FitsTogether(now: seq<Written>, here: seq<Written>, ledger: nat)
    requires Fits(now, ledger) && Bytes(now + here) == Bytes(now) + Bytes(here)
    ensures Fits(here, ledger + Bytes(now)) <==> Fits(now + here, ledger) || here == []
  {
    if here == [] {
      assert now + here == now;
    }
  }

  lemma UnfitPart(part: seq<Written>, whole: seq<Written>, ledger: nat)
    requires !Fits(part, ledger) && |part| <= |whole| && Bytes(part) <= Bytes(whole)
    ensures !Fits(whole, ledger)
  {
  }

  lemma WalkOn(prefix: Rel, children: seq<Named>, i: nat, skipped: Rel, out: seq<Written>, ledger: nat, list: seq<Written>, total: nat)
    requires i < |children| && WalkedTo(prefix, children, i, skipped, out, ledger, list, total)
    ensures var here := FilesAt(prefix + [children[i].name], children[i].node, Some(skipped));
            if Fits(here, total) then WalkedTo(prefix, children, i + 1, skipped, out, ledger, list + here, total + Bytes(here))
            else !Fits(FilesUnder(prefix, children, Some(skipped)), ledger)
  {
    WalkStep(prefix, children, i, skipped);
    var now := FilesUnder(prefix, children[..i], Some(skipped));
    var here := FilesAt(prefix + [children[i].name], children[i].node, Some(skipped));
    assert (out + now) + here == out + (now + here);
    FitsTogether(now, here, ledger);
    if here == [] {
      assert now + here == now;
    } else if !Fits(here, total) {
      WalkGrows(prefix, children, i + 1, skipped);
      UnfitPart(now + here, FilesUnder(prefix, children, Some(skipped)), ledger);
    }
  }

  /** The walk. It stops at the file that takes the ledger past the cap a restore enforces, so it
      succeeds exactly when everything it must archive fits. */
  method CollectFiles(prefix: Rel, children: seq<Named>, skipped: Rel, out: seq<Written>, ledger: nat)
    returns (files: Option<seq<Written>>, total: nat)
    ensures var found := FilesUnder(prefix, children, Some(skipped));
            if Fits(found, ledger) then files == Some(out + found) && total == ledger + Bytes(found) else files.None?
    decreases children
  {
    var list := out;
    total := ledger;
    assert children[..0] == [];
    assert out + [] == out;
    for i := 0 to |children|
      invariant WalkedTo(prefix, children, i, skipped, out, ledger, list, total)
    {
      var path := prefix + [children[i].name];
      WalkOn(prefix, children, i, skipped, out, ledger, list, total);
      ghost var here := FilesAt(path, children[i].node, Some(skipped));
      match children[i].node
      case File(content) =>
        if path != skipped {
          assert here == [Written(path, content)] && here[..0] == [];
          total := total + |content|;
          if total > MAX_TOTAL_BYTES {
            return None, total;
          }
          list := list + [Written(path, content)];
        } else {
          assert list + here == list;
        }
      case Folder(inner) =>
        var deeper: Option<seq<Written>>;
        deeper, total := CollectFiles(path, inner, skipped, list, total);
        if deeper.None? {
          return None, total;
        }
        list := deeper.value;
      case _ =>
        assert list + here == list;
    }
    assert children[..|children|] == children;
    files := Some(list);
  }

  // ---------------------------------------------------------------------------------------------
  // The order of the archive.

  function Insert(sorted: seq<Written>, w: Written): seq<Written> {
    if sorted == [] || NotAfter(Join(sorted[|sorted| - 1].rel), Join(w.rel)) then sorted + [w]
    else Insert(sorted[..|sorted| - 1], w) + [sorted[|sorted| - 1]]
  }

  function SortedByName(files: seq<Written>): seq<Written> {
    if files == [] then [] else Insert(SortedByName(files[..|files| - 1]), files[|files| - 1])
  }

  // ---------------------------------------------------------------------------------------------
  // The archive.

  datatype Loaded = NoIdentity | Unreadable | Holds(id: Identity)

  /** An empty identity file counts as none. */
  function LoadIdentity(files: map<Rel, string>, host: Host): Loaded {
    if host.atRest !in files || files[host.atRest] == "" then NoIdentity
    else
      var id := host.unseal(files[host.atRest]);
      if id.None? then Unreadable else Holds(id.value)
  }

  function ContentsOf(profile: seq<Named>): map<Rel, string> {
    FileMap(FilesUnder([], profile, None))
  }

  function PortableIdentity(profile: seq<Named>, host: Host): seq<Written> {
    var loaded := LoadIdentity(ContentsOf(profile), host);
    if loaded.Holds? then [Written(IDENTITY_REL, host.encode(loaded.id))] else []
  }

  function EntryOf(w: Written): Entry {
    Entry(OtherKind, Some(Join(w.rel)), |w.data|, Some(w.data))
  }

  function EntriesOf(files: seq<Written>): seq<Entry> {
    if files == [] then [] else EntriesOf(files[..|files| - 1]) + [EntryOf(files[|files| - 1])]
  }

  /** What the archive will hold, in order. */
  function Payload(profile: seq<Named>, host: Host): seq<Written> {
    PortableIdentity(profile, host) + SortedByName(FilesUnder([], profile, Some(host.atRest)))
  }

  function SealWith(entries: seq<Entry>, passphrase: Option<string>): Archive {
    if passphrase.None? then Open(entries) else Sealed(passphrase.value, entries)
  }

  /** The identity's own size is checked only together with a file's. */
  function BackedUp(profile: seq<Named>, host: Host, passphrase: Option<string>): Option<Archive> {
    var files := FilesUnder([], profile, Some(host.atRest));
    var ids := PortableIdentity(profile, host);
    if LoadIdentity(ContentsOf(profile), host).Unreadable? then None
    else if !Fits(files, Bytes(ids)) then None
    else Some(SealWith(EntriesOf(Payload(profile, host)), passphrase))
  }

  method Backup(profile: seq<Named>, host: Host, passphrase: Option<string>) returns (archive: Option<Archive>)
    ensures archive == BackedUp(profile, host, passphrase)
  {
    var loaded := LoadIdentity(ContentsOf(profile), host);
    if loaded.Unreadable? {
      return None;
    }
    var payload: seq<Written> := [];
    var ledger := 0;
    if loaded.Holds? {
      var json := host.encode(loaded.id);
      ledger := ledger + |json|;
      payload := [Written(IDENTITY_REL, json)];
      assert Bytes(payload[..0]) == 0;
    }
    var files, total := CollectFiles([], profile, host.atRest, [], ledger);
    if files.None? {
      return None;
    }
    assert [] + FilesUnder([], profile, Some(host.atRest)) == FilesUnder([], profile, Some(host.atRest));
    payload := payload + SortedByName(files.value);
    archive := Some(SealWith(EntriesOf(payload), passphrase));
  }
}
