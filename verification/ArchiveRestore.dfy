/** The reader of backup archives. It unpacks any sequence of entries, however hostile, into a fresh
    directory, and stops at the first entry it refuses. */
module ArchiveRestore {
  import opened Wrappers
  import opened ArchivePaths

  const MAX_TOTAL_BYTES: nat := 500 * 1024 * 1024
  const MAX_ENTRIES: nat := 10_000
  const MAX_DIR_COMPONENTS: nat := 50_000
  const U64_MAX: nat := 0xFFFF_FFFF_FFFF_FFFF

  datatype Identity = Identity(secret: string)

  /** The machine: whose path rules it follows, how an identity is written portably and at rest, and which entry the disk fails. */
  datatype Host = Host(
    system: System,
    atRest: Rel,
    encode: Identity -> string,
    decode: string -> Option<Identity>,
    valid: Identity -> bool,
    seal: Identity -> string,
    unseal: string -> Option<Identity>,
    diskFails: nat -> bool)

  datatype Kind = Symlink | HardLink | Sparse | Directory | OtherKind

  /** `path` is absent when it cannot be read, `data` when the archive ends inside it. `declared` is
      the header's word for the size and need not be the length of `data`. */
  datatype Entry = Corrupt | Entry(kind: Kind, path: Option<string>, declared: nat, data: Option<string>)

  datatype Archive = Garbage | Open(entries: seq<Entry>) | Sealed(passphrase: string, entries: seq<Entry>)

  datatype Written = Written(rel: Rel, data: string)

  /** What is on disk below the directory, the files in the order they were created. */
  datatype Tree = Tree(files: seq<Written>, dirs: set<Rel>)

  datatype Extraction = Extraction(tree: Tree, total: nat, readTotal: nat, count: nat, components: nat, pending: Option<Identity>)

  function Start(): Extraction {
    Extraction(Tree([], {}), 0, 0, 0, 0, None)
  }

  function Prefixes(rel: Rel): set<Rel> {
    if rel == [] then {} else Prefixes(rel[..|rel| - 1]) + {rel}
  }

  predicate IsFile(files: seq<Written>, rel: Rel) {
    exists i :: 0 <= i < |files| && files[i].rel == rel
  }

  predicate FileInTheWay(files: seq<Written>, rel: Rel) {
    exists p :: p in Prefixes(rel) && IsFile(files, p)
  }

  function MakeDirs(tree: Tree, rel: Rel): Option<Tree> {
    if FileInTheWay(tree.files, rel) then None else Some(tree.(dirs := tree.dirs + Prefixes(rel)))
  }

  /** `create_new`: nothing may be there yet. */
  function CreateFile(tree: Tree, rel: Rel, data: string): Option<Tree> {
    if IsFile(tree.files, rel) || rel in tree.dirs then None else Some(tree.(files := tree.files + [Written(rel, data)]))
  }

  function ReadBounded(data: Option<string>, remaining: nat): Option<string> {
    if data.None? || |data.value| > remaining then None else data
  }

  function ParseIdentity(data: string, host: Host): Option<Identity> {
    var id := host.decode(data);
    if id.Some? && host.valid(id.value) then id else None
  }

  /** The entry's counters, all three caps checked. */
  function Admit(x: Extraction, e: Entry, system: System): Option<(Extraction, Rel)> {
    if e.Corrupt? || e.kind.Symlink? || e.kind.HardLink? || e.kind.Sparse? || e.path.None? then None
    else
      var rel := Sanitized(system, e.path.value);
      if rel.None? then None
      else
        var total := Min(x.total + e.declared, U64_MAX);
        var components := x.components + |rel.value|;
        if x.count + 1 > MAX_ENTRIES || total > MAX_TOTAL_BYTES || components > MAX_DIR_COMPONENTS then None
        else Some((x.(total := total, count := x.count + 1, components := components), rel.value))
  }

  /** A regular entry is created new, its parents made first. */
  function PlaceFile(tree: Tree, rel: Rel, data: string): Option<Tree>
    requires rel != []
  {
    var made := MakeDirs(tree, rel[..|rel| - 1]);
    if made.None? then None else CreateFile(made.value, rel, data)
  }

  /** A regular entry whose bytes were read: kept aside if it is the identity, else created. */
  function Place(x: Extraction, rel: Rel, data: string, host: Host): Option<Extraction>
    requires rel != []
  {
    var y := x.(readTotal := x.readTotal + |data|);
    if IsIdentity(rel) then
      var id := ParseIdentity(data, host);
      if id.None? then None else Some(y.(pending := id))
    else
      var tree := PlaceFile(x.tree, rel, data);
      if tree.None? then None else Some(y.(tree := tree.value))
  }

  function ExtractEntry(x: Extraction, e: Entry, host: Host): Option<Extraction> {
    var admitted := Admit(x, e, host.system);
    if admitted.None? || host.diskFails(x.count) then None
    else
      var (y, rel) := admitted.value;
      AcceptedIsPlain(host.system, e.path.value);
      if e.kind.Directory? then
        var made := MakeDirs(y.tree, rel);
        if made.None? then None else Some(y.(tree := made.value))
      else
        var data := ReadBounded(e.data, SatSub(MAX_TOTAL_BYTES, y.readTotal));
        if data.None? then None else Place(y, rel, data.value, host)
  }

  function ExtractAll(entries: seq<Entry>, host: Host): Option<Extraction> {
    if entries == [] then Some(Start())
    else
      var x := ExtractAll(entries[..|entries| - 1], host);
      if x.None? then None else ExtractEntry(x.value, entries[|entries| - 1], host)
  }

  /** The entries a passphrase gives access to. A passphrase for an archive that claims to need none
      is refused. */
  function Unlock(archive: Archive, passphrase: Option<string>): Option<seq<Entry>> {
    match archive
    case Garbage => None
    case Open(entries) => if passphrase.Some? then None else Some(entries)
    case Sealed(p, entries) => if passphrase == Some(p) then Some(entries) else None
  }

  function FileMap(files: seq<Written>): map<Rel, string> {
    if files == [] then map[] else FileMap(files[..|files| - 1])[files[|files| - 1].rel := files[|files| - 1].data]
  }

  /** The restored files: those created, and the identity in the form this machine keeps at rest. */
  function Finish(x: Extraction, host: Host): Option<map<Rel, string>> {
    var files := FileMap(x.tree.files);
    if x.pending.None? then Some(files)
    else if FileInTheWay(x.tree.files, host.atRest[..SatSub(|host.atRest|, 1)]) || host.atRest in x.tree.dirs || host.diskFails(x.count) then None
    else Some(files[host.atRest := host.seal(x.pending.value)])
  }

  function Extracted(archive: Archive, passphrase: Option<string>, host: Host): Option<map<Rel, string>> {
    var entries := Unlock(archive, passphrase);
    if entries.None? then None
    else
      var x := ExtractAll(entries.value, host);
      if x.None? then None else Finish(x.value, host)
  }

  // ---------------------------------------------------------------------------------------------
  // Bounds on anything an archive can make the reader do.

  function Bytes(files: seq<Written>): nat {
    if files == [] then 0 else Bytes(files[..|files| - 1]) + |files[|files| - 1].data|
  }

  /** A path the reader may create: below the directory, kept as it is by the file system, and not
      the portable identity under any spelling. */
  ghost predicate MayCreate(system: System, rel: Rel) {
    rel != [] && AllPlain(system, rel) && AllSurvive(rel) && !IsIdentity(rel)
  }

  ghost predicate WrittenOnce(files: seq<Written>) {
    forall i, j :: 0 <= i < j < |files| ==> files[i].rel != files[j].rel
  }

  /** A file among these directories: its parents are there and it is none of them. */
  ghost predicate Housed(system: System, rel: Rel, dirs: set<Rel>) {
    MayCreate(system, rel) && rel !in dirs && Prefixes(rel[..|rel| - 1]) <= dirs
  }

  ghost predicate DirsSurvive(system: System, dirs: set<Rel>) {
    forall d :: d in dirs ==> d != [] && AllPlain(system, d) && AllSurvive(d)
  }

  ghost predicate Coherent(system: System, tree: Tree) {
    && WrittenOnce(tree.files)
    && (forall i :: 0 <= i < |tree.files| ==> Housed(system, tree.files[i].rel, tree.dirs))
    && DirsSurvive(system, tree.dirs)
  }

  ghost predicate WithinCaps(x: Extraction) {
    && x.total <= MAX_TOTAL_BYTES && x.readTotal <= MAX_TOTAL_BYTES
    && x.count <= MAX_ENTRIES && x.components <= MAX_DIR_COMPONENTS
    && Bytes(x.tree.files) <= x.readTotal && |x.tree.files| <= x.count
    && |x.tree.dirs| + |x.tree.files| <= x.components
  }

  lemma {:induction false} PrefixesAre(rel: Rel)
    ensures |Prefixes(rel)| <= |rel|
    ensures forall p :: p in Prefixes(rel) <==> 0 < |p| <= |rel| && p == rel[..|p|]
  {
    if rel != [] {
      var front := rel[..|rel| - 1];
      PrefixesAre(front);
      forall p ensures p in Prefixes(rel) <==> 0 < |p| <= |rel| && p == rel[..|p|] {
        if |p| < |rel| {
          assert front[..|p|] == rel[..|p|];
        } else if |p| == |rel| {
          assert rel[..|p|] == rel;
        }
      }
    }
  }

  lemma UnionSize(a: set<Rel>, b: set<Rel>)
    ensures |a + b| <= |a| + |b|
  {
    assert |a + b| == |a| + |b| - |a * b|;
  }

  lemma PrefixesSurvive(system: System, rel: Rel)
    requires AllPlain(system, rel) && AllSurvive(rel)
    ensures forall p :: p in Prefixes(rel) ==> p != [] && AllPlain(system, p) && AllSurvive(p)
  {
    PrefixesAre(rel);
    forall p | p in Prefixes(rel) ensures p != [] && AllPlain(system, p) && AllSurvive(p) {
      forall i | 0 <= i < |p| ensures Plain(system, p[i]) && Survives(p[i]) {
        assert p[i] == rel[i];
      }
    }
  }

  lemma MakeDirsKeeps(system: System, tree: Tree, rel: Rel)
    requires Coherent(system, tree) && AllPlain(system, rel) && AllSurvive(rel) && MakeDirs(tree, rel).Some?
    ensures var made := MakeDirs(tree, rel).value;
            Coherent(system, made) && |made.dirs| <= |tree.dirs| + |rel| && made.files == tree.files && Prefixes(rel) <= made.dirs
  {
    PrefixesAre(rel);
    PrefixesSurvive(system, rel);
    UnionSize(tree.dirs, Prefixes(rel));
    var made := MakeDirs(tree, rel).value;
    forall i | 0 <= i < |tree.files| ensures Housed(system, tree.files[i].rel, made.dirs) {
      assert Housed(system, tree.files[i].rel, tree.dirs);
      assert IsFile(tree.files, tree.files[i].rel);
    }
    assert DirsSurvive(system, made.dirs);
  }

  lemma CreateFileKeeps(system: System, tree: Tree, rel: Rel, data: string)
    requires Coherent(system, tree) && MayCreate(system, rel) && Prefixes(rel[..|rel| - 1]) <= tree.dirs && CreateFile(tree, rel, data).Some?
    ensures Coherent(system, CreateFile(tree, rel, data).value)
    ensures Bytes(CreateFile(tree, rel, data).value.files) == Bytes(tree.files) + |data|
  {
    var files := CreateFile(tree, rel, data).value.files;
    assert files[..|files| - 1] == tree.files;
    assert Housed(system, rel, tree.dirs);
    forall i | 0 <= i < |tree.files| ensures tree.files[i].rel != rel {
      assert IsFile(tree.files, tree.files[i].rel);
    }
  }

  lemma PlaceKeeps(x: Extraction, rel: Rel, data: string, host: Host)
    requires Coherent(host.system, x.tree) && rel != [] && AllPlain(host.system, rel) && AllSurvive(rel)
    requires x.readTotal + |data| <= MAX_TOTAL_BYTES && Bytes(x.tree.files) <= x.readTotal && |x.tree.files| < x.count
    requires x.total <= MAX_TOTAL_BYTES && x.count <= MAX_ENTRIES && x.components <= MAX_DIR_COMPONENTS
    requires |x.tree.dirs| + |x.tree.files| + |rel| <= x.components
    requires Place(x, rel, data, host).Some?
    ensures WithinCaps(Place(x, rel, data, host).value) && Coherent(host.system, Place(x, rel, data, host).value.tree)
  {
    if !IsIdentity(rel) {
      var parent := rel[..|rel| - 1];
      assert AllPlain(host.system, parent) && AllSurvive(parent);
      MakeDirsKeeps(host.system, x.tree, parent);
      CreateFileKeeps(host.system, MakeDirs(x.tree, parent).value, rel, data);
    }
  }

  lemma EntryKeeps(x: Extraction, e: Entry, host: Host)
    requires WithinCaps(x) && Coherent(host.system, x.tree) && ExtractEntry(x, e, host).Some?
    ensures WithinCaps(ExtractEntry(x, e, host).value) && Coherent(host.system, ExtractEntry(x, e, host).value.tree)
  {
    var (y, rel) := Admit(x, e, host.system).value;
    AcceptedIsPlain(host.system, e.path.value);
    if e.kind.Directory? {
      MakeDirsKeeps(host.system, x.tree, rel);
    } else {
      PlaceKeeps(y, rel, e.data.value, host);
    }
  }

  /** For every sequence of entries: what was written is within all three caps, below the directory,
      written once, and never the portable identity. */
  lemma {:induction false} HostileArchivesAreBounded(entries: seq<Entry>, host: Host)
    requires ExtractAll(entries, host).Some?
    ensures var x := ExtractAll(entries, host).value; WithinCaps(x) && Coherent(host.system, x.tree)
  {
    if entries != [] {
      var front := entries[..|entries| - 1];
      HostileArchivesAreBounded(front, host);
      EntryKeeps(ExtractAll(front, host).value, entries[|entries| - 1], host);
    }
  }

  /** What a successful extraction did with entry `e`: a directory is there, a file is there with
      every byte it was given, an identity was valid. Links and sparse files never get this far. */
  ghost predicate Honoured(x: Extraction, e: Entry, host: Host) {
    && e.Entry? && !e.kind.Symlink? && !e.kind.HardLink? && !e.kind.Sparse?
    && e.path.Some? && Sanitized(host.system, e.path.value).Some?
    && var rel := Sanitized(host.system, e.path.value).value;
       if e.kind.Directory? then Prefixes(rel) <= x.tree.dirs
       else e.data.Some? && (if IsIdentity(rel) then ParseIdentity(e.data.value, host).Some? && x.pending.Some?
                             else Written(rel, e.data.value) in x.tree.files)
  }

  /** Nothing on disk goes away. */
  ghost predicate Grows(x: Extraction, y: Extraction) {
    && x.tree.dirs <= y.tree.dirs && (x.pending.Some? ==> y.pending.Some?)
    && forall w :: w in x.tree.files ==> w in y.tree.files
  }

  lemma EntryIsHonoured(x: Extraction, e: Entry, host: Host)
    requires ExtractEntry(x, e, host).Some?
    ensures Honoured(ExtractEntry(x, e, host).value, e, host) && Grows(x, ExtractEntry(x, e, host).value)
  {
  }

  lemma HonouredStays(x: Extraction, y: Extraction, e: Entry, host: Host)
    requires Honoured(x, e, host) && Grows(x, y)
    ensures Honoured(y, e, host)
  {
  }

  lemma LastEntryIsTaken(entries: seq<Entry>, host: Host) returns (x: Extraction)
    requires entries != [] && ExtractAll(entries, host).Some?
    ensures ExtractAll(entries[..|entries| - 1], host) == Some(x)
    ensures ExtractEntry(x, entries[|entries| - 1], host) == ExtractAll(entries, host)
  {
    x := ExtractAll(entries[..|entries| - 1], host).value;
  }

  /** An archive is restored whole or not at all: no entry is skipped and no byte of it dropped. */
  lemma {:induction false} EveryEntryIsHonoured(entries: seq<Entry>, host: Host, i: nat)
    requires ExtractAll(entries, host).Some? && i < |entries|
    ensures Honoured(ExtractAll(entries, host).value, entries[i], host)
  {
    var x := LastEntryIsTaken(entries, host);
    var y := ExtractAll(entries, host).value;
    EntryIsHonoured(x, entries[|entries| - 1], host);
    if i < |entries| - 1 {
      EveryEntryIsHonoured(entries[..|entries| - 1], host, i);
      HonouredStays(x, y, entries[i], host);
    }
  }

  /** The reader's loop. Whatever stops it, what it has written so far is bounded; nothing but a
      clean end reports success. */
  method ExtractArchive(archive: Archive, passphrase: Option<string>, host: Host)
    returns (restored: Option<map<Rel, string>>, left: Extraction)
    ensures restored == Extracted(archive, passphrase, host)
    ensures WithinCaps(left) && Coherent(host.system, left.tree)
    ensures restored.Some? ==> restored == Finish(left, host)
  {
    left := Start();
    var entries := Unlock(archive, passphrase);
    if entries.None? {
      return None, left;
    }
    var n := |entries.value|;
    assert entries.value[..0] == [];
    for i := 0 to n
      invariant ExtractAll(entries.value[..i], host) == Some(left)
      invariant WithinCaps(left) && Coherent(host.system, left.tree)
    {
      ExtractsNext(entries.value, i, host);
      var next := ExtractEntry(left, entries.value[i], host);
      if next.None? {
        StopsForGood(entries.value, i + 1, host);
        return None, left;
      }
      EntryKeeps(left, entries.value[i], host);
      left := next.value;
    }
    assert entries.value[..n] == entries.value;
    restored := Finish(left, host);
  }

  lemma ExtractsNext(entries: seq<Entry>, i: nat, host: Host)
    requires i < |entries|
    ensures var x := ExtractAll(entries[..i], host);
            ExtractAll(entries[..i + 1], host) == if x.None? then None else ExtractEntry(x.value, entries[i], host)
  {
    assert entries[..i + 1][..i] == entries[..i];
  }

  lemma {:induction false} StopsForGood(entries: seq<Entry>, i: nat, host: Host)
    requires i <= |entries| && ExtractAll(entries[..i], host).None?
    ensures ExtractAll(entries, host).None?
    decreases |entries| - i
  {
    if i < |entries| {
      ExtractsNext(entries, i, host);
      StopsForGood(entries, i + 1, host);
    } else {
      assert entries[..i] == entries;
    }
  }
}
