/** The manifest cache as a directory of files, and what a lookup sees in it. */
module CacheFiles {
  import opened Wrappers
  import opened ManifestNames

  datatype CacheEntry = CacheEntry(npub: Text, slug: Text, fingerprint: Text, envelope: string, lastAccess: nat)

  /** A file holds a whole entry, or bytes that do not parse as one. */
  datatype Content = Whole(entry: CacheEntry) | Torn

  type Files = map<Name, Content>

  datatype Dir = Absent | Present(files: Files)

  /** What a collection's cached copy is, recency aside. */
  datatype Snapshot = Snapshot(fingerprint: Text, envelope: string)

  function FilesOf(d: Dir): Files {
    if d.Present? then d.files else map[]
  }

  function KeyOf(e: CacheEntry): Key {
    Key(e.npub, e.slug)
  }

  function SnapshotOf(e: CacheEntry): Snapshot {
    Snapshot(e.fingerprint, e.envelope)
  }

  /** The one copy the readers can reach. */
  function Lookup(files: Files, k: Key): Option<Snapshot> {
    if Canonical(k) in files && files[Canonical(k)].Whole? && KeyOf(files[Canonical(k)].entry) == k
    then Some(SnapshotOf(files[Canonical(k)].entry))
    else None
  }

  /** What a reader that pins `fingerprint`, or none, gets from the copy it reaches. */
  function Answer(found: Option<Snapshot>, fingerprint: Option<Text>): Option<string> {
    if found.Some? && (fingerprint.None? || fingerprint.value == found.value.fingerprint)
    then Some(found.value.envelope)
    else None
  }

  function Renamed(files: Files, from: Name, to: Name): Files
    requires from in files
  {
    (files - {from})[to := files[from]]
  }

  /** What a read of `k` gets: the envelope of the entry in its slot, if that is an entry of this very
      key and, when a fingerprint is pinned, of this very snapshot. */
  lemma AnswerIff(files: Files, k: Key, fingerprint: Option<Text>, envelope: string)
    ensures Answer(Lookup(files, k), fingerprint) == Some(envelope) <==>
              && Canonical(k) in files && files[Canonical(k)].Whole?
              && var e := files[Canonical(k)].entry;
                 e.npub == k.npub && e.slug == k.slug && e.envelope == envelope
                 && (fingerprint == None || fingerprint == Some(e.fingerprint))
  {
    hide Canonical;
  }

  /** A read of `k` at `now`: its entry is the same but for the stamp of the read, and every file but
      the staged one is as before. */
  ghost predicate Touched(before: Files, after: Files, k: Key, now: nat, stage: Name) {
    && Canonical(k) in before && before[Canonical(k)].Whole?
    && after == (before - {stage})[Canonical(k) := Whole(before[Canonical(k)].entry.(lastAccess := now))]
  }

  /** A file `scan` reports. */
  predicate Scanned(files: Files, n: Name) {
    n.Json? && n in files && files[n].Whole?
  }

  /** A readable copy of `k` that is not where the readers look. */
  predicate Legacy(files: Files, n: Name, k: Key) {
    Scanned(files, n) && KeyOf(files[n].entry) == k && n != Canonical(k)
  }

  ghost predicate HasCopy(files: Files, k: Key) {
    exists n :: Scanned(files, n) && KeyOf(files[n].entry) == k
  }

  /** Every canonical name that exists holds a whole entry of its own key. */
  ghost predicate SlotsKeyed(files: Files) {
    forall k: Key {:trigger Canonical(k)} :: Canonical(k) in files ==>
      files[Canonical(k)].Whole? && KeyOf(files[Canonical(k)].entry) == k
  }

  /** No canonical name holds an entry of another key. It may hold bytes that do not parse. */
  ghost predicate NoneMiskeyed(files: Files) {
    forall k: Key {:trigger Canonical(k)} :: Canonical(k) in files && files[Canonical(k)].Whole? ==>
      KeyOf(files[Canonical(k)].entry) == k
  }

  /** Which disk calls fail. A failed write leaves torn bytes in the staged file. */
  datatype Faults = Faults(read: bool, mkdir: bool, write: bool, rename: Name -> bool, remove: Name -> bool)

  function NoFaults(): Faults {
    Faults(false, false, false, _ => false, _ => false)
  }

  /** Removes each name it can; a file that cannot be removed just lingers. */
  function RemoveAll(files: Files, names: seq<Name>, io: Faults): Files {
    if names == [] then files
    else
      var rest := RemoveAll(files, names[..|names| - 1], io);
      var last := names[|names| - 1];
      if io.remove(last) then rest else rest - {last}
  }

  lemma {:induction false} RemoveAllKeeps(files: Files, names: seq<Name>, io: Faults)
    ensures var r := RemoveAll(files, names, io);
            && (forall n :: n in r <==> n in files && (n !in names || io.remove(n)))
            && (forall n :: n in r ==> r[n] == files[n])
  {
    if names != [] {
      var front, last := names[..|names| - 1], names[|names| - 1];
      RemoveAllKeeps(files, front, io);
      assert names == front + [last];
    }
  }
}
