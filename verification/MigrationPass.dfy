/** Recovery of entries that older builds stored under a name that included the fingerprint. A pass
    claims each collection's canonical slot for its newest legacy copy, then removes the others. */
module MigrationPass {
  import opened Wrappers
  import opened ManifestNames
  import opened CacheFiles

  datatype Copy = Copy(name: Name, lastAccess: nat)

  /** The legacy copies of one collection, in the order the scan met them. */
  datatype Group = Group(key: Key, copies: seq<Copy>)

  function AddTo(groups: seq<Group>, key: Key, copy: Copy): seq<Group> {
    if groups == [] then [Group(key, [copy])]
    else
      var last := groups[|groups| - 1];
      if last.key == key then groups[..|groups| - 1] + [Group(key, last.copies + [copy])]
      else AddTo(groups[..|groups| - 1], key, copy) + [last]
  }

  function GroupsOf(files: Files, order: seq<Name>): seq<Group> {
    if order == [] then []
    else
      var n := order[|order| - 1];
      var groups := GroupsOf(files, order[..|order| - 1]);
      if Scanned(files, n) && n != Canonical(KeyOf(files[n].entry))
      then AddTo(groups, KeyOf(files[n].entry), Copy(n, files[n].entry.lastAccess))
      else groups
  }

  function NamesOf(copies: seq<Copy>): (names: seq<Name>)
    ensures |names| == |copies|
    ensures forall i :: 0 <= i < |copies| ==> names[i] == copies[i].name
  {
    seq(|copies|, i requires 0 <= i < |copies| => copies[i].name)
  }

  function InsertNewest(sorted: seq<Copy>, c: Copy): seq<Copy> {
    if sorted == [] || sorted[|sorted| - 1].lastAccess >= c.lastAccess then sorted + [c]
    else InsertNewest(sorted[..|sorted| - 1], c) + [sorted[|sorted| - 1]]
  }

  /** The stable order by last access, newest first. */
  function NewestFirst(copies: seq<Copy>): seq<Copy> {
    if copies == [] then [] else InsertNewest(NewestFirst(copies[..|copies| - 1]), copies[|copies| - 1])
  }

  /** The slot first, then the removals; a slot that cannot be claimed skips its group. */
  function MigrateGroup(files: Files, g: Group, io: Faults): Files {
    var names := NamesOf(NewestFirst(g.copies));
    var slot := Canonical(g.key);
    if slot in files || names == [] then RemoveAll(files, names, io)
    else if names[0] !in files || io.rename(names[0]) then files
    else RemoveAll(Renamed(files, names[0], slot), names, io)
  }

  function MigratePass(files: Files, groups: seq<Group>, io: Faults): Files {
    if groups == [] then files
    else MigrateGroup(MigratePass(files, groups[..|groups| - 1], io), groups[|groups| - 1], io)
  }
}
